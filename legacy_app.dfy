/** The state of the earlier variant of the preview component: the loaded
    table, the template, the feedback of each record, the selection, the
    code filter, the header search term and the request in flight. It has no
    per-record status, maps placeholders through the fixed default mapping,
    and its client is always configured. The selection effect here runs on
    every change of the shown records, so loading, editing and filtering all
    move the selection to the first shown record. */
module LegacyApp {
  import opened Optional
  import opened Text
  import opened Tables
  import opened Annotations
  import opened Resolve

  // ---------------------------------------------------------------------
  // Validation outcomes

  const ErrorPrefix: string := "Ocorreu um erro ao tentar validar: "
  const EmptyReplyMessage: string := "AI response was empty."
  const NotJsonMessage: string := "AI response was not valid JSON."
  const NotArrayMessage: string := "AI response was not in the expected array format."

  /** The message of the error raised inside the request. A parse failure
      is reported with a fixed message; the parser's own is dropped. */
  function RaisedMessage(reply: Reply): string {
    match reply
    case Blank => EmptyReplyMessage
    case NotJson(_) => NotJsonMessage
    case NotArray => NotArrayMessage
    case Failed(e) => e
    case Items(_) => ""
  }

  /** The feedback a finished request leaves for the record. */
  function ReviewItems(reply: Reply): (items: seq<Feedback>)
    ensures items != []
  {
    match reply
    case Items(found) => if found == [] then [SuccessItem] else found
    case _ => [Feedback(General, ErrorPrefix + RaisedMessage(reply), "error")]
  }

  /** An empty list installs the general success item and a non-empty one is
      installed verbatim; anything else installs one general error item whose
      message is the prefix followed by the raised message, and two replies
      that fail to parse leave the same feedback. */
  lemma ReviewItemsCases(reply: Reply)
    ensures reply == Items([]) ==> ReviewItems(reply) == [SuccessItem]
    ensures reply.Items? && reply.items != [] ==> ReviewItems(reply) == reply.items
    ensures !reply.Items? ==>
              var items := ReviewItems(reply);
              && |items| == 1 && items[0].field == General && items[0].severity == "error"
              && |ErrorPrefix| <= |items[0].message|
              && items[0].message[..|ErrorPrefix|] == ErrorPrefix
              && items[0].message[|ErrorPrefix|..] == RaisedMessage(reply)
    ensures forall e1, e2 :: ReviewItems(NotJson(e1)) == ReviewItems(NotJson(e2))
  {
    if !reply.Items? {
      var message := ErrorPrefix + RaisedMessage(reply);
      assert message[..|ErrorPrefix|] == ErrorPrefix;
      assert message[|ErrorPrefix|..] == RaisedMessage(reply);
    }
  }

  /** The record's banner is a success exactly when the reviewer returned an
      empty list. */
  lemma ReviewBanner(reply: Reply)
    requires !(reply.Items? && reply.items != [])
    ensures GeneralFeedback(ReviewItems(reply)).Some?
    ensures GeneralFeedback(ReviewItems(reply)).value.severity == "success" <==> reply == Items([])
  {
    var items := ReviewItems(reply);
    assert items[0].field == General;
  }

  // ---------------------------------------------------------------------
  // The component state

  /** The external reviewer, as a function of the record sent to it. */
  type Reviewer = map<string, string> -> Reply

  datatype State = State(
    data: Option<Table>,                 // the loaded table
    template: Option<string>,            // the template's HTML
    feedbacks: map<nat, seq<Feedback>>,  // feedback per record position
    selected: Option<nat>,               // the selected record
    filter: string,                      // the code filter, "" for none
    searchTerm: string,                  // the header search term
    loading: bool,                       // a request is in flight
    validating: Option<nat>              // the record under validation
  )

  function Rows(s: State): seq<Row>
    requires s.data.Some?
  {
    s.data.value.rows
  }

  /** Positions in the state refer to loaded records. */
  ghost predicate Consistent(s: State) {
    && (s.data.None? ==> s.feedbacks == map[] && s.selected.None?)
    && (s.data.Some? ==>
          && (forall k :: k in s.feedbacks ==> k < |Rows(s)|)
          && (s.selected.Some? ==> s.selected.value < |Rows(s)|))
  }

  function Initial(): (s: State)
    ensures Consistent(s)
  {
    State(None, None, map[], None, "", "", false, None)
  }

  /** The records shown with the current filter. */
  function Shown(s: State): seq<Indexed> {
    DisplayedFixed(s.data, s.filter)
  }

  /** The selection effect: whenever the shown records change, the first of
      them becomes the selected one. */
  function SelectionReset(s: State): (r: State)
    ensures Consistent(s) ==> Consistent(r)
  {
    var view := Shown(s);
    if |view| > 0 then
      assert view[0] in view;
      s.(selected := Some(view[0].index))
    else s
  }

  /** The effect leaves everything but the selection alone; it selects the
      first shown record when there is one and keeps the selection
      otherwise. */
  lemma SelectionResetPicksFirst(s: State)
    ensures var r := SelectionReset(s);
      && r == s.(selected := r.selected)
      && (|Shown(s)| > 0 ==> r.selected == Some(Shown(s)[0].index))
      && (|Shown(s)| == 0 ==> r.selected == s.selected)
  {
  }

  // ---------------------------------------------------------------------
  // Handlers

  /** `handleCsvUpload` once the file is parsed, followed by the selection
      effect. */
  function Uploaded(s: State, headers: seq<string>, parsed: seq<Row>): (r: State)
    ensures Consistent(r)
  {
    var rows := KeepNonBlank(headers, parsed);
    SelectionReset(s.(data := Some(Table(headers, rows)), feedbacks := map[], template := None, filter := "",
                      selected := if |rows| > 0 then Some(0) else None))
  }

  /** After an upload the table holds the parsed rows that have content,
      feedback and the template are gone, the filter is cleared, and the
      first record is selected exactly when there is one. */
  lemma UploadResets(s: State, headers: seq<string>, parsed: seq<Row>)
    ensures var r := Uploaded(s, headers, parsed);
      && r.data == Some(Table(headers, KeepNonBlank(headers, parsed)))
      && r.feedbacks == map[] && r.template.None? && r.filter == ""
      && (r.selected.Some? <==> |KeepNonBlank(headers, parsed)| > 0)
      && (r.selected.Some? ==> r.selected.value == 0)
      && r.searchTerm == s.searchTerm && r.loading == s.loading && r.validating == s.validating
  {
    var rows := KeepNonBlank(headers, parsed);
    var t := s.(data := Some(Table(headers, rows)), feedbacks := map[], template := None, filter := "",
                selected := if |rows| > 0 then Some(0) else None);
    var view := Shown(t);
    if |rows| > 0 {
      assert Indexed(0, rows[0]) in view;
      FirstIsLeast(view);
    }
  }

  /** `handleCellEdit`, followed by the selection effect the new rows
      trigger. */
  function Edited(s: State, rowIndex: nat, header: string, value: string): (r: State)
    requires s.data.Some? ==> rowIndex < |Rows(s)|
    ensures Consistent(s) ==> Consistent(r)
  {
    if s.data.None? then s
    else
      var rows := Rows(s);
      SelectionReset(s.(data := Some(s.data.value.(rows := rows[rowIndex := rows[rowIndex][header := value]]))))
  }

  /** An edit changes exactly that cell, keeps the headers and every
      record's feedback, and moves the selection to the first record shown
      under the current filter, or leaves it when none is shown. */
  lemma EditChangesOnlyTheCell(s: State, rowIndex: nat, header: string, value: string)
    requires s.data.Some? && rowIndex < |Rows(s)|
    ensures var r := Edited(s, rowIndex, header, value);
      && r.data.Some? && r.data.value.headers == s.data.value.headers
      && |Rows(r)| == |Rows(s)|
      && Rows(r)[rowIndex] == Rows(s)[rowIndex][header := value]
      && (forall k :: 0 <= k < |Rows(s)| && k != rowIndex ==> Rows(r)[k] == Rows(s)[k])
      && r.feedbacks == s.feedbacks && r.filter == s.filter && r.template == s.template
      && r.searchTerm == s.searchTerm && r.loading == s.loading && r.validating == s.validating
      && (|Shown(r)| > 0 ==> r.selected == Some(Shown(r)[0].index))
      && (|Shown(r)| == 0 ==> r.selected == s.selected)
  {
  }

  /** An edit without a table changes nothing. */
  lemma EditWithoutTable(s: State, rowIndex: nat, header: string, value: string)
    requires s.data.None?
    ensures Edited(s, rowIndex, header, value) == s
  {
  }

  /** `handlePreview`: the record becomes the selected one. */
  function Selected(s: State, index: nat): (r: State)
    requires s.data.Some? && index < |Rows(s)|
    ensures Consistent(s) ==> Consistent(r)
  {
    s.(selected := Some(index))
  }

  /** Choosing a filter code, followed by the selection effect. */
  function FilterChosen(s: State, code: string): (r: State)
    ensures Consistent(s) ==> Consistent(r)
  {
    var t := s.(filter := code);
    assert Consistent(s) ==> Consistent(t);
    SelectionReset(t)
  }

  /** Unlike the later variant, a filter change always moves a selection to
      the first record with that code, even a selection that was set. */
  lemma FilterMovesSelection(s: State, code: string)
    requires s.data.Some? && code != ""
    requires exists k :: 0 <= k < |Rows(s)| && HasCode(Rows(s)[k], AnatelColumn, code)
    ensures var r := FilterChosen(s, code);
      && r.filter == code && r.selected.Some?
      && HasCode(Rows(s)[r.selected.value], AnatelColumn, code)
      && forall k :: 0 <= k < r.selected.value ==> !HasCode(Rows(s)[k], AnatelColumn, code)
  {
    var k :| 0 <= k < |Rows(s)| && HasCode(Rows(s)[k], AnatelColumn, code);
    var t := s.(filter := code);
    var view := Shown(t);
    assert Indexed(k, Rows(s)[k]) in view;
    FirstIsLeast(view);
    forall j | 0 <= j < view[0].index
      ensures !HasCode(Rows(s)[j], AnatelColumn, code)
    {
      assert Indexed(j, Rows(s)[j]) !in view;
    }
  }

  /** The header search term. */
  function Searched(s: State, term: string): (r: State)
    ensures Consistent(s) ==> Consistent(r)
  {
    s.(searchTerm := term)
  }

  /** `handleValidate` before the call: the request is in flight for the
      selected record, whose feedback is emptied. */
  function Begun(s: State, index: nat): (r: State)
    requires s.data.Some? && index < |Rows(s)|
    ensures Consistent(s) ==> Consistent(r)
  {
    s.(loading := true, validating := Some(index), feedbacks := s.feedbacks[index := []])
  }

  /** `handleValidate` after the call, with its `finally`. */
  function Completed(s: State, index: nat, reply: Reply): (r: State)
    requires s.data.Some? && index < |Rows(s)|
    ensures Consistent(s) ==> Consistent(r)
  {
    s.(feedbacks := s.feedbacks[index := ReviewItems(reply)], loading := false, validating := None)
  }

  /** `handleValidate`: with no selection or no table nothing happens;
      otherwise the selected record's values under the default mapping go to
      the reviewer and its reply becomes the record's feedback. */
  function Validated(s: State, reviewer: Reviewer): (r: State)
    requires s.data.Some? && s.selected.Some? ==> s.selected.value < |Rows(s)|
    ensures Consistent(s) ==> Consistent(r)
  {
    if s.selected.None? || s.data.None? then s
    else
      var index := s.selected.value;
      Completed(Begun(s, index), index, reviewer(ReviewPayload(DefaultMap, Rows(s)[index])))
  }

  /** A validation settles the selected record's feedback from the reply to
      its mapped values, ends with nothing in flight, and changes nothing
      else. */
  lemma ValidationSettles(s: State, reviewer: Reviewer)
    requires s.data.Some? && s.selected.Some? && s.selected.value < |Rows(s)|
    ensures var r := Validated(s, reviewer);
      var index := s.selected.value;
      && r.feedbacks == s.feedbacks[index := ReviewItems(reviewer(ReviewPayload(DefaultMap, Rows(s)[index])))]
      && !r.loading && r.validating.None?
      && r.data == s.data && r.selected == s.selected && r.filter == s.filter && r.template == s.template
  {
  }

  /** Without a selection, validating changes nothing. */
  lemma ValidationNeedsSelection(s: State, reviewer: Reviewer)
    requires s.selected.None?
    ensures Validated(s, reviewer) == s
  {
  }

  // ---------------------------------------------------------------------
  // The component

  class App {
    var data: Option<Table>
    var template: Option<string>
    var feedbacks: map<nat, seq<Feedback>>
    var selected: Option<nat>
    var filter: string
    var searchTerm: string
    var loading: bool
    var validating: Option<nat>

    /** The component's state as a value. */
    function St(): State
      reads this
    {
      State(data, template, feedbacks, selected, filter, searchTerm, loading, validating)
    }

    /** The component's state is consistent. */
    ghost predicate Valid()
      reads this
    {
      Consistent(St())
    }

    constructor()
      ensures St() == Initial() && Valid()
    {
      data := None;
      template := None;
      feedbacks := map[];
      selected := None;
      filter := "";
      searchTerm := "";
      loading := false;
      validating := None;
    }

    /** The selection effect. */
    method ResetSelection()
      modifies this
      ensures St() == SelectionReset(old(St()))
    {
      var view := DisplayedFixed(data, filter);
      if |view| > 0 {
        selected := Some(view[0].index);
      }
    }

    /** The first half of the upload: the new table replaces the old one,
        along with its feedback and the template. */
    method InstallTable(t: Table)
      modifies this
      ensures St() == old(St()).(data := Some(t), feedbacks := map[], template := None)
    {
      data := Some(t);
      feedbacks := map[];
      template := None;
    }

    /** The upload's own state updates, before the selection effect. */
    method InstallUpload(t: Table)
      modifies this
      ensures St() == old(St()).(data := Some(t), feedbacks := map[], template := None, filter := "",
                                 selected := if |t.rows| > 0 then Some(0) else None)
    {
      InstallTable(t);
      filter := "";
      if |t.rows| > 0 {
        selected := Some(0);
      } else {
        selected := None;
      }
    }

    method HandleCsvUpload(headers: seq<string>, parsed: seq<Row>)
      requires Valid()
      modifies this
      ensures Valid()
      ensures St() == Uploaded(old(St()), headers, parsed)
    {
      var rows := KeepNonBlank(headers, parsed);
      InstallUpload(Table(headers, rows));
      ResetSelection();
    }

    method HandleCellEdit(rowIndex: nat, header: string, value: string)
      requires Valid() && (data.Some? ==> rowIndex < |data.value.rows|)
      modifies this
      ensures Valid()
      ensures St() == Edited(old(St()), rowIndex, header, value)
    {
      if data.None? {
        return;
      }
      var updatedRows := data.value.rows;
      updatedRows := updatedRows[rowIndex := updatedRows[rowIndex][header := value]];
      data := Some(data.value.(rows := updatedRows));
      ResetSelection();
    }

    method HandlePreview(index: nat)
      requires Valid() && data.Some? && index < |data.value.rows|
      modifies this
      ensures Valid()
      ensures St() == Selected(old(St()), index)
    {
      selected := Some(index);
    }

    method SetFilter(code: string)
      requires Valid()
      modifies this
      ensures Valid()
      ensures St() == FilterChosen(old(St()), code)
    {
      filter := code;
      ResetSelection();
    }

    method SetSearchTerm(term: string)
      requires Valid()
      modifies this
      ensures Valid()
      ensures St() == Searched(old(St()), term)
    {
      searchTerm := term;
    }

    method HandleValidate(reviewer: Reviewer)
      requires Valid()
      modifies this
      ensures Valid()
      ensures St() == Validated(old(St()), reviewer)
    {
      if selected.None? || data.None? {
        return;
      }
      var index := selected.value;
      loading := true;
      validating := Some(index);
      feedbacks := feedbacks[index := []];
      var recordForReview := ReviewPayload(DefaultMap, data.value.rows[index]);
      var reply := reviewer(recordForReview);
      feedbacks := feedbacks[index := ReviewItems(reply)];
      loading := false;
      validating := None;
    }
  }
}
