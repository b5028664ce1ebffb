/** The state of the later variant of the preview component: the loaded
    table and its mapping, the template, the feedback and validation status
    of each record, the selection and the code filter, and the two-step
    loading flow (format choice, then either the default mapping or a
    generated template). Each handler is specified by a transition function
    on a snapshot of the state, and the class's methods perform the same
    update field by field. */
module ReviewApp {
  import opened Optional
  import opened Text
  import opened Tables
  import opened Annotations
  import opened Resolve

  // ---------------------------------------------------------------------
  // Validation outcomes

  const EmptyReplyMessage: string := "A resposta da IA estava vazia."
  const NotArrayMessage: string := "A resposta da IA não está no formato de array esperado."
  const InvalidKeyText: string := "Chave de API inválida."
  const ErrorPrefix: string := "Ocorreu um erro: "
  const InvalidKeyMarker: string := "API key not valid"

  /** The status and feedback a finished request leaves for its record. */
  datatype Outcome = Outcome(status: Status, items: seq<Feedback>)

  /** The message of the error a reply raises inside the request: the two
      checks on the response text, the parser's error, or the call's own. */
  function RaisedMessage(reply: Reply): string {
    match reply
    case Blank => EmptyReplyMessage
    case NotJson(e) => e
    case NotArray => NotArrayMessage
    case Failed(e) => e
    case Items(_) => ""
  }

  /** The banner text for a raised error. */
  function ErrorText(message: string): string {
    if Contains(message, InvalidKeyMarker) then InvalidKeyText else ErrorPrefix + message
  }

  /** The invalid-key text appears exactly when the message mentions an
      invalid key; any other message is shown in full after the prefix. */
  lemma ErrorTextKeepsMessage(message: string)
    ensures ErrorText(message) == InvalidKeyText <==> Contains(message, InvalidKeyMarker)
    ensures !Contains(message, InvalidKeyMarker) ==>
              |ErrorPrefix| <= |ErrorText(message)| && ErrorText(message)[|ErrorPrefix|..] == message
  {
    if !Contains(message, InvalidKeyMarker) {
      var t := ErrorText(message);
      assert t[|ErrorPrefix|..] == message;
      assert t[0] == 'O' != InvalidKeyText[0];
    }
  }

  /** What a reply leaves for the record. */
  function ReviewOutcome(reply: Reply): (o: Outcome)
    ensures o.status == Success || o.status == Error
    ensures o.items != []
  {
    match reply
    case Items(items) =>
      if items == [] then Outcome(Success, [SuccessItem]) else Outcome(Error, items)
    case _ =>
      Outcome(Error, [Feedback(General, ErrorText(RaisedMessage(reply)), "error")])
  }

  /** A record succeeds exactly when the reviewer returns an empty list; it
      then carries one general success item. A non-empty list is installed
      verbatim; any other reply installs one general error item. */
  lemma OutcomeCases(reply: Reply)
    ensures ReviewOutcome(reply).status == Success <==> reply == Items([])
    ensures reply == Items([]) ==> ReviewOutcome(reply).items == [SuccessItem]
    ensures reply.Items? && reply.items != [] ==> ReviewOutcome(reply).items == reply.items
    ensures !reply.Items? ==>
              var items := ReviewOutcome(reply).items;
              |items| == 1 && items[0].field == General && items[0].severity == "error"
              && items[0].message == ErrorText(RaisedMessage(reply))
  {
  }

  /** Every outcome other than a reported list shows a general banner, whose
      severity tells success from failure. */
  lemma OutcomeBanner(reply: Reply)
    requires !(reply.Items? && reply.items != [])
    ensures GeneralFeedback(ReviewOutcome(reply).items).Some?
    ensures GeneralFeedback(ReviewOutcome(reply).items).value.severity == "success"
            <==> reply == Items([])
  {
    var items := ReviewOutcome(reply).items;
    assert items[0].field == General;
  }

  // ---------------------------------------------------------------------
  // The component state

  /** The external reviewer, as a function of the record sent to it. */
  type Reviewer = map<string, string> -> Reply

  datatype State = State(
    data: Option<Table>,                 // the loaded table
    mapping: Mapping,                    // the active mapping
    template: Option<string>,            // the template's HTML
    feedbacks: map<nat, seq<Feedback>>,  // feedback per record position
    statuses: map<nat, Status>,          // validation status per record position
    selected: Option<nat>,               // the selected record
    filter: string,                      // the code filter, "" for none
    validating: Option<nat>,             // the record under validation
    original: Option<Table>,             // the table as parsed, before the format choice
    choosingFormat: bool,                // the format choice is open
    pending: Option<Table>,              // a foreign-layout table awaiting a template
    awaitingTemplate: bool,              // the template-generation choice is open
    hasClient: bool                      // a reviewer client is configured
  )

  function Rows(s: State): seq<Row>
    requires s.data.Some?
  {
    s.data.value.rows
  }

  /** The state between handlers: positions refer to loaded records, every
      loaded record has a status, nothing is kept for a table that is not
      loaded, and no request is in flight, so no record is validating (both
      validation buttons are disabled while one is). */
  ghost predicate Consistent(s: State) {
    && s.validating.None?
    && (s.data.None? ==> s.statuses == map[] && s.feedbacks == map[] && s.selected.None?)
    && (s.data.Some? ==>
          && (forall k: nat :: k in s.statuses <==> k < |Rows(s)|)
          && (forall k :: k in s.statuses ==> s.statuses[k] != Validating)
          && (forall k :: k in s.feedbacks ==> k < |Rows(s)|)
          && (s.selected.Some? ==> s.selected.value < |Rows(s)|))
  }

  /** While the request for `index` is in flight: that record, and only it,
      is validating, and positions refer to loaded records. */
  ghost predicate InFlight(s: State, index: nat) {
    && s.data.Some? && index < |Rows(s)|
    && s.validating == Some(index)
    && (forall k: nat :: k in s.statuses <==> k < |Rows(s)|)
    && (forall k :: k in s.statuses ==> (s.statuses[k] == Validating <==> k == index))
    && (forall k :: k in s.feedbacks ==> k < |Rows(s)|)
    && (s.selected.Some? ==> s.selected.value < |Rows(s)|)
  }

  function Initial(client: bool): (s: State)
    ensures Consistent(s)
  {
    State(None, DefaultMap, None, map[], map[], None, "", None, None, false, None, false, client)
  }

  /** Every record of a table of `n` rows, not yet validated. */
  function FreshStatuses(n: nat): (st: map<nat, Status>)
    ensures forall k: nat :: k in st <==> k < n
    ensures forall k :: k in st ==> st[k] == NotValidated
  {
    if n == 0 then map[] else FreshStatuses(n - 1)[n - 1 := NotValidated]
  }

  // ---------------------------------------------------------------------
  // Loading

  /** `handleCsvUpload` once the file is parsed: rows without content are
      dropped and the format choice opens. */
  function Uploaded(s: State, headers: seq<string>, parsed: seq<Row>): (r: State)
    ensures Consistent(s) ==> Consistent(r)
  {
    s.(original := Some(Table(headers, KeepNonBlank(headers, parsed))), choosingFormat := true)
  }

  /** `finishCsvLoad`, with the status initialisation that loading a table
      triggers. */
  function Loaded(s: State, t: Table, m: Mapping, newTemplate: Option<string>): (r: State)
    ensures s.validating.None? ==> Consistent(r)
  {
    s.(data := Some(t), mapping := m,
       template := if newTemplate.Some? && newTemplate.value != "" then newTemplate else s.template,
       feedbacks := map[], statuses := FreshStatuses(|t.rows|), filter := "",
       selected := if |t.rows| > 0 then Some(0) else None,
       awaitingTemplate := false, pending := None)
  }

  /** After loading: the table and mapping are installed, feedback is gone,
      every record is not validated, the filter is cleared, the first record
      is selected if there is one, the template changes only for a non-empty
      new one, and nothing is pending. */
  lemma LoadResets(s: State, t: Table, m: Mapping, newTemplate: Option<string>)
    ensures var r := Loaded(s, t, m, newTemplate);
      && r.data == Some(t) && r.mapping == m
      && r.feedbacks == map[] && r.filter == ""
      && (forall k: nat :: k in r.statuses <==> k < |t.rows|)
      && (forall k :: k in r.statuses ==> r.statuses[k] == NotValidated)
      && (r.selected.Some? <==> |t.rows| > 0)
      && (r.selected.Some? ==> r.selected.value == 0)
      && (r.template != s.template ==> newTemplate.Some? && newTemplate.value != "" && r.template == newTemplate)
      && r.pending.None? && !r.awaitingTemplate
  {
  }

  /** `processDataAfterFormatting`: a table with a foreign layout waits for
      a generated template; any other loads with the default mapping. */
  function Processed(s: State, t: Table): (r: State)
    ensures Consistent(s) ==> Consistent(r)
  {
    if IsForeignLayout(t.headers) then s.(pending := Some(t), awaitingTemplate := true)
    else Loaded(s, t, DefaultMap, None)
  }

  /** The table waits for a template exactly when at most 24 of its headers
      are default columns; otherwise it is loaded under the default
      mapping and the template is kept. */
  lemma ProcessedBranches(s: State, t: Table)
    ensures var r := Processed(s, t);
      && (r.awaitingTemplate && r.pending == Some(t) <==> MatchCount(t.headers) <= 24)
      && (MatchCount(t.headers) <= 24 ==> r.data == s.data)
      && (MatchCount(t.headers) > 24 ==> r.data == Some(t) && r.mapping == DefaultMap && r.template == s.template)
  {
    ForeignLayoutThreshold(t.headers);
  }

  /** `handleSkipFormatting`. */
  function FormatSkipped(s: State): (r: State)
    requires s.original.Some?
    ensures Consistent(s) ==> Consistent(r)
  {
    Processed(s.(choosingFormat := false), s.original.value)
  }

  /** `handleGenerateTemplate`, with `generated` the cleaned reply text, or
      None when the request failed. Without a client, or with nothing
      pending, nothing happens. */
  function TemplateGenerated(s: State, generated: Option<string>): (r: State)
    ensures Consistent(s) ==> Consistent(r)
  {
    if !s.hasClient || s.pending.None? then s
    else match generated
      case Some(html) => Loaded(s, s.pending.value, IdentityMap(s.pending.value.headers), Some(html))
      case None => s.(awaitingTemplate := false)
  }

  /** A generated template loads the pending table under the identity
      mapping of its headers; a failed request closes the choice but keeps
      the pending table. */
  lemma GeneratedTemplateLoads(s: State, generated: Option<string>)
    requires s.hasClient && s.pending.Some?
    ensures var r := TemplateGenerated(s, generated);
      && !r.awaitingTemplate
      && (generated.Some? ==> r.data == s.pending && r.mapping == IdentityMap(s.pending.value.headers)
                              && r.pending.None?)
      && (generated.None? ==> r.data == s.data && r.pending == s.pending)
  {
  }

  /** `handleCloseTemplateGenModal`. */
  function TemplateChoiceClosed(s: State): (r: State)
    ensures Consistent(s) ==> Consistent(r)
  {
    s.(awaitingTemplate := false, pending := None)
  }

  // ---------------------------------------------------------------------
  // Editing, selection and filtering

  /** `handleCellEdit`: the cell is set and the record marked not
      validated; the new table then triggers the status initialisation,
      which marks every record not validated. */
  function Edited(s: State, rowIndex: nat, header: string, value: string): (r: State)
    requires s.data.Some? ==> rowIndex < |Rows(s)|
    ensures Consistent(s) ==> Consistent(r)
  {
    match s.data
    case None => s
    case Some(t) =>
      var rows := t.rows[rowIndex := t.rows[rowIndex][header := value]];
      s.(data := Some(t.(rows := rows)), statuses := FreshStatuses(|rows|))
  }

  /** Editing changes that one cell and no other cell or record, keeps
      every record's feedback, and leaves every record not validated. */
  lemma EditUpdatesTheCell(s: State, rowIndex: nat, header: string, value: string)
    requires s.data.Some? && rowIndex < |Rows(s)|
    ensures var r := Edited(s, rowIndex, header, value);
      && r.data.Some? && |Rows(r)| == |Rows(s)| && r.data.value.headers == s.data.value.headers
      && (forall k :: 0 <= k < |Rows(s)| && k != rowIndex ==> Rows(r)[k] == Rows(s)[k])
      && header in Rows(r)[rowIndex] && Rows(r)[rowIndex][header] == value
      && (forall c :: c != header ==> (c in Rows(r)[rowIndex] <==> c in Rows(s)[rowIndex]))
      && (forall c :: c != header && c in Rows(s)[rowIndex] ==> Rows(r)[rowIndex][c] == Rows(s)[rowIndex][c])
      && (forall k: nat :: k in r.statuses <==> k < |Rows(s)|)
      && (forall k :: k in r.statuses ==> r.statuses[k] == NotValidated)
      && r.feedbacks == s.feedbacks
      && r.selected == s.selected && r.filter == s.filter && r.mapping == s.mapping && r.template == s.template
  {
  }

  /** Editing without a loaded table does nothing. */
  lemma EditWithoutTable(s: State, rowIndex: nat, header: string, value: string)
    requires s.data.None?
    ensures Edited(s, rowIndex, header, value) == s
  {
  }

  /** `handlePreview`: the record becomes the selected one. */
  function Selected(s: State, index: nat): (r: State)
    requires s.data.Some? && index < |Rows(s)|
    ensures Consistent(s) ==> Consistent(r)
  {
    s.(selected := Some(index))
  }

  /** The selection effect: when nothing is selected and some record is
      shown, the first shown record is selected. */
  function SelectionSynced(s: State): (r: State)
    ensures Consistent(s) ==> Consistent(r)
  {
    var view := Displayed(s.data, s.mapping, s.filter);
    if |view| > 0 && s.selected.None? then
      assert view[0] in view;
      s.(selected := Some(view[0].index))
    else s
  }

  /** Choosing a filter code, followed by the selection effect. */
  function FilterChosen(s: State, code: string): (r: State)
    ensures Consistent(s) ==> Consistent(r)
  {
    var t := s.(filter := code);
    assert Consistent(s) ==> Consistent(t);
    SelectionSynced(t)
  }

  /** A selection survives a filter change even when the filter hides the
      selected record; only an empty selection moves to the first shown
      record. */
  lemma FilterKeepsSelection(s: State, code: string)
    ensures var r := FilterChosen(s, code);
      && r.filter == code
      && (s.selected.Some? ==> r.selected == s.selected)
      && (s.selected.None? && |Displayed(s.data, s.mapping, code)| > 0 ==>
            r.selected == Some(Displayed(s.data, s.mapping, code)[0].index))
  {
  }

  // ---------------------------------------------------------------------
  // Validation

  /** The request starts: the record is marked as validating and its
      feedback is emptied. */
  function Begun(s: State, index: nat): (r: State)
    requires s.data.Some? && index < |Rows(s)|
    ensures Consistent(s) ==> InFlight(r, index)
  {
    s.(validating := Some(index), statuses := s.statuses[index := Validating], feedbacks := s.feedbacks[index := []])
  }

  /** The request ends with `reply`. */
  function Completed(s: State, index: nat, reply: Reply): (r: State)
    requires s.data.Some? && index < |Rows(s)|
    ensures InFlight(s, index) ==> Consistent(r)
  {
    var o := ReviewOutcome(reply);
    s.(feedbacks := s.feedbacks[index := o.items], statuses := s.statuses[index := o.status], validating := None)
  }

  /** `runValidationForIndex`: without a client nothing changes; otherwise
      the record's mapped values go to the reviewer and its reply decides
      the record's status and feedback. */
  function Validated(s: State, index: nat, reviewer: Reviewer): (r: State)
    requires s.data.Some? && index < |Rows(s)|
    ensures Consistent(s) ==> Consistent(r)
    ensures r.data == s.data && r.mapping == s.mapping && r.filter == s.filter
    ensures r.selected == s.selected && r.hasClient == s.hasClient
  {
    if !s.hasClient then s
    else Completed(Begun(s, index), index, reviewer(ReviewPayload(s.mapping, Rows(s)[index])))
  }

  /** What `runValidationForIndex` returns. */
  function ValidationResult(s: State, index: nat, reviewer: Reviewer): Status
    requires s.data.Some? && index < |Rows(s)|
  {
    if !s.hasClient then Error else ReviewOutcome(reviewer(ReviewPayload(s.mapping, Rows(s)[index]))).status
  }

  /** The record went through the reviewer: its status and feedback are the
      outcome of the reviewer's reply to its mapped values. */
  predicate Reviewed(r: State, m: Mapping, e: Indexed, reviewer: Reviewer) {
    var o := ReviewOutcome(reviewer(ReviewPayload(m, e.row)));
    && e.index in r.statuses && r.statuses[e.index] == o.status
    && e.index in r.feedbacks && r.feedbacks[e.index] == o.items
  }

  /** Record `k` has the status and feedback it had in `s`. */
  predicate Untouched(r: State, s: State, k: nat) {
    && (k in r.statuses <==> k in s.statuses)
    && (k in s.statuses ==> r.statuses[k] == s.statuses[k])
    && (k in r.feedbacks <==> k in s.feedbacks)
    && (k in s.feedbacks ==> r.feedbacks[k] == s.feedbacks[k])
  }

  /** Without a client a validation returns an error and changes nothing;
      with one it settles that record only, on success or error, and
      returns the record's new status. */
  lemma ValidationSettles(s: State, index: nat, reviewer: Reviewer)
    requires s.data.Some? && index < |Rows(s)|
    ensures !s.hasClient ==> Validated(s, index, reviewer) == s && ValidationResult(s, index, reviewer) == Error
    ensures s.hasClient ==>
      var r := Validated(s, index, reviewer);
      && Reviewed(r, s.mapping, Indexed(index, Rows(s)[index]), reviewer)
      && r.statuses[index] == ValidationResult(s, index, reviewer)
      && (r.statuses[index] == Success || r.statuses[index] == Error)
      && r.validating.None?
      && (forall k: nat :: k != index ==> Untouched(r, s, k))
  {
  }

  /** The validation state machine: any status goes back to not validated
      when a table is loaded or edited; a record that is not validating
      starts validating (a settled record can be validated again); a
      validating record settles on success or error. */
  predicate StatusStep(before: Status, after: Status) {
    || after == NotValidated
    || (before != Validating && after == Validating)
    || (before == Validating && (after == Success || after == Error))
  }

  /** Between handlers any record can be validated, whatever its status;
      starting and finishing its request are steps of the state machine,
      and no other record's status moves. */
  lemma ValidationFollowsTheMachine(s: State, index: nat, reply: Reply)
    requires Consistent(s) && s.data.Some? && index < |Rows(s)|
    ensures index in s.statuses
    ensures var b := Begun(s, index);
      && InFlight(b, index)
      && StatusStep(s.statuses[index], b.statuses[index])
      && StatusStep(b.statuses[index], Completed(b, index, reply).statuses[index])
      && (forall k :: k in s.statuses && k != index ==> Completed(b, index, reply).statuses[k] == s.statuses[k])
  {
  }

  /** The batch over the shown records `view`: each is selected, then
      validated, in order. */
  function BatchSteps(s: State, view: seq<Indexed>, reviewer: Reviewer): (r: State)
    requires s.data.Some? && forall j :: 0 <= j < |view| ==> view[j].index < |Rows(s)|
    ensures r.data == s.data && r.mapping == s.mapping && r.filter == s.filter && r.hasClient == s.hasClient
    decreases |view|
  {
    if view == [] then s
    else
      var before := BatchSteps(s, view[..|view| - 1], reviewer);
      var index := view[|view| - 1].index;
      Validated(Selected(before, index), index, reviewer)
  }

  /** A batch from a consistent state leaves it consistent. */
  lemma {:induction false} BatchStepsKeepConsistent(s: State, view: seq<Indexed>, reviewer: Reviewer)
    requires s.data.Some? && forall j :: 0 <= j < |view| ==> view[j].index < |Rows(s)|
    requires Consistent(s)
    ensures Consistent(BatchSteps(s, view, reviewer))
    decreases |view|
  {
    if view != [] {
      var init := view[..|view| - 1];
      BatchStepsKeepConsistent(s, init, reviewer);
      var before := BatchSteps(s, init, reviewer);
      var index := view[|view| - 1].index;
      assert Consistent(Selected(before, index));
    }
  }

  /** The records a batch goes through: every shown one with a client;
      without one, only the first, whose validation fails and ends the
      loop. */
  function BatchView(s: State): (view: seq<Indexed>)
    requires s.data.Some?
    ensures InLoadOrder(Rows(s), view)
    ensures view <= Displayed(s.data, s.mapping, s.filter)
    ensures s.hasClient ==> view == Displayed(s.data, s.mapping, s.filter)
    ensures !s.hasClient ==> |view| == if Displayed(s.data, s.mapping, s.filter) == [] then 0 else 1
  {
    var shown := Displayed(s.data, s.mapping, s.filter);
    if s.hasClient || |shown| <= 1 then shown else shown[..1]
  }

  /** `BatchSteps` over one more record of `view`. */
  lemma BatchStepsExtend(s: State, view: seq<Indexed>, i: nat, reviewer: Reviewer)
    requires s.data.Some? && InLoadOrder(Rows(s), view) && i < |view|
    ensures var before := BatchSteps(s, view[..i], reviewer);
      BatchSteps(s, view[..i + 1], reviewer)
        == Validated(Selected(before, view[i].index), view[i].index, reviewer)
  {
    assert view[..i + 1][..i] == view[..i];
  }

  function Indices(view: seq<Indexed>): set<nat> {
    set e | e in view :: e.index
  }

  /** One step of the batch: the record is selected, settled by the
      reviewer's reply, and no other record changes. */
  lemma BatchStepSettles(before: State, e: Indexed, reviewer: Reviewer)
    requires before.data.Some? && before.hasClient
    requires e.index < |Rows(before)| && e.row == Rows(before)[e.index]
    ensures var r := Validated(Selected(before, e.index), e.index, reviewer);
      && Reviewed(r, before.mapping, e, reviewer)
      && (forall k: nat :: k != e.index ==> Untouched(r, before, k))
      && r.selected == Some(e.index) && r.validating.None?
  {
    ValidationSettles(Selected(before, e.index), e.index, reviewer);
  }

  lemma ReviewStays(before: State, r: State, m: Mapping, e: Indexed, reviewer: Reviewer)
    requires Reviewed(before, m, e, reviewer) && Untouched(r, before, e.index)
    ensures Reviewed(r, m, e, reviewer)
  {
  }

  lemma IndicesOfPrefix(view: seq<Indexed>)
    requires view != []
    ensures Indices(view) == Indices(view[..|view| - 1]) + {view[|view| - 1].index}
  {
    var init := view[..|view| - 1];
    assert view == init + [view[|view| - 1]];
  }

  /** The inductive step of `BatchSettlesEachShownRecord`. */
  lemma BatchReviewStep(s: State, view: seq<Indexed>, reviewer: Reviewer)
    requires s.data.Some? && s.hasClient && InLoadOrder(Rows(s), view) && view != []
    requires var init := view[..|view| - 1];
      forall j :: 0 <= j < |init| ==> Reviewed(BatchSteps(s, init, reviewer), s.mapping, init[j], reviewer)
    ensures var r := BatchSteps(s, view, reviewer);
      forall j :: 0 <= j < |view| ==> Reviewed(r, s.mapping, view[j], reviewer)
  {
    var init := view[..|view| - 1];
    var last := view[|view| - 1];
    var before := BatchSteps(s, init, reviewer);
    var r := BatchSteps(s, view, reviewer);
    assert last.row == Rows(before)[last.index];
    BatchStepSettles(before, last, reviewer);
    forall j | 0 <= j < |view| - 1 ensures Reviewed(r, s.mapping, view[j], reviewer) {
      assert view[j] == init[j];
      ReviewStays(before, r, s.mapping, view[j], reviewer);
    }
  }

  /** With a client, a batch over the shown records leaves each of them
      settled by the reviewer's reply to it. */
  lemma {:induction false} BatchSettlesEachShownRecord(s: State, view: seq<Indexed>, reviewer: Reviewer)
    requires s.data.Some? && s.hasClient && InLoadOrder(Rows(s), view)
    ensures var r := BatchSteps(s, view, reviewer);
      forall j :: 0 <= j < |view| ==> Reviewed(r, s.mapping, view[j], reviewer)
    decreases |view|
  {
    if view != [] {
      var init := view[..|view| - 1];
      assert InLoadOrder(Rows(s), init);
      BatchSettlesEachShownRecord(s, init, reviewer);
      BatchReviewStep(s, view, reviewer);
    }
  }

  /** With a client, a batch changes no record outside the shown ones. */
  lemma {:induction false} BatchLeavesHiddenRecords(s: State, view: seq<Indexed>, reviewer: Reviewer)
    requires s.data.Some? && s.hasClient && InLoadOrder(Rows(s), view)
    ensures var r := BatchSteps(s, view, reviewer);
      forall k: nat :: k !in Indices(view) ==> Untouched(r, s, k)
    decreases |view|
  {
    if view != [] {
      var init := view[..|view| - 1];
      var last := view[|view| - 1];
      assert InLoadOrder(Rows(s), init);
      BatchLeavesHiddenRecords(s, init, reviewer);
      var before := BatchSteps(s, init, reviewer);
      BatchStepSettles(before, last, reviewer);
      IndicesOfPrefix(view);
    }
  }

  /** With a client, a batch over at least one record ends with the last
      shown record selected and no request in flight. */
  lemma BatchEndsOnLastShown(s: State, view: seq<Indexed>, reviewer: Reviewer)
    requires s.data.Some? && s.hasClient && InLoadOrder(Rows(s), view) && view != []
    ensures var r := BatchSteps(s, view, reviewer);
      r.selected == Some(view[|view| - 1].index) && r.validating.None?
  {
    var init := view[..|view| - 1];
    var last := view[|view| - 1];
    assert InLoadOrder(Rows(s), init);
    BatchStepSettles(BatchSteps(s, init, reviewer), last, reviewer);
  }

  // ---------------------------------------------------------------------
  // The component

  /** The status initialisation: one entry per record, each not yet
      validated. */
  method InitialStatuses(n: nat) returns (initial: map<nat, Status>)
    ensures initial == FreshStatuses(n)
  {
    initial := map[];
    for i := 0 to n
      invariant initial == FreshStatuses(i)
    {
      initial := initial[i := NotValidated];
    }
  }

  class App {
    var data: Option<Table>
    var mapping: Mapping
    var template: Option<string>
    var feedbacks: map<nat, seq<Feedback>>
    var statuses: map<nat, Status>
    var selected: Option<nat>
    var filter: string
    var validating: Option<nat>
    var original: Option<Table>
    var choosingFormat: bool
    var pending: Option<Table>
    var awaitingTemplate: bool
    var hasClient: bool

    /** The component's state as a value. */
    function St(): State
      reads this
    {
      State(data, mapping, template, feedbacks, statuses, selected, filter, validating,
            original, choosingFormat, pending, awaitingTemplate, hasClient)
    }

    /** The component is between handlers and its state is consistent. */
    ghost predicate Valid()
      reads this
    {
      Consistent(St())
    }

    constructor(client: bool)
      ensures St() == Initial(client) && Valid()
    {
      data := None;
      mapping := DefaultMap;
      template := None;
      feedbacks := map[];
      statuses := map[];
      selected := None;
      filter := "";
      validating := None;
      original := None;
      choosingFormat := false;
      pending := None;
      awaitingTemplate := false;
      hasClient := client;
    }

    method HandleCsvUpload(headers: seq<string>, parsed: seq<Row>)
      requires Valid()
      modifies this
      ensures Valid()
      ensures St() == Uploaded(old(St()), headers, parsed)
    {
      original := Some(Table(headers, KeepNonBlank(headers, parsed)));
      choosingFormat := true;
    }

    /** The first half of `finishCsvLoad`: the table and its mapping are
        installed, and the template only when a non-empty one is given. */
    method InstallTable(t: Table, m: Mapping, newTemplate: Option<string>)
      modifies this
      ensures St() == old(St()).(data := Some(t), mapping := m,
        template := if newTemplate.Some? && newTemplate.value != "" then newTemplate else old(template))
    {
      data := Some(t);
      mapping := m;
      if newTemplate.Some? && newTemplate.value != "" {
        template := newTemplate;
      }
    }

    /** The second half of `finishCsvLoad`, with the status initialisation
        that installing a table of `n` rows triggers. */
    method ResetReview(n: nat)
      modifies this
      ensures St() == old(St()).(feedbacks := map[], filter := "",
        selected := if n > 0 then Some(0) else None, statuses := FreshStatuses(n))
    {
      feedbacks := map[];
      filter := "";
      if n > 0 {
        selected := Some(0);
      } else {
        selected := None;
      }
      statuses := InitialStatuses(n);
    }

    method FinishCsvLoad(t: Table, m: Mapping, newTemplate: Option<string>)
      requires Valid()
      modifies this
      ensures Valid()
      ensures St() == Loaded(old(St()), t, m, newTemplate)
    {
      InstallTable(t, m, newTemplate);
      ResetReview(|t.rows|);
      HandleCloseTemplateGenModal();
    }

    method ProcessDataAfterFormatting(t: Table)
      requires Valid()
      modifies this
      ensures Valid()
      ensures St() == Processed(old(St()), t)
    {
      var defaultHeaders := DefaultHeaders;
      var matchCount := MatchCount(t.headers);
      if 10 * matchCount < 7 * |defaultHeaders| {
        pending := Some(t);
        awaitingTemplate := true;
      } else {
        FinishCsvLoad(t, DefaultMap, None);
      }
    }

    method HandleSkipFormatting()
      requires Valid() && original.Some?
      modifies this
      ensures Valid()
      ensures St() == FormatSkipped(old(St()))
    {
      choosingFormat := false;
      ProcessDataAfterFormatting(original.value);
    }

    method HandleGenerateTemplate(generated: Option<string>)
      requires Valid()
      modifies this
      ensures Valid()
      ensures St() == TemplateGenerated(old(St()), generated)
    {
      if !hasClient || pending.None? {
        return;
      }
      match generated {
        case Some(html) =>
          var t := pending.value;
          FinishCsvLoad(t, IdentityMap(t.headers), Some(html));
        case None =>
      }
      awaitingTemplate := false;
    }

    method HandleCloseTemplateGenModal()
      requires Valid()
      modifies this
      ensures Valid()
      ensures St() == TemplateChoiceClosed(old(St()))
    {
      awaitingTemplate := false;
      pending := None;
    }

    method HandleCellEdit(rowIndex: nat, header: string, value: string)
      requires Valid() && (data.Some? ==> rowIndex < |data.value.rows|)
      modifies this
      ensures Valid()
      ensures St() == Edited(old(St()), rowIndex, header, value)
    {
      if data.None? {
        return;
      }
      var updatedRows := data.value.rows;
      updatedRows := updatedRows[rowIndex := updatedRows[rowIndex][header := value]];
      data := Some(data.value.(rows := updatedRows));
      statuses := statuses[rowIndex := NotValidated];
      statuses := InitialStatuses(|updatedRows|);
    }

    method HandlePreview(index: nat)
      requires Valid() && data.Some? && index < |data.value.rows|
      modifies this
      ensures Valid()
      ensures St() == Selected(old(St()), index)
    {
      selected := Some(index);
    }

    method SyncSelection()
      requires Valid()
      modifies this
      ensures Valid()
      ensures St() == SelectionSynced(old(St()))
    {
      var view := Displayed(data, mapping, filter);
      if |view| > 0 && selected.None? {
        selected := Some(view[0].index);
      }
    }

    method SetFilter(code: string)
      requires Valid()
      modifies this
      ensures Valid()
      ensures St() == FilterChosen(old(St()), code)
    {
      filter := code;
      SyncSelection();
    }

    method BeginValidation(index: nat)
      requires data.Some? && index < |data.value.rows|
      modifies this
      ensures St() == Begun(old(St()), index)
    {
      validating := Some(index);
      statuses := statuses[index := Validating];
      feedbacks := feedbacks[index := []];
    }

    method CompleteValidation(index: nat, reply: Reply)
      requires data.Some? && index < |data.value.rows|
      modifies this
      ensures St() == Completed(old(St()), index, reply)
    {
      var outcome := ReviewOutcome(reply);
      feedbacks := feedbacks[index := outcome.items];
      statuses := statuses[index := outcome.status];
      validating := None;
    }

    method RunValidationForIndex(index: nat, reviewer: Reviewer) returns (result: Status)
      requires Valid() && data.Some? && index < |data.value.rows|
      modifies this
      ensures Valid()
      ensures St() == Validated(old(St()), index, reviewer)
      ensures result == ValidationResult(old(St()), index, reviewer)
    {
      if !hasClient {
        return Error;
      }
      BeginValidation(index);
      var recordForReview := ReviewPayload(mapping, data.value.rows[index]);
      var reply := reviewer(recordForReview);
      CompleteValidation(index, reply);
      result := ReviewOutcome(reply).status;
    }

    /** `handleValidateSingle`: validates the selected record, if any. */
    method HandleValidateSingle(reviewer: Reviewer)
      requires Valid()
      modifies this
      ensures Valid()
      ensures St() == if old(selected).None? then old(St()) else Validated(old(St()), old(selected).value, reviewer)
    {
      if selected.None? {
        return;
      }
      var _ := RunValidationForIndex(selected.value, reviewer);
    }

    /** One turn of the batch loop. */
    method PreviewAndValidate(index: nat, reviewer: Reviewer) returns (result: Status)
      requires Valid() && data.Some? && index < |data.value.rows|
      modifies this
      ensures Valid()
      ensures St() == Validated(Selected(old(St()), index), index, reviewer)
      ensures !hasClient ==> result == Error
    {
      HandlePreview(index);
      result := RunValidationForIndex(index, reviewer);
    }

    /** The turn of the batch loop for the `i`th record of `view`. */
    method BatchTurn(ghost s0: State, view: seq<Indexed>, i: nat, reviewer: Reviewer) returns (result: Status)
      requires Consistent(s0) && s0.data.Some? && InLoadOrder(Rows(s0), view) && i < |view|
      requires St() == BatchSteps(s0, view[..i], reviewer)
      modifies this
      ensures St() == BatchSteps(s0, view[..i + 1], reviewer)
      ensures !hasClient ==> result == Error
    {
      BatchStepsExtend(s0, view, i, reviewer);
      BatchStepsKeepConsistent(s0, view[..i], reviewer);
      result := PreviewAndValidate(view[i].index, reviewer);
    }

    /** The loop of `handleBatchValidate`, from the state `s0` it starts
        in. */
    method BatchLoop(ghost s0: State, reviewer: Reviewer)
      requires Consistent(s0) && s0.data.Some? && St() == s0
      modifies this
      ensures St() == BatchSteps(s0, BatchView(s0), reviewer)
    {
      var view := Displayed(data, mapping, filter);
      var i := 0;
      assert view[..i] == [];
      while i < |view|
        invariant 0 <= i <= |view|
        invariant hasClient == s0.hasClient && (hasClient || i == 0)
        invariant St() == BatchSteps(s0, view[..i], reviewer)
      {
        var result := BatchTurn(s0, view, i, reviewer);
        i := i + 1;
        if result == Error && !hasClient {
          break;
        }
      }
      assert view[..i] == BatchView(s0) by {
        if hasClient || i == |view| {
          assert view[..|view|] == view;
        } else {
          assert i == 1;
        }
      }
    }

    /** `handleBatchValidate`: the shown records, as they stand when the
        batch starts, are selected and validated one after the other; the
        loop stops after the first error when there is no client. */
    method HandleBatchValidate(reviewer: Reviewer)
      requires Valid() && data.Some?
      modifies this
      ensures Valid()
      ensures St() == BatchSteps(old(St()), BatchView(old(St())), reviewer)
    {
      ghost var s0 := St();
      BatchLoop(s0, reviewer);
      BatchStepsKeepConsistent(s0, BatchView(s0), reviewer);
    }
  }
}
