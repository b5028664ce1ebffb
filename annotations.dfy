/** The review overlay: feedback items attached to one record, the per-record
    validation status, and the abstract reply of the external reviewer. */
module Annotations {
  import opened Optional

  /** One reviewer remark: the placeholder key it is about (or "general" for
      the whole record), its message and its severity. The severity is kept
      as the text the reviewer returned, since it is spliced into a class
      name as it is. */
  datatype Feedback = Feedback(field: string, message: string, severity: string)

  const General: string := "general"

  /** The item installed when the reviewer finds nothing to report. */
  const SuccessItem: Feedback := Feedback(General, "Nenhum erro encontrado neste registro!", "success")

  /** `items.find(f => f.field === key)`: the first item about `key`. */
  function FindFeedback(items: seq<Feedback>, key: string): (r: Option<Feedback>)
    ensures r.None? <==> forall i :: 0 <= i < |items| ==> items[i].field != key
    ensures r.Some? ==> exists i :: 0 <= i < |items| && items[i] == r.value && r.value.field == key
                                    && forall j :: 0 <= j < i ==> items[j].field != key
    decreases |items|
  {
    if items == [] then None
    else if items[0].field == key then Some(items[0])
    else
      var r := FindFeedback(items[1..], key);
      assert forall i :: 1 <= i < |items| ==> items[i] == items[1..][i - 1];
      r
  }

  /** The record-level banner: the first item whose field is "general". */
  function GeneralFeedback(items: seq<Feedback>): (r: Option<Feedback>)
    ensures r.Some? ==> exists i :: 0 <= i < |items| && items[i] == r.value && r.value.field == General
                                    && forall j :: 0 <= j < i ==> items[j].field != General
    ensures r.None? <==> forall f :: f in items ==> f.field != General
  {
    FindFeedback(items, General)
  }

  /** The status of one record in the review state machine:
      not-validated, success or error -> validating -> success | error, and
      loading or editing the table goes back to not-validated. */
  datatype Status = NotValidated | Validating | Success | Error

  /** What the external reviewer produced for one request, with the
      response's text already interpreted:
      - `Blank`: the response text was missing or only whitespace;
      - `NotJson(error)`: the text did not parse as JSON (`error` is the
        parser's message);
      - `NotArray`: it parsed, but not to an array;
      - `Items(items)`: it parsed to this array of feedback items;
      - `Failed(error)`: the call itself threw with this message. */
  datatype Reply =
    | Blank
    | NotJson(error: string)
    | NotArray
    | Items(items: seq<Feedback>)
    | Failed(error: string)
}
