/** Value resolution: what a placeholder key stands for in one record, in the
    two variants of the preview component, and the record sent for review. */
module Resolve {
  import opened Optional
  import opened Tables

  /** The one derived key, and the two keys it is derived from. */
  const IntervalKey: string := "intervalo_vigencia"
  const StartKey: string := "dt_inicio_vigencia"
  const EndKey: string := "dt_fim_vigencia"

  /** The validity interval from its start and end dates. */
  function Interval(start: string, end: string): string {
    if start != "" && end != "" then "De " + start + " até " + end
    else if start != "" then "A partir de " + start
    else if end != "" then "Até " + end
    else ""
  }

  predicate StartsWith(s: string, prefix: string) {
    |prefix| <= |s| && s[..|prefix|] == prefix
  }

  /** The four forms of the interval, each exactly when its dates are
      present: the form of the text tells which dates the record has. */
  lemma IntervalForms(start: string, end: string)
    ensures Interval(start, end) == "" <==> start == "" && end == ""
    ensures StartsWith(Interval(start, end), "De ") <==> start != "" && end != ""
    ensures StartsWith(Interval(start, end), "A partir de ") <==> start != "" && end == ""
    ensures StartsWith(Interval(start, end), "Até ") <==> start == "" && end != ""
    ensures start != "" && end != "" ==> Interval(start, end) == "De " + start + " até " + end
    ensures start != "" && end == "" ==> Interval(start, end) == "A partir de " + start
    ensures start == "" && end != "" ==> Interval(start, end) == "Até " + end
  {
    var r := Interval(start, end);
    if start != "" && end != "" {
      assert r[0] == 'D';
    } else if start != "" {
      assert r[..12] == "A partir de ";
      assert r[1] == ' ';
    } else if end != "" {
      assert r[..4] == "Até ";
      assert r[1] == 't';
    }
  }

  /** `map[key]` names a non-empty column: JavaScript truthiness of the
      mapped column name. */
  predicate Mapped(m: Mapping, key: string) {
    key in m && m[key] != ""
  }

  /** `getValue` of the later variant, whose mapping may be absent and whose
      interval is derived only when both date keys are mapped. */
  function Value(m: Option<Mapping>, row: Row, key: string): string {
    match m
    case None => ""
    case Some(mp) =>
      if key == IntervalKey && Mapped(mp, StartKey) && Mapped(mp, EndKey)
      then Interval(Lookup(mp, row, StartKey), Lookup(mp, row, EndKey))
      else Lookup(mp, row, key)
  }

  /** `getValue` of the earlier variant: the interval is always derived,
      from whatever the date keys map to. */
  function ValueFixed(m: Mapping, row: Row, key: string): string {
    if key == IntervalKey then Interval(Lookup(m, row, StartKey), Lookup(m, row, EndKey))
    else Lookup(m, row, key)
  }

  /** When the later variant's lookup gives "": no mapping, an unmapped key,
      or an empty or missing cell; the interval only when it is derived. */
  lemma ValueEmpty(m: Option<Mapping>, row: Row, key: string)
    ensures m.None? ==> Value(m, row, key) == ""
    ensures m.Some? && key != IntervalKey ==>
      (Value(m, row, key) == "" <==> key !in m.value || Cell(row, m.value[key]) == "")
    ensures m.Some? && key == IntervalKey && Mapped(m.value, StartKey) && Mapped(m.value, EndKey) ==>
      (Value(m, row, key) == "" <==> Lookup(m.value, row, StartKey) == "" && Lookup(m.value, row, EndKey) == "")
  {
    if m.Some? && key == IntervalKey && Mapped(m.value, StartKey) && Mapped(m.value, EndKey) {
      IntervalForms(Lookup(m.value, row, StartKey), Lookup(m.value, row, EndKey));
    }
  }

  /** The two variants agree except on the interval key when a date key is
      not mapped: there the later variant reads the interval's own column
      and the earlier one still derives it. */
  lemma VariantsAgree(m: Mapping, row: Row, key: string)
    ensures key != IntervalKey || (Mapped(m, StartKey) && Mapped(m, EndKey))
            ==> Value(Some(m), row, key) == ValueFixed(m, row, key)
    ensures key == IntervalKey && !(Mapped(m, StartKey) && Mapped(m, EndKey))
            ==> Value(Some(m), row, key) == Lookup(m, row, IntervalKey)
  {
  }

  /** A concrete disagreement: with the start date unmapped, the later
      variant shows the interval column while the earlier one derives
      "Até <end>" from the end date. */
  lemma VariantsDisagreeWithoutStartDate()
    ensures var m := map[EndKey := "FIM", IntervalKey := "INTERVALO"];
            var row := map["FIM" := "2024-12-31", "INTERVALO" := "sempre"];
            Value(Some(m), row, IntervalKey) == "sempre"
            && ValueFixed(m, row, IntervalKey) == "Até 2024-12-31"
  {
    var m := map[EndKey := "FIM", IntervalKey := "INTERVALO"];
    assert StartKey !in m;
  }

  /** The record sent to the reviewer: every mapped key with its cell. */
  function ReviewPayload(m: Mapping, row: Row): (payload: map<string, string>)
    ensures payload.Keys == m.Keys
  {
    map k | k in m :: Cell(row, m[k])
  }

  /** The reviewer sees what the preview shows for every key but the derived
      interval, which it receives as the interval column's raw cell. */
  lemma ReviewPayloadMatchesPreview(m: Mapping, row: Row, key: string)
    requires key in m
    ensures key != IntervalKey ==> ReviewPayload(m, row)[key] == Value(Some(m), row, key)
    ensures ReviewPayload(m, row)[key] == Lookup(m, row, key)
  {
  }
}
