/** The rendering of one record's preview: the template filled with the
    values each variant of the component resolves for the record. */
module Preview {
  import opened Optional
  import opened Tables
  import opened Annotations
  import opened Resolve
  import opened Template

  /** A placeholder whose key the record gives no value for: the key is not
      the interval, and it is unmapped or its cell is empty or missing. */
  predicate Blank(m: Mapping, row: Row, lit: string) {
    KeyOf(lit) != IntervalKey && (KeyOf(lit) !in m || Cell(row, m[KeyOf(lit)]) == "")
  }

  /** The later variant's preview of `row`: every placeholder is filled with
      the record's value, and every occurrence of a placeholder without a
      value stands for the empty value, bare unless an item is about its
      key. */
  lemma RenderLeavesBlankKeysEmpty(ps: seq<Piece>, m: Mapping, row: Row, items: seq<Feedback>)
    requires WellFormed(ps) && OpenInputs(ps, k => Value(Some(m), row, k), items)
    ensures var filled := Fill(ps, Replacer(k => Value(Some(m), row, k), items));
      && Render(Flatten(ps), k => Value(Some(m), row, k), items) == Flatten(filled)
      && |filled| == |ps|
      && (forall i :: 0 <= i < |ps| && ps[i].Hole? && Blank(m, row, ps[i].lit) ==>
            filled[i] == Plain(ReplacementFor(KeyOf(ps[i].lit), "", items)))
      && (forall i :: 0 <= i < |ps| && ps[i].Hole? && Blank(m, row, ps[i].lit)
                      && (forall f :: f in items ==> f.field != KeyOf(ps[i].lit)) ==>
            filled[i] == Plain(""))
  {
    var resolve := k => Value(Some(m), row, k);
    RenderFillsEveryPlaceholder(ps, resolve, items);
    FillAt(ps, Replacer(resolve, items));
    forall i | 0 <= i < |ps| && ps[i].Hole? && Blank(m, row, ps[i].lit)
      ensures resolve(KeyOf(ps[i].lit)) == ""
    {
      ValueEmpty(Some(m), row, KeyOf(ps[i].lit));
    }
  }

  /** The earlier variant's preview of `row`, under its fixed mapping: the
      same holds with its own lookup. */
  lemma RenderFixedLeavesBlankKeysEmpty(ps: seq<Piece>, m: Mapping, row: Row, items: seq<Feedback>)
    requires WellFormed(ps) && OpenInputs(ps, k => ValueFixed(m, row, k), items)
    ensures var filled := Fill(ps, Replacer(k => ValueFixed(m, row, k), items));
      && Render(Flatten(ps), k => ValueFixed(m, row, k), items) == Flatten(filled)
      && |filled| == |ps|
      && (forall i :: 0 <= i < |ps| && ps[i].Hole? && Blank(m, row, ps[i].lit) ==>
            filled[i] == Plain(ReplacementFor(KeyOf(ps[i].lit), "", items)))
      && (forall i :: 0 <= i < |ps| && ps[i].Hole? && Blank(m, row, ps[i].lit)
                      && (forall f :: f in items ==> f.field != KeyOf(ps[i].lit)) ==>
            filled[i] == Plain(""))
  {
    var resolve := k => ValueFixed(m, row, k);
    RenderFillsEveryPlaceholder(ps, resolve, items);
    FillAt(ps, Replacer(resolve, items));
    forall i | 0 <= i < |ps| && ps[i].Hole? && Blank(m, row, ps[i].lit)
      ensures resolve(KeyOf(ps[i].lit)) == ""
    {
      VariantsAgree(m, row, KeyOf(ps[i].lit));
      ValueEmpty(Some(m), row, KeyOf(ps[i].lit));
    }
  }
}
