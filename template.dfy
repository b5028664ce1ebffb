/** The template substitution engine shared by both variants: the placeholder
    scan, the key of a placeholder, the feedback annotation around a value,
    and the rendering loop that replaces each matched placeholder globally. */
module Template {
  import opened Optional
  import opened Text
  import opened Seqs
  import opened Annotations

  predicate IsBrace(c: char) {
    c == '{' || c == '}'
  }

  predicate BraceFree(s: string) {
    forall i :: 0 <= i < |s| ==> !IsBrace(s[i])
  }

  /** A placeholder literal: `{{`, one or more characters other than braces,
      `}}`. */
  predicate IsToken(lit: string) {
    && |lit| >= 5
    && lit[0] == '{' && lit[1] == '{'
    && lit[|lit| - 2] == '}' && lit[|lit| - 1] == '}'
    && BraceFree(lit[2..|lit| - 2])
  }

  /** The length of the run of non-brace characters that starts `s`. */
  function BraceFreeRun(s: string): (n: nat)
    ensures n <= |s| && BraceFree(s[..n]) && (n < |s| ==> IsBrace(s[n]))
    decreases |s|
  {
    if s == [] || IsBrace(s[0]) then 0
    else
      var n := BraceFreeRun(s[1..]);
      assert s[..n + 1] == [s[0]] + s[1..][..n];
      n + 1
  }

  /** A run of non-brace characters ended by a brace is the whole run. */
  lemma {:induction false} RunEndsAtBrace(t: string, k: nat)
    requires k < |t| && IsBrace(t[k]) && BraceFree(t[..k])
    ensures BraceFreeRun(t) == k
    decreases k
  {
    if k > 0 {
      assert t[0] == t[..k][0];
      assert t[1..][..k - 1] == t[..k][1..];
      RunEndsAtBrace(t[1..], k - 1);
    }
  }

  /** The length of the placeholder that starts `s`, if one does. Since a
      placeholder's inner characters cannot be braces, at most one length
      fits, which is what the pattern `\{\{([^{}]+)\}\}` matches there. */
  function TokenAt(s: string): (r: Option<nat>)
    ensures r.Some? ==> r.value <= |s| && IsToken(s[..r.value])
    ensures forall n :: 0 <= n <= |s| && IsToken(s[..n]) ==> r == Some(n)
  {
    if |s| >= 2 && s[0] == '{' && s[1] == '{' then
      var n := BraceFreeRun(s[2..]);
      assert forall m :: 0 <= m <= |s| && IsToken(s[..m]) ==> m == n + 4 by {
        forall m | 0 <= m <= |s| && IsToken(s[..m]) ensures m == n + 4 {
          assert s[..m][2..m - 2] == s[2..][..m - 4];
          assert s[2..][m - 4] == s[..m][m - 2];
          RunEndsAtBrace(s[2..], m - 4);
        }
      }
      if n > 0 && n + 4 <= |s| && s[n + 2] == '}' && s[n + 3] == '}' then
        assert s[..n + 4][2..n + 2] == s[2..][..n];
        Some(n + 4)
      else None
    else None
  }

  /** `template.match(/\{\{([^{}]+)\}\}/g) || []`: the placeholders of the
      template, leftmost first and without overlap, as literal texts. */
  function Scan(s: string): (lits: seq<string>)
    ensures forall i :: 0 <= i < |lits| ==> IsToken(lits[i])
    decreases |s|
  {
    if s == [] then []
    else match TokenAt(s)
      case Some(n) => [s[..n]] + Scan(s[n..])
      case None => Scan(s[1..])
  }

  /** Without an opening `{{` the template has no placeholder. */
  lemma {:induction false} ScanWithoutOpening(s: string)
    requires !Contains(s, "{{")
    ensures Scan(s) == []
    decreases |s|
  {
    if s != [] {
      if |s| >= 2 {
        assert s[..2] != "{{";
        assert !(s[0] == '{' && s[1] == '{');
      }
      ScanWithoutOpening(s[1..]);
    }
  }

  predicate NotBrace(c: char) {
    !IsBrace(c)
  }

  /** `lit.replace(/[{}]/g, '').trim()`: the key a placeholder names. */
  function KeyOf(lit: string): string {
    Trim(Filter(lit, NotBrace))
  }

  /** Removing the braces of a placeholder leaves its inner text. */
  lemma StripBraces(inner: string)
    requires BraceFree(inner)
    ensures Filter("{{" + inner + "}}", NotBrace) == inner
  {
    FilterAppend("{{", inner + "}}", NotBrace);
    FilterAppend(inner, "}}", NotBrace);
    FilterKeepsAll(inner, NotBrace);
    assert Filter("{{", NotBrace) == [] by {
      assert "{{"[1..] == "{";
      assert "{"[1..] == [];
    }
    assert Filter("}}", NotBrace) == [] by {
      assert "}}"[1..] == "}";
      assert "}"[1..] == [];
    }
    assert "{{" + inner + "}}" == "{{" + (inner + "}}");
  }

  lemma BraceFreeConcat(a: string, b: string, c: string)
    requires BraceFree(a) && BraceFree(b) && BraceFree(c)
    ensures BraceFree(a + b + c)
  {
    var s := a + b + c;
    forall i | 0 <= i < |s| ensures !IsBrace(s[i]) {
      if i < |a| { assert s[i] == a[i]; }
      else if i < |a| + |b| { assert s[i] == b[i - |a|]; }
      else { assert s[i] == c[i - |a| - |b|]; }
    }
  }

  /** Spaces around the key do not matter: `{{ preco }}` and `{{preco}}`
      name the same key. */
  lemma KeyOfPadded(pre: string, k: string, post: string)
    requires AllSpace(pre) && AllSpace(post) && Trimmed(k) && BraceFree(k)
    ensures KeyOf("{{" + (pre + k + post) + "}}") == k
  {
    assert BraceFree(pre) && BraceFree(post) by {
      assert forall i :: 0 <= i < |pre| ==> IsSpace(pre[i]);
      assert forall i :: 0 <= i < |post| ==> IsSpace(post[i]);
    }
    BraceFreeConcat(pre, k, post);
    StripBraces(pre + k + post);
    TrimPadded(pre, k, post);
  }

  // ---------------------------------------------------------------------
  // Escaping and annotation

  /** `.replace(/"/g, '&quot;').replace(/'/g, '&apos;')`. */
  function EscapeAttr(message: string): string {
    ReplaceAll(ReplaceAll(message, "\"", "&quot;"), "'", "&apos;")
  }

  function EscapeChar(c: char): string {
    if c == '"' then "&quot;" else if c == '\'' then "&apos;" else [c]
  }

  /** The escaping character by character: each quote becomes its entity,
      every other character stays. */
  function EscapeRef(message: string): string
    decreases |message|
  {
    if message == [] then [] else EscapeChar(message[0]) + EscapeRef(message[1..])
  }

  lemma {:induction false} EscapeRefComposes(message: string)
    ensures SubstChar(SubstChar(message, '"', "&quot;"), '\'', "&apos;") == EscapeRef(message)
    decreases |message|
  {
    if message != [] {
      var c := message[0];
      var first := if c == '"' then "&quot;" else [c];
      SubstCharAppend(first, SubstChar(message[1..], '"', "&quot;"), '\'', "&apos;");
      if c == '"' {
        SubstCharAbsent("&quot;", '\'', "&apos;");
      }
      EscapeRefComposes(message[1..]);
    }
  }

  /** The two global replacements escape each quote of the message in
      place, character by character. */
  lemma EscapeAttrIsPerCharacter(message: string)
    ensures EscapeAttr(message) == EscapeRef(message)
  {
    ReplaceCharIsSubst(message, '"', "&quot;");
    assert "\"" == ['"'];
    ReplaceCharIsSubst(SubstChar(message, '"', "&quot;"), '\'', "&apos;");
    assert "'" == ['\''];
    EscapeRefComposes(message);
  }

  /** The escaped message contains no quote of either kind, and no opening
      brace that the message did not have. */
  lemma {:induction false} EscapeRefQuoteFree(message: string)
    ensures '"' !in EscapeRef(message) && '\'' !in EscapeRef(message)
    ensures '{' !in message ==> '{' !in EscapeRef(message)
    decreases |message|
  {
    if message != [] {
      EscapeRefQuoteFree(message[1..]);
    }
  }

  lemma EscapeAttrQuoteFree(message: string)
    ensures '"' !in EscapeAttr(message) && '\'' !in EscapeAttr(message)
    ensures '{' !in message ==> '{' !in EscapeAttr(message)
  {
    EscapeAttrIsPerCharacter(message);
    EscapeRefQuoteFree(message);
  }

  const SpanStart: string := "<span class=\""
  const ClassPrefix: string := "has-feedback feedback-"
  const SpanOpen: string := SpanStart + ClassPrefix
  const SpanData: string := "\" data-feedback=\""
  const SpanClose: string := "</span>"

  /** The value wrapped in the feedback span of item `f`. */
  function Annotate(value: string, f: Feedback): string {
    SpanOpen + f.severity + SpanData + EscapeAttr(f.message) + "\">" + value + SpanClose
  }

  /** What replaces a placeholder with key `key` and value `value`: the
      value itself, or the value annotated with the first feedback item about
      that key. */
  function ReplacementFor(key: string, value: string, items: seq<Feedback>): string {
    match FindFeedback(items, key)
    case None => value
    case Some(f) => Annotate(value, f)
  }

  /** The annotation uses the first item about the key: its severity class,
      and its message with both quotes escaped and no quote left. */
  lemma AnnotationUsesFirstItem(key: string, value: string, items: seq<Feedback>, i: nat)
    requires i < |items| && items[i].field == key
    requires forall j :: 0 <= j < i ==> items[j].field != key
    ensures ReplacementFor(key, value, items)
            == SpanOpen + items[i].severity + SpanData + EscapeRef(items[i].message) + "\">" + value + SpanClose
    ensures '"' !in EscapeRef(items[i].message) && '\'' !in EscapeRef(items[i].message)
  {
    var r := FindFeedback(items, key);
    assert r.Some?;
    var i' :| 0 <= i' < |items| && items[i'] == r.value && r.value.field == key
              && forall j :: 0 <= j < i' ==> items[j].field != key;
    assert i' == i;
    EscapeAttrIsPerCharacter(items[i].message);
    EscapeRefQuoteFree(items[i].message);
  }

  /** Without an item about the key, the bare value is substituted. */
  lemma NoAnnotationWithoutItem(key: string, value: string, items: seq<Feedback>)
    requires forall f :: f in items ==> f.field != key
    ensures ReplacementFor(key, value, items) == value
  {
  }

  /** The replacement for one placeholder literal. */
  function Replacement(lit: string, resolve: string -> string, items: seq<Feedback>): string {
    ReplacementFor(KeyOf(lit), resolve(KeyOf(lit)), items)
  }

  /** The replacement of every placeholder literal, as one function. */
  function Replacer(resolve: string -> string, items: seq<Feedback>): string -> string {
    lit => Replacement(lit, resolve, items)
  }

  // ---------------------------------------------------------------------
  // Rendering

  /** The text after replacing, in order, every occurrence of each of
      `lits` by what `fill` gives for it. */
  function RenderSteps(html: string, lits: seq<string>, fill: string -> string): string
    requires forall l :: l in lits ==> IsToken(l)
    decreases |lits|
  {
    if lits == [] then html
    else
      var last := lits[|lits| - 1];
      assert last in lits;
      assert IsToken(last);
      ReplaceAll(RenderSteps(html, lits[..|lits| - 1], fill), last, fill(last))
  }

  /** `getReplacedDocxHtml`: an empty template renders as "", and otherwise
      each scanned placeholder, in order, is replaced globally. */
  function Render(template: string, resolve: string -> string, items: seq<Feedback>): string {
    if template == "" then "" else RenderSteps(template, Scan(template), Replacer(resolve, items))
  }

  /** The rendering loop, as the component runs it: one global replacement
      of each matched literal after the other, on the text as it stands. */
  method RenderHtml(template: string, resolve: string -> string, items: seq<Feedback>) returns (html: string)
    ensures html == Render(template, resolve, items)
  {
    if template == "" {
      return "";
    }
    html := template;
    var placeholders := Scan(template);
    for i := 0 to |placeholders|
      invariant html == RenderSteps(template, placeholders[..i], Replacer(resolve, items))
    {
      var lit := placeholders[i];
      var key := KeyOf(lit);
      var value := resolve(key);
      var replacement := value;
      var found := FindFeedback(items, key);
      if found.Some? {
        var escaped := EscapeAttr(found.value.message);
        replacement := SpanOpen + found.value.severity + SpanData + escaped + "\">" + value + SpanClose;
      }
      assert replacement == Replacer(resolve, items)(lit);
      assert placeholders[..i + 1][..i] == placeholders[..i];
      html := ReplaceAll(html, lit, replacement);
    }
    assert placeholders[..|placeholders|] == placeholders;
  }

  /** A template without `{{` comes back unchanged. */
  lemma RenderWithoutPlaceholder(template: string, resolve: string -> string, items: seq<Feedback>)
    requires !Contains(template, "{{")
    ensures Render(template, resolve, items) == template
  {
    ScanWithoutOpening(template);
  }

  // ---------------------------------------------------------------------
  // Templates built from text and placeholders

  /** A template seen as text pieces and placeholders. */
  datatype Piece = Plain(text: string) | Hole(lit: string)

  function PieceText(p: Piece): string {
    match p
    case Plain(t) => t
    case Hole(l) => l
  }

  function Flatten(ps: seq<Piece>): string
    decreases |ps|
  {
    if ps == [] then [] else PieceText(ps[0]) + Flatten(ps[1..])
  }

  /** The placeholders of `ps`, in order. */
  function Holes(ps: seq<Piece>): seq<string>
    decreases |ps|
  {
    if ps == [] then []
    else (if ps[0].Hole? then [ps[0].lit] else []) + Holes(ps[1..])
  }

  /** The only braces are those of well-formed placeholders. */
  predicate WellFormed(ps: seq<Piece>) {
    forall i :: 0 <= i < |ps| ==>
      (ps[i].Plain? ==> BraceFree(ps[i].text)) && (ps[i].Hole? ==> IsToken(ps[i].lit))
  }

  /** Text pieces contain no `{` and placeholders are well-formed: the shape
      the rendering keeps while it proceeds. */
  predicate Open(ps: seq<Piece>) {
    forall i :: 0 <= i < |ps| ==>
      (ps[i].Plain? ==> '{' !in ps[i].text) && (ps[i].Hole? ==> IsToken(ps[i].lit))
  }

  /** Each placeholder replaced by what `fill` gives for it, text left as
      it is. */
  function Fill(ps: seq<Piece>, fill: string -> string): seq<Piece>
    decreases |ps|
  {
    if ps == [] then []
    else [if ps[0].Hole? then Plain(fill(ps[0].lit)) else ps[0]] + Fill(ps[1..], fill)
  }

  /** `Fill` piece by piece: the same number of pieces, each placeholder
      replaced by what `fill` gives for it and each text piece kept. */
  lemma {:induction false} FillAt(ps: seq<Piece>, fill: string -> string)
    ensures |Fill(ps, fill)| == |ps|
    ensures forall i :: 0 <= i < |ps| ==>
      Fill(ps, fill)[i] == if ps[i].Hole? then Plain(fill(ps[i].lit)) else ps[i]
    decreases |ps|
  {
    if ps != [] {
      FillAt(ps[1..], fill);
      forall i | 1 <= i < |ps|
        ensures Fill(ps, fill)[i] == if ps[i].Hole? then Plain(fill(ps[i].lit)) else ps[i]
      {
        assert ps[1..][i - 1] == ps[i];
      }
    }
  }

  /** Only the placeholders among `done` replaced. */
  function FillSome(ps: seq<Piece>, done: seq<string>, fill: string -> string): seq<Piece>
    decreases |ps|
  {
    if ps == [] then []
    else [if ps[0].Hole? && ps[0].lit in done then Plain(fill(ps[0].lit)) else ps[0]]
         + FillSome(ps[1..], done, fill)
  }

  lemma {:induction false} ScanSkipsText(x: string, rest: string)
    requires BraceFree(x)
    ensures Scan(x + rest) == Scan(rest)
    decreases |x|
  {
    if x != [] {
      var s := x + rest;
      assert s[0] == x[0];
      assert TokenAt(s) == None;
      assert s[1..] == x[1..] + rest;
      ScanSkipsText(x[1..], rest);
    } else {
      assert x + rest == rest;
    }
  }

  lemma ScanTakesToken(h: string, rest: string)
    requires IsToken(h)
    ensures Scan(h + rest) == [h] + Scan(rest)
  {
    var s := h + rest;
    assert s[..|h|] == h;
    assert TokenAt(s) == Some(|h|);
    assert s[|h|..] == rest;
  }

  /** Scanning a well-formed template finds exactly its placeholders. */
  lemma {:induction false} ScanFindsHoles(ps: seq<Piece>)
    requires WellFormed(ps)
    ensures Scan(Flatten(ps)) == Holes(ps)
    decreases |ps|
  {
    if ps != [] {
      ScanFindsHoles(ps[1..]);
      match ps[0]
      case Plain(t) =>
        ScanSkipsText(t, Flatten(ps[1..]));
      case Hole(l) =>
        ScanTakesToken(l, Flatten(ps[1..]));
    }
  }

  lemma {:induction false} ReplaceSkipsText(x: string, rest: string, pat: string, rep: string)
    requires pat != [] && pat[0] == '{' && '{' !in x
    ensures ReplaceAll(x + rest, pat, rep) == x + ReplaceAll(rest, pat, rep)
    decreases |x|
  {
    if x != [] {
      var s := x + rest;
      assert s[0] == x[0];
      ReplaceSkipsFirst(s, pat, rep);
      assert s[1..] == x[1..] + rest;
      ReplaceSkipsText(x[1..], rest, pat, rep);
    } else {
      assert x + rest == rest;
    }
  }

  /** Two different placeholders never match at the same position. */
  lemma TokenMismatch(h: string, rest: string, pat: string)
    requires IsToken(h) && IsToken(pat) && h != pat && |pat| <= |h + rest|
    ensures (h + rest)[..|pat|] != pat
  {
    var s := h + rest;
    if |pat| < |h| {
      assert s[|pat| - 2] == h[2..|h| - 2][|pat| - 4];
    } else if |pat| > |h| {
      assert s[|h| - 2] == h[|h| - 2];
      assert pat[|h| - 2] == pat[2..|pat| - 2][|h| - 4];
    } else {
      assert s[..|pat|] == h;
    }
  }

  /** After its opening `{{`, a placeholder holds no `{`. */
  lemma TokenTailOpen(h: string)
    requires IsToken(h)
    ensures '{' !in h[2..]
  {
    forall i | 0 <= i < |h| - 2 ensures h[2..][i] != '{' {
      if i < |h| - 4 { assert h[2..][i] == h[2..|h| - 2][i]; }
    }
  }

  lemma ReplaceNoMatchHere(s: string, pat: string, rep: string)
    requires pat != [] && s != [] && (|s| < |pat| || s[..|pat|] != pat)
    ensures ReplaceAll(s, pat, rep) == [s[0]] + ReplaceAll(s[1..], pat, rep)
  {
    if |s| < |pat| {
      ReplaceShort(s[1..], pat, rep);
    }
  }

  lemma ReplaceAtHole(h: string, rest: string, pat: string, rep: string)
    requires IsToken(h) && IsToken(pat)
    ensures ReplaceAll(h + rest, pat, rep) == (if h == pat then rep else h) + ReplaceAll(rest, pat, rep)
  {
    var s := h + rest;
    if h == pat {
      assert s[..|pat|] == pat;
      assert s[|pat|..] == rest;
    } else {
      // the first `{` does not start a match
      if |pat| <= |s| {
        TokenMismatch(h, rest, pat);
      }
      ReplaceNoMatchHere(s, pat, rep);
      // nor does the second, which is followed by a non-brace character
      var s1 := h[1..] + rest;
      assert s[1..] == s1;
      if |pat| <= |s1| {
        assert s1[..|pat|][1] == h[2] != pat[1];
      }
      ReplaceNoMatchHere(s1, pat, rep);
      assert s1[1..] == h[2..] + rest;
      TokenTailOpen(h);
      ReplaceSkipsText(h[2..], rest, pat, rep);
      assert h == [h[0]] + [h[1]] + h[2..];
    }
  }

  function Subst(ps: seq<Piece>, pat: string, rep: string): seq<Piece>
    decreases |ps|
  {
    if ps == [] then []
    else [if ps[0] == Hole(pat) then Plain(rep) else ps[0]] + Subst(ps[1..], pat, rep)
  }

  /** One global replacement of a placeholder literal turns exactly the
      placeholders equal to it into the replacement text. */
  lemma {:induction false} ReplaceInPieces(ps: seq<Piece>, pat: string, rep: string)
    requires Open(ps) && IsToken(pat)
    ensures ReplaceAll(Flatten(ps), pat, rep) == Flatten(Subst(ps, pat, rep))
    decreases |ps|
  {
    if ps != [] {
      ReplaceInPieces(ps[1..], pat, rep);
      match ps[0]
      case Plain(t) =>
        ReplaceSkipsText(t, Flatten(ps[1..]), pat, rep);
      case Hole(l) =>
        ReplaceAtHole(l, Flatten(ps[1..]), pat, rep);
    }
  }

  lemma {:induction false} FillSomeStep(ps: seq<Piece>, done: seq<string>, pat: string, fill: string -> string)
    ensures Subst(FillSome(ps, done, fill), pat, fill(pat)) == FillSome(ps, done + [pat], fill)
    decreases |ps|
  {
    if ps != [] {
      FillSomeStep(ps[1..], done, pat, fill);
    }
  }

  /** `fill` brings no `{` for the placeholders of `ps`. */
  predicate OpenFill(ps: seq<Piece>, fill: string -> string) {
    forall i :: 0 <= i < |ps| && ps[i].Hole? ==> '{' !in fill(ps[i].lit)
  }

  lemma {:induction false} FillSomeOpen(ps: seq<Piece>, done: seq<string>, fill: string -> string)
    requires WellFormed(ps) && OpenFill(ps, fill)
    ensures Open(FillSome(ps, done, fill))
    decreases |ps|
  {
    if ps != [] {
      FillSomeOpen(ps[1..], done, fill);
      assert ps[0].Plain? ==> BraceFree(ps[0].text);
      var r := FillSome(ps, done, fill);
      forall i | 0 <= i < |r|
        ensures (r[i].Plain? ==> '{' !in r[i].text) && (r[i].Hole? ==> IsToken(r[i].lit))
      {
        if i > 0 {
          assert r[i] == FillSome(ps[1..], done, fill)[i - 1];
        }
      }
    }
  }

  lemma {:induction false} NothingFilled(ps: seq<Piece>, fill: string -> string)
    ensures FillSome(ps, [], fill) == ps
    decreases |ps|
  {
    if ps != [] {
      NothingFilled(ps[1..], fill);
    }
  }

  lemma {:induction false} RenderStepsFills(ps: seq<Piece>, done: seq<string>, fill: string -> string)
    requires WellFormed(ps) && OpenFill(ps, fill)
    requires forall l :: l in done ==> IsToken(l)
    ensures RenderSteps(Flatten(ps), done, fill) == Flatten(FillSome(ps, done, fill))
    decreases |done|
  {
    if done == [] {
      NothingFilled(ps, fill);
    } else {
      var init := done[..|done| - 1];
      var last := done[|done| - 1];
      assert last in done;
      RenderStepsFills(ps, init, fill);
      FillSomeOpen(ps, init, fill);
      ReplaceInPieces(FillSome(ps, init, fill), last, fill(last));
      FillSomeStep(ps, init, last, fill);
      assert init + [last] == done;
    }
  }

  lemma {:induction false} AllFilledFrom(ps: seq<Piece>, done: seq<string>, fill: string -> string)
    requires forall l :: l in Holes(ps) ==> l in done
    ensures FillSome(ps, done, fill) == Fill(ps, fill)
    decreases |ps|
  {
    if ps != [] {
      assert forall l :: l in Holes(ps[1..]) ==> l in Holes(ps);
      AllFilledFrom(ps[1..], done, fill);
      if ps[0].Hole? {
        assert ps[0].lit in Holes(ps);
      }
    }
  }

  /** Replacing the scanned placeholders of a well-formed template, with
      replacements that bring no `{`, replaces every placeholder and leaves
      every text piece as it was. */
  lemma RenderStepsFillsAll(ps: seq<Piece>, fill: string -> string)
    requires WellFormed(ps) && OpenFill(ps, fill)
    ensures RenderSteps(Flatten(ps), Scan(Flatten(ps)), fill) == Flatten(Fill(ps, fill))
  {
    ScanFindsHoles(ps);
    RenderStepsFills(ps, Holes(ps), fill);
    AllFilledFrom(ps, Holes(ps), fill);
  }

  /** The fixed parts of the span markup hold no `{`. */
  lemma MarkupOpen()
    ensures '{' !in SpanOpen && '{' !in SpanData && '{' !in SpanClose && '{' !in "\">"
  {
  }

  lemma AnnotateOpen(value: string, f: Feedback)
    requires '{' !in value && '{' !in f.message && '{' !in f.severity
    ensures '{' !in Annotate(value, f)
  {
    EscapeAttrQuoteFree(f.message);
    MarkupOpen();
  }

  lemma ReplacementOpen(lit: string, resolve: string -> string, items: seq<Feedback>)
    requires '{' !in resolve(KeyOf(lit))
    requires forall f :: f in items ==> '{' !in f.message && '{' !in f.severity
    ensures '{' !in Replacer(resolve, items)(lit)
  {
    var found := FindFeedback(items, KeyOf(lit));
    if found.Some? {
      AnnotateOpen(resolve(KeyOf(lit)), found.value);
    }
  }

  /** Values for the keys of `ps`, and feedback messages and severities,
      without `{`. */
  predicate OpenInputs(ps: seq<Piece>, resolve: string -> string, items: seq<Feedback>) {
    && (forall i :: 0 <= i < |ps| && ps[i].Hole? ==> '{' !in resolve(KeyOf(ps[i].lit)))
    && (forall f :: f in items ==> '{' !in f.message && '{' !in f.severity)
  }

  lemma ReplacerOpen(ps: seq<Piece>, resolve: string -> string, items: seq<Feedback>)
    requires OpenInputs(ps, resolve, items)
    ensures OpenFill(ps, Replacer(resolve, items))
  {
    forall i | 0 <= i < |ps| && ps[i].Hole?
      ensures '{' !in Replacer(resolve, items)(ps[i].lit)
    {
      ReplacementOpen(ps[i].lit, resolve, items);
    }
  }

  /** Rendering a template whose only braces are well-formed placeholders,
      when no value and no feedback text brings a `{`, replaces every
      placeholder by its replacement and leaves every text piece as it was. */
  lemma RenderFillsEveryPlaceholder(ps: seq<Piece>, resolve: string -> string, items: seq<Feedback>)
    requires WellFormed(ps) && OpenInputs(ps, resolve, items)
    ensures Render(Flatten(ps), resolve, items) == Flatten(Fill(ps, Replacer(resolve, items)))
  {
    ReplacerOpen(ps, resolve, items);
    RenderStepsFillsAll(ps, Replacer(resolve, items));
    if Flatten(ps) == "" {
      ScanFindsHoles(ps);
      NothingFilled(ps, Replacer(resolve, items));
      AllFilledFrom(ps, [], Replacer(resolve, items));
    }
  }

  lemma {:induction false} FilledHasNoOpening(ps: seq<Piece>, fill: string -> string)
    requires WellFormed(ps) && OpenFill(ps, fill)
    ensures '{' !in Flatten(Fill(ps, fill))
    decreases |ps|
  {
    if ps != [] {
      FilledHasNoOpening(ps[1..], fill);
      assert ps[0].Plain? ==> BraceFree(ps[0].text);
    }
  }

  lemma {:induction false} NoBraceNoOpening(s: string)
    requires '{' !in s
    ensures !Contains(s, "{{")
    decreases |s|
  {
    if |s| >= 2 {
      assert s[..2][0] == s[0];
      NoBraceNoOpening(s[1..]);
    }
  }

  /** After rendering such a template no placeholder is left. */
  lemma RenderLeavesNoPlaceholder(ps: seq<Piece>, resolve: string -> string, items: seq<Feedback>)
    requires WellFormed(ps) && OpenInputs(ps, resolve, items)
    ensures Scan(Render(Flatten(ps), resolve, items)) == []
  {
    RenderFillsEveryPlaceholder(ps, resolve, items);
    ReplacerOpen(ps, resolve, items);
    FilledHasNoOpening(ps, Replacer(resolve, items));
    NoBraceNoOpening(Flatten(Fill(ps, Replacer(resolve, items))));
    ScanWithoutOpening(Flatten(Fill(ps, Replacer(resolve, items))));
  }

  // ---------------------------------------------------------------------
  // The header fragments of the earlier variant

  /** A value as the earlier variant renders it in its fixed header: bare,
      or inside a span with a class and a data-feedback attribute. */
  datatype Fragment = Bare(value: string) | Span(className: string, dataFeedback: string, value: string)

  /** `renderWithFeedback(key)`. */
  function RenderWithFeedback(key: string, resolve: string -> string, items: seq<Feedback>): Fragment {
    var value := resolve(key);
    match FindFeedback(items, key)
    case None => Bare(value)
    case Some(f) => Span(ClassPrefix + f.severity, EscapeAttr(f.message), value)
  }

  /** The header fragment and the template path make the same decision:
      a span exactly when an item is about the key, with the same first
      item's severity class and the same escaped message around the same
      value; otherwise the bare value in both. */
  lemma FragmentAgreesWithTemplate(key: string, resolve: string -> string, items: seq<Feedback>)
    ensures var fr := RenderWithFeedback(key, resolve, items);
      && (fr.Span? <==> exists f :: f in items && f.field == key)
      && fr.value == resolve(key)
      && (fr.Bare? ==> ReplacementFor(key, resolve(key), items) == fr.value)
      && (fr.Span? ==>
            var f := FindFeedback(items, key).value;
            && fr.className == ClassPrefix + f.severity
            && SpanStart + fr.className == SpanOpen + f.severity
            && fr.dataFeedback == EscapeAttr(f.message)
            && ReplacementFor(key, resolve(key), items) == Annotate(fr.value, f))
  {
    var found := FindFeedback(items, key);
    if found.Some? {
      var f := found.value;
      var i :| 0 <= i < |items| && items[i] == f && f.field == key;
      assert items[i] in items;
      var a, b := SpanStart, ClassPrefix;
      assert a + (b + f.severity) == (a + b) + f.severity;
    }
  }
}
