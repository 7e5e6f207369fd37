/** The token round trip, masking, and the safety of accepted drafts. */
module FactsLaws {
  import opened Prelude
  import opened Facts

  // ---- scanning text with tokens in it --------------------------------

  ghost predicate NoDigits(t: string) {
    forall i :: 0 <= i < |t| ==> !IsDigit(t[i])
  }

  function AllTyped(t: string): seq<Item> {
    if t == "" then [] else [Typed(t[0])] + AllTyped(t[1..])
  }

  /** A token has its F and its first digit in place, with nothing but spaces around the F. */
  lemma HeadParts(t: string) returns (f: nat, q: nat)
    requires TokenHead(t).Some?
    ensures 1 <= f < q < |t| && (t[f] == 'F' || t[f] == 'f') && IsDigit(t[q])
    ensures forall i :: 1 <= i < f || f < i < q ==> IsSpace(t[i])
  {
    f := SkipSpace(t, 1);
    q := SkipSpace(t, f + 1);
  }

  /** If the first digit follows "[F", a token can start only at that bracket. */
  lemma HeadNeedsFigure(t: string, d: nat)
    requires d < |t| && IsDigit(t[d]) && forall i :: 0 <= i < d ==> !IsDigit(t[i])
    requires d > 2 && t[d - 1] == 'F' && t[d - 2] == '['
    ensures TokenHead(t).None?
  {
    if TokenHead(t).Some? {
      var f, q := HeadParts(t);
    }
  }

  lemma NoDigitsNoHead(t: string)
    requires NoDigits(t)
    ensures TokenHead(t).None?
  {
    if TokenHead(t).Some? {
      var f, q := HeadParts(t);
    }
  }

  lemma {:induction false} ScanPlain(t: string)
    requires NoDigits(t)
    ensures Scan(t) == AllTyped(t)
    decreases |t|
  {
    if t != "" {
      NoDigitsNoHead(t);
      ScanPlain(t[1..]);
    }
  }

  ghost predicate Digits(ds: string) {
    ds != "" && forall i :: 0 <= i < |ds| ==> IsDigit(ds[i])
  }

  /** Plain text before a token is read character by character, whatever it ends with. */
  lemma {:induction false} ScanGap(gap: string, ds: string, rest: string)
    requires NoDigits(gap) && Digits(ds)
    ensures Scan(gap + ("[F" + ds + "]" + rest)) == AllTyped(gap) + Scan("[F" + ds + "]" + rest)
    decreases |gap|
  {
    var tail := "[F" + ds + "]" + rest;
    var t := gap + tail;
    if gap == "" {
      assert t == tail;
    } else {
      assert t[|gap| + 2] == tail[2] == ds[0];
      assert t[|gap| + 1] == tail[1] && t[|gap|] == tail[0];
      forall i | 0 <= i < |gap| + 2
        ensures !IsDigit(t[i])
      {
        assert t[i] == if i < |gap| then gap[i] else tail[i - |gap|];
      }
      HeadNeedsFigure(t, |gap| + 2);
      assert t[1..] == gap[1..] + tail;
      ScanGap(gap[1..], ds, rest);
    }
  }

  lemma {:induction false} SkipAll(t: string, p: nat, e: nat)
    requires p <= e <= |t| && (forall i :: p <= i < e ==> IsDigit(t[i])) && (e < |t| ==> !IsDigit(t[e]))
    ensures SkipDigits(t, p) == e
    decreases e - p
  {
    if p < e {
      SkipAll(t, p + 1, e);
    }
  }

  /** A token of one to three digits is read back as itself. */
  lemma TokenRead(ds: string, rest: string)
    requires Digits(ds) && |ds| <= 3
    ensures Scan("[F" + ds + "]" + rest) == [Token(ds)] + Scan(rest)
  {
    var t := "[F" + ds + "]" + rest;
    var e := 2 + |ds|;
    forall i | 2 <= i < e
      ensures t[i] == ds[i - 2]
    {
    }
    assert t[e] == ']';
    SkipAll(t, 2, e);
    assert SkipSpace(t, 1) == 1 && SkipSpace(t, 2) == 2 && SkipSpace(t, e) == e;
    assert t[2..e] == ds && t[e + 1..] == rest;
    assert TokenHead(t) == Some(Head(e + 1, ds));
  }

  ghost predicate ShowsDigit(items: seq<Item>) {
    exists k :: 0 <= k < |items| && items[k].Typed? && IsDigit(items[k].c)
  }

  /** A token of four digits or more is not read as one: its digits stand there as typed. */
  lemma LongTokenShows(ds: string, rest: string)
    requires Digits(ds) && |ds| > 3
    ensures ShowsDigit(Scan("[F" + ds + "]" + rest))
  {
    var t := "[F" + ds + "]" + rest;
    var e := 2 + |ds|;
    forall i | 2 <= i < e
      ensures t[i] == ds[i - 2]
    {
    }
    assert t[e] == ']';
    SkipAll(t, 2, e);
    assert SkipSpace(t, 1) == 1 && SkipSpace(t, 2) == 2;
    assert TokenHead(t).None? && TokenHead(t[1..]).None? && TokenHead(t[2..]).None?;
    assert t[1..][1..] == t[2..];
    assert Scan(t) == [Typed('[')] + Scan(t[1..]);
    assert Scan(t[1..]) == [Typed('F')] + Scan(t[2..]);
    assert Scan(t[2..]) == [Typed(ds[0])] + Scan(t[2..][1..]);
    assert Scan(t)[2] == Typed(ds[0]);
  }

  // ---- the tokenized text, read back ----------------------------------

  function Value(t: string, s: Span): string
    requires s.start <= s.end <= |t|
  {
    t[s.start..s.end]
  }

  ghost predicate Names(t: string, spans: seq<Span>, from: nat, vs: seq<string>)
    requires Placed(t, spans, from)
    decreases |spans|
  {
    spans != [] ==> Value(t, spans[0]) in vs && Names(t, spans[1..], spans[0].end, vs)
  }

  /** No figure character lies outside the spans, from position `from` on. */
  ghost predicate Covered(t: string, spans: seq<Span>, from: nat)
    requires Placed(t, spans, from)
    decreases |spans|
  {
    if spans == [] then forall i :: from <= i < |t| ==> !IsFigureChar(t[i])
    else (forall i :: from <= i < spans[0].start ==> !IsFigureChar(t[i])) && Covered(t, spans[1..], spans[0].end)
  }

  lemma {:induction false} PlacedAfter(t: string, spans: seq<Span>, from: nat, k: nat)
    requires Placed(t, spans, from) && k < |spans|
    ensures from <= spans[k].start < spans[k].end <= |t|
    decreases |spans|
  {
    if k > 0 {
      PlacedAfter(t, spans[1..], spans[0].end, k - 1);
    }
  }

  lemma {:induction false} GoodIsCovered(t: string, spans: seq<Span>, from: nat)
    requires Placed(t, spans, from)
    requires forall i :: from <= i < |t| && IsFigureChar(t[i]) ==>
      exists k :: 0 <= k < |spans| && spans[k].start <= i < spans[k].end
    ensures Covered(t, spans, from)
    decreases |spans|
  {
    if spans != [] {
      var rest := spans[1..];
      forall i | from <= i < spans[0].start
        ensures !IsFigureChar(t[i])
      {
        if IsFigureChar(t[i]) {
          var k :| 0 <= k < |spans| && spans[k].start <= i < spans[k].end;
          assert k > 0;
          PlacedAfter(t, rest, spans[0].end, k - 1);
        }
      }
      forall i | spans[0].end <= i < |t| && IsFigureChar(t[i])
        ensures exists k :: 0 <= k < |rest| && rest[k].start <= i < rest[k].end
      {
        var k :| 0 <= k < |spans| && spans[k].start <= i < spans[k].end;
        assert rest[k - 1] == spans[k];
      }
      GoodIsCovered(t, rest, spans[0].end);
    }
  }

  /** What reading the tokenized text gives: the typed gaps and one token per figure. */
  function ItemsOf(t: string, spans: seq<Span>, from: nat, vs: seq<string>): seq<Item>
    requires Placed(t, spans, from)
    decreases |spans|
  {
    if spans == [] then AllTyped(t[from..])
    else AllTyped(t[from..spans[0].start]) + [Token(Numeral(IndexOf(vs, Value(t, spans[0])) + 1))]
         + ItemsOf(t, spans[1..], spans[0].end, vs)
  }

  lemma GapIsPlain(t: string, from: nat, to: nat)
    requires from <= to <= |t| && forall i :: from <= i < to ==> !IsFigureChar(t[i])
    ensures NoDigits(t[from..to]) && !HasFigureChar(t[from..to])
  {
  }

  lemma TokenTextShape(k: nat, gap: string, rest: string)
    ensures Digits(Numeral(k + 1))
    ensures gap + TokenText(k) + rest == gap + ("[F" + Numeral(k + 1) + "]" + rest)
  {
  }

  lemma {:induction false} ReadBack(t: string, spans: seq<Span>, from: nat, vs: seq<string>)
    requires Placed(t, spans, from) && Covered(t, spans, from) && Names(t, spans, from, vs) && |vs| <= 999
    ensures Scan(Replaced(t, spans, from, vs)) == ItemsOf(t, spans, from, vs)
    decreases |spans|
  {
    if spans == [] {
      GapIsPlain(t, from, |t|);
      assert t[from..|t|] == t[from..];
      ScanPlain(t[from..]);
    } else {
      hide Numeral, IndexOf, Scan, TokenText;
      var s, k := spans[0], IndexOf(vs, Value(t, spans[0]));
      var gap, rest := t[from..s.start], Replaced(t, spans[1..], s.end, vs);
      GapIsPlain(t, from, s.start);
      TokenTextShape(k, gap, rest);
      NumeralLength(k + 1);
      IndexOfIn(vs, Value(t, s));
      ScanGap(gap, Numeral(k + 1), rest);
      TokenRead(Numeral(k + 1), rest);
      ReadBack(t, spans[1..], s.end, vs);
      ItemsAssoc(AllTyped(gap), [Token(Numeral(k + 1))], ItemsOf(t, spans[1..], s.end, vs));
    }
  }

  lemma ItemsAssoc(a: seq<Item>, b: seq<Item>, c: seq<Item>)
    ensures a + (b + c) == a + b + c
  {
  }

  lemma IndexOfIn(vs: seq<string>, v: string)
    requires v in vs
    ensures IndexOf(vs, v) < |vs| && vs[IndexOf(vs, v)] == v
  {
  }

  /** A figure numbered past 999 leaves a typed digit in the tokenized text. */
  lemma {:induction false} LateFigureShows(t: string, spans: seq<Span>, from: nat, vs: seq<string>, k: nat)
    requires Placed(t, spans, from) && Covered(t, spans, from)
    requires k < |spans| && Placed(t, spans, from) && spans[k].start <= spans[k].end <= |t|
    requires IndexOf(vs, Value(t, spans[k])) >= 999
    ensures ShowsDigit(Scan(Replaced(t, spans, from, vs)))
    decreases |spans|
  {
    hide Numeral, IndexOf, Scan, TokenText;
    var s, j := spans[0], IndexOf(vs, Value(t, spans[0]));
    var gap, rest := t[from..s.start], Replaced(t, spans[1..], s.end, vs);
    GapIsPlain(t, from, s.start);
    TokenTextShape(j, gap, rest);
    NumeralLength(j + 1);
    ScanGap(gap, Numeral(j + 1), rest);
    if j >= 999 {
      LongTokenShows(Numeral(j + 1), rest);
      ShowsLater(AllTyped(gap), Scan("[F" + Numeral(j + 1) + "]" + rest));
    } else {
      TokenRead(Numeral(j + 1), rest);
      PlacedAfter(t, spans[1..], s.end, k - 1);
      LateFigureShows(t, spans[1..], s.end, vs, k - 1);
      ShowsLater([Token(Numeral(j + 1))], Scan(rest));
      ShowsLater(AllTyped(gap), [Token(Numeral(j + 1))] + Scan(rest));
    }
  }

  lemma ShowsLater(a: seq<Item>, b: seq<Item>)
    requires ShowsDigit(b)
    ensures ShowsDigit(a + b)
  {
    var k :| 0 <= k < |b| && b[k].Typed? && IsDigit(b[k].c);
    assert (a + b)[|a| + k] == b[k];
  }

  lemma {:induction false} ShownIsBlanked(items: seq<Item>)
    requires ShowsDigit(items)
    ensures HasFigureChar(Blanked(items))
  {
    var k :| 0 <= k < |items| && items[k].Typed? && IsDigit(items[k].c);
    var rest := Blanked(items[1..]);
    if k == 0 {
      assert IsFigureChar(Blanked(items)[0]);
    } else {
      assert items[1..][k - 1] == items[k];
      ShownIsBlanked(items[1..]);
      var i :| 0 <= i < |rest| && IsFigureChar(rest[i]);
      assert Blanked(items)[i + 1] == rest[i];
    }
  }

  // ---- the round trip -------------------------------------------------

  /** The text with a space in place of every figure: what the stray-figure check looks at. */
  function BlankedText(t: string, spans: seq<Span>, from: nat): string
    requires Placed(t, spans, from)
    decreases |spans|
  {
    if spans == [] then t[from..]
    else t[from..spans[0].start] + " " + BlankedText(t, spans[1..], spans[0].end)
  }

  lemma {:induction false} BlankedAppend(a: seq<Item>, b: seq<Item>)
    ensures Blanked(a + b) == Blanked(a) + Blanked(b)
  {
    if a == [] {
      assert a + b == b;
    } else {
      assert (a + b)[1..] == a[1..] + b;
      BlankedAppend(a[1..], b);
    }
  }

  lemma {:induction false} BlankedTyped(t: string)
    ensures Blanked(AllTyped(t)) == t
  {
    if t != "" {
      BlankedTyped(t[1..]);
    }
  }

  lemma {:induction false} ItemsBlanked(t: string, spans: seq<Span>, from: nat, vs: seq<string>)
    requires Placed(t, spans, from)
    ensures Blanked(ItemsOf(t, spans, from, vs)) == BlankedText(t, spans, from)
    decreases |spans|
  {
    if spans == [] {
      BlankedTyped(t[from..]);
    } else {
      hide Numeral, IndexOf;
      var gap, tok := AllTyped(t[from..spans[0].start]), [Token(Numeral(IndexOf(vs, Value(t, spans[0])) + 1))];
      var rest := ItemsOf(t, spans[1..], spans[0].end, vs);
      BlankedTyped(t[from..spans[0].start]);
      BlankedAppend(gap + tok, rest);
      BlankedAppend(gap, tok);
      ItemsBlanked(t, spans[1..], spans[0].end, vs);
      assert Blanked(tok) == " ";
    }
  }

  lemma {:induction false} BlankedTextClean(t: string, spans: seq<Span>, from: nat)
    requires Placed(t, spans, from) && Covered(t, spans, from)
    ensures !HasFigureChar(BlankedText(t, spans, from))
    decreases |spans|
  {
    if spans != [] {
      GapIsPlain(t, from, spans[0].start);
      BlankedTextClean(t, spans[1..], spans[0].end);
    }
  }

  lemma {:induction false} FactAt(facts: seq<string>, k: nat, j: nat)
    requires j <= k < |facts|
    ensures FactFrom(facts, Numeral(k + 1), j) == Some(facts[k])
    decreases k - j
  {
    if Numeral(j + 1) == Numeral(k + 1) {
      NumeralInjective(j + 1, k + 1);
    } else {
      FactAt(facts, k, j + 1);
    }
  }

  /** Tokens and figures correspond one to one. */
  lemma TokenBijection(t: string, spans: seq<Span>, j: nat, k: nat)
    requires Placed(t, spans, 0)
    requires j < |Tokenized(t, spans).facts| && k < |Tokenized(t, spans).facts|
    ensures var facts := Tokenized(t, spans).facts;
      && (TokenText(j) == TokenText(k) <==> j == k)
      && (facts[j] == facts[k] <==> j == k)
      && Fact(facts, Numeral(j + 1)) == Some(facts[j])
  {
    hide Numeral;
    CollectDistinct(t, spans, 0, []);
    FactAt(Tokenized(t, spans).facts, j, 0);
    if TokenText(j) == TokenText(k) {
      var a, b := TokenText(j), TokenText(k);
      assert a[2..|a| - 1] == Numeral(j + 1) && b[2..|b| - 1] == Numeral(k + 1);
      NumeralInjective(j + 1, k + 1);
    }
  }

  lemma {:induction false} CollectDistinct(t: string, spans: seq<Span>, from: nat, seen: seq<string>)
    requires Placed(t, spans, from) && Distinct(seen)
    ensures Distinct(Collect(t, spans, from, seen))
    decreases |spans|
  {
    if spans != [] {
      var v := Value(t, spans[0]);
      CollectDistinct(t, spans[1..], spans[0].end, if v in seen then seen else seen + [v]);
    }
  }

  lemma {:induction false} CollectNames(t: string, spans: seq<Span>, from: nat, seen: seq<string>, vs: seq<string>)
    requires Placed(t, spans, from) && Collect(t, spans, from, seen) <= vs
    ensures Names(t, spans, from, vs)
    decreases |spans|
  {
    if spans != [] {
      var v := Value(t, spans[0]);
      var next := if v in seen then seen else seen + [v];
      CollectNames(t, spans[1..], spans[0].end, next, vs);
      assert v in next && next <= vs;
    }
  }

  lemma {:induction false} CollectFromSpans(t: string, spans: seq<Span>, from: nat, seen: seq<string>, v: string)
    returns (k: nat)
    requires Placed(t, spans, from) && v in Collect(t, spans, from, seen) && v !in seen
    ensures k < |spans| && spans[k].start <= spans[k].end <= |t| && Value(t, spans[k]) == v
    decreases |spans|
  {
    var w := Value(t, spans[0]);
    if w == v {
      k := 0;
    } else {
      k := CollectFromSpans(t, spans[1..], spans[0].end, if w in seen then seen else seen + [w], v);
      k := k + 1;
    }
  }

  lemma {:induction false} FilledAppend(a: seq<Item>, b: seq<Item>, facts: seq<string>)
    requires KnownTokens(a, facts) && KnownTokens(b, facts)
    ensures KnownTokens(a + b, facts) && Filled(a + b, facts) == Filled(a, facts) + Filled(b, facts)
  {
    if a == [] {
      assert a + b == b;
    } else {
      assert (a + b)[1..] == a[1..] + b;
      FilledAppend(a[1..], b, facts);
    }
  }

  lemma {:induction false} FilledTyped(t: string, facts: seq<string>)
    ensures KnownTokens(AllTyped(t), facts) && Filled(AllTyped(t), facts) == t
  {
    if t != "" {
      FilledTyped(t[1..], facts);
    }
  }

  lemma TokenFilled(vs: seq<string>, v: string)
    requires v in vs
    ensures var tok := [Token(Numeral(IndexOf(vs, v) + 1))]; KnownTokens(tok, vs) && Filled(tok, vs) == v
  {
    hide Numeral, FactFrom;
    var k := IndexOf(vs, v);
    IndexOfIn(vs, v);
    FactAt(vs, k, 0);
    var tok := [Token(Numeral(k + 1))];
    assert tok[1..] == [];
  }

  lemma ThreeParts(t: string, from: nat, a: nat, b: nat)
    requires from <= a <= b <= |t|
    ensures t[from..a] + t[a..b] + t[b..] == t[from..]
  {
  }

  lemma ThreeFilled(gap: seq<Item>, tok: seq<Item>, rest: seq<Item>, vs: seq<string>)
    requires KnownTokens(gap, vs) && KnownTokens(tok, vs) && KnownTokens(rest, vs)
    ensures KnownTokens(gap + tok + rest, vs)
    ensures Filled(gap + tok + rest, vs) == Filled(gap, vs) + Filled(tok, vs) + Filled(rest, vs)
  {
    FilledAppend(gap, tok, vs);
    FilledAppend(gap + tok, rest, vs);
  }

  lemma {:induction false} ItemsFilled(t: string, spans: seq<Span>, from: nat, vs: seq<string>)
    requires Placed(t, spans, from) && Names(t, spans, from, vs)
    ensures KnownTokens(ItemsOf(t, spans, from, vs), vs)
    ensures Filled(ItemsOf(t, spans, from, vs), vs) == t[from..]
    decreases |spans|
  {
    if spans == [] {
      FilledTyped(t[from..], vs);
    } else {
      hide Numeral, KnownTokens, Filled;
      var s, k := spans[0], IndexOf(vs, Value(t, spans[0]));
      var gap, tok, rest := AllTyped(t[from..s.start]), [Token(Numeral(k + 1))], ItemsOf(t, spans[1..], s.end, vs);
      assert ItemsOf(t, spans, from, vs) == gap + tok + rest;
      hide ItemsOf, AllTyped;
      FilledTyped(t[from..s.start], vs);
      TokenFilled(vs, Value(t, s));
      ItemsFilled(t, spans[1..], s.end, vs);
      ThreeFilled(gap, tok, rest, vs);
      ThreeParts(t, from, s.start, s.end);
    }
  }

  lemma TokensPresent(t: string, spans: seq<Span>, from: nat, vs: seq<string>)
    requires Placed(t, spans, from) && spans != []
    ensures HasToken(ItemsOf(t, spans, from, vs))
  {
    hide Numeral, IndexOf;
    var gap := AllTyped(t[from..spans[0].start]);
    assert ItemsOf(t, spans, from, vs)[|gap|].Token?;
  }

  lemma FewFigures(t: string, spans: seq<Span>)
    requires GoodSpans(t, spans) && |Tokenized(t, spans).facts| <= 999
    ensures var sheet := Tokenized(t, spans);
      if HasNumberWord(BlankedText(t, spans, 0)) then Substitute(sheet.tokenized, sheet.facts) == TypedFigure
      else Substitute(sheet.tokenized, sheet.facts).Accepted? && Substitute(sheet.tokenized, sheet.facts).text == t
  {
    hide Scan, ItemsOf, Collect, Replaced, BlankedText, HasNumberWord, HasFigureChar;
    var vs := Collect(t, spans, 0, []);
    GoodIsCovered(t, spans, 0);
    CollectNames(t, spans, 0, [], vs);
    ReadBack(t, spans, 0, vs);
    ItemsBlanked(t, spans, 0, vs);
    BlankedTextClean(t, spans, 0);
    ItemsFilled(t, spans, 0, vs);
    assert t[0..] == t;
    if spans != [] {
      TokensPresent(t, spans, 0, vs);
    } else {
      NoSpansNoFacts(t);
    }
  }

  lemma NoSpansNoFacts(t: string)
    ensures Collect(t, [], 0, []) == []
  {
  }

  lemma TooManyFigures(t: string, spans: seq<Span>)
    requires GoodSpans(t, spans) && |Tokenized(t, spans).facts| > 999
    ensures var sheet := Tokenized(t, spans); !Substitute(sheet.tokenized, sheet.facts).Accepted?
  {
    hide Scan, Replaced;
    var vs := Collect(t, spans, 0, []);
    GoodIsCovered(t, spans, 0);
    CollectDistinct(t, spans, 0, []);
    var k := CollectFromSpans(t, spans, 0, [], vs[999]);
    IndexDistinct(vs, 999);
    LateFigureShows(t, spans, 0, vs, k);
    ShownIsBlanked(Scan(Replaced(t, spans, 0, vs)));
  }

  lemma {:induction false} IndexDistinct(vs: seq<string>, k: nat)
    requires Distinct(vs) && k < |vs|
    ensures IndexOf(vs, vs[k]) == k
  {
    if k > 0 {
      assert vs[1..][k - 1] == vs[k];
      IndexDistinct(vs[1..], k - 1);
    }
  }

  /**
   * The round trip, exactly: for any scanner that is ordered, non-overlapping and covers every digit
   * and symbol, substituting the sheet's own tokens restores the text if and only if there are at
   * most 999 distinct figures and no number word shows once figures are blanked.
   */
  lemma RoundTripExactly(t: string, spans: seq<Span>)
    requires GoodSpans(t, spans)
    ensures var sheet := Tokenized(t, spans); var reply := Substitute(sheet.tokenized, sheet.facts);
      (reply.Accepted? && reply.text == t) <==> (|sheet.facts| <= 999 && !HasNumberWord(BlankedText(t, spans, 0)))
  {
    hide Substitute, HasNumberWord, BlankedText;
    if |Tokenized(t, spans).facts| <= 999 {
      FewFigures(t, spans);
    } else {
      TooManyFigures(t, spans);
    }
  }

  // ---- masking --------------------------------------------------------

  /** The token a known figure has; a later duplicate would win, as in a dict comprehension. */
  function LastIndex(facts: seq<string>, v: string): (k: nat)
    requires v in facts
    ensures k < |facts| && facts[k] == v
  {
    if facts[|facts| - 1] == v then |facts| - 1 else LastIndex(facts[..|facts| - 1], v)
  }

  function Masked(t: string, spans: seq<Span>, from: nat, facts: seq<string>, keepUnknown: bool): string
    requires Placed(t, spans, from)
    decreases |spans|
  {
    if spans == [] then t[from..]
    else
      var v := Value(t, spans[0]);
      t[from..spans[0].start]
      + (if v in facts then TokenText(LastIndex(facts, v)) else if keepUnknown then v else "#")
      + Masked(t, spans[1..], spans[0].end, facts, keepUnknown)
  }

  lemma {:induction false} MaskedIsReplaced(t: string, spans: seq<Span>, from: nat, vs: seq<string>, keep: bool)
    requires Placed(t, spans, from) && Names(t, spans, from, vs) && Distinct(vs)
    ensures Masked(t, spans, from, vs, keep) == Replaced(t, spans, from, vs)
    decreases |spans|
  {
    if spans != [] {
      hide TokenText, Numeral;
      IndexDistinct(vs, LastIndex(vs, Value(t, spans[0])));
      MaskedIsReplaced(t, spans[1..], spans[0].end, vs, keep);
    }
  }

  /** Masking the reference with its own sheet gives the tokenized text. */
  lemma MaskIsTokenized(t: string, spans: seq<Span>, keep: bool)
    requires Placed(t, spans, 0)
    ensures Masked(t, spans, 0, Tokenized(t, spans).facts, keep) == Tokenized(t, spans).tokenized
  {
    var vs := Collect(t, spans, 0, []);
    CollectDistinct(t, spans, 0, []);
    CollectNames(t, spans, 0, [], vs);
    MaskedIsReplaced(t, spans, 0, vs, keep);
  }

  // ---- accepted drafts are safe ---------------------------------------

  /** A stretch of the answer: one character the model typed, or one inserted fact. */
  datatype Piece = Char(c: char) | Inserted(fact: nat)

  function Join(pieces: seq<Piece>, facts: seq<string>): string
    requires forall k :: 0 <= k < |pieces| && pieces[k].Inserted? ==> pieces[k].fact < |facts|
  {
    if pieces == [] then ""
    else (if pieces[0].Char? then [pieces[0].c] else facts[pieces[0].fact]) + Join(pieces[1..], facts)
  }

  lemma {:induction false} FactIsListed(facts: seq<string>, digits: string, j: nat) returns (k: nat)
    requires j <= |facts| && FactFrom(facts, digits, j).Some?
    ensures k < |facts| && FactFrom(facts, digits, j) == Some(facts[k]) && Numeral(k + 1) == digits
    decreases |facts| - j
  {
    if Numeral(j + 1) == digits {
      k := j;
    } else {
      k := FactIsListed(facts, digits, j + 1);
    }
  }

  lemma {:induction false} PiecesOf(items: seq<Item>, facts: seq<string>) returns (pieces: seq<Piece>)
    requires KnownTokens(items, facts) && !HasFigureChar(Blanked(items))
    ensures forall k :: 0 <= k < |pieces| ==>
      if pieces[k].Char? then !IsFigureChar(pieces[k].c) else pieces[k].fact < |facts|
    ensures Join(pieces, facts) == Filled(items, facts)
  {
    if items == [] {
      pieces := [];
    } else {
      var rest := Blanked(items[1..]);
      assert forall i :: 0 <= i < |rest| ==> rest[i] == Blanked(items)[i + 1];
      var more := PiecesOf(items[1..], facts);
      if items[0].Typed? {
        assert Blanked(items)[0] == items[0].c;
        pieces := [Char(items[0].c)] + more;
      } else {
        var k := FactIsListed(facts, items[0].digits, 0);
        pieces := [Inserted(k)] + more;
      }
      assert pieces[1..] == more;
    }
  }

  /** Every digit and symbol of an accepted answer lies inside a fact the application inserted. */
  lemma AcceptedIsSafe(draft: string, facts: seq<string>) returns (pieces: seq<Piece>)
    requires Substitute(draft, facts).Accepted?
    ensures forall k :: 0 <= k < |pieces| ==>
      if pieces[k].Char? then !IsFigureChar(pieces[k].c) else pieces[k].fact < |facts|
    ensures Join(pieces, facts) == Substitute(draft, facts).text
    ensures facts != [] ==> Substitute(draft, facts).used != []
  {
    hide Scan, HasNumberWord;
    var items := Scan(draft);
    pieces := PiecesOf(items, facts);
    if HasToken(items) {
      UsedNotEmpty(items);
    }
  }

  lemma {:induction false} UsedNotEmpty(items: seq<Item>)
    requires HasToken(items)
    ensures Used(items) != []
  {
    var init := items[..|items| - 1];
    if !items[|items| - 1].Token? {
      var k :| 0 <= k < |items| && items[k].Token?;
      assert init[k].Token?;
      UsedNotEmpty(init);
    }
  }
}
