/** The figure scanner itself, over ASCII text and the currency signs. */
module FigureScanner {
  import opened Prelude
  import opened Facts
  import opened FactsLaws

  // ---- the alternatives of the figure pattern, each giving the end of a match or None ----

  const MINUS := '\U{2212}'

  predicate CharAt(t: string, p: nat, c: char) {
    p < |t| && t[p] == c
  }

  predicate DigitAt(t: string, p: nat) {
    p < |t| && IsDigit(t[p])
  }

  /** An optional sign. */
  function Sign(t: string, p: nat): (r: nat)
    requires p <= |t|
    ensures p <= r <= |t|
  {
    if CharAt(t, p, '-') || CharAt(t, p, MINUS) then p + 1 else p
  }

  function OneSpace(t: string, p: nat): (r: nat)
    requires p <= |t|
    ensures p <= r <= |t|
  {
    if p < |t| && IsSpace(t[p]) then p + 1 else p
  }

  function DigitsAndCommas(t: string, p: nat): (r: nat)
    requires p <= |t|
    ensures p <= r <= |t|
    decreases |t| - p
  {
    if DigitAt(t, p) || CharAt(t, p, ',') then DigitsAndCommas(t, p + 1) else p
  }

  /** One digit, then digits and commas, then perhaps a decimal part. */
  function Number(t: string, p: nat): (r: Option<nat>)
    requires p <= |t|
    ensures r.Some? ==> p < r.value <= |t|
    ensures r.Some? <==> DigitAt(t, p)
  {
    if !DigitAt(t, p) then None
    else
      var q := DigitsAndCommas(t, p + 1);
      if CharAt(t, q, '.') && DigitAt(t, q + 1) then Some(SkipDigits(t, q + 1)) else Some(q)
  }

  predicate TextAt(t: string, p: nat, w: string) {
    p + |w| <= |t| && t[p..p + |w|] == w
  }

  function MoneyTail(t: string, p: nat): (r: Option<nat>)
    requires p <= |t|
    ensures r.Some? ==> p < r.value <= |t|
  {
    Number(t, Sign(t, OneSpace(t, p)))
  }

  function CodeMoney(t: string, p: nat): (r: Option<nat>)
    requires p <= |t|
    ensures r.Some? ==> p < r.value <= |t|
  {
    var q := Sign(t, p);
    if TextAt(t, q, "USD") || TextAt(t, q, "EUR") || TextAt(t, q, "GBP") || TextAt(t, q, "INR")
    then MoneyTail(t, q + 3) else None
  }

  function SignMoney(t: string, p: nat): (r: Option<nat>)
    requires p <= |t|
    ensures r.Some? ==> p < r.value <= |t|
  {
    var q := Sign(t, p);
    if q < |t| && IsCurrency(t[q]) then MoneyTail(t, q + 1) else None
  }

  predicate DigitsFrom(t: string, p: nat, n: nat) {
    p + n <= |t| && forall i :: p <= i < p + n ==> IsDigit(t[i])
  }

  function TimeRun(t: string, p: nat): (r: nat)
    requires p <= |t|
    ensures p <= r <= |t|
    decreases |t| - p
  {
    if DigitAt(t, p) || CharAt(t, p, ':') || CharAt(t, p, '.') then TimeRun(t, p + 1) else p
  }

  function Zone(t: string, p: nat): (r: Option<nat>)
    requires p <= |t|
    ensures r.Some? ==> p < r.value <= |t|
  {
    if CharAt(t, p, 'Z') then Some(p + 1)
    else if (CharAt(t, p, '+') || CharAt(t, p, '-')) && DigitsFrom(t, p + 1, 2) && CharAt(t, p + 3, ':')
            && DigitsFrom(t, p + 4, 2) then Some(p + 6)
    else None
  }

  /** The time part backtracks from its longest run until a boundary follows. */
  function TimeTail(t: string, lo: nat, e: nat): (r: Option<nat>)
    requires lo <= e <= |t|
    ensures r.Some? ==> lo < r.value <= |t|
    decreases e
  {
    if e == lo then None
    else
      var z := Zone(t, e);
      if z.Some? && Boundary(t, z.value) then z
      else if Boundary(t, e) then Some(e)
      else TimeTail(t, lo, e - 1)
  }

  function IsoDate(t: string, p: nat): (r: Option<nat>)
    requires p <= |t|
    ensures r.Some? ==> p < r.value <= |t|
  {
    if Boundary(t, p) && DigitsFrom(t, p, 4) && CharAt(t, p + 4, '-') && DigitsFrom(t, p + 5, 2)
       && CharAt(t, p + 7, '-') && DigitsFrom(t, p + 8, 2) then
      var time := if CharAt(t, p + 10, 'T') then TimeTail(t, p + 11, TimeRun(t, p + 11)) else None;
      if time.Some? then time else if Boundary(t, p + 10) then Some(p + 10) else None
    else None
  }

  function Percent(t: string, p: nat): (r: Option<nat>)
    requires p <= |t|
    ensures r.Some? ==> p < r.value <= |t|
  {
    var n := Number(t, Sign(t, p));
    if n.None? then None
    else
      var q := OneSpace(t, n.value);
      if CharAt(t, q, '%') then Some(q + 1) else None
  }

  /** The first alternative that matches at p: money, date, percentage, number, word, lone sign. */
  function FigureAt(t: string, p: nat): (r: Option<nat>)
    requires p < |t|
    ensures r.Some? ==> p < r.value <= |t|
    ensures IsFigureChar(t[p]) ==> r.Some?
  {
    if CodeMoney(t, p).Some? then CodeMoney(t, p)
    else if SignMoney(t, p).Some? then SignMoney(t, p)
    else if IsoDate(t, p).Some? then IsoDate(t, p)
    else if Percent(t, p).Some? then Percent(t, p)
    else if Number(t, Sign(t, p)).Some? then Number(t, Sign(t, p))
    else if NumberWordAt(t, p) > 0 then Some(p + NumberWordAt(t, p))
    else if IsSymbol(t[p]) then Some(p + 1)
    else None
  }

  /** A figure drops the commas it ends with. */
  function DropCommas(t: string, p: nat, e: nat): (r: nat)
    requires p <= e <= |t|
    ensures p <= r <= e
    ensures forall i :: r <= i < e ==> t[i] == ','
    ensures r > p ==> t[r - 1] != ','
    decreases e
  {
    if e > p && t[e - 1] == ',' then DropCommas(t, p, e - 1) else e
  }

  /** _figures: leftmost matches, one after the other. */
  function Figures(t: string, p: nat): seq<Span>
    requires p <= |t|
    decreases |t| - p
  {
    if p == |t| then []
    else
      var m := FigureAt(t, p);
      if m.None? then Figures(t, p + 1)
      else
        var e := DropCommas(t, p, m.value);
        (if e > p then [Span(p, e)] else []) + Figures(t, m.value)
  }

  lemma {:induction false} PlacedEarlier(t: string, spans: seq<Span>, from: nat, to: nat)
    requires from <= to && Placed(t, spans, to)
    ensures Placed(t, spans, from)
  {
  }

  /** Every digit and symbol from p on lies inside a span. */
  ghost predicate Covers(t: string, p: nat, spans: seq<Span>) {
    forall i :: p <= i < |t| && IsFigureChar(t[i]) ==> exists k :: 0 <= k < |spans| && spans[k].start <= i < spans[k].end
  }

  lemma FiguresSkip(t: string, p: nat)
    requires p < |t| && FigureAt(t, p).None?
    ensures Figures(t, p) == Figures(t, p + 1)
  {
    hide FigureAt, DropCommas;
  }

  lemma FiguresTake(t: string, p: nat)
    requires p < |t| && FigureAt(t, p).Some?
    ensures var next := FigureAt(t, p).value; var e := DropCommas(t, p, next);
      Figures(t, p) == (if e > p then [Span(p, e)] else []) + Figures(t, next)
  {
    hide FigureAt, DropCommas;
  }

  lemma {:induction false} FiguresCover(t: string, p: nat)
    requires p <= |t|
    ensures Placed(t, Figures(t, p), p) && Covers(t, p, Figures(t, p))
    decreases |t| - p
  {
    if p < |t| {
      hide FigureAt, DropCommas, Placed, IsFigureChar;
      var m, all := FigureAt(t, p), Figures(t, p);
      if m.None? {
        FiguresSkip(t, p);
        hide Figures, Covers;
        FiguresCover(t, p + 1);
        PlacedEarlier(t, all, p, p + 1);
        CoversEarlier(t, p, all);
      } else {
        var e, rest := DropCommas(t, p, m.value), Figures(t, m.value);
        FiguresTake(t, p);
        hide Figures, Covers;
        FiguresCover(t, m.value);
        CoverStep(t, p, m.value, e, rest, all);
      }
    } else {
      hide FigureAt, DropCommas, IsFigureChar;
      assert Figures(t, p) == [];
    }
  }

  lemma CoversEarlier(t: string, p: nat, spans: seq<Span>)
    requires p < |t| && !IsFigureChar(t[p]) && Covers(t, p + 1, spans)
    ensures Covers(t, p, spans)
  {
  }

  /** The cover of the rest, with the match at p in front when it is not empty. */
  lemma CoverStep(t: string, p: nat, next: nat, e: nat, rest: seq<Span>, all: seq<Span>)
    requires p <= e <= next <= |t| && all == (if e > p then [Span(p, e)] else []) + rest
    requires forall i :: e <= i < next ==> t[i] == ','
    requires Placed(t, rest, next) && Covers(t, next, rest)
    ensures Placed(t, all, p) && Covers(t, p, all)
  {
    PlacedEarlier(t, rest, e, next);
    PlacedEarlier(t, rest, p, next);
    if e > p {
      assert all[1..] == rest;
    } else {
      assert all == rest;
    }
    forall i | p <= i < |t| && IsFigureChar(t[i])
      ensures exists k :: 0 <= k < |all| && all[k].start <= i < all[k].end
    {
      if i < next {
        assert i < e;
        assert all[0].start <= i < all[0].end;
      } else {
        var k :| 0 <= k < |rest| && rest[k].start <= i < rest[k].end;
        assert all[if e > p then k + 1 else k] == rest[k];
      }
    }
  }

  /** The scanner is ordered, never overlaps and misses no digit and no symbol. */
  lemma FiguresAreGood(t: string)
    ensures GoodSpans(t, Figures(t, 0))
  {
    FiguresCover(t, 0);
  }

  /** The round trip of the concrete scanner, for every text. */
  lemma RoundTrip(t: string)
    ensures GoodSpans(t, Figures(t, 0))
    ensures var sheet := Tokenized(t, Figures(t, 0)); var reply := Substitute(sheet.tokenized, sheet.facts);
      (reply.Accepted? && reply.text == t)
        <==> (|sheet.facts| <= 999 && !HasNumberWord(BlankedText(t, Figures(t, 0), 0)))
  {
    hide Figures, Substitute;
    FiguresAreGood(t);
    RoundTripExactly(t, Figures(t, 0));
  }

  // ---- figures that are read whole ------------------------------------

  /** A number from p to q: a digit, digits and commas, and perhaps a point with digits; it does not end in a comma. */
  ghost predicate NumberText(t: string, p: nat, q: nat) {
    && p < q <= |t| && IsDigit(t[p]) && t[q - 1] != ','
    && exists m: nat :: WholePart(t, p, m, q)
  }

  ghost predicate WholePart(t: string, p: nat, m: nat, q: nat) {
    && p < m <= q <= |t| && (forall i :: p <= i < m ==> IsDigit(t[i]) || t[i] == ',')
    && (m < q ==> t[m] == '.' && m + 1 < q && forall i :: m < i < q ==> IsDigit(t[i]))
  }

  /** Nothing that could belong to a number stands at q. */
  predicate Ends(t: string, q: nat) {
    q == |t| || (q < |t| && !IsDigit(t[q]) && t[q] != ',' && t[q] != '.')
  }

  lemma {:induction false} CommasTo(t: string, p: nat, m: nat)
    requires p <= m <= |t| && (forall i :: p <= i < m ==> IsDigit(t[i]) || t[i] == ',')
    requires m == |t| || (!IsDigit(t[m]) && t[m] != ',')
    ensures DigitsAndCommas(t, p) == m
    decreases m - p
  {
    if p < m {
      CommasTo(t, p + 1, m);
    }
  }

  lemma {:induction false} DigitsUpTo(t: string, p: nat, q: nat)
    requires p <= q <= |t| && (forall i :: p <= i < q ==> IsDigit(t[i])) && (q == |t| || !IsDigit(t[q]))
    ensures SkipDigits(t, p) == q
    decreases q - p
  {
    if p < q {
      DigitsUpTo(t, p + 1, q);
    }
  }

  lemma NumberIsRead(t: string, p: nat, q: nat)
    requires NumberText(t, p, q) && Ends(t, q)
    ensures Number(t, p) == Some(q)
  {
    var m: nat :| WholePart(t, p, m, q);
    CommasTo(t, p + 1, m);
    if m < q {
      DigitsUpTo(t, m + 1, q);
    }
  }

  /** p to q is perhaps a minus sign, and then a number. */
  ghost predicate Signed(t: string, p: nat, q: nat) {
    NumberText(t, p, q) || (p < |t| && (t[p] == '-' || t[p] == MINUS) && NumberText(t, p + 1, q))
  }

  lemma SignedIsRead(t: string, p: nat, q: nat)
    requires Signed(t, p, q) && Ends(t, q)
    ensures p < q <= |t| && Number(t, Sign(t, p)) == Some(q) && t[q - 1] != ','
  {
    hide Number;
    if NumberText(t, p, q) {
      NumberIsRead(t, p, q);
    } else {
      NumberIsRead(t, p + 1, q);
    }
  }

  /** A currency sign, perhaps one space, and then an amount. */
  ghost predicate MoneyText(t: string) {
    t != "" && IsCurrency(t[0]) && (Signed(t, 1, |t|) || (|t| > 1 && IsSpace(t[1]) && Signed(t, 2, |t|)))
  }

  /** An amount, perhaps one space, and a percent sign. */
  ghost predicate PercentText(t: string) {
    && |t| > 1 && t[|t| - 1] == '%'
    && (Signed(t, 0, |t| - 1) || (|t| > 2 && IsSpace(t[|t| - 2]) && Signed(t, 0, |t| - 2)))
  }

  lemma OneFigure(t: string)
    requires t != "" && FigureAt(t, 0) == Some(|t|) && t[|t| - 1] != ','
    ensures Figures(t, 0) == [Span(0, |t|)]
  {
    hide FigureAt;
    FiguresTake(t, 0);
    assert Figures(t, |t|) == [];
  }

  lemma MoneyIsRead(t: string)
    requires MoneyText(t)
    ensures FigureAt(t, 0) == Some(|t|) && t[|t| - 1] != ','
  {
    var p := if Signed(t, 1, |t|) then 1 else 2;
    SignedIsRead(t, p, |t|);
    assert OneSpace(t, 1) == p;
    hide Number, Signed;
    assert CodeMoney(t, 0).None? by {
      assert !TextAt(t, 0, "USD") && !TextAt(t, 0, "EUR") && !TextAt(t, 0, "GBP") && !TextAt(t, 0, "INR");
    }
    assert SignMoney(t, 0) == Some(|t|);
  }

  lemma PercentIsRead(t: string)
    requires PercentText(t)
    ensures FigureAt(t, 0) == Some(|t|) && t[|t| - 1] != ','
  {
    var q := if Signed(t, 0, |t| - 1) then |t| - 1 else |t| - 2;
    SignedIsRead(t, 0, q);
    NoOtherStart(t, q);
    hide Number, Signed, CodeMoney, SignMoney, IsoDate;
    assert Percent(t, 0) == Some(|t|);
  }

  /** What starts with a number is no money and no date. */
  lemma NoOtherStart(t: string, q: nat)
    requires Signed(t, 0, q) && Ends(t, q)
    requires q < |t| ==> t[q] != '-'
    ensures CodeMoney(t, 0).None? && SignMoney(t, 0).None? && IsoDate(t, 0).None?
  {
    hide Number;
    var p := Sign(t, 0);
    NoMinus(t, p, q);
    NoCode(t, p);
    hide NumberText, TextAt;
    assert !(DigitsFrom(t, 0, 4) && CharAt(t, 4, '-')) by {
      assert q < 4 && q < |t| ==> !IsDigit(t[q]);
    }
  }

  lemma NoCode(t: string, p: nat)
    requires p < |t| && IsDigit(t[p])
    ensures !TextAt(t, p, "USD") && !TextAt(t, p, "EUR") && !TextAt(t, p, "GBP") && !TextAt(t, p, "INR")
  {
    forall w | TextAt(t, p, w) && w != ""
      ensures IsDigit(w[0])
    {
      assert t[p..p + |w|][0] == t[p];
    }
  }

  lemma NoMinus(t: string, p: nat, q: nat)
    requires NumberText(t, p, q)
    ensures IsDigit(t[p]) && forall i :: p <= i < q ==> t[i] != '-'
  {
  }

  /** A sum of money, a percentage and a plain number are one figure each, whole. */
  lemma WholeFigures(t: string)
    requires MoneyText(t) || PercentText(t) || Signed(t, 0, |t|)
    ensures Figures(t, 0) == [Span(0, |t|)]
  {
    hide FigureAt, Figures, Signed, MoneyText, PercentText;
    if MoneyText(t) {
      MoneyIsRead(t);
    } else if PercentText(t) {
      PercentIsRead(t);
    } else {
      PlainIsRead(t);
    }
    OneFigure(t);
  }

  lemma PlainIsRead(t: string)
    requires Signed(t, 0, |t|)
    ensures t != "" && FigureAt(t, 0) == Some(|t|) && t[|t| - 1] != ','
  {
    SignedIsRead(t, 0, |t|);
    NoOtherStart(t, |t|);
    hide Number, Signed, CodeMoney, SignMoney, IsoDate;
  }

  // ---- an instance ----------------------------------------------------

  lemma FiveIsAFigure()
    ensures FigureAt("5two", 0) == Some(1)
  {
    assert DigitsAndCommas("5two", 1) == 1;
    assert Number("5two", 0) == Some(1);
  }

  lemma TouchingWordIsNone(p: nat)
    requires 1 <= p < 4
    ensures FigureAt("5two", p) == None
  {
    assert !Boundary("5two", p);
    hide WordLength;
  }

  /** In "5two" the word touches the digit, so only the digit is a figure. */
  lemma OnlyTheDigit()
    ensures Figures("5two", 0) == [Span(0, 1)]
  {
    var t := "5two";
    hide FigureAt;
    FiveIsAFigure();
    TouchingWordIsNone(1);
    TouchingWordIsNone(2);
    TouchingWordIsNone(3);
    assert Figures(t, 4) == [];
    assert Figures(t, 3) == [];
    assert Figures(t, 2) == [];
    assert Figures(t, 1) == [];
  }

  lemma TwoStandsAlone()
    ensures NumberWordAt(" two", 1) == 3
  {
    assert SpellsAt(" two", 1, "two") && Boundary(" two", 1) && Boundary(" two", 4);
    hide SpellsAt, Boundary;
    assert NUMBER_WORDS[0] == "two";
  }

  /** Its token leaves the word standing alone: substituting the sheet's own token is refused. */
  lemma FiveTwoIsRefused()
    ensures GoodSpans("5two", Figures("5two", 0))
    ensures var sheet := Tokenized("5two", Figures("5two", 0));
      sheet == Sheet("[F1]two", ["5"]) && Substitute(sheet.tokenized, sheet.facts) == TypedFigure
  {
    var t := "5two";
    FiguresAreGood(t);
    OnlyTheDigit();
    TwoStandsAlone();
    hide Figures, Substitute, NumberWordAt;
    assert t[0..1] == "5" && t[1..] == "two" && t[0..0] == "";
    var spans := [Span(0, 1)];
    assert spans[1..] == [];
    assert Collect(t, [], 1, ["5"]) == ["5"];
    assert Collect(t, spans, 0, []) == ["5"];
    assert Numeral(1) == "1" && TokenText(0) == "[F1]";
    assert Replaced(t, [], 1, ["5"]) == "two";
    assert Tokenized(t, spans) == Sheet("[F1]two", ["5"]);
    assert BlankedText(t, [], 1) == "two" && BlankedText(t, spans, 0) == " two";
    assert HasNumberWord(" two");
    FewFigures(t, spans);
  }
}
