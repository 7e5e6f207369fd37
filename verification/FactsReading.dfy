/** What counts as a token and as a number word in a draft, read off its characters. */
module FactsReading {
  import opened Prelude
  import opened Facts
  import opened FactsLaws

  // ---- tokens ---------------------------------------------------------

  /** A space, tab, line end or page end, or one of the four separators of ASCII. */
  predicate Blank(c: char) {
    c in {' ', '\t', '\n', '\U{0B}', '\U{0C}', '\r', '\U{1C}', '\U{1D}', '\U{1E}', '\U{1F}'}
  }

  ghost predicate Spaces(t: string, i: nat, j: nat)
    requires i <= j <= |t|
  {
    forall k :: i <= k < j ==> Blank(t[k])
  }

  /** [ F or f, one to three digits ], with spaces wherever the pattern allows them; it ends with position b. */
  ghost predicate TokenShape(t: string, f: nat, d: nat, e: nat, b: nat) {
    && 1 <= f < d < e <= b < |t| && e <= d + 3
    && t[0] == '[' && Spaces(t, 1, f) && (t[f] == 'F' || t[f] == 'f') && Spaces(t, f + 1, d)
    && (forall k :: d <= k < e ==> '0' <= t[k] <= '9') && Spaces(t, e, b) && t[b] == ']'
  }

  lemma BlankIs(c: char)
    ensures Blank(c) <==> IsSpace(c)
  {
  }

  lemma {:induction false} SkipsTo(t: string, p: nat, q: nat)
    requires p <= q < |t| && Spaces(t, p, q) && !Blank(t[q])
    ensures SkipSpace(t, p) == q
    decreases q - p
  {
    BlankIs(t[p]);
    if p < q {
      SkipsTo(t, p + 1, q);
    }
  }

  lemma {:induction false} DigitsTo(t: string, p: nat, q: nat)
    requires p <= q < |t| && (forall k :: p <= k < q ==> IsDigit(t[k])) && !IsDigit(t[q])
    ensures SkipDigits(t, p) == q
    decreases q - p
  {
    if p < q {
      DigitsTo(t, p + 1, q);
    }
  }

  /** What has the shape of a token is read as one, whole and with its digits. */
  lemma ShapeIsRead(t: string, f: nat, d: nat, e: nat, b: nat)
    requires TokenShape(t, f, d, e, b)
    ensures TokenHead(t) == Some(Head(b + 1, t[d..e]))
  {
    SkipsTo(t, 1, f);
    SkipsTo(t, f + 1, d);
    DigitsTo(t, d, e);
    SkipsTo(t, e, b);
    hide SkipSpace, SkipDigits;
  }

  /** Text begins with a token exactly when it begins with something of that shape. */
  lemma TokenReadExactly(t: string)
    ensures TokenHead(t).Some? <==> exists f, d, e, b :: TokenShape(t, f, d, e, b)
  {
    if TokenHead(t).Some? {
      var f := SkipSpace(t, 1);
      var d := SkipSpace(t, f + 1);
      var e := SkipDigits(t, d);
      var b := SkipSpace(t, e);
      forall k | 0 <= k < |t|
        ensures Blank(t[k]) <==> IsSpace(t[k])
      {
        BlankIs(t[k]);
      }
      assert TokenShape(t, f, d, e, b);
    }
    if f, d, e, b :| TokenShape(t, f, d, e, b) {
      ShapeIsRead(t, f, d, e, b);
    }
  }

  // ---- number words ---------------------------------------------------

  /** No letter, digit or underscore on one side of the position, and one on the other. */
  predicate Edge(t: string, p: nat) {
    (0 < p <= |t| && IsWordChar(t[p - 1])) != (p < |t| && IsWordChar(t[p]))
  }

  /** The word stands at p, in either case, whole or with a plural s. */
  predicate StandsAt(t: string, p: nat, w: string) {
    && w != [] && p + |w| <= |t| && (forall i :: 0 <= i < |w| ==> Lower(t[p + i]) == w[i])
    && (Edge(t, p + |w|) || (p + |w| < |t| && Lower(t[p + |w|]) == 's' && Edge(t, p + |w| + 1)))
  }

  lemma {:induction false} WordFoundExactly(t: string, p: nat, words: seq<string>)
    ensures WordLength(t, p, words) > 0 <==> exists k :: 0 <= k < |words| && StandsAt(t, p, words[k])
  {
    if words != [] {
      WordFoundExactly(t, p, words[1..]);
      hide SpellsAt, Boundary, StandsAt, WordLength;
      FirstWord(t, p, words);
      if k :| 0 < k < |words| && StandsAt(t, p, words[k]) {
        assert words[1..][k - 1] == words[k];
      }
      if k :| 0 <= k < |words[1..]| && StandsAt(t, p, words[1..][k]) {
        assert words[k + 1] == words[1..][k];
      }
    }
  }

  lemma FirstWord(t: string, p: nat, words: seq<string>)
    requires words != []
    ensures WordLength(t, p, words) > 0 <==> StandsAt(t, p, words[0]) || WordLength(t, p, words[1..]) > 0
  {
    assert forall q: nat :: Boundary(t, q) <==> Edge(t, q);
  }

  /** A text has a number word exactly when one of the words stands somewhere in it at the edge of a word. */
  lemma NumberWordExactly(t: string)
    ensures HasNumberWord(t) <==>
      exists p: nat, k: nat :: p < |t| && Edge(t, p) && k < |NUMBER_WORDS| && StandsAt(t, p, NUMBER_WORDS[k])
  {
    hide WordLength, StandsAt, Edge, Boundary;
    forall p: nat
      ensures NumberWordAt(t, p) > 0 <==> Edge(t, p) && exists k: nat :: k < |NUMBER_WORDS| && StandsAt(t, p, NUMBER_WORDS[k])
    {
      EdgeIs(t, p);
      WordFoundExactly(t, p, NUMBER_WORDS);
    }
  }

  lemma EdgeIs(t: string, p: nat)
    ensures Boundary(t, p) <==> Edge(t, p)
  {
  }

  // ---- replies --------------------------------------------------------

  /** The numeral of some figure of the sheet, counted from one. */
  ghost predicate Names(facts: seq<string>, digits: string, n: nat) {
    n < |facts| && Numeral(n + 1) == digits
  }

  /** A token stands for the figure of its own number, and for none when the sheet has no such figure. */
  lemma {:induction false} FactIs(facts: seq<string>, digits: string, k: nat)
    requires k <= |facts|
    ensures forall n: nat :: k <= n && Names(facts, digits, n) ==> FactFrom(facts, digits, k) == Some(facts[n])
    ensures (forall n: nat :: k <= n ==> !Names(facts, digits, n)) ==> FactFrom(facts, digits, k) == None
    decreases |facts| - k
  {
    if k < |facts| {
      FactIs(facts, digits, k + 1);
      assert Names(facts, digits, k) <==> Numeral(k + 1) == digits;
      hide Numeral;
      forall n: nat | k <= n && Names(facts, digits, n)
        ensures FactFrom(facts, digits, k) == Some(facts[n])
      {
        if Numeral(k + 1) == digits {
          NumeralInjective(k + 1, n + 1);
        }
      }
    }
  }

  /** Some token of the draft has a number that no figure of the sheet has. */
  ghost predicate NamesNone(items: seq<Item>, facts: seq<string>) {
    exists j :: 0 <= j < |items| && items[j].Token? && forall n: nat :: !Names(facts, items[j].digits, n)
  }

  /** A figure or a number word is left once the tokens are blanked. */
  ghost predicate TypesFigure(items: seq<Item>) {
    var left := Blanked(items);
    || (exists i :: 0 <= i < |left| && ('0' <= left[i] <= '9' || left[i] in "$\U{20AC}\U{00A3}\U{20B9}%"))
    || HasNumberWord(left)
  }

  /** Which drafts are refused, and for which reason. */
  lemma RefusedExactly(draft: string, facts: seq<string>)
    ensures var items, reply := Scan(draft), Substitute(draft, facts);
      && (reply == UnknownToken <==> NamesNone(items, facts))
      && (reply == TypedFigure <==> !NamesNone(items, facts) && TypesFigure(items))
      && (reply == DroppedFigures <==>
            !NamesNone(items, facts) && !TypesFigure(items) && facts != [] && forall j :: 0 <= j < |items| ==> items[j].Typed?)
  {
    var items := Scan(draft);
    KnownExactly(items, facts);
    FigureCharIs();
    hide Scan, KnownTokens, NamesNone, HasNumberWord, IsFigureChar;
  }

  lemma FigureCharIs()
    ensures forall c :: IsFigureChar(c) <==> '0' <= c <= '9' || c in "$\U{20AC}\U{00A3}\U{20B9}%"
  {
    var signs := "$\U{20AC}\U{00A3}\U{20B9}%";
    forall c
      ensures c in signs <==> IsSymbol(c)
    {
      assert signs[0] == '$' && signs[1] == '\U{20AC}' && signs[2] == '\U{00A3}' && signs[3] == '\U{20B9}' && signs[4] == '%';
    }
  }

  lemma KnownExactly(items: seq<Item>, facts: seq<string>)
    ensures KnownTokens(items, facts) <==> !NamesNone(items, facts)
  {
    hide FactFrom, Names;
    forall j | 0 <= j < |items| && items[j].Token?
      ensures Fact(facts, items[j].digits).Some? <==> exists n: nat :: Names(facts, items[j].digits, n)
    {
      FactIs(facts, items[j].digits, 0);
    }
  }

  // ---- masking --------------------------------------------------------

  function Tokens(n: nat): (r: seq<string>)
    ensures |r| == n
  {
    seq(n, k requires 0 <= k < n => TokenText(k))
  }

  function Chars(s: string): (r: seq<Piece>)
    ensures |r| == |s| && forall k :: 0 <= k < |s| ==> r[k] == Char(s[k])
  {
    seq(|s|, k requires 0 <= k < |s| => Char(s[k]))
  }

  /** Pieces that type no figure and insert only tokens the sheet has. */
  ghost predicate Hidden(pieces: seq<Piece>, n: nat) {
    forall k :: 0 <= k < |pieces| ==> if pieces[k].Char? then !IsFigureChar(pieces[k].c) else pieces[k].fact < n
  }

  lemma {:induction false} JoinAppend(a: seq<Piece>, b: seq<Piece>, n: nat)
    requires Hidden(a, n) && Hidden(b, n)
    ensures Hidden(a + b, n) && Join(a + b, Tokens(n)) == Join(a, Tokens(n)) + Join(b, Tokens(n))
  {
    hide Tokens, IsFigureChar;
    assert Hidden(a + b, n);
    if a == [] {
      assert a + b == b;
    } else {
      var tail := a[1..];
      assert Hidden(tail, n);
      JoinAppend(tail, b, n);
      assert (a + b)[1..] == tail + b && (a + b)[0] == a[0];
      hide Hidden;
      var first := if a[0].Char? then [a[0].c] else Tokens(n)[a[0].fact];
      assert Join(a, Tokens(n)) == first + Join(tail, Tokens(n));
      assert Join(a + b, Tokens(n)) == first + Join(tail + b, Tokens(n));
      hide Join;
    }
  }

  lemma {:induction false} JoinChars(s: string, n: nat)
    requires forall k :: 0 <= k < |s| ==> !IsFigureChar(s[k])
    ensures Hidden(Chars(s), n) && Join(Chars(s), Tokens(n)) == s
  {
    if s != "" {
      JoinChars(s[1..], n);
      assert Chars(s)[1..] == Chars(s[1..]);
    }
  }

  lemma ThreeParts(gap: string, middle: seq<Piece>, rest: seq<Piece>, n: nat)
    requires Hidden(middle, n) && Hidden(rest, n) && forall k :: 0 <= k < |gap| ==> !IsFigureChar(gap[k])
    ensures var all := Chars(gap) + (middle + rest);
      Hidden(all, n) && Join(all, Tokens(n)) == gap + (Join(middle, Tokens(n)) + Join(rest, Tokens(n)))
  {
    JoinChars(gap, n);
    JoinAppend(middle, rest, n);
    JoinAppend(Chars(gap), middle + rest, n);
  }

  /** What stands for a figure: its token, or a mark that is no figure. */
  function Mark(v: string, facts: seq<string>): Piece {
    if v in facts then Inserted(LastIndex(facts, v)) else Char('#')
  }

  lemma MarkIs(v: string, facts: seq<string>)
    ensures Hidden([Mark(v, facts)], |facts|)
    ensures Join([Mark(v, facts)], Tokens(|facts|)) == if v in facts then TokenText(LastIndex(facts, v)) else "#"
  {
    hide TokenText, LastIndex;
    assert [Mark(v, facts)][1..] == [];
  }

  /** A masked text is typed characters that are no figures, and tokens of the sheet. */
  lemma {:induction false} MaskHides(t: string, spans: seq<Span>, from: nat, facts: seq<string>) returns (pieces: seq<Piece>)
    requires Placed(t, spans, from) && Covered(t, spans, from)
    ensures Hidden(pieces, |facts|) && Join(pieces, Tokens(|facts|)) == Masked(t, spans, from, facts, false)
    decreases |spans|
  {
    hide TokenText, LastIndex, Hidden, Join, Tokens, IsFigureChar, Mark, Chars;
    if spans == [] {
      pieces := Chars(t[from..]);
      JoinChars(t[from..], |facts|);
    } else {
      var gap, v := t[from..spans[0].start], Value(t, spans[0]);
      var rest := MaskHides(t, spans[1..], spans[0].end, facts);
      MarkIs(v, facts);
      ThreeParts(gap, [Mark(v, facts)], rest, |facts|);
      pieces := Chars(gap) + ([Mark(v, facts)] + rest);
    }
  }

  /** Keeping unknown figures, a sheet without figures changes nothing. */
  lemma {:induction false} MaskKeeps(t: string, spans: seq<Span>, from: nat)
    requires Placed(t, spans, from)
    ensures Masked(t, spans, from, [], true) == t[from..]
    decreases |spans|
  {
    if spans != [] {
      MaskKeeps(t, spans[1..], spans[0].end);
    }
  }
}
