/** Figure tokens: every figure of an answer leaves as [F1], [F2], ... and comes back exactly. */
module Facts {
  import opened Prelude

  // ---- characters -----------------------------------------------------

  predicate IsDigit(c: char) {
    '0' <= c <= '9'
  }

  /** The currency signs and the percent sign. */
  predicate IsCurrency(c: char) {
    c == '$' || c == '\U{20AC}' || c == '\U{00A3}' || c == '\U{20B9}'
  }

  predicate IsSymbol(c: char) {
    IsCurrency(c) || c == '%'
  }

  predicate IsFigureChar(c: char) {
    IsDigit(c) || IsSymbol(c)
  }

  predicate IsSpace(c: char) {
    c == ' ' || '\t' <= c <= '\r' || '\U{1C}' <= c <= '\U{1F}'
  }

  // ---- decimal numerals -----------------------------------------------

  function Numeral(n: nat): (s: string)
    ensures s != "" && forall i :: 0 <= i < |s| ==> IsDigit(s[i])
  {
    if n < 10 then [DigitChar(n)] else Numeral(n / 10) + [DigitChar(n % 10)]
  }

  function DigitChar(d: nat): (c: char)
    requires d < 10
    ensures IsDigit(c)
  {
    '0' + d as char
  }

  lemma {:induction false} NumeralInjective(m: nat, n: nat)
    requires Numeral(m) == Numeral(n)
    ensures m == n
  {
    var s, t := Numeral(m), Numeral(n);
    assert s[|s| - 1] == t[|t| - 1];
    if m >= 10 && n >= 10 {
      assert Numeral(m / 10) == s[..|s| - 1] == t[..|t| - 1] == Numeral(n / 10);
      NumeralInjective(m / 10, n / 10);
    }
  }

  lemma NumeralLength(n: nat)
    ensures |Numeral(n)| <= 3 <==> n <= 999
  {
    if n >= 1000 {
      assert n / 10 >= 100 && n / 100 >= 10 && n / 10 / 10 == n / 100;
      assert |Numeral(n / 10 / 10)| >= 2;
    }
  }

  // ---- reading tokens in a draft --------------------------------------

  function SkipSpace(t: string, p: nat): (r: nat)
    requires p <= |t|
    ensures p <= r <= |t|
    ensures forall i :: p <= i < r ==> IsSpace(t[i])
    ensures r < |t| ==> !IsSpace(t[r])
    decreases |t| - p
  {
    if p < |t| && IsSpace(t[p]) then SkipSpace(t, p + 1) else p
  }

  function SkipDigits(t: string, p: nat): (r: nat)
    requires p <= |t|
    ensures p <= r <= |t|
    ensures forall i :: p <= i < r ==> IsDigit(t[i])
    ensures r < |t| ==> !IsDigit(t[r])
    decreases |t| - p
  {
    if p < |t| && IsDigit(t[p]) then SkipDigits(t, p + 1) else p
  }

  datatype Head = Head(length: nat, digits: string)

  /** A token at the very start of t: bracket, F or f, one to three digits, bracket, spaces allowed. */
  function TokenHead(t: string): (h: Option<Head>)
    ensures h.Some? ==> 4 <= h.value.length <= |t|
  {
    if t == "" || t[0] != '[' then None
    else
      var f := SkipSpace(t, 1);
      if f >= |t| || (t[f] != 'F' && t[f] != 'f') then None
      else
        var d := SkipSpace(t, f + 1);
        var e := SkipDigits(t, d);
        if e - d < 1 || e - d > 3 then None
        else
          var b := SkipSpace(t, e);
          if b >= |t| || t[b] != ']' then None else Some(Head(b + 1, t[d..e]))
  }

  /** A draft is a run of typed characters and tokens. */
  datatype Item = Typed(c: char) | Token(digits: string)

  function Scan(t: string): seq<Item>
    decreases |t|
  {
    if t == "" then []
    else
      var h := TokenHead(t);
      if h.Some? then [Token(h.value.digits)] + Scan(t[h.value.length..])
      else [Typed(t[0])] + Scan(t[1..])
  }

  /** TOKEN.sub(" ", draft). */
  function Blanked(items: seq<Item>): string {
    if items == [] then ""
    else (if items[0].Typed? then [items[0].c] else " ") + Blanked(items[1..])
  }

  // ---- the fact sheet -------------------------------------------------

  /** facts[k] is the value of the token F(k+1), in insertion order. */
  datatype Sheet = Sheet(tokenized: string, facts: seq<string>)

  function FactFrom(facts: seq<string>, digits: string, k: nat): Option<string>
    requires k <= |facts|
    decreases |facts| - k
  {
    if k == |facts| then None
    else if Numeral(k + 1) == digits then Some(facts[k])
    else FactFrom(facts, digits, k + 1)
  }

  function Fact(facts: seq<string>, digits: string): Option<string> {
    FactFrom(facts, digits, 0)
  }

  datatype Reply = Accepted(text: string, used: seq<string>) | UnknownToken | TypedFigure | DroppedFigures

  predicate KnownTokens(items: seq<Item>, facts: seq<string>) {
    forall k :: 0 <= k < |items| && items[k].Token? ==> Fact(facts, items[k].digits).Some?
  }

  predicate HasFigureChar(t: string) {
    exists i :: 0 <= i < |t| && IsFigureChar(t[i])
  }

  function Filled(items: seq<Item>, facts: seq<string>): string
    requires KnownTokens(items, facts)
  {
    if items == [] then ""
    else (if items[0].Typed? then [items[0].c] else Fact(facts, items[0].digits).value)
         + Filled(items[1..], facts)
  }

  /** The tokens in order of first use. */
  function Used(items: seq<Item>): seq<string> {
    if items == [] then []
    else
      var before := Used(items[..|items| - 1]);
      var last := items[|items| - 1];
      if last.Token? && last.digits !in before then before + [last.digits] else before
  }

  predicate HasToken(items: seq<Item>) {
    exists k :: 0 <= k < |items| && items[k].Token?
  }

  // ---- number words ---------------------------------------------------

  const NUMBER_WORDS: seq<string> := [
    "two", "three", "four", "five", "six", "seven", "eight", "nine", "ten", "eleven", "twelve",
    "twenty", "thirty", "forty", "fifty", "sixty", "seventy", "eighty", "ninety", "hundred",
    "thousand", "million", "billion", "trillion", "dozen"]

  function Lower(c: char): char {
    if 'A' <= c <= 'Z' then 'a' + (c - 'A') else c
  }

  predicate IsWordChar(c: char) {
    'a' <= Lower(c) <= 'z' || IsDigit(c) || c == '_'
  }

  predicate WordCharAt(t: string, p: int) {
    0 <= p < |t| && IsWordChar(t[p])
  }

  /** \b between positions p - 1 and p. */
  predicate Boundary(t: string, p: nat) {
    WordCharAt(t, p - 1) != WordCharAt(t, p)
  }

  predicate SpellsAt(t: string, p: nat, w: string) {
    p + |w| <= |t| && forall i :: 0 <= i < |w| ==> Lower(t[p + i]) == w[i]
  }

  /** The length of the number word, with its plural s, at p; 0 when there is none. */
  function WordLength(t: string, p: nat, words: seq<string>): (n: nat)
    ensures n > 0 ==> p + n <= |t|
  {
    if words == [] then 0
    else
      var n := |words[0]|;
      if n > 0 && SpellsAt(t, p, words[0]) && p + n < |t| && Lower(t[p + n]) == 's' && Boundary(t, p + n + 1) then n + 1
      else if n > 0 && SpellsAt(t, p, words[0]) && Boundary(t, p + n) then n
      else WordLength(t, p, words[1..])
  }

  function NumberWordAt(t: string, p: nat): (n: nat)
    ensures n > 0 ==> p + n <= |t|
  {
    if Boundary(t, p) then WordLength(t, p, NUMBER_WORDS) else 0
  }

  predicate HasNumberWord(t: string) {
    exists p :: 0 <= p < |t| && NumberWordAt(t, p) > 0
  }

  /** substitute: refuse unknown tokens, then typed figures, then a draft that kept none. */
  function Substitute(draft: string, facts: seq<string>): Reply {
    var items := Scan(draft);
    if !KnownTokens(items, facts) then UnknownToken
    else if HasFigureChar(Blanked(items)) || HasNumberWord(Blanked(items)) then TypedFigure
    else if facts != [] && !HasToken(items) then DroppedFigures
    else Accepted(Filled(items, facts), Used(items))
  }

  predicate HasTokenOf(items: seq<Item>, digits: string) {
    exists k :: 0 <= k < |items| && items[k] == Token(digits)
  }

  /** The first a stands before every b. */
  ghost predicate SeenFirst(items: seq<Item>, a: string, b: string) {
    exists k :: 0 <= k < |items| && items[k] == Token(a) && forall h :: 0 <= h <= k ==> items[h] != Token(b)
  }

  /** Each kept token once, in the order of its first appearance. */
  lemma {:induction false} UsedAre(items: seq<Item>)
    ensures forall d :: d in Used(items) <==> HasTokenOf(items, d)
    ensures forall i, j :: 0 <= i < j < |Used(items)| ==> SeenFirst(items, Used(items)[i], Used(items)[j])
  {
    if items != [] {
      var n := |items| - 1;
      var before := Used(items[..n]);
      UsedAre(items[..n]);
      forall d
        ensures d in Used(items) <==> HasTokenOf(items, d)
      {
        if d in Used(items) && d !in before {
          assert items[n] == Token(d);
        }
        if k :| 0 <= k < |items| && items[k] == Token(d) {
          assert k < n ==> items[..n][k] == Token(d);
        }
      }
      forall i, j | 0 <= i < j < |Used(items)|
        ensures SeenFirst(items, Used(items)[i], Used(items)[j])
      {
        if j < |before| {
          LongerSeenFirst(items[..n], items[n], before[i], before[j]);
          assert items[..n] + [items[n]] == items;
        } else {
          LastSeen(items, before[i]);
        }
      }
    }
  }

  lemma LongerSeenFirst(items: seq<Item>, more: Item, a: string, b: string)
    requires SeenFirst(items, a, b)
    ensures SeenFirst(items + [more], a, b)
  {
    var k :| 0 <= k < |items| && items[k] == Token(a) && forall h :: 0 <= h <= k ==> items[h] != Token(b);
    assert (items + [more])[k] == Token(a);
  }

  lemma LastSeen(items: seq<Item>, a: string)
    requires items != [] && items[|items| - 1].Token?
    requires HasTokenOf(items[..|items| - 1], a) && !HasTokenOf(items[..|items| - 1], items[|items| - 1].digits)
    ensures SeenFirst(items, a, items[|items| - 1].digits)
  {
    var init := items[..|items| - 1];
    var k :| 0 <= k < |init| && init[k] == Token(a);
    assert items[k] == Token(a);
    assert forall h :: 0 <= h <= k ==> items[h] == init[h];
  }

  /** With figures to keep, no accepted draft is without a token, and the reply names the tokens it kept in order. */
  lemma AcceptedKeepsTokens(draft: string, facts: seq<string>)
    requires Substitute(draft, facts).Accepted?
    ensures facts != [] ==> Substitute(draft, facts).used != []
    ensures forall d :: d in Substitute(draft, facts).used <==> HasTokenOf(Scan(draft), d)
    ensures var used := Substitute(draft, facts).used;
      forall i, j :: 0 <= i < j < |used| ==> SeenFirst(Scan(draft), used[i], used[j])
  {
    var items, reply := Scan(draft), Substitute(draft, facts);
    assert reply.used == Used(items) && (facts != [] ==> HasToken(items));
    hide Scan, Substitute;
    UsedAre(items);
    if facts != [] {
      var k :| 0 <= k < |items| && items[k].Token?;
      assert items[k] == Token(items[k].digits);
      NotEmpty(Used(items), items[k].digits);
    }
  }

  lemma NotEmpty(xs: seq<string>, x: string)
    requires x in xs
    ensures xs != []
  {
  }

  // ---- tokenizing -----------------------------------------------------

  datatype Span = Span(start: nat, end: nat)

  /** Figures in order, not overlapping, not empty, covering every digit and symbol of the text. */
  ghost predicate GoodSpans(t: string, spans: seq<Span>) {
    && Placed(t, spans, 0)
    && forall i :: 0 <= i < |t| && IsFigureChar(t[i]) ==> exists k :: 0 <= k < |spans| && spans[k].start <= i < spans[k].end
  }

  predicate Placed(t: string, spans: seq<Span>, from: nat)
    decreases |spans|
  {
    if spans == [] then from <= |t|
    else from <= spans[0].start < spans[0].end <= |t| && Placed(t, spans[1..], spans[0].end)
  }

  function IndexOf(vs: seq<string>, v: string): (k: nat)
    ensures k <= |vs| && (k < |vs| ==> vs[k] == v) && (v in vs ==> k < |vs|)
  {
    if vs == [] || vs[0] == v then 0 else 1 + IndexOf(vs[1..], v)
  }

  /** The distinct figures, in order of first appearance, after those already seen. */
  function Collect(t: string, spans: seq<Span>, from: nat, seen: seq<string>): (vs: seq<string>)
    requires Placed(t, spans, from)
    ensures seen <= vs
    decreases |spans|
  {
    if spans == [] then seen
    else
      var v := t[spans[0].start..spans[0].end];
      Collect(t, spans[1..], spans[0].end, if v in seen then seen else seen + [v])
  }

  function TokenText(k: nat): string {
    "[F" + Numeral(k + 1) + "]"
  }

  function Replaced(t: string, spans: seq<Span>, from: nat, vs: seq<string>): string
    requires Placed(t, spans, from)
    decreases |spans|
  {
    if spans == [] then t[from..]
    else
      t[from..spans[0].start] + TokenText(IndexOf(vs, t[spans[0].start..spans[0].end]))
      + Replaced(t, spans[1..], spans[0].end, vs)
  }

  function Tokenized(t: string, spans: seq<Span>): Sheet
    requires Placed(t, spans, 0)
  {
    var vs := Collect(t, spans, 0, []);
    Sheet(Replaced(t, spans, 0, vs), vs)
  }

  lemma {:induction false} IndexStable(vs: seq<string>, ws: seq<string>, v: string)
    requires v in vs && vs <= ws
    ensures IndexOf(vs, v) == IndexOf(ws, v)
  {
    if vs[0] != v {
      assert vs[1..] <= ws[1..];
      IndexStable(vs[1..], ws[1..], v);
    }
  }

  lemma {:induction false} IndexAppended(vs: seq<string>, v: string)
    requires v !in vs
    ensures IndexOf(vs + [v], v) == |vs|
  {
    if vs != [] {
      assert (vs + [v])[1..] == vs[1..] + [v];
      IndexAppended(vs[1..], v);
    }
  }

  /** tokens_by_text: every figure seen so far with its token. */
  ghost predicate Dictionary(facts: seq<string>, tokens: map<string, string>) {
    && (forall v :: v in tokens <==> v in facts)
    && (forall v :: v in facts ==> tokens[v] == TokenText(IndexOf(facts, v)))
  }

  method Learn(facts: seq<string>, tokens: map<string, string>, value: string)
    returns (facts': seq<string>, tokens': map<string, string>)
    requires Dictionary(facts, tokens)
    ensures facts' == (if value in facts then facts else facts + [value])
    ensures Dictionary(facts', tokens')
    ensures value in tokens' && tokens'[value] == TokenText(IndexOf(facts', value))
  {
    hide TokenText, Numeral;
    facts', tokens' := facts, tokens;
    if value !in tokens {
      IndexAppended(facts, value);
      forall v | v in facts
        ensures IndexOf(facts + [value], v) == IndexOf(facts, v)
      {
        IndexStable(facts, facts + [value], v);
      }
      tokens' := tokens[value := TokenText(|facts|)];
      facts' := facts + [value];
    }
  }

  lemma EmptyDictionary()
    ensures Dictionary([], map[])
  {
  }

  lemma PieceAdded(p: string, a: string, b: string, c: string)
    ensures p + a + b + c == p + (a + b + c)
  {
  }

  /** tokenize: one pass over the figures, filling the facts and the pieces. */
  method Tokenize(t: string, spans: seq<Span>) returns (sheet: Sheet)
    requires Placed(t, spans, 0)
    ensures sheet == Tokenized(t, spans)
  {
    hide TokenText, Numeral, IndexOf, Dictionary;
    EmptyDictionary();
    var facts: seq<string>, tokensByText: map<string, string>, pieces, last := [], map[], "", 0;
    ghost var all := Collect(t, spans, 0, []);
    for i := 0 to |spans|
      invariant Placed(t, spans[i..], last)
      invariant Collect(t, spans[i..], last, facts) == all
      invariant Dictionary(facts, tokensByText)
      invariant pieces + Replaced(t, spans[i..], last, all) == Replaced(t, spans, 0, all)
    {
      var start, end := spans[i].start, spans[i].end;
      var value := t[start..end];
      assert spans[i..][1..] == spans[i + 1..];
      facts, tokensByText := Learn(facts, tokensByText, value);
      IndexStable(facts, all, value);
      PieceAdded(pieces, t[last..start], tokensByText[value], Replaced(t, spans[i + 1..], end, all));
      pieces := pieces + t[last..start] + tokensByText[value];
      last := end;
    }
    pieces := pieces + t[last..];
    sheet := Sheet(pieces, facts);
  }
}
