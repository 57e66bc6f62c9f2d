/**
 * jsArg and esc, and the two readers their output meets in a browser: the HTML parser
 * decodes the attribute value, then the script engine reads a string literal.
 * Strings are sequences of UTF-16 code units.
 */
module Escape {
  import opened Prelude

  type Unit = n: nat | n < 0x10000

  const QUOTE: Unit := 0x22
  const AMP: Unit := 0x26
  const APOS: Unit := 0x27
  const LT: Unit := 0x3C
  const GT: Unit := 0x3E
  const BACKSLASH: Unit := 0x5C
  const SEMI: Unit := 0x3B
  const LS: Unit := 0x2028
  const PS: Unit := 0x2029
  const LF: Unit := 10
  const CR: Unit := 13
  const NUL: Unit := 0
  const REPLACEMENT: Unit := 0xFFFD

  predicate High(c: Unit) { 0xD800 <= c < 0xDC00 }
  predicate Low(c: Unit) { 0xDC00 <= c < 0xE000 }

  ghost predicate Without(s: seq<Unit>, c: Unit) {
    forall i :: 0 <= i < |s| ==> s[i] != c
  }

  // ----- Writing

  function HexDigit(n: nat): Unit
    requires n < 16
  {
    if n < 10 then 0x30 + n else 0x61 + n - 10
  }

  /** toString(16) */
  function Hex(n: nat): (r: seq<Unit>)
    ensures r != []
  {
    if n < 16 then [HexDigit(n)] else Hex(n / 16) + [HexDigit(n % 16)]
  }

  function PadStart(s: seq<Unit>, width: nat): seq<Unit>
    decreases width - |s|
  {
    if |s| >= width then s else PadStart([0x30] + s, width)
  }

  /** A \uXXXX escape. */
  function HexEscape(c: Unit): seq<Unit> {
    [BACKSLASH, 0x75] + PadStart(Hex(c), 4)
  }

  function JsonUnit(c: Unit): seq<Unit> {
    if c == 8 then [BACKSLASH, 0x62]
    else if c == 9 then [BACKSLASH, 0x74]
    else if c == LF then [BACKSLASH, 0x6E]
    else if c == 12 then [BACKSLASH, 0x66]
    else if c == CR then [BACKSLASH, 0x72]
    else if c == QUOTE || c == BACKSLASH then [BACKSLASH, c]
    else if c < 0x20 || High(c) || Low(c) then HexEscape(c)
    else [c]
  }

  function JsonBody(v: seq<Unit>): seq<Unit> {
    if v == [] then []
    else if |v| > 1 && High(v[0]) && Low(v[1]) then [v[0], v[1]] + JsonBody(v[2..])
    else JsonUnit(v[0]) + JsonBody(v[1..])
  }

  /** JSON.stringify of a string: section 25.5.2 of ECMA-262. */
  function Stringify(v: seq<Unit>): seq<Unit> {
    [QUOTE] + JsonBody(v) + [QUOTE]
  }

  /** replace(/c/g, ...): every unit of the text is replaced on its own. */
  function Replace(s: seq<Unit>, f: Unit -> seq<Unit>): seq<Unit> {
    if s == [] then [] else f(s[0]) + Replace(s[1..], f)
  }

  function NeutralUnit(c: Unit): seq<Unit> {
    if c == AMP || c == LT || c == GT || c == APOS || c == LS || c == PS then HexEscape(c) else [c]
  }

  const QUOT_NAME: seq<Unit> := [0x71, 0x75, 0x6F, 0x74, SEMI]
  const AMP_NAME: seq<Unit> := [0x61, 0x6D, 0x70, SEMI]
  const LT_NAME: seq<Unit> := [0x6C, 0x74, SEMI]
  const GT_NAME: seq<Unit> := [0x67, 0x74, SEMI]
  /** #39; */
  const APOS_CODE: seq<Unit> := [0x23, 0x33, 0x39, SEMI]

  function OneUnit(c: Unit, to: seq<Unit>): Unit -> seq<Unit> {
    (x: Unit) => if x == c then to else [x]
  }

  function JsArg(v: seq<Unit>): seq<Unit> {
    Replace(Replace(Stringify(v), NeutralUnit), OneUnit(QUOTE, [AMP] + QUOT_NAME))
  }

  function Esc(v: seq<Unit>): seq<Unit> {
    Replace(Replace(Replace(Replace(Replace(v,
      OneUnit(AMP, [AMP] + AMP_NAME)), OneUnit(LT, [AMP] + LT_NAME)), OneUnit(GT, [AMP] + GT_NAME)),
      OneUnit(QUOTE, [AMP] + QUOT_NAME)), OneUnit(APOS, [AMP] + APOS_CODE))
  }

  // ----- Reading an attribute value: section 13.2.5 of the HTML Standard

  /** The named references (without &), and what a numeric reference stands for. */
  datatype Html = Html(names: map<seq<Unit>, seq<Unit>>, numeric: nat -> seq<Unit>)

  /** The length of the longest name, of length at most k, that s starts with; 0 if there is none. */
  function LongestName(h: Html, s: seq<Unit>, k: nat): (n: nat)
    requires k <= |s|
    ensures n <= k && (n > 0 ==> s[..n] in h.names)
    ensures forall m :: n < m <= k ==> s[..m] !in h.names
  {
    if k == 0 then 0 else if s[..k] in h.names then k else LongestName(h, s, k - 1)
  }

  predicate Digit(c: Unit) { 0x30 <= c <= 0x39 }
  predicate Alnum(c: Unit) { Digit(c) || 0x41 <= c <= 0x5A || 0x61 <= c <= 0x7A }

  function HexValue(c: Unit): Option<nat> {
    if Digit(c) then Some(c - 0x30)
    else if 0x61 <= c <= 0x66 then Some(c - 0x61 + 10)
    else if 0x41 <= c <= 0x46 then Some(c - 0x41 + 10)
    else None
  }

  /** How many digits of the given base s starts with. */
  function DigitRun(s: seq<Unit>, base: nat): (n: nat)
    ensures n <= |s|
  {
    if s != [] && HexValue(s[0]).Some? && HexValue(s[0]).value < base then 1 + DigitRun(s[1..], base) else 0
  }

  function Value(s: seq<Unit>, base: nat): nat {
    if s == [] then 0
    else Value(s[..|s| - 1], base) * base + (match HexValue(s[|s| - 1]) case Some(d) => d case None => 0)
  }

  /** The numeric reference that starts s (just after &#): its length and its value. */
  function NumericReference(s: seq<Unit>): (r: Option<(nat, nat)>)
    ensures r.Some? ==> 0 < r.value.0 <= |s|
  {
    var hex := s != [] && (s[0] == 0x78 || s[0] == 0x58);
    var start := if hex then 1 else 0;
    var n := DigitRun(s[start..], if hex then 16 else 10);
    if n == 0 then None
    else
      var value := Value(s[start..start + n], if hex then 16 else 10);
      var end := start + n;
      Some((if end < |s| && s[end] == SEMI then end + 1 else end, value))
  }

  /** Line ends as LF; afterCr: the unit before was a CR, which a LF goes with. */
  function LineEnds(afterCr: bool, s: seq<Unit>): (r: seq<Unit>)
    ensures |r| <= |s| && Without(r, CR)
    decreases |s|
  {
    if s == [] then []
    else if s[0] == CR then [LF] + LineEnds(true, s[1..])
    else if afterCr && s[0] == LF then LineEnds(false, s[1..])
    else [s[0]] + LineEnds(false, s[1..])
  }

  /** Section 13.2.3.5: the input has no CR, alone or before a LF, but a LF. */
  function Normalized(s: seq<Unit>): seq<Unit> {
    LineEnds(false, s)
  }

  /** A unit of an attribute value that starts no reference. */
  function RawUnit(c: Unit): seq<Unit> {
    [if c == NUL then REPLACEMENT else c]
  }

  function Decode(h: Html, s: seq<Unit>): seq<Unit> {
    if s == [] then []
    else if s[0] != AMP then RawUnit(s[0]) + Decode(h, s[1..])
    else if |s| > 1 && s[1] == 0x23 then
      (match NumericReference(s[2..])
       case Some((n, value)) => h.numeric(value) + Decode(h, s[2 + n..])
       case None => [s[0]] + Decode(h, s[1..]))
    else
      var t := s[1..];
      var n := LongestName(h, t, |t|);
      if n == 0 then [s[0]] + Decode(h, t)
      else if t[n - 1] != SEMI && n < |t| && (t[n] == 0x3D || Alnum(t[n])) then [s[0]] + Decode(h, t)
      else h.names[t[..n]] + Decode(h, t[n..])
  }

  /** A quoted attribute value as the script engine gets it. */
  function Attribute(h: Html, s: seq<Unit>): seq<Unit> {
    Decode(h, Normalized(s))
  }

  /** The reference is known, and no longer name starts with it. */
  predicate Knows(h: Html, name: seq<Unit>, meaning: Unit) {
    name in h.names && h.names[name] == [meaning] && forall m :: m in h.names && name <= m ==> m == name
  }

  // ----- Reading a string literal: section 12.9.4 of ECMA-262

  function Prepend(c: seq<Unit>, r: Option<seq<Unit>>): Option<seq<Unit>> {
    match r case None => None case Some(v) => Some(c + v)
  }

  function SingleEscape(c: Unit): Unit {
    if c == 0x62 then 8 else if c == 0x74 then 9 else if c == 0x6E then 10
    else if c == 0x76 then 11 else if c == 0x66 then 12 else if c == 0x72 then 13 else c
  }

  function HexRun(s: seq<Unit>): Option<nat> {
    if forall i :: 0 <= i < |s| ==> HexValue(s[i]).Some? then Some(Value(s, 16)) else None
  }

  /** The rest of a literal delimited by q, after the opening delimiter: the whole text must be the literal. */
  function LiteralRest(q: Unit, s: seq<Unit>): Option<seq<Unit>> {
    if s == [] then None
    else if s[0] == q then (if |s| == 1 then Some([]) else None)
    else if s[0] == LF || s[0] == CR then None
    else if s[0] != BACKSLASH then Prepend([s[0]], LiteralRest(q, s[1..]))
    else if |s| == 1 then None
    else if s[1] == 0x75 then
      (if |s| < 6 then None
       else match HexRun(s[2..6])
         case Some(n) => if n < 0x10000 then Prepend([n], LiteralRest(q, s[6..])) else None
         case None => None)
    else if s[1] == 0x78 then
      (if |s| < 4 then None
       else match HexRun(s[2..4])
         case Some(n) => if n < 0x10000 then Prepend([n], LiteralRest(q, s[4..])) else None
         case None => None)
    else if Digit(s[1]) then
      (if s[1] == 0x30 && !(|s| > 2 && Digit(s[2])) then Prepend([0], LiteralRest(q, s[2..])) else None)
    else if s[1] == CR && |s| > 2 && s[2] == LF then LiteralRest(q, s[3..])
    else if s[1] == LF || s[1] == CR || s[1] == LS || s[1] == PS then LiteralRest(q, s[2..])
    else Prepend([SingleEscape(s[1])], LiteralRest(q, s[2..]))
  }

  function Literal(q: Unit, s: seq<Unit>): Option<seq<Unit>> {
    if s == [] || s[0] != q then None else LiteralRest(q, s[1..])
  }

  // ----- Proofs

  lemma {:induction false} ReplaceConcat(a: seq<Unit>, b: seq<Unit>, f: Unit -> seq<Unit>)
    ensures Replace(a + b, f) == Replace(a, f) + Replace(b, f)
  {
    if a == [] {
      assert a + b == b;
    } else {
      assert (a + b)[0] == a[0] && (a + b)[1..] == a[1..] + b;
      ReplaceConcat(a[1..], b, f);
    }
  }

  lemma HexDigitReads(n: nat)
    requires n < 16
    ensures HexValue(HexDigit(n)) == Some(n)
  {
  }

  lemma {:induction false} ValueSnoc(s: seq<Unit>, c: Unit, d: nat)
    requires HexValue(c) == Some(d)
    ensures Value(s + [c], 16) == Value(s, 16) * 16 + d
  {
    assert (s + [c])[..|s|] == s;
  }

  function FourDigits(c: Unit): seq<Unit> {
    [HexDigit(c / 4096)] + [HexDigit(c / 256 % 16)] + [HexDigit(c / 16 % 16)] + [HexDigit(c % 16)]
  }

  lemma FourDigitsRead(c: Unit)
    ensures HexRun(FourDigits(c)) == Some(c)
  {
    var d0, d1, d2, d3 := c / 4096, c / 256 % 16, c / 16 % 16, c % 16;
    HexDigitReads(d0);
    HexDigitReads(d1);
    HexDigitReads(d2);
    HexDigitReads(d3);
    ValueSnoc([], HexDigit(d0), d0);
    assert [] + [HexDigit(d0)] == [HexDigit(d0)];
    ValueSnoc([HexDigit(d0)], HexDigit(d1), d1);
    ValueSnoc([HexDigit(d0)] + [HexDigit(d1)], HexDigit(d2), d2);
    ValueSnoc([HexDigit(d0)] + [HexDigit(d1)] + [HexDigit(d2)], HexDigit(d3), d3);
    Recompose(c);
  }

  lemma Recompose(c: nat)
    ensures ((c / 4096 * 16 + c / 256 % 16) * 16 + c / 16 % 16) * 16 + c % 16 == c
  {
    assert c / 16 / 16 == c / 256 && c / 256 / 16 == c / 4096;
  }

  lemma PaddedHex(c: Unit)
    ensures HexEscape(c) == [BACKSLASH, 0x75] + FourDigits(c)
  {
    assert c / 16 / 16 == c / 256 && c / 256 / 16 == c / 4096;
    if c < 16 {
      var h := [HexDigit(c)];
      var h2 := [0x30] + ([0x30] + h);
      assert PadStart(h, 4) == PadStart([0x30] + h, 4) == PadStart(h2, 4);
      assert PadStart(h2, 4) == PadStart([0x30] + h2, 4) == [0x30] + h2;
      assert [0x30] + h2 == FourDigits(c);
    } else if c < 256 {
      var h := [HexDigit(c / 16), HexDigit(c % 16)];
      assert Hex(c) == h;
      assert PadStart(h, 4) == PadStart([0x30] + h, 4) == PadStart([0x30] + ([0x30] + h), 4);
      assert [0x30] + ([0x30] + h) == FourDigits(c);
    } else if c < 4096 {
      var h := [HexDigit(c / 256), HexDigit(c / 16 % 16)] + [HexDigit(c % 16)];
      assert Hex(c / 16) == [HexDigit(c / 256), HexDigit(c / 16 % 16)];
      assert Hex(c) == h && PadStart(h, 4) == PadStart([0x30] + h, 4) == [0x30] + h;
      assert [0x30] + h == FourDigits(c);
    } else {
      assert Hex(c / 4096) == [HexDigit(c / 4096)];
      assert Hex(c / 256) == Hex(c / 4096) + [HexDigit(c / 256 % 16)];
      assert Hex(c / 16) == Hex(c / 256) + [HexDigit(c / 16 % 16)];
      assert Hex(c) == FourDigits(c) && PadStart(Hex(c), 4) == Hex(c);
    }
  }

  // ----- jsArg is undone by the two readers

  /** No unit that HTML or the literal gives a meaning, control characters included. */
  ghost predicate Inert(s: seq<Unit>) {
    forall i :: 0 <= i < |s| ==>
      s[i] >= 0x20 && s[i] != AMP && s[i] != LT && s[i] != GT && s[i] != APOS && s[i] != LS && s[i] != PS
  }

  lemma HexEscapeInert(c: Unit)
    ensures Inert(HexEscape(c)) && Without(HexEscape(c), QUOTE)
    ensures |HexEscape(c)| == 6
  {
    PaddedHex(c);
  }

  lemma NeutralPair(a: Unit, b: Unit)
    requires High(a) && Low(b)
    ensures Replace([a, b], NeutralUnit) == [a, b]
  {
    assert [a, b][1..] == [b] && [b][1..] == [];
    assert Replace([b], NeutralUnit) == [b] + Replace([], NeutralUnit);
  }

  /** What the serialized form of a unit becomes: an escape is left alone, a raw unit may become one. */
  ghost function Written(c: Unit): seq<Unit> {
    if |JsonUnit(c)| == 1 then NeutralUnit(c) else JsonUnit(c)
  }

  lemma NeutralizedUnit(c: Unit)
    ensures Replace(JsonUnit(c), NeutralUnit) == Written(c) && Inert(Written(c))
  {
    HexEscapeInert(c);
    if |JsonUnit(c)| == 1 {
      assert [c][1..] == [];
    } else {
      InertUnchanged(JsonUnit(c));
    }
  }

  /** The text between the delimiters of jsArg's literal. */
  ghost function WrittenBody(v: seq<Unit>): seq<Unit> {
    if v == [] then []
    else if |v| > 1 && High(v[0]) && Low(v[1]) then [v[0], v[1]] + WrittenBody(v[2..])
    else Written(v[0]) + WrittenBody(v[1..])
  }

  lemma {:induction false} NeutralizedBody(v: seq<Unit>)
    ensures Replace(JsonBody(v), NeutralUnit) == WrittenBody(v) && Inert(WrittenBody(v))
  {
    hide JsonUnit, Written, HexEscape;
    if v == [] {
    } else if |v| > 1 && High(v[0]) && Low(v[1]) {
      NeutralizedBody(v[2..]);
      ReplaceConcat([v[0], v[1]], JsonBody(v[2..]), NeutralUnit);
      NeutralPair(v[0], v[1]);
    } else {
      NeutralizedBody(v[1..]);
      ReplaceConcat(JsonUnit(v[0]), JsonBody(v[1..]), NeutralUnit);
      NeutralizedUnit(v[0]);
    }
  }

  lemma {:induction false} InertUnchanged(s: seq<Unit>)
    requires Inert(s)
    ensures Replace(s, NeutralUnit) == s
  {
    if s != [] {
      InertUnchanged(s[1..]);
    }
  }

  /** The literal reader takes one written unit for one unit. */
  lemma WrittenReads(c: Unit, rest: seq<Unit>)
    ensures LiteralRest(QUOTE, Written(c) + rest) == Prepend([c], LiteralRest(QUOTE, rest))
  {
    PaddedHex(c);
    var w := Written(c);
    if |w| == 1 {
      assert (w + rest)[1..] == rest;
    } else if |w| == 2 {
      assert w == [BACKSLASH, w[1]] && SingleEscape(w[1]) == c && !Digit(w[1]);
      assert (w + rest)[2..] == rest;
    } else {
      FourDigitsRead(c);
      assert (w + rest)[2..6] == FourDigits(c) && (w + rest)[6..] == rest;
    }
  }

  lemma PairReads(a: Unit, b: Unit, rest: seq<Unit>)
    requires High(a) && Low(b)
    ensures LiteralRest(QUOTE, [a, b] + rest) == Prepend([a, b], LiteralRest(QUOTE, rest))
  {
    assert ([a, b] + rest)[1..] == [b] + rest && ([b] + rest)[1..] == rest;
    assert LiteralRest(QUOTE, [b] + rest) == Prepend([b], LiteralRest(QUOTE, rest));
    if LiteralRest(QUOTE, rest).Some? {
      var x := LiteralRest(QUOTE, rest).value;
      assert [a] + ([b] + x) == [a, b] + x;
    }
  }

  lemma {:induction false} LiteralReadsBack(v: seq<Unit>)
    ensures LiteralRest(QUOTE, WrittenBody(v) + [QUOTE]) == Some(v)
  {
    if v == [] {
    } else {
      hide LiteralRest, Written;
      var n := if |v| > 1 && High(v[0]) && Low(v[1]) then 2 else 1;
      LiteralReadsBack(v[n..]);
      var rest := WrittenBody(v[n..]) + [QUOTE];
      if n == 2 {
        PairReads(v[0], v[1], rest);
      } else {
        WrittenReads(v[0], rest);
      }
      assert WrittenBody(v) + [QUOTE] == (if n == 2 then [v[0], v[1]] else Written(v[0])) + rest;
      assert v == (if n == 2 then [v[0], v[1]] else [v[0]]) + v[n..];
    }
  }

  lemma NeutralizedLiteral(v: seq<Unit>)
    ensures Replace(Stringify(v), NeutralUnit) == [QUOTE] + (WrittenBody(v) + [QUOTE]) && Inert(WrittenBody(v))
  {
    NeutralizedBody(v);
    ReplaceConcat([QUOTE] + JsonBody(v), [QUOTE], NeutralUnit);
    ReplaceConcat([QUOTE], JsonBody(v), NeutralUnit);
    assert Replace([QUOTE], NeutralUnit) == [QUOTE] + Replace([QUOTE][1..], NeutralUnit);
  }

  /** A known reference at the head of the text is decoded to its meaning. */
  lemma KnownReferenceDecodes(h: Html, name: seq<Unit>, meaning: Unit, rest: seq<Unit>)
    requires Knows(h, name, meaning) && name != [] && name[0] != 0x23 && name[|name| - 1] == SEMI
    ensures Decode(h, [AMP] + name + rest) == [meaning] + Decode(h, rest)
  {
    var s := [AMP] + name + rest;
    var t := name + rest;
    assert s[1..] == t && t[..|name|] == name && t[|name|..] == rest;
    var n := LongestName(h, t, |t|);
    if n > |name| {
      assert false;
    }
  }

  lemma {:induction false} QuotesDecode(h: Html, t: seq<Unit>)
    requires Knows(h, QUOT_NAME, QUOTE) && Without(t, AMP) && Without(t, NUL)
    ensures Decode(h, Replace(t, OneUnit(QUOTE, [AMP] + QUOT_NAME))) == t
  {
    if t != [] {
      QuotesDecode(h, t[1..]);
      var rest := Replace(t[1..], OneUnit(QUOTE, [AMP] + QUOT_NAME));
      if t[0] == QUOTE {
        KnownReferenceDecodes(h, QUOT_NAME, QUOTE, rest);
      } else {
        assert ([t[0]] + rest)[1..] == rest;
      }
    }
  }

  /** Every & of the text starts &quot; and nothing in it can close the attribute or open a tag. */
  ghost predicate SafeInAttribute(s: seq<Unit>) {
    forall i :: 0 <= i < |s| ==>
      && s[i] >= 0x20 && s[i] != QUOTE && s[i] != APOS && s[i] != LT && s[i] != GT && s[i] != LS && s[i] != PS
      && (s[i] == AMP ==> i + 6 <= |s| && s[i + 1..i + 6] == QUOT_NAME)
  }

  lemma {:induction false} QuotesReplacedSafe(t: seq<Unit>)
    requires Inert(t)
    ensures SafeInAttribute(Replace(t, OneUnit(QUOTE, [AMP] + QUOT_NAME)))
  {
    if t != [] {
      QuotesReplacedSafe(t[1..]);
      var head, rest := OneUnit(QUOTE, [AMP] + QUOT_NAME)(t[0]), Replace(t[1..], OneUnit(QUOTE, [AMP] + QUOT_NAME));
      assert head == if t[0] == QUOTE then [AMP] + QUOT_NAME else [t[0]];
      forall i | 0 <= i < |head + rest| && (head + rest)[i] == AMP
        ensures i + 6 <= |head + rest| && (head + rest)[i + 1..i + 6] == QUOT_NAME
      {
        if i >= |head| {
          assert (head + rest)[i + 1..i + 6] == rest[i - |head| + 1..i - |head| + 6];
        } else {
          assert i == 0 && (head + rest)[1..6] == QUOT_NAME;
        }
      }
    }
  }

  lemma JsArgIsSafe(v: seq<Unit>)
    ensures SafeInAttribute(JsArg(v))
  {
    NeutralizedLiteral(v);
    QuotesReplacedSafe(Replace(Stringify(v), NeutralUnit));
  }

  lemma {:induction false} NormalizedAlready(s: seq<Unit>)
    requires Without(s, CR)
    ensures Normalized(s) == s
  {
    if s != [] {
      NormalizedAlready(s[1..]);
      assert s == [s[0]] + s[1..];
    }
  }

  /**
   * For every string and every reference table that knows &quot;: what the browser gets
   * from jsArg's output, decoded as an attribute then read as a literal, is the string.
   */
  lemma JsArgRoundTrip(h: Html, v: seq<Unit>)
    requires Knows(h, QUOT_NAME, QUOTE)
    ensures Literal(QUOTE, Attribute(h, JsArg(v))) == Some(v)
  {
    JsArgIsSafe(v);
    NormalizedAlready(JsArg(v));
    NeutralizedLiteral(v);
    LiteralReadsBack(v);
    QuotesDecode(h, Replace(Stringify(v), NeutralUnit));
  }

  // ----- esc: undone by the HTML parser, and no more than that

  lemma {:induction false} ReplaceAbsent(s: seq<Unit>, c: Unit, to: seq<Unit>)
    requires Without(s, c)
    ensures Replace(s, OneUnit(c, to)) == s
  {
    if s != [] {
      ReplaceAbsent(s[1..], c, to);
    }
  }

  /** Two replacements in a row are one, if the second leaves the first one's text alone. */
  lemma {:induction false} ReplaceTwice(s: seq<Unit>, f: Unit -> seq<Unit>, g: Unit -> seq<Unit>, fg: Unit -> seq<Unit>)
    requires forall c :: Replace(f(c), g) == fg(c)
    ensures Replace(Replace(s, f), g) == Replace(s, fg)
  {
    if s != [] {
      ReplaceTwice(s[1..], f, g, fg);
      ReplaceConcat(f(s[0]), Replace(s[1..], f), g);
    }
  }

  function RuleUnit(k: nat): Unit {
    if k == 0 then AMP else if k == 1 then LT else if k == 2 then GT else if k == 3 then QUOTE else APOS
  }

  function RuleText(k: nat): seq<Unit> {
    [AMP] + (if k == 0 then AMP_NAME else if k == 1 then LT_NAME else if k == 2 then GT_NAME
             else if k == 3 then QUOT_NAME else APOS_CODE)
  }

  /** A unit after the first k replacements. */
  function EscapedUnit(k: nat, c: Unit): seq<Unit> {
    if k > 0 && c == AMP then RuleText(0)
    else if k > 1 && c == LT then RuleText(1)
    else if k > 2 && c == GT then RuleText(2)
    else if k > 3 && c == QUOTE then RuleText(3)
    else if k > 4 && c == APOS then RuleText(4)
    else [c]
  }

  function Escaped(k: nat): Unit -> seq<Unit> {
    (c: Unit) => EscapedUnit(k, c)
  }

  lemma RuleTextKept(j: nat, k: nat)
    requires j < k < 5
    ensures Replace(RuleText(j), OneUnit(RuleUnit(k), RuleText(k))) == RuleText(j)
  {
    ReplaceAbsent(RuleText(j), RuleUnit(k), RuleText(k));
  }

  lemma EscapedOnce(k: nat, c: Unit)
    requires k < 5
    ensures Replace(EscapedUnit(k, c), OneUnit(RuleUnit(k), RuleText(k))) == EscapedUnit(k + 1, c)
  {
    if EscapedUnit(k, c) == [c] {
      assert [c][1..] == [];
    } else {
      var j := if c == AMP then 0 else if c == LT then 1 else if c == GT then 2 else 3;
      assert j < k && EscapedUnit(k, c) == RuleText(j);
      RuleTextKept(j, k);
    }
  }

  lemma EscapedStage(v: seq<Unit>, k: nat)
    requires k < 5
    ensures Replace(Replace(v, Escaped(k)), OneUnit(RuleUnit(k), RuleText(k))) == Replace(v, Escaped(k + 1))
  {
    forall c ensures Replace(EscapedUnit(k, c), OneUnit(RuleUnit(k), RuleText(k))) == EscapedUnit(k + 1, c) {
      EscapedOnce(k, c);
    }
    ReplaceTwice(v, Escaped(k), OneUnit(RuleUnit(k), RuleText(k)), Escaped(k + 1));
  }

  lemma {:induction false} EscapedNothing(v: seq<Unit>)
    ensures Replace(v, Escaped(0)) == v
  {
    if v != [] {
      EscapedNothing(v[1..]);
    }
  }

  /** The order of the five replacements (& first) makes them one replacement, unit by unit. */
  lemma EscIsUnitwise(v: seq<Unit>)
    ensures Esc(v) == Replace(v, Escaped(5))
  {
    EscapedNothing(v);
    EscapedStage(v, 0);
    EscapedStage(v, 1);
    EscapedStage(v, 2);
    EscapedStage(v, 3);
    EscapedStage(v, 4);
  }

  ghost predicate Follows(s: seq<Unit>, i: nat, name: seq<Unit>) {
    i + 1 + |name| <= |s| && s[i + 1..i + 1 + |name|] == name
  }

  /** No quote of either kind and no angle bracket; every & begins one of the five references. */
  ghost predicate SafeText(s: seq<Unit>) {
    forall i: nat :: i < |s| ==>
      && s[i] != QUOTE && s[i] != APOS && s[i] != LT && s[i] != GT
      && (s[i] == AMP ==>
            || Follows(s, i, AMP_NAME) || Follows(s, i, LT_NAME) || Follows(s, i, GT_NAME)
            || Follows(s, i, QUOT_NAME) || Follows(s, i, APOS_CODE))
  }

  lemma FollowsIn(a: seq<Unit>, b: seq<Unit>, i: nat, name: seq<Unit>)
    ensures Follows(b, i, name) ==> Follows(a + b, |a| + i, name)
    ensures Follows(a, i, name) ==> Follows(a + b, i, name)
  {
    if Follows(b, i, name) {
      assert (a + b)[|a| + i + 1..|a| + i + 1 + |name|] == b[i + 1..i + 1 + |name|];
    }
    if Follows(a, i, name) {
      assert (a + b)[i + 1..i + 1 + |name|] == a[i + 1..i + 1 + |name|];
    }
  }

  lemma SafeConcat(a: seq<Unit>, b: seq<Unit>)
    requires SafeText(a) && SafeText(b)
    ensures SafeText(a + b)
  {
    hide Follows;
    forall i: nat, name | name in {AMP_NAME, LT_NAME, GT_NAME, QUOT_NAME, APOS_CODE}
      ensures Follows(a, i, name) ==> Follows(a + b, i, name)
      ensures i >= |a| && Follows(b, i - |a|, name) ==> Follows(a + b, i, name)
    {
      FollowsIn(a, b, i, name);
      if i >= |a| {
        FollowsIn(a, b, i - |a|, name);
      }
    }
    forall i: nat | i < |a + b|
      ensures (a + b)[i] == if i < |a| then a[i] else b[i - |a|]
    {
    }
  }

  lemma UnitSafe(c: Unit)
    ensures SafeText(EscapedUnit(5, c))
  {
    var r := EscapedUnit(5, c);
    if c == AMP {
      assert r[1..5] == AMP_NAME && Follows(r, 0, AMP_NAME);
    } else if c == LT {
      assert r[1..4] == LT_NAME && Follows(r, 0, LT_NAME);
    } else if c == GT {
      assert r[1..4] == GT_NAME && Follows(r, 0, GT_NAME);
    } else if c == QUOTE {
      assert r[1..6] == QUOT_NAME && Follows(r, 0, QUOT_NAME);
    } else if c == APOS {
      assert r[1..5] == APOS_CODE && Follows(r, 0, APOS_CODE);
    }
  }

  lemma {:induction false} EscapedSafe(v: seq<Unit>)
    ensures SafeText(Replace(v, Escaped(5)))
  {
    hide SafeText;
    if v == [] {
      EmptySafe();
    } else {
      EscapedSafe(v[1..]);
      UnitSafe(v[0]);
      SafeConcat(EscapedUnit(5, v[0]), Replace(v[1..], Escaped(5)));
    }
  }

  lemma EmptySafe()
    ensures SafeText([])
  {
  }

  /** What esc gives can neither close an attribute of either quote nor open a tag, nor begin a reference of its own. */
  lemma EscIsSafe(v: seq<Unit>)
    ensures SafeText(Esc(v))
  {
    EscIsUnitwise(v);
    EscapedSafe(v);
    hide SafeText, Esc;
  }

  ghost predicate KnowsEsc(h: Html) {
    && Knows(h, AMP_NAME, AMP) && Knows(h, LT_NAME, LT) && Knows(h, GT_NAME, GT) && Knows(h, QUOT_NAME, QUOTE)
    && h.numeric(39) == [APOS]
  }

  lemma ApostropheDecodes(h: Html, rest: seq<Unit>)
    requires h.numeric(39) == [APOS]
    ensures Decode(h, [AMP] + APOS_CODE + rest) == [APOS] + Decode(h, rest)
  {
    var s := [AMP] + APOS_CODE + rest;
    var t := [0x33, 0x39, SEMI] + rest;
    assert s[2..] == t;
    assert t[0..] == t && t[1..] == [0x39, SEMI] + rest && t[1..][1..] == [SEMI] + rest;
    assert DigitRun([SEMI] + rest, 10) == 0 && DigitRun([0x39, SEMI] + rest, 10) == 1;
    var d: seq<Unit> := [0x33, 0x39];
    assert t[0..2] == d && d[..1] == [0x33] && d[..1][..0] == [];
    assert Value(d[..1], 10) == 3;
    assert s[5..] == rest;
  }

  lemma EscapedUnitDecodes(h: Html, c: Unit, rest: seq<Unit>)
    requires KnowsEsc(h)
    ensures Decode(h, EscapedUnit(5, c) + rest) == RawUnit(c) + Decode(h, rest)
  {
    if c == AMP {
      KnownReferenceDecodes(h, AMP_NAME, AMP, rest);
    } else if c == LT {
      KnownReferenceDecodes(h, LT_NAME, LT, rest);
    } else if c == GT {
      KnownReferenceDecodes(h, GT_NAME, GT, rest);
    } else if c == QUOTE {
      KnownReferenceDecodes(h, QUOT_NAME, QUOTE, rest);
    } else if c == APOS {
      ApostropheDecodes(h, rest);
    } else {
      assert ([c] + rest)[1..] == rest;
    }
  }

  lemma {:induction false} EscapedDecodes(h: Html, v: seq<Unit>, rest: seq<Unit>)
    requires KnowsEsc(h)
    ensures Decode(h, Replace(v, Escaped(5)) + rest) == Replace(v, RawUnit) + Decode(h, rest)
  {
    hide Decode, EscapedUnit, RawUnit;
    if v == [] {
      assert Replace(v, Escaped(5)) + rest == rest;
    } else {
      EscapedDecodes(h, v[1..], rest);
      var head, tail := EscapedUnit(5, v[0]), Replace(v[1..], Escaped(5));
      EscapedUnitDecodes(h, v[0], tail + rest);
      assert Replace(v, Escaped(5)) == head + tail;
      assert head + tail + rest == head + (tail + rest);
      assert RawUnit(v[0]) + (Replace(v[1..], RawUnit) + Decode(h, rest)) == Replace(v, RawUnit) + Decode(h, rest);
    }
  }

  lemma {:induction false} LineEndsPrefix(afterCr: bool, s: seq<Unit>, rest: seq<Unit>)
    requires s != [] && Without(s, CR) && (afterCr ==> s[0] != LF)
    ensures LineEnds(afterCr, s + rest) == s + LineEnds(false, rest)
  {
    assert (s + rest)[1..] == s[1..] + rest;
    if |s| == 1 {
      assert s[1..] + rest == rest && s == [s[0]];
    } else {
      LineEndsPrefix(false, s[1..], rest);
      assert s == [s[0]] + s[1..];
    }
  }

  lemma EscapedUnitKeepsLineEnds(c: Unit)
    ensures c == CR || c == LF ==> EscapedUnit(5, c) == [c]
    ensures c != CR && c != LF ==>
              EscapedUnit(5, c) != [] && Without(EscapedUnit(5, c), CR) && EscapedUnit(5, c)[0] != LF
  {
  }

  lemma ReplaceCons(c: Unit, s: seq<Unit>, f: Unit -> seq<Unit>)
    ensures Replace([c] + s, f) == f(c) + Replace(s, f)
  {
    assert ([c] + s)[1..] == s;
  }

  lemma LineEndsCons(afterCr: bool, c: Unit, s: seq<Unit>)
    ensures LineEnds(afterCr, [c] + s) ==
            (if c == CR then [LF] else if afterCr && c == LF then [] else [c]) + LineEnds(c == CR, s)
  {
    assert ([c] + s)[1..] == s;
  }

  /** esc leaves line ends to the parser. */
  lemma {:induction false} LineEndsEscaped(afterCr: bool, v: seq<Unit>, rest: seq<Unit>)
    requires rest != [] ==> rest[0] != LF
    ensures LineEnds(afterCr, Replace(v, Escaped(5)) + rest)
         == Replace(LineEnds(afterCr, v), Escaped(5)) + LineEnds(false, rest)
    decreases |v|, 1
  {
    if v == [] {
      assert Replace(v, Escaped(5)) + rest == rest;
    } else {
      LineEndsEscapedUnit(afterCr, v[0], v[1..], rest);
      assert v == [v[0]] + v[1..];
    }
  }

  lemma {:induction false} LineEndsEscapedUnit(afterCr: bool, c: Unit, w: seq<Unit>, rest: seq<Unit>)
    requires rest != [] ==> rest[0] != LF
    ensures LineEnds(afterCr, Replace([c] + w, Escaped(5)) + rest)
         == Replace(LineEnds(afterCr, [c] + w), Escaped(5)) + LineEnds(false, rest)
    decreases |w| + 1, 0
  {
    hide EscapedUnit, LineEnds, Replace;
    var head, tail := Escaped(5)(c), Replace(w, Escaped(5));
    assert head == EscapedUnit(5, c);
    ReplaceCons(c, w, Escaped(5));
    LineEndsCons(afterCr, c, w);
    LineEndsEscaped(c == CR, w, rest);
    assert head + tail + rest == head + (tail + rest);
    if c == CR || c == LF {
      LineEndSeen(afterCr, c, tail + rest, LineEnds(c == CR, w), LineEnds(false, rest));
    } else {
      OtherUnitSeen(afterCr, c, tail + rest, LineEnds(c == CR, w), LineEnds(false, rest));
    }
  }

  lemma LineEndSeen(afterCr: bool, c: Unit, x: seq<Unit>, y: seq<Unit>, z: seq<Unit>)
    requires (c == CR || c == LF) && LineEnds(c == CR, x) == Replace(y, Escaped(5)) + z
    ensures LineEnds(afterCr, EscapedUnit(5, c) + x)
         == Replace((if c == CR then [LF] else if afterCr then [] else [LF]) + y, Escaped(5)) + z
  {
    hide EscapedUnit, LineEnds, Replace;
    EscapedUnitKeepsLineEnds(c);
    LineEndsCons(afterCr, c, x);
    ReplaceCons(LF, y, Escaped(5));
    EscapedUnitKeepsLineEnds(LF);
    assert Escaped(5)(LF) == EscapedUnit(5, LF) == [LF];
    assert [] + y == y && [] + LineEnds(c == CR, x) == LineEnds(c == CR, x);
    assert [LF] + (Replace(y, Escaped(5)) + z) == [LF] + Replace(y, Escaped(5)) + z;
  }

  lemma OtherUnitSeen(afterCr: bool, c: Unit, x: seq<Unit>, y: seq<Unit>, z: seq<Unit>)
    requires c != CR && c != LF && LineEnds(false, x) == Replace(y, Escaped(5)) + z
    ensures LineEnds(afterCr, EscapedUnit(5, c) + x) == Replace([c] + y, Escaped(5)) + z
  {
    hide EscapedUnit, LineEnds, Replace;
    EscapedUnitKeepsLineEnds(c);
    LineEndsPrefix(afterCr, EscapedUnit(5, c), x);
    ReplaceCons(c, y, Escaped(5));
    assert Escaped(5)(c) == EscapedUnit(5, c);
    assert EscapedUnit(5, c) + (Replace(y, Escaped(5)) + z) == EscapedUnit(5, c) + Replace(y, Escaped(5)) + z;
  }

  /** What becomes of a text in an attribute value besides its references: line ends are LF, and U+0000 is replaced. */
  function Seen(v: seq<Unit>): seq<Unit> {
    Replace(Normalized(v), RawUnit)
  }

  lemma {:induction false} RawText(s: seq<Unit>)
    ensures |Replace(s, RawUnit)| == |s| && Without(Replace(s, RawUnit), NUL)
    ensures Without(s, CR) ==> Without(Replace(s, RawUnit), CR)
    ensures Without(s, NUL) ==> Replace(s, RawUnit) == s
  {
    if s != [] {
      RawText(s[1..]);
      assert Without(s, NUL) ==> Without(s[1..], NUL);
      assert s == [s[0]] + s[1..];
    }
  }

  /** Exactly the texts without U+0000 and without CR are seen as they are. */
  lemma SeenAsIs(v: seq<Unit>)
    ensures |Seen(v)| <= |v| && (Seen(v) == v <==> Without(v, NUL) && Without(v, CR))
  {
    RawText(Normalized(v));
    if Without(v, CR) {
      NormalizedAlready(v);
    }
  }

  /**
   * The HTML parser gives back what esc was given, but for what it does to line ends and U+0000, which esc
   * leaves alone: the string comes back exactly if it has neither CR nor U+0000.
   */
  lemma EscRoundTrip(h: Html, v: seq<Unit>)
    requires KnowsEsc(h)
    ensures Attribute(h, Esc(v)) == Seen(v)
    ensures Attribute(h, Esc(v)) == v <==> Without(v, NUL) && Without(v, CR)
  {
    EscIsUnitwise(v);
    LineEndsEscaped(false, v, []);
    EscapedDecodes(h, Normalized(v), []);
    assert Replace(v, Escaped(5)) + [] == Replace(v, Escaped(5));
    assert Replace(Normalized(v), Escaped(5)) + [] == Replace(Normalized(v), Escaped(5));
    SeenAsIs(v);
  }

  /** A text that is the inside of a literal as it stands. */
  ghost predicate Verbatim(q: Unit, v: seq<Unit>) {
    Without(v, q) && Without(v, BACKSLASH) && Without(v, LF) && Without(v, CR)
  }

  lemma {:induction false} LiteralShrinks(q: Unit, s: seq<Unit>)
    requires q != BACKSLASH && LiteralRest(q, s).Some?
    ensures |LiteralRest(q, s).value| < |s|
    ensures !Without(s, BACKSLASH) ==> |LiteralRest(q, s).value| + 1 < |s|
  {
    if s[0] != q && s[0] != BACKSLASH {
      LiteralShrinks(q, s[1..]);
    } else if s[0] == BACKSLASH {
      var lineEnd := if s[1] == CR && |s| > 2 && s[2] == LF then 3 else 2;
      var n := if s[1] == 0x75 then 6 else if s[1] == 0x78 then 4 else lineEnd;
      LiteralShrinks(q, s[n..]);
    }
  }

  lemma {:induction false} RawLiteral(q: Unit, v: seq<Unit>)
    requires q != BACKSLASH && q != LF && q != CR && Without(v, BACKSLASH)
    ensures LiteralRest(q, v + [q]) == if Verbatim(q, v) then Some(v) else None
  {
    if v != [] {
      assert (v + [q])[1..] == v[1..] + [q];
      RawLiteral(q, v[1..]);
      assert Verbatim(q, v) <==> v[0] != q && v[0] != LF && v[0] != CR && Verbatim(q, v[1..]);
      assert [v[0]] + v[1..] == v;
    }
  }

  lemma DecodeCons(h: Html, c: Unit, s: seq<Unit>)
    requires c != AMP && c != NUL
    ensures Decode(h, [c] + s) == [c] + Decode(h, s)
  {
    assert ([c] + s)[1..] == s;
  }

  lemma QuotedAttribute(h: Html, q: Unit, v: seq<Unit>)
    requires KnowsEsc(h) && (q == APOS || q == QUOTE)
    ensures Attribute(h, [q] + Esc(v) + [q]) == [q] + (Seen(v) + [q])
  {
    hide LineEnds, Decode, Replace, Esc;
    EscIsUnitwise(v);
    var body := Replace(Normalized(v), Escaped(5));
    assert [q] + Esc(v) + [q] == [q] + (Esc(v) + [q]) && [q] + [] == [q];
    LineEndsCons(false, q, Esc(v) + [q]);
    LineEndsCons(false, q, []);
    LineEndsEscaped(false, v, [q]);
    DecodeCons(h, q, body + [q]);
    DecodeCons(h, q, []);
    EscapedDecodes(h, Normalized(v), [q]);
    EmptyText(h);
  }

  lemma EmptyText(h: Html)
    ensures LineEnds(false, []) == [] && Decode(h, []) == []
  {
  }

  /**
   * Between quotes in an inline handler esc protects nothing: the script engine reads the
   * string back exactly when the string has no delimiter, backslash, line end or U+0000 in it.
   */
  lemma EscInHandlerIffPlain(h: Html, q: Unit, v: seq<Unit>)
    requires KnowsEsc(h) && (q == APOS || q == QUOTE)
    ensures Literal(q, Attribute(h, [q] + Esc(v) + [q])) == Some(v) <==> Verbatim(q, v) && Without(v, NUL)
  {
    var w := Seen(v);
    QuotedAttribute(h, q, v);
    SeenAsIs(v);
    assert ([q] + (w + [q]))[1..] == w + [q];
    hide Seen, Attribute, Esc;
    if Without(w, BACKSLASH) {
      RawLiteral(q, w);
    } else {
      var i :| 0 <= i < |w| && w[i] == BACKSLASH;
      assert (w + [q])[i] == BACKSLASH;
      if LiteralRest(q, w + [q]).Some? {
        LiteralShrinks(q, w + [q]);
      }
    }
  }
}
