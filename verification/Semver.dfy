/** The comparison of version numbers that decides whether an update is newer. */
module Semver {
  const TWO_63 := 0x8000_0000_0000_0000

  /** A 64-bit signed integer, as arithmetic leaves it. */
  function Wrap(x: int): (r: int)
    ensures -TWO_63 <= r < TWO_63 && (-TWO_63 <= x < TWO_63 ==> r == x)
  {
    (x + TWO_63) % (2 * TWO_63) - TWO_63
  }

  predicate Digit(c: char) {
    '0' <= c <= '9'
  }

  /** How many digits the text starts with. */
  function DigitCount(s: string): (n: nat)
    ensures n <= |s| && (forall i :: 0 <= i < n ==> Digit(s[i])) && (n < |s| ==> !Digit(s[n]))
  {
    if s != "" && Digit(s[0]) then 1 + DigitCount(s[1..]) else 0
  }

  /** The number the first n characters make. */
  function Prefix(s: string, n: nat): int
    requires n <= |s| && forall i :: 0 <= i < n ==> Digit(s[i])
  {
    if n == 0 then 0 else Wrap(Prefix(s, n - 1) * 10 + (s[n - 1] as int - '0' as int))
  }

  /** The number the leading digits make, 0 if there is none. */
  function Leading(s: string): int {
    Prefix(s, DigitCount(s))
  }

  method AtoiSafe(s: string) returns (n: int)
    ensures n == Leading(s)
  {
    n := 0;
    var i := 0;
    while i < |s| && Digit(s[i])
      invariant 0 <= i <= |s| && (forall k :: 0 <= k < i ==> Digit(s[k])) && n == Prefix(s, i)
    {
      n := Wrap(n * 10 + (s[i] as int - '0' as int));
      i := i + 1;
    }
    CountIs(s, i);
  }

  lemma {:induction false} CountIs(s: string, n: nat)
    requires n <= |s| && (forall k :: 0 <= k < n ==> Digit(s[k])) && (n < |s| ==> !Digit(s[n]))
    ensures DigitCount(s) == n
  {
    if n > 0 {
      CountIs(s[1..], n - 1);
    }
  }

  /** The text between the dots. */
  function Parts(s: string): (r: seq<string>)
    ensures |r| >= 1
  {
    if s == "" then [""]
    else if s[0] == '.' then [""] + Parts(s[1..])
    else
      var r := Parts(s[1..]);
      [[s[0]] + r[0]] + r[1..]
  }

  /** Major, minor or patch number. */
  function Number(s: string, i: nat): int {
    if i < |Parts(s)| then Leading(Parts(s)[i]) else 0
  }

  predicate Greater(a: string, b: string) {
    || Number(a, 0) > Number(b, 0)
    || (Number(a, 0) == Number(b, 0)
        && (Number(a, 1) > Number(b, 1) || (Number(a, 1) == Number(b, 1) && Number(a, 2) > Number(b, 2))))
  }

  method ParseVer(s: string) returns (out: seq<int>)
    ensures out == [Number(s, 0), Number(s, 1), Number(s, 2)]
  {
    var parts := Parts(s);
    out := [0, 0, 0];
    var i := 0;
    while i < 3 && i < |parts|
      invariant 0 <= i <= 3 && i <= |parts| && |out| == 3
      invariant forall k :: 0 <= k < 3 ==> out[k] == if k < i then Number(s, k) else 0
    {
      var n := AtoiSafe(parts[i]);
      out := out[i := n];
      i := i + 1;
    }
  }

  method SemverGT(a: string, b: string) returns (r: bool)
    ensures r <==> Greater(a, b)
  {
    var pa := ParseVer(a);
    var pb := ParseVer(b);
    for i := 0 to 3
      invariant i > 0 ==> pa[0] == pb[0]
      invariant i > 1 ==> pa[1] == pb[1]
      invariant i > 2 ==> pa[2] == pb[2]
    {
      if pa[i] > pb[i] {
        return true;
      }
      if pa[i] < pb[i] {
        return false;
      }
    }
    return false;
  }

  // ----- Printed versions are read back

  function Decimal(n: nat): (s: string)
    ensures s != "" && forall i :: 0 <= i < |s| ==> Digit(s[i])
  {
    (if n < 10 then "" else Decimal(n / 10)) + ['0' + (n % 10) as char]
  }

  function Show(major: nat, minor: nat, patch: nat): string {
    Decimal(major) + "." + (Decimal(minor) + "." + Decimal(patch))
  }

  /** Two versions within 64 bits compare by major, then minor, then patch number. */
  lemma PrintedVersionsCompare(a: nat, b: nat, c: nat, x: nat, y: nat, z: nat)
    requires a < TWO_63 && b < TWO_63 && c < TWO_63 && x < TWO_63 && y < TWO_63 && z < TWO_63
    ensures Greater(Show(a, b, c), Show(x, y, z)) <==> a > x || (a == x && (b > y || (b == y && c > z)))
  {
    ShownNumbers(a, b, c);
    ShownNumbers(x, y, z);
  }

  lemma ShownNumbers(a: nat, b: nat, c: nat)
    requires a < TWO_63 && b < TWO_63 && c < TWO_63
    ensures Number(Show(a, b, c), 0) == a && Number(Show(a, b, c), 1) == b && Number(Show(a, b, c), 2) == c
  {
    hide Decimal, Leading;
    var last := Decimal(c);
    var tail := Decimal(b) + "." + last;
    NoDots(last);
    FirstPart(Decimal(b), last);
    FirstPart(Decimal(a), tail);
    LeadingOfDecimal(a);
    LeadingOfDecimal(b);
    LeadingOfDecimal(c);
  }

  lemma OneOrTwoParts(a: nat, b: nat)
    ensures Parts(Decimal(a)) == [Decimal(a)] && Parts(Decimal(a) + "." + Decimal(b)) == [Decimal(a), Decimal(b)]
  {
    hide Decimal;
    NoDots(Decimal(b));
    NoDots(Decimal(a));
    FirstPart(Decimal(a), Decimal(b));
  }

  /** A version of two numbers, or of one, is one of three with zeros. */
  lemma MissingNumberIsZero(a: nat, b: nat, i: nat)
    requires a < TWO_63 && b < TWO_63 && i < 3
    ensures Number(Decimal(a) + "." + Decimal(b), i) == Number(Show(a, b, 0), i)
  {
    ShownNumbers(a, b, 0);
    OneOrTwoParts(a, b);
    LeadingOfDecimal(a);
    LeadingOfDecimal(b);
    hide Decimal, Leading, Parts, Show;
  }

  lemma MissingNumbersAreZero(a: nat, i: nat)
    requires a < TWO_63 && i < 3
    ensures Number(Decimal(a), i) == Number(Show(a, 0, 0), i)
  {
    ShownNumbers(a, 0, 0);
    OneOrTwoParts(a, 0);
    LeadingOfDecimal(a);
    hide Decimal, Leading, Parts, Show;
  }

  /** What follows the digits of a number does not count. */
  lemma SuffixIsIgnored(n: nat, suffix: string)
    requires n < TWO_63 && (suffix == "" || !Digit(suffix[0]))
    ensures Leading(Decimal(n) + suffix) == n
  {
    var s := Decimal(n) + suffix;
    CountIs(s, |Decimal(n)|);
    PrefixOfDecimal(n);
    PrefixExtends(Decimal(n), s, |Decimal(n)|);
  }

  lemma {:induction false} NoDots(s: string)
    requires forall i :: 0 <= i < |s| ==> Digit(s[i])
    ensures Parts(s) == [s]
  {
    if s != "" {
      NoDots(s[1..]);
      assert [s[0]] + s[1..] == s;
    }
  }

  lemma {:induction false} FirstPart(s: string, t: string)
    requires forall i :: 0 <= i < |s| ==> Digit(s[i])
    ensures Parts(s + "." + t) == [s] + Parts(t)
  {
    if s == "" {
      assert (s + "." + t)[1..] == t;
    } else {
      FirstPart(s[1..], t);
      assert (s + "." + t)[1..] == s[1..] + "." + t;
      assert [s[0]] + s[1..] == s;
    }
  }

  lemma {:induction false} LeadingOfDecimal(n: nat)
    requires n < TWO_63
    ensures Leading(Decimal(n)) == n
  {
    CountIs(Decimal(n), |Decimal(n)|);
    PrefixOfDecimal(n);
  }

  lemma {:induction false} PrefixOfDecimal(n: nat)
    requires n < TWO_63
    ensures Prefix(Decimal(n), |Decimal(n)|) == n
  {
    var s := Decimal(n);
    if n >= 10 {
      var h := Decimal(n / 10);
      PrefixOfDecimal(n / 10);
      PrefixExtends(h, s, |h|);
    }
  }

  lemma {:induction false} PrefixExtends(h: string, s: string, n: nat)
    requires h <= s && n <= |h| && forall i :: 0 <= i < |h| ==> Digit(h[i])
    ensures Prefix(s, n) == Prefix(h, n)
  {
    if n > 0 {
      PrefixExtends(h, s, n - 1);
    }
  }
}
