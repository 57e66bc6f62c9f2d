/** Which files of the directory are migrations, and in which order their names put them. */
module MigrationNames {
  import opened Migrations

  predicate Digit(c: char) {
    '0' <= c <= '9'
  }

  predicate Digits(s: string) {
    forall i :: 0 <= i < |s| ==> Digit(s[i])
  }

  function LeadingDigits(s: string): (n: nat)
    ensures n <= |s| && Digits(s[..n]) && (n < |s| ==> !Digit(s[n]))
  {
    if s != "" && Digit(s[0]) then
      var n := LeadingDigits(s[1..]);
      assert s[..1 + n] == [s[0]] + s[1..][..n];
      1 + n
    else 0
  }

  predicate OneLine(s: string) {
    forall i :: 0 <= i < |s| ==> s[i] !in {'\n', '\r', '\U{2028}', '\U{2029}'}
  }

  /** Digits, an underscore, anything on one line, and .sql at the end. */
  predicate MigrationName(name: string) {
    var n := LeadingDigits(name);
    && n > 0 && n + 5 <= |name| && name[n] == '_' && name[|name| - 4..] == ".sql"
    && OneLine(name[n + 1..])
  }

  lemma {:induction false} LeadingDigitsAre(d: string, rest: string)
    requires Digits(d) && (rest == "" || !Digit(rest[0]))
    ensures LeadingDigits(d + rest) == |d|
  {
    if d == "" {
      assert d + rest == rest;
    } else {
      LeadingDigitsAre(d[1..], rest);
      assert (d + rest)[1..] == d[1..] + rest;
    }
  }

  ghost predicate Named(name: string, d: string, rest: string) {
    name == d + "_" + rest + ".sql" && d != "" && Digits(d) && OneLine(rest)
  }

  /** The name of a migration is a number, an underscore, any text on one line, and .sql. */
  lemma MigrationNameIff(name: string)
    ensures MigrationName(name) <==> exists d, rest :: Named(name, d, rest)
  {
    var n := LeadingDigits(name);
    if MigrationName(name) {
      var rest := name[n + 1..|name| - 4];
      assert name[|name| - 4..] == ".sql";
      assert name == name[..n] + "_" + rest + ".sql";
      assert forall i :: 0 <= i < |rest| ==> rest[i] == name[n + 1..][i];
      assert Named(name, name[..n], rest);
    }
    if d, rest :| Named(name, d, rest) {
      var tail := "_" + rest + ".sql";
      assert name == d + tail;
      LeadingDigitsAre(d, tail);
      assert name[n + 1..] == rest + ".sql";
    }
  }

  // ----- By number

  function NumberOf(d: string): nat
    requires Digits(d)
  {
    if d == "" then 0 else 10 * NumberOf(d[..|d| - 1]) + (d[|d| - 1] as int - '0' as int)
  }

  lemma {:induction false} NumberIsInjective(c: string, d: string)
    requires |c| == |d| && Digits(c) && Digits(d) && NumberOf(c) == NumberOf(d)
    ensures c == d
  {
    if c != "" {
      var n := |c| - 1;
      NumberIsInjective(c[..n], d[..n]);
      assert c == c[..n] + [c[n]] && d == d[..n] + [d[n]];
    }
  }

  lemma {:induction false} SmallerFirst(c: string, d: string) returns (k: nat)
    requires |c| == |d| && Digits(c) && Digits(d) && NumberOf(c) < NumberOf(d)
    ensures k < |c| && c[..k] == d[..k] && c[k] < d[k]
  {
    var n := |c| - 1;
    if NumberOf(c[..n]) < NumberOf(d[..n]) {
      k := SmallerFirst(c[..n], d[..n]);
      assert c[..k] == c[..n][..k] && d[..k] == d[..n][..k];
    } else {
      NumberIsInjective(c[..n], d[..n]);
      k := n;
    }
  }

  /** The number a migration begins with. */
  function Rank(name: string): nat {
    NumberOf(name[..LeadingDigits(name)])
  }

  /** Of two names whose numbers have the same count of digits, the one with the smaller number comes first. */
  lemma SmallerNumberFirst(a: string, b: string)
    requires LeadingDigits(a) == LeadingDigits(b) && Rank(a) < Rank(b)
    ensures Less(a, b) && !Less(b, a)
  {
    var n := LeadingDigits(a);
    var k := SmallerFirst(a[..n], b[..n]);
    assert a[..k] == a[..n][..k] && b[..k] == b[..n][..k];
    assert Precedes(a, b, k);
    LessIsByFirstDifference(a, b);
    if Less(b, a) {
      LessTransitive(a, b, a);
      LessIrreflexive(a);
    }
  }

  /** Migrations numbered with the same count of digits are applied in the order of their numbers. */
  lemma SortedByNumber(files: seq<File>, i: nat, j: nat)
    requires Sorted(files) && i < j < |files|
    requires LeadingDigits(files[i].name) == LeadingDigits(files[j].name)
    ensures Rank(files[i].name) <= Rank(files[j].name)
  {
    if Rank(files[j].name) < Rank(files[i].name) {
      SmallerNumberFirst(files[j].name, files[i].name);
    }
  }
}
