/** Small shared vocabulary: optional values and the two string helpers the agent uses. */
module Prelude {
  datatype Option<+T> = None | Some(value: T)

  /** White space as trimmed by the agent (ASCII part). */
  predicate IsBlank(c: char) {
    c == ' ' || c == '\t' || c == '\n' || c == '\r'
  }

  function TrimLeft(s: string): (r: string)
    ensures r != [] ==> !IsBlank(r[0])
  {
    if s != [] && IsBlank(s[0]) then TrimLeft(s[1..]) else s
  }

  function TrimRight(s: string): (r: string)
    ensures r <= s
    ensures r != [] ==> !IsBlank(r[|r| - 1])
  {
    if s != [] && IsBlank(s[|s| - 1]) then TrimRight(s[..|s| - 1]) else s
  }

  function Trim(s: string): string {
    TrimRight(TrimLeft(s))
  }

  predicate AllBlank(s: string) {
    forall i :: 0 <= i < |s| ==> IsBlank(s[i])
  }

  lemma {:induction false} TrimLeftIs(a: string, rest: string)
    requires AllBlank(a) && (rest != "" ==> !IsBlank(rest[0]))
    ensures TrimLeft(a + rest) == rest
  {
    if a == "" {
      assert a + rest == rest;
    } else {
      TrimLeftIs(a[1..], rest);
      assert (a + rest)[1..] == a[1..] + rest;
    }
  }

  lemma {:induction false} TrimRightIs(rest: string, c: string)
    requires AllBlank(c) && (rest != "" ==> !IsBlank(rest[|rest| - 1]))
    ensures TrimRight(rest + c) == rest
  {
    if c == "" {
      assert rest + c == rest;
    } else {
      TrimRightIs(rest, c[..|c| - 1]);
      assert (rest + c)[..|rest + c| - 1] == rest + c[..|c| - 1];
    }
  }

  /** Trimming takes the white space at both ends away, and nothing else. */
  lemma TrimIs(a: string, core: string, c: string)
    requires AllBlank(a) && AllBlank(c) && (core != "" ==> !IsBlank(core[0]) && !IsBlank(core[|core| - 1]))
    ensures Trim(a + core + c) == core
  {
    if core == "" {
      TrimLeftIs(a + c, "");
      assert a + core + c == a + c + "";
    } else {
      TrimLeftIs(a, core + c);
      assert a + core + c == a + (core + c);
      TrimRightIs(core, c);
    }
  }

  function LowerChar(c: char): (r: char)
    ensures 'A' <= c <= 'Z' ==> r as int == c as int + 32
    ensures !('A' <= c <= 'Z') ==> r == c
  {
    if 'A' <= c <= 'Z' then c - 'A' + 'a' else c
  }

  function Lower(s: string): (r: string)
    ensures |r| == |s|
    ensures forall i :: 0 <= i < |s| ==> r[i] == LowerChar(s[i])
  {
    seq(|s|, i requires 0 <= i < |s| => LowerChar(s[i]))
  }
}
