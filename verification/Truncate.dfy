/** Results shortened to their beginning and end, cut between UTF-8 characters. */
module Truncate {
  import opened Prelude

  type Byte = n: nat | n < 256

  /** utf8.RuneStart: not a continuation byte. */
  predicate RuneStart(b: Byte) {
    !(0x80 <= b < 0xC0)
  }

  predicate Tail(b: Byte) {
    0x80 <= b < 0xC0
  }

  /** The length of the character s starts with, 0 if it starts with none: section 4 of RFC 3629. */
  function CharLength(s: seq<Byte>): (n: nat)
    ensures n <= |s| && n <= 4
    ensures n > 0 ==> RuneStart(s[0]) && forall i :: 0 < i < n ==> !RuneStart(s[i])
  {
    if |s| >= 1 && s[0] < 0x80 then 1
    else if |s| >= 2 && 0xC2 <= s[0] <= 0xDF && Tail(s[1]) then 2
    else if |s| >= 3 && Tail(s[2])
            && (|| (s[0] == 0xE0 && 0xA0 <= s[1] < 0xC0) || (s[0] == 0xED && 0x80 <= s[1] < 0xA0)
                || (0xE1 <= s[0] <= 0xEF && s[0] != 0xED && Tail(s[1]))) then 3
    else if |s| >= 4 && Tail(s[2]) && Tail(s[3])
            && (|| (s[0] == 0xF0 && 0x90 <= s[1] < 0xC0) || (0xF1 <= s[0] <= 0xF3 && Tail(s[1]))
                || (s[0] == 0xF4 && 0x80 <= s[1] < 0x90)) then 4
    else 0
  }

  predicate ValidUtf8(s: seq<Byte>) {
    s == [] || (CharLength(s) > 0 && ValidUtf8(s[CharLength(s)..]))
  }

  const ELLIPSIS: seq<Byte> := [0xE2, 0x80, 0xA6]
  const E_ACUTE: seq<Byte> := [0xC3, 0xA9]
  const OPENING: seq<Byte> := [0x0A, 0x5B]
  const WORDS: seq<Byte> := [0x20, 0x73, 0x6F, 0x72, 0x74, 0x69, 0x65, 0x20, 0x74, 0x72, 0x6F, 0x6E, 0x71, 0x75]
  const WORD_END: seq<Byte> := [0x65, 0x20]
  const CLOSING: seq<Byte> := [0x5D, 0x0A]
  /** "\n[… sortie tronquée …]\n" */
  const MARKER_PARTS: seq<seq<Byte>> := [OPENING, ELLIPSIS, WORDS, E_ACUTE, WORD_END, ELLIPSIS, CLOSING]
  const MARKER: seq<Byte> := Flatten(MARKER_PARTS)

  /** Several texts in a row. */
  function Flatten(parts: seq<seq<Byte>>): seq<Byte> {
    if parts == [] then [] else Flatten(parts[..|parts| - 1]) + parts[|parts| - 1]
  }

  lemma FlattenOneMore(parts: seq<seq<Byte>>, k: nat)
    requires k < |parts|
    ensures |Flatten(parts[..k + 1])| == |Flatten(parts[..k])| + |parts[k]|
  {
    assert parts[..k + 1][..k] == parts[..k];
  }

  lemma MarkerLength()
    ensures |MARKER| == 28
  {
    var p := MARKER_PARTS;
    hide Flatten;
    FlattenOneMore(p, 0);
    FlattenOneMore(p, 1);
    FlattenOneMore(p, 2);
    FlattenOneMore(p, 3);
    FlattenOneMore(p, 4);
    FlattenOneMore(p, 5);
    FlattenOneMore(p, 6);
    assert p[..7] == p && p[..0] == [];
    NoParts();
  }

  lemma NoParts()
    ensures Flatten([]) == []
  {
  }

  function HeadCut(s: seq<Byte>, i: nat): (j: nat)
    requires i < |s|
    ensures j <= i && (j == 0 || RuneStart(s[j])) && forall k :: j < k <= i ==> !RuneStart(s[k])
  {
    if i > 0 && !RuneStart(s[i]) then HeadCut(s, i - 1) else i
  }

  function TailCut(s: seq<Byte>, i: nat): (j: nat)
    requires i <= |s|
    ensures i <= j <= |s| && (j == |s| || RuneStart(s[j])) && forall k :: i <= k < j ==> !RuneStart(s[k])
    decreases |s| - i
  {
    if i < |s| && !RuneStart(s[i]) then TailCut(s, i + 1) else i
  }

  /** Half the room beside the marker, rounded towards zero as the division of integers does. */
  function Half(limit: int): int {
    var room := limit - |MARKER|;
    if room >= 0 then room / 2 else -(-room / 2)
  }

  /** The room is not so short that a cut would be outside the text. */
  predicate Roomy(limit: int) {
    Half(limit) >= 0
  }

  function Truncated(s: seq<Byte>, limit: int): seq<Byte>
    requires |s| <= limit || Roomy(limit)
  {
    if |s| <= limit then s
    else s[..HeadCut(s, Within(s, limit))] + MARKER + s[TailCut(s, |s| - Within(s, limit))..]
  }

  /** Half the room falls inside a text that is too long. */
  function Within(s: seq<Byte>, limit: int): (h: nat)
    requires |s| > limit && Roomy(limit)
    ensures h == Half(limit) && h < |s|
  {
    MarkerLength();
    Half(limit)
  }

  lemma RoomyIff(limit: int)
    ensures Roomy(limit) <==> limit >= |MARKER| - 1
  {
  }

  /** None: the slices are out of bounds, and the agent would panic. */
  method TruncateMiddle(s: seq<Byte>, limit: int) returns (r: Option<seq<Byte>>)
    ensures r.Some? <==> |s| <= limit || limit >= |MARKER| - 1
    ensures r.Some? ==> (|s| <= limit || Roomy(limit)) && r.value == Truncated(s, limit)
  {
    MarkerLength();
    RoomyIff(limit);
    hide MARKER, RuneStart, HeadCut, TailCut, Flatten;
    if |s| <= limit {
      return Some(s);
    }
    var room := limit - |MARKER|;
    var half := if room >= 0 then room / 2 else -(-room / 2);
    if half < 0 {
      return None;
    }
    var head := HeadBefore(s, half);
    var tail := TailAfter(s, |s| - half);
    return Some(s[..head] + MARKER + s[tail..]);
  }

  method HeadBefore(s: seq<Byte>, half: nat) returns (head: nat)
    requires half < |s|
    ensures head == HeadCut(s, half)
  {
    head := half;
    while head > 0 && !RuneStart(s[head])
      invariant 0 <= head <= half && HeadCut(s, head) == HeadCut(s, half)
    {
      head := head - 1;
    }
  }

  method TailAfter(s: seq<Byte>, start: nat) returns (tail: nat)
    requires start <= |s|
    ensures tail == TailCut(s, start)
  {
    tail := start;
    while tail < |s| && !RuneStart(s[tail])
      invariant start <= tail <= |s| && TailCut(s, tail) == TailCut(s, start)
    {
      tail := tail + 1;
    }
  }

  // ----- Properties

  lemma CharLengthLocal(s: seq<Byte>, t: seq<Byte>)
    requires 0 < CharLength(s) <= |t| && forall i :: 0 <= i < CharLength(s) ==> t[i] == s[i]
    ensures CharLength(t) == CharLength(s)
  {
  }

  /** A valid text cut where a character starts is two valid texts. */
  lemma {:induction false} CutBetweenCharacters(s: seq<Byte>, k: nat)
    requires ValidUtf8(s) && k <= |s| && (k < |s| ==> RuneStart(s[k]))
    ensures ValidUtf8(s[..k]) && ValidUtf8(s[k..])
    decreases |s|
  {
    if k == 0 {
      assert s[k..] == s;
    } else {
      var n := CharLength(s);
      assert n <= k;
      CutBetweenCharacters(s[n..], k - n);
      CharLengthLocal(s, s[..k]);
      assert s[..k][n..] == s[n..][..k - n] && s[k..] == s[n..][k - n..];
    }
  }

  lemma {:induction false} ConcatValid(a: seq<Byte>, b: seq<Byte>)
    requires ValidUtf8(a) && ValidUtf8(b)
    ensures ValidUtf8(a + b)
    decreases |a|
  {
    hide CharLength, RuneStart;
    if a == [] {
      assert a + b == b;
    } else {
      var n := CharLength(a);
      ConcatValid(a[n..], b);
      assert CharLength(a + b) == n by {
        CharLengthLocal(a, a + b);
      }
      assert (a + b)[n..] == a[n..] + b;
    }
  }

  lemma {:induction false} AsciiValid(s: seq<Byte>)
    requires forall i :: 0 <= i < |s| ==> s[i] < 0x80
    ensures ValidUtf8(s)
  {
    if s != [] {
      AsciiValid(s[1..]);
    }
  }

  lemma OneCharacterValid(s: seq<Byte>)
    requires 0 < CharLength(s) == |s|
    ensures ValidUtf8(s)
  {
    assert s[|s|..] == [];
  }

  lemma PiecesValid()
    ensures ValidUtf8(OPENING) && ValidUtf8(WORDS) && ValidUtf8(WORD_END) && ValidUtf8(CLOSING)
    ensures ValidUtf8(ELLIPSIS) && ValidUtf8(E_ACUTE)
  {
    hide ValidUtf8;
    OneCharacterValid(ELLIPSIS);
    OneCharacterValid(E_ACUTE);
    AsciiValid(OPENING);
    AsciiValid(WORDS);
    AsciiValid(WORD_END);
    AsciiValid(CLOSING);
  }

  lemma {:induction false} FlattenValid(parts: seq<seq<Byte>>)
    requires forall i :: 0 <= i < |parts| ==> ValidUtf8(parts[i])
    ensures ValidUtf8(Flatten(parts))
  {
    if parts != [] {
      FlattenValid(parts[..|parts| - 1]);
      ConcatValid(Flatten(parts[..|parts| - 1]), parts[|parts| - 1]);
    }
  }

  lemma MarkerValid()
    ensures ValidUtf8(MARKER)
  {
    hide ValidUtf8, Flatten;
    PiecesValid();
    FlattenValid(MARKER_PARTS);
  }

  /** At most three continuation bytes follow each other. */
  lemma {:induction false} CharacterNear(s: seq<Byte>, i: nat) returns (j: nat)
    requires ValidUtf8(s) && i < |s|
    ensures j <= i < j + 4 && RuneStart(s[j])
    decreases |s|
  {
    var n := CharLength(s);
    if i < n {
      j := 0;
    } else {
      j := CharacterNear(s[n..], i - n);
      j := j + n;
    }
  }

  /**
   * Shortening twice is shortening once. The result is within the limit exactly if the text was, or the marker
   * is; one byte less than the marker still gives the marker, and with less room still there is no result.
   */
  lemma TruncatedFits(s: seq<Byte>, limit: int)
    requires |s| <= limit || Roomy(limit)
    ensures |Truncated(s, limit)| <= limit <==> |s| <= limit || limit >= |MARKER|
    ensures |Truncated(s, limit)| <= limit || Roomy(limit)
    ensures Truncated(Truncated(s, limit), limit) == Truncated(s, limit)
    ensures Roomy(limit) <==> limit >= |MARKER| - 1
  {
    MarkerLength();
    hide MARKER, Flatten;
  }

  lemma TruncatedValid(s: seq<Byte>, limit: int)
    requires (|s| <= limit || Roomy(limit)) && ValidUtf8(s)
    ensures ValidUtf8(Truncated(s, limit))
  {
    hide ValidUtf8, CharLength, MARKER, Flatten;
    if |s| > limit {
      var head, tail := HeadCut(s, Within(s, limit)), TailCut(s, |s| - Within(s, limit));
      if head == 0 {
        AsciiValid([]);
        assert s[..head] == [];
      } else {
        CutBetweenCharacters(s, head);
      }
      CutBetweenCharacters(s, tail);
      MarkerValid();
      ConcatValid(s[..head], MARKER);
      ConcatValid(s[..head] + MARKER, s[tail..]);
    }
  }

  /** Twice as many bytes fit the room beside the marker. */
  predicate FitsTwice(n: int, limit: int) {
    2 * n <= limit - |MARKER|
  }

  /**
   * What is kept of a long text: a beginning and an end, each within half the room and cut where a character
   * starts, and no longer ones would be; of a valid text each is at most three bytes short of that half.
   */
  lemma TruncatedKeepsEnds(s: seq<Byte>, limit: int) returns (head: nat, tail: nat)
    requires Roomy(limit) && |s| > limit
    ensures head <= tail <= |s| && Truncated(s, limit) == s[..head] + MARKER + s[tail..]
    ensures head > 0 ==> FitsTwice(head, limit) && RuneStart(s[head])
    ensures tail < |s| ==> FitsTwice(|s| - tail, limit) && RuneStart(s[tail])
    ensures forall k :: head < k < |s| && FitsTwice(k, limit) ==> !RuneStart(s[k])
    ensures forall k :: 0 <= k < tail && FitsTwice(|s| - k, limit) ==> !RuneStart(s[k])
    ensures ValidUtf8(s) ==> !FitsTwice(head + 4, limit) && !FitsTwice(|s| - tail + 4, limit)
  {
    MarkerLength();
    hide MARKER, Flatten;
    var half := Within(s, limit);
    head, tail := HeadCut(s, half), TailCut(s, |s| - half);
    if ValidUtf8(s) {
      var j := CharacterNear(s, half);
      if tail > |s| - half {
        var k := CharacterNear(s, tail - 1);
      }
    }
  }

  // ----- Encoded in JSON

  predicate LineSeparator(s: seq<Byte>) {
    |s| >= 3 && s[0] == 0xE2 && s[1] == 0x80 && (s[2] == 0xA8 || s[2] == 0xA9)
  }

  /** The bytes a text takes inside a JSON string, where control characters and those HTML reacts to become escapes. */
  function EncodedLength(s: seq<Byte>): nat {
    if s == [] then 0
    else
      var b, n := s[0], CharLength(s);
      if n == 0 then 6 + EncodedLength(s[1..])
      else if n > 1 then (if LineSeparator(s) then 6 else n) + EncodedLength(s[n..])
      else if b == 0x22 || b == 0x5C || b == 8 || b == 9 || b == 10 || b == 12 || b == 13 then 2 + EncodedLength(s[1..])
      else if b < 0x20 || b == 0x3C || b == 0x3E || b == 0x26 then 6 + EncodedLength(s[1..])
      else 1 + EncodedLength(s[1..])
  }

  lemma {:induction false} EncodedAtMostSixfold(s: seq<Byte>)
    ensures EncodedLength(s) <= 6 * |s|
    decreases |s|
  {
    if s != [] {
      var n := if CharLength(s) == 0 then 1 else CharLength(s);
      EncodedAtMostSixfold(s[n..]);
    }
  }

  /** So one shortened output takes a bounded share of a request, whatever bytes it is made of. */
  lemma EncodedOutputBounded(s: seq<Byte>, limit: nat)
    requires limit >= |MARKER|
    ensures EncodedLength(Truncated(s, limit)) <= 6 * limit
  {
    EncodedAtMostSixfold(Truncated(s, limit));
    TruncatedFits(s, limit);
    hide Truncated, EncodedLength;
  }
}
