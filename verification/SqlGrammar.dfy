/** What the migration runner takes for a token of SQL, and that a text has at most one reading as tokens. */
module SqlGrammar {
  import opened Prelude

  predicate WordChar(c: char) {
    'A' <= c <= 'Z' || 'a' <= c <= 'z' || '0' <= c <= '9' || c == '_'
  }

  predicate OccursAt(s: string, pat: string, k: int) {
    0 <= k && k + |pat| <= |s| && s[k..k + |pat|] == pat
  }

  /** indexOf */
  function IndexOf(s: string, pat: string, i: nat): (r: Option<nat>)
    ensures r.Some? ==> i <= r.value && OccursAt(s, pat, r.value)
    ensures r.Some? ==> forall k :: i <= k < r.value ==> !OccursAt(s, pat, k)
    ensures r.None? ==> forall k :: i <= k ==> !OccursAt(s, pat, k)
    decreases |s| - i
  {
    if i + |pat| > |s| then None
    else if OccursAt(s, pat, i) then Some(i)
    else IndexOf(s, pat, i + 1)
  }

  // ----- Grammar

  datatype Kind = Plain | LineComment | BlockComment | Quoted | Dollar
  datatype Token = Token(kind: Kind, text: string)

  function Mask(t: Token): string {
    match t.kind
    case Plain => t.text
    case LineComment => ""
    case _ => " "
  }

  function MaskAll(ts: seq<Token>): string {
    if ts == [] then "" else Mask(ts[0]) + MaskAll(ts[1..])
  }

  /** A quote at i opens an E'...' string: e or E just before, and it is not the end of a word. */
  predicate Escaping(s: string, i: nat)
    requires i < |s|
  {
    && s[i] == '\''
    && i > 0 && (s[i - 1] == 'e' || s[i - 1] == 'E')
    && !(i > 1 && WordChar(s[i - 2]))
  }

  /** How many characters of a string's content are read together at j; none at its closing quote. */
  function Piece(s: string, escaping: bool, q: char, j: nat): nat
    requires j < |s|
  {
    if escaping && s[j] == '\\' then (if j + 1 < |s| then 2 else 1)
    else if s[j] == q then (if j + 1 < |s| && s[j + 1] == q then 2 else 0)
    else 1
  }

  /** The text from j to k is content of a string delimited by q. */
  predicate Content(s: string, escaping: bool, q: char, j: nat, k: nat)
    requires k <= |s|
    decreases |s| - j
  {
    j == k || (j < k && Piece(s, escaping, q, j) > 0 && Content(s, escaping, q, j + Piece(s, escaping, q, j), k))
  }

  function IdentEnd(s: string, i: nat): (j: nat)
    requires i <= |s|
    ensures i <= j <= |s| && (forall k :: i <= k < j ==> WordChar(s[k])) && (j < |s| ==> !WordChar(s[j]))
    decreases |s| - i
  {
    if i < |s| && WordChar(s[i]) then IdentEnd(s, i + 1) else i
  }

  /** The length of the delimiter $tag$ at i, looked for in 64 characters; 0 if there is none. */
  function Delimiter(s: string, i: nat): (n: nat)
    requires i < |s|
    ensures n > 0 ==> 2 <= n <= 64 && i + n <= |s|
  {
    if s[i] != '$' then 0
    else
      var j := IdentEnd(s, i + 1);
      if j < |s| && s[j] == '$' && j + 1 - i <= 64 && (j == i + 1 || !('0' <= s[i + 1] <= '9')) then j + 1 - i else 0
  }

  /** What starts at i, by its first characters. */
  function KindAt(s: string, i: nat): Kind
    requires i < |s|
  {
    if OccursAt(s, "--", i) then LineComment
    else if OccursAt(s, "/*", i) then BlockComment
    else if s[i] == '\'' || s[i] == '"' then Quoted
    else if Delimiter(s, i) > 0 then Dollar
    else Plain
  }

  /** From i to k: a delimited text whose closing mark is the first one at or after from, or that is never closed. */
  ghost predicate Closes(s: string, mark: string, from: nat, k: nat) {
    || (from + |mark| <= k <= |s| && OccursAt(s, mark, k - |mark|)
        && forall m :: from <= m < k - |mark| ==> !OccursAt(s, mark, m))
    || (k == |s| && forall m :: from <= m ==> !OccursAt(s, mark, m))
  }

  ghost predicate StringEnd(s: string, i: nat, k: nat)
    requires i < k <= |s|
  {
    var e := Escaping(s, i);
    || (i < k - 1 && s[k - 1] == s[i] && Piece(s, e, s[i], k - 1) == 0 && Content(s, e, s[i], i + 1, k - 1))
    || (k == |s| && Content(s, e, s[i], i + 1, k))
  }

  /** The text from i to k is one token of the given kind. */
  ghost predicate TokenAt(s: string, i: nat, k: nat, kind: Kind) {
    && i < k <= |s| && kind == KindAt(s, i)
    && match kind
       case Plain => k == i + 1
       case LineComment => (forall m :: i <= m < k ==> s[m] != '\n') && (k == |s| || s[k] == '\n')
       case BlockComment => Closes(s, "*/", i + 2, k)
       case Quoted => StringEnd(s, i, k)
       case Dollar => Closes(s, s[i..i + Delimiter(s, i)], i + Delimiter(s, i), k)
  }

  /** ts is a reading of the text from i to j as tokens. */
  ghost predicate Lexes(s: string, i: nat, ts: seq<Token>, j: nat)
    decreases |ts|
  {
    if ts == [] then i == j <= |s|
    else
      var k := i + |ts[0].text|;
      k <= j && TokenAt(s, i, k, ts[0].kind) && s[i..k] == ts[0].text && Lexes(s, k, ts[1..], j)
  }

  // ----- There is one reading

  lemma {:induction false} ContentUnique(s: string, e: bool, q: char, j: nat, k: nat, l: nat)
    requires k < l <= |s| && Content(s, e, q, j, k) && Content(s, e, q, j, l)
    ensures Piece(s, e, q, k) > 0
    decreases |s| - j
  {
    if j != k {
      ContentUnique(s, e, q, j + Piece(s, e, q, j), k, l);
    }
  }

  lemma StringEndUnique(s: string, i: nat, k: nat, l: nat)
    requires i < k <= l <= |s| && StringEnd(s, i, k) && StringEnd(s, i, l)
    ensures k == l
  {
    if k < l {
      var e := Escaping(s, i);
      ContentUnique(s, e, s[i], i + 1, k - 1, if Content(s, e, s[i], i + 1, l) && l == |s| then l else l - 1);
    }
  }

  lemma TokenUnique(s: string, i: nat, k: nat, l: nat, kind: Kind)
    requires TokenAt(s, i, k, kind) && TokenAt(s, i, l, kind)
    ensures k == l
  {
    if kind.Quoted? {
      StringEndUnique(s, i, if k <= l then k else l, if k <= l then l else k);
    }
  }

  lemma TokenProgress(s: string, i: nat, k: nat, kind: Kind)
    requires TokenAt(s, i, k, kind)
    ensures i < k <= |s| && kind == KindAt(s, i)
  {
  }

  /** A text has at most one reading. */
  lemma {:induction false} ReadingUnique(s: string, i: nat, ts: seq<Token>, us: seq<Token>)
    requires Lexes(s, i, ts, |s|) && Lexes(s, i, us, |s|)
    ensures ts == us
    decreases |ts|
  {
    hide TokenAt, KindAt;
    if ts != [] {
      TokenProgress(s, i, i + |ts[0].text|, ts[0].kind);
    }
    if us != [] {
      TokenProgress(s, i, i + |us[0].text|, us[0].kind);
    }
    if ts != [] && us != [] {
      TokenUnique(s, i, i + |ts[0].text|, i + |us[0].text|, ts[0].kind);
      ReadingUnique(s, i + |ts[0].text|, ts[1..], us[1..]);
      assert ts == [ts[0]] + ts[1..] && us == [us[0]] + us[1..];
    }
  }

  lemma LexesNil(s: string, i: nat, j: nat)
    ensures Lexes(s, i, [], j) <==> i == j <= |s|
  {
  }

  lemma LexesCons(s: string, i: nat, ts: seq<Token>, j: nat)
    requires ts != []
    ensures var k := i + |ts[0].text|;
            Lexes(s, i, ts, j) <==>
              k <= j && TokenAt(s, i, k, ts[0].kind) && s[i..k] == ts[0].text && Lexes(s, k, ts[1..], j)
  {
    hide TokenAt;
  }

  lemma {:induction false} LexesSnoc(s: string, i: nat, ts: seq<Token>, j: nat, t: Token)
    requires Lexes(s, i, ts, j) && TokenAt(s, j, j + |t.text|, t.kind) && s[j..j + |t.text|] == t.text
    ensures Lexes(s, i, ts + [t], j + |t.text|)
    decreases |ts|
  {
    hide TokenAt, KindAt, Lexes;
    TokenProgress(s, j, j + |t.text|, t.kind);
    var us := ts + [t];
    LexesCons(s, i, us, j + |t.text|);
    if ts == [] {
      LexesNil(s, i, j);
      LexesNil(s, j + |t.text|, j + |t.text|);
      assert us[0] == t && us[1..] == [];
    } else {
      LexesCons(s, i, ts, j);
      LexesSnoc(s, i + |ts[0].text|, ts[1..], j, t);
      assert us[0] == ts[0] && us[1..] == ts[1..] + [t];
    }
  }

  lemma {:induction false} MaskSnoc(ts: seq<Token>, t: Token)
    ensures MaskAll(ts + [t]) == MaskAll(ts) + Mask(t)
  {
    if ts == [] {
      assert (ts + [t])[1..] == [];
    } else {
      MaskSnoc(ts[1..], t);
      assert (ts + [t])[1..] == ts[1..] + [t];
    }
  }

  lemma {:induction false} MaskIsShorter(s: string, i: nat, ts: seq<Token>, j: nat)
    requires Lexes(s, i, ts, j)
    ensures |MaskAll(ts)| <= j - i
    decreases |ts|
  {
    if ts != [] {
      MaskIsShorter(s, i + |ts[0].text|, ts[1..], j);
    }
  }

  lemma {:induction false} ContentSnoc(s: string, e: bool, q: char, j: nat, k: nat)
    requires k < |s| && Content(s, e, q, j, k) && Piece(s, e, q, k) > 0
    ensures Content(s, e, q, j, k + Piece(s, e, q, k))
    decreases |s| - j
  {
    if j != k {
      ContentSnoc(s, e, q, j + Piece(s, e, q, j), k);
    }
  }

  lemma DollarKind(s: string, i: nat)
    requires i < |s| && Delimiter(s, i) > 0
    ensures KindAt(s, i) == Dollar
  {
    assert s[i] == '$';
    hide Delimiter;
    assert i + 2 <= |s| ==> s[i..i + 2] == [s[i], s[i + 1]];
  }
}
