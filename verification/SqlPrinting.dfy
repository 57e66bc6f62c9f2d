/** SQL as it is written: pieces that print as one token each, and what remains of a whole text of them. */
module SqlPrinting {
  import opened Prelude
  import opened SqlGrammar

  // ----- Printing: what is written as one piece is read as one token

  /** The content of a string: its quotes doubled, and its backslashes too in an E string. */
  function Doubled(body: string, escaping: bool, q: char): string {
    if body == "" then ""
    else (if body[0] == q || (escaping && body[0] == '\\') then [body[0], body[0]] else [body[0]]) +
          Doubled(body[1..], escaping, q)
  }

  lemma {:induction false} DoubledIsContent(s: string, escaping: bool, q: char, body: string, j: nat)
    requires q != '\\'
    requires j + |Doubled(body, escaping, q)| <= |s|
             && s[j..j + |Doubled(body, escaping, q)|] == Doubled(body, escaping, q)
    ensures Content(s, escaping, q, j, j + |Doubled(body, escaping, q)|)
    decreases |body|
  {
    if body != "" {
      var n := if body[0] == q || (escaping && body[0] == '\\') then 2 else 1;
      var rest := Doubled(body[1..], escaping, q);
      assert s[j] == body[0] && (n == 2 ==> s[j + 1] == body[0]) by {
        assert Doubled(body, escaping, q)[0] == body[0] && s[j..j + n + |rest|][0] == s[j];
        if n == 2 {
          assert s[j..j + n + |rest|][1] == s[j + 1];
        }
      }
      assert Piece(s, escaping, q, j) == n;
      assert s[j + n..j + n + |rest|] == s[j..j + n + |rest|][n..] == rest;
      DoubledIsContent(s, escaping, q, body[1..], j + n);
    }
  }

  /** An E, or e, that starts a word stands at the end of the text. */
  predicate EndsInE(before: string) {
    var n := |before|;
    n > 0 && (before[n - 1] == 'e' || before[n - 1] == 'E') && (n == 1 || !WordChar(before[n - 2]))
  }

  /**
   * A quoted string or name is one token, its quotes doubled, and its backslashes too where an E just before
   * makes it an E string; unless the text goes on with the quote.
   */
  lemma PrintedStringIsOneToken(before: string, q: char, body: string, after: string)
    requires q == '\'' || q == '"'
    requires after != "" ==> after[0] != q
    ensures var text := [q] + Doubled(body, q == '\'' && EndsInE(before), q) + [q];
            TokenAt(before + text + after, |before|, |before| + |text|, Quoted)
  {
    var escaping := q == '\'' && EndsInE(before);
    var text := [q] + Doubled(body, escaping, q) + [q];
    var s := before + text + after;
    var i, k := |before|, |before| + |text|;
    assert Escaping(s, i) == escaping by {
      assert s[i] == q && (i > 0 ==> s[i - 1] == before[i - 1]) && (i > 1 ==> s[i - 2] == before[i - 2]);
    }
    hide Doubled, Delimiter, Content, EndsInE, Escaping;
    assert s[i] == q && s[k - 1] == q && (k < |s| ==> s[k] == after[0]);
    assert s[i + 1..k - 1] == Doubled(body, escaping, q);
    DoubledIsContent(s, escaping, q, body, i + 1);
    assert !OccursAt(s, "--", i) && !OccursAt(s, "/*", i) by {
      if i + 2 <= |s| {
        assert s[i..i + 2][0] == q;
      }
    }
  }

  /** A mark occurs in a text followed by the mark at the end only. */
  ghost predicate FirstAtEnd(body: string, mark: string) {
    forall m :: 0 <= m < |body| ==> !OccursAt(body + mark, mark, m)
  }

  /** Embedding a delimited body in a text does not create an earlier mark. */
  lemma ClosesInContext(before: string, body: string, mark: string, after: string)
    requires FirstAtEnd(body, mark) && mark != ""
    ensures Closes(before + (body + mark) + after, mark, |before|, |before| + |body| + |mark|)
  {
    var s := before + (body + mark) + after;
    var k := |before| + |body| + |mark|;
    assert s[k - |mark|..k] == mark;
    forall m | |before| <= m < k - |mark| ensures !OccursAt(s, mark, m) {
      assert s[m..m + |mark|] == (body + mark)[m - |before|..m - |before| + |mark|];
      assert !OccursAt(body + mark, mark, m - |before|);
    }
  }

  /** A block comment with no end of comment inside is one token, up to its first end: comments do not nest. */
  lemma PrintedCommentIsOneToken(before: string, body: string, after: string)
    requires FirstAtEnd(body, "*/")
    ensures var text := "/*" + body + "*/"; TokenAt(before + text + after, |before|, |before| + |text|, BlockComment)
  {
    var text := "/*" + body + "*/";
    var s := before + text + after;
    ClosesInContext(before + "/*", body, "*/", after);
    assert s == (before + "/*") + (body + "*/") + after;
    assert s[|before|..|before| + 2] == "/*";
    hide Closes;
  }

  /** A line comment goes to the end of its line, which is not part of it. */
  lemma PrintedLineIsOneToken(before: string, body: string, after: string)
    requires (forall i :: 0 <= i < |body| ==> body[i] != '\n') && (after == "" || after[0] == '\n')
    ensures var text := "--" + body; TokenAt(before + text + after, |before|, |before| + |text|, LineComment)
  {
    var text := "--" + body;
    var s := before + text + after;
    assert s[|before|..|before| + 2] == "--";
    forall m | |before| <= m < |before| + |text| ensures s[m] != '\n' {
      assert s[m] == text[m - |before|];
    }
  }

  predicate Tag(tag: string) {
    |tag| <= 62 && (forall i :: 0 <= i < |tag| ==> WordChar(tag[i])) && (tag != "" ==> !('0' <= tag[0] <= '9'))
  }

  /**
   * A body between two equal dollar delimiters, of at most 64 characters each, is one token if it does not
   * contain the delimiter.
   */
  lemma PrintedBodyIsOneToken(before: string, tag: string, body: string, after: string)
    requires Tag(tag) && FirstAtEnd(body, "$" + tag + "$")
    ensures var mark := "$" + tag + "$"; var text := mark + body + mark;
            TokenAt(before + text + after, |before|, |before| + |text|, Dollar)
  {
    var mark := "$" + tag + "$";
    var s := before + (mark + body + mark) + after;
    DelimiterInContext(before, tag, body + mark + after);
    assert s == before + mark + (body + mark + after);
    ClosesInContext(before + mark, body, mark, after);
    assert s == (before + mark) + (body + mark) + after;
    hide Closes, Delimiter;
    DollarKind(s, |before|);
    assert s[|before|..|before| + |mark|] == mark;
  }

  lemma DelimiterInContext(before: string, tag: string, after: string)
    requires Tag(tag)
    ensures Delimiter(before + ("$" + tag + "$") + after, |before|) == |tag| + 2
  {
    var s := before + ("$" + tag + "$") + after;
    var i := |before|;
    forall k | 0 <= k < |tag| ensures s[i + 1 + k] == tag[k] {
    }
    IdentEndIs(s, i + 1, i + 1 + |tag|);
  }

  lemma {:induction false} IdentEndIs(s: string, i: nat, j: nat)
    requires i <= j < |s| && (forall k :: i <= k < j ==> WordChar(s[k])) && !WordChar(s[j])
    ensures IdentEnd(s, i) == j
    decreases j - i
  {
    if i < j {
      IdentEndIs(s, i + 1, j);
    }
  }

  // ----- A whole text

  /**
   * Plain SQL, a comment, a string or quoted name (escaping: an E string, whose E ends the piece before),
   * a dollar body.
   */
  datatype Fragment =
    | Text(text: string)
    | Line(body: string)
    | Block(body: string)
    | Literal(quote: char, escaping: bool, body: string)
    | Body(tag: string, body: string)

  function Print(p: Fragment): string {
    match p
    case Text(text) => text
    case Line(body) => "--" + body
    case Block(body) => "/*" + body + "*/"
    case Literal(q, escaping, body) => [q] + Doubled(body, escaping, q) + [q]
    case Body(tag, body) => ("$" + tag + "$") + body + ("$" + tag + "$")
  }

  function PrintAll(ps: seq<Fragment>): string {
    if ps == [] then "" else Print(ps[0]) + PrintAll(ps[1..])
  }

  /** What the runner looks at: plain text as it is, nothing of a line comment, a blank for everything else. */
  function Blank(p: Fragment): string {
    match p case Text(text) => text case Line(_) => "" case _ => " "
  }

  function BlankAll(ps: seq<Fragment>): string {
    if ps == [] then "" else Blank(ps[0]) + BlankAll(ps[1..])
  }

  /** The piece does not run into its neighbours, nor into itself. */
  ghost predicate Fits(before: string, p: Fragment, after: string) {
    match p
    case Text(text) => forall i :: 0 <= i < |text| ==> KindAt(text + after, i) == Plain
    case Line(body) => (forall i :: 0 <= i < |body| ==> body[i] != '\n') && (after == "" || after[0] == '\n')
    case Block(body) => FirstAtEnd(body, "*/")
    case Literal(q, escaping, _) =>
      && (q == '\'' || q == '"') && (after != "" ==> after[0] != q)
      && (escaping <==> q == '\'' && EndsInE(before))
    case Body(tag, body) => Tag(tag) && FirstAtEnd(body, "$" + tag + "$")
  }

  ghost predicate WellSeparated(before: string, ps: seq<Fragment>)
    decreases |ps|
  {
    ps != [] ==> Fits(before, ps[0], PrintAll(ps[1..])) && WellSeparated(before + Print(ps[0]), ps[1..])
  }

  function KindOf(p: Fragment): Kind {
    match p
    case Text(_) => Plain
    case Line(_) => LineComment
    case Block(_) => BlockComment
    case Literal(_, _, _) => Quoted
    case Body(_, _) => Dollar
  }

  function PlainTokens(text: string): seq<Token> {
    if text == "" then [] else [Token(Plain, [text[0]])] + PlainTokens(text[1..])
  }

  function TokensOf(p: Fragment): seq<Token> {
    if p.Text? then PlainTokens(p.text) else [Token(KindOf(p), Print(p))]
  }

  function AllTokens(ps: seq<Fragment>): seq<Token> {
    if ps == [] then [] else TokensOf(ps[0]) + AllTokens(ps[1..])
  }

  lemma {:induction false} IdentEndShift(before: string, x: string, i: nat)
    requires i <= |x|
    ensures IdentEnd(before + x, |before| + i) == |before| + IdentEnd(x, i)
    decreases |x| - i
  {
    if i < |x| && WordChar(x[i]) {
      IdentEndShift(before, x, i + 1);
    }
  }

  /** What starts at a place depends on the text from there on only. */
  lemma KindShift(before: string, x: string, i: nat)
    requires i < |x|
    ensures KindAt(before + x, |before| + i) == KindAt(x, i)
  {
    var s, j := before + x, |before| + i;
    IdentEndShift(before, x, i + 1);
    assert j + 2 <= |s| ==> s[j..j + 2] == x[i..i + 2];
  }

  lemma {:induction false} LexesAppend(s: string, i: nat, ts: seq<Token>, j: nat, us: seq<Token>, k: nat)
    requires Lexes(s, i, ts, j) && Lexes(s, j, us, k) && j <= k
    ensures Lexes(s, i, ts + us, k)
    decreases |ts|
  {
    hide Lexes, TokenAt;
    if ts == [] {
      LexesNil(s, i, j);
      assert ts + us == us;
    } else {
      LexesCons(s, i, ts, j);
      LexesCons(s, i, ts + us, k);
      LexesAppend(s, i + |ts[0].text|, ts[1..], j, us, k);
      assert (ts + us)[0] == ts[0] && (ts + us)[1..] == ts[1..] + us;
    }
  }

  lemma OneToken(s: string, i: nat, t: Token)
    requires TokenAt(s, i, i + |t.text|, t.kind) && s[i..i + |t.text|] == t.text
    ensures Lexes(s, i, [t], i + |t.text|)
  {
    hide TokenAt;
    TokenProgress(s, i, i + |t.text|, t.kind);
    LexesNil(s, i + |t.text|, i + |t.text|);
    LexesCons(s, i, [t], i + |t.text|);
    assert [t][1..] == [];
  }

  lemma PlainTokenAt(s: string, i: nat)
    requires i < |s| && KindAt(s, i) == Plain
    ensures TokenAt(s, i, i + 1, Plain)
  {
  }

  /** The first character of a plain text is a token, and the rest of it is plain text. */
  lemma FirstPlain(before: string, text: string, after: string)
    requires text != "" && Fits(before, Text(text), after)
    ensures Lexes(before + text + after, |before|, [Token(Plain, [text[0]])], |before| + 1)
    ensures Fits(before + [text[0]], Text(text[1..]), after)
  {
    hide KindAt, Lexes, TokenAt;
    var s, i, c, rest := before + text + after, |before|, [text[0]], text[1..];
    assert s == before + (text + after) && s[i..i + 1] == c;
    KindShift(before, text + after, 0);
    PlainTokenAt(s, i);
    OneToken(s, i, Token(Plain, c));
    forall k | 0 <= k < |rest| ensures KindAt(rest + after, k) == Plain {
      KindShift(c, rest + after, k);
      assert c + (rest + after) == text + after;
    }
  }

  lemma {:induction false} PlainLexes(before: string, text: string, after: string)
    requires Fits(before, Text(text), after)
    ensures Lexes(before + text + after, |before|, PlainTokens(text), |before| + |text|)
    decreases |text|
  {
    hide Fits, Lexes;
    var s, i := before + text + after, |before|;
    if text == "" {
      LexesNil(s, i, i);
    } else {
      var c, rest := [text[0]], text[1..];
      FirstPlain(before, text, after);
      assert before + c + rest + after == s;
      PlainLexes(before + c, rest, after);
      LexesAppend(s, i, [Token(Plain, c)], i + 1, PlainTokens(rest), i + |text|);
    }
  }

  lemma PieceIsOneToken(before: string, p: Fragment, after: string)
    requires !p.Text? && Fits(before, p, after)
    ensures TokenAt(before + Print(p) + after, |before|, |before| + |Print(p)|, KindOf(p))
  {
    hide TokenAt, Doubled;
    match p
    case Line(body) => PrintedLineIsOneToken(before, body, after);
    case Block(body) => PrintedCommentIsOneToken(before, body, after);
    case Literal(q, _, body) => PrintedStringIsOneToken(before, q, body, after);
    case Body(tag, body) => PrintedBodyIsOneToken(before, tag, body, after);
  }

  lemma PieceLexes(s: string, before: string, p: Fragment, after: string)
    requires s == before + Print(p) + after && Fits(before, p, after)
    ensures Lexes(s, |before|, TokensOf(p), |before| + |Print(p)|)
  {
    hide TokenAt, Lexes, KindAt, EndsInE, Doubled;
    if p.Text? {
      PlainLexes(before, p.text, after);
    } else {
      PieceIsOneToken(before, p, after);
      var text := Print(p);
      assert s[|before|..|before| + |text|] == text;
      OneToken(s, |before|, Token(KindOf(p), text));
    }
  }

  lemma FirstPiece(before: string, ps: seq<Fragment>)
    requires ps != [] && WellSeparated(before, ps)
    ensures Fits(before, ps[0], PrintAll(ps[1..])) && WellSeparated(before + Print(ps[0]), ps[1..])
    ensures before + PrintAll(ps) == before + Print(ps[0]) + PrintAll(ps[1..])
    ensures AllTokens(ps) == TokensOf(ps[0]) + AllTokens(ps[1..])
  {
    hide Fits, Print, TokensOf;
  }

  lemma NoPiece(before: string)
    ensures PrintAll([]) == "" && AllTokens([]) == [] && before + "" == before
  {
  }

  /** A text of well-separated pieces is read back as those pieces. */
  lemma {:induction false} PrintedIsReadBack(s: string, before: string, ps: seq<Fragment>)
    requires s == before + PrintAll(ps) && WellSeparated(before, ps)
    ensures Lexes(s, |before|, AllTokens(ps), |s|)
    decreases |ps|
  {
    hide WellSeparated, Fits, Lexes, TokensOf, AllTokens, Print, PrintAll;
    if ps == [] {
      NoPiece(before);
      LexesNil(s, |before|, |s|);
    } else {
      var p, rest := ps[0], ps[1..];
      FirstPiece(before, ps);
      PieceLexes(s, before, p, PrintAll(rest));
      PrintedIsReadBack(s, before + Print(p), rest);
      LexesAppend(s, |before|, TokensOf(p), |before| + |Print(p)|, AllTokens(rest), |s|);
    }
  }

  lemma {:induction false} MaskAppend(ts: seq<Token>, us: seq<Token>)
    ensures MaskAll(ts + us) == MaskAll(ts) + MaskAll(us)
  {
    hide Mask;
    if ts == [] {
      assert ts + us == us;
    } else {
      MaskAppend(ts[1..], us);
      assert (ts + us)[0] == ts[0] && (ts + us)[1..] == ts[1..] + us;
    }
  }

  lemma {:induction false} PlainMask(text: string)
    ensures MaskAll(PlainTokens(text)) == text
  {
    if text != "" {
      PlainMask(text[1..]);
      MaskAppend([Token(Plain, [text[0]])], PlainTokens(text[1..]));
      assert MaskAll([Token(Plain, [text[0]])]) == [text[0]] + MaskAll([]);
    }
  }

  lemma {:induction false} PiecesMask(ps: seq<Fragment>)
    ensures MaskAll(AllTokens(ps)) == BlankAll(ps)
  {
    if ps != [] {
      PiecesMask(ps[1..]);
      MaskAppend(TokensOf(ps[0]), AllTokens(ps[1..]));
      if ps[0].Text? {
        PlainMask(ps[0].text);
      } else {
        assert MaskAll(TokensOf(ps[0])) == Blank(ps[0]) + MaskAll([]);
      }
    }
  }

  /** What any reading of a printed text leaves of it: its plain pieces and the blanks. */
  lemma PrintedMask(ps: seq<Fragment>, ts: seq<Token>)
    requires WellSeparated("", ps) && Lexes(PrintAll(ps), 0, ts, |PrintAll(ps)|)
    ensures ts == AllTokens(ps) && MaskAll(ts) == BlankAll(ps)
  {
    hide WellSeparated, Lexes;
    assert "" + PrintAll(ps) == PrintAll(ps);
    PrintedIsReadBack(PrintAll(ps), "", ps);
    ReadingUnique(PrintAll(ps), 0, ts, AllTokens(ps));
    PiecesMask(ps);
  }
}
