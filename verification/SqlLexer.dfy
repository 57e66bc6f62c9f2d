/**
 * The hand-written SQL scanner of the migration runner, proved to print the mask of the one
 * reading of the text as tokens, and what the runner looks for in that mask.
 */
module SqlLexer {
  import opened Prelude
  import opened SqlGrammar
  import opened SqlPrinting

  /** White space as \s and trim() see it. */
  predicate Space(c: char) {
    var n := c as int;
    9 <= n <= 13 || n == 32 || n == 0xA0 || n == 0x1680 || 0x2000 <= n <= 0x200A || n == 0x2028 || n == 0x2029
    || n == 0x202F || n == 0x205F || n == 0x3000 || n == 0xFEFF
  }

  // ----- The scanner

  /** Comments gone, every block comment, string and dollar body a blank, the rest as it is. */
  method TopLevelSql(sql: string) returns (out: string, ghost tokens: seq<Token>)
    ensures Lexes(sql, 0, tokens, |sql|) && out == MaskAll(tokens) && |out| <= |sql|
    ensures forall ts :: Lexes(sql, 0, ts, |sql|) ==> ts == tokens
    ensures forall ps :: WellSeparated("", ps) && PrintAll(ps) == sql ==> out == BlankAll(ps)
  {
    out, tokens := "", [];
    var i := 0;
    assert Lexes(sql, 0, tokens, 0) && out == MaskAll(tokens);
    hide *;
    while i < |sql|
      invariant 0 <= i <= |sql|
      invariant Lexes(sql, 0, tokens, i) && out == MaskAll(tokens)
    {
      var end, masked := NextToken(sql, i);
      ghost var token := Token(KindAt(sql, i), sql[i..end]);
      assert |token.text| == end - i;
      LexesSnoc(sql, 0, tokens, i, token);
      MaskSnoc(tokens, token);
      assert i + |token.text| == end;
      out, tokens := out + masked, tokens + [token];
      i := end;
    }
    TheReading(sql, tokens);
    ThePieces(sql, tokens);
  }

  lemma ThePieces(s: string, tokens: seq<Token>)
    requires Lexes(s, 0, tokens, |s|)
    ensures forall ps :: WellSeparated("", ps) && PrintAll(ps) == s ==> MaskAll(tokens) == BlankAll(ps)
  {
    hide WellSeparated, Lexes;
    forall ps | WellSeparated("", ps) && PrintAll(ps) == s ensures MaskAll(tokens) == BlankAll(ps) {
      PrintedMask(ps, tokens);
    }
  }

  lemma TheReading(s: string, tokens: seq<Token>)
    requires Lexes(s, 0, tokens, |s|)
    ensures |MaskAll(tokens)| <= |s| && forall ts :: Lexes(s, 0, ts, |s|) ==> ts == tokens
  {
    MaskIsShorter(s, 0, tokens, |s|);
    forall ts | Lexes(s, 0, ts, |s|) ensures ts == tokens {
      ReadingUnique(s, 0, ts, tokens);
    }
  }

  /** One turn of the scan: where the token at i ends and what it leaves in the output. */
  method NextToken(sql: string, i: nat) returns (end: nat, masked: string)
    requires i < |sql|
    ensures i < end <= |sql| && TokenAt(sql, i, end, KindAt(sql, i))
            && masked == Mask(Token(KindAt(sql, i), sql[i..end]))
  {
    hide TokenAt, KindAt, Delimiter, IndexOf;
    var c := sql[i];
    ghost var kind;
    if c == '-' && i + 1 < |sql| && sql[i + 1] == '-' {
      var j := IndexOf(sql, "\n", i);
      end, masked := if j.Some? then j.value else |sql|, "";
      LineEnds(sql, i);
      kind := LineComment;
    } else if c == '/' && i + 1 < |sql| && sql[i + 1] == '*' {
      var j := IndexOf(sql, "*/", i + 2);
      end, masked := if j.Some? then j.value + 2 else |sql|, " ";
      BlockEnds(sql, i);
      kind := BlockComment;
    } else if c == '\'' || c == '"' {
      end := SkipString(sql, i);
      masked, kind := " ", Quoted;
    } else if Delimiter(sql, i) > 0 {
      var mark := sql[i..i + Delimiter(sql, i)];
      var j := IndexOf(sql, mark, i + |mark|);
      end, masked := if j.Some? then j.value + |mark| else |sql|, " ";
      DollarEnds(sql, i);
      kind := Dollar;
    } else {
      end, masked := i + 1, [c];
      PlainEnds(sql, i);
      kind := Plain;
    }
    assert sql[i..i + 1] == [c];
    TokenProgress(sql, i, end, kind);
  }

  lemma DollarEnds(s: string, i: nat)
    requires i < |s| && Delimiter(s, i) > 0
    ensures var mark := s[i..i + Delimiter(s, i)]; var j := IndexOf(s, mark, i + |mark|);
            TokenAt(s, i, if j.Some? then j.value + |mark| else |s|, Dollar)
  {
    hide Delimiter, KindAt, IndexOf, OccursAt;
    DollarKind(s, i);
    var mark := s[i..i + Delimiter(s, i)];
    var j := IndexOf(s, mark, i + |mark|);
    if j.Some? {
      OccursFits(s, mark, j.value);
    }
  }

  lemma OccursFits(s: string, pat: string, k: nat)
    requires OccursAt(s, pat, k)
    ensures k + |pat| <= |s|
  {
  }

  lemma PlainEnds(s: string, i: nat)
    requires i < |s| && s[i] != '\'' && s[i] != '"' && Delimiter(s, i) == 0
    requires !(s[i] == '-' && i + 1 < |s| && s[i + 1] == '-') && !(s[i] == '/' && i + 1 < |s| && s[i + 1] == '*')
    ensures TokenAt(s, i, i + 1, Plain)
  {
    assert i + 2 <= |s| ==> s[i..i + 2] == [s[i], s[i + 1]];
  }

  lemma LineEnds(s: string, i: nat)
    requires i + 1 < |s| && s[i] == '-' && s[i + 1] == '-'
    ensures var j := IndexOf(s, "\n", i); TokenAt(s, i, if j.Some? then j.value else |s|, LineComment)
  {
    var j := IndexOf(s, "\n", i);
    var k := if j.Some? then j.value else |s|;
    assert s[i..i + 2] == "--" && s[i..i + 1] == "-";
    forall m | i <= m < k ensures s[m] != '\n' {
      assert !OccursAt(s, "\n", m);
      assert s[m..m + 1] == [s[m]];
    }
    if j.Some? {
      assert s[k..k + 1] == [s[k]];
    }
  }

  lemma BlockEnds(s: string, i: nat)
    requires i + 1 < |s| && s[i] == '/' && s[i + 1] == '*'
    ensures var j := IndexOf(s, "*/", i + 2); TokenAt(s, i, if j.Some? then j.value + 2 else |s|, BlockComment)
  {
    assert s[i..i + 2] == "/*";
  }

  /** The end of the string that the quote at i opens (the end of the text if it is never closed). */
  method SkipString(sql: string, i: nat) returns (end: nat)
    requires i < |sql| && (sql[i] == '\'' || sql[i] == '"')
    ensures TokenAt(sql, i, end, Quoted)
  {
    var c := sql[i];
    var escapes := c == '\'' && i > 0 && (sql[i - 1] == 'e' || sql[i - 1] == 'E') && !(i > 1 && WordChar(sql[i - 2]));
    var j := i + 1;
    while j < |sql|
      invariant i + 1 <= j <= |sql| + 1
      invariant Content(sql, escapes, c, i + 1, if j <= |sql| then j else |sql|)
    {
      if escapes && sql[j] == '\\' {
        ContentSnoc(sql, escapes, c, i + 1, j);
        j := j + 2;
      } else if sql[j] == c {
        if j + 1 < |sql| && sql[j + 1] == c {
          ContentSnoc(sql, escapes, c, i + 1, j);
          j := j + 2;
        } else {
          break;
        }
      } else {
        ContentSnoc(sql, escapes, c, i + 1, j);
        j := j + 1;
      }
    }
    end := if j + 1 <= |sql| then j + 1 else |sql|;
  }

  // ----- Transaction control

  function SkipSpace(s: string, i: nat): (j: nat)
    requires i <= |s|
    ensures i <= j <= |s| && (forall k :: i <= k < j ==> Space(s[k])) && (j < |s| ==> !Space(s[j]))
    decreases |s| - i
  {
    if i < |s| && Space(s[i]) then SkipSpace(s, i + 1) else i
  }

  predicate WordAt(s: string, p: nat, word: string) {
    p + |word| <= |s| && Lower(s[p..p + |word|]) == word
  }

  predicate Boundary(s: string, p: nat) {
    p >= |s| || !WordChar(s[p])
  }

  const SIMPLE_ORDERS := ["begin", "commit", "end", "rollback", "abort"]

  /** Where an order of transaction control that starts at p ends. */
  function OrderEnd(s: string, p: nat): (r: Option<nat>)
    requires p <= |s|
    ensures r.Some? ==> p < r.value <= |s|
  {
    if WordAt(s, p, "start") then
      var t := SkipSpace(s, p + 5);
      if t > p + 5 && WordAt(s, t, "transaction") && Boundary(s, t + 11) then Some(t + 11) else None
    else SimpleOrderEnd(s, p, 0)
  }

  function SimpleOrderEnd(s: string, p: nat, n: nat): (r: Option<nat>)
    requires n <= |SIMPLE_ORDERS|
    ensures r.Some? ==> p < r.value <= |s|
    decreases |SIMPLE_ORDERS| - n
  {
    if n == |SIMPLE_ORDERS| then None
    else
      var w := SIMPLE_ORDERS[n];
      if w != "" && WordAt(s, p, w) && Boundary(s, p + |w|) then Some(p + |w|) else SimpleOrderEnd(s, p, n + 1)
  }

  /** The order of transaction control that a statement starts with. */
  function StatementOrder(stmt: string): Option<string> {
    var p := SkipSpace(stmt, 0);
    match OrderEnd(stmt, p) case Some(e) => Some(stmt[p..e]) case None => None
  }

  /** The text from i to j is a statement: between two semicolons, or an end of the text. */
  ghost predicate StatementAt(text: string, i: int, j: int) {
    && 0 <= i <= j <= |text| && (forall k :: i <= k < j ==> text[k] != ';')
    && (i == 0 || text[i - 1] == ';') && (j == |text| || text[j] == ';')
  }

  ghost predicate NoOrderBefore(text: string, n: nat) {
    forall i, j :: i < n && StatementAt(text, i, j) ==> StatementOrder(text[i..j]).None?
  }

  ghost predicate FirstOrder(text: string, found: Option<string>) {
    match found
    case None => NoOrderBefore(text, |text| + 1)
    case Some(order) =>
      exists i, j :: StatementAt(text, i, j) && StatementOrder(text[i..j]) == found && NoOrderBefore(text, i)
  }

  /**
   * The first order of transaction control at top level. It is a matter of the mask alone, hence
   * of the plain parts of the text: every reading of the text as tokens has that mask.
   */
  method FindTransactionControl(sql: string) returns (found: Option<string>)
    ensures exists ts :: Lexes(sql, 0, ts, |sql|)
    ensures forall ts :: Lexes(sql, 0, ts, |sql|) ==> FirstOrder(MaskAll(ts), found)
    ensures forall ps :: WellSeparated("", ps) && PrintAll(ps) == sql ==> FirstOrder(BlankAll(ps), found)
  {
    hide WellSeparated, Lexes, FirstOrder;
    var out, tokens := TopLevelSql(sql);
    found := FirstOrderOf(out);
  }

  method FirstOrderOf(text: string) returns (found: Option<string>)
    ensures FirstOrder(text, found)
  {
    hide StatementOrder;
    found := None;
    var i := 0;
    while i <= |text|
      invariant 0 <= i <= |text| + 1 && (0 < i <= |text| ==> text[i - 1] == ';')
      invariant found.None? && NoOrderBefore(text, i)
      decreases |text| + 1 - i
    {
      var next := IndexOf(text, ";", i);
      var j := if next.Some? then next.value else |text|;
      StatementFrom(text, i);
      found := StatementOrder(text[i..j]);
      if found.Some? {
        return;
      }
      i := j + 1;
    }
  }

  lemma StatementFrom(text: string, i: nat)
    requires i <= |text| && (i == 0 || text[i - 1] == ';')
    ensures var next := IndexOf(text, ";", i); var j := if next.Some? then next.value else |text|;
            && StatementAt(text, i, j) && (j < |text| ==> text[j] == ';')
            && (forall m, k :: i <= m <= j && StatementAt(text, m, k) ==> m == i && k == j)
  {
    var next := IndexOf(text, ";", i);
    var j := if next.Some? then next.value else |text|;
    forall k | i <= k < j ensures text[k] != ';' {
      assert !OccursAt(text, ";", k);
      assert text[k..k + 1] == [text[k]];
    }
    if next.Some? {
      assert text[j..j + 1] == [text[j]];
    }
  }

  // ----- The no-transaction directive

  function Strip(s: string): string {
    StripRight(s[SkipSpace(s, 0)..])
  }

  function StripRight(s: string): string {
    if s != "" && Space(s[|s| - 1]) then StripRight(s[..|s| - 1]) else s
  }

  function SplitLines(s: string): (lines: seq<string>)
    ensures |lines| >= 1
    decreases |s|
  {
    match IndexOf(s, "\n", 0)
    case None => [s]
    case Some(k) => [s[..k]] + SplitLines(s[k + 1..])
  }

  function Join(lines: seq<string>): string
    requires |lines| >= 1
  {
    if |lines| == 1 then lines[0] else lines[0] + "\n" + Join(lines[1..])
  }

  /** Cutting in lines loses nothing. */
  lemma {:induction false} LinesRejoin(s: string)
    ensures Join(SplitLines(s)) == s
    ensures forall i :: 0 <= i < |SplitLines(s)| ==> '\n' !in SplitLines(s)[i]
    decreases |s|
  {
    var r := IndexOf(s, "\n", 0);
    if r.None? {
      forall k | 0 <= k < |s| ensures s[k] != '\n' {
        assert !OccursAt(s, "\n", k) && s[k..k + 1] == [s[k]];
      }
    } else {
      var k := r.value;
      LinesRejoin(s[k + 1..]);
      assert s[k..k + 1] == "\n" && s == s[..k] + "\n" + s[k + 1..];
      forall m | 0 <= m < k ensures s[m] != '\n' {
        assert !OccursAt(s, "\n", m) && s[m..m + 1] == [s[m]];
      }
      var rest := SplitLines(s[k + 1..]);
      assert SplitLines(s)[1..] == rest;
    }
  }

  predicate Comment(line: string) {
    OccursAt(line, "--", 0)
  }

  predicate Directive(line: string) {
    Comment(line) && line[SkipSpace(line, 2)..] == "opale:no-transaction"
  }

  /** The directive stands alone on a line, and only blank lines and comments are above. */
  ghost predicate OptsOut(sql: string) {
    exists k :: 0 <= k < |SplitLines(sql)| && Directive(Strip(SplitLines(sql)[k]))
      && forall i :: 0 <= i < k ==> Strip(SplitLines(sql)[i]) == "" || Comment(Strip(SplitLines(sql)[i]))
  }

  method IsNoTransaction(sql: string) returns (r: bool)
    ensures r <==> OptsOut(sql)
  {
    var lines := SplitLines(sql);
    for n := 0 to |lines|
      invariant forall i :: 0 <= i < n ==>
                  (Strip(lines[i]) == "" || Comment(Strip(lines[i]))) && !Directive(Strip(lines[i]))
    {
      var line := Strip(lines[n]);
      if line == "" {
        continue;
      }
      if !Comment(line) {
        return false;
      }
      if Directive(line) {
        return true;
      }
    }
    return false;
  }
}
