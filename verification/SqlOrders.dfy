/** What an order of transaction control and the directive are, as texts: the patterns the runner looks for. */
module SqlOrders {
  import opened Prelude
  import opened SqlGrammar
  import opened SqlLexer

  predicate Blank(s: string) {
    forall i :: 0 <= i < |s| ==> Space(s[i])
  }

  /** The word in any case; word is in lower case. */
  predicate Says(w: string, word: string) {
    |w| == |word| && forall i :: 0 <= i < |w| ==> w[i] == word[i] || w[i] as int + 32 == word[i] as int
  }

  predicate SimpleOrder(w: string) {
    Says(w, "begin") || Says(w, "commit") || Says(w, "end") || Says(w, "rollback") || Says(w, "abort")
  }

  /** START TRANSACTION with any white space between the words. */
  ghost predicate StartOrder(order: string, gap: string) {
    && |order| == 5 + |gap| + 11 && gap != "" && Blank(gap)
    && Says(order[..5], "start") && order[5..5 + |gap|] == gap && Says(order[5 + |gap|..], "transaction")
  }

  ghost predicate Order(order: string) {
    SimpleOrder(order) || exists gap :: StartOrder(order, gap)
  }

  /** White space, an order in any case, and no more of its last word. */
  ghost predicate BeginsWith(stmt: string, blanks: string, order: string, rest: string) {
    && stmt == blanks + order + rest && Blank(blanks) && Order(order)
    && (rest == "" || !WordChar(rest[0]))
  }

  // ----- Words

  lemma LowerHas(s: string, i: nat)
    requires i < |s| && 'a' <= Lower(s)[i] <= 'z'
    ensures WordChar(s[i]) && !Space(s[i])
  {
  }

  lemma LowerSlice(s: string, i: nat, j: nat)
    requires i <= j <= |s|
    ensures Lower(s[i..j]) == Lower(s)[i..j]
  {
  }

  predicate Letters(w: string) {
    w != "" && forall i :: 0 <= i < |w| ==> 'a' <= w[i] <= 'z'
  }

  /** Comparing without case is comparing in lower case. */
  lemma SaysIsLower(w: string, word: string)
    requires Letters(word)
    ensures Says(w, word) <==> Lower(w) == word
  {
    if Lower(w) == word {
      forall i | 0 <= i < |w| ensures w[i] == word[i] || w[i] as int + 32 == word[i] as int {
        assert Lower(w)[i] == LowerChar(w[i]);
      }
    }
  }

  lemma SimpleOrderIsLower(w: string)
    ensures SimpleOrder(w) <==> Lower(w) in SIMPLE_ORDERS
  {
    SaysIsLower(w, "begin");
    SaysIsLower(w, "commit");
    SaysIsLower(w, "end");
    SaysIsLower(w, "rollback");
    SaysIsLower(w, "abort");
    hide Says;
  }

  lemma SimpleAreLetters(n: nat)
    requires n < |SIMPLE_ORDERS|
    ensures Letters(SIMPLE_ORDERS[n]) && SIMPLE_ORDERS[n][0] != 's'
  {
  }

  lemma LettersStand(s: string, p: nat, w: string, k: nat)
    requires WordAt(s, p, w) && Letters(w) && k < |w|
    ensures WordChar(s[p + k]) && !Space(s[p + k]) && LowerChar(s[p + k]) == w[k]
  {
    assert s[p..p + |w|][k] == s[p + k];
    LowerHas(s[p..p + |w|], k);
  }

  /** Only one word can stand somewhere and end there. */
  lemma OneWord(s: string, p: nat, v: string, w: string)
    requires WordAt(s, p, v) && WordAt(s, p, w) && Letters(v) && Letters(w)
    requires Boundary(s, p + |v|) && Boundary(s, p + |w|)
    ensures v == w
  {
    if |v| < |w| {
      LettersStand(s, p, w, |v|);
    } else if |w| < |v| {
      LettersStand(s, p, v, |w|);
    }
  }

  lemma {:induction false} SimpleFound(s: string, p: nat, n: nat, m: nat)
    requires n <= m < |SIMPLE_ORDERS| && WordAt(s, p, SIMPLE_ORDERS[m]) && Boundary(s, p + |SIMPLE_ORDERS[m]|)
    ensures SimpleOrderEnd(s, p, n) == Some(p + |SIMPLE_ORDERS[m]|)
    decreases m - n
  {
    SimpleAreLetters(n);
    SimpleAreLetters(m);
    var w := SIMPLE_ORDERS[n];
    if WordAt(s, p, w) && Boundary(s, p + |w|) {
      OneWord(s, p, w, SIMPLE_ORDERS[m]);
    } else {
      SimpleFound(s, p, n + 1, m);
    }
  }

  lemma {:induction false} SimpleIsOrder(s: string, p: nat, n: nat)
    requires n <= |SIMPLE_ORDERS| && SimpleOrderEnd(s, p, n).Some?
    ensures var e := SimpleOrderEnd(s, p, n).value; p < e <= |s| && SimpleOrder(s[p..e]) && Boundary(s, e)
    decreases |SIMPLE_ORDERS| - n
  {
    var w := SIMPLE_ORDERS[n];
    if w != "" && WordAt(s, p, w) && Boundary(s, p + |w|) {
      SimpleOrderIsLower(s[p..p + |w|]);
    } else {
      SimpleIsOrder(s, p, n + 1);
    }
  }

  // ----- Orders

  lemma {:induction false} SkipsExactly(s: string, i: nat, j: nat)
    requires i <= j <= |s| && (forall k :: i <= k < j ==> Space(s[k])) && (j < |s| ==> !Space(s[j]))
    ensures SkipSpace(s, i) == j
    decreases |s| - i
  {
    if i < j {
      SkipsExactly(s, i + 1, j);
    }
  }

  /** Where an order is found, the text is one and ends there. */
  lemma FoundIsOrder(s: string, p: nat)
    requires p <= |s| && OrderEnd(s, p).Some?
    ensures var e := OrderEnd(s, p).value; p < e <= |s| && Order(s[p..e]) && Boundary(s, e)
  {
    var e := OrderEnd(s, p).value;
    if WordAt(s, p, "start") {
      var t := SkipSpace(s, p + 5);
      var order, gap := s[p..e], s[p + 5..t];
      assert order[..5] == s[p..p + 5] && order[5..5 + |gap|] == gap && order[5 + |gap|..] == s[t..t + 11];
      SaysIsLower(order[..5], "start");
      SaysIsLower(order[5 + |gap|..], "transaction");
      assert StartOrder(order, gap);
    } else {
      SimpleIsOrder(s, p, 0);
    }
  }

  lemma StartFound(s: string, p: nat, order: string, gap: string)
    requires p + |order| <= |s| && s[p..p + |order|] == order && StartOrder(order, gap) && Boundary(s, p + |order|)
    ensures OrderEnd(s, p) == Some(p + |order|) && !Space(s[p])
  {
    hide Space, LowerChar;
    var t := p + 5 + |gap|;
    assert s[p..p + 5] == order[..5] && s[t..t + 11] == order[5 + |gap|..];
    SaysIsLower(order[..5], "start");
    SaysIsLower(order[5 + |gap|..], "transaction");
    assert WordAt(s, p, "start") && WordAt(s, t, "transaction");
    LettersStand(s, p, "start", 0);
    LettersStand(s, t, "transaction", 0);
    forall k | p + 5 <= k < t ensures Space(s[k]) {
      assert s[k] == order[k - p] == order[5..5 + |gap|][k - p - 5];
    }
    SkipsExactly(s, p + 5, t);
  }

  lemma NotStart(s: string, p: nat)
    requires p < |s| && LowerChar(s[p]) != 's'
    ensures !WordAt(s, p, "start")
  {
    assert p + 5 <= |s| ==> Lower(s[p..p + 5])[0] == LowerChar(s[p]);
  }

  lemma SimpleOrderFound(s: string, p: nat, order: string)
    requires p + |order| <= |s| && s[p..p + |order|] == order && SimpleOrder(order) && Boundary(s, p + |order|)
    ensures OrderEnd(s, p) == Some(p + |order|) && !Space(s[p])
  {
    SimpleOrderIsLower(order);
    var m :| 0 <= m < |SIMPLE_ORDERS| && SIMPLE_ORDERS[m] == Lower(order);
    SimpleAreLetters(m);
    LettersStand(s, p, SIMPLE_ORDERS[m], 0);
    NotStart(s, p);
    SimpleFound(s, p, 0, m);
  }

  /**
   * A statement starts with an order exactly if it is white space, the order in any case, and then neither a
   * letter, a digit nor an underscore; the order found is that one.
   */
  lemma StatementOrderIff(stmt: string, order: string)
    ensures StatementOrder(stmt) == Some(order) <==> exists blanks, rest :: BeginsWith(stmt, blanks, order, rest)
  {
    hide OrderEnd, Order, Space;
    var p := SkipSpace(stmt, 0);
    if StatementOrder(stmt) == Some(order) {
      FoundIsOrder(stmt, p);
      var e := OrderEnd(stmt, p).value;
      assert stmt == stmt[..p] + order + stmt[e..];
      assert BeginsWith(stmt, stmt[..p], order, stmt[e..]);
    }
    if blanks, rest :| BeginsWith(stmt, blanks, order, rest) {
      BeginningFound(stmt, blanks, order, rest);
    }
  }

  lemma BeginningFound(stmt: string, blanks: string, order: string, rest: string)
    requires BeginsWith(stmt, blanks, order, rest)
    ensures StatementOrder(stmt) == Some(order)
  {
    var p := |blanks|;
    assert stmt[p..p + |order|] == order && forall k :: 0 <= k < p ==> stmt[k] == blanks[k];
    assert Boundary(stmt, p + |order|);
    if SimpleOrder(order) {
      SimpleOrderFound(stmt, p, order);
    } else {
      var gap :| StartOrder(order, gap);
      StartFound(stmt, p, order, gap);
    }
    SkipsExactly(stmt, 0, p);
  }

  // ----- The directive

  lemma {:induction false} StripRightIs(core: string, c: string)
    requires Blank(c) && (core == "" || !Space(core[|core| - 1]))
    ensures StripRight(core + c) == core
  {
    if c == "" {
      assert core + c == core;
    } else {
      var n := |c| - 1;
      assert (core + c)[..|core + c| - 1] == core + c[..n];
      StripRightIs(core, c[..n]);
    }
  }

  lemma StripIs(a: string, core: string, c: string)
    requires Blank(a) && Blank(c) && (core != "" ==> !Space(core[0]) && !Space(core[|core| - 1]))
    ensures Strip(a + core + c) == core
  {
    var s := a + core + c;
    if core == "" {
      SkipsExactly(s, 0, |s|);
      assert s[|s|..] == "";
    } else {
      SkipsExactly(s, 0, |a|);
      assert s[|a|..] == core + c;
      StripRightIs(core, c);
    }
  }

  lemma {:induction false} StripRightParts(s: string) returns (c: string)
    ensures s == StripRight(s) + c && Blank(c)
    ensures var r := StripRight(s); r != "" ==> !Space(r[|r| - 1])
  {
    hide Space;
    c := "";
    if s != "" && Space(s[|s| - 1]) {
      c := StripRightParts(s[..|s| - 1]);
      c := c + [s[|s| - 1]];
    }
  }

  lemma StripParts(s: string) returns (a: string, c: string)
    ensures s == a + Strip(s) + c && Blank(a) && Blank(c)
    ensures var core := Strip(s); core != "" ==> !Space(core[0]) && !Space(core[|core| - 1])
  {
    hide Space, StripRight;
    var p := SkipSpace(s, 0);
    a := s[..p];
    c := StripRightParts(s[p..]);
    assert s == a + s[p..];
  }

  const DIRECTIVE := "opale:no-transaction"

  ghost predicate SaysNoTransaction(line: string, a: string, b: string, c: string) {
    line == a + "--" + b + "opale:no-transaction" + c && Blank(a) && Blank(b) && Blank(c)
  }

  lemma DirectiveParts(line: string) returns (a: string, b: string, c: string)
    requires Directive(Strip(line))
    ensures SaysNoTransaction(line, a, b, c)
  {
    hide Space, Strip;
    a, c := StripParts(line);
    var core := Strip(line);
    var k := SkipSpace(core, 2);
    b := core[2..k];
    assert core[..2] == "--" && core[k..] == DIRECTIVE;
    assert core == "--" + b + DIRECTIVE;
  }

  /** The directive is two hyphens and its words, with white space before, between and after, and nothing else. */
  lemma DirectiveIff(line: string)
    ensures Directive(Strip(line)) <==> exists a, b, c :: SaysNoTransaction(line, a, b, c)
  {
    hide Directive, Strip, SaysNoTransaction;
    if Directive(Strip(line)) {
      var _, _, _ := DirectiveParts(line);
    }
    if a, b, c :| SaysNoTransaction(line, a, b, c) {
      DirectiveFound(line, a, b, c);
    }
  }

  lemma DirectiveFound(line: string, a: string, b: string, c: string)
    requires SaysNoTransaction(line, a, b, c)
    ensures Directive(Strip(line))
  {
    assert !Space('-') && !Space('n') && !Space('o');
    hide Space, Strip;
    var core := "--" + b + DIRECTIVE;
    assert line == a + core + c;
    assert core[0] == '-' && core[|core| - 1] == 'n';
    StripIs(a, core, c);
    assert core[..2] == "--" && forall k :: 2 <= k < 2 + |b| ==> core[k] == b[k - 2];
    assert core[2 + |b|] == DIRECTIVE[0] == 'o';
    SkipsExactly(core, 2, 2 + |b|);
    assert core[2 + |b|..] == DIRECTIVE;
  }

  /** A comment line is two hyphens after white space; a blank line has white space only. */
  lemma HeaderLineIff(line: string)
    ensures Comment(Strip(line)) <==> exists a, rest :: Blank(a) && line == a + "--" + rest
    ensures Strip(line) == "" <==> Blank(line)
  {
    hide Space;
    var a, c := StripParts(line);
    var core := Strip(line);
    if Comment(core) {
      assert core[..2] == "--" && core == "--" + core[2..];
      assert line == a + "--" + (core[2..] + c);
    }
    if b, rest :| Blank(b) && line == b + "--" + rest {
      CommentFound(line, b, rest);
    }
    if Blank(line) {
      StripIs(line, "", "");
      assert line + "" + "" == line;
    }
  }

  lemma {:induction false} StripRightKeeps(s: string, i: nat)
    requires i < |s| && !Space(s[i])
    ensures StripRight(s) <= s && i < |StripRight(s)|
  {
    if Space(s[|s| - 1]) {
      StripRightKeeps(s[..|s| - 1], i);
    }
  }

  lemma CommentFound(line: string, a: string, rest: string)
    requires Blank(a) && line == a + "--" + rest
    ensures Comment(Strip(line))
  {
    assert !Space('-');
    hide Space;
    var tail := "--" + rest;
    assert line == a + tail && tail[0] == tail[1] == '-';
    SkipsExactly(line, 0, |a|);
    assert line[|a|..] == tail;
    StripRightKeeps(tail, 1);
    assert tail[..2] == "--";
  }
}
