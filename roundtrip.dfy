/** Printing a syntax tree with `unparse` and reading it back with `parse` gives the
    same tree, for every tree that prints unambiguously. */
module RoundTrip {
  import opened Errors
  import opened Ast
  import opened Strings
  import opened Parser
  import opened ParserFacts

  /** A symbol text the parser reads back as that symbol: atom characters other than
      `(` and `;`, and not a boolean or a number. */
  predicate SymbolText(s: string) {
    && |s| > 0
    && (forall k | 0 <= k < |s| :: AtomChar(s[k]) && s[k] != '(' && s[k] != ';')
    && s != "#t" && s != "#f" && !IsDigits(s)
  }

  /** Trees that `unparse` prints unambiguously: symbols as above, integers without a
      sign (the language has no negative literals), every `quote` list with exactly one
      argument, no closures. */
  predicate Canonical(v: Value) {
    match v
    case Sym(s) => SymbolText(s)
    case Int(i) => i >= 0
    case Bool(_) => true
    case List(items) =>
      && (forall x | x in items :: Canonical(x))
      && (|items| > 0 && items[0] == Sym("quote") ==> |items| == 2)
    case Closure(_, _, _, _) => false
  }

  predicate IsQuote(v: Value) {
    v.List? && |v.items| > 0 && v.items[0] == Sym("quote")
  }

  // ---- texts and their parentheses ---------------------------------------------------

  /** Parentheses balance and no prefix closes more than it opened. */
  predicate Balanced(s: string) {
    Depth(s) == 0 && forall k | 0 <= k <= |s| :: Depth(s[..k]) >= 0
  }

  /** Without a `(` there is neither a space nor a `)`. */
  predicate Flat(s: string) {
    '(' !in s ==> ' ' !in s && ')' !in s
  }

  predicate NoSemicolon(s: string) {
    forall k | 0 <= k < |s| :: s[k] != ';'
  }

  /** What every printed canonical tree looks like. */
  predicate Printed(u: string) {
    && u != []
    && Tight(u)
    && NoSemicolon(u)
    && Balanced(u)
    && u[0] != ')'
    && Flat(u)
  }

  /** A printed atom: atom characters only, and a first one that starts neither a
      list nor a quote. */
  predicate AtomText(u: string) {
    && u != []
    && (forall k | 0 <= k < |u| :: AtomChar(u[k]) && u[k] != '(' && u[k] != ';')
    && u[0] != '\''
  }

  lemma NoParensBalanced(s: string)
    requires '(' !in s && ')' !in s
    ensures Balanced(s)
  {
    forall k | 0 <= k <= |s| ensures Depth(s[..k]) == 0 {
      DepthCount(s[..k]);
      CountZero(s[..k], '(');
      CountZero(s[..k], ')');
    }
    assert s[..|s|] == s;
  }

  lemma BalancedConcat(a: string, b: string)
    requires Balanced(a) && Balanced(b)
    ensures Balanced(a + b)
  {
    DepthConcat(a, b);
    forall k | 0 <= k <= |a + b| ensures Depth((a + b)[..k]) >= 0 {
      if k <= |a| {
        assert (a + b)[..k] == a[..k];
      } else {
        assert (a + b)[..k] == a + b[..k - |a|];
        DepthConcat(a, b[..k - |a|]);
      }
    }
  }

  /** A prefix of `(j)` that stops before the closing parenthesis opens one more than
      the same prefix of `j`. */
  lemma DepthOpened(j: string, k: nat)
    requires 0 < k <= |j| + 1
    ensures Depth(("(" + j + ")")[..k]) == 1 + Depth(j[..k - 1])
  {
    var u := "(" + j + ")";
    assert u[..k] == "(" + j[..k - 1];
    DepthConcat("(", j[..k - 1]);
    assert Depth("(") == 1 by {
      assert "("[..0] == [];
    }
  }

  lemma DepthWrapped(j: string)
    ensures Depth("(" + j + ")") == Depth(j)
  {
    DepthConcat("(" + j, ")");
    DepthConcat("(", j);
    assert Depth("(") == 1 && Depth(")") == -1 by {
      assert "("[..0] == [] && ")"[..0] == [];
    }
  }

  /** Parentheses around a balanced text enclose it. */
  lemma EnclosedOf(j: string)
    requires Balanced(j)
    ensures Enclosed("(" + j + ")") && Balanced("(" + j + ")")
  {
    var u := "(" + j + ")";
    DepthWrapped(j);
    forall k | 0 < k < |u| ensures Depth(u[..k]) > 0 {
      DepthOpened(j, k);
    }
    forall k | 0 <= k <= |u| ensures Depth(u[..k]) >= 0 {
      if k == 0 {
        assert u[..k] == [];
      } else if k == |u| {
        assert u[..k] == u;
      }
    }
  }

  // ---- whitespace between printed pieces -------------------------------------------

  lemma CollapsedSnoc(x: string, c: char)
    requires Collapsed(x) && !IsSpace(c)
    ensures Collapsed(x + [c])
  {
    var s := x + [c];
    forall i | 0 <= i < |s| && IsSpace(s[i]) ensures s[i] == ' ' && (i + 1 < |s| ==> !IsSpace(s[i + 1])) {
      assert s[i] == x[i];
      if i + 1 < |x| {
        assert s[i + 1] == x[i + 1];
      }
    }
  }

  lemma TightJoin2(a: string, b: string)
    requires Tight(a) && Tight(b) && a != [] && b != []
    ensures Tight(a + " " + b)
  {
    var s := a + " " + b;
    forall i | 0 <= i < |s| && IsSpace(s[i]) ensures s[i] == ' ' && (i + 1 < |s| ==> !IsSpace(s[i + 1])) {
      if i < |a| {
        assert s[i] == a[i];
        if i + 1 < |a| {
          assert s[i + 1] == a[i + 1];
        }
      } else if i > |a| {
        assert s[i] == b[i - |a| - 1];
        if i + 1 < |s| {
          assert s[i + 1] == b[i - |a|];
        }
      } else {
        assert s[i + 1] == b[0];
      }
    }
  }

  /** Joining tight, balanced, non-empty pieces with single spaces keeps them so. */
  lemma {:induction false} JoinShape(parts: seq<string>)
    requires forall i | 0 <= i < |parts| :: parts[i] != [] && Tight(parts[i]) && Balanced(parts[i])
    ensures Tight(Join(parts, " ")) && Balanced(Join(parts, " "))
    ensures parts != [] ==> Join(parts, " ") != []
  {
    if |parts| == 0 {
      NoParensBalanced("");
    } else if |parts| > 1 {
      var rest := Join(parts[1..], " ");
      JoinShape(parts[1..]);
      TightJoin2(parts[0], rest);
      NoParensBalanced(" ");
      BalancedConcat(parts[0], " ");
      BalancedConcat(parts[0] + " ", rest);
    }
  }

  /** Every character of a join is a separator or comes from one of the pieces. */
  lemma {:induction false} JoinChars(parts: seq<string>, c: char)
    requires c in Join(parts, " ") && c != ' '
    ensures exists i | 0 <= i < |parts| :: c in parts[i]
  {
    if |parts| > 1 {
      var rest := Join(parts[1..], " ");
      assert Join(parts, " ") == parts[0] + " " + rest;
      if c !in parts[0] {
        JoinChars(parts[1..], c);
        var i :| 0 <= i < |parts[1..]| && c in parts[1..][i];
        assert c in parts[i + 1];
      }
    }
  }

  /** No piece is longer than the join. */
  lemma {:induction false} JoinLength(parts: seq<string>, i: nat)
    requires i < |parts|
    ensures |parts[i]| <= |Join(parts, " ")|
  {
    if |parts| > 1 && i > 0 {
      JoinLength(parts[1..], i - 1);
    }
  }

  // ---- what unparse prints ---------------------------------------------------------

  lemma QuoteText(ux: string)
    requires Printed(ux)
    ensures Printed("'" + ux)
  {
    var u := "'" + ux;
    CollapsedCons('\'', ux);
    NoParensBalanced("'");
    BalancedConcat("'", ux);
    forall k | 0 < k < |u| ensures u[k] == ux[k - 1] {
    }
  }

  lemma {:induction false} NoSemicolonJoin(parts: seq<string>)
    requires forall i | 0 <= i < |parts| :: NoSemicolon(parts[i])
    ensures NoSemicolon(Join(parts, " "))
  {
    if |parts| > 1 {
      var rest := Join(parts[1..], " ");
      NoSemicolonJoin(parts[1..]);
      var s := parts[0] + " " + rest;
      forall k | 0 <= k < |s| ensures s[k] != ';' {
        if k < |parts[0]| {
          assert s[k] == parts[0][k];
        } else if k > |parts[0]| {
          assert s[k] == rest[k - |parts[0]| - 1];
        }
      }
    }
  }

  lemma WrappedText(j: string)
    requires Tight(j) && NoSemicolon(j)
    ensures var u := "(" + j + ")"; Tight(u) && NoSemicolon(u) && u != [] && u[0] != ')' && Flat(u)
  {
    var u := "(" + j + ")";
    assert u == [u[0]] + (j + ")");
    CollapsedSnoc(j, ')');
    CollapsedCons('(', j + ")");
    forall k | 0 <= k < |u| ensures u[k] != ';' {
      if 0 < k < |u| - 1 {
        assert u[k] == j[k - 1];
      }
    }
  }

  lemma ListText(parts: seq<string>)
    requires forall i | 0 <= i < |parts| :: Printed(parts[i])
    ensures Printed("(" + Join(parts, " ") + ")") && Enclosed("(" + Join(parts, " ") + ")")
  {
    var j := Join(parts, " ");
    JoinShape(parts);
    EnclosedOf(j);
    NoSemicolonJoin(parts);
    WrappedText(j);
  }

  lemma AtomPrinted(u: string)
    requires AtomText(u)
    ensures Printed(u)
  {
    NoParensBalanced(u);
  }

  /** A canonical tree prints; the text is tight, comment-free and balanced. Atoms print
      as atom characters, other non-quote lists as an enclosed parenthesised text. */
  lemma {:induction false} UnparseText(v: Value)
    requires Canonical(v)
    ensures Unparse(v).Ok? && Printed(Unparse(v).value)
    ensures !v.List? ==> AtomText(Unparse(v).value)
    ensures v.List? && !IsQuote(v) ==> Enclosed(Unparse(v).value)
    decreases v
  {
    match v
    case Sym(s) =>
      AtomPrinted(s);
    case Int(i) =>
      var u := NatToString(i);
      assert forall k | 0 <= k < |u| :: IsDigit(u[k]);
      AtomPrinted(u);
    case Bool(b) =>
      AtomPrinted(if b then "#t" else "#f");
    case List(items) =>
      if IsQuote(v) {
        var x := items[1];
        assert x in items;
        UnparseText(x);
        QuoteText(Unparse(x).value);
      } else {
        UnparseAllText(items);
        ListText(UnparseAll(items).value);
      }
  }

  lemma {:induction false} UnparseAllText(items: seq<Value>)
    requires forall x | x in items :: Canonical(x)
    ensures UnparseAll(items).Ok?
    ensures forall i | 0 <= i < |items| :: Printed(UnparseAll(items).value[i])
    decreases items
  {
    forall i | 0 <= i < |items| ensures Unparse(items[i]).Ok? && Printed(Unparse(items[i]).value) {
      assert items[i] in items;
      UnparseText(items[i]);
    }
  }

  // ---- reading the first printed expression back ---------------------------------

  /** The tails allowed after a printed expression: nothing, or a space-led text that
      does not end in whitespace. */
  predicate Tail(t: string) {
    t == [] || (t[0] == ' ' && !IsSpace(t[|t| - 1]))
  }

  lemma FirstOfAtom(u: string, t: string)
    requires AtomText(u) && Tail(t)
    ensures FirstExpression(u + t) == Ok((u, t))
  {
    var s := u + t;
    StripKeeps(s);
    var n := AtomEnd(s);
    forall k | 0 <= k < |u| ensures AtomChar(s[k]) {
      assert s[k] == u[k];
    }
    if |u| < |s| {
      assert s[|u|] == ' ';
    }
    assert n == |u|;
    assert s[..n] == u && s[n..] == t;
  }

  /** A quote followed by a first expression gives the quoted expression. */
  lemma FirstOfQuoted(s: string, e: string, t: string)
    requires s != [] && s[0] == '\'' && Strip(s) == s
    requires FirstExpression(s[1..]) == Ok((e, t))
    ensures FirstExpression(s) == Ok(("'" + e, t))
  {
    FirstExpressionQuote(s);
  }

  lemma QuoteTail(ux: string, t: string)
    ensures var s := "'" + ux + t; s != [] && s[0] == '\'' && s[1..] == ux + t
  {
  }

  lemma QuoteStripped(ux: string, t: string)
    requires ux != [] && !IsSpace(ux[|ux| - 1]) && Tail(t)
    ensures var s := "'" + ux + t; Strip(s) == s
  {
    var s := "'" + ux + t;
    assert s[|s| - 1] == if t == [] then ux[|ux| - 1] else t[|t| - 1];
    StripKeeps(s);
  }

  lemma FirstOfQuote(ux: string, t: string)
    requires ux != [] && !IsSpace(ux[|ux| - 1]) && Tail(t)
    requires FirstExpression(ux + t) == Ok((ux, t))
    ensures FirstExpression("'" + ux + t) == Ok(("'" + ux, t))
  {
    QuoteTail(ux, t);
    QuoteStripped(ux, t);
    FirstOfQuoted("'" + ux + t, ux, t);
  }

  /** The parenthesis opening an enclosed text matches its last character, whatever
      follows it. */
  lemma EnclosedMatch(u: string, t: string)
    requires Enclosed(u)
    ensures MatchingParen(u + t, 0) == Ok(|u| - 1)
  {
    var s := u + t;
    forall k | 0 <= k < |u| ensures DepthTo(s, 0, k) == Depth(u[..k + 1]) {
      assert s[0..k + 1] == u[..k + 1];
    }
    assert u[..|u|] == u;
    MatchingParenAt(s, 0, |u| - 1);
  }

  lemma FirstOfEnclosed(u: string, t: string)
    requires Enclosed(u) && Tail(t)
    ensures FirstExpression(u + t) == Ok((u, t))
  {
    var s := u + t;
    StripKeeps(s);
    EnclosedMatch(u, t);
    assert s[..|u|] == u && s[|u|..] == t;
  }

  /** The quote case of the lemma below. */
  lemma FirstOfQuoteOf(v: Value, t: string)
    requires Canonical(v) && IsQuote(v) && Tail(t)
    requires var x := v.items[1];
      Unparse(x).Ok? && FirstExpression(Unparse(x).value + t) == Ok((Unparse(x).value, t))
    ensures Unparse(v).Ok? && FirstExpression(Unparse(v).value + t) == Ok((Unparse(v).value, t))
  {
    var x := v.items[1];
    assert x in v.items;
    UnparseText(x);
    var ux := Unparse(x).value;
    assert Unparse(v) == Ok("'" + ux);
    FirstOfQuote(ux, t);
  }

  /** The first expression of a printed tree followed by an allowed tail is that
      printed tree. */
  lemma {:induction false} FirstOfUnparse(v: Value, t: string)
    requires Canonical(v) && Tail(t)
    ensures Unparse(v).Ok? && FirstExpression(Unparse(v).value + t) == Ok((Unparse(v).value, t))
    decreases v
  {
    if !v.List? {
      UnparseText(v);
      FirstOfAtom(Unparse(v).value, t);
    } else if IsQuote(v) {
      assert v.items[1] in v.items;
      FirstOfUnparse(v.items[1], t);
      FirstOfQuoteOf(v, t);
    } else {
      UnparseText(v);
      FirstOfEnclosed(Unparse(v).value, t);
    }
  }

  lemma FirstExpressionSameStrip(a: string, b: string)
    requires Strip(a) == Strip(b)
    ensures FirstExpression(a) == FirstExpression(b)
  {
  }

  lemma SplitFromSameFirst(a: string, b: string)
    requires a != [] && b != [] && FirstExpression(a) == FirstExpression(b)
    ensures SplitFrom(a) == SplitFrom(b)
  {
  }

  lemma SplitFromSpace(rest: string)
    requires rest != [] && Tight(rest)
    ensures SplitFrom(" " + rest) == SplitFrom(rest)
  {
    var s := " " + rest;
    assert s[1..] == rest && IsSpace(s[0]);
    StripKeeps(rest);
    assert TrimLeft(s) == TrimLeft(rest);
    assert Strip(s) == Strip(rest);
    FirstExpressionSameStrip(s, rest);
    SplitFromSameFirst(s, rest);
  }

  /** One step of split_exps over a space-joined text: the first piece comes off, and
      the rest is split as before. */
  lemma SplitJoinedStep(p0: string, ps: seq<string>)
    requires ps != [] && Join(ps, " ") != [] && Tight(Join(ps, " "))
    requires FirstExpression(p0 + (" " + Join(ps, " "))) == Ok((p0, " " + Join(ps, " ")))
    requires SplitFrom(Join(ps, " ")) == Ok(ps)
    ensures SplitFrom(Join([p0] + ps, " ")) == Ok([p0] + ps)
  {
    var rest := Join(ps, " ");
    var s := p0 + (" " + rest);
    JoinCons(p0, ps);
    SplitFromStep(s);
    SplitFromSpace(rest);
    assert SplitFrom(s) == Prepend([p0], Ok(ps));
  }

  /** `split_exps` on the space-joined printed trees gives back the printed trees. */
  lemma {:induction false} SplitUnparsed(items: seq<Value>)
    requires forall x | x in items :: Canonical(x)
    ensures UnparseAll(items).Ok? && SplitFrom(Join(UnparseAll(items).value, " ")) == Ok(UnparseAll(items).value)
    decreases items
  {
    UnparseAllText(items);
    var parts := UnparseAll(items).value;
    assert items != [] ==> items[0] in items;
    if |items| == 1 {
      FirstOfUnparse(items[0], []);
      assert parts[0] + [] == parts[0];
    } else if |items| > 1 {
      UnparseAllText(items[1..]);
      var tailParts := UnparseAll(items[1..]).value;
      assert tailParts == parts[1..];
      var rest := Join(tailParts, " ");
      JoinShape(tailParts);
      FirstOfUnparse(items[0], " " + rest);
      SplitUnparsed(items[1..]);
      SplitJoinedStep(parts[0], tailParts);
      assert [parts[0]] + parts[1..] == parts;
    }
  }

  // ---- reading printed trees back ---------------------------------------------------

  /** Splitting a join at its separator gives back the parts when no part holds it. */
  lemma {:induction false} SplitOnJoin(parts: seq<string>, c: char)
    requires |parts| >= 1
    requires forall i | 0 <= i < |parts| :: c !in parts[i]
    ensures SplitOn(Join(parts, [c]), c) == parts
  {
    if |parts| > 1 {
      var rest := Join(parts[1..], [c]);
      var s := Join(parts, [c]);
      assert s == parts[0] + [c] + rest;
      IndexOfAfter(parts[0], c, rest);
      assert s[..|parts[0]|] == parts[0];
      assert s[|parts[0]| + 1..] == rest;
      SplitOnJoin(parts[1..], c);
      assert [parts[0]] + parts[1..] == parts;
    }
  }

  /** The flat branch of parse_tokens: no piece has a parenthesis, so removing the
      outer pair and splitting at spaces gives the pieces. */
  lemma FlatList(parts: seq<string>, j: string)
    requires |parts| >= 1 && forall i | 0 <= i < |parts| :: Printed(parts[i])
    requires j == Join(parts, " ") && '(' !in j
    ensures SplitOn(RemoveParens("(" + j + ")"), ' ') == parts
  {
    FlatPieces(parts);
    RemoveParensWrapped(j);
    RemoveParensNone(j);
    SplitOnJoin(parts, ' ');
  }

  lemma CountWrapped(j: string, c: char)
    ensures Count("(" + j + ")", c) == Count("(", c) + Count(j, c) + Count(")", c)
  {
    assert "(" + j + ")" == "(" + (j + ")");
    CountConcat("(", j + ")", c);
    CountConcat(j, ")", c);
  }

  /** When the join has no `(`, no piece has a parenthesis or a space, and neither
      does the join have a `)`. */
  lemma FlatPieces(parts: seq<string>)
    requires forall i | 0 <= i < |parts| :: Printed(parts[i])
    requires '(' !in Join(parts, " ")
    ensures forall i | 0 <= i < |parts| :: ' ' !in parts[i]
    ensures ')' !in Join(parts, " ")
  {
    forall i | 0 <= i < |parts| ensures '(' !in parts[i] {
      if '(' in parts[i] {
        var m :| 0 <= m < |parts[i]| && parts[i][m] == '(';
        PieceInJoin(parts, i, m);
      }
    }
    if ')' in Join(parts, " ") {
      JoinChars(parts, ')');
    }
  }

  /** A character of a piece is a character of the join. */
  lemma {:induction false} PieceInJoin(parts: seq<string>, i: nat, m: nat)
    requires i < |parts| && m < |parts[i]|
    ensures parts[i][m] in Join(parts, " ")
  {
    if |parts| > 1 {
      assert Join(parts, " ") == parts[0] + " " + Join(parts[1..], " ");
      if i > 0 {
        PieceInJoin(parts[1..], i - 1, m);
      }
    }
  }

  /** The flat branch of parse_tokens, once its pieces are known. */
  lemma AstOfFlat(u: string, pieces: seq<string>, items: seq<Value>)
    requires u != "()" && u != [] && u[0] == '('
    requires Count(u, '(') == 1 && Count(u, ')') == 1
    requires SplitOn(RemoveParens(u), ' ') == pieces
    requires (forall p | p in pieces :: |p| < |u|) && AstsOf(pieces, |u|) == Ok(items)
    ensures AstOf(u) == Ok(List(items))
  {
  }

  /** The general branch of parse_tokens, once the match and the pieces are known. */
  lemma AstOfNested(u: string, last: nat, pieces: seq<string>, items: seq<Value>)
    requires u != "()" && u != [] && u[0] == '('
    requires !(Count(u, '(') == 1 && Count(u, ')') == 1) && !(Count(u, '(') < Count(u, ')'))
    requires MatchingParen(u, 0) == Ok(last) && last < |u|
    requires SplitFrom(Strip(u[1..last])) == Ok(pieces)
    requires (forall p | p in pieces :: |p| < |u|) && AstsOf(pieces, |u|) == Ok(items)
    ensures AstOf(u) == Ok(List(items))
  {
  }

  /** parse_tokens on a printed non-empty list: whichever branch applies, the result is
      the list of the parsed pieces. */
  lemma AstOfListText(parts: seq<string>, items: seq<Value>)
    requires |parts| >= 1 && forall i | 0 <= i < |parts| :: Printed(parts[i])
    requires SplitFrom(Join(parts, " ")) == Ok(parts)
    requires var u := "(" + Join(parts, " ") + ")";
      (forall p | p in parts :: |p| < |u|) && AstsOf(parts, |u|) == Ok(items)
    ensures AstOf("(" + Join(parts, " ") + ")") == Ok(List(items))
  {
    var j := Join(parts, " ");
    var u := "(" + j + ")";
    ListText(parts);
    JoinShape(parts);
    assert u != "()";
    DepthCount(u);
    if Count(u, '(') == 1 && Count(u, ')') == 1 {
      CountWrapped(j, '(');
      CountZero(j, '(');
      FlatList(parts, j);
      AstOfFlat(u, parts, items);
    } else {
      EnclosedMatch(u, []);
      assert u + [] == u;
      assert u[1..|u| - 1] == j;
      StripKeeps(j);
      AstOfNested(u, |u| - 1, parts, items);
    }
  }

  /** Each printed piece parses back to its tree. */
  lemma {:induction false} AstsOfUnparsed(items: seq<Value>, bound: nat)
    requires forall x | x in items :: Canonical(x)
    requires UnparseAll(items).Ok?
    requires forall p | p in UnparseAll(items).value :: |p| < bound
    ensures AstsOf(UnparseAll(items).value, bound) == Ok(items)
    decreases items, 0
  {
    if items != [] {
      var parts := UnparseAll(items).value;
      assert items[0] in items;
      AstOfUnparse(items[0]);
      assert parts[0] in parts;
      assert UnparseAll(items[1..]).value == parts[1..];
      forall p | p in parts[1..] ensures |p| < bound {
        assert p in parts;
      }
      AstsOfUnparsed(items[1..], bound);
      assert [items[0]] + items[1..] == items;
    }
  }

  lemma PartsShorter(parts: seq<string>)
    ensures forall p | p in parts :: |p| < |"(" + Join(parts, " ") + ")"|
  {
    forall p | p in parts ensures |p| < |"(" + Join(parts, " ") + ")"| {
      var i :| 0 <= i < |parts| && parts[i] == p;
      JoinLength(parts, i);
    }
  }

  /** `parse_tokens` reads a printed canonical tree back as that tree. */
  lemma {:induction false} AstOfUnparse(v: Value)
    requires Canonical(v)
    ensures Unparse(v).Ok? && AstOf(Unparse(v).value) == Ok(v)
    decreases v
  {
    match v
    case Sym(s) =>
      UnparseText(v);
    case Int(i) =>
      UnparseText(v);
      NatToStringValue(i);
    case Bool(b) =>
    case List(items) =>
      if IsQuote(v) {
        assert items[1] in items;
        AstOfUnparse(items[1]);
        AstOfUnparseQuote(v);
      } else if items == [] {
        assert Unparse(v).value == "()";
      } else {
        AstOfUnparseList(items);
      }
  }

  /** The quote case of the lemma above. */
  lemma AstOfUnparseQuote(v: Value)
    requires Canonical(v) && IsQuote(v)
    requires var x := v.items[1]; Unparse(x).Ok? && AstOf(Unparse(x).value) == Ok(x)
    ensures Unparse(v).Ok? && AstOf(Unparse(v).value) == Ok(v)
  {
    var x := v.items[1];
    var ux := Unparse(x).value;
    var tok := "'" + ux;
    assert Unparse(v) == Ok(tok);
    assert tok[0] == '\'' && tok[1..] == ux && tok != "()" && tok != [];
    assert AstOf(tok) == Ok(List([Sym("quote"), x]));
    assert v.items == [Sym("quote"), x];
  }

  /** The case of a non-empty list that is not a quote. */
  lemma {:induction false} AstOfUnparseList(items: seq<Value>)
    requires Canonical(List(items)) && items != [] && !IsQuote(List(items))
    ensures Unparse(List(items)).Ok? && AstOf(Unparse(List(items)).value) == Ok(List(items))
    decreases items, 1
  {
    UnparseAllText(items);
    var parts := UnparseAll(items).value;
    var u := "(" + Join(parts, " ") + ")";
    assert Unparse(List(items)) == Ok(u);
    PartsShorter(parts);
    AstsOfUnparsed(items, |u|);
    SplitUnparsed(items);
    AstOfListText(parts, items);
  }

  /** Unparse then parse is the identity on canonical trees. */
  lemma ParseUnparse(v: Value)
    requires Canonical(v)
    ensures Unparse(v).Ok? && Parsed(Unparse(v).value) == Ok(v)
  {
    UnparseText(v);
    var u := Unparse(v).value;
    assert NoLiveComment(u);
    RemoveCommentsKeeps(u);
    NormalizeKeeps(u);
    AstOfUnparse(v);
  }

  /** Parsing each printed tree on its own gives the trees back. */
  lemma {:induction false} ParsedEachUnparsed(items: seq<Value>)
    requires forall x | x in items :: Canonical(x)
    ensures UnparseAll(items).Ok? && ParsedEach(UnparseAll(items).value) == Ok(items)
    decreases items
  {
    UnparseAllText(items);
    if items != [] {
      var parts := UnparseAll(items).value;
      assert items[0] in items;
      ParseUnparse(items[0]);
      assert forall x | x in items[1..] :: x in items;
      ParsedEachUnparsed(items[1..]);
      assert parts[1..] == UnparseAll(items[1..]).value;
      assert [items[0]] + items[1..] == items;
    }
  }

  /** `parse_multiple` reads back a sequence of canonical trees printed one after the
      other with single spaces between them. */
  lemma ParseMultipleUnparse(items: seq<Value>)
    requires forall x | x in items :: Canonical(x)
    ensures UnparseAll(items).Ok? && ParsedAll(Join(UnparseAll(items).value, " ")) == Ok(items)
  {
    UnparseAllText(items);
    var parts := UnparseAll(items).value;
    var j := Join(parts, " ");
    NoSemicolonJoin(parts);
    RemoveCommentsKeeps(j);
    JoinShape(parts);
    StripKeeps(j);
    SplitUnparsed(items);
    ParsedEachUnparsed(items);
  }
}
