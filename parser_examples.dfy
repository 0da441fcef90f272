/** How `parse` reads atoms, quotes and bad lists, and the behaviour the parser's
    own examples pin down, including the corners where it does not undo `unparse`. */
module ParserExamples {
  import opened Errors
  import opened Ast
  import opened Strings
  import opened Parser
  import opened ParserFacts
  import opened RoundTrip

  /** A token that does not start a list or a quote is `#t`, `#f`, an integer when it
      is all digits, and otherwise a symbol with the same text. */
  lemma ParseAtomToken(t: string)
    requires t != [] && t[0] != '(' && t[0] != '\''
    ensures AstOf(t) ==
      if t == "#t" then Ok(Bool(true))
      else if t == "#f" then Ok(Bool(false))
      else if IsDigits(t) then Ok(Int(DigitsValue(t)))
      else Ok(Sym(t))
    ensures AstOf(t).Ok? && (AstOf(t).value.Sym? ==> AstOf(t).value.name == t)
  {
  }

  /** `'x` reads as the two-element list `quote`, then what `x` reads as. */
  lemma ParseQuoteToken(x: string)
    ensures AstOf("'" + x) ==
      match AstOf(x)
      case Ok(v) => Ok(List([Sym("quote"), v]))
      case Err(e) => Err(e)
  {
    var t := "'" + x;
    assert t[0] == '\'' && t[1..] == x;
    assert t != "()" && t != [];
  }

  lemma BracketCounts()
    ensures Count("()", '(') == 1 && Count("()", ')') == 1
  {
    assert "()"[1..] == ")";
    assert ")"[1..] == [];
  }

  /** More closing than opening parentheses is refused. */
  lemma ParseExpectedEof(tokens: string)
    requires tokens != [] && tokens[0] == '(' && Count(tokens, '(') < Count(tokens, ')')
    ensures AstOf(tokens) == Err(ExpectedEof)
  {
    BracketCounts();
  }

  /** A list that opens more than it closes and never gets back to depth zero is
      refused with the text from its opening parenthesis. */
  lemma ParseIncomplete(tokens: string)
    requires tokens != [] && tokens[0] == '(' && Count(tokens, '(') > Count(tokens, ')')
    requires forall k | 0 <= k < |tokens| :: DepthTo(tokens, 0, k) > 0
    ensures AstOf(tokens) == Err(Incomplete(tokens))
  {
    MatchingParenSpec(tokens, 0);
    assert tokens[0..] == tokens;
    BracketCounts();
  }

  /** `(foo` is incomplete. */
  lemma ParseIncompleteExample()
    ensures AstOf("(foo") == Err(Incomplete("(foo"))
  {
    var s := "(foo";
    assert s == "(" + "foo";
    assert "("[1..] == [];
    CountConcat("(", "foo", '(');
    CountConcat("(", "foo", ')');
    CountZero("foo", '(');
    CountZero("foo", ')');
    forall k | 0 <= k < |s| ensures DepthTo(s, 0, k) > 0 {
      var p := s[0..k + 1];
      DepthCount(p);
      assert p == "(" + s[1..k + 1];
      CountConcat("(", s[1..k + 1], '(');
      CountConcat("(", s[1..k + 1], ')');
      CountZero(s[1..k + 1], ')');
    }
    ParseIncomplete(s);
  }

  lemma SpacedCounts()
    ensures Count("( a )", '(') == 1 && Count("( a )", ')') == 1
  {
    var s := "( a )";
    assert s == ("(" + " a ") + ")";
    assert ")"[1..] == [] && "("[1..] == [];
    CountConcat("(" + " a ", ")", '(');
    CountConcat("(", " a ", '(');
    CountConcat("(" + " a ", ")", ')');
    CountConcat("(", " a ", ')');
    CountZero(" a ", '(');
    CountZero(" a ", ')');
  }

  lemma SpacedInner()
    ensures RemoveParens("( a )") == " a "
  {
    assert "( a )" == "(" + " a " + ")";
    RemoveParensWrapped(" a ");
    RemoveParensNone(" a ");
  }

  lemma SpacedJoin()
    ensures Join(["", "a", ""], [' ']) == " a "
  {
    JoinThree("", "a", "", " ");
    assert "" + " " + "a" + " " + "" == " a ";
  }

  lemma SpacedPieces()
    ensures SplitOn(RemoveParens("( a )"), ' ') == ["", "a", ""]
  {
    var parts := ["", "a", ""];
    SpacedInner();
    SpacedJoin();
    assert forall i | 0 <= i < |parts| :: ' ' !in parts[i];
    SplitOnJoin(parts, ' ');
  }

  /** Spaces just inside the parentheses of a flat list make `split(' ')` produce
      empty tokens, and parsing an empty token indexes into an empty string. */
  lemma ParseSpacedFlatList()
    ensures AstOf("( a )") == Err(Host(IndexError))
  {
    SpacedCounts();
    SpacedPieces();
    assert "( a )" != "()";
    assert AstOf("") == Err(Host(IndexError));
    assert AstsOf(["", "a", ""], 5) == Err(Host(IndexError));
  }

  /** A negative integer prints with a minus sign, which then reads back as a symbol:
      `parse` only turns all-digit tokens into integers. */
  lemma NegativeIntegerReadsAsSymbol()
    ensures Unparse(Int(-5)) == Ok("-5")
    ensures AstOf("-5") == Ok(Sym("-5"))
  {
    assert NatToString(5) == "5" by {
      assert ('0' as int + 5) as char == '5';
    }
    assert IntToString(-5) == "-" + NatToString(5);
    assert "-" + "5" == "-5";
    ParseAtomToken("-5");
  }

  // ---- printing step by step ---------------------------------------------------------

  lemma UnparseQuoteOf(x: Value, u: string)
    requires Unparse(x) == Ok(u)
    ensures Unparse(List([Sym("quote"), x])) == Ok("'" + u)
  {
    assert [Sym("quote"), x][1] == x;
  }

  lemma UnparseListOf(items: seq<Value>, parts: seq<string>)
    requires UnparseAll(items) == Ok(parts) && (items != [] ==> items[0] != Sym("quote"))
    ensures Unparse(List(items)) == Ok("(" + Join(parts, " ") + ")")
  {
  }

  lemma UnparseAllCons(x: Value, xs: seq<Value>, u: string, us: seq<string>)
    requires Unparse(x) == Ok(u) && UnparseAll(xs) == Ok(us)
    ensures UnparseAll([x] + xs) == Ok([u] + us)
  {
    assert ([x] + xs)[1..] == xs;
  }

  lemma UnparseAllOne(x: Value, u: string)
    requires Unparse(x) == Ok(u)
    ensures UnparseAll([x]) == Ok([u])
  {
    UnparseAllCons(x, [], u, []);
    assert [x] + [] == [x] && [u] + [] == [u];
  }

  /** A word of lower-case letters reads back as a symbol. */
  lemma LowerCaseSymbol(s: string)
    requires |s| > 1 && forall k | 0 <= k < |s| :: 'a' <= s[k] <= 'z'
    ensures SymbolText(s)
  {
    assert !IsDigit(s[0]);
  }

  lemma SymbolTexts()
    ensures SymbolText("this") && SymbolText("makes") && SymbolText("no") && SymbolText("sense")
    ensures SymbolText("foo") && SymbolText("bar") && SymbolText("baz") && SymbolText("quote")
  {
    LowerCaseSymbol("this");
    LowerCaseSymbol("makes");
    LowerCaseSymbol("no");
    LowerCaseSymbol("sense");
    LowerCaseSymbol("foo");
    LowerCaseSymbol("bar");
    LowerCaseSymbol("baz");
    LowerCaseSymbol("quote");
  }

  /** Four quotes nest four quote lists around the symbol. */
  lemma ParseFourQuotes()
    ensures Parsed("''''foo") ==
      Ok(List([Sym("quote"), List([Sym("quote"), List([Sym("quote"), List([Sym("quote"), Sym("foo")])])])]))
  {
    var q1 := List([Sym("quote"), Sym("foo")]);
    var q2 := List([Sym("quote"), q1]);
    var q3 := List([Sym("quote"), q2]);
    var q4 := List([Sym("quote"), q3]);
    UnparseQuoteOf(Sym("foo"), "foo");
    UnparseQuoteOf(q1, "'" + "foo");
    UnparseQuoteOf(q2, "'" + ("'" + "foo"));
    UnparseQuoteOf(q3, "'" + ("'" + ("'" + "foo")));
    assert "'" + ("'" + ("'" + ("'" + "foo"))) == "''''foo";
    SymbolTexts();
    assert forall x | x in q1.items :: Canonical(x);
    assert forall x | x in q2.items :: Canonical(x);
    assert forall x | x in q3.items :: Canonical(x);
    assert forall x | x in q4.items :: Canonical(x);
    ParseUnparse(q4);
  }

  lemma JoinTwo(a: string, b: string, sep: string)
    ensures Join([a, b], sep) == a + sep + b
  {
    assert [a, b][1..] == [b];
  }

  lemma JoinThree(a: string, b: string, c: string, sep: string)
    ensures Join([a, b, c], sep) == a + sep + b + sep + c
  {
    assert [a, b, c][1..] == [b, c];
    JoinTwo(b, c, sep);
  }

  /** A two-element list not headed by `quote` prints as its elements in parentheses. */
  lemma UnparseTwo(x: Value, y: Value, ux: string, uy: string)
    requires Unparse(x) == Ok(ux) && Unparse(y) == Ok(uy) && x != Sym("quote")
    ensures Unparse(List([x, y])) == Ok("(" + ux + " " + uy + ")")
  {
    UnparseAllTwo(x, y, ux, uy);
    UnparseListOf([x, y], [ux, uy]);
    ParenTwo(ux, uy);
  }

  lemma UnparseAllTwo(x: Value, y: Value, ux: string, uy: string)
    requires Unparse(x) == Ok(ux) && Unparse(y) == Ok(uy)
    ensures UnparseAll([x, y]) == Ok([ux, uy])
  {
    UnparseAllOne(y, uy);
    UnparseAllCons(x, [y], ux, [uy]);
    assert [x] + [y] == [x, y] && [ux] + [uy] == [ux, uy];
  }

  lemma ParenTwo(a: string, b: string)
    ensures "(" + Join([a, b], " ") + ")" == "(" + a + " " + b + ")"
  {
    JoinTwo(a, b, " ");
    assert "(" + (a + " " + b) + ")" == "(" + a + " " + b + ")";
  }

  lemma UnparseThree(x: Value, y: Value, z: Value, ux: string, uy: string, uz: string)
    requires Unparse(x) == Ok(ux) && Unparse(y) == Ok(uy) && Unparse(z) == Ok(uz)
    requires x != Sym("quote")
    ensures Unparse(List([x, y, z])) == Ok("(" + ux + " " + uy + " " + uz + ")")
  {
    UnparseAllThree(x, y, z, ux, uy, uz);
    UnparseListOf([x, y, z], [ux, uy, uz]);
    ParenThree(ux, uy, uz);
  }

  lemma UnparseAllThree(x: Value, y: Value, z: Value, ux: string, uy: string, uz: string)
    requires Unparse(x) == Ok(ux) && Unparse(y) == Ok(uy) && Unparse(z) == Ok(uz)
    ensures UnparseAll([x, y, z]) == Ok([ux, uy, uz])
  {
    UnparseAllOne(z, uz);
    UnparseAllCons(y, [z], uy, [uz]);
    assert [y] + [z] == [y, z] && [uy] + [uz] == [uy, uz];
    UnparseAllCons(x, [y, z], ux, [uy, uz]);
    assert [x] + [y, z] == [x, y, z] && [ux] + [uy, uz] == [ux, uy, uz];
  }

  lemma ParenThree(a: string, b: string, c: string)
    ensures "(" + Join([a, b, c], " ") + ")" == "(" + a + " " + b + " " + c + ")"
  {
    JoinThree(a, b, c, " ");
    assert "(" + (a + " " + b + " " + c) + ")" == "(" + a + " " + b + " " + c + ")";
  }

  lemma UnparseMakesNo()
    ensures Unparse(List([Sym("makes"), List([Sym("quote"), List([Sym("quote"), Sym("no")])])])) ==
      Ok("(makes ''no)")
  {
    var no1 := List([Sym("quote"), Sym("no")]);
    var no := List([Sym("quote"), no1]);
    UnparseQuoteOf(Sym("no"), "no");
    UnparseQuoteOf(no1, "'" + "no");
    UnparseTwo(Sym("makes"), no, "makes", "'" + ("'" + "no"));
    assert "(" + "makes" + " " + ("'" + ("'" + "no")) + ")" == "(makes ''no)";
  }

  /** Four quotes in front of any printable tree. */
  lemma UnparseFourQuotes(x: Value, u: string)
    requires Unparse(x) == Ok(u)
    ensures Unparse(List([Sym("quote"), List([Sym("quote"), List([Sym("quote"), List([Sym("quote"),
        x])])])])) == Ok("''''" + u)
  {
    var q1 := List([Sym("quote"), x]);
    var q2 := List([Sym("quote"), q1]);
    var q3 := List([Sym("quote"), q2]);
    UnparseQuoteOf(x, u);
    UnparseQuoteOf(q1, "'" + u);
    UnparseQuoteOf(q2, "'" + ("'" + u));
    UnparseQuoteOf(q3, "'" + ("'" + ("'" + u)));
    assert "'" + ("'" + ("'" + ("'" + u))) == "''''" + u;
  }

  /** The printed form of `''''(makes ''no)`. */
  lemma CrazyInner(makes: Value)
    requires Unparse(makes) == Ok("(makes ''no)")
    ensures Unparse(List([Sym("quote"), List([Sym("quote"), List([Sym("quote"), List([Sym("quote"),
        makes])])])])) == Ok("''''(makes ''no)")
  {
    UnparseFourQuotes(makes, "(makes ''no)");
    assert "''''" + "(makes ''no)" == "''''(makes ''no)";
  }

  /** The printed form of the whole example. */
  lemma CrazyText(q4: Value)
    requires Unparse(q4) == Ok("''''(makes ''no)")
    ensures Unparse(List([Sym("quote"), List([Sym("this"), q4, List([Sym("quote"), Sym("sense")])])])) ==
      Ok("'(this ''''(makes ''no) 'sense)")
  {
    var sense := List([Sym("quote"), Sym("sense")]);
    var body := List([Sym("this"), q4, sense]);
    var uq4 := "''''(makes ''no)";
    UnparseQuoteOf(Sym("sense"), "sense");
    UnparseThree(Sym("this"), q4, sense, "this", uq4, "'" + "sense");
    UnparseQuoteOf(body, "(" + "this" + " " + uq4 + " " + ("'" + "sense") + ")");
    CrazyString();
  }

  lemma CrazyString()
    ensures "'" + ("(" + "this" + " " + "''''(makes ''no)" + " " + ("'" + "sense") + ")") ==
      "'(this ''''(makes ''no) 'sense)"
  {
  }

  lemma CanonicalQuote(x: Value)
    requires Canonical(x)
    ensures Canonical(List([Sym("quote"), x]))
  {
    SymbolTexts();
  }

  lemma CrazyCanonical(makes: Value)
    requires makes == List([Sym("makes"), List([Sym("quote"), List([Sym("quote"), Sym("no")])])])
    ensures Canonical(List([Sym("quote"), List([
        Sym("this"),
        List([Sym("quote"), List([Sym("quote"), List([Sym("quote"), List([Sym("quote"), makes])])])]),
        List([Sym("quote"), Sym("sense")])])]))
  {
    var no1 := List([Sym("quote"), Sym("no")]);
    var no := List([Sym("quote"), no1]);
    var q1 := List([Sym("quote"), makes]);
    var q2 := List([Sym("quote"), q1]);
    var q3 := List([Sym("quote"), q2]);
    var q4 := List([Sym("quote"), q3]);
    var sense := List([Sym("quote"), Sym("sense")]);
    var body := List([Sym("this"), q4, sense]);
    SymbolTexts();
    CanonicalQuote(Sym("no"));
    CanonicalQuote(no1);
    assert forall x | x in makes.items :: Canonical(x);
    CanonicalQuote(makes);
    CanonicalQuote(q1);
    CanonicalQuote(q2);
    CanonicalQuote(q3);
    CanonicalQuote(Sym("sense"));
    assert forall x | x in body.items :: Canonical(x);
    CanonicalQuote(body);
  }

  /** The example expression whose printed form reads back as itself. */
  lemma CrazyQuoteCombo()
    ensures var v := List([Sym("quote"), List([
        Sym("this"),
        List([Sym("quote"), List([Sym("quote"), List([Sym("quote"), List([Sym("quote"),
          List([Sym("makes"), List([Sym("quote"), List([Sym("quote"), Sym("no")])])])])])])]),
        List([Sym("quote"), Sym("sense")])])]);
      Unparse(v) == Ok("'(this ''''(makes ''no) 'sense)") &&
      Parsed("'(this ''''(makes ''no) 'sense)") == Ok(v)
  {
    var makes := List([Sym("makes"), List([Sym("quote"), List([Sym("quote"), Sym("no")])])]);
    var q4 := List([Sym("quote"), List([Sym("quote"), List([Sym("quote"), List([Sym("quote"), makes])])])]);
    UnparseMakesNo();
    CrazyInner(makes);
    CrazyText(q4);
    CrazyCanonical(makes);
    ParseUnparse(List([Sym("quote"), List([Sym("this"), q4, List([Sym("quote"), Sym("sense")])])]));
  }

  lemma SplitExampleText()
    ensures UnparseAll([Sym("foo"), Sym("bar"), List([Sym("baz"), Int(123)])]) ==
      Ok(["foo", "bar", "(baz 123)"])
  {
    var baz := List([Sym("baz"), Int(123)]);
    UnparseBaz();
    UnparseAllThree(Sym("foo"), Sym("bar"), baz, "foo", "bar", "(baz 123)");
  }

  lemma UnparseBaz()
    ensures Unparse(List([Sym("baz"), Int(123)])) == Ok("(baz 123)")
  {
    assert NatToString(123) == "123" by {
      assert NatToString(1) == "1";
      assert NatToString(12) == "12";
    }
    UnparseTwo(Sym("baz"), Int(123), "baz", "123");
    assert "(" + "baz" + " " + "123" + ")" == "(baz 123)";
  }

  lemma SplitExampleCanonical()
    ensures forall x | x in [Sym("foo"), Sym("bar"), List([Sym("baz"), Int(123)])] :: Canonical(x)
  {
    var baz := List([Sym("baz"), Int(123)]);
    SymbolTexts();
    assert Canonical(Int(123));
    assert forall x | x in baz.items :: Canonical(x);
  }

  lemma SplitExampleJoined()
    ensures SplitFrom("foo bar (baz 123)") == Ok(["foo", "bar", "(baz 123)"])
  {
    var items := [Sym("foo"), Sym("bar"), List([Sym("baz"), Int(123)])];
    SplitExampleText();
    SplitExampleJoin();
    SplitExampleCanonical();
    SplitOfPrinted(items, ["foo", "bar", "(baz 123)"], "foo bar (baz 123)");
  }

  lemma SplitExampleJoin()
    ensures Join(["foo", "bar", "(baz 123)"], " ") == "foo bar (baz 123)"
  {
    JoinThree("foo", "bar", "(baz 123)", " ");
    assert "foo" + " " + "bar" + " " + "(baz 123)" == "foo bar (baz 123)";
  }

  lemma SplitOfPrinted(items: seq<Value>, parts: seq<string>, text: string)
    requires forall x | x in items :: Canonical(x)
    requires UnparseAll(items) == Ok(parts) && Join(parts, " ") == text
    ensures SplitFrom(text) == Ok(parts)
  {
    SplitUnparsed(items);
  }

  /** `split_exps("foo bar (baz 123)")` */
  lemma SplitExample()
    ensures SplitFrom(Strip("foo bar (baz 123)")) == Ok(["foo", "bar", "(baz 123)"])
  {
    SplitExampleJoined();
    StripKeeps("foo bar (baz 123)");
  }

  // ---- several expressions in one program -------------------------------------------

  lemma UnparseDigit(i: nat)
    requires i < 10
    ensures Unparse(Int(i)) == Ok([('0' as int + i) as char])
  {
  }

  /** Two lists printed one after the other, the second with three numbers. */
  lemma ParseMultipleTwo(a: string, b: string, c: string)
    requires SymbolText(a) && SymbolText(b) && SymbolText(c) && a != "quote" && c != "quote"
    ensures ParsedAll("(" + a + " " + b + ")" + " " + ("(" + c + " " + "1" + " " + "2" + " " + "3" + ")")) ==
      Ok([List([Sym(a), Sym(b)]), List([Sym(c), Int(1), Int(2), Int(3)])])
  {
    var v1 := List([Sym(a), Sym(b)]);
    var v2 := List([Sym(c), Int(1), Int(2), Int(3)]);
    UnparseTwo(Sym(a), Sym(b), a, b);
    UnparseDigit(1);
    UnparseDigit(2);
    UnparseDigit(3);
    UnparseFour(Sym(c), Int(1), Int(2), Int(3), c, "1", "2", "3");
    var u1 := "(" + a + " " + b + ")";
    var u2 := "(" + c + " " + "1" + " " + "2" + " " + "3" + ")";
    UnparseAllTwo(v1, v2, u1, u2);
    JoinTwo(u1, u2, " ");
    assert forall x | x in v1.items :: Canonical(x);
    assert forall x | x in v2.items :: Canonical(x);
    assert forall x | x in [v1, v2] :: Canonical(x);
    ParseMultipleUnparse([v1, v2]);
  }

  lemma MultipleText()
    ensures "(foo bar) (baz 1 2 3)" ==
      "(" + "foo" + " " + "bar" + ")" + " " + ("(" + "baz" + " " + "1" + " " + "2" + " " + "3" + ")")
  {
  }

  /** The example in `parse_multiple`'s documentation: two expressions in one text give
      the list of both trees. */
  lemma ParseMultipleExample()
    ensures ParsedAll("(foo bar) (baz 1 2 3)") ==
      Ok([List([Sym("foo"), Sym("bar")]), List([Sym("baz"), Int(1), Int(2), Int(3)])])
  {
    SymbolTexts();
    MultipleText();
    ParseMultipleTwo("foo", "bar", "baz");
  }

  // ---- whitespace and comments in a whole program -----------------------------------

  /** A four-element list not headed by `quote` prints as its elements in parentheses. */
  lemma UnparseFour(x: Value, y: Value, z: Value, w: Value, ux: string, uy: string, uz: string, uw: string)
    requires Unparse(x) == Ok(ux) && Unparse(y) == Ok(uy) && Unparse(z) == Ok(uz) && Unparse(w) == Ok(uw)
    requires x != Sym("quote")
    ensures Unparse(List([x, y, z, w])) == Ok("(" + ux + " " + uy + " " + uz + " " + uw + ")")
  {
    UnparseAllThree(y, z, w, uy, uz, uw);
    UnparseAllCons(x, [y, z, w], ux, [uy, uz, uw]);
    assert [x] + [y, z, w] == [x, y, z, w] && [ux] + [uy, uz, uw] == [ux, uy, uz, uw];
    UnparseListOf([x, y, z, w], [ux, uy, uz, uw]);
    ParenFour(ux, uy, uz, uw);
  }

  lemma JoinFour(a: string, b: string, c: string, d: string, sep: string)
    ensures Join([a, b, c, d], sep) == a + sep + b + sep + c + sep + d
  {
    assert [a, b, c, d][1..] == [b, c, d];
    JoinThree(b, c, d, sep);
  }

  lemma ParenFour(a: string, b: string, c: string, d: string)
    ensures "(" + Join([a, b, c, d], " ") + ")" == "(" + a + " " + b + " " + c + " " + d + ")"
  {
    JoinFour(a, b, c, d, " ");
    assert "(" + (a + " " + b + " " + c + " " + d) + ")" == "(" + a + " " + b + " " + c + " " + d + ")";
  }

  /** A list of four symbols prints as its words, the first after `(` and the last
      before `)`. */
  lemma UnparseFourSymbols(a: string, b: string, c: string, d: string)
    requires a != "quote"
    ensures Unparse(List([Sym(a), Sym(b), Sym(c), Sym(d)])) == Ok(Join(["(" + a, b, c, d + ")"], " "))
  {
    UnparseFour(Sym(a), Sym(b), Sym(c), Sym(d), a, b, c, d);
    JoinFour("(" + a, b, c, d + ")", " ");
    assert "(" + a + " " + b + " " + c + " " + d + ")" == ("(" + a) + " " + b + " " + c + " " + (d + ")");
  }

  /** Whitespace only. */
  predicate Blank(s: string) {
    forall k | 0 <= k < |s| :: IsSpace(s[k])
  }

  /** A non-empty run without whitespace. */
  predicate Word(s: string) {
    s != [] && forall k | 0 <= k < |s| :: !IsSpace(s[k])
  }

  lemma WordsAfterBlank(g: string, w: string)
    requires Blank(g) && Word(w)
    ensures Words(g + w) == [w]
  {
    WordsConcat(g, w);
    WordsOfSpaces(g);
    WordsOfWord(w);
  }

  lemma WordsAppendWord(x: string, g: string, w: string)
    requires Blank(g) && g != [] && Word(w)
    ensures Words(x + g + w) == Words(x) + [w]
  {
    WordsConcat(x, g);
    WordsOfSpaces(g);
    WordsConcat(x + g, w);
    WordsOfWord(w);
    assert Words(x) + [] == Words(x);
  }

  lemma WordsAppendBlank(x: string, g: string)
    requires Blank(g)
    ensures Words(x + g) == Words(x)
  {
    WordsConcat(x, g);
    WordsOfSpaces(g);
    assert Words(x) + [] == Words(x);
  }

  lemma FourWords<T>(a: T, b: T, c: T, d: T)
    ensures [a] + [b] + [c] + [d] == [a, b, c, d]
  {
  }

  lemma WordsSpacedFour(g0: string, wa: string, g1: string, b: string, g2: string,
                        c: string, g3: string, wd: string, g4: string)
    requires Blank(g0) && Blank(g1) && Blank(g2) && Blank(g3) && Blank(g4)
    requires g1 != [] && g2 != [] && g3 != []
    requires Word(wa) && Word(b) && Word(c) && Word(wd)
    ensures Words(g0 + wa + g1 + b + g2 + c + g3 + wd + g4) == [wa, b, c, wd]
  {
    WordsAfterBlank(g0, wa);
    WordsAppendWord(g0 + wa, g1, b);
    WordsAppendWord(g0 + wa + g1 + b, g2, c);
    WordsAppendWord(g0 + wa + g1 + b + g2 + c, g3, wd);
    WordsAppendBlank(g0 + wa + g1 + b + g2 + c + g3 + wd, g4);
    FourWords(wa, b, c, wd);
  }

  /** Four symbols in parentheses, with any whitespace before, between and after them,
      read as the list of the four symbols. */
  lemma ParseSpacedFour(g0: string, wa: string, g1: string, b: string, g2: string,
                        c: string, g3: string, wd: string, g4: string, a: string, d: string)
    requires Blank(g0) && Blank(g1) && Blank(g2) && Blank(g3) && Blank(g4)
    requires g1 != [] && g2 != [] && g3 != []
    requires wa == "(" + a && wd == d + ")" && a != "quote"
    requires SymbolText(a) && SymbolText(b) && SymbolText(c) && SymbolText(d)
    requires Word(wa) && Word(b) && Word(c) && Word(wd)
    requires ';' !in wa && ';' !in wd
    ensures Parsed(g0 + wa + g1 + b + g2 + c + g3 + wd + g4) ==
      Ok(List([Sym(a), Sym(b), Sym(c), Sym(d)]))
  {
    var p := g0 + wa + g1 + b + g2 + c + g3 + wd + g4;
    assert ';' !in p;
    RemoveCommentsPlain(p, []);
    assert p + [] == p;
    NormalizeTight(p);
    WordsSpacedFour(g0, wa, g1, b, g2, c, g3, wd, g4);
    UnparseFourSymbols(a, b, c, d);
    CanonicalFourSymbols(a, b, c, d);
    AstOfUnparse(List([Sym(a), Sym(b), Sym(c), Sym(d)]));
  }

  lemma CanonicalFourSymbols(a: string, b: string, c: string, d: string)
    requires SymbolText(a) && SymbolText(b) && SymbolText(c) && SymbolText(d) && a != "quote"
    ensures Canonical(List([Sym(a), Sym(b), Sym(c), Sym(d)]))
  {
    var v := List([Sym(a), Sym(b), Sym(c), Sym(d)]);
    assert forall x | x in v.items :: Canonical(x);
  }

  lemma WhitespaceSymbols()
    ensures SymbolText("program") && SymbolText("with") && SymbolText("much") && SymbolText("whitespace")
  {
    LowerCaseSymbol("program");
    LowerCaseSymbol("with");
    LowerCaseSymbol("much");
    LowerCaseSymbol("whitespace");
  }

  lemma WhitespaceWords()
    ensures "(program" == "(" + "program" && "whitespace)" == "whitespace" + ")"
    ensures Word("(program") && Word("with") && Word("much") && Word("whitespace)")
    ensures ';' !in "(program" && ';' !in "whitespace)"
  {
  }

  lemma WhitespaceBlanks()
    ensures Blank("\n\n       ") && Blank("    ") && Blank("   ") && Blank("        ") && Blank("\n    ")
  {
  }

  /** `test_parse_with_extra_whitespace`: runs of whitespace, line breaks included,
      separate the words as one space would. The program is the test's text, written
      piece by piece: whitespace runs and words. */
  lemma ParseExtraWhitespace()
    ensures Parsed("\n\n       " + "(program" + "    " + "with" + "   " + "much" + "        " +
                   "whitespace)" + "\n    ") ==
      Ok(List([Sym("program"), Sym("with"), Sym("much"), Sym("whitespace")]))
  {
    WhitespaceSymbols();
    WhitespaceWords();
    WhitespaceBlanks();
    ParseSpacedFour("\n\n       ", "(program", "    ", "with", "   ", "much", "        ",
                    "whitespace)", "\n    ", "program", "whitespace");
  }

  /** Text without `;` loses nothing. */
  lemma RemoveCommentsStart(p: string)
    requires ';' !in p
    ensures RemoveComments(p) == p
  {
    RemoveCommentsPlain(p, []);
    assert p + [] == p;
  }

  /** Text without `;`, then a comment to the end of its line: the comment goes. */
  lemma RemoveCommentsPlainLine(q: string, c: string)
    requires ';' !in q && '\n' !in c
    ensures RemoveComments(q + ";" + c + "\n") == q + "\n"
  {
    assert q + ";" + c + "\n" == q + (";" + c + "\n");
    RemoveCommentsPlain(q, ";" + c + "\n");
    RemoveCommentsLine(c, []);
    assert ";" + c + "\n" + [] == ";" + c + "\n";
  }

  lemma GroupFive(x: string, a: string, b: string, d: string, e: string, f: string)
    ensures x + a + b + d + e + f == x + (a + b + d + e + f)
  {
  }

  lemma GroupSeven(x: string, a: string, b: string, d: string, e: string, f: string, g: string, h: string)
    ensures x + a + b + d + e + f + g + h == x + (a + b + d + e + f + g + h)
  {
  }

  lemma GroupLine(x: string, y: string, c: string)
    ensures x + y + ";" + c + "\n" == x + (y + ";" + c + "\n")
    ensures x + y + "\n" == x + (y + "\n")
  {
  }

  /** A line with a comment at its end, after a line break. */
  lemma RemoveCommentsLineAfter(x: string, y: string, c: string)
    requires x == [] || x[|x| - 1] == '\n'
    requires ';' !in y && '\n' !in c
    ensures RemoveComments(x + y + ";" + c + "\n") == RemoveComments(x) + y + "\n"
  {
    GroupLine(x, y, c);
    RemoveCommentsAfterLine(x, y + ";" + c + "\n");
    RemoveCommentsPlainLine(y, c);
    GroupLine(RemoveComments(x), y, c);
  }

  /** A line of five pieces with a comment at its end, after a line break. */
  lemma RemoveCommentsLineFive(x: string, a: string, b: string, d: string, e: string, f: string,
                               c: string)
    requires x == [] || x[|x| - 1] == '\n'
    requires ';' !in a + b + d + e + f && '\n' !in c
    ensures RemoveComments(x + a + b + d + e + f + ";" + c + "\n") ==
      RemoveComments(x) + a + b + d + e + f + "\n"
  {
    GroupFive(x, a, b, d, e, f);
    RemoveCommentsLineAfter(x, a + b + d + e + f, c);
    GroupFive(RemoveComments(x), a, b, d, e, f);
  }

  /** A line of seven pieces with a comment at its end, after a line break. */
  lemma RemoveCommentsLineSeven(x: string, a: string, b: string, d: string, e: string, f: string,
                                g: string, h: string, c: string)
    requires x == [] || x[|x| - 1] == '\n'
    requires ';' !in a + b + d + e + f + g + h && '\n' !in c
    ensures RemoveComments(x + a + b + d + e + f + g + h + ";" + c + "\n") ==
      RemoveComments(x) + a + b + d + e + f + g + h + "\n"
  {
    GroupSeven(x, a, b, d, e, f, g, h);
    RemoveCommentsLineAfter(x, a + b + d + e + f + g + h, c);
    GroupSeven(RemoveComments(x), a, b, d, e, f, g, h);
  }

  /** Five pieces without `;` after a line break. */
  lemma RemoveCommentsTailFive(x: string, a: string, b: string, d: string, e: string, f: string)
    requires x == [] || x[|x| - 1] == '\n'
    requires ';' !in a + b + d + e + f
    ensures RemoveComments(x + a + b + d + e + f) == RemoveComments(x) + a + b + d + e + f
  {
    var y := a + b + d + e + f;
    GroupFive(x, a, b, d, e, f);
    RemoveCommentsAfterLine(x, y);
    RemoveCommentsStart(y);
    GroupFive(RemoveComments(x), a, b, d, e, f);
  }

  /** Comment removal on the comments test's program, its pieces left open: the three
      comments become the line breaks that end them. */
  lemma CommentsRemoved(s0: string, c1: string, s1: string, w1: string, w2: string, s2: string,
                        c2: string, s3: string, w3: string, s4: string, c3: string, s5: string,
                        w6: string, w7: string, s6: string, t: string, n: string)
    requires ';' !in s0 && ';' !in s1 + w1 + " " + w2 + s2
    requires ';' !in s3 + w3 + " " + t + s4 + n + " " && ';' !in s5 + w6 + " " + w7 + s6
    requires '\n' !in c1 && '\n' !in c2 && '\n' !in c3
    ensures RemoveComments(s0 + ";" + c1 + "\n" + s1 + w1 + " " + w2 + s2 + ";" + c2 + "\n" + s3 +
                           w3 + " " + t + s4 + n + " " + ";" + c3 + "\n" + s5 + w6 + " " + w7 + s6) ==
      s0 + "\n" + s1 + w1 + " " + w2 + s2 + "\n" + s3 +
      w3 + " " + t + s4 + n + " " + "\n" + s5 + w6 + " " + w7 + s6
  {
    RemoveCommentsPlainLine(s0, c1);
    var x1 := s0 + ";" + c1 + "\n";
    RemoveCommentsLineFive(x1, s1, w1, " ", w2, s2, c2);
    var x2 := x1 + s1 + w1 + " " + w2 + s2 + ";" + c2 + "\n";
    RemoveCommentsLineSeven(x2, s3, w3, " ", t, s4, n, " ", c3);
    var x3 := x2 + s3 + w3 + " " + t + s4 + n + " " + ";" + c3 + "\n";
    RemoveCommentsTailFive(x3, s5, w6, " ", w7, s6);
  }

  /** Words `ws` with the runs `gs` around and between them: `gs[0] + ws[0] + gs[1] + ... +
      ws[n-1] + gs[n]`. */
  function SpacedText(ws: seq<string>, gs: seq<string>): string
    requires |gs| == |ws| + 1
    decreases |ws|
  {
    if ws == [] then gs[0]
    else SpacedText(ws[..|ws| - 1], gs[..|ws|]) + ws[|ws| - 1] + gs[|ws|]
  }

  /** One more word and run at the end. */
  lemma SpacedSnoc(ws: seq<string>, gs: seq<string>, w: string, g: string,
                   ws2: seq<string>, gs2: seq<string>)
    requires |gs| == |ws| + 1 && ws2 == ws + [w] && gs2 == gs + [g]
    ensures SpacedText(ws2, gs2) == SpacedText(ws, gs) + w + g
  {
    assert ws2[..|ws|] == ws;
    assert gs2[..|ws| + 1] == gs;
  }

  /** A word after text that ends in whitespace, or after nothing. */
  lemma WordsAfterSpace(y: string, w: string)
    requires y == [] || IsSpace(y[|y| - 1])
    requires Word(w)
    ensures Words(y + w) == Words(y) + [w]
  {
    WordsConcat(y, w);
    WordsOfWord(w);
  }

  /** When the runs are whitespace and those between two words are not empty, the words
      of the text are exactly `ws`. */
  lemma {:induction false} WordsSpaced(ws: seq<string>, gs: seq<string>)
    requires |gs| == |ws| + 1
    requires forall i | 0 <= i < |gs| :: Blank(gs[i])
    requires forall i | 0 < i < |ws| :: gs[i] != []
    requires forall i | 0 <= i < |ws| :: Word(ws[i])
    ensures Words(SpacedText(ws, gs)) == ws
  {
    if ws == [] {
      WordsOfSpaces(gs[0]);
    } else {
      var n := |ws|;
      var ws', gs' := ws[..n - 1], gs[..n];
      WordsSpaced(ws', gs');
      var y := SpacedText(ws', gs');
      if n > 1 {
        assert y == SpacedText(ws'[..n - 2], gs'[..n - 1]) + ws'[n - 2] + gs[n - 1];
        assert y[|y| - 1] == gs[n - 1][|gs[n - 1]| - 1];
      }
      WordsAfterSpace(y, ws[n - 1]);
      WordsAppendBlank(y + ws[n - 1], gs[n]);
      DropLast(ws);
    }
  }

  lemma DropLast<T>(s: seq<T>)
    requires s != []
    ensures s[..|s| - 1] + [s[|s| - 1]] == s
  {
  }

  lemma GroupRun(x: string, a: string, b: string, c: string)
    ensures x + (a + b + c) == x + a + b + c
  {
  }

  /** The comments test's text, once its comments are gone, as words between runs. */
  lemma CommentsSpaced(s0: string, s1: string, w1: string, w2: string, s2: string, s3: string,
                       w3: string, t: string, s4: string, n: string, s5: string, w6: string,
                       w7: string, s6: string, sp: string, nl: string)
    ensures s0 + nl + s1 + w1 + sp + w2 + s2 + nl + s3 + w3 + sp + t + s4 + n + sp + nl + s5 +
            w6 + sp + w7 + s6 ==
      SpacedText([w1, w2, w3, t, n, w6, w7],
                 [s0 + nl + s1, sp, s2 + nl + s3, sp, s4, sp + nl + s5, sp, s6])
  {
    var g0 := s0 + nl + s1;
    var g2 := s2 + nl + s3;
    var g5 := sp + nl + s5;
    assert SpacedText([], [g0]) == g0;
    SpacedSnoc([], [g0], w1, sp,
               [w1], [g0, sp]);
    assert SpacedText([w1], [g0, sp]) == g0 + w1 + sp;
    SpacedSnoc([w1], [g0, sp], w2, g2,
               [w1, w2], [g0, sp, g2]);
    var x2 := g0 + w1 + sp + w2;
    GroupRun(x2, s2, nl, s3);
    assert SpacedText([w1, w2], [g0, sp, g2]) == x2 + s2 + nl + s3;
    SpacedSnoc([w1, w2], [g0, sp, g2], w3, sp,
               [w1, w2, w3], [g0, sp, g2, sp]);
    SpacedSnoc([w1, w2, w3], [g0, sp, g2, sp], t, s4,
               [w1, w2, w3, t], [g0, sp, g2, sp, s4]);
    SpacedSnoc([w1, w2, w3, t], [g0, sp, g2, sp, s4], n, g5,
               [w1, w2, w3, t, n], [g0, sp, g2, sp, s4, g5]);
    var x5 := x2 + s2 + nl + s3 + w3 + sp + t + s4 + n;
    GroupRun(x5, sp, nl, s5);
    assert SpacedText([w1, w2, w3, t, n], [g0, sp, g2, sp, s4, g5]) == x5 + sp + nl + s5;
    SpacedSnoc([w1, w2, w3, t, n], [g0, sp, g2, sp, s4, g5], w6, sp,
               [w1, w2, w3, t, n, w6], [g0, sp, g2, sp, s4, g5, sp]);
    SpacedSnoc([w1, w2, w3, t, n, w6], [g0, sp, g2, sp, s4, g5, sp], w7, s6,
               [w1, w2, w3, t, n, w6, w7], [g0, sp, g2, sp, s4, g5, sp, s6]);
  }

  /** Normalising words between runs of whitespace leaves the words joined by one space. */
  lemma NormalizeSpaced(ws: seq<string>, gs: seq<string>)
    requires |gs| == |ws| + 1
    requires forall i | 0 <= i < |gs| :: Blank(gs[i])
    requires forall i | 0 < i < |ws| :: gs[i] != []
    requires forall i | 0 <= i < |ws| :: Word(ws[i])
    ensures Normalize(SpacedText(ws, gs)) == Join(ws, " ")
  {
    NormalizeTight(SpacedText(ws, gs));
    WordsSpaced(ws, gs);
  }

  /** The comments test's runs and words meet what `WordsSpaced` asks of them. */
  lemma CommentsRuns(s0: string, s1: string, w1: string, w2: string, s2: string, s3: string,
                     w3: string, t: string, s4: string, n: string, s5: string, w6: string,
                     w7: string, s6: string, sp: string, nl: string,
                     ws: seq<string>, gs: seq<string>)
    requires Blank(sp) && sp != [] && Blank(nl)
    requires Blank(s0) && Blank(s1) && Blank(s2) && Blank(s3) && Blank(s4) && Blank(s5) && Blank(s6)
    requires s3 != [] && s4 != []
    requires Word(w1) && Word(w2) && Word(w3) && Word(t) && Word(n) && Word(w6) && Word(w7)
    requires ws == [w1, w2, w3, t, n, w6, w7]
    requires gs == [s0 + nl + s1, sp, s2 + nl + s3, sp, s4, sp + nl + s5, sp, s6]
    ensures |gs| == |ws| + 1
    ensures forall i | 0 <= i < |gs| :: Blank(gs[i])
    ensures forall i | 0 < i < |ws| :: gs[i] != []
    ensures forall i | 0 <= i < |ws| :: Word(ws[i])
  {
    BlankThree(s0, nl, s1);
    BlankThree(s2, nl, s3);
    BlankThree(sp, nl, s5);
  }

  lemma BlankThree(a: string, b: string, c: string)
    requires Blank(a) && Blank(b) && Blank(c)
    ensures Blank(a + b + c)
  {
  }

  lemma JoinSeven(a: string, b: string, c: string, d: string, e: string, f: string, g: string, sep: string)
    ensures Join([a, b, c, d, e, f, g], sep) == a + sep + b + sep + c + sep + d + sep + e + sep + f + sep + g
  {
    assert [a, b, c, d, e, f, g][1..] == [b, c, d, e, f, g];
    assert [b, c, d, e, f, g][1..] == [c, d, e, f, g];
    assert [c, d, e, f, g][1..] == [d, e, f, g];
    JoinFour(d, e, f, g, sep);
    var j := d + sep + e + sep + f + sep + g;
    assert Join([a, b, c, d, e, f, g], sep) == a + sep + Join([b, c, d, e, f, g], sep);
    assert Join([b, c, d, e, f, g], sep) == b + sep + Join([c, d, e, f, g], sep);
    assert Join([c, d, e, f, g], sep) == c + sep + j;
    GroupThree(a, sep, b, sep, c, sep, j);
    GroupFour(a + sep + b + sep + c + sep, d, sep, e, sep, f, sep, g);
  }

  lemma GroupThree(a: string, s1: string, b: string, s2: string, c: string, s3: string, j: string)
    ensures a + s1 + (b + s2 + (c + s3 + j)) == a + s1 + b + s2 + c + s3 + j
  {
  }

  lemma GroupFour(x: string, d: string, s1: string, e: string, s2: string, f: string, s3: string, g: string)
    ensures x + (d + s1 + e + s2 + f + s3 + g) == x + d + s1 + e + s2 + f + s3 + g
  {
  }

  /** The words of the comments test, joined, against the nesting of the tree they print. */
  lemma CommentsJoin(o: string, c: string, sp: string, d: string, v: string, i: string, t: string,
                     n: string, sm: string, e: string)
    ensures Join([o + d, v, o + i, t, n, o + sm, e + c + c + c], sp) ==
      o + d + sp + v + sp + (o + i + sp + t + sp + n + sp + (o + sm + sp + e + c) + c) + c
  {
    JoinSeven(o + d, v, o + i, t, n, o + sm, e + c + c + c, sp);
  }

  lemma UnparseFortyTwo()
    ensures Unparse(Int(42)) == Ok("42")
  {
    assert NatToString(4) == "4";
    assert NatToString(42) == NatToString(4) + ['2'];
    assert IntToString(42) == "42";
  }

  /** The tree of the comments test prints as its words joined by spaces. */
  lemma UnparseComments(d: string, v: string, i: string, sm: string, e: string)
    requires d != "quote" && i != "quote" && sm != "quote"
    ensures Unparse(List([Sym(d), Sym(v), List([Sym(i), Bool(true), Int(42), List([Sym(sm), Sym(e)])])])) ==
      Ok(Join(["(" + d, v, "(" + i, "#t", "42", "(" + sm, e + ")" + ")" + ")"], " "))
  {
    var inner := List([Sym(sm), Sym(e)]);
    UnparseTwo(Sym(sm), Sym(e), sm, e);
    var ui := "(" + sm + " " + e + ")";
    UnparseFortyTwo();
    var mid := List([Sym(i), Bool(true), Int(42), inner]);
    UnparseFour(Sym(i), Bool(true), Int(42), inner, i, "#t", "42", ui);
    var um := "(" + i + " " + "#t" + " " + "42" + " " + ui + ")";
    UnparseThree(Sym(d), Sym(v), mid, d, v, um);
    var text := "(" + d + " " + v + " " + um + ")";
    CommentsJoin("(", ")", " ", d, v, i, "#t", "42", sm, e);
    assert Join(["(" + d, v, "(" + i, "#t", "42", "(" + sm, e + ")" + ")" + ")"], " ") == text;
  }
  lemma CanonicalComments(d: string, v: string, i: string, sm: string, e: string)
    requires SymbolText(d) && SymbolText(v) && SymbolText(i) && SymbolText(sm) && SymbolText(e)
    requires d != "quote" && i != "quote" && sm != "quote"
    ensures Canonical(List([Sym(d), Sym(v), List([Sym(i), Bool(true), Int(42), List([Sym(sm), Sym(e)])])]))
  {
    var inner := List([Sym(sm), Sym(e)]);
    assert forall x | x in inner.items :: Canonical(x);
    var mid := List([Sym(i), Bool(true), Int(42), inner]);
    assert forall x | x in mid.items :: Canonical(x);
    var top := List([Sym(d), Sym(v), mid]);
    assert forall x | x in top.items :: Canonical(x);
  }

  /** The comments test's text with its comments removed, as words between runs. */
  lemma CommentsRemovedSpaced(s0: string, c1: string, s1: string, w1: string, w2: string, s2: string,
                              c2: string, s3: string, w3: string, t: string, s4: string, n: string,
                              c3: string, s5: string, w6: string, w7: string, s6: string)
    requires ';' !in s0 && ';' !in s1 + w1 + " " + w2 + s2
    requires ';' !in s3 + w3 + " " + t + s4 + n + " " && ';' !in s5 + w6 + " " + w7 + s6
    requires '\n' !in c1 && '\n' !in c2 && '\n' !in c3
    ensures RemoveComments(s0 + ";" + c1 + "\n" + s1 + w1 + " " + w2 + s2 + ";" + c2 + "\n" + s3 +
                           w3 + " " + t + s4 + n + " " + ";" + c3 + "\n" + s5 + w6 + " " + w7 + s6) ==
      SpacedText([w1, w2, w3, t, n, w6, w7],
                 [s0 + "\n" + s1, " ", s2 + "\n" + s3, " ", s4, " " + "\n" + s5, " ", s6])
  {
    CommentsRemoved(s0, c1, s1, w1, w2, s2, c2, s3, w3, s4, c3, s5, w6, w7, s6, t, n);
    CommentsSpaced(s0, s1, w1, w2, s2, s3, w3, t, s4, n, s5, w6, w7, s6, " ", "\n");
  }

  /** A program shaped like the comments test: three comments, each running to the end of
      its line, around the lines of one nested tree. */
  lemma ParseCommented(s0: string, c1: string, s1: string, w1: string, w2: string, s2: string,
                       c2: string, s3: string, w3: string, t: string, s4: string, n: string,
                       c3: string, s5: string, w6: string, w7: string, s6: string,
                       d: string, i: string, sm: string, e: string)
    requires ';' !in s0 && ';' !in s1 + w1 + " " + w2 + s2
    requires ';' !in s3 + w3 + " " + t + s4 + n + " " && ';' !in s5 + w6 + " " + w7 + s6
    requires '\n' !in c1 && '\n' !in c2 && '\n' !in c3
    requires Blank(" ") && Blank("\n")
    requires Blank(s0) && Blank(s1) && Blank(s2) && Blank(s3) && Blank(s4) && Blank(s5) && Blank(s6)
    requires s3 != [] && s4 != []
    requires Word(w1) && Word(w2) && Word(w3) && Word(t) && Word(n) && Word(w6) && Word(w7)
    requires w1 == "(" + d && w3 == "(" + i && t == "#t" && n == "42" && w6 == "(" + sm
    requires w7 == e + ")" + ")" + ")"
    requires SymbolText(d) && SymbolText(w2) && SymbolText(i) && SymbolText(sm) && SymbolText(e)
    requires d != "quote" && i != "quote" && sm != "quote"
    ensures Parsed(s0 + ";" + c1 + "\n" + s1 + w1 + " " + w2 + s2 + ";" + c2 + "\n" + s3 +
                   w3 + " " + t + s4 + n + " " + ";" + c3 + "\n" + s5 + w6 + " " + w7 + s6) ==
      Ok(List([Sym(d), Sym(w2), List([Sym(i), Bool(true), Int(42), List([Sym(sm), Sym(e)])])]))
  {
    var ws := [w1, w2, w3, t, n, w6, w7];
    var gs := [s0 + "\n" + s1, " ", s2 + "\n" + s3, " ", s4, " " + "\n" + s5, " ", s6];
    CommentsRemovedSpaced(s0, c1, s1, w1, w2, s2, c2, s3, w3, t, s4, n, c3, s5, w6, w7, s6);
    CommentsRuns(s0, s1, w1, w2, s2, s3, w3, t, s4, n, s5, w6, w7, s6, " ", "\n", ws, gs);
    NormalizeSpaced(ws, gs);
    UnparseComments(d, w2, i, sm, e);
    CanonicalComments(d, w2, i, sm, e);
    AstOfUnparse(List([Sym(d), Sym(w2), List([Sym(i), Bool(true), Int(42), List([Sym(sm), Sym(e)])])]));
  }
  lemma CommentsNoSemicolons()
    ensures ';' !in "\n    " && ';' !in "    " + "(define" + " " + "variable" + "\n        "
    ensures ';' !in "        " + "(if" + " " + "#t" + " \n            " + "42" + " "
    ensures ';' !in "            " + "(something" + " " + "else)))" + "\n    "
  {
  }

  lemma CommentsOneLine()
    ensures '\n' !in "; this first line is a comment" && '\n' !in " here is another comment"
    ensures '\n' !in " inline comment!"
  {
  }

  lemma CommentsBlanks()
    ensures Blank(" ") && Blank("\n") && Blank("\n    ") && Blank("    ") && Blank("\n        ")
    ensures Blank("        ") && Blank(" \n            ") && Blank("            ")
  {
  }

  lemma CommentsWords()
    ensures Word("(define") && Word("variable") && Word("(if") && Word("#t") && Word("42")
    ensures Word("(something") && Word("else)))")
    ensures "(define" == "(" + "define" && "(if" == "(" + "if" && "(something" == "(" + "something"
    ensures "else)))" == "else" + ")" + ")" + ")"
  {
  }

  lemma CommentsSymbols()
    ensures SymbolText("define") && SymbolText("variable") && SymbolText("if")
    ensures SymbolText("something") && SymbolText("else")
  {
    LowerCaseSymbol("define");
    LowerCaseSymbol("variable");
    LowerCaseSymbol("if");
    LowerCaseSymbol("something");
    LowerCaseSymbol("else");
  }

  /** `test_parse_comments`: a comment runs from `;` to the end of its line, whether it
      fills the line or follows code, and the tree read is the one without them. The
      program is the test's text, written piece by piece. */
  lemma ParseCommentsExample()
    ensures Parsed("\n    " + ";" + "; this first line is a comment" + "\n" +
                   "    " + "(define" + " " + "variable" + "\n        " +
                   ";" + " here is another comment" + "\n" +
                   "        " + "(if" + " " + "#t" + " \n            " + "42" + " " +
                   ";" + " inline comment!" + "\n" +
                   "            " + "(something" + " " + "else)))" + "\n    ") ==
      Ok(List([Sym("define"), Sym("variable"),
               List([Sym("if"), Bool(true), Int(42), List([Sym("something"), Sym("else")])])]))
  {
    CommentsNoSemicolons();
    CommentsOneLine();
    CommentsBlanks();
    CommentsWords();
    CommentsSymbols();
    ParseCommented("\n    ", "; this first line is a comment", "    ", "(define", "variable",
                   "\n        ", " here is another comment", "        ", "(if", "#t",
                   " \n            ", "42", " inline comment!", "            ", "(something",
                   "else)))", "\n    ", "define", "if", "something", "else");
  }


}
