/** Text to syntax tree and back (diy-lisp-master/diylisp/parser.py).

    The regular expressions of the source are written out as character scans:
    `;.*\n` in RemoveComments, `\s+` in CollapseSpaces and `^[^\s)']+` in AtomEnd.
    Where the source loops (find_matching_paren, split_exps, the list branches of
    parse_tokens, parse_multiple) the model is a method with that loop, proved equal
    to a function that the rest of the model and the lemmas use. */
module Parser {
  import opened Errors
  import opened Ast
  import opened Strings
  import Types

  /** Puts `xs` in front of a successful result; an error passes through. */
  function Prepend<T>(xs: seq<T>, r: Result<seq<T>>): Result<seq<T>> {
    match r
    case Ok(ys) => Ok(xs + ys)
    case Err(e) => Err(e)
  }

  lemma PrependNothing<T>(r: Result<seq<T>>)
    ensures Prepend([], r) == r
  {
    if r.Ok? {
      assert [] + r.value == r.value;
    }
  }

  lemma PrependEnd<T>(xs: seq<T>)
    ensures Prepend(xs, Ok([])) == Ok(xs)
  {
    assert xs + [] == xs;
  }

  lemma PrependTwice<T>(xs: seq<T>, x: T, r: Result<seq<T>>)
    ensures Prepend(xs, Prepend([x], r)) == Prepend(xs + [x], r)
  {
    if r.Ok? {
      assert xs + ([x] + r.value) == (xs + [x]) + r.value;
    }
  }

  // ---- remove_comments -----------------------------------------------------------

  /** `remove_comments`: from a `;` up to the next line break becomes
      that line break. A `;` with no line break after it does not match and stays. */
  function RemoveComments(source: string): string
    decreases |source|
  {
    if source == [] then []
    else if source[0] == ';' && '\n' in source then
      "\n" + RemoveComments(source[IndexOf(source, '\n') + 1..])
    else [source[0]] + RemoveComments(source[1..])
  }

  // ---- whitespace ------------------------------------------------------------------

  /** The whitespace collapse of `parse`: every maximal run of whitespace becomes one space. */
  function CollapseSpaces(s: string): string
    decreases |s|
  {
    if s == [] then []
    else if IsSpace(s[0]) then " " + CollapseSpaces(TrimLeft(s[1..]))
    else [s[0]] + CollapseSpaces(s[1..])
  }

  /** The collapse, then whitespace stripped from both ends. */
  function Normalize(s: string): string {
    Strip(CollapseSpaces(s))
  }

  // ---- find_matching_paren -------------------------------------------------------

  function Delta(c: char): int {
    if c == '(' then 1 else if c == ')' then -1 else 0
  }

  /** Opening minus closing parentheses in `s`. */
  function Depth(s: string): int {
    if s == [] then 0 else Depth(s[..|s| - 1]) + Delta(s[|s| - 1])
  }

  /** The loop of find_matching_paren from the state (`pos`, `open`). */
  function Scan(source: string, start: nat, pos: nat, open: nat): (r: Result<nat>)
    requires start <= pos < |source|
    ensures r.Ok? ==> pos <= r.value < |source|
    decreases |source| - pos
  {
    if open == 0 then Ok(pos)
    else if pos + 1 == |source| then Err(Incomplete(source[start..]))
    else
      var c := source[pos + 1];
      Scan(source, start, pos + 1, if c == '(' then open + 1 else if c == ')' then open - 1 else open)
  }

  /** The index of the parenthesis that closes the one at `start`. */
  function MatchingParen(source: string, start: nat): (r: Result<nat>)
    requires start < |source| && source[start] == '('
    ensures r.Ok? ==> start <= r.value < |source|
  {
    Scan(source, start, start, 1)
  }

  method FindMatchingParen(source: string, start: nat) returns (r: Result<nat>)
    requires start < |source| && source[start] == '('
    ensures r == MatchingParen(source, start)
  {
    var pos := start;
    var openBrackets: nat := 1;
    while openBrackets > 0
      invariant start <= pos < |source|
      invariant Scan(source, start, pos, openBrackets) == MatchingParen(source, start)
      decreases |source| - pos
    {
      pos := pos + 1;
      if |source| == pos {
        return Err(Incomplete(source[start..]));
      }
      if source[pos] == '(' {
        openBrackets := openBrackets + 1;
      }
      if source[pos] == ')' {
        openBrackets := openBrackets - 1;
      }
    }
    return Ok(pos);
  }

  // ---- first_expression and split_exps -------------------------------------------

  /** A character the atom pattern `[^\s)']` accepts. */
  predicate AtomChar(c: char) {
    !IsSpace(c) && c != ')' && c != '\''
  }

  /** The length of the longest prefix of `s` made of atom characters. */
  function AtomEnd(s: string): (n: nat)
    ensures n <= |s|
    ensures forall k | 0 <= k < n :: AtomChar(s[k])
    ensures n < |s| ==> !AtomChar(s[n])
  {
    if s == [] || !AtomChar(s[0]) then 0 else 1 + AtomEnd(s[1..])
  }

  /** `first_expression`: the first expression of the stripped text and what follows it.
      An empty text fails on `source[0]` and a leading `)` on the failed regex match. */
  function FirstExpression(source: string): (r: Result<(string, string)>)
    ensures r.Ok? ==> |r.value.0| > 0 && |r.value.0| + |r.value.1| <= |source|
    decreases |source|
  {
    var s := Strip(source);
    if s == [] then Err(Host(IndexError))
    else if s[0] == '\'' then
      var (exp, rest) :- FirstExpression(s[1..]);
      Ok(([s[0]] + exp, rest))
    else if s[0] == '(' then
      var last :- MatchingParen(s, 0);
      Ok((s[..last + 1], s[last + 1..]))
    else
      var end := AtomEnd(s);
      if end == 0 then Err(Host(AttributeError))
      else Ok((s[..end], s[end..]))
  }

  /** The loop of split_exps from the remaining text `rest`. */
  function SplitFrom(rest: string): (r: Result<seq<string>>)
    ensures r.Ok? ==> forall e | e in r.value :: 0 < |e| <= |rest|
    decreases |rest|
  {
    if rest == [] then Ok([])
    else
      var (exp, tail) :- FirstExpression(rest);
      var exps :- SplitFrom(tail);
      Ok([exp] + exps)
  }

  lemma SplitFromStep(rest: string)
    requires rest != []
    ensures FirstExpression(rest).Err? ==> SplitFrom(rest) == Err(FirstExpression(rest).error)
    ensures FirstExpression(rest).Ok? ==>
      SplitFrom(rest) == Prepend([FirstExpression(rest).value.0], SplitFrom(FirstExpression(rest).value.1))
  {
  }

  method SplitExps(source: string) returns (r: Result<seq<string>>)
    ensures r == SplitFrom(Strip(source))
  {
    var rest := Strip(source);
    var exps: seq<string> := [];
    PrependNothing(SplitFrom(rest));
    while rest != []
      invariant SplitFrom(Strip(source)) == Prepend(exps, SplitFrom(rest))
      decreases |rest|
    {
      var first := FirstExpression(rest);
      SplitFromStep(rest);
      if first.Err? {
        return Err(first.error);
      }
      var exp := first.value.0;
      var tail := first.value.1;
      PrependTwice(exps, exp, SplitFrom(tail));
      exps := exps + [exp];
      rest := tail;
    }
    PrependEnd(exps);
    return Ok(exps);
  }

  // ---- parse -----------------------------------------------------------------------

  /** `parse_tokens`: one expression text to a tree. A text with one `(` and one `)`
      loses its parentheses and is split at every space; otherwise more `)` than `(`
      is an error, and a list is the parsed expressions between the first `(` and
      its match. Text after that match is not looked at. */
  function AstOf(tokens: string): (r: Result<Value>)
    ensures r.Ok? ==> Syntax(r.value)
    decreases |tokens|, 1
  {
    if tokens == "()" then Ok(List([]))
    else if tokens == [] then Err(Host(IndexError))
    else if tokens[0] == '(' then
      if Count(tokens, '(') == 1 && Count(tokens, ')') == 1 then
        FlatShorter(tokens);
        var items :- AstsOf(SplitOn(RemoveParens(tokens), ' '), |tokens|);
        Ok(List(items))
      else if Count(tokens, '(') < Count(tokens, ')') then Err(ExpectedEof)
      else
        var last :- MatchingParen(tokens, 0);
        var pieces :- SplitFrom(Strip(tokens[1..last]));
        NestedShorter(tokens, last, pieces);
        var items :- AstsOf(pieces, |tokens|);
        Ok(List(items))
    else if tokens[0] == '\'' then
      var quoted :- AstOf(tokens[1..]);
      Ok(List([Sym("quote"), quoted]))
    else if tokens == "#t" then Ok(Bool(true))
    else if tokens == "#f" then Ok(Bool(false))
    else if IsDigits(tokens) then Ok(Int(DigitsValue(tokens)))
    else Ok(Sym(tokens))
  }

  /** Parses the pieces in order; the first failure is the result. */
  function AstsOf(pieces: seq<string>, ghost bound: nat): (r: Result<seq<Value>>)
    requires forall p | p in pieces :: |p| < bound
    ensures r.Ok? ==> |r.value| == |pieces| && forall v | v in r.value :: Syntax(v)
    decreases bound, 0, |pieces|
  {
    if pieces == [] then Ok([])
    else
      var first :- AstOf(pieces[0]);
      var rest :- AstsOf(pieces[1..], bound);
      Ok([first] + rest)
  }

  /** The pieces of a flat list are shorter than the list's text. */
  lemma FlatShorter(tokens: string)
    requires tokens != [] && tokens[0] == '('
    ensures forall p | p in SplitOn(RemoveParens(tokens), ' ') :: |p| < |tokens|
  {
  }

  /** The expressions between a `(` and its match are shorter than the whole text. */
  lemma NestedShorter(tokens: string, last: nat, pieces: seq<string>)
    requires 1 <= last < |tokens|
    requires SplitFrom(Strip(tokens[1..last])) == Ok(pieces)
    ensures forall p | p in pieces :: |p| < |tokens|
  {
  }

  method ParseTokens(tokens: string) returns (r: Result<Value>)
    ensures r == AstOf(tokens)
    decreases |tokens|, 2
  {
    if tokens == "()" {
      return Ok(List([]));
    } else if tokens == [] {
      return Err(Host(IndexError));
    } else if tokens[0] == '(' {
      if Count(tokens, '(') == 1 && Count(tokens, ')') == 1 {
        FlatShorter(tokens);
        var items := ParseEach(SplitOn(RemoveParens(tokens), ' '), |tokens|);
        if items.Err? {
          return Err(items.error);
        }
        return Ok(List(items.value));
      } else if Count(tokens, '(') < Count(tokens, ')') {
        return Err(ExpectedEof);
      } else {
        r := ParseNested(tokens);
      }
    } else if tokens[0] == '\'' {
      var quoted := ParseTokens(tokens[1..]);
      if quoted.Err? {
        return Err(quoted.error);
      }
      return Ok(List([Sym("quote"), quoted.value]));
    } else if tokens == "#t" {
      return Ok(Bool(true));
    } else if tokens == "#f" {
      return Ok(Bool(false));
    } else if IsDigits(tokens) {
      return Ok(Int(DigitsValue(tokens)));
    } else {
      return Ok(Sym(tokens));
    }
  }

  /** The general list branch of parse_tokens: the expressions between the first `(`
      and its match. */
  method ParseNested(tokens: string) returns (r: Result<Value>)
    requires tokens != "()" && tokens != [] && tokens[0] == '('
    requires !(Count(tokens, '(') == 1 && Count(tokens, ')') == 1)
    requires !(Count(tokens, '(') < Count(tokens, ')'))
    ensures r == AstOf(tokens)
    decreases |tokens|, 1
  {
    var last := FindMatchingParen(tokens, 0);
    if last.Err? {
      return Err(last.error);
    }
    var pieces := SplitExps(tokens[1..last.value]);
    if pieces.Err? {
      return Err(pieces.error);
    }
    NestedShorter(tokens, last.value, pieces.value);
    var items := ParseEach(pieces.value, |tokens|);
    if items.Err? {
      return Err(items.error);
    }
    return Ok(List(items.value));
  }

  /** The loops of parse_tokens that parse each piece and append it to the result. */
  method ParseEach(pieces: seq<string>, ghost bound: nat) returns (r: Result<seq<Value>>)
    requires forall p | p in pieces :: |p| < bound
    ensures r == AstsOf(pieces, bound)
    decreases bound, 0
  {
    var res: seq<Value> := [];
    assert pieces[0..] == pieces;
    PrependNothing(AstsOf(pieces, bound));
    for i := 0 to |pieces|
      invariant AstsOf(pieces, bound) == Prepend(res, AstsOf(pieces[i..], bound))
    {
      var item := ParseTokens(pieces[i]);
      if item.Err? {
        return Err(item.error);
      }
      assert pieces[i..][1..] == pieces[i + 1..];
      assert AstsOf(pieces[i..], bound) == Prepend([item.value], AstsOf(pieces[i + 1..], bound));
      PrependTwice(res, item.value, AstsOf(pieces[i + 1..], bound));
      res := res + [item.value];
    }
    assert pieces[|pieces|..] == [];
    PrependEnd(res);
    return Ok(res);
  }

  /** `parse`: comments removed and whitespace collapsed, then parse_tokens. */
  function Parsed(source: string): Result<Value> {
    AstOf(Normalize(RemoveComments(source)))
  }

  method Parse(source: string) returns (r: Result<Value>)
    ensures r == Parsed(source)
  {
    var text := RemoveComments(source);
    text := Normalize(text);
    r := ParseTokens(text);
  }

  // ---- parse_multiple ------------------------------------------------------------------

  function ParsedEach(exps: seq<string>): Result<seq<Value>> {
    if exps == [] then Ok([])
    else
      var first :- Parsed(exps[0]);
      var rest :- ParsedEach(exps[1..]);
      Ok([first] + rest)
  }

  /** `parse_multiple`: comments removed once, the text split into expressions, each
      expression parsed. */
  function ParsedAll(source: string): Result<seq<Value>> {
    var exps :- SplitFrom(Strip(RemoveComments(source)));
    ParsedEach(exps)
  }

  method ParseMultiple(source: string) returns (r: Result<seq<Value>>)
    ensures r == ParsedAll(source)
  {
    var text := RemoveComments(source);
    var exps := SplitExps(text);
    if exps.Err? {
      return Err(exps.error);
    }
    var asts: seq<Value> := [];
    assert exps.value[0..] == exps.value;
    PrependNothing(ParsedEach(exps.value));
    for i := 0 to |exps.value|
      invariant ParsedEach(exps.value) == Prepend(asts, ParsedEach(exps.value[i..]))
    {
      var ast := Parse(exps.value[i]);
      if ast.Err? {
        return Err(ast.error);
      }
      assert exps.value[i..][1..] == exps.value[i + 1..];
      assert ParsedEach(exps.value[i..]) == Prepend([ast.value], ParsedEach(exps.value[i + 1..]));
      PrependTwice(asts, ast.value, ParsedEach(exps.value[i + 1..]));
      asts := asts + [ast.value];
    }
    assert exps.value[|exps.value|..] == [];
    PrependEnd(asts);
    return Ok(asts);
  }

  // ---- unparse ---------------------------------------------------------------------

  /** `unparse`: booleans as #t/#f, a list headed by the symbol quote as `'` and its
      second element, other lists space-joined in parentheses, anything else as `str`
      gives it. A list that is just `(quote)` fails on `ast[1]`. */
  function Unparse(ast: Value): Result<string>
    decreases ast
  {
    match ast
    case Bool(b) => Ok(if b then "#t" else "#f")
    case List(items) =>
      if |items| > 0 && items[0] == Sym("quote") then
        if |items| < 2 then Err(Host(IndexError))
        else
          var inner :- Unparse(items[1]);
          Ok("'" + inner)
      else
        var parts :- UnparseAll(items);
        Ok("(" + Join(parts, " ") + ")")
    case Int(i) => Ok(IntToString(i))
    case Sym(name) => Ok(name)
    case Closure(_, _, _, _) => Ok(Types.ClosureText(ast))
  }

  /** Each element unparsed, in order: fails exactly when some element fails, and
      otherwise holds each element's text in order. */
  function UnparseAll(items: seq<Value>): (r: Result<seq<string>>)
    ensures r.Ok? <==> forall i | 0 <= i < |items| :: Unparse(items[i]).Ok?
    ensures r.Ok? ==> |r.value| == |items| && forall i | 0 <= i < |items| :: Unparse(items[i]) == Ok(r.value[i])
    decreases items
  {
    if items == [] then Ok([])
    else
      var first :- Unparse(items[0]);
      var rest :- UnparseAll(items[1..]);
      Ok([first] + rest)
  }
}
