/** What the parser's steps guarantee: comment removal, whitespace normalisation,
    parenthesis matching, and the splitting of a text into expressions. */
module ParserFacts {
  import opened Errors
  import opened Strings
  import opened Parser

  // ---- remove_comments -----------------------------------------------------------

  /** No `;` is followed, anywhere later, by a line break: nothing the comment pattern
      could still match. */
  predicate NoLiveComment(s: string) {
    forall i, j | 0 <= i < j < |s| && s[i] == ';' :: s[j] != '\n'
  }

  lemma NoLiveCommentCons(c: char, t: string)
    requires NoLiveComment(t)
    requires c == ';' ==> '\n' !in t
    ensures NoLiveComment([c] + t)
  {
    var s := [c] + t;
    forall i, j | 0 <= i < j < |s| && s[i] == ';' ensures s[j] != '\n' {
      assert s[j] == t[j - 1];
      if i > 0 {
        assert s[i] == t[i - 1];
      }
    }
  }

  /** Removing comments keeps every line break: line structure survives. */
  lemma {:induction false} RemoveCommentsLines(s: string)
    ensures Count(RemoveComments(s), '\n') == Count(s, '\n')
    decreases |s|
  {
    if s == [] {
    } else if s[0] == ';' && '\n' in s {
      var i := IndexOf(s, '\n');
      var rest := s[i + 1..];
      assert s == s[..i] + [s[i]] + rest;
      CountConcat(s[..i] + [s[i]], rest, '\n');
      CountConcat(s[..i], [s[i]], '\n');
      CountZero(s[..i], '\n');
      RemoveCommentsLines(rest);
      assert ("\n" + RemoveComments(rest))[1..] == RemoveComments(rest);
    } else {
      RemoveCommentsLines(s[1..]);
      assert ([s[0]] + RemoveComments(s[1..]))[1..] == RemoveComments(s[1..]);
    }
  }

  /** After `remove_comments` no comment that ends in a line break is left. */
  lemma {:induction false} RemoveCommentsClean(s: string)
    ensures NoLiveComment(RemoveComments(s))
    decreases |s|
  {
    if s == [] {
    } else if s[0] == ';' && '\n' in s {
      var i := IndexOf(s, '\n');
      RemoveCommentsClean(s[i + 1..]);
      NoLiveCommentCons('\n', RemoveComments(s[i + 1..]));
    } else {
      RemoveCommentsClean(s[1..]);
      if s[0] == ';' {
        CountZero(s[1..], '\n');
        RemoveCommentsLines(s[1..]);
        CountZero(RemoveComments(s[1..]), '\n');
      }
      NoLiveCommentCons(s[0], RemoveComments(s[1..]));
    }
  }

  /** A text without such comments is left exactly as it is. */
  lemma {:induction false} RemoveCommentsKeeps(s: string)
    requires NoLiveComment(s)
    ensures RemoveComments(s) == s
    decreases |s|
  {
    if s != [] {
      assert s[0] == ';' ==> '\n' !in s by {
        if s[0] == ';' {
          forall j | 0 < j < |s| ensures s[j] != '\n' {
          }
        }
      }
      assert NoLiveComment(s[1..]) by {
        forall i, j | 0 <= i < j < |s| - 1 && s[1..][i] == ';' ensures s[1..][j] != '\n' {
          assert s[i + 1] == ';';
        }
      }
      RemoveCommentsKeeps(s[1..]);
      assert s == [s[0]] + s[1..];
    }
  }

  /** Text before the first `;` is kept as it is. */
  lemma {:induction false} RemoveCommentsPlain(p: string, t: string)
    requires ';' !in p
    ensures RemoveComments(p + t) == p + RemoveComments(t)
    decreases |p|
  {
    if p == [] {
      assert p + t == t;
    } else {
      var s := p + t;
      assert s[0] == p[0] && s[1..] == p[1..] + t;
      RemoveCommentsPlain(p[1..], t);
      assert p == [p[0]] + p[1..];
    }
  }

  /** A comment, from `;` up to the end of its line, becomes that line break, and any
      `;` inside it goes with it; a `;` with no line break after it stays, with all
      that follows it. */
  lemma RemoveCommentsLine(c: string, t: string)
    requires '\n' !in c
    ensures RemoveComments(";" + c + "\n" + t) == "\n" + RemoveComments(t)
    ensures RemoveComments(";" + c) == ";" + c
  {
    var u := ";" + c;
    var s := u + "\n" + t;
    IndexOfAfter(u, '\n', t);
    assert s[|u| + 1..] == t;
    assert NoLiveComment(u) by {
      forall i, j | 0 <= i < j < |u| && u[i] == ';' ensures u[j] != '\n' {
        assert u[j] == c[j - 1];
      }
    }
    RemoveCommentsKeeps(u);
  }

  /** Every `;` in `s` has a line break after it: no comment runs past the end of `s`. */
  predicate CommentsClosed(s: string) {
    forall i | 0 <= i < |s| && s[i] == ';' :: '\n' in s[i + 1..]
  }

  /** A text that ends with a line break leaves no comment open. */
  lemma LineClosed(s: string)
    requires s != [] && s[|s| - 1] == '\n'
    ensures CommentsClosed(s)
  {
    forall i | 0 <= i < |s| && s[i] == ';' ensures '\n' in s[i + 1..] {
      assert s[i + 1..][|s| - i - 2] == '\n';
    }
  }

  lemma ClosedSuffix(s: string, j: nat)
    requires CommentsClosed(s) && j <= |s|
    ensures CommentsClosed(s[j..])
  {
    var t := s[j..];
    forall i | 0 <= i < |t| && t[i] == ';' ensures '\n' in t[i + 1..] {
      assert t[i + 1..] == s[j + i + 1..];
    }
  }

  lemma ClosedAppend(x: string, p: string)
    requires CommentsClosed(x) && ';' !in p
    ensures CommentsClosed(x + p)
  {
    var s := x + p;
    forall i | 0 <= i < |s| && s[i] == ';' ensures '\n' in s[i + 1..] {
      if i < |x| {
        assert s[i + 1..] == x[i + 1..] + p;
      }
    }
  }

  /** Comment removal splits between a text that leaves no comment open and what follows. */
  lemma {:induction false} RemoveCommentsSplit(x: string, y: string)
    requires CommentsClosed(x)
    ensures RemoveComments(x + y) == RemoveComments(x) + RemoveComments(y)
    decreases |x|
  {
    var s := x + y;
    if x == [] {
      assert s == y;
    } else if x[0] == ';' {
      assert '\n' in x[1..];
      var i := IndexOf(x, '\n');
      IndexOfPrefix(x, y, '\n');
      SliceConcat(x, y, i + 1);
      ClosedSuffix(x, i + 1);
      RemoveCommentsSplit(x[i + 1..], y);
      ConcatAssoc("\n", RemoveComments(x[i + 1..]), RemoveComments(y));
    } else {
      SliceConcat(x, y, 1);
      ClosedSuffix(x, 1);
      RemoveCommentsSplit(x[1..], y);
      ConcatAssoc([x[0]], RemoveComments(x[1..]), RemoveComments(y));
    }
  }

  /** Comment removal starts afresh after a line break. */
  lemma RemoveCommentsAfterLine(x: string, y: string)
    requires x == [] || x[|x| - 1] == '\n'
    ensures RemoveComments(x + y) == RemoveComments(x) + RemoveComments(y)
  {
    if x != [] {
      LineClosed(x);
    }
    RemoveCommentsSplit(x, y);
  }

  /** Removing comments twice is removing them once. */
  lemma RemoveCommentsIdempotent(s: string)
    ensures RemoveComments(RemoveComments(s)) == RemoveComments(s)
  {
    RemoveCommentsClean(s);
    RemoveCommentsKeeps(RemoveComments(s));
  }

  // ---- whitespace ------------------------------------------------------------------

  /** Every whitespace character is a space and is not followed by whitespace. */
  predicate Collapsed(s: string) {
    forall i | 0 <= i < |s| && IsSpace(s[i]) :: s[i] == ' ' && (i + 1 < |s| ==> !IsSpace(s[i + 1]))
  }

  /** What the collapse and strip of `parse` leave: collapsed, no whitespace at either end. */
  predicate Tight(s: string) {
    Collapsed(s) && (s != [] ==> !IsSpace(s[0]) && !IsSpace(s[|s| - 1]))
  }

  lemma CollapsedCons(c: char, x: string)
    requires Collapsed(x)
    requires IsSpace(c) ==> c == ' ' && (x == [] || !IsSpace(x[0]))
    ensures Collapsed([c] + x)
  {
    var s := [c] + x;
    forall i | 0 <= i < |s| && IsSpace(s[i]) ensures s[i] == ' ' && (i + 1 < |s| ==> !IsSpace(s[i + 1])) {
      if i > 0 {
        assert s[i] == x[i - 1];
      }
      if i + 1 < |s| {
        assert s[i + 1] == x[i];
      }
    }
  }

  lemma CollapsedSlice(s: string, a: nat, b: nat)
    requires Collapsed(s) && a <= b <= |s|
    ensures Collapsed(s[a..b])
  {
    var t := s[a..b];
    forall i | 0 <= i < |t| && IsSpace(t[i]) ensures t[i] == ' ' && (i + 1 < |t| ==> !IsSpace(t[i + 1])) {
      assert t[i] == s[a + i];
      if i + 1 < |t| {
        assert t[i + 1] == s[a + i + 1];
      }
    }
  }

  /** Collapsing leaves single spaces; the result starts with whitespace exactly when
      the input does, and is empty exactly when the input is. */
  lemma {:induction false} CollapseSpacesCollapsed(s: string)
    ensures Collapsed(CollapseSpaces(s))
    ensures CollapseSpaces(s) == [] <==> s == []
    ensures s != [] ==> (IsSpace(CollapseSpaces(s)[0]) <==> IsSpace(s[0]))
    decreases |s|
  {
    if s == [] {
    } else if IsSpace(s[0]) {
      var t := TrimLeft(s[1..]);
      CollapseSpacesCollapsed(t);
      CollapsedCons(' ', CollapseSpaces(t));
    } else {
      CollapseSpacesCollapsed(s[1..]);
      CollapsedCons(s[0], CollapseSpaces(s[1..]));
    }
  }

  /** The collapse and strip of `parse` give a tight text: the words of the input,
      in order, each followed by one space except the last. */
  lemma NormalizeTight(s: string)
    ensures Tight(Normalize(s))
    ensures Normalize(s) == Join(Words(s), " ")
  {
    CollapseSpacesCollapsed(s);
    StripTight(CollapseSpaces(s));
    if s != [] && IsSpace(s[0]) {
      var t := TrimLeft(s[1..]);
      CollapseSpacesCollapsed(t);
      var c := CollapseSpaces(t);
      assert CollapseSpaces(s) == " " + c;
      assert (" " + c)[1..] == c;
      assert TrimLeft(" " + c) == c;
      assert TrimLeft(s) == t;
      assert Words(s) == Words(t);
      StripCollapseWords(t);
    } else {
      StripCollapseWords(s);
    }
  }

  /** Characters other than whitespace are copied by the collapse as they are. */
  lemma {:induction false} CollapseWord(w: string, r: string)
    requires forall k | 0 <= k < |w| :: !IsSpace(w[k])
    ensures CollapseSpaces(w + r) == w + CollapseSpaces(r)
    decreases |w|
  {
    if w == [] {
      assert w + r == r;
    } else {
      assert (w + r)[0] == w[0] && (w + r)[1..] == w[1..] + r;
      CollapseWord(w[1..], r);
      assert w == [w[0]] + w[1..];
    }
  }

  /** On a text that does not start with whitespace, the collapse and strip give its
      words joined by single spaces. */
  lemma {:induction false} StripCollapseWords(s: string)
    requires s == [] || !IsSpace(s[0])
    ensures Strip(CollapseSpaces(s)) == Join(Words(s), " ")
    decreases |s|
  {
    if s != [] {
      var n := WordEnd(s);
      var w := s[..n];
      var rest := s[n..];
      assert s == w + rest;
      WordsHeadAt(s, n);
      CollapseWord(w, rest);
      if rest == [] {
        assert Words(rest) == [];
        assert CollapseSpaces(s) == w;
        StripKeeps(w);
      } else {
        var r := TrimLeft(rest[1..]);
        WordsSpaceHead(rest);
        WordsTrimLeft(rest[1..]);
        assert CollapseSpaces(rest) == " " + CollapseSpaces(r);
        if r == [] {
          WordSpace(w);
        } else {
          StripCollapseWords(r);
          WordSpaceWords(w, r);
        }
      }
    }
  }

  /** A word followed by one space strips to the word. */
  lemma WordSpace(w: string)
    requires w != [] && forall k | 0 <= k < |w| :: !IsSpace(w[k])
    ensures Strip(w + " " + CollapseSpaces([])) == Join([w], " ")
  {
    var s := w + " ";
    assert w + " " + CollapseSpaces([]) == s;
    assert s[..|s| - 1] == w;
    assert TrimRight(s) == TrimRight(w);
  }

  /** A word, one space, and the collapse of a text starting with a word. */
  lemma WordSpaceWords(w: string, r: string)
    requires w != [] && forall k | 0 <= k < |w| :: !IsSpace(w[k])
    requires r != [] && !IsSpace(r[0])
    requires Strip(CollapseSpaces(r)) == Join(Words(r), " ")
    ensures Strip(w + (" " + CollapseSpaces(r))) == Join([w] + Words(r), " ")
  {
    CollapseSpacesCollapsed(r);
    StripWordThen(w, CollapseSpaces(r));
    assert TrimLeft(r) == r;
    assert Words(r) != [];
    JoinCons(w, Words(r));
  }

  /** Stripping a word, a space and a text starting with a non-space strips the text. */
  lemma StripWordThen(w: string, c: string)
    requires w != [] && !IsSpace(w[0])
    requires c != [] && !IsSpace(c[0])
    ensures Strip(w + (" " + c)) == w + (" " + Strip(c))
  {
    assert TrimLeft(c) == c;
    assert TrimRight(c) != [];
    TrimRightConcat(w + " ", c);
    assert w + (" " + c) == (w + " ") + c;
    assert (w + " ") + TrimRight(c) == w + (" " + TrimRight(c));
  }

  lemma StripTight(c: string)
    requires Collapsed(c)
    ensures Tight(Strip(c))
  {
    var l := TrimLeft(c);
    CollapsedSlice(c, |c| - |l|, |c|);
    var r := TrimRight(l);
    CollapsedSlice(l, 0, |r|);
    assert Strip(c) == r;
    if r != [] {
      assert r[0] == l[0] && !IsSpace(l[0]);
    }
  }

  /** A collapsed text is its own collapse. */
  lemma {:induction false} CollapsedFixed(t: string)
    requires Collapsed(t)
    ensures CollapseSpaces(t) == t
    decreases |t|
  {
    if t != [] {
      CollapsedSlice(t, 1, |t|);
      CollapsedFixed(t[1..]);
      if IsSpace(t[0]) {
        assert TrimLeft(t[1..]) == t[1..];
      }
      assert t == [t[0]] + t[1..];
    }
  }

  /** Normalising a tight text changes nothing; in particular normalising is idempotent. */
  lemma NormalizeKeeps(t: string)
    requires Tight(t)
    ensures Normalize(t) == t
  {
    CollapsedFixed(t);
    StripKeeps(t);
  }

  lemma NormalizeIdempotent(s: string)
    ensures Normalize(Normalize(s)) == Normalize(s)
  {
    NormalizeTight(s);
    NormalizeKeeps(Normalize(s));
  }

  /** Collapsing only touches whitespace. */
  lemma {:induction false} CollapseSpacesNonSpace(s: string)
    ensures NonSpace(CollapseSpaces(s)) == NonSpace(s)
    decreases |s|
  {
    if s == [] {
    } else if IsSpace(s[0]) {
      var t := TrimLeft(s[1..]);
      CollapseSpacesNonSpace(t);
      NonSpaceTrimLeft(s[1..]);
      assert (" " + CollapseSpaces(t))[1..] == CollapseSpaces(t);
    } else {
      CollapseSpacesNonSpace(s[1..]);
      assert ([s[0]] + CollapseSpaces(s[1..]))[1..] == CollapseSpaces(s[1..]);
    }
  }

  /** Normalising keeps every character that is not whitespace, in order. */
  lemma NormalizeNonSpace(s: string)
    ensures NonSpace(Normalize(s)) == NonSpace(s)
  {
    CollapseSpacesNonSpace(s);
    NonSpaceStrip(CollapseSpaces(s));
  }

  // ---- parentheses -------------------------------------------------------------------

  lemma {:induction false} DepthConcat(a: string, b: string)
    ensures Depth(a + b) == Depth(a) + Depth(b)
    decreases |b|
  {
    if b == [] {
      assert a + b == a;
    } else {
      assert (a + b)[..|a + b| - 1] == a + b[..|b| - 1];
      DepthConcat(a, b[..|b| - 1]);
    }
  }

  /** The depth is the number of `(` minus the number of `)`. */
  lemma {:induction false} DepthCount(s: string)
    ensures Depth(s) == Count(s, '(') - Count(s, ')')
    decreases |s|
  {
    if s != [] {
      var init := s[..|s| - 1];
      DepthCount(init);
      assert s == init + [s[|s| - 1]];
      CountConcat(init, [s[|s| - 1]], '(');
      CountConcat(init, [s[|s| - 1]], ')');
    }
  }

  /** The depth of `source[start..k + 1]`, the text from `start` up to and including `k`. */
  function DepthTo(source: string, start: nat, k: nat): int
    requires start <= k < |source|
  {
    Depth(source[start..k + 1])
  }

  lemma DepthStep(source: string, start: nat, k: nat)
    requires start <= k && k + 1 < |source|
    ensures DepthTo(source, start, k + 1) == DepthTo(source, start, k) + Delta(source[k + 1])
  {
    assert source[start..k + 2][..|source[start..k + 2]| - 1] == source[start..k + 1];
  }

  lemma {:induction false} ScanSpec(source: string, start: nat, pos: nat, open: nat)
    requires start <= pos < |source|
    requires open == DepthTo(source, start, pos)
    requires forall k | start <= k < pos :: DepthTo(source, start, k) > 0
    ensures Scan(source, start, pos, open).Ok? ==>
      var m := Scan(source, start, pos, open).value;
      DepthTo(source, start, m) == 0 && forall k | start <= k < m :: DepthTo(source, start, k) > 0
    ensures Scan(source, start, pos, open).Err? ==>
      Scan(source, start, pos, open).error == Incomplete(source[start..]) &&
      forall k | start <= k < |source| :: DepthTo(source, start, k) > 0
    decreases |source| - pos
  {
    if open != 0 && pos + 1 < |source| {
      var c := source[pos + 1];
      DepthStep(source, start, pos);
      ScanSpec(source, start, pos + 1, if c == '(' then open + 1 else if c == ')' then open - 1 else open);
    }
  }

  /** `find_matching_paren` finds the first position after `start` where the
      parentheses opened since `start` are all closed, and that position holds `)`.
      It fails, quoting the text from `start`, exactly when there is none. */
  lemma MatchingParenSpec(source: string, start: nat)
    requires start < |source| && source[start] == '('
    ensures MatchingParen(source, start).Ok? ==>
      var m := MatchingParen(source, start).value;
      start < m && source[m] == ')' && DepthTo(source, start, m) == 0 &&
      forall k | start <= k < m :: DepthTo(source, start, k) > 0
    ensures MatchingParen(source, start).Err? ==>
      MatchingParen(source, start).error == Incomplete(source[start..]) &&
      forall k | start <= k < |source| :: DepthTo(source, start, k) > 0
  {
    assert source[start..start + 1][..0] == [];
    assert Depth(source[start..start + 1]) == 1;
    assert DepthTo(source, start, start) == 1;
    ScanSpec(source, start, start, 1);
    var r := MatchingParen(source, start);
    if r.Ok? && start < r.value {
      DepthStep(source, start, r.value - 1);
      assert DepthTo(source, start, r.value - 1) > 0;
    }
  }

  /** Conversely, the first balancing position is what `find_matching_paren` returns. */
  lemma MatchingParenAt(source: string, start: nat, m: nat)
    requires start <= m < |source| && source[start] == '('
    requires DepthTo(source, start, m) == 0
    requires forall k | start <= k < m :: DepthTo(source, start, k) > 0
    ensures MatchingParen(source, start) == Ok(m)
  {
    MatchingParenSpec(source, start);
  }

  // ---- first_expression and split_exps -------------------------------------------

  /** A complete parenthesised expression: opens with `(`, closes with `)`, and
      every proper prefix leaves a parenthesis open. */
  predicate Enclosed(e: string) {
    |e| >= 2 && e[0] == '(' && e[|e| - 1] == ')' && Depth(e) == 0 &&
    forall k | 0 < k < |e| :: Depth(e[..k]) > 0
  }

  /** On a text that starts with `(` the first expression is the prefix up to the
      matching `)`, and the rest is what follows it; without a match the text is
      incomplete. */
  lemma FirstExpressionParen(source: string)
    requires var s := Strip(source); s != [] && s[0] == '('
    ensures var s := Strip(source); var r := FirstExpression(source);
      && (r.Err? <==> MatchingParen(s, 0).Err?)
      && (r.Err? ==> r.error == Incomplete(s))
      && (r.Ok? ==> r.value.0 + r.value.1 == s && Enclosed(r.value.0))
  {
    var s := Strip(source);
    MatchingParenSpec(s, 0);
    var m := MatchingParen(s, 0);
    if m.Ok? {
      var e := s[..m.value + 1];
      assert s[0..m.value + 1] == e;
      forall k | 0 < k < |e| ensures Depth(e[..k]) > 0 {
        assert e[..k] == s[0..(k - 1) + 1];
        assert DepthTo(s, 0, k - 1) > 0;
      }
      assert e + s[m.value + 1..] == s;
    } else {
      assert s[0..] == s;
    }
  }

  /** On a text that starts with neither `'` nor `(`, the first expression is the longest
      run of atom characters; a text starting with `)` has none and fails. */
  lemma FirstExpressionAtom(source: string)
    requires var s := Strip(source); s != [] && s[0] != '\'' && s[0] != '('
    ensures var s := Strip(source); var r := FirstExpression(source);
      && (r.Ok? <==> s[0] != ')')
      && (r.Err? ==> r.error == Host(AttributeError))
      && (r.Ok? ==> r.value.0 + r.value.1 == s && (forall k | 0 <= k < |r.value.0| :: AtomChar(r.value.0[k]))
                    && (r.value.1 == [] || !AtomChar(r.value.1[0])))
  {
    var s := Strip(source);
    var n := AtomEnd(s);
    assert s[..n] + s[n..] == s;
  }

  /** A quote mark is glued to the expression after it, whatever whitespace separates
      them. */
  lemma FirstExpressionQuote(source: string)
    requires var s := Strip(source); s != [] && s[0] == '\''
    ensures var s := Strip(source); var r := FirstExpression(source);
      && (r.Err? <==> FirstExpression(s[1..]).Err?)
      && (r.Err? ==> r.error == FirstExpression(s[1..]).error)
      && (r.Ok? ==> r.value == ("'" + FirstExpression(s[1..]).value.0, FirstExpression(s[1..]).value.1))
  {
  }

  /** Splitting off the first expression loses no character other than whitespace. */
  lemma {:induction false} FirstExpressionNonSpace(source: string)
    requires FirstExpression(source).Ok?
    ensures NonSpace(FirstExpression(source).value.0) + NonSpace(FirstExpression(source).value.1) == NonSpace(source)
    decreases |source|
  {
    var s := Strip(source);
    NonSpaceStrip(source);
    if s[0] == '\'' {
      FirstExpressionQuote(source);
      FirstExpressionNonSpace(s[1..]);
      QuoteNonSpace(source);
    } else if s[0] == '(' {
      FirstExpressionParen(source);
      NonSpaceConcat(FirstExpression(source).value.0, FirstExpression(source).value.1);
    } else {
      FirstExpressionAtom(source);
      NonSpaceConcat(FirstExpression(source).value.0, FirstExpression(source).value.1);
    }
  }

  lemma QuoteNonSpace(source: string)
    requires var s := Strip(source); s != [] && s[0] == '\''
    requires FirstExpression(source).Ok?
    requires var s := Strip(source); var r := FirstExpression(s[1..]);
      r.Ok? && NonSpace(r.value.0) + NonSpace(r.value.1) == NonSpace(s[1..])
    ensures NonSpace(FirstExpression(source).value.0) + NonSpace(FirstExpression(source).value.1) == NonSpace(Strip(source))
  {
    var s := Strip(source);
    var r := FirstExpression(s[1..]);
    FirstExpressionQuote(source);
    assert s == "'" + s[1..];
    QuoteNonSpaceStep(r.value.0, r.value.1, s[1..]);
  }

  lemma QuoteNonSpaceStep(e: string, t: string, rest: string)
    requires NonSpace(e) + NonSpace(t) == NonSpace(rest)
    ensures NonSpace("'" + e) + NonSpace(t) == NonSpace("'" + rest)
  {
    var q := '\'';
    assert "'" == [q];
    calc {
      NonSpace([q] + e) + NonSpace(t);
      == { NonSpaceCons(q, e); }
      [q] + NonSpace(e) + NonSpace(t);
      ==
      [q] + (NonSpace(e) + NonSpace(t));
      == { NonSpaceCons(q, rest); }
      NonSpace([q] + rest);
    }
  }

  lemma NonSpaceCons(c: char, x: string)
    requires !IsSpace(c)
    ensures NonSpace([c] + x) == [c] + NonSpace(x)
  {
    assert ([c] + x)[1..] == x;
  }

  /** Joining the pieces of split_exps with spaces gives back the text, up to whitespace. */
  lemma {:induction false} SplitFromNonSpace(rest: string)
    requires SplitFrom(rest).Ok?
    ensures NonSpace(Join(SplitFrom(rest).value, " ")) == NonSpace(rest)
    decreases |rest|
  {
    if rest != [] {
      var (e, tail) := FirstExpression(rest).value;
      FirstExpressionNonSpace(rest);
      SplitFromNonSpace(tail);
      var es := SplitFrom(tail).value;
      assert SplitFrom(rest).value == [e] + es;
      JoinNonSpace(e, es);
    }
  }

  lemma JoinNonSpace(e: string, es: seq<string>)
    ensures NonSpace(Join([e] + es, " ")) == NonSpace(e) + NonSpace(Join(es, " "))
  {
    if es != [] {
      assert ([e] + es)[1..] == es;
      assert Join([e] + es, " ") == e + " " + Join(es, " ");
      NonSpaceConcat(e + " ", Join(es, " "));
      NonSpaceConcat(e, " ");
    } else {
      assert [e] + es == [e];
    }
  }
}
