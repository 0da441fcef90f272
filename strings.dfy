/** The few Python string operations the interpreter relies on, written out as
    character scans: whitespace classes, strip, count, split on one character,
    join, isdigit, and the conversions between digit strings and integers. */
module Strings {

  /** Python 2's whitespace for byte strings: what `\s` matches and `strip()` removes. */
  predicate IsSpace(c: char) {
    c == ' ' || c == '\t' || c == '\n' || c == '\r' || c == '\U{B}' || c == '\U{C}'
  }

  /** `s.lstrip()` */
  function TrimLeft(s: string): (r: string)
    ensures |r| <= |s| && r == s[|s| - |r|..]
    ensures forall k | 0 <= k < |s| - |r| :: IsSpace(s[k])
    ensures r != [] ==> !IsSpace(r[0])
  {
    if s != [] && IsSpace(s[0]) then TrimLeft(s[1..]) else s
  }

  /** `s.rstrip()` */
  function TrimRight(s: string): (r: string)
    ensures |r| <= |s| && r == s[..|r|]
    ensures forall k | |r| <= k < |s| :: IsSpace(s[k])
    ensures r != [] ==> !IsSpace(r[|r| - 1])
  {
    if s != [] && IsSpace(s[|s| - 1]) then TrimRight(s[..|s| - 1]) else s
  }

  /** `s.strip()` */
  function Strip(s: string): string {
    TrimRight(TrimLeft(s))
  }

  /** `s.count(c)` for a one-character argument */
  function Count(s: string, c: char): nat {
    if s == [] then 0 else (if s[0] == c then 1 else 0) + Count(s[1..], c)
  }

  /** The characters of `s` that are not whitespace, in order. */
  function NonSpace(s: string): string {
    if s == [] then [] else (if IsSpace(s[0]) then [] else [s[0]]) + NonSpace(s[1..])
  }

  /** The first position of `c` in `s`. */
  function IndexOf(s: string, c: char): (i: nat)
    requires c in s
    ensures i < |s| && s[i] == c && c !in s[..i]
  {
    if s[0] == c then 0 else 1 + IndexOf(s[1..], c)
  }

  /** `sep.join(parts)` */
  function Join(parts: seq<string>, sep: string): string {
    if |parts| == 0 then ""
    else if |parts| == 1 then parts[0]
    else parts[0] + sep + Join(parts[1..], sep)
  }

  /** The length of the longest prefix of `s` without whitespace. */
  function WordEnd(s: string): (n: nat)
    ensures n <= |s|
    ensures forall k | 0 <= k < n :: !IsSpace(s[k])
    ensures n < |s| ==> IsSpace(s[n])
  {
    if s == [] || IsSpace(s[0]) then 0 else 1 + WordEnd(s[1..])
  }

  /** `s.split()` without an argument: the maximal runs of characters that are not
      whitespace, in order. */
  function Words(s: string): seq<string>
    decreases |s|
  {
    var t := TrimLeft(s);
    if t == [] then []
    else
      var n := WordEnd(t);
      assert n > 0;
      [t[..n]] + Words(t[n..])
  }

  /** `s.split(c)` with an explicit one-character separator: every occurrence of `c`
      separates two pieces, so an empty string and adjacent separators give empty pieces. */
  function SplitOn(s: string, c: char): (r: seq<string>)
    ensures |r| >= 1
    ensures forall p | p in r :: c !in p && |p| <= |s|
    ensures Join(r, [c]) == s
  {
    if c !in s then [s]
    else
      var i := IndexOf(s, c);
      assert s == s[..i] + [c] + s[i + 1..];
      [s[..i]] + SplitOn(s[i + 1..], c)
  }

  /** Every parenthesis removed, as the flat branch of parse_tokens does. */
  function RemoveParens(s: string): (r: string)
    ensures |r| <= |s|
    ensures s != [] && (s[0] == '(' || s[0] == ')') ==> |r| < |s|
    ensures '(' !in r && ')' !in r
  {
    if s == [] then []
    else (if s[0] == '(' || s[0] == ')' then [] else [s[0]]) + RemoveParens(s[1..])
  }

  predicate IsDigit(c: char) {
    '0' <= c <= '9'
  }

  function DigitValue(c: char): nat
    requires IsDigit(c)
  {
    c as int - '0' as int
  }

  /** `s.isdigit()`: non-empty and made of digits only. */
  predicate IsDigits(s: string) {
    |s| > 0 && forall k | 0 <= k < |s| :: IsDigit(s[k])
  }

  /** The value of a string of decimal digits, most significant first. */
  function DigitsValue(s: string): nat
    requires forall k | 0 <= k < |s| :: IsDigit(s[k])
  {
    if s == [] then 0 else 10 * DigitsValue(s[..|s| - 1]) + DigitValue(s[|s| - 1])
  }

  /** `str(n)` for a natural number: decimal, no leading zeros. */
  function NatToString(n: nat): (r: string)
    ensures IsDigits(r)
  {
    if n < 10 then [('0' as int + n) as char]
    else NatToString(n / 10) + [('0' as int + n % 10) as char]
  }

  /** `str(i)` and `"%d" % i` */
  function IntToString(i: int): string {
    if i < 0 then "-" + NatToString(-i) else NatToString(i)
  }

  /** Reading back what `str` wrote gives the number again. */
  lemma {:induction false} NatToStringValue(n: nat)
    ensures DigitsValue(NatToString(n)) == n
  {
    var s := NatToString(n);
    if n >= 10 {
      NatToStringValue(n / 10);
      assert s[..|s| - 1] == NatToString(n / 10);
    }
  }

  // ---- facts about the scans above, used by the parser's proofs ---------------

  lemma {:induction false} CountConcat(a: string, b: string, c: char)
    ensures Count(a + b, c) == Count(a, c) + Count(b, c)
  {
    if a != [] {
      assert (a + b)[1..] == a[1..] + b;
      CountConcat(a[1..], b, c);
    } else {
      assert a + b == b;
    }
  }

  lemma {:induction false} CountZero(s: string, c: char)
    ensures Count(s, c) == 0 <==> c !in s
  {
    if s != [] {
      CountZero(s[1..], c);
      assert s == [s[0]] + s[1..];
    }
  }

  lemma {:induction false} NonSpaceConcat(a: string, b: string)
    ensures NonSpace(a + b) == NonSpace(a) + NonSpace(b)
  {
    if a != [] {
      assert (a + b)[1..] == a[1..] + b;
      NonSpaceConcat(a[1..], b);
    } else {
      assert a + b == b;
    }
  }

  lemma {:induction false} NonSpaceOfSpaces(s: string)
    requires forall k | 0 <= k < |s| :: IsSpace(s[k])
    ensures NonSpace(s) == []
  {
    if s != [] {
      NonSpaceOfSpaces(s[1..]);
    }
  }

  /** Stripping removes whitespace only. */
  lemma NonSpaceStrip(s: string)
    ensures NonSpace(Strip(s)) == NonSpace(s)
  {
    NonSpaceTrimLeft(s);
    NonSpaceTrimRight(TrimLeft(s));
  }

  lemma {:induction false} NonSpaceTrimLeft(s: string)
    ensures NonSpace(TrimLeft(s)) == NonSpace(s)
  {
    if s != [] && IsSpace(s[0]) {
      NonSpaceTrimLeft(s[1..]);
    }
  }

  lemma {:induction false} NonSpaceTrimRight(s: string)
    ensures NonSpace(TrimRight(s)) == NonSpace(s)
  {
    if s != [] && IsSpace(s[|s| - 1]) {
      var init := s[..|s| - 1];
      NonSpaceTrimRight(init);
      assert s == init + [s[|s| - 1]];
      NonSpaceConcat(init, [s[|s| - 1]]);
    }
  }

  /** A text that neither starts nor ends with whitespace is its own strip. */
  lemma StripKeeps(s: string)
    requires s != [] ==> !IsSpace(s[0]) && !IsSpace(s[|s| - 1])
    ensures Strip(s) == s
  {
  }

  /** Stripping on the right keeps everything up to the last non-whitespace character. */
  lemma {:induction false} TrimRightConcat(a: string, b: string)
    requires TrimRight(b) != []
    ensures TrimRight(a + b) == a + TrimRight(b)
    decreases |b|
  {
    var s := a + b;
    assert s[|s| - 1] == b[|b| - 1];
    if IsSpace(b[|b| - 1]) {
      assert s[..|s| - 1] == a + b[..|b| - 1];
      TrimRightConcat(a, b[..|b| - 1]);
    }
  }

  /** A run of whitespace holds no word. */
  lemma WordsOfSpaces(s: string)
    requires forall k | 0 <= k < |s| :: IsSpace(s[k])
    ensures Words(s) == []
  {
  }

  /** A run of characters that are not whitespace is one word. */
  lemma WordsOfWord(w: string)
    requires w != [] && forall k | 0 <= k < |w| :: !IsSpace(w[k])
    ensures Words(w) == [w]
  {
    WordEndAll(w);
    assert w[..|w|] == w && w[|w|..] == [];
  }

  lemma {:induction false} WordEndAll(w: string)
    requires forall k | 0 <= k < |w| :: !IsSpace(w[k])
    ensures WordEnd(w) == |w|
  {
    if w != [] {
      WordEndAll(w[1..]);
    }
  }

  /** A word ends at the same place when more text follows it after whitespace. */
  lemma {:induction false} WordEndConcat(a: string, b: string)
    requires WordEnd(a) < |a| || b == [] || IsSpace(b[0])
    ensures WordEnd(a + b) == WordEnd(a)
  {
    if a == [] {
      assert a + b == b;
    } else if !IsSpace(a[0]) {
      assert (a + b)[1..] == a[1..] + b;
      WordEndConcat(a[1..], b);
    }
  }

  /** `split()` of two texts that meet at whitespace is the words of one, then of the other. */
  lemma {:induction false} WordsConcat(a: string, b: string)
    requires a == [] || IsSpace(a[|a| - 1]) || b == [] || IsSpace(b[0])
    ensures Words(a + b) == Words(a) + Words(b)
    decreases |a|
  {
    if a == [] {
      assert a + b == b;
    } else if IsSpace(a[0]) {
      WordsConcat(a[1..], b);
      WordsConcatSpace(a, b);
    } else {
      WordsConcat(a[WordEnd(a)..], b);
      WordsConcatWord(a, b);
    }
  }

  lemma WordsConcatSpace(a: string, b: string)
    requires a != [] && IsSpace(a[0])
    requires Words(a[1..] + b) == Words(a[1..]) + Words(b)
    ensures Words(a + b) == Words(a) + Words(b)
  {
    var s := a + b;
    SliceConcat(a, b, 1);
    calc {
      Words(s);
      { WordsSpaceHead(s); }
      Words(s[1..]);
      Words(a[1..]) + Words(b);
      { WordsSpaceHead(a); }
      Words(a) + Words(b);
    }
  }

  lemma WordsConcatWord(a: string, b: string)
    requires a != [] && !IsSpace(a[0])
    requires IsSpace(a[|a| - 1]) || b == [] || IsSpace(b[0])
    requires Words(a[WordEnd(a)..] + b) == Words(a[WordEnd(a)..]) + Words(b)
    ensures Words(a + b) == Words(a) + Words(b)
  {
    var m := WordEnd(a);
    WordEndConcat(a, b);
    SliceConcat(a, b, m);
    WordsHeadAt(a + b, m);
    WordsHeadAt(a, m);
    ConcatAssoc([a[..m]], Words(a[m..]), Words(b));
  }

  lemma WordsHeadAt(s: string, m: nat)
    requires s != [] && !IsSpace(s[0]) && WordEnd(s) == m
    ensures Words(s) == [s[..m]] + Words(s[m..])
  {
    assert TrimLeft(s) == s;
  }

  /** Leading whitespace does not change the words. */
  lemma WordsTrimLeft(s: string)
    ensures Words(TrimLeft(s)) == Words(s)
  {
    var t := TrimLeft(s);
    assert TrimLeft(t) == t;
  }

  lemma ConcatAssoc<T>(x: seq<T>, y: seq<T>, z: seq<T>)
    ensures x + (y + z) == (x + y) + z
  {
  }

  lemma SliceConcat(a: string, b: string, m: nat)
    requires m <= |a|
    ensures (a + b)[..m] == a[..m] && (a + b)[m..] == a[m..] + b
  {
  }

  lemma WordsSpaceHead(s: string)
    requires s != [] && IsSpace(s[0])
    ensures Words(s) == Words(s[1..])
  {
    assert TrimLeft(s) == TrimLeft(s[1..]);
  }

  lemma JoinCons(p0: string, ps: seq<string>)
    requires ps != []
    ensures Join([p0] + ps, " ") == p0 + (" " + Join(ps, " "))
  {
    assert ([p0] + ps)[0] == p0 && ([p0] + ps)[1..] == ps;
    calc {
      Join([p0] + ps, " ");
      p0 + " " + Join(ps, " ");
      { assert p0 + " " + Join(ps, " ") == p0 + (" " + Join(ps, " ")); }
      p0 + (" " + Join(ps, " "));
    }
  }

  lemma IndexOfAfter(p: string, c: char, x: string)
    requires c !in p
    ensures IndexOf(p + [c] + x, c) == |p|
  {
    if p != [] {
      assert (p + [c] + x)[1..] == p[1..] + [c] + x;
      IndexOfAfter(p[1..], c, x);
    }
  }

  lemma IndexOfPrefix(p: string, x: string, c: char)
    requires c in p
    ensures IndexOf(p + x, c) == IndexOf(p, c)
  {
    if p[0] != c {
      assert (p + x)[1..] == p[1..] + x;
      IndexOfPrefix(p[1..], x, c);
    }
  }

  lemma RemoveParensConcat(a: string, b: string)
    ensures RemoveParens(a + b) == RemoveParens(a) + RemoveParens(b)
  {
    if a == [] {
      assert a + b == b;
    } else {
      assert (a + b)[1..] == a[1..] + b;
      RemoveParensConcat(a[1..], b);
    }
  }

  lemma RemoveParensNone(s: string)
    requires '(' !in s && ')' !in s
    ensures RemoveParens(s) == s
  {
  }

  lemma RemoveParensWrapped(j: string)
    ensures RemoveParens("(" + j + ")") == RemoveParens(j)
  {
    RemoveParensBracket();
    RemoveParensAround("(", j, ")");
  }

  lemma RemoveParensBracket()
    ensures RemoveParens("(") == [] && RemoveParens(")") == []
  {
  }

  lemma RemoveParensAround(a: string, j: string, b: string)
    requires RemoveParens(a) == [] && RemoveParens(b) == []
    ensures RemoveParens(a + j + b) == RemoveParens(j)
  {
    var x := RemoveParens(j);
    calc {
      RemoveParens(a + j + b);
      { assert a + j + b == a + (j + b); }
      RemoveParens(a + (j + b));
      { RemoveParensConcat(a, j + b); }
      RemoveParens(a) + RemoveParens(j + b);
      RemoveParens(j + b);
      { RemoveParensConcat(j, b); }
      x + RemoveParens(b);
      x;
    }
  }
}
