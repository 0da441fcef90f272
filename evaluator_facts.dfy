/** What the evaluator guarantees, stated form by form. A form is evaluated with
    fuel `n + 1`; its operands then get fuel `n`. */
module EvaluatorFacts {
  import opened Errors
  import opened Ast
  import opened Types
  import opened Evaluator

  // ---- one evaluation step at a time ------------------------------------------------

  lemma UnfoldForm(items: seq<Value>, env: EnvId, st: Store, n: nat)
    requires Valid(st) && env < |st.envs| && items != []
    requires forall x | x in items :: Bound(x, |st.envs|, st.closures)
    ensures Eval(List(items), env, st, n + 1) == EvalForm(items, env, st, n)
  {
  }

  lemma UnfoldKeyword(items: seq<Value>, env: EnvId, st: Store, n: nat)
    requires Valid(st) && env < |st.envs| && items != []
    requires forall x | x in items :: Bound(x, |st.envs|, st.closures)
    requires items[0].Sym? && items[0].name in Keywords
    ensures Eval(List(items), env, st, n + 1) == EvalKeyword(items[0].name, items, env, st, n)
  {
    UnfoldForm(items, env, st, n);
  }

  lemma UnfoldMath(items: seq<Value>, env: EnvId, st: Store, n: nat)
    requires Valid(st) && env < |st.envs| && items != []
    requires forall x | x in items :: Bound(x, |st.envs|, st.closures)
    requires items[0].Sym? && items[0].name in MathOperators
    ensures Eval(List(items), env, st, n + 1) == EvalMath(items[0].name, items, env, st, n)
  {
    UnfoldForm(items, env, st, n);
    assert items[0].name !in Keywords;
  }

  /** Operands that are literals evaluate to themselves. */
  lemma {:induction false} EvalListLiterals(xs: seq<Value>, env: EnvId, st: Store, n: nat)
    requires Valid(st) && env < |st.envs| && forall x | x in xs :: x.Int? || x.Bool?
    ensures EvalList(xs, env, st, n + 1) == Outcome(Ok(xs), st)
  {
    if xs != [] {
      assert xs[0] in xs;
      assert forall x | x in xs[1..] :: x in xs;
      EvalListLiterals(xs[1..], env, st, n);
      assert [xs[0]] + xs[1..] == xs;
    }
  }

  /** Each value, quoted. */
  function Quoted(xs: seq<Value>): (qs: seq<Value>)
    ensures |qs| == |xs| && forall i | 0 <= i < |xs| :: qs[i] == List([Sym("quote"), xs[i]])
  {
    if xs == [] then [] else [List([Sym("quote"), xs[0]])] + Quoted(xs[1..])
  }

  /** Quoting keeps values bound. */
  lemma QuotedBound(xs: seq<Value>, k: nat, c: nat)
    requires forall x | x in xs :: Bound(x, k, c)
    ensures forall q | q in Quoted(xs) :: Bound(q, k, c)
  {
    var qs := Quoted(xs);
    forall q | q in qs ensures Bound(q, k, c) {
      var i :| 0 <= i < |qs| && qs[i] == q;
      assert xs[i] in xs;
      assert [Sym("quote"), xs[i]][1] == xs[i];
    }
  }

  /** Quoted operands evaluate to the values quoted. */
  lemma {:induction false} EvalListQuoted(xs: seq<Value>, env: EnvId, st: Store, n: nat)
    requires Valid(st) && env < |st.envs| && forall x | x in xs :: Bound(x, |st.envs|, st.closures)
    ensures forall q | q in Quoted(xs) :: Bound(q, |st.envs|, st.closures)
    ensures EvalList(Quoted(xs), env, st, n + 1) == Outcome(Ok(xs), st)
  {
    var qs := Quoted(xs);
    QuotedBound(xs, |st.envs|, st.closures);
    if xs != [] {
      assert xs[0] in xs;
      assert forall x | x in xs[1..] :: x in xs;
      QuoteUnevaluated(xs[0], env, st, n);
      EvalListQuoted(xs[1..], env, st, n);
      assert qs[1..] == Quoted(xs[1..]);
      assert [xs[0]] + xs[1..] == xs;
    }
  }

  // ---- atoms ---------------------------------------------------------------------

  /** Integers and booleans evaluate to themselves and change nothing. */
  lemma EvalLiteral(v: Value, env: EnvId, st: Store, n: nat)
    requires Valid(st) && env < |st.envs| && (v.Int? || v.Bool?)
    ensures Eval(v, env, st, n + 1) == Outcome(Ok(v), st)
  {
  }

  /** A symbol evaluates to its binding, and an unbound one is reported by name. */
  lemma EvalSymbol(name: string, env: EnvId, st: Store, n: nat)
    requires Valid(st) && env < |st.envs|
    ensures var o := Eval(Sym(name), env, st, n + 1);
      o.st == st &&
      (o.res.Ok? <==> name in st.envs[env]) &&
      (o.res.Ok? ==> o.res.value == st.envs[env][name]) &&
      (o.res.Err? ==> o.res.error == Unbound(name))
  {
  }

  /** Whatever is bound stays bound to the same value, in every environment, after
      any evaluation: `define` only adds and nothing ever removes. */
  lemma BindingsPersist(ast: Value, env: EnvId, st: Store, fuel: nat, e: EnvId, name: string)
    requires Valid(st) && env < |st.envs| && Bound(ast, |st.envs|, st.closures)
    requires e < |st.envs| && name in st.envs[e]
    ensures var o := Eval(ast, env, st, fuel);
      e < |o.st.envs| && Lookup(o.st, e, name) == Lookup(st, e, name)
  {
  }

  // ---- the length of each keyword form ------------------------------------------------

  /** The length `assert_exp_length` demands of each keyword form, the keyword
      counted; `define` is checked by `assert_valid_definition`, for the same length. */
  function FormLength(name: string): (k: nat)
    requires name in Keywords
    ensures 2 <= k <= 4
  {
    if name == "if" then 4
    else if name == "eq" || name == "define" || name == "lambda" || name == "cons" then 3
    else 2
  }

  /** A keyword form of the wrong length is malformed, named by its keyword, before
      any operand is evaluated: the store is unchanged. */
  lemma FormArity(items: seq<Value>, env: EnvId, st: Store, n: nat)
    requires Valid(st) && env < |st.envs| && forall x | x in items :: Bound(x, |st.envs|, st.closures)
    requires items != [] && items[0].Sym? && items[0].name in Keywords
    requires |items| != FormLength(items[0].name)
    ensures Eval(List(items), env, st, n + 1) == Outcome(Err(Malformed(items[0].name)), st)
  {
    UnfoldKeyword(items, env, st, n);
  }

  /** `(if)`, `(if c t)` and `(if c t e x)`: `if` needs a condition and two branches. */
  lemma IfArity(c: Value, t: Value, e: Value, x: Value, env: EnvId, st: Store, n: nat)
    requires Valid(st) && env < |st.envs|
    requires Bound(c, |st.envs|, st.closures) && Bound(t, |st.envs|, st.closures) && Bound(e, |st.envs|, st.closures) && Bound(x, |st.envs|, st.closures)
    ensures Eval(List([Sym("if")]), env, st, n + 1) == Outcome(Err(Malformed("if")), st)
    ensures Eval(List([Sym("if"), c, t]), env, st, n + 1) == Outcome(Err(Malformed("if")), st)
    ensures Eval(List([Sym("if"), c, t, e, x]), env, st, n + 1) == Outcome(Err(Malformed("if")), st)
  {
    FormArity([Sym("if")], env, st, n);
    FormArity([Sym("if"), c, t], env, st, n);
    FormArity([Sym("if"), c, t, e, x], env, st, n);
  }

  // ---- quote, atom, eq -------------------------------------------------------------

  /** `(quote e)` is `e` itself, unevaluated. */
  lemma QuoteUnevaluated(e: Value, env: EnvId, st: Store, n: nat)
    requires Valid(st) && env < |st.envs| && Bound(e, |st.envs|, st.closures)
    ensures Eval(List([Sym("quote"), e]), env, st, n + 1) == Outcome(Ok(e), st)
  {
    UnfoldKeyword([Sym("quote"), e], env, st, n);
  }

  /** `quote` with anything but one operand is malformed. */
  lemma QuoteArity(items: seq<Value>, env: EnvId, st: Store, n: nat)
    requires Valid(st) && env < |st.envs| && forall x | x in items :: Bound(x, |st.envs|, st.closures)
    requires items != [] && items[0] == Sym("quote") && |items| != 2
    ensures Eval(List(items), env, st, n + 1) == Outcome(Err(Malformed("quote")), st)
  {
    UnfoldKeyword(items, env, st, n);
  }

  /** `(atom e)` is true exactly when the value of `e` is not a list. */
  lemma AtomIsNotList(e: Value, env: EnvId, st: Store, n: nat)
    requires Valid(st) && env < |st.envs| && Bound(e, |st.envs|, st.closures)
    ensures var o := Eval(List([Sym("atom"), e]), env, st, n + 1);
      var a := Eval(e, env, st, n);
      o.st == a.st &&
      (o.res.Ok? <==> a.res.Ok?) &&
      (a.res.Ok? ==> o.res == Ok(Bool(!a.res.value.List?))) &&
      (a.res.Err? ==> o.res == a.res)
  {
    assert [Sym("atom"), e][1] == e;
    UnfoldKeyword([Sym("atom"), e], env, st, n);
  }

  /** `(eq a b)` is true exactly when both operands have the same value and that value
      is an atom; in particular two lists are never `eq`, even equal ones. */
  lemma EqAtoms(a: Value, b: Value, env: EnvId, st: Store, n: nat)
    requires Valid(st) && env < |st.envs| && Bound(a, |st.envs|, st.closures) && Bound(b, |st.envs|, st.closures)
    ensures var o := Eval(List([Sym("eq"), a, b]), env, st, n + 1);
      var args := EvalList([a, b], env, st, n);
      o.st == args.st &&
      (o.res.Ok? <==> args.res.Ok?) &&
      (args.res.Ok? ==>
        o.res == Ok(Bool(!args.res.value[0].List? && args.res.value[0] == args.res.value[1])))
  {
    assert [Sym("eq"), a, b][1..] == [a, b];
    UnfoldKeyword([Sym("eq"), a, b], env, st, n);
  }

  /** The same quoted atom is `eq` to itself; the same quoted list is not. */
  lemma EqQuoted(x: Value, env: EnvId, st: Store, n: nat)
    requires Valid(st) && env < |st.envs| && Bound(x, |st.envs|, st.closures)
    ensures var q := List([Sym("quote"), x]);
      Eval(List([Sym("eq"), q, q]), env, st, n + 2).res == Ok(Bool(!x.List?))
  {
    var q := List([Sym("quote"), x]);
    EqAtoms(q, q, env, st, n + 1);
    QuoteUnevaluated(x, env, st, n);
    assert [x, x][1..] == [x];
    assert Quoted([x, x]) == [q, q];
    EvalListQuoted([x, x], env, st, n);
  }

  // ---- if ---------------------------------------------------------------------------

  /** `(if c t e)` evaluates the condition and then exactly one branch, chosen by
      Python truth, in the store the condition left. */
  lemma IfOneBranch(c: Value, t: Value, e: Value, env: EnvId, st: Store, n: nat)
    requires Valid(st) && env < |st.envs|
    requires Bound(c, |st.envs|, st.closures) && Bound(t, |st.envs|, st.closures) && Bound(e, |st.envs|, st.closures)
    ensures var o := Eval(List([Sym("if"), c, t, e]), env, st, n + 1);
      var cond := Eval(c, env, st, n);
      (cond.res.Err? ==> o == cond) &&
      (cond.res.Ok? && Truthy(cond.res.value) ==>
        Bound(t, |cond.st.envs|, cond.st.closures) && o == Eval(t, env, cond.st, n)) &&
      (cond.res.Ok? && !Truthy(cond.res.value) ==>
        Bound(e, |cond.st.envs|, cond.st.closures) && o == Eval(e, env, cond.st, n))
  {
    var items := [Sym("if"), c, t, e];
    assert items[1] == c && items[2] == t && items[3] == e;
    UnfoldKeyword(items, env, st, n);
    var cond := Eval(c, env, st, n);
    if cond.res.Ok? {
      BoundMono(t, |st.envs|, st.closures, |cond.st.envs|, cond.st.closures);
      BoundMono(e, |st.envs|, st.closures, |cond.st.envs|, cond.st.closures);
    }
  }

  /** Python truth on this language's values. */
  lemma TruthyValues()
    ensures !Truthy(Bool(false)) && !Truthy(Int(0)) && !Truthy(Sym("")) && !Truthy(List([]))
    ensures Truthy(Bool(true)) && Truthy(Int(-1)) && Truthy(Sym("a")) && Truthy(List([Int(0)]))
  {
  }

  // ---- define --------------------------------------------------------------------------

  /** `(define x e)` evaluates `e` first and passes on its error. With a value, it
      succeeds exactly when `x` is unbound in the current environment as `e` left it:
      it returns the empty symbol and binds `x` to the value there, and every other
      binding of every environment is as `e` left it. Otherwise `x` is already defined,
      also when `e` itself bound it. */
  lemma DefineBinds(x: string, e: Value, env: EnvId, st: Store, n: nat)
    requires Valid(st) && env < |st.envs| && Bound(e, |st.envs|, st.closures)
    ensures var o := Eval(List([Sym("define"), Sym(x), e]), env, st, n + 1);
      var v := Eval(e, env, st, n);
      o.res.Ok? ==>
        o.res.value == Sym("") && v.res.Ok? && x !in v.st.envs[env] &&
        |o.st.envs| == |v.st.envs| &&
        o.st.envs[env] == v.st.envs[env][x := v.res.value] &&
        Lookup(o.st, env, x) == Ok(v.res.value) &&
        forall i | 0 <= i < |v.st.envs| && i != env :: o.st.envs[i] == v.st.envs[i]
    ensures var o := Eval(List([Sym("define"), Sym(x), e]), env, st, n + 1);
      var v := Eval(e, env, st, n);
      (v.res.Err? ==> o == v) &&
      (v.res.Ok? && x !in v.st.envs[env] ==> o.res == Ok(Sym(""))) &&
      (v.res.Ok? && x in v.st.envs[env] ==> o == Outcome(Err(AlreadyDefined(x)), v.st))
  {
    assert [Sym("define"), Sym(x), e][1] == Sym(x);
    assert [Sym("define"), Sym(x), e][2] == e;
    UnfoldKeyword([Sym("define"), Sym(x), e], env, st, n);
  }

  /** A symbol cannot be defined twice in one environment. */
  lemma RedefineFails(x: string, e: Value, env: EnvId, st: Store, n: nat)
    requires Valid(st) && env < |st.envs| && Bound(e, |st.envs|, st.closures)
    requires x in st.envs[env]
    ensures var o := Eval(List([Sym("define"), Sym(x), e]), env, st, n + 1);
      var v := Eval(e, env, st, n);
      v.res.Ok? ==> o.res == Err(AlreadyDefined(x))
  {
    assert [Sym("define"), Sym(x), e][1] == Sym(x);
    assert [Sym("define"), Sym(x), e][2] == e;
    UnfoldKeyword([Sym("define"), Sym(x), e], env, st, n);
  }

  /** `define` needs exactly a symbol and an expression. */
  lemma DefineMalformed(items: seq<Value>, env: EnvId, st: Store, n: nat)
    requires Valid(st) && env < |st.envs| && forall x | x in items :: Bound(x, |st.envs|, st.closures)
    requires items != [] && items[0] == Sym("define") && (|items| != 3 || !items[1].Sym?)
    ensures Eval(List(items), env, st, n + 1) == Outcome(Err(Malformed("define")), st)
  {
    UnfoldKeyword(items, env, st, n);
  }

  // ---- lambda and application ------------------------------------------------------------

  /** `(lambda (p ...) body)` evaluates nothing and returns a new closure over the
      current environment, with the parameters and body as written. */
  lemma LambdaMakesClosure(params: seq<Value>, body: Value, env: EnvId, st: Store, n: nat)
    requires Valid(st) && env < |st.envs|
    requires Bound(List(params), |st.envs|, st.closures) && Bound(body, |st.envs|, st.closures)
    ensures Eval(List([Sym("lambda"), List(params), body]), env, st, n + 1) ==
      Outcome(Ok(Closure(st.closures, env, params, body)), st.(closures := st.closures + 1))
    ensures forall i, k | 0 <= i < |st.envs| && k in st.envs[i] ::
      st.envs[i][k] != Closure(st.closures, env, params, body)
  {
    assert [Sym("lambda"), List(params), body][1] == List(params);
    UnfoldKeyword([Sym("lambda"), List(params), body], env, st, n);
  }

  /** The parameters of a lambda must be written as a list. */
  lemma LambdaNonList(p: Value, body: Value, env: EnvId, st: Store, n: nat)
    requires Valid(st) && env < |st.envs| && Syntax(p) && !p.List? && Bound(body, |st.envs|, st.closures)
    ensures Parser.Unparse(p).Ok? &&
      Eval(List([Sym("lambda"), p, body]), env, st, n + 1) ==
        Outcome(Err(NonList(Parser.Unparse(p).value)), st)
  {
    SyntaxBound(p, |st.envs|, st.closures);
    assert [Sym("lambda"), p, body][1] == p;
    UnfoldKeyword([Sym("lambda"), p, body], env, st, n);
  }

  /** Evaluating the same lambda twice gives two different closures, so they are not
      `eq`: closures compare by identity. */
  lemma LambdaFresh(params: seq<Value>, body: Value, env: EnvId, st: Store, n: nat)
    requires Valid(st) && env < |st.envs|
    requires Bound(List([Sym("lambda"), List(params), body]), |st.envs|, st.closures)
    ensures var lam := List([Sym("lambda"), List(params), body]);
      var a := Eval(lam, env, st, n + 1);
      a.res.Ok? && |a.st.envs| == |st.envs| && Bound(lam, |a.st.envs|, a.st.closures) &&
      var b := Eval(lam, env, a.st, n + 1);
      b.res.Ok? && a.res.value != b.res.value
  {
    assert List(params) in [Sym("lambda"), List(params), body];
    assert body in [Sym("lambda"), List(params), body];
    LambdaMakesClosure(params, body, env, st, n);
    var st1 := st.(closures := st.closures + 1);
    BoundMono(List([Sym("lambda"), List(params), body]), |st.envs|, st.closures, |st1.envs|, st1.closures);
    LambdaMakesClosure(params, body, env, st1, n);
  }

  /** Applying a closure: the operands are evaluated left to right in the caller's
      environment; then the body is evaluated in a new environment, the last one
      of the store, over the closure's own environment as it is at the time of the
      call, extended with the parameters. */
  lemma CallClosure(f: Value, items: seq<Value>, env: EnvId, st: Store, n: nat)
    requires Valid(st) && env < |st.envs| && items != [] && Bound(f, |st.envs|, st.closures)
    requires forall x | x in items :: Bound(x, |st.envs|, st.closures)
    requires f.Closure? && forall p | p in f.params :: p.Sym?
    ensures var a := EvalList(items[1..], env, st, n);
      var o := Apply(f, items, env, st, n);
      a.res.Ok? && |a.res.value| == |f.params| ==>
        var st2 := Extend(a.st, f.env, ZipBindings(f.params, a.res.value)).0;
        Bound(f.body, |st2.envs|, st2.closures) && o == Eval(f.body, |a.st.envs|, st2, n)
  {
    var a := EvalList(items[1..], env, st, n);
    if a.res.Ok? && |a.res.value| == |f.params| {
      var args := a.res.value;
      BoundMono(f, |st.envs|, st.closures, |a.st.envs|, a.st.closures);
      BoundMono(f.body, |a.st.envs|, a.st.closures, |a.st.envs| + 1, a.st.closures);
      assert !exists p | p in f.params :: p.List?;
      var r := Extend(a.st, f.env, ZipBindings(f.params, args));
      assert r.1 == |a.st.envs| && |r.0.envs| == |a.st.envs| + 1;
      assert Apply(f, items, env, st, n) == Eval(f.body, r.1, r.0, n);
    }
  }

  /** In the callee's environment a parameter names the argument at its last
      occurrence, and every other symbol is looked up in the closure's environment;
      the caller's environment plays no part. */
  lemma CalleeLookup(st: Store, cenv: EnvId, params: seq<Value>, args: seq<Value>, name: string)
    requires Valid(st) && cenv < |st.envs| && |params| == |args|
    requires forall v | v in args :: Bound(v, |st.envs|, st.closures)
    ensures var st2 := Extend(st, cenv, ZipBindings(params, args)).0;
      var child := |st.envs|;
      child < |st2.envs| &&
      (Sym(name) !in params ==> Lookup(st2, child, name) == Lookup(st, cenv, name)) &&
      (forall i | 0 <= i < |params| && params[i] == Sym(name) && params[i] !in params[i + 1..] ::
        Lookup(st2, child, name) == Ok(args[i]))
  {
    var zip := ZipBindings(params, args);
    LookupAfterOverlay(st.envs[cenv], zip, name);
    forall i | 0 <= i < |params| && params[i] == Sym(name) && params[i] !in params[i + 1..]
      ensures zip[name] == args[i]
    {
      ZipBindingsLast(params, args, i);
    }
  }

  /** `(define f (lambda () f))` in an empty environment binds `f` to a closure
      over that same environment. */
  lemma SelfReferenceDefine(n: nat)
    ensures Eval(List([Sym("define"), Sym("f"), List([Sym("lambda"), List([]), Sym("f")])]),
      0, Store([map[]], 0), n + 2) ==
      Outcome(Ok(Sym("")), Store([map["f" := Closure(0, 0, [], Sym("f"))]], 1))
  {
    var st := Store([map[]], 0);
    var lam := List([Sym("lambda"), List([]), Sym("f")]);
    var items := [Sym("define"), Sym("f"), lam];
    LambdaMakesClosure([], Sym("f"), 0, st, n);
    assert Eval(lam, 0, st, n + 1) == Outcome(Ok(Closure(0, 0, [], Sym("f"))), Store([map[]], 1));
    assert items[1] == Sym("f") && items[2] == lam;
    UnfoldKeyword(items, 0, st, n + 1);
    assert EvalKeyword("define", items, 0, st, n + 1) == EvalDefine(items, 0, st, n + 1);
  }

  /** ... and `(f)` then returns that closure: the body finds `f`, bound after the
      closure was made, because the closure holds its environment itself and not a
      copy. This is what lets a defined function call itself. */
  lemma SelfReferenceCall(n: nat)
    ensures var c := Closure(0, 0, [], Sym("f"));
      Eval(List([Sym("f")]), 0, Store([map["f" := c]], 1), n + 2).res == Ok(c)
  {
    var c := Closure(0, 0, [], Sym("f"));
    var st1 := Store([map["f" := c]], 1);
    assert Valid(st1);
    UnfoldForm([Sym("f")], 0, st1, n + 1);
    assert Lookup(st1, 0, "f") == Ok(c);
    assert "f" !in Keywords && "f" !in MathOperators;
    assert EvalForm([Sym("f")], 0, st1, n + 1) == Apply(c, [Sym("f")], 0, st1, n + 1);
    assert [Sym("f")][1..] == [];
    assert EvalList([], 0, st1, n + 1) == Outcome(Ok([]), st1);
    CallClosure(c, [Sym("f")], 0, st1, n + 1);
    var st2 := Extend(st1, 0, ZipBindings([], [])).0;
    assert Lookup(st2, 1, "f") == Ok(c);
  }

  /** A closure called with the wrong number of arguments reports both counts. */
  lemma CallArity(f: Value, items: seq<Value>, env: EnvId, st: Store, n: nat)
    requires Valid(st) && env < |st.envs| && items != [] && Bound(f, |st.envs|, st.closures)
    requires forall x | x in items :: Bound(x, |st.envs|, st.closures)
    requires f.Closure?
    ensures var a := EvalList(items[1..], env, st, n);
      a.res.Ok? && |a.res.value| != |f.params| ==>
        Apply(f, items, env, st, n).res == Err(WrongArgCount(|f.params|, |items| - 1))
  {
  }

  /** Applying anything that is not a closure is an error carrying its text. */
  lemma CallNonFunction(f: Value, items: seq<Value>, env: EnvId, st: Store, n: nat)
    requires Valid(st) && env < |st.envs| && items != [] && Bound(f, |st.envs|, st.closures)
    requires forall x | x in items :: Bound(x, |st.envs|, st.closures)
    requires !f.Closure? && Parser.Unparse(f).Ok?
    ensures Apply(f, items, env, st, n) == Outcome(Err(NotAFunction(Parser.Unparse(f).value)), st)
  {
  }

  /** `(1 2)`: an integer is not a function. */
  lemma IntegerNotAFunction(env: EnvId, st: Store, n: nat)
    requires Valid(st) && env < |st.envs|
    ensures Eval(List([Int(1), Int(2)]), env, st, n + 1).res == Err(NotAFunction("1"))
  {
    UnfoldForm([Int(1), Int(2)], env, st, n);
    assert Parser.Unparse(Int(1)) == Ok("1");
  }

  // ---- list primitives ----------------------------------------------------------------

  /** `(cons a l)` puts the value of `a` in front of the list `l` evaluates to; with
      a non-list `l` Python's list concatenation fails. */
  lemma ConsPrepends(a: Value, l: Value, env: EnvId, st: Store, n: nat)
    requires Valid(st) && env < |st.envs| && Bound(a, |st.envs|, st.closures) && Bound(l, |st.envs|, st.closures)
    ensures var o := Eval(List([Sym("cons"), a, l]), env, st, n + 1);
      var args := EvalList([a, l], env, st, n);
      o.st == args.st &&
      (args.res.Ok? && args.res.value[1].List? ==>
        o.res == Ok(List([args.res.value[0]] + args.res.value[1].items))) &&
      (args.res.Ok? && !args.res.value[1].List? ==> o.res == Err(Host(TypeError)))
  {
    assert [Sym("cons"), a, l][1..] == [a, l];
    UnfoldKeyword([Sym("cons"), a, l], env, st, n);
  }

  /** `head` and `tail` take apart what `cons` builds. */
  lemma ConsHeadTail(x: Value, xs: seq<Value>, env: EnvId, st: Store, n: nat)
    requires Valid(st) && env < |st.envs| && Bound(x, |st.envs|, st.closures) && Bound(List(xs), |st.envs|, st.closures)
    ensures var c := List([Sym("cons"), List([Sym("quote"), x]), List([Sym("quote"), List(xs)])]);
      Eval(c, env, st, n + 2) == Outcome(Ok(List([x] + xs)), st) &&
      Eval(List([Sym("head"), c]), env, st, n + 3) == Outcome(Ok(x), st) &&
      Eval(List([Sym("tail"), c]), env, st, n + 3) == Outcome(Ok(List(xs)), st)
  {
    var qx := List([Sym("quote"), x]);
    var ql := List([Sym("quote"), List(xs)]);
    var c := List([Sym("cons"), qx, ql]);
    QuoteUnevaluated(x, env, st, n);
    QuoteUnevaluated(List(xs), env, st, n);
    assert [x, List(xs)][1..] == [List(xs)];
    assert Quoted([x, List(xs)]) == [qx, ql];
    EvalListQuoted([x, List(xs)], env, st, n);
    ConsPrepends(qx, ql, env, st, n + 1);
    assert Bound(c, |st.envs|, st.closures);
    HeadTakesFirst(c, env, st, n + 2);
    TailDropsFirst(c, env, st, n + 2);
    assert ([x] + xs)[1..] == xs;
  }

  /** `(head e)` is the first element of the list `e` evaluates to, and an error for
      the empty list. */
  lemma HeadTakesFirst(e: Value, env: EnvId, st: Store, n: nat)
    requires Valid(st) && env < |st.envs| && Bound(e, |st.envs|, st.closures)
    ensures var o := Eval(List([Sym("head"), e]), env, st, n + 1);
      var a := Eval(e, env, st, n);
      a.res.Ok? && a.res.value.List? ==>
        o == Outcome(if a.res.value.items == [] then Err(EmptyList) else Ok(a.res.value.items[0]), a.st)
  {
    assert [Sym("head"), e][1] == e;
    UnfoldKeyword([Sym("head"), e], env, st, n);
  }

  /** `(tail e)` is the list `e` evaluates to without its first element; the tail
      of the empty list is the empty list. */
  lemma TailDropsFirst(e: Value, env: EnvId, st: Store, n: nat)
    requires Valid(st) && env < |st.envs| && Bound(e, |st.envs|, st.closures)
    ensures var o := Eval(List([Sym("tail"), e]), env, st, n + 1);
      var a := Eval(e, env, st, n);
      a.res.Ok? && a.res.value.List? ==>
        o == Outcome(Ok(List(if a.res.value.items == [] then [] else a.res.value.items[1..])), a.st)
  {
    assert [Sym("tail"), e][1] == e;
    UnfoldKeyword([Sym("tail"), e], env, st, n);
  }

  /** `(empty e)` is true exactly when the list `e` evaluates to has no elements. */
  lemma EmptyIffNoElements(e: Value, env: EnvId, st: Store, n: nat)
    requires Valid(st) && env < |st.envs| && Bound(e, |st.envs|, st.closures)
    ensures var o := Eval(List([Sym("empty"), e]), env, st, n + 1);
      var a := Eval(e, env, st, n);
      a.res.Ok? && a.res.value.List? ==> o == Outcome(Ok(Bool(a.res.value.items == [])), a.st)
  {
    assert [Sym("empty"), e][1] == e;
    UnfoldKeyword([Sym("empty"), e], env, st, n);
  }

  /** `head` of a value that is not a list: an operand error passes through; a symbol
      is a Python string, so its first character comes back as a symbol, and the empty
      one is reported as an empty list; integers and booleans have no `len` (TypeError)
      and a closure no `__len__` (AttributeError). */
  lemma HeadNonList(e: Value, env: EnvId, st: Store, n: nat)
    requires Valid(st) && env < |st.envs| && Bound(e, |st.envs|, st.closures)
    ensures var o := Eval(List([Sym("head"), e]), env, st, n + 1);
      var a := Eval(e, env, st, n);
      (a.res.Err? ==> o == a) &&
      (a.res.Ok? && a.res.value.Sym? ==>
        var s := a.res.value.name;
        o == Outcome(if s == [] then Err(EmptyList) else Ok(Sym([s[0]])), a.st)) &&
      (a.res.Ok? && (a.res.value.Int? || a.res.value.Bool?) ==> o == Outcome(Err(Host(TypeError)), a.st)) &&
      (a.res.Ok? && a.res.value.Closure? ==> o == Outcome(Err(Host(AttributeError)), a.st))
  {
    assert [Sym("head"), e][1] == e;
    UnfoldKeyword([Sym("head"), e], env, st, n);
  }

  /** `tail` of a value that is not a list: a symbol loses its first character, and
      the other non-lists fail as for `head`. */
  lemma TailNonList(e: Value, env: EnvId, st: Store, n: nat)
    requires Valid(st) && env < |st.envs| && Bound(e, |st.envs|, st.closures)
    ensures var o := Eval(List([Sym("tail"), e]), env, st, n + 1);
      var a := Eval(e, env, st, n);
      (a.res.Err? ==> o == a) &&
      (a.res.Ok? && a.res.value.Sym? ==>
        var s := a.res.value.name;
        o == Outcome(Ok(Sym(if s == [] then [] else s[1..])), a.st)) &&
      (a.res.Ok? && (a.res.value.Int? || a.res.value.Bool?) ==> o == Outcome(Err(Host(TypeError)), a.st)) &&
      (a.res.Ok? && a.res.value.Closure? ==> o == Outcome(Err(Host(AttributeError)), a.st))
  {
    assert [Sym("tail"), e][1] == e;
    UnfoldKeyword([Sym("tail"), e], env, st, n);
  }

  /** `empty` of a value that is not a list: a symbol is empty when it has no
      characters, and the other non-lists fail as for `head`. */
  lemma EmptyNonList(e: Value, env: EnvId, st: Store, n: nat)
    requires Valid(st) && env < |st.envs| && Bound(e, |st.envs|, st.closures)
    ensures var o := Eval(List([Sym("empty"), e]), env, st, n + 1);
      var a := Eval(e, env, st, n);
      (a.res.Err? ==> o == a) &&
      (a.res.Ok? && a.res.value.Sym? ==> o == Outcome(Ok(Bool(a.res.value.name == [])), a.st)) &&
      (a.res.Ok? && (a.res.value.Int? || a.res.value.Bool?) ==> o == Outcome(Err(Host(TypeError)), a.st)) &&
      (a.res.Ok? && a.res.value.Closure? ==> o == Outcome(Err(Host(AttributeError)), a.st))
  {
    assert [Sym("empty"), e][1] == e;
    UnfoldKeyword([Sym("empty"), e], env, st, n);
  }

  /** `head`, `tail` and `empty` of the quoted empty list. */
  lemma EmptyListPrimitives(env: EnvId, st: Store, n: nat)
    requires Valid(st) && env < |st.envs|
    ensures var nil := List([Sym("quote"), List([])]);
      Eval(List([Sym("head"), nil]), env, st, n + 2) == Outcome(Err(EmptyList), st) &&
      Eval(List([Sym("tail"), nil]), env, st, n + 2) == Outcome(Ok(List([])), st) &&
      Eval(List([Sym("empty"), nil]), env, st, n + 2) == Outcome(Ok(Bool(true)), st)
  {
    var nil := List([Sym("quote"), List([])]);
    QuoteUnevaluated(List([]), env, st, n);
    HeadTakesFirst(nil, env, st, n + 1);
    TailDropsFirst(nil, env, st, n + 1);
    EmptyIffNoElements(nil, env, st, n + 1);
  }

  // ---- arithmetic -------------------------------------------------------------------------

  /** Python's floor division and modulo: the quotient rounds down, the remainder
      takes the sign of the divisor and is smaller than it, and the two recombine to
      the dividend. */
  lemma FloorDivMod(a: int, b: int)
    requires b != 0
    ensures b * FloorDiv(a, b) + FloorMod(a, b) == a
    ensures b > 0 ==> 0 <= FloorMod(a, b) < b
    ensures b < 0 ==> b < FloorMod(a, b) <= 0
  {
    if b < 0 {
      var q := (-a) / (-b);
      assert (-b) * q + (-a) % (-b) == -a;
      assert FloorMod(a, b) == -((-a) % (-b));
    }
  }

  lemma FloorDivExamples()
    ensures FloorDiv(7, 2) == 3 && FloorDiv(-7, 2) == -4 && FloorDiv(7, -2) == -4
    ensures FloorMod(7, 2) == 1 && FloorMod(-7, 2) == 1 && FloorMod(7, -2) == -1
  {
  }

  /** Arithmetic on integer literals is the fold of the operator over them, and
      leaves the store as it was. */
  lemma MathOfIntegers(op: string, args: seq<Value>, env: EnvId, st: Store, n: nat)
    requires Valid(st) && env < |st.envs| && op in MathOperators
    requires args != [] && forall x | x in args :: x.Int?
    ensures Eval(List([Sym(op)] + args), env, st, n + 2) == Outcome(MathFold(op, args[0], args[1..]), st)
  {
    var items := [Sym(op)] + args;
    assert items[1..] == args;
    EvalListLiterals(args, env, st, n);
    UnfoldMath(items, env, st, n + 1);
  }

  /** Every operator applied to two integers. */
  lemma MathOnTwo(op: string, x: int, y: int, env: EnvId, st: Store, n: nat)
    requires Valid(st) && env < |st.envs| && op in MathOperators
    ensures var r := Eval(List([Sym(op), Int(x), Int(y)]), env, st, n + 2);
      r.st == st &&
      r.res == (
        if op == "+" then Ok(Int(x + y))
        else if op == "-" then Ok(Int(x - y))
        else if op == "*" then Ok(Int(x * y))
        else if op == ">" then Ok(Bool(x > y))
        else if y == 0 then Err(Host(ZeroDivisionError))
        else if op == "/" then Ok(Int(FloorDiv(x, y)))
        else Ok(Int(FloorMod(x, y))))
  {
    MathOfIntegers(op, [Int(x), Int(y)], env, st, n);
    assert [Sym(op)] + [Int(x), Int(y)] == [Sym(op), Int(x), Int(y)];
    assert [Int(x), Int(y)][1..] == [Int(y)];
    assert MathFold(op, Int(x), [Int(y)]) == MathStep(op, Int(x), Int(y));
  }

  /** Before any arithmetic, every operand is evaluated, left to right: the first
      operand error stops the form; no operands at all leave `reduce` with nothing to
      fold (TypeError); any operand value that is not an integer is refused; and
      integer values, however they were computed, are folded with the operator. */
  lemma MathNotIntegers(op: string, args: seq<Value>, env: EnvId, st: Store, n: nat)
    requires Valid(st) && env < |st.envs| && op in MathOperators
    requires forall x | x in args :: Bound(x, |st.envs|, st.closures)
    ensures var o := Eval(List([Sym(op)] + args), env, st, n + 1);
      var a := EvalList(args, env, st, n);
      (a.res.Err? ==> o == Outcome(Err(a.res.error), a.st)) &&
      (a.res.Ok? && a.res.value == [] ==> o == Outcome(Err(Host(TypeError)), a.st)) &&
      (a.res.Ok? && (exists x | x in a.res.value :: !IsInteger(x)) ==> o == Outcome(Err(NotIntegers), a.st)) &&
      (a.res.Ok? && a.res.value != [] && (forall x | x in a.res.value :: x.Int?) ==>
        o == Outcome(MathFold(op, a.res.value[0], a.res.value[1..]), a.st))
  {
    var items := [Sym(op)] + args;
    assert items[1..] == args;
    assert forall x | x in items :: x == Sym(op) || x in args;
    UnfoldMath(items, env, st, n);
  }

  /** `(op 1 #t)`: booleans are not integers. */
  lemma MathBooleanOperand(op: string, env: EnvId, st: Store, n: nat)
    requires Valid(st) && env < |st.envs| && op in MathOperators
    ensures Eval(List([Sym(op), Int(1), Bool(true)]), env, st, n + 2) ==
      Outcome(Err(NotIntegers), st)
  {
    EvalListLiterals([Int(1), Bool(true)], env, st, n);
    MathNotIntegers(op, [Int(1), Bool(true)], env, st, n + 1);
    assert [Sym(op)] + [Int(1), Bool(true)] == [Sym(op), Int(1), Bool(true)];
    assert Bool(true) in [Int(1), Bool(true)];
  }

  /** A single operand is returned as it is, for every operator. */
  lemma MathOnOne(op: string, x: int, env: EnvId, st: Store, n: nat)
    requires Valid(st) && env < |st.envs| && op in MathOperators
    ensures Eval(List([Sym(op), Int(x)]), env, st, n + 2) == Outcome(Ok(Int(x)), st)
  {
    MathOfIntegers(op, [Int(x)], env, st, n);
    assert [Sym(op)] + [Int(x)] == [Sym(op), Int(x)];
  }

  /** `(> 3 2 1)` folds left: `3 > 2` is true, and true, as 1, is not greater than 1. */
  lemma ChainedGreater(env: EnvId, st: Store, n: nat)
    requires Valid(st) && env < |st.envs|
    ensures Eval(List([Sym(">"), Int(3), Int(2), Int(1)]), env, st, n + 2).res == Ok(Bool(false))
  {
    var args := [Int(3), Int(2), Int(1)];
    MathOfIntegers(">", args, env, st, n);
    assert [Sym(">")] + args == [Sym(">"), Int(3), Int(2), Int(1)];
    assert args[1..] == [Int(2), Int(1)];
    assert [Int(2), Int(1)][1..] == [Int(1)];
    assert MathFold(">", Bool(true), [Int(1)]) == Ok(Bool(false));
  }
}
