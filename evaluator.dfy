/** The tree-walking evaluator (diylisp/evaluator.py).

    `evaluate(ast, env)` becomes `Eval(ast, env, st, fuel)`: `env` names an environment
    in the store `st` of all environment objects, and the outcome carries the store as
    the evaluation left it, on errors too, since a `define` performed before an error
    stays performed. `fuel` bounds the nesting depth of evaluation and stands in for
    Python's stack limit. */
module Evaluator {
  import opened Errors
  import opened Ast
  import opened Strings
  import opened Types
  import Parser

  datatype Outcome<T> = Outcome(res: Result<T>, st: Store)

  const Keywords: set<string> :=
    {"quote", "atom", "eq", "if", "define", "lambda", "cons", "head", "tail", "empty"}

  const MathOperators: set<string> := {"+", "-", "/", "*", "mod", ">"}

  // ---- what an evaluation may do to the store -----------------------------------

  /** From `st` to `st2`, evaluating in environment `env`: environments are only added,
      no environment other than `env` changes, `env` only gains bindings, and no
      closure number is reused. */
  predicate Extends(st: Store, st2: Store, env: EnvId) {
    && env < |st.envs| <= |st2.envs|
    && st.closures <= st2.closures
    && Valid(st2)
    && (forall i | 0 <= i < |st.envs| && i != env :: st2.envs[i] == st.envs[i])
    && (forall k | k in st.envs[env] :: k in st2.envs[env] && st2.envs[env][k] == st.envs[env][k])
  }

  lemma ExtendsTrans(a: Store, b: Store, c: Store, env: EnvId)
    requires Extends(a, b, env) && Extends(b, c, env)
    ensures Extends(a, c, env)
  {
  }

  /** Work done in an environment created after `a` leaves `a`'s environments alone. */
  lemma ExtendsInner(a: Store, b: Store, c: Store, env: EnvId, inner: EnvId)
    requires Extends(a, b, env) && Extends(b, c, inner) && |a.envs| <= inner
    ensures Extends(a, c, env)
  {
  }

  lemma BoundAllMono(xs: seq<Value>, n: nat, c: nat, m: nat, d: nat)
    requires forall x | x in xs :: Bound(x, n, c)
    requires n <= m && c <= d
    ensures forall x | x in xs :: Bound(x, m, d)
  {
    forall x | x in xs ensures Bound(x, m, d) {
      BoundMono(x, n, c, m, d);
    }
  }

  // ---- Python semantics the handlers rely on ------------------------------------

  /** Python truth: False, 0, the empty string and the empty list are false; a closure
      object is true. */
  function Truthy(v: Value): bool {
    match v
    case Bool(b) => b
    case Int(i) => i != 0
    case Sym(s) => |s| > 0
    case List(items) => |items| > 0
    case Closure(_, _, _, _) => true
  }

  /** `operator.floordiv` on integers: the quotient rounded towards minus infinity. */
  function FloorDiv(a: int, b: int): int
    requires b != 0
  {
    if b > 0 then a / b else (-a) / (-b)
  }

  /** `operator.mod` on integers: what remains after FloorDiv. */
  function FloorMod(a: int, b: int): int
    requires b != 0
  {
    a - b * FloorDiv(a, b)
  }

  /** The number a fold accumulator stands for: after `>` it is a boolean, which
      Python compares as 0 or 1. */
  function Num(v: Value): int
    requires v.Int? || v.Bool?
  {
    if v.Int? then v.i else if v.b then 1 else 0
  }

  /** One step of the fold of the operator `op` over the arguments. */
  function MathStep(op: string, acc: Value, arg: Value): (r: Result<Value>)
    requires op in MathOperators && (acc.Int? || acc.Bool?) && arg.Int?
    ensures r.Ok? ==> (r.value.Int? || r.value.Bool?) && Syntax(r.value)
  {
    var x := Num(acc);
    var y := arg.i;
    if op == "+" then Ok(Int(x + y))
    else if op == "-" then Ok(Int(x - y))
    else if op == "*" then Ok(Int(x * y))
    else if op == ">" then Ok(Bool(x > y))
    else if y == 0 then Err(Host(ZeroDivisionError))
    else if op == "/" then Ok(Int(FloorDiv(x, y)))
    else Ok(Int(FloorMod(x, y)))
  }

  /** `reduce` from the accumulator over the remaining arguments, left to right. */
  function MathFold(op: string, acc: Value, args: seq<Value>): (r: Result<Value>)
    requires op in MathOperators && (acc.Int? || acc.Bool?)
    requires forall a | a in args :: a.Int?
    ensures r.Ok? ==> (r.value.Int? || r.value.Bool?) && (args == [] ==> r.value == acc)
    ensures r.Ok? && args != [] ==> Syntax(r.value)
    decreases |args|
  {
    if args == [] then Ok(acc)
    else
      var next :- MathStep(op, acc, args[0]);
      MathFold(op, next, args[1..])
  }

  /** The dictionary pairing parameters with arguments, as seen by symbol lookups: one binding per symbol
      parameter, to the argument at its last occurrence. Other hashable parameters
      give keys that no lookup can reach. */
  function ZipBindings(params: seq<Value>, args: seq<Value>): (b: Bindings)
    requires |params| == |args|
    ensures forall k :: k in b <==> Sym(k) in params
    ensures forall k | k in b :: b[k] in args
  {
    if params == [] then map[]
    else
      var n := |params| - 1;
      var rest := ZipBindings(params[..n], args[..n]);
      assert params == params[..n] + [params[n]];
      if params[n].Sym? then rest[params[n].name := args[n]] else rest
  }

  /** A symbol parameter is bound to the argument at its last occurrence, and only
      that argument. */
  lemma {:induction false} ZipBindingsLast(params: seq<Value>, args: seq<Value>, i: nat)
    requires |params| == |args| && i < |params| && params[i].Sym?
    requires params[i] !in params[i + 1..]
    ensures params[i].name in ZipBindings(params, args)
    ensures ZipBindings(params, args)[params[i].name] == args[i]
  {
    var n := |params| - 1;
    var rest := ZipBindings(params[..n], args[..n]);
    assert ZipBindings(params, args) == if params[n].Sym? then rest[params[n].name := args[n]] else rest;
    if i < n {
      assert params[i + 1..] == params[..n][i + 1..] + [params[n]];
      assert params[n] != params[i];
      ZipBindingsLast(params[..n], args[..n], i);
      assert params[..n][i] == params[i] && args[..n][i] == args[i];
    }
  }

  // ---- evaluate ----------------------------------------------------------------------

  /** `evaluate(ast, env)` */
  function Eval(ast: Value, env: EnvId, st: Store, fuel: nat): (o: Outcome<Value>)
    requires Valid(st) && env < |st.envs| && Bound(ast, |st.envs|, st.closures)
    ensures Extends(st, o.st, env)
    ensures o.res.Ok? ==> Bound(o.res.value, |o.st.envs|, o.st.closures)
    decreases fuel, 0
  {
    if fuel == 0 then Outcome(Err(OutOfFuel), st)
    else
      match ast
      case Bool(_) => Outcome(Ok(ast), st)
      case Int(_) => Outcome(Ok(ast), st)
      case Sym(name) => Outcome(Lookup(st, env, name), st)
      case Closure(_, _, _, _) => Outcome(Err(Host(AttributeError)), st)
      case List(items) =>
        if items == [] then Outcome(Err(Host(IndexError)), st)
        else EvalForm(items, env, st, fuel - 1)
  }

  /** A non-empty list: keyword forms and operators by the head symbol; otherwise the
      head's value is applied. */
  function EvalForm(items: seq<Value>, env: EnvId, st: Store, fuel: nat): (o: Outcome<Value>)
    requires Valid(st) && env < |st.envs| && items != []
    requires forall x | x in items :: Bound(x, |st.envs|, st.closures)
    ensures Extends(st, o.st, env)
    ensures o.res.Ok? ==> Bound(o.res.value, |o.st.envs|, o.st.closures)
    decreases fuel, 4
  {
    var head := items[0];
    if head.List? then
      var h := Eval(head, env, st, fuel);
      if h.res.Err? then Outcome(Err(h.res.error), h.st)
      else
        BoundAllMono(items, |st.envs|, st.closures, |h.st.envs|, h.st.closures);
        var o := Apply(h.res.value, items, env, h.st, fuel);
        ExtendsTrans(st, h.st, o.st, env);
        o
    else if head.Sym? && head.name in Keywords then EvalKeyword(head.name, items, env, st, fuel)
    else if head.Sym? && head.name in MathOperators then EvalMath(head.name, items, env, st, fuel)
    else if head.Sym? then
      match Lookup(st, env, head.name)
      case Err(e) => Outcome(Err(e), st)
      case Ok(f) => Apply(f, items, env, st, fuel)
    else Apply(head, items, env, st, fuel)
  }

  /** The `is_closure(ast[0])` branch of evaluate and the final `not a function` error. */
  function Apply(f: Value, items: seq<Value>, env: EnvId, st: Store, fuel: nat): (o: Outcome<Value>)
    requires Valid(st) && env < |st.envs| && items != [] && Bound(f, |st.envs|, st.closures)
    requires forall x | x in items :: Bound(x, |st.envs|, st.closures)
    ensures Extends(st, o.st, env)
    ensures o.res.Ok? ==> Bound(o.res.value, |o.st.envs|, o.st.closures)
    decreases fuel, 2
  {
    if !f.Closure? then
      match Parser.Unparse(f)
      case Err(e) => Outcome(Err(e), st)
      case Ok(text) => Outcome(Err(NotAFunction(text)), st)
    else
      var a := EvalList(items[1..], env, st, fuel);
      if a.res.Err? then Outcome(Err(a.res.error), a.st)
      else
        var args := a.res.value;
        if |args| != |f.params| then Outcome(Err(WrongArgCount(|f.params|, |args|)), a.st)
        else if exists p | p in f.params :: p.List? then Outcome(Err(Host(TypeError)), a.st)
        else
          BoundMono(f, |st.envs|, st.closures, |a.st.envs|, a.st.closures);
          var (st2, child) := Extend(a.st, f.env, ZipBindings(f.params, args));
          BoundMono(f.body, |a.st.envs|, a.st.closures, |st2.envs|, st2.closures);
          var r := Eval(f.body, child, st2, fuel);
          ExtendsTrans(st, a.st, st2, env);
          ExtendsInner(st, st2, r.st, env, child);
          r
  }

  /** `[evaluate(x, env) for x in xs]`: left to right, each in the store the previous
      one left; the first error stops the list. */
  function EvalList(xs: seq<Value>, env: EnvId, st: Store, fuel: nat): (o: Outcome<seq<Value>>)
    requires Valid(st) && env < |st.envs|
    requires forall x | x in xs :: Bound(x, |st.envs|, st.closures)
    ensures Extends(st, o.st, env)
    ensures o.res.Ok? ==> |o.res.value| == |xs| && forall v | v in o.res.value :: Bound(v, |o.st.envs|, o.st.closures)
    decreases fuel, 1, |xs|
  {
    if xs == [] then Outcome(Ok([]), st)
    else
      var h := Eval(xs[0], env, st, fuel);
      if h.res.Err? then Outcome(Err(h.res.error), h.st)
      else
        BoundAllMono(xs[1..], |st.envs|, st.closures, |h.st.envs|, h.st.closures);
        var t := EvalList(xs[1..], env, h.st, fuel);
        ExtendsTrans(st, h.st, t.st, env);
        if t.res.Err? then Outcome(Err(t.res.error), t.st)
        else
          BoundMono(h.res.value, |h.st.envs|, h.st.closures, |t.st.envs|, t.st.closures);
          Outcome(Ok([h.res.value] + t.res.value), t.st)
  }

  /** The `keywords` table. */
  function EvalKeyword(name: string, items: seq<Value>, env: EnvId, st: Store, fuel: nat): (o: Outcome<Value>)
    requires name in Keywords
    requires Valid(st) && env < |st.envs| && items != []
    requires forall x | x in items :: Bound(x, |st.envs|, st.closures)
    ensures Extends(st, o.st, env)
    ensures o.res.Ok? ==> Bound(o.res.value, |o.st.envs|, o.st.closures)
    decreases fuel, 3
  {
    if name == "quote" then EvalQuote(items, env, st)
    else if name == "atom" then EvalAtom(items, env, st, fuel)
    else if name == "eq" then EvalEq(items, env, st, fuel)
    else if name == "if" then EvalIf(items, env, st, fuel)
    else if name == "define" then EvalDefine(items, env, st, fuel)
    else if name == "lambda" then EvalLambda(items, env, st)
    else if name == "cons" then EvalCons(items, env, st, fuel)
    else if name == "head" then EvalHead(items, env, st, fuel)
    else if name == "tail" then EvalTail(items, env, st, fuel)
    else EvalEmpty(items, env, st, fuel)
  }

  // ---- the special forms ---------------------------------------------------------------

  /** `eval_quote` */
  function EvalQuote(items: seq<Value>, env: EnvId, st: Store): (o: Outcome<Value>)
    requires Valid(st) && env < |st.envs|
    requires forall x | x in items :: Bound(x, |st.envs|, st.closures)
    ensures o.st == st
    ensures o.res == if |items| == 2 then Ok(items[1]) else Err(Malformed("quote"))
  {
    if |items| != 2 then Outcome(Err(Malformed("quote")), st)
    else Outcome(Ok(items[1]), st)
  }

  /** `eval_atom` */
  function EvalAtom(items: seq<Value>, env: EnvId, st: Store, fuel: nat): (o: Outcome<Value>)
    requires Valid(st) && env < |st.envs|
    requires forall x | x in items :: Bound(x, |st.envs|, st.closures)
    ensures Extends(st, o.st, env)
    ensures o.res.Ok? ==> o.res.value.Bool?
    decreases fuel, 2
  {
    if |items| != 2 then Outcome(Err(Malformed("atom")), st)
    else
      var a := Eval(items[1], env, st, fuel);
      if a.res.Err? then a
      else Outcome(Ok(Bool(IsAtom(a.res.value))), a.st)
  }

  /** `eval_eq` */
  function EvalEq(items: seq<Value>, env: EnvId, st: Store, fuel: nat): (o: Outcome<Value>)
    requires Valid(st) && env < |st.envs|
    requires forall x | x in items :: Bound(x, |st.envs|, st.closures)
    ensures Extends(st, o.st, env)
    ensures o.res.Ok? ==> o.res.value.Bool?
    decreases fuel, 2
  {
    if |items| != 3 then Outcome(Err(Malformed("eq")), st)
    else
      var a := EvalList(items[1..], env, st, fuel);
      if a.res.Err? then Outcome(Err(a.res.error), a.st)
      else
        var args := a.res.value;
        Outcome(Ok(Bool(IsAtom(args[0]) && args[0] == args[1])), a.st)
  }

  /** `eval_if` */
  function EvalIf(items: seq<Value>, env: EnvId, st: Store, fuel: nat): (o: Outcome<Value>)
    requires Valid(st) && env < |st.envs|
    requires forall x | x in items :: Bound(x, |st.envs|, st.closures)
    ensures Extends(st, o.st, env)
    ensures o.res.Ok? ==> Bound(o.res.value, |o.st.envs|, o.st.closures)
    decreases fuel, 2
  {
    if |items| != 4 then Outcome(Err(Malformed("if")), st)
    else
      var c := Eval(items[1], env, st, fuel);
      if c.res.Err? then c
      else
        var branch := if Truthy(c.res.value) then items[2] else items[3];
        BoundMono(branch, |st.envs|, st.closures, |c.st.envs|, c.st.closures);
        var r := Eval(branch, env, c.st, fuel);
        ExtendsTrans(st, c.st, r.st, env);
        r
  }

  /** `eval_define`: the value is evaluated first, then bound with `env.set`. */
  function EvalDefine(items: seq<Value>, env: EnvId, st: Store, fuel: nat): (o: Outcome<Value>)
    requires Valid(st) && env < |st.envs|
    requires forall x | x in items :: Bound(x, |st.envs|, st.closures)
    ensures Extends(st, o.st, env)
    ensures o.res.Ok? ==> o.res.value == Sym("")
    decreases fuel, 2
  {
    if |items| != 3 || !items[1].Sym? then Outcome(Err(Malformed("define")), st)
    else
      var v := Eval(items[2], env, st, fuel);
      if v.res.Err? then v
      else
        match Set(v.st, env, items[1].name, v.res.value)
        case Err(e) => Outcome(Err(e), v.st)
        case Ok(st2) => Outcome(Ok(Sym("")), st2)
  }

  /** `eval_lambda`: no evaluation; a new closure over the current environment. */
  function EvalLambda(items: seq<Value>, env: EnvId, st: Store): (o: Outcome<Value>)
    requires Valid(st) && env < |st.envs|
    requires forall x | x in items :: Bound(x, |st.envs|, st.closures)
    ensures Extends(st, o.st, env)
    ensures o.res.Ok? ==> Bound(o.res.value, |o.st.envs|, o.st.closures)
    ensures o.st.envs == st.envs
  {
    if |items| != 3 then Outcome(Err(Malformed("lambda")), st)
    else if !items[1].List? then
      match Parser.Unparse(items[1])
      case Err(e) => Outcome(Err(e), st)
      case Ok(text) => Outcome(Err(NonList(text)), st)
    else
      assert items[1] in items && items[2] in items;
      assert Bound(items[1], |st.envs|, st.closures) && Bound(items[2], |st.envs|, st.closures);
      assert forall p | p in items[1].items :: Bound(p, |st.envs|, st.closures);
      var (c, st2) := NewClosure(st, env, items[1].items, items[2]);
      Outcome(Ok(c), st2)
  }

  /** `eval_cons`: `[a] + lst`, which Python refuses for a non-list `lst`. */
  function EvalCons(items: seq<Value>, env: EnvId, st: Store, fuel: nat): (o: Outcome<Value>)
    requires Valid(st) && env < |st.envs|
    requires forall x | x in items :: Bound(x, |st.envs|, st.closures)
    ensures Extends(st, o.st, env)
    ensures o.res.Ok? ==> Bound(o.res.value, |o.st.envs|, o.st.closures)
    decreases fuel, 2
  {
    if |items| != 3 then Outcome(Err(Malformed("cons")), st)
    else
      var a := EvalList(items[1..], env, st, fuel);
      if a.res.Err? then Outcome(Err(a.res.error), a.st)
      else
        var args := a.res.value;
        assert args[0] in args && args[1] in args;
        if args[1].List? then Outcome(Ok(List([args[0]] + args[1].items)), a.st)
        else Outcome(Err(Host(TypeError)), a.st)
  }

  /** `eval_head`: `lst[0]` after the emptiness check; a symbol is a Python string and
      gives its first character. */
  function EvalHead(items: seq<Value>, env: EnvId, st: Store, fuel: nat): (o: Outcome<Value>)
    requires Valid(st) && env < |st.envs|
    requires forall x | x in items :: Bound(x, |st.envs|, st.closures)
    ensures Extends(st, o.st, env)
    ensures o.res.Ok? ==> Bound(o.res.value, |o.st.envs|, o.st.closures)
    decreases fuel, 2
  {
    if |items| != 2 then Outcome(Err(Malformed("head")), st)
    else
      var a := Eval(items[1], env, st, fuel);
      if a.res.Err? then a
      else
        match a.res.value
        case List(xs) =>
          if xs == [] then Outcome(Err(EmptyList), a.st)
          else
            assert xs[0] in xs;
            Outcome(Ok(xs[0]), a.st)
        case Sym(s) => Outcome(if s == [] then Err(EmptyList) else Ok(Sym([s[0]])), a.st)
        case Closure(_, _, _, _) => Outcome(Err(Host(AttributeError)), a.st)
        case _ => Outcome(Err(Host(TypeError)), a.st)
  }

  /** `eval_tail`: `lst[1:]`, for strings too. */
  function EvalTail(items: seq<Value>, env: EnvId, st: Store, fuel: nat): (o: Outcome<Value>)
    requires Valid(st) && env < |st.envs|
    requires forall x | x in items :: Bound(x, |st.envs|, st.closures)
    ensures Extends(st, o.st, env)
    ensures o.res.Ok? ==> Bound(o.res.value, |o.st.envs|, o.st.closures)
    decreases fuel, 2
  {
    if |items| != 2 then Outcome(Err(Malformed("tail")), st)
    else
      var a := Eval(items[1], env, st, fuel);
      if a.res.Err? then a
      else
        match a.res.value
        case List(xs) => Outcome(Ok(List(if xs == [] then [] else xs[1..])), a.st)
        case Sym(s) => Outcome(Ok(Sym(if s == [] then [] else s[1..])), a.st)
        case Closure(_, _, _, _) => Outcome(Err(Host(AttributeError)), a.st)
        case _ => Outcome(Err(Host(TypeError)), a.st)
  }

  /** `eval_empty`: `len(lst) == 0`, for strings too. */
  function EvalEmpty(items: seq<Value>, env: EnvId, st: Store, fuel: nat): (o: Outcome<Value>)
    requires Valid(st) && env < |st.envs|
    requires forall x | x in items :: Bound(x, |st.envs|, st.closures)
    ensures Extends(st, o.st, env)
    ensures o.res.Ok? ==> o.res.value.Bool?
    decreases fuel, 2
  {
    if |items| != 2 then Outcome(Err(Malformed("empty")), st)
    else
      var a := Eval(items[1], env, st, fuel);
      if a.res.Err? then a
      else
        match a.res.value
        case List(xs) => Outcome(Ok(Bool(|xs| == 0)), a.st)
        case Sym(s) => Outcome(Ok(Bool(|s| == 0)), a.st)
        case Closure(_, _, _, _) => Outcome(Err(Host(AttributeError)), a.st)
        case _ => Outcome(Err(Host(TypeError)), a.st)
  }

  /** `eval_math`: every argument is evaluated, then all must be integers, then the
      operator is folded over them. With no arguments `reduce` itself fails. */
  function EvalMath(op: string, items: seq<Value>, env: EnvId, st: Store, fuel: nat): (o: Outcome<Value>)
    requires op in MathOperators
    requires Valid(st) && env < |st.envs| && items != []
    requires forall x | x in items :: Bound(x, |st.envs|, st.closures)
    ensures Extends(st, o.st, env)
    ensures o.res.Ok? ==> Bound(o.res.value, |o.st.envs|, o.st.closures)
    decreases fuel, 2
  {
    var a := EvalList(items[1..], env, st, fuel);
    if a.res.Err? then Outcome(Err(a.res.error), a.st)
    else
      var args := a.res.value;
      if args == [] then Outcome(Err(Host(TypeError)), a.st)
      else if !(forall x | x in args :: IsInteger(x)) then Outcome(Err(NotIntegers), a.st)
      else
        assert args[0] in args;
        assert forall x | x in args[1..] :: x in args;
        var r := MathFold(op, args[0], args[1..]);
        if r.Ok? && |args| > 1 then
          SyntaxBound(r.value, |a.st.envs|, a.st.closures);
          Outcome(r, a.st)
        else Outcome(r, a.st)
  }
}
