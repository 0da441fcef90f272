/** Values of the language. The parser produces symbols, integers, booleans and
    lists; evaluating a `lambda` produces closures. A symbol is a Python `str`,
    a list a Python `list`, a closure a `Closure` object. */
module Ast {

  /** An environment is named by its index in the evaluator's store. */
  type EnvId = nat

  datatype Value =
    | Sym(name: string)
    | Int(i: int)
    | Bool(b: bool)
    | List(items: seq<Value>)
      /** `id` stands for the identity of the Python object: every evaluation of a
          `lambda` receives a new one, so two closures are equal exactly when they
          are the same object. */
    | Closure(id: nat, env: EnvId, params: seq<Value>, body: Value)

  predicate IsSymbol(x: Value) {
    x.Sym?
  }

  predicate IsList(x: Value) {
    x.List?
  }

  predicate IsBoolean(x: Value) {
    x.Bool?
  }

  /** Unlike Python's `isinstance(x, int)`, booleans are not integers here. */
  predicate IsInteger(x: Value) {
    x.Int?
  }

  predicate IsClosure(x: Value) {
    x.Closure?
  }

  /** `is_atom`: the atoms are exactly the values that are not lists. */
  function IsAtom(x: Value): (atom: bool)
    ensures atom <==> !IsList(x)
  {
    IsSymbol(x) || IsInteger(x) || IsBoolean(x) || IsClosure(x)
  }

  /** Every closure inside `v` refers to one of the first `n` environments and carries
      one of the first `c` identities, the ones handed out so far. */
  predicate Bound(v: Value, n: nat, c: nat) {
    match v
    case List(items) => forall x | x in items :: Bound(x, n, c)
    case Closure(id, env, params, body) =>
      id < c && env < n && (forall p | p in params :: Bound(p, n, c)) && Bound(body, n, c)
    case _ => true
  }

  /** Values without closures: everything the parser produces. */
  predicate Syntax(v: Value) {
    match v
    case List(items) => forall x | x in items :: Syntax(x)
    case Closure(_, _, _, _) => false
    case _ => true
  }

  lemma {:induction false} BoundMono(v: Value, n: nat, c: nat, m: nat, d: nat)
    requires Bound(v, n, c) && n <= m && c <= d
    ensures Bound(v, m, d)
  {
    match v
    case List(items) =>
      forall x | x in items ensures Bound(x, m, d) { BoundMono(x, n, c, m, d); }
    case Closure(_, _, params, body) =>
      forall p | p in params ensures Bound(p, m, d) { BoundMono(p, n, c, m, d); }
      BoundMono(body, n, c, m, d);
    case _ =>
  }

  lemma {:induction false} SyntaxBound(v: Value, n: nat, c: nat)
    requires Syntax(v)
    ensures Bound(v, n, c)
  {
    match v
    case List(items) =>
      forall x | x in items ensures Bound(x, n, c) { SyntaxBound(x, n, c); }
    case _ =>
  }
}
