/** Closures and environments (diylisp/types.py).

    An environment is one flat dictionary from symbol to value. `lookup` reads it,
    `set` adds a binding that is not there yet, and `extend` copies it into a new
    environment with some bindings overridden. The class `Environment` is one such
    object. The evaluator shares environments between closures by reference, so it
    keeps all environment objects in a `Store`, where an environment's index plays
    the part of the object reference; both use the dictionary-level functions below. */
module Types {
  import opened Errors
  import opened Ast
  import opened Strings

  type Bindings = map<string, Value>

  // ---- one environment's dictionary -------------------------------------------

  /** `lookup`: the bound value, or a LispError carrying the symbol. */
  function LookupIn(variables: Bindings, symbol: string): (r: Result<Value>)
    ensures r.Ok? <==> symbol in variables
    ensures r.Ok? ==> r.value == variables[symbol]
    ensures r.Err? ==> r.error == Unbound(symbol)
  {
    if symbol in variables then Ok(variables[symbol]) else Err(Unbound(symbol))
  }

  /** `set`: refuses a symbol that is already bound; otherwise adds exactly that one
      binding and keeps every other. */
  function Insert(variables: Bindings, symbol: string, value: Value): (r: Result<Bindings>)
    ensures r.Ok? <==> symbol !in variables
    ensures r.Err? ==> r.error == AlreadyDefined(symbol)
    ensures r.Ok? ==> r.value.Keys == variables.Keys + {symbol} && r.value[symbol] == value
    ensures r.Ok? ==> forall k | k in variables :: r.value[k] == variables[k]
  {
    if symbol in variables then Err(AlreadyDefined(symbol)) else Ok(variables[symbol := value])
  }

  /** The dictionary `extend` builds: the receiver's bindings, overridden by `vs`. */
  function Overlay(variables: Bindings, vs: Bindings): (r: Bindings)
    ensures r.Keys == variables.Keys + vs.Keys
    ensures forall k | k in vs :: r[k] == vs[k]
    ensures forall k | k in variables && k !in vs :: r[k] == variables[k]
  {
    variables + vs
  }

  /** Lookup after a successful `set` finds the new value and nothing else moved. */
  lemma LookupAfterInsert(variables: Bindings, symbol: string, value: Value, other: string)
    requires Insert(variables, symbol, value).Ok?
    ensures LookupIn(Insert(variables, symbol, value).value, symbol) == Ok(value)
    ensures other != symbol ==>
      LookupIn(Insert(variables, symbol, value).value, other) == LookupIn(variables, other)
  {
  }

  /** Lookup in an extension prefers the new bindings and falls back to the receiver's. */
  lemma LookupAfterOverlay(variables: Bindings, vs: Bindings, symbol: string)
    ensures LookupIn(Overlay(variables, vs), symbol) ==
      if symbol in vs then Ok(vs[symbol]) else LookupIn(variables, symbol)
  {
  }

  // ---- Environment objects -----------------------------------------------------

  class Environment {
    var variables: Bindings

    constructor (variables: Bindings)
      ensures this.variables == variables
    {
      this.variables := variables;
    }

    function Lookup(symbol: string): (r: Result<Value>)
      reads this
      ensures r.Ok? <==> symbol in variables
      ensures r.Ok? ==> r.value == variables[symbol]
      ensures r.Err? ==> r.error == Unbound(symbol)
    {
      LookupIn(variables, symbol)
    }

    /** A new environment over a fresh dictionary; the receiver is untouched. */
    method Extend(vs: Bindings) returns (e: Environment)
      ensures fresh(e) && e.variables == Overlay(variables, vs)
      ensures unchanged(this)
    {
      e := new Environment(Overlay(variables, vs));
    }

    /** Adds the binding in place, or fails and leaves the dictionary as it was. */
    method Set(symbol: string, value: Value) returns (r: Result<()>)
      modifies this
      ensures r.Ok? <==> symbol !in old(variables)
      ensures r.Err? ==> r.error == AlreadyDefined(symbol) && variables == old(variables)
      ensures r.Ok? ==> variables == old(variables)[symbol := value]
    {
      var inserted := Insert(variables, symbol, value);
      if inserted.Err? {
        return Err(inserted.error);
      }
      variables := inserted.value;
      return Ok(());
    }
  }

  /** Extending and then defining in either environment is not seen by the other:
      the two hold separate dictionaries from the moment `extend` returns. */
  method ExtendThenSet(parent: Environment, vs: Bindings, symbol: string, a: Value, b: Value)
      returns (child: Environment)
    modifies parent
    ensures fresh(child) && child != parent
    ensures parent.variables ==
      if symbol in old(parent.variables) then old(parent.variables)
      else old(parent.variables)[symbol := b]
    ensures child.variables ==
      var c := Overlay(old(parent.variables), vs);
      if symbol in c then c else c[symbol := a]
  {
    child := parent.Extend(vs);
    var _ := child.Set(symbol, a);
    var _ := parent.Set(symbol, b);
  }

  // ---- the closure object --------------------------------------------------------

  /** `Closure.__str__` */
  function ClosureText(c: Value): (r: string)
    requires c.Closure?
    ensures |r| > 10 && r[..9] == "<closure/" && r[|r| - 1] == '>'
    ensures IsDigits(r[9..|r| - 1]) && DigitsValue(r[9..|r| - 1]) == |c.params|
  {
    var n := NatToString(|c.params|);
    NatToStringValue(|c.params|);
    assert ("<closure/" + n + ">")[9..|n| + 9] == n;
    "<closure/" + n + ">"
  }

  // ---- all environment objects: the evaluator's store -------------------------

  /** The environments created so far, by index, and how many closures exist. */
  datatype Store = Store(envs: seq<Bindings>, closures: nat)

  /** Every bound value refers to allocated environments only, and every closure in
      it carries an identity already handed out. */
  predicate Valid(st: Store) {
    forall i, k | 0 <= i < |st.envs| && k in st.envs[i] :: Bound(st.envs[i][k], |st.envs|, st.closures)
  }

  /** `env.lookup(symbol)` on the environment with index `e`. */
  function Lookup(st: Store, e: EnvId, symbol: string): (r: Result<Value>)
    requires Valid(st) && e < |st.envs|
    ensures r == LookupIn(st.envs[e], symbol)
    ensures r.Ok? ==> Bound(r.value, |st.envs|, st.closures)
  {
    LookupIn(st.envs[e], symbol)
  }

  /** `env.set(symbol, value)` on the environment with index `e`: that environment
      gains one binding, every other environment stays as it was. */
  function Set(st: Store, e: EnvId, symbol: string, value: Value): (r: Result<Store>)
    requires Valid(st) && e < |st.envs| && Bound(value, |st.envs|, st.closures)
    ensures r.Ok? <==> symbol !in st.envs[e]
    ensures r.Err? ==> r.error == AlreadyDefined(symbol)
    ensures r.Ok? ==> Valid(r.value) && |r.value.envs| == |st.envs| && r.value.closures == st.closures
    ensures r.Ok? ==> r.value.envs[e] == st.envs[e][symbol := value]
    ensures r.Ok? ==> forall i | 0 <= i < |st.envs| && i != e :: r.value.envs[i] == st.envs[i]
  {
    var variables :- Insert(st.envs[e], symbol, value);
    Ok(st.(envs := st.envs[e := variables]))
  }

  /** `env.extend(vs)` on the environment with index `e`: a new environment, with the
      next free index, over a copy of its bindings overridden by `vs`. */
  function Extend(st: Store, e: EnvId, vs: Bindings): (r: (Store, EnvId))
    requires Valid(st) && e < |st.envs|
    requires forall k | k in vs :: Bound(vs[k], |st.envs|, st.closures)
    ensures Valid(r.0) && r.1 == |st.envs| && r.0.envs == st.envs + [Overlay(st.envs[e], vs)]
    ensures r.0.closures == st.closures
  {
    var child := Overlay(st.envs[e], vs);
    ValidAppend(st, child);
    (st.(envs := st.envs + [child]), |st.envs|)
  }

  /** Allocating one more environment keeps the store valid: older values stay bound. */
  lemma ValidAppend(st: Store, child: Bindings)
    requires Valid(st)
    requires forall k | k in child :: Bound(child[k], |st.envs|, st.closures)
    ensures Valid(st.(envs := st.envs + [child]))
  {
    var envs := st.envs + [child];
    forall i, k | 0 <= i < |envs| && k in envs[i] ensures Bound(envs[i][k], |envs|, st.closures) {
      BoundMono(envs[i][k], |st.envs|, st.closures, |envs|, st.closures);
    }
  }

  /** `Closure(env, params, body)`: a new closure object that keeps the three as given,
      and is distinct from every closure the store holds. */
  function NewClosure(st: Store, e: EnvId, params: seq<Value>, body: Value): (r: (Value, Store))
    requires Valid(st) && e < |st.envs|
    requires forall p | p in params :: Bound(p, |st.envs|, st.closures)
    requires Bound(body, |st.envs|, st.closures)
    ensures r.0.Closure? && r.0.env == e && r.0.params == params && r.0.body == body
    ensures r.0.id == st.closures && r.1 == st.(closures := st.closures + 1)
    ensures Valid(r.1) && Bound(r.0, |r.1.envs|, r.1.closures)
    ensures forall i, k | 0 <= i < |st.envs| && k in st.envs[i] :: st.envs[i][k] != r.0
  {
    var st2 := st.(closures := st.closures + 1);
    forall i, k | 0 <= i < |st.envs| && k in st.envs[i]
      ensures Bound(st.envs[i][k], |st.envs|, st2.closures)
    {
      BoundMono(st.envs[i][k], |st.envs|, st.closures, |st.envs|, st2.closures);
    }
    forall p | p in params ensures Bound(p, |st.envs|, st2.closures) {
      BoundMono(p, |st.envs|, st.closures, |st.envs|, st2.closures);
    }
    BoundMono(body, |st.envs|, st.closures, |st.envs|, st2.closures);
    (Closure(st.closures, e, params, body), st2)
  }
}
