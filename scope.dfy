/** The lexical scope chain of compiled code (class Scope): each scope holds a variable map and
    a link to its enclosing scope; the global scope has none. */
module Scopes {
  import opened Values
  import opened Objects
  import opened Coercion

  /** The variable maps of a chain, innermost first; the last one is the global scope's. */
  type Frames = seq<map<string, Value>>

  /** The nearest binding of name. */
  function Resolve(frames: Frames, name: string): (r: Option<Value>)
    ensures r.None? <==> forall i :: 0 <= i < |frames| ==> name !in frames[i]
    ensures r.Some? ==> exists i :: 0 <= i < |frames| && name in frames[i] && r.value == frames[i][name]
                                     && forall j :: 0 <= j < i ==> name !in frames[j]
  {
    if frames == [] then None
    else if name in frames[0] then Some(frames[0][name])
    else
      var r := Resolve(frames[1..], name);
      assert r.Some? ==> exists i :: 1 <= i < |frames| && name in frames[i] && r.value == frames[i][name]
                                     && forall j :: 0 <= j < i ==> name !in frames[j] by {
        if r.Some? {
          var i :| 0 <= i < |frames[1..]| && name in frames[1..][i] && r.value == frames[1..][i][name]
                   && forall j :: 0 <= j < i ==> name !in frames[1..][j];
          assert forall j :: 1 <= j < i + 1 ==> frames[j] == frames[1..][j - 1];
        }
      }
      r
  }

  /** Where put stores: the first frame binding name, or else the global (last) frame. */
  function Write(frames: Frames, name: string, v: Value): (r: Frames)
    requires |frames| >= 1
    ensures |r| == |frames|
    ensures exists k :: 0 <= k < |frames| && (name in frames[k] || k == |frames| - 1)
                        && (forall j :: 0 <= j < k ==> name !in frames[j])
                        && r == frames[k := frames[k][name := v]]
    decreases |frames|
  {
    if |frames| == 1 || name in frames[0] then [frames[0][name := v]] + frames[1..]
    else [frames[0]] + Write(frames[1..], name, v)
  }

  /** After a write the name resolves to the value written. */
  lemma {:induction false} WriteThenResolve(frames: Frames, name: string, v: Value)
    requires |frames| >= 1
    ensures Resolve(Write(frames, name, v), name) == Some(v)
    decreases |frames|
  {
    if !(|frames| == 1 || name in frames[0]) {
      WriteThenResolve(frames[1..], name, v);
      assert Write(frames, name, v)[1..] == Write(frames[1..], name, v);
    }
  }

  /** A write leaves every other name's resolution alone. */
  lemma {:induction false} WriteKeepsOthers(frames: Frames, name: string, other: string, v: Value)
    requires |frames| >= 1 && other != name
    ensures Resolve(Write(frames, name, v), other) == Resolve(frames, other)
    decreases |frames|
  {
    if |frames| == 1 || name in frames[0] {
      assert Write(frames, name, v)[1..] == frames[1..];
      if other !in frames[0] {
        assert Resolve(Write(frames, name, v), other) == Resolve(frames[1..], other);
      }
    } else {
      WriteKeepsOthers(frames[1..], name, other, v);
      assert Write(frames, name, v)[1..] == Write(frames[1..], name, v);
    }
  }

  /** An unbound name is written to the global frame: the sloppy-mode implicit global. */
  lemma {:induction false} UnboundGoesGlobal(frames: Frames, name: string, v: Value)
    requires |frames| >= 1 && Resolve(frames, name).None?
    ensures Write(frames, name, v) == frames[..|frames| - 1] + [frames[|frames| - 1][name := v]]
    decreases |frames|
  {
    if |frames| > 1 {
      assert name !in frames[0];
      UnboundGoesGlobal(frames[1..], name, v);
      assert frames[1..][..|frames| - 2] == frames[1..|frames| - 1];
    }
  }

  /** Whether delete succeeds: the name is not registered and no inner scope binds it. */
  predicate Deletable(frames: Frames, registered: set<string>, name: string) {
    name !in registered && forall i :: 0 <= i < |frames| - 1 ==> name !in frames[i]
  }

  /** After a successful delete the name is bound nowhere along the chain. */
  lemma {:induction false} DeleteUnbinds(f: Frames, registered: set<string>, name: string)
    requires |f| >= 1 && Deletable(f, registered, name)
    ensures Resolve(f[..|f| - 1] + [f[|f| - 1] - {name}], name).None?
  {
    var g := f[..|f| - 1] + [f[|f| - 1] - {name}];
    assert forall i :: 0 <= i < |g| ==> name !in g[i] by {
      forall i | 0 <= i < |g| ensures name !in g[i] {
        if i < |f| - 1 { assert g[i] == f[i]; }
      }
    }
  }

  /** The shared set of names hoisted into the global scope (Scope.registered). */
  class Registry {
    var names: set<string>

    constructor()
      ensures names == {}
    {
      names := {};
    }
  }

  class Scope {
    /** This scope's variables. */
    var vars: map<string, Value>
    /** The enclosing scope; null for the global scope. */
    const closure: Scope?
    /** The registered-name set, one for the whole program. */
    const registry: Registry
    /** This scope and all that enclose it. */
    ghost const chain: set<Scope>
    /** The number of enclosing scopes. */
    ghost const depth: nat

    /** The chain is finite and ends at the global scope; it reads only constant fields, so no
        assignment to a variable map can affect it. */
    ghost predicate Valid()
      decreases depth
    {
      && this in chain
      && (closure == null ==> chain == {this} && depth == 0)
      && (closure != null ==>
            && closure in chain && depth == closure.depth + 1 && this !in closure.chain
            && chain == {this} + closure.chain && closure.registry == registry && closure.Valid())
    }

    /** The variable maps from this scope outward. */
    ghost function Frames(): (f: Frames)
      requires Valid()
      reads this, chain
      ensures |f| == depth + 1 && f[0] == vars
      decreases depth
    {
      if closure == null then [vars] else [vars] + closure.Frames()
    }

    constructor(vars: map<string, Value>, closure: Scope?, registry: Registry)
      requires closure != null ==> closure.Valid() && closure.registry == registry
      ensures Valid() && this.vars == vars && this.closure == closure && this.registry == registry
      ensures closure != null ==> Frames() == [vars] + closure.Frames()
    {
      this.vars := vars;
      this.closure := closure;
      this.registry := registry;
      this.depth := if closure == null then 0 else closure.depth + 1;
      this.chain := if closure == null then {this} else {this} + closure.chain;
    }

    /** get: the nearest binding, or a ReferenceError past the global scope. */
    function Get(name: string): (r: Result<Value>)
      requires Valid()
      reads this, chain
      ensures r.Ok? <==> Resolve(Frames(), name).Some?
      ensures r.Ok? ==> r.value == Resolve(Frames(), name).value
      ensures r.Err? ==> r.error == ReferenceError
      decreases depth
    {
      if name in vars then Ok(vars[name])
      else if closure == null then Err(ReferenceError)
      else closure.Get(name)
    }

    /** register (hoisting): bind name to undefined here unless already bound, and record it
        as registered when this is the global scope. */
    method Register(name: string)
      requires Valid()
      modifies this, registry
      ensures registry.names == old(registry.names) + (if closure == null then {name} else {})
      ensures vars == if name in old(vars) then old(vars) else old(vars)[name := Undefined]
      ensures name in vars && Valid()
    {
      if closure == null {
        registry.names := registry.names + {name};
      }
      if name !in vars {
        vars := vars[name := Undefined];
      }
    }

    /** put: assign in the nearest scope binding name, else create a global. A compound
        assignment to a name bound nowhere fails on the missing current value. */
    method Put(h: Heap, ctx: Context, name: string, v: Value, op: Option<AssignOp>) returns (r: Result<Value>)
      requires Valid() && Ready(h, ctx) && Live(h, v)
      requires op.Some? && Resolve(Frames(), name).Some? ==> Live(h, Resolve(Frames(), name).value)
      modifies chain
      ensures Valid()
      ensures op.None? ==> r == Ok(v)
      ensures op.Some? ==> r == (match Resolve(old(Frames()), name)
                                 case None => Err(HostFailure)
                                 case Some(c) => ApplyOp(h, ctx, op.value, c, v))
      ensures r.Ok? ==> Frames() == Write(old(Frames()), name, r.value)
      ensures r.Err? ==> Frames() == old(Frames())
      decreases depth
    {
      if name in vars || closure == null {
        var val := v;
        if op.Some? {
          if name !in vars {
            return Err(HostFailure);
          }
          var applied := ApplyOp(h, ctx, op.value, vars[name], v);
          if applied.Err? {
            return Err(applied.error);
          }
          val := applied.value;
        }
        vars := vars[name := val];
        return Ok(val);
      }
      r := closure.Put(h, ctx, name, v, op);
    }

    /** delete: false for a registered name or one bound in an enclosing non-global scope;
        otherwise the global binding, if any, is removed and the answer is true. */
    method Delete(name: string) returns (r: bool)
      requires Valid()
      modifies chain
      ensures Valid()
      ensures r == Deletable(old(Frames()), registry.names, name)
      ensures !r ==> Frames() == old(Frames())
      ensures r ==> var f := old(Frames());
                    Frames() == f[..|f| - 1] + [f[|f| - 1] - {name}]
    {
      if name in registry.names {
        return false;
      }
      var now: Scope := this;
      ghost var k := 0;
      while now.closure != null
        invariant now.Valid() && now in chain && now.chain <= chain
        invariant 0 <= k <= |Frames()| - 1 && now.Frames() == Frames()[k..] && now.depth == depth - k
        invariant forall i :: 0 <= i < k ==> name !in Frames()[i]
        decreases now.depth
      {
        if name in now.vars {
          return false;
        }
        now := now.closure;
        k := k + 1;
      }
      LastFrame(this, now);
      ghost var f := Frames();
      if name !in now.vars {
        assert f[|f| - 1] - {name} == f[|f| - 1];
        assert f == f[..|f| - 1] + [f[|f| - 1]];
        return true;
      }
      now.vars := now.vars - {name};
      GlobalWrite(this);
      LastFrame(this, now);
      assert Frames() == f[..|f| - 1] + [f[|f| - 1] - {name}];
      return true;
    }
  }

  /** Changing only the global scope's variables changes only the last frame. */
  twostate lemma {:induction false} GlobalWrite(s: Scope)
    requires s.Valid()
    requires forall o: Scope :: o in s.chain && o.closure != null ==> old(o.vars) == o.vars
    ensures |s.Frames()| == |old(s.Frames())|
    ensures forall i :: 0 <= i < s.depth ==> s.Frames()[i] == old(s.Frames())[i]
    decreases s.depth
  {
    if s.closure != null {
      GlobalWrite(s.closure);
    }
  }

  /** The last frame of a chain is the global scope's variable map. */
  lemma {:induction false} LastFrame(s: Scope, g: Scope)
    requires s.Valid() && g in s.chain && g.closure == null
    ensures s.Frames()[s.depth] == g.vars
    decreases s.depth
  {
    if s.closure != null {
      ChainBelow(s.closure);
      LastFrame(s.closure, g);
    }
  }

  /** Every scope of a chain is at most as deep as its head. */
  lemma {:induction false} ChainBelow(s: Scope)
    requires s.Valid()
    ensures forall o :: o in s.chain ==> o.depth <= s.depth && o.Valid()
    decreases s.depth
  {
    if s.closure != null {
      ChainBelow(s.closure);
    }
  }
}
