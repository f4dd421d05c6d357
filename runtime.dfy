/** The object runtime as a mutable heap: put, delete and define_own_property on class PyJs,
    default_value's loop, the PyJsArguments constructor, and call, construct and has_instance
    on class PyJsFunction. Section numbers refer to ECMA-262 5.1. */
module Runtime {
  import opened Values
  import opened Objects
  import opened Coercion
  import opened Reconcile

  /** The host code called by the runtime hands back values that exist: a function's result
      and a getter's result refer only to objects of the heap it ran in. */
  ghost predicate Sound(ctx: Context) {
    && (forall h: Heap, f: ObjId, t: Value, args: seq<Value> :: f in h ==> Live(h, ctx.invoke(h, f, t, args)))
    && (forall h: Heap, f: ObjId, ps: seq<Value> :: f in h ==> Live(h, ctx.body(h, f, ps)))
  }

  /** Adding an object with no own properties and an older prototype keeps the heap well formed. */
  lemma {:induction false} AddObjectOk(h: Heap, id: ObjId, o: JsObj)
    requires HeapOk(h) && id !in h && o.own == map[]
    requires o.proto.Some? ==> o.proto.value in h && o.proto.value < id
    ensures HeapOk(h[id := o])
  {
    var h' := h[id := o];
    forall x | x in h' ensures ObjOk(h', x) {
      if x != id {
        assert ObjOk(h, x);
        forall k | k in h'[x].own ensures Stored(h'[x].own[k]) && DescLive(h', h'[x].own[k]) {
          var d := h'[x].own[k];
          assert DescLive(h, d);
          assert OptLive(h', d.value) && OptLive(h', d.getter) && OptLive(h', d.setter);
        }
      }
    }
  }

  /** Lookup from p sees only p and older objects, so it is unaffected by changes elsewhere. */
  lemma {:induction false} GetPropertyFrame(h: Heap, h': Heap, p: ObjId, prop: string)
    requires HeapOk(h) && HeapOk(h') && p in h
    requires forall a :: a in h && a <= p ==> a in h' && h'[a] == h[a]
    ensures GetProperty(h', p, prop) == GetProperty(h, p, prop)
    decreases p
  {
    assert ObjOk(h, p);
    if prop !in h[p].own && h[p].proto.Some? {
      GetPropertyFrame(h, h', h[p].proto.value, prop);
    }
  }

  /** What get returns refers only to objects of the heap. */
  lemma GetLive(h: Heap, ctx: Context, recv: Value, prop: string)
    requires Ready(h, ctx) && Live(h, recv) && Sound(ctx)
    ensures Get(h, ctx, recv, prop).Ok? ==> Live(h, Get(h, ctx, recv, prop).value)
  {
  }

  /** The own descriptor for prop, if any (get_own_property). */
  function OwnDesc(h: Heap, id: ObjId, prop: string): (r: Option<Desc>)
    requires HeapOk(h) && id in h
    ensures r.Some? <==> prop in h[id].own
    ensures r.Some? ==> r.value == h[id].own[prop] && Stored(r.value) && DescLive(h, r.value)
  {
    assert ObjOk(h, id);
    if prop in h[id].own then Some(h[id].own[prop]) else None
  }

  /** The value `put` stores: v itself, or `x op v` for a compound assignment. */
  function Assigned(h: Heap, ctx: Context, recv: Value, prop: string, v: Value, op: Option<AssignOp>): (r: Result<Value>)
    requires Ready(h, ctx) && Sound(ctx) && Live(h, recv) && Live(h, v)
    ensures op.None? ==> r == Ok(v)
    ensures op.Some? && IsBitwise(op.value) ==> r.Err?
    ensures op.Some? && Get(h, ctx, recv, prop).Err? ==> r == Err(Get(h, ctx, recv, prop).error)
    ensures op.Some? && Get(h, ctx, recv, prop).Ok? ==>
              Live(h, Get(h, ctx, recv, prop).value) && r == ApplyOp(h, ctx, op.value, Get(h, ctx, recv, prop).value, v)
  {
    if op.None? then Ok(v)
    else
      var cur :- Get(h, ctx, recv, prop);
      GetLive(h, ctx, recv, prop);
      ApplyOp(h, ctx, op.value, cur, v)
  }

  /** put writes the receiver's own map: an own writable data property, or a new one. */
  predicate Stores(h: Heap, ctx: Context, recv: Value, prop: string)
    requires Ready(h, ctx) && Live(h, recv)
  {
    !(recv.Undefined? || recv.Null?) && PutPlan(h, ctx, recv, prop) in {Ok(SetValue), Ok(Create)}
  }

  /** call's parameter list before `this` and `arguments`: the arguments truncated or padded
      with undefined to the declared arity. */
  function Adjust(args: seq<Value>, arity: nat): (r: seq<Value>)
    ensures |r| == arity
    ensures forall i :: 0 <= i < arity ==> r[i] == (if i < |args| then args[i] else Undefined)
  {
    if |args| > arity then args[..arity] else args + seq(arity - |args|, _ => Undefined)
  }

  /** Adjusting twice to the same arity changes nothing more. */
  lemma AdjustIdempotent(args: seq<Value>, arity: nat)
    ensures Adjust(Adjust(args, arity), arity) == Adjust(args, arity)
  {
  }

  /** p's chain holds no accessor for an index name below n (nothing, or a data property), so
      an arguments object inheriting from p stores each argument as its own property. */
  predicate IndexFree(h: Heap, p: ObjId, n: nat)
    requires HeapOk(h) && p in h
  {
    forall i :: 0 <= i < n ==> NoAccessorFor(h, p, NatToString(i))
  }

  /** p's chain holds no accessor for key: put creates an own property rather than calling a setter. */
  predicate NoAccessorFor(h: Heap, p: ObjId, key: string)
    requires HeapOk(h) && p in h
  {
    GetProperty(h, p, key).None? || IsData(GetProperty(h, p, key).value)
  }

  /** Adding objects leaves the index names p's chain owns as they were. */
  lemma IndexFreeFrame(h: Heap, h': Heap, p: ObjId, n: nat)
    requires HeapOk(h) && HeapOk(h') && p in h
    requires forall a :: a in h ==> a in h' && h'[a] == h[a]
    ensures IndexFree(h', p, n) == IndexFree(h, p, n)
  {
    forall i | 0 <= i < n
      ensures NoAccessorFor(h', p, NatToString(i)) == NoAccessorFor(h, p, NatToString(i))
    {
      GetPropertyFrame(h, h', p, NatToString(i));
    }
  }

  /** What construct's `self.call(obj, *args)` hands the function as its argument list, as
      written: `call` takes a single `args` parameter, so two or more arguments raise a
      TypeError, and a single argument is itself iterated, giving its own enumerable
      property names (in no fixed order; none for a primitive). */
  function ConstructArgsAsWritten(h: Heap, args: seq<Value>): (r: Result<set<Value>>)
    requires forall i :: 0 <= i < |args| ==> Live(h, args[i])
    ensures r.Err? <==> |args| >= 2
    ensures r.Ok? ==> forall a :: a in r.value ==> a.Str? && |args| == 1 && args[0].Obj?
  {
    if |args| >= 2 then Err(TypeError)
    else if |args| == 0 || !args[0].Obj? then Ok({})
    else
      assert Live(h, args[0]);
      Ok(set k | k in EnumerableNames(h[args[0].id]) :: Str(k))
  }

  /** Two arguments make construct fail, and a single primitive argument never reaches the
      function, while the corrected construct passes both through. */
  lemma ConstructDropsArguments(h: Heap)
    ensures ConstructArgsAsWritten(h, [Number(Finite(1.0)), Number(Finite(2.0))]) == Err(TypeError)
    ensures ConstructArgsAsWritten(h, [Number(Finite(7.0))]) == Ok({})
    ensures Adjust([Number(Finite(7.0))], 1) == [Number(Finite(7.0))]
  {
  }

  /** Deleting an own property uncovers what the prototype chain holds for it. */
  lemma DeleteRevealsInherited(h: Heap, id: ObjId, prop: string)
    requires HeapOk(h) && id in h && prop in h[id].own
    ensures var h' := h[id := h[id].(own := h[id].own - {prop})];
      HeapOk(h') && GetProperty(h', id, prop) == (match Proto(h, id) case Some(p) => GetProperty(h, p, prop) case None => None)
  {
    assert ObjOk(h, id);
    ReplaceOwnOk(h, id, h[id].own - {prop});
    var h' := h[id := h[id].(own := h[id].own - {prop})];
    if h[id].proto.Some? {
      GetPropertyFrame(h, h', h[id].proto.value, prop);
    }
  }

  /** The own map of an arguments object once the first i arguments have been put: `length`
      and `callee`, and index names holding arguments below i. */
  predicate ArgsOwn(own: map<string, Desc>, args: seq<Value>, callee: ObjId, i: nat) {
    && "length" in own && own["length"] == DataDesc(Number(Finite(|args| as real)), true, false, false)
    && "callee" in own && own["callee"] == DataDesc(Obj(callee), true, false, false)
    && forall k :: k in own ==>
         (k == "length" || k == "callee"
          || exists j :: 0 <= j < i && j < |args| && k == NatToString(j) && own[k] == DataDesc(args[j], true, true, true))
  }

  /** Every argument below i is an own enumerable data property under its index. */
  predicate ArgsAll(own: map<string, Desc>, args: seq<Value>, i: nat) {
    forall j :: 0 <= j < i && j < |args| ==>
      NatToString(j) in own && own[NatToString(j)] == DataDesc(args[j], true, true, true)
  }

  /** Putting argument i is a fresh key, and storing it extends both shapes by one. */
  lemma ArgsStep(own: map<string, Desc>, args: seq<Value>, callee: ObjId, i: nat)
    requires ArgsOwn(own, args, callee, i) && i < |args|
    ensures NatToString(i) !in own
    ensures ArgsOwn(own, args, callee, i + 1)
    ensures ArgsOwn(own[NatToString(i) := DataDesc(args[i], true, true, true)], args, callee, i + 1)
    ensures ArgsAll(own, args, i) ==> ArgsAll(own[NatToString(i) := DataDesc(args[i], true, true, true)], args, i + 1)
  {
    ArgsFresh(own, args, callee, i);
    ArgsGrow(own, args, callee, i);
    ArgsStore(own, args, callee, i);
    ArgsAllStore(own, args, callee, i);
  }

  /** The index name of argument i is not yet a property. */
  lemma ArgsFresh(own: map<string, Desc>, args: seq<Value>, callee: ObjId, i: nat)
    requires ArgsOwn(own, args, callee, i)
    ensures NatToString(i) !in own
  {
    var key := NatToString(i);
    NatToStringNotName(i, "length");
    NatToStringNotName(i, "callee");
    forall j | 0 <= j < i ensures NatToString(j) != key {
      NatToStringInjective(j, i);
    }
  }

  lemma ArgsGrow(own: map<string, Desc>, args: seq<Value>, callee: ObjId, i: nat)
    requires ArgsOwn(own, args, callee, i)
    ensures ArgsOwn(own, args, callee, i + 1)
  {
    forall k | k in own
      ensures k == "length" || k == "callee"
              || exists j :: 0 <= j < i + 1 && j < |args| && k == NatToString(j) && own[k] == DataDesc(args[j], true, true, true)
    {
      if k != "length" && k != "callee" {
        var j :| 0 <= j < i && j < |args| && k == NatToString(j) && own[k] == DataDesc(args[j], true, true, true);
      }
    }
  }

  lemma ArgsStore(own: map<string, Desc>, args: seq<Value>, callee: ObjId, i: nat)
    requires ArgsOwn(own, args, callee, i) && i < |args|
    ensures ArgsOwn(own[NatToString(i) := DataDesc(args[i], true, true, true)], args, callee, i + 1)
  {
    var key := NatToString(i);
    ArgsFresh(own, args, callee, i);
    NatToStringNotName(i, "length");
    NatToStringNotName(i, "callee");
    var own' := own[key := DataDesc(args[i], true, true, true)];
    forall k | k in own'
      ensures k == "length" || k == "callee"
              || exists j :: 0 <= j < i + 1 && j < |args| && k == NatToString(j) && own'[k] == DataDesc(args[j], true, true, true)
    {
      if k == key {
        assert own'[k] == DataDesc(args[i], true, true, true);
      } else if k != "length" && k != "callee" {
        var j :| 0 <= j < i && j < |args| && k == NatToString(j) && own[k] == DataDesc(args[j], true, true, true);
        assert own'[k] == own[k];
      }
    }
  }

  lemma ArgsAllStore(own: map<string, Desc>, args: seq<Value>, callee: ObjId, i: nat)
    requires ArgsOwn(own, args, callee, i) && i < |args|
    ensures ArgsAll(own, args, i) ==> ArgsAll(own[NatToString(i) := DataDesc(args[i], true, true, true)], args, i + 1)
  {
    var key := NatToString(i);
    forall j | 0 <= j < i ensures NatToString(j) != key {
      NatToStringInjective(j, i);
    }
  }

  /** put of a key an extensible object does not own never overwrites in place, and creates
      the property when the prototype chain does not hold it either. */
  lemma ArgsPlan(h: Heap, ctx: Context, id: ObjId, key: string)
    requires Ready(h, ctx) && id in h && key !in h[id].own && h[id].extensible && h[id].proto.Some?
    ensures PutPlan(h, ctx, Obj(id), key) != Ok(SetValue)
    ensures NoAccessorFor(h, h[id].proto.value, key) ==> PutPlan(h, ctx, Obj(id), key) == Ok(Create)
  {
    assert ObjOk(h, id);
  }

  /** The arguments object id under construction in h, grown from h0 with the first i arguments. */
  ghost predicate ArgsBuilt(h0: Heap, h: Heap, ctx: Context, id: ObjId, args: seq<Value>, callee: ObjId, i: nat)
    requires Ready(h0, ctx)
  {
    && id !in h0 && id in h && h.Keys == h0.Keys + {id}
    && (forall a :: a in h0 ==> h[a] == h0[a])
    && h[id].cls == ArgumentsClass && h[id].proto == Some(ctx.objectProto) && h[id].extensible
    && ArgsOwn(h[id].own, args, callee, i)
    && (IndexFree(h0, ctx.objectProto, |args|) ==> ArgsAll(h[id].own, args, i))
  }

  /** The fresh arguments object, with only `length` and `callee`, starts the construction. */
  lemma ArgsBuiltStart(h0: Heap, ctx: Context, id: ObjId, args: seq<Value>, callee: ObjId)
    requires Ready(h0, ctx) && id !in h0
    ensures ArgsBuilt(h0, h0[id := JsObj(ArgumentsClass, map[
        "length" := DataDesc(Number(Finite(|args| as real)), true, false, false),
        "callee" := DataDesc(Obj(callee), true, false, false)], Some(ctx.objectProto), true)], ctx, id, args, callee, 0)
  {
  }

  /** One argument put keeps the construction on track. */
  lemma ArgsBuiltStep(h0: Heap, hb: Heap, h: Heap, ctx: Context, id: ObjId, args: seq<Value>, callee: ObjId, i: nat, ok: bool)
    requires Ready(h0, ctx) && Ready(hb, ctx) && i < |args|
    requires ArgsBuilt(h0, hb, ctx, id, args, callee, i)
    requires h.Keys == hb.Keys && id in h && h[id] == hb[id].(own := h[id].own)
    requires forall a :: a in hb && a != id ==> h[a] == hb[a]
    requires ArgsOwn(h[id].own, args, callee, i + 1)
    requires ArgsAll(hb[id].own, args, i) && NoAccessorFor(hb, ctx.objectProto, NatToString(i)) ==>
               ok && ArgsAll(h[id].own, args, i + 1)
    ensures IndexFree(h0, ctx.objectProto, |args|) ==> ok
    ensures ArgsBuilt(h0, h, ctx, id, args, callee, i + 1)
  {
    GetPropertyFrame(h0, hb, ctx.objectProto, NatToString(i));
  }

  /** put of argument i into an arguments object with the first i arguments: whether it
      stores or not, the object keeps its shape, and it stores the argument when the object
      prototype's chain does not hold the index name. */
  lemma ArgumentPut(hb: Heap, h: Heap, ctx: Context, id: ObjId, args: seq<Value>, callee: ObjId, i: nat, stored: bool)
    requires Ready(hb, ctx) && id in hb && i < |args|
    requires hb[id].extensible && hb[id].proto == Some(ctx.objectProto)
    requires ArgsOwn(hb[id].own, args, callee, i)
    requires stored ==> Stores(hb, ctx, Obj(id), NatToString(i))
                        && h == hb[id := WriteOwn(hb[id], NatToString(i), args[i], PutPlan(hb, ctx, Obj(id), NatToString(i)).value)]
    requires !stored ==> h == hb
    ensures h.Keys == hb.Keys && id in h && h[id] == hb[id].(own := h[id].own)
    ensures forall a :: a in hb && a != id ==> h[a] == hb[a]
    ensures ArgsOwn(h[id].own, args, callee, i + 1)
    ensures NoAccessorFor(hb, ctx.objectProto, NatToString(i)) ==> PutPlan(hb, ctx, Obj(id), NatToString(i)) == Ok(Create)
    ensures ArgsAll(hb[id].own, args, i) && stored ==> ArgsAll(h[id].own, args, i + 1)
  {
    var key := NatToString(i);
    ArgsStep(hb[id].own, args, callee, i);
    ArgsPlan(hb, ctx, id, key);
    if stored {
      assert h[id].own == hb[id].own[key := DataDesc(args[i], true, true, true)];
    }
  }

  class Runtime {
    /** Every object, by id. */
    var heap: Heap
    /** The id the next allocated object gets. */
    var next: ObjId
    const ctx: Context

    ghost predicate Valid()
      reads this
    {
      Ready(heap, ctx) && Sound(ctx) && forall id :: id in heap ==> id < next
    }

    constructor(h: Heap, next: ObjId, ctx: Context)
      requires Ready(h, ctx) && Sound(ctx) && forall id :: id in h ==> id < next
      ensures Valid() && heap == h && this.next == next && this.ctx == ctx
    {
      this.heap := h;
      this.next := next;
      this.ctx := ctx;
    }

    /** Allocates an object with no own properties (PyJsObject's constructor). */
    method NewObject(cls: ClassTag, proto: Option<ObjId>, extensible: bool) returns (id: ObjId)
      requires Valid() && (proto.Some? ==> proto.value in heap)
      modifies this
      ensures Valid() && id == old(next) && next == old(next) + 1 && id !in old(heap)
      ensures heap == old(heap)[id := JsObj(cls, map[], proto, extensible)]
    {
      id := next;
      AddObjectOk(heap, id, JsObj(cls, map[], proto, extensible));
      heap := heap[id := JsObj(cls, map[], proto, extensible)];
      next := next + 1;
    }

    /** The value put stores: v itself, or the current value combined with v by op. */
    method AssignedValue(recv: Value, prop: string, v: Value, op: Option<AssignOp>) returns (r: Result<Value>)
      requires Valid() && Live(heap, recv) && Live(heap, v)
      ensures r == Assigned(heap, ctx, recv, prop, v, op)
      ensures r.Ok? ==> Live(heap, r.value)
    {
      if op.None? {
        return Ok(v);
      }
      var cur := Get(heap, ctx, recv, prop);
      if cur.Err? {
        return Err(cur.error);
      }
      GetLive(heap, ctx, recv, prop);
      r := ApplyOp(heap, ctx, op.value, cur.value, v);
    }

    /** put (section 8.12.5): `recv[prop] = v`, or `recv[prop] op= v`. */
    method Put(recv: Value, prop: string, v: Value, op: Option<AssignOp>) returns (r: Result<Value>)
      requires Valid() && Live(heap, recv) && Live(heap, v)
      modifies this
      ensures Valid() && next == old(next)
      ensures recv.Undefined? || recv.Null? ==> r == Err(TypeError)
      ensures r.Ok? ==> r == Assigned(old(heap), ctx, recv, prop, v, op) && Live(heap, r.value)
      ensures !(recv.Undefined? || recv.Null?) && Assigned(old(heap), ctx, recv, prop, v, op).Err? ==>
                r == Assigned(old(heap), ctx, recv, prop, v, op)
      ensures !(recv.Undefined? || recv.Null?) ==>
                (r.Ok? <==> Assigned(old(heap), ctx, recv, prop, v, op).Ok? && PutPlan(old(heap), ctx, recv, prop).Ok?)
      ensures r.Ok? && Stores(old(heap), ctx, recv, prop) ==>
                heap == old(heap)[recv.id := WriteOwn(old(heap)[recv.id], prop, r.value, PutPlan(old(heap), ctx, recv, prop).value)]
      ensures r.Err? || !Stores(old(heap), ctx, recv, prop) ==> heap == old(heap)
    {
      if recv.Undefined? || recv.Null? {
        return Err(TypeError);
      }
      var newValue := AssignedValue(recv, prop, v, op);
      if newValue.Err? {
        return Err(newValue.error);
      }
      var val := newValue.value;
      var plan := PutPlan(heap, ctx, recv, prop);
      if plan.Err? {
        return Err(plan.error);
      }
      match plan.value {
        case Refuse =>
        case CallSetter(s) =>
          // The setter runs for its effects, which the model does not track.
        case SetValue =>
          WriteOwnOk(heap, ctx, recv.id, prop, val, SetValue);
          heap := heap[recv.id := WriteOwn(heap[recv.id], prop, val, SetValue)];
        case Create =>
          WriteOwnOk(heap, ctx, recv.id, prop, val, Create);
          heap := heap[recv.id := WriteOwn(heap[recv.id], prop, val, Create)];
      }
      return Ok(val);
    }

    /** delete (section 8.12.7): a missing own property is vacuously deleted, a configurable
        one is removed, a non-configurable one stays. Primitives own nothing. */
    method Delete(recv: Value, prop: string) returns (r: bool)
      requires Valid() && Live(heap, recv)
      modifies this
      ensures Valid() && next == old(next)
      ensures !recv.Obj? || prop !in old(heap)[recv.id].own ==> r && heap == old(heap)
      ensures recv.Obj? && prop in old(heap)[recv.id].own ==> r == (old(heap)[recv.id].own[prop].configurable == Some(true))
      ensures r && recv.Obj? ==> heap == old(heap)[recv.id := old(heap)[recv.id].(own := old(heap)[recv.id].own - {prop})]
      ensures !r ==> heap == old(heap)
    {
      if !recv.Obj? || prop !in heap[recv.id].own {
        assert recv.Obj? ==> heap[recv.id].own - {prop} == heap[recv.id].own;
        return true;
      }
      assert ObjOk(heap, recv.id);
      if heap[recv.id].own[prop].configurable.value {
        ReplaceOwnOk(heap, recv.id, heap[recv.id].own - {prop});
        heap := heap[recv.id := heap[recv.id].(own := heap[recv.id].own - {prop})];
        return true;
      }
      return false;
    }

    /** define_own_property: reconcile, then store the accepted descriptor. Every rejection
        and every failure leaves the heap as it was. */
    method DefineOwnProperty(id: ObjId, prop: string, d: Desc) returns (r: Result<bool>)
      requires Valid() && id in heap && DescLive(heap, d) && WellShaped(d)
      modifies this
      ensures Valid() && next == old(next)
      ensures var v := DefineOwn(old(heap), ctx, OwnDesc(old(heap), id, prop), old(heap)[id].extensible, d);
        match v
        case Err(e) => r == Err(e) && heap == old(heap)
        case Ok(Reject) => r == Ok(false) && heap == old(heap)
        case Ok(Accept(s)) => r == Ok(true) && heap == old(heap)[id := old(heap)[id].(own := old(heap)[id].own[prop := s])]
      ensures r == Ok(true) ==> prop in heap[id].own && Carries(heap[id].own[prop], d)
      ensures r == Ok(true) && IsData(heap[id].own[prop]) ==> Get(heap, ctx, Obj(id), prop) == Ok(heap[id].own[prop].value.value)
    {
      assert ObjOk(heap, id);
      var v := DefineOwn(heap, ctx, OwnDesc(heap, id, prop), heap[id].extensible, d);
      if v.Err? {
        return Err(v.error);
      }
      if v.value.Reject? {
        return Ok(false);
      }
      var s := v.value.stored;
      ReplaceOwnOk(heap, id, heap[id].own[prop := s]);
      heap := heap[id := heap[id].(own := heap[id].own[prop := s])];
      assert GetProperty(heap, id, prop) == Some(s);
      return Ok(true);
    }

    /** default_value (section 8.12.8): try toString and valueOf (the other way round for a
        number hint, or a Date without hint) and return the first primitive a callable one
        yields. */
    method DefaultValue(id: ObjId, hint: Hint) returns (r: Result<Value>)
      requires Valid() && id in heap
      ensures r == Coercion.DefaultValue(heap, ctx, id, hint)
    {
      var order := MethodOrder(heap, id, hint);
      for i := 0 to |order|
        invariant ConvertByMethods(heap, ctx, id, order[i..]) == ConvertByMethods(heap, ctx, id, order)
      {
        assert order[i..][1..] == order[i + 1..];
        var m := Get(heap, ctx, Obj(id), order[i]);
        if m.Err? {
          return Err(m.error);
        }
        if IsCallable(heap, m.value) {
          var cand := ctx.invoke(heap, m.value.id, Obj(id), []);
          if cand.IsPrimitive() {
            return Ok(cand);
          }
        }
      }
      return Err(TypeError);
    }
    /** One step of the PyJsArguments constructor: put argument i under its index. */
    method PutArgument(id: ObjId, args: seq<Value>, callee: ObjId, i: nat) returns (r: Result<Value>)
      requires Valid() && id in heap && i < |args| && Live(heap, args[i])
      requires heap[id].extensible && heap[id].proto == Some(ctx.objectProto)
      requires ArgsOwn(heap[id].own, args, callee, i)
      modifies this
      ensures Valid() && next == old(next) && heap.Keys == old(heap).Keys
      ensures forall a :: a in old(heap) && a != id ==> heap[a] == old(heap)[a]
      ensures heap[id] == old(heap)[id].(own := heap[id].own)
      ensures ArgsOwn(heap[id].own, args, callee, i + 1)
      ensures ArgsAll(old(heap)[id].own, args, i) && NoAccessorFor(old(heap), ctx.objectProto, NatToString(i)) ==>
                r.Ok? && ArgsAll(heap[id].own, args, i + 1)
    {
      var key := NatToString(i);
      ghost var hb := heap;
      r := Put(Obj(id), key, args[i], None);
      ArgumentPut(hb, heap, ctx, id, args, callee, i, r.Ok? && Stores(hb, ctx, Obj(id), key));
    }

    /** The first half of the PyJsArguments constructor: an extensible object inheriting from
        the object prototype, with `length` and `callee` defined. */
    method ArgumentsShell(count: nat, callee: ObjId) returns (id: ObjId)
      requires Valid() && callee in heap
      modifies this
      ensures Valid() && id == old(next) && next == old(next) + 1 && id !in old(heap)
      ensures heap == old(heap)[id := JsObj(ArgumentsClass, map[
        "length" := DataDesc(Number(Finite(count as real)), true, false, false),
        "callee" := DataDesc(Obj(callee), true, false, false)], Some(ctx.objectProto), true)]
    {
      id := NewObject(ArgumentsClass, Some(ctx.objectProto), true);
      var lenDesc := DataDesc(Number(Finite(count as real)), true, false, false);
      var calleeDesc := DataDesc(Obj(callee), true, false, false);
      NewPropertyDefaults(heap, ctx, true, lenDesc);
      var ok := DefineOwnProperty(id, "length", lenDesc);
      NewPropertyDefaults(heap, ctx, true, calleeDesc);
      ok := DefineOwnProperty(id, "callee", calleeDesc);
    }

    /** The PyJsArguments constructor: `length` and `callee` (writable, hidden, fixed), then
        each argument put under its index. */
    method NewArguments(args: seq<Value>, callee: ObjId) returns (r: Result<ObjId>)
      requires Valid() && callee in heap && forall i :: 0 <= i < |args| ==> Live(heap, args[i])
      modifies this
      ensures Valid() && next == old(next) + 1 && old(next) !in old(heap)
      ensures heap.Keys == old(heap).Keys + {old(next)}
      ensures forall a :: a in old(heap) ==> heap[a] == old(heap)[a]
      ensures r.Ok? ==> r.value == old(next)
      ensures heap[old(next)].cls == ArgumentsClass && heap[old(next)].proto == Some(ctx.objectProto)
      ensures heap[old(next)].extensible && ArgsOwn(heap[old(next)].own, args, callee, |args|)
      ensures IndexFree(old(heap), ctx.objectProto, |args|) ==> r.Ok? && ArgsAll(heap[old(next)].own, args, |args|)
    {
      var id := ArgumentsShell(|args|, callee);
      ArgsBuiltStart(old(heap), ctx, id, args, callee);
      for i := 0 to |args|
        invariant Valid() && next == old(next) + 1 && id == old(next)
        invariant ArgsBuilt(old(heap), heap, ctx, id, args, callee, i)
      {
        ghost var hb := heap;
        var res := PutArgument(id, args, callee, i);
        ArgsBuiltStep(old(heap), hb, heap, ctx, id, args, callee, i, res.Ok?);
        if res.Err? {
          return Err(res.error);
        }
      }
      return Ok(id);
    }

    /** call: builds the arguments object from the arguments as given, then runs the function
        body on the arguments fitted to its arity, followed by `this` and that object. */
    method Call(fn: ObjId, thisArg: Value, args: seq<Value>) returns (r: Result<Value>)
      requires Valid() && IsCallable(heap, Obj(fn)) && Live(heap, thisArg)
      requires forall i :: 0 <= i < |args| ==> Live(heap, args[i])
      modifies this
      ensures Valid() && next == old(next) + 1
      ensures heap.Keys == old(heap).Keys + {old(next)}
      ensures forall a :: a in old(heap) ==> heap[a] == old(heap)[a]
      ensures heap[old(next)].cls == ArgumentsClass && ArgsOwn(heap[old(next)].own, args, fn, |args|)
      ensures r.Ok? ==> r.value == ctx.body(heap, fn, Adjust(args, old(heap)[fn].cls.arity) + [thisArg, Obj(old(next))])
      ensures r.Ok? ==> Live(heap, r.value)
      ensures IndexFree(old(heap), ctx.objectProto, |args|) ==> r.Ok? && ArgsAll(heap[old(next)].own, args, |args|)
    {
      var arguments := NewArguments(args, fn);
      if arguments.Err? {
        return Err(arguments.error);
      }
      var params := Adjust(args, heap[fn].cls.arity) + [thisArg, Obj(arguments.value)];
      return Ok(ctx.body(heap, fn, params));
    }

    /** construct (section 13.2.2), with the arguments passed through to call: a new object
        inheriting from the function's `prototype` (the object prototype when that is not an
        object) is `this`; an object result replaces it. */
    method Construct(fn: ObjId, args: seq<Value>) returns (r: Result<Value>)
      requires Valid() && IsCallable(heap, Obj(fn))
      requires forall i :: 0 <= i < |args| ==> Live(heap, args[i])
      modifies this
      ensures Valid()
      ensures Get(old(heap), ctx, Obj(fn), "prototype").Err? ==>
                r == Get(old(heap), ctx, Obj(fn), "prototype").PropagateFailure() && heap == old(heap) && next == old(next)
      ensures Get(old(heap), ctx, Obj(fn), "prototype").Ok? ==>
        var p := Get(old(heap), ctx, Obj(fn), "prototype").value;
        && next == old(next) + 2
        && heap.Keys == old(heap).Keys + {old(next)} + {old(next) + 1}
        && (forall a :: a in old(heap) ==> heap[a] == old(heap)[a])
        && heap[old(next)] == JsObj(ObjectClass, map[], Some(if p.Obj? then p.id else ctx.objectProto), true)
        && heap[old(next) + 1].cls == ArgumentsClass && ArgsOwn(heap[old(next) + 1].own, args, fn, |args|)
        && (IndexFree(old(heap), ctx.objectProto, |args|) ==> r.Ok? && ArgsAll(heap[old(next) + 1].own, args, |args|))
      ensures r.Ok? ==> r.value.Obj? && r.value.id in heap
      ensures r.Ok? ==>
        var cand := ctx.body(heap, fn, Adjust(args, old(heap)[fn].cls.arity) + [Obj(old(next)), Obj(old(next) + 1)]);
        r.value == if cand.Obj? then cand else Obj(old(next))
    {
      var protoVal := Get(heap, ctx, Obj(fn), "prototype");
      if protoVal.Err? {
        return Err(protoVal.error);
      }
      GetLive(heap, ctx, Obj(fn), "prototype");
      var proto := if protoVal.value.Obj? then protoVal.value.id else ctx.objectProto;
      ghost var argsObj;
      r, argsObj := Instantiate(fn, proto, args);
    }

    /** The part of construct after the `prototype` read: the new object inheriting from proto,
        then the call with it as `this`. */
    method Instantiate(fn: ObjId, proto: ObjId, args: seq<Value>) returns (r: Result<Value>, ghost argsObj: ObjId)
      requires Valid() && IsCallable(heap, Obj(fn)) && proto in heap
      requires forall i :: 0 <= i < |args| ==> Live(heap, args[i])
      modifies this
      ensures Valid() && next == old(next) + 2 && argsObj == old(next) + 1
      ensures heap.Keys == old(heap).Keys + {old(next)} + {argsObj}
      ensures forall a :: a in old(heap) ==> heap[a] == old(heap)[a]
      ensures heap[old(next)] == JsObj(ObjectClass, map[], Some(proto), true)
      ensures heap[argsObj].cls == ArgumentsClass && ArgsOwn(heap[argsObj].own, args, fn, |args|)
      ensures IndexFree(old(heap), ctx.objectProto, |args|) ==> r.Ok? && ArgsAll(heap[argsObj].own, args, |args|)
      ensures r.Ok? ==> r.value.Obj? && r.value.id in heap
      ensures r.Ok? ==>
        var cand := ctx.body(heap, fn, Adjust(args, old(heap)[fn].cls.arity) + [Obj(old(next)), Obj(argsObj)]);
        r.value == if cand.Obj? then cand else Obj(old(next))
    {
      var obj := NewObject(ObjectClass, Some(proto), true);
      IndexFreeFrame(old(heap), heap, ctx.objectProto, |args|);
      argsObj := next;
      var cand := Call(fn, Obj(obj), args);
      r := if cand.Err? then Err(cand.error) else Ok(if cand.value.Obj? then cand.value else Obj(obj));
    }

    /** has_instance (section 15.3.5.3): whether the function's `prototype` object lies on
        the prototype chain of other, strictly above other itself. */
    method HasInstance(fn: ObjId, other: Value) returns (r: Result<bool>)
      requires Valid() && IsCallable(heap, Obj(fn)) && Live(heap, other)
      ensures !other.Obj? ==> r == Ok(false)
      ensures other.Obj? ==> (r == Err(TypeError) <==> Get(heap, ctx, Obj(fn), "prototype").Ok? && !Get(heap, ctx, Obj(fn), "prototype").value.Obj?)
      ensures other.Obj? && Get(heap, ctx, Obj(fn), "prototype").Err? ==> r == Get(heap, ctx, Obj(fn), "prototype").PropagateFailure()
      ensures r.Ok? && other.Obj? ==> (r.value <==> Get(heap, ctx, Obj(fn), "prototype").value.id in Chain(heap, other.id)[1..])
    {
      if !other.Obj? {
        return Ok(false);
      }
      var protoVal := Get(heap, ctx, Obj(fn), "prototype");
      if protoVal.Err? {
        return Err(protoVal.error);
      }
      if !protoVal.value.Obj? {
        return Err(TypeError);
      }
      var p := protoVal.value.id;
      assert ObjOk(heap, other.id);
      var cur := heap[other.id].proto;
      while cur.Some?
        invariant cur.Some? ==> cur.value in heap
        invariant (p in Chain(heap, other.id)[1..]) <==> (cur.Some? && p in Chain(heap, cur.value))
        decreases if cur.Some? then cur.value + 1 else 0
      {
        if cur.value == p {
          return Ok(true);
        }
        assert ObjOk(heap, cur.value);
        cur := heap[cur.value].proto;
      }
      return Ok(false);
    }
  }
}
