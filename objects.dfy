/** Property lookup along prototype chains, and the read side of put (class PyJs). Section
    numbers refer to ECMA-262 5.1. */
module Objects {
  import opened Values

  /** The compound assignment operators `put` accepts (`x op= v`). */
  datatype AssignOp = AddOp | SubOp | MulOp | DivOp | ModOp | ShlOp | ShrOp | AndOp | XorOp | OrOp

  /** The runtime's fixed surroundings: the built-in prototypes, and the host code the core
      calls but does not define. `invoke(h, f, this, args)` is what calling function object `f`
      returns; `body(h, f, params)` is the code of `f` applied to its parameter list; `numOp`
      is the host's float arithmetic behind + - * / % once both operands are numbers;
      `parseFloat`, `parseHex` and `format` are the host's float() and int(s, 16) parsers and
      float formatting. */
  datatype Context = Context(
    objectProto: ObjId,
    numberProto: ObjId,
    stringProto: ObjId,
    booleanProto: ObjId,
    invoke: (Heap, ObjId, Value, seq<Value>) -> Value,
    body: (Heap, ObjId, seq<Value>) -> Value,
    numOp: (AssignOp, Num, Num) -> Num,
    parseFloat: string -> Option<Num>,
    parseHex: string -> Option<int>,
    format: real -> string)

  predicate ProtosIn(h: Heap, ctx: Context) {
    ctx.objectProto in h && ctx.numberProto in h && ctx.stringProto in h && ctx.booleanProto in h
  }

  /** Heap and context fit together: what `get` and `put` may be applied in. */
  predicate Ready(h: Heap, ctx: Context) { HeapOk(h) && ProtosIn(h, ctx) }

  /** The operators whose methods raise NotImplementedError. */
  predicate IsBitwise(op: AssignOp) { op in {ShlOp, ShrOp, AndOp, XorOp, OrOp} }

  /** The prototype chain of an object, itself first. */
  ghost function Chain(h: Heap, id: ObjId): (c: seq<ObjId>)
    requires HeapOk(h) && id in h
    ensures |c| >= 1 && c[0] == id
    ensures forall a :: a in c ==> a in h
    decreases id
  {
    assert ObjOk(h, id);
    if h[id].proto.None? then [id] else [id] + Chain(h, h[id].proto.value)
  }

  /** c[i] is the first object of c that owns prop. */
  ghost predicate FirstOwner(h: Heap, c: seq<ObjId>, i: nat, prop: string)
    requires forall a :: a in c ==> a in h
  {
    i < |c| && prop in h[c[i]].own && forall j :: 0 <= j < i ==> prop !in h[c[j]].own
  }

  /** get_property: the nearest descriptor for prop along the prototype chain. */
  function GetProperty(h: Heap, id: ObjId, prop: string): (r: Option<Desc>)
    requires HeapOk(h) && id in h
    ensures r.None? <==> forall a :: a in Chain(h, id) ==> prop !in h[a].own
    ensures r.Some? ==> exists i: nat :: FirstOwner(h, Chain(h, id), i, prop) && r.value == h[Chain(h, id)[i]].own[prop]
    ensures r.Some? ==> Stored(r.value) && DescLive(h, r.value)
    decreases id
  {
    assert ObjOk(h, id);
    if prop in h[id].own then
      assert FirstOwner(h, Chain(h, id), 0, prop);
      Some(h[id].own[prop])
    else if h[id].proto.Some? then
      var p := h[id].proto.value;
      var r := GetProperty(h, p, prop);
      OwnerShift(h, id, p, prop);
      r
    else
      None
  }

  /** The first owner along the prototype's chain is the first owner along the object's chain,
      one position further, when the object itself does not own prop. */
  lemma OwnerShift(h: Heap, id: ObjId, p: ObjId, prop: string)
    requires HeapOk(h) && id in h && h[id].proto == Some(p) && prop !in h[id].own
    ensures p in h && Chain(h, id) == [id] + Chain(h, p)
    ensures forall i: nat :: FirstOwner(h, Chain(h, p), i, prop) ==> FirstOwner(h, Chain(h, id), i + 1, prop)
  {
    assert ObjOk(h, id);
  }

  /** The prototype a primitive's wrapper object starts its lookup at; Undefined and Null
      have no properties and no prototype. */
  function PrimitiveProto(ctx: Context, v: Value): Option<ObjId>
    requires v.IsPrimitive()
  {
    match v
    case Number(_) => Some(ctx.numberProto)
    case Str(_) => Some(ctx.stringProto)
    case Bool(_) => Some(ctx.booleanProto)
    case _ => None
  }

  /** get_property on any receiver. A primitive's own property map is always empty (it is
      created non-extensible), so lookup starts at its class's prototype. */
  function Lookup(h: Heap, ctx: Context, recv: Value, prop: string): (r: Option<Desc>)
    requires Ready(h, ctx) && Live(h, recv)
    ensures r.Some? ==> Stored(r.value) && DescLive(h, r.value)
    ensures recv.Obj? ==> r == GetProperty(h, recv.id, prop)
    ensures recv.Undefined? || recv.Null? ==> r.None?
    ensures recv.Number? ==> r == GetProperty(h, ctx.numberProto, prop)
    ensures recv.Str? ==> r == GetProperty(h, ctx.stringProto, prop)
    ensures recv.Bool? ==> r == GetProperty(h, ctx.booleanProto, prop)
  {
    if recv.Obj? then GetProperty(h, recv.id, prop)
    else match PrimitiveProto(ctx, recv)
      case Some(p) => GetProperty(h, p, prop)
      case None => None
  }

  /** has_property: true iff some object of the chain owns prop. */
  function HasProperty(h: Heap, id: ObjId, prop: string): (r: bool)
    requires HeapOk(h) && id in h
    ensures r <==> exists a :: a in Chain(h, id) && prop in h[a].own
  {
    GetProperty(h, id, prop).Some?
  }

  /** get (section 8.12.3): the data value, the getter's result, or undefined. */
  function Get(h: Heap, ctx: Context, recv: Value, prop: string): (r: Result<Value>)
    requires Ready(h, ctx) && Live(h, recv)
    ensures r == Err(TypeError) <==> recv.Undefined? || recv.Null?
    ensures r == Err(HostFailure) <==>
      !(recv.Undefined? || recv.Null?) && Lookup(h, ctx, recv, prop).Some?
      && IsAccessor(Lookup(h, ctx, recv, prop).value)
      && !IsCallable(h, Lookup(h, ctx, recv, prop).value.getter.value)
      && Lookup(h, ctx, recv, prop).value.getter != Some(Undefined)
    ensures !(recv.Undefined? || recv.Null?) && Lookup(h, ctx, recv, prop).None? ==> r == Ok(Undefined)
    ensures !(recv.Undefined? || recv.Null?) && Lookup(h, ctx, recv, prop).Some? && IsData(Lookup(h, ctx, recv, prop).value)
      ==> r == Ok(Lookup(h, ctx, recv, prop).value.value.value)
    ensures var d := Lookup(h, ctx, recv, prop);
            (!(recv.Undefined? || recv.Null?) && d.Some? && IsAccessor(d.value) && d.value.getter == Some(Undefined))
              ==> r == Ok(Undefined)
    ensures var d := Lookup(h, ctx, recv, prop);
            (!(recv.Undefined? || recv.Null?) && d.Some? && IsAccessor(d.value) && IsCallable(h, d.value.getter.value))
              ==> r == Ok(ctx.invoke(h, d.value.getter.value.id, recv, []))
  {
    if recv.Undefined? || recv.Null? then Err(TypeError)
    else match Lookup(h, ctx, recv, prop)
      case None => Ok(Undefined)
      case Some(d) =>
        if IsData(d) then Ok(d.value.value)
        else if d.getter.value.Undefined? then Ok(Undefined)
        else if IsCallable(h, d.getter.value) then Ok(ctx.invoke(h, d.getter.value.id, recv, []))
        else Err(HostFailure)
  }

  /** can_put (section 8.12.4), as the source has it: with no own property the answer is the
      object's extensible flag, whatever the prototype chain holds. */
  function CanPut(h: Heap, id: ObjId, prop: string): (r: bool)
    requires HeapOk(h) && id in h
    ensures prop !in h[id].own ==> r == h[id].extensible
    ensures prop in h[id].own && IsData(h[id].own[prop]) ==> r == (h[id].own[prop].writable == Some(true))
    ensures prop in h[id].own && IsAccessor(h[id].own[prop]) ==>
              r == (h[id].own[prop].setter.Some? && IsCallable(h, h[id].own[prop].setter.value))
  {
    assert ObjOk(h, id);
    var o := h[id];
    if prop in o.own then
      if IsAccessor(o.own[prop]) then IsCallable(h, o.own[prop].setter.value)
      else o.own[prop].writable.value
    else
      // With a prototype the source returns `extensible`; without one the inherited lookup
      // finds nothing and it returns `extensible` as well.
      o.extensible
  }

  /** What `put` does once the value to store is known. */
  datatype PutAction = Refuse | SetValue | CallSetter(setter: ObjId) | Create

  /** The decision part of put (section 8.12.5), after the undefined/null guard. */
  function PutPlan(h: Heap, ctx: Context, recv: Value, prop: string): (r: Result<PutAction>)
    requires Ready(h, ctx) && Live(h, recv) && !(recv.Undefined? || recv.Null?)
    ensures !recv.Obj? ==> r == Ok(Refuse)
    ensures recv.Obj? && !CanPut(h, recv.id, prop) ==> r == Ok(Refuse)
    ensures r == Ok(SetValue) <==>
              (recv.Obj? && prop in h[recv.id].own && IsData(h[recv.id].own[prop])
               && h[recv.id].own[prop].writable == Some(true))
    ensures r == Ok(Create) ==> recv.Obj? && prop !in h[recv.id].own && h[recv.id].extensible
    ensures r.Ok? && r.value.CallSetter? ==> IsCallable(h, Obj(r.value.setter))
    ensures recv.Obj? && CanPut(h, recv.id, prop) && !(prop in h[recv.id].own && IsData(h[recv.id].own[prop])) ==>
              var d := GetProperty(h, recv.id, prop);
              && (d.None? || IsData(d.value) ==> r == Ok(Create))
              && (d.Some? && IsAccessor(d.value) ==>
                    r == if IsCallable(h, d.value.setter.value) then Ok(CallSetter(d.value.setter.value.id)) else Err(HostFailure))
    ensures r.Err? ==> r == Err(HostFailure) && recv.Obj? && prop !in h[recv.id].own
  {
    if !recv.Obj? || !CanPut(h, recv.id, prop) then Ok(Refuse)
    else
      assert ObjOk(h, recv.id);
      var o := h[recv.id];
      if prop in o.own && IsData(o.own[prop]) then Ok(SetValue)
      else match GetProperty(h, recv.id, prop)
        case Some(d) =>
          if IsAccessor(d) then
            (if IsCallable(h, d.setter.value) then Ok(CallSetter(d.setter.value.id)) else Err(HostFailure))
          else Ok(Create)
        case None => Ok(Create)
  }

  /** The own-map write `put` performs for an action. */
  function WriteOwn(o: JsObj, prop: string, v: Value, a: PutAction): (r: JsObj)
    ensures r.cls == o.cls && r.proto == o.proto && r.extensible == o.extensible
    ensures forall k :: k != prop ==> (k in r.own <==> k in o.own) && (k in o.own ==> r.own[k] == o.own[k])
    ensures a.Create? ==> prop in r.own && r.own[prop] == DataDesc(v, true, true, true)
    ensures a.SetValue? && prop in o.own ==>
              prop in r.own && r.own[prop].value == Some(v) && r.own[prop] == o.own[prop].(value := Some(v))
    ensures a.Refuse? || a.CallSetter? || (a.SetValue? && prop !in o.own) ==> r == o
  {
    match a
    case SetValue =>
      if prop in o.own then o.(own := o.own[prop := o.own[prop].(value := Some(v))]) else o
    case Create => o.(own := o.own[prop := DataDesc(v, true, true, true)])
    case _ => o
  }

  /** __iter__: the own enumerable property names. */
  function EnumerableNames(o: JsObj): (r: set<string>)
    ensures r <= o.own.Keys
    ensures forall k :: k in o.own ==> (k in r <==> o.own[k].enumerable == Some(true))
  {
    set k | k in o.own && o.own[k].enumerable == Some(true)
  }

  /** Replacing one object's own map by stored, live descriptors keeps the heap well formed. */
  lemma {:induction false} ReplaceOwnOk(h: Heap, id: ObjId, own': map<string, Desc>)
    requires HeapOk(h) && id in h
    requires forall k :: k in own' ==> Stored(own'[k]) && DescLive(h, own'[k])
    ensures HeapOk(h[id := h[id].(own := own')])
  {
    var h' := h[id := h[id].(own := own')];
    assert h'.Keys == h.Keys;
    forall x | x in h' ensures ObjOk(h', x) {
      assert ObjOk(h, x);
      forall k | k in h'[x].own ensures Stored(h'[x].own[k]) && DescLive(h', h'[x].own[k]) {
        var d := h'[x].own[k];
        assert DescLive(h, d);
        assert OptLive(h', d.value) && OptLive(h', d.getter) && OptLive(h', d.setter);
      }
    }
  }

  /** The own-map write of put keeps the heap well formed. */
  lemma {:induction false} WriteOwnOk(h: Heap, ctx: Context, id: ObjId, prop: string, v: Value, a: PutAction)
    requires Ready(h, ctx) && id in h && Live(h, v)
    requires a == Create || (a == SetValue && prop in h[id].own && IsData(h[id].own[prop]))
    ensures Ready(h[id := WriteOwn(h[id], prop, v, a)], ctx)
  {
    assert ObjOk(h, id);
    var o' := WriteOwn(h[id], prop, v, a);
    assert Stored(o'.own[prop]) && DescLive(h, o'.own[prop]);
    ReplaceOwnOk(h, id, o'.own);
  }

  /** After put stores a value (in place or as a new property), get returns it. */
  lemma {:induction false} PutThenGet(h: Heap, ctx: Context, id: ObjId, prop: string, v: Value)
    requires Ready(h, ctx) && id in h && Live(h, v)
    requires PutPlan(h, ctx, Obj(id), prop) == Ok(SetValue) || PutPlan(h, ctx, Obj(id), prop) == Ok(Create)
    ensures var h' := h[id := WriteOwn(h[id], prop, v, PutPlan(h, ctx, Obj(id), prop).value)];
      Ready(h', ctx) && Get(h', ctx, Obj(id), prop) == Ok(v)
      && h'[id].own[prop] == (if PutPlan(h, ctx, Obj(id), prop) == Ok(Create) then DataDesc(v, true, true, true)
                             else h[id].own[prop].(value := Some(v)))
      && forall k :: k != prop ==> (k in h'[id].own <==> k in h[id].own) && (k in h[id].own ==> h'[id].own[k] == h[id].own[k])
  {
    var a := PutPlan(h, ctx, Obj(id), prop).value;
    var o' := WriteOwn(h[id], prop, v, a);
    assert ObjOk(h, id);
    assert prop in o'.own && Stored(o'.own[prop]) && DescLive(h, o'.own[prop]);
    ReplaceOwnOk(h, id, o'.own);
    var h' := h[id := o'];
    assert GetProperty(h', id, prop) == Some(o'.own[prop]);
  }

  /** A property that put creates is enumerated by __iter__. */
  lemma PutCreatesEnumerable(o: JsObj, prop: string, v: Value)
    ensures EnumerableNames(WriteOwn(o, prop, v, Create)) == EnumerableNames(o) + {prop}
  {
  }
}
