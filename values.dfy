/** Values, property descriptors, objects and the object heap of the js2py runtime. */
module Values {

  datatype Option<+T> = None | Some(value: T)

  /** TypeError and ReferenceError are the JS errors the runtime raises; HostFailure stands
      for a failure of the host language itself (a missing dict key, a missing method). */
  datatype Error = TypeError | ReferenceError | HostFailure

  datatype Result<+T> = Ok(value: T) | Err(error: Error) {
    predicate IsFailure() { Err? }
    function PropagateFailure<U>(): Result<U>
      requires Err?
    {
      Err(error)
    }
    function Extract(): T
      requires Ok?
    {
      value
    }
  }

  /** Objects live in an arena and are referred to by id. */
  type ObjId = nat

  /** Numbers: only NaN-awareness and ordering matter to the core (no +0/-0 distinction). */
  datatype Num = NaN | PosInf | NegInf | Finite(r: real)

  /** A JS value; `Obj` is a shared reference into the heap. */
  datatype Value = Undefined | Null | Bool(b: bool) | Number(n: Num) | Str(s: string) | Obj(id: ObjId)
  {
    predicate IsPrimitive() { !Obj? }
  }

  /** The `Class` tag of an object; a function carries its declared arity. */
  datatype ClassTag = ObjectClass | FunctionClass(arity: nat) | ArrayClass | ArgumentsClass | DateClass | ErrorClass

  /** A property descriptor as the source's dict: each key may be present or absent. */
  datatype Desc = Desc(
    value: Option<Value>,
    writable: Option<bool>,
    getter: Option<Value>,
    setter: Option<Value>,
    enumerable: Option<bool>,
    configurable: Option<bool>)

  datatype JsObj = JsObj(cls: ClassTag, own: map<string, Desc>, proto: Option<ObjId>, extensible: bool)

  type Heap = map<ObjId, JsObj>

  // Descriptor predicates (is_data_descriptor, is_accessor_descriptor, is_generic_descriptor).

  predicate IsEmpty(d: Desc) {
    d.value.None? && d.writable.None? && d.getter.None? && d.setter.None? && d.enumerable.None? && d.configurable.None?
  }

  predicate IsData(d: Desc) { d.value.Some? || d.writable.Some? }

  predicate IsAccessor(d: Desc) { d.getter.Some? || d.setter.Some? }

  predicate IsGeneric(d: Desc) { !IsEmpty(d) && !IsData(d) && !IsAccessor(d) }

  /** An update descriptor that does not mix the data keys with the accessor keys. */
  predicate WellShaped(d: Desc) { !(IsData(d) && IsAccessor(d)) }

  /** A descriptor as stored in an object: both flags, and exactly one shape's fields. */
  predicate Stored(d: Desc) {
    && d.enumerable.Some? && d.configurable.Some?
    && ((d.value.Some? && d.writable.Some? && d.getter.None? && d.setter.None?)
        || (d.value.None? && d.writable.None? && d.getter.Some? && d.setter.Some?))
  }

  function DataDesc(v: Value, writable: bool, enumerable: bool, configurable: bool): Desc {
    Desc(Some(v), Some(writable), None, None, Some(enumerable), Some(configurable))
  }

  lemma StoredShapes(d: Desc)
    requires Stored(d)
    ensures IsData(d) != IsAccessor(d) && !IsEmpty(d) && !IsGeneric(d)
  {
  }

  /** A value that refers only to objects of the heap. */
  predicate Live(h: Heap, v: Value) { v.Obj? ==> v.id in h }

  predicate OptLive(h: Heap, v: Option<Value>) { v.Some? ==> Live(h, v.value) }

  predicate DescLive(h: Heap, d: Desc) { OptLive(h, d.value) && OptLive(h, d.getter) && OptLive(h, d.setter) }

  /** One object of a well-formed heap: its prototype was allocated before it (so prototype
      chains are finite), and its descriptors are stored ones over live values. */
  predicate ObjOk(h: Heap, id: ObjId)
    requires id in h
  {
    && (h[id].proto.Some? ==> h[id].proto.value in h && h[id].proto.value < id)
    && (forall k :: k in h[id].own ==> Stored(h[id].own[k]) && DescLive(h, h[id].own[k]))
  }

  predicate HeapOk(h: Heap) {
    forall id {:trigger ObjOk(h, id)} :: id in h ==> ObjOk(h, id)
  }

  /** The prototype link of an object of a well-formed heap: an older object of the heap. */
  function Proto(h: Heap, id: ObjId): (p: Option<ObjId>)
    requires HeapOk(h) && id in h
    ensures p == h[id].proto
    ensures p.Some? ==> p.value in h && p.value < id
  {
    assert ObjOk(h, id);
    h[id].proto
  }

  predicate IsCallable(h: Heap, v: Value) {
    v.Obj? && v.id in h && h[v.id].cls.FunctionClass?
  }

  // Decimal rendering of indices, as Python's str() of a non-negative int.

  function Digit(d: nat): (c: char)
    requires d < 10
    ensures '0' <= c <= '9'
  {
    (d + 48) as char
  }

  function NatToString(n: nat): (s: string)
    ensures |s| >= 1
    ensures forall i :: 0 <= i < |s| ==> '0' <= s[i] <= '9'
    ensures n < 10 <==> |s| == 1
    decreases n
  {
    if n < 10 then [Digit(n)] else NatToString(n / 10) + [Digit(n % 10)]
  }

  /** Distinct indices give distinct property names. */
  lemma {:induction false} NatToStringInjective(a: nat, b: nat)
    ensures NatToString(a) == NatToString(b) ==> a == b
    decreases a
  {
    if NatToString(a) == NatToString(b) {
      if a >= 10 && b >= 10 {
        var sa, sb := NatToString(a / 10), NatToString(b / 10);
        assert NatToString(a) == sa + [Digit(a % 10)];
        assert NatToString(b) == sb + [Digit(b % 10)];
        assert |sa| == |sb|;
        assert sa == NatToString(a)[..|sa|] == NatToString(b)[..|sb|] == sb;
        assert Digit(a % 10) == NatToString(a)[|sa|] == NatToString(b)[|sb|] == Digit(b % 10);
        NatToStringInjective(a / 10, b / 10);
      }
    }
  }

  /** An index name never collides with a named property such as "length" or "callee". */
  lemma NatToStringNotName(n: nat, name: string)
    requires |name| > 0 && !('0' <= name[0] <= '9')
    ensures NatToString(n) != name
  {
    assert '0' <= NatToString(n)[0] <= '9';
  }
}
