/** Descriptor reconciliation of define_own_property (section 8.12.9 of ECMA-262 5.1): given the current own
    descriptor (if any), the object's extensible flag and an update descriptor, decide whether
    the definition is rejected and, if not, which descriptor is stored afterwards. */
module Reconcile {
  import opened Values
  import opened Objects
  import opened Comparison

  datatype Verdict = Reject | Accept(stored: Desc)

  /** The descriptor a new data (or generic) property starts from. */
  function DefaultData(): Desc { DataDesc(Undefined, false, false, false) }

  /** The descriptor a new accessor (or empty) property starts from. */
  function DefaultAccessor(): Desc { Desc(None, None, Some(Undefined), Some(Undefined), Some(false), Some(false)) }

  /** dict.update: every key present in d overrides the one in base, and every key d lacks
      keeps base's entry. */
  function Update(base: Desc, d: Desc): (r: Desc)
    ensures Carries(r, d) && KeepsOmitted(r, base, d)
  {
    Desc(if d.value.Some? then d.value else base.value,
         if d.writable.Some? then d.writable else base.writable,
         if d.getter.Some? then d.getter else base.getter,
         if d.setter.Some? then d.setter else base.setter,
         if d.enumerable.Some? then d.enumerable else base.enumerable,
         if d.configurable.Some? then d.configurable else base.configurable)
  }

  /** Every key present in d is present in s with d's value. */
  predicate Carries(s: Desc, d: Desc) {
    && (d.value.Some? ==> s.value == d.value) && (d.writable.Some? ==> s.writable == d.writable)
    && (d.getter.Some? ==> s.getter == d.getter) && (d.setter.Some? ==> s.setter == d.setter)
    && (d.enumerable.Some? ==> s.enumerable == d.enumerable)
    && (d.configurable.Some? ==> s.configurable == d.configurable)
  }

  /** Every key absent from d has in s the entry it has in base. */
  predicate KeepsOmitted(s: Desc, base: Desc, d: Desc) {
    && (d.value.None? ==> s.value == base.value) && (d.writable.None? ==> s.writable == base.writable)
    && (d.getter.None? ==> s.getter == base.getter) && (d.setter.None? ==> s.setter == base.setter)
    && (d.enumerable.None? ==> s.enumerable == base.enumerable)
    && (d.configurable.None? ==> s.configurable == base.configurable)
  }

  /** The descriptor a new property starts from: the data defaults for a data or generic
      update, the accessor defaults otherwise. */
  function NewDefaults(d: Desc): Desc {
    if IsData(d) || IsGeneric(d) then DefaultData() else DefaultAccessor()
  }

  /** The shape switch: drop one shape's keys and add the other's with default values,
      keeping the two flags. */
  function Switched(c: Desc): (r: Desc)
    requires Stored(c)
    ensures Stored(r) && IsData(r) == !IsData(c)
    ensures r.enumerable == c.enumerable && r.configurable == c.configurable
    ensures IsData(c) ==> r.value.None? && r.writable.None? && r.getter == Some(Undefined) && r.setter == Some(Undefined)
    ensures !IsData(c) ==> r.value == Some(Undefined) && r.writable == Some(false) && r.getter.None? && r.setter.None?
  {
    if IsData(c) then Desc(None, None, Some(Undefined), Some(Undefined), c.enumerable, c.configurable)
    else Desc(Some(Undefined), Some(false), None, None, c.enumerable, c.configurable)
  }

  predicate SameKeys(a: Desc, b: Desc) {
    && a.value.Some? == b.value.Some? && a.writable.Some? == b.writable.Some?
    && a.getter.Some? == b.getter.Some? && a.setter.Some? == b.setter.Some?
    && a.enumerable.Some? == b.enumerable.Some? && a.configurable.Some? == b.configurable.Some?
  }

  /** Value equality used by the reconciliation. With `loose` it is what the code does: Python's
      dict comparison, identity first and then the JS `==` of the values. Without it, it is the
      SameValue comparison section 8.12.9 prescribes. */
  function SameValue(h: Heap, ctx: Context, loose: bool, a: Value, b: Value): (r: Result<bool>)
    requires Ready(h, ctx) && Live(h, a) && Live(h, b)
    ensures a == b ==> r == Ok(true)
    ensures !loose ==> r == Ok(a == b)
  {
    if a == b then Ok(true) else if loose then AbstractEq(h, ctx, a, b) else Ok(false)
  }

  function SameOpt(h: Heap, ctx: Context, loose: bool, a: Option<Value>, b: Option<Value>): (r: Result<bool>)
    requires Ready(h, ctx) && OptLive(h, a) && OptLive(h, b) && a.Some? == b.Some?
    ensures a == b ==> r == Ok(true)
    ensures !loose ==> r == Ok(a == b)
  {
    if a.None? then Ok(true) else SameValue(h, ctx, loose, a.value, b.value)
  }

  /** The no-op test `desc == current`: same keys, equal flags, equal values. */
  function DescSame(h: Heap, ctx: Context, loose: bool, c: Desc, d: Desc): (r: Result<bool>)
    requires Ready(h, ctx) && DescLive(h, c) && DescLive(h, d)
    ensures c == d ==> r == Ok(true)
    ensures !loose ==> r == Ok(c == d)
    ensures r == Ok(true) ==> SameKeys(c, d) && c.writable == d.writable
                              && c.enumerable == d.enumerable && c.configurable == d.configurable
  {
    if !SameKeys(c, d) then Ok(false)
    else if c.writable != d.writable || c.enumerable != d.enumerable || c.configurable != d.configurable then Ok(false)
    else
      var v :- SameOpt(h, ctx, loose, c.value, d.value);
      if !v then Ok(false)
      else
        var g :- SameOpt(h, ctx, loose, c.getter, d.getter);
        if !g then Ok(false) else SameOpt(h, ctx, loose, c.setter, d.setter)
  }

  /** The `current['value'] != desc['value']` test: JS `!=` (no identity shortcut, so NaN
      differs from itself) as written, the negation of SameValue when corrected. */
  function Differs(h: Heap, ctx: Context, loose: bool, a: Value, b: Value): (r: Result<bool>)
    requires Ready(h, ctx) && Live(h, a) && Live(h, b)
    ensures !loose ==> r == Ok(a != b)
    ensures loose && a == b ==> r == Ok(a == Number(NaN))
  {
    if loose then
      var e :- AbstractEq(h, ctx, a, b);
      Ok(!e)
    else Ok(a != b)
  }

  /** s is `current.update(d)`, after the shape switch when d turns a property of one shape
      into the other. */
  predicate Merged(c: Desc, d: Desc, s: Desc)
    requires Stored(c)
  {
    s == Update(c, d) || (IsData(c) != IsData(d) && !IsGeneric(d) && s == Update(Switched(c), d))
  }

  /** What the caller guarantees: a stored current descriptor and a well-shaped update, all live. */
  predicate Inputs(h: Heap, ctx: Context, cur: Option<Desc>, d: Desc) {
    && Ready(h, ctx)
    && (cur.Some? ==> Stored(cur.value) && DescLive(h, cur.value))
    && DescLive(h, d) && WellShaped(d)
  }

  /** define_own_property, branch by branch; `loose` selects the comparisons as written
      (DefineOwnAsWritten) or as section 8.12.9 prescribes (DefineOwn). */
  function DefineOwnWith(h: Heap, ctx: Context, loose: bool, cur: Option<Desc>, extensible: bool, d: Desc): (r: Result<Verdict>)
    requires Inputs(h, ctx, cur, d)
    ensures r.Ok? && r.value.Accept? ==> Stored(r.value.stored) && DescLive(h, r.value.stored)
    ensures cur.None? ==> r.Ok? && (r.value.Reject? <==> !extensible)
    ensures r.Err? ==> cur.Some? && !IsEmpty(d)
    ensures r.Err? && !loose ==> r.error == HostFailure && !cur.value.configurable.value
    ensures cur.Some? && IsEmpty(d) ==> r == Ok(Accept(cur.value))
    ensures !loose && r.Ok? && r.value.Accept? ==> Carries(r.value.stored, d)
    ensures cur.None? && extensible ==> r == Ok(Accept(Update(NewDefaults(d), d)))
    ensures cur.Some? && r.Ok? && r.value.Accept? ==>
              r.value.stored == cur.value || Merged(cur.value, d, r.value.stored)
    ensures !loose && cur.Some? && r.Ok? && r.value.Accept? ==> Merged(cur.value, d, r.value.stored)
  {
    if cur.None? then
      if !extensible then Ok(Reject)
      else if IsData(d) || IsGeneric(d) then Ok(Accept(Update(DefaultData(), d)))
      else Ok(Accept(Update(DefaultAccessor(), d)))
    else
      var c := cur.value;
      if IsEmpty(d) then Ok(Accept(c))
      else
        var same :- DescSame(h, ctx, loose, c, d);
        if same then Ok(Accept(c))
        else
          var configurable := c.configurable.value;
          if !configurable && d.configurable.None? then Err(HostFailure)
          else if !configurable && d.configurable.value then Ok(Reject)
          else if !configurable && d.enumerable.None? then Err(HostFailure)
          else if !configurable && d.enumerable != c.enumerable then Ok(Reject)
          else if IsGeneric(d) then Ok(Accept(Update(c, d)))
          else if IsData(c) != IsData(d) then
            if !configurable then Ok(Reject) else Ok(Accept(Update(Switched(c), d)))
          else if IsData(c) then
            if !configurable && !c.writable.value && d.writable.None? then Err(HostFailure)
            else if !configurable && !c.writable.value && d.writable.value then Ok(Reject)
            else if !c.writable.value && d.value.Some? then
              var differs :- Differs(h, ctx, loose, c.value.value, d.value.value);
              if differs then Ok(Reject) else Ok(Accept(Update(c, d)))
            else Ok(Accept(Update(c, d)))
          else if !configurable && d.setter.Some? && d.setter != c.setter then Ok(Reject)
          else if !configurable && d.getter.Some? && d.getter != c.getter then Ok(Reject)
          else Ok(Accept(Update(c, d)))
  }

  /** The keys a redefinition of c reads without checking that d has them: `configurable`
      and then `enumerable` on a non-configurable property, and `writable` when such a
      property is a non-writable data property updated by a data descriptor. Each is read only
      once the checks before it have passed. */
  predicate MissingKey(c: Desc, d: Desc)
    requires Stored(c)
  {
    && !c.configurable.value
    && (|| d.configurable.None?
        || (d.configurable == Some(false) && d.enumerable.None?)
        || (d.configurable == Some(false) && d.enumerable == c.enumerable
            && IsData(c) && IsData(d) && !c.writable.value && d.writable.None?))
  }

  /** The redefinitions of c that define_own_property refuses: on a non-configurable property,
      making it configurable, changing `enumerable`, switching between data and accessor,
      making a non-writable property writable, or giving an accessor another getter or
      setter; and, on any non-writable data property, giving it another value. */
  predicate Forbidden(c: Desc, d: Desc)
    requires Stored(c)
  {
    var frozen := !c.configurable.value;
    || (frozen && d.configurable == Some(true))
    || (frozen && d.enumerable.Some? && d.enumerable != c.enumerable)
    || (frozen && !IsGeneric(d) && IsData(c) != IsData(d))
    || (frozen && IsData(c) && IsData(d) && !c.writable.value && d.writable == Some(true))
    || (IsData(c) && IsData(d) && !c.writable.value && d.value.Some? && d.value != c.value)
    || (frozen && IsAccessor(c) && IsAccessor(d)
        && ((d.getter.Some? && d.getter != c.getter) || (d.setter.Some? && d.setter != c.setter)))
  }

  /** What an accepted redefinition of c by d stores: `current.update(d)`, after the shape
      switch when d is of the other shape. */
  function Redefined(c: Desc, d: Desc): (r: Desc)
    requires Stored(c)
    ensures Merged(c, d, r)
  {
    if !IsGeneric(d) && IsData(c) != IsData(d) then Update(Switched(c), d) else Update(c, d)
  }

  /** define_own_property with the comparisons of section 8.12.9. */
  function DefineOwn(h: Heap, ctx: Context, cur: Option<Desc>, extensible: bool, d: Desc): (r: Result<Verdict>)
    requires Inputs(h, ctx, cur, d)
    ensures r.Ok? && r.value.Accept? ==> Stored(r.value.stored) && Carries(r.value.stored, d)
    ensures r.Err? ==> r == Err(HostFailure) && cur.Some? && !cur.value.configurable.value
    ensures cur.None? ==> r == if extensible then Ok(Accept(Update(NewDefaults(d), d))) else Ok(Reject)
    ensures cur.Some? && r.Ok? && r.value.Accept? ==> Merged(cur.value, d, r.value.stored)
  {
    DefineOwnWith(h, ctx, false, cur, extensible, d)
  }

  /** define_own_property as written, with JS `==` in the no-op test and JS `!=` in the
      non-writable value test. */
  function DefineOwnAsWritten(h: Heap, ctx: Context, cur: Option<Desc>, extensible: bool, d: Desc): (r: Result<Verdict>)
    requires Inputs(h, ctx, cur, d)
    ensures r.Ok? && r.value.Accept? ==> Stored(r.value.stored)
    ensures cur.None? ==> r == DefineOwn(h, ctx, cur, extensible, d)
  {
    DefineOwnWith(h, ctx, true, cur, extensible, d)
  }

  // Rejection rules.

  /** A new property on a non-extensible object is rejected; on an extensible one a data or
      generic update lands on the data defaults (undefined, all flags false) and any other
      update on the accessor defaults. */
  lemma NewPropertyDefaults(h: Heap, ctx: Context, extensible: bool, d: Desc)
    requires Inputs(h, ctx, None, d)
    ensures !extensible ==> DefineOwn(h, ctx, None, extensible, d) == Ok(Reject)
    ensures extensible && (IsData(d) || IsGeneric(d)) ==>
      DefineOwn(h, ctx, None, extensible, d) == Ok(Accept(Update(DefaultData(), d)))
    ensures extensible && !(IsData(d) || IsGeneric(d)) ==>
      DefineOwn(h, ctx, None, extensible, d) == Ok(Accept(Update(DefaultAccessor(), d)))
  {
  }

  /** A non-configurable property rejects `configurable: true`, a change of `enumerable` and a
      switch between data and accessor; an update lacking either flag fails on the missing key. */
  lemma NonConfigurableGuards(h: Heap, ctx: Context, loose: bool, c: Desc, extensible: bool, d: Desc)
    requires Inputs(h, ctx, Some(c), d) && c.configurable == Some(false) && !IsEmpty(d)
    ensures d.configurable == Some(true) ==> DefineOwnWith(h, ctx, loose, Some(c), extensible, d) == Ok(Reject)
    ensures d.configurable == Some(false) && d.enumerable.Some? && d.enumerable != c.enumerable ==>
      DefineOwnWith(h, ctx, loose, Some(c), extensible, d) == Ok(Reject)
    ensures d.configurable.None? || (d.configurable == Some(false) && d.enumerable.None?) ==>
      DefineOwnWith(h, ctx, loose, Some(c), extensible, d) == Err(HostFailure)
    ensures d.configurable == Some(false) && d.enumerable == c.enumerable && !IsGeneric(d) && IsData(d) != IsData(c) ==>
      DefineOwnWith(h, ctx, loose, Some(c), extensible, d) == Ok(Reject)
  {
    assert d.configurable.None? || d.enumerable.None? || (!IsGeneric(d) && IsData(d) != IsData(c)) ==> !SameKeys(c, d);
  }

  /** A non-writable data property rejects a different value, even when it is configurable. */
  lemma NonWritableRejectsNewValue(h: Heap, ctx: Context, c: Desc, extensible: bool, d: Desc, v: Value)
    requires Inputs(h, ctx, Some(c), d) && IsData(c) && c.writable == Some(false)
    requires IsData(d) && d.value == Some(v) && Some(v) != c.value
    requires c.configurable == Some(true)
             || (d.configurable == Some(false) && d.enumerable == c.enumerable && d.writable == Some(false))
    ensures DefineOwn(h, ctx, Some(c), extensible, d) == Ok(Reject)
  {
    assert v != c.value.value;
    assert DescSame(h, ctx, false, c, d) == Ok(false);
    assert !IsGeneric(d) && IsData(c) == IsData(d);
    assert Differs(h, ctx, false, c.value.value, v) == Ok(true);
  }

  /** A non-configurable accessor rejects a getter or setter that is not the current one. */
  lemma NonConfigurableAccessorKeepsFunctions(h: Heap, ctx: Context, c: Desc, extensible: bool, d: Desc)
    requires Inputs(h, ctx, Some(c), d) && IsAccessor(c) && c.configurable == Some(false)
    requires IsAccessor(d) && d.configurable == Some(false) && d.enumerable == c.enumerable
    requires (d.getter.Some? && d.getter != c.getter) || (d.setter.Some? && d.setter != c.setter)
    ensures DefineOwn(h, ctx, Some(c), extensible, d) == Ok(Reject)
  {
  }

  /** The verdict on a redefinition, in both directions: a missing key is the host failure,
      otherwise a forbidden redefinition is rejected and every other one is accepted, storing
      the current descriptor updated by d. */
  lemma RedefinitionVerdict(h: Heap, ctx: Context, c: Desc, extensible: bool, d: Desc)
    requires Inputs(h, ctx, Some(c), d) && !IsEmpty(d)
    ensures DefineOwn(h, ctx, Some(c), extensible, d)
            == if MissingKey(c, d) then Err(HostFailure)
               else if Forbidden(c, d) then Ok(Reject)
               else Ok(Accept(Redefined(c, d)))
  {
    if c == d {
      assert !MissingKey(c, d) && !Forbidden(c, d);
      assert Update(c, d) == c;
    }
  }

  // Success rules.

  /** An empty update or one equal to the current descriptor changes nothing. */
  lemma NoopUpdates(h: Heap, ctx: Context, loose: bool, c: Desc, extensible: bool, d: Desc)
    requires Inputs(h, ctx, Some(c), d) && (IsEmpty(d) || d == c)
    ensures DefineOwnWith(h, ctx, loose, Some(c), extensible, d) == Ok(Accept(c))
  {
  }

  /** A property that is non-configurable and either a non-writable data property or an
      accessor is frozen: every accepted definition leaves it exactly as it was. */
  lemma FrozenStaysFrozen(h: Heap, ctx: Context, loose: bool, c: Desc, extensible: bool, d: Desc)
    requires Inputs(h, ctx, Some(c), d) && c.configurable == Some(false)
    requires IsAccessor(c) || c.writable == Some(false)
    ensures var r := DefineOwnWith(h, ctx, loose, Some(c), extensible, d);
            r.Ok? && r.value.Accept? ==> r.value.stored == c
  {
    if IsData(c) && d.value.Some? && d.configurable == Some(false) && d.enumerable == c.enumerable
       && d.writable == Some(false)
    {
      assert SameKeys(c, d);
    }
  }

  /** Redefining only the value of a configurable, writable data property stores the value and
      keeps every flag. */
  lemma RedefineValueKeepsFlags(h: Heap, ctx: Context, c: Desc, extensible: bool, v: Value)
    requires Inputs(h, ctx, Some(c), Desc(Some(v), None, None, None, None, None))
    requires IsData(c) && c.configurable == Some(true) && c.writable == Some(true)
    ensures DefineOwn(h, ctx, Some(c), extensible, Desc(Some(v), None, None, None, None, None))
            == Ok(Accept(c.(value := Some(v))))
  {
    var d := Desc(Some(v), None, None, None, None, None);
    assert !SameKeys(c, d);
  }

  /** A switch between data and accessor on a configurable property leaves exactly the new
      shape's fields, those not given taking their defaults, and keeps the flags not given. */
  lemma ShapeSwitch(h: Heap, ctx: Context, loose: bool, c: Desc, extensible: bool, d: Desc)
    requires Inputs(h, ctx, Some(c), d) && c.configurable == Some(true)
    requires !IsEmpty(d) && !IsGeneric(d) && IsData(d) != IsData(c)
    ensures DefineOwnWith(h, ctx, loose, Some(c), extensible, d) == Ok(Accept(Update(Switched(c), d)))
    ensures IsData(Update(Switched(c), d)) == IsData(d) && Stored(Update(Switched(c), d))
    ensures var s := Update(Switched(c), d);
            && (IsData(d) ==> s.value == (if d.value.Some? then d.value else Some(Undefined))
                              && s.writable == (if d.writable.Some? then d.writable else Some(false))
                              && s.getter.None? && s.setter.None?)
            && (!IsData(d) ==> s.getter == (if d.getter.Some? then d.getter else Some(Undefined))
                               && s.setter == (if d.setter.Some? then d.setter else Some(Undefined))
                               && s.value.None? && s.writable.None?)
            && s.enumerable == (if d.enumerable.Some? then d.enumerable else c.enumerable)
            && s.configurable == (if d.configurable.Some? then d.configurable else c.configurable)
  {
    assert !SameKeys(c, d);
  }

  /** The non-writable value test as written is JS `!=`: redefining only the value of a
      configurable, non-writable property holding "1" with the number 1 is accepted and stores
      the number. DefineOwn, whose value test is SameValue, rejects it, although section
      8.12.9 (step 10.b) accepts any change of a configurable property. */
  lemma LooseValueTestAcceptsEqual(h: Heap, ctx: Context)
    requires Ready(h, ctx) && ctx.parseFloat("1") == Some(Finite(1.0))
    ensures var c := DataDesc(Str("1"), false, true, true);
            var d := Desc(Some(Number(Finite(1.0))), None, None, None, None, None);
            DefineOwnAsWritten(h, ctx, Some(c), true, d) == Ok(Accept(c.(value := Some(Number(Finite(1.0))))))
            && DefineOwn(h, ctx, Some(c), true, d) == Ok(Reject)
  {
    var c := DataDesc(Str("1"), false, true, true);
    var d := Desc(Some(Number(Finite(1.0))), None, None, None, None, None);
    AbstractNotStrict(h, ctx);
    AbstractEqSymmetric(h, ctx, Str("1"), Number(Finite(1.0)));
    assert !SameKeys(c, d);
    assert Differs(h, ctx, true, Str("1"), Number(Finite(1.0))) == Ok(false);
  }

  /** On a frozen property the `!=` value test is hidden behind the no-op test: an update must
      carry all four keys, so a loosely equal value is accepted as a no-op first, keeping "1".
      With the no-op test corrected alone, the value test would then answer "not different"
      and store 1, where section 8.12.9 (step 10.a.ii) rejects it, as DefineOwn does. */
  lemma FrozenValueTestHiddenByNoop(h: Heap, ctx: Context)
    requires Ready(h, ctx) && ctx.parseFloat("1") == Some(Finite(1.0))
    ensures var c := DataDesc(Str("1"), false, true, false);
            var d := DataDesc(Number(Finite(1.0)), false, true, false);
            && DefineOwnAsWritten(h, ctx, Some(c), true, d) == Ok(Accept(c))
            && DescSame(h, ctx, false, c, d) == Ok(false)
            && Differs(h, ctx, true, Str("1"), Number(Finite(1.0))) == Ok(false)
            && DefineOwn(h, ctx, Some(c), true, d) == Ok(Reject)
  {
    var c := DataDesc(Str("1"), false, true, false);
    var d := DataDesc(Number(Finite(1.0)), false, true, false);
    AbstractNotStrict(h, ctx);
    AbstractEqSymmetric(h, ctx, Str("1"), Number(Finite(1.0)));
    assert DescSame(h, ctx, true, c, d) == Ok(true);
  }

  /** The no-op test as written compares values with JS `==`: redefining a configurable
      property holding "1" with the number 1 and the same flags keeps the string, where
      section 8.12.9 stores the number. */
  lemma LooseNoopKeepsOldValue(h: Heap, ctx: Context)
    requires Ready(h, ctx) && ctx.parseFloat("1") == Some(Finite(1.0))
    ensures var c := DataDesc(Str("1"), true, true, true);
            var d := DataDesc(Number(Finite(1.0)), true, true, true);
            DefineOwnAsWritten(h, ctx, Some(c), true, d) == Ok(Accept(c))
            && DefineOwn(h, ctx, Some(c), true, d) == Ok(Accept(d))
  {
    var c := DataDesc(Str("1"), true, true, true);
    var d := DataDesc(Number(Finite(1.0)), true, true, true);
    AbstractNotStrict(h, ctx);
    AbstractEqSymmetric(h, ctx, Str("1"), Number(Finite(1.0)));
    assert DescSame(h, ctx, true, c, d) == Ok(true);
  }
}
