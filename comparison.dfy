/** Equality and relational comparison: abstract_equality_comparison, PyJsStrictEq,
    abstract_relational_comparison and the four ordering operators. Section numbers refer to
    ECMA-262 5.1. */
module Comparison {
  import opened Values
  import opened Objects
  import opened Coercion

  /** Two values carry the same class tag (two objects compare as one kind: objects of different
      classes are different objects, so identity decides either way). */
  predicate SameKind(a: Value, b: Value) {
    (a.Undefined? && b.Undefined?) || (a.Null? && b.Null?) || (a.Bool? && b.Bool?)
    || (a.Number? && b.Number?) || (a.Str? && b.Str?) || (a.Obj? && b.Obj?)
  }

  /** PyJsStrictEq (section 11.9.6): no coercion; NaN differs from everything. */
  function StrictEq(a: Value, b: Value): (r: bool)
    ensures r ==> SameKind(a, b)
    ensures r <==> a == b && a != Number(NaN)
  {
    if !SameKind(a, b) then false
    else if a.Undefined? || a.Null? then true
    else match (a, b)
      case (Bool(x), Bool(y)) => x == y
      case (Number(x), Number(y)) => x != NaN && x == y
      case (Str(x), Str(y)) => x == y
      case (Obj(x), Obj(y)) => x == y
  }

  /** PyJsStrictEq and same_as are the same relation. */
  lemma StrictEqIsSameAs(a: Value, b: Value)
    ensures StrictEq(a, b) == SameAs(a, b)
  {
  }

  /** Measure for the coercing recursion of abstract equality: each step replaces a string by a
      number, a boolean by a number, or an object by a primitive. */
  function Rank(v: Value): nat {
    match v
    case Str(_) => 1
    case Bool(_) => 2
    case Obj(_) => 3
    case _ => 0
  }

  /** abstract_equality_comparison (section 11.9.3). */
  function AbstractEq(h: Heap, ctx: Context, x: Value, y: Value): (r: Result<bool>)
    requires Ready(h, ctx) && Live(h, x) && Live(h, y)
    ensures SameKind(x, y) ==> r == Ok(StrictEq(x, y))
    ensures x.Undefined? || x.Null? ==> r == Ok(y.Undefined? || y.Null?)
    ensures y.Undefined? || y.Null? ==> r == Ok(x.Undefined? || x.Null?)
    ensures r.Err? ==> x.Obj? || y.Obj?
    decreases Rank(x) + Rank(y)
  {
    if SameKind(x, y) then Ok(StrictEq(x, y))
    else if (x.Undefined? && y.Null?) || (x.Null? && y.Undefined?) then Ok(true)
    else if x.Number? && y.Str? then AbstractEq(h, ctx, x, Number(StringToNumber(ctx, y.s)))
    else if x.Str? && y.Number? then AbstractEq(h, ctx, Number(StringToNumber(ctx, x.s)), y)
    else if x.Bool? then AbstractEq(h, ctx, Number(ToNumberPrim(ctx, x)), y)
    else if y.Bool? then AbstractEq(h, ctx, x, Number(ToNumberPrim(ctx, y)))
    else if (x.Str? || x.Number?) && y.Obj? then
      var p :- ToPrimitive(h, ctx, y, NoHint);
      AbstractEq(h, ctx, x, p)
    else if (y.Str? || y.Number?) && x.Obj? then
      var p :- ToPrimitive(h, ctx, x, NoHint);
      AbstractEq(h, ctx, p, y)
    else Ok(false)
  }

  /** Two numbers are equal exactly when they are the same number other than NaN. */
  lemma NumbersEqual(h: Heap, ctx: Context, m: Num, n: Num)
    requires Ready(h, ctx)
    ensures AbstractEq(h, ctx, Number(m), Number(n)) == Ok(m != NaN && m == n)
  {
  }

  /** A string meets a number as its to_number. */
  lemma StringMeetsNumber(h: Heap, ctx: Context, x: Value, y: Value)
    requires Ready(h, ctx) && Live(h, x) && Live(h, y)
    ensures x.Number? && y.Str? ==> AbstractEq(h, ctx, x, y) == Ok(x.n != NaN && x.n == StringToNumber(ctx, y.s))
    ensures x.Str? && y.Number? ==> AbstractEq(h, ctx, x, y) == Ok(y.n != NaN && y.n == StringToNumber(ctx, x.s))
  {
    if x.Number? && y.Str? {
      var n := StringToNumber(ctx, y.s);
      assert AbstractEq(h, ctx, x, y) == AbstractEq(h, ctx, x, Number(n));
      NumbersEqual(h, ctx, x.n, n);
    } else if x.Str? && y.Number? {
      var n := StringToNumber(ctx, x.s);
      assert AbstractEq(h, ctx, x, y) == AbstractEq(h, ctx, Number(n), y);
      NumbersEqual(h, ctx, n, y.n);
    }
  }

  /** A boolean meeting a value of another kind is replaced by its number. */
  lemma BooleanBecomesNumber(h: Heap, ctx: Context, x: Value, y: Value)
    requires Ready(h, ctx) && Live(h, x) && Live(h, y)
    ensures x.Bool? && !y.Bool? ==> AbstractEq(h, ctx, x, y) == AbstractEq(h, ctx, Number(ToNumberPrim(ctx, x)), y)
    ensures y.Bool? && !x.Bool? ==> AbstractEq(h, ctx, x, y) == AbstractEq(h, ctx, x, Number(ToNumberPrim(ctx, y)))
  {
  }

  /** An object meeting a string or a number is replaced by its to_primitive, whose failure
      propagates; an object meets undefined and null as unequal. */
  lemma ObjectBecomesPrimitive(h: Heap, ctx: Context, x: Value, y: Value)
    requires Ready(h, ctx) && Live(h, x) && Live(h, y)
    ensures (x.Str? || x.Number?) && y.Obj? ==>
              var p := ToPrimitive(h, ctx, y, NoHint);
              AbstractEq(h, ctx, x, y) == if p.Err? then Err(p.error) else AbstractEq(h, ctx, x, p.value)
    ensures x.Obj? && (y.Str? || y.Number?) ==>
              var p := ToPrimitive(h, ctx, x, NoHint);
              AbstractEq(h, ctx, x, y) == if p.Err? then Err(p.error) else AbstractEq(h, ctx, p.value, y)
    ensures x.Obj? && (y.Undefined? || y.Null?) ==> AbstractEq(h, ctx, x, y) == Ok(false)
  {
  }

  /** A boolean equals a number exactly when the number is 1 (true) or 0 (false). */
  lemma BooleanMeetsNumber(h: Heap, ctx: Context, b: bool, n: Num)
    requires Ready(h, ctx)
    ensures AbstractEq(h, ctx, Bool(b), Number(n)) == Ok(n == Finite(if b then 1.0 else 0.0))
  {
    assert AbstractEq(h, ctx, Bool(b), Number(n)) == AbstractEq(h, ctx, Number(ToNumberPrim(ctx, Bool(b))), Number(n));
  }

  /** Strict equality implies abstract equality. */
  lemma StrictImpliesAbstract(h: Heap, ctx: Context, a: Value, b: Value)
    requires Ready(h, ctx) && Live(h, a) && Live(h, b)
    requires StrictEq(a, b)
    ensures AbstractEq(h, ctx, a, b) == Ok(true)
  {
  }

  /** ... but not conversely: 1 == "1" while 1 !== "1". */
  lemma AbstractNotStrict(h: Heap, ctx: Context)
    requires Ready(h, ctx) && ctx.parseFloat("1") == Some(Finite(1.0))
    ensures AbstractEq(h, ctx, Number(Finite(1.0)), Str("1")) == Ok(true)
    ensures !StrictEq(Number(Finite(1.0)), Str("1"))
  {
    StringOneIsOne(ctx);
  }

  lemma StringOneIsOne(ctx: Context)
    requires ctx.parseFloat("1") == Some(Finite(1.0))
    ensures StringToNumber(ctx, "1") == Finite(1.0)
  {
    StripKeeps("1");
    assert !('x' in "1" || 'X' in "1");
    assert DecimalToNumber(ctx, "1") == Finite(1.0);
  }

  /** A number equals itself exactly when it is not NaN. */
  lemma NumberSelfEquality(h: Heap, ctx: Context, n: Num)
    requires Ready(h, ctx)
    ensures AbstractEq(h, ctx, Number(n), Number(n)) == Ok(n != NaN)
  {
  }

  /** Abstract equality is symmetric, errors included. */
  lemma {:induction false} AbstractEqSymmetric(h: Heap, ctx: Context, x: Value, y: Value)
    requires Ready(h, ctx) && Live(h, x) && Live(h, y)
    ensures AbstractEq(h, ctx, x, y) == AbstractEq(h, ctx, y, x)
    decreases Rank(x) + Rank(y), 2
  {
    if SameKind(x, y) || x.Undefined? || x.Null? || y.Undefined? || y.Null? {
    } else if y.Obj? {
      PrimObjSymmetric(h, ctx, x, y);
    } else if x.Obj? {
      PrimObjSymmetric(h, ctx, y, x);
    } else if x.Number? && y.Str? {
      AbstractEqSymmetric(h, ctx, x, Number(StringToNumber(ctx, y.s)));
    } else if x.Str? && y.Number? {
      AbstractEqSymmetric(h, ctx, Number(StringToNumber(ctx, x.s)), y);
    } else if x.Bool? {
      AbstractEqSymmetric(h, ctx, Number(ToNumberPrim(ctx, x)), y);
    } else if y.Bool? {
      AbstractEqSymmetric(h, ctx, x, Number(ToNumberPrim(ctx, y)));
    }
  }

  /** The cases of AbstractEqSymmetric comparing a boolean, number or string with an object. */
  lemma {:induction false} PrimObjSymmetric(h: Heap, ctx: Context, x: Value, y: Value)
    requires Ready(h, ctx) && Live(h, x) && y.Obj? && y.id in h && (x.Bool? || x.Number? || x.Str?)
    ensures AbstractEq(h, ctx, x, y) == AbstractEq(h, ctx, y, x)
    decreases Rank(x) + Rank(y), 1
  {
    if x.Bool? {
      BoolObjSymmetric(h, ctx, x, y);
    } else {
      ObjectBecomesPrimitive(h, ctx, x, y);
      ObjectBecomesPrimitive(h, ctx, y, x);
      var p := ToPrimitive(h, ctx, y, NoHint);
      if p.Ok? { AbstractEqSymmetric(h, ctx, x, p.value); }
    }
  }

  lemma {:induction false} BoolObjSymmetric(h: Heap, ctx: Context, x: Value, y: Value)
    requires Ready(h, ctx) && x.Bool? && y.Obj? && y.id in h
    ensures AbstractEq(h, ctx, x, y) == AbstractEq(h, ctx, y, x)
    decreases Rank(x) + Rank(y), 0
  {
    AbstractEqSymmetric(h, ctx, Number(ToNumberPrim(ctx, x)), y);
  }

  // Relational comparison.

  /** Python's string ordering: by character, a proper prefix first. */
  function LexLess(a: string, b: string): bool {
    if b == [] then false
    else if a == [] then true
    else if a[0] != b[0] then a[0] < b[0]
    else LexLess(a[1..], b[1..])
  }

  /** The string ordering is a strict total order. */
  lemma {:induction false} LexLessTrichotomy(a: string, b: string)
    ensures !(LexLess(a, b) && LexLess(b, a))
    ensures LexLess(a, b) || a == b || LexLess(b, a)
    ensures !LexLess(a, a)
  {
    if a != [] && b != [] && a[0] == b[0] {
      LexLessTrichotomy(a[1..], b[1..]);
      if a[1..] == b[1..] { assert a == [a[0]] + a[1..] && b == [b[0]] + b[1..]; }
    }
    if a != [] { LexLessTrichotomy(a[1..], a[1..]); }
  }

  lemma {:induction false} LexLessTransitive(a: string, b: string, c: string)
    requires LexLess(a, b) && LexLess(b, c)
    ensures LexLess(a, c)
  {
    if a != [] && a[0] == b[0] && b[0] == c[0] {
      LexLessTransitive(a[1..], b[1..], c[1..]);
    }
  }

  /** Numeric order on non-NaN numbers (Python float <). */
  function NumLess(a: Num, b: Num): bool
    requires a != NaN && b != NaN
  {
    match (a, b)
    case (NegInf, NegInf) => false
    case (NegInf, _) => true
    case (_, PosInf) => a != PosInf
    case (Finite(x), Finite(y)) => x < y
    case _ => false
  }

  /** The numeric order is a strict total order on the numbers other than NaN. */
  lemma NumLessStrictTotal(a: Num, b: Num)
    requires a != NaN && b != NaN
    ensures !NumLess(a, a)
    ensures !(NumLess(a, b) && NumLess(b, a))
    ensures NumLess(a, b) || a == b || NumLess(b, a)
  {
  }

  lemma NumLessTransitive(a: Num, b: Num, c: Num)
    requires a != NaN && b != NaN && c != NaN
    requires NumLess(a, b) && NumLess(b, c)
    ensures NumLess(a, c)
  {
  }

  /** The infinities bound every other number. */
  lemma NumLessInfinities(a: Num)
    requires a != NaN
    ensures a != NegInf ==> NumLess(NegInf, a)
    ensures a != PosInf ==> NumLess(a, PosInf)
  {
  }

  /** The comparison of two primitives after to_primitive: lexicographic for two strings,
      otherwise numeric on their to_number, undefined when either is NaN. */
  function PrimLess(ctx: Context, a: Value, b: Value): (r: Value)
    requires a.IsPrimitive() && b.IsPrimitive()
    ensures r.Undefined? || r.Bool?
    ensures a.Str? && b.Str? ==> r == Bool(LexLess(a.s, b.s))
    ensures !(a.Str? && b.Str?) ==>
              (r.Undefined? <==> ToNumberPrim(ctx, a) == NaN || ToNumberPrim(ctx, b) == NaN)
    ensures !(a.Str? && b.Str?) && r.Bool? ==> r.b == NumLess(ToNumberPrim(ctx, a), ToNumberPrim(ctx, b))
  {
    if a.Str? && b.Str? then Bool(LexLess(a.s, b.s))
    else
      var na := ToNumberPrim(ctx, a);
      var nb := ToNumberPrim(ctx, b);
      if na == NaN || nb == NaN then Undefined else Bool(NumLess(na, nb))
  }

  /** abstract_relational_comparison (section 11.8.5): "is x less than y" (or, when leftFirst
      is false, "is y less than x"), Bool or Undefined when NaN is involved. */
  function Relational(h: Heap, ctx: Context, x: Value, y: Value, leftFirst: bool): (r: Result<Value>)
    requires Ready(h, ctx) && Live(h, x) && Live(h, y)
    ensures r.Ok? ==> r.value.Undefined? || r.value.Bool?
    ensures x.Str? && y.Str? ==> r == Ok(Bool(if leftFirst then LexLess(x.s, y.s) else LexLess(y.s, x.s)))
    ensures x.Number? && y.Number? && (x.n == NaN || y.n == NaN) ==> r == Ok(Undefined)
    ensures x.Number? && y.Number? && x.n != NaN && y.n != NaN ==>
              r == Ok(Bool(if leftFirst then NumLess(x.n, y.n) else NumLess(y.n, x.n)))
    ensures x.IsPrimitive() && y.IsPrimitive() && !(x.Str? && y.Str?) ==>
              var nx, ny := ToNumberPrim(ctx, x), ToNumberPrim(ctx, y);
              r == Ok(if nx == NaN || ny == NaN then Undefined
                      else Bool(if leftFirst then NumLess(nx, ny) else NumLess(ny, nx)))
    ensures r == Ok(Undefined) ==>
              var px, py := ToPrimitive(h, ctx, x, NumberHint), ToPrimitive(h, ctx, y, NumberHint);
              px.Ok? && py.Ok? && !(px.value.Str? && py.value.Str?)
              && (ToNumberPrim(ctx, px.value) == NaN || ToNumberPrim(ctx, py.value) == NaN)
    ensures var px := ToPrimitive(h, ctx, x, NumberHint);
            px.Err? ==> r == Err(px.error)
    ensures var px, py := ToPrimitive(h, ctx, x, NumberHint), ToPrimitive(h, ctx, y, NumberHint);
            px.Ok? && py.Err? ==> r == Err(py.error)
    ensures var px, py := ToPrimitive(h, ctx, x, NumberHint), ToPrimitive(h, ctx, y, NumberHint);
            px.Ok? && py.Ok? ==>
              r == Ok(if leftFirst then PrimLess(ctx, px.value, py.value) else PrimLess(ctx, py.value, px.value))
  {
    var px :- ToPrimitive(h, ctx, x, NumberHint);
    var py :- ToPrimitive(h, ctx, y, NumberHint);
    Ok(if leftFirst then PrimLess(ctx, px, py) else PrimLess(ctx, py, px))
  }

  /** x < y. */
  function Lt(h: Heap, ctx: Context, x: Value, y: Value): (r: Result<bool>)
    requires Ready(h, ctx) && Live(h, x) && Live(h, y)
    ensures r.Ok? <==> Relational(h, ctx, x, y, true).Ok?
    ensures r.Ok? ==> (r.value <==> Relational(h, ctx, x, y, true) == Ok(Bool(true)))
  {
    var res :- Relational(h, ctx, x, y, true);
    if res.Undefined? then Ok(false) else Ok(res.b)
  }

  /** x <= y: the negation of "y < x", false when that is undefined. */
  function Le(h: Heap, ctx: Context, x: Value, y: Value): (r: Result<bool>)
    requires Ready(h, ctx) && Live(h, x) && Live(h, y)
    ensures r.Ok? <==> Relational(h, ctx, x, y, false).Ok?
    ensures r.Ok? ==> (r.value <==> Relational(h, ctx, x, y, false) == Ok(Bool(false)))
  {
    var res :- Relational(h, ctx, x, y, false);
    if res.Undefined? then Ok(false) else Ok(!res.b)
  }

  /** x >= y: the negation of "x < y", false when that is undefined. */
  function Ge(h: Heap, ctx: Context, x: Value, y: Value): (r: Result<bool>)
    requires Ready(h, ctx) && Live(h, x) && Live(h, y)
    ensures r.Ok? <==> Relational(h, ctx, x, y, true).Ok?
    ensures r.Ok? ==> (r.value <==> Relational(h, ctx, x, y, true) == Ok(Bool(false)))
  {
    var res :- Relational(h, ctx, x, y, true);
    if res.Undefined? then Ok(false) else Ok(!res.b)
  }

  /** x > y: "y < x". */
  function Gt(h: Heap, ctx: Context, x: Value, y: Value): (r: Result<bool>)
    requires Ready(h, ctx) && Live(h, x) && Live(h, y)
    ensures r.Ok? <==> Relational(h, ctx, x, y, false).Ok?
    ensures r.Ok? ==> (r.value <==> Relational(h, ctx, x, y, false) == Ok(Bool(true)))
  {
    var res :- Relational(h, ctx, x, y, false);
    if res.Undefined? then Ok(false) else Ok(res.b)
  }

  /** With leftFirst false the comparison is the left-first comparison of the swapped operands
      (when neither conversion fails). */
  lemma RelationalSwap(h: Heap, ctx: Context, x: Value, y: Value)
    requires Ready(h, ctx) && Live(h, x) && Live(h, y)
    requires ToPrimitive(h, ctx, x, NumberHint).Ok? && ToPrimitive(h, ctx, y, NumberHint).Ok?
    ensures Relational(h, ctx, x, y, false) == Relational(h, ctx, y, x, true)
  {
  }

  /** NaN is unordered: all four operators answer false. */
  lemma NaNUnordered(h: Heap, ctx: Context, m: Num, n: Num)
    requires Ready(h, ctx) && (m == NaN || n == NaN)
    ensures Lt(h, ctx, Number(m), Number(n)) == Ok(false)
    ensures Le(h, ctx, Number(m), Number(n)) == Ok(false)
    ensures Ge(h, ctx, Number(m), Number(n)) == Ok(false)
    ensures Gt(h, ctx, Number(m), Number(n)) == Ok(false)
  {
  }

  /** When "y < x" is defined, x <= y is its negation. */
  lemma LeIsNotSwappedLt(h: Heap, ctx: Context, x: Value, y: Value)
    requires Ready(h, ctx) && Live(h, x) && Live(h, y)
    requires Relational(h, ctx, x, y, false).Ok? && Relational(h, ctx, x, y, false).value.Bool?
    ensures Le(h, ctx, x, y) == Ok(!Lt(h, ctx, y, x).value)
  {
    RelationalSwap(h, ctx, x, y);
  }

  /** When "x < y" is defined, x >= y is its negation. */
  lemma GeIsNotLt(h: Heap, ctx: Context, x: Value, y: Value)
    requires Ready(h, ctx) && Live(h, x) && Live(h, y)
    requires Relational(h, ctx, x, y, true).Ok? && Relational(h, ctx, x, y, true).value.Bool?
    ensures Ge(h, ctx, x, y) == Ok(!Lt(h, ctx, x, y).value)
  {
  }

  /** Two strings compare lexicographically: "10" < "9" although 10 > 9. */
  lemma StringsCompareLexicographically(h: Heap, ctx: Context)
    requires Ready(h, ctx)
    ensures Lt(h, ctx, Str("10"), Str("9")) == Ok(true)
  {
    assert LexLess("10", "9");
  }
}
