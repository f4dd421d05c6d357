/** Type conversions of class PyJs: to_primitive/default_value, to_boolean, to_number,
    to_string, to_object and same_as. Section numbers refer to ECMA-262 5.1. */
module Coercion {
  import opened Values
  import opened Objects

  datatype Hint = NoHint | NumberHint | StringHint

  /** The order default_value tries the conversion methods in (section 8.12.8). */
  function MethodOrder(h: Heap, id: ObjId, hint: Hint): seq<string>
    requires id in h
  {
    if hint == NumberHint || (hint == NoHint && h[id].cls == DateClass) then ["valueOf", "toString"]
    else ["toString", "valueOf"]
  }

  /** The result of calling the method `names[k]` of object id, if it is callable. */
  predicate MethodYields(h: Heap, ctx: Context, id: ObjId, name: string, v: Value)
    requires Ready(h, ctx) && id in h
  {
    var m := Get(h, ctx, Obj(id), name);
    m.Ok? && IsCallable(h, m.value) && ctx.invoke(h, m.value.id, Obj(id), []) == v
  }

  /** Calling the method `name` of object id succeeds in converting: it is callable and returns
      a primitive. */
  predicate YieldsPrimitive(h: Heap, ctx: Context, id: ObjId, name: string)
    requires Ready(h, ctx) && id in h
  {
    var m := Get(h, ctx, Obj(id), name);
    m.Ok? && IsCallable(h, m.value) && ctx.invoke(h, m.value.id, Obj(id), []).IsPrimitive()
  }

  /** Each of the first k methods is read without failing and yields no primitive. */
  predicate NoneYield(h: Heap, ctx: Context, id: ObjId, names: seq<string>, k: nat)
    requires Ready(h, ctx) && id in h && k <= |names|
  {
    forall j :: 0 <= j < k ==> Get(h, ctx, Obj(id), names[j]).Ok? && !YieldsPrimitive(h, ctx, id, names[j])
  }

  /** Try the named methods in turn; the first callable one returning a primitive wins, a
      failing read of a method stops the search, and a TypeError follows when none yields. */
  function ConvertByMethods(h: Heap, ctx: Context, id: ObjId, names: seq<string>): (r: Result<Value>)
    requires Ready(h, ctx) && id in h
    ensures r.Ok? ==> r.value.IsPrimitive()
    ensures r.Ok? ==> exists k :: 0 <= k < |names| && NoneYield(h, ctx, id, names, k)
                                  && YieldsPrimitive(h, ctx, id, names[k]) && MethodYields(h, ctx, id, names[k], r.value)
    ensures r.Err? ==> (NoneYield(h, ctx, id, names, |names|) && r == Err(TypeError))
                       || exists k :: 0 <= k < |names| && NoneYield(h, ctx, id, names, k)
                                      && Get(h, ctx, Obj(id), names[k]).Err? && r.error == Get(h, ctx, Obj(id), names[k]).error
    ensures NoneYield(h, ctx, id, names, |names|) ==> r == Err(TypeError)
    decreases |names|
  {
    if names == [] then Err(TypeError)
    else
      var m :- Get(h, ctx, Obj(id), names[0]);
      if IsCallable(h, m) && ctx.invoke(h, m.id, Obj(id), []).IsPrimitive() then
        assert NoneYield(h, ctx, id, names, 0);
        assert MethodYields(h, ctx, id, names[0], ctx.invoke(h, m.id, Obj(id), []));
        Ok(ctx.invoke(h, m.id, Obj(id), []))
      else
        var r := ConvertByMethods(h, ctx, id, names[1..]);
        TailOutcome(h, ctx, id, names, r);
        r
  }

  /** The outcome of the search over names[1..], read as an outcome over names when the first
      method yields nothing. */
  lemma TailOutcome(h: Heap, ctx: Context, id: ObjId, names: seq<string>, r: Result<Value>)
    requires Ready(h, ctx) && id in h && names != []
    requires Get(h, ctx, Obj(id), names[0]).Ok? && !YieldsPrimitive(h, ctx, id, names[0])
    requires r.Ok? ==> exists k :: 0 <= k < |names[1..]| && NoneYield(h, ctx, id, names[1..], k)
                                   && YieldsPrimitive(h, ctx, id, names[1..][k]) && MethodYields(h, ctx, id, names[1..][k], r.value)
    requires r.Err? ==> (NoneYield(h, ctx, id, names[1..], |names[1..]|) && r == Err(TypeError))
                        || exists k :: 0 <= k < |names[1..]| && NoneYield(h, ctx, id, names[1..], k)
                                       && Get(h, ctx, Obj(id), names[1..][k]).Err? && r.error == Get(h, ctx, Obj(id), names[1..][k]).error
    requires NoneYield(h, ctx, id, names[1..], |names[1..]|) ==> r == Err(TypeError)
    ensures r.Ok? ==> exists k :: 0 <= k < |names| && NoneYield(h, ctx, id, names, k)
                                  && YieldsPrimitive(h, ctx, id, names[k]) && MethodYields(h, ctx, id, names[k], r.value)
    ensures r.Err? ==> (NoneYield(h, ctx, id, names, |names|) && r == Err(TypeError))
                       || exists k :: 0 <= k < |names| && NoneYield(h, ctx, id, names, k)
                                      && Get(h, ctx, Obj(id), names[k]).Err? && r.error == Get(h, ctx, Obj(id), names[k]).error
    ensures NoneYield(h, ctx, id, names, |names|) ==> r == Err(TypeError)
  {
    NoneYieldShift(h, ctx, id, names);
    if r.Ok? {
      var k :| 0 <= k < |names[1..]| && NoneYield(h, ctx, id, names[1..], k)
               && YieldsPrimitive(h, ctx, id, names[1..][k]) && MethodYields(h, ctx, id, names[1..][k], r.value);
      assert names[1..][k] == names[k + 1];
    } else if !NoneYield(h, ctx, id, names[1..], |names| - 1) {
      var k :| 0 <= k < |names[1..]| && NoneYield(h, ctx, id, names[1..], k)
               && Get(h, ctx, Obj(id), names[1..][k]).Err? && r.error == Get(h, ctx, Obj(id), names[1..][k]).error;
      assert names[1..][k] == names[k + 1];
    }
  }

  /** When the first method yields nothing, a prefix of the rest yields nothing exactly when
      the one-longer prefix of the whole list does. */
  lemma NoneYieldShift(h: Heap, ctx: Context, id: ObjId, names: seq<string>)
    requires Ready(h, ctx) && id in h && names != []
    requires Get(h, ctx, Obj(id), names[0]).Ok? && !YieldsPrimitive(h, ctx, id, names[0])
    ensures forall k :: 0 <= k <= |names| - 1 ==> (NoneYield(h, ctx, id, names[1..], k) <==> NoneYield(h, ctx, id, names, k + 1))
  {
    forall k | 0 <= k <= |names| - 1
      ensures NoneYield(h, ctx, id, names[1..], k) <==> NoneYield(h, ctx, id, names, k + 1)
    {
      assert forall j :: 0 <= j < k ==> names[1..][j] == names[j + 1];
      if NoneYield(h, ctx, id, names[1..], k) {
        forall j | 0 <= j < k + 1
          ensures Get(h, ctx, Obj(id), names[j]).Ok? && !YieldsPrimitive(h, ctx, id, names[j])
        {
          if j > 0 { assert names[j] == names[1..][j - 1]; }
        }
      }
    }
  }

  /** The method default_value tries first for a hint: valueOf for hint Number, and for no
      hint on a Date; toString otherwise. */
  function FirstMethod(h: Heap, id: ObjId, hint: Hint): (name: string)
    requires id in h
    ensures name == MethodOrder(h, id, hint)[0]
  {
    if hint == NumberHint || (hint == NoHint && h[id].cls == DateClass) then "valueOf" else "toString"
  }

  /** The method default_value tries second. */
  function SecondMethod(h: Heap, id: ObjId, hint: Hint): (name: string)
    requires id in h
    ensures name == MethodOrder(h, id, hint)[1] && name != FirstMethod(h, id, hint)
  {
    if hint == NumberHint || (hint == NoHint && h[id].cls == DateClass) then "toString" else "valueOf"
  }

  /** default_value: the first method of the hint's order that yields a primitive gives the
      result; a method read that fails stops the search; TypeError when neither yields. */
  function DefaultValue(h: Heap, ctx: Context, id: ObjId, hint: Hint): (r: Result<Value>)
    requires Ready(h, ctx) && id in h
    ensures r.Ok? ==> r.value.IsPrimitive()
    ensures var first := FirstMethod(h, id, hint);
            YieldsPrimitive(h, ctx, id, first) ==> r.Ok? && MethodYields(h, ctx, id, first, r.value)
    ensures var first := FirstMethod(h, id, hint);
            Get(h, ctx, Obj(id), first).Err? ==> r == Err(Get(h, ctx, Obj(id), first).error)
    ensures var first, second := FirstMethod(h, id, hint), SecondMethod(h, id, hint);
            Get(h, ctx, Obj(id), first).Ok? && !YieldsPrimitive(h, ctx, id, first) ==>
              (YieldsPrimitive(h, ctx, id, second) ==> r.Ok? && MethodYields(h, ctx, id, second, r.value))
              && (Get(h, ctx, Obj(id), second).Err? ==> r == Err(Get(h, ctx, Obj(id), second).error))
              && (Get(h, ctx, Obj(id), second).Ok? && !YieldsPrimitive(h, ctx, id, second) ==> r == Err(TypeError))
  {
    var names := MethodOrder(h, id, hint);
    var r := ConvertByMethods(h, ctx, id, names);
    OrderOutcomes(h, ctx, id, names);
    r
  }

  /** The outcomes of trying two methods, spelled out from ConvertByMethods's contract. */
  lemma OrderOutcomes(h: Heap, ctx: Context, id: ObjId, names: seq<string>)
    requires Ready(h, ctx) && id in h && |names| == 2
    ensures var r := ConvertByMethods(h, ctx, id, names);
            && (YieldsPrimitive(h, ctx, id, names[0]) ==> r.Ok? && MethodYields(h, ctx, id, names[0], r.value))
            && (Get(h, ctx, Obj(id), names[0]).Err? ==> r == Err(Get(h, ctx, Obj(id), names[0]).error))
            && (Get(h, ctx, Obj(id), names[0]).Ok? && !YieldsPrimitive(h, ctx, id, names[0]) ==>
                 (YieldsPrimitive(h, ctx, id, names[1]) ==> r.Ok? && MethodYields(h, ctx, id, names[1], r.value))
                 && (Get(h, ctx, Obj(id), names[1]).Err? ==> r == Err(Get(h, ctx, Obj(id), names[1]).error))
                 && (Get(h, ctx, Obj(id), names[1]).Ok? && !YieldsPrimitive(h, ctx, id, names[1]) ==> r == Err(TypeError)))
  {
    var r := ConvertByMethods(h, ctx, id, names);
    assert names[1..] == [names[1]] && names[1..][1..] == [];
  }

  /** With hint Number, when both methods yield primitives, valueOf's result is the one
      returned; with hint String it is toString's. */
  lemma HintDecidesOrder(h: Heap, ctx: Context, id: ObjId, a: Value, b: Value)
    requires Ready(h, ctx) && id in h
    requires MethodYields(h, ctx, id, "valueOf", a) && a.IsPrimitive()
    requires MethodYields(h, ctx, id, "toString", b) && b.IsPrimitive()
    ensures DefaultValue(h, ctx, id, NumberHint) == Ok(a)
    ensures DefaultValue(h, ctx, id, StringHint) == Ok(b)
  {
    assert YieldsPrimitive(h, ctx, id, "valueOf") && YieldsPrimitive(h, ctx, id, "toString");
  }

  /** to_primitive (section 9.1). */
  function ToPrimitive(h: Heap, ctx: Context, v: Value, hint: Hint): (r: Result<Value>)
    requires Ready(h, ctx) && Live(h, v)
    ensures r.Ok? ==> r.value.IsPrimitive()
    ensures v.IsPrimitive() ==> r == Ok(v)
    ensures !v.IsPrimitive() ==> r == DefaultValue(h, ctx, v.id, hint)
  {
    if v.IsPrimitive() then Ok(v) else DefaultValue(h, ctx, v.id, hint)
  }

  /** to_boolean (section 9.2). */
  function ToBoolean(v: Value): (r: bool)
    ensures !r <==> v in {Undefined, Null, Bool(false), Number(NaN), Number(Finite(0.0)), Str("")}
  {
    match v
    case Bool(b) => b
    case Undefined => false
    case Null => false
    case Number(n) => n != NaN && n != Finite(0.0)
    case Str(s) => s != ""
    case Obj(_) => true
  }

  // String to number: Python's str.strip() and the branches of to_number for strings.

  predicate IsSpace(c: char) {
    c == ' ' || c == '\t' || c == '\n' || c == '\r' || c == 11 as char || c == 12 as char
  }

  predicate AllSpace(s: string) { forall i :: 0 <= i < |s| ==> IsSpace(s[i]) }

  /** The index of the first non-whitespace character at or after i (|s| if none). */
  function SkipLeft(s: string, i: nat): (n: nat)
    requires i <= |s|
    ensures i <= n <= |s| && (n < |s| ==> !IsSpace(s[n]))
    ensures forall k :: i <= k < n ==> IsSpace(s[k])
    decreases |s| - i
  {
    if i < |s| && IsSpace(s[i]) then SkipLeft(s, i + 1) else i
  }

  /** The end of s[lo..j] once its trailing whitespace is dropped. */
  function SkipRight(s: string, lo: nat, j: nat): (n: nat)
    requires lo <= j <= |s|
    ensures lo <= n <= j && (n > lo ==> !IsSpace(s[n - 1]))
    ensures forall k :: n <= k < j ==> IsSpace(s[k])
    decreases j
  {
    if j > lo && IsSpace(s[j - 1]) then SkipRight(s, lo, j - 1) else j
  }

  /** str.strip(): s with its leading and trailing whitespace removed; empty exactly when s is
      all whitespace, and otherwise neither end of the result is whitespace. */
  function Strip(s: string): (r: string)
    ensures exists i, j :: 0 <= i <= j <= |s| && r == s[i..j]
                           && (forall k :: 0 <= k < i ==> IsSpace(s[k])) && (forall k :: j <= k < |s| ==> IsSpace(s[k]))
    ensures r == [] <==> AllSpace(s)
    ensures r != [] ==> !IsSpace(r[0]) && !IsSpace(r[|r| - 1])
  {
    var i := SkipLeft(s, 0);
    var j := SkipRight(s, i, |s|);
    assert i < |s| ==> j > i;
    s[i..j]
  }

  /** A string with no whitespace at either end is its own strip. */
  lemma StripKeeps(s: string)
    requires s != [] && !IsSpace(s[0]) && !IsSpace(s[|s| - 1])
    ensures Strip(s) == s
  {
    assert SkipLeft(s, 0) == 0;
    assert SkipRight(s, 0, |s|) == |s|;
  }

  function Negate(n: Num): Num {
    match n
    case NaN => NaN
    case PosInf => NegInf
    case NegInf => PosInf
    case Finite(x) => Finite(-x)
  }

  /** What to_number's string branch hands back, as written: the hexadecimal branch returns the
      host integer itself rather than a JS number. */
  datatype HostNum = JsNum(n: Num) | RawInt(i: int)

  function StringToNumberAsWritten(ctx: Context, s: string): (r: HostNum)
    ensures AllSpace(s) ==> r == JsNum(Finite(0.0))
    ensures r.RawInt? <==> !AllSpace(s) && ('x' in Strip(s) || 'X' in Strip(s)) && ctx.parseHex(Strip(s)).Some?
    ensures r.RawInt? ==> ctx.parseHex(Strip(s)) == Some(r.i)
    ensures !AllSpace(s) && !('x' in Strip(s) || 'X' in Strip(s)) ==> r == JsNum(DecimalToNumber(ctx, Strip(s)))
  {
    var t := Strip(s);
    if t == [] then JsNum(Finite(0.0))
    else if 'x' in t || 'X' in t then
      (match ctx.parseHex(t) case None => JsNum(NaN) case Some(n) => RawInt(n))
    else JsNum(DecimalToNumber(ctx, t))
  }

  /** The signed-decimal part of to_number: a leading sign, the keyword Infinity, else float(). */
  function DecimalToNumber(ctx: Context, t: string): (r: Num)
    requires t != []
    ensures t == "Infinity" || t == "+Infinity" ==> r == PosInf
    ensures t == "-Infinity" ==> r == NegInf
  {
    var neg := t[0] == '-';
    var u := if t[0] == '-' || t[0] == '+' then t[1..] else t;
    if u == "Infinity" then (if neg then NegInf else PosInf)
    else match ctx.parseFloat(u)
      case None => NaN
      case Some(n) => if neg then Negate(n) else n
  }

  /** to_number on a string (section 9.3.1 as the source has it), with the hexadecimal result
      wrapped as a JS number. */
  function StringToNumber(ctx: Context, s: string): (r: Num)
    ensures AllSpace(s) ==> r == Finite(0.0)
    ensures StringToNumberAsWritten(ctx, s).JsNum? ==> r == StringToNumberAsWritten(ctx, s).n
    ensures StringToNumberAsWritten(ctx, s).RawInt? ==> r == Finite(StringToNumberAsWritten(ctx, s).i as real)
  {
    var t := Strip(s);
    if t == [] then Finite(0.0)
    else if 'x' in t || 'X' in t then
      (match ctx.parseHex(t) case None => NaN case Some(n) => Finite(n as real))
    else DecimalToNumber(ctx, t)
  }

  /** A hexadecimal string the host parses makes the source's to_number return a bare host
      integer, which is not a JS value; the corrected conversion returns the number. */
  lemma HexStringAsWritten(ctx: Context, n: int)
    requires ctx.parseHex("0x10") == Some(n)
    ensures StringToNumberAsWritten(ctx, "0x10") == RawInt(n)
    ensures StringToNumber(ctx, "0x10") == Finite(n as real)
  {
    assert !IsSpace('0') && !IsSpace('x') && !IsSpace('1');
    StripKeeps("0x10");
    assert 'x' in "0x10";
  }

  /** to_number on a primitive (section 9.3). */
  function ToNumberPrim(ctx: Context, p: Value): (r: Num)
    requires p.IsPrimitive()
    ensures p.Null? ==> r == Finite(0.0)
    ensures p.Undefined? ==> r == NaN
    ensures p.Bool? ==> r == Finite(if p.b then 1.0 else 0.0)
    ensures p.Number? ==> r == p.n
  {
    match p
    case Null => Finite(0.0)
    case Undefined => NaN
    case Bool(b) => Finite(if b then 1.0 else 0.0)
    case Number(n) => n
    case Str(s) => StringToNumber(ctx, s)
  }

  /** to_number: objects go through to_primitive with hint Number. */
  function ToNumber(h: Heap, ctx: Context, v: Value): (r: Result<Num>)
    requires Ready(h, ctx) && Live(h, v)
    ensures v.IsPrimitive() ==> r == Ok(ToNumberPrim(ctx, v))
    ensures var p := ToPrimitive(h, ctx, v, NumberHint);
            r == if p.Err? then Err(p.error) else Ok(ToNumberPrim(ctx, p.value))
  {
    var p :- ToPrimitive(h, ctx, v, NumberHint);
    Ok(ToNumberPrim(ctx, p))
  }

  function IntToString(i: int): (s: string)
    ensures |s| >= 1
  {
    if i < 0 then "-" + NatToString(-i) else NatToString(i)
  }

  /** Number to string: NaN, signed Infinity, integral values without a fraction; other finite
      values are formatted by the host. */
  function NumberToString(ctx: Context, n: Num): (s: string)
    ensures n == NaN ==> s == "NaN"
    ensures n == PosInf ==> s == "Infinity"
    ensures n == NegInf ==> s == "-Infinity"
    ensures n.Finite? && n.r == n.r.Floor as real ==> s == IntToString(n.r.Floor)
  {
    match n
    case NaN => "NaN"
    case PosInf => "Infinity"
    case NegInf => "-Infinity"
    case Finite(x) => if x == x.Floor as real then IntToString(x.Floor) else ctx.format(x)
  }

  /** The infinities survive a round trip through their string form. */
  lemma InfinityRoundTrip(ctx: Context, n: Num)
    requires n == PosInf || n == NegInf
    ensures StringToNumber(ctx, NumberToString(ctx, n)) == n
  {
    var s := NumberToString(ctx, n);
    assert s == "Infinity" || s == "-Infinity";
    StripKeeps(s);
    assert !('x' in s || 'X' in s);
  }

  /** to_string (section 9.8) on a primitive. */
  function ToStringPrim(ctx: Context, p: Value): (s: string)
    requires p.IsPrimitive()
    ensures p.Str? ==> s == p.s
    ensures p.Null? ==> s == "null"
    ensures p.Undefined? ==> s == "undefined"
    ensures p.Bool? ==> s == (if p.b then "true" else "false")
  {
    match p
    case Null => "null"
    case Undefined => "undefined"
    case Bool(b) => if b then "true" else "false"
    case Number(n) => NumberToString(ctx, n)
    case Str(s) => s
  }

  /** to_string: objects go through to_primitive with hint String. */
  function ToString(h: Heap, ctx: Context, v: Value): (r: Result<string>)
    requires Ready(h, ctx) && Live(h, v)
    ensures v.IsPrimitive() ==> r == Ok(ToStringPrim(ctx, v))
    ensures !v.IsPrimitive() && r.Ok? ==> exists p: Value :: p.IsPrimitive() && r.value == ToStringPrim(ctx, p)
    ensures var p := ToPrimitive(h, ctx, v, StringHint);
            r == if p.Err? then Err(p.error) else Ok(ToStringPrim(ctx, p.value))
  {
    var p :- ToPrimitive(h, ctx, v, StringHint);
    Ok(ToStringPrim(ctx, p))
  }

  /** An object whose toString yields a primitive p converts to p's string form, and one whose
      valueOf yields a primitive q converts to q's number: to_string asks with hint String and
      to_number with hint Number. */
  lemma ObjectConversionHints(h: Heap, ctx: Context, id: ObjId, p: Value, q: Value)
    requires Ready(h, ctx) && id in h
    requires MethodYields(h, ctx, id, "toString", p) && p.IsPrimitive()
    requires MethodYields(h, ctx, id, "valueOf", q) && q.IsPrimitive()
    ensures ToString(h, ctx, Obj(id)) == Ok(ToStringPrim(ctx, p))
    ensures ToNumber(h, ctx, Obj(id)) == Ok(ToNumberPrim(ctx, q))
  {
    HintDecidesOrder(h, ctx, id, q, p);
  }

  /** The conversion the operator methods apply to each operand: to_primitive for +, to_number
      (to_primitive with hint Number) for the others. */
  function OpHint(op: AssignOp): Hint {
    if op == AddOp then NoHint else NumberHint
  }

  /** The operator methods behind `x op= v`: the bitwise ones raise NotImplementedError; +
      converts both operands by to_primitive and concatenates their string forms when either is
      a string, else adds their numbers; - * / % convert both operands by to_number. The float
      arithmetic on the two numbers is the host's `numOp`. */
  function ApplyOp(h: Heap, ctx: Context, op: AssignOp, a: Value, b: Value): (r: Result<Value>)
    requires Ready(h, ctx) && Live(h, a) && Live(h, b)
    ensures IsBitwise(op) ==> r == Err(HostFailure)
    ensures r.Err? <==> IsBitwise(op) || ToPrimitive(h, ctx, a, OpHint(op)).Err? || ToPrimitive(h, ctx, b, OpHint(op)).Err?
    ensures r.Ok? ==> r.value.Str? || r.value.Number?
    ensures op == AddOp && a.IsPrimitive() && b.IsPrimitive() && (a.Str? || b.Str?) ==>
              r == Ok(Str(ToStringPrim(ctx, a) + ToStringPrim(ctx, b)))
    ensures !IsBitwise(op) && a.Number? && b.Number? ==> r == Ok(Number(ctx.numOp(op, a.n, b.n)))
  {
    if IsBitwise(op) then Err(HostFailure)
    else if op == AddOp then
      var pa :- ToPrimitive(h, ctx, a, NoHint);
      var pb :- ToPrimitive(h, ctx, b, NoHint);
      if pa.Str? || pb.Str? then Ok(Str(ToStringPrim(ctx, pa) + ToStringPrim(ctx, pb)))
      else Ok(Number(ctx.numOp(op, ToNumberPrim(ctx, pa), ToNumberPrim(ctx, pb))))
    else
      var na :- ToNumber(h, ctx, a);
      var nb :- ToNumber(h, ctx, b);
      Ok(Number(ctx.numOp(op, na, nb)))
  }

  /** A compound assignment on two primitives fails only for a bitwise operator: converting a
      primitive never fails. */
  lemma PrimitiveOperandsConvert(h: Heap, ctx: Context, op: AssignOp, a: Value, b: Value)
    requires Ready(h, ctx) && a.IsPrimitive() && b.IsPrimitive()
    ensures ApplyOp(h, ctx, op, a, b).Err? <==> IsBitwise(op)
  {
  }

  /** `"1" + 2` concatenates: the number's string form is appended. */
  lemma PlusConcatenates(h: Heap, ctx: Context)
    requires Ready(h, ctx)
    ensures ApplyOp(h, ctx, AddOp, Str("1"), Number(Finite(2.0))) == Ok(Str("12"))
  {
    assert NatToString(2) == [Digit(2)] == "2";
    assert NumberToString(ctx, Finite(2.0)) == IntToString(2) == "2";
    assert ToStringPrim(ctx, Str("1")) + ToStringPrim(ctx, Number(Finite(2.0))) == "12";
  }

  /** get with a non-string property key: the key is converted by to_string first. */
  function GetByKey(h: Heap, ctx: Context, recv: Value, key: Value): (r: Result<Value>)
    requires Ready(h, ctx) && Live(h, recv) && Live(h, key)
    ensures recv.Undefined? || recv.Null? ==> r == Err(TypeError)
    ensures key.Str? ==> r == Get(h, ctx, recv, key.s)
    ensures !(recv.Undefined? || recv.Null?) && !key.Str? ==>
              var name := ToString(h, ctx, key);
              r == if name.Err? then Err(name.error) else Get(h, ctx, recv, name.value)
  {
    if recv.Undefined? || recv.Null? then Err(TypeError)
    else if key.Str? then Get(h, ctx, recv, key.s)
    else
      var name :- ToString(h, ctx, key);
      Get(h, ctx, recv, name)
  }

  /** to_object: undefined and null are refused; every other value is returned unchanged. */
  function ToObject(v: Value): (r: Result<Value>)
    ensures r.Err? <==> v.Undefined? || v.Null?
    ensures r.Ok? ==> r.value == v
  {
    if v.Undefined? || v.Null? then Err(TypeError) else Ok(v)
  }

  /** same_as: same class and same stored value (NaN is not the same as itself), objects by
      identity. */
  function SameAs(a: Value, b: Value): (r: bool)
    ensures r ==> a == b
    ensures a == b ==> (r <==> a != Number(NaN))
  {
    match (a, b)
    case (Undefined, Undefined) => true
    case (Null, Null) => true
    case (Bool(x), Bool(y)) => x == y
    case (Number(x), Number(y)) => x != NaN && x == y
    case (Str(x), Str(y)) => x == y
    case (Obj(x), Obj(y)) => x == y
    case _ => false
  }
}
