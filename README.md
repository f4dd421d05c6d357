# js2py object runtime in Dafny

This project models the core of js2py's `js2py/pyjs.py`: the runtime that gives Python-hosted
JavaScript its ECMAScript 5.1 value and object semantics. It covers five parts:

- **Values and objects (`values.dfy`, `objects.dfy`).**
  - A JS value is undefined, null, a boolean, a number (NaN, ±Infinity or a finite real), a
    string, or a reference to an object.
  - Objects live in a heap keyed by id. Each object has an own property map of descriptors, an
    optional prototype and an `extensible` flag.
  - Descriptors keep the source's dict shape: each of `value`, `writable`, `get`, `set`,
    `enumerable` and `configurable` may be present or absent.
  - A well-formed heap gives every prototype a smaller id than the object itself, so prototype
    chains are finite.
  - `get_property`, `get`, `can_put`, `has_property` and the decision part of `put` are
    functions on that heap.
- **Coercions (`coercion.dfy`).** `default_value`, `to_primitive`, `to_boolean`, `to_number`,
  `to_string`, `to_object` and `same_as`.
- **Comparisons (`comparison.dfy`).**
  - `abstract_equality_comparison` and `PyJsStrictEq`.
  - `abstract_relational_comparison` and the four ordering operators.
- **Descriptor reconciliation (`reconcile.dfy`).** `define_own_property` as a function from the
  current descriptor, the extensible flag and the update to a verdict: reject, or accept with
  the descriptor to store.
  - It is written once, with a switch between the comparisons the code uses and those of
    section 8.12.9 of ECMA-262 5.1.
- **The mutable runtime (`runtime.dfy`, `scope.dfy`).**
  - Class `Runtime` owns the heap. Its methods perform `put`, `delete`, `define_own_property`,
    the `default_value` loop, the `PyJsArguments` constructor, and `call`, `construct` and
    `has_instance` of `PyJsFunction`.
  - Class `Scope` is the lexical scope chain: `get`, `register`, `put` and `delete`, with the
    registered-name set shared through a `Registry` object.
  - Each method is specified against the functions above, and the state changes it makes are
    spelled out in its postconditions.

Host code that the core calls but does not define is a parameter, the `Context`:
- getter, setter and method invocation;
- function bodies;
- the float arithmetic of `+ - * / %` once both operands are numbers (`numOp`);
- the host's float parser, hexadecimal parser and float formatting.

Failures of the host language itself (a `KeyError` on a missing descriptor key, calling a
value that has no `call`, `NotImplementedError`) are the error `HostFailure`. The JS errors
are `TypeError` and `ReferenceError`.

Where the code and the ECMAScript text differ, the model follows the code, except for the defects listed under "## Findings", where it uses the corrected definition:
- `can_put` with no own property answers the object's `extensible` flag and never looks at the
  inherited descriptor (`Objects.CanPut`).
- A non-writable data property refuses a different value even when it is configurable
  (`Reconcile.NonWritableRejectsNewValue`).
- A non-configurable current property makes `define_own_property` read the update's
  `configurable` and `enumerable` keys without checking that they are present. A missing key is
  the host failure `Err(HostFailure)`, not a precondition.
- `delete` has no undefined/null guard. Undefined and null share the class-level empty own map,
  and numbers, strings and booleans each get an empty own map of their own (pyjs.py:91).
  Either way a primitive owns nothing, so deleting from one answers true.
- A global created by assignment to an undeclared name is not registered, so `Scope.delete`
  may remove it (`Scopes.UnboundGoesGlobal`, `Scopes.Scope.Delete`).
- `has_instance` raises a TypeError when the function's `prototype` is not an object.

## Model

| member | source | states |
|---|---|---|
| Values.StoredShapes | js2py/pyjs.py:55-62 | a stored descriptor is exactly one of data or accessor, never generic or empty |
| Values.NatToStringInjective | js2py/pyjs.py:932-933 | distinct argument indices give distinct property names `str(i)` |
| Objects.GetProperty | js2py/pyjs.py:120-125 | the descriptor found is the one owned by the first object of the prototype chain that owns prop; none iff no object of the chain owns it |
| Objects.HasProperty | js2py/pyjs.py:191-192 | true iff some object of the prototype chain owns prop |
| Objects.Lookup | js2py/pyjs.py:120-125 | on an object it is get_property on that object; undefined and null find nothing; numbers, strings and booleans look the name up on the Number, String and Boolean prototypes |
| Objects.Get | js2py/pyjs.py:127-141 | TypeError iff the receiver is undefined or null; undefined when nothing is found; the value of a data descriptor; for an accessor, undefined when the getter is undefined, the getter's result on the receiver when it is callable, and a host failure iff it is neither |
| Objects.CanPut | js2py/pyjs.py:143-159 | an own data property is writable iff `writable`; an own accessor iff its setter is callable; with no own property the answer is the `extensible` flag |
| Objects.PutPlan | js2py/pyjs.py:175-189 | put refuses on primitives and when can_put is false; overwrites in place iff there is an own writable data property; otherwise, when can_put allows it, creates the property iff the chain holds no accessor for it, and calls exactly the accessor's setter when it does (a host failure when that setter is not callable) |
| Objects.WriteOwn | js2py/pyjs.py:178-188 | the own-map write of a put plan: creating stores `{value, writable, enumerable, configurable: true}`, an in-place write replaces only the own descriptor's `value`, every other plan leaves the object as it is; class, prototype, `extensible` and every other name are kept |
| Objects.EnumerableNames | js2py/pyjs.py:609-611 | the names `__iter__` yields are exactly the own names whose descriptor has `enumerable` true |
| Objects.PutThenGet | js2py/pyjs.py:179-189 | after put stores a value (in place or new), get returns it; a new property is `{value, writable, enumerable, configurable: true}`, an in-place write changes only `value`, and no other property changes |
| Objects.PutCreatesEnumerable | js2py/pyjs.py:609-611 | a property created by put is one more name enumerated by `__iter__` |
| Coercion.ConvertByMethods | js2py/pyjs.py:206-213 | the result is the primitive returned by the first named method that yields one, every earlier method having been read and not yielded; a failing read of a method before that is the error; a TypeError iff no method yields a primitive and no read fails |
| Coercion.DefaultValue | js2py/pyjs.py:203-213 | valueOf is tried first for hint Number and for no hint on a Date, toString first otherwise; the first method's primitive is the answer; a failing read is the error; the second method is consulted only when the first yields nothing; a TypeError when neither yields |
| Coercion.HintDecidesOrder | js2py/pyjs.py:204-206 | when both methods yield primitives, hint Number returns valueOf's and hint String returns toString's |
| Coercion.ToPrimitive | js2py/pyjs.py:279-282 | primitives are returned unchanged; an object's result is default_value with the given hint; every success is a primitive |
| Coercion.ToBoolean | js2py/pyjs.py:284-293 | false exactly for undefined, null, false, NaN, 0 and the empty string |
| Coercion.Strip | js2py/pyjs.py:306 | the result is the input without its leading and trailing whitespace: a slice of it with only whitespace cut on either side, empty iff the input is all whitespace, otherwise with no whitespace at either end |
| Coercion.StripKeeps | js2py/pyjs.py:306 | a string with no whitespace at either end is left unchanged |
| Coercion.DecimalToNumber | js2py/pyjs.py:315-326 | `Infinity`, `+Infinity` and `-Infinity` give the signed infinities |
| Coercion.StringToNumberAsWritten | js2py/pyjs.py:305-326 | the string branch as written: a blank string is 0; the result is a bare host integer iff the stripped string contains `x` or `X` and the hexadecimal parser accepts it, and then is the parsed integer; a stripped string without `x` or `X` goes to the decimal conversion |
| Coercion.StringToNumber | js2py/pyjs.py:305-326 | a blank string is 0; otherwise the result agrees with the string branch as written, except that the hexadecimal integer is returned as a number |
| Coercion.HexStringAsWritten | js2py/pyjs.py:309-314 | on `"0x10"` the branch as written returns the bare host integer; the corrected one returns the number |
| Coercion.ToNumberPrim | js2py/pyjs.py:295-326 | null is 0, undefined is NaN, booleans are 0 or 1, numbers are unchanged |
| Coercion.ToNumber | js2py/pyjs.py:327-328 | to_number is the primitive conversion of `to_primitive(value, 'Number')`, whose failure is the result; on a primitive it is the primitive conversion itself |
| Coercion.NumberToString | js2py/pyjs.py:338-346 | NaN prints as `NaN`, the infinities as `Infinity` and `-Infinity`, and integral finite numbers as integers without a fractional part |
| Coercion.InfinityRoundTrip | js2py/pyjs.py:316-321 | to_number of the string form of ±Infinity gives back the same infinity |
| Coercion.ToStringPrim | js2py/pyjs.py:330-348 | strings are unchanged; null, undefined and the booleans print as `null`, `undefined`, `true` and `false` |
| Coercion.ToString | js2py/pyjs.py:349-350 | to_string is the primitive conversion of `to_primitive(value, 'String')`, whose failure is the result; primitives use the primitive conversion itself |
| Coercion.ObjectConversionHints | js2py/pyjs.py:204-206 | for an object whose toString and valueOf both yield primitives, to_string converts toString's result and to_number converts valueOf's |
| Coercion.GetByKey | js2py/pyjs.py:129-132 | get refuses undefined and null receivers before converting the key; a string key is used as it is; any other key is replaced by its to_string, whose failure is the result, and get runs on that name |
| Coercion.ApplyOp | js2py/pyjs.py:443-501 | a compound operator fails iff it is bitwise (NotImplementedError) or an operand's to_primitive fails; `+` concatenates the string forms when either primitive operand is a string; two numbers go to the float arithmetic; every success is a string or a number |
| Coercion.PrimitiveOperandsConvert | js2py/pyjs.py:443-501 | on primitive operands a compound operator fails exactly when it is bitwise |
| Coercion.PlusConcatenates | js2py/pyjs.py:465-470 | `"1" + 2` is `"12"` |
| Coercion.ToObject | js2py/pyjs.py:353-364 | to_object fails iff the value is undefined or null, and otherwise returns the value itself |
| Coercion.SameAs | js2py/pyjs.py:392-401 | same_as holds only for equal values, and for equal values iff they are not NaN |
| Comparison.StrictEq | js2py/pyjs.py:644-653 | `===` holds iff the values are equal and not NaN; it implies equal class tags |
| Comparison.StrictEqIsSameAs | js2py/pyjs.py:644-653 | `PyJsStrictEq` and `same_as` are the same relation |
| Comparison.AbstractEq | js2py/pyjs.py:565-590 | equal class tags give strict equality; null and undefined equal each other and nothing else; only an object operand can make it fail |
| Comparison.NumbersEqual | js2py/pyjs.py:569-573 | two numbers are `==` iff they are the same number other than NaN |
| Comparison.StringMeetsNumber | js2py/pyjs.py:577-580 | a string and a number are `==` iff the string's to_number is that number and not NaN, in either order |
| Comparison.BooleanBecomesNumber | js2py/pyjs.py:581-584 | a boolean operand against anything but a boolean is replaced by its to_number, on either side |
| Comparison.ObjectBecomesPrimitive | js2py/pyjs.py:585-590 | an object against a string or a number is replaced by its to_primitive, whose failure is the result; an object is never `==` to undefined or null |
| Comparison.StrictImpliesAbstract | js2py/pyjs.py:565-590 | `a === b` implies `a == b` |
| Comparison.AbstractNotStrict | js2py/pyjs.py:577-578 | `1 == "1"` holds while `1 === "1"` does not |
| Comparison.NumberSelfEquality | js2py/pyjs.py:569-573 | a number is `==` to itself iff it is not NaN |
| Comparison.AbstractEqSymmetric | js2py/pyjs.py:565-590 | `x == y` and `y == x` give the same answer, failures included |
| Comparison.LexLessTrichotomy | js2py/pyjs.py:532-535 | the string order is irreflexive, asymmetric and total |
| Comparison.LexLessTransitive | js2py/pyjs.py:532-535 | the string order is transitive |
| Comparison.PrimLess | js2py/pyjs.py:527-535 | two strings compare lexicographically; other primitives compare by their to_number, numerically, with undefined iff one is NaN |
| Comparison.Relational | js2py/pyjs.py:517-536 | to_primitive with hint Number runs on x and then on y, and the first failure is the result; when both succeed, the result is the primitive comparison of the two results in the requested order; the answer is a boolean or undefined, undefined only from a NaN |
| Comparison.NumLessStrictTotal | js2py/pyjs.py:527-531 | on numbers other than NaN the numeric order is irreflexive, asymmetric and total |
| Comparison.NumLessTransitive | js2py/pyjs.py:527-531 | the numeric order is transitive |
| Comparison.NumLessInfinities | js2py/pyjs.py:527-531 | -Infinity is below and +Infinity above every other number |
| Comparison.Lt | js2py/pyjs.py:538-543 | `x < y` is true exactly when the left-first comparison says true; undefined counts as false |
| Comparison.Le | js2py/pyjs.py:545-550 | `x <= y` is true exactly when the swapped comparison says false |
| Comparison.Ge | js2py/pyjs.py:552-557 | `x >= y` is true exactly when the left-first comparison says false |
| Comparison.Gt | js2py/pyjs.py:559-563 | `x > y` is true exactly when the swapped comparison says true |
| Comparison.RelationalSwap | js2py/pyjs.py:523-526 | the swapped comparison of x and y is the left-first comparison of y and x |
| Comparison.NaNUnordered | js2py/pyjs.py:528-530 | with a NaN operand all four ordering operators answer false |
| Comparison.LeIsNotSwappedLt | js2py/pyjs.py:545-550 | when `y < x` is defined, `x <= y` is its negation |
| Comparison.GeIsNotLt | js2py/pyjs.py:552-557 | when `x < y` is defined, `x >= y` is its negation |
| Comparison.StringsCompareLexicographically | js2py/pyjs.py:532-535 | `"10" < "9"` |
| Reconcile.Update | js2py/pyjs.py:274 | every key present in the update is carried with its value, and every key it lacks keeps the base descriptor's entry |
| Reconcile.Switched | js2py/pyjs.py:249-261 | a shape switch yields a complete descriptor of the other shape and keeps both flags: a data property becomes an accessor with getter and setter undefined and no value or writable; an accessor becomes a data property with value undefined and writable false and no getter or setter |
| Reconcile.SameValue | js2py/pyjs.py:239 | identical values compare equal; in the corrected mode, values are equal iff identical |
| Reconcile.DescSame | js2py/pyjs.py:239 | the no-op test holds for identical descriptors, implies the same keys and flags, and in the corrected mode holds iff the descriptors are identical |
| Reconcile.Differs | js2py/pyjs.py:266 | in the corrected mode it is inequality; as written, a value differs from itself only when it is NaN |
| Reconcile.DefineOwnWith | js2py/pyjs.py:215-275 | an accepted descriptor is stored-shaped and live; a new property is accepted iff the object is extensible, and then is the update over the data or accessor defaults; an empty update keeps the current descriptor; an accepted redefinition stores the current descriptor updated by the update, after the shape switch when the update changes the shape, or, as written, possibly the current descriptor unchanged; in the corrected mode failures need a current non-configurable property (as written, the loose `==` and `!=` comparisons can also fail through to_primitive); in the corrected mode an accepted descriptor carries every key of the update |
| Reconcile.RedefinitionVerdict | js2py/pyjs.py:239-275 | a non-empty redefinition of an existing property fails with the host failure iff it lacks a key the code reads unchecked (`configurable`, then `enumerable`, on a non-configurable property; `writable` on a non-configurable non-writable data property); otherwise it is rejected iff it is forbidden (making a non-configurable property configurable, changing its `enumerable`, switching its shape, making it writable, changing its getter or setter, or giving any non-writable data property another value); and it is accepted otherwise, storing the current descriptor updated by the update, after the shape switch when the update has the other shape |
| Reconcile.DefineOwn | js2py/pyjs.py:215-275 | a new property is rejected iff the object is not extensible and is otherwise the update over the defaults; an accepted redefinition is the current descriptor updated by the update (after the shape switch if any), so keys the update omits keep their values; the only failure is a missing key on a non-configurable property |
| Reconcile.RedefineValueKeepsFlags | js2py/pyjs.py:262-274 | redefining only the value of a configurable, writable data property stores the value and keeps every flag |
| Reconcile.DefineOwnAsWritten | js2py/pyjs.py:215-275 | an accepted descriptor is stored-shaped; a new property is treated exactly as in the corrected version |
| Reconcile.NewPropertyDefaults | js2py/pyjs.py:228-237 | a non-extensible object rejects a new property; otherwise a data or generic update lands on the data defaults and any other update on the accessor defaults |
| Reconcile.NonConfigurableGuards | js2py/pyjs.py:241-251 | a non-configurable property rejects `configurable: true`, a change of `enumerable` and a data/accessor switch, and fails on a missing flag |
| Reconcile.NonWritableRejectsNewValue | js2py/pyjs.py:262-267 | a non-writable data property rejects a different value, even when configurable |
| Reconcile.NonConfigurableAccessorKeepsFunctions | js2py/pyjs.py:268-273 | a non-configurable accessor rejects a getter or setter that is not the current one |
| Reconcile.NoopUpdates | js2py/pyjs.py:239-240 | an empty update or the current descriptor itself is accepted unchanged |
| Reconcile.FrozenStaysFrozen | js2py/pyjs.py:241-273 | a non-configurable accessor or non-configurable non-writable data property stays exactly as it is after every accepted definition |
| Reconcile.ShapeSwitch | js2py/pyjs.py:249-261 | on a configurable property a shape switch stores the other shape: each field the update gives is the update's, a missing value is undefined and a missing writable false, a missing getter or setter undefined, and missing flags keep the current ones |
| Reconcile.LooseValueTestAcceptsEqual | js2py/pyjs.py:262-267 | as written, a configurable non-writable property holding `"1"` accepts the number 1 as its new value and stores it; the corrected version rejects it (see "## Left out") |
| Reconcile.FrozenValueTestHiddenByNoop | js2py/pyjs.py:239-267 | as written, a non-configurable non-writable property holding `"1"`, redefined with 1 and the same flags, is accepted by the no-op test and keeps `"1"`; the corrected no-op test does not match, the `!=` value test as written would not find 1 different, and the corrected version rejects it |
| Reconcile.LooseNoopKeepsOldValue | js2py/pyjs.py:239-240 | as written, redefining `"1"` as the number 1 keeps the string; corrected, it stores the number |
| Runtime.OwnDesc | js2py/pyjs.py:117-118 | an own descriptor exists iff the object owns prop |
| Runtime.Assigned | js2py/pyjs.py:172-173 | a plain assignment stores v itself; a compound one reads the current value with get, whose failure is the error, and applies the operator to it and v; a bitwise compound assignment always fails |
| Runtime.Adjust | js2py/pyjs.py:809-812 | the parameter list has the declared arity: argument i where one was given, undefined after |
| Runtime.AdjustIdempotent | js2py/pyjs.py:809-812 | fitting a list to an arity twice changes nothing more |
| Runtime.ConstructArgsAsWritten | js2py/pyjs.py:782-788 | as written, construct fails iff given two or more arguments, and passes no argument unless a single object is given |
| Runtime.ConstructDropsArguments | js2py/pyjs.py:782-788 | `new f(1, 2)` fails and `new f(7)` passes nothing, where the corrected construct passes `[7]` |
| Runtime.DeleteRevealsInherited | js2py/pyjs.py:194-201 | after an own property is removed, lookup finds what the prototype chain holds |
| Runtime.Runtime.NewObject | js2py/pyjs.py:749-754 | a new object with no own properties gets the next id; nothing else changes |
| Runtime.Runtime.Put | js2py/pyjs.py:162-189 | TypeError on an undefined or null receiver; a failing compound assignment is the error; otherwise success iff put's plan succeeds, returning the assigned value; the heap changes by exactly the own-map write of the plan, or not at all |
| Runtime.Runtime.Delete | js2py/pyjs.py:194-201 | true with no change when there is no own property; a configurable one is removed with answer true; a non-configurable one stays with answer false |
| Runtime.Runtime.DefineOwnProperty | js2py/pyjs.py:215-275 | the heap changes exactly by storing the descriptor the corrected define_own_property accepts; a rejection or failure changes nothing; afterwards get returns a stored data value |
| Runtime.Runtime.DefaultValue | js2py/pyjs.py:203-213 | the loop computes default_value |
| Runtime.ArgumentPut | js2py/pyjs.py:932-933 | put of argument i into an arguments object holding the first i keeps its shape, and creates the index property when the object prototype's chain holds no accessor for that name (nothing, or a data property) |
| Runtime.Runtime.PutArgument | js2py/pyjs.py:932-933 | one put of argument i under `str(i)` keeps the arguments object's shape and stores the argument when the object prototype's chain holds no accessor for that name |
| Runtime.Runtime.ArgumentsShell | js2py/pyjs.py:924-931 | a new extensible object inheriting from the object prototype with hidden, fixed `length` and `callee` |
| Runtime.Runtime.NewArguments | js2py/pyjs.py:922-933 | the arguments object holds `length`, `callee` and only index properties; when the object prototype's chain holds no accessor for an index name, every argument is stored under its index |
| Runtime.Runtime.Call | js2py/pyjs.py:790-814 | allocates the arguments object for all the arguments, storing every argument under its index when the object prototype's chain holds no accessor for an index name, then runs the body on the arguments fitted to the arity, followed by `this` and that object; older objects are unchanged |
| Runtime.Runtime.Construct | js2py/pyjs.py:782-788 | a failing `prototype` read is the error and changes nothing; otherwise exactly two objects are added, older objects are unchanged, a new plain object inheriting from `prototype` (the object prototype when that is not an object) is `this`, the arguments object holds the arguments, and an object result replaces `this` |
| Runtime.Runtime.Instantiate | js2py/pyjs.py:785-788 | construct after the `prototype` read: the new object and the arguments object are the only additions, and the result is the body's object result or the new object |
| Runtime.Runtime.HasInstance | js2py/pyjs.py:816-828 | false for a primitive; a TypeError iff `prototype` is not an object; otherwise true iff `prototype` lies strictly above the object on its prototype chain |
| Scopes.Resolve | js2py/pyjs.py:698-704 | the nearest binding along the chain; none iff no scope binds the name |
| Scopes.Write | js2py/pyjs.py:713-720 | an assignment rebinds the name in the nearest scope that binds it, or in the global scope when none does, and changes no other scope |
| Scopes.WriteThenResolve | js2py/pyjs.py:713-720 | after an assignment the name resolves to the value assigned |
| Scopes.WriteKeepsOthers | js2py/pyjs.py:713-720 | an assignment leaves every other name's resolution alone |
| Scopes.UnboundGoesGlobal | js2py/pyjs.py:715-718 | an assignment to a name bound nowhere creates it in the global scope |
| Scopes.DeleteUnbinds | js2py/pyjs.py:722-734 | after a successful delete the name is bound nowhere along the chain |
| Scopes.Scope.constructor | js2py/pyjs.py:693-696 | a scope with the given variables and enclosing scope |
| Scopes.Scope.Get | js2py/pyjs.py:698-704 | get agrees with the nearest binding and raises ReferenceError past the global scope |
| Scopes.Scope.Register | js2py/pyjs.py:706-711 | the name is bound, to undefined only if it was absent; it is registered only at the global scope |
| Scopes.Scope.Put | js2py/pyjs.py:713-720 | a plain assignment returns v; a compound one applies the operator to the current binding and fails when there is none; the scopes change exactly by the assignment |
| Scopes.Scope.Delete | js2py/pyjs.py:722-734 | true iff the name is unregistered and bound in no inner scope; then only the global binding is removed, otherwise nothing changes |

## Left out

- Host value conversion `Js` and `Type`: values are built directly as model values.
- Float arithmetic: once both operands are numbers, `+ - * / %` (including the division and remainder special cases) are the `numOp` parameter. The unary operators are not modelled.
- Decimal parsing and float formatting: Python's `float()`, `int(s, 16)` and `str(float)` are parameters (`parseFloat`, `parseHex`, `format`). Coercion.NumberToString states the integral and special cases only.
- `to_int32`, `to_unit32` and `to_int` are not modelled. They reduce modulo 2^16 and depend on float truncation.
- The bitwise operators and `PyJsBshift`: their compound assignments fail with NotImplementedError (`Coercion.ApplyOp`); nothing else about them is modelled.
- `PyJsFunction.__init__` is not modelled: it introspects a Python function's code object. A function object carries its arity in its class tag instead.
- Getters, setters and function bodies are parameters of the model. The effects they have on the heap are not modelled.
- `__call__` and `callprop` are not modelled. Neither are `fill_prototype`, the `__proto__` accessor wiring, the translator and interactive console, or the exception wrapper classes.
- Python identity (`is`) is approximated by equality of model values. Two equal primitives are treated as the same object.
- Dict order: the order in which `__iter__` yields names is unspecified, so `EnumerableNames` is a set.
- Reconcile.DescSame: Python 2 dict equality first compares sizes, then walks the left dict in hash order, comparing each value as it meets its key, so a value comparison can raise before a differing flag is seen. The model checks keys and flags before any value, so where the source would raise from such a comparison the model answers false.
- Update descriptors with both data and accessor keys are excluded by `WellShaped`: the source's shape tests give them no consistent meaning.
- The distinction between +0 and -0 is not modelled (the source does not make it either).
- Property names are strings throughout; a non-string key goes through `to_string` first (`Coercion.GetByKey`).
- Runtime.Runtime.Put: calling an inherited setter runs host code whose effects are not tracked, so the heap is left unchanged in the model, and a setter that raises is not modelled. That get returns the stored value afterwards is stated by `Objects.PutThenGet`, not by Put's own postcondition.
- Runtime.Runtime.Put: the setter call `desc['set'].call(self, val)` (js2py/pyjs.py:183) passes the value where `call` expects an argument tuple, so the setter receives the names of the value's own enumerable properties (none for a primitive) instead of the value. Since the model does not run setters, this is recorded here and not modelled.
- Runtime.Runtime.Call: the function body's effects on the heap are not modelled; only the arguments object it allocates is.
- Runtime.Runtime.Construct: passes the arguments through to call as the constructor evidently intends; the code as written is `Runtime.ConstructArgsAsWritten` (see Findings).
- Reconcile.DefineOwnAsWritten: promises only a stored-shaped result and agreement on new properties. Its loose comparisons can run user conversion code, which can fail.
- Objects.Get: a getter is called through the `invoke` parameter; its effects are not modelled, and a getter cannot raise in the model.
- Coercion.ConvertByMethods: a `toString` or `valueOf` call goes through `invoke`, which always returns a value in the model, so the failure cases count only failing reads of the method, not a method that raises.
- Coercion.ApplyOp: the conversions it runs can fail only by a failing read; a user method that raises is not modelled.
- Runtime.Runtime.Call: the body is the `body` parameter and always returns a value, so `call` succeeds whenever the object prototype's chain holds no accessor for an index name (IndexFree); a body that raises is not modelled.
- Runtime.Runtime.Construct: for the same reason the body cannot raise; the result is Ok whenever IndexFree holds.
- Runtime.Runtime.Instantiate: for the same reason the body cannot raise; the result is Ok whenever IndexFree holds.
- Runtime.Runtime.DefineOwnProperty: stores the verdict of the corrected `Reconcile.DefineOwn`, so both value tests (pyjs.py:239 and 266) are SameValue; the as-written verdict is `Reconcile.DefineOwnAsWritten` (see Findings). On a configurable non-writable data property it therefore rejects a new value that is loosely equal to the current one (`"1"` replaced by 1), which the code accepts and section 8.12.9 accepts as well.
- Reconcile.DefineOwn: on a configurable non-writable data property it rejects a new value that is loosely equal to the current one (`Reconcile.LooseValueTestAcceptsEqual`), which the code accepts, and which section 8.12.9 also accepts because step 10.b allows any change of a configurable property. Rejecting other new values there follows the code (`Reconcile.NonWritableRejectsNewValue`).
- Scopes.Scope: `registered` is a class attribute shared by every Scope in the process (pyjs.py:691), and the constructor aliases the caller's dict (pyjs.py:695). The model shares one `Registry` per chain and keeps each scope's variables as a value map, so writes through another reference to that dict are not seen.
- Coercion.IsSpace: only the ASCII whitespace `str.strip()` removes is recognised. On unicode strings `strip()` also removes other Unicode whitespace, such as U+00A0, U+0085, U+1680, U+2000 to U+200A, U+2028, U+2029 and U+3000; the model treats those as ordinary characters.
- Prototype chains are assumed acyclic: each prototype is older than its object. The source has no cycle check, and a cyclic chain would make `get_property` loop.

## Findings

| source | as written | input that shows it | evidently intended | confidence | as-written member | corrected member |
|---|---|---|---|---|---|---|
| js2py/pyjs.py:782-788 | `construct(*args)` calls `self.call(obj, *args)`, but `call` takes a single `args` tuple | `new f(1, 2)` raises a TypeError (too many arguments); `new f(7)` passes no argument: every value has `__iter__` (js2py/pyjs.py:609-611), so `call` iterates the number's own enumerable property names, and a number has none | pass the argument tuple through: `self.call(obj, args)` | high (not executed) | Runtime.ConstructArgsAsWritten, Runtime.ConstructDropsArguments | Runtime.Runtime.Construct |
| js2py/pyjs.py:309-314 | the hexadecimal branch of `to_number` returns the Python integer `num` itself | `to_number("0x10")` returns the host integer 16, not the JS number 16 | `return Js(num)` | high (not executed) | Coercion.StringToNumberAsWritten, Coercion.HexStringAsWritten | Coercion.StringToNumber |
| js2py/pyjs.py:266 | the value test for a non-writable data property is JS `!=` | a non-configurable property `{value: "1", writable: false, enumerable: true}` redefined with `{value: 1, writable: false, enumerable: true, configurable: false}`: as written the no-op test at pyjs.py:239 accepts it first and keeps `"1"`, so this test is hidden; once pyjs.py:239 compares by SameValue, `"1" != 1` is false and the frozen property's value becomes 1 | compare by SameValue, so the frozen property rejects the new value (section 8.12.9, step 10.a.ii) | low (not executed) | Reconcile.DefineOwnAsWritten, Reconcile.FrozenValueTestHiddenByNoop | Reconcile.DefineOwn |
| js2py/pyjs.py:239-240 | the no-op test `desc == current` compares the descriptors' values with JS `==` | a configurable writable property holding `"1"` redefined with value `1` and the same flags is accepted as unchanged and keeps `"1"` | compare values by SameValue (section 8.12.9), so the number 1 is stored | medium (not executed) | Reconcile.DefineOwnAsWritten, Reconcile.LooseNoopKeepsOldValue | Reconcile.DefineOwn |
