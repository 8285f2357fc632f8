/**
 * The JavaScript values the validation utilities inspect, the `typeof`
 * operator, strict equality, truthiness, and the type guards
 * `isString`, `isNumber`, `isObject` and `isInteger` of src/utils/validation.ts.
 *
 * Numbers are reals (NaN and the infinities are not modelled). Values that
 * JavaScript compares by identity (symbols, functions, plain objects, arrays
 * and Date objects) carry a reference `ref`; a plain object also carries its
 * own properties, and a Date its time value, `None` standing for NaN.
 */
module JsValue {

  datatype Option<+T> = None | Some(value: T)

  type Ref = nat

  datatype Value =
    | Undefined
    | Null
    | Bool(b: bool)
    | Num(x: real)
    | BigInt(i: int)
    | Str(s: string)
    | Symbol(ref: Ref)
    | Func(ref: Ref)
    | Obj(ref: Ref, props: map<string, Value>)
    | Arr(ref: Ref, elems: seq<Value>)
    | Date(ref: Ref, time: Option<int>)

  /** The eight strings `typeof` can produce: "string", "number", "bigint",
      "boolean", "symbol", "undefined", "object" and "function". */
  datatype TypeName =
    | StringType | NumberType | BigintType | BooleanType
    | SymbolType | UndefinedType | ObjectType | FunctionType

  /** The `typeof` operator; note that `typeof null` is "object". */
  function Typeof(v: Value): (t: TypeName)
    ensures t == ObjectType <==> v.Null? || v.Obj? || v.Arr? || v.Date?
    ensures t == UndefinedType <==> v.Undefined?
    ensures t == StringType <==> v.Str?
    ensures t == FunctionType <==> v.Func?
  {
    match v
    case Undefined => UndefinedType
    case Null => ObjectType
    case Bool(_) => BooleanType
    case Num(_) => NumberType
    case BigInt(_) => BigintType
    case Str(_) => StringType
    case Symbol(_) => SymbolType
    case Func(_) => FunctionType
    case Obj(_, _) => ObjectType
    case Arr(_, _) => ObjectType
    case Date(_, _) => ObjectType
  }

  /** Values compared by identity under `===`. */
  predicate IsReference(v: Value) {
    v.Symbol? || v.Func? || v.Obj? || v.Arr? || v.Date?
  }

  /** Strict equality `a === b`: primitives by value, everything else by
      identity. Without NaN it is an equivalence relation. */
  function StrictEquals(a: Value, b: Value): (r: bool)
    ensures !IsReference(a) ==> (r <==> a == b)
    ensures r ==> Typeof(a) == Typeof(b)
  {
    match (a, b)
    case (Symbol(x), Symbol(y)) => x == y
    case (Func(x), Func(y)) => x == y
    case (Obj(x, _), Obj(y, _)) => x == y
    case (Arr(x, _), Arr(y, _)) => x == y
    case (Date(x, _), Date(y, _)) => x == y
    case _ => !IsReference(a) && !IsReference(b) && a == b
  }

  /** ToBoolean, as used by `&&`: every object, even an invalid Date, is
      truthy; a string is truthy exactly when it is not empty. */
  function Truthy(v: Value): (r: bool)
    ensures IsReference(v) ==> r
    ensures v.Undefined? || v.Null? ==> !r
    ensures v.Str? ==> (r <==> |v.s| > 0)
  {
    match v
    case Undefined => false
    case Null => false
    case Bool(b) => b
    case Num(x) => x != 0.0
    case BigInt(i) => i != 0
    case Str(s) => s != ""
    case _ => true
  }

  /** `isString` (validation.ts): `typeof value === 'string'`; String wrapper
      objects are not distinguished from strings in this model. */
  function IsString(v: Value): (r: bool)
    ensures r <==> v.Str?
  {
    Typeof(v) == StringType
  }

  /** `isNumber` (validation.ts): `typeof value === 'number'`. */
  function IsNumber(v: Value): (r: bool)
    ensures r <==> v.Num?
  {
    Typeof(v) == NumberType
  }

  /** `isObject` (validation.ts): `typeof` is "object", not null, not an array. */
  function IsObject(v: Value): (r: bool)
    ensures r <==> v.Obj? || v.Date?
  {
    Typeof(v) == ObjectType && v != Null && !v.Arr?
  }

  /** A finite number with no fractional part, as `Number.isInteger` and
      `Math.floor(x) === x` test it. */
  predicate IsIntegral(x: real) {
    x.Floor as real == x
  }

  /** `isInteger` (validation.ts): a number equal to its own floor. */
  function IsInteger(v: Value): (r: bool)
    ensures r ==> v.Num? && v.x.Floor as real == v.x
    ensures v.Num? && v.x.Floor as real == v.x ==> r
  {
    Typeof(v) == NumberType && IsIntegral(v.x)
  }

  /** What `.` in a regular expression without the `s` flag does not match. */
  predicate IsLineTerminator(c: char) {
    c == '\n' || c == '\r' || c == '\U{2028}' || c == '\U{2029}'
  }

  /** The own properties of an object: a Date object has none. */
  function OwnProperties(v: Value): map<string, Value>
    requires IsObject(v)
  {
    if v.Obj? then v.props else map[]
  }

  /** Property read `v[key]` on an object: `undefined` when absent. */
  function Get(v: Value, key: string): (r: Value)
    requires IsObject(v)
    ensures key !in OwnProperties(v) ==> r == Undefined
  {
    var props := OwnProperties(v);
    if key in props then props[key] else Undefined
  }

  /** An error value, thrown by the validators: `{ name, message, status? }`. */
  datatype ErrorValue = ErrorValue(name: string, message: string, status: Option<int>)

  /** How a call ends: it returns a boolean or throws an error value. */
  datatype Outcome = Returned(result: bool) | Threw(error: ErrorValue)

  lemma NullIsAnObjectToTypeof()
    ensures Typeof(Null) == ObjectType && !IsObject(Null)
    ensures forall r: Ref, e: seq<Value> :: Typeof(Arr(r, e)) == ObjectType && !IsObject(Arr(r, e))
  {
  }

  lemma StrictEqualsIsAnEquivalence(a: Value, b: Value, c: Value)
    ensures StrictEquals(a, a)
    ensures StrictEquals(a, b) == StrictEquals(b, a)
    ensures StrictEquals(a, b) && StrictEquals(b, c) ==> StrictEquals(a, c)
  {
    if IsReference(a) && StrictEquals(a, b) {
      assert IsReference(b) && a.ref == b.ref;
    }
  }

  lemma IntegersAreIntegers(n: int)
    ensures IsInteger(Num(n as real)) && IsNumber(Num(n as real))
    ensures forall v :: IsInteger(v) ==> IsNumber(v)
  {
  }
}
