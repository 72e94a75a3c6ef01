/**
 * The JavaScript values that flow through a workflow run: node configuration
 * (`node.data`), parent outputs, request bodies and execution results.
 * Only the parts of JavaScript semantics the engine relies on are modelled:
 * truthiness, `a || b`, destructuring defaults and property reads that throw
 * on `undefined` and `null`.
 */
module Values {
  import opened Wrappers

  /** A JavaScript value; numbers are exact reals (no NaN, no rounding). */
  datatype Value =
    | Undefined
    | Null
    | Bool(b: bool)
    | Num(n: real)
    | Str(s: string)
    | Arr(items: seq<Value>)
    | Obj(fields: map<string, Value>)

  /** `undefined` or `null`: the two values whose properties cannot be read. */
  predicate Nullish(v: Value) {
    v.Undefined? || v.Null?
  }

  /** JavaScript truthiness (`if (v)`, `!v`). */
  predicate Truthy(v: Value) {
    match v
    case Undefined => false
    case Null => false
    case Bool(b) => b
    case Num(n) => n != 0.0
    case Str(s) => s != ""
    case Arr(_) => true
    case Obj(_) => true
  }

  /** `a || b`: the first operand when it is truthy, otherwise the second. */
  function Or(a: Value, b: Value): (r: Value)
    ensures Truthy(a) ==> r == a
    ensures !Truthy(a) ==> r == b
    ensures Truthy(r) <==> Truthy(a) || Truthy(b)
  {
    if Truthy(a) then a else b
  }

  /** A destructuring default `{ k = d } = obj`: only `undefined` is replaced. */
  function DefaultIfUndefined(a: Value, d: Value): Value {
    if a.Undefined? then d else a
  }

  /** The text V8 gives the TypeError raised by reading `key` of `undefined` or `null`. */
  function ReadErrorMessage(v: Value, key: string): string {
    "Cannot read properties of " + (if v.Null? then "null" else "undefined") + " (reading '" + key + "')"
  }

  /**
   * Property read `v[key]` when it does not throw: the stored value of an
   * object, `undefined` otherwise. Callers check `Nullish` first where the
   * source would throw (see `Prop`).
   */
  function Field(v: Value, key: string): Value
  {
    if v.Obj? && key in v.fields then v.fields[key] else Undefined
  }

  /**
   * Property read `v.key`: a TypeError (its message) on `undefined` and `null`,
   * the stored value on an object, `undefined` for a missing key or on any
   * other value.
   */
  function Prop(v: Value, key: string): (r: Result<Value, string>)
    ensures r.Failure? <==> Nullish(v)
    ensures r.Failure? ==> r.error == ReadErrorMessage(v, key)
    ensures v.Obj? && key in v.fields ==> r == Success(v.fields[key])
    ensures v.Obj? && key !in v.fields ==> r == Success(Undefined)
  {
    if Nullish(v) then Failure(ReadErrorMessage(v, key)) else Success(Field(v, key))
  }

  /** A decimal digit `'0'` to `'9'`. */
  predicate IsDigit(c: char) {
    '0' <= c <= '9'
  }

  /** Decimal text of a natural number: digits only, with no leading zero. */
  function NatToString(n: nat): (r: string)
    ensures |r| > 0 && (forall i :: 0 <= i < |r| ==> IsDigit(r[i]))
    ensures r[0] == '0' <==> n == 0
    decreases n
  {
    var d := [('0' as int + n % 10) as char];
    if n < 10 then d else NatToString(n / 10) + d
  }

  /** The number a string of decimal digits denotes, read most significant digit first. */
  function ParseNat(s: string): nat
    requires forall i :: 0 <= i < |s| ==> IsDigit(s[i])
  {
    if s == [] then 0
    else
      assert IsDigit(s[|s| - 1]);
      ParseNat(s[..|s| - 1]) * 10 + (s[|s| - 1] as int - '0' as int)
  }

  /** Reading the decimal text of `n` back gives `n`. */
  lemma {:induction false} NatToStringRoundTrip(n: nat)
    ensures ParseNat(NatToString(n)) == n
    decreases n
  {
    var r := NatToString(n);
    if n >= 10 {
      NatToStringRoundTrip(n / 10);
      assert r[..|r| - 1] == NatToString(n / 10);
    }
  }

  /** `${n}` for an integer `n`: a minus sign exactly for a negative `n`, then the digits of its magnitude. */
  function IntToString(n: int): (r: string)
    ensures |r| > 0 && (r[0] == '-' <==> n < 0)
    ensures n < 0 ==> |r| > 1 && forall i :: 1 <= i < |r| ==> IsDigit(r[i])
    ensures n >= 0 ==> forall i :: 0 <= i < |r| ==> IsDigit(r[i])
  {
    if n < 0 then "-" + NatToString(-n) else NatToString(n)
  }

  /** Reading the text of an integer back, with an optional leading minus sign, gives the integer. */
  lemma IntToStringRoundTrip(n: int)
    ensures var r := IntToString(n);
            if r[0] == '-' then n == -(ParseNat(r[1..]) as int) else n == ParseNat(r)
  {
    if n < 0 {
      assert IntToString(n)[1..] == NatToString(-n);
      NatToStringRoundTrip(-n);
    } else {
      NatToStringRoundTrip(n);
    }
  }

  /** Distinct naturals have distinct decimal texts, so index keys never collide. */
  lemma IndexKeysDistinct(n: nat)
    ensures forall i :: 0 <= i < n ==> NatToString(i) != NatToString(n)
  {
    forall i | 0 <= i < n
      ensures NatToString(i) != NatToString(n)
    {
      NatToStringRoundTrip(i);
      NatToStringRoundTrip(n);
    }
  }

  /** The index-keyed entries `"0"`, `"1"`, ... of an array-like value, one per item. */
  function IndexEntries(items: seq<Value>): (r: map<string, Value>)
    ensures forall i :: 0 <= i < |items| ==> NatToString(i) in r && r[NatToString(i)] == items[i]
    ensures forall k :: k in r ==> exists i :: 0 <= i < |items| && k == NatToString(i)
    decreases |items|
  {
    if items == [] then map[]
    else
      IndexKeysDistinct(|items| - 1);
      IndexEntries(items[..|items| - 1])[NatToString(|items| - 1) := items[|items| - 1]]
  }

  /** The characters of a string as one-character strings, as string indexing yields them. */
  function Chars(s: string): (r: seq<Value>)
    ensures |r| == |s| && forall i :: 0 <= i < |s| ==> r[i] == Str([s[i]])
  {
    seq(|s|, i requires 0 <= i < |s| => Str([s[i]]))
  }

  /**
   * The own enumerable properties that an object spread `{...v}` copies:
   * an object's fields, one entry per index of a string or an array, and
   * nothing from a boolean, a number, `null` or `undefined`.
   */
  function OwnEntries(v: Value): (r: map<string, Value>)
    ensures v.Obj? ==> r == v.fields
    ensures v.Str? ==> forall i :: 0 <= i < |v.s| ==> NatToString(i) in r && r[NatToString(i)] == Str([v.s[i]])
    ensures v.Arr? ==> forall i :: 0 <= i < |v.items| ==> NatToString(i) in r && r[NatToString(i)] == v.items[i]
    ensures v.Str? ==> forall k :: k in r ==> exists i :: 0 <= i < |v.s| && k == NatToString(i)
    ensures v.Arr? ==> forall k :: k in r ==> exists i :: 0 <= i < |v.items| && k == NatToString(i)
    ensures !v.Obj? && !v.Str? && !v.Arr? ==> r == map[]
  {
    match v
    case Obj(fields) => fields
    case Str(s) => IndexEntries(Chars(s))
    case Arr(items) => IndexEntries(items)
    case _ => map[]
  }

  /**
   * `String(v)` for a value, as a template literal `${v}` converts it:
   * an array is its items joined by commas, with `null` and `undefined`
   * items empty; number formatting is a parameter.
   */
  function ToText(v: Value, numberText: real -> string): string
    decreases v
  {
    match v
    case Undefined => "undefined"
    case Null => "null"
    case Bool(b) => if b then "true" else "false"
    case Num(n) => numberText(n)
    case Str(s) => s
    case Arr(items) => JoinItems(items, numberText)
    case Obj(_) => "[object Object]"
  }

  /** `items.join(",")`. */
  function JoinItems(items: seq<Value>, numberText: real -> string): string
    decreases items
  {
    if items == [] then ""
    else
      (if Nullish(items[0]) then "" else ToText(items[0], numberText))
      + (if |items| == 1 then "" else "," + JoinItems(items[1..], numberText))
  }
}
