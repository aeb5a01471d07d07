/**
 * The JSON-like host values the filter predicate and `ifDefined` work on:
 * `undefined`, `null`, booleans, numbers (integers only), strings, arrays and
 * plain objects, with the string conversion `String(v)` applies to them.
 */
module JsValues {

  datatype Value =
    | Undefined
    | Null
    | Bool(b: bool)
    | Num(n: int)
    | Str(s: string)
    | Arr(items: seq<Value>)
    | Obj(entries: seq<Entry>)

  /** One own enumerable property of a plain object, in enumeration order. */
  datatype Entry = Entry(key: string, value: Value)

  /** `_.isObject`: arrays and plain objects (functions are not values of this model). */
  predicate IsObject(v: Value) {
    v.Arr? || v.Obj?
  }

  /** `obj[key]` on a plain object: the value of the first entry with that key, `undefined` if none. */
  function Get(entries: seq<Entry>, key: string): (r: Value)
    ensures r != Undefined ==> exists i :: 0 <= i < |entries| && entries[i].key == key && entries[i].value == r
    ensures (forall i :: 0 <= i < |entries| ==> entries[i].key != key) ==> r == Undefined
    ensures Size(r) <= 1 + EntriesSize(entries)
  {
    if entries == [] then Undefined
    else if entries[0].key == key then entries[0].value
    else Get(entries[1..], key)
  }

  // ---------------------------------------------------------------------------
  // A size measure for recursion over values

  function Size(v: Value): (r: nat)
    ensures r >= 1
  {
    match v
    case Str(s) => 1 + |s|
    case Arr(items) => 1 + ItemsSize(items)
    case Obj(entries) => 1 + EntriesSize(entries)
    case _ => 1
  }

  function ItemsSize(items: seq<Value>): nat {
    if items == [] then 0 else Size(items[0]) + ItemsSize(items[1..])
  }

  function EntriesSize(entries: seq<Entry>): nat {
    if entries == [] then 0 else Size(entries[0].value) + EntriesSize(entries[1..])
  }

  // ---------------------------------------------------------------------------
  // String conversion

  function DigitChar(d: nat): (c: char)
    requires d < 10
    ensures '0' <= c <= '9' && c as int - '0' as int == d
  {
    ('0' as int + d) as char
  }

  /** The number a string of decimal digits spells, most significant first. */
  function DecimalValue(s: string): nat
    requires forall k :: 0 <= k < |s| ==> '0' <= s[k] <= '9'
  {
    if s == [] then 0 else DecimalValue(s[..|s| - 1]) * 10 + (s[|s| - 1] as int - '0' as int)
  }

  /** Decimal digits of a natural number, without leading zeros: they read back as `n`. */
  function NatToString(n: nat): (r: string)
    ensures |r| >= 1
    ensures forall k :: 0 <= k < |r| ==> '0' <= r[k] <= '9'
    ensures |r| > 1 ==> r[0] != '0'
    ensures DecimalValue(r) == n
  {
    if n < 10 then [DigitChar(n)]
    else
      var r := NatToString(n / 10) + [DigitChar(n % 10)];
      assert r[..|r| - 1] == NatToString(n / 10);
      r
  }

  /** `String(n)` for an integer: a `-` before the digits of a negative one. */
  function IntToString(n: int): (r: string)
    ensures |r| >= 1
    ensures n >= 0 ==> (forall k :: 0 <= k < |r| ==> '0' <= r[k] <= '9') && DecimalValue(r) == n
    ensures n < 0 ==> r[0] == '-' && (forall k :: 1 <= k < |r| ==> '0' <= r[k] <= '9') && DecimalValue(r[1..]) == -n
  {
    if n < 0 then
      var digits := NatToString(-n);
      assert ("-" + digits)[1..] == digits;
      "-" + digits
    else NatToString(n)
  }

  /**
   * `String(v)`: arrays join their elements' strings with commas, rendering
   * `null` and `undefined` elements as empty; plain objects print `[object Object]`.
   */
  function ToStr(v: Value): (r: string)
    ensures v.Str? ==> r == v.s
    ensures v.Num? && v.n >= 0 ==> (forall k :: 0 <= k < |r| ==> '0' <= r[k] <= '9') && DecimalValue(r) == v.n
    ensures v.Num? && v.n < 0 ==> |r| >= 2 && r[0] == '-' && (forall k :: 1 <= k < |r| ==> '0' <= r[k] <= '9') && DecimalValue(r[1..]) == -v.n
    ensures v.Arr? && v.items == [] ==> r == ""
    ensures v.Arr? && |v.items| == 1 && (v.items[0].Null? || v.items[0].Undefined?) ==> r == ""
  {
    match v
    case Undefined => "undefined"
    case Null => "null"
    case Bool(b) => if b then "true" else "false"
    case Num(n) => IntToString(n)
    case Str(s) => s
    case Arr(items) => JoinItems(items)
    case Obj(_) => "[object Object]"
  }

  function JoinItems(items: seq<Value>): string {
    if items == [] then ""
    else
      var first := if items[0].Undefined? || items[0].Null? then "" else ToStr(items[0]);
      if |items| == 1 then first else first + "," + JoinItems(items[1..])
  }
}
