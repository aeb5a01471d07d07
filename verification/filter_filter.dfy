/**
 * The `filter` filter: keep the elements of an array that match a filter
 * expression. A non-function expression is matched by `deepCompare`, which
 * negates on a leading `!`, looks into arrays and objects, and bottoms out in
 * a case-insensitive substring test on the `String` forms of both sides.
 */
module FilterFilter {
  import opened CharClass
  import opened JsValues

  /** The second argument of the filter: a host predicate, or a value to match against. */
  datatype FilterExpr =
    | Predicate(fn: Value -> bool)
    | Expected(value: Value)

  // ---------------------------------------------------------------------------
  // The comparator

  /** `needle` occurs in `hay` starting at `j`. */
  predicate OccursAt(hay: string, needle: string, j: nat) {
    j + |needle| <= |hay| && hay[j..j + |needle|] == needle
  }

  /** `needle` occurs somewhere in `hay`. */
  predicate Contains(hay: string, needle: string) {
    exists j: nat :: j <= |hay| && OccursAt(hay, needle, j)
  }

  /** `hay.indexOf(needle, i)`: the first occurrence at or after `i`, or -1. */
  function IndexFrom(hay: string, needle: string, i: nat): (r: int)
    ensures r == -1 || (i <= r && OccursAt(hay, needle, r))
    ensures r == -1 ==> forall j :: i <= j ==> !OccursAt(hay, needle, j)
    ensures r != -1 ==> forall j :: i <= j < r ==> !OccursAt(hay, needle, j)
    decreases |hay| - i
  {
    if i + |needle| > |hay| then -1
    else if hay[i..i + |needle|] == needle then i
    else IndexFrom(hay, needle, i + 1)
  }

  /** `hay.indexOf(needle)`. */
  function IndexOf(hay: string, needle: string): (r: int)
    ensures r == -1 <==> !Contains(hay, needle)
    ensures r != -1 ==> 0 <= r && OccursAt(hay, needle, r) && forall j :: 0 <= j < r ==> !OccursAt(hay, needle, j)
  {
    IndexFrom(hay, needle, 0)
  }

  /**
   * The `comparator` of `createPredicateFn`: `undefined` never matches, a
   * `null` on either side asks for strict equality, and otherwise the
   * lower-cased `String(expected)` must occur in the lower-cased `String(actual)`.
   */
  function Comparator(actual: Value, expected: Value): (r: bool)
    ensures actual.Undefined? ==> !r
    ensures !actual.Undefined? && (actual.Null? || expected.Null?) ==> (r <==> actual == expected)
    ensures !actual.Undefined? && !actual.Null? && !expected.Null? ==>
      (r <==> Contains(LowerAsciiString(ToStr(actual)), LowerAsciiString(ToStr(expected))))
  {
    if actual.Undefined? then false
    else if actual.Null? || expected.Null? then actual == expected
    else
      var hay, needle := LowerAsciiString(ToStr(actual)), LowerAsciiString(ToStr(expected));
      var at := IndexOf(hay, needle);
      assert at != -1 ==> OccursAt(hay, needle, at as nat);
      at != -1
  }

  // ---------------------------------------------------------------------------
  // deepCompare

  /** A string starting with `!`: the negated form of the rest. */
  predicate IsNegation(expected: Value) {
    expected.Str? && |expected.s| > 0 && expected.s[0] == '!'
  }

  /** `_.toPlainObject(expected)`: an array's indices become the keys "0", "1", … */
  function PlainEntries(expected: Value): (r: seq<Entry>)
    requires IsObject(expected)
    ensures EntriesSize(r) < Size(expected)
    ensures expected.Obj? ==> r == expected.entries
    ensures expected.Arr? ==> |r| == |expected.items|
  {
    if expected.Obj? then expected.entries
    else
      IndexedEntriesSize(expected.items, 0);
      IndexedEntries(expected.items, 0)
  }

  /** `_.toPlainObject` of an array: the `k`-th entry is the `k`-th item, keyed by `k` in decimal. */
  lemma PlainEntriesOfArray(items: seq<Value>)
    ensures var r := PlainEntries(Arr(items));
      |r| == |items| && forall k :: 0 <= k < |r| ==> r[k] == Entry(NatToString(k), items[k])
  {
  }

  /** The items of an array as entries keyed by their index, counting from `from`. */
  function IndexedEntries(items: seq<Value>, from: nat): (r: seq<Entry>)
    ensures |r| == |items|
    ensures forall k :: 0 <= k < |items| ==> r[k] == Entry(NatToString(from + k), items[k])
  {
    if items == [] then [] else [Entry(NatToString(from), items[0])] + IndexedEntries(items[1..], from + 1)
  }

  lemma {:induction false} IndexedEntriesSize(items: seq<Value>, from: nat)
    ensures EntriesSize(IndexedEntries(items, from)) == ItemsSize(items)
    decreases |items|
  {
    if items != [] {
      var r := IndexedEntries(items, from);
      assert r[1..] == IndexedEntries(items[1..], from + 1);
      IndexedEntriesSize(items[1..], from + 1);
    }
  }

  /**
   * `deepCompare(actual, expected, comparator)`. A leading `!` on a string is
   * handled first; then an array matches if some item does; an object
   * matches an object (or array) if every defined expected property matches
   * the same-named property, and any other value if some property value
   * does; everything else goes to the comparator.
   */
  function DeepCompare(actual: Value, expected: Value): (r: bool)
    ensures !IsNegation(expected) && actual.Undefined? ==> !r
    ensures !IsNegation(expected) && actual.Null? ==> (r <==> expected.Null?)
    ensures !IsNegation(expected) && actual.Arr? && actual.items == [] ==> !r
    ensures !IsNegation(expected) && actual.Obj? && !IsObject(expected) && actual.entries == [] ==> !r
    ensures !IsNegation(expected) && actual.Str? && expected.Str? ==>
      (r <==> Contains(LowerAsciiString(actual.s), LowerAsciiString(expected.s)))
    decreases Size(actual) + Size(expected), 1
  {
    if IsNegation(expected) then
      !DeepCompare(actual, Str(expected.s[1..]))
    else if actual.Arr? then
      AnyItemMatches(actual.items, expected)
    else if actual.Obj? then
      if IsObject(expected) then EveryKeyMatches(actual.entries, PlainEntries(expected))
      else AnyValueMatches(actual.entries, expected)
    else
      Comparator(actual, expected)
  }

  /** `_.any(actual, item => deepCompare(item, expected))` over an array. */
  function AnyItemMatches(items: seq<Value>, expected: Value): bool
    decreases ItemsSize(items) + Size(expected), 2
  {
    items != [] && (DeepCompare(items[0], expected) || AnyItemMatches(items[1..], expected))
  }

  /** `_.some(actual, value => deepCompare(value, expected))` over an object's values. */
  function AnyValueMatches(entries: seq<Entry>, expected: Value): bool
    decreases EntriesSize(entries) + Size(expected), 2
  {
    entries != [] && (DeepCompare(entries[0].value, expected) || AnyValueMatches(entries[1..], expected))
  }

  /** `_.every(expected, (v, key) => v === undefined || deepCompare(actual[key], v))`. */
  function EveryKeyMatches(actual: seq<Entry>, expected: seq<Entry>): bool
    decreases 1 + EntriesSize(actual) + EntriesSize(expected), 2
  {
    expected == [] ||
    ((expected[0].value.Undefined? || DeepCompare(Get(actual, expected[0].key), expected[0].value))
     && EveryKeyMatches(actual, expected[1..]))
  }

  // ---------------------------------------------------------------------------
  // filterFilter

  /** Whether `predicateFn(item)` holds for the filter expression. */
  predicate Keeps(expr: FilterExpr, item: Value) {
    match expr
    case Predicate(fn) => fn(item)
    case Expected(value) => DeepCompare(item, value)
  }

  /** `_.filter(arr, predicateFn)`: the items that pass, in their order. */
  function Select(arr: seq<Value>, expr: FilterExpr): (r: seq<Value>)
    ensures |r| <= |arr|
  {
    if arr == [] then []
    else (if Keeps(expr, arr[0]) then [arr[0]] else []) + Select(arr[1..], expr)
  }

  /**
   * The filter itself: a function, string, number, boolean, null or object
   * expression selects; anything else (`undefined`) returns `arr` as it is.
   */
  function Filter(arr: seq<Value>, expr: FilterExpr): (r: seq<Value>)
    ensures expr.Expected? && expr.value.Undefined? ==> r == arr
    ensures !(expr.Expected? && expr.value.Undefined?) ==> r == Select(arr, expr)
  {
    if expr.Expected? && expr.value.Undefined? then arr else Select(arr, expr)
  }
}
