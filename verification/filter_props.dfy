/**
 * What a filter expression matches, stated without the mutual recursion of
 * `deepCompare`: arrays by some item, objects against objects by every
 * defined property, objects against other values by some property value,
 * and the selection as an order-preserving sub-list.
 */
module FilterProps {
  import opened CharClass
  import opened JsValues
  import opened FilterFilter

  // ---------------------------------------------------------------------------
  // deepCompare, case by case

  /** A leading `!` flips the match of the rest, before any array or object case. */
  lemma NegationFlips(actual: Value, rest: string)
    ensures DeepCompare(actual, Str(['!'] + rest)) == !DeepCompare(actual, Str(rest))
  {
    assert (['!'] + rest)[1..] == rest;
  }

  /** Two leading `!` cancel. */
  lemma DoubleNegationCancels(actual: Value, rest: string)
    ensures DeepCompare(actual, Str(['!', '!'] + rest)) == DeepCompare(actual, Str(rest))
  {
    assert ['!', '!'] + rest == ['!'] + (['!'] + rest);
    NegationFlips(actual, ['!'] + rest);
    NegationFlips(actual, rest);
  }

  lemma {:induction false} AnyItemMatchesIff(items: seq<Value>, expected: Value)
    ensures AnyItemMatches(items, expected) <==> exists i :: 0 <= i < |items| && DeepCompare(items[i], expected)
    decreases |items|
  {
    if items != [] {
      AnyItemMatchesIff(items[1..], expected);
      if AnyItemMatches(items[1..], expected) {
        var i :| 0 <= i < |items[1..]| && DeepCompare(items[1..][i], expected);
        assert DeepCompare(items[i + 1], expected);
      }
      if exists i :: 0 <= i < |items| && DeepCompare(items[i], expected) {
        var i :| 0 <= i < |items| && DeepCompare(items[i], expected);
        if i > 0 {
          assert DeepCompare(items[1..][i - 1], expected);
        }
      }
    }
  }

  /** An array matches exactly when one of its items does. */
  lemma ArrayMatchesSomeItem(items: seq<Value>, expected: Value)
    requires !IsNegation(expected)
    ensures DeepCompare(Arr(items), expected) <==> exists i :: 0 <= i < |items| && DeepCompare(items[i], expected)
  {
    AnyItemMatchesIff(items, expected);
  }

  lemma {:induction false} AnyValueMatchesIff(entries: seq<Entry>, expected: Value)
    ensures AnyValueMatches(entries, expected) <==> exists k :: 0 <= k < |entries| && DeepCompare(entries[k].value, expected)
    decreases |entries|
  {
    if entries != [] {
      AnyValueMatchesIff(entries[1..], expected);
      if AnyValueMatches(entries[1..], expected) {
        var k :| 0 <= k < |entries[1..]| && DeepCompare(entries[1..][k].value, expected);
        assert DeepCompare(entries[k + 1].value, expected);
      }
      if exists k :: 0 <= k < |entries| && DeepCompare(entries[k].value, expected) {
        var k :| 0 <= k < |entries| && DeepCompare(entries[k].value, expected);
        if k > 0 {
          assert DeepCompare(entries[1..][k - 1].value, expected);
        }
      }
    }
  }

  /** An object matches a non-object expected value exactly when one of its property values does. */
  lemma ObjectMatchesSomeValue(entries: seq<Entry>, expected: Value)
    requires !IsNegation(expected) && !IsObject(expected)
    ensures DeepCompare(Obj(entries), expected) <==> exists k :: 0 <= k < |entries| && DeepCompare(entries[k].value, expected)
  {
    AnyValueMatchesIff(entries, expected);
  }

  /** Expected property `k` is ignored (undefined) or matches the same-named property of `actual`. */
  predicate PropertyMatches(actual: seq<Entry>, expected: seq<Entry>, k: nat)
    requires k < |expected|
  {
    expected[k].value.Undefined? || DeepCompare(Get(actual, expected[k].key), expected[k].value)
  }

  lemma {:induction false} EveryKeyMatchesIff(actual: seq<Entry>, expected: seq<Entry>)
    ensures EveryKeyMatches(actual, expected) <==> forall k :: 0 <= k < |expected| ==> PropertyMatches(actual, expected, k)
    decreases |expected|
  {
    if expected != [] {
      EveryKeyMatchesIff(actual, expected[1..]);
      if EveryKeyMatches(actual, expected) {
        forall k | 0 <= k < |expected| ensures PropertyMatches(actual, expected, k) {
          if k > 0 {
            assert PropertyMatches(actual, expected[1..], k - 1);
          }
        }
      }
      if forall k :: 0 <= k < |expected| ==> PropertyMatches(actual, expected, k) {
        assert PropertyMatches(actual, expected, 0);
        forall k | 0 <= k < |expected[1..]| ensures PropertyMatches(actual, expected[1..], k) {
          assert PropertyMatches(actual, expected, k + 1);
        }
      }
    }
  }

  /**
   * An object matches an object (or array) expected value exactly when every
   * defined expected property matches `actual[key]`.
   */
  lemma ObjectMatchesEveryProperty(entries: seq<Entry>, expected: Value)
    requires IsObject(expected)
    ensures DeepCompare(Obj(entries), expected)
        <==> forall k :: 0 <= k < |PlainEntries(expected)| ==> PropertyMatches(entries, PlainEntries(expected), k)
  {
    EveryKeyMatchesIff(entries, PlainEntries(expected));
  }

  /** Values that are neither arrays nor objects go straight to the comparator. */
  lemma ScalarUsesComparator(actual: Value, expected: Value)
    requires !IsNegation(expected) && !IsObject(actual)
    ensures DeepCompare(actual, expected) == Comparator(actual, expected)
  {
  }

  // ---------------------------------------------------------------------------
  // The comparator

  lemma {:induction false} LowerIsIdempotent(s: string)
    ensures LowerAsciiString(LowerAsciiString(s)) == LowerAsciiString(s)
  {
    forall k | 0 <= k < |s| ensures LowerAsciiString(LowerAsciiString(s))[k] == LowerAsciiString(s)[k] {
      assert LowerAsciiString(s)[k] == LowerAscii(s[k]);
    }
  }

  /** The empty string occurs in every string, so it matches every defined, non-null scalar. */
  lemma EmptyStringMatchesEveryScalar(actual: Value)
    requires !actual.Undefined? && !actual.Null? && !IsObject(actual)
    ensures DeepCompare(actual, Str(""))
  {
    var hay := LowerAsciiString(ToStr(actual));
    assert LowerAsciiString("") == "";
    assert OccursAt(hay, "", 0);
  }

  /** Upper or lower case in the expected string makes no difference. */
  lemma ComparatorIgnoresCase(actual: Value, s: string)
    requires !actual.Undefined? && !actual.Null?
    ensures Comparator(actual, Str(s)) == Comparator(actual, Str(LowerAsciiString(s)))
  {
    LowerIsIdempotent(s);
  }

  /** `null` matches only `null`, and nothing else matches `null`. */
  lemma NullMatchesOnlyNull(actual: Value)
    requires !IsObject(actual)
    ensures DeepCompare(actual, Null) <==> actual.Null?
    ensures actual.Null? ==> (forall e :: !IsNegation(e) && !e.Null? ==> !DeepCompare(actual, e))
  {
  }

  // ---------------------------------------------------------------------------
  // Selection

  /** One step of `_.filter`: the first item, if kept, followed by the rest filtered. */
  lemma SelectCons(arr: seq<Value>, expr: FilterExpr)
    requires arr != []
    ensures Select(arr, expr) == (if Keeps(expr, arr[0]) then [arr[0]] else []) + Select(arr[1..], expr)
  {
  }

  lemma Associative(x: seq<Value>, y: seq<Value>, z: seq<Value>)
    ensures x + (y + z) == (x + y) + z
  {
  }

  /** `_.filter` works item by item: filtering a concatenation concatenates the filtered parts. */
  lemma {:induction false} SelectAppend(a: seq<Value>, b: seq<Value>, expr: FilterExpr)
    ensures Select(a + b, expr) == Select(a, expr) + Select(b, expr)
    decreases |a|
  {
    if a != [] {
      var head := if Keeps(expr, a[0]) then [a[0]] else [];
      assert Select(a + b, expr) == head + Select(a[1..] + b, expr) by {
        assert (a + b)[0] == a[0] && (a + b)[1..] == a[1..] + b;
        SelectCons(a + b, expr);
      }
      SelectAppend(a[1..], b, expr);
      SelectCons(a, expr);
      Associative(head, Select(a[1..], expr), Select(b, expr));
    } else {
      assert a + b == b;
    }
  }

  /** An item is in the result exactly when it is in the input and passes. */
  lemma {:induction false} SelectKeepsExactlyMatching(arr: seq<Value>, expr: FilterExpr, x: Value)
    ensures x in Select(arr, expr) <==> x in arr && Keeps(expr, x)
    decreases |arr|
  {
    if arr != [] {
      SelectKeepsExactlyMatching(arr[1..], expr, x);
      assert x in arr <==> x == arr[0] || x in arr[1..];
    }
  }

  /** A one-item array is kept or dropped as a whole. */
  lemma SelectOne(x: Value, expr: FilterExpr)
    ensures Select([x], expr) == if Keeps(expr, x) then [x] else []
  {
  }

  /** `r` is `arr` with some items left out, the rest in their order. */
  predicate SubsequenceOf(r: seq<Value>, arr: seq<Value>)
    decreases |arr|
  {
    r == [] ||
    (arr != [] && ((r[0] == arr[0] && SubsequenceOf(r[1..], arr[1..])) || SubsequenceOf(r, arr[1..])))
  }

  /** The filtered array keeps the order of the input. */
  lemma {:induction false} SelectIsSubsequence(arr: seq<Value>, expr: FilterExpr)
    ensures SubsequenceOf(Select(arr, expr), arr)
    decreases |arr|
  {
    if arr != [] {
      SelectIsSubsequence(arr[1..], expr);
      if Keeps(expr, arr[0]) {
        assert Select(arr, expr) == [arr[0]] + Select(arr[1..], expr);
        assert ([arr[0]] + Select(arr[1..], expr))[1..] == Select(arr[1..], expr);
      } else {
        assert Select(arr, expr) == Select(arr[1..], expr);
      }
    }
  }

  /** Filtering twice with the same expression keeps what filtering once did. */
  lemma {:induction false} SelectIsIdempotent(arr: seq<Value>, expr: FilterExpr)
    ensures Select(Select(arr, expr), expr) == Select(arr, expr)
    decreases |arr|
  {
    if arr != [] {
      var head := if Keeps(expr, arr[0]) then [arr[0]] else [];
      SelectIsIdempotent(arr[1..], expr);
      SelectAppend(head, Select(arr[1..], expr), expr);
    }
  }

  /** An array all of whose items match comes back whole. */
  lemma {:induction false} SelectKeepsAllMatching(arr: seq<Value>, expr: FilterExpr)
    requires forall i :: 0 <= i < |arr| ==> Keeps(expr, arr[i])
    ensures Select(arr, expr) == arr
    decreases |arr|
  {
    if arr != [] {
      SelectKeepsAllMatching(arr[1..], expr);
    }
  }
}
