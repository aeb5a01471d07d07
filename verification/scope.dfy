/**
 * The dirty-checking digest of a scope. Watch functions read the scope's data
 * and are pure; listeners transform the data. A watcher remembers the last
 * value its watch function returned, starting from the `initWatchVal`
 * sentinel that no value equals. One pass (`$$digestOnce`) visits the watchers
 * in registration order, runs the listener of every watcher whose value
 * changed, and stops early when it meets, clean, the watcher that was dirty
 * last. `$digest` repeats passes until one is clean, and gives up after ten.
 */
module Digest {
  import opened Wrappers

  /** A watcher's `last`: the sentinel, or the value its watch function last returned. */
  datatype Last<V> = Initial | Seen(value: V)

  datatype Watcher<!S, !V> = Watcher(watchFn: S -> V, listenerFn: (V, V, S) -> S, last: Last<V>)

  /**
   * A scope: the data the watch functions read, `$$watchers` in registration
   * order, and `$$lastDirtyWatch` as a position in that list (watchers are
   * never removed, so a position names a watcher).
   */
  datatype Scope<!S, !V> = Scope(data: S, watchers: seq<Watcher<S, V>>, lastDirty: Option<nat>)

  /** One listener invocation: which watcher, and the new and old values it was given. */
  datatype Call<V> = Call(watcher: nat, newValue: V, oldValue: V)

  /** What a pass leaves behind: the scope, `dirty`, the listener calls in order, and how many watch functions ran. */
  datatype PassResult<!S, !V> = PassResult(scope: Scope<S, V>, dirty: bool, calls: seq<Call<V>>, evaluations: nat)

  /** The outcome of `$digest`: settled after some passes, or the "10 digest iterations reached!" error. */
  datatype DigestOutcome<!S, !V> =
    | Settled(scope: Scope<S, V>, passes: nat, evaluations: nat)
    | TooManyIterations(scope: Scope<S, V>, evaluations: nat)

  /** The number of passes `$digest` allows. */
  const TTL: nat := 10

  /** `new Scope()`: no watchers, no last dirty watch. */
  function NewScope<S, V>(data: S): (r: Scope<S, V>)
    ensures r.data == data && |r.watchers| == 0 && r.lastDirty.None?
  {
    Scope(data, [], None)
  }

  /** The listener `$watch` installs when none is given. */
  function NoOpListener<S, V>(): (V, V, S) -> S {
    (newValue: V, oldValue: V, data: S) => data
  }

  /** `$watch`: append one watcher with the sentinel as its last value; nothing else changes. */
  function Watch<S(!new), V(!new)>(sc: Scope<S, V>, watchFn: S -> V, listenerFn: Option<(V, V, S) -> S>): (r: Scope<S, V>)
    ensures |r.watchers| == |sc.watchers| + 1 && r.watchers[..|sc.watchers|] == sc.watchers
    ensures r.watchers[|sc.watchers|].watchFn == watchFn && r.watchers[|sc.watchers|].last == Initial
    ensures listenerFn.Some? ==> r.watchers[|sc.watchers|].listenerFn == listenerFn.value
    ensures listenerFn.None? ==>
      forall n: V, o: V, d: S :: r.watchers[|sc.watchers|].listenerFn(n, o, d) == d
    ensures r.data == sc.data && r.lastDirty == sc.lastDirty
  {
    var listener := if listenerFn.Some? then listenerFn.value else NoOpListener();
    sc.(watchers := sc.watchers + [Watcher(watchFn, listener, Initial)])
  }

  /** `newValue !== oldValue`: the sentinel differs from every value. */
  function IsDirty<S, V(==)>(w: Watcher<S, V>, newValue: V): (r: bool)
    ensures w.last.Initial? ==> r
    ensures w.last.Seen? ==> (r <==> newValue != w.last.value)
  {
    w.last != Seen(newValue)
  }

  /** The old value a listener is given: the new value on the first call, else the last value. */
  function OldValue<V>(last: Last<V>, newValue: V): (r: V)
    ensures last.Initial? ==> r == newValue
    ensures last.Seen? ==> r == last.value
  {
    if last.Initial? then newValue else last.value
  }

  /**
   * The dirty branch of a pass at watcher `i`: record it as the last dirty
   * watch, store the new value as its last, and run its listener.
   */
  function Fire<S, V>(sc: Scope<S, V>, i: nat, newValue: V): (r: (Scope<S, V>, Call<V>))
    requires i < |sc.watchers|
    ensures |r.0.watchers| == |sc.watchers| && r.0.lastDirty == Some(i)
    ensures r.0.watchers[i].last == Seen(newValue)
    ensures r.0.watchers[i].watchFn == sc.watchers[i].watchFn
    ensures r.0.watchers[i].listenerFn == sc.watchers[i].listenerFn
    ensures forall k :: 0 <= k < |sc.watchers| && k != i ==> r.0.watchers[k] == sc.watchers[k]
    ensures r.1.watcher == i && r.1.newValue == newValue
    ensures r.1.oldValue == OldValue(sc.watchers[i].last, newValue)
    ensures r.0.data == sc.watchers[i].listenerFn(newValue, r.1.oldValue, sc.data)
  {
    var w := sc.watchers[i];
    var oldValue := OldValue(w.last, newValue);
    (Scope(w.listenerFn(newValue, oldValue, sc.data), sc.watchers[i := w.(last := Seen(newValue))], Some(i)),
     Call(i, newValue, oldValue))
  }

  /** Watchers keep their functions across a pass; only their last values change. */
  ghost predicate SameFunctions<S, V>(a: seq<Watcher<S, V>>, b: seq<Watcher<S, V>>) {
    |a| == |b| && forall k :: 0 <= k < |a| ==> a[k].watchFn == b[k].watchFn && a[k].listenerFn == b[k].listenerFn
  }

  /** Calls are in strictly increasing watcher order: each watcher at most once, in registration order. */
  predicate Ascending<V>(calls: seq<Call<V>>) {
    forall a, b :: 0 <= a < b < |calls| ==> calls[a].watcher < calls[b].watcher
  }

  /** Every call is to a watcher in `lo..hi`. */
  predicate CallsWithin<V>(calls: seq<Call<V>>, lo: nat, hi: nat) {
    forall a :: 0 <= a < |calls| ==> lo <= calls[a].watcher < hi
  }

  /**
   * The `_.each` loop of `$$digestOnce` from watcher `i` on: the scope it
   * leaves, whether a listener ran, the calls and the evaluations from `i` on.
   * A clean watcher that is the last dirty watch ends the loop (`return false`).
   */
  function DigestOnceFrom<S, V(==)>(sc: Scope<S, V>, i: nat): (r: PassResult<S, V>)
    requires i <= |sc.watchers|
    ensures SameFunctions(r.scope.watchers, sc.watchers)
    ensures r.dirty <==> |r.calls| > 0
    ensures CallsWithin(r.calls, i, |sc.watchers|) && Ascending(r.calls)
    ensures r.evaluations <= |sc.watchers| - i
    ensures !r.dirty ==> r.scope == sc
    ensures r.dirty ==> r.scope.lastDirty == Some(r.calls[|r.calls| - 1].watcher)
    ensures forall k :: 0 <= k < i ==> r.scope.watchers[k] == sc.watchers[k]
    decreases |sc.watchers| - i
  {
    if i == |sc.watchers| then
      PassResult(sc, false, [], 0)
    else
      var newValue := sc.watchers[i].watchFn(sc.data);
      if IsDirty(sc.watchers[i], newValue) then
        var (next, call) := Fire(sc, i, newValue);
        var rest := DigestOnceFrom(next, i + 1);
        PassResult(rest.scope, true, [call] + rest.calls, rest.evaluations + 1)
      else if sc.lastDirty == Some(i) then
        PassResult(sc, false, [], 1)
      else
        var rest := DigestOnceFrom(sc, i + 1);
        rest.(evaluations := rest.evaluations + 1)
  }

  /** `$$digestOnce`: one pass over all watchers; `dirty` is true iff some listener ran. */
  function DigestOnce<S, V(==)>(sc: Scope<S, V>): (r: PassResult<S, V>)
    ensures SameFunctions(r.scope.watchers, sc.watchers)
    ensures r.dirty <==> |r.calls| > 0
    ensures r.evaluations <= |sc.watchers|
    ensures !r.dirty ==> r.scope == sc
    ensures r.dirty ==> r.scope.lastDirty == Some(r.calls[|r.calls| - 1].watcher)
    ensures Ascending(r.calls) && CallsWithin(r.calls, 0, |sc.watchers|)
  {
    DigestOnceFrom(sc, 0)
  }

  /**
   * The loop of `$digest` with `ttl` passes left: a dirty pass that uses up
   * the last one throws, a clean pass ends the digest.
   */
  function DigestLoop<S, V(==)>(sc: Scope<S, V>, ttl: nat, passes: nat, evaluations: nat): (r: DigestOutcome<S, V>)
    requires 1 <= ttl
    ensures SameFunctions(r.scope.watchers, sc.watchers)
    ensures r.Settled? ==> passes + 1 <= r.passes <= passes + ttl
    ensures r.Settled? ==> !DigestOnce(r.scope).dirty
    decreases ttl
  {
    var p := DigestOnce(sc);
    if p.dirty && ttl - 1 == 0 then
      TooManyIterations(p.scope, evaluations + p.evaluations)
    else if p.dirty then
      DigestLoop(p.scope, ttl - 1, passes + 1, evaluations + p.evaluations)
    else
      Settled(p.scope, passes + 1, evaluations + p.evaluations)
  }

  /** `$digest`: clear the last dirty watch, then run passes until one is clean, at most `TTL` of them. */
  function DigestScope<S, V(==)>(sc: Scope<S, V>): (r: DigestOutcome<S, V>)
    ensures SameFunctions(r.scope.watchers, sc.watchers)
    ensures r.Settled? ==> 1 <= r.passes <= TTL
  {
    DigestLoop(sc.(lastDirty := None), TTL, 0, 0)
  }
}
