/**
 * What the last-dirty-watch short circuit saves: how many watch functions a
 * digest evaluates in the two situations the scope tests count, and a pair
 * of watchers that keep each other dirty until the digest gives up.
 */
module DigestCosts {
  import opened Wrappers
  import opened Digest
  import opened DigestProps

  /** Every watcher from `i` on has never been digested. */
  predicate FreshFrom<S, V>(sc: Scope<S, V>, i: nat) {
    forall k :: i <= k < |sc.watchers| ==> sc.watchers[k].last.Initial?
  }

  /** A listener that leaves the data as it is, as `function() {}` or no listener at all does. */
  ghost predicate KeepsData<S(!new), V(!new)>(listenerFn: (V, V, S) -> S) {
    forall newValue, oldValue, data :: listenerFn(newValue, oldValue, data) == data
  }

  /** Every watcher from `i` on has a listener that leaves the data as it is. */
  ghost predicate ListenerlessFrom<S(!new), V(!new)>(sc: Scope<S, V>, i: nat) {
    forall k :: i <= k < |sc.watchers| ==> KeepsData(sc.watchers[k].listenerFn)
  }

  /** A pass over new watchers without listeners fires every one of them and leaves them clean. */
  lemma {:induction false} FreshPass<S(!new), V(!new)>(sc: Scope<S, V>, i: nat)
    requires i <= |sc.watchers| && FreshFrom(sc, i) && ListenerlessFrom(sc, i)
    ensures var r := DigestOnceFrom(sc, i);
      && r.evaluations == |sc.watchers| - i
      && r.scope.data == sc.data
      && (i < |sc.watchers| ==> r.dirty && r.scope.lastDirty == Some(|sc.watchers| - 1))
      && CleanBetween(r.scope, i, |sc.watchers|)
    decreases |sc.watchers| - i
  {
    if i < |sc.watchers| {
      var newValue := sc.watchers[i].watchFn(sc.data);
      var (next, call) := Fire(sc, i, newValue);
      assert next.data == sc.data;
      FreshPass(next, i + 1);
      var r := DigestOnceFrom(next, i + 1);
      assert r.scope.watchers[i] == next.watchers[i];
      assert Clean(r.scope, i);
    }
  }

  /** A pass meets the last dirty watch `j`, clean, after `j + 1 - i` clean watchers and stops there. */
  lemma {:induction false} PassStopsAtLastDirty<S, V>(sc: Scope<S, V>, i: nat, j: nat)
    requires i <= j < |sc.watchers| && sc.lastDirty == Some(j) && CleanBetween(sc, i, j + 1)
    ensures DigestOnceFrom(sc, i) == PassResult(sc, false, [], j + 1 - i)
    decreases j - i
  {
    assert Clean(sc, i);
    if i < j {
      PassStopsAtLastDirty(sc, i + 1, j);
    }
  }

  /**
   * The first digest of `n` new watchers without listeners evaluates `2 * n`
   * watch functions in two passes: the first fires each of them, the second
   * stops at the last one (100 watchers, 200 evaluations).
   */
  lemma FirstDigestEvaluatesTwice<S(!new), V(!new)>(sc: Scope<S, V>)
    requires |sc.watchers| > 0 && FreshFrom(sc, 0) && ListenerlessFrom(sc, 0)
    ensures var r := DigestScope(sc);
      r.Settled? && r.passes == 2 && r.evaluations == 2 * |sc.watchers| && r.scope.data == sc.data
  {
    var n := |sc.watchers|;
    var start := sc.(lastDirty := None);
    FreshPass(start, 0);
    var first := DigestOnce(start);
    PassStopsAtLastDirty(first.scope, 0, n - 1);
    assert DigestLoop(first.scope, TTL - 1, 1, n) == Settled(first.scope, 2, 2 * n);
  }

  /**
   * After a settled digest, a change seen by the first watcher alone costs
   * `n + 1` evaluations: one full pass, then a pass that stops at the first
   * watcher (100 watchers, 101 evaluations).
   */
  lemma OneChangeEvaluatesOnceMore<S(!new), V(!new)>(sc: Scope<S, V>)
    requires |sc.watchers| > 0 && !Clean(sc, 0) && CleanBetween(sc, 1, |sc.watchers|)
    requires KeepsData(sc.watchers[0].listenerFn)
    ensures var r := DigestScope(sc);
      r.Settled? && r.passes == 2 && r.evaluations == |sc.watchers| + 1 && r.scope.data == sc.data
  {
    var n := |sc.watchers|;
    var start := sc.(lastDirty := None);
    var newValue := start.watchers[0].watchFn(start.data);
    var (next, call) := Fire(start, 0, newValue);
    assert next.data == sc.data;
    assert CleanBetween(next, 1, n) by {
      forall k | 1 <= k < n ensures Clean(next, k) {
        assert Clean(sc, k);
      }
    }
    DigestOnceOverClean(next, 1);
    assert DigestOnce(start) == PassResult(next, true, [call], n);
    PassStopsAtLastDirty(next, 0, 0);
    assert DigestLoop(next, TTL - 1, 1, n) == Settled(next, 2, n + 1);
  }

  // ---------------------------------------------------------------------------
  // Two watchers that keep each other dirty

  datatype Counters = Counters(a: int, b: int)

  function CounterA(c: Counters): int { c.a }

  function CounterB(c: Counters): int { c.b }

  function BumpA(newValue: int, oldValue: int, c: Counters): Counters { c.(a := c.a + 1) }

  function BumpB(newValue: int, oldValue: int, c: Counters): Counters { c.(b := c.b + 1) }

  /** Watcher 0 reads `a` and bumps `b`; watcher 1 reads `b` and bumps `a`. */
  function Crossed(c: Counters, lastA: Last<int>, lastB: Last<int>, lastDirty: Option<nat>): Scope<Counters, int> {
    Scope(c, [Watcher(CounterA, BumpB, lastA), Watcher(CounterB, BumpA, lastB)], lastDirty)
  }

  /**
   * A pass over the crossed watchers with watcher 0 behind by one (or both
   * new) fires both, and leaves watcher 0 behind by one again.
   */
  lemma CrossedPass(c: Counters, lastA: Last<int>, lastB: Last<int>, lastDirty: Option<nat>)
    requires (lastA == Seen(c.a - 1) && lastB == Seen(c.b)) || (lastA == Initial && lastB == Initial)
    ensures var next := Counters(c.a + 1, c.b + 1);
      && PassDirty(Crossed(c, lastA, lastB, lastDirty))
      && DigestOnce(Crossed(c, lastA, lastB, lastDirty)).scope == Crossed(next, Seen(next.a - 1), Seen(next.b), Some(1))
  {
    var sc := Crossed(c, lastA, lastB, lastDirty);
    var (mid, call0) := Fire(sc, 0, c.a);
    assert mid == Crossed(c.(b := c.b + 1), Seen(c.a), lastB, Some(0));
    var (end, call1) := Fire(mid, 1, c.b + 1);
    assert end == Crossed(Counters(c.a + 1, c.b + 1), Seen(c.a), Seen(c.b + 1), Some(1));
    assert DigestOnceFrom(mid, 1) == PassResult(end, true, [call1], 1);
  }

  lemma {:induction false} CrossedStaysDirty(c: Counters, lastDirty: Option<nat>, n: nat)
    ensures DirtyPasses(Crossed(c, Seen(c.a - 1), Seen(c.b), lastDirty), n)
    decreases n
  {
    if n > 0 {
      CrossedPass(c, Seen(c.a - 1), Seen(c.b), lastDirty);
      CrossedStaysDirty(Counters(c.a + 1, c.b + 1), Some(1), n - 1);
    }
  }

  lemma DirtyPassesStep<S, V>(sc: Scope<S, V>, n: nat)
    requires n > 0 && PassDirty(sc) && DirtyPasses(DigestOnce(sc).scope, n - 1)
    ensures DirtyPasses(sc, n)
  {
  }

  /** Registering the two watchers in order gives the crossed pair, both new. */
  lemma WatchBuildsCrossed(c: Counters)
    ensures Watch(Watch(NewScope(c), CounterA, Some(BumpB)), CounterB, Some(BumpA)) == Crossed(c, Initial, Initial, None)
  {
  }

  /** Two watchers whose listeners change what the other watches make `$digest` give up. */
  lemma CrossedWatchersGiveUp(c: Counters)
    ensures DigestScope(Watch(Watch(NewScope(c), CounterA, Some(BumpB)), CounterB, Some(BumpA))).TooManyIterations?
  {
    WatchBuildsCrossed(c);
    var sc := Crossed(c, Initial, Initial, None);
    CrossedPass(c, Initial, Initial, None);
    CrossedStaysDirty(Counters(c.a + 1, c.b + 1), Some(1), TTL - 1);
    DirtyPassesStep(sc, TTL);
    GivesUpAfterTenDirtyPasses(sc);
  }
}
