/**
 * Properties of the digest. The central one is that the "last dirty watch"
 * short-circuit of `$$digestOnce` is sound: whenever a pass stops early, a
 * full pass over every watcher would have found nothing more to do. From it
 * follow that a settled digest leaves every watcher clean and that a second
 * digest runs no listener.
 */
module DigestProps {
  import opened Wrappers
  import opened Digest

  /** Watcher `k`'s last value is what its watch function returns on the current data. */
  predicate Clean<S, V(==)>(sc: Scope<S, V>, k: nat)
    requires k < |sc.watchers|
  {
    sc.watchers[k].last == Seen(sc.watchers[k].watchFn(sc.data))
  }

  predicate CleanBetween<S, V(==)>(sc: Scope<S, V>, lo: nat, hi: nat)
    requires hi <= |sc.watchers|
  {
    forall k :: lo <= k < hi ==> Clean(sc, k)
  }

  predicate AllClean<S, V(==)>(sc: Scope<S, V>) {
    CleanBetween(sc, 0, |sc.watchers|)
  }

  /**
   * What the digest keeps true of `$$lastDirtyWatch` between passes: it names
   * a watcher, and every watcher after it is clean.
   */
  predicate LastDirtyInvariant<S, V(==)>(sc: Scope<S, V>) {
    sc.lastDirty.Some? ==>
      sc.lastDirty.value < |sc.watchers| && CleanBetween(sc, sc.lastDirty.value + 1, |sc.watchers|)
  }

  /** The same invariant part-way through a pass, before watcher `i` is visited. */
  predicate PassInvariant<S, V(==)>(sc: Scope<S, V>, i: nat)
    requires i <= |sc.watchers|
  {
    sc.lastDirty.Some? ==>
      if sc.lastDirty.value < i then CleanBetween(sc, sc.lastDirty.value + 1, i)
      else sc.lastDirty.value < |sc.watchers| && CleanBetween(sc, sc.lastDirty.value + 1, |sc.watchers|)
  }

  /** A reference pass with no short-circuit: every watcher is visited. */
  function FullPassFrom<S, V(==)>(sc: Scope<S, V>, i: nat): (r: PassResult<S, V>)
    requires i <= |sc.watchers|
    ensures |r.scope.watchers| == |sc.watchers|
    ensures r.dirty <==> |r.calls| > 0
    ensures !r.dirty ==> r.scope == sc
    ensures r.dirty ==> r.scope.lastDirty == Some(r.calls[|r.calls| - 1].watcher)
    ensures CallsWithin(r.calls, i, |sc.watchers|)
    decreases |sc.watchers| - i
  {
    if i == |sc.watchers| then
      PassResult(sc, false, [], 0)
    else
      var newValue := sc.watchers[i].watchFn(sc.data);
      if IsDirty(sc.watchers[i], newValue) then
        var (next, call) := Fire(sc, i, newValue);
        var rest := FullPassFrom(next, i + 1);
        PassResult(rest.scope, true, [call] + rest.calls, rest.evaluations + 1)
      else
        var rest := FullPassFrom(sc, i + 1);
        rest.(evaluations := rest.evaluations + 1)
  }

  function FullPass<S, V(==)>(sc: Scope<S, V>): PassResult<S, V> {
    FullPassFrom(sc, 0)
  }

  /** Two passes that leave the same scope, agree on `dirty` and call the same listeners. */
  ghost predicate Agree<S, V>(a: PassResult<S, V>, b: PassResult<S, V>) {
    a.scope == b.scope && a.dirty == b.dirty && a.calls == b.calls
  }

  // ---------------------------------------------------------------------------
  // Passes over clean watchers

  /** Over clean watchers the full pass changes nothing. */
  lemma {:induction false} FullPassOverClean<S, V>(sc: Scope<S, V>, i: nat)
    requires i <= |sc.watchers| && CleanBetween(sc, i, |sc.watchers|)
    ensures FullPassFrom(sc, i) == PassResult(sc, false, [], |sc.watchers| - i)
    decreases |sc.watchers| - i
  {
    if i < |sc.watchers| {
      assert Clean(sc, i);
      FullPassOverClean(sc, i + 1);
    }
  }

  /**
   * Over clean watchers that are not the last dirty watch, `$$digestOnce`
   * changes nothing and evaluates every one of them.
   */
  lemma {:induction false} DigestOnceOverClean<S, V>(sc: Scope<S, V>, i: nat)
    requires i <= |sc.watchers| && CleanBetween(sc, i, |sc.watchers|)
    requires sc.lastDirty.None? || sc.lastDirty.value < i
    ensures DigestOnceFrom(sc, i) == PassResult(sc, false, [], |sc.watchers| - i)
    decreases |sc.watchers| - i
  {
    if i < |sc.watchers| {
      assert Clean(sc, i);
      DigestOnceOverClean(sc, i + 1);
    }
  }

  /**
   * After a full pass from `i`, every watcher after the last one that fired is
   * clean; if none fired, every watcher from `i` on was clean already.
   */
  lemma {:induction false} FullPassSettles<S, V>(sc: Scope<S, V>, i: nat)
    requires i <= |sc.watchers|
    ensures var r := FullPassFrom(sc, i);
      && (r.dirty ==> CleanBetween(r.scope, r.calls[|r.calls| - 1].watcher + 1, |sc.watchers|))
      && (!r.dirty ==> CleanBetween(sc, i, |sc.watchers|))
    decreases |sc.watchers| - i
  {
    if i < |sc.watchers| {
      var newValue := sc.watchers[i].watchFn(sc.data);
      if IsDirty(sc.watchers[i], newValue) {
        var (next, call) := Fire(sc, i, newValue);
        FullPassSettles(next, i + 1);
      } else {
        FullPassSettles(sc, i + 1);
      }
    }
  }

  // ---------------------------------------------------------------------------
  // The short-circuit

  /** From any point of a pass where the invariant holds, the short-circuit pass agrees with the full one. */
  lemma {:induction false} ShortCircuitAgreesFrom<S, V>(sc: Scope<S, V>, i: nat)
    requires i <= |sc.watchers| && PassInvariant(sc, i)
    ensures Agree(DigestOnceFrom(sc, i), FullPassFrom(sc, i))
    decreases |sc.watchers| - i
  {
    if i < |sc.watchers| {
      var newValue := sc.watchers[i].watchFn(sc.data);
      if IsDirty(sc.watchers[i], newValue) {
        var (next, call) := Fire(sc, i, newValue);
        ShortCircuitAgreesFrom(next, i + 1);
      } else if sc.lastDirty == Some(i) {
        FullPassOverClean(sc, i + 1);
      } else {
        assert Clean(sc, i);
        assert PassInvariant(sc, i + 1);
        ShortCircuitAgreesFrom(sc, i + 1);
      }
    }
  }

  /**
   * The short-circuit never misses a dirty watcher: under the invariant the
   * digest keeps, `$$digestOnce` does exactly what a pass over every watcher
   * does, reports dirty exactly when some watcher was dirty, and leaves the
   * invariant true for the next pass.
   */
  lemma ShortCircuitIsSound<S, V>(sc: Scope<S, V>)
    requires LastDirtyInvariant(sc)
    ensures Agree(DigestOnce(sc), FullPass(sc))
    ensures DigestOnce(sc).dirty <==> !AllClean(sc)
    ensures LastDirtyInvariant(DigestOnce(sc).scope)
  {
    assert PassInvariant(sc, 0);
    ShortCircuitAgreesFrom(sc, 0);
    FullPassSettles(sc, 0);
    if AllClean(sc) {
      FullPassOverClean(sc, 0);
    }
  }

  // ---------------------------------------------------------------------------
  // What the listeners are given

  /** No call in `calls` is to watcher `k`. */
  predicate NotCalled<V>(calls: seq<Call<V>>, k: nat) {
    forall a :: 0 <= a < |calls| ==> calls[a].watcher != k
  }

  /** Each call was given as old value the last value its watcher had in `start`, or the new value for the sentinel. */
  predicate GivenOldValues<S, V(==)>(start: Scope<S, V>, calls: seq<Call<V>>) {
    forall a :: 0 <= a < |calls| ==>
      calls[a].watcher < |start.watchers|
      && calls[a].oldValue == OldValue(start.watchers[calls[a].watcher].last, calls[a].newValue)
  }

  /**
   * In a pass from watcher `i`, each listener is given as old value the last
   * value its watcher had when the pass began, or the new value when that was
   * the sentinel.
   */
  lemma {:induction false} PassOldValues<S, V>(sc: Scope<S, V>, i: nat)
    requires i <= |sc.watchers|
    ensures GivenOldValues(sc, DigestOnceFrom(sc, i).calls)
    decreases |sc.watchers| - i
  {
    if i < |sc.watchers| {
      var newValue := sc.watchers[i].watchFn(sc.data);
      if IsDirty(sc.watchers[i], newValue) {
        var (next, call) := Fire(sc, i, newValue);
        PassOldValues(next, i + 1);
        var rest := DigestOnceFrom(next, i + 1);
        var calls := [call] + rest.calls;
        assert DigestOnceFrom(sc, i).calls == calls;
        forall a | 0 <= a < |calls|
          ensures calls[a].watcher < |sc.watchers|
          ensures calls[a].oldValue == OldValue(sc.watchers[calls[a].watcher].last, calls[a].newValue)
        {
          if a > 0 {
            var c := rest.calls[a - 1];
            assert calls[a] == c;
            assert i + 1 <= c.watcher < |sc.watchers|;
            assert next.watchers[c.watcher] == sc.watchers[c.watcher];
          }
        }
      } else if sc.lastDirty != Some(i) {
        PassOldValues(sc, i + 1);
      }
    }
  }

  /** Every called watcher holds in `end` the new value it was given. */
  predicate StoredNewValues<S, V(==)>(end: Scope<S, V>, calls: seq<Call<V>>) {
    forall a :: 0 <= a < |calls| ==>
      calls[a].watcher < |end.watchers| && end.watchers[calls[a].watcher].last == Seen(calls[a].newValue)
  }

  /** Every watcher that was not called is the same in `start` and `end`. */
  ghost predicate LeftUncalled<S, V>(start: Scope<S, V>, end: Scope<S, V>, calls: seq<Call<V>>) {
    |end.watchers| == |start.watchers|
    && forall k :: 0 <= k < |start.watchers| && NotCalled(calls, k) ==> end.watchers[k] == start.watchers[k]
  }

  /** After a pass, every watcher whose listener ran holds the new value it was given as its last. */
  lemma {:induction false} PassStoresNewValues<S, V>(sc: Scope<S, V>, i: nat)
    requires i <= |sc.watchers|
    ensures StoredNewValues(DigestOnceFrom(sc, i).scope, DigestOnceFrom(sc, i).calls)
    decreases |sc.watchers| - i
  {
    if i < |sc.watchers| {
      var newValue := sc.watchers[i].watchFn(sc.data);
      if IsDirty(sc.watchers[i], newValue) {
        var (next, call) := Fire(sc, i, newValue);
        PassStoresNewValues(next, i + 1);
        var rest := DigestOnceFrom(next, i + 1);
        var calls := [call] + rest.calls;
        assert DigestOnceFrom(sc, i).scope == rest.scope && DigestOnceFrom(sc, i).calls == calls;
        forall a | 0 <= a < |calls|
          ensures calls[a].watcher < |rest.scope.watchers|
          ensures rest.scope.watchers[calls[a].watcher].last == Seen(calls[a].newValue)
        {
          if a > 0 {
            assert calls[a] == rest.calls[a - 1];
          } else {
            assert calls[0] == call;
            if rest.calls == [] {
              assert rest.scope == next;
            } else {
              assert rest.scope.watchers[i] == next.watchers[i];
            }
          }
        }
      } else if sc.lastDirty != Some(i) {
        PassStoresNewValues(sc, i + 1);
      }
    }
  }

  lemma NotCalledTail<V>(call: Call<V>, calls: seq<Call<V>>, k: nat)
    requires NotCalled([call] + calls, k)
    ensures call.watcher != k && NotCalled(calls, k)
  {
    assert ([call] + calls)[0] == call;
    forall a | 0 <= a < |calls| ensures calls[a].watcher != k {
      assert calls[a] == ([call] + calls)[a + 1];
    }
  }

  /** A pass leaves every watcher whose listener did not run as it was. */
  lemma {:induction false} PassLeavesOthers<S, V>(sc: Scope<S, V>, i: nat)
    requires i <= |sc.watchers|
    ensures LeftUncalled(sc, DigestOnceFrom(sc, i).scope, DigestOnceFrom(sc, i).calls)
    decreases |sc.watchers| - i
  {
    if i < |sc.watchers| {
      var newValue := sc.watchers[i].watchFn(sc.data);
      if IsDirty(sc.watchers[i], newValue) {
        var (next, call) := Fire(sc, i, newValue);
        PassLeavesOthers(next, i + 1);
        var rest := DigestOnceFrom(next, i + 1);
        var calls := [call] + rest.calls;
        assert DigestOnceFrom(sc, i).scope == rest.scope && DigestOnceFrom(sc, i).calls == calls;
        forall k | 0 <= k < |sc.watchers| && NotCalled(calls, k)
          ensures rest.scope.watchers[k] == sc.watchers[k]
        {
          NotCalledTail(call, rest.calls, k);
        }
      } else if sc.lastDirty != Some(i) {
        PassLeavesOthers(sc, i + 1);
      }
    }
  }

  /** On a watcher's first firing its listener is given the new value as the old one. */
  lemma FirstFiringSeesNewAsOld<S, V>(sc: Scope<S, V>, a: nat)
    requires a < |DigestOnce(sc).calls|
    requires sc.watchers[DigestOnce(sc).calls[a].watcher].last == Initial
    ensures DigestOnce(sc).calls[a].oldValue == DigestOnce(sc).calls[a].newValue
  {
    PassOldValues(sc, 0);
    assert GivenOldValues(sc, DigestOnce(sc).calls);
  }

  /**
   * Reaching watcher `i`, a pass runs its listener exactly when the watch
   * value differs from the watcher's last value, and then first of all, with
   * that value as the new one.
   */
  lemma VisitFiresIffChanged<S, V>(sc: Scope<S, V>, i: nat)
    requires i < |sc.watchers|
    ensures var newValue := sc.watchers[i].watchFn(sc.data);
      var calls := DigestOnceFrom(sc, i).calls;
      && (!NotCalled(calls, i) <==> IsDirty(sc.watchers[i], newValue))
      && (IsDirty(sc.watchers[i], newValue) ==> calls[0] == Call(i, newValue, OldValue(sc.watchers[i].last, newValue)))
  {
    var newValue := sc.watchers[i].watchFn(sc.data);
    if IsDirty(sc.watchers[i], newValue) {
      assert DigestOnceFrom(sc, i).calls[0].watcher == i;
    } else if sc.lastDirty != Some(i) {
      assert CallsWithin(DigestOnceFrom(sc, i).calls, i + 1, |sc.watchers|);
    }
  }

  /**
   * The invariant is needed: with a stale last dirty watch (one `$digest`
   * would have cleared) a pass can stop before a dirty watcher.
   */
  lemma StaleLastDirtyMissesWatcher()
    ensures var sc := Scope(0, [Watcher((x: int) => x, NoOpListener(), Seen(0)),
                                Watcher((x: int) => x, NoOpListener(), Initial)], Some(0));
      !LastDirtyInvariant(sc) && !DigestOnce(sc).dirty && FullPass(sc).dirty
  {
    var sc := Scope(0, [Watcher((x: int) => x, NoOpListener(), Seen(0)),
                        Watcher((x: int) => x, NoOpListener(), Initial)], Some(0));
    assert !Clean(sc, 1);
    assert DigestOnceFrom(sc, 0) == PassResult(sc, false, [], 1);
    assert IsDirty(sc.watchers[1], 0);
    assert FullPassFrom(sc, 1).dirty;
    assert FullPassFrom(sc, 0).dirty == FullPassFrom(sc, 1).dirty;
  }

  // ---------------------------------------------------------------------------
  // The digest loop

  /** Every pass keeps the invariant, so the clean pass that ends the loop leaves every watcher clean. */
  lemma {:induction false} LoopSettlesClean<S, V>(sc: Scope<S, V>, ttl: nat, passes: nat, evaluations: nat)
    requires 1 <= ttl && LastDirtyInvariant(sc)
    ensures var r := DigestLoop(sc, ttl, passes, evaluations);
      r.Settled? ==> AllClean(r.scope)
    decreases ttl
  {
    ShortCircuitIsSound(sc);
    var p := DigestOnce(sc);
    if p.dirty && ttl - 1 != 0 {
      LoopSettlesClean(p.scope, ttl - 1, passes + 1, evaluations + p.evaluations);
    }
  }

  /** A digest that returns normally leaves every watcher clean. */
  lemma SettledDigestIsClean<S, V>(sc: Scope<S, V>)
    ensures DigestScope(sc).Settled? ==> AllClean(DigestScope(sc).scope)
  {
    LoopSettlesClean(sc.(lastDirty := None), TTL, 0, 0);
  }

  /**
   * With pure watch functions and no change in between, a second digest after
   * one that returned normally runs no listener: one clean pass over every watcher.
   */
  lemma SecondDigestRunsNoListener<S, V>(sc: Scope<S, V>)
    requires DigestScope(sc).Settled?
    ensures var settled := DigestScope(sc).scope;
      && DigestOnce(settled.(lastDirty := None)).calls == []
      && DigestScope(settled) == Settled(settled.(lastDirty := None), 1, |settled.watchers|)
  {
    SettledDigestIsClean(sc);
    var settled := DigestScope(sc).scope;
    var reset := settled.(lastDirty := None);
    assert CleanBetween(reset, 0, |reset.watchers|) by {
      forall k | 0 <= k < |reset.watchers| ensures Clean(reset, k) {
        assert Clean(settled, k);
      }
    }
    DigestOnceOverClean(reset, 0);
  }

  /** Whether a pass from `sc` would run some listener. */
  predicate PassDirty<S, V(==)>(sc: Scope<S, V>) {
    DigestOnce(sc).dirty
  }

  /** The `n` passes from `sc` on, each starting where the previous one stopped, are all dirty. */
  predicate DirtyPasses<S, V(==)>(sc: Scope<S, V>, n: nat)
    decreases n
  {
    n == 0 || (PassDirty(sc) && DirtyPasses(DigestOnce(sc).scope, n - 1))
  }

  /** The loop with `ttl` passes left throws exactly when the next `ttl` passes are all dirty. */
  lemma {:induction false} GivesUpIffEveryPassDirty<S, V>(sc: Scope<S, V>, ttl: nat, passes: nat, evaluations: nat)
    requires 1 <= ttl
    ensures DigestLoop(sc, ttl, passes, evaluations).TooManyIterations? <==> DirtyPasses(sc, ttl)
    decreases ttl
  {
    var p := DigestOnce(sc);
    if p.dirty && ttl > 1 {
      GivesUpIffEveryPassDirty(p.scope, ttl - 1, passes + 1, evaluations + p.evaluations);
    }
  }

  /** `$digest` throws exactly when each of its ten passes was dirty. */
  lemma GivesUpAfterTenDirtyPasses<S, V>(sc: Scope<S, V>)
    ensures DigestScope(sc).TooManyIterations? <==> DirtyPasses(sc.(lastDirty := None), TTL)
  {
    GivesUpIffEveryPassDirty(sc.(lastDirty := None), TTL, 0, 0);
  }
}
