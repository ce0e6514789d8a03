/**
 * What the rate limiter promises of its table over whole runs: a bounded size, and an
 * eviction that drops the entries nearest to expiry.
 */
module RateLimitLaws {
  import opened Arith
  import opened Sorting
  import opened RateLimit

  datatype Call =
    | CheckCall(key: string, maxAttempts: int, windowSeconds: int, now: int)
    | ResetCall(key: string, now: int)

  const EMPTY := Table([], map[])

  function Step(t: Table, c: Call): Table {
    match c
    case CheckCall(key, max, window, now) => Check(t, key, max, window, now).0
    case ResetCall(key, _) => Reset(t, key)
  }

  function Run(t: Table, calls: seq<Call>): Table
    decreases calls
  {
    if calls == [] then t else Run(Step(t, calls[0]), calls[1..])
  }

  // ------------------------------------------------------------------ size

  lemma {:induction false} WithoutKeeps(keys: seq<string>, gone: set<string>)
    requires Distinct(keys)
    ensures Distinct(Without(keys, gone))
    ensures forall k :: k in Without(keys, gone) <==> k in keys && k !in gone
  {
    if keys != [] { WithoutKeeps(keys[1..], gone); }
  }

  lemma DeleteIsConsistent(t: Table, gone: set<string>)
    requires Consistent(t)
    ensures Consistent(Delete(t, gone))
  {
    WithoutKeeps(t.order, gone);
  }

  lemma PutIsConsistent(t: Table, key: string, entry: Entry)
    requires Consistent(t)
    ensures Consistent(Put(t, key, entry)) && |Put(t, key, entry).limits| <= |t.limits| + 1
  {
    assert t.limits[key := entry].Keys == t.limits.Keys + {key};
  }

  lemma {:induction false} DistinctElements(keys: seq<string>)
    requires Distinct(keys)
    ensures |Elements(keys)| == |keys|
  {
    if keys != [] {
      var n := |keys| - 1;
      DistinctElements(keys[..n]);
      assert Elements(keys) == Elements(keys[..n]) + {keys[n]};
    }
  }

  lemma {:induction false} DistinctIsMultiplicity(keys: seq<string>)
    ensures Distinct(keys) <==> forall k :: multiset(keys)[k] <= 1
  {
    if keys != [] {
      var x, rest := keys[0], keys[1..];
      DistinctIsMultiplicity(rest);
      assert keys == [x] + rest;
      assert multiset(keys) == multiset{x} + multiset(rest);
      if Distinct(keys) {
        assert x !in multiset(rest);
      } else if Distinct(rest) {
        var i, j :| 0 <= i < j < |keys| && keys[i] == keys[j];
        assert i == 0 && x == rest[j - 1];
        assert multiset(keys)[x] >= 2;
      } else {
        var k :| multiset(rest)[k] > 1;
        assert multiset(keys)[k] > 1;
      }
    }
  }

  lemma SoonerResetOrders(limits: map<string, Entry>)
    ensures TotalPreorder(SoonerReset(limits))
  {}

  lemma SortedKeys(t: Table)
    requires Consistent(t)
    ensures var sorted := Sort(t.order, SoonerReset(t.limits));
      && Distinct(sorted) && Elements(sorted) == t.limits.Keys
      && Sorted(sorted, SoonerReset(t.limits)) && |sorted| == |t.limits|
  {
    var sorted := Sort(t.order, SoonerReset(t.limits));
    SoonerResetOrders(t.limits);
    SortIsSortedPermutation(t.order, SoonerReset(t.limits));
    DistinctIsMultiplicity(t.order);
    DistinctIsMultiplicity(sorted);
    DistinctElements(sorted);
    forall k ensures k in sorted <==> k in t.limits {
      assert k in sorted <==> k in multiset(sorted);
      assert k in t.order <==> k in multiset(t.order);
    }
    assert Elements(sorted) == t.limits.Keys;
  }

  lemma SoonestKeys(t: Table, n: nat)
    requires Consistent(t) && n <= |t.limits|
    ensures |Elements(Soonest(t, n))| == n && Elements(Soonest(t, n)) <= t.limits.Keys
    ensures |Delete(t, Elements(Soonest(t, n))).limits| == |t.limits| - n
  {
    SortedKeys(t);
    DistinctElements(Soonest(t, n));
    var gone := Elements(Soonest(t, n));
    assert (t.limits - gone).Keys == t.limits.Keys - gone;
  }

  function Purged(t: Table, now: int): Table {
    Delete(t, Expired(t, now))
  }

  /** Eviction leaves room for one more key and removes no more than that takes. */
  lemma EvictMakesRoom(t: Table, now: int)
    requires Consistent(t)
    ensures var e := Evict(t, now);
      && Consistent(e)
      && |e.limits| == (if |t.limits| < MAX_TRACKED_KEYS then |t.limits|
                        else Min(|Purged(t, now).limits|, MAX_TRACKED_KEYS - 1))
  {
    hide Delete, Elements, Soonest, Expired, Consistent;
    var purged := Purged(t, now);
    DeleteIsConsistent(t, Expired(t, now));
    if |t.limits| >= MAX_TRACKED_KEYS && |purged.limits| >= MAX_TRACKED_KEYS {
      var n := |purged.limits| - MAX_TRACKED_KEYS + 1;
      SoonestKeys(purged, n);
      DeleteIsConsistent(purged, Elements(Soonest(purged, n)));
    }
  }

  lemma CheckStaysBounded(t: Table, key: string, max: int, window: int, now: int)
    requires Consistent(t) && |t.limits| <= MAX_TRACKED_KEYS
    ensures var u := Check(t, key, max, window, now).0; Consistent(u) && |u.limits| <= MAX_TRACKED_KEYS
  {
    hide Evict, Consistent, Put;
    EvictMakesRoom(t, now);
    var e := Evict(t, now);
    if !IsLive(e, key, now) {
      PutIsConsistent(e, key, Entry(1, now + window * 1000));
    } else {
      PutIsConsistent(e, key, e.limits[key].(count := e.limits[key].count + 1));
    }
  }

  lemma ResetStaysBounded(t: Table, key: string)
    requires Consistent(t) && |t.limits| <= MAX_TRACKED_KEYS
    ensures Consistent(Reset(t, key)) && |Reset(t, key).limits| <= MAX_TRACKED_KEYS
  {
    DeleteIsConsistent(t, {key});
    SubsetSize((t.limits - {key}).Keys, t.limits.Keys);
  }

  lemma StepStaysBounded(t: Table, c: Call)
    requires Consistent(t) && |t.limits| <= MAX_TRACKED_KEYS
    ensures Consistent(Step(t, c)) && |Step(t, c).limits| <= MAX_TRACKED_KEYS
  {
    hide Check, Reset, Consistent;
    match c {
      case CheckCall(key, max, window, now) => CheckStaysBounded(t, key, max, window, now);
      case ResetCall(key, _) => ResetStaysBounded(t, key);
    }
  }

  lemma {:induction false} SubsetSize(a: set<string>, b: set<string>)
    requires a <= b
    ensures |a| <= |b|
  {
    assert b == a + (b - a);
  }

  /** Whatever is checked and reset, the table never holds more than the cap. */
  lemma {:induction false} TableStaysBounded(t: Table, calls: seq<Call>)
    requires Consistent(t) && |t.limits| <= MAX_TRACKED_KEYS
    ensures Consistent(Run(t, calls)) && |Run(t, calls).limits| <= 20_000
    decreases calls
  {
    hide Step, Consistent;
    if calls != [] {
      StepStaysBounded(t, calls[0]);
      TableStaysBounded(Step(t, calls[0]), calls[1..]);
    }
  }

  // ------------------------------------------------------------------ eviction

  /** Survivors are untouched, and nothing goes while there is room. */
  lemma EvictOnlyRemoves(t: Table, now: int)
    ensures Evict(t, now).limits.Keys <= t.limits.Keys
    ensures forall k :: k in Evict(t, now).limits ==> Evict(t, now).limits[k] == t.limits[k]
    ensures |t.limits| < MAX_TRACKED_KEYS ==> Evict(t, now) == t
  {}

  lemma PlacedSoonest(t: Table, n: nat, j: nat)
    requires j < |t.order|
    ensures j < n ==> Sort(t.order, SoonerReset(t.limits))[j] in Elements(Soonest(t, n))
  {
    assert j < n ==> Sort(t.order, SoonerReset(t.limits))[j] == Soonest(t, n)[j];
  }

  lemma SoonestGoFirst(t: Table, n: nat, dropped: string, kept: string)
    requires Consistent(t) && n <= |t.limits|
    requires dropped in Elements(Soonest(t, n)) && kept in t.limits && kept !in Elements(Soonest(t, n))
    ensures dropped in t.limits && t.limits[dropped].resetAt <= t.limits[kept].resetAt
  {
    var sorted := Sort(t.order, SoonerReset(t.limits));
    SortedKeys(t);
    var i :| 0 <= i < n && sorted[i] == dropped;
    assert dropped in Elements(sorted) && kept in Elements(sorted);
    var j :| 0 <= j < |sorted| && sorted[j] == kept;
    PlacedSoonest(t, n, j);
    assert SoonerReset(t.limits)(sorted[i], sorted[j]);
  }

  /**
   * A live entry is only dropped when purging the expired ones was not enough,
   * and then it resets no later than any entry that stays.
   */
  lemma LiveDropsAreSoonest(t: Table, now: int, dropped: string, kept: string)
    requires Consistent(t)
    requires IsLive(t, dropped, now) && dropped !in Evict(t, now).limits && kept in Evict(t, now).limits
    ensures |t.limits| >= MAX_TRACKED_KEYS && |Purged(t, now).limits| >= MAX_TRACKED_KEYS
    ensures now < t.limits[dropped].resetAt <= t.limits[kept].resetAt
  {
    hide Soonest, Consistent, Elements, Without;
    var purged := Purged(t, now);
    DeleteIsConsistent(t, Expired(t, now));
    assert dropped in purged.limits;
    SoonestGoFirst(purged, |purged.limits| - MAX_TRACKED_KEYS + 1, dropped, kept);
  }

  /**
   * On a full table of live entries even a check of a tracked key drops one entry,
   * the one that resets soonest: when it is the checked key itself, a caller over the
   * limit is let through.
   */
  lemma FullTableForgivesSoonest(t: Table, max: int, window: int, now: int)
    requires Consistent(t) && |t.limits| == MAX_TRACKED_KEYS && Expired(t, now) == {}
    ensures |t.order| > 0
    ensures var first := Sort(t.order, SoonerReset(t.limits))[0];
      && Evict(t, now).limits.Keys == t.limits.Keys - {first}
      && Check(t, first, max, window, now).1 == Answer(true, max - 1)
  {
    SortedKeys(t);
    FirstOfFullTable(t);
    DeleteNothing(t);
    hide Sort, Elements, Soonest, Without;
    assert Evict(t, now) == Delete(t, Elements(Soonest(t, 1)));
  }

  lemma FirstOfFullTable(t: Table)
    requires Consistent(t) && |t.order| > 0
    ensures Elements(Soonest(t, 1)) == {Sort(t.order, SoonerReset(t.limits))[0]}
  {
    var sorted := Sort(t.order, SoonerReset(t.limits));
    assert Soonest(t, 1) == sorted[..1] == [sorted[0]];
  }

  /** A table that has to make room keeps no entry whose window is over. */
  lemma ExpiredGo(t: Table, now: int)
    requires |t.limits| >= 20_000
    ensures forall k :: k in Evict(t, now).limits ==> k in t.limits && t.limits[k].resetAt > now
  {
    hide Without, Soonest, Elements;
  }

  lemma WithoutElsewhere(keys: seq<string>, a: set<string>, b: set<string>)
    requires forall k :: k in keys ==> (k in a <==> k in b)
    ensures Without(keys, a) == Without(keys, b)
  {}

  lemma EvictedOrder(t: Table, now: int)
    requires Consistent(t)
    ensures Evict(t, now).order == Without(t.order, t.limits.Keys - Evict(t, now).limits.Keys)
  {
    var purged := Purged(t, now);
    var dropped := Elements(Soonest(purged, |purged.limits| - MAX_TRACKED_KEYS + 1));
    var gone := t.limits.Keys - Evict(t, now).limits.Keys;
    hide Without, Soonest, Elements;
    WithoutNothing(t.order);
    WithoutTwice(t.order, Expired(t, now), dropped);
    if |t.limits| < MAX_TRACKED_KEYS {
      assert gone == {};
    } else if |purged.limits| < MAX_TRACKED_KEYS {
      WithoutElsewhere(t.order, Expired(t, now), gone);
    } else {
      WithoutElsewhere(t.order, Expired(t, now) + dropped, gone);
    }
  }

  /** The keys stay in the order they came, and a new one goes last. */
  lemma NewKeysGoLast(t: Table, key: string, max: int, window: int, now: int)
    requires Consistent(t)
    ensures var kept := Evict(t, now).limits.Keys;
      Check(t, key, max, window, now).0.order
      == Without(t.order, t.limits.Keys - kept) + if key in kept then [] else [key]
  {
    hide Evict, Without;
    EvictedOrder(t, now);
  }
}
