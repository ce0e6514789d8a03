/**
 * The fixed-window rate limiter (`src/lib/rateLimit.ts`): the in-memory map with
 * expiry and capped eviction, and the shared counter it has to agree with.
 */
module RateLimit {
  import opened Arith
  import opened Sorting

  const MAX_TRACKED_KEYS: nat := 20000

  datatype Entry = Entry(count: int, resetAt: int)

  datatype Answer = Answer(ok: bool, remaining: int)

  /** A JavaScript Map: its entries, and its keys in insertion order. */
  datatype Table = Table(order: seq<string>, limits: map<string, Entry>)

  predicate Distinct(keys: seq<string>) {
    forall i, j :: 0 <= i < j < |keys| ==> keys[i] != keys[j]
  }

  ghost predicate Consistent(t: Table) {
    && Distinct(t.order)
    && (forall k :: k in t.order <==> k in t.limits)
  }

  function Without(keys: seq<string>, gone: set<string>): seq<string> {
    if keys == [] then []
    else (if keys[0] in gone then [] else [keys[0]]) + Without(keys[1..], gone)
  }

  /** `Map.delete` of several keys. */
  function Delete(t: Table, gone: set<string>): Table {
    Table(Without(t.order, gone), t.limits - gone)
  }

  /** `Map.set`: a key already present keeps its place. */
  function Put(t: Table, key: string, entry: Entry): Table {
    Table(if key in t.limits then t.order else t.order + [key], t.limits[key := entry])
  }

  function Expired(t: Table, now: int): set<string> {
    set k | k in t.limits && t.limits[k].resetAt <= now
  }

  predicate IsLive(t: Table, key: string, now: int) {
    key in t.limits && t.limits[key].resetAt > now
  }

  /** Reset time for ordering; keys outside the table do not occur. */
  function ResetAt(limits: map<string, Entry>, key: string): int {
    if key in limits then limits[key].resetAt else 0
  }

  function SoonerReset(limits: map<string, Entry>): (string, string) -> bool {
    (a: string, b: string) => ResetAt(limits, a) <= ResetAt(limits, b)
  }

  function Soonest(t: Table, dropCount: int): seq<string> {
    var sorted := Sort(t.order, SoonerReset(t.limits));
    sorted[..Max(0, Min(dropCount, |sorted|))]
  }

  function Elements(keys: seq<string>): set<string> {
    set k | k in keys
  }

  function Evict(t: Table, now: int): Table {
    if |t.limits| < MAX_TRACKED_KEYS then t
    else
      var purged := Delete(t, Expired(t, now));
      if |purged.limits| < MAX_TRACKED_KEYS then purged
      else Delete(purged, Elements(Soonest(purged, |purged.limits| - MAX_TRACKED_KEYS + 1)))
  }

  function Check(t: Table, key: string, maxAttempts: int, windowSeconds: int, now: int): (Table, Answer) {
    var e := Evict(t, now);
    if !IsLive(e, key, now) then
      (Put(e, key, Entry(1, now + windowSeconds * 1000)), Answer(true, maxAttempts - 1))
    else if e.limits[key].count >= maxAttempts then (e, Answer(false, 0))
    else
      var n := e.limits[key].count + 1;
      (Put(e, key, e.limits[key].(count := n)), Answer(true, maxAttempts - n))
  }

  function Reset(t: Table, key: string): Table {
    Delete(t, {key})
  }

  // ------------------------------------------------------------------- the mutable map

  class MemoryBackend {
    var order: seq<string>
    var limits: map<string, Entry>

    function State(): Table
      reads this
    {
      Table(order, limits)
    }

    constructor ()
      ensures State() == Table([], map[])
    {
      order, limits := [], map[];
    }

    method DeleteKey(key: string)
      modifies this
      ensures State() == Delete(old(State()), {key})
    {
      order, limits := Without(order, {key}), limits - {key};
    }

    /** First pass of the eviction: the expired entries go. */
    method PurgeExpired(now: int)
      requires Consistent(State())
      modifies this
      ensures State() == Delete(old(State()), Expired(old(State()), now))
    {
      hide Without;
      ghost var before := State();
      ghost var gone: set<string> := {};
      DeleteNothing(before);
      var keys := order;
      for i := 0 to |keys|
        invariant State() == Delete(before, gone)
        invariant gone <= Expired(before, now)
        invariant forall j :: 0 <= j < i && keys[j] in Expired(before, now) ==> keys[j] in gone
        invariant forall j :: i <= j < |keys| ==> keys[j] !in gone
      {
        if limits[keys[i]].resetAt <= now {
          DeleteTwice(before, gone, {keys[i]});
          gone := gone + {keys[i]};
          DeleteKey(keys[i]);
        }
      }
      assert gone == Expired(before, now);
    }

    /** Second pass: the entries that reset soonest go. */
    method DropSoonest(dropCount: int)
      modifies this
      ensures State() == Delete(old(State()), Elements(Soonest(old(State()), dropCount)))
    {
      ghost var before := State();
      DeleteNothing(before);
      var sorted := Sort(order, SoonerReset(limits));
      var i := 0;
      while i < dropCount && i < |sorted|
        invariant 0 <= i <= Max(0, Min(dropCount, |sorted|))
        invariant State() == Delete(before, Elements(sorted[..i]))
      {
        assert Elements(sorted[..i + 1]) == Elements(sorted[..i]) + {sorted[i]};
        DeleteTwice(before, Elements(sorted[..i]), {sorted[i]});
        DeleteKey(sorted[i]);
        i := i + 1;
      }
    }

    method EvictIfNeeded(now: int)
      requires Consistent(State())
      modifies this
      ensures State() == Evict(old(State()), now)
    {
      hide Delete, Expired, Soonest, Elements;
      if |limits| < MAX_TRACKED_KEYS { return; }
      PurgeExpired(now);
      if |limits| < MAX_TRACKED_KEYS { return; }
      DropSoonest(|limits| - MAX_TRACKED_KEYS + 1);
    }

    method CheckKey(key: string, maxAttempts: int, windowSeconds: int, now: int) returns (answer: Answer)
      requires Consistent(State())
      modifies this
      ensures (State(), answer) == Check(old(State()), key, maxAttempts, windowSeconds, now)
    {
      EvictIfNeeded(now);
      if key !in limits || limits[key].resetAt <= now {
        if key !in limits { order := order + [key]; }
        limits := limits[key := Entry(1, now + windowSeconds * 1000)];
        return Answer(true, maxAttempts - 1);
      }
      var existing := limits[key];
      if existing.count >= maxAttempts {
        return Answer(false, 0);
      }
      existing := existing.(count := existing.count + 1);
      limits := limits[key := existing];
      return Answer(true, maxAttempts - existing.count);
    }

    method ResetKey(key: string)
      modifies this
      ensures State() == Reset(old(State()), key)
    {
      DeleteKey(key);
    }
  }

  lemma WithoutStep(key: string, rest: seq<string>, gone: set<string>)
    ensures Without([key] + rest, gone) == (if key in gone then [] else [key]) + Without(rest, gone)
  {
    assert ([key] + rest)[1..] == rest;
  }

  lemma {:induction false} WithoutTwice(keys: seq<string>, a: set<string>, b: set<string>)
    ensures Without(Without(keys, a), b) == Without(keys, a + b)
  {
    if keys != [] {
      WithoutTwice(keys[1..], a, b);
      WithoutStep(keys[0], Without(keys[1..], a), b);
      assert [] + Without(keys[1..], a) == Without(keys[1..], a);
    }
  }

  lemma DeleteTwice(t: Table, a: set<string>, b: set<string>)
    ensures Delete(Delete(t, a), b) == Delete(t, a + b)
  {
    WithoutTwice(t.order, a, b);
    assert t.limits - a - b == t.limits - (a + b);
  }

  lemma {:induction false} WithoutNothing(keys: seq<string>)
    ensures Without(keys, {}) == keys
  {
    if keys != [] { WithoutNothing(keys[1..]); }
  }

  lemma DeleteNothing(t: Table)
    ensures Delete(t, {}) == t && Elements([]) == {}
  {
    WithoutNothing(t.order);
    assert Elements([]) == {};
    assert t.limits - {} == t.limits;
  }
}
