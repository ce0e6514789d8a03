/**
 * What the in-memory limiter knows about one key, how each call changes it, and how many
 * attempts a window lets through.
 */
module RateLimitWindows {
  import opened Arith
  import opened RateLimit
  import opened RateLimitLaws

  /** What a limiter knows about one key at one moment. */
  datatype View = Fresh | Counting(count: int, resetAt: int)

  function See(t: Table, key: string, now: int): View {
    if IsLive(t, key, now) then Counting(t.limits[key].count, t.limits[key].resetAt) else Fresh
  }

  function Wait(v: View, now: int): View {
    if v.Counting? && v.resetAt <= now then Fresh else v
  }

  /** One accepted or refused attempt, seen from its own key. */
  function Attempt(v: View, max: int, window: int, now: int): View {
    match v
    case Fresh => if window > 0 then Counting(1, now + window * 1000) else Fresh
    case Counting(n, resetAt) => if n >= max then v else Counting(n + 1, resetAt)
  }

  predicate Passes(v: View, max: int) {
    v.Fresh? || v.count < max
  }

  function Ok(t: Table, c: Call): bool {
    c.CheckCall? && Check(t, c.key, c.maxAttempts, c.windowSeconds, c.now).1.ok
  }

  /** The key's live entry is lost: evicted to make room, or reset. */
  function Dropped(t: Table, c: Call, key: string): bool {
    && IsLive(t, key, c.now)
    && if c.CheckCall? then key !in Evict(t, c.now).limits else c.key == key
  }

  function Surviving(t: Table, c: Call, key: string): View {
    if Dropped(t, c, key) then Fresh else See(t, key, c.now)
  }

  /** A call affects a key only through the key's own entry and the eviction. */
  lemma StepSeen(t: Table, c: Call, key: string)
    ensures var v := Surviving(t, c, key);
      && See(Step(t, c), key, c.now)
         == (if c.CheckCall? && c.key == key then Attempt(v, c.maxAttempts, c.windowSeconds, c.now) else v)
      && (c.CheckCall? && c.key == key ==> (Ok(t, c) <==> Passes(v, c.maxAttempts)))
  {
    EvictOnlyRemoves(t, c.now);
    hide Evict, Without;
  }

  lemma SeenLater(t: Table, key: string, lo: int, now: int)
    requires lo <= now
    ensures See(t, key, now) == Wait(See(t, key, lo), now)
  {}

  // ------------------------------------------------------------------ accepted attempts

  predicate Ordered(calls: seq<Call>, lo: int) {
    calls == [] || (lo <= calls[0].now && Ordered(calls[1..], calls[0].now))
  }

  predicate Until(calls: seq<Call>, hi: int) {
    forall i :: 0 <= i < |calls| ==> calls[i].now <= hi
  }

  /** Every check of the key asks for the same limit and window. */
  predicate SamePolicy(calls: seq<Call>, key: string, max: int, window: int) {
    forall i :: 0 <= i < |calls| && calls[i].CheckCall? && calls[i].key == key ==>
      calls[i].maxAttempts == max && calls[i].windowSeconds == window
  }

  function Accepted(t: Table, calls: seq<Call>, key: string): nat
    decreases calls
  {
    if calls == [] then 0
    else (if calls[0].key == key && Ok(t, calls[0]) then 1 else 0) + Accepted(Step(t, calls[0]), calls[1..], key)
  }

  function Drops(t: Table, calls: seq<Call>, key: string): nat
    decreases calls
  {
    if calls == [] then 0
    else (if Dropped(t, calls[0], key) then 1 else 0) + Drops(Step(t, calls[0]), calls[1..], key)
  }

  /** What the key may still be granted until `hi`, standing at time `now`. */
  function Budget(v: View, cap: nat, span: int, now: int, hi: int): nat {
    match v
    case Fresh => if now + span > hi then cap else cap + cap
    case Counting(n, resetAt) => Max(0, cap - n) + (if resetAt <= hi then cap else 0)
  }

  predicate Fits(v: View, span: int, now: int) {
    v.Counting? ==> v.count >= 1 && v.resetAt <= now + span
  }

  lemma WaitingCostsNothing(v: View, cap: nat, span: int, lo: int, now: int, hi: int)
    requires lo <= now <= hi <= lo + span && Fits(v, span, lo)
    requires Wait(v, lo) == v
    ensures Budget(Wait(v, now), cap, span, now, hi) <= Budget(v, cap, span, lo, hi)
    ensures Fits(Wait(v, now), span, now)
  {}

  lemma DropCostsOneCap(v: View, cap: nat, span: int, now: int, hi: int)
    requires Fits(v, span, now)
    ensures Budget(Fresh, cap, span, now, hi) <= Budget(v, cap, span, now, hi) + cap
  {}

  lemma AttemptSpendsBudget(v: View, max: int, window: int, now: int, hi: int)
    requires window > 0 && Fits(v, window * 1000, now) && now <= hi
    ensures var w := Attempt(v, max, window, now);
      && Fits(w, window * 1000, now)
      && Budget(w, Max(max, 1), window * 1000, now, hi) + (if Passes(v, max) then 1 else 0)
         <= Budget(v, Max(max, 1), window * 1000, now, hi)
  {}

  lemma StepSpendsBudget(t: Table, c: Call, key: string, max: int, window: int, lo: int, hi: int)
    requires window > 0 && lo <= c.now <= hi <= lo + window * 1000
    requires Fits(See(t, key, lo), window * 1000, lo)
    requires SamePolicy([c], key, max, window)
    ensures Fits(See(Step(t, c), key, c.now), window * 1000, c.now)
    ensures Budget(See(Step(t, c), key, c.now), Max(max, 1), window * 1000, c.now, hi)
              + (if c.key == key && Ok(t, c) then 1 else 0)
         <= Budget(See(t, key, lo), Max(max, 1), window * 1000, lo, hi)
              + (if Dropped(t, c, key) then Max(max, 1) else 0)
  {
    hide Step, Dropped, Budget, Attempt;
    var cap, span := Max(max, 1), window * 1000;
    assert [c][0] == c;
    SeenLater(t, key, lo, c.now);
    WaitingCostsNothing(See(t, key, lo), cap, span, lo, c.now, hi);
    DropCostsOneCap(See(t, key, c.now), cap, span, c.now, hi);
    StepSeen(t, c, key);
    AttemptSpendsBudget(Surviving(t, c, key), max, window, c.now, hi);
  }

  lemma {:induction false} BudgetCoversRun(
      t: Table, calls: seq<Call>, key: string, max: int, window: int, lo: int, hi: int)
    requires window > 0 && hi <= lo + window * 1000
    requires Ordered(calls, lo) && Until(calls, hi) && SamePolicy(calls, key, max, window)
    requires Fits(See(t, key, lo), window * 1000, lo)
    ensures Accepted(t, calls, key)
         <= Budget(See(t, key, lo), Max(max, 1), window * 1000, lo, hi) + Drops(t, calls, key) * Max(max, 1)
    decreases calls
  {
    hide Step, Budget, See, Fits, Dropped, Ok;
    if calls == [] {
    } else {
      var c, rest, cap := calls[0], calls[1..], Max(max, 1);
      assert SamePolicy([c], key, max, window);
      StepSpendsBudget(t, c, key, max, window, lo, hi);
      BudgetCoversRun(Step(t, c), rest, key, max, window, c.now, hi);
      var d := if Dropped(t, c, key) then 1 else 0;
      assert Drops(t, calls, key) == d + Drops(Step(t, c), rest, key);
      Distribute(d, Drops(Step(t, c), rest, key), cap);
    }
  }

  lemma {:induction false} RunFits(t: Table, calls: seq<Call>, key: string, max: int, window: int, lo: int, hi: int)
    requires window > 0 && lo <= hi
    requires Ordered(calls, lo) && Until(calls, hi) && SamePolicy(calls, key, max, window)
    requires Fits(See(t, key, lo), window * 1000, lo)
    ensures Fits(See(Run(t, calls), key, hi), window * 1000, hi)
    decreases calls
  {
    hide Step, Dropped;
    if calls == [] {
      SeenLater(t, key, lo, hi);
    } else {
      var c := calls[0];
      SeenLater(t, key, lo, c.now);
      StepSeen(t, c, key);
      RunFits(Step(t, c), calls[1..], key, max, window, c.now, hi);
    }
  }

  /**
   * After any history, a closed interval of one window length accepts at most two
   * limits' worth of attempts, and one more for each time the key's entry is
   * evicted or reset in it. A limit below one still lets one attempt through.
   */
  lemma AcceptedPerWindow(
      history: seq<Call>, calls: seq<Call>, key: string, max: int, window: int, start: int, lo: int, hi: int)
    requires window > 0 && start <= lo <= hi <= lo + window * 1000
    requires Ordered(history, start) && Until(history, lo) && SamePolicy(history, key, max, window)
    requires Ordered(calls, lo) && Until(calls, hi) && SamePolicy(calls, key, max, window)
    ensures Accepted(Run(EMPTY, history), calls, key)
         <= (2 + Drops(Run(EMPTY, history), calls, key)) * Max(max, 1)
  {
    hide Step, Run, Drops, Accepted, Ordered, Until, SamePolicy;
    var t := Run(EMPTY, history);
    RunFits(EMPTY, history, key, max, window, start, lo);
    BudgetCoversRun(t, calls, key, max, window, lo, hi);
    Distribute(2, Drops(t, calls, key), Max(max, 1));
  }

  /** The bound is met: one attempt at each end of a closed window. */
  lemma WindowBoundIsReached(key: string)
    ensures Accepted(EMPTY, [CheckCall(key, 1, 1, 0), CheckCall(key, 1, 1, 1000)], key) == 2
  {
    var a, b := CheckCall(key, 1, 1, 0), CheckCall(key, 1, 1, 1000);
    assert [a, b][1..] == [b];
    StepSeen(EMPTY, a, key);
    var t := Step(EMPTY, a);
    StepSeen(t, b, key);
    SeenLater(t, key, 0, 1000);
    assert Accepted(Step(t, b), [], key) == 0;
    assert Accepted(t, [b], key) == 1;
  }
}
