/**
 * The shared counter behind the Redis backend, and how far the in-memory limiter
 * agrees with it. A counter past its expiry is absent, so the increment starts at one
 * and sets a new expiry.
 */
module RateLimitShared {
  import opened Arith
  import opened RateLimit
  import opened RateLimitLaws
  import opened RateLimitWindows

  datatype Counter = Counter(count: int, expireAt: int)

  type Store = map<string, Counter>

  function SeeShared(s: Store, key: string, now: int): View {
    if key in s && s[key].expireAt > now then Counting(s[key].count, s[key].expireAt) else Fresh
  }

  function SharedStep(s: Store, c: Call): Store {
    match c
    case CheckCall(key, _, window, now) =>
      (match SeeShared(s, key, now)
       case Fresh => s[key := Counter(1, now + window * 1000)]
       case Counting(n, expireAt) => s[key := Counter(n + 1, expireAt)])
    case ResetCall(key, _) => s - {key}
  }

  function SharedAnswer(s: Store, key: string, max: int, now: int): Answer {
    var v := SeeShared(s, key, now);
    var count := if v.Fresh? then 1 else v.count + 1;
    if count > max then Answer(false, 0) else Answer(true, max - count)
  }

  function MemoryAnswer(t: Table, c: Call): Answer
    requires c.CheckCall?
  {
    Check(t, c.key, c.maxAttempts, c.windowSeconds, c.now).1
  }

  /**
   * Both windows are closed, or both run to the same time and the in-memory count,
   * which refused attempts do not raise, is the smaller one.
   */
  predicate Agrees(v: View, w: View) {
    match v
    case Fresh => w.Fresh?
    case Counting(m, resetAt) => w.Counting? && w.resetAt == resetAt && 1 <= m <= w.count
  }

  /** And it is strictly smaller exactly for a key that has refused an attempt in its window. */
  predicate AgreeOn(t: Table, s: Store, key: string, refused: set<string>, now: int) {
    && Agrees(See(t, key, now), SeeShared(s, key, now))
    && (See(t, key, now).Counting? ==> (key in refused <==> See(t, key, now).count < SeeShared(s, key, now).count))
  }

  /** The key was evicted while its window ran, and the shared window still runs until `lost[key]`. */
  predicate LostOn(t: Table, s: Store, key: string, until: int, now: int) {
    && See(t, key, now).Fresh?
    && SeeShared(s, key, now).Counting? && SeeShared(s, key, now).count >= 1 && SeeShared(s, key, now).resetAt == until
  }

  predicate Running(lost: map<string, int>, key: string, now: int) {
    key in lost && lost[key] > now
  }

  predicate RelatedOn(t: Table, s: Store, key: string, refused: set<string>, lost: map<string, int>, now: int) {
    if Running(lost, key, now) then LostOn(t, s, key, lost[key], now) else AgreeOn(t, s, key, refused, now)
  }

  ghost predicate Related(t: Table, s: Store, refused: set<string>, lost: map<string, int>, now: int) {
    forall key :: RelatedOn(t, s, key, refused, lost, now)
  }

  /** The evicted keys with the end of their old windows, once this call has made room for itself. */
  function LostNow(t: Table, c: Call, lost: map<string, int>): map<string, int> {
    if c.ResetCall? then lost
    else
      lost + map k | k in t.limits && IsLive(t, k, c.now) && k !in Evict(t, c.now).limits :: t.limits[k].resetAt
  }

  function LostAfter(t: Table, c: Call, lost: map<string, int>): map<string, int> {
    LostNow(t, c, lost) - {c.key}
  }

  /** The keys that have refused an attempt in their current window, after one more call. */
  function RefusedAfter(t: Table, c: Call, refused: set<string>): set<string> {
    if c.ResetCall? || See(t, c.key, c.now).Fresh? then refused - {c.key}
    else if See(t, c.key, c.now).count >= c.maxAttempts then refused + {c.key}
    else refused
  }

  /** Making room for this call does not cost this key its live entry. */
  predicate Spares(t: Table, c: Call, key: string) {
    c.CheckCall? && IsLive(t, key, c.now) ==> key in Evict(t, c.now).limits
  }

  predicate OneLimitPerKey(calls: seq<Call>, limit: string -> int) {
    forall i :: 0 <= i < |calls| && calls[i].CheckCall? ==> calls[i].maxAttempts == limit(calls[i].key)
  }

  function Answers(t: Table, calls: seq<Call>): seq<Answer>
    decreases calls
  {
    if calls == [] then []
    else (if calls[0].CheckCall? then [MemoryAnswer(t, calls[0])] else []) + Answers(Step(t, calls[0]), calls[1..])
  }

  function SharedAnswers(s: Store, calls: seq<Call>): seq<Answer>
    decreases calls
  {
    if calls == [] then []
    else
      var c := calls[0];
      (if c.CheckCall? then [SharedAnswer(s, c.key, c.maxAttempts, c.now)] else [])
      + SharedAnswers(SharedStep(s, c), calls[1..])
  }

  /**
   * What a call may ask for: at least one attempt to open a window, and, once an attempt
   * was refused in a window, no more than were accepted in it.
   */
  predicate WithinTerms(t: Table, c: Call, refused: set<string>) {
    c.CheckCall? ==>
      (match See(t, c.key, c.now)
       case Fresh => c.maxAttempts >= 1
       case Counting(n, _) => c.key in refused ==> c.maxAttempts <= n)
  }

  /** The call checks a key that was evicted, just now or before, while its old window still runs. */
  predicate ChecksLost(t: Table, c: Call, lost: map<string, int>) {
    c.CheckCall? && Running(LostNow(t, c, lost), c.key, c.now)
  }

  predicate AllWithinTerms(t: Table, calls: seq<Call>, refused: set<string>, lost: map<string, int>)
    decreases calls
  {
    calls == []
    || (!ChecksLost(t, calls[0], lost) && WithinTerms(t, calls[0], refused)
        && AllWithinTerms(
             Step(t, calls[0]), calls[1..], RefusedAfter(t, calls[0], refused), LostAfter(t, calls[0], lost)))
  }

  /** No evicted key is checked before its old window ends. */
  predicate NoLostCheck(t: Table, calls: seq<Call>, lost: map<string, int>)
    decreases calls
  {
    calls == []
    || (!ChecksLost(t, calls[0], lost) && NoLostCheck(Step(t, calls[0]), calls[1..], LostAfter(t, calls[0], lost)))
  }

  lemma SharedSeenLater(s: Store, key: string, lo: int, now: int)
    requires lo <= now
    ensures SeeShared(s, key, now) == Wait(SeeShared(s, key, lo), now)
  {}

  lemma RelatedLater(
      t: Table, s: Store, key: string, refused: set<string>, lost: map<string, int>, lo: int, now: int)
    requires lo <= now && RelatedOn(t, s, key, refused, lost, lo)
    ensures RelatedOn(t, s, key, refused, lost, now)
  {
    SeenLater(t, key, lo, now);
    SharedSeenLater(s, key, lo, now);
  }

  lemma SurvivesUnlessReset(t: Table, c: Call, key: string)
    requires Spares(t, c, key)
    ensures Surviving(t, c, key) == if c.ResetCall? && c.key == key then Fresh else See(t, key, c.now)
  {
    hide Evict;
  }

  function SharedAttempt(v: View, window: int, now: int): View {
    match v
    case Fresh => if window > 0 then Counting(1, now + window * 1000) else Fresh
    case Counting(n, expireAt) => Counting(n + 1, expireAt)
  }

  lemma SharedStepSeen(s: Store, c: Call, key: string)
    ensures SeeShared(SharedStep(s, c), key, c.now) ==
      if c.key != key then SeeShared(s, key, c.now)
      else if c.ResetCall? then Fresh
      else SharedAttempt(SeeShared(s, key, c.now), c.windowSeconds, c.now)
  {}

  lemma StepAgrees(t: Table, s: Store, c: Call, key: string, refused: set<string>)
    requires AgreeOn(t, s, key, refused, c.now) && Spares(t, c, key)
    ensures AgreeOn(Step(t, c), SharedStep(s, c), key, RefusedAfter(t, c, refused), c.now)
  {
    hide Step, SharedStep, See, SeeShared, Spares, Surviving;
    StepSeen(t, c, key);
    SurvivesUnlessReset(t, c, key);
    SharedStepSeen(s, c, key);
  }

  /** What eviction does to the books on one key. */
  lemma LostSeen(t: Table, c: Call, key: string, lost: map<string, int>)
    ensures Spares(t, c, key) ==> (key in LostNow(t, c, lost) <==> key in lost)
    ensures Spares(t, c, key) && key in lost ==> LostNow(t, c, lost)[key] == lost[key]
    ensures !Spares(t, c, key) ==>
      && c.CheckCall? && See(t, key, c.now).Counting? && Running(LostNow(t, c, lost), key, c.now)
      && LostNow(t, c, lost)[key] == See(t, key, c.now).resetAt && Surviving(t, c, key).Fresh?
  {
    hide Evict;
  }

  lemma StepRelates(t: Table, s: Store, c: Call, key: string, refused: set<string>, lost: map<string, int>)
    requires RelatedOn(t, s, key, refused, lost, c.now) && !ChecksLost(t, c, lost)
    ensures RelatedOn(Step(t, c), SharedStep(s, c), key, RefusedAfter(t, c, refused), LostAfter(t, c, lost), c.now)
  {
    hide Step, SharedStep, See, SeeShared, Spares, Surviving, LostNow, AgreeOn;
    LostSeen(t, c, key, lost);
    StepSeen(t, c, key);
    SharedStepSeen(s, c, key);
    if Spares(t, c, key) {
      SurvivesUnlessReset(t, c, key);
      if !Running(lost, key, c.now) {
        StepAgrees(t, s, c, key, refused);
      } else if c.key == key {
        NothingLeft(Step(t, c), SharedStep(s, c), key, RefusedAfter(t, c, refused), c.now);
      }
    } else {
      AgreeingEnds(t, s, key, refused, lost, c.now);
    }
  }

  lemma NothingLeft(t: Table, s: Store, key: string, refused: set<string>, now: int)
    requires See(t, key, now).Fresh? && SeeShared(s, key, now).Fresh?
    ensures AgreeOn(t, s, key, refused, now)
  {}

  lemma AgreeingEnds(t: Table, s: Store, key: string, refused: set<string>, lost: map<string, int>, now: int)
    requires RelatedOn(t, s, key, refused, lost, now) && See(t, key, now).Counting?
    ensures !Running(lost, key, now) && SeeShared(s, key, now).Counting? && SeeShared(s, key, now).count >= 1
    ensures SeeShared(s, key, now).resetAt == See(t, key, now).resetAt
  {}

  lemma MemoryAnswerSeen(t: Table, c: Call)
    requires c.CheckCall?
    ensures var v := Surviving(t, c, c.key);
      MemoryAnswer(t, c) ==
        if v.Fresh? then Answer(true, c.maxAttempts - 1)
        else if v.count >= c.maxAttempts then Answer(false, 0)
        else Answer(true, c.maxAttempts - (v.count + 1))
  {
    EvictOnlyRemoves(t, c.now);
    hide Evict;
  }

  /** With counts m and n of one running window the answers agree exactly if m == n or the limit is at most m. */
  lemma SameAnswerIff(t: Table, s: Store, c: Call)
    requires c.CheckCall? && Spares(t, c, c.key) && Agrees(See(t, c.key, c.now), SeeShared(s, c.key, c.now))
    ensures MemoryAnswer(t, c) == SharedAnswer(s, c.key, c.maxAttempts, c.now)
       <==> match See(t, c.key, c.now)
            case Fresh => c.maxAttempts >= 1
            case Counting(m, _) => m == SeeShared(s, c.key, c.now).count || c.maxAttempts <= m
  {
    hide MemoryAnswer, Spares, Surviving;
    MemoryAnswerSeen(t, c);
    SurvivesUnlessReset(t, c, c.key);
  }

  lemma RunStepRelates(t: Table, s: Store, c: Call, refused: set<string>, lost: map<string, int>, lo: int)
    requires Related(t, s, refused, lost, lo) && lo <= c.now && !ChecksLost(t, c, lost)
    ensures Related(Step(t, c), SharedStep(s, c), RefusedAfter(t, c, refused), LostAfter(t, c, lost), c.now)
  {
    hide RelatedOn, ChecksLost, Step, SharedStep, RefusedAfter, LostAfter;
    forall key
      ensures RelatedOn(Step(t, c), SharedStep(s, c), key, RefusedAfter(t, c, refused), LostAfter(t, c, lost), c.now)
    {
      RelatedLater(t, s, key, refused, lost, lo, c.now);
      StepRelates(t, s, c, key, refused, lost);
    }
  }

  /** A check of a lost key always answers differently: the shared counter still counts, the memory starts again. */
  lemma EvictionShows(t: Table, s: Store, c: Call)
    requires c.CheckCall? && !IsLive(Evict(t, c.now), c.key, c.now)
    requires SeeShared(s, c.key, c.now).Counting? && SeeShared(s, c.key, c.now).count >= 1
    ensures MemoryAnswer(t, c) == Answer(true, c.maxAttempts - 1)
    ensures MemoryAnswer(t, c) != SharedAnswer(s, c.key, c.maxAttempts, c.now)
  {
    hide Evict;
  }

  lemma LostIsNotLive(t: Table, s: Store, c: Call, refused: set<string>, lost: map<string, int>)
    requires RelatedOn(t, s, c.key, refused, lost, c.now) && ChecksLost(t, c, lost)
    ensures !IsLive(Evict(t, c.now), c.key, c.now)
    ensures SeeShared(s, c.key, c.now).Counting? && SeeShared(s, c.key, c.now).count >= 1
  {
    EvictOnlyRemoves(t, c.now);
    hide Evict;
    LostSeen(t, c, c.key, lost);
  }

  lemma HeadAgreesIff(t: Table, s: Store, c: Call, refused: set<string>, lost: map<string, int>, lo: int)
    requires Related(t, s, refused, lost, lo) && lo <= c.now && c.CheckCall?
    ensures MemoryAnswer(t, c) == SharedAnswer(s, c.key, c.maxAttempts, c.now)
       <==> !ChecksLost(t, c, lost) && WithinTerms(t, c, refused)
  {
    hide Spares, MemoryAnswer, SharedAnswer, Evict, LostNow;
    RelatedLater(t, s, c.key, refused, lost, lo, c.now);
    if ChecksLost(t, c, lost) {
      LostIsNotLive(t, s, c, refused, lost);
      EvictionShows(t, s, c);
    } else {
      LostSeen(t, c, c.key, lost);
      SameAnswerIff(t, s, c);
    }
  }

  lemma ResetIsWithin(t: Table, c: Call, refused: set<string>, lost: map<string, int>)
    requires c.ResetCall?
    ensures WithinTerms(t, c, refused) && !ChecksLost(t, c, lost)
  {}

  lemma AnswersStep(t: Table, c: Call, rest: seq<Call>)
    ensures Answers(t, [c] + rest) == (if c.CheckCall? then [MemoryAnswer(t, c)] else []) + Answers(Step(t, c), rest)
  {
    assert ([c] + rest)[1..] == rest;
  }

  lemma SharedAnswersStep(s: Store, c: Call, rest: seq<Call>)
    ensures SharedAnswers(s, [c] + rest)
         == (if c.CheckCall? then [SharedAnswer(s, c.key, c.maxAttempts, c.now)] else [])
            + SharedAnswers(SharedStep(s, c), rest)
  {
    assert ([c] + rest)[1..] == rest;
  }

  /**
   * The in-memory limiter answers a whole run exactly as the shared counter does, if and
   * only if no window is opened with a limit below one, no check asks, after a refusal in
   * its window, for more than was accepted in it, and no key evicted while its window ran
   * is checked before that window ends.
   */
  lemma {:induction false} MemorySimulatesSharedIff(
      t: Table, s: Store, calls: seq<Call>, refused: set<string>, lost: map<string, int>, lo: int)
    requires Related(t, s, refused, lost, lo) && Ordered(calls, lo)
    ensures Answers(t, calls) == SharedAnswers(s, calls) <==> AllWithinTerms(t, calls, refused, lost)
    decreases calls
  {
    hide Related, Step, SharedStep, WithinTerms, ChecksLost, MemoryAnswer, SharedAnswer, RefusedAfter, LostAfter;
    hide Answers, SharedAnswers;
    if calls == [] {
      NoAnswers(t, s);
    } else {
      var c, rest := calls[0], calls[1..];
      assert calls == [c] + rest;
      AnswersStep(t, c, rest);
      SharedAnswersStep(s, c, rest);
      if c.CheckCall? {
        HeadAgreesIff(t, s, c, refused, lost, lo);
        HeadsAndTails([MemoryAnswer(t, c)], [SharedAnswer(s, c.key, c.maxAttempts, c.now)],
                      Answers(Step(t, c), rest), SharedAnswers(SharedStep(s, c), rest));
      } else {
        ResetIsWithin(t, c, refused, lost);
        HeadsAndTails([], [], Answers(Step(t, c), rest), SharedAnswers(SharedStep(s, c), rest));
      }
      if !ChecksLost(t, c, lost) {
        RunStepRelates(t, s, c, refused, lost, lo);
        MemorySimulatesSharedIff(
          Step(t, c), SharedStep(s, c), rest, RefusedAfter(t, c, refused), LostAfter(t, c, lost), c.now);
      }
    }
  }

  lemma NoAnswers(t: Table, s: Store)
    ensures Answers(t, []) == SharedAnswers(s, []) == []
  {}

  lemma EmptyRelates(now: int)
    ensures Related(EMPTY, map[], {}, map[], now)
  {}

  /** From two empty limiters, for every run, whatever its limits and evictions. */
  lemma BackendsAgreeIff(calls: seq<Call>, lo: int)
    requires Ordered(calls, lo)
    ensures Answers(EMPTY, calls) == SharedAnswers(map[], calls) <==> AllWithinTerms(EMPTY, calls, {}, map[])
  {
    EmptyRelates(lo);
    MemorySimulatesSharedIff(EMPTY, map[], calls, {}, map[], lo);
  }

  lemma WithinStep(t: Table, c: Call, rest: seq<Call>, refused: set<string>, lost: map<string, int>)
    ensures AllWithinTerms(t, [c] + rest, refused, lost) ==>
      && !ChecksLost(t, c, lost) && WithinTerms(t, c, refused)
      && AllWithinTerms(Step(t, c), rest, RefusedAfter(t, c, refused), LostAfter(t, c, lost))
  {
    assert ([c] + rest)[0] == c && ([c] + rest)[1..] == rest;
  }

  /** Accepted once at limit one, then refused, then asked at limit two: only the memory accepts again. */
  lemma ChangingLimitsDisagree(key: string)
    ensures var once, twice := CheckCall(key, 1, 60, 0), CheckCall(key, 2, 60, 0);
      Answers(EMPTY, [once, once, twice]) != SharedAnswers(map[], [once, once, twice])
  {
    var once, twice := CheckCall(key, 1, 60, 0), CheckCall(key, 2, 60, 0);
    assert [once] + [once, twice] == [once, once, twice];
    assert [once] + [twice] == [once, twice] && [twice] + [] == [twice];
    assert [once, once, twice][1..] == [once, twice] && [once, twice][1..] == [twice] && [twice][1..] == [];
    assert Ordered([twice], 0) && Ordered([once, twice], 0);
    BackendsAgreeIff([once, once, twice], 0);
    var t := Table([key], map[key := Entry(1, 60_000)]);
    assert Step(EMPTY, once) == t && Step(t, once) == t;
    WithinStep(EMPTY, once, [once, twice], {}, map[]);
    WithinStep(t, once, [twice], {}, LostAfter(EMPTY, once, map[]));
    WithinStep(t, twice, [], {key}, LostAfter(t, once, LostAfter(EMPTY, once, map[])));
  }

  // ------------------------------------------------------------------ one limit for each key

  /** A key that refused an attempt has accepted as many as its limit. */
  ghost predicate RefusedAtLimit(t: Table, refused: set<string>, limit: string -> int, now: int) {
    forall key :: key in refused && See(t, key, now).Counting? ==> See(t, key, now).count >= limit(key)
  }

  lemma StepRefusesAtLimit(
      t: Table, c: Call, refused: set<string>, lost: map<string, int>, limit: string -> int, lo: int)
    requires RefusedAtLimit(t, refused, limit, lo) && lo <= c.now && !ChecksLost(t, c, lost)
    requires c.CheckCall? ==> c.maxAttempts == limit(c.key)
    ensures RefusedAtLimit(Step(t, c), RefusedAfter(t, c, refused), limit, c.now)
  {
    hide Step, See, Spares, Surviving, LostNow;
    var later := RefusedAfter(t, c, refused);
    forall key | key in later && See(Step(t, c), key, c.now).Counting?
      ensures See(Step(t, c), key, c.now).count >= limit(key)
    {
      SeenLater(t, key, lo, c.now);
      StepSeen(t, c, key);
      LostSeen(t, c, key, lost);
      if Spares(t, c, key) { SurvivesUnlessReset(t, c, key); }
    }
  }

  lemma {:induction false} SteadyLimitsAreWithinIff(
      t: Table, calls: seq<Call>, refused: set<string>, lost: map<string, int>, limit: string -> int, lo: int)
    requires RefusedAtLimit(t, refused, limit, lo) && Ordered(calls, lo)
    requires OneLimitPerKey(calls, limit) && forall key :: limit(key) >= 1
    ensures AllWithinTerms(t, calls, refused, lost) <==> NoLostCheck(t, calls, lost)
    decreases calls
  {
    hide Step, RefusedAfter, LostAfter, ChecksLost;
    if calls == [] {
    } else {
      var c := calls[0];
      SeenLater(t, c.key, lo, c.now);
      if !ChecksLost(t, c, lost) {
        StepRefusesAtLimit(t, c, refused, lost, limit, lo);
        SteadyLimitsAreWithinIff(
          Step(t, c), calls[1..], RefusedAfter(t, c, refused), LostAfter(t, c, lost), limit, c.now);
      }
    }
  }

  /**
   * With one limit of at least one for each key, the two backends answer alike if and
   * only if no evicted key is checked before its old window ends.
   */
  lemma BackendsAgreeForFixedLimitsIff(calls: seq<Call>, limit: string -> int, lo: int)
    requires Ordered(calls, lo) && OneLimitPerKey(calls, limit) && forall key :: limit(key) >= 1
    ensures Answers(EMPTY, calls) == SharedAnswers(map[], calls) <==> NoLostCheck(EMPTY, calls, map[])
  {
    SteadyLimitsAreWithinIff(EMPTY, calls, {}, map[], limit, lo);
    BackendsAgreeIff(calls, lo);
  }

  /** No call of the run costs any key its live entry. */
  ghost predicate NoLiveEviction(t: Table, calls: seq<Call>)
    decreases calls
  {
    calls == [] || ((forall key :: Spares(t, calls[0], key)) && NoLiveEviction(Step(t, calls[0]), calls[1..]))
  }

  lemma {:induction false} NoEvictionNoLostCheck(t: Table, calls: seq<Call>)
    requires NoLiveEviction(t, calls)
    ensures NoLostCheck(t, calls, map[])
    decreases calls
  {
    hide Step, Spares, LostNow;
    if calls == [] {
    } else {
      var c := calls[0];
      forall key ensures key !in LostNow(t, c, map[]) {
        assert Spares(t, c, key);
        LostSeen(t, c, key, map[]);
      }
      assert LostNow(t, c, map[]) == map[];
      assert LostAfter(t, c, map[]) == map[];
      NoEvictionNoLostCheck(Step(t, c), calls[1..]);
    }
  }

  lemma RoomSpares(t: Table, c: Call, key: string)
    requires |t.limits| < MAX_TRACKED_KEYS
    ensures Spares(t, c, key)
  {}

  lemma StepAddsOne(t: Table, c: Call)
    requires Consistent(t) && |t.limits| < MAX_TRACKED_KEYS
    ensures Consistent(Step(t, c)) && |Step(t, c).limits| <= |t.limits| + 1
  {
    StepStaysBounded(t, c);
    hide Consistent, Put;
    match c
    case CheckCall(key, max, window, now) =>
      assert Evict(t, now) == t;
      if IsLive(t, key, now) {
        PutIsConsistent(t, key, t.limits[key].(count := t.limits[key].count + 1));
      } else {
        PutIsConsistent(t, key, Entry(1, now + window * 1000));
      }
    case ResetCall(key, _) =>
      SubsetSize((t.limits - {key}).Keys, t.limits.Keys);
  }

  lemma {:induction false} ShortRunsEvictNothing(t: Table, calls: seq<Call>)
    requires Consistent(t) && |t.limits| + |calls| <= MAX_TRACKED_KEYS
    ensures NoLiveEviction(t, calls)
    decreases calls
  {
    hide Step, Spares, Consistent;
    if calls == [] {
    } else {
      forall key ensures Spares(t, calls[0], key) { RoomSpares(t, calls[0], key); }
      StepAddsOne(t, calls[0]);
      ShortRunsEvictNothing(Step(t, calls[0]), calls[1..]);
    }
  }

  /** So with such limits the backends answer alike while nothing live is evicted, as in any run of 20000 calls. */
  lemma BackendsAgree(calls: seq<Call>, limit: string -> int, lo: int)
    requires Ordered(calls, lo) && OneLimitPerKey(calls, limit) && forall key :: limit(key) >= 1
    requires NoLiveEviction(EMPTY, calls) || |calls| <= MAX_TRACKED_KEYS
    ensures Answers(EMPTY, calls) == SharedAnswers(map[], calls)
  {
    if |calls| <= MAX_TRACKED_KEYS { ShortRunsEvictNothing(EMPTY, calls); }
    NoEvictionNoLostCheck(EMPTY, calls);
    BackendsAgreeForFixedLimitsIff(calls, limit, lo);
  }

  // ------------------------------------------------------------------ the counts under a fixed limit

  /** The in-memory count stops at the limit, the shared one runs on. */
  function Capped(v: View, max: int): View {
    match v
    case Fresh => Fresh
    case Counting(n, resetAt) => Counting(Min(n, Max(max, 1)), resetAt)
  }

  predicate CappedOn(t: Table, s: Store, key: string, max: int, lost: map<string, int>, now: int) {
    if Running(lost, key, now) then LostOn(t, s, key, lost[key], now)
    else
      && See(t, key, now) == Capped(SeeShared(s, key, now), max)
      && (SeeShared(s, key, now).Counting? ==> SeeShared(s, key, now).count >= 1)
  }

  ghost predicate AllCapped(t: Table, s: Store, limit: string -> int, lost: map<string, int>, now: int) {
    forall key :: CappedOn(t, s, key, limit(key), lost, now)
  }

  lemma StepCaps(t: Table, s: Store, c: Call, key: string, max: int, lost: map<string, int>, lo: int)
    requires CappedOn(t, s, key, max, lost, lo) && lo <= c.now && !ChecksLost(t, c, lost)
    requires c.CheckCall? && c.key == key ==> c.maxAttempts == max
    ensures CappedOn(Step(t, c), SharedStep(s, c), key, max, LostAfter(t, c, lost), c.now)
  {
    hide Step, SharedStep, See, SeeShared, Spares, Surviving, LostNow;
    SeenLater(t, key, lo, c.now);
    SharedSeenLater(s, key, lo, c.now);
    LostSeen(t, c, key, lost);
    StepSeen(t, c, key);
    SharedStepSeen(s, c, key);
    if Spares(t, c, key) { SurvivesUnlessReset(t, c, key); }
  }

  function SharedRun(s: Store, calls: seq<Call>): Store
    decreases calls
  {
    if calls == [] then s else SharedRun(SharedStep(s, calls[0]), calls[1..])
  }

  function LostRun(t: Table, calls: seq<Call>, lost: map<string, int>): map<string, int>
    decreases calls
  {
    if calls == [] then lost else LostRun(Step(t, calls[0]), calls[1..], LostAfter(t, calls[0], lost))
  }

  /** The time of the last call. */
  function EndOf(calls: seq<Call>, lo: int): int {
    if calls == [] then lo else calls[|calls| - 1].now
  }

  /**
   * With one limit for each key, and as long as no lost key is checked, every window runs
   * to the same time in both limiters and the in-memory count is the smaller of the shared
   * count and the limit; only an evicted key whose old window still runs has no window in memory.
   */
  lemma {:induction false} CountsAreCapped(
      t: Table, s: Store, calls: seq<Call>, limit: string -> int, lost: map<string, int>, lo: int)
    requires AllCapped(t, s, limit, lost, lo) && Ordered(calls, lo) && OneLimitPerKey(calls, limit)
    requires NoLostCheck(t, calls, lost)
    ensures AllCapped(Run(t, calls), SharedRun(s, calls), limit, LostRun(t, calls, lost), EndOf(calls, lo))
    decreases calls
  {
    hide Step, SharedStep, LostAfter, CappedOn, ChecksLost;
    if calls == [] {
    } else {
      var c, rest := calls[0], calls[1..];
      var t1, s1, later := Step(t, c), SharedStep(s, c), LostAfter(t, c, lost);
      forall key ensures CappedOn(t1, s1, key, limit(key), later, c.now) {
        StepCaps(t, s, c, key, limit(key), lost, lo);
      }
      CountsAreCapped(t1, s1, rest, limit, later, c.now);
      assert EndOf(calls, lo) == EndOf(rest, c.now);
    }
  }

  lemma EmptyIsCapped(limit: string -> int, now: int)
    ensures AllCapped(EMPTY, map[], limit, map[], now)
  {}

  /** From two empty limiters, after any run that both answered alike. */
  lemma AgreeingCounts(calls: seq<Call>, limit: string -> int, lo: int)
    requires Ordered(calls, lo) && OneLimitPerKey(calls, limit) && forall key :: limit(key) >= 1
    requires Answers(EMPTY, calls) == SharedAnswers(map[], calls)
    ensures AllCapped(
              Run(EMPTY, calls), SharedRun(map[], calls), limit, LostRun(EMPTY, calls, map[]), EndOf(calls, lo))
  {
    BackendsAgreeForFixedLimitsIff(calls, limit, lo);
    EmptyIsCapped(limit, lo);
    CountsAreCapped(EMPTY, map[], calls, limit, map[], lo);
  }

  // ------------------------------------------------------------------ the answers of one window

  /** Checks of one key under one limit, all before a given time. */
  predicate ChecksBefore(calls: seq<Call>, key: string, max: int, until: int) {
    forall i :: 0 <= i < |calls| ==>
      calls[i].CheckCall? && calls[i].key == key && calls[i].maxAttempts == max && calls[i].now < until
  }

  lemma {:induction false} CountsDownFrom(t: Table, key: string, n: int, max: int, until: int, calls: seq<Call>)
    requires |t.limits| < MAX_TRACKED_KEYS && key in t.limits && t.limits[key] == Entry(n, until) && 1 <= n <= max
    requires ChecksBefore(calls, key, max, until)
    ensures |Answers(t, calls)| == |calls|
    ensures forall i :: 0 <= i < |calls| ==>
      Answers(t, calls)[i] == if n + i < max then Answer(true, max - n - i - 1) else Answer(false, 0)
    decreases calls
  {
    if calls != [] {
      var c, rest := calls[0], calls[1..];
      var after := if n < max then n + 1 else n;
      assert Step(t, c).limits == t.limits[key := Entry(after, until)];
      assert t.limits[key := Entry(after, until)].Keys == t.limits.Keys;
      assert ChecksBefore(rest, key, max, until);
      hide Step, MemoryAnswer;
      CountsDownFrom(Step(t, c), key, after, max, until, rest);
      AnswerCountsDown(t, c, n);
      assert Answers(t, calls) == [MemoryAnswer(t, c)] + Answers(Step(t, c), rest);
    }
  }

  lemma AnswerCountsDown(t: Table, c: Call, n: int)
    requires |t.limits| < MAX_TRACKED_KEYS && c.CheckCall? && IsLive(t, c.key, c.now) && t.limits[c.key].count == n
    ensures MemoryAnswer(t, c) == if n < c.maxAttempts then Answer(true, c.maxAttempts - n - 1) else Answer(false, 0)
  {}

  /**
   * On a table with room, the checks of one window answer max - 1, max - 2, down to 0 attempts
   * remaining, and refusals from then on until the window ends.
   */
  lemma WindowCountsDown(t: Table, key: string, max: int, window: int, start: int, rest: seq<Call>)
    requires |t.limits| + 1 < 20_000 && !IsLive(t, key, start) && max >= 1
    requires ChecksBefore(rest, key, max, start + window * 1000)
    ensures var answers := Answers(t, [CheckCall(key, max, window, start)] + rest);
      && |answers| == 1 + |rest|
      && forall i :: 0 <= i <= |rest| ==>
           answers[i] == if i < max then Answer(true, max - 1 - i) else Answer(false, 0)
  {
    var c := CheckCall(key, max, window, start);
    var entry := Entry(1, start + window * 1000);
    assert Step(t, c).limits == t.limits[key := entry];
    assert t.limits[key := entry].Keys == t.limits.Keys + {key};
    assert |t.limits[key := entry].Keys| <= |t.limits.Keys| + 1;
    assert MemoryAnswer(t, c) == Answer(true, max - 1);
    AnswersStep(t, c, rest);
    hide Step, MemoryAnswer, Answers;
    CountsDownFrom(Step(t, c), key, 1, max, start + window * 1000, rest);
  }
}
