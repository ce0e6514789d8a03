/** What the tenant probe cache guarantees in every interleaving of callers, probes and writes. */
module TenantStateLaws {
  import opened Options
  import opened TenantState

  // ------------------------------------------------------------------ steps only move forward

  /** History, outcomes and probes in flight are kept, or a probe has ended. */
  ghost predicate Forward(w: World, t: World) {
    && w.step < t.step && w.history <= t.history && w.nextProbe <= t.nextProbe
    && (forall p :: p in w.outcomes ==> p in t.outcomes && t.outcomes[p] == w.outcomes[p])
    && (forall slot, p :: InFlight(w.cache, slot, p) ==> Ended(t, slot, p, w.step) || InFlight(t.cache, slot, p))
  }

  predicate Ended(t: World, slot: Slot, p: ProbeId, since: nat) {
    p in t.outcomes && t.outcomes[p].finished >= since && (t.outcomes[p].Loaded? ==> t.outcomes[p].slot == slot)
  }

  lemma CallerFrame(w: World, t: World, caller: Caller)
    requires CallerOk(w, caller) && Forward(w, t)
    ensures CallerOk(t, caller)
  {
    if caller.stage.Awaiting? {
      assert InFlight(w.cache, caller.stage.slot, caller.stage.probe) ==>
        Ended(t, caller.stage.slot, caller.stage.probe, w.step)
        || InFlight(t.cache, caller.stage.slot, caller.stage.probe);
    }
  }

  ghost predicate Steady(w: World, t: World) {
    IdsOk(t) && CountsOk(t) && Forward(w, t) && t.callers == w.callers
  }

  lemma JoinedKeeps(w: World, slot: Slot)
    requires IdsOk(w) && CountsOk(w)
    ensures var (cache, probe) := Joined(w.cache, slot, w.nextProbe);
      var t := w.(cache := cache, nextProbe := w.nextProbe + 1, step := w.step + 1);
      IdsOk(t) && CountsOk(t) && Forward(w, t) && InFlight(cache, slot, probe)
  {
    hide CountOk;
    var t := w.(cache := Joined(w.cache, slot, w.nextProbe).0, nextProbe := w.nextProbe + 1, step := w.step + 1);
    assert forall count :: CountOk(w, count) ==> CountOk(t, count) by { SameHistory(w, t); }
    if slot.StateSlot? {} else {}
  }

  lemma FinishKeeps(w: World, slot: Slot)
    requires IdsOk(w) && CountsOk(w)
    ensures var t := Next(w, Finish(slot)); IdsOk(t) && CountsOk(t) && t.callers == w.callers
  {
    hide CountOk;
    var t := Next(w, Finish(slot));
    assert forall count :: CountOk(w, count) ==> CountOk(t, count) by { SameHistory(w, t); }
    if slot.StateSlot? {} else {}
  }

  lemma FinishForward(w: World, slot: Slot)
    requires IdsOk(w)
    ensures Forward(w, Next(w, Finish(slot)))
  {
    if slot.StateSlot? {} else {}
  }

  lemma BreakKeeps(w: World, slot: Slot)
    requires IdsOk(w) && CountsOk(w)
    ensures var t := Next(w, Break(slot)); IdsOk(t) && CountsOk(t) && t.callers == w.callers
  {
    hide CountOk;
    var t := Next(w, Break(slot));
    assert forall count :: CountOk(w, count) ==> CountOk(t, count) by { SameHistory(w, t); }
    if slot.StateSlot? {} else {}
  }

  lemma BreakForward(w: World, slot: Slot)
    requires IdsOk(w)
    ensures Forward(w, Next(w, Break(slot)))
  {
    if slot.StateSlot? {} else {}
  }

  lemma QueryCounts(w: World, slot: Slot)
    requires CountsOk(w)
    ensures CountsOk(Next(w, RunQuery(slot)))
  {
    var t := Next(w, RunQuery(slot));
    assert CountOk(t, Count(w.Users(), w.Version()));
    hide CountOk;
    assert forall count :: CountOk(w, count) ==> CountOk(t, count) by { SameHistory(w, t); }
    if slot.StateSlot? {} else {}
  }

  lemma QueryKeeps(w: World, slot: Slot)
    requires IdsOk(w)
    ensures IdsOk(Next(w, RunQuery(slot))) && Next(w, RunQuery(slot)).callers == w.callers
  {
    if slot.StateSlot? {} else {}
  }

  lemma QueryForward(w: World, slot: Slot)
    requires IdsOk(w)
    ensures Forward(w, Next(w, RunQuery(slot)))
  {
    if slot.StateSlot? {} else {}
  }

  lemma OtherForward(w: World, ev: Event)
    requires IdsOk(w) && CountsOk(w) && (ev.Invalidate? || ev.Tick? || ev.Write?)
    ensures Steady(w, Next(w, ev))
  {
    hide CountOk;
    var t := Next(w, ev);
    assert forall count :: CountOk(w, count) ==> CountOk(t, count) by { SameHistory(w, t); }
  }

  /** A longer history keeps what was counted. */
  lemma SameHistory(w: World, t: World)
    requires w.history <= t.history
    ensures forall count :: CountOk(w, count) ==> CountOk(t, count)
  {}

  /** All callers but `c`, which is about to be given its next stage. */
  ghost predicate ReadyFor(w: World, c: CallerId) {
    && IdsOk(w) && CountsOk(w) && c in w.callers && w.callers[c].since <= w.step
    && forall x :: x in w.callers && x != c ==> CallerOk(w, w.callers[x])
  }

  lemma AwaitKeeps(w: World, c: CallerId, slot: Slot)
    requires ReadyFor(w, c)
    ensures Inv(Later(Await(w, c, slot))) && Forward(w, Later(Await(w, c, slot)))
  {
    hide Joined, IdsOk, CountsOk;
    var t := Later(Await(w, c, slot));
    JoinedKeeps(w, slot);
    var (cache, probe) := Joined(w.cache, slot, w.nextProbe);
    var u := w.(cache := cache, nextProbe := w.nextProbe + 1, step := w.step + 1);
    SameBelow(u, t);
    forall x | x in t.callers && x != c ensures CallerOk(t, t.callers[x]) { CallerFrame(w, t, w.callers[x]); }
  }

  lemma AnswerKeeps(w: World, c: CallerId, answer: Answer)
    requires ReadyFor(w, c)
    requires answer.Single? ==> CountOk(w, answer.basis) && answer.basis.users <= 1
    requires answer.Multi? ==> CountOk(w, answer.basis) && Verified(w, Caller(w.callers[c].since, Answered(answer)))
    ensures var t := Later(WithCaller(w, c, Answered(answer))); Inv(t) && Forward(w, t)
  {
    var t := Later(WithCaller(w, c, Answered(answer)));
    TickKeeps(w);
    SameBelow(Later(w), t);
    hide IdsOk, CountsOk, CountOk;
    assert Forward(w, t);
    forall x | x in t.callers && x != c ensures CallerOk(t, t.callers[x]) { CallerFrame(w, t, w.callers[x]); }
    assert CountOk(w, Count(0, 0)) == CountOk(t, Count(0, 0)) by { SameHistory(w, t); SameHistory(t, w); }
    SameHistory(w, t);
  }

  lemma TickKeeps(w: World)
    requires IdsOk(w) && CountsOk(w)
    ensures IdsOk(Later(w)) && CountsOk(Later(w))
  {}

  lemma DecideKeeps(w: World, c: CallerId, count: Count)
    requires ReadyFor(w, c) && CountOk(w, count)
    ensures Inv(Later(Decide(w, c, count))) && Forward(w, Later(Decide(w, c, count)))
  {
    hide ReadyFor, Inv, Forward, Await, CountOk;
    ReadyCaller(w, c);
    if count.users <= 1 {
      AnswerKeeps(w, c, Single(count));
    } else {
      AwaitKeeps(w, c, VerifySlot);
    }
  }

  lemma ReadyCaller(w: World, c: CallerId)
    requires ReadyFor(w, c)
    ensures c in w.callers
  {}

  /** These parts do not look at the callers. */
  lemma SameBelow(u: World, t: World)
    requires t == u.(callers := t.callers) && IdsOk(u) && CountsOk(u)
    ensures IdsOk(t) && CountsOk(t)
  {}

  lemma CacheStepForward(w: World, ev: Event)
    requires IdsOk(w) && CountsOk(w) && !ev.Ask? && !ev.Resume?
    ensures Steady(w, Next(w, ev))
  {
    hide IdsOk, CountsOk, Forward, Next;
    match ev
    case Finish(slot) => FinishKeeps(w, slot); FinishForward(w, slot);
    case Break(slot) => BreakKeeps(w, slot); BreakForward(w, slot);
    case RunQuery(slot) => QueryCounts(w, slot); QueryKeeps(w, slot); QueryForward(w, slot);
    case _ => OtherForward(w, ev);
  }

  /** The call has begun and has no stage yet. */
  function Began(w: World, c: CallerId): World {
    w.(callers := w.callers[c := Caller(w.step, Answered(Failure))])
  }

  lemma BeganIsReady(w: World, c: CallerId)
    requires Inv(w) && c !in w.callers
    ensures ReadyFor(Began(w, c), c)
    ensures Forward(Began(w, c), Later(Began(w, c))) && Began(w, c).history == w.history
  {
    var u := Began(w, c);
    SameBelow(w, u);
    hide IdsOk, CountsOk, CountOk;
    forall x | x in u.callers && x != c ensures CallerOk(u, u.callers[x]) { SameCaller(w, u, w.callers[x]); }
  }

  lemma ForwardFromBegan(w: World, c: CallerId, t: World)
    requires Forward(Began(w, c), t)
    ensures Forward(w, t)
  {}

  lemma AskKeeps(w: World, c: CallerId)
    requires Inv(w)
    ensures Inv(Next(w, Ask(c))) && Forward(w, Next(w, Ask(c)))
  {
    if c in w.callers {
      TickForward(w);
    } else {
      hide Inv, Forward, Next;
      BegunKeeps(w, c);
      ForwardFromBegan(w, c, Next(w, Ask(c)));
    }
  }

  lemma AskStep(w: World, c: CallerId)
    requires c !in w.callers
    ensures Do(w, Ask(c)) == if Usable(w.cache, w.now) then Decide(Began(w, c), c, w.cache.cached.value.count)
                             else Await(Began(w, c), c, StateSlot)
  {
    hide Decide, Await;
  }

  lemma BegunKeeps(w: World, c: CallerId)
    requires Inv(w) && c !in w.callers
    ensures Inv(Next(w, Ask(c))) && Forward(Began(w, c), Next(w, Ask(c)))
  {
    hide Inv, ReadyFor, Forward, Decide, Await, CountOk, CountsOk, Do, Began;
    var u := Began(w, c);
    BeganIsReady(w, c);
    ReadyCaller(u, c);
    AskStep(w, c);
    if Usable(w.cache, w.now) {
      CountsFit(w);
      CachedIsOk(w);
      SameHistory(w, u);
      DecideKeeps(u, c, w.cache.cached.value.count);
    } else {
      AwaitKeeps(u, c, StateSlot);
    }
  }

  lemma CountsFit(w: World)
    requires Inv(w)
    ensures CountsOk(w)
  {}

  lemma CachedIsOk(w: World)
    requires CountsOk(w) && w.cache.cached.Some?
    ensures CountOk(w, w.cache.cached.value.count)
  {}

  lemma SameCaller(w: World, u: World, caller: Caller)
    requires u == w.(callers := u.callers) && CallerOk(w, caller)
    ensures CallerOk(u, caller)
  {}

  lemma TickForward(w: World)
    requires Inv(w)
    ensures Inv(Later(w)) && Forward(w, Later(w))
  {
    TickKeeps(w);
    hide IdsOk, CountsOk;
    forall x | x in w.callers ensures CallerOk(Later(w), w.callers[x]) { CallerFrame(w, Later(w), w.callers[x]); }
  }

  lemma InvIsReady(w: World, c: CallerId)
    requires Inv(w) && c in w.callers
    ensures ReadyFor(w, c) && CallerOk(w, w.callers[c])
  {
    hide IdsOk, CountsOk, CallerOk;
    assert CallerOk(w, w.callers[c]);
    BegunBefore(w, w.callers[c]);
  }

  lemma BegunBefore(w: World, caller: Caller)
    requires CallerOk(w, caller)
    ensures caller.since < w.step
  {}

  /** A probe that has ended, awaited by a verifying caller, is one that caller may answer from. */
  lemma ResumeVerified(w: World, caller: Caller)
    requires Inv(w) && Waits(w, caller) && caller.stage.Awaiting? && caller.stage.slot.VerifySlot?
    requires caller.stage.probe in w.outcomes && w.outcomes[caller.stage.probe].Loaded?
    requires w.outcomes[caller.stage.probe].count.users > 1
    ensures Verified(w, Caller(caller.since,
      Answered(Multi(w.outcomes[caller.stage.probe].count, Some(caller.stage.probe)))))
  {
    EndedNotInFlight(w, caller.stage.slot, caller.stage.probe);
  }

  lemma WaitsOk(w: World, caller: Caller)
    requires CallerOk(w, caller)
    ensures Waits(w, caller)
  {}

  lemma LoadedKeeps(w: World, c: CallerId, count: Count)
    requires Inv(w) && c in w.callers && w.callers[c].stage.Awaiting? && w.callers[c].stage.probe in w.outcomes
    requires w.outcomes[w.callers[c].stage.probe].Loaded? && w.outcomes[w.callers[c].stage.probe].count == count
    ensures Inv(Next(w, Resume(c))) && Forward(w, Next(w, Resume(c)))
  {
    hide Inv, ReadyFor, Forward, Decide, CountOk, CallerOk, Waits, Verified;
    var p := w.callers[c].stage.probe;
    CountsFit(w);
    OutcomeIsOk(w, p);
    InvIsReady(w, c);
    WaitsOk(w, w.callers[c]);
    if w.callers[c].stage.slot.StateSlot? {
      DecideKeeps(w, c, count);
    } else if count.users > 1 {
      ResumeVerified(w, w.callers[c]);
      AnswerKeeps(w, c, Multi(count, Some(p)));
    } else {
      AnswerKeeps(w, c, Single(count));
    }
  }

  lemma ResumeKeeps(w: World, c: CallerId)
    requires Inv(w)
    ensures Inv(Next(w, Resume(c))) && Forward(w, Next(w, Resume(c)))
  {
    hide Inv, Forward, ReadyFor, CallerOk;
    if !(c in w.callers && w.callers[c].stage.Awaiting? && w.callers[c].stage.probe in w.outcomes) {
      TickForward(w);
    } else if w.outcomes[w.callers[c].stage.probe].Loaded? {
      LoadedKeeps(w, c, w.outcomes[w.callers[c].stage.probe].count);
    } else {
      InvIsReady(w, c);
      AnswerKeeps(w, c, Failure);
    }
  }

  lemma OutcomeIsOk(w: World, p: ProbeId)
    requires CountsOk(w) && p in w.outcomes && w.outcomes[p].Loaded?
    ensures CountOk(w, w.outcomes[p].count)
  {}

  lemma EndedNotInFlight(w: World, slot: Slot, p: ProbeId)
    requires IdsOk(w) && p in w.outcomes
    ensures !InFlight(w.cache, slot, p)
  {}

  /** Every event keeps the invariant and moves forward. */
  lemma NextKeeps(w: World, ev: Event)
    requires Inv(w)
    ensures Inv(Next(w, ev)) && Forward(w, Next(w, ev))
  {
    match ev
    case Ask(c) => AskKeeps(w, c);
    case Resume(c) => ResumeKeeps(w, c);
    case _ => OtherKeeps(w, ev);
  }

  lemma OtherKeeps(w: World, ev: Event)
    requires Inv(w) && !ev.Ask? && !ev.Resume?
    ensures Inv(Next(w, ev)) && Forward(w, Next(w, ev))
  {
    hide Next, IdsOk, CountsOk;
    var t := Next(w, ev);
    CacheStepForward(w, ev);
    forall x | x in t.callers ensures CallerOk(t, t.callers[x]) { CallerFrame(w, t, w.callers[x]); }
  }

  lemma {:induction false} InvAlways(w: World, evs: seq<Event>)
    requires Inv(w)
    ensures Inv(Exec(w, evs))
    decreases evs
  {
    hide Inv, Next;
    if evs != [] {
      NextKeeps(w, evs[0]);
      InvAlways(Next(w, evs[0]), evs[1..]);
    }
  }

  /**
   * In every run, a multi-tenant answer comes from a verification probe that ended
   * after the call began and counted more than one user; any other answer of one user
   * or none was true of the table when it was counted.
   */
  lemma AnswersAreFounded(w: World, evs: seq<Event>)
    requires Init(w)
    ensures var t := Exec(w, evs);
      forall c :: c in t.callers ==> Verified(t, t.callers[c]) && BasisOk(t, t.callers[c])
  {
    InvAlways(w, evs);
  }

  // ------------------------------------------------------------------ freshness

  /** No load in flight has counted an older table. */
  predicate SlotFresh(probe: Option<Probe>, v: nat) {
    probe.Some? && probe.value.counted.Some? ==> probe.value.counted.value.version >= v
  }

  predicate SlotsFresh(c: Cache, v: nat) {
    SlotFresh(c.inflightState, v) && SlotFresh(c.inflightVerify, v)
  }

  predicate CachedFresh(w: World, v: nat) {
    w.cache.cached.Some? ==> w.cache.cached.value.count.version >= v
  }

  predicate CallerFresh(caller: Caller, v: nat, since: nat) {
    caller.since >= since && HasBasis(caller) ==> caller.stage.answer.basis.version >= v
  }

  /** From step `since` on, nothing older than version `v` is stored or answered. */
  ghost predicate Fresh(w: World, v: nat, since: nat) {
    && v <= w.Version() && CachedFresh(w, v) && SlotsFresh(w.cache, v)
    && (forall p :: p in w.outcomes && w.outcomes[p].Loaded? && w.outcomes[p].finished >= since ==>
          w.outcomes[p].count.version >= v)
    && (forall c :: c in w.callers ==> CallerFresh(w.callers[c], v, since))
  }

  lemma CacheStepFresh(w: World, ev: Event, v: nat, since: nat)
    requires Inv(w) && Fresh(w, v, since) && !ev.Ask? && !ev.Resume?
    ensures Fresh(Next(w, ev), v, since)
  {
    hide CallerOk, CountsOk, CallerFresh;
    match ev
    case Finish(slot) => if slot.StateSlot? {} else {}
    case Break(slot) => if slot.StateSlot? {} else {}
    case RunQuery(slot) => if slot.StateSlot? {} else {}
    case _ =>
  }

  lemma AwaitFresh(w: World, c: CallerId, slot: Slot, v: nat, since: nat)
    requires c in w.callers && Fresh(w, v, since)
    ensures Fresh(Later(Await(w, c, slot)), v, since)
  {
    if slot.StateSlot? {} else {}
  }

  lemma AnswerFresh(w: World, c: CallerId, answer: Answer, v: nat, since: nat)
    requires c in w.callers && Fresh(w, v, since)
    requires CallerFresh(Caller(w.callers[c].since, Answered(answer)), v, since)
    ensures Fresh(Later(WithCaller(w, c, Answered(answer))), v, since)
  {}

  lemma DecideFresh(w: World, c: CallerId, count: Count, v: nat, since: nat)
    requires c in w.callers && Fresh(w, v, since) && (w.callers[c].since >= since ==> count.version >= v)
    ensures Fresh(Later(Decide(w, c, count)), v, since)
  {
    hide Fresh, Await;
    if count.users <= 1 {
      AnswerFresh(w, c, Single(count), v, since);
    } else {
      AwaitFresh(w, c, VerifySlot, v, since);
    }
  }

  lemma LaterFresh(w: World, v: nat, since: nat)
    requires Fresh(w, v, since)
    ensures Fresh(Later(w), v, since)
  {}

  lemma BeganFresh(w: World, c: CallerId, v: nat, since: nat)
    requires Fresh(w, v, since)
    ensures Fresh(Began(w, c), v, since)
    ensures Usable(w.cache, w.now) ==> w.cache.cached.value.count.version >= v
  {}

  lemma AskFresh(w: World, c: CallerId, v: nat, since: nat)
    requires Fresh(w, v, since)
    ensures Fresh(Next(w, Ask(c)), v, since)
  {
    if c in w.callers {
      LaterFresh(w, v, since);
    } else {
      BeganFresh(w, c, v, since);
      AskStep(w, c);
      hide Fresh, Do, Decide, Await;
      if Usable(w.cache, w.now) {
        DecideFresh(Began(w, c), c, w.cache.cached.value.count, v, since);
      } else {
        AwaitFresh(Began(w, c), c, StateSlot, v, since);
      }
    }
  }

  /** A caller that began after the invalidation only resumes from a probe that ended after it. */
  lemma AwaitedFresh(w: World, c: CallerId, v: nat, since: nat)
    requires Inv(w) && Fresh(w, v, since) && c in w.callers && w.callers[c].stage.Awaiting?
    requires w.callers[c].stage.probe in w.outcomes && w.outcomes[w.callers[c].stage.probe].Loaded?
    ensures w.callers[c].since >= since ==> w.outcomes[w.callers[c].stage.probe].count.version >= v
  {
    hide CountsOk;
    assert CallerOk(w, w.callers[c]);
    EndedNotInFlight(w, w.callers[c].stage.slot, w.callers[c].stage.probe);
  }

  lemma ResumeFresh(w: World, c: CallerId, v: nat, since: nat)
    requires Inv(w) && Fresh(w, v, since)
    ensures Fresh(Next(w, Resume(c)), v, since)
  {
    hide Inv, Fresh, Decide;
    if !(c in w.callers && w.callers[c].stage.Awaiting? && w.callers[c].stage.probe in w.outcomes) {
      LaterFresh(w, v, since);
    } else {
      var caller := w.callers[c];
      match w.outcomes[caller.stage.probe]
      case Broken(_) => AnswerFresh(w, c, Failure, v, since);
      case Loaded(count, _, _) =>
        AwaitedFresh(w, c, v, since);
        if caller.stage.slot.StateSlot? {
          DecideFresh(w, c, count, v, since);
        } else if count.users > 1 {
          AnswerFresh(w, c, Multi(count, Some(caller.stage.probe)), v, since);
        } else {
          AnswerFresh(w, c, Single(count), v, since);
        }
    }
  }

  lemma {:induction false} FreshAlways(w: World, evs: seq<Event>, v: nat, since: nat)
    requires Inv(w) && Fresh(w, v, since)
    ensures Inv(Exec(w, evs)) && Fresh(Exec(w, evs), v, since)
    decreases evs
  {
    hide Inv, Fresh, Next;
    if evs != [] {
      NextKeeps(w, evs[0]);
      match evs[0] {
        case Ask(c) => AskFresh(w, c, v, since);
        case Resume(c) => ResumeFresh(w, c, v, since);
        case _ => CacheStepFresh(w, evs[0], v, since);
      }
      FreshAlways(Next(w, evs[0]), evs[1..], v, since);
    }
  }

  lemma InvalidateFreshens(w: World)
    requires Inv(w) && SlotsFresh(w.cache, w.Version())
    ensures Inv(Next(w, Invalidate)) && Fresh(Next(w, Invalidate), w.Version(), w.step)
  {
    NextKeeps(w, Invalidate);
    hide CountsOk, Waits, Verified, BasisOk;
  }

  /**
   * After an invalidation with no outdated count in flight, every call begun since
   * answers from the table as it was then or later, in every run.
   */
  lemma FreshAfterInvalidation(w: World, evs: seq<Event>)
    requires Inv(w) && SlotsFresh(w.cache, w.Version())
    ensures var t := Exec(Next(w, Invalidate), evs);
      && CachedFresh(t, w.Version())
      && forall c :: c in t.callers ==> CallerFresh(t.callers[c], w.Version(), w.step)
  {
    hide Next;
    InvalidateFreshens(w);
    FreshAlways(Next(w, Invalidate), evs, w.Version(), w.step);
  }

  /** So once several users are there to stay, no later call answers that there is at most one. */
  lemma NoStaleSingleAnswer(w: World, evs: seq<Event>, c: CallerId)
    requires Inv(w) && SlotsFresh(w.cache, w.Version())
    requires var t := Exec(Next(w, Invalidate), evs);
      && (forall k :: w.Version() <= k < |t.history| ==> t.history[k] > 1)
      && c in t.callers && t.callers[c].since >= w.step && t.callers[c].stage.Answered?
    ensures !Exec(Next(w, Invalidate), evs).callers[c].stage.answer.Single?
  {
    hide Next;
    var t := Exec(Next(w, Invalidate), evs);
    FreshAfterInvalidation(w, evs);
    InvalidateFreshens(w);
    InvAlways(Next(w, Invalidate), evs);
    assert CallerOk(t, t.callers[c]) && CallerFresh(t.callers[c], w.Version(), w.step);
  }

  /** An outdated count in flight does reach the cache after the invalidation. */
  lemma StaleProbeIsStored(w: World, slot: Slot)
    requires !SlotFresh(w.cache.Get(slot), w.Version())
    ensures !CachedFresh(Exec(Next(w, Invalidate), [Finish(slot)]), w.Version())
  {
    var u := Next(w, Invalidate);
    assert Exec(Next(u, Finish(slot)), []) == Next(u, Finish(slot));
    assert [Finish(slot)][1..] == [];
    if slot.StateSlot? {} else {}
  }

  lemma ExecStep(w: World, ev: Event, rest: seq<Event>)
    ensures Exec(w, [ev] + rest) == Exec(Next(w, ev), rest)
    ensures Exec(w, []) == w
  {
    assert ([ev] + rest)[1..] == rest;
  }

  /** The users table is written to after the probe's query and before the probe ends. */
  function OvertakenRun(c: CallerId, users: nat): seq<Event> {
    [Ask(c), RunQuery(StateSlot), Write(users)]
  }

  lemma FirstAsks(w: World, c: CallerId)
    requires Init(w)
    ensures Next(w, Ask(c)) == w.(
              step := w.step + 1, nextProbe := w.nextProbe + 1,
              cache := Cache(None, Some(Probe(w.nextProbe, None)), None),
              callers := map[c := Caller(w.step, Awaiting(StateSlot, w.nextProbe))])
  {
    assert map[c := Caller(w.step, Answered(Failure))][c := Caller(w.step, Awaiting(StateSlot, w.nextProbe))]
        == map[c := Caller(w.step, Awaiting(StateSlot, w.nextProbe))];
  }

  lemma OvertakenProbe(w: World, c: CallerId, users: nat)
    requires Init(w)
    ensures Exec(w, OvertakenRun(c, users)) == w.(
              step := w.step + 3, history := w.history + [users], nextProbe := w.nextProbe + 1,
              cache := Cache(None, Some(Probe(w.nextProbe, Some(Count(w.Users(), w.Version())))), None),
              callers := map[c := Caller(w.step, Awaiting(StateSlot, w.nextProbe))])
  {
    var asked := Next(w, Ask(c));
    FirstAsks(w, c);
    hide Exec;
    assert [Ask(c)] + [RunQuery(StateSlot), Write(users)] == OvertakenRun(c, users);
    assert [RunQuery(StateSlot)] + [Write(users)] == [RunQuery(StateSlot), Write(users)];
    assert [Write(users)] + [] == [Write(users)];
    ExecStep(w, Ask(c), [RunQuery(StateSlot), Write(users)]);
    ExecStep(asked, RunQuery(StateSlot), [Write(users)]);
    ExecStep(Next(asked, RunQuery(StateSlot)), Write(users), []);
  }

  /**
   * So from any start, with at most one user and whatever the table becomes, there is a
   * run in which a call begun after the invalidation is answered from the table before it.
   */
  lemma InvalidationCanMiss(w: World, c: CallerId, later: CallerId, users: nat)
    requires Init(w) && w.Users() <= 1 && later != c
    ensures var t := Exec(w, OvertakenRun(c, users));
      && !SlotsFresh(t.cache, t.Version())
      && var u := Exec(t, [Invalidate, Finish(StateSlot), Ask(later)]);
         later in u.callers && u.callers[later].stage == Answered(Single(Count(w.Users(), w.Version())))
  {
    var t := Exec(w, OvertakenRun(c, users));
    OvertakenProbe(w, c, users);
    hide Exec;
    ExecStep(t, Invalidate, [Finish(StateSlot), Ask(later)]);
    var invalidated := Next(t, Invalidate);
    ExecStep(invalidated, Finish(StateSlot), [Ask(later)]);
    ExecStep(Next(invalidated, Finish(StateSlot)), Ask(later), []);
    assert [Invalidate] + [Finish(StateSlot), Ask(later)] == [Invalidate, Finish(StateSlot), Ask(later)];
    assert [Finish(StateSlot)] + [Ask(later)] == [Finish(StateSlot), Ask(later)];
    assert [Ask(later)] + [] == [Ask(later)];
  }

  /** Invalidating works in every run exactly when no outdated count is in flight. */
  lemma InvalidationWorksIff(w: World)
    requires Inv(w)
    ensures SlotsFresh(w.cache, w.Version())
       <==> forall evs :: CachedFresh(Exec(Next(w, Invalidate), evs), w.Version())
  {
    hide Next, CachedFresh, Exec, Inv;
    if SlotsFresh(w.cache, w.Version()) {
      forall evs ensures CachedFresh(Exec(Next(w, Invalidate), evs), w.Version()) { FreshAfterInvalidation(w, evs); }
    } else if !SlotFresh(w.cache.Get(StateSlot), w.Version()) {
      StaleProbeIsStored(w, StateSlot);
    } else {
      StaleProbeIsStored(w, VerifySlot);
    }
  }

  // ------------------------------------------------------------------ how long a count is served

  predicate ExpiresInTime(w: World) {
    w.cache.cached.Some? ==> w.cache.cached.value.expiresAt <= w.now + 60_000
  }

  lemma StepExpiresInTime(w: World, ev: Event)
    requires ExpiresInTime(w)
    ensures ExpiresInTime(Next(w, ev)) && w.now <= Next(w, ev).now
    ensures !ev.Finish? ==> Next(w, ev).cache.cached.None? || Next(w, ev).cache.cached == w.cache.cached
  {}

  lemma {:induction false} RunExpiresInTime(w: World, evs: seq<Event>)
    requires ExpiresInTime(w)
    ensures ExpiresInTime(Exec(w, evs))
    decreases evs
  {
    hide Next, ExpiresInTime;
    if evs != [] {
      StepExpiresInTime(w, evs[0]);
      RunExpiresInTime(Next(w, evs[0]), evs[1..]);
    }
  }

  predicate NothingLoads(evs: seq<Event>) {
    forall i :: 0 <= i < |evs| ==> !evs[i].Finish?
  }

  lemma {:induction false} CachedOrDropped(w: World, evs: seq<Event>)
    requires NothingLoads(evs) && ExpiresInTime(w)
    ensures Exec(w, evs).cache.cached.None? || Exec(w, evs).cache.cached == w.cache.cached
    decreases evs
  {
    hide Next, ExpiresInTime;
    if evs != [] {
      StepExpiresInTime(w, evs[0]);
      assert forall i :: 0 <= i < |evs[1..]| ==> evs[1..][i] == evs[i + 1];
      CachedOrDropped(Next(w, evs[0]), evs[1..]);
    }
  }

  /** In every run: once a minute has passed without a load, a new call waits for one. */
  lemma CacheLastsAMinute(w: World, evs: seq<Event>, rest: seq<Event>, c: CallerId)
    requires Init(w) && NothingLoads(rest)
    requires var u := Exec(w, evs); var t := Exec(u, rest); t.now >= u.now + 60_000 && c !in t.callers
    ensures var t := Next(Exec(Exec(w, evs), rest), Ask(c)); c in t.callers && t.callers[c].stage.Awaiting?
  {
    hide Exec;
    RunExpiresInTime(w, evs);
    CachedOrDropped(Exec(w, evs), rest);
  }

  /** Within the minute, a count of at most one that has just been loaded answers at once. */
  lemma LoadedCountAnswers(w: World, slot: Slot, id: ProbeId, count: Count, elapsed: nat, c: CallerId)
    requires w.cache.Get(slot) == Some(Probe(id, Some(count))) && count.users <= 1
    requires elapsed < 60_000 && c !in w.callers
    ensures var t := Exec(w, [Finish(slot), Tick(elapsed), Ask(c)]);
      c in t.callers && t.callers[c].stage == Answered(Single(count))
  {
    hide Exec;
    assert [Finish(slot)] + [Tick(elapsed), Ask(c)] == [Finish(slot), Tick(elapsed), Ask(c)];
    assert [Tick(elapsed)] + [Ask(c)] == [Tick(elapsed), Ask(c)] && [Ask(c)] + [] == [Ask(c)];
    ExecStep(w, Finish(slot), [Tick(elapsed), Ask(c)]);
    var loaded := Next(w, Finish(slot));
    ExecStep(loaded, Tick(elapsed), [Ask(c)]);
    var later := Next(loaded, Tick(elapsed));
    ExecStep(later, Ask(c), []);
    ExecStep(Next(later, Ask(c)), Ask(c), []);
    if slot.StateSlot? {} else {}
    assert later.cache.cached == Some(Snapshot(count, w.now + 60_000)) && later.now == w.now + elapsed;
    assert c !in later.callers;
  }

  /** A load that fails frees its slot for the next one and leaves the cached count alone. */
  lemma FailedLoadKeepsCache(w: World, slot: Slot)
    requires w.cache.Get(slot).Some?
    ensures var t := Next(w, Break(slot));
      && t.cache == w.cache.Set(slot, None)
      && t.outcomes == w.outcomes[w.cache.Get(slot).value.id := Broken(w.step)] && t.callers == w.callers
  {}
}
