/**
 * The tenant probe cache (`src/lib/tenantState.ts`): one cached count of users with a
 * time to live, one shared probe to fill it, and one shared probe to verify a
 * multi-tenant answer. The history of user counts makes explicit which state of the
 * users table a count was taken from.
 */
module TenantState {
  import opened Options

  const TTL: int := 60_000

  type ProbeId = nat
  type CallerId = nat

  /** The user count, capped at two by the query, and when it was taken. */
  datatype Count = Count(users: nat, version: nat)

  datatype Snapshot = Snapshot(count: Count, expiresAt: int)

  /** A load in flight; its query may have run already. */
  datatype Probe = Probe(id: ProbeId, counted: Option<Count>)

  datatype Slot = StateSlot | VerifySlot

  datatype Cache = Cache(cached: Option<Snapshot>, inflightState: Option<Probe>, inflightVerify: Option<Probe>)
  {
    function Get(slot: Slot): Option<Probe> {
      if slot.StateSlot? then inflightState else inflightVerify
    }

    function Set(slot: Slot, probe: Option<Probe>): Cache {
      if slot.StateSlot? then this.(inflightState := probe) else this.(inflightVerify := probe)
    }
  }

  /** How a probe ended, and at which step. */
  datatype Outcome = Loaded(count: Count, slot: Slot, finished: nat) | Broken(finished: nat)

  datatype Answer = Multi(basis: Count, via: Option<ProbeId>) | Single(basis: Count) | Failure

  datatype Caller = Caller(since: nat, stage: Stage)

  datatype Stage = Awaiting(slot: Slot, probe: ProbeId) | Answered(answer: Answer)

  datatype World = World(
    now: int, step: nat, history: seq<nat>, cache: Cache, nextProbe: ProbeId,
    outcomes: map<ProbeId, Outcome>, callers: map<CallerId, Caller>)
  {
    /** Writes to the users table so far. */
    function Version(): nat {
      if history == [] then 0 else |history| - 1
    }

    function Users(): nat {
      if history == [] then 0 else history[|history| - 1]
    }
  }

  datatype Event =
    | Write(users: nat)
    | Invalidate
    | Ask(caller: CallerId)
    | RunQuery(slot: Slot)
    | Finish(slot: Slot)
    | Break(slot: Slot)
    | Resume(caller: CallerId)
    | Tick(elapsed: nat)

  // ------------------------------------------------------------------ the cache itself

  predicate Usable(c: Cache, now: int) {
    c.cached.Some? && c.cached.value.expiresAt > now
  }

  /** Joins the probe in flight, or starts one. */
  function Joined(c: Cache, slot: Slot, newId: ProbeId): (Cache, ProbeId) {
    match c.Get(slot)
    case Some(probe) => (c, probe.id)
    case None => (c.Set(slot, Some(Probe(newId, None))), newId)
  }

  /** A finished load replaces what is cached and frees its slot. */
  function Stored(c: Cache, slot: Slot, count: Count, now: int): Cache {
    c.Set(slot, None).(cached := Some(Snapshot(count, now + TTL)))
  }

  class TenantCache {
    var cached: Option<Snapshot>
    var inflightState: Option<Probe>
    var inflightVerify: Option<Probe>

    function State(): Cache
      reads this
    {
      Cache(cached, inflightState, inflightVerify)
    }

    constructor ()
      ensures State() == Cache(None, None, None)
    {
      cached, inflightState, inflightVerify := None, None, None;
    }

    method InvalidateTenantStateCache()
      modifies this
      ensures State() == old(State()).(cached := None)
    {
      cached := None;
    }

    /** The part of `readTenantState` before its await: a hit, or the probe to wait for. */
    method ReadTenantState(now: int, newId: ProbeId) returns (hit: Option<Snapshot>, wait: Option<ProbeId>)
      modifies this
      ensures hit.Some? <==> old(cached).Some? && old(cached).value.expiresAt > now
      ensures hit.Some? ==> hit == old(cached) && wait.None? && State() == old(State())
      ensures hit.None? ==> wait.Some? && (State(), wait.value) == Joined(old(State()), StateSlot, newId)
    {
      if cached.Some? && cached.value.expiresAt > now { return cached, None; }
      if inflightState.None? { inflightState := Some(Probe(newId, None)); }
      return None, Some(inflightState.value.id);
    }

    method VerifyMultiTenantLive(newId: ProbeId) returns (wait: ProbeId)
      modifies this
      ensures (State(), wait) == Joined(old(State()), VerifySlot, newId)
    {
      if inflightVerify.Some? { return inflightVerify.value.id; }
      inflightVerify := Some(Probe(newId, None));
      return newId;
    }

    /** The continuation of either load. */
    method StoreLoaded(slot: Slot, count: Count, now: int)
      modifies this
      ensures State() == Stored(old(State()), slot, count, now)
    {
      cached := Some(Snapshot(count, now + TTL));
      if slot.StateSlot? { inflightState := None; } else { inflightVerify := None; }
    }
  }

  // ------------------------------------------------------------------ steps

  function WithCaller(w: World, c: CallerId, stage: Stage): World
    requires c in w.callers
  {
    w.(callers := w.callers[c := w.callers[c].(stage := stage)])
  }

  /** The caller waits for the probe of a slot, starting one if need be. */
  function Await(w: World, c: CallerId, slot: Slot): World
    requires c in w.callers
  {
    var (cache, probe) := Joined(w.cache, slot, w.nextProbe);
    WithCaller(w, c, Awaiting(slot, probe)).(cache := cache, nextProbe := w.nextProbe + 1)
  }

  /** `isMultiTenantCached` with a count in hand: one user or none answers at once. */
  function Decide(w: World, c: CallerId, count: Count): World
    requires c in w.callers
  {
    if count.users <= 1 then WithCaller(w, c, Answered(Single(count))) else Await(w, c, VerifySlot)
  }

  function Do(w: World, ev: Event): World {
    match ev
    case Write(users) => w.(history := w.history + [users])
    case Invalidate => w.(cache := w.cache.(cached := None))
    case Ask(c) =>
      if c in w.callers then w
      else
        var u := w.(callers := w.callers[c := Caller(w.step, Answered(Failure))]);
        if Usable(w.cache, w.now) then Decide(u, c, w.cache.cached.value.count) else Await(u, c, StateSlot)
    case RunQuery(slot) =>
      (match w.cache.Get(slot)
       case Some(Probe(id, None)) =>
         w.(cache := w.cache.Set(slot, Some(Probe(id, Some(Count(w.Users(), w.Version()))))))
       case _ => w)
    case Finish(slot) =>
      (match w.cache.Get(slot)
       case Some(Probe(id, Some(count))) =>
         w.(cache := Stored(w.cache, slot, count, w.now), outcomes := w.outcomes[id := Loaded(count, slot, w.step)])
       case _ => w)
    case Break(slot) =>
      (match w.cache.Get(slot)
       case Some(Probe(id, _)) => w.(cache := w.cache.Set(slot, None), outcomes := w.outcomes[id := Broken(w.step)])
       case None => w)
    case Resume(c) =>
      if !(c in w.callers && w.callers[c].stage.Awaiting? && w.callers[c].stage.probe in w.outcomes) then w
      else
        (match w.outcomes[w.callers[c].stage.probe]
         case Broken(_) => WithCaller(w, c, Answered(Failure))
         case Loaded(count, _, _) =>
           if w.callers[c].stage.slot.StateSlot? then Decide(w, c, count)
           else if count.users > 1 then WithCaller(w, c, Answered(Multi(count, Some(w.callers[c].stage.probe))))
           else WithCaller(w, c, Answered(Single(count))))
    case Tick(elapsed) => w.(now := w.now + elapsed)
  }

  function Later(w: World): World {
    w.(step := w.step + 1)
  }

  function Next(w: World, ev: Event): World {
    Later(Do(w, ev))
  }

  function Exec(w: World, evs: seq<Event>): World
    decreases evs
  {
    if evs == [] then w else Exec(Next(w, evs[0]), evs[1..])
  }

  predicate Init(w: World) {
    |w.history| == 1 && w.cache == Cache(None, None, None) && w.outcomes == map[] && w.callers == map[]
  }

  // ------------------------------------------------------------------ where answers come from

  predicate InFlight(c: Cache, slot: Slot, id: ProbeId) {
    c.Get(slot).Some? && c.Get(slot).value.id == id
  }

  /** A caller waits for a probe still in flight, or one that ended during its call. */
  predicate Waits(w: World, caller: Caller) {
    caller.stage.Awaiting? ==>
      var p := caller.stage.probe;
      InFlight(w.cache, caller.stage.slot, p)
      || (p in w.outcomes && w.outcomes[p].finished >= caller.since
          && (w.outcomes[p].Loaded? ==> w.outcomes[p].slot == caller.stage.slot))
  }

  /** A multi-tenant answer was verified by a probe that ended during the call. */
  predicate Verified(w: World, caller: Caller) {
    caller.stage.Answered? && caller.stage.answer.Multi? ==>
      var via := caller.stage.answer.via;
      && via.Some? && via.value in w.outcomes && w.outcomes[via.value].Loaded?
      && w.outcomes[via.value].slot.VerifySlot? && w.outcomes[via.value].finished >= caller.since
      && w.outcomes[via.value].count == caller.stage.answer.basis && caller.stage.answer.basis.users > 1
  }

  predicate NewerThanOutcomes(w: World, probe: Option<Probe>) {
    probe.Some? ==> probe.value.id < w.nextProbe && probe.value.id !in w.outcomes
  }

  predicate IdsOk(w: World) {
    && (forall p :: p in w.outcomes ==> p < w.nextProbe && w.outcomes[p].finished < w.step)
    && NewerThanOutcomes(w, w.cache.inflightState) && NewerThanOutcomes(w, w.cache.inflightVerify)
    && (w.cache.inflightState.Some? && w.cache.inflightVerify.Some? ==>
          w.cache.inflightState.value.id != w.cache.inflightVerify.value.id)
  }

  /** The count was true of the table when it was taken. */
  predicate CountOk(w: World, count: Count) {
    count.version < |w.history| && w.history[count.version] == count.users
  }

  predicate ProbeOk(w: World, probe: Option<Probe>) {
    probe.Some? && probe.value.counted.Some? ==> CountOk(w, probe.value.counted.value)
  }

  predicate CountsOk(w: World) {
    && w.history != []
    && (w.cache.cached.Some? ==> CountOk(w, w.cache.cached.value.count))
    && ProbeOk(w, w.cache.inflightState) && ProbeOk(w, w.cache.inflightVerify)
    && (forall p :: p in w.outcomes && w.outcomes[p].Loaded? ==> CountOk(w, w.outcomes[p].count))
  }

  predicate CallerOk(w: World, caller: Caller) {
    caller.since < w.step && Waits(w, caller) && Verified(w, caller) && BasisOk(w, caller)
  }

  predicate HasBasis(caller: Caller) {
    caller.stage.Answered? && !caller.stage.answer.Failure?
  }

  predicate BasisOk(w: World, caller: Caller) {
    HasBasis(caller) ==>
      CountOk(w, caller.stage.answer.basis) && (caller.stage.answer.Single? ==> caller.stage.answer.basis.users <= 1)
  }

  ghost predicate Inv(w: World) {
    IdsOk(w) && CountsOk(w) && forall c :: c in w.callers ==> CallerOk(w, w.callers[c])
  }
}
