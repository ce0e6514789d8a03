/**
 * Confirmation of bank messages (`src/app/actions/bankImport.ts`, and the
 * rejection of `src/app/actions/bankSms.ts`) as a transition system. Any number
 * of workers interleave between their awaits; each event below is one database
 * statement or transaction, or a failure. One user's inbox and ledger are
 * modelled, because every query filters by user. Events that are not enabled
 * leave the state alone, so a run is any sequence of events at all.
 */
module BankImport {
  import opened Arith
  import opened Options

  type RowId = nat
  type EntryId = nat
  type WorkerId = nat

  /** Five minutes, in the milliseconds of the clock. */
  const LEASE: int := 300_000

  /** 0.000001 in raw decimal units. */
  const AMOUNT_TOLERANCE: int := 1_000_000_000_000

  datatype Status = Pending | Processing | Confirmed | Rejected

  /** One message; `key` is the idempotency key derived from its unique fingerprint. */
  datatype Row = Row(key: string, status: Status, payload: Option<string>,
                     processingAt: Option<int>, entryId: Option<EntryId>)

  datatype Line = Line(account: string, quantity: int)

  datatype Entry = Entry(key: Option<string>, transfer: bool, posted: bool, date: string, lines: seq<Line>)

  datatype Request = Request(row: RowId, transfer: bool, linkTo: Option<EntryId>,
                             date: string, amount: int, source: string, destination: string)

  /** Where a worker stands: the await it is about to execute, with its locals. */
  datatype Stage =
    | Reading
    | Linking
    | Checking
    | Replaying(entry: EntryId)
    | Claiming
    | Posting(at: int)
    | Rereading(at: int)
    | Confirming(at: int, entry: EntryId)
    | Releasing(at: int)
    | Finished
  {
    /** Past the claim and before the release in `finally`. */
    predicate Holds() {
      Posting? || Rereading? || Confirming? || Releasing?
    }
  }

  datatype Worker = Worker(req: Request, stage: Stage)

  /** What a link was made to, and for which request; `owner` is the last claimer of a row. */
  datatype LinkRecord = LinkRecord(entry: EntryId, req: Request)

  datatype State = State(
    now: int,
    rows: map<RowId, Row>,
    entries: map<EntryId, Entry>,
    workers: map<WorkerId, Worker>,
    owner: map<RowId, WorkerId>,
    linked: map<RowId, LinkRecord>)

  datatype Event =
    | Receive(row: RowId, key: string, text: string)
    | Start(w: WorkerId, req: Request)
    | Read(w: WorkerId)
    | Link(w: WorkerId)
    | CheckReplay(w: WorkerId)
    | ConfirmReplay(w: WorkerId)
    | Claim(w: WorkerId)
    | Post(w: WorkerId, id: EntryId, entry: Entry)
    | PostFails(w: WorkerId)
    | Reread(w: WorkerId)
    | ConfirmPosted(w: WorkerId)
    | Fail(w: WorkerId)
    | Release(w: WorkerId)
    | Crash(w: WorkerId)
    | Reject(row: RowId)
    | OtherEntry(id: EntryId, entry: Entry)
    | Void(id: EntryId)
    | Tick(elapsed: nat)

  // ---------------------------------------------------------- guarded row updates

  function LinkedTo(row: Row, e: EntryId): Row {
    row.(status := Confirmed, entryId := Some(e), payload := None, processingAt := None)
  }

  /** The replay path leaves `processingAt` as it was. */
  function Replayed(row: Row, e: EntryId): Row {
    row.(status := Confirmed, entryId := Some(e), payload := None)
  }

  predicate Claimable(row: Row, now: int) {
    row.status == Pending
    || (row.status == Processing && row.processingAt.Some? && row.processingAt.value < now - LEASE)
  }

  function Claimed(row: Row, at: int): Row {
    row.(status := Processing, processingAt := Some(at))
  }

  predicate Releasable(row: Row, at: int) {
    row.status == Processing && row.processingAt == Some(at)
  }

  function Released(row: Row): Row {
    row.(status := Pending, processingAt := None)
  }

  function RejectedRow(row: Row): Row {
    row.(status := Rejected, payload := None)
  }

  /** The link check: same date, and the amount leaving one account and reaching the other. */
  predicate Matches(e: Entry, req: Request) {
    && e.date == req.date
    && (exists i :: 0 <= i < |e.lines| && e.lines[i].account == req.source
                    && Abs(e.lines[i].quantity + req.amount) <= AMOUNT_TOLERANCE)
    && (exists i :: 0 <= i < |e.lines| && e.lines[i].account == req.destination
                    && Abs(e.lines[i].quantity - req.amount) <= AMOUNT_TOLERANCE)
  }

  predicate Linkable(s: State, req: Request) {
    && req.linkTo.Some? && req.linkTo.value in s.entries && req.row in s.rows
    && s.entries[req.linkTo.value].transfer && s.entries[req.linkTo.value].posted
    && s.rows[req.row].status == Pending
    && Matches(s.entries[req.linkTo.value], req)
  }

  /** The entry carrying a key, which the unique index makes the only one. */
  predicate IsKeyed(entries: map<EntryId, Entry>, e: EntryId, key: string) {
    e in entries && entries[e].key == Some(key)
  }

  ghost predicate HasKeyed(entries: map<EntryId, Entry>, key: string) {
    exists e :: IsKeyed(entries, e, key)
  }

  // ------------------------------------------------------------------- transitions

  ghost predicate At(s: State, w: WorkerId) {
    w in s.workers && s.workers[w].req.row in s.rows
  }

  ghost function Move(s: State, w: WorkerId, stage: Stage): State
    requires w in s.workers
  {
    s.(workers := s.workers[w := s.workers[w].(stage := stage)])
  }

  ghost function MoveAndSet(s: State, w: WorkerId, stage: Stage, row: Row): State
    requires w in s.workers
  {
    Move(s, w, stage).(rows := s.rows[s.workers[w].req.row := row])
  }

  ghost function DoRead(s: State, w: WorkerId): State
    requires w in s.workers
  {
    var req := s.workers[w].req;
    if req.row !in s.rows || s.rows[req.row].status == Rejected then Move(s, w, Finished)
    else if req.linkTo.Some? then Move(s, w, if req.transfer then Linking else Finished)
    else Move(s, w, Checking)
  }

  ghost function DoLink(s: State, w: WorkerId): State
    requires At(s, w)
  {
    var req := s.workers[w].req;
    if !Linkable(s, req) then Move(s, w, Finished)
    else
      MoveAndSet(s, w, Finished, LinkedTo(s.rows[req.row], req.linkTo.value))
        .(linked := s.linked[req.row := LinkRecord(req.linkTo.value, req)])
  }

  /** `existing()`: some entry with the message's key, if there is one. */
  ghost function Existing(entries: map<EntryId, Entry>, key: string): (found: Option<EntryId>)
    ensures found.Some? <==> HasKeyed(entries, key)
    ensures found.Some? ==> IsKeyed(entries, found.value, key)
  {
    if HasKeyed(entries, key) then
      var e :| IsKeyed(entries, e, key);
      Some(e)
    else None
  }

  ghost function DoClaim(s: State, w: WorkerId): State
    requires At(s, w)
  {
    var r := s.workers[w].req.row;
    if !Claimable(s.rows[r], s.now) then Move(s, w, Finished)
    else
      MoveAndSet(s, w, Posting(s.now), Claimed(s.rows[r], s.now)).(owner := s.owner[r := w])
  }

  /** The ledger service inserts the keyed entry unless the key is already there. */
  ghost function DoPost(s: State, w: WorkerId, id: EntryId, entry: Entry): State
    requires At(s, w) && s.workers[w].stage.Posting?
  {
    var r := s.workers[w].req.row;
    var moved := Move(s, w, Rereading(s.workers[w].stage.at));
    if HasKeyed(s.entries, s.rows[r].key) || id in s.entries then moved
    else moved.(entries := s.entries[id := entry.(key := Some(s.rows[r].key))])
  }

  ghost function DoRelease(s: State, w: WorkerId): State
    requires At(s, w) && s.workers[w].stage.Releasing?
  {
    var r := s.workers[w].req.row;
    if Releasable(s.rows[r], s.workers[w].stage.at)
    then MoveAndSet(s, w, Finished, Released(s.rows[r]))
    else Move(s, w, Finished)
  }

  ghost predicate MessageKey(s: State, key: Option<string>) {
    key.Some? && exists r :: r in s.rows && s.rows[r].key == key.value
  }

  ghost predicate FreshKey(s: State, key: string) {
    && (forall r :: r in s.rows ==> s.rows[r].key != key)
    && !HasKeyed(s.entries, key)
  }

  /** Entries from elsewhere never carry a message's key, and keys stay unique. */
  ghost predicate Insertable(s: State, id: EntryId, entry: Entry) {
    && id !in s.entries && !MessageKey(s, entry.key)
    && (entry.key.Some? ==> !HasKeyed(s.entries, entry.key.value))
  }

  ghost function Next(s: State, ev: Event): State {
    match ev
    case Receive(r, key, text) =>
      if r in s.rows || !FreshKey(s, key) then s
      else s.(rows := s.rows[r := Row(key, Pending, Some(text), None, None)])
    case Start(w, req) =>
      if w in s.workers then s else s.(workers := s.workers[w := Worker(req, Reading)])
    case Read(w) =>
      if w in s.workers && s.workers[w].stage.Reading? then DoRead(s, w) else s
    case Link(w) =>
      if At(s, w) && s.workers[w].stage.Linking? then DoLink(s, w) else s
    case CheckReplay(w) =>
      if !(At(s, w) && s.workers[w].stage.Checking?) then s
      else
        var found := Existing(s.entries, s.rows[s.workers[w].req.row].key);
        Move(s, w, if found.Some? then Replaying(found.value) else Claiming)
    case ConfirmReplay(w) =>
      if !(At(s, w) && s.workers[w].stage.Replaying?) then s
      else MoveAndSet(s, w, Finished, Replayed(s.rows[s.workers[w].req.row], s.workers[w].stage.entry))
    case Claim(w) =>
      if At(s, w) && s.workers[w].stage.Claiming? then DoClaim(s, w) else s
    case Post(w, id, entry) =>
      if At(s, w) && s.workers[w].stage.Posting? then DoPost(s, w, id, entry) else s
    case PostFails(w) =>
      if At(s, w) && s.workers[w].stage.Posting? then Move(s, w, Rereading(s.workers[w].stage.at)) else s
    case Reread(w) =>
      if !(At(s, w) && s.workers[w].stage.Rereading?) then s
      else
        var found, at := Existing(s.entries, s.rows[s.workers[w].req.row].key), s.workers[w].stage.at;
        Move(s, w, if found.Some? then Confirming(at, found.value) else Releasing(at))
    case ConfirmPosted(w) =>
      if !(At(s, w) && s.workers[w].stage.Confirming?) then s
      else
        var r, stage := s.workers[w].req.row, s.workers[w].stage;
        MoveAndSet(s, w, Releasing(stage.at), LinkedTo(s.rows[r], stage.entry))
    case Fail(w) =>
      // An exception or refusal: before the claim the call ends, after it `finally` runs.
      if w !in s.workers then s
      else if s.workers[w].stage.Holds() && !s.workers[w].stage.Releasing? then
        Move(s, w, Releasing(s.workers[w].stage.at))
      else Move(s, w, Finished)
    case Release(w) =>
      if At(s, w) && s.workers[w].stage.Releasing? then DoRelease(s, w) else s
    case Crash(w) =>
      if w in s.workers then Move(s, w, Finished) else s
    case Reject(r) =>
      if r in s.rows && s.rows[r].status == Pending then s.(rows := s.rows[r := RejectedRow(s.rows[r])]) else s
    case OtherEntry(id, entry) =>
      if Insertable(s, id, entry) then s.(entries := s.entries[id := entry]) else s
    case Void(id) =>
      if id in s.entries then s.(entries := s.entries[id := s.entries[id].(posted := false)]) else s
    case Tick(elapsed) => s.(now := s.now + elapsed)
  }

  /** An empty inbox over a ledger whose keys are unique. */
  ghost predicate Init(s: State) {
    && s.rows == map[] && s.workers == map[] && s.owner == map[] && s.linked == map[]
    && UniqueKeys(s)
  }

  ghost function Exec(s: State, evs: seq<Event>): State
    decreases |evs|
  {
    if evs == [] then s else Exec(Next(s, evs[0]), evs[1..])
  }

  // ------------------------------------------------------------ what every run keeps

  ghost predicate UniqueKeys(s: State) {
    && (forall r1, r2 :: r1 in s.rows && r2 in s.rows && s.rows[r1].key == s.rows[r2].key ==> r1 == r2)
    && (forall e1, e2, key :: IsKeyed(s.entries, e1, key) && IsKeyed(s.entries, e2, key) ==> e1 == e2)
  }

  ghost predicate RowOk(entries: map<EntryId, Entry>, now: int, row: Row) {
    && (row.status == Confirmed ==> row.entryId.Some? && row.entryId.value in entries)
    && (row.payload.None? <==> row.status == Confirmed || row.status == Rejected)
    && (row.status == Pending ==> row.processingAt.None?)
    && (row.status == Processing ==> row.processingAt.Some? && row.processingAt.value <= now)
  }

  /**
   * A claim token never outlives its claim unnoticed: the row is still held by
   * it, or was taken over later, and within the lease only a confirmation with
   * the keyed entry can have ended it.
   */
  ghost predicate TokenOk(s: State, w: WorkerId, r: RowId, at: int)
    requires r in s.rows
  {
    var row := s.rows[r];
    && at <= s.now
    && (row.status == Processing && row.processingAt.Some? ==>
          at <= row.processingAt.value
          && (at == row.processingAt.value ==> r in s.owner && s.owner[r] == w))
    && (row.status == Pending ==> at < s.now)
    && (s.now <= at + LEASE ==>
          || (row.status == Processing && row.processingAt == Some(at))
          || (row.status == Confirmed && HasKeyed(s.entries, row.key)))
  }

  ghost predicate WorkerOk(s: State, w: WorkerId, worker: Worker) {
    var r, stage := worker.req.row, worker.stage;
    && (!stage.Reading? && !stage.Finished? ==> r in s.rows)
    && (stage.Replaying? || stage.Confirming? ==> IsKeyed(s.entries, stage.entry, s.rows[r].key))
    && (stage.Holds() ==> TokenOk(s, w, r, stage.at))
  }

  ghost predicate LinkOk(s: State, r: RowId, l: LinkRecord) {
    && r in s.rows && r == l.req.row && s.rows[r].status == Confirmed
    && l.entry in s.entries && s.entries[l.entry].transfer && Matches(s.entries[l.entry], l.req)
  }

  ghost predicate Inv(s: State) {
    && UniqueKeys(s)
    && (forall r :: r in s.rows ==> RowOk(s.entries, s.now, s.rows[r]))
    && (forall w :: w in s.workers ==> WorkerOk(s, w, s.workers[w]))
    && (forall r :: r in s.linked ==> LinkOk(s, r, s.linked[r]))
  }

  lemma InvWorker(s: State, w: WorkerId)
    requires Inv(s) && w in s.workers
    ensures WorkerOk(s, w, s.workers[w])
  {}

  lemma InvRows(s: State)
    requires Inv(s)
    ensures UniqueKeys(s) && forall r :: r in s.rows ==> RowOk(s.entries, s.now, s.rows[r])
  {}

  // ------------------------------------------------------------------- frame lemmas

  /** Ledger entries are only added, or voided. */
  ghost predicate LedgerGrows(old_: map<EntryId, Entry>, new_: map<EntryId, Entry>) {
    forall e :: e in old_ ==> e in new_ && new_[e] == old_[e].(posted := new_[e].posted)
  }

  lemma KeysSurvive(old_: map<EntryId, Entry>, new_: map<EntryId, Entry>, key: string)
    requires LedgerGrows(old_, new_)
    ensures forall e :: IsKeyed(old_, e, key) ==> IsKeyed(new_, e, key)
    ensures HasKeyed(old_, key) ==> HasKeyed(new_, key)
  {
    if HasKeyed(old_, key) {
      var e :| IsKeyed(old_, e, key);
      assert IsKeyed(new_, e, key);
    }
  }

  /** What a worker relies on survives a step that leaves its row alone. */
  lemma WorkerFrame(s: State, t: State, w: WorkerId, worker: Worker)
    requires WorkerOk(s, w, worker) && LedgerGrows(s.entries, t.entries) && s.now <= t.now
    requires worker.req.row in s.rows ==>
               && worker.req.row in t.rows && t.rows[worker.req.row] == s.rows[worker.req.row]
               && (worker.req.row in s.owner ==>
                     worker.req.row in t.owner && t.owner[worker.req.row] == s.owner[worker.req.row])
    ensures WorkerOk(t, w, worker)
  {
    if worker.req.row in s.rows {
      KeysSurvive(s.entries, t.entries, s.rows[worker.req.row].key);
    }
  }

  lemma LinkFrame(s: State, t: State, r: RowId, l: LinkRecord)
    requires LinkOk(s, r, l) && LedgerGrows(s.entries, t.entries)
    requires r in t.rows && t.rows[r].status == Confirmed
    ensures LinkOk(t, r, l)
  {
    assert t.entries[l.entry].lines == s.entries[l.entry].lines;
  }

  lemma RowFrame(s: State, t: State, r: RowId)
    requires r in s.rows && RowOk(s.entries, s.now, s.rows[r])
    requires LedgerGrows(s.entries, t.entries) && s.now <= t.now && r in t.rows && t.rows[r] == s.rows[r]
    ensures RowOk(t.entries, t.now, t.rows[r])
  {}

  /** A step that changes at most row `r` and worker `w` only has to answer for those two. */
  lemma StepFrame(s: State, t: State, r: RowId, w: WorkerId)
    requires Inv(s) && UniqueKeys(t) && LedgerGrows(s.entries, t.entries) && s.now <= t.now
    requires s.rows.Keys <= t.rows.Keys <= s.rows.Keys + {r}
    requires forall x :: x in s.rows && x != r ==> t.rows[x] == s.rows[x]
    requires forall x :: x in s.owner && x != r ==> x in t.owner && t.owner[x] == s.owner[x]
    requires s.workers.Keys <= t.workers.Keys <= s.workers.Keys + {w}
    requires forall x :: x in s.workers && x != w ==> t.workers[x] == s.workers[x]
    requires t.linked.Keys <= s.linked.Keys + {r}
    requires forall x :: x in t.linked && x != r ==> t.linked[x] == s.linked[x]
    requires r in t.rows ==> RowOk(t.entries, t.now, t.rows[r])
    requires w in t.workers ==> WorkerOk(t, w, t.workers[w])
    requires r in t.linked ==> LinkOk(t, r, t.linked[r])
    requires forall x :: x in s.workers && x != w && s.workers[x].req.row == r ==> WorkerOk(t, x, s.workers[x])
    ensures Inv(t)
  {
    hide RowOk, WorkerOk, LinkOk;
    forall x | x in t.rows ensures RowOk(t.entries, t.now, t.rows[x]) {
      if x != r { RowFrame(s, t, x); }
    }
    forall x | x in t.workers ensures WorkerOk(t, x, t.workers[x]) {
      if x != w && s.workers[x].req.row != r { WorkerFrame(s, t, x, s.workers[x]); }
    }
    forall x | x in t.linked ensures LinkOk(t, x, t.linked[x]) {
      if x != r {
        assert LinkOk(s, x, s.linked[x]);
        LinkedRowConfirmed(s, x);
        LinkFrame(s, t, x, s.linked[x]);
      }
    }
  }

  lemma LinkedRowConfirmed(s: State, r: RowId)
    requires Inv(s) && r in s.linked
    ensures LinkOk(s, r, s.linked[r]) && r in s.rows && s.rows[r].status == Confirmed
  {}

  /** A step that only moves worker `w` on. */
  lemma MoveKeeps(s: State, w: WorkerId, stage: Stage)
    requires Inv(s) && w in s.workers && WorkerOk(s, w, s.workers[w].(stage := stage))
    ensures Inv(Move(s, w, stage))
  {
    hide RowOk, LinkOk, WorkerOk;
    var t := Move(s, w, stage);
    forall x | x in t.workers ensures WorkerOk(t, x, t.workers[x]) {
      WorkerFrame(s, t, x, t.workers[x]);
    }
    forall r | r in t.linked ensures LinkOk(t, r, t.linked[r]) {
      LinkedRowConfirmed(s, r);
      LinkFrame(s, t, r, t.linked[r]);
    }
  }

  // One lemma for each event that does more than move a worker.

  lemma ReceiveKeeps(s: State, r: RowId, key: string, text: string)
    requires Inv(s)
    ensures Inv(Next(s, Receive(r, key, text)))
  {
    var t := Next(s, Receive(r, key, text));
    if t != s {
      assert t.rows == s.rows[r := Row(key, Pending, Some(text), None, None)];
      assert UniqueKeys(t) by { ReceiveUnique(s, t, r, key); }
      forall x | x in s.workers && s.workers[x].req.row == r ensures WorkerOk(t, x, s.workers[x]) {
        assert WorkerOk(s, x, s.workers[x]);
      }
      NotLinked(s, r);
      hide Inv, WorkerOk, LinkOk, UniqueKeys;
      RowStep(s, t, r);
    }
  }

  lemma ReceiveUnique(s: State, t: State, r: RowId, key: string)
    requires UniqueKeys(s) && r !in s.rows && FreshKey(s, key)
    requires t.entries == s.entries && t.rows.Keys == s.rows.Keys + {r} && t.rows[r].key == key
    requires forall x :: x in s.rows ==> t.rows[x] == s.rows[x]
    ensures UniqueKeys(t)
  {}

  lemma NotLinked(s: State, r: RowId)
    requires Inv(s) && (r in s.rows ==> s.rows[r].status != Confirmed)
    ensures r !in s.linked
  {
    if r in s.linked { LinkedRowConfirmed(s, r); }
  }

  /** `StepFrame` for a step no worker takes. */
  lemma RowStep(s: State, t: State, r: RowId)
    requires Inv(s) && UniqueKeys(t) && LedgerGrows(s.entries, t.entries) && s.now <= t.now
    requires s.rows.Keys <= t.rows.Keys <= s.rows.Keys + {r}
    requires forall x :: x in s.rows && x != r ==> t.rows[x] == s.rows[x]
    requires t.owner == s.owner && t.workers == s.workers && t.linked == s.linked && r !in t.linked
    requires r in t.rows ==> RowOk(t.entries, t.now, t.rows[r])
    requires forall x :: x in s.workers && s.workers[x].req.row == r ==> WorkerOk(t, x, s.workers[x])
    ensures Inv(t)
  {
    forall x | x in t.workers ensures WorkerOk(t, x, t.workers[x]) {
      if s.workers[x].req.row != r { InvWorker(s, x); WorkerFrame(s, t, x, s.workers[x]); }
    }
    hide Inv, RowOk, WorkerOk, LinkOk, UniqueKeys;
    StepFrame(s, t, r, 0);
  }

  /** A step of the clock or the ledger. */
  lemma LedgerStep(s: State, t: State)
    requires Inv(s) && UniqueKeys(t) && LedgerGrows(s.entries, t.entries) && s.now <= t.now
    requires t.rows == s.rows && t.owner == s.owner && t.workers == s.workers && t.linked == s.linked
    ensures Inv(t)
  {
    hide RowOk, LinkOk, WorkerOk;
    forall r | r in t.rows ensures RowOk(t.entries, t.now, t.rows[r]) { RowFrame(s, t, r); }
    forall x | x in t.workers ensures WorkerOk(t, x, t.workers[x]) { WorkerFrame(s, t, x, t.workers[x]); }
    forall r | r in t.linked ensures LinkOk(t, r, t.linked[r]) {
      LinkedRowConfirmed(s, r);
      LinkFrame(s, t, r, t.linked[r]);
    }
  }

  lemma UniqueAfterInsert(s: State, t: State, id: EntryId, entry: Entry)
    requires UniqueKeys(s) && id !in s.entries && t.entries == s.entries[id := entry] && t.rows == s.rows
    requires entry.key.Some? ==> !HasKeyed(s.entries, entry.key.value)
    ensures UniqueKeys(t)
  {
    forall e1, e2, key | IsKeyed(t.entries, e1, key) && IsKeyed(t.entries, e2, key) ensures e1 == e2 {
      if e1 != id { assert IsKeyed(s.entries, e1, key); }
      if e2 != id { assert IsKeyed(s.entries, e2, key); }
    }
  }

  lemma UniqueAfterVoid(s: State, id: EntryId)
    requires UniqueKeys(s)
    ensures UniqueKeys(Next(s, Void(id)))
  {
    var t := Next(s, Void(id));
    forall e1, e2, key | IsKeyed(t.entries, e1, key) && IsKeyed(t.entries, e2, key) ensures e1 == e2 {
      assert IsKeyed(s.entries, e1, key) && IsKeyed(s.entries, e2, key);
    }
  }

  /** Another worker on the changed row keeps what it relies on if its token does. */
  lemma OtherOnRow(s: State, t: State, x: WorkerId, worker: Worker)
    requires WorkerOk(s, x, worker) && t.entries == s.entries
    requires worker.req.row in s.rows && worker.req.row in t.rows
    requires t.rows[worker.req.row].key == s.rows[worker.req.row].key
    requires worker.stage.Holds() && TokenOk(s, x, worker.req.row, worker.stage.at) ==>
               TokenOk(t, x, worker.req.row, worker.stage.at)
    ensures WorkerOk(t, x, worker)
  {}

  lemma UniqueAfterRewrite(s: State, t: State, r: RowId, row: Row)
    requires UniqueKeys(s) && r in s.rows && row.key == s.rows[r].key
    requires t.rows == s.rows[r := row] && t.entries == s.entries
    ensures UniqueKeys(t)
  {}

  /** `StepFrame` for worker `w` rewriting its own row, which keeps its key. */
  lemma RowRewrite(s: State, t: State, w: WorkerId, row: Row, stage: Stage)
    requires Inv(s) && At(s, w) && row.key == s.rows[s.workers[w].req.row].key
    requires t.rows == s.rows[s.workers[w].req.row := row] && t.entries == s.entries && t.now == s.now
    requires t.workers == s.workers[w := s.workers[w].(stage := stage)]
    requires t.owner == s.owner || t.owner == s.owner[s.workers[w].req.row := w]
    requires t.linked.Keys <= s.linked.Keys + {s.workers[w].req.row}
    requires forall x :: x in t.linked && x != s.workers[w].req.row ==> t.linked[x] == s.linked[x]
    requires s.workers[w].req.row in t.linked ==> LinkOk(t, s.workers[w].req.row, t.linked[s.workers[w].req.row])
    requires RowOk(t.entries, t.now, row) && WorkerOk(t, w, t.workers[w])
    requires forall x, at :: x in s.workers && x != w && TokenOk(s, x, s.workers[w].req.row, at) ==>
               TokenOk(t, x, s.workers[w].req.row, at)
    ensures Inv(t)
  {
    hide Inv, RowOk, WorkerOk, LinkOk, TokenOk, UniqueKeys;
    var r := s.workers[w].req.row;
    InvRows(s);
    UniqueAfterRewrite(s, t, r, row);
    forall x | x in s.workers && x != w && s.workers[x].req.row == r ensures WorkerOk(t, x, s.workers[x]) {
      InvWorker(s, x);
      OtherOnRow(s, t, x, s.workers[x]);
    }
    StepFrame(s, t, r, w);
  }

  lemma LinkKeeps(s: State, w: WorkerId)
    requires Inv(s)
    ensures Inv(Next(s, Link(w)))
  {
    if At(s, w) && s.workers[w].stage.Linking? {
      var r, req := s.workers[w].req.row, s.workers[w].req;
      if Linkable(s, req) {
        var t := Next(s, Link(w));
        hide Matches;
        RowRewrite(s, t, w, LinkedTo(s.rows[r], req.linkTo.value), Finished);
      } else {
        MoveKeeps(s, w, Finished);
      }
    }
  }

  lemma ConfirmReplayKeeps(s: State, w: WorkerId)
    requires Inv(s)
    ensures Inv(Next(s, ConfirmReplay(w)))
  {
    if At(s, w) && s.workers[w].stage.Replaying? {
      var r, stage := s.workers[w].req.row, s.workers[w].stage;
      InvWorker(s, w);
      InvRow(s, r);
      ConfirmedRowLinks(s, w, Replayed(s.rows[r], stage.entry), Finished);
      RowRewrite(s, Next(s, ConfirmReplay(w)), w, Replayed(s.rows[r], stage.entry), Finished);
    }
  }

  lemma ConfirmPostedKeeps(s: State, w: WorkerId)
    requires Inv(s)
    ensures Inv(Next(s, ConfirmPosted(w)))
  {
    if At(s, w) && s.workers[w].stage.Confirming? {
      var r, stage := s.workers[w].req.row, s.workers[w].stage;
      InvWorker(s, w);
      InvRow(s, r);
      ConfirmedRowLinks(s, w, LinkedTo(s.rows[r], stage.entry), Releasing(stage.at));
      RowRewrite(s, Next(s, ConfirmPosted(w)), w, LinkedTo(s.rows[r], stage.entry), Releasing(stage.at));
    }
  }

  lemma InvRow(s: State, r: RowId)
    requires Inv(s) && r in s.rows
    ensures RowOk(s.entries, s.now, s.rows[r])
  {}

  lemma ConfirmedRowLinks(s: State, w: WorkerId, row: Row, stage: Stage)
    requires Inv(s) && At(s, w) && row.status == Confirmed
    ensures var r, t := s.workers[w].req.row, MoveAndSet(s, w, stage, row);
            r in t.linked ==> LinkOk(t, r, t.linked[r])
  {
    var r, t := s.workers[w].req.row, MoveAndSet(s, w, stage, row);
    if r in t.linked {
      LinkedRowConfirmed(s, r);
      LinkFrame(s, t, r, t.linked[r]);
    }
  }

  lemma ClaimKeeps(s: State, w: WorkerId)
    requires Inv(s)
    ensures Inv(Next(s, Claim(w)))
  {
    if At(s, w) && s.workers[w].stage.Claiming? {
      var r := s.workers[w].req.row;
      InvRow(s, r);
      if Claimable(s.rows[r], s.now) {
        NotLinked(s, r);
        RowRewrite(s, Next(s, Claim(w)), w, Claimed(s.rows[r], s.now), Posting(s.now));
      } else {
        MoveKeeps(s, w, Finished);
      }
    }
  }

  lemma ReleaseKeeps(s: State, w: WorkerId)
    requires Inv(s)
    ensures Inv(Next(s, Release(w)))
  {
    if At(s, w) && s.workers[w].stage.Releasing? {
      var r := s.workers[w].req.row;
      InvRow(s, r);
      InvWorker(s, w);
      if Releasable(s.rows[r], s.workers[w].stage.at) {
        NotLinked(s, r);
        RowRewrite(s, Next(s, Release(w)), w, Released(s.rows[r]), Finished);
      } else {
        MoveKeeps(s, w, Finished);
      }
    }
  }

  lemma PostKeeps(s: State, w: WorkerId, id: EntryId, entry: Entry)
    requires Inv(s)
    ensures Inv(Next(s, Post(w, id, entry)))
  {
    hide Inv, RowOk, UniqueKeys;
    if At(s, w) && s.workers[w].stage.Posting? {
      var r, at := s.workers[w].req.row, s.workers[w].stage.at;
      InvWorker(s, w);
      InvRows(s);
      var moved := Move(s, w, Rereading(at));
      MoveKeeps(s, w, Rereading(at));
      if !HasKeyed(s.entries, s.rows[r].key) && id !in s.entries {
        var t := Next(s, Post(w, id, entry));
        assert UniqueKeys(moved) by { InvRows(moved); }
        UniqueAfterInsert(moved, t, id, entry.(key := Some(s.rows[r].key)));
        LedgerStep(moved, t);
      }
    }
  }

  lemma ReadsKeep(s: State, w: WorkerId)
    requires Inv(s)
    ensures Inv(Next(s, Read(w))) && Inv(Next(s, CheckReplay(w))) && Inv(Next(s, Reread(w)))
  {
    hide Inv, TokenOk;
    if w in s.workers {
      InvWorker(s, w);
      MoveFrom(s, w);
    }
  }

  lemma FailuresKeep(s: State, w: WorkerId)
    requires Inv(s)
    ensures Inv(Next(s, PostFails(w))) && Inv(Next(s, Fail(w))) && Inv(Next(s, Crash(w)))
  {
    hide Inv, TokenOk;
    if w in s.workers {
      InvWorker(s, w);
      MoveFrom(s, w);
    }
  }

  lemma MoveFrom(s: State, w: WorkerId)
    requires Inv(s) && w in s.workers
    ensures forall stage :: WorkerOk(s, w, s.workers[w].(stage := stage)) ==> Inv(Move(s, w, stage))
  {
    forall stage | WorkerOk(s, w, s.workers[w].(stage := stage)) ensures Inv(Move(s, w, stage)) {
      MoveKeeps(s, w, stage);
    }
  }

  lemma RejectKeeps(s: State, r: RowId)
    requires Inv(s)
    ensures Inv(Next(s, Reject(r)))
  {
    var t := Next(s, Reject(r));
    if t != s {
      NotLinked(s, r);
      assert UniqueKeys(t);
      forall x | x in s.workers && s.workers[x].req.row == r ensures WorkerOk(t, x, s.workers[x]) {
        InvWorker(s, x);
        OtherOnRow(s, t, x, s.workers[x]);
      }
      RowStep(s, t, r);
    }
  }

  lemma StartKeeps(s: State, w: WorkerId, req: Request)
    requires Inv(s)
    ensures Inv(Next(s, Start(w, req)))
  {
    var t := Next(s, Start(w, req));
    if t != s {
      hide RowOk, LinkOk, WorkerOk;
      forall x | x in t.workers ensures WorkerOk(t, x, t.workers[x]) {
        if x == w { ReadingOk(t, w); } else { WorkerFrame(s, t, x, t.workers[x]); }
      }
      forall r | r in t.linked ensures LinkOk(t, r, t.linked[r]) {
        LinkedRowConfirmed(s, r);
        LinkFrame(s, t, r, t.linked[r]);
      }
    }
  }

  lemma ReadingOk(t: State, w: WorkerId)
    requires w in t.workers && t.workers[w].stage.Reading?
    ensures WorkerOk(t, w, t.workers[w])
  {}

  lemma OtherEntryKeeps(s: State, id: EntryId, entry: Entry)
    requires Inv(s)
    ensures Inv(Next(s, OtherEntry(id, entry)))
  {
    hide UniqueKeys, Inv, RowOk;
    if Insertable(s, id, entry) {
      InvRows(s);
      UniqueAfterInsert(s, Next(s, OtherEntry(id, entry)), id, entry);
      LedgerStep(s, Next(s, OtherEntry(id, entry)));
    }
  }

  lemma VoidGrows(s: State, id: EntryId)
    ensures LedgerGrows(s.entries, Next(s, Void(id)).entries)
  {}

  lemma VoidKeeps(s: State, id: EntryId)
    requires Inv(s)
    ensures Inv(Next(s, Void(id)))
  {
    hide UniqueKeys, Inv, RowOk, LedgerGrows;
    InvRows(s);
    UniqueAfterVoid(s, id);
    VoidGrows(s, id);
    LedgerStep(s, Next(s, Void(id)));
  }

  lemma TickKeeps(s: State, elapsed: nat)
    requires Inv(s)
    ensures Inv(Next(s, Tick(elapsed)))
  {
    assert UniqueKeys(Next(s, Tick(elapsed)));
    hide UniqueKeys, Inv;
    LedgerStep(s, Next(s, Tick(elapsed)));
  }

  /** Every event keeps the invariant, whatever the state it meets. */
  lemma StepKeepsInv(s: State, ev: Event)
    requires Inv(s)
    ensures Inv(Next(s, ev))
  {
    hide Inv, Next;
    match ev
    case Receive(r, key, text) => ReceiveKeeps(s, r, key, text);
    case Start(w, req) => StartKeeps(s, w, req);
    case Link(w) => LinkKeeps(s, w);
    case ConfirmReplay(w) => ConfirmReplayKeeps(s, w);
    case ConfirmPosted(w) => ConfirmPostedKeeps(s, w);
    case Claim(w) => ClaimKeeps(s, w);
    case Post(w, id, entry) => PostKeeps(s, w, id, entry);
    case Release(w) => ReleaseKeeps(s, w);
    case Reject(r) => RejectKeeps(s, r);
    case OtherEntry(id, entry) => OtherEntryKeeps(s, id, entry);
    case Void(id) => VoidKeeps(s, id);
    case Tick(elapsed) => TickKeeps(s, elapsed);
    case Read(w) => ReadsKeep(s, w);
    case CheckReplay(w) => ReadsKeep(s, w);
    case PostFails(w) => FailuresKeep(s, w);
    case Reread(w) => ReadsKeep(s, w);
    case Fail(w) => FailuresKeep(s, w);
    case Crash(w) => FailuresKeep(s, w);
  }
}
