/**
 * The statements of a confirmation as they run on the inbox and ledger tables
 * (`src/app/actions/bankImport.ts`, `src/app/actions/bankSms.ts`). Each guarded update
 * is one event of the transition system, so every state the tables go through is a
 * state of a run, and what holds of all runs holds of the tables.
 */
module InboxStore {
  import opened BankImport
  import opened BankImportSafety
  import opened Options

  /** What the transaction service answers: it posts, refuses, or throws. */
  datatype Service = Posts(id: EntryId, entry: Entry) | Refuses | Throws

  /** How many messages may wait for a user. */
  const INBOX_LIMIT := 100

  datatype Delivery = Stored | Duplicate | Full

  predicate Known(rows: map<RowId, Row>, key: string) {
    exists r :: r in rows && rows[r].key == key
  }

  function Waiting(rows: map<RowId, Row>): set<RowId> {
    set r | r in rows && (rows[r].status == Pending || rows[r].status == Processing)
  }

  /** Pending, or claimed more than five minutes ago. */
  predicate FreeOrLapsed(row: Row, now: int) {
    match row.status
    case Pending => true
    case Processing => row.processingAt.Some? && now - row.processingAt.value > 5 * 60 * 1000
    case _ => false
  }

  function ConfirmedWith(row: Row, e: EntryId): Row {
    Row(row.key, Confirmed, None, None, Some(e))
  }

  function GivenBack(row: Row): Row {
    Row(row.key, Pending, row.payload, None, row.entryId)
  }

  /** To a posted transfer: this message may be linked to it now, or is already. */
  ghost predicate MayLink(row: Row, entries: map<EntryId, Entry>, req: Request)
    requires req.linkTo.Some?
  {
    var e := req.linkTo.value;
    && e in entries && entries[e].transfer && entries[e].posted
    && match row.status
       case Confirmed => row.entryId == Some(e)
       case Pending => Moves(entries[e], req)
       case _ => false
  }

  class Inbox {
    var now: int
    var rows: map<RowId, Row>
    var entries: map<EntryId, Entry>

    ghost const start: State
    ghost var events: seq<Event>
    ghost var run: State

    /** The tables are those of a run from an empty inbox. */
    ghost predicate Valid()
      reads this
    {
      && Init(start) && run == Exec(start, events) && Inv(run)
      && run.now == now && run.rows == rows && run.entries == entries
    }

    constructor (clock: int, ledger: map<EntryId, Entry>)
      requires forall e1, e2, key :: IsKeyed(ledger, e1, key) && IsKeyed(ledger, e2, key) ==> e1 == e2
      ensures Valid() && now == clock && rows == map[] && entries == ledger && events == []
    {
      now, rows, entries := clock, map[], ledger;
      start, events := State(clock, map[], ledger, map[], map[], map[]), [];
      run := State(clock, map[], ledger, map[], map[], map[]);
      new;
      InitIsOk(start);
    }

    /** Records that the next statement was this event. */
    ghost method Record(ev: Event)
      requires Init(start) && run == Exec(start, events) && Inv(run)
      modifies this`run, this`events
      ensures run == Next(old(run), ev) && events == old(events) + [ev]
      ensures run == Exec(start, events) && Inv(run)
    {
      hide Init, Inv, Next;
      ExecAppend(start, events, ev);
      StepKeepsInv(run, ev);
      run, events := Next(run, ev), events + [ev];
    }

    // ---------------------------------------------------------------- single statements

    method FindExisting(key: string) returns (found: Option<EntryId>)
      requires Valid()
      ensures found == Existing(entries, key)
    {
      hide Inv, Exec, Init;
      InvRows(run);
      if e: EntryId :| e in entries && entries[e].key == Some(key) {
        assert IsKeyed(entries, e, key);
        found := Some(e);
      } else {
        assert !HasKeyed(entries, key);
        found := None;
      }
    }

    method ClaimMessage(r: RowId, ghost w: WorkerId) returns (claimed: Option<int>)
      requires Valid() && At(run, w) && run.workers[w].stage.Claiming? && run.workers[w].req.row == r
      modifies this`rows, this`run, this`events
      ensures Valid() && run == Next(old(run), Claim(w)) && events == old(events) + [Claim(w)]
      ensures At(run, w) && run.workers[w] ==
        Worker(old(run).workers[w].req, if claimed.Some? then Posting(now) else Finished)
      ensures claimed == if FreeOrLapsed(old(rows)[r], now) then Some(now) else None
      ensures rows == if claimed.None? then old(rows)
                      else old(rows)[r := old(rows)[r].(status := Processing, processingAt := Some(now))]
    {
      hide Inv, Exec, Init;
      if Claimable(rows[r], now) {
        claimed := Some(now);
        rows := rows[r := Claimed(rows[r], now)];
      } else {
        claimed := None;
      }
      Record(Claim(w));
    }

    method ReleaseClaim(r: RowId, at: int, ghost w: WorkerId)
      requires Valid() && At(run, w) && run.workers[w].stage == Releasing(at) && run.workers[w].req.row == r
      modifies this`rows, this`run, this`events
      ensures Valid() && run == Next(old(run), Release(w)) && events == old(events) + [Release(w)]
      ensures w in run.workers && run.workers[w].stage.Finished?
      ensures rows == if old(rows)[r].status == Processing && old(rows)[r].processingAt == Some(at)
                      then old(rows)[r := old(rows)[r].(status := Pending, processingAt := None)] else old(rows)
    {
      hide Inv, Exec, Init;
      if Releasable(rows[r], at) { rows := rows[r := Released(rows[r])]; }
      Record(Release(w));
    }

    method RejectMessage(r: RowId) returns (changed: bool)
      requires Valid()
      modifies this`rows, this`run, this`events
      ensures Valid() && run == Next(old(run), Reject(r)) && events == old(events) + [Reject(r)]
      ensures changed <==> r in old(rows) && old(rows)[r].status == Pending
      ensures rows == if changed then old(rows)[r := old(rows)[r].(status := Rejected, payload := None)] else old(rows)
    {
      hide Inv, Exec, Init;
      changed := r in rows && rows[r].status == Pending;
      if changed { rows := rows[r := RejectedRow(rows[r])]; }
      Record(Reject(r));
    }

    /**
     * A second delivery of a message is answered as a duplicate, and a full inbox refuses a
     * new one. No entry carries the key of a message that was never stored.
     */
    method ReceiveMessage(r: RowId, key: string, text: string) returns (delivery: Delivery)
      requires Valid() && r !in rows
      requires HasKeyed(entries, key) ==> Known(rows, key)
      modifies this`rows, this`run, this`events
      ensures Valid() && events == old(events) + if delivery.Full? then [] else [Receive(r, key, text)]
      ensures run == if delivery.Full? then old(run) else Next(old(run), Receive(r, key, text))
      ensures delivery.Duplicate? <==> exists x :: x in old(rows) && old(rows)[x].key == key
      ensures delivery.Full? <==>
        && (forall x :: x in old(rows) ==> old(rows)[x].key != key)
        && |set x | x in old(rows) && (old(rows)[x].status == Pending || old(rows)[x].status == Processing)| >= 100
      ensures rows == if delivery.Stored? then old(rows)[r := Row(key, Pending, Some(text), None, None)] else old(rows)
    {
      hide Inv, Exec, Init, HasKeyed;
      assert Waiting(rows) == set x | x in rows && (rows[x].status == Pending || rows[x].status == Processing);
      if exists x :: x in rows && rows[x].key == key {
        delivery := Duplicate;
        Record(Receive(r, key, text));
      } else if |Waiting(rows)| >= INBOX_LIMIT {
        delivery := Full;
        assert events == events + [];
      } else {
        delivery := Stored;
        rows := rows[r := Row(key, Pending, Some(text), None, None)];
        Record(Receive(r, key, text));
      }
    }

    /** The link transaction; it also answers yes for a message already linked to this entry. */
    method LinkTransfer(req: Request, ghost w: WorkerId) returns (linked: bool)
      requires Valid() && At(run, w) && run.workers[w] == Worker(req, Linking) && req.linkTo.Some?
      modifies this`rows, this`run, this`events
      ensures Valid() && run == Next(old(run), Link(w)) && events == old(events) + [Link(w)]
      ensures linked <==> MayLink(old(rows)[req.row], entries, req)
      ensures rows == if linked && old(rows)[req.row].status == Pending
                      then old(rows)[req.row := ConfirmedWith(old(rows)[req.row], req.linkTo.value)]
                      else old(rows)
      ensures w in run.workers && run.workers[w].stage.Finished?
    {
      hide Inv, Exec, Init, Matches, Moves;
      var e, current := req.linkTo.value, rows[req.row];
      if e in entries { MatchesIff(entries[e], req); }
      if !(e in entries && entries[e].transfer && entries[e].posted) {
        linked := false;
      } else if current.status == Confirmed {
        linked := current.entryId == Some(e);
      } else if current.status != Pending || !Matches(entries[e], req) {
        linked := false;
      } else {
        rows := rows[req.row := LinkedTo(current, e)];
        linked := true;
      }
      Record(Link(w));
    }

    /** The transaction service: one atomic insert under the message's key, a refusal, or an exception. */
    method PostTransaction(req: Request, at: int, service: Service, ghost w: WorkerId) returns (threw: bool)
      requires Valid() && At(run, w) && run.workers[w] == Worker(req, Posting(at))
      requires service.Posts? ==> service.id !in entries
      modifies this`entries, this`run, this`events
      ensures Valid() && old(events) < events && run.rows == old(run.rows) && now == old(now)
      ensures threw <==> service.Throws?
      ensures At(run, w) && run.workers[w] == Worker(req, if threw then Releasing(at) else Rereading(at))
      ensures entries == PostedEntries(old(entries), rows[req.row].key, service)
    {
      hide Inv, Exec, Init, HasKeyed;
      threw := service.Throws?;
      if service.Posts? {
        var key := rows[req.row].key;
        var found := FindExisting(key);
        if found.None? { entries := entries[service.id := service.entry.(key := Some(key))]; }
        Record(Post(w, service.id, service.entry));
      } else if threw {
        Record(Fail(w));
      } else {
        Record(PostFails(w));
      }
    }

    /** Looks the entry up again, however the post ended. */
    method RereadMessage(req: Request, at: int, ghost w: WorkerId) returns (found: Option<EntryId>)
      requires Valid() && At(run, w) && run.workers[w] == Worker(req, Rereading(at))
      modifies this`run, this`events
      ensures Valid() && old(events) < events && At(run, w)
      ensures found == Existing(entries, rows[req.row].key)
      ensures run.workers[w] == Worker(req, if found.Some? then Confirming(at, found.value) else Releasing(at))
    {
      hide Inv, Exec, Init, HasKeyed;
      found := FindExisting(rows[req.row].key);
      Record(Reread(w));
    }

    method ConfirmMessage(req: Request, at: int, e: EntryId, ghost w: WorkerId)
      requires Valid() && At(run, w) && run.workers[w] == Worker(req, Confirming(at, e))
      modifies this`rows, this`run, this`events
      ensures Valid() && old(events) < events && At(run, w) && run.workers[w] == Worker(req, Releasing(at))
      ensures rows == old(rows)[req.row := ConfirmedWith(old(rows)[req.row], e)]
    {
      hide Inv, Exec, Init;
      rows := rows[req.row := LinkedTo(rows[req.row], e)];
      Record(ConfirmPosted(w));
    }

    /** An exception behind the claim goes on to `finally`. */
    ghost method StopHolding(req: Request, at: int, w: WorkerId)
      requires Valid() && At(run, w) && run.workers[w].req == req
      requires run.workers[w].stage.Holds() && !run.workers[w].stage.Releasing? && run.workers[w].stage.at == at
      modifies this`run, this`events
      ensures Valid() && old(events) < events && At(run, w) && run.workers[w] == Worker(req, Releasing(at))
    {
      hide Inv, Exec, Init;
      Record(Fail(w));
    }

    /** The body of `try` behind the claim: post, look the entry up, confirm with it. */
    method PostAndConfirm(
        req: Request, at: int, service: Service, rereadFails: bool, confirmFails: bool, ghost w: WorkerId)
      returns (ok: bool, entry: Option<EntryId>)
      requires Valid() && At(run, w) && run.workers[w] == Worker(req, Posting(at))
      requires service.Posts? ==> service.id !in entries
      modifies this`rows, this`entries, this`run, this`events
      ensures Valid() && old(events) < events && now == old(now)
      ensures At(run, w) && run.workers[w] == Worker(req, Releasing(at))
      ensures entries == PostedEntries(old(entries), old(rows)[req.row].key, service)
      ensures ok ==> entry.Some? && rows == old(rows)[req.row := ConfirmedWith(old(rows)[req.row], entry.value)]
      ensures !ok ==> rows == old(rows)
      ensures ok <==> HasKeyed(entries, old(rows)[req.row].key) && !service.Throws? && !rereadFails && !confirmFails
    {
      hide Inv, Exec, Init, HasKeyed, Next, Existing, PostedEntries;
      ok, entry := false, None;
      var threw := PostTransaction(req, at, service, w);
      if threw { return; }
      if rereadFails {
        StopHolding(req, at, w);
        return;
      }
      var found := RereadMessage(req, at, w);
      if found.None? { return; }
      if confirmFails {
        StopHolding(req, at, w);
        return;
      }
      ConfirmMessage(req, at, found.value, w);
      return true, found;
    }

    /** Claim, try, and the release in `finally`. */
    method ClaimAndPost(
        req: Request, service: Service, rereadFails: bool, confirmFails: bool, ghost w: WorkerId)
      returns (ok: bool, entry: Option<EntryId>)
      requires Valid() && At(run, w) && run.workers[w] == Worker(req, Claiming)
      requires service.Posts? ==> service.id !in entries
      modifies this`rows, this`entries, this`run, this`events
      ensures Valid() && old(events) < events && w in run.workers && run.workers[w].stage.Finished?
      ensures entries == if FreeOrLapsed(old(rows)[req.row], now)
                         then PostedEntries(old(entries), old(rows)[req.row].key, service) else old(entries)
      ensures ok ==> entry.Some? && FreeOrLapsed(old(rows)[req.row], now)
                     && rows == old(rows)[req.row := ConfirmedWith(old(rows)[req.row], entry.value)]
      ensures !ok ==> rows == if FreeOrLapsed(old(rows)[req.row], now)
                              then old(rows)[req.row := GivenBack(old(rows)[req.row])] else old(rows)
      ensures ok <==> FreeOrLapsed(old(rows)[req.row], now) && HasKeyed(entries, old(rows)[req.row].key)
                      && !service.Throws? && !rereadFails && !confirmFails
    {
      hide Inv, Exec, Init, HasKeyed, PostedEntries, Next, Existing, Claimable;
      ok, entry := false, None;
      var claimed := ClaimMessage(req.row, w);
      if claimed.None? { return; }
      ok, entry := PostAndConfirm(req, claimed.value, service, rereadFails, confirmFails, w);
      ReleaseClaim(req.row, claimed.value, w);
    }

    /** Everything before the link, the replay or the claim: the snapshot and its checks. */
    method ReadMessage(req: Request, ghost w: WorkerId) returns (proceed: bool)
      requires Valid() && w !in run.workers
      modifies this`run, this`events
      ensures Valid() && old(events) < events && w in run.workers
      ensures proceed <==> req.row in rows && rows[req.row].status != Rejected && (req.linkTo.Some? ==> req.transfer)
      ensures run.workers[w] ==
        Worker(req, if !proceed then Finished else if req.linkTo.Some? then Linking else Checking)
    {
      hide Inv, Exec, Init;
      Record(Start(w, req));
      Record(Read(w));
      proceed := req.row in rows && rows[req.row].status != Rejected && (req.linkTo.Some? ==> req.transfer);
    }

    /** The replay check: a keyed entry confirms the message on the spot. */
    method ReplayMessage(req: Request, ghost w: WorkerId) returns (replay: Option<EntryId>)
      requires Valid() && At(run, w) && run.workers[w] == Worker(req, Checking)
      modifies this`rows, this`run, this`events
      ensures Valid() && old(events) < events && At(run, w)
      ensures replay == Existing(entries, old(rows)[req.row].key)
      ensures run.workers[w] == Worker(req, if replay.Some? then Finished else Claiming)
      ensures rows == if replay.None? then old(rows)
                      else old(rows)[req.row := old(rows)[req.row].(
                                       status := Confirmed, entryId := replay, payload := None)]
    {
      hide Inv, Exec, Init, HasKeyed;
      replay := FindExisting(rows[req.row].key);
      Record(CheckReplay(w));
      if replay.Some? {
        rows := rows[req.row := Replayed(rows[req.row], replay.value)];
        Record(ConfirmReplay(w));
      }
    }

    /**
     * A whole confirmation with nobody in between. It answers yes only for a message it
     * leaves confirmed with the answered entry; otherwise the message is as it was, or
     * given back. Failing after the post leaves the entry behind.
     */
    method ConfirmBankImport(
        req: Request, similarStops: bool, service: Service, rereadFails: bool, confirmFails: bool, ghost w: WorkerId)
      returns (ok: bool, entry: Option<EntryId>)
      requires Valid() && w !in run.workers
      requires service.Posts? ==> service.id !in entries
      modifies this`rows, this`entries, this`run, this`events
      ensures Valid() && old(events) < events && w in run.workers && run.workers[w].stage.Finished?
      ensures rows.Keys == old(rows.Keys) && forall r :: r in rows && r != req.row ==> rows[r] == old(rows)[r]
      ensures ok <==>
        && req.row in old(rows) && old(rows)[req.row].status != Rejected
        && if req.linkTo.Some? then req.transfer && MayLink(old(rows)[req.row], old(entries), req)
           else HasKeyed(old(entries), old(rows)[req.row].key)
                || (!similarStops && FreeOrLapsed(old(rows)[req.row], now) && service.Posts?
                    && !rereadFails && !confirmFails)
      ensures ok ==>
        req.row in rows && rows[req.row].status == Confirmed && rows[req.row].entryId == entry && entry.Some?
      ensures !ok ==> rows == old(rows) || (req.row in old(rows) && FreeOrLapsed(old(rows)[req.row], now)
                                            && rows == old(rows)[req.row := GivenBack(old(rows)[req.row])])
      ensures entries == old(entries)
           || (req.row in old(rows) && entries == PostedEntries(old(entries), old(rows)[req.row].key, service))
    {
      hide Inv, Exec, Init, HasKeyed, PostedEntries, Next, Linkable, Claimable, Existing;
      ok, entry := false, None;
      var proceed := ReadMessage(req, w);
      if !proceed { return; }
      if req.linkTo.Some? {
        ok := LinkTransfer(req, w);
        entry := if ok then req.linkTo else None;
        return;
      }
      var replay := ReplayMessage(req, w);
      if replay.Some? { return true, replay; }
      if similarStops {
        StopBefore(w);
        return;
      }
      PostedHasKey(entries, rows[req.row].key, service);
      ok, entry := ClaimAndPost(req, service, rereadFails, confirmFails, w);
    }

    /** A refusal or exception before the claim ends the call. */
    ghost method StopBefore(w: WorkerId)
      requires Valid() && w in run.workers && !run.workers[w].stage.Holds()
      modifies this`run, this`events
      ensures Valid() && old(events) < events && w in run.workers && run.workers[w].stage.Finished?
    {
      hide Inv, Exec, Init;
      Record(Fail(w));
    }
  }

  ghost function PostedEntries(entries: map<EntryId, Entry>, key: string, service: Service): map<EntryId, Entry> {
    if service.Posts? && !HasKeyed(entries, key) then entries[service.id := service.entry.(key := Some(key))]
    else entries
  }

  lemma PostedHasKey(entries: map<EntryId, Entry>, key: string, service: Service)
    ensures HasKeyed(PostedEntries(entries, key, service), key) <==> HasKeyed(entries, key) || service.Posts?
  {
    if service.Posts? && !HasKeyed(entries, key) {
      assert IsKeyed(PostedEntries(entries, key, service), service.id, key);
    }
  }

  /** So the tables never show a confirmation without its entry, or one message on two entries. */
  lemma TablesAreSafe(inbox: Inbox)
    requires inbox.Valid()
    ensures forall r :: r in inbox.rows && inbox.rows[r].status == Confirmed ==>
      && inbox.rows[r].entryId.Some? && inbox.rows[r].entryId.value in inbox.entries && inbox.rows[r].payload.None?
    ensures forall r :: r in inbox.rows && inbox.rows[r].payload.None? ==>
      inbox.rows[r].status == Confirmed || inbox.rows[r].status == Rejected
    ensures forall key, e1, e2 :: IsKeyed(inbox.entries, e1, key) && IsKeyed(inbox.entries, e2, key) ==> e1 == e2
  {
    var t := Exec(inbox.start, inbox.events);
    assert t.rows == inbox.rows && t.entries == inbox.entries;
    EveryRun(inbox.start, inbox.events);
    forall key, e1, e2 | IsKeyed(inbox.entries, e1, key) && IsKeyed(inbox.entries, e2, key) ensures e1 == e2 {
      assert IsKeyed(t.entries, e1, key) && IsKeyed(t.entries, e2, key);
    }
  }
}
