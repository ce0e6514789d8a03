/** What confirmation guarantees in every run, and in every disciplined run. */
module BankImportSafety {
  import opened Arith
  import opened BankImport
  import opened Options

  // --------------------------------------------------------------------- every run

  lemma {:induction false} InvAlways(s: State, evs: seq<Event>)
    requires Inv(s)
    ensures Inv(Exec(s, evs))
    decreases |evs|
  {
    hide Inv, Next;
    if evs != [] {
      StepKeepsInv(s, evs[0]);
      InvAlways(Next(s, evs[0]), evs[1..]);
    }
  }

  lemma InitIsOk(s: State)
    requires Init(s)
    ensures Inv(s) && OneEffect(s)
  {}

  /** Events that change neither rows, links nor the ledger. */
  predicate Quiet(ev: Event) {
    ev.Start? || ev.Read? || ev.CheckReplay? || ev.PostFails? || ev.Reread? || ev.Fail? || ev.Crash? || ev.Tick?
  }

  ghost predicate SameFacts(s: State, t: State) {
    t.rows == s.rows && t.entries == s.entries && t.linked == s.linked
  }

  lemma ReadsAreQuiet(s: State, w: WorkerId)
    ensures SameFacts(s, Next(s, Read(w))) && SameFacts(s, Next(s, CheckReplay(w))) && SameFacts(s, Next(s, Reread(w)))
  {
    hide Existing, HasKeyed;
  }

  lemma FailuresAreQuiet(s: State, w: WorkerId)
    ensures SameFacts(s, Next(s, PostFails(w))) && SameFacts(s, Next(s, Fail(w))) && SameFacts(s, Next(s, Crash(w)))
    ensures w in s.workers ==> Next(s, Crash(w)).workers[w].stage.Finished?
  {}

  lemma StartAndTickAreQuiet(s: State, w: WorkerId, req: Request, elapsed: nat)
    ensures SameFacts(s, Next(s, Start(w, req))) && SameFacts(s, Next(s, Tick(elapsed)))
  {}

  lemma QuietParts(s: State, ev: Event)
    requires Quiet(ev)
    ensures SameFacts(s, Next(s, ev))
  {
    hide Next;
    match ev
    case Start(w, req) => StartAndTickAreQuiet(s, w, req, 0);
    case Tick(elapsed) => StartAndTickAreQuiet(s, 0, Request(0, false, None, "", 0, "", ""), elapsed);
    case PostFails(w) => FailuresAreQuiet(s, w);
    case Fail(w) => FailuresAreQuiet(s, w);
    case Crash(w) => FailuresAreQuiet(s, w);
    case Read(w) => ReadsAreQuiet(s, w);
    case CheckReplay(w) => ReadsAreQuiet(s, w);
    case Reread(w) => ReadsAreQuiet(s, w);
  }

  lemma ConfirmedStays(s: State, ev: Event, r: RowId)
    requires r in s.rows
    ensures r in Next(s, ev).rows
    ensures s.rows[r].status == Confirmed ==> Next(s, ev).rows[r].status == Confirmed
  {
    if Quiet(ev) {
      QuietParts(s, ev);
    } else {
      LoudStays(s, ev, r);
    }
  }

  lemma LoudStays(s: State, ev: Event, r: RowId)
    requires r in s.rows && !Quiet(ev)
    ensures r in Next(s, ev).rows
    ensures s.rows[r].status == Confirmed ==> Next(s, ev).rows[r].status == Confirmed
  {
    hide Matches, Insertable, HasKeyed, Existing, FreshKey;
  }

  /** Confirmation is final, in any interleaving and from any state. */
  lemma {:induction false} ConfirmedIsAbsorbing(s: State, evs: seq<Event>, r: RowId)
    requires r in s.rows && s.rows[r].status == Confirmed
    ensures r in Exec(s, evs).rows && Exec(s, evs).rows[r].status == Confirmed
    decreases |evs|
  {
    hide Next;
    if evs != [] {
      ConfirmedStays(s, evs[0], r);
      ConfirmedIsAbsorbing(Next(s, evs[0]), evs[1..], r);
    }
  }

  /**
   * In every run from an empty inbox: a confirmed message names an entry and has
   * no text left, text is erased only with a final status, and no message key
   * is on two entries.
   */
  lemma EveryRun(s: State, evs: seq<Event>)
    requires Init(s)
    ensures var t := Exec(s, evs);
            && (forall r :: r in t.rows && t.rows[r].status == Confirmed ==>
                  t.rows[r].entryId.Some? && t.rows[r].entryId.value in t.entries && t.rows[r].payload.None?)
            && (forall r :: r in t.rows && t.rows[r].payload.None? ==>
                  t.rows[r].status == Confirmed || t.rows[r].status == Rejected)
            && (forall key, e1, e2 :: IsKeyed(t.entries, e1, key) && IsKeyed(t.entries, e2, key) ==> e1 == e2)
            && (forall r :: r in t.linked ==>
                  && r in t.rows && t.rows[r].status == Confirmed && t.linked[r].req.row == r
                  && t.linked[r].entry in t.entries && t.entries[t.linked[r].entry].transfer
                  && Moves(t.entries[t.linked[r].entry], t.linked[r].req))
  {
    InitIsOk(s);
    InvAlways(s, evs);
    var t := Exec(s, evs);
    forall r | r in t.linked ensures LinkOk(t, r, t.linked[r]) && Moves(t.entries[t.linked[r].entry], t.linked[r].req) {
      LinkedRowConfirmed(t, r);
      MatchesIff(t.entries[t.linked[r].entry], t.linked[r].req);
    }
  }

  /** The entry takes the amount out of the source and brings it to the destination, on the day asked for. */
  ghost predicate Moves(e: Entry, req: Request) {
    e.date == req.date && HasLine(e, req.source, -req.amount) && HasLine(e, req.destination, req.amount)
  }

  /** A line on the account for the amount, give or take 0.000001, which is 10^12 raw units. */
  ghost predicate HasLine(e: Entry, account: string, amount: int) {
    exists line :: line in e.lines && line.account == account
      && amount - 1_000_000_000_000 <= line.quantity <= amount + 1_000_000_000_000
  }

  lemma MatchesIff(e: Entry, req: Request)
    ensures Matches(e, req) <==> Moves(e, req)
  {
    if Moves(e, req) {
      var out :| out in e.lines && out.account == req.source
        && -req.amount - 1_000_000_000_000 <= out.quantity <= -req.amount + 1_000_000_000_000;
      var inn :| inn in e.lines && inn.account == req.destination
        && req.amount - 1_000_000_000_000 <= inn.quantity <= req.amount + 1_000_000_000_000;
      var i :| 0 <= i < |e.lines| && e.lines[i] == out;
      var j :| 0 <= j < |e.lines| && e.lines[j] == inn;
      assert Matches(e, req);
    }
    if Matches(e, req) {
      var i :| 0 <= i < |e.lines| && e.lines[i].account == req.source
               && Abs(e.lines[i].quantity + req.amount) <= AMOUNT_TOLERANCE;
      var j :| 0 <= j < |e.lines| && e.lines[j].account == req.destination
               && Abs(e.lines[j].quantity - req.amount) <= AMOUNT_TOLERANCE;
      assert e.lines[i] in e.lines && e.lines[j] in e.lines;
    }
  }

  /** Worker `x` carries the claim token that row `r` shows. */
  ghost predicate HoldsRow(s: State, x: WorkerId, r: RowId) {
    && x in s.workers && s.workers[x].req.row == r && s.workers[x].stage.Holds()
    && r in s.rows && s.rows[r].processingAt == Some(s.workers[x].stage.at)
  }

  /** A release changes a row only while its own claim, and nobody else's, holds it. */
  lemma ReleaseUndoesOnlyOwnClaim(s: State, w: WorkerId, r: RowId)
    requires Inv(s) && r in s.rows && Next(s, Release(w)).rows[r] != s.rows[r]
    ensures s.rows[r].status == Processing && r in s.owner && s.owner[r] == w
    ensures Next(s, Release(w)).rows[r] == Released(s.rows[r])
    ensures forall x :: HoldsRow(s, x, r) ==> x == w
  {
    InvWorker(s, w);
    forall x | HoldsRow(s, x, r) ensures x == w {
      InvWorker(s, x);
    }
  }

  /**
   * A pending message is linked exactly to a posted transfer that moves its amount between its
   * accounts on its day; then it is confirmed with that entry, and no entry is written.
   */
  lemma LinkIsChecked(s: State, w: WorkerId)
    requires At(s, w) && s.workers[w].stage.Linking? && s.workers[w].req.linkTo.Some?
    ensures var t, req := Next(s, Link(w)), s.workers[w].req;
            var r, e := req.row, req.linkTo.value;
            && t.entries == s.entries && t.rows == s.rows[r := t.rows[r]] && t.workers[w] == Worker(req, Finished)
            && (t.rows[r] != s.rows[r] <==>
                  && s.rows[r].status == Pending && e in s.entries && s.entries[e].transfer && s.entries[e].posted
                  && s.entries[e].date == req.date
                  && HasLine(s.entries[e], req.source, -req.amount)
                  && HasLine(s.entries[e], req.destination, req.amount))
            && (t.rows[r] != s.rows[r] ==>
                  && t.rows[r] == Row(s.rows[r].key, Confirmed, None, None, Some(e))
                  && t.linked == s.linked[r := LinkRecord(e, req)])
  {
    var req := s.workers[w].req;
    if req.linkTo.value in s.entries { MatchesIff(s.entries[req.linkTo.value], req); }
    hide Matches, HasLine;
  }

  // ---------------------------------------------------------------- one ledger effect

  /**
   * A message has had no effect, or has its one keyed entry, or is linked to an
   * existing transfer; pending and rejected messages have had none.
   */
  ghost predicate EffectOk(s: State, r: RowId)
    requires r in s.rows
  {
    var row, keyed := s.rows[r], HasKeyed(s.entries, s.rows[r].key);
    && (row.status == Pending || row.status == Rejected ==> !keyed)
    && (r in s.linked ==> !keyed && row.entryId == Some(s.linked[r].entry))
    && (row.status == Confirmed && r !in s.linked ==>
          row.entryId.Some? && IsKeyed(s.entries, row.entryId.value, row.key))
  }

  ghost predicate OneEffect(s: State) {
    forall r :: r in s.rows ==> EffectOk(s, r)
  }

  /** Posted from the message and also linked to a different entry. */
  ghost predicate DoubleEffect(s: State, r: RowId) {
    && r in s.rows && r in s.linked && HasKeyed(s.entries, s.rows[r].key)
    && !IsKeyed(s.entries, s.linked[r].entry, s.rows[r].key)
  }

  /** This event inserts the keyed entry of the worker's message. */
  ghost predicate Inserts(s: State, ev: Event) {
    && ev.Post? && At(s, ev.w) && s.workers[ev.w].stage.Posting?
    && !HasKeyed(s.entries, s.rows[s.workers[ev.w].req.row].key) && ev.id !in s.entries
  }

  /** This event returns a row to pending. */
  ghost predicate Reopens(s: State, ev: Event) {
    && ev.Release? && At(s, ev.w) && s.workers[ev.w].stage.Releasing?
    && Releasable(s.rows[s.workers[ev.w].req.row], s.workers[ev.w].stage.at)
  }

  /** The two checks the code does not make where it acts. */
  ghost predicate Guarded(s: State, ev: Event) {
    && (Inserts(s, ev) ==> s.rows[s.workers[ev.w].req.row].status == Processing)
    && (Reopens(s, ev) ==> !HasKeyed(s.entries, s.rows[s.workers[ev.w].req.row].key))
  }

  lemma SameEffect(s: State, t: State, r: RowId)
    requires r in s.rows && EffectOk(s, r) && r in t.rows && t.rows[r] == s.rows[r]
    requires (r in t.linked <==> r in s.linked) && (r in s.linked ==> t.linked[r] == s.linked[r])
    requires LedgerGrows(s.entries, t.entries)
    requires HasKeyed(t.entries, s.rows[r].key) ==> HasKeyed(s.entries, s.rows[r].key)
    ensures EffectOk(t, r)
  {
    KeysSurvive(s.entries, t.entries, s.rows[r].key);
  }

  /** A step that leaves keys as they are has to answer only for the row it changes. */
  lemma EffectFrame(s: State, t: State, r: RowId)
    requires OneEffect(s) && t.entries == s.entries
    requires s.rows.Keys <= t.rows.Keys <= s.rows.Keys + {r}
    requires forall x :: x in s.rows && x != r ==> t.rows[x] == s.rows[x]
    requires forall x :: x != r ==> (x in t.linked <==> x in s.linked) && (x in s.linked ==> t.linked[x] == s.linked[x])
    requires r in t.rows ==> EffectOk(t, r)
    ensures OneEffect(t)
  {
    hide EffectOk;
    forall x | x in t.rows ensures EffectOk(t, x) {
      if x != r { SameEffect(s, t, x); }
    }
  }

  /** Inserting an entry touches only the message whose key it carries. */
  lemma InsertEffect(s: State, t: State, id: EntryId, entry: Entry)
    requires OneEffect(s) && id !in s.entries && t.entries == s.entries[id := entry]
    requires t.rows == s.rows && t.linked == s.linked
    requires forall r :: r in t.rows && entry.key == Some(t.rows[r].key) ==> EffectOk(t, r)
    ensures OneEffect(t)
  {
    forall r | r in t.rows ensures EffectOk(t, r) {
      if entry.key != Some(t.rows[r].key) {
        if HasKeyed(t.entries, s.rows[r].key) {
          var e :| IsKeyed(t.entries, e, s.rows[r].key);
          assert IsKeyed(s.entries, e, s.rows[r].key);
        }
        hide EffectOk;
        SameEffect(s, t, r);
      }
    }
  }

  lemma SameParts(s: State, t: State)
    requires OneEffect(s) && t.rows == s.rows && t.entries == s.entries && t.linked == s.linked
    ensures OneEffect(t)
  {
    forall r | r in t.rows ensures EffectOk(t, r) {
      assert EffectOk(s, r);
    }
  }

  lemma ReceiveEffect(s: State, r: RowId, key: string, text: string)
    requires Inv(s) && OneEffect(s)
    ensures OneEffect(Next(s, Receive(r, key, text)))
  {
    var t := Next(s, Receive(r, key, text));
    if t != s {
      NotLinked(s, r);
      assert EffectOk(t, r);
      hide EffectOk, Inv;
      EffectFrame(s, t, r);
    }
  }

  lemma LinkEffect(s: State, w: WorkerId)
    requires Inv(s) && OneEffect(s)
    ensures OneEffect(Next(s, Link(w)))
  {
    hide Matches, Inv;
    var t := Next(s, Link(w));
    if At(s, w) && s.workers[w].stage.Linking? && Linkable(s, s.workers[w].req) {
      assert EffectOk(s, s.workers[w].req.row) && EffectOk(t, s.workers[w].req.row);
      hide EffectOk;
      EffectFrame(s, t, s.workers[w].req.row);
    } else {
      SameParts(s, t);
    }
  }

  lemma ConfirmEffect(s: State, w: WorkerId)
    requires Inv(s) && OneEffect(s)
    ensures OneEffect(Next(s, ConfirmReplay(w))) && OneEffect(Next(s, ConfirmPosted(w)))
  {
    if At(s, w) && (s.workers[w].stage.Replaying? || s.workers[w].stage.Confirming?) {
      InvWorker(s, w);
      var r := s.workers[w].req.row;
      assert EffectOk(s, r);
      var t := if s.workers[w].stage.Replaying? then Next(s, ConfirmReplay(w)) else Next(s, ConfirmPosted(w));
      assert EffectOk(t, r);
      hide EffectOk, Inv;
      EffectFrame(s, t, r);
    }
  }

  lemma ClaimEffect(s: State, w: WorkerId)
    requires Inv(s) && OneEffect(s)
    ensures OneEffect(Next(s, Claim(w)))
  {
    var t := Next(s, Claim(w));
    hide Inv;
    if At(s, w) && s.workers[w].stage.Claiming? && Claimable(s.rows[s.workers[w].req.row], s.now) {
      var r := s.workers[w].req.row;
      NotLinked(s, r);
      assert EffectOk(t, r);
      hide EffectOk;
      EffectFrame(s, t, r);
    } else {
      SameParts(s, t);
    }
  }

  lemma ReleaseEffect(s: State, w: WorkerId)
    requires Inv(s) && OneEffect(s)
    ensures OneEffect(Next(s, Release(w))) <==> Guarded(s, Release(w))
  {
    var t := Next(s, Release(w));
    if Reopens(s, Release(w)) {
      var r := s.workers[w].req.row;
      NotLinked(s, r);
      assert EffectOk(t, r) <==> !HasKeyed(s.entries, s.rows[r].key);
      assert r in t.rows;
      if EffectOk(t, r) {
        hide EffectOk, Inv;
        EffectFrame(s, t, r);
      }
    } else {
      SameParts(s, t);
    }
  }

  lemma PostEffect(s: State, w: WorkerId, id: EntryId, entry: Entry)
    requires Inv(s) && OneEffect(s)
    ensures OneEffect(Next(s, Post(w, id, entry))) <==> Guarded(s, Post(w, id, entry))
  {
    var ev := Post(w, id, entry);
    var t := Next(s, ev);
    if Inserts(s, ev) {
      var r := s.workers[w].req.row;
      assert EffectOk(s, r);
      assert IsKeyed(t.entries, id, t.rows[r].key);
      assert EffectOk(t, r) <==> s.rows[r].status == Processing by { PostedRow(s, t, r, id); }
      InvRows(s);
      if EffectOk(t, r) {
        hide EffectOk, Inv;
        InsertEffect(s, t, id, entry.(key := Some(s.rows[r].key)));
      }
    } else {
      SameParts(s, t);
    }
  }

  lemma PostedRow(s: State, t: State, r: RowId, id: EntryId)
    requires Inv(s) && r in s.rows && EffectOk(s, r) && !HasKeyed(s.entries, s.rows[r].key)
    requires t.rows == s.rows && t.linked == s.linked && IsKeyed(t.entries, id, s.rows[r].key)
    requires forall e :: IsKeyed(t.entries, e, s.rows[r].key) ==> e == id || IsKeyed(s.entries, e, s.rows[r].key)
    ensures EffectOk(t, r) <==> s.rows[r].status == Processing
  {
    if s.rows[r].status == Processing { NotLinked(s, r); }
    if r in s.linked { LinkedRowConfirmed(s, r); }
  }

  lemma RejectEffect(s: State, r: RowId)
    requires Inv(s) && OneEffect(s)
    ensures OneEffect(Next(s, Reject(r)))
  {
    var t := Next(s, Reject(r));
    if t != s {
      NotLinked(s, r);
      assert EffectOk(s, r) && EffectOk(t, r);
      hide EffectOk, Inv;
      EffectFrame(s, t, r);
    }
  }

  lemma OtherEntryEffect(s: State, id: EntryId, entry: Entry)
    requires Inv(s) && OneEffect(s)
    ensures OneEffect(Next(s, OtherEntry(id, entry)))
  {
    hide EffectOk, Inv;
    if Insertable(s, id, entry) {
      InsertEffect(s, Next(s, OtherEntry(id, entry)), id, entry);
    }
  }

  lemma VoidEffect(s: State, id: EntryId)
    requires OneEffect(s)
    ensures OneEffect(Next(s, Void(id)))
  {
    hide EffectOk;
    var t := Next(s, Void(id));
    forall r | r in t.rows ensures EffectOk(t, r) {
      if HasKeyed(t.entries, s.rows[r].key) {
        var e :| IsKeyed(t.entries, e, s.rows[r].key);
        assert IsKeyed(s.entries, e, s.rows[r].key);
      }
      SameEffect(s, t, r);
    }
  }

  /**
   * From a state in which every message has at most one ledger effect, a step
   * keeps that if and only if it does not post onto a row that is no longer
   * being processed and does not reopen a row whose entry is already posted.
   */
  lemma StepKeepsOneEffectIff(s: State, ev: Event)
    requires Inv(s) && OneEffect(s)
    ensures OneEffect(Next(s, ev)) <==> Guarded(s, ev)
  {
    hide Inv, OneEffect, Guarded, Next;
    if !ev.Post? && !ev.Release? {
      OnlyPostAndReleaseNeedGuards(s, ev);
    }
    match ev
    case Receive(r, key, text) => ReceiveEffect(s, r, key, text);
    case Link(w) => LinkEffect(s, w);
    case ConfirmReplay(w) => ConfirmEffect(s, w);
    case ConfirmPosted(w) => ConfirmEffect(s, w);
    case Claim(w) => ClaimEffect(s, w);
    case Post(w, id, entry) => PostEffect(s, w, id, entry);
    case Release(w) => ReleaseEffect(s, w);
    case Reject(r) => RejectEffect(s, r);
    case OtherEntry(id, entry) => OtherEntryEffect(s, id, entry);
    case Void(id) => VoidEffect(s, id);
    case _ => QuietEffect(s, ev);
  }

  lemma OnlyPostAndReleaseNeedGuards(s: State, ev: Event)
    requires !ev.Post? && !ev.Release?
    ensures Guarded(s, ev)
  {}

  lemma QuietEffect(s: State, ev: Event)
    requires OneEffect(s) && Quiet(ev)
    ensures OneEffect(Next(s, ev))
  {
    hide OneEffect, Next;
    QuietParts(s, ev);
    SameParts(s, Next(s, ev));
  }

  // ------------------------------------------------------------------- one effect throughout a run

  ghost predicate AllGuarded(s: State, evs: seq<Event>)
    decreases |evs|
  {
    evs == [] || (Guarded(s, evs[0]) && AllGuarded(Next(s, evs[0]), evs[1..]))
  }

  /** Every state the run passes through, the first and the last included. */
  ghost predicate AlwaysOneEffect(s: State, evs: seq<Event>) {
    forall k :: 0 <= k <= |evs| ==> OneEffect(Exec(s, evs[..k]))
  }

  lemma AlwaysOneEffectStep(s: State, evs: seq<Event>)
    requires evs != []
    ensures AlwaysOneEffect(s, evs) <==> OneEffect(s) && AlwaysOneEffect(Next(s, evs[0]), evs[1..])
  {
    hide OneEffect, Next;
    var t, rest := Next(s, evs[0]), evs[1..];
    assert evs[..0] == [] && Exec(s, []) == s;
    forall k | 0 <= k <= |rest| ensures Exec(s, evs[..k + 1]) == Exec(t, rest[..k]) {
      assert evs[..k + 1][1..] == rest[..k];
    }
    if OneEffect(s) && AlwaysOneEffect(t, rest) {
      forall k | 0 <= k <= |evs| ensures OneEffect(Exec(s, evs[..k])) {
        if k > 0 { assert Exec(s, evs[..k - 1 + 1]) == Exec(t, rest[..k - 1]); }
      }
    }
  }

  /** A run keeps one effect per message in all its states if and only if each of its steps is guarded. */
  lemma {:induction false} OneEffectRunIff(s: State, evs: seq<Event>)
    requires Inv(s) && OneEffect(s)
    ensures AlwaysOneEffect(s, evs) <==> AllGuarded(s, evs)
    decreases |evs|
  {
    hide Inv, OneEffect, Next, Guarded;
    if evs == [] {
      assert evs[..0] == [];
    } else {
      var t := Next(s, evs[0]);
      AlwaysOneEffectStep(s, evs);
      StepKeepsOneEffectIff(s, evs[0]);
      StepKeepsInv(s, evs[0]);
      if OneEffect(t) {
        OneEffectRunIff(t, evs[1..]);
      } else {
        assert evs[1..][..0] == [] && Exec(t, []) == t;
      }
    }
  }

  // ------------------------------------------------------------------ disciplined runs

  /** No worker inserts an entry after its five-minute lease. */
  ghost predicate InLease(s: State, ev: Event) {
    Inserts(s, ev) ==> s.now <= s.workers[ev.w].stage.at + LEASE
  }

  /** No release reopens a message whose entry was committed but not confirmed. */
  ghost predicate NoExposedRelease(s: State, ev: Event) {
    Reopens(s, ev) ==> !HasKeyed(s.entries, s.rows[s.workers[ev.w].req.row].key)
  }

  ghost predicate RunInLease(s: State, evs: seq<Event>)
    decreases |evs|
  {
    evs == [] || (InLease(s, evs[0]) && RunInLease(Next(s, evs[0]), evs[1..]))
  }

  ghost predicate RunNoExposedRelease(s: State, evs: seq<Event>)
    decreases |evs|
  {
    evs == [] || (NoExposedRelease(s, evs[0]) && RunNoExposedRelease(Next(s, evs[0]), evs[1..]))
  }

  ghost predicate Disciplined(s: State, evs: seq<Event>) {
    RunInLease(s, evs) && RunNoExposedRelease(s, evs)
  }

  lemma InLeaseIsGuarded(s: State, ev: Event)
    requires Inv(s) && InLease(s, ev) && NoExposedRelease(s, ev)
    ensures Guarded(s, ev)
  {
    if Inserts(s, ev) {
      InvWorker(s, ev.w);
    }
  }

  lemma {:induction false} DisciplinedRunKeeps(s: State, evs: seq<Event>)
    requires Inv(s) && OneEffect(s) && Disciplined(s, evs)
    ensures Inv(Exec(s, evs)) && OneEffect(Exec(s, evs))
    decreases |evs|
  {
    hide Inv, OneEffect, Next, Guarded, InLease, NoExposedRelease;
    if evs != [] {
      InLeaseIsGuarded(s, evs[0]);
      StepKeepsInv(s, evs[0]);
      StepKeepsOneEffectIff(s, evs[0]);
      DisciplinedRunKeeps(Next(s, evs[0]), evs[1..]);
    }
  }

  /**
   * In every run in which no worker outlives its lease and no committed entry is
   * released unconfirmed, each message has at most one ledger effect: a rejected
   * or pending message none, a confirmed one either its keyed entry or one link.
   */
  lemma DisciplinedRuns(s: State, evs: seq<Event>, r: RowId)
    requires Init(s) && Disciplined(s, evs) && r in Exec(s, evs).rows
    ensures var t := Exec(s, evs);
            var row, keyed := t.rows[r], HasKeyed(t.entries, t.rows[r].key);
            && !DoubleEffect(t, r) && !(keyed && r in t.linked)
            && (row.status == Pending || row.status == Rejected ==> !keyed && r !in t.linked)
            && (row.status == Confirmed ==>
                  if r in t.linked then row.entryId == Some(t.linked[r].entry)
                  else row.entryId.Some? && IsKeyed(t.entries, row.entryId.value, row.key))
  {
    InitIsOk(s);
    DisciplinedRunKeeps(s, evs);
    var t := Exec(s, evs);
    assert EffectOk(t, r);
    if r in t.linked { LinkedRowConfirmed(t, r); }
  }

  lemma OnlyKeyedEntry(s: State, w: WorkerId, r: RowId)
    requires Inv(s) && At(s, w) && (s.workers[w].stage.Replaying? || s.workers[w].stage.Confirming?)
    requires r == s.workers[w].req.row && EffectOk(s, r) && s.rows[r].status == Confirmed
    ensures s.rows[r].entryId == Some(s.workers[w].stage.entry)
  {
    InvWorker(s, w);
  }

  lemma EntryStays(s: State, ev: Event, r: RowId)
    requires Inv(s) && OneEffect(s) && r in s.rows && s.rows[r].status == Confirmed
    ensures r in Next(s, ev).rows && Next(s, ev).rows[r].entryId == s.rows[r].entryId
  {
    hide Inv, OneEffect, WorkerOk, Insertable, Matches, Existing, EffectOk;
    ConfirmedStays(s, ev, r);
    if Quiet(ev) {
      QuietParts(s, ev);
    } else if ev.ConfirmReplay? || ev.ConfirmPosted? {
      ConfirmAgain(s, ev.w, r);
    } else {
      OtherLoudEntry(s, ev, r);
    }
  }

  lemma OtherLoudEntry(s: State, ev: Event, r: RowId)
    requires !Quiet(ev) && !ev.ConfirmReplay? && !ev.ConfirmPosted?
    requires r in s.rows && s.rows[r].status == Confirmed && r in Next(s, ev).rows
    ensures Next(s, ev).rows[r].entryId == s.rows[r].entryId
  {
    hide Matches, Insertable, HasKeyed, Existing, FreshKey;
  }

  lemma ConfirmAgain(s: State, w: WorkerId, r: RowId)
    requires Inv(s) && OneEffect(s) && r in s.rows && s.rows[r].status == Confirmed
    ensures At(s, w) && r == s.workers[w].req.row && (s.workers[w].stage.Replaying? || s.workers[w].stage.Confirming?)
         ==> s.rows[r].entryId == Some(s.workers[w].stage.entry)
  {
    assert EffectOk(s, r);
    if At(s, w) && r == s.workers[w].req.row && (s.workers[w].stage.Replaying? || s.workers[w].stage.Confirming?) {
      OnlyKeyedEntry(s, w, r);
    }
  }

  /** In a disciplined run the entry a message was confirmed with never changes. */
  lemma {:induction false} ConfirmedEntryIsFinal(s: State, evs: seq<Event>, r: RowId)
    requires Inv(s) && OneEffect(s) && Disciplined(s, evs) && r in s.rows && s.rows[r].status == Confirmed
    ensures r in Exec(s, evs).rows && Exec(s, evs).rows[r].entryId == s.rows[r].entryId
    decreases |evs|
  {
    hide Inv, OneEffect, Next, Guarded, InLease, NoExposedRelease;
    if evs != [] {
      InLeaseIsGuarded(s, evs[0]);
      StepKeepsInv(s, evs[0]);
      StepKeepsOneEffectIff(s, evs[0]);
      EntryStays(s, evs[0], r);
      ConfirmedStays(s, evs[0], r);
      ConfirmedEntryIsFinal(Next(s, evs[0]), evs[1..], r);
    }
  }

  // --------------------------------------------------------------- why both are needed

  lemma ExecCons(s: State, ev: Event, evs: seq<Event>)
    ensures Exec(s, [ev] + evs) == Exec(Next(s, ev), evs)
  {
    hide Next;
    assert ([ev] + evs)[1..] == evs;
  }

  /** The state with worker `w` at a given point of a call. */
  ghost function AtStage(s: State, w: WorkerId, req: Request, stage: Stage): State {
    s.(workers := s.workers[w := Worker(req, stage)])
  }

  lemma FreshCall(s: State, w: WorkerId, req: Request)
    requires w !in s.workers && req.row in s.rows && s.rows[req.row].status != Rejected
    requires req.linkTo.Some? ==> req.transfer
    ensures Next(Next(s, Start(w, req)), Read(w))
         == AtStage(s, w, req, if req.linkTo.Some? then Linking else Checking)
  {}

  ghost function LinkCall(w: WorkerId, req: Request): seq<Event> {
    [Start(w, req)] + ([Read(w)] + ([Link(w)] + []))
  }

  /** A link made while the keyed entry exists is a second effect: the link never looks for it. */
  lemma LinkBesideEntry(s: State, r: RowId, w: WorkerId, req: Request)
    requires r in s.rows && w !in s.workers && req.row == r && req.transfer && Linkable(s, req)
    requires !IsKeyed(s.entries, req.linkTo.value, s.rows[r].key)
    ensures Exec(s, LinkCall(w, req))
         == AtStage(s, w, req, Finished).(rows := s.rows[r := LinkedTo(s.rows[r], req.linkTo.value)],
                                          linked := s.linked[r := LinkRecord(req.linkTo.value, req)])
    ensures HasKeyed(s.entries, s.rows[r].key) ==> DoubleEffect(Exec(s, LinkCall(w, req)), r)
  {
    hide Next, Exec, HasKeyed, Linkable;
    var s1 := Next(s, Start(w, req));
    var s2 := Next(s1, Read(w));
    ExecCons(s, Start(w, req), [Read(w)] + ([Link(w)] + []));
    ExecCons(s1, Read(w), [Link(w)] + []);
    ExecCons(s2, Link(w), []);
    ExecNothing(Next(s2, Link(w)));
    LinkableIsPending(s, req);
    FreshCall(s, w, req);
    StepLink(s, w, req);
  }

  lemma LinkableIsPending(s: State, req: Request)
    requires Linkable(s, req)
    ensures req.linkTo.Some? && req.row in s.rows && s.rows[req.row].status == Pending
  {
    hide Matches;
  }

  lemma StepLink(s: State, w: WorkerId, req: Request)
    requires Linkable(s, req)
    ensures Next(AtStage(s, w, req, Linking), Link(w))
         == AtStage(s, w, req, Finished).(rows := s.rows[req.row := LinkedTo(s.rows[req.row], req.linkTo.value)],
                                          linked := s.linked[req.row := LinkRecord(req.linkTo.value, req)])
  {
    hide Matches;
    var t := AtStage(s, w, req, Linking);
    assert Linkable(t, req);
    Restage(s, w, req, Linking, Finished);
  }

  lemma PostOnLinked(t: State, r: RowId, slow: WorkerId, id: EntryId, entry: Entry)
    requires At(t, slow) && t.workers[slow].req.row == r && t.workers[slow].stage.Posting?
    requires r in t.linked && t.linked[r].entry in t.entries && id !in t.entries
    requires !HasKeyed(t.entries, t.rows[r].key)
    ensures DoubleEffect(Next(t, Post(slow, id, entry)), r)
  {
    var u := Next(t, Post(slow, id, entry));
    assert IsKeyed(u.entries, id, t.rows[r].key);
    assert !IsKeyed(t.entries, t.linked[r].entry, t.rows[r].key);
  }

  lemma {:induction false} ExecAppend(s: State, evs: seq<Event>, ev: Event)
    ensures Exec(s, evs + [ev]) == Next(Exec(s, evs), ev)
    decreases |evs|
  {
    hide Next;
    if evs == [] {
      assert evs + [ev] == [ev] + [];
      ExecCons(s, ev, []);
    } else {
      assert (evs + [ev])[1..] == evs[1..] + [ev];
      ExecAppend(Next(s, evs[0]), evs[1..], ev);
    }
  }

  // ------------------------------------------------------------------------- progress

  ghost function ReplayCall(w: WorkerId, req: Request): seq<Event> {
    [Start(w, req)] + ([Read(w)] + ([CheckReplay(w)] + ([ConfirmReplay(w)] + [])))
  }

  /** A call that finds the entry already posted, after a crash say, confirms it and posts nothing. */
  lemma ReplayRecovers(s: State, r: RowId, w: WorkerId, req: Request)
    requires r in s.rows && s.rows[r].status != Rejected && HasKeyed(s.entries, s.rows[r].key)
    requires w !in s.workers && req.row == r && req.linkTo.None?
    ensures var e := Existing(s.entries, s.rows[r].key).value;
            && IsKeyed(s.entries, e, s.rows[r].key)
            && Exec(s, ReplayCall(w, req)) == AtStage(s, w, req, Finished).(rows := s.rows[r := Replayed(s.rows[r], e)])
  {
    hide Exec, Next, HasKeyed;
    var s1 := Next(s, Start(w, req));
    var s2 := Next(s1, Read(w));
    var s3 := Next(s2, CheckReplay(w));
    ExecCons(s, Start(w, req), [Read(w)] + ([CheckReplay(w)] + ([ConfirmReplay(w)] + [])));
    ExecCons(s1, Read(w), [CheckReplay(w)] + ([ConfirmReplay(w)] + []));
    ExecCons(s2, CheckReplay(w), [ConfirmReplay(w)] + []);
    ExecCons(s3, ConfirmReplay(w), []);
    ExecNothing(Next(s3, ConfirmReplay(w)));
    FreshCall(s, w, req);
    var e := Existing(s.entries, s.rows[r].key).value;
    StepCheck(s2, w, req);
    assert s3 == AtStage(s, w, req, Replaying(e));
    StepReplay(s3, w, req, e);
  }

  lemma ExecNothing(s: State)
    ensures Exec(s, []) == s
  {}

  // Single steps of a lone call, as equations between states.

  lemma StepCheck(s: State, w: WorkerId, req: Request)
    requires w in s.workers && s.workers[w] == Worker(req, Checking) && req.row in s.rows
    ensures var found := Existing(s.entries, s.rows[req.row].key);
            Next(s, CheckReplay(w)) == AtStage(s, w, req, if found.Some? then Replaying(found.value) else Claiming)
  {
    hide Existing, HasKeyed;
  }

  lemma StepReplay(s: State, w: WorkerId, req: Request, e: EntryId)
    requires w in s.workers && s.workers[w] == Worker(req, Replaying(e)) && req.row in s.rows
    ensures Next(s, ConfirmReplay(w))
         == AtStage(s, w, req, Finished).(rows := s.rows[req.row := Replayed(s.rows[req.row], e)])
  {}

  lemma StepPost(s: State, w: WorkerId, req: Request, id: EntryId, entry: Entry, at: int)
    requires w in s.workers && s.workers[w] == Worker(req, Posting(at)) && req.row in s.rows
    requires id !in s.entries && !HasKeyed(s.entries, s.rows[req.row].key)
    ensures Next(s, Post(w, id, entry))
         == AtStage(s, w, req, Rereading(at)).(entries := s.entries[id := entry.(key := Some(s.rows[req.row].key))])
  {
    hide HasKeyed;
  }

  lemma StepReread(s: State, w: WorkerId, req: Request, at: int)
    requires w in s.workers && s.workers[w] == Worker(req, Rereading(at)) && req.row in s.rows
    ensures var found := Existing(s.entries, s.rows[req.row].key);
            Next(s, Reread(w)) == AtStage(s, w, req, if found.Some? then Confirming(at, found.value) else Releasing(at))
  {
    hide Existing, HasKeyed;
  }

  lemma StepConfirm(s: State, w: WorkerId, req: Request, at: int, e: EntryId)
    requires w in s.workers && s.workers[w] == Worker(req, Confirming(at, e)) && req.row in s.rows
    ensures Next(s, ConfirmPosted(w))
         == AtStage(s, w, req, Releasing(at)).(rows := s.rows[req.row := LinkedTo(s.rows[req.row], e)])
  {}

  lemma StepRelease(s: State, w: WorkerId, req: Request, at: int)
    requires w in s.workers && s.workers[w] == Worker(req, Releasing(at)) && req.row in s.rows
    ensures Next(s, Release(w)) == AtStage(s, w, req, Finished).(rows := Next(s, Release(w)).rows)
    ensures Next(s, Release(w)).rows
         == if Releasable(s.rows[req.row], at) then s.rows[req.row := Released(s.rows[req.row])] else s.rows
  {}

  ghost function PostingTail(w: WorkerId, id: EntryId, entry: Entry): seq<Event> {
    [Post(w, id, entry)] + ([Reread(w)] + ([ConfirmPosted(w)] + ([Release(w)] + [])))
  }

  ghost function WholeCall(w: WorkerId, req: Request, id: EntryId, entry: Entry): seq<Event> {
    [Start(w, req)] + ([Read(w)] + ([CheckReplay(w)] + ([Claim(w)] + PostingTail(w, id, entry))))
  }

  lemma CallClaims(s: State, r: RowId, w: WorkerId, req: Request)
    requires r in s.rows && s.rows[r].status == Pending && !HasKeyed(s.entries, s.rows[r].key)
    requires w !in s.workers && req.row == r && req.linkTo.None?
    ensures Next(Next(Next(Next(s, Start(w, req)), Read(w)), CheckReplay(w)), Claim(w)) == AfterClaim(s, w, req)
  {
    hide Next, HasKeyed;
    FreshCall(s, w, req);
    StepCheck(AtStage(s, w, req, Checking), w, req);
    Restage(s, w, req, Checking, Claiming);
    StepTakeOver(AtStage(s, w, req, Claiming), w, req);
    Restage(s, w, req, Claiming, Finished);
  }

  /** An undisturbed call on a pending message posts exactly one entry and confirms with it. */
  lemma SoloRunConfirms(s: State, r: RowId, w: WorkerId, req: Request, id: EntryId, entry: Entry)
    requires r in s.rows && s.rows[r].status == Pending && !HasKeyed(s.entries, s.rows[r].key)
    requires w !in s.workers && req.row == r && req.linkTo.None? && id !in s.entries
    ensures var t := Exec(s, WholeCall(w, req, id, entry));
            && t.entries == s.entries[id := entry.(key := Some(s.rows[r].key))]
            && t.rows == s.rows[r := LinkedTo(s.rows[r], id)]
  {
    hide Exec, Next, HasKeyed, PostingTail;
    var s1 := Next(s, Start(w, req));
    var s2 := Next(s1, Read(w));
    var s3 := Next(s2, CheckReplay(w));
    var tail := PostingTail(w, id, entry);
    ExecCons(s, Start(w, req), [Read(w)] + ([CheckReplay(w)] + ([Claim(w)] + tail)));
    ExecCons(s1, Read(w), [CheckReplay(w)] + ([Claim(w)] + tail));
    ExecCons(s2, CheckReplay(w), [Claim(w)] + tail);
    ExecCons(s3, Claim(w), tail);
    CallClaims(s, r, w, req);
    SoloTail(Next(s3, Claim(w)), r, w, req, id, entry, s.now);
  }

  lemma OnlyInserted(entries: map<EntryId, Entry>, id: EntryId, entry: Entry, key: string)
    requires !HasKeyed(entries, key) && entry.key == Some(key)
    ensures Existing(entries[id := entry], key) == Some(id)
  {
    var more := entries[id := entry];
    assert IsKeyed(more, id, key);
    var e := Existing(more, key).value;
    if e != id { assert IsKeyed(entries, e, key); }
  }

  lemma SoloTail(s: State, r: RowId, w: WorkerId, req: Request, id: EntryId, entry: Entry, at: int)
    requires w in s.workers && s.workers[w] == Worker(req, Posting(at)) && req.row == r
    requires r in s.rows && id !in s.entries && !HasKeyed(s.entries, s.rows[r].key)
    ensures var t := Exec(s, PostingTail(w, id, entry));
            && t.entries == s.entries[id := entry.(key := Some(s.rows[r].key))]
            && t.rows == s.rows[r := LinkedTo(s.rows[r], id)]
  {
    var s1 := Next(s, Post(w, id, entry));
    var s2 := Next(s1, Reread(w));
    var s3 := Next(s2, ConfirmPosted(w));
    ExecCons(s, Post(w, id, entry), [Reread(w)] + ([ConfirmPosted(w)] + ([Release(w)] + [])));
    ExecCons(s1, Reread(w), [ConfirmPosted(w)] + ([Release(w)] + []));
    ExecCons(s2, ConfirmPosted(w), [Release(w)] + []);
    ExecCons(s3, Release(w), []);
    var keyed := entry.(key := Some(s.rows[r].key));
    OnlyInserted(s.entries, id, keyed, s.rows[r].key);
    hide HasKeyed, Existing, Next, Exec, PostingTail;
    ExecNothing(Next(s3, Release(w)));
    StepPost(s, w, req, id, entry, at);
    StepReread(s1, w, req, at);
    StepConfirm(s2, w, req, at, id);
    StepRelease(s3, w, req, at);
  }

  // ------------------------------------------------- the conditions can really be broken

  ghost function ClaimCall(w: WorkerId, req: Request, rest: seq<Event>): seq<Event> {
    [Start(w, req)] + ([Read(w)] + ([CheckReplay(w)] + ([Claim(w)] + rest)))
  }

  lemma ExecClaim(s: State, w: WorkerId, req: Request, rest: seq<Event>)
    ensures Exec(s, ClaimCall(w, req, rest))
         == Exec(Next(Next(Next(Next(s, Start(w, req)), Read(w)), CheckReplay(w)), Claim(w)), rest)
  {
    hide Next, Exec;
    var s1 := Next(s, Start(w, req));
    var s2 := Next(s1, Read(w));
    ExecCons(s, Start(w, req), [Read(w)] + ([CheckReplay(w)] + ([Claim(w)] + rest)));
    ExecCons(s1, Read(w), [CheckReplay(w)] + ([Claim(w)] + rest));
    ExecCons(s2, CheckReplay(w), [Claim(w)] + rest);
    ExecCons(Next(s2, CheckReplay(w)), Claim(w), rest);
  }

  lemma StepFail(s: State, w: WorkerId, req: Request, at: int, stage: Stage)
    requires w in s.workers && s.workers[w] == Worker(req, stage)
    requires stage == Posting(at) || stage == Rereading(at)
    ensures Next(s, Fail(w)) == AtStage(s, w, req, Releasing(at))
  {}

  ghost function AfterClaim(s: State, w: WorkerId, req: Request): State
    requires req.row in s.rows
  {
    AtStage(s, w, req, Posting(s.now)).(rows := s.rows[req.row := Claimed(s.rows[req.row], s.now)],
                                        owner := s.owner[req.row := w])
  }

  ghost function FailTail(w: WorkerId): seq<Event> {
    [Fail(w)] + ([Release(w)] + [])
  }

  /** A claim that fails gives the message back. */
  lemma ExecFailTail(s: State, w: WorkerId, req: Request, at: int, stage: Stage)
    requires w in s.workers && s.workers[w] == Worker(req, stage) && req.row in s.rows
    requires stage == Posting(at) || stage == Rereading(at)
    requires Releasable(s.rows[req.row], at)
    ensures Exec(s, FailTail(w)) == AtStage(s, w, req, Finished).(rows := s.rows[req.row := Released(s.rows[req.row])])
  {
    hide Exec, Next;
    var s1 := Next(s, Fail(w));
    ExecCons(s, Fail(w), [Release(w)] + []);
    ExecCons(s1, Release(w), []);
    ExecNothing(Next(s1, Release(w)));
    StepFail(s, w, req, at, stage);
    StepRelease(s1, w, req, at);
  }

  lemma ExecPostFailTail(s: State, w: WorkerId, req: Request, id: EntryId, entry: Entry, at: int)
    requires w in s.workers && s.workers[w] == Worker(req, Posting(at)) && req.row in s.rows
    requires id !in s.entries && !HasKeyed(s.entries, s.rows[req.row].key) && Releasable(s.rows[req.row], at)
    ensures Exec(s, [Post(w, id, entry)] + FailTail(w))
         == AtStage(s, w, req, Finished).(rows := s.rows[req.row := Released(s.rows[req.row])],
                                          entries := s.entries[id := entry.(key := Some(s.rows[req.row].key))])
  {
    hide Exec, Next, HasKeyed, FailTail;
    var s1 := Next(s, Post(w, id, entry));
    ExecCons(s, Post(w, id, entry), FailTail(w));
    StepPost(s, w, req, id, entry, at);
    ExecFailTail(s1, w, req, at, Rereading(at));
  }

  lemma ClaimedIsReleasable(row: Row, at: int)
    ensures Releasable(Claimed(row, at), at) && Claimed(row, at).key == row.key
  {}

  lemma PendingIsReleased(s: State, r: RowId)
    requires r in s.rows && s.rows[r].status == Pending && RowOk(s.entries, s.now, s.rows[r])
    ensures s.rows[r := Claimed(s.rows[r], s.now)][r := Released(Claimed(s.rows[r], s.now))] == s.rows
  {
    assert Released(Claimed(s.rows[r], s.now)) == s.rows[r];
  }

  /** A claim of a pending message, given back, leaves the row as it was. */
  lemma AfterClaimIsReleased(s: State, r: RowId, w: WorkerId, req: Request)
    requires r in s.rows && s.rows[r].status == Pending && RowOk(s.entries, s.now, s.rows[r]) && req.row == r
    ensures var t := AfterClaim(s, w, req);
      && w in t.workers && t.workers[w] == Worker(req, Posting(s.now)) && t.entries == s.entries
      && r in t.rows && t.rows[r].key == s.rows[r].key && Releasable(t.rows[r], s.now)
      && t.rows[r := Released(t.rows[r])] == s.rows
      && t.workers[w := Worker(req, Finished)] == s.workers[w := Worker(req, Finished)]
  {
    PendingIsReleased(s, r);
    ClaimedIsReleasable(s.rows[r], s.now);
  }

  /**
   * A call whose post commits and whose next statement fails puts the message
   * back to pending as if nothing had happened, well within its lease.
   */
  lemma FailureAfterPost(s: State, r: RowId, w: WorkerId, req: Request, id: EntryId, entry: Entry)
    requires Inv(s) && r in s.rows && s.rows[r].status == Pending && !HasKeyed(s.entries, s.rows[r].key)
    requires w !in s.workers && req.row == r && req.linkTo.None? && id !in s.entries
    ensures var t := Exec(s, ClaimCall(w, req, [Post(w, id, entry)] + FailTail(w)));
            && t.rows == s.rows && t.entries == s.entries[id := entry.(key := Some(s.rows[r].key))]
            && t.workers == s.workers[w := Worker(req, Finished)]
  {
    InvRow(s, r);
    AfterClaimIsReleased(s, r, w, req);
    hide Next, Exec, HasKeyed, Inv, ClaimCall, FailTail, RowOk, AfterClaim, Released, Claimed;
    ExecClaim(s, w, req, [Post(w, id, entry)] + FailTail(w));
    CallClaims(s, r, w, req);
    ExecPostFailTail(AfterClaim(s, w, req), w, req, id, entry, s.now);
  }

  // Which steps of a run the two conditions look at.

  lemma LeaseCons(s: State, ev: Event, evs: seq<Event>)
    ensures RunInLease(s, [ev] + evs) <==> InLease(s, ev) && RunInLease(Next(s, ev), evs)
    ensures RunNoExposedRelease(s, [ev] + evs) <==> NoExposedRelease(s, ev) && RunNoExposedRelease(Next(s, ev), evs)
  {
    hide Next, InLease, NoExposedRelease;
    assert ([ev] + evs)[1..] == evs;
  }

  lemma {:induction false} RunsAppend(s: State, a: seq<Event>, b: seq<Event>)
    ensures Exec(s, a + b) == Exec(Exec(s, a), b)
    ensures RunInLease(s, a + b) <==> RunInLease(s, a) && RunInLease(Exec(s, a), b)
    ensures RunNoExposedRelease(s, a + b) <==> RunNoExposedRelease(s, a) && RunNoExposedRelease(Exec(s, a), b)
    decreases |a|
  {
    hide Next, InLease, NoExposedRelease;
    if a == [] {
      assert a + b == b;
    } else {
      RunsAppend(Next(s, a[0]), a[1..], b);
      assert (a + b)[1..] == a[1..] + b;
    }
  }

  predicate NoPost(evs: seq<Event>) {
    forall i :: 0 <= i < |evs| ==> !evs[i].Post?
  }

  predicate NoRelease(evs: seq<Event>) {
    forall i :: 0 <= i < |evs| ==> !evs[i].Release?
  }

  lemma OnlyPostsOverrun(s: State, ev: Event)
    ensures !ev.Post? ==> InLease(s, ev)
    ensures !ev.Release? ==> NoExposedRelease(s, ev)
  {}

  lemma {:induction false} QuietRuns(s: State, evs: seq<Event>)
    ensures NoPost(evs) ==> RunInLease(s, evs)
    ensures NoRelease(evs) ==> RunNoExposedRelease(s, evs)
    decreases |evs|
  {
    hide Next, InLease, NoExposedRelease;
    if evs == [] {
    } else {
      OnlyPostsOverrun(s, evs[0]);
      QuietRuns(Next(s, evs[0]), evs[1..]);
    }
  }

  ghost function ClaimPrefix(w: WorkerId, req: Request): seq<Event> {
    [Start(w, req), Read(w), CheckReplay(w), Claim(w)]
  }

  lemma ClaimCallSplits(w: WorkerId, req: Request, rest: seq<Event>)
    ensures ClaimCall(w, req, rest) == ClaimPrefix(w, req) + rest
  {}

  /** Claim, post and fail, then link: the events of a run that needs no clock. */
  ghost function ExposedRun(w: WorkerId, req: Request, id: EntryId, entry: Entry, linker: WorkerId, link: Request)
    : seq<Event>
  {
    ClaimCall(w, req, [Post(w, id, entry)] + FailTail(w)) + LinkCall(linker, link)
  }

  lemma ExposedRunInLease(
      s: State, w: WorkerId, req: Request, id: EntryId, entry: Entry, linker: WorkerId, link: Request)
    requires req.row in s.rows && s.rows[req.row].status == Pending && !HasKeyed(s.entries, s.rows[req.row].key)
    requires w !in s.workers && req.linkTo.None?
    ensures RunInLease(s, ExposedRun(w, req, id, entry, linker, link))
  {
    hide Next, Exec, HasKeyed, RunInLease, RunNoExposedRelease;
    var tail := [Post(w, id, entry)] + FailTail(w);
    var prefix := ClaimPrefix(w, req);
    ClaimCallSplits(w, req, tail);
    RunsAppend(s, prefix + tail, LinkCall(linker, link));
    RunsAppend(s, prefix, tail);
    QuietRuns(s, prefix);
    QuietRuns(Exec(s, prefix + tail), LinkCall(linker, link));
    ExecClaimPrefix(s, w, req);
    LeaseCons(Exec(s, prefix), Post(w, id, entry), FailTail(w));
    QuietRuns(Next(Exec(s, prefix), Post(w, id, entry)), FailTail(w));
  }

  lemma ExecClaimPrefix(s: State, w: WorkerId, req: Request)
    requires req.row in s.rows && s.rows[req.row].status == Pending && !HasKeyed(s.entries, s.rows[req.row].key)
    requires w !in s.workers && req.linkTo.None?
    ensures Exec(s, ClaimPrefix(w, req)) == AfterClaim(s, w, req)
  {
    hide Next, Exec, HasKeyed;
    ClaimCallSplits(w, req, []);
    assert ClaimPrefix(w, req) + [] == ClaimPrefix(w, req);
    ExecClaim(s, w, req, []);
    CallClaims(s, req.row, w, req);
    ExecNothing(AfterClaim(s, w, req));
  }

  /**
   * Staying within the lease is not enough: every pending message with a matching
   * transfer has a run that does, and still records it twice.
   */
  lemma ReleaseConditionIsNeeded(s: State, r: RowId, w: WorkerId, req: Request, id: EntryId, entry: Entry,
                                 linker: WorkerId, link: Request)
    requires Inv(s) && r in s.rows && s.rows[r].status == Pending && !HasKeyed(s.entries, s.rows[r].key)
    requires w !in s.workers && req.row == r && req.linkTo.None? && id !in s.entries
    requires linker !in s.workers && linker != w && link.row == r && link.transfer && Linkable(s, link)
    ensures var evs := ExposedRun(w, req, id, entry, linker, link);
      RunInLease(s, evs) && DoubleEffect(Exec(s, evs), r)
    ensures exists evs :: RunInLease(s, evs) && DoubleEffect(Exec(s, evs), r)
  {
    FailureAfterPost(s, r, w, req, id, entry);
    var evs := ClaimCall(w, req, [Post(w, id, entry)] + FailTail(w));
    var t := Exec(s, evs);
    assert IsKeyed(t.entries, id, t.rows[r].key);
    assert Linkable(t, link);
    hide Exec, Inv, Linkable, ClaimCall;
    assert !IsKeyed(s.entries, link.linkTo.value, s.rows[r].key);
    LinkBesideEntry(t, r, linker, link);
    RunsAppend(s, evs, LinkCall(linker, link));
    ExposedRunInLease(s, w, req, id, entry, linker, link);
  }

  /** A claimer that stalls past its lease is taken over, and finds the message pending again when the other fails. */
  lemma StalledClaim(s: State, r: RowId, slow: WorkerId, slowReq: Request, w: WorkerId, req: Request)
    requires Inv(s) && r in s.rows && s.rows[r].status == Pending && !HasKeyed(s.entries, s.rows[r].key)
    requires slow !in s.workers && w !in s.workers && slow != w
    requires slowReq.row == r && slowReq.linkTo.None? && req.row == r && req.linkTo.None?
    ensures var t := Exec(s, ClaimCall(slow, slowReq, [Tick(LEASE + 1)]
                            + ClaimCall(w, req, FailTail(w))));
            && t.rows == s.rows && t.entries == s.entries
            && t.workers == s.workers[slow := Worker(slowReq, Posting(s.now))][w := Worker(req, Finished)]
  {
    InvRow(s, r);
    hide Exec, HasKeyed, Inv, ClaimCall, FailTail, Next;
    var rest := ClaimCall(w, req, FailTail(w));
    ExecClaim(s, slow, slowReq, [Tick(LEASE + 1)] + rest);
    CallClaims(s, r, slow, slowReq);
    var s1 := AfterClaim(s, slow, slowReq);
    ExecCons(s1, Tick(LEASE + 1), rest);
    StepTick(s1, LEASE + 1);
    TakenOverAndFailed(s1.(now := s.now + LEASE + 1), r, w, req, s.now);
  }

  lemma TakenOverAndFailed(s: State, r: RowId, w: WorkerId, req: Request, at: int)
    requires r in s.rows && s.rows[r].status == Processing && s.rows[r].processingAt == Some(at) && at < s.now - LEASE
    requires !HasKeyed(s.entries, s.rows[r].key) && w !in s.workers && req.row == r && req.linkTo.None?
    ensures var t := Exec(s, ClaimCall(w, req, FailTail(w)));
            && t.rows == s.rows[r := Released(s.rows[r])] && t.entries == s.entries
            && t.workers == s.workers[w := Worker(req, Finished)]
  {
    hide Exec, HasKeyed, ClaimCall, FailTail, Next;
    ExecClaim(s, w, req, FailTail(w));
    TakesOver(s, r, w, req, at);
    ExecFailTail(AfterClaim(s, w, req), w, req, s.now, Posting(s.now));
  }

  lemma Restage(s: State, w: WorkerId, req: Request, before: Stage, after: Stage)
    ensures AtStage(AtStage(s, w, req, before), w, req, after) == AtStage(s, w, req, after)
    ensures req.row in s.rows ==> AfterClaim(AtStage(s, w, req, before), w, req) == AfterClaim(s, w, req)
  {
    assert s.workers[w := Worker(req, before)][w := Worker(req, after)] == s.workers[w := Worker(req, after)];
    assert s.workers[w := Worker(req, before)][w := Worker(req, Posting(s.now))]
        == s.workers[w := Worker(req, Posting(s.now))];
  }

  lemma StepTick(s: State, elapsed: nat)
    ensures Next(s, Tick(elapsed)) == s.(now := s.now + elapsed)
  {}

  lemma StepTakeOver(s: State, w: WorkerId, req: Request)
    requires w in s.workers && s.workers[w] == Worker(req, Claiming) && req.row in s.rows
    requires Claimable(s.rows[req.row], s.now)
    ensures Next(s, Claim(w)) == AfterClaim(s, w, req)
  {}

  lemma TakesOver(s: State, r: RowId, w: WorkerId, req: Request, at: int)
    requires r in s.rows && s.rows[r].status == Processing && s.rows[r].processingAt == Some(at) && at < s.now - LEASE
    requires !HasKeyed(s.entries, s.rows[r].key) && w !in s.workers && req.row == r && req.linkTo.None?
    ensures Next(Next(Next(Next(s, Start(w, req)), Read(w)), CheckReplay(w)), Claim(w)) == AfterClaim(s, w, req)
  {
    hide Next, HasKeyed;
    FreshCall(s, w, req);
    StepCheck(AtStage(s, w, req, Checking), w, req);
    Restage(s, w, req, Checking, Claiming);
    StepTakeOver(AtStage(s, w, req, Claiming), w, req);
    Restage(s, w, req, Claiming, Finished);
  }

  /** Claim and stall, be taken over and given back, lose the message to a link, and post. */
  ghost function OverrunRun(slow: WorkerId, slowReq: Request, w: WorkerId, req: Request,
                            id: EntryId, entry: Entry, linker: WorkerId, link: Request): seq<Event>
  {
    ClaimCall(slow, slowReq, [Tick(LEASE + 1)] + ClaimCall(w, req, FailTail(w)))
    + (LinkCall(linker, link) + [Post(slow, id, entry)])
  }

  /** The one release in it finds no entry. */
  lemma StallReleasesCleanly(s: State, r: RowId, slow: WorkerId, slowReq: Request, w: WorkerId, req: Request)
    requires Inv(s) && r in s.rows && s.rows[r].status == Pending && !HasKeyed(s.entries, s.rows[r].key)
    requires slow !in s.workers && w !in s.workers && slow != w
    requires slowReq.row == r && slowReq.linkTo.None? && req.row == r && req.linkTo.None?
    ensures RunNoExposedRelease(s, ClaimCall(slow, slowReq, [Tick(LEASE + 1)] + ClaimCall(w, req, FailTail(w))))
  {
    hide Next, Exec, HasKeyed, Inv, RunInLease, RunNoExposedRelease, NoExposedRelease, FailTail, ClaimCall;
    var inner := ClaimCall(w, req, FailTail(w));
    var prefix := ClaimPrefix(slow, slowReq);
    ClaimCallSplits(slow, slowReq, [Tick(LEASE + 1)] + inner);
    RunsAppend(s, prefix, [Tick(LEASE + 1)] + inner);
    QuietRuns(s, prefix);
    ExecClaimPrefix(s, slow, slowReq);
    var s1 := AfterClaim(s, slow, slowReq);
    LeaseCons(s1, Tick(LEASE + 1), inner);
    OnlyPostsOverrun(s1, Tick(LEASE + 1));
    StepTick(s1, LEASE + 1);
    TakeOverReleasesCleanly(s1.(now := s.now + LEASE + 1), r, w, req, s.now);
  }

  lemma TakeOverReleasesCleanly(s: State, r: RowId, w: WorkerId, req: Request, at: int)
    requires r in s.rows && s.rows[r].status == Processing && s.rows[r].processingAt == Some(at) && at < s.now - LEASE
    requires !HasKeyed(s.entries, s.rows[r].key) && w !in s.workers && req.row == r && req.linkTo.None?
    ensures RunNoExposedRelease(s, ClaimCall(w, req, FailTail(w)))
  {
    hide Next, Exec, HasKeyed, RunInLease, RunNoExposedRelease, ClaimCall;
    var prefix := ClaimPrefix(w, req);
    ClaimCallSplits(w, req, FailTail(w));
    RunsAppend(s, prefix, FailTail(w));
    QuietRuns(s, prefix);
    ClaimCallSplits(w, req, []);
    assert prefix + [] == prefix;
    ExecClaim(s, w, req, []);
    TakesOver(s, r, w, req, at);
    var t := AfterClaim(s, w, req);
    ExecNothing(t);
    LeaseCons(t, Fail(w), [Release(w)] + []);
    StepFail(t, w, req, s.now, Posting(s.now));
    LeaseCons(Next(t, Fail(w)), Release(w), []);
    QuietRuns(Next(Next(t, Fail(w)), Release(w)), []);
  }

  /**
   * Nor is it enough that no committed entry is released: every such message has a run
   * in which none is, and a post after the lease still records it twice.
   */
  lemma LeaseConditionIsNeeded(s: State, r: RowId, slow: WorkerId, slowReq: Request, w: WorkerId, req: Request,
                               id: EntryId, entry: Entry, linker: WorkerId, link: Request)
    requires Inv(s) && r in s.rows && s.rows[r].status == Pending && !HasKeyed(s.entries, s.rows[r].key)
    requires slow !in s.workers && w !in s.workers && slow != w
    requires slowReq.row == r && slowReq.linkTo.None? && req.row == r && req.linkTo.None?
    requires id !in s.entries && linker !in s.workers && linker != slow && linker != w
    requires link.row == r && link.transfer && Linkable(s, link)
    ensures var evs := OverrunRun(slow, slowReq, w, req, id, entry, linker, link);
      RunNoExposedRelease(s, evs) && DoubleEffect(Exec(s, evs), r)
    ensures exists evs :: RunNoExposedRelease(s, evs) && DoubleEffect(Exec(s, evs), r)
  {
    hide Exec, Inv, Linkable, ClaimCall, HasKeyed;
    StalledClaim(s, r, slow, slowReq, w, req);
    StallReleasesCleanly(s, r, slow, slowReq, w, req);
    var evs := ClaimCall(slow, slowReq, [Tick(LEASE + 1)] + ClaimCall(w, req, FailTail(w)));
    var t := Exec(s, evs);
    StaysLinkable(s, t, link);
    OverrunDoubles(t, r, slow, linker, link, id, entry);
    var last := LinkCall(linker, link) + [Post(slow, id, entry)];
    RunsAppend(s, evs, last);
    QuietRuns(t, last);
  }

  lemma StaysLinkable(s: State, t: State, req: Request)
    requires Linkable(s, req) && t.entries == s.entries
    requires req.row in s.rows && req.row in t.rows && t.rows[req.row].status == s.rows[req.row].status
    ensures Linkable(t, req)
  {}

  /** From a row whose old claimer is still about to post, a link and that post double the effect. */
  lemma OverrunDoubles(s: State, r: RowId, slow: WorkerId, w: WorkerId, req: Request, id: EntryId, entry: Entry)
    requires At(s, slow) && s.workers[slow].req.row == r && s.workers[slow].stage.Posting?
    requires s.rows[r].status == Pending && w !in s.workers && req.row == r && req.transfer
    requires !HasKeyed(s.entries, s.rows[r].key) && id !in s.entries && Linkable(s, req)
    ensures DoubleEffect(Exec(s, LinkCall(w, req) + [Post(slow, id, entry)]), r)
  {
    var key := s.rows[r].key;
    assert !IsKeyed(s.entries, req.linkTo.value, key);
    LinkBesideEntry(s, r, w, req);
    var link := LinkCall(w, req);
    var t := Exec(s, link);
    hide Exec, Next;
    PostOnLinked(t, r, slow, id, entry);
    ExecAppend(s, link, Post(slow, id, entry));
  }

  // ------------------------------------------------------- neither condition alone, from an empty inbox

  const TRANSFER := Entry(None, true, true, "2024-01-01", [Line("bank", -5), Line("wallet", 5)])
  const ONE_TRANSFER := State(0, map[], map[0 := TRANSFER], map[], map[], map[])
  const MESSAGE := Receive(0, "bank-import:1", "text")
  const CONFIRM := Request(0, true, None, "2024-01-01", 5, "bank", "wallet")
  const LINK := Request(0, true, Some(0), "2024-01-01", 5, "bank", "wallet")

  lemma OneTransferReceives()
    ensures Init(ONE_TRANSFER) && Inv(ONE_TRANSFER)
    ensures var s := Next(ONE_TRANSFER, MESSAGE);
      && s.entries == map[0 := TRANSFER] && s.workers == map[] && Inv(s)
      && s.rows == map[0 := Row("bank-import:1", Pending, Some("text"), None, None)]
      && !HasKeyed(s.entries, "bank-import:1") && Linkable(s, LINK)
  {
    var s := Next(ONE_TRANSFER, MESSAGE);
    assert FreshKey(ONE_TRANSFER, "bank-import:1");
    InitIsOk(ONE_TRANSFER);
    StepKeepsInv(ONE_TRANSFER, MESSAGE);
    assert TRANSFER.lines[0].account == LINK.source && TRANSFER.lines[1].account == LINK.destination;
    assert Matches(TRANSFER, LINK);
  }

  /** "No worker outlives its lease, so a message has at most one effect" fails from an empty inbox. */
  lemma LeaseAloneIsNotEnough()
    ensures exists s, evs, r :: Init(s) && RunInLease(s, evs) && DoubleEffect(Exec(s, evs), r)
  {
    OneTransferReceives();
    var s, run := Next(ONE_TRANSFER, MESSAGE), ExposedRun(0, CONFIRM, 1, TRANSFER, 1, LINK);
    hide Init, Inv, Next, HasKeyed, Linkable, Exec, ExposedRun, DoubleEffect, RunInLease, RunNoExposedRelease;
    ReleaseConditionIsNeeded(s, 0, 0, CONFIRM, 1, TRANSFER, 1, LINK);
    OnlyPostsOverrun(ONE_TRANSFER, MESSAGE);
    LeaseCons(ONE_TRANSFER, MESSAGE, run);
    ExecCons(ONE_TRANSFER, MESSAGE, run);
    assert RunInLease(ONE_TRANSFER, [MESSAGE] + run) && DoubleEffect(Exec(ONE_TRANSFER, [MESSAGE] + run), 0);
  }

  /** And so does the same claim with the other condition alone. */
  lemma CleanReleasesAloneAreNotEnough()
    ensures exists s, evs, r :: Init(s) && RunNoExposedRelease(s, evs) && DoubleEffect(Exec(s, evs), r)
  {
    OneTransferReceives();
    var s, run := Next(ONE_TRANSFER, MESSAGE), OverrunRun(0, CONFIRM, 2, CONFIRM, 1, TRANSFER, 1, LINK);
    hide Init, Inv, Next, HasKeyed, Linkable, Exec, OverrunRun, DoubleEffect, RunInLease, RunNoExposedRelease;
    LeaseConditionIsNeeded(s, 0, 0, CONFIRM, 2, CONFIRM, 1, TRANSFER, 1, LINK);
    OnlyPostsOverrun(ONE_TRANSFER, MESSAGE);
    LeaseCons(ONE_TRANSFER, MESSAGE, run);
    ExecCons(ONE_TRANSFER, MESSAGE, run);
    assert RunNoExposedRelease(ONE_TRANSFER, [MESSAGE] + run) && DoubleEffect(Exec(ONE_TRANSFER, [MESSAGE] + run), 0);
  }
}
