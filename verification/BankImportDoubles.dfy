/** Exactly when a run records a message twice: as its own entry, and as a link to another one. */
module BankImportDoubles {
  import opened BankImport
  import opened BankImportSafety
  import opened Options

  ghost predicate NoDouble(s: State) {
    forall r :: !DoubleEffect(s, r)
  }

  /** This event links the worker's message. */
  ghost predicate Links(s: State, ev: Event) {
    ev.Link? && At(s, ev.w) && s.workers[ev.w].stage.Linking? && Linkable(s, s.workers[ev.w].req)
  }

  ghost predicate Unposted(s: State, req: Request)
    requires req.row in s.rows && req.linkTo.Some?
  {
    var key := s.rows[req.row].key;
    !HasKeyed(s.entries, key) || IsKeyed(s.entries, req.linkTo.value, key)
  }

  /** No entry is inserted for a linked message, and a posted one is linked to its own entry at most. */
  ghost predicate Separate(s: State, ev: Event) {
    && (Inserts(s, ev) ==> s.workers[ev.w].req.row !in s.linked)
    && (Links(s, ev) ==> Unposted(s, s.workers[ev.w].req))
  }

  /** The links, and the entries under the keys of linked messages, are as before. */
  ghost predicate SameLinks(s: State, t: State) {
    && t.linked == s.linked
    && forall r :: r in s.linked ==>
         && r in s.rows && r in t.rows && t.rows[r].key == s.rows[r].key
         && forall e :: IsKeyed(t.entries, e, s.rows[r].key) <==> IsKeyed(s.entries, e, s.rows[r].key)
  }

  lemma SameLinksSameDoubles(s: State, t: State)
    requires SameLinks(s, t)
    ensures NoDouble(s) <==> NoDouble(t)
  {
    hide IsKeyed;
    forall r ensures DoubleEffect(s, r) <==> DoubleEffect(t, r) {}
  }

  /** A step that rewrites one row, or adds one, and leaves entries and links alone. */
  lemma RowStepKeepsLinks(s: State, t: State, r: RowId)
    requires Inv(s) && t.entries == s.entries && t.linked == s.linked
    requires forall x :: x in s.rows ==> x in t.rows && (x != r ==> t.rows[x] == s.rows[x])
    requires r in s.rows ==> t.rows[r].key == s.rows[r].key
    ensures SameLinks(s, t)
  {
    forall x | x in s.linked ensures x in s.rows { LinkedRowConfirmed(s, x); }
    hide Inv, IsKeyed;
  }

  lemma ConfirmKeepsLinks(s: State, w: WorkerId)
    requires Inv(s)
    ensures SameLinks(s, Next(s, ConfirmReplay(w))) && SameLinks(s, Next(s, ConfirmPosted(w)))
  {
    hide Inv, SameLinks;
    var r := if w in s.workers then s.workers[w].req.row else 0;
    RowStepKeepsLinks(s, Next(s, ConfirmReplay(w)), r);
    RowStepKeepsLinks(s, Next(s, ConfirmPosted(w)), r);
  }

  lemma ClaimKeepsLinks(s: State, w: WorkerId)
    requires Inv(s)
    ensures SameLinks(s, Next(s, Claim(w))) && SameLinks(s, Next(s, Release(w)))
  {
    hide Inv, SameLinks;
    var r := if w in s.workers then s.workers[w].req.row else 0;
    RowStepKeepsLinks(s, Next(s, Claim(w)), r);
    RowStepKeepsLinks(s, Next(s, Release(w)), r);
  }

  lemma RowStepsKeepLinks(s: State, ev: Event)
    requires Inv(s)
    requires ev.Receive? || ev.ConfirmReplay? || ev.Claim? || ev.ConfirmPosted? || ev.Release? || ev.Reject?
    ensures SameLinks(s, Next(s, ev))
  {
    hide Inv, SameLinks, FreshKey;
    match ev
    case Receive(r, key, text) => RowStepKeepsLinks(s, Next(s, ev), r);
    case Reject(r) => RowStepKeepsLinks(s, Next(s, ev), r);
    case ConfirmReplay(w) => ConfirmKeepsLinks(s, w);
    case ConfirmPosted(w) => ConfirmKeepsLinks(s, w);
    case Claim(w) => ClaimKeepsLinks(s, w);
    case Release(w) => ClaimKeepsLinks(s, w);
  }

  lemma OtherKeysSame(entries: map<EntryId, Entry>, id: EntryId, entry: Entry, e: EntryId, key: string)
    requires id !in entries && entry.key != Some(key)
    ensures IsKeyed(entries[id := entry], e, key) <==> IsKeyed(entries, e, key)
  {}

  lemma OtherEntryKeepsLinks(s: State, id: EntryId, entry: Entry)
    requires Inv(s) && Insertable(s, id, entry)
    ensures SameLinks(s, s.(entries := s.entries[id := entry]))
  {
    var t := s.(entries := s.entries[id := entry]);
    forall r | r in s.linked
      ensures r in s.rows && forall e :: IsKeyed(t.entries, e, s.rows[r].key) <==> IsKeyed(s.entries, e, s.rows[r].key)
    {
      LinkedRowConfirmed(s, r);
      hide Inv, IsKeyed, HasKeyed;
      forall e ensures IsKeyed(t.entries, e, s.rows[r].key) <==> IsKeyed(s.entries, e, s.rows[r].key) {
        OtherKeysSame(s.entries, id, entry, e, s.rows[r].key);
      }
    }
  }

  lemma VoidKeepsLinks(s: State, id: EntryId)
    requires Inv(s) && id in s.entries
    ensures SameLinks(s, s.(entries := s.entries[id := s.entries[id].(posted := false)]))
  {
    forall r | r in s.linked ensures r in s.rows { LinkedRowConfirmed(s, r); }
    hide Inv;
  }

  lemma LedgerStepsKeepLinks(s: State, ev: Event)
    requires Inv(s) && (ev.OtherEntry? || ev.Void?)
    ensures SameLinks(s, Next(s, ev))
  {
    hide Inv, SameLinks, Insertable;
    RowStepKeepsLinks(s, s, 0);
    match ev
    case OtherEntry(id, entry) => if Insertable(s, id, entry) { OtherEntryKeepsLinks(s, id, entry); }
    case Void(id) => if id in s.entries { VoidKeepsLinks(s, id); }
  }

  lemma IdleStepsKeepLinks(s: State, ev: Event)
    requires Inv(s) && (ev.Post? || ev.Link?) && !Inserts(s, ev) && !Links(s, ev)
    ensures SameLinks(s, Next(s, ev))
  {
    hide Inv, HasKeyed, IsKeyed, Linkable, SameLinks;
    RowStepKeepsLinks(s, Next(s, ev), 0);
  }

  lemma OtherStepsKeepLinks(s: State, ev: Event)
    requires Inv(s) && !Inserts(s, ev) && !Links(s, ev)
    ensures SameLinks(s, Next(s, ev))
  {
    hide Inv, SameLinks, Inserts, Links, Next, IsKeyed;
    if Quiet(ev) {
      QuietParts(s, ev);
      RowStepKeepsLinks(s, Next(s, ev), 0);
    } else if ev.Post? || ev.Link? {
      IdleStepsKeepLinks(s, ev);
    } else if ev.OtherEntry? || ev.Void? {
      LedgerStepsKeepLinks(s, ev);
    } else {
      RowStepsKeepLinks(s, ev);
    }
  }

  lemma InsertDoublesNoOther(s: State, t: State, id: EntryId, entry: Entry, r: RowId)
    requires id !in s.entries && t == s.(entries := s.entries[id := entry])
    requires r in s.rows && entry.key != Some(s.rows[r].key)
    ensures DoubleEffect(t, r) ==> DoubleEffect(s, r)
  {
    hide IsKeyed;
    forall e ensures IsKeyed(t.entries, e, s.rows[r].key) <==> IsKeyed(s.entries, e, s.rows[r].key) {
      OtherKeysSame(s.entries, id, entry, e, s.rows[r].key);
    }
  }

  lemma InsertDoublesLinked(s: State, t: State, id: EntryId, entry: Entry, r: RowId)
    requires Inv(s) && id !in s.entries && t == s.(entries := s.entries[id := entry])
    requires r in s.rows && entry.key == Some(s.rows[r].key) && !HasKeyed(s.entries, s.rows[r].key)
    ensures DoubleEffect(t, r) <==> r in s.linked
  {
    assert IsKeyed(t.entries, id, s.rows[r].key);
    if r in s.linked {
      LinkedRowConfirmed(s, r);
      assert !IsKeyed(s.entries, s.linked[r].entry, s.rows[r].key);
    }
  }

  lemma InsertedState(s: State, ev: Event)
    requires Inserts(s, ev)
    ensures var r, t := s.workers[ev.w].req.row, Next(s, ev);
            && t.rows == s.rows && t.linked == s.linked
            && t.entries == s.entries[ev.id := ev.entry.(key := Some(s.rows[r].key))]
  {
    hide HasKeyed;
  }

  lemma SameDouble(s: State, t: State, r: RowId)
    requires t.rows == s.rows && t.linked == s.linked && t.entries == s.entries
    ensures DoubleEffect(t, r) <==> DoubleEffect(s, r)
  {}

  lemma DoubleIsARow(s: State, r: RowId)
    ensures DoubleEffect(s, r) ==> r in s.rows
  {}

  /** An insertion doubles the worker's message exactly if that is linked, and no other. */
  lemma InsertDoublesIff(s: State, ev: Event)
    requires Inv(s) && NoDouble(s) && Inserts(s, ev)
    ensures NoDouble(Next(s, ev)) <==> s.workers[ev.w].req.row !in s.linked
  {
    var r := s.workers[ev.w].req.row;
    var entry := ev.entry.(key := Some(s.rows[r].key));
    var t := s.(entries := s.entries[ev.id := entry]);
    InvRows(s);
    hide Inv, Next, DoubleEffect, HasKeyed;
    InsertedState(s, ev);
    InsertDoublesLinked(s, t, ev.id, entry, r);
    forall x ensures DoubleEffect(Next(s, ev), x) <==> DoubleEffect(t, x) { SameDouble(t, Next(s, ev), x); }
    forall x | x in s.rows && x != r ensures !DoubleEffect(t, x) {
      InsertDoublesNoOther(s, t, ev.id, entry, x);
    }
    forall x | x !in s.rows ensures !DoubleEffect(t, x) { DoubleIsARow(t, x); }
  }

  lemma LinkDoublesIff(s: State, ev: Event)
    requires NoDouble(s) && Links(s, ev)
    ensures NoDouble(Next(s, ev)) <==> Unposted(s, s.workers[ev.w].req)
  {
    hide HasKeyed, IsKeyed, Matches;
    var t, r := Next(s, ev), s.workers[ev.w].req.row;
    assert DoubleEffect(t, r) <==> !Unposted(s, s.workers[ev.w].req);
    forall x | x != r ensures !DoubleEffect(t, x) {
      assert !DoubleEffect(s, x);
    }
  }

  lemma StepKeepsNoDoubleIff(s: State, ev: Event)
    requires Inv(s) && NoDouble(s)
    ensures NoDouble(Next(s, ev)) <==> Separate(s, ev)
  {
    hide Inv, NoDouble, Next, Inserts, Links, Unposted;
    if Inserts(s, ev) {
      InsertDoublesIff(s, ev);
      NotBoth(s, ev);
    } else if Links(s, ev) {
      LinkDoublesIff(s, ev);
    } else {
      OtherStepsKeepLinks(s, ev);
      SameLinksSameDoubles(s, Next(s, ev));
    }
  }

  lemma NotBoth(s: State, ev: Event)
    ensures !(Inserts(s, ev) && Links(s, ev))
  {}

  /** One effect per message says more: it also forbids a posted entry on a message that is still open. */
  lemma OneEffectHasNoDouble(s: State)
    requires Inv(s) && OneEffect(s)
    ensures NoDouble(s)
  {
    forall r ensures !DoubleEffect(s, r) {
      if r in s.linked {
        LinkedRowConfirmed(s, r);
        assert EffectOk(s, r);
      }
    }
  }

  ghost predicate AllSeparate(s: State, evs: seq<Event>)
    decreases |evs|
  {
    evs == [] || (Separate(s, evs[0]) && AllSeparate(Next(s, evs[0]), evs[1..]))
  }

  /** In no state of the run, the first and the last included, is a message posted and linked to another entry. */
  ghost predicate NeverDoubles(s: State, evs: seq<Event>) {
    forall k :: 0 <= k <= |evs| ==> NoDouble(Exec(s, evs[..k]))
  }

  lemma NeverDoublesStep(s: State, ev: Event, rest: seq<Event>)
    ensures NeverDoubles(s, [ev] + rest) <==> NoDouble(s) && NeverDoubles(Next(s, ev), rest)
  {
    hide NoDouble, Next;
    var evs, t := [ev] + rest, Next(s, ev);
    assert evs[..0] == [] && Exec(s, []) == s;
    forall k | 0 <= k <= |rest| ensures Exec(s, evs[..k + 1]) == Exec(t, rest[..k]) {
      assert evs[..k + 1][1..] == rest[..k];
    }
    if NoDouble(s) && NeverDoubles(t, rest) {
      forall k | 0 <= k <= |evs| ensures NoDouble(Exec(s, evs[..k])) {
        if k > 0 { assert Exec(s, evs[..k - 1 + 1]) == Exec(t, rest[..k - 1]); }
      }
    }
  }

  /**
   * A run never records a message twice if and only if it posts no message that is
   * linked and links none that is posted, other than to its own entry.
   */
  lemma {:induction false} NeverDoublesIff(s: State, evs: seq<Event>)
    requires Inv(s) && NoDouble(s)
    ensures NeverDoubles(s, evs) <==> AllSeparate(s, evs)
    decreases |evs|
  {
    hide Inv, NoDouble, Next, Separate;
    if evs == [] {
      assert evs[..0] == [];
    } else {
      var t, rest := Next(s, evs[0]), evs[1..];
      assert evs == [evs[0]] + rest;
      NeverDoublesStep(s, evs[0], rest);
      StepKeepsNoDoubleIff(s, evs[0]);
      StepKeepsInv(s, evs[0]);
      if NoDouble(t) {
        NeverDoublesIff(t, rest);
      } else {
        assert rest[..0] == [] && Exec(t, []) == t;
      }
    }
  }

  /** From an empty inbox nothing is linked, so the condition on the steps is all there is. */
  lemma RunNeverDoublesIff(s: State, evs: seq<Event>)
    requires Init(s)
    ensures NeverDoubles(s, evs) <==> AllSeparate(s, evs)
  {
    InitIsOk(s);
    OneEffectHasNoDouble(s);
    NeverDoublesIff(s, evs);
  }
}
