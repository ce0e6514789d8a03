/**
 * Keyset paging: a table in id order, read page by page behind a cursor while the rows
 * behind the cursor are being filled in.
 */
module Keyset {
  import opened Options
  import opened Sorting

  predicate Past(after: Option<int>, key: int) {
    after.None? || key > after.value
  }

  ghost predicate InIdOrder<T>(rows: seq<T>, id: T -> int) {
    forall i, j :: 0 <= i < j < |rows| ==> id(rows[i]) < id(rows[j])
  }

  /** `where pending and id > after order by id`. */
  function Beyond<T>(rows: seq<T>, id: T -> int, pending: T -> bool, after: Option<int>): seq<T> {
    if rows == [] then []
    else (if pending(rows[0]) && Past(after, id(rows[0])) then [rows[0]] else [])
         + Beyond(rows[1..], id, pending, after)
  }

  /** The same with `limit`. */
  function Page<T>(rows: seq<T>, id: T -> int, pending: T -> bool, after: Option<int>, limit: nat): seq<T> {
    var found := Beyond(rows, id, pending, after);
    if limit < |found| then found[..limit] else found
  }

  lemma PageParts<T>(rows: seq<T>, id: T -> int, pending: T -> bool, after: Option<int>, limit: nat)
    ensures var page, found := Page(rows, id, pending, after, limit), Beyond(rows, id, pending, after);
      page <= found && |page| <= limit && (|page| < limit ==> page == found)
  {
    hide Beyond;
  }

  /** The update of the one row with this id. */
  function Update<T>(rows: seq<T>, id: T -> int, key: int, change: T -> T): (r: seq<T>) {
    Map((row: T) => if id(row) == key then change(row) else row, rows)
  }

  /** The table once every row up to the cursor has been filled in. */
  function FillUpTo<T>(rows: seq<T>, id: T -> int, fill: T -> T, cursor: Option<int>): (r: seq<T>) {
    Map((row: T) => if Past(cursor, id(row)) then row else fill(row), rows)
  }

  ghost predicate FillsOnly<T(!new)>(id: T -> int, pending: T -> bool, fill: T -> T) {
    && (forall row :: id(fill(row)) == id(row))
    && (forall row :: !pending(row) ==> fill(row) == row)
  }

  lemma {:induction false} FoundIff<T>(
      rows: seq<T>, id: T -> int, pending: T -> bool, after: Option<int>, row: T)
    ensures row in Beyond(rows, id, pending, after) <==> row in rows && pending(row) && Past(after, id(row))
  {
    if rows != [] {
      FoundIff(rows[1..], id, pending, after, row);
      assert rows == [rows[0]] + rows[1..];
    }
  }

  lemma SkipHead<T>(rows: seq<T>, id: T -> int, pending: T -> bool, after: Option<int>)
    requires rows != [] && !(pending(rows[0]) && Past(after, id(rows[0])))
    ensures Beyond(rows, id, pending, after) == Beyond(rows[1..], id, pending, after)
  {}

  lemma HeadComesFirst<T>(rows: seq<T>, id: T -> int, row: T)
    requires rows != [] && InIdOrder(rows, id) && row in rows[1..]
    ensures id(rows[0]) < id(row)
  {
    var j :| 0 <= j < |rows[1..]| && rows[1..][j] == row;
    assert rows[j + 1] == row;
  }

  /** Moving the cursor to the first row found leaves exactly the others. */
  lemma {:induction false} CursorAdvances<T>(rows: seq<T>, id: T -> int, pending: T -> bool, after: Option<int>)
    requires InIdOrder(rows, id) && Beyond(rows, id, pending, after) != []
    ensures var found := Beyond(rows, id, pending, after);
      Beyond(rows, id, pending, Some(id(found[0]))) == found[1..]
  {
    var head, rest := rows[0], rows[1..];
    var found := Beyond(rows, id, pending, after);
    if pending(head) && Past(after, id(head)) {
      BeyondLater(rest, id, pending, after, id(head));
    } else {
      CursorAdvances(rest, id, pending, after);
      FoundIff(rest, id, pending, after, found[0]);
      HeadComesFirst(rows, id, found[0]);
      SkipHead(rows, id, pending, Some(id(found[0])));
    }
  }

  /** No pending row lies between the cursor and the first row found. */
  lemma {:induction false} FirstFound<T>(rows: seq<T>, id: T -> int, pending: T -> bool, after: Option<int>, row: T)
    requires InIdOrder(rows, id) && row in rows && pending(row) && Past(after, id(row))
    ensures Beyond(rows, id, pending, after) != []
    ensures id(Beyond(rows, id, pending, after)[0]) <= id(row)
  {
    FoundIff(rows, id, pending, after, row);
    var head, rest := rows[0], rows[1..];
    assert rows == [head] + rest;
    if pending(head) && Past(after, id(head)) {
      if row != head { HeadComesFirst(rows, id, row); }
    } else {
      FirstFound(rest, id, pending, after, row);
    }
  }

  lemma {:induction false} BeyondLater<T>(
      rows: seq<T>, id: T -> int, pending: T -> bool, after: Option<int>, cursor: int)
    requires Past(after, cursor)
    requires forall i :: 0 <= i < |rows| ==> cursor < id(rows[i])
    ensures Beyond(rows, id, pending, Some(cursor)) == Beyond(rows, id, pending, after)
  {
    if rows != [] {
      BeyondLater(rows[1..], id, pending, after, cursor);
    }
  }

  /** What lies beyond the cursor has not been touched yet. */
  lemma {:induction false} BeyondUntouched<T(!new)>(
      rows: seq<T>, id: T -> int, pending: T -> bool, fill: T -> T, cursor: Option<int>)
    requires FillsOnly(id, pending, fill)
    ensures Beyond(FillUpTo(rows, id, fill, cursor), id, pending, cursor) == Beyond(rows, id, pending, cursor)
  {
    if rows != [] {
      BeyondUntouched(rows[1..], id, pending, fill, cursor);
      assert FillUpTo(rows, id, fill, cursor)[1..] == FillUpTo(rows[1..], id, fill, cursor);
    }
  }

  /** Filling the next row found is the same as moving the cursor to it. */
  lemma FillNext<T(!new)>(
      rows: seq<T>, id: T -> int, pending: T -> bool, fill: T -> T, cursor: Option<int>)
    requires InIdOrder(rows, id) && FillsOnly(id, pending, fill)
    requires Beyond(rows, id, pending, cursor) != []
    ensures var next := id(Beyond(rows, id, pending, cursor)[0]);
      FillUpTo(rows, id, fill, Some(next)) == Update(FillUpTo(rows, id, fill, cursor), id, next, fill)
  {
    var found := Beyond(rows, id, pending, cursor);
    var next := id(found[0]);
    FoundIff(rows, id, pending, cursor, found[0]);
    hide Beyond;
    forall i | 0 <= i < |rows|
      ensures FillUpTo(rows, id, fill, Some(next))[i] == Update(FillUpTo(rows, id, fill, cursor), id, next, fill)[i]
    {
      if pending(rows[i]) && Past(cursor, id(rows[i])) { FirstFound(rows, id, pending, cursor, rows[i]); }
    }
  }

  lemma FillDone<T(!new)>(rows: seq<T>, id: T -> int, pending: T -> bool, fill: T -> T, cursor: Option<int>)
    requires FillsOnly(id, pending, fill) && Beyond(rows, id, pending, cursor) == []
    ensures FillUpTo(rows, id, fill, cursor) == Map(fill, rows)
  {
    hide Beyond;
    forall i | 0 <= i < |rows| ensures FillUpTo(rows, id, fill, cursor)[i] == Map(fill, rows)[i] {
      assert rows[i] in rows;
      FoundIff(rows, id, pending, cursor, rows[i]);
    }
  }

  /** Starting again after any part of the work has been done ends in the same table. */
  lemma FillResumes<T(!new)>(rows: seq<T>, id: T -> int, fill: T -> T, cursor: Option<int>)
    requires forall row :: fill(fill(row)) == fill(row)
    ensures Map(fill, FillUpTo(rows, id, fill, cursor)) == Map(fill, rows)
  {}

  /** In an id-ordered table an update reaches one row, so only its effect there matters. */
  lemma UpdateOneRow<T>(rows: seq<T>, id: T -> int, k: nat, f: T -> T)
    requires InIdOrder(rows, id) && k < |rows|
    ensures Update(rows, id, id(rows[k]), f) == rows[k := f(rows[k])]
  {
    forall i | 0 <= i < |rows| ensures Update(rows, id, id(rows[k]), f)[i] == rows[k := f(rows[k])][i] {
      assert i < k ==> id(rows[i]) < id(rows[k]);
      assert k < i ==> id(rows[k]) < id(rows[i]);
    }
  }

  lemma FillKeepsOrder<T>(rows: seq<T>, id: T -> int, fill: T -> T, cursor: Option<int>)
    requires InIdOrder(rows, id) && forall row :: row in rows ==> id(fill(row)) == id(row)
    ensures InIdOrder(FillUpTo(rows, id, fill, cursor), id)
  {}
}
