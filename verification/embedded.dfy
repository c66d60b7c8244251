/**
 The embedded queue and a subscription to it: embedded.go and sqlite_store.go in pkg/messaging/embedded. Rows are only
 ever added and marked as acked; the subscription remembers how far it has come by the number of a row.
 */
module Embedded {
  import opened Wrappers

  /** A row of the message table. */
  datatype Row = Row(rowId: nat, id: Id, to: Id, body: string, acked: bool)

  /** Rows are numbered from 1 in the order they come, and never deleted. */
  ghost predicate Numbered(rows: seq<Row>) {
    forall i :: 0 <= i < |rows| ==> rows[i].rowId == i + 1
  }

  predicate Selected(row: Row, worker: Id, since: nat) {
    row.to == worker && !row.acked && row.rowId > since
  }

  /** Of the first n rows, those a poll selects. */
  function Polled(rows: seq<Row>, worker: Id, since: nat, n: nat): seq<Row>
    requires n <= |rows|
  {
    if n == 0 then []
    else Polled(rows, worker, since, n - 1) + if Selected(rows[n - 1], worker, since) then [rows[n - 1]] else []
  }

  function RowIds(rows: seq<Row>): (ids: seq<nat>)
    ensures |ids| == |rows| && forall i :: 0 <= i < |rows| ==> ids[i] == rows[i].rowId
  {
    seq(|rows|, i requires 0 <= i < |rows| => rows[i].rowId)
  }

  /** The watermark after rows are scanned, starting from `since`. */
  function MaxRow(rows: seq<Row>, since: nat): (max: nat)
    ensures max >= since && forall r :: r in rows ==> r.rowId <= max
    ensures max == since || exists r :: r in rows && r.rowId == max
  {
    if rows == [] then since
    else
      var n := |rows| - 1;
      var max := MaxRow(rows[..n], since);
      assert rows == rows[..n] + [rows[n]];
      if rows[n].rowId > max then rows[n].rowId else max
  }

  lemma {:induction false} MaxRowSnoc(rows: seq<Row>, row: Row, since: nat)
    ensures MaxRow(rows + [row], since) == if row.rowId > MaxRow(rows, since) then row.rowId else MaxRow(rows, since)
  {
    assert (rows + [row])[..|rows|] == rows;
  }

  ghost predicate Increasing(ids: seq<nat>) {
    forall i, j :: 0 <= i < j < |ids| ==> ids[i] < ids[j]
  }

  lemma {:induction false} RowIdsSnoc(rows: seq<Row>, row: Row)
    ensures RowIds(rows + [row]) == RowIds(rows) + [row.rowId]
  {
  }

  lemma {:induction false} IncreasingSnoc(ids: seq<nat>, id: nat)
    requires Increasing(ids) && forall x :: x in ids ==> x < id
    ensures Increasing(ids + [id])
  {
    forall i | 0 <= i < |ids|
      ensures ids[i] < id
    {
      assert ids[i] in ids;
    }
  }

  lemma {:induction false} IncreasingConcat(a: seq<nat>, b: seq<nat>, bound: nat)
    requires Increasing(a) && Increasing(b) && (forall x :: x in a ==> x <= bound) && (forall x :: x in b ==> bound < x)
    ensures Increasing(a + b)
  {
    forall i, j | 0 <= i < |a| && 0 <= j < |b|
      ensures a[i] < b[j]
    {
      assert a[i] in a && b[j] in b;
    }
  }

  lemma {:induction false} IncreasingPrefix(a: seq<nat>, b: seq<nat>)
    requires Increasing(a + b)
    ensures Increasing(a)
  {
    forall i, j | 0 <= i < j < |a|
      ensures a[i] < a[j]
    {
      assert (a + b)[i] == a[i] && (a + b)[j] == a[j];
    }
  }

  /** A poll selects the worker's unacked rows above the watermark, all of them, in order. */
  lemma {:induction false} PolledIds(rows: seq<Row>, worker: Id, since: nat, n: nat)
    requires n <= |rows| && Numbered(rows)
    ensures var ids := RowIds(Polled(rows, worker, since, n));
            && Increasing(ids)
            && (forall id :: id in ids <==> 0 < id <= n && Selected(rows[id - 1], worker, since))
            && (forall id :: id in ids <==>
                  since < id <= n && rows[id - 1].to == worker && !rows[id - 1].acked)
  {
    if n > 0 {
      PolledIds(rows, worker, since, n - 1);
      var before := Polled(rows, worker, since, n - 1);
      assert rows[n - 1].rowId == n;
      RowIdsSnoc(before, rows[n - 1]);
      IncreasingSnoc(RowIds(before), n);
      var ids := RowIds(Polled(rows, worker, since, n));
      assert before + [] == before;
      assert ids == RowIds(before) + if Selected(rows[n - 1], worker, since) then [n] else [];
    }
  }

  lemma {:induction false} MaxOfPolled(polled: seq<Row>, since: nat, bound: nat)
    requires since <= bound && forall id :: id in RowIds(polled) ==> id <= bound
    ensures MaxRow(polled, since) <= bound && forall id :: id in RowIds(polled) ==> id <= MaxRow(polled, since)
  {
    var ids := RowIds(polled);
    forall i | 0 <= i < |polled|
      ensures polled[i].rowId <= bound
    {
      assert ids[i] in ids;
    }
    forall i | 0 <= i < |ids|
      ensures ids[i] <= MaxRow(polled, since)
    {
      assert polled[i] in polled;
    }
  }

  predicate Names(row: Row, id: Id, acker: Id) {
    row.id == id && row.to == acker
  }

  /** The rows with those of that id and recipient marked. */
  function Marked(rows: seq<Row>, id: Id, acker: Id): (r: seq<Row>)
    ensures |r| == |rows|
    ensures forall i :: 0 <= i < |rows| ==> r[i] == rows[i].(acked := rows[i].acked || Names(rows[i], id, acker))
  {
    seq(|rows|, i requires 0 <= i < |rows| => rows[i].(acked := rows[i].acked || Names(rows[i], id, acker)))
  }

  lemma {:induction false} MarkedTracks(rows: seq<Row>, worker: Id, last: nat, selected: seq<nat>, id: Id, acker: Id)
    requires Tracks(rows, worker, last, selected)
    ensures Tracks(Marked(rows, id, acker), worker, last, selected)
  {
  }

  // ----- What a subscription keeps -----

  /** Each of the worker's rows up to `last` has been selected for delivery or is acked. */
  ghost predicate Covered(rows: seq<Row>, worker: Id, last: nat, selected: seq<nat>) {
    forall i :: 0 <= i < |rows| && rows[i].to == worker && rows[i].rowId <= last ==>
        rows[i].rowId in selected || rows[i].acked
  }

  /** The selected rows are the worker's, in order, each once, and cover the rows up to the watermark. */
  ghost predicate Tracks(rows: seq<Row>, worker: Id, last: nat, selected: seq<nat>) {
    && Numbered(rows) && last <= |rows|
    && Increasing(selected)
    && (forall id :: id in selected ==> 0 < id <= last && id <= |rows| && rows[id - 1].to == worker)
    && Covered(rows, worker, last, selected)
  }

  lemma {:induction false} PollTracks(rows: seq<Row>, worker: Id, last: nat, selected: seq<nat>)
    requires Tracks(rows, worker, last, selected)
    ensures var polled := Polled(rows, worker, last, |rows|);
            && Tracks(rows, worker, MaxRow(polled, last), selected + RowIds(polled))
            && Covered(rows, worker, |rows|, selected + RowIds(polled))
  {
    var polled := Polled(rows, worker, last, |rows|);
    PolledIds(rows, worker, last, |rows|);
    MaxOfPolled(polled, last, |rows|);
    IncreasingConcat(selected, RowIds(polled), last);
    PollSelects(rows, worker, last, selected, RowIds(polled), MaxRow(polled, last));
    PollCovers(rows, worker, last, selected, RowIds(polled));
    assert Covered(rows, worker, MaxRow(polled, last), selected + RowIds(polled));
  }

  lemma {:induction false} PollSelects(rows: seq<Row>, worker: Id, last: nat, selected: seq<nat>, ids: seq<nat>,
      max: nat)
    requires Tracks(rows, worker, last, selected) && last <= max
    requires forall id :: id in ids <==> 0 < id <= |rows| && Selected(rows[id - 1], worker, last)
    requires forall id :: id in ids ==> id <= max
    ensures forall id :: id in selected + ids ==> 0 < id <= max && id <= |rows| && rows[id - 1].to == worker
  {
    forall id | id in selected + ids
      ensures 0 < id <= max && id <= |rows| && rows[id - 1].to == worker
    {
      assert id in selected || id in ids;
    }
  }

  lemma {:induction false} PollCovers(rows: seq<Row>, worker: Id, last: nat, selected: seq<nat>, ids: seq<nat>)
    requires Tracks(rows, worker, last, selected)
    requires forall id :: id in ids <==> 0 < id <= |rows| && Selected(rows[id - 1], worker, last)
    ensures Covered(rows, worker, |rows|, selected + ids)
  {
    forall i | 0 <= i < |rows| && rows[i].to == worker && !rows[i].acked
      ensures rows[i].rowId in selected + ids
    {
      assert rows[i].rowId > last ==> i + 1 in ids;
    }
  }

  class Subscription {
    const worker: Id
    var rows: seq<Row>
    var lastDeliveredRowId: nat
    /** Rows selected and not handed over yet. */
    var sending: seq<Row>
    /** The numbers of all rows ever selected, in order, and of those ever handed over. */
    ghost var selected: seq<nat>
    ghost var delivered: seq<nat>

    ghost predicate Valid()
      reads this
    {
      && Tracks(rows, worker, lastDeliveredRowId, selected)
      && selected == delivered + RowIds(sending)
    }

    constructor (worker: Id, rows: seq<Row>)
      requires Numbered(rows)
      ensures Valid() && this.worker == worker && this.rows == rows && selected == [] && delivered == []
    {
      this.worker, this.rows := worker, rows;
      lastDeliveredRowId, sending, selected, delivered := 0, [], [], [];
    }

    /** A message is stored, unless its id is taken. */
    method Emit(id: Id, to: Id, body: string) returns (ok: bool)
      requires Valid()
      modifies this`rows
      ensures Valid()
      ensures ok <==> forall i :: 0 <= i < |old(rows)| ==> old(rows)[i].id != id
      ensures rows == if ok then old(rows) + [Row(|old(rows)| + 1, id, to, body, false)] else old(rows)
    {
      ok := forall i :: 0 <= i < |rows| ==> rows[i].id != id;
      if ok {
        rows := rows + [Row(|rows| + 1, id, to, body, false)];
      }
    }

    /** The recipient's ack marks the row, once. Somebody else's finds nothing. */
    method Ack(id: Id, acker: Id) returns (found: bool)
      requires Valid()
      modifies this`rows
      ensures Valid()
      ensures found <==> exists i :: 0 <= i < |old(rows)| && Names(old(rows)[i], id, acker)
      ensures rows == Marked(old(rows), id, acker)
      ensures |rows| == |old(rows)| && forall i :: 0 <= i < |rows| ==>
                if old(rows)[i].id == id && old(rows)[i].to == acker then rows[i] == old(rows)[i].(acked := true)
                else rows[i] == old(rows)[i]
    {
      MarkedTracks(rows, worker, lastDeliveredRowId, selected, id, acker);
      found := exists i :: 0 <= i < |rows| && Names(rows[i], id, acker);
      rows := Marked(rows, id, acker);
    }

    method PollSince(since: nat) returns (envs: seq<Row>, maxRowId: nat)
      ensures envs == Polled(rows, worker, since, |rows|) && maxRowId == MaxRow(envs, since)
    {
      envs, maxRowId := [], since;
      for i := 0 to |rows|
        invariant envs == Polled(rows, worker, since, i) && maxRowId == MaxRow(envs, since)
      {
        if Selected(rows[i], worker, since) {
          MaxRowSnoc(envs, rows[i], since);
          if rows[i].rowId > maxRowId {
            maxRowId := rows[i].rowId;
          }
          envs := envs + [rows[i]];
        }
      }
    }

    /** A poll selects all the worker's unacked rows above the watermark, so none is left above it. */
    method Poll()
      requires Valid() && sending == []
      modifies this`lastDeliveredRowId, this`sending, this`selected
      ensures Valid()
      ensures sending == Polled(rows, worker, old(lastDeliveredRowId), |rows|)
              && selected == old(selected) + RowIds(sending)
      ensures Covered(rows, worker, |rows|, selected)
    {
      PollTracks(rows, worker, lastDeliveredRowId, selected);
      assert delivered + RowIds([]) == delivered;
      assert selected == delivered;
      sending, lastDeliveredRowId := PollSince(lastDeliveredRowId);
      selected := selected + RowIds(sending);
    }

    /** The next selected row is handed over. */
    method Deliver() returns (row: Row)
      requires Valid() && sending != []
      modifies this`sending, this`delivered
      ensures Valid() && row == old(sending)[0] && sending == old(sending)[1..]
      ensures delivered == old(delivered) + [row.rowId] && Increasing(delivered)
    {
      row := sending[0];
      sending := sending[1..];
      delivered := delivered + [row.rowId];
      assert selected == delivered + RowIds(sending);
      IncreasingPrefix(delivered, RowIds(sending));
    }
  }
}
