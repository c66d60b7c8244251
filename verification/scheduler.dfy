/** Firing schedules. */
module Schedulers {
  import opened Wrappers
  import opened Schedules
  import opened Sorting

  // Each step reads the clock once and is taken whole.

  /** What a cron expression says about the time after an instant. */
  datatype NextRun = Invalid | Never | At(time: Time)

  type Cron = (string, Time) -> NextRun

  ghost predicate Forward(cron: Cron) {
    forall expression, t :: cron(expression, t).At? ==> cron(expression, t).time > t
  }

  // ----- The due list -----

  predicate IsDue(s: Schedule, now: Time) {
    s.enabled && s.nextAt <= now
  }

  /** Ties are broken by a fixed order of ids: here that of their numbers, in SQL that of their text. */
  const BY_DUE: (Schedule, Schedule) -> bool :=
    (a: Schedule, b: Schedule) => a.nextAt < b.nextAt || (a.nextAt == b.nextAt && a.id < b.id)

  ghost predicate InOrder(s: seq<Schedule>) {
    forall i, j :: 0 <= i < j < |s| ==> BY_DUE(s[i], s[j])
  }

  ghost predicate Keyed(t: Table) {
    forall id :: id in t ==> t[id].id == id
  }

  /** Exactly the enabled schedules whose time has come, by that time and then by id. */
  ghost predicate IsDueList(t: Table, now: Time, due: seq<Schedule>) {
    && InOrder(due)
    && forall s :: s in due <==> s.id in t && t[s.id] == s && IsDue(s, now)
  }

  lemma {:induction false} InsertMembers(x: Schedule, s: seq<Schedule>)
    ensures forall y :: y in Insert(BY_DUE, x, s) <==> y == x || y in s
  {
    InsertAdds(BY_DUE, x, s);
    forall y
      ensures y in Insert(BY_DUE, x, s) <==> y == x || y in s
    {
      assert y in multiset(Insert(BY_DUE, x, s)) <==> y in multiset{x} + multiset(s);
    }
  }

  lemma {:induction false} InsertKeepsOrder(x: Schedule, s: seq<Schedule>)
    requires InOrder(s) && forall y :: y in s ==> y.id != x.id
    ensures InOrder(Insert(BY_DUE, x, s))
  {
    if s != [] && BY_DUE(s[0], x) {
      InsertKeepsOrder(x, s[1..]);
      InsertMembers(x, s[1..]);
      var r := Insert(BY_DUE, x, s[1..]);
      forall i | 0 <= i < |r|
        ensures BY_DUE(s[0], r[i])
      {
        assert r[i] in r;
      }
    } else if s != [] {
      assert s[0] in s;
    }
  }

  // ----- One schedule's turn -----

  /** Startup only moves a schedule on; a tick also fires it, which works for those in `sent`. */
  datatype Turn = StartTurn | TickTurn(sent: set<Id>)

  /** A schedule after its turn: due at its next time, if it has one, and last fired now if it was sent. */
  function Turned(cron: Cron, now: Time, turn: Turn, s: Schedule): Schedule {
    match cron(s.cron, now)
    case At(next) =>
      s.(nextAt := next, lastAt := if turn.TickTurn? && s.id in turn.sent then Some(now) else s.lastAt)
    case _ => s
  }

  /** The table once the first n of the due list have had their turn. */
  function TakenTo(t: Table, due: seq<Schedule>, n: nat, cron: Cron, now: Time, turn: Turn): Table
    requires n <= |due|
  {
    if n == 0 then t else TakenTo(t, due, n - 1, cron, now, turn)[due[n - 1].id := Turned(cron, now, turn, due[n - 1])]
  }

  lemma {:induction false} TakenRow(t: Table, due: seq<Schedule>, n: nat, cron: Cron, now: Time, turn: Turn, id: Id)
    requires n <= |due| && forall k :: 0 <= k < |due| ==> due[k].id in t && t[due[k].id] == due[k]
    ensures id in TakenTo(t, due, n, cron, now, turn) <==> id in t
    ensures id in t ==>
              TakenTo(t, due, n, cron, now, turn)[id] == (
                if exists k :: 0 <= k < n && due[k].id == id then Turned(cron, now, turn, t[id]) else t[id])
  {
    if n > 0 {
      TakenRow(t, due, n - 1, cron, now, turn, id);
    }
  }

  // ----- Whole runs -----

  /** A tick-fire: a schedule, the instant it was due and the instant it was fired. */
  datatype Fire = Fire(id: Id, due: Time, at: Time)

  /** The due instants a schedule id is fired for strictly increase. */
  ghost predicate DueIncreases(log: seq<Fire>) {
    forall i, j :: 0 <= i < j < |log| && log[i].id == log[j].id ==> log[i].due < log[j].due
  }

  /** What has been fired was due by now, and is not due again for the same instant. */
  ghost predicate Past(t: Table, log: seq<Fire>, clock: Time) {
    forall i :: 0 <= i < |log| ==> log[i].due <= clock && (log[i].id in t ==> log[i].due < t[log[i].id].nextAt)
  }

  /** The fires of the first n of the due list: those that have a next time and were sent. */
  function FiresTo(cron: Cron, due: seq<Schedule>, n: nat, now: Time, sent: set<Id>): seq<Fire>
    requires n <= |due|
  {
    if n == 0 then []
    else
      var s := due[n - 1];
      FiresTo(cron, due, n - 1, now, sent)
      + if cron(s.cron, now).At? && s.id in sent then [Fire(s.id, s.nextAt, now)] else []
  }

  lemma {:induction false} FiresAreDue(cron: Cron, due: seq<Schedule>, n: nat, now: Time, sent: set<Id>)
    requires n <= |due|
    ensures forall f :: f in FiresTo(cron, due, n, now, sent) ==>
              exists k :: 0 <= k < n && f == Fire(due[k].id, due[k].nextAt, now) && cron(due[k].cron, now).At?
                  && due[k].id in sent
  {
    if n > 0 {
      FiresAreDue(cron, due, n - 1, now, sent);
    }
  }

  lemma {:induction false} FiresIncrease(cron: Cron, t: Table, due: seq<Schedule>, n: nat, now: Time,
      sent: set<Id>, log: seq<Fire>)
    requires n <= |due| && IsDueList(t, now, due)
    requires DueIncreases(log) && Past(t, log, now)
    ensures DueIncreases(log + FiresTo(cron, due, n, now, sent))
  {
    var fires := FiresTo(cron, due, n, now, sent);
    if n == 0 {
      assert log + fires == log;
    } else {
      FiresIncrease(cron, t, due, n - 1, now, sent, log);
      var s, before := due[n - 1], FiresTo(cron, due, n - 1, now, sent);
      assert s in due;
      FiresAreDue(cron, due, n - 1, now, sent);
      if fires != before {
        assert log + fires == (log + before) + [Fire(s.id, s.nextAt, now)];
        forall i | 0 <= i < |log + before|
          ensures (log + before)[i].id == s.id ==> (log + before)[i].due < s.nextAt
        {
          if i >= |log| {
            assert (log + before)[i] in before;
          }
        }
      }
    }
  }

  /**
   internal/server/scheduler.go over its table, with the writes and manual fires of
   internal/server/api/schedules.go.
   */
  class Scheduler {
    const cron: Cron
    var table: Table
    /** The latest reading of the clock, and the tick-fires so far. */
    ghost var clock: Time
    ghost var log: seq<Fire>

    ghost predicate Valid()
      reads this
    {
      Forward(cron) && Keyed(table) && DueIncreases(log) && Past(table, log, clock)
    }

    constructor (cron: Cron, table: Table, now: Time)
      requires Forward(cron) && Keyed(table)
      ensures Valid() && this.cron == cron && this.table == table && clock == now && log == []
    {
      this.cron := cron;
      this.table := table;
      clock, log := now, [];
    }

    method ListDue(now: Time) returns (due: seq<Schedule>)
      requires Keyed(table)
      ensures IsDueList(table, now, due)
      ensures forall s :: s in due <==> s.id in table && table[s.id] == s && s.enabled && s.nextAt <= now
      ensures forall i, j :: 0 <= i < j < |due| ==>
                due[i].nextAt < due[j].nextAt || (due[i].nextAt == due[j].nextAt && due[i].id < due[j].id)
    {
      due := [];
      var left := table.Keys;
      while left != {}
        invariant left <= table.Keys && InOrder(due)
        invariant forall s :: s in due <==> s.id in table && s.id !in left && table[s.id] == s && IsDue(s, now)
        decreases left
      {
        var id :| id in left;
        left := left - {id};
        if table[id].enabled && table[id].nextAt <= now {
          InsertMembers(table[id], due);
          InsertKeepsOrder(table[id], due);
          due := Insert(BY_DUE, table[id], due);
        }
      }
    }

    method MarkFired(id: Id, lastAt: Option<Time>, nextAt: Time) returns (found: bool)
      modifies this`table
      ensures found <==> id in old(table)
      ensures table ==
              if found then old(table)[id := old(table)[id].(lastAt := lastAt, nextAt := nextAt)] else old(table)
    {
      if id !in table {
        return false;
      }
      table := table[id := table[id].(lastAt := lastAt, nextAt := nextAt)];
      return true;
    }

    /**
     At startup every schedule that came due while the server was down is moved on to its next time: nothing
     is sent and what it last fired at stays.
     */
    method Start(now: Time)
      requires Valid() && clock <= now
      modifies this`table, this`clock
      ensures Valid() && clock == now
      ensures Moved(cron, old(table), table, now, StartTurn)
      ensures Settled(cron, table, now)
      ensures table.Keys == old(table).Keys && log == old(log)
      ensures forall id :: id in table && (!old(table)[id].enabled || old(table)[id].nextAt > now) ==>
                table[id] == old(table)[id]
      ensures forall id :: id in table && old(table)[id].enabled && old(table)[id].nextAt <= now ==>
                var next := cron(old(table)[id].cron, now);
                table[id] == if next.At? then old(table)[id].(nextAt := next.time) else old(table)[id]
    {
      var due := ListDue(now);
      ghost var turn := StartTurn;
      for i := 0 to |due|
        invariant table == TakenTo(old(table), due, i, cron, now, turn) && clock == old(clock) && log == old(log)
      {
        var s := due[i];
        Untaken(old(table), due, i, cron, now, turn);
        if cron(s.cron, now).At? {
          var found := MarkFired(s.id, s.lastAt, cron(s.cron, now).time);
        }
      }
      AllTaken(old(table), due, cron, now, turn);
      MovedMeans(cron, old(table), table, now, turn, {});
      MovedKeeps(cron, old(table), table, now, turn, clock, log);
      clock := now;
    }

    /** Fires what is due; `sent` holds those whose message could be sent. Nothing that runs again stays due. */
    method Tick(now: Time, sent: set<Id>) returns (fired: nat)
      requires Valid() && clock <= now
      modifies this`table, this`clock, this`log
      ensures Valid() && clock == now
      ensures Moved(cron, old(table), table, now, TickTurn(sent))
      ensures Settled(cron, table, now)
      ensures old(log) <= log && fired == |log| - |old(log)|
      ensures FiredExactly(cron, old(table), now, sent, log[|old(log)|..])
      ensures forall f :: f in log[|old(log)|..] ==>
                f.id in old(table) && old(table)[f.id].enabled && old(table)[f.id].nextAt == f.due <= now
      ensures forall id :: id in old(table) && old(table)[id].enabled && old(table)[id].nextAt <= now && id in sent ==>
                cron(old(table)[id].cron, now).At? ==> Fire(id, old(table)[id].nextAt, now) in log[|old(log)|..]
      ensures table.Keys == old(table).Keys
      ensures forall id :: id in table && (!old(table)[id].enabled || old(table)[id].nextAt > now) ==>
                table[id] == old(table)[id]
    {
      var due := ListDue(now);
      ghost var turn := TickTurn(sent);
      fired := 0;
      for i := 0 to |due|
        invariant table == TakenTo(old(table), due, i, cron, now, turn) && clock == old(clock) && log == old(log)
        invariant fired == |FiresTo(cron, due, i, now, sent)|
      {
        var s := due[i];
        Untaken(old(table), due, i, cron, now, turn);
        if cron(s.cron, now).At? {
          var lastAt := if s.id in sent then Some(now) else s.lastAt;
          var found := MarkFired(s.id, lastAt, cron(s.cron, now).time);
          if s.id in sent {
            fired := fired + 1;
          }
        }
      }
      ghost var fires := FiresTo(cron, due, |due|, now, sent);
      TickDone(cron, old(table), due, now, sent, clock, log);
      FiredMeans(cron, old(table), now, sent, fires);
      log := log + fires;
      assert log[|old(log)|..] == fires;
      clock := now;
    }

    /** Registers a schedule, or registers it anew, to run at the next time its expression gives. */
    method Put(sc: Schedule, now: Time) returns (ok: bool)
      requires Valid() && clock <= now
      modifies this`table, this`clock
      ensures Valid() && clock == now
      ensures ok <==> cron(sc.cron, now).At?
      ensures table ==
              if ok then Upserted(old(table), sc.(nextAt := cron(sc.cron, now).time, createdAt := now)) else old(table)
      ensures ok ==> !IsDue(table[sc.id], now)
      ensures ok && sc.id in old(table) ==> table[sc.id].lastAt == old(table)[sc.id].lastAt
      ensures ok ==> sc.id in table && table[sc.id].nextAt > now
      ensures ok && sc.id in old(table) ==> table[sc.id].createdAt == old(table)[sc.id].createdAt
      ensures ok ==> table[sc.id].(createdAt := sc.createdAt, lastAt := sc.lastAt)
                     == sc.(nextAt := cron(sc.cron, now).time)
    {
      ok := cron(sc.cron, now).At?;
      if ok {
        table := Upserted(table, sc.(nextAt := cron(sc.cron, now).time, createdAt := now));
      }
      clock := now;
    }

    method Delete(id: Id) returns (found: bool)
      requires Valid()
      modifies this`table
      ensures Valid() && table == old(table) - {id} && found == (id in old(table))
    {
      found := id in table;
      table := table - {id};
    }

    /** A fire by hand; `sent` says whether the message could be sent. When the schedule is next due stays. */
    method FireByHand(id: Id, sent: bool, now: Time) returns (ok: bool)
      requires Valid() && clock <= now
      modifies this`table, this`clock
      ensures Valid() && clock == now
      ensures ok <==> id in old(table) && sent
      ensures table == if ok then old(table)[id := old(table)[id].(lastAt := Some(now))] else old(table)
    {
      clock := now;
      ok := id in table && sent;
      if ok {
        var found := MarkFired(id, Some(now), table[id].nextAt);
      }
    }
  }

  /** No enabled schedule that ever runs again is due. */
  ghost predicate Settled(cron: Cron, t: Table, now: Time) {
    forall id :: id in t && IsDue(t[id], now) ==> !cron(t[id].cron, now).At?
  }

  /** The fires are those of the due schedules that run again and whose message could be sent. */
  ghost predicate FiredExactly(cron: Cron, t: Table, now: Time, sent: set<Id>, fires: seq<Fire>) {
    forall f :: f in fires <==>
      && f.id in t && IsDue(t[f.id], now) && cron(t[f.id].cron, now).At? && f.id in sent
      && f == Fire(f.id, t[f.id].nextAt, now)
  }

  // ----- The same row by row -----

  /**
   Disabled schedules, those not due yet and those that never run again stay as they are; every other gets its next
   time, and those sent their time of firing.
   */
  lemma {:induction false} MovedMeans(cron: Cron, t: Table, t': Table, now: Time, turn: Turn, sent: set<Id>)
    requires Moved(cron, t, t', now, turn) && Keyed(t) && sent == if turn.TickTurn? then turn.sent else {}
    ensures t'.Keys == t.Keys
    ensures forall id :: id in t && (!t[id].enabled || t[id].nextAt > now || !cron(t[id].cron, now).At?) ==>
              t'[id] == t[id]
    ensures forall id :: id in t && t[id].enabled && t[id].nextAt <= now && cron(t[id].cron, now).At? ==>
              var lastAt := if id in sent then Some(now) else t[id].lastAt;
              t'[id] == t[id].(nextAt := cron(t[id].cron, now).time, lastAt := lastAt)
  {
  }

  /** Only an enabled schedule whose time has come is fired, for that time, and every such one that can be sent. */
  lemma {:induction false} FiredMeans(cron: Cron, t: Table, now: Time, sent: set<Id>, fires: seq<Fire>)
    requires FiredExactly(cron, t, now, sent, fires)
    ensures forall f :: f in fires ==>
              f.id in t && t[f.id].enabled && t[f.id].nextAt == f.due <= now == f.at && f.id in sent
    ensures forall id :: id in t && id in sent && t[id].enabled && t[id].nextAt <= now && cron(t[id].cron, now).At? ==>
              Fire(id, t[id].nextAt, now) in fires
  {
  }

  // ----- What a turn of all that is due leaves behind -----

  /** Every schedule that was due has had its turn, and no other. */
  ghost predicate Moved(cron: Cron, t: Table, t': Table, now: Time, turn: Turn) {
    && t'.Keys == t.Keys
    && forall id :: id in t ==> t'[id] == if IsDue(t[id], now) then Turned(cron, now, turn, t[id]) else t[id]
  }

  lemma {:induction false} DueInTable(t: Table, now: Time, due: seq<Schedule>, k: nat)
    requires k < |due| && IsDueList(t, now, due)
    ensures due[k].id in t && t[due[k].id] == due[k] && IsDue(due[k], now)
  {
    assert due[k] in due;
  }

  lemma {:induction false} Untaken(t: Table, due: seq<Schedule>, n: nat, cron: Cron, now: Time, turn: Turn)
    requires n < |due| && IsDueList(t, now, due)
    ensures var taken := TakenTo(t, due, n, cron, now, turn);
            && due[n].id in taken && taken[due[n].id] == due[n]
            && TakenTo(t, due, n + 1, cron, now, turn) ==
               if cron(due[n].cron, now).At? then taken[due[n].id := Turned(cron, now, turn, due[n])] else taken
  {
    forall k | 0 <= k < |due|
      ensures due[k].id in t && t[due[k].id] == due[k]
    {
      DueInTable(t, now, due, k);
    }
    assert forall k :: 0 <= k < n ==> BY_DUE(due[k], due[n]) && due[k].id != due[n].id;
    TakenRow(t, due, n, cron, now, turn, due[n].id);
  }

  lemma {:induction false} AllTaken(t: Table, due: seq<Schedule>, cron: Cron, now: Time, turn: Turn)
    requires Keyed(t) && IsDueList(t, now, due)
    ensures Moved(cron, t, TakenTo(t, due, |due|, cron, now, turn), now, turn)
  {
    var taken := TakenTo(t, due, |due|, cron, now, turn);
    forall k | 0 <= k < |due|
      ensures due[k].id in t && t[due[k].id] == due[k] && IsDue(due[k], now)
    {
      DueInTable(t, now, due, k);
    }
    forall id
      ensures id in taken <==> id in t
      ensures id in t ==> taken[id] == if IsDue(t[id], now) then Turned(cron, now, turn, t[id]) else t[id]
    {
      TakenRow(t, due, |due|, cron, now, turn, id);
      assert id in t && IsDue(t[id], now) ==> t[id] in due;
    }
  }

  lemma {:induction false} MovedKeeps(cron: Cron, t: Table, t': Table, now: Time, turn: Turn, clock: Time,
      log: seq<Fire>)
    requires Forward(cron) && Moved(cron, t, t', now, turn)
    requires Keyed(t) && Past(t, log, clock) && clock <= now
    ensures Keyed(t') && Past(t', log, now) && Settled(cron, t', now)
  {
  }

  lemma {:induction false} TickKeeps(cron: Cron, t: Table, t': Table, now: Time, due: seq<Schedule>, sent: set<Id>,
      clock: Time, log: seq<Fire>)
    requires Forward(cron) && Moved(cron, t, t', now, TickTurn(sent)) && IsDueList(t, now, due)
    requires Keyed(t) && Past(t, log, clock) && clock <= now && DueIncreases(log)
    ensures var log' := log + FiresTo(cron, due, |due|, now, sent);
            Keyed(t') && Past(t', log', now) && DueIncreases(log')
    ensures Settled(cron, t', now)
  {
    var fires := FiresTo(cron, due, |due|, now, sent);
    MovedKeeps(cron, t, t', now, TickTurn(sent), clock, log);
    FiresIncrease(cron, t, due, |due|, now, sent, log);
    FiresAreDue(cron, due, |due|, now, sent);
    forall i | 0 <= i < |fires|
      ensures fires[i].due <= now && (fires[i].id in t' ==> fires[i].due < t'[fires[i].id].nextAt)
    {
      assert fires[i] in fires;
      var k :| 0 <= k < |due| && fires[i] == Fire(due[k].id, due[k].nextAt, now) && cron(due[k].cron, now).At?
          && due[k].id in sent;
      assert due[k] in due;
    }
  }

  lemma {:induction false} FiresAll(cron: Cron, due: seq<Schedule>, n: nat, now: Time, sent: set<Id>, k: nat)
    requires k < n <= |due| && cron(due[k].cron, now).At? && due[k].id in sent
    ensures Fire(due[k].id, due[k].nextAt, now) in FiresTo(cron, due, n, now, sent)
  {
    if k < n - 1 {
      FiresAll(cron, due, n - 1, now, sent, k);
    }
  }

  lemma {:induction false} FiresExactly(cron: Cron, t: Table, now: Time, due: seq<Schedule>, sent: set<Id>)
    requires Keyed(t) && IsDueList(t, now, due)
    ensures FiredExactly(cron, t, now, sent, FiresTo(cron, due, |due|, now, sent))
  {
    FiresAreDue(cron, due, |due|, now, sent);
    forall id | id in t && IsDue(t[id], now) && cron(t[id].cron, now).At? && id in sent
      ensures Fire(id, t[id].nextAt, now) in FiresTo(cron, due, |due|, now, sent)
    {
      assert t[id] in due;
      var k :| 0 <= k < |due| && due[k] == t[id];
      FiresAll(cron, due, |due|, now, sent, k);
    }
  }

  /** What a tick leaves, once all that was due has had its turn. */
  lemma {:induction false} TickDone(cron: Cron, t: Table, due: seq<Schedule>, now: Time, sent: set<Id>, clock: Time,
      log: seq<Fire>)
    requires Forward(cron) && IsDueList(t, now, due)
    requires Keyed(t) && Past(t, log, clock) && clock <= now && DueIncreases(log)
    ensures var t' := TakenTo(t, due, |due|, cron, now, TickTurn(sent));
            var fires := FiresTo(cron, due, |due|, now, sent);
            && Moved(cron, t, t', now, TickTurn(sent)) && Settled(cron, t', now) && Keyed(t')
            && Past(t', log + fires, now) && DueIncreases(log + fires) && FiredExactly(cron, t, now, sent, fires)
            && t'.Keys == t.Keys && forall id :: id in t && (!t[id].enabled || t[id].nextAt > now) ==> t'[id] == t[id]
  {
    var t' := TakenTo(t, due, |due|, cron, now, TickTurn(sent));
    AllTaken(t, due, cron, now, TickTurn(sent));
    MovedMeans(cron, t, t', now, TickTurn(sent), sent);
    TickKeeps(cron, t, t', now, due, sent, clock, log);
    FiresExactly(cron, t, now, due, sent);
  }
}
