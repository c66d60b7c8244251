/** The control plane as a state machine. */
module ControlPlane {
  import opened Wrappers
  import opened Names
  import opened Forest
  import opened OrgChart
  import opened Schedules
  import opened ChartFile

  /**
   The org chart in memory, the rows it is persisted in, the schedules and the revocations.
   `deleted` is history: every id a delete has removed so far.
   */
  datatype State = State(
    graph: Workers,
    rows: Workers,
    schedules: Table,
    revoked: set<Id>,
    deleted: set<Id>
  )

  /** The operations of the server; each is one step. */
  datatype Op =
    | Connect(w: Worker, now: Time)
    | Reassign(id: Id, newParent: Id, caller: Id, admin: bool)
    | SetRole(id: Id, role: string, caller: Id, admin: bool)
    | Touch(id: Id, now: Time)
    | Delete(id: Id, cascade: bool)
    | PutSchedule(s: Schedule, valid: bool, caller: Id, admin: bool)
    | DropSchedule(id: Id, caller: Id, admin: bool)
    | MarkFired(id: Id, lastAt: Option<Time>, nextAt: Time)
    | Revoke(id: Id)
    | Restart(chart: Option<seq<ChartWorker>>)

  const EMPTY := State(map[], map[], map[], {}, {})

  // ----- What each operation does -----

  /** The defaults ConnectWorker fills in. */
  function Stamped(w: Worker, now: Time): Worker {
    w.(status := if w.status == NoStatus then Connected else w.status,
       connectedAt := if w.connectedAt == 0 then now else w.connectedAt,
       lastSeenAt := if w.lastSeenAt == 0 then now else w.lastSeenAt)
  }

  predicate Admits(graph: Workers, w: Worker) {
    w.id != NOBODY && w.id !in graph && (w.reportsTo == NOBODY || w.reportsTo in graph)
  }

  predicate MayEdit(graph: Workers, id: Id, caller: Id, admin: bool)
    requires id in graph
  {
    admin || caller == id || caller == graph[id].reportsTo
  }

  /** Owner and recipient are on the chart, and only an admin writes for, or over, somebody else. */
  predicate MayPut(s: State, sc: Schedule, caller: Id, admin: bool) {
    && (sc.owner == caller || admin)
    && sc.owner in s.graph && sc.to in s.graph
    && (sc.id in s.schedules ==> s.schedules[sc.id].owner == caller || admin)
  }

  /** The worker as the chart holds it now replaces its row, whatever the row had gained since. */
  function Saved(s: State, w: Worker): State {
    s.(graph := s.graph[w.id := w], rows := s.rows[w.id := w])
  }

  function ChildrenIn(graph: Workers, id: Id): set<Id> {
    set c | c in graph && graph[c].reportsTo == id
  }

  /** The chart with `kids` moved under parent, and the rows those moves write. */
  function Moved(ws: Workers, from: Workers, kids: set<Id>, parent: Id): Workers
    requires kids * ws.Keys <= from.Keys
  {
    map x | x in ws :: if x in kids then from[x].(reportsTo := parent) else ws[x]
  }

  function SchedulesWithout(t: Table, gone: set<Id>): Table {
    map i | i in t && t[i].owner !in gone && t[i].to !in gone :: t[i]
  }

  function Without(s: State, gone: set<Id>): State {
    State(s.graph - gone, s.rows - gone, SchedulesWithout(s.schedules, gone), s.revoked + gone, s.deleted + gone)
  }

  /** Everybody a delete removes. */
  ghost function Removed(graph: Workers, id: Id, cascade: bool): set<Id> {
    if cascade then Subtree(ParentsOf(graph), id) else {id}
  }

  /** The state of a delete once the children are moved and before anybody is removed. */
  ghost function Reparented(s: State, id: Id, kids: set<Id>): State
    requires id in s.graph
  {
    var parent := s.graph[id].reportsTo;
    s.(graph := Moved(s.graph, s.graph, kids, parent), rows := Moved(s.rows, s.graph, kids * s.graph.Keys, parent))
  }

  ghost function Deleted(s: State, id: Id, cascade: bool): State
    requires id in s.graph
  {
    Without(Reparented(s, id, if cascade then {} else ChildrenIn(s.graph, id)), Removed(s.graph, id, cascade))
  }

  /** Rows as a restart reads them: whoever's chain is broken reports to the root. */
  ghost function Reloaded(rows: Workers): (ws: Workers)
    ensures ws.Keys == rows.Keys
  {
    map id | id in rows :: if Rooted(ParentsOf(rows), id) then rows[id] else rows[id].(reportsTo := NOBODY)
  }

  /** The workers an accepted chart file declares. */
  function ChartTable(ws: seq<ChartWorker>, n: nat): Workers
    requires n <= |ws|
  {
    if n == 0 then map[] else ChartTable(ws, n - 1)[ws[n - 1].id := ToWorker(ws[n - 1])]
  }

  ghost function Restarted(s: State, chart: Option<seq<ChartWorker>>): State {
    if s.rows != map[] then
      s.(graph := Reloaded(s.rows), rows := Reloaded(s.rows))
    else if chart.Some? && Acceptable(chart.value) then
      var table := ChartTable(chart.value, |chart.value|);
      s.(graph := table, rows := table)
    else
      s.(graph := map[])
  }

  /** One operation. A refused operation changes nothing. */
  ghost function Step(s: State, op: Op): State {
    match op
    case Connect(w, now) =>
      if !Named(w.id) || w.id in s.revoked || !Admits(s.graph, w) then s else Saved(s, Stamped(w, now))
    case Reassign(id, newParent, caller, admin) =>
      if id in s.graph && MayEdit(s.graph, id, caller, admin) && IsForest(ParentsOf(s.graph)[id := newParent])
      then Saved(s, s.graph[id].(id := id, reportsTo := newParent)) else s
    case SetRole(id, role, caller, admin) =>
      if id in s.graph && MayEdit(s.graph, id, caller, admin) && s.graph[id].role != role
      then Saved(s, s.graph[id].(id := id, role := role)) else s
    case Touch(id, now) =>
      if id in s.graph then s.(rows := s.rows[id := s.graph[id].(lastSeenAt := now, status := Connected)]) else s
    case Delete(id, cascade) =>
      if id in s.graph then Deleted(s, id, cascade) else s
    case PutSchedule(sc, valid, caller, admin) =>
      if valid && MayPut(s, sc, caller, admin) then s.(schedules := Upserted(s.schedules, sc)) else s
    case DropSchedule(id, caller, admin) =>
      if id in s.schedules && (admin || s.schedules[id].owner == caller) then s.(schedules := s.schedules - {id}) else s
    case MarkFired(id, lastAt, nextAt) =>
      if id in s.schedules
      then s.(schedules := s.schedules[id := s.schedules[id].(lastAt := lastAt, nextAt := nextAt)]) else s
    case Revoke(id) => s.(revoked := s.revoked + {id})
    case Restart(chart) => Restarted(s, chart)
  }

  /** The state after the first n operations of a run. */
  ghost function Run(s: State, ops: seq<Op>, n: nat): State
    requires n <= |ops|
  {
    if n == 0 then s else Step(Run(s, ops, n - 1), ops[n - 1])
  }

  // ----- What every step keeps -----

  /** Rows only know better when a worker was last seen. */
  predicate Agree(rows: Workers, graph: Workers) {
    && rows.Keys == graph.Keys
    && forall id :: id in graph ==>
         rows[id] == graph[id].(lastSeenAt := rows[id].lastSeenAt, status := rows[id].status)
  }

  predicate SchedulesServed(t: Table, graph: Workers) {
    forall i :: i in t ==> t[i].owner in graph && t[i].to in graph
  }

  /**
   The chart is a forest, its rows say the same, nobody has a schedule who is not on the chart, and
   everybody deleted is revoked.
   */
  ghost predicate Inv(s: State) {
    && ValidChart(s.graph)
    && Agree(s.rows, s.graph)
    && SchedulesServed(s.schedules, s.graph)
    && s.deleted <= s.revoked
  }

  /** Nobody deleted is on the chart. */
  predicate Gone(s: State) {
    s.deleted !! s.graph.Keys
  }

  /**
   The one way a deleted id comes back: a server whose rows are all gone starts again from a chart file
   that declares the id. Loading a chart file does not ask the revocations.
   */
  ghost predicate Resurrects(s: State, op: Op) {
    && op.Restart? && s.rows == map[] && op.chart.Some? && Acceptable(op.chart.value)
    && exists i :: 0 <= i < |op.chart.value| && op.chart.value[i].id in s.deleted
  }

  lemma {:induction false} SavedParents(s: State, w: Worker)
    ensures ParentsOf(Saved(s, w).graph) == ParentsOf(s.graph)[w.id := w.reportsTo]
  {
  }

  lemma {:induction false} ConnectKeepsInv(s: State, w: Worker, now: Time)
    requires Inv(s) && Admits(s.graph, w)
    ensures Inv(Saved(s, Stamped(w, now)))
  {
    SavedParents(s, Stamped(w, now));
    AddKeepsForest(ParentsOf(s.graph), w.id, w.reportsTo);
  }

  lemma {:induction false} EditKeepsInv(s: State, w: Worker)
    requires Inv(s) && w.id in s.graph && IsForest(ParentsOf(s.graph)[w.id := w.reportsTo])
    ensures Inv(Saved(s, w))
  {
    SavedParents(s, w);
  }

  lemma {:induction false} MovedParents(ws: Workers, kids: set<Id>, parent: Id)
    ensures ParentsOf(Moved(ws, ws, kids, parent)) == Repoint(ParentsOf(ws), kids, parent)
  {
  }

  /** Nobody outside `gone` reports to anybody in it. */
  predicate NobodyUnder(ws: Workers, gone: set<Id>) {
    forall x :: x in ws && ws[x].reportsTo in gone ==> x in gone
  }

  lemma {:induction false} WithoutKeepsInv(s: State, gone: set<Id>)
    requires Inv(s) && NobodyUnder(s.graph, gone)
    ensures Inv(Without(s, gone)) && (Gone(s) ==> Gone(Without(s, gone)))
  {
    assert ParentsOf(s.graph - gone) == ParentsOf(s.graph) - gone;
    DropKeepsForest(ParentsOf(s.graph), gone);
  }

  lemma {:induction false} MovedAgree(rows: Workers, graph: Workers, kids: set<Id>, parent: Id)
    requires Agree(rows, graph) && WellKeyed(graph) && kids <= graph.Keys
    ensures Agree(Moved(rows, graph, kids, parent), Moved(graph, graph, kids, parent))
    ensures WellKeyed(Moved(graph, graph, kids, parent)) && Moved(graph, graph, kids, parent).Keys == graph.Keys
  {
  }

  lemma {:induction false} ReparentKeepsInv(s: State, id: Id, kids: set<Id>)
    requires Inv(s) && id in s.graph && kids <= ChildrenIn(s.graph, id)
    ensures Inv(Reparented(s, id, kids))
    ensures ParentsOf(Reparented(s, id, kids).graph) == Repoint(ParentsOf(s.graph), kids, s.graph[id].reportsTo)
  {
    assert kids * s.graph.Keys == kids;
    MovedAgree(s.rows, s.graph, kids, s.graph[id].reportsTo);
    MovedParents(s.graph, kids, s.graph[id].reportsTo);
    assert forall k :: k in kids ==> k in ParentsOf(s.graph) && ParentsOf(s.graph)[k] == id;
    ReparentKeepsForest(ParentsOf(s.graph), id, kids);
  }

  lemma {:induction false} DeleteKeepsInv(s: State, id: Id, cascade: bool)
    requires Inv(s) && id in s.graph
    ensures Inv(Deleted(s, id, cascade))
  {
    var kids := if cascade then {} else ChildrenIn(s.graph, id);
    ReparentKeepsInv(s, id, kids);
    NobodyLeftBehind(s, id, cascade);
    WithoutKeepsInv(Reparented(s, id, kids), Removed(s.graph, id, cascade));
  }

  lemma {:induction false} NobodyLeftBehind(s: State, id: Id, cascade: bool)
    requires Inv(s) && id in s.graph
    ensures var kids := if cascade then {} else ChildrenIn(s.graph, id);
            NobodyUnder(Reparented(s, id, kids).graph, Removed(s.graph, id, cascade))
  {
    var kids := if cascade then {} else ChildrenIn(s.graph, id);
    var t := Reparented(s, id, kids);
    NobodyLeftUnder(ParentsOf(s.graph), id, cascade, kids);
    forall x | x in t.graph && t.graph[x].reportsTo in Removed(s.graph, id, cascade)
      ensures x in Removed(s.graph, id, cascade)
    {
      assert ParentsOf(t.graph)[x] == t.graph[x].reportsTo;
    }
  }

  lemma {:induction false} DeleteKeepsGone(s: State, id: Id, cascade: bool)
    requires Gone(s) && id in s.graph
    ensures Gone(Deleted(s, id, cascade))
  {
    assert forall x :: x in Deleted(s, id, cascade).graph ==> x in s.graph;
  }

  /** Once the children are moved, or the whole subtree goes, nobody is left reporting to somebody removed. */
  lemma {:induction false} NobodyLeftUnder(p: Parents, id: Id, cascade: bool, kids: set<Id>)
    requires IsForest(p) && id in p && kids == if cascade then {} else set c | c in p && p[c] == id
    ensures var gone := if cascade then Subtree(p, id) else {id};
            forall x :: x in p && Repoint(p, kids, p[id])[x] in gone ==> x in gone
  {
    var gone := if cascade then Subtree(p, id) else {id};
    StepUp(p, id);
    forall x | x in p && Repoint(p, kids, p[id])[x] in gone
      ensures x in gone
    {
      if cascade {
        if x != id {
          SubtreeStep(p, id, x);
        }
      }
    }
  }

  lemma {:induction false} ReloadedForest(rows: Workers)
    requires WellKeyed(rows) && NOBODY !in rows
    ensures ValidChart(Reloaded(rows))
    ensures ValidChart(rows) ==> Reloaded(rows) == rows
  {
    var p, q := ParentsOf(rows), ParentsOf(Reloaded(rows));
    forall x | x in q
      ensures Rooted(q, x)
    {
      if Rooted(p, x) {
        StaysRooted(p, q, x);
      } else {
        RootIsRooted(q);
        StepDown(q, x);
      }
    }
  }

  lemma {:induction false} StaysRooted(p: Parents, q: Parents, x: Id)
    requires Rooted(p, x) && NOBODY !in p
    requires forall y :: y in p ==> y in q && (Rooted(p, y) ==> q[y] == p[y])
    ensures Rooted(q, x)
    decreases Depth(p, x)
  {
    if x == NOBODY {
      RootIsRooted(q);
    } else {
      StepUp(p, x);
      StaysRooted(p, q, p[x]);
      StepDown(q, x);
    }
  }

  lemma {:induction false} ChartTableIs(ws: seq<ChartWorker>, n: nat)
    requires n <= |ws| && UniqueIds(ws, n)
    ensures WellKeyed(ChartTable(ws, n))
    ensures forall x :: x in ChartTable(ws, n) <==> exists i :: 0 <= i < n && ws[i].id == x
    ensures forall i :: 0 <= i < n ==> ChartTable(ws, n)[ws[i].id] == ToWorker(ws[i])
  {
    if n > 0 {
      ChartTableIs(ws, n - 1);
    }
  }

  lemma {:induction false} ChartTableParents(ws: seq<ChartWorker>)
    requires UniqueIds(ws, |ws|)
    ensures ParentsOf(ChartTable(ws, |ws|)) == Declared(ws, |ws|)
  {
    ChartTableIs(ws, |ws|);
    DeclaredAt(ws, |ws|);
    forall x
      ensures x in ChartTable(ws, |ws|) <==> x in Declared(ws, |ws|)
      ensures x in ChartTable(ws, |ws|) ==> ChartTable(ws, |ws|)[x].reportsTo == Declared(ws, |ws|)[x]
    {
    }
  }

  lemma {:induction false} RestartKeepsInv(s: State, chart: Option<seq<ChartWorker>>)
    requires Inv(s)
    ensures Inv(Restarted(s, chart))
    ensures s.rows != map[] ==> Restarted(s, chart).rows == s.rows
    ensures Gone(s) && !Resurrects(s, Restart(chart)) ==> Gone(Restarted(s, chart))
  {
    if s.rows != map[] {
      assert ParentsOf(s.rows) == ParentsOf(s.graph);
      ReloadedForest(s.rows);
    } else {
      assert s.graph == map[];
      assert s.schedules == map[];
      if chart.Some? && Acceptable(chart.value) {
        ChartTableIs(chart.value, |chart.value|);
        ChartTableParents(chart.value);
      }
    }
  }

  lemma {:induction false} StepKeepsInv(s: State, op: Op)
    requires Inv(s)
    ensures Inv(Step(s, op))
  {
    match op
    case Connect(w, now) =>
      if Step(s, op) != s {
        ConnectKeepsInv(s, w, now);
      }
    case Reassign(id, newParent, caller, admin) =>
      if id in s.graph && IsForest(ParentsOf(s.graph)[id := newParent]) {
        EditKeepsInv(s, s.graph[id].(id := id, reportsTo := newParent));
      }
    case SetRole(id, role, caller, admin) =>
      if id in s.graph {
        var p := ParentsOf(s.graph);
        assert p[id := s.graph[id].reportsTo] == p;
        EditKeepsInv(s, s.graph[id].(id := id, role := role));
      }
    case Delete(id, cascade) =>
      if id in s.graph {
        DeleteKeepsInv(s, id, cascade);
      }
    case Restart(chart) =>
      RestartKeepsInv(s, chart);
    case _ =>
      TableStepKeepsInv(s, op);
  }

  /** New schedules that are served, and more revocations, keep the invariant. */
  lemma {:induction false} TablesKeepInv(s: State, schedules: Table, revoked: set<Id>)
    requires Inv(s) && SchedulesServed(schedules, s.graph) && s.revoked <= revoked
    ensures Inv(s.(schedules := schedules, revoked := revoked))
  {
  }

  lemma {:induction false} TouchKeepsInv(s: State, id: Id, now: Time)
    requires Inv(s)
    ensures Inv(Step(s, Touch(id, now))) && Step(s, Touch(id, now)).graph == s.graph
  {
    var t := Step(s, Touch(id, now));
    assert id in s.graph ==> t.rows.Keys == s.rows.Keys;
    assert Agree(t.rows, s.graph);
  }

  lemma {:induction false} PutKeepsInv(s: State, sc: Schedule, caller: Id, admin: bool)
    requires Inv(s) && MayPut(s, sc, caller, admin)
    ensures Inv(s.(schedules := Upserted(s.schedules, sc)))
  {
    TablesKeepInv(s, Upserted(s.schedules, sc), s.revoked);
  }

  lemma {:induction false} DropKeepsInv(s: State, id: Id)
    requires Inv(s)
    ensures Inv(s.(schedules := s.schedules - {id}))
  {
    TablesKeepInv(s, s.schedules - {id}, s.revoked);
  }

  lemma {:induction false} FireKeepsInv(s: State, id: Id, lastAt: Option<Time>, nextAt: Time)
    requires Inv(s) && id in s.schedules
    ensures Inv(s.(schedules := s.schedules[id := s.schedules[id].(lastAt := lastAt, nextAt := nextAt)]))
  {
    TablesKeepInv(s, s.schedules[id := s.schedules[id].(lastAt := lastAt, nextAt := nextAt)], s.revoked);
  }

  lemma {:induction false} RevokeKeepsInv(s: State, id: Id)
    requires Inv(s)
    ensures Inv(s.(revoked := s.revoked + {id}))
  {
    TablesKeepInv(s, s.schedules, s.revoked + {id});
  }

  lemma {:induction false} TableStepKeepsInv(s: State, op: Op)
    requires Inv(s) && (op.Touch? || op.PutSchedule? || op.DropSchedule? || op.MarkFired? || op.Revoke?)
    ensures Inv(Step(s, op)) && Step(s, op).graph == s.graph
  {
    match op
    case Touch(id, now) => TouchKeepsInv(s, id, now);
    case PutSchedule(sc, valid, caller, admin) =>
      if MayPut(s, sc, caller, admin) { PutKeepsInv(s, sc, caller, admin); }
    case DropSchedule(id, caller, admin) => DropKeepsInv(s, id);
    case MarkFired(id, lastAt, nextAt) =>
      if id in s.schedules { FireKeepsInv(s, id, lastAt, nextAt); }
    case Revoke(id) => RevokeKeepsInv(s, id);
  }

  /** In every state any run of operations reaches, the invariant holds. */
  lemma {:induction false} RunKeepsInv(s: State, ops: seq<Op>, n: nat)
    requires Inv(s) && n <= |ops|
    ensures Inv(Run(s, ops, n))
  {
    if n > 0 {
      RunKeepsInv(s, ops, n - 1);
      StepKeepsInv(Run(s, ops, n - 1), ops[n - 1]);
    }
  }

  /** A step brings back a deleted id exactly when it is a restart from a chart file that declares one. */
  lemma {:induction false} StepKeepsGone(s: State, op: Op)
    requires Inv(s) && Gone(s)
    ensures Gone(Step(s, op)) <==> !Resurrects(s, op)
  {
    match op
    case Connect(w, now) =>
    case Reassign(id, newParent, caller, admin) =>
    case SetRole(id, role, caller, admin) =>
    case Touch(id, now) =>
    case Delete(id, cascade) =>
      if id in s.graph {
        DeleteKeepsGone(s, id, cascade);
      }
    case PutSchedule(sc, valid, caller, admin) =>
    case DropSchedule(id, caller, admin) =>
    case MarkFired(id, lastAt, nextAt) =>
    case Revoke(id) =>
    case Restart(chart) =>
      RestartKeepsInv(s, chart);
      if Resurrects(s, op) {
        ChartTableIs(chart.value, |chart.value|);
        var i :| 0 <= i < |chart.value| && chart.value[i].id in s.deleted;
        assert chart.value[i].id in Step(s, op).graph;
      }
  }

  ghost predicate NeverResurrects(s: State, ops: seq<Op>, n: nat)
    requires n <= |ops|
  {
    n > 0 ==> NeverResurrects(s, ops, n - 1) && !Resurrects(Run(s, ops, n - 1), ops[n - 1])
  }

  /** In every state of the run so far, nobody deleted is on the chart. */
  ghost predicate AlwaysGone(s: State, ops: seq<Op>, n: nat)
    requires n <= |ops|
  {
    Gone(Run(s, ops, n)) && (n > 0 ==> AlwaysGone(s, ops, n - 1))
  }

  /** A run never has a deleted id on the chart exactly when none of its restarts brings one back. */
  lemma {:induction false} RunStaysGone(s: State, ops: seq<Op>, n: nat)
    requires Inv(s) && Gone(s) && n <= |ops|
    ensures AlwaysGone(s, ops, n) <==> NeverResurrects(s, ops, n)
  {
    if n > 0 {
      RunStaysGone(s, ops, n - 1);
      if AlwaysGone(s, ops, n - 1) {
        RunKeepsInv(s, ops, n - 1);
        StepKeepsGone(Run(s, ops, n - 1), ops[n - 1]);
      }
    }
  }

  /** Without such a restart, whoever is deleted at some point is revoked and off the chart ever after. */
  lemma {:induction false} DeletedStaysGone(s: State, ops: seq<Op>, m: nat, n: nat, id: Id)
    requires Inv(s) && Gone(s) && m <= n <= |ops| && NeverResurrects(s, ops, n)
    requires id in Run(s, ops, m).deleted
    ensures id in Run(s, ops, n).deleted && id in Run(s, ops, n).revoked && id !in Run(s, ops, n).graph
    decreases n
  {
    RunKeepsInv(s, ops, n);
    RunStaysGone(s, ops, n);
    if m < n {
      DeletedStaysGone(s, ops, m, n - 1, id);
      DeletedGrows(Run(s, ops, n - 1), ops[n - 1]);
    }
  }

  lemma {:induction false} DeletedGrows(s: State, op: Op)
    ensures s.deleted <= Step(s, op).deleted
  {
  }

  /** The promise fails as it stands: delete the only worker, restart with a chart file that names it. */
  lemma {:induction false} DeletedComesBack() returns (ops: seq<Op>, id: Id)
    ensures |ops| == 3 && id in Run(EMPTY, ops, 2).deleted
    ensures id in Run(EMPTY, ops, 3).graph && id in Run(EMPTY, ops, 3).revoked
  {
    var name := "lead";
    id := IdOf(name);
    NamedExactly(name);
    var w := Worker(id, "lead", NOBODY, "", 0, 0, NoStatus, map[]);
    var chart := [ChartWorker(id, "lead", NOBODY)];
    ops := [Connect(w, 5), Delete(id, false), Restart(Some(chart))];
    var s1, s2 := Run(EMPTY, ops, 1), Run(EMPTY, ops, 2);
    assert s1 == Step(Run(EMPTY, ops, 0), ops[0]);
    assert s1.graph.Keys == {id} && s1.rows.Keys == {id};
    LastIsDeleted(s1, id);
    assert s2 == Step(s1, ops[1]);
    AloneIsAcceptable(id);
    assert Run(EMPTY, ops, 3) == Step(s2, ops[2]);
  }

  lemma {:induction false} LastIsDeleted(s: State, id: Id)
    requires s.graph.Keys == {id} && s.rows.Keys == {id}
    ensures var t := Deleted(s, id, false); t.rows == map[] && id in t.deleted && id in t.revoked
  {
    var t := Deleted(s, id, false);
    assert t.rows.Keys == {};
  }

  lemma {:induction false} AloneIsAcceptable(id: Id)
    requires id != NOBODY
    ensures var chart := [ChartWorker(id, "lead", NOBODY)]; Acceptable(chart) && id in ChartTable(chart, |chart|)
  {
    var chart := [ChartWorker(id, "lead", NOBODY)];
    AloneIsForest(id);
    assert Declared(chart, 0) == map[];
    assert Declared(chart, 1) == map[id := NOBODY];
    assert ChartTable(chart, 1) == ChartTable(chart, 0)[id := ToWorker(chart[0])];
  }

  lemma {:induction false} AloneIsForest(id: Id)
    requires id != NOBODY
    ensures IsForest(map[id := NOBODY])
  {
    var p: Parents := map[];
    assert p[id := NOBODY] == map[id := NOBODY];
    AddKeepsForest(p, id, NOBODY);
  }

  // ----- Ids nobody may connect under -----

  /** A server whose rows are all gone starts again from a chart file that declares the id. */
  ghost predicate BringsIn(s: State, op: Op, id: Id) {
    && op.Restart? && s.rows == map[] && op.chart.Some? && Acceptable(op.chart.value)
    && exists i :: 0 <= i < |op.chart.value| && op.chart.value[i].id == id
  }

  /** A step puts a malformed id on the chart exactly when it is a restart from a chart file that declares it. */
  lemma {:induction false} StepPutsMalformed(s: State, op: Op, id: Id)
    requires Inv(s) && !Named(id) && id !in s.graph
    ensures id in Step(s, op).graph <==> BringsIn(s, op, id)
  {
    match op
    case Restart(chart) =>
      if s.rows == map[] && chart.Some? && Acceptable(chart.value) {
        ChartTableIs(chart.value, |chart.value|);
      }
    case Delete(gone, cascade) =>
      if gone in s.graph {
        assert forall x :: x in Deleted(s, gone, cascade).graph ==> x in s.graph;
      }
    case _ =>
  }

  ghost predicate NeverBroughtIn(s: State, ops: seq<Op>, n: nat, id: Id)
    requires n <= |ops|
  {
    n > 0 ==> NeverBroughtIn(s, ops, n - 1, id) && !BringsIn(Run(s, ops, n - 1), ops[n - 1], id)
  }

  /** In no state of the run so far is the id on the chart. */
  ghost predicate NeverOnChart(s: State, ops: seq<Op>, n: nat, id: Id)
    requires n <= |ops|
  {
    id !in Run(s, ops, n).graph && (n > 0 ==> NeverOnChart(s, ops, n - 1, id))
  }

  /** A malformed id is never on the chart of a run exactly when none of its restarts brings it in. */
  lemma {:induction false} RunPutsMalformed(s: State, ops: seq<Op>, n: nat, id: Id)
    requires Inv(s) && n <= |ops| && !Named(id) && id !in s.graph
    ensures NeverOnChart(s, ops, n, id) <==> NeverBroughtIn(s, ops, n, id)
  {
    if n > 0 {
      RunPutsMalformed(s, ops, n - 1, id);
      if NeverOnChart(s, ops, n - 1, id) {
        RunKeepsInv(s, ops, n - 1);
        StepPutsMalformed(Run(s, ops, n - 1), ops[n - 1], id);
      }
    }
  }

  // ----- Cascades, one removal after the other -----

  /** The order a cascade removes in: the worker and its listed descendants, backwards. */
  function RemovalOrder(all: seq<Id>): (order: seq<Id>)
    ensures |order| == |all|
    ensures forall i :: 0 <= i < |all| ==> order[i] == all[|all| - 1 - i]
  {
    seq(|all|, i requires 0 <= i < |all| => all[|all| - 1 - i])
  }

  /** A worker and everybody below it, once each, nobody before the one they report to. */
  ghost predicate WholeBranch(p: Parents, all: seq<Id>) {
    && all != [] && NoDup(all) && ParentsFirst(p, all)
    && (forall i :: 0 <= i < |all| ==> all[i] in p)
    && p[all[0]] !in all
    && (forall x {:trigger p[x]} :: x in p && p[x] in all ==> x in all)
  }

  lemma {:induction false} DescendantsAreWhole(p: Parents, id: Id, descendants: seq<Id>)
    requires IsForest(p) && id in p && NoDup(descendants) && ParentsFirst(p, [id] + descendants)
    requires forall d :: d in descendants <==> Below(p, id, d)
    ensures WholeBranch(p, [id] + descendants) && Elements([id] + descendants) == Subtree(p, id)
  {
    var all := [id] + descendants;
    BelowIsIrreflexive(p, id);
    assert forall i :: 0 <= i < |descendants| ==> descendants[i] in descendants;
    assert forall x :: x in all <==> x in Subtree(p, id);
    StepUp(p, id);
    forall x | x in p && p[x] in all
      ensures x in all
    {
      if x != id {
        SubtreeStep(p, id, x);
      }
    }
    if p[id] in all {
      SubtreeIsDeeper(p, id, p[id]);
    }
  }

  /** Whoever reports to all[k] is listed after it. */
  lemma {:induction false} ChildIsLater(p: Parents, all: seq<Id>, k: nat, x: Id) returns (m: nat)
    requires WholeBranch(p, all) && k < |all| && x in p && p[x] == all[k]
    ensures k < m < |all| && all[m] == x
  {
    m :| 0 <= m < |all| && all[m] == x;
    var j :| 0 <= j < m && p[all[m]] == all[j];
  }

  lemma {:induction false} ChildGoesBefore(p: Parents, all: seq<Id>, n: nat, x: Id)
    requires WholeBranch(p, all) && n <= |all| && x in p && p[x] in FirstOf(RemovalOrder(all), n)
    ensures x in FirstOf(RemovalOrder(all), n)
  {
    var order := RemovalOrder(all);
    FirstOfMembers(order, n, p[x]);
    var i :| 0 <= i < n && order[i] == p[x];
    var m := ChildIsLater(p, all, |all| - 1 - i, x);
    assert order[|all| - 1 - m] == x;
    FirstOfMembers(order, n, x);
  }

  /**
   Whoever is next in the removal order is a leaf by then: the chart after the first n removals is still
   a forest, and nobody in it reports to the next one.
   */
  lemma {:induction false} CascadeRemovesLeaves(p: Parents, all: seq<Id>, n: nat)
    requires IsForest(p) && WholeBranch(p, all) && n < |all|
    ensures var order, left := RemovalOrder(all), p - FirstOf(RemovalOrder(all), n);
            IsForest(left) && order[n] in left && forall x :: x in left ==> left[x] != order[n]
  {
    var order := RemovalOrder(all);
    var gone := FirstOf(order, n);
    forall x | x in p && p[x] in gone
      ensures x in gone
    {
      ChildGoesBefore(p, all, n, x);
    }
    DropKeepsForest(p, gone);
    NotAmongFirst(order, n);
    forall x | x in p - gone && p[x] == order[n]
      ensures false
    {
      NextIsLeaf(p, all, n, x);
    }
  }

  lemma {:induction false} NextIsLeaf(p: Parents, all: seq<Id>, n: nat, x: Id)
    requires WholeBranch(p, all) && n < |all| && x in p && p[x] == RemovalOrder(all)[n]
    ensures x in FirstOf(RemovalOrder(all), n)
  {
    var m := ChildIsLater(p, all, |all| - 1 - n, x);
    assert RemovalOrder(all)[|all| - 1 - m] == x;
    FirstOfMembers(RemovalOrder(all), n, x);
  }
}
