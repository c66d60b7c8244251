/** Who may change what. */
module Authority {
  import opened Wrappers
  import opened Names
  import opened Forest
  import opened OrgChart
  import opened Schedules
  import opened ChartFile
  import opened ControlPlane

  /** The worker itself, the one it reports to, and admins. */
  lemma {:induction false} ReassignIsAuthorized(s: State, id: Id, newParent: Id, caller: Id, admin: bool)
    requires Inv(s) && id in s.graph
    ensures var w, t := s.graph[id], Step(s, Reassign(id, newParent, caller, admin));
            && (t != s ==> admin || caller == id || caller == w.reportsTo)
            && ((admin || caller == id || caller == w.reportsTo) && IsForest(ParentsOf(s.graph)[id := newParent]) ==>
                  t.graph[id] == w.(reportsTo := newParent) && t.rows[id] == t.graph[id])
            && (!IsForest(ParentsOf(s.graph)[id := newParent]) ==> t == s)
  {
  }

  lemma {:induction false} SetRoleIsAuthorized(s: State, id: Id, role: string, caller: Id, admin: bool)
    requires Inv(s) && id in s.graph
    ensures var w, t := s.graph[id], Step(s, SetRole(id, role, caller, admin));
            && (t != s ==> admin || caller == id || caller == w.reportsTo)
            && (admin || caller == id || caller == w.reportsTo ==> t.graph[id] == w.(role := role))
  {
  }

  // ----- Every way a worker's place changes -----

  /** By its own, its parent's or an admin's reassignment. */
  ghost predicate MovesByHand(s: State, op: Op, id: Id, to: Id)
    requires id in s.graph
  {
    && op.Reassign? && op.id == id && op.newParent == to
    && (op.admin || op.caller == id || op.caller == s.graph[id].reportsTo)
    && IsForest(ParentsOf(s.graph)[id := to])
  }

  /** When its parent is deleted and the parent's children move up. */
  predicate MovesUp(s: State, op: Op, id: Id, to: Id)
    requires id in s.graph
  {
    var parent := s.graph[id].reportsTo;
    op.Delete? && !op.cascade && op.id == parent && parent in s.graph && s.graph[parent].reportsTo == to
  }

  /** A worker changes hands in one of these two ways only. */
  lemma {:induction false} WhoMoves(s: State, op: Op, id: Id)
    requires Inv(s) && id in s.graph && id in Step(s, op).graph
    ensures var to := Step(s, op).graph[id].reportsTo;
            to != s.graph[id].reportsTo ==> MovesByHand(s, op, id, to) || MovesUp(s, op, id, to)
  {
    match op
    case Reassign(other, newParent, caller, admin) =>
      ReassignMoves(s, other, newParent, caller, admin, id);
    case Delete(gone, cascade) =>
      if gone in s.graph { DeleteMovesUp(s, gone, cascade, id); }
    case _ => StaysPut(s, op, id);
  }

  /** And in these it does. */
  lemma {:induction false} MovesWhen(s: State, op: Op, id: Id, to: Id)
    requires Inv(s) && id in s.graph && (MovesByHand(s, op, id, to) || MovesUp(s, op, id, to))
    ensures id in Step(s, op).graph && Step(s, op).graph[id].reportsTo == to
  {
    if op.Reassign? {
      ReassignMoves(s, op.id, op.newParent, op.caller, op.admin, id);
    } else {
      NeverUnderItself(s, id);
      DeleteMovesUp(s, op.id, op.cascade, id);
    }
  }

  lemma {:induction false} NeverUnderItself(s: State, id: Id)
    requires Inv(s) && id in s.graph
    ensures s.graph[id].reportsTo != id
  {
    StepUp(ParentsOf(s.graph), id);
  }

  lemma {:induction false} ReassignMoves(s: State, other: Id, newParent: Id, caller: Id, admin: bool, id: Id)
    requires Inv(s) && id in s.graph
    ensures var op := Reassign(other, newParent, caller, admin); var t := Step(s, op).graph;
            id in t && t[id].reportsTo == if MovesByHand(s, op, id, newParent) then newParent else s.graph[id].reportsTo
  {
    if other == id { ReassignIsAuthorized(s, id, newParent, caller, admin); }
  }

  lemma {:induction false} StaysPut(s: State, op: Op, id: Id)
    requires Inv(s) && id in s.graph && !op.Reassign? && !op.Delete?
    ensures id in Step(s, op).graph && Step(s, op).graph[id].reportsTo == s.graph[id].reportsTo
  {
    match op
    case Connect(w, now) =>
    case SetRole(other, role, caller, admin) =>
    case Restart(chart) => RestartLeaves(s, chart, id);
    case _ => TableStepKeepsInv(s, op);
  }

  lemma {:induction false} DeleteMovesUp(s: State, gone: Id, cascade: bool, id: Id)
    requires gone in s.graph && id in s.graph
    requires id in Deleted(s, gone, cascade).graph || (!cascade && id != gone)
    ensures id in Deleted(s, gone, cascade).graph
    ensures Deleted(s, gone, cascade).graph[id].reportsTo ==
            if !cascade && s.graph[id].reportsTo == gone then s.graph[gone].reportsTo else s.graph[id].reportsTo
  {
    var kids := if cascade then {} else ChildrenIn(s.graph, gone);
    assert id in Moved(s.graph, s.graph, kids, s.graph[gone].reportsTo);
  }

  /** A restart of a server with rows leaves the chart as it was, but for when workers were last seen. */
  lemma {:induction false} RestartLeaves(s: State, chart: Option<seq<ChartWorker>>, id: Id)
    requires Inv(s) && id in s.graph
    ensures var t := Restarted(s, chart).graph;
            && t.Keys == s.graph.Keys
            && t[id] == s.graph[id].(lastSeenAt := t[id].lastSeenAt, status := t[id].status)
  {
    assert ParentsOf(s.rows) == ParentsOf(s.graph);
    ReloadedForest(s.rows);
  }

  /** A delete changes nothing of those it leaves but whom they report to. */
  lemma {:induction false} DeleteLeaves(s: State, gone: Id, cascade: bool, id: Id)
    requires gone in s.graph && id in Deleted(s, gone, cascade).graph && id in s.graph
    ensures var w' := Deleted(s, gone, cascade).graph[id]; w' == s.graph[id].(reportsTo := w'.reportsTo)
  {
    var kids := if cascade then {} else ChildrenIn(s.graph, gone);
    assert id in Moved(s.graph, s.graph, kids, s.graph[gone].reportsTo);
  }

  /** A role changes by the worker's own, its parent's or an admin's request and by nothing else. */
  lemma {:induction false} WhoChangesRoles(s: State, op: Op, id: Id)
    requires Inv(s) && id in s.graph && id in Step(s, op).graph
    ensures var w, w' := s.graph[id], Step(s, op).graph[id];
            w'.role != w.role <==>
              op.SetRole? && op.id == id && op.role == w'.role != w.role
              && (op.admin || op.caller == id || op.caller == w.reportsTo)
  {
    match op
    case SetRole(other, role, caller, admin) =>
      if other == id { SetRoleIsAuthorized(s, id, role, caller, admin); }
    case _ => OnlyRolesApart(s, op, id);
  }

  /** Whatever else is done leaves roles alone. */
  lemma {:induction false} OnlyRolesApart(s: State, op: Op, id: Id)
    requires Inv(s) && id in s.graph && id in Step(s, op).graph && !op.SetRole?
    ensures Step(s, op).graph[id].role == s.graph[id].role
    ensures SameOrigin(s.graph[id], Step(s, op).graph[id])
  {
    match op
    case Connect(w, now) => NewComersApart(s, w, now, id);
    case Reassign(other, newParent, caller, admin) => OnlyPlaceApart(s, other, newParent, caller, admin, id);
    case Restart(chart) => RestartLeaves(s, chart, id);
    case Delete(gone, cascade) =>
      if gone in s.graph { DeleteLeaves(s, gone, cascade, id); }
    case _ => TableStepKeepsInv(s, op);
  }

  lemma {:induction false} NewComersApart(s: State, w: Worker, now: Time, id: Id)
    requires id in s.graph
    ensures id in Step(s, Connect(w, now)).graph && Step(s, Connect(w, now)).graph[id] == s.graph[id]
  {
  }

  lemma {:induction false} OnlyPlaceApart(s: State, other: Id, newParent: Id, caller: Id, admin: bool, id: Id)
    requires Inv(s) && id in s.graph
    ensures var t := Step(s, Reassign(other, newParent, caller, admin)).graph;
            id in t && t[id] == s.graph[id].(reportsTo := t[id].reportsTo)
  {
  }

  /** What a worker connected with stays: its key, its metadata and when it came. */
  lemma {:induction false} NobodyChangesKeys(s: State, op: Op, id: Id)
    requires Inv(s) && id in s.graph && id in Step(s, op).graph
    ensures SameOrigin(s.graph[id], Step(s, op).graph[id])
  {
    if !op.SetRole? {
      OnlyRolesApart(s, op, id);
    }
  }

  predicate SameOrigin(w: Worker, w': Worker) {
    w'.id == w.id && w'.publicKey == w.publicKey && w'.metadata == w.metadata && w'.connectedAt == w.connectedAt
  }

  /** Onto the chart by connecting, under a registered parent, or by a start without rows from a chart file. */
  lemma {:induction false} WhoJoins(s: State, op: Op, id: Id)
    requires Inv(s) && id !in s.graph
    ensures id in Step(s, op).graph <==>
              || BringsIn(s, op, id)
              || (op.Connect? && op.w.id == id && ValidWorkerId(TextOf(id)) && id !in s.revoked
                  && (op.w.reportsTo == NOBODY || op.w.reportsTo in s.graph))
  {
    match op
    case Restart(chart) =>
      if s.rows == map[] && chart.Some? && Acceptable(chart.value) {
        ChartTableIs(chart.value, |chart.value|);
      }
    case _ =>
  }

  /** Who connects is on the chart as announced, with the defaults for what was left open. */
  lemma {:induction false} ConnectsAs(s: State, w: Worker, now: Time)
    requires Inv(s) && w.id !in s.graph && w.id in Step(s, Connect(w, now)).graph
    ensures var w' := Step(s, Connect(w, now)).graph[w.id];
            && w'.role == w.role && w'.reportsTo == w.reportsTo && w'.publicKey == w.publicKey
            && w'.metadata == w.metadata
            && (w'.status == w.status || (w.status == NoStatus && w'.status == Connected)) && w'.status != NoStatus
            && (w'.connectedAt == w.connectedAt != 0 || (w.connectedAt == 0 && w'.connectedAt == now))
            && (w'.lastSeenAt == w.lastSeenAt != 0 || (w.lastSeenAt == 0 && w'.lastSeenAt == now))
  {
  }

  /** Off the chart by a delete of the worker or, with cascade, of somebody above it. */
  lemma {:induction false} WhoLeaves(s: State, op: Op, id: Id)
    requires Inv(s) && id in s.graph
    ensures id !in Step(s, op).graph <==>
              op.Delete? && op.id in s.graph && (op.id == id || (op.cascade && LeadsTo(ParentsOf(s.graph), id, op.id)))
  {
    if op.Delete? && op.id in s.graph {
      BelowIsLeading(ParentsOf(s.graph), op.id, id);
    }
    if op.Restart? {
      RestartLeaves(s, op.chart, id);
    }
  }

  /** A touch is kept in the row alone: when the worker was seen, and that it is connected. */
  lemma {:induction false} TouchIsKept(s: State, id: Id, now: Time)
    requires Inv(s) && id in s.graph
    ensures var t := Step(s, Touch(id, now));
            && t.graph == s.graph && t.rows.Keys == s.rows.Keys
            && t.rows[id].lastSeenAt == now && t.rows[id].status == Connected
            && t.rows[id].(lastSeenAt := 0, status := NoStatus) == s.graph[id].(lastSeenAt := 0, status := NoStatus)
            && (forall x :: x in s.rows && x != id ==> t.rows[x] == s.rows[x])
  {
  }

  /** A restart takes every row as it is if its chain of parents ends at the root, and puts it under the root if not. */
  lemma {:induction false} RestartRestores(s: State, chart: Option<seq<ChartWorker>>, id: Id)
    requires NOBODY !in s.rows && id in s.rows
    ensures var t, p := Step(s, Restart(chart)), ParentsOf(s.rows);
            && t.graph == t.rows && t.graph.Keys == s.rows.Keys
            && (LeadsTo(p, id, NOBODY) ==> t.graph[id] == s.rows[id])
            && (!LeadsTo(p, id, NOBODY) ==> t.graph[id] == s.rows[id].(reportsTo := NOBODY))
  {
    RootedIsLeading(ParentsOf(s.rows), id);
  }

  /** Without rows it takes the entries of an accepted chart file as they are, and nothing of any other. */
  lemma {:induction false} RestartTakesChart(s: State, chart: seq<ChartWorker>, i: nat)
    requires s.rows == map[] && i < |chart|
    ensures var t := Step(s, Restart(Some(chart)));
            if Acceptable(chart) then
              && chart[i].id in t.graph && t.rows == t.graph
              && t.graph[chart[i].id].id == chart[i].id && t.graph[chart[i].id].role == chart[i].role
              && t.graph[chart[i].id].reportsTo == chart[i].reportsTo
            else t.graph == map[] && t.rows == map[]
  {
    if Acceptable(chart) {
      ChartTableIs(chart, |chart|);
    }
  }

  // ----- Every way a schedule or a revocation changes -----

  /** The request of a schedule's owner or an admin, between registered workers; what is written over is the owner's. */
  predicate WritesSchedule(s: State, op: Op, sc': Schedule) {
    && op.PutSchedule? && op.s.id == sc'.id && op.valid && op.s.owner in s.graph && op.s.to in s.graph
    && (op.admin || (op.caller == op.s.owner && (sc'.id in s.schedules ==> op.caller == s.schedules[sc'.id].owner)))
    && sc' == if sc'.id in s.schedules
              then op.s.(createdAt := s.schedules[sc'.id].createdAt, lastAt := s.schedules[sc'.id].lastAt)
              else op.s
  }

  predicate FiresSchedule(s: State, op: Op, i: Id, sc': Schedule)
    requires i in s.schedules
  {
    op.MarkFired? && op.id == i && sc' == s.schedules[i].(nextAt := op.nextAt, lastAt := op.lastAt)
  }

  /** A schedule comes, and changes, by such a request only; a fire only moves its times. */
  lemma {:induction false} WhoWrites(s: State, op: Op, i: Id)
    requires i in Step(s, op).schedules
    ensures var sc' := Step(s, op).schedules[i];
            || (sc'.id == i && WritesSchedule(s, op, sc'))
            || (i in s.schedules && (sc' == s.schedules[i] || FiresSchedule(s, op, i, sc')))
  {
    match op
    case PutSchedule(sc, valid, caller, admin) =>
    case MarkFired(id, lastAt, nextAt) =>
    case DropSchedule(id, caller, admin) =>
    case Delete(id, cascade) =>
    case _ => OtherTablesStay(s, op);
  }

  lemma {:induction false} OtherTablesStay(s: State, op: Op)
    requires !op.PutSchedule? && !op.MarkFired? && !op.DropSchedule? && !op.Delete?
    ensures Step(s, op).schedules == s.schedules
  {
  }

  /** And such a request is granted. */
  lemma {:induction false} OwnersWrite(s: State, sc: Schedule, caller: Id, admin: bool)
    requires sc.owner in s.graph && sc.to in s.graph
    requires admin || (caller == sc.owner && (sc.id in s.schedules ==> caller == s.schedules[sc.id].owner))
    ensures var t := Step(s, PutSchedule(sc, true, caller, admin)).schedules;
            sc.id in t && t[sc.id].owner == sc.owner && t[sc.id].to == sc.to && t[sc.id].cron == sc.cron
            && t[sc.id].enabled == sc.enabled && t[sc.id].nextAt == sc.nextAt
  {
  }

  /** A fire moves both times of its schedule. */
  lemma {:induction false} FiresMove(s: State, id: Id, lastAt: Option<Time>, nextAt: Time)
    requires id in s.schedules
    ensures var t := Step(s, MarkFired(id, lastAt, nextAt)).schedules;
            t == s.schedules[id := s.schedules[id].(lastAt := lastAt, nextAt := nextAt)]
  {
  }

  /** A schedule goes by its owner's or an admin's request, or with a worker that owns or receives it. */
  lemma {:induction false} WhoDrops(s: State, op: Op, i: Id)
    requires Inv(s) && i in s.schedules
    ensures var sc := s.schedules[i];
            i !in Step(s, op).schedules <==>
              || (op.DropSchedule? && op.id == i && (op.admin || op.caller == sc.owner))
              || sc.owner !in Step(s, op).graph || sc.to !in Step(s, op).graph
  {
    if op.Restart? {
      RestartLeaves(s, op.chart, s.schedules[i].owner);
    }
    if op.Delete? && op.id in s.graph {
      DeleteKeepsInv(s, op.id, op.cascade);
    }
  }

  /** Revoked is who was deleted or revoked by hand, for good. */
  lemma {:induction false} WhoIsRevoked(s: State, op: Op, id: Id)
    requires Inv(s)
    ensures id in Step(s, op).revoked <==>
              id in s.revoked || (op.Revoke? && op.id == id) || (id in s.graph && id !in Step(s, op).graph)
  {
    match op
    case Delete(gone, cascade) =>
      if gone in s.graph { DeleteRevokes(s, gone, cascade, id); }
    case Revoke(other) =>
    case _ =>
      OthersRevokeNobody(s, op);
      if id in s.graph { WhoLeaves(s, op, id); }
  }

  lemma {:induction false} DeleteRevokes(s: State, gone: Id, cascade: bool, id: Id)
    requires Inv(s) && gone in s.graph
    ensures var t := Deleted(s, gone, cascade);
            id in t.revoked <==> id in s.revoked || (id in s.graph && id !in t.graph)
  {
    StepUp(ParentsOf(s.graph), gone);
  }

  lemma {:induction false} OthersRevokeNobody(s: State, op: Op)
    requires !op.Delete? && !op.Revoke?
    ensures Step(s, op).revoked == s.revoked
  {
  }
}
