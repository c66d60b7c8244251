/** The server of internal/server/server.go. */
module ServerImpl {
  import opened Wrappers
  import opened Names
  import opened Forest
  import opened OrgChart
  import opened Schedules
  import opened ChartFile
  import opened ControlPlane

  datatype ServerError =
    | RevokedId
    | MalformedId
    | GraphRefused(reason: GraphError)
    | NotAuthorized
    | UnknownWorker
    | BadSchedule
    | BadChart(problems: seq<Problem>)

  /** The tables of internal/server/store: every write is an upsert or a delete by id. */
  class Store {
    var workers: Workers
    var schedules: Table
    var revoked: set<Id>

    constructor ()
      ensures workers == map[] && schedules == map[] && revoked == {}
    {
      workers, schedules, revoked := map[], map[], {};
    }

    /** Every schedule that worker owns or receives, by id and in the table's own order. */
    method ListTouching(worker: Id) returns (ids: seq<Id>)
      ensures NoDup(ids) && forall i :: i in ids <==> i in schedules && Touches(schedules[i], worker)
    {
      ids := [];
      var rest := schedules.Keys;
      while rest != {}
        invariant rest <= schedules.Keys && NoDup(ids)
        invariant forall i :: i in ids <==> i in schedules && i !in rest && Touches(schedules[i], worker)
        decreases rest
      {
        var i :| i in rest;
        rest := rest - {i};
        if Touches(schedules[i], worker) {
          assert forall k :: 0 <= k < |ids| ==> ids[k] in ids;
          ids := ids + [i];
        }
      }
    }

    /** The rows in some order: ListWorkers sorts by id, and nothing below depends on it. */
    method ListWorkers() returns (list: seq<Worker>)
      requires WellKeyed(workers)
      ensures NoDup(Ids(list)) && Registered(workers, list) && Elements(Ids(list)) == workers.Keys
    {
      list := [];
      var rest := workers.Keys;
      while rest != {}
        invariant rest <= workers.Keys && NoDup(Ids(list)) && Registered(workers, list)
        invariant Elements(Ids(list)) == workers.Keys - rest
        decreases rest
      {
        var id :| id in rest;
        rest := rest - {id};
        ghost var before := Ids(list);
        assert forall k :: 0 <= k < |before| ==> before[k] in Elements(before);
        list := list + [workers[id]];
        assert Ids(list) == before + [id];
        assert Elements(Ids(list)) == Elements(before) + {id};
      }
    }
  }

  class Server {
    const graph: Graph
    const store: Store
    /** History: every id a delete has removed. */
    ghost var deleted: set<Id>

    constructor ()
      ensures State() == EMPTY && fresh(graph) && fresh(store)
    {
      graph := new Graph();
      store := new Store();
      deleted := {};
    }

    ghost function State(): State
      reads this, graph, store
    {
      ControlPlane.State(graph.workers, store.workers, store.schedules, store.revoked, deleted)
    }

    method ConnectWorker(w: Worker, now: Time) returns (r: Outcome<ServerError>)
      requires Inv(State())
      modifies this, graph, store
      ensures State() == Step(old(State()), Connect(w, now))
      ensures r.Done? <==> Named(w.id) && w.id !in old(State().revoked) && Admits(old(State().graph), w)
      ensures r == Refused(MalformedId) <==> !ValidWorkerId(TextOf(w.id))
      ensures r == Refused(RevokedId) <==> ValidWorkerId(TextOf(w.id)) && w.id in old(State().revoked)
    {
      if !Named(w.id) {
        return Refused(MalformedId);
      }
      if w.id in store.revoked {
        return Refused(RevokedId);
      }
      var stamped := Stamped(w, now);
      var added := graph.AddWorker(stamped);
      if added.Refused? {
        return Refused(GraphRefused(added.reason));
      }
      store.workers := store.workers[w.id := stamped];
      return Done;
    }

    method TouchWorker(id: Id, now: Time) returns (r: Outcome<ServerError>)
      requires Inv(State())
      modifies store
      ensures State() == Step(old(State()), Touch(id, now))
      ensures r.Done? <==> id in old(State().graph)
      ensures r.Refused? ==> r == Refused(UnknownWorker)
    {
      if id !in graph.workers {
        return Refused(UnknownWorker);
      }
      var w := graph.workers[id];
      store.workers := store.workers[w.id := w.(lastSeenAt := now, status := Connected)];
      return Done;
    }

    method ReassignWorker(id: Id, newParent: Id, caller: Id, admin: bool)
      returns (r: Outcome<ServerError>, told: seq<Id>)
      requires Inv(State())
      modifies graph, store
      ensures State() == Step(old(State()), ControlPlane.Reassign(id, newParent, caller, admin))
      ensures r.Done? <==> id in old(State().graph) && MayEdit(old(State().graph), id, caller, admin) &&
                           IsForest(ParentsOf(old(State().graph))[id := newParent])
      ensures r == Refused(UnknownWorker) <==> id !in old(State().graph)
      ensures r == Refused(NotAuthorized) <==>
              id in old(State().graph) && !admin && caller != id && caller != old(State().graph)[id].reportsTo
      ensures forall x :: x in told ==> x in State().graph
      ensures r.Done? ==> NoDup(told)
                          && Elements(told) == {id, old(State().graph)[id].reportsTo, newParent} - {NOBODY}
      ensures r.Refused? ==> told == []
    {
      told := [];
      if id !in graph.workers {
        return Refused(UnknownWorker), told;
      }
      var oldParent := graph.workers[id].reportsTo;
      if !admin && caller != id && caller != oldParent {
        return Refused(NotAuthorized), told;
      }
      ParentIsRegistered(graph.workers, id);
      var moved := graph.Reassign(id, newParent);
      if moved.Refused? {
        return Refused(GraphRefused(moved.reason)), told;
      }
      store.workers := store.workers[id := graph.workers[id]];
      ParentIsRegistered(graph.workers, id);
      told := Recipients(id, oldParent, newParent);
      return Done, told;
    }

    /** Who hears of a reassignment: the worker and its old and new parents. */
    method Recipients(id: Id, oldParent: Id, newParent: Id) returns (told: seq<Id>)
      requires id != NOBODY && oldParent != id && newParent != id
      ensures NoDup(told) && Elements(told) == {id, oldParent, newParent} - {NOBODY}
      ensures forall x :: x in told ==> x == id || x == oldParent || x == newParent
      ensures NOBODY !in told
    {
      told := [id];
      if oldParent != NOBODY {
        told := told + [oldParent];
      }
      if newParent != NOBODY && newParent != oldParent {
        told := told + [newParent];
      }
    }

    method SetWorkerRole(id: Id, role: string, caller: Id, admin: bool) returns (r: Outcome<ServerError>)
      requires Inv(State())
      modifies graph, store
      ensures State() == Step(old(State()), ControlPlane.SetRole(id, role, caller, admin))
      ensures r.Done? <==> id in old(State().graph) && MayEdit(old(State().graph), id, caller, admin)
      ensures r == Refused(UnknownWorker) <==> id !in old(State().graph)
      ensures r == Refused(NotAuthorized) <==>
              id in old(State().graph) && !admin && caller != id && caller != old(State().graph)[id].reportsTo
    {
      if id !in graph.workers {
        return Refused(UnknownWorker);
      }
      var parent := graph.workers[id].reportsTo;
      if !admin && caller != id && caller != parent {
        return Refused(NotAuthorized);
      }
      if graph.workers[id].role == role {
        return Done;
      }
      var set' := graph.SetRole(id, role);
      store.workers := store.workers[id := graph.workers[id]];
      return Done;
    }

    method PutSchedule(sc: Schedule, valid: bool, caller: Id, admin: bool) returns (r: Outcome<ServerError>)
      requires Inv(State())
      modifies store
      ensures State() == Step(old(State()), ControlPlane.PutSchedule(sc, valid, caller, admin))
      ensures r.Done? <==> valid && MayPut(old(State()), sc, caller, admin)
      ensures r == Refused(BadSchedule) <==> !valid && MayPut(old(State()), sc, caller, admin)
      ensures sc.owner != caller && !admin ==> r == Refused(NotAuthorized)
      ensures (sc.owner == caller || admin) && (sc.owner !in State().graph || sc.to !in State().graph) ==>
                r == Refused(UnknownWorker)
      ensures r == Refused(NotAuthorized) <==>
              !admin && (sc.owner != caller
                         || (sc.owner in State().graph && sc.to in State().graph && sc.id in old(State().schedules)
                             && old(State().schedules)[sc.id].owner != caller))
    {
      if sc.owner != caller && !admin {
        return Refused(NotAuthorized);
      }
      if sc.owner !in graph.workers {
        return Refused(UnknownWorker);
      }
      if sc.to !in graph.workers {
        return Refused(UnknownWorker);
      }
      if sc.id in store.schedules {
        if store.schedules[sc.id].owner != caller && !admin {
          return Refused(NotAuthorized);
        }
      }
      if !valid {
        return Refused(BadSchedule);
      }
      store.schedules := Upserted(store.schedules, sc);
      return Done;
    }

    /** Moves the children up or collects the branch, then removes what goes, leaves first. */
    method DeleteWorker(id: Id, cascade: bool) returns (r: Result<seq<Id>, ServerError>)
      requires Inv(State())
      modifies this, graph, store
      ensures State() == Step(old(State()), Delete(id, cascade))
      ensures r.Ok? <==> id in old(State().graph)
      ensures r.Ok? ==> NoDup(r.value) && Elements(r.value) == Removed(old(State().graph), id, cascade)
    {
      if id !in graph.workers {
        return Err(UnknownWorker);
      }
      var removing, all := PrepareDelete(id, cascade);
      RemoveAll(removing, all);
      OrderOnce(all);
      return Ok(removing);
    }

    /** Collects the branch, or moves the children up: what is left to do is removing, in that order. */
    method PrepareDelete(id: Id, cascade: bool) returns (removing: seq<Id>, ghost all: seq<Id>)
      requires Inv(State()) && id in graph.workers
      modifies graph, store
      ensures removing == RemovalOrder(all)
      ensures NoDup(all) && Elements(all) == Removed(old(State().graph), id, cascade)
      ensures Without(State(), Elements(all)) == Deleted(old(State()), id, cascade)
    {
      ghost var s := State();
      if cascade {
        removing, all := CollectBranch(id);
        CascadeDeletes(s, id, all);
      } else {
        MoveChildrenUp(id);
        removing, all := [id], [id];
        SingleDeletes(s, id);
      }
    }

    /** The branch under id, backwards: everybody before the one they report to, id last. */
    method CollectBranch(id: Id) returns (removing: seq<Id>, ghost all: seq<Id>)
      requires Inv(State()) && id in graph.workers
      ensures WholeBranch(ParentsOf(graph.workers), all) && Elements(all) == Subtree(ParentsOf(graph.workers), id)
      ensures removing == RemovalOrder(all)
    {
      var found := graph.Descendants(id);
      var descendants := found.value;
      all := [id] + Ids(descendants);
      DescendantsAreWhole(ParentsOf(graph.workers), id, Ids(descendants));
      removing := Backwards(Ids(descendants));
      removing := removing + [id];
      assert removing == RemovalOrder(all);
    }

    method Backwards(ids: seq<Id>) returns (removing: seq<Id>)
      ensures |removing| == |ids| && forall k :: 0 <= k < |ids| ==> removing[k] == ids[|ids| - 1 - k]
    {
      removing := [];
      var i := |ids| - 1;
      while i >= 0
        invariant -1 <= i < |ids| && |removing| == |ids| - 1 - i
        invariant forall k :: 0 <= k < |removing| ==> removing[k] == ids[|ids| - 1 - k]
      {
        removing := removing + [ids[i]];
        i := i - 1;
      }
    }

    /** Each child in turn is reassigned to id's own parent; the chart is a forest after each. */
    method MoveChildrenUp(id: Id)
      requires Inv(State()) && id in graph.workers
      modifies graph, store
      ensures State() == Reparented(old(State()), id, ChildrenIn(old(State().graph), id))
    {
      ghost var s0 := State();
      var parent := graph.workers[id].reportsTo;
      var found := graph.Children(id);
      var children := found.value;
      ghost var ids := Ids(children);
      ReparentNobody(s0, id);
      for i := 0 to |children|
        invariant State() == Reparented(s0, id, FirstOf(ids, i))
        invariant FirstOf(ids, i) <= ChildrenIn(s0.graph, id)
      {
        assert children[i] in children;
        ReparentKeepsInv(s0, id, FirstOf(ids, i));
        MoveUpKeepsInv(s0, id, FirstOf(ids, i), children[i].id);
        MoveUp(children[i].id, parent);
      }
      AllChildren(s0.graph, id, children);
    }

    method MoveUp(child: Id, parent: Id)
      requires ValidChart(graph.workers) && child in graph.workers
      requires IsForest(ParentsOf(graph.workers)[child := parent])
      modifies graph, store
      ensures State() == Saved(old(State()), old(State()).graph[child].(reportsTo := parent))
    {
      var moved := graph.Reassign(child, parent);
      store.workers := store.workers[child := graph.workers[child]];
    }

    /** After i removals the state is the one RemovalKeepsInv speaks of: its chart is a forest. */
    method RemoveAll(removing: seq<Id>, ghost all: seq<Id>)
      requires removing == RemovalOrder(all)
      modifies this, graph, store
      ensures State() == Without(old(State()), Elements(all))
    {
      ghost var s0 := State();
      WithoutNobody(s0);
      for i := 0 to |removing|
        invariant State() == Without(s0, FirstOf(removing, i))
      {
        WithoutOneMore(s0, FirstOf(removing, i), removing[i]);
        RemoveOne(removing[i]);
      }
      WholeOrder(all);
    }

    method RemoveOne(id: Id)
      modifies this, graph, store
      ensures State() == Without(old(State()), {id})
    {
      var removed := graph.Remove(id);
      store.workers := store.workers - {id};
      store.revoked := store.revoked + {id};
      DeleteWorkerSchedules(id);
      deleted := deleted + {id};
    }

    method DeleteWorkerSchedules(worker: Id)
      modifies store`schedules
      ensures store.schedules == SchedulesWithout(old(store.schedules), {worker})
    {
      var owned := store.ListTouching(worker);
      ghost var before := store.schedules;
      for i := 0 to |owned|
        invariant store.schedules == before - FirstOf(owned, i)
      {
        store.schedules := store.schedules - {owned[i]};
      }
      forall i
        ensures i in FirstOf(owned, |owned|) <==> i in before && Touches(before[i], worker)
      {
        FirstOfMembers(owned, |owned|, i);
      }
    }

    method DropSchedule(id: Id, caller: Id, admin: bool) returns (r: Outcome<ServerError>)
      requires Inv(State())
      modifies store
      ensures State() == Step(old(State()), ControlPlane.DropSchedule(id, caller, admin))
      ensures r.Done? <==> id in old(State()).schedules && (admin || old(State()).schedules[id].owner == caller)
      ensures r == Refused(NotAuthorized) <==>
              id in old(State()).schedules && !admin && old(State()).schedules[id].owner != caller
    {
      if id !in store.schedules {
        return Refused(BadSchedule);
      }
      if !admin && store.schedules[id].owner != caller {
        return Refused(NotAuthorized);
      }
      store.schedules := store.schedules - {id};
      return Done;
    }

    method MarkFired(id: Id, lastAt: Option<Time>, nextAt: Time) returns (r: Outcome<ServerError>)
      modifies store
      ensures State() == Step(old(State()), ControlPlane.MarkFired(id, lastAt, nextAt))
      ensures r.Done? <==> id in old(State()).schedules
    {
      if id !in store.schedules {
        return Refused(BadSchedule);
      }
      store.schedules := store.schedules[id := store.schedules[id].(lastAt := lastAt, nextAt := nextAt)];
      return Done;
    }

    method Revoke(id: Id)
      modifies store
      ensures State() == Step(old(State()), ControlPlane.Revoke(id))
    {
      store.revoked := store.revoked + {id};
    }

    // ----- Restart -----

    /** A new process: the chart in memory is gone, the tables are not. */
    method Restart(chart: Option<seq<ChartWorker>>) returns (r: Outcome<ServerError>)
      requires Inv(State())
      modifies graph, store
      ensures State() == Step(old(State()), ControlPlane.Restart(chart))
      ensures r.Done? <==> old(State().rows) != map[] || chart.None? || Acceptable(chart.value)
    {
      AgreeIsValid(State());
      graph.workers := map[];
      r := LoadGraph(chart);
    }

    /** Works on whatever rows are stored: a broken chain costs its members their parent, nothing else. */
    method LoadGraph(chart: Option<seq<ChartWorker>>) returns (r: Outcome<ServerError>)
      requires graph.workers == map[] && WellKeyed(store.workers) && NOBODY !in store.workers
      modifies graph, store`workers
      ensures State() == Restarted(old(State()), chart)
      ensures r.Done? <==> old(State().rows) != map[] || chart.None? || Acceptable(chart.value)
    {
      var workers := store.ListWorkers();
      if |workers| == 0 {
        assert store.workers.Keys == {};
        r := LoadOrgChartFile(chart);
        return;
      }
      assert Ids(workers)[0] in Elements(Ids(workers));
      ghost var rows := store.workers;
      LoadRestores(rows, workers);
      var pending := workers;
      while |pending| > 0
        invariant Loads(graph.workers, pending) && store.workers == rows
        invariant Loaded(graph.workers, pending) == Loaded(map[], workers)
        invariant Orphans(graph.workers, pending) == Orphans(map[], workers)
        decreases |pending|
      {
        ghost var before := graph.workers;
        var deferred := AddRound(pending, false);
        if |deferred| == |pending| {
          LoadStuck(before, pending);
          ReattachOrphansToRoot(deferred);
          return Done;
        }
        pending := deferred;
      }
      return Done;
    }

    /** One pass over the pending workers: those whose parent is not on the chart yet are deferred. */
    method AddRound(pending: seq<Worker>, save: bool) returns (deferred: seq<Worker>)
      requires RoundIsFresh(graph.workers, pending)
      requires save ==> store.workers == graph.workers
      modifies graph, store`workers
      ensures graph.workers == Placed(old(graph.workers), pending, |pending|)
      ensures deferred == Deferred(old(graph.workers), pending, |pending|)
      ensures store.workers == if save then graph.workers else old(store.workers)
    {
      deferred := [];
      for i := 0 to |pending|
        invariant graph.workers == Placed(old(graph.workers), pending, i)
        invariant deferred == Deferred(old(graph.workers), pending, i)
        invariant store.workers == if save then graph.workers else old(store.workers)
      {
        var w := pending[i];
        var added := graph.AddWorker(w);
        if added == Refused(ParentNotFound) {
          deferred := deferred + [w];
          continue;
        }
        if save {
          store.workers := store.workers[w.id := w];
        }
      }
    }

    method ReattachOrphansToRoot(orphans: seq<Worker>)
      requires OrphansAreFresh(graph.workers, orphans)
      modifies graph, store`workers
      ensures graph.workers == Reattached(old(graph.workers), orphans, |orphans|)
      ensures store.workers == Reattached(old(store.workers), orphans, |orphans|)
    {
      for i := 0 to |orphans|
        invariant graph.workers == Reattached(old(graph.workers), orphans, i)
        invariant store.workers == Reattached(old(store.workers), orphans, i)
      {
        var w := orphans[i].(reportsTo := NOBODY);
        var added := graph.AddWorker(w);
        store.workers := store.workers[w.id := w];
      }
    }

    /** An accepted chart file loads whole: the loop never runs out of workers it can place. */
    method LoadOrgChartFile(chart: Option<seq<ChartWorker>>) returns (r: Outcome<ServerError>)
      requires graph.workers == map[] && store.workers == map[]
      modifies graph, store`workers
      ensures graph.workers == store.workers
      ensures store.workers ==
              if chart.Some? && Acceptable(chart.value) then ChartTable(chart.value, |chart.value|) else map[]
      ensures r.Done? <==> chart.None? || Acceptable(chart.value)
    {
      if chart.None? {
        return Done;
      }
      var parsed := ParseChartFile(chart.value);
      if parsed.Err? {
        return Refused(BadChart(parsed.error));
      }
      var declared := parsed.value;
      ChartLoads(chart.value, declared);
      var pending := declared;
      while |pending| > 0
        invariant Loads(graph.workers, pending) && store.workers == graph.workers
        invariant Loaded(graph.workers, pending) == Loaded(map[], declared)
        invariant Orphans(graph.workers, pending) == Orphans(map[], declared)
        decreases |pending|
      {
        var deferred := AddRound(pending, true);
        if |deferred| == |pending| {
          // Here the source reports unresolvable edges. An accepted chart never leaves orphans.
          assert false;
        }
        pending := deferred;
      }
      return Done;
    }
  }

  // ----- Loading -----

  predicate Placeable(graph: Workers, w: Worker) {
    w.reportsTo == NOBODY || w.reportsTo in graph
  }

  /** The chart after a pass has looked at the first n pending workers, and those it put off. */
  function Placed(graph: Workers, pending: seq<Worker>, n: nat): Workers
    requires n <= |pending|
  {
    if n == 0 then graph else
      var g, w := Placed(graph, pending, n - 1), pending[n - 1];
      if Placeable(g, w) then g[w.id := w] else g
  }

  function Deferred(graph: Workers, pending: seq<Worker>, n: nat): (d: seq<Worker>)
    requires n <= |pending|
    ensures |d| <= n
  {
    if n == 0 then [] else
      var d, w := Deferred(graph, pending, n - 1), pending[n - 1];
      if Placeable(Placed(graph, pending, n - 1), w) then d else d + [w]
  }

  function Reattached(base: Workers, orphans: seq<Worker>, n: nat): Workers
    requires n <= |orphans|
  {
    if n == 0 then base else
      Reattached(base, orphans, n - 1)[orphans[n - 1].id := orphans[n - 1].(reportsTo := NOBODY)]
  }

  /** The workers no pass can place. */
  function Orphans(graph: Workers, pending: seq<Worker>): seq<Worker>
    decreases |pending|
  {
    var d := Deferred(graph, pending, |pending|);
    if |d| == |pending| then pending else Orphans(Placed(graph, pending, |pending|), d)
  }

  /** The chart once no pass can place anybody any more. */
  function Loaded(graph: Workers, pending: seq<Worker>): Workers
    decreases |pending|
  {
    var d := Deferred(graph, pending, |pending|);
    if |d| == |pending| then graph else Loaded(Placed(graph, pending, |pending|), d)
  }

  /** No id of the pass is empty or on the chart already when its turn comes. */
  ghost predicate RoundIsFresh(graph: Workers, pending: seq<Worker>) {
    forall i {:trigger Placed(graph, pending, i)} :: 0 <= i < |pending| ==>
      pending[i].id != NOBODY && pending[i].id !in Placed(graph, pending, i)
  }

  ghost predicate OrphansAreFresh(graph: Workers, orphans: seq<Worker>) {
    forall i {:trigger Reattached(graph, orphans, i)} :: 0 <= i < |orphans| ==>
      orphans[i].id != NOBODY && orphans[i].id !in Reattached(graph, orphans, i)
  }

  /** Every pass to come, and the reattaching after them, only adds ids that are new. */
  ghost predicate Loads(graph: Workers, pending: seq<Worker>)
    decreases |pending|
  {
    var d := Deferred(graph, pending, |pending|);
    && RoundIsFresh(graph, pending)
    && if |d| == |pending| then OrphansAreFresh(graph, pending)
       else Loads(Placed(graph, pending, |pending|), d)
  }

  // What is known while rows are loaded: the chart is a forest of stored workers, the others are waiting.

  ghost predicate Loading(rows: Workers, graph: Workers, waiting: set<Id>) {
    && ValidChart(graph)
    && (forall x :: x in graph ==> x in rows && graph[x] == rows[x])
    && rows.Keys == graph.Keys + waiting && graph.Keys !! waiting
  }

  ghost predicate Waits(rows: Workers, pending: seq<Worker>) {
    Registered(rows, pending) && NoDup(Ids(pending))
  }

  /** Who is still waiting once a pass has looked at n workers. */
  function Waiting(graph: Workers, pending: seq<Worker>, n: nat): set<Id>
    requires n <= |pending|
  {
    if n == 0 then Elements(Ids(pending)) else
      var left, w := Waiting(graph, pending, n - 1), pending[n - 1];
      if Placeable(Placed(graph, pending, n - 1), w) then left - {w.id} else left
  }

  lemma {:induction false} DeferredIsFrom(graph: Workers, pending: seq<Worker>, n: nat, w: Worker)
    requires n <= |pending| && w in Deferred(graph, pending, n)
    ensures exists i :: 0 <= i < n && pending[i] == w
  {
    if n > 0 {
      var d := Deferred(graph, pending, n - 1);
      if w in d {
        DeferredIsFrom(graph, pending, n - 1, w);
      }
    }
  }

  /** Those still waiting are the deferred and those not looked at yet. */
  lemma {:induction false} WaitingAre(graph: Workers, pending: seq<Worker>, n: nat, x: Id)
    requires n <= |pending| && NoDup(Ids(pending))
    ensures x in Waiting(graph, pending, n) <==>
            || (exists w :: w in Deferred(graph, pending, n) && w.id == x)
            || (exists i :: n <= i < |pending| && pending[i].id == x)
  {
    if n == 0 {
      assert forall i :: 0 <= i < |pending| ==> Ids(pending)[i] == pending[i].id;
    } else {
      WaitingAre(graph, pending, n - 1, x);
      var w := pending[n - 1];
      if x == w.id {
        NotDeferredYet(graph, pending, n - 1);
        assert forall i :: n <= i < |pending| ==> Ids(pending)[i] != Ids(pending)[n - 1];
        assert Deferred(graph, pending, n) == Deferred(graph, pending, n - 1) + [w] ==>
            w in Deferred(graph, pending, n);
      }
    }
  }

  lemma {:induction false} NotDeferredYet(graph: Workers, pending: seq<Worker>, n: nat)
    requires n < |pending| && NoDup(Ids(pending))
    ensures forall w :: w in Deferred(graph, pending, n) ==> w.id != pending[n].id
  {
    forall w | w in Deferred(graph, pending, n)
      ensures w.id != pending[n].id
    {
      DeferredIsFrom(graph, pending, n, w);
      var i :| 0 <= i < n && pending[i] == w;
      assert Ids(pending)[i] != Ids(pending)[n];
    }
  }

  lemma {:induction false} DeferredWaits(rows: Workers, graph: Workers, pending: seq<Worker>, n: nat)
    requires n <= |pending| && Waits(rows, pending)
    ensures Waits(rows, Deferred(graph, pending, n))
  {
    if n > 0 {
      DeferredWaits(rows, graph, pending, n - 1);
      NotDeferredYet(graph, pending, n - 1);
      var d, w := Deferred(graph, pending, n - 1), pending[n - 1];
      assert w in pending;
      NoDupOneMore(d, w);
    }
  }

  lemma {:induction false} NoDupOneMore(d: seq<Worker>, w: Worker)
    requires NoDup(Ids(d)) && forall v :: v in d ==> v.id != w.id
    ensures NoDup(Ids(d + [w]))
  {
    assert forall i :: 0 <= i < |d| ==> d[i] in d;
  }

  /** Looking at the next of the waiting workers either puts it on the chart or leaves it waiting. */
  lemma {:induction false} LoadedOne(rows: Workers, graph: Workers, waiting: set<Id>, w: Worker)
    requires Loading(rows, graph, waiting) && NOBODY !in rows && WellKeyed(rows)
    requires w.id in waiting && rows[w.id] == w
    ensures w.id != NOBODY && w.id !in graph
    ensures Placeable(graph, w) ==> Loading(rows, graph[w.id := w], waiting - {w.id})
  {
    if Placeable(graph, w) {
      assert ParentsOf(graph[w.id := w]) == ParentsOf(graph)[w.id := w.reportsTo];
      AddKeepsForest(ParentsOf(graph), w.id, w.reportsTo);
    }
  }

  lemma {:induction false} RoundLoads(rows: Workers, graph: Workers, pending: seq<Worker>, n: nat)
    requires Loading(rows, graph, Elements(Ids(pending))) && Waits(rows, pending)
    requires NOBODY !in rows && WellKeyed(rows) && n <= |pending|
    ensures Loading(rows, Placed(graph, pending, n), Waiting(graph, pending, n))
  {
    if n > 0 {
      RoundLoads(rows, graph, pending, n - 1);
      NextLoads(rows, graph, pending, n - 1);
    }
  }

  lemma {:induction false} NextLoads(rows: Workers, graph: Workers, pending: seq<Worker>, n: nat)
    requires n < |pending| && Waits(rows, pending) && NOBODY !in rows && WellKeyed(rows)
    requires Loading(rows, Placed(graph, pending, n), Waiting(graph, pending, n))
    ensures pending[n].id != NOBODY && pending[n].id !in Placed(graph, pending, n)
    ensures Loading(rows, Placed(graph, pending, n + 1), Waiting(graph, pending, n + 1))
  {
    assert pending[n] in pending;
    WaitingAre(graph, pending, n, pending[n].id);
    LoadedOne(rows, Placed(graph, pending, n), Waiting(graph, pending, n), pending[n]);
  }

  lemma {:induction false} AllLookedAt(graph: Workers, pending: seq<Worker>)
    requires NoDup(Ids(pending))
    ensures Waiting(graph, pending, |pending|) == Elements(Ids(Deferred(graph, pending, |pending|)))
  {
    var d := Deferred(graph, pending, |pending|);
    forall x
      ensures x in Waiting(graph, pending, |pending|) <==> x in Elements(Ids(d))
    {
      WaitingAre(graph, pending, |pending|, x);
      if x in Ids(d) {
        var i :| 0 <= i < |d| && Ids(d)[i] == x;
        assert d[i] in d;
      }
      if w :| w in d && w.id == x {
        var i :| 0 <= i < |d| && d[i] == w;
        assert Ids(d)[i] == x;
      }
    }
  }

  /** A pass that places nobody leaves the chart and the pending workers as they were: these are the orphans. */
  lemma {:induction false} LoadStuck(graph: Workers, pending: seq<Worker>)
    requires Loads(graph, pending) && |Deferred(graph, pending, |pending|)| == |pending|
    ensures Placed(graph, pending, |pending|) == graph && Deferred(graph, pending, |pending|) == pending
    ensures Loaded(graph, pending) == graph && Orphans(graph, pending) == pending && OrphansAreFresh(graph, pending)
  {
    NobodyPlaced(graph, pending, |pending|);
  }

  /** A pass that defers everybody finds nobody's parent on the chart. */
  lemma {:induction false} NobodyPlaced(graph: Workers, pending: seq<Worker>, n: nat)
    requires n <= |pending| && |Deferred(graph, pending, n)| == n
    ensures Placed(graph, pending, n) == graph
    ensures forall i :: 0 <= i < n ==> !Placeable(graph, pending[i]) && Deferred(graph, pending, n)[i] == pending[i]
  {
    if n > 0 {
      NobodyPlaced(graph, pending, n - 1);
    }
  }

  /** When no pass can place anybody, exactly the workers with broken chains are left. */
  lemma {:induction false} OnlyBrokenLeft(rows: Workers, graph: Workers, pending: seq<Worker>)
    requires Loading(rows, graph, Elements(Ids(pending))) && Waits(rows, pending) && NOBODY !in rows
    requires |Deferred(graph, pending, |pending|)| == |pending|
    ensures forall x :: x in rows ==> (x in graph <==> Rooted(ParentsOf(rows), x))
  {
    var p := ParentsOf(rows);
    NobodyPlaced(graph, pending, |pending|);
    forall y | y in p && y !in graph
      ensures p[y] != NOBODY && p[y] !in graph
    {
      var i :| 0 <= i < |pending| && Ids(pending)[i] == y;
      assert pending[i] in pending && !Placeable(graph, pending[i]);
    }
    forall x | x in rows
      ensures x in graph <==> Rooted(p, x)
    {
      if x in graph {
        PartIsRooted(ParentsOf(graph), p, x);
      }
      if Rooted(p, x) {
        NothingLeftOut(p, graph.Keys, x);
      }
    }
  }

  /** Reattaching overwrites exactly the workers of the list, in the chart and in the rows alike. */
  lemma {:induction false} ReattachedAt(base: Workers, rows: Workers, orphans: seq<Worker>, n: nat, x: Id)
    requires n <= |orphans| && Registered(rows, orphans)
    ensures if exists i :: 0 <= i < n && orphans[i].id == x
            then (x in rows && x in Reattached(base, orphans, n)
                  && Reattached(base, orphans, n)[x] == rows[x].(reportsTo := NOBODY))
            else ((x in Reattached(base, orphans, n) <==> x in base)
                  && (x in base ==> Reattached(base, orphans, n)[x] == base[x]))
  {
    if n > 0 {
      ReattachedAt(base, rows, orphans, n - 1, x);
      assert orphans[n - 1] in orphans;
    }
  }

  lemma {:induction false} OrphansReload(rows: Workers, loaded: Workers, orphans: seq<Worker>, base: Workers)
    requires Loading(rows, loaded, Elements(Ids(orphans))) && Waits(rows, orphans) && (base == rows || base == loaded)
    requires forall x :: x in rows ==> (x in loaded <==> Rooted(ParentsOf(rows), x))
    ensures Reattached(base, orphans, |orphans|) == Reloaded(rows)
  {
    forall x
      ensures x in Reattached(base, orphans, |orphans|) <==> x in rows
      ensures x in rows ==> Reattached(base, orphans, |orphans|)[x] == Reloaded(rows)[x]
    {
      OneReloads(rows, loaded, orphans, base, x);
    }
  }

  lemma {:induction false} OneReloads(rows: Workers, loaded: Workers, orphans: seq<Worker>, base: Workers, x: Id)
    requires Loading(rows, loaded, Elements(Ids(orphans))) && Waits(rows, orphans) && (base == rows || base == loaded)
    requires x in rows ==> (x in loaded <==> Rooted(ParentsOf(rows), x))
    ensures x in Reattached(base, orphans, |orphans|) <==> x in rows
    ensures x in rows ==> Reattached(base, orphans, |orphans|)[x] == Reloaded(rows)[x]
  {
    ReattachedAt(base, rows, orphans, |orphans|, x);
    assert (exists i :: 0 <= i < |orphans| && orphans[i].id == x) <==> x in Ids(orphans);
  }

  lemma {:induction false} OrphansFresh(rows: Workers, loaded: Workers, orphans: seq<Worker>)
    requires Loading(rows, loaded, Elements(Ids(orphans))) && Waits(rows, orphans) && NOBODY !in rows
    ensures OrphansAreFresh(loaded, orphans)
  {
    forall i | 0 <= i < |orphans|
      ensures orphans[i].id != NOBODY && orphans[i].id !in Reattached(loaded, orphans, i)
    {
      var ids := Ids(orphans);
      assert orphans[i] in orphans && ids[i] in ids;
      ReattachedAt(loaded, rows, orphans, i, orphans[i].id);
      assert forall j :: 0 <= j < i ==> ids[j] != ids[i];
    }
  }

  /** All passes together: whoever has a whole chain gets on the chart, the others are the orphans. */
  lemma {:induction false} LoadsAll(rows: Workers, graph: Workers, pending: seq<Worker>)
    requires Loading(rows, graph, Elements(Ids(pending))) && Waits(rows, pending) && NOBODY !in rows && WellKeyed(rows)
    ensures var g, d := Loaded(graph, pending), Orphans(graph, pending);
            && Loads(graph, pending)
            && Loading(rows, g, Elements(Ids(d))) && Waits(rows, d)
            && forall x :: x in rows ==> (x in g <==> Rooted(ParentsOf(rows), x))
    decreases |pending|
  {
    forall i | 0 <= i < |pending|
      ensures pending[i].id != NOBODY && pending[i].id !in Placed(graph, pending, i)
    {
      RoundLoads(rows, graph, pending, i);
      NextLoads(rows, graph, pending, i);
    }
    assert RoundIsFresh(graph, pending);
    var d := Deferred(graph, pending, |pending|);
    if |d| == |pending| {
      OnlyBrokenLeft(rows, graph, pending);
      OrphansFresh(rows, graph, pending);
    } else {
      RoundLoads(rows, graph, pending, |pending|);
      AllLookedAt(graph, pending);
      DeferredWaits(rows, graph, pending, |pending|);
      LoadsAll(rows, Placed(graph, pending, |pending|), d);
    }
  }

  lemma {:induction false} LoadingStarts(rows: Workers)
    ensures Loading(rows, map[], rows.Keys)
  {
    assert ParentsOf(map[]) == map[];
  }

  /** Reloading stored workers, in whatever order they are listed. */
  lemma {:induction false} LoadRestores(rows: Workers, list: seq<Worker>)
    requires WellKeyed(rows) && NOBODY !in rows
    requires NoDup(Ids(list)) && Registered(rows, list) && Elements(Ids(list)) == rows.Keys
    ensures Loads(map[], list)
    ensures var g, d := Loaded(map[], list), Orphans(map[], list);
            Reattached(g, d, |d|) == Reloaded(rows) && Reattached(rows, d, |d|) == Reloaded(rows)
  {
    LoadingStarts(rows);
    LoadsAll(rows, map[], list);
    var g, d := Loaded(map[], list), Orphans(map[], list);
    OrphansReload(rows, g, d, rows);
    OrphansReload(rows, g, d, g);
  }

  /** An accepted chart file loads whole: no pass gets stuck with workers it cannot place. */
  lemma {:induction false} ChartLoads(ws: seq<ChartWorker>, list: seq<Worker>)
    requires Acceptable(ws) && |list| == |ws| && forall i :: 0 <= i < |ws| ==> list[i] == ToWorker(ws[i])
    ensures Loads(map[], list)
    ensures Loaded(map[], list) == ChartTable(ws, |ws|) && Orphans(map[], list) == []
  {
    var rows := ChartTable(ws, |ws|);
    ChartLists(ws, list);
    LoadingStarts(rows);
    LoadsAll(rows, map[], list);
    ForestLoads(rows, Loaded(map[], list), Orphans(map[], list));
  }

  lemma {:induction false} ForestLoads(rows: Workers, g: Workers, orphans: seq<Worker>)
    requires Loading(rows, g, Elements(Ids(orphans))) && ValidChart(rows)
    requires forall x :: x in rows ==> (x in g <==> Rooted(ParentsOf(rows), x))
    ensures g == rows && orphans == []
  {
    assert orphans != [] ==> Ids(orphans)[0] in Elements(Ids(orphans));
    assert forall x :: x in ParentsOf(rows) ==> Rooted(ParentsOf(rows), x);
    assert g == rows;
  }

  lemma {:induction false} ChartLists(ws: seq<ChartWorker>, list: seq<Worker>)
    requires Acceptable(ws) && |list| == |ws| && forall i :: 0 <= i < |ws| ==> list[i] == ToWorker(ws[i])
    ensures var rows := ChartTable(ws, |ws|);
            ValidChart(rows) && NoDup(Ids(list)) && Registered(rows, list) && Elements(Ids(list)) == rows.Keys
  {
    var rows, ids := ChartTable(ws, |ws|), Ids(list);
    ChartTableIs(ws, |ws|);
    ChartTableParents(ws);
    forall x
      ensures x in Elements(ids) <==> x in rows.Keys
    {
      if x in rows {
        var i :| 0 <= i < |ws| && ws[i].id == x;
        assert ids[i] == x;
      }
    }
  }

  lemma {:induction false} AgreeIsValid(s: ControlPlane.State)
    requires Inv(s)
    ensures WellKeyed(s.rows) && NOBODY !in s.rows
  {
  }

  // ----- Lemmas about the steps in between -----

  lemma {:induction false} ParentIsRegistered(ws: Workers, id: Id)
    requires ValidChart(ws) && id in ws
    ensures ws[id].reportsTo == NOBODY || ws[id].reportsTo in ws
    ensures ws[id].reportsTo != id && id != NOBODY
  {
    var p := ParentsOf(ws);
    StepUp(p, id);
    if p[id] != NOBODY {
      StepUp(p, p[id]);
    }
  }

  lemma {:induction false} ReparentNobody(s: ControlPlane.State, id: Id)
    requires Inv(s) && id in s.graph
    ensures Reparented(s, id, {}) == s
  {
  }

  /** A cascade removes the branch from the state as it is. */
  lemma {:induction false} CascadeDeletes(s: ControlPlane.State, id: Id, all: seq<Id>)
    requires Inv(s) && id in s.graph && Elements(all) == Subtree(ParentsOf(s.graph), id)
    ensures Deleted(s, id, true) == Without(s, Elements(all)) && Elements(all) == Removed(s.graph, id, true)
  {
    ReparentNobody(s, id);
  }

  /** Otherwise only the worker goes, from the state with its children moved up. */
  lemma {:induction false} SingleDeletes(s: ControlPlane.State, id: Id)
    requires Inv(s) && id in s.graph
    ensures Deleted(s, id, false) == Without(Reparented(s, id, ChildrenIn(s.graph, id)), Elements([id]))
    ensures RemovalOrder([id]) == [id] && NoDup([id]) && Elements([id]) == Removed(s.graph, id, false)
  {
    assert Elements([id]) == {id};
  }

  lemma {:induction false} MovedOneMore(ws: Workers, from: Workers, kids: set<Id>, child: Id, parent: Id)
    requires kids <= from.Keys && child in from && child in ws
    ensures Moved(ws, from, kids + {child}, parent) ==
            Moved(ws, from, kids, parent)[child := from[child].(reportsTo := parent)]
  {
  }

  lemma {:induction false} ReparentOneMore(s: ControlPlane.State, id: Id, kids: set<Id>, child: Id)
    requires id in s.graph && s.rows.Keys == s.graph.Keys && kids <= s.graph.Keys && child in s.graph
             && WellKeyed(s.graph)
    ensures var t := Reparented(s, id, kids);
            && child in t.graph
            && Reparented(s, id, kids + {child}) == Saved(t, t.graph[child].(reportsTo := s.graph[id].reportsTo))
  {
    var parent := s.graph[id].reportsTo;
    assert kids * s.graph.Keys == kids && (kids + {child}) * s.graph.Keys == kids + {child};
    MovedOneMore(s.graph, s.graph, kids, child, parent);
    MovedOneMore(s.rows, s.graph, kids, child, parent);
  }

  lemma {:induction false} RepointOneMore(p: Parents, id: Id, kids: set<Id>, child: Id)
    requires IsForest(p) && id in p && forall k :: k in kids + {child} ==> k in p && p[k] == id
    ensures IsForest(Repoint(p, kids, p[id])[child := p[id]])
  {
    ReparentKeepsForest(p, id, kids + {child});
    assert Repoint(p, kids + {child}, p[id]) == Repoint(p, kids, p[id])[child := p[id]];
  }

  lemma {:induction false} MoveUpIsForest(s: ControlPlane.State, id: Id, kids: set<Id>, child: Id)
    requires Inv(s) && id in s.graph && kids <= ChildrenIn(s.graph, id) && child in ChildrenIn(s.graph, id)
    ensures child in Reparented(s, id, kids).graph
    ensures IsForest(ParentsOf(Reparented(s, id, kids).graph)[child := s.graph[id].reportsTo])
  {
    MovedParents(s.graph, kids, s.graph[id].reportsTo);
    RepointOneMore(ParentsOf(s.graph), id, kids, child);
  }

  lemma {:induction false} MoveUpKeepsInv(s: ControlPlane.State, id: Id, kids: set<Id>, child: Id)
    requires Inv(s) && id in s.graph && kids <= ChildrenIn(s.graph, id) && child in ChildrenIn(s.graph, id)
    ensures var t, parent := Reparented(s, id, kids), s.graph[id].reportsTo;
            && child in t.graph && IsForest(ParentsOf(t.graph)[child := parent])
            && Reparented(s, id, kids + {child}) == Saved(t, t.graph[child].(reportsTo := parent))
  {
    MoveUpIsForest(s, id, kids, child);
    ReparentOneMore(s, id, kids, child);
  }

  lemma {:induction false} WithoutNobody(s: ControlPlane.State)
    ensures Without(s, {}) == s
  {
    assert s.graph - {} == s.graph && s.rows - {} == s.rows;
  }

  lemma {:induction false} AllChildren(graph: Workers, id: Id, children: seq<Worker>)
    requires forall w :: w in children <==> w.id in graph && graph[w.id] == w && w.reportsTo == id
    requires WellKeyed(graph)
    ensures FirstOf(Ids(children), |children|) == ChildrenIn(graph, id)
  {
    forall c
      ensures c in FirstOf(Ids(children), |children|) <==> c in ChildrenIn(graph, id)
    {
      FirstOfMembers(Ids(children), |children|, c);
      if c in ChildrenIn(graph, id) {
        assert graph[c] in children;
        var i :| 0 <= i < |children| && children[i] == graph[c];
        assert Ids(children)[i] == c;
      }
      if i :| 0 <= i < |children| && Ids(children)[i] == c {
        assert children[i] in children;
      }
    }
  }

  lemma {:induction false} WithoutOneMore(s: ControlPlane.State, gone: set<Id>, id: Id)
    ensures Without(s, gone + {id}) == Without(Without(s, gone), {id})
  {
    assert s.graph - (gone + {id}) == s.graph - gone - {id} && s.rows - (gone + {id}) == s.rows - gone - {id};
  }

  lemma {:induction false} RemovalKeepsInv(s: ControlPlane.State, all: seq<Id>, n: nat)
    requires Inv(s) && WholeBranch(ParentsOf(s.graph), all) && n <= |all|
    ensures Inv(Without(s, FirstOf(RemovalOrder(all), n)))
  {
    forall x | x in s.graph && s.graph[x].reportsTo in FirstOf(RemovalOrder(all), n)
      ensures x in FirstOf(RemovalOrder(all), n)
    {
      ChildGoesBefore(ParentsOf(s.graph), all, n, x);
    }
    WithoutKeepsInv(s, FirstOf(RemovalOrder(all), n));
  }

  lemma {:induction false} OrderOnce(all: seq<Id>)
    requires NoDup(all)
    ensures NoDup(RemovalOrder(all)) && Elements(RemovalOrder(all)) == Elements(all)
  {
    WholeOrder(all);
    forall x
      ensures x in RemovalOrder(all) <==> x in FirstOf(RemovalOrder(all), |all|)
    {
      FirstOfMembers(RemovalOrder(all), |all|, x);
    }
  }

  lemma {:induction false} WholeOrder(all: seq<Id>)
    ensures FirstOf(RemovalOrder(all), |all|) == Elements(all)
  {
    forall x
      ensures x in FirstOf(RemovalOrder(all), |all|) <==> x in Elements(all)
    {
      FirstOfMembers(RemovalOrder(all), |all|, x);
      if i :| 0 <= i < |all| && all[i] == x {
        assert RemovalOrder(all)[|all| - 1 - i] == x;
      }
    }
  }
}
