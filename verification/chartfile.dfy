/** The org chart file: internal/orgchart/chartfile.go. */
module ChartFile {
  import opened Wrappers
  import opened Forest
  import opened OrgChart

  datatype ChartWorker = ChartWorker(id: Id, role: string, reportsTo: Id)

  datatype Problem =
    | EmptyId(index: nat)
    | DuplicateId(index: nat, id: Id, first: nat)
    | ReportsToSelf(index: nat, id: Id)
    | DanglingReport(index: nat, id: Id, reportsTo: Id)
    | InCycle(id: Id)

  datatype Mark = Visiting | Finished

  /** The pointers the first n entries declare, the first entry of an id winning. */
  function Declared(ws: seq<ChartWorker>, n: nat): (p: Parents)
    requires n <= |ws|
  {
    if n == 0 then map[] else
      var before, w := Declared(ws, n - 1), ws[n - 1];
      if w.id in before then before else before[w.id := w.reportsTo]
  }

  ghost predicate UniqueIds(ws: seq<ChartWorker>, n: nat)
    requires n <= |ws|
  {
    && (forall i :: 0 <= i < n ==> ws[i].id != NOBODY)
    && (forall i, j :: 0 <= i < j < n ==> ws[i].id != ws[j].id)
  }

  /** What a chart file has to be: non-empty, unique ids, whose parent chains all reach the root. */
  ghost predicate Acceptable(ws: seq<ChartWorker>) {
    UniqueIds(ws, |ws|) && IsForest(Declared(ws, |ws|))
  }

  function ToWorker(w: ChartWorker): Worker {
    Worker(w.id, w.role, w.reportsTo, "", 0, 0, NoStatus, map[])
  }

  /** Accepts exactly the acceptable charts, and keeps every entry in order. */
  method ParseChartFile(ws: seq<ChartWorker>) returns (r: Result<seq<Worker>, seq<Problem>>)
    ensures r.Ok? <==> Acceptable(ws)
    ensures r.Ok? ==> |r.value| == |ws| && forall i :: 0 <= i < |ws| ==> r.value[i] == ToWorker(ws[i])
    ensures r.Ok? ==> forall i :: 0 <= i < |ws| ==>
              r.value[i] == Worker(ws[i].id, ws[i].role, ws[i].reportsTo, "", 0, 0, NoStatus, map[])
    ensures r.Err? ==> r.error != []
    ensures r.Err? ==> forall p :: p in r.error && !p.InCycle? <==>
              IdProblem(ws, |ws|, p) || ReportProblem(ws, |ws|, DeclaredIds(ws), p)
    ensures r.Err? && UniqueIds(ws, |ws|) && (forall p :: !ReportProblem(ws, |ws|, DeclaredIds(ws), p)) ==>
              forall id :: InCycle(id) in r.error <==> id in Declared(ws, |ws|) && OnCycle(Declared(ws, |ws|), id)
  {
    var byId, problems := IndexUniqueIds(ws);
    var dangling := CheckReportsToResolve(ws, byId);
    problems := problems + dangling;
    var onCycle := DetectCycles(ws, byId);
    AcceptedExactly(ws, byId);
    DeclaredIdsAre(ws, byId);
    if UniqueIds(ws, |ws|) && Resolving(ws, byId) {
      ResolvingIsWithoutRoots(ws, byId);
      SameCyclicIds(Edges(ws, byId, |ws|), Declared(ws, |ws|));
    }
    problems := ReportCycles(problems, onCycle);
    if |problems| > 0 {
      return Err(problems);
    }
    var out := ToWorkers(ws);
    return Ok(out);
  }

  method ReportCycles(problems0: seq<Problem>, onCycle: set<Id>) returns (problems: seq<Problem>)
    ensures problems == [] <==> problems0 == [] && onCycle == {}
    ensures forall p :: p in problems <==> p in problems0 || (p.InCycle? && p.id in onCycle)
  {
    problems := problems0;
    var rest := onCycle;
    while rest != {}
      invariant problems == [] ==> problems0 == [] && rest == onCycle
      invariant problems0 == [] && onCycle == {} ==> problems == []
      invariant rest <= onCycle
      invariant forall p :: p in problems <==> p in problems0 || (p.InCycle? && p.id in onCycle - rest)
      decreases rest
    {
      var id :| id in rest;
      rest := rest - {id};
      problems := problems + [InCycle(id)];
    }
  }

  method ToWorkers(ws: seq<ChartWorker>) returns (out: seq<Worker>)
    ensures |out| == |ws| && forall i :: 0 <= i < |ws| ==> out[i] == ToWorker(ws[i])
  {
    out := [];
    for i := 0 to |ws|
      invariant |out| == i && forall j :: 0 <= j < i ==> out[j] == ToWorker(ws[j])
    {
      out := out + [ToWorker(ws[i])];
    }
  }

  /** byId sends every non-empty id to the first entry that declares it. */
  ghost predicate Indexes(ws: seq<ChartWorker>, n: nat, byId: map<Id, nat>)
    requires n <= |ws|
  {
    && (forall x :: x in byId ==> x != NOBODY && byId[x] < n && ws[byId[x]].id == x)
    && (forall i :: 0 <= i < n && ws[i].id != NOBODY ==> ws[i].id in byId && byId[ws[i].id] <= i)
  }

  /** What is wrong with the ids of the first n entries: an empty one, or one an earlier entry, the first, has. */
  predicate IdProblem(ws: seq<ChartWorker>, n: nat, p: Problem)
    requires n <= |ws|
  {
    match p
    case EmptyId(i) => i < n && ws[i].id == NOBODY
    case DuplicateId(i, id, first) =>
      && first < i < n && ws[i].id == ws[first].id == id && id != NOBODY
      && forall j :: 0 <= j < first ==> ws[j].id != id
    case _ => false
  }

  method IndexUniqueIds(ws: seq<ChartWorker>) returns (byId: map<Id, nat>, problems: seq<Problem>)
    ensures Indexes(ws, |ws|, byId)
    ensures problems == [] <==> UniqueIds(ws, |ws|)
    ensures forall p :: p in problems <==> IdProblem(ws, |ws|, p)
  {
    problems := [];
    byId := map[];
    for i := 0 to |ws|
      invariant Indexes(ws, i, byId)
      invariant problems == [] <==> UniqueIds(ws, i)
      invariant forall p :: p in problems <==> IdProblem(ws, i, p)
    {
      var w := ws[i];
      if w.id == NOBODY {
        problems := problems + [EmptyId(i)];
      } else if w.id in byId {
        problems := problems + [DuplicateId(i, w.id, byId[w.id])];
      } else {
        byId := byId[w.id := i];
      }
    }
  }

  /** No named entry reports to itself or to an id the file does not declare. */
  ghost predicate Resolving(ws: seq<ChartWorker>, byId: map<Id, nat>) {
    forall i :: 0 <= i < |ws| ==> Resolves(ws[i], byId)
  }

  predicate Resolves(w: ChartWorker, byId: map<Id, nat>) {
    w.id == NOBODY || w.reportsTo == NOBODY || (w.reportsTo != w.id && w.reportsTo in byId)
  }

  function DeclaredIds(ws: seq<ChartWorker>): set<Id> {
    set w | w in ws && w.id != NOBODY :: w.id
  }

  lemma {:induction false} DeclaredIdsAre(ws: seq<ChartWorker>, byId: map<Id, nat>)
    requires Indexes(ws, |ws|, byId)
    ensures DeclaredIds(ws) == byId.Keys
    ensures (forall p :: !ReportProblem(ws, |ws|, byId.Keys, p)) ==> Resolving(ws, byId)
  {
    forall x
      ensures x in DeclaredIds(ws) <==> x in byId
    {
      if x in byId { assert ws[byId[x]] in ws; }
    }
    if i :| 0 <= i < |ws| && !Resolves(ws[i], byId) {
      var w := ws[i];
      var p := if w.reportsTo == w.id then ReportsToSelf(i, w.id) else DanglingReport(i, w.id, w.reportsTo);
      assert ReportProblem(ws, |ws|, byId.Keys, p);
    }
  }

  /** What is wrong with whom the first n entries report to. */
  predicate ReportProblem(ws: seq<ChartWorker>, n: nat, declared: set<Id>, p: Problem)
    requires n <= |ws|
  {
    match p
    case ReportsToSelf(i, id) => i < n && ws[i].id == id == ws[i].reportsTo && id != NOBODY
    case DanglingReport(i, id, to) =>
      && i < n && ws[i].id == id && ws[i].reportsTo == to
      && id != NOBODY && to != NOBODY && to != id && to !in declared
    case _ => false
  }

  method CheckReportsToResolve(ws: seq<ChartWorker>, byId: map<Id, nat>) returns (problems: seq<Problem>)
    ensures problems == [] <==> Resolving(ws, byId)
    ensures forall p :: p in problems <==> ReportProblem(ws, |ws|, byId.Keys, p)
  {
    problems := [];
    for i := 0 to |ws|
      invariant problems == [] <==> forall j :: 0 <= j < i ==> Resolves(ws[j], byId)
      invariant forall p :: p in problems <==> ReportProblem(ws, i, byId.Keys, p)
    {
      var w := ws[i];
      if w.id == NOBODY || w.reportsTo == NOBODY {
        continue;
      }
      if w.reportsTo == w.id {
        problems := problems + [ReportsToSelf(i, w.id)];
        continue;
      }
      if w.reportsTo !in byId {
        problems := problems + [DanglingReport(i, w.id, w.reportsTo)];
      }
    }
  }

  /** The edges cycle detection follows: to declared ids only, no self-reports, the first entry of an id winning. */
  function Edges(ws: seq<ChartWorker>, byId: map<Id, nat>, n: nat): (q: Parents)
    requires n <= |ws|
    ensures NOBODY !in q
    ensures forall x :: x in q ==> q[x] in byId && q[x] != NOBODY && q[x] != x
  {
    if n == 0 then map[] else
      var before, w := Edges(ws, byId, n - 1), ws[n - 1];
      if w.id == NOBODY || w.reportsTo == NOBODY || w.reportsTo == w.id || w.reportsTo !in byId || w.id in before
      then before
      else before[w.id := w.reportsTo]
  }

  // ----- Three-colour cycle detection -----

  ghost function CyclicIds(p: Parents): set<Id> {
    set x | x in p && OnCycle(p, x)
  }

  /** Exactly the ids on a circle of edges: circles have length two or more, since an edge never leads to itself. */
  method DetectCycles(ws: seq<ChartWorker>, byId: map<Id, nat>) returns (onCycle: set<Id>)
    ensures onCycle == CyclicIds(Edges(ws, byId, |ws|))
  {
    var parent: Parents := map[];
    for i := 0 to |ws|
      invariant parent == Edges(ws, byId, i)
    {
      var w := ws[i];
      if w.id == NOBODY || w.reportsTo == NOBODY || w.reportsTo == w.id {
        continue;
      }
      if w.reportsTo !in byId {
        continue;
      }
      if w.id in parent {
        continue;
      }
      parent := parent[w.id := w.reportsTo];
    }

    var state: map<Id, Mark> := map[];
    onCycle := {};
    var rest := parent.Keys;
    while rest != {}
      invariant rest <= parent.Keys && parent.Keys - rest <= state.Keys
      invariant Settled(parent, state, onCycle)
      decreases rest
    {
      var id :| id in rest;
      rest := rest - {id};
      if id !in state {
        state, onCycle := ExploreFrom(parent, id, state, onCycle);
      }
    }
    assert forall x :: x in parent && OnCycle(parent, x) ==> x in state.Keys;
  }

  /** Between walks every mark is Finished, marks are closed upwards, and the circles met are all recorded. */
  ghost predicate Settled(p: Parents, state: map<Id, Mark>, onCycle: set<Id>) {
    && (forall x :: x in state ==> state[x] == Finished)
    && ClosedUp(p, state.Keys)
    && onCycle == set x | x in state.Keys && x in p && OnCycle(p, x)
  }

  /** path is a way up: each member's pointer is the next member. */
  ghost predicate Trail(p: Parents, path: seq<Id>) {
    forall i, j {:trigger Stretch(p, path, i, j)} :: 0 <= i <= j < |path| ==> Stretch(p, path, i, j)
  }

  ghost predicate Stretch(p: Parents, path: seq<Id>, i: nat, j: nat)
    requires i <= j < |path|
  {
    Leads(p, path[i], j - i, path[j])
  }

  lemma {:induction false} TrailGrows(p: Parents, path: seq<Id>, next: Id)
    requires Trail(p, path)
    requires path != [] ==> path[|path| - 1] in p && p[path[|path| - 1]] == next
    ensures Trail(p, path + [next])
  {
    var longer := path + [next];
    forall i, j | 0 <= i <= j < |longer|
      ensures Stretch(p, longer, i, j)
    {
      if i == j {
      } else if j < |path| {
        assert Stretch(p, path, i, j);
      } else {
        var last := |path| - 1;
        assert Stretch(p, path, i, last) && Leads(p, path[last], 1, next);
        LeadsOn(p, path[i], last - i, path[last], 1, next);
      }
    }
  }

  /** The path's members are the ones marked Visiting; everybody else marked was finished before. */
  ghost predicate Marked(state: map<Id, Mark>, finished: set<Id>, path: seq<Id>) {
    && NoDup(path)
    && (forall x :: x in path ==> x !in finished)
    && (forall x :: x in state <==> x in finished || x in path)
    && (forall x :: x in state ==> state[x] == if x in finished then Finished else Visiting)
  }

  lemma {:induction false} MarkedGrows(state: map<Id, Mark>, finished: set<Id>, path: seq<Id>, cur: Id)
    requires Marked(state, finished, path) && cur !in state
    ensures Marked(state[cur := Visiting], finished, path + [cur])
  {
    assert forall i :: 0 <= i < |path| ==> path[i] in path;
  }

  /** Why a walk up stops: it left the edges, met a finished id, or met itself. */
  ghost predicate Stopped(p: Parents, finished: set<Id>, path: seq<Id>) {
    && path != [] && Trail(p, path)
    && var last := path[|path| - 1]; last in p ==> p[last] in finished || p[last] in path
  }

  method ExploreFrom(p: Parents, id: Id, state0: map<Id, Mark>, onCycle0: set<Id>)
    returns (state: map<Id, Mark>, onCycle: set<Id>)
    requires id in p && id !in state0 && Settled(p, state0, onCycle0)
    ensures state.Keys >= state0.Keys + {id}
    ensures Settled(p, state, onCycle)
  {
    var path;
    path, state, onCycle := WalkUp(p, id, state0, onCycle0);
    WalkIsClosed(p, state0.Keys, path);
    state := FinishPath(state0.Keys, state, path);
  }

  method WalkUp(p: Parents, id: Id, state0: map<Id, Mark>, onCycle0: set<Id>)
    returns (path: seq<Id>, state: map<Id, Mark>, onCycle: set<Id>)
    requires id in p && id !in state0 && Settled(p, state0, onCycle0)
    ensures Stopped(p, state0.Keys, path) && Marked(state, state0.Keys, path) && id in path
    ensures onCycle == onCycle0 + set x | x in path && x in p && OnCycle(p, x)
  {
    state, onCycle, path := state0, onCycle0, [];
    var cur := id;
    ghost var all := p.Keys + p.Values;
    while true
      invariant Trail(p, path) && Marked(state, state0.Keys, path)
      invariant cur in all && onCycle == onCycle0
      invariant if path == [] then cur == id
                else id in path && path[|path| - 1] in p && p[path[|path| - 1]] == cur
      decreases all - state.Keys
    {
      if cur in state {
        if state[cur] == Visiting {
          ClosesCycle(p, path, cur);
          onCycle := MarkCycleFrom(path, cur, onCycle);
        } else {
          RunsInto(p, state0.Keys, path, cur);
        }
        return;
      }
      TrailGrows(p, path, cur);
      MarkedGrows(state, state0.Keys, path, cur);
      state := state[cur := Visiting];
      path := path + [cur];
      if cur !in p {
        RunsOut(p, path);
        return;
      }
      cur := p[cur];
      assert p[path[|path| - 1]] in p.Values;
    }
  }

  method FinishPath(ghost finished: set<Id>, state0: map<Id, Mark>, path: seq<Id>) returns (state: map<Id, Mark>)
    requires Marked(state0, finished, path)
    ensures state.Keys == finished + Elements(path) && forall x :: x in state ==> state[x] == Finished
  {
    state := state0;
    for i := 0 to |path|
      invariant state.Keys == finished + Elements(path)
      invariant forall x :: x in finished ==> state[x] == Finished
      invariant forall j :: 0 <= j < i ==> state[path[j]] == Finished
    {
      state := state[path[i] := Finished];
    }
  }

  method MarkCycleFrom(path: seq<Id>, cycleEntry: Id, onCycle: set<Id>) returns (r: set<Id>)
    requires cycleEntry in path
    ensures exists k :: 0 <= k < |path| && path[k] == cycleEntry && r == onCycle + Elements(path[k..])
  {
    var start := 0;
    for i := 0 to |path|
      invariant start == 0 && forall j :: 0 <= j < i ==> path[j] != cycleEntry
    {
      if path[i] == cycleEntry {
        start := i;
        break;
      }
    }
    r := onCycle;
    for i := start to |path|
      invariant r == onCycle + Elements(path[start..i])
    {
      assert path[start..i + 1] == path[start..i] + [path[i]];
      r := r + {path[i]};
    }
    assert path[start..|path|] == path[start..];
  }

  /** The walk met itself at path[k]: the path from there on is a circle, and nobody before is on one. */
  lemma {:induction false} ClosesCycle(p: Parents, path: seq<Id>, cur: Id)
    requires Trail(p, path) && NoDup(path) && path != []
    requires path[|path| - 1] in p && p[path[|path| - 1]] == cur
    ensures forall k :: 0 <= k < |path| && path[k] == cur ==>
              Elements(path[k..]) == set x | x in path && x in p && OnCycle(p, x)
  {
    var n := |path|;
    forall k | 0 <= k < n && path[k] == cur
      ensures Elements(path[k..]) == set x | x in path && x in p && OnCycle(p, x)
    {
      forall j | k <= j < n
        ensures path[j] in p && OnCycle(p, path[j])
      {
        assert Stretch(p, path, j, n - 1) && Leads(p, path[n - 1], 1, cur) && Stretch(p, path, k, j);
        LeadsOn(p, path[j], n - 1 - j, path[n - 1], 1, cur);
        LeadsOn(p, path[j], n - j, cur, j - k, path[j]);
      }
      TrailStaysIn(p, path, k);
      forall j | 0 <= j < k
        ensures !OnCycle(p, path[j]) && path[j] !in path[k..]
      {
        assert Stretch(p, path, j, k);
        OutsideIsOnNoCycle(p, Elements(path[k..]), path[j], k - j, path[k]);
      }
    }
  }

  lemma {:induction false} TrailStaysIn(p: Parents, path: seq<Id>, k: nat)
    requires Trail(p, path) && k < |path|
    requires path[|path| - 1] in p && p[path[|path| - 1]] == path[k]
    ensures ClosedUp(p, Elements(path[k..]))
  {
    forall x | x in Elements(path[k..]) && x in p
      ensures p[x] in Elements(path[k..])
    {
      var j :| k <= j < |path| && path[j] == x;
      if j + 1 < |path| {
        assert Stretch(p, path, j, j + 1) && Leads(p, p[x], 0, path[j + 1]);
        assert p[x] == path[j + 1] == path[k..][j + 1 - k];
      } else {
        assert p[x] == path[k..][0];
      }
    }
  }

  /** The walk ran into a finished id: nobody on the path is on a circle. */
  lemma {:induction false} RunsInto(p: Parents, finished: set<Id>, path: seq<Id>, cur: Id)
    requires Trail(p, path) && ClosedUp(p, finished) && cur in finished && path != []
    requires forall x :: x in path ==> x !in finished
    requires path[|path| - 1] in p && p[path[|path| - 1]] == cur
    ensures forall x :: x in path ==> !OnCycle(p, x)
  {
    forall x | x in path
      ensures !OnCycle(p, x)
    {
      var i :| 0 <= i < |path| && path[i] == x;
      var last := |path| - 1;
      assert Stretch(p, path, i, last) && Leads(p, path[last], 1, cur);
      LeadsOn(p, x, last - i, path[last], 1, cur);
      OutsideIsOnNoCycle(p, finished, x, last - i + 1, cur);
    }
  }

  /** The walk left the edges: nobody on the path is on a circle. */
  lemma {:induction false} RunsOut(p: Parents, path: seq<Id>)
    requires Trail(p, path) && path != [] && path[|path| - 1] !in p && NoDup(path)
    ensures forall x :: x in path && x in p ==> !OnCycle(p, x)
  {
    var last := path[|path| - 1];
    forall x | x in path && x in p
      ensures !OnCycle(p, x)
    {
      var i :| 0 <= i < |path| && path[i] == x;
      assert Stretch(p, path, i, |path| - 1);
      OutsideIsOnNoCycle(p, {last}, x, |path| - 1 - i, last);
    }
  }

  lemma {:induction false} WalkIsClosed(p: Parents, finished: set<Id>, path: seq<Id>)
    requires ClosedUp(p, finished) && Stopped(p, finished, path)
    ensures ClosedUp(p, finished + Elements(path))
  {
    forall x | x in Elements(path) && x in p
      ensures p[x] in finished + Elements(path)
    {
      var i :| 0 <= i < |path| && path[i] == x;
      if i + 1 < |path| {
        assert Stretch(p, path, i, i + 1) && Leads(p, p[x], 0, path[i + 1]);
      }
    }
  }

  // ----- From the checks to the chart -----

  lemma {:induction false} DeclaredAt(ws: seq<ChartWorker>, n: nat)
    requires n <= |ws| && UniqueIds(ws, n)
    ensures forall i :: 0 <= i < n ==> ws[i].id in Declared(ws, n) && Declared(ws, n)[ws[i].id] == ws[i].reportsTo
    ensures forall x :: x in Declared(ws, n) ==> exists i :: 0 <= i < n && ws[i].id == x
  {
    if n > 0 {
      DeclaredAt(ws, n - 1);
    }
  }

  lemma {:induction false} EdgesAt(ws: seq<ChartWorker>, byId: map<Id, nat>, n: nat)
    requires n <= |ws| && UniqueIds(ws, n)
    ensures forall i :: 0 <= i < n ==> (ws[i].id in Edges(ws, byId, n) <==>
              ws[i].reportsTo != NOBODY && ws[i].reportsTo != ws[i].id && ws[i].reportsTo in byId)
    ensures forall i :: 0 <= i < n && ws[i].id in Edges(ws, byId, n) ==> Edges(ws, byId, n)[ws[i].id] == ws[i].reportsTo
    ensures forall x :: x in Edges(ws, byId, n) ==> exists i :: 0 <= i < n && ws[i].id == x
  {
    if n > 0 {
      EdgesAt(ws, byId, n - 1);
    }
  }

  /** q holds the pointers of p, except for some that lead to the root. */
  ghost predicate WithoutRoots(q: Parents, p: Parents) {
    forall x :: (x in q ==> x in p && p[x] == q[x]) && (x in p && p[x] != NOBODY ==> x in q)
  }

  lemma {:induction false} SameCycles(q: Parents, p: Parents, x: Id, n: nat, y: Id)
    requires NOBODY !in p && WithoutRoots(q, p) && y in p
    ensures Leads(p, x, n, y) <==> Leads(q, x, n, y)
    decreases n
  {
    if n > 0 {
      if x in q {
        SameCycles(q, p, p[x], n - 1, y);
      } else if x in p {
        assert !Leads(p, NOBODY, n - 1, y);
      }
    }
  }

  lemma {:induction false} SameCyclicIds(q: Parents, p: Parents)
    requires NOBODY !in p && WithoutRoots(q, p)
    ensures CyclicIds(q) == CyclicIds(p)
  {
    forall x
      ensures x in CyclicIds(q) <==> x in CyclicIds(p)
    {
      if x in p {
        forall n: nat
          ensures Leads(p, x, n, x) <==> Leads(q, x, n, x)
        {
          SameCycles(q, p, x, n, x);
        }
        assert OnCycle(q, x) ==> x in q;
      }
    }
  }

  lemma {:induction false} ResolvingIsWithoutRoots(ws: seq<ChartWorker>, byId: map<Id, nat>)
    requires Indexes(ws, |ws|, byId) && UniqueIds(ws, |ws|) && Resolving(ws, byId)
    ensures WithoutRoots(Edges(ws, byId, |ws|), Declared(ws, |ws|))
    ensures NOBODY !in Declared(ws, |ws|)
    ensures forall x :: x in Declared(ws, |ws|) ==>
            Declared(ws, |ws|)[x] == NOBODY || Declared(ws, |ws|)[x] in Declared(ws, |ws|)
  {
    DeclaredAt(ws, |ws|);
    EdgesAt(ws, byId, |ws|);
    assert forall i :: 0 <= i < |ws| ==> Resolves(ws[i], byId);
    forall x | x in byId
      ensures x in Declared(ws, |ws|)
    {
      assert ws[byId[x]].id == x;
    }
  }

  lemma {:induction false} ForestResolves(ws: seq<ChartWorker>, byId: map<Id, nat>)
    requires Indexes(ws, |ws|, byId) && Acceptable(ws)
    ensures Resolving(ws, byId)
  {
    var p := Declared(ws, |ws|);
    DeclaredAt(ws, |ws|);
    ForestHasNoCycle(p);
    forall i | 0 <= i < |ws|
      ensures Resolves(ws[i], byId)
    {
      var x := ws[i].id;
      assert x in p && p[x] == ws[i].reportsTo;
      if p[x] == x {
        assert Leads(p, x, 1, x);
      }
    }
  }

  /** With unique ids, resolving without circles of edges is the same as the declared chart being a forest. */
  lemma {:induction false} AcceptedExactly(ws: seq<ChartWorker>, byId: map<Id, nat>)
    requires Indexes(ws, |ws|, byId)
    ensures Acceptable(ws) <==>
            UniqueIds(ws, |ws|) && Resolving(ws, byId) && CyclicIds(Edges(ws, byId, |ws|)) == {}
  {
    var p, q := Declared(ws, |ws|), Edges(ws, byId, |ws|);
    ForestHasNoCycle(p);
    if Acceptable(ws) {
      ForestResolves(ws, byId);
    }
    if UniqueIds(ws, |ws|) && Resolving(ws, byId) {
      ResolvingIsWithoutRoots(ws, byId);
      SameCyclicIds(q, p);
      assert CyclicIds(p) == {} ==> forall x :: x in p ==> x !in CyclicIds(p);
    }
  }
}
