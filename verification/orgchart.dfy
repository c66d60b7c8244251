/** The in-memory org chart of internal/orgchart/graph.go. */
module OrgChart {
  import opened Wrappers
  import opened Forest

  /** NoStatus is the empty status string. */
  datatype Status = NoStatus | Connected | Degraded | Disconnected

  datatype Worker = Worker(
    id: Id,
    role: string,
    reportsTo: Id,
    publicKey: string,
    connectedAt: int,
    lastSeenAt: int,
    status: Status,
    metadata: map<string, string>
  )

  datatype GraphError = InvalidWorker | DuplicateWorker | ParentNotFound | NotFound | Cycle

  type Workers = map<Id, Worker>

  /** The parent pointers of a table of workers. */
  function ParentsOf(ws: Workers): (p: Parents)
    ensures p.Keys == ws.Keys
  {
    map id | id in ws :: ws[id].reportsTo
  }

  predicate WellKeyed(ws: Workers) {
    forall id :: id in ws ==> ws[id].id == id
  }

  ghost predicate ValidChart(ws: Workers) {
    WellKeyed(ws) && IsForest(ParentsOf(ws))
  }

  function Ids(ws: seq<Worker>): (ids: seq<Id>)
    ensures |ids| == |ws|
    ensures forall i :: 0 <= i < |ws| ==> ids[i] == ws[i].id
  {
    seq(|ws|, i requires 0 <= i < |ws| => ws[i].id)
  }

  /** The list holds each member of m exactly once. */
  ghost predicate Lists(s: seq<Id>, m: set<Id>) {
    Elements(s) == m && |s| == |m|
  }

  lemma {:induction false} ElementsAreFew(s: seq<Id>)
    ensures |Elements(s)| <= |s|
  {
    if s != [] {
      var n := |s| - 1;
      ElementsAreFew(s[..n]);
      assert Elements(s) == Elements(s[..n]) + {s[n]};
    }
  }

  lemma {:induction false} ElementsConcat(s: seq<Id>, t: seq<Id>)
    ensures Elements(s + t) == Elements(s) + Elements(t)
  {
    assert forall x :: x in s + t <==> x in s || x in t;
  }

  lemma {:induction false} NoDupSnoc(s: seq<Id>, x: Id)
    requires NoDup(s) && x !in Elements(s)
    ensures NoDup(s + [x]) && Elements(s + [x]) == Elements(s) + {x}
  {
    assert forall i :: 0 <= i < |s| ==> s[i] in s;
    ElementsConcat(s, [x]);
  }

  lemma {:induction false} ListsNoDup(s: seq<Id>)
    requires |Elements(s)| == |s|
    ensures NoDup(s)
  {
    if s != [] {
      var n := |s| - 1;
      assert Elements(s) == Elements(s[..n]) + {s[n]};
      ElementsAreFew(s[..n]);
      ListsNoDup(s[..n]);
      assert s[n] !in s[..n];
      assert forall i :: 0 <= i < n ==> s[i] in s[..n];
    }
  }

  lemma {:induction false} ListsConcat(s: seq<Id>, m: set<Id>, t: seq<Id>, k: set<Id>)
    requires Lists(s, m) && Lists(t, k) && m !! k
    ensures Lists(s + t, m + k)
  {
    assert forall x :: x in s + t <==> x in s || x in t;
    assert Elements(s + t) == m + k;
  }

  /** After the first, everybody is listed after the one they report to. */
  predicate ParentsFirst(p: Parents, ids: seq<Id>)
  {
    forall i :: 0 < i < |ids| ==> ids[i] in p && exists j :: 0 <= j < i && p[ids[i]] == ids[j]
  }

  function Kids(childrenOf: map<Id, seq<Id>>, id: Id): seq<Id> {
    if id in childrenOf then childrenOf[id] else []
  }

  /** The children of the first n ids, in that order. */
  function KidsOfAll(childrenOf: map<Id, seq<Id>>, ids: seq<Id>, n: nat): seq<Id>
    requires n <= |ids|
  {
    if n == 0 then [] else KidsOfAll(childrenOf, ids, n - 1) + Kids(childrenOf, ids[n - 1])
  }

  /** The ids n levels below top, and everybody down to there. */
  ghost function Level(childrenOf: map<Id, seq<Id>>, top: Id, n: nat): seq<Id> {
    if n == 0 then [top] else
      var above := Level(childrenOf, top, n - 1);
      KidsOfAll(childrenOf, above, |above|)
  }

  ghost function Levels(childrenOf: map<Id, seq<Id>>, top: Id, n: nat): seq<Id> {
    if n == 0 then [top] else Levels(childrenOf, top, n - 1) + Level(childrenOf, top, n)
  }

  /** Whoever reports to a member of m. */
  ghost function ChildrenOf(p: Parents, m: set<Id>): set<Id> {
    set c | c in p && p[c] in m
  }

  /** childrenOf lists x's children among `among`. */
  ghost predicate KidsListed(p: Parents, among: set<Id>, childrenOf: map<Id, seq<Id>>, x: Id) {
    Lists(Kids(childrenOf, x), ChildrenOf(p, {x}) * among)
  }

  ghost predicate IndexesChildren(p: Parents, among: set<Id>, childrenOf: map<Id, seq<Id>>) {
    forall x {:trigger KidsListed(p, among, childrenOf, x)} :: x != NOBODY ==> KidsListed(p, among, childrenOf, x)
  }

  lemma {:induction false} IndexStep(p: Parents, among: set<Id>, id: Id, x: Id, kids: seq<Id>)
    requires id in p && id !in among && Lists(kids, ChildrenOf(p, {x}) * among)
    ensures Lists(if p[id] == x then kids + [id] else kids, ChildrenOf(p, {x}) * (among + {id}))
  {
    if p[id] == x {
      assert Lists([id], {id});
      ListsConcat(kids, ChildrenOf(p, {x}) * among, [id], {id});
      assert ChildrenOf(p, {x}) * (among + {id}) == ChildrenOf(p, {x}) * among + {id};
    } else {
      assert ChildrenOf(p, {x}) * (among + {id}) == ChildrenOf(p, {x}) * among;
    }
  }

  /** One worker more is listed under whom it reports to. */
  lemma {:induction false} IndexMore(p: Parents, among: set<Id>, childrenOf: map<Id, seq<Id>>, id: Id)
    requires IndexesChildren(p, among, childrenOf) && id in p && id !in among
    ensures var more := if p[id] == NOBODY then childrenOf else childrenOf[p[id] := Kids(childrenOf, p[id]) + [id]];
            IndexesChildren(p, among + {id}, more)
  {
    var more := if p[id] == NOBODY then childrenOf else childrenOf[p[id] := Kids(childrenOf, p[id]) + [id]];
    forall x | x != NOBODY
      ensures KidsListed(p, among + {id}, more, x)
    {
      assert KidsListed(p, among, childrenOf, x);
      IndexStep(p, among, id, x, Kids(childrenOf, x));
    }
  }

  ghost predicate KidsKnown(known: set<Id>, childrenOf: map<Id, seq<Id>>) {
    forall x, c :: c in Kids(childrenOf, x) ==> c in known
  }

  lemma {:induction false} KidsAreKnown(p: Parents, childrenOf: map<Id, seq<Id>>)
    requires IndexesChildren(p, p.Keys, childrenOf) && NOBODY !in childrenOf
    ensures KidsKnown(p.Keys, childrenOf)
  {
    forall x, c | c in Kids(childrenOf, x)
      ensures c in p.Keys
    {
      assert KidsListed(p, p.Keys, childrenOf, x);
      assert c in Elements(Kids(childrenOf, x));
    }
  }

  class Graph {
    var workers: Workers

    ghost predicate Valid()
      reads this
    {
      ValidChart(workers)
    }

    constructor ()
      ensures workers == map[] && Valid()
    {
      workers := map[];
    }

    /** Works on any table, a broken one included: reload depends on the refusals. */
    method AddWorker(w: Worker) returns (r: Outcome<GraphError>)
      modifies this
      ensures r == if w.id == NOBODY then Refused(InvalidWorker)
                   else if w.id in old(workers) then Refused(DuplicateWorker)
                   else if w.reportsTo != NOBODY && w.reportsTo !in old(workers) then Refused(ParentNotFound)
                   else Done
      ensures workers == if r.Done? then old(workers)[w.id := w] else old(workers)
      ensures old(Valid()) ==> Valid()
    {
      if w.id == NOBODY {
        return Refused(InvalidWorker);
      }
      if w.id in workers {
        return Refused(DuplicateWorker);
      }
      if w.reportsTo != NOBODY {
        if w.reportsTo !in workers {
          return Refused(ParentNotFound);
        }
      }
      ghost var before := workers;
      workers := workers[w.id := w];
      assert ParentsOf(workers) == ParentsOf(before)[w.id := w.reportsTo];
      if ValidChart(before) {
        AddKeepsForest(ParentsOf(before), w.id, w.reportsTo);
      }
      return Done;
    }

    /** Terminates because the chart is a forest: there is no visited set to stop a circle. */
    method HasAncestor(start: Worker, ancestorId: Id) returns (yes: bool)
      requires Valid() && start.id in workers && workers[start.id] == start && ancestorId != NOBODY
      ensures yes <==> Below(ParentsOf(workers), ancestorId, start.id)
    {
      var cur := start;
      ghost var p := ParentsOf(workers);
      StepUp(p, start.id);
      while cur.reportsTo != NOBODY
        invariant cur.id in workers && workers[cur.id] == cur
        invariant Rooted(p, cur.reportsTo)
        invariant ancestorId in Chain(p, cur.reportsTo) <==> Below(p, ancestorId, start.id)
        decreases Depth(p, cur.reportsTo)
      {
        if cur.reportsTo == ancestorId {
          return true;
        }
        StepUp(p, cur.reportsTo);
        if cur.reportsTo !in workers {
          return false;
        }
        cur := workers[cur.reportsTo];
      }
      return false;
    }

    /** Allowed for exactly the moves after which the chart is still a forest. */
    method Reassign(workerId: Id, newParent: Id) returns (r: Outcome<GraphError>)
      requires Valid()
      modifies this
      ensures r.Done? <==> workerId in old(workers) && IsForest(ParentsOf(old(workers))[workerId := newParent])
      ensures r == Refused(NotFound) <==> workerId !in old(workers)
      ensures r == Refused(ParentNotFound) <==>
              workerId in old(workers) && newParent != NOBODY && newParent !in old(workers)
      ensures workers == if r.Done? then old(workers)[workerId := old(workers)[workerId].(reportsTo := newParent)]
                         else old(workers)
      ensures Valid()
    {
      if workerId !in workers {
        return Refused(NotFound);
      }
      ghost var p := ParentsOf(workers);
      RepointKeepsForest(p, workerId, newParent);
      var w := workers[workerId];
      if newParent == NOBODY {
        workers := workers[workerId := w.(reportsTo := NOBODY)];
        assert ParentsOf(workers) == p[workerId := NOBODY];
        return Done;
      }
      if newParent == workerId {
        return Refused(Cycle);
      }
      if newParent !in workers {
        return Refused(ParentNotFound);
      }
      var above := HasAncestor(workers[newParent], workerId);
      if above {
        return Refused(Cycle);
      }
      workers := workers[workerId := w.(reportsTo := newParent)];
      assert ParentsOf(workers) == p[workerId := newParent];
      return Done;
    }

    method SetRole(workerId: Id, role: string) returns (r: Outcome<GraphError>)
      requires Valid()
      modifies this
      ensures r == if workerId in old(workers) then Done else Refused(NotFound)
      ensures workers ==
              if r.Done? then old(workers)[workerId := old(workers)[workerId].(role := role)] else old(workers)
      ensures Valid() && ParentsOf(workers) == ParentsOf(old(workers))
    {
      if workerId !in workers {
        return Refused(NotFound);
      }
      ghost var p := ParentsOf(workers);
      workers := workers[workerId := workers[workerId].(role := role)];
      assert ParentsOf(workers) == p;
      return Done;
    }

    /** On its own this may leave children dangling; a caller that drops only leaves keeps the forest. */
    method Remove(workerId: Id) returns (r: Outcome<GraphError>)
      modifies this
      ensures r == if workerId in old(workers) then Done else Refused(NotFound)
      ensures workers == old(workers) - {workerId}
      ensures old(Valid()) && (forall id :: id in old(workers) ==> old(workers)[id].reportsTo != workerId) ==> Valid()
    {
      if workerId !in workers {
        assert workers - {workerId} == workers;
        return Refused(NotFound);
      }
      ghost var before := workers;
      workers := workers - {workerId};
      assert ParentsOf(workers) == ParentsOf(before) - {workerId};
      if ValidChart(before) && forall id :: id in before ==> before[id].reportsTo != workerId {
        DropKeepsForest(ParentsOf(before), {workerId});
      }
      return Done;
    }

    method Get(workerId: Id) returns (r: Option<Worker>)
      ensures r == if workerId in workers then Some(workers[workerId]) else None
    {
      return if workerId in workers then Some(workers[workerId]) else None;
    }

    /** Whoever reports to workerId directly, once each, in the map's own order. */
    method Children(workerId: Id) returns (r: Result<seq<Worker>, GraphError>)
      requires WellKeyed(workers)
      ensures r.Ok? <==> workerId == NOBODY || workerId in workers
      ensures r.Ok? ==> NoDup(Ids(r.value))
      ensures r.Ok? ==>
                forall w :: w in r.value <==> w.id in workers && workers[w.id] == w && w.reportsTo == workerId
    {
      if workerId != NOBODY {
        if workerId !in workers {
          return Err(NotFound);
        }
      }
      var out := [];
      var rest := workers.Keys;
      while rest != {}
        invariant rest <= workers.Keys
        invariant NoDup(Ids(out))
        invariant forall w :: w in out <==>
                  w.id in workers && w.id !in rest && workers[w.id] == w && w.reportsTo == workerId
        decreases rest
      {
        var id :| id in rest;
        rest := rest - {id};
        var w := workers[id];
        if w.reportsTo == workerId {
          ghost var was := out;
          out := out + [w];
          assert forall i :: 0 <= i < |was| ==> was[i] in was;
        }
      }
      return Ok(out);
    }

    method IndexChildren() returns (childrenOf: map<Id, seq<Id>>)
      requires WellKeyed(workers)
      ensures IndexesChildren(ParentsOf(workers), workers.Keys, childrenOf)
      ensures NOBODY !in childrenOf
    {
      childrenOf := map[];
      var rest := workers.Keys;
      ghost var p := ParentsOf(workers);
      while rest != {}
        invariant rest <= workers.Keys && NOBODY !in childrenOf
        invariant IndexesChildren(p, workers.Keys - rest, childrenOf)
        decreases rest
      {
        var id :| id in rest;
        IndexMore(p, workers.Keys - rest, childrenOf, id);
        assert workers.Keys - (rest - {id}) == workers.Keys - rest + {id};
        rest := rest - {id};
        var w := workers[id];
        if w.reportsTo != NOBODY {
          childrenOf := childrenOf[w.reportsTo := Kids(childrenOf, w.reportsTo) + [w.id]];
        }
      }
      assert workers.Keys - rest == workers.Keys;
    }

    /** Everybody below workerId, once each, each after the one they report to. */
    method Descendants(workerId: Id) returns (r: Result<seq<Worker>, GraphError>)
      requires Valid()
      ensures r.Ok? <==> workerId in workers
      ensures r.Ok? ==>
              && (forall w :: w in r.value ==> w.id in workers && workers[w.id] == w)
              && NoDup(Ids(r.value))
              && ParentsFirst(ParentsOf(workers), [workerId] + Ids(r.value))
              && (forall d :: d in Ids(r.value) <==> Below(ParentsOf(workers), workerId, d))
    {
      if workerId !in workers {
        return Err(NotFound);
      }
      var childrenOf := IndexChildren();
      ghost var depth;
      var out: seq<Worker>;
      KidsAreKnown(ParentsOf(workers), childrenOf);
      forall n: nat
        ensures |Levels(childrenOf, workerId, n)| <= |workers|
      {
        LevelsAreShort(ParentsOf(workers), childrenOf, workerId, n);
      }
      out, depth := Walk(workerId, childrenOf);
      DescendantsDone(ParentsOf(workers), childrenOf, workerId, depth, Ids(out));
      return Ok(out);
    }

    /** The breadth-first walk itself. It keeps no visited set: it ends because its levels are bounded. */
    method Walk(workerId: Id, childrenOf: map<Id, seq<Id>>) returns (out: seq<Worker>, ghost depth: nat)
      requires WellKeyed(workers) && KidsKnown(workers.Keys, childrenOf)
      requires forall n: nat :: |Levels(childrenOf, workerId, n)| <= |workers|
      ensures Registered(workers, out)
      ensures [workerId] + Ids(out) == Levels(childrenOf, workerId, depth) && Level(childrenOf, workerId, depth) == []
    {
      out, depth := [], 0;
      var frontier := [workerId];
      while |frontier| > 0
        invariant frontier == Level(childrenOf, workerId, depth)
        invariant [workerId] + Ids(out) == Levels(childrenOf, workerId, depth)
        invariant Registered(workers, out)
        decreases |workers| - |out| + |frontier|
      {
        ghost var met := Ids(out);
        assert |Levels(childrenOf, workerId, depth + 1)| <= |workers|;
        out, frontier := ExpandFrontier(childrenOf, frontier, out);
        Regroup([workerId], met, frontier);
        depth := depth + 1;
      }
    }

    /** One level: every child of the frontier is appended to out, and makes up the next frontier. */
    method ExpandFrontier(childrenOf: map<Id, seq<Id>>, frontier: seq<Id>, out: seq<Worker>)
      returns (out': seq<Worker>, next: seq<Id>)
      requires WellKeyed(workers) && Registered(workers, out)
      requires KidsKnown(workers.Keys, childrenOf)
      ensures next == KidsOfAll(childrenOf, frontier, |frontier|) && Ids(out') == Ids(out) + next
      ensures Registered(workers, out')
    {
      out', next := out, [];
      for i := 0 to |frontier|
        invariant next == KidsOfAll(childrenOf, frontier, i) && Ids(out') == Ids(out) + next
        invariant Registered(workers, out')
      {
        out', next := AppendWorkers(Kids(childrenOf, frontier[i]), out', next);
      }
    }

    method AppendWorkers(kids: seq<Id>, out: seq<Worker>, next: seq<Id>)
      returns (out': seq<Worker>, next': seq<Id>)
      requires WellKeyed(workers) && Registered(workers, out)
      requires forall id :: id in kids ==> id in workers
      ensures Ids(out') == Ids(out) + kids && next' == next + kids && Registered(workers, out')
    {
      out', next' := out, next;
      for j := 0 to |kids|
        invariant Ids(out') == Ids(out) + kids[..j] && next' == next + kids[..j]
        invariant Registered(workers, out')
      {
        assert kids[j] in kids;
        out' := out' + [workers[kids[j]]];
        next' := next' + [kids[j]];
      }
    }

    /** Everybody above a worker, from its parent up. The set guards against circles, and on a forest never has to. */
    method Ancestors(workerId: Id) returns (r: Result<seq<Worker>, GraphError>)
      requires Valid()
      ensures r.Ok? <==> workerId in workers
      ensures r.Ok? ==> Registered(workers, r.value) && Ids(r.value) == Above(ParentsOf(workers), workerId)
    {
      if workerId !in workers {
        return Err(NotFound);
      }
      ghost var p := ParentsOf(workers);
      StepUp(p, workerId);
      var cur := workers[workerId];
      var out: seq<Worker> := [];
      var seen := {workerId};
      while cur.reportsTo != NOBODY
        invariant cur.id in workers && workers[cur.id] == cur && Rooted(p, cur.reportsTo) && Registered(workers, out)
        invariant Ids(out) + Chain(p, cur.reportsTo) == Above(p, workerId)
        invariant Deeper(p, seen, cur.reportsTo)
        decreases Depth(p, cur.reportsTo)
      {
        StepUp(p, cur.reportsTo);
        var parent := workers[cur.reportsTo];
        if parent.id in seen {
          break;
        }
        seen := seen + {parent.id};
        out := out + [parent];
        cur := parent;
      }
      return Ok(out);
    }
  }

  /** Everybody in seen is deeper in the chart than id. */
  ghost predicate Deeper(p: Parents, seen: set<Id>, id: Id)
    requires Rooted(p, id)
  {
    forall x :: x in seen ==> Rooted(p, x) && Depth(p, x) > Depth(p, id)
  }

  ghost function Above(p: Parents, id: Id): seq<Id>
    requires id in p && IsForest(p)
  {
    StepUp(p, id);
    Chain(p, p[id])
  }

  /** The list holds workers as the table has them. */
  predicate Registered(ws: Workers, list: seq<Worker>) {
    forall w :: w in list ==> w.id in ws && ws[w.id] == w
  }

  // ----- The walk visits exactly the subtree, one level after the other -----

  ghost function LevelSet(p: Parents, top: Id, n: nat): set<Id> {
    if n == 0 then {top} else ChildrenOf(p, LevelSet(p, top, n - 1))
  }

  ghost function UpToLevel(p: Parents, top: Id, n: nat): set<Id> {
    if n == 0 then {top} else UpToLevel(p, top, n - 1) + LevelSet(p, top, n)
  }

  lemma {:induction false} LevelHasDepth(p: Parents, top: Id, n: nat, x: Id)
    requires IsForest(p) && top in p && x in LevelSet(p, top, n)
    ensures x in p && Depth(p, x) == Depth(p, top) + n
  {
    if n > 0 {
      LevelHasDepth(p, top, n - 1, p[x]);
      StepUp(p, x);
    }
  }

  /** The n-th level is exactly who is n steps below the top. */
  lemma {:induction false} LevelIsDepth(p: Parents, top: Id, n: nat, x: Id)
    requires IsForest(p) && top in p
    ensures x in LevelSet(p, top, n) <==> x in Subtree(p, top) && Depth(p, x) == Depth(p, top) + n
  {
    if x in LevelSet(p, top, n) {
      LevelHasDepth(p, top, n, x);
      LevelIsUpTo(p, top, n, x);
      UpToLevelHasDepth(p, top, n, x);
    } else if x in Subtree(p, top) && Depth(p, x) == Depth(p, top) + n {
      DepthIsLevel(p, top, n, x);
    }
  }

  lemma {:induction false} DepthIsLevel(p: Parents, top: Id, n: nat, x: Id)
    requires IsForest(p) && top in p && x in Subtree(p, top) && Depth(p, x) == Depth(p, top) + n
    ensures x in LevelSet(p, top, n)
  {
    if x != top {
      StepUp(p, x);
      SubtreeStep(p, top, x);
      SubtreeIsDeeper(p, top, p[x]);
      DepthIsLevel(p, top, n - 1, p[x]);
    }
  }

  lemma {:induction false} UpToLevelHasDepth(p: Parents, top: Id, n: nat, x: Id)
    requires IsForest(p) && top in p && x in UpToLevel(p, top, n)
    ensures x in p && Depth(p, x) <= Depth(p, top) + n && x in Subtree(p, top)
  {
    if x in LevelSet(p, top, n) {
      LevelHasDepth(p, top, n, x);
    }
    if n > 0 {
      if x in UpToLevel(p, top, n - 1) {
        UpToLevelHasDepth(p, top, n - 1, x);
      } else {
        LevelIsUpTo(p, top, n - 1, p[x]);
        UpToLevelHasDepth(p, top, n - 1, p[x]);
        if x != top {
          SubtreeStep(p, top, x);
        }
      }
    }
  }

  lemma {:induction false} LevelIsUpTo(p: Parents, top: Id, n: nat, x: Id)
    requires x in LevelSet(p, top, n)
    ensures x in UpToLevel(p, top, n)
  {
  }

  lemma {:induction false} LevelIsNew(p: Parents, top: Id, n: nat, x: Id)
    requires IsForest(p) && top in p && n > 0 && x in LevelSet(p, top, n)
    ensures x !in UpToLevel(p, top, n - 1)
  {
    LevelHasDepth(p, top, n, x);
    if x in UpToLevel(p, top, n - 1) {
      UpToLevelHasDepth(p, top, n - 1, x);
    }
  }

  /** The children of a list without repetitions are a list without repetitions. */
  lemma {:induction false} KidsOfAllLists(p: Parents, childrenOf: map<Id, seq<Id>>, ids: seq<Id>, n: nat)
    requires n <= |ids| && NoDup(ids) && NOBODY !in ids && IndexesChildren(p, p.Keys, childrenOf)
    ensures Lists(KidsOfAll(childrenOf, ids, n), ChildrenOf(p, FirstOf(ids, n)))
  {
    if n > 0 {
      var x, before := ids[n - 1], FirstOf(ids, n - 1);
      KidsOfAllLists(p, childrenOf, ids, n - 1);
      assert KidsListed(p, p.Keys, childrenOf, x);
      NotAmongFirst(ids, n - 1);
      ChildrenOfMore(p, before, x);
      ListsConcat(KidsOfAll(childrenOf, ids, n - 1), ChildrenOf(p, before), Kids(childrenOf, x), ChildrenOf(p, {x}));
    }
  }

  lemma {:induction false} ChildrenOfMore(p: Parents, m: set<Id>, x: Id)
    requires x !in m
    ensures ChildrenOf(p, m + {x}) == ChildrenOf(p, m) + ChildrenOf(p, {x})
    ensures ChildrenOf(p, m) !! ChildrenOf(p, {x})
    ensures ChildrenOf(p, {x}) * p.Keys == ChildrenOf(p, {x})
  {
  }

  ghost function FirstOf(ids: seq<Id>, n: nat): set<Id>
    requires n <= |ids|
  {
    if n == 0 then {} else FirstOf(ids, n - 1) + {ids[n - 1]}
  }

  lemma {:induction false} FirstOfMembers(ids: seq<Id>, n: nat, x: Id)
    requires n <= |ids|
    ensures x in FirstOf(ids, n) <==> exists i :: 0 <= i < n && ids[i] == x
  {
    if n > 0 {
      FirstOfMembers(ids, n - 1, x);
    }
  }

  lemma {:induction false} NotAmongFirst(ids: seq<Id>, n: nat)
    requires n < |ids| && NoDup(ids)
    ensures ids[n] !in FirstOf(ids, n)
  {
    FirstOfMembers(ids, n, ids[n]);
  }

  lemma {:induction false} LevelLists(p: Parents, childrenOf: map<Id, seq<Id>>, top: Id, n: nat)
    requires IsForest(p) && top in p && IndexesChildren(p, p.Keys, childrenOf)
    ensures Lists(Level(childrenOf, top, n), LevelSet(p, top, n))
  {
    if n > 0 {
      var above := Level(childrenOf, top, n - 1);
      LevelLists(p, childrenOf, top, n - 1);
      ListsNoDup(above);
      if NOBODY in LevelSet(p, top, n - 1) {
        LevelHasDepth(p, top, n - 1, NOBODY);
      }
      assert NOBODY !in Elements(above);
      forall x
        ensures x in FirstOf(above, |above|) <==> x in Elements(above)
      {
        FirstOfMembers(above, |above|, x);
      }
      KidsOfAllLists(p, childrenOf, above, |above|);
    }
  }

  lemma {:induction false} LevelsList(p: Parents, childrenOf: map<Id, seq<Id>>, top: Id, n: nat)
    requires IsForest(p) && top in p && IndexesChildren(p, p.Keys, childrenOf)
    ensures Lists(Levels(childrenOf, top, n), UpToLevel(p, top, n))
  {
    LevelLists(p, childrenOf, top, n);
    if n > 0 {
      LevelsList(p, childrenOf, top, n - 1);
      var level := LevelSet(p, top, n);
      forall x | x in level
        ensures x !in UpToLevel(p, top, n - 1)
      {
        LevelIsNew(p, top, n, x);
      }
      ListsConcat(Levels(childrenOf, top, n - 1), UpToLevel(p, top, n - 1), Level(childrenOf, top, n), level);
    }
  }

  lemma {:induction false} SubsetIsSmall(a: set<Id>, b: set<Id>)
    requires a <= b
    ensures |a| <= |b|
  {
    assert b == a + (b - a);
  }

  lemma {:induction false} LevelsAreShort(p: Parents, childrenOf: map<Id, seq<Id>>, top: Id, n: nat)
    requires IsForest(p) && top in p && IndexesChildren(p, p.Keys, childrenOf)
    ensures |Levels(childrenOf, top, n)| <= |p|
  {
    LevelsList(p, childrenOf, top, n);
    forall x | x in UpToLevel(p, top, n)
      ensures x in p.Keys
    {
      UpToLevelHasDepth(p, top, n, x);
    }
    SubsetIsSmall(UpToLevel(p, top, n), p.Keys);
  }

  /** Whoever reports to somebody down to level n is found by level n + 1. */
  lemma {:induction false} ChildrenFollow(p: Parents, top: Id, n: nat, c: Id)
    requires c in p && p[c] in UpToLevel(p, top, n)
    ensures c in UpToLevel(p, top, n) + LevelSet(p, top, n + 1)
  {
    if n > 0 && p[c] !in LevelSet(p, top, n) {
      ChildrenFollow(p, top, n - 1, c);
    }
  }

  lemma {:induction false} WholeSubtree(p: Parents, top: Id, n: nat)
    requires IsForest(p) && top in p && LevelSet(p, top, n) == {}
    ensures UpToLevel(p, top, n) == Subtree(p, top)
  {
    assert LevelSet(p, top, n + 1) == {};
    forall c | c in p && p[c] in UpToLevel(p, top, n)
      ensures c in UpToLevel(p, top, n)
    {
      ChildrenFollow(p, top, n, c);
    }
    TopIsUpTo(p, top, n);
    forall x
      ensures x in UpToLevel(p, top, n) <==> x in Subtree(p, top)
    {
      if x in Subtree(p, top) {
        SubtreeIsLeast(p, top, UpToLevel(p, top, n), x);
      }
      if x in UpToLevel(p, top, n) {
        UpToLevelHasDepth(p, top, n, x);
      }
    }
  }

  lemma {:induction false} TopIsUpTo(p: Parents, top: Id, n: nat)
    ensures top in UpToLevel(p, top, n)
  {
    if n > 0 {
      TopIsUpTo(p, top, n - 1);
    }
  }

  lemma {:induction false} ParentsAreMet(p: Parents, prev: set<Id>, level: seq<Id>, met: seq<Id>, m: set<Id>)
    requires Lists(level, ChildrenOf(p, prev)) && Lists(met, m) && prev <= m
    ensures forall c :: c in level ==> c in p && p[c] in met
  {
    forall c | c in level
      ensures c in p && p[c] in met
    {
      assert c in Elements(level);
      assert p[c] in Elements(met);
    }
  }

  lemma {:induction false} LevelsParentsFirst(p: Parents, childrenOf: map<Id, seq<Id>>, top: Id, n: nat)
    requires IsForest(p) && top in p && IndexesChildren(p, p.Keys, childrenOf)
    ensures ParentsFirst(p, Levels(childrenOf, top, n))
  {
    if n > 0 {
      var met, level := Levels(childrenOf, top, n - 1), Level(childrenOf, top, n);
      LevelsParentsFirst(p, childrenOf, top, n - 1);
      LevelLists(p, childrenOf, top, n);
      LevelsList(p, childrenOf, top, n - 1);
      ParentsAreMet(p, LevelSet(p, top, n - 1), level, met, UpToLevel(p, top, n - 1));
      ParentsFirstConcat(p, met, level);
    }
  }

  lemma {:induction false} ParentsFirstConcat(p: Parents, met: seq<Id>, b: seq<Id>)
    requires ParentsFirst(p, met) && forall c :: c in b ==> c in p && p[c] in met
    ensures ParentsFirst(p, met + b)
  {
    var c := met + b;
    forall i | 0 < i < |c|
      ensures c[i] in p && exists j :: 0 <= j < i && p[c[i]] == c[j]
    {
      if i < |met| {
        var j :| 0 <= j < i && p[met[i]] == met[j];
        assert c[j] == met[j];
      } else {
        assert c[i] in b;
        var j :| 0 <= j < |met| && met[j] == p[c[i]];
        assert c[j] == met[j];
      }
    }
  }

  lemma {:induction false} TailOfNoDup(top: Id, ids: seq<Id>, m: set<Id>)
    requires Lists([top] + ids, m)
    ensures NoDup(ids) && Elements(ids) == m - {top}
  {
    var all := [top] + ids;
    ListsNoDup(all);
    assert forall i :: 0 <= i < |ids| ==> ids[i] == all[i + 1] && all[i + 1] != all[0];
    assert forall d :: d in all <==> d == top || d in ids;
  }

  lemma {:induction false} DescendantsDone(p: Parents, childrenOf: map<Id, seq<Id>>, top: Id, n: nat, ids: seq<Id>)
    requires IsForest(p) && top in p && IndexesChildren(p, p.Keys, childrenOf)
    requires Levels(childrenOf, top, n) == [top] + ids && Level(childrenOf, top, n) == []
    ensures NoDup(ids) && ParentsFirst(p, [top] + ids)
    ensures forall d :: d in ids <==> Below(p, top, d)
  {
    LevelLists(p, childrenOf, top, n);
    LevelsList(p, childrenOf, top, n);
    WholeSubtree(p, top, n);
    LevelsParentsFirst(p, childrenOf, top, n);
    TailOfNoDup(top, ids, Subtree(p, top));
    forall d
      ensures d in ids <==> Below(p, top, d)
    {
      BelowIsIrreflexive(p, top);
      assert d in ids <==> d in Elements(ids);
    }
  }
}
