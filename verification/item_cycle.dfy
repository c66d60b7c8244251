/** Dependency cycles: findItemCycle in pkg/reporting/instance.go. */
module ItemCycle {
  import opened Wrappers

  datatype PlanItem = PlanItem(id: Id, blockedBy: seq<Id>)

  datatype Mark = Visiting | Finished

  type Deps = map<Id, seq<Id>>

  /** a is blocked by b, and b is an item too. */
  predicate Edge(deps: Deps, a: Id, b: Id) {
    a in deps && b in deps && b in deps[a]
  }

  /** Each member is blocked by the next. */
  ghost predicate Trail(deps: Deps, path: seq<Id>) {
    forall i, j {:trigger Edge(deps, path[i], path[j])} :: 0 <= i && j == i + 1 && j < |path| ==>
        Edge(deps, path[i], path[j])
  }

  /** A closed trail, at least one edge long. */
  ghost predicate IsCycle(deps: Deps, c: seq<Id>) {
    |c| >= 2 && c[0] == c[|c| - 1] && Trail(deps, c)
  }

  // ----- The graph the items describe -----

  /** Item a exists and one of its entries names b, and item b exists. */
  ghost predicate Blocks(items: seq<PlanItem>, a: Id, b: Id) {
    && a != NOBODY && b != NOBODY
    && (exists i :: 0 <= i < |items| && items[i].id == a && b in items[i].blockedBy)
    && (exists i :: 0 <= i < |items| && items[i].id == b)
  }

  ghost predicate BlockingCycle(items: seq<PlanItem>, c: seq<Id>) {
    && |c| >= 2 && c[0] == c[|c| - 1]
    && forall i, j {:trigger Blocks(items, c[i], c[j])} :: 0 <= i && j == i + 1 && j < |c| ==> Blocks(items, c[i], c[j])
  }

  /** What the first n items put into the table: entries with the same id are joined, empty ids skipped. */
  function DepsOf(items: seq<PlanItem>, n: nat): Deps
    requires n <= |items|
  {
    if n == 0 then map[] else
      var before, it := DepsOf(items, n - 1), items[n - 1];
      if it.id == NOBODY then before
      else before[it.id := (if it.id in before then before[it.id] else []) + it.blockedBy]
  }

  lemma {:induction false} DepsOfHas(items: seq<PlanItem>, n: nat, a: Id)
    requires n <= |items|
    ensures a in DepsOf(items, n) <==> a != NOBODY && exists i :: 0 <= i < n && items[i].id == a
    ensures a in DepsOf(items, n) ==> forall b ::
              b in DepsOf(items, n)[a] <==> exists i :: 0 <= i < n && items[i].id == a && b in items[i].blockedBy
  {
    if n > 0 {
      DepsOfHas(items, n - 1, a);
    }
  }

  lemma {:induction false} EdgesAreBlocks(items: seq<PlanItem>, a: Id, b: Id)
    ensures Edge(DepsOf(items, |items|), a, b) <==> Blocks(items, a, b)
  {
    DepsOfHas(items, |items|, a);
    DepsOfHas(items, |items|, b);
  }

  lemma {:induction false} CyclesAreBlockingCycles(items: seq<PlanItem>, c: seq<Id>)
    ensures IsCycle(DepsOf(items, |items|), c) <==> BlockingCycle(items, c)
  {
    forall i, j | 0 <= i && j == i + 1 && j < |c|
      ensures Edge(DepsOf(items, |items|), c[i], c[j]) <==> Blocks(items, c[i], c[j])
    {
      EdgesAreBlocks(items, c[i], c[j]);
    }
  }

  /** Of a cycle each member is an item with an id, and one of the entries that has it names the next. */
  lemma {:induction false} CycleMeans(items: seq<PlanItem>, c: seq<Id>, i: nat)
    requires BlockingCycle(items, c) && i + 1 < |c|
    ensures c[i] != NOBODY && c[0] == c[|c| - 1]
    ensures exists k :: 0 <= k < |items| && items[k].id == c[i] && c[i + 1] in items[k].blockedBy
    ensures exists k :: 0 <= k < |items| && items[k].id == c[i + 1]
  {
    assert Blocks(items, c[i], c[i + 1]);
  }

  // ----- The search -----

  /** Finished items have their blockers finished, with a smaller rank. */
  ghost predicate Ranked(deps: Deps, finished: set<Id>, rank: map<Id, nat>) {
    && finished <= rank.Keys
    && forall a, b {:trigger Edge(deps, a, b)} :: a in finished && Edge(deps, a, b) ==>
        b in finished && rank[b] < rank[a]
  }

  /** Ranks fall along a trail, so a trail that starts with a finished item does not close. */
  lemma {:induction false} RankFalls(deps: Deps, finished: set<Id>, rank: map<Id, nat>, path: seq<Id>, n: nat)
    requires Ranked(deps, finished, rank) && Trail(deps, path) && n < |path| && path[0] in finished
    ensures path[n] in finished && rank[path[n]] + n <= rank[path[0]]
  {
    if n > 0 {
      RankFalls(deps, finished, rank, path, n - 1);
      assert Edge(deps, path[n - 1], path[n]);
    }
  }

  lemma {:induction false} RankedHasNoCycle(deps: Deps, rank: map<Id, nat>, c: seq<Id>)
    requires Ranked(deps, deps.Keys, rank)
    ensures !IsCycle(deps, c)
  {
    if IsCycle(deps, c) {
      assert Edge(deps, c[0], c[1]);
      RankFalls(deps, deps.Keys, rank, c, |c| - 1);
    }
  }

  class Search {
    const deps: Deps
    var state: map<Id, Mark>
    var path: seq<Id>
    ghost var rank: map<Id, nat>
    ghost var next: nat

    ghost function Finished(): set<Id>
      reads this
    {
      set x | x in state && state[x] == Mark.Finished
    }

    ghost predicate Valid()
      reads this
    {
      && state.Keys <= deps.Keys
      && (forall x :: x in path <==> x in state && state[x] == Visiting)
      && Trail(deps, path)
      && Ranked(deps, Finished(), rank)
      && (forall x :: x in Finished() ==> rank[x] < next)
    }

    constructor (deps: Deps)
      ensures Valid() && this.deps == deps && state == map[] && path == []
    {
      this.deps := deps;
      state, path, rank, next := map[], [], map[], 0;
    }

    /** Explores everything id depends on. The result is empty, or a cycle met on the way. */
    method Walk(id: Id) returns (c: seq<Id>)
      requires Valid() && id in deps
      requires path != [] ==> Edge(deps, path[|path| - 1], id)
      modifies this
      ensures c != [] ==> IsCycle(deps, c)
      ensures c == [] ==> Valid() && path == old(path) && id in Finished() && old(Finished()) <= Finished()
      ensures old(state.Keys) <= state.Keys
      decreases deps.Keys - state.Keys
    {
      if id in state && state[id] == Mark.Finished {
        return [];
      }
      if id in state && state[id] == Visiting {
        c := CycleClosingAt(id);
        return;
      }
      assert id !in path;
      Enter(id);
      for i := 0 to |deps[id]|
        invariant Valid() && path == old(path) + [id] && old(Finished()) <= Finished()
        invariant old(state.Keys) + {id} <= state.Keys
        invariant forall j :: 0 <= j < i && deps[id][j] in deps ==> deps[id][j] in Finished()
      {
        var dep := deps[id][i];
        if dep !in deps {
          continue;
        }
        assert Edge(deps, id, dep);
        c := Walk(dep);
        if c != [] {
          return;
        }
      }
      Leave(id, old(path));
      return [];
    }

    method Enter(id: Id)
      requires Valid() && id in deps && id !in state && (path != [] ==> Edge(deps, path[|path| - 1], id))
      modifies this
      ensures Valid() && state == old(state)[id := Visiting] && path == old(path) + [id]
              && Finished() == old(Finished())
    {
      state := state[id := Visiting];
      path := path + [id];
      assert Finished() == old(Finished());
    }

    /** Everything id depends on is finished, so id may be, above all of it. */
    method Leave(id: Id, ghost before: seq<Id>)
      requires Valid() && path == before + [id] && id !in before && id in deps
      requires forall j :: 0 <= j < |deps[id]| && deps[id][j] in deps ==> deps[id][j] in Finished()
      modifies this
      ensures Valid() && path == before && Finished() == old(Finished()) + {id} && state.Keys == old(state).Keys
    {
      path := path[..|path| - 1];
      assert path == before;
      state := state[id := Mark.Finished];
      rank, next := rank[id := next], next + 1;
      assert Finished() == old(Finished()) + {id};
    }

    /** id is on the path, so the loop always finds it: the source's fallback after the loop is dead code. */
    method CycleClosingAt(id: Id) returns (c: seq<Id>)
      requires Trail(deps, path) && id in path && Edge(deps, path[|path| - 1], id)
      ensures IsCycle(deps, c)
    {
      c := [];
      for i := 0 to |path|
        invariant forall j :: 0 <= j < i ==> path[j] != id
      {
        if path[i] == id {
          c := path[i..] + [id];
          assert forall j, k :: 0 <= j && k == j + 1 && k < |c| - 1 ==> c[j] == path[i + j] && c[k] == path[i + k];
          assert c[|c| - 2] == path[|path| - 1];
          return;
        }
      }
      assert false;
    }
  }

  /** Empty exactly when the items' blocked_by entries are free of cycles, and otherwise one of those cycles. */
  method FindItemCycle(items: seq<PlanItem>) returns (c: seq<Id>)
    ensures c == [] <==> forall k :: !BlockingCycle(items, k)
    ensures c != [] ==> BlockingCycle(items, c)
  {
    var deps: Deps := map[];
    var order: seq<Id> := [];
    for i := 0 to |items|
      invariant deps == DepsOf(items, i)
      invariant forall x :: x in order <==> x in deps
    {
      var it := items[i];
      if it.id == NOBODY {
        continue;
      }
      if it.id !in deps {
        order := order + [it.id];
      }
      deps := deps[it.id := (if it.id in deps then deps[it.id] else []) + it.blockedBy];
    }
    var search := new Search(deps);
    for i := 0 to |order|
      invariant search.Valid() && search.deps == deps && search.path == []
      invariant forall j :: 0 <= j < i ==> order[j] in search.Finished()
    {
      assert order[i] in order;
      c := search.Walk(order[i]);
      if c != [] {
        CyclesAreBlockingCycles(items, c);
        return;
      }
    }
    assert search.Finished() == deps.Keys;
    forall k
      ensures !BlockingCycle(items, k)
    {
      RankedHasNoCycle(deps, search.rank, k);
      CyclesAreBlockingCycles(items, k);
    }
    return [];
  }
}
