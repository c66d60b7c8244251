/**
 The dry run of `dream server remove-scope --root`: removeScopeWorkers in cmd/dream/cmd_server.go. It walks a
 listing of workers a client was sent, which need not be a chart: ids may repeat and circles are possible.
 */
module RemoveScope {
  import opened Wrappers
  import opened Forest
  import opened OrgChart

  /** What the worker listing says of one worker. */
  datatype Listed = Listed(id: Id, reportsTo: Id)

  /** Everybody listed under a member of s is in s. */
  ghost predicate ClosedDown(list: seq<Listed>, s: set<Id>) {
    forall w :: w in list && w.reportsTo in s ==> w.id in s
  }

  /** got holds nothing that does not have to be in a downwards closed set with the root. */
  ghost predicate NoMore(list: seq<Listed>, root: Id, got: set<Id>) {
    forall s {:trigger ClosedDown(list, s)} :: root in s && ClosedDown(list, s) ==> got <= s
  }

  /** children lists exactly the ids of the first n workers, under whom they report to. */
  ghost predicate IndexesList(list: seq<Listed>, n: nat, children: map<Id, seq<Id>>)
    requires n <= |list|
  {
    forall x, c :: c in Kids(children, x) <==> exists i :: 0 <= i < n && list[i] == Listed(c, x)
  }

  /**
   On any listing, circles included: the root and whoever is listed below it, once each. That is the least
   set that holds the root and is closed downwards.
   */
  method DryRun(list: seq<Listed>, root: Id) returns (removed: seq<Id>, found: bool)
    ensures found <==> exists w :: w in list && w.id == root
    ensures !found ==> removed == []
    ensures found ==> NoDup(removed) && root in removed && ClosedDown(list, Elements(removed))
    ensures found ==> NoMore(list, root, Elements(removed))
  {
    var children: map<Id, seq<Id>>;
    children, found := Index(list, root);
    if !found {
      return [], false;
    }
    removed := [];
    var queue := [root];
    var seen: set<Id> := {};
    ghost var all := (set w | w in list :: w.id) + {root};
    ClosedAll(list, root);
    while |queue| > 0
      invariant seen == Elements(removed) && NoDup(removed)
      invariant Walked(list, root, children, seen, Elements(queue)) && seen <= all
      decreases all - seen, |queue|
    {
      var id := queue[0];
      ElementsConcat([id], queue[1..]);
      assert queue == [id] + queue[1..];
      ghost var before := Elements(queue);
      queue := queue[1..];
      if id in seen {
        assert seen + before == seen + Elements(queue);
        continue;
      }
      WalkStep(list, root, children, seen, id, Elements(queue));
      seen := seen + {id};
      NoDupSnoc(removed, id);
      removed := removed + [id];
      ElementsConcat(queue, Kids(children, id));
      queue := queue + Kids(children, id);
    }
    IndexedIsClosed(list, children, seen);
  }

  ghost predicate Expanded(children: map<Id, seq<Id>>, x: Id, got: set<Id>) {
    Elements(Kids(children, x)) <= got
  }

  /** The walk so far: those seen have their children seen or queued. */
  ghost predicate Walked(list: seq<Listed>, root: Id, children: map<Id, seq<Id>>, seen: set<Id>, queued: set<Id>) {
    && IndexesList(list, |list|, children)
    && root in seen + queued && NoMore(list, root, seen + queued)
    && forall x :: x in seen ==> Expanded(children, x, seen + queued)
  }

  lemma {:induction false} ClosedAll(list: seq<Listed>, root: Id)
    ensures ClosedDown(list, (set w | w in list :: w.id) + {root})
  {
  }

  lemma {:induction false} WalkStep(list: seq<Listed>, root: Id, children: map<Id, seq<Id>>, seen: set<Id>, id: Id,
      queued: set<Id>)
    requires Walked(list, root, children, seen, {id} + queued)
    ensures Walked(list, root, children, seen + {id}, queued + Elements(Kids(children, id)))
    ensures id in (set w | w in list :: w.id) + {root}
  {
    var got, more := seen + ({id} + queued), seen + {id} + (queued + Elements(Kids(children, id)));
    assert got <= more;
    forall s | root in s && ClosedDown(list, s)
      ensures more <= s
    {
      forall c | c in Kids(children, id)
        ensures c in s
      {
        var i :| 0 <= i < |list| && list[i] == Listed(c, id);
        assert list[i] in list;
      }
    }
    ClosedAll(list, root);
  }

  method Index(list: seq<Listed>, root: Id) returns (children: map<Id, seq<Id>>, found: bool)
    ensures IndexesList(list, |list|, children)
    ensures found <==> exists w :: w in list && w.id == root
  {
    children, found := map[], false;
    for i := 0 to |list|
      invariant IndexesList(list, i, children)
      invariant found <==> exists j :: 0 <= j < i && list[j].id == root
    {
      var w := list[i];
      if w.id == root {
        found := true;
      }
      ghost var before := children;
      children := children[w.reportsTo := Kids(children, w.reportsTo) + [w.id]];
      assert forall x :: Kids(children, x) == if x == w.reportsTo then Kids(before, x) + [w.id] else Kids(before, x);
    }
  }

  lemma {:induction false} IndexedIsClosed(list: seq<Listed>, children: map<Id, seq<Id>>, s: set<Id>)
    requires IndexesList(list, |list|, children)
    requires forall x :: x in s ==> Expanded(children, x, s)
    ensures ClosedDown(list, s)
  {
    forall w | w in list && w.reportsTo in s
      ensures w.id in s
    {
      var i :| 0 <= i < |list| && list[i] == w;
      assert list[i] == Listed(w.id, w.reportsTo);
      assert w.id in Elements(Kids(children, w.reportsTo)) && Expanded(children, w.reportsTo, s);
    }
  }

  /** The listing of a chart: every worker once. */
  ghost predicate ListingOf(list: seq<Listed>, p: Parents) {
    forall w :: w in list <==> w.id in p && p[w.id] == w.reportsTo
  }

  /** On the server's own chart the dry run names exactly the workers a cascade removes. */
  lemma {:induction false} DryRunIsTheSubtree(list: seq<Listed>, p: Parents, root: Id, removed: set<Id>)
    requires IsForest(p) && ListingOf(list, p) && root in p
    requires root in removed && ClosedDown(list, removed)
    requires NoMore(list, root, removed)
    ensures removed == Subtree(p, root)
  {
    assert ClosedDown(list, Subtree(p, root)) by {
      forall w | w in list && w.reportsTo in Subtree(p, root)
        ensures w.id in Subtree(p, root)
      {
        if w.id != root {
          SubtreeStep(p, root, w.id);
        }
      }
    }
    forall x | x in Subtree(p, root)
      ensures x in removed
    {
      forall y | y in p && p[y] in removed
        ensures y in removed
      {
        assert Listed(y, p[y]) in list;
      }
      SubtreeIsLeast(p, root, removed, x);
    }
  }
}
