/** Parent pointers. */
module Forest {
  import opened Wrappers

  /** Whom each id reports to, in the org chart or a chart file; NOBODY is the root above everybody. */
  type Parents = map<Id, Id>

  /** Exactly n parent steps lead from id to the root. */
  ghost predicate Reaches(p: Parents, id: Id, n: nat)
    decreases n
  {
    if id == NOBODY then n == 0 else n > 0 && id in p && Reaches(p, p[id], n - 1)
  }

  /** The parent chain of id ends at the root: it neither dangles nor runs in a circle. */
  ghost predicate Rooted(p: Parents, id: Id)
  {
    exists n: nat :: Reaches(p, id, n)
  }

  ghost predicate IsForest(p: Parents)
  {
    NOBODY !in p && forall id :: id in p ==> Rooted(p, id)
  }

  ghost function Depth(p: Parents, id: Id): (n: nat)
    requires Rooted(p, id)
    ensures Reaches(p, id, n)
  {
    var n: nat :| Reaches(p, id, n);
    n
  }

  lemma {:induction false} DepthIsUnique(p: Parents, id: Id, m: nat, n: nat)
    requires Reaches(p, id, m) && Reaches(p, id, n)
    ensures m == n
    decreases m
  {
    if id != NOBODY {
      DepthIsUnique(p, p[id], m - 1, n - 1);
    }
  }

  lemma {:induction false} StepUp(p: Parents, id: Id)
    requires id != NOBODY && Rooted(p, id)
    ensures id in p && Rooted(p, p[id]) && Depth(p, id) == Depth(p, p[id]) + 1
  {
    var n := Depth(p, id);
    assert Reaches(p, p[id], n - 1);
    DepthIsUnique(p, p[id], n - 1, Depth(p, p[id]));
  }

  lemma {:induction false} StepDown(p: Parents, id: Id)
    requires id in p && Rooted(p, p[id])
    ensures Rooted(p, id)
  {
    if id != NOBODY {
      assert Reaches(p, id, Depth(p, p[id]) + 1);
    } else {
      assert Reaches(p, id, 0);
    }
  }

  lemma {:induction false} RootIsRooted(p: Parents)
    ensures Rooted(p, NOBODY)
  {
    assert Reaches(p, NOBODY, 0);
  }

  /** The ids met on the way from id to the root, id first. */
  ghost function Chain(p: Parents, id: Id): (c: seq<Id>)
    requires Rooted(p, id)
    ensures |c| == 0 <==> id == NOBODY
    ensures forall x :: x in c ==> x in p && x != NOBODY
    decreases Depth(p, id)
  {
    if id == NOBODY then [] else
      StepUp(p, id);
      [id] + Chain(p, p[id])
  }

  /** d reports to a, directly or through others. */
  ghost predicate Below(p: Parents, a: Id, d: Id)
  {
    d in p && Rooted(p, p[d]) && a in Chain(p, p[d])
  }

  /** a and everybody below it. */
  ghost function Subtree(p: Parents, a: Id): set<Id>
  {
    set d | d in p && (d == a || Below(p, a, d))
  }

  /** Everybody on a chain is rooted, and at most as deep as where the chain starts. */
  lemma {:induction false} ChainIsRooted(p: Parents, id: Id, x: Id)
    requires Rooted(p, id) && x in Chain(p, id)
    ensures Rooted(p, x) && Depth(p, x) <= Depth(p, id)
    decreases Depth(p, id)
  {
    StepUp(p, id);
    if x != id {
      ChainIsRooted(p, p[id], x);
    }
  }

  lemma {:induction false} BelowIsIrreflexive(p: Parents, a: Id)
    requires IsForest(p)
    ensures !Below(p, a, a)
  {
    if Below(p, a, a) {
      StepUp(p, a);
      ChainIsRooted(p, p[a], a);
    }
  }

  lemma {:induction false} SubtreeIsDeeper(p: Parents, a: Id, d: Id)
    requires IsForest(p) && a in p && d in Subtree(p, a)
    ensures Depth(p, d) >= Depth(p, a)
  {
    if d != a {
      StepUp(p, d);
      ChainIsRooted(p, p[d], a);
    }
  }

  /** The children of a subtree's members are in the subtree; every other member's parent is too. */
  lemma {:induction false} SubtreeStep(p: Parents, a: Id, d: Id)
    requires IsForest(p) && a != NOBODY && d in p && d != a
    ensures d in Subtree(p, a) <==> p[d] in Subtree(p, a)
  {
    StepUp(p, d);
    if p[d] != NOBODY {
      StepUp(p, p[d]);
      assert Chain(p, p[d]) == [p[d]] + Chain(p, p[p[d]]);
    }
  }

  /** Subtree is the least set that holds a and is closed under "reports to". */
  lemma {:induction false} SubtreeIsLeast(p: Parents, a: Id, s: set<Id>, d: Id)
    requires IsForest(p) && a in s
    requires forall x :: x in p && p[x] in s ==> x in s
    requires d in Subtree(p, a)
    ensures d in s
    decreases Depth(p, d)
  {
    if d != a {
      StepUp(p, d);
      if p[d] != a {
        SubtreeStep(p, a, d);
        assert p[d] in p && Below(p, a, p[d]) by {
          StepUp(p, p[d]);
        }
        SubtreeIsLeast(p, a, s, p[d]);
      }
    }
  }

  // ----- How changes to the pointers treat the chains -----

  /** A chain that does not pass through w is untouched when only w's pointer changes. */
  lemma {:induction false} ChainAvoids(p: Parents, q: Parents, w: Id, id: Id)
    requires Rooted(p, id) && w !in Chain(p, id)
    requires forall x :: x in p && x != w ==> x in q && q[x] == p[x]
    ensures Rooted(q, id) && Chain(q, id) == Chain(p, id)
    decreases Depth(p, id)
  {
    if id == NOBODY {
      RootIsRooted(q);
    } else {
      StepUp(p, id);
      ChainAvoids(p, q, w, p[id]);
      StepDown(q, id);
      StepUp(q, id);
    }
  }

  /** Adding a fresh id under the root or under a registered id. */
  lemma {:induction false} AddKeepsForest(p: Parents, id: Id, parent: Id)
    requires IsForest(p) && id !in p && id != NOBODY && (parent == NOBODY || parent in p)
    ensures IsForest(p[id := parent])
  {
    var q := p[id := parent];
    RootIsRooted(p);
    forall x | x in p || x == NOBODY
      ensures Rooted(q, x)
    {
      ChainAvoids(p, q, id, x);
    }
    StepDown(q, id);
  }

  lemma {:induction false} RepointKeepsRooted(p: Parents, w: Id, parent: Id, x: Id)
    requires w in p && w != NOBODY && Rooted(p, x) && Rooted(p[w := parent], parent)
    ensures Rooted(p[w := parent], x)
    decreases Depth(p, x)
  {
    var q := p[w := parent];
    if x == NOBODY {
      RootIsRooted(q);
    } else {
      StepUp(p, x);
      if x != w {
        RepointKeepsRooted(p, w, parent, p[x]);
      }
      StepDown(q, x);
    }
  }

  /**
   Moving w under parent keeps the forest exactly when parent is the root, or a registered id
   that is neither w itself nor below it.
   */
  lemma {:induction false} RepointKeepsForest(p: Parents, w: Id, parent: Id)
    requires IsForest(p) && w in p
    ensures IsForest(p[w := parent]) <==>
            parent == NOBODY || (parent in p && parent != w && !Below(p, w, parent))
  {
    var q := p[w := parent];
    RootIsRooted(p);
    if parent == NOBODY || (parent in p && parent != w && !Below(p, w, parent)) {
      if parent != NOBODY {
        StepUp(p, parent);
      }
      ChainAvoids(p, q, w, parent);
      forall x | x in q
        ensures Rooted(q, x)
      {
        RepointKeepsRooted(p, w, parent, x);
      }
    } else if IsForest(q) {
      StepUp(q, w);
      StepUp(q, parent);
      if parent == w {
        assert false;
      } else {
        // w is above parent in p, and that stretch of the chain is still there in q.
        StepUp(p, parent);
        StillAbove(p, q, w, p[parent]);
        StepUp(q, parent);
        assert q[parent] == p[parent];
        ChainIsRooted(q, q[parent], w);
      }
    }
  }

  lemma {:induction false} StillAbove(p: Parents, q: Parents, w: Id, id: Id)
    requires Rooted(p, id) && w in Chain(p, id)
    requires forall x :: x in p && x != w ==> x in q && q[x] == p[x]
    requires Rooted(q, id)
    ensures w in Chain(q, id)
    decreases Depth(p, id)
  {
    StepUp(p, id);
    if id != w {
      StepUp(q, id);
      StillAbove(p, q, w, p[id]);
    }
  }

  /** Dropping ids whose children are dropped too leaves a forest with the same chains. */
  lemma {:induction false} DropKeepsForest(p: Parents, gone: set<Id>)
    requires IsForest(p)
    requires forall x :: x in p && p[x] in gone ==> x in gone
    ensures IsForest(p - gone)
    ensures forall x :: x in p - gone ==> Chain(p - gone, x) == Chain(p, x)
  {
    RootIsRooted(p - gone);
    forall x | x in p - gone
      ensures Rooted(p - gone, x) && Chain(p - gone, x) == Chain(p, x)
    {
      DropKeepsChain(p, gone, x);
    }
  }

  lemma {:induction false} DropKeepsChain(p: Parents, gone: set<Id>, x: Id)
    requires IsForest(p) && Rooted(p, x) && x !in gone
    requires forall y :: y in p && p[y] in gone ==> y in gone
    ensures Rooted(p - gone, x) && Chain(p - gone, x) == Chain(p, x)
    decreases Depth(p, x)
  {
    if x == NOBODY {
      RootIsRooted(p - gone);
    } else {
      StepUp(p, x);
      DropKeepsChain(p, gone, p[x]);
      StepDown(p - gone, x);
      StepUp(p - gone, x);
    }
  }

  // ----- Circles -----

  /** n parent steps lead from x to y. */
  ghost predicate Leads(p: Parents, x: Id, n: nat, y: Id)
    decreases n
  {
    if n == 0 then x == y else x in p && Leads(p, p[x], n - 1, y)
  }

  ghost predicate LeadsTo(p: Parents, x: Id, y: Id) {
    exists n: nat :: n > 0 && Leads(p, x, n, y)
  }

  /** x is part of a circle: following the pointers from x comes back to x. */
  ghost predicate OnCycle(p: Parents, x: Id) {
    LeadsTo(p, x, x)
  }

  lemma {:induction false} LeadsOn(p: Parents, x: Id, m: nat, y: Id, n: nat, z: Id)
    requires Leads(p, x, m, y) && Leads(p, y, n, z)
    ensures Leads(p, x, m + n, z)
    decreases m
  {
    if m > 0 {
      LeadsOn(p, p[x], m - 1, y, n, z);
    }
  }

  /** From anywhere on the way out of a circle the way leads back in. */
  lemma {:induction false} CycleReturns(p: Parents, x: Id, m: nat, y: Id)
    requires OnCycle(p, x) && Leads(p, x, m, y)
    ensures exists r: nat :: Leads(p, y, r, x)
    decreases m
  {
    var n: nat :| n > 0 && Leads(p, x, n, x);
    if m == 0 {
      assert Leads(p, y, 0, x);
    } else {
      assert Leads(p, p[x], n - 1, x) && Leads(p, x, 1, p[x]);
      LeadsOn(p, p[x], n - 1, x, 1, p[x]);
      assert OnCycle(p, p[x]);
      CycleReturns(p, p[x], m - 1, y);
      var r: nat :| Leads(p, y, r, p[x]);
      LeadsOn(p, y, r, p[x], n - 1, x);
    }
  }

  ghost predicate ClosedUp(p: Parents, s: set<Id>) {
    forall x {:trigger p[x]} :: x in s && x in p ==> p[x] in s
  }

  lemma {:induction false} ClosedUpLeads(p: Parents, s: set<Id>, x: Id, n: nat, y: Id)
    requires ClosedUp(p, s) && x in s && Leads(p, x, n, y)
    ensures y in s
    decreases n
  {
    if n > 0 {
      ClosedUpLeads(p, s, p[x], n - 1, y);
    }
  }

  /** Whatever leads into a closed set from outside it is on no circle. */
  lemma {:induction false} OutsideIsOnNoCycle(p: Parents, s: set<Id>, x: Id, n: nat, y: Id)
    requires ClosedUp(p, s) && Leads(p, x, n, y) && y in s && x !in s
    ensures !OnCycle(p, x)
  {
    if OnCycle(p, x) {
      CycleReturns(p, x, n, y);
      var r: nat :| Leads(p, y, r, x);
      ClosedUpLeads(p, s, y, r, x);
    }
  }

  lemma {:induction false} LeadsUp(p: Parents, x: Id, n: nat, y: Id)
    requires Rooted(p, x) && NOBODY !in p && Leads(p, x, n, y)
    ensures Rooted(p, y) && Depth(p, y) + n == Depth(p, x)
    decreases n
  {
    if n > 0 {
      StepUp(p, x);
      LeadsUp(p, p[x], n - 1, y);
    }
  }

  /** On a forest, being below somebody is that parent steps lead there. */
  lemma {:induction false} BelowIsLeading(p: Parents, a: Id, d: Id)
    requires IsForest(p) && a != NOBODY && d in p
    ensures Below(p, a, d) <==> LeadsTo(p, d, a)
  {
    StepUp(p, d);
    if Below(p, a, d) {
      var n := StepsTo(p, p[d], a);
      assert Leads(p, d, n + 1, a);
    } else if LeadsTo(p, d, a) {
      var n: nat :| n > 0 && Leads(p, d, n, a);
      OnTheChain(p, p[d], n - 1, a);
    }
  }

  lemma {:induction false} StepsTo(p: Parents, id: Id, a: Id) returns (n: nat)
    requires Rooted(p, id) && a in Chain(p, id)
    ensures Leads(p, id, n, a)
    decreases Depth(p, id)
  {
    if a == id {
      n := 0;
    } else {
      StepUp(p, id);
      n := StepsTo(p, p[id], a);
      n := n + 1;
    }
  }

  lemma {:induction false} OnTheChain(p: Parents, id: Id, n: nat, a: Id)
    requires NOBODY !in p && Rooted(p, id) && a != NOBODY && Leads(p, id, n, a)
    ensures a in Chain(p, id)
    decreases n
  {
    StepUp(p, id);
    if n > 0 {
      OnTheChain(p, p[id], n - 1, a);
    }
  }

  /** A chain reaches the root exactly if parent steps lead there. */
  lemma {:induction false} RootedIsLeading(p: Parents, id: Id)
    requires NOBODY !in p && id in p
    ensures Rooted(p, id) <==> LeadsTo(p, id, NOBODY)
  {
    if Rooted(p, id) {
      var n := StepsUp(p, id);
      assert n > 0 && Leads(p, id, n, NOBODY);
    } else if LeadsTo(p, id, NOBODY) {
      var n: nat :| n > 0 && Leads(p, id, n, NOBODY);
      LeadsToRoot(p, id, n);
    }
  }

  lemma {:induction false} StepsUp(p: Parents, id: Id) returns (n: nat)
    requires Rooted(p, id)
    ensures Leads(p, id, n, NOBODY) && (id != NOBODY ==> n > 0)
    decreases Depth(p, id)
  {
    if id == NOBODY {
      n := 0;
    } else {
      StepUp(p, id);
      n := StepsUp(p, p[id]);
      n := n + 1;
    }
  }

  lemma {:induction false} LeadsToRoot(p: Parents, id: Id, n: nat)
    requires NOBODY !in p && Leads(p, id, n, NOBODY)
    ensures Rooted(p, id)
    decreases n
  {
    if n == 0 {
      RootIsRooted(p);
    } else {
      LeadsToRoot(p, p[id], n - 1);
      StepDown(p, id);
    }
  }

  /** Climbing from x, where everybody in seen was met on the way. */
  lemma {:induction false} Climb(p: Parents, x: Id, seen: set<Id>)
    requires forall y :: y in p ==> p[y] == NOBODY || p[y] in p
    requires forall y :: y in p ==> !OnCycle(p, y)
    requires x == NOBODY || x in p
    requires seen <= p.Keys && forall y :: y in seen ==> LeadsTo(p, y, x)
    ensures Rooted(p, x)
    decreases p.Keys - seen
  {
    if x == NOBODY {
      RootIsRooted(p);
    } else {
      assert x !in seen;
      forall y | y in seen + {x}
        ensures LeadsTo(p, y, p[x])
      {
        var n: nat :| Leads(p, y, n, x) && (y == x || n > 0);
        LeadsOn(p, y, n, x, 1, p[x]);
      }
      Climb(p, p[x], seen + {x});
      StepDown(p, x);
    }
  }

  /** A chart is a forest exactly when nobody is the root, nobody dangles and nobody is on a circle. */
  lemma {:induction false} ForestHasNoCycle(p: Parents)
    ensures IsForest(p) <==>
            NOBODY !in p && (forall x :: x in p ==> (p[x] == NOBODY || p[x] in p) && !OnCycle(p, x))
  {
    if IsForest(p) {
      forall x | x in p
        ensures (p[x] == NOBODY || p[x] in p) && !OnCycle(p, x)
      {
        StepUp(p, x);
        if OnCycle(p, x) {
          var n: nat :| n > 0 && Leads(p, x, n, x);
          LeadsUp(p, x, n, x);
        }
        if p[x] != NOBODY {
          StepUp(p, p[x]);
        }
      }
    }
    if NOBODY !in p && (forall x :: x in p ==> (p[x] == NOBODY || p[x] in p) && !OnCycle(p, x)) {
      forall x | x in p
        ensures Rooted(p, x)
      {
        Climb(p, x, {});
      }
    }
  }

  /** The chart after everybody in kids has been moved under parent. */
  function Repoint(p: Parents, kids: set<Id>, parent: Id): (q: Parents)
    ensures q.Keys == p.Keys
  {
    map x | x in p :: if x in kids then parent else p[x]
  }

  /** Moving any of id's children to id's own parent keeps the forest. */
  lemma {:induction false} ReparentKeepsForest(p: Parents, id: Id, kids: set<Id>)
    requires IsForest(p) && id in p && forall k :: k in kids ==> k in p && p[k] == id
    ensures IsForest(Repoint(p, kids, p[id]))
  {
    forall x | x in p
      ensures Rooted(Repoint(p, kids, p[id]), x)
    {
      ReparentKeepsRooted(p, id, kids, x);
    }
  }

  lemma {:induction false} ReparentKeepsRooted(p: Parents, id: Id, kids: set<Id>, x: Id)
    requires IsForest(p) && id in p && forall k :: k in kids ==> k in p && p[k] == id
    requires Rooted(p, x)
    ensures Rooted(Repoint(p, kids, p[id]), x)
    decreases Depth(p, x)
  {
    var q := Repoint(p, kids, p[id]);
    if x == NOBODY {
      RootIsRooted(q);
    } else {
      StepUp(p, x);
      if x in kids {
        StepUp(p, id);
        ReparentKeepsRooted(p, id, kids, p[id]);
      } else {
        ReparentKeepsRooted(p, id, kids, p[x]);
      }
      StepDown(q, x);
    }
  }

  /** A chain in part of the pointers is a chain in all of them. */
  lemma {:induction false} PartIsRooted(part: Parents, p: Parents, x: Id)
    requires Rooted(part, x) && forall y :: y in part ==> y in p && p[y] == part[y]
    ensures Rooted(p, x)
    decreases Depth(part, x)
  {
    if x == NOBODY {
      RootIsRooted(p);
    } else {
      StepUp(part, x);
      PartIsRooted(part, p, part[x]);
      StepDown(p, x);
    }
  }

  /** If every rooted id left out has a parent that is left out too, no rooted id is left out. */
  lemma {:induction false} NothingLeftOut(p: Parents, added: set<Id>, x: Id)
    requires Rooted(p, x) && x != NOBODY
    requires forall y :: y in p && y !in added ==> p[y] != NOBODY && p[y] !in added
    ensures x in added
    decreases Depth(p, x)
  {
    StepUp(p, x);
    if x !in added {
      NothingLeftOut(p, added, p[x]);
    }
  }
}
