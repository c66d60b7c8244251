/** The plan board of pkg/reporting/aggregate.go. */
module Board {
  import opened Wrappers
  import opened Sorting
  import Text

  datatype Item = Item(
    id: string,
    title: string,
    state: string,
    lane: string,
    owner: string,
    due: Option<int>,
    size: real,
    blockedBy: seq<string>,
    horizon: string,
    commitment: string,
    level: string,
    scope: string,
    definition: string
  )
  {
    predicate Blocked() {
      |blockedBy| > 0
    }
  }

  datatype PlanFacet = PlanFacet(states: seq<string>, commitments: seq<string>) {

    predicate Terminal(state: string) {
      states != [] && state == states[|states| - 1]
    }

    /** The declared index of a state, or -1. */
    function StateRank(state: string): int {
      IndexOf(states, state, 0, -1)
    }
  }

  /** The first place of x in names from i on, or what stands for "not there". */
  function IndexOf(names: seq<string>, x: string, i: nat, missing: int): int
    requires i <= |names|
    decreases |names| - i
  {
    if i == |names| then missing else if names[i] == x then i else IndexOf(names, x, i + 1, missing)
  }

  /** Undeclared commitments go after all declared ones. */
  function CommitmentRank(facet: PlanFacet, c: string): int {
    IndexOf(facet.commitments, c, 0, |facet.commitments| + 1)
  }

  predicate ItemLess(facet: PlanFacet, a: Item, b: Item) {
    var at, bt := facet.Terminal(a.state), facet.Terminal(b.state);
    if at != bt then bt
    else if a.Blocked() != b.Blocked() then a.Blocked()
    else
      var ac, bc := CommitmentRank(facet, a.commitment), CommitmentRank(facet, b.commitment);
      if ac != bc then ac < bc
      else if a.due.Some? && b.due.None? then true
      else if a.due.None? && b.due.Some? then false
      else if a.due.Some? && b.due.Some? && a.due.value != b.due.value then a.due.value < b.due.value
      else
        var ar, br := facet.StateRank(a.state), facet.StateRank(b.state);
        if ar != br then ar < br
        else if a.scope != b.scope then Text.Less(a.scope, b.scope)
        else Text.Less(a.id, b.id)
  }

  function ItemOrder(facet: PlanFacet): (Item, Item) -> bool {
    (a, b) => ItemLess(facet, a, b)
  }

  // ----- The order -----

  lemma {:induction false} ItemLessIsOneWay(facet: PlanFacet, a: Item, b: Item)
    ensures ItemLess(facet, a, b) ==> !ItemLess(facet, b, a)
  {
    if Text.Less(a.scope, b.scope) { Text.LessIsOneWay(a.scope, b.scope); }
    if Text.Less(a.id, b.id) { Text.LessIsOneWay(a.id, b.id); }
  }

  lemma {:induction false} ItemLessIsTransitive(facet: PlanFacet, a: Item, b: Item, c: Item)
    requires ItemLess(facet, a, b) && ItemLess(facet, b, c)
    ensures ItemLess(facet, a, c)
  {
    if Text.Less(a.scope, b.scope) && Text.Less(b.scope, c.scope) {
      Text.LessIsTransitive(a.scope, b.scope, c.scope);
      Text.LessIsOneWay(a.scope, c.scope);
    }
    if Text.Less(a.id, b.id) && Text.Less(b.id, c.id) {
      Text.LessIsTransitive(a.id, b.id, c.id);
    }
  }

  /** The seven keys tell any two items apart that do not share both scope and id. */
  lemma {:induction false} ItemLessIsTotal(facet: PlanFacet, a: Item, b: Item)
    requires a.scope != b.scope || a.id != b.id
    ensures ItemLess(facet, a, b) || ItemLess(facet, b, a)
  {
    Text.LessIsTotal(a.scope, b.scope);
    Text.LessIsTotal(a.id, b.id);
  }

  /** All seven keys are equal. */
  predicate Tied(facet: PlanFacet, a: Item, b: Item) {
    && facet.Terminal(a.state) == facet.Terminal(b.state)
    && a.Blocked() == b.Blocked()
    && CommitmentRank(facet, a.commitment) == CommitmentRank(facet, b.commitment)
    && a.due == b.due
    && facet.StateRank(a.state) == facet.StateRank(b.state)
    && a.scope == b.scope
    && a.id == b.id
  }

  lemma {:induction false} TiedExactly(facet: PlanFacet, a: Item, b: Item)
    ensures Tied(facet, a, b) <==> !ItemLess(facet, a, b) && !ItemLess(facet, b, a)
  {
    Text.LessIsTotal(a.scope, b.scope);
    Text.LessIsTotal(a.id, b.id);
    Text.LessIsIrreflexive(a.id);
  }

  lemma {:induction false} ItemLessSteps(facet: PlanFacet, a: Item, b: Item, c: Item)
    ensures Steps(ItemOrder(facet), a, b, c)
  {
    TiedExactly(facet, a, b);
    TiedExactly(facet, b, c);
    TiedExactly(facet, a, c);
    if ItemLess(facet, a, c) && !ItemLess(facet, a, b) && !ItemLess(facet, b, c) {
      if Tied(facet, a, b) {
        TiedLess(facet, a, b, c);
      } else if Tied(facet, b, c) {
        TiedMore(facet, a, b, c);
      } else {
        ItemLessIsTransitive(facet, c, b, a);
        ItemLessIsOneWay(facet, a, c);
      }
    }
  }

  lemma {:induction false} TiedLess(facet: PlanFacet, a: Item, b: Item, c: Item)
    requires Tied(facet, a, b)
    ensures ItemLess(facet, a, c) == ItemLess(facet, b, c)
  {
  }

  lemma {:induction false} TiedMore(facet: PlanFacet, a: Item, b: Item, c: Item)
    requires Tied(facet, b, c)
    ensures ItemLess(facet, a, b) == ItemLess(facet, a, c)
  {
  }

  lemma {:induction false} ItemOrderIsWeak(facet: PlanFacet)
    ensures WeakOrder(ItemOrder(facet))
  {
    var less := ItemOrder(facet);
    forall a, b
      ensures OneWay(less, a, b)
    {
      ItemLessIsOneWay(facet, a, b);
    }
    forall a, b, c
      ensures Steps(less, a, b, c)
    {
      ItemLessSteps(facet, a, b, c);
    }
  }

  // ----- What goes before what -----

  /** The place of a declared name is its first; an undeclared one has the number given for it. */
  lemma {:induction false} IndexIsFirst(names: seq<string>, x: string, i: nat, missing: int)
    requires i <= |names|
    ensures var k := IndexOf(names, x, i, missing);
            && (x in names[i..] ==> i <= k < |names| && names[k] == x && x !in names[i..k])
            && (x !in names[i..] ==> k == missing)
    decreases |names| - i
  {
    if i < |names| {
      assert names[i..] == [names[i]] + names[i + 1..];
      if names[i] != x {
        IndexIsFirst(names, x, i + 1, missing);
        var k := IndexOf(names, x, i + 1, missing);
        if x in names[i + 1..] {
          assert names[i..k] == [names[i]] + names[i + 1..k];
        }
      }
    }
  }

  /** Commitments rank as they are declared, and undeclared ones after them all. */
  lemma {:induction false} CommitmentRankIs(facet: PlanFacet, c: string)
    ensures var names, rank := facet.commitments, CommitmentRank(facet, c);
            && (c in names ==> 0 <= rank < |names| && names[rank] == c && c !in names[..rank])
            && (c !in names ==> forall d :: d in names ==> CommitmentRank(facet, d) < rank)
            && (c !in names ==> forall d :: d !in names ==> CommitmentRank(facet, d) == rank)
  {
    var names := facet.commitments;
    assert names[0..] == names;
    forall d
      ensures d in names ==> CommitmentRank(facet, d) < |names|
      ensures d !in names ==> CommitmentRank(facet, d) == |names| + 1
    {
      IndexIsFirst(names, d, 0, |names| + 1);
    }
    IndexIsFirst(names, c, 0, |names| + 1);
    if c in names { assert names[0..CommitmentRank(facet, c)] == names[..CommitmentRank(facet, c)]; }
  }

  /** States rank as they are declared, and undeclared ones before them all. */
  lemma {:induction false} StateRankIs(facet: PlanFacet, state: string)
    ensures var names, rank := facet.states, facet.StateRank(state);
            && (state in names ==> 0 <= rank < |names| && names[rank] == state && state !in names[..rank])
            && (state !in names ==> rank == -1)
  {
    assert facet.states[0..] == facet.states;
    IndexIsFirst(facet.states, state, 0, -1);
    if state in facet.states {
      var rank := facet.StateRank(state);
      assert facet.states[0..rank] == facet.states[..rank];
    }
  }

  /** Whether the item's state is the last that is declared. */
  predicate Finished(facet: PlanFacet, it: Item) {
    |facet.states| > 0 && facet.states[|facet.states| - 1] == it.state
  }

  /** Unfinished before finished, whatever else. */
  lemma {:induction false} UnfinishedFirst(facet: PlanFacet, a: Item, b: Item)
    requires !Finished(facet, a) && Finished(facet, b)
    ensures ItemLess(facet, a, b) && !ItemLess(facet, b, a)
  {
  }

  /** Then what something blocks. */
  lemma {:induction false} BlockedFirst(facet: PlanFacet, a: Item, b: Item)
    requires Finished(facet, a) == Finished(facet, b)
    requires a.blockedBy != [] && b.blockedBy == []
    ensures ItemLess(facet, a, b) && !ItemLess(facet, b, a)
  {
  }

  /** The first two keys are equal. */
  predicate Alike(facet: PlanFacet, a: Item, b: Item) {
    Finished(facet, a) == Finished(facet, b) && (a.blockedBy == [] <==> b.blockedBy == [])
  }

  /** Then the commitment declared first, and declared ones before undeclared ones. */
  lemma {:induction false} CommittedFirst(facet: PlanFacet, a: Item, b: Item, i: nat)
    requires Alike(facet, a, b)
    requires i < |facet.commitments| && facet.commitments[i] == a.commitment
    requires b.commitment !in facet.commitments[..i + 1]
    ensures ItemLess(facet, a, b) && !ItemLess(facet, b, a)
  {
    var names := facet.commitments;
    CommitmentRankIs(facet, a.commitment);
    CommitmentRankIs(facet, b.commitment);
    assert a.commitment in names;
    assert a.commitment !in names[..CommitmentRank(facet, a.commitment)];
    assert b.commitment in names ==> names[CommitmentRank(facet, b.commitment)] !in names[..i + 1];
  }

  /** The commitments, too, are equal or both undeclared. */
  predicate AlikeCommitted(facet: PlanFacet, a: Item, b: Item) {
    && Alike(facet, a, b)
    && (a.commitment == b.commitment || (a.commitment !in facet.commitments && b.commitment !in facet.commitments))
  }

  lemma {:induction false} SameCommitmentRank(facet: PlanFacet, a: Item, b: Item)
    requires AlikeCommitted(facet, a, b)
    ensures CommitmentRank(facet, a.commitment) == CommitmentRank(facet, b.commitment)
  {
    CommitmentRankIs(facet, a.commitment);
  }

  /** Then what has a due date, and of two the earlier. */
  lemma {:induction false} DueFirst(facet: PlanFacet, a: Item, b: Item)
    requires AlikeCommitted(facet, a, b)
    requires a.due.Some? && (b.due.None? || a.due.value < b.due.value)
    ensures ItemLess(facet, a, b) && !ItemLess(facet, b, a)
  {
    SameCommitmentRank(facet, a, b);
  }

  /** Then the state declared first, and undeclared ones before declared ones. */
  lemma {:induction false} EarlierStateFirst(facet: PlanFacet, a: Item, b: Item, j: nat)
    requires AlikeCommitted(facet, a, b) && a.due == b.due
    requires j < |facet.states| && facet.states[j] == b.state && b.state !in facet.states[..j] && a.state != b.state
    requires a.state !in facet.states || a.state in facet.states[..j]
    ensures ItemLess(facet, a, b) && !ItemLess(facet, b, a)
  {
    var names := facet.states;
    SameCommitmentRank(facet, a, b);
    StateRankIs(facet, a.state);
    StateRankIs(facet, b.state);
    assert b.state in names;
    assert b.state !in names[..facet.StateRank(b.state)] && names[facet.StateRank(b.state)] !in names[..j];
    assert a.state in names ==> a.state !in names[..facet.StateRank(a.state)];
  }

  /** Then by scope, and last by id. */
  lemma {:induction false} ScopeThenId(facet: PlanFacet, a: Item, b: Item)
    requires AlikeCommitted(facet, a, b) && a.due == b.due
    requires a.state == b.state || (a.state !in facet.states && b.state !in facet.states)
    ensures ItemLess(facet, a, b) <==> Text.Less(a.scope, b.scope) || (a.scope == b.scope && Text.Less(a.id, b.id))
  {
    SameCommitmentRank(facet, a, b);
    StateRankIs(facet, a.state);
    StateRankIs(facet, b.state);
    Text.LessIsIrreflexive(a.scope);
  }

  // ----- Merging -----

  /** The board: sorted, and cut when there is a limit. */
  function BoardOf(facet: PlanFacet, limit: int, items: seq<Item>): seq<Item> {
    var sorted := StableSort(ItemOrder(facet), items);
    if limit > 0 && |sorted| > limit then sorted[..limit] else sorted
  }

  method MergeItems(facet: PlanFacet, limit: int, batches: seq<seq<Item>>) returns (out: seq<Item>)
    ensures out == BoardOf(facet, limit, Concat(batches))
  {
    out := [];
    for i := 0 to |batches|
      invariant out + Concat(batches[i..]) == Concat(batches)
    {
      assert batches[i..] == [batches[i]] + batches[i + 1..];
      out := out + batches[i];
    }
    assert batches[|batches|..] == [] && out + Concat([]) == out;
    out := StableSort(ItemOrder(facet), out);
    if limit > 0 && |out| > limit {
      out := out[..limit];
    }
  }

  /** On a board nothing stands behind what goes after it, and no item that is cut off goes before one that is kept. */
  lemma {:induction false} BoardIsOrdered(facet: PlanFacet, limit: int, items: seq<Item>, i: nat, j: nat)
    requires i < j < |items| && i < |BoardOf(facet, limit, items)|
    ensures var all, board := BoardOf(facet, 0, items), BoardOf(facet, limit, items);
            && multiset(all) == multiset(items) && board <= all && j < |all|
            && |board| == (if limit > 0 && |items| > limit then limit else |items|)
            && !ItemLess(facet, all[j], all[i])
            && !(Finished(facet, all[i]) && !Finished(facet, all[j]))
            && (AlikeCommitted(facet, all[i], all[j]) && all[j].due.Some? ==>
                  all[i].due.Some? && all[i].due.value <= all[j].due.value)
  {
    var all := BoardOf(facet, 0, items);
    ItemOrderIsWeak(facet);
    SortPermutes(ItemOrder(facet), items);
    SortIsSorted(ItemOrder(facet), items);
    assert !ItemLess(facet, all[j], all[i]);
    if Finished(facet, all[i]) && !Finished(facet, all[j]) {
      UnfinishedFirst(facet, all[j], all[i]);
    }
    if AlikeCommitted(facet, all[i], all[j]) && all[j].due.Some?
      && (all[i].due.None? || all[j].due.value < all[i].due.value)
    {
      DueFirst(facet, all[j], all[i]);
    }
  }

  /** No two items share both scope and id, and none is there twice. */
  ghost predicate DistinctItems(items: multiset<Item>) {
    forall a, b :: a in items && b in items && a.scope == b.scope && a.id == b.id ==> a == b && items[a] == 1
  }

  /** A board depends on which items there are, not on the batches they came in or their order. */
  lemma {:induction false} BoardIgnoresOrder(facet: PlanFacet, limit: int, batches: seq<seq<Item>>,
      others: seq<seq<Item>>)
    requires multiset(Concat(batches)) == multiset(Concat(others)) && DistinctItems(multiset(Concat(batches)))
    ensures BoardOf(facet, limit, Concat(batches)) == BoardOf(facet, limit, Concat(others))
  {
    var less, all := ItemOrder(facet), multiset(Concat(batches));
    ItemOrderIsWeak(facet);
    forall a, b | a in all && b in all && !less(a, b) && !less(b, a)
      ensures a == b && all[a] == 1
    {
      TiedExactly(facet, a, b);
    }
    SortIgnoresOrder(less, Concat(batches), Concat(others));
  }

  /** Every batch as a board of its own. */
  function Boards(facet: PlanFacet, limit: int, batches: seq<seq<Item>>): seq<seq<Item>> {
    if batches == [] then [] else [BoardOf(facet, limit, batches[0])] + Boards(facet, limit, batches[1..])
  }

  lemma {:induction false} BoardsAreCuts(facet: PlanFacet, limit: nat, batches: seq<seq<Item>>)
    requires limit > 0
    ensures Boards(facet, limit, batches) == CutAll(ItemOrder(facet), limit, batches)
  {
    if batches != [] {
      BoardsAreCuts(facet, limit, batches[1..]);
      assert BoardOf(facet, limit, batches[0]) == First(limit, StableSort(ItemOrder(facet), batches[0]));
    }
  }

  /** Merging boards that are each cut to the limit already gives the board of everything. Ties included. */
  lemma {:induction false} MergingCutBoards(facet: PlanFacet, limit: nat, batches: seq<seq<Item>>)
    requires limit > 0
    ensures BoardOf(facet, limit, Concat(Boards(facet, limit, batches))) == BoardOf(facet, limit, Concat(batches))
  {
    ItemOrderIsWeak(facet);
    BoardsAreCuts(facet, limit, batches);
    CutMerges(ItemOrder(facet), limit, batches);
  }

  // ----- Bounding -----

  datatype Policy = Sample(n: int) | Top(n: int) | Other

  const PLAN_ITEM_CAP := 500

  function OfState(state: string): Item -> bool {
    (it: Item) => it.state == state
  }

  /** Sampling keeps the first n of every state, top the first n, anything else the first 500. */
  ghost predicate Bounded(policy: Policy, ordered: seq<Item>, out: seq<Item>) {
    match policy
    case Sample(n) =>
      if n <= 0 then out == ordered
      else Subsequence(out, ordered)
           && forall state :: Filter(OfState(state), out) == First(n, Filter(OfState(state), ordered))
    case Top(n) => out == if n > 0 then First(n, ordered) else ordered
    case Other => out == First(PLAN_ITEM_CAP, ordered)
  }

  /** Whatever the policy, the items kept are in board order; sampling takes the first of each state. */
  lemma {:induction false} BoundedMeans(policy: Policy, ordered: seq<Item>, out: seq<Item>, state: string)
    requires Bounded(policy, ordered, out)
    ensures policy.Other? ==> out == if |ordered| > 500 then ordered[..500] else ordered
    ensures policy.Top? ==> out == if 0 < policy.n < |ordered| then ordered[..policy.n] else ordered
    ensures policy.Sample? && policy.n <= 0 ==> out == ordered
    ensures policy.Sample? && policy.n > 0 ==>
              var keep := (it: Item) => it.state == state;
              && Subsequence(out, ordered) && Filter(keep, out) <= Filter(keep, ordered)
              && |Filter(keep, out)| == if |Filter(keep, ordered)| > policy.n then policy.n else |Filter(keep, ordered)|
  {
    if policy.Sample? && policy.n > 0 {
      var keep := (it: Item) => it.state == state;
      FilterAgrees(keep, OfState(state), out);
      FilterAgrees(keep, OfState(state), ordered);
    }
  }

  lemma {:induction false} FilterAgrees(keep: Item -> bool, other: Item -> bool, s: seq<Item>)
    requires forall it :: keep(it) == other(it)
    ensures Filter(keep, s) == Filter(other, s)
  {
    if s != [] {
      FilterAgrees(keep, other, s[1..]);
    }
  }

  method BoundItems(policy: Policy, ordered: seq<Item>) returns (out: seq<Item>)
    ensures Bounded(policy, ordered, out)
  {
    match policy
    case Sample(n) =>
      if n <= 0 {
        return ordered;
      }
      out := SampleItems(n, ordered);
    case Top(n) =>
      if n > 0 && |ordered| > n {
        return ordered[..n];
      }
      return ordered;
    case Other =>
      if |ordered| > PLAN_ITEM_CAP {
        return ordered[..PLAN_ITEM_CAP];
      }
      return ordered;
  }

  /** out has the first n of every state of seen, and per counts them. */
  ghost predicate Sampled(n: nat, seen: seq<Item>, out: seq<Item>, per: map<string, int>) {
    && Subsequence(out, seen)
    && forall state {:trigger OfState(state)} ::
         && Filter(OfState(state), out) == First(n, Filter(OfState(state), seen))
         && |Filter(OfState(state), out)| == if state in per then per[state] else 0
  }

  method SampleItems(n: int, ordered: seq<Item>) returns (out: seq<Item>)
    requires n > 0
    ensures forall state :: Filter(OfState(state), out) == First(n, Filter(OfState(state), ordered))
    ensures Subsequence(out, ordered)
  {
    out := [];
    var per: map<string, int> := map[];
    for i := 0 to |ordered|
      invariant Sampled(n, ordered[..i], out, per)
    {
      var it := ordered[i];
      assert ordered[..i + 1] == ordered[..i] + [it];
      SampleStep(n, ordered[..i], out, per, it);
      var had := if it.state in per then per[it.state] else 0;
      if had >= n {
        continue;
      }
      per := per[it.state := had + 1];
      out := out + [it];
    }
    assert ordered[..|ordered|] == ordered;
  }

  lemma {:induction false} SampleStep(n: nat, seen: seq<Item>, out: seq<Item>, per: map<string, int>, it: Item)
    requires n > 0 && Sampled(n, seen, out, per)
    ensures var had := if it.state in per then per[it.state] else 0;
            if had >= n then Sampled(n, seen + [it], out, per)
            else Sampled(n, seen + [it], out + [it], per[it.state := had + 1])
  {
    SubsequenceGrows(out, seen, it);
    forall state
      ensures var keep, had := OfState(state), if it.state in per then per[it.state] else 0;
              && Filter(keep, if had >= n then out else out + [it]) == First(n, Filter(keep, seen + [it]))
              && (state != it.state ==> Filter(keep, out + [it]) == Filter(keep, out))
              && (state == it.state ==> |Filter(keep, out + [it])| == |Filter(keep, out)| + 1)
    {
      SampleStepIn(n, seen, out, it, state);
    }
  }

  lemma {:induction false} SampleStepIn(n: nat, seen: seq<Item>, out: seq<Item>, it: Item, state: string)
    requires n > 0 && Filter(OfState(state), out) == First(n, Filter(OfState(state), seen))
    ensures it.state != state || |Filter(OfState(state), out)| >= n ==>
              Filter(OfState(state), out) == First(n, Filter(OfState(state), seen + [it]))
    ensures it.state != state || |Filter(OfState(state), out)| < n ==>
              Filter(OfState(state), out + [it]) == First(n, Filter(OfState(state), seen + [it]))
    ensures |Filter(OfState(state), out + [it])| == |Filter(OfState(state), out)| + if it.state == state then 1 else 0
    ensures it.state != state ==> Filter(OfState(state), out + [it]) == Filter(OfState(state), out)
  {
    FilterSnoc(OfState(state), out, it);
    FilterSnoc(OfState(state), seen, it);
  }

  lemma {:induction false} SubsequenceGrows<T>(s: seq<T>, t: seq<T>, x: T)
    requires Subsequence(s, t)
    ensures Subsequence(s, t + [x]) && Subsequence(s + [x], t + [x])
    decreases |t|
  {
    if t == [] {
      assert s + [x] == [x] && t + [x] == [x];
      assert [x][1..] == [];
    } else {
      assert (t + [x])[1..] == t[1..] + [x];
      if s != [] && s[0] == t[0] && Subsequence(s[1..], t[1..]) {
        SubsequenceGrows(s[1..], t[1..], x);
        assert (s + [x])[1..] == s[1..] + [x];
      } else {
        SubsequenceGrows(s, t[1..], x);
      }
    }
  }

  /** s is what is left of t when some elements are dropped. */
  ghost predicate Subsequence<T>(s: seq<T>, t: seq<T>) {
    s == [] || (t != [] && ((s[0] == t[0] && Subsequence(s[1..], t[1..])) || Subsequence(s, t[1..])))
  }
}
