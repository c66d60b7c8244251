/**
 The plan view of AggregatePlanIn in pkg/reporting/aggregate.go: all items of the contributors counted into columns
 by state and into buckets by lane, horizon and commitment, and the first of them, in board order, kept to be shown.
 */
module PlanView {
  import opened Sorting
  import opened Board

  datatype Column = Column(state: string, limit: int, items: nat, size: real, shown: nat)

  datatype Bucket = Bucket(name: string, items: nat, size: real)

  datatype Field = State | Lane | Horizon | Commitment

  function Get(field: Field, it: Item): string {
    match field
    case State => it.state
    case Lane => it.lane
    case Horizon => it.horizon
    case Commitment => it.commitment
  }

  /** How many items have that value in that field. */
  function Count(field: Field, value: string, items: seq<Item>): (n: nat)
    ensures n <= |items|
  {
    if items == [] then 0
    else Count(field, value, items[..|items| - 1]) + if Get(field, items[|items| - 1]) == value then 1 else 0
  }

  function Size(field: Field, value: string, items: seq<Item>): real {
    if items == [] then 0.0
    else
      var last := items[|items| - 1];
      Size(field, value, items[..|items| - 1]) + if Get(field, last) == value then last.size else 0.0
  }

  function BlockedIn(items: seq<Item>): nat {
    if items == [] then 0 else BlockedIn(items[..|items| - 1]) + if items[|items| - 1].Blocked() then 1 else 0
  }

  /** A state listed twice gets its items in the last of its columns. */
  predicate IsLast(states: seq<string>, i: nat) {
    i < |states| && forall j :: i < j < |states| ==> states[j] != states[i]
  }

  /** The columns of n items, of which m are shown. */
  function Columns(states: seq<string>, limits: seq<int>, items: seq<Item>, kept: seq<Item>): (cs: seq<Column>)
    requires |limits| == |states|
    ensures |cs| == |states|
  {
    seq(|states|, i requires 0 <= i < |states| =>
      if IsLast(states, i) then
        Column(states[i], limits[i], Count(State, states[i], items), Size(State, states[i], items),
               Count(State, states[i], kept))
      else Column(states[i], limits[i], 0, 0.0, 0))
  }

  /** A bucket of a field: items that leave the field empty are in none. */
  function BucketOf(field: Field, name: string, items: seq<Item>): Bucket {
    if name == "" then Bucket("", 0, 0.0) else Bucket(name, Count(field, name, items), Size(field, name, items))
  }

  function Buckets(field: Field, names: seq<string>, items: seq<Item>): (bs: seq<Bucket>)
    ensures |bs| == |names|
  {
    seq(|names|, i requires 0 <= i < |names| => BucketOf(field, names[i], items))
  }

  // ----- The loops -----

  /** Where each state's items are counted. */
  ghost predicate ByState(states: seq<string>, byState: map<string, nat>) {
    && (forall st :: st in byState <==> st in states)
    && (forall st :: st in byState ==> IsLast(states, byState[st]) && states[byState[st]] == st)
  }

  method IndexStates(states: seq<string>) returns (byState: map<string, nat>)
    ensures ByState(states, byState)
  {
    byState := map[];
    for i := 0 to |states|
      invariant ByState(states[..i], byState)
    {
      assert states[..i + 1] == states[..i] + [states[i]];
      byState := byState[states[i] := i];
    }
    assert states[..|states|] == states;
  }

  method TallyColumns(states: seq<string>, limits: seq<int>, all: seq<Item>) returns (columns: seq<Column>)
    requires |limits| == |states|
    ensures columns == Columns(states, limits, all, [])
  {
    columns := Columns(states, limits, [], []);
    var byState := IndexStates(states);
    for n := 0 to |all|
      invariant columns == Columns(states, limits, all[..n], [])
    {
      var it := all[n];
      assert all[..n + 1][..n] == all[..n];
      OneMoreItem(states, limits, all[..n], [], it, byState);
      if it.state in byState {
        var i := byState[it.state];
        columns := columns[i := columns[i].(items := columns[i].items + 1, size := columns[i].size + it.size)];
      }
    }
    assert all[..|all|] == all;
  }

  method CountShown(states: seq<string>, limits: seq<int>, all: seq<Item>, kept: seq<Item>, tallied: seq<Column>)
    returns (columns: seq<Column>)
    requires |limits| == |states| && tallied == Columns(states, limits, all, [])
    ensures columns == Columns(states, limits, all, kept)
  {
    columns := tallied;
    var byState := IndexStates(states);
    for n := 0 to |kept|
      invariant columns == Columns(states, limits, all, kept[..n])
    {
      assert kept[..n + 1][..n] == kept[..n];
      OneMoreShown(states, limits, all, kept[..n], kept[n], byState);
      if kept[n].state in byState {
        var i := byState[kept[n].state];
        columns := columns[i := columns[i].(shown := columns[i].shown + 1)];
      }
    }
    assert kept[..|kept|] == kept;
  }

  lemma {:induction false} OneMoreItem(states: seq<string>, limits: seq<int>, items: seq<Item>, kept: seq<Item>,
      it: Item, byState: map<string, nat>)
    requires |limits| == |states| && ByState(states, byState)
    ensures var cs, cs' := Columns(states, limits, items, kept), Columns(states, limits, items + [it], kept);
            if it.state in byState then
              var i := byState[it.state];
              i < |cs| && cs' == cs[i := cs[i].(items := cs[i].items + 1, size := cs[i].size + it.size)]
            else cs' == cs
  {
    assert (items + [it])[..|items|] == items;
    CountsOneMore(states, items, it);
  }

  lemma {:induction false} OneMoreShown(states: seq<string>, limits: seq<int>, items: seq<Item>, kept: seq<Item>,
      it: Item, byState: map<string, nat>)
    requires |limits| == |states| && ByState(states, byState)
    ensures var cs, cs' := Columns(states, limits, items, kept), Columns(states, limits, items, kept + [it]);
            if it.state in byState then
              var i := byState[it.state];
              i < |cs| && cs' == cs[i := cs[i].(shown := cs[i].shown + 1)]
            else cs' == cs
  {
    assert (kept + [it])[..|kept|] == kept;
    CountsOneMore(states, kept, it);
  }

  lemma {:induction false} CountsOneMore(states: seq<string>, items: seq<Item>, it: Item)
    ensures forall st :: Count(State, st, items + [it]) == Count(State, st, items) + if it.state == st then 1 else 0
    ensures forall st ::
              Size(State, st, items + [it]) == Size(State, st, items) + if it.state == st then it.size else 0.0
  {
    assert (items + [it])[..|items|] == items;
  }

  // ----- Conservation -----

  function TotalItems(columns: seq<Column>): nat {
    if columns == [] then 0 else TotalItems(columns[..|columns| - 1]) + columns[|columns| - 1].items
  }

  /** How many items are in a declared state. */
  function Declared(states: seq<string>, items: seq<Item>): (n: nat)
    ensures n <= |items|
  {
    if items == [] then 0
    else Declared(states, items[..|items| - 1]) + if items[|items| - 1].state in states then 1 else 0
  }

  lemma {:induction false} TotalOfUpdate(columns: seq<Column>, i: nat, c: Column)
    requires i < |columns| && c.items == columns[i].items + 1
    ensures TotalItems(columns[i := c]) == TotalItems(columns) + 1
  {
    var n := |columns| - 1;
    if i == n {
      assert columns[i := c][..n] == columns[..n];
    } else {
      TotalOfUpdate(columns[..n], i, c);
      assert columns[i := c][..n] == columns[..n][i := c];
    }
  }

  lemma {:induction false} TotalOfNothing(columns: seq<Column>)
    requires forall i :: 0 <= i < |columns| ==> columns[i].items == 0
    ensures TotalItems(columns) == 0
  {
    if columns != [] {
      TotalOfNothing(columns[..|columns| - 1]);
    }
  }

  lemma {:induction false} StatesAreIndexed(states: seq<string>) returns (byState: map<string, nat>)
    ensures ByState(states, byState)
  {
    byState := map[];
    if states != [] {
      var n := |states| - 1;
      byState := StatesAreIndexed(states[..n]);
      assert states == states[..n] + [states[n]];
      byState := byState[states[n] := n];
    }
  }

  /** The columns together hold every item in a declared state exactly once, even if a state is declared twice. */
  lemma {:induction false} ColumnsConserve(states: seq<string>, limits: seq<int>, items: seq<Item>, kept: seq<Item>)
    requires |limits| == |states|
    ensures TotalItems(Columns(states, limits, items, kept)) == Declared(states, items)
  {
    if items == [] {
      TotalOfNothing(Columns(states, limits, items, kept));
    } else {
      var n := |items| - 1;
      ColumnsConserve(states, limits, items[..n], kept);
      OneMoreIsHeld(states, limits, items[..n], kept, items[n]);
      assert items == items[..n] + [items[n]];
    }
  }

  lemma {:induction false} OneMoreIsHeld(states: seq<string>, limits: seq<int>, items: seq<Item>, kept: seq<Item>,
      it: Item)
    requires |limits| == |states|
    ensures TotalItems(Columns(states, limits, items + [it], kept)) ==
            TotalItems(Columns(states, limits, items, kept)) + if it.state in states then 1 else 0
  {
    var cs := Columns(states, limits, items, kept);
    var byState := StatesAreIndexed(states);
    OneMoreItem(states, limits, items, kept, it, byState);
    if it.state in byState {
      var i := byState[it.state];
      TotalOfUpdate(cs, i, cs[i].(items := cs[i].items + 1, size := cs[i].size + it.size));
    }
  }

  /** The field a count looks at, by its name. */
  lemma {:induction false} CountsAre(value: string, items: seq<Item>)
    ensures Count(State, value, items) == |Filter((it: Item) => it.state == value, items)|
    ensures Count(Lane, value, items) == |Filter((it: Item) => it.lane == value, items)|
    ensures Count(Horizon, value, items) == |Filter((it: Item) => it.horizon == value, items)|
    ensures Count(Commitment, value, items) == |Filter((it: Item) => it.commitment == value, items)|
    ensures BlockedIn(items) == |Filter((it: Item) => it.blockedBy != [], items)|
  {
    if items != [] {
      var init, last := items[..|items| - 1], items[|items| - 1];
      assert items == init + [last];
      CountsAre(value, init);
      FilterSnoc((it: Item) => it.state == value, init, last);
      FilterSnoc((it: Item) => it.lane == value, init, last);
      FilterSnoc((it: Item) => it.horizon == value, init, last);
      FilterSnoc((it: Item) => it.commitment == value, init, last);
      FilterSnoc((it: Item) => it.blockedBy != [], init, last);
    }
  }

  /** The size of one item; of more, by CountsAdd, it is the sum. */
  lemma {:induction false} SizeOfOne(value: string, it: Item)
    ensures Size(State, value, [it]) == if it.state == value then it.size else 0.0
    ensures Size(Lane, value, [it]) == if it.lane == value then it.size else 0.0
    ensures Size(Horizon, value, [it]) == if it.horizon == value then it.size else 0.0
    ensures Size(Commitment, value, [it]) == if it.commitment == value then it.size else 0.0
  {
    assert [it][..0] == [];
  }

  /** A state declared once has in its column all items in it, and shows those of them that are kept. */
  lemma {:induction false} ColumnIs(states: seq<string>, limits: seq<int>, items: seq<Item>, kept: seq<Item>, i: nat)
    requires |limits| == |states| && i < |states| && forall j :: 0 <= j < |states| && j != i ==> states[j] != states[i]
    ensures var c := Columns(states, limits, items, kept)[i];
            && c.state == states[i] && c.limit == limits[i]
            && c.items == |Filter((it: Item) => it.state == states[i], items)|
            && c.shown == |Filter((it: Item) => it.state == states[i], kept)|
            && c.size == Size(State, states[i], items)
  {
    CountsAre(states[i], items);
    CountsAre(states[i], kept);
  }

  /** A bucket with a name has the items that have the name; one without has none. */
  lemma {:induction false} BucketIs(names: seq<string>, items: seq<Item>, i: nat)
    requires i < |names|
    ensures var name, b := names[i], Buckets(Lane, names, items)[i];
            && b.name == name
            && b.items == (if name == "" then 0 else |Filter((it: Item) => it.lane == name, items)|)
            && b.size == (if name == "" then 0.0 else Size(Lane, name, items))
  {
    CountsAre(names[i], items);
  }

  /** Rolling two lots up together is rolling each up and adding. */
  lemma {:induction false} CountsAdd(field: Field, value: string, a: seq<Item>, b: seq<Item>)
    ensures Count(field, value, a + b) == Count(field, value, a) + Count(field, value, b)
    ensures Size(field, value, a + b) == Size(field, value, a) + Size(field, value, b)
  {
    if b == [] {
      assert a + b == a;
    } else {
      var n := |b| - 1;
      CountsAdd(field, value, a, b[..n]);
      assert (a + b)[..|a + b| - 1] == a + b[..n];
    }
  }

  lemma {:induction false} CountsHead(field: Field, value: string, s: seq<Item>)
    requires s != []
    ensures Count(field, value, s) == Count(field, value, s[1..]) + if Get(field, s[0]) == value then 1 else 0
  {
    CountsAdd(field, value, [s[0]], s[1..]);
    assert s == [s[0]] + s[1..];
    assert [s[0]][..0] == [];
  }

  lemma {:induction false} PartCountsLess(field: Field, value: string, s: seq<Item>, t: seq<Item>)
    requires Subsequence(s, t)
    ensures Count(field, value, s) <= Count(field, value, t)
    decreases |t|
  {
    if s != [] {
      CountsHead(field, value, t);
      CountsHead(field, value, s);
      if s[0] == t[0] && Subsequence(s[1..], t[1..]) {
        PartCountsLess(field, value, s[1..], t[1..]);
      } else {
        PartCountsLess(field, value, s, t[1..]);
      }
    }
  }

  lemma {:induction false} InsertCounts(less: (Item, Item) -> bool, field: Field, value: string, x: Item, s: seq<Item>)
    ensures Count(field, value, Insert(less, x, s)) == Count(field, value, s) + if Get(field, x) == value then 1 else 0
  {
    CountsHead(field, value, Insert(less, x, s));
    if s != [] && less(s[0], x) {
      InsertCounts(less, field, value, x, s[1..]);
      CountsHead(field, value, s);
      assert Insert(less, x, s)[1..] == Insert(less, x, s[1..]);
    } else {
      assert Insert(less, x, s)[1..] == s;
    }
  }

  lemma {:induction false} SortCounts(less: (Item, Item) -> bool, field: Field, value: string, s: seq<Item>)
    ensures Count(field, value, StableSort(less, s)) == Count(field, value, s)
  {
    if s != [] {
      SortCounts(less, field, value, s[1..]);
      InsertCounts(less, field, value, s[0], StableSort(less, s[1..]));
      CountsHead(field, value, s);
    }
  }

  lemma {:induction false} FirstIsSubsequence(k: nat, s: seq<Item>)
    ensures Subsequence(First(k, s), s)
  {
    if s != [] && k > 0 {
      FirstIsSubsequence(k - 1, s[1..]);
      FirstTail(k, s);
    }
  }

  // ----- The view -----

  datatype View = View(
    columns: seq<Column>,
    lanes: seq<Bucket>,
    horizons: seq<Bucket>,
    commitments: seq<Bucket>,
    total: nat,
    blocked: nat,
    items: seq<Item>,
    truncated: bool
  )

  ghost predicate Holds(field: Field, names: seq<string>, items: seq<Item>, m: map<string, Bucket>) {
    && (forall name :: name in m <==> name in names)
    && (forall name :: name in m ==> m[name] == BucketOf(field, name, items))
  }

  method NewBuckets(field: Field, names: seq<string>) returns (m: map<string, Bucket>)
    ensures Holds(field, names, [], m)
  {
    m := map[];
    for i := 0 to |names|
      invariant Holds(field, names[..i], [], m)
    {
      assert names[..i + 1] == names[..i] + [names[i]];
      m := m[names[i] := Bucket(names[i], 0, 0.0)];
    }
    assert names[..|names|] == names;
  }

  method BucketList(field: Field, names: seq<string>, all: seq<Item>, m: map<string, Bucket>) returns (bs: seq<Bucket>)
    requires Holds(field, names, all, m)
    ensures bs == Buckets(field, names, all)
  {
    bs := [];
    for i := 0 to |names|
      invariant |bs| == i && forall k :: 0 <= k < i ==> bs[k] == BucketOf(field, names[k], all)
    {
      assert names[i] in m;
      bs := bs + [m[names[i]]];
    }
  }

  method TallyBuckets(field: Field, names: seq<string>, all: seq<Item>) returns (bs: seq<Bucket>)
    ensures bs == Buckets(field, names, all)
  {
    var m := NewBuckets(field, names);
    for n := 0 to |all|
      invariant Holds(field, names, all[..n], m)
    {
      TallyOne(field, names, all[..n], all[n], m);
      assert all[..n + 1] == all[..n] + [all[n]];
      var key := Get(field, all[n]);
      if key != "" && key in m {
        m := m[key := Bucket(key, m[key].items + 1, m[key].size + all[n].size)];
      }
    }
    assert all[..|all|] == all;
    bs := BucketList(field, names, all, m);
  }

  lemma {:induction false} TallyOne(field: Field, names: seq<string>, items: seq<Item>, it: Item,
      m: map<string, Bucket>)
    requires Holds(field, names, items, m)
    ensures var key := Get(field, it);
            if key != "" && key in m
            then Holds(field, names, items + [it], m[key := Bucket(key, m[key].items + 1, m[key].size + it.size)])
            else Holds(field, names, items + [it], m)
  {
    assert (items + [it])[..|items|] == items;
  }

  /** The view of all items of the contributors; `limits` are the WIP limits for that many of them. */
  method AggregatePlan(facet: PlanFacet, lanes: seq<string>, horizons: seq<string>, limits: seq<int>, countOnly: bool,
      policy: Policy, all: seq<Item>)
    returns (view: View)
    requires |limits| == |facet.states|
    ensures view.columns == Columns(facet.states, limits, all, view.items)
    ensures view.lanes == Buckets(Lane, lanes, all) && view.horizons == Buckets(Horizon, horizons, all)
    ensures view.commitments == Buckets(Commitment, facet.commitments, all)
    ensures view.total == |all| && view.blocked == BlockedIn(all)
    ensures countOnly ==> view.items == [] && !view.truncated
    ensures !countOnly ==>
              && Bounded(policy, StableSort(ItemOrder(facet), all), view.items)
              && view.truncated == (|view.items| < |all|)
  {
    var columns := TallyColumns(facet.states, limits, all);
    var laneBuckets := TallyBuckets(Lane, lanes, all);
    var horizonBuckets := TallyBuckets(Horizon, horizons, all);
    var commitmentBuckets := TallyBuckets(Commitment, facet.commitments, all);
    var blocked := CountBlocked(all);
    if countOnly {
      return View(columns, laneBuckets, horizonBuckets, commitmentBuckets, |all|, blocked, [], false);
    }
    var sorted := StableSort(ItemOrder(facet), all);
    var kept := BoundItems(policy, sorted);
    columns := CountShown(facet.states, limits, all, kept, columns);
    view := View(columns, laneBuckets, horizonBuckets, commitmentBuckets, |all|, blocked, kept, |kept| < |all|);
  }

  method CountBlocked(all: seq<Item>) returns (blocked: nat)
    ensures blocked == BlockedIn(all)
  {
    blocked := 0;
    for n := 0 to |all|
      invariant blocked == BlockedIn(all[..n])
    {
      assert all[..n + 1][..n] == all[..n];
      if all[n].Blocked() {
        blocked := blocked + 1;
      }
    }
    assert all[..|all|] == all;
  }

  lemma {:induction false} KeptIsPart(policy: Policy, sorted: seq<Item>, kept: seq<Item>)
    requires Bounded(policy, sorted, kept)
    ensures Subsequence(kept, sorted)
  {
    FirstIsSubsequence(|sorted|, sorted);
    assert First(|sorted|, sorted) == sorted;
    if policy.Top? && policy.n > 0 { FirstIsSubsequence(policy.n, sorted); }
    if policy.Other? { FirstIsSubsequence(PLAN_ITEM_CAP, sorted); }
  }

  /** A column never shows more items than it holds. */
  lemma {:induction false} ShownAreHeld(facet: PlanFacet, limits: seq<int>, policy: Policy, all: seq<Item>,
      kept: seq<Item>, i: nat)
    requires |limits| == |facet.states| && i < |facet.states|
    requires Bounded(policy, StableSort(ItemOrder(facet), all), kept)
    ensures var c := Columns(facet.states, limits, all, kept)[i]; c.shown <= c.items
  {
    KeptIsPart(policy, StableSort(ItemOrder(facet), all), kept);
    PartCountsLess(State, facet.states[i], kept, StableSort(ItemOrder(facet), all));
    SortCounts(ItemOrder(facet), State, facet.states[i], all);
  }
}
