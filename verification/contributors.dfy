/**
 The instances that count at a scope: latestPerPath in pkg/reporting/aggregate.go and ScopeWithin in
 pkg/reporting/scope.go. A producer below a scope reports one instance after the other; at the scope the newest of
 each path counts.
 */
module Contributors {
  import opened Sorting
  import opened Text

  datatype Instance = Instance(definition: string, path: string, producedAt: int, producer: string,
      kpis: map<string, real>)

  /** The trimmed segments of a path that are not empty. */
  function Segments(parts: seq<string>): seq<string> {
    if parts == [] then []
    else
      var last := TrimSpace(parts[|parts| - 1]);
      Segments(parts[..|parts| - 1]) + if last == "" then [] else [last]
  }

  function SplitScope(path: string): seq<string> {
    Segments(Split(path, '/'))
  }

  /** child is at or below parent. */
  predicate ScopeWithin(parent: string, child: string) {
    SplitScope(parent) <= SplitScope(child)
  }

  predicate Wanted(definition: string, scope: string, i: Instance) {
    (i.definition == "" || i.definition == definition) && ScopeWithin(scope, i.path)
  }

  // ----- Scopes -----

  /** A name a path is made of: not empty, without slashes or spaces at its ends. */
  predicate IsSegment(name: string) {
    name != "" && '/' !in name && TrimSpace(name) == name
  }

  predicate AreSegments(names: seq<string>) {
    forall i :: 0 <= i < |names| ==> IsSegment(names[i])
  }

  lemma {:induction false} SegmentsOfNames(names: seq<string>)
    requires AreSegments(names)
    ensures Segments(names) == names
  {
    if names != [] {
      var init, last := names[..|names| - 1], names[|names| - 1];
      SegmentsOfNames(init);
      assert IsSegment(last) && names == init + [last];
      assert Segments(names) == init + [last];
    }
  }

  /** Splitting undoes joining, the empty path having no names. */
  lemma {:induction false} SplitOfPath(names: seq<string>)
    requires AreSegments(names)
    ensures SplitScope(Join(names, '/')) == names
  {
    if names == [] {
      SplitWhole("", '/');
      assert [""][..0] == [];
    } else {
      SplitOfJoin(names, '/');
      SegmentsOfNames(names);
    }
  }

  /** A path is at or below another exactly if the other's names are its first ones. */
  lemma {:induction false} WithinExactly(parent: seq<string>, child: seq<string>)
    requires AreSegments(parent) && AreSegments(child)
    ensures ScopeWithin(Join(parent, '/'), Join(child, '/')) <==>
              |parent| <= |child| && forall i :: 0 <= i < |parent| ==> child[i] == parent[i]
  {
    SplitOfPath(parent);
    SplitOfPath(child);
  }

  // ----- The newest of each path -----

  type Table = map<string, Instance>

  /** The newest instance per path; of two of the same time the later one in the list. */
  function Newer(latest: Table, i: Instance): Table {
    if i.path !in latest || i.producedAt >= latest[i.path].producedAt then latest[i.path := i] else latest
  }

  function Newest(definition: string, scope: string, all: seq<Instance>): (latest: Table)
    ensures forall path :: path in latest ==> latest[path].path == path
  {
    if all == [] then map[]
    else
      var before, last := Newest(definition, scope, all[..|all| - 1]), all[|all| - 1];
      if Wanted(definition, scope, last) then Newer(before, last) else before
  }

  lemma {:induction false} NewestSnoc(definition: string, scope: string, all: seq<Instance>, i: Instance)
    ensures Newest(definition, scope, all + [i]) ==
            if Wanted(definition, scope, i) then Newer(Newest(definition, scope, all), i)
            else Newest(definition, scope, all)
  {
    assert (all + [i])[..|all|] == all;
  }

  /** Exactly the paths with a wanted instance have one, and no wanted instance of the path is newer. */
  lemma {:induction false} NewestIsNewest(definition: string, scope: string, all: seq<Instance>)
    ensures var latest := Newest(definition, scope, all);
            && (forall path :: path in latest ==> latest[path] in all && Wanted(definition, scope, latest[path]))
            && (forall i :: i in all && Wanted(definition, scope, i) ==>
                  i.path in latest && i.producedAt <= latest[i.path].producedAt)
  {
    if all != [] {
      var n := |all| - 1;
      NewestIsNewest(definition, scope, all[..n]);
      var before, latest := Newest(definition, scope, all[..n]), Newest(definition, scope, all);
      assert all == all[..n] + [all[n]];
      forall path | path in latest
        ensures latest[path] in all && Wanted(definition, scope, latest[path])
      {
        assert latest[path] == all[n] || (path in before && latest[path] == before[path]);
      }
    }
  }

  /** The k-th is the last of the newest instances of its path, counting those of the definition or of none. */
  ghost predicate IsLastOfNewest(definition: string, all: seq<Instance>, k: nat) {
    && k < |all| && (all[k].definition == "" || all[k].definition == definition)
    && forall j :: 0 <= j < |all| && all[j].path == all[k].path ==>
         (all[j].definition == "" || all[j].definition == definition) ==>
         all[j].producedAt <= all[k].producedAt && (j > k ==> all[j].producedAt < all[k].producedAt)
  }

  lemma {:induction false} NewerComes(definition: string, scope: string, all: seq<Instance>, i: Instance)
    requires Wanted(definition, scope, i)
    requires i.path in Newest(definition, scope, all) ==>
               i.producedAt >= Newest(definition, scope, all)[i.path].producedAt
    ensures IsLastOfNewest(definition, all + [i], |all|)
  {
    NewestIsNewest(definition, scope, all);
    assert forall j :: 0 <= j < |all| ==> (all + [i])[j] == all[j] && all[j] in all;
  }

  lemma {:induction false} OlderComes(definition: string, all: seq<Instance>, k: nat, i: Instance)
    requires IsLastOfNewest(definition, all, k)
    requires i.path == all[k].path && (i.definition == "" || i.definition == definition) ==>
               i.producedAt < all[k].producedAt
    ensures IsLastOfNewest(definition, all + [i], k)
  {
    assert forall j :: 0 <= j < |all| ==> (all + [i])[j] == all[j];
  }

  /** What counts for a path at or below the scope is the last of its newest instances. */
  lemma {:induction false} LastOfNewest(definition: string, scope: string, all: seq<Instance>, path: string)
    returns (k: nat)
    requires path in Newest(definition, scope, all)
    ensures IsLastOfNewest(definition, all, k) && all[k] == Newest(definition, scope, all)[path] && all[k].path == path
    ensures ScopeWithin(scope, path)
  {
    var n := |all| - 1;
    var before, last := Newest(definition, scope, all[..n]), all[n];
    assert all == all[..n] + [last];
    if Wanted(definition, scope, last) && last.path == path
      && (path in before ==> last.producedAt >= before[path].producedAt)
    {
      k := n;
      NewerComes(definition, scope, all[..n], last);
    } else {
      k := LastOfNewest(definition, scope, all[..n], path);
      OlderComes(definition, all[..n], k, last);
    }
  }

  // ----- In a list -----

  /** By time, then by path. */
  const BY_AGE: (Instance, Instance) -> bool :=
    (a: Instance, b: Instance) => a.producedAt < b.producedAt || (a.producedAt == b.producedAt && Less(a.path, b.path))

  lemma {:induction false} ByAgeIsWeak()
    ensures WeakOrder(BY_AGE)
  {
    forall a, b
      ensures OneWay(BY_AGE, a, b)
    {
      if Less(a.path, b.path) { LessIsOneWay(a.path, b.path); }
    }
    forall a, b, c
      ensures Steps(BY_AGE, a, b, c)
    {
      ByAgeSteps(a, b, c);
    }
  }

  lemma {:induction false} ByAgeSteps(a: Instance, b: Instance, c: Instance)
    ensures Steps(BY_AGE, a, b, c)
  {
    if a.producedAt == b.producedAt == c.producedAt && Less(a.path, c.path) {
      LessIsTotal(a.path, b.path);
      LessIsTotal(b.path, c.path);
      if Less(c.path, b.path) {
        LessIsTransitive(a.path, c.path, b.path);
      }
    }
  }

  /** The list has the instances of the table, each once, in order. */
  ghost predicate ListsTable(latest: Table, list: seq<Instance>) {
    && Sorted(BY_AGE, list)
    && (forall i :: i in list <==> i.path in latest && latest[i.path] == i)
    && (forall i, j :: 0 <= i < j < |list| ==> list[i].path != list[j].path)
  }

  /** There is one such list only, so the order a table is gone through in does not matter. */
  lemma {:induction false} OneList(latest: Table, a: seq<Instance>, b: seq<Instance>)
    requires ListsTable(latest, a) && ListsTable(latest, b)
    ensures a == b
  {
    ByAgeIsWeak();
    SameMembers(latest, a, b);
    forall x, y | x in multiset(a) && y in multiset(a) && !BY_AGE(x, y) && !BY_AGE(y, x)
      ensures x == y && multiset(a)[x] == 1
    {
      LessIsTotal(x.path, y.path);
      assert x in a && y in a;
      OnceEach(a, x);
    }
    SortedIsUnique(BY_AGE, a, b);
  }

  lemma {:induction false} OnceEach(list: seq<Instance>, x: Instance)
    requires forall i, j :: 0 <= i < j < |list| ==> list[i].path != list[j].path
    ensures multiset(list)[x] == if x in list then 1 else 0
  {
    if list != [] {
      var n := |list| - 1;
      OnceEach(list[..n], x);
      assert list == list[..n] + [list[n]];
    }
  }

  lemma {:induction false} SameMembers(latest: Table, a: seq<Instance>, b: seq<Instance>)
    requires ListsTable(latest, a) && ListsTable(latest, b)
    ensures multiset(a) == multiset(b)
  {
    forall x
      ensures multiset(a)[x] == multiset(b)[x]
    {
      OnceEach(a, x);
      OnceEach(b, x);
      assert x in a <==> x in b;
    }
  }

  /** In other words: from the oldest to the newest, and of one time by path. */
  lemma {:induction false} ListInTime(latest: Table, list: seq<Instance>, i: nat, j: nat)
    requires ListsTable(latest, list) && i < j < |list|
    ensures list[i].producedAt < list[j].producedAt
            || (list[i].producedAt == list[j].producedAt && Less(list[i].path, list[j].path))
  {
    LessIsTotal(list[i].path, list[j].path);
  }

  method LatestPerPath(definition: string, scope: string, all: seq<Instance>) returns (contrib: seq<Instance>)
    ensures ListsTable(Newest(definition, scope, all), contrib)
  {
    var latest: Table := map[];
    for n := 0 to |all|
      invariant latest == Newest(definition, scope, all[..n])
    {
      NewestSnoc(definition, scope, all[..n], all[n]);
      assert all[..n + 1] == all[..n] + [all[n]];
      if Wanted(definition, scope, all[n]) {
        if all[n].path !in latest || !(all[n].producedAt < latest[all[n].path].producedAt) {
          latest := latest[all[n].path := all[n]];
        }
      }
    }
    assert all[..|all|] == all;
    contrib := ListOf(latest);
  }

  /** The table's instances, taken in any order and then sorted. */
  method ListOf(latest: Table) returns (list: seq<Instance>)
    requires forall path :: path in latest ==> latest[path].path == path
    ensures ListsTable(latest, list)
  {
    list := [];
    ByAgeIsWeak();
    var left := latest.Keys;
    while left != {}
      invariant left <= latest.Keys && Sorted(BY_AGE, list)
      invariant forall i :: i in list <==> i.path in latest && i.path !in left && latest[i.path] == i
      invariant forall i, j :: 0 <= i < j < |list| ==> list[i].path != list[j].path
      decreases left
    {
      var path :| path in left;
      left := left - {path};
      InsertSorts(BY_AGE, latest[path], list);
      InsertOnce(latest[path], list);
      list := Insert(BY_AGE, latest[path], list);
    }
  }

  lemma {:induction false} InsertOnce(x: Instance, s: seq<Instance>)
    requires forall i, j :: 0 <= i < j < |s| ==> s[i].path != s[j].path
    requires forall y :: y in s ==> y.path != x.path
    ensures var r := Insert(BY_AGE, x, s);
            && (forall y :: y in r <==> y == x || y in s)
            && (forall i, j :: 0 <= i < j < |r| ==> r[i].path != r[j].path)
  {
    if s != [] && BY_AGE(s[0], x) {
      InsertOnce(x, s[1..]);
      var r := Insert(BY_AGE, x, s[1..]);
      forall i | 0 <= i < |r|
        ensures r[i].path != s[0].path
      {
        assert r[i] in r;
        assert s[0] in s;
      }
    } else {
      forall i | 0 <= i < |s|
        ensures s[i].path != x.path
      {
        assert s[i] in s;
      }
    }
  }

  // ----- Two levels -----

  /** Per path the newer of the two, the second one's on a tie. */
  function Over(x: Table, y: Table): (r: Table)
    ensures r.Keys == x.Keys + y.Keys
  {
    map path | path in x.Keys + y.Keys ::
      if path in y && (path !in x || y[path].producedAt >= x[path].producedAt) then y[path] else x[path]
  }

  lemma {:induction false} OverOneMore(x: Table, y: Table, i: Instance)
    ensures Newer(Over(x, y), i) == Over(x, Newer(y, i))
  {
  }

  lemma {:induction false} NewestConcat(definition: string, scope: string, a: seq<Instance>, b: seq<Instance>)
    ensures Newest(definition, scope, a + b) == Over(Newest(definition, scope, a), Newest(definition, scope, b))
  {
    if b == [] {
      assert a + b == a;
    } else {
      var n := |b| - 1;
      NewestConcat(definition, scope, a, b[..n]);
      assert a + b == (a + b[..n]) + [b[n]];
      NewestSnoc(definition, scope, a + b[..n], b[n]);
      OverOneMore(Newest(definition, scope, a), Newest(definition, scope, b[..n]), b[n]);
    }
  }

  /** The newest of a list of newest ones are those. */
  lemma {:induction false} NewestOfList(definition: string, scope: string, b: seq<Instance>, c: seq<Instance>)
    requires ListsTable(Newest(definition, scope, b), c)
    ensures Newest(definition, scope, c) == Newest(definition, scope, b)
  {
    var all, again := Newest(definition, scope, b), Newest(definition, scope, c);
    NewestIsNewest(definition, scope, b);
    NewestIsNewest(definition, scope, c);
    forall path
      ensures path in again <==> path in all
      ensures path in all ==> again[path] == all[path]
    {
      if path in all { assert all[path] in c; }
      if path in again { assert again[path] in c; }
    }
  }

  /** Rolling up in two levels, first lots of instances and then what is left of them, is rolling up at once. */
  lemma {:induction false} RollUpNests(definition: string, scope: string, a: seq<Instance>, b: seq<Instance>,
      aList: seq<Instance>, bList: seq<Instance>)
    requires ListsTable(Newest(definition, scope, a), aList) && ListsTable(Newest(definition, scope, b), bList)
    ensures Newest(definition, scope, aList + bList) == Newest(definition, scope, a + b)
  {
    NewestConcat(definition, scope, a, b);
    NewestConcat(definition, scope, aList, bList);
    NewestOfList(definition, scope, a, aList);
    NewestOfList(definition, scope, b, bList);
  }
}
