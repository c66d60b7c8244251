/**
 Folding instances over time: foldOverTime and applyKPIPolicy in pkg/reporting/aggregate.go. Over a period, the
 instances of each path are folded into one, and these are folded again at a scope above.
 */
module TimeFold {
  import opened Wrappers
  import opened Sorting
  import opened Contributors
  import opened Periods

  // ----- Values into one -----

  /** How values can be put together two at a time, the later one second. */
  datatype Combining = Sum | Least | Greatest | Latest

  datatype KpiPolicy = Count | Avg | P50 | P95 | Combine(how: Combining)

  function Pick(how: Combining, x: real, y: real): real {
    match how
    case Sum => x + y
    case Least => if y < x then y else x
    case Greatest => if y > x then y else x
    case Latest => y
  }

  function Folded(how: Combining, vals: seq<real>): real
    requires vals != []
  {
    if |vals| == 1 then vals[0] else Pick(how, Folded(how, vals[..|vals| - 1]), vals[|vals| - 1])
  }

  const SMALLER: (real, real) -> bool := (x: real, y: real) => x < y

  /** The place of a percentile among n sorted values, by nearest rank. */
  function Rank(p: nat, n: nat): (rank: nat)
    requires n > 0 && p <= 100
    ensures 1 <= rank <= n
  {
    var rank := (p * n + 99) / 100;
    if rank < 1 then 1 else rank
  }

  function Percentile(p: nat, vals: seq<real>): real
    requires vals != [] && p <= 100
  {
    StableSort(SMALLER, vals)[Rank(p, |vals|) - 1]
  }

  function Applied(policy: KpiPolicy, vals: seq<real>): real {
    if policy.Count? then |vals| as real
    else if vals == [] then 0.0
    else
      match policy
      case Avg => Folded(Sum, vals) / |vals| as real
      case P50 => Percentile(50, vals)
      case P95 => Percentile(95, vals)
      case Combine(how) => Folded(how, vals)
  }

  method ApplyKpiPolicy(policy: KpiPolicy, vals: seq<real>) returns (r: real)
    ensures r == Applied(policy, vals)
  {
    if policy.Count? {
      return |vals| as real;
    }
    if vals == [] {
      return 0.0;
    }
    if policy.P50? || policy.P95? {
      return Percentile(if policy.P50? then 50 else 95, vals);
    }
    var how := if policy.Avg? then Sum else policy.how;
    r := vals[0];
    for n := 1 to |vals|
      invariant r == Folded(how, vals[..n])
    {
      assert vals[..n + 1][..n] == vals[..n];
      r := Pick(how, r, vals[n]);
    }
    assert vals[..|vals|] == vals;
    if policy.Avg? {
      r := r / |vals| as real;
    }
  }

  /** A minimum is one of the values and no more than any, a maximum one and no less than any. */
  lemma {:induction false} FoldedIsExtreme(vals: seq<real>)
    requires vals != []
    ensures Folded(Least, vals) in vals && forall x :: x in vals ==> Folded(Least, vals) <= x
    ensures Folded(Greatest, vals) in vals && forall x :: x in vals ==> x <= Folded(Greatest, vals)
    ensures Folded(Latest, vals) == vals[|vals| - 1]
  {
    if |vals| > 1 {
      var n := |vals| - 1;
      FoldedIsExtreme(vals[..n]);
      assert vals == vals[..n] + [vals[n]];
    }
  }

  /** A percentile is the value at its rank: that many values are no more than it, and the rest no less. */
  lemma {:induction false} PercentileIsRanked(p: nat, vals: seq<real>)
    requires vals != [] && p <= 100
    ensures var sorted, x, rank := StableSort(SMALLER, vals), Percentile(p, vals), Rank(p, |vals|);
            && multiset(sorted) == multiset(vals)
            && (forall i :: 0 <= i < rank ==> sorted[i] <= x)
            && (forall i :: rank - 1 <= i < |sorted| ==> x <= sorted[i])
            && 100 * rank >= p * |vals| && (rank > 1 ==> 100 * (rank - 1) < p * |vals|)
  {
    SmallerIsWeak();
    SortIsSorted(SMALLER, vals);
    SortPermutes(SMALLER, vals);
  }

  lemma {:induction false} SmallerIsWeak()
    ensures WeakOrder(SMALLER)
  {
    forall x, y
      ensures OneWay(SMALLER, x, y)
    {
    }
    forall x, y, z
      ensures Steps(SMALLER, x, y, z)
    {
    }
  }

  // ----- A group of one path -----

  function ValueOf(name: string, i: Instance): Option<real> {
    if name in i.kpis then Some(i.kpis[name]) else None
  }

  /** The values a group reports for a KPI, in the order of the group. */
  function Values(name: string, group: seq<Instance>): (vals: seq<real>)
    ensures |vals| <= |group|
  {
    if group == [] then []
    else
      var last := group[|group| - 1];
      Values(name, group[..|group| - 1]) + if name in last.kpis then [last.kpis[name]] else []
  }

  /** The values of those that report it. */
  lemma {:induction false} ValuesAre(name: string, group: seq<Instance>)
    ensures var reporting := Filter((i: Instance) => name in i.kpis, group);
            && |Values(name, group)| == |reporting|
            && forall k :: 0 <= k < |reporting| ==>
                 name in reporting[k].kpis && Values(name, group)[k] == reporting[k].kpis[name]
  {
    if group != [] {
      var init, last := group[..|group| - 1], group[|group| - 1];
      assert group == init + [last];
      ValuesAre(name, init);
      FilterSnoc((i: Instance) => name in i.kpis, init, last);
    }
  }

  /** What a group makes of a KPI. A group of one keeps what it reports. */
  function TimeFolded(policy: KpiPolicy, name: string, group: seq<Instance>): Option<real>
    requires group != []
  {
    if |group| == 1 then ValueOf(name, group[0])
    else if Values(name, group) != [] || policy.Count? then Some(Applied(policy, Values(name, group)))
    else None
  }

  /** out stands for the group, which is in order of time: as its newest, with the declared KPIs folded. */
  ghost predicate FoldOf(specs: seq<string>, policy: string -> KpiPolicy, group: seq<Instance>, out: Instance)
    requires group != []
  {
    var newest := group[|group| - 1];
    && out == newest.(kpis := out.kpis)
    && (forall name :: name in specs ==> ValueOf(name, out) == TimeFolded(policy(name), name, group))
    && (|group| == 1 ==> out == newest)
    && (|group| > 1 ==> forall name :: name in out.kpis ==> name in specs)
  }

  method FoldOverTime(specs: seq<string>, policy: string -> KpiPolicy, group: seq<Instance>) returns (out: Instance)
    requires group != []
    ensures FoldOf(specs, policy, group, out)
    ensures |group| == 1 ==> out == group[0]
    ensures out == group[|group| - 1].(kpis := out.kpis)
    ensures |group| > 1 ==> forall name :: name in out.kpis <==>
              name in specs && (policy(name).Count? || Values(name, group) != [])
    ensures |group| > 1 ==> forall name :: name in out.kpis ==>
              out.kpis[name] == Applied(policy(name), Values(name, group))
  {
    if |group| == 1 {
      return group[0];
    }
    var newest := group[|group| - 1];
    var kpis: map<string, real> := map[];
    for k := 0 to |specs|
      invariant forall name :: name in kpis ==> name in specs[..k]
      invariant forall name :: name in specs[..k] ==>
                  (if name in kpis then Some(kpis[name]) else None) == TimeFolded(policy(name), name, group)
    {
      var name := specs[k];
      assert specs[..k + 1] == specs[..k] + [name];
      var vals := CollectValues(name, group);
      if |vals| > 0 || policy(name).Count? {
        var folded := ApplyKpiPolicy(policy(name), vals);
        kpis := kpis[name := folded];
      }
    }
    assert specs[..|specs|] == specs;
    out := newest.(kpis := kpis);
  }

  method CollectValues(name: string, group: seq<Instance>) returns (vals: seq<real>)
    ensures vals == Values(name, group)
  {
    vals := [];
    for n := 0 to |group|
      invariant vals == Values(name, group[..n])
    {
      assert group[..n + 1][..n] == group[..n];
      if name in group[n].kpis {
        vals := vals + [group[n].kpis[name]];
      }
    }
    assert group[..|group|] == group;
  }

  // ----- Over time, then over paths -----

  lemma {:induction false} ValuesConcat(name: string, a: seq<Instance>, b: seq<Instance>)
    ensures Values(name, a + b) == Values(name, a) + Values(name, b)
  {
    if b == [] {
      assert a + b == a;
    } else {
      var n := |b| - 1;
      ValuesConcat(name, a, b[..n]);
      assert (a + b)[..|a + b| - 1] == a + b[..n];
    }
  }

  lemma {:induction false} FoldedConcat(how: Combining, a: seq<real>, b: seq<real>)
    requires a != [] && b != []
    ensures Folded(how, a + b) == Pick(how, Folded(how, a), Folded(how, b))
  {
    var n := |b| - 1;
    assert (a + b)[..|a + b| - 1] == a + b[..n];
    if n > 0 {
      FoldedConcat(how, a, b[..n]);
    } else {
      assert a + b[..n] == a;
    }
  }

  /** Each contributor reports for the KPI what its group folds to, if that reports anything. */
  ghost predicate Contribute(how: Combining, name: string, groups: seq<seq<Instance>>, contrib: seq<Instance>) {
    && |contrib| == |groups|
    && forall k :: 0 <= k < |groups| ==>
         groups[k] != [] && ValueOf(name, contrib[k]) == TimeFolded(Combine(how), name, groups[k])
  }

  /** For groups and contributors in any order: folding each group and then the contributors is folding everything. */
  lemma {:induction false} FoldsNest(how: Combining, name: string, groups: seq<seq<Instance>>, contrib: seq<Instance>)
    requires Contribute(how, name, groups, contrib)
    ensures Values(name, contrib) == [] <==> Values(name, Concat(groups)) == []
    ensures Values(name, contrib) != [] ==>
            Folded(how, Values(name, contrib)) == Folded(how, Values(name, Concat(groups)))
  {
    if groups != [] {
      var g, c := groups[0], contrib[0];
      FoldsNest(how, name, groups[1..], contrib[1..]);
      ValuesConcat(name, g, Concat(groups[1..]));
      ValuesConcat(name, [c], contrib[1..]);
      assert contrib == [c] + contrib[1..];
      OneContributes(how, name, g, c);
      FoldsJoin(how, Values(name, g), Values(name, Concat(groups[1..])), Values(name, [c]), Values(name, contrib[1..]));
    }
  }

  lemma {:induction false} FoldsJoin(how: Combining, a: seq<real>, rest: seq<real>, a': seq<real>, rest': seq<real>)
    requires (a == [] <==> a' == []) && (a != [] ==> a' == [Folded(how, a)])
    requires (rest == [] <==> rest' == []) && (rest != [] ==> Folded(how, rest') == Folded(how, rest))
    ensures a + rest == [] <==> a' + rest' == []
    ensures a + rest != [] ==> Folded(how, a' + rest') == Folded(how, a + rest)
  {
    if rest == [] {
      assert a + rest == a && a' + rest' == a';
    } else if a == [] {
      assert a + rest == rest && a' + rest' == rest';
    } else {
      FoldedConcat(how, a, rest);
      FoldedConcat(how, a', rest');
    }
  }

  lemma {:induction false} OneContributes(how: Combining, name: string, g: seq<Instance>, c: Instance)
    requires g != [] && ValueOf(name, c) == TimeFolded(Combine(how), name, g)
    ensures Values(name, [c]) == [] <==> Values(name, g) == []
    ensures Values(name, g) != [] ==> Values(name, [c]) == [Folded(how, Values(name, g))]
  {
    assert [c][..0] == [];
    if |g| == 1 { assert g[..0] == []; }
  }

  // ----- What each policy computes -----

  /** A count is of the values, no values make 0, and an average times their number is their sum. */
  lemma {:induction false} AppliedMeans(vals: seq<real>)
    ensures Applied(Count, vals) == |vals| as real
    ensures vals == [] ==> forall policy :: policy != Count ==> Applied(policy, vals) == 0.0
    ensures vals != [] ==> Applied(Combine(Sum), vals) == Total(vals)
                           && Applied(Avg, vals) * |vals| as real == Total(vals)
    ensures vals != [] ==> Applied(P50, vals) == Percentile(50, vals) && Applied(P95, vals) == Percentile(95, vals)
    ensures vals != [] ==> Applied(Combine(Latest), vals) == vals[|vals| - 1]
    ensures vals != [] ==> Applied(Combine(Least), vals) in vals && Applied(Combine(Greatest), vals) in vals
                           && forall x :: x in vals ==>
                                Applied(Combine(Least), vals) <= x <= Applied(Combine(Greatest), vals)
  {
    if vals != [] {
      SumIsTotal(vals);
      FoldedIsExtreme(vals);
    }
  }

  /** The middle value of three is their median, and the last but one of twenty their 95th percentile. */
  lemma {:induction false} RankIs(n: nat)
    requires n > 0
    ensures Rank(50, n) == (n + 1) / 2 && (n == 20 ==> Rank(95, n) == 19) && (n == 1 ==> Rank(95, n) == 1)
  {
  }

  // ----- In any order -----

  /** Taking one value out of a list takes it out of the sum. */
  lemma {:induction false} SumCut(vals: seq<real>, k: nat)
    requires k < |vals|
    ensures Total(vals) == Total(vals[..k] + vals[k + 1..]) + vals[k]
  {
    var n := |vals| - 1;
    if k < n {
      SumCut(vals[..n], k);
      assert vals[..n][..k] + vals[..n][k + 1..] == (vals[..k] + vals[k + 1..])[..n - 1];
    } else {
      assert vals[..k] + vals[k + 1..] == vals[..n];
    }
  }

  function Total(vals: seq<real>): real {
    if vals == [] then 0.0 else Total(vals[..|vals| - 1]) + vals[|vals| - 1]
  }

  lemma {:induction false} SumIsTotal(vals: seq<real>)
    requires vals != []
    ensures Folded(Sum, vals) == Total(vals)
  {
    if |vals| == 1 {
      assert vals[..0] == [];
    } else {
      SumIsTotal(vals[..|vals| - 1]);
    }
  }

  lemma {:induction false} TotalIgnoresOrder(a: seq<real>, b: seq<real>)
    requires multiset(a) == multiset(b)
    ensures Total(a) == Total(b)
  {
    if a == [] {
      assert |multiset(b)| == 0;
    } else {
      var n := |a| - 1;
      var k := FindLast(a, b);
      SumCut(b, k);
      TotalIgnoresOrder(a[..n], b[..k] + b[k + 1..]);
    }
  }

  lemma {:induction false} FindLast<T>(a: seq<T>, b: seq<T>) returns (k: nat)
    requires multiset(a) == multiset(b) && a != []
    ensures k < |b| && b[k] == a[|a| - 1] && multiset(a[..|a| - 1]) == multiset(b[..k] + b[k + 1..])
  {
    var n := |a| - 1;
    assert a == a[..n] + [a[n]] && a[n] in multiset(b);
    k :| 0 <= k < |b| && b[k] == a[n];
    CutOne(b, k);
  }

  lemma {:induction false} CutOne<T>(s: seq<T>, k: nat)
    requires k < |s|
    ensures multiset(s[..k] + s[k + 1..]) == multiset(s) - multiset{s[k]}
  {
    assert s == s[..k] + [s[k]] + s[k + 1..];
  }

  /** Sums, minima and maxima do not depend on the order of the values. */
  lemma {:induction false} FoldIgnoresOrder(how: Combining, a: seq<real>, b: seq<real>)
    requires how != Latest && a != [] && multiset(a) == multiset(b)
    ensures b != [] && Folded(how, a) == Folded(how, b)
  {
    assert a[0] in multiset(b);
    FoldedIsExtreme(a);
    FoldedIsExtreme(b);
    SumIsTotal(a);
    SumIsTotal(b);
    TotalIgnoresOrder(a, b);
    assert forall x :: x in a <==> x in multiset(a);
    assert forall x :: x in b <==> x in multiset(b);
  }

  lemma {:induction false} ValuesCut(name: string, group: seq<Instance>, k: nat)
    requires k < |group|
    ensures multiset(Values(name, group)) == multiset(Values(name, group[..k] + group[k + 1..])) +
            if name in group[k].kpis then multiset{group[k].kpis[name]} else multiset{}
  {
    var before, after := group[..k], group[k + 1..];
    ValuesConcat(name, before, after);
    ValuesConcat(name, before, [group[k]] + after);
    ValuesConcat(name, [group[k]], after);
    assert group == before + ([group[k]] + after);
    assert [group[k]][..0] == [];
    Middle(Values(name, before), Values(name, [group[k]]), Values(name, after));
  }

  lemma {:induction false} Middle<T>(a: seq<T>, x: seq<T>, b: seq<T>)
    ensures multiset(a + (x + b)) == multiset(a + b) + multiset(x)
  {
  }

  lemma {:induction false} ValuesPermute(name: string, a: seq<Instance>, b: seq<Instance>)
    requires multiset(a) == multiset(b)
    ensures multiset(Values(name, a)) == multiset(Values(name, b))
  {
    if a == [] {
      assert |multiset(b)| == 0;
    } else {
      var n := |a| - 1;
      var k := FindLast(a, b);
      ValuesCut(name, b, k);
      ValuesCut(name, a, n);
      assert a[..n] + a[n + 1..] == a[..n];
      ValuesPermute(name, a[..n], b[..k] + b[k + 1..]);
    }
  }

  /**
   For sum, min and max: folding every path over time and then the paths gives what folding all instances at once
   does, however instances, groups and contributors are ordered.
   */
  lemma {:induction false} TwoLevelsAreOne(how: Combining, name: string, groups: seq<seq<Instance>>,
      contrib: seq<Instance>, all: seq<Instance>)
    requires how != Latest && Contribute(how, name, groups, contrib) && multiset(all) == multiset(Concat(groups))
    ensures Values(name, contrib) == [] <==> Values(name, all) == []
    ensures Values(name, all) != [] ==> Folded(how, Values(name, contrib)) == Folded(how, Values(name, all))
  {
    FoldsNest(how, name, groups, contrib);
    ValuesPermute(name, all, Concat(groups));
    if Values(name, all) != [] {
      FoldIgnoresOrder(how, Values(name, all), Values(name, Concat(groups)));
    } else {
      assert |multiset(Values(name, Concat(groups)))| == 0;
    }
  }

  // ----- The latest value -----

  /** The last instance of a group that reports the KPI. */
  function LastReport(name: string, group: seq<Instance>): (last: Option<Instance>)
    ensures last.Some? ==> last.value in group && name in last.value.kpis
    ensures last.None? <==> Values(name, group) == []
  {
    if group == [] then None
    else if name in group[|group| - 1].kpis then Some(group[|group| - 1])
    else LastReport(name, group[..|group| - 1])
  }

  lemma {:induction false} LastIsReported(name: string, group: seq<Instance>)
    requires Values(name, group) != []
    ensures Folded(Latest, Values(name, group)) == LastReport(name, group).value.kpis[name]
  {
    FoldedIsExtreme(Values(name, group));
    var n := |group| - 1;
    if name !in group[n].kpis {
      assert Values(name, group) == Values(name, group[..n]);
      LastIsReported(name, group[..n]);
    }
  }

  ghost predicate InTimeOrder(group: seq<Instance>) {
    forall i, j :: 0 <= i < j < |group| ==> group[i].producedAt <= group[j].producedAt
  }

  /** No instance that reports the KPI is newer than x. */
  ghost predicate NoneNewer(name: string, all: seq<Instance>, x: Instance) {
    forall i :: i in all && name in i.kpis ==> i.producedAt <= x.producedAt
  }

  lemma {:induction false} LastReportIsNewest(name: string, group: seq<Instance>)
    requires InTimeOrder(group) && LastReport(name, group).Some?
    ensures NoneNewer(name, group, LastReport(name, group).value)
  {
    var n := |group| - 1;
    assert group == group[..n] + [group[n]];
    if name !in group[n].kpis {
      LastReportIsNewest(name, group[..n]);
    }
  }

  lemma {:induction false} ConcatHas(groups: seq<seq<Instance>>, i: Instance)
    ensures i in Concat(groups) <==> exists k :: 0 <= k < |groups| && i in groups[k]
  {
    if groups != [] {
      ConcatHas(groups[1..], i);
      assert i in Concat(groups[1..]) <==> exists k :: 1 <= k < |groups| && i in groups[k] by {
        if k :| 1 <= k < |groups| && i in groups[k] { assert groups[1..][k - 1] == groups[k]; }
      }
    }
  }

  /** A group that reports the KPI at all has its last report no later than x. */
  ghost predicate NotAfter(name: string, group: seq<Instance>, x: Instance) {
    LastReport(name, group).Some? ==> LastReport(name, group).value.producedAt <= x.producedAt
  }

  /**
   For the latest value, two levels give the last report of the last contributor that reports. That is a newest
   report of all exactly if no other group's last report is newer.
   */
  lemma {:induction false} LatestExactly(name: string, groups: seq<seq<Instance>>, contrib: seq<Instance>)
    requires Contribute(Latest, name, groups, contrib) && Values(name, contrib) != []
    requires forall k :: 0 <= k < |groups| ==> InTimeOrder(groups[k])
    ensures var x := LastReport(name, Concat(groups));
            && x.Some? && Folded(Latest, Values(name, contrib)) == x.value.kpis[name]
            && (NoneNewer(name, Concat(groups), x.value) <==>
                forall k :: 0 <= k < |groups| ==> NotAfter(name, groups[k], x.value))
  {
    FoldsNest(Latest, name, groups, contrib);
    LastIsReported(name, Concat(groups));
    var x := LastReport(name, Concat(groups)).value;
    if NoneNewer(name, Concat(groups), x) {
      forall k | 0 <= k < |groups|
        ensures NotAfter(name, groups[k], x)
      {
        if LastReport(name, groups[k]).Some? {
          ConcatHas(groups, LastReport(name, groups[k]).value);
        }
      }
    }
    if forall k :: 0 <= k < |groups| ==> NotAfter(name, groups[k], x) {
      forall i | i in Concat(groups) && name in i.kpis
        ensures i.producedAt <= x.producedAt
      {
        ConcatHas(groups, i);
        var k :| 0 <= k < |groups| && i in groups[k];
        ReportersReport(name, groups[k], i);
        LastReportIsNewest(name, groups[k]);
        assert NotAfter(name, groups[k], x);
      }
    }
  }

  lemma {:induction false} ReportersReport(name: string, group: seq<Instance>, i: Instance)
    requires i in group && name in i.kpis
    ensures LastReport(name, group).Some?
  {
    var n := |group| - 1;
    assert group == group[..n] + [group[n]];
    if name !in group[n].kpis { ReportersReport(name, group[..n], i); }
  }

  /** A path whose newest instance leaves the KPI out hides a newer report of another path. */
  lemma {:induction false} LatestCanBeOld(early: Instance, silent: Instance, other: Instance)
    requires early == Instance("d", "a", 1, "p", map["k" := 5.0])
    requires silent == Instance("d", "a", 10, "p", map[]) && other == Instance("d", "b", 5, "p", map["k" := 7.0])
    ensures LastReport("k", Concat([[other], [early, silent]])) == Some(early)
    ensures !NoneNewer("k", Concat([[other], [early, silent]]), early)
  {
    var groups := [[other], [early, silent]];
    assert groups[1..] == [[early, silent]] && [[early, silent]][1..] == [];
    assert Concat([[early, silent]]) == [early, silent] + [] == [early, silent];
    var all := [other, early, silent];
    assert Concat(groups) == all && all[..2] == [other, early];
    assert other in all && "k" in other.kpis;
  }

  // ----- The contributors of a period -----

  /** What is asked for: a definition at a scope over a period. */
  datatype Query = Query(definition: string, scope: string, period: Period)

  predicate Counts(q: Query, i: Instance) {
    Wanted(q.definition, q.scope, i) && q.period.Contains(i.producedAt)
  }

  const OLDER: (Instance, Instance) -> bool := (a: Instance, b: Instance) => a.producedAt < b.producedAt

  /** The instances of a path that count, as they are listed. */
  function Listed(q: Query, all: seq<Instance>, path: string): seq<Instance> {
    if all == [] then []
    else
      var last := all[|all| - 1];
      Listed(q, all[..|all| - 1], path)
      + if last.path == path && Counts(q, last) then [last] else []
  }

  lemma {:induction false} ListedSnoc(q: Query, all: seq<Instance>,
      i: Instance, path: string)
    ensures Listed(q, all + [i], path) ==
            Listed(q, all, path)
            + if i.path == path && Counts(q, i) then [i] else []
  {
    assert (all + [i])[..|all|] == all;
  }

  lemma {:induction false} ListedAre(q: Query, all: seq<Instance>, path: string)
    ensures forall i :: i in Listed(q, all, path) ==>
              i in all && i.path == path && Counts(q, i)
  {
    if all != [] {
      ListedAre(q, all[..|all| - 1], path);
    }
  }

  /** In order of time. */
  function Group(q: Query, all: seq<Instance>, path: string): (group: seq<Instance>)
    ensures |group| == |Listed(q, all, path)|
  {
    StableSort(OLDER, Listed(q, all, path))
  }

  lemma {:induction false} GroupIsInOrder(q: Query, all: seq<Instance>, path: string)
    ensures var group := Group(q, all, path);
            InTimeOrder(group) && forall i :: i in group ==> i.path == path
  {
    var listed := Listed(q, all, path);
    OlderIsWeak();
    SortIsSorted(OLDER, listed);
    SortPermutes(OLDER, listed);
    ListedAre(q, all, path);
    assert forall i :: i in StableSort(OLDER, listed) <==> i in multiset(StableSort(OLDER, listed));
    assert forall i, j :: 0 <= i < j < |StableSort(OLDER, listed)| ==>
             !OLDER(StableSort(OLDER, listed)[j], StableSort(OLDER, listed)[i]);
  }

  /** Of the definition or of none, of that path at or below the scope, and produced within the period. */
  predicate Meant(q: Query, i: Instance, path: string) {
    && i.path == path && (i.definition == "" || i.definition == q.definition)
    && ScopeWithin(q.scope, path)
    && q.period.start <= i.producedAt && i.producedAt < q.period.end
  }

  lemma {:induction false} ListedIs(q: Query, all: seq<Instance>, path: string)
    ensures Listed(q, all, path) == Filter((i: Instance) => Meant(q, i, path), all)
  {
    if all != [] {
      var init, last := all[..|all| - 1], all[|all| - 1];
      assert all == init + [last];
      ListedIs(q, init, path);
      FilterSnoc((i: Instance) => Meant(q, i, path), init, last);
    }
  }

  /** A group has exactly the instances that are meant, the oldest first, and those of one time as they were listed. */
  lemma {:induction false} GroupIs(q: Query, all: seq<Instance>, path: string, t: int)
    ensures var meant, group := Filter((i: Instance) => Meant(q, i, path), all), Group(q, all, path);
            && multiset(group) == multiset(meant)
            && (forall i, j :: 0 <= i < j < |group| ==> group[i].producedAt <= group[j].producedAt)
            && Filter((i: Instance) => i.producedAt == t, group) == Filter((i: Instance) => i.producedAt == t, meant)
  {
    var meant := Filter((i: Instance) => Meant(q, i, path), all);
    var at: Instance -> bool := (i: Instance) => i.producedAt == t;
    ListedIs(q, all, path);
    OlderIsWeak();
    SortKeepsTied(OLDER, at, meant);
    SortedByAge(meant);
  }

  lemma {:induction false} SortedByAge(s: seq<Instance>)
    ensures var sorted := StableSort(OLDER, s);
            multiset(sorted) == multiset(s)
            && forall i, j :: 0 <= i < j < |sorted| ==> sorted[i].producedAt <= sorted[j].producedAt
  {
    OlderIsWeak();
    SortPermutes(OLDER, s);
    SortIsSorted(OLDER, s);
  }

  lemma {:induction false} OlderIsWeak()
    ensures WeakOrder(OLDER)
  {
    forall a, b
      ensures OneWay(OLDER, a, b)
    {
    }
    forall a, b, c
      ensures Steps(OLDER, a, b, c)
    {
    }
  }

  ghost predicate OnePerPath(s: seq<Instance>) {
    forall i, j :: 0 <= i < j < |s| ==> s[i].path != s[j].path
  }

  lemma {:induction false} SortKeepsPaths(s: seq<Instance>)
    requires OnePerPath(s)
    ensures OnePerPath(StableSort(BY_AGE, s)) && forall i :: i in StableSort(BY_AGE, s) <==> i in s
  {
    if s != [] {
      SortKeepsPaths(s[1..]);
      assert s == [s[0]] + s[1..];
      InsertOnce(s[0], StableSort(BY_AGE, s[1..]));
    }
  }

  /** The paths that have an instance that counts, each once, with those instances. */
  ghost predicate ByPath(q: Query, all: seq<Instance>, order: seq<string>, byPath: map<string, seq<Instance>>) {
    && (forall i, j :: 0 <= i < j < |order| ==> order[i] != order[j])
    && (forall path :: path in order <==> path in byPath)
    && (forall path :: path in byPath <==> Listed(q, all, path) != [])
    && (forall path :: path in byPath ==> byPath[path] == Listed(q, all, path))
  }

  lemma {:induction false} ByPathSkips(q: Query, all: seq<Instance>, order: seq<string>,
      byPath: map<string, seq<Instance>>, i: Instance)
    requires ByPath(q, all, order, byPath) && !Counts(q, i)
    ensures ByPath(q, all + [i], order, byPath)
  {
    forall path
      ensures Listed(q, all + [i], path) == Listed(q, all, path)
    {
      ListedSnoc(q, all, i, path);
    }
  }

  /** The instances of each path, with one more of its own. */
  lemma {:induction false} ListedMore(q: Query, all: seq<Instance>, i: Instance)
    requires Counts(q, i)
    ensures Listed(q, all + [i], i.path) == Listed(q, all, i.path) + [i]
    ensures forall path :: path != i.path ==> Listed(q, all + [i], path) == Listed(q, all, path)
  {
    ListedSnoc(q, all, i, i.path);
    forall path | path != i.path
      ensures Listed(q, all + [i], path) == Listed(q, all, path)
    {
      ListedSnoc(q, all, i, path);
    }
  }

  lemma {:induction false} ByPathGrows(q: Query, all: seq<Instance>, order: seq<string>,
      byPath: map<string, seq<Instance>>, i: Instance)
    requires ByPath(q, all, order, byPath) && Counts(q, i) && i.path in byPath
    ensures ByPath(q, all + [i], order, byPath[i.path := byPath[i.path] + [i]])
  {
    ListedMore(q, all, i);
  }

  lemma {:induction false} ByPathBegins(q: Query, all: seq<Instance>, order: seq<string>,
      byPath: map<string, seq<Instance>>, i: Instance)
    requires ByPath(q, all, order, byPath) && Counts(q, i) && i.path !in byPath
    ensures ByPath(q, all + [i], order + [i.path], byPath[i.path := [i]])
  {
    var more, now := all + [i], byPath[i.path := [i]];
    ListedMore(q, all, i);
    assert Listed(q, all, i.path) == [] && [] + [i] == [i];
    forall k | 0 <= k < |order|
      ensures order[k] != i.path
    {
      assert order[k] in order;
    }
    forall path
      ensures path in order + [i.path] <==> path in now
      ensures path in now <==> Listed(q, more, path) != []
      ensures path in now ==> now[path] == Listed(q, more, path)
    {
      if path != i.path {
        assert Listed(q, more, path) == Listed(q, all, path);
      }
    }
  }

  method GroupByPath(q: Query, all: seq<Instance>) returns (order: seq<string>, byPath: map<string, seq<Instance>>)
    ensures ByPath(q, all, order, byPath)
  {
    order, byPath := [], map[];
    for n := 0 to |all|
      invariant ByPath(q, all[..n], order, byPath)
    {
      var i := all[n];
      assert all[..n + 1] == all[..n] + [i];
      if !Counts(q, i) {
        ByPathSkips(q, all[..n], order, byPath, i);
      } else {
        if i.path !in byPath {
          ByPathBegins(q, all[..n], order, byPath, i);
          order := order + [i.path];
          byPath := byPath[i.path := [i]];
        } else {
          ByPathGrows(q, all[..n], order, byPath, i);
          byPath := byPath[i.path := byPath[i.path] + [i]];
        }
      }
    }
    assert all[..|all|] == all;
  }

  /** c stands for the instances of its path. */
  ghost predicate StandsFor(q: Query, specs: seq<string>, policy: string -> KpiPolicy, all: seq<Instance>,
      c: Instance) {
    Group(q, all, c.path) != [] && FoldOf(specs, policy, Group(q, all, c.path), c)
  }

  /**
   One contributor for every path with an instance in the period, folded from that path's, in order of time
   and path.
   */
  method ContributorsIn(q: Query, specs: seq<string>, policy: string -> KpiPolicy, all: seq<Instance>)
    returns (contrib: seq<Instance>)
    ensures Sorted(BY_AGE, contrib) && OnePerPath(contrib)
    ensures forall path :: Listed(q, all, path) != [] <==> exists c :: c in contrib && c.path == path
    ensures forall c :: c in contrib ==> StandsFor(q, specs, policy, all, c)
  {
    var order, byPath := GroupByPath(q, all);
    var folded: seq<Instance> := [];
    for n := 0 to |order|
      invariant |folded| == n
      invariant forall k :: 0 <= k < n ==> folded[k].path == order[k] && StandsFor(q, specs, policy, all, folded[k])
    {
      assert order[n] in order;
      var group := StableSort(OLDER, byPath[order[n]]);
      var c := FoldOverTime(specs, policy, group);
      GroupStands(q, specs, policy, all, order[n], c);
      folded := folded + [c];
    }
    SortKeepsPaths(folded);
    ByAgeIsWeak();
    SortIsSorted(BY_AGE, folded);
    contrib := StableSort(BY_AGE, folded);
    EveryPathStands(q, specs, policy, all, order, folded);
  }

  lemma {:induction false} GroupStands(q: Query, specs: seq<string>, policy: string -> KpiPolicy, all: seq<Instance>,
      path: string, c: Instance)
    requires Group(q, all, path) != [] && FoldOf(specs, policy, Group(q, all, path), c)
    ensures c.path == path && StandsFor(q, specs, policy, all, c)
  {
    GroupIsInOrder(q, all, path);
    assert Group(q, all, path)[|Group(q, all, path)| - 1] in Group(q, all, path);
  }

  lemma {:induction false} EveryPathStands(q: Query, specs: seq<string>, policy: string -> KpiPolicy,
      all: seq<Instance>, order: seq<string>, folded: seq<Instance>)
    requires |folded| == |order| && forall path :: path in order <==> Listed(q, all, path) != []
    requires forall k :: 0 <= k < |order| ==> folded[k].path == order[k]
    ensures forall path :: Listed(q, all, path) != [] <==> exists c :: c in folded && c.path == path
  {
    forall path
      ensures Listed(q, all, path) != [] <==> exists c :: c in folded && c.path == path
    {
      if path in order {
        var k :| 0 <= k < |order| && order[k] == path;
        assert folded[k] in folded;
      }
      if c :| c in folded && c.path == path {
        var k :| 0 <= k < |folded| && folded[k] == c;
        assert order[k] in order;
      }
    }
  }

  // ----- A period's value is that of all its instances -----

  /** All instances that count. */
  function Counted(q: Query, all: seq<Instance>): seq<Instance> {
    if all == [] then []
    else
      var last := all[|all| - 1];
      Counted(q, all[..|all| - 1]) + if Counts(q, last) then [last] else []
  }

  function Groups(q: Query, all: seq<Instance>, contrib: seq<Instance>): (groups: seq<seq<Instance>>)
    ensures |groups| == |contrib| && forall k :: 0 <= k < |contrib| ==> groups[k] == Group(q, all, contrib[k].path)
  {
    seq(|contrib|, k requires 0 <= k < |contrib| => Group(q, all, contrib[k].path))
  }

  lemma {:induction false} CountedOf(q: Query, all: seq<Instance>, x: Instance)
    ensures multiset(Counted(q, all))[x] == multiset(Listed(q, all, x.path))[x]
  {
    if all != [] {
      CountedOf(q, all[..|all| - 1], x);
    }
  }

  /** An element only one of the lots can hold is in all of them as often as in that one. */
  lemma {:induction false} OnlyIn(groups: seq<seq<Instance>>, x: Instance, k: int)
    requires forall l :: 0 <= l < |groups| && l != k ==> x !in groups[l]
    ensures multiset(Concat(groups))[x] == if 0 <= k < |groups| then multiset(groups[k])[x] else 0
  {
    if groups != [] {
      OnlyIn(groups[1..], x, k - 1);
      if k != 0 { assert x !in groups[0]; }
    }
  }

  lemma {:induction false} GroupsHoldAll(q: Query, all: seq<Instance>, contrib: seq<Instance>)
    requires OnePerPath(contrib)
    requires forall path :: Listed(q, all, path) != [] ==> exists c :: c in contrib && c.path == path
    ensures multiset(Concat(Groups(q, all, contrib))) == multiset(Counted(q, all))
  {
    var groups := Groups(q, all, contrib);
    forall x
      ensures multiset(Concat(groups))[x] == multiset(Counted(q, all))[x]
    {
      CountedOf(q, all, x);
      forall l | 0 <= l < |groups| && contrib[l].path != x.path
        ensures x !in groups[l]
      {
        GroupIsInOrder(q, all, contrib[l].path);
      }
      if k :| 0 <= k < |contrib| && contrib[k].path == x.path {
        OnlyIn(groups, x, k);
        SortPermutes(OLDER, Listed(q, all, x.path));
      } else {
        OnlyIn(groups, x, -1);
        assert Listed(q, all, x.path) == [];
      }
    }
  }

  /**
   The sum, minimum or maximum over the contributors of a period is that over all its instances, as listed: folding
   over time loses and repeats nothing.
   */
  lemma {:induction false} PeriodIsFoldedWhole(q: Query, specs: seq<string>, policy: string -> KpiPolicy,
      all: seq<Instance>, contrib: seq<Instance>, how: Combining, name: string)
    requires OnePerPath(contrib) && (forall c :: c in contrib ==> StandsFor(q, specs, policy, all, c))
    requires forall path :: Listed(q, all, path) != [] ==> exists c :: c in contrib && c.path == path
    requires name in specs && policy(name) == Combine(how) && how != Latest
    ensures Values(name, contrib) == [] <==> Values(name, Counted(q, all)) == []
    ensures Values(name, contrib) != [] ==>
              Folded(how, Values(name, contrib)) == Folded(how, Values(name, Counted(q, all)))
  {
    var groups := Groups(q, all, contrib);
    forall k | 0 <= k < |groups|
      ensures groups[k] != [] && ValueOf(name, contrib[k]) == TimeFolded(Combine(how), name, groups[k])
    {
      assert contrib[k] in contrib && StandsFor(q, specs, policy, all, contrib[k]);
    }
    GroupsHoldAll(q, all, contrib);
    TwoLevelsAreOne(how, name, groups, contrib, Counted(q, all));
  }
}
