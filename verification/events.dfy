/** Event streams and their retention. */
module Events {
  import opened Sorting

  const SEVERITY_CRITICAL := "critical"

  datatype Event = Event(
    t: int,
    kind: string,
    severity: string,
    text: string,
    scope: string,
    definition: string,
    attrs: map<string, string>
  )

  const BY_TIME: (Event, Event) -> bool := (a: Event, b: Event) => a.t < b.t

  const CRITICAL: Event -> bool := (e: Event) => e.severity == SEVERITY_CRITICAL

  const REST: Event -> bool := (e: Event) => e.severity != SEVERITY_CRITICAL

  lemma {:induction false} ByTimeIsWeak()
    ensures WeakOrder(BY_TIME)
  {
    forall a, b
      ensures OneWay(BY_TIME, a, b)
    {
    }
    forall a, b, c
      ensures Steps(BY_TIME, a, b, c)
    {
    }
  }

  /** The kept critical events and the kept others of a stream that is over the limit. */
  function KeptCritical(limit: nat, sorted: seq<Event>): seq<Event> {
    Last(limit, Filter(CRITICAL, sorted))
  }

  function KeptRest(limit: nat, sorted: seq<Event>): seq<Event> {
    Last(limit - Min(limit, |KeptCritical(limit, sorted)|), Filter(REST, sorted))
  }

  function Merged(limit: int, all: seq<Event>): seq<Event> {
    var sorted := StableSort(BY_TIME, all);
    if limit <= 0 || |all| <= limit then sorted
    else StableSort(BY_TIME, KeptCritical(limit, sorted) + KeptRest(limit, sorted))
  }

  method MergeEvents(limit: int, batches: seq<seq<Event>>) returns (r: seq<Event>)
    ensures r == Merged(limit, Concat(batches))
  {
    var out := Flatten(batches);
    ghost var all := out;
    out := StableSort(BY_TIME, out);
    if limit <= 0 || |out| <= limit {
      return out;
    }
    var crit, rest := Partition(out);
    if |crit| >= limit {
      OnlyCriticalKept(limit, all);
      return crit[|crit| - limit..];
    }
    SplitCounts(out);
    KeptWithRoom(limit, out);
    rest := rest[|rest| - (limit - |crit|)..];
    r := StableSort(BY_TIME, crit + rest);
  }

  lemma {:induction false} KeptWithRoom(limit: nat, sorted: seq<Event>)
    requires |Filter(CRITICAL, sorted)| < limit < |sorted|
    requires |Filter(CRITICAL, sorted)| + |Filter(REST, sorted)| == |sorted|
    ensures var crit, rest := Filter(CRITICAL, sorted), Filter(REST, sorted);
            KeptCritical(limit, sorted) == crit && KeptRest(limit, sorted) == rest[|rest| - (limit - |crit|)..]
  {
    assert KeptCritical(limit, sorted) == Filter(CRITICAL, sorted);
  }

  method Flatten(batches: seq<seq<Event>>) returns (out: seq<Event>)
    ensures out == Concat(batches)
  {
    out := [];
    for i := 0 to |batches|
      invariant out + Concat(batches[i..]) == Concat(batches)
    {
      assert batches[i..] == [batches[i]] + batches[i + 1..];
      out := out + batches[i];
    }
    assert batches[|batches|..] == [] && out + Concat([]) == out;
  }

  method Partition(out: seq<Event>) returns (crit: seq<Event>, rest: seq<Event>)
    ensures crit == Filter(CRITICAL, out) && rest == Filter(REST, out)
  {
    crit, rest := [], [];
    for i := 0 to |out|
      invariant crit == Filter(CRITICAL, out[..i]) && rest == Filter(REST, out[..i])
    {
      var e := out[i];
      assert out[..i + 1] == out[..i] + [e];
      FilterSnoc(CRITICAL, out[..i], e);
      FilterSnoc(REST, out[..i], e);
      if e.severity == SEVERITY_CRITICAL {
        crit := crit + [e];
      } else {
        rest := rest + [e];
      }
    }
    assert out[..|out|] == out;
  }

  lemma {:induction false} SplitCounts(s: seq<Event>)
    ensures |Filter(CRITICAL, s)| + |Filter(REST, s)| == |s|
    ensures multiset(Filter(CRITICAL, s)) + multiset(Filter(REST, s)) == multiset(s)
  {
    if s != [] {
      SplitCounts(s[1..]);
      assert s == [s[0]] + s[1..];
    }
  }

  lemma {:induction false} FilterIsSorted(keep: Event -> bool, all: seq<Event>)
    ensures Sorted(BY_TIME, Filter(keep, StableSort(BY_TIME, all)))
  {
    ByTimeIsWeak();
    FilterSort(BY_TIME, keep, all);
    SortIsSorted(BY_TIME, Filter(keep, all));
  }

  /** When critical events alone fill the limit, sorting again changes nothing. */
  lemma {:induction false} OnlyCriticalKept(limit: nat, all: seq<Event>)
    requires limit > 0 && |Filter(CRITICAL, StableSort(BY_TIME, all))| >= limit
    ensures var sorted := StableSort(BY_TIME, all);
            && KeptRest(limit, sorted) == []
            && StableSort(BY_TIME, KeptCritical(limit, sorted) + KeptRest(limit, sorted)) == KeptCritical(limit, sorted)
  {
    var sorted := StableSort(BY_TIME, all);
    var kept := KeptCritical(limit, sorted);
    FilterIsSorted(CRITICAL, all);
    FirstIsSorted(BY_TIME, limit, Filter(CRITICAL, sorted));
    assert kept + KeptRest(limit, sorted) == kept;
    SortOfSorted(BY_TIME, kept);
  }

  // ----- What the merge promises -----

  lemma {:induction false} FilterOfConcat(keep: Event -> bool, a: seq<Event>, b: seq<Event>)
    ensures Filter(keep, a + b) == Filter(keep, a) + Filter(keep, b)
  {
    if b == [] {
      assert a + b == a;
    } else {
      var n := |b| - 1;
      FilterOfConcat(keep, a, b[..n]);
      FilterSnoc(keep, b[..n], b[n]);
      FilterSnoc(keep, a + b[..n], b[n]);
      assert b == b[..n] + [b[n]] && a + b == (a + b[..n]) + [b[n]];
    }
  }

  lemma {:induction false} FilterAll(keep: Event -> bool, s: seq<Event>)
    requires forall e :: e in s ==> keep(e)
    ensures Filter(keep, s) == s
  {
    if s != [] {
      FilterAll(keep, s[1..]);
      assert s == [s[0]] + s[1..];
    }
  }

  lemma {:induction false} FilterNone(keep: Event -> bool, s: seq<Event>)
    requires forall e :: e in s ==> !keep(e)
    ensures Filter(keep, s) == []
  {
    if s != [] {
      FilterNone(keep, s[1..]);
    }
  }

  /**
   For a limit k > 0: the merge has min(k, total) events in time order. Of the critical ones it keeps the
   newest, as many as fit, and of the others the newest, as many as are left room for.
   */
  lemma {:induction false} MergeKeepsNewest(limit: nat, all: seq<Event>)
    requires limit > 0
    ensures var sorted, r := StableSort(BY_TIME, all), Merged(limit, all);
            var crit, rest := Filter(CRITICAL, sorted), Filter(REST, sorted);
            && |r| == Min(limit, |all|)
            && Sorted(BY_TIME, r)
            && Filter(CRITICAL, r) == Last(limit, crit)
            && Filter(REST, r) == Last(limit - Min(limit, |crit|), rest)
  {
    if limit < |all| {
      MergeOver(limit, all);
      KeptAre(limit, StableSort(BY_TIME, all));
    } else {
      MergeWithin(limit, all);
      AllFit(limit, StableSort(BY_TIME, all));
    }
  }

  lemma {:induction false} KeptAre(limit: nat, sorted: seq<Event>)
    ensures var crit, rest := Filter(CRITICAL, sorted), Filter(REST, sorted);
            && KeptCritical(limit, sorted) == Last(limit, crit)
            && KeptRest(limit, sorted) == Last(limit - Min(limit, |crit|), rest)
  {
    assert Min(limit, |KeptCritical(limit, sorted)|) == Min(limit, |Filter(CRITICAL, sorted)|);
  }

  lemma {:induction false} MergeWithin(limit: nat, all: seq<Event>)
    requires limit > 0 && |all| <= limit
    ensures Merged(limit, all) == StableSort(BY_TIME, all) && Sorted(BY_TIME, StableSort(BY_TIME, all))
  {
    ByTimeIsWeak();
    SortIsSorted(BY_TIME, all);
  }

  lemma {:induction false} AllFit(limit: nat, sorted: seq<Event>)
    requires |sorted| <= limit
    ensures var crit, rest := Filter(CRITICAL, sorted), Filter(REST, sorted);
            Last(limit, crit) == crit && Last(limit - Min(limit, |crit|), rest) == rest
  {
    SplitCounts(sorted);
    LastOfAll(limit, Filter(CRITICAL, sorted));
    LastOfAll(limit - |Filter(CRITICAL, sorted)|, Filter(REST, sorted));
  }

  lemma {:induction false} LastOfAll<T>(k: nat, s: seq<T>)
    requires |s| <= k
    ensures Last(k, s) == s
  {
  }

  lemma {:induction false} MergeOver(limit: nat, all: seq<Event>)
    requires 0 < limit < |all|
    ensures var sorted, r := StableSort(BY_TIME, all), Merged(limit, all);
            && |r| == limit && Sorted(BY_TIME, r)
            && Filter(CRITICAL, r) == KeptCritical(limit, sorted) && Filter(REST, r) == KeptRest(limit, sorted)
  {
    var sorted := StableSort(BY_TIME, all);
    SplitCounts(sorted);
    ByTimeIsWeak();
    SortIsSorted(BY_TIME, KeptCritical(limit, sorted) + KeptRest(limit, sorted));
    KeptParts(limit, all);
  }

  /** Sorting the kept ones again leaves each kind as it was. */
  lemma {:induction false} KeptParts(limit: nat, all: seq<Event>)
    ensures var sorted := StableSort(BY_TIME, all);
            var c, o := KeptCritical(limit, sorted), KeptRest(limit, sorted);
            Filter(CRITICAL, StableSort(BY_TIME, c + o)) == c && Filter(REST, StableSort(BY_TIME, c + o)) == o
  {
    var sorted := StableSort(BY_TIME, all);
    var c, o := KeptCritical(limit, sorted), KeptRest(limit, sorted);
    FilterKeeps(CRITICAL, sorted);
    FilterKeeps(REST, sorted);
    LastKeeps(limit, Filter(CRITICAL, sorted));
    LastKeeps(limit - Min(limit, |c|), Filter(REST, sorted));
    KeptPartsAreSorted(limit, all);
    PartOfSort(CRITICAL, c, o);
    RestOfSort(REST, c, o);
  }

  lemma {:induction false} LastKeeps<T>(k: nat, s: seq<T>)
    ensures forall x :: x in Last(k, s) ==> x in s
  {
  }

  lemma {:induction false} PartOfSort(keep: Event -> bool, a: seq<Event>, b: seq<Event>)
    requires Sorted(BY_TIME, a) && (forall e :: e in a ==> keep(e)) && (forall e :: e in b ==> !keep(e))
    ensures Filter(keep, StableSort(BY_TIME, a + b)) == a
  {
    ByTimeIsWeak();
    FilterSort(BY_TIME, keep, a + b);
    FilterOfConcat(keep, a, b);
    FilterAll(keep, a);
    FilterNone(keep, b);
    assert a + [] == a;
    SortOfSorted(BY_TIME, a);
  }

  lemma {:induction false} RestOfSort(keep: Event -> bool, a: seq<Event>, b: seq<Event>)
    requires Sorted(BY_TIME, b) && (forall e :: e in a ==> !keep(e)) && (forall e :: e in b ==> keep(e))
    ensures Filter(keep, StableSort(BY_TIME, a + b)) == b
  {
    ByTimeIsWeak();
    FilterSort(BY_TIME, keep, a + b);
    FilterOfConcat(keep, a, b);
    FilterNone(keep, a);
    FilterAll(keep, b);
    assert [] + b == b;
    SortOfSorted(BY_TIME, b);
  }

  lemma {:induction false} KeptPartsAreSorted(limit: nat, all: seq<Event>)
    ensures Sorted(BY_TIME, KeptCritical(limit, StableSort(BY_TIME, all)))
    ensures Sorted(BY_TIME, KeptRest(limit, StableSort(BY_TIME, all)))
  {
    var sorted := StableSort(BY_TIME, all);
    FilterIsSorted(CRITICAL, all);
    FilterIsSorted(REST, all);
    FirstIsSorted(BY_TIME, limit, Filter(CRITICAL, sorted));
    FirstIsSorted(BY_TIME, limit - Min(limit, |KeptCritical(limit, sorted)|), Filter(REST, sorted));
  }

  /** While the critical events fit, all of them are kept. */
  lemma {:induction false} CriticalAllKept(limit: nat, all: seq<Event>, e: Event)
    requires limit > 0 && |Filter(CRITICAL, StableSort(BY_TIME, all))| <= limit && CRITICAL(e)
    ensures multiset(Merged(limit, all))[e] == multiset(all)[e]
  {
    var sorted, r := StableSort(BY_TIME, all), Merged(limit, all);
    MergeKeepsNewest(limit, all);
    SortPermutes(BY_TIME, all);
    SplitCounts(sorted);
    SplitCounts(r);
    FilterKeeps(REST, sorted);
    FilterKeeps(REST, r);
    assert e !in Filter(REST, sorted) && e !in Filter(REST, r);
  }

  predicate Dropped(limit: int, all: seq<Event>, e: Event) {
    multiset(Merged(limit, all))[e] < multiset(all)[e]
  }

  /** A critical event is dropped only when nothing but critical events is kept. */
  lemma {:induction false} CriticalGoesLast(limit: nat, all: seq<Event>)
    requires limit > 0
    ensures (exists e :: CRITICAL(e) && Dropped(limit, all, e)) ==>
              forall kept :: kept in Merged(limit, all) ==> CRITICAL(kept)
  {
    if e :| CRITICAL(e) && Dropped(limit, all, e) {
      var sorted, r := StableSort(BY_TIME, all), Merged(limit, all);
      MergeKeepsNewest(limit, all);
      if |Filter(CRITICAL, sorted)| <= limit {
        CriticalAllKept(limit, all, e);
      } else {
        OnlyOfOneKind(r);
      }
    }
  }

  lemma {:induction false} OnlyOfOneKind(r: seq<Event>)
    requires Filter(REST, r) == []
    ensures forall e :: e in r ==> CRITICAL(e)
  {
    SplitCounts(r);
    FilterKeeps(CRITICAL, r);
    forall e | e in r
      ensures CRITICAL(e)
    {
      assert e in multiset(r);
      assert e in multiset(Filter(CRITICAL, r));
    }
  }

  // ----- Retention: pruning after every insert -----

  /** One stored row of a definition and scope; rows are listed as the prune orders them, newest first. */
  datatype Row = Row(at: int, payload: string)

  const NEWEST_FIRST: (Row, Row) -> bool := (a: Row, b: Row) => a.at > b.at

  lemma {:induction false} NewestFirstIsWeak()
    ensures WeakOrder(NEWEST_FIRST)
  {
    forall a, b
      ensures OneWay(NEWEST_FIRST, a, b)
    {
    }
    forall a, b, c
      ensures Steps(NEWEST_FIRST, a, b, c)
    {
    }
  }

  type Group = (string, string)

  /** The last inserted first. */
  function Backwards(batch: seq<Row>): (r: seq<Row>)
    ensures |r| == |batch| && forall i :: 0 <= i < |batch| ==> r[i] == batch[|batch| - 1 - i]
  {
    seq(|batch|, i requires 0 <= i < |batch| => batch[|batch| - 1 - i])
  }

  /** The table, by definition and scope: a prune looks at one of these groups and leaves the others alone. */
  class ReportTable {
    var rows: map<Group, seq<Row>>
    /** Everything ever inserted, the latest insert first. */
    ghost var history: map<Group, seq<Row>>
    const retention: nat

    ghost predicate Valid()
      reads this
    {
      && rows.Keys == history.Keys
      && forall g :: g in rows ==> rows[g] == First(retention, StableSort(NEWEST_FIRST, history[g]))
    }

    constructor (retention: nat)
      ensures Valid() && this.retention == retention && history == map[]
    {
      this.retention := retention;
      rows, history := map[], map[];
    }

    /**
     Inserts a batch, later rows getting larger ids and so counting as newer at the same time, and deletes what
     is not among the newest `retention` rows of the group. Always the newest `retention` rows of everything
     ever inserted are left.
     */
    method Insert(g: Group, batch: seq<Row>)
      requires Valid()
      modifies this
      ensures Valid()
      ensures history == old(history)[g := Backwards(batch) + if g in old(history) then old(history)[g] else []]
    {
      var stored := if g in rows then rows[g] else [];
      ghost var past := if g in history then history[g] else [];
      PruneIsStreaming(retention, Backwards(batch), past);
      var all := StableSort(NEWEST_FIRST, Backwards(batch) + stored);
      rows := rows[g := First(retention, all)];
      history := history[g := Backwards(batch) + past];
    }
  }

  /** Keeping the first k and sorting new rows in is keeping the first k of everything. */
  lemma {:induction false} PruneIsStreaming(k: nat, batch: seq<Row>, past: seq<Row>)
    ensures var kept := First(k, StableSort(NEWEST_FIRST, past));
            First(k, StableSort(NEWEST_FIRST, batch + kept)) == First(k, StableSort(NEWEST_FIRST, batch + past))
  {
    var less := NEWEST_FIRST;
    var sorted := StableSort(less, past);
    var kept := First(k, sorted);
    NewestFirstIsWeak();
    SortIsSorted(less, past);
    FirstIsSorted(less, k, sorted);
    SortOfSorted(less, kept);
    SortConcat(less, batch, kept);
    SortConcat(less, batch, past);
    FirstOfMerge(less, k, StableSort(less, batch), kept);
    FirstOfMerge(less, k, StableSort(less, batch), sorted);
    FirstOfFirst(k, sorted);
  }

  // ----- The same in times and severities -----

  /** A merge has as many events as it may, in order of time, and none that did not come in. */
  lemma {:induction false} MergedInTime(limit: nat, all: seq<Event>)
    requires limit > 0
    ensures var r := Merged(limit, all);
            && |r| == (if |all| < limit then |all| else limit)
            && multiset(r) <= multiset(all)
            && (forall i, j :: 0 <= i < j < |r| ==> r[i].t <= r[j].t)
  {
    MergeKeepsNewest(limit, all);
    NothingNew(limit, all);
  }

  lemma {:induction false} NothingNew(limit: nat, all: seq<Event>)
    requires limit > 0
    ensures multiset(Merged(limit, all)) <= multiset(all)
  {
    SortPermutes(BY_TIME, all);
    SplitCounts(Merged(limit, all));
    SplitCounts(StableSort(BY_TIME, all));
    PartIsKept(limit, all, true);
    PartIsKept(limit, all, false);
  }

  lemma {:induction false} PartIsKept(limit: nat, all: seq<Event>, critical: bool)
    requires limit > 0
    ensures var keep := if critical then CRITICAL else REST;
            multiset(Filter(keep, Merged(limit, all))) <= multiset(Filter(keep, StableSort(BY_TIME, all)))
  {
    var n := KeptOf(limit, all, critical);
    LastSplits(n, Filter(if critical then CRITICAL else REST, StableSort(BY_TIME, all)));
  }

  /** Of two events that are both critical or both not, the newer one is kept. */
  lemma {:induction false} OlderGoes(limit: nat, all: seq<Event>, kept: Event, gone: Event)
    requires limit > 0 && kept in Merged(limit, all) && Dropped(limit, all, gone)
    requires kept.severity == "critical" <==> gone.severity == "critical"
    ensures gone.t <= kept.t
  {
    var keep := if CRITICAL(gone) then CRITICAL else REST;
    var n := KeptOf(limit, all, CRITICAL(gone));
    var sorted, r := StableSort(BY_TIME, all), Merged(limit, all);
    SortPermutes(BY_TIME, all);
    FilterIsSorted(keep, all);
    FilterHas(keep, r, kept);
    FilterHas(keep, r, gone);
    FilterHas(keep, sorted, gone);
    assert kept in multiset(r);
    LastIsNewest(n, Filter(keep, sorted), kept, gone);
  }

  /** How many of a kind are kept: the last ones of the kind in order of time. */
  lemma {:induction false} KeptOf(limit: nat, all: seq<Event>, critical: bool) returns (n: nat)
    requires limit > 0
    ensures var keep := if critical then CRITICAL else REST;
            Filter(keep, Merged(limit, all)) == Last(n, Filter(keep, StableSort(BY_TIME, all)))
  {
    MergeKeepsNewest(limit, all);
    n := if critical then limit else limit - Min(limit, |Filter(CRITICAL, StableSort(BY_TIME, all))|);
  }

  lemma {:induction false} FilterHas(keep: Event -> bool, s: seq<Event>, e: Event)
    ensures multiset(Filter(keep, s))[e] == if keep(e) then multiset(s)[e] else 0
  {
    if s != [] {
      FilterHas(keep, s[1..], e);
      assert s == [s[0]] + s[1..];
    }
  }

  lemma {:induction false} LastSplits<T>(k: nat, s: seq<T>)
    ensures s == s[..|s| - Min(k, |s|)] + Last(k, s)
    ensures multiset(Last(k, s)) <= multiset(s)
  {
    var n := |s| - Min(k, |s|);
    assert s == s[..n] + s[n..];
  }

  lemma {:induction false} LastIsNewest(k: nat, s: seq<Event>, kept: Event, gone: Event)
    requires Sorted(BY_TIME, s) && kept in Last(k, s) && multiset(Last(k, s))[gone] < multiset(s)[gone]
    ensures gone.t <= kept.t
  {
    var n := |s| - Min(k, |s|);
    LastSplits(k, s);
    assert multiset(s) == multiset(s[..n]) + multiset(Last(k, s));
    assert gone in multiset(s[..n]);
    var i :| 0 <= i < n && s[..n][i] == gone;
    var j :| 0 <= j < |Last(k, s)| && Last(k, s)[j] == kept;
    assert s[n + j] == kept && s[i] == gone;
  }

  /**
   What retention leaves of all rows ever inserted, listed with the latest first: as many as it allows, newest first,
   none older than one that is gone; and of rows of the same time those inserted last.
   */
  lemma {:induction false} NewestRowsStay(k: nat, history: seq<Row>, t: int)
    ensures var all, kept := StableSort(NEWEST_FIRST, history), First(k, StableSort(NEWEST_FIRST, history));
            && multiset(all) == multiset(history)
            && |kept| == (if |history| < k then |history| else k) && kept == all[..|kept|]
            && (forall i, j :: 0 <= i < j < |all| ==> all[i].at >= all[j].at)
            && Filter((r: Row) => r.at == t, all) == Filter((r: Row) => r.at == t, history)
  {
    NewestFirstIsWeak();
    SortPermutes(NEWEST_FIRST, history);
    SortIsSorted(NEWEST_FIRST, history);
    var at: Row -> bool := (r: Row) => r.at == t;
    SortKeepsTied(NEWEST_FIRST, at, history);
  }
}
