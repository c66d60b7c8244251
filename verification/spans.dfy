/** Spans: internal/server/api/reports.go. */
module Spans {
  import opened Wrappers
  import opened Sorting
  import opened Events

  /** The event types that open and close spans of a name. */
  datatype SpanSpec = SpanSpec(name: string, start: string, end: string)

  datatype Span = Span(name: string, start: int, end: Option<int>, text: string, scope: string)

  const BY_START: (Span, Span) -> bool := (a: Span, b: Span) => a.start < b.start

  /** A span, the index of the event that opened it and, once closed, of the event that closed it. */
  datatype Match = Match(span: Span, openedBy: nat, closedBy: Option<nat>)

  /** The spans so far, and per scope the places of its open ones, oldest first. */
  datatype Scan = Scan(matches: seq<Match>, open: map<string, seq<nat>>)

  function Queue(open: map<string, seq<nat>>, scope: string): seq<nat> {
    if scope in open then open[scope] else []
  }

  /** The k-th event is taken in. */
  function Take(spec: SpanSpec, s: Scan, k: nat, e: Event): Scan {
    if e.kind == spec.start then
      var span := Span(spec.name, e.t, None, e.text, e.scope);
      Scan(s.matches + [Match(span, k, None)], s.open[e.scope := Queue(s.open, e.scope) + [|s.matches|]])
    else if e.kind == spec.end then
      var queue := Queue(s.open, e.scope);
      if queue == [] || queue[0] >= |s.matches| then s
      else Scan(s.matches[queue[0] := Close(s.matches[queue[0]], k, e)], s.open[e.scope := queue[1..]])
    else s
  }

  function Close(m: Match, k: nat, e: Event): Match {
    m.(span := m.span.(end := Some(e.t)), closedBy := Some(k))
  }

  /** One spec's pass over the first n events, after the spans of earlier specs. */
  function Scanned(spec: SpanSpec, events: seq<Event>, n: nat, before: seq<Match>): Scan
    requires n <= |events|
  {
    if n == 0 then Scan(before, map[])
    else Take(spec, Scanned(spec, events, n - 1, before), n - 1, events[n - 1])
  }

  function Matches(specs: seq<SpanSpec>, events: seq<Event>, n: nat): seq<Match>
    requires n <= |specs|
  {
    if n == 0 then []
    else Scanned(specs[n - 1], events, |events|, Matches(specs, events, n - 1)).matches
  }

  function SpansOf(matches: seq<Match>): (spans: seq<Span>)
    ensures |spans| == |matches|
    ensures forall i :: 0 <= i < |spans| ==> spans[i] == matches[i].span
  {
    seq(|matches|, i requires 0 <= i < |matches| => matches[i].span)
  }

  // ----- What a pass promises -----

  predicate Closes(spec: SpanSpec, e: Event) {
    e.kind == spec.end && e.kind != spec.start
  }

  /** m is a span of that spec as its events have it. */
  predicate Faithful(spec: SpanSpec, events: seq<Event>, n: nat, m: Match)
    requires n <= |events|
  {
    && m.openedBy < n && m.span.name == spec.name
    && var e := events[m.openedBy];
    && e.kind == spec.start && m.span.start == e.t && m.span.text == e.text && m.span.scope == e.scope
    && match m.closedBy {
         case None => m.span.end == None
         case Some(k) =>
           && m.openedBy < k < n && Closes(spec, events[k])
           && events[k].scope == m.span.scope && m.span.end == Some(events[k].t)
       }
  }

  /** First in, first out: of two spans of a scope the later one is closed only after the earlier one. */
  predicate InTurn(a: Match, b: Match) {
    a.openedBy < b.openedBy
    && (a.span.scope == b.span.scope && b.closedBy.Some? ==> a.closedBy.Some? && a.closedBy.value < b.closedBy.value)
  }

  /** The j-th event, if it can open a span, has opened one, and if it can close one, has unless none was open. */
  ghost predicate Used(spec: SpanSpec, events: seq<Event>, from: nat, ms: seq<Match>, j: nat)
    requires j < |events|
  {
    && (events[j].kind == spec.start ==> exists i :: from <= i < |ms| && ms[i].openedBy == j)
    && (Closes(spec, events[j]) ==>
          || (exists i :: from <= i < |ms| && ms[i].closedBy == Some(j))
          || (forall i :: from <= i < |ms| && ms[i].span.scope == events[j].scope && ms[i].openedBy < j ==>
                ms[i].closedBy.Some? && ms[i].closedBy.value < j))
  }

  /** The spans from place `from` on are those of the first n events under the spec, matched first in first out. */
  ghost predicate Fifo(spec: SpanSpec, events: seq<Event>, n: nat, from: nat, ms: seq<Match>)
    requires n <= |events|
  {
    && from <= |ms|
    && (forall i :: from <= i < |ms| ==> Faithful(spec, events, n, ms[i]))
    && (forall i, j :: from <= i < j < |ms| ==> InTurn(ms[i], ms[j]))
    && (forall j :: 0 <= j < n ==> Used(spec, events, from, ms, j))
  }

  predicate Waits(ms: seq<Match>, from: nat, scope: string, i: nat) {
    from <= i < |ms| && ms[i].span.scope == scope && ms[i].closedBy.None?
  }

  /** The queue of a scope holds its open spans in order. */
  ghost predicate Queued(s: Scan, from: nat, scope: string) {
    var queue := Queue(s.open, scope);
    && (forall a, b :: 0 <= a < b < |queue| ==> queue[a] < queue[b])
    && (forall i: nat :: i in queue <==> Waits(s.matches, from, scope, i))
  }

  /** Whatever is still open stays open or is closed by the event at hand. */
  lemma {:induction false} StillUsed(spec: SpanSpec, events: seq<Event>, from: nat, ms: seq<Match>,
      ms': seq<Match>, j: nat, k: nat)
    requires j < k < |events| && Used(spec, events, from, ms, j) && |ms| <= |ms'|
    requires forall i :: 0 <= i < |ms| ==> ms'[i].openedBy == ms[i].openedBy && ms'[i].span.scope == ms[i].span.scope
    requires forall i :: 0 <= i < |ms| && ms[i].closedBy.Some? ==> ms'[i].closedBy == ms[i].closedBy
    requires forall i :: |ms| <= i < |ms'| ==> ms'[i].openedBy == k
    ensures Used(spec, events, from, ms', j)
  {
    if i :| from <= i < |ms| && ms[i].openedBy == j {
      assert ms'[i].openedBy == j;
    }
    if i :| from <= i < |ms| && ms[i].closedBy == Some(j) {
      assert ms'[i].closedBy == Some(j);
    }
  }

  lemma {:induction false} Opens(spec: SpanSpec, events: seq<Event>, n: nat, from: nat, s: Scan)
    requires 0 < n <= |events| && Fifo(spec, events, n - 1, from, s.matches)
    requires events[n - 1].kind == spec.start
    ensures Fifo(spec, events, n, from, Take(spec, s, n - 1, events[n - 1]).matches)
  {
    var ms, ms' := s.matches, Take(spec, s, n - 1, events[n - 1]).matches;
    assert ms'[|ms|].openedBy == n - 1;
    forall j | 0 <= j < n - 1
      ensures Used(spec, events, from, ms', j)
    {
      StillUsed(spec, events, from, ms, ms', j, n - 1);
    }
  }

  lemma {:induction false} Skips(spec: SpanSpec, events: seq<Event>, n: nat, from: nat, s: Scan)
    requires 0 < n <= |events| && Fifo(spec, events, n - 1, from, s.matches) && Queued(s, from, events[n - 1].scope)
    requires events[n - 1].kind != spec.start
    requires Closes(spec, events[n - 1]) ==> Queue(s.open, events[n - 1].scope) == []
    ensures Fifo(spec, events, n, from, s.matches)
  {
    var ms, e := s.matches, events[n - 1];
    forall j | 0 <= j < n - 1
      ensures Used(spec, events, from, ms, j)
    {
      StillUsed(spec, events, from, ms, ms, j, n - 1);
    }
    if Closes(spec, e) {
      forall i | from <= i < |ms| && ms[i].span.scope == e.scope
        ensures ms[i].closedBy.Some? && ms[i].closedBy.value < n - 1
      {
        assert !Waits(ms, from, e.scope, i);
        assert Faithful(spec, events, n - 1, ms[i]);
      }
    }
  }

  lemma {:induction false} ClosesFirst(spec: SpanSpec, events: seq<Event>, n: nat, from: nat, s: Scan)
    requires 0 < n <= |events| && Fifo(spec, events, n - 1, from, s.matches) && Queued(s, from, events[n - 1].scope)
    requires Closes(spec, events[n - 1]) && Queue(s.open, events[n - 1].scope) != []
    ensures Fifo(spec, events, n, from, Take(spec, s, n - 1, events[n - 1]).matches)
  {
    var ms, e := s.matches, events[n - 1];
    var queue := Queue(s.open, e.scope);
    var first := queue[0];
    assert first in queue && Waits(ms, from, e.scope, first);
    var ms' := Take(spec, s, n - 1, e).matches;
    assert ms'[first].closedBy == Some(n - 1);
    assert Faithful(spec, events, n - 1, ms[first]);
    forall j | 0 <= j < n - 1
      ensures Used(spec, events, from, ms', j)
    {
      StillUsed(spec, events, from, ms, ms', j, n - 1);
    }
    forall i, j | from <= i < j < |ms|
      ensures InTurn(ms'[i], ms'[j])
    {
      assert InTurn(ms[i], ms[j]);
      if j == first && ms[i].span.scope == e.scope {
        assert !Waits(ms, from, e.scope, i);
        assert Faithful(spec, events, n - 1, ms[i]);
      }
    }
  }

  lemma {:induction false} QueueAfterOpening(spec: SpanSpec, s: Scan, from: nat, k: nat, e: Event, scope: string)
    requires Queued(s, from, scope) && e.kind == spec.start && from <= |s.matches|
    ensures Queued(Take(spec, s, k, e), from, scope)
  {
    var s' := Take(spec, s, k, e);
    forall i: nat
      ensures i in Queue(s'.open, scope) <==> Waits(s'.matches, from, scope, i)
    {
      assert i in Queue(s.open, scope) <==> Waits(s.matches, from, scope, i);
    }
    forall a | 0 <= a < |Queue(s.open, scope)|
      ensures Queue(s.open, scope)[a] < |s.matches|
    {
      assert Queue(s.open, scope)[a] in Queue(s.open, scope);
    }
  }

  lemma {:induction false} QueueAfterClosing(spec: SpanSpec, s: Scan, from: nat, k: nat, e: Event, scope: string)
    requires Queued(s, from, scope) && Queued(s, from, e.scope) && Closes(spec, e) && Queue(s.open, e.scope) != []
    ensures Queued(Take(spec, s, k, e), from, scope)
  {
    var s' := Take(spec, s, k, e);
    var queue := Queue(s.open, e.scope);
    var first := queue[0];
    assert first in queue && Waits(s.matches, from, e.scope, first);
    assert queue == [first] + queue[1..];
    forall i: nat
      ensures i in Queue(s'.open, scope) <==> Waits(s'.matches, from, scope, i)
    {
      assert i in Queue(s.open, scope) <==> Waits(s.matches, from, scope, i);
    }
  }

  /** One spec's pass matches its events first in, first out, and leaves earlier specs' spans alone. */
  lemma {:induction false} Pass(spec: SpanSpec, events: seq<Event>, n: nat, before: seq<Match>)
    requires n <= |events|
    ensures var s := Scanned(spec, events, n, before);
            && |before| <= |s.matches| && s.matches[..|before|] == before
            && Fifo(spec, events, n, |before|, s.matches)
            && forall scope :: Queued(s, |before|, scope)
  {
    if n > 0 {
      Pass(spec, events, n - 1, before);
      var was, now, e := Scanned(spec, events, n - 1, before), Scanned(spec, events, n, before), events[n - 1];
      if e.kind == spec.start {
        Opens(spec, events, n, |before|, was);
        forall scope
          ensures Queued(now, |before|, scope)
        {
          QueueAfterOpening(spec, was, |before|, n - 1, e, scope);
        }
      } else if Closes(spec, e) && Queue(was.open, e.scope) != [] {
        FirstWaits(was, |before|, e.scope);
        ClosesFirst(spec, events, n, |before|, was);
        forall scope
          ensures Queued(now, |before|, scope)
        {
          QueueAfterClosing(spec, was, |before|, n - 1, e, scope);
        }
      } else {
        Skips(spec, events, n, |before|, was);
      }
    }
  }

  lemma {:induction false} FirstWaits(s: Scan, from: nat, scope: string)
    requires Queued(s, from, scope) && Queue(s.open, scope) != []
    ensures Waits(s.matches, from, scope, Queue(s.open, scope)[0])
  {
    assert Queue(s.open, scope)[0] in Queue(s.open, scope);
  }

  // ----- What it means for the spans -----

  ghost predicate TimeOrdered(events: seq<Event>) {
    Sorted(BY_TIME, events)
  }

  /**
   Matched spans, as a reader sees them: no end closes two of them; the closed ones of a scope come before
   its open ones and end in the order they started; and none, the last included, ends before it starts.
   */
  lemma {:induction false} FifoMeans(spec: SpanSpec, events: seq<Event>, n: nat, from: nat, ms: seq<Match>, i: nat,
      j: nat)
    requires n <= |events| && Fifo(spec, events, n, from, ms) && from <= i <= j < |ms|
    ensures i < j && ms[i].closedBy.Some? ==> ms[i].closedBy != ms[j].closedBy
    ensures ms[i].span.scope == ms[j].span.scope && ms[j].span.end.Some? ==> ms[i].span.end.Some?
    ensures TimeOrdered(events) ==>
              && ms[i].span.start <= ms[j].span.start
              && (ms[i].span.end.Some? ==> ms[i].span.start <= ms[i].span.end.value)
              && (ms[i].span.scope == ms[j].span.scope && ms[j].span.end.Some? ==>
                    ms[i].span.end.value <= ms[j].span.end.value)
  {
    assert Faithful(spec, events, n, ms[i]) && Faithful(spec, events, n, ms[j]);
    assert i < j ==> InTurn(ms[i], ms[j]);
  }

  /** Exactly one span per start event of the spec. */
  lemma {:induction false} OneSpanPerStart(spec: SpanSpec, events: seq<Event>, n: nat, before: seq<Match>)
    requires n <= |events|
    ensures |Scanned(spec, events, n, before).matches| ==
            |before| + |Filter((e: Event) => e.kind == spec.start, events[..n])|
  {
    if n > 0 {
      OneSpanPerStart(spec, events, n - 1, before);
      FilterSnoc((e: Event) => e.kind == spec.start, events[..n - 1], events[n - 1]);
      assert events[..n] == events[..n - 1] + [events[n - 1]];
    }
  }

  /** Where the spans of the k-th spec begin among all of them. */
  function From(specs: seq<SpanSpec>, events: seq<Event>, k: nat): nat
    requires k <= |specs|
  {
    |Matches(specs, events, k)|
  }

  /** Each spec has its own stretch of the spans, and in it they are matched first in, first out. */
  lemma {:induction false} EverySpecIsMatched(specs: seq<SpanSpec>, events: seq<Event>, n: nat, k: nat)
    requires k < n <= |specs|
    ensures var ms := Matches(specs, events, n);
            && From(specs, events, k) <= From(specs, events, k + 1) <= |ms|
            && Fifo(specs[k], events, |events|, From(specs, events, k), ms[..From(specs, events, k + 1)])
  {
    var before := Matches(specs, events, n - 1);
    Pass(specs[n - 1], events, |events|, before);
    var ms := Matches(specs, events, n);
    if k < n - 1 {
      EverySpecIsMatched(specs, events, n - 1, k);
      assert ms[..|before|][..From(specs, events, k + 1)] == ms[..From(specs, events, k + 1)];
    } else {
      assert ms[..|ms|] == ms;
    }
  }


  /** The spans derived are those matched, in the order they start; those that start together, as they were matched. */
  lemma {:induction false} SpansStartInOrder(specs: seq<SpanSpec>, events: seq<Event>, t: int)
    ensures var matched := SpansOf(Matches(specs, events, |specs|));
            var spans := StableSort(BY_START, matched);
            && multiset(spans) == multiset(matched)
            && (forall i, j :: 0 <= i < j < |spans| ==> spans[i].start <= spans[j].start)
            && Filter((s: Span) => s.start == t, spans) == Filter((s: Span) => s.start == t, matched)
  {
    var matched := SpansOf(Matches(specs, events, |specs|));
    var at: Span -> bool := (s: Span) => s.start == t;
    ByStartIsWeak();
    SortPermutes(BY_START, matched);
    SortIsSorted(BY_START, matched);
    SortKeepsTied(BY_START, at, matched);
  }

  lemma {:induction false} ByStartIsWeak()
    ensures WeakOrder(BY_START)
  {
    forall a, b
      ensures OneWay(BY_START, a, b)
    {
    }
    forall a, b, c
      ensures Steps(BY_START, a, b, c)
    {
    }
  }

  // ----- The loops -----

  method DeriveSpans(specs: seq<SpanSpec>, events: seq<Event>) returns (spans: seq<Span>)
    ensures spans == StableSort(BY_START, SpansOf(Matches(specs, events, |specs|)))
  {
    spans := [];
    for i := 0 to |specs|
      invariant spans == SpansOf(Matches(specs, events, i))
    {
      spans := DeriveFor(specs[i], events, spans, Matches(specs, events, i));
    }
    spans := StableSort(BY_START, spans);
  }

  method DeriveFor(spec: SpanSpec, events: seq<Event>, earlier: seq<Span>, ghost before: seq<Match>)
    returns (spans: seq<Span>)
    requires earlier == SpansOf(before)
    ensures spans == SpansOf(Scanned(spec, events, |events|, before).matches)
  {
    spans := earlier;
    var openByScope: map<string, seq<nat>> := map[];
    for k := 0 to |events|
      invariant spans == SpansOf(Scanned(spec, events, k, before).matches)
      invariant openByScope == Scanned(spec, events, k, before).open
    {
      var e := events[k];
      if e.kind == spec.start {
        spans := spans + [Span(spec.name, e.t, None, e.text, e.scope)];
        openByScope := openByScope[e.scope := Queue(openByScope, e.scope) + [|spans| - 1]];
      } else if e.kind == spec.end {
        var queue := Queue(openByScope, e.scope);
        if queue != [] {
          var idx := queue[0];
          Pass(spec, events, k, before);
          FirstWaits(Scanned(spec, events, k, before), |before|, e.scope);
          openByScope := openByScope[e.scope := queue[1..]];
          spans := spans[idx := spans[idx].(end := Some(e.t))];
        }
      }
    }
  }
}
