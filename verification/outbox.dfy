/** The retry outbox of the webhook backend: pkg/messaging/webhook/outbox.go. */
module Outboxes {
  import opened Wrappers

  const MAX_RETAINED_TERMINAL: nat := 1000

  // ----- The backoff schedule -----

  /** Durations are whole numbers of nanoseconds. */
  datatype RetryPolicy = RetryPolicy(initialDelay: int, maxDelay: int, multiplier: real, maxAttempts: int)

  function Truncate(r: real): int {
    if r >= 0.0 then r.Floor else -((-r).Floor)
  }

  function Grown(p: RetryPolicy, d: int): int {
    Truncate(d as real * p.multiplier)
  }

  function AtMost(max: int, d: int): int {
    if d > max then max else d
  }

  /** The delay after `steps` rounds of growth, each cut off at the maximum. */
  function Delay(p: RetryPolicy, steps: nat): int {
    if steps == 0 then AtMost(p.maxDelay, p.initialDelay)
    else AtMost(p.maxDelay, Grown(p, Delay(p, steps - 1)))
  }

  /** The i-th round of growth comes next; going over the maximum ends it. */
  function DelayFrom(p: RetryPolicy, d: int, i: int, attempt: int): int
    decreases attempt - i
  {
    if i < attempt then
      var grown := Grown(p, d);
      if grown > p.maxDelay then p.maxDelay else DelayFrom(p, grown, i + 1, attempt)
    else AtMost(p.maxDelay, d)
  }

  function DelayAfter(p: RetryPolicy, attempt: int): int {
    DelayFrom(p, p.initialDelay, 1, attempt)
  }

  /** Growth that does not shrink delays: what a backoff is. */
  predicate Grows(p: RetryPolicy) {
    p.initialDelay >= 0 && p.maxDelay >= 0 && p.multiplier >= 1.0
  }

  lemma {:induction false} GrownIsMore(p: RetryPolicy, d: int)
    requires Grows(p) && d >= 0
    ensures Grown(p, d) >= d
  {
    NoLess(d as real, p.multiplier);
  }

  lemma {:induction false} NoLess(x: real, factor: real)
    requires x >= 0.0 && factor >= 1.0
    ensures x * factor >= x
  {
    assert x * factor == x + x * (factor - 1.0);
  }

  lemma {:induction false} StepsClimb(p: RetryPolicy, steps: nat)
    requires Grows(p)
    ensures 0 <= Delay(p, steps) <= Delay(p, steps + 1) <= p.maxDelay
  {
    if steps > 0 {
      StepsClimb(p, steps - 1);
    }
    GrownIsMore(p, Delay(p, steps));
  }

  /** Delays never get shorter with the attempts and never go over the maximum. */
  lemma {:induction false} DelayClimbs(p: RetryPolicy, attempt: nat)
    requires Grows(p) && attempt >= 1
    ensures 0 <= DelayAfter(p, attempt) <= DelayAfter(p, attempt + 1) <= p.maxDelay
  {
    DelayInSteps(p, p.initialDelay, 1, attempt);
    DelayInSteps(p, p.initialDelay, 1, attempt + 1);
    StepsClimb(p, attempt - 1);
  }

  /** Growing an uncut delay and cutting it is growing the cut one and cutting that. */
  lemma {:induction false} GrownThenCut(p: RetryPolicy, d: int, steps: nat)
    requires Grows(p) && d >= 0 && AtMost(p.maxDelay, d) == Delay(p, steps)
    ensures AtMost(p.maxDelay, Grown(p, d)) == Delay(p, steps + 1) && Grown(p, d) >= 0
  {
    GrownIsMore(p, d);
    GrownIsMore(p, p.maxDelay);
  }

  method DelayFor(p: RetryPolicy, attempt: int) returns (d: int)
    ensures d == DelayAfter(p, attempt)
  {
    d := p.initialDelay;
    var i := 1;
    while i < attempt
      invariant i >= 1 && DelayFrom(p, d, i, attempt) == DelayAfter(p, attempt)
    {
      d := Grown(p, d);
      if d > p.maxDelay {
        return p.maxDelay;
      }
      i := i + 1;
    }
    d := AtMost(p.maxDelay, d);
  }

  /** For growing delays, ending the growth at the maximum is the same as cutting every round. */
  lemma {:induction false} DelayInSteps(p: RetryPolicy, d: int, i: int, attempt: int)
    requires Grows(p) && 1 <= i && d >= 0 && AtMost(p.maxDelay, d) == Delay(p, i - 1)
    ensures DelayFrom(p, d, i, attempt) == Delay(p, if i < attempt then attempt - 1 else i - 1)
    decreases attempt - i
  {
    if i < attempt {
      GrownThenCut(p, d, i - 1);
      if Grown(p, d) > p.maxDelay {
        StaysAtMax(p, i, attempt - 1);
      } else {
        DelayInSteps(p, Grown(p, d), i + 1, attempt);
      }
    }
  }

  lemma {:induction false} StaysAtMax(p: RetryPolicy, low: nat, high: nat)
    requires Grows(p) && low <= high && Delay(p, low) == p.maxDelay
    ensures Delay(p, high) == p.maxDelay
    decreases high
  {
    if low < high {
      StaysAtMax(p, low, high - 1);
      GrownIsMore(p, p.maxDelay);
    }
  }

  function Power2(n: nat): (r: nat)
    ensures r >= 1
  {
    if n == 0 then 1 else 2 * Power2(n - 1)
  }

  /** When delays double, the one before attempt n + 1 is the initial one times 2 to the n - 1, or the maximum. */
  lemma {:induction false} Doubling(p: RetryPolicy, n: int)
    requires Grows(p) && p.multiplier == 2.0 && n >= 1
    ensures DelayAfter(p, n) == AtMost(p.maxDelay, p.initialDelay * Power2(n - 1))
  {
    DelayInSteps(p, p.initialDelay, 1, n);
    DoublingSteps(p, n - 1);
  }

  lemma {:induction false} DoublingSteps(p: RetryPolicy, steps: nat)
    requires Grows(p) && p.multiplier == 2.0
    ensures Delay(p, steps) == AtMost(p.maxDelay, p.initialDelay * Power2(steps))
  {
    if steps > 0 {
      DoublingSteps(p, steps - 1);
      var d := Delay(p, steps - 1);
      assert d as real * 2.0 == (2 * d) as real;
      Twice(p.initialDelay, Power2(steps - 1));
    }
  }

  lemma {:induction false} Twice(a: nat, b: nat)
    ensures a * (2 * b) == 2 * (a * b) >= a * b
  {
  }

  // ----- Items -----

  datatype Item = Item(env: Envelope, attempts: int, nextAttempt: int, delivered: bool, failed: bool,
      lastErr: Option<string>) {

    predicate Finished() {
      delivered || failed
    }
  }

  datatype Envelope = Envelope(id: Id, body: string)

  type Items = map<Id, Item>

  predicate IsPending(items: Items, id: Id) {
    id in items && !items[id].Finished()
  }

  predicate IsFinished(items: Items, id: Id) {
    id in items && items[id].Finished()
  }

  /** The item after one more attempt; no error means it was delivered. */
  function Tried(p: RetryPolicy, it: Item, err: Option<string>, now: int): Item {
    var more := it.(attempts := it.attempts + 1, lastErr := err);
    if err.None? then more.(delivered := true)
    else if more.attempts >= p.maxAttempts then more.(failed := true)
    else more.(nextAttempt := now + DelayAfter(p, more.attempts))
  }

  function Enqueued(p: RetryPolicy, env: Envelope, attempts: int, err: Option<string>, now: int): Item {
    if attempts >= p.maxAttempts then Item(env, attempts, 0, false, true, err)
    else Item(env, attempts, now + DelayAfter(p, attempts), false, false, err)
  }

  /**
   A failed attempt that is not the last puts the next one off by the delay for as many attempts: when delays double,
   by the initial one times 2 for every attempt before, up to the maximum.
   */
  lemma {:induction false} FailureWaits(p: RetryPolicy, it: Item, err: string, now: int)
    requires !it.Finished() && it.attempts + 1 < p.maxAttempts
    ensures var it', n := Tried(p, it, Some(err), now), it.attempts + 1;
            && !it'.delivered && !it'.failed && it'.attempts == n && it'.lastErr == Some(err) && it'.env == it.env
            && it'.nextAttempt == now + DelayAfter(p, n)
            && (Grows(p) && p.multiplier == 2.0 && n >= 1 ==>
                  var delay := p.initialDelay * Power2(n - 1);
                  it'.nextAttempt == now + if delay > p.maxDelay then p.maxDelay else delay)
  {
    if Grows(p) && p.multiplier == 2.0 && it.attempts >= 0 {
      Doubling(p, it.attempts + 1);
    }
  }

  /** So a failed attempt that is not the last leaves the item in the table to wait that long. */
  lemma {:induction false} FailedWaitsInTable(p: RetryPolicy, items: Items, terminal: seq<Id>, id: Id, err: string,
      now: int)
    requires Listed(items, terminal) && |terminal| <= MAX_RETAINED_TERMINAL
    requires IsPending(items, id) && items[id].attempts + 1 < p.maxAttempts
    ensures var items' := Put(items, terminal, id, Tried(p, items[id], Some(err), now)).0;
            && IsPending(items', id) && items'[id].attempts == items[id].attempts + 1
            && items'[id].nextAttempt == now + DelayAfter(p, items'[id].attempts)
  {
    PutKeeps(items, terminal, id, Tried(p, items[id], Some(err), now));
  }

  /** The last attempt settles it, and so does the first that succeeds. */
  lemma {:induction false} LastAttemptSettles(p: RetryPolicy, it: Item, err: Option<string>, now: int)
    requires !it.Finished()
    ensures var it' := Tried(p, it, err, now);
            && (it'.delivered <==> err.None?)
            && (it'.failed <==> err.Some? && it.attempts + 1 >= p.maxAttempts)
            && it'.attempts == it.attempts + 1 && it'.lastErr == err && it'.env == it.env
  {
  }

  /** What the bookkeeping of an item never violates. */
  predicate Sound(p: RetryPolicy, it: Item) {
    && !(it.delivered && it.failed)
    && it.attempts <= p.maxAttempts
    && (it.failed ==> it.attempts == p.maxAttempts)
    && (!it.Finished() ==> it.attempts < p.maxAttempts)
  }

  // ----- Retention -----

  /** The finished items are listed, each once. */
  ghost predicate Listed(items: Items, terminal: seq<Id>) {
    NoDup(terminal) && forall id :: id in terminal <==> IsFinished(items, id)
  }

  /** Finished items are forgotten, oldest first, until few enough are left. */
  function Retain(items: Items, terminal: seq<Id>): (Items, seq<Id>)
    decreases |terminal|
  {
    if |terminal| <= MAX_RETAINED_TERMINAL then (items, terminal)
    else
      var oldest := terminal[0];
      Retain(if IsFinished(items, oldest) then items - {oldest} else items, terminal[1..])
  }

  /** One more finished item pushes out at most the oldest one, and never one that is pending. */
  lemma {:induction false} RetainForgetsOldest(items: Items, terminal: seq<Id>)
    requires Listed(items, terminal) && |terminal| <= MAX_RETAINED_TERMINAL + 1
    ensures var (items', terminal') := Retain(items, terminal);
            && Listed(items', terminal') && |terminal'| <= MAX_RETAINED_TERMINAL
            && items' == (if |terminal| <= MAX_RETAINED_TERMINAL then items else items - {terminal[0]})
            && forall id :: IsPending(items', id) <==> IsPending(items, id)
  {
    if |terminal| > MAX_RETAINED_TERMINAL {
      var oldest, rest := terminal[0], terminal[1..];
      assert oldest in terminal;
      assert terminal == [oldest] + rest;
      forall id
        ensures id in rest <==> IsFinished(items - {oldest}, id)
      {
        assert id in terminal <==> IsFinished(items, id);
      }
    }
  }

  /** One finished id more in the list. */
  lemma {:induction false} ListedMore(items: Items, terminal: seq<Id>, id: Id, it: Item)
    requires Listed(items, terminal) && !IsFinished(items, id) && it.Finished()
    ensures Listed(items[id := it], terminal + [id])
  {
    forall x
      ensures x in terminal + [id] <==> IsFinished(items[id := it], x)
    {
      assert x in terminal <==> IsFinished(items, x);
    }
  }

  lemma {:induction false} ListedSame(items: Items, terminal: seq<Id>, id: Id, it: Item)
    requires Listed(items, terminal) && !IsFinished(items, id) && !it.Finished()
    ensures Listed(items[id := it], terminal)
  {
    forall x
      ensures x in terminal <==> IsFinished(items[id := it], x)
    {
      assert x in terminal <==> IsFinished(items, x);
    }
  }

  /** What putting a new version of an unfinished or new item does to the table and the list. */
  function Put(items: Items, terminal: seq<Id>, id: Id, it: Item): (Items, seq<Id>) {
    if it.Finished() then Retain(items[id := it], terminal + [id]) else (items[id := it], terminal)
  }

  lemma {:induction false} PutKeeps(items: Items, terminal: seq<Id>, id: Id, it: Item)
    requires Listed(items, terminal) && |terminal| <= MAX_RETAINED_TERMINAL && !IsFinished(items, id)
    ensures var (items', terminal') := Put(items, terminal, id, it);
            && Listed(items', terminal') && |terminal'| <= MAX_RETAINED_TERMINAL
            && items'.Keys <= items.Keys + {id}
            && (forall x :: x in items' ==> items'[x] == (if x == id then it else items[x]))
            && (forall x :: IsPending(items', x) <==> (if x == id then !it.Finished() else IsPending(items, x)))
            && (forall x :: x in items && x !in items' ==> x == id || IsFinished(items, x))
  {
    if it.Finished() {
      ListedMore(items, terminal, id, it);
      RetainForgetsOldest(items[id := it], terminal + [id]);
      var oldest := (terminal + [id])[0];
      assert oldest in terminal + [id];
      assert oldest in terminal || oldest == id;
    } else {
      ListedSame(items, terminal, id, it);
    }
  }

  // ----- What is true throughout a run -----

  /** The envelopes ever enqueued, and those of them ever delivered and ever given up. */
  datatype History = History(seen: set<Id>, delivered: set<Id>, failed: set<Id>)

  /** Every item ever enqueued is pending, or once and for all delivered or failed. */
  ghost predicate Consistent(p: RetryPolicy, items: Items, h: History) {
    && h.delivered !! h.failed
    && (forall id :: IsPending(items, id) <==> id in h.seen && id !in h.delivered && id !in h.failed)
    && (forall id :: id in h.delivered || id in h.failed || id in items ==> id in h.seen)
    && (forall id :: id in items ==>
          && Sound(p, items[id])
          && (items[id].delivered <==> id in h.delivered) && (items[id].failed <==> id in h.failed))
  }

  /** What becomes of the history when an item is put. */
  function After(h: History, id: Id, it: Item): History {
    History(h.seen + {id},
            if it.delivered then h.delivered + {id} else h.delivered,
            if it.failed then h.failed + {id} else h.failed)
  }

  lemma {:induction false} PutIsConsistent(p: RetryPolicy, items: Items, terminal: seq<Id>, h: History, id: Id,
      it: Item)
    requires Consistent(p, items, h) && Listed(items, terminal) && |terminal| <= MAX_RETAINED_TERMINAL
    requires IsPending(items, id) || id !in h.seen
    requires Sound(p, it)
    ensures Consistent(p, Put(items, terminal, id, it).0, After(h, id, it))
  {
    PutKeeps(items, terminal, id, it);
  }

  // ----- The time between attempts -----

  /** An attempt: when a tick picked the item up, when it was over, the how manieth it was and when the next may be. */
  datatype Try = Try(picked: int, over: int, number: int, next: int)

  /** The n-th attempt, over by now. */
  function TryOf(p: RetryPolicy, picked: int, now: int, n: int): Try {
    Try(picked, now, n, now + DelayAfter(p, n))
  }

  predicate BacksOff(p: RetryPolicy, t: Try) {
    t.next == t.over + DelayAfter(p, t.number)
  }

  /** Attempts are counted one by one, and none is picked up before it may be. */
  predicate Follows(t: Try, next: Try) {
    next.number == t.number + 1 && next.picked >= t.next
  }

  /** Of every envelope ever enqueued the attempts follow each other, and a pending one waits for the next. */
  ghost predicate Waited(p: RetryPolicy, items: Items, seen: set<Id>, tries: map<Id, seq<Try>>) {
    && tries.Keys == seen
    && (forall id, i, j {:trigger Follows(tries[id][i], tries[id][j])} ::
          id in tries && 0 <= i < j < |tries[id]| && j == i + 1 ==> Follows(tries[id][i], tries[id][j]))
    && (forall id, i {:trigger BacksOff(p, tries[id][i])} :: id in tries && 0 <= i < |tries[id]| ==>
          BacksOff(p, tries[id][i]))
    && (forall id {:trigger WaitsFor(items[id], tries[id])} :: id in tries && IsPending(items, id) ==>
          WaitsFor(items[id], tries[id]))
  }

  predicate WaitsFor(it: Item, ts: seq<Try>) {
    ts != [] && it.attempts == ts[|ts| - 1].number && it.nextAttempt == ts[|ts| - 1].next
  }

  /** Between an attempt and the next at the same item there is at least the delay for as many attempts. */
  lemma {:induction false} AttemptsAreApart(p: RetryPolicy, items: Items, seen: set<Id>, tries: map<Id, seq<Try>>,
      id: Id, k: nat)
    requires Waited(p, items, seen, tries) && id in seen && k + 1 < |tries[id]|
    ensures var t, next := tries[id][k], tries[id][k + 1];
            && next.number == t.number + 1
            && next.picked - t.over >= DelayAfter(p, t.number)
            && (Grows(p) && p.multiplier == 2.0 && t.number >= 1 ==>
                  var delay := p.initialDelay * Power2(t.number - 1);
                  next.picked - t.over >= if delay > p.maxDelay then p.maxDelay else delay)
  {
    var t := tries[id][k];
    assert BacksOff(p, t);
    assert Follows(t, tries[id][k + 1]);
    if Grows(p) && p.multiplier == 2.0 && t.number >= 1 {
      Doubling(p, t.number);
    }
  }

  lemma {:induction false} WaitedMore(p: RetryPolicy, items: Items, terminal: seq<Id>, seen: set<Id>,
      tries: map<Id, seq<Try>>, id: Id, it: Item, t: Try)
    requires Waited(p, items, seen, tries) && Listed(items, terminal) && |terminal| <= MAX_RETAINED_TERMINAL
    requires !IsFinished(items, id) && BacksOff(p, t)
    requires id in tries && tries[id] != [] ==> Follows(tries[id][|tries[id]| - 1], t)
    requires !it.Finished() ==> it.attempts == t.number && it.nextAttempt == t.next
    ensures Waited(p, Put(items, terminal, id, it).0, seen + {id}, Logged(tries, id, t))
  {
    PutKeeps(items, terminal, id, it);
    var items', tries' := Put(items, terminal, id, it).0, Logged(tries, id, t);
    forall x, i, j | x in tries' && 0 <= i < j < |tries'[x]| && j == i + 1
      ensures Follows(tries'[x][i], tries'[x][j])
    {
      assert x in tries && j < |tries[x]| ==> Follows(tries[x][i], tries[x][j]);
    }
    forall x, i | x in tries' && 0 <= i < |tries'[x]|
      ensures BacksOff(p, tries'[x][i])
    {
      assert x in tries && i < |tries[x]| ==> BacksOff(p, tries[x][i]);
    }
    forall x | x in tries' && IsPending(items', x)
      ensures WaitsFor(items'[x], tries'[x])
    {
      assert x != id ==> WaitsFor(items[x], tries[x]);
    }
  }

  function Logged(tries: map<Id, seq<Try>>, id: Id, t: Try): map<Id, seq<Try>> {
    tries[id := (if id in tries then tries[id] else []) + [t]]
  }

  // ----- The retry loop -----

  /** What the loop still has to do: items to try, all pending, and an announcement it owes. */
  ghost predicate Underway(items: Items, h: History, due: seq<Id>, announcing: Option<Id>, announced: seq<Id>) {
    && NoDup(due)
    && (forall id :: id in due ==> IsPending(items, id))
    && NoDup(announced)
    && (forall id :: id in announced <==> id in h.delivered && announcing != Some(id))
    && (announcing.Some? ==> announcing.value in h.delivered)
  }

  lemma {:induction false} TryingGoesOn(items: Items, terminal: seq<Id>, h: History, due: seq<Id>,
      announced: seq<Id>, it: Item)
    requires Underway(items, h, due, None, announced) && due != [] && Listed(items, terminal)
    requires |terminal| <= MAX_RETAINED_TERMINAL && due[0] !in h.delivered
    ensures Underway(Put(items, terminal, due[0], it).0, After(h, due[0], it), due[1..],
                     if it.delivered then Some(due[0]) else None, announced)
  {
    var id, rest := due[0], due[1..];
    assert due == [id] + rest;
    assert id in due && IsPending(items, id);
    PutKeeps(items, terminal, id, it);
    assert forall x :: x in rest ==> x in due;
    assert id !in rest;
  }

  /** What is due was due when the tick picked it up. */
  predicate DueBy(items: Items, due: seq<Id>, picked: int) {
    forall id :: id in due ==> id in items && items[id].nextAttempt <= picked
  }

  /** All an outbox keeps true. */
  ghost predicate Sane(p: RetryPolicy, items: Items, terminal: seq<Id>, h: History, due: seq<Id>,
      announcing: Option<Id>, announced: seq<Id>, picked: int, tries: map<Id, seq<Try>>)
  {
    && p.maxAttempts >= 1
    && Consistent(p, items, h)
    && Listed(items, terminal) && |terminal| <= MAX_RETAINED_TERMINAL
    && Underway(items, h, due, announcing, announced)
    && Waited(p, items, h.seen, tries) && DueBy(items, due, picked)
  }

  lemma {:induction false} AttemptKeeps(p: RetryPolicy, items: Items, terminal: seq<Id>, h: History, due: seq<Id>,
      announced: seq<Id>, picked: int, tries: map<Id, seq<Try>>, it: Item, err: Option<string>, now: int)
    requires Sane(p, items, terminal, h, due, None, announced, picked, tries) && due != []
    requires due[0] in items && it == Tried(p, items[due[0]], err, now)
    ensures var id, (items', terminal'), h' := due[0], Put(items, terminal, due[0], it), After(h, due[0], it);
            Sane(p, items', terminal', h', due[1..], if it.delivered then Some(id) else None, announced, picked,
                 Logged(tries, id, TryOf(p, picked, now, it.attempts)))
  {
    var id := due[0];
    assert id in due && IsPending(items, id);
    PutIsConsistent(p, items, terminal, h, id, it);
    PutKeeps(items, terminal, id, it);
    TryingGoesOn(items, terminal, h, due, announced, it);
    assert WaitsFor(items[id], tries[id]);
    WaitedMore(p, items, terminal, h.seen, tries, id, it, TryOf(p, picked, now, it.attempts));
    RestIsDue(items, terminal, due, picked, it);
  }

  lemma {:induction false} DueIsPending(items: Items, h: History, due: seq<Id>, announcing: Option<Id>,
      announced: seq<Id>)
    requires Underway(items, h, due, announcing, announced) && due != []
    ensures IsPending(items, due[0])
  {
    assert due[0] in due;
  }

  lemma {:induction false} RestIsDue(items: Items, terminal: seq<Id>, due: seq<Id>, picked: int, it: Item)
    requires NoDup(due) && due != [] && DueBy(items, due, picked) && forall id :: id in due ==> IsPending(items, id)
    requires Listed(items, terminal) && |terminal| <= MAX_RETAINED_TERMINAL
    ensures DueBy(Put(items, terminal, due[0], it).0, due[1..], picked)
  {
    assert due == [due[0]] + due[1..] && due[0] !in due[1..];
    assert due[0] in due;
    PutKeeps(items, terminal, due[0], it);
    assert forall id :: id in due[1..] ==> id in due;
  }

  lemma {:induction false} EnqueueKeeps(p: RetryPolicy, items: Items, terminal: seq<Id>, h: History, due: seq<Id>,
      announcing: Option<Id>, announced: seq<Id>, picked: int, tries: map<Id, seq<Try>>, env: Envelope, attempts: int,
      err: Option<string>, now: int)
    requires Sane(p, items, terminal, h, due, announcing, announced, picked, tries)
    requires env.id !in h.seen && attempts <= p.maxAttempts
    ensures var it := Enqueued(p, env, attempts, err, now);
            var (items', terminal'), h' := Put(items, terminal, env.id, it), After(h, env.id, it);
            && Sane(p, items', terminal', h', due, announcing, announced, picked,
                    tries[env.id := [TryOf(p, now, now, attempts)]])
            && (!it.Finished() ==> IsPending(items', env.id) && items'[env.id] == it)
  {
    var id, it := env.id, Enqueued(p, env, attempts, err, now);
    PutIsConsistent(p, items, terminal, h, id, it);
    PutKeeps(items, terminal, id, it);
    WaitedMore(p, items, terminal, h.seen, tries, id, it, TryOf(p, now, now, attempts));
    assert [] + [TryOf(p, now, now, attempts)] == [TryOf(p, now, now, attempts)];
    assert forall x :: x in due ==> IsPending(items, x) && x != id;
  }

  class Outbox {
    const policy: RetryPolicy
    var itemsByID: Items
    var terminalIDs: seq<Id>
    /** Where a tick stands: items still to try, and a delivery to announce. */
    var due: seq<Id>
    var announcing: Option<Id>
    ghost var history: History
    ghost var announced: seq<Id>
    /** The clock as the last tick began read it, and all attempts at each envelope. */
    ghost var picked: int
    ghost var tries: map<Id, seq<Try>>

    ghost predicate Valid()
      reads this
    {
      Sane(policy, itemsByID, terminalIDs, history, due, announcing, announced, picked, tries)
    }

    constructor (policy: RetryPolicy)
      requires policy.maxAttempts >= 1
      ensures Valid() && this.policy == policy && itemsByID == map[] && announced == []
      ensures history == History({}, {}, {}) && due == [] && tries == map[]
    {
      this.policy := policy;
      itemsByID, terminalIDs, due, announcing := map[], [], [], None;
      history, announced, tries := History({}, {}, {}), [], map[];
    }

    /**
     An envelope comes in that could not be delivered at once, even in the middle of a tick. Its caller has
     tried it once.
     */
    method EnqueueFailed(env: Envelope, attempts: int, err: Option<string>, now: int)
      requires Valid() && env.id !in history.seen && attempts <= policy.maxAttempts
      modifies this`itemsByID, this`terminalIDs, this`history, this`tries
      ensures Valid()
      ensures var it := Enqueued(policy, env, attempts, err, now);
              && (itemsByID, terminalIDs) == Put(old(itemsByID), old(terminalIDs), env.id, it)
              && history == After(old(history), env.id, it)
      ensures tries == old(tries)[env.id := [TryOf(policy, now, now, attempts)]]
      ensures attempts >= policy.maxAttempts ==> env.id in history.failed
      ensures attempts < policy.maxAttempts ==>
                IsPending(itemsByID, env.id)
                && itemsByID[env.id] == Item(env, attempts, now + DelayAfter(policy, attempts), false, false, err)
    {
      var it := NewItem(env, attempts, err, now);
      EnqueueKeeps(policy, itemsByID, terminalIDs, history, due, announcing, announced, picked, tries, env, attempts,
                   err, now);
      Store(env.id, it);
      history, tries := After(history, env.id, it), tries[env.id := [TryOf(policy, now, now, attempts)]];
    }

    method NewItem(env: Envelope, attempts: int, err: Option<string>, now: int) returns (it: Item)
      ensures it == Enqueued(policy, env, attempts, err, now)
    {
      if attempts >= policy.maxAttempts {
        it := Item(env, attempts, 0, false, true, err);
      } else {
        var delay := DelayFor(policy, attempts);
        it := Item(env, attempts, now + delay, false, false, err);
      }
    }

    method Store(id: Id, it: Item)
      modifies this`itemsByID, this`terminalIDs
      ensures (itemsByID, terminalIDs) == Put(old(itemsByID), old(terminalIDs), id, it)
    {
      itemsByID := itemsByID[id := it];
      if it.delivered || it.failed {
        RetainTerminal(id);
      }
    }

    method RetainTerminal(id: Id)
      modifies this`itemsByID, this`terminalIDs
      ensures (itemsByID, terminalIDs) == Retain(old(itemsByID), old(terminalIDs) + [id])
    {
      terminalIDs := terminalIDs + [id];
      while |terminalIDs| > MAX_RETAINED_TERMINAL
        invariant Retain(itemsByID, terminalIDs) == Retain(old(itemsByID), old(terminalIDs) + [id])
        decreases |terminalIDs|
      {
        var oldest := terminalIDs[0];
        if oldest in itemsByID && itemsByID[oldest].Finished() {
          itemsByID := itemsByID - {oldest};
        }
        terminalIDs := terminalIDs[1..];
      }
    }

    /** A tick picks up, in whatever order, the pending items whose time has come. */
    method BeginTick(now: int)
      requires Valid() && due == [] && announcing == None
      modifies this`due, this`picked
      ensures Valid() && picked == now
      ensures forall id :: id in due <==> IsPending(itemsByID, id) && itemsByID[id].nextAttempt <= now
    {
      var left := itemsByID.Keys;
      var found: seq<Id> := [];
      while left != {}
        invariant left <= itemsByID.Keys && NoDup(found)
        invariant forall id :: id in found <==>
                    id in itemsByID && id !in left && !itemsByID[id].Finished() && itemsByID[id].nextAttempt <= now
        decreases left
      {
        var id :| id in left;
        if !itemsByID[id].Finished() && now >= itemsByID[id].nextAttempt {
          found := found + [id];
        }
        left := left - {id};
      }
      due, picked := found, now;
    }

    /** The next item of a tick is tried; no error means it was delivered, which is then to be announced. */
    method Attempt(err: Option<string>, now: int)
      requires Valid() && due != [] && announcing == None
      modifies this`itemsByID, this`terminalIDs, this`due, this`announcing, this`history, this`tries
      ensures Valid()
      ensures IsPending(old(itemsByID), old(due)[0])
      ensures var id := old(due)[0]; var it := Tried(policy, old(itemsByID)[id], err, now);
              && (itemsByID, terminalIDs) == Put(old(itemsByID), old(terminalIDs), id, it)
              && history == After(old(history), id, it)
              && due == old(due)[1..] && announcing == (if err == None then Some(id) else None)
              && tries == Logged(old(tries), id, TryOf(policy, picked, now, it.attempts))
    {
      DueIsPending(itemsByID, history, due, announcing, announced);
      var id := due[0];
      var item := Settle(itemsByID[id], err, now);
      AttemptKeeps(policy, itemsByID, terminalIDs, history, due, announced, picked, tries, item, err, now);
      Store(id, item);
      history, tries := After(history, id, item), Logged(tries, id, TryOf(policy, picked, now, item.attempts));
      due, announcing := due[1..], if item.delivered then Some(id) else None;
    }

    /** What an attempt makes of an item. */
    method Settle(it: Item, err: Option<string>, now: int) returns (item: Item)
      ensures item == Tried(policy, it, err, now)
      ensures item.delivered <==> it.delivered || err == None
    {
      item := it.(attempts := it.attempts + 1, lastErr := err);
      if err == None {
        item := item.(delivered := true);
      } else if item.attempts >= policy.maxAttempts {
        item := item.(failed := true);
      } else {
        var delay := DelayFor(policy, item.attempts);
        item := item.(nextAttempt := now + delay);
      }
    }

    /** The delivery is announced, once. */
    method Announce()
      requires Valid() && announcing.Some?
      modifies this`announcing, this`announced
      ensures Valid() && announcing == None
      ensures old(announcing).value !in old(announced) && announced == old(announced) + [old(announcing).value]
    {
      announced := announced + [announcing.value];
      announcing := None;
    }

    /**
     A tick nothing else comes in between: the items whose time has come are each tried once, `answer` being
     what becomes of it and `later` the clock then, and no other item is touched, except that finished ones may
     be forgotten.
     */
    method Tick(now: int, answer: Id -> Option<string>, later: Id -> int)
      requires Valid() && due == [] && announcing == None
      modifies this`itemsByID, this`terminalIDs, this`due, this`announcing, this`history, this`announced, this`picked,
               this`tries
      ensures Valid() && due == [] && announcing == None
      ensures TickedSoFar(policy, old(itemsByID), itemsByID, [], now, answer, later)
      ensures DeliveredSoFar(old(itemsByID), old(history), history, [], now, answer)
    {
      BeginTick(now);
      while due != []
        invariant Valid() && announcing == None
        invariant forall id :: id in due ==> Ready(old(itemsByID), id, now)
        invariant TickedSoFar(policy, old(itemsByID), itemsByID, due, now, answer, later)
        invariant DeliveredSoFar(old(itemsByID), old(history), history, due, now, answer)
        decreases |due|
      {
        TickGoesOn(policy, old(itemsByID), itemsByID, terminalIDs, due, now, answer, later);
        assert due[0] in due && IsPending(itemsByID, due[0]);
        assert forall id :: id in due[1..] ==> id in due;
        ghost var it := Tried(policy, itemsByID[due[0]], answer(due[0]), later(due[0]));
        DeliveryGoesOn(old(itemsByID), old(history), history, due, now, answer, it);
        AttemptNext(answer(due[0]), later(due[0]));
      }
    }

    method AttemptNext(err: Option<string>, now: int)
      requires Valid() && due != [] && announcing == None
      modifies this`itemsByID, this`terminalIDs, this`due, this`announcing, this`history, this`tries, this`announced
      ensures Valid() && announcing == None && due == old(due)[1..]
      ensures IsPending(old(itemsByID), old(due)[0])
      ensures var id := old(due)[0]; var it := Tried(policy, old(itemsByID)[id], err, now);
              && (itemsByID, terminalIDs) == Put(old(itemsByID), old(terminalIDs), id, it)
              && history == After(old(history), id, it)
    {
      Attempt(err, now);
      if announcing.Some? {
        Announce();
      }
    }
  }

  // ----- A whole tick -----

  predicate Ready(items: Items, id: Id, now: int) {
    IsPending(items, id) && items[id].nextAttempt <= now
  }

  /** Compared with before, the items that were ready have been tried, but for those still due. */
  ghost predicate TickedSoFar(p: RetryPolicy, before: Items, items: Items, due: seq<Id>, now: int,
      answer: Id -> Option<string>, later: Id -> int) {
    forall id :: id in items ==>
      && id in before
      && items[id] == (
           if Ready(before, id, now) && id !in due then Tried(p, before[id], answer(id), later(id)) else before[id])
  }

  ghost predicate DeliveredSoFar(before: Items, h: History, h': History, due: seq<Id>, now: int,
      answer: Id -> Option<string>) {
    forall id :: id in h'.delivered <==>
      id in h.delivered || (Ready(before, id, now) && id !in due && answer(id) == None)
  }

  lemma {:induction false} TickGoesOn(p: RetryPolicy, before: Items, items: Items, terminal: seq<Id>, due: seq<Id>,
      now: int, answer: Id -> Option<string>, later: Id -> int)
    requires NoDup(due) && due != [] && IsPending(items, due[0]) && Ready(before, due[0], now)
    requires Listed(items, terminal) && |terminal| <= MAX_RETAINED_TERMINAL
    requires TickedSoFar(p, before, items, due, now, answer, later)
    ensures var it := Tried(p, items[due[0]], answer(due[0]), later(due[0]));
            TickedSoFar(p, before, Put(items, terminal, due[0], it).0, due[1..], now, answer, later)
  {
    var id, rest := due[0], due[1..];
    assert due == [id] + rest && id !in rest;
    PutKeeps(items, terminal, id, Tried(p, items[id], answer(id), later(id)));
  }

  lemma {:induction false} DeliveryGoesOn(before: Items, h: History, h': History, due: seq<Id>, now: int,
      answer: Id -> Option<string>, it: Item)
    requires NoDup(due) && due != [] && Ready(before, due[0], now) && (it.delivered <==> answer(due[0]) == None)
    requires DeliveredSoFar(before, h, h', due, now, answer)
    ensures DeliveredSoFar(before, h, After(h', due[0], it), due[1..], now, answer)
  {
    assert due == [due[0]] + due[1..] && due[0] !in due[1..];
  }
}
