/** The revocation cache, and connect challenges: internal/server/api/auth.go. */
module Revocation {
  import opened Wrappers

  /** Instants are nanoseconds. */
  const SECOND := 1_000_000_000

  const CACHE_TTL := 60 * SECOND

  datatype Entry = Entry(revoked: bool, checkedAt: int)

  predicate Fresh(entries: map<Id, Entry>, id: Id, now: int) {
    id in entries && now - entries[id].checkedAt < CACHE_TTL
  }

  // ----- Handlers at work side by side -----

  /** How far a handler has come with a check it began at `start`. */
  datatype Check =
    | Began(id: Id, start: int)
    | Missed(id: Id, start: int)
    | Looked(id: Id, start: int, revoked: bool)
    | Answered(id: Id, start: int, revoked: bool)

  /** The clock, when each revoked id was revoked, the cache, and the handlers' checks. */
  datatype State = State(clock: int, revokedAt: map<Id, int>, entries: map<Id, Entry>, checks: map<nat, Check>)

  /** What can happen next: every access to clock, cache and store is a step of its own. */
  datatype Step =
    | Passes(time: int)
    | Begin(handler: nat, id: Id)
    | ReadEntry(handler: nat)
    | ReadStore(handler: nat)
    | WriteEntry(handler: nat)
    | Revoke(id: Id)
    | Invalidate(id: Id)

  /** A step that is not up next for its handler does nothing. */
  function Next(s: State, step: Step): State {
    match step
    case Passes(time) => if time > s.clock then s.(clock := time) else s
    case Begin(h, id) => s.(checks := s.checks[h := Began(id, s.clock)])
    case ReadEntry(h) =>
      if h in s.checks && s.checks[h].Began? then
        var c := s.checks[h];
        s.(checks := s.checks[h :=
          if Fresh(s.entries, c.id, c.start) then Answered(c.id, c.start, s.entries[c.id].revoked)
          else Missed(c.id, c.start)])
      else s
    case ReadStore(h) =>
      if h in s.checks && s.checks[h].Missed? then
        var c := s.checks[h];
        s.(checks := s.checks[h := Looked(c.id, c.start, c.id in s.revokedAt)])
      else s
    case WriteEntry(h) =>
      if h in s.checks && s.checks[h].Looked? then
        var c := s.checks[h];
        s.(entries := s.entries[c.id := Entry(c.revoked, c.start)],
           checks := s.checks[h := Answered(c.id, c.start, c.revoked)])
      else s
    case Revoke(id) => if id in s.revokedAt then s else s.(revokedAt := s.revokedAt[id := s.clock])
    case Invalidate(id) => s.(entries := s.entries - {id})
  }

  function Run(s: State, steps: seq<Step>): State {
    if steps == [] then s else Next(Run(s, steps[..|steps| - 1]), steps[|steps| - 1])
  }

  function Initial(clock: int, revokedAt: map<Id, int>): State {
    State(clock, revokedAt, map[], map[])
  }

  /** The store said `revoked` of id at some instant from `since` on. */
  predicate Said(s: State, id: Id, revoked: bool, since: int) {
    if revoked then id in s.revokedAt else id in s.revokedAt ==> s.revokedAt[id] >= since
  }

  ghost predicate Sound(s: State) {
    && (forall id :: id in s.revokedAt ==> s.revokedAt[id] <= s.clock)
    && (forall id :: id in s.entries ==>
          s.entries[id].checkedAt <= s.clock && Said(s, id, s.entries[id].revoked, s.entries[id].checkedAt))
    && (forall h :: h in s.checks ==> CheckSound(s, s.checks[h]))
  }

  predicate CheckSound(s: State, c: Check) {
    && c.start <= s.clock
    && (c.Looked? ==> Said(s, c.id, c.revoked, c.start))
    && (c.Answered? ==> Said(s, c.id, c.revoked, c.start - CACHE_TTL + 1))
  }

  lemma {:induction false} StepIsSound(s: State, step: Step)
    requires Sound(s)
    ensures Sound(Next(s, step))
  {
    var s' := Next(s, step);
    forall h | h in s'.checks
      ensures CheckSound(s', s'.checks[h])
    {
      if h in s.checks {
        assert CheckSound(s, s.checks[h]);
      }
    }
  }

  lemma {:induction false} RunIsSound(s: State, steps: seq<Step>)
    requires Sound(s)
    ensures Sound(Run(s, steps))
  {
    if steps != [] {
      RunIsSound(s, steps[..|steps| - 1]);
      StepIsSound(Run(s, steps[..|steps| - 1]), steps[|steps| - 1]);
    }
  }

  /**
   However the steps of checks, revocations and invalidations interleave: who is said to be revoked is, and
   who is said not to be was not yet revoked less than the cache's lifetime before the check began.
   */
  lemma {:induction false} AnswersAreRecent(clock: int, revokedAt: map<Id, int>, steps: seq<Step>, h: nat)
    requires forall id :: id in revokedAt ==> revokedAt[id] <= clock
    ensures var s := Run(Initial(clock, revokedAt), steps);
            h in s.checks && s.checks[h].Answered? ==>
              var c := s.checks[h];
              if c.revoked then c.id in s.revokedAt
              else c.id in s.revokedAt ==> s.revokedAt[c.id] > c.start - CACHE_TTL
  {
    var s := Run(Initial(clock, revokedAt), steps);
    RunIsSound(Initial(clock, revokedAt), steps);
    if h in s.checks {
      assert CheckSound(s, s.checks[h]);
    }
  }

  /** The steps of a check that looks before a revocation and writes after its invalidation, and of a later one. */
  const OVERTAKEN: seq<Step> := [
    Begin(0, 1), ReadEntry(0), ReadStore(0), Revoke(1), Invalidate(1), WriteEntry(0),
    Begin(1, 1), ReadEntry(1)
  ]

  /**
   So invalidating does not make the cache agree with the store: here a check begun after it is still told
   "not revoked".
   */
  lemma {:induction false} InvalidationCanBeOvertaken()
    ensures var s := Run(Initial(0, map[]), OVERTAKEN);
            1 in s.revokedAt && 1 in s.checks && s.checks[1] == Answered(1, 0, false)
  {
    LateWrite();
    var s0 := Initial(0, map[]);
    RunInit(s0, OVERTAKEN, 7);
    RunInit(s0, OVERTAKEN, 8);
    assert OVERTAKEN[..8] == OVERTAKEN;
  }

  lemma {:induction false} LateWrite()
    ensures var s := Run(Initial(0, map[]), OVERTAKEN[..6]);
            s.clock == 0 && 1 in s.revokedAt && 1 in s.entries && s.entries[1] == Entry(false, 0)
  {
    FirstLooks();
    var s0 := Initial(0, map[]);
    RunInit(s0, OVERTAKEN, 4);
    RunInit(s0, OVERTAKEN, 5);
    RunInit(s0, OVERTAKEN, 6);
  }

  lemma {:induction false} FirstLooks()
    ensures var s := Run(Initial(0, map[]), OVERTAKEN[..3]);
            s.clock == 0 && s.revokedAt == map[] && 0 in s.checks && s.checks[0] == Looked(1, 0, false)
  {
    var s0 := Initial(0, map[]);
    RunInit(s0, OVERTAKEN, 1);
    RunInit(s0, OVERTAKEN, 2);
    RunInit(s0, OVERTAKEN, 3);
    assert OVERTAKEN[..0] == [];
  }

  lemma {:induction false} RunInit(s: State, steps: seq<Step>, n: nat)
    requires 0 < n <= |steps|
    ensures Run(s, steps[..n]) == Next(Run(s, steps[..n - 1]), steps[n - 1])
  {
    assert steps[..n][..n - 1] == steps[..n - 1];
  }

  // ----- When an invalidation is overtaken -----

  /** A check of id that begins now would be answered from the cache, with "not revoked". */
  predicate Tells(s: State, id: Id) {
    Fresh(s.entries, id, s.clock) && !s.entries[id].revoked
  }

  /** A check that has been told "not revoked" by the store, not long ago, and has yet to write it into the cache. */
  predicate Late(s: State, h: nat, id: Id) {
    && h in s.checks && s.checks[h].Looked? && s.checks[h].id == id
    && !s.checks[h].revoked && s.clock - s.checks[h].start < CACHE_TTL
  }

  /** id is revoked, the cache does not deny it, and no check is about to make it. */
  ghost predicate Quiet(s: State, id: Id) {
    id in s.revokedAt && !Tells(s, id) && forall h :: !Late(s, h, id)
  }

  lemma {:induction false} TellsMeansTold(s: State, id: Id, h: nat)
    ensures var t := Run(s, [Begin(h, id), ReadEntry(h)]);
            h in t.checks && (Tells(s, id) <==> t.checks[h] == Answered(id, s.clock, false))
  {
    var steps := [Begin(h, id), ReadEntry(h)];
    RunInit(s, steps, 1);
    RunInit(s, steps, 2);
    assert steps[..2] == steps && steps[..0] == [];
  }

  lemma {:induction false} StepStaysQuiet(s: State, id: Id, step: Step)
    requires Quiet(s, id)
    ensures Quiet(Next(s, step), id)
  {
    var s' := Next(s, step);
    forall h
      ensures !Late(s', h, id)
    {
      assert !Late(s, h, id);
    }
    if step.WriteEntry? {
      assert !Late(s, step.handler, id);
    }
  }

  lemma {:induction false} RunStaysQuiet(s: State, id: Id, steps: seq<Step>)
    requires Quiet(s, id)
    ensures Quiet(Run(s, steps), id)
  {
    if steps != [] {
      RunStaysQuiet(s, id, steps[..|steps| - 1]);
      StepStaysQuiet(Run(s, steps[..|steps| - 1]), id, steps[|steps| - 1]);
    }
  }

  /**
   Once a revoked id has been invalidated, the cache can come to deny that it is revoked exactly if some check of
   it has looked into the store before the revocation, began within the cache's lifetime, and has yet to write.
   */
  lemma {:induction false} OvertakenExactly(s: State, id: Id)
    requires id in s.revokedAt && id !in s.entries
    ensures (exists steps :: Tells(Run(s, steps), id)) <==> (exists h :: Late(s, h, id))
  {
    if h :| Late(s, h, id) {
      var steps := [WriteEntry(h)];
      RunInit(s, steps, 1);
      assert steps[..1] == steps && steps[..0] == [];
      assert Tells(Run(s, steps), id);
    } else {
      forall steps
        ensures !Tells(Run(s, steps), id)
      {
        RunStaysQuiet(s, id, steps);
      }
    }
  }

  // ----- Handlers one at a time -----

  /** The cache, with the store it stands before. */
  class Cache {
    var store: set<Id>
    var entries: map<Id, Entry>

    ghost predicate Valid()
      reads this
    {
      forall id :: id in entries ==> entries[id].revoked == (id in store)
    }

    constructor (store: set<Id>)
      ensures Valid() && this.store == store
    {
      this.store, entries := store, map[];
    }

    /** As long as no revocation is under way, the answer is the store's, cached or not. */
    method IsRevoked(id: Id, now: int) returns (revoked: bool)
      requires Valid()
      modifies this`entries
      ensures Valid() && revoked == (id in store)
      ensures entries ==
              if id in old(entries) && now - old(entries)[id].checkedAt < 60 * SECOND then old(entries)
              else old(entries)[id := Entry(revoked, now)]
    {
      if id in entries && now - entries[id].checkedAt < CACHE_TTL {
        return entries[id].revoked;
      }
      revoked := id in store;
      entries := entries[id := Entry(revoked, now)];
    }

    method Invalidate(id: Id)
      modifies this`entries
      ensures entries == old(entries) - {id}
    {
      entries := entries - {id};
    }

    /** Revoking, and removing workers, which revokes them, writes the store first and then clears the cache. */
    method Revoke(ids: seq<Id>)
      requires Valid()
      modifies this
      ensures Valid() && store == old(store) + set id | id in ids
      ensures entries == map id | id in old(entries) && id !in ids :: old(entries)[id]
    {
      store := store + set id | id in ids;
      for i := 0 to |ids|
        invariant store == old(store) + set id | id in ids
        invariant entries.Keys <= old(entries).Keys
        invariant forall id :: id in entries ==> entries[id] == old(entries)[id] && id !in ids[..i]
        invariant forall id :: id in old(entries) && id !in ids[..i] ==> id in entries
      {
        Invalidate(ids[i]);
      }
    }
  }

  // ----- Connect challenges -----

  const CHALLENGE_TTL := 120 * SECOND

  const MAX_PENDING: nat := 10_000

  datatype Challenge = Challenge(nonce: int, expiresAt: int)

  function Unexpired(all: map<Id, Challenge>, now: int): map<Id, Challenge> {
    map x | x in all && now <= all[x].expiresAt :: all[x]
  }

  class Challenges {
    var pending: map<Id, Challenge>

    ghost predicate Valid()
      reads this
    {
      |pending| <= MAX_PENDING
    }

    constructor ()
      ensures Valid() && pending == map[]
    {
      pending := map[];
    }

    /** A new challenge replaces the worker's old one; expired ones go, and beyond the limit those that expire first. */
    method Issue(id: Id, nonce: int, now: int)
      requires Valid()
      modifies this
      ensures Valid()
      ensures var all := old(pending)[id := Challenge(nonce, now + CHALLENGE_TTL)];
              && pending.Keys <= all.Keys
              && (forall x :: x in pending ==> pending[x] == all[x] && pending[x].expiresAt >= now)
              && (forall x, y :: x in all && x !in pending && y in pending ==> all[x].expiresAt <= pending[y].expiresAt)
      ensures var live := Unexpired(old(pending)[id := Challenge(nonce, now + CHALLENGE_TTL)], now);
              if |live| <= MAX_PENDING then pending == live else |pending| == MAX_PENDING
    {
      pending := pending[id := Challenge(nonce, now + CHALLENGE_TTL)];
      ghost var all := pending;
      SweepExpired(now);
      ghost var live := pending;
      assert live == Unexpired(all, now);
      while |pending| > MAX_PENDING
        invariant pending.Keys <= all.Keys
        invariant if |live| <= MAX_PENDING then pending == live else |pending| >= MAX_PENDING
        invariant forall x :: x in pending ==> pending[x] == all[x] && pending[x].expiresAt >= now
        invariant forall x, y :: x in all && x !in pending && y in pending ==> all[x].expiresAt <= pending[y].expiresAt
        decreases |pending|
      {
        var oldest := NearestExpiry();
        ghost var was := pending;
        pending := pending - {oldest};
        Smaller(was, oldest);
      }
    }

    method SweepExpired(now: int)
      modifies this
      ensures pending == map x | x in old(pending) && now <= old(pending)[x].expiresAt :: old(pending)[x]
    {
      var left := pending.Keys;
      while left != {}
        invariant left <= pending.Keys <= old(pending).Keys
        invariant forall x :: x in old(pending) ==>
                    (x in pending <==> x in left || now <= old(pending)[x].expiresAt)
        invariant forall x :: x in pending ==> pending[x] == old(pending)[x]
        decreases left
      {
        var x :| x in left;
        left := left - {x};
        if now > pending[x].expiresAt {
          pending := pending - {x};
        }
      }
    }

    method NearestExpiry() returns (oldest: Id)
      requires pending != map[]
      ensures oldest in pending && forall x :: x in pending ==> pending[oldest].expiresAt <= pending[x].expiresAt
    {
      oldest :| oldest in pending;
      var left := pending.Keys - {oldest};
      while left != {}
        invariant left <= pending.Keys && oldest in pending
        invariant forall x :: x in pending && x !in left ==> pending[oldest].expiresAt <= pending[x].expiresAt
        decreases left
      {
        var x :| x in left;
        left := left - {x};
        if pending[x].expiresAt < pending[oldest].expiresAt {
          oldest := x;
        }
      }
    }

    /** A challenge can be consumed once, until it expires. */
    method Consume(id: Id, now: int) returns (nonce: Option<int>)
      requires Valid()
      modifies this
      ensures Valid() && pending == old(pending) - {id}
      ensures nonce ==
              if id in old(pending) && now <= old(pending)[id].expiresAt then Some(old(pending)[id].nonce) else None
    {
      if id !in pending {
        assert pending == pending - {id};
        return None;
      }
      var ch := pending[id];
      Smaller(pending, id);
      pending := pending - {id};
      if now > ch.expiresAt {
        return None;
      }
      return Some(ch.nonce);
    }
  }

  lemma {:induction false} Smaller(m: map<Id, Challenge>, id: Id)
    requires id in m
    ensures |m - {id}| == |m| - 1
  {
    assert (m - {id}).Keys == m.Keys - {id};
  }
}
