/**
 The event stream's poller: pollWorkersLocked and pollStorageLocked in internal/server/api/events.go. It compares
 what it sees with what it saw at the poll before and reports the differences, so that a listener who replays them
 sees what the poller sees.
 */
module Poller {
  import opened Wrappers

  /** What the poller remembers of a worker. */
  datatype Snapshot = Snapshot(role: string, reportsTo: Id, status: string)

  datatype Listed = Listed(id: Id, snapshot: Snapshot)

  datatype Change =
    | Connected(id: Id, snapshot: Snapshot)
    | RoleChanged(id: Id, oldRole: string, newRole: string)
    | Reassigned(id: Id, oldReportsTo: Id, newReportsTo: Id)
    | StatusChanged(id: Id, status: string)
    | Disconnected(id: Id)

  type Workers = map<Id, Snapshot>

  /** What a listener makes of one event. */
  function Heard(ws: Workers, e: Change): Workers {
    match e
    case Connected(id, s) => ws[id := s]
    case RoleChanged(id, _, role) => if id in ws then ws[id := ws[id].(role := role)] else ws
    case Reassigned(id, _, reportsTo) => if id in ws then ws[id := ws[id].(reportsTo := reportsTo)] else ws
    case StatusChanged(id, status) => if id in ws then ws[id := ws[id].(status := status)] else ws
    case Disconnected(id) => ws - {id}
  }

  function Replay(ws: Workers, events: seq<Change>): Workers {
    if events == [] then ws else Heard(Replay(ws, events[..|events| - 1]), events[|events| - 1])
  }

  lemma {:induction false} ReplayConcat(ws: Workers, a: seq<Change>, b: seq<Change>)
    ensures Replay(ws, a + b) == Replay(Replay(ws, a), b)
  {
    if b == [] {
      assert a + b == a;
    } else {
      var n := |b| - 1;
      ReplayConcat(ws, a, b[..n]);
      assert (a + b)[..|a + b| - 1] == a + b[..n];
    }
  }

  /** The first n workers of a listing, each as it is now. */
  function Listing(current: seq<Listed>, n: nat): Workers
    requires n <= |current|
  {
    if n == 0 then map[] else Listing(current, n - 1)[current[n - 1].id := current[n - 1].snapshot]
  }

  /** A listing without repetition remembers each worker as it is listed, and nobody else. */
  lemma {:induction false} ListingIs(current: seq<Listed>, n: nat, id: Id)
    requires n <= |current| && DistinctIds(current)
    ensures id in Listing(current, n) <==> exists k :: 0 <= k < n && current[k].id == id
    ensures forall k :: 0 <= k < n && current[k].id == id ==> Listing(current, n)[id] == current[k].snapshot
  {
    if n > 0 {
      ListingIs(current, n - 1, id);
    }
  }

  ghost predicate SameWorkers(current: seq<Listed>, before: Workers) {
    DistinctIds(current) && before == Listing(current, |current|)
  }

  lemma {:induction false} ListedLater(current: seq<Listed>, n: nat, k: nat)
    requires n <= k < |current| && DistinctIds(current)
    ensures current[k].id !in Listing(current, n)
  {
    if n > 0 {
      ListedLater(current, n - 1, k);
    }
  }

  ghost predicate DistinctIds(current: seq<Listed>) {
    forall i, j :: 0 <= i < j < |current| ==> current[i].id != current[j].id
  }

  function RoleChanges(id: Id, prev: Snapshot, now: Snapshot): seq<Change> {
    if prev.role != now.role then [RoleChanged(id, prev.role, now.role)] else []
  }

  /** A reassignment is followed by the status, changed or not. */
  function PlaceChanges(id: Id, prev: Snapshot, now: Snapshot): seq<Change> {
    if prev.reportsTo != now.reportsTo then
      [Reassigned(id, prev.reportsTo, now.reportsTo), StatusChanged(id, now.status)]
    else if prev.status != now.status then [StatusChanged(id, now.status)]
    else []
  }

  /** The events one worker gives rise to. */
  function ChangesOf(ws: Workers, w: Listed): seq<Change> {
    if w.id !in ws then [Connected(w.id, w.snapshot)]
    else RoleChanges(w.id, ws[w.id], w.snapshot) + PlaceChanges(w.id, ws[w.id], w.snapshot)
  }

  /** And nothing is reported that did not happen: each kind of event at most once, and exactly for its cause. */
  lemma {:induction false} ChangesHappened(ws: Workers, w: Listed, e: Change)
    requires w.id in ws
    ensures var prev, now, changes := ws[w.id], w.snapshot, ChangesOf(ws, w);
            && (e in changes <==>
                  || (e == RoleChanged(w.id, prev.role, now.role) && prev.role != now.role)
                  || (e == Reassigned(w.id, prev.reportsTo, now.reportsTo) && prev.reportsTo != now.reportsTo)
                  || (e == StatusChanged(w.id, now.status)
                      && (prev.status != now.status || prev.reportsTo != now.reportsTo)))
            && forall i, j :: 0 <= i < j < |changes| ==> changes[i] != changes[j]
  {
  }

  /** Replaying a worker's changes brings its snapshot up to date and touches nobody else's. */
  lemma {:induction false} ChangesReplay(ws: Workers, w: Listed)
    ensures Replay(ws, ChangesOf(ws, w)) == ws[w.id := w.snapshot]
  {
    if w.id !in ws {
      ReplayOne(ws, Connected(w.id, w.snapshot));
    } else {
      var prev, now := ws[w.id], w.snapshot;
      var mid := prev.(role := now.role);
      RoleReplays(ws, w.id, now);
      PlaceReplays(ws[w.id := mid], w.id, now);
      ReplayConcat(ws, RoleChanges(w.id, prev, now), PlaceChanges(w.id, prev, now));
      assert ws[w.id := mid][w.id := now] == ws[w.id := now];
    }
  }

  lemma {:induction false} RoleReplays(ws: Workers, id: Id, now: Snapshot)
    requires id in ws
    ensures Replay(ws, RoleChanges(id, ws[id], now)) == ws[id := ws[id].(role := now.role)]
  {
    if ws[id].role != now.role {
      ReplayOne(ws, RoleChanged(id, ws[id].role, now.role));
    } else {
      assert ws[id := ws[id]] == ws;
    }
  }

  lemma {:induction false} PlaceReplays(ws: Workers, id: Id, now: Snapshot)
    requires id in ws && ws[id].role == now.role
    ensures Replay(ws, PlaceChanges(id, ws[id], now)) == ws[id := now]
  {
    var prev := ws[id];
    if prev.reportsTo != now.reportsTo {
      var moved, status := Reassigned(id, prev.reportsTo, now.reportsTo), StatusChanged(id, now.status);
      ReplayOne(ws, moved);
      var ws1 := Heard(ws, moved);
      ReplayOne(ws1, status);
      ReplayConcat(ws, [moved], [status]);
      assert [moved] + [status] == [moved, status];
      assert Heard(ws1, status) == ws[id := now];
    } else if prev.status != now.status {
      ReplayOne(ws, StatusChanged(id, now.status));
    } else {
      assert ws[id := now] == ws;
    }
  }

  lemma {:induction false} ReplayOne(ws: Workers, e: Change)
    ensures Replay(ws, [e]) == Heard(ws, e)
  {
    assert [e][..0] == [];
  }

  /** What is left of a table updated by a listing, once whoever is not listed is forgotten, is the listing. */
  lemma {:induction false} OnlyListed<K, V>(before: map<K, V>, listing: map<K, V>)
    ensures (map k | k in before + listing && k in listing :: (before + listing)[k]) == listing
  {
  }

  lemma {:induction false} UpdateListed<K, V>(before: map<K, V>, listing: map<K, V>, k: K, v: V)
    ensures (before + listing)[k := v] == before + listing[k := v]
  {
  }

  // ----- Stored objects -----

  datatype ObjectChange = Written(path: Id, revision: Id) | Deleted(path: Id)

  type Objects = map<Id, Id>

  datatype Meta = Meta(path: Id, revision: Id)

  function HeardObject(os: Objects, e: ObjectChange): Objects {
    match e
    case Written(path, revision) => os[path := revision]
    case Deleted(path) => os - {path}
  }

  function ReplayObjects(os: Objects, events: seq<ObjectChange>): Objects {
    if events == [] then os else HeardObject(ReplayObjects(os, events[..|events| - 1]), events[|events| - 1])
  }

  lemma {:induction false} ReplayObjectsSnoc(os: Objects, events: seq<ObjectChange>, e: ObjectChange)
    ensures ReplayObjects(os, events + [e]) == HeardObject(ReplayObjects(os, events), e)
  {
    assert (events + [e])[..|events|] == events;
  }

  function ListedObjects(metas: seq<Meta>, n: nat): Objects
    requires n <= |metas|
  {
    if n == 0 then map[] else ListedObjects(metas, n - 1)[metas[n - 1].path := metas[n - 1].revision]
  }

  ghost predicate DistinctPaths(metas: seq<Meta>) {
    forall i, j :: 0 <= i < j < |metas| ==> metas[i].path != metas[j].path
  }

  ghost predicate Unchanged(metas: seq<Meta>, before: Objects) {
    DistinctPaths(metas) && before == ListedObjects(metas, |metas|)
  }

  lemma {:induction false} ListedObjectsAre(metas: seq<Meta>, n: nat, path: Id)
    requires n <= |metas| && DistinctPaths(metas)
    ensures path in ListedObjects(metas, n) <==> exists k :: 0 <= k < n && metas[k].path == path
    ensures forall k :: 0 <= k < n && metas[k].path == path ==> ListedObjects(metas, n)[path] == metas[k].revision
  {
    if n > 0 {
      ListedObjectsAre(metas, n - 1, path);
    }
  }

  class PollState {
    var workers: Workers
    var objectRevisions: Objects
    var initialized: bool

    constructor ()
      ensures workers == map[] && objectRevisions == map[] && !initialized
    {
      workers, objectRevisions, initialized := map[], map[], false;
    }

    /** A whole poll. From the second one on, a listener who replays all events sees what the poller remembers. */
    method Poll(current: seq<Listed>, listing: Option<seq<Meta>>)
      returns (changes: seq<Change>, objectChanges: seq<ObjectChange>)
      modifies this
      ensures initialized && workers == Listing(current, |current|)
      ensures objectRevisions ==
              if listing.Some? then ListedObjects(listing.value, |listing.value|) else old(objectRevisions)
      ensures old(initialized) ==>
                && Replay(old(workers), changes) == workers
                && ReplayObjects(old(objectRevisions), objectChanges) == objectRevisions
    {
      changes := PollWorkers(current);
      objectChanges := PollStorage(listing);
      initialized := true;
    }

    /**
     A poll of the chart: afterwards the chart as listed is remembered, and the events, replayed over what was
     remembered, give just that. Before the first poll is over nothing is reported.
     */
    method PollWorkers(current: seq<Listed>) returns (events: seq<Change>)
      modifies this`workers
      ensures workers == Listing(current, |current|)
      ensures initialized ==> Replay(old(workers), events) == workers
      ensures !initialized && old(workers) == map[] && DistinctIds(current) ==> events == []
      ensures DistinctIds(current) && workers == old(workers) ==> events == []
    {
      events := [];
      for i := 0 to |current|
        invariant workers == old(workers) + Listing(current, i)
        invariant initialized ==> Replay(old(workers), events) == workers
        invariant !initialized && old(workers) == map[] && DistinctIds(current) ==> events == []
        invariant SameWorkers(current, old(workers)) ==> events == [] && workers == old(workers)
      {
        if DistinctIds(current) {
          ListedLater(current, i, i);
          ListingIs(current, |current|, current[i].id);
        }
        var changes := Changes(current[i]);
        ReplayConcat(old(workers), events, changes);
        UpdateListed(old(workers), Listing(current, i), current[i].id, current[i].snapshot);
        events := events + changes;
        workers := workers[current[i].id := current[i].snapshot];
      }
      OnlyListed(old(workers), Listing(current, |current|));
      var gone := ForgetUnlisted(Listing(current, |current|));
      ReplayConcat(old(workers), events, gone);
      events := events + gone;
    }

    method Changes(w: Listed) returns (events: seq<Change>)
      ensures initialized ==> Replay(workers, events) == workers[w.id := w.snapshot]
      ensures !initialized && w.id !in workers ==> events == []
      ensures w.id in workers && workers[w.id] == w.snapshot ==> events == []
    {
      ChangesReplay(workers, w);
      if w.id !in workers {
        return if initialized then [Connected(w.id, w.snapshot)] else [];
      }
      var prev := workers[w.id];
      events := [];
      if prev.role != w.snapshot.role {
        events := [RoleChanged(w.id, prev.role, w.snapshot.role)];
      }
      ghost var before := events;
      assert before == RoleChanges(w.id, prev, w.snapshot);
      if prev.reportsTo != w.snapshot.reportsTo {
        var moved := Reassigned(w.id, prev.reportsTo, w.snapshot.reportsTo);
        events := events + [moved, StatusChanged(w.id, w.snapshot.status)];
      } else if prev.status != w.snapshot.status {
        events := events + [StatusChanged(w.id, w.snapshot.status)];
      }
      assert events == before + PlaceChanges(w.id, prev, w.snapshot) by {
        assert before + [] == before;
      }
    }

    /** Whoever is no longer listed is forgotten, and reported as gone. */
    method ForgetUnlisted(listed: Workers) returns (events: seq<Change>)
      modifies this`workers
      ensures workers == map id | id in old(workers) && id in listed :: old(workers)[id]
      ensures initialized ==> Replay(old(workers), events) == workers
      ensures !initialized ==> events == []
      ensures old(workers) == listed ==> events == []
    {
      events := [];
      var left := workers.Keys;
      while left != {}
        invariant left <= workers.Keys <= old(workers).Keys
        invariant forall id :: id in old(workers) ==> (id in workers <==> id in left || id in listed)
        invariant forall id :: id in workers ==> workers[id] == old(workers)[id]
        invariant initialized ==> Replay(old(workers), events) == workers
        invariant !initialized ==> events == []
        invariant old(workers) == listed ==> events == []
        decreases left
      {
        var id :| id in left;
        left := left - {id};
        if id !in listed {
          workers := workers - {id};
          if initialized {
            assert (events + [Disconnected(id)])[..|events|] == events;
            events := events + [Disconnected(id)];
          }
        }
      }
    }

    /** The same for stored objects; a listing that fails changes and reports nothing. */
    method PollStorage(listing: Option<seq<Meta>>) returns (events: seq<ObjectChange>)
      modifies this`objectRevisions
      ensures objectRevisions ==
              if listing.Some? then ListedObjects(listing.value, |listing.value|) else old(objectRevisions)
      ensures initialized ==> ReplayObjects(old(objectRevisions), events) == objectRevisions
      ensures !initialized ==> events == []
      ensures listing.Some? && DistinctPaths(listing.value) && objectRevisions == old(objectRevisions) ==> events == []
    {
      events := [];
      if listing.None? {
        return;
      }
      var metas := listing.value;
      for i := 0 to |metas|
        invariant objectRevisions == old(objectRevisions) + ListedObjects(metas, i)
        invariant initialized ==> ReplayObjects(old(objectRevisions), events) == objectRevisions
        invariant !initialized ==> events == []
        invariant Unchanged(metas, old(objectRevisions)) ==> events == [] && objectRevisions == old(objectRevisions)
      {
        var m := metas[i];
        if Unchanged(metas, old(objectRevisions)) {
          ListedObjectsAre(metas, |metas|, m.path);
        }
        UpdateListed(old(objectRevisions), ListedObjects(metas, i), m.path, m.revision);
        if m.path !in objectRevisions || objectRevisions[m.path] != m.revision {
          if initialized {
            ReplayObjectsSnoc(old(objectRevisions), events, Written(m.path, m.revision));
            events := events + [Written(m.path, m.revision)];
          }
        }
        objectRevisions := objectRevisions[m.path := m.revision];
      }
      OnlyListed(old(objectRevisions), ListedObjects(metas, |metas|));
      var gone := ForgetDeleted(ListedObjects(metas, |metas|), old(objectRevisions), events);
      events := events + gone;
    }

    method ForgetDeleted(listed: Objects, ghost before: Objects, ghost sofar: seq<ObjectChange>)
      returns (events: seq<ObjectChange>)
      requires initialized ==> ReplayObjects(before, sofar) == objectRevisions
      modifies this`objectRevisions
      ensures objectRevisions == map path | path in old(objectRevisions) && path in listed :: old(objectRevisions)[path]
      ensures initialized ==> ReplayObjects(before, sofar + events) == objectRevisions
      ensures !initialized ==> events == []
      ensures old(objectRevisions) == listed ==> events == []
    {
      events := [];
      var left := objectRevisions.Keys;
      assert sofar + events == sofar;
      while left != {}
        invariant left <= objectRevisions.Keys <= old(objectRevisions).Keys
        invariant forall path :: path in old(objectRevisions) ==>
                    (path in objectRevisions <==> path in left || path in listed)
        invariant forall path :: path in objectRevisions ==> objectRevisions[path] == old(objectRevisions)[path]
        invariant initialized ==> ReplayObjects(before, sofar + events) == objectRevisions
        invariant !initialized ==> events == []
        invariant old(objectRevisions) == listed ==> events == []
        decreases left
      {
        var path :| path in left;
        left := left - {path};
        if path !in listed {
          objectRevisions := objectRevisions - {path};
          if initialized {
            ReplayObjectsSnoc(before, sofar + events, Deleted(path));
            assert (sofar + events) + [Deleted(path)] == sofar + (events + [Deleted(path)]);
            events := events + [Deleted(path)];
          }
        }
      }
    }
  }
}
