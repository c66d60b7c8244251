/** The mailbox workflow: pkg/messaging/temporal/workflow.go. */
module Mailboxes {
  import opened Wrappers

  const MAX_BUFFERED: nat := 1000

  const CONTINUE_AS_NEW_AFTER: nat := 2000

  datatype Envelope = Envelope(id: Id, body: string)

  ghost predicate DistinctIds(s: seq<Envelope>) {
    forall i, j :: 0 <= i < j < |s| ==> s[i].id != s[j].id
  }

  function AppendBounded(pending: seq<Envelope>, env: Envelope): seq<Envelope> {
    Newest(pending + [env])
  }

  /** What is left of s when only so many fit. */
  function Newest(s: seq<Envelope>): seq<Envelope> {
    if |s| > MAX_BUFFERED then s[|s| - MAX_BUFFERED..] else s
  }

  function PlaceOf(pending: seq<Envelope>, id: Id, i: nat): (k: nat)
    requires i <= |pending|
    ensures i <= k <= |pending|
    ensures forall j :: i <= j < k ==> pending[j].id != id
    ensures k < |pending| ==> pending[k].id == id
    decreases |pending| - i
  {
    if i < |pending| && pending[i].id != id then PlaceOf(pending, id, i + 1) else i
  }

  function RemoveEnvelope(pending: seq<Envelope>, id: Id): seq<Envelope> {
    var i := PlaceOf(pending, id, 0);
    if i < |pending| then pending[..i] + pending[i + 1..] else pending
  }

  // ----- Envelopes that are not gone -----

  /** The envelopes of s whose ids are not gone. */
  function Kept(s: seq<Envelope>, gone: set<Id>): (r: seq<Envelope>)
    ensures |r| <= |s|
  {
    if s == [] then []
    else
      var last := s[|s| - 1];
      Kept(s[..|s| - 1], gone) + if last.id in gone then [] else [last]
  }

  lemma {:induction false} KeptSnoc(s: seq<Envelope>, e: Envelope, gone: set<Id>)
    ensures Kept(s + [e], gone) == Kept(s, gone) + if e.id in gone then [] else [e]
  {
    assert (s + [e])[..|s|] == s;
  }

  lemma {:induction false} KeptConcat(a: seq<Envelope>, b: seq<Envelope>, gone: set<Id>)
    ensures Kept(a + b, gone) == Kept(a, gone) + Kept(b, gone)
  {
    if b == [] {
      assert a + b == a;
    } else {
      var n := |b| - 1;
      KeptConcat(a, b[..n], gone);
      KeptOneMore(a, b[..n], b[n], gone);
      assert b == b[..n] + [b[n]];
    }
  }

  lemma {:induction false} KeptOneMore(a: seq<Envelope>, b: seq<Envelope>, e: Envelope, gone: set<Id>)
    requires Kept(a + b, gone) == Kept(a, gone) + Kept(b, gone)
    ensures Kept(a + (b + [e]), gone) == Kept(a, gone) + Kept(b + [e], gone)
  {
    KeptSnoc(b, e, gone);
    KeptSnoc(a + b, e, gone);
    Regroup(a, b, [e]);
    Regroup(Kept(a, gone), Kept(b, gone), if e.id in gone then [] else [e]);
  }

  lemma {:induction false} KeptMembers(s: seq<Envelope>, gone: set<Id>)
    ensures forall e :: e in Kept(s, gone) <==> e in s && e.id !in gone
  {
    if s != [] {
      KeptMembers(s[..|s| - 1], gone);
      assert s == s[..|s| - 1] + [s[|s| - 1]];
    }
  }

  /** Nothing is gone: everything is kept. */
  lemma {:induction false} KeptAll(s: seq<Envelope>, gone: set<Id>)
    requires forall e :: e in s ==> e.id !in gone
    ensures Kept(s, gone) == s
  {
    if s != [] {
      KeptAll(s[..|s| - 1], gone);
      assert s == s[..|s| - 1] + [s[|s| - 1]];
    }
  }

  /** Cutting out the k-th of what is kept is losing its id. */
  lemma {:induction false} KeptWithout(s: seq<Envelope>, gone: set<Id>, k: nat)
    requires DistinctIds(s) && k < |Kept(s, gone)|
    ensures var r := Kept(s, gone); Kept(s, gone + {r[k].id}) == r[..k] + r[k + 1..]
  {
    var n := |s| - 1;
    var init, last, r := s[..n], s[n], Kept(s, gone);
    if k < |Kept(init, gone)| {
      KeptWithout(init, gone, k);
      KeptMembers(init, gone);
      assert Kept(init, gone)[k] in Kept(init, gone) && r[k] == Kept(init, gone)[k];
      CutEarlier(Kept(init, gone), k, if last.id in gone then [] else [last]);
    } else {
      assert r[..k] + r[k + 1..] == Kept(init, gone);
      KeptUnaffected(init, gone, last.id);
    }
  }

  lemma {:induction false} CutEarlier(a: seq<Envelope>, k: nat, b: seq<Envelope>)
    requires k < |a|
    ensures (a + b)[..k] + (a + b)[k + 1..] == (a[..k] + a[k + 1..]) + b
  {
  }

  lemma {:induction false} KeptUnaffected(s: seq<Envelope>, gone: set<Id>, id: Id)
    requires forall e :: e in s ==> e.id != id
    ensures Kept(s, gone + {id}) == Kept(s, gone)
  {
    if s != [] {
      KeptUnaffected(s[..|s| - 1], gone, id);
    }
  }

  lemma {:induction false} RemoveIsLosing(s: seq<Envelope>, gone: set<Id>, id: Id)
    requires DistinctIds(s)
    ensures RemoveEnvelope(Kept(s, gone), id) == Kept(s, gone + {id})
  {
    var r := Kept(s, gone);
    var k := PlaceOf(r, id, 0);
    if k < |r| {
      KeptWithout(s, gone, k);
    } else {
      KeptMembers(s, gone);
      KeptIgnores(s, gone, id);
    }
  }

  lemma {:induction false} KeptIgnores(s: seq<Envelope>, gone: set<Id>, id: Id)
    requires forall e :: e in s && e.id == id ==> id in gone
    ensures Kept(s, gone + {id}) == Kept(s, gone)
  {
    if s != [] {
      KeptIgnores(s[..|s| - 1], gone, id);
    }
  }

  function IdsOf(s: seq<Envelope>): set<Id> {
    set e | e in s :: e.id
  }

  // ----- Signals in any order, and the drain at continue-as-new -----

  datatype Signal = Deliver(env: Envelope) | Ack(id: Id)

  function Apply(pending: seq<Envelope>, signal: Signal): seq<Envelope> {
    match signal
    case Deliver(env) => AppendBounded(pending, env)
    case Ack(id) => RemoveEnvelope(pending, id)
  }

  /** The signals taken one at a time, in that order. */
  function Process(pending: seq<Envelope>, signals: seq<Signal>): seq<Envelope> {
    if signals == [] then pending
    else Apply(Process(pending, signals[..|signals| - 1]), signals[|signals| - 1])
  }

  function Delivered(signals: seq<Signal>): seq<Envelope> {
    if signals == [] then []
    else
      var last := signals[|signals| - 1];
      Delivered(signals[..|signals| - 1]) + if last.Deliver? then [last.env] else []
  }

  function Acks(signals: seq<Signal>): seq<Id> {
    if signals == [] then []
    else
      var last := signals[|signals| - 1];
      Acks(signals[..|signals| - 1]) + if last.Ack? then [last.id] else []
  }

  function AppendAll(pending: seq<Envelope>, envs: seq<Envelope>): seq<Envelope> {
    if envs == [] then pending
    else AppendBounded(AppendAll(pending, envs[..|envs| - 1]), envs[|envs| - 1])
  }

  function RemoveAll(pending: seq<Envelope>, ids: seq<Id>): seq<Envelope> {
    if ids == [] then pending
    else RemoveEnvelope(RemoveAll(pending, ids[..|ids| - 1]), ids[|ids| - 1])
  }

  /** All queued delivers, then all queued acks. */
  function Drained(pending: seq<Envelope>, envs: seq<Envelope>, ids: seq<Id>): seq<Envelope> {
    RemoveAll(AppendAll(pending, envs), ids)
  }

  /** No ack comes before the deliver it is for. */
  ghost predicate AcksFollow(signals: seq<Signal>) {
    forall i, j :: 0 <= i < j < |signals| && signals[i].Ack? && signals[j].Deliver? ==>
        signals[i].id != signals[j].env.id
  }

  lemma {:induction false} AppendAllKeepsNewest(pending: seq<Envelope>, envs: seq<Envelope>)
    requires |pending| <= MAX_BUFFERED
    ensures AppendAll(pending, envs) == Newest(pending + envs)
  {
    if envs == [] {
      assert pending + envs == pending;
    } else {
      var n := |envs| - 1;
      AppendAllKeepsNewest(pending, envs[..n]);
      NewestOfNewest(pending + envs[..n], envs[n]);
      assert pending + envs == (pending + envs[..n]) + [envs[n]];
    }
  }

  /** From the front: as the loops take what is queued. */
  lemma {:induction false} AppendAllHead(pending: seq<Envelope>, envs: seq<Envelope>)
    requires envs != []
    ensures AppendAll(pending, envs) == AppendAll(AppendBounded(pending, envs[0]), envs[1..])
  {
    if |envs| > 1 {
      var n := |envs| - 1;
      AppendAllHead(pending, envs[..n]);
      assert envs[..n][1..] == envs[1..][..n - 1];
    }
  }

  lemma {:induction false} RemoveAllHead(pending: seq<Envelope>, id: Id, ids: seq<Id>)
    ensures RemoveAll(pending, [id] + ids) == RemoveAll(RemoveEnvelope(pending, id), ids)
  {
    if ids == [] {
      RemoveAllSnoc(pending, [], id);
      assert [] + [id] == [id] + ids;
    } else {
      var n := |ids| - 1;
      RemoveAllHead(pending, id, ids[..n]);
      RemoveAllSnoc(pending, [id] + ids[..n], ids[n]);
      assert ([id] + ids[..n]) + [ids[n]] == [id] + ids;
    }
  }

  lemma {:induction false} RemoveAllSnoc(pending: seq<Envelope>, ids: seq<Id>, id: Id)
    ensures RemoveAll(pending, ids + [id]) == RemoveEnvelope(RemoveAll(pending, ids), id)
  {
    assert (ids + [id])[..|ids|] == ids;
  }

  lemma {:induction false} ElementsHead(ids: seq<Id>)
    requires ids != []
    ensures ids == [ids[0]] + ids[1..] && Elements(ids) == {ids[0]} + Elements(ids[1..])
  {
    assert ids == [ids[0]] + ids[1..];
  }

  lemma {:induction false} NewestOfNewest(s: seq<Envelope>, e: Envelope)
    ensures AppendBounded(Newest(s), e) == Newest(s + [e])
  {
  }

  lemma {:induction false} ElementsSnoc(ids: seq<Id>, id: Id)
    ensures Elements(ids + [id]) == Elements(ids) + {id}
  {
  }

  lemma {:induction false} RemoveAllLoses(s: seq<Envelope>, ids: seq<Id>)
    requires DistinctIds(s)
    ensures RemoveAll(s, ids) == Kept(s, Elements(ids))
  {
    if ids == [] {
      KeptAll(s, {});
      assert Elements(ids) == {};
    } else {
      var n := |ids| - 1;
      RemoveAllLoses(s, ids[..n]);
      RemoveIsLosing(s, Elements(ids[..n]), ids[n]);
      ElementsSnoc(ids[..n], ids[n]);
      assert ids == ids[..n] + [ids[n]];
    }
  }

  lemma {:induction false} AckedIds(signals: seq<Signal>, id: Id)
    ensures id in Acks(signals) ==> exists i :: 0 <= i < |signals| && signals[i] == Ack(id)
  {
    if signals != [] {
      AckedIds(signals[..|signals| - 1], id);
    }
  }

  lemma {:induction false} DistinctInit(a: seq<Envelope>, b: seq<Envelope>, c: seq<Envelope>)
    requires DistinctIds(a + c) && |b| <= |c| && b == c[..|b|]
    ensures DistinctIds(a + b)
  {
    assert forall i :: 0 <= i < |a + b| ==> (a + b)[i] == (a + c)[i];
  }

  /** The envelopes that do not fit. */
  function Overflow(s: seq<Envelope>): seq<Envelope> {
    if |s| > MAX_BUFFERED then s[..|s| - MAX_BUFFERED] else []
  }

  /** The drain leaves what was not acked exactly if all that does not fit was acked. */
  lemma {:induction false} DrainIsExact(pending: seq<Envelope>, envs: seq<Envelope>, ids: seq<Id>)
    requires DistinctIds(pending + envs) && |pending| <= MAX_BUFFERED
    ensures Drained(pending, envs, ids) == Kept(pending + envs, Elements(ids)) <==>
            forall e :: e in Overflow(pending + envs) ==> e.id in ids
  {
    var sent := pending + envs;
    DrainedIs(pending, envs, ids);
    KeptSplits(sent, Elements(ids));
    NothingKept(Overflow(sent), Elements(ids));
  }

  lemma {:induction false} NewestDistinct(s: seq<Envelope>)
    requires DistinctIds(s)
    ensures DistinctIds(Newest(s))
  {
  }

  /** The ids a full buffer pushes out when the signals are taken one at a time. */
  function PushedOut(pending: seq<Envelope>, signals: seq<Signal>): set<Id> {
    if signals == [] then {}
    else
      var init, last := signals[..|signals| - 1], signals[|signals| - 1];
      var before := Process(pending, init);
      PushedOut(pending, init) + if last.Deliver? && |before| >= MAX_BUFFERED then {before[0].id} else {}
  }

  /** The first that is kept is at a place with all the others kept behind it. */
  lemma {:induction false} FirstKept(s: seq<Envelope>, gone: set<Id>) returns (m: nat)
    requires Kept(s, gone) != []
    ensures m < |s| && s[m] == Kept(s, gone)[0] && |Kept(s, gone)| <= |s| - m
  {
    var n := |s| - 1;
    if Kept(s[..n], gone) == [] {
      m := n;
    } else {
      m := FirstKept(s[..n], gone);
    }
  }

  /** Without room for all: what is acked or pushed out goes, and what is pushed out is among what does not fit. */
  lemma {:induction false} ProcessLoses(pending: seq<Envelope>, signals: seq<Signal>)
    requires DistinctIds(pending + Delivered(signals)) && AcksFollow(signals) && |pending| <= MAX_BUFFERED
    ensures var sent, lost := pending + Delivered(signals), PushedOut(pending, signals);
            && Process(pending, signals) == Kept(sent, Elements(Acks(signals)) + lost)
            && |Process(pending, signals)| <= MAX_BUFFERED
            && lost <= IdsOf(Overflow(sent))
  {
    if signals == [] {
      assert pending + [] == pending;
      KeptAll(pending, {});
      assert Elements(Acks(signals)) + PushedOut(pending, signals) == {};
    } else {
      var n := |signals| - 1;
      var init, last := signals[..n], signals[n];
      assert signals == init + [last];
      OneMore(pending, init, last);
      DistinctInit(pending, Delivered(init), Delivered(signals));
      ProcessLoses(pending, init);
      var sent, lost := pending + Delivered(init), PushedOut(pending, init);
      if last.Deliver? {
        Regroup(pending, Delivered(init), [last.env]);
        DeliverLoses(sent, init, lost, last.env);
      } else {
        RemoveIsLosing(sent, Elements(Acks(init)) + lost, last.id);
        ElementsSnoc(Acks(init), last.id);
        LosingAlso(Elements(Acks(init)), lost, last.id);
      }
    }
  }

  lemma {:induction false} LosingAlso(a: set<Id>, b: set<Id>, id: Id)
    ensures a + b + {id} == a + {id} + b
  {
  }

  /** What one more signal does. */
  lemma {:induction false} OneMore(pending: seq<Envelope>, init: seq<Signal>, last: Signal)
    ensures var signals, before := init + [last], Process(pending, init);
            && Process(pending, signals) == Apply(before, last)
            && Delivered(signals) == Delivered(init) + (if last.Deliver? then [last.env] else [])
            && Acks(signals) == Acks(init) + (if last.Ack? then [last.id] else [])
            && PushedOut(pending, signals) == PushedOut(pending, init) + (
                 if last.Deliver? && |before| >= MAX_BUFFERED then {before[0].id} else {})
    ensures last.Deliver? ==> Acks(init + [last]) == Acks(init)
    ensures last.Ack? ==> Delivered(init + [last]) == Delivered(init)
    ensures last.Ack? ==> PushedOut(pending, init + [last]) == PushedOut(pending, init)
  {
    assert (init + [last])[..|init|] == init;
  }

  /** One more deliver: a full buffer pushes out the first that is kept, which does not fit any more. */
  lemma {:induction false} DeliverLoses(sent: seq<Envelope>, init: seq<Signal>, lost: set<Id>, env: Envelope)
    requires DistinctIds(sent + [env]) && AcksFollow(init + [Deliver(env)]) && lost <= IdsOf(Overflow(sent))
    requires |Kept(sent, Elements(Acks(init)) + lost)| <= MAX_BUFFERED
    ensures var r := Kept(sent, Elements(Acks(init)) + lost);
            var more := lost + if |r| >= MAX_BUFFERED then {r[0].id} else {};
            && AppendBounded(r, env) == Kept(sent + [env], Elements(Acks(init)) + more)
            && |AppendBounded(r, env)| <= MAX_BUFFERED && more <= IdsOf(Overflow(sent + [env]))
  {
    var gone := Elements(Acks(init)) + lost;
    var r := Kept(sent, gone);
    OverflowGrows(sent, env);
    NewIsKept(sent, init, lost, env);
    if |r| >= MAX_BUFFERED {
      FullLoses(sent, gone, env);
      assert gone + {r[0].id} == Elements(Acks(init)) + (lost + {r[0].id});
    } else {
      KeptSnoc(sent, env, gone);
      assert lost + {} == lost;
    }
  }

  /** A full buffer that takes one more pushes out its first, which does not fit any more. */
  lemma {:induction false} FullLoses(sent: seq<Envelope>, gone: set<Id>, env: Envelope)
    requires DistinctIds(sent + [env]) && env.id !in gone && |Kept(sent, gone)| == MAX_BUFFERED
    ensures var r := Kept(sent, gone);
            && AppendBounded(r, env) == Kept(sent + [env], gone + {r[0].id})
            && r[0].id in IdsOf(Overflow(sent + [env]))
  {
    var r := Kept(sent, gone);
    FirstDoesNotFit(sent, gone, env);
    DistinctFirst(sent, env);
    WithoutFirst(sent, gone);
    FullTakes(r, env);
    KeptSnoc(sent, env, gone + {r[0].id});
  }

  lemma {:induction false} WithoutFirst(s: seq<Envelope>, gone: set<Id>)
    requires DistinctIds(s) && Kept(s, gone) != []
    ensures Kept(s, gone + {Kept(s, gone)[0].id}) == Kept(s, gone)[1..]
  {
    var r := Kept(s, gone);
    KeptWithout(s, gone, 0);
    assert r[..0] + r[1..] == r[1..];
  }

  lemma {:induction false} FullTakes(pending: seq<Envelope>, env: Envelope)
    requires |pending| == MAX_BUFFERED
    ensures AppendBounded(pending, env) == pending[1..] + [env]
  {
  }

  lemma {:induction false} FirstDoesNotFit(sent: seq<Envelope>, gone: set<Id>, env: Envelope)
    requires DistinctIds(sent + [env]) && |Kept(sent, gone)| == MAX_BUFFERED
    ensures var first := Kept(sent, gone)[0]; first.id in IdsOf(Overflow(sent + [env])) && first.id != env.id
  {
    var m := FirstKept(sent, gone);
    var all := sent + [env];
    assert all[m] == sent[m] && all[|sent|] == env;
    assert Overflow(all)[m] == all[m] && Overflow(all)[m] in Overflow(all);
  }

  lemma {:induction false} DistinctFirst(sent: seq<Envelope>, env: Envelope)
    requires DistinctIds(sent + [env])
    ensures DistinctIds(sent)
  {
    assert forall i :: 0 <= i < |sent| ==> (sent + [env])[i] == sent[i];
  }

  lemma {:induction false} NewIsKept(sent: seq<Envelope>, init: seq<Signal>, lost: set<Id>, env: Envelope)
    requires DistinctIds(sent + [env]) && AcksFollow(init + [Deliver(env)]) && lost <= IdsOf(Overflow(sent))
    ensures env.id !in Elements(Acks(init)) + lost
  {
    var signals := init + [Deliver(env)];
    AckedIds(init, env.id);
    assert signals[|init|] == Deliver(env);
    assert forall i :: 0 <= i < |init| ==> signals[i] == init[i];
    assert (sent + [env])[|sent|] == env && forall i :: 0 <= i < |sent| ==> (sent + [env])[i] == sent[i];
    assert forall e :: e in Overflow(sent) ==> e in sent;
  }

  lemma {:induction false} OverflowGrows(s: seq<Envelope>, e: Envelope)
    ensures IdsOf(Overflow(s)) <= IdsOf(Overflow(s + [e]))
  {
    assert forall i :: 0 <= i < |Overflow(s)| ==> Overflow(s + [e])[i] == Overflow(s)[i];
  }

  /**
   Without room for all, an order of the signals leaves what the drain leaves exactly if whatever does not fit is
   acked or pushed out in that order too.
   */
  lemma {:induction false} OrderMattersExactly(pending: seq<Envelope>, signals: seq<Signal>)
    requires DistinctIds(pending + Delivered(signals)) && AcksFollow(signals) && |pending| <= MAX_BUFFERED
    ensures Process(pending, signals) == Drained(pending, Delivered(signals), Acks(signals)) <==>
            forall e :: e in Overflow(pending + Delivered(signals)) ==>
                e.id in Acks(signals) || e.id in PushedOut(pending, signals)
  {
    ProcessSplits(pending, signals);
    NothingKept(Overflow(pending + Delivered(signals)), Elements(Acks(signals)) + PushedOut(pending, signals));
    var drained := Drained(pending, Delivered(signals), Acks(signals));
    assert forall lost: seq<Envelope> :: lost + drained == drained <==> lost == [] by {
      assert forall lost: seq<Envelope> :: |lost + drained| == |lost| + |drained|;
    }
  }

  /** One order leaves what the drain leaves and, before that, what it saves of the overflow. */
  lemma {:induction false} ProcessSplits(pending: seq<Envelope>, signals: seq<Signal>)
    requires DistinctIds(pending + Delivered(signals)) && AcksFollow(signals) && |pending| <= MAX_BUFFERED
    ensures var sent, gone := pending + Delivered(signals), Elements(Acks(signals)) + PushedOut(pending, signals);
            Process(pending, signals)
            == Kept(Overflow(sent), gone) + Drained(pending, Delivered(signals), Acks(signals))
  {
    var sent, acked, lost := pending + Delivered(signals), Elements(Acks(signals)), PushedOut(pending, signals);
    ProcessLoses(pending, signals);
    DrainedIs(pending, Delivered(signals), Acks(signals));
    KeptSplits(sent, acked + lost);
    PushedOutIsOld(sent, acked, lost);
  }

  lemma {:induction false} KeptSplits(s: seq<Envelope>, gone: set<Id>)
    ensures Kept(s, gone) == Kept(Overflow(s), gone) + Kept(Newest(s), gone)
  {
    assert s == Overflow(s) + Newest(s);
    KeptConcat(Overflow(s), Newest(s), gone);
  }

  lemma {:induction false} DrainedIs(pending: seq<Envelope>, envs: seq<Envelope>, ids: seq<Id>)
    requires DistinctIds(pending + envs) && |pending| <= MAX_BUFFERED
    ensures Drained(pending, envs, ids) == Kept(Newest(pending + envs), Elements(ids))
  {
    AppendAllKeepsNewest(pending, envs);
    NewestDistinct(pending + envs);
    RemoveAllLoses(Newest(pending + envs), ids);
  }

  lemma {:induction false} NothingKept(s: seq<Envelope>, gone: set<Id>)
    ensures Kept(s, gone) == [] <==> forall e :: e in s ==> e.id in gone
  {
    KeptMembers(s, gone);
    var r := Kept(s, gone);
    assert r != [] ==> r[0] in r;
  }

  /** What is pushed out does not change what is kept of the newest. */
  lemma {:induction false} PushedOutIsOld(sent: seq<Envelope>, acked: set<Id>, lost: set<Id>)
    requires DistinctIds(sent) && lost <= IdsOf(Overflow(sent))
    ensures Kept(Newest(sent), acked + lost) == Kept(Newest(sent), acked)
  {
    var k := |Overflow(sent)|;
    assert forall i :: 0 <= i < |Newest(sent)| ==> Newest(sent)[i] == sent[k + i];
    KeptSame(Newest(sent), acked, acked + lost);
  }

  lemma {:induction false} KeptSame(s: seq<Envelope>, gone: set<Id>, other: set<Id>)
    requires forall e :: e in s ==> (e.id in gone <==> e.id in other)
    ensures Kept(s, gone) == Kept(s, other)
  {
    if s != [] {
      KeptSame(s[..|s| - 1], gone, other);
    }
  }

  /** With room for all, what was delivered and not acked is left, in the order it was delivered. */
  lemma {:induction false} ProcessKeeps(pending: seq<Envelope>, signals: seq<Signal>)
    requires DistinctIds(pending + Delivered(signals)) && AcksFollow(signals)
    requires |pending| + |Delivered(signals)| <= MAX_BUFFERED
    ensures Process(pending, signals) == Kept(pending + Delivered(signals), Elements(Acks(signals)))
  {
    ProcessLoses(pending, signals);
    assert IdsOf([]) == {} && PushedOut(pending, signals) == {};
    assert Elements(Acks(signals)) + {} == Elements(Acks(signals));
  }

  /** So any order of the signals in which no ack precedes its deliver leaves what the drain leaves. */
  lemma {:induction false} OrderDoesNotMatter(pending: seq<Envelope>, signals: seq<Signal>)
    requires DistinctIds(pending + Delivered(signals)) && AcksFollow(signals)
    requires |pending| + |Delivered(signals)| <= MAX_BUFFERED
    ensures Process(pending, signals) == Drained(pending, Delivered(signals), Acks(signals))
  {
    OrderMattersExactly(pending, signals);
  }

  /** A full mailbox whose newest envelope is acked while one more arrives: the drain loses the oldest, unacked. */
  lemma {:induction false} DrainCanLose()
    ensures var pending := seq(MAX_BUFFERED, i requires 0 <= i < MAX_BUFFERED => Envelope(i + 1, ""));
            var more := Envelope(MAX_BUFFERED + 1, "");
            && DistinctIds(pending + [more])
            && pending[0] in Process(pending, [Ack(MAX_BUFFERED), Deliver(more)])
            && pending[0] !in Drained(pending, [more], [MAX_BUFFERED])
  {
    var pending := seq(MAX_BUFFERED, i requires 0 <= i < MAX_BUFFERED => Envelope(i + 1, ""));
    var more := Envelope(MAX_BUFFERED + 1, "");
    var all := pending + [more];
    AppendAllKeepsNewest(pending, [more]);
    NewestDistinct(all);
    RemoveAllLoses(Newest(all), [MAX_BUFFERED]);
    KeptMembers(Newest(all), Elements([MAX_BUFFERED]));
    var k := PlaceOf(pending, MAX_BUFFERED, 0);
    assert pending[MAX_BUFFERED - 1].id == MAX_BUFFERED && k == MAX_BUFFERED - 1;
    var left := RemoveEnvelope(pending, MAX_BUFFERED);
    var signals := [Ack(MAX_BUFFERED), Deliver(more)];
    assert signals[..1] == [Ack(MAX_BUFFERED)] && [Ack(MAX_BUFFERED)][..0] == [];
    assert Process(pending, [Ack(MAX_BUFFERED)]) == left;
    assert left[0] == pending[0];
    assert (left + [more])[0] in left + [more];
  }

  // ----- The workflow -----

  datatype Receipt = Signalled | NotFound

  /** What has been sent and is not gone is pending or still queued, in the order it was sent. */
  ghost predicate Conserves(sent: seq<Envelope>, gone: set<Id>, pending: seq<Envelope>, queued: seq<Envelope>) {
    && DistinctIds(sent)
    && |pending| <= MAX_BUFFERED
    && gone <= IdsOf(sent)
    && pending + queued == Kept(sent, gone)
  }

  lemma {:induction false} SendConserves(sent: seq<Envelope>, gone: set<Id>, pending: seq<Envelope>,
      queued: seq<Envelope>, env: Envelope)
    requires Conserves(sent, gone, pending, queued) && env.id !in IdsOf(sent)
    ensures Conserves(sent + [env], gone, pending, queued + [env])
  {
    KeptSnoc(sent, env, gone);
    Regroup(pending, queued, [env]);
    assert forall e :: e in sent ==> e in sent + [env];
  }

  lemma {:induction false} LosingConserves(sent: seq<Envelope>, gone: set<Id>, pending: seq<Envelope>,
      queued: seq<Envelope>, k: nat)
    requires Conserves(sent, gone, pending, queued) && k < |pending|
    ensures Conserves(sent, gone + {pending[k].id}, pending[..k] + pending[k + 1..], queued)
  {
    var all := pending + queued;
    assert all[k] == pending[k] && all[k] in all;
    KeptWithout(sent, gone, k);
    KeptMembers(sent, gone);
    CutEarlier(pending, k, queued);
  }

  lemma {:induction false} ReceivingConserves(sent: seq<Envelope>, gone: set<Id>, pending: seq<Envelope>,
      queued: seq<Envelope>)
    requires Conserves(sent, gone, pending, queued) && |pending| < MAX_BUFFERED && queued != []
    ensures Conserves(sent, gone, pending + [queued[0]], queued[1..])
  {
    Regroup(pending, [queued[0]], queued[1..]);
    assert queued == [queued[0]] + queued[1..];
  }

  /** The running workflow of one worker, with the signals that wait for it. */
  class Mailbox {
    var pending: seq<Envelope>
    var deliverCh: seq<Envelope>
    var ackCh: seq<Id>
    var signalsProcessed: nat
    /** All envelopes that ever arrived; the ids no longer held; those of them pushed out of a full buffer. */
    ghost var sent: seq<Envelope>
    ghost var gone: set<Id>
    ghost var evicted: set<Id>

    ghost predicate Conserved()
      reads this
    {
      Conserves(sent, gone, pending, deliverCh)
    }

    ghost predicate Valid()
      reads this
    {
      Conserved() && signalsProcessed < CONTINUE_AS_NEW_AFTER
    }

    constructor ()
      ensures Valid() && sent == [] && gone == {} && evicted == {} && pending == [] && ackCh == []
    {
      pending, deliverCh, ackCh, signalsProcessed := [], [], [], 0;
      sent, gone, evicted := [], {}, {};
    }

    /** An envelope arrives, under an id no other has had. */
    method Send(env: Envelope)
      requires Valid() && env.id !in IdsOf(sent)
      modifies this`deliverCh, this`sent
      ensures Valid() && sent == old(sent) + [env] && deliverCh == old(deliverCh) + [env]
    {
      SendConserves(sent, gone, pending, deliverCh, env);
      deliverCh := deliverCh + [env];
      sent := sent + [env];
    }

    /** Acking is refused unless the envelope is pending. */
    method Ack(id: Id) returns (r: Receipt)
      requires Valid()
      modifies this`ackCh
      ensures Valid()
      ensures r == Signalled <==> exists i :: 0 <= i < |pending| && pending[i].id == id
      ensures ackCh == if r == Signalled then old(ackCh) + [id] else old(ackCh)
    {
      if PlaceOf(pending, id, 0) == |pending| {
        return NotFound;
      }
      ackCh := ackCh + [id];
      r := Signalled;
    }

    /** Takes one queued deliver. Something is pushed out only if the buffer was full, and then the oldest. */
    method Receive()
      requires Conserved() && deliverCh != []
      modifies this`pending, this`deliverCh, this`gone, this`evicted
      ensures Conserved() && deliverCh == old(deliverCh)[1..]
      ensures pending == AppendBounded(old(pending), old(deliverCh)[0])
      ensures var pushed := if old(|pending|) == MAX_BUFFERED then {old(pending)[0].id} else {};
              gone == old(gone) + pushed && evicted == old(evicted) + pushed
    {
      if |pending| == MAX_BUFFERED {
        LosingConserves(sent, gone, pending, deliverCh, 0);
        assert pending[..0] + pending[1..] == pending[1..];
        ReceivingConserves(sent, gone + {pending[0].id}, pending[1..], deliverCh);
        gone, evicted := gone + {pending[0].id}, evicted + {pending[0].id};
        assert pending[1..] + [deliverCh[0]] == AppendBounded(pending, deliverCh[0]);
      } else {
        ReceivingConserves(sent, gone, pending, deliverCh);
      }
      pending := AppendBounded(pending, deliverCh[0]);
      deliverCh := deliverCh[1..];
    }

    /** Takes one queued ack. Only what it names is removed, and nothing if that is not pending. */
    method TakeAck()
      requires Conserved() && ackCh != []
      modifies this`pending, this`ackCh, this`gone
      ensures Conserved() && ackCh == old(ackCh)[1..]
      ensures pending == RemoveEnvelope(old(pending), old(ackCh)[0])
      ensures gone == old(gone) || gone == old(gone) + {old(ackCh)[0]}
    {
      var k := PlaceOf(pending, ackCh[0], 0);
      if k < |pending| {
        LosingConserves(sent, gone, pending, deliverCh, k);
        gone := gone + {pending[k].id};
      }
      pending := RemoveEnvelope(pending, ackCh[0]);
      ackCh := ackCh[1..];
    }

    /** The drain: delivers first, then acks. Nothing is pushed out if everything fits. */
    method AbsorbAlreadyQueuedSignals()
      requires Conserved()
      modifies this`pending, this`deliverCh, this`ackCh, this`gone, this`evicted
      ensures Conserved() && deliverCh == [] && ackCh == []
      ensures pending == Drained(old(pending), old(deliverCh), old(ackCh))
      ensures gone <= old(gone) + evicted + Elements(old(ackCh)) && old(evicted) <= evicted
      ensures old(|pending| + |deliverCh|) <= MAX_BUFFERED ==> evicted == old(evicted)
    {
      AbsorbDelivers();
      AbsorbAcks();
    }

    method AbsorbDelivers()
      requires Conserved()
      modifies this`pending, this`deliverCh, this`gone, this`evicted
      ensures Conserved() && deliverCh == [] && pending == AppendAll(old(pending), old(deliverCh))
      ensures gone <= old(gone) + evicted && old(evicted) <= evicted
      ensures old(|pending| + |deliverCh|) <= MAX_BUFFERED ==> evicted == old(evicted)
    {
      while deliverCh != []
        invariant Conserved() && AppendAll(pending, deliverCh) == AppendAll(old(pending), old(deliverCh))
        invariant |pending| + |deliverCh| <= old(|pending| + |deliverCh|)
        invariant gone <= old(gone) + evicted && old(evicted) <= evicted
        invariant old(|pending| + |deliverCh|) <= MAX_BUFFERED ==> evicted == old(evicted)
        decreases |deliverCh|
      {
        AppendAllHead(pending, deliverCh);
        Receive();
      }
    }

    method AbsorbAcks()
      requires Conserved()
      modifies this`pending, this`ackCh, this`gone
      ensures Conserved() && ackCh == [] && pending == RemoveAll(old(pending), old(ackCh))
      ensures gone <= old(gone) + Elements(old(ackCh))
    {
      while ackCh != []
        invariant Conserved() && RemoveAll(pending, ackCh) == RemoveAll(old(pending), old(ackCh))
        invariant gone + Elements(ackCh) <= old(gone) + Elements(old(ackCh))
        decreases |ackCh|
      {
        ElementsHead(ackCh);
        RemoveAllHead(pending, ackCh[0], ackCh[1..]);
        TakeAck();
      }
    }

    /** One turn of the workflow; `deliver` says which channel the selector picks. */
    method Turn(deliver: bool)
      requires Valid() && (if deliver then deliverCh != [] else ackCh != [])
      modifies this`pending, this`deliverCh, this`ackCh, this`signalsProcessed, this`gone, this`evicted
      ensures Valid()
      ensures var (pending', delivers, acks) := old(Picked(deliver));
              if old(signalsProcessed) + 1 < CONTINUE_AS_NEW_AFTER
              then (signalsProcessed == old(signalsProcessed) + 1
                    && pending == pending' && deliverCh == delivers && ackCh == acks)
              else (signalsProcessed == 0
                    && pending == Drained(pending', delivers, acks) && deliverCh == [] && ackCh == [])
      ensures gone <= old(gone) + evicted + Elements(old(ackCh)) && old(evicted) <= evicted
      ensures old(|pending| + |deliverCh|) <= MAX_BUFFERED ==> evicted == old(evicted)
    {
      if deliver {
        Receive();
      } else {
        TakeAck();
      }
      signalsProcessed := signalsProcessed + 1;
      if signalsProcessed >= CONTINUE_AS_NEW_AFTER {
        AbsorbAlreadyQueuedSignals();
        signalsProcessed := 0;
      }
    }

    /** What is pending and what is queued once one signal is taken. */
    ghost function Picked(deliver: bool): (seq<Envelope>, seq<Envelope>, seq<Id>)
      requires if deliver then deliverCh != [] else ackCh != []
      reads this
    {
      if deliver then (AppendBounded(pending, deliverCh[0]), deliverCh[1..], ackCh)
      else (RemoveEnvelope(pending, ackCh[0]), deliverCh, ackCh[1..])
    }
  }
}
