/**
 The Temporal subscription: Subscribe and forgetIDsNoLongerPending in pkg/messaging/temporal/temporal.go, which polls
 a mailbox and sends on what it has not sent before.
 */
module Subscribers {
  import opened Wrappers
  import opened Mailboxes

  /** Of the first n envelopes, those a subscription sends that has seen `seen` before: each id's first. */
  function Unseen(pending: seq<Envelope>, seen: set<Id>, n: nat): seq<Envelope>
    requires n <= |pending|
  {
    if n == 0 then []
    else
      var before := Unseen(pending, seen, n - 1);
      if pending[n - 1].id in seen + IdsOf(before) then before else before + [pending[n - 1]]
  }

  lemma {:induction false} UnseenIds(pending: seq<Envelope>, seen: set<Id>, n: nat)
    requires n <= |pending|
    ensures var sent := Unseen(pending, seen, n);
            && DistinctIds(sent)
            && forall id :: id in IdsOf(sent) <==> id in IdsOf(pending[..n]) && id !in seen
  {
    if n > 0 {
      UnseenIds(pending, seen, n - 1);
      var before, env := Unseen(pending, seen, n - 1), pending[n - 1];
      assert pending[..n] == pending[..n - 1] + [env];
      IdsOfSnoc(pending[..n - 1], env);
      IdsOfSnoc(before, env);
      if env.id !in IdsOf(before) {
        DistinctSnoc(before, env);
      }
    }
  }

  lemma {:induction false} IdsOfSnoc(s: seq<Envelope>, env: Envelope)
    ensures IdsOf(s + [env]) == IdsOf(s) + {env.id}
  {
    assert forall e :: e in s + [env] <==> e in s || e == env;
  }

  lemma {:induction false} DistinctSnoc(s: seq<Envelope>, env: Envelope)
    requires DistinctIds(s) && env.id !in IdsOf(s)
    ensures DistinctIds(s + [env])
  {
    forall i | 0 <= i < |s|
      ensures s[i].id != env.id
    {
      assert s[i] in s;
    }
  }

  lemma {:induction false} FewIds(s: seq<Envelope>)
    ensures |IdsOf(s)| <= |s|
  {
    if s == [] {
      assert IdsOf(s) == {};
    } else {
      var n := |s| - 1;
      FewIds(s[..n]);
      IdsOfSnoc(s[..n], s[n]);
      assert s == s[..n] + [s[n]];
    }
  }

  class Subscription {
    var deliveredIds: set<Id>

    constructor ()
      ensures deliveredIds == {}
    {
      deliveredIds := {};
    }

    method ForgetIdsNoLongerPending(pending: seq<Envelope>)
      modifies this
      ensures deliveredIds == old(deliveredIds) * IdsOf(pending)
    {
      var left := deliveredIds;
      while left != {}
        invariant left <= deliveredIds
        invariant forall id :: id in deliveredIds <==> id in old(deliveredIds) && (id in left || id in IdsOf(pending))
        decreases left
      {
        var id :| id in left;
        left := left - {id};
        if id !in IdsOf(pending) {
          deliveredIds := deliveredIds - {id};
        }
      }
    }

    /**
     One poll: sent is each pending id not sent while it has been pending, once. Afterwards exactly the
     pending ids are remembered, so never more than the mailbox holds.
     */
    method Poll(pending: seq<Envelope>) returns (sent: seq<Envelope>)
      modifies this
      ensures deliveredIds == IdsOf(pending) && |deliveredIds| <= |pending|
      ensures DistinctIds(sent) && IdsOf(sent) == IdsOf(pending) - old(deliveredIds)
      ensures sent == Unseen(pending, old(deliveredIds), |pending|)
    {
      ForgetIdsNoLongerPending(pending);
      ghost var seen := old(deliveredIds);
      sent := [];
      for i := 0 to |pending|
        invariant sent == Unseen(pending, seen, i)
        invariant deliveredIds == seen * IdsOf(pending) + IdsOf(sent)
      {
        var env := pending[i];
        assert env in pending;
        IdsOfSnoc(sent, env);
        if env.id !in deliveredIds {
          deliveredIds := deliveredIds + {env.id};
          sent := sent + [env];
        }
      }
      UnseenIds(pending, seen, |pending|);
      assert pending[..|pending|] == pending;
      assert deliveredIds == IdsOf(pending);
      FewIds(pending);
    }
  }

  // ----- Over a run of polls -----

  /** What the i-th of a run of polls sends: what is pending then and was not at the poll before. */
  function SentAt(polls: seq<seq<Envelope>>, i: nat): set<Id>
    requires i < |polls|
  {
    IdsOf(polls[i]) - if i == 0 then {} else IdsOf(polls[i - 1])
  }

  /** That is what polling does. */
  method RunPolls(polls: seq<seq<Envelope>>) returns (sent: seq<seq<Envelope>>)
    ensures |sent| == |polls|
    ensures forall i :: 0 <= i < |polls| ==> DistinctIds(sent[i]) && IdsOf(sent[i]) == SentAt(polls, i)
  {
    var s := new Subscription();
    sent := [];
    for i := 0 to |polls|
      invariant |sent| == i && s.deliveredIds == if i == 0 then {} else IdsOf(polls[i - 1])
      invariant forall k :: 0 <= k < i ==> DistinctIds(sent[k]) && IdsOf(sent[k]) == SentAt(polls, k)
    {
      var now := s.Poll(polls[i]);
      sent := sent + [now];
    }
  }

  /** An id stays pending from poll i to poll j. */
  ghost predicate StaysPending(polls: seq<seq<Envelope>>, i: nat, j: nat, id: Id) {
    forall k :: i <= k <= j && k < |polls| ==> id in IdsOf(polls[k])
  }

  /** An id is sent when it is first seen pending, and not again for as long as it stays so. */
  lemma {:induction false} SentOncePerStay(polls: seq<seq<Envelope>>, i: nat, j: nat, id: Id)
    requires i <= j < |polls| && StaysPending(polls, i, j, id) && (i == 0 || id !in IdsOf(polls[i - 1]))
    ensures id in SentAt(polls, j) <==> i == j
  {
    assert j > i ==> id in IdsOf(polls[j - 1]);
    assert id in IdsOf(polls[j]);
  }
}
