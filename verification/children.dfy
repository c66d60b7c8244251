/** Delegated children beside the registered workers: docs/security-model.md. */
module Children {
  import opened Wrappers
  import opened Names
  import opened Forest
  import opened OrgChart
  import opened ChartFile
  import opened ControlPlane
  import opened Delegation
  import opened Routing

  /** The server sends nothing for this caller and lets it edit nobody on the strength of who it is. */
  ghost predicate Stranger(graph: Workers, caller: Id) {
    && (forall kind, to, empty :: Route(graph, caller, kind, to, empty) == Err(UnknownWorker))
    && (forall id :: id in graph ==> !MayEdit(graph, id, caller, false))
  }

  /** A caller with an id is a stranger exactly if it is not on the chart. */
  lemma {:induction false} StrangerExactly(graph: Workers, caller: Id)
    requires ValidChart(graph) && caller != NOBODY
    ensures Stranger(graph, caller) <==> caller !in graph
  {
    var p := ParentsOf(graph);
    if caller in graph {
      assert MayEdit(graph, caller, caller, false);
    } else {
      forall id | id in graph
        ensures !MayEdit(graph, id, caller, false)
      {
        StepUp(p, id);
        if p[id] != NOBODY {
          StepUp(p, p[id]);
        }
      }
    }
  }

  /** In every state of the run so far the caller is a stranger. */
  ghost predicate AlwaysStranger(ops: seq<Op>, n: nat, caller: Id)
    requires n <= |ops|
  {
    Stranger(Run(EMPTY, ops, n).graph, caller) && (n > 0 ==> AlwaysStranger(ops, n - 1, caller))
  }

  /**
   Over a whole run a delegated child is never taken for a registered worker exactly when no restart of the
   run brings in its id from a chart file.
   */
  lemma {:induction false} ChildrenStayApart(ops: seq<Op>, n: nat, parent: string, child: string)
    requires n <= |ops|
    ensures var id := IdOf(DelegatedWorkerId(parent, child));
            AlwaysStranger(ops, n, id) <==> NeverBroughtIn(EMPTY, ops, n, id)
  {
    var id := IdOf(DelegatedWorkerId(parent, child));
    ConnectRefusesDelegatedIds(parent, child);
    NamedExactly(DelegatedWorkerId(parent, child));
    EmptyInv();
    RunPutsMalformed(EMPTY, ops, n, id);
    StrangersAreOff(ops, n, id);
  }

  lemma {:induction false} StrangersAreOff(ops: seq<Op>, n: nat, id: Id)
    requires n <= |ops| && id != NOBODY
    ensures AlwaysStranger(ops, n, id) <==> NeverOnChart(EMPTY, ops, n, id)
  {
    EmptyInv();
    RunKeepsInv(EMPTY, ops, n);
    StrangerExactly(Run(EMPTY, ops, n).graph, id);
    if n > 0 {
      StrangersAreOff(ops, n - 1, id);
    }
  }

  /**
   The promise fails as it stands: a new server starts from a chart file that declares "a" and, reporting to it,
   "a~b". The child "b" that "a" may mint then sends in the name of the worker "a~b" and moves it away.
   */
  lemma {:induction false} ChildPosesAsWorker() returns (parent: string, child: string, ops: seq<Op>, id: Id)
    ensures parent == "a" && child == "b"
    ensures MayMint(Claims(parent, [], "", None), Request(child, [], 0), 300 * SECOND, "", 0)
    ensures id == IdOf(DelegatedWorkerId(parent, child)) && |ops| == 2
    ensures id in Run(EMPTY, ops, 1).graph && id in Run(EMPTY, ops, 2).graph
    ensures Route(Run(EMPTY, ops, 1).graph, id, StatusUpdate, NOBODY, false) == Ok(Some(IdOf(parent)))
    ensures ops[1] == Reassign(id, NOBODY, id, false)
    ensures Run(EMPTY, ops, 1).graph[id].reportsTo == IdOf(parent) && Run(EMPTY, ops, 2).graph[id].reportsTo == NOBODY
  {
    parent, child := "a", "b";
    var lead := IdOf(parent);
    id := IdOf(DelegatedWorkerId(parent, child));
    TextOfId(parent);
    TextOfId(DelegatedWorkerId(parent, child));
    var chart := [ChartWorker(lead, "", NOBODY), ChartWorker(id, "", lead)];
    ops := [Restart(Some(chart)), Reassign(id, NOBODY, id, false)];
    PairIsAcceptable(chart, lead, id);
    var s0, s1 := Run(EMPTY, ops, 0), Run(EMPTY, ops, 1);
    assert s1 == Step(s0, ops[0]);
    ChartTableIs(chart, 2);
    assert s1.graph[chart[1].id] == ToWorker(chart[1]);
    EmptyInv();
    RunKeepsInv(EMPTY, ops, 1);
    RepointKeepsForest(ParentsOf(s1.graph), id, NOBODY);
    assert Run(EMPTY, ops, 2) == Step(s1, ops[1]);
  }

  /** A chart of two, the second reporting to the first. */
  lemma {:induction false} PairIsAcceptable(chart: seq<ChartWorker>, lead: Id, id: Id)
    requires chart == [ChartWorker(lead, "", NOBODY), ChartWorker(id, "", lead)]
    requires lead != NOBODY && id != NOBODY && lead != id
    ensures Acceptable(chart)
  {
    assert Declared(chart, 0) == map[];
    assert Declared(chart, 1) == map[lead := NOBODY];
    assert Declared(chart, 2) == map[lead := NOBODY][id := lead];
    AloneIsForest(lead);
    AddKeepsForest(map[lead := NOBODY], id, lead);
  }
}
