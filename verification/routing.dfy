/** EmitFromWorker of internal/server/server.go. */
module Routing {
  import opened Wrappers
  import opened Forest
  import opened OrgChart
  import opened ControlPlane

  datatype MessageType = StatusUpdate | Escalation | CompletedWork | RequestForInput | Scheduled | Unknown

  datatype RouteError = UnknownWorker | InvalidMessage | NoEscalationTarget

  /** The recipient, or None for a message that stops at the root and is not sent to anybody. */
  function Route(graph: Workers, from: Id, kind: MessageType, to: Id, emptyPointer: bool)
    : Result<Option<Id>, RouteError>
  {
    if from == NOBODY then Err(InvalidMessage)
    else if from !in graph then Err(UnknownWorker)
    else if emptyPointer then Err(InvalidMessage)
    else
      var parent := graph[from].reportsTo;
      match kind
      case StatusUpdate => ToParent(kind, parent)
      case Escalation => ToParent(kind, parent)
      case CompletedWork => ToNamedOrParent(graph, kind, to, parent)
      case RequestForInput => ToNamedOrParent(graph, kind, to, parent)
      case Scheduled =>
        if to == NOBODY then Err(InvalidMessage)
        else if to !in graph then Err(UnknownWorker)
        else Ok(Some(to))
      case Unknown => Err(InvalidMessage)
  }

  function ToParent(kind: MessageType, parent: Id): Result<Option<Id>, RouteError> {
    if parent != NOBODY then Ok(Some(parent))
    else if kind == Escalation || kind == RequestForInput then Err(NoEscalationTarget)
    else Ok(None)
  }

  function ToNamedOrParent(graph: Workers, kind: MessageType, to: Id, parent: Id): Result<Option<Id>, RouteError> {
    if to == NOBODY then ToParent(kind, parent)
    else if to !in graph then Err(UnknownWorker)
    else Ok(Some(to))
  }

  /** Whatever is sent is sent to a worker on the chart, in every state the control plane can reach. */
  lemma {:induction false} RecipientIsRegistered(ops: seq<Op>, n: nat, from: Id, kind: MessageType, to: Id,
      emptyPointer: bool)
    requires n <= |ops|
    ensures var r := Route(Run(EMPTY, ops, n).graph, from, kind, to, emptyPointer);
            r.Ok? && r.value.Some? ==> r.value.value in Run(EMPTY, ops, n).graph
  {
    EmptyInv();
    RunKeepsInv(EMPTY, ops, n);
    var graph := Run(EMPTY, ops, n).graph;
    if from in graph {
      var p := ParentsOf(graph);
      StepUp(p, from);
      if p[from] != NOBODY {
        StepUp(p, p[from]);
      }
    }
  }

  /** A stored schedule can always be sent: its owner and recipient are on the chart whenever it is due. */
  lemma {:induction false} SchedulesCanAlwaysFire(ops: seq<Op>, n: nat, i: Id)
    requires n <= |ops| && i in Run(EMPTY, ops, n).schedules
    ensures var s := Run(EMPTY, ops, n); var sc := s.schedules[i];
            Route(s.graph, sc.owner, Scheduled, sc.to, false) == Ok(Some(sc.to))
  {
    EmptyInv();
    RunKeepsInv(EMPTY, ops, n);
  }

  /** An escalation climbs strictly towards the root, so handing one up over and over comes to an end. */
  lemma {:induction false} EscalationClimbs(graph: Workers, from: Id, to: Id, emptyPointer: bool)
    requires ValidChart(graph)
    ensures var r := Route(graph, from, Escalation, to, emptyPointer);
            r.Ok? ==> (r.value.Some? && from in graph && r.value.value in graph
                       && Below(ParentsOf(graph), r.value.value, from)
                       && Depth(ParentsOf(graph), r.value.value) < Depth(ParentsOf(graph), from))
  {
    var p := ParentsOf(graph);
    if from in graph && p[from] != NOBODY {
      StepUp(p, from);
      StepUp(p, p[from]);
    }
  }

  lemma {:induction false} EmptyInv()
    ensures Inv(EMPTY)
  {
    assert ParentsOf(map[]) == map[];
  }

  // ----- The rules, one by one -----

  /** A registered recipient that is named gets the message, whoever sends it, where naming one is allowed. */
  lemma {:induction false} NamedGetsIt(graph: Workers, from: Id, kind: MessageType, to: Id)
    requires from != NOBODY && from in graph && to != NOBODY && to in graph
    ensures Route(graph, from, kind, to, false) == Ok(Some(to)) <==>
              kind in {CompletedWork, RequestForInput, Scheduled}
              || (kind in {StatusUpdate, Escalation} && to == graph[from].reportsTo)
  {
  }

  /** Without a name, and for updates and escalations always, it is the parent. */
  lemma {:induction false} ParentGetsIt(graph: Workers, from: Id, kind: MessageType, to: Id)
    requires from != NOBODY && from in graph && graph[from].reportsTo != NOBODY
    requires kind in {StatusUpdate, Escalation} || (kind in {CompletedWork, RequestForInput} && to == NOBODY)
    ensures Route(graph, from, kind, to, false) == Ok(Some(graph[from].reportsTo))
  {
  }

  /** At the root, what asks for an answer fails and what only reports stops. */
  lemma {:induction false} RootHasNoParent(graph: Workers, from: Id, kind: MessageType, to: Id)
    requires from != NOBODY && from in graph && graph[from].reportsTo == NOBODY
    ensures Route(graph, from, kind, to, false) == Err(NoEscalationTarget) <==>
              kind == Escalation || (kind == RequestForInput && to == NOBODY)
    ensures Route(graph, from, kind, to, false) == Ok(None) <==>
              kind == StatusUpdate || (kind == CompletedWork && to == NOBODY)
  {
  }

  /** The other refusals: nobody sends, something is missing, or somebody is not registered. */
  lemma {:induction false} RefusedFor(graph: Workers, from: Id, kind: MessageType, to: Id, emptyPointer: bool)
    ensures Route(graph, from, kind, to, emptyPointer) == Err(InvalidMessage) <==>
              || from == NOBODY
              || (from in graph && (emptyPointer || kind == Unknown || (kind == Scheduled && to == NOBODY)))
    ensures Route(graph, from, kind, to, emptyPointer) == Err(UnknownWorker) <==>
              from != NOBODY
              && (from !in graph
                  || (!emptyPointer && to != NOBODY && to !in graph
                      && kind in {CompletedWork, RequestForInput, Scheduled}))
  {
  }
}
