# Robot Dreams: a verified model

Robot Dreams is a control plane for hierarchies of workers. This project models the parts of it that hold
state over long runs or compute something delicate, and proves what they are for. Each module stands for one
component; code that changes state in place is a class or a method with loops, proved against functions
whose properties are then proved as lemmas.

- **The chart and the control plane** (`names`, `forest`, `orgchart`, `chartfile`, `schedules`, `control_plane`,
  `authority`, `server`, `routing`, `remove_scope`). Parent pointers that every operation must keep a forest, because
  several loops over them have no other reason to end. `ControlPlane.Step` says what each server operation
  does to chart, rows, schedules and revocations; `ServerImpl.Server` refines it with the loops of the
  program; the invariant is proved for every run. `Authority` says, of any operation, who may change what.
- **Reporting** (`item_cycle`, `sorting`, `text`, `board`, `plan`, `events`, `spans`, `calendar`, `period`,
  `contributors`, `time_fold`, `library`). Cycle detection, the seven-key board order and its bounded merges, plan
  roll-ups, the event merge that favours critical events, first-in first-out spans, periods that tile time,
  the newest instance per path, folding over time, and definitions that extend each other.
- **Messages** (`mailbox`, `subscriber`, `embedded`, `outbox`, `scheduler`, `poller`). Delivery protocols as
  objects whose invariants speak of everything that ever happened to them.
- **Tokens and versions** (`revocation`, `delegation`, `children`, `version`). A cache against its store under
  interleaving, scope narrowing against the checks that read scopes, delegated children beside registered workers,
  and version precedence.

`wrappers` has the shared result types. An id is a number there, its place among all strings, because the code
mostly compares ids with each other and with the empty string; `names` has the two ways between ids and strings
and the check of worker ids. Where characters matter (scopes, names, versions, paths) strings are strings.
Clocks, random names, cron expressions, the outcome of sending and of HTTP posts are parameters. Each server
operation is one step and store calls succeed.

## What does not hold as promised

The code is modelled as it is. Where a promise is not kept, there is a lemma with a concrete input and one
that says exactly when it is kept.

- A deleted id is never registered again, except by restarting a server whose rows are all gone from a chart
  file that declares it: loading a chart file does not ask the revocations (`ControlPlane.StepKeepsGone`,
  `RunStaysGone`, `DeletedComesBack`).
- A registered worker can be shadowed by a delegated child, but only after a start without rows, of a new or an
  emptied server, from a chart file that declares the child's id: loading one does not check the form of ids
  (`ControlPlane.StepPutsMalformed`, `RunPutsMalformed`, `Children.ChildrenStayApart`, `ChildPosesAsWorker`).
- Narrowing widens storage access for verbs with a colon after their first character, and lets a child hold
  by name a storage scope its parent holds only by pattern (`Delegation.WidensExactly`, `AppearsExactly`).
  The verbs the server checks have no colon.
- A child's token can outlive its parent's by the time between two readings of the clock
  (`Delegation.ExpiresInTime`, `SignedExpiresInTime`, `CanOutliveParent`).
- A check that read the store before a revocation can fill the cache after the invalidation, so the cache can
  say "not revoked" for up to 60 seconds more (`Revocation.OvertakenExactly`, `InvalidationCanBeOvertaken`).
- The drain of a mailbox that overflows can lose an unacked envelope that another order of the same signals
  keeps (`Mailboxes.OrderMattersExactly`, `DrainCanLose`); `DrainIsExact` says when it loses none.
- Versions that section 9 of Semantic Versioning 2.0.0 forbids, hyphens before digits and numbers beyond an
  int are ordered wrongly (`Versions.ComparedRightExactly`, `UnreadIsMisplaced`; `CompareIsOneWayExactly`,
  `LeadingZeroBreaksOrder`).

## Model

| member | source | states |
|---|---|---|
| Forest.ForestHasNoCycle | internal/orgchart/graph.go:84-110 | a chart is a forest (every parent chain reaches the root) exactly if nobody is the root id, nobody dangles and nobody is on a circle |
| Forest.AddKeepsForest | internal/orgchart/graph.go:62-82 | adding a new worker under the root or a registered parent keeps the forest |
| Forest.RepointKeepsForest | internal/orgchart/graph.go:84-110 | moving a worker keeps the forest exactly if the new parent is the root, or registered and neither the worker nor below it |
| Forest.DropKeepsForest | internal/server/server.go:601-629 | removing a set that nobody left reports into keeps the forest |
| Forest.ReparentKeepsForest | internal/server/server.go:601-615 | moving any of a worker's children up to its own parent keeps the forest |
| Forest.SubtreeIsLeast | internal/orgchart/graph.go:135-163 | whatever holds a worker and everybody reporting into it holds its whole subtree |
| Forest.BelowIsLeading | internal/orgchart/graph.go:165-177 | being below a worker is that parent steps lead there |
| Forest.RootedIsLeading | internal/orgchart/graph.go:209-230 | a chain of parents ends at the root exactly if parent steps lead there |
| OrgChart.Graph.AddWorker | internal/orgchart/graph.go:62-82 | each refusal and its cause; otherwise the chart gains exactly that worker and stays a forest |
| OrgChart.Graph.HasAncestor | internal/orgchart/graph.go:165-177 | following pointers without a visited set ends, and answers whether one worker is above another |
| OrgChart.Graph.Reassign | internal/orgchart/graph.go:84-110 | a move is done exactly if the chart is a forest afterwards; nothing else changes, and each refusal has its cause |
| OrgChart.Graph.SetRole | internal/orgchart/graph.go:112-122 | the role changes, the forest does not |
| OrgChart.Graph.Remove | internal/orgchart/graph.go:124-133 | the entry goes and no other; the forest survives if nobody reported to it |
| OrgChart.Graph.Children | internal/orgchart/graph.go:190-207 | everybody who reports to a worker directly, once each |
| OrgChart.Graph.Descendants | internal/orgchart/graph.go:135-163 | without a visited set the walk ends and returns everybody strictly below the worker, once each, each after the one they report to |
| OrgChart.Graph.Walk | internal/orgchart/graph.go:150-161 | the breadth-first loop stops at the first empty level and has collected all levels up to it |
| OrgChart.Graph.Ancestors | internal/orgchart/graph.go:209-230 | the parent chain up to the root, nearest first; its guard against circles never cuts it short |
| OrgChart.LevelIsDepth | internal/orgchart/graph.go:150-161 | the n-th frontier of the walk is exactly those of the subtree that are n steps below the start |
| OrgChart.WholeSubtree | internal/orgchart/graph.go:135-163 | an empty frontier means that the levels before it are the whole subtree |
| OrgChart.DescendantsDone | internal/orgchart/graph.go:135-163 | the collected levels list everybody below the start, once each, parents first |
| ChartFile.ParseChartFile | internal/orgchart/chartfile.go:24-45 | accepts exactly the lists with non-empty unique ids whose parent chains all end at the root, and returns them unchanged; otherwise reports exactly the empty, repeated, self-reporting and dangling entries, and the ids on circles |
| ChartFile.IndexUniqueIds | internal/orgchart/chartfile.go:47-62 | exactly the empty and the repeated ids are reported, each with the first entry that has it; the index has the place of each |
| ChartFile.CheckReportsToResolve | internal/orgchart/chartfile.go:64-79 | exactly the workers are reported that report to themselves or to an id no entry has |
| ChartFile.DetectCycles | internal/orgchart/chartfile.go:81-135 | the three-colour walk returns exactly the ids on a circle of parent edges |
| ChartFile.MarkCycleFrom | internal/orgchart/chartfile.go:137-148 | everybody on the path from the given entry on is marked, and nobody else |
| ChartFile.ClosesCycle | internal/orgchart/chartfile.go:96-117 | a walk that meets its own path has found a circle: the path from there on, and nobody before |
| ChartFile.RunsInto | internal/orgchart/chartfile.go:96-117 | a walk that meets settled ids closes no new circle |
| ChartFile.AcceptedExactly | internal/orgchart/chartfile.go:30-43 | the three checks together pass exactly for charts that are forests |
| ControlPlane.StepKeepsInv | internal/server/server.go:429-694 | connect, reassign, role change, touch, both deletes, schedule writes, fires, revocations and restart all keep the invariant: chart a forest, rows the same but for when workers were last seen, schedules owned and received by registered workers, deleted ids revoked |
| ControlPlane.RunKeepsInv | internal/server/server.go:338-694 | that invariant holds in every state of every run |
| ControlPlane.DeleteKeepsInv | internal/server/server.go:591-648 | a delete of either kind keeps the invariant |
| ControlPlane.RestartKeepsInv | internal/server/server.go:338-414 | a restart keeps the invariant |
| ControlPlane.TableStepKeepsInv | internal/server/server.go:453-461 | operations that write only tables keep the invariant |
| ControlPlane.ReloadedForest | internal/server/server.go:348-379 | reloading any rows gives a forest: whole chains are kept, everybody else reports to the root |
| ControlPlane.StepKeepsGone | internal/server/server.go:381-414 | a step puts a deleted id back on the chart exactly if it is a restart of an emptied server from an accepted chart file that declares that id |
| ControlPlane.RunStaysGone | internal/server/api/auth.go:373-395 | over a whole run no deleted id is ever registered again exactly if no restart of it is of that kind |
| ControlPlane.DeletedStaysGone | internal/server/api/auth.go:373-395 | without such a restart, a deleted id is revoked and off the chart ever after |
| ControlPlane.DeletedComesBack | internal/server/server.go:381-414 | the concrete run on which the promise fails: connect, delete, restart with a chart file |
| ControlPlane.CascadeRemovesLeaves | internal/server/server.go:601-629 | in the order of a cascade every removal takes a leaf, and every chart in between is a forest |
| ControlPlane.DescendantsAreWhole | internal/server/server.go:601-629 | a worker and its listed descendants are its whole subtree, ready for removal backwards |
| ControlPlane.ChartTableParents | internal/server/server.go:391-412 | an accepted chart file's table has the declared parents |
| ControlPlane.StepPutsMalformed | internal/server/server.go:381-414 | a step puts an id that connecting refuses on the chart exactly if it is a start without rows from an accepted chart file that declares that id |
| ControlPlane.RunPutsMalformed | internal/orgchart/chartfile.go:24-62 | over a whole run such an id is never on the chart exactly if no restart of it is of that kind |
| Authority.ReassignIsAuthorized | internal/server/server.go:463-476 | without admin only the worker itself and its parent change anything by a reassignment, and theirs is done whenever the moved chart is a forest |
| Authority.SetRoleIsAuthorized | internal/server/server.go:526-536 | without admin only the worker itself and its parent change anything by a role, and theirs is done |
| Authority.WhoMoves | internal/server/server.go:463-681 | whatever operation comes, a worker changes hands only by such a reassignment or to its grandparent when its parent is deleted without cascade |
| Authority.MovesWhen | internal/server/server.go:463-615 | and in these two ways it does |
| Authority.WhoChangesRoles | internal/server/server.go:526-547 | a role changes exactly by a request of the worker, its parent or an admin, and by no other operation |
| Authority.NobodyChangesKeys | internal/server/server.go:338-694 | no operation changes the key, the metadata or the time of connecting of a worker on the chart |
| Authority.WhoJoins | internal/server/server.go:429-451 | an id comes onto the chart exactly by connecting, well formed, not revoked and under a registered parent, or from a chart file at a start without rows |
| Authority.ConnectsAs | internal/server/server.go:429-442 | who connects is on the chart as announced, status and times filled in where left open |
| Authority.WhoLeaves | internal/server/server.go:591-681 | an id leaves the chart exactly by its own delete or by a cascade of somebody parent steps from it lead to |
| Authority.TouchIsKept | internal/server/server.go:453-461 | a touch sets last-seen and status of one stored row and nothing else |
| Authority.RestartRestores | internal/server/server.go:348-379 | a restart takes every row as it is if its chain of parents ends at the root, and only puts it under the root if not |
| Authority.RestartTakesChart | internal/server/server.go:381-414 | without rows a start takes the entries of an accepted chart file as declared, and nothing of any other |
| Authority.WhoWrites | internal/server/api/schedules.go:79-145 | whatever operation comes, a schedule appears or changes only by a request of its owner or an admin between registered workers, or has its times moved by a fire |
| Authority.OwnersWrite | internal/server/api/schedules.go:79-145 | and such a request is granted, written over only what the caller owns |
| Authority.FiresMove | internal/server/store/schedules.go:125-139 | a fire moves both times of its schedule and nothing else |
| Authority.WhoDrops | internal/server/api/schedules.go:197-212 | a schedule goes exactly by a request of its owner or an admin, or with a worker that owns or receives it |
| Authority.WhoIsRevoked | internal/server/server.go:635-648 | revoked is exactly who was revoked before, by hand or by being deleted |
| ServerImpl.Server.ConnectWorker | internal/server/server.go:429-451 | chart and rows move as the connect step says; refused as malformed exactly for ids that are no worker names, and otherwise for revoked or taken ids and unknown parents |
| ServerImpl.Server.TouchWorker | internal/server/server.go:453-461 | only the stored row changes |
| ServerImpl.Server.ReassignWorker | internal/server/server.go:463-524 | chart and rows move as the reassign step says, with its authorization; done exactly if allowed and acyclic |
| ServerImpl.Server.SetWorkerRole | internal/server/server.go:526-589 | chart and rows move as the role step says |
| ServerImpl.Server.DeleteWorker | internal/server/server.go:591-681 | refines the delete step; returns exactly the removed ids, once each |
| ServerImpl.Server.PrepareDelete | internal/server/server.go:601-629 | either way, what is left to do is to remove exactly who the delete removes, once each |
| ServerImpl.Server.CollectBranch | internal/server/server.go:616-629 | the removal list of a cascade is the subtree backwards, the worker itself last |
| ServerImpl.Server.MoveChildrenUp | internal/server/server.go:601-615 | all children end up under the parent of the worker, in chart and rows |
| ServerImpl.Server.RemoveAll | internal/server/server.go:635-648 | removing one after the other, chart, row, schedules and revocation, ends in the state without them |
| ServerImpl.Server.DeleteWorkerSchedules | internal/server/server.go:683-694 | exactly the schedules the worker owns or receives are gone |
| ServerImpl.Server.PutSchedule | internal/server/api/schedules.go:79-145 | stored exactly if owner and recipient are registered, the caller may write it and it is valid |
| ServerImpl.Server.DropSchedule | internal/server/api/schedules.go:197-212 | the schedule goes if the caller may remove it |
| ServerImpl.Server.Restart | internal/server/server.go:338-366 | refines the restart step from an empty chart |
| ServerImpl.Server.LoadGraph | internal/server/server.go:338-366 | from any rows and in any listing order: the chart and the rows a restart should leave |
| ServerImpl.Server.AddRound | internal/server/server.go:348-366 | one pass places exactly those whose parent is on the chart by then and defers the others |
| ServerImpl.Server.ReattachOrphansToRoot | internal/server/server.go:368-379 | the orphans report to the root, in chart and rows |
| ServerImpl.Server.LoadOrgChartFile | internal/server/server.go:381-414 | loads an accepted chart whole and never stops with edges it cannot resolve |
| ServerImpl.LoadsAll | internal/server/server.go:348-366 | the retry loop places exactly the workers whose stored chain reaches the root, whatever the order of the list |
| ServerImpl.OnlyBrokenLeft | internal/server/server.go:348-366 | a pass that places nobody leaves only workers with a broken chain |
| ServerImpl.LoadRestores | internal/server/server.go:348-379 | reloading restores every id, keeps whole chains and moves exactly the others to the root |
| ServerImpl.ChartLoads | internal/server/server.go:391-412 | the retry loop on an accepted chart file places everybody |
| ServerImpl.RemovalKeepsInv | internal/server/server.go:635-648 | every state between two removals of a cascade keeps the invariant |
| ServerImpl.MoveUpKeepsInv | internal/server/server.go:601-615 | moving one child more is allowed, keeps the forest and is one saved reassignment |
| Names.NamedExactly | internal/server/server.go:67-79 | the id of a text is one to connect under exactly if the text is a valid worker id |
| Names.ValidIdsAre | internal/server/server.go:67-79 | a valid worker id is one to 128 letters, digits, dots, dashes and underscores, the first a letter or digit |
| Names.IdCharsAre | internal/server/server.go:63-63 | the characters of worker ids by their ASCII codes |
| Names.TextOfId | internal/server/server.go:67-79 | ids stand for all texts, one each: reading an id back gives its text |
| Names.IdOfText | internal/server/server.go:67-79 | and every id stands for a text |
| Routing.RecipientIsRegistered | internal/server/server.go:696-756 | in every reachable state a message that is sent goes to a registered worker |
| Routing.SchedulesCanAlwaysFire | internal/server/scheduler.go:144-153 | in every reachable state every stored schedule can be sent to its recipient |
| Routing.EscalationClimbs | internal/server/server.go:696-756 | an escalation goes to somebody strictly nearer the root |
| Routing.NamedGetsIt | internal/server/server.go:705-756 | a registered recipient named by a registered sender gets the message exactly if it completes work, asks for input or is scheduled, or is the parent of who reports or escalates |
| Routing.ParentGetsIt | internal/server/server.go:705-734 | reports and escalations always, completed work and requests without a name go to the parent |
| Routing.RootHasNoParent | internal/server/server.go:705-734 | at the root exactly escalations and unnamed requests fail, and exactly reports and unnamed completed work stop |
| Routing.RefusedFor | internal/server/server.go:696-756 | the exact causes of the two other refusals |
| RemoveScope.DryRun | cmd/dream/cmd_server.go:741-793 | on any listing, circles included, the walk ends and names the least set that holds the root and is closed downwards, once each |
| RemoveScope.DryRunIsTheSubtree | cmd/dream/cmd_server.go:770-793 | on the server's chart that is exactly what a cascade removes |
| ItemCycle.FindItemCycle | pkg/reporting/instance.go:244-293 | empty exactly if the blocked_by entries between existing items have no cycle; otherwise one of their cycles |
| ItemCycle.Search.Walk | pkg/reporting/instance.go:262-286 | the recursion ends on every graph, and returns a cycle or finishes everything reachable |
| ItemCycle.Search.CycleClosingAt | pkg/reporting/instance.go:295-302 | returns a real cycle; the code after its loop cannot be reached |
| ItemCycle.RankedHasNoCycle | pkg/reporting/instance.go:244-293 | what the search leaves behind rules out every cycle |
| ItemCycle.CyclesAreBlockingCycles | pkg/reporting/instance.go:244-261 | cycles of the table built from the items are cycles between the items |
| ItemCycle.CycleMeans | pkg/reporting/instance.go:244-261 | each member of a cycle is an item with an id, one of whose entries names the next |
| Sorting.SortIsStable | pkg/reporting/aggregate.go:812-823 | sorting leaves elements the order does not tell apart in the order they came |
| Sorting.SortedIsUnique | pkg/reporting/aggregate.go:775-800 | without ties there is one sorted arrangement only |
| Sorting.CutMerges | pkg/reporting/aggregate.go:812-823 | cutting every batch to its first k beforehand does not change the first k of the whole |
| Sorting.FilterSort | pkg/reporting/aggregate.go:532-556 | sorting the whole sorts every part |
| Board.ItemLessIsOneWay | pkg/reporting/aggregate.go:775-800 | no two items each go before the other |
| Board.ItemLessIsTransitive | pkg/reporting/aggregate.go:775-800 | the order of items is transitive |
| Board.ItemLessIsTotal | pkg/reporting/aggregate.go:775-800 | of two items with different scope or id one goes first |
| Board.TiedExactly | pkg/reporting/aggregate.go:775-800 | two items are tied exactly if all seven keys agree |
| Board.ItemOrderIsWeak | pkg/reporting/aggregate.go:775-810 | the order ranks all items, undeclared states and commitments included |
| Board.CommitmentRankIs | pkg/reporting/aggregate.go:802-809 | a declared commitment ranks by its first place, an undeclared one after all declared ones |
| Board.StateRankIs | pkg/reporting/definition.go:292-302 | a declared state ranks by its first place, an undeclared one before all declared ones |
| Board.UnfinishedFirst | pkg/reporting/aggregate.go:776-778 | items not in the last declared state go before items in it, whatever else |
| Board.BlockedFirst | pkg/reporting/aggregate.go:779-781 | of two alike in that, what something blocks goes first |
| Board.CommittedFirst | pkg/reporting/aggregate.go:782-784 | of two alike so far, the commitment declared first, and a declared one before an undeclared one |
| Board.DueFirst | pkg/reporting/aggregate.go:785-792 | of two alike so far, what has a due date before what has none, and the earlier due first |
| Board.EarlierStateFirst | pkg/reporting/aggregate.go:793-795 | of two alike so far, the state declared first, and an undeclared one before that |
| Board.ScopeThenId | pkg/reporting/aggregate.go:796-799 | of two alike in all of that, scope and then id decide, as texts |
| Board.MergeItems | pkg/reporting/aggregate.go:812-823 | the merged board is the sorted board of all batches, cut to the limit |
| Board.BoardIsOrdered | pkg/reporting/aggregate.go:812-823 | on a board nothing stands behind what goes after it, and nothing that is cut off goes before what is kept: no unfinished item behind a finished one, no later due date before an earlier one |
| Board.BoardIgnoresOrder | pkg/reporting/aggregate.go:812-823 | with distinct (scope, id) the board does not depend on batches or their order |
| Board.MergingCutBoards | pkg/reporting/aggregate.go:812-823 | merging boards already cut to the limit gives the board of everything, ties included |
| Board.BoundItems | pkg/reporting/aggregate.go:717-744 | sampling keeps the first n of every state in place; the other policies keep a first part |
| Board.BoundedMeans | pkg/reporting/aggregate.go:717-744 | top keeps the first n, sampling the first n of each state, everything else the first 500 |
| PlanView.AggregatePlan | pkg/reporting/aggregate.go:656-703 | columns, buckets, totals, blocked count, kept items and the truncation flag of a plan view |
| PlanView.ColumnsConserve | pkg/reporting/aggregate.go:657-677 | the columns together hold every item in a declared state exactly once, even if a state is declared twice |
| PlanView.ShownAreHeld | pkg/reporting/aggregate.go:692-701 | no column shows more than it holds |
| PlanView.CountsAdd | pkg/reporting/aggregate.go:670-681 | rolling up two lots together is rolling up each and adding, for counts and sizes |
| PlanView.CountsAre | pkg/reporting/aggregate.go:670-681 | each field is counted by its own values, and blocked are the items something blocks |
| PlanView.SizeOfOne | pkg/reporting/aggregate.go:670-681 | the size of one item counts for the value it has in each field |
| PlanView.ColumnIs | pkg/reporting/aggregate.go:657-701 | a state declared once has a column with its limit, all items in it and those of them that are shown |
| PlanView.BucketIs | pkg/reporting/aggregate.go:746-773 | a bucket with a name has the items of that name, one without none |
| PlanView.TallyBuckets | pkg/reporting/aggregate.go:746-773 | each bucket has the number and size of the items that name it; an empty name gathers nothing |
| PlanView.SortCounts | pkg/reporting/aggregate.go:690-701 | sorting changes no count |
| Events.MergeEvents | pkg/reporting/aggregate.go:532-556 | the merge of the batches: everything sorted, or the kept critical events and the kept others, sorted |
| Events.MergeKeepsNewest | pkg/reporting/aggregate.go:532-556 | for a limit k the merge has min(k, total) events in time order, the newest critical ones as far as they fit and the newest others in the room left |
| Events.MergedInTime | pkg/reporting/aggregate.go:532-556 | for a limit k the merge has min(k, total) of the events that came in, in order of their times |
| Events.OlderGoes | pkg/reporting/aggregate.go:532-556 | no kept event is older than a dropped one that is critical or not just as it is |
| Events.CriticalAllKept | pkg/reporting/aggregate.go:532-556 | while the critical events fit, all of them are kept |
| Events.CriticalGoesLast | pkg/reporting/aggregate.go:532-556 | a critical event is dropped only when nothing but critical events is kept |
| Events.ReportTable.Insert | internal/server/store/reports.go:51-65 | after every insert exactly the newest rows of all ever inserted into the group are left, the later inserted first where times are equal |
| Events.PruneIsStreaming | internal/server/store/reports.go:51-65 | pruning after every insert keeps what pruning the whole history would keep |
| Events.NewestRowsStay | internal/server/store/reports.go:51-65 | what is left of all rows is as many as retention allows, newest first, none older than a row that is gone, and of rows of one time those inserted last |
| Spans.DeriveSpans | internal/server/api/reports.go:441-469 | the spans of all specs, stably sorted by start |
| Spans.DeriveFor | internal/server/api/reports.go:443-466 | one spec's loop computes its first-in first-out matching and leaves earlier spans alone |
| Spans.SpansStartInOrder | internal/server/api/reports.go:467-469 | the spans come in order of their starts, none lost, those of one start as they were matched |
| Spans.Pass | internal/server/api/reports.go:443-466 | in one pass every start opens a span, every end closes the oldest open span of its scope or finds none open, and the queues hold the open spans in order |
| Spans.FifoMeans | internal/server/api/reports.go:441-469 | no end closes two spans, the closed spans of a scope come first and end in order, and on time-ordered events none, the last included, ends before it starts |
| Spans.OneSpanPerStart | internal/server/api/reports.go:446-454 | there are as many spans of a spec as start events |
| Spans.EverySpecIsMatched | internal/server/api/reports.go:441-469 | with several specs each keeps its own matching |
| Calendar.DatesAdvance | pkg/reporting/period.go:46-75 | the date of the next day is the next date of the Gregorian calendar |
| Calendar.DatesBegin | pkg/reporting/period.go:46-75 | day 0 is 1 January of the year 1 |
| Calendar.DayOfDate | pkg/reporting/period.go:46-75 | a date made into a day and read back is that date |
| Calendar.DateOfDay | pkg/reporting/period.go:46-75 | a day read as a date and made into a day again is that day |
| Calendar.DaysOfMonths | pkg/reporting/period.go:59-68 | a run of months holds exactly the days between two month starts |
| Calendar.DayInClosedForm | pkg/reporting/period.go:46-75 | the day number of a date in closed form, by the lengths of the months and the rule of 4, 100 and 400 years |
| Calendar.FourHundredYears | pkg/reporting/period.go:46-75 | 400 years are 146097 days, whenever they begin |
| Calendar.UnixEpoch | pkg/reporting/period.go:46-75 | 1 January 1970 is day 719162 and a Thursday |
| Calendar.LeapDayFollows | pkg/reporting/period.go:46-75 | after 28 February comes 29 February exactly in leap years, told by the rule of 4, 100 and 400 years |
| Periods.MonthsBegin | pkg/reporting/period.go:59-61 | a month runs from its first up to the first of the next one |
| Periods.QuartersBegin | pkg/reporting/period.go:62-65 | quarters run from the first of January, April, July and October |
| Periods.YearsBegin | pkg/reporting/period.go:66-68 | a year runs from 1 January to 1 January |
| Periods.WeeksBegin | pkg/reporting/period.go:55-58 | a week has the seven days from a Monday |
| Periods.MidnightToMidnight | pkg/reporting/period.go:46-75 | every period begins and ends at a midnight of its zone |
| Periods.EpochPeriods | pkg/reporting/period.go:46-75 | the Unix epoch is the start of January 1970, in the week of 29 December 1969 |
| Periods.WeekdaysFollow | pkg/reporting/period.go:77-79 | weekdays follow each other from Sunday on, and the days since Monday lead back to a Monday |
| Periods.HoldsExactly | pkg/reporting/period.go:46-84 | a period holds exactly the instants whose local date is in the same day, week from Monday, month, quarter or year, out-of-range days and months notwithstanding |
| Periods.MadeForAll | pkg/reporting/period.go:46-84 | a period contains the instant it was made for and is made again for every instant in it |
| Periods.Disjoint | pkg/reporting/period.go:46-84 | two periods of a kind that share an instant are the same |
| Periods.NextMeets | pkg/reporting/period.go:91-94 | Next starts where the period ends, and Previous undoes it |
| Periods.PreviousMeets | pkg/reporting/period.go:86-89 | Previous ends where the period starts, and Next undoes it |
| Periods.EveryInstantIsReached | pkg/reporting/period.go:91-94 | going on with Next reaches the period of every later instant |
| Periods.EveryEarlierInstantIsReached | pkg/reporting/period.go:86-89 | going back with Previous reaches the period of every earlier instant |
| Contributors.LatestPerPath | pkg/reporting/aggregate.go:92-120 | the newest wanted instance of every path at or below the scope, in order of time and path |
| Contributors.NewestIsNewest | pkg/reporting/aggregate.go:94-107 | exactly the paths with a wanted instance have one, and none of theirs is newer |
| Contributors.LastOfNewest | pkg/reporting/aggregate.go:94-107 | what counts for a path is the last of its newest instances of the definition or of none |
| Contributors.ListInTime | pkg/reporting/aggregate.go:109-119 | the list goes from the oldest to the newest, and at one time by path |
| Contributors.SplitOfPath | pkg/reporting/scope.go:5-15 | splitting a path undoes joining names without slashes or spaces at their ends |
| Contributors.WithinExactly | pkg/reporting/scope.go:34-48 | a path is at or below another exactly if the names of the other are its first ones |
| Contributors.OneList | pkg/reporting/aggregate.go:109-119 | the result does not depend on the order the table is gone through in |
| Contributors.RollUpNests | pkg/reporting/aggregate.go:92-120 | taking the newest in two levels is taking the newest at once |
| TimeFold.ApplyKpiPolicy | pkg/reporting/aggregate.go:460-513 | count, sum, average, minimum, maximum, percentile or latest of a list of values, and 0 for none |
| TimeFold.AppliedMeans | pkg/reporting/aggregate.go:460-503 | a count is of the values; the average times their number is the sum; no values make 0; the latest is the last, and minimum and maximum are values with all others between them |
| TimeFold.FoldedIsExtreme | pkg/reporting/aggregate.go:475-502 | a minimum is one of the values and no more than any, a maximum one and no less than any, the latest is the last |
| TimeFold.PercentileIsRanked | pkg/reporting/aggregate.go:505-513 | a percentile is the value at its nearest rank: that many values are no more than it and the rest no less |
| TimeFold.FoldOverTime | pkg/reporting/aggregate.go:142-193 | a group stands as its newest instance, each declared KPI folded over those that report it and left out if none does; a group of one is kept as it is |
| TimeFold.ValuesAre | pkg/reporting/aggregate.go:142-168 | the values folded are those of the instances that report the KPI, in their order |
| TimeFold.ContributorsIn | pkg/reporting/aggregate.go:62-90 | exactly one contributor for every path with an instance in the period, folded from that path's instances in order of time, in order of time and path |
| TimeFold.GroupIs | pkg/reporting/aggregate.go:62-81 | a group has exactly the instances of its path, of the definition or of none, produced within the period, the oldest first and those of one time as they came |
| TimeFold.FoldsNest | pkg/reporting/aggregate.go:142-193 | over any number of groups, some without the KPI, folding each and then the contributors is folding their concatenation |
| TimeFold.TwoLevelsAreOne | pkg/reporting/aggregate.go:142-193 | for sum, min and max, folding groups and then contributors is folding all their instances at once, whatever the order of any of them |
| TimeFold.PeriodIsFoldedWhole | pkg/reporting/aggregate.go:62-90 | for these, the value over the contributors of a period is the value over all its instances as listed |
| TimeFold.LatestExactly | pkg/reporting/aggregate.go:142-193 | for the latest value, two levels give the last report of the last contributor that reports, which is a newest report of all exactly if no other path's last report is newer |
| TimeFold.LatestCanBeOld | pkg/reporting/aggregate.go:142-193 | a path whose newest instance leaves the KPI out hides a newer report of another path |
| Mailboxes.ProcessKeeps | pkg/messaging/temporal/workflow.go:53-85 | as long as everything fits, signals taken in any order in which no ack precedes its deliver leave what was delivered and not acked, in delivery order |
| Mailboxes.OrderDoesNotMatter | pkg/messaging/temporal/workflow.go:53-103 | as long as everything fits, any such order leaves what the drain at continue-as-new leaves |
| Mailboxes.ProcessLoses | pkg/messaging/temporal/workflow.go:53-85 | fitting or not, any such order leaves what was neither acked nor pushed out, in delivery order, and pushes out only envelopes that do not fit |
| Mailboxes.OrderMattersExactly | pkg/messaging/temporal/workflow.go:53-103 | fitting or not, any such order leaves what the drain leaves exactly if all that does not fit is acked, or pushed out in that order too |
| Mailboxes.DrainIsExact | pkg/messaging/temporal/workflow.go:87-103 | fitting or not, the drain leaves what was not acked exactly if all that does not fit was acked |
| Mailboxes.DrainCanLose | pkg/messaging/temporal/workflow.go:87-103 | a full mailbox on which the drain loses an unacked envelope that another order keeps |
| Mailboxes.RemoveIsLosing | pkg/messaging/temporal/workflow.go:105-115 | removing an envelope by id leaves the others in place |
| Mailboxes.AppendAllKeepsNewest | pkg/messaging/temporal/workflow.go:79-95 | appending one by one keeps the newest 1000 |
| Mailboxes.Mailbox.Receive | pkg/messaging/temporal/workflow.go:56-61 | what was sent and is not gone stays pending or queued in order; at most 1000 pending; only the oldest is pushed out, and only by a full buffer |
| Mailboxes.Mailbox.TakeAck | pkg/messaging/temporal/workflow.go:63-68 | only the envelope named is removed |
| Mailboxes.Mailbox.AbsorbAlreadyQueuedSignals | pkg/messaging/temporal/workflow.go:87-103 | the drain loop computes delivers-then-acks, and pushes nothing out if everything fits |
| Mailboxes.Mailbox.Turn | pkg/messaging/temporal/workflow.go:53-76 | a turn takes one signal and after 2000 drains and starts anew; nothing is lost but by ack or by a full buffer |
| Mailboxes.Mailbox.Ack | pkg/messaging/temporal/temporal.go:200-225 | an ack is signalled exactly for a pending envelope |
| Mailboxes.Mailbox.Send | pkg/messaging/temporal/temporal.go:110-138 | a sent envelope joins the queue |
| Subscribers.Subscription.Poll | pkg/messaging/temporal/temporal.go:158-180 | each pending id not sent while it has been pending is sent once; exactly the pending ids are remembered, never more than are pending |
| Subscribers.Subscription.ForgetIdsNoLongerPending | pkg/messaging/temporal/temporal.go:187-197 | exactly the ids still pending are remembered |
| Subscribers.RunPolls | pkg/messaging/temporal/temporal.go:150-184 | over a run of polls each sends what was not pending at the poll before |
| Subscribers.SentOncePerStay | pkg/messaging/temporal/temporal.go:150-197 | an id is sent at the first poll that sees it pending and not again for as long as it stays so |
| Embedded.Subscription.Emit | pkg/messaging/embedded/sqlite_store.go:48-72 | a message is appended under the next row number unless its id is taken |
| Embedded.Subscription.Ack | pkg/messaging/embedded/sqlite_store.go:74-95 | exactly the row of that id and recipient is marked, once |
| Embedded.Subscription.PollSince | pkg/messaging/embedded/sqlite_store.go:97-115 | the worker's unacked rows above the watermark in order, and the new watermark |
| Embedded.Subscription.Poll | pkg/messaging/embedded/embedded.go:80-95 | after a poll every row of the worker has been selected or is acked, and the watermark has passed only such rows |
| Embedded.Subscription.Deliver | pkg/messaging/embedded/embedded.go:87-95 | rows are handed over in strictly increasing order, each at most once |
| Embedded.PollTracks | pkg/messaging/embedded/embedded.go:72-95 | a poll selects rows above all selected before, and leaves no unacked row at or below the watermark out |
| Embedded.PolledIds | pkg/messaging/embedded/sqlite_store.go:97-115 | a row is selected exactly if it is the worker's, unacked and above the watermark |
| Outboxes.DelayFor | pkg/messaging/webhook/outbox.go:30-43 | the delay before an attempt, growth ending at the maximum |
| Outboxes.DelayInSteps | pkg/messaging/webhook/outbox.go:30-43 | ending the growth at the maximum is the same as cutting every round |
| Outboxes.DelayClimbs | pkg/messaging/webhook/outbox.go:30-43 | for growing delays: never shorter with more attempts, never over the maximum |
| Outboxes.Doubling | pkg/messaging/webhook/outbox.go:30-43 | with doubling, the delay for attempt n is min(initial times 2 to the n - 1, maximum) |
| Outboxes.FailureWaits | pkg/messaging/webhook/outbox.go:161-173 | a failed attempt that is not the last puts the next one off by the delay for as many attempts: with doubling by min(initial times 2 to the attempts - 1, maximum) |
| Outboxes.FailedWaitsInTable | pkg/messaging/webhook/outbox.go:161-173 | so the table has the item pending, one attempt more, until then |
| Outboxes.LastAttemptSettles | pkg/messaging/webhook/outbox.go:161-173 | an attempt delivers exactly if it succeeds and fails for good exactly if it was the last one allowed |
| Outboxes.AttemptsAreApart | pkg/messaging/webhook/outbox.go:146-184 | over whole runs attempts at an item are counted one by one, and between two there is at least the delay for the first |
| Outboxes.RetainForgetsOldest | pkg/messaging/webhook/outbox.go:135-144 | one finished item more pushes out at most the oldest finished one, and never a pending one |
| Outboxes.PutIsConsistent | pkg/messaging/webhook/outbox.go:115-184 | every item ever enqueued is pending, or once and for all delivered or failed, and attempts never exceed the maximum |
| Outboxes.TryingGoesOn | pkg/messaging/webhook/outbox.go:161-183 | after an attempt the rest of the tick is still pending, and at most this delivery is owed an announcement |
| Outboxes.Outbox.EnqueueFailed | pkg/messaging/webhook/outbox.go:115-133 | the new item with its first delay, or finished at once; everything else as before |
| Outboxes.Outbox.RetainTerminal | pkg/messaging/webhook/outbox.go:135-144 | the loop forgets finished items, oldest first, until at most 1000 are left |
| Outboxes.Outbox.BeginTick | pkg/messaging/webhook/outbox.go:146-159 | exactly the pending items whose time has come are picked up, once each |
| Outboxes.Outbox.Attempt | pkg/messaging/webhook/outbox.go:161-178 | only a pending item is tried; it is delivered, failed or given its next time |
| Outboxes.Outbox.Announce | pkg/messaging/webhook/outbox.go:180-182 | a delivery is announced once |
| Outboxes.Outbox.Tick | pkg/messaging/webhook/outbox.go:146-184 | a whole tick tries each item that was ready once, and touches no other |
| Schedulers.Scheduler.ListDue | internal/server/store/schedules.go:120-123 | exactly the enabled rows with a next time of now or before, by that time and then by id |
| Schedulers.Scheduler.MarkFired | internal/server/store/schedules.go:125-139 | the row of that id gets its new times, if there is one |
| Schedulers.Scheduler.Start | internal/server/scheduler.go:69-89 | everything overdue is moved on, nothing is fired and last-fired times stay; nothing that runs again is due |
| Schedulers.Scheduler.Tick | internal/server/scheduler.go:91-123 | exactly the due schedules that run again and can be sent are fired, everything due is moved on, and the due instants an id is fired for strictly increase |
| Schedulers.Scheduler.Put | internal/server/api/schedules.go:125-145 | registered anew to run after now, keeping creation and last-fired time; refused if the expression gives no next time |
| Schedulers.Scheduler.Delete | internal/server/store/schedules.go:109-118 | the row goes |
| Schedulers.Scheduler.FireByHand | internal/server/api/schedules.go:214-246 | when it is next due stays |
| Schedulers.FiresIncrease | internal/server/scheduler.go:91-123 | what a tick fires is due later than what the same id was fired for before |
| Schedulers.TickKeeps | internal/server/scheduler.go:91-123 | after a tick nothing fired is due again for the same instant |
| Schedulers.FiresExactly | internal/server/scheduler.go:98-121 | a schedule is fired exactly if it is due, runs again and can be sent |
| Schedulers.AllTaken | internal/server/scheduler.go:98-121 | every due schedule has had its turn, and no other |
| Schedulers.MovedMeans | internal/server/scheduler.go:69-123 | row by row: disabled schedules, those not due and those that never run again stay, every other gets its next time, and those sent the time of firing |
| Schedulers.FiredMeans | internal/server/scheduler.go:91-123 | only an enabled schedule whose time has come is fired, for that time, and every such one that runs again and can be sent |
| Revocation.AnswersAreRecent | internal/server/api/auth.go:158-184 | however checks, revocations and invalidations interleave: "revoked" is never wrong, and "not revoked" was true less than 60 seconds before the check began |
| Revocation.StepIsSound | internal/server/api/auth.go:158-184 | every single access to clock, cache and store keeps this so |
| Revocation.OvertakenExactly | internal/server/api/workers.go:199-203 | once a revoked id has been invalidated, the cache can come to deny that it is revoked exactly if some check of it was told so by the store before, began within the last 60 seconds and has yet to write its entry |
| Revocation.TellsMeansTold | internal/server/api/auth.go:158-168 | what the cache holds is what a check that begins now is told |
| Revocation.InvalidationCanBeOvertaken | internal/server/api/workers.go:199-203 | an interleaving after which a check begun after the invalidation is still told "not revoked" |
| Revocation.Cache.IsRevoked | internal/server/api/auth.go:158-178 | with handlers one at a time the answer is always that of the store, which is asked again after 60 seconds |
| Revocation.Cache.Revoke | internal/server/api/workers.go:155-169 | revoking and then invalidating leaves the cache agreeing with the store |
| Revocation.Challenges.Issue | internal/server/api/auth.go:81-114 | never more than 10000 pending; exactly the expired ones go, and beyond the limit those that expire first, no more than needed |
| Revocation.Challenges.Consume | internal/server/api/auth.go:122-135 | a challenge can be used once, until it expires |
| Delegation.NarrowScopes | internal/server/delegate.go:97-118 | all the scopes of the parent but admin, or what was asked for if each may be delegated |
| Delegation.PatternMeans | internal/server/api/auth.go:255-270 | a pattern with a star at its end is for every path that begins so, one without for that path only |
| Delegation.ScopesGrant | internal/server/api/auth.go:255-270 | a storage scope grants its verb what its pattern is for, admin everything, and no scope nothing |
| Delegation.CoveredGrantsLess | internal/server/delegate.go:120-142 | a covered scope grants no path its cover does not, for verbs without a colon |
| Delegation.CoversExactly | internal/server/api/auth.go:255-270 | for readable storage scopes of a verb, covering is granting at least the same paths |
| Delegation.NarrowingNeverWidens | internal/server/delegate.go:97-142 | for every verb without a colon, whatever storage path a child may use its parent may |
| Delegation.WidensExactly | internal/server/delegate.go:144-154 | that law holds of a verb for all tokens exactly if the verb has no colon after its first character |
| Delegation.AppearsExactly | pkg/security/token.go:24-32 | a scope checked by exact match can be gained by narrowing exactly if it is a storage scope other than one for everything of its verb |
| Delegation.ChildHasNoAdmin | internal/server/delegate.go:97-118 | a child never holds admin |
| Delegation.ParentReadsBack | internal/server/delegate.go:24-34 | parent and child are read back from a delegated id, and only from one |
| Delegation.ConnectRefusesDelegatedIds | internal/server/server.go:67-79 | connecting refuses every delegated id |
| Delegation.MintDelegatedToken | internal/server/delegate.go:51-95 | minted exactly under these conditions, with these claims; a delegated token cannot delegate |
| Delegation.ExpiresInTime | internal/server/delegate.go:73-90 | a child's token lasts no longer than the maximum, and no longer than its parent's exactly if the clock had not moved on between the two readings or what was asked for ends in time |
| Delegation.SignedExpiresInTime | internal/identity/token.go:58-87 | the same with expiries signed in whole seconds: exactly if less than a second passed between the readings or what was asked for ends less than a second late |
| Delegation.CanOutliveParent | internal/identity/token.go:58-87 | two readings of the clock that let a child outlive its parent, as signed too |
| Versions.ParseVersion | internal/selfupdate/version.go:35-65 | the three numbers and the pre-release, or the first thing wrong |
| Versions.AtoiReads | internal/selfupdate/version.go:55-61 | digits are read with or without a sign, as long as 64 bits hold the number |
| Versions.AtoiRefuses | internal/selfupdate/version.go:55-61 | nothing else is read as a number |
| Versions.PartsDecide | internal/selfupdate/version.go:42-65 | a text is read exactly if its three parts are numbers, with what follows the first hyphen as its pre-release |
| Versions.ParseIgnores | internal/selfupdate/version.go:35-45 | build metadata and one leading v do not matter, but a v alone is no version |
| Versions.ComparePrerelease | internal/selfupdate/version.go:67-108 | the first differing identifier decides, then the number of identifiers |
| Versions.Compare | internal/selfupdate/version.go:9-28 | the first differing number decides, then the pre-release |
| Versions.ParseOfText | internal/selfupdate/version.go:35-65 | reading a written version gives it back, whatever its build metadata and with or without a leading v |
| Versions.PrecedenceIsTotalOrder | internal/selfupdate/version.go:9-28 | precedence of section 11 of Semantic Versioning 2.0.0 is antisymmetric, transitive and zero only for equal versions |
| Versions.CompareIsPrecedence | internal/selfupdate/version.go:9-108 | on readable well-formed versions Compare is exactly that precedence |
| Versions.OrderedRightExactly | internal/selfupdate/version.go:79-98 | an identifier is ordered right against all readable ones exactly if it is read as a number just where it is one |
| Versions.IdOrderIsOneWayExactly | internal/selfupdate/version.go:79-98 | two different identifiers are ordered one way exactly if they are not numbers of the same value |
| Versions.ComparedRightExactly | internal/selfupdate/version.go:9-108 | Compare orders a version right against every readable one exactly if it is readable itself: every identifier read as a number just where it is one |
| Versions.UnreadIsMisplaced | internal/selfupdate/version.go:79-98 | versions with a hyphen before digits, and with a number past the largest int, that Compare orders the wrong way |
| Versions.CompareIsOneWayExactly | internal/selfupdate/version.go:9-108 | of any two texts that can be read, Compare is reversed by exchanging them exactly if the first identifiers that differ are not two ways of writing one number |
| Versions.LeadingZeroBreaksOrder | internal/selfupdate/version.go:79-98 | 1.0.0-01 and 1.0.0-1 each compare as later than the other |
| Children.StrangerExactly | internal/server/server.go:696-702 | the server sends nothing for a caller and lets it edit nobody in its own right exactly if it is not on the chart |
| Children.ChildrenStayApart | docs/security-model.md:123-126 | over a whole run no delegated child is ever taken for a registered worker exactly if no restart of the run brings its id in from a chart file |
| Children.ChildPosesAsWorker | internal/server/server.go:381-414 | the concrete run on which the promise fails: a chart file declares a~b, and the child b of a sends as that worker and moves it |
| Library.NearestDefinerWins | pkg/reporting/load.go:160-206 | each part of a resolved definition is what the nearest definition on its extends chain declares |
| Library.Resolver.Resolve | pkg/reporting/load.go:83-111 | a name resolves exactly if its extends chain ends, to what the chain makes of it; the recursion ends, and an error says whether the chain dangles or runs into a cycle |
| Library.LoadLibrary | pkg/reporting/load.go:63-138 | a library loads exactly if names are distinct and all chains end |
| Library.LoadableMeans | pkg/reporting/load.go:63-111 | that is: every definition has a name of its own, extends nothing or a definition of the library, and none extends its way back to itself |
| Poller.ChangesReplay | internal/server/api/events.go:162-197 | replaying the events of one worker brings its old snapshot up to date |
| Poller.ChangesHappened | internal/server/api/events.go:162-197 | and reports nothing that did not happen: each kind of event once at most, exactly for its cause |
| Poller.ListingIs | internal/server/api/events.go:157-210 | what is remembered is each worker as it is listed, and nobody else |
| Poller.ListedObjectsAre | internal/server/api/events.go:212-237 | and each stored object with its revision as listed, and no other |
| Poller.PollState.PollWorkers | internal/server/api/events.go:157-210 | after a poll the chart as listed is remembered, and the events replayed over the old snapshot give it; nothing is reported before the first poll is over, or when nothing changed |
| Poller.PollState.Poll | internal/server/api/events.go:145-155 | from the second poll on, replaying all events over what was remembered gives what is remembered now |
| Poller.PollState.PollStorage | internal/server/api/events.go:212-237 | the same for stored objects; a failed listing changes nothing, and an unchanged one reports nothing |

## Left out

- HTTP, the command line, dashboards, SQL and its errors, files, YAML, JSON, signatures and S3: plumbing and foreign code.
- Interleavings of two server operations, of two scheduler steps and of two ticks of one outbox: the code keeps no clean invariant there. The revocation check, where it does, is modelled access by access.
- Notices sent about reassignments, role changes and deletions, and the texts of errors; a reported cycle is a list of ids rather than a joined text.
- Cron expressions: any function from an instant to a later one, or to none.
- Zones with daylight saving time: a zone is a fixed offset.
- Floating point: sizes, KPI values and the backoff multiplier are real numbers; number formatting and the simulation generators are not modelled.
- A law for two levels of count, average or percentiles: there is none, a time policy of count returning the raw value of a group of one.
- Statuses, headlines, targets, series, tables and items of a folded instance.
- The widths of integers, except in version numbers, where they decide what is a number.
- Message volumes in the event stream, and the event hub with its subscribers.
- Validation of definitions beyond names and extends chains.
- The rows of reports of other definitions and scopes, which a prune does not touch, and the reuse of row ids after a prune.
- Outboxes.Outbox.Tick: states the tick nothing else comes in between; BeginTick, Attempt and Announce state each step with enqueues in between.
- Outboxes.Outbox.EnqueueFailed: takes ids no envelope has had before and no more attempts than the policy allows; its one caller has tried once, and ids are made to be unique.
- Mailboxes.Mailbox.Send: takes ids no envelope has had before, for the same reason.
- Schedulers.Scheduler.ListDue: breaks ties by the number that stands for an id, SQL by its text; only that the order is fixed is used.
- ServerImpl.Server.PutSchedule: takes the checks of cron expression, body and message scope as one answer, because they are parsing and claims.
- PlanView.AggregatePlan: takes the items of the contributors and the limits for that many of them; the list of scopes and the last production time are not part of it.
- Poller.PollState.Poll: leaves out the events about messages.
- Library.LoadLibrary: leaves out the validation of each definition, of references and of drilldowns.
