# pocpoc in Dafny

A Dafny model of the core of pocpoc, a small Python toolkit with three example
systems and a unit-of-work helper.

- **The mesh swarm** (`src/exmple_3_mesh_swarm`) has two parts:
  - `fork_node` is one node of a leaderless cluster. It keeps a membership view, the master candidates, the votes and the outstanding request ids. It receives units of the form `"<sender> <TypeName> <json>"` and dispatches them to six handlers. Once per heartbeat interval it announces itself, votes for a random candidate and tallies the votes.
  - `Cluster.broadcast` is the in-process bus: a FIFO queue drained through every listener.
- **The cron scheduler** (`src/example_2_scheduler`) covers:
  - the cancellable `Sleeper`;
  - one pass of the main loop: run the due tasks, record run and check times, and choose the next sleep;
  - `insert_task`;
  - the `add_task` view: the form validation and the random task name.
- **The unit of work** (`src/pocpoc/api/unit_of_work/aggregated.py`): `AggregatedUnitOfWork` fans every operation out over its children. On exit it logs child failures and re-raises the original exception. Its factory builds one child per factory.
- **The password-reset token store** (`src/example_1/message_controllers`): a set of `Token(email, token)` records.

Where the source works by mutating state, the model is a `class` whose methods are proved against pure step functions:
- `MeshNode.Node` against `Receive`, `Handle` and `TickStep`;
- `Scheduler.App` against `Ran`, `AfterPass` and `ChosenDelay`;
- `Bus.Cluster` against the FIFO equation with `Stream`.

Properties that relate several steps are lemmas about those functions. Examples: last-arrival-wins for the view, the monotone master flag, at-most-once request correlation, and the unique-plurality outcome of a tally.

Files:

| file | module | contents |
|---|---|---|
| `wrappers.dfy` | `Wrappers` | `Option` and `Result` |
| `envelope.dfy` | `Envelope` | formatting and `split(b" ", maxsplit=2)`; request ids |
| `messages.dfy` | `Messages` | message kinds, `MESSAGE_MAP`, the codec as parameters, wire units |
| `election.dfy` | `Election` | earliest candidate and the plurality tally |
| `node.dfy` | `MeshNode` | the node's step functions and the class `Node` |
| `node_properties.dfy` | `NodeProperties` | lemmas about the node's step functions |
| `cluster.dfy` | `Bus` | `Cluster.broadcast` |
| `scheduler.dfy` | `Scheduler` | `Sleeper`, the main-loop pass, `insert_task` |
| `presenter.dfy` | `Presenter` | `add_task` |
| `unit_of_work.dfy` | `UnitOfWork` | `AggregatedUnitOfWork` and its factory |
| `reset_tokens.dfy` | `ResetTokens` | `InMemoryEmailPasswordResetRepository` |

What the code does in the mesh, as modelled:
- The node's own `node_state` is never refreshed. Every Heartbeat it sends carries its start-up timestamp.
- The tally is reached only inside the branch where the earliest candidate's nomination is older than the interval (node.py lines 333-347). It is not a separate step of every tick.
- The tallying node itself flags the winner in its view (node.py line 368).
- A winner missing from the tallier's view raises an uncaught `KeyError` at node.py line 368. That ends the heartbeat loop without clearing the election maps. `Tick` returns `crashed` and sets `loopRunning` to false.
- The tally's readiness test compares only the sizes of the vote, candidate and view maps. It does not check that every known node has voted.
- `node_state.is_master = True` (line 277) changes the object that `nodes[node_id]` shares while no Heartbeat about this id from another sender has replaced the entry. `ownAliased` records that sharing.

## Model

| member | source | states |
|---|---|---|
| Envelope.SplitEnvelope | src/exmple_3_mesh_swarm/node.py:183-185 | a successful split yields a space-free sender and tag that rejoin with single spaces to the unit |
| Envelope.SplitFormatRoundTrip | src/exmple_3_mesh_swarm/node.py:166-185 | splitting a formatted unit gives back sender, tag and payload iff sender and tag hold no space; the payload may hold spaces |
| Envelope.SplitSucceedsIffWellFormed | src/exmple_3_mesh_swarm/node.py:183-185 | the three-way unpacking succeeds iff the unit is some space-free sender and tag followed by a payload |
| Envelope.TwoFieldsRejected | src/exmple_3_mesh_swarm/node.py:183-185 | a unit with a single space is rejected (the unpacking raises) |
| Envelope.GenRequestId | src/exmple_3_mesh_swarm/node.py:116-118 | a request id is eight letters or digits, hence holds no space |
| Messages.TypeName | src/exmple_3_mesh_swarm/node.py:106-113 | every message's class name is a key of `MESSAGE_MAP` |
| Messages.Frames | src/exmple_3_mesh_swarm/node.py:166-185 | one unit per broadcast message; under a space-free sender each unit splits back into that sender, the message's class name and its encoded payload |
| Messages.FramesSplit | src/exmple_3_mesh_swarm/node.py:166-185 | every unit of a sequence of broadcasts from a space-free sender splits back into the sender, class name and encoded payload of its message |
| Messages.WireSplits | src/exmple_3_mesh_swarm/node.py:166-185 | a broadcast unit splits back into its sender, class name and encoded payload when the sender id holds no space |
| Election.EarliestDecidesDue | src/exmple_3_mesh_swarm/node.py:320-336 | testing only the earliest candidate's age is the same as asking whether any candidate is older than the interval |
| Election.EarliestCandidate | src/exmple_3_mesh_swarm/node.py:320-331 | the search finds None iff there are no candidates, and otherwise a candidate with the least timestamp |
| Election.Leader | src/exmple_3_mesh_swarm/node.py:356-366 | the tally's outcome is a unique plurality winner or, when there is none, no one |
| Election.LeaderIsUnique | src/exmple_3_mesh_swarm/node.py:364-366 | at most one id has strictly more votes than every other voted id |
| Election.LeaderOf | src/exmple_3_mesh_swarm/node.py:364-366 | a unique plurality winner is the tally's outcome |
| Election.TieHasNoLeader | src/exmple_3_mesh_swarm/node.py:371-376 | two distinct ids sharing the largest count mean nobody is elected |
| Election.CountPositive | src/exmple_3_mesh_swarm/node.py:348-354 | an id has received votes iff its count is positive |
| Election.CountVotes | src/exmple_3_mesh_swarm/node.py:348-354 | `votes_count` has an entry exactly for each voted id, holding its number of votes |
| Election.GroupByCount | src/exmple_3_mesh_swarm/node.py:356-362 | each occurring count maps to the non-empty set of exactly the ids with that count |
| Election.MaxCount | src/exmple_3_mesh_swarm/node.py:364 | the result is a member of the counts and no count exceeds it |
| Election.Tally | src/exmple_3_mesh_swarm/node.py:348-366 | counting, grouping and taking the largest group elects exactly the unique plurality winner, and nobody on a tie |
| MeshNode.Node.Init | src/exmple_3_mesh_swarm/node.py:302-311 | start-up state: the own record (not master) is the only entry of the view; no candidates, votes or outstanding requests; the loop runs |
| MeshNode.Node.Announce | src/exmple_3_mesh_swarm/node.py:313-315 | the fresh request id becomes outstanding; a ClusterStateRequest and then a Heartbeat are emitted |
| MeshNode.Node.Broadcast | src/exmple_3_mesh_swarm/node.py:166-173 | the emitted unit is the formatted message under the node's id and its class name |
| MeshNode.Node.SendRequest | src/exmple_3_mesh_swarm/node.py:224-227 | the id becomes outstanding before the request is emitted, and the correlation invariant is kept |
| MeshNode.Node.OnHeartbeat | src/exmple_3_mesh_swarm/node.py:233-245 | the node's data and outbox become what `Handle` gives for a Heartbeat: upsert the peer and self-nominate when no entry is master |
| MeshNode.Node.OnClusterStateRequest | src/exmple_3_mesh_swarm/node.py:247-250 | replies with a ClusterStateResponse carrying the request id and the current view, changing nothing else |
| MeshNode.Node.OnClusterStateResponse | src/exmple_3_mesh_swarm/node.py:212-222 | the handler runs only for an outstanding id, which is removed first; the correlation invariant is kept |
| MeshNode.Node.OnMasterCandidate | src/exmple_3_mesh_swarm/node.py:257-261 | the candidate is recorded under its own id, last write wins |
| MeshNode.Node.OnMasterVote | src/exmple_3_mesh_swarm/node.py:263-268 | the vote is recorded under the envelope's sender |
| MeshNode.Node.OnMasterElected | src/exmple_3_mesh_swarm/node.py:270-278 | both election maps are cleared; only when this node is named does it flag itself master and emit a Heartbeat |
| MeshNode.Node.OnMessage | src/exmple_3_mesh_swarm/node.py:179-208 | the node ends in the state `Receive` gives: every failure before a handler leaves it unchanged; the correlation invariant is kept |
| MeshNode.Node.Dispatch | src/exmple_3_mesh_swarm/node.py:201-203 | the handler for the message's class runs and the node ends in the state `Handle` gives |
| MeshNode.Node.CastOwnVote | src/exmple_3_mesh_swarm/node.py:337-345 | a node that has not voted picks a known candidate, records it under its own id and emits the vote; otherwise nothing happens |
| MeshNode.Node.TallyVotes | src/exmple_3_mesh_swarm/node.py:347-379 | the node ends in the state `TallyStep` gives, including the KeyError crash on an unknown winner |
| MeshNode.Node.ElectWinner | src/exmple_3_mesh_swarm/node.py:368-379 | the winner's entry is flagged master, MasterElected and a Heartbeat are emitted, and both election maps are cleared |
| MeshNode.Node.VoteAndTally | src/exmple_3_mesh_swarm/node.py:333-379 | the vote and then the tally when sizes agree; the node ends in the state `DuePhase` gives |
| MeshNode.Node.VoteIsDue | src/exmple_3_mesh_swarm/node.py:320-336 | the earliest-candidate test holds iff some candidate is older than the interval, and never without candidates |
| MeshNode.Node.Tick | src/exmple_3_mesh_swarm/node.py:316-379 | one loop pass ends in the state `TickStep` gives; a vote is cast iff it is due and this node has not voted; the loop stops iff the pass crashed |
| NodeProperties.DeliveredFromPeer | src/exmple_3_mesh_swarm/node.py:183-203 | a peer's broadcast reaches the handler as the message sent, attributed to that peer |
| NodeProperties.OwnUnitIgnored | src/exmple_3_mesh_swarm/node.py:187-190 | the node's own units echoed back change nothing and send nothing |
| NodeProperties.TwoFieldUnitIgnored | src/exmple_3_mesh_swarm/node.py:183-208 | a two-field unit is caught and logged and changes nothing |
| NodeProperties.UnknownTagIgnored | src/exmple_3_mesh_swarm/node.py:194-205 | a tag outside `MESSAGE_MAP` is logged and changes nothing |
| NodeProperties.UndecodableIgnored | src/exmple_3_mesh_swarm/node.py:197-208 | a payload the codec rejects is caught and logged and changes nothing |
| NodeProperties.VoteAttributedToSender | src/exmple_3_mesh_swarm/node.py:263-268 | a peer's MasterVote sets exactly `votes[sender]` to the payload's id |
| NodeProperties.VoteCannotBeForged | src/exmple_3_mesh_swarm/node.py:201-268 | a unit can set or change only the vote recorded under its own envelope sender |
| NodeProperties.HandleVotes | src/exmple_3_mesh_swarm/node.py:263-274 | only MasterVote (one entry) and MasterElected (clears) touch the vote map |
| NodeProperties.HandlePeerEntry | src/exmple_3_mesh_swarm/node.py:233-236 | only a Heartbeat about a peer changes that peer's view entry, replacing it by the received state |
| NodeProperties.HandleRequests | src/exmple_3_mesh_swarm/node.py:217-220 | only a response for an outstanding id touches the request bookkeeping: the id is removed and the handler runs once |
| NodeProperties.PeerEntryIsLastHeartbeat | src/exmple_3_mesh_swarm/node.py:236 | after any sequence of units, a peer's entry is the state of the last Heartbeat about it, or unchanged if none |
| NodeProperties.HeartbeatNominates | src/exmple_3_mesh_swarm/node.py:236-245 | after the upsert, the node nominates itself with its start-up timestamp iff no view entry is master |
| NodeProperties.OwnMasterOnlyByElection | src/exmple_3_mesh_swarm/node.py:270-278 | the own flag is true after a unit iff it was, or the unit is a MasterElected naming this node |
| NodeProperties.OwnMasterNeverCleared | src/exmple_3_mesh_swarm/node.py:270-278 | over any sequence of units the own master flag never returns to false |
| NodeProperties.TickOwnMaster | src/exmple_3_mesh_swarm/node.py:364-370 | a tick never clears the own flag, and sets it only when this node is the due tally's unique winner |
| NodeProperties.CorrelationPreserved | src/exmple_3_mesh_swarm/node.py:217-227 | every unit keeps handled plus outstanding ids within the requests sent |
| NodeProperties.NeverSentNeverHandled | src/exmple_3_mesh_swarm/node.py:217-227 | an id never sent is never handled and never outstanding |
| NodeProperties.HandledAtMostOnce | src/exmple_3_mesh_swarm/node.py:217-220 | an id sent once is handled at most once, and once handled it is not outstanding |
| NodeProperties.SecondResponseIgnored | src/exmple_3_mesh_swarm/node.py:217-220 | a second response for an already handled id changes nothing |
| NodeProperties.TallySent | src/exmple_3_mesh_swarm/node.py:364-370 | the tally sends no vote and announces exactly the unique winner the view knows |
| NodeProperties.DuePhaseSent | src/exmple_3_mesh_swarm/node.py:337-370 | the due phase sends this node's vote if it casts one, then announces the winner of a ready tally the view knows |
| NodeProperties.TickBroadcasts | src/exmple_3_mesh_swarm/node.py:316-379 | a tick sends the Heartbeat first, one MasterVote iff a vote is cast, and announces exactly the unique winner of a due, ready tally the view knows |
| NodeProperties.TickElectsUniqueLeader | src/exmple_3_mesh_swarm/node.py:364-379 | a known unique winner is flagged and announced, no other entry changes, and both maps are cleared |
| NodeProperties.TickTieElectsNobody | src/exmple_3_mesh_swarm/node.py:371-379 | a tie announces nobody, leaves the view, and clears both maps |
| NodeProperties.TickCrashesOnUnknownWinner | src/exmple_3_mesh_swarm/node.py:368 | an unknown winner crashes the loop after the vote and clears nothing |
| NodeProperties.TickWithoutTally | src/exmple_3_mesh_swarm/node.py:333-347 | a tick that is not due or not ready changes only this node's own vote |
| Bus.Cluster.constructor | src/exmple_3_mesh_swarm/cluster.py:8-11 | no listeners and an empty queue |
| Bus.Cluster.Enqueue | src/exmple_3_mesh_swarm/cluster.py:21-22 | the replies are appended to the queue in order |
| Bus.Cluster.HandOut | src/exmple_3_mesh_swarm/cluster.py:19-22 | every listener gets the unit in list order and all replies are queued in that order |
| Bus.Cluster.Broadcast | src/exmple_3_mesh_swarm/cluster.py:13-22 | FIFO: units taken off followed by those left equal the units queued before, the new one and all replies in order; the drain stops only on an empty queue or spent fuel; each unit is taken off before its replies are queued |
| Bus.DrainStep | src/exmple_3_mesh_swarm/cluster.py:17-22 | one turn of the drain keeps the FIFO equation |
| Bus.CauseBeforeEffect | src/exmple_3_mesh_swarm/cluster.py:17-22 | one turn of the drain keeps the order of each unit before its replies |
| Bus.QuietBusDrains | src/exmple_3_mesh_swarm/cluster.py:13-22 | with silent listeners the drain delivers the queued units and the new one exactly once each, in order |
| Scheduler.Sleeper.constructor | src/example_2_scheduler/app.py:11-12 | a new sleeper is not cancelled |
| Scheduler.Sleeper.Cancel | src/example_2_scheduler/app.py:14-15 | the sleeper is cancelled |
| Scheduler.Sleeper.Reset | src/example_2_scheduler/app.py:26-27 | the sleeper is not cancelled |
| Scheduler.Sleeper.Sleep | src/example_2_scheduler/app.py:17-24 | sleeps `t` one-second steps, none when cancelled or when `t` is not positive |
| Scheduler.App.constructor | src/example_2_scheduler/app.py:74-91 | start-up data: no tasks, no run or check times, no next check, a fresh uncancelled sleeper |
| Scheduler.App.InsertTask | src/example_2_scheduler/app.py:57-61 | a task is added or replaced (keeping its place), the sleep is cancelled, the next check is forgotten, run bookkeeping is kept |
| Scheduler.App.Pass | src/example_2_scheduler/app.py:101-142 | runs the due tasks, leaves the bookkeeping `AfterPass` gives, sets the next check from the chosen delay, falls back to 5 s on no tasks or a zero delay, and sleeps that long uncancelled |
| Scheduler.App.Plan | src/example_2_scheduler/app.py:104-140 | the tasks run, the bookkeeping, the next check and the sleep time of a pass |
| Scheduler.App.Scan | src/example_2_scheduler/app.py:106-134 | the `for` loop over the tasks in insertion order does what `Swept` says turn by turn |
| Scheduler.MarkRunsEntry | src/example_2_scheduler/app.py:120 | recording runs sets exactly the tasks that ran to `now` and keeps every other entry |
| Scheduler.RecordChecksEntry | src/example_2_scheduler/app.py:122-123 | recording checks sets exactly the tasks without an immediate first run to `now` |
| Scheduler.FirstMin | src/example_2_scheduler/app.py:132-134 | the strict `<` settles on the first position of the least delay |
| Scheduler.ChosenDelayIsFirstLeast | src/example_2_scheduler/app.py:130-134 | the chosen delay is the least task delay, taken at its first position |
| Scheduler.RanIff | src/example_2_scheduler/app.py:107-120 | a task runs in a pass iff it is listed and due |
| Scheduler.ImmediateTaskRunsEveryPass | src/example_2_scheduler/app.py:107-123 | an immediate-first-run task with no check time runs in a pass and still has no check time after it |
| Scheduler.Passes | src/example_2_scheduler/app.py:107-123 | the schedule after one pass per given time; passes never change the task table |
| Scheduler.ImmediateTaskRunsInEveryLaterPass | src/example_2_scheduler/app.py:107-123 | after any number of passes an immediate-first-run task still has no check time and runs in the next pass |
| Scheduler.PassBookkeeping | src/example_2_scheduler/app.py:106-123 | a pass sets the last run of exactly the tasks that ran and the last check of exactly those without immediate first run; other entries are kept |
| Scheduler.SweepMeaning | src/example_2_scheduler/app.py:106-138 | the loop over distinct tasks yields the tasks due at the start, `AfterPass`, and the first least delay with its next check |
| Scheduler.SweptChecks | src/example_2_scheduler/app.py:122-123 | the loop's check times are `RecordChecks` |
| Scheduler.SweptRuns | src/example_2_scheduler/app.py:107-120 | the loop runs exactly the tasks due at the start and records their runs |
| Scheduler.SweptBest | src/example_2_scheduler/app.py:127-138 | the loop's best delay is the chosen delay and the next check is `now` plus it; nothing is chosen without tasks |
| Scheduler.SweptSees | src/example_2_scheduler/app.py:127-130 | the last turn computes its task's delay as at the start of the pass |
| Scheduler.TurnAgrees | src/example_2_scheduler/app.py:106-130 | earlier turns do not change whether a later task runs nor its next run time |
| Presenter.SplitThenJoin | src/example_2_scheduler/presenter.py:338 | splitting on single spaces loses nothing: the pieces hold no space and rejoin to the text |
| Presenter.JoinThenSplit | src/example_2_scheduler/presenter.py:338 | space-free pieces joined by spaces split back into the same pieces |
| Presenter.CronShapeMeaning | src/example_2_scheduler/presenter.py:338-341 | the shape check accepts exactly five or six non-empty space-free fields joined by single spaces |
| Presenter.DefaultCronAccepted | src/example_2_scheduler/presenter.py:338-341 | the form's default `* * * * *` passes the shape check |
| Presenter.DoubleSpaceRejected | src/example_2_scheduler/presenter.py:338-341 | a doubled space makes an empty field and is rejected |
| Presenter.PostFollowsChecks | src/example_2_scheduler/presenter.py:318-355 | a POST answers as the first failing check with 400 and inserts nothing; when all pass it inserts the submitted task once and answers 201 |
| Presenter.ExistingNameNeverInserted | src/example_2_scheduler/presenter.py:334-335 | a name already taken is never inserted |
| Presenter.GenTaskName | src/example_2_scheduler/presenter.py:237-242 | the suggested name is `task_` and ten lowercase letters or digits |
| Presenter.AddTask | src/example_2_scheduler/presenter.py:235-357 | a GET suggests a name and changes nothing; otherwise the reply is `Respond`'s and `insert_task` runs exactly when it says, with its arguments: a name not yet taken, added to the table and appended last to the run order |
| UnitOfWork.FirstRaise | src/pocpoc/api/unit_of_work/aggregated.py:14-24 | the position where a loop without `try` stops: every earlier child succeeded, and the child there raised |
| UnitOfWork.FirstRaiseIs | src/pocpoc/api/unit_of_work/aggregated.py:14-24 | that position is determined by those two facts |
| UnitOfWork.FanOutMeaning | src/pocpoc/api/unit_of_work/aggregated.py:14-29 | the loop completes iff no child raises, then every child was called once in order; otherwise the calls stop at the first raising child, whose exception propagates |
| UnitOfWork.LoggedMeaning | src/pocpoc/api/unit_of_work/aggregated.py:34-46 | an exception is logged iff some child's exit raised it and it is not the one in flight |
| UnitOfWork.AggregatedUnitOfWork.constructor | src/pocpoc/api/unit_of_work/aggregated.py:11-12 | keeps the children |
| UnitOfWork.AggregatedUnitOfWork.FanOut | src/pocpoc/api/unit_of_work/aggregated.py:14-29 | the calls made and the exception raised are those of `Attempted` and `Raised` |
| UnitOfWork.AggregatedUnitOfWork.Commit | src/pocpoc/api/unit_of_work/aggregated.py:14-16 | commit is the fan-out of `commit` |
| UnitOfWork.AggregatedUnitOfWork.Rollback | src/pocpoc/api/unit_of_work/aggregated.py:18-20 | rollback is the fan-out of `rollback` |
| UnitOfWork.AggregatedUnitOfWork.Close | src/pocpoc/api/unit_of_work/aggregated.py:22-24 | close is the fan-out of `close` |
| UnitOfWork.AggregatedUnitOfWork.Enter | src/pocpoc/api/unit_of_work/aggregated.py:26-29 | enters the children in order and returns the aggregate itself unless a child raises |
| UnitOfWork.AggregatedUnitOfWork.Exit | src/pocpoc/api/unit_of_work/aggregated.py:31-48 | exits every child in order whatever they raise, logs the foreign exceptions, and re-raises exactly the exception in flight |
| UnitOfWork.FirstFailed | src/pocpoc/api/unit_of_work/aggregated.py:55-56 | the position where building stops: every earlier factory succeeded, and the factory there raised |
| UnitOfWork.FirstFailedIs | src/pocpoc/api/unit_of_work/aggregated.py:55-56 | that position is determined by those two facts |
| UnitOfWork.AggregatedUnitOfWorkFactory.constructor | src/pocpoc/api/unit_of_work/aggregated.py:52-53 | keeps the factories in order |
| UnitOfWork.AggregatedUnitOfWorkFactory.Call | src/pocpoc/api/unit_of_work/aggregated.py:55-56 | an aggregate of one child per factory in order when no factory raises; otherwise the first factory's exception |
| ResetTokens.PendingIsFindable | src/example_1/message_controllers/password_reset_repository_in_memory.py:20-28 | after marking a pair pending its token is findable |
| ResetTokens.PendingIdempotent | src/example_1/message_controllers/password_reset_repository_in_memory.py:20-21 | a record is a value: marking the same pair twice stores it once, and the store grows only for a new pair |
| ResetTokens.PendingKeepsFindable | src/example_1/message_controllers/password_reset_repository_in_memory.py:20-28 | marking a pair pending never hides a token already findable |
| ResetTokens.InMemoryEmailPasswordResetRepository.constructor | src/example_1/message_controllers/password_reset_repository_in_memory.py:14-15 | the store starts empty |
| ResetTokens.InMemoryEmailPasswordResetRepository.MarkSent | src/example_1/message_controllers/password_reset_repository_in_memory.py:17-18 | the store is unchanged |
| ResetTokens.InMemoryEmailPasswordResetRepository.MarkPending | src/example_1/message_controllers/password_reset_repository_in_memory.py:20-21 | the record is added to the set and its token becomes findable |
| ResetTokens.InMemoryEmailPasswordResetRepository.GetToken | src/example_1/message_controllers/password_reset_repository_in_memory.py:23-28 | returns a stored record with the token, and `TokenNotFound` iff there is none; the store is unchanged |
| ResetTokens.InMemoryEmailPasswordResetRepository.MarkDone | src/example_1/message_controllers/password_reset_repository_in_memory.py:30-31 | the store is unchanged |

## Left out

- Threads, locks and blocking are not modelled. This covers `print_lock` and `println`, `Event.wait` between ticks, the `ContextVar` holding the message metadata (replaced by an explicit sender parameter), and the web server thread. Each node method runs as one atomic step.
- The JSON codec (`pocpoc.api.codec.json_codec`) is not part of this model. It is a pair of function parameters, and the round trip is a hypothesis of the lemmas that need it (`RoundTrips`). The parameter `decode` is not tied to the tag: the source decodes into the class `MESSAGE_MAP` names, so a decoded message always has the tag's class, whereas the model allows any message. No lemma depends on that link.
- Bytes and UTF-8 are not modelled: units are strings of characters.
- Float timestamps are not modelled. Times are whole seconds, as the scheduler's zeroed microseconds make them; sub-second delays and `total_seconds()` fractions are not represented.
- Randomness (`random.choice`, `random.choices`) is an arbitrary choice. The models of `gen_request_id`, the vote pick and the suggested task name promise only what holds of every possible draw.
- croniter is not part of this model. `get_next_run_at` is a function parameter, and `croniter.croniter(cron)` succeeding is the parameter `cronParses`.
- Cluster listeners are pure functions from a unit to the units they return. A listener with side effects on the bus is not modelled.
- Bus.Cluster.Broadcast: the drain takes at most `fuel` units off the queue, because listeners may reply forever. When fuel runs out, the units left in the queue are stated, but the rest of the drain is not.
- Scheduler.Sleeper.Sleep: a cancel from another thread in the middle of a sleep is not modelled. Only a cancel before the sleep starts stops it.
- Scheduler.App.Scan: the loop works on local copies and writes the fields after the loop. A reader in the middle of a pass (the web thread's info provider) would see them all at once, which the model does not capture.
- MeshNode.Node.Init: start-up is split into `Init` (lines 302-311) and `Announce` (lines 313-315). The request id is a parameter of `Announce`; `Envelope.GenRequestId` produces one.
- Presenter.AddTask: Flask answers OPTIONS itself and rejects with 405 any method outside GET, HEAD and POST before the view runs. HEAD reaches the view and gets its own 405 (line 357). The model gives that 405 to every method other than GET and POST.
- The HTML of `index` and of the `add_task` form is not modelled: colours, indicator arithmetic and URL rebuilding. The GET reply carries only the suggested name.
- `run.py` (Redis pub/sub, the stdin command loop, node threads) and `debugging.py` are not part of this model.
- `HEARTBEAT_TIMEOUT` is declared but unused in the source and does not appear in the model.
- UnitOfWork.AggregatedUnitOfWork.Exit: the `exc_type` and `exc_tb` arguments are folded into one optional exception. `exc_type` is truthy exactly when an exception is in flight.
