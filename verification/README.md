# FlexRIC request protocol, identifier codecs and slot replay: a Dafny model

The project models three parts of the repository and proves what they are relied upon for.

**The E2/E42 request protocol.** The near-RT RIC, the E2 agents and the xApp each keep their outstanding
requests in a two-way map from timer descriptors to pending events and register the timers in an epoll set.
Every operation that changes such state is a method of a class (`RicProcedures.NearRic`,
`AgentProcedures.E2Agent`, `XappProcedures.*`, `NodeRegistry.Nodes`, `XappNodes.Xapp`, `PubSub.RicPubSub`,
`WakeupPipe.AperiodicEvents`), proved against a function on the state or a full description of the new state.
The same steps, cut at the locks, system calls and messages of the code, form state machines:

| file | machine |
|---|---|
| `E2System.dfy`, `E2SystemInvariants.dfy`, `E2SystemSafety.dfy`, `E2SystemProgress.dfy`, `E2SystemRounds.dfy`, `E2SystemTraces.dfy`, `E2SystemDeletes.dfy` | any number of callers of the RIC's forwarding procedures, one FIFO channel each way per agent, the agents, and the RIC's thread pool handling received messages in any order |
| `AgentRuns.dfy` | the event loop of one agent with setup responses, shutdowns, setup timeouts, subscriptions and deletes |
| `WakeupPipe.dfy`, `WakeupNumbers.dfy` | producers of aperiodic indications, the queue, the wake-up pipe and the edge-triggered loop |
| `XappRuns.dfy`, `XappSafety.dfy`, `XappCalls.dfy` | one synchronous caller of the xApp, its event loop, the monitor between them and the iApp |
| `NodeRuns.dfy` | setup tasks and shutdown notifications at the RIC, each setup from a new node |
| `RepeatedSetups.dfy` | the same with any number of repeated setups |

`Runs.dfy` defines runs and reachability once. An action that is not possible leaves the state as it is, so
every sequence of actions is a run, and theorems about reachable states or about all runs hold for all
interleavings. Where the code can go wrong, the state or input in which it does is characterised from both
sides: a remove call whose answer overtakes its pending event, a signal that comes before the wait, a shutdown
during a setup, a repeated setup, the delete of one of several aperiodic subscriptions, a five-digit request
identifier on the pipe, a second listener for one RAN function, bit 31 of an NR cell identity.

**Identifier codecs.** The gNB identifier (section 9.3.1.6 of 3GPP TS 38.413), the NR cell identity
(section 9.3.1.7) and the PLMN identity (section 9.3.3.5), at the widths and with the integer promotions of the
C code. `buf[3] << 24` sets the sign bit of a 32-bit `int`, taken as two's complement.

**Slot replay and fairness.** The greedy grant loop of the training scripts, and Jain's index, over real
numbers.

Assumptions that the environment meets, and which appear as conditions of the actions:

- SCTP is a reliable FIFO per direction and node; a new timer has a descriptor that is not registered.
- RIC timers do not expire: the RIC's loop reads a descriptor field that is never set on that path
  (`flexric/src/ric/near_ric.c:363-380` and `:453`), so answers arrive before timeouts.
- When the RIC takes a request identifier, its (kind, identifier) pair is not in use, and no subscription with it
  is held by the node (`E2System.PairUnused`). Everything else may have the same number: other kinds, functions,
  nodes. The code does not check this. `E2SystemSafety.PairIsUnusedIff` says exactly when it holds,
  `E2SystemSafety.InsertingKeepsStepIffUnused` and `AgentProcedures.SubscribeKeepsUniqueIffNew` what is lost
  when it does not, and `E2SystemRounds` has a run that gets there. Requests are handed to the RIC with a number
  below 65536.
- The iApp answers every E42 request once with the same request identifier, and failure messages, whose
  handlers are assertions that fail, do not occur.
- In `NodeRuns` a setup request comes from an address and names a node that are not connected;
  `RepeatedSetups` does without.

A failed assertion stops the party it fails in, so that its run ends there; the machines of whole systems leave
such steps out, and lemmas say when they happen. All aperiodic subscriptions of an agent share key 0 of the left
tree, whose extraction asserts that it meets the right entry: `AgentRuns` lets it meet any, and `E2System`, with
any number of aperiodic subscriptions, contains the deletes that pass.

## Steps of the machines

Where the atomic steps come from; their properties are the theorems of the next section.

| step | source |
|---|---|
| E2System: Allocate | flexric/src/ric/near_ric.c:790-792, :856-857 (an atomic counter) |
| E2System: CreateTimer, Insert, Send | flexric/src/ric/near_ric.c:799-810, :863-875 |
| E2System: StartDelete, then Send | flexric/src/ric/near_ric.c:821-845 (search, timer and insertion under one lock) |
| E2System: AgentReceive | flexric/src/agent/e2_agent.c:388-405 with flexric/src/agent/msg_handler_agent.c:179-287, :312-363 |
| E2System: RicReceive, Handle, Close | flexric/src/ric/near_ric.c:392-447; extraction and closing of flexric/src/ric/msg_handler_ric.c:68-86 |
| AgentRuns | flexric/src/agent/e2_agent.c:380-512, flexric/src/agent/msg_handler_agent.c:376-417, flexric/src/agent/not_handler_agent.c:10-27 |
| WakeupPipe: Push, Write | flexric/src/agent/e2_agent.c:658-669 |
| WakeupPipe: Wake, Pop, Read | flexric/src/agent/e2_agent.c:271-286, :329-338, :408-437 |
| XappRuns: StartReport, StartControl, StartRemove | flexric/src/xApp/e42_xapp.c:403-415, :456-467 |
| XappRuns: MakeTimer, Insert, Send | flexric/src/xApp/msg_handler_xapp.c:76-85, :517-595 |
| XappRuns: ResetFlags, Wake, Timeout, Return | flexric/src/xApp/sync_ui.c:64-88, flexric/src/xApp/e42_xapp.c:427-440, :469-479, :520-531 |
| XappRuns: Match, Extract, CloseTimer, Signal | flexric/src/xApp/msg_handler_xapp.c:143-166, :181-204, :286-316 |
| XappRuns: SetupResponse, SetupTimeout | flexric/src/xApp/msg_handler_xapp.c:345-391, flexric/src/xApp/e42_xapp.c:276-288 |
| NodeRuns: SetupArrives, RegisterAddress | flexric/src/ric/near_ric.c:392-411, :436-447 |
| NodeRuns: AddToIApp, PushNode | flexric/src/ric/msg_handler_ric.c:328-341 |
| NodeRuns: ShutdownArrives, EraseNode, RemoveFromIApp | flexric/src/ric/not_handler_ric.c:23-57 |
| RepeatedSetups | the same lines, with the assertion of flexric/src/lib/msg_hand/reg_e2_nodes.c:168-175 |

## Model

| member | source | states |
|---|---|---|
| PendingEvents.RicComparatorIsTotalOrder | flexric/src/lib/pending_event_ric.c:28-50 | The RIC's comparator is a total order on (kind, identifier) pairs that calls only equal pairs equal, so a tree lookup is a lookup by equality; the same for the comparator on identifiers that indication events use |
| PendingEvents.RicComparatorIsLexicographic | flexric/src/lib/pending_event_ric.c:28-50 | The order of that comparator: by the enumerator of the kind, then RAN function, instance and request |
| PendingEvents.KindComparatorIgnoresId | flexric/src/lib/pending_events.c:28-39 | The kind-only comparator calls two events equal exactly when their kinds agree, and so identifies different events |
| E2ap.AnswerKeepsKey | flexric/src/agent/msg_handler_agent.c:163-177 | What an agent answers looks up, at the RIC, the pending event of the very request |
| E2ap.Procedures | flexric/src/ric/msg_handler_ric.c:104-165 | Each of the three requests has its own answer and its own kind of pending event, which the handler of the answer looks for |
| RicProcedures.ReqIdAtClosedForm | flexric/src/ric/near_ric.c:790-797 | The n-th identifier is 1021 + n modulo 65536: the 32-bit wrap-around of the counter does not show in 16 bits |
| RicProcedures.ReqIdsCollide | flexric/src/ric/near_ric.c:856-861 | Two allocations, of either request kind, hand out the same identifier exactly when a multiple of 65536 lies between them |
| RicProcedures.FourDigitAllocations | flexric/src/ric/near_ric.c:234 | Counted from 1021, identifiers have four digits exactly for the first 8979 allocations of each turn of 65536 and for its last 21 |
| RicProcedures.NearRic.FwdRicSubscriptionRequest | flexric/src/ric/near_ric.c:785-813 | Takes an identifier, registers a timer, records the pending event under it and sends; the timers still are the left keys, and the map still is two-way exactly when that pair was not pending |
| RicProcedures.NearRic.FwdRicControlRequest | flexric/src/ric/near_ric.c:850-878 | The same for control requests, from the same counter |
| RicProcedures.NearRic.FwdRicSubscriptionRequestDelete | flexric/src/ric/near_ric.c:815-848 | A delete that is already pending changes and sends nothing; any other is recorded and sent; both keep timers and map in step |
| RicProcedures.NearRic.StopPendingEvent | flexric/src/ric/msg_handler_ric.c:68-86 | Removes the one entry of a pending event and its timer and nothing else |
| RicProcedures.NearRic.HandleReply | flexric/src/ric/msg_handler_ric.c:104-165 | An answer removes exactly its own pending event; an indication removes none |
| RicProcedures.NearRic.NextAsioEvent | flexric/src/ric/near_ric.c:345-383 | Every ready descriptor is classified as what it was registered for; an empty round only checks the stop token |
| E2SystemSafety.PendingIffOneInTransit | flexric/src/ric/near_ric.c:785-878 | In every interleaving a (kind, identifier) pair is pending exactly when one request or answer with it is about to be sent, in a channel or received and unhandled, and there never are two |
| E2SystemSafety.AnswerFindsPendingEvent | flexric/src/ric/msg_handler_ric.c:68-86 | Every received answer finds its pending event, under exactly one timer, in whatever order the tasks run |
| E2SystemSafety.AnswersAreDistinct | flexric/src/ric/msg_handler_ric.c:104-165 | Two unhandled answers never compete for one pending event |
| E2SystemSafety.NotHandledTwice | flexric/src/ric/msg_handler_ric.c:104-165 | Once an answer is handled no run handles an answer with its key again before the key is inserted again |
| E2SystemSafety.HandlingRemovesKey | flexric/src/ric/msg_handler_ric.c:68-86 | Handling an answer leaves nothing pending and nothing in transit with its key |
| E2SystemSafety.ReadyFdIsClassified | flexric/src/ric/near_ric.c:321-343 | A registered descriptor is the socket or a left key of the map, unless a procedure is between registering and inserting it or between extracting and closing it |
| E2SystemSafety.TimersArePendingEvents | flexric/src/ric/near_ric.c:799-805 | With no procedure halfway the registered timers are exactly the left keys of a two-way map |
| E2SystemSafety.AllocatedIdIsFresh | flexric/src/ric/near_ric.c:790-797 | A new number equals none that is requested, pending or subscribed at any node, for subscriptions and controls together, exactly when none of these was handed out a multiple of 65536 allocations ago |
| E2SystemSafety.YoungIdsDoNotReturn | flexric/src/ric/near_ric.c:856-861 | Which is so while all identifiers in use are less than 65536 allocations old |
| E2SystemSafety.PairIsUnusedIff | flexric/src/ric/near_ric.c:790-805 | A new (kind, identifier) pair is unused exactly when no pair in use that differs in the number only was handed out a multiple of 65536 allocations ago; the same for the identifiers that a node holds |
| E2SystemSafety.InsertingKeepsStepIffUnused | flexric/src/ric/near_ric.c:802-805 | The code inserts without looking: pending events and messages in transit are in step afterwards exactly when the pair was not pending |
| E2SystemRounds.HeldIdentifierComesRound | flexric/src/ric/near_ric.c:850-861 | A run of one subscription and 65535 answered control requests after which the next number is the one of the subscription that is still held: another subscription would meet it, another control request does not |
| E2SystemProgress.ClearsIffNotStuck | flexric/src/ric/msg_handler_ric.c:68-86 | However many agents have stopped, some run clears a pending event exactly when its request is not queued for one of these agents or about to be sent to one; so with none stopped every pending event can be cleared |
| E2SystemSafety.DeleteFindsSubscription | flexric/src/agent/msg_handler_agent.c:260-287 | With any number of periodic and aperiodic subscriptions, a delete meets its subscription at the agent exactly when the identifier was subscribed when the delete was sent, and then removes its entry and its timer and nothing else |
| E2SystemSafety.SubscriptionIsNew | flexric/src/agent/msg_handler_agent.c:179-258 | A subscription never meets its own identifier at the agent |
| E2SystemSafety.QuietAgentHoldsSubscriptions | flexric/src/agent/msg_handler_agent.c:232-247 | With no request on the way an agent holds exactly the identifiers subscribed to it and not deleted, once each |
| E2SystemSafety.UninterruptedCall | flexric/src/ric/near_ric.c:785-813 | The atomic steps of a call, run without interruption, do what the method of `NearRic` promises |
| E2SystemTraces.RequestsArriveInOrder | flexric/src/agent/e2_agent.c:388-405 | In every run the requests sent to a node are those its agent received followed by those still queued, in the order of sending |
| E2SystemTraces.RepliesArriveInOrder | flexric/src/ric/near_ric.c:392-411 | The same for the answers and indications of each agent |
| E2SystemTraces.TasksAreConserved | flexric/src/ric/near_ric.c:392-447 | Every message received by the RIC is handled exactly once or still a task |
| E2SystemTraces.RequestGoesToItsNode | flexric/src/ric/near_ric.c:785-813 | However the run goes on after a call has begun, its sending queues the request with the number it took for the node that the caller named, and changes nothing else |
| E2SystemTraces.DeleteGoesToItsNode | flexric/src/ric/near_ric.c:815-848 | The same for a delete with the identifier and the node that the caller named |
| E2SystemTraces.SubscriptionIsStored | flexric/src/agent/msg_handler_agent.c:232-247 | The agent stores a received subscription under its new timer or under none |
| E2SystemDeletes.SendingDeletes | flexric/src/ric/near_ric.c:815-848 | A delete, once sent, is the last message for the node it was asked for, whose identifier is no more to be held there; all other nodes are as before |
| E2SystemDeletes.ReceivingEnds | flexric/src/agent/msg_handler_agent.c:260-287 | The agent that receives the delete does not hold the identifier afterwards |
| E2SystemDeletes.StaysDeleted | flexric/src/agent/msg_handler_agent.c:260-287 | In every run from there without another subscription for it the identifier stays deleted, and is not held once the queue for the node is empty |
| E2SystemDeletes.SubscriptionCanBeDeleted | flexric/src/ric/near_ric.c:815-848 | In every reachable state a caller can start a delete that is not pending yet, and some run then ends with the agent not holding the identifier |
| AgentProcedures.SubscribeAddsId | flexric/src/agent/msg_handler_agent.c:232-247 | A subscription adds its identifier, keeps the descriptors in step and, if the identifier is new, the map two-way |
| AgentProcedures.SubscribeKeepsUniqueIffNew | flexric/src/agent/msg_handler_agent.c:232-247 | The identifiers of an agent stay unique exactly when the subscribed one is new, which the agent does not check |
| AgentProcedures.StopRemovesId | flexric/src/agent/msg_handler_agent.c:68-103 | Stopping one of any number of subscriptions removes its identifier and keeps descriptors and identifiers in step |
| AgentProcedures.E2Agent.Start | flexric/src/agent/e2_agent.c:562-587 | Sends a setup request and arms the timer for its answer |
| AgentProcedures.E2Agent.HandleSubscriptionRequest | flexric/src/agent/msg_handler_agent.c:179-258 | Answers, and adds the identifier under a new timer or, for an aperiodic one, under none |
| AgentProcedures.E2Agent.HandleSubscriptionDeleteRequest | flexric/src/agent/msg_handler_agent.c:260-287 | Removes entry and timer of a known identifier and keeps descriptors and identifiers in step; an unknown one changes nothing; both are answered, unless another aperiodic entry is met under key 0, which takes two of them |
| AgentProcedures.E2Agent.HandleSetupResponse | flexric/src/agent/msg_handler_agent.c:376-417 | Stops one setup timer, keeps the descriptors in step, and takes no further response until the next request |
| AgentProcedures.E2Agent.HandleShutdown | flexric/src/agent/not_handler_agent.c:10-27 | Arms the setup timer again without sending |
| AgentProcedures.E2Agent.HandlePendingTimeout | flexric/src/agent/e2_agent.c:469-490 | An expired setup timer stays registered and pending while the next request is sent, after which a response is taken |
| AgentProcedures.E2Agent.NextAsyncEvent | flexric/src/agent/e2_agent.c:340-377 | The classification of a ready descriptor says exactly which of the five kinds it is |
| AgentRuns.SubscriptionAdds | flexric/src/agent/msg_handler_agent.c:179-258 | In a run a subscription adds its identifier and no other, and its timer if it is periodic |
| AgentRuns.DeleteRemoves | flexric/src/agent/msg_handler_agent.c:260-287 | A delete that does not fail removes its identifier and no other |
| AgentRuns.SafeIffOrderly | flexric/src/agent/e2_agent.c:289-316 | No assertion of dispatch or handlers fails in a run exactly when each setup response answers an awaited and sent request, each shutdown follows a setup response, and each delete of an aperiodic subscription meets its own entry under key 0 |
| AgentRuns.DeletePassesIffNoOther | flexric/src/agent/msg_handler_agent.c:68-103 | A delete passes if no other aperiodic subscription was made and not deleted beside its own, or its own is not aperiodic, and only then if the tree may meet any entry under key 0 |
| AgentRuns.TwoAperiodicCanFail | flexric/src/agent/msg_handler_agent.c:239-247 | Two aperiodic subscriptions and a delete of the second: the tree meets the first, which is its root, and the assertion fails |
| AgentRuns.OneBranchPerFd | flexric/src/agent/e2_agent.c:340-377 | In such runs the epoll set is the socket, the pipe, the setup timer while a response is awaited and the periodic timers, all different, and each takes its own branch |
| WakeupPipe.DigitsIsFour | flexric/src/agent/e2_agent.c:615-670 | An identifier is written with four characters exactly between 1000 and 9999 |
| WakeupPipe.DigitsAreDecimal | flexric/src/agent/e2_agent.c:661-668 | The bytes written for an identifier are its decimal length: it is below that power of ten and not below the one before |
| WakeupPipe.FourDigitsKeepStep | flexric/src/agent/e2_agent.c:408-437 | With such identifiers bytes and items stay in step under any number of producers: the assertions hold, a blocked read has a writer coming, and no queued indication is stranded |
| WakeupPipe.ShortIdFails | flexric/src/agent/e2_agent.c:427-436 | Any allowed shorter identifier has a run that fails |
| WakeupPipe.LongIdFails | flexric/src/agent/e2_agent.c:271-286 | Any allowed longer identifier has a run that fails |
| WakeupPipe.WorksIffFourDigits | flexric/src/agent/e2_agent.c:408-437 | The scheme works for a set of identifiers exactly when all of them lie in 1000..9999 |
| WakeupPipe.ItemsAreReadInOrder | flexric/src/agent/e2_agent.c:408-437 | In every run the identifiers that the loop reads are those pushed, in order and once each, followed by those it has not come to |
| WakeupNumbers.WorksForFirst8979 | flexric/src/ric/near_ric.c:234 | With the identifiers that the RIC hands out, aperiodic subscriptions work in every run exactly while there were no more than 8979 allocations |
| WakeupPipe.AperiodicEvents.TakeQueued | flexric/src/agent/e2_agent.c:271-286 | Takes everything that is queued, in order, and leaves the queue empty |
| WakeupPipe.AperiodicEvents.Process | flexric/src/agent/e2_agent.c:408-437 | Reads four bytes for each item and sends the indications of exactly those items that have a value, in order and once each |
| XappProcedures.KindLookupIsExactIffOnePerKind | flexric/src/xApp/pending_event_xapp.c:167-186 | Extraction through the kind-only comparator removes what full equality would, for every entry, exactly when no kind is pending twice |
| XappProcedures.AddKeepsOnePerKind | flexric/src/xApp/pending_event_xapp.c:95-104 | Adding keeps one event per kind exactly when the kind was not pending |
| XappProcedures.PendingEventsXapp.FindEvent | flexric/src/xApp/pending_event_xapp.c:154-165 | Found exactly when an entry has the same kind and identifier |
| XappProcedures.PendingEventsXapp.RemoveEvent | flexric/src/xApp/pending_event_xapp.c:167-186 | Removes one entry of the kind, and the one asked for where kinds are pending once |
| XappProcedures.ActiveProcedures.Add | flexric/src/xApp/act_proc.c:74-89 | Hands out a request identifier never used before and registers the procedure under it |
| XappProcedures.ActiveProcedures.Find | flexric/src/xApp/act_proc.c:105-130 | Completes the stored identifier with the request identifier, in the registry and in the answer; an unknown one changes nothing |
| XappProcedures.ActiveProcedures.Remove | flexric/src/xApp/act_proc.c:91-103 | Removes that procedure only |
| XappProcedures.SyncUi.CondWait | flexric/src/xApp/sync_ui.c:64-88 | Returns normally exactly when the first wake-up that is not spurious is a signal that ran after the reset of the flags |
| XappProcedures.SyncUi.Signal | flexric/src/xApp/sync_ui.c:90-98 | Sets flag and acknowledgement |
| XappSafety.AnswerFindsActiveProcedure | flexric/src/xApp/act_proc.c:105-130 | In every interleaving an answer finds its active procedure, and the identifier rebuilt from it is the one the pending event was stored with |
| XappCalls.ReportSubscribes | flexric/src/xApp/msg_handler_xapp.c:517-543 | A report is an E42 subscription request with a new request identifier, pending under its timer before it is sent, with its active procedure stored |
| XappCalls.ControlControls | flexric/src/xApp/msg_handler_xapp.c:573-595 | A control call is an E42 control request in the same way |
| XappCalls.RemoveDeletes | flexric/src/xApp/msg_handler_xapp.c:547-571 | A remove call is an E42 subscription delete request with the stored identifier, sent first and pending afterwards |
| XappCalls.ReturnLeaves | flexric/src/xApp/e42_xapp.c:417-531 | On return a report stays in the registry, a control or remove call leaves it without its procedure, and nothing else changes |
| XappCalls.FirstSetupResponseConnects | flexric/src/xApp/msg_handler_xapp.c:345-391 | The xApp is connected exactly when its setup request is not pending, the first response removes that request and its timer, and later ones change nothing |
| XappSafety.ActiveProceduresAreReports | flexric/src/xApp/e42_xapp.c:417-531 | Between calls the active procedures are exactly the reports that returned and were not removed |
| XappSafety.AnswerFindsPendingEvent | flexric/src/xApp/msg_handler_xapp.c:143-166 | The handler finds its pending event exactly when no remove call is between sending and inserting, so always for report and control; what the kind-only lookup meets is the event of the answer |
| XappSafety.RemoveCanBeOvertaken | flexric/src/xApp/msg_handler_xapp.c:547-571 | Because it sends before it inserts, every remove call has a run whose answer finds nothing |
| XappSafety.NoKindPendingTwice | flexric/src/xApp/e42_xapp.c:417-531 | With one synchronous caller no kind is ever pending twice |
| XappSafety.TimersArePendingEvents | flexric/src/xApp/msg_handler_xapp.c:76-93 | The registered timers are the keys of the pending events, but for one being made or closed |
| XappSafety.WokenMeansAnswered | flexric/src/xApp/e42_xapp.c:417-440 | When a call returns it was acknowledged, and its pending event, its timer and its messages are gone |
| XappSafety.NoWakeWithoutSignal | flexric/src/xApp/sync_ui.c:76-87 | Whatever wake-ups there are, a wait does not end normally without a signal after the reset |
| XappSafety.CanReturnIffAnswerAhead | flexric/src/xApp/sync_ui.c:64-88 | A blocked call can still return exactly when its answer was signalled since the reset, is being handled, or is still pending |
| XappSafety.WaitIsLostIffSignalledBefore | flexric/src/xApp/e42_xapp.c:417-440 | A call about to wait never returns exactly when the event loop has signalled it already |
| XappSafety.SignalCanBeLost | flexric/src/xApp/sync_ui.c:64-98 | Every call that is about to wait has a run in which that happens |
| XappSafety.EveryReportCanBeLost | flexric/src/xApp/e42_xapp.c:417-440 | And so has every report, from its start |
| NodeRegistry.EraseRemovesExactly | flexric/src/ric/not_handler_ric.c:31-53 | Where identifiers are distinct, erasing the first match removes that node and no other |
| NodeRegistry.Nodes.RegisterAddress | flexric/src/ric/map_e2_node_sockaddr.c:85-114 | Adds one pair and keeps the map two-way |
| NodeRegistry.Nodes.RemoveAddress | flexric/src/ric/map_e2_node_sockaddr.c:130-139 | Removes the pair of an address and answers its node |
| NodeRegistry.Nodes.RemoveId | flexric/src/ric/map_e2_node_sockaddr.c:116-128 | Removes the pair of a node and answers its address |
| NodeRegistry.Nodes.FindAddress | flexric/src/ric/map_e2_node_sockaddr.c:141-163 | The one address of a node |
| NodeRegistry.Nodes.SetupRequest | flexric/src/ric/near_ric.c:406-412 | Address map, iApp and list gain the node, and go on holding the same identifiers, once each |
| NodeRegistry.Nodes.Shutdown | flexric/src/ric/not_handler_ric.c:23-57 | Removes the node of one address from all three and nothing else, keeping the order of the list |
| NodeRuns.RegistriesAgree | flexric/src/ric/msg_handler_ric.c:328-341 | In every reachable state with no setup or shutdown in progress the three registries hold the same identifiers, once each |
| NodeRuns.SetupRegisters | flexric/src/ric/msg_handler_ric.c:328-341 | The setup of a new node lists that very node, RAN functions and all, and adds its address and its iApp entry |
| NodeRuns.OnlyNamedNodes | flexric/src/ric/msg_handler_ric.c:328-341 | In every interleaving each listed node is the very node of some setup request of the run |
| NodeRuns.IAppChangesAreValid | flexric/src/ric/msg_handler_ric.c:328-333 | A node is never added to the iApp twice nor removed from it when absent |
| NodeRuns.ConnectedIsAddressable | flexric/src/ric/map_e2_node_sockaddr.c:141-163 | A connected node has an address exactly until its shutdown begins |
| NodeRuns.ShutdownSucceedsIffSetupDone | flexric/src/ric/not_handler_ric.c:31-40 | A shutdown finds its address exactly when the setup has registered it, and its node in the list exactly when the setup is finished |
| NodeRuns.ShutdownRemovesExactly | flexric/src/ric/not_handler_ric.c:23-57 | The shutdown of a node that is set up removes that node from all registries and nothing else |
| NodeRuns.ShutdownCanMissNode | flexric/src/ric/not_handler_ric.c:40 | Every new node has a run in which its shutdown meets an unfinished setup and does not find it |
| RepeatedSetups.AgreeIffNoneUnfinished | flexric/src/ric/map_e2_node_sockaddr.c:85-114 | With any repetitions a node has one address for its list entry and one for each unfinished setup of it, and one list and iApp entry at most; outside shutdowns the registries agree exactly when no registered setup is unfinished |
| RepeatedSetups.RefusedIffKnown | flexric/src/lib/msg_hand/reg_e2_nodes.c:168-175 | A setup fails at the iApp exactly when its node is listed, is about to be listed by another setup, or is not yet removed after a shutdown |
| RepeatedSetups.SetupRegisters | flexric/src/ric/msg_handler_ric.c:328-341 | The setup of an unknown node lists that very node, RAN functions and all |
| RepeatedSetups.OnlyNamedNodes | flexric/src/ric/msg_handler_ric.c:328-341 | With any repetitions each listed node, and each one being set up, is the very node of some setup request of the run |
| RepeatedSetups.RepeatedSetup | flexric/src/ric/near_ric.c:406-412 | A setup that a connected node repeats leaves it with two addresses, changes neither list nor iApp, and fails there |
| RepeatedSetups.ShutdownPassesIffOneAddress | flexric/src/ric/map_e2_node_sockaddr.c:130-139 | Whatever entry of the node the left tree meets, the shutdown of an address passes exactly when all pairs of its node have that address |
| RepeatedSetups.SecondAddressFails | flexric/src/ric/map_e2_node_sockaddr.c:130-139 | A node that is set up from a second address: the shutdown of the second one meets the first and fails |
| XappNodes.FirstListingCounts | flexric/src/xApp/msg_handler_xapp.c:629-647 | A node is registered after an update exactly when the message lists it, with the functions of its first listing |
| XappNodes.Xapp.SetupResponse | flexric/src/xApp/msg_handler_xapp.c:345-391 | Only the first response sets the identifier; it adds its nodes to those known from updates, and fails exactly if one is known already, listed twice or without RAN functions |
| XappNodes.Xapp.UpdateNodes | flexric/src/xApp/msg_handler_xapp.c:597-652 | Afterwards the registry is that of the message, whatever it was |
| PubSub.PublishesRightIffAllAlike | flexric/src/ric/msg_handler_ric.c:180-203 | Reading the front entry instead of the matched one is right for every function exactly when all functions have the same listeners in the same order |
| PubSub.OneMoreListenerBreaksPublishing | flexric/src/ric/near_ric.c:82-106 | Registering one more listener for one of several functions makes publishing wrong |
| PubSub.RicPubSub.RegisterListener | flexric/src/ric/near_ric.c:82-106 | Appends to the listeners of one function and changes no other |
| PubSub.RicPubSub.LoadDefault | flexric/src/ric/near_ric.c:109-132 | Afterwards exactly the loaded service models have listeners, all the same ones, and publishing is right |
| PubSub.RicPubSub.PublishIndMsg | flexric/src/ric/msg_handler_ric.c:180-203 | Calls the listeners of the smallest function, once each and in order; those of the indication's function where publishing is right |
| IdentifierCodecs.GnbEncodingIsLeftAligned | flexric/src/util/conversions.c:114-151 | The bytes, most significant first, are the identifier shifted up over its unused bits, in three bytes for up to 24 bits and else four, with zero padding |
| IdentifierCodecs.EncodeDecodeIffPadded | flexric/src/util/conversions.c:153-178 | Everything the decoder accepts is a valid identifier, and encodes back to the same string exactly when its padding is zero |
| IdentifierCodecs.GnbDecodingShiftsDown | flexric/src/util/conversions.c:153-178 | The decoded identifier is the bytes, most significant first, shifted down over the unused bits, whatever the padding |
| IdentifierCodecs.GnbCodecIsBijection | flexric/src/util/conversions.c:114-178 | The codec is a bijection between the pairs with fewer than 11 unused bits and no bit beyond and the strings of 22 to 32 bits with zero padding |
| IdentifierCodecs.FillGnbId | flexric/src/util/conversions.c:114-151 | The buffer and the unused count that the encoder stores |
| IdentifierCodecs.NrCellIdRoundTripIffBit31Clear | flexric/src/util/conversions.c:81-112 | A 36-bit cell identity is decoded to itself exactly when its bit 31 is clear; else all upper bits come out set |
| IdentifierCodecs.NrCellIdEncodesBackIffByteBelow128 | flexric/src/util/conversions.c:100-112 | A string is decoded to a 36-bit value exactly when its fourth byte is below 128, and then encodes back exactly when its padding is zero |
| IdentifierCodecs.NrEncodingHoldsValue | flexric/src/util/conversions.c:81-98 | The stored bytes put together, least significant first and the last one by its upper half, are the value, for all 36-bit values; the padding is zero |
| IdentifierCodecs.NrDecodingSetsUpperBits | flexric/src/util/conversions.c:100-112 | The decoded value is the bytes put together, with bits 32 to 63 set if the fourth byte is 128 or more |
| IdentifierCodecs.FillNrCellId | flexric/src/util/conversions.c:81-98 | The buffer that the encoder stores |
| PlmnCodec.OrNibble | flexric/src/util/conversions.h:299-306 | What the `or` of a value shifted by four does to the nibbles of a byte |
| PlmnCodec.PackedLayout | flexric/src/util/conversions.h:281-306 | Which decimal digit each half of each byte holds, and the filler of a two-digit MNC |
| PlmnCodec.ToPlmnId | flexric/src/util/conversions.h:299-306 | The buffer holds the packed digits |
| PlmnCodec.FromTbcd | flexric/src/util/conversions.h:329-346 | The TBCD decoder agrees with the PLMN one on all three-byte inputs |
| PlmnCodec.RoundTripIffFits | flexric/src/util/conversions.h:281-317 | Code and length come back exactly when the MCC is below 1600 and the MNC below 100 with two digits or below 1500 with three; all three-digit codes do |
| PlmnCodec.UnpackedIsPackedIffDecimal | flexric/src/util/conversions.h:299-317 | Three bytes are packed again exactly when every nibble but the hundreds is a decimal digit |
| SlotReplay.GrantsAreFeasible | model_items/CQL_train.py:644-660 | The grants stay within the needs and come to exactly the smaller of the budget and all needs |
| SlotReplay.SlotTotal | model_items/CQL_train.py:629-660 | A slot grants 51 PRBs or all that its rows need, whichever is less |
| SlotReplay.GreedyIsOptimal | model_items/CQL_train.py:636-660 | In descending order of non-negative scores, as the expected priorities are, no allocation within needs and budget has a greater sum of score times grant |
| SlotReplay.GreedyIsOptimalIff | model_items/train_priority_ranker.py:282-303 | For the scores of either sign that the ranker gives, the grants are optimal exactly when no row of negative score gets one |
| SlotReplay.GreedyIsOptimalForTotal | model_items/train_priority_ranker.py:282-303 | And always among the allocations that grant as much in total |
| SlotReplay.ReplaySlot | model_items/CQL_train.py:644-660 | The loop with its early exit stores those grants in the rows of the slot, leaves other rows alone, and marks scheduled exactly the rows with a grant |
| SlotReplay.ReplaySlots | model_items/train_priority_ranker.py:274-303 | Over slots without common rows every slot gets the grants of its own budget |
| SlotReplay.ReplayIsOptimal | model_items/IQL_train.py:537-564 | No allocation to the rows of a slot, found in whatever order, is worth more than the replay, if no row of negative score gets a grant or that allocation grants as much |
| SlotReplay.TiesDoNotMatter | model_items/IQL_train.py:539-543 | Two sorts that break ties differently replay to the same worth, for scores of either sign |
| JainIndex.IndexBounds | ran_dashboard/app.py:537-544 | For non-negative rates that are not all zero the index lies between 1/n and 1, is 1 exactly when all rates are equal, and 1/n exactly when one user has all the rate |
| JainIndex.NoIndexIffNoRate | ran_dashboard/Data_Analysis3.py:53-57 | The script has no number exactly when no user has a rate; the dashboard then fails, unless there are no users |
| JainIndex.IndexIsMeanOverVariance | ran_dashboard/app.py:541-544 | The index is the part that the squared mean has in the sum of itself and the variance |
| JainIndex.EqualSharesGiveTheirPart | ran_dashboard/app.py:541-544 | When k of n users share equally and the others have nothing, the index is k/n |
| JainIndex.GapZero | ran_dashboard/app.py:544 | The Cauchy-Schwarz inequality behind the index, with its case of equality |

## Left out

- Sockets, epoll, timerfd, pipes and message queues as operating system objects: descriptors are integers, a
  channel is a sequence and the pipe is a byte count without a capacity. Epoll reports an edge only if the pipe
  is still readable at delivery.
- ASN.1 and E2AP encoding, service model callbacks, iApp and database code: messages are datatypes and the iApp
  is part of the environment.
- Container internals. A two-way map is a finite map from the left key, which for timers is always new; the
  right tree is a search by the comparator, and that it has at most one match is proved. The trees keep equal
  keys side by side, which the xApp's kind-only right tree could do: `RemoveEvent` may extract any of them.
- AgentRuns.DeletePassesIffNoOther: which of several entries under one key is met is a matter of the shape of the
  tree, which is not modelled; a run that fails is given for the smallest tree, where it is certain.
- The report, remove and control calls of the RIC's own interface (`flexric/src/ric/near_ric.c:585-745`), which
  repeat the procedures of the forwarding interface.
- Timeout steps of the RIC, failure messages and unimplemented handlers, whose code is an assertion that fails,
  and the `PROXY_AGENT` and `E2AP_V1` paths.
- The lookup loop with retries in front of the push of an aperiodic indication: it waits for a subscription and
  fails if there is none.
- A timer of the xApp that expires while its call is pending stops the program, like the deadline
  of the wait, which is the `Timeout` action.
- Sending to a node looks up its address; a request forwarded during the shutdown of its node fails there. The
  machines of requests and of the node registries are separate.
- Memory management, logging, plugin loading, configuration parsing, and the iApp's own bookkeeping.
- AMF, E-UTRA cell and eNB identifier codecs: the patterns of the cell identity at other widths without its
  sign extension.
- Pair construction, networks, training and statistics of the scripts; sorting is any order that is descending,
  and grants and rates are real numbers, so rounding is not modelled.
- The dashboard's process control, routes other than the metrics and log parsing.
