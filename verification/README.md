# Verified model of the BehaviorTree.ROS2 wrappers

This project models the four state machines that sit between the tick and halt discipline of
BehaviorTree.CPP and the asynchronous deliveries of ROS 2, and proves what they keep over whole runs.

- `ActionNode.dfy` is the machine of `RosActionNode`; `ActionSpins`, `ActionOwnership`,
  `ActionHistory`, `ActionRuns`, `ActionFeedback`, `ActionAccounting`,
  `ActionTraces`, `ActionDestruction` and `ActionLaws` hold its theorems;
  `RosActionNode.dfy` is the class itself, proved against the machine.
- `Registry.dfy` is the registry of shared client instances with explicit reference counts, used by
  all three wrappers; `ClientRegistry.dfy` is its class.
- `TopicSub.dfy`, `TopicRuns.dfy`, `TopicExact.dfy`, `TopicReceivers.dfy`, `TopicTraces.dfy`,
  `TopicLaws.dfy` and `RosTopicSubNodes.dfy` do the same for `RosTopicSubNode`.
- `ServiceNode.dfy`, `ServiceRuns.dfy`, `ServiceLaws.dfy` and `RosServiceNode.dfy` do the same for `RosServiceNode`.
- `RateLoop.dfy`, `TreeServer.dfy`, `TreeServerRuns.dfy`, `TreeServerLaws.dfy` and `TreeExecutionServer.dfy` cover
  `TreeExecutionServer::execute`; `ServerThreads.dfy` covers `handle_accepted` and its threads.

How to read it. Everything outside the wrappers (server, executor, clock, user callbacks, the other
nodes that spin a shared executor) is an input of a step; a run is any sequence of steps, and a
delivery that cannot occur is ignored, so theorems quantify over all runs without side conditions.
What a wrapper does is recorded in a trace, and properties are stated on the trace by functions that
search it. "Faulted" stands for a null handle or an invalid future being used, after which nothing is
known. Each class method ensures that its new state is the value of the machine's function.

Framework assumptions: the tree stores the status that `tick` returns, and keeps the status that
`tick` had set when it throws; a node is ticked only when IDLE or RUNNING; a parent's halt calls
`halt()` and leaves the node IDLE; ids of goals and requests are unique; a future is fulfilled once,
a goal has at most one result and no feedback after it; the clock does not go backwards.

Where the code falls short. In several places a property fails for the code as written. The model
keeps the code (variant `AsWritten`), gives a run from a new node or an empty program that shows the
failure, proves the exact condition under which the code is right, stated on what is known before a
step and on its inputs, and proves the property without conditions for a variant `Repaired`:

- The goal handle survives the start of an activation, so a late result of the previous goal can be
  taken for the new one, and a halt before acceptance cancels the previous goal instead of its own.
- A result that comes in before the tick has taken the handle dereferences a null handle, or is lost.
- A rejection that arrives while `cancelGoal` waits makes it use a null handle.
- The feedback callback tests no goal id, so feedback of an earlier goal can stop the next activation.
- The feedback verdict is read again after `cancelGoal`, so a node can stay RUNNING on a cancelled goal.
- A change of topic does not disconnect from the old broadcaster and keeps the old mailbox, so onTick
  can be given a message of the old topic. The destructor disconnects one slot, so a destroyed node
  can be called, also after it has come back to its first topic and has two slots there.
- The callbacks of a goal outlive an action node that is destroyed while the goal is pending, if another
  node holds the client. For this one no repair is modelled.

Where code and documentation disagree the model follows the code: `was_cancelled` is also true for a
stop by `onLoopAfterTick`, and it is true for a cancel and false for a finished tree, unlike
`tree_execution_server.md` lines 50 to 57 and the comment at `tree_execution_server.hpp` line 131.

## Model

| member | source | states |
|---|---|---|
| ActionOwnership.RepairedOwnership | behaviortree_ros2/include/behaviortree_ros2/bt_action_node.hpp:396-429 | Over every run, with any callbacks, every result given to onResultReceived or onFailure belongs to the goal of the current activation, was delivered while its handle was held, and is the one delivered; needs the repair of the reset and of the null handle |
| ActionOwnership.OwnershipOfCleanRuns | behaviortree_ros2/include/behaviortree_ros2/bt_action_node.hpp:392-453 | The same for the code as written, over every run in which no activation starts while the result of the goal whose handle is kept is still due |
| ActionOwnership.CleanStartIsExact | behaviortree_ros2/include/behaviortree_ros2/bt_action_node.hpp:396-429 | As written, ownership over all runs of one activation holds if and only if that activation starts clean; the other direction builds the violating run |
| ActionOwnership.LateResultBreaksOwnership | behaviortree_ros2/include/behaviortree_ros2/bt_action_node.hpp:422-429 | The violating run: the stale goal's result comes in after the reset, the new goal is accepted, and the next tick reports the stale result |
| ActionOwnership.EarlyResultIsLost | behaviortree_ros2/include/behaviortree_ros2/bt_action_node.hpp:422-429 | A result delivered before the tick has taken its goal's handle is never shown to a callback, in either variant |
| ActionTraces.UncleanStartIsReachable | behaviortree_ros2/include/behaviortree_ros2/bt_action_node.hpp:531-577 | From a new node, a halt whose waits time out leads to an unclean start, and a run from there reports the late result of the first goal to the activation of the second |
| ActionSpins.SpinFaultIsExact | behaviortree_ros2/include/behaviortree_ros2/bt_action_node.hpp:422-429 | Spinning faults if and only if the goal handle is null and, among the deliveries, a result comes for a goal whose result is due at the start or that was accepted earlier among them; otherwise as-written and repaired code differ in the verdict of feedback only |
| ActionSpins.TickFaultIsExact | behaviortree_ros2/include/behaviortree_ros2/bt_action_node.hpp:456-515 | The same for a whole running tick, on the deliveries of its spin and of its wait up to the pending response |
| ActionSpins.CancelFaultIsExact | behaviortree_ros2/include/behaviortree_ros2/bt_action_node.hpp:534-562 | cancelGoal faults if and only if it waits with a null handle and, among the deliveries up to the response, a result comes in, or the response is a rejection |
| ActionSpins.CancelFrame | behaviortree_ros2/include/behaviortree_ros2/bt_action_node.hpp:534-576 | cancelGoal blocks for at most three server timeouts, and with obedient callbacks it does not throw |
| ActionTraces.NullHandleIsReachable | behaviortree_ros2/include/behaviortree_ros2/bt_action_node.hpp:422-423 | A run from a new node that dereferences the null handle in the result callback |
| ActionTraces.RejectionDuringHaltIsReachable | behaviortree_ros2/include/behaviortree_ros2/bt_action_node.hpp:548-562 | A run from a new node in which a rejection during halt hands a null handle to the client |
| ActionRuns.FaultOfRunsIsExact | behaviortree_ros2/include/behaviortree_ros2/bt_action_node.hpp:351-577 | From a new node, a contract-obeying run as written faults if and only if one of its steps meets the condition above, read off the members, the pending answers and the deliveries before that step |
| ActionRuns.RepairedNeverFaults | behaviortree_ros2/include/behaviortree_ros2/bt_action_node.hpp:351-577 | The repaired node touches no null handle and no invalid future, over every contract-obeying run |
| ActionRuns.PhaseOfRuns | behaviortree_ros2/include/behaviortree_ros2/bt_action_node.hpp:392-491 | Over every contract-obeying run, RUNNING means: not received and a valid future of the current goal, or received, no future, and the handle of the current goal |
| ActionRuns.ExecPhase | behaviortree_ros2/include/behaviortree_ros2/bt_action_node.hpp:462-491 | Each step keeps the phase, and no tick spins on an invalid future |
| ActionRuns.UnreachableVerdictIsExact | behaviortree_ros2/include/behaviortree_ros2/bt_action_node.hpp:445-448 | At the one unchecked verdict the phase survives if and only if onFailure does not return RUNNING; otherwise the next tick spins on an invalid future |
| ActionRuns.TickRefinesHistory | behaviortree_ros2/include/behaviortree_ros2/bt_action_node.hpp:456-517 | In every state reachable by a contract-obeying run, clean starts or not, a running tick that returns makes exactly the calls, and returns exactly the verdict, of a decision on the history: timeout, rejection, feedback, then the result stored for the handle kept |
| ActionRuns.OncePerActivation | behaviortree_ros2/include/behaviortree_ros2/bt_action_node.hpp:392-515 | At most one goal sent and one terminal callback per activation, at every moment of every contract-obeying run, clean starts or not |
| ActionRuns.BoundedWaiting | behaviortree_ros2/include/behaviortree_ros2/bt_action_node.hpp:461-480 | With ticks at least a gap apart, the time left until the timeout bounds the number of ticks the goal can stay unaccepted |
| ActionLaws.TimeoutIsExact | behaviortree_ros2/include/behaviortree_ros2/bt_action_node.hpp:451-480 | Over runs, counted from the tick that sends: an activation that is still unaccepted reports SEND_GOAL_TIMEOUT at a tick if and only if no response is in by then and the time passed since exceeds the timeout; unanswered and in time it stays RUNNING |
| ActionLaws.SentNow | behaviortree_ros2/include/behaviortree_ros2/bt_action_node.hpp:451-453 | The goal is sent, and the time remembered, at the clock of its tick |
| ActionLaws.CancelDuration | behaviortree_ros2/include/behaviortree_ros2/bt_action_node.hpp:542-576 | cancelGoal takes the sum of its waits, each cut off at the timeout, and waits for the result only with a handle |
| ActionLaws.GoalGoesToClient | behaviortree_ros2/include/behaviortree_ros2/bt_action_node.hpp:362-372 | Goals are sent by first ticks only, to the name in the port if there was no client or the name is read at each start and differs, else to the client the node had |
| ActionLaws.GoalsFollowPort | behaviortree_ros2/include/behaviortree_ros2/bt_action_node.hpp:362-372 | Over every run from a constructed node in which renames succeed: a node with a blackboard port sends to the action its port names at that tick, any other to the client it has |
| ActionLaws.ClientAfterStep | behaviortree_ros2/include/behaviortree_ros2/bt_action_node.hpp:344-377 | Which client and name a node has after each step; while RUNNING they change by setActionName only |
| ActionLaws.ConstructorChoice | behaviortree_ros2/include/behaviortree_ros2/bt_action_node.hpp:265-300 | The client of a new node is that of the static port name, else of the default, else none; it throws exactly when a name is wanted and the ROS node is gone |
| ActionLaws.FirstTick | behaviortree_ros2/include/behaviortree_ros2/bt_action_node.hpp:392-454 | The calls, error codes and status of the first tick, for any callbacks, in each of its four cases |
| ActionLaws.ShutdownFails | behaviortree_ros2/include/behaviortree_ros2/bt_action_node.hpp:353-357 | After shutdown a tick does what a halt does and ends with FAILURE |
| ActionLaws.HaltCallsOnHalt | behaviortree_ros2/include/behaviortree_ros2/bt_action_node.hpp:521-528 | onHalt is called exactly once, last, when the node was RUNNING, and else not |
| ActionLaws.CallbackVerdictIsTaken | behaviortree_ros2/include/behaviortree_ros2/bt_action_node.hpp:381-390 | For any callbacks: a verdict that is SUCCESS or FAILURE becomes the status, any other throws and leaves RUNNING, but SERVER_UNREACHABLE takes it unchecked |
| ActionLaws.IdleFeedbackThrows | behaviortree_ros2/include/behaviortree_ros2/bt_action_node.hpp:411-420 | onFeedback returning IDLE throws out of the spin: nothing after it is delivered |
| ActionLaws.FaultsAreFaults | behaviortree_ros2/include/behaviortree_ros2/bt_action_node.hpp:461-469 | cancelGoal without a client and a tick that spins on an invalid future are faults |
| ActionAccounting.RepairedGoals | behaviortree_ros2/include/behaviortree_ros2/bt_action_node.hpp:470-577 | Every goal ever sent is in flight or has met exactly one fate (rejected, shown, cancel requested, abandoned), over every contract-obeying run of the repaired node |
| ActionAccounting.AccountOfRunsIsExact | behaviortree_ros2/include/behaviortree_ros2/bt_action_node.hpp:470-577 | As written, over every contract-obeying run: the same holds at every moment (up to a fault) if and only if no cancel before acceptance meets an older handle, no tick shows the result of another goal, and no feedback during cancelGoal takes back a stop; all three are conditions on the state before the step and its deliveries |
| ActionAccounting.EarlyHaltIsExact | behaviortree_ros2/include/behaviortree_ros2/bt_action_node.hpp:531-562 | A halt before acceptance keeps the account if and only if the handle is null; with a stale handle the pending goal is forgotten |
| ActionAccounting.RunningTickIsExact | behaviortree_ros2/include/behaviortree_ros2/bt_action_node.hpp:456-517 | A running tick that does not fault keeps the account if and only if it does not show the result of another goal and the last feedback that takes effect during cancelGoal does not undo the stop |
| ActionAccounting.StoppedGoalIsCancelled | behaviortree_ros2/include/behaviortree_ros2/bt_action_node.hpp:494-499 | A tick that stops on feedback requests cancel of the activation's own goal, and that is its one fate, whatever feedback says later |
| ActionAccounting.HeldGoalIsCancelled | behaviortree_ros2/include/behaviortree_ros2/bt_action_node.hpp:521-562 | A halt after acceptance requests cancel of the activation's own goal, and that is its one fate |
| ActionTraces.ForgottenGoalIsReachable | behaviortree_ros2/include/behaviortree_ros2/bt_action_node.hpp:534-562 | A run in which halting the second goal cancels the first one again |
| ActionTraces.FlippedVerdictIsReachable | behaviortree_ros2/include/behaviortree_ros2/bt_action_node.hpp:495-499 | A run in which the goal is cancelled on feedback and the node stays RUNNING |
| ActionFeedback.RepairedStops | behaviortree_ros2/include/behaviortree_ros2/bt_action_node.hpp:411-420 | Over every contract-obeying run of the repaired node: a stop asked by feedback is the latest verdict on feedback for the goal of the activation; needs a test of the goal in the feedback callback |
| ActionFeedback.StopsOfLoneRuns | behaviortree_ros2/include/behaviortree_ros2/bt_action_node.hpp:411-420 | The same as written, over runs in which nothing is pending for older goals when an activation starts |
| ActionFeedback.LoneStartIsExact | behaviortree_ros2/include/behaviortree_ros2/bt_action_node.hpp:411-420 | As written, an activation owns its feedback stops in all contract-obeying runs if and only if no older goal awaits its response or result when it starts |
| ActionTraces.StaleFeedbackIsReachable | behaviortree_ros2/include/behaviortree_ros2/bt_action_node.hpp:495-499 | A run from a new node in which feedback of the first goal stops the activation of the second |
| ActionDestruction.OrphansAreExact | behaviortree_ros2/include/behaviortree_ros2/bt_action_node.hpp:411-442 | As written, over every run that destroys the node or not: a callback has run on the destroyed node, or can by further spins, if and only if it was destroyed with a goal pending (response or result still due) on a client another node holds |
| ActionDestruction.UseAfterDestructionIsReachable | behaviortree_ros2/include/behaviortree_ros2/bt_action_node.hpp:521-562 | A run from a new node: accepted goal, halt whose waits time out, destruction, and the late result calls the destroyed node |
| RosActionNodeClass.RosActionNode.Construct | behaviortree_ros2/include/behaviortree_ros2/bt_action_node.hpp:265-300 | The three cases of port and default name, and the exception of createClient; a new node is in the initial state from which all runs start |
| RosActionNodeClass.RosActionNode.ResultCallback | behaviortree_ros2/include/behaviortree_ros2/bt_action_node.hpp:422-429 | The callback does what the state machine says, null handle included |
| RosActionNodeClass.RosActionNode.Dispatch | behaviortree_ros2/include/behaviortree_ros2/bt_action_node.hpp:411-442 | One delivery, with its effect on the node and on the pending answers |
| RosActionNodeClass.RosActionNode.SpinSome | behaviortree_ros2/include/behaviortree_ros2/bt_action_node.hpp:459 | Any sequence of deliveries up to an exception or a fault |
| RosActionNodeClass.RosActionNode.SpinUntilFutureComplete | behaviortree_ros2/include/behaviortree_ros2/bt_action_node.hpp:468-469 | Deliveries up to the goal response, an exception or a fault |
| RosActionNodeClass.RosActionNode.CancelHeldGoal | behaviortree_ros2/include/behaviortree_ros2/bt_action_node.hpp:559-576 | Result and cancel requests, and the two waits |
| RosActionNodeClass.RosActionNode.CancelGoal | behaviortree_ros2/include/behaviortree_ros2/bt_action_node.hpp:531-577 | The whole of cancelGoal equals the function the properties are proved about |
| RosActionNodeClass.RosActionNode.Halt | behaviortree_ros2/include/behaviortree_ros2/bt_action_node.hpp:521-528 | The whole of halt, likewise |
| RosActionNodeClass.RosActionNode.CreateClient | behaviortree_ros2/include/behaviortree_ros2/bt_action_node.hpp:303-341 | Refuses an empty name or a missing ROS node without effect, else records client and name |
| RosActionNodeClass.RosActionNode.SetActionName | behaviortree_ros2/include/behaviortree_ros2/bt_action_node.hpp:344-348 | The name changes even when createClient throws |
| RosActionNodeClass.RosActionNode.EnsureClient | behaviortree_ros2/include/behaviortree_ros2/bt_action_node.hpp:362-377 | The check of client and port at the start of a tick |
| RosActionNodeClass.RosActionNode.Activate | behaviortree_ros2/include/behaviortree_ros2/bt_action_node.hpp:392-454 | The first tick of an activation, likewise |
| RosActionNodeClass.RosActionNode.Conclude | behaviortree_ros2/include/behaviortree_ros2/bt_action_node.hpp:494-517 | Feedback stop and stored result, likewise |
| RosActionNodeClass.RosActionNode.Continue | behaviortree_ros2/include/behaviortree_ros2/bt_action_node.hpp:456-517 | A running tick, likewise |
| RosActionNodeClass.RosActionNode.Tick | behaviortree_ros2/include/behaviortree_ros2/bt_action_node.hpp:351-518 | The whole of tick, likewise |
| Registry.RegistrySafety | behaviortree_ros2/include/behaviortree_ros2/bt_action_node.hpp:302-341 | Over any history: at most one live instance per key, registered under it; two holders share an instance if and only if their keys agree; every count is the number of holders |
| Registry.SharingMeansSameResource | behaviortree_ros2/include/behaviortree_ros2/bt_service_node.hpp:279-294 | Sharing then means same ROS node and same resource, when resource names contain no slash or the ROS node is the same |
| Registry.HistoryValid | behaviortree_ros2/include/behaviortree_ros2/bt_topic_sub_node.hpp:258-273 | The invariant behind it: counts, links, and every holder has an instance made for the key it asked for last |
| Registry.CreateIsExact | behaviortree_ros2/include/behaviortree_ros2/bt_action_node.hpp:303-334 | createClient has no effect exactly for an empty name or a ROS node that is gone, and else leaves a live instance for its key |
| Registry.KeyCollisionIsExact | behaviortree_ros2/include/behaviortree_ros2/bt_action_node.hpp:317 | Two pairs have the same key if and only if they are equal or a slash moves from one name into the other |
| Registry.KeysAreInjective | behaviortree_ros2/include/behaviortree_ros2/bt_action_node.hpp:317 | Keys are injective within a ROS node, and for resource names without a slash |
| Registry.KeysCollide | behaviortree_ros2/include/behaviortree_ros2/bt_topic_sub_node.hpp:258 | A collision |
| ClientRegistryClass.ClientRegistry.CreateClient | behaviortree_ros2/include/behaviortree_ros2/bt_service_node.hpp:265-304 | Appends one operation to the history the theorems speak about, and leaves the caller with an instance for its key |
| ClientRegistryClass.ClientRegistry.AssignPointer | behaviortree_ros2/include/behaviortree_ros2/bt_action_node.hpp:323-328 | Assigning the shared pointer: the new instance gains a reference, the one held before loses one, also when they are the same |
| ClientRegistryClass.ClientRegistry.Destroy | behaviortree_ros2/include/behaviortree_ros2/bt_topic_sub_node.hpp:301 | A holder that resets its pointer or is destroyed holds nothing |
| TopicRuns.MailboxOfSteadyRuns | behaviortree_ros2/include/behaviortree_ros2/bt_topic_sub_node.hpp:178-183 | As written, when every node keeps its topic: onTick always gets the last message on its topic since its own last non-latching tick, or the stored one if it has just joined, else nothing |
| TopicRuns.RepairedTopics | behaviortree_ros2/include/behaviortree_ros2/bt_topic_sub_node.hpp:290-324 | With disconnect-first, over every run with any topic changes: the same, and every live broadcaster calls only nodes that hold it, each of them once, and no destroyed node is called |
| TopicLaws.HomesAreKept | behaviortree_ros2/include/behaviortree_ros2/bt_topic_sub_node.hpp:290-307 | Over every run, as written or repaired, in which ports hold nothing, their default value or the topic their node was constructed on: each node keeps an instance for that topic, and onTick gets exactly its unread messages |
| TopicLaws.HomeTickShows | behaviortree_ros2/include/behaviortree_ros2/bt_topic_sub_node.hpp:316-323 | In such runs a tick shows the last message that arrives during it, else the unread one, and empties the mailbox unless it latches or throws |
| TopicLaws.TickKeepsTopic | behaviortree_ros2/include/behaviortree_ros2/bt_topic_sub_node.hpp:294-307 | A node with an instance keeps instance, topic and slots when its port is empty, still the placeholder, or names its topic |
| TopicLaws.TickChangesTopic | behaviortree_ros2/include/behaviortree_ros2/bt_topic_sub_node.hpp:298-307 | With any other port it gives up its instance and, if the ROS node lives, comes to hold one for node name and port; nobody else is touched |
| TopicLaws.TickJoinsTopic | behaviortree_ros2/include/behaviortree_ros2/bt_topic_sub_node.hpp:304-307 | A node without an instance subscribes to what its port names, unless that is empty or the ROS node is gone |
| TopicLaws.StatusIsVerdict | behaviortree_ros2/include/behaviortree_ros2/bt_topic_sub_node.hpp:308-323 | tick returns the verdict of onTick when it is SUCCESS or FAILURE and the node has an instance or gets one; else it throws |
| TopicLaws.ConstructorChoice | behaviortree_ros2/include/behaviortree_ros2/bt_topic_sub_node.hpp:187-235 | The topic of a new node: static port name, else default, else an exception; a blackboard port waits for the first tick |
| TopicExact.RightRunsAreExact | behaviortree_ros2/include/behaviortree_ros2/bt_topic_sub_node.hpp:238-324 | As written, over every run from an empty program: onTick gets exactly the unread message and every live broadcaster calls only nodes that hold it, each of them once, at every moment, if and only if each change of topic is by the sole holder and each tick that subscribes has an arrival, an empty mailbox or a stored message |
| TopicRuns.MailboxOfSoundRuns | behaviortree_ros2/include/behaviortree_ros2/bt_topic_sub_node.hpp:238-324 | As written, over runs whose switches and joins are sound in that sense: unread messages only, own instance only, and no destroyed node is called |
| TopicExact.SwitchIsExact | behaviortree_ros2/include/behaviortree_ros2/bt_topic_sub_node.hpp:298-307 | As written, after a topic change, whether or not the new subscription succeeds, live broadcasters have only nodes that hold them if and only if the node was the sole holder of the old instance |
| TopicExact.SwitchLeaksConnection | behaviortree_ros2/include/behaviortree_ros2/bt_topic_sub_node.hpp:282-301 | Otherwise the old instance stays alive with the node in its slots |
| TopicExact.StaleTopicIsHeard | behaviortree_ros2/include/behaviortree_ros2/bt_topic_sub_node.hpp:178-183 | The next message on the old topic then lands in the node's mailbox |
| TopicExact.JoinIsExact | behaviortree_ros2/include/behaviortree_ros2/bt_topic_sub_node.hpp:275-283 | As written, a tick that subscribes gives onTick the right message if and only if a message comes in during that tick, the node brings an empty mailbox along, or the instance has a stored message |
| TopicTraces.StaleMessageIsReachable | behaviortree_ros2/include/behaviortree_ros2/bt_topic_sub_node.hpp:298-320 | A run from an empty program in which a sole subscriber moves to another topic and onTick gets the message of the old one |
| TopicRuns.LatchRepeatsMessage | behaviortree_ros2/include/behaviortree_ros2/bt_topic_sub_node.hpp:317-323 | Between two ticks without news a latched message is shown again and an unlatched one is not |
| TopicTraces.LeakIsReachable | behaviortree_ros2/include/behaviortree_ros2/bt_topic_sub_node.hpp:298-307 | The leak, from an empty program in three steps |
| TopicReceivers.DestructionIsExact | behaviortree_ros2/include/behaviortree_ros2/bt_topic_sub_node.hpp:106-109 | After a destruction some message on a live instance reaches the destroyed node if and only if another node holds an instance in which the destroyed one has more slots than the one its destructor disconnects |
| TopicReceivers.DestroyedReceiversAreExact | behaviortree_ros2/include/behaviortree_ros2/bt_topic_sub_node.hpp:106-109 | As written, over every run from an empty program: some destruction leaves its node behind in that sense if and only if, from some moment of the run, further ticks alone can call a destroyed node |
| TopicReceivers.NobodyLeftBehind | behaviortree_ros2/include/behaviortree_ros2/bt_topic_sub_node.hpp:282-283 | A run from an empty program that leaves nobody behind calls no destroyed node, however many connections have leaked |
| TopicTraces.UseAfterDestructionIsReachable | behaviortree_ros2/include/behaviortree_ros2/bt_topic_sub_node.hpp:106-109 | A run from an empty program that calls a destroyed node |
| TopicTraces.UseAfterReturnIsReachable | behaviortree_ros2/include/behaviortree_ros2/bt_topic_sub_node.hpp:282-285 | The same for a node that went to another topic and came back: its second slot is disconnected, its first one is called |
| RosTopicSubNodesClass.RosTopicSubNodes.SubscriptionCallback | behaviortree_ros2/include/behaviortree_ros2/bt_topic_sub_node.hpp:178-183 | The message is stored and reaches every slot |
| RosTopicSubNodesClass.RosTopicSubNodes.CreateSubscriber | behaviortree_ros2/include/behaviortree_ros2/bt_topic_sub_node.hpp:238-287 | Refusals without effect; else instance, stored message, one more slot and name as the state machine says |
| RosTopicSubNodesClass.RosTopicSubNodes.ConstructNode | behaviortree_ros2/include/behaviortree_ros2/bt_topic_sub_node.hpp:187-235 | A node with a static topic subscribes at once, or does not come to exist |
| RosTopicSubNodesClass.RosTopicSubNodes.Construct | behaviortree_ros2/include/behaviortree_ros2/bt_topic_sub_node.hpp:187-235 | The choice between port and default name, with the exceptions |
| RosTopicSubNodesClass.RosTopicSubNodes.DestroyNode | behaviortree_ros2/include/behaviortree_ros2/bt_topic_sub_node.hpp:106-109 | The destructor disconnects the slot of the latest connection and no other |
| RosTopicSubNodesClass.RosTopicSubNodes.ProcessMessage | behaviortree_ros2/include/behaviortree_ros2/bt_topic_sub_node.hpp:318-322 | onTick gets the mailbox; it is emptied unless latched or the verdict was invalid |
| RosTopicSubNodesClass.RosTopicSubNodes.TickNode | behaviortree_ros2/include/behaviortree_ros2/bt_topic_sub_node.hpp:290-324 | The whole of tick equals the function the properties are proved about |
| ServiceRuns.OwnershipFromStart | behaviortree_ros2/include/behaviortree_ros2/bt_service_node.hpp:351-418 | Over every run, with any callbacks: onResponseReceived only gets the reply to the request of the current activation, with its own body |
| ServiceRuns.LateReplyIsInvisible | behaviortree_ros2/include/behaviortree_ros2/bt_service_node.hpp:355-356 | A reply to any request but the pending one changes nothing the node will ever do or call |
| ServiceRuns.OneResponsePerActivation | behaviortree_ros2/include/behaviortree_ros2/bt_service_node.hpp:384-418 | At most one onResponseReceived per activation if it returns SUCCESS or FAILURE |
| ServiceRuns.RepeatedResponseIsExact | behaviortree_ros2/include/behaviortree_ros2/bt_service_node.hpp:418 | The next tick shows the response again if and only if the verdict was neither |
| ServiceRuns.TickRefinesHistory | behaviortree_ros2/include/behaviortree_ros2/bt_service_node.hpp:379-418 | In every reachable state with a pending request a tick does what the events say: reply, else timeout, else wait |
| ServiceRuns.BoundedWaiting | behaviortree_ros2/include/behaviortree_ros2/bt_service_node.hpp:387-402 | With ticks at least a gap apart, the time left until the timeout bounds the ticks still to come |
| ServiceLaws.TimeoutIsExact | behaviortree_ros2/include/behaviortree_ros2/bt_service_node.hpp:376-402 | Over runs, counted from the tick that sends: an activation that still waits reports SERVICE_TIMEOUT at a tick if and only if no reply is in by then and the time passed since exceeds the timeout |
| ServiceLaws.RequestGoesToClient | behaviortree_ros2/include/behaviortree_ros2/bt_service_node.hpp:325-335 | Requests are sent by first ticks only, to the name in the port if there was no client or the name is read at each start and differs, else to the client the node had |
| ServiceLaws.RequestsFollowPort | behaviortree_ros2/include/behaviortree_ros2/bt_service_node.hpp:325-335 | Over every run from a new node in which renames succeed: a node with a blackboard port sends to the service its port names at that tick, any other to the client it has |
| ServiceLaws.ClientAfterStep | behaviortree_ros2/include/behaviortree_ros2/bt_service_node.hpp:307-339 | Which client and name a node has after each step |
| ServiceLaws.ConstructorChoice | behaviortree_ros2/include/behaviortree_ros2/bt_service_node.hpp:231-262 | As for actions, and a placeholder name throws |
| ServiceLaws.FirstTick | behaviortree_ros2/include/behaviortree_ros2/bt_service_node.hpp:351-377 | The calls, error codes and status of the first tick in each of its four cases |
| ServiceLaws.ShutdownAndHalt | behaviortree_ros2/include/behaviortree_ros2/bt_service_node.hpp:316-320 | After shutdown a tick calls nothing and ends with FAILURE; a halt leaves IDLE and calls nothing |
| ServiceLaws.ResponseVerdictIsTaken | behaviortree_ros2/include/behaviortree_ros2/bt_service_node.hpp:341-349 | For any callbacks: SUCCESS or FAILURE becomes the status, any other verdict throws and leaves RUNNING |
| ServiceRuns.NullResponseIsShown | behaviortree_ros2/include/behaviortree_ros2/bt_service_node.hpp:404-418 | A null response throws once; a further tick hands it to onResponseReceived |
| ServiceRuns.NullIsShownOnlyAfterThrow | behaviortree_ros2/include/behaviortree_ros2/bt_service_node.hpp:404-418 | Conversely, over every run from a new node: a null response is shown only if an earlier tick of the same activation has thrown on it |
| RosServiceNodeClass.RosServiceNode.SpinUntilFutureComplete | behaviortree_ros2/include/behaviortree_ros2/bt_service_node.hpp:390-391 | Replies up to the one of the pending request |
| RosServiceNodeClass.RosServiceNode.Construct | behaviortree_ros2/include/behaviortree_ros2/bt_service_node.hpp:231-262 | The three cases of port and default name, and the exception of createClient |
| RosServiceNodeClass.RosServiceNode.Halt | behaviortree_ros2/include/behaviortree_ros2/bt_service_node.hpp:424-430 | Only the status is reset |
| RosServiceNodeClass.RosServiceNode.CreateClient | behaviortree_ros2/include/behaviortree_ros2/bt_service_node.hpp:265-304 | Also refuses the placeholder name |
| RosServiceNodeClass.RosServiceNode.SetServiceName | behaviortree_ros2/include/behaviortree_ros2/bt_service_node.hpp:307-311 | The name changes even when createClient throws, which it does exactly for an empty or placeholder name or a missing ROS node |
| RosServiceNodeClass.RosServiceNode.EnsureClient | behaviortree_ros2/include/behaviortree_ros2/bt_service_node.hpp:325-339 | The check of client and port at the start of a tick |
| RosServiceNodeClass.RosServiceNode.Activate | behaviortree_ros2/include/behaviortree_ros2/bt_service_node.hpp:351-377 | The first tick of an activation equals the function the properties are proved about |
| RosServiceNodeClass.RosServiceNode.Continue | behaviortree_ros2/include/behaviortree_ros2/bt_service_node.hpp:379-419 | A running tick, likewise |
| RosServiceNodeClass.RosServiceNode.Tick | behaviortree_ros2/include/behaviortree_ros2/bt_service_node.hpp:314-421 | The whole of tick, likewise |
| TreeServerRuns.ExactlyOneTerminal | behaviortree_ros2/src/tree_execution_server.cpp:176-297 | A call of execute that returns has made exactly one terminal call, from a goal state that permits it; one that does not return has made none; for cancels accepted during any call, between calls, and between a throw and the abort |
| TreeServerLaws.ExecuteIsExact | behaviortree_ros2/src/tree_execution_server.cpp:176-297 | For every script of ticks, hooks, exceptions and cancels: statuses, feedback, halts, completion hook, exit and terminal call are those of a closed form that finds the ending iteration by index |
| TreeServerLaws.TicksStartedIsExact | behaviortree_ros2/src/tree_execution_server.cpp:228-261 | The number of ticks started: one per iteration that goes on, and one in the ending iteration unless a cancel, a shutdown or the loop condition ends it first |
| TreeServerLaws.CompletionStatus | behaviortree_ros2/src/tree_execution_server.cpp:212-245 | The status given to the completion hook and put in the result: the verdict of onLoopAfterTick in the last iteration after its stop, RUNNING after a cancel, else that of the last tick |
| TreeServerRuns.ContainedReturns | behaviortree_ros2/src/tree_execution_server.cpp:263-269 | execute never lets an exception escape unless registration, the hook after the loop, or something that is no std::exception throws |
| TreeServerRuns.CancelLatency | behaviortree_ros2/src/tree_execution_server.cpp:228-238 | At most one more tick finishes after a cancel has been accepted, wherever it arrives |
| TreeServerRuns.CancelledBeforeStart | behaviortree_ros2/src/tree_execution_server.cpp:230-235 | None at all for a goal cancelled before its thread starts |
| TreeServerRuns.CompletionHook | behaviortree_ros2/src/tree_execution_server.cpp:212-226 | Without an exception the completion hook runs exactly once, its flag is true exactly for a cancel or a stop by onLoopAfterTick, and status and message of the result are those it was given and returned |
| TreeServerRuns.OutcomeAgreement | behaviortree_ros2/src/tree_execution_server.cpp:230-296 | canceled implies a halted tree and status RUNNING; succeed implies that the last tick returned SUCCESS and nothing stopped the loop |
| TreeServerRuns.StartsFollowSchedule | behaviortree_ros2/src/tree_execution_server.cpp:208-261 | The tick start times of execute are those of the schedule |
| TreeServerRuns.DeadlineIsAbsolute | behaviortree_ros2/src/tree_execution_server.cpp:208 | loop_deadline stays on the grid t0 + (n + 1) P however ticks and sleeps go |
| TreeServerRuns.TickRate | behaviortree_ros2/src/bt_executor_parameters.yaml:8-16 | For every permitted frequency, ticks in a span exceed span / P + 1 by at most the early wake-ups |
| RateLoop.ClosedForm | behaviortree_ros2/src/tree_execution_server.cpp:254-260 | Without early wake-ups tick k starts at the largest t0 + j P + work of ticks j to k-1 |
| RateLoop.NoDrift | behaviortree_ros2/src/tree_execution_server.cpp:254-260 | No tick before its time, and no drift while every tick fits in its period |
| RateLoop.LatenessOverRuns | behaviortree_ros2/src/tree_execution_server.cpp:254-260 | Over any stretch of ticks without early wake-ups, lateness is the largest of the lateness before plus the excess work of the stretch, and of the excess work of each of its ends |
| RateLoop.OverrunIsRepaid | behaviortree_ros2/src/tree_execution_server.cpp:254-260 | While ticks fit their periods, lateness is max(0, lateness before minus the slack of the ticks): the schedule is met again if and only if the slack covers the overrun |
| RateLoop.LatenessStep | behaviortree_ros2/src/tree_execution_server.cpp:254-260 | One iteration: lateness is max(0, lateness + work - P), and while late the next tick starts at once |
| RateLoop.EarlyWakeBound | behaviortree_ros2/src/tree_execution_server.cpp:255-259 | A tick comes early by at most one period per early wake-up in a row before it; only an iteration that ends before its deadline counts as one |
| RateLoop.TickBudget | behaviortree_ros2/src/tree_execution_server.cpp:254-260 | Ticks in a span exceed span / P + 1 by at most the early wake-ups, counted in the same way |
| RateLoop.PeriodBounds | behaviortree_ros2/src/tree_execution_server.cpp:206-207 | For f in 1..1000: P at least 1, P f <= 1000 < (P + 1) f, nominal rate in [f, 2 f) |
| RateLoop.PeriodIsQuotient | behaviortree_ros2/src/tree_execution_server.cpp:206-207 | The cast of the quotient is integer division |
| TreeExecutionServerClass.TreeExecutionServer.ReceiveCancel | behaviortree_ros2/src/tree_execution_server.cpp:151-162 | A cancel is accepted exactly while the goal is active |
| TreeExecutionServerClass.TreeExecutionServer.StopAction | behaviortree_ros2/src/tree_execution_server.cpp:212-226 | stop_action and the call on the goal handle |
| TreeExecutionServerClass.TreeExecutionServer.Iterate | behaviortree_ros2/src/tree_execution_server.cpp:230-252 | One iteration up to the reading of the clock |
| TreeExecutionServerClass.TreeExecutionServer.TickLoop | behaviortree_ros2/src/tree_execution_server.cpp:205-261 | The while loop: outcome, number of ticks, and their start times |
| TreeExecutionServerClass.TreeExecutionServer.Execute | behaviortree_ros2/src/tree_execution_server.cpp:176-297 | The whole of execute, with tree, name, payload and start times |
| ServerThreads.SerialisedExecution | behaviortree_ros2/src/tree_execution_server.cpp:164-174 | Over every interleaving: at most one execute at a time, goals in order of acceptance, none lost or repeated, and a running goal sees its own tree, name and payload |
| ServerThreads.AcceptedGoalsFinish | behaviortree_ros2/src/tree_execution_server.cpp:164-174 | Every run can be continued, with no further goal, until each accepted goal has had its thread, in order, and has run to its end |
| ServerThreads.JoinIsExact | behaviortree_ros2/src/tree_execution_server.cpp:168-171 | In every reachable state a waiting accept callback gets past join if and only if every thread so far has exited |
| ServerThreads.SpawnStartsGoal | behaviortree_ros2/src/tree_execution_server.cpp:172-173 | Then its goal gets a thread after all others, and the acceptor is free |
| ServerThreads.AcceptIsExact | behaviortree_ros2/src/tree_execution_server.cpp:164-166 | A goal is accepted if and only if no accept callback is running |
| ServerThreads.WorkerComesToLoop | behaviortree_ros2/src/tree_execution_server.cpp:195-197 | A worker whose createTree does not throw comes to its loop with its own tree, name and payload, then exits |
| ServerThreads.FailingWorkerTouchesNothing | behaviortree_ros2/src/tree_execution_server.cpp:195-197 | When createTree throws, tree, name and payload of the server are as before |
| ServerThreads.AssigningOverThreadTerminates | behaviortree_ros2/src/tree_execution_server.cpp:168-173 | Why the join is there: assigning over a joinable thread ends the process |

## Left out

- rclcpp, rclcpp_action, Boost signals and BehaviorTree.CPP: represented by deliveries, readiness and time as inputs; calls into them are taken not to throw, so an `async_get_result` or `async_cancel_goal` that refuses an unknown goal handle is not modelled.
- Callback arguments: goal, feedback and request contents do not influence the wrappers and are not modelled; user callbacks are represented by their verdicts.
- The tie between a node machine and the registry: `RosActionNode` and `RosServiceNode` keep only the name their client was made for; the sharing of instances is proved separately, over histories of createClient calls. `RosTopicSubNode` uses the registry directly.
- ClientRegistryClass.ClientRegistry.CreateClient: does not model the placeholder name that only the service refuses, nor the wait for the server, whose outcome nobody reads.
- RosTopicSubNodesClass.RosTopicSubNodes.TickNode: objects are identified by ids and their members kept in maps, so C++ object identity and aliasing are represented by equality of ids.
- ActionOwnership.CleanStartIsExact: does not model that a goal belongs to the client it was sent with; after a rename by the sole holder the messages of older goals can no longer come, so for starts after such a rename the violating run is one of the model only.
- ActionFeedback.LoneStartIsExact: the same.
- RosActionNodeClass.RosActionNode.CreateClient: does not model the registry key and the shared instance, which module Registry covers for histories of such calls.
- RosServiceNodeClass.RosServiceNode.CreateClient: the same.
- TreeExecutionServerClass.TreeExecutionServer.Execute: publishing feedback and calls on the goal handle are taken not to throw; the watched part of the loop is a finite sequence of iterations, as long as one likes.
- The loss of precision of `Duration::from_seconds` and of `1000.0 / f` in floating point: timeouts are exact nanoseconds, the period is the floor of a real quotient.
- `handle_accepted` is modelled as interleaved steps, not as a method, because it blocks in join while workers run; registration that throws in a worker ends the process and is not a step there.
- `RosTopicPubNode`, plugin and XML loading, Groot2 publishing, loggers, message texts of errors, `toStr` and `ConvertNodeStatus`: no property beyond reading one body.
- Server shutdown and signal handling beyond the `rclcpp::ok()` flag, mutexes and actual blocking: decided by the platform.
