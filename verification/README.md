# A verified model of ProtoCore

ProtoCore is a message-passing runtime: tasks with priority queues backed by fixed memory pools, a
broker that fans messages out to subscribers, a state manager that moves all tasks from state to state
and waits for their acknowledgments, and a heartbeat task that finds the unresponsive ones. This project
models those parts in Dafny and proves what they promise together. `dafny verify dfyconfig.toml` checks
everything.

## How it is built

Each component that updates fields in place is a class whose methods are proved against specification
functions (`MemoryPool.Pool`, `MessageQueue.Queue`, `Broker.Broker`, `StateManager.StateManager`,
`HeartBeat.HeartBeatTask`, `TaskLoop.Task`). What holds over whole runs is proved on step systems whose
steps are made of the same functions (`Deliver`, `RecordAck`, `Registered`, `MarkedRecords`, `Order`,
`Answer`, `Checked`, `Sent`, `Acked`), with one step for each critical section or each atomic access.

| file | content |
|---|---|
| `Sequences.dfy` | filtering and removal on sequences |
| `Messages.dfy` | messages, types, priorities, task states |
| `StableQueue.dfy` | the queue a task sees: the earliest of the highest-priority messages |
| `MemoryPool.dfy` | the block allocator, down to the bytes of its links |
| `NodeHeap.dfy` | the node comparator, `push_heap` and `pop_heap`, and when 32-bit numbers stand for arrival order |
| `MessageQueue.dfy` | the queue class: a heap of pointers into a pool |
| `ConcurrentQueue.dfy` | every interleaving of producers and consumers |
| `Broker.dfy`, `Broadcast.dfy` | the broker class; runs in which fan-outs, direct deliveries, dequeues and expiry interleave |
| `StateManager.dfy`, `Agreement.dfy` | the manager class; runs of the state protocol with real queues |
| `Channels.dfy`, `Demands.dfy` | the protocol's fields and queues from the history of a run; what a demand's result says |
| `Ports.dfy`, `HeapRuns.dfy` | broadcast and state protocol over heaps with wrapping numbers |
| `HeartBeat.dfy`, `HeartBeatRuns.dfy` | the heartbeat class; runs of the failure detector |
| `TaskLoop.dfy` | answering system messages; a task's two threads against the thread that stops them |

The main results:

- **Queue.** The heap, its wrapping 32-bit sequence number and the pool underneath refine a stable
  priority queue. Wrap-around can break first-in-first-out order, and the exact condition is proved: an
  enqueue keeps the order if and only if the counter is above the number of every waiting message of the
  same priority (`ServiceOrder.EnqueueStableIff`), and a whole run of producers and consumers stays stable
  if and only if each of its pushes meets that (`ConcurrentQueue.StableRunIff`). It always holds within
  2^32 pushes of a reset; `ConcurrentQueue.WrapOvertakes` gives a run past that bound in which a newcomer
  overtakes.
- **Memory.** Following the in-block links visits the free blocks once each and ends in null. For every
  pointer that `deallocate` lets through, aligned or not, allocation afterwards hands out ranges that stay in
  the pool and overlap neither each other nor a block still in use if and only if the pointer was the address
  of a block in use (`MemoryPool.DeallocateIsSafeIff`). In every interleaving each block is in exactly one
  place.
- **Broadcast.** A fan-out is not atomic: direct deliveries, dequeues and expiry fall between its
  deliveries. Still, of each priority, what a task has handled is a prefix of the publications that reached
  it, any two tasks agree on the order of those that reached both, and each is there exactly once. Direct
  deliveries are neither lost nor repeated and keep their place among everything that arrives. The order
  holds over heaps with wrapping numbers too, as long as no queue takes more than 2^32 messages between two
  resets of its counter (`HeapBroadcast.TotalOrder`).
- **State agreement.** The manager writes records without an acknowledgment in two places, registration and
  marking, and marking delivers its message before it writes its record. Agreement of record, state and last
  StateMsg at quiescence holds throughout a run, however late any of its steps comes, if and only if every
  such write writes the state that was last sent to its task (`Agreement.AgreementIff`); a run in which a
  split marking breaks it is given. Once sending stops the protocol settles in a bounded number of steps,
  and a demand whose own StateMsg was the last one sent then succeeds, and after it the next. A true return can
  be stale; when it is not is stated exactly, and a run with a stale one is given. Each state sent to a task is
  heard back from it once and in order, or is still on its way (`Channels.SentComesBack`).
- **Failure detection.** No task is marked early, every silent task is marked exactly once and in time,
  the books balance, and an ack for an old heartbeat clears a newer wait if and only if the two are a
  multiple of 2^32 heartbeats apart.
- **Running and stopping.** Every message enqueued is begun once or still waits, the earliest of the highest
  priority first, and a running thread comes to the next one. At most one more message is begun after stop, and the queue thread and the periodic thread
  each end within three steps of the shutdown notice, so that both joins go through.

Modelling decisions:

- A task is identified by a number that is never reused; liveness of its object is a set that expiry
  shrinks. Clock readings, the address of a pool and a node's object representation are parameters.
- A task state is any byte, because the code casts the byte of a message to a state without a check.
- `UserMsg` stands for the rows that a system adds to the message table, with any type and priority.
- Waiting on a condition variable is a guard: `Dequeue` is called when a message is there or the queue is
  shutting down, `TryDequeue` when the timed wait is over.
- A publication begins, visits one list entry at a time, and ends. Meanwhile the broker's mutex excludes
  other publications and subscriptions and nothing else.
- In the state protocol a StateMsg may go to any set of tasks in one step, so that a fan-out is any number
  of steps. The two effects of marking a task as unresponsive are two steps, each access to the manager's
  records is atomic, and the scan for completion is one step.
- The heap algorithms are written out as sift-up and sift-down with the contracts of section 28.7.7
  [alg.heap.operations] of ISO/IEC 14882:2017.

Where the code and its documentation differ, the model follows the code: `register_task` records
NOT_STARTED (its header says IDLE), `dequeue` drains waiting messages before it returns empty after a
shutdown notice, and `transition_to_state` accepts every state without validation.

## Model

| member | source | states |
|---|---|---|
| StableQueue.Pick | include/message_queue.h:124-137 | the message to serve has the highest priority, and every earlier one has a strictly lower priority |
| StableQueue.TakeIsFifo | include/message_queue.h:124-137 | within any class of messages of one priority, removal takes from the front and otherwise changes nothing |
| StableQueue.PickServesByKind | include/msg/msg_variant_types_default.h:24-26 | the message to serve, said of the kinds: the earliest StateMsg if there is one, else the earliest StateAckMsg, else HeartbeatMsg, else HeartbeatAckMsg, with a system's own rows between them by their priorities |
| StableQueue.MovesInOrder | src/message_queue.cpp:28-72 | arrivals at the end and removals of the message to serve keep that, of each priority, what was taken and then what waits is what arrived, in order |
| Messages.TypeIsKind | include/msg/msg.h:145-150 | two messages have one type if and only if they hold the same alternative |
| StableQueue.DrainPermutes | src/message_queue.cpp:45-72 | draining delivers exactly the waiting messages |
| StableQueue.DrainSorted | src/message_queue.cpp:45-72 | draining delivers in non-increasing priority |
| StableQueue.DrainStable | src/message_queue.cpp:45-72 | draining keeps arrival order within every single-priority class |
| StableQueue.ShutdownDrain | src/message_queue.cpp:45-72 | after shutdown with n waiting, the first n dequeues deliver the drain order and every later one is empty |
| MemoryPool.PointerRoundTrip | src/memory_pool.cpp:36-40 | a pointer written as bytes reads back unchanged, for every pointer that fits |
| MemoryPool.StoreElsewhere | src/memory_pool.cpp:36-40 | a write inside one block changes no byte and no link of any other block |
| MemoryPool.ChainSurvivesStore | src/memory_pool.cpp:45-62 | whatever the owner writes into an outstanding block, the free list stays as it was |
| MemoryPool.ChainPop | src/memory_pool.cpp:49-61 | a non-empty list's head lies inside the pool and the link found there leads to the rest of the list |
| MemoryPool.ChainPush | src/memory_pool.cpp:64-78 | linking an outstanding block in front gives the list with that block first |
| MemoryPool.NoChainAroundALoop | src/memory_pool.cpp:64-78 | a walk that starts on a loop of links is no free list |
| MemoryPool.DeallocateIsSoundIff | src/memory_pool.cpp:64-78 | for every pointer in the range that the assertion accepts, the links from it stay on block addresses and end in null afterwards if and only if it was the address of a block in use |
| MemoryPool.DeallocateIsSafeIff | src/memory_pool.cpp:45-78 | for every such pointer, aligned or not, all that allocation hands out afterwards stays in the pool and overlaps neither itself nor a block still in use if and only if it was the address of a block in use |
| MemoryPool.MisalignedOverlaps | src/memory_pool.cpp:45-78 | a deallocated pointer into the middle of a block comes out first and overlaps a block in use or one handed out later, or runs out of the pool |
| MemoryPool.DoubleFreeRepeats | src/memory_pool.cpp:45-78 | a block deallocated while free is handed out twice |
| MemoryPool.PoolDrain | src/memory_pool.cpp:45-62 | n allocations read off the raw bytes return the free blocks' addresses in list order and then only null |
| MemoryPool.DrainPool | src/memory_pool.cpp:45-62 | n calls of allocate return the free blocks' addresses in list order and then only null, and use up that much of the list |
| MemoryPool.DrainedRangesApart | src/memory_pool.cpp:45-62 | whatever number of blocks is handed out, each lies inside the pool and overlaps neither another one nor a block in use |
| MemoryPool.Pool.constructor | src/memory_pool.cpp:11-41 | the new pool's links visit every block once in address order and end in null |
| MemoryPool.Pool.ThreadBlocks | src/memory_pool.cpp:32-40 | each block's bytes hold the address of the next block, the last block's hold null |
| MemoryPool.Pool.Allocate | src/memory_pool.cpp:45-62 | returns the first free block and leaves the rest, or null when none is free; the list stays well-formed |
| MemoryPool.Pool.Deallocate | src/memory_pool.cpp:64-78 | writes the old head at the pointer; a block in use comes first in a well-formed list; the links stay on block addresses and end in null, and what allocation hands out stays apart, if and only if the pointer was the address of a block in use |
| NodeHeap.RootServedFirst | include/message_queue.h:124-137 | in a heap of any size no node is served before the root |
| NodeHeap.PushHeap | src/message_queue.cpp:39-40 | from a heap plus one appended pointer, a heap of the same pointers |
| NodeHeap.PopHeap | src/message_queue.cpp:57-59 | the old root is last, the others form a heap, the pointers are the same |
| ServiceOrder.OrderedServesStably | include/message_queue.h:124-137 | while numbers stand for arrival, the one node that can be at the root is the stable choice |
| ServiceOrder.StableIffInOrder | include/message_queue.h:124-137 | every heap of these nodes empties in stable order if and only if numbers increase with arrival within each priority |
| ServiceOrder.EnqueueStableIff | src/message_queue.cpp:35-41 | an enqueue keeps stable order if and only if the counter exceeds every waiting number of that priority |
| MessageQueue.Queue.constructor | src/message_queue.cpp:10-14 | an empty queue over a pool with one block for each message |
| MessageQueue.Queue.Enqueue | src/message_queue.cpp:28-43 | the message joins at the end of the arrivals with the current number, the number advances modulo 2^32, blocks stay partitioned and untouched, and arrival order stays readable from the numbers exactly if the counter has not wrapped behind a waiting equal |
| MessageQueue.Queue.Construct | src/message_queue.cpp:35-37 | the node's bytes fill its block and every other block in use keeps its bytes |
| MessageQueue.Queue.Dequeue | src/message_queue.cpp:45-72 | removes a node the comparator allows first; while numbers stand for arrival it is the stable choice, a StateMsg before its acknowledgments, those before heartbeats and those before their acknowledgments; empty after shutdown; the number is zeroed exactly when the queue is left empty |
| MessageQueue.Queue.TryDequeue | src/message_queue.cpp:74-91 | as Dequeue, or empty on timeout, and never zeroes the number |
| MessageQueue.Queue.IsEmpty | src/message_queue.cpp:93-97 | true exactly when no message waits |
| MessageQueue.Queue.Destroy | src/message_queue.cpp:16-26 | every block of the pool is free again |
| MessageQueue.DrainQueue | src/message_queue.cpp:45-72 | after the shutdown notice, n calls of dequeue deliver the waiting messages in drain order and then only empty |
| ConcurrentQueue.Conservation | src/message_queue.cpp:31-69 | in every interleaving each block is in exactly one of free list, a producer's hand, heap, a consumer's hand, and the four counts add up to the pool |
| ConcurrentQueue.MessagesConserved | src/message_queue.cpp:28-91 | in every interleaving the messages that producers brought are, each once, on their way in, in the queue, or handed to a consumer |
| ConcurrentQueue.LastReleasedIsNext | src/memory_pool.cpp:45-78 | the block released last is the next one allocated |
| ConcurrentQueue.NumberCountsPushes | src/message_queue.cpp:35-69 | the number is, modulo 2^32, the count of push steps since the last blocking dequeue that left the queue empty or found it empty |
| ConcurrentQueue.Refinement | src/message_queue.cpp:28-91 | in every interleaving with at most 2^32 push steps between two such dequeues, each push appends, each pop delivers the stable choice, and no other step changes the contents |
| ConcurrentQueue.NumberedFits | src/message_queue.cpp:35-41 | within that bound the counter is above every waiting number |
| ConcurrentQueue.StableRunIff | src/message_queue.cpp:28-91 | every state of a run empties in stable order if and only if every push of the run finds the counter above the waiting numbers of its priority |
| ConcurrentQueue.WrapOvertakes | src/message_queue.cpp:28-91 | a run from the empty queue, past 2^32 pushes without a reset, that ends in a pop of a newcomer before an older message of its priority |
| Broker.FanOutOnce | include/broker.h:72-84 | a fan-out over distinct subscribers adds one copy at the end of each one's queue and nothing elsewhere |
| Broker.LiveNoDuplicates | include/broker.h:71-84 | pruning keeps lists free of duplicates |
| Broker.Broker.Publish | include/broker.h:61-85 | the erase-while-iterating loop ends with exactly the live entries in order, one copy delivered to each live subscriber and none elsewhere |
| Broker.Broker.Subscribe | include/broker.h:92-112 | the list gains the task unless it is there already; no list ever names a task twice |
| Broadcast.FanKept | include/broker.h:72-84 | every step keeps lists without duplicates, and a publication in progress has reached exactly the entries before its position |
| Broadcast.UninterruptedPublish | include/broker.h:61-85 | with nothing in between, the visits leave the live entries and one copy in each live subscriber's queue |
| Broadcast.InOrderKept | include/broker.h:61-128 | every step keeps that, of each priority, what a task handled and then what waits in its queue is what has reached it, in publication order |
| Broadcast.HandledIsPrefix | include/broker.h:61-85 | in every run, what a task has handled of one priority is a prefix of the publications that have reached it |
| Broadcast.HandledAsArrived | include/broker.h:61-128 | in every run, of each priority, what a task handled and then what waits is all that arrived at it, published or direct, in order of arrival |
| Broadcast.DirectsKept | include/broker.h:122-128 | in every run a task has handled or still holds each direct delivery exactly as often as it was made |
| Broadcast.LiveIff | include/broker.h:74-82 | a task counts as alive if and only if it was created and has not expired since |
| Broadcast.FanIff | include/broker.h:63 | a publication keeps others out from its begin to its end and no longer |
| Broadcast.LogIsBegun | include/broker.h:61-66 | the order of publication is the order in which publications were begun |
| Broadcast.TotalOrder | include/broker.h:61-128 | in every run, whatever falls between the deliveries of a fan-out, two tasks have handled the publications of one priority that reached both in one order: one of the two lists is a prefix of the other |
| Broadcast.ExactlyOnce | include/broker.h:61-85 | in every run a task's queue and history together hold a publication once if it has reached the task and never otherwise |
| Broadcast.SubscribersReached | include/broker.h:61-85 | a publication that ends has reached every task that subscribed to its type before it and lived until then |
| Broadcast.OnlySubscribersReached | include/broker.h:61-112 | whomever it has reached was alive when visited and had subscribed to its type before it began |
| Broadcast.OtherKindsMissed | include/broker.h:66-71 | a publication reaches no task that subscribed only to other kinds of message |
| Ports.InStepKept | src/message_queue.cpp:35-72 | within 2^32 pushes since the last reset, arrivals, removals and resets keep a queue's numbers in arrival order |
| Ports.ServesStably | include/message_queue.h:124-137 | and then whatever the heap may serve is the earliest of the highest priority |
| HeapBroadcast.Refines | include/broker.h:61-128 | within that bound every state of the broadcast system over heaps is reached by the system over stable queues |
| HeapBroadcast.TotalOrder | include/broker.h:61-128 | within that bound, whatever the heaps serve, two tasks handle the publications of one priority that reached both in one order |
| StateManager.StateManager.RegisterTask | src/state_manager.cpp:13-26 | the record becomes NOT_STARTED, other records stay, the observer monitors the task unless it is itself, and no heartbeat status is reset |
| StateManager.StateManager.AllTasksInState | src/state_manager.cpp:182-192 | true if and only if every record equals the state |
| StateManager.StateManager.Lookup | src/state_manager.cpp:135-150 | finds the sender exactly if it is registered |
| StateManager.StateManager.HandleAcknowledgment | src/state_manager.cpp:125-180 | records the state of a registered sender and nothing else, and notifies if and only if all records then equal the target |
| Agreement.ObedientKept | src/task.cpp:59-65 | every step keeps that the last StateMsg under way to a task, or else its state, is the last one sent to it |
| Agreement.AckCurrentKept | src/task.cpp:59-65 | every step keeps that the last acknowledgment under way from a task carries its state |
| Agreement.RecordCurrentKept | src/state_manager.cpp:125-161 | every step with timely overwrites keeps that a quiescent task's record is its state |
| Agreement.RestsInLastOrder | src/task.cpp:59-65 | in every run a task with no StateMsg pending is in the last state that was sent to it |
| Agreement.QuiescentAgreement | src/state_manager.cpp:103-161 | if each registration finds nothing but NOT_STARTED sent and each marking writes while ERROR is the last state sent, record, state and last StateMsg of a quiescent registered task are equal |
| Agreement.LateWriteIff | src/state_manager.cpp:13-16 | a pending write of a record finds its task busy or in the written state, after any further steps of the threads, if and only if it writes the state last sent to the task |
| Agreement.AgreementIff | src/state_manager.cpp:103-207 | agreement at quiescence holds throughout a run, however late any of its steps comes, if and only if every registration and every marking writes the state last sent to its task |
| Agreement.ConformingRunsAgree | src/state_manager.cpp:13-207 | agreement at quiescence holds in every run in which tasks are registered before a state is sent to them and no StateMsg falls between the two halves of a marking |
| Agreement.SplitMarkingDisagrees | src/state_manager.cpp:194-207 | a run, with registration before any sending, in which a marking writes late and the quiescent record is wrong |
| Channels.SentComesBack | src/task.cpp:59-65 | in every run the states sent to a task are, in order and once each, those the manager has heard from it, then those acknowledged and under way, entered, and still to be applied |
| Channels.TakenAsPut | src/task.cpp:80-90 | in every run every queue of the protocol has given out or still holds exactly what was put into it, and of each priority in order |
| Channels.AwaitedIff | src/state_manager.cpp:33-66 | a demand is waited for if and only if it was made and has not returned since |
| Channels.MarkingIff | src/state_manager.cpp:194-207 | a marking is in progress if and only if it has delivered its message and not yet written its record |
| Channels.BooksFollow | src/state_manager.cpp:36-41 | the target is the state of the last demand; the tasks marked are those whose marking has written its record |
| Channels.RecordIsLastWritten | src/state_manager.cpp:13-207 | a record is the last state that a registration, a marking or an acknowledgment of a registered task wrote, and there is none before the first |
| Channels.AppliedIff | src/task.cpp:59-65 | the states a task has applied are those it entered in a step of its own |
| HeapAgreement.Refines | src/task.cpp:80-90 | within 2^32 messages per queue between resets, every run of the state protocol over heaps is a run over stable queues with the same protocol steps |
| HeapAgreement.QuiescentAgreement | src/state_manager.cpp:103-161 | within that bound, whatever the heaps serve, matching writes give agreement of record, state and last StateMsg at quiescence |
| Demands.DemandSound | src/state_manager.cpp:33-66 | when a demand returns true every registered task's record is the demanded state, and the task itself applied it unless it is the registration value or a marking's ERROR |
| Demands.StoppedIsNotError | include/task/task_state.h:16-23 | when a demand of STOPPED returns true no registered task is recorded in any other of the five states |
| Demands.ReturnIsFresh | src/state_manager.cpp:33-66 | at a true return, a task that was never marked, was registered before any sending and owes no publication is in the demanded state if and only if its newest acknowledgment under way, if any, carries it |
| Demands.StaleReturn | src/state_manager.cpp:33-66 | a run, with an unmarked task registered first and the demand's own StateMsg sent last, in which the demand may return true while the task is in another state |
| Demands.CompletionSignalled | src/state_manager.cpp:160-179 | a waiting demand is notified exactly by the acknowledgments of registered tasks after which all records show the awaited state; only registration or marking completes it silently |
| Demands.TargetIsAwaited | src/state_manager.cpp:38-46 | with one demander at a time the target is the awaited state throughout the wait |
| Agreement.Convergence | src/task.cpp:80-90 | once nothing new is sent, the number of remaining steps is bounded by the work under way |
| Agreement.SettledIsQuiescent | src/state_manager.cpp:112-161 | when no step is left every task is quiescent |
| Agreement.Settle | src/task.cpp:80-90 | from every state the threads' own steps lead to a state in which no step is left |
| Demands.DemandSucceeds | src/state_manager.cpp:33-66 | if a demand's own StateMsg is the last one sent to every registered task, then wherever the threads come to rest the demand may return true and every registered task is in the demanded state |
| Demands.DemandRound | src/state_manager.cpp:33-66 | from every state of a run with matching writes and no demand in progress, a demand can be made that returns true with every registered task in its state, and then another can |
| Demands.TwoDemands | src/state_manager.cpp:67-101 | a run in which two demands, of any two states, both return true |
| HeartBeat.ExpiredIff | src/heart_beat.cpp:89-94 | the truncated strict comparison holds if and only if at least timeout + 1 ms passed while awaiting |
| HeartBeat.HeartBeatTask.NotifyTaskRegistered | src/heart_beat.cpp:12-26 | monitors the task unless it is the heartbeat task; known tasks keep their status |
| HeartBeat.HeartBeatTask.CheckForTimeouts | src/heart_beat.cpp:82-105 | marks exactly the overdue tasks, once each and only with a manager, and clears exactly their waits |
| HeartBeat.HeartBeatTask.SendHeartbeat | src/heart_beat.cpp:107-133 | every task that awaits nothing gets one heartbeat with the next consecutive number and remembers exactly that one; the others are untouched |
| HeartBeat.HeartBeatTask.PeriodicTaskProcess | src/heart_beat.cpp:66-75 | exactly the overdue are marked and cleared; in RUNNING everyone left without a wait, the marked included, then gets one consecutively numbered heartbeat that its status remembers, and all owe an ack; otherwise nothing is sent |
| HeartBeat.HeartBeatTask.HandleAcknowledgment | src/heart_beat.cpp:135-157 | only the sender's status changes, and only for the id of its last heartbeat |
| HeartBeatRuns.SameIdIff | src/heart_beat.cpp:77-80 | two heartbeats share an id if and only if they are a multiple of 2^32 apart |
| HeartBeatRuns.HeartbeatNumber | src/heart_beat.cpp:77-80 | each heartbeat of a run carries the number that the class's counter, first 1, has reached after the heartbeats before it |
| HeartBeatRuns.HeartbeatLedger | src/heart_beat.cpp:101-130 | counted over the steps of every run, heartbeats sent = acks that ended a wait + checks that gave one up + the one outstanding |
| HeartBeatRuns.ResponseIsLastHeard | src/heart_beat.cpp:19-155 | a status keeps the time of the task's first observed registration or of the last ack for its last heartbeat, and no other |
| HeartBeatRuns.RecordsExact | src/state_manager.cpp:13-207 | registration, marking and acknowledgments of registered tasks write a record, with their states, and no other step does |
| HeartBeatRuns.IdsNotShared | src/heart_beat.cpp:113-124 | within 2^32 heartbeats no two tasks hold the same id |
| HeartBeatRuns.LateAckIff | src/heart_beat.cpp:141-155 | an ack for an earlier heartbeat clears the present wait if and only if the two are a multiple of 2^32 apart |
| HeartBeatRuns.MonitoringContained | src/state_manager.cpp:13-26 | monitored tasks are registered and never the heartbeat task itself; registration adds exactly its task, and to the monitored ones only once there is an observer; re-registration resets no status; marking adds no record |
| HeartBeatRuns.MonitoredIff | src/state_manager.cpp:13-26 | a task other than the heartbeat task is monitored if and only if it was registered, once or again, after the observer was set |
| HeartBeatRuns.Accuracy | src/heart_beat.cpp:82-105 | a marked task owes the ack of a heartbeat sent at least timeout + 1 ms before, with no ack for it and no other send since |
| HeartBeatRuns.Completeness | src/heart_beat.cpp:66-105 | with a manager and checks at most a gap apart, a heartbeat never acknowledged leads to exactly one marking, recorded as ERROR, at most timeout + 1 ms + gap after it was sent |
| TaskLoop.TakesFirst | src/task.cpp:82-89 | the queue thread begins the earliest of the highest priority and leaves all others waiting; no other step takes a message |
| TaskLoop.BegunAsEnqueued | src/task.cpp:80-90 | in every run, of each priority, the messages begun and then those waiting are those enqueued, in order |
| TaskLoop.NoneLost | src/task.cpp:80-90 | in every run the messages begun and those waiting are together exactly those enqueued |
| TaskLoop.ComesToHandle | src/task.cpp:80-90 | with a message waiting, a running thread at its test has begun one after two steps of its own |
| TaskLoop.FlagsFollow | src/task.cpp:23-47 | running holds from a start to the next stop, and the queue is shut down once stop has notified it |
| TaskLoop.PeriodicIff | src/task.cpp:30-34 | a task has a periodic thread if and only if its last start found an interval, and it lives while the task runs |
| TaskLoop.SleepsBetween | src/task.cpp:67-78 | between two tests of the periodic thread its processing has returned and then it has slept |
| TaskLoop.AtMostOneMore | src/task.cpp:38-57 | between the clearing of the flag and the next start at most one message begins to be handled |
| TaskLoop.ThreadsEnd | src/task.cpp:67-90 | while the flag stays clear, every step of the queue thread or the periodic thread uses up its measure, which no other step raises |
| TaskLoop.BoundedStop | src/task.cpp:38-57 | after the shutdown notice each of the two threads takes at most three steps, the one that stop waits for always has a step until it has ended, and then its join goes through |
| TaskLoop.StoppedMeansEnded | src/task.cpp:38-57 | once stop has returned neither thread has a step |

## Left out

- The logger (files, console, sockets) and all log calls.
- Real threads, mutexes and condition variables: critical sections are atomic steps and waits are guards, so lost wake-ups and spurious wake-ups are not modelled.
- Deadlock freedom: registration and the timeout check take the manager's and the heartbeat task's locks in opposite orders, so it is not claimed.
- Reference counting, `shared_from_this` and publishing from destructors.
- What happens past pool exhaustion or after `try_dequeue` on an empty queue that is shutting down: the first asserts and the second is undefined in the source.
- The race between `stop`, which writes the state from another thread, and the queue thread: the agreement results are about tasks that are not being stopped.
- A demand's scan of the records interleaved with acknowledgments: the scan is one step.
- Tasks that do not apply each StateMsg they take: agreement is about conforming ones.
- How long the periodic thread sleeps; `initialize` and `shutdown` of the state manager, which only sequence modelled steps.
- The configurable unresponsive action, which the source only logs.
- String conversions and compile-time plumbing of the message table.
- The queue and periodic loops as executable methods: they do not end on their own, so they are step systems.
- MemoryPool.Pool.Deallocate: near the end of the pool the source's link write runs past it; the bytes out there are not modelled.
- MessageQueue.Queue.Enqueue: requires a free block, which the source asserts.
- MessageQueue.Queue.Dequeue: the node is read from a map of addresses beside the bytes; that the bytes of every block in use stay as constructed is part of the class invariant.
- Agreement.AgreementIff: the steps that get ahead are those of stable queues; over heaps `HeapAgreement.QuiescentAgreement` has the sufficient half.
