/**
 The state-agreement protocol: StateMsgs go out, each task applies them one by one and publishes an
 acknowledgment, and the manager records the acknowledgments. Every queue is a real priority queue,
 which may hold other messages too; a message just dequeued is in its thread's hand. A StateMsg goes to any
 set of tasks in one step, so that a fan-out may be any number of steps.
 */
module Agreement {
  import opened Messages
  import opened Sequences
  import opened StableQueue
  import opened StateManager

  /**
   A task: its current_state, queue and message in hand. unacked: it has written current_state and
   not yet published the acknowledgment. lastSent is the last StateMsg delivered to it, NOT_STARTED if none.
   */
  datatype TaskView = TaskView(
    actual: TaskState, box: seq<Msg>, hand: Option<Msg>, unacked: bool,
    lastSent: TaskState, applied: set<TaskState>)

  /**
   marking: tasks whose unresponsive marking has delivered its message but not yet written its record.
   awaited: the state a demand in progress waits for. signals counts notifications to it.
   */
  datatype Sys = Sys(
    manager: TaskId, tasks: map<TaskId, TaskView>, box: seq<Msg>, hand: Option<Msg>, records: Records,
    target: TaskState, awaited: Option<TaskState>, signals: nat,
    marking: set<TaskId>, marked: set<TaskId>)

  datatype Action =
    | Create(task: TaskId)
    | Register(task: TaskId)
    | Broadcast(to: set<TaskId>, msg: Msg)
    | OtherToTask(task: TaskId, msg: Msg)
    | OtherToManager(msg: Msg)
    | Take(task: TaskId)
    | Apply(task: TaskId)
    | Ignore(task: TaskId)
    | Acknowledge(task: TaskId)
    | ManagerTake
    | ManagerHandle
    | MarkDeliver(task: TaskId)
    | MarkRecord(task: TaskId)
    | Demand(state: TaskState)
    | Return(success: bool)

  const FRESH := TaskView(NOT_STARTED, [], None, false, NOT_STARTED, {})

  function Initial(manager: TaskId): Sys {
    Sys(manager, map[], [], None, map[], NOT_STARTED, None, 0, {}, {})
  }

  predicate Enabled(s: Sys, a: Action) {
    match a
    case Create(t) => t !in s.tasks
    case Register(t) => t in s.tasks
    case Broadcast(to, m) => to <= s.tasks.Keys && m.data.StateMsg?
    case OtherToTask(t, m) => t in s.tasks && !m.data.StateMsg?
    case OtherToManager(m) => !(m.data.StateAckMsg? && m.sender.Some?)
    case Take(t) => t in s.tasks && s.tasks[t].hand == None && !s.tasks[t].unacked && s.tasks[t].box != []
    case Apply(t) => t in s.tasks && s.tasks[t].hand.Some? && s.tasks[t].hand.value.data.StateMsg?
    case Ignore(t) => t in s.tasks && s.tasks[t].hand.Some? && !s.tasks[t].hand.value.data.StateMsg?
    case Acknowledge(t) => t in s.tasks && s.tasks[t].unacked
    case ManagerTake => s.hand == None && s.box != []
    case ManagerHandle => s.hand.Some?
    case MarkDeliver(t) => t in s.tasks && t !in s.marking
    case MarkRecord(t) => t in s.tasks && t in s.marking
    case Demand(_) => s.awaited == None
    case Return(ok) => s.awaited.Some? && (ok ==> AllIn(s.records, s.awaited.value))
  }

  function Receive(v: TaskView, m: Msg): TaskView {
    v.(box := v.box + [m], lastSent := if m.data.StateMsg? then m.data.state else v.lastSent)
  }

  /** t dequeues the k-th message of its queue. */
  function TaskTakes(s: Sys, t: TaskId, k: nat): Sys
    requires t in s.tasks && k < |s.tasks[t].box|
  {
    var v := s.tasks[t];
    s.(tasks := s.tasks[t := v.(hand := Some(v.box[k]), box := RemoveAt(v.box, k))])
  }

  function ManagerTakes(s: Sys, k: nat): Sys
    requires k < |s.box|
  {
    s.(hand := Some(s.box[k]), box := RemoveAt(s.box, k))
  }

  function Next(s: Sys, a: Action): Sys
    requires Enabled(s, a)
  {
    match a
    case Create(t) => s.(tasks := s.tasks[t := FRESH])
    case Register(t) => s.(records := Registered(s.records, t))
    case Broadcast(to, m) =>
      s.(tasks := map t | t in s.tasks :: if t in to then Receive(s.tasks[t], m) else s.tasks[t])
    case OtherToTask(t, m) => s.(tasks := s.tasks[t := Receive(s.tasks[t], m)])
    case OtherToManager(m) => s.(box := s.box + [m])
    case Take(t) => TaskTakes(s, t, Pick(s.tasks[t].box))
    case Apply(t) =>
      var v := s.tasks[t];
      var state := v.hand.value.data.state;
      s.(tasks := s.tasks[t := v.(actual := state, hand := None, unacked := true, applied := v.applied + {state})])
    case Ignore(t) => s.(tasks := s.tasks[t := s.tasks[t].(hand := None)])
    case Acknowledge(t) =>
      var v := s.tasks[t];
      s.(tasks := s.tasks[t := v.(unacked := false)],
         box := s.box + [Answer(t, v.actual)])
    case ManagerTake => ManagerTakes(s, Pick(s.box))
    case ManagerHandle =>
      var m := s.hand.value;
      var records := RecordAck(s.records, m);
      s.(hand := None, records := records,
         signals := if Accepted(s.records, m) && AllIn(records, s.target) then s.signals + 1 else s.signals)
    case MarkDeliver(t) =>
      s.(tasks := s.tasks[t := Receive(s.tasks[t], Order(s.manager, ERROR))], marking := s.marking + {t})
    case MarkRecord(t) =>
      s.(records := MarkedRecords(s.records, t), marking := s.marking - {t}, marked := s.marked + {t})
    case Demand(state) => s.(target := state, awaited := Some(state))
    case Return(_) => s.(awaited := None)
  }

  ghost predicate Run(states: seq<Sys>, acts: seq<Action>) {
    && |states| == |acts| + 1
    && states[0] == Initial(states[0].manager)
    && forall i :: 0 <= i < |acts| ==> Enabled(states[i], acts[i]) && states[i + 1] == Next(states[i], acts[i])
  }

  lemma RunAppend(states: seq<Sys>, acts: seq<Action>, a: Action)
    requires Run(states, acts) && Enabled(states[|acts|], a)
    ensures Run(states + [Next(states[|acts|], a)], acts + [a])
  {
    hide Enabled, Next;
  }

  lemma RunStep(states: seq<Sys>, acts: seq<Action>, k: nat)
    requires Run(states, acts)
    ensures |states| == |acts| + 1 && states[0] == Initial(states[0].manager)
    ensures k < |acts| ==> Enabled(states[k], acts[k]) && states[k + 1] == Next(states[k], acts[k])
  {
  }

  // ---- what is under way for a task ----

  function AckFrom(t: TaskId): Msg -> bool {
    (m: Msg) => m.data.StateAckMsg? && m.sender == Some(t)
  }

  /** The messages of one kind still to be processed, in processing order: the one in hand, then the queue's. */
  function Stream(p: Msg -> bool, hand: Option<Msg>, box: seq<Msg>): seq<Msg> {
    Filter(p, if hand.Some? then [hand.value] else []) + Filter(p, box)
  }

  function Pending(v: TaskView): seq<Msg> { Stream(IsState, v.hand, v.box) }

  function Acks(s: Sys, t: TaskId): seq<Msg> { Stream(AckFrom(t), s.hand, s.box) }

  /** The state carried by the last of these messages, or a default when there is none. */
  function LastState(q: seq<Msg>, default: TaskState): TaskState {
    if q != [] && (q[|q| - 1].data.StateMsg? || q[|q| - 1].data.StateAckMsg?) then q[|q| - 1].data.state else default
  }

  /** No StateMsg is on its way to t and no acknowledgment from it is on its way to the manager. */
  predicate Quiescent(s: Sys, t: TaskId)
    requires t in s.tasks
  {
    Pending(s.tasks[t]) == [] && !s.tasks[t].unacked && Acks(s, t) == []
  }

  predicate Agrees(s: Sys, t: TaskId)
    requires t in s.tasks && t in s.records
  {
    s.records[t] == s.tasks[t].actual == s.tasks[t].lastSent
  }

  /**
   The manager overwrites a record in two places without an acknowledgment. That is timely when the task
   still has something under way, or is in the written state already.
   */
  predicate Timely(s: Sys, a: Action) {
    match a
    case Register(t) => t in s.tasks ==> !Quiescent(s, t) || s.tasks[t].actual == NOT_STARTED
    case MarkRecord(t) => t in s.tasks ==> !Quiescent(s, t) || s.tasks[t].actual == ERROR
    case _ => true
  }

  // ---- streams are first in, first out ----

  lemma StreamNone(p: Msg -> bool, box: seq<Msg>)
    ensures Stream(p, None, box) == Filter(p, box)
  {
    assert [] + Filter(p, box) == Filter(p, box);
  }

  lemma StreamDone(p: Msg -> bool, m: Msg, box: seq<Msg>)
    ensures Stream(p, Some(m), box) == (if p(m) then [m] else []) + Stream(p, None, box)
    ensures !p(m) ==> Stream(p, Some(m), box) == Stream(p, None, box)
  {
    StreamNone(p, box);
    assert Filter(p, [m]) == if p(m) then [m] else [];
    assert [] + Filter(p, box) == Filter(p, box);
  }

  lemma StreamTake(p: Msg -> bool, box: seq<Msg>)
    requires box != [] && Uniform(p, box)
    ensures Stream(p, Some(Front(box)), Rest(box)) == Stream(p, None, box)
  {
    TakeIsFifo(p, box);
    StreamDone(p, Front(box), Rest(box));
    StreamNone(p, Rest(box));
    StreamNone(p, box);
  }

  lemma StreamAppend(p: Msg -> bool, hand: Option<Msg>, box: seq<Msg>, m: Msg)
    ensures Stream(p, hand, box + [m]) == if p(m) then Stream(p, hand, box) + [m] else Stream(p, hand, box)
  {
    FilterAppend(p, box, m);
  }

  lemma StatesUniform(box: seq<Msg>)
    ensures Uniform(IsState, box)
  {
  }

  lemma AcksUniform(t: TaskId, box: seq<Msg>)
    ensures Uniform(AckFrom(t), box)
  {
  }

  // ---- the invariant ----

  /** Once everything sent to it is applied, a task is in the last state sent. */
  ghost predicate Obedient(v: TaskView) {
    LastState(Pending(v), v.actual) == v.lastSent
  }

  /** The last acknowledgment under way from a task carries its state. */
  ghost predicate AckCurrent(s: Sys, t: TaskId)
    requires t in s.tasks
  {
    !s.tasks[t].unacked ==> LastState(Acks(s, t), s.tasks[t].actual) == s.tasks[t].actual
  }

  ghost predicate RecordCurrent(s: Sys, t: TaskId)
    requires t in s.tasks
  {
    t in s.records && Quiescent(s, t) ==> s.records[t] == s.tasks[t].actual
  }

  lemma ReceiveObedient(v: TaskView, m: Msg)
    requires Obedient(v)
    ensures Obedient(Receive(v, m))
  {
    StreamAppend(IsState, v.hand, v.box, m);
  }

  lemma Applied(v: TaskView)
    requires v.hand.Some? && v.hand.value.data.StateMsg? && Obedient(v)
    ensures LastState(Stream(IsState, None, v.box), v.hand.value.data.state) == v.lastSent
  {
    StreamDone(IsState, v.hand.value, v.box);
    var left := Stream(IsState, None, v.box);
    if left != [] { assert left[|left| - 1] in left; }
  }

  lemma ObedientKept(s: Sys, a: Action, t: TaskId)
    requires Enabled(s, a) && t in s.tasks && Obedient(s.tasks[t])
    ensures t in Next(s, a).tasks && Obedient(Next(s, a).tasks[t])
  {
    hide Stream, LastState;
    var v := s.tasks[t];
    match a {
      case Broadcast(to, m) => ReceiveObedient(v, m);
      case OtherToTask(u, m) => ReceiveObedient(v, m);
      case MarkDeliver(u) => ReceiveObedient(v, Order(s.manager, ERROR));
      case Take(u) =>
        if u == t {
          StatesUniform(v.box);
          StreamTake(IsState, v.box);
        }
      case Apply(u) => if u == t { Applied(v); }
      case Ignore(u) => if u == t { StreamDone(IsState, v.hand.value, v.box); }
      case _ =>
    }
  }

  /** How a step changes the acknowledgments under way from t. */
  lemma AcksAfter(s: Sys, a: Action, t: TaskId)
    requires Enabled(s, a)
    ensures Acks(Next(s, a), t) ==
              match a
              case Acknowledge(u) =>
                if u == t then Acks(s, t) + [Answer(t, s.tasks[t].actual)] else Acks(s, t)
              case ManagerHandle => Stream(AckFrom(t), None, s.box)
              case _ => Acks(s, t)
  {
    hide Stream;
    match a {
      case OtherToManager(m) => StreamAppend(AckFrom(t), s.hand, s.box, m);
      case Acknowledge(u) => StreamAppend(AckFrom(t), s.hand, s.box, Answer(u, s.tasks[u].actual));
      case ManagerTake =>
        AcksUniform(t, s.box);
        StreamTake(AckFrom(t), s.box);
      case _ =>
    }
  }

  /** Handling the message in hand leaves the later acknowledgments; the last one stays last. */
  lemma AckTaken(s: Sys, t: TaskId)
    requires s.hand.Some?
    ensures var left := Stream(AckFrom(t), None, s.box);
            && Acks(s, t) == (if AckFrom(t)(s.hand.value) then [s.hand.value] else []) + left
            && (left != [] ==> forall d :: LastState(left, d) == LastState(Acks(s, t), d))
  {
    StreamDone(AckFrom(t), s.hand.value, s.box);
  }

  lemma AckCurrentKept(s: Sys, a: Action, t: TaskId)
    requires Enabled(s, a) && t in s.tasks && AckCurrent(s, t)
    ensures t in Next(s, a).tasks && AckCurrent(Next(s, a), t)
  {
    hide Stream, Acks;
    AcksAfter(s, a, t);
    match a {
      case ManagerHandle => AckTaken(s, t);
      case _ =>
    }
  }

  /** The StateMsg that a step delivers to t, if any. */
  function SentTo(s: Sys, a: Action, t: TaskId): seq<Msg> {
    match a
    case Broadcast(to, m) => if t in to && m.data.StateMsg? then [m] else []
    case MarkDeliver(u) => if u == t then [Order(s.manager, ERROR)] else []
    case _ => []
  }

  /** A step adds what it sends to the end of the stream towards a task; only applying takes from it. */
  lemma PendingAfter(s: Sys, a: Action, t: TaskId)
    requires Enabled(s, a) && t in s.tasks && a != Apply(t)
    ensures t in Next(s, a).tasks
    ensures Pending(Next(s, a).tasks[t]) == Pending(s.tasks[t]) + SentTo(s, a, t)
  {
    hide Stream;
    var v := s.tasks[t];
    match a {
      case Broadcast(to, m) => StreamAppend(IsState, v.hand, v.box, m);
      case OtherToTask(u, m) => StreamAppend(IsState, v.hand, v.box, m);
      case MarkDeliver(u) => StreamAppend(IsState, v.hand, v.box, Order(s.manager, ERROR));
      case Take(u) =>
        if u == t {
          StatesUniform(v.box);
          StreamTake(IsState, v.box);
        }
      case Ignore(u) => if u == t { StreamDone(IsState, v.hand.value, v.box); }
      case _ =>
    }
  }

  lemma RecordCurrentKept(s: Sys, a: Action, t: TaskId)
    requires Enabled(s, a) && t in s.tasks && AckCurrent(s, t) && RecordCurrent(s, t) && Timely(s, a)
    ensures t in Next(s, a).tasks && RecordCurrent(Next(s, a), t)
  {
    hide Stream, Acks;
    AcksAfter(s, a, t);
    if a != Apply(t) { PendingAfter(s, a, t); }
    match a {
      case ManagerHandle => AckTaken(s, t);
      case _ =>
    }
  }

  // ---- every run ----

  lemma NoAcksAtFirst(manager: TaskId, t: TaskId)
    ensures Acks(Initial(manager), t) == [] && t !in Initial(manager).records
  {
  }

  lemma StillNoAcks(s: Sys, a: Action, t: TaskId)
    requires Enabled(s, a) && t !in Next(s, a).tasks
    ensures t !in s.tasks
    ensures Acks(s, t) == [] ==> Acks(Next(s, a), t) == []
    ensures t !in s.records ==> t !in Next(s, a).records
  {
    AcksAfter(s, a, t);
    if a == ManagerHandle { AckTaken(s, t); }
    hide Stream, Acks, Front, Rest;
  }

  /** A task that does not exist yet has neither acknowledgments nor a record. */
  lemma {:induction false} NoAcksYet(states: seq<Sys>, acts: seq<Action>, i: nat, t: TaskId)
    requires Run(states, acts) && i < |states| && t !in states[i].tasks
    ensures Acks(states[i], t) == [] && t !in states[i].records
  {
    hide Run, Next, Enabled, Acks, Initial;
    RunStep(states, acts, 0);
    NoAcksAtFirst(states[0].manager, t);
    if i > 0 {
      RunStep(states, acts, i - 1);
      StillNoAcks(states[i - 1], acts[i - 1], t);
      NoAcksYet(states, acts, i - 1, t);
    }
  }

  /** For a task that exists, the two halves that need nothing of the manager's overwrites. */
  lemma {:induction false} AlwaysCurrent(states: seq<Sys>, acts: seq<Action>, i: nat, t: TaskId)
    requires Run(states, acts) && i < |states| && t in states[i].tasks
    ensures Obedient(states[i].tasks[t]) && AckCurrent(states[i], t)
  {
    hide Timely;
    if i > 0 {
      var s, a := states[i - 1], acts[i - 1];
      if t in s.tasks {
        AlwaysCurrent(states, acts, i - 1, t);
        ObedientKept(s, a, t);
        AckCurrentKept(s, a, t);
      } else {
        NoAcksYet(states, acts, i - 1, t);
        AcksAfter(s, a, t);
      }
    }
  }

  lemma {:induction false} AlwaysRecorded(states: seq<Sys>, acts: seq<Action>, i: nat, t: TaskId)
    requires Run(states, acts) && i < |states| && t in states[i].tasks
    requires forall k :: 0 <= k < i ==> Timely(states[k], acts[k])
    ensures RecordCurrent(states[i], t)
  {
    hide Stream, Quiescent, Timely, AckCurrent, Obedient, Acks;
    if i > 0 {
      var s, a := states[i - 1], acts[i - 1];
      if t in s.tasks {
        AlwaysCurrent(states, acts, i - 1, t);
        AlwaysRecorded(states, acts, i - 1, t);
        RecordCurrentKept(s, a, t);
      } else {
        NoAcksYet(states, acts, i - 1, t);
      }
    }
  }

  ghost predicate AgreesWhenQuiescent(s: Sys) {
    forall t :: t in s.tasks && t in s.records && Quiescent(s, t) ==> Agrees(s, t)
  }

  /** With timely overwrites, a registered task with nothing under way is in the recorded state, the last one sent. */
  lemma TimelyRunsAgree(states: seq<Sys>, acts: seq<Action>, i: nat)
    requires Run(states, acts) && i < |states|
    requires forall k :: 0 <= k < i ==> Timely(states[k], acts[k])
    ensures AgreesWhenQuiescent(states[i])
  {
    forall t | t in states[i].tasks && t in states[i].records && Quiescent(states[i], t)
      ensures Agrees(states[i], t)
    {
      AlwaysCurrent(states, acts, i, t);
      AlwaysRecorded(states, acts, i, t);
    }
  }

  // ---- what the senders can see: the last state sent to a task ----

  /** The state of the last StateMsg sent to t in the first i steps, NOT_STARTED if there is none. */
  function LastOrder(acts: seq<Action>, i: nat, t: TaskId): TaskState
    requires i <= |acts|
  {
    if i == 0 then NOT_STARTED
    else
      match acts[i - 1]
      case Broadcast(to, m) => if t in to && m.data.StateMsg? then m.data.state else LastOrder(acts, i - 1, t)
      case MarkDeliver(u) => if u == t then ERROR else LastOrder(acts, i - 1, t)
      case _ => LastOrder(acts, i - 1, t)
  }

  /** A step changes the last state sent to t exactly by sending one. */
  lemma StepOrders(s: Sys, a: Action, t: TaskId)
    requires Enabled(s, a)
    ensures t in Next(s, a).tasks <==> t in s.tasks || a == Create(t)
    ensures t in s.tasks ==>
              var sent := SentTo(s, a, t);
              Next(s, a).tasks[t].lastSent == if sent == [] then s.tasks[t].lastSent else sent[0].data.state
    ensures t !in s.tasks ==> SentTo(s, a, t) == []
    ensures a == Create(t) ==> Next(s, a).tasks[t].lastSent == NOT_STARTED
  {
    hide Front, Rest, Stream;
  }

  lemma {:induction false} LastOrderSent(states: seq<Sys>, acts: seq<Action>, i: nat, t: TaskId)
    requires Run(states, acts) && i < |states|
    ensures LastOrder(acts, i, t) == if t in states[i].tasks then states[i].tasks[t].lastSent else NOT_STARTED
  {
    if i > 0 {
      LastOrderSent(states, acts, i - 1, t);
      StepOrders(states[i - 1], acts[i - 1], t);
      hide Next, Enabled;
    }
  }

  /** After i steps, an overwrite by a writes the state that was last sent to its task. */
  predicate Matches(acts: seq<Action>, i: nat, a: Action)
    requires i <= |acts|
  {
    match a
    case Register(t) => LastOrder(acts, i, t) == NOT_STARTED
    case MarkRecord(t) => LastOrder(acts, i, t) == ERROR
    case _ => true
  }

  ghost predicate WritesMatch(acts: seq<Action>, n: nat)
    requires n <= |acts|
  {
    forall k :: 0 <= k < n ==> Matches(acts, k, acts[k])
  }

  lemma MatchIsTimely(s: Sys, a: Action)
    requires a.Register? || a.MarkRecord? ==> a.task in s.tasks && Obedient(s.tasks[a.task])
    ensures a.Register? && s.tasks[a.task].lastSent == NOT_STARTED ==> Timely(s, a)
    ensures a.MarkRecord? && s.tasks[a.task].lastSent == ERROR ==> Timely(s, a)
  {
  }

  lemma NoOverwrite(s: Sys, a: Action)
    requires !a.Register? && !a.MarkRecord?
    ensures Timely(s, a)
  {
  }

  lemma MatchesAreTimely(states: seq<Sys>, acts: seq<Action>, k: nat)
    requires Run(states, acts) && k < |acts| && Matches(acts, k, acts[k])
    ensures Timely(states[k], acts[k])
  {
    hide Timely, LastOrder, Obedient;
    var a := acts[k];
    if a.Register? || a.MarkRecord? {
      AlwaysCurrent(states, acts, k, a.task);
      LastOrderSent(states, acts, k, a.task);
      MatchIsTimely(states[k], a);
    } else {
      assert Timely(states[k], a) by { NoOverwrite(states[k], a); }
    }
  }

  /**
   When each registration finds nothing but NOT_STARTED sent to its task, and each marking writes its record
   while ERROR is the last state sent, record, state and last StateMsg of a quiescent registered task are equal.
   */
  lemma QuiescentAgreement(states: seq<Sys>, acts: seq<Action>, i: nat)
    requires Run(states, acts) && i < |states| && WritesMatch(acts, i)
    ensures AgreesWhenQuiescent(states[i])
  {
    forall k | 0 <= k < i ensures Timely(states[k], acts[k]) {
      MatchesAreTimely(states, acts, k);
    }
    TimelyRunsAgree(states, acts, i);
  }

  /** A task with no StateMsg pending is in the last state that was sent to it. */
  lemma RestsInLastOrder(states: seq<Sys>, acts: seq<Action>, i: nat, t: TaskId)
    requires Run(states, acts) && i < |states| && t in states[i].tasks && Pending(states[i].tasks[t]) == []
    ensures states[i].tasks[t].actual == LastOrder(acts, i, t)
  {
    AlwaysCurrent(states, acts, i, t);
    LastOrderSent(states, acts, i, t);
  }

  // ---- continuing from a state ----

  /** From s these actions lead to s'. */
  ghost predicate Reaches(s: Sys, acts: seq<Action>, s': Sys)
    decreases |acts|
  {
    if acts == [] then s == s' else Enabled(s, acts[0]) && Reaches(Next(s, acts[0]), acts[1..], s')
  }

  lemma {:induction false} ReachesConcat(s: Sys, first: seq<Action>, s': Sys, second: seq<Action>, s'': Sys)
    requires Reaches(s, first, s') && Reaches(s', second, s'')
    ensures Reaches(s, first + second, s'')
    decreases |first|
  {
    if first == [] {
      assert first + second == second;
    } else {
      ReachesConcat(Next(s, first[0]), first[1..], s', second, s'');
      assert (first + second)[1..] == first[1..] + second;
    }
  }

  lemma ReachesStep(s: Sys, a: Action, acts: seq<Action>, s': Sys)
    requires Enabled(s, a) && Reaches(Next(s, a), acts, s')
    ensures Reaches(s, [a] + acts, s')
  {
    assert ([a] + acts)[1..] == acts;
  }

  lemma OneStepReaches(s: Sys, a: Action)
    requires Enabled(s, a)
    ensures Reaches(s, [a], Next(s, a))
  {
    ReachesStep(s, a, [], Next(s, a));
  }

  lemma {:induction false} RunReaches(states: seq<Sys>, acts: seq<Action>, i: nat)
    requires Run(states, acts) && i <= |acts|
    ensures Reaches(states[0], acts[..i], states[i])
  {
    if i > 0 {
      RunReaches(states, acts, i - 1);
      ReachesStep(states[i - 1], acts[i - 1], [], states[i]);
      ReachesConcat(states[0], acts[..i - 1], states[i - 1], [acts[i - 1]], states[i]);
      assert acts[..i] == acts[..i - 1] + [acts[i - 1]];
    }
  }

  /** A run goes on with what its last state leads to. */
  lemma {:induction false} RunContinues(states: seq<Sys>, acts: seq<Action>, more: seq<Action>, s': Sys)
    returns (states': seq<Sys>)
    requires Run(states, acts) && Reaches(states[|acts|], more, s')
    ensures Run(states', acts + more) && states'[|acts + more|] == s'
    decreases |more|
  {
    hide Run, Enabled, Next;
    RunStep(states, acts, 0);
    if more == [] {
      states' := states;
      assert acts + more == acts;
    } else {
      RunAppend(states, acts, more[0]);
      states' := RunContinues(states + [Next(states[|acts|], more[0])], acts + [more[0]], more[1..], s');
      assert acts + [more[0]] + more[1..] == acts + more;
    }
  }

  // ---- when sending stops, the protocol settles ----

  /** Steps of the task and manager threads on what is already under way. */
  predicate Internal(a: Action) {
    a.Take? || a.Apply? || a.Ignore? || a.Acknowledge? || a.ManagerTake? || a.ManagerHandle?
  }

  /** A bound on the internal steps that one task's messages still cause, down to the manager's record. */
  function TaskWork(v: TaskView): nat {
    5 * |v.box| + (if v.hand.Some? then 4 else 0) + (if v.unacked then 3 else 0)
  }

  function TasksWork(ids: seq<TaskId>, tasks: map<TaskId, TaskView>): nat {
    if ids == [] then 0
    else (if ids[0] in tasks then TaskWork(tasks[ids[0]]) else 0) + TasksWork(ids[1..], tasks)
  }

  function Work(ids: seq<TaskId>, s: Sys): nat {
    TasksWork(ids, s.tasks) + 2 * |s.box| + if s.hand.Some? then 1 else 0
  }

  ghost predicate Lists(ids: seq<TaskId>, s: Sys) {
    NoDuplicates(ids) && forall t :: t in ids <==> t in s.tasks
  }

  lemma {:induction false} WorkElsewhere(ids: seq<TaskId>, tasks: map<TaskId, TaskView>, t: TaskId, v: TaskView)
    requires t !in ids
    ensures TasksWork(ids, tasks[t := v]) == TasksWork(ids, tasks)
  {
    if ids != [] { WorkElsewhere(ids[1..], tasks, t, v); }
  }

  lemma {:induction false} WorkUpdate(ids: seq<TaskId>, tasks: map<TaskId, TaskView>, t: TaskId, v: TaskView)
    requires NoDuplicates(ids) && t in ids && t in tasks
    ensures TasksWork(ids, tasks[t := v]) + TaskWork(tasks[t]) == TasksWork(ids, tasks) + TaskWork(v)
  {
    assert NoDuplicates(ids[1..]) by { assert forall i :: 0 <= i < |ids[1..]| ==> ids[1..][i] == ids[i + 1]; }
    if ids[0] == t {
      WorkElsewhere(ids[1..], tasks, t, v);
    } else {
      WorkUpdate(ids[1..], tasks, t, v);
    }
  }

  lemma WorkShrinks(ids: seq<TaskId>, s: Sys, a: Action)
    requires Enabled(s, a) && Internal(a) && Lists(ids, s)
    ensures Lists(ids, Next(s, a)) && Work(ids, Next(s, a)) < Work(ids, s)
  {
    hide TasksWork, Front;
    if a.Take? || a.Apply? || a.Ignore? || a.Acknowledge? {
      WorkUpdate(ids, s.tasks, a.task, Next(s, a).tasks[a.task]);
      assert Next(s, a).tasks == s.tasks[a.task := Next(s, a).tasks[a.task]];
    }
  }

  /** Once nothing new is sent, only as many steps remain as the work under way. */
  lemma {:induction false} Convergence(states: seq<Sys>, acts: seq<Action>, i: nat, n: nat, ids: seq<TaskId>)
    requires Run(states, acts) && i <= n < |states| && Lists(ids, states[i])
    requires forall k :: i <= k < n ==> Internal(acts[k])
    ensures Lists(ids, states[n]) && n - i + Work(ids, states[n]) <= Work(ids, states[i])
    decreases n
  {
    hide Work, Lists;
    if i < n {
      Convergence(states, acts, i, n - 1, ids);
      WorkShrinks(ids, states[n - 1], acts[n - 1]);
    }
  }

  /** When no internal step is left, every task is quiescent. */
  lemma SettledIsQuiescent(s: Sys, t: TaskId)
    requires t in s.tasks && forall a :: Internal(a) ==> !Enabled(s, a)
    ensures Quiescent(s, t)
  {
    assert !Enabled(s, Take(t)) && !Enabled(s, Apply(t)) && !Enabled(s, Ignore(t)) && !Enabled(s, Acknowledge(t));
    assert !Enabled(s, ManagerTake) && !Enabled(s, ManagerHandle);
  }

  ghost predicate AllInternal(acts: seq<Action>) {
    forall k :: 0 <= k < |acts| ==> Internal(acts[k])
  }

  lemma {:induction false} ListOf(ids: set<TaskId>) returns (list: seq<TaskId>)
    ensures NoDuplicates(list) && forall t :: t in list <==> t in ids
  {
    list := [];
    if ids != {} {
      var t :| t in ids;
      list := ListOf(ids - {t});
      list := list + [t];
    }
  }

  /** Left to themselves, the threads come to a state in which they have nothing to do. */
  lemma {:induction false} Settle(ids: seq<TaskId>, s: Sys) returns (more: seq<Action>, s': Sys)
    requires Lists(ids, s)
    ensures AllInternal(more) && Reaches(s, more, s') && forall a :: Internal(a) ==> !Enabled(s', a)
    decreases Work(ids, s)
  {
    hide Work, Next, Lists;
    if a :| Internal(a) && Enabled(s, a) {
      WorkShrinks(ids, s, a);
      more, s' := Settle(ids, Next(s, a));
      ReachesStep(s, a, more, s');
      more := [a] + more;
    } else {
      more, s' := [], s;
    }
  }

  // ---- that condition is exact once a write may come late ----

  /** What internal steps keep: who is there, what was last sent, and the invariant. */
  ghost predicate Continues(s: Sys, s': Sys) {
    && s'.tasks.Keys == s.tasks.Keys && s'.records.Keys == s.records.Keys && s'.marking == s.marking
    && s'.target == s.target && s'.awaited == s.awaited
    && forall t :: t in s.tasks ==>
         && s'.tasks[t].lastSent == s.tasks[t].lastSent
         && (Obedient(s.tasks[t]) ==> Obedient(s'.tasks[t]))
         && (AckCurrent(s, t) ==> AckCurrent(s', t))
         && (AckCurrent(s, t) && RecordCurrent(s, t) ==> RecordCurrent(s', t))
  }

  lemma InternalContinues(s: Sys, a: Action)
    requires Enabled(s, a) && Internal(a)
    ensures Continues(s, Next(s, a))
  {
    hide Obedient, AckCurrent, RecordCurrent, Timely, Front, Rest;
    NoOverwrite(s, a);
    forall t | t in s.tasks
      ensures Obedient(s.tasks[t]) ==> Obedient(Next(s, a).tasks[t])
      ensures AckCurrent(s, t) ==> AckCurrent(Next(s, a), t)
      ensures AckCurrent(s, t) && RecordCurrent(s, t) ==> RecordCurrent(Next(s, a), t)
    {
      if Obedient(s.tasks[t]) { ObedientKept(s, a, t); }
      if AckCurrent(s, t) {
        AckCurrentKept(s, a, t);
        if RecordCurrent(s, t) { RecordCurrentKept(s, a, t); }
      }
    }
  }

  lemma {:induction false} LateContinues(s: Sys, more: seq<Action>, s': Sys)
    requires AllInternal(more) && Reaches(s, more, s')
    ensures Continues(s, s')
    decreases |more|
  {
    hide Enabled, Next, Obedient, AckCurrent, RecordCurrent, Internal;
    if more != [] {
      assert Internal(more[0]) && forall k :: 0 <= k < |more[1..]| ==> more[1..][k] == more[k + 1];
      InternalContinues(s, more[0]);
      LateContinues(Next(s, more[0]), more[1..], s');
    }
  }

  /** A state that was not the last one sent can be written when everything is settled, and then stays wrong. */
  lemma MismatchDisagrees(states: seq<Sys>, acts: seq<Action>, k: nat, a: Action) returns (more: seq<Action>, s': Sys)
    requires Run(states, acts) && k < |states| && Enabled(states[k], a) && !Matches(acts, k, a)
    ensures AllInternal(more) && Reaches(states[k], more, s') && Enabled(s', a)
    ensures !Timely(s', a) && !AgreesWhenQuiescent(Next(s', a))
  {
    var t, s := a.task, states[k];
    var ids := ListOf(s.tasks.Keys);
    more, s' := Settle(ids, s);
    LateContinues(s, more, s');
    SettledIsQuiescent(s', t);
    AlwaysCurrent(states, acts, k, t);
    LastOrderSent(states, acts, k, t);
    AcksAfter(s', a, t);
    assert Quiescent(Next(s', a), t) && !Agrees(Next(s', a), t);
  }

  /** Whatever internal steps get ahead of it, the overwrite a is timely. */
  ghost predicate TimelyHoweverLate(s: Sys, a: Action) {
    forall more, s' :: AllInternal(more) && Reaches(s, more, s') ==> Timely(s', a)
  }

  lemma LateMatchIsTimely(states: seq<Sys>, acts: seq<Action>, i: nat, a: Action, more: seq<Action>, s': Sys)
    requires Run(states, acts) && i < |states| && Enabled(states[i], a) && Matches(acts, i, a)
    requires AllInternal(more) && Reaches(states[i], more, s')
    ensures Timely(s', a)
  {
    hide Timely, LastOrder, Obedient, AckCurrent, RecordCurrent, Reaches, AllInternal;
    if a.Register? || a.MarkRecord? {
      AlwaysCurrent(states, acts, i, a.task);
      LastOrderSent(states, acts, i, a.task);
      LateContinues(states[i], more, s');
      MatchIsTimely(s', a);
    } else {
      NoOverwrite(s', a);
    }
  }

  /** A pending overwrite is timely however late it comes exactly if it writes the state last sent to its task. */
  lemma LateWriteIff(states: seq<Sys>, acts: seq<Action>, i: nat, a: Action)
    requires Run(states, acts) && i < |states| && Enabled(states[i], a)
    ensures Matches(acts, i, a) <==> TimelyHoweverLate(states[i], a)
  {
    assert |states| == |acts| + 1;
    hide Run, Matches, Timely, AllInternal, Reaches, Enabled, Next, AgreesWhenQuiescent;
    if Matches(acts, i, a) {
      forall more, s' | AllInternal(more) && Reaches(states[i], more, s')
        ensures Timely(s', a)
      {
        LateMatchIsTimely(states, acts, i, a, more, s');
      }
    } else {
      var more, s' := MismatchDisagrees(states, acts, i, a);
    }
  }

  /** Whatever internal steps get ahead of it, the step a leaves quiescent tasks in agreement. */
  ghost predicate AgreesHoweverLate(s: Sys, a: Action) {
    forall more, s' :: AllInternal(more) && Reaches(s, more, s') && Enabled(s', a) ==> AgreesWhenQuiescent(Next(s', a))
  }

  /** The invariant for one task. */
  ghost predicate Current(s: Sys, t: TaskId)
    requires t in s.tasks
  {
    Obedient(s.tasks[t]) && AckCurrent(s, t) && RecordCurrent(s, t)
  }

  lemma MatchingRunRecorded(states: seq<Sys>, acts: seq<Action>, i: nat, t: TaskId)
    requires Run(states, acts) && i < |states| && WritesMatch(acts, i) && t in states[i].tasks
    ensures RecordCurrent(states[i], t)
  {
    forall k | 0 <= k < i ensures Timely(states[k], acts[k]) {
      MatchesAreTimely(states, acts, k);
    }
    AlwaysRecorded(states, acts, i, t);
  }

  lemma StillCurrent(states: seq<Sys>, acts: seq<Action>, k: nat, more: seq<Action>, s': Sys, t: TaskId)
    requires Run(states, acts) && k < |states| && WritesMatch(acts, k)
    requires AllInternal(more) && Reaches(states[k], more, s') && t in s'.tasks
    ensures Current(s', t)
  {
    LateContinues(states[k], more, s');
    hide Obedient, AckCurrent, RecordCurrent, Reaches, AllInternal, Matches, Run, WritesMatch;
    AlwaysCurrent(states, acts, k, t);
    MatchingRunRecorded(states, acts, k, t);
  }

  lemma LateRecordsKnown(states: seq<Sys>, acts: seq<Action>, k: nat, more: seq<Action>, s': Sys)
    requires Run(states, acts) && k < |states| && AllInternal(more) && Reaches(states[k], more, s')
    ensures s'.records.Keys <= s'.tasks.Keys
  {
    LateContinues(states[k], more, s');
    forall t | t in s'.records ensures t in s'.tasks {
      if t !in s'.tasks { NoAcksYet(states, acts, k, t); }
    }
  }

  lemma OneTaskAgrees(s: Sys, a: Action, t: TaskId)
    requires Enabled(s, a) && Timely(s, a) && t in s.tasks
    requires Current(s, t)
    ensures t in Next(s, a).tasks
    ensures t in Next(s, a).records && Quiescent(Next(s, a), t) ==> Agrees(Next(s, a), t)
  {
    ObedientKept(s, a, t);
    RecordCurrentKept(s, a, t);
    hide Next, Enabled, Timely;
  }

  lemma StepAgrees(s: Sys, a: Action)
    requires Enabled(s, a) && Timely(s, a) && s.records.Keys <= s.tasks.Keys
    requires forall t :: t in s.tasks ==> Current(s, t)
    ensures AgreesWhenQuiescent(Next(s, a))
  {
    hide Current, Quiescent, Timely, Agrees, Front, Rest;
    forall t | t in Next(s, a).tasks && t in Next(s, a).records && Quiescent(Next(s, a), t)
      ensures Agrees(Next(s, a), t)
    {
      assert t in s.tasks;
      OneTaskAgrees(s, a, t);
    }
  }

  lemma LateStepAgrees(states: seq<Sys>, acts: seq<Action>, k: nat, more: seq<Action>, s': Sys)
    requires Run(states, acts) && k < |acts| && WritesMatch(acts, |acts|)
    requires AllInternal(more) && Reaches(states[k], more, s') && Enabled(s', acts[k])
    ensures AgreesWhenQuiescent(Next(s', acts[k]))
  {
    var a := acts[k];
    assert Matches(acts, k, a);
    LateMatchIsTimely(states, acts, k, a, more, s');
    forall t | t in s'.tasks ensures Current(s', t) { StillCurrent(states, acts, k, more, s', t); }
    LateRecordsKnown(states, acts, k, more, s');
    hide Run, Reaches, AllInternal, Timely, Matches, Current, Quiescent, WritesMatch;
    StepAgrees(s', a);
  }

  /**
   Agreement at quiescence holds throughout a run, however late any one of its steps comes, exactly when every
   registration and every marking writes the state last sent to its task.
   */
  lemma AgreementIff(states: seq<Sys>, acts: seq<Action>)
    requires Run(states, acts)
    ensures WritesMatch(acts, |acts|) <==> forall k :: 0 <= k < |acts| ==> AgreesHoweverLate(states[k], acts[k])
  {
    assert |states| == |acts| + 1;
    hide Run, Matches, AgreesWhenQuiescent, AllInternal, Reaches, Enabled, Next;
    if WritesMatch(acts, |acts|) {
      forall k | 0 <= k < |acts| ensures AgreesHoweverLate(states[k], acts[k]) {
        forall more, s' | AllInternal(more) && Reaches(states[k], more, s') && Enabled(s', acts[k])
          ensures AgreesWhenQuiescent(Next(s', acts[k]))
        {
          LateStepAgrees(states, acts, k, more, s');
        }
      }
    } else {
      var k :| 0 <= k < |acts| && !Matches(acts, k, acts[k]);
      assert Enabled(states[k], acts[k]) by { RunStep(states, acts, k); }
      var more, s' := MismatchDisagrees(states, acts, k, acts[k]);
      assert !AgreesHoweverLate(states[k], acts[k]);
    }
  }

  // ---- runs that conform, and one that does not ----

  /** The step delivers a StateMsg to t. */
  predicate Sends(a: Action, t: TaskId) {
    (a.Broadcast? && t in a.to && a.msg.data.StateMsg?) || a == MarkDeliver(t)
  }

  /** Nothing sent to t from step d up to step i leaves the last state sent as it was. */
  lemma {:induction false} NothingSince(acts: seq<Action>, d: nat, i: nat, t: TaskId)
    requires d <= i <= |acts| && forall k :: d <= k < i ==> !Sends(acts[k], t)
    ensures LastOrder(acts, i, t) == LastOrder(acts, d, t)
    decreases i
  {
    if d < i { NothingSince(acts, d, i - 1, t); }
  }

  /** No StateMsg reaches a task between the two halves of its marking. */
  ghost predicate MarksUndisturbed(acts: seq<Action>) {
    forall k :: 0 <= k < |acts| && acts[k].MarkRecord? ==>
      exists d :: 0 <= d < k && acts[d] == MarkDeliver(acts[k].task) &&
                  forall j :: d < j < k ==> !Sends(acts[j], acts[k].task)
  }

  ghost predicate RegistersFirst(acts: seq<Action>) {
    forall k, j :: 0 <= j < k < |acts| && acts[k].Register? ==> !Sends(acts[j], acts[k].task)
  }

  lemma ConformingMatches(acts: seq<Action>, k: nat)
    requires MarksUndisturbed(acts) && RegistersFirst(acts) && k < |acts|
    ensures Matches(acts, k, acts[k])
  {
    hide Sends;
    if acts[k].Register? {
      NothingSince(acts, 0, k, acts[k].task);
    } else if acts[k].MarkRecord? {
      var d :| 0 <= d < k && acts[d] == MarkDeliver(acts[k].task) &&
               forall j :: d < j < k ==> !Sends(acts[j], acts[k].task);
      NothingSince(acts, d + 1, k, acts[k].task);
    }
  }

  /**
   If tasks are registered before a state is sent to them, and no StateMsg falls between the halves of a
   marking, every state of the run has quiescent tasks in agreement.
   */
  lemma ConformingRunsAgree(states: seq<Sys>, acts: seq<Action>, i: nat)
    requires Run(states, acts) && i < |states| && MarksUndisturbed(acts) && RegistersFirst(acts)
    ensures WritesMatch(acts, |acts|) && AgreesWhenQuiescent(states[i])
  {
    forall k | 0 <= k < |acts| ensures Matches(acts, k, acts[k]) {
      ConformingMatches(acts, k);
    }
    QuiescentAgreement(states, acts, i);
  }

  /** t is created and registered, its marking has delivered ERROR, and then IDLE is sent to it. */
  function Disturbed(t: TaskId): seq<Action> {
    [Create(t), Register(t), MarkDeliver(t), Broadcast({t}, Msg(None, StateMsg(IDLE)))]
  }

  lemma DisturbedRun(manager: TaskId, t: TaskId) returns (states: seq<Sys>)
    ensures Run(states, Disturbed(t)) && |states| == 5 && states[0] == Initial(manager)
    ensures Enabled(states[4], MarkRecord(t)) && Reaches(states[0], Disturbed(t), states[4])
  {
    var s0 := Initial(manager);
    var s1 := Next(s0, Create(t));
    var s2 := Next(s1, Register(t));
    var s3 := Next(s2, MarkDeliver(t));
    states := [s0, s1, s2, s3, Next(s3, Broadcast({t}, Msg(None, StateMsg(IDLE))))];
    RunReaches(states, Disturbed(t), 4);
    assert Disturbed(t)[..4] == Disturbed(t);
  }

  lemma LastOrderDisturbed(t: TaskId)
    ensures LastOrder(Disturbed(t), 4, t) == IDLE
  {
  }

  /**
   Marking delivers ERROR first and writes the record later. If a state sent in between is applied and
   acknowledged before the write, everything is quiescent and the record is wrong.
   */
  lemma SplitMarkingDisagrees(manager: TaskId, t: TaskId) returns (acts: seq<Action>, s: Sys)
    ensures Reaches(Initial(manager), acts, s) && !AgreesWhenQuiescent(s)
    ensures RegistersFirst(acts)
  {
    hide Run, Next, Enabled, AgreesWhenQuiescent, LastOrder, Timely, Reaches, Initial;
    var first, write := Disturbed(t), MarkRecord(t);
    var states := DisturbedRun(manager, t);
    LastOrderDisturbed(t);
    var more, s' := MismatchDisagrees(states, first, 4, write);
    s := Next(s', write);
    acts := first + (more + [write]);
    OneStepReaches(s', write);
    ReachesConcat(states[4], more, s', [write], s);
    ReachesConcat(Initial(manager), first, states[4], more + [write], s);
    assert forall k :: 0 <= k < |acts| && acts[k].Register? ==> k == 1;
  }
}
