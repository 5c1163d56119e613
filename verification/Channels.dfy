/**
 The state protocol's fields and queues, from the history of a run: what was sent, applied, answered and heard,
 who is waited for, and what every queue has taken in and given out.
 */
module Channels {
  import opened Messages
  import opened Sequences
  import opened StableQueue
  import opened StateManager
  import opened Agreement

  // ---- states sent come back in order ----

  function StateOf(m: Msg): TaskState {
    if m.data.StateMsg? || m.data.StateAckMsg? then m.data.state else NOT_STARTED
  }

  function StatesOf(q: seq<Msg>): (r: seq<TaskState>)
    ensures |r| == |q|
    ensures forall i :: 0 <= i < |q| ==> r[i] == StateOf(q[i])
  {
    seq(|q|, i requires 0 <= i < |q| => StateOf(q[i]))
  }

  lemma StatesConcat(a: seq<Msg>, b: seq<Msg>)
    ensures StatesOf(a + b) == StatesOf(a) + StatesOf(b)
  {
  }

  function SentBy(a: Action, t: TaskId): seq<TaskState> {
    match a
    case Broadcast(to, m) => if t in to && m.data.StateMsg? then [m.data.state] else []
    case MarkDeliver(u) => if u == t then [ERROR] else []
    case _ => []
  }

  /** The states that the first i steps sent to t, read off the actions. */
  function Sent(acts: seq<Action>, i: nat, t: TaskId): seq<TaskState>
    requires i <= |acts|
  {
    if i == 0 then [] else Sent(acts, i - 1, t) + SentBy(acts[i - 1], t)
  }

  /** The acknowledgment from t that the manager handles in this step. */
  function HeardBy(s: Sys, a: Action, t: TaskId): seq<TaskState> {
    if a == ManagerHandle && s.hand.Some? && AckFrom(t)(s.hand.value) then [StateOf(s.hand.value)] else []
  }

  /** The states that the manager has heard from t. */
  function Heard(states: seq<Sys>, acts: seq<Action>, i: nat, t: TaskId): seq<TaskState>
    requires i <= |acts| && |states| == |acts| + 1
  {
    if i == 0 then [] else Heard(states, acts, i - 1, t) + HeardBy(states[i - 1], acts[i - 1], t)
  }

  /** The state that t has entered but not published, and those on their way to it. */
  function AtTask(s: Sys, t: TaskId): seq<TaskState> {
    if t !in s.tasks then []
    else (if s.tasks[t].unacked then [s.tasks[t].actual] else []) + StatesOf(Pending(s.tasks[t]))
  }

  /** Those on their way from t to the manager, and then those. */
  function OnTheWay(s: Sys, t: TaskId): seq<TaskState> {
    StatesOf(Acks(s, t)) + AtTask(s, t)
  }

  /** A task with a message in hand has published its last answer. */
  ghost predicate OneAtATime(s: Sys) {
    forall t :: t in s.tasks && s.tasks[t].hand.Some? ==> !s.tasks[t].unacked
  }

  lemma OneAtATimeKept(s: Sys, a: Action)
    requires OneAtATime(s) && Enabled(s, a)
    ensures OneAtATime(Next(s, a))
  {
    hide RemoveAt, Pick;
  }

  lemma {:induction false} AlwaysOneAtATime(states: seq<Sys>, acts: seq<Action>, i: nat)
    requires Run(states, acts) && i < |states|
    ensures OneAtATime(states[i])
  {
    hide Run, Next, Enabled;
    RunStep(states, acts, 0);
    if i > 0 {
      RunStep(states, acts, i - 1);
      AlwaysOneAtATime(states, acts, i - 1);
      OneAtATimeKept(states[i - 1], acts[i - 1]);
    }
  }

  function AnsweredBy(s: Sys, a: Action, t: TaskId): seq<TaskState> {
    if a == Acknowledge(t) && t in s.tasks then [s.tasks[t].actual] else []
  }

  lemma AppliesFirst(s: Sys, t: TaskId)
    requires Enabled(s, Apply(t)) && OneAtATime(s)
    ensures AtTask(Next(s, Apply(t)), t) == AtTask(s, t)
  {
    var v := s.tasks[t];
    StreamDone(IsState, v.hand.value, v.box);
    StatesConcat([v.hand.value], Stream(IsState, None, v.box));
    hide Stream;
    assert StatesOf([v.hand.value]) == [v.hand.value.data.state];
  }

  lemma SentStates(s: Sys, a: Action, t: TaskId)
    ensures StatesOf(SentTo(s, a, t)) == SentBy(a, t)
  {
  }

  lemma AnsweredFirst(s: Sys, a: Action, t: TaskId)
    requires t in s.tasks && (a == Acknowledge(t) ==> s.tasks[t].unacked)
    ensures var kept := if s.tasks[t].unacked && a != Acknowledge(t) then [s.tasks[t].actual] else [];
            var pending := StatesOf(Pending(s.tasks[t]));
            AnsweredBy(s, a, t) + (kept + (pending + SentBy(a, t))) == AtTask(s, t) + SentBy(a, t)
  {
    hide Pending, StatesOf, SentBy;
  }

  lemma UnackedAfter(s: Sys, a: Action, t: TaskId)
    requires Enabled(s, a) && t in s.tasks && a != Apply(t)
    ensures t in Next(s, a).tasks && Next(s, a).tasks[t].actual == s.tasks[t].actual
    ensures Next(s, a).tasks[t].unacked <==> s.tasks[t].unacked && a != Acknowledge(t)
    ensures a == Acknowledge(t) ==> s.tasks[t].unacked && SentBy(a, t) == []
  {
    hide RemoveAt, Pick;
  }

  lemma NewTask(s: Sys, a: Action, t: TaskId)
    requires Enabled(s, a) && t !in s.tasks
    ensures AtTask(Next(s, a), t) == [] && SentBy(a, t) == []
  {
    assert Pending(FRESH) == [];
    hide RemoveAt, Pick;
  }

  /** What the task has ahead of it loses what it answers at the front and gains what is sent at the end. */
  lemma AtTaskAfter(s: Sys, a: Action, t: TaskId)
    requires Enabled(s, a) && OneAtATime(s)
    ensures AnsweredBy(s, a, t) + AtTask(Next(s, a), t) == AtTask(s, t) + SentBy(a, t)
  {
    if t in s.tasks {
      if a == Apply(t) {
        AppliesFirst(s, t);
      } else {
        PendingAfter(s, a, t);
        SentStates(s, a, t);
        StatesConcat(Pending(s.tasks[t]), SentTo(s, a, t));
        UnackedAfter(s, a, t);
        hide Next, Enabled, Pending, StatesOf, SentBy, SentTo;
        assert AtTask(Next(s, a), t) == (if s.tasks[t].unacked && a != Acknowledge(t) then [s.tasks[t].actual] else [])
                                        + (StatesOf(Pending(s.tasks[t])) + SentBy(a, t));
        hide AtTask;
        AnsweredFirst(s, a, t);
      }
    } else {
      NewTask(s, a, t);
    }
  }

  lemma OneState(m: Msg)
    ensures StatesOf([m]) == [StateOf(m)]
    ensures m.data.StateAckMsg? ==> StateOf(m) == m.data.state
  {
  }

  lemma AckHeard(s: Sys, t: TaskId)
    requires s.hand.Some?
    ensures HeardBy(s, ManagerHandle, t) + StatesOf(Stream(AckFrom(t), None, s.box)) == StatesOf(Acks(s, t))
  {
    AckTaken(s, t);
    hide Acks, Stream, StatesOf, StateOf;
    var left := Stream(AckFrom(t), None, s.box);
    if AckFrom(t)(s.hand.value) {
      StatesConcat([s.hand.value], left);
      OneState(s.hand.value);
    } else {
      assert [] + left == left;
    }
  }

  /** The acknowledgments under way lose what is heard at the front and gain what is answered at the end. */
  lemma AcksGone(s: Sys, a: Action, t: TaskId)
    requires Enabled(s, a)
    ensures HeardBy(s, a, t) + StatesOf(Acks(Next(s, a), t)) == StatesOf(Acks(s, t)) + AnsweredBy(s, a, t)
  {
    AcksAfter(s, a, t);
    hide Next, Acks, Stream, StatesOf, StateOf, Enabled;
    if a == ManagerHandle {
      AckHeard(s, t);
    } else if a == Acknowledge(t) {
      StatesConcat(Acks(s, t), [Answer(t, s.tasks[t].actual)]);
      OneState(Answer(t, s.tasks[t].actual));
    }
  }

  lemma Chain<T>(heard: seq<T>, acks: seq<T>, acks': seq<T>, answered: seq<T>,
                 task: seq<T>, task': seq<T>, sent: seq<T>)
    requires heard + acks' == acks + answered && answered + task' == task + sent
    ensures heard + (acks' + task') == acks + task + sent
  {
    Regroup(heard, acks', task');
    Regroup(acks, answered, task');
    Regroup(acks, task, sent);
  }

  lemma StepOnTheWay(s: Sys, a: Action, t: TaskId)
    requires Enabled(s, a) && OneAtATime(s)
    ensures HeardBy(s, a, t) + OnTheWay(Next(s, a), t) == OnTheWay(s, t) + SentBy(a, t)
  {
    AtTaskAfter(s, a, t);
    AcksGone(s, a, t);
    hide Next, Enabled, Acks, Pending, StatesOf, SentBy, HeardBy, AnsweredBy;
    Chain(HeardBy(s, a, t), StatesOf(Acks(s, t)), StatesOf(Acks(Next(s, a), t)), AnsweredBy(s, a, t),
          AtTask(s, t), AtTask(Next(s, a), t), SentBy(a, t));
  }

  lemma NothingOnTheWay(manager: TaskId, t: TaskId)
    ensures OnTheWay(Initial(manager), t) == []
  {
  }

  /**
   In every run each state sent to a task is heard back by the manager once and in the order of sending, or is
   still on its way: the states sent are those heard, then those under way to the manager, in the task, and to it.
   */
  lemma {:induction false} SentComesBack(states: seq<Sys>, acts: seq<Action>, i: nat, t: TaskId)
    requires Run(states, acts) && i < |states|
    ensures Sent(acts, i, t) == Heard(states, acts, i, t) + OnTheWay(states[i], t)
  {
    hide Run, Next, Enabled, OnTheWay, SentBy, HeardBy, Initial, OneAtATime;
    RunStep(states, acts, 0);
    NothingOnTheWay(states[0].manager, t);
    if i > 0 {
      RunStep(states, acts, i - 1);
      SentComesBack(states, acts, i - 1, t);
      AlwaysOneAtATime(states, acts, i - 1);
      StepOnTheWay(states[i - 1], acts[i - 1], t);
      var heard := Heard(states, acts, i - 1, t);
      Regroup(heard, HeardBy(states[i - 1], acts[i - 1], t), OnTheWay(states[i], t));
      Regroup(heard, OnTheWay(states[i - 1], t), SentBy(acts[i - 1], t));
    }
  }

  // ---- every queue hands out what it takes in ----

  /** The queue of a task, or with None the manager's. */
  function BoxOf(s: Sys, q: Option<TaskId>): seq<Msg> {
    if q == None then s.box else if q.value in s.tasks then s.tasks[q.value].box else []
  }

  /** The message that a step puts into the queue. */
  function PutBy(s: Sys, a: Action, q: Option<TaskId>): seq<Msg> {
    match a
    case Broadcast(to, m) => if q.Some? && q.value in to then [m] else []
    case OtherToTask(t, m) => if q == Some(t) then [m] else []
    case MarkDeliver(t) => if q == Some(t) then [Order(s.manager, ERROR)] else []
    case OtherToManager(m) => if q == None then [m] else []
    case Acknowledge(t) => if q == None && t in s.tasks then [Answer(t, s.tasks[t].actual)] else []
    case _ => []
  }

  /** The message that a step takes out of it, found in the hand of its thread. */
  function TakenBy(a: Action, s': Sys, q: Option<TaskId>): seq<Msg> {
    match a
    case Take(t) => if q == Some(t) && t in s'.tasks && s'.tasks[t].hand.Some? then [s'.tasks[t].hand.value] else []
    case ManagerTake => if q == None && s'.hand.Some? then [s'.hand.value] else []
    case _ => []
  }

  function Put(states: seq<Sys>, acts: seq<Action>, i: nat, q: Option<TaskId>): seq<Msg>
    requires i <= |acts| && |states| == |acts| + 1
  {
    if i == 0 then [] else Put(states, acts, i - 1, q) + PutBy(states[i - 1], acts[i - 1], q)
  }

  function Taken(states: seq<Sys>, acts: seq<Action>, i: nat, q: Option<TaskId>): seq<Msg>
    requires i <= |acts| && |states| == |acts| + 1
  {
    if i == 0 then [] else Taken(states, acts, i - 1, q) + TakenBy(acts[i - 1], states[i], q)
  }

  lemma StepMoves(s: Sys, a: Action, q: Option<TaskId>)
    requires Enabled(s, a)
    ensures Moves(BoxOf(s, q), TakenBy(a, Next(s, a), q), PutBy(s, a, q), BoxOf(Next(s, a), q))
  {
    hide RemoveAt, Pick;
  }

  /** In every run every queue, of each priority, hands out what was put into it, in order, whatever else it holds. */
  lemma {:induction false} TakenAsPut(states: seq<Sys>, acts: seq<Action>, i: nat, q: Option<TaskId>, p: nat)
    requires Run(states, acts) && i < |states|
    ensures Filter(OfPriority(p), Taken(states, acts, i, q)) + Filter(OfPriority(p), BoxOf(states[i], q)) ==
            Filter(OfPriority(p), Put(states, acts, i, q))
    ensures multiset(Taken(states, acts, i, q)) + multiset(BoxOf(states[i], q)) == multiset(Put(states, acts, i, q))
  {
    hide Run, Next, Enabled, Filter, OfPriority, Moves, TakenBy, PutBy;
    RunStep(states, acts, 0);
    NoneMatch(OfPriority(p));
    if i > 0 {
      RunStep(states, acts, i - 1);
      TakenAsPut(states, acts, i - 1, q, p);
      var s, a, s' := states[i - 1], acts[i - 1], states[i];
      StepMoves(s, a, q);
      hide BoxOf;
      MovesInOrder(p, Taken(states, acts, i - 1, q), Put(states, acts, i - 1, q),
                   BoxOf(s, q), TakenBy(a, s', q), PutBy(s, a, q), BoxOf(s', q));
      MovesKeepAll(Taken(states, acts, i - 1, q), Put(states, acts, i - 1, q),
                   BoxOf(s, q), TakenBy(a, s', q), PutBy(s, a, q), BoxOf(s', q));
    }
  }

  // ---- the manager's bookkeeping, from the actions alone ----

  lemma AwaitedStep(s: Sys, a: Action, state: TaskState)
    requires Enabled(s, a)
    ensures Next(s, a).awaited == Some(state) <==> a == Demand(state) || (s.awaited == Some(state) && !a.Return?)
  {
    hide RemoveAt, Pick;
  }

  /** A demand is waited for exactly from its start to its return. */
  lemma {:induction false} AwaitedIff(states: seq<Sys>, acts: seq<Action>, i: nat, state: TaskState)
    requires Run(states, acts) && i < |states|
    ensures states[i].awaited == Some(state) <==>
            exists d :: 0 <= d < i && acts[d] == Demand(state) && forall k :: d < k < i ==> !acts[k].Return?
  {
    hide Run;
    RunStep(states, acts, 0);
    if i > 0 {
      RunStep(states, acts, i - 1);
      AwaitedStep(states[i - 1], acts[i - 1], state);
      hide Next, Enabled;
      AwaitedIff(states, acts, i - 1, state);
    }
  }

  /** The state of the last demand, NOT_STARTED before the first. */
  function LastDemand(acts: seq<Action>, i: nat): TaskState
    requires i <= |acts|
  {
    if i == 0 then NOT_STARTED else if acts[i - 1].Demand? then acts[i - 1].state else LastDemand(acts, i - 1)
  }

  lemma BookStep(s: Sys, a: Action, t: TaskId)
    requires Enabled(s, a)
    ensures Next(s, a).target == if a.Demand? then a.state else s.target
    ensures t in Next(s, a).marking <==> a == MarkDeliver(t) || (t in s.marking && a != MarkRecord(t))
    ensures t in Next(s, a).marked <==> a == MarkRecord(t) || t in s.marked
    ensures t in Next(s, a).tasks <==> a == Create(t) || t in s.tasks
  {
    hide RemoveAt, Pick;
  }

  /** The target is that of the last demand; marked and created are those that were. */
  lemma {:induction false} BooksFollow(states: seq<Sys>, acts: seq<Action>, i: nat, t: TaskId)
    requires Run(states, acts) && i < |states|
    ensures states[i].target == LastDemand(acts, i)
    ensures t in states[i].marked <==> MarkRecord(t) in acts[..i]
    ensures t in states[i].tasks <==> Create(t) in acts[..i]
  {
    hide Run, Next, Enabled;
    RunStep(states, acts, 0);
    if i > 0 {
      RunStep(states, acts, i - 1);
      BookStep(states[i - 1], acts[i - 1], t);
      BooksFollow(states, acts, i - 1, t);
      assert acts[..i] == acts[..i - 1] + [acts[i - 1]];
    }
  }

  /** A marking is in progress from its delivery to its record. */
  lemma {:induction false} MarkingIff(states: seq<Sys>, acts: seq<Action>, i: nat, t: TaskId)
    requires Run(states, acts) && i < |states|
    ensures t in states[i].marking <==>
            exists d :: 0 <= d < i && acts[d] == MarkDeliver(t) && forall k :: d < k < i ==> acts[k] != MarkRecord(t)
  {
    hide Run, Next, Enabled;
    RunStep(states, acts, 0);
    if i > 0 {
      RunStep(states, acts, i - 1);
      BookStep(states[i - 1], acts[i - 1], t);
      MarkingIff(states, acts, i - 1, t);
    }
  }

  /** What a step writes into t's record. */
  function WrittenBy(s: Sys, a: Action, t: TaskId): Option<TaskState> {
    match a
    case Register(u) => if u == t then Some(NOT_STARTED) else None
    case MarkRecord(u) => if u == t then Some(ERROR) else None
    case ManagerHandle =>
      if s.hand.Some? && AckFrom(t)(s.hand.value) && t in s.records then Some(StateOf(s.hand.value)) else None
    case _ => None
  }

  /** A record is the last thing written to it; there is none before the first registration or marking. */
  function LastWritten(states: seq<Sys>, acts: seq<Action>, i: nat, t: TaskId): Option<TaskState>
    requires i <= |acts| && |states| == |acts| + 1
  {
    if i == 0 then None
    else
      var w := WrittenBy(states[i - 1], acts[i - 1], t);
      if w.Some? then w else LastWritten(states, acts, i - 1, t)
  }

  lemma RecordStep(s: Sys, a: Action, t: TaskId)
    requires Enabled(s, a)
    ensures var w, r := WrittenBy(s, a, t), Next(s, a).records;
            if w.Some? then t in r && r[t] == w.value
            else (t in r <==> t in s.records) && (t in r ==> r[t] == s.records[t])
  {
    hide RemoveAt, Pick;
  }

  lemma {:induction false} RecordIsLastWritten(states: seq<Sys>, acts: seq<Action>, i: nat, t: TaskId)
    requires Run(states, acts) && i < |states|
    ensures LastWritten(states, acts, i, t) == if t in states[i].records then Some(states[i].records[t]) else None
  {
    hide Run, Next, Enabled, WrittenBy;
    RunStep(states, acts, 0);
    if i > 0 {
      RunStep(states, acts, i - 1);
      RecordIsLastWritten(states, acts, i - 1, t);
      RecordStep(states[i - 1], acts[i - 1], t);
    }
  }

  lemma AppliedStep(s: Sys, a: Action, t: TaskId)
    requires Enabled(s, a) && t in Next(s, a).tasks
    ensures var v := Next(s, a).tasks[t];
            v.applied == if a == Apply(t) then s.tasks[t].applied + {v.actual}
                         else if t in s.tasks then s.tasks[t].applied else {}
  {
    hide RemoveAt, Pick;
  }

  lemma {:induction false} NoApplyBefore(states: seq<Sys>, acts: seq<Action>, i: nat, t: TaskId)
    requires Run(states, acts) && i < |states| && t !in states[i].tasks
    ensures forall k :: 0 <= k < i ==> acts[k] != Apply(t)
  {
    hide Next;
    if i > 0 {
      RunStep(states, acts, i - 1);
      BookStep(states[i - 1], acts[i - 1], t);
      NoApplyBefore(states, acts, i - 1, t);
    }
  }

  /** The states that a task has applied are those it was in right after an Apply step of its own. */
  lemma {:induction false} AppliedIff(states: seq<Sys>, acts: seq<Action>, i: nat, t: TaskId, state: TaskState)
    requires Run(states, acts) && i < |states| && t in states[i].tasks
    ensures state in states[i].tasks[t].applied <==>
            exists k :: 0 <= k < i && acts[k] == Apply(t) &&
                        t in states[k + 1].tasks && states[k + 1].tasks[t].actual == state
  {
    hide Run, Next, Enabled;
    RunStep(states, acts, 0);
    if i > 0 {
      RunStep(states, acts, i - 1);
      AppliedStep(states[i - 1], acts[i - 1], t);
      BookStep(states[i - 1], acts[i - 1], t);
      if t in states[i - 1].tasks {
        AppliedIff(states, acts, i - 1, t, state);
      } else {
        NoApplyBefore(states, acts, i - 1, t);
      }
    }
  }
}
