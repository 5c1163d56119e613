/**
 A task's two threads and the thread that stops it. The loops have no end of their own, so they are a step
 system: the queue thread tests running, dequeues, handles; the periodic thread, if there is one, tests running,
 processes, sleeps; the stopper clears running, notifies, joins one after the other.
 */
module TaskLoop {
  import opened Messages
  import opened Sequences
  import opened StableQueue
  import opened HeartBeat
  import opened StateManager

  /** What a conforming task does with the two system messages, and what it publishes in answer. */
  class Task {
    const self: TaskId
    var currentState: TaskState

    constructor (self: TaskId)
      ensures this.self == self && currentState == NOT_STARTED
    {
      this.self := self;
      currentState := NOT_STARTED;
    }

    /** Any state is accepted; the acknowledgment carries the state just entered. */
    method TransitionToState(state: TaskState) returns (published: Msg)
      modifies `currentState
      ensures currentState == state
      ensures published == Answer(self, state)
    {
      currentState := state;
      published := Msg(Some(self), StateAckMsg(currentState));
    }

    /** The answer clears the sender's wait exactly if it is still for this heartbeat's id. */
    method HandleHeartbeat(heartbeat: MsgData, now: nat) returns (published: Msg)
      requires heartbeat.HeartbeatMsg?
      ensures published.sender == Some(self) && published.data.HeartbeatAckMsg?
      ensures published.data.origTimestamp == heartbeat.timestamp && published.data.ackTimestamp == now / TICKS_PER_MS
      ensures forall st: Status, at: nat :: st.awaiting ==>
                (!Acked(st, published.data.origUniqueId, at).awaiting <==> st.lastId == heartbeat.uniqueId)
    {
      published := Msg(Some(self), HeartbeatAckMsg(heartbeat.uniqueId, heartbeat.timestamp, now / TICKS_PER_MS));
    }
  }

  datatype Thread = NotStarted | Testing | Dequeuing | Handling(msg: Msg) | Exited

  /** Absent when the task has no periodic interval. */
  datatype Periodic = Absent | Looping | Processing | Sleeping | Ended

  datatype Stopper = Idle | Cleared | Notified | QueueJoined

  datatype Sys = Sys(
    running: bool, queue: seq<Msg>, shutdown: bool, thread: Thread, periodic: Periodic, stopper: Stopper)

  datatype Action =
    | Start(hasInterval: bool)
    | Enqueue(msg: Msg)
    | Test
    | Dequeue
    | HandlerReturns
    | TestPeriodic
    | ProcessReturns
    | Wake
    | Clear
    | Notify
    | JoinQueue
    | JoinPeriodic

  const INITIAL := Sys(false, [], false, NotStarted, Absent, Idle)

  predicate QueueStep(a: Action) { a.Test? || a.Dequeue? || a.HandlerReturns? }

  predicate PeriodicStep(a: Action) { a.TestPeriodic? || a.ProcessReturns? || a.Wake? }

  predicate Enabled(s: Sys, a: Action) {
    match a
    case Start(_) => !s.running && s.stopper == Idle
    case Enqueue(_) => true
    case Test => s.thread == Testing
    case Dequeue => s.thread == Dequeuing && (s.queue != [] || s.shutdown)
    case HandlerReturns => s.thread.Handling?
    case TestPeriodic => s.periodic == Looping
    case ProcessReturns => s.periodic == Processing
    case Wake => s.periodic == Sleeping
    case Clear => s.running && s.stopper == Idle
    case Notify => s.stopper == Cleared
    case JoinQueue => s.stopper == Notified && s.thread == Exited
    case JoinPeriodic => s.stopper == QueueJoined && (s.periodic == Absent || s.periodic == Ended)
  }

  function Next(s: Sys, a: Action): Sys
    requires Enabled(s, a)
  {
    match a
    case Start(hasInterval) =>
      s.(running := true, thread := Testing, periodic := if hasInterval then Looping else Absent)
    case Enqueue(m) => s.(queue := s.queue + [m])
    case Test => s.(thread := if s.running then Dequeuing else Exited)
    case Dequeue =>
      if s.queue == [] then s.(thread := Testing)
      else s.(thread := Handling(Front(s.queue)), queue := Rest(s.queue))
    case HandlerReturns => s.(thread := Testing)
    case TestPeriodic => s.(periodic := if s.running then Processing else Ended)
    case ProcessReturns => s.(periodic := Sleeping)
    case Wake => s.(periodic := Looping)
    case Clear => s.(running := false, stopper := Cleared)
    case Notify => s.(shutdown := true, stopper := Notified)
    case JoinQueue => s.(stopper := QueueJoined)
    case JoinPeriodic => s.(stopper := Idle)
  }

  ghost predicate Run(states: seq<Sys>, acts: seq<Action>) {
    && |states| == |acts| + 1
    && states[0] == INITIAL
    && forall i :: 0 <= i < |acts| ==> Enabled(states[i], acts[i]) && states[i + 1] == Next(states[i], acts[i])
  }

  /** How many steps the queue thread of a stopped task can still take. */
  function QueueMeasure(thread: Thread): nat {
    match thread
    case Dequeuing => 3
    case Handling(_) => 2
    case Testing => 1
    case _ => 0
  }

  /** The same for its periodic thread. */
  function PeriodicMeasure(periodic: Periodic): nat {
    match periodic
    case Processing => 3
    case Sleeping => 2
    case Looping => 1
    case _ => 0
  }

  ghost predicate Inv(s: Sys) {
    && (s.running ==> s.stopper == Idle && s.thread != Exited && s.thread != NotStarted)
    && (!s.running && s.stopper == Idle ==>
          && (s.thread == Exited || s.thread == NotStarted)
          && (s.periodic == Absent || s.periodic == Ended))
    && (s.stopper == Notified || s.stopper == QueueJoined ==> s.shutdown)
    && (s.stopper == QueueJoined ==> s.thread == Exited)
    && (s.stopper != Idle ==> s.thread != NotStarted)
  }

  lemma InvKept(s: Sys, a: Action)
    requires Inv(s) && Enabled(s, a)
    ensures Inv(Next(s, a))
  {
    hide Front, Rest;
  }

  lemma {:induction false} Always(states: seq<Sys>, acts: seq<Action>, i: nat)
    requires Run(states, acts) && i < |states|
    ensures Inv(states[i])
  {
    if i > 0 {
      Always(states, acts, i - 1);
      InvKept(states[i - 1], acts[i - 1]);
      hide Inv, Next, Enabled;
    }
  }

  lemma RunStep(states: seq<Sys>, acts: seq<Action>, k: nat)
    requires Run(states, acts)
    ensures |states| == |acts| + 1 && states[0] == INITIAL
    ensures k < |acts| ==> Enabled(states[k], acts[k]) && states[k + 1] == Next(states[k], acts[k])
  {
  }

  // ---- which messages are handled ----

  /** The message whose handling begins as a thread gets from s to s' by this step. */
  function BegunBy(a: Action, s': Sys): seq<Msg> {
    if a == Dequeue && s'.thread.Handling? then [s'.thread.msg] else []
  }

  /** The messages whose handling began from step i up to step n, in that order. */
  function Begun(states: seq<Sys>, acts: seq<Action>, i: nat, n: nat): seq<Msg>
    requires i <= n <= |acts| && |states| == |acts| + 1
    decreases n
  {
    if i == n then [] else Begun(states, acts, i, n - 1) + BegunBy(acts[n - 1], states[n])
  }

  function EnqueuedBy(a: Action): seq<Msg> {
    if a.Enqueue? then [a.msg] else []
  }

  function Enqueued(acts: seq<Action>, n: nat): seq<Msg>
    requires n <= |acts|
  {
    if n == 0 then [] else Enqueued(acts, n - 1) + EnqueuedBy(acts[n - 1])
  }

  /** The thread takes the earliest of the highest priority, leaves the rest waiting, and nothing else takes any. */
  lemma TakesFirst(s: Sys, a: Action)
    requires Enabled(s, a)
    ensures var s' := Next(s, a);
            if a == Dequeue && s.queue != [] then
              exists k :: 0 <= k < |s.queue|
                && s'.thread == Handling(s.queue[k]) && s'.queue == RemoveAt(s.queue, k)
                && (forall j :: 0 <= j < |s.queue| ==> s.queue[j].Priority() <= s.queue[k].Priority())
                && (forall j :: 0 <= j < k ==> s.queue[j].Priority() < s.queue[k].Priority())
            else BegunBy(a, s') == [] && s'.queue == s.queue + EnqueuedBy(a)
  {
    if a == Dequeue && s.queue != [] {
      var k := Pick(s.queue);
      assert Next(s, a).thread == Handling(s.queue[k]) && Next(s, a).queue == RemoveAt(s.queue, k);
    }
  }

  lemma StepMoves(s: Sys, a: Action)
    requires Enabled(s, a)
    ensures Moves(s.queue, BegunBy(a, Next(s, a)), EnqueuedBy(a), Next(s, a).queue)
  {
    hide Front, Rest;
  }

  /** In every run, of each priority, the messages begun and then those waiting are those enqueued, in order. */
  lemma {:induction false} BegunAsEnqueued(states: seq<Sys>, acts: seq<Action>, i: nat, p: nat)
    requires Run(states, acts) && i < |states|
    ensures Filter(OfPriority(p), Begun(states, acts, 0, i)) + Filter(OfPriority(p), states[i].queue) ==
            Filter(OfPriority(p), Enqueued(acts, i))
  {
    hide Run, Next, Enabled, Filter, OfPriority, Moves, BegunBy, EnqueuedBy;
    RunStep(states, acts, 0);
    NoneMatch(OfPriority(p));
    if i > 0 {
      RunStep(states, acts, i - 1);
      BegunAsEnqueued(states, acts, i - 1, p);
      StepMoves(states[i - 1], acts[i - 1]);
      MovesInOrder(p, Begun(states, acts, 0, i - 1), Enqueued(acts, i - 1), states[i - 1].queue,
                   BegunBy(acts[i - 1], states[i]), EnqueuedBy(acts[i - 1]), states[i].queue);
    }
  }

  /** In every run the messages begun and those waiting are together those enqueued; none is lost or handled twice. */
  lemma {:induction false} NoneLost(states: seq<Sys>, acts: seq<Action>, i: nat)
    requires Run(states, acts) && i < |states|
    ensures multiset(Begun(states, acts, 0, i)) + multiset(states[i].queue) == multiset(Enqueued(acts, i))
  {
    hide Run, Next, Enabled, Moves, BegunBy, EnqueuedBy;
    RunStep(states, acts, 0);
    if i > 0 {
      RunStep(states, acts, i - 1);
      NoneLost(states, acts, i - 1);
      StepMoves(states[i - 1], acts[i - 1]);
      MovesKeepAll(Begun(states, acts, 0, i - 1), Enqueued(acts, i - 1), states[i - 1].queue,
                   BegunBy(acts[i - 1], states[i]), EnqueuedBy(acts[i - 1]), states[i].queue);
    }
  }

  /** Running was set by a start and not cleared since; the queue is shut down once stop has notified it. */
  lemma {:induction false} FlagsFollow(states: seq<Sys>, acts: seq<Action>, i: nat)
    requires Run(states, acts) && i < |states|
    ensures states[i].running <==>
            exists k :: 0 <= k < i && acts[k].Start? && forall j :: k < j < i ==> acts[j] != Clear
    ensures states[i].shutdown <==> Notify in acts[..i]
  {
    hide Run;
    RunStep(states, acts, 0);
    if i > 0 {
      RunStep(states, acts, i - 1);
      FlagsFollow(states, acts, i - 1);
      assert acts[..i] == acts[..i - 1] + [acts[i - 1]];
      assert states[i].running <==> acts[i - 1].Start? || (states[i - 1].running && acts[i - 1] != Clear);
      assert states[i].shutdown <==> acts[i - 1] == Notify || states[i - 1].shutdown;
      hide Next, Enabled;
    }
  }

  lemma BegunStopped(s: Sys, a: Action)
    requires Enabled(s, a) && !s.running && !Next(s, a).running
    ensures |BegunBy(a, Next(s, a))| + (if Next(s, a).thread == Dequeuing then 1 else 0)
            <= if s.thread == Dequeuing then 1 else 0
  {
  }

  /** A stopped thread's one more message: it can only begin if the thread had already passed its test. */
  lemma {:induction false} BegunAfter(states: seq<Sys>, acts: seq<Action>, i: nat, n: nat)
    requires Run(states, acts) && i <= n < |states| && forall k :: i <= k <= n ==> !states[k].running
    ensures |Begun(states, acts, i, n)| + (if states[n].thread == Dequeuing then 1 else 0) <= 1
    decreases n
  {
    if i < n {
      BegunAfter(states, acts, i, n - 1);
      RunStep(states, acts, n - 1);
      assert !states[n - 1].running && !states[n].running;
      hide Run;
      BegunStopped(states[n - 1], acts[n - 1]);
      hide Next, Enabled, BegunBy;
    }
  }

  lemma {:induction false} StaysClear(states: seq<Sys>, acts: seq<Action>, c: nat, k: nat)
    requires Run(states, acts) && c < k < |states| && acts[c] == Clear
    requires forall j :: c < j < k ==> !acts[j].Start?
    ensures !states[k].running
  {
    if c + 1 < k { StaysClear(states, acts, c, k - 1); }
  }

  /** Once stop has cleared running, and until the next start, at most one more message begins to be handled. */
  lemma AtMostOneMore(states: seq<Sys>, acts: seq<Action>, c: nat, n: nat)
    requires Run(states, acts) && c < n < |states| && acts[c] == Clear
    requires forall j :: c < j < n ==> !acts[j].Start?
    ensures |Begun(states, acts, c + 1, n)| <= 1
  {
    forall k | c + 1 <= k <= n ensures !states[k].running {
      StaysClear(states, acts, c, k);
    }
    BegunAfter(states, acts, c + 1, n);
  }

  /** After stop has returned both threads have ended, until the task is started again. */
  lemma StoppedMeansEnded(states: seq<Sys>, acts: seq<Action>, i: nat)
    requires Run(states, acts) && i < |states| && !states[i].running && states[i].stopper == Idle
    ensures forall a :: Enabled(states[i], a) ==> !QueueStep(a) && !PeriodicStep(a)
  {
    Always(states, acts, i);
  }

  // ---- the periodic thread ----

  /** Whether the last start found an interval set. */
  function LastStart(acts: seq<Action>, i: nat): bool
    requires i <= |acts|
  {
    if i == 0 then false else if acts[i - 1].Start? then acts[i - 1].hasInterval else LastStart(acts, i - 1)
  }

  lemma PeriodicStays(s: Sys, a: Action)
    requires Enabled(s, a) && !a.Start?
    ensures Next(s, a).periodic == Absent <==> s.periodic == Absent
    ensures Next(s, a).running ==> s.running && (Next(s, a).periodic == Ended ==> s.periodic == Ended)
  {
    hide Front, Rest;
  }

  /** A task has a periodic thread exactly if it was last started with an interval, and it lives while the task runs. */
  lemma {:induction false} PeriodicIff(states: seq<Sys>, acts: seq<Action>, i: nat)
    requires Run(states, acts) && i < |states|
    ensures states[i].periodic != Absent <==> LastStart(acts, i)
    ensures states[i].running ==> states[i].periodic != Ended
  {
    RunStep(states, acts, 0);
    if i > 0 {
      RunStep(states, acts, i - 1);
      PeriodicIff(states, acts, i - 1);
      if !acts[i - 1].Start? {
        PeriodicStays(states[i - 1], acts[i - 1]);
        hide Next, Enabled;
      }
    }
  }

  /** Where the periodic thread is after its test, by what it has done since. */
  ghost predicate InCycle(acts: seq<Action>, i: nat, n: nat, periodic: Periodic)
    requires i < n <= |acts|
  {
    || periodic == Processing
    || (periodic == Sleeping && exists p :: i < p < n && acts[p] == ProcessReturns)
    || exists p, w :: i < p < w < n && acts[p] == ProcessReturns && acts[w] == Wake
  }

  lemma CycleStep(s: Sys, a: Action)
    requires Enabled(s, a) && !a.Start?
    ensures s.periodic == Processing ==> Next(s, a).periodic == if a == ProcessReturns then Sleeping else Processing
    ensures s.periodic == Sleeping && a != Wake ==> Next(s, a).periodic == Sleeping
  {
    hide Front, Rest;
  }

  lemma {:induction false} StaysInCycle(states: seq<Sys>, acts: seq<Action>, i: nat, n: nat)
    requires Run(states, acts) && i < n <= |acts| && acts[i] == TestPeriodic && states[i].running
    requires forall k :: i < k < n ==> !acts[k].Start?
    ensures InCycle(acts, i, n, states[n].periodic)
  {
    RunStep(states, acts, n - 1);
    if i + 1 < n {
      StaysInCycle(states, acts, i, n - 1);
      CycleStep(states[n - 1], acts[n - 1]);
      hide Next, Enabled, Run;
    }
  }

  /** Between two tests of the periodic thread its processing has returned and then it has slept. */
  lemma SleepsBetween(states: seq<Sys>, acts: seq<Action>, i: nat, n: nat) returns (p: nat, w: nat)
    requires Run(states, acts) && i < n < |acts| && acts[i] == acts[n] == TestPeriodic && states[i].running
    requires forall k :: i < k < n ==> !acts[k].Start?
    ensures i < p < w < n && acts[p] == ProcessReturns && acts[w] == Wake
  {
    StaysInCycle(states, acts, i, n);
    RunStep(states, acts, n);
    p, w :| i < p < w < n && acts[p] == ProcessReturns && acts[w] == Wake;
  }

  // ---- stopping ----

  function Count(p: Action -> bool, acts: seq<Action>): nat {
    if acts == [] then 0 else (if p(acts[|acts| - 1]) then 1 else 0) + Count(p, acts[..|acts| - 1])
  }

  lemma CountLast(p: Action -> bool, acts: seq<Action>, i: nat, n: nat)
    requires i < n <= |acts|
    ensures Count(p, acts[i..n]) == Count(p, acts[i..n - 1]) + if p(acts[n - 1]) then 1 else 0
  {
    assert acts[i..n][..n - i - 1] == acts[i..n - 1];
  }

  lemma StepUses(s: Sys, a: Action)
    requires Enabled(s, a) && !s.running && !Next(s, a).running
    ensures (if QueueStep(a) then 1 else 0) + QueueMeasure(Next(s, a).thread) <= QueueMeasure(s.thread)
    ensures (if PeriodicStep(a) then 1 else 0) + PeriodicMeasure(Next(s, a).periodic) <= PeriodicMeasure(s.periodic)
  {
  }

  /** While running stays false, each thread's steps use up its measure and no other step adds to it. */
  lemma {:induction false} ThreadsEnd(states: seq<Sys>, acts: seq<Action>, i: nat, n: nat)
    requires Run(states, acts) && i <= n < |states|
    requires forall k :: i <= k <= n ==> !states[k].running
    ensures Count(QueueStep, acts[i..n]) + QueueMeasure(states[n].thread) <= QueueMeasure(states[i].thread)
    ensures Count(PeriodicStep, acts[i..n]) + PeriodicMeasure(states[n].periodic)
            <= PeriodicMeasure(states[i].periodic)
    decreases n
  {
    if i < n {
      assert states[n] == Next(states[n - 1], acts[n - 1]) && !states[n].running && !states[n - 1].running;
      StepUses(states[n - 1], acts[n - 1]);
      CountLast(QueueStep, acts, i, n);
      CountLast(PeriodicStep, acts, i, n);
      hide QueueMeasure, PeriodicMeasure, QueueStep, PeriodicStep, Count, Next, Enabled;
      ThreadsEnd(states, acts, i, n - 1);
    } else {
      assert acts[i..n] == [];
    }
  }

  /** A message waits and the thread of a running task is about to take one, in this many steps of its own. */
  ghost predicate Due(s: Sys, steps: nat) {
    s.running && s.queue != [] && ((s.thread == Testing && steps == 2) || (s.thread == Dequeuing && steps == 1))
  }

  lemma DueStep(s: Sys, a: Action, steps: nat)
    requires Enabled(s, a) && Due(s, steps) && a != Clear
    ensures steps == 1 || steps == 2
    ensures if QueueStep(a) then (steps == 2 && Due(Next(s, a), 1)) || (steps == 1 && BegunBy(a, Next(s, a)) != [])
            else Due(Next(s, a), steps)
  {
    hide Front, Rest;
  }

  /** Such a thread is not blocked. */
  lemma DueCanStep(s: Sys, steps: nat)
    requires Due(s, steps)
    ensures exists a :: QueueStep(a) && Enabled(s, a)
  {
    assert QueueStep(if steps == 2 then Test else Dequeue) && Enabled(s, if steps == 2 then Test else Dequeue);
  }

  lemma NoneCounted(p: Action -> bool)
    ensures Count(p, []) == 0
  {
  }

  /** With a message waiting, a running thread at its test has begun one after two steps of its own. */
  lemma {:induction false} ComesToHandle(states: seq<Sys>, acts: seq<Action>, i: nat, n: nat)
    requires Run(states, acts) && i <= n < |states| && Due(states[i], 2)
    requires forall k :: i <= k < n ==> acts[k] != Clear
    ensures Count(QueueStep, acts[i..n]) >= 2 ==> Begun(states, acts, i, n) != []
    ensures Begun(states, acts, i, n) == [] ==>
              Count(QueueStep, acts[i..n]) <= 1 && Due(states[n], 2 - Count(QueueStep, acts[i..n]))
    decreases n
  {
    hide Run, Next, Enabled, BegunBy, Count, Due;
    RunStep(states, acts, 0);
    if i < n {
      RunStep(states, acts, n - 1);
      ComesToHandle(states, acts, i, n - 1);
      CountLast(QueueStep, acts, i, n);
      if Begun(states, acts, i, n - 1) == [] {
        DueStep(states[n - 1], acts[n - 1], 2 - Count(QueueStep, acts[i..n - 1]));
      }
    } else {
      NoneCounted(QueueStep);
      assert acts[i..n] == [];
    }
  }

  predicate Joining(s: Sys) { s.stopper == Notified || s.stopper == QueueJoined }

  /** The thread that stop waits for next has a step to take, or its join goes through. */
  ghost predicate StopAdvances(s: Sys) {
    if s.stopper == Notified then
      if s.thread == Exited then Enabled(s, JoinQueue) else exists a :: QueueStep(a) && Enabled(s, a)
    else
      if PeriodicMeasure(s.periodic) == 0 then Enabled(s, JoinPeriodic)
      else exists a :: PeriodicStep(a) && Enabled(s, a)
  }

  lemma JoiningAdvances(s: Sys)
    requires Inv(s) && Joining(s)
    ensures StopAdvances(s)
  {
    assert s.thread == Testing ==> QueueStep(Test) && Enabled(s, Test);
    assert s.thread == Dequeuing ==> QueueStep(Dequeue) && Enabled(s, Dequeue);
    assert s.thread.Handling? ==> QueueStep(HandlerReturns) && Enabled(s, HandlerReturns);
    assert s.periodic == Looping ==> PeriodicStep(TestPeriodic) && Enabled(s, TestPeriodic);
    assert s.periodic == Processing ==> PeriodicStep(ProcessReturns) && Enabled(s, ProcessReturns);
    assert s.periodic == Sleeping ==> PeriodicStep(Wake) && Enabled(s, Wake);
  }

  /**
   After notify_shutdown neither thread blocks: each takes at most three more steps, the one that stop waits for
   always has a step until it has ended, and then its join goes through.
   */
  lemma BoundedStop(states: seq<Sys>, acts: seq<Action>, i: nat, n: nat)
    requires Run(states, acts) && i <= n < |states|
    requires forall k :: i <= k <= n ==> Joining(states[k])
    ensures Count(QueueStep, acts[i..n]) <= 3 && Count(PeriodicStep, acts[i..n]) <= 3
    ensures StopAdvances(states[n])
    ensures Count(QueueStep, acts[i..n]) == QueueMeasure(states[i].thread) ==> states[n].thread == Exited
    ensures Count(PeriodicStep, acts[i..n]) == PeriodicMeasure(states[i].periodic) ==>
              states[n].periodic == Absent || states[n].periodic == Ended
  {
    forall k | i <= k <= n ensures !states[k].running {
      Always(states, acts, k);
    }
    Always(states, acts, n);
    ThreadsEnd(states, acts, i, n);
    JoiningAdvances(states[n]);
  }
}
