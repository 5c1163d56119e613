/** The broadcast system over heaps: a task handles any entry that its heap may serve. */
module HeapBroadcast {
  import opened Messages
  import opened Sequences
  import opened StableQueue
  import opened NodeHeap
  import opened Broker
  import opened Ports
  import B = Broadcast

  datatype Net = Net(net: B.Net, ports: map<TaskId, Port>)

  /** A step of the broadcast system but no handling, the handling of the k-th entry, a dequeue from an empty queue. */
  datatype Step = Do(act: B.Action) | Serve(task: TaskId, k: nat, zeroed: bool) | FindEmpty(task: TaskId)

  function PortOf(s: Net, t: TaskId): Port {
    if t in s.ports then s.ports[t] else CLOSED
  }

  function Waiting(s: Net, t: TaskId): seq<Msg> {
    B.Unwrap(Box(s.net.mail, t))
  }

  function EffectOn(s: Net, step: Step, t: TaskId): Effect {
    match step
    case Do(a) =>
      if a == B.Visit && B.Enabled(s.net, a) && B.FanList(s.net)[s.net.fan.value] == t && t in s.net.live then Arrived
      else if a.Direct? && a.task == t then Arrived
      else Untouched
    case Serve(u, k, zeroed) => if u == t then Served(k, zeroed) else Untouched
    case FindEmpty(u) => if u == t then FoundEmpty else Untouched
  }

  ghost predicate Steps(s: Net, step: Step, s': Net) {
    && (match step
        case Do(a) => !a.Handle? && B.Enabled(s.net, a) && s'.net == B.Next(s.net, a)
        case Serve(t, k, _) => k < |Box(s.net.mail, t)| && s'.net == B.Served(s.net, t, k)
        case FindEmpty(_) => s'.net == s.net)
    && forall t :: Allowed(Waiting(s, t), PortOf(s, t), EffectOn(s, step, t)) &&
                   PortOf(s', t) == After(PortOf(s, t), EffectOn(s, step, t))
  }

  ghost predicate Run(states: seq<Net>, steps: seq<Step>) {
    && |states| == |steps| + 1
    && states[0] == Net(B.INITIAL, map[])
    && forall i :: 0 <= i < |steps| ==> Steps(states[i], steps[i], states[i + 1])
  }

  /** How many messages the first i steps put into the queue since its counter was last zeroed. */
  function Arrivals(states: seq<Net>, steps: seq<Step>, i: nat, t: TaskId): nat
    requires i <= |steps| && |states| == |steps| + 1
  {
    if i == 0 then 0 else Counted(Arrivals(states, steps, i - 1, t), EffectOn(states[i - 1], steps[i - 1], t))
  }

  /** No queue takes more than 2^32 messages between two zeroings of its counter. */
  ghost predicate Bounded(states: seq<Net>, steps: seq<Step>)
    requires |states| == |steps| + 1
  {
    forall i, t :: 0 <= i < |states| ==> Arrivals(states, steps, i, t) <= SEQUENCE_MODULUS
  }

  ghost predicate AllInStep(states: seq<Net>, steps: seq<Step>, i: nat)
    requires i < |states| && |states| == |steps| + 1
  {
    forall t :: InStep(Waiting(states[i], t), PortOf(states[i], t), Arrivals(states, steps, i, t))
  }

  lemma UnwrapAppend(q: seq<B.Entry>, e: B.Entry)
    ensures B.Unwrap(q + [e]) == B.Unwrap(q) + [e.msg]
  {
  }

  lemma UnwrapRemoveAt(q: seq<B.Entry>, k: nat)
    requires k < |q|
    ensures B.Unwrap(RemoveAt(q, k)) == RemoveAt(B.Unwrap(q), k)
  {
  }

  lemma WaitingFollows(s: Net, step: Step, s': Net, t: TaskId)
    requires Steps(s, step, s')
    ensures Follows(Waiting(s, t), EffectOn(s, step, t), Waiting(s', t))
  {
    hide Allowed, After, RemoveAt, B.Unwrap;
    match step {
      case Do(a) =>
        match a {
          case Visit => UnwrapAppend(Box(s.net.mail, t), B.Entry(Some(|s.net.log| - 1), B.Current(s.net).msg));
          case Direct(u, m) => UnwrapAppend(Box(s.net.mail, t), B.Entry(None, m));
          case _ =>
        }
      case Serve(u, k, _) => if u == t { UnwrapRemoveAt(Box(s.net.mail, t), k); }
      case _ =>
    }
  }

  lemma RunStep(states: seq<Net>, steps: seq<Step>, i: nat)
    requires Run(states, steps) && i < |steps|
    ensures |states| == |steps| + 1 && Steps(states[i], steps[i], states[i + 1])
  {
  }

  lemma StepKeeps(states: seq<Net>, steps: seq<Step>, i: nat)
    requires Run(states, steps) && Bounded(states, steps) && i < |steps| && AllInStep(states, steps, i)
    ensures AllInStep(states, steps, i + 1)
  {
    RunStep(states, steps, i);
    var s, step, s' := states[i], steps[i], states[i + 1];
    hide Run, InStep, Follows;
    forall t ensures InStep(Waiting(s', t), PortOf(s', t), Arrivals(states, steps, i + 1, t)) {
      WaitingFollows(s, step, s', t);
      assert Allowed(Waiting(s, t), PortOf(s, t), EffectOn(s, step, t));
      assert Arrivals(states, steps, i + 1, t) <= SEQUENCE_MODULUS;
      InStepKept(Waiting(s, t), PortOf(s, t), EffectOn(s, step, t), Waiting(s', t), Arrivals(states, steps, i, t));
    }
  }

  /** The step of the broadcast system that a heap step is, if it changes anything there. */
  function Abstract(step: Step): seq<B.Action> {
    match step
    case Do(a) => [a]
    case Serve(t, _, _) => [B.Handle(t)]
    case FindEmpty(_) => []
  }

  lemma StepRefines(states: seq<Net>, steps: seq<Step>, i: nat)
    requires Run(states, steps) && i < |steps| && AllInStep(states, steps, i)
    ensures var s, step, s' := states[i], steps[i], states[i + 1];
            if Abstract(step) == [] then s'.net == s.net
            else B.Enabled(s.net, Abstract(step)[0]) && s'.net == B.Next(s.net, Abstract(step)[0])
  {
    RunStep(states, steps, i);
    var s, step := states[i], steps[i];
    hide Run;
    if step.Serve? {
      var t, k := step.task, step.k;
      assert Allowed(Waiting(s, t), PortOf(s, t), EffectOn(s, step, t));
      ServesStably(Waiting(s, t), PortOf(s, t), Arrivals(states, steps, i, t), k);
    }
  }

  lemma InStepAtFirst(states: seq<Net>, steps: seq<Step>)
    requires Run(states, steps)
    ensures AllInStep(states, steps, 0)
  {
  }

  /** Within the bound, whatever the heaps choose, every state is the last one of a run of the broadcast system. */
  lemma {:induction false} Refines(states: seq<Net>, steps: seq<Step>, i: nat)
    returns (nets: seq<B.Net>, acts: seq<B.Action>)
    requires Run(states, steps) && Bounded(states, steps) && i < |states|
    ensures B.Run(nets, acts) && nets[|acts|] == states[i].net && AllInStep(states, steps, i)
  {
    hide AllInStep, Bounded, B.Enabled, B.Next, PortOf, Steps;
    if i == 0 {
      InStepAtFirst(states, steps);
      nets, acts := [B.INITIAL], [];
    } else {
      nets, acts := Refines(states, steps, i - 1);
      StepRefines(states, steps, i - 1);
      StepKeeps(states, steps, i - 1);
      var made := Abstract(steps[i - 1]);
      if made != [] {
        B.RunAppend(nets, acts, made[0]);
        nets, acts := nets + [states[i].net], acts + [made[0]];
      }
    }
  }

  /** So total order holds over heaps: two tasks have handled what reached both, of one priority, in one order. */
  lemma TotalOrder(states: seq<Net>, steps: seq<Step>, i: nat, a: TaskId, b: TaskId, p: nat)
    requires Run(states, steps) && Bounded(states, steps) && i < |states|
    ensures var x, y := B.CommonHandled(states[i].net, a, b, p), B.CommonHandled(states[i].net, b, a, p);
            x <= y || y <= x
  {
    var nets, acts := Refines(states, steps, i);
    B.TotalOrder(nets, acts, |acts|, a, b, p);
  }
}

/** The state protocol over heaps: tasks and manager take any message that their heaps may serve. */
module HeapAgreement {
  import opened Messages
  import opened Sequences
  import opened StableQueue
  import opened NodeHeap
  import opened Ports
  import A = Agreement
  import C = Channels

  /** The manager's queue is that of None. */
  type QueueId = Option<TaskId>

  datatype Sys = Sys(sys: A.Sys, ports: map<QueueId, Port>)

  /** A step of the protocol other than a dequeue; a dequeue of the k-th message; a dequeue from an empty queue. */
  datatype Step = Do(act: A.Action) | Serve(queue: QueueId, k: nat, zeroed: bool) | FindEmpty(queue: QueueId)

  function PortOf(s: Sys, q: QueueId): Port {
    if q in s.ports then s.ports[q] else CLOSED
  }

  function Dequeues(q: QueueId): A.Action {
    if q == None then A.ManagerTake else A.Take(q.value)
  }

  predicate Delivers(a: A.Action, q: QueueId) {
    match a
    case Broadcast(to, _) => q.Some? && q.value in to
    case OtherToTask(t, _) => q == Some(t)
    case MarkDeliver(t) => q == Some(t)
    case OtherToManager(_) => q == None
    case Acknowledge(_) => q == None
    case _ => false
  }

  function EffectOn(step: Step, q: QueueId): Effect {
    match step
    case Do(a) => if Delivers(a, q) then Arrived else Untouched
    case Serve(u, k, zeroed) => if u == q then Served(k, zeroed) else Untouched
    case FindEmpty(u) => if u == q then FoundEmpty else Untouched
  }

  ghost predicate Steps(s: Sys, step: Step, s': Sys) {
    && (match step
        case Do(a) => !a.Take? && !a.ManagerTake? && A.Enabled(s.sys, a) && s'.sys == A.Next(s.sys, a)
        case Serve(q, k, _) =>
          && A.Enabled(s.sys, Dequeues(q)) && k < |C.BoxOf(s.sys, q)|
          && s'.sys == if q == None then A.ManagerTakes(s.sys, k) else A.TaskTakes(s.sys, q.value, k)
        case FindEmpty(_) => s'.sys == s.sys)
    && forall q :: Allowed(C.BoxOf(s.sys, q), PortOf(s, q), EffectOn(step, q)) &&
                   PortOf(s', q) == After(PortOf(s, q), EffectOn(step, q))
  }

  ghost predicate Run(states: seq<Sys>, steps: seq<Step>) {
    && |states| == |steps| + 1
    && states[0] == Sys(A.Initial(states[0].sys.manager), map[])
    && forall i :: 0 <= i < |steps| ==> Steps(states[i], steps[i], states[i + 1])
  }

  /** How many messages the first i steps put into the queue since its counter was last zeroed. */
  function Arrivals(states: seq<Sys>, steps: seq<Step>, i: nat, q: QueueId): nat
    requires i <= |steps| && |states| == |steps| + 1
  {
    if i == 0 then 0 else Counted(Arrivals(states, steps, i - 1, q), EffectOn(steps[i - 1], q))
  }

  /** No queue takes more than 2^32 messages between two zeroings of its counter. */
  ghost predicate Bounded(states: seq<Sys>, steps: seq<Step>)
    requires |states| == |steps| + 1
  {
    forall i, q :: 0 <= i < |states| ==> Arrivals(states, steps, i, q) <= SEQUENCE_MODULUS
  }

  ghost predicate AllInStep(states: seq<Sys>, steps: seq<Step>, i: nat)
    requires i < |states| && |states| == |steps| + 1
  {
    forall q :: InStep(C.BoxOf(states[i].sys, q), PortOf(states[i], q), Arrivals(states, steps, i, q))
  }

  lemma BoxAfter(s: A.Sys, a: A.Action, q: QueueId)
    requires A.Enabled(s, a) && !a.Take? && !a.ManagerTake?
    ensures Follows(C.BoxOf(s, q), if Delivers(a, q) then Arrived else Untouched, C.BoxOf(A.Next(s, a), q))
  {
  }

  lemma WaitingFollows(s: Sys, step: Step, s': Sys, q: QueueId)
    requires Steps(s, step, s')
    ensures Follows(C.BoxOf(s.sys, q), EffectOn(step, q), C.BoxOf(s'.sys, q))
  {
    hide Allowed, After, RemoveAt;
    if step.Do? { BoxAfter(s.sys, step.act, q); }
    hide A.Next;
  }

  lemma RunStep(states: seq<Sys>, steps: seq<Step>, i: nat)
    requires Run(states, steps) && i < |steps|
    ensures |states| == |steps| + 1 && Steps(states[i], steps[i], states[i + 1])
  {
  }

  lemma StepKeeps(states: seq<Sys>, steps: seq<Step>, i: nat)
    requires Run(states, steps) && Bounded(states, steps) && i < |steps| && AllInStep(states, steps, i)
    ensures AllInStep(states, steps, i + 1)
  {
    RunStep(states, steps, i);
    var s, step, s' := states[i], steps[i], states[i + 1];
    hide Run, InStep, Follows;
    forall q ensures InStep(C.BoxOf(s'.sys, q), PortOf(s', q), Arrivals(states, steps, i + 1, q)) {
      WaitingFollows(s, step, s', q);
      assert Allowed(C.BoxOf(s.sys, q), PortOf(s, q), EffectOn(step, q));
      assert Arrivals(states, steps, i + 1, q) <= SEQUENCE_MODULUS;
      InStepKept(C.BoxOf(s.sys, q), PortOf(s, q), EffectOn(step, q), C.BoxOf(s'.sys, q), Arrivals(states, steps, i, q));
    }
  }

  /** The protocol step that a heap step is, if it changes anything there. */
  function Abstract(step: Step): seq<A.Action> {
    match step
    case Do(a) => [a]
    case Serve(q, _, _) => [Dequeues(q)]
    case FindEmpty(_) => []
  }

  function Protocol(steps: seq<Step>): seq<A.Action> {
    if steps == [] then [] else Protocol(steps[..|steps| - 1]) + Abstract(steps[|steps| - 1])
  }

  lemma ProtocolNext(steps: seq<Step>, i: nat)
    requires i < |steps|
    ensures var step, acts := steps[i], Protocol(steps[..i]);
            Protocol(steps[..i + 1]) == if Abstract(step) == [] then acts else acts + [Abstract(step)[0]]
  {
    assert steps[..i + 1][..i] == steps[..i];
  }

  lemma ServesAsDequeue(s: A.Sys, q: QueueId)
    requires A.Enabled(s, Dequeues(q))
    ensures var box := C.BoxOf(s, q);
            && box != [] && (q.Some? ==> q.value in s.tasks)
            && A.Next(s, Dequeues(q)) ==
               if q == None then A.ManagerTakes(s, Pick(box)) else A.TaskTakes(s, q.value, Pick(box))
  {
  }

  lemma StepRefines(states: seq<Sys>, steps: seq<Step>, i: nat)
    requires Run(states, steps) && i < |steps| && AllInStep(states, steps, i)
    ensures var s, step, s' := states[i], steps[i], states[i + 1];
            if Abstract(step) == [] then s'.sys == s.sys
            else A.Enabled(s.sys, Abstract(step)[0]) && s'.sys == A.Next(s.sys, Abstract(step)[0])
  {
    RunStep(states, steps, i);
    var s, step := states[i], steps[i];
    hide Run, A.Next, A.TaskTakes, A.ManagerTakes, InStep, Leads;
    if step.Serve? {
      var q, k := step.queue, step.k;
      assert Allowed(C.BoxOf(s.sys, q), PortOf(s, q), EffectOn(step, q));
      ServesStably(C.BoxOf(s.sys, q), PortOf(s, q), Arrivals(states, steps, i, q), k);
      ServesAsDequeue(s.sys, q);
    }
  }

  lemma Starts(states: seq<Sys>, steps: seq<Step>)
    requires Run(states, steps)
    ensures |states| == |steps| + 1 && AllInStep(states, steps, 0)
    ensures A.Run([states[0].sys], []) && Protocol(steps[..0]) == []
  {
  }

  /** Within the bound, whatever the heaps choose, the protocol steps of a run are a run of the protocol. */
  lemma {:induction false} Refines(states: seq<Sys>, steps: seq<Step>, i: nat) returns (plain: seq<A.Sys>)
    requires Run(states, steps) && Bounded(states, steps) && i < |states|
    ensures A.Run(plain, Protocol(steps[..i])) && plain[|Protocol(steps[..i])|] == states[i].sys
    ensures |plain| == |Protocol(steps[..i])| + 1 && AllInStep(states, steps, i)
  {
    hide Run, Bounded, Steps, AllInStep, A.Run, A.Enabled, A.Next, PortOf, Protocol;
    Starts(states, steps);
    plain := [states[0].sys];
    if i > 0 {
      ProtocolNext(steps, i - 1);
      plain := Refines(states, steps, i - 1);
      StepRefines(states, steps, i - 1);
      StepKeeps(states, steps, i - 1);
      var made := Abstract(steps[i - 1]);
      if made != [] {
        A.RunAppend(plain, Protocol(steps[..i - 1]), made[0]);
        plain := plain + [states[i].sys];
      }
    }
  }

  /** So agreement at quiescence holds over heaps when every overwrite writes the state last sent to its task. */
  lemma QuiescentAgreement(states: seq<Sys>, steps: seq<Step>, i: nat)
    requires Run(states, steps) && Bounded(states, steps) && i < |states|
    requires A.WritesMatch(Protocol(steps[..i]), |Protocol(steps[..i])|)
    ensures A.AgreesWhenQuiescent(states[i].sys)
  {
    var plain := Refines(states, steps, i);
    A.QuiescentAgreement(plain, Protocol(steps[..i]), |Protocol(steps[..i])|);
  }
}
