/**
 Runs of the failure detector. A step is one task's turn in a pass of the heartbeat task, or the handling
 of one acknowledgment, or a registration with the state manager; clock readings never decrease.
 */
module HeartBeatRuns {
  import opened Messages
  import opened StateManager
  import opened HeartBeat

  datatype Config = Config(self: TaskId, timeoutMs: nat, hasManager: bool)

  /** ordinal: which heartbeat, counted over all tasks, was the last one sent to this task. */
  datatype View = View(status: Status, ordinal: nat, sent: nat, acked: nat, timedOut: nat)

  /** count is the number of heartbeats sent so far; observing: the manager tells of registrations. */
  datatype Sys = Sys(tasks: map<TaskId, View>, records: Records, observing: bool, count: nat, now: nat)

  datatype Action =
    | Observe(time: nat)
    | Register(task: TaskId, time: nat)
    | Send(task: TaskId, time: nat)
    | Check(task: TaskId, time: nat)
    | Ack(task: TaskId, id: nat, time: nat)
    | StateAck(msg: Msg, time: nat)

  const INITIAL := Sys(map[], map[], false, 0, 0)

  /** next_heartbeat_id starts at 1 and wraps. */
  function IdOf(ordinal: nat): nat { (ordinal + 1) % ID_MODULUS }

  predicate Enabled(s: Sys, a: Action) {
    && s.now <= a.time
    && match a
       case Send(t, _) => t in s.tasks && !s.tasks[t].status.awaiting
       case Check(t, _) => t in s.tasks
       case _ => true
  }

  function CheckedView(c: Config, v: View, time: nat): View {
    v.(status := Checked(v.status, time, c.timeoutMs),
       timedOut := if Expired(v.status, time, c.timeoutMs) then v.timedOut + 1 else v.timedOut)
  }

  function AckedView(v: View, id: nat, time: nat): View {
    v.(status := Acked(v.status, id, time),
       acked := if v.status.awaiting && v.status.lastId == id then v.acked + 1 else v.acked)
  }

  /** The step hands t to the state manager as unresponsive. */
  predicate Marks(c: Config, s: Sys, a: Action, t: TaskId) {
    a.Check? && a.task == t && t in s.tasks && c.hasManager && Expired(s.tasks[t].status, a.time, c.timeoutMs)
  }

  function Next(c: Config, s: Sys, a: Action): Sys
    requires Enabled(s, a)
  {
    match a
    case Observe(time) => s.(observing := true, now := time)
    case Register(t, time) =>
      s.(records := Registered(s.records, t), now := time,
         tasks := if !s.observing || t == c.self || t in s.tasks then s.tasks
                  else s.tasks[t := View(NewStatus(time), 0, 0, 0, 0)])
    case Send(t, time) =>
      var v := s.tasks[t];
      s.(count := s.count + 1, now := time,
         tasks := s.tasks[t := v.(status := Sent(v.status, IdOf(s.count), time),
                                  ordinal := s.count, sent := v.sent + 1)])
    case Check(t, time) =>
      s.(tasks := s.tasks[t := CheckedView(c, s.tasks[t], time)], now := time,
         records := if Marks(c, s, a, t) then MarkedRecords(s.records, t) else s.records)
    case Ack(t, id, time) =>
      s.(tasks := if t in s.tasks then s.tasks[t := AckedView(s.tasks[t], id, time)] else s.tasks, now := time)
    case StateAck(m, time) =>
      s.(records := RecordAck(s.records, m), now := time)
  }

  ghost predicate Run(c: Config, states: seq<Sys>, acts: seq<Action>) {
    && |states| == |acts| + 1
    && states[0] == INITIAL
    && forall i :: 0 <= i < |acts| ==> Enabled(states[i], acts[i]) && states[i + 1] == Next(c, states[i], acts[i])
  }

  // ---- identifiers ----

  /** Two heartbeats share an id exactly when they are a multiple of 2^32 apart. */
  lemma SameIdIff(m: nat, n: nat)
    requires n <= m
    ensures IdOf(m) == IdOf(n) <==> (m - n) % ID_MODULUS == 0
  {
    var a, b := (m + 1) / ID_MODULUS, (n + 1) / ID_MODULUS;
    assert m + 1 == a * ID_MODULUS + IdOf(m) && n + 1 == b * ID_MODULUS + IdOf(n);
    assert m - n == (a - b) * ID_MODULUS + (IdOf(m) - IdOf(n));
  }

  /** The counter of the heartbeat task after n heartbeats. */
  function CounterAfter(n: nat): nat {
    if n == 0 then FIRST_ID else NextId(CounterAfter(n - 1))
  }

  lemma IdNext(n: nat)
    ensures IdOf(n + 1) == NextId(IdOf(n))
  {
    NextNumber(1, n);
  }

  lemma {:induction false} IdIsCounter(n: nat)
    ensures IdOf(n) == CounterAfter(n)
  {
    if n > 0 {
      IdIsCounter(n - 1);
      IdNext(n - 1);
      hide IdOf, NextId;
    }
  }

  /** How many of the first i steps send a heartbeat. */
  function Sends(acts: seq<Action>, i: nat): nat
    requires i <= |acts|
  {
    if i == 0 then 0 else Sends(acts, i - 1) + if acts[i - 1].Send? then 1 else 0
  }

  lemma {:induction false} CountIsSends(c: Config, states: seq<Sys>, acts: seq<Action>, i: nat)
    requires Run(c, states, acts) && i < |states|
    ensures states[i].count == Sends(acts, i)
  {
    if i > 0 { CountIsSends(c, states, acts, i - 1); }
  }

  /** Each heartbeat of a run carries the number that the task's counter has reached by then. */
  lemma HeartbeatNumber(c: Config, states: seq<Sys>, acts: seq<Action>, i: nat)
    requires Run(c, states, acts) && i < |acts| && acts[i].Send?
    ensures acts[i].task in states[i + 1].tasks
    ensures states[i + 1].tasks[acts[i].task].status.lastId == CounterAfter(Sends(acts, i))
  {
    CountIsSends(c, states, acts, i);
    IdIsCounter(Sends(acts, i));
  }

  // ---- invariants ----

  ghost predicate Ledger(v: View) {
    && v.sent == v.acked + v.timedOut + (if v.status.awaiting then 1 else 0)
    && (v.sent == 0 ==> v.status.lastId == 0 && !v.status.awaiting)
    && (v.sent > 0 ==> v.status.lastId == IdOf(v.ordinal))
  }

  ghost predicate OrdinalsApart(s: Sys) {
    && (forall t :: t in s.tasks && s.tasks[t].sent > 0 ==> s.tasks[t].ordinal < s.count)
    && (forall t, u :: t in s.tasks && u in s.tasks && t != u && s.tasks[t].sent > 0 && s.tasks[u].sent > 0 ==>
          s.tasks[t].ordinal != s.tasks[u].ordinal)
  }

  ghost predicate Inv(c: Config, s: Sys) {
    && (forall t :: t in s.tasks ==> Ledger(s.tasks[t]))
    && OrdinalsApart(s)
    && s.tasks.Keys <= s.records.Keys
    && c.self !in s.tasks
  }

  lemma LedgerKept(c: Config, s: Sys, a: Action, t: TaskId)
    requires Enabled(s, a) && t in Next(c, s, a).tasks && (t in s.tasks ==> Ledger(s.tasks[t]))
    ensures Ledger(Next(c, s, a).tasks[t])
  {
    hide ElapsedMs, IdOf;
  }

  lemma OrdinalsKept(c: Config, s: Sys, a: Action)
    requires OrdinalsApart(s) && Enabled(s, a)
    ensures OrdinalsApart(Next(c, s, a))
  {
    hide Checked, Acked, Sent, IdOf;
  }

  lemma InvKept(c: Config, s: Sys, a: Action)
    requires Inv(c, s) && Enabled(s, a)
    ensures Inv(c, Next(c, s, a))
  {
    hide Ledger, OrdinalsApart, CheckedView, AckedView, Expired;
    forall t | t in Next(c, s, a).tasks ensures Ledger(Next(c, s, a).tasks[t]) {
      LedgerKept(c, s, a, t);
    }
    OrdinalsKept(c, s, a);
  }

  lemma {:induction false} Always(c: Config, states: seq<Sys>, acts: seq<Action>, i: nat)
    requires Run(c, states, acts) && i < |states|
    ensures Inv(c, states[i])
  {
    if i > 0 {
      Always(c, states, acts, i - 1);
      InvKept(c, states[i - 1], acts[i - 1]);
    }
  }

  /** A step as t's ledger counts it: a heartbeat to t, an ack that ends its wait, a check that gives it up. */
  predicate SendsTo(a: Action, t: TaskId) { a.Send? && a.task == t }

  predicate AckEndsWait(s: Sys, a: Action, t: TaskId) {
    a.Ack? && a.task == t && t in s.tasks && s.tasks[t].status.awaiting && s.tasks[t].status.lastId == a.id
  }

  predicate GivesUp(c: Config, s: Sys, a: Action, t: TaskId) {
    a.Check? && a.task == t && t in s.tasks && Expired(s.tasks[t].status, a.time, c.timeoutMs)
  }

  function SendsCount(acts: seq<Action>, i: nat, t: TaskId): nat
    requires i <= |acts|
  {
    if i == 0 then 0 else SendsCount(acts, i - 1, t) + if SendsTo(acts[i - 1], t) then 1 else 0
  }

  function AcksCount(states: seq<Sys>, acts: seq<Action>, i: nat, t: TaskId): nat
    requires i <= |acts| && |states| == |acts| + 1
  {
    if i == 0 then 0
    else AcksCount(states, acts, i - 1, t) + if AckEndsWait(states[i - 1], acts[i - 1], t) then 1 else 0
  }

  function TimeoutsCount(c: Config, states: seq<Sys>, acts: seq<Action>, i: nat, t: TaskId): nat
    requires i <= |acts| && |states| == |acts| + 1
  {
    if i == 0 then 0
    else TimeoutsCount(c, states, acts, i - 1, t) + if GivesUp(c, states[i - 1], acts[i - 1], t) then 1 else 0
  }

  lemma LedgerStep(c: Config, s: Sys, a: Action, t: TaskId)
    requires Enabled(s, a)
    ensures t in s.tasks ==> t in Next(c, s, a).tasks
    ensures t in Next(c, s, a).tasks ==>
              var v := Next(c, s, a).tasks[t];
              var sent, acked, timedOut :=
                if t in s.tasks then s.tasks[t].sent else 0, if t in s.tasks then s.tasks[t].acked else 0,
                if t in s.tasks then s.tasks[t].timedOut else 0;
              && v.sent == sent + (if SendsTo(a, t) then 1 else 0)
              && v.acked == acked + (if AckEndsWait(s, a, t) then 1 else 0)
              && v.timedOut == timedOut + (if GivesUp(c, s, a, t) then 1 else 0)
    ensures t !in s.tasks ==> !SendsTo(a, t) && !AckEndsWait(s, a, t) && !GivesUp(c, s, a, t)
  {
    hide ElapsedMs, IdOf;
  }

  lemma {:induction false} LedgerCounts(c: Config, states: seq<Sys>, acts: seq<Action>, i: nat, t: TaskId)
    requires Run(c, states, acts) && i < |states|
    ensures var sent, acked, timedOut :=
              SendsCount(acts, i, t), AcksCount(states, acts, i, t), TimeoutsCount(c, states, acts, i, t);
            if t in states[i].tasks then
              var v := states[i].tasks[t];
              v.sent == sent && v.acked == acked && v.timedOut == timedOut
            else sent == acked == timedOut == 0
  {
    if i > 0 {
      LedgerCounts(c, states, acts, i - 1, t);
      LedgerStep(c, states[i - 1], acts[i - 1], t);
      hide Next, Enabled, SendsTo, AckEndsWait, GivesUp;
    }
  }

  /**
   Heartbeats sent to a task = waits ended by its acks + waits given up by a check + the one outstanding, each
   counted over the steps of the run.
   */
  lemma HeartbeatLedger(c: Config, states: seq<Sys>, acts: seq<Action>, i: nat, t: TaskId)
    requires Run(c, states, acts) && i < |states| && t in states[i].tasks
    ensures SendsCount(acts, i, t) == AcksCount(states, acts, i, t) + TimeoutsCount(c, states, acts, i, t)
                                      + (if states[i].tasks[t].status.awaiting then 1 else 0)
  {
    Always(c, states, acts, i);
    LedgerCounts(c, states, acts, i, t);
  }

  /** The step is heard from t: its first registration with the observer, or an ack for its last heartbeat. */
  predicate HearsFrom(c: Config, s: Sys, a: Action, t: TaskId) {
    || (a.Register? && a.task == t && s.observing && t != c.self && t !in s.tasks)
    || (a.Ack? && a.task == t && t in s.tasks && s.tasks[t].status.lastId == a.id)
  }

  /** When t was last heard from. */
  function LastHeard(c: Config, states: seq<Sys>, acts: seq<Action>, i: nat, t: TaskId): nat
    requires i <= |acts| && |states| == |acts| + 1
  {
    if i == 0 then 0
    else if HearsFrom(c, states[i - 1], acts[i - 1], t) then acts[i - 1].time
    else LastHeard(c, states, acts, i - 1, t)
  }

  lemma ResponseStep(c: Config, s: Sys, a: Action, t: TaskId)
    requires Enabled(s, a) && t in Next(c, s, a).tasks
    ensures t in s.tasks || HearsFrom(c, s, a, t)
    ensures Next(c, s, a).tasks[t].status.lastResponse ==
            if HearsFrom(c, s, a, t) then a.time else s.tasks[t].status.lastResponse
  {
    hide ElapsedMs, IdOf;
  }

  /** A status keeps the time of the task's registration or of the last ack that matched, and no other. */
  lemma {:induction false} ResponseIsLastHeard(c: Config, states: seq<Sys>, acts: seq<Action>, i: nat, t: TaskId)
    requires Run(c, states, acts) && i < |states| && t in states[i].tasks
    ensures states[i].tasks[t].status.lastResponse == LastHeard(c, states, acts, i, t)
  {
    if i > 0 {
      ResponseStep(c, states[i - 1], acts[i - 1], t);
      hide Next, Enabled, HearsFrom;
      if t in states[i - 1].tasks { ResponseIsLastHeard(c, states, acts, i - 1, t); }
    }
  }

  /** Registration, marking and accepted acknowledgments write a record, with their states, and nothing else does. */
  lemma RecordsExact(c: Config, states: seq<Sys>, acts: seq<Action>, i: nat, t: TaskId)
    requires Run(c, states, acts) && i < |acts| && t in states[i + 1].records
    ensures var s, a, r := states[i], acts[i], states[i + 1].records[t];
            if a.Register? && a.task == t then r == NOT_STARTED
            else if Marks(c, s, a, t) then r == ERROR
            else if a.StateAck? && a.msg.data.StateAckMsg? && a.msg.sender == Some(t) then r == a.msg.data.state
            else t in s.records && r == s.records[t]
  {
    Always(c, states, acts, i);
    hide Ledger, OrdinalsApart, CheckedView, AckedView, ElapsedMs, IdOf;
  }

  /** Within 2^32 heartbeats no two tasks hold the same id. */
  lemma IdsNotShared(c: Config, states: seq<Sys>, acts: seq<Action>, i: nat, t: TaskId, u: TaskId)
    requires Run(c, states, acts) && i < |states| && states[i].count <= ID_MODULUS
    requires t in states[i].tasks && u in states[i].tasks && t != u
    requires states[i].tasks[t].sent > 0 && states[i].tasks[u].sent > 0
    ensures states[i].tasks[t].status.lastId != states[i].tasks[u].status.lastId
  {
    Always(c, states, acts, i);
    var m, n := states[i].tasks[t].ordinal, states[i].tasks[u].ordinal;
    if n < m { SameIdIff(m, n); } else { SameIdIff(n, m); }
  }

  /** An ack for heartbeat n clears the wait for a later heartbeat exactly when they are a multiple of 2^32 apart. */
  lemma LateAckIff(c: Config, states: seq<Sys>, acts: seq<Action>, i: nat, t: TaskId, n: nat)
    requires Run(c, states, acts) && i < |acts| && acts[i].Ack? && acts[i].task == t && acts[i].id == IdOf(n)
    requires t in states[i].tasks && states[i].tasks[t].status.awaiting && n <= states[i].tasks[t].ordinal
    ensures t in states[i + 1].tasks
    ensures !states[i + 1].tasks[t].status.awaiting <==> (states[i].tasks[t].ordinal - n) % ID_MODULUS == 0
  {
    Always(c, states, acts, i);
    SameIdIff(states[i].tasks[t].ordinal, n);
  }

  /**
   Only registered tasks are monitored, never the heartbeat task. Only registration adds a record, and only one
   that comes after the heartbeat task became the observer adds a monitored task.
   */
  lemma MonitoringContained(c: Config, states: seq<Sys>, acts: seq<Action>, i: nat)
    requires Run(c, states, acts) && i < |acts|
    ensures states[i].tasks.Keys <= states[i].records.Keys && c.self !in states[i].tasks
    ensures !acts[i].Register? ==>
              states[i + 1].records.Keys == states[i].records.Keys && states[i + 1].tasks.Keys == states[i].tasks.Keys
    ensures acts[i].Register? ==>
              && states[i + 1].records.Keys == states[i].records.Keys + {acts[i].task}
              && states[i + 1].tasks.Keys ==
                 states[i].tasks.Keys + (if states[i].observing then {acts[i].task} - {c.self} else {})
    ensures acts[i].Register? ==> forall t :: t in states[i].tasks ==>
              t in states[i + 1].tasks && states[i + 1].tasks[t] == states[i].tasks[t]
  {
    Always(c, states, acts, i);
  }

  /** Step k registers t, and the heartbeat task became the observer before it. */
  ghost predicate ObservedRegistration(acts: seq<Action>, k: nat, t: TaskId) {
    k < |acts| && acts[k].Register? && acts[k].task == t && exists j :: 0 <= j < k && acts[j].Observe?
  }

  lemma {:induction false} ObservingSince(c: Config, states: seq<Sys>, acts: seq<Action>, i: nat)
    requires Run(c, states, acts) && i < |states|
    ensures states[i].observing <==> exists j :: 0 <= j < i && acts[j].Observe?
  {
    if i > 0 {
      ObservingSince(c, states, acts, i - 1);
      assert states[i] == Next(c, states[i - 1], acts[i - 1]);
    }
  }

  /** Exactly the tasks registered, once or again, after the observer was set are monitored. */
  lemma {:induction false} MonitoredIff(c: Config, states: seq<Sys>, acts: seq<Action>, i: nat, t: TaskId)
    requires Run(c, states, acts) && i < |states|
    ensures t in states[i].tasks <==> t != c.self && exists k :: 0 <= k < i && ObservedRegistration(acts, k, t)
  {
    if i > 0 {
      MonitoredIff(c, states, acts, i - 1, t);
      MonitoringContained(c, states, acts, i - 1);
      ObservingSince(c, states, acts, i - 1);
      hide Next, Enabled;
      assert ObservedRegistration(acts, i - 1, t) <==>
             acts[i - 1].Register? && acts[i - 1].task == t && states[i - 1].observing;
    }
  }

  // ---- accuracy ----

  /** Step j sent t the heartbeat it still awaits at state i: no ack for it came since, and no other send. */
  ghost predicate Outstanding(states: seq<Sys>, acts: seq<Action>, j: nat, i: nat, t: TaskId)
    requires j < i < |states| && |states| == |acts| + 1
  {
    && t in states[i].tasks
    && acts[j] == Send(t, states[i].tasks[t].status.lastSent)
    && states[i].tasks[t].ordinal == states[j].count
    && forall k :: j < k < i ==> !(acts[k].Send? && acts[k].task == t) &&
                                 !(acts[k].Ack? && acts[k].task == t && acts[k].id == IdOf(states[j].count))
  }

  /** A task that awaits an ack after a step was just sent a heartbeat, or awaited it before and got no ack for it. */
  lemma StillAwaiting(c: Config, s: Sys, a: Action, t: TaskId)
    requires Enabled(s, a) && Inv(c, s) && t in Next(c, s, a).tasks && Next(c, s, a).tasks[t].status.awaiting
    ensures var v := Next(c, s, a).tasks[t];
            if a.Send? && a.task == t then a == Send(t, v.status.lastSent) && v.ordinal == s.count
            else
              && t in s.tasks && s.tasks[t].status.awaiting
              && s.tasks[t].status.lastSent == v.status.lastSent && s.tasks[t].ordinal == v.ordinal
              && !(a.Ack? && a.task == t && a.id == IdOf(v.ordinal))
  {
    hide ElapsedMs, IdOf;
  }

  lemma {:induction false} AwaitingMeansOutstanding(c: Config, states: seq<Sys>, acts: seq<Action>, i: nat, t: TaskId)
    returns (j: nat)
    requires Run(c, states, acts) && i < |states| && t in states[i].tasks && states[i].tasks[t].status.awaiting
    ensures j < i && Outstanding(states, acts, j, i, t)
  {
    hide Inv, Next, Enabled;
    if i == 0 {
      assert false;
    }
    var s, a := states[i - 1], acts[i - 1];
    Always(c, states, acts, i - 1);
    StillAwaiting(c, s, a, t);
    if a.Send? && a.task == t {
      j := i - 1;
    } else {
      j := AwaitingMeansOutstanding(c, states, acts, i - 1, t);
    }
  }

  /**
   A task is marked only while it owes an ack for a heartbeat sent at least timeout + 1 ms earlier, with no
   ack for it handled since.
   */
  lemma Accuracy(c: Config, states: seq<Sys>, acts: seq<Action>, i: nat, t: TaskId) returns (j: nat)
    requires Run(c, states, acts) && i < |acts| && Marks(c, states[i], acts[i], t)
    ensures j < i && Outstanding(states, acts, j, i, t)
    ensures acts[j].time + (c.timeoutMs + 1) * TICKS_PER_MS <= acts[i].time
  {
    j := AwaitingMeansOutstanding(c, states, acts, i, t);
    ExpiredIff(states[i].tasks[t].status, acts[i].time, c.timeoutMs);
  }

  // ---- completeness ----

  /** Step i marks t for the heartbeat that step j sent it. */
  ghost predicate MarksFor(c: Config, states: seq<Sys>, acts: seq<Action>, j: nat, i: nat, t: TaskId)
    requires j < |acts| && |states| == |acts| + 1
  {
    j < i < |acts| && Marks(c, states[i], acts[i], t) && states[i].tasks[t].ordinal == states[j].count
  }

  /** No ack from t for the heartbeat of step j is ever handled. */
  ghost predicate NeverAcked(states: seq<Sys>, acts: seq<Action>, j: nat, t: TaskId)
    requires j < |acts| && |states| == |acts| + 1
  {
    forall k :: j < k < |acts| ==> !(acts[k].Ack? && acts[k].task == t && acts[k].id == IdOf(states[j].count))
  }

  predicate IsCheck(acts: seq<Action>, k: nat, t: TaskId)
    requires k < |acts|
  {
    acts[k].Check? && acts[k].task == t
  }

  ghost predicate CheckWithin(acts: seq<Action>, k: nat, t: TaskId, gap: nat)
    requires k < |acts|
  {
    exists n :: k < n < |acts| && IsCheck(acts, n, t) && acts[n].time <= acts[k].time + gap
  }

  /**
   Timeout checks of t come at most gap ticks apart, the first at most gap after step j: whenever the run goes on
   past gap ticks after one of them, another one follows in time.
   */
  ghost predicate ChecksAtMostApart(acts: seq<Action>, j: nat, t: TaskId, gap: nat)
    requires j < |acts|
  {
    forall k, e :: j <= k < e < |acts| && (k == j || IsCheck(acts, k, t)) && acts[k].time + gap < acts[e].time ==>
      CheckWithin(acts, k, t, gap)
  }

  ghost predicate Ordered(acts: seq<Action>) {
    forall x, y :: 0 <= x < y < |acts| ==> acts[x].time <= acts[y].time
  }

  lemma LaterIsAfter(acts: seq<Action>, x: nat, y: nat)
    requires Ordered(acts) && x < |acts| && y < |acts| && acts[x].time < acts[y].time
    ensures x < y
  {
  }

  /** Some check falls within gap ticks after any moment from step k's to the end of the run. */
  lemma {:induction false} CheckFollows(acts: seq<Action>, j: nat, k: nat, t: TaskId, gap: nat, moment: nat, e: nat)
    returns (n: nat)
    requires j <= k < |acts| && (k == j || IsCheck(acts, k, t)) && ChecksAtMostApart(acts, j, t, gap)
    requires acts[k].time < moment && k < e < |acts| && moment + gap < acts[e].time
    requires Ordered(acts)
    ensures k < n < |acts| && IsCheck(acts, n, t) && moment <= acts[n].time <= moment + gap
    decreases |acts| - k
  {
    hide Ordered;
    assert CheckWithin(acts, k, t, gap);
    n :| k < n < |acts| && IsCheck(acts, n, t) && acts[n].time <= acts[k].time + gap;
    if acts[n].time < moment {
      LaterIsAfter(acts, n, e);
      n := CheckFollows(acts, j, n, t, gap, moment, e);
    }
  }

  lemma {:induction false} TimesOrdered(c: Config, states: seq<Sys>, acts: seq<Action>, x: nat, y: nat)
    requires Run(c, states, acts) && x < y < |acts|
    ensures acts[x].time <= acts[y].time
  {
    assert states[y].now == acts[y - 1].time;
    if x < y - 1 { TimesOrdered(c, states, acts, x, y - 1); }
  }

  /** Until it is marked for it, an unacknowledged task stays waiting for the heartbeat of step j. */
  lemma {:induction false} WaitsUntilMarked(c: Config, states: seq<Sys>, acts: seq<Action>, j: nat, i: nat, t: TaskId)
    requires Run(c, states, acts) && j < i < |states| && acts[j].Send? && acts[j].task == t && c.hasManager
    requires NeverAcked(states, acts, j, t)
    requires forall k :: j < k < i ==> !MarksFor(c, states, acts, j, k, t)
    ensures t in states[i].tasks && states[i].tasks[t].status.awaiting
    ensures states[i].tasks[t].ordinal == states[j].count && states[i].tasks[t].status.lastSent == acts[j].time
    ensures states[i].tasks[t].status.lastId == IdOf(states[j].count)
  {
    if i > j + 1 {
      WaitsUntilMarked(c, states, acts, j, i - 1, t);
      assert !MarksFor(c, states, acts, j, i - 1, t);
    }
  }

  /** The count of heartbeats never goes down, so an ordinal once passed does not come back. */
  lemma {:induction false} NotAgain(c: Config, states: seq<Sys>, acts: seq<Action>,
                                    j: nat, first: nat, i: nat, t: TaskId)
    requires Run(c, states, acts) && j < first < i < |states| && MarksFor(c, states, acts, j, first, t)
    ensures t in states[i].tasks && states[j].count < states[i].count
    ensures states[i].tasks[t].ordinal == states[j].count ==> !states[i].tasks[t].status.awaiting
  {
    if i == first + 1 {
      Always(c, states, acts, first);
    } else {
      NotAgain(c, states, acts, j, first, i - 1, t);
    }
  }

  lemma DueCheck(c: Config, states: seq<Sys>, acts: seq<Action>, j: nat, t: TaskId, gap: nat, e: nat) returns (n: nat)
    requires Run(c, states, acts) && j < e < |acts| && ChecksAtMostApart(acts, j, t, gap)
    requires acts[j].time + (c.timeoutMs + 1) * TICKS_PER_MS + gap < acts[e].time
    ensures j < n < |acts| && IsCheck(acts, n, t)
    ensures var due := acts[j].time + (c.timeoutMs + 1) * TICKS_PER_MS; due <= acts[n].time <= due + gap
  {
    hide Marks, ChecksAtMostApart;
    assert Ordered(acts) by {
      forall x, y | 0 <= x < y < |acts| ensures acts[x].time <= acts[y].time {
        TimesOrdered(c, states, acts, x, y);
      }
    }
    hide Run, Ordered;
    n := CheckFollows(acts, j, j, t, gap, acts[j].time + (c.timeoutMs + 1) * TICKS_PER_MS, e);
  }

  /** A check that comes when the ack is overdue marks the task, if no earlier one did. */
  lemma DueCheckMarks(c: Config, states: seq<Sys>, acts: seq<Action>, j: nat, n: nat, t: TaskId)
    requires Run(c, states, acts) && j < n < |acts| && acts[j].Send? && acts[j].task == t && c.hasManager
    requires NeverAcked(states, acts, j, t) && IsCheck(acts, n, t)
    requires acts[j].time + (c.timeoutMs + 1) * TICKS_PER_MS <= acts[n].time
    requires forall k :: j < k < n ==> !MarksFor(c, states, acts, j, k, t)
    ensures MarksFor(c, states, acts, j, n, t)
  {
    WaitsUntilMarked(c, states, acts, j, n, t);
    ExpiredIff(states[n].tasks[t].status, acts[n].time, c.timeoutMs);
  }

  lemma MarkIsRecorded(c: Config, states: seq<Sys>, acts: seq<Action>, j: nat, i: nat, t: TaskId)
    requires Run(c, states, acts) && j < |acts| && MarksFor(c, states, acts, j, i, t)
    ensures states[i + 1].records == states[i].records[t := ERROR]
  {
  }

  lemma MarkedOnce(c: Config, states: seq<Sys>, acts: seq<Action>, j: nat, t: TaskId, i: nat, k: nat)
    requires Run(c, states, acts) && j < |acts|
    requires MarksFor(c, states, acts, j, i, t) && MarksFor(c, states, acts, j, k, t)
    ensures i == k
  {
    if k < i { NotAgain(c, states, acts, j, k, i, t); }
    if i < k { NotAgain(c, states, acts, j, i, k, t); }
  }

  /**
   With a state manager, and timeout checks at most gap apart, a heartbeat whose ack is never handled leads to
   exactly one marking, no later than timeout + 1 ms + gap after it was sent.
   */
  lemma Completeness(c: Config, states: seq<Sys>, acts: seq<Action>, j: nat, t: TaskId, gap: nat, e: nat)
    returns (i: nat)
    requires Run(c, states, acts) && j < e < |acts| && acts[j].Send? && acts[j].task == t && c.hasManager
    requires NeverAcked(states, acts, j, t) && ChecksAtMostApart(acts, j, t, gap)
    requires acts[j].time + (c.timeoutMs + 1) * TICKS_PER_MS + gap < acts[e].time
    ensures MarksFor(c, states, acts, j, i, t) && t in states[i + 1].records && states[i + 1].records[t] == ERROR
    ensures acts[i].time <= acts[j].time + (c.timeoutMs + 1) * TICKS_PER_MS + gap
    ensures forall k :: MarksFor(c, states, acts, j, k, t) ==> k == i
  {
    hide Marks, ChecksAtMostApart, NeverAcked;
    var n := DueCheck(c, states, acts, j, t, gap, e);
    if k :| j < k < n && MarksFor(c, states, acts, j, k, t) {
      i := k;
      TimesOrdered(c, states, acts, k, n);
    } else {
      i := n;
      DueCheckMarks(c, states, acts, j, n, t);
    }
    MarkIsRecorded(c, states, acts, j, i, t);
    forall k | MarksFor(c, states, acts, j, k, t)
      ensures k == i
    {
      MarkedOnce(c, states, acts, j, t, i, k);
    }
  }
}
