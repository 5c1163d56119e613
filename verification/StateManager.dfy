/** The state manager: what it records of each task, and how it decides that a transition is complete. */
module StateManager {
  import opened Messages
  import opened HeartBeat

  type Records = map<TaskId, TaskState>

  predicate AllIn(records: Records, state: TaskState) {
    forall t :: t in records ==> records[t] == state
  }

  /** An acknowledgment counts when its sender is a registered task. */
  predicate Accepted(records: Records, m: Msg) {
    m.data.StateAckMsg? && m.sender.Some? && m.sender.value in records
  }

  function RecordAck(records: Records, m: Msg): Records {
    if Accepted(records, m) then records[m.sender.value := m.data.state] else records
  }

  function Registered(records: Records, t: TaskId): Records {
    records[t := NOT_STARTED]
  }

  function MarkedRecords(records: Records, t: TaskId): Records {
    records[t := ERROR]
  }

  /** What the manager sends to move tasks to a state, all of them or an unresponsive one. */
  function Order(manager: TaskId, state: TaskState): Msg {
    Msg(Some(manager), StateMsg(state))
  }

  /** What a task publishes once it is in a state. */
  function Answer(task: TaskId, state: TaskState): Msg {
    Msg(Some(task), StateAckMsg(state))
  }

  class StateManager {
    const self: TaskId
    var taskStates: Records
    var currentState: TaskState
    var targetState: TaskState
    /** The registration observer, if a heartbeat task set itself up as one. */
    var observer: HeartBeatTask?

    constructor (self: TaskId)
      ensures taskStates == map[] && this.self == self && observer == null
    {
      this.self := self;
      taskStates := map[];
      currentState := NOT_STARTED;
      targetState := NOT_STARTED;
      observer := null;
    }

    method SetTaskRegistrationObserver(heartBeat: HeartBeatTask)
      modifies `observer
      ensures observer == heartBeat
    {
      observer := heartBeat;
    }

    /** A task that registers again is recorded as not started again, but keeps its heartbeat status. */
    method RegisterTask(t: TaskId, now: nat)
      modifies `taskStates, (if observer == null then {} else {observer})`monitored
      ensures taskStates == Registered(old(taskStates), t)
      ensures taskStates.Keys == old(taskStates).Keys + {t} && taskStates[t] == NOT_STARTED
      ensures forall u :: u in old(taskStates) && u != t ==> taskStates[u] == old(taskStates)[u]
      ensures observer != null ==>
                && observer.monitored.Keys == old(observer.monitored).Keys + (if t == observer.self then {} else {t})
                && forall u :: u in old(observer.monitored) ==> observer.monitored[u] == old(observer.monitored)[u]
    {
      taskStates := taskStates[t := NOT_STARTED];
      if observer != null {
        observer.NotifyTaskRegistered(t, now);
      }
    }

    /** The lock-protected start of a demand and the broadcast that follows it. */
    method BeginDemand(state: TaskState) returns (m: Msg)
      modifies `targetState, `currentState
      ensures targetState == currentState == state
      ensures m == Order(self, state)
    {
      targetState := state;
      currentState := state;
      m := Msg(Some(self), StateMsg(state));
    }

    /** The predicate a demand waits for. */
    method AllTasksInState(state: TaskState) returns (r: bool)
      ensures r <==> AllIn(taskStates, state)
    {
      var rest := taskStates.Keys;
      while rest != {}
        invariant rest <= taskStates.Keys
        invariant forall t :: t in taskStates && t !in rest ==> taskStates[t] == state
      {
        var t :| t in rest;
        if taskStates[t] != state {
          return false;
        }
        rest := rest - {t};
      }
      r := true;
    }

    /** Find the registered task behind a sender pointer. */
    method Lookup(sender: TaskId) returns (found: Option<TaskId>)
      ensures found == if sender in taskStates then Some(sender) else None
    {
      var rest := taskStates.Keys;
      while rest != {}
        invariant rest <= taskStates.Keys && (sender in taskStates ==> sender in rest)
      {
        var t :| t in rest;
        if t == sender {
          return Some(t);
        }
        rest := rest - {t};
      }
      found := None;
    }

    /** Record an acknowledgment; notified says whether the waiting demand is woken. */
    method HandleAcknowledgment(m: Msg) returns (notified: bool)
      modifies `taskStates
      ensures taskStates.Keys == old(taskStates).Keys
      ensures taskStates == RecordAck(old(taskStates), m)
      ensures notified <==> Accepted(old(taskStates), m) && AllIn(taskStates, targetState)
    {
      if m.sender.None? {
        return false;
      }
      var sender := Lookup(m.sender.value);
      if sender.None? || !m.data.StateAckMsg? {
        return false;
      }
      taskStates := taskStates[sender.value := m.data.state];
      notified := AllTasksInState(targetState);
    }

    /** The message goes straight to the task; the record follows. */
    method MarkTaskAsUnresponsive(t: TaskId) returns (m: Msg)
      modifies `taskStates
      ensures m == Order(self, ERROR)
      ensures taskStates == MarkedRecords(old(taskStates), t)
      ensures taskStates.Keys == old(taskStates).Keys + {t} && taskStates[t] == ERROR
      ensures forall u :: u in old(taskStates) && u != t ==> taskStates[u] == old(taskStates)[u]
    {
      m := Msg(Some(self), StateMsg(ERROR));
      taskStates := taskStates[t := ERROR];
    }
  }
}
