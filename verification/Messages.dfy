/** Messages, their types and priorities (include/msg). */
module Messages {

  datatype Option<+T> = None | Some(value: T)

  /** The identity of a task object; a message's sender is a possibly null task pointer. */
  type TaskId = nat

  /** A task state travels as one byte and is cast back unchecked, so every byte is a state. */
  newtype TaskState = x: int | 0 <= x < 256

  const NOT_STARTED: TaskState := 0
  const IDLE: TaskState := 1
  const RUNNING: TaskState := 2
  const STOPPED: TaskState := 3
  const ERROR: TaskState := 4

  /** The default variant, plus the rows that a system's own table adds after it. */
  datatype MsgData =
    | StateMsg(state: TaskState)
    | StateAckMsg(state: TaskState)
    | HeartbeatMsg(uniqueId: nat, timestamp: nat)
    | HeartbeatAckMsg(origUniqueId: nat, origTimestamp: nat, ackTimestamp: nat)
    | UserMsg(row: nat, rowPriority: nat, body: seq<nat>)

  datatype Msg = Msg(sender: Option<TaskId>, data: MsgData) {

    /** The index of the alternative in the variant. */
    function Type(): nat {
      match data
      case StateMsg(_) => 0
      case StateAckMsg(_) => 1
      case HeartbeatMsg(_, _) => 2
      case HeartbeatAckMsg(_, _, _) => 3
      case UserMsg(row, _, _) => 4 + row
    }

    function Priority(): nat {
      match data
      case StateMsg(_) => 100
      case StateAckMsg(_) => 99
      case HeartbeatMsg(_, _) => 50
      case HeartbeatAckMsg(_, _, _) => 49
      case UserMsg(_, priority, _) => priority
    }
  }

  predicate IsState(m: Msg) { m.data.StateMsg? }

  predicate IsStateAck(m: Msg) { m.data.StateAckMsg? }

  predicate IsHeartbeat(m: Msg) { m.data.HeartbeatMsg? }

  predicate IsHeartbeatAck(m: Msg) { m.data.HeartbeatAckMsg? }

  /** The messages hold the same alternative of the variant. */
  predicate SameKind(a: Msg, b: Msg) {
    || (IsState(a) && IsState(b))
    || (IsStateAck(a) && IsStateAck(b))
    || (IsHeartbeat(a) && IsHeartbeat(b))
    || (IsHeartbeatAck(a) && IsHeartbeatAck(b))
    || (a.data.UserMsg? && b.data.UserMsg? && a.data.row == b.data.row)
  }

  /** The type tells the alternatives apart, and so does which subscribers a message has. */
  lemma TypeIsKind(a: Msg, b: Msg)
    ensures a.Type() == b.Type() <==> SameKind(a, b)
  {
  }

  /** The five states are different bytes, in the order in which they are declared. */
  lemma StatesDiffer()
    ensures NOT_STARTED < IDLE < RUNNING < STOPPED < ERROR
    ensures NOT_STARTED == 0 && ERROR == 4
  {
  }
}
