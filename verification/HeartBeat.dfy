/** The heartbeat task: what it keeps for each monitored task, and its three lock-protected passes. */
module HeartBeat {
  import opened Messages
  import opened Sequences

  /** steady_clock ticks in one millisecond. */
  const TICKS_PER_MS: nat := 1_000_000

  const ID_MODULUS: nat := 0x1_0000_0000

  /** What next_heartbeat_id holds first, and after each heartbeat. */
  const FIRST_ID: nat := 1

  function NextId(id: nat): nat { (id + 1) % ID_MODULUS }

  datatype Status = Status(awaiting: bool, lastId: nat, lastSent: nat, lastResponse: nat)

  /** duration_cast to milliseconds truncates. */
  function ElapsedMs(now: nat, since: nat): nat {
    if since <= now then (now - since) / TICKS_PER_MS else 0
  }

  predicate Expired(st: Status, now: nat, timeoutMs: nat) {
    st.awaiting && ElapsedMs(now, st.lastSent) > timeoutMs
  }

  /** The strict comparison of truncated milliseconds needs a whole millisecond more than the timeout. */
  lemma ExpiredIff(st: Status, now: nat, timeoutMs: nat)
    ensures Expired(st, now, timeoutMs) <==> st.awaiting && st.lastSent + (timeoutMs + 1) * TICKS_PER_MS <= now
  {
  }

  /** A newly monitored task owes nothing. */
  function NewStatus(now: nat): Status {
    Status(false, 0, 0, now)
  }

  function Checked(st: Status, now: nat, timeoutMs: nat): Status {
    if Expired(st, now, timeoutMs) then st.(awaiting := false) else st
  }

  function Sent(st: Status, id: nat, now: nat): Status {
    st.(awaiting := true, lastId := id, lastSent := now)
  }

  function Acked(st: Status, id: nat, now: nat): Status {
    if st.lastId == id then st.(awaiting := false, lastResponse := now) else st
  }

  /** All statuses after a timeout check. */
  function CheckedAll(monitored: map<TaskId, Status>, now: nat, timeoutMs: nat): map<TaskId, Status> {
    map t | t in monitored :: Checked(monitored[t], now, timeoutMs)
  }

  datatype Delivery = Delivery(to: TaskId, msg: Msg)

  ghost predicate Reached(sent: seq<Delivery>, t: TaskId) {
    exists i :: 0 <= i < |sent| && sent[i].to == t
  }

  /** Of the tasks outside rest, those that awaited nothing are sent to once each, the others are untouched. */
  ghost predicate SentOnce(was: map<TaskId, Status>, now: map<TaskId, Status>, rest: set<TaskId>, sent: seq<Delivery>)
    requires now.Keys == was.Keys
  {
    && (forall i, j :: 0 <= i < j < |sent| ==> sent[i].to != sent[j].to)
    && (forall i :: 0 <= i < |sent| ==> sent[i].to in was && sent[i].to !in rest && !was[sent[i].to].awaiting)
    && (forall t :: t in was && (was[t].awaiting || t in rest) ==> now[t] == was[t])
    && (forall t :: t in was && t !in rest && !was[t].awaiting ==> Reached(sent, t))
  }

  /** The i-th delivery carries the i-th number, and its task's status remembers it. */
  ghost predicate Remembered(self: TaskId, was: map<TaskId, Status>, now: map<TaskId, Status>, first: nat,
                             readings: seq<nat>, sent: seq<Delivery>, i: nat)
    requires i < |sent|
  {
    var id := (first + i) % ID_MODULUS;
    && i < |readings|
    && sent[i].to in was && sent[i].to in now
    && sent[i].msg == Msg(Some(self), HeartbeatMsg(id, readings[i] / TICKS_PER_MS))
    && now[sent[i].to] == Sent(was[sent[i].to], id, readings[i])
  }

  lemma NextNumber(first: nat, n: nat)
    ensures ((first + n) % ID_MODULUS + 1) % ID_MODULUS == (first + (n + 1)) % ID_MODULUS
  {
  }

  ghost predicate AllRemembered(self: TaskId, was: map<TaskId, Status>, now: map<TaskId, Status>, first: nat,
                                readings: seq<nat>, sent: seq<Delivery>) {
    forall i :: 0 <= i < |sent| ==> Remembered(self, was, now, first, readings, sent, i)
  }

  lemma NothingSent(self: TaskId, was: map<TaskId, Status>, first: nat, readings: seq<nat>)
    ensures SentOnce(was, was, was.Keys, []) && AllRemembered(self, was, was, first, readings, [])
  {
  }

  lemma SkipStep(was: map<TaskId, Status>, now: map<TaskId, Status>, rest: set<TaskId>, sent: seq<Delivery>, t: TaskId)
    requires now.Keys == was.Keys && SentOnce(was, now, rest, sent) && t in rest && t in was
    ensures now[t] == was[t]
    ensures was[t].awaiting ==> SentOnce(was, now, rest - {t}, sent)
  {
  }

  lemma SentStep(was: map<TaskId, Status>, now: map<TaskId, Status>, rest: set<TaskId>, sent: seq<Delivery>,
                 t: TaskId, st: Status, m: Msg)
    requires now.Keys == was.Keys && SentOnce(was, now, rest, sent) && t in rest && t in was && !was[t].awaiting
    ensures SentOnce(was, now[t := st], rest - {t}, sent + [Delivery(t, m)])
  {
    var more := sent + [Delivery(t, m)];
    assert more[|sent|].to == t && forall i :: 0 <= i < |sent| ==> more[i] == sent[i];
    forall u | u in was && u !in rest && !was[u].awaiting
      ensures Reached(more, u)
    {
      assert Reached(sent, u);
      var i :| 0 <= i < |sent| && sent[i].to == u;
      assert more[i].to == u;
    }
  }

  lemma RememberedStep(self: TaskId, was: map<TaskId, Status>, now: map<TaskId, Status>, first: nat,
                       readings: seq<nat>, sent: seq<Delivery>, rest: set<TaskId>, t: TaskId, id: nat)
    requires now.Keys == was.Keys && SentOnce(was, now, rest, sent) && t in rest && t in was
    requires AllRemembered(self, was, now, first, readings, sent)
    requires |sent| < |readings| && id == (first + |sent|) % ID_MODULUS
    ensures var time := readings[|sent|];
            AllRemembered(self, was, now[t := Sent(now[t], id, time)], first, readings,
                          sent + [Delivery(t, Msg(Some(self), HeartbeatMsg(id, time / TICKS_PER_MS)))])
  {
    var time := readings[|sent|];
    var now' := now[t := Sent(now[t], id, time)];
    var more := sent + [Delivery(t, Msg(Some(self), HeartbeatMsg(id, time / TICKS_PER_MS)))];
    forall i | 0 <= i < |more|
      ensures Remembered(self, was, now', first, readings, more, i)
    {
      if i < |sent| {
        assert more[i] == sent[i] && sent[i].to != t;
        assert Remembered(self, was, now, first, readings, sent, i);
      }
    }
  }

  /** After a sending pass every monitored task owes an ack. */
  lemma EveryoneAwaits(self: TaskId, was: map<TaskId, Status>, now: map<TaskId, Status>, first: nat,
                       readings: seq<nat>, sent: seq<Delivery>, t: TaskId)
    requires now.Keys == was.Keys && t in now && SentOnce(was, now, {}, sent)
    requires AllRemembered(self, was, now, first, readings, sent)
    ensures now[t].awaiting
  {
    if !was[t].awaiting {
      assert Reached(sent, t);
      var i :| 0 <= i < |sent| && sent[i].to == t;
      assert Remembered(self, was, now, first, readings, sent, i);
    }
  }

  class HeartBeatTask {
    const self: TaskId
    const timeoutMs: nat
    const hasManager: bool
    var monitored: map<TaskId, Status>
    var nextId: nat

    constructor (self: TaskId, timeoutMs: nat, hasManager: bool)
      ensures this.self == self && this.timeoutMs == timeoutMs && this.hasManager == hasManager
      ensures monitored == map[] && nextId == FIRST_ID
    {
      this.self := self;
      this.timeoutMs := timeoutMs;
      this.hasManager := hasManager;
      monitored := map[];
      nextId := FIRST_ID;
    }

    /** The heartbeat task never monitors itself, and a known task keeps its status. */
    method NotifyTaskRegistered(t: TaskId, now: nat)
      modifies `monitored
      ensures monitored.Keys == old(monitored).Keys + (if t == self then {} else {t})
      ensures forall u :: u in old(monitored) ==> monitored[u] == old(monitored)[u]
      ensures t != self && t !in old(monitored) ==> monitored[t] == NewStatus(now)
    {
      if t == self {
        return;
      }
      if t !in monitored {
        monitored := monitored[t := Status(false, 0, 0, now)];
      }
    }

    /** marked lists the tasks handed to the state manager. */
    method CheckForTimeouts(now: nat) returns (marked: seq<TaskId>)
      modifies `monitored
      ensures monitored.Keys == old(monitored).Keys
      ensures forall t :: t in old(monitored) ==> monitored[t] == Checked(old(monitored)[t], now, timeoutMs)
      ensures NoDuplicates(marked)
      ensures forall t :: t in marked <==>
                hasManager && t in old(monitored) && Expired(old(monitored)[t], now, timeoutMs)
    {
      marked := [];
      var rest := monitored.Keys;
      while rest != {}
        invariant rest <= monitored.Keys == old(monitored).Keys
        invariant forall t :: t in monitored ==>
                    monitored[t] == if t in rest then old(monitored)[t] else Checked(old(monitored)[t], now, timeoutMs)
        invariant NoDuplicates(marked)
        invariant forall t :: t in marked <==>
                    hasManager && t in monitored && t !in rest && Expired(old(monitored)[t], now, timeoutMs)
      {
        var t :| t in rest;
        var status := monitored[t];
        if status.awaiting {
          if ElapsedMs(now, status.lastSent) > timeoutMs {
            if hasManager {
              marked := marked + [t];
            }
            monitored := monitored[t := status.(awaiting := false)];
          }
        }
        rest := rest - {t};
      }
    }

    /**
     readings are what the clock returns, one for each heartbeat. Every task that awaits nothing gets one
     heartbeat with the next number, and its status remembers exactly that one.
     */
    method SendHeartbeat(readings: seq<nat>) returns (sent: seq<Delivery>)
      requires |monitored| <= |readings| && nextId < ID_MODULUS
      modifies `monitored, `nextId
      ensures monitored.Keys == old(monitored).Keys && |sent| <= |readings|
      ensures nextId == (old(nextId) + |sent|) % ID_MODULUS
      ensures SentOnce(old(monitored), monitored, {}, sent)
      ensures AllRemembered(self, old(monitored), monitored, old(nextId), readings, sent)
    {
      hide SentOnce, AllRemembered, Sent;
      NothingSent(self, monitored, nextId, readings);
      sent := [];
      var rest := monitored.Keys;
      while rest != {}
        invariant rest <= monitored.Keys == old(monitored).Keys
        invariant |sent| + |rest| <= |monitored|
        invariant nextId == (old(nextId) + |sent|) % ID_MODULUS
        invariant SentOnce(old(monitored), monitored, rest, sent)
        invariant AllRemembered(self, old(monitored), monitored, old(nextId), readings, sent)
      {
        var t :| t in rest;
        ghost var before := rest;
        SkipStep(old(monitored), monitored, before, sent, t);
        rest := rest - {t};
        if !monitored[t].awaiting {
          var now := readings[|sent|];
          var id := nextId;
          nextId := NextId(nextId);
          NextNumber(old(nextId), |sent|);
          var m := Msg(Some(self), HeartbeatMsg(id, now / TICKS_PER_MS));
          SentStep(old(monitored), monitored, before, sent, t, Sent(monitored[t], id, now), m);
          RememberedStep(self, old(monitored), monitored, old(nextId), readings, sent, before, t, id);
          monitored := monitored[t := Sent(monitored[t], id, now)];
          sent := sent + [Delivery(t, m)];
        }
      }
    }

    /**
     One period: the overdue are marked, then, if the heartbeat task is RUNNING, everyone without an
     outstanding heartbeat, the just marked included, gets a new one.
     */
    method PeriodicTaskProcess(state: TaskState, now: nat, readings: seq<nat>)
      returns (marked: seq<TaskId>, sent: seq<Delivery>)
      requires |monitored| <= |readings| && nextId < ID_MODULUS
      modifies `monitored, `nextId
      ensures monitored.Keys == old(monitored).Keys
      ensures forall t :: t in marked <==>
                hasManager && t in old(monitored) && Expired(old(monitored)[t], now, timeoutMs)
      ensures state != RUNNING ==> sent == [] && nextId == old(nextId)
      ensures state != RUNNING ==>
                forall t :: t in old(monitored) ==> monitored[t] == Checked(old(monitored)[t], now, timeoutMs)
      ensures state == RUNNING ==>
                var checked := CheckedAll(old(monitored), now, timeoutMs);
                && |sent| <= |readings| && nextId == (old(nextId) + |sent|) % ID_MODULUS
                && SentOnce(checked, monitored, {}, sent)
                && AllRemembered(self, checked, monitored, old(nextId), readings, sent)
      ensures NoDuplicates(marked)
      ensures state == RUNNING ==> forall t :: t in monitored ==> monitored[t].awaiting
      ensures state == RUNNING ==> forall t :: t in marked ==> Reached(sent, t)
    {
      marked := CheckForTimeouts(now);
      sent := [];
      if state == RUNNING {
        ghost var checked, first := monitored, nextId;
        assert checked == CheckedAll(old(monitored), now, timeoutMs);
        assert |monitored| == |monitored.Keys| == |old(monitored).Keys| == |old(monitored)|;
        sent := SendHeartbeat(readings);
        forall t | t in monitored ensures monitored[t].awaiting {
          EveryoneAwaits(self, checked, monitored, first, readings, sent, t);
        }
      }
    }

    /** Only the sender's own status can change, and only if the id is that of its last heartbeat. */
    method HandleAcknowledgment(m: Msg, now: nat)
      requires m.data.HeartbeatAckMsg?
      modifies `monitored
      ensures monitored.Keys == old(monitored).Keys
      ensures forall t :: t in old(monitored) ==>
                monitored[t] == if m.sender == Some(t) then Acked(old(monitored)[t], m.data.origUniqueId, now)
                                else old(monitored)[t]
    {
      var rest := monitored.Keys;
      while rest != {}
        invariant rest <= monitored.Keys && monitored == old(monitored)
        invariant forall t :: t in monitored && m.sender == Some(t) ==> t in rest
      {
        var t :| t in rest;
        if m.sender == Some(t) {
          if monitored[t].lastId == m.data.origUniqueId {
            monitored := monitored[t := monitored[t].(awaiting := false, lastResponse := now)];
          }
          break;
        }
        rest := rest - {t};
      }
    }
  }
}
