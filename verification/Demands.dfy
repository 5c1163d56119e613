/** Demands on the state protocol: what a true return says, when the wait is notified, when it can succeed. */
module Demands {
  import opened Messages
  import opened StableQueue
  import opened StateManager
  import opened Agreement
  import opened Channels

  // ---- what a demand that returns true says ----

  /** A record, and every acknowledgment on its way to becoming one, is a state the task itself applied. */
  ghost predicate Sourced(s: Sys, t: TaskId)
    requires t in s.tasks
  {
    var v := s.tasks[t];
    && (v.unacked ==> v.actual in v.applied)
    && (forall m :: m in Acks(s, t) ==> m.data.StateAckMsg? && m.data.state in v.applied)
    && (t in s.records ==>
          || s.records[t] in v.applied
          || s.records[t] == NOT_STARTED
          || (s.records[t] == ERROR && t in s.marked))
  }

  lemma SourcedKept(s: Sys, a: Action, t: TaskId)
    requires Enabled(s, a) && t in s.tasks && Sourced(s, t)
    ensures t in Next(s, a).tasks && Sourced(Next(s, a), t)
  {
    hide Stream, Acks, Front, Rest;
    AcksAfter(s, a, t);
    if a == ManagerHandle {
      AckTaken(s, t);
      assert AckFrom(t)(s.hand.value) ==> s.hand.value in Acks(s, t);
    }
  }

  lemma {:induction false} AlwaysSourced(states: seq<Sys>, acts: seq<Action>, i: nat, t: TaskId)
    requires Run(states, acts) && i < |states| && t in states[i].tasks
    ensures Sourced(states[i], t)
  {
    if i > 0 {
      var s, a := states[i - 1], acts[i - 1];
      if t in s.tasks {
        AlwaysSourced(states, acts, i - 1, t);
        SourcedKept(s, a, t);
      } else {
        NoAcksYet(states, acts, i - 1, t);
        AcksAfter(s, a, t);
      }
    }
  }

  lemma {:induction false} TargetIsAwaited(states: seq<Sys>, acts: seq<Action>, i: nat)
    requires Run(states, acts) && i < |states|
    ensures states[i].awaited.Some? ==> states[i].awaited.value == states[i].target
  {
    if i > 0 { TargetIsAwaited(states, acts, i - 1); }
  }

  /**
   A demand that returns true has every registered task recorded in the demanded state, and each record is
   the task's own doing unless the demanded state is the registration value or the marking's.
   */
  lemma DemandSound(states: seq<Sys>, acts: seq<Action>, i: nat, t: TaskId)
    requires Run(states, acts) && i < |acts| && acts[i] == Return(true) && t in states[i].records
    ensures states[i].awaited.Some? && states[i].records[t] == states[i].awaited.value == states[i].target
    ensures t in states[i].tasks
    ensures || states[i].target in states[i].tasks[t].applied
            || states[i].target == NOT_STARTED
            || (states[i].target == ERROR && t in states[i].marked)
  {
    TargetIsAwaited(states, acts, i);
    if t !in states[i].tasks { NoAcksYet(states, acts, i, t); }
    AlwaysSourced(states, acts, i, t);
  }

  /** A demand of STOPPED that returns true leaves no registered task recorded as failed, or as anything else. */
  lemma StoppedIsNotError(states: seq<Sys>, acts: seq<Action>, i: nat, t: TaskId)
    requires Run(states, acts) && i < |acts| && acts[i] == Return(true) && t in states[i].records
    requires states[i].awaited == Some(STOPPED)
    ensures states[i].records[t] !in {NOT_STARTED, IDLE, RUNNING, ERROR}
  {
    StatesDiffer();
  }

  /** With nothing published by t under way, its record is its state. */
  ghost predicate AnswerRecorded(s: Sys, t: TaskId)
    requires t in s.tasks
  {
    t in s.records && !s.tasks[t].unacked && Acks(s, t) == [] ==> s.records[t] == s.tasks[t].actual
  }

  lemma AnswerRecordedKept(s: Sys, a: Action, t: TaskId)
    requires Enabled(s, a) && t in s.tasks && AckCurrent(s, t) && AnswerRecorded(s, t)
    requires a != MarkRecord(t) && (a == Register(t) ==> s.tasks[t].actual == NOT_STARTED)
    ensures t in Next(s, a).tasks && AnswerRecorded(Next(s, a), t)
  {
    hide Stream, Acks;
    AcksAfter(s, a, t);
    match a {
      case ManagerHandle => AckTaken(s, t);
      case _ =>
    }
  }

  lemma NothingPending()
    ensures Pending(FRESH) == []
  {
  }

  /** A task to which nothing was sent has nothing pending and has not moved. */
  lemma {:induction false} Untouched(states: seq<Sys>, acts: seq<Action>, i: nat, t: TaskId)
    requires Run(states, acts) && i < |states| && t in states[i].tasks
    requires forall j :: 0 <= j < i ==> !Sends(acts[j], t)
    ensures Pending(states[i].tasks[t]) == [] && states[i].tasks[t].actual == NOT_STARTED
  {
    hide Stream;
    if i > 0 && t in states[i - 1].tasks {
      var s, a := states[i - 1], acts[i - 1];
      Untouched(states, acts, i - 1, t);
      if a == Apply(t) {
        StreamDone(IsState, s.tasks[t].hand.value, s.tasks[t].box);
        assert false;
      }
      PendingAfter(s, a, t);
    } else if i > 0 {
      NothingPending();
    }
  }

  /** t was never marked, and was registered only before anything was sent to it. */
  ghost predicate Undisturbed(acts: seq<Action>, n: nat, t: TaskId)
    requires n <= |acts|
  {
    forall k :: 0 <= k < n ==>
      && acts[k] != MarkRecord(t)
      && (acts[k] == Register(t) ==> forall j :: 0 <= j < k ==> !Sends(acts[j], t))
  }

  lemma {:induction false} AlwaysAnswered(states: seq<Sys>, acts: seq<Action>, i: nat, t: TaskId)
    requires Run(states, acts) && i < |states| && t in states[i].tasks && Undisturbed(acts, i, t)
    ensures AnswerRecorded(states[i], t)
  {
    hide AckCurrent, Acks, Obedient;
    if i > 0 {
      var s, a := states[i - 1], acts[i - 1];
      if t in s.tasks {
        AlwaysAnswered(states, acts, i - 1, t);
        AlwaysCurrent(states, acts, i - 1, t);
        if a == Register(t) { Untouched(states, acts, i - 1, t); }
        hide Next, AnswerRecorded;
        AnswerRecordedKept(s, a, t);
      } else {
        NoAcksYet(states, acts, i - 1, t);
      }
    }
  }

  lemma AcksCarryStates(s: Sys, t: TaskId)
    ensures forall m :: m in Acks(s, t) ==> m.data.StateAckMsg?
  {
  }

  /**
   When a true return is fresh. A task between writing its state and publishing it aside, the task is in the
   demanded state exactly if its newest acknowledgment under way, if there is one, carries that state.
   */
  lemma ReturnIsFresh(states: seq<Sys>, acts: seq<Action>, i: nat, t: TaskId)
    requires Run(states, acts) && i < |acts| && acts[i] == Return(true) && t in states[i].records
    requires Undisturbed(acts, i, t)
    ensures t in states[i].tasks
    ensures var s, state := states[i], states[i].awaited.value;
            !s.tasks[t].unacked ==> (s.tasks[t].actual == state <==> LastState(Acks(s, t), state) == state)
  {
    if t !in states[i].tasks { NoAcksYet(states, acts, i, t); }
    AlwaysAnswered(states, acts, i, t);
    AlwaysCurrent(states, acts, i, t);
    AcksCarryStates(states[i], t);
    hide Stream, Acks;
  }

  // ---- a true return that is stale ----

  /** t is created, registered and sent a state. */
  function SentOnce(manager: TaskId, t: TaskId, state: TaskState): seq<Action> {
    [Create(t), Register(t), Broadcast({t}, Order(manager, state))]
  }

  lemma SentOnceRun(manager: TaskId, t: TaskId, state: TaskState) returns (states: seq<Sys>)
    ensures Run(states, SentOnce(manager, t, state)) && |states| == 4 && WritesMatch(SentOnce(manager, t, state), 3)
    ensures Reaches(Initial(manager), SentOnce(manager, t, state), states[3])
    ensures states[3].records.Keys == {t} && t in states[3].tasks && states[3].tasks[t].lastSent == state
    ensures states[3].awaited == None
  {
    var acts := SentOnce(manager, t, state);
    assert LastOrder(acts, 1, t) == LastOrder(acts, 0, t);
    assert Matches(acts, 0, acts[0]) && Matches(acts, 1, acts[1]) && Matches(acts, 2, acts[2]);
    var s0 := Initial(manager);
    var s1 := Next(s0, acts[0]);
    var s2 := Next(s1, acts[1]);
    states := [s0, s1, s2, Next(s2, acts[2])];
    RunReaches(states, acts, 3);
    assert acts[..3] == acts;
  }

  /** Nothing is under way and t, the only registered task, is in this state and recorded in it. */
  ghost predicate AtRest(s: Sys, t: TaskId, state: TaskState) {
    && t in s.tasks && s.tasks[t].box == [] && s.tasks[t].hand == None && !s.tasks[t].unacked
    && s.tasks[t].actual == state && AllIn(s.records, state) && t in s.records && s.awaited == None
  }

  lemma SettledIsIdle(s: Sys, t: TaskId)
    requires t in s.tasks && forall a :: Internal(a) ==> !Enabled(s, a)
    ensures s.tasks[t].box == [] && s.tasks[t].hand == None && !s.tasks[t].unacked
  {
    assert !Enabled(s, Take(t)) && !Enabled(s, Apply(t)) && !Enabled(s, Ignore(t)) && !Enabled(s, Acknowledge(t));
  }

  lemma CurrentAgrees(s: Sys, t: TaskId)
    requires t in s.tasks && t in s.records && Current(s, t) && Quiescent(s, t)
    ensures s.records[t] == s.tasks[t].actual == s.tasks[t].lastSent
  {
  }

  lemma ComesToRest(manager: TaskId, t: TaskId, state: TaskState) returns (more: seq<Action>, s: Sys)
    ensures AllInternal(more) && Reaches(Initial(manager), SentOnce(manager, t, state) + more, s)
    ensures AtRest(s, t, state)
  {
    hide Run, Next, Enabled, Reaches, Obedient, AckCurrent, RecordCurrent, WritesMatch, Quiescent;
    var first := SentOnce(manager, t, state);
    var states := SentOnceRun(manager, t, state);
    var ids := ListOf(states[3].tasks.Keys);
    more, s := Settle(ids, states[3]);
    ReachesConcat(Initial(manager), first, states[3], more, s);
    LateContinues(states[3], more, s);
    StillCurrent(states, first, 3, more, s, t);
    SettledIsQuiescent(s, t);
    SettledIsIdle(s, t);
    CurrentAgrees(s, t);
  }

  /** Another state is sent and applied; before its acknowledgment is published, the first one is demanded again. */
  function DemandedAgain(manager: TaskId, t: TaskId, state: TaskState, other: TaskState): seq<Action> {
    [Broadcast({t}, Order(manager, other)), Take(t), Apply(t), Demand(state), Broadcast({t}, Order(manager, state))]
  }

  lemma DemandedTooSoon(s: Sys, manager: TaskId, t: TaskId, state: TaskState, other: TaskState) returns (s': Sys)
    requires AtRest(s, t, state)
    ensures Reaches(s, DemandedAgain(manager, t, state, other), s')
    ensures s'.awaited == Some(state) && s'.records == s.records && t in s'.tasks && s'.tasks[t].actual == other
  {
    var acts := DemandedAgain(manager, t, state, other);
    var s1 := Next(s, acts[0]);
    assert s1.tasks[t].box == [Order(manager, other)];
    var s2 := Next(s1, acts[1]);
    assert s2.tasks[t].hand == Some(Order(manager, other));
    var s3 := Next(s2, acts[2]);
    var s4 := Next(s3, acts[3]);
    s' := Next(s4, acts[4]);
    hide Next, Front, Rest;
    OneStepReaches(s4, acts[4]);
    ReachesStep(s3, acts[3], [acts[4]], s');
    ReachesStep(s2, acts[2], [acts[3], acts[4]], s');
    ReachesStep(s1, acts[1], [acts[2], acts[3], acts[4]], s');
    ReachesStep(s, acts[0], [acts[1], acts[2], acts[3], acts[4]], s');
  }

  lemma StaleUndisturbed(manager: TaskId, t: TaskId, state: TaskState, other: TaskState, more: seq<Action>)
    requires AllInternal(more)
    ensures var acts := SentOnce(manager, t, state) + more + DemandedAgain(manager, t, state, other);
            Undisturbed(acts, |acts|, t) && LastOrder(acts, |acts|, t) == state
  {
    var acts := SentOnce(manager, t, state) + more + DemandedAgain(manager, t, state, other);
    assert acts[|acts| - 1] == Broadcast({t}, Order(manager, state)) && acts[0] == Create(t);
    forall k | 0 <= k < |acts|
      ensures acts[k] != MarkRecord(t) && (acts[k] == Register(t) ==> k == 1)
    {
      if 3 <= k < 3 + |more| { assert acts[k] == more[k - 3] && Internal(more[k - 3]); }
    }
  }

  /**
   A stale true return: the task was never marked and was registered first, the demand's own StateMsg is the last
   one sent to it, and still the demand may return true while the task is in another state.
   */
  lemma StaleReturn(manager: TaskId, t: TaskId, state: TaskState, other: TaskState)
    returns (acts: seq<Action>, s: Sys)
    requires state != other
    ensures Reaches(Initial(manager), acts, s) && Undisturbed(acts, |acts|, t)
    ensures Enabled(s, Return(true)) && s.awaited == Some(state)
    ensures LastOrder(acts, |acts|, t) == state
    ensures t in s.records && t in s.tasks && s.tasks[t].actual == other
  {
    hide Reaches, Next, Undisturbed, LastOrder, AllInternal, SentOnce, DemandedAgain;
    var more, s1 := ComesToRest(manager, t, state);
    s := DemandedTooSoon(s1, manager, t, state, other);
    var before, again := SentOnce(manager, t, state) + more, DemandedAgain(manager, t, state, other);
    ReachesConcat(Initial(manager), before, s1, again, s);
    acts := before + again;
    StaleUndisturbed(manager, t, state, other, more);
  }

  // ---- notifications ----

  /**
   While a demand waits, it is notified exactly by the acknowledgments of registered tasks after which all
   records show the awaited state. Only a registration or a marking can complete it silently.
   */
  lemma CompletionSignalled(states: seq<Sys>, acts: seq<Action>, i: nat)
    requires Run(states, acts) && i < |acts| && states[i].awaited.Some?
    ensures var s, s', state := states[i], states[i + 1], states[i].awaited.value;
            && s'.signals == s.signals +
               (if acts[i] == ManagerHandle && Accepted(s.records, s.hand.value) && AllIn(s'.records, state)
                then 1 else 0)
            && (!AllIn(s.records, state) && AllIn(s'.records, state) && s'.signals == s.signals ==>
                  acts[i].Register? || acts[i].MarkRecord?)
  {
    TargetIsAwaited(states, acts, i);
  }

  // ---- when a demand succeeds ----

  /** After step d, m was published to t, and no StateMsg has been sent to t since. */
  ghost predicate LastSentIs(acts: seq<Action>, d: nat, i: nat, t: TaskId, m: Msg)
    requires i <= |acts|
  {
    exists b :: d < b < i && acts[b].Broadcast? && t in acts[b].to && acts[b].msg == m &&
                forall j :: b < j < i ==> !Sends(acts[j], t)
  }

  lemma {:induction false} StillAwaited(states: seq<Sys>, acts: seq<Action>, d: nat, i: nat, state: TaskState)
    requires Run(states, acts) && d < i < |states| && acts[d] == Demand(state)
    requires forall k :: d < k < i ==> !acts[k].Return?
    ensures states[i].awaited == Some(state)
  {
    if d < i - 1 { StillAwaited(states, acts, d, i - 1, state); }
  }

  lemma OrderIsLast(acts: seq<Action>, d: nat, i: nat, t: TaskId, m: Msg)
    requires i <= |acts| && m.data.StateMsg? && LastSentIs(acts, d, i, t, m)
    ensures LastOrder(acts, i, t) == m.data.state
  {
    var b :| d < b < i && acts[b].Broadcast? && t in acts[b].to && acts[b].msg == m &&
             forall j :: b < j < i ==> !Sends(acts[j], t);
    NothingSince(acts, b + 1, i, t);
  }

  /**
   A demand succeeds. Say its own StateMsg is the last one sent to every registered task, whatever fell between
   the deliveries of its fan-out, and the overwrites so far wrote what was last sent. Then wherever the threads
   come to rest, the waiting call may return true, and every registered task is in the demanded state.
   */
  lemma DemandSucceeds(states: seq<Sys>, acts: seq<Action>, d: nat, i: nat, state: TaskState,
                       more: seq<Action>, s': Sys)
    requires Run(states, acts) && d < i < |states| && acts[d] == Demand(state)
    requires forall k :: d < k < i ==> !acts[k].Return?
    requires forall t :: t in states[i].records ==> LastSentIs(acts, d, i, t, Order(states[i].manager, state))
    requires WritesMatch(acts, i)
    requires AllInternal(more) && Reaches(states[i], more, s') && forall a :: Internal(a) ==> !Enabled(s', a)
    ensures s'.awaited == Some(state) && Enabled(s', Return(true))
    ensures forall t :: t in s'.records ==> t in s'.tasks && s'.tasks[t].actual == state
  {
    StillAwaited(states, acts, d, i, state);
    LateContinues(states[i], more, s');
    LateRecordsKnown(states, acts, i, more, s');
    forall t | t in s'.records
      ensures s'.records[t] == state && s'.tasks[t].actual == state
    {
      StillCurrent(states, acts, i, more, s', t);
      SettledIsQuiescent(s', t);
      OrderIsLast(acts, d, i, t, Order(states[i].manager, state));
      LastOrderSent(states, acts, i, t);
    }
  }

  // ---- one demand after another ----

  lemma {:induction false} LastOrderPrefix(acts: seq<Action>, more: seq<Action>, i: nat, t: TaskId)
    requires i <= |acts|
    ensures LastOrder(acts + more, i, t) == LastOrder(acts, i, t)
  {
    if i > 0 { LastOrderPrefix(acts, more, i - 1, t); }
  }

  /** Steps that overwrite no record go on matching. */
  lemma StillMatch(acts: seq<Action>, more: seq<Action>)
    requires WritesMatch(acts, |acts|) && forall k :: 0 <= k < |more| ==> !more[k].Register? && !more[k].MarkRecord?
    ensures WritesMatch(acts + more, |acts + more|)
  {
    var all := acts + more;
    forall k | 0 <= k < |all| ensures Matches(all, k, all[k]) {
      if k < |acts| {
        assert all[k] == acts[k] && Matches(acts, k, acts[k]);
        if acts[k].Register? || acts[k].MarkRecord? { LastOrderPrefix(acts, more, k, acts[k].task); }
      }
    }
  }

  /** A demand and its message to all registered tasks. */
  function DemandSteps(s: Sys, state: TaskState): seq<Action> {
    [Demand(state), Broadcast(s.records.Keys, Order(s.manager, state))]
  }

  lemma DemandIsSent(s: Sys, state: TaskState) returns (s': Sys)
    requires s.awaited == None && s.records.Keys <= s.tasks.Keys
    ensures Reaches(s, DemandSteps(s, state), s')
    ensures s'.records == s.records && s'.manager == s.manager && s'.tasks.Keys == s.tasks.Keys
  {
    var acts := DemandSteps(s, state);
    var s1 := Next(s, acts[0]);
    s' := Next(s1, acts[1]);
    OneStepReaches(s1, acts[1]);
    ReachesStep(s, acts[0], [acts[1]], s');
    hide Reaches;
  }

  lemma DemandIsLast(acts: seq<Action>, s: Sys, state: TaskState, t: TaskId)
    requires t in s.records
    ensures var all := acts + DemandSteps(s, state);
            && LastSentIs(all, |acts|, |all|, t, Order(s.manager, state)) && all[|acts|] == Demand(state)
            && forall k :: |acts| < k < |all| ==> !all[k].Return?
  {
    var all := acts + DemandSteps(s, state);
    assert all[|acts| + 1] == Broadcast(s.records.Keys, Order(s.manager, state));
  }

  /** What a demand, its message, steps of the threads and a true return do to a run. */
  ghost predicate Round(states: seq<Sys>, acts: seq<Action>, state: TaskState,
                        states': seq<Sys>, acts': seq<Action>, more: seq<Action>)
    requires |states| == |acts| + 1
  {
    && Run(states', acts') && AllInternal(more)
    && acts' == acts + DemandSteps(states[|acts|], state) + more + [Return(true)]
    && WritesMatch(acts', |acts'|)
    && states'[|acts'|].awaited == None
    && forall t :: t in states'[|acts'|].records ==>
         && t in states'[|acts'|].tasks && states'[|acts'|].tasks[t].actual == state
         && states'[|acts'|].records[t] == state
  }

  lemma RecordsKnown(states: seq<Sys>, acts: seq<Action>)
    requires Run(states, acts)
    ensures states[|acts|].records.Keys <= states[|acts|].tasks.Keys
  {
    forall t | t in states[|acts|].records ensures t in states[|acts|].tasks {
      if t !in states[|acts|].tasks { NoAcksYet(states, acts, |acts|, t); }
    }
  }

  lemma NoOverwrites(more: seq<Action>)
    requires AllInternal(more)
    ensures forall k :: 0 <= k < |more| ==> !more[k].Register? && !more[k].MarkRecord?
  {
    forall k | 0 <= k < |more| ensures !more[k].Register? && !more[k].MarkRecord? {
      assert Internal(more[k]);
    }
  }

  lemma ReturnEnds(s: Sys, success: bool)
    requires Enabled(s, Return(success))
    ensures var s' := Next(s, Return(success)); s'.awaited == None && s'.records == s.records && s'.tasks == s.tasks
    ensures forall state :: Enabled(Next(s, Return(success)), Demand(state))
  {
  }

  lemma ReturnsTrue(states: seq<Sys>, acts: seq<Action>, more: seq<Action>, s: Sys, s': Sys, state: TaskState)
    returns (states': seq<Sys>, acts': seq<Action>)
    requires Run(states, acts) && WritesMatch(acts, |acts|) && states[|acts|] == s && AllInternal(more)
    requires Reaches(s, more, s') && s'.awaited == Some(state) && Enabled(s', Return(true))
    ensures Run(states', acts') && acts' == acts + more + [Return(true)] && WritesMatch(acts', |acts'|)
    ensures var last := states'[|acts'|];
            last.awaited == None && last.records == s'.records && last.tasks == s'.tasks
  {
    NoOverwrites(more);
    StillMatch(acts, more + [Return(true)]);
    ReturnEnds(s', true);
    hide Run, Next, Enabled, Reaches, WritesMatch, AllInternal;
    OneStepReaches(s', Return(true));
    var s'' := Next(s', Return(true));
    ReachesConcat(s, more, s', [Return(true)], s'');
    states' := RunContinues(states, acts, more + [Return(true)], s'');
    acts' := acts + (more + [Return(true)]);
    assert acts' == acts + more + [Return(true)];
  }

  /**
   From every state of a run with matching writes and no demand in progress, a demand can be made, and it comes to
   a true return with every registered task in its state; then another demand can be made.
   */
  lemma DemandRound(states: seq<Sys>, acts: seq<Action>, state: TaskState)
    returns (states': seq<Sys>, acts': seq<Action>, more: seq<Action>)
    requires Run(states, acts) && WritesMatch(acts, |acts|) && states[|acts|].awaited == None
    ensures Round(states, acts, state, states', acts', more)
  {
    var s := states[|acts|];
    RecordsKnown(states, acts);
    hide Run, Next, Reaches, WritesMatch, AllInternal, LastSentIs, Enabled;
    var steps := DemandSteps(s, state);
    var s1 := DemandIsSent(s, state);
    var sent := RunContinues(states, acts, steps, s1);
    var all := acts + steps;
    StillMatch(acts, steps);
    forall t | t in s1.records ensures LastSentIs(all, |acts|, |all|, t, Order(s1.manager, state)) {
      DemandIsLast(acts, s, state, t);
    }
    RunStep(sent, all, 0);
    var ids := ListOf(s1.tasks.Keys);
    var s2: Sys;
    more, s2 := Settle(ids, s1);
    assert all[|acts|] == Demand(state) && forall k :: |acts| < k < |all| ==> !all[k].Return?;
    DemandSucceeds(sent, all, |acts|, |all|, state, more, s2);
    states', acts' := ReturnsTrue(sent, all, more, s1, s2, state);
  }

  lemma RegisteredRun(manager: TaskId, t: TaskId) returns (states: seq<Sys>, acts: seq<Action>)
    ensures Run(states, acts) && WritesMatch(acts, |acts|) && states[|acts|].awaited == None
    ensures |acts| == 2 && acts[1] == Register(t)
  {
    acts := [Create(t), Register(t)];
    var s0 := Initial(manager);
    var s1 := Next(s0, acts[0]);
    states := [s0, s1, Next(s1, acts[1])];
    assert LastOrder(acts, 1, t) == LastOrder(acts, 0, t);
    assert Matches(acts, 0, acts[0]) && Matches(acts, 1, acts[1]);
  }

  /** In any run that goes on from a round's, the round's return ended a wait for its state. */
  lemma RoundAwaited(before: seq<Action>, s: Sys, state: TaskState, more: seq<Action>,
                     states: seq<Sys>, acts: seq<Action>)
    requires AllInternal(more) && Run(states, acts)
    requires before + DemandSteps(s, state) + more + [Return(true)] <= acts
    ensures var r := |before| + 2 + |more|;
            r < |acts| && acts[r] == Return(true) && states[r].awaited == Some(state)
  {
    var d, r := |before|, |before| + 2 + |more|;
    var round := before + DemandSteps(s, state) + more + [Return(true)];
    assert forall k :: 0 <= k < |round| ==> acts[k] == round[k];
    assert round[d] == Demand(state) && round[r] == Return(true);
    forall k | d < k < r ensures !acts[k].Return? {
      if d + 2 <= k { assert round[k] == more[k - d - 2] && Internal(more[k - d - 2]); }
    }
    StillAwaited(states, acts, d, r, state);
  }

  lemma {:induction false} StaysRecorded(states: seq<Sys>, acts: seq<Action>, i: nat, t: TaskId)
    requires Run(states, acts) && i < |states| && Register(t) in acts[..i]
    ensures t in states[i].records
  {
    hide Run, Next, Enabled;
    RunStep(states, acts, 0);
    RunStep(states, acts, i - 1);
    RecordStep(states[i - 1], acts[i - 1], t);
    if acts[i - 1] != Register(t) {
      assert acts[..i] == acts[..i - 1] + [acts[i - 1]];
      StaysRecorded(states, acts, i - 1, t);
    }
  }

  lemma RoundLength(before: seq<Action>, s: Sys, state: TaskState, more: seq<Action>)
    ensures |before + DemandSteps(s, state) + more + [Return(true)]| == |before| + 3 + |more|
  {
  }

  /** A run in which two demands, of any two states, both return true, the second with its task in its state. */
  lemma TwoDemands(manager: TaskId, t: TaskId, first: TaskState, second: TaskState)
    returns (states: seq<Sys>, acts: seq<Action>, r1: nat, r2: nat)
    ensures Run(states, acts) && r1 < r2 < |acts| && acts[r1] == acts[r2] == Return(true)
    ensures states[r1].awaited == Some(first) && states[r2].awaited == Some(second)
    ensures t in states[|acts|].records && t in states[|acts|].tasks && states[|acts|].tasks[t].actual == second
  {
    var s1, a1 := RegisteredRun(manager, t);
    hide Run, WritesMatch, AllInternal, DemandSteps;
    RunStep(s1, a1, 0);
    var s2, a2, m1 := DemandRound(s1, a1, first);
    RunStep(s2, a2, 0);
    var s3, a3, m2 := DemandRound(s2, a2, second);
    RunStep(s3, a3, 0);
    states, acts := s3, a3;
    assert a2 <= a3 && a1 <= a3;
    r1, r2 := |a1| + 2 + |m1|, |a2| + 2 + |m2|;
    RoundAwaited(a1, s1[|a1|], first, m1, s3, a3);
    RoundAwaited(a2, s2[|a2|], second, m2, s3, a3);
    RoundLength(a1, s1[|a1|], first, m1);
    assert a3[..|a3|] == a3 && a3[1] == Register(t);
    StaysRecorded(s3, a3, |a3|, t);
  }
}
