/** The queue a task sees: take the earliest of the highest-priority messages. */
module StableQueue {
  import opened Messages
  import opened Sequences

  /** The index of the first maximum. */
  function Best(ps: seq<nat>): (k: nat)
    requires ps != []
    ensures k < |ps|
    ensures forall j :: 0 <= j < |ps| ==> ps[j] <= ps[k]
    ensures forall j :: 0 <= j < k ==> ps[j] < ps[k]
  {
    if |ps| == 1 then 0
    else
      var r := Best(ps[1..]) + 1;
      if ps[r] <= ps[0] then 0 else r
  }

  function Priorities(q: seq<Msg>): (ps: seq<nat>)
    ensures |ps| == |q|
    ensures forall i :: 0 <= i < |q| ==> ps[i] == q[i].Priority()
  {
    seq(|q|, i requires 0 <= i < |q| => q[i].Priority())
  }

  function Pick(q: seq<Msg>): (k: nat)
    requires q != []
    ensures k < |q|
    ensures forall j :: 0 <= j < |q| ==> q[j].Priority() <= q[k].Priority()
    ensures forall j :: 0 <= j < k ==> q[j].Priority() < q[k].Priority()
  {
    var ps := Priorities(q);
    var k := Best(ps);
    assert forall j :: 0 <= j < |q| ==> ps[j] == q[j].Priority();
    k
  }

  function Front(q: seq<Msg>): Msg
    requires q != []
  {
    q[Pick(q)]
  }

  function Rest(q: seq<Msg>): (r: seq<Msg>)
    requires q != []
    ensures |r| == |q| - 1
  {
    RemoveAt(q, Pick(q))
  }

  /** All the messages of q that satisfy p have one priority. */
  ghost predicate Uniform(p: Msg -> bool, q: seq<Msg>) {
    forall m, n :: m in q && n in q && p(m) && p(n) ==> m.Priority() == n.Priority()
  }

  /** Within any single-priority class of messages the queue is first in, first out. */
  lemma TakeIsFifo(p: Msg -> bool, q: seq<Msg>)
    requires q != [] && Uniform(p, q)
    ensures Filter(p, q) == (if p(Front(q)) then [Front(q)] else []) + Filter(p, Rest(q))
  {
    var k := Pick(q);
    if p(q[k]) {
      forall j | 0 <= j < k
        ensures !p(q[j])
      {
        assert q[j] in q && q[k] in q;
      }
    }
    FilterRemoveAt(p, q, k);
  }

  // ---- a queue over a run ----

  function OfPriority(p: nat): Msg -> bool {
    (m: Msg) => m.Priority() == p
  }

  /** A step of the queue: messages arrive at its end, or the one to serve is taken and the rest stays. */
  ghost predicate Moves(box: seq<Msg>, taken: seq<Msg>, arrived: seq<Msg>, box': seq<Msg>) {
    || (taken == [] && box' == box + arrived)
    || (box != [] && arrived == [] && taken == [Front(box)] && box' == Rest(box))
  }

  /** Of each priority, what was taken and then what waits is what arrived, in order; every step keeps that. */
  lemma MovesInOrder(p: nat, done: seq<Msg>, all: seq<Msg>,
                     box: seq<Msg>, taken: seq<Msg>, arrived: seq<Msg>, box': seq<Msg>)
    requires Moves(box, taken, arrived, box')
    requires Filter(OfPriority(p), done) + Filter(OfPriority(p), box) == Filter(OfPriority(p), all)
    ensures Filter(OfPriority(p), done + taken) + Filter(OfPriority(p), box') == Filter(OfPriority(p), all + arrived)
  {
    var f := OfPriority(p);
    assert Uniform(f, box);
    hide Filter, OfPriority, Uniform, Pick, RemoveAt;
    if taken == [] && box' == box + arrived {
      assert done + taken == done;
      FilterConcat(f, box, arrived);
      FilterConcat(f, all, arrived);
      Regroup(Filter(f, done), Filter(f, box), Filter(f, arrived));
    } else {
      assert all + arrived == all;
      TakeIsFifo(f, box);
      MovedAcross(f, done, box, Pick(box));
    }
  }

  /** And altogether what was taken and what waits is what arrived. */
  lemma MovesKeepAll(done: seq<Msg>, all: seq<Msg>,
                     box: seq<Msg>, taken: seq<Msg>, arrived: seq<Msg>, box': seq<Msg>)
    requires Moves(box, taken, arrived, box') && multiset(done) + multiset(box) == multiset(all)
    ensures multiset(done + taken) + multiset(box') == multiset(all + arrived)
  {
    if !(taken == [] && box' == box + arrived) { RemoveAtMultiset(box, Pick(box)); }
    assert multiset(taken) + multiset(box') == multiset(box) + multiset(arrived);
    hide Moves;
    SumsShift(multiset(done), multiset(box), multiset(all), multiset(taken), multiset(box'), multiset(arrived));
    assert multiset(done + taken) == multiset(done) + multiset(taken);
    assert multiset(all + arrived) == multiset(all) + multiset(arrived);
  }

  // ---- which kind of message is served ----

  /** k is the place of the earliest message that satisfies p. */
  ghost predicate Earliest(p: Msg -> bool, q: seq<Msg>, k: nat) {
    k < |q| && p(q[k]) && forall j :: 0 <= j < k ==> !p(q[j])
  }

  ghost predicate Waits(p: Msg -> bool, q: seq<Msg>) {
    exists m :: m in q && p(m)
  }

  /** The messages of a system's own rows all have priorities below the bound. */
  ghost predicate OwnBelow(q: seq<Msg>, bound: nat) {
    forall m :: m in q && m.data.UserMsg? ==> m.data.rowPriority < bound
  }

  /**
   The k-th message is the one to serve, said of the kinds of message: StateMsgs before their acknowledgments,
   those before heartbeats, those before heartbeat acknowledgments, the earliest of a kind first. A system's own
   messages have their place between them by the priorities of their rows.
   */
  ghost predicate ServedByKind(q: seq<Msg>, k: nat) {
    && (Waits(IsState, q) && OwnBelow(q, 100) ==> Earliest(IsState, q, k))
    && (!Waits(IsState, q) && Waits(IsStateAck, q) && OwnBelow(q, 99) ==> Earliest(IsStateAck, q, k))
    && (!Waits(IsState, q) && !Waits(IsStateAck, q) && Waits(IsHeartbeat, q) && OwnBelow(q, 50) ==>
          Earliest(IsHeartbeat, q, k))
    && (!Waits(IsState, q) && !Waits(IsStateAck, q) && !Waits(IsHeartbeat, q) && Waits(IsHeartbeatAck, q) ==>
          OwnBelow(q, 49) ==> Earliest(IsHeartbeatAck, q, k))
    && (k < |q| && q[k].data.UserMsg? ==>
          && OwnBelow(q, q[k].data.rowPriority + 1)
          && (Waits(IsState, q) ==> q[k].data.rowPriority >= 100)
          && (Waits(IsStateAck, q) ==> q[k].data.rowPriority >= 99)
          && (Waits(IsHeartbeat, q) ==> q[k].data.rowPriority >= 50)
          && (Waits(IsHeartbeatAck, q) ==> q[k].data.rowPriority >= 49))
  }

  lemma PickServesByKind(q: seq<Msg>)
    requires q != []
    ensures ServedByKind(q, Pick(q))
  {
    var k := Pick(q);
    assert q[k] in q;
    assert forall m :: m in q ==> m.Priority() <= q[k].Priority();
  }

  /** m is a message of q that its kind puts first. */
  ghost predicate FirstByKind(q: seq<Msg>, m: Msg) {
    exists k :: 0 <= k < |q| && q[k] == m && ServedByKind(q, k)
  }

  lemma FrontIsFirstByKind(q: seq<Msg>)
    requires q != []
    ensures FirstByKind(q, Front(q))
  {
    PickServesByKind(q);
  }

  // ---- shutting down ----

  /** What repeated removal delivers. */
  function Drain(q: seq<Msg>): (r: seq<Msg>)
    ensures |r| == |q|
    decreases |q|
  {
    if q == [] then [] else [Front(q)] + Drain(Rest(q))
  }

  /** The results of n dequeue calls made after notify_shutdown with no further enqueues. */
  function DequeueAfterShutdown(q: seq<Msg>, n: nat): (r: seq<Option<Msg>>)
    ensures |r| == n
  {
    if n == 0 then []
    else if q == [] then [None] + DequeueAfterShutdown(q, n - 1)
    else [Some(Front(q))] + DequeueAfterShutdown(Rest(q), n - 1)
  }

  lemma {:induction false} DrainPermutes(q: seq<Msg>)
    ensures multiset(Drain(q)) == multiset(q)
    decreases |q|
  {
    if q != [] {
      RemoveAtMultiset(q, Pick(q));
      DrainPermutes(Rest(q));
    }
  }

  lemma {:induction false} DrainSorted(q: seq<Msg>, i: nat, j: nat)
    requires i < j < |q|
    ensures Drain(q)[i].Priority() >= Drain(q)[j].Priority()
    decreases |q|
  {
    if i == 0 {
      DrainPermutes(q);
      assert Drain(q)[j] in multiset(q);
    } else {
      DrainSorted(Rest(q), i - 1, j - 1);
    }
  }

  lemma {:induction false} DrainStable(p: Msg -> bool, q: seq<Msg>)
    requires Uniform(p, q)
    ensures Filter(p, Drain(q)) == Filter(p, q)
    decreases |q|
  {
    if q != [] {
      TakeIsFifo(p, q);
      RemoveAtMultiset(q, Pick(q));
      forall m | m in Rest(q) ensures m in q {
        assert m in multiset(Rest(q));
      }
      DrainStable(p, Rest(q));
      FilterConcat(p, [Front(q)], Drain(Rest(q)));
    }
  }

  /** Exactly |q| dequeues deliver, in stable priority order, and every later one returns empty. */
  lemma {:induction false} ShutdownDrain(q: seq<Msg>, n: nat)
    ensures forall i :: 0 <= i < n ==>
              DequeueAfterShutdown(q, n)[i] == if i < |q| then Some(Drain(q)[i]) else None
    decreases n
  {
    hide Front, Rest;
    if n != 0 && q == [] {
      ShutdownDrain(q, n - 1);
    } else if n != 0 {
      ShutdownDrain(Rest(q), n - 1);
    }
  }
}
