/** The broker: per-type subscriber lists, and delivery into the subscribers' queues. */
module Broker {
  import opened Messages
  import opened Sequences

  // ---- delivery as functions of the boxes; a box lists what waits in a task's queue ----

  function Box<T>(mail: map<TaskId, seq<T>>, t: TaskId): seq<T> {
    if t in mail then mail[t] else []
  }

  /** deliver_message: one enqueue into the target's queue. */
  function Deliver<T>(mail: map<TaskId, seq<T>>, t: TaskId, x: T): map<TaskId, seq<T>> {
    mail[t := Box(mail, t) + [x]]
  }

  function FanOut<T>(mail: map<TaskId, seq<T>>, to: seq<TaskId>, x: T): map<TaskId, seq<T>>
    decreases |to|
  {
    if to == [] then mail else FanOut(Deliver(mail, to[0], x), to[1..], x)
  }

  function IsLive(live: set<TaskId>): TaskId -> bool {
    t => t in live
  }

  /** The entries whose task has not expired. */
  function Live(list: seq<TaskId>, live: set<TaskId>): (r: seq<TaskId>)
    ensures forall t :: t in r <==> t in list && t in live
  {
    Filter(IsLive(live), list)
  }

  /** Each listed task gets exactly one copy, at the end of its queue, and no other task gets any. */
  lemma {:induction false} FanOutOnce<T>(mail: map<TaskId, seq<T>>, to: seq<TaskId>, x: T, t: TaskId)
    requires NoDuplicates(to)
    ensures Box(FanOut(mail, to, x), t) == if t in to then Box(mail, t) + [x] else Box(mail, t)
    decreases |to|
  {
    if to != [] {
      assert NoDuplicates(to[1..]) by { assert forall i :: 0 <= i < |to[1..]| ==> to[1..][i] == to[i + 1]; }
      FanOutOnce(Deliver(mail, to[0], x), to[1..], x, t);
    }
  }

  lemma FanOutNone<T>(mail: map<TaskId, seq<T>>, x: T)
    ensures FanOut(mail, [], x) == mail
  {
  }

  lemma {:induction false} FanOutAppend<T>(mail: map<TaskId, seq<T>>, to: seq<TaskId>, t: TaskId, x: T)
    ensures FanOut(mail, to + [t], x) == Deliver(FanOut(mail, to, x), t, x)
    decreases |to|
  {
    if to == [] {
      assert to + [t] == [t];
    } else {
      FanOutAppend(Deliver(mail, to[0], x), to[1..], t, x);
      assert (to + [t])[1..] == to[1..] + [t];
    }
  }

  lemma Erased(list: seq<TaskId>, it: nat)
    requires it < |list|
    ensures RemoveAt(list, it)[..it] == list[..it] && RemoveAt(list, it)[it..] == list[it + 1..]
  {
  }

  lemma LiveNone(live: set<TaskId>)
    ensures Live([], live) == []
  {
  }

  lemma LiveFrom(list: seq<TaskId>, it: nat, live: set<TaskId>)
    requires it < |list|
    ensures Live(list[it..], live) == (if list[it] in live then [list[it]] else []) + Live(list[it + 1..], live)
  {
    assert list[it..] == [list[it]] + list[it + 1..];
  }

  lemma {:induction false} LiveNoDuplicates(list: seq<TaskId>, live: set<TaskId>)
    requires NoDuplicates(list)
    ensures NoDuplicates(Live(list, live))
  {
    if list != [] {
      assert forall i :: 0 <= i < |list[1..]| ==> list[1..][i] == list[i + 1];
      LiveNoDuplicates(list[1..], live);
      assert list[0] !in list[1..];
    }
  }

  // ---- the broker ----

  class Broker {
    var lists: seq<seq<TaskId>>
    var initialized: bool
    /** The tasks that some shared pointer still keeps alive. */
    var live: set<TaskId>
    var mail: map<TaskId, seq<Msg>>

    /** No list names a task twice. */
    ghost predicate Valid()
      reads this
    {
      forall ty :: 0 <= ty < |lists| ==> NoDuplicates(lists[ty])
    }

    constructor (typeCount: nat)
      ensures Valid() && !initialized && |lists| == typeCount && mail == map[]
      ensures forall ty :: 0 <= ty < typeCount ==> lists[ty] == []
    {
      lists := seq(typeCount, i => []);
      initialized := false;
      live := {};
      mail := map[];
    }

    method Initialize()
      requires Valid()
      modifies `initialized
      ensures Valid() && initialized
    {
      initialized := true;
    }

    /** The erase-while-iterating loop. */
    method Publish(m: Msg)
      requires Valid() && initialized && m.Type() < |lists|
      modifies `lists, `mail
      ensures Valid()
      ensures lists == old(lists)[m.Type() := Live(old(lists[m.Type()]), live)]
      ensures forall t: TaskId :: Box(mail, t) ==
                if t in live && t in old(lists[m.Type()]) then Box(old(mail), t) + [m] else Box(old(mail), t)
    {
      hide FanOut, Filter, Live, Deliver, NoDuplicates, Box, RemoveAt;
      var ty := m.Type();
      ghost var before := lists[ty];
      LiveNoDuplicates(before, live);
      assert before[..0] == [] && before[0..] == before;
      FanOutNone(mail, m);
      var it := 0;
      while it < |lists[ty]|
        invariant |lists| == |old(lists)| && it <= |lists[ty]|
        invariant lists == old(lists)[ty := lists[ty]]
        invariant Live(before, live) == lists[ty][..it] + Live(lists[ty][it..], live)
        invariant mail == FanOut(old(mail), lists[ty][..it], m)
        decreases |lists[ty]| - it
      {
        ghost var whole := lists[ty];
        var entry := lists[ty][it];
        LiveFrom(whole, it, live);
        if entry in live {
          FanOutAppend(old(mail), whole[..it], entry, m);
          assert whole[..it + 1] == whole[..it] + [entry];
          mail := Deliver(mail, entry, m);
          it := it + 1;
        } else {
          lists := lists[ty := RemoveAt(lists[ty], it)];
          Erased(whole, it);
        }
      }
      LiveNone(live);
      assert lists[ty][it..] == [] && lists[ty][..it] == lists[ty];
      assert Live(before, live) == lists[ty] + [] == lists[ty];
      forall t: TaskId
        ensures Box(mail, t) == if t in live && t in before then Box(old(mail), t) + [m] else Box(old(mail), t)
      {
        FanOutOnce(old(mail), lists[ty], m, t);
      }
    }

    /** The caller holds the task, so it is live. */
    method Subscribe(t: TaskId, ty: nat)
      requires Valid() && initialized && ty < |lists| && t in live
      modifies `lists
      ensures Valid()
      ensures lists == old(lists)[ty := if t in old(lists[ty]) then old(lists[ty]) else old(lists[ty]) + [t]]
    {
      var k := 0;
      while k < |lists[ty]| && !(lists[ty][k] in live && lists[ty][k] == t)
        invariant k <= |lists[ty]| && t !in lists[ty][..k]
      {
        k := k + 1;
      }
      if k == |lists[ty]| {
        assert lists[ty][..k] == lists[ty];
        lists := lists[ty := lists[ty] + [t]];
      } else {
        assert lists == lists[ty := lists[ty]];
      }
    }

    method DeliverMessage(target: TaskId, m: Msg)
      requires Valid()
      modifies `mail
      ensures Valid()
      ensures Box(mail, target) == Box(old(mail), target) + [m]
      ensures forall t: TaskId :: t != target ==> Box(mail, t) == Box(old(mail), t)
    {
      mail := Deliver(mail, target, m);
    }
  }
}
