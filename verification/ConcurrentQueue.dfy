/**
 The queue under any interleaving of producers and consumers. Each critical section is one step:
 a producer allocates its block before it takes the queue lock, and a consumer holds the block it
 popped until it has given it back, so blocks are also in threads' hands.
 */
module ConcurrentQueue {
  import opened Messages
  import opened Sequences
  import opened StableQueue
  import opened NodeHeap
  import opened ServiceOrder

  datatype Slot = Slot(block: nat, node: Node)

  /** A block in a thread's hand, with the message it is to hold or held. */
  datatype Held = Held(block: nat, msg: Msg)

  /**
   filling are the producers between allocate and push, emptying the consumers between pop and
   deallocate. slots are the heap's nodes in arrival order; counter is the number for the next one.
   */
  datatype State = State(
    free: seq<nat>, filling: seq<Held>, slots: seq<Slot>, emptying: seq<Held>,
    counter: nat, shutdown: bool)

  datatype Action =
    | Allocate(msg: Msg)
    | Push(producer: nat)
    | Pop(k: nat, blocking: bool)
    | Release(consumer: nat)
    | FindEmpty
    | NotifyShutdown

  function Nodes(slots: seq<Slot>): (ns: seq<Node>)
    ensures |ns| == |slots|
    ensures forall i :: 0 <= i < |slots| ==> ns[i] == slots[i].node
  {
    seq(|slots|, i requires 0 <= i < |slots| => slots[i].node)
  }

  function Contents(s: State): seq<Msg> {
    Payloads(Nodes(s.slots))
  }

  function Range(n: nat): (r: seq<nat>)
    ensures |r| == n
  {
    if n == 0 then [] else Range(n - 1) + [n - 1]
  }

  function Init(n: nat): State {
    State(Range(n), [], [], [], 0, false)
  }

  predicate Enabled(s: State, a: Action) {
    match a
    case Allocate(_) => s.free != []
    case Push(p) => p < |s.filling|
    case Pop(k, _) => k < |s.slots| && ServedFirst(Nodes(s.slots), k)
    case Release(c) => c < |s.emptying|
    case FindEmpty => s.shutdown && s.slots == []
    case NotifyShutdown => true
  }

  function Next(s: State, a: Action): State
    requires Enabled(s, a)
  {
    match a
    case Allocate(m) =>
      s.(free := s.free[1..], filling := s.filling + [Held(s.free[0], m)])
    case Push(p) =>
      var held := s.filling[p];
      s.(filling := RemoveAt(s.filling, p),
         slots := s.slots + [Slot(held.block, Node(held.msg, s.counter))],
         counter := (s.counter + 1) % SEQUENCE_MODULUS)
    case Pop(k, blocking) =>
      var popped := s.slots[k];
      var left := RemoveAt(s.slots, k);
      s.(slots := left,
         emptying := s.emptying + [Held(popped.block, popped.node.message)],
         counter := if blocking && left == [] then 0 else s.counter)
    case Release(c) =>
      s.(free := [s.emptying[c].block] + s.free, emptying := RemoveAt(s.emptying, c))
    case FindEmpty => s.(counter := 0)
    case NotifyShutdown => s.(shutdown := true)
  }

  ghost predicate Run(n: nat, states: seq<State>, acts: seq<Action>) {
    && |states| == |acts| + 1
    && states[0] == Init(n)
    && forall i :: 0 <= i < |acts| ==> Enabled(states[i], acts[i]) && states[i + 1] == Next(states[i], acts[i])
  }

  lemma RunStep(n: nat, states: seq<State>, acts: seq<Action>, k: nat)
    requires Run(n, states, acts)
    ensures |states| == |acts| + 1 && states[0] == Init(n)
    ensures k < |acts| ==> Enabled(states[k], acts[k]) && states[k + 1] == Next(states[k], acts[k])
  {
  }

  // ---- conservation ----

  function HeldBlocks(hs: seq<Held>): (bs: seq<nat>)
    ensures |bs| == |hs|
    ensures forall i :: 0 <= i < |hs| ==> bs[i] == hs[i].block
  {
    seq(|hs|, i requires 0 <= i < |hs| => hs[i].block)
  }

  function SlotBlocks(slots: seq<Slot>): (bs: seq<nat>)
    ensures |bs| == |slots|
    ensures forall i :: 0 <= i < |slots| ==> bs[i] == slots[i].block
  {
    seq(|slots|, i requires 0 <= i < |slots| => slots[i].block)
  }

  /** Every place a block can be: the free list, a producer's hand, the heap, a consumer's hand. */
  function Places(s: State): multiset<nat> {
    multiset(s.free) + multiset(HeldBlocks(s.filling)) + multiset(SlotBlocks(s.slots))
    + multiset(HeldBlocks(s.emptying))
  }

  lemma HeldTaken(hs: seq<Held>, k: nat)
    requires k < |hs|
    ensures multiset(HeldBlocks(hs)) == multiset(HeldBlocks(RemoveAt(hs, k))) + multiset{hs[k].block}
  {
    RemoveAtMultiset(HeldBlocks(hs), k);
    assert HeldBlocks(RemoveAt(hs, k)) == RemoveAt(HeldBlocks(hs), k);
  }

  lemma HeldAdded(hs: seq<Held>, h: Held)
    ensures multiset(HeldBlocks(hs + [h])) == multiset(HeldBlocks(hs)) + multiset{h.block}
  {
    assert HeldBlocks(hs + [h]) == HeldBlocks(hs) + [h.block];
  }

  lemma SlotTaken(slots: seq<Slot>, k: nat)
    requires k < |slots|
    ensures multiset(SlotBlocks(slots)) == multiset(SlotBlocks(RemoveAt(slots, k))) + multiset{slots[k].block}
  {
    RemoveAtMultiset(SlotBlocks(slots), k);
    assert SlotBlocks(RemoveAt(slots, k)) == RemoveAt(SlotBlocks(slots), k);
  }

  lemma SlotAdded(slots: seq<Slot>, x: Slot)
    ensures multiset(SlotBlocks(slots + [x])) == multiset(SlotBlocks(slots)) + multiset{x.block}
  {
    assert SlotBlocks(slots + [x]) == SlotBlocks(slots) + [x.block];
  }

  lemma PushPlaces(s: State, p: nat)
    requires Enabled(s, Push(p))
    ensures Places(Next(s, Push(p))) == Places(s)
  {
    hide HeldBlocks, SlotBlocks, RemoveAt;
    HeldTaken(s.filling, p);
    SlotAdded(s.slots, Slot(s.filling[p].block, Node(s.filling[p].msg, s.counter)));
  }

  lemma PopPlaces(s: State, k: nat, blocking: bool)
    requires Enabled(s, Pop(k, blocking))
    ensures Places(Next(s, Pop(k, blocking))) == Places(s)
  {
    hide ServedFirst, HeldBlocks, SlotBlocks, RemoveAt;
    SlotTaken(s.slots, k);
    HeldAdded(s.emptying, Held(s.slots[k].block, s.slots[k].node.message));
  }

  lemma PlacesKept(s: State, a: Action)
    requires Enabled(s, a)
    ensures Places(Next(s, a)) == Places(s)
  {
    hide ServedFirst, HeldBlocks, SlotBlocks, RemoveAt, Nodes;
    match a {
      case Allocate(m) =>
        assert s.free == [s.free[0]] + s.free[1..];
        HeldAdded(s.filling, Held(s.free[0], m));
      case Push(p) => PushPlaces(s, p);
      case Pop(k, blocking) => PopPlaces(s, k, blocking);
      case Release(c) => HeldTaken(s.emptying, c);
      case _ =>
    }
  }

  lemma {:induction false} RangeOnce(n: nat, b: nat)
    ensures multiset(Range(n))[b] == if b < n then 1 else 0
  {
    if n != 0 { RangeOnce(n - 1, b); }
  }

  lemma {:induction false} PlacesAlways(n: nat, states: seq<State>, acts: seq<Action>, i: nat)
    requires Run(n, states, acts) && i < |states|
    ensures Places(states[i]) == multiset(Range(n))
  {
    if i == 0 {
      assert HeldBlocks([]) == [] && SlotBlocks([]) == [];
    } else {
      PlacesAlways(n, states, acts, i - 1);
      PlacesKept(states[i - 1], acts[i - 1]);
    }
  }

  /** In every interleaving each block is in exactly one place, once, and the heap never outgrows its capacity. */
  lemma Conservation(n: nat, states: seq<State>, acts: seq<Action>, i: nat, b: nat)
    requires Run(n, states, acts) && i < |states|
    ensures var s := states[i];
            && multiset(s.free)[b] + multiset(HeldBlocks(s.filling))[b] + multiset(SlotBlocks(s.slots))[b]
               + multiset(HeldBlocks(s.emptying))[b] == (if b < n then 1 else 0)
            && |s.free| + |s.filling| + |s.slots| + |s.emptying| == n
  {
    PlacesAlways(n, states, acts, i);
    RangeOnce(n, b);
    assert |Places(states[i])| == |multiset(Range(n))|;
  }

  /** The free list is a stack: the block released last is the next one allocated. */
  lemma LastReleasedIsNext(s: State, c: nat, m: Msg)
    requires Enabled(s, Release(c))
    ensures var s' := Next(s, Release(c));
            Enabled(s', Allocate(m)) && Next(s', Allocate(m)).filling == s.filling + [Held(s.emptying[c].block, m)]
    ensures Next(Next(s, Release(c)), Allocate(m)).free == s.free
  {
    hide RemoveAt;
  }

  // ---- messages ----

  /** The messages that producers took a block for in the first i steps. */
  function Produced(acts: seq<Action>, i: nat): multiset<Msg>
    requires i <= |acts|
  {
    if i == 0 then multiset{}
    else Produced(acts, i - 1) + if acts[i - 1].Allocate? then multiset{acts[i - 1].msg} else multiset{}
  }

  /** The message that a consumer took last. */
  function Hand(s: State): Msg
    requires s.emptying != []
  {
    s.emptying[|s.emptying| - 1].msg
  }

  /** The messages that the first i steps handed to consumers, in that order. */
  function Consumed(states: seq<State>, acts: seq<Action>, i: nat): seq<Msg>
    requires i <= |acts| && |states| == |acts| + 1
  {
    if i == 0 then []
    else
      Consumed(states, acts, i - 1) +
      if acts[i - 1].Pop? && states[i].emptying != [] then [Hand(states[i])] else []
  }

  function HeldMsgs(hs: seq<Held>): (ms: seq<Msg>)
    ensures |ms| == |hs|
    ensures forall i :: 0 <= i < |hs| ==> ms[i] == hs[i].msg
  {
    seq(|hs|, i requires 0 <= i < |hs| => hs[i].msg)
  }

  /** The messages on their way into the queue and those in it. */
  function Inside(s: State): multiset<Msg> {
    multiset(HeldMsgs(s.filling)) + multiset(Contents(s))
  }

  lemma AllocateInside(s: State, m: Msg)
    requires Enabled(s, Allocate(m))
    ensures Inside(Next(s, Allocate(m))) == Inside(s) + multiset{m}
  {
    assert HeldMsgs(Next(s, Allocate(m)).filling) == HeldMsgs(s.filling) + [m];
  }

  lemma PushInside(s: State, p: nat)
    requires Enabled(s, Push(p))
    ensures Inside(Next(s, Push(p))) == Inside(s)
  {
    var held := s.filling[p];
    assert HeldMsgs(RemoveAt(s.filling, p)) == RemoveAt(HeldMsgs(s.filling), p);
    RemoveAtMultiset(HeldMsgs(s.filling), p);
    assert Contents(Next(s, Push(p))) == Contents(s) + [held.msg];
  }

  lemma PopInside(s: State, k: nat, blocking: bool)
    requires Enabled(s, Pop(k, blocking))
    ensures var s' := Next(s, Pop(k, blocking));
            s'.emptying != [] && Inside(s) == Inside(s') + multiset{Hand(s')}
  {
    hide ServedFirst;
    assert Contents(Next(s, Pop(k, blocking))) == RemoveAt(Contents(s), k);
    RemoveAtMultiset(Contents(s), k);
  }

  lemma SameInside(s: State, s': State)
    requires s'.filling == s.filling && s'.slots == s.slots
    ensures Inside(s') == Inside(s)
  {
  }

  lemma StepInside(s: State, a: Action)
    requires Enabled(s, a)
    ensures var s' := Next(s, a);
            && (a.Pop? ==> s'.emptying != [])
            && Inside(s) + (if a.Allocate? then multiset{a.msg} else multiset{}) ==
               Inside(s') + if a.Pop? then multiset{Hand(s')} else multiset{}
  {
    hide Inside, RemoveAt;
    match a {
      case Allocate(m) => AllocateInside(s, m);
      case Push(p) => PushInside(s, p);
      case Pop(k, blocking) => PopInside(s, k, blocking);
      case _ => assert Inside(Next(s, a)) == Inside(s) by { SameInside(s, Next(s, a)); }
    }
  }

  lemma NothingInside(n: nat)
    ensures Inside(Init(n)) == multiset{}
  {
  }

  /** In every interleaving each message is on its way in, in the queue, or was handed to one consumer once. */
  lemma {:induction false} MessagesConserved(n: nat, states: seq<State>, acts: seq<Action>, i: nat)
    requires Run(n, states, acts) && i < |states|
    ensures Produced(acts, i) ==
            multiset(HeldMsgs(states[i].filling)) + multiset(Contents(states[i])) + multiset(Consumed(states, acts, i))
  {
    hide Run, Next, Enabled, Contents, HeldMsgs;
    RunStep(n, states, acts, 0);
    if i == 0 {
      NothingInside(n);
    } else {
      RunStep(n, states, acts, i - 1);
      MessagesConserved(n, states, acts, i - 1);
      StepInside(states[i - 1], acts[i - 1]);
      var made := if acts[i - 1].Allocate? then multiset{acts[i - 1].msg} else multiset{};
      var taken := if acts[i - 1].Pop? then multiset{Hand(states[i])} else multiset{};
      SumsShift(multiset(Consumed(states, acts, i - 1)), Inside(states[i - 1]), Produced(acts, i - 1),
                taken, Inside(states[i]), made);
    }
  }

  // ---- the number, from the steps alone ----

  /** The step zeroes the number: a dequeue that leaves nothing waiting, or one that finds nothing. */
  predicate Zeroes(a: Action, s': State) {
    (a.Pop? && a.blocking && s'.slots == []) || a.FindEmpty?
  }

  /** How many of the first i steps are pushes since the number was last zeroed. */
  function PushesSince(states: seq<State>, acts: seq<Action>, i: nat): nat
    requires i <= |acts| && |states| == |acts| + 1
  {
    if i == 0 || Zeroes(acts[i - 1], states[i]) then 0
    else PushesSince(states, acts, i - 1) + if acts[i - 1].Push? then 1 else 0
  }

  lemma NumberStep(s: State, a: Action, n: nat)
    requires Enabled(s, a) && s.counter == n % SEQUENCE_MODULUS
    ensures Next(s, a).counter ==
            (if Zeroes(a, Next(s, a)) then 0 else n + if a.Push? then 1 else 0) % SEQUENCE_MODULUS
  {
    hide ServedFirst;
  }

  /** The number is that count modulo 2^32. */
  lemma {:induction false} NumberCountsPushes(n: nat, states: seq<State>, acts: seq<Action>, i: nat)
    requires Run(n, states, acts) && i < |states|
    ensures states[i].counter == PushesSince(states, acts, i) % SEQUENCE_MODULUS
  {
    hide Run, Next, Enabled, Zeroes;
    RunStep(n, states, acts, 0);
    if i > 0 {
      RunStep(n, states, acts, i - 1);
      NumberCountsPushes(n, states, acts, i - 1);
      NumberStep(states[i - 1], acts[i - 1], PushesSince(states, acts, i - 1));
    }
  }

  lemma {:induction false} ShutdownIsNotice(n: nat, states: seq<State>, acts: seq<Action>, i: nat)
    requires Run(n, states, acts) && i < |states|
    ensures states[i].shutdown <==> NotifyShutdown in acts[..i]
  {
    hide ServedFirst;
    if i > 0 {
      ShutdownIsNotice(n, states, acts, i - 1);
      assert acts[..i] == acts[..i - 1] + [acts[i - 1]];
    }
  }

  // ---- refinement ----

  /** The waiting numbers are arrival ordinals among the last n pushes, and the counter has wrapped at most to zero. */
  ghost predicate Numbered(s: State, n: nat) {
    && s.counter == n % SEQUENCE_MODULUS
    && (forall i :: 0 <= i < |s.slots| ==> s.slots[i].node.number < n)
    && (forall i, j :: 0 <= i < j < |s.slots| ==> s.slots[i].node.number < s.slots[j].node.number)
  }

  lemma RemovedAt(slots: seq<Slot>, k: nat)
    requires k < |slots|
    ensures forall i :: 0 <= i < |slots| - 1 ==> RemoveAt(slots, k)[i] == slots[if i < k then i else i + 1]
  {
  }

  lemma NumberedKept(s: State, a: Action, n: nat)
    requires Numbered(s, n) && Enabled(s, a) && (a.Push? ==> n < SEQUENCE_MODULUS)
    ensures Numbered(Next(s, a), if Zeroes(a, Next(s, a)) then 0 else n + if a.Push? then 1 else 0)
  {
    hide ServedFirst;
    match a {
      case Push(p) => assert s.counter == n;
      case Pop(k, _) =>
        RemovedAt(s.slots, k);
        hide RemoveAt;
      case _ =>
    }
  }

  /** So a push finds the counter above every waiting number: within the bound, enqueueing is always in order. */
  lemma NumberedFits(s: State, n: nat, m: Msg)
    requires Numbered(s, n) && n < SEQUENCE_MODULUS
    ensures InOrder(Nodes(s.slots)) && Fits(Nodes(s.slots), m, s.counter)
  {
    assert s.counter == n;
  }

  /** At most 2^32 pushes fall between two zeroings of the number. */
  ghost predicate Bounded(states: seq<State>, acts: seq<Action>)
    requires |states| == |acts| + 1
  {
    forall k :: 0 <= k < |states| ==> PushesSince(states, acts, k) <= SEQUENCE_MODULUS
  }

  lemma {:induction false} AlwaysNumbered(n: nat, states: seq<State>, acts: seq<Action>, i: nat)
    requires Run(n, states, acts) && i < |states| && Bounded(states, acts)
    ensures Numbered(states[i], PushesSince(states, acts, i))
  {
    if i > 0 {
      AlwaysNumbered(n, states, acts, i - 1);
      assert PushesSince(states, acts, i) <= SEQUENCE_MODULUS;
      NumberedKept(states[i - 1], acts[i - 1], PushesSince(states, acts, i - 1));
      hide Numbered, Next, Enabled;
    }
  }

  /** What a step does to the stable queue: push appends, pop takes the stable choice, the rest do nothing. */
  ghost predicate StableStep(s: State, a: Action, s': State) {
    match a
    case Push(p) => p < |s.filling| && Contents(s') == Contents(s) + [s.filling[p].msg]
    case Pop(_, _) =>
      && Contents(s) != []
      && s'.emptying != [] && s'.emptying[|s'.emptying| - 1].msg == Front(Contents(s))
      && Contents(s') == Rest(Contents(s))
    case _ => Contents(s') == Contents(s)
  }

  lemma PopServes(slots: seq<Slot>, k: nat)
    requires k < |slots| && ServedFirst(Nodes(slots), k) && InOrder(Nodes(slots))
    ensures k == Pick(Payloads(Nodes(slots)))
    ensures Payloads(Nodes(RemoveAt(slots, k))) == Rest(Payloads(Nodes(slots)))
  {
    OrderedServesStably(Nodes(slots), k);
    RemoveKeepsOrder(Nodes(slots), k);
    assert Nodes(RemoveAt(slots, k)) == RemoveAt(Nodes(slots), k);
  }

  lemma StepRefines(s: State, a: Action)
    requires Enabled(s, a) && InOrder(Nodes(s.slots))
    ensures StableStep(s, a, Next(s, a))
  {
    hide ServedFirst, InOrder, Rest, Pick;
    match a {
      case Push(p) =>
        assert Nodes(Next(s, a).slots) == Nodes(s.slots) + [Node(s.filling[p].msg, s.counter)];
      case Pop(k, _) => PopServes(s.slots, k);
      case _ =>
    }
  }

  /** With at most 2^32 pushes between resets, every run is a run of the stable priority queue. */
  lemma Refinement(n: nat, states: seq<State>, acts: seq<Action>, i: nat)
    requires Run(n, states, acts) && i < |acts| && Bounded(states, acts)
    ensures StableStep(states[i], acts[i], states[i + 1])
  {
    AlwaysNumbered(n, states, acts, i);
    assert InOrder(Nodes(states[i].slots));
    StepRefines(states[i], acts[i]);
  }

  // ---- exactly when a run keeps the stable order ----

  /** A push finds the counter above the number of every waiting message of its priority. */
  ghost predicate PushFits(s: State, a: Action) {
    a.Push? && a.producer < |s.filling| ==> Fits(Nodes(s.slots), s.filling[a.producer].msg, s.counter)
  }

  lemma OrderAfter(s: State, a: Action)
    requires Enabled(s, a) && InOrder(Nodes(s.slots))
    ensures InOrder(Nodes(Next(s, a).slots)) <==> PushFits(s, a)
  {
    hide ServedFirst, InOrder, Fits;
    match a {
      case Push(p) =>
        AppendInOrderIff(Nodes(s.slots), s.filling[p].msg, s.counter);
        assert Nodes(Next(s, a).slots) == Nodes(s.slots) + [Node(s.filling[p].msg, s.counter)];
      case Pop(k, _) =>
        RemoveKeepsOrder(Nodes(s.slots), k);
        assert Nodes(RemoveAt(s.slots, k)) == RemoveAt(Nodes(s.slots), k);
      case _ =>
    }
  }

  lemma {:induction false} FittingPushesKeepOrder(n: nat, states: seq<State>, acts: seq<Action>, i: nat)
    requires Run(n, states, acts) && i < |states|
    requires forall k :: 0 <= k < i ==> PushFits(states[k], acts[k])
    ensures InOrder(Nodes(states[i].slots))
  {
    if i > 0 {
      FittingPushesKeepOrder(n, states, acts, i - 1);
      OrderAfter(states[i - 1], acts[i - 1]);
    }
  }

  /** Throughout a run every heap of the waiting nodes empties in stable order exactly when every push fits. */
  lemma StableRunIff(n: nat, states: seq<State>, acts: seq<Action>)
    requires Run(n, states, acts)
    ensures (forall i :: 0 <= i < |states| ==> DrainsStably(Nodes(states[i].slots)))
            <==> (forall k :: 0 <= k < |acts| ==> PushFits(states[k], acts[k]))
  {
    hide DrainsStably, PushFits, InOrder;
    forall i | 0 <= i < |states|
      ensures DrainsStably(Nodes(states[i].slots)) <==> InOrder(Nodes(states[i].slots))
    {
      StableIffInOrder(Nodes(states[i].slots));
    }
    if forall k :: 0 <= k < |acts| ==> PushFits(states[k], acts[k]) {
      forall i | 0 <= i < |states| ensures InOrder(Nodes(states[i].slots)) {
        FittingPushesKeepOrder(n, states, acts, i);
      }
    } else {
      var k :| 0 <= k < |acts| && !PushFits(states[k], acts[k]);
      if InOrder(Nodes(states[k].slots)) {
        OrderAfter(states[k], acts[k]);
        assert !InOrder(Nodes(states[k + 1].slots));
      }
    }
  }

  // ---- a run that wraps ----

  /** From s these actions lead to s'. */
  ghost predicate Reaches(s: State, acts: seq<Action>, s': State)
    decreases |acts|
  {
    if acts == [] then s == s' else Enabled(s, acts[0]) && Reaches(Next(s, acts[0]), acts[1..], s')
  }

  lemma ReachesStep(s: State, a: Action, acts: seq<Action>, s': State)
    requires Enabled(s, a) && Reaches(Next(s, a), acts, s')
    ensures Reaches(s, [a] + acts, s')
  {
    assert ([a] + acts)[1..] == acts;
  }

  lemma {:induction false} ReachesConcat(s: State, first: seq<Action>, s': State, second: seq<Action>, s'': State)
    requires Reaches(s, first, s') && Reaches(s', second, s'')
    ensures Reaches(s, first + second, s'')
    decreases |first|
  {
    if first == [] {
      assert first + second == second;
    } else {
      ReachesConcat(Next(s, first[0]), first[1..], s', second, s'');
      assert (first + second)[1..] == first[1..] + second;
    }
  }

  lemma {:induction false} ReachesRun(s: State, acts: seq<Action>, s': State) returns (states: seq<State>)
    requires Reaches(s, acts, s')
    ensures |states| == |acts| + 1 && states[0] == s && states[|acts|] == s'
    ensures forall i :: 0 <= i < |acts| ==> Enabled(states[i], acts[i]) && states[i + 1] == Next(states[i], acts[i])
    decreases |acts|
  {
    if acts == [] {
      states := [s];
    } else {
      var rest := ReachesRun(Next(s, acts[0]), acts[1..], s');
      states := [s] + rest;
    }
  }

  /** All blocks free, no one inside, and counter as given. */
  ghost predicate Idle(s: State, n: nat, counter: nat) {
    |s.free| == n && s.filling == [] && s.slots == [] && s.emptying == [] && s.counter == counter
  }

  lemma Deposit(s: State, m: Msg) returns (s': State)
    requires s.free != [] && s.filling == []
    ensures Reaches(s, [Allocate(m), Push(0)], s')
    ensures s' == s.(free := s.free[1..], slots := s.slots + [Slot(s.free[0], Node(m, s.counter))],
                     counter := (s.counter + 1) % SEQUENCE_MODULUS)
  {
    var s1 := Next(s, Allocate(m));
    s' := Next(s1, Push(0));
    ReachesStep(s1, Push(0), [], s');
    ReachesStep(s, Allocate(m), [Push(0)], s');
  }

  /** One message passes through the queue by try_dequeue, which leaves the counter one higher. */
  lemma Cycle(s: State, n: nat, m: Msg) returns (acts: seq<Action>, s': State)
    requires n > 0 && Idle(s, n, s.counter)
    ensures Reaches(s, acts, s') && Idle(s', n, (s.counter + 1) % SEQUENCE_MODULUS)
  {
    var s1 := Deposit(s, m);
    var s2 := Next(s1, Pop(0, false));
    s' := Next(s2, Release(0));
    ReachesStep(s2, Release(0), [], s');
    ReachesStep(s1, Pop(0, false), [Release(0)], s');
    acts := [Allocate(m), Push(0)] + [Pop(0, false), Release(0)];
    ReachesConcat(s, [Allocate(m), Push(0)], s1, [Pop(0, false), Release(0)], s');
  }

  lemma {:induction false} Cycles(n: nat, k: nat, m: Msg) returns (acts: seq<Action>, s: State)
    requires n > 0 && k < SEQUENCE_MODULUS
    ensures Reaches(Init(n), acts, s) && Idle(s, n, k)
  {
    if k == 0 {
      acts, s := [], Init(n);
    } else {
      var before, s' := Cycles(n, k - 1, m);
      var last, s'' := Cycle(s', n, m);
      ReachesConcat(Init(n), before, s', last, s'');
      acts, s := before + last, s'';
    }
  }

  /** With the counter at its last value, the second of two waiting messages gets number zero and leads. */
  lemma Overtaken(s: State, n: nat, older: Msg, newer: Msg) returns (acts: seq<Action>, s': State)
    requires n >= 2 && Idle(s, n, SEQUENCE_MODULUS - 1)
    requires older != newer && older.Priority() == newer.Priority()
    ensures Reaches(s, acts, s') && Enabled(s', Pop(1, false))
    ensures !StableStep(s', Pop(1, false), Next(s', Pop(1, false)))
  {
    var s1 := Deposit(s, older);
    s' := Deposit(s1, newer);
    acts := [Allocate(older), Push(0)] + [Allocate(newer), Push(0)];
    ReachesConcat(s, [Allocate(older), Push(0)], s1, [Allocate(newer), Push(0)], s');
    var ns := Nodes(s'.slots);
    assert ns == [Node(older, SEQUENCE_MODULUS - 1), Node(newer, 0)];
    assert Less(ns[0], ns[1]) && !Less(ns[1], ns[0]);
    assert Contents(s')[0] == older && Contents(s')[1] == newer;
    assert Front(Contents(s')) == older;
  }

  /**
   The bound matters: with any pool of two blocks or more and any two different messages of one priority,
   there is a run whose last step removes the newer one while the older one waits.
   */
  lemma WrapOvertakes(n: nat, older: Msg, newer: Msg) returns (states: seq<State>, acts: seq<Action>)
    requires n >= 2 && older != newer && older.Priority() == newer.Priority()
    ensures Run(n, states, acts) && acts != []
    ensures !StableStep(states[|acts| - 1], acts[|acts| - 1], states[|acts|])
  {
    hide StableStep, Idle;
    var before, s1 := Cycles(n, SEQUENCE_MODULUS - 1, older);
    var both, s2 := Overtaken(s1, n, older, newer);
    var s3 := Next(s2, Pop(1, false));
    ReachesConcat(Init(n), before, s1, both, s2);
    var path := before + both;
    states := ReachesRun(Init(n), path, s2);
    acts := path + [Pop(1, false)];
    states := states + [s3];
  }
}
