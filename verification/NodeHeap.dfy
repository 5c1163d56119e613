/** Queue nodes, their comparator, and the binary heap that the queue keeps them in. */
module NodeHeap {
  import opened Messages
  import opened Sequences

  const SEQUENCE_MODULUS: nat := 0x1_0000_0000

  datatype Node = Node(message: Msg, number: nat)

  /** NodeComparator: a is served after b. */
  predicate Less(a: Node, b: Node) {
    if a.message.Priority() < b.message.Priority() then true
    else if b.message.Priority() < a.message.Priority() then false
    else a.number > b.number
  }

  /** A strict weak order whose only ties are equal priority with equal number. */
  lemma ComparatorOrder(a: Node, b: Node, c: Node)
    ensures !Less(a, a)
    ensures Less(a, b) ==> !Less(b, a)
    ensures Less(a, b) && Less(b, c) ==> Less(a, c)
    ensures !Less(a, b) && !Less(b, c) ==> !Less(a, c)
    ensures !Less(a, b) && !Less(b, a) <==> a.message.Priority() == b.message.Priority() && a.number == b.number
  {
  }

  /** The node at every pointer of q is in memory. */
  predicate Stored(q: seq<nat>, at: map<nat, Node>) {
    forall i :: 0 <= i < |q| ==> q[i] in at
  }

  function Parent(i: nat): (p: nat)
    requires i > 0
    ensures p < i && (i == 2 * p + 1 || i == 2 * p + 2)
  {
    (i - 1) / 2
  }

  /** No node is served before its parent. */
  predicate IsHeap(q: seq<nat>, at: map<nat, Node>)
    requires Stored(q, at)
  {
    forall i :: 0 < i < |q| ==> !Less(at[q[Parent(i)]], at[q[i]])
  }

  lemma {:induction false} RootServedFirst(q: seq<nat>, at: map<nat, Node>, i: nat)
    requires Stored(q, at) && IsHeap(q, at) && i < |q|
    ensures !Less(at[q[0]], at[q[i]])
  {
    if i > 0 {
      RootServedFirst(q, at, Parent(i));
      ComparatorOrder(at[q[0]], at[q[Parent(i)]], at[q[i]]);
    }
  }

  function Swap<T>(q: seq<T>, i: nat, j: nat): (r: seq<T>)
    requires i < |q| && j < |q|
    ensures |r| == |q|
    ensures forall k :: 0 <= k < |q| ==> r[k] == if k == i then q[j] else if k == j then q[i] else q[k]
    ensures multiset(r) == multiset(q)
  {
    q[i := q[j]][j := q[i]]
  }

  /** q is a heap except between i and its parent, which i's children still respect. */
  ghost predicate HeapAbove(q: seq<nat>, at: map<nat, Node>, i: nat)
    requires i < |q| && Stored(q, at)
  {
    && (forall j :: 0 < j < |q| && j != i ==> !Less(at[q[Parent(j)]], at[q[j]]))
    && (forall j :: 0 < j < |q| && Parent(j) == i && i > 0 ==> !Less(at[q[Parent(i)]], at[q[j]]))
  }

  lemma SiftUpStep(q: seq<nat>, at: map<nat, Node>, i: nat)
    requires 0 < i < |q| && Stored(q, at) && HeapAbove(q, at, i) && Less(at[q[Parent(i)]], at[q[i]])
    ensures Stored(Swap(q, Parent(i), i), at) && HeapAbove(Swap(q, Parent(i), i), at, Parent(i))
  {
    var p := Parent(i);
    var r := Swap(q, p, i);
    forall j | 0 < j < |q| && j != p
      ensures !Less(at[r[Parent(j)]], at[r[j]])
    {
      assert j != i ==> !Less(at[q[Parent(j)]], at[q[j]]);
    }
    forall j | 0 < j < |q| && Parent(j) == p && p > 0
      ensures !Less(at[r[Parent(p)]], at[r[j]])
    {
      assert !Less(at[q[Parent(p)]], at[q[p]]);
      assert j != i ==> !Less(at[q[p]], at[q[j]]);
    }
  }

  /** push_heap: sift the last pointer up to its place. */
  method PushHeap(q: seq<nat>, at: map<nat, Node>) returns (r: seq<nat>)
    requires q != [] && Stored(q, at) && IsHeap(q[..|q| - 1], at)
    ensures |r| == |q| && multiset(r) == multiset(q)
    ensures Stored(r, at) && IsHeap(r, at)
  {
    r := q;
    var i: nat := |q| - 1;
    assert forall j :: 0 < j < i ==> q[..i][j] == q[j] && q[..i][Parent(j)] == q[Parent(j)];
    while i > 0 && Less(at[r[Parent(i)]], at[r[i]])
      invariant i < |r| == |q| && multiset(r) == multiset(q) && Stored(r, at)
      invariant HeapAbove(r, at, i)
    {
      SiftUpStep(r, at, i);
      r := Swap(r, Parent(i), i);
      i := Parent(i);
    }
  }

  /** The prefix q[..n] is a heap except between i and its children, which still respect i's parent. */
  ghost predicate HeapBelow(q: seq<nat>, at: map<nat, Node>, n: nat, i: nat)
    requires n <= |q| && Stored(q, at)
  {
    && (forall j :: 0 < j < n && Parent(j) != i ==> !Less(at[q[Parent(j)]], at[q[j]]))
    && (forall j :: 0 < j < n && Parent(j) == i && i > 0 ==> !Less(at[q[Parent(i)]], at[q[j]]))
  }

  /** The child of i in q[..n] that is served first. */
  method FirstChild(q: seq<nat>, at: map<nat, Node>, n: nat, i: nat) returns (c: nat)
    requires n <= |q| && Stored(q, at) && 2 * i + 1 < n
    ensures i < c < n && Parent(c) == i
    ensures forall j :: 0 < j < n && Parent(j) == i ==> !Less(at[q[c]], at[q[j]])
  {
    c := 2 * i + 1;
    if c + 1 < n && Less(at[q[c]], at[q[c + 1]]) {
      c := c + 1;
    }
  }

  lemma SiftDownStep(q: seq<nat>, at: map<nat, Node>, n: nat, i: nat, c: nat)
    requires n <= |q| && Stored(q, at) && i < c < n && Parent(c) == i && HeapBelow(q, at, n, i)
    requires forall j :: 0 < j < n && Parent(j) == i ==> !Less(at[q[c]], at[q[j]])
    requires Less(at[q[i]], at[q[c]])
    ensures Stored(Swap(q, i, c), at) && HeapBelow(Swap(q, i, c), at, n, c)
  {
    var r := Swap(q, i, c);
    forall j | 0 < j < n && Parent(j) != c
      ensures !Less(at[r[Parent(j)]], at[r[j]])
    {
      assert Parent(j) != i ==> !Less(at[q[Parent(j)]], at[q[j]]);
    }
  }

  lemma SiftDownDone(q: seq<nat>, at: map<nat, Node>, n: nat, i: nat, c: nat)
    requires n <= |q| && Stored(q, at) && i < c < n && HeapBelow(q, at, n, i)
    requires forall j :: 0 < j < n && Parent(j) == i ==> !Less(at[q[c]], at[q[j]])
    requires !Less(at[q[i]], at[q[c]])
    ensures Stored(q[..n], at) && IsHeap(q[..n], at)
  {
    forall j | 0 < j < n
      ensures !Less(at[q[Parent(j)]], at[q[j]])
    {
      if Parent(j) == i { ComparatorOrder(at[q[i]], at[q[c]], at[q[j]]); }
    }
  }

  lemma NoChildLeft(q: seq<nat>, at: map<nat, Node>, n: nat, i: nat)
    requires n <= |q| && Stored(q, at) && n <= 2 * i + 1 && HeapBelow(q, at, n, i)
    ensures Stored(q[..n], at) && IsHeap(q[..n], at)
  {
    assert forall j :: 0 < j < n ==> Parent(j) != i;
  }

  lemma SwappedRoot(q: seq<nat>, at: map<nat, Node>)
    requires q != [] && Stored(q, at) && IsHeap(q, at)
    ensures Stored(Swap(q, 0, |q| - 1), at) && HeapBelow(Swap(q, 0, |q| - 1), at, |q| - 1, 0)
  {
  }

  /** pop_heap: move the root to the back and sift the pointer that replaced it down. */
  method PopHeap(q: seq<nat>, at: map<nat, Node>) returns (r: seq<nat>)
    requires q != [] && Stored(q, at) && IsHeap(q, at)
    ensures |r| == |q| && multiset(r) == multiset(q) && r[|q| - 1] == q[0]
    ensures Stored(r, at) && IsHeap(r[..|q| - 1], at)
  {
    SwappedRoot(q, at);
    var n := |q| - 1;
    r := Swap(q, 0, n);
    var i := 0;
    hide IsHeap, HeapBelow;
    while 2 * i + 1 < n
      invariant i <= n && |r| == |q| && multiset(r) == multiset(q) && r[n] == q[0] && Stored(r, at)
      invariant HeapBelow(r, at, n, i)
      decreases n - i
    {
      var c := FirstChild(r, at, n, i);
      if !Less(at[r[i]], at[r[c]]) {
        SiftDownDone(r, at, n, i, c);
        return;
      }
      SiftDownStep(r, at, n, i, c);
      r := Swap(r, i, c);
      i := c;
    }
    NoChildLeft(r, at, n, i);
  }

  // ---- when numbers stand for arrival order ----

  /** k may be at the root of a heap of these nodes. */
  predicate ServedFirst(nodes: seq<Node>, k: nat)
    requires k < |nodes|
  {
    forall j :: 0 <= j < |nodes| ==> !Less(nodes[k], nodes[j])
  }

  /** Among nodes of one priority, listed in arrival order, numbers increase. */
  predicate InOrder(nodes: seq<Node>) {
    forall i, j :: 0 <= i < j < |nodes| && nodes[i].message.Priority() == nodes[j].message.Priority() ==>
      nodes[i].number < nodes[j].number
  }

  function Payloads(nodes: seq<Node>): (q: seq<Msg>)
    ensures |q| == |nodes|
    ensures forall i :: 0 <= i < |nodes| ==> q[i] == nodes[i].message
  {
    seq(|nodes|, i requires 0 <= i < |nodes| => nodes[i].message)
  }

  lemma PayloadsAppend(nodes: seq<Node>, n: Node)
    ensures Payloads(nodes + [n]) == Payloads(nodes) + [n.message]
  {
  }
}

/** The heap's service order against the stable order, with 32-bit numbers. */
module ServiceOrder {
  import opened Messages
  import opened Sequences
  import opened NodeHeap
  import opened StableQueue

  /** While numbers stand for arrival, the only node that can be at the root is the stable choice. */
  lemma OrderedServesStably(nodes: seq<Node>, k: nat)
    requires InOrder(nodes) && k < |nodes|
    ensures ServedFirst(nodes, k) <==> k == Pick(Payloads(nodes))
  {
    var b := Pick(Payloads(nodes));
    assert Payloads(nodes)[b] == nodes[b].message;
    forall j | 0 <= j < |nodes|
      ensures !Less(nodes[b], nodes[j])
    {
      assert Payloads(nodes)[j] == nodes[j].message;
    }
    assert ServedFirst(nodes, k) ==> !Less(nodes[k], nodes[b]) && !Less(nodes[b], nodes[k]);
  }

  lemma RemoveKeepsOrder(nodes: seq<Node>, k: nat)
    requires k < |nodes|
    ensures InOrder(nodes) ==> InOrder(RemoveAt(nodes, k))
    ensures Payloads(RemoveAt(nodes, k)) == RemoveAt(Payloads(nodes), k)
  {
    var r := RemoveAt(nodes, k);
    assert forall i :: 0 <= i < |r| ==> r[i] == nodes[if i < k then i else i + 1];
  }

  /** picks is a way a heap may empty these nodes: each pick is an index into what is left. */
  ghost predicate HeapDrain(nodes: seq<Node>, picks: seq<nat>)
    decreases |nodes|
  {
    if nodes == [] then picks == []
    else
      && picks != []
      && picks[0] < |nodes|
      && ServedFirst(nodes, picks[0])
      && HeapDrain(RemoveAt(nodes, picks[0]), picks[1..])
  }

  function StablePicks(q: seq<Msg>): (picks: seq<nat>)
    ensures |picks| == |q|
    decreases |q|
  {
    if q == [] then [] else [Pick(q)] + StablePicks(Rest(q))
  }

  /** Some node can always be at the root. */
  lemma {:induction false} SomeServedFirst(nodes: seq<Node>) returns (k: nat)
    requires nodes != []
    ensures k < |nodes| && ServedFirst(nodes, k)
  {
    if |nodes| == 1 {
      k := 0;
    } else {
      var n := |nodes| - 1;
      k := SomeServedFirst(nodes[..n]);
      var best := k;
      if Less(nodes[k], nodes[n]) { k := n; }
      forall j | 0 <= j < |nodes|
        ensures !Less(nodes[k], nodes[j])
      {
        if j < n {
          assert nodes[..n][j] == nodes[j] && !Less(nodes[best], nodes[j]);
          ComparatorOrder(nodes[k], nodes[best], nodes[j]);
        }
      }
    }
  }

  lemma {:induction false} SomeDrain(nodes: seq<Node>) returns (picks: seq<nat>)
    ensures HeapDrain(nodes, picks)
    decreases |nodes|
  {
    picks := [];
    if nodes != [] {
      var k := SomeServedFirst(nodes);
      var rest := SomeDrain(RemoveAt(nodes, k));
      picks := [k] + rest;
      assert picks[1..] == rest;
    }
  }

  lemma {:induction false} OrderedDrainsStably(nodes: seq<Node>, picks: seq<nat>)
    requires InOrder(nodes) && HeapDrain(nodes, picks)
    ensures picks == StablePicks(Payloads(nodes))
    decreases |nodes|
  {
    if nodes != [] {
      OrderedServesStably(nodes, picks[0]);
      RemoveKeepsOrder(nodes, picks[0]);
      OrderedDrainsStably(RemoveAt(nodes, picks[0]), picks[1..]);
      assert picks == [picks[0]] + picks[1..];
    }
  }

  ghost predicate DrainsStably(nodes: seq<Node>) {
    forall picks :: HeapDrain(nodes, picks) ==> picks == StablePicks(Payloads(nodes))
  }

  /** A first pick other than the stable one, or the stable one followed by an unstable drain, is unstable. */
  lemma DrainsUnstably(nodes: seq<Node>, k: nat, rest: seq<nat>)
    requires k < |nodes| && ServedFirst(nodes, k) && HeapDrain(RemoveAt(nodes, k), rest)
    requires k == Pick(Payloads(nodes)) ==> rest != StablePicks(Payloads(RemoveAt(nodes, k)))
    ensures !DrainsStably(nodes)
  {
    var picks, stable := [k] + rest, StablePicks(Payloads(nodes));
    assert picks[1..] == rest;
    assert HeapDrain(nodes, picks);
    RemoveKeepsOrder(nodes, k);
    if k == Pick(Payloads(nodes)) {
      assert stable[1..] == StablePicks(Rest(Payloads(nodes)));
    } else {
      assert stable[0] == Pick(Payloads(nodes));
    }
  }

  /** An earlier node of the same priority has no smaller number. */
  predicate Disorder(nodes: seq<Node>, i: nat, j: nat) {
    && i < j < |nodes|
    && nodes[i].message.Priority() == nodes[j].message.Priority()
    && nodes[i].number >= nodes[j].number
  }

  /** The later of the two is never the stable choice, and can be at the root if the earlier one can. */
  lemma LaterCanLead(nodes: seq<Node>, i: nat, j: nat)
    requires Disorder(nodes, i, j)
    ensures j != Pick(Payloads(nodes))
    ensures ServedFirst(nodes, i) ==> ServedFirst(nodes, j)
  {
    assert Payloads(nodes)[i] == nodes[i].message && Payloads(nodes)[j] == nodes[j].message;
    if ServedFirst(nodes, i) {
      forall x | 0 <= x < |nodes|
        ensures !Less(nodes[j], nodes[x])
      {
        ComparatorOrder(nodes[j], nodes[i], nodes[x]);
      }
    }
  }

  lemma DisorderRemains(nodes: seq<Node>, i: nat, j: nat, k: nat)
    requires Disorder(nodes, i, j) && k < |nodes| && k != i && k != j
    ensures Disorder(RemoveAt(nodes, k), if i < k then i else i - 1, if j < k then j else j - 1)
  {
  }

  /** Then some heap serves the two in the wrong order. */
  lemma {:induction false} DisorderDrainsUnstably(nodes: seq<Node>, i: nat, j: nat)
    requires Disorder(nodes, i, j)
    ensures !DrainsStably(nodes)
    decreases |nodes|
  {
    hide HeapDrain, StablePicks, InOrder, ServedFirst, Less, Payloads, RemoveAt;
    LaterCanLead(nodes, i, j);
    var k := SomeServedFirst(nodes);
    if k == i { k := j; }
    var left, rest := RemoveAt(nodes, k), [];
    if k == Pick(Payloads(nodes)) {
      DisorderRemains(nodes, i, j, k);
      DisorderDrainsUnstably(left, if i < k then i else i - 1, if j < k then j else j - 1);
      rest :| HeapDrain(left, rest) && rest != StablePicks(Payloads(left));
    } else {
      rest := SomeDrain(left);
    }
    DrainsUnstably(nodes, k, rest);
  }

  /** Every heap of these nodes empties in stable priority order exactly when numbers stand for arrival. */
  lemma StableIffInOrder(nodes: seq<Node>)
    ensures DrainsStably(nodes) <==> InOrder(nodes)
  {
    if InOrder(nodes) {
      forall picks | HeapDrain(nodes, picks)
        ensures picks == StablePicks(Payloads(nodes))
      {
        OrderedDrainsStably(nodes, picks);
      }
    } else {
      var i, j :| 0 <= i < j < |nodes| && nodes[i].message.Priority() == nodes[j].message.Priority() &&
                  nodes[i].number >= nodes[j].number;
      DisorderDrainsUnstably(nodes, i, j);
    }
  }

  /** The counter exceeds the number of every waiting node of m's priority. */
  predicate Fits(nodes: seq<Node>, m: Msg, counter: nat) {
    forall i :: 0 <= i < |nodes| && nodes[i].message.Priority() == m.Priority() ==> nodes[i].number < counter
  }

  lemma AppendInOrderIff(nodes: seq<Node>, m: Msg, counter: nat)
    ensures InOrder(nodes + [Node(m, counter)]) <==> InOrder(nodes) && Fits(nodes, m, counter)
  {
    var more := nodes + [Node(m, counter)];
    assert more[|nodes|] == Node(m, counter) && forall i :: 0 <= i < |nodes| ==> more[i] == nodes[i];
  }

  /** Enqueueing m keeps the stable order exactly when the counter has not wrapped behind a waiting equal. */
  lemma EnqueueStableIff(nodes: seq<Node>, m: Msg, counter: nat)
    requires InOrder(nodes)
    ensures DrainsStably(nodes + [Node(m, counter)]) <==> Fits(nodes, m, counter)
  {
    StableIffInOrder(nodes + [Node(m, counter)]);
    AppendInOrderIff(nodes, m, counter);
  }

  /** One removal: some node that could be at the root leaves, the others stay in arrival order. */
  ghost predicate Removed(was: seq<Node>, now: seq<Node>, m: Msg) {
    exists k :: 0 <= k < |was| && ServedFirst(was, k) && was[k].message == m && now == RemoveAt(was, k)
  }

  /** While numbers stand for arrival, a removal is the stable one and keeps them so. */
  lemma RemovedStably(was: seq<Node>, now: seq<Node>, m: Msg)
    requires Removed(was, now, m) && InOrder(was)
    ensures was != [] && InOrder(now)
    ensures m == Front(Payloads(was)) && Payloads(now) == Rest(Payloads(was))
  {
    var k :| 0 <= k < |was| && ServedFirst(was, k) && was[k].message == m && now == RemoveAt(was, k);
    OrderedServesStably(was, k);
    RemoveKeepsOrder(was, k);
  }
}
