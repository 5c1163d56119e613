/** The message queue: a heap of pointers to nodes that live in a memory pool. */
module MessageQueue {
  import opened Messages
  import opened Sequences
  import opened StableQueue
  import opened MemoryPool
  import opened NodeHeap
  import opened ServiceOrder

  // ---- who holds the blocks ----

  /** Every block is either free or holds exactly one waiting node; images gives the bytes of the latter. */
  ghost predicate Owned(l: Layout, free: seq<nat>, arrivals: seq<nat>, images: map<nat, seq<byte>>) {
    && |free| + |arrivals| == l.blockCount
    && NoDuplicates(arrivals)
    && (forall b: nat :: b in images <==> b < l.blockCount && b !in free)
    && (forall b :: b in images ==> l.Address(b) in arrivals)
    && (forall p :: p in arrivals ==> exists b :: b in images && l.Address(b) == p)
  }

  /** The bytes of every block in use are as its owner left them. */
  ghost predicate Intact(l: Layout, mem: seq<byte>, images: map<nat, seq<byte>>) {
    && |mem| == l.Size()
    && (forall b :: b in images ==> b < l.blockCount && Block(l, mem, b) == images[b])
  }

  lemma AddressesDiffer(l: Layout, a: nat, b: nat)
    requires l.WellFormed() && l.Address(a) == l.Address(b)
    ensures a == b
  {
    if a != b { l.OffsetsDiffer(a, b); }
  }

  lemma Acquired(l: Layout, free: seq<nat>, arrivals: seq<nat>, images: map<nat, seq<byte>>, image: seq<byte>)
    requires l.WellFormed() && Owned(l, free, arrivals, images)
    requires free != [] && NoDuplicates(free) && free[0] < l.blockCount
    ensures l.Address(free[0]) !in arrivals && free[0] !in images
    ensures Owned(l, free[1..], arrivals + [l.Address(free[0])], images[free[0] := image])
  {
    var block := free[0];
    var p := l.Address(block);
    if p in arrivals {
      var b :| b in images && l.Address(b) == p;
      AddressesDiffer(l, b, block);
    }
    forall x | x in arrivals + [p]
      ensures exists b :: b in images[block := image] && l.Address(b) == x
    {
      if x == p {
        assert block in images[block := image];
      } else {
        var b :| b in images && l.Address(b) == x;
        assert b in images[block := image];
      }
    }
  }

  lemma Released(l: Layout, free: seq<nat>, arrivals: seq<nat>, images: map<nat, seq<byte>>, k: nat, block: nat)
    requires l.WellFormed() && Owned(l, free, arrivals, images)
    requires k < |arrivals| && block in images && arrivals[k] == l.Address(block)
    ensures Owned(l, [block] + free, RemoveAt(arrivals, k), images - {block})
    ensures block < l.blockCount && block !in free
  {
    RemoveAtNoDuplicates(arrivals, k);
    forall b | b in images - {block}
      ensures l.Address(b) in RemoveAt(arrivals, k)
    {
      if l.Address(b) == l.Address(block) { AddressesDiffer(l, b, block); }
    }
    forall p | p in RemoveAt(arrivals, k)
      ensures exists b :: b in images - {block} && l.Address(b) == p
    {
      var b :| b in images && l.Address(b) == p;
      assert b in images - {block};
    }
  }

  lemma FirstDistinct(x: nat, rest: seq<nat>)
    requires NoDuplicates([x] + rest)
    ensures x !in rest && NoDuplicates(rest)
  {
    var all := [x] + rest;
    assert all[0] == x && forall i :: 0 <= i < |rest| ==> all[i + 1] == rest[i];
  }

  lemma IntactWith(l: Layout, mem: seq<byte>, images: map<nat, seq<byte>>, block: nat)
    requires block !in images && block < l.blockCount && Intact(l, mem, images - {block})
    ensures Intact(l, mem, images[block := Block(l, mem, block)])
  {
    assert images - {block} == images;
  }

  lemma NoneWaiting(l: Layout, free: seq<nat>, arrivals: seq<nat>, images: map<nat, seq<byte>>)
    requires Owned(l, free, arrivals, images) && multiset(arrivals) == multiset{}
    ensures |free| == l.blockCount
    ensures forall b: nat :: b < l.blockCount ==> b in free
  {
    assert |multiset(arrivals)| == |arrivals|;
    assert arrivals == [];
  }

  lemma IntactAfterStore(l: Layout, mem: seq<byte>, images: map<nat, seq<byte>>, block: nat, bytes: seq<byte>)
    requires l.WellFormed() && Intact(l, mem, images) && block < l.blockCount && |bytes| <= l.blockSize
    ensures l.Offset(block) + |bytes| <= |mem|
    ensures Intact(l, Store(mem, l.Offset(block), bytes), images - {block})
  {
    l.BlockInside(block);
    forall b | b in images - {block}
      ensures Block(l, Store(mem, l.Offset(block), bytes), b) == images[b]
    {
      StoreElsewhere(l, mem, block, bytes, b);
    }
  }

  // ---- the waiting nodes ----

  ghost function NodesAt(arrivals: seq<nat>, at: map<nat, Node>): (ns: seq<Node>)
    requires Stored(arrivals, at)
    ensures |ns| == |arrivals|
    ensures forall i :: 0 <= i < |ns| ==> ns[i] == at[arrivals[i]]
  {
    seq(|arrivals|, i requires 0 <= i < |arrivals| => at[arrivals[i]])
  }

  lemma SameStored(q: seq<nat>, arrivals: seq<nat>, at: map<nat, Node>)
    requires multiset(q) == multiset(arrivals)
    ensures Stored(q, at) <==> Stored(arrivals, at)
    ensures |q| == |arrivals|
    ensures forall p :: p in q <==> p in arrivals
  {
    assert |q| == |multiset(q)| && |arrivals| == |multiset(arrivals)|;
    assert forall p :: p in q <==> p in multiset(q);
    assert forall p :: p in arrivals <==> p in multiset(arrivals);
    assert Stored(q, at) <==> forall p :: p in q ==> p in at;
    assert Stored(arrivals, at) <==> forall p :: p in arrivals ==> p in at;
  }

  /** The node at the root of the heap may be served first among the arrivals. */
  lemma RootServed(q: seq<nat>, arrivals: seq<nat>, at: map<nat, Node>, k: nat)
    requires multiset(q) == multiset(arrivals) && Stored(q, at) && Stored(arrivals, at) && IsHeap(q, at)
    requires q != [] && k < |arrivals| && arrivals[k] == q[0]
    ensures ServedFirst(NodesAt(arrivals, at), k)
    ensures q[0] in at && at[q[0]] == NodesAt(arrivals, at)[k]
  {
    SameStored(q, arrivals, at);
    var ns := NodesAt(arrivals, at);
    forall j | 0 <= j < |ns|
      ensures !Less(ns[k], ns[j])
    {
      assert arrivals[j] in q;
      var i :| 0 <= i < |q| && q[i] == arrivals[j];
      RootServedFirst(q, at, i);
    }
  }

  /** Dropping one pointer leaves the other nodes, in order. */
  lemma NodesWithout(arrivals: seq<nat>, at: map<nat, Node>, k: nat)
    requires Stored(arrivals, at) && NoDuplicates(arrivals) && k < |arrivals|
    ensures Stored(RemoveAt(arrivals, k), at - {arrivals[k]})
    ensures NodesAt(RemoveAt(arrivals, k), at - {arrivals[k]}) == RemoveAt(NodesAt(arrivals, at), k)
  {
    var left := RemoveAt(arrivals, k);
    forall i | 0 <= i < |left|
      ensures left[i] in at - {arrivals[k]}
    {
      assert left[i] == arrivals[if i < k then i else i + 1];
    }
  }

  lemma HeapWithout(q: seq<nat>, at: map<nat, Node>, p: nat)
    requires Stored(q, at) && IsHeap(q, at) && p !in q
    ensures Stored(q, at - {p}) && IsHeap(q, at - {p})
  {
  }

  /** What pop_heap leaves, without the popped node: a heap of the other arrivals. */
  lemma PoppedHeap(reordered: seq<nat>, arrivals: seq<nat>, at: map<nat, Node>, k: nat)
    requires multiset(reordered) == multiset(arrivals) && reordered != []
    requires Stored(reordered, at) && Stored(arrivals, at) && NoDuplicates(arrivals)
    requires IsHeap(reordered[..|reordered| - 1], at)
    requires k < |arrivals| && arrivals[k] == reordered[|reordered| - 1]
    ensures var left, kept := reordered[..|reordered| - 1], at - {arrivals[k]};
            && multiset(left) == multiset(RemoveAt(arrivals, k))
            && Stored(left, kept) && IsHeap(left, kept)
            && Stored(RemoveAt(arrivals, k), kept)
            && NodesAt(RemoveAt(arrivals, k), kept) == RemoveAt(NodesAt(arrivals, at), k)
  {
    var left, node := reordered[..|reordered| - 1], arrivals[k];
    assert reordered == left + [node];
    RemoveAtMultiset(arrivals, k);
    MultisetCancel(multiset(left), multiset(RemoveAt(arrivals, k)), node);
    RemoveAtNoDuplicates(arrivals, k);
    SameStored(left, RemoveAt(arrivals, k), at);
    HeapWithout(left, at, node);
    NodesWithout(arrivals, at, k);
  }

  /** A new node joins the arrivals at the end and leaves the heap of the others alone. */
  lemma Arrived(q: seq<nat>, arrivals: seq<nat>, at: map<nat, Node>, p: nat, n: Node)
    requires multiset(q) == multiset(arrivals) && Stored(q, at) && Stored(arrivals, at) && IsHeap(q, at)
    requires p !in arrivals
    ensures var more, with := arrivals + [p], at[p := n];
            && Stored(q, with) && IsHeap(q, with)
            && Stored(more, with)
            && NodesAt(more, with) == NodesAt(arrivals, at) + [n]
  {
    SameStored(q, arrivals, at);
    assert forall i :: 0 <= i < |q| ==> q[i] in arrivals;
  }

  // ---- the queue ----

  class Queue {
    const pool: Pool
    const maxMsgs: nat
    var queue: seq<nat>
    var nodes: map<nat, Node>
    var sequence: nat
    var shutdown: bool
    /** The waiting nodes' pointers in arrival order. */
    ghost var arrivals: seq<nat>
    /** The bytes that each block in use holds since its node was constructed. */
    ghost var images: map<nat, seq<byte>>

    ghost predicate Valid()
      reads this, pool, pool.data
    {
      && pool.Valid()
      && pool.layout.blockCount == maxMsgs
      && Owned(pool.layout, pool.free, arrivals, images)
      && Intact(pool.layout, pool.data[..], images)
      && ValidHeap()
    }

    ghost predicate ValidHeap()
      reads this
    {
      && multiset(queue) == multiset(arrivals)
      && Stored(queue, nodes)
      && IsHeap(queue, nodes)
      && Stored(arrivals, nodes)
      && sequence < SEQUENCE_MODULUS
    }

    /** The waiting nodes in arrival order. */
    ghost function Waiting(): (ns: seq<Node>)
      requires Stored(arrivals, nodes)
      reads this
    {
      NodesAt(arrivals, nodes)
    }

    /** The waiting messages in arrival order: the queue as its clients see it. */
    ghost function Contents(): (q: seq<Msg>)
      requires Stored(arrivals, nodes)
      reads this
    {
      Payloads(Waiting())
    }

    /** Numbers stand for arrival: the counter has not wrapped behind a waiting equal. */
    ghost predicate Ordered()
      requires Stored(arrivals, nodes)
      reads this
    {
      InOrder(Waiting())
    }

    constructor (base: nat, msgSize: nat, maxMsgs: nat, pointerSize: nat)
      requires Layout(base, msgSize, maxMsgs, pointerSize).WellFormed()
      ensures Valid() && fresh(pool) && fresh(pool.data)
      ensures Contents() == [] && Ordered() && !shutdown && sequence == 0
      ensures this.maxMsgs == maxMsgs && pool.layout.blockSize == msgSize
    {
      pool := new Pool(base, msgSize, maxMsgs, pointerSize);
      this.maxMsgs := maxMsgs;
      queue := [];
      nodes := map[];
      sequence := 0;
      shutdown := false;
      arrivals := [];
      images := map[];
      new;
      forall b: nat | b < maxMsgs
        ensures b in pool.free
      {
        assert pool.free[b] == b;
      }
    }

    /** While fewer messages wait than the pool has blocks, a block is free. */
    lemma FirstFree() returns (block: nat)
      requires Valid() && |Contents()| < maxMsgs
      ensures pool.free != [] && block == pool.free[0] < pool.layout.blockCount
    {
      block := pool.free[0];
    }

    /** image is the object representation that constructing the node leaves in its block. */
    method Enqueue(m: Msg, image: seq<byte>)
      requires Valid() && |image| <= pool.layout.blockSize
      requires |Contents()| < maxMsgs
      modifies this, pool, pool.data
      ensures Valid()
      ensures Waiting() == old(Waiting()) + [Node(m, old(sequence))]
      ensures Contents() == old(Contents()) + [m]
      ensures Ordered() <==> old(Ordered()) && Fits(old(Waiting()), m, old(sequence))
      ensures shutdown == old(shutdown)
      ensures sequence == (old(sequence) + 1) % SEQUENCE_MODULUS
    {
      hide Owned, Intact, IsHeap, InOrder, Fits, FreeChain, NoDuplicates, NodesAt, Payloads, Stored;
      ghost var block := FirstFree();
      ghost var before := pool.free;
      var raw := pool.Allocate();
      assert [block] + pool.free == before;
      Construct(block, raw, image);
      Arrived(queue, arrivals, nodes, raw, Node(m, sequence));
      AppendInOrderIff(Waiting(), m, sequence);
      PayloadsAppend(Waiting(), Node(m, sequence));
      nodes := nodes[raw := Node(m, sequence)];
      arrivals := arrivals + [raw];
      PushNode(raw);
    }

    /** Placement new: the node's bytes go into the allocated block. */
    method Construct(ghost block: nat, raw: nat, image: seq<byte>)
      requires pool.Valid() && block < pool.layout.blockCount && |image| <= pool.layout.blockSize
      requires raw == pool.layout.Address(block) && NoDuplicates([block] + pool.free)
      requires Owned(pool.layout, [block] + pool.free, arrivals, images)
      requires Intact(pool.layout, pool.data[..], images)
      modifies pool.data, `images
      ensures pool.Valid() && raw !in arrivals
      ensures Owned(pool.layout, pool.free, arrivals + [raw], images)
      ensures Intact(pool.layout, pool.data[..], images)
      ensures block in images && images == old(images)[block := images[block]]
      ensures |images[block]| == pool.layout.blockSize && images[block][..|image|] == image
    {
      ghost var taken := [block] + pool.free;
      FirstDistinct(block, pool.free);
      assert taken[1..] == pool.free;
      hide Owned, Intact, FreeChain, NoDuplicates;
      IntactAfterStore(pool.layout, pool.data[..], images, block, image);
      pool.Fill(block, raw, image);
      ghost var filled := Block(pool.layout, pool.data[..], block);
      StoredBlock(pool.layout, old(pool.data[..]), block, image);
      Acquired(pool.layout, taken, arrivals, images, filled);
      IntactWith(pool.layout, pool.data[..], images, block);
      images := images[block := filled];
    }

    /** Enqueue's critical section: append the pointer, restore the heap, advance the number. */
    method PushNode(raw: nat)
      requires arrivals != [] && multiset(queue + [raw]) == multiset(arrivals)
      requires Stored(arrivals, nodes) && raw in nodes && Stored(queue, nodes) && IsHeap(queue, nodes)
      modifies `queue, `sequence
      ensures ValidHeap()
      ensures sequence == (old(sequence) + 1) % SEQUENCE_MODULUS
    {
      var longer := queue + [raw];
      assert longer[..|longer| - 1] == queue;
      queue := PushHeap(longer, nodes);
      sequence := (sequence + 1) % SEQUENCE_MODULUS;
    }

    /** Take the root off the heap, give its block back and return its message. */
    method PopNode() returns (m: Msg)
      requires Valid() && Contents() != []
      modifies this, pool, pool.data
      ensures Valid()
      ensures Removed(old(Waiting()), Waiting(), m)
      ensures sequence == old(sequence) && shutdown == old(shutdown)
    {
      hide Owned, Intact, IsHeap, FreeChain, NoDuplicates, Stored, NodesAt, RemoveAt;
      SameStored(queue, arrivals, nodes);
      var reordered := PopHeap(queue, nodes);
      var last := |queue| - 1;
      var node := reordered[last];
      ghost var k, block := Located(node);
      RootServed(queue, arrivals, nodes, k);
      PoppedHeap(reordered, arrivals, nodes, k);
      m := nodes[node].message;
      queue := reordered[..last];
      nodes := nodes - {node};
      GiveBack(block, k, node);
    }

    /** A queued pointer's place among the arrivals, and its block. */
    lemma Located(node: nat) returns (k: nat, block: nat)
      requires node in multiset(arrivals) && Owned(pool.layout, pool.free, arrivals, images)
      ensures k < |arrivals| && arrivals[k] == node && NoDuplicates(arrivals)
      ensures block in images && pool.layout.Address(block) == node
    {
      assert node in arrivals;
      k :| k < |arrivals| && arrivals[k] == node;
      block :| block in images && pool.layout.Address(block) == node;
    }

    /** The consumer returns the block of the node it popped. */
    method GiveBack(ghost block: nat, ghost k: nat, node: nat)
      requires pool.Valid() && k < |arrivals| && arrivals[k] == node
      requires block in images && pool.layout.Address(block) == node
      requires Owned(pool.layout, pool.free, arrivals, images)
      requires Intact(pool.layout, pool.data[..], images)
      modifies pool, pool.data, `arrivals, `images
      ensures pool.Valid() && arrivals == RemoveAt(old(arrivals), k)
      ensures pool.free == [block] + old(pool.free)
      ensures Owned(pool.layout, pool.free, arrivals, images)
      ensures Intact(pool.layout, pool.data[..], images)
    {
      hide Owned, Intact, FreeChain, NoDuplicates;
      Released(pool.layout, pool.free, arrivals, images, k, block);
      IntactAfterStore(pool.layout, pool.data[..], images, block, ToBytes(pool.freeList, pool.layout.pointerSize));
      pool.layout.BlockInside(block);
      pool.Deallocate(node);
      arrivals := RemoveAt(arrivals, k);
      images := images - {block};
    }

    /** Called once the wait is over: a message is there or the queue is shutting down. */
    method Dequeue() returns (r: Option<Msg>)
      requires Valid() && (Contents() != [] || shutdown)
      modifies this, pool, pool.data
      ensures Valid() && shutdown == old(shutdown)
      ensures old(Contents()) == [] ==> r == None && Contents() == []
      ensures old(Contents()) != [] ==> r.Some? && Removed(old(Waiting()), Waiting(), r.value)
      ensures old(Ordered()) ==> Ordered()
      ensures old(Ordered()) && old(Contents()) != [] ==>
                r == Some(Front(old(Contents()))) && Contents() == Rest(old(Contents()))
      ensures old(Ordered()) && old(Contents()) != [] ==> r.Some? && FirstByKind(old(Contents()), r.value)
      ensures sequence == if Contents() == [] then 0 else old(sequence)
    {
      hide FirstByKind, Owned, Intact, IsHeap, InOrder, FreeChain, Front, Rest, Removed, NoDuplicates;
      SameStored(queue, arrivals, nodes);
      if shutdown && queue == [] {
        sequence := 0;
        return None;
      }
      var m := PopNode();
      if old(Ordered()) {
        RemovedStably(old(Waiting()), Waiting(), m);
        FrontIsFirstByKind(old(Contents()));
      }
      SameStored(queue, arrivals, nodes);
      if queue == [] {
        sequence := 0;
      }
      r := Some(m);
    }

    /** Called when the timed wait is over. Unlike Dequeue it never resets the number. */
    method TryDequeue() returns (r: Option<Msg>)
      requires Valid() && (Contents() != [] || !shutdown)
      modifies this, pool, pool.data
      ensures Valid() && shutdown == old(shutdown) && sequence == old(sequence)
      ensures old(Contents()) == [] ==> r == None && Contents() == []
      ensures old(Contents()) != [] ==> r.Some? && Removed(old(Waiting()), Waiting(), r.value)
      ensures old(Ordered()) ==> Ordered()
      ensures old(Ordered()) && old(Contents()) != [] ==>
                r == Some(Front(old(Contents()))) && Contents() == Rest(old(Contents()))
      ensures old(Ordered()) && old(Contents()) != [] ==> r.Some? && FirstByKind(old(Contents()), r.value)
    {
      hide FirstByKind, Owned, Intact, IsHeap, InOrder, FreeChain, Front, Rest, Removed, NoDuplicates;
      SameStored(queue, arrivals, nodes);
      if queue == [] && !shutdown {
        return None;
      }
      var m := PopNode();
      if old(Ordered()) {
        RemovedStably(old(Waiting()), Waiting(), m);
        FrontIsFirstByKind(old(Contents()));
      }
      r := Some(m);
    }

    method IsEmpty() returns (r: bool)
      requires Valid()
      ensures r <==> Contents() == []
    {
      SameStored(queue, arrivals, nodes);
      r := queue == [];
    }

    method NotifyShutdown()
      requires Valid()
      modifies `shutdown
      ensures Valid() && shutdown && Waiting() == old(Waiting())
    {
      shutdown := true;
    }

    /** The destructor: every waiting node's block goes back to the pool. */
    method Destroy()
      requires Valid()
      modifies this, pool, pool.data
      ensures pool.Valid() && queue == []
      ensures |pool.free| == maxMsgs
      ensures forall b: nat :: b < maxMsgs ==> b in pool.free
    {
      hide Owned, Intact, FreeChain, NoDuplicates, IsHeap, InOrder, Stored;
      var i := 0;
      while i < |queue|
        invariant i <= |queue| && queue == old(queue)
        invariant pool.Valid()
        invariant Owned(pool.layout, pool.free, arrivals, images)
        invariant Intact(pool.layout, pool.data[..], images)
        invariant multiset(queue[i..]) == multiset(arrivals)
      {
        var node := queue[i];
        assert queue[i..] == [node] + queue[i + 1..];
        ghost var k, block := Located(node);
        RemoveAtMultiset(arrivals, k);
        MultisetCancel(multiset(queue[i + 1..]), multiset(RemoveAt(arrivals, k)), node);
        GiveBack(block, k, node);
        i := i + 1;
      }
      NoneWaiting(pool.layout, pool.free, arrivals, images);
      queue := [];
    }
  }

  /** Dequeue n times after the shutdown notice: the waiting messages in drain order, then only empty. */
  method DrainQueue(q: Queue, n: nat) returns (r: seq<Option<Msg>>)
    requires q.Valid() && q.Ordered() && q.shutdown
    modifies q, q.pool, q.pool.data
    ensures q.Valid() && q.Ordered() && q.shutdown
    ensures r == DequeueAfterShutdown(old(q.Contents()), n)
    ensures forall i :: 0 <= i < n ==>
              r[i] == if i < |old(q.Contents())| then Some(Drain(old(q.Contents()))[i]) else None
    decreases n
  {
    hide Owned, Intact, IsHeap, Stored, InOrder, NodesAt, Payloads, FreeChain, Drain, Front, Rest, Removed, FirstByKind;
    ghost var waiting := q.Contents();
    ShutdownDrain(waiting, n);
    r := [];
    if n != 0 {
      var first := q.Dequeue();
      var later := DrainQueue(q, n - 1);
      r := [first] + later;
    }
  }
}
