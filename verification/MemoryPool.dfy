/** The fixed-block allocator whose free list is threaded through the blocks' own bytes. */
module MemoryPool {
  import opened Sequences

  newtype byte = x: int | 0 <= x < 256

  const NULL: nat := 0

  // ---- pointers as bytes ----

  function Pow256(n: nat): (r: nat)
    ensures r > 0
  {
    if n == 0 then 1 else 256 * Pow256(n - 1)
  }

  function ToBytes(v: nat, n: nat): (s: seq<byte>)
    ensures |s| == n
  {
    if n == 0 then [] else [(v % 256) as byte] + ToBytes(v / 256, n - 1)
  }

  function FromBytes(s: seq<byte>): nat {
    if s == [] then 0 else s[0] as nat + 256 * FromBytes(s[1..])
  }

  lemma {:induction false} PointerRoundTrip(v: nat, n: nat)
    requires v < Pow256(n)
    ensures FromBytes(ToBytes(v, n)) == v
  {
    if n != 0 {
      PointerRoundTrip(v / 256, n - 1);
    }
  }

  // ---- the pool as a value: its layout, its bytes and the head of its free list ----

  /** pointerSize is sizeof(void*). */
  datatype Layout = Layout(base: nat, blockSize: nat, blockCount: nat, pointerSize: nat) {

    /** Where a block starts: block_size bytes past its predecessor. */
    function Offset(block: nat): nat {
      if block == 0 then 0 else Offset(block - 1) + blockSize
    }

    lemma {:induction false} OffsetIsProduct(block: nat)
      ensures Offset(block) == block * blockSize
    {
      if block != 0 { OffsetIsProduct(block - 1); }
    }

    function Size(): nat { Offset(blockCount) }

    /** The constructor's assertions, and that the pool fits the address space after the null address. */
    predicate WellFormed() {
      && 0 < blockCount
      && pointerSize < blockSize
      && NULL < base
      && base + Size() < Pow256(pointerSize)
    }

    function Address(block: nat): nat { base + Offset(block) }

    /** A block ends before any later one starts. */
    lemma {:induction false} BlocksApart(a: nat, b: nat)
      requires a < b
      ensures Offset(a) + blockSize <= Offset(b)
    {
      if a + 1 < b { BlocksApart(a, b - 1); }
    }

    lemma BlockInside(block: nat)
      requires block < blockCount
      ensures Offset(block) + blockSize <= Size()
    {
      BlocksApart(block, blockCount);
    }

    lemma OffsetsDiffer(a: nat, b: nat)
      requires a != b
      ensures Offset(a) + blockSize <= Offset(b) || Offset(b) + blockSize <= Offset(a)
    {
      if a < b { BlocksApart(a, b); } else { BlocksApart(b, a); }
    }
  }

  /** The pointer stored in the first bytes of the block at an offset. */
  function Link(l: Layout, mem: seq<byte>, offset: nat): nat {
    if offset + l.pointerSize <= |mem| then FromBytes(mem[offset..offset + l.pointerSize]) else NULL
  }

  function Store(mem: seq<byte>, offset: nat, bytes: seq<byte>): (r: seq<byte>)
    requires offset + |bytes| <= |mem|
    ensures |r| == |mem|
  {
    mem[..offset] + bytes + mem[offset + |bytes|..]
  }

  /** The address of the i-th free block, or null past the last one. */
  function Target(l: Layout, free: seq<nat>, i: nat): nat {
    if i < |free| then l.Address(free[i]) else NULL
  }

  /** Following the in-block links from head visits exactly the blocks of free, in order, and ends in null. */
  ghost predicate FreeChain(l: Layout, mem: seq<byte>, head: nat, free: seq<nat>) {
    && |mem| == l.Size()
    && (forall i :: 0 <= i < |free| ==> free[i] < l.blockCount)
    && head == Target(l, free, 0)
    && (forall i :: 0 <= i < |free| ==> Link(l, mem, l.Offset(free[i])) == Target(l, free, i + 1))
  }

  lemma StoredLink(l: Layout, mem: seq<byte>, offset: nat, v: nat)
    requires offset + l.pointerSize <= |mem| && v < Pow256(l.pointerSize)
    ensures Link(l, Store(mem, offset, ToBytes(v, l.pointerSize)), offset) == v
  {
    var r := Store(mem, offset, ToBytes(v, l.pointerSize));
    assert r[offset..offset + l.pointerSize] == ToBytes(v, l.pointerSize);
    PointerRoundTrip(v, l.pointerSize);
  }

  lemma StoreApart(mem: seq<byte>, offset: nat, bytes: seq<byte>, lo: nat, hi: nat)
    requires offset + |bytes| <= |mem| && lo <= hi <= |mem|
    requires hi <= offset || offset + |bytes| <= lo
    ensures Store(mem, offset, bytes)[lo..hi] == mem[lo..hi]
  {
    var r := Store(mem, offset, bytes);
    assert forall i :: lo <= i < hi ==> r[i] == mem[i];
  }

  function Block(l: Layout, mem: seq<byte>, block: nat): seq<byte>
    requires |mem| == l.Size() && block < l.blockCount
  {
    l.BlockInside(block);
    mem[l.Offset(block)..l.Offset(block) + l.blockSize]
  }

  /** A write that stays inside one block leaves every byte of the others alone. */
  lemma StoreElsewhere(l: Layout, mem: seq<byte>, block: nat, bytes: seq<byte>, other: nat)
    requires l.WellFormed() && |mem| == l.Size() && |bytes| <= l.blockSize
    requires block < l.blockCount && other < l.blockCount && block != other
    ensures l.Offset(block) + |bytes| <= |mem|
    ensures var r := Store(mem, l.Offset(block), bytes);
            Block(l, r, other) == Block(l, mem, other) && Link(l, r, l.Offset(other)) == Link(l, mem, l.Offset(other))
  {
    hide Pow256, ToBytes, FromBytes;
    l.BlockInside(block);
    l.BlockInside(other);
    l.OffsetsDiffer(block, other);
    var lo := l.Offset(other);
    StoreApart(mem, l.Offset(block), bytes, lo, lo + l.blockSize);
    StoreApart(mem, l.Offset(block), bytes, lo, lo + l.pointerSize);
  }

  lemma StoredBlock(l: Layout, mem: seq<byte>, block: nat, bytes: seq<byte>)
    requires |mem| == l.Size() && block < l.blockCount && |bytes| <= l.blockSize
    ensures l.Offset(block) + |bytes| <= |mem|
    ensures var r := Block(l, Store(mem, l.Offset(block), bytes), block);
            |r| == l.blockSize && r[..|bytes|] == bytes
  {
    l.BlockInside(block);
    var o := l.Offset(block);
    assert Store(mem, o, bytes)[o..o + l.blockSize][..|bytes|] == Store(mem, o, bytes)[o..o + |bytes|] == bytes;
  }

  lemma TargetInAddressSpace(l: Layout, free: seq<nat>, i: nat)
    requires l.WellFormed()
    requires forall k :: 0 <= k < |free| ==> free[k] < l.blockCount
    ensures Target(l, free, i) < Pow256(l.pointerSize)
    ensures i < |free| ==> l.base <= Target(l, free, i) < l.base + l.Size()
  {
    if i < |free| { l.BlockInside(free[i]); }
  }

  /** Any write into an outstanding block leaves the free list as it was. */
  lemma ChainSurvivesStore(l: Layout, mem: seq<byte>, head: nat, free: seq<nat>, block: nat, bytes: seq<byte>)
    requires l.WellFormed() && FreeChain(l, mem, head, free)
    requires block < l.blockCount && block !in free && |bytes| <= l.blockSize
    ensures l.Offset(block) + |bytes| <= |mem|
    ensures FreeChain(l, Store(mem, l.Offset(block), bytes), head, free)
  {
    l.BlockInside(block);
    forall i | 0 <= i < |free|
      ensures Link(l, Store(mem, l.Offset(block), bytes), l.Offset(free[i])) == Target(l, free, i + 1)
    {
      StoreElsewhere(l, mem, block, bytes, free[i]);
    }
  }

  lemma ChainHead(l: Layout, mem: seq<byte>, head: nat, free: seq<nat>)
    requires l.WellFormed() && FreeChain(l, mem, head, free)
    ensures head == Target(l, free, 0)
    ensures head == NULL <==> free == []
  {
  }

  lemma ChainPop(l: Layout, mem: seq<byte>, head: nat, free: seq<nat>)
    requires l.WellFormed() && FreeChain(l, mem, head, free) && free != []
    ensures l.base <= head < l.base + l.Size()
    ensures FreeChain(l, mem, Link(l, mem, head - l.base), free[1..])
  {
    TargetInAddressSpace(l, free, 0);
    assert head - l.base == l.Offset(free[0]);
    assert Target(l, free[1..], 0) == Target(l, free, 1);
    forall i | 0 <= i < |free[1..]|
      ensures Link(l, mem, l.Offset(free[1..][i])) == Target(l, free[1..], i + 1)
    {
      assert free[1..][i] == free[i + 1];
    }
  }

  /** The bytes after deallocate writes the old head into a block. */
  function LinkIn(l: Layout, mem: seq<byte>, block: nat, head: nat): seq<byte>
    requires l.WellFormed() && |mem| == l.Size() && block < l.blockCount
  {
    l.BlockInside(block);
    Store(mem, l.Offset(block), ToBytes(head, l.pointerSize))
  }

  /** A block whose link is the head of a list makes a longer list. */
  lemma ChainCons(l: Layout, mem: seq<byte>, head: nat, free: seq<nat>, block: nat)
    requires FreeChain(l, mem, head, free) && block < l.blockCount && Link(l, mem, l.Offset(block)) == head
    ensures FreeChain(l, mem, l.Address(block), [block] + free)
  {
    hide Link, Layout.Offset;
    var more := [block] + free;
    forall i | 0 <= i < |more|
      ensures Link(l, mem, l.Offset(more[i])) == Target(l, more, i + 1)
    {
      if i > 0 { assert more[i] == free[i - 1]; }
    }
  }

  lemma ChainPush(l: Layout, mem: seq<byte>, head: nat, free: seq<nat>, block: nat)
    requires l.WellFormed() && FreeChain(l, mem, head, free)
    requires block < l.blockCount && block !in free
    ensures FreeChain(l, LinkIn(l, mem, block, head), l.Address(block), [block] + free)
  {
    l.BlockInside(block);
    TargetInAddressSpace(l, free, 0);
    hide Pow256, ToBytes, FromBytes, Link, Layout.Offset;
    ChainSurvivesStore(l, mem, head, free, block, ToBytes(head, l.pointerSize));
    StoredLink(l, mem, l.Offset(block), head);
    ChainCons(l, LinkIn(l, mem, block, head), head, free, block);
  }

  // ---- deallocating a block that is already free ----

  /** The link of each block of loop leads to the next one, and the last leads back to the first. */
  ghost predicate ClosedLoop(l: Layout, mem: seq<byte>, loop: seq<nat>) {
    forall i :: 0 <= i < |loop| ==>
      Link(l, mem, l.Offset(loop[i])) == l.Address(loop[if i + 1 < |loop| then i + 1 else 0])
  }

  /** A walk that starts on a closed loop of links never ends, so it is not a free list. */
  lemma {:induction false} NoChainAroundALoop(l: Layout, mem: seq<byte>, loop: seq<nat>, i: nat, chain: seq<nat>)
    requires l.WellFormed() && ClosedLoop(l, mem, loop) && i < |loop|
    requires FreeChain(l, mem, l.Address(loop[i]), chain)
    ensures false
    decreases |chain|
  {
    ChainPop(l, mem, l.Address(loop[i]), chain);
    NoChainAroundALoop(l, mem, loop, if i + 1 < |loop| then i + 1 else 0, chain[1..]);
  }

  /** Linking a free block in front of the list makes a loop of the blocks up to it. */
  lemma DoubleFreeClosesALoop(l: Layout, mem: seq<byte>, head: nat, free: seq<nat>, k: nat)
    requires l.WellFormed() && FreeChain(l, mem, head, free) && NoDuplicates(free) && k < |free|
    ensures ClosedLoop(l, LinkIn(l, mem, free[k], head), free[..k + 1])
  {
    hide Pow256, ToBytes, FromBytes;
    var loop, r := free[..k + 1], LinkIn(l, mem, free[k], head);
    l.BlockInside(free[k]);
    TargetInAddressSpace(l, free, 0);
    StoredLink(l, mem, l.Offset(free[k]), head);
    forall i | 0 <= i < |loop|
      ensures Link(l, r, l.Offset(loop[i])) == l.Address(loop[if i + 1 < |loop| then i + 1 else 0])
    {
      if i < k { StoreElsewhere(l, mem, free[k], ToBytes(head, l.pointerSize), free[i]); }
    }
  }

  /** Following the links from head stays on block addresses and ends in null. */
  ghost predicate IsFreeList(l: Layout, mem: seq<byte>, head: nat) {
    exists chain :: FreeChain(l, mem, head, chain)
  }

  lemma DeallocateBlockIff(l: Layout, mem: seq<byte>, head: nat, free: seq<nat>, block: nat)
    requires l.WellFormed() && FreeChain(l, mem, head, free) && NoDuplicates(free) && block < l.blockCount
    ensures IsFreeList(l, LinkIn(l, mem, block, head), l.Address(block)) <==> block !in free
  {
    if block !in free {
      ChainPush(l, mem, head, free, block);
    } else {
      var k :| 0 <= k < |free| && free[k] == block;
      forall chain | FreeChain(l, LinkIn(l, mem, block, head), l.Address(block), chain)
        ensures false
      {
        DoubleFreeClosesALoop(l, mem, head, free, k);
        NoChainAroundALoop(l, LinkIn(l, mem, block, head), free[..k + 1], k, chain);
      }
    }
  }

  /** The pool's bytes after a link is written at any offset in it; near the end the write runs out of the pool. */
  function WriteAt(l: Layout, mem: seq<byte>, offset: nat, head: nat): (r: seq<byte>)
    requires offset < |mem|
    ensures |r| == |mem|
  {
    var bytes := ToBytes(head, l.pointerSize);
    if offset + |bytes| <= |mem| then Store(mem, offset, bytes) else mem[..offset] + bytes[..|mem| - offset]
  }

  lemma WrittenAt(l: Layout, mem: seq<byte>, offset: nat, head: nat)
    requires offset < |mem|
    ensures var bytes := ToBytes(head, l.pointerSize);
            var fitting := if offset + |bytes| <= |mem| then bytes else bytes[..|mem| - offset];
            Store(mem, offset, fitting) == WriteAt(l, mem, offset, head)
  {
  }

  /** p is the address of this block, which is in use. */
  predicate UsedAt(l: Layout, free: seq<nat>, p: nat, block: nat) {
    block < l.blockCount && l.Address(block) == p && block !in free
  }

  ghost predicate Outstanding(l: Layout, free: seq<nat>, p: nat) {
    exists block: nat :: UsedAt(l, free, p, block)
  }

  /** A link written at a block's address stays inside that block. */
  lemma WriteAtBlock(l: Layout, mem: seq<byte>, block: nat, head: nat)
    requires l.WellFormed() && |mem| == l.Size() && block < l.blockCount
    ensures l.Offset(block) + l.pointerSize <= |mem|
    ensures WriteAt(l, mem, l.Offset(block), head) == LinkIn(l, mem, block, head)
  {
    l.BlockInside(block);
  }

  /** A free list that is not empty starts at the address of a block. */
  lemma ListStartsAtBlock(l: Layout, mem: seq<byte>, p: nat)
    requires p != NULL && IsFreeList(l, mem, p)
    ensures exists block: nat :: block < l.blockCount && l.Address(block) == p
  {
    var chain :| FreeChain(l, mem, p, chain);
    assert chain != [] && l.Address(chain[0]) == p;
  }

  lemma OneBlockAt(l: Layout, free: seq<nat>, block: nat)
    requires l.WellFormed()
    ensures forall b: nat :: UsedAt(l, free, l.Address(block), b) ==> b == block
  {
    forall b: nat | UsedAt(l, free, l.Address(block), b) ensures b == block {
      if b != block { l.OffsetsDiffer(b, block); }
    }
  }

  /**
   For every pointer that deallocate's assertion lets through, aligned or not, the free list is well formed
   afterwards exactly when the pointer was the address of a block in use.
   */
  lemma DeallocateIsSoundIff(l: Layout, mem: seq<byte>, head: nat, free: seq<nat>, p: nat)
    requires l.WellFormed() && FreeChain(l, mem, head, free) && NoDuplicates(free)
    requires l.base <= p < l.base + l.Size()
    ensures IsFreeList(l, WriteAt(l, mem, p - l.base, head), p) <==> Outstanding(l, free, p)
  {
    assert |mem| == l.Size();
    hide FreeChain, NoDuplicates, IsFreeList, WriteAt, LinkIn, Layout.Offset;
    if block: nat :| block < l.blockCount && l.Address(block) == p {
      WriteAtBlock(l, mem, block, head);
      DeallocateBlockIff(l, mem, head, free, block);
      OneBlockAt(l, free, block);
      assert Outstanding(l, free, p) <==> UsedAt(l, free, p, block);
    } else if IsFreeList(l, WriteAt(l, mem, p - l.base, head), p) {
      ListStartsAtBlock(l, WriteAt(l, mem, p - l.base, head), p);
    }
  }

  /** The list after a block in use is deallocated; no other block has its address. */
  lemma Relinked(l: Layout, mem: seq<byte>, head: nat, free: seq<nat>, p: nat, block: nat) returns (more: seq<nat>)
    requires l.WellFormed() && FreeChain(l, mem, head, free) && NoDuplicates(free)
    requires l.base <= p < l.base + |mem| && UsedAt(l, free, p, block)
    ensures more == [block] + free && NoDuplicates(more)
    ensures WriteAt(l, mem, p - l.base, head) == LinkIn(l, mem, block, head)
    ensures FreeChain(l, LinkIn(l, mem, block, head), p, more)
    ensures forall b: nat :: UsedAt(l, free, p, b) ==> b == block
  {
    more := [block] + free;
    assert NoDuplicates(more) && |mem| == l.Size();
    hide FreeChain, NoDuplicates, WriteAt, LinkIn, Layout.Offset;
    WriteAtBlock(l, mem, block, head);
    ChainPush(l, mem, head, free, block);
    OneBlockAt(l, free, block);
  }

  // ---- draining the pool ----

  /** The pointers that n allocations in a row return, read off the raw bytes. */
  function AllocateMany(l: Layout, mem: seq<byte>, head: nat, n: nat): (r: seq<nat>)
    ensures |r| == n
    decreases n
  {
    if n == 0 then []
    else if head == NULL then [NULL] + AllocateMany(l, mem, NULL, n - 1)
    else [head] + AllocateMany(l, mem, Link(l, mem, if l.base <= head then head - l.base else 0), n - 1)
  }

  /** Every free block comes out once, in order, then only null. */
  lemma {:induction false} PoolDrain(l: Layout, mem: seq<byte>, head: nat, free: seq<nat>, n: nat, i: nat)
    requires l.WellFormed() && FreeChain(l, mem, head, free) && i < n
    ensures AllocateMany(l, mem, head, n)[i] == Target(l, free, i)
    decreases n
  {
    hide FreeChain, Link;
    ChainHead(l, mem, head, free);
    if free == [] {
      if i != 0 { PoolDrain(l, mem, NULL, free, n - 1, i - 1); }
    } else {
      ChainPop(l, mem, head, free);
      if i != 0 { PoolDrain(l, mem, Link(l, mem, head - l.base), free[1..], n - 1, i - 1); }
    }
  }

  /** The block-sized range at q lies inside the pool. */
  predicate Inside(l: Layout, q: nat) {
    l.base <= q && q + l.blockSize <= l.base + l.Size()
  }

  /** The block-sized ranges at p and q do not overlap. */
  predicate Apart(l: Layout, p: nat, q: nat) {
    p + l.blockSize <= q || q + l.blockSize <= p
  }

  /** The addresses of the blocks in use, but for p. */
  ghost predicate InUse(l: Layout, free: seq<nat>, p: nat, q: nat) {
    q != p && Outstanding(l, free, q)
  }

  /**
   What n allocations hand out from this head: ranges inside the pool that overlap neither each other nor, but for
   p itself, the blocks in use beside the list free.
   */
  ghost predicate HandsOutApart(l: Layout, mem: seq<byte>, head: nat, free: seq<nat>, p: nat, n: nat) {
    var r := AllocateMany(l, mem, head, n);
    && (forall i :: 0 <= i < n && r[i] != NULL ==> Inside(l, r[i]))
    && (forall i, j :: 0 <= i < j < n && r[i] != NULL && r[j] != NULL ==> Apart(l, r[i], r[j]))
    && (forall i, q :: 0 <= i < n && r[i] != NULL && InUse(l, free, p, q) ==> Apart(l, r[i], q))
  }

  ghost predicate KeepsApart(l: Layout, mem: seq<byte>, head: nat, free: seq<nat>, p: nat) {
    forall n: nat :: HandsOutApart(l, mem, head, free, p, n)
  }

  /** Draining a well-formed list hands out ranges inside the pool, apart from each other and from the blocks in use. */
  lemma DrainedRangesApart(l: Layout, mem: seq<byte>, head: nat, free: seq<nat>, n: nat)
    requires l.WellFormed() && FreeChain(l, mem, head, free) && NoDuplicates(free)
    ensures HandsOutApart(l, mem, head, free, NULL, n)
  {
    var r := AllocateMany(l, mem, head, n);
    forall i | 0 <= i < n ensures r[i] == Target(l, free, i) { PoolDrain(l, mem, head, free, n, i); }
    hide AllocateMany, Link, Layout.Offset;
    forall i | 0 <= i < n && r[i] != NULL ensures Inside(l, r[i]) { l.BlockInside(free[i]); }
    forall i, j | 0 <= i < j < n && r[i] != NULL && r[j] != NULL ensures Apart(l, r[i], r[j]) {
      l.OffsetsDiffer(free[i], free[j]);
    }
    forall i, q | 0 <= i < n && r[i] != NULL && InUse(l, free, NULL, q) ensures Apart(l, r[i], q) {
      var b: nat :| UsedAt(l, free, q, b);
      l.OffsetsDiffer(free[i], b);
    }
  }

  // ---- deallocating any pointer of the pool, seen from what allocation then hands out ----

  /** While the links of the first blocks are intact, allocation follows the list. */
  lemma {:induction false} WalkFollows(l: Layout, mem: seq<byte>, free: seq<nat>, k: nat, n: nat)
    requires l.WellFormed() && k < |free| && k < n
    requires forall i :: 0 <= i < k ==> Link(l, mem, l.Offset(free[i])) == Target(l, free, i + 1)
    ensures AllocateMany(l, mem, Target(l, free, 0), n)[k] == l.Address(free[k])
    decreases k
  {
    hide Link;
    if k > 0 {
      var rest := free[1..];
      assert forall i :: 0 <= i < |rest| ==> rest[i] == free[i + 1];
      assert forall i :: 0 <= i < |rest| ==> Target(l, rest, i) == Target(l, free, i + 1);
      WalkFollows(l, mem, rest, k - 1, n - 1);
      assert Link(l, mem, l.Offset(free[0])) == Target(l, rest, 0);
    }
  }

  /** A pointer into the pool lies in some block. */
  lemma {:induction false} BlockOf(l: Layout, n: nat, offset: nat) returns (block: nat)
    requires offset < l.Offset(n)
    ensures block < n && l.Offset(block) <= offset < l.Offset(block) + l.blockSize
  {
    if l.Offset(n - 1) <= offset { block := n - 1; } else { block := BlockOf(l, n - 1, offset); }
  }

  lemma {:induction false} FirstOf(q: seq<nat>, a: nat, b: nat) returns (k: nat)
    requires a in q
    ensures k < |q| && (q[k] == a || q[k] == b) && forall i :: 0 <= i < k ==> q[i] != a && q[i] != b
  {
    if q[0] == a || q[0] == b {
      k := 0;
    } else {
      k := FirstOf(q[1..], a, b);
      k := k + 1;
      assert forall i :: 0 < i < k ==> q[i] == q[1..][i - 1];
    }
  }

  /** The links of the first k blocks of the list do not touch a link written at this offset. */
  ghost predicate Missed(l: Layout, free: seq<nat>, k: nat, offset: nat)
    requires k <= |free|
  {
    forall i :: 0 <= i < k ==>
      l.Offset(free[i]) + l.pointerSize <= offset || offset + l.pointerSize <= l.Offset(free[i])
  }

  lemma LinkMissed(l: Layout, mem: seq<byte>, offset: nat, head: nat, o: nat)
    requires offset < |mem| && offset + l.pointerSize <= |mem| && o + l.pointerSize <= |mem|
    requires o + l.pointerSize <= offset || offset + l.pointerSize <= o
    ensures Link(l, WriteAt(l, mem, offset, head), o) == Link(l, mem, o)
  {
    hide ToBytes, FromBytes;
    StoreApart(mem, offset, ToBytes(head, l.pointerSize), o, o + l.pointerSize);
  }

  lemma LinksMissed(l: Layout, mem: seq<byte>, head: nat, free: seq<nat>, offset: nat, k: nat, i: nat)
    requires l.WellFormed() && FreeChain(l, mem, head, free) && i < k <= |free|
    requires offset + l.pointerSize <= l.Size() && offset < l.Size() && Missed(l, free, k, offset)
    ensures Link(l, WriteAt(l, mem, offset, head), l.Offset(free[i])) == Target(l, free, i + 1)
  {
    l.BlockInside(free[i]);
    assert |mem| == l.Size();
    hide Pow256, Link, WriteAt;
    LinkMissed(l, mem, offset, head, l.Offset(free[i]));
  }

  lemma AllocatesThen(l: Layout, mem: seq<byte>, p: nat, n: nat)
    requires NULL < l.base <= p
    ensures AllocateMany(l, mem, p, n + 1) == [p] + AllocateMany(l, mem, Link(l, mem, p - l.base), n)
  {
    hide Link;
  }

  lemma ReadsBack(l: Layout, mem: seq<byte>, head: nat, free: seq<nat>, offset: nat)
    requires l.WellFormed() && FreeChain(l, mem, head, free)
    requires offset + l.pointerSize <= l.Size() && offset < l.Size()
    ensures Link(l, WriteAt(l, mem, offset, head), offset) == Target(l, free, 0)
  {
    TargetInAddressSpace(l, free, 0);
    assert head == Target(l, free, 0) && |mem| == l.Size();
    hide FreeChain, Link, Target, Pow256, ToBytes, Layout.Offset;
    StoredLink(l, mem, offset, head);
  }

  /** After p is deallocated it comes out first, and then the list as far as the write at p has missed it. */
  lemma HandsOutAfter(l: Layout, mem: seq<byte>, head: nat, free: seq<nat>, p: nat, k: nat)
    requires l.WellFormed() && FreeChain(l, mem, head, free) && k < |free|
    requires l.base <= p < l.base + l.Size() && p + l.pointerSize <= l.base + l.Size()
    requires Missed(l, free, k, p - l.base)
    ensures var r := AllocateMany(l, WriteAt(l, mem, p - l.base, head), p, k + 2);
            r[0] == p && r[k + 1] == l.Address(free[k])
  {
    assert |mem| == l.Size();
    hide Link, WriteAt, Layout.Offset, FreeChain, Missed, Pow256, AllocateMany, Target;
    var written := WriteAt(l, mem, p - l.base, head);
    ReadsBack(l, mem, head, free, p - l.base);
    AllocatesThen(l, written, p, k + 1);
    forall i | 0 <= i < k
      ensures Link(l, written, l.Offset(free[i])) == Target(l, free, i + 1)
    {
      LinksMissed(l, mem, head, free, p - l.base, k, i);
    }
    WalkFollows(l, written, free, k, k + 1);
  }

  lemma AllocatesHead(l: Layout, mem: seq<byte>, p: nat)
    requires p != NULL
    ensures AllocateMany(l, mem, p, 1)[0] == p
  {
  }

  /** If both blocks that p overlaps are free, the first of them in the list comes out and overlaps p. */
  lemma OverlapsFree(l: Layout, mem: seq<byte>, head: nat, free: seq<nat>, p: nat, block: nat) returns (n: nat)
    requires l.WellFormed() && FreeChain(l, mem, head, free)
    requires block + 1 < l.blockCount && l.Address(block) < p < l.Address(block) + l.blockSize
    requires block in free && block + 1 in free
    ensures l.base <= p < l.base + l.Size()
    ensures !HandsOutApart(l, WriteAt(l, mem, p - l.base, head), p, free, p, n)
  {
    hide Pow256, ToBytes, FromBytes;
    var next := block + 1;
    assert l.Offset(next) == l.Offset(block) + l.blockSize;
    l.BlockInside(next);
    var k := FirstOf(free, block, next);
    hide Layout.Offset, FreeChain, WriteAt;
    forall i | 0 <= i < k
      ensures l.Offset(free[i]) + l.pointerSize <= p - l.base || p - l.base + l.pointerSize <= l.Offset(free[i])
    {
      l.OffsetsDiffer(free[i], block);
      l.OffsetsDiffer(free[i], next);
    }
    HandsOutAfter(l, mem, head, free, p, k);
    n := k + 2;
    hide AllocateMany;
    assert !Apart(l, p, l.Address(free[k]));
  }

  /** A pointer into the middle of a block overlaps it and the next one; whatever those are, something overlaps. */
  lemma MisalignedOverlaps(l: Layout, mem: seq<byte>, head: nat, free: seq<nat>, p: nat, block: nat) returns (n: nat)
    requires l.WellFormed() && FreeChain(l, mem, head, free)
    requires block < l.blockCount && l.Address(block) < p < l.Address(block) + l.blockSize
    ensures l.base <= p < l.base + l.Size()
    ensures !HandsOutApart(l, WriteAt(l, mem, p - l.base, head), p, free, p, n)
  {
    hide Pow256, ToBytes, FromBytes;
    l.BlockInside(block);
    var next := block + 1;
    assert l.Offset(next) == l.Offset(block) + l.blockSize;
    n := 1;
    AllocatesHead(l, WriteAt(l, mem, p - l.base, head), p);
    hide AllocateMany, Layout.Offset, FreeChain, WriteAt;
    if next == l.blockCount {
      assert !Inside(l, p);
    } else if block !in free {
      assert UsedAt(l, free, l.Address(block), block);
      assert InUse(l, free, p, l.Address(block)) && !Apart(l, p, l.Address(block));
    } else if next !in free {
      assert UsedAt(l, free, l.Address(next), next);
      assert InUse(l, free, p, l.Address(next)) && !Apart(l, p, l.Address(next));
    } else {
      n := OverlapsFree(l, mem, head, free, p, block);
    }
  }

  /** A block that is freed twice comes out twice. */
  lemma DoubleFreeRepeats(l: Layout, mem: seq<byte>, head: nat, free: seq<nat>, k: nat)
    requires l.WellFormed() && FreeChain(l, mem, head, free) && NoDuplicates(free) && k < |free|
    ensures l.base <= l.Address(free[k]) < l.base + l.Size()
    ensures var p := l.Address(free[k]);
            !HandsOutApart(l, WriteAt(l, mem, p - l.base, head), p, free, p, k + 2)
  {
    hide Pow256, ToBytes, FromBytes;
    var p := l.Address(free[k]);
    l.BlockInside(free[k]);
    hide Layout.Offset, FreeChain, WriteAt;
    forall i | 0 <= i < k
      ensures l.Offset(free[i]) + l.pointerSize <= p - l.base || p - l.base + l.pointerSize <= l.Offset(free[i])
    {
      l.OffsetsDiffer(free[i], free[k]);
    }
    HandsOutAfter(l, mem, head, free, p, k);
    hide AllocateMany;
    assert !Apart(l, p, p);
  }

  /** A block in use that is deallocated is handed out again, apart from everything still in use. */
  lemma FreedHandsOutApart(l: Layout, mem: seq<byte>, head: nat, free: seq<nat>, p: nat, block: nat, n: nat)
    requires l.WellFormed() && FreeChain(l, mem, head, free) && NoDuplicates(free)
    requires l.base <= p < l.base + l.Size() && UsedAt(l, free, p, block)
    ensures HandsOutApart(l, WriteAt(l, mem, p - l.base, head), p, free, p, n)
  {
    var more := Relinked(l, mem, head, free, p, block);
    var written := WriteAt(l, mem, p - l.base, head);
    DrainedRangesApart(l, written, p, more, n);
    forall q | InUse(l, free, p, q) ensures InUse(l, more, NULL, q) {
      var b: nat :| UsedAt(l, free, q, b);
      assert UsedAt(l, more, q, b);
    }
    hide AllocateMany, FreeChain, NoDuplicates, InUse, WriteAt, LinkIn, Link;
  }

  lemma UnsafeToDeallocate(l: Layout, mem: seq<byte>, head: nat, free: seq<nat>, p: nat) returns (n: nat)
    requires l.WellFormed() && FreeChain(l, mem, head, free) && NoDuplicates(free)
    requires l.base <= p < l.base + |mem| && !Outstanding(l, free, p)
    ensures !HandsOutApart(l, WriteAt(l, mem, p - l.base, head), p, free, p, n)
  {
    hide Pow256, ToBytes, FromBytes, NoDuplicates, HandsOutApart, WriteAt;
    assert |mem| == l.Size();
    hide FreeChain, Layout.Offset;
    var block := BlockOf(l, l.blockCount, p - l.base);
    if l.Address(block) == p {
      assert !UsedAt(l, free, p, block);
      var k :| 0 <= k < |free| && free[k] == block;
      DoubleFreeRepeats(l, mem, head, free, k);
      n := k + 2;
    } else {
      n := MisalignedOverlaps(l, mem, head, free, p, block);
    }
  }

  /**
   For every pointer that deallocate's assertion lets through, aligned or not: what allocation hands out afterwards
   lies inside the pool and overlaps neither itself nor a block that is still in use, exactly when the pointer was
   the address of a block in use.
   */
  lemma DeallocateIsSafeIff(l: Layout, mem: seq<byte>, head: nat, free: seq<nat>, p: nat)
    requires l.WellFormed() && FreeChain(l, mem, head, free) && NoDuplicates(free)
    requires l.base <= p < l.base + l.Size()
    ensures |mem| == l.Size()
    ensures KeepsApart(l, WriteAt(l, mem, p - l.base, head), p, free, p) <==> Outstanding(l, free, p)
  {
    hide Pow256, ToBytes, FromBytes;
    assert |mem| == l.Size();
    hide FreeChain, NoDuplicates, HandsOutApart, WriteAt, UsedAt, Layout.Offset;
    if Outstanding(l, free, p) {
      var block: nat :| UsedAt(l, free, p, block);
      var written := WriteAt(l, mem, p - l.base, head);
      forall n: nat ensures HandsOutApart(l, written, p, free, p, n) {
        FreedHandsOutApart(l, mem, head, free, p, block, n);
      }
    } else {
      var n := UnsafeToDeallocate(l, mem, head, free, p);
    }
  }

  /** The links that the constructor writes thread the blocks in address order. */
  lemma IdentityChain(l: Layout, mem: seq<byte>, free: seq<nat>)
    requires l.WellFormed() && |mem| == l.Size() && free == seq(l.blockCount, i => i)
    requires forall k :: 0 <= k < l.blockCount ==>
               Link(l, mem, l.Offset(k)) == if k + 1 < l.blockCount then l.Address(k + 1) else NULL
    ensures FreeChain(l, mem, l.base, free) && NoDuplicates(free)
  {
    hide Link;
    assert free[0] == 0 && l.Offset(0) == 0 && forall i :: 0 <= i < |free| ==> free[i] == i;
    forall i | 0 <= i < |free|
      ensures Link(l, mem, l.Offset(free[i])) == Target(l, free, i + 1)
    {
      assert free[i] == i && (i + 1 < |free| ==> free[i + 1] == i + 1);
    }
  }

  // ---- the allocator ----

  class Pool {
    const layout: Layout
    const data: array<byte>
    var freeList: nat
    ghost var free: seq<nat>

    ghost predicate Valid()
      reads this, data
    {
      && layout.WellFormed()
      && NoDuplicates(free)
      && FreeChain(layout, data[..], freeList, free)
    }

    /** base is the address at which the bytes are allocated. */
    constructor (base: nat, blockSize: nat, blockCount: nat, pointerSize: nat)
      requires Layout(base, blockSize, blockCount, pointerSize).WellFormed()
      ensures Valid() && fresh(data)
      ensures layout == Layout(base, blockSize, blockCount, pointerSize)
      ensures free == seq(blockCount, i => i)
    {
      var l := Layout(base, blockSize, blockCount, pointerSize);
      l.OffsetIsProduct(blockCount);
      layout := l;
      data := new byte[blockCount * blockSize];
      freeList := base;
      free := seq(blockCount, i => i);
      new;
      ThreadBlocks();
      IdentityChain(layout, data[..], free);
    }

    /** The constructor's loop: link each block to the next one and the last one to null. */
    method ThreadBlocks()
      requires layout.WellFormed() && data.Length == layout.Size()
      modifies data
      ensures forall k :: 0 <= k < layout.blockCount ==>
                Link(layout, data[..], layout.Offset(k)) ==
                  if k + 1 < layout.blockCount then layout.Address(k + 1) else NULL
    {
      var current := 0;
      var i := 0;
      while i < layout.blockCount - 1
        invariant i < layout.blockCount && current == layout.Offset(i)
        invariant forall k :: 0 <= k < i ==> Link(layout, data[..], layout.Offset(k)) == layout.Address(k + 1)
      {
        var next := current + layout.blockSize;
        layout.BlockInside(i + 1);
        WriteLink(i, current, layout.base + next);
        current := next;
        i := i + 1;
      }
      WriteLink(i, current, NULL);
    }

    /** Write a pointer into the first bytes of a block. */
    method WriteLink(ghost block: nat, offset: nat, v: nat)
      requires layout.WellFormed() && data.Length == layout.Size() && block < layout.blockCount
      requires offset == layout.Offset(block) && v < Pow256(layout.pointerSize)
      modifies data
      ensures data[..] == LinkIn(layout, old(data[..]), block, v)
      ensures Link(layout, data[..], offset) == v
      ensures forall b :: 0 <= b < layout.blockCount && b != block ==>
                Link(layout, data[..], layout.Offset(b)) == Link(layout, old(data[..]), layout.Offset(b))
    {
      Write(block, offset, ToBytes(v, layout.pointerSize));
      StoredLink(layout, old(data[..]), offset, v);
      forall b | 0 <= b < layout.blockCount && b != block
        ensures Link(layout, data[..], layout.Offset(b)) == Link(layout, old(data[..]), layout.Offset(b))
      {
        StoreElsewhere(layout, old(data[..]), block, ToBytes(v, layout.pointerSize), b);
      }
    }

    method Write(ghost block: nat, offset: nat, bytes: seq<byte>)
      requires data.Length == layout.Size() && block < layout.blockCount
      requires offset == layout.Offset(block) && |bytes| <= layout.blockSize
      modifies data
      ensures offset + |bytes| <= data.Length
      ensures data[..] == Store(old(data[..]), offset, bytes)
    {
      layout.BlockInside(block);
      WriteBytes(offset, bytes);
    }

    method WriteBytes(offset: nat, bytes: seq<byte>)
      requires offset + |bytes| <= data.Length
      modifies data
      ensures data[..] == Store(old(data[..]), offset, bytes)
    {
      forall i | 0 <= i < |bytes| {
        data[offset + i] := bytes[i];
      }
    }

    method Allocate() returns (p: nat)
      requires Valid()
      modifies `freeList, `free
      ensures Valid()
      ensures old(free) == [] ==> p == NULL && free == []
      ensures old(free) != [] ==> p == layout.Address(old(free)[0]) && free == old(free)[1..]
    {
      if freeList == NULL {
        p := NULL;
      } else {
        ChainPop(layout, data[..], freeList, free);
        p := freeList;
        freeList := Link(layout, data[..], freeList - layout.base);
        free := free[1..];
      }
    }

    /**
     The source asserts only that the pointer is in range. Near the end of the pool only the bytes that are still
     in it are written here. Deallocating a block in use puts it first in the list; after anything else, allocation
     hands out ranges that overlap or leave the pool.
     */
    method Deallocate(p: nat)
      requires Valid() && layout.base <= p < layout.base + layout.Size()
      modifies this, data
      ensures data[..] == WriteAt(layout, old(data[..]), p - layout.base, old(freeList)) && freeList == p
      ensures forall b: nat :: UsedAt(layout, old(free), p, b) ==>
                Valid() && free == [b] + old(free) && data[..] == LinkIn(layout, old(data[..]), b, old(freeList))
      ensures IsFreeList(layout, data[..], freeList) <==> Outstanding(layout, old(free), p)
      ensures KeepsApart(layout, data[..], freeList, old(free), p) <==> Outstanding(layout, old(free), p)
    {
      assert data.Length == layout.Size();
      DeallocateIsSoundIff(layout, data[..], freeList, free, p);
      DeallocateIsSafeIff(layout, data[..], freeList, free, p);
      hide FreeChain, NoDuplicates, IsFreeList, KeepsApart, Outstanding, Link, ToBytes, LinkIn, UsedAt, Pow256;
      hide Layout.Offset, WriteAt;
      ghost var before, head := data[..], freeList;
      var bytes, offset := ToBytes(freeList, layout.pointerSize), p - layout.base;
      WriteBytes(offset, if offset + |bytes| <= data.Length then bytes else bytes[..data.Length - offset]);
      WrittenAt(layout, before, offset, head);
      freeList := p;
      if block: nat :| UsedAt(layout, free, p, block) {
        free := Relinked(layout, before, head, free, p, block);
      }
    }

    /** The owner of an outstanding block fills its bytes. */
    method Fill(ghost block: nat, p: nat, bytes: seq<byte>)
      requires Valid() && block < layout.blockCount && block !in free
      requires p == layout.Address(block) && |bytes| <= layout.blockSize
      modifies data
      ensures Valid()
      ensures layout.Offset(block) + |bytes| <= data.Length
      ensures data[..] == Store(old(data[..]), layout.Offset(block), bytes)
    {
      ChainSurvivesStore(layout, data[..], freeList, free, block, bytes);
      Write(block, p - layout.base, bytes);
    }
  }

  /** Allocate n times in a row: every free block comes out once, in list order, then only null. */
  method DrainPool(p: Pool, n: nat) returns (r: seq<nat>)
    requires p.Valid()
    modifies p`freeList, p`free
    ensures p.Valid() && |r| == n
    ensures r == AllocateMany(p.layout, p.data[..], old(p.freeList), n)
    ensures forall i :: 0 <= i < n ==> r[i] == Target(p.layout, old(p.free), i)
    ensures p.free == if n <= |old(p.free)| then old(p.free)[n..] else []
  {
    hide FreeChain, NoDuplicates, Link, AllocateMany;
    ghost var l, mem, head, free := p.layout, p.data[..], p.freeList, p.free;
    r := [];
    while |r| < n
      invariant |r| <= n && p.Valid()
      invariant p.free == if |r| <= |free| then free[|r|..] else []
      invariant forall i :: 0 <= i < |r| ==> r[i] == Target(l, free, i)
    {
      var block := p.Allocate();
      r := r + [block];
    }
    forall i | 0 <= i < n ensures r[i] == AllocateMany(l, mem, head, n)[i] {
      PoolDrain(l, mem, head, free, n, i);
    }
  }
}
