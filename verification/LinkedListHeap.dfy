/**
 The linked-list heap: first fit over a list of free blocks whose nodes are kept in the free blocks
 themselves. Adding a free block replaces the list.
 */
module LinkedListHeap {
  import opened Options
  import opened Runs
  import opened Alignment
  import opened Blocks

  const NODE_SIZE: nat := 16
  const NODE_SHIFT: nat := 3

  /** A size and alignment adjusted to hold a list node. */
  datatype Request = Request(size: nat, shift: nat)

  /** Widening the alignment to a node's must not push the rounded size past the largest layout. */
  predicate Adjustable(l: Layout)
  {
    RoundUp(l.size, Pow2(NodeShift(l))) < HALF
  }

  function NodeShift(l: Layout): nat
  {
    if l.shift < NODE_SHIFT then NODE_SHIFT else l.shift
  }

  function AdjustLayout(l: Layout): Option<Request>
  {
    if !Adjustable(l) then None
    else
      var size := RoundUp(l.size, Pow2(NodeShift(l)));
      Some(Request(if size < NODE_SIZE then NODE_SIZE else size, NodeShift(l)))
  }

  function Aligned(address: nat, shift: nat): nat
    requires shift < WORD_BITS
  {
    Pow2InWord(shift);
    AlignUp(address, Pow2(shift))
  }

  /** What adding a free block asserts of it. */
  predicate Usable(address: nat, size: nat)
  {
    Aligned(address, NODE_SHIFT) == address && size >= NODE_SIZE
  }

  function AllocateFromBlock(b: Block, r: Request): Option<nat>
    requires r.shift < WORD_BITS
  {
    var start := Aligned(b.start, r.shift);
    var end := start + r.size;
    if end >= WORDS || end > b.End() then None
    else if 0 < b.End() - end < NODE_SIZE then None
    else Some(start)
  }

  /** The first block that fits, or the number of blocks. */
  function FirstFit(list: seq<Block>, r: Request): (i: nat)
    requires r.shift < WORD_BITS
    ensures i <= |list| && (i < |list| ==> AllocateFromBlock(list[i], r).Some?)
    ensures forall k :: 0 <= k < i ==> AllocateFromBlock(list[k], r).None?
  {
    if list == [] || AllocateFromBlock(list[0], r).Some? then 0 else FirstFit(list[1..], r) + 1
  }

  datatype Answer = Pointer(start: nat) | Null | Panic

  function Alloc(list: seq<Block>, l: Layout): (seq<Block>, Answer)
    requires ValidLayout(l)
  {
    match AdjustLayout(l)
    case None => (list, Panic)
    case Some(r) =>
      var i := FirstFit(list, r);
      if i == |list| then (list, Null)
      else
        var start := AllocateFromBlock(list[i], r).value;
        var end := start + r.size;
        var left := list[i].End() - end;
        if left == 0 then (Removed(list, i), Pointer(start))
        else if Usable(end, left) then ([Block(end, left)], Pointer(start))
        else (Removed(list, i), Panic)
  }

  function Dealloc(list: seq<Block>, address: nat, l: Layout): (seq<Block>, bool)
  {
    match AdjustLayout(l)
    case None => (list, false)
    case Some(r) => if Usable(address, r.size) then ([Block(address, r.size)], true) else (list, false)
  }

  class LinkedListAllocator {
    var list: seq<Block>

    constructor ()
      ensures list == []
    {
      list := [];
    }

    method AddFreeBlock(address: nat, size: nat) returns (ok: bool)
      modifies this
      ensures ok <==> Usable(address, size)
      ensures list == if ok then [Block(address, size)] else old(list)
    {
      Pow2InWord(NODE_SHIFT);
      if AlignUp(address, Pow2(NODE_SHIFT)) != address || size < NODE_SIZE {
        return false;
      }
      list := [Block(address, size)];
      return true;
    }

    /** Walks the list and takes out the first block that fits. */
    method FindSuitableBlock(r: Request) returns (found: Option<(Block, nat)>)
      requires r.shift < WORD_BITS
      modifies this
      ensures var i := FirstFit(old(list), r);
              if i == |old(list)| then found == None && list == old(list)
              else
                && found == Some((old(list)[i], AllocateFromBlock(old(list)[i], r).value))
                && list == Removed(old(list), i)
    {
      var i := 0;
      while i < |list|
        invariant 0 <= i <= |list| && list == old(list)
        invariant forall k :: 0 <= k < i ==> AllocateFromBlock(list[k], r).None?
      {
        var start := AllocateFromBlock(list[i], r);
        if start.Some? {
          found := Some((list[i], start.value));
          list := list[..i] + list[i + 1..];
          return;
        }
        i := i + 1;
      }
      found := None;
    }

    method Allocate(l: Layout) returns (a: Answer)
      requires ValidLayout(l)
      modifies this
      ensures (list, a) == Alloc(old(list), l)
    {
      var adjusted := AdjustLayout(l);
      if adjusted.None? {
        return Panic;
      }
      var r := adjusted.value;
      var found := FindSuitableBlock(r);
      if found.None? {
        return Null;
      }
      var (block, start) := found.value;
      var end := start + r.size;
      var left := block.End() - end;
      if left > 0 {
        var ok := AddFreeBlock(end, left);
        if !ok {
          return Panic;
        }
      }
      return Pointer(start);
    }

    method Deallocate(address: nat, l: Layout) returns (ok: bool)
      modifies this
      ensures (list, ok) == Dealloc(old(list), address, l)
    {
      var adjusted := AdjustLayout(l);
      if adjusted.None? {
        return false;
      }
      ok := AddFreeBlock(address, adjusted.value.size);
    }
  }

  // ---------------------------------------------------------------------------------------
  // Safety
  // ---------------------------------------------------------------------------------------

  /** The heap between two addresses, with the allocations its users hold. */
  datatype Heap = Heap(lo: nat, hi: nat, list: seq<Block>, live: seq<Allocation>)

  function Size(l: Layout): nat
  {
    match AdjustLayout(l)
    case None => 0
    case Some(r) => r.size
  }

  function BlockOf(a: Allocation): Block
  {
    Block(a.start, Size(a.layout))
  }

  function Live(live: seq<Allocation>): (bs: seq<Block>)
    ensures |bs| == |live| && forall i :: 0 <= i < |bs| ==> bs[i] == BlockOf(live[i])
  {
    seq(|live|, i requires 0 <= i < |live| => BlockOf(live[i]))
  }

  /** An allocation of a layout the heap accepts, aligned for it. */
  predicate Proper(a: Allocation)
  {
    ValidLayout(a.layout) && Adjustable(a.layout) && a.start % Pow2(NodeShift(a.layout)) == 0
  }

  predicate FreeBlock(b: Block)
  {
    b.start % Pow2(NODE_SHIFT) == 0 && b.size >= NODE_SIZE
  }

  /** At most one free block; free and live blocks aligned, inside the heap and pairwise disjoint. */
  ghost predicate Safe(h: Heap)
  {
    && 0 < h.lo <= h.hi < WORDS && |h.list| <= 1
    && AllWithin(h.list, h.lo, h.hi) && AllWithin(Live(h.live), h.lo, h.hi)
    && AllApart(Live(h.live))
    && (forall f <- h.list :: FreeBlock(f) && forall b <- Live(h.live) :: Apart(f, b))
    && (forall a <- h.live :: Proper(a))
  }

  /** Rounding the address up to this alignment passes the end of the address space. */
  predicate Wraps(address: nat, shift: nat)
  {
    address + Pow2(shift) > WORDS
  }

  lemma AlignedFacts(address: nat, shift: nat)
    requires address < WORDS && shift < WORD_BITS
    ensures !Wraps(address, shift) ==> LeastMultiple(Aligned(address, shift), address, Pow2(shift))
    ensures Wraps(address, shift) ==> Aligned(address, shift) == 0
  {
    Pow2InWord(shift);
    AlignUpExact(address, shift);
  }

  lemma AlreadyAligned(address: nat, shift: nat)
    requires address < WORDS && shift < WORD_BITS && address % Pow2(shift) == 0
    ensures Aligned(address, shift) == address && !Wraps(address, shift)
  {
    AlignedFacts(address, shift);
    WordIsPow2();
    Pow2Divides(shift, WORD_BITS);
    MultiplesApart(address, WORDS, Pow2(shift));
  }

  /** The assertions on a free block say what they mean. */
  lemma UsableMeans(address: nat, size: nat)
    requires 0 < address < WORDS
    ensures Usable(address, size) <==> address % Pow2(NODE_SHIFT) == 0 && size >= NODE_SIZE
  {
    AlignedFacts(address, NODE_SHIFT);
    if address % Pow2(NODE_SHIFT) == 0 {
      AlreadyAligned(address, NODE_SHIFT);
    }
  }

  lemma SumMultiple(x: nat, y: nat, d: nat)
    requires d > 0 && x % d == 0 && y % d == 0
    ensures (x + y) % d == 0
  {
    assert x == d * (x / d) && y == d * (y / d);
    assert x + y == d * (x / d + y / d);
    ProductMod(x / d + y / d, d);
  }

  /** Adjusted sizes are node sizes or more, and whole numbers of node alignments. */
  lemma AdjustedSize(l: Layout)
    requires ValidLayout(l) && Adjustable(l)
    ensures Size(l) >= NODE_SIZE && Size(l) >= l.size && Size(l) % Pow2(NODE_SHIFT) == 0
  {
    var align := Pow2(NodeShift(l));
    RoundUpFacts(l.size, align);
    CoarserMultiple(RoundUp(l.size, align), NODE_SHIFT, NodeShift(l));
    assert Pow2(NODE_SHIFT) == 8;
  }

  lemma ReleaseBlock(h: Heap, i: nat)
    requires Safe(h) && i < |h.live|
    ensures Dealloc(h.list, h.live[i].start, h.live[i].layout) == ([BlockOf(h.live[i])], true)
    ensures FreeBlock(BlockOf(h.live[i]))
  {
    var a := h.live[i];
    assert a in h.live && Proper(a);
    assert Live(h.live)[i] in Live(h.live);
    AdjustedSize(a.layout);
    CoarserMultiple(a.start, NODE_SHIFT, NodeShift(a.layout));
    UsableMeans(a.start, Size(a.layout));
  }

  /** Where an allocation of this layout from block b starts and ends, and what is left behind it. */
  function StartIn(b: Block, l: Layout): nat
    requires l.shift < WORD_BITS
  {
    Aligned(b.start, NodeShift(l))
  }

  function EndIn(b: Block, l: Layout): nat
    requires l.shift < WORD_BITS
  {
    StartIn(b, l) + Size(l)
  }

  /** A block fits a layout exactly if, from the least aligned address in it, the adjusted size ends at the
      block's end or leaves room for a node. */
  lemma FitsIff(b: Block, l: Layout, start: nat)
    requires Adjustable(l) && ValidLayout(l) && b.start < WORDS && b.End() < WORDS && !Wraps(b.start, NodeShift(l))
    requires LeastMultiple(start, b.start, Pow2(NodeShift(l)))
    ensures AllocateFromBlock(b, AdjustLayout(l).value) ==
            if start + Size(l) == b.End() || start + Size(l) + NODE_SIZE <= b.End() then Some(start) else None
  {
    AlignedFacts(b.start, NodeShift(l));
  }

  /** The rest of a block that an allocation leaves is empty or can hold a node. */
  lemma RestUsable(h: Heap, l: Layout)
    requires Safe(h) && ValidLayout(l) && Adjustable(l) && |h.list| == 1
    requires AllocateFromBlock(h.list[0], AdjustLayout(l).value).Some?
    ensures var b := h.list[0];
            && StartIn(b, l) % Pow2(NodeShift(l)) == 0 && EndIn(b, l) <= b.End() < WORDS
            && (EndIn(b, l) < b.End() ==>
                  Usable(EndIn(b, l), b.End() - EndIn(b, l)) && FreeBlock(Block(EndIn(b, l), b.End() - EndIn(b, l))))
  {
    var b := h.list[0];
    assert b in h.list && FreeBlock(b);
    AlignedFacts(b.start, NodeShift(l));
    AdjustedSize(l);
    CoarserMultiple(StartIn(b, l), NODE_SHIFT, NodeShift(l));
    SumMultiple(StartIn(b, l), Size(l), Pow2(NODE_SHIFT));
    if EndIn(b, l) < b.End() {
      UsableMeans(EndIn(b, l), b.End() - EndIn(b, l));
    }
  }

  /** The outcome of an allocation in a safe heap: a panic exactly for a layout that cannot be
      adjusted; a pointer exactly if the free block fits, and then the block's rest is the new free
      block; otherwise nothing changes. */
  lemma AllocOutcome(h: Heap, l: Layout)
    requires Safe(h) && ValidLayout(l)
    ensures Alloc(h.list, l).1.Panic? <==> !Adjustable(l)
    ensures Alloc(h.list, l).1.Pointer? <==>
            Adjustable(l) && |h.list| == 1 && AllocateFromBlock(h.list[0], AdjustLayout(l).value).Some?
    ensures !Alloc(h.list, l).1.Pointer? ==> Alloc(h.list, l).0 == h.list
    ensures Alloc(h.list, l).1.Pointer? ==>
              var b := h.list[0];
              var end := EndIn(b, l);
              && Alloc(h.list, l).1.start == StartIn(b, l)
              && Alloc(h.list, l).0 == if end < b.End() then [Block(end, b.End() - end)] else []
  {
    if Adjustable(l) && |h.list| == 1 && AllocateFromBlock(h.list[0], AdjustLayout(l).value).Some? {
      RestUsable(h, l);
      assert Removed(h.list, 0) == [];
    }
  }

  /** An allocation for which rounding the free block's start wraps around and the size alone fits
      below the block's end: address 0 is handed out. */
  predicate HandsOutZero(h: Heap, op: HeapOp)
  {
    && op.Allocate? && |h.list| == 1 && Wraps(h.list[0].start, NodeShift(op.layout))
    && var size, end := Size(op.layout), h.list[0].End();
       size == end || size + NODE_SIZE <= end
  }

  ghost predicate Next(h: Heap, op: HeapOp, h': Heap)
  {
    match op
    case Allocate(l) =>
      && ValidLayout(l) && Adjustable(l)
      && var (list, a) := Alloc(h.list, l);
         h' == h.(list := list, live := if a.Pointer? then h.live + [Allocation(a.start, l)] else h.live)
    case Release(i) =>
      && i < |h.live|
      && h' == h.(list := Dealloc(h.list, h.live[i].start, h.live[i].layout).0, live := Removed(h.live, i))
  }

  lemma GrownLive(h: Heap, a: Allocation)
    requires AllApart(Live(h.live)) && forall b <- Live(h.live) :: Apart(b, BlockOf(a))
    ensures AllApart(Live(h.live + [a]))
    ensures forall b <- Live(h.live + [a]) :: b in Live(h.live) || b == BlockOf(a)
  {
    var bs, bs' := Live(h.live), Live(h.live + [a]);
    forall i, j | 0 <= i < j < |bs'|
      ensures Apart(bs'[i], bs'[j])
    {
      assert bs'[i] == bs[i] && bs[i] in bs;
      assert j < |bs| ==> bs'[j] == bs[j];
    }
  }

  lemma FitSafe(h: Heap, l: Layout, h': Heap)
    requires Safe(h) && Next(h, Allocate(l), h') && Alloc(h.list, l).1.Pointer?
    requires |h.list| == 1 && !Wraps(h.list[0].start, NodeShift(l))
    ensures Safe(h')
  {
    AllocOutcome(h, l);
    RestUsable(h, l);
    var f := h.list[0];
    AlignedFacts(f.start, NodeShift(l));
    var a := Allocation(StartIn(f, l), l);
    assert f in h.list;
    forall b | b in Live(h.live)
      ensures Apart(b, BlockOf(a)) && forall g <- h'.list :: Apart(g, b)
    {
      assert Apart(f, b);
    }
    GrownLive(h, a);
  }

  /** Allocating keeps the heap safe exactly unless it hands out address 0. */
  lemma AllocSafeIff(h: Heap, l: Layout, h': Heap)
    requires Safe(h) && Next(h, Allocate(l), h')
    ensures Safe(h') <==> !HandsOutZero(h, Allocate(l))
  {
    AllocOutcome(h, l);
    if |h.list| == 1 {
      var f := h.list[0];
      assert f in h.list;
      AlignedFacts(f.start, NodeShift(l));
      if !Wraps(f.start, NodeShift(l)) {
        if Alloc(h.list, l).1.Pointer? {
          FitSafe(h, l, h');
        }
      } else if HandsOutZero(h, Allocate(l)) {
        assert Live(h'.live)[|h.live|] == Block(0, Size(l)) && Live(h'.live)[|h.live|] in Live(h'.live);
      }
    }
  }

  lemma ShrunkLive(live: seq<Allocation>, i: nat)
    requires i < |live| && AllApart(Live(live))
    ensures AllApart(Live(Removed(live, i)))
    ensures forall b <- Live(Removed(live, i)) :: b in Live(live) && Apart(BlockOf(live[i]), b)
    ensures forall a <- Removed(live, i) :: a in live
  {
    var bs, bs' := Live(live), Live(Removed(live, i));
    assert forall k :: 0 <= k < |bs'| ==> bs'[k] == bs[if k < i then k else k + 1];
    forall b | b in bs'
      ensures b in bs && Apart(bs[i], b)
    {
      var k :| 0 <= k < |bs'| && bs'[k] == b;
      assert bs[if k < i then k else k + 1] == b;
    }
  }

  lemma ReleaseSafe(h: Heap, i: nat, h': Heap)
    requires Safe(h) && Next(h, Release(i), h')
    ensures Safe(h')
  {
    ReleaseBlock(h, i);
    ShrunkLive(h.live, i);
    assert Live(h.live)[i] in Live(h.live);
  }

  lemma StepSafeIff(h: Heap, op: HeapOp, h': Heap)
    requires Safe(h) && Next(h, op, h')
    ensures Safe(h') <==> !HandsOutZero(h, op)
  {
    match op
    case Allocate(l) => AllocSafeIff(h, l, h');
    case Release(i) => ReleaseSafe(h, i, h');
  }

  /** Over every run of allocations and releases, free and live blocks stay pairwise disjoint, aligned
      and in the heap, with at most one block free, exactly if no allocation hands out address 0. */
  lemma ListRunSafeIff(heaps: seq<Heap>, ops: seq<HeapOp>, n: nat)
    requires Run(Next, heaps, ops) && Safe(heaps[0]) && n <= |ops|
    ensures (forall k :: 0 <= k <= n ==> Safe(heaps[k])) <==> Unbroken(HandsOutZero, heaps, ops, 0, n)
  {
    forall h, op, h' | Safe(h) && Next(h, op, h')
      ensures Safe(h') <==> !HandsOutZero(h, op)
    {
      StepSafeIff(h, op, h');
    }
    KeptUnless(Next, HandsOutZero, Safe, heaps, ops, n);
  }

  ghost predicate LowAndSafe(h: Heap)
  {
    Safe(h) && h.hi <= HALF
  }

  /** Below the middle of the address space no alignment can wrap around. */
  lemma LowNeverWraps(h: Heap, op: HeapOp, h': Heap)
    requires LowAndSafe(h) && Next(h, op, h')
    ensures LowAndSafe(h') && !HandsOutZero(h, op)
  {
    if op.Allocate? && |h.list| == 1 {
      assert h.list[0] in h.list;
      Pow2InWord(NodeShift(op.layout));
    }
    StepSafeIff(h, op, h');
  }

  /** So a heap in the lower half of the address space is safe in every run. */
  lemma LowRunSafe(heaps: seq<Heap>, ops: seq<HeapOp>, n: nat)
    requires Run(Next, heaps, ops) && LowAndSafe(heaps[0]) && n <= |ops|
    ensures Safe(heaps[n])
  {
    forall h, op, h' | LowAndSafe(h) && Next(h, op, h')
      ensures LowAndSafe(h')
    {
      LowNeverWraps(h, op, h');
    }
    Always(Next, LowAndSafe, heaps, ops, n);
  }

  /** The failing case exists: a heap at the top of the address space. */
  lemma WrapHandsOutZero()
    ensures var l := Layout(16, 13);
            var h := Heap(WORDS - 4096, WORDS - 16, [Block(WORDS - 4096, 4080)], []);
            Safe(h) && ValidLayout(l) && Adjustable(l) && Alloc(h.list, l).1 == Pointer(0)
  {
    var l := Layout(16, 13);
    var h := Heap(WORDS - 4096, WORDS - 16, [Block(WORDS - 4096, 4080)], []);
    assert Pow2(8) == 256;
    Pow2Plus(8, 5);
    assert Pow2(13) == 8192;
    assert RoundUp(16, 8192) == 8192;
    assert Pow2(NODE_SHIFT) == 8;
    AlignedFacts(WORDS - 4096, 13);
    AllocOutcome(h, l);
  }

  /** No assertion fires in a safe state: an allocation panics exactly when the layout cannot be
      widened to a node's alignment, and a release never does. */
  lemma PanicsIff(h: Heap, l: Layout, i: nat)
    requires Safe(h) && ValidLayout(l)
    ensures Alloc(h.list, l).1.Panic? <==> !Adjustable(l)
    ensures i < |h.live| ==> Dealloc(h.list, h.live[i].start, h.live[i].layout).1
  {
    AllocOutcome(h, l);
    if i < |h.live| {
      ReleaseBlock(h, i);
    }
  }

  lemma InitialSafe(lo: nat, size: nat)
    requires 0 < lo && lo + size < WORDS && Usable(lo, size)
    ensures Safe(Heap(lo, lo + size, [Block(lo, size)], []))
  {
    UsableMeans(lo, size);
  }

  // ---------------------------------------------------------------------------------------
  // Free bytes
  // ---------------------------------------------------------------------------------------

  function FreeBytes(list: seq<Block>): nat
  {
    if list == [] then 0 else FreeBytes(list[..|list| - 1]) + list[|list| - 1].size
  }

  lemma OneBlock(b: Block)
    ensures FreeBytes([b]) == b.size && FreeBytes([]) == 0
  {
    assert [b][..0] == [];
  }

  /** Releasing a block gives its bytes back exactly when nothing was free; otherwise the bytes that
      were free are lost. */
  lemma ReleaseConservesIff(h: Heap, i: nat, h': Heap)
    requires Safe(h) && Next(h, Release(i), h')
    ensures FreeBytes(h'.list) == FreeBytes(h.list) + Size(h.live[i].layout) <==> h.list == []
  {
    ReleaseBlock(h, i);
    OneBlock(BlockOf(h.live[i]));
    if h.list != [] {
      assert h.list == [h.list[0]] && h.list[0] in h.list;
      OneBlock(h.list[0]);
    }
  }

  /** Allocating takes exactly the bytes of the block exactly when the free block was already aligned
      for it; otherwise the bytes in front of it are lost as well. */
  lemma AllocConservesIff(h: Heap, l: Layout, h': Heap)
    requires Safe(h) && Next(h, Allocate(l), h') && |h'.live| > |h.live|
    ensures |h.list| == 1
    ensures FreeBytes(h'.list) + Size(l) == FreeBytes(h.list) <==> h.list[0].start % Pow2(NodeShift(l)) == 0
  {
    AllocOutcome(h, l);
    var b := h.list[0];
    assert h.list == [b] && b in h.list;
    OneBlock(b);
    AlignedFacts(b.start, NodeShift(l));
    if b.start % Pow2(NodeShift(l)) == 0 {
      AlreadyAligned(b.start, NodeShift(l));
    }
    if h'.list != [] {
      OneBlock(h'.list[0]);
    }
  }

  /** The loss is reachable: one block of 16 bytes is taken from a fresh heap of 4096 and released, and
      16 bytes are free. */
  lemma BytesAreLost() returns (h0: Heap, h1: Heap, h2: Heap)
    ensures h0 == Heap(4096, 8192, [Block(4096, 4096)], []) && Safe(h0)
    ensures Next(h0, Allocate(Layout(16, 3)), h1) && Next(h1, Release(0), h2)
    ensures h2.live == h0.live && FreeBytes(h0.list) == 4096 && FreeBytes(h2.list) == 16
  {
    var l := Layout(16, 3);
    assert Pow2(3) == 8;
    assert RoundUp(16, 8) == 16;
    h0 := Heap(4096, 8192, [Block(4096, 4096)], []);
    AlreadyAligned(4096, 3);
    InitialSafe(4096, 4096);
    assert AllocateFromBlock(h0.list[0], AdjustLayout(l).value) == Some(4096);
    AllocOutcome(h0, l);
    h1 := h0.(list := [Block(4112, 4080)], live := [Allocation(4096, l)]);
    FitSafe(h0, l, h1);
    ReleaseBlock(h1, 0);
    h2 := h1.(list := [Block(4096, 16)], live := Removed(h1.live, 0));
    OneBlock(Block(4096, 4096));
    OneBlock(Block(4096, 16));
  }
}
