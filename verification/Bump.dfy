/**
 The bump heap: allocation moves one pointer up, and releasing the last block moves it back to the
 start.
 */
module Bump {
  import opened Options
  import opened Runs
  import opened Alignment
  import opened Blocks

  datatype Bump = Bump(heapStart: nat, heapEnd: nat, nextFree: nat, count: nat)

  function Initial(heapStart: nat, heapSize: nat): Bump
  {
    Bump(heapStart, if heapStart + heapSize < WORDS then heapStart + heapSize else WORDS - 1, heapStart, 0)
  }

  /** Where the next block of this layout would start. */
  function NextStart(b: Bump, l: Layout): nat
    requires ValidLayout(l)
  {
    Pow2InWord(l.shift);
    AlignUp(b.nextFree, l.Align())
  }

  function Alloc(b: Bump, l: Layout): (Bump, Option<nat>)
    requires ValidLayout(l)
  {
    var start := NextStart(b, l);
    var end := start + l.size;
    if end >= WORDS || end > b.heapEnd then (b, None)
    else (b.(nextFree := end, count := b.count + 1), Some(start))
  }

  function Dealloc(b: Bump): Bump
    requires b.count > 0
  {
    b.(count := b.count - 1, nextFree := if b.count == 1 then b.heapStart else b.nextFree)
  }

  class BumpAllocator {
    var heapStart: nat
    var heapEnd: nat
    var nextFree: nat
    var allocationCount: nat

    function View(): Bump
      reads this
    {
      Bump(heapStart, heapEnd, nextFree, allocationCount)
    }

    constructor ()
      ensures View() == Bump(0, 0, 0, 0)
    {
      heapStart, heapEnd, nextFree, allocationCount := 0, 0, 0, 0;
    }

    method Init(start: nat, size: nat)
      modifies this
      ensures View() == Initial(start, size).(count := old(allocationCount))
      ensures 0 < start < WORDS && old(allocationCount) == 0 ==> Safe(Heap(View(), []))
    {
      heapStart := start;
      heapEnd := if start + size < WORDS then start + size else WORDS - 1;
      nextFree := start;
      if 0 < start < WORDS {
        InitialSafe(start, size);
      }
    }

    method Allocate(l: Layout) returns (p: Option<nat>)
      requires ValidLayout(l)
      modifies this
      ensures (View(), p) == Alloc(old(View()), l)
    {
      Pow2InWord(l.shift);
      var start := AlignUp(nextFree, l.Align());
      var end := start + l.size;
      if end >= WORDS {
        return None;
      }
      if end > heapEnd {
        p := None;
      } else {
        nextFree := end;
        allocationCount := allocationCount + 1;
        p := Some(start);
      }
    }

    method Deallocate()
      requires allocationCount > 0
      modifies this
      ensures View() == Dealloc(old(View()))
    {
      allocationCount := allocationCount - 1;
      if allocationCount == 0 {
        nextFree := heapStart;
      }
    }
  }

  // ---------------------------------------------------------------------------------------
  // Runs
  // ---------------------------------------------------------------------------------------

  /** The heap together with the allocations its users hold. */
  datatype Heap = Heap(bump: Bump, live: seq<Allocation>)

  ghost predicate Next(h: Heap, op: HeapOp, h': Heap)
  {
    match op
    case Allocate(l) =>
      && ValidLayout(l)
      && var (b, p) := Alloc(h.bump, l);
         h' == Heap(b, if p.Some? then h.live + [Allocation(p.value, l)] else h.live)
    case Release(i) =>
      && i < |h.live| && h.bump.count > 0
      && h' == Heap(Dealloc(h.bump), Removed(h.live, i))
  }

  function BlocksOf(live: seq<Allocation>): (bs: seq<Block>)
    ensures |bs| == |live| && forall i :: 0 <= i < |bs| ==> bs[i] == Block(live[i].start, live[i].layout.size)
  {
    seq(|live|, i requires 0 <= i < |live| => Block(live[i].start, live[i].layout.size))
  }

  ghost predicate Aligned(live: seq<Allocation>)
  {
    forall a <- live :: a.start % a.layout.Align() == 0
  }

  /** The allocation count is the number of live blocks; they are disjoint, aligned, and lie between
      the start of the heap and the next free address, which is within the heap. */
  ghost predicate Safe(h: Heap)
  {
    && h.bump.count == |h.live|
    && 0 < h.bump.heapStart <= h.bump.nextFree <= h.bump.heapEnd < WORDS
    && AllWithin(BlocksOf(h.live), h.bump.heapStart, h.bump.nextFree)
    && AllApart(BlocksOf(h.live)) && Aligned(h.live)
  }

  /** Rounding the next free address up to this alignment passes the end of the address space. */
  predicate Wraps(b: Bump, l: Layout)
  {
    b.nextFree + l.Align() > WORDS
  }

  lemma NextStartFacts(b: Bump, l: Layout)
    requires b.nextFree < WORDS && ValidLayout(l)
    ensures !Wraps(b, l) ==> LeastMultiple(NextStart(b, l), b.nextFree, l.Align())
    ensures Wraps(b, l) ==> NextStart(b, l) == 0
  {
    Pow2InWord(l.shift);
    AlignUpExact(b.nextFree, l.shift);
  }

  lemma FitsSafe(h: Heap, l: Layout, h': Heap)
    requires Safe(h) && Next(h, Allocate(l), h') && !Wraps(h.bump, l)
    ensures Safe(h')
  {
    NextStartFacts(h.bump, l);
    var bs, bs' := BlocksOf(h.live), BlocksOf(h'.live);
    forall b | b in bs'
      ensures h'.bump.heapStart <= b.start && b.End() <= h'.bump.nextFree
    {
      assert b in bs || b == bs'[|bs'| - 1];
    }
    forall i, j | 0 <= i < j < |bs'|
      ensures Apart(bs'[i], bs'[j])
    {
      assert bs'[i] == bs[i];
      assert bs[i] in bs;
      assert j < |bs| ==> bs'[j] == bs[j];
    }
  }

  /** An allocation for which rounding wraps around and the size alone fits below the heap's end:
      address 0 is handed out. */
  predicate HandsOutZero(h: Heap, op: HeapOp)
  {
    op.Allocate? && Wraps(h.bump, op.layout) && op.layout.size <= h.bump.heapEnd
  }

  /** Allocating keeps the heap safe exactly unless it hands out address 0. */
  lemma AllocSafeIff(h: Heap, l: Layout, h': Heap)
    requires Safe(h) && Next(h, Allocate(l), h')
    ensures Safe(h') <==> !HandsOutZero(h, Allocate(l))
  {
    NextStartFacts(h.bump, l);
    if !Wraps(h.bump, l) {
      FitsSafe(h, l, h');
    } else if l.size <= h.bump.heapEnd {
      var bs' := BlocksOf(h'.live);
      assert bs'[|h.live|] == Block(0, l.size) && bs'[|h.live|] in bs';
    }
  }

  /** The failing case exists: a heap that ends at the top of the address space. */
  lemma WrapHandsOutZero()
    ensures var b := Initial(WORDS - 8, 8);
            var l := Layout(1, 4);
            Safe(Heap(b, [])) && ValidLayout(l) && Alloc(b, l).1 == Some(0)
  {
    var b, l := Initial(WORDS - 8, 8), Layout(1, 4);
    assert Pow2(4) == 16;
    assert RoundUp(1, 16) == 16;
    NextStartFacts(b, l);
  }

  lemma ReleaseSafe(h: Heap, i: nat, h': Heap)
    requires Safe(h) && Next(h, Release(i), h')
    ensures Safe(h')
  {
    var bs, bs' := BlocksOf(h.live), BlocksOf(h'.live);
    assert forall k :: 0 <= k < |bs'| ==> bs'[k] == bs[if k < i then k else k + 1];
    forall b | b in bs'
      ensures b in bs
    {
      var k :| 0 <= k < |bs'| && bs'[k] == b;
      assert bs[if k < i then k else k + 1] == b;
    }
    if h.bump.count == 1 {
      assert bs' == [];
    }
  }

  lemma StepSafeIff(h: Heap, op: HeapOp, h': Heap)
    requires Safe(h) && Next(h, op, h')
    ensures Safe(h') <==> !HandsOutZero(h, op)
  {
    match op
    case Allocate(l) => AllocSafeIff(h, l, h');
    case Release(i) => ReleaseSafe(h, i, h');
  }

  /** Over every run of allocations and releases, live blocks stay disjoint, aligned and in the heap,
      and the count stays their number, across any number of resets to the start, exactly if no
      allocation hands out address 0. */
  lemma BumpRunSafeIff(heaps: seq<Heap>, ops: seq<HeapOp>, n: nat)
    requires Run(Next, heaps, ops) && Safe(heaps[0]) && n <= |ops|
    ensures (forall k :: 0 <= k <= n ==> Safe(heaps[k])) <==> Unbroken(HandsOutZero, heaps, ops, 0, n)
  {
    forall h, op, h' | Safe(h) && Next(h, op, h')
      ensures Safe(h') <==> !HandsOutZero(h, op)
    {
      StepSafeIff(h, op, h');
    }
    KeptUnless(Next, HandsOutZero, Safe, heaps, ops, n);
  }

  ghost predicate LowAndSafe(h: Heap)
  {
    Safe(h) && h.bump.heapEnd <= HALF
  }

  /** Below the middle of the address space no alignment can wrap around. */
  lemma LowNeverWraps(h: Heap, op: HeapOp, h': Heap)
    requires LowAndSafe(h) && Next(h, op, h')
    ensures LowAndSafe(h') && !HandsOutZero(h, op)
  {
    if op.Allocate? {
      Pow2InWord(op.layout.shift);
    }
    StepSafeIff(h, op, h');
  }

  /** So a heap in the lower half of the address space is safe in every run. */
  lemma LowRunSafe(heaps: seq<Heap>, ops: seq<HeapOp>, n: nat)
    requires Run(Next, heaps, ops) && LowAndSafe(heaps[0]) && n <= |ops|
    ensures Safe(heaps[n])
  {
    forall h, op, h' | LowAndSafe(h) && Next(h, op, h')
      ensures LowAndSafe(h')
    {
      LowNeverWraps(h, op, h');
    }
    Always(Next, LowAndSafe, heaps, ops, n);
  }

  lemma InitialSafe(heapStart: nat, heapSize: nat)
    requires 0 < heapStart < WORDS
    ensures Safe(Heap(Initial(heapStart, heapSize), []))
  {}

  /** A safe heap hands out the least aligned address at or after the next free one, and refuses exactly
      when that leaves too little room. */
  lemma RefusesIff(h: Heap, l: Layout, start: nat)
    requires Safe(h) && ValidLayout(l) && !Wraps(h.bump, l) && LeastMultiple(start, h.bump.nextFree, l.Align())
    ensures Alloc(h.bump, l).1 == if start + l.size > h.bump.heapEnd then None else Some(start)
  {
    NextStartFacts(h.bump, l);
  }

  /** After the last block has been released, an allocation gets the least aligned address from the
      start of the heap, if it fits at all; before that, releasing gives no space back. */
  lemma RestartsWhenEmpty(h: Heap, i: nat, h': Heap, l: Layout, start: nat)
    requires Safe(h) && Next(h, Release(i), h') && ValidLayout(l) && !Wraps(h'.bump, l)
    requires LeastMultiple(start, if |h.live| == 1 then h.bump.heapStart else h.bump.nextFree, l.Align())
    ensures Alloc(h'.bump, l).1 == if start + l.size > h.bump.heapEnd then None else Some(start)
  {
    ReleaseSafe(h, i, h');
    RefusesIff(h', l, start);
  }
}
