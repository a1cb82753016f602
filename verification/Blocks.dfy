/**
 Blocks of memory, layouts, and the runs of allocations and releases the heaps are subject to.
 */
module Blocks {
  import opened Alignment

  /** A size and a power-of-two alignment. */
  datatype Layout = Layout(size: nat, shift: nat)
  {
    function Align(): (r: nat)
      ensures r > 0
    {
      Pow2(shift)
    }
  }

  function RoundUp(size: nat, align: nat): nat
    requires align > 0
  {
    (size + align - 1) / align * align
  }

  /** What a layout promises: rounded up to its alignment, the size does not exceed the largest
      signed 64-bit number. */
  predicate ValidLayout(l: Layout)
  {
    l.shift < WORD_BITS && RoundUp(l.size, l.Align()) < HALF
  }

  datatype Block = Block(start: nat, size: nat)
  {
    function End(): nat
    {
      start + size
    }
  }

  predicate Apart(a: Block, b: Block)
  {
    a.End() <= b.start || b.End() <= a.start
  }

  ghost predicate AllApart(bs: seq<Block>)
  {
    forall i, j :: 0 <= i < j < |bs| ==> Apart(bs[i], bs[j])
  }

  ghost predicate AllWithin(bs: seq<Block>, lo: nat, hi: nat)
  {
    forall b <- bs :: lo <= b.start && b.End() <= hi
  }

  /** A block handed out and not yet released. */
  datatype Allocation = Allocation(start: nat, layout: Layout)

  datatype HeapOp = Allocate(layout: Layout) | Release(index: nat)

  function Removed<T>(s: seq<T>, i: nat): seq<T>
    requires i < |s|
  {
    s[..i] + s[i + 1..]
  }

  lemma RoundUpFacts(size: nat, align: nat)
    requires align > 0
    ensures RoundUp(size, align) % align == 0 && size <= RoundUp(size, align) < size + align
  {
    var n := size + align - 1;
    RoundedDown(n, align);
    assert n - n % align == n / align * align;
  }
}
