/**
 The fixed-size-block heap: nine classes of blocks, each with its own free list, over a fallback heap
 that is asked for new blocks and for layouts too large for any class.
 */
module FixedBlocks {
  import opened Options
  import opened Runs
  import opened Alignment
  import opened Blocks

  const BLOCK_SIZES: seq<nat> := [8, 16, 32, 64, 128, 256, 512, 1024, 2048]
  const CLASSES: nat := 9

  function ClassSize(i: nat): nat
  {
    if i < CLASSES then BLOCK_SIZES[i] else 0
  }

  function Needed(l: Layout): nat
  {
    if l.size < l.Align() then l.Align() else l.size
  }

  function FirstClass(needed: nat, i: nat): (r: Option<nat>)
    requires i <= CLASSES
    ensures r.Some? ==> i <= r.value < CLASSES && ClassSize(r.value) >= needed
    ensures forall k :: i <= k < (if r.Some? then r.value else CLASSES) ==> ClassSize(k) < needed
    decreases CLASSES - i
  {
    if i == CLASSES then None
    else if ClassSize(i) >= needed then Some(i)
    else FirstClass(needed, i + 1)
  }

  /** The smallest class whose blocks are as large as the layout's size and alignment. */
  function FindBlockIndex(l: Layout): (r: Option<nat>)
    ensures r.Some? ==> r.value < CLASSES && ClassSize(r.value) >= l.size && ClassSize(r.value) >= l.Align()
    ensures forall k :: 0 <= k < (if r.Some? then r.value else CLASSES) ==>
              ClassSize(k) < l.size || ClassSize(k) < l.Align()
  {
    FirstClass(Needed(l), 0)
  }

  /** The layout the fallback heap is asked for, if it is asked. */
  function Asked(lists: seq<seq<nat>>, l: Layout): Option<Layout>
    requires |lists| == CLASSES
  {
    match FindBlockIndex(l)
    case None => Some(l)
    case Some(i) => if lists[i] != [] then None else Some(Layout(ClassSize(i), i + 3))
  }

  /** `granted` is the fallback heap's answer. */
  function Alloc(lists: seq<seq<nat>>, l: Layout, granted: Option<nat>): (seq<seq<nat>>, Option<nat>)
    requires |lists| == CLASSES
  {
    match FindBlockIndex(l)
    case None => (lists, granted)
    case Some(i) => if lists[i] != [] then (lists[i := lists[i][1..]], Some(lists[i][0])) else (lists, granted)
  }

  function Dealloc(lists: seq<seq<nat>>, p: nat, l: Layout): seq<seq<nat>>
    requires |lists| == CLASSES
  {
    match FindBlockIndex(l)
    case None => lists
    case Some(i) => lists[i := [p] + lists[i]]
  }

  class FixedSizeBlockAllocator {
    var lists: seq<seq<nat>>

    constructor ()
      ensures lists == seq(CLASSES, i => []) && Partitioned(Heap(lists, [], []))
    {
      lists := seq(CLASSES, i => []);
      new;
      InitialPartitioned();
    }

    method Allocate(l: Layout, granted: Option<nat>) returns (p: Option<nat>)
      requires |lists| == CLASSES
      modifies this
      ensures (lists, p) == Alloc(old(lists), l, granted)
    {
      var index := FindBlockIndex(l);
      if index.None? {
        return granted;
      }
      var list := lists[index.value];
      if list == [] {
        return granted;
      }
      lists := lists[index.value := list[1..]];
      return Some(list[0]);
    }

    /** The result is the release passed on to the fallback heap, if any. */
    method Deallocate(p: nat, l: Layout) returns (passedOn: Option<Allocation>)
      requires |lists| == CLASSES
      modifies this
      ensures lists == Dealloc(old(lists), p, l)
      ensures passedOn == if FindBlockIndex(l).None? then Some(Allocation(p, l)) else None
    {
      var index := FindBlockIndex(l);
      if index.None? {
        return Some(Allocation(p, l));
      }
      lists := lists[index.value := [p] + lists[index.value]];
      return None;
    }
  }

  /** A released block is the next one handed out to a layout of its class, whatever the fallback heap would
      answer, and then the lists are as before; and a class without free blocks hands out the answer. */
  lemma ReleasedComesBack(lists: seq<seq<nat>>, p: nat, l: Layout, l': Layout, granted: Option<nat>)
    requires |lists| == CLASSES && FindBlockIndex(l).Some? && FindBlockIndex(l') == FindBlockIndex(l)
    ensures Alloc(Dealloc(lists, p, l), l', granted) == (lists, Some(p))
    ensures lists[FindBlockIndex(l).value] == [] ==> Alloc(lists, l, granted) == (lists, granted)
  {
    var i := FindBlockIndex(l).value;
    assert ([p] + lists[i])[1..] == lists[i];
    assert lists[i := [p] + lists[i]][i := lists[i]] == lists;
  }

  // ---------------------------------------------------------------------------------------
  // Grants
  // ---------------------------------------------------------------------------------------

  /** A block taken from the fallback heap, for a class or for one large layout. */
  datatype Grant = Grant(kind: Option<nat>, block: Block)

  function GrantOf(p: nat, l: Layout): Grant
  {
    match FindBlockIndex(l)
    case None => Grant(None, Block(p, l.size))
    case Some(i) => Grant(Some(i), Block(p, ClassSize(i)))
  }

  function LiveGrants(live: seq<Allocation>): (gs: seq<Grant>)
    ensures |gs| == |live| && forall k :: 0 <= k < |gs| ==> gs[k] == GrantOf(live[k].start, live[k].layout)
  {
    seq(|live|, k requires 0 <= k < |live| => GrantOf(live[k].start, live[k].layout))
  }

  function Tagged(i: nat, list: seq<nat>): (gs: seq<Grant>)
    ensures |gs| == |list| && forall k :: 0 <= k < |gs| ==> gs[k] == Grant(Some(i), Block(list[k], ClassSize(i)))
  {
    seq(|list|, k requires 0 <= k < |list| => Grant(Some(i), Block(list[k], ClassSize(i))))
  }

  /** The blocks on the free lists. */
  function FreeGrants(lists: seq<seq<nat>>): seq<Grant>
  {
    if lists == [] then [] else FreeGrants(lists[..|lists| - 1]) + Tagged(|lists| - 1, lists[|lists| - 1])
  }

  /** The heap with the allocations its users hold and all grants not returned to the fallback heap. */
  datatype Heap = Heap(lists: seq<seq<nat>>, live: seq<Allocation>, taken: seq<Grant>)

  function Held(h: Heap): seq<Grant>
  {
    LiveGrants(h.live) + FreeGrants(h.lists)
  }

  ghost predicate GrantsApart(gs: seq<Grant>)
  {
    forall i, j :: 0 <= i < j < |gs| ==> Apart(gs[i].block, gs[j].block)
  }

  predicate GoodGrant(g: Grant)
  {
    g.kind.Some? ==>
      g.kind.value < CLASSES && g.block.size == ClassSize(g.kind.value) && g.block.start % ClassSize(g.kind.value) == 0
  }

  /** Every grant is either live or on the free list of its own class, exactly once. */
  ghost predicate Partitioned(h: Heap)
  {
    && |h.lists| == CLASSES && multiset(h.taken) == multiset(Held(h))
    && GrantsApart(h.taken) && (forall g <- h.taken :: GoodGrant(g))
    && (forall a <- h.live :: a.start % a.layout.Align() == 0)
  }

  datatype Op = Take(layout: Layout, granted: Option<nat>) | Return(index: nat)

  /** What is assumed of the fallback heap: a block it grants is aligned as asked and does not overlap
      one it granted before and has not been given back. */
  ghost predicate Honest(h: Heap, l: Layout, granted: Option<nat>)
    requires |h.lists| == CLASSES
  {
    var asked := Asked(h.lists, l);
    asked.Some? && granted.Some? ==>
      && granted.value % asked.value.Align() == 0
      && forall g <- h.taken :: Apart(g.block, Block(granted.value, asked.value.size))
  }

  ghost predicate Next(h: Heap, op: Op, h': Heap)
  {
    |h.lists| == CLASSES &&
    match op
    case Take(l, granted) =>
      && Honest(h, l, granted)
      && var (lists, p) := Alloc(h.lists, l, granted);
         if p.None? then h' == h.(lists := lists)
         else h' == Heap(lists, h.live + [Allocation(p.value, l)],
                         if Asked(h.lists, l).Some? then h.taken + [GrantOf(p.value, l)] else h.taken)
    case Return(i) =>
      && i < |h.live|
      && var a := h.live[i];
         && h'.lists == Dealloc(h.lists, a.start, a.layout) && h'.live == Removed(h.live, i)
         && (if FindBlockIndex(a.layout).Some? then h'.taken == h.taken
             else exists k :: 0 <= k < |h.taken| && h.taken[k] == GrantOf(a.start, a.layout) &&
                            h'.taken == Removed(h.taken, k))
  }

  // ---------------------------------------------------------------------------------------
  // Bags
  // ---------------------------------------------------------------------------------------

  lemma RemovedBag<T>(s: seq<T>, i: nat)
    requires i < |s|
    ensures multiset(s) == multiset(Removed(s, i)) + multiset{s[i]}
  {
    assert s == s[..i] + [s[i]] + s[i + 1..];
  }

  lemma TaggedCons(i: nat, p: nat, list: seq<nat>)
    ensures Tagged(i, [p] + list) == [Grant(Some(i), Block(p, ClassSize(i)))] + Tagged(i, list)
  {}

  lemma {:induction false} PushCount(lists: seq<seq<nat>>, i: nat, p: nat, g: Grant)
    requires i < |lists|
    ensures multiset(FreeGrants(lists[i := [p] + lists[i]]))[g] ==
            multiset(FreeGrants(lists))[g] + if g == Grant(Some(i), Block(p, ClassSize(i))) then 1 else 0
    decreases |lists|
  {
    var n := |lists| - 1;
    var pushed := lists[i := [p] + lists[i]];
    if i == n {
      assert pushed[..n] == lists[..n];
      TaggedCons(i, p, lists[i]);
    } else {
      assert pushed[..n] == lists[..n][i := [p] + lists[i]];
      PushCount(lists[..n], i, p, g);
    }
  }

  /** Putting p on list i adds one free grant; taking it off removes it. */
  lemma PushGrant(lists: seq<seq<nat>>, i: nat, p: nat)
    requires i < |lists|
    ensures multiset(FreeGrants(lists[i := [p] + lists[i]])) ==
            multiset(FreeGrants(lists)) + multiset{Grant(Some(i), Block(p, ClassSize(i)))}
  {
    forall g: Grant
      ensures multiset(FreeGrants(lists[i := [p] + lists[i]]))[g] ==
              (multiset(FreeGrants(lists)) + multiset{Grant(Some(i), Block(p, ClassSize(i)))})[g]
    {
      PushCount(lists, i, p, g);
    }
  }

  lemma PopGrant(lists: seq<seq<nat>>, i: nat)
    requires i < |lists| && lists[i] != []
    ensures multiset(FreeGrants(lists)) ==
            multiset(FreeGrants(lists[i := lists[i][1..]])) + multiset{Grant(Some(i), Block(lists[i][0], ClassSize(i)))}
  {
    var popped := lists[i := lists[i][1..]];
    assert [lists[i][0]] + lists[i][1..] == lists[i];
    assert popped[i := lists[i]] == lists;
    PushGrant(popped, i, lists[i][0]);
  }

  lemma LivePlus(live: seq<Allocation>, a: Allocation)
    ensures multiset(LiveGrants(live + [a])) == multiset(LiveGrants(live)) + multiset{GrantOf(a.start, a.layout)}
  {
    assert LiveGrants(live + [a]) == LiveGrants(live) + [GrantOf(a.start, a.layout)];
  }

  lemma LiveMinus(live: seq<Allocation>, i: nat)
    requires i < |live|
    ensures multiset(LiveGrants(live)) ==
            multiset(LiveGrants(Removed(live, i))) + multiset{GrantOf(live[i].start, live[i].layout)}
  {
    assert LiveGrants(Removed(live, i)) == Removed(LiveGrants(live), i);
    RemovedBag(LiveGrants(live), i);
  }

  // ---------------------------------------------------------------------------------------
  // Runs
  // ---------------------------------------------------------------------------------------

  lemma ClassSizeIsPow2(i: nat)
    requires i < CLASSES
    ensures ClassSize(i) == Pow2(i + 3)
  {
    assert Pow2(3) == 8;
    assert Pow2(5) == 32;
    assert Pow2(7) == 128;
    assert Pow2(9) == 512;
    assert Pow2(11) == 2048;
  }

  lemma {:induction false} ShiftOrder(j: nat, k: nat)
    requires Pow2(j) <= Pow2(k)
    ensures j <= k
  {
    if j > k {
      Pow2Less(k + 1, j);
    }
  }

  /** A block of the layout's class is aligned for the layout. */
  lemma ClassAligned(p: nat, l: Layout, i: nat)
    requires FindBlockIndex(l) == Some(i) && p % ClassSize(i) == 0
    ensures p % l.Align() == 0
  {
    ClassSizeIsPow2(i);
    ShiftOrder(l.shift, i + 3);
    CoarserMultiple(p, l.shift, i + 3);
  }

  lemma HeldBag(h: Heap)
    ensures multiset(Held(h)) == multiset(LiveGrants(h.live)) + multiset(FreeGrants(h.lists))
  {}

  lemma MoveBag<T>(all: multiset<T>, a: multiset<T>, b: multiset<T>, a': multiset<T>, b': multiset<T>, g: T)
    requires all == a + b && a' == a + multiset{g} && b == b' + multiset{g}
    ensures all == a' + b' && g in all
  {}

  lemma GrowBag<T>(all: multiset<T>, a: multiset<T>, b: multiset<T>, a': multiset<T>, g: T)
    requires all == a + b && a' == a + multiset{g}
    ensures all + multiset{g} == a' + b
  {}

  lemma ShrinkBag<T(!new)>(all: multiset<T>, a: multiset<T>, b: multiset<T>, all': multiset<T>, a': multiset<T>, g: T)
    requires all == a + b && a == a' + multiset{g} && all == all' + multiset{g}
    ensures all' == a' + b
  {
    forall x: T
      ensures all'[x] == (a' + b)[x]
    {
      assert (all' + multiset{g})[x] == (a' + multiset{g} + b)[x];
    }
  }

  /** A block taken off a free list. */
  lemma ReusePartitioned(h: Heap, l: Layout, granted: Option<nat>, h': Heap)
    requires Partitioned(h) && Next(h, Take(l, granted), h') && Asked(h.lists, l).None?
    ensures Partitioned(h')
  {
    var i := FindBlockIndex(l).value;
    var p := h.lists[i][0];
    ReuseBag(h, l, i, p, h');
    ClassAligned(p, l, i);
  }

  lemma ReuseBag(h: Heap, l: Layout, i: nat, p: nat, h': Heap)
    requires Partitioned(h) && FindBlockIndex(l) == Some(i) && h.lists[i] != [] && p == h.lists[i][0]
    requires h'.lists == h.lists[i := h.lists[i][1..]] && h'.live == h.live + [Allocation(p, l)]
    ensures multiset(h.taken) == multiset(Held(h')) && p % ClassSize(i) == 0
  {
    var g := Grant(Some(i), Block(p, ClassSize(i)));
    PopGrant(h.lists, i);
    LivePlus(h.live, Allocation(p, l));
    HeldBag(h);
    HeldBag(h');
    MoveBag(multiset(h.taken), multiset(LiveGrants(h.live)), multiset(FreeGrants(h.lists)),
            multiset(LiveGrants(h'.live)), multiset(FreeGrants(h'.lists)), g);
    assert g in h.taken && GoodGrant(g);
  }

  /** A block granted by the fallback heap. */
  lemma GrantPartitioned(h: Heap, l: Layout, p: nat, h': Heap)
    requires Partitioned(h) && Next(h, Take(l, Some(p)), h') && Asked(h.lists, l).Some?
    ensures Partitioned(h')
  {
    GrantBag(h, l, p, h');
    GrantAligned(h, l, p);
    GrantApart(h.taken, GrantOf(p, l));
  }

  lemma GrantBag(h: Heap, l: Layout, p: nat, h': Heap)
    requires multiset(h.taken) == multiset(Held(h)) && h'.lists == h.lists
    requires h'.live == h.live + [Allocation(p, l)] && h'.taken == h.taken + [GrantOf(p, l)]
    ensures multiset(h'.taken) == multiset(Held(h'))
  {
    LivePlus(h.live, Allocation(p, l));
    HeldBag(h);
    HeldBag(h');
    GrowBag(multiset(h.taken), multiset(LiveGrants(h.live)), multiset(FreeGrants(h.lists)),
            multiset(LiveGrants(h'.live)), GrantOf(p, l));
  }

  lemma GrantApart(taken: seq<Grant>, g: Grant)
    requires GrantsApart(taken) && forall x <- taken :: Apart(x.block, g.block)
    ensures GrantsApart(taken + [g])
  {
    forall i, j | 0 <= i < j < |taken + [g]|
      ensures Apart((taken + [g])[i].block, (taken + [g])[j].block)
    {
      assert taken[i] in taken;
    }
  }

  lemma GrantAligned(h: Heap, l: Layout, p: nat)
    requires |h.lists| == CLASSES && Honest(h, l, Some(p)) && Asked(h.lists, l).Some?
    ensures GoodGrant(GrantOf(p, l)) && p % l.Align() == 0
  {
    var index := FindBlockIndex(l);
    if index.Some? {
      ClassSizeIsPow2(index.value);
      ClassAligned(p, l, index.value);
    }
  }

  lemma ReturnPartitioned(h: Heap, i: nat, h': Heap)
    requires Partitioned(h) && Next(h, Return(i), h')
    ensures Partitioned(h')
  {
    var index := FindBlockIndex(h.live[i].layout);
    if index.Some? {
      ReturnSmall(h, i, index.value, h');
    } else {
      ReturnLarge(h, i, h');
    }
  }

  lemma ReturnSmall(h: Heap, i: nat, c: nat, h': Heap)
    requires Partitioned(h) && Next(h, Return(i), h') && FindBlockIndex(h.live[i].layout) == Some(c)
    ensures Partitioned(h')
  {
    SmallBag(h, i, c, h');
  }

  lemma SmallBag(h: Heap, i: nat, c: nat, h': Heap)
    requires multiset(h.taken) == multiset(Held(h)) && i < |h.live| && c < |h.lists|
    requires FindBlockIndex(h.live[i].layout) == Some(c)
    requires h'.lists == h.lists[c := [h.live[i].start] + h.lists[c]] && h'.live == Removed(h.live, i)
    ensures multiset(h.taken) == multiset(Held(h'))
  {
    LiveMinus(h.live, i);
    HeldBag(h);
    HeldBag(h');
    PushGrant(h.lists, c, h.live[i].start);
    MoveBag(multiset(h.taken), multiset(FreeGrants(h.lists)), multiset(LiveGrants(h.live)),
            multiset(FreeGrants(h'.lists)), multiset(LiveGrants(h'.live)), GrantOf(h.live[i].start, h.live[i].layout));
  }

  lemma ReturnLarge(h: Heap, i: nat, h': Heap)
    requires Partitioned(h) && Next(h, Return(i), h') && FindBlockIndex(h.live[i].layout) == None
    ensures Partitioned(h')
  {
    var g := GrantOf(h.live[i].start, h.live[i].layout);
    var k :| 0 <= k < |h.taken| && h.taken[k] == g && h'.taken == Removed(h.taken, k);
    LargeBag(h, i, k, h');
    RemovedElements(h.taken, k);
    RemovedElements(h.live, i);
    RemovedApart(h.taken, k);
  }

  lemma RemovedElements<T>(s: seq<T>, i: nat)
    requires i < |s|
    ensures forall x <- Removed(s, i) :: x in s
  {}

  lemma RemovedApart(gs: seq<Grant>, k: nat)
    requires k < |gs| && GrantsApart(gs)
    ensures GrantsApart(Removed(gs, k))
  {
    assert forall m :: 0 <= m < |gs| - 1 ==> Removed(gs, k)[m] == gs[if m < k then m else m + 1];
  }

  lemma LargeBag(h: Heap, i: nat, k: nat, h': Heap)
    requires multiset(h.taken) == multiset(Held(h)) && i < |h.live| && k < |h.taken|
    requires h.taken[k] == GrantOf(h.live[i].start, h.live[i].layout)
    requires h'.lists == h.lists && h'.live == Removed(h.live, i) && h'.taken == Removed(h.taken, k)
    ensures multiset(h'.taken) == multiset(Held(h'))
  {
    LiveMinus(h.live, i);
    HeldBag(h);
    HeldBag(h');
    RemovedBag(h.taken, k);
    ShrinkBag(multiset(h.taken), multiset(LiveGrants(h.live)), multiset(FreeGrants(h.lists)),
              multiset(h'.taken), multiset(LiveGrants(h'.live)), h.taken[k]);
  }

  /** Over every run over an honest fallback heap, the blocks taken from it and not given back are
      exactly the live blocks and the blocks on the free lists, each once and in its own class. */
  lemma FixedRunPartitioned(heaps: seq<Heap>, ops: seq<Op>, n: nat)
    requires Run(Next, heaps, ops) && Partitioned(heaps[0]) && n <= |ops|
    ensures Partitioned(heaps[n])
  {
    forall h, op, h' | Partitioned(h) && Next(h, op, h')
      ensures Partitioned(h')
    {
      StepPartitioned(h, op, h');
    }
    Always(Next, Partitioned, heaps, ops, n);
  }

  lemma StepPartitioned(h: Heap, op: Op, h': Heap)
    requires Partitioned(h) && Next(h, op, h')
    ensures Partitioned(h')
  {
    match op
    case Take(l, granted) =>
      if Asked(h.lists, l).None? {
        ReusePartitioned(h, l, granted, h');
      } else if granted.Some? {
        GrantPartitioned(h, l, granted.value, h');
      }
    case Return(i) => ReturnPartitioned(h, i, h');
  }

  lemma InitialPartitioned()
    ensures Partitioned(Heap(seq(CLASSES, i => []), [], []))
  {
    NothingFree(seq(CLASSES, i => []));
  }

  lemma {:induction false} NothingFree(lists: seq<seq<nat>>)
    requires forall k :: 0 <= k < |lists| ==> lists[k] == []
    ensures FreeGrants(lists) == []
  {
    if lists != [] {
      NothingFree(lists[..|lists| - 1]);
      assert Tagged(|lists| - 1, []) == [];
    }
  }

  // ---------------------------------------------------------------------------------------
  // What the partition means for users
  // ---------------------------------------------------------------------------------------

  lemma {:induction false} Twice<T>(s: seq<T>, x: T)
    requires multiset(s)[x] >= 2
    ensures exists i, j :: 0 <= i < j < |s| && s[i] == x && s[j] == x
  {
    var n := |s| - 1;
    assert s == s[..n] + [s[n]];
    if s[n] == x {
      assert x in s[..n];
      var i :| 0 <= i < n && s[..n][i] == x;
      assert s[i] == x && s[n] == x;
    } else {
      Twice(s[..n], x);
      var i, j :| 0 <= i < j < n && s[..n][i] == x && s[..n][j] == x;
      assert s[i] == x && s[j] == x;
    }
  }

  lemma {:induction false} TwoOf<T>(s: seq<T>, i: nat, j: nat)
    requires i < j < |s| && s[i] == s[j]
    ensures multiset(s)[s[i]] >= 2
  {
    assert s == s[..j] + [s[j]] + s[j + 1..];
    assert s[i] in s[..j];
  }

  /** Disjointness does not depend on the order. */
  lemma PermutedApart(xs: seq<Grant>, ys: seq<Grant>)
    requires multiset(xs) == multiset(ys) && GrantsApart(xs)
    ensures GrantsApart(ys)
  {
    forall i, j | 0 <= i < j < |ys|
      ensures Apart(ys[i].block, ys[j].block)
    {
      if ys[i] == ys[j] {
        TwoOf(ys, i, j);
        Twice(xs, ys[i]);
      } else {
        assert ys[i] in multiset(ys) && ys[j] in multiset(ys);
        assert ys[i] in xs && ys[j] in xs;
        var a :| 0 <= a < |xs| && xs[a] == ys[i];
        var b :| 0 <= b < |xs| && xs[b] == ys[j];
        assert a < b || b < a;
      }
    }
  }

  /** Every allocation is aligned and at least as large as asked for. Blocks of different allocations
      do not overlap, and no block on a free list overlaps a live one or another free one. */
  lemma FixedRunSafe(heaps: seq<Heap>, ops: seq<Op>, n: nat)
    requires Run(Next, heaps, ops) && Partitioned(heaps[0]) && n <= |ops|
    ensures GrantsApart(LiveGrants(heaps[n].live) + FreeGrants(heaps[n].lists))
    ensures forall a <- heaps[n].live ::
              a.start % a.layout.Align() == 0 && a.layout.size <= GrantOf(a.start, a.layout).block.size
  {
    FixedRunPartitioned(heaps, ops, n);
    PermutedApart(heaps[n].taken, Held(heaps[n]));
  }
}
