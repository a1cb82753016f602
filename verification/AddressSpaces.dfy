/**
 Building and tearing down address spaces: the recursive copy of a page-table tree into fresh
 frames and the recursive release of a tree, over the frame allocator.
 */
module AddressSpaces {
  import opened Options
  import opened Frames
  import opened PageTables

  // ---------------------------------------------------------------------------------------
  // Several grants or frees in a row
  // ---------------------------------------------------------------------------------------

  /** Frame g could still be handed out. */
  ghost predicate Available(usable: seq<nat>, s: FrameState, g: nat)
  {
    g in usable && g !in s.used
  }

  /** Position j of the usable frames holds a free frame inside the bitmap. */
  ghost predicate FreeAt(usable: seq<nat>, s: FrameState, j: nat)
  {
    j < |usable| && usable[j] < BITMAP_SIZE && usable[j] !in s.used
  }

  /** So do the next n positions of the cursor. */
  ghost predicate Grantable(usable: seq<nat>, s: FrameState, n: nat)
  {
    forall j :: s.next <= j < s.next + n ==> FreeAt(usable, s, j)
  }

  ghost function AllocateMany(usable: seq<nat>, s: FrameState, n: nat): FrameState
  {
    if n == 0 then s else Allocate(usable, AllocateMany(usable, s, n - 1))
  }

  /** The frames the next n grants hand out. */
  ghost function NextFrames(usable: seq<nat>, s: FrameState, n: nat): seq<nat>
    requires s.next + n <= |usable|
  {
    usable[s.next..s.next + n]
  }

  lemma NextFramesPlusOne(usable: seq<nat>, s: FrameState, n: nat)
    requires Distinct(usable) && s.next + n < |usable|
    ensures NextFrames(usable, s, n + 1) == NextFrames(usable, s, n) + [usable[s.next + n]]
    ensures usable[s.next + n] !in NextFrames(usable, s, n)
    ensures Elements(NextFrames(usable, s, n + 1)) ==
            Elements(NextFrames(usable, s, n)) + {usable[s.next + n]}
  {
    assert NextFrames(usable, s, n + 1) == NextFrames(usable, s, n) + [usable[s.next + n]];
  }

  lemma {:induction false} AllocateManyExact(usable: seq<nat>, s: FrameState, n: nat)
    requires Distinct(usable) && Grantable(usable, s, n) && s.next + n <= |usable|
    ensures var t := AllocateMany(usable, s, n);
            && t.next == s.next + n
            && t.used == s.used + Elements(NextFrames(usable, s, n))
            && t.log.allocations == s.log.allocations + n
  {
    if n > 0 {
      AllocateManyExact(usable, s, n - 1);
      assert FreeAt(usable, s, s.next + n - 1);
      OneMore(usable, s, AllocateMany(usable, s, n - 1), n - 1);
    }
  }

  lemma OneMore(usable: seq<nat>, s: FrameState, t: FrameState, n: nat)
    requires Distinct(usable) && FreeAt(usable, s, s.next + n)
    requires t.next == s.next + n && t.used == s.used + Elements(NextFrames(usable, s, n))
    ensures var t' := Allocate(usable, t);
            && t'.next == s.next + n + 1 && t'.used == s.used + Elements(NextFrames(usable, s, n + 1))
            && t'.log.allocations == t.log.allocations + 1
  {
    NextFramesPlusOne(usable, s, n);
  }

  lemma NextFramesFresh(usable: seq<nat>, s: FrameState, n: nat)
    requires Distinct(usable) && Grantable(usable, s, n) && s.next + n <= |usable|
    ensures Elements(NextFrames(usable, s, n)) !! s.used
    ensures forall g <- NextFrames(usable, s, n) :: Available(usable, s, g) && g < BITMAP_SIZE
  {
    forall g | g in NextFrames(usable, s, n)
      ensures Available(usable, s, g) && g < BITMAP_SIZE
    {
      var i :| 0 <= i < n && NextFrames(usable, s, n)[i] == g;
      assert FreeAt(usable, s, s.next + i);
    }
  }

  lemma {:induction false} AllocateManyPlus(usable: seq<nat>, s: FrameState, m: nat, n: nat)
    ensures AllocateMany(usable, AllocateMany(usable, s, m), n) == AllocateMany(usable, s, m + n)
  {
    if n > 0 {
      AllocateManyPlus(usable, s, m, n - 1);
    }
  }

  /** After m grants, n more are possible exactly when m + n were possible at the start. */
  lemma GrantableSplit(usable: seq<nat>, s: FrameState, m: nat, n: nat)
    requires Distinct(usable) && Grantable(usable, s, m) && s.next + m <= |usable|
    ensures Grantable(usable, AllocateMany(usable, s, m), n) <==> Grantable(usable, s, m + n)
  {
    AllocateManyExact(usable, s, m);
    var t := AllocateMany(usable, s, m);
    var taken := NextFrames(usable, s, m);
    forall j: nat | t.next <= j < t.next + n
      ensures FreeAt(usable, t, j) <==> FreeAt(usable, s, j)
    {
      if j < |usable| {
        assert usable[j] !in taken;
      }
    }
  }

  // ---------------------------------------------------------------------------------------
  // Finding a free frame
  // ---------------------------------------------------------------------------------------

  /** Allocating over and over, without frees in between, grants frame g in the end. */
  ghost predicate Found(usable: seq<nat>, s: FrameState, g: nat)
  {
    exists n: nat :: Offer(usable, AllocateMany(usable, s, n)) == Granted(g)
  }

  /** However often it is asked, the allocator gets past the first m positions of its cursor, all free,
      and no further. */
  lemma {:induction false} GetsThisFar(usable: seq<nat>, s: FrameState, n: nat) returns (m: nat)
    requires Distinct(usable)
    ensures Grantable(usable, s, m) && (m > 0 ==> s.next + m <= |usable|)
    ensures AllocateMany(usable, s, n) == AllocateMany(usable, s, m)
  {
    if n == 0 {
      m := 0;
    } else {
      m := GetsThisFar(usable, s, n - 1);
      if Offer(usable, AllocateMany(usable, s, m)).Granted? {
        OneFurther(usable, s, m);
        m := m + 1;
      }
    }
  }

  lemma OneFurther(usable: seq<nat>, s: FrameState, m: nat)
    requires Distinct(usable) && Grantable(usable, s, m) && (m > 0 ==> s.next + m <= |usable|)
    requires Offer(usable, AllocateMany(usable, s, m)).Granted?
    ensures Grantable(usable, s, m + 1) && s.next + m < |usable|
    ensures Offer(usable, AllocateMany(usable, s, m)) == Granted(usable[s.next + m])
  {
    var t := AllocateMany(usable, s, m);
    assert s.next <= |usable|;
    AllocateManyExact(usable, s, m);
    assert Grantable(usable, t, 1);
    GrantableSplit(usable, s, m, 1);
  }

  /** A free frame at position p is found by allocations alone exactly if the cursor is not past it and every position
      from the cursor up to it is free. */
  lemma FoundIff(usable: seq<nat>, s: FrameState, p: nat)
    requires Distinct(usable) && FreeAt(usable, s, p)
    ensures Found(usable, s, usable[p]) <==> s.next <= p && Grantable(usable, s, p - s.next + 1)
  {
    if s.next <= p && Grantable(usable, s, p - s.next + 1) {
      var m := p - s.next;
      AllocateManyExact(usable, s, m);
      NextFramesPlusOne(usable, s, m);
      assert Offer(usable, AllocateMany(usable, s, m)) == Granted(usable[p]);
    }
    if n: nat :| Offer(usable, AllocateMany(usable, s, n)) == Granted(usable[p]) {
      var m := GetsThisFar(usable, s, n);
      OneFurther(usable, s, m);
    }
  }

  /** After freeing the in-use frame f at position p, f is found by allocations alone exactly if every position before
      it from the cursor on, which falls to f if f is smaller, is free. */
  lemma FreedFoundIff(usable: seq<nat>, s: FrameState, f: nat, p: nat)
    requires Distinct(usable) && p < |usable| && usable[p] == f && f in s.used && f < BITMAP_SIZE
    ensures var cursor := if f < s.next then f else s.next;
            Found(usable, Deallocate(s, f), f) <==>
            cursor <= p && forall j :: cursor <= j < p ==> FreeAt(usable, s, j)
  {
    var s' := Deallocate(s, f);
    FoundIff(usable, s', p);
    forall j | s'.next <= j < p
      ensures FreeAt(usable, s', j) <==> FreeAt(usable, s, j)
    {
      assert usable[j] != usable[p];
    }
    if s'.next <= p && (forall j :: s'.next <= j < p ==> FreeAt(usable, s, j)) {
      assert forall j :: s'.next <= j < p + 1 ==> FreeAt(usable, s', j);
    }
  }

  /** The state after `ops`, allocations and frees, starting from s. */
  ghost function After(usable: seq<nat>, s: FrameState, ops: seq<Op>): FrameState
  {
    if ops == [] then s else Apply(usable, After(usable, s, ops[..|ops| - 1]), ops[|ops| - 1])
  }

  /** A free that brings the cursor back to position p or before it. */
  predicate BringsBack(op: Op, p: nat)
  {
    op.Give? && op.frame <= p && op.frame < BITMAP_SIZE
  }

  lemma {:induction false} StaysPast(usable: seq<nat>, s: FrameState, p: nat, ops: seq<Op>)
    requires s.next > p && forall op <- ops :: !BringsBack(op, p)
    ensures After(usable, s, ops).next > p
  {
    if ops != [] {
      StaysPast(usable, s, p, ops[..|ops| - 1]);
      assert !BringsBack(ops[|ops| - 1], p);
    }
  }

  /** Once past position p, the cursor comes back to it or before it in a run of allocations and frees
      if and only if a frame numbered p or less is freed. */
  lemma ComesBackIff(usable: seq<nat>, s: FrameState, p: nat, ops: seq<Op>)
    requires s.next > p
    ensures (exists k :: 0 <= k <= |ops| && After(usable, s, ops[..k]).next <= p) <==>
            (exists op <- ops :: BringsBack(op, p))
  {
    if op :| op in ops && BringsBack(op, p) {
      var i :| 0 <= i < |ops| && ops[i] == op;
      assert ops[..i + 1][..i] == ops[..i];
      assert After(usable, s, ops[..i + 1]).next <= p;
    } else {
      forall k | 0 <= k <= |ops|
        ensures After(usable, s, ops[..k]).next > p
      {
        StaysPast(usable, s, p, ops[..k]);
      }
    }
  }

  /** Until then the frame at position p is not granted, whether free or not. */
  lemma LostUntilBack(usable: seq<nat>, s: FrameState, p: nat, ops: seq<Op>)
    requires Distinct(usable) && p < |usable| && s.next > p && forall op <- ops :: !BringsBack(op, p)
    ensures Offer(usable, After(usable, s, ops)) != Granted(usable[p])
  {
    StaysPast(usable, s, p, ops);
  }

  /** The run of `FreeFrameNotFound` loses frame 1 for good: frame 1 is free, and no run of allocations
      and of frees of usable frames that goes on from there is ever granted it. */
  lemma FreedFrameLost(ops: seq<Op>)
    requires forall op <- ops :: op.Give? ==> op.frame in [1, 2, 3]
    ensures var s := Run([1, 2, 3], [Take, Take, Take, Give(1)]);
            FreeAt([1, 2, 3], s, 0) && Offer([1, 2, 3], After([1, 2, 3], s, ops)) != Granted(1)
  {
    FreeFrameNotFound();
    LostUntilBack([1, 2, 3], Run([1, 2, 3], [Take, Take, Take, Give(1)]), 0, ops);
  }

  // ---------------------------------------------------------------------------------------
  // Freeing many frames
  // ---------------------------------------------------------------------------------------

  ghost function FreeAll(s: FrameState, fs: seq<nat>): FrameState
  {
    if fs == [] then s else Deallocate(FreeAll(s, fs[..|fs| - 1]), fs[|fs| - 1])
  }

  lemma {:induction false} FreeAllPlus(s: FrameState, a: seq<nat>, b: seq<nat>)
    ensures FreeAll(FreeAll(s, a), b) == FreeAll(s, a + b)
  {
    if b == [] {
      assert a + b == a;
    } else {
      var n := |b| - 1;
      FreeAllPlus(s, a, b[..n]);
      assert (a + b)[..|a + b| - 1] == a + b[..n];
    }
  }

  ghost predicate InBitmap(s: FrameState)
  {
    forall f <- s.used :: f < BITMAP_SIZE
  }

  /** Freeing a list is exact set subtraction however often a frame is repeated in it; the cursor
      falls to the least freed number below it and every free is logged. */
  lemma {:induction false} FreeAllExact(s: FrameState, fs: seq<nat>)
    requires InBitmap(s)
    ensures var t := FreeAll(s, fs);
            && t.used == s.used - Elements(fs)
            && t.log.deallocations == s.log.deallocations + |fs|
            && t.next <= s.next && (t.next == s.next || t.next in fs)
            && (forall f <- fs :: f < BITMAP_SIZE ==> t.next <= f)
  {
    if fs != [] {
      var n := |fs| - 1;
      FreeAllExact(s, fs[..n]);
      assert fs == fs[..n] + [fs[n]];
      assert Elements(fs) == Elements(fs[..n]) + {fs[n]};
    }
  }

  // ---------------------------------------------------------------------------------------
  // What a teardown frees
  // ---------------------------------------------------------------------------------------

  /** The frames released when the tree is torn down, in order: the contents of each table before
      the table itself. */
  ghost function Frees(t: Tree): seq<nat>
  {
    AllFrees(t.slots) + [t.frame]
  }

  ghost function SlotFrees(x: Slot): seq<nat>
  {
    match x
    case Hole => []
    case Leaf(e) => if UserOwned(e) then [e.frame] else []
    case Sub(_, t) => Frees(t)
  }

  ghost function AllFrees(ss: seq<Slot>): seq<nat>
  {
    if ss == [] then [] else AllFrees(ss[..|ss| - 1]) + SlotFrees(ss[|ss| - 1])
  }

  lemma AppendFrees(ss: seq<Slot>, x: Slot)
    ensures AllFrees(ss + [x]) == AllFrees(ss) + SlotFrees(x)
  {
    assert (ss + [x])[..|ss + [x]| - 1] == ss;
  }

  /** A teardown releases each table once per place it occupies in the tree and each user frame
      once per mapping. */
  lemma {:induction false} FreesAccount(t: Tree)
    ensures multiset(Frees(t)) == multiset(Tables(t)) + multiset(UserFrames(t))
    decreases t
  {
    AllFreesAccount(t.slots);
  }

  lemma {:induction false} SlotFreesAccount(x: Slot)
    ensures multiset(SlotFrees(x)) == multiset(SlotTables(x)) + multiset(SlotUserFrames(x))
    decreases x
  {
    if x.Sub? {
      FreesAccount(x.tree);
    }
  }

  lemma {:induction false} AllFreesAccount(ss: seq<Slot>)
    ensures multiset(AllFrees(ss)) == multiset(AllTables(ss)) + multiset(AllUserFrames(ss))
    decreases ss
  {
    if ss != [] {
      AllFreesAccount(ss[..|ss| - 1]);
      SlotFreesAccount(ss[|ss| - 1]);
    }
  }

  lemma InMultiset(s: seq<nat>, f: nat)
    ensures f in s <==> f in multiset(s)
  {}

  lemma FreesElements(t: Tree)
    ensures Elements(Frees(t)) == Elements(Tables(t)) + Elements(UserFrames(t))
    ensures |Frees(t)| == |Tables(t)| + |UserFrames(t)|
  {
    FreesAccount(t);
    forall f
      ensures f in Frees(t) <==> f in Tables(t) || f in UserFrames(t)
    {
      InMultiset(Frees(t), f);
    }
    assert |multiset(Frees(t))| == |multiset(Tables(t))| + |multiset(UserFrames(t))|;
  }

  // ---------------------------------------------------------------------------------------
  // Progress of a copy
  // ---------------------------------------------------------------------------------------

  ghost predicate NoneAvailable(usable: seq<nat>, s: FrameState, fs: seq<nat>)
  {
    forall g <- fs :: !Available(usable, s, g)
  }

  /** The memory map lists each usable frame once, and frame 0 is not usable. */
  ghost predicate GoodFrames(usable: seq<nat>)
  {
    Distinct(usable) && 0 !in usable
  }

  /** Between s0 and s the allocator has handed out exactly the frames `new`, in order. */
  ghost predicate Took(usable: seq<nat>, s0: FrameState, s: FrameState, new': seq<nat>)
  {
    && s0.next + |new'| <= |usable| && Grantable(usable, s0, |new'|)
    && new' == NextFrames(usable, s0, |new'|)
    && s == AllocateMany(usable, s0, |new'|)
  }

  lemma TookNone(usable: seq<nat>, s: FrameState)
    requires s.next <= |usable|
    ensures Took(usable, s, s, [])
  {}

  lemma TookFacts(usable: seq<nat>, s0: FrameState, s: FrameState, new': seq<nat>)
    requires Distinct(usable) && Took(usable, s0, s, new')
    ensures s.next == s0.next + |new'|
    ensures s.used == s0.used + Elements(new')
    ensures forall g <- new' :: Available(usable, s0, g) && g < BITMAP_SIZE
  {
    AllocateManyExact(usable, s0, |new'|);
    NextFramesFresh(usable, s0, |new'|);
  }

  lemma TookOne(usable: seq<nat>, s: FrameState, t: nat)
    requires Offer(usable, s) == Granted(t)
    ensures Took(usable, s, Allocate(usable, s), [t])
  {
    assert AllocateMany(usable, s, 1) == Allocate(usable, AllocateMany(usable, s, 0));
    assert FreeAt(usable, s, s.next);
  }

  lemma TookPlus(usable: seq<nat>, s0: FrameState, s1: FrameState, s2: FrameState,
                 a: seq<nat>, b: seq<nat>)
    requires Distinct(usable) && Took(usable, s0, s1, a) && Took(usable, s1, s2, b)
    ensures Took(usable, s0, s2, a + b)
  {
    AllocateManyExact(usable, s0, |a|);
    AllocateManyPlus(usable, s0, |a|, |b|);
    GrantableSplit(usable, s0, |a|, |b|);
    NextFramesPlus(usable, s0, s1, |a|, |b|);
  }

  lemma NextFramesPlus(usable: seq<nat>, s0: FrameState, s1: FrameState, m: nat, n: nat)
    requires s1.next == s0.next + m && s1.next + n <= |usable|
    ensures NextFrames(usable, s0, m) + NextFrames(usable, s1, n) == NextFrames(usable, s0, m + n)
  {}

  /** If after the grants `new` another m are not possible, then `all` were not at the start. */
  lemma RanOut(usable: seq<nat>, s0: FrameState, s: FrameState, new': seq<nat>, m: nat, all: nat)
    requires Distinct(usable) && Took(usable, s0, s, new')
    requires !Grantable(usable, s, m) && |new'| + m <= all
    ensures !Grantable(usable, s0, all)
  {
    GrantableSplit(usable, s0, |new'|, m);
  }

  lemma Refused(usable: seq<nat>, s: FrameState)
    requires !Offer(usable, s).Granted?
    ensures !Grantable(usable, s, 1)
  {
    assert !FreeAt(usable, s, s.next);
  }

  /** The first k slots of `to` are those of `from` up to where tables live, and the tables below
      them are `new`, parents first. */
  ghost predicate Matches(ram0: Ram, from: nat, ram: Ram, to: nat, level: nat, k: nat, new': seq<nat>)
    requires level > 0 && k <= ENTRIES
  {
    && |AllTables(SlotsOf(ram0, from, level, k))| == |new'|
    && AllTables(SlotsOf(ram, to, level, k)) == new'
    && EraseAll(SlotsOf(ram, to, level, k)) == EraseAll(SlotsOf(ram0, from, level, k))
  }

  function WithEntry(ram: Ram, f: nat, i: nat, e: Entry): Ram
    requires i < ENTRIES
  {
    ram[f := At(ram, f)[i := e]]
  }

  /** One more slot on each side, alike but for where their tables live. */
  lemma MatchesMore(mine: seq<Slot>, theirs: seq<Slot>, x: Slot, y: Slot)
    requires |AllTables(mine)| == |AllTables(theirs)| && EraseAll(mine) == EraseAll(theirs)
    requires |SlotTables(x)| == |SlotTables(y)| && EraseSlot(x) == EraseSlot(y)
    ensures AllTables(mine + [x]) == AllTables(mine) + SlotTables(x)
    ensures |AllTables(mine + [x])| == |AllTables(theirs + [y])| && EraseAll(mine + [x]) == EraseAll(theirs + [y])
  {
    AppendTables(mine, x);
    AppendTables(theirs, y);
    AppendSlot(mine, x);
    AppendSlot(theirs, y);
  }

  lemma PlainSlot(a: Ram, b: Ram, e: Entry, level: nat)
    requires level > 0 && (Unused(e) || Maps(e, level))
    ensures SlotOf(a, e, level) == SlotOf(b, e, level) && SlotTables(SlotOf(a, e, level)) == []
  {}

  /** Copying an entry that is unused or maps a frame. */
  lemma MatchesPlain(ram0: Ram, from: nat, ram: Ram, ram': Ram, to: nat, level: nat, k: nat, new': seq<nat>)
    requires level > 0 && k < ENTRIES
    requires Matches(ram0, from, ram, to, level, k, new')
    requires forall j :: 0 <= j < k ==> At(ram', to)[j] == At(ram, to)[j]
    requires At(ram', to)[k] == At(ram0, from)[k] && AgreeOn(ram, ram', new')
    requires Unused(At(ram0, from)[k]) || Maps(At(ram0, from)[k], level)
    ensures Matches(ram0, from, ram', to, level, k + 1, new')
  {
    var e := At(ram0, from)[k];
    SlotsFrame(ram, ram', to, level, k);
    PlainSlot(ram', ram0, e, level);
    MatchesMore(SlotsOf(ram', to, level, k), SlotsOf(ram0, from, level, k),
                SlotOf(ram', e, level), SlotOf(ram0, e, level));
  }

  /** Copying an entry that points to a table, given a copy of what lies below it. */
  lemma MatchesSub(ram0: Ram, from: nat, ram: Ram, ram': Ram, to: nat, level: nat, k: nat,
                   new': seq<nat>, t: nat, below: seq<nat>)
    requires level > 1 && k < ENTRIES && t != 0
    requires Matches(ram0, from, ram, to, level, k, new')
    requires forall j :: 0 <= j < k ==> At(ram', to)[j] == At(ram, to)[j]
    requires At(ram', to)[k] == Entry(t, At(ram0, from)[k].flags) && AgreeOn(ram, ram', new')
    requires var e := At(ram0, from)[k]; !Unused(e) && !Maps(e, level)
    requires Matches(ram0, At(ram0, from)[k].frame, ram', t, level - 1, ENTRIES, below)
    ensures Matches(ram0, from, ram', to, level, k + 1, new' + ([t] + below))
  {
    var e := At(ram0, from)[k];
    SlotsFrame(ram, ram', to, level, k);
    var mine, theirs := TreeOf(ram', t, level - 1), TreeOf(ram0, e.frame, level - 1);
    assert Tables(mine) == [t] + below;
    assert |Tables(theirs)| == 1 + |below|;
    assert Erase(mine) == Erase(theirs);
    MatchesMore(SlotsOf(ram', to, level, k), SlotsOf(ram0, from, level, k),
                SlotOf(ram', Entry(t, e.flags), level), SlotOf(ram0, e, level));
  }

  /** Outside `to` and the new frames, memory is as it was. */
  ghost predicate Untouched(ram0: Ram, ram: Ram, to: nat, new': seq<nat>)
  {
    forall g :: g != to && g !in new' ==> At(ram, g) == At(ram0, g)
  }

  ghost predicate ZeroFrom(ram: Ram, to: nat, k: nat)
  {
    forall j :: k <= j < ENTRIES ==> At(ram, to)[j] == ZERO_ENTRY
  }

  /** What a copy asks of its surroundings: no table of the source, nor the target, is a frame
      the allocator might hand out, and the target is not part of the source. */
  ghost predicate CopySafe(usable: seq<nat>, ram: Ram, s: FrameState, from: nat, to: nat, level: nat)
  {
    && NoneAvailable(usable, s, Tables(TreeOf(ram, from, level)))
    && to !in Tables(TreeOf(ram, from, level))
    && !Available(usable, s, to)
  }

  /** Tables that are not available are not among the frames taken, so memory agrees on them. */
  lemma SafeBelow(usable: seq<nat>, ram0: Ram, s0: FrameState, ram1: Ram, s1: FrameState,
                  tables: seq<nat>, below: seq<nat>, to: nat, new': seq<nat>)
    requires Distinct(usable) && Took(usable, s0, s1, new') && Untouched(ram0, ram1, to, new')
    requires NoneAvailable(usable, s0, tables) && to !in tables && forall g <- below :: g in tables
    ensures AgreeOn(ram0, ram1, below) && NoneAvailable(usable, s1, below)
    ensures forall g <- below :: g !in new'
  {
    TookFacts(usable, s0, s1, new');
  }

  /** The source below entry k, seen from memory that only gained new frames, is unchanged and
      still safe to copy. */
  lemma SubSource(usable: seq<nat>, ram0: Ram, s0: FrameState, from: nat, ram1: Ram, s1: FrameState,
                  to: nat, level: nat, k: nat, new': seq<nat>, t: nat)
    requires level > 1 && k < ENTRIES && Distinct(usable)
    requires CopySafe(usable, ram0, s0, from, to, level)
    requires var e := At(ram0, from)[k]; !Unused(e) && !Maps(e, level)
    requires Untouched(ram0, ram1, to, new' + [t])
    requires Took(usable, s0, s1, new' + [t])
    ensures TreeOf(ram1, At(ram0, from)[k].frame, level - 1) == TreeOf(ram0, At(ram0, from)[k].frame, level - 1)
    ensures CopySafe(usable, ram1, s1, At(ram0, from)[k].frame, t, level - 1)
  {
    var f := At(ram0, from)[k].frame;
    SubTablesWithin(ram0, from, level, k, ENTRIES);
    TookFacts(usable, s0, s1, new' + [t]);
    assert t in new' + [t];
    SafeBelow(usable, ram0, s0, ram1, s1, Tables(TreeOf(ram0, from, level)), Tables(TreeOf(ram0, f, level - 1)),
              to, new' + [t]);
    TreeFrame(ram0, ram1, f, level - 1);
  }

  /** The first k entries of `from` have been copied to `to` using the fresh frames `new`. */
  ghost predicate Copied(usable: seq<nat>, ram0: Ram, s0: FrameState, from: nat, ram: Ram, s: FrameState,
                         to: nat, level: nat, k: nat, new': seq<nat>)
    requires level > 0 && k <= ENTRIES
  {
    && Took(usable, s0, s, new')
    && Matches(ram0, from, ram, to, level, k, new')
    && Untouched(ram0, ram, to, new')
    && ZeroFrom(ram, to, k)
  }

  lemma CopiedNone(usable: seq<nat>, ram: Ram, s: FrameState, from: nat, to: nat, level: nat)
    requires level > 0 && s.next <= |usable| && ZeroFrom(ram, to, 0)
    ensures Copied(usable, ram, s, from, ram, s, to, level, 0, [])
  {}

  lemma CopiedPlain(usable: seq<nat>, ram0: Ram, s0: FrameState, from: nat, ram: Ram, s: FrameState,
                    to: nat, level: nat, k: nat, new': seq<nat>, ram': Ram)
    requires level > 0 && k < ENTRIES && Distinct(usable) && !Available(usable, s0, to)
    requires Copied(usable, ram0, s0, from, ram, s, to, level, k, new')
    requires var e := At(ram0, from)[k];
             if Unused(e) then ram' == ram else Maps(e, level) && ram' == WithEntry(ram, to, k, e)
    ensures Copied(usable, ram0, s0, from, ram', s, to, level, k + 1, new')
  {
    TookFacts(usable, s0, s, new');
    MatchesPlain(ram0, from, ram, ram', to, level, k, new');
  }

  /** Memory and allocator right after a table in frame t has been created and linked at entry k. */
  ghost predicate Linked(usable: seq<nat>, ram: Ram, s: FrameState, to: nat, k: nat, t: nat, flags: Flags,
                         ram1: Ram, s1: FrameState)
    requires k < ENTRIES
  {
    && Offer(usable, s) == Granted(t) && s1 == Allocate(usable, s)
    && ram1 == WithEntry(ram[t := ZeroTable()], to, k, Entry(t, flags))
  }

  lemma LinkedFacts(usable: seq<nat>, ram0: Ram, s0: FrameState, from: nat, ram: Ram, s: FrameState,
                    to: nat, level: nat, k: nat, new': seq<nat>, t: nat, ram1: Ram, s1: FrameState)
    requires level > 0 && k < ENTRIES && GoodFrames(usable) && !Available(usable, s0, to)
    requires Copied(usable, ram0, s0, from, ram, s, to, level, k, new')
    requires Linked(usable, ram, s, to, k, t, At(ram0, from)[k].flags, ram1, s1)
    ensures Took(usable, s0, s1, new' + [t])
    ensures t != to && t !in new' && t != 0
    ensures Untouched(ram0, ram1, to, new' + [t])
    ensures forall j :: 0 <= j < ENTRIES && j != k ==> At(ram1, to)[j] == At(ram, to)[j]
    ensures At(ram1, to)[k] == Entry(t, At(ram0, from)[k].flags)
    ensures AgreeOn(ram, ram1, new') && ZeroFrom(ram1, t, 0)
  {
    TookFacts(usable, s0, s, new');
    TookOne(usable, s, t);
    TookPlus(usable, s0, s, s1, new', [t]);
    assert Available(usable, s, t);
    assert t in usable;
  }

  /** Two stretches of grants in a row, and what stays untouched across both. */
  lemma UntouchedPlus(usable: seq<nat>, ram0: Ram, s0: FrameState, ram1: Ram, s1: FrameState,
                      ram2: Ram, s2: FrameState, to: nat, new': seq<nat>, t: nat, below: seq<nat>)
    requires Distinct(usable) && !Available(usable, s0, to) && to != t
    requires Took(usable, s0, s1, new' + [t]) && Took(usable, s1, s2, below)
    requires Untouched(ram0, ram1, to, new' + [t]) && Untouched(ram1, ram2, t, below)
    requires t !in new'
    ensures Took(usable, s0, s2, new' + ([t] + below))
    ensures Untouched(ram0, ram2, to, new' + ([t] + below))
    ensures At(ram2, to) == At(ram1, to)
    ensures AgreeOn(ram1, ram2, new')
  {
    TookFacts(usable, s0, s1, new' + [t]);
    TookFacts(usable, s1, s2, below);
    TookPlus(usable, s0, s1, s2, new' + [t], below);
    assert new' + [t] + below == new' + ([t] + below);
    forall g | g in new'
      ensures At(ram1, g) == At(ram2, g)
    {
      assert g in new' + [t];
    }
  }

  lemma CopiedSub(usable: seq<nat>, ram0: Ram, s0: FrameState, from: nat, ram: Ram, s: FrameState,
                  to: nat, level: nat, k: nat, new': seq<nat>, t: nat, ram1: Ram, s1: FrameState,
                  ram2: Ram, s2: FrameState, below: seq<nat>)
    requires level > 1 && k < ENTRIES && GoodFrames(usable) && !Available(usable, s0, to)
    requires Copied(usable, ram0, s0, from, ram, s, to, level, k, new')
    requires var e := At(ram0, from)[k]; !Unused(e) && !Maps(e, level)
    requires Linked(usable, ram, s, to, k, t, At(ram0, from)[k].flags, ram1, s1)
    requires Took(usable, s1, s2, below) && Untouched(ram1, ram2, t, below)
    requires Matches(ram0, At(ram0, from)[k].frame, ram2, t, level - 1, ENTRIES, below)
    ensures Copied(usable, ram0, s0, from, ram2, s2, to, level, k + 1, new' + ([t] + below))
  {
    LinkedFacts(usable, ram0, s0, from, ram, s, to, level, k, new', t, ram1, s1);
    UntouchedPlus(usable, ram0, s0, ram1, s1, ram2, s2, to, new', t, below);
    MatchesSub(ram0, from, ram, ram2, to, level, k, new', t, below);
  }

  /** `copy` is a copy of the tree under `root`: its tables are, parents first, exactly the frames
      handed out meanwhile, only they have been written, and it has the same contents. */
  ghost predicate IsCopy(usable: seq<nat>, ram0: Ram, s0: FrameState, root: nat,
                         ram: Ram, s: FrameState, copy: nat, level: nat)
  {
    && Took(usable, s0, s, Tables(TreeOf(ram, copy, level)))
    && Erase(TreeOf(ram, copy, level)) == Erase(TreeOf(ram0, root, level))
    && (forall g :: g !in Tables(TreeOf(ram, copy, level)) ==> At(ram, g) == At(ram0, g))
  }

  lemma RootSource(usable: seq<nat>, ram0: Ram, s0: FrameState, root: nat, ram1: Ram, s1: FrameState, t: nat,
                   level: nat)
    requires Distinct(usable) && NoneAvailable(usable, s0, Tables(TreeOf(ram0, root, level)))
    requires Offer(usable, s0) == Granted(t) && s1 == Allocate(usable, s0)
    requires ram1 == ram0[t := ZeroTable()]
    ensures TreeOf(ram1, root, level) == TreeOf(ram0, root, level)
    ensures CopySafe(usable, ram1, s1, root, t, level) && ZeroFrom(ram1, t, 0)
  {
    assert Available(usable, s0, t);
    forall g | g in Tables(TreeOf(ram0, root, level))
      ensures g != t && !Available(usable, s1, g) && At(ram0, g) == At(ram1, g)
    {
      assert !Available(usable, s0, g);
    }
    TreeFrame(ram0, ram1, root, level);
  }

  lemma CopiedRoot(usable: seq<nat>, ram0: Ram, s0: FrameState, root: nat, ram1: Ram, s1: FrameState,
                   ram: Ram, s: FrameState, t: nat, below: seq<nat>, level: nat)
    requires GoodFrames(usable) && level > 0
    requires Offer(usable, s0) == Granted(t) && s1 == Allocate(usable, s0)
    requires ram1 == ram0[t := ZeroTable()]
    requires TreeOf(ram1, root, level) == TreeOf(ram0, root, level)
    requires Copied(usable, ram1, s1, root, ram, s, t, level, ENTRIES, below)
    ensures IsCopy(usable, ram0, s0, root, ram, s, t, level)
  {
    TookOne(usable, s0, t);
    TookPlus(usable, s0, s1, s, [t], below);
    assert Tables(TreeOf(ram, t, level)) == [t] + below;
    assert Erase(TreeOf(ram, t, level)) == Erase(TreeOf(ram1, root, level));
  }

  lemma FreeOneMore(s: FrameState, fs: seq<nat>, f: nat)
    ensures FreeAll(s, fs + [f]) == Deallocate(FreeAll(s, fs), f)
    ensures FreeAll(s, []) == s
  {
    assert (fs + [f])[..|fs + [f]| - 1] == fs;
  }

  lemma {:induction false} HugeUserRemains(ram: Ram, f: nat, level: nat, i: nat, k: nat)
    requires level > 0 && i <= k <= ENTRIES
    requires !NoneHugeUser(SlotsOf(ram, f, level, i))
    ensures !NoneHugeUser(SlotsOf(ram, f, level, k))
    decreases k
  {
    if i < k {
      HugeUserRemains(ram, f, level, i, k - 1);
      HugeStays(SlotsOf(ram, f, level, k - 1), SlotOf(ram, At(ram, f)[k - 1], level));
    }
  }

  lemma HugeStays(ss: seq<Slot>, x: Slot)
    requires !NoneHugeUser(ss)
    ensures !NoneHugeUser(ss + [x])
  {
    AppendSlot(ss, x);
  }

  // ---------------------------------------------------------------------------------------
  // The in-place operations
  // ---------------------------------------------------------------------------------------

  class PhysicalMemory {
    const frames: PageFrameAllocator
    var ram: Ram

    ghost const Usable: seq<nat> := UsableFrames(frames.memoryMap)

    ghost predicate Valid()
      reads frames
    {
      frames.Valid() && GoodFrames(Usable)
    }

    ghost function State(): FrameState
      reads frames, frames.usage, frames.logger
    {
      frames.State()
    }

    constructor (frames: PageFrameAllocator, ram: Ram)
      requires frames.Valid() && GoodFrames(UsableFrames(frames.memoryMap))
      ensures Valid() && this.frames == frames && this.ram == ram
    {
      this.frames := frames;
      this.ram := ram;
    }

    method SetEntry(f: nat, i: nat, e: Entry)
      requires i < ENTRIES
      modifies this
      ensures ram == WithEntry(old(ram), f, i, e)
    {
      ram := ram[f := At(ram, f)[i := e]];
    }

    /** A zeroed table in a fresh frame; None is the panic when no frame is granted. */
    method CreatePagetable() returns (r: Option<nat>)
      requires Valid()
      modifies this, frames, frames.usage, frames.logger
      ensures Valid()
      ensures Offer(Usable, old(State())).Granted? <==> r.Some?
      ensures r.Some? ==> Offer(Usable, old(State())) == Granted(r.value)
      ensures State() == Allocate(Usable, old(State()))
      ensures ram == if r.Some? then old(ram)[r.value := ZeroTable()] else old(ram)
    {
      var g := frames.AllocateFrame();
      if !g.Granted? { return None; }
      ram := ram[g.frame := ZeroTable()];
      r := Some(g.frame);
    }

    /** Copies the tree under `from` into the zeroed table `to`. The result is false when a table
        could not be created, which happens exactly when the cursor does not stand before enough
        free frames for all the tables of the source. */
    method CopyPagesRec(from: nat, to: nat, level: nat) returns (ok: bool, ghost fresh': seq<nat>)
      requires Valid() && level > 0
      requires CopySafe(Usable, ram, State(), from, to, level)
      requires ZeroFrom(ram, to, 0)
      modifies this, frames, frames.usage, frames.logger
      ensures Valid()
      ensures ok <==> Grantable(Usable, old(State()), |AllTables(SlotsOf(old(ram), from, level, ENTRIES))|)
      ensures ok ==> Copied(Usable, old(ram), old(State()), from, ram, State(), to, level, ENTRIES, fresh')
      decreases level, 1
    {
      ghost var ram0, s0 := ram, State();
      fresh' := [];
      CopiedNone(Usable, ram, State(), from, to, level);
      for i := 0 to ENTRIES
        invariant Valid()
        invariant Copied(Usable, ram0, s0, from, ram, State(), to, level, i, fresh')
      {
        ghost var ramI := ram;
        TookFacts(Usable, s0, State(), fresh');
        var entry := At(ram, from)[i];
        if !Unused(entry) {
          if level == 1 || entry.flags.huge {
            SetEntry(to, i, entry);
            CopiedPlain(Usable, ram0, s0, from, ramI, State(), to, level, i, fresh', ram);
          } else {
            ok, fresh' := CopySubtable(from, to, level, i, ram0, s0, fresh');
            if !ok { return; }
          }
        } else {
          CopiedPlain(Usable, ram0, s0, from, ramI, State(), to, level, i, fresh', ram);
        }
      }
      ok := true;
    }

    /** The part of the copy for an entry that points to a table: create a table, link it, copy
        what lies below. */
    method CopySubtable(from: nat, to: nat, level: nat, i: nat,
                        ghost ram0: Ram, ghost s0: FrameState, ghost done: seq<nat>)
      returns (ok: bool, ghost fresh': seq<nat>)
      requires Valid() && level > 1 && i < ENTRIES
      requires CopySafe(Usable, ram0, s0, from, to, level)
      requires Copied(Usable, ram0, s0, from, ram, State(), to, level, i, done)
      requires At(ram, from) == At(ram0, from)
      requires var e := At(ram, from)[i]; !Unused(e) && !Maps(e, level)
      modifies this, frames, frames.usage, frames.logger
      ensures Valid()
      ensures ok ==> Copied(Usable, ram0, s0, from, ram, State(), to, level, i + 1, fresh')
      ensures !ok ==> !Grantable(Usable, s0, |AllTables(SlotsOf(ram0, from, level, ENTRIES))|)
      decreases level, 0
    {
      ghost var ramI, sI := ram, State();
      ghost var all := |AllTables(SlotsOf(ram0, from, level, ENTRIES))|;
      SubTablesWithin(ram0, from, level, i, ENTRIES);
      var entry := At(ram, from)[i];
      var r := CreatePagetable();
      if r.None? {
        Refused(Usable, sI);
        RanOut(Usable, s0, sI, done, 1, all);
        return false, done;
      }
      var t := r.value;
      SetEntry(to, i, Entry(t, entry.flags));
      ghost var ram1, s1 := ram, State();
      LinkedFacts(Usable, ram0, s0, from, ramI, sI, to, level, i, done, t, ram1, s1);
      SubSource(Usable, ram0, s0, from, ram1, s1, to, level, i, done, t);
      ghost var below;
      ok, below := CopyPagesRec(entry.frame, t, level - 1);
      if !ok {
        RanOut(Usable, s0, s1, done + [t], |AllTables(SlotsOf(ram1, entry.frame, level - 1, ENTRIES))|, all);
        return false, done;
      }
      CopiedSub(Usable, ram0, s0, from, ramI, sI, to, level, i, done, t, ram1, s1, ram, State(), below);
      fresh' := done + ([t] + below);
    }

    /** Copies a whole four-level tree; None is the panic when frames run out. */
    method CopyPagetables(root: nat) returns (r: Option<nat>)
      requires Valid()
      requires NoneAvailable(Usable, State(), Tables(TreeOf(ram, root, LEVELS)))
      modifies this, frames, frames.usage, frames.logger
      ensures Valid()
      ensures r.Some? <==> Grantable(Usable, old(State()), |Tables(TreeOf(old(ram), root, LEVELS))|)
      ensures r.Some? ==> IsCopy(Usable, old(ram), old(State()), root, ram, State(), r.value, LEVELS)
    {
      ghost var ram0, s0 := ram, State();
      ghost var all := |Tables(TreeOf(ram0, root, LEVELS))|;
      r := CreatePagetable();
      if r.None? {
        Refused(Usable, s0);
        TookNone(Usable, s0);
        RanOut(Usable, s0, s0, [], 1, all);
        return None;
      }
      var t := r.value;
      ghost var ram1, s1 := ram, State();
      TookOne(Usable, s0, t);
      RootSource(Usable, ram0, s0, root, ram1, s1, t, LEVELS);
      var ok;
      ghost var below;
      ok, below := CopyPagesRec(root, t, LEVELS);
      if !ok {
        RanOut(Usable, s0, s1, [t], all - 1, all);
        return None;
      }
      CopiedRoot(Usable, ram0, s0, root, ram1, s1, ram, State(), t, below, LEVELS);
      GrantableSplit(Usable, s0, 1, |below|);
    }

    /** Releases the tree under the table in frame f, contents before tables. The result is false
        for the panic on a user-owned huge page. */
    method FreePagesRec(f: nat, level: nat) returns (ok: bool)
      requires Valid()
      modifies frames, frames.usage, frames.logger
      ensures Valid()
      ensures ok <==> NoHugeUserPage(TreeOf(ram, f, level))
      ensures ok ==> State() == FreeAll(old(State()), Frees(TreeOf(ram, f, level)))
      decreases level, 1
    {
      ghost var s0 := State();
      if level == 0 {
        frames.DeallocateFrame(f);
        FreeOneMore(s0, [], f);
        return true;
      }
      for i := 0 to ENTRIES
        invariant Valid()
        invariant NoneHugeUser(SlotsOf(ram, f, level, i))
        invariant State() == FreeAll(s0, AllFrees(SlotsOf(ram, f, level, i)))
      {
        ghost var s := State();
        AppendSlot(SlotsOf(ram, f, level, i), SlotOf(ram, At(ram, f)[i], level));
        ok := FreeEntry(At(ram, f)[i], level);
        if !ok {
          HugeUserRemains(ram, f, level, i + 1, ENTRIES);
          return;
        }
        FreeSlotsStep(ram, f, level, i, s0, s, State());
      }
      frames.DeallocateFrame(f);
      FreeOneMore(s0, AllFrees(SlotsOf(ram, f, level, ENTRIES)), f);
      ok := true;
    }

    /** The part of the release for one entry. */
    method FreeEntry(entry: Entry, level: nat) returns (ok: bool)
      requires Valid() && level > 0
      modifies frames, frames.usage, frames.logger
      ensures Valid()
      ensures ok <==> NotHugeUser(SlotOf(ram, entry, level))
      ensures ok ==> State() == FreeAll(old(State()), SlotFrees(SlotOf(ram, entry, level)))
      decreases level, 0
    {
      ghost var s0 := State();
      if !Unused(entry) {
        if level == 1 || entry.flags.huge {
          if UserOwned(entry) {
            if entry.flags.huge { return false; }
            frames.DeallocateFrame(entry.frame);
            FreeOneMore(s0, [], entry.frame);
          }
        } else {
          ok := FreePagesRec(entry.frame, level - 1);
          return;
        }
      }
      ok := true;
    }
  }

  lemma FreeSlotsStep(ram: Ram, f: nat, level: nat, i: nat, s0: FrameState, s: FrameState, s': FrameState)
    requires level > 0 && i < ENTRIES
    requires s == FreeAll(s0, AllFrees(SlotsOf(ram, f, level, i)))
    requires s' == FreeAll(s, SlotFrees(SlotOf(ram, At(ram, f)[i], level)))
    ensures s' == FreeAll(s0, AllFrees(SlotsOf(ram, f, level, i + 1)))
  {
    var x := SlotOf(ram, At(ram, f)[i], level);
    AppendFrees(SlotsOf(ram, f, level, i), x);
    FreeAllPlus(s0, AllFrees(SlotsOf(ram, f, level, i)), SlotFrees(x));
  }

  // ---------------------------------------------------------------------------------------
  // Main results
  // ---------------------------------------------------------------------------------------

  lemma SourceUnchanged(usable: seq<nat>, ram0: Ram, s0: FrameState, root: nat,
                        ram: Ram, s: FrameState, copy: nat, level: nat)
    requires Distinct(usable) && NoneAvailable(usable, s0, Tables(TreeOf(ram0, root, level)))
    requires IsCopy(usable, ram0, s0, root, ram, s, copy, level)
    ensures TreeOf(ram, root, level) == TreeOf(ram0, root, level)
    ensures forall g <- Tables(TreeOf(ram, copy, level)) ::
              g !in s0.used && g in usable && g !in Tables(TreeOf(ram0, root, level))
  {
    TookFacts(usable, s0, s, Tables(TreeOf(ram, copy, level)));
    forall g | g in Tables(TreeOf(ram0, root, level))
      ensures g !in Tables(TreeOf(ram, copy, level)) && At(ram0, g) == At(ram, g)
    {
      assert !Available(usable, s0, g);
    }
    TreeFrame(ram0, ram, root, level);
  }

  /** The copy means what the source means: every walk ends in the same frame with the same flags
      at every level, huge pages included. The source still translates as before, and each table
      of the copy lives in a frame that was free and is no table of the source. */
  lemma CopyPreservesMeaning(usable: seq<nat>, ram0: Ram, s0: FrameState, root: nat,
                             ram: Ram, s: FrameState, copy: nat, level: nat, path: seq<nat>)
    requires Distinct(usable) && NoneAvailable(usable, s0, Tables(TreeOf(ram0, root, level)))
    requires IsCopy(usable, ram0, s0, root, ram, s, copy, level)
    requires Path(path, level)
    ensures Translate(ram, copy, level, path) == Translate(ram0, root, level, path)
    ensures Translate(ram, root, level, path) == Translate(ram0, root, level, path)
    ensures forall g <- Tables(TreeOf(ram, copy, level)) ::
              g !in s0.used && g in usable && g !in Tables(TreeOf(ram0, root, level))
  {
    SourceUnchanged(usable, ram0, s0, root, ram, s, copy, level);
    SameTranslation(ram, copy, ram0, root, level, path);
    SameTranslation(ram, root, ram0, root, level, path);
  }

  /** Tearing an address space down is exact set subtraction of its tables and its user frames,
      however many mappings share a frame; one free is logged for every one of them. */
  lemma TeardownExact(s: FrameState, t: Tree)
    requires InBitmap(s)
    ensures var after := FreeAll(s, Frees(t));
            && after.used == s.used - Elements(Tables(t)) - Elements(UserFrames(t))
            && after.log.deallocations == s.log.deallocations + |Tables(t)| + |UserFrames(t)|
  {
    FreesElements(t);
    FreeAllExact(s, Frees(t));
  }

  /** Copying a tree and then freeing the copy takes from the frames in use exactly the user frames
      the source maps. So it is the identity on frame usage exactly when the source maps no user
      frame that is in use, in particular when it maps none. */
  lemma CopyThenFree(usable: seq<nat>, ram0: Ram, s0: FrameState, root: nat,
                     ram: Ram, s: FrameState, copy: nat, level: nat)
    requires Distinct(usable) && InBitmap(s0)
    requires IsCopy(usable, ram0, s0, root, ram, s, copy, level)
    ensures var after := FreeAll(s, Frees(TreeOf(ram, copy, level)));
            var owned := Elements(UserFrames(TreeOf(ram0, root, level)));
            && after.used == s0.used - owned
            && (after.used == s0.used <==> owned !! s0.used)
    ensures NoHugeUserPage(TreeOf(ram, copy, level)) <==> NoHugeUserPage(TreeOf(ram0, root, level))
  {
    var mine, theirs := TreeOf(ram, copy, level), TreeOf(ram0, root, level);
    SameUserFrames(mine, theirs);
    TookThenFree(usable, s0, s, mine);
  }

  lemma TookThenFree(usable: seq<nat>, s0: FrameState, s: FrameState, t: Tree)
    requires Distinct(usable) && InBitmap(s0) && Took(usable, s0, s, Tables(t))
    ensures var after := FreeAll(s, Frees(t));
            var owned := Elements(UserFrames(t));
            && after.used == s0.used - owned
            && (after.used == s0.used <==> owned !! s0.used)
  {
    TookFacts(usable, s0, s, Tables(t));
    TeardownExact(s, t);
    assert s.used - Elements(Tables(t)) == s0.used;
    if FreeAll(s, Frees(t)).used == s0.used {
      assert Elements(UserFrames(t)) * s0.used == {};
    }
  }
}
