/**
 Concrete inputs on which memory management falls short of its intent.
 */
module MemoryWitnesses {
  import opened Frames
  import opened PageTables
  import opened TableWrites
  import opened AddressSpaces
  import opened StackLayout

  /** A region of one page and one byte, which a boot loader that reports whole frames never passes on:
      two frames can be granted, one is counted. */
  lemma PartialPageMiscounted()
    ensures var m: MemoryMap := [Region(4096, 8193, true)];
            UsableFrames(m) == [1, 2] && TotalFrames(m) == 1
  {
    var m: MemoryMap := [Region(4096, 8193, true)];
    assert m[1..] == [];
    assert FramesBetween(12288, 8193) == [];
    assert FramesBetween(8192, 8193) == [2] + FramesBetween(12288, 8193);
    assert FramesBetween(4096, 8193) == [1] + FramesBetween(8192, 8193);
  }

  /** Freeing a frame twice: nothing is in use, and the logged usage is one page below zero, modulo
      2^64. */
  lemma StaleFreeMislogged()
    ensures var s := Run([1], [Take, Give(1), Give(1)]);
            s.used == {} && s.log.used == WORD - PAGE_SIZE
  {
    var ops := [Take, Give(1), Give(1)];
    assert ops[..2] == [Take, Give(1)];
    assert [Take, Give(1)][..1] == [Take];
    assert [Take][..0] == [];
    assert Run([1], [Take]).used == {1} && Run([1], [Take]).log.used == PAGE_SIZE;
    assert Run([1], [Take, Give(1)]).used == {} && Run([1], [Take, Give(1)]).log.used == 0;
  }

  /** A stack is allocated in an empty table and freed; its slot still counts as occupied. */
  lemma FreedSlotStaysOccupied(fs: seq<nat>)
    requires |fs| == STACK_PAGES && 0 !in fs
    ensures var filled := StackStep(NoStacks, Fill(0, fs));
            var freed := StackStep(filled, Release(0));
            && StackRun([NoStacks, filled, freed], [Fill(0, fs), Release(0)])
            && freed.live == {} && Occupied(freed.table, 0)
  {
    var filled := StackStep(NoStacks, Fill(0, fs));
    var freed := StackStep(filled, Release(0));
    assert Enabled(NoStacks, Fill(0, fs));
    assert PageOf(0, 1) && freed.table[1].frame == fs[0];
    assert fs[0] in fs;
  }

  lemma EmptyUnoccupied(n: nat)
    ensures !Occupied(ZeroTable(), n)
  {}

  /** In an empty table, a search that starts at slot 63 panics. */
  lemma SearchPanicsAt63()
    ensures FirstUnoccupied(ZeroTable(), 63, 63)
  {
    EmptyUnoccupied(63);
    assert FirstAt(ZeroTable(), 63, 0) && Visit(63, 0) == 63;
  }

  // ---------------------------------------------------------------------------------------
  // Freeing a copy frees the user's page
  // ---------------------------------------------------------------------------------------

  function Pointing(to: nat): Table
  {
    ZeroTable()[0 := Entry(to, USER_PAGE)]
  }

  /** Tables fs, each pointing to the next in its first entry, the last one to the user page. */
  ghost predicate Chain(ram: Ram, fs: seq<nat>, page: nat)
    decreases |fs|
  {
    && fs != [] && At(ram, fs[0]) == Pointing(if |fs| == 1 then page else fs[1])
    && (|fs| > 1 ==> Chain(ram, fs[1..], page))
  }

  function Holes(n: nat): seq<Slot>
  {
    seq(n, _ => Hole)
  }

  /** The slots ss are x and n holes after it. */
  ghost predicate OneThenHoles(ss: seq<Slot>, x: Slot, n: nat)
  {
    && ss == [x] + Holes(n) && AllTables(ss) == SlotTables(x) && AllUserFrames(ss) == SlotUserFrames(x)
    && EraseAll(ss) == [EraseSlot(x)] + Holes(n)
  }

  lemma OneAlone(x: Slot)
    ensures OneThenHoles([x], x, 0)
  {
    AppendTables([], x);
    AppendSlot([], x);
    assert [] + [x] == [x];
  }

  lemma HoleMore(ss: seq<Slot>, x: Slot, n: nat)
    requires OneThenHoles(ss, x, n)
    ensures OneThenHoles(ss + [Hole], x, n + 1)
  {
    AppendTables(ss, Hole);
    AppendSlot(ss, Hole);
    HolesMore(x, n);
    HolesMore(EraseSlot(x), n);
  }

  lemma HolesMore(x: Slot, n: nat)
    ensures [x] + Holes(n) + [Hole] == [x] + Holes(n + 1)
  {}

  lemma {:induction false} PointingSlots(ram: Ram, f: nat, to: nat, level: nat, k: nat)
    requires level > 0 && 0 < k <= ENTRIES && At(ram, f) == Pointing(to)
    ensures OneThenHoles(SlotsOf(ram, f, level, k), SlotOf(ram, Entry(to, USER_PAGE), level), k - 1)
    decreases k
  {
    var x := SlotOf(ram, Entry(to, USER_PAGE), level);
    if k == 1 {
      assert SlotsOf(ram, f, level, 0) == [];
      OneAlone(x);
    } else {
      PointingSlots(ram, f, to, level, k - 1);
      assert SlotOf(ram, At(ram, f)[k - 1], level) == Hole;
      HoleMore(SlotsOf(ram, f, level, k - 1), x, k - 2);
    }
  }

  lemma PointingTree(ram: Ram, f: nat, to: nat, level: nat)
    requires level > 0 && At(ram, f) == Pointing(to)
    ensures var x, t := SlotOf(ram, Entry(to, USER_PAGE), level), TreeOf(ram, f, level);
            && Tables(t) == [f] + SlotTables(x) && UserFrames(t) == SlotUserFrames(x)
            && Erase(t) == Node(0, [EraseSlot(x)] + Holes(ENTRIES - 1))
  {
    PointingSlots(ram, f, to, level, ENTRIES);
  }

  lemma {:induction false} ChainTree(ram: Ram, fs: seq<nat>, page: nat, level: nat)
    requires Chain(ram, fs, page) && level == |fs|
    ensures Tables(TreeOf(ram, fs[0], level)) == fs && UserFrames(TreeOf(ram, fs[0], level)) == [page]
    decreases level
  {
    PointingTree(ram, fs[0], if |fs| == 1 then page else fs[1], level);
    if |fs| > 1 {
      ChainTree(ram, fs[1..], page, level - 1);
      SubSlot(ram, Entry(fs[1], USER_PAGE), level);
    }
  }

  lemma {:induction false} ChainsAlike(ram: Ram, fs: seq<nat>, ram': Ram, fs': seq<nat>, page: nat, level: nat)
    requires Chain(ram, fs, page) && Chain(ram', fs', page) && level == |fs| == |fs'|
    ensures Erase(TreeOf(ram, fs[0], level)) == Erase(TreeOf(ram', fs'[0], level))
    decreases level
  {
    PointingTree(ram, fs[0], if |fs| == 1 then page else fs[1], level);
    PointingTree(ram', fs'[0], if |fs| == 1 then page else fs'[1], level);
    if |fs| > 1 {
      ChainsAlike(ram, fs[1..], ram', fs'[1..], page, level - 1);
    }
  }

  const SOURCE: Ram := map[1 := Pointing(2), 2 := Pointing(3), 3 := Pointing(4), 4 := Pointing(5)]
  const COPIED: Ram := SOURCE[6 := Pointing(7)][7 := Pointing(8)][8 := Pointing(9)][9 := Pointing(5)]
  const SOURCE_STATE: FrameState := FrameState(0, {1, 2, 3, 4, 5}, Log(0, 0, 0, 0))

  lemma SourceChains()
    ensures Chain(SOURCE, [1, 2, 3, 4], 5) && Chain(COPIED, [6, 7, 8, 9], 5)
  {
    assert [1, 2, 3, 4][1..] == [2, 3, 4] && [2, 3, 4][1..] == [3, 4] && [3, 4][1..] == [4];
    assert [6, 7, 8, 9][1..] == [7, 8, 9] && [7, 8, 9][1..] == [8, 9] && [8, 9][1..] == [9];
    assert Chain(SOURCE, [4], 5) && Chain(COPIED, [9], 5);
    assert Chain(SOURCE, [3, 4], 5) && Chain(COPIED, [8, 9], 5);
    assert Chain(SOURCE, [2, 3, 4], 5) && Chain(COPIED, [7, 8, 9], 5);
  }

  lemma SourceTakes(level: nat)
    requires level == 4
    ensures Took([6, 7, 8, 9], SOURCE_STATE, AllocateMany([6, 7, 8, 9], SOURCE_STATE, level), [6, 7, 8, 9])
  {
    TakesAll([6, 7, 8, 9], SOURCE_STATE);
  }

  /** From the start of the list, as many allocations as it is long take all of it. */
  lemma TakesAll(usable: seq<nat>, s: FrameState)
    requires s.next == 0 && forall i :: 0 <= i < |usable| ==> FreeAt(usable, s, i)
    ensures Took(usable, s, AllocateMany(usable, s, |usable|), usable)
  {
    assert NextFrames(usable, s, |usable|) == usable;
  }

  /** A chain of tables copied to the next frames is a copy, and freeing it frees the page. */
  lemma ChainCopied(usable: seq<nat>, ram: Ram, s0: FrameState, fs: seq<nat>, ram': Ram, s: FrameState, fs': seq<nat>,
                    page: nat, level: nat)
    requires Distinct(usable) && InBitmap(s0) && level == |fs| == |fs'|
    requires Chain(ram, fs, page) && Chain(ram', fs', page) && Took(usable, s0, s, fs')
    requires forall g :: g !in fs' ==> At(ram', g) == At(ram, g)
    ensures IsCopy(usable, ram, s0, fs[0], ram', s, fs'[0], level)
    ensures UserFrames(TreeOf(ram, fs[0], level)) == [page]
    ensures page !in FreeAll(s, Frees(TreeOf(ram', fs'[0], level))).used
  {
    ChainTree(ram, fs, page, level);
    ChainTree(ram', fs', page, level);
    ChainsAlike(ram', fs', ram, fs, page, level);
    CopyThenFree(usable, ram, s0, fs[0], ram', s, fs'[0], level);
    assert page in Elements(UserFrames(TreeOf(ram, fs[0], level)));
  }

  /** Four tables in frames 1 to 4 lead to a user page in frame 5. They are copied to frames 6 to 9;
      freeing the copy frees frame 5, which the source still maps. */
  lemma CopyFreesUserPage(level: nat)
    requires level == LEVELS
    ensures var s := AllocateMany([6, 7, 8, 9], SOURCE_STATE, level);
            && IsCopy([6, 7, 8, 9], SOURCE, SOURCE_STATE, 1, COPIED, s, 6, level)
            && UserFrames(TreeOf(SOURCE, 1, level)) == [5] && 5 in SOURCE_STATE.used
            && 5 !in FreeAll(s, Frees(TreeOf(COPIED, 6, level))).used
  {
    var s := AllocateMany([6, 7, 8, 9], SOURCE_STATE, level);
    SourceChains();
    SourceTakes(level);
    ChainCopied([6, 7, 8, 9], SOURCE, SOURCE_STATE, [1, 2, 3, 4], COPIED, s, [6, 7, 8, 9], 5, level);
  }
}
