/**
 Four-level page tables as they sit in physical memory, the tree each root denotes, and the
 hardware walk that gives a root its meaning (4-level paging, section 4.5 of the Intel SDM,
 volume 3A).
 */
module PageTables {

  const ENTRIES: nat := 512
  const LEVELS: nat := 4

  datatype Flags = Flags(present: bool, writable: bool, user: bool, huge: bool, rest: nat)

  const NO_FLAGS: Flags := Flags(false, false, false, false, 0)
  const USER_PAGE: Flags := Flags(true, true, true, false, 0)

  /** An entry holds the number of a frame and flags; it is unused when the whole word is zero. */
  datatype Entry = Entry(frame: nat, flags: Flags)

  const ZERO_ENTRY: Entry := Entry(0, NO_FLAGS)

  predicate Unused(e: Entry)
  {
    e == ZERO_ENTRY
  }

  type Table = t: seq<Entry> | |t| == ENTRIES witness seq(ENTRIES, _ => ZERO_ENTRY)

  function ZeroTable(): (t: Table)
    ensures forall i :: 0 <= i < ENTRIES ==> t[i] == ZERO_ENTRY
  {
    seq(ENTRIES, _ => ZERO_ENTRY)
  }

  /** Physical memory read as page tables, by frame number. */
  type Ram = map<nat, Table>

  function At(ram: Ram, f: nat): Table
  {
    if f in ram then ram[f] else ZeroTable()
  }

  /** The entry maps a frame rather than pointing to a table one level down. */
  predicate Maps(e: Entry, level: nat)
  {
    level == 1 || e.flags.huge
  }

  predicate UserOwned(e: Entry)
  {
    e.flags.present && e.flags.writable && e.flags.user
  }

  // ---------------------------------------------------------------------------------------
  // The tree under a root
  // ---------------------------------------------------------------------------------------

  datatype Tree = Node(frame: nat, slots: seq<Slot>)
  datatype Slot = Hole | Leaf(entry: Entry) | Sub(flags: Flags, tree: Tree)

  ghost function TreeOf(ram: Ram, f: nat, level: nat): Tree
    decreases level, ENTRIES + 1
  {
    Node(f, if level == 0 then [] else SlotsOf(ram, f, level, ENTRIES))
  }

  /** The first k slots of the table in frame f. */
  ghost function SlotsOf(ram: Ram, f: nat, level: nat, k: nat): (ss: seq<Slot>)
    requires level > 0 && k <= ENTRIES
    ensures |ss| == k
    decreases level, k
  {
    if k == 0 then []
    else SlotsOf(ram, f, level, k - 1) + [SlotOf(ram, At(ram, f)[k - 1], level)]
  }

  ghost function SlotOf(ram: Ram, e: Entry, level: nat): Slot
    requires level > 0
    decreases level, 0
  {
    if Unused(e) then Hole
    else if Maps(e, level) then Leaf(e)
    else Sub(e.flags, TreeOf(ram, e.frame, level - 1))
  }

  /** The frames holding tables, parents before children. */
  ghost function Tables(t: Tree): seq<nat>
  {
    [t.frame] + AllTables(t.slots)
  }

  ghost function SlotTables(x: Slot): seq<nat>
  {
    if x.Sub? then Tables(x.tree) else []
  }

  ghost function AllTables(ss: seq<Slot>): seq<nat>
  {
    if ss == [] then [] else AllTables(ss[..|ss| - 1]) + SlotTables(ss[|ss| - 1])
  }

  /** The frames of the user-owned mappings, with repetitions. */
  ghost function UserFrames(t: Tree): seq<nat>
  {
    AllUserFrames(t.slots)
  }

  ghost function SlotUserFrames(x: Slot): seq<nat>
  {
    match x
    case Hole => []
    case Leaf(e) => if UserOwned(e) then [e.frame] else []
    case Sub(_, t) => UserFrames(t)
  }

  ghost function AllUserFrames(ss: seq<Slot>): seq<nat>
  {
    if ss == [] then [] else AllUserFrames(ss[..|ss| - 1]) + SlotUserFrames(ss[|ss| - 1])
  }

  /** No user-owned mapping is a huge page. */
  ghost predicate NoHugeUserPage(t: Tree)
  {
    NoneHugeUser(t.slots)
  }

  ghost predicate NotHugeUser(x: Slot)
  {
    match x
    case Hole => true
    case Leaf(e) => UserOwned(e) ==> !e.flags.huge
    case Sub(_, t) => NoHugeUserPage(t)
  }

  ghost predicate NoneHugeUser(ss: seq<Slot>)
  {
    ss != [] ==> NoneHugeUser(ss[..|ss| - 1]) && NotHugeUser(ss[|ss| - 1])
  }

  /** The tree with the numbers of its table frames forgotten. */
  ghost function Erase(t: Tree): Tree
  {
    Node(0, EraseAll(t.slots))
  }

  ghost function EraseSlot(x: Slot): Slot
  {
    if x.Sub? then Sub(x.flags, Erase(x.tree)) else x
  }

  ghost function EraseAll(ss: seq<Slot>): (r: seq<Slot>)
    ensures |r| == |ss|
  {
    if ss == [] then [] else EraseAll(ss[..|ss| - 1]) + [EraseSlot(ss[|ss| - 1])]
  }

  /** How each summary grows when one slot is appended. */
  lemma AppendTables(ss: seq<Slot>, x: Slot)
    ensures AllTables(ss + [x]) == AllTables(ss) + SlotTables(x)
  {
    assert (ss + [x])[..|ss + [x]| - 1] == ss;
  }

  lemma AppendSlot(ss: seq<Slot>, x: Slot)
    ensures AllUserFrames(ss + [x]) == AllUserFrames(ss) + SlotUserFrames(x)
    ensures NoneHugeUser(ss + [x]) == (NoneHugeUser(ss) && NotHugeUser(x))
    ensures EraseAll(ss + [x]) == EraseAll(ss) + [EraseSlot(x)]
  {
    assert (ss + [x])[..|ss + [x]| - 1] == ss;
  }

  // ---------------------------------------------------------------------------------------
  // Framing: a tree depends only on the frames of its tables
  // ---------------------------------------------------------------------------------------

  ghost predicate AgreeOn(a: Ram, b: Ram, fs: seq<nat>)
  {
    forall f <- fs :: At(a, f) == At(b, f)
  }

  lemma {:induction false} TreeFrame(a: Ram, b: Ram, f: nat, level: nat)
    requires AgreeOn(a, b, Tables(TreeOf(a, f, level)))
    ensures TreeOf(a, f, level) == TreeOf(b, f, level)
    decreases level, ENTRIES + 1
  {
    if level > 0 {
      assert f in Tables(TreeOf(a, f, level));
      SlotsFrame(a, b, f, level, ENTRIES);
    }
  }

  lemma {:induction false} SlotsFrame(a: Ram, b: Ram, f: nat, level: nat, k: nat)
    requires level > 0 && k <= ENTRIES
    requires forall j :: 0 <= j < k ==> At(a, f)[j] == At(b, f)[j]
    requires AgreeOn(a, b, AllTables(SlotsOf(a, f, level, k)))
    ensures SlotsOf(a, f, level, k) == SlotsOf(b, f, level, k)
    decreases level, k
  {
    if k > 0 {
      var e := At(a, f)[k - 1];
      AppendTables(SlotsOf(a, f, level, k - 1), SlotOf(a, e, level));
      SlotsFrame(a, b, f, level, k - 1);
      SlotFrame(a, b, e, level);
    }
  }

  lemma {:induction false} SlotFrame(a: Ram, b: Ram, e: Entry, level: nat)
    requires level > 0 && AgreeOn(a, b, SlotTables(SlotOf(a, e, level)))
    ensures SlotOf(a, e, level) == SlotOf(b, e, level)
    decreases level, 0
  {
    if !Unused(e) && !Maps(e, level) {
      TreeFrame(a, b, e.frame, level - 1);
    }
  }

  /** A subtree's tables are among the tables of the slots it belongs to. */
  lemma {:induction false} SubTablesWithin(ram: Ram, f: nat, level: nat, i: nat, k: nat)
    requires level > 0 && i < k <= ENTRIES
    requires SlotOf(ram, At(ram, f)[i], level).Sub?
    ensures forall g <- Tables(SlotOf(ram, At(ram, f)[i], level).tree) ::
              g in AllTables(SlotsOf(ram, f, level, k))
    ensures |AllTables(SlotsOf(ram, f, level, i))| + |Tables(SlotOf(ram, At(ram, f)[i], level).tree)|
            <= |AllTables(SlotsOf(ram, f, level, k))|
    decreases k
  {
    AppendSlot(SlotsOf(ram, f, level, k - 1), SlotOf(ram, At(ram, f)[k - 1], level));
    if i < k - 1 {
      SubTablesWithin(ram, f, level, i, k - 1);
    }
  }

  // ---------------------------------------------------------------------------------------
  // Meaning: the hardware walk
  // ---------------------------------------------------------------------------------------

  /** The outcome of a walk: the level it ended on and the flags of every entry on the way. */
  datatype Translation =
    | Fault(trail: seq<Flags>)
    | Page(frame: nat, level: nat, trail: seq<Flags>)

  ghost predicate Path(path: seq<nat>, level: nat)
  {
    |path| == level && forall i :: 0 <= i < |path| ==> path[i] < ENTRIES
  }

  function Below(fl: Flags, t: Translation): Translation
  {
    match t
    case Fault(trail) => Fault([fl] + trail)
    case Page(f, l, trail) => Page(f, l, [fl] + trail)
  }

  /** What the memory-management unit makes of the indices `path` from the table in frame f. */
  ghost function Translate(ram: Ram, f: nat, level: nat, path: seq<nat>): Translation
    requires Path(path, level)
    decreases level
  {
    if level == 0 then Fault([]) else
      var e := At(ram, f)[path[0]];
      if !e.flags.present then Fault([e.flags])
      else if level == 1 || e.flags.huge then Page(e.frame, level, [e.flags])
      else Below(e.flags, Translate(ram, e.frame, level - 1, path[1..]))
  }

  lemma {:induction false} ErasedSlot(ram: Ram, f: nat, level: nat, k: nat, i: nat)
    requires level > 0 && i < k <= ENTRIES
    ensures var x := SlotOf(ram, At(ram, f)[i], level);
            EraseAll(SlotsOf(ram, f, level, k))[i] == EraseSlot(x)
    decreases k
  {
    AppendSlot(SlotsOf(ram, f, level, k - 1), SlotOf(ram, At(ram, f)[k - 1], level));
    if i < k - 1 {
      ErasedSlot(ram, f, level, k - 1, i);
    }
  }

  /** Trees that differ only in where their tables live translate every address alike. */
  lemma {:induction false} SameTranslation(a: Ram, f: nat, b: Ram, g: nat, level: nat, path: seq<nat>)
    requires Path(path, level)
    requires Erase(TreeOf(a, f, level)) == Erase(TreeOf(b, g, level))
    ensures Translate(a, f, level, path) == Translate(b, g, level, path)
    decreases level
  {
    if level > 0 {
      var i := path[0];
      ErasedSlot(a, f, level, ENTRIES, i);
      ErasedSlot(b, g, level, ENTRIES, i);
      var e, e' := At(a, f)[i], At(b, g)[i];
      if SlotOf(a, e, level).Sub? {
        SameTranslation(a, e.frame, b, e'.frame, level - 1, path[1..]);
      }
    }
  }

  /** Trees that differ only in where their tables live own the same user frames. */
  lemma {:induction false} SameUserFrames(s: Tree, t: Tree)
    requires Erase(s) == Erase(t)
    ensures UserFrames(s) == UserFrames(t) && NoHugeUserPage(s) == NoHugeUserPage(t)
    ensures |Tables(s)| == |Tables(t)|
    decreases s
  {
    SameAllUserFrames(s.slots, t.slots);
  }

  lemma {:induction false} SameSlotUserFrames(x: Slot, y: Slot)
    requires EraseSlot(x) == EraseSlot(y)
    ensures SlotUserFrames(x) == SlotUserFrames(y) && NotHugeUser(x) == NotHugeUser(y)
    ensures |SlotTables(x)| == |SlotTables(y)|
    decreases x
  {
    if x.Sub? {
      SameUserFrames(x.tree, y.tree);
    }
  }

  lemma {:induction false} SameAllUserFrames(ss: seq<Slot>, tt: seq<Slot>)
    requires EraseAll(ss) == EraseAll(tt)
    ensures AllUserFrames(ss) == AllUserFrames(tt) && NoneHugeUser(ss) == NoneHugeUser(tt)
    ensures |AllTables(ss)| == |AllTables(tt)|
    decreases ss
  {
    assert |EraseAll(ss)| == |EraseAll(tt)|;
    if ss != [] {
      var n := |ss| - 1;
      var x, y := ss[n], tt[n];
      assert EraseAll(ss)[..n] == EraseAll(ss[..n]);
      assert EraseAll(tt)[..n] == EraseAll(tt[..n]);
      assert EraseAll(ss)[n] == EraseAll(tt)[n];
      SameAllUserFrames(ss[..n], tt[..n]);
      SameSlotUserFrames(x, y);
    }
  }
}
