/**
 Allocating and freeing user stacks in a process's page tables, in place, and the account of
 frames across both.
 */
module UserStacks {
  import opened Options
  import opened Frames
  import opened PageTables
  import opened TableWrites
  import opened AddressSpaces
  import opened SpaceBalance
  import opened StackLayout

  /** Each mapped page of the stack table has its own frame, mapped once in the whole space. */
  ghost predicate OwnFrames(table: Table, user: seq<nat>)
  {
    && (forall i :: 0 <= i < ENTRIES && table[i].flags == USER_PAGE ==> multiset(user)[table[i].frame] == 1)
    && (forall i, j :: 0 <= i < j < ENTRIES && table[i].flags == USER_PAGE && table[j].flags == USER_PAGE ==>
          table[i].frame != table[j].frame)
  }

  /** A sound space without huge user pages, which a teardown would panic on. */
  ghost predicate Sane(ram: Ram, s: FrameState, root: nat, level: nat)
  {
    Sound(s, TreeOf(ram, root, level)) && NoHugeUserPage(TreeOf(ram, root, level))
  }

  /** A sane space of the given level whose stack table, a level-1 table, sits in frame t. */
  ghost predicate StackSpace(ram: Ram, s: FrameState, root: nat, level: nat, path: seq<nat>, t: nat)
  {
    && |path| + 1 == level
    && Sane(ram, s, root, level)
    && Reaches(ram, root, level, path, t)
    && StackTable(At(ram, t))
    && OwnFrames(At(ram, t), UserFrames(TreeOf(ram, root, level)))
  }

  // ---------------------------------------------------------------------------------------
  // One page at a time
  // ---------------------------------------------------------------------------------------

  ghost function PageFrames(e: Entry): seq<nat>
  {
    if UserOwned(e) then [e.frame] else []
  }

  lemma PageSlot(ram: Ram, e: Entry)
    ensures SlotTables(SlotOf(ram, e, 1)) == []
    ensures SlotUserFrames(SlotOf(ram, e, 1)) == PageFrames(e)
  {}

  /** What a write to entry i of the stack table does to the space's account. */
  lemma StackWrite(ram: Ram, s: FrameState, root: nat, level: nat, path: seq<nat>, t: nat, i: nat, e: Entry, ram': Ram)
    requires StackSpace(ram, s, root, level, path, t) && i < ENTRIES && ram' == WithEntry(ram, t, i, e)
    requires !e.flags.huge
    ensures Reaches(ram', root, level, path, t) && NoHugeUserPage(TreeOf(ram', root, level))
    ensures Exchanged(Tables(TreeOf(ram, root, level)), Tables(TreeOf(ram', root, level)), [], [])
    ensures Exchanged(UserFrames(TreeOf(ram, root, level)), UserFrames(TreeOf(ram', root, level)),
                      PageFrames(At(ram, t)[i]), PageFrames(e))
  {
    StillReaches(ram, ram', root, level, path, t);
    PageSlot(ram, At(ram, t)[i]);
    PageSlot(ram', e);
    WriteEntry(ram, ram', root, level, path, t, i, SlotOf(ram, At(ram, t)[i], 1), SlotOf(ram', e, 1));
    WriteNotHuge(ram, ram', root, level, path, t, i);
  }

  lemma OwnFramesGain(table: Table, user: seq<nat>, user': seq<nat>, i: nat, g: nat)
    requires OwnFrames(table, user) && i < ENTRIES && g !in user
    requires Exchanged(user, user', [], [g])
    ensures OwnFrames(table[i := Entry(g, USER_PAGE)], user')
  {
    InBag(user, g);
    forall j | 0 <= j < ENTRIES && table[j].flags == USER_PAGE
      ensures table[j].frame != g && multiset(user')[table[j].frame] == 1
    {
      InBag(user, table[j].frame);
    }
  }

  lemma OwnFramesLoss(table: Table, user: seq<nat>, user': seq<nat>, i: nat)
    requires OwnFrames(table, user) && i < ENTRIES && table[i].flags == USER_PAGE
    requires Exchanged(user, user', [table[i].frame], [])
    ensures OwnFrames(table[i := Entry(table[i].frame, NO_FLAGS)], user')
  {}

  /** Mapping a freshly granted frame at an unused entry of the stack table. */
  lemma MapStackPage(usable: seq<nat>, ram: Ram, s: FrameState, root: nat, level: nat, path: seq<nat>,
                     t: nat, i: nat, g: nat, ram': Ram, s': FrameState)
    requires GoodFrames(usable) && StackSpace(ram, s, root, level, path, t)
    requires i < ENTRIES && Unused(At(ram, t)[i]) && Offer(usable, s) == Granted(g)
    requires ram' == WithEntry(ram, t, i, Entry(g, USER_PAGE)) && s' == Allocate(usable, s)
    ensures StackSpace(ram', s', root, level, path, t)
    ensures Balanced(s, TreeOf(ram, root, level), s', TreeOf(ram', root, level))
  {
    StackWrite(ram, s, root, level, path, t, i, Entry(g, USER_PAGE), ram');
    GrantFacts(usable, s, g);
    MapAccount(s, TreeOf(ram, root, level), s', TreeOf(ram', root, level), At(ram, t), i, g);
    MapTable(usable, ram, t, i, g);
  }

  lemma GrantFacts(usable: seq<nat>, s: FrameState, g: nat)
    requires Offer(usable, s) == Granted(g)
    ensures g in usable && g !in s.used && g < BITMAP_SIZE && Allocate(usable, s).used == s.used + {g}
  {}

  lemma MapTable(usable: seq<nat>, ram: Ram, t: nat, i: nat, g: nat)
    requires StackTable(At(ram, t)) && i < ENTRIES && g in usable && 0 !in usable
    ensures var table := At(WithEntry(ram, t, i, Entry(g, USER_PAGE)), t);
            table == At(ram, t)[i := Entry(g, USER_PAGE)] && StackTable(table)
  {}

  lemma MapAccount(s: FrameState, tree: Tree, s': FrameState, tree': Tree, table: Table, i: nat, g: nat)
    requires Sound(s, tree) && OwnFrames(table, UserFrames(tree)) && i < ENTRIES && g !in s.used && g < BITMAP_SIZE
    requires s'.used == s.used + {g}
    requires Exchanged(Tables(tree), Tables(tree'), [], []) && Exchanged(UserFrames(tree), UserFrames(tree'), [], [g])
    ensures Sound(s', tree') && Balanced(s, tree, s', tree')
    ensures OwnFrames(table[i := Entry(g, USER_PAGE)], UserFrames(tree'))
  {
    GainPage(s, tree, s', tree', g);
    OwnFramesGain(table, UserFrames(tree), UserFrames(tree'), i, g);
  }

  /** Freeing a mapped page of the stack table and emptying its flags. */
  lemma UnmapStackPage(ram: Ram, s: FrameState, root: nat, level: nat, path: seq<nat>,
                       t: nat, i: nat, ram': Ram, s': FrameState)
    requires StackSpace(ram, s, root, level, path, t)
    requires i < ENTRIES && At(ram, t)[i].flags == USER_PAGE
    requires ram' == WithEntry(ram, t, i, Entry(At(ram, t)[i].frame, NO_FLAGS))
    requires s' == Deallocate(s, At(ram, t)[i].frame)
    ensures StackSpace(ram', s', root, level, path, t)
    ensures Balanced(s, TreeOf(ram, root, level), s', TreeOf(ram', root, level))
  {
    var g := At(ram, t)[i].frame;
    StackWrite(ram, s, root, level, path, t, i, Entry(g, NO_FLAGS), ram');
    UnmapAccount(s, TreeOf(ram, root, level), s', TreeOf(ram', root, level), At(ram, t), i);
    UnmapTable(ram, t, i);
  }

  lemma UnmapTable(ram: Ram, t: nat, i: nat)
    requires StackTable(At(ram, t)) && i < ENTRIES
    ensures var e := Entry(At(ram, t)[i].frame, NO_FLAGS);
            At(WithEntry(ram, t, i, e), t) == At(ram, t)[i := e] && StackTable(At(ram, t)[i := e])
  {}

  lemma UnmapAccount(s: FrameState, tree: Tree, s': FrameState, tree': Tree, table: Table, i: nat)
    requires Sound(s, tree) && OwnFrames(table, UserFrames(tree)) && i < ENTRIES && table[i].flags == USER_PAGE
    requires s'.used == s.used - {table[i].frame}
    requires Exchanged(Tables(tree), Tables(tree'), [], [])
    requires Exchanged(UserFrames(tree), UserFrames(tree'), [table[i].frame], [])
    ensures Sound(s', tree') && Balanced(s, tree, s', tree')
    ensures OwnFrames(table[i := Entry(table[i].frame, NO_FLAGS)], UserFrames(tree'))
  {
    LosePage(s, tree, s', tree', table[i].frame);
    OwnFramesLoss(table, UserFrames(tree), UserFrames(tree'), i);
  }

  // ---------------------------------------------------------------------------------------
  // Making the tables on the way to the stacks
  // ---------------------------------------------------------------------------------------

  lemma {:induction false} ZeroSlots(ram: Ram, t: nat, level: nat, k: nat)
    requires level > 0 && k <= ENTRIES && ZeroFrom(ram, t, 0)
    ensures AllTables(SlotsOf(ram, t, level, k)) == []
    ensures AllUserFrames(SlotsOf(ram, t, level, k)) == [] && NoneHugeUser(SlotsOf(ram, t, level, k))
    decreases k
  {
    if k > 0 {
      ZeroSlots(ram, t, level, k - 1);
      assert SlotOf(ram, At(ram, t)[k - 1], level) == Hole;
      AppendSlot(SlotsOf(ram, t, level, k - 1), Hole);
    }
  }

  /** Memory after a zeroed table in frame g has been linked at entry i of `cur`. */
  ghost predicate LinkedAt(ram: Ram, cur: nat, i: nat, g: nat, ram': Ram)
    requires i < ENTRIES
  {
    && ZeroFrom(ram', g, 0)
    && At(ram', cur) == At(ram, cur)[i := Entry(g, USER_PAGE)]
    && (forall f :: f != g && f != cur ==> At(ram', f) == At(ram, f))
  }

  lemma EmptyTableSlot(ram: Ram, g: nat, level: nat)
    requires level > 1 && ZeroFrom(ram, g, 0)
    ensures SlotTables(SlotOf(ram, Entry(g, USER_PAGE), level)) == [g]
    ensures SlotUserFrames(SlotOf(ram, Entry(g, USER_PAGE), level)) == []
    ensures NotHugeUser(SlotOf(ram, Entry(g, USER_PAGE), level))
  {
    ZeroSlots(ram, g, level - 1, ENTRIES);
    SubSlot(ram, Entry(g, USER_PAGE), level);
  }

  /** Linking a fresh empty table adds that table to the tree and nothing else. */
  lemma LinkWrite(ram: Ram, root: nat, level: nat, path: seq<nat>, cur: nat, i: nat, g: nat, ram': Ram)
    requires Once(Tables(TreeOf(ram, root, level))) && g !in Tables(TreeOf(ram, root, level))
    requires Reaches(ram, root, level, path, cur) && |path| + 1 < level
    requires i < ENTRIES && Unused(At(ram, cur)[i]) && LinkedAt(ram, cur, i, g, ram')
    ensures Reaches(ram', root, level, path, cur)
    ensures Exchanged(Tables(TreeOf(ram, root, level)), Tables(TreeOf(ram', root, level)), [], [g])
    ensures Exchanged(UserFrames(TreeOf(ram, root, level)), UserFrames(TreeOf(ram', root, level)), [], [])
    ensures NoHugeUserPage(TreeOf(ram, root, level)) ==> NoHugeUserPage(TreeOf(ram', root, level))
  {
    var l := level - |path|;
    StillReaches(ram, ram', root, level, path, cur);
    EmptyTableSlot(ram', g, l);
    WriteEntry(ram, ram', root, level, path, cur, i, Hole, SlotOf(ram', Entry(g, USER_PAGE), l));
    if NoHugeUserPage(TreeOf(ram, root, level)) {
      WriteNotHuge(ram, ram', root, level, path, cur, i);
    }
  }

  lemma LinkTable(usable: seq<nat>, ram: Ram, s: FrameState, root: nat, level: nat, path: seq<nat>,
                  cur: nat, i: nat, g: nat, ram': Ram, s': FrameState)
    requires Sane(ram, s, root, level)
    requires Reaches(ram, root, level, path, cur) && |path| + 1 < level
    requires i < ENTRIES && Unused(At(ram, cur)[i]) && LinkedAt(ram, cur, i, g, ram')
    requires Offer(usable, s) == Granted(g) && s' == Allocate(usable, s)
    ensures Sane(ram', s', root, level)
    ensures Balanced(s, TreeOf(ram, root, level), s', TreeOf(ram', root, level))
    ensures Reaches(ram', root, level, path, cur)
  {
    LinkWrite(ram, root, level, path, cur, i, g, ram');
    GainTable(s, TreeOf(ram, root, level), s', TreeOf(ram', root, level), g);
  }

  /** Reaching one step further. */
  lemma {:induction false} ReachesNext(ram: Ram, f: nat, level: nat, path: seq<nat>, t: nat, i: nat)
    requires Reaches(ram, f, level, path, t) && |path| + 1 < level && i < ENTRIES
    requires var e := At(ram, t)[i]; !Unused(e) && !e.flags.huge
    ensures Reaches(ram, f, level, path + [i], At(ram, t)[i].frame)
    decreases level
  {
    if path == [] {
      assert ([] + [i])[1..] == [];
    } else {
      ReachesNext(ram, At(ram, f)[path[0]].frame, level - 1, path[1..], t, i);
      assert (path + [i])[1..] == path[1..] + [i];
    }
  }

  /** No huge page sits on the path as far as it exists. */
  ghost predicate PathClear(ram: Ram, f: nat, path: seq<nat>)
    decreases |path|
  {
    path != [] ==>
      && path[0] < ENTRIES
      && var e := At(ram, f)[path[0]];
         Unused(e) || (!e.flags.huge && PathClear(ram, e.frame, path[1..]))
  }

  /** A sound space in which the stack table, if it exists yet, holds only stack pages. */
  ghost predicate StackReady(ram: Ram, s: FrameState, root: nat, level: nat, path: seq<nat>)
  {
    && |path| + 1 == level
    && Sane(ram, s, root, level)
    && PathClear(ram, root, path)
    && (forall t :: Reaches(ram, root, level, path, t) ==> StackSpace(ram, s, root, level, path, t))
  }

  lemma NewStackSpace(ram: Ram, s: FrameState, root: nat, level: nat, path: seq<nat>, t: nat)
    requires |path| + 1 == level && Sane(ram, s, root, level)
    requires Reaches(ram, root, level, path, t) && ZeroFrom(ram, t, 0)
    ensures StackSpace(ram, s, root, level, path, t)
  {}

  lemma ZeroPathClear(ram: Ram, t: nat, path: seq<nat>)
    requires ZeroFrom(ram, t, 0) && forall i :: 0 <= i < |path| ==> path[i] < ENTRIES
    ensures PathClear(ram, t, path)
  {}

  // ---------------------------------------------------------------------------------------
  // The in-place operations
  // ---------------------------------------------------------------------------------------

  /** One step of the walk down: the table below entry i of `cur`, created if the entry is unused.
      None is the panic when no frame is granted. */
  method Descend(mem: PhysicalMemory, cur: nat, i: nat,
                 ghost root: nat, ghost level: nat, ghost path: seq<nat>) returns (r: Option<nat>)
    requires mem.Valid() && i < ENTRIES && |path| + 1 < level
    requires Sane(mem.ram, mem.State(), root, level)
    requires Reaches(mem.ram, root, level, path, cur)
    requires !At(mem.ram, cur)[i].flags.huge
    modifies mem, mem.frames, mem.frames.usage, mem.frames.logger
    ensures mem.Valid()
    ensures r.None? <==> old(Unused(At(mem.ram, cur)[i])) && !Offer(mem.Usable, old(mem.State())).Granted?
    ensures r.Some? && old(Unused(At(mem.ram, cur)[i])) ==>
              Offer(mem.Usable, old(mem.State())) == Granted(r.value) &&
              mem.State() == Allocate(mem.Usable, old(mem.State()))
    ensures r.Some? ==> Sane(mem.ram, mem.State(), root, level)
    ensures r.Some? ==> Reaches(mem.ram, root, level, path + [i], r.value)
    ensures r.Some? ==> Balanced(old(mem.State()), TreeOf(old(mem.ram), root, level),
                                 mem.State(), TreeOf(mem.ram, root, level))
    ensures r.Some? && !old(Unused(At(mem.ram, cur)[i])) ==>
              r.value == old(At(mem.ram, cur)[i].frame) && mem.ram == old(mem.ram) && mem.State() == old(mem.State())
    ensures r.Some? && old(Unused(At(mem.ram, cur)[i])) ==> ZeroFrom(mem.ram, r.value, 0)
  {
    ghost var ram0, s0 := mem.ram, mem.State();
    if Unused(At(mem.ram, cur)[i]) {
      var g := mem.CreatePagetable();
      if g.None? { return None; }
      ReachedIsTable(ram0, root, level, path, cur);
      assert g.value in mem.Usable && g.value != cur;
      mem.SetEntry(cur, i, Entry(g.value, USER_PAGE));
      LinkTable(mem.Usable, ram0, s0, root, level, path, cur, i, g.value, mem.ram, mem.State());
    }
    ReachesNext(mem.ram, root, level, path, cur, i);
    r := Some(At(mem.ram, cur)[i].frame);
  }

  /** If the entry after a prefix of the path is unused, the whole path leads nowhere. */
  lemma {:induction false} FollowStops(ram: Ram, f: nat, level: nat, path: seq<nat>, i: nat, cur: nat)
    requires i < |path| < level && path[i] < ENTRIES
    requires Reaches(ram, f, level, path[..i], cur) && Unused(At(ram, cur)[path[i]])
    ensures Follow(ram, f, level, path) == []
    decreases level
  {
    if i > 0 {
      assert path[..i][0] == path[0] && path[..i][1..] == path[1..][..i - 1];
      FollowStops(ram, At(ram, f)[path[0]].frame, level - 1, path[1..], i - 1, cur);
    }
  }

  /** How many tables on the path do not exist yet. */
  ghost function Missing(ram: Ram, f: nat, path: seq<nat>): nat
    decreases |path|
  {
    if path == [] then 0
    else if path[0] >= ENTRIES || Unused(At(ram, f)[path[0]]) then |path|
    else Missing(ram, At(ram, f)[path[0]].frame, path[1..])
  }

  lemma ZeroMissing(ram: Ram, t: nat, path: seq<nat>)
    requires ZeroFrom(ram, t, 0) && forall i :: 0 <= i < |path| ==> path[i] < ENTRIES
    ensures Missing(ram, t, path) == |path|
  {}

  /** The walk has got i steps down, to `table`, taking the frames `new` for the tables it made. */
  ghost predicate Walked(usable: seq<nat>, ram0: Ram, s0: FrameState, ram: Ram, s: FrameState,
                         root: nat, path: seq<nat>, i: nat, table: nat, new': seq<nat>)
    requires i <= |path|
  {
    && Took(usable, s0, s, new') && |new'| + Missing(ram, table, path[i..]) == Missing(ram0, root, path)
    && (new' == [] ==> ram == ram0 && s == s0)
  }

  lemma WalkedOn(usable: seq<nat>, ram0: Ram, s0: FrameState, ram: Ram, s: FrameState, ram': Ram, s': FrameState,
                 root: nat, path: seq<nat>, i: nat, table: nat, next: nat, new': seq<nat>) returns (new'': seq<nat>)
    requires Distinct(usable) && i < |path| && (forall k :: 0 <= k < |path| ==> path[k] < ENTRIES)
    requires Walked(usable, ram0, s0, ram, s, root, path, i, table, new')
    requires if Unused(At(ram, table)[path[i]])
             then Offer(usable, s) == Granted(next) && s' == Allocate(usable, s) && ZeroFrom(ram', next, 0)
             else ram' == ram && s' == s && next == At(ram, table)[path[i]].frame
    ensures Walked(usable, ram0, s0, ram', s', root, path, i + 1, next, new'')
    ensures new' <= new'' && (Unused(At(ram, table)[path[i]]) <==> new'' != new')
  {
    assert path[i..][0] == path[i] && path[i..][1..] == path[i + 1..];
    if Unused(At(ram, table)[path[i]]) {
      TookOne(usable, s, next);
      TookPlus(usable, s0, s, s', new', [next]);
      ZeroMissing(ram', next, path[i + 1..]);
      new'' := new' + [next];
    } else {
      new'' := new';
    }
  }

  lemma WalkFails(usable: seq<nat>, ram0: Ram, s0: FrameState, ram: Ram, s: FrameState,
                  root: nat, path: seq<nat>, i: nat, table: nat, new': seq<nat>)
    requires Distinct(usable) && i < |path| && path[i] < ENTRIES
    requires Walked(usable, ram0, s0, ram, s, root, path, i, table, new')
    requires Unused(At(ram, table)[path[i]]) && !Offer(usable, s).Granted?
    ensures !Grantable(usable, s0, Missing(ram0, root, path))
  {
    Refused(usable, s);
    RanOut(usable, s0, s, new', 1, Missing(ram0, root, path));
  }

  /** Walks down to the stack table, creating what is missing, and panics exactly when there are not
      enough frames for it. The missing tables get the next frames. An existing stack table is found
      with nothing changed; otherwise the result is a fresh empty one. */
  method ReachStackTable(mem: PhysicalMemory, root: nat, level: nat, path: seq<nat>) returns (r: Option<nat>)
    requires mem.Valid() && StackReady(mem.ram, mem.State(), root, level, path)
    requires forall i :: 0 <= i < |path| ==> path[i] < ENTRIES
    modifies mem, mem.frames, mem.frames.usage, mem.frames.logger
    ensures mem.Valid()
    ensures r.Some? <==> Grantable(mem.Usable, old(mem.State()), Missing(old(mem.ram), root, path))
    ensures r.Some? ==> mem.State() == AllocateMany(mem.Usable, old(mem.State()), Missing(old(mem.ram), root, path))
    ensures r.Some? ==> StackSpace(mem.ram, mem.State(), root, level, path, r.value)
    ensures r.Some? ==> Balanced(old(mem.State()), TreeOf(old(mem.ram), root, level),
                                 mem.State(), TreeOf(mem.ram, root, level))
    ensures r.Some? ==> if Follow(old(mem.ram), root, level, path) == []
                        then ZeroFrom(mem.ram, r.value, 0)
                        else mem.ram == old(mem.ram) && Follow(old(mem.ram), root, level, path) == [r.value]
  {
    ghost var ram0, s0 := mem.ram, mem.State();
    var table := root;
    ghost var new' := [];
    TookNone(mem.Usable, s0);
    assert path[0..] == path;
    for i := 0 to |path|
      invariant mem.Valid() && Sane(mem.ram, mem.State(), root, level)
      invariant Reaches(mem.ram, root, level, path[..i], table)
      invariant PathClear(mem.ram, table, path[i..])
      invariant Balanced(s0, TreeOf(ram0, root, level), mem.State(), TreeOf(mem.ram, root, level))
      invariant Walked(mem.Usable, ram0, s0, mem.ram, mem.State(), root, path, i, table, new')
      invariant new' != [] ==> ZeroFrom(mem.ram, table, 0) && Follow(ram0, root, level, path) == []
    {
      if new' == [] && Unused(At(mem.ram, table)[path[i]]) {
        FollowStops(ram0, root, level, path, i, table);
      }
      assert path[i..][0] == path[i] && path[i..][1..] == path[i + 1..] && path[..i] + [path[i]] == path[..i + 1];
      ghost var ram1, s1 := mem.ram, mem.State();
      var next := Descend(mem, table, path[i], root, level, path[..i]);
      if next.None? {
        WalkFails(mem.Usable, ram0, s0, ram1, s1, root, path, i, table, new');
        return None;
      }
      new' := WalkedOn(mem.Usable, ram0, s0, ram1, s1, mem.ram, mem.State(), root, path, i, table, next.value, new');
      table := next.value;
      if new' != [] {
        ZeroPathClear(mem.ram, table, path[i + 1..]);
      }
    }
    assert path[..|path|] == path && path[|path|..] == [];
    if new' != [] {
      NewStackSpace(mem.ram, mem.State(), root, level, path, table);
    }
    r := Some(table);
  }

  /** Maps a fresh frame at the unused entry i of the stack table. */
  method MapPage(mem: PhysicalMemory, t: nat, i: nat, ghost root: nat, ghost level: nat, ghost path: seq<nat>)
    returns (g: Grant)
    requires mem.Valid() && StackSpace(mem.ram, mem.State(), root, level, path, t)
    requires i < ENTRIES && Unused(At(mem.ram, t)[i])
    modifies mem, mem.frames, mem.frames.usage, mem.frames.logger
    ensures mem.Valid() && StackSpace(mem.ram, mem.State(), root, level, path, t)
    ensures Balanced(old(mem.State()), TreeOf(old(mem.ram), root, level), mem.State(), TreeOf(mem.ram, root, level))
    ensures g == Offer(mem.Usable, old(mem.State())) && mem.State() == Allocate(mem.Usable, old(mem.State()))
    ensures g.Granted? ==> g.frame != 0 && mem.ram == WithEntry(old(mem.ram), t, i, Entry(g.frame, USER_PAGE))
    ensures !g.Granted? ==> mem.ram == old(mem.ram)
  {
    ghost var ram0, s0 := mem.ram, mem.State();
    g := mem.frames.AllocateFrame();
    if g.Granted? {
      assert g.frame in mem.Usable;
      mem.SetEntry(t, i, Entry(g.frame, USER_PAGE));
      MapStackPage(mem.Usable, ram0, s0, root, level, path, t, i, g.frame, mem.ram, mem.State());
    }
  }

  datatype Filling = Complete | OutOfFrames | BeyondBitmap

  lemma FilledMore(t: Table, n: nat, fs: seq<nat>, g: nat)
    requires n <= LAST_SLOT && |fs| < STACK_PAGES
    ensures Filled(t, n, fs + [g]) == Filled(t, n, fs)[8 * n + 1 + |fs| := Entry(g, USER_PAGE)]
    ensures Filled(t, n, []) == t
  {}

  /** The frames fs, the next of the cursor, have been mapped as the first pages of slot n. */
  ghost predicate FilledWith(usable: seq<nat>, s0: FrameState, table0: Table, s: FrameState, table: Table, n: nat,
                             fs: seq<nat>)
    requires n <= LAST_SLOT && |fs| <= STACK_PAGES
  {
    Took(usable, s0, s, fs) && table == Filled(table0, n, fs) && 0 !in fs
  }

  lemma NextUnused(usable: seq<nat>, s0: FrameState, table0: Table, s: FrameState, table: Table, n: nat, fs: seq<nat>)
    requires n <= LAST_SLOT && |fs| < STACK_PAGES && FilledWith(usable, s0, table0, s, table, n, fs)
    requires AllUnused(table0, n)
    ensures Unused(table[8 * n + 1 + |fs|])
  {
    assert PageOf(n, 8 * n + 1 + |fs|);
  }

  lemma FilledNext(usable: seq<nat>, s0: FrameState, table0: Table, s: FrameState, table: Table, n: nat, fs: seq<nat>,
                   g: nat)
    requires n <= LAST_SLOT && |fs| < STACK_PAGES && FilledWith(usable, s0, table0, s, table, n, fs)
    requires Distinct(usable) && Offer(usable, s) == Granted(g) && g != 0
    ensures FilledWith(usable, s0, table0, Allocate(usable, s), table[8 * n + 1 + |fs| := Entry(g, USER_PAGE)], n,
                       fs + [g])
  {
    FilledMore(table0, n, fs, g);
    TookOne(usable, s, g);
    TookPlus(usable, s0, s, Allocate(usable, s), fs, [g]);
  }

  /** How filling a slot ended, given the frames fs it took: complete with ten, else because of what
      the allocator then answered. */
  ghost predicate FilledAs(usable: seq<nat>, s0: FrameState, s: FrameState, fs: seq<nat>, r: Filling)
  {
    && Took(usable, s0, s, fs) && |fs| <= STACK_PAGES
    && match r
       case Complete => |fs| == STACK_PAGES
       case OutOfFrames => |fs| < STACK_PAGES && Offer(usable, s) == NoFrame
       case BeyondBitmap => |fs| < STACK_PAGES && Offer(usable, s) == Beyond
  }

  /** So it is complete exactly if the next ten frames of the cursor are free. */
  lemma CompleteIff(usable: seq<nat>, s0: FrameState, s: FrameState, fs: seq<nat>, r: Filling)
    requires Distinct(usable) && FilledAs(usable, s0, s, fs, r)
    ensures r.Complete? <==> Grantable(usable, s0, STACK_PAGES)
  {
    if !r.Complete? {
      Refused(usable, s);
      RanOut(usable, s0, s, fs, 1, STACK_PAGES);
    }
  }

  /** Of the next m positions of the cursor, the first that cannot be granted lies beyond the bitmap. */
  ghost predicate RunsBeyond(usable: seq<nat>, s: FrameState, m: nat)
  {
    exists j :: 0 <= j < m && LeavesAt(usable, s, j)
  }

  ghost predicate LeavesAt(usable: seq<nat>, s: FrameState, j: nat)
  {
    Grantable(usable, s, j) && s.next + j < |usable| && usable[s.next + j] >= BITMAP_SIZE
  }

  /** And it leaves the bitmap exactly if the next ten positions do. */
  lemma BeyondIff(usable: seq<nat>, s0: FrameState, s: FrameState, fs: seq<nat>, r: Filling)
    requires Distinct(usable) && FilledAs(usable, s0, s, fs, r)
    ensures r.BeyondBitmap? <==> RunsBeyond(usable, s0, STACK_PAGES)
  {
    AllocateManyExact(usable, s0, |fs|);
    if r.BeyondBitmap? {
      assert LeavesAt(usable, s0, |fs|);
    } else if j :| 0 <= j < STACK_PAGES && LeavesAt(usable, s0, j) {
      StopsThere(usable, s0, s, fs, r, j);
    }
  }

  /** Filling takes exactly the frames before the one that lies beyond the bitmap. */
  lemma StopsThere(usable: seq<nat>, s0: FrameState, s: FrameState, fs: seq<nat>, r: Filling, j: nat)
    requires Distinct(usable) && FilledAs(usable, s0, s, fs, r) && j < STACK_PAGES && LeavesAt(usable, s0, j)
    ensures |fs| == j && Offer(usable, s) == Beyond
  {
    AllocateManyExact(usable, s0, |fs|);
    assert !FreeAt(usable, s0, s0.next + j);
    if |fs| < j {
      Refused(usable, s);
      GrantableSplit(usable, s0, |fs|, 1);
    }
  }

  /** Maps the pages of slot n one by one to the next frames; it stops part-way exactly when no frame
      is granted, leaving the pages mapped so far. */
  method FillSlot(mem: PhysicalMemory, t: nat, n: nat, ghost root: nat, ghost level: nat, ghost path: seq<nat>)
    returns (r: Filling, ghost fs: seq<nat>)
    requires mem.Valid() && StackSpace(mem.ram, mem.State(), root, level, path, t)
    requires AllUnused(At(mem.ram, t), n)
    modifies mem, mem.frames, mem.frames.usage, mem.frames.logger
    ensures mem.Valid() && StackSpace(mem.ram, mem.State(), root, level, path, t)
    ensures Balanced(old(mem.State()), TreeOf(old(mem.ram), root, level), mem.State(), TreeOf(mem.ram, root, level))
    ensures FilledAs(mem.Usable, old(mem.State()), mem.State(), fs, r)
    ensures At(mem.ram, t) == Filled(old(At(mem.ram, t)), n, fs) && 0 !in fs
  {
    ghost var ram0, s0 := mem.ram, mem.State();
    ghost var table0 := At(mem.ram, t);
    fs := [];
    FilledMore(table0, n, fs, 0);
    TookNone(mem.Usable, s0);
    for j := 0 to STACK_PAGES
      invariant mem.Valid() && StackSpace(mem.ram, mem.State(), root, level, path, t)
      invariant Balanced(s0, TreeOf(ram0, root, level), mem.State(), TreeOf(mem.ram, root, level))
      invariant |fs| == j && FilledWith(mem.Usable, s0, table0, mem.State(), At(mem.ram, t), n, fs)
    {
      NextUnused(mem.Usable, s0, table0, mem.State(), At(mem.ram, t), n, fs);
      ghost var s1, table1 := mem.State(), At(mem.ram, t);
      var g := MapPage(mem, t, 8 * n + 1 + j, root, level, path);
      if !g.Granted? {
        return if g.Beyond? then BeyondBitmap else OutOfFrames, fs;
      }
      FilledNext(mem.Usable, s0, table0, s1, table1, n, fs, g.frame);
      fs := fs + [g.frame];
    }
    r := Complete;
  }

  datatype StackResult =
    | Stacked(start: nat, end: nat)
    | FrameError
    | SlotsFull
    | Panicked

  /** The stack table before an allocation: the one the path leads to, or an empty one. */
  ghost predicate TableBefore(ram: Ram, root: nat, level: nat, path: seq<nat>, t: nat, before: Table)
  {
    if Follow(ram, root, level, path) == [] then forall i :: 0 <= i < ENTRIES ==> before[i] == ZERO_ENTRY
    else Follow(ram, root, level, path) == [t] && before == At(ram, t)
  }

  /** The outcome of allocating a stack from allocator state s0, in a stack table that was `before`
      and is `after`: slot n, the first unoccupied one from `id`, is filled with the next frames fs. */
  ghost predicate StackOutcome(usable: seq<nat>, s0: FrameState, s: FrameState, before: Table, after: Table, id: nat,
                               r: StackResult, n: nat, fs: seq<nat>)
  {
    match r
    case SlotsFull => (forall m :: 0 <= m < STACK_SLOTS ==> Occupied(before, m)) && s == s0 && after == before
    case Stacked(start, end) =>
      && FillsFirst(before, after, id, n, fs) && FilledAs(usable, s0, s, fs, Complete)
      && start == StackStart(n) && end == StackEnd(n)
    case FrameError => FillsFirst(before, after, id, n, fs) && FilledAs(usable, s0, s, fs, OutOfFrames)
    case Panicked =>
      || FirstUnoccupied(before, id, 63)
      || (FillsFirst(before, after, id, n, fs) && FilledAs(usable, s0, s, fs, BeyondBitmap))
  }

  ghost predicate FillsFirst(before: Table, after: Table, id: nat, n: nat, fs: seq<nat>)
  {
    && FirstUnoccupied(before, id, n) && AllUnused(before, n)
    && |fs| <= STACK_PAGES && 0 !in fs && after == Filled(before, n, fs)
  }

  /** Some slot of the table is not occupied. */
  ghost predicate HasRoom(table: Table)
  {
    exists m :: 0 <= m < STACK_SLOTS && !Occupied(table, m)
  }

  /** Which result comes when. A stack is obtained exactly if some slot is unoccupied, the first such is
      not slot 63, and the next ten frames are free; and each other result has its own cause. */
  lemma StackOutcomeIff(usable: seq<nat>, s0: FrameState, s: FrameState, before: Table, after: Table, id: nat,
                        r: StackResult, n: nat, fs: seq<nat>)
    requires Distinct(usable) && StackOutcome(usable, s0, s, before, after, id, r, n, fs)
    ensures r.SlotsFull? <==> !HasRoom(before)
    ensures r.Panicked? <==>
            FirstUnoccupied(before, id, 63) || (HasRoom(before) && RunsBeyond(usable, s0, STACK_PAGES))
    ensures r.Stacked? <==>
            HasRoom(before) && !FirstUnoccupied(before, id, 63) && Grantable(usable, s0, STACK_PAGES)
    ensures r.FrameError? <==>
            HasRoom(before) && !FirstUnoccupied(before, id, 63) && !Grantable(usable, s0, STACK_PAGES) &&
            !RunsBeyond(usable, s0, STACK_PAGES)
  {
    if r.SlotsFull? {
      if FirstUnoccupied(before, id, 63) {
        FirstIsUnique(before, id, 63, 63);
      }
    } else if FirstUnoccupied(before, id, 63) {
      FirstIsUnique(before, id, 63, if r.Panicked? then 63 else n);
    } else {
      FirstIsUnique(before, id, n, n);
      var filling := if r.Stacked? then Complete else if r.FrameError? then OutOfFrames else BeyondBitmap;
      CompleteIff(usable, s0, s, fs, filling);
      BeyondIff(usable, s0, s, fs, filling);
    }
  }

  /** Allocates a stack in the level-1 table that `path` leads to, searching from slot `id` modulo 64.
      It panics exactly when there are not enough frames for the missing tables, or for the causes the
      outcome names. */
  method AllocateStack(mem: PhysicalMemory, root: nat, id: nat, level: nat, path: seq<nat>)
    returns (r: StackResult, ghost t: nat, ghost before: Table, ghost n: nat, ghost fs: seq<nat>)
    requires mem.Valid() && StackReady(mem.ram, mem.State(), root, level, path)
    requires forall i :: 0 <= i < |path| ==> path[i] < ENTRIES
    modifies mem, mem.frames, mem.frames.usage, mem.frames.logger
    ensures mem.Valid()
    ensures var missing := Missing(old(mem.ram), root, path);
            if !Grantable(mem.Usable, old(mem.State()), missing) then r.Panicked?
            else
              && TableBefore(old(mem.ram), root, level, path, t, before)
              && StackOutcome(mem.Usable, AllocateMany(mem.Usable, old(mem.State()), missing), mem.State(),
                              before, At(mem.ram, t), id, r, n, fs)
              && StackSpace(mem.ram, mem.State(), root, level, path, t)
              && Balanced(old(mem.State()), TreeOf(old(mem.ram), root, level),
                          mem.State(), TreeOf(mem.ram, root, level))
  {
    t, before, n, fs := 0, ZeroTable(), 0, [];
    var table := ReachStackTable(mem, root, level, path);
    if table.None? { return Panicked, 0, ZeroTable(), 0, []; }
    t, before := table.value, At(mem.ram, table.value);
    var search := FindSlot(At(mem.ram, table.value), id);
    match search
    case Full => r := SlotsFull;
    case Panic => r := Panicked;
    case Found(slot) =>
      var filling;
      n := slot;
      filling, fs := FillSlot(mem, table.value, slot, root, level, path);
      match filling
      case Complete => r := Stacked(StackStart(slot), StackEnd(slot));
      case OutOfFrames => r := FrameError;
      case BeyondBitmap => r := Panicked;
  }

  /** The level-1 table that maps an address, following entries without checking them. */
  function LevelOneTable(ram: Ram, root: nat, path: seq<nat>): nat
    requires forall i :: 0 <= i < |path| ==> path[i] < ENTRIES
    decreases |path|
  {
    if path == [] then root else LevelOneTable(ram, At(ram, root)[path[0]].frame, path[1..])
  }

  lemma {:induction false} LevelOneReached(ram: Ram, root: nat, level: nat, path: seq<nat>, t: nat)
    requires Reaches(ram, root, level, path, t)
    requires forall i :: 0 <= i < |path| ==> path[i] < ENTRIES
    ensures LevelOneTable(ram, root, path) == t
    decreases |path|
  {
    if path != [] {
      LevelOneReached(ram, At(ram, root)[path[0]].frame, level - 1, path[1..], t);
    }
  }

  /** Releases the frame of entry i if it is writable, and empties its flags. */
  method ClearPage(mem: PhysicalMemory, t: nat, i: nat, ghost root: nat, ghost level: nat, ghost path: seq<nat>)
    requires mem.Valid() && StackSpace(mem.ram, mem.State(), root, level, path, t) && i < ENTRIES
    modifies mem, mem.frames, mem.frames.usage, mem.frames.logger
    ensures mem.Valid() && StackSpace(mem.ram, mem.State(), root, level, path, t)
    ensures Balanced(old(mem.State()), TreeOf(old(mem.ram), root, level), mem.State(), TreeOf(mem.ram, root, level))
    ensures var e := old(At(mem.ram, t)[i]);
            mem.State() == if e.flags.writable then Deallocate(old(mem.State()), e.frame) else old(mem.State())
    ensures mem.ram == WithEntry(old(mem.ram), t, i, Entry(old(At(mem.ram, t)[i].frame), NO_FLAGS))
  {
    ghost var ram0, s0 := mem.ram, mem.State();
    var entry := At(mem.ram, t)[i];
    if entry.flags.writable {
      mem.frames.DeallocateFrame(entry.frame);
      mem.SetEntry(t, i, Entry(entry.frame, NO_FLAGS));
      UnmapStackPage(ram0, s0, root, level, path, t, i, mem.ram, mem.State());
    } else {
      mem.SetEntry(t, i, Entry(entry.frame, NO_FLAGS));
      SameTables(ram0, mem.ram, s0, root, level, path, t);
    }
  }

  lemma ClearedMore(t: Table, n: nat, k: nat, now: Table)
    requires n <= LAST_SLOT && k <= STACK_PAGES + 1
    requires now == PartlyCleared(t, n, k)
    ensures k == 0 ==> now == t
    ensures k == STACK_PAGES + 1 ==> now == Cleared(t, n)
    ensures k <= STACK_PAGES ==>
              var i := 8 * n + STACK_PAGES - k;
              now[i] == t[i] && now[i := Entry(t[i].frame, NO_FLAGS)] == PartlyCleared(t, n, k + 1)
  {}

  /** The last k of the eleven entries cleared. */
  ghost function PartlyCleared(t: Table, n: nat, k: nat): (r: Table)
    ensures forall i :: 0 <= i < ENTRIES ==>
              r[i] == if 8 * n + STACK_PAGES - k < i <= 8 * n + STACK_PAGES then Entry(t[i].frame, NO_FLAGS) else t[i]
  {
    seq(ENTRIES, i requires 0 <= i < ENTRIES =>
      if 8 * n + STACK_PAGES - k < i <= 8 * n + STACK_PAGES then Entry(t[i].frame, NO_FLAGS) else t[i])
  }

  lemma ClearedNone(t: Table, n: nat)
    requires n <= LAST_SLOT
    ensures PartlyCleared(t, n, 0) == t && Released(t, n, 0) == []
  {}

  lemma ReleasedMore(s: FrameState, t: Table, n: nat, k: nat)
    requires n <= LAST_SLOT && k <= STACK_PAGES
    ensures var e := t[8 * n + STACK_PAGES - k];
            FreeAll(s, Released(t, n, k + 1)) ==
            if e.flags.writable then Deallocate(FreeAll(s, Released(t, n, k)), e.frame)
            else FreeAll(s, Released(t, n, k))
  {
    var e := t[8 * n + STACK_PAGES - k];
    FreeOneMore(s, Released(t, n, k), e.frame);
    assert Released(t, n, k + 1) == Released(t, n, k) + if e.flags.writable then [e.frame] else [];
    assert Released(t, n, k) + [] == Released(t, n, k);
  }

  /** The last k of the eleven entries of stack n have been freed and cleared. */
  ghost predicate Clearing(ram0: Ram, s0: FrameState, ram: Ram, s: FrameState,
                           root: nat, level: nat, path: seq<nat>, t: nat, n: nat, k: nat)
    requires n <= LAST_SLOT && k <= STACK_PAGES + 1
  {
    && StackSpace(ram, s, root, level, path, t)
    && Balanced(s0, TreeOf(ram0, root, level), s, TreeOf(ram, root, level))
    && s == FreeAll(s0, Released(At(ram0, t), n, k))
    && At(ram, t) == PartlyCleared(At(ram0, t), n, k)
  }

  method ClearNext(mem: PhysicalMemory, t: nat, i: nat, ghost ram0: Ram, ghost s0: FrameState,
                   ghost root: nat, ghost level: nat, ghost path: seq<nat>, ghost n: nat, ghost k: nat)
    requires n <= LAST_SLOT && k <= STACK_PAGES && i == 8 * n + STACK_PAGES - k
    requires mem.Valid() && Clearing(ram0, s0, mem.ram, mem.State(), root, level, path, t, n, k)
    modifies mem, mem.frames, mem.frames.usage, mem.frames.logger
    ensures mem.Valid() && Clearing(ram0, s0, mem.ram, mem.State(), root, level, path, t, n, k + 1)
  {
    ClearedMore(At(ram0, t), n, k, At(mem.ram, t));
    ReleasedMore(s0, At(ram0, t), n, k);
    ClearPage(mem, t, i, root, level, path);
  }

  /** Frees the stack whose last page is entry `last` of the table t: from there down it releases
      the frame of each writable entry and empties the flags of eleven entries. */
  method ClearPages(mem: PhysicalMemory, t: nat, last: nat, count: nat,
                    ghost root: nat, ghost level: nat, ghost path: seq<nat>, ghost n: nat)
    requires mem.Valid() && StackSpace(mem.ram, mem.State(), root, level, path, t)
    requires n <= LAST_SLOT && last == 8 * n + STACK_PAGES && count == STACK_PAGES + 1
    modifies mem, mem.frames, mem.frames.usage, mem.frames.logger
    ensures mem.Valid() && StackSpace(mem.ram, mem.State(), root, level, path, t)
    ensures Balanced(old(mem.State()), TreeOf(old(mem.ram), root, level), mem.State(), TreeOf(mem.ram, root, level))
    ensures mem.State() == FreeAll(old(mem.State()), Released(old(At(mem.ram, t)), n, count))
    ensures At(mem.ram, t) == Cleared(old(At(mem.ram, t)), n)
  {
    ghost var ram0, s0 := mem.ram, mem.State();
    ClearedNone(At(ram0, t), n);
    for k := 0 to count
      invariant mem.Valid() && Clearing(ram0, s0, mem.ram, mem.State(), root, level, path, t, n, k)
    {
      ClearNext(mem, t, last - k, ram0, s0, root, level, path, n, k);
    }
    ClearedMore(At(ram0, t), n, count, At(mem.ram, t));
  }

  /** Frees the user stack that ends at `stackEnd` in the page tables under `root`: the address
      alone leads back to the right table and the right entries. */
  method FreeStack(mem: PhysicalMemory, root: nat, stackEnd: nat, ghost level: nat, ghost path: seq<nat>,
                   ghost t: nat, ghost n: nat)
    requires mem.Valid() && StackSpace(mem.ram, mem.State(), root, level, path, t)
    requires path == STACK_PATH
    requires n <= LAST_SLOT && stackEnd == StackEnd(n)
    modifies mem, mem.frames, mem.frames.usage, mem.frames.logger
    ensures mem.Valid() && StackSpace(mem.ram, mem.State(), root, level, path, t)
    ensures Balanced(old(mem.State()), TreeOf(old(mem.ram), root, level), mem.State(), TreeOf(mem.ram, root, level))
    ensures mem.State() == FreeAll(old(mem.State()), Released(old(At(mem.ram, t)), n, STACK_PAGES + 1))
    ensures At(mem.ram, t) == Cleared(old(At(mem.ram, t)), n)
  {
    var addr := stackEnd - 1;
    IndicesRecovered(n);
    var indices := [P4(addr), P3(addr), P2(addr)];
    assert indices == path;
    LevelOneReached(mem.ram, root, level, indices, t);
    var table := LevelOneTable(mem.ram, root, indices);
    ClearPages(mem, table, P1(addr), STACK_PAGES + 1, root, level, path, n);
  }

  /** Writing an entry back unchanged leaves the space as it was. */
  lemma SameTables(ram: Ram, ram': Ram, s: FrameState, root: nat, level: nat, path: seq<nat>, t: nat)
    requires StackSpace(ram, s, root, level, path, t)
    requires forall f :: At(ram', f) == At(ram, f)
    ensures StackSpace(ram', s, root, level, path, t)
    ensures TreeOf(ram', root, level) == TreeOf(ram, root, level)
  {
    TreeFrame(ram, ram', root, level);
    StillReaches(ram, ram', root, level, path, t);
  }

  // ---------------------------------------------------------------------------------------
  // The life of an address space
  // ---------------------------------------------------------------------------------------

  lemma {:induction false} ReachedPathClear(ram: Ram, f: nat, level: nat, path: seq<nat>, t: nat)
    requires Reaches(ram, f, level, path, t)
    ensures PathClear(ram, f, path)
    decreases level
  {
    if path != [] {
      ReachedPathClear(ram, At(ram, f)[path[0]].frame, level - 1, path[1..], t);
    }
  }

  /** After any allocation or free of a stack, the space is ready for the next one. */
  lemma ReadyAgain(ram: Ram, s: FrameState, root: nat, level: nat, path: seq<nat>, t: nat)
    requires StackSpace(ram, s, root, level, path, t)
    ensures StackReady(ram, s, root, level, path)
  {
    ReachedPathClear(ram, root, level, path, t);
  }

  /** A copied space whose source maps nothing at the stacks' top-level index is ready for stacks. */
  lemma CopyIsReady(usable: seq<nat>, ram0: Ram, s0: FrameState, root: nat,
                    ram: Ram, s: FrameState, copy: nat, level: nat, path: seq<nat>)
    requires Distinct(usable) && InBitmap(s0)
    requires IsCopy(usable, ram0, s0, root, ram, s, copy, level)
    requires UserFrames(TreeOf(ram0, root, level)) == []
    requires path != [] && |path| + 1 == level && path[0] < ENTRIES
    requires Unused(At(ram0, root)[path[0]])
    ensures StackReady(ram, s, copy, level, path)
  {
    CopySound(usable, ram0, s0, root, ram, s, copy, level);
    SameUserFrames(TreeOf(ram, copy, level), TreeOf(ram0, root, level));
    NoUserNoHuge(TreeOf(ram, copy, level));
    ErasedSlot(ram0, root, level, ENTRIES, path[0]);
    ErasedSlot(ram, copy, level, ENTRIES, path[0]);
  }
}
