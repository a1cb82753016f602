/**
 What a teardown frees, told by paths through the page tables and the flags of their entries.
 */
module Teardown {
  import opened Frames
  import opened PageTables
  import opened TableWrites
  import opened AddressSpaces

  /** The entry points to a table one level down: it is not all zero, and not a huge page. */
  ghost predicate PointsDown(e: Entry)
  {
    e != Entry(0, Flags(false, false, false, false, 0)) && !e.flags.huge
  }

  /** From the table in frame f, `path` leads through entries that point down to the table in frame t. */
  ghost predicate TablePath(ram: Ram, f: nat, level: nat, path: seq<nat>, t: nat)
    decreases level
  {
    if path == [] then t == f
    else
      && level > 1 && path[0] < ENTRIES && PointsDown(At(ram, f)[path[0]])
      && TablePath(ram, At(ram, f)[path[0]].frame, level - 1, path[1..], t)
  }

  /** From the table in frame f, `path` leads to entry e, which maps a frame: on level 1, or a huge page. */
  ghost predicate MapPath(ram: Ram, f: nat, level: nat, path: seq<nat>, e: Entry)
    decreases level
  {
    && level > 0 && path != [] && path[0] < ENTRIES
    && if |path| == 1 then At(ram, f)[path[0]] == e && (level == 1 || e.flags.huge)
       else
         && level > 1 && PointsDown(At(ram, f)[path[0]])
         && MapPath(ram, At(ram, f)[path[0]].frame, level - 1, path[1..], e)
  }

  /** Some path leads to a present, writable entry that user code may use and that maps frame g. */
  ghost predicate UserMapped(ram: Ram, root: nat, level: nat, g: nat)
  {
    exists path, e :: MapPath(ram, root, level, path, e) && e.frame == g &&
      e.flags.present && e.flags.writable && e.flags.user
  }

  /** Some path leads to a table in frame g. */
  ghost predicate HoldsTable(ram: Ram, root: nat, level: nat, g: nat)
  {
    exists path :: TablePath(ram, root, level, path, g)
  }

  // ---------------------------------------------------------------------------------------
  // Tables
  // ---------------------------------------------------------------------------------------

  lemma {:induction false} TablePathFollows(ram: Ram, f: nat, level: nat, path: seq<nat>, t: nat)
    requires level > 0
    ensures TablePath(ram, f, level, path, t) <==> Follow(ram, f, level, path) == [t]
    decreases level
  {
    if path != [] && level > 1 && path[0] < ENTRIES {
      TablePathFollows(ram, At(ram, f)[path[0]].frame, level - 1, path[1..], t);
    }
  }

  lemma {:induction false} FollowShort(ram: Ram, f: nat, level: nat, path: seq<nat>)
    requires level > 0 && Follow(ram, f, level, path) != []
    ensures |path| < level
    decreases level
  {
    if path != [] {
      FollowShort(ram, At(ram, f)[path[0]].frame, level - 1, path[1..]);
    }
  }

  lemma TablesIff(ram: Ram, root: nat, level: nat, g: nat)
    requires level > 0
    ensures g in Tables(TreeOf(ram, root, level)) <==> HoldsTable(ram, root, level, g)
  {
    if g in Tables(TreeOf(ram, root, level)) {
      var path := TableIsReached(ram, root, level, g);
      TablePathFollows(ram, root, level, path, g);
    }
    if path :| TablePath(ram, root, level, path, g) {
      TablePathFollows(ram, root, level, path, g);
      FollowShort(ram, root, level, path);
      ReachedIsTable(ram, root, level, path, g);
    }
  }

  // ---------------------------------------------------------------------------------------
  // User frames
  // ---------------------------------------------------------------------------------------

  lemma {:induction false} UserInAll(ss: seq<Slot>, i: nat, g: nat)
    requires i < |ss| && g in SlotUserFrames(ss[i])
    ensures g in AllUserFrames(ss)
    decreases |ss|
  {
    var n := |ss| - 1;
    if i < n {
      UserInAll(ss[..n], i, g);
    }
  }

  lemma {:induction false} UserSlot(ss: seq<Slot>, g: nat) returns (i: nat)
    requires g in AllUserFrames(ss)
    ensures i < |ss| && g in SlotUserFrames(ss[i])
    decreases |ss|
  {
    var n := |ss| - 1;
    if g in SlotUserFrames(ss[n]) {
      i := n;
    } else {
      i := UserSlot(ss[..n], g);
    }
  }

  lemma {:induction false} MappedIsOwned(ram: Ram, f: nat, level: nat, path: seq<nat>, e: Entry)
    requires MapPath(ram, f, level, path, e) && e.flags.present && e.flags.writable && e.flags.user
    ensures e.frame in UserFrames(TreeOf(ram, f, level))
    decreases level
  {
    SlotsAt(ram, f, level, ENTRIES, path[0]);
    if |path| > 1 {
      MappedIsOwned(ram, At(ram, f)[path[0]].frame, level - 1, path[1..], e);
    }
    UserInAll(SlotsOf(ram, f, level, ENTRIES), path[0], e.frame);
  }

  lemma {:induction false} OwnedIsMapped(ram: Ram, f: nat, level: nat, g: nat) returns (path: seq<nat>, e: Entry)
    requires g in UserFrames(TreeOf(ram, f, level))
    ensures MapPath(ram, f, level, path, e) && e.frame == g && e.flags.present && e.flags.writable && e.flags.user
    decreases level
  {
    var i := UserSlot(SlotsOf(ram, f, level, ENTRIES), g);
    SlotsAt(ram, f, level, ENTRIES, i);
    var x := At(ram, f)[i];
    if SlotOf(ram, x, level).Leaf? {
      path, e := [i], x;
    } else {
      var rest;
      rest, e := OwnedIsMapped(ram, x.frame, level - 1, g);
      path := [i] + rest;
      assert path[1..] == rest;
    }
  }

  /** A frame is a user frame of the tree if and only if some path leads to an entry that maps it and is
      present, writable and open to user code, all three. */
  lemma UserFramesIff(ram: Ram, root: nat, level: nat, g: nat)
    ensures g in UserFrames(TreeOf(ram, root, level)) <==> UserMapped(ram, root, level, g)
  {
    if g in UserFrames(TreeOf(ram, root, level)) {
      var path, e := OwnedIsMapped(ram, root, level, g);
    }
    if path, e :| MapPath(ram, root, level, path, e) && e.frame == g &&
                  e.flags.present && e.flags.writable && e.flags.user {
      MappedIsOwned(ram, root, level, path, e);
    }
  }

  /** Some path leads to a huge page that is present, writable and open to user code. */
  ghost predicate HugeUserMapped(ram: Ram, root: nat, level: nat)
  {
    exists path, e :: MapPath(ram, root, level, path, e) && e.flags.huge &&
      e.flags.present && e.flags.writable && e.flags.user
  }

  lemma {:induction false} NoneHugeAt(ss: seq<Slot>, i: nat)
    requires i < |ss| && NoneHugeUser(ss)
    ensures NotHugeUser(ss[i])
    decreases |ss|
  {
    if i < |ss| - 1 {
      NoneHugeAt(ss[..|ss| - 1], i);
    }
  }

  lemma {:induction false} HugeSlot(ss: seq<Slot>) returns (i: nat)
    requires !NoneHugeUser(ss)
    ensures i < |ss| && !NotHugeUser(ss[i])
    decreases |ss|
  {
    var n := |ss| - 1;
    if NotHugeUser(ss[n]) {
      i := HugeSlot(ss[..n]);
    } else {
      i := n;
    }
  }

  lemma {:induction false} HugeIsFound(ram: Ram, f: nat, level: nat, path: seq<nat>, e: Entry)
    requires MapPath(ram, f, level, path, e) && e.flags.huge
    requires e.flags.present && e.flags.writable && e.flags.user
    ensures !NoHugeUserPage(TreeOf(ram, f, level))
    decreases level
  {
    SlotsAt(ram, f, level, ENTRIES, path[0]);
    if |path| > 1 {
      HugeIsFound(ram, At(ram, f)[path[0]].frame, level - 1, path[1..], e);
    }
    if NoneHugeUser(SlotsOf(ram, f, level, ENTRIES)) {
      NoneHugeAt(SlotsOf(ram, f, level, ENTRIES), path[0]);
    }
  }

  lemma {:induction false} HugeIsMapped(ram: Ram, f: nat, level: nat) returns (path: seq<nat>, e: Entry)
    requires !NoHugeUserPage(TreeOf(ram, f, level))
    ensures MapPath(ram, f, level, path, e) && e.flags.huge && e.flags.present && e.flags.writable && e.flags.user
    decreases level
  {
    var i := HugeSlot(SlotsOf(ram, f, level, ENTRIES));
    SlotsAt(ram, f, level, ENTRIES, i);
    var x := At(ram, f)[i];
    if SlotOf(ram, x, level).Leaf? {
      path, e := [i], x;
    } else {
      var rest;
      rest, e := HugeIsMapped(ram, x.frame, level - 1);
      path := [i] + rest;
      assert path[1..] == rest;
    }
  }

  /** A teardown panics if and only if some path leads to a huge page that is present, writable and open
      to user code. */
  lemma PanicsIff(ram: Ram, root: nat, level: nat)
    ensures !NoHugeUserPage(TreeOf(ram, root, level)) <==> HugeUserMapped(ram, root, level)
  {
    if !NoHugeUserPage(TreeOf(ram, root, level)) {
      var path, e := HugeIsMapped(ram, root, level);
    }
    if path, e :| MapPath(ram, root, level, path, e) && e.flags.huge &&
                  e.flags.present && e.flags.writable && e.flags.user {
      HugeIsFound(ram, root, level, path, e);
    }
  }

  // ---------------------------------------------------------------------------------------
  // What a teardown leaves
  // ---------------------------------------------------------------------------------------

  /** After a teardown a frame is in use if and only if it was, and holds no table of the space, and is
      not mapped for user code. */
  lemma StaysInUseIff(s: FrameState, ram: Ram, root: nat, level: nat, g: nat)
    requires InBitmap(s) && level > 0
    ensures g in FreeAll(s, Frees(TreeOf(ram, root, level))).used <==>
            g in s.used && !HoldsTable(ram, root, level, g) && !UserMapped(ram, root, level, g)
  {
    TeardownExact(s, TreeOf(ram, root, level));
    TablesIff(ram, root, level, g);
    UserFramesIff(ram, root, level, g);
  }

  /** So the kernel's own pages, which are mapped in every space but not for user code, survive. */
  lemma KernelPagesStay(s: FrameState, ram: Ram, root: nat, level: nat, g: nat)
    requires InBitmap(s) && level > 0 && g in s.used && !HoldsTable(ram, root, level, g)
    requires forall path, e :: MapPath(ram, root, level, path, e) && e.frame == g ==> !e.flags.user
    ensures g in FreeAll(s, Frees(TreeOf(ram, root, level))).used
  {
    StaysInUseIff(s, ram, root, level, g);
  }
}
