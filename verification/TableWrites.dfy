/**
 What one write to one entry does to the tree under a root, when no table occurs in the tree
 twice: the tables and user frames change by exactly the old and the new slot.
 */
module TableWrites {
  import opened PageTables

  ghost predicate Once(fs: seq<nat>)
  {
    forall g :: multiset(fs)[g] <= 1
  }

  lemma InBag(fs: seq<nat>, g: nat)
    ensures g in fs <==> multiset(fs)[g] >= 1
  {}

  lemma {:induction false} SlotsAt(ram: Ram, f: nat, level: nat, k: nat, i: nat)
    requires level > 0 && i < k <= ENTRIES
    ensures SlotsOf(ram, f, level, k)[i] == SlotOf(ram, At(ram, f)[i], level)
    decreases k
  {
    if i < k - 1 {
      SlotsAt(ram, f, level, k - 1, i);
    }
  }

  lemma {:induction false} AllPlus(a: seq<Slot>, b: seq<Slot>)
    ensures AllTables(a + b) == AllTables(a) + AllTables(b)
    ensures AllUserFrames(a + b) == AllUserFrames(a) + AllUserFrames(b)
    decreases |b|
  {
    if b == [] {
      assert a + b == a;
    } else {
      var n := |b| - 1;
      assert a + b == (a + b[..n]) + [b[n]];
      assert b == b[..n] + [b[n]];
      AllPlus(a, b[..n]);
      AppendSlot(a + b[..n], b[n]);
      AppendSlot(b[..n], b[n]);
    }
  }

  /** The summaries of a list of slots, split around slot j. */
  lemma AroundSlot(ss: seq<Slot>, j: nat)
    requires j < |ss|
    ensures AllTables(ss) == AllTables(ss[..j]) + SlotTables(ss[j]) + AllTables(ss[j + 1..])
    ensures AllUserFrames(ss) ==
            AllUserFrames(ss[..j]) + SlotUserFrames(ss[j]) + AllUserFrames(ss[j + 1..])
  {
    SplitSlots(ss, j);
    ThreeParts(ss[..j], ss[j], ss[j + 1..]);
  }

  lemma SplitSlots(ss: seq<Slot>, j: nat)
    requires j < |ss|
    ensures ss[..j] + [ss[j]] + ss[j + 1..] == ss
  {}

  lemma ThreeParts(a: seq<Slot>, x: Slot, b: seq<Slot>)
    ensures AllTables(a + [x] + b) == AllTables(a) + SlotTables(x) + AllTables(b)
    ensures AllUserFrames(a + [x] + b) == AllUserFrames(a) + SlotUserFrames(x) + AllUserFrames(b)
  {
    AllPlus(a + [x], b);
    AppendSlot(a, x);
  }

  /** `new` is `old` with the contribution `x` exchanged for `y`. */
  ghost predicate Exchanged(old': seq<nat>, new': seq<nat>, x: seq<nat>, y: seq<nat>)
  {
    forall g :: multiset(new')[g] + multiset(x)[g] == multiset(old')[g] + multiset(y)[g]
  }

  lemma ExchangeInside(a: seq<nat>, b: seq<nat>, x: seq<nat>, y: seq<nat>, p: seq<nat>, q: seq<nat>)
    requires Exchanged(x, y, p, q)
    ensures Exchanged(a + x + b, a + y + b, p, q)
  {}

  /** Replacing one slot exchanges its contribution to the tables and to the user frames. */
  lemma ReplaceSlot(ss: seq<Slot>, j: nat, y: Slot, p: seq<nat>, q: seq<nat>, u: seq<nat>, v: seq<nat>)
    requires j < |ss|
    requires Exchanged(SlotTables(ss[j]), SlotTables(y), p, q)
    requires Exchanged(SlotUserFrames(ss[j]), SlotUserFrames(y), u, v)
    ensures Exchanged(AllTables(ss), AllTables(ss[j := y]), p, q)
    ensures Exchanged(AllUserFrames(ss), AllUserFrames(ss[j := y]), u, v)
  {
    var tt := ss[j := y];
    AroundSlot(ss, j);
    AroundSlot(tt, j);
    assert tt[..j] == ss[..j] && tt[j + 1..] == ss[j + 1..];
    ExchangeInside(AllTables(ss[..j]), AllTables(ss[j + 1..]), SlotTables(ss[j]), SlotTables(y), p, q);
    ExchangeInside(AllUserFrames(ss[..j]), AllUserFrames(ss[j + 1..]),
                   SlotUserFrames(ss[j]), SlotUserFrames(y), u, v);
  }

  lemma TwiceInConcat(a: seq<nat>, b: seq<nat>, c: seq<nat>, g: nat)
    requires g in b && (g in a || g in c)
    ensures multiset(a + b + c)[g] >= 2
  {
    InBag(a, g);
    InBag(b, g);
    InBag(c, g);
  }

  /** A table below two different slots would occur twice. */
  lemma OtherSlot(ss: seq<Slot>, i: nat, j: nat, g: nat)
    requires i < |ss| && j < |ss| && i != j && Once(AllTables(ss))
    requires g in SlotTables(ss[j])
    ensures g !in SlotTables(ss[i])
  {
    AroundSlot(ss, j);
    if g in SlotTables(ss[i]) {
      if i < j {
        SlotInAll(ss[..j], i, g);
      } else {
        SlotInAll(ss[j + 1..], i - j - 1, g);
      }
      TwiceInConcat(AllTables(ss[..j]), SlotTables(ss[j]), AllTables(ss[j + 1..]), g);
      assert false;
    }
  }

  lemma {:induction false} SlotInAll(ss: seq<Slot>, i: nat, g: nat)
    requires i < |ss| && g in SlotTables(ss[i])
    ensures g in AllTables(ss)
    decreases |ss|
  {
    var n := |ss| - 1;
    assert ss == ss[..n] + [ss[n]];
    AppendSlot(ss[..n], ss[n]);
    if i < n {
      SlotInAll(ss[..n], i, g);
    }
  }

  /** No table occurs twice below a slot if none does below the whole. */
  lemma SlotOnce(ss: seq<Slot>, i: nat)
    requires i < |ss| && Once(AllTables(ss))
    ensures Once(SlotTables(ss[i]))
  {
    AroundSlot(ss, i);
    var a, b, c := AllTables(ss[..i]), SlotTables(ss[i]), AllTables(ss[i + 1..]);
    forall g
      ensures multiset(b)[g] <= 1
    {
      assert multiset(a + b + c)[g] == multiset(a)[g] + multiset(b)[g] + multiset(c)[g];
    }
  }

  /** The table reached from f by following entries that point to tables. */
  ghost function Follow(ram: Ram, f: nat, level: nat, path: seq<nat>): (r: seq<nat>)
    ensures |r| <= 1
    decreases level
  {
    if path == [] then [f]
    else if level <= 1 || path[0] >= ENTRIES then []
    else
      var e := At(ram, f)[path[0]];
      if Unused(e) || Maps(e, level) then []
      else Follow(ram, e.frame, level - 1, path[1..])
  }

  ghost predicate Reaches(ram: Ram, f: nat, level: nat, path: seq<nat>, t: nat)
  {
    |path| < level && Follow(ram, f, level, path) == [t]
  }

  lemma {:induction false} ReachedIsTable(ram: Ram, f: nat, level: nat, path: seq<nat>, t: nat)
    requires Reaches(ram, f, level, path, t)
    ensures t in Tables(TreeOf(ram, f, level))
    decreases level
  {
    if path != [] {
      var e := At(ram, f)[path[0]];
      ReachedIsTable(ram, e.frame, level - 1, path[1..], t);
      SlotsAt(ram, f, level, ENTRIES, path[0]);
      SlotInAll(SlotsOf(ram, f, level, ENTRIES), path[0], t);
    }
  }

  /** Conversely every table of the tree is reached by some path. */
  lemma {:induction false} TableIsReached(ram: Ram, f: nat, level: nat, t: nat) returns (path: seq<nat>)
    requires level > 0 && t in Tables(TreeOf(ram, f, level))
    ensures Follow(ram, f, level, path) == [t]
    decreases level
  {
    if t == f {
      path := [];
    } else {
      var i := SlotHolding(SlotsOf(ram, f, level, ENTRIES), t);
      SlotsAt(ram, f, level, ENTRIES, i);
      var e := At(ram, f)[i];
      var rest := TableIsReached(ram, e.frame, level - 1, t);
      path := [i] + rest;
      assert path[1..] == rest;
    }
  }

  lemma {:induction false} SlotHolding(ss: seq<Slot>, g: nat) returns (i: nat)
    requires g in AllTables(ss)
    ensures i < |ss| && g in SlotTables(ss[i])
    decreases |ss|
  {
    var n := |ss| - 1;
    assert ss == ss[..n] + [ss[n]];
    AppendSlot(ss[..n], ss[n]);
    if g in SlotTables(ss[n]) {
      i := n;
    } else {
      i := SlotHolding(ss[..n], g);
    }
  }

  /** Outside t, the tables of the tree under f read the same in both memories. */
  ghost predicate OnlyWrites(ram: Ram, ram': Ram, f: nat, level: nat, t: nat)
  {
    forall g <- Tables(TreeOf(ram, f, level)) :: g != t ==> At(ram', g) == At(ram, g)
  }

  /** The head table does not occur again below. */
  lemma HeadOnce(t: Tree)
    requires Once(Tables(t))
    ensures t.frame !in AllTables(t.slots)
    ensures Once(AllTables(t.slots))
  {
    var head, below := [t.frame], AllTables(t.slots);
    forall g
      ensures multiset(below)[g] <= 1 && (g == t.frame ==> multiset(below)[g] == 0)
    {
      assert multiset(head + below)[g] == multiset(head)[g] + multiset(below)[g];
    }
    InBag(below, t.frame);
  }

  /** A slot whose tables do not include t is the same before and after a write to t. */
  lemma SlotKept(ram: Ram, ram': Ram, f: nat, level: nat, t: nat, j: nat)
    requires level > 0 && j < ENTRIES
    requires OnlyWrites(ram, ram', f, level, t)
    requires At(ram', f)[j] == At(ram, f)[j]
    requires t !in SlotTables(SlotOf(ram, At(ram, f)[j], level))
    ensures SlotOf(ram', At(ram', f)[j], level) == SlotOf(ram, At(ram, f)[j], level)
  {
    var e := At(ram, f)[j];
    if !Unused(e) && !Maps(e, level) {
      SlotsAt(ram, f, level, ENTRIES, j);
      forall g | g in Tables(TreeOf(ram, e.frame, level - 1))
        ensures At(ram, g) == At(ram', g)
      {
        SlotInAll(SlotsOf(ram, f, level, ENTRIES), j, g);
        assert g in Tables(TreeOf(ram, f, level));
      }
      TreeFrame(ram, ram', e.frame, level - 1);
    }
  }

  /** If only slot p differs, the slots are the old ones with p replaced. */
  lemma SlotsReplaced(ram: Ram, ram': Ram, f: nat, level: nat, p: nat)
    requires level > 0 && p < ENTRIES
    requires forall j :: 0 <= j < ENTRIES && j != p ==>
               SlotOf(ram', At(ram', f)[j], level) == SlotOf(ram, At(ram, f)[j], level)
    ensures SlotsOf(ram', f, level, ENTRIES) ==
            SlotsOf(ram, f, level, ENTRIES)[p := SlotOf(ram', At(ram', f)[p], level)]
  {
    forall j | 0 <= j < ENTRIES
      ensures SlotsOf(ram', f, level, ENTRIES)[j] ==
              SlotsOf(ram, f, level, ENTRIES)[p := SlotOf(ram', At(ram', f)[p], level)][j]
    {
      SlotsAt(ram, f, level, ENTRIES, j);
      SlotsAt(ram', f, level, ENTRIES, j);
    }
  }

  lemma TreeExchanged(f: nat, ss: seq<Slot>, tt: seq<Slot>, p: seq<nat>, q: seq<nat>)
    requires Exchanged(AllTables(ss), AllTables(tt), p, q)
    ensures Exchanged(Tables(Node(f, ss)), Tables(Node(f, tt)), p, q)
  {
    ExchangeInside([f], [], AllTables(ss), AllTables(tt), p, q);
    assert [f] + AllTables(ss) + [] == Tables(Node(f, ss));
    assert [f] + AllTables(tt) + [] == Tables(Node(f, tt));
  }

  /** An exchange in slot p alone is an exchange in the tree. */
  lemma ExchangeInSlot(ram: Ram, ram': Ram, f: nat, level: nat, p: nat,
                       a: seq<nat>, b: seq<nat>, u: seq<nat>, v: seq<nat>)
    requires level > 0 && p < ENTRIES
    requires forall j :: 0 <= j < ENTRIES && j != p ==>
               SlotOf(ram', At(ram', f)[j], level) == SlotOf(ram, At(ram, f)[j], level)
    requires Exchanged(SlotTables(SlotOf(ram, At(ram, f)[p], level)),
                       SlotTables(SlotOf(ram', At(ram', f)[p], level)), a, b)
    requires Exchanged(SlotUserFrames(SlotOf(ram, At(ram, f)[p], level)),
                       SlotUserFrames(SlotOf(ram', At(ram', f)[p], level)), u, v)
    ensures Exchanged(Tables(TreeOf(ram, f, level)), Tables(TreeOf(ram', f, level)), a, b)
    ensures Exchanged(UserFrames(TreeOf(ram, f, level)), UserFrames(TreeOf(ram', f, level)), u, v)
  {
    var ss := SlotsOf(ram, f, level, ENTRIES);
    var z := SlotOf(ram', At(ram', f)[p], level);
    SlotsReplaced(ram, ram', f, level, p);
    SlotsAt(ram, f, level, ENTRIES, p);
    ReplaceSlot(ss, p, z, a, b, u, v);
    TreeExchanged(f, ss, ss[p := z], a, b);
  }

  /** Only entry i of the table t, reached by `path`, is written. */
  ghost predicate WritesEntry(ram: Ram, ram': Ram, f: nat, level: nat, path: seq<nat>, t: nat, i: nat)
  {
    && Reaches(ram, f, level, path, t) && i < ENTRIES
    && Once(Tables(TreeOf(ram, f, level)))
    && OnlyWrites(ram, ram', f, level, t)
    && (forall j :: 0 <= j < ENTRIES && j != i ==> At(ram', t)[j] == At(ram, t)[j])
  }

  lemma WriteHere(ram: Ram, ram': Ram, f: nat, level: nat, i: nat, x: Slot, y: Slot)
    requires WritesEntry(ram, ram', f, level, [], f, i)
    requires x == SlotOf(ram, At(ram, f)[i], level) && y == SlotOf(ram', At(ram', f)[i], level)
    ensures Exchanged(Tables(TreeOf(ram, f, level)), Tables(TreeOf(ram', f, level)), SlotTables(x), SlotTables(y))
    ensures Exchanged(UserFrames(TreeOf(ram, f, level)), UserFrames(TreeOf(ram', f, level)),
                      SlotUserFrames(x), SlotUserFrames(y))
  {
    WriteElsewhere(ram, ram', f, level, [], f, i, i);
    ExchangeSelf(SlotTables(x), SlotTables(y));
    ExchangeSelf(SlotUserFrames(x), SlotUserFrames(y));
    ExchangeInSlot(ram, ram', f, level, i, SlotTables(x), SlotTables(y), SlotUserFrames(x), SlotUserFrames(y));
  }

  /** A write below slot p of f, given what it does there. */
  lemma WriteThrough(ram: Ram, ram': Ram, f: nat, level: nat, path: seq<nat>, t: nat, i: nat,
                     a: seq<nat>, b: seq<nat>, u: seq<nat>, v: seq<nat>)
    requires WritesEntry(ram, ram', f, level, path, t, i) && path != []
    requires var child := At(ram, f)[path[0]].frame;
             && Exchanged(Tables(TreeOf(ram, child, level - 1)), Tables(TreeOf(ram', child, level - 1)), a, b)
             && Exchanged(UserFrames(TreeOf(ram, child, level - 1)), UserFrames(TreeOf(ram', child, level - 1)), u, v)
    ensures Exchanged(Tables(TreeOf(ram, f, level)), Tables(TreeOf(ram', f, level)), a, b)
    ensures Exchanged(UserFrames(TreeOf(ram, f, level)), UserFrames(TreeOf(ram', f, level)), u, v)
  {
    var p := path[0];
    WriteElsewhere(ram, ram', f, level, path, t, i, p);
    SubSlot(ram, At(ram, f)[p], level);
    SubSlot(ram', At(ram', f)[p], level);
    ExchangeInSlot(ram, ram', f, level, p, a, b, u, v);
  }

  lemma WritesChild(ram: Ram, ram': Ram, f: nat, level: nat, path: seq<nat>, t: nat, i: nat)
    requires WritesEntry(ram, ram', f, level, path, t, i) && path != []
    ensures WritesEntry(ram, ram', At(ram, f)[path[0]].frame, level - 1, path[1..], t, i)
  {
    WriteBelow(ram, ram', f, level, path, t);
    ChildOnce(ram, f, level, path[0]);
  }

  /** Writing entry i of the table t reached by `path` exchanges the old slot of that entry for the
      new one in the tree's tables and in its user frames, and changes nothing else. */
  lemma {:induction false} WriteEntry(ram: Ram, ram': Ram, f: nat, level: nat, path: seq<nat>,
                                      t: nat, i: nat, x: Slot, y: Slot)
    requires WritesEntry(ram, ram', f, level, path, t, i)
    requires x == SlotOf(ram, At(ram, t)[i], level - |path|)
    requires y == SlotOf(ram', At(ram', t)[i], level - |path|)
    ensures Exchanged(Tables(TreeOf(ram, f, level)), Tables(TreeOf(ram', f, level)), SlotTables(x), SlotTables(y))
    ensures Exchanged(UserFrames(TreeOf(ram, f, level)), UserFrames(TreeOf(ram', f, level)),
                      SlotUserFrames(x), SlotUserFrames(y))
    decreases level
  {
    if path == [] {
      WriteHere(ram, ram', f, level, i, x, y);
    } else {
      WritesChild(ram, ram', f, level, path, t, i);
      WriteEntry(ram, ram', At(ram, f)[path[0]].frame, level - 1, path[1..], t, i, x, y);
      WriteThrough(ram, ram', f, level, path, t, i,
                   SlotTables(x), SlotTables(y), SlotUserFrames(x), SlotUserFrames(y));
    }
  }

  // ---------------------------------------------------------------------------------------
  // Huge pages
  // ---------------------------------------------------------------------------------------

  lemma {:induction false} NotHugeAt(ss: seq<Slot>, p: nat)
    requires NoneHugeUser(ss) && p < |ss|
    ensures NotHugeUser(ss[p])
    decreases |ss|
  {
    var n := |ss| - 1;
    if p < n {
      NotHugeAt(ss[..n], p);
    }
  }

  lemma {:induction false} NotHugeReplaced(ss: seq<Slot>, p: nat, y: Slot)
    requires NoneHugeUser(ss) && p < |ss| && NotHugeUser(y)
    ensures NoneHugeUser(ss[p := y])
    decreases |ss|
  {
    var n := |ss| - 1;
    if p < n {
      NotHugeReplaced(ss[..n], p, y);
      assert ss[p := y][..n] == ss[..n][p := y];
    } else {
      assert ss[p := y][..n] == ss[..n];
    }
  }

  /** Writing an entry that is no huge user page leaves a tree without huge user pages one. */
  lemma {:induction false} WriteNotHuge(ram: Ram, ram': Ram, f: nat, level: nat, path: seq<nat>, t: nat, i: nat)
    requires WritesEntry(ram, ram', f, level, path, t, i)
    requires NoHugeUserPage(TreeOf(ram, f, level)) && NotHugeUser(SlotOf(ram', At(ram', t)[i], level - |path|))
    ensures NoHugeUserPage(TreeOf(ram', f, level))
    decreases level
  {
    var p := if path == [] then i else path[0];
    var ss := SlotsOf(ram, f, level, ENTRIES);
    WriteElsewhere(ram, ram', f, level, path, t, i, p);
    SlotsReplaced(ram, ram', f, level, p);
    if path != [] {
      WritesChild(ram, ram', f, level, path, t, i);
      SlotsAt(ram, f, level, ENTRIES, p);
      NotHugeAt(ss, p);
      WriteNotHuge(ram, ram', At(ram, f)[p].frame, level - 1, path[1..], t, i);
    }
    NotHugeReplaced(ss, p, SlotOf(ram', At(ram', f)[p], level));
  }

  /** A tree that owns no user frame has no huge user page. */
  lemma {:induction false} NoUserNoHuge(t: Tree)
    requires UserFrames(t) == []
    ensures NoHugeUserPage(t)
    decreases t, 0
  {
    NoUserNoneHuge(t.slots);
  }

  lemma {:induction false} NoUserNotHuge(x: Slot)
    requires SlotUserFrames(x) == []
    ensures NotHugeUser(x)
    decreases x, 1
  {
    if x.Sub? {
      NoUserNoHuge(x.tree);
    }
  }

  lemma {:induction false} NoUserNoneHuge(ss: seq<Slot>)
    requires AllUserFrames(ss) == []
    ensures NoneHugeUser(ss)
    decreases ss, |ss|
  {
    if ss != [] {
      NoUserNoneHuge(ss[..|ss| - 1]);
      NoUserNotHuge(ss[|ss| - 1]);
    }
  }

  lemma ExchangeSelf(x: seq<nat>, y: seq<nat>)
    ensures Exchanged(x, y, x, y)
  {}

  lemma SubSlot(ram: Ram, e: Entry, level: nat)
    requires level > 0 && !Unused(e) && !Maps(e, level)
    ensures SlotTables(SlotOf(ram, e, level)) == Tables(TreeOf(ram, e.frame, level - 1))
    ensures SlotUserFrames(SlotOf(ram, e, level)) == UserFrames(TreeOf(ram, e.frame, level - 1))
  {}

  lemma ChildOnce(ram: Ram, f: nat, level: nat, p: nat)
    requires level > 0 && p < ENTRIES && Once(Tables(TreeOf(ram, f, level)))
    requires SlotOf(ram, At(ram, f)[p], level).Sub?
    ensures Once(Tables(TreeOf(ram, At(ram, f)[p].frame, level - 1)))
  {
    HeadOnce(TreeOf(ram, f, level));
    SlotsAt(ram, f, level, ENTRIES, p);
    SlotOnce(SlotsOf(ram, f, level, ENTRIES), p);
  }

  /** The slots off the path keep their contents. */
  lemma WriteElsewhere(ram: Ram, ram': Ram, f: nat, level: nat, path: seq<nat>, t: nat, i: nat, p: nat)
    requires Reaches(ram, f, level, path, t) && i < ENTRIES
    requires Once(Tables(TreeOf(ram, f, level)))
    requires OnlyWrites(ram, ram', f, level, t)
    requires forall j :: 0 <= j < ENTRIES && j != i ==> At(ram', t)[j] == At(ram, t)[j]
    requires p == if path == [] then i else path[0]
    ensures forall j :: 0 <= j < ENTRIES && j != p ==>
              SlotOf(ram', At(ram', f)[j], level) == SlotOf(ram, At(ram, f)[j], level)
    ensures path != [] ==> At(ram', f) == At(ram, f)
  {
    var ss := SlotsOf(ram, f, level, ENTRIES);
    HeadOnce(TreeOf(ram, f, level));
    if path != [] {
      ReachedIsTable(ram, At(ram, f)[p].frame, level - 1, path[1..], t);
      SlotsAt(ram, f, level, ENTRIES, p);
      SlotInAll(ss, p, t);
      assert f in Tables(TreeOf(ram, f, level));
    }
    forall j | 0 <= j < ENTRIES && j != p
      ensures SlotOf(ram', At(ram', f)[j], level) == SlotOf(ram, At(ram, f)[j], level)
    {
      SlotsAt(ram, f, level, ENTRIES, j);
      if path == [] {
        if t in SlotTables(ss[j]) {
          SlotInAll(ss, j, t);
        }
      } else {
        OtherSlot(ss, j, p, t);
      }
      SlotKept(ram, ram', f, level, t, j);
    }
  }

  lemma WriteBelow(ram: Ram, ram': Ram, f: nat, level: nat, path: seq<nat>, t: nat)
    requires Reaches(ram, f, level, path, t) && path != []
    requires OnlyWrites(ram, ram', f, level, t)
    ensures OnlyWrites(ram, ram', At(ram, f)[path[0]].frame, level - 1, t)
    ensures Reaches(ram, At(ram, f)[path[0]].frame, level - 1, path[1..], t)
  {
    SlotsAt(ram, f, level, ENTRIES, path[0]);
    forall g | g in Tables(TreeOf(ram, At(ram, f)[path[0]].frame, level - 1)) && g != t
      ensures At(ram', g) == At(ram, g)
    {
      SlotInAll(SlotsOf(ram, f, level, ENTRIES), path[0], g);
      assert g in Tables(TreeOf(ram, f, level));
    }
  }

  /** A write below t, or to t itself, does not change how t is reached. */
  lemma {:induction false} StillReaches(ram: Ram, ram': Ram, f: nat, level: nat, path: seq<nat>, t: nat)
    requires Reaches(ram, f, level, path, t)
    requires Once(Tables(TreeOf(ram, f, level)))
    requires OnlyWrites(ram, ram', f, level, t)
    ensures Reaches(ram', f, level, path, t)
    decreases level
  {
    if path != [] {
      var p := path[0];
      HeadOnce(TreeOf(ram, f, level));
      ReachedIsTable(ram, At(ram, f)[p].frame, level - 1, path[1..], t);
      SlotsAt(ram, f, level, ENTRIES, p);
      SlotInAll(SlotsOf(ram, f, level, ENTRIES), p, t);
      assert f in Tables(TreeOf(ram, f, level));
      SlotOnce(SlotsOf(ram, f, level, ENTRIES), p);
      WriteBelow(ram, ram', f, level, path, t);
      StillReaches(ram, ram', At(ram, f)[p].frame, level - 1, path[1..], t);
    }
  }
}
