/**
 The account of one address space: which frames it owns, and that growing or shrinking it moves
 frames between the space and the allocator without loss.
 */
module SpaceBalance {
  import opened Frames
  import opened PageTables
  import opened TableWrites
  import opened AddressSpaces

  /** No table occurs twice, every frame the space would release is in use, and no table is also
      mapped as a user page. */
  ghost predicate Sound(s: FrameState, t: Tree)
  {
    && InBitmap(s)
    && Once(Tables(t))
    && (forall g <- Tables(t) :: g in s.used && g !in UserFrames(t))
    && (forall g <- UserFrames(t) :: g in s.used)
  }

  /** The frames a teardown releases. */
  ghost function Owned(t: Tree): set<nat>
  {
    Elements(Tables(t)) + Elements(UserFrames(t))
  }

  /** The frames in use by everyone else are the same. */
  ghost predicate Balanced(s: FrameState, t: Tree, s': FrameState, t': Tree)
  {
    s'.used - Owned(t') == s.used - Owned(t)
  }

  lemma ExchangedIn(a: seq<nat>, b: seq<nat>, x: seq<nat>, y: seq<nat>)
    requires Exchanged(a, b, x, y)
    ensures x == [] ==> forall g :: g in b <==> g in a || g in y
    ensures y == [] ==> forall g :: g in a <==> g in b || g in x
  {
    forall g
      ensures multiset(b)[g] + multiset(x)[g] == multiset(a)[g] + multiset(y)[g]
    {}
    forall g
      ensures x == [] ==> (g in b <==> g in a || g in y)
      ensures y == [] ==> (g in a <==> g in b || g in x)
    {
      InBag(a, g); InBag(b, g); InBag(x, g); InBag(y, g);
    }
  }

  /** A fresh frame became a table of the space. */
  lemma GainTable(s: FrameState, t: Tree, s': FrameState, t': Tree, g: nat)
    requires Sound(s, t) && g !in s.used && g < BITMAP_SIZE && s'.used == s.used + {g}
    requires Exchanged(Tables(t), Tables(t'), [], [g])
    requires Exchanged(UserFrames(t), UserFrames(t'), [], [])
    ensures Sound(s', t') && Balanced(s, t, s', t')
  {
    ExchangedIn(Tables(t), Tables(t'), [], [g]);
    ExchangedIn(UserFrames(t), UserFrames(t'), [], []);
    InBag(Tables(t), g);
    assert Owned(t') == Owned(t) + {g};
  }

  /** A fresh frame became a user page of the space, and is mapped once. */
  lemma GainPage(s: FrameState, t: Tree, s': FrameState, t': Tree, g: nat)
    requires Sound(s, t) && g !in s.used && g < BITMAP_SIZE && s'.used == s.used + {g}
    requires Exchanged(Tables(t), Tables(t'), [], [])
    requires Exchanged(UserFrames(t), UserFrames(t'), [], [g])
    ensures Sound(s', t') && Balanced(s, t, s', t')
    ensures multiset(UserFrames(t'))[g] == 1
  {
    ExchangedIn(Tables(t), Tables(t'), [], []);
    ExchangedIn(UserFrames(t), UserFrames(t'), [], [g]);
    InBag(UserFrames(t), g);
    assert Owned(t') == Owned(t) + {g};
  }

  /** A user page mapped once was unmapped and its frame freed. */
  lemma LosePage(s: FrameState, t: Tree, s': FrameState, t': Tree, g: nat)
    requires Sound(s, t) && multiset(UserFrames(t))[g] == 1 && s'.used == s.used - {g}
    requires Exchanged(Tables(t), Tables(t'), [], [])
    requires Exchanged(UserFrames(t), UserFrames(t'), [g], [])
    ensures Sound(s', t') && Balanced(s, t, s', t')
  {
    ExchangedIn(Tables(t), Tables(t'), [], []);
    ExchangedIn(UserFrames(t), UserFrames(t'), [g], []);
    InBag(UserFrames(t), g);
    InBag(UserFrames(t'), g);
    assert g !in UserFrames(t');
    assert Owned(t) == Owned(t') + {g} && g !in Owned(t');
  }

  /** A freshly copied space whose source maps no user page is sound and owns only what it was
      granted. */
  lemma CopySound(usable: seq<nat>, ram0: Ram, s0: FrameState, root: nat,
                  ram: Ram, s: FrameState, copy: nat, level: nat)
    requires Distinct(usable) && InBitmap(s0)
    requires IsCopy(usable, ram0, s0, root, ram, s, copy, level)
    requires UserFrames(TreeOf(ram0, root, level)) == []
    ensures Sound(s, TreeOf(ram, copy, level))
    ensures s.used - Owned(TreeOf(ram, copy, level)) == s0.used
  {
    var t := TreeOf(ram, copy, level);
    TookFacts(usable, s0, s, Tables(t));
    SameUserFrames(t, TreeOf(ram0, root, level));
    DistinctOnce(usable, s0, s, Tables(t));
  }

  lemma DistinctOnce(usable: seq<nat>, s0: FrameState, s: FrameState, fs: seq<nat>)
    requires Distinct(usable) && Took(usable, s0, s, fs)
    ensures Once(fs)
  {
    assert Distinct(fs);
    forall g
      ensures multiset(fs)[g] <= 1
    {
      DistinctCount(fs, g);
    }
  }

  lemma {:induction false} DistinctCount(fs: seq<nat>, g: nat)
    requires Distinct(fs)
    ensures multiset(fs)[g] <= 1
    decreases |fs|
  {
    if fs != [] {
      var n := |fs| - 1;
      DistinctCount(fs[..n], g);
      assert fs == fs[..n] + [fs[n]];
      InBag(fs[..n], g);
    }
  }

  /** Whatever balanced changes a copied space goes through, tearing it down restores exactly the
      frames that were in use before it was created. */
  lemma LifecycleRestoresUsage(usable: seq<nat>, ram0: Ram, s0: FrameState, root: nat,
                               ram: Ram, s: FrameState, copy: nat, level: nat, s': FrameState, t': Tree)
    requires Distinct(usable) && InBitmap(s0)
    requires IsCopy(usable, ram0, s0, root, ram, s, copy, level)
    requires UserFrames(TreeOf(ram0, root, level)) == []
    requires Balanced(s, TreeOf(ram, copy, level), s', t') && Sound(s', t')
    ensures FreeAll(s', Frees(t')).used == s0.used
  {
    CopySound(usable, ram0, s0, root, ram, s, copy, level);
    TeardownExact(s', t');
  }
}
