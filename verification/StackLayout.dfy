/**
 User stacks inside one level-1 table: 64 overlapping slots of ten pages at a stride of eight,
 the wrap-around search for a free slot, and what a free recovers from an address.
 */
module StackLayout {
  import opened PageTables

  const STACK_PAGES: nat := 10
  const STACK_SLOTS: nat := 64
  const LAST_SLOT: nat := 62

  /** Page-table indices under which every user stack lives. */
  const STACK_PATH: seq<nat> := [6, 0, 0]

  // ---------------------------------------------------------------------------------------
  // Virtual addresses
  // ---------------------------------------------------------------------------------------

  function P1(a: nat): nat { a / 0x1000 % 512 }
  function P2(a: nat): nat { a / 0x20_0000 % 512 }
  function P3(a: nat): nat { a / 0x4000_0000 % 512 }
  function P4(a: nat): nat { a / 0x80_0000_0000 % 512 }

  /** First address of slot n: the three fixed indices and eight pages per slot. */
  function SlotAddress(n: nat): nat
  {
    STACK_PATH[0] * 0x80_0000_0000 + STACK_PATH[1] * 0x4000_0000 + STACK_PATH[2] * 0x20_0000 + n * 8 * 0x1000
  }

  function StackStart(n: nat): nat { SlotAddress(n) + 0x1000 }
  function StackEnd(n: nat): nat { SlotAddress(n) + (STACK_PAGES + 1) * 0x1000 }

  /** A stack's end address leads back to its table and to its last page; the eleven entries a free
      clears are 8n, which is no page of the stack, and then exactly its ten pages. */
  lemma IndicesRecovered(n: nat)
    requires n <= LAST_SLOT
    ensures var a := StackEnd(n) - 1;
            [P4(a), P3(a), P2(a)] == STACK_PATH && P1(a) == 8 * n + STACK_PAGES
    ensures P1(StackStart(n)) == 8 * n + 1 && StackEnd(n) == 0x300_0000_0000 + (8 * n + 11) * 4096
    ensures StackEnd(n) - StackStart(n) == STACK_PAGES * 0x1000
  {
    var a := StackEnd(n) - 1;
    assert a == 6 * 0x80_0000_0000 + (8 * n + 10) * 0x1000 + 0xfff;
    assert a / 0x1000 == 6 * 0x800_0000 + 8 * n + 10;
    assert a / 0x20_0000 == 6 * 0x4_0000;
    assert a / 0x4000_0000 == 6 * 0x200;
    assert a / 0x80_0000_0000 == 6;
    assert StackStart(n) / 0x1000 == 6 * 0x800_0000 + 8 * n + 1;
  }

  // ---------------------------------------------------------------------------------------
  // Probing a slot
  // ---------------------------------------------------------------------------------------

  /** `Crash` is the panic of indexing past the table, which only slot 63 can reach. */
  datatype Verdict = Free | Taken | Crash

  /** The verdict of checking the entries i, i + 1, ... of slot n in order. */
  function Probe(t: Table, n: nat, i: nat): Verdict
    decreases 8 * n + STACK_PAGES + 1 - i
  {
    if i > 8 * n + STACK_PAGES then Free
    else if i >= ENTRIES then Crash
    else if !Unused(t[i]) then Taken
    else Probe(t, n, i + 1)
  }

  /** Entry i is a page of slot n. */
  predicate PageOf(n: nat, i: nat)
  {
    8 * n + 1 <= i <= 8 * n + STACK_PAGES
  }

  ghost predicate AllUnused(t: Table, n: nat)
  {
    n <= LAST_SLOT && forall i :: 0 <= i < ENTRIES && PageOf(n, i) ==> Unused(t[i])
  }

  ghost predicate Occupied(t: Table, n: nat)
  {
    exists i :: 0 <= i < ENTRIES && PageOf(n, i) && !Unused(t[i])
  }

  lemma {:induction false} ProbeMeans(t: Table, n: nat, i: nat)
    requires n < STACK_SLOTS && 8 * n + 1 <= i
    requires forall k :: 8 * n + 1 <= k < i && k < ENTRIES ==> Unused(t[k])
    requires i <= ENTRIES && i <= 8 * n + STACK_PAGES + 1
    ensures Probe(t, n, i) == Free <==> AllUnused(t, n)
    ensures Probe(t, n, i) == Taken <==> Occupied(t, n)
    ensures Probe(t, n, i) == Crash <==> (n == 63 && !Occupied(t, n))
    decreases ENTRIES - i
  {
    if i <= 8 * n + STACK_PAGES && i < ENTRIES {
      if Unused(t[i]) {
        ProbeMeans(t, n, i + 1);
      } else {
        assert PageOf(n, i);
      }
    } else if AllUnused(t, n) || Occupied(t, n) {
      assert n <= LAST_SLOT ==> i == 8 * n + STACK_PAGES + 1;
    }
  }

  datatype Search = Found(slot: nat) | Full | Panic

  /** The slot visited k steps after the first. */
  function Visit(start: nat, k: nat): (n: nat)
    ensures n < STACK_SLOTS
  {
    (start + k) % STACK_SLOTS
  }

  lemma VisitMeans(start: nat, k: nat)
    requires k < STACK_SLOTS
    ensures var r := start % STACK_SLOTS;
            Visit(start, k) == if r + k < STACK_SLOTS then r + k else r + k - STACK_SLOTS
  {
    var q, r := start / STACK_SLOTS, start % STACK_SLOTS;
    assert start == q * STACK_SLOTS + r;
    if r + k < STACK_SLOTS {
      assert start + k == q * STACK_SLOTS + (r + k);
    } else {
      assert start + k == (q + 1) * STACK_SLOTS + (r + k - STACK_SLOTS);
    }
  }

  /** Going once round visits every slot, and no slot twice. */
  lemma VisitsEach(start: nat, n: nat) returns (k: nat)
    requires n < STACK_SLOTS
    ensures k < STACK_SLOTS && Visit(start, k) == n
    ensures forall j :: 0 <= j < STACK_SLOTS && Visit(start, j) == n ==> j == k
  {
    var r := start % STACK_SLOTS;
    k := if n >= r then n - r else n + STACK_SLOTS - r;
    VisitMeans(start, k);
    forall j | 0 <= j < STACK_SLOTS && Visit(start, j) == n
      ensures j == k
    {
      VisitMeans(start, j);
    }
  }

  /** Slot n is the first one that is not occupied, going once round from `start`. */
  ghost predicate FirstUnoccupied(t: Table, start: nat, n: nat)
  {
    !Occupied(t, n) && exists k :: 0 <= k < STACK_SLOTS && FirstAt(t, start, k) && Visit(start, k) == n
  }

  ghost predicate FirstAt(t: Table, start: nat, k: nat)
  {
    forall j :: 0 <= j < k ==> Occupied(t, Visit(start, j))
  }

  lemma FirstIsUnique(t: Table, start: nat, m: nat, n: nat)
    requires FirstUnoccupied(t, start, m) && FirstUnoccupied(t, start, n)
    ensures m == n && n < STACK_SLOTS
  {
    var i :| 0 <= i < STACK_SLOTS && FirstAt(t, start, i) && Visit(start, i) == m;
    var j :| 0 <= j < STACK_SLOTS && FirstAt(t, start, j) && Visit(start, j) == n;
  }

  /** The search visits each slot once from `start`, wrapping round, and stops at the first that is
      not occupied. "Full" therefore means every slot has an occupied entry, and the search panics
      exactly when slot 63 is the first unoccupied one. */
  method FindSlot(t: Table, start: nat) returns (r: Search)
    ensures r.Full? <==> forall n :: 0 <= n < STACK_SLOTS ==> Occupied(t, n)
    ensures r.Found? ==> FirstUnoccupied(t, start, r.slot) && AllUnused(t, r.slot)
    ensures r.Panic? <==> FirstUnoccupied(t, start, 63)
  {
    for i := 0 to STACK_SLOTS
      invariant forall k :: 0 <= k < i ==> Occupied(t, Visit(start, k))
    {
      var n := Visit(start, i);
      ProbeMeans(t, n, 8 * n + 1);
      match Probe(t, n, 8 * n + 1)
      case Free =>
        assert FirstAt(t, start, i);
        if FirstUnoccupied(t, start, 63) {
          FirstIsUnique(t, start, n, 63);
        }
        return Found(n);
      case Crash =>
        assert FirstAt(t, start, i);
        return Panic;
      case Taken =>
    }
    forall n | 0 <= n < STACK_SLOTS
      ensures Occupied(t, n)
    {
      var k := VisitsEach(start, n);
    }
    r := Full;
  }

  // ---------------------------------------------------------------------------------------
  // Live stacks
  // ---------------------------------------------------------------------------------------

  /** All ten pages of slot n are mapped for the user. */
  ghost predicate Stack(t: Table, n: nat)
  {
    n <= LAST_SLOT && forall i :: 0 <= i < ENTRIES && PageOf(n, i) ==> t[i].flags == USER_PAGE
  }

  predicate TwoApart(m: nat, n: nat)
  {
    m + 2 <= n || n + 2 <= m
  }

  ghost predicate Spread(slots: set<nat>)
  {
    && (forall n <- slots :: n <= LAST_SLOT)
    && (forall m, n :: m in slots && n in slots && m != n ==> TwoApart(m, n))
  }

  /** Slots two apart share no page, and the entry 8n that a free of n also clears belongs to none
      of them; at least six entries lie between neighbouring stacks. */
  lemma TwoApartDisjoint(m: nat, n: nat, i: nat)
    requires TwoApart(m, n) && PageOf(m, i)
    ensures !(8 * n <= i <= 8 * n + STACK_PAGES)
    ensures m < n ==> 8 * m + STACK_PAGES + 6 < 8 * n + 1
  {}

  lemma {:induction false} SpreadSize(slots: set<nat>, k: nat)
    requires Spread(slots) && forall n <- slots :: n < k
    ensures |slots| <= (k + 1) / 2
  {
    if k > 0 {
      if k - 1 in slots {
        var rest := slots - {k - 1};
        forall n | n in rest
          ensures n < if k >= 2 then k - 2 else 0
        {
          assert TwoApart(n, k - 1);
        }
        SpreadSize(rest, if k >= 2 then k - 2 else 0);
      } else {
        SpreadSize(slots, k - 1);
      }
    } else {
      assert slots == {};
    }
  }

  /** At most 32 slots can be pairwise two apart. */
  lemma AtMost32(slots: set<nat>)
    requires Spread(slots)
    ensures |slots| <= 32
  {
    SpreadSize(slots, LAST_SLOT + 1);
  }

  // ---------------------------------------------------------------------------------------
  // Filling and clearing a slot
  // ---------------------------------------------------------------------------------------

  /** Slot n with its first |fs| pages mapped to the frames fs. */
  ghost function Filled(t: Table, n: nat, fs: seq<nat>): (r: Table)
    requires |fs| <= STACK_PAGES
    ensures forall i :: 0 <= i < ENTRIES ==>
              r[i] == if 8 * n + 1 <= i <= 8 * n + |fs| then Entry(fs[i - 8 * n - 1], USER_PAGE) else t[i]
  {
    seq(ENTRIES, i requires 0 <= i < ENTRIES =>
      if 8 * n + 1 <= i <= 8 * n + |fs| then Entry(fs[i - 8 * n - 1], USER_PAGE) else t[i])
  }

  /** Entries 8n to 8n + 10 with their flags emptied and their frames kept. */
  ghost function Cleared(t: Table, n: nat): (r: Table)
    ensures forall i :: 0 <= i < ENTRIES ==>
              r[i] == if 8 * n <= i <= 8 * n + STACK_PAGES then Entry(t[i].frame, NO_FLAGS) else t[i]
  {
    seq(ENTRIES, i requires 0 <= i < ENTRIES =>
      if 8 * n <= i <= 8 * n + STACK_PAGES then Entry(t[i].frame, NO_FLAGS) else t[i])
  }

  /** Every entry is a mapped stack page or has no flags, and no mapped page is frame 0. */
  ghost predicate StackTable(t: Table)
  {
    forall i :: 0 <= i < ENTRIES ==> t[i].flags == NO_FLAGS || (t[i].flags == USER_PAGE && t[i].frame != 0)
  }

  // ---------------------------------------------------------------------------------------
  // Every run of stack allocations and frees in one table
  // ---------------------------------------------------------------------------------------

  /** An allocation that obtained the frames fs, fewer than ten if they ran out part-way; or the
      free of a live stack. */
  datatype StackOp = Fill(slot: nat, frames: seq<nat>) | Release(slot: nat)

  /** The table, the live stacks, and the slots in which a stack was ever completed. */
  datatype StackState = StackState(table: Table, live: set<nat>, ever: set<nat>)

  ghost predicate Enabled(s: StackState, op: StackOp)
  {
    match op
    case Fill(n, fs) => AllUnused(s.table, n) && |fs| <= STACK_PAGES && 0 !in fs
    case Release(n) => n in s.live
  }

  ghost predicate StackInvariant(s: StackState)
  {
    && StackTable(s.table)
    && s.live <= s.ever && Spread(s.ever)
    && (forall n <- s.live :: Stack(s.table, n))
    && (forall n, i :: n in s.ever && 0 <= i < ENTRIES && PageOf(n, i) ==> !Unused(s.table[i]))
  }

  ghost function StackStep(s: StackState, op: StackOp): StackState
    requires Enabled(s, op)
  {
    match op
    case Fill(n, fs) =>
      if |fs| == STACK_PAGES then StackState(Filled(s.table, n, fs), s.live + {n}, s.ever + {n})
      else s.(table := Filled(s.table, n, fs))
    case Release(n) => StackState(Cleared(s.table, n), s.live - {n}, s.ever)
  }

  lemma SharedPage(m: nat, n: nat) returns (i: nat)
    requires !TwoApart(m, n)
    ensures PageOf(m, i) && PageOf(n, i)
  {
    i := if m < n then 8 * m + 9 else 8 * m + 1;
  }

  lemma FillKeeps(s: StackState, n: nat, fs: seq<nat>)
    requires StackInvariant(s) && Enabled(s, Fill(n, fs))
    ensures StackInvariant(StackStep(s, Fill(n, fs)))
    ensures |fs| == STACK_PAGES ==> n !in s.ever
  {
    var t' := Filled(s.table, n, fs);
    forall m | m in s.ever
      ensures m != n && TwoApart(m, n)
    {
      if !TwoApart(m, n) {
        var i := SharedPage(m, n);
      }
    }
    forall m, i | m in s.ever && 0 <= i < ENTRIES && PageOf(m, i)
      ensures t'[i] == s.table[i]
    {
      TwoApartDisjoint(m, n, i);
    }
  }

  lemma ReleaseKeeps(s: StackState, n: nat)
    requires StackInvariant(s) && Enabled(s, Release(n))
    ensures StackInvariant(StackStep(s, Release(n)))
  {
    var t' := Cleared(s.table, n);
    assert Stack(s.table, n);
    forall m, i | m in s.live && m != n && 0 <= i < ENTRIES && PageOf(m, i)
      ensures t'[i] == s.table[i]
    {
      TwoApartDisjoint(m, n, i);
    }
    forall m, i | m in s.ever && 0 <= i < ENTRIES && PageOf(m, i)
      ensures !Unused(t'[i])
    {
      assert !Unused(s.table[i]);
    }
  }

  const NoStacks: StackState := StackState(ZeroTable(), {}, {})

  /** The states a table passes through, from a fresh one. */
  ghost predicate StackRun(states: seq<StackState>, ops: seq<StackOp>)
  {
    && |states| == |ops| + 1 && states[0] == NoStacks
    && (forall k :: 0 <= k < |ops| ==>
          Enabled(states[k], ops[k]) && states[k + 1] == StackStep(states[k], ops[k]))
  }

  /** How many allocations of the run obtained all ten pages. */
  function Completed(ops: seq<StackOp>): nat
  {
    if ops == [] then 0
    else Completed(ops[..|ops| - 1]) +
         match ops[|ops| - 1]
         case Fill(_, fs) => if |fs| == STACK_PAGES then 1 else 0
         case Release(_) => 0
  }

  /** Over every run, live stacks are two slots apart and intact. And since a free leaves frame
      numbers behind, its slot never counts as unused again: one page table can complete at most
      32 stacks in its whole life, however many were freed. */
  lemma {:induction false} StackRunInvariant(states: seq<StackState>, ops: seq<StackOp>)
    requires StackRun(states, ops)
    ensures StackInvariant(states[|ops|])
    ensures |states[|ops|].ever| == Completed(ops) <= 32
    ensures |states[|ops|].live| <= 32
    decreases |ops|
  {
    var n := |ops|;
    if n > 0 {
      StackRunInvariant(states[..n], ops[..n - 1]);
      match ops[n - 1]
      case Fill(m, fs) => FillKeeps(states[n - 1], m, fs);
      case Release(m) => ReleaseKeeps(states[n - 1], m);
    }
    AtMost32(states[n].ever);
    SubsetSpread(states[n].live, states[n].ever);
    AtMost32(states[n].live);
  }

  lemma SubsetSpread(a: set<nat>, b: set<nat>)
    requires a <= b && Spread(b)
    ensures Spread(a)
  {}

  /** The frames a free of slot n releases, last page first: those of the writable entries among
      the eleven it clears. */
  ghost function Released(t: Table, n: nat, k: nat): seq<nat>
    requires n <= LAST_SLOT && k <= STACK_PAGES + 1
  {
    if k == 0 then []
    else
      var e := t[8 * n + STACK_PAGES + 1 - k];
      Released(t, n, k - 1) + if e.flags.writable then [e.frame] else []
  }

  /** Freeing undoes allocating: of a stack filled with the frames fs it releases those ten, in
      reverse, and nothing more exactly when the entry below the stack is not a mapped page. */
  lemma {:induction false} ReleasedOfStack(t: Table, n: nat, fs: seq<nat>, k: nat)
    requires n <= LAST_SLOT && |fs| == STACK_PAGES && k <= STACK_PAGES
    ensures |Released(Filled(t, n, fs), n, k)| == k
    ensures forall j :: 0 <= j < k ==> Released(Filled(t, n, fs), n, k)[j] == fs[STACK_PAGES - 1 - j]
  {
    if k > 0 {
      ReleasedOfStack(t, n, fs, k - 1);
    }
  }

  lemma FreeInvertsAllocate(t: Table, n: nat, fs: seq<nat>)
    requires n <= LAST_SLOT && |fs| == STACK_PAGES
    ensures var freed := Released(Filled(t, n, fs), n, STACK_PAGES + 1);
            && |freed| >= STACK_PAGES
            && (forall j :: 0 <= j < STACK_PAGES ==> freed[j] == fs[STACK_PAGES - 1 - j])
            && (|freed| == STACK_PAGES <==> !t[8 * n].flags.writable)
  {
    ReleasedOfStack(t, n, fs, STACK_PAGES);
    assert Filled(t, n, fs)[8 * n] == t[8 * n];
  }

  /** In any table of a run, freeing a live stack leaves every page of every other live stack as it
      was, and the freed slot no longer probes as free. */
  lemma ReleaseIsLocal(s: StackState, n: nat)
    requires StackInvariant(s) && n in s.live
    ensures forall m, i :: m in s.live && m != n && 0 <= i < ENTRIES && PageOf(m, i) ==>
              Cleared(s.table, n)[i] == s.table[i]
    ensures !AllUnused(Cleared(s.table, n), n)
  {
    forall m, i | m in s.live && m != n && 0 <= i < ENTRIES && PageOf(m, i)
      ensures Cleared(s.table, n)[i] == s.table[i]
    {
      TwoApartDisjoint(m, n, i);
    }
    assert PageOf(n, 8 * n + 1);
    assert Stack(s.table, n);
  }
}
