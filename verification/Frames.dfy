/**
 Physical frames: the boot memory map, the usage bitmap with its `next` cursor, and the
 memory logger that counts what the bitmap grants and takes back.

 The value-level functions `Allocate` and `Deallocate` specify the two in-place operations of
 `PageFrameAllocator`; the lemmas below them are about every sequence of operations.
 */
module Frames {

  const PAGE_SIZE: nat := 4096
  const BITMAP_SIZE: nat := 100000
  const WORD: nat := 0x1_0000_0000_0000_0000

  // ---------------------------------------------------------------------------------------
  // The memory map
  // ---------------------------------------------------------------------------------------

  datatype RawRegion = Region(start: nat, end: nat, usable: bool)
  type Region = r: RawRegion | r.start <= r.end witness Region(0, 0, false)
  type MemoryMap = seq<Region>

  /** The frames containing lo, lo + 4096, lo + 8192, ... below hi. */
  function FramesBetween(lo: nat, hi: nat): seq<nat>
    decreases hi - lo
  {
    if lo >= hi then [] else [lo / PAGE_SIZE] + FramesBetween(lo + PAGE_SIZE, hi)
  }

  function UsableFrames(m: MemoryMap): seq<nat>
  {
    if m == [] then []
    else (if m[0].usable then FramesBetween(m[0].start, m[0].end) else []) + UsableFrames(m[1..])
  }

  function TotalFrames(m: MemoryMap): nat
  {
    if m == [] then 0
    else (if m[0].usable then (m[0].end - m[0].start) / PAGE_SIZE else 0) + TotalFrames(m[1..])
  }

  ghost predicate WholePages(m: MemoryMap)
  {
    forall r <- m :: r.usable ==> (r.end - r.start) % PAGE_SIZE == 0
  }

  ghost predicate PageAligned(m: MemoryMap)
  {
    forall r <- m :: r.usable ==> r.start % PAGE_SIZE == 0 && r.end % PAGE_SIZE == 0
  }

  ghost predicate Disjoint(m: MemoryMap)
  {
    forall i, j :: 0 <= i < j < |m| && m[i].usable && m[j].usable ==>
      m[i].end <= m[j].start || m[j].end <= m[i].start
  }

  ghost predicate Distinct(s: seq<nat>)
  {
    forall i, j :: 0 <= i < j < |s| ==> s[i] != s[j]
  }

  lemma {:induction false} FramesBetweenLength(lo: nat, hi: nat)
    requires lo <= hi
    ensures |FramesBetween(lo, hi)| == (hi - lo + PAGE_SIZE - 1) / PAGE_SIZE
    decreases hi - lo
  {
    if lo + PAGE_SIZE < hi {
      FramesBetweenLength(lo + PAGE_SIZE, hi);
    }
  }

  /** `usable_frames` counts a partial last page and `total_frames` does not, so the total is the
      number of frames the allocator can ever grant exactly when usable regions are whole pages. */
  lemma {:induction false} TotalFramesExact(m: MemoryMap)
    ensures TotalFrames(m) <= |UsableFrames(m)|
    ensures TotalFrames(m) == |UsableFrames(m)| <==> WholePages(m)
  {
    if m != [] {
      TotalFramesExact(m[1..]);
      assert m == [m[0]] + m[1..];
      FramesBetweenLength(m[0].start, m[0].end);
      assert WholePages(m) <==>
        (m[0].usable ==> (m[0].end - m[0].start) % PAGE_SIZE == 0) && WholePages(m[1..]);
    }
  }

  lemma {:induction false} FramesBetweenContents(lo: nat, hi: nat, i: nat)
    requires i < |FramesBetween(lo, hi)|
    ensures FramesBetween(lo, hi)[i] == lo / PAGE_SIZE + i && lo + i * PAGE_SIZE < hi
    decreases i
  {
    if i > 0 {
      FramesBetweenContents(lo + PAGE_SIZE, hi, i - 1);
    }
  }

  lemma {:induction false} UsableFramesOrigin(m: MemoryMap, i: nat) returns (k: nat)
    requires i < |UsableFrames(m)|
    requires PageAligned(m)
    ensures k < |m| && m[k].usable
    ensures m[k].start <= UsableFrames(m)[i] * PAGE_SIZE < m[k].end
  {
    assert forall r <- m[1..] :: r in m;
    var first := if m[0].usable then FramesBetween(m[0].start, m[0].end) else [];
    if i < |first| {
      FramesBetweenContents(m[0].start, m[0].end, i);
      assert m[0] in m;
      k := 0;
    } else {
      k := UsableFramesOrigin(m[1..], i - |first|);
      k := k + 1;
    }
  }

  /** How many frames the step over region r visits. */
  function Pages(r: Region): nat
  {
    if r.usable then (r.end - r.start + PAGE_SIZE - 1) / PAGE_SIZE else 0
  }

  /** How many frames the usable regions before region k have. */
  function PagesBefore(m: MemoryMap, k: nat): nat
    requires k <= |m|
  {
    if k == 0 then 0 else PagesBefore(m, k - 1) + Pages(m[k - 1])
  }

  lemma {:induction false} PagesBeforeTail(m: MemoryMap, k: nat)
    requires 0 < k <= |m|
    ensures PagesBefore(m, k) == Pages(m[0]) + PagesBefore(m[1..], k - 1)
  {
    if k > 1 {
      PagesBeforeTail(m, k - 1);
    }
  }

  /** The usable frames come in map order: frame i of region k comes after all frames of the usable
      regions before it and the i frames before it. */
  lemma {:induction false} MapOrder(m: MemoryMap, k: nat, i: nat)
    requires k < |m| && i < Pages(m[k])
    ensures PagesBefore(m, k) + i < |UsableFrames(m)|
    ensures UsableFrames(m)[PagesBefore(m, k) + i] == m[k].start / PAGE_SIZE + i
  {
    FramesBetweenLength(m[0].start, m[0].end);
    if k == 0 {
      FramesBetweenContents(m[0].start, m[0].end, i);
    } else {
      PagesBeforeTail(m, k);
      MapOrder(m[1..], k - 1, i);
    }
  }

  /** And there are no others. */
  lemma {:induction false} MapCount(m: MemoryMap)
    ensures |UsableFrames(m)| == PagesBefore(m, |m|)
  {
    if m != [] {
      MapCount(m[1..]);
      PagesBeforeTail(m, |m|);
      FramesBetweenLength(m[0].start, m[0].end);
    }
  }

  /** Non-overlapping page-aligned regions list every usable frame once. */
  lemma {:induction false} UsableFramesDistinct(m: MemoryMap)
    requires PageAligned(m) && Disjoint(m)
    ensures Distinct(UsableFrames(m))
  {
    if m != [] {
      var rest := m[1..];
      assert forall r <- rest :: r in m;
      assert forall i | 0 <= i < |rest| :: rest[i] == m[i + 1];
      assert m[0] in m;
      UsableFramesDistinct(rest);
      var first := if m[0].usable then FramesBetween(m[0].start, m[0].end) else [];
      forall i, j | 0 <= i < j < |UsableFrames(m)|
        ensures UsableFrames(m)[i] != UsableFrames(m)[j]
      {
        if j < |first| {
          FramesBetweenContents(m[0].start, m[0].end, i);
          FramesBetweenContents(m[0].start, m[0].end, j);
        } else if i < |first| {
          FramesBetweenContents(m[0].start, m[0].end, i);
          var k := UsableFramesOrigin(rest, j - |first|);
          assert m[k + 1] == rest[k];
        }
      }
    }
  }

  // ---------------------------------------------------------------------------------------
  // The bitmap, its cursor and the log
  // ---------------------------------------------------------------------------------------

  datatype Log = Log(used: nat, allocations: nat, deallocations: nat, peak: nat)

  function LogAllocation(l: Log): Log
  {
    var used := (l.used + PAGE_SIZE) % WORD;
    Log(used, l.allocations + 1, l.deallocations, if used > l.peak then used else l.peak)
  }

  function LogDeallocation(l: Log): Log
  {
    l.(used := (l.used - PAGE_SIZE) % WORD, deallocations := l.deallocations + 1)
  }

  /** `used` is the set of bitmap positions that are true. */
  datatype FrameState = FrameState(next: nat, used: set<nat>, log: Log)

  /** `Beyond` is the panic of indexing the bitmap out of range. */
  datatype Grant = Granted(frame: nat) | NoFrame | Beyond

  function Offer(usable: seq<nat>, s: FrameState): Grant
  {
    if s.next >= |usable| then NoFrame
    else if usable[s.next] >= BITMAP_SIZE then Beyond
    else if usable[s.next] in s.used then NoFrame
    else Granted(usable[s.next])
  }

  function Allocate(usable: seq<nat>, s: FrameState): FrameState
  {
    match Offer(usable, s)
    case Granted(f) => FrameState(s.next + 1, s.used + {f}, LogAllocation(s.log))
    case _ => s
  }

  function Deallocate(s: FrameState, f: nat): FrameState
  {
    FrameState(if f < BITMAP_SIZE && f < s.next then f else s.next,
               if f < BITMAP_SIZE then s.used - {f} else s.used,
               LogDeallocation(s.log))
  }

  const Fresh: FrameState := FrameState(0, {}, Log(0, 0, 0, 0))

  // ---------------------------------------------------------------------------------------
  // The in-place allocator
  // ---------------------------------------------------------------------------------------

  /** A logged region: first address and end. */
  datatype Logged = Logged(start: nat, end: nat)

  function FrameRegion(frame: nat): Logged
  {
    Logged(frame * PAGE_SIZE, (frame + 1) * PAGE_SIZE)
  }

  class MemoryLogger {
    var totalMemory: nat
    var usedMemory: nat
    var freeMemory: nat
    var allocationSuccesses: nat
    var allocationFailures: nat
    var allocationRegion: Logged
    var deallocationSuccesses: nat
    var deallocationFailures: nat
    var deallocationRegion: Logged
    var peakMemoryUsage: nat

    ghost function View(): Log
      reads this
    {
      Log(usedMemory, allocationSuccesses, deallocationSuccesses, peakMemoryUsage)
    }

    /** Used and free memory add up to the total, modulo 2^64. */
    ghost predicate AddsUp()
      reads this
    {
      (usedMemory + freeMemory) % WORD == totalMemory % WORD
    }

    constructor ()
      ensures View() == Fresh.log && AddsUp()
    {
      totalMemory, usedMemory, freeMemory, peakMemoryUsage := 0, 0, 0, 0;
      allocationSuccesses, allocationFailures, allocationRegion := 0, 0, Logged(0, 0);
      deallocationSuccesses, deallocationFailures, deallocationRegion := 0, 0, Logged(0, 0);
    }

    method SetTotalMemory(total: nat)
      modifies this`totalMemory, this`freeMemory
      ensures totalMemory == freeMemory == total
      ensures AddsUp() <==> usedMemory % WORD == 0
    {
      totalMemory, freeMemory := total, total;
      SumCongruent(usedMemory, total);
    }

    method LogAllocationOf(region: Logged, success: bool)
      modifies this
      ensures View() == if success then LogAllocation(old(View())) else old(View())
      ensures freeMemory == if success then (old(freeMemory) - PAGE_SIZE) % WORD else old(freeMemory)
      ensures allocationRegion == if success then region else old(allocationRegion)
      ensures allocationFailures == old(allocationFailures) + if success then 0 else 1
      ensures unchanged(`totalMemory) && unchanged(`deallocationFailures) && unchanged(`deallocationRegion)
      ensures AddsUp() <==> old(AddsUp())
    {
      if success {
        MovedCongruent(usedMemory, freeMemory, PAGE_SIZE);
        usedMemory := (usedMemory + PAGE_SIZE) % WORD;
        freeMemory := (freeMemory - PAGE_SIZE) % WORD;
        allocationSuccesses := allocationSuccesses + 1;
        allocationRegion := region;
        if usedMemory > peakMemoryUsage {
          peakMemoryUsage := usedMemory;
        }
      } else {
        allocationFailures := allocationFailures + 1;
      }
    }

    method LogDeallocationOf(region: Logged, success: bool)
      modifies this
      ensures View() == if success then LogDeallocation(old(View())) else old(View())
      ensures freeMemory == if success then (old(freeMemory) + PAGE_SIZE) % WORD else old(freeMemory)
      ensures deallocationRegion == if success then region else old(deallocationRegion)
      ensures deallocationFailures == old(deallocationFailures) + if success then 0 else 1
      ensures unchanged(`totalMemory) && unchanged(`allocationFailures) && unchanged(`allocationRegion)
      ensures AddsUp() <==> old(AddsUp())
    {
      if success {
        MovedCongruent(freeMemory, usedMemory, PAGE_SIZE);
        usedMemory := (usedMemory - PAGE_SIZE) % WORD;
        freeMemory := (freeMemory + PAGE_SIZE) % WORD;
        deallocationSuccesses := deallocationSuccesses + 1;
        deallocationRegion := region;
      } else {
        deallocationFailures := deallocationFailures + 1;
      }
    }
  }

  lemma SumCongruent(used: nat, total: nat)
    ensures (used + total) % WORD == total % WORD <==> used % WORD == 0
  {}

  /** Moving an amount between two wrapping counters keeps their sum, modulo 2^64. */
  lemma MovedCongruent(used: nat, free: nat, amount: int)
    ensures ((used + amount) % WORD + (free - amount) % WORD) % WORD == (used + free) % WORD
  {
    assert (used + amount) + (free - amount) == used + free;
  }

  class PageFrameAllocator {
    const memoryMap: MemoryMap
    const logger: MemoryLogger
    const usage: array<bool>
    var next: nat

    ghost predicate Valid()
      reads this
    {
      usage.Length == BITMAP_SIZE && next <= |UsableFrames(memoryMap)|
    }

    ghost function State(): (s: FrameState)
      reads this, usage, logger
    {
      FrameState(next, (set f: nat | f < usage.Length && usage[f]), logger.View())
    }

    constructor (memoryMap: MemoryMap)
      ensures Valid() && fresh(usage) && fresh(logger)
      ensures this.memoryMap == memoryMap
      ensures State() == Fresh
    {
      this.memoryMap := memoryMap;
      next := 0;
      usage := new bool[BITMAP_SIZE](_ => false);
      logger := new MemoryLogger();
    }

    method AllocateFrame() returns (g: Grant)
      requires Valid()
      modifies this, usage, logger
      ensures Valid()
      ensures g == Offer(UsableFrames(memoryMap), old(State()))
      ensures State() == Allocate(UsableFrames(memoryMap), old(State()))
      ensures logger.AddsUp() <==> old(logger.AddsUp())
    {
      var usable := UsableFrames(memoryMap);
      if next >= |usable| { return NoFrame; }
      var frame := usable[next];
      if frame >= BITMAP_SIZE { return Beyond; }
      if usage[frame] { return NoFrame; }
      usage[frame] := true;
      next := next + 1;
      logger.LogAllocationOf(FrameRegion(frame), true);
      g := Granted(frame);
      assert State().used == old(State()).used + {frame};
    }

    method DeallocateFrame(frame: nat)
      requires Valid()
      modifies this, usage, logger
      ensures Valid()
      ensures State() == Deallocate(old(State()), frame)
      ensures logger.AddsUp() <==> old(logger.AddsUp())
    {
      if frame < usage.Length {
        usage[frame] := false;
        if frame < next {
          next := frame;
        }
        assert State().used == old(State()).used - {frame};
      }
      logger.LogDeallocationOf(FrameRegion(frame), true);
    }
  }

  // ---------------------------------------------------------------------------------------
  // Every run of the allocator
  // ---------------------------------------------------------------------------------------

  datatype Op = Take | Give(frame: nat)

  function Apply(usable: seq<nat>, s: FrameState, op: Op): FrameState
  {
    match op
    case Take => Allocate(usable, s)
    case Give(f) => Deallocate(s, f)
  }

  /** The state after `ops`, starting from the allocator's initial state. */
  function Run(usable: seq<nat>, ops: seq<Op>): FrameState
  {
    if ops == [] then Fresh
    else Apply(usable, Run(usable, ops[..|ops| - 1]), ops[|ops| - 1])
  }

  /** How often the run handed out f, read off the grants. */
  function TimesGranted(usable: seq<nat>, ops: seq<Op>, f: nat): nat
  {
    if ops == [] then 0
    else
      var before := ops[..|ops| - 1];
      TimesGranted(usable, before, f) +
      if ops[|ops| - 1].Take? && Offer(usable, Run(usable, before)) == Granted(f) then 1 else 0
  }

  function TimesReturned(ops: seq<Op>, f: nat): nat
  {
    if ops == [] then 0
    else TimesReturned(ops[..|ops| - 1], f) + if ops[|ops| - 1] == Give(f) then 1 else 0
  }

  /** Number of frees of a frame that was not in use. */
  function StaleFrees(usable: seq<nat>, ops: seq<Op>): nat
  {
    if ops == [] then 0
    else
      var before := ops[..|ops| - 1];
      StaleFrees(usable, before) +
      match ops[|ops| - 1]
      case Take => 0
      case Give(f) => if f in Run(usable, before).used then 0 else 1
  }

  /** Only usable frames inside the bitmap are ever in use. */
  lemma {:induction false} UsedAreUsable(usable: seq<nat>, ops: seq<Op>)
    ensures forall f <- Run(usable, ops).used :: f in usable && f < BITMAP_SIZE
  {
    if ops != [] {
      UsedAreUsable(usable, ops[..|ops| - 1]);
    }
  }

  /** Frame ownership: if nobody frees a frame that is not in use, then a frame is in use exactly
      when it was granted once more than it was returned, so no frame ever has two holders. */
  lemma {:induction false} FrameOwnership(usable: seq<nat>, ops: seq<Op>, f: nat)
    requires StaleFrees(usable, ops) == 0
    ensures TimesGranted(usable, ops, f) ==
            TimesReturned(ops, f) + if f in Run(usable, ops).used then 1 else 0
    ensures TimesGranted(usable, ops, f) > 0 ==> f in usable && f < BITMAP_SIZE
  {
    if ops != [] {
      FrameOwnership(usable, ops[..|ops| - 1], f);
      UsedAreUsable(usable, ops[..|ops| - 1]);
    }
  }

  lemma ModAdd(a: int, b: int)
    ensures (a % WORD + b) % WORD == (a + b) % WORD
  {
    var q := a / WORD;
    assert a == q * WORD + a % WORD;
    var r := (a % WORD + b) / WORD;
    assert a % WORD + b == r * WORD + (a % WORD + b) % WORD;
    assert a + b == (q + r) * WORD + (a % WORD + b) % WORD;
  }

  ghost predicate LogOffBy(s: FrameState, stale: nat)
  {
    s.log.used == (PAGE_SIZE * (|s.used| - stale)) % WORD
  }

  lemma LogOffByAllocate(usable: seq<nat>, s: FrameState, stale: nat)
    requires LogOffBy(s, stale)
    ensures LogOffBy(Allocate(usable, s), stale)
  {
    ModAdd(PAGE_SIZE * (|s.used| - stale), PAGE_SIZE);
  }

  lemma LogOffByDeallocate(s: FrameState, f: nat, stale: nat)
    requires LogOffBy(s, stale) && forall g <- s.used :: g < BITMAP_SIZE
    ensures LogOffBy(Deallocate(s, f), stale + if f in s.used then 0 else 1)
  {
    var used := Deallocate(s, f).used;
    assert used == s.used - {f};
    assert |used| == |s.used| - if f in s.used then 1 else 0;
    ModAdd(PAGE_SIZE * (|s.used| - stale), -4096);
  }

  /** Over every run, disciplined or not, the logged usage is the bitmap's size less one page per
      stale free, in 64-bit arithmetic. */
  lemma {:induction false} LoggedUsage(usable: seq<nat>, ops: seq<Op>)
    ensures LogOffBy(Run(usable, ops), StaleFrees(usable, ops))
  {
    if ops != [] {
      var before := ops[..|ops| - 1];
      LoggedUsage(usable, before);
      UsedAreUsable(usable, before);
      match ops[|ops| - 1]
      case Take => LogOffByAllocate(usable, Run(usable, before), StaleFrees(usable, before));
      case Give(f) => LogOffByDeallocate(Run(usable, before), f, StaleFrees(usable, before));
    }
  }

  lemma BoundedSetSize(s: set<nat>, n: nat)
    requires forall f <- s :: f < n
    ensures |s| <= n
  {
    if n == 0 {
      assert s == {};
    } else if n - 1 in s {
      BoundedSetSize(s - {n - 1}, n - 1);
    } else {
      BoundedSetSize(s, n - 1);
    }
  }

  lemma ShiftByWords(a: int, k: int)
    ensures (a + k * WORD) % WORD == a % WORD
  {
    var q := a / WORD;
    assert a + k * WORD == (q + k) * WORD + a % WORD;
  }

  /** 4096 (u - k) and 4096 u agree in 64 bits exactly when k is a multiple of 2^52. */
  lemma PagesAgreeIff(u: nat, k: nat)
    requires u <= BITMAP_SIZE
    ensures (PAGE_SIZE * (u - k)) % WORD == PAGE_SIZE * u <==> k % (WORD / PAGE_SIZE) == 0
  {
    var pages: nat := WORD / PAGE_SIZE;
    var q, r := k / pages, k % pages;
    ShiftByWords(PAGE_SIZE * (u - r), -q);
    assert PAGE_SIZE * (u - k) == PAGE_SIZE * (u - r) + (-q) * WORD;
    if u < r {
      ShiftByWords(PAGE_SIZE * (u - r), 1);
    }
  }

  lemma LogAgrees(s: FrameState, k: nat)
    requires LogOffBy(s, k) && |s.used| <= BITMAP_SIZE
    ensures s.log.used == PAGE_SIZE * |s.used| <==> k % (WORD / PAGE_SIZE) == 0
  {
    PagesAgreeIff(|s.used|, k);
  }

  /** The logged usage is the true usage exactly when the stale frees wrap round to nothing:
      one stale free, as tearing down aliased mappings makes, is enough to break it. */
  lemma LogAgreesIff(usable: seq<nat>, ops: seq<Op>)
    ensures Run(usable, ops).log.used == PAGE_SIZE * |Run(usable, ops).used|
            <==> StaleFrees(usable, ops) % (WORD / PAGE_SIZE) == 0
  {
    LoggedUsage(usable, ops);
    UsedAreUsable(usable, ops);
    BoundedSetSize(Run(usable, ops).used, BITMAP_SIZE);
    LogAgrees(Run(usable, ops), StaleFrees(usable, ops));
  }

  /** The peak is the greatest usage ever logged: it bounds every prefix without stale frees, and some
      prefix attains it. */
  lemma {:induction false} PeakIsMaximum(usable: seq<nat>, ops: seq<Op>) returns (at: nat)
    ensures at <= |ops| && Run(usable, ops).log.peak == Run(usable, ops[..at]).log.used
    ensures forall k :: 0 <= k <= |ops| && StaleFrees(usable, ops[..k]) == 0 ==>
              Run(usable, ops[..k]).log.used <= Run(usable, ops).log.peak
  {
    if ops == [] {
      at := 0;
    } else {
      var before := ops[..|ops| - 1];
      at := PeakIsMaximum(usable, before);
      assert ops[..|ops|] == ops;
      forall k | 0 <= k <= |ops| && StaleFrees(usable, ops[..k]) == 0
        ensures Run(usable, ops[..k]).log.used <= Run(usable, ops).log.peak
      {
        if k < |ops| {
          assert before[..k] == ops[..k];
        } else {
          StaleFreesMonotone(usable, ops, |ops| - 1);
          LoggedUsage(usable, ops);
          LoggedUsage(usable, before);
          assert before[..|before|] == before;
          assert ops[..|ops| - 1] == before;
          NoWrapBelow(usable, ops);
        }
      }
      assert before[..at] == ops[..at];
      if Run(usable, ops).log.peak != Run(usable, before).log.peak {
        at := |ops|;
      }
    }
  }

  lemma StaleFreesMonotone(usable: seq<nat>, ops: seq<Op>, k: nat)
    requires k <= |ops|
    ensures StaleFrees(usable, ops[..k]) <= StaleFrees(usable, ops)
  {
    if k < |ops| {
      var before := ops[..|ops| - 1];
      StaleFreesMonotone(usable, before, k);
      assert before[..k] == ops[..k];
    } else {
      assert ops[..k] == ops;
    }
  }

  /** In a disciplined run the last operation leaves usage at or below the peak. */
  lemma NoWrapBelow(usable: seq<nat>, ops: seq<Op>)
    requires ops != [] && StaleFrees(usable, ops) == 0
    requires var before := ops[..|ops| - 1];
             Run(usable, before).log.used <= Run(usable, before).log.peak
    ensures Run(usable, ops).log.used <= Run(usable, ops).log.peak
  {
    var before := ops[..|ops| - 1];
    var s := Run(usable, before);
    LoggedUsage(usable, before);
    UsedAreUsable(usable, before);
    BoundedSetSize(s.used, BITMAP_SIZE);
    match ops[|ops| - 1]
    case Take =>
    case Give(f) => GiveBelow(s, f);
  }

  lemma GiveBelow(s: FrameState, f: nat)
    requires LogOffBy(s, 0) && |s.used| <= BITMAP_SIZE && f in s.used && s.log.used <= s.log.peak
    ensures Deallocate(s, f).log.used <= Deallocate(s, f).log.peak
  {
    assert |s.used - {f}| == |s.used| - 1;
    assert PAGE_SIZE <= s.log.used == PAGE_SIZE * |s.used| < WORD;
  }

  // ---------------------------------------------------------------------------------------
  // Allocation without frees, and allocation after a free
  // ---------------------------------------------------------------------------------------

  function Takes(n: nat): seq<Op>
  {
    seq(n, _ => Take)
  }

  function Elements(s: seq<nat>): set<nat>
  {
    set f | f in s
  }

  lemma DistinctPrefix(usable: seq<nat>, n: nat)
    requires Distinct(usable) && n < |usable|
    ensures usable[n] !in Elements(usable[..n])
    ensures Elements(usable[..n + 1]) == Elements(usable[..n]) + {usable[n]}
  {
    assert usable[..n + 1] == usable[..n] + [usable[n]];
  }

  /** The first k usable frames, and nothing else, are in use. */
  ghost predicate FirstTaken(usable: seq<nat>, s: FrameState, k: nat)
    requires k <= |usable|
  {
    s.next == k && s.used == Elements(usable[..k]) && |s.used| == k
  }

  lemma NextTaken(usable: seq<nat>, s: FrameState, k: nat)
    requires Distinct(usable) && k < |usable| && usable[k] < BITMAP_SIZE
    requires FirstTaken(usable, s, k)
    ensures Offer(usable, s) == Granted(usable[k])
    ensures FirstTaken(usable, Allocate(usable, s), k + 1)
  {
    DistinctPrefix(usable, k);
  }

  lemma OneMoreTake(usable: seq<nat>, n: nat)
    requires n > 0
    ensures Run(usable, Takes(n)) == Allocate(usable, Run(usable, Takes(n - 1)))
  {
    assert Takes(n)[..n - 1] == Takes(n - 1) && Takes(n)[n - 1] == Take;
  }

  /** Taking only, the k-th grant is the k-th usable frame of the map, and after all of them the
      allocator refuses: it succeeds exactly |usable| times. */
  lemma {:induction false} AllocateOnlyRun(usable: seq<nat>, n: nat)
    requires Distinct(usable) && forall i | 0 <= i < |usable| :: usable[i] < BITMAP_SIZE
    ensures FirstTaken(usable, Run(usable, Takes(n)), if n < |usable| then n else |usable|)
    ensures Offer(usable, Run(usable, Takes(n))) ==
            if n < |usable| then Granted(usable[n]) else NoFrame
  {
    if n > 0 {
      AllocateOnlyRun(usable, n - 1);
      OneMoreTake(usable, n);
      if n <= |usable| {
        NextTaken(usable, Run(usable, Takes(n - 1)), n - 1);
      }
    } else {
      assert Elements(usable[..0]) == {};
    }
    if n < |usable| {
      NextTaken(usable, Run(usable, Takes(n)), n);
    }
  }

  /** A memory map whose usable regions are whole pages, do not overlap, and lie within the bitmap. */
  ghost predicate Plain(m: MemoryMap)
  {
    PageAligned(m) && Disjoint(m) && forall f <- UsableFrames(m) :: f < BITMAP_SIZE
  }

  lemma TakesFrom(m: MemoryMap, n: nat)
    requires Plain(m)
    ensures var usable := UsableFrames(m);
            Offer(usable, Run(usable, Takes(n))) == if n < |usable| then Granted(usable[n]) else NoFrame
  {
    var usable := UsableFrames(m);
    UsableFramesDistinct(m);
    assert forall i | 0 <= i < |usable| :: usable[i] in usable;
    AllocateOnlyRun(usable, n);
  }

  /** A fresh allocator over a memory map: after the frames of the usable regions before region k and i
      more, the next grant is frame i of region k. */
  lemma GrantsInMapOrder(m: MemoryMap, k: nat, i: nat)
    requires Plain(m) && k < |m| && i < Pages(m[k])
    ensures Offer(UsableFrames(m), Run(UsableFrames(m), Takes(PagesBefore(m, k) + i))) ==
            Granted(m[k].start / PAGE_SIZE + i)
  {
    MapOrder(m, k, i);
    TakesFrom(m, PagesBefore(m, k) + i);
  }

  /** And after all of them there is none. */
  lemma GrantsEnd(m: MemoryMap, n: nat)
    requires Plain(m) && n >= PagesBefore(m, |m|)
    ensures Offer(UsableFrames(m), Run(UsableFrames(m), Takes(n))) == NoFrame
  {
    MapCount(m);
    TakesFrom(m, n);
  }

  /** A run after which a usable frame is free and yet the allocator reports none: a free stores a
      frame number in `next`, which indexes the usable frames. */
  lemma FreeFrameNotFound()
    ensures var usable := [1, 2, 3];
            var ops := [Take, Take, Take, Give(1)];
            && StaleFrees(usable, ops) == 0
            && Run(usable, ops).used == {2, 3} && Run(usable, ops).next == 1
            && Offer(usable, Run(usable, ops)) == NoFrame
  {
    var usable := [1, 2, 3];
    var ops := [Take, Take, Take, Give(1)];
    assert ops[..3] == [Take, Take, Take];
    assert ops[..3][..2] == [Take, Take];
    assert [Take, Take][..1] == [Take];
    assert [Take][..0] == [];
    assert Run(usable, [Take]).next == 1 && Run(usable, [Take]).used == {1};
    assert Run(usable, [Take, Take]).next == 2 && Run(usable, [Take, Take]).used == {1, 2};
    assert Run(usable, ops[..3]).next == 3 && Run(usable, ops[..3]).used == {1, 2, 3};
    assert StaleFrees(usable, [Take]) == 0;
    assert StaleFrees(usable, [Take, Take]) == 0;
    assert StaleFrees(usable, ops[..3]) == 0;
  }
}
