/**
 Which page table a thread runs under, over whole runs, and when that table has been freed.
 */
module KernelTables {
  import opened Options
  import opened Runs
  import opened Threads
  import opened Sockets
  import opened KernelState
  import opened KernelInvariant
  import opened KernelSteps
  import opened KernelIpc
  import opened KernelRegisters
  import opened KernelScheduling

  /** A user thread always runs under its own process's page table, which has not been freed and is
      no other process's, and on its own kernel stack. */
  lemma RunsInOwnSpace(states: seq<State>, steps: seq<Step>, t: Tid, n: nat)
    requires KernelRun(states, steps) && n <= |steps| && states[n].running == Some(t)
    ensures var s := states[n];
            && t in s.threads && s.interruptStack == s.threads[t].kernelStackEnd
            && (s.threads[t].threadType.User? ==>
                  && s.cr3 == s.threads[t].process.pageTable && s.cr3 in s.tables
                  && (forall u :: u in s.threads && s.threads[u].process.pid != s.threads[t].process.pid ==>
                        s.threads[u].process.pageTable != s.cr3))
  {
    var s := states[n];
    RunInv(states, steps, n);
    assert ProperThread(s.threads[t], s.tables);
    forall u | u in s.threads && s.threads[u].process.pid != s.threads[t].process.pid && s.threads[t].threadType.User?
      ensures s.threads[u].process.pageTable != s.cr3
    {
      assert SameProcess(s.threads[t], s.threads[u]);
      assert ProperThread(s.threads[u], s.tables);
    }
  }

  /** The page table that selecting a thread with this record activates. */
  function Activates(s: State, th: Thread): nat
  {
    if th.pageTable != 0 then th.pageTable else s.cr3
  }

  lemma ScheduleActivates(s: State, context: nat, t: Tid)
    requires t in s.threads && s.running != Some(t) && Schedule(s, context).running == Some(t)
    ensures Schedule(s, context).cr3 == Activates(s, s.threads[t])
  {}

  lemma OnSocketActivates(s: State, me: Tid, context: nat, q: Request, t: Tid)
    requires Inv(s) && s.running == Some(me) && q.Request? && t in s.threads && t != me
    requires OnSocket(s, me, context, q.handle, q.op).running == Some(t)
    ensures OnSocket(s, me, context, q.handle, q.op).cr3 == Activates(s, s.threads[t])
  {
    var j := SocketOf(s, me, q.handle);
    if j.Some? {
      var o := Perform(s.sockets[j.value], q.op);
      var done := Conclude(s, me, context, j.value, o);
      RedistributeFacts(done, me, o);
      ScheduleActivates(Redistribute(done, me, o), context, t);
    }
  }

  lemma SyscallActivates(s: State, context: nat, live: Regs, stack: Option<nat>, kernelStack: nat, me: Tid, t: Tid)
    requires Inv(s) && s.running == Some(me) && t in s.threads && t != me
    requires Dispatch(s, context, live, stack, kernelStack).running == Some(t)
    ensures Dispatch(s, context, live, stack, kernelStack).cr3 == Activates(s, s.threads[t])
  {
    var q := RequestOf(me, live);
    if q.Request? {
      DispatchRequest(s, context, live, stack, kernelStack, me);
      OnSocketActivates(s, me, context, q, t);
    } else if CallOf(live.rax).YieldCall? {
      ScheduleActivates(s, context, t);
    }
  }

  lemma KeyboardActivates(s: State, context: nat, key: Option<Word>, t: Tid)
    requires t in s.threads && s.running != Some(t) && KeyboardInterrupt(s, context, key).running == Some(t)
    ensures KeyboardInterrupt(s, context, key).cr3 == Activates(s, s.threads[t])
  {}

  /** A thread that gets the CPU gets the page table in its record. */
  lemma SelectionActivates(s: State, step: Step, s': State, t: Tid)
    requires Inv(s) && Moves(s, step, s') && t in s.threads && s.running != Some(t) && s'.running == Some(t)
    ensures s'.cr3 == Activates(s, s.threads[t])
  {
    match step
    case Timer(live) =>
      var at := InterruptContext(s.interruptStack);
      ScheduleActivates(Saved(s, at, live), at, t);
    case Keyboard(live, key) =>
      var at := InterruptContext(s.interruptStack);
      KeyboardActivates(Saved(s, at, live), at, key, t);
    case Syscall(live, stack, kernelStack) =>
      var at := SyscallContext(s.interruptStack);
      SavedKeeps(s, at, live);
      SyscallActivates(Saved(s, at, live), at, live, stack, kernelStack, s.running.value, t);
    case _ => KernelCodeGoesOn(s, step);
  }

  lemma KernelCodeGoesOn(s: State, step: Step)
    requires !step.Timer? && !step.Keyboard? && !step.Syscall?
    ensures Apply(s, step).running == s.running
  {}

  // ---------------------------------------------------------------------------------------
  // The recorded page table
  // ---------------------------------------------------------------------------------------

  /** The step takes the CPU from running thread t and records the active page table for it: a timer
      tick, a yield, or a key press that wakes another thread. Blocking in a socket does not. */
  predicate Displaced(s: State, step: Step, t: Tid)
  {
    s.running == Some(t) && (step.Timer? || Yields(step) || (step.Keyboard? && Woken(s, OpOf(s, step)) > 0))
  }

  function Recorded(s: State, t: Tid): nat
  {
    ThreadAt(s.threads, t).pageTable
  }

  lemma ScheduleRecords(s: State, context: nat, t: Tid)
    requires s.running == Some(t)
    ensures Recorded(Schedule(s, context), t) == s.cr3
    ensures Schedule(s, context).running == Some(t) ==> Schedule(s, context).cr3 == s.cr3
  {}

  lemma KeyboardRecords(s: State, context: nat, key: Option<Word>, t: Tid)
    requires Wired(s) && s.running == Some(t)
    ensures var wakes := key.Some? && Waiting(s.sockets[KEYBOARD_SOCKET]);
            && Recorded(KeyboardInterrupt(s, context, key), t) == (if wakes then s.cr3 else Recorded(s, t))
            && (wakes && KeyboardInterrupt(s, context, key).running == Some(t) ==>
                  KeyboardInterrupt(s, context, key).cr3 == s.cr3)
  {
    if key.Some? {
      AnonymousOutcome(s.sockets[KEYBOARD_SOCKET], Packet(MESSAGE_TYPE_KEY, key.value, 0));
    }
  }

  lemma OnSocketRecords(s: State, me: Tid, context: nat, q: Request)
    requires s.running == Some(me) && q.Request?
    ensures Recorded(OnSocket(s, me, context, q.handle, q.op), me) == Recorded(s, me)
  {
    var j := SocketOf(s, me, q.handle);
    if j.Some? {
      RendezvousTable(s, me, context, j.value, q.op);
    }
  }

  lemma SyscallRecords(s: State, step: Step, t: Tid)
    requires Inv(s) && step.Syscall? && s.running == Some(t) && !Exits(s, step, t)
    ensures Recorded(Apply(s, step), t) == if Yields(step) then s.cr3 else Recorded(s, t)
    ensures Yields(step) && Apply(s, step).running == Some(t) ==> Apply(s, step).cr3 == s.cr3
  {
    var at := SyscallContext(s.interruptStack);
    var saved := Saved(s, at, step.live);
    var q := RequestOf(t, step.live);
    if q.Request? {
      DispatchRequest(saved, at, step.live, step.stack, step.kernelStack, t);
      OnSocketRecords(saved, t, at, q);
    } else if Yields(step) {
      ScheduleRecords(saved, at, t);
    } else {
      assert 0 < t <= s.counter;
    }
  }

  lemma RunningRecords(s: State, step: Step, t: Tid)
    requires Inv(s) && Enabled(s, step) && s.running == Some(t) && !Exits(s, step, t)
    ensures Recorded(Apply(s, step), t) == if Displaced(s, step, t) then s.cr3 else Recorded(s, t)
    ensures Displaced(s, step, t) && Apply(s, step).running == Some(t) ==> Apply(s, step).cr3 == s.cr3
  {
    var at := InterruptContext(s.interruptStack);
    match step
    case Timer(live) => ScheduleRecords(Saved(s, at, live), at, t);
    case Keyboard(live, key) =>
      KeyboardRecords(Saved(s, at, live), at, key, t);
      if key.Some? {
        AnonymousOutcome(s.sockets[KEYBOARD_SOCKET], Packet(MESSAGE_TYPE_KEY, key.value, 0));
      }
    case Syscall(_, _, _) => SyscallRecords(s, step, t);
    case PostMessage(j, m) => NotDropped(s, step, t);
    case _ => CreationRecords(s, step, t);
  }

  lemma CreationRecords(s: State, step: Step, t: Tid)
    requires !step.Timer? && !step.Keyboard? && !step.Syscall? && !step.PostMessage? && t <= s.counter
    ensures Recorded(Apply(s, step), t) == Recorded(s, t)
  {}

  /** A displacement records the active page table; nothing else changes the record. */
  lemma RecordAfter(s: State, step: Step, s': State, t: Tid)
    requires Inv(s) && Moves(s, step, s') && t in s.threads && t in s'.threads
    ensures Recorded(s', t) == if Displaced(s, step, t) then s.cr3 else Recorded(s, t)
  {
    if s.running == Some(t) {
      DiesIff(s, step, s', t);
      RunningRecords(s, step, t);
    } else {
      DroppedIsGone(s, step, t);
      SuspendedThroughStep(s, step, s', t);
    }
  }

  /** The page table a thread that the step creates starts with in its record. */
  function BirthTable(s: State, step: Step): nat
  {
    match step
    case Syscall(_, _, _) => if s.running.Some? then Recorded(s, s.running.value) else 0
    case NewUserThread(table, _, _, _) => table
    case _ => 0
  }

  lemma BornWith(s: State, step: Step, s': State, t: Tid)
    requires Inv(s) && Moves(s, step, s') && Creates(s, step, t)
    ensures Recorded(s', t) == BirthTable(s, step)
  {}

  /** Unless t is gone, its record is `table`. */
  ghost predicate Records(s: State, t: Tid, table: nat)
  {
    Inv(s) && t <= s.counter && (t in s.threads ==> Recorded(s, t) == table)
  }

  lemma RecordKept(states: seq<State>, steps: seq<Step>, t: Tid, table: nat, a: nat, b: nat)
    requires KernelRun(states, steps) && a <= b <= |steps| && Records(states[a], t, table)
    requires forall k :: a <= k < b ==> !Displaced(states[k], steps[k], t)
    ensures Records(states[b], t, table)
  {
    var kind := (s: State, e: Step) => !Displaced(s, e, t);
    forall s, e, s' | Records(s, t, table) && kind(s, e) && Moves(s, e, s')
      ensures Records(s', t, table)
    {
      MovesKeeps(s, e, s');
      ThreadsAfter(s, e, t);
      if t in s.threads && t in s'.threads {
        RecordAfter(s, e, s', t);
      }
    }
    AsRun(states, steps);
    Throughout(Moves, kind, (s: State) => Records(s, t, table), states, steps, a, b);
  }

  /** State n is where t's record became `table`: t has just been displaced or created, or the run
      starts there. */
  ghost predicate RecordedAt(states: seq<State>, steps: seq<Step>, t: Tid, n: nat, table: nat)
    requires |states| == |steps| + 1 && n <= |steps|
  {
    if n == 0 then t in states[0].threads && table == Recorded(states[0], t)
    else
      var s, e := states[n - 1], steps[n - 1];
      (Displaced(s, e, t) && table == s.cr3) || (Creates(s, e, t) && table == BirthTable(s, e))
  }

  lemma RecordedThere(states: seq<State>, steps: seq<Step>, t: Tid, n: nat, table: nat)
    requires KernelRun(states, steps) && n <= |steps| && RecordedAt(states, steps, t, n, table)
    ensures Records(states[n], t, table)
  {
    if n == 0 {
      assert t <= states[0].counter;
    } else {
      RecordedInRun(states, steps, t, n - 1, table);
    }
  }

  lemma RecordedInRun(states: seq<State>, steps: seq<Step>, t: Tid, k: nat, table: nat)
    requires KernelRun(states, steps) && k < |steps| && RecordedAt(states, steps, t, k + 1, table)
    ensures Records(states[k + 1], t, table)
  {
    RunInv(states, steps, k);
    RunInv(states, steps, k + 1);
    assert StepAt(states, steps, k);
    RecordedNext(states[k], steps[k], states[k + 1], t, table);
  }

  lemma RecordedNext(s: State, step: Step, s': State, t: Tid, table: nat)
    requires Inv(s) && Moves(s, step, s') && Inv(s')
    requires (Displaced(s, step, t) && table == s.cr3) || (Creates(s, step, t) && table == BirthTable(s, step))
    ensures Records(s', t, table)
  {
    ThreadsAfter(s, step, t);
    if Creates(s, step, t) {
      BornIff(s, step, s', t);
      BornWith(s, step, s', t);
    } else if t in s'.threads {
      RecordAfter(s, step, s', t);
    }
  }

  /** Thread t gets the CPU in state b, having been off it or displaced in that very step. */
  ghost predicate GetsCpu(states: seq<State>, steps: seq<Step>, t: Tid, b: nat)
    requires |states| == |steps| + 1
  {
    && 0 < b <= |steps| && states[b].running == Some(t)
    && (states[b - 1].running != Some(t) || Displaced(states[b - 1], steps[b - 1], t))
  }

  /** The last time before state b that t's record was written. */
  ghost predicate LastRecorded(states: seq<State>, steps: seq<Step>, t: Tid, n: nat, b: nat, table: nat)
    requires |states| == |steps| + 1 && b <= |steps|
  {
    && n <= b && RecordedAt(states, steps, t, n, table)
    && (forall k :: n <= k < b ==> !Displaced(states[k], steps[k], t))
  }

  /** Every live thread has a last record. */
  lemma {:induction false} HasRecord(states: seq<State>, steps: seq<Step>, t: Tid, b: nat) returns (n: nat, table: nat)
    requires KernelRun(states, steps) && b <= |steps| && t in states[b].threads
    ensures LastRecorded(states, steps, t, n, b, table)
    decreases b
  {
    if b == 0 {
      n, table := 0, Recorded(states[0], t);
    } else {
      var c := b - 1;
      if Displaced(states[c], steps[c], t) {
        n, table := b, states[c].cr3;
      } else if t in states[c].threads {
        n, table := HasRecord(states, steps, t, c);
      } else {
        BornInRun(states, steps, t, c);
        n, table := b, BirthTable(states[c], steps[c]);
      }
    }
  }

  lemma BornInRun(states: seq<State>, steps: seq<Step>, t: Tid, k: nat)
    requires KernelRun(states, steps) && k < |steps| && t !in states[k].threads && t in states[k + 1].threads
    ensures Creates(states[k], steps[k], t)
  {
    RunInv(states, steps, k);
    assert StepAt(states, steps, k);
    BornIff(states[k], steps[k], states[k + 1], t);
  }

  /** So does every thread that gets the CPU. */
  lemma SelectionHasRecord(states: seq<State>, steps: seq<Step>, t: Tid, b: nat) returns (n: nat, table: nat)
    requires KernelRun(states, steps) && GetsCpu(states, steps, t, b)
    ensures LastRecorded(states, steps, t, n, b, table)
  {
    RunInv(states, steps, b);
    n, table := HasRecord(states, steps, t, b);
  }

  /** Whenever a thread gets the CPU, the active page table is the one last recorded for it, at its
      last displacement or its creation, however often it ran, called, blocked and was woken in
      between; or, if that is none, the table active before. */
  lemma ResumesUnderRecord(states: seq<State>, steps: seq<Step>, t: Tid, n: nat, b: nat, table: nat)
    requires KernelRun(states, steps) && GetsCpu(states, steps, t, b) && LastRecorded(states, steps, t, n, b, table)
    ensures states[b].cr3 == if table != 0 then table else states[b - 1].cr3
  {
    if n < b {
      ResumesUnderOlderRecord(states, steps, t, n, b, table);
    } else {
      ReselectedInRun(states, steps, t, b - 1);
    }
  }

  lemma ResumesUnderOlderRecord(states: seq<State>, steps: seq<Step>, t: Tid, n: nat, b: nat, table: nat)
    requires KernelRun(states, steps) && n < b <= |steps| && RecordedAt(states, steps, t, n, table)
    requires forall k :: n <= k < b ==> !Displaced(states[k], steps[k], t)
    requires states[b - 1].running != Some(t) && states[b].running == Some(t)
    ensures states[b].cr3 == if table != 0 then table else states[b - 1].cr3
  {
    RecordedThere(states, steps, t, n, table);
    RecordKept(states, steps, t, table, n, b - 1);
    SelectedInRun(states, steps, t, b - 1);
  }

  lemma SelectedInRun(states: seq<State>, steps: seq<Step>, t: Tid, k: nat)
    requires KernelRun(states, steps) && k < |steps|
    requires states[k].running != Some(t) && states[k + 1].running == Some(t)
    ensures t in states[k].threads
    ensures states[k + 1].cr3 == if Recorded(states[k], t) != 0 then Recorded(states[k], t) else states[k].cr3
  {
    RunInv(states, steps, k);
    RunInv(states, steps, k + 1);
    assert StepAt(states, steps, k);
    SelectedNext(states[k], steps[k], states[k + 1], t);
  }

  lemma ReselectedInRun(states: seq<State>, steps: seq<Step>, t: Tid, k: nat)
    requires KernelRun(states, steps) && k < |steps| && states[k + 1].running == Some(t)
    requires Displaced(states[k], steps[k], t) || Creates(states[k], steps[k], t)
    ensures Displaced(states[k], steps[k], t) && states[k + 1].cr3 == states[k].cr3
  {
    RunInv(states, steps, k);
    RunInv(states, steps, k + 1);
    assert StepAt(states, steps, k);
    ReselectedNext(states[k], steps[k], states[k + 1], t);
  }

  lemma SelectedNext(s: State, step: Step, s': State, t: Tid)
    requires Inv(s) && Moves(s, step, s') && Inv(s') && s.running != Some(t) && s'.running == Some(t)
    ensures t in s.threads && s'.cr3 == if Recorded(s, t) != 0 then Recorded(s, t) else s.cr3
  {
    NewbornWaits(s, step, s', t);
    SelectionActivates(s, step, s', t);
  }

  /** A thread never runs in the state it is created in. */
  lemma NewbornWaits(s: State, step: Step, s': State, t: Tid)
    requires Inv(s) && Moves(s, step, s') && Inv(s') && s.running != Some(t) && s'.running == Some(t)
    ensures t in s.threads
  {
    if t !in s.threads {
      BornIff(s, step, s', t);
    }
  }

  lemma ReselectedNext(s: State, step: Step, s': State, t: Tid)
    requires Inv(s) && Moves(s, step, s') && Inv(s') && s'.running == Some(t)
    requires Displaced(s, step, t) || Creates(s, step, t)
    ensures Displaced(s, step, t) && s'.cr3 == s.cr3
  {
    if Creates(s, step, t) {
      BornIff(s, step, s', t);
      if s.running != Some(t) {
        NewbornWaits(s, step, s', t);
      }
    } else {
      DiesIff(s, step, s', t);
      RunningRecords(s, step, t);
    }
  }

  // ---------------------------------------------------------------------------------------
  // Page tables in use
  // ---------------------------------------------------------------------------------------

  /** The step makes `table` the page table of a new process. */
  predicate AddsTable(s: State, step: Step, table: nat)
  {
    step.NewUserThread? && step.stack.Some? && step.table == table
  }

  /** Thread t, the last of its process, dies in this step, and `table` is its process's. */
  predicate LastDies(s: State, step: Step, t: Tid, table: nat)
  {
    Dies(s, step, t) && !Shared(s.threads, t) && ThreadAt(s.threads, t).process.pageTable == table
  }

  /** The step frees `table`: the last thread of its process exits or is dropped. */
  ghost predicate FreesTable(s: State, step: Step, table: nat)
  {
    exists t :: LastDies(s, step, t, table)
  }

  lemma OnSocketTables(s: State, me: Tid, context: nat, q: Request)
    requires q.Request?
    ensures var s' := OnSocket(s, me, context, q.handle, q.op); s'.tables == s.tables && s'.kernelTable == s.kernelTable
  {
    var j := SocketOf(s, me, q.handle);
    if j.Some? {
      var o := Perform(s.sockets[j.value], q.op);
      RedistributeFacts(Conclude(s, me, context, j.value, o), me, o);
    }
  }

  lemma SyscallTables(s: State, step: Step, me: Tid, table: nat)
    requires step.Syscall? && s.running == Some(me)
    ensures table in Apply(s, step).tables <==> table in s.tables && !FreesTable(s, step, table)
    ensures Apply(s, step).kernelTable == s.kernelTable
  {
    var at := SyscallContext(s.interruptStack);
    var saved := Saved(s, at, step.live);
    var q := RequestOf(me, step.live);
    assert LastDies(s, step, me, table) <==> FreesTable(s, step, table);
    if q.Request? {
      DispatchRequest(saved, at, step.live, step.stack, step.kernelStack, me);
      OnSocketTables(saved, me, at, q);
    }
  }

  /** A table is in use after a step exactly if the step added it, or it was and was not freed. */
  lemma TablesAfter(s: State, step: Step, s': State, table: nat)
    requires Inv(s) && Moves(s, step, s')
    ensures table in s'.tables <==> AddsTable(s, step, table) || (table in s.tables && !FreesTable(s, step, table))
    ensures s'.kernelTable == s.kernelTable
  {
    if step.Syscall? {
      SyscallTables(s, step, s.running.value, table);
    } else if step.PostMessage? {
      PostTables(s, step, table);
    } else {
      OtherTables(s, step, table);
    }
  }

  lemma OtherTables(s: State, step: Step, table: nat)
    requires !step.Syscall? && !step.PostMessage?
    ensures table in Apply(s, step).tables <==> AddsTable(s, step, table) || table in s.tables
    ensures Apply(s, step).kernelTable == s.kernelTable
    ensures !FreesTable(s, step, table)
  {
    if step.Timer? || step.Keyboard? {
      InterruptTables(s, step);
    }
  }

  lemma InterruptTables(s: State, step: Step)
    requires step.Timer? || step.Keyboard?
    ensures Apply(s, step).tables == s.tables && Apply(s, step).kernelTable == s.kernelTable
  {}

  lemma PostTables(s: State, step: Step, table: nat)
    requires step.PostMessage? && step.socket < |s.sockets|
    ensures table in Apply(s, step).tables <==> table in s.tables && !FreesTable(s, step, table)
    ensures Apply(s, step).kernelTable == s.kernelTable
  {
    var x := s.sockets[step.socket];
    AnonymousOutcome(x, step.message);
    if Waiting(x) {
      assert LastDies(s, step, x.receiver, table) <==> FreesTable(s, step, table);
    }
  }

  /** When a thread dies the active page table stays, unless it is freed with the thread's process; then
      the kernel's is active. */
  lemma DeathSwitches(s: State, step: Step, s': State, t: Tid)
    requires Inv(s) && Moves(s, step, s') && Dies(s, step, t)
    ensures s'.cr3 == if LastDies(s, step, t, s.cr3) then s.kernelTable else s.cr3
  {
    if Dropped(s, step, t) {
      AnonymousOutcome(s.sockets[step.socket], step.message);
    }
  }

  ghost predicate SameKernel(s: State, kernelTable: nat)
  {
    Inv(s) && s.kernelTable == kernelTable
  }

  /** The history of `table` from state a says it is in use in state b: it was and has not been freed
      since, or it became a new process's and has not been freed after that. */
  ghost predicate InUseSince(states: seq<State>, steps: seq<Step>, table: nat, a: nat, b: nat)
    requires |states| == |steps| + 1 && a <= b <= |steps|
  {
    var adds, frees := (s: State, e: Step) => AddsTable(s, e, table), (s: State, e: Step) => FreesTable(s, e, table);
    || (table in states[a].tables && Unbroken(frees, states, steps, a, b))
    || exists k :: a <= k < b && LastSet(adds, frees, states, steps, k, b)
  }

  lemma InUseIff(states: seq<State>, steps: seq<Step>, table: nat, a: nat, b: nat)
    requires KernelRun(states, steps) && a <= b <= |steps|
    ensures table in states[b].tables <==> InUseSince(states, steps, table, a, b)
    ensures states[b].kernelTable == states[a].kernelTable
  {
    var kernelTable := states[a].kernelTable;
    var inv := (s: State) => SameKernel(s, kernelTable);
    RunInv(states, steps, a);
    forall s, e, s' | SameKernel(s, kernelTable) && Moves(s, e, s')
      ensures SameKernel(s', kernelTable)
      ensures table in s'.tables <==> AddsTable(s, e, table) || (table in s.tables && !FreesTable(s, e, table))
    {
      MovesKeeps(s, e, s');
      TablesAfter(s, e, s', table);
    }
    AsRun(states, steps);
    SetAndCleared(Moves, inv, (s: State) => table in s.tables, (s: State, e: Step) => AddsTable(s, e, table),
                  (s: State, e: Step) => FreesTable(s, e, table), states, steps, a, b);
  }

  /** A page table that is safe to have active. */
  predicate LiveTable(s: State, table: nat)
  {
    table == s.kernelTable || table in s.tables
  }

  /** A thread that gets the CPU runs under a live page table exactly if the table last recorded for
      it is the kernel's, or has not been freed since it was recorded, or has been given to another
      process since and not freed after that. This covers threads that were displaced and threads
      that blocked in a socket since. */
  lemma ResumesSafelyIff(states: seq<State>, steps: seq<Step>, t: Tid, n: nat, b: nat, table: nat)
    requires KernelRun(states, steps) && GetsCpu(states, steps, t, b) && LastRecorded(states, steps, t, n, b, table)
    requires table != 0
    ensures LiveTable(states[b], states[b].cr3) <==>
            table == states[n].kernelTable || InUseSince(states, steps, table, n, b)
  {
    ResumesUnderRecord(states, steps, t, n, b, table);
    InUseIff(states, steps, table, n, b);
  }

  /** A thread that has never been displaced and was created without a table of its own runs under a
      live table exactly if the one active before it was live. */
  lemma FirstRunSafelyIff(states: seq<State>, steps: seq<Step>, t: Tid, n: nat, b: nat)
    requires KernelRun(states, steps) && GetsCpu(states, steps, t, b) && LastRecorded(states, steps, t, n, b, 0)
    ensures LiveTable(states[b], states[b].cr3) <==>
            || states[b - 1].cr3 == states[0].kernelTable
            || InUseSince(states, steps, states[b - 1].cr3, 0, b)
  {
    ResumesUnderRecord(states, steps, t, n, b, 0);
    InUseIff(states, steps, states[b - 1].cr3, 0, b);
  }
}
