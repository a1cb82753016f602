/**
 Every step keeps the kernel's invariant.
 */
module KernelSteps {
  import opened Options
  import opened Threads
  import opened Sockets
  import opened KernelState
  import opened KernelInvariant

  /** The part of the invariant that is about the thread table alone. */
  ghost predicate Core(s: State)
  {
    Numbered(s) && Stacks(s.threads) && Processes(s)
  }

  // ---------------------------------------------------------------------------------------
  // Places
  // ---------------------------------------------------------------------------------------

  lemma OutcomeCounts(s: Socket, op: Op, t: Tid)
    ensures var o := Perform(s, op);
            Count(Held(s), t) + Count(Ids(Caller(op)), t) ==
            Count(Held(o.socket), t) + Count(Ids(o.first), t) + Count(Ids(o.second), t)
  {
    var o := Perform(s, op);
    SocketConservation(s, op);
    CountPlus(Held(s), Ids(Caller(op)), t);
    CountPlus(Held(o.socket), HandedBack(o), t);
    CountPlus(Ids(o.first), Ids(o.second), t);
  }

  lemma ConcludePlaces(s: State, me: Tid, context: nat, j: nat, o: Outcome, t: Tid)
    requires s.running == Some(me) && j < |s.sockets|
    ensures Places(Conclude(s, me, context, j, o), t) + Count([me], t) + Count(Held(s.sockets[j]), t) ==
            Places(s, t) + Count(Held(o.socket), t)
  {
    CountPlus([], [], t);
    ReplaceHeld(s.sockets, j, o.socket, t);
  }

  lemma RedistributePlaces(s: State, me: Tid, o: Outcome, t: Tid)
    ensures Places(Redistribute(s, me, o), t) ==
            Places(s, t) + Count(Ids(o.first), t) + Count(Ids(o.second), t)
  {
    PlacePlaces(s, me, o.second, t);
    PlacePlaces(Place(s, me, o.second), me, o.first, t);
  }

  /** Once the threads handed back are distributed, everyone is where they should be. */
  lemma ConcludedPlaces(s: State, me: Tid, context: nat, j: nat, op: Op, t: Tid)
    requires s.running == Some(me) && Caller(op) == Some(me) && j < |s.sockets|
    ensures var o := Perform(s.sockets[j], op);
            Places(Redistribute(Conclude(s, me, context, j, o), me, o), t) == Places(s, t)
  {
    var o := Perform(s.sockets[j], op);
    OutcomeCounts(s.sockets[j], op, t);
    ConcludePlaces(s, me, context, j, o, t);
    RedistributePlaces(Conclude(s, me, context, j, o), me, o, t);
  }

  lemma {:induction false} WithoutAbsent(queue: seq<Tid>, t: Tid)
    requires t !in queue
    ensures Without(queue, t) == queue
  {
    if queue != [] {
      WithoutAbsent(queue[1..], t);
    }
  }

  /** The running thread is in no queue, so the sweep at exit removes nobody. */
  lemma ExitSweepIsIdle(s: State)
    requires Placed(s) && s.running.Some?
    ensures Without(s.queue, s.running.value) == s.queue
  {
    var t := s.running.value;
    CountOne(t, t);
    CountPlus(s.queue, [], t);
    assert Places(s, t) <= 1;
    WithoutAbsent(s.queue, t);
  }

  // ---------------------------------------------------------------------------------------
  // The thread table
  // ---------------------------------------------------------------------------------------

  /** A record that differs from the old one only in where it was saved and under which table. */
  predicate SameIdentity(a: Thread, b: Thread)
  {
    a.threadType == b.threadType && a.process == b.process && a.kernelStackEnd == b.kernelStackEnd
  }

  lemma UpdateStacks(threads: map<Tid, Thread>, t: Tid, th: Thread)
    requires Stacks(threads) && t in threads && SameIdentity(threads[t], th) && OwnContext(th)
    ensures Stacks(threads[t := th])
  {}

  lemma UpdateProcesses(s: State, t: Tid, th: Thread)
    requires Processes(s) && t in s.threads && SameIdentity(s.threads[t], th) && ProperThread(th, s.tables)
    ensures Processes(s.(threads := s.threads[t := th]))
  {
    var s' := s.(threads := s.threads[t := th]);
    forall u | u in s'.threads
      ensures u in s.threads && SameIdentity(s.threads[u], s'.threads[u]) && ProperThread(s'.threads[u], s.tables)
    {}
    forall p | p in s'.tables
      ensures exists u :: u in s'.threads && s'.threads[u].process.pageTable == p
    {
      var u :| u in s.threads && s.threads[u].process.pageTable == p;
      assert u in s'.threads && s'.threads[u].process.pageTable == p;
    }
    forall u, v | u in s'.threads && v in s'.threads
      ensures SameProcess(s'.threads[u], s'.threads[v])
    {
      assert SameProcess(s.threads[u], s.threads[v]);
    }
  }

  lemma UpdateCore(s: State, t: Tid, th: Thread)
    requires Core(s) && t in s.threads && SameIdentity(s.threads[t], th)
    requires OwnContext(th) && ProperThread(th, s.tables)
    ensures Core(s.(threads := s.threads[t := th]))
  {
    UpdateStacks(s.threads, t, th);
    UpdateProcesses(s, t, th);
  }

  lemma SetContextCore(s: State, t: Tid, context: nat)
    requires Core(s) && t in s.threads
    requires context == SyscallContext(s.threads[t].kernelStackEnd)
    ensures Core(SetContext(s, t, context))
  {
    UpdateCore(s, t, s.threads[t].(context := context));
  }

  lemma ParkCore(s: State, context: nat)
    requires Core(s) && (s.running.Some? ==> CpuFor(s, s.running.value))
    requires context == InterruptContext(s.interruptStack) || context == SyscallContext(s.interruptStack)
    ensures Core(Park(s, context))
  {
    if s.running.Some? {
      var t := s.running.value;
      UpdateCore(s, t, s.threads[t].(context := context, pageTable := s.cr3));
    }
  }

  lemma InsertStacks(threads: map<Tid, Thread>, t: Tid, th: Thread)
    requires Stacks(threads) && t !in threads && FreeStack(threads, th.kernelStackEnd) && OwnContext(th)
    ensures Stacks(threads[t := th])
  {}

  lemma InsertProcesses(s: State, t: Tid, th: Thread, tables: set<nat>)
    requires Processes(s) && t !in s.threads && ProperThread(th, tables)
    requires tables == s.tables || (th.threadType.User? && tables == s.tables + {th.process.pageTable})
    requires 0 !in tables
    requires forall u <- s.threads.Keys :: SameProcess(s.threads[u], th) && SameProcess(th, s.threads[u])
    ensures Processes(s.(threads := s.threads[t := th], tables := tables))
  {
    var s' := s.(threads := s.threads[t := th], tables := tables);
    forall u | u in s'.threads
      ensures ProperThread(s'.threads[u], tables)
    {
      assert u != t ==> ProperThread(s.threads[u], s.tables);
    }
    forall p | p in tables
      ensures exists u :: u in s'.threads && s'.threads[u].process.pageTable == p
    {
      if p in s.tables {
        var u :| u in s.threads && s.threads[u].process.pageTable == p;
        assert u in s'.threads && s'.threads[u].process.pageTable == p;
      } else {
        assert t in s'.threads && s'.threads[t].process.pageTable == p;
      }
    }
    forall u, v | u in s'.threads && v in s'.threads
      ensures SameProcess(s'.threads[u], s'.threads[v])
    {
      assert u != t && v != t ==> SameProcess(s.threads[u], s.threads[v]);
    }
  }

  lemma InsertCore(s: State, t: Tid, th: Thread, counter: nat, tables: set<nat>)
    requires Core(s) && s.counter < t <= counter && 0 < th.process.pid <= counter
    requires FreeStack(s.threads, th.kernelStackEnd) && OwnContext(th) && ProperThread(th, tables)
    requires tables == s.tables || (th.threadType.User? && tables == s.tables + {th.process.pageTable})
    requires 0 !in tables
    requires forall u <- s.threads.Keys :: SameProcess(s.threads[u], th) && SameProcess(th, s.threads[u])
    ensures Core(s.(threads := s.threads[t := th], counter := counter, tables := tables))
  {
    InsertStacks(s.threads, t, th);
    InsertProcesses(s, t, th, tables);
  }

  // ---------------------------------------------------------------------------------------
  // The CPU
  // ---------------------------------------------------------------------------------------

  lemma SwitchInCpu(s: State)
    requires Core(s) && s.queue != [] && s.queue[0] in s.threads
    ensures CpuFor(SwitchIn(s), s.queue[0]) && NextContext(SwitchIn(s)) != 0
  {
    assert ProperThread(s.threads[s.queue[0]], s.tables);
  }

  lemma QueuedIsLive(s: State, i: nat)
    requires Placed(s) && i < |s.queue|
    ensures s.queue[i] in s.threads
  {
    CountPlus(s.queue, [], s.queue[i]);
    assert Places(s, s.queue[i]) > 0;
  }

  lemma SamePlaces(s: State, s': State)
    requires Placed(s) && s'.threads.Keys == s.threads.Keys
    requires forall t :: Places(s', t) == Places(s, t)
    ensures Placed(s')
  {}

  /** Switching in from a state without a running thread. */
  lemma SwitchInKeeps(s: State)
    requires Placed(s) && Core(s) && Wired(s) && s.running.None?
    requires s.queue == [] ==> s.crashed || FreeStack(s.threads, s.interruptStack)
    ensures Inv(SwitchIn(s))
    ensures NextContext(SwitchIn(s)) == 0 <==> s.queue == []
  {
    forall t
      ensures Places(SwitchIn(s), t) == Places(s, t)
    {
      SwitchInPlaces(s, t);
    }
    SamePlaces(s, SwitchIn(s));
    if s.queue != [] {
      QueuedIsLive(s, 0);
      SwitchInCpu(s);
    }
  }

  lemma ScheduleKeeps(s: State, context: nat)
    requires Inv(s) && !s.crashed
    requires context == InterruptContext(s.interruptStack) || context == SyscallContext(s.interruptStack)
    ensures Inv(Schedule(s, context)) && !Schedule(s, context).crashed
    ensures s.running.Some? || s.queue != [] ==> NextContext(Schedule(s, context)) != 0
  {
    var parked := Park(s, context);
    ParkCore(s, context);
    forall t
      ensures Places(parked, t) == Places(s, t)
    {
      ParkPlaces(s, context, t);
    }
    SamePlaces(s, parked);
    SwitchInKeeps(parked);
  }

  // ---------------------------------------------------------------------------------------
  // System calls
  // ---------------------------------------------------------------------------------------

  /** Saving registers touches nothing the invariant speaks of. */
  lemma SavedKeeps(s: State, at: nat, live: Regs)
    requires Inv(s)
    ensures Inv(Saved(s, at, live))
  {
    var s' := Saved(s, at, live);
    forall t
      ensures Places(s', t) == Places(s, t)
    {}
    SamePlaces(s, s');
  }

  lemma FramesCore(s: State, s': State)
    requires Core(s) && s'.threads == s.threads && s'.counter >= s.counter && s'.tables == s.tables
    ensures Core(s')
  {}

  lemma ConcludeCore(s: State, me: Tid, context: nat, j: nat, o: Outcome)
    requires Core(s) && CpuFor(s, me) && j < |s.sockets| && context == SyscallContext(s.interruptStack)
    ensures Core(Conclude(s, me, context, j, o))
    ensures CpuFor(Conclude(s, me, context, j, o), me)
    ensures Conclude(s, me, context, j, o).threads.Keys == s.threads.Keys
  {
    SetContextCore(s, me, context);
    FramesCore(SetContext(s, me, context), Conclude(s, me, context, j, o));
  }

  lemma RedistributeFacts(s: State, me: Tid, o: Outcome)
    requires s.running.None?
    ensures var r := Redistribute(s, me, o);
            && r.threads == s.threads && r.sockets == s.sockets && r.counter == s.counter
            && r.tables == s.tables && r.cr3 == s.cr3 && r.interruptStack == s.interruptStack
            && r.crashed == s.crashed && r.frames == s.frames && r.kernelTable == s.kernelTable
            && r.running == if o.first == Some(me) || o.second == Some(me) then Some(me) else None
  {}

  lemma RendezvousKeeps(s: State, me: Tid, context: nat, j: nat, op: Op)
    requires Inv(s) && !s.crashed && s.running == Some(me) && Caller(op) == Some(me)
    requires j < |s.sockets| && context == SyscallContext(s.interruptStack)
    ensures Inv(Rendezvous(s, me, context, j, op))
    ensures var o := Perform(s.sockets[j], op);
            var placed := Redistribute(Conclude(s, me, context, j, o), me, o);
            Rendezvous(s, me, context, j, op).crashed <==> placed.running.None? && placed.queue == []
  {
    var o := Perform(s.sockets[j], op);
    var done := Conclude(s, me, context, j, o);
    var placed := Redistribute(done, me, o);
    ConcludeCore(s, me, context, j, o);
    RedistributeFacts(done, me, o);
    FramesCore(done, placed);
    forall t
      ensures Places(placed, t) == Places(s, t)
    {
      ConcludedPlaces(s, me, context, j, op, t);
    }
    SamePlaces(s, placed);
    if placed.running.None? {
      LaunchKeeps(placed, context);
    }
  }

  /** Launching the next thread after the caller has blocked: a crash exactly if nobody is queued. */
  lemma LaunchKeeps(s: State, context: nat)
    requires Placed(s) && Core(s) && Wired(s) && s.running.None? && !s.crashed
    ensures Inv(Launch(Schedule(s, context)))
    ensures Launch(Schedule(s, context)).crashed <==> s.queue == []
  {
    if s.queue == [] {
      var s' := Launch(Schedule(s, context));
      assert s' == s.(crashed := true);
      forall t
        ensures Places(s', t) == Places(s, t)
      {}
    } else {
      SwitchInKeeps(s);
    }
  }

  lemma InvalidHandleKeeps(s: State, me: Tid, context: nat)
    requires Inv(s) && s.running == Some(me) && context == SyscallContext(s.interruptStack)
    ensures Inv(InvalidHandle(s, me, context))
  {
    var s' := InvalidHandle(s, me, context);
    SetContextCore(s, me, context);
    FramesCore(SetContext(s, me, context), s');
    forall t
      ensures Places(s', t) == Places(s, t)
    {}
    SamePlaces(s, s');
  }

  // ---------------------------------------------------------------------------------------
  // Threads that come and go
  // ---------------------------------------------------------------------------------------

  /** A new thread t with record th has been added to one place and nothing else moved. */
  lemma ArrivalKeeps(s: State, s': State, t: Tid, th: Thread)
    requires Placed(s) && Cpu(s) && Wired(s) && Core(s') && !s.crashed && t !in s.threads
    requires s'.threads == s.threads[t := th] && |s'.sockets| == |s.sockets| && !s'.crashed
    requires s'.running == s.running && s'.cr3 == s.cr3 && s'.interruptStack == s.interruptStack
    requires s.running.None? ==> Apart(th.kernelStackEnd, s.interruptStack)
    requires forall x :: Places(s', x) == Places(s, x) + if x == t then 1 else 0
    ensures Inv(s')
  {
    assert Placed(s');
    if s.running.Some? {
      assert CpuFor(s', s.running.value);
    } else {
      assert FreeStack(s'.threads, s'.interruptStack);
    }
  }

  lemma QuietKeeps(s: State, s': State)
    requires Inv(s) && s'.threads == s.threads && s'.counter >= s.counter && s'.tables == s.tables
    requires s'.running == s.running && s'.queue == s.queue && s'.sockets == s.sockets
    requires s'.cr3 == s.cr3 && s'.interruptStack == s.interruptStack && s'.crashed == s.crashed
    ensures Inv(s')
  {
    FramesCore(s, s');
    forall x
      ensures Places(s', x) == Places(s, x)
    {}
    SamePlaces(s, s');
  }

  lemma ChildProcess(s: State, t: Tid, th: Thread)
    requires Processes(s) && t in s.threads
    requires th.threadType == s.threads[t].threadType && th.process == s.threads[t].process
    requires th.pageTable == s.threads[t].pageTable
    ensures ProperThread(th, s.tables)
    ensures forall u <- s.threads.Keys :: SameProcess(s.threads[u], th) && SameProcess(th, s.threads[u])
  {
    assert ProperThread(s.threads[t], s.tables);
    forall u | u in s.threads
      ensures SameProcess(s.threads[u], th) && SameProcess(th, s.threads[u])
    {
      assert SameProcess(s.threads[u], s.threads[t]) && SameProcess(s.threads[t], s.threads[u]);
    }
  }

  lemma ForkKeeps(s: State, context: nat, stack: Option<nat>, kernelStack: nat)
    requires Inv(s) && !s.crashed && s.running.Some? && FreeStack(s.threads, kernelStack)
    ensures Inv(Fork(s, context, stack, kernelStack))
  {
    var s' := Fork(s, context, stack, kernelStack);
    if stack.None? {
      QuietKeeps(s, s');
    } else {
      var child := s.counter + 2;
      var me := s.threads[s.running.value];
      var th := Thread(me.threadType, me.process, me.pageTable, kernelStack, stack.value,
                       InterruptContext(kernelStack));
      ChildProcess(s, s.running.value, th);
      InsertCore(s, child, th, child, s.tables);
      FramesCore(s.(threads := s.threads[child := th], counter := child, tables := s.tables), s');
      forall x
        ensures Places(s', x) == Places(s, x) + if x == child then 1 else 0
      {
        CountPlus(s.queue, [child], x);
        CountOne(child, x);
      }
      ArrivalKeeps(s, s', child, th);
    }
  }

  lemma RemoveProcesses(s: State, t: Tid)
    requires Processes(s) && t in s.threads
    ensures var table := s.threads[t].process.pageTable;
            Processes(s.(threads := s.threads - {t},
                         tables := if Shared(s.threads, t) then s.tables else s.tables - {table}))
  {
    var table := s.threads[t].process.pageTable;
    var shared := Shared(s.threads, t);
    var s' := s.(threads := s.threads - {t}, tables := if shared then s.tables else s.tables - {table});
    forall u | u in s'.threads
      ensures ProperThread(s'.threads[u], s'.tables)
    {
      assert ProperThread(s.threads[u], s.tables);
      if !shared {
        assert s.threads[u].process.pid != s.threads[t].process.pid;
        assert SameProcess(s.threads[u], s.threads[t]);
        assert ProperThread(s.threads[t], s.tables);
      }
    }
    forall p | p in s'.tables
      ensures exists u :: u in s'.threads && s'.threads[u].process.pageTable == p
    {
      var u :| u in s.threads && s.threads[u].process.pageTable == p;
      if u == t {
        assert shared;
        var v :| v in s.threads && v != t && s.threads[v].process.pid == s.threads[t].process.pid;
        assert SameProcess(s.threads[v], s.threads[t]);
        assert v in s'.threads && s'.threads[v].process.pageTable == p;
      } else {
        assert u in s'.threads && s'.threads[u].process.pageTable == p;
      }
    }
    forall u, v | u in s'.threads && v in s'.threads
      ensures SameProcess(s'.threads[u], s'.threads[v])
    {
      assert SameProcess(s.threads[u], s.threads[v]);
    }
  }

  lemma ExitKeeps(s: State)
    requires Inv(s) && s.running.Some?
    ensures Inv(Exit(s))
  {
    var t := s.running.value;
    var off := s.(running := None);
    ExitSweepIsIdle(s);
    FramesCore(s, off);
    forall x
      ensures Places(off, x) == if x in s.threads && x != t then 1 else 0
    {
      CountOne(t, x);
      CountPlus([], [], x);
    }
    assert FreeStack(off.threads - {t}, off.interruptStack);
    DropKeeps(off, t);
  }

  lemma SpawnKernelKeeps(s: State, kernelStack: nat, handles: Handles)
    requires Inv(s) && !s.crashed && FreeStack(s.threads, kernelStack) && Apart(kernelStack, s.interruptStack)
    ensures Inv(SpawnKernel(s, kernelStack, handles))
  {
    var id := s.counter + 1;
    var th := Thread(Kernel, Process(id, 0, handles), 0, kernelStack, kernelStack + 40960,
                     InterruptContext(kernelStack));
    NewPid(s, th, id);
    InsertCore(s, id, th, id, s.tables);
    InsertPlaces(s, id, th, id, s.tables);
  }

  lemma SpawnUserKeeps(s: State, table: nat, stack: Option<nat>, kernelStack: nat, handles: Handles)
    requires Inv(s) && !s.crashed && FreeStack(s.threads, kernelStack) && Apart(kernelStack, s.interruptStack)
    requires table != 0 && table !in s.tables
    ensures Inv(SpawnUser(s, table, stack, kernelStack, handles))
  {
    if stack.None? {
      QuietKeeps(s, SpawnUser(s, table, stack, kernelStack, handles));
    } else {
      var th := Thread(User, Process(s.counter + 1, table, handles), table, kernelStack, stack.value,
                       InterruptContext(kernelStack));
      NewUserCore(s, th);
      InsertPlaces(s, s.counter + 1, th, s.counter + 2, s.tables + {table});
      assert SpawnUser(s, table, stack, kernelStack, handles) ==
             PushFront(s.(threads := s.threads[s.counter + 1 := th], counter := s.counter + 2,
                          tables := s.tables + {table}), s.counter + 1);
    }
  }

  lemma NewUserCore(s: State, th: Thread)
    requires Core(s) && FreeStack(s.threads, th.kernelStackEnd) && OwnContext(th) && th.threadType.User?
    requires th.process.pid == s.counter + 1 && th.pageTable == th.process.pageTable
    requires th.pageTable != 0 && th.pageTable !in s.tables
    ensures Core(s.(threads := s.threads[s.counter + 1 := th], counter := s.counter + 2,
                    tables := s.tables + {th.pageTable}))
  {
    NewTable(s, th.pageTable);
    NewPid(s, th, s.counter + 1);
    InsertCore(s, s.counter + 1, th, s.counter + 2, s.tables + {th.pageTable});
  }

  lemma NewTable(s: State, table: nat)
    requires Processes(s) && table != 0 && table !in s.tables
    ensures forall u <- s.threads.Keys :: s.threads[u].process.pageTable != table
  {
    forall u | u in s.threads
      ensures s.threads[u].process.pageTable != table
    {
      assert ProperThread(s.threads[u], s.tables);
    }
  }

  lemma NewPid(s: State, th: Thread, id: nat)
    requires Numbered(s) && th.process.pid == id == s.counter + 1
    requires th.threadType.User? ==>
             forall u <- s.threads.Keys :: s.threads[u].process.pageTable != th.process.pageTable
    ensures forall u <- s.threads.Keys :: SameProcess(s.threads[u], th) && SameProcess(th, s.threads[u])
  {}

  lemma InsertPlaces(s: State, t: Tid, th: Thread, counter: nat, tables: set<nat>)
    requires Inv(s) && !s.crashed && s.counter < t && Apart(th.kernelStackEnd, s.interruptStack)
    requires var s1 := s.(threads := s.threads[t := th], counter := counter, tables := tables); Core(s1)
    ensures var s1 := s.(threads := s.threads[t := th], counter := counter, tables := tables);
            Inv(PushFront(s1, t))
  {
    var s1 := s.(threads := s.threads[t := th], counter := counter, tables := tables);
    FramesCore(s1, PushFront(s1, t));
    forall x
      ensures Places(PushFront(s1, t), x) == Places(s, x) + if x == t then 1 else 0
    {
      PushFrontPlaces(s1, t, x);
      CountOne(t, x);
    }
    ArrivalKeeps(s, PushFront(s1, t), t, th);
  }

  // ---------------------------------------------------------------------------------------
  // Messages without a sender
  // ---------------------------------------------------------------------------------------

  lemma AnonymousOutcome(s: Socket, m: Message)
    ensures var o := SendMessage(s, None, m);
            && o.second == None
            && (o.first.Some? <==> Waiting(s))
            && (Waiting(s) ==> o.first == Some(s.receiver) && o.socket == Empty)
            && (!Waiting(s) ==> Held(o.socket) == Held(s) && o.results == [])
  {}

  lemma DeliverPlaces(s: State, j: nat, m: Message, t: Tid)
    requires j < |s.sockets|
    ensures Places(Deliver(s, j, m), t) + Count(Ids(SendMessage(s.sockets[j], None, m).first), t) == Places(s, t)
  {
    var o := SendMessage(s.sockets[j], None, m);
    OutcomeCounts(s.sockets[j], Send(None, m), t);
    AnonymousOutcome(s.sockets[j], m);
    ReplaceHeld(s.sockets, j, o.socket, t);
    CountPlus([], [], t);
  }

  lemma ReadyPlaces(s: State, x: Option<Tid>, t: Tid)
    ensures Places(Ready(s, x), t) == Places(s, t) + Count(Ids(x), t)
  {
    CountPlus([], [], t);
    if x.Some? {
      PushFrontPlaces(s, x.value, t);
    }
  }

  /** Threads moved between queue and sockets only. */
  lemma MovedKeeps(s: State, s': State)
    requires Inv(s) && s'.threads == s.threads && s'.counter == s.counter && s'.tables == s.tables
    requires s'.running == s.running && |s'.sockets| == |s.sockets|
    requires s'.cr3 == s.cr3 && s'.interruptStack == s.interruptStack && s'.crashed == s.crashed
    requires forall x :: Places(s', x) == Places(s, x)
    ensures Inv(s')
  {
    FramesCore(s, s');
    SamePlaces(s, s');
  }

  /** A message from no one, with the thread it wakes put in front of the queue. */
  lemma WakeKeeps(s: State, j: nat, m: Message)
    requires Inv(s) && j < |s.sockets|
    ensures Inv(Ready(Deliver(s, j, m), SendMessage(s.sockets[j], None, m).first))
  {
    var s' := Ready(Deliver(s, j, m), SendMessage(s.sockets[j], None, m).first);
    forall t
      ensures Places(s', t) == Places(s, t)
    {
      WakePlaces(s, j, m, t);
    }
    MovedKeeps(s, s');
  }

  lemma WakePlaces(s: State, j: nat, m: Message, t: Tid)
    requires j < |s.sockets|
    ensures Places(Ready(Deliver(s, j, m), SendMessage(s.sockets[j], None, m).first), t) == Places(s, t)
  {
    DeliverPlaces(s, j, m, t);
    ReadyPlaces(Deliver(s, j, m), SendMessage(s.sockets[j], None, m).first, t);
  }

  lemma KeyboardKeeps(s: State, context: nat, key: Option<Word>)
    requires Inv(s) && !s.crashed && context == InterruptContext(s.interruptStack)
    ensures Inv(KeyboardInterrupt(s, context, key)) && !KeyboardInterrupt(s, context, key).crashed
  {
    if key.Some? {
      var m := Packet(MESSAGE_TYPE_KEY, key.value, 0);
      var x := SendMessage(s.sockets[KEYBOARD_SOCKET], None, m).first;
      AnonymousOutcome(s.sockets[KEYBOARD_SOCKET], m);
      WakeKeeps(s, KEYBOARD_SOCKET, m);
      if x.Some? {
        ScheduleKeeps(Ready(Deliver(s, KEYBOARD_SOCKET, m), x), context);
      }
    }
  }

  lemma DropCore(s: State, t: Tid)
    requires Core(s) && t in s.threads
    ensures Core(Drop(s, t))
  {
    RemoveProcesses(s, t);
    assert Processes(Drop(s, t));
    assert Stacks(s.threads - {t});
  }

  lemma DropPlaced(s: State, s': State, t: Tid)
    requires s'.threads == s.threads - {t}
    requires s'.running == s.running && s'.queue == s.queue && s'.sockets == s.sockets
    requires forall x :: Places(s, x) == if x in s.threads && x != t then 1 else 0
    ensures Placed(s')
  {
    forall x
      ensures Places(s', x) == Places(s, x)
    {}
  }

  lemma DropCpu(s: State, t: Tid)
    requires s.running != Some(t)
    requires if s.running.Some? then CpuFor(s, s.running.value) && InKernelCode(s)
             else s.crashed || FreeStack(s.threads - {t}, s.interruptStack)
    ensures Cpu(Drop(s, t))
  {
    assert s.running.Some? ==> CpuFor(Drop(s, t), s.running.value);
  }

  /** Thread t, held by nobody, is dropped. */
  lemma DropKeeps(s: State, t: Tid)
    requires Core(s) && Wired(s) && t in s.threads && s.running != Some(t)
    requires forall x :: Places(s, x) == if x in s.threads && x != t then 1 else 0
    requires if s.running.Some? then CpuFor(s, s.running.value) && InKernelCode(s)
             else s.crashed || FreeStack(s.threads - {t}, s.interruptStack)
    ensures Inv(Drop(s, t))
  {
    DropCore(s, t);
    DropPlaced(s, Drop(s, t), t);
    DropCpu(s, t);
  }

  /** The message of a post has been delivered to waiting thread t, which is then in no place. */
  lemma DeliveredPlaces(s: State, j: nat, m: Message, t: Tid, x: Tid)
    requires Placed(s) && j < |s.sockets| && s.sockets[j] == Receiving(t, None)
    ensures Places(Deliver(s, j, m), x) == if x in s.threads && x != t then 1 else 0
  {
    DeliverPlaces(s, j, m, x);
    CountOne(t, x);
  }

  lemma DroppingPostKeeps(s: State, j: nat, m: Message, t: Tid)
    requires Inv(s) && InKernelCode(s) && j < |s.sockets| && s.sockets[j] == Receiving(t, None)
    ensures Inv(Drop(Deliver(s, j, m), t))
  {
    var s' := Deliver(s, j, m);
    FramesCore(s, s');
    HeldIsOff(s, j, t);
    forall x
      ensures Places(s', x) == if x in s'.threads && x != t then 1 else 0
    {
      DeliveredPlaces(s, j, m, t, x);
    }
    DropKeeps(s', t);
  }

  /** A post keeps the invariant whether or not it drops a thread. */
  lemma PostKeeps(s: State, j: nat, m: Message)
    requires Inv(s) && InKernelCode(s) && j < |s.sockets|
    ensures Inv(Post(s, j, m))
  {
    AnonymousOutcome(s.sockets[j], m);
    if Waiting(s.sockets[j]) {
      DroppingPostKeeps(s, j, m, s.sockets[j].receiver);
    } else {
      WakeKeeps(s, j, m);
    }
  }

  /** A thread that a socket holds is live and not running. */
  lemma HeldIsOff(s: State, j: nat, t: Tid)
    requires Placed(s) && j < |s.sockets| && t in Held(s.sockets[j])
    ensures t in s.threads && s.running != Some(t)
  {
    ReplaceHeld(s.sockets, j, Empty, t);
    CountPlus(Held(s.sockets[j]), [], t);
    CountOne(t, t);
    assert Places(s, t) <= 1;
  }

  /** A post keeps every thread exactly when no unrestricted receiver waits; otherwise the receiver is
      dropped, and it alone. */
  lemma PostKeepsThreadsIff(s: State, j: nat, m: Message)
    requires Placed(s) && j < |s.sockets|
    ensures Post(s, j, m).threads == s.threads <==> !Waiting(s.sockets[j])
    ensures Waiting(s.sockets[j]) ==> Post(s, j, m).threads == s.threads - {s.sockets[j].receiver}
  {
    AnonymousOutcome(s.sockets[j], m);
    if Waiting(s.sockets[j]) {
      HeldIsOff(s, j, s.sockets[j].receiver);
      assert s.sockets[j].receiver !in Post(s, j, m).threads;
    }
  }

  // ---------------------------------------------------------------------------------------
  // Every step
  // ---------------------------------------------------------------------------------------

  lemma OnSocketKeeps(s: State, me: Tid, context: nat, handle: Word, op: Op)
    requires Inv(s) && !s.crashed && s.running == Some(me) && Caller(op) == Some(me)
    requires context == SyscallContext(s.interruptStack)
    ensures Inv(OnSocket(s, me, context, handle, op))
  {
    match SocketOf(s, me, handle)
    case None => InvalidHandleKeeps(s, me, context);
    case Some(j) => RendezvousKeeps(s, me, context, j, op);
  }

  lemma YieldKeeps(s: State, context: nat)
    requires Inv(s) && !s.crashed && s.running.Some? && context == SyscallContext(s.interruptStack)
    ensures Inv(Launch(Schedule(s, context))) && !Launch(Schedule(s, context)).crashed
  {
    ScheduleKeeps(s, context);
  }

  lemma SyscallKeeps(s: State, context: nat, live: Regs, stack: Option<nat>, kernelStack: nat)
    requires Inv(s) && !s.crashed && s.running.Some? && FreeStack(s.threads, kernelStack)
    requires context == SyscallContext(s.interruptStack)
    ensures Inv(Dispatch(s, context, live, stack, kernelStack))
  {
    var me := s.running.value;
    var m := Packet(live.rdi, live.rsi, live.rdx);
    match CallOf(live.rax)
    case ForkCall => ForkKeeps(s, context, stack, kernelStack);
    case ExitCall => ExitKeeps(s);
    case ReceiveCall => OnSocketKeeps(s, me, context, live.rdi, Recv(me));
    case SendCall => OnSocketKeeps(s, me, context, HandleOf(live.rax), SendOp(live.rax, me, m));
    case SendReceiveCall => OnSocketKeeps(s, me, context, HandleOf(live.rax), SendOp(live.rax, me, m));
    case YieldCall => YieldKeeps(s, context);
    case _ =>
  }

  lemma NewSocketKeeps(s: State)
    requires Inv(s)
    ensures Inv(s.(sockets := s.sockets + [Empty]))
  {
    var s' := s.(sockets := s.sockets + [Empty]);
    forall t
      ensures Places(s', t) == Places(s, t)
    {
      AppendHeld(s.sockets, t);
    }
    FramesCore(s, s');
    SamePlaces(s, s');
  }

  lemma LoadTableKeeps(s: State, table: nat)
    requires Inv(s) && InKernelCode(s)
    ensures Inv(s.(cr3 := table))
  {
    var s' := s.(cr3 := table);
    forall t
      ensures Places(s', t) == Places(s, t)
    {}
    FramesCore(s, s');
    SamePlaces(s, s');
  }

  /** The invariant survives every step that can happen. */
  lemma StepKeeps(s: State, step: Step)
    requires Inv(s) && Enabled(s, step)
    ensures Inv(Apply(s, step))
  {
    match step
    case Timer(live) =>
      var at := InterruptContext(s.interruptStack);
      SavedKeeps(s, at, live);
      ScheduleKeeps(Saved(s, at, live), at);
    case Keyboard(live, key) =>
      var at := InterruptContext(s.interruptStack);
      SavedKeeps(s, at, live);
      KeyboardKeeps(Saved(s, at, live), at, key);
    case Syscall(live, stack, kernelStack) =>
      var at := SyscallContext(s.interruptStack);
      SavedKeeps(s, at, live);
      SyscallKeeps(Saved(s, at, live), at, live, stack, kernelStack);
    case NewKernelThread(kernelStack, handles) => SpawnKernelKeeps(s, kernelStack, handles);
    case NewUserThread(table, stack, kernelStack, handles) => SpawnUserKeeps(s, table, stack, kernelStack, handles);
    case LoadTable(table) => LoadTableKeeps(s, table);
    case NewSocket => NewSocketKeeps(s);
    case PostMessage(j, m) => PostKeeps(s, j, m);
  }

  lemma BootInv(kernelTable: nat, bootStack: nat)
    requires bootStack >= KERNEL_STACK_SIZE
    ensures Inv(Boot(kernelTable, bootStack))
  {
    var s := Boot(kernelTable, bootStack);
    forall t
      ensures Places(s, t) == 0
    {
      CountPlus([], [], t);
      AppendHeld([], t);
      assert [] + [Empty] == [Empty];
    }
  }
}
