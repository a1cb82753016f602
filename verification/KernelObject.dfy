/**
 The kernel's global variables as an object, and the code of its system calls and interrupt handlers
 as methods on it. Each method does to the object what the transition system says of the step.
 */
module KernelObject {
  import opened Options
  import opened Threads
  import opened Sockets
  import opened KernelState
  import KernelInvariant
  import KernelIpc

  ghost function States(cells: seq<SocketCell>): (r: seq<Socket>)
    reads cells
    ensures |r| == |cells| && forall i :: 0 <= i < |cells| ==> r[i] == cells[i].state
  {
    if cells == [] then [] else States(cells[..|cells| - 1]) + [cells[|cells| - 1].state]
  }

  ghost predicate Goes(states: seq<State>, steps: seq<Step>, k: nat)
    requires k < |steps| && k + 1 < |states|
  {
    states[k + 1] == Apply(states[k], steps[k])
  }

  /** The states of the first n steps, one step after the other. */
  ghost predicate Trace(states: seq<State>, steps: seq<Step>, n: nat)
  {
    |states| == n + 1 && n <= |steps| && forall k :: 0 <= k < n ==> Goes(states, steps, k)
  }

  lemma TraceMore(states: seq<State>, steps: seq<Step>, n: nat, s: State)
    requires Trace(states, steps, n) && n < |steps| && s == Apply(states[n], steps[n])
    ensures Trace(states + [s], steps, n + 1)
  {
    forall k | 0 <= k < n + 1
      ensures Goes(states + [s], steps, k)
    {
      assert k < n ==> Goes(states, steps, k);
    }
  }

  /** So if every step could happen, the trace is a run that the theorems over runs speak of. */
  lemma TraceIsRun(states: seq<State>, steps: seq<Step>)
    requires Trace(states, steps, |steps|) && KernelInvariant.Inv(states[0])
    requires forall k :: 0 <= k < |steps| ==> KernelInvariant.Enabled(states[k], steps[k])
    ensures KernelIpc.KernelRun(states, steps)
  {
    forall k | 0 <= k < |steps|
      ensures KernelIpc.StepAt(states, steps, k)
    {
      assert Goes(states, steps, k);
    }
  }

  class Kernel {
    var running: Option<Tid>
    var queue: seq<Tid>
    var sockets: seq<SocketCell>
    var heap: ThreadHeap
    var counter: nat
    var cr3: nat
    var kernelTable: nat
    var interruptStack: nat
    var tables: set<nat>
    var crashed: bool

    ghost predicate Valid()
      reads this
    {
      forall i, j :: 0 <= i < j < |sockets| ==> sockets[i] != sockets[j]
    }

    ghost function View(): State
      reads this, heap, sockets
    {
      State(running, queue, States(sockets), heap.threads, heap.frames, counter, cr3, kernelTable, interruptStack,
            tables, crashed)
    }

    constructor (table: nat, bootStack: nat)
      ensures Valid() && fresh(heap) && fresh(sockets) && View() == Boot(table, bootStack)
    {
      var cell := new SocketCell();
      heap := new ThreadHeap();
      running, queue, sockets, counter := None, [], [cell], 0;
      cr3, kernelTable, interruptStack, tables, crashed := table, table, bootStack, {}, false;
    }

    // -------------------------------------------------------------------------------------
    // The scheduler
    // -------------------------------------------------------------------------------------

    method ScheduleThread(t: Tid)
      requires Valid()
      modifies this`queue
      ensures Valid() && View() == PushFront(old(View()), t)
    {
      queue := [t] + queue;
    }

    method SetCurrentThread(t: Tid)
      requires Valid()
      modifies this`queue, this`running
      ensures Valid() && View() == SetCurrent(old(View()), t)
    {
      var previous := running;
      running := Some(t);
      if previous.Some? {
        ScheduleThread(previous.value);
      } else {
        assert [] + queue == queue;
      }
    }

    method UpdateCurrentThread(context: nat)
      requires Valid()
      modifies this`queue, this`running, heap`threads
      ensures Valid() && View() == Park(old(View()), context)
    {
      if running.Some? {
        var t := running.value;
        running := None;
        heap.threads := heap.threads[t := ThreadAt(heap.threads, t).(context := context, pageTable := cr3)];
        queue := queue + [t];
      }
    }

    /** Sets the interrupt stack and the page table for a thread that is to run. */
    method PrepareCpu(thread: Thread)
      requires Valid()
      modifies this`cr3, this`interruptStack
      ensures Valid()
      ensures View() == old(View()).(interruptStack := thread.kernelStackEnd,
                                     cr3 := if thread.pageTable != 0 then thread.pageTable else old(cr3))
    {
      interruptStack := thread.kernelStackEnd;
      if thread.pageTable != 0 {
        cr3 := thread.pageTable;
      }
    }

    /** Pops the next thread and prepares the CPU for it. */
    method RunNext() returns (next: nat)
      requires Valid()
      modifies this`queue, this`running, this`cr3, this`interruptStack
      ensures Valid() && View() == SwitchIn(old(View())) && next == NextContext(View())
    {
      if queue == [] {
        running := None;
        return 0;
      }
      running, queue := Some(queue[0]), queue[1..];
      var thread := ThreadAt(heap.threads, running.value);
      PrepareCpu(thread);
      next := thread.context;
    }

    method Reschedule(context: nat) returns (next: nat)
      requires Valid()
      modifies this`queue, this`running, this`cr3, this`interruptStack, heap`threads
      ensures Valid() && View() == Schedule(old(View()), context) && next == NextContext(View())
    {
      UpdateCurrentThread(context);
      next := RunNext();
    }

    method LaunchThread(context: nat)
      requires Valid() && context == NextContext(View())
      modifies this`crashed
      ensures Valid() && View() == Launch(old(View()))
    {
      if context == 0 {
        crashed := true;
      }
    }

    // -------------------------------------------------------------------------------------
    // System calls
    // -------------------------------------------------------------------------------------

    /** The loop over the threads a socket handed back, and what follows it. */
    method Resume(current: Tid, first: Option<Tid>, second: Option<Tid>, context: nat, ghost o: Outcome)
      requires Valid() && o.first == first && o.second == second
      modifies this`queue, this`running, this`cr3, this`interruptStack, this`crashed, heap`threads
      ensures Valid() && View() == AfterRendezvous(old(View()), current, o, context)
    {
      var returning := false;
      var threads := [second, first];
      ghost var start := View();
      var i := 0;
      while i < 2
        invariant 0 <= i <= 2 && Valid()
        invariant sockets == old(sockets) && heap == old(heap)
        invariant View() == if i == 0 then start else if i == 1 then Place(start, current, second)
                            else Redistribute(start, current, o)
        invariant returning <==> Some(current) in threads[..i]
      {
        if threads[i].Some? {
          if threads[i].value == current {
            SetCurrentThread(threads[i].value);
            returning := true;
          } else {
            ScheduleThread(threads[i].value);
          }
        }
        assert threads[..i + 1] == threads[..i] + [threads[i]];
        i := i + 1;
      }
      assert threads[..2] == threads;
      if !returning {
        var next := Reschedule(context);
        LaunchThread(next);
      }
    }

    /** The socket that the handle names in thread t's process. */
    method FindSocket(t: Tid, handle: Word) returns (j: Option<nat>)
      requires Valid()
      ensures j == SocketOf(View(), t, handle)
    {
      j := Lookup(ThreadAt(heap.threads, t).process.handles, handle, |sockets|);
    }

    /** Takes the running thread off the CPU, recording where its registers were saved. */
    method TakeCurrentThread(t: Tid, context: nat)
      requires Valid() && running == Some(t)
      modifies this`running, heap`threads
      ensures Valid() && View() == SetContext(old(View()).(running := None), t, context)
    {
      running := None;
      heap.threads := heap.threads[t := ThreadAt(heap.threads, t).(context := context)];
    }

    method RefuseHandle(t: Tid)
      requires Valid() && running.None?
      modifies this`running, this`queue, heap
      ensures Valid()
      ensures View() == old(View()).(running := Some(t),
                                     frames := WriteResult(old(heap.frames), heap.threads,
                                                           Code(t, ERROR_INVALID_HANDLE)))
    {
      heap.ReturnError(t, ERROR_INVALID_HANDLE);
      SetCurrentThread(t);
    }

    /** One operation on socket j. */
    method Operate(j: nat, op: Op) returns (first: Option<Tid>, second: Option<Tid>)
      requires Valid() && j < |sockets|
      modifies sockets[j], heap
      ensures Valid() && heap.threads == old(heap.threads)
      ensures var o := Perform(old(View()).sockets[j], op);
              && first == o.first && second == o.second
              && View() == old(View()).(sockets := old(View()).sockets[j := o.socket],
                                        frames := WriteResults(old(heap.frames), heap.threads, o.results))
    {
      match op
      case Send(t, m) => first, second := sockets[j].Send(heap, t, m);
      case Recv(t) => first, second := sockets[j].Recv(heap, t);
      case SendRecv(t, m) => first, second := sockets[j].SendRecv(heap, t, m);
      assert States(sockets) == old(States(sockets))[j := sockets[j].state];
    }

    /** Thread t, already off the CPU, operates on socket j; whoever is handed back goes on. */
    method Meet(t: Tid, context: nat, j: nat, op: Op, ghost before: State)
      requires Valid() && j < |sockets| == |before.sockets|
      requires View() == SetContext(before.(running := None), t, context)
      modifies this, heap, sockets
      ensures Valid() && sockets == old(sockets) && heap == old(heap)
      ensures View() == Rendezvous(before, t, context, j, op)
    {
      ghost var o := Perform(before.sockets[j], op);
      var first, second := Operate(j, op);
      assert View() == Conclude(before, t, context, j, o);
      Resume(t, first, second, context, o);
    }

    /** What receiving and sending have in common: take the running thread, find the socket, operate
        on it, and let whoever it handed back go on. */
    method CallSocket(t: Tid, context: nat, handle: Word, op: Op)
      requires Valid() && running == Some(t)
      modifies this, heap, sockets
      ensures Valid() && sockets == old(sockets) && heap == old(heap)
      ensures View() == OnSocket(old(View()), t, context, handle, op)
    {
      ghost var before := View();
      TakeCurrentThread(t, context);
      var j := FindSocket(t, handle);
      if j.Some? {
        Meet(t, context, j.value, op, before);
      } else {
        RefuseHandle(t);
      }
    }

    method SysReceive(context: nat, handle: Word)
      requires Valid()
      modifies this, heap, sockets
      ensures Valid() && sockets == old(sockets) && heap == old(heap)
      ensures View() == KernelState.SysReceive(old(View()), context, handle)
    {
      if running.Some? {
        CallSocket(running.value, context, handle, Recv(running.value));
      }
    }

    method SysSend(context: nat, call: Word, m: Message)
      requires Valid()
      modifies this, heap, sockets
      ensures Valid() && sockets == old(sockets) && heap == old(heap)
      ensures View() == KernelState.SysSend(old(View()), context, call, m)
    {
      if running.Some? {
        var t := running.value;
        var op := if CallOf(call).SendReceiveCall? then SendRecv(t, m) else Send(Some(t), m);
        CallSocket(t, context, HandleOf(call), op);
      }
    }

    method SysYield(context: nat)
      requires Valid()
      modifies this, heap
      ensures Valid() && sockets == old(sockets) && heap == old(heap)
      ensures View() == Launch(Schedule(old(View()), context))
    {
      var next := Reschedule(context);
      LaunchThread(next);
    }

    method UniqueId() returns (id: nat)
      requires Valid()
      modifies this`counter
      ensures Valid() && id == old(counter) + 1 && View() == old(View()).(counter := id)
    {
      counter := counter + 1;
      id := counter;
    }

    /** Writes the two contexts of a fork and queues the child. */
    method StartChild(child: Tid, thread: Thread, context: nat, regs: Regs)
      requires Valid()
      modifies this`queue, heap
      ensures Valid()
      ensures View() == old(View()).(queue := old(queue) + [child], threads := old(heap.threads)[child := thread],
                                     frames := old(heap.frames)
                                       [thread.context := regs.(rsp := AsWord(thread.userStackEnd), rax := 0, rdi := 0)]
                                       [context := regs.(rax := 0, rdi := AsWord(child))])
    {
      var own, copy := regs, regs;
      copy := copy.(rsp := AsWord(thread.userStackEnd));
      copy := copy.(rax := 0, rdi := 0);
      own := own.(rax := 0, rdi := AsWord(child));
      heap.threads := heap.threads[child := thread];
      heap.frames := heap.frames[thread.context := copy];
      heap.frames := heap.frames[context := own];
      queue := queue + [child];
    }

    /** `stack` is what looking for a user stack found; the search draws a unique number. */
    method ForkCurrentThread(context: nat, stack: Option<nat>, kernelStack: nat)
      requires Valid()
      modifies this`queue, this`counter, heap
      ensures Valid() && View() == Fork(old(View()), context, stack, kernelStack)
    {
      if running.None? {
        SetResult(context, 2);
        return;
      }
      var regs := RegsAt(heap.frames, context);
      var me := ThreadAt(heap.threads, running.value);
      var search := UniqueId();
      if stack.None? {
        SetResult(context, ERROR_MEMALLOC);
      } else {
        var child := UniqueId();
        var thread := Thread(me.threadType, me.process, me.pageTable, kernelStack, stack.value,
                             InterruptContext(kernelStack));
        StartChild(child, thread, context, regs);
      }
    }

    method SetResult(context: nat, code: Word)
      requires Valid()
      modifies heap`frames
      ensures Valid()
      ensures var regs := RegsAt(old(heap.frames), context);
              View() == old(View()).(frames := old(heap.frames)[context := regs.(rax := code)])
    {
      heap.frames := heap.frames[context := RegsAt(heap.frames, context).(rax := code)];
    }

    /** Keeps the queued threads other than t, in order. */
    method Retain(t: Tid)
      requires Valid()
      modifies this`queue
      ensures Valid() && View() == old(View()).(queue := Without(old(queue), t))
    {
      var kept, i := [], 0;
      while i < |queue|
        invariant 0 <= i <= |queue| && kept + Without(queue[i..], t) == Without(queue, t)
      {
        assert queue[i..] == [queue[i]] + queue[i + 1..];
        assert queue[i..][1..] == queue[i + 1..];
        if queue[i] != t {
          assert kept + ([queue[i]] + Without(queue[i + 1..], t)) == kept + [queue[i]] + Without(queue[i + 1..], t);
          kept := kept + [queue[i]];
        }
        i := i + 1;
      }
      assert queue[i..] == [];
      queue := kept;
    }

    method DropProcess(table: nat)
      requires Valid()
      modifies this`cr3, this`tables
      ensures Valid()
      ensures View() == old(View()).(tables := old(tables) - {table}, cr3 := if old(cr3) == table then
              kernelTable else old(cr3))
    {
      if table == cr3 {
        cr3 := kernelTable;
      }
      tables := tables - {table};
    }

    /** Dropping a thread drops its process with the last reference to it. */
    method DropThread(t: Tid)
      requires Valid()
      modifies this`cr3, this`tables, heap`threads
      ensures Valid() && View() == Drop(old(View()), t)
    {
      var table := ThreadAt(heap.threads, t).process.pageTable;
      var shared := Shared(heap.threads, t);
      heap.threads := heap.threads - {t};
      if !shared {
        DropProcess(table);
      }
    }

    /** Takes the running thread off the CPU and lets go of it. */
    method ExitCurrentThread()
      requires Valid()
      modifies this, heap`threads
      ensures Valid() && sockets == old(sockets) && heap == old(heap)
      ensures View() == Exit(old(View()))
    {
      if running.None? {
        return;
      }
      var t := running.value;
      running := None;
      Retain(t);
      DropThread(t);
    }

    method DispatchSyscall(context: nat, live: Regs, stack: Option<nat>, kernelStack: nat)
      requires Valid()
      modifies this, heap, sockets
      ensures Valid() && sockets == old(sockets) && heap == old(heap)
      ensures View() == Dispatch(old(View()), context, live, stack, kernelStack)
    {
      match CallOf(live.rax)
      case ForkCall => ForkCurrentThread(context, stack, kernelStack);
      case ExitCall => ExitCurrentThread();
      case ReceiveCall => SysReceive(context, live.rdi);
      case SendCall => SysSend(context, live.rax, Packet(live.rdi, live.rsi, live.rdx));
      case SendReceiveCall => SysSend(context, live.rax, Packet(live.rdi, live.rsi, live.rdx));
      case YieldCall => SysYield(context);
      case WriteCall =>
      case UnknownCall =>
    }

    // -------------------------------------------------------------------------------------
    // Interrupts and kernel code
    // -------------------------------------------------------------------------------------

    method TimerHandler(context: nat) returns (next: nat)
      requires Valid()
      modifies this, heap
      ensures Valid() && sockets == old(sockets) && heap == old(heap)
      ensures View() == TimerInterrupt(old(View()), context) && next == NextContext(View())
    {
      next := Reschedule(context);
    }

    method Wake(t: Option<Tid>)
      requires Valid()
      modifies this`queue
      ensures Valid() && View() == Ready(old(View()), t)
    {
      if t.Some? {
        ScheduleThread(t.value);
      }
    }

    /** Sends the key on the keyboard socket and readies whoever was waiting for it. */
    method PressKey(m: Message) returns (returning: bool)
      requires Valid() && |sockets| > KEYBOARD_SOCKET
      modifies this`queue, heap, sockets
      ensures Valid()
      ensures returning <==> !KernelInvariant.Waiting(old(sockets[KEYBOARD_SOCKET].state))
      ensures var o := SendMessage(old(View()).sockets[KEYBOARD_SOCKET], None, m);
              && View() == Ready(Ready(Deliver(old(View()), KEYBOARD_SOCKET, m), o.second), o.first)
              && (returning <==> o.first.None?)
    {
      var first, second := Operate(KEYBOARD_SOCKET, Send(None, m));
      Wake(second);
      Wake(first);
      returning := first.None?;
    }

    method KeyboardHandler(context: nat, key: Option<Word>) returns (next: nat)
      requires Valid()
      modifies this, heap, sockets
      ensures Valid() && sockets == old(sockets) && heap == old(heap)
      ensures View() == KeyboardInterrupt(old(View()), context, key)
      ensures next == if key.Some? && |old(sockets)| > KEYBOARD_SOCKET &&
                         KernelInvariant.Waiting(old(sockets[KEYBOARD_SOCKET].state))
                      then NextContext(View()) else context
    {
      var returning := true;
      if key.Some? && |sockets| > KEYBOARD_SOCKET {
        returning := PressKey(Packet(MESSAGE_TYPE_KEY, key.value, 0));
      }
      if returning {
        next := context;
      } else {
        next := Reschedule(context);
      }
    }

    method Enter(id: Tid, thread: Thread)
      requires Valid()
      modifies this`queue, heap`threads
      ensures Valid() && View() == PushFront(old(View()).(threads := old(heap.threads)[id := thread]), id)
    {
      heap.threads := heap.threads[id := thread];
      ScheduleThread(id);
    }

    method SpawnKernelThread(kernelStack: nat, handles: Handles) returns (id: Tid)
      requires Valid()
      modifies this, heap
      ensures Valid() && sockets == old(sockets) && heap == old(heap)
      ensures View() == SpawnKernel(old(View()), kernelStack, handles) && id == old(counter) + 1
    {
      id := UniqueId();
      var thread := Thread(Kernel, Process(id, 0, handles), 0, kernelStack, kernelStack + 40960,
                           InterruptContext(kernelStack));
      Enter(id, thread);
    }

    method AddTable(table: nat)
      requires Valid()
      modifies this`tables
      ensures Valid() && View() == old(View()).(tables := old(tables) + {table})
    {
      tables := tables + {table};
    }

    method SpawnUserThread(table: nat, stack: Option<nat>, kernelStack: nat, handles: Handles) returns (id: Option<Tid>)
      requires Valid()
      modifies this, heap
      ensures Valid() && sockets == old(sockets) && heap == old(heap)
      ensures View() == SpawnUser(old(View()), table, stack, kernelStack, handles)
      ensures id == if stack.None? then None else Some(old(counter) + 1)
    {
      var tid := UniqueId();
      var search := UniqueId();
      if stack.None? {
        return None;
      }
      var thread := Thread(User, Process(tid, table, handles), table, kernelStack, stack.value,
                           InterruptContext(kernelStack));
      AddTable(table);
      Enter(tid, thread);
      return Some(tid);
    }

    method PostMessage(j: nat, m: Message)
      requires Valid() && j < |sockets|
      modifies this, heap, sockets
      ensures Valid() && sockets == old(sockets) && heap == old(heap)
      ensures View() == Post(old(View()), j, m)
    {
      var first, second := Operate(j, Send(None, m));
      if first.Some? {
        DropThread(first.value);
      }
    }

    method AddSocket()
      requires Valid()
      modifies this`sockets
      ensures Valid() && View() == old(View()).(sockets := old(View()).sockets + [Empty])
      ensures fresh(sockets[|sockets| - 1]) && sockets == old(sockets) + [sockets[|sockets| - 1]]
    {
      var cell := new SocketCell();
      ghost var before := sockets;
      sockets := sockets + [cell];
      assert sockets[..|sockets| - 1] == before;
    }

    // -------------------------------------------------------------------------------------
    // Steps
    // -------------------------------------------------------------------------------------

    /** The entry code of a handler pushes the registers. */
    method SaveRegisters(at: nat, live: Regs)
      requires Valid()
      modifies heap`frames
      ensures Valid() && View() == Saved(old(View()), at, live)
    {
      heap.frames := heap.frames[at := live];
    }

    method ActivateTable(table: nat)
      requires Valid()
      modifies this`cr3
      ensures Valid() && View() == old(View()).(cr3 := table)
    {
      cr3 := table;
    }

    method OnInterrupt(step: Step)
      requires Valid() && (step.Timer? || step.Keyboard?)
      modifies this, heap, sockets
      ensures Valid() && sockets == old(sockets) && heap == old(heap)
      ensures View() == Apply(old(View()), step)
    {
      var at := InterruptContext(interruptStack);
      SaveRegisters(at, step.live);
      var next;
      match step
      case Timer(_) => next := TimerHandler(at);
      case Keyboard(_, key) => next := KeyboardHandler(at, key);
    }

    method OnSyscall(live: Regs, stack: Option<nat>, kernelStack: nat)
      requires Valid()
      modifies this, heap, sockets
      ensures Valid() && sockets == old(sockets) && heap == old(heap)
      ensures View() == Apply(old(View()), Syscall(live, stack, kernelStack))
    {
      var at := SyscallContext(interruptStack);
      SaveRegisters(at, live);
      DispatchSyscall(at, live, stack, kernelStack);
    }

    method OnCreation(step: Step)
      requires Valid() && (step.NewKernelThread? || step.NewUserThread?)
      modifies this, heap, sockets
      ensures Valid() && sockets == old(sockets) && heap == old(heap)
      ensures View() == Apply(old(View()), step)
    {
      match step
      case NewKernelThread(kernelStack, handles) =>
        var id := SpawnKernelThread(kernelStack, handles);
      case NewUserThread(table, stack, kernelStack, handles) =>
        var id := SpawnUserThread(table, stack, kernelStack, handles);
    }

    /** Whatever step comes, the object does what the transition system does. */
    method Step(step: Step)
      requires Valid()
      modifies this, heap, sockets
      ensures Valid() && heap == old(heap)
      ensures forall i :: 0 <= i < |sockets| ==> sockets[i] in old(sockets) || fresh(sockets[i])
      ensures View() == Apply(old(View()), step)
    {
      match step
      case Timer(_) => OnInterrupt(step);
      case Keyboard(_, _) => OnInterrupt(step);
      case Syscall(live, stack, kernelStack) => OnSyscall(live, stack, kernelStack);
      case NewKernelThread(_, _) => OnCreation(step);
      case NewUserThread(_, _, _, _) => OnCreation(step);
      case LoadTable(table) => ActivateTable(table);
      case NewSocket => AddSocket();
      case PostMessage(j, m) =>
        if j < |sockets| {
          PostMessage(j, m);
        }
    }

    /** Carrying out a list of steps is a run of the transition system. */
    method Execute(steps: seq<Step>) returns (ghost states: seq<State>)
      requires Valid()
      modifies this, heap, sockets
      ensures Valid()
      ensures Trace(states, steps, |steps|) && states[0] == old(View()) && states[|steps|] == View()
    {
      states := [View()];
      for i := 0 to |steps|
        invariant Valid() && heap == old(heap)
        invariant forall j :: 0 <= j < |sockets| ==> sockets[j] in old(sockets) || fresh(sockets[j])
        invariant Trace(states, steps, i) && states[0] == old(View()) && states[i] == View()
      {
        Step(steps[i]);
        TraceMore(states, steps, i, View());
        states := states + [View()];
      }
    }
  }
}
