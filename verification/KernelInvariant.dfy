/**
 What every step of the kernel keeps: every thread is in exactly one place, saved contexts lie on
 their own kernel stacks, and the CPU agrees with the running thread.
 */
module KernelInvariant {
  import opened Options
  import opened Threads
  import opened Sockets
  import opened KernelState

  // ---------------------------------------------------------------------------------------
  // Places
  // ---------------------------------------------------------------------------------------

  function Count(xs: seq<Tid>, t: Tid): nat
  {
    multiset(xs)[t]
  }

  lemma CountPlus(a: seq<Tid>, b: seq<Tid>, t: Tid)
    ensures Count(a + b, t) == Count(a, t) + Count(b, t)
    ensures Count([], t) == 0
    ensures Count(a, t) > 0 <==> t in a
  {}

  lemma CountOne(x: Tid, t: Tid)
    ensures Count([x], t) == if x == t then 1 else 0
  {}

  /** How often sockets hold t. */
  function HeldCount(sockets: seq<Socket>, t: Tid): nat
  {
    if sockets == [] then 0
    else HeldCount(sockets[..|sockets| - 1], t) + Count(Held(sockets[|sockets| - 1]), t)
  }

  /** In how many places t is: the running slot, the queue, the sockets. */
  function Places(s: State, t: Tid): nat
  {
    Count(Ids(s.running), t) + Count(s.queue, t) + HeldCount(s.sockets, t)
  }

  /** Each live thread is in exactly one place, and no other thread is anywhere. */
  ghost predicate Placed(s: State)
  {
    forall t :: Places(s, t) == if t in s.threads then 1 else 0
  }

  // ---------------------------------------------------------------------------------------
  // The invariant
  // ---------------------------------------------------------------------------------------

  ghost predicate Numbered(s: State)
  {
    forall t <- s.threads.Keys :: 0 < t <= s.counter && 0 < s.threads[t].process.pid <= s.counter
  }

  predicate Apart(a: nat, b: nat)
  {
    a + KERNEL_STACK_SIZE <= b || b + KERNEL_STACK_SIZE <= a
  }

  /** The saved context is where an interrupt or a system call on the thread's own kernel stack puts it. */
  predicate OwnContext(t: Thread)
  {
    t.context == InterruptContext(t.kernelStackEnd) || t.context == SyscallContext(t.kernelStackEnd)
  }

  ghost predicate Stacks(threads: map<Tid, Thread>)
  {
    && (forall t <- threads.Keys :: threads[t].kernelStackEnd >= KERNEL_STACK_SIZE && OwnContext(threads[t]))
    && (forall t, u :: t in threads && u in threads && t != u ==>
          Apart(threads[t].kernelStackEnd, threads[u].kernelStackEnd))
  }

  /** No live thread's kernel stack overlaps the one that ends at e. */
  ghost predicate FreeStack(threads: map<Tid, Thread>, e: nat)
  {
    e >= KERNEL_STACK_SIZE && forall t <- threads.Keys :: Apart(e, threads[t].kernelStackEnd)
  }

  /** A user thread's recorded page table is its process's, which has not been freed; a kernel
      thread's process has none. Processes are told apart by pid and by page table. */
  ghost predicate Processes(s: State)
  {
    && (forall t <- s.threads.Keys :: ProperThread(s.threads[t], s.tables))
    && (forall t, u :: t in s.threads && u in s.threads ==> SameProcess(s.threads[t], s.threads[u]))
    && (forall p <- s.tables :: exists t :: t in s.threads && s.threads[t].process.pageTable == p)
    && 0 !in s.tables
  }

  predicate ProperThread(t: Thread, tables: set<nat>)
  {
    if t.threadType.User? then t.process.pageTable in tables && t.pageTable == t.process.pageTable
    else t.process.pageTable == 0
  }

  predicate SameProcess(t: Thread, u: Thread)
  {
    if t.process.pid == u.process.pid then t.process == u.process && t.threadType == u.threadType
    else t.threadType.User? && u.threadType.User? ==> t.process.pageTable != u.process.pageTable
  }

  /** The CPU is set up for thread t: the interrupt stack is t's own kernel stack and, for a user
      thread, the active page table is its process's. */
  ghost predicate CpuFor(s: State, t: Tid)
  {
    && t in s.threads
    && s.interruptStack == s.threads[t].kernelStackEnd
    && (s.threads[t].threadType.User? ==> s.cr3 == s.threads[t].process.pageTable)
  }

  ghost predicate Cpu(s: State)
  {
    match s.running
    case Some(t) => CpuFor(s, t)
    case None => s.crashed || FreeStack(s.threads, s.interruptStack)
  }

  ghost predicate Wired(s: State)
  {
    |s.sockets| > KEYBOARD_SOCKET
  }

  ghost predicate Inv(s: State)
  {
    Placed(s) && Numbered(s) && Stacks(s.threads) && Processes(s) && Cpu(s) && Wired(s)
  }

  /** Kernel code is running: the boot code or a kernel thread. */
  ghost predicate InKernelCode(s: State)
  {
    s.running.Some? ==> ThreadAt(s.threads, s.running.value).threadType.Kernel?
  }

  /** When a step can happen. Only the running thread makes system calls; new kernel stacks do not
      overlap existing ones; new page tables are fresh frames. */
  ghost predicate Enabled(s: State, step: Step)
  {
    && !s.crashed
    && match step
       case Timer(_) => true
       case Keyboard(_, _) => true
       case Syscall(_, _, kernelStack) =>
         s.running.Some? && FreeStack(s.threads, kernelStack)
       case NewKernelThread(kernelStack, _) =>
         InKernelCode(s) && FreeStack(s.threads, kernelStack) && Apart(kernelStack, s.interruptStack)
       case NewUserThread(table, _, kernelStack, _) =>
         InKernelCode(s) && FreeStack(s.threads, kernelStack) && Apart(kernelStack, s.interruptStack) &&
         table != 0 && table !in s.tables
       case LoadTable(_) => InKernelCode(s)
       case NewSocket => InKernelCode(s)
       case PostMessage(j, _) => InKernelCode(s) && j < |s.sockets|
  }

  /** A receiver waits for a message from anyone. */
  predicate Waiting(s: Socket)
  {
    s.Receiving? && s.only.None?
  }

  // ---------------------------------------------------------------------------------------
  // Places: how each move keeps the roster
  // ---------------------------------------------------------------------------------------

  lemma {:induction false} ReplaceHeld(sockets: seq<Socket>, j: nat, x: Socket, t: Tid)
    requires j < |sockets|
    ensures HeldCount(sockets[j := x], t) + Count(Held(sockets[j]), t) == HeldCount(sockets, t) + Count(Held(x), t)
    decreases |sockets|
  {
    var n := |sockets| - 1;
    if j == n {
      assert sockets[j := x][..n] == sockets[..n];
    } else {
      assert sockets[j := x][..n] == sockets[..n][j := x];
      ReplaceHeld(sockets[..n], j, x, t);
    }
  }

  lemma AppendHeld(sockets: seq<Socket>, t: Tid)
    ensures HeldCount(sockets + [Empty], t) == HeldCount(sockets, t)
  {
    assert (sockets + [Empty])[..|sockets + [Empty]| - 1] == sockets;
  }

  lemma ParkPlaces(s: State, context: nat, t: Tid)
    ensures Places(Park(s, context), t) == Places(s, t)
  {
    if s.running.Some? {
      CountPlus(s.queue, [s.running.value], t);
      CountPlus([], [], t);
    }
  }

  lemma SwitchInPlaces(s: State, t: Tid)
    requires s.running.None?
    ensures Places(SwitchIn(s), t) == Places(s, t)
  {
    CountPlus([], [], t);
    if s.queue != [] {
      assert s.queue == [s.queue[0]] + s.queue[1..];
      CountPlus([s.queue[0]], s.queue[1..], t);
    }
  }

  lemma PushFrontPlaces(s: State, x: Tid, t: Tid)
    ensures Places(PushFront(s, x), t) == Places(s, t) + Count([x], t)
  {
    CountPlus([x], s.queue, t);
  }

  lemma PlacePlaces(s: State, current: Tid, x: Option<Tid>, t: Tid)
    ensures Places(Place(s, current, x), t) == Places(s, t) + Count(Ids(x), t)
  {
    CountPlus([], [], t);
    if x.Some? {
      PushFrontPlaces(s, x.value, t);
      CountPlus(Ids(s.running), s.queue, t);
    }
  }
}
