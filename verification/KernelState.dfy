/**
 The kernel as a transition system. One step is one system call, one interrupt, or one action of
 kernel code; each is atomic because interrupts are masked while it runs. The state is the running
 slot, the wait queue, the sockets, the thread heap, and the two CPU registers a switch writes: the
 page-table base and the interrupt-stack entry.
 */
module KernelState {
  import opened Options
  import opened Threads
  import opened Sockets

  const CONTEXT_SIZE: nat := 160
  const SYSCALL_STACK_OFFSET: nat := 1024
  const KERNEL_STACK_SIZE: nat := 12288
  const KEYBOARD_SOCKET: nat := 0
  const MESSAGE_TYPE_KEY: Word := 0
  const ERROR_INVALID_HANDLE: Word := 3
  const ERROR_MEMALLOC: Word := 9

  datatype State = State(
    running: Option<Tid>,
    queue: seq<Tid>,
    sockets: seq<Socket>,
    threads: map<Tid, Thread>,
    frames: Contexts,
    counter: nat,
    cr3: nat,
    kernelTable: nat,
    interruptStack: nat,
    tables: set<nat>,   // page tables of processes that have not been freed
    crashed: bool)      // a system call launched context 0

  /** Before any thread exists: only the keyboard socket, and boot code running. */
  function Boot(kernelTable: nat, bootStack: nat): State
  {
    State(None, [], [Empty], map[], map[], 0, kernelTable, kernelTable, bootStack, {}, false)
  }

  const NO_THREAD: Thread := Thread(Kernel, Process(0, 0, map[]), 0, 0, 0, 0)

  function ThreadAt(threads: map<Tid, Thread>, t: Tid): Thread
  {
    if t in threads then threads[t] else NO_THREAD
  }

  function InterruptContext(stackEnd: nat): nat
  {
    if stackEnd >= CONTEXT_SIZE then stackEnd - CONTEXT_SIZE else 0
  }

  function SyscallContext(stackEnd: nat): nat
  {
    if stackEnd >= SYSCALL_STACK_OFFSET + CONTEXT_SIZE then stackEnd - SYSCALL_STACK_OFFSET - CONTEXT_SIZE else 0
  }

  // ---------------------------------------------------------------------------------------
  // Scheduling
  // ---------------------------------------------------------------------------------------

  function PushFront(s: State, t: Tid): State
  {
    s.(queue := [t] + s.queue)
  }

  /** Replaces the running thread; a thread found in the slot goes back to the queue. */
  function SetCurrent(s: State, t: Tid): State
  {
    s.(running := Some(t), queue := Ids(s.running) + s.queue)
  }

  /** The running thread goes to the back of the queue, recording where its registers were saved
      and the page table active now. */
  function Park(s: State, context: nat): State
  {
    match s.running
    case None => s
    case Some(t) =>
      s.(running := None, queue := s.queue + [t],
         threads := s.threads[t := ThreadAt(s.threads, t).(context := context, pageTable := s.cr3)])
  }

  /** The front of the queue becomes the running thread. */
  function SwitchIn(s: State): State
  {
    if s.queue == [] then s.(running := None)
    else
      var thread := ThreadAt(s.threads, s.queue[0]);
      s.(running := Some(s.queue[0]), queue := s.queue[1..],
         interruptStack := thread.kernelStackEnd,
         cr3 := if thread.pageTable != 0 then thread.pageTable else s.cr3)
  }

  function Schedule(s: State, context: nat): State
  {
    SwitchIn(Park(s, context))
  }

  /** The context address `schedule` returns: 0 when there is no thread to run. */
  function NextContext(s: State): nat
  {
    match s.running
    case None => 0
    case Some(t) => ThreadAt(s.threads, t).context
  }

  // ---------------------------------------------------------------------------------------
  // System calls
  // ---------------------------------------------------------------------------------------

  function SetContext(s: State, t: Tid, context: nat): State
  {
    s.(threads := s.threads[t := ThreadAt(s.threads, t).(context := context)])
  }

  function Place(s: State, current: Tid, t: Option<Tid>): State
  {
    match t
    case None => s
    case Some(x) => if x == current then SetCurrent(s, x) else PushFront(s, x)
  }

  /** `launch_thread` with context 0 is a crash. */
  function Launch(s: State): State
  {
    if NextContext(s) == 0 then s.(crashed := true) else s
  }

  function Redistribute(s: State, current: Tid, o: Outcome): State
  {
    Place(Place(s, current, o.second), current, o.first)
  }

  /** Distributes the threads a socket operation handed back. If the caller is among them it goes on
      running, otherwise another thread is launched. */
  function AfterRendezvous(s: State, current: Tid, o: Outcome, context: nat): State
  {
    if o.first == Some(current) || o.second == Some(current) then Redistribute(s, current, o)
    else Launch(Schedule(Redistribute(s, current, o), context))
  }

  function Lookup(handles: Handles, handle: Word, count: nat): Option<nat>
  {
    if handle in handles && handles[handle] < count then Some(handles[handle]) else None
  }

  function SocketOf(s: State, t: Tid, handle: Word): Option<nat>
  {
    Lookup(ThreadAt(s.threads, t).process.handles, handle, |s.sockets|)
  }

  /** Thread t, taken off the CPU with its registers saved at `context`, has had outcome o from
      socket j. */
  function Conclude(s: State, t: Tid, context: nat, j: nat, o: Outcome): State
    requires j < |s.sockets|
  {
    var taken := SetContext(s.(running := None), t, context);
    taken.(sockets := s.sockets[j := o.socket], frames := WriteResults(s.frames, taken.threads, o.results))
  }

  /** The running thread t performs op on socket j. */
  function Rendezvous(s: State, t: Tid, context: nat, j: nat, op: Op): State
    requires j < |s.sockets|
  {
    var o := Perform(s.sockets[j], op);
    AfterRendezvous(Conclude(s, t, context, j, o), t, o, context)
  }

  function InvalidHandle(s: State, t: Tid, context: nat): State
  {
    var taken := SetContext(s, t, context);
    taken.(frames := WriteResult(s.frames, taken.threads, Code(t, ERROR_INVALID_HANDLE)))
  }

  /** The running thread t performs op on the socket that `handle` names in its process. */
  function OnSocket(s: State, t: Tid, context: nat, handle: Word, op: Op): State
  {
    match SocketOf(s, t, handle)
    case None => InvalidHandle(s, t, context)
    case Some(j) => Rendezvous(s, t, context, j, op)
  }

  function SysReceive(s: State, context: nat, handle: Word): State
  {
    match s.running
    case None => s
    case Some(t) => OnSocket(s, t, context, handle, Recv(t))
  }

  datatype Call = ForkCall | ExitCall | WriteCall | ReceiveCall | SendCall | SendReceiveCall | YieldCall | UnknownCall

  /** The low byte of the call word selects the call. */
  function CallOf(call: Word): Call
  {
    var id := call & 0xFF;
    if id == 0 then ForkCall
    else if id == 1 then ExitCall
    else if id == 2 then WriteCall
    else if id == 3 then ReceiveCall
    else if id == 4 then SendCall
    else if id == 5 then SendReceiveCall
    else if id == 9 then YieldCall
    else UnknownCall
  }

  /** The high half of the call word is the handle to send on. */
  function HandleOf(call: Word): Word
  {
    call >> 32
  }

  function SendOp(call: Word, t: Tid, m: Message): Op
  {
    if CallOf(call).SendReceiveCall? then SendRecv(t, m) else Send(Some(t), m)
  }

  function SysSend(s: State, context: nat, call: Word, m: Message): State
  {
    match s.running
    case None => s
    case Some(t) => OnSocket(s, t, context, HandleOf(call), SendOp(call, t, m))
  }

  /** The low 64 bits of n: counting up wraps around. */
  function AsWord(n: nat): Word
  {
    if n == 0 then 0 else AsWord(n - 1) + 1
  }

  /** `stack` is the end of the new user stack if one could be allocated; looking for it draws one
      unique number, the new thread's id another. */
  function Fork(s: State, context: nat, stack: Option<nat>, kernelStack: nat): State
  {
    var regs := RegsAt(s.frames, context);
    match s.running
    case None => s.(frames := s.frames[context := regs.(rax := 2)])
    case Some(t) =>
      if stack.None? then
        s.(counter := s.counter + 1, frames := s.frames[context := regs.(rax := ERROR_MEMALLOC)])
      else
        var me := ThreadAt(s.threads, t);
        var child := s.counter + 2;
        var at := InterruptContext(kernelStack);
        s.(counter := child,
           queue := s.queue + [child],
           threads := s.threads[child := Thread(me.threadType, me.process, me.pageTable, kernelStack, stack.value, at)],
           frames := s.frames[at := regs.(rsp := AsWord(stack.value), rax := 0, rdi := 0)]
                            [context := regs.(rax := 0, rdi := AsWord(child))])
  }

  /** Another live thread belongs to the same process as t. */
  predicate Shared(threads: map<Tid, Thread>, t: Tid)
  {
    exists u :: u in threads && u != t && threads[u].process.pid == ThreadAt(threads, t).process.pid
  }

  function Without(queue: seq<Tid>, t: Tid): seq<Tid>
  {
    if queue == [] then []
    else if queue[0] == t then Without(queue[1..], t)
    else [queue[0]] + Without(queue[1..], t)
  }

  /** The record of thread t is dropped; with the last thread of a process its page table goes too,
      after switching away from it. */
  function Drop(s: State, t: Tid): State
  {
    var table := ThreadAt(s.threads, t).process.pageTable;
    var gone := s.(threads := s.threads - {t});
    if Shared(s.threads, t) then gone
    else gone.(tables := s.tables - {table}, cr3 := if s.cr3 == table then s.kernelTable else s.cr3)
  }

  /** The running thread is taken off the CPU and dropped. */
  function Exit(s: State): State
  {
    match s.running
    case None => s
    case Some(t) => Drop(s.(running := None, queue := Without(s.queue, t)), t)
  }

  function Dispatch(s: State, context: nat, live: Regs, stack: Option<nat>, kernelStack: nat): State
  {
    match CallOf(live.rax)
    case ForkCall => Fork(s, context, stack, kernelStack)
    case ExitCall => Exit(s)
    case ReceiveCall => SysReceive(s, context, live.rdi)
    case SendCall => SysSend(s, context, live.rax, Packet(live.rdi, live.rsi, live.rdx))
    case SendReceiveCall => SysSend(s, context, live.rax, Packet(live.rdi, live.rsi, live.rdx))
    case YieldCall => Launch(Schedule(s, context))
    case WriteCall => s
    case UnknownCall => s
  }

  // ---------------------------------------------------------------------------------------
  // Interrupts and kernel code
  // ---------------------------------------------------------------------------------------

  function TimerInterrupt(s: State, context: nat): State
  {
    Schedule(s, context)
  }

  /** A send without a sending thread, up to what happens to the thread the socket hands back. */
  function Deliver(s: State, j: nat, m: Message): State
    requires j < |s.sockets|
  {
    var o := SendMessage(s.sockets[j], None, m);
    s.(sockets := s.sockets[j := o.socket], frames := WriteResults(s.frames, s.threads, o.results))
  }

  /** Kernel code posts a message and lets go of what the socket hands back: a thread that was
      waiting for the message gets it, and is dropped. */
  function Post(s: State, j: nat, m: Message): State
    requires j < |s.sockets|
  {
    var o := SendMessage(s.sockets[j], None, m);
    var delivered := Deliver(s, j, m);
    if o.first.Some? then Drop(delivered, o.first.value) else delivered
  }

  function Ready(s: State, t: Option<Tid>): State
  {
    if t.Some? then PushFront(s, t.value) else s
  }

  /** A key press is a message without a sender; a thread that was waiting for it runs next. */
  function KeyboardInterrupt(s: State, context: nat, key: Option<Word>): State
  {
    if key.None? || |s.sockets| <= KEYBOARD_SOCKET then s
    else
      var m := Packet(MESSAGE_TYPE_KEY, key.value, 0);
      var o := SendMessage(s.sockets[KEYBOARD_SOCKET], None, m);
      var ready := Ready(Ready(Deliver(s, KEYBOARD_SOCKET, m), o.second), o.first);
      if o.first.Some? then Schedule(ready, context) else ready
  }

  function SpawnKernel(s: State, kernelStack: nat, handles: Handles): State
  {
    var id := s.counter + 1;
    var thread := Thread(Kernel, Process(id, 0, handles), 0, kernelStack, kernelStack + 40960,
                         InterruptContext(kernelStack));
    PushFront(s.(counter := id, threads := s.threads[id := thread]), id)
  }

  /** Without a user stack the thread is not created, but two unique numbers are drawn. */
  function SpawnUser(s: State, table: nat, stack: Option<nat>, kernelStack: nat, handles: Handles): State
  {
    var id := s.counter + 1;
    if stack.None? then s.(counter := id + 1)
    else
      var thread := Thread(User, Process(id, table, handles), table, kernelStack, stack.value,
                           InterruptContext(kernelStack));
      PushFront(s.(counter := id + 1, threads := s.threads[id := thread], tables := s.tables + {table}), id)
  }

  // ---------------------------------------------------------------------------------------
  // Steps
  // ---------------------------------------------------------------------------------------

  datatype Step =
    | Timer(live: Regs)
    | Keyboard(live: Regs, key: Option<Word>)
    | Syscall(live: Regs, stack: Option<nat>, kernelStack: nat)
    | NewKernelThread(kernelStack: nat, handles: Handles)
    | NewUserThread(table: nat, stack: Option<nat>, kernelStack: nat, handles: Handles)
    | LoadTable(table: nat)
    | NewSocket
    | PostMessage(socket: nat, message: Message)

  /** The registers of the interrupted code are saved at `at` before the handler runs. */
  function Saved(s: State, at: nat, live: Regs): State
  {
    s.(frames := s.frames[at := live])
  }

  function Apply(s: State, step: Step): State
  {
    match step
    case Timer(live) =>
      var at := InterruptContext(s.interruptStack);
      TimerInterrupt(Saved(s, at, live), at)
    case Keyboard(live, key) =>
      var at := InterruptContext(s.interruptStack);
      KeyboardInterrupt(Saved(s, at, live), at, key)
    case Syscall(live, stack, kernelStack) =>
      var at := SyscallContext(s.interruptStack);
      Dispatch(Saved(s, at, live), at, live, stack, kernelStack)
    case NewKernelThread(kernelStack, handles) => SpawnKernel(s, kernelStack, handles)
    case NewUserThread(table, stack, kernelStack, handles) => SpawnUser(s, table, stack, kernelStack, handles)
    case LoadTable(table) => s.(cr3 := table)
    case NewSocket => s.(sockets := s.sockets + [Empty])
    case PostMessage(j, m) => if j < |s.sockets| then Post(s, j, m) else s
  }
}
