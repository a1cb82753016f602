/**
 Runs from boot on which the kernel falls short of its intent.
 */
module KernelWitnesses {
  import opened Options
  import opened Threads
  import opened Sockets
  import opened KernelState
  import opened KernelInvariant
  import opened KernelSteps
  import opened KernelIpc
  import opened KernelScheduling
  import opened KernelSafety
  import opened KernelTables

  const KERNEL_TABLE: nat := 1
  const USER_TABLE: nat := 7
  const BOOT_STACK: nat := 20000
  const START: State := Boot(KERNEL_TABLE, BOOT_STACK)

  const TICK: Step := Timer(NO_REGS)
  const KEY: Step := Keyboard(NO_REGS, Some(65))
  const EXIT: Step := Syscall(NO_REGS.(rax := 1), None, 300000)
  const RECEIVE: Step := Receives(0)
  const REQUEST: Step := Syscall(NO_REGS.(rax := 5), None, 300000)
  const QUESTION: Message := Packet(0, 0, 0)

  function Receives(handle: Word): Step
  {
    Syscall(NO_REGS.(rax := 3, rdi := handle), None, 300000)
  }

  /** Handle 0 names socket 0. */
  const HANDLES: Handles := map h: Word | h == 0 :: 0
  const FIRST: Step := NewKernelThread(100000, HANDLES)
  const SECOND: Step := NewKernelThread(200000, HANDLES)
  const PROGRAM: Step := NewUserThread(USER_TABLE, Some(5000), 200000, map[])

  // ---------------------------------------------------------------------------------------
  // Building runs
  // ---------------------------------------------------------------------------------------

  /** A run from boot, and the state it has led to. */
  ghost predicate Leads(states: seq<State>, steps: seq<Step>, s: State)
  {
    KernelRun(states, steps) && states[0] == START && states[|steps|] == s
  }

  /** The kernel can get into state s. */
  ghost predicate Reached(s: State)
  {
    exists states, steps :: Leads(states, steps, s)
  }

  lemma StartReached()
    ensures Reached(START)
  {
    BootInv(KERNEL_TABLE, BOOT_STACK);
    assert Leads([START], [], START);
  }

  lemma StepReached(s: State, step: Step)
    requires Reached(s) && Enabled(s, step)
    ensures Reached(Apply(s, step))
  {
    var states, steps :| Leads(states, steps, s);
    var states', steps' := states + [Apply(s, step)], steps + [step];
    forall k | 0 <= k < |steps'|
      ensures StepAt(states', steps', k)
    {
      assert k < |steps| ==> StepAt(states, steps, k);
    }
    assert Leads(states', steps', Apply(s, step));
  }

  /** What the runs below are about, leaving saved registers aside. */
  datatype View = View(running: Option<Tid>, queue: seq<Tid>, sockets: seq<Socket>, threads: map<Tid, Thread>, cr3: nat,
                       stack: nat, tables: set<nat>)

  predicate Shows(s: State, v: View)
  {
    && s.running == v.running && s.queue == v.queue && s.sockets == v.sockets && s.threads == v.threads
    && s.cr3 == v.cr3 && s.interruptStack == v.stack && s.tables == v.tables
    && s.kernelTable == KERNEL_TABLE && !s.crashed
  }

  const INTERRUPTED: nat := 160
  const CALLED: nat := 1184

  /** Kernel thread 1 and 2: recorded page table, and how far below the stack's end its context is. */
  function One(table: nat, below: nat): Thread
    requires below <= 100000
  {
    Thread(Kernel, Process(1, 0, HANDLES), table, 100000, 140960, 100000 - below)
  }

  function Two(table: nat, below: nat): Thread
    requires below <= 200000
  {
    Thread(Kernel, Process(2, 0, HANDLES), table, 200000, 240960, 200000 - below)
  }

  function User(below: nat): Thread
    requires below <= 200000
  {
    Thread(ThreadType.User, Process(2, USER_TABLE, map[]), USER_TABLE, 200000, 5000, 200000 - below)
  }

  lemma ReachedInv(s: State)
    requires Reached(s)
    ensures Inv(s)
  {
    var states, steps :| Leads(states, steps, s);
    RunInv(states, steps, |steps|);
  }

  /** What the two socket calls ask for. */
  lemma Requests(t: Tid)
    ensures forall h: Word :: RequestOf(t, Receives(h).live) == Request(h, Recv(t))
    ensures RequestOf(t, REQUEST.live) == Request(0, SendRecv(t, QUESTION))
  {
    assert CallOf(3) == ReceiveCall;
    assert CallOf(5) == SendReceiveCall;
    assert HandleOf(5) == 0;
  }

  /** The running thread t, with its socket call op. */
  function Called(s: State, t: Tid, op: Op): State
  {
    var at := SyscallContext(s.interruptStack);
    OnSocket(Saved(s, at, if op.Recv? then RECEIVE.live else REQUEST.live), t, at, 0, op)
  }

  lemma ReceiveCalls(s: State, t: Tid, handle: Word)
    requires s.running == Some(t)
    ensures var at := SyscallContext(s.interruptStack);
            Apply(s, Receives(handle)) == OnSocket(Saved(s, at, Receives(handle).live), t, at, handle, Recv(t))
  {
    var at := SyscallContext(s.interruptStack);
    Requests(t);
    DispatchRequest(Saved(s, at, Receives(handle).live), at, Receives(handle).live, None, 300000, t);
  }

  lemma Calls(s: State, t: Tid)
    requires s.running == Some(t)
    ensures Apply(s, RECEIVE) == Called(s, t, Recv(t))
    ensures Apply(s, REQUEST) == Called(s, t, SendRecv(t, QUESTION))
  {
    var at := SyscallContext(s.interruptStack);
    Requests(t);
    ReceiveCalls(s, t, 0);
    DispatchRequest(Saved(s, at, REQUEST.live), at, REQUEST.live, None, 300000, t);
  }

  /** Creating the first thread. */
  const ALONE: View := View(None, [1], [Empty], map[1 := One(0, INTERRUPTED)], KERNEL_TABLE, BOOT_STACK, {})

  lemma FirstReached() returns (s: State)
    ensures Reached(s) && Shows(s, ALONE) && s.counter == 1
  {
    StartReached();
    StepReached(START, FIRST);
    s := Apply(START, FIRST);
  }

  // ---------------------------------------------------------------------------------------
  // A crash
  // ---------------------------------------------------------------------------------------

  lemma AloneRuns(s: State)
    requires Shows(s, ALONE)
    ensures Shows(Apply(s, TICK), ALONE.(running := Some(1), queue := [], stack := 100000))
  {}

  lemma AloneBlocks(s: State)
    requires Shows(s, ALONE.(running := Some(1), queue := [], stack := 100000))
    ensures Enabled(s, RECEIVE) && Blocks(s, RECEIVE) && Woken(s, OpOf(s, RECEIVE)) == 0
  {
    Requests(1);
    assert SocketOf(s, 1, 0) == Some(0);
    assert OpOf(s, RECEIVE) == SocketCall(0, Recv(1));
  }

  /** From boot: the only thread receives on an empty socket, and the kernel launches context 0. */
  lemma CrashReached() returns (s: State)
    ensures Reached(s) && s.crashed
  {
    var s1 := FirstReached();
    AloneRuns(s1);
    StepReached(s1, TICK);
    var s2 := Apply(s1, TICK);
    AloneBlocks(s2);
    ReachedInv(s2);
    StepReached(s2, RECEIVE);
    s := Apply(s2, RECEIVE);
    CrashesIff(s2, RECEIVE, s);
  }

  // ---------------------------------------------------------------------------------------
  // Two kernel threads
  // ---------------------------------------------------------------------------------------

  function Both(one: Thread, two: Thread): map<Tid, Thread>
  {
    map[1 := one, 2 := two]
  }

  /** Thread 2 has just got the CPU; thread 1 waits. */
  const TWO_RUNS: View :=
    View(Some(2), [1], [Empty], Both(One(0, INTERRUPTED), Two(0, INTERRUPTED)), KERNEL_TABLE, 200000, {})

  lemma SecondSteps(s: State)
    requires Shows(s, ALONE) && s.counter == 1
    ensures Enabled(s, SECOND) && !Apply(s, SECOND).crashed
    ensures Shows(Apply(Apply(s, SECOND), TICK), TWO_RUNS)
  {}

  lemma TwoReached() returns (s: State)
    ensures Reached(s) && Shows(s, TWO_RUNS)
  {
    var s1 := FirstReached();
    SecondSteps(s1);
    StepReached(s1, SECOND);
    StepReached(Apply(s1, SECOND), TICK);
    s := Apply(Apply(s1, SECOND), TICK);
  }

  /** Thread 2 has made a request; then thread 1 has received it. */
  const ASKED: View :=
    View(Some(1), [], [SendReceiving(2, QUESTION)], Both(One(0, INTERRUPTED), Two(0, CALLED)), KERNEL_TABLE, 100000, {})
  const HEARD: View :=
    View(Some(1), [], [Receiving(2, Some(1))], Both(One(0, CALLED), Two(0, CALLED)), KERNEL_TABLE, 100000, {})

  lemma TwoAsks(s: State)
    requires Shows(s, TWO_RUNS)
    ensures Enabled(s, REQUEST) && Shows(Apply(s, REQUEST), ASKED)
  {
    Calls(s, 2);
    assert SocketOf(s, 2, 0) == Some(0);
  }

  /** Thread t, answered at once by its socket, goes on running. */
  predicate GoesOn(s: State, s': State, t: Tid, context: nat, socket: Socket)
  {
    && s'.running == Some(t) && s'.queue == s.queue && s'.sockets == [socket]
    && s'.threads == SetContext(s, t, context).threads && s'.cr3 == s.cr3 && s'.crashed == s.crashed
    && s'.interruptStack == s.interruptStack && s'.tables == s.tables && s'.kernelTable == s.kernelTable
  }

  lemma Answered(s: State, t: Tid, context: nat, handle: Word, op: Op)
    requires s.running == Some(t) && SocketOf(s, t, handle) == Some(0) && |s.sockets| == 1
    requires Perform(s.sockets[0], op).first == Some(t) && Perform(s.sockets[0], op).second == None
    ensures GoesOn(s, OnSocket(s, t, context, handle, op), t, context, Perform(s.sockets[0], op).socket)
  {}

  lemma RequestAnswered(s: State, t: Tid, r: Tid, m: Message)
    requires s.running == Some(t) && SocketOf(s, t, 0) == Some(0) && s.sockets == [SendReceiving(r, m)]
    ensures GoesOn(s, Apply(s, RECEIVE), t, SyscallContext(s.interruptStack), Receiving(r, Some(t)))
  {
    var at := SyscallContext(s.interruptStack);
    Calls(s, t);
    Answered(Saved(s, at, RECEIVE.live), t, at, 0, Recv(t));
  }

  lemma OneIsAnswered(s: State)
    requires Shows(s, ASKED)
    ensures Enabled(s, RECEIVE) && SocketOf(s, 1, 0) == Some(0)
  {}

  lemma OneHears(s: State, s': State)
    requires Shows(s, ASKED) && GoesOn(s, s', 1, SyscallContext(s.interruptStack), HEARD.sockets[0])
    ensures Shows(s', HEARD)
  {}

  lemma OneLeaves(s: State)
    requires Shows(s, HEARD)
    ensures Enabled(s, EXIT)
    ensures var s' := Apply(s, EXIT);
            s'.sockets == [Receiving(2, Some(1))] && s'.threads == map[2 := Two(0, CALLED)] && s'.counter == s.counter
  {
    assert CallOf(1) == ExitCall;
    assert !Shared(s.threads, 1);
  }

  lemma AskedReached() returns (s: State)
    ensures Reached(s) && Shows(s, ASKED)
  {
    var s1 := TwoReached();
    TwoAsks(s1);
    StepReached(s1, REQUEST);
    s := Apply(s1, REQUEST);
  }

  lemma HeardReached() returns (s: State)
    ensures Reached(s) && Shows(s, HEARD)
  {
    var s1 := AskedReached();
    OneIsAnswered(s1);
    RequestAnswered(s1, 1, 2, QUESTION);
    StepReached(s1, RECEIVE);
    s := Apply(s1, RECEIVE);
    OneHears(s1, s);
  }

  lemma OrphanReached() returns (s: State)
    ensures Reached(s) && s.threads.Keys == {2} && s.sockets == [Receiving(2, Some(1))] && s.counter >= 1
  {
    var s1 := HeardReached();
    HeardCounted(s1);
    OneLeaves(s1);
    StepReached(s1, EXIT);
    s := Apply(s1, EXIT);
  }

  lemma HeardCounted(s: State)
    requires Reached(s) && Shows(s, HEARD)
    ensures s.counter >= 1
  {
    ReachedInv(s);
    assert 1 in s.threads;
  }

  /** In state s, and in every continuation, r waits in the keyboard socket for p. */
  ghost predicate WaitsForEver(s: State, r: Tid, p: Tid)
  {
    forall states, steps, b: nat ::
      KernelRun(states, steps) && states[0] == s && b <= |steps| ==> SocketAt(states[b], 0) == Receiving(r, Some(p))
  }

  /** From boot: thread 2's request is received by thread 1, which exits without replying. In every
      continuation thread 2 is still waiting for that reply. */
  lemma RequestOrphaned() returns (s: State)
    ensures Reached(s) && WaitsForEver(s, 2, 1)
  {
    s := OrphanReached();
    forall states, steps, b: nat | KernelRun(states, steps) && states[0] == s && b <= |steps|
      ensures SocketAt(states[b], 0) == Receiving(2, Some(1))
    {
      OrphanedRequest(states, steps, 0, 2, 1, 0, b);
    }
  }

  // ---------------------------------------------------------------------------------------
  // A post that drops its receiver
  // ---------------------------------------------------------------------------------------

  /** The program's handle 2 names socket 1, the one made for its number. */
  const ID_SOCKET: nat := 1
  const ID_HANDLES: Handles := map h: Word | h == 2 :: ID_SOCKET
  const ID_PROGRAM: Step := NewUserThread(USER_TABLE, Some(5000), 200000, ID_HANDLES)
  const RECEIVE_ID: Step := Receives(2)

  function Client(below: nat): Thread
    requires below <= 200000
  {
    Thread(ThreadType.User, Process(2, USER_TABLE, ID_HANDLES), USER_TABLE, 200000, 5000, 200000 - below)
  }

  /** The kernel thread runs and has made the socket; then it has started the program. */
  const WITH_SOCKET: View :=
    View(Some(1), [], [Empty, Empty], map[1 := One(0, INTERRUPTED)], KERNEL_TABLE, 100000, {})
  const STARTED: View :=
    View(Some(1), [2], [Empty, Empty], Both(One(0, INTERRUPTED), Client(INTERRUPTED)), KERNEL_TABLE, 100000,
         {USER_TABLE})
  const PREEMPTED: View :=
    View(Some(2), [1], [Empty, Empty], Both(One(KERNEL_TABLE, INTERRUPTED), Client(INTERRUPTED)), USER_TABLE, 200000,
         {USER_TABLE})
  const AWAITING: View :=
    View(Some(1), [], [Empty, Receiving(2, None)], Both(One(KERNEL_TABLE, INTERRUPTED), Client(CALLED)), KERNEL_TABLE,
         100000, {USER_TABLE})

  lemma MakesSocket(s: State)
    requires Shows(s, ALONE.(running := Some(1), queue := [], stack := 100000))
    ensures Enabled(s, NewSocket) && Shows(Apply(s, NewSocket), WITH_SOCKET) && Apply(s, NewSocket).counter == s.counter
  {}

  lemma StartsProgram(s: State)
    requires Shows(s, WITH_SOCKET) && s.counter == 1
    ensures Enabled(s, ID_PROGRAM) && Shows(Apply(s, ID_PROGRAM), STARTED)
  {}

  lemma ProgramRuns(s: State)
    requires Shows(s, STARTED)
    ensures Shows(Apply(s, TICK), PREEMPTED)
  {}

  lemma ProgramWaits(s: State)
    requires Shows(s, PREEMPTED)
    ensures Enabled(s, RECEIVE_ID) && Shows(Apply(s, RECEIVE_ID), AWAITING)
  {
    ReceiveCalls(s, 2, 2);
    assert SocketOf(s, 2, 2) == Some(ID_SOCKET);
  }

  lemma StartedReached() returns (s: State)
    ensures Reached(s) && Shows(s, STARTED)
  {
    var s1 := FirstReached();
    AloneRuns(s1);
    StepReached(s1, TICK);
    var s2 := Apply(s1, TICK);
    MakesSocket(s2);
    StepReached(s2, NewSocket);
    var s3 := Apply(s2, NewSocket);
    StartsProgram(s3);
    StepReached(s3, ID_PROGRAM);
    s := Apply(s3, ID_PROGRAM);
  }

  lemma AwaitingReached() returns (s: State)
    ensures Reached(s) && Shows(s, AWAITING)
  {
    var s1 := StartedReached();
    ProgramRuns(s1);
    StepReached(s1, TICK);
    var s2 := Apply(s1, TICK);
    ProgramWaits(s2);
    StepReached(s2, RECEIVE_ID);
    s := Apply(s2, RECEIVE_ID);
  }

  lemma ProgramDropped(s: State, m: Message)
    requires Shows(s, AWAITING)
    ensures Enabled(s, PostMessage(ID_SOCKET, m)) && Dropped(s, PostMessage(ID_SOCKET, m), 2)
    ensures var s' := Apply(s, PostMessage(ID_SOCKET, m)); 2 !in s'.threads && USER_TABLE !in s'.tables
  {
    assert !Shared(s.threads, 2);
  }

  /** From boot: a kernel thread starts a program and is preempted before it posts the program's
      number; the program waits for the number, and the post ends it. */
  lemma PostDropsThread(m: Message) returns (s: State)
    ensures Reached(s) && 2 in s.threads && USER_TABLE in s.tables
    ensures var s' := Apply(s, PostMessage(ID_SOCKET, m));
            Reached(s') && 2 !in s'.threads && USER_TABLE !in s'.tables
  {
    s := AwaitingReached();
    ProgramDropped(s, m);
    StepReached(s, PostMessage(ID_SOCKET, m));
  }

  // ---------------------------------------------------------------------------------------
  // A kernel thread and a user thread
  // ---------------------------------------------------------------------------------------

  /** The user thread runs, then the kernel thread under the user's page table, then the user thread
      again, that table having been recorded for the kernel thread. */
  const USER_RUNS: View :=
    View(Some(2), [1], [Empty], Both(One(0, INTERRUPTED), User(INTERRUPTED)), USER_TABLE, 200000, {USER_TABLE})
  const KERNEL_RUNS: View :=
    View(Some(1), [2], [Empty], Both(One(0, INTERRUPTED), User(INTERRUPTED)), USER_TABLE, 100000, {USER_TABLE})
  const RECORDED: View :=
    View(Some(2), [1], [Empty], Both(One(USER_TABLE, INTERRUPTED), User(INTERRUPTED)), USER_TABLE, 200000, {USER_TABLE})

  /** The user thread has exited and its page table has been freed. */
  const LEFT: View := View(None, [1], [Empty], map[1 := One(USER_TABLE, INTERRUPTED)], KERNEL_TABLE, 200000, {})

  lemma ProgramSteps(s: State)
    requires Shows(s, ALONE) && s.counter == 1
    ensures Enabled(s, PROGRAM) && !Apply(s, PROGRAM).crashed
    ensures Shows(Apply(Apply(s, PROGRAM), TICK), USER_RUNS)
  {}

  lemma UserTicks(s: State)
    ensures Shows(s, USER_RUNS) ==> Shows(Apply(s, TICK), KERNEL_RUNS)
    ensures Shows(s, KERNEL_RUNS) ==> Shows(Apply(s, TICK), RECORDED)
  {}

  lemma RecordedReached() returns (s: State)
    ensures Reached(s) && Shows(s, RECORDED)
  {
    var s1 := FirstReached();
    ProgramSteps(s1);
    StepReached(s1, PROGRAM);
    StepReached(Apply(s1, PROGRAM), TICK);
    var s2 := Apply(Apply(s1, PROGRAM), TICK);
    UserTicks(s2);
    StepReached(s2, TICK);
    UserTicks(Apply(s2, TICK));
    StepReached(Apply(s2, TICK), TICK);
    s := Apply(Apply(s2, TICK), TICK);
  }

  lemma UserLeaves(s: State)
    requires Shows(s, RECORDED)
    ensures Enabled(s, EXIT)
    ensures Shows(Apply(s, EXIT), LEFT)
  {
    assert CallOf(1) == ExitCall;
    assert !Shared(s.threads, 2);
    assert Without([1], 2) == [1] + Without([], 2);
  }

  lemma Resumes(s: State)
    requires Shows(s, LEFT)
    ensures Apply(s, TICK).running == Some(1) && !LiveTable(Apply(s, TICK), Apply(s, TICK).cr3)
  {}

  /** From boot: the kernel thread is displaced while the user's page table is active, the user
      exits, and the kernel thread resumes under the freed table. */
  lemma StaleTableReached() returns (s: State)
    ensures Reached(s) && s.running == Some(1) && !LiveTable(s, s.cr3)
  {
    var s1 := RecordedReached();
    UserLeaves(s1);
    StepReached(s1, EXIT);
    var s2 := Apply(s1, EXIT);
    Resumes(s2);
    StepReached(s2, TICK);
    s := Apply(s2, TICK);
  }

  /** The kernel thread runs once more and blocks in the keyboard socket, and the user thread exits. */
  const AGAIN: View :=
    View(Some(1), [2], [Empty], Both(One(USER_TABLE, INTERRUPTED), User(INTERRUPTED)), USER_TABLE, 100000, {USER_TABLE})
  const LISTENS: View :=
    View(Some(2), [], [Receiving(1, None)], Both(One(USER_TABLE, CALLED), User(INTERRUPTED)), USER_TABLE, 200000,
         {USER_TABLE})
  const DESERTED: View :=
    View(None, [], [Receiving(1, None)], map[1 := One(USER_TABLE, CALLED)], KERNEL_TABLE, 200000, {})

  lemma KernelRunsAgain(s: State)
    requires Shows(s, RECORDED)
    ensures Shows(Apply(s, TICK), AGAIN)
  {}

  lemma KernelListens(s: State)
    requires Shows(s, AGAIN)
    ensures Enabled(s, RECEIVE) && Shows(Apply(s, RECEIVE), LISTENS)
  {
    Calls(s, 1);
    assert SocketOf(s, 1, 0) == Some(0);
  }

  lemma UserDeserts(s: State)
    requires Shows(s, LISTENS)
    ensures Enabled(s, EXIT) && Shows(Apply(s, EXIT), DESERTED)
  {
    assert CallOf(1) == ExitCall;
    assert !Shared(s.threads, 2);
  }

  lemma KeyWakes(s: State)
    requires Shows(s, DESERTED)
    ensures Apply(s, KEY).running == Some(1) && !LiveTable(Apply(s, KEY), Apply(s, KEY).cr3)
  {}

  /** From boot: the same for a kernel thread that waits in the keyboard socket when the user exits;
      the next key press resumes it under the freed table. */
  lemma StaleListenerReached() returns (s: State)
    ensures Reached(s) && s.running == Some(1) && !LiveTable(s, s.cr3)
    ensures exists before :: Reached(before) && SocketAt(before, 0) == Receiving(1, None) && s == Apply(before, KEY)
  {
    var s1 := RecordedReached();
    KernelRunsAgain(s1);
    StepReached(s1, TICK);
    var s2 := Apply(s1, TICK);
    KernelListens(s2);
    StepReached(s2, RECEIVE);
    var s3 := Apply(s2, RECEIVE);
    UserDeserts(s3);
    StepReached(s3, EXIT);
    var s4 := Apply(s3, EXIT);
    KeyWakes(s4);
    StepReached(s4, KEY);
    s := Apply(s4, KEY);
    assert SocketAt(s4, 0) == Receiving(1, None);
  }
}
