/**
 Scheduling over runs: where each step puts the threads of the wait queue, how long a thread waits
 for the CPU, and which threads are alive.
 */
module KernelScheduling {
  import opened Options
  import opened Runs
  import opened Threads
  import opened Sockets
  import opened KernelState
  import opened KernelInvariant
  import opened KernelSteps
  import opened KernelIpc
  import opened KernelRegisters

  // ---------------------------------------------------------------------------------------
  // The queue in one step
  // ---------------------------------------------------------------------------------------

  function Front(x: Option<Tid>, me: Option<Tid>): nat
  {
    if x.Some? && x != me then 1 else 0
  }

  /** How many threads other than the caller a socket operation sets free. */
  function Woken(s: State, call: SocketCall): nat
  {
    if call.SocketCall? && call.socket < |s.sockets|
    then
      var o := Perform(s.sockets[call.socket], call.op);
      Front(o.first, Caller(call.op)) + Front(o.second, Caller(call.op))
    else 0
  }

  /** A socket operation keeps its caller. */
  predicate Keeps(s: State, call: SocketCall)
  {
    && call.SocketCall? && call.socket < |s.sockets| && Caller(call.op).Some?
    && var o := Perform(s.sockets[call.socket], call.op);
       o.first != Caller(call.op) && o.second != Caller(call.op)
  }

  /** How many threads a step puts in front of the queue: those it wakes and those it spawns. What a
      post wakes, it drops. */
  function Jumps(s: State, step: Step): nat
  {
    match step
    case NewKernelThread(_, _) => 1
    case NewUserThread(_, stack, _, _) => if stack.Some? then 1 else 0
    case PostMessage(_, _) => 0
    case _ => Woken(s, OpOf(s, step))
  }

  /** The running thread performs a socket operation that keeps it. */
  predicate Blocks(s: State, step: Step)
  {
    Keeps(s, OpOf(s, step))
  }

  predicate Yields(step: Step)
  {
    step.Syscall? && CallOf(step.live.rax).YieldCall?
  }

  /** The step ends by giving the CPU to the front of the queue. */
  predicate Selects(s: State, step: Step)
  {
    step.Timer? || Yields(step) || Blocks(s, step) || (step.Keyboard? && Woken(s, OpOf(s, step)) > 0)
  }

  /** How far a step moves a queued thread back. */
  function Shift(s: State, step: Step): int
  {
    Jumps(s, step) - if Selects(s, step) then 1 else 0
  }

  /** Thread t has moved to position k of the queue, or to the CPU if that is before the front. */
  predicate At(s: State, k: int, t: Tid)
  {
    if k < 0 then s.running == Some(t) else k < |s.queue| && s.queue[k] == t
  }

  lemma ScheduleMoves(s: State, context: nat, i: nat)
    requires i < |s.queue|
    ensures At(Schedule(s, context), i - 1, s.queue[i])
    ensures At(Launch(Schedule(s, context)), i - 1, s.queue[i])
  {}

  lemma RedistributeMoves(s: State, me: Tid, o: Outcome, i: nat)
    requires i < |s.queue| && s.running.None? && !(o.first == Some(me) && o.second == Some(me))
    ensures At(Redistribute(s, me, o), i + Front(o.first, Some(me)) + Front(o.second, Some(me)), s.queue[i])
  {}

  /** An operation never hands a thread back twice. */
  lemma HandedOnce(s: State, j: nat, op: Op, me: Tid)
    requires Placed(s) && j < |s.sockets| && s.running == Some(me) && Caller(op) == Some(me)
    ensures var o := Perform(s.sockets[j], op); !(o.first == Some(me) && o.second == Some(me))
  {
    RunsElsewhere(s, me);
    HeldAtLeast(s.sockets, j, me);
    OutcomeCounts(s.sockets[j], op, me);
    CountCaller(op, me);
    CountOne(me, me);
  }

  lemma RendezvousMoves(s: State, me: Tid, context: nat, j: nat, op: Op, i: nat)
    requires Placed(s) && s.running == Some(me) && Caller(op) == Some(me) && j < |s.sockets| && i < |s.queue|
    ensures var o := Perform(s.sockets[j], op);
            var k := i + Front(o.first, Some(me)) + Front(o.second, Some(me));
            At(Rendezvous(s, me, context, j, op),
               if o.first == Some(me) || o.second == Some(me) then k else k - 1, s.queue[i])
  {
    var o := Perform(s.sockets[j], op);
    var done := Conclude(s, me, context, j, o);
    var k := i + Front(o.first, Some(me)) + Front(o.second, Some(me));
    HandedOnce(s, j, op, me);
    RedistributeMoves(done, me, o, i);
    ScheduleMoves(Redistribute(done, me, o), context, k);
  }

  lemma KeyboardMoves(s: State, context: nat, key: Option<Word>, i: nat)
    requires Wired(s) && i < |s.queue|
    ensures At(KeyboardInterrupt(s, context, key), i, s.queue[i])
  {
    if key.Some? {
      AnonymousOutcome(s.sockets[KEYBOARD_SOCKET], Packet(MESSAGE_TYPE_KEY, key.value, 0));
    }
  }

  lemma OnSocketMoves(s: State, me: Tid, context: nat, q: Request, i: nat)
    requires Placed(s) && s.running == Some(me) && i < |s.queue| && q.Request? && Caller(q.op) == Some(me)
    ensures var call := RequestedOp(s, me, q);
            At(OnSocket(s, me, context, q.handle, q.op), i + Woken(s, call) - if Keeps(s, call) then 1 else 0,
               s.queue[i])
  {
    var j := SocketOf(s, me, q.handle);
    if j.Some? {
      NamedCall(s, me, context, q, j.value);
      CallMoves(s, me, context, SocketCall(j.value, q.op), i);
    } else {
      RefusalMoves(s, me, context, q, i);
    }
  }

  lemma NamedCall(s: State, me: Tid, context: nat, q: Request, j: nat)
    requires q.Request? && SocketOf(s, me, q.handle) == Some(j)
    ensures j < |s.sockets| && RequestedOp(s, me, q) == SocketCall(j, q.op)
    ensures OnSocket(s, me, context, q.handle, q.op) == Rendezvous(s, me, context, j, q.op)
  {}

  lemma CallMoves(s: State, me: Tid, context: nat, call: SocketCall, i: nat)
    requires Placed(s) && s.running == Some(me) && i < |s.queue|
    requires call.SocketCall? && call.socket < |s.sockets| && Caller(call.op) == Some(me)
    ensures At(Rendezvous(s, me, context, call.socket, call.op),
               i + Woken(s, call) - if Keeps(s, call) then 1 else 0, s.queue[i])
  {
    RendezvousMoves(s, me, context, call.socket, call.op, i);
  }

  lemma RefusalMoves(s: State, me: Tid, context: nat, q: Request, i: nat)
    requires q.Request? && SocketOf(s, me, q.handle).None? && i < |s.queue|
    ensures RequestedOp(s, me, q) == NoCall
    ensures At(OnSocket(s, me, context, q.handle, q.op), i, s.queue[i])
  {}

  lemma RequestShift(s: State, step: Step, me: Tid)
    requires step.Syscall? && s.running == Some(me) && RequestOf(me, step.live).Request?
    ensures var call := RequestedOp(s, me, RequestOf(me, step.live));
            Shift(s, step) == Woken(s, call) - if Keeps(s, call) then 1 else 0
  {}

  lemma SavedPlaced(s: State, at: nat, live: Regs)
    requires Placed(s)
    ensures Placed(Saved(s, at, live))
  {
    forall t
      ensures Places(Saved(s, at, live), t) == Places(s, t)
    {}
  }

  lemma RequestMoves(s: State, step: Step, me: Tid, i: nat)
    requires Placed(s) && step.Syscall? && s.running == Some(me) && i < |s.queue|
    requires RequestOf(me, step.live).Request?
    ensures var call := RequestedOp(s, me, RequestOf(me, step.live));
            At(Apply(s, step), i + Woken(s, call) - if Keeps(s, call) then 1 else 0, s.queue[i])
  {
    var at := SyscallContext(s.interruptStack);
    var saved := Saved(s, at, step.live);
    RequestIsOwn(me, step.live);
    DispatchRequest(saved, at, step.live, step.stack, step.kernelStack, me);
    SavedPlaced(s, at, step.live);
    OnSocketMoves(saved, me, at, RequestOf(me, step.live), i);
  }

  lemma ForkMoves(s: State, context: nat, stack: Option<nat>, kernelStack: nat, i: nat)
    requires i < |s.queue|
    ensures At(Fork(s, context, stack, kernelStack), i, s.queue[i])
  {}

  lemma ExitMoves(s: State, i: nat)
    requires Placed(s) && s.running.Some? && i < |s.queue|
    ensures At(Exit(s), i, s.queue[i])
  {
    ExitSweepIsIdle(s);
  }

  lemma DispatchMoves(s: State, context: nat, live: Regs, stack: Option<nat>, kernelStack: nat, me: Tid, i: nat)
    requires Placed(s) && s.running == Some(me) && i < |s.queue| && RequestOf(me, live).NoRequest?
    ensures At(Dispatch(s, context, live, stack, kernelStack), if CallOf(live.rax).YieldCall? then i - 1 else i,
               s.queue[i])
  {
    match CallOf(live.rax)
    case ForkCall => ForkMoves(s, context, stack, kernelStack, i);
    case ExitCall => ExitMoves(s, i);
    case YieldCall => ScheduleMoves(s, context, i);
    case _ =>
  }

  lemma QuietMoves(s: State, step: Step, me: Tid, i: nat)
    requires Placed(s) && step.Syscall? && s.running == Some(me) && i < |s.queue|
    requires RequestOf(me, step.live).NoRequest?
    ensures At(Apply(s, step), i + Shift(s, step), s.queue[i])
  {
    var at := SyscallContext(s.interruptStack);
    var saved := Saved(s, at, step.live);
    SavedPlaced(s, at, step.live);
    DispatchMoves(saved, at, step.live, step.stack, step.kernelStack, me, i);
  }

  lemma InterruptMoves(s: State, step: Step, i: nat)
    requires Wired(s) && (step.Timer? || step.Keyboard?) && i < |s.queue|
    ensures At(Apply(s, step), i + Shift(s, step), s.queue[i])
  {
    var at := InterruptContext(s.interruptStack);
    if step.Timer? {
      ScheduleMoves(Saved(s, at, step.live), at, i);
    } else {
      KeyboardMoves(Saved(s, at, step.live), at, step.key, i);
      if step.key.Some? {
        AnonymousOutcome(s.sockets[KEYBOARD_SOCKET], Packet(MESSAGE_TYPE_KEY, step.key.value, 0));
      }
    }
  }

  lemma SyscallMoves(s: State, step: Step, i: nat)
    requires Placed(s) && step.Syscall? && s.running.Some? && i < |s.queue|
    ensures At(Apply(s, step), i + Shift(s, step), s.queue[i])
  {
    var me := s.running.value;
    if RequestOf(me, step.live).Request? {
      RequestShift(s, step, me);
      RequestMoves(s, step, me, i);
    } else {
      QuietMoves(s, step, me, i);
    }
  }

  lemma KernelCodeMoves(s: State, step: Step, i: nat)
    requires Enabled(s, step) && !step.Timer? && !step.Keyboard? && !step.Syscall? && i < |s.queue|
    ensures At(Apply(s, step), i + Shift(s, step), s.queue[i])
  {
    if step.PostMessage? {
      AnonymousOutcome(s.sockets[step.socket], step.message);
    }
  }

  /** Where a step leaves a queued thread: further back by the threads that jump the queue, one
      further to the front if the step selects a thread to run. */
  lemma QueueMoves(s: State, step: Step, s': State, i: nat)
    requires Inv(s) && Moves(s, step, s') && i < |s.queue|
    ensures At(s', i + Shift(s, step), s.queue[i])
  {
    if step.Timer? || step.Keyboard? {
      InterruptMoves(s, step, i);
    } else if step.Syscall? {
      SyscallMoves(s, step, i);
    } else {
      KernelCodeMoves(s, step, i);
    }
  }

  // ---------------------------------------------------------------------------------------
  // Bounded waiting
  // ---------------------------------------------------------------------------------------

  ghost predicate Queued(s: State, k: int, t: Tid)
  {
    Inv(s) && 0 <= k && At(s, k, t)
  }

  /** A step after which t does not run. */
  ghost predicate PassesOver(s: State, step: Step, s': State, t: Tid)
  {
    Moves(s, step, s') && s'.running != Some(t)
  }

  ghost predicate NeverRuns(states: seq<State>, t: Tid, a: nat, b: nat)
    requires b < |states|
  {
    forall k :: a < k <= b ==> states[k].running != Some(t)
  }

  lemma QueuedStep(s: State, step: Step, s': State, k: int, t: Tid)
    requires Queued(s, k, t) && PassesOver(s, step, s', t)
    ensures Queued(s', k + Shift(s, step), t)
  {
    MovesKeeps(s, step, s');
    QueueMoves(s, step, s', k);
  }

  /** Step k moves t, wherever it is queued, by `shift`. */
  ghost predicate ShiftedAt(states: seq<State>, steps: seq<Step>, t: Tid, k: nat, shift: (State, Step) -> int)
    requires k < |steps| < |states|
  {
    forall x :: 0 <= x && At(states[k], x, t) ==>
      0 <= x + shift(states[k], steps[k]) && At(states[k + 1], x + shift(states[k], steps[k]), t)
  }

  lemma ShiftedOnce(states: seq<State>, steps: seq<Step>, t: Tid, k: nat, x: int)
    requires KernelRun(states, steps) && k < |steps| && states[k + 1].running != Some(t)
    requires 0 <= x && At(states[k], x, t)
    ensures 0 <= x + Shift(states[k], steps[k]) && At(states[k + 1], x + Shift(states[k], steps[k]), t)
  {
    RunInv(states, steps, k);
    assert StepAt(states, steps, k);
    QueuedStep(states[k], steps[k], states[k + 1], x, t);
  }

  lemma ShiftedInRun(states: seq<State>, steps: seq<Step>, t: Tid, k: nat)
    requires KernelRun(states, steps) && k < |steps| && states[k + 1].running != Some(t)
    ensures ShiftedAt(states, steps, t, k, Shift)
  {
    forall x | 0 <= x && At(states[k], x, t)
      ensures 0 <= x + Shift(states[k], steps[k]) && At(states[k + 1], x + Shift(states[k], steps[k]), t)
    {
      ShiftedOnce(states, steps, t, k, x);
    }
  }

  lemma {:induction false} ShiftedOver(states: seq<State>, steps: seq<Step>, t: Tid, i: nat, a: nat, b: nat,
                                       shift: (State, Step) -> int)
    requires |states| == |steps| + 1 && a <= b <= |steps| && At(states[a], i, t)
    requires forall k :: a <= k < b ==> ShiftedAt(states, steps, t, k, shift)
    ensures i + Total(shift, states, steps, a, b) >= 0
    ensures At(states[b], i + Total(shift, states, steps, a, b), t)
    decreases b
  {
    if a < b {
      ShiftedOver(states, steps, t, i, a, b - 1, shift);
      assert ShiftedAt(states, steps, t, b - 1, shift);
    }
  }

  /** While a queued thread does not get the CPU, its position is its first position plus the
      threads that jumped the queue, less the number of selections. */
  lemma PositionOverRun(states: seq<State>, steps: seq<Step>, t: Tid, i: nat, a: nat, b: nat)
    requires KernelRun(states, steps) && a <= b <= |steps| && At(states[a], i, t) && NeverRuns(states, t, a, b)
    ensures i + Total(Shift, states, steps, a, b) >= 0
    ensures At(states[b], i + Total(Shift, states, steps, a, b), t)
  {
    forall k | a <= k < b
      ensures ShiftedAt(states, steps, t, k, Shift)
    {
      ShiftedInRun(states, steps, t, k);
    }
    ShiftedOver(states, steps, t, i, a, b, Shift);
  }

  function SelectsOne(s: State, step: Step): int
  {
    if Selects(s, step) then 1 else 0
  }

  lemma {:induction false} TotalShift(states: seq<State>, steps: seq<Step>, a: nat, b: nat)
    requires a <= b <= |steps| <= |states|
    ensures Total(Shift, states, steps, a, b) ==
            Total((s, e) => Jumps(s, e), states, steps, a, b) - Total(SelectsOne, states, steps, a, b)
    decreases b
  {
    if a < b {
      TotalShift(states, steps, a, b - 1);
    }
  }

  /** Bounded waiting: a thread at position i of the queue runs before there have been more than i
      selections beyond the number of threads put in front of it. Without wake-ups and spawns this is
      round robin: it runs within i + 1 selections. */
  lemma BoundedWaiting(states: seq<State>, steps: seq<Step>, t: Tid, i: nat, a: nat, b: nat)
    requires KernelRun(states, steps) && a <= b <= |steps| && At(states[a], i, t)
    requires Total(SelectsOne, states, steps, a, b) > i + Total((s, e) => Jumps(s, e), states, steps, a, b)
    ensures exists k :: a < k <= b && states[k].running == Some(t)
  {
    if NeverRuns(states, t, a, b) {
      PositionOverRun(states, steps, t, i, a, b);
      TotalShift(states, steps, a, b);
    }
  }

  // ---------------------------------------------------------------------------------------
  // Who is alive
  // ---------------------------------------------------------------------------------------

  /** Running thread t asks to exit. */
  predicate Exits(s: State, step: Step, t: Tid)
  {
    s.running == Some(t) && step.Syscall? && CallOf(step.live.rax).ExitCall?
  }

  lemma DispatchAlive(s: State, context: nat, live: Regs, stack: Option<nat>, kernelStack: nat, me: Tid)
    requires s.running == Some(me) && me in s.threads
    ensures me in Dispatch(s, context, live, stack, kernelStack).threads <==> !CallOf(live.rax).ExitCall?
  {
    var q := RequestOf(me, live);
    if q.Request? {
      DispatchRequest(s, context, live, stack, kernelStack, me);
      OnSocketThreads(s, me, context, q);
    }
  }

  /** The step ends the life of thread t. */
  predicate Dies(s: State, step: Step, t: Tid)
  {
    Exits(s, step, t) || Dropped(s, step, t)
  }

  /** A thread dies in a step if and only if it is running and asks to exit, or waits for a message
      from anyone and kernel code posts it one. */
  lemma DiesIff(s: State, step: Step, s': State, t: Tid)
    requires Inv(s) && Moves(s, step, s') && t in s.threads
    ensures t !in s'.threads <==> Dies(s, step, t)
  {
    if Dropped(s, step, t) {
      DroppedIsGone(s, step, t);
    } else if s.running != Some(t) {
      SuspendedThroughStep(s, step, s', t);
    } else {
      RunningDiesByExit(s, step, t);
    }
  }

  /** Only a thread that a socket holds can be dropped. */
  lemma NotDropped(s: State, step: Step, t: Tid)
    requires HeldCount(s.sockets, t) == 0 || (Placed(s) && s.running == Some(t))
    ensures !Dropped(s, step, t)
    ensures step.PostMessage? && step.socket < |s.sockets| && t in s.threads ==> t in Apply(s, step).threads
  {
    if s.running == Some(t) && Placed(s) {
      RunsElsewhere(s, t);
    }
    if Dropped(s, step, t) {
      HeldAtLeast(s.sockets, step.socket, t);
      CountOne(t, t);
    }
    if step.PostMessage? && step.socket < |s.sockets| {
      AnonymousOutcome(s.sockets[step.socket], step.message);
    }
  }

  lemma RunningDiesByExit(s: State, step: Step, t: Tid)
    requires Inv(s) && Enabled(s, step) && s.running == Some(t)
    ensures t !in Apply(s, step).threads <==> Exits(s, step, t)
  {
    match step
    case Timer(live) =>
      var at := InterruptContext(s.interruptStack);
      ScheduleThreads(Saved(s, at, live), at);
    case Keyboard(live, key) =>
      var at := InterruptContext(s.interruptStack);
      KeyboardThreads(Saved(s, at, live), at, key);
    case Syscall(live, stack, kernelStack) =>
      var at := SyscallContext(s.interruptStack);
      DispatchAlive(Saved(s, at, live), at, live, stack, kernelStack, t);
    case PostMessage(j, m) => NotDropped(s, step, t);
    case _ =>
  }

  /** The step creates thread t: a fork, or a spawn, that found a user stack. */
  predicate Creates(s: State, step: Step, t: Tid)
  {
    match step
    case Syscall(live, stack, _) => s.running.Some? && CallOf(live.rax).ForkCall? && stack.Some? && t == s.counter + 2
    case NewKernelThread(_, _) => t == s.counter + 1
    case NewUserThread(_, stack, _, _) => stack.Some? && t == s.counter + 1
    case _ => false
  }

  lemma DispatchBorn(s: State, context: nat, live: Regs, stack: Option<nat>, kernelStack: nat, me: Tid, t: Tid)
    requires s.running == Some(me) && me in s.threads && t !in s.threads
    ensures var s' := Dispatch(s, context, live, stack, kernelStack);
            && (t in s'.threads <==> CallOf(live.rax).ForkCall? && stack.Some? && t == s.counter + 2)
            && (t in s'.threads ==> t <= s'.counter)
  {
    var q := RequestOf(me, live);
    if q.Request? {
      DispatchRequest(s, context, live, stack, kernelStack, me);
      OnSocketThreads(s, me, context, q);
    }
  }

  /** A thread is born in a step if and only if the step creates it; its number was not in use before
      and is used up after. */
  lemma BornIff(s: State, step: Step, s': State, t: Tid)
    requires Inv(s) && Moves(s, step, s')
    ensures Creates(s, step, t) ==> t !in s.threads && t > s.counter
    ensures t !in s.threads ==> (t in s'.threads <==> Creates(s, step, t)) && (t in s'.threads ==> t <= s'.counter)
  {
    if t !in s.threads {
      match step
      case Timer(live) =>
        var at := InterruptContext(s.interruptStack);
        ScheduleThreads(Saved(s, at, live), at);
      case Keyboard(live, key) =>
        var at := InterruptContext(s.interruptStack);
        KeyboardThreads(Saved(s, at, live), at, key);
      case Syscall(live, stack, kernelStack) =>
        var at := SyscallContext(s.interruptStack);
        DispatchBorn(Saved(s, at, live), at, live, stack, kernelStack, s.running.value, t);
      case _ => KernelCodeBorn(s, step, t);
    }
  }

  lemma KernelCodeBorn(s: State, step: Step, t: Tid)
    requires !step.Timer? && !step.Keyboard? && !step.Syscall? && t !in s.threads
    ensures t in Apply(s, step).threads <==> Creates(s, step, t)
    ensures t in Apply(s, step).threads ==> t <= Apply(s, step).counter
  {}

  /** What a spawn by kernel code does: the new thread, with its own number and process, waits in front of
      the queue. A user thread's spawn draws two numbers, and does nothing else when no user stack was
      found. */
  lemma SpawnOutcome(s: State, step: Step, s': State)
    requires Inv(s) && Moves(s, step, s') && (step.NewKernelThread? || step.NewUserThread?)
    ensures var id := s.counter + 1;
            var at := step.kernelStack;
            if step.NewKernelThread? then
              s' == s.(counter := id, queue := [id] + s.queue, threads := s.threads[id :=
                Thread(Kernel, Process(id, 0, step.handles), 0, at, at + 40960, at - 160)])
            else if step.stack.None? then s' == s.(counter := id + 1)
            else
              s' == s.(counter := id + 1, queue := [id] + s.queue, tables := s.tables + {step.table},
                threads := s.threads[id :=
                  Thread(User, Process(id, step.table, step.handles), step.table, at, step.stack.value, at - 160)])
  {}

  function Alive(s: State, t: Tid): int
  {
    if t in s.threads then 1 else 0
  }

  function Born(s: State, step: Step, t: Tid): int
  {
    if Creates(s, step, t) then 1 else 0
  }

  function Died(s: State, step: Step, t: Tid): int
  {
    if Dies(s, step, t) then 1 else 0
  }

  ghost predicate Counted(s: State, x: int, t: Tid)
  {
    Inv(s) && x == Alive(s, t)
  }

  lemma CountedStep(s: State, step: Step, s': State, x: int, t: Tid)
    requires Counted(s, x, t) && Moves(s, step, s')
    ensures Counted(s', x + (Born(s, step, t) - Died(s, step, t)), t)
  {
    MovesKeeps(s, step, s');
    BornIff(s, step, s', t);
    if t in s.threads {
      DiesIff(s, step, s', t);
    } else {
      OnlyLiveDie(s, step, t);
    }
  }

  lemma OnlyLiveDie(s: State, step: Step, t: Tid)
    requires Inv(s)
    ensures Dies(s, step, t) ==> t in s.threads
  {
    if Dropped(s, step, t) {
      HeldIsOff(s, step.socket, t);
    }
  }

  /** The ledger of threads over a run: a thread is alive if it was at the start or has been created
      since, and has neither exited nor been dropped; and while alive it is in exactly one of the running slot, the wait
      queue and the sockets. */
  lemma ThreadLedger(states: seq<State>, steps: seq<Step>, t: Tid, n: nat)
    requires KernelRun(states, steps) && n <= |steps|
    ensures Alive(states[n], t) ==
            Alive(states[0], t) + Total((s, e) => Born(s, e, t) - Died(s, e, t), states, steps, 0, n)
    ensures Places(states[n], t) == Alive(states[n], t)
  {
    forall s, e, s', x | Counted(s, x, t) && Moves(s, e, s')
      ensures Counted(s', x + (Born(s, e, t) - Died(s, e, t)), t)
    {
      CountedStep(s, e, s', x, t);
    }
    AsRun(states, steps);
    Tracks(Moves, (s, e) => Born(s, e, t) - Died(s, e, t), (s: State, x: int) => Counted(s, x, t), states, steps, 0, n,
           Alive(states[0], t));
  }

  ghost predicate BornAtMostOnce(s: State, x: int, t: Tid)
  {
    Inv(s) && 0 <= x <= 1 && (x == 1 ==> t <= s.counter)
  }

  /** No thread number is given out twice. */
  lemma NumbersAreNotReused(states: seq<State>, steps: seq<Step>, t: Tid, n: nat)
    requires KernelRun(states, steps) && n <= |steps|
    ensures 0 <= Total((s, e) => Born(s, e, t), states, steps, 0, n) <= 1
  {
    forall s, e, s', x | BornAtMostOnce(s, x, t) && Moves(s, e, s')
      ensures BornAtMostOnce(s', x + Born(s, e, t), t)
    {
      MovesKeeps(s, e, s');
      BornIff(s, e, s', t);
      ThreadsAfter(s, e, t);
    }
    AsRun(states, steps);
    Tracks(Moves, (s, e) => Born(s, e, t), (s: State, x: int) => BornAtMostOnce(s, x, t), states, steps, 0, n, 0);
  }
}
