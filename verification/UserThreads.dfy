/**
 The user side of threads: starting one, ending one and yielding, and what the numbers of the calls
 mean.
 */
module UserThreads {
  import opened Options
  import opened Threads
  import opened Sockets
  import opened KernelState
  import opened KernelInvariant
  import opened KernelSteps
  import opened KernelIpc
  import opened KernelRegisters
  import opened KernelScheduling
  import opened UserApi
  import opened Words

  // ---------------------------------------------------------------------------------------
  // Call numbers
  // ---------------------------------------------------------------------------------------

  /** Which call the low byte of the call word selects. */
  lemma CallNumbers(w: Word)
    ensures CallOf(w).ForkCall? <==> w & 0xFF == 0
    ensures CallOf(w).ExitCall? <==> w & 0xFF == 1
    ensures CallOf(w).WriteCall? <==> w & 0xFF == 2
    ensures CallOf(w).ReceiveCall? <==> w & 0xFF == 3
    ensures CallOf(w).SendCall? <==> w & 0xFF == 4
    ensures CallOf(w).SendReceiveCall? <==> w & 0xFF == 5
    ensures CallOf(w).YieldCall? <==> w & 0xFF == 9
  {}

  /** A write, or a call with a number the kernel does not know, changes nothing: the caller goes on
      with the registers it had. */
  lemma OtherCallsIdle(s: State, step: Step, s': State)
    requires Moves(s, step, s') && step.Syscall?
    requires var n := step.live.rax & 0xFF; n == 2 || (n > 5 && n != 9)
    ensures s' == s.(frames := s.frames[SyscallContext(s.interruptStack) := step.live])
  {
    CallNumbers(step.live.rax);
  }

  // ---------------------------------------------------------------------------------------
  // What the library's functions do
  // ---------------------------------------------------------------------------------------

  /** Registers of a library call, over whatever else the thread has in its registers. */
  function SpawnRegs(r: Regs): Regs
  {
    r.(rax := 0)
  }

  function ExitRegs(r: Regs): Regs
  {
    r.(rax := 1)
  }

  function YieldRegs(r: Regs): Regs
  {
    r.(rax := 9)
  }

  /** What `thread_spawn` makes of the registers its call comes back with. */
  function SpawnResult(r: Regs): ApiResult<Word>
  {
    if r.rax != 0 then Err(r.rax) else Ok(r.rdi)
  }

  /** The registers of the caller after a step it goes on running through. */
  function AfterCall(s: State, s': State): Regs
  {
    RegsAt(s'.frames, SyscallContext(s.interruptStack))
  }

  /** `thread_spawn` returns the number of a new thread of the same process, which is the child's below
      2^64; or, when no user stack was found, error 9, and nothing else has happened. */
  lemma SpawnReturns(s: State, step: Step, s': State, me: Tid, r: Regs)
    requires Inv(s) && Moves(s, step, s') && step.Syscall? && s.running == Some(me) && step.live == SpawnRegs(r)
    ensures s'.running == Some(me) && s'.sockets == s.sockets
    ensures if step.stack.None?
            then SpawnResult(AfterCall(s, s')) == Err(9) && s'.threads == s.threads && s'.queue == s.queue
            else
              && SpawnResult(AfterCall(s, s')).Ok?
              && Number(SpawnResult(AfterCall(s, s')).value) == (s.counter + 2) % WORD_SIZE
              && s.counter + 2 !in s.threads && s.counter + 2 in s'.threads && s'.queue == s.queue + [s.counter + 2]
              && Sibling(s.threads[me], s'.threads[s.counter + 2], step.kernelStack, step.stack.value)
  {
    CallNumbers(0);
    if step.stack.Some? {
      ForkMakesSibling(s, step, s', me);
      WordIsNumber(s.counter + 2);
    } else {
      FailedFork(Saved(s, SyscallContext(s.interruptStack), step.live), SyscallContext(s.interruptStack),
                 step.kernelStack, me);
    }
  }

  lemma FailedFork(s: State, context: nat, kernelStack: nat, me: Tid)
    requires s.running == Some(me)
    ensures Fork(s, context, None, kernelStack) ==
            s.(counter := s.counter + 1, frames := s.frames[context := RegsAt(s.frames, context).(rax := 9)])
  {}

  /** Whatever number of threads a run spawns below 2^64, no two spawns return the same number. */
  lemma SpawnsDiffer(states: seq<State>, steps: seq<Step>, a: nat, b: nat)
    requires KernelRun(states, steps) && a < b < |steps| && Forks(steps[a]) && Forks(steps[b])
    requires states[b].counter + 2 < WORD_SIZE
    ensures AfterCall(states[a], states[a + 1]).rdi != AfterCall(states[b], states[b + 1]).rdi
  {
    ToldInRun(states, steps, a);
    ToldInRun(states, steps, b);
    CounterGrows(states, steps, a + 1, b);
    DifferentWords(states[a].counter + 2, states[b].counter + 2);
  }

  lemma DifferentWords(m: nat, n: nat)
    requires m < n < WORD_SIZE
    ensures AsWord(m) != AsWord(n)
  {
    WordIsNumber(m);
    WordIsNumber(n);
  }

  lemma ToldInRun(states: seq<State>, steps: seq<Step>, k: nat)
    requires KernelRun(states, steps) && k < |steps| && Forks(steps[k])
    ensures AfterCall(states[k], states[k + 1]).rdi == AsWord(states[k].counter + 2)
    ensures states[k + 1].counter == states[k].counter + 2
  {
    RunInv(states, steps, k);
    assert StepAt(states, steps, k);
    ForkMakesSibling(states[k], steps[k], states[k + 1], states[k].running.value);
  }

  lemma {:induction false} CounterGrows(states: seq<State>, steps: seq<Step>, a: nat, b: nat)
    requires KernelRun(states, steps) && a <= b <= |steps|
    ensures states[a].counter <= states[b].counter
    decreases b
  {
    if a < b {
      var c := b - 1;
      CounterGrows(states, steps, a, c);
      GrowsInRun(states, steps, c);
    }
  }

  lemma GrowsInRun(states: seq<State>, steps: seq<Step>, k: nat)
    requires KernelRun(states, steps) && k < |steps|
    ensures states[k].counter <= states[k + 1].counter
  {
    RunInv(states, steps, k);
    assert StepAt(states, steps, k);
    ThreadsAfter(states[k], steps[k], 0);
  }

  /** A spawned thread starts with the spawner's registers, its own stack pointer, and a zero number, by
      which the library tells it from the spawner. */
  lemma SpawnedStarts(states: seq<State>, steps: seq<Step>, child: Tid, a: nat, b: nat, r: Regs)
    requires KernelRun(states, steps) && a < b < |states| && steps[a].Syscall? && steps[a].live == SpawnRegs(r)
    requires steps[a].stack.Some? && child == states[a].counter + 2 && Away(states, child, a + 1, b)
    ensures var start := Launched(states[b]);
            && start == r.(rax := 0, rdi := 0, rsp := start.rsp)
            && Number(start.rsp) == steps[a].stack.value % WORD_SIZE
  {
    CallNumbers(0);
    ForkedChildStarts(states, steps, child, a, b);
    ForkNumbers(steps[a].live, steps[a].stack.value, child);
  }

  /** `thread_exit` ends the thread. */
  lemma ExitEnds(s: State, step: Step, s': State, me: Tid, r: Regs)
    requires Inv(s) && Moves(s, step, s') && step.Syscall? && s.running == Some(me) && step.live == ExitRegs(r)
    ensures me !in s'.threads && s'.running == None
  {
    CallNumbers(1);
    DiesIff(s, step, s', me);
  }

  /** `thread_yield` lets the front of the queue run, and returns with the registers it was called with. */
  lemma YieldReturns(states: seq<State>, steps: seq<Step>, t: Tid, a: nat, b: nat, r: Regs)
    requires KernelRun(states, steps) && a < b < |states| && steps[a].Syscall? && steps[a].live == YieldRegs(r)
    requires states[a].running == Some(t) && Away(states, t, a + 1, b)
    ensures Launched(states[b]) == YieldRegs(r)
    ensures states[a].queue != [] ==> states[a + 1].running == Some(states[a].queue[0])
  {
    CallNumbers(9);
    PreemptionIsTransparent(states, steps, t, a, b);
    if states[a].queue != [] {
      YieldsInRun(states, steps, a);
    }
  }

  lemma YieldsInRun(states: seq<State>, steps: seq<Step>, k: nat)
    requires KernelRun(states, steps) && k < |steps| && Yields(steps[k]) && states[k].queue != []
    ensures states[k + 1].running == Some(states[k].queue[0])
  {
    RunInv(states, steps, k);
    assert StepAt(states, steps, k);
    QueueMoves(states[k], steps[k], states[k + 1], 0);
  }

  // ---------------------------------------------------------------------------------------
  // Keys
  // ---------------------------------------------------------------------------------------

  /** A thread that waits for a key runs next, with the key as its message. */
  lemma KeyReaches(s: State, step: Step, s': State, t: Tid, key: Word)
    requires Inv(s) && Moves(s, step, s') && step.Keyboard? && step.key == Some(key)
    requires s.sockets[KEYBOARD_SOCKET] == Receiving(t, None)
    ensures s'.running == Some(t) && s'.sockets == s.sockets[KEYBOARD_SOCKET := Empty]
    ensures t in s.threads && Launched(s') == RegistersOf(s, t).(rax := 0, rdi := 0, rsi := key, rdx := 0)
  {
    var at := InterruptContext(s.interruptStack);
    HeldIsOff(s, KEYBOARD_SOCKET, t);
    SocketsAfter(s, step);
    SuspendedThroughStep(s, step, s', t);
    KeySelects(Saved(s, at, step.live), at, key, t);
    KeyAnswer(RegistersOf(s, t), t, key);
  }

  lemma KeySelects(s: State, context: nat, key: Word, t: Tid)
    requires |s.sockets| > KEYBOARD_SOCKET && s.sockets[KEYBOARD_SOCKET] == Receiving(t, None)
    ensures KeyboardInterrupt(s, context, Some(key)).running == Some(t)
  {}

  lemma KeyAnswer(r: Regs, t: Tid, key: Word)
    ensures AnswerAll(r, ResultsTo([Data(t, Packet(0, key, 0))], t)) == r.(rax := 0, rdi := 0, rsi := key, rdx := 0)
  {
    var ws := [Data(t, Packet(0, key, 0))];
    assert ws[..0] == [];
    assert ResultsTo(ws, t) == ws;
    AnswerSingle(r, ws);
  }
}
