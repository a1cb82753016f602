/**
 When the kernel is left with nothing to run.
 */
module KernelSafety {
  import opened Options
  import opened Runs
  import opened Threads
  import opened Sockets
  import opened KernelState
  import opened KernelInvariant
  import opened KernelSteps
  import opened KernelIpc
  import opened KernelRegisters
  import opened KernelScheduling

  // ---------------------------------------------------------------------------------------
  // Nothing left to run
  // ---------------------------------------------------------------------------------------

  lemma RedistributedQueue(s: State, me: Tid, o: Outcome)
    requires s.running.None? && !(o.first == Some(me) && o.second == Some(me))
    ensures Redistribute(s, me, o).queue == [] <==>
            s.queue == [] && Front(o.first, Some(me)) + Front(o.second, Some(me)) == 0
  {}

  lemma OnSocketCrash(s: State, me: Tid, context: nat, q: Request)
    requires Inv(s) && !s.crashed && s.running == Some(me) && q.Request? && Caller(q.op) == Some(me)
    requires context == SyscallContext(s.interruptStack)
    ensures var call := RequestedOp(s, me, q);
            OnSocket(s, me, context, q.handle, q.op).crashed <==> Keeps(s, call) && Woken(s, call) == 0 && s.queue == []
  {
    var j := SocketOf(s, me, q.handle);
    if j.Some? {
      var o := Perform(s.sockets[j.value], q.op);
      var done := Conclude(s, me, context, j.value, o);
      RendezvousKeeps(s, me, context, j.value, q.op);
      HandedOnce(s, j.value, q.op, me);
      RedistributedQueue(done, me, o);
      RedistributeFacts(done, me, o);
    }
  }

  lemma RequestCrash(s: State, step: Step, me: Tid)
    requires Inv(s) && Enabled(s, step) && step.Syscall? && s.running == Some(me) && RequestOf(me, step.live).Request?
    ensures Apply(s, step).crashed <==> Blocks(s, step) && Woken(s, OpOf(s, step)) == 0 && s.queue == []
  {
    var at := SyscallContext(s.interruptStack);
    var saved := Saved(s, at, step.live);
    SavedKeeps(s, at, step.live);
    RequestIsOwn(me, step.live);
    DispatchRequest(saved, at, step.live, step.stack, step.kernelStack, me);
    OnSocketCrash(saved, me, at, RequestOf(me, step.live));
  }

  lemma QuietCrash(s: State, step: Step, me: Tid)
    requires Inv(s) && Enabled(s, step) && step.Syscall? && s.running == Some(me) && RequestOf(me, step.live).NoRequest?
    ensures !Apply(s, step).crashed && !Blocks(s, step)
  {
    var at := SyscallContext(s.interruptStack);
    SavedKeeps(s, at, step.live);
    if CallOf(step.live.rax).YieldCall? {
      YieldKeeps(Saved(s, at, step.live), at);
    }
  }

  /** A step crashes the kernel if and only if the running thread blocks, wakes nobody, and nobody
      is queued. */
  lemma CrashesIff(s: State, step: Step, s': State)
    requires Inv(s) && Moves(s, step, s')
    ensures s'.crashed <==> Blocks(s, step) && Woken(s, OpOf(s, step)) == 0 && s.queue == []
  {
    match step
    case Timer(live) =>
      var at := InterruptContext(s.interruptStack);
      SavedKeeps(s, at, live);
      ScheduleKeeps(Saved(s, at, live), at);
    case Keyboard(live, key) =>
      var at := InterruptContext(s.interruptStack);
      SavedKeeps(s, at, live);
      KeyboardKeeps(Saved(s, at, live), at, key);
    case Syscall(live, _, _) =>
      if RequestOf(s.running.value, live).Request? {
        RequestCrash(s, step, s.running.value);
      } else {
        QuietCrash(s, step, s.running.value);
      }
    case _ =>
  }

  /** Not running and not queued: blocked in a socket. */
  ghost predicate Blocked(s: State, t: Tid)
  {
    HeldCount(s.sockets, t) == 1
  }

  lemma BlockedOtherwise(s: State, t: Tid)
    requires Placed(s) && t in s.threads && s.running != Some(t) && s.queue == []
    ensures Blocked(s, t)
  {
    CountPlus([], [], t);
    if s.running.Some? {
      CountOne(s.running.value, t);
    }
    assert Places(s, t) == 1;
  }

  lemma BlocksInCall(s: State, step: Step)
    requires Inv(s) && Blocks(s, step)
    ensures step.Syscall? && s.running.Some? && Calls(s, step, s.running.value)
    ensures RequestOf(s.running.value, step.live).Request?
  {}

  lemma RequestTable(s: State, step: Step, me: Tid)
    requires step.Syscall? && s.running == Some(me) && me in s.threads && RequestOf(me, step.live).Request?
    ensures Apply(s, step).threads.Keys == s.threads.Keys
  {
    var at := SyscallContext(s.interruptStack);
    DispatchRequest(Saved(s, at, step.live), at, step.live, step.stack, step.kernelStack, me);
    OnSocketThreads(Saved(s, at, step.live), me, at, RequestOf(me, step.live));
  }

  lemma WokenNobody(s: State, step: Step, t: Tid)
    requires Inv(s) && Blocks(s, step) && Woken(s, OpOf(s, step)) == 0
    ensures ResultsTo(ResultsOf(s, step), t) == []
  {
    var call := OpOf(s, step);
    var o := Perform(s.sockets[call.socket], call.op);
    ReturnedAreAnswered(s.sockets[call.socket], call.op);
    ResultsToCount(o.results, t);
    assert HandedBack(o) == [];
    CountPlus([], [], t);
  }

  /** The kernel crashes only in a deadlock: every thread there is waits in a socket. */
  lemma CrashIsDeadlock(s: State, step: Step, s': State, t: Tid)
    requires Inv(s) && Moves(s, step, s') && s'.crashed && t in s'.threads
    ensures Blocked(s', t)
  {
    CrashesIff(s, step, s');
    BlocksInCall(s, step);
    RequestTable(s, step, s.running.value);
    WokenNobody(s, step, t);
    HeldAfter(s, step, s', t);
    if s.running == Some(t) {
      RunsElsewhere(s, t);
    } else {
      BlockedOtherwise(s, t);
    }
  }

  /** Alive, and not blocked in a socket. */
  ghost predicate Awake(s: State, t: Tid)
  {
    Inv(s) && !s.crashed && t in s.threads && HeldCount(s.sockets, t) == 0
  }

  /** A call that does not keep its caller answers it at once. */
  lemma AnsweredAtOnce(s: State, step: Step, t: Tid)
    requires Calls(s, step, t) && !Blocks(s, step)
    ensures |ResultsTo(ResultsOf(s, step), t)| >= 1
  {
    OpInRange(s, step);
    var call := OpOf(s, step);
    var o := Perform(s.sockets[call.socket], call.op);
    ReturnedAreAnswered(s.sockets[call.socket], call.op);
    ResultsToCount(o.results, t);
    CountPlus(Ids(o.first), Ids(o.second), t);
    CountOne(t, t);
  }

  /** Running thread t blocks in this step. */
  predicate BlocksAs(s: State, step: Step, t: Tid)
  {
    s.running == Some(t) && Blocks(s, step)
  }

  lemma AwakeStep(s: State, step: Step, s': State, t: Tid)
    requires Awake(s, t) && Moves(s, step, s') && !Exits(s, step, t) && !BlocksAs(s, step, t)
    ensures Awake(s', t)
  {
    MovesKeeps(s, step, s');
    DiesIff(s, step, s', t);
    NotDropped(s, step, t);
    HeldAfter(s, step, s', t);
    if Calls(s, step, t) {
      OpInRange(s, step);
      AnsweredAtOnce(s, step, t);
    }
    if s'.crashed {
      CrashIsDeadlock(s, step, s', t);
    }
  }

  /** One thread that never exits and never blocks keeps the kernel from ever crashing, whatever the
      other threads do. It may use sockets, as long as its calls return at once. */
  lemma IdleThreadPreventsCrash(states: seq<State>, steps: seq<Step>, t: Tid, a: nat, b: nat)
    requires KernelRun(states, steps) && a <= b <= |steps| && Awake(states[a], t)
    requires forall k :: a <= k < b ==> !Exits(states[k], steps[k], t) && !BlocksAs(states[k], steps[k], t)
    ensures !states[b].crashed && t in states[b].threads
  {
    var kind := (s: State, e: Step) => !Exits(s, e, t) && !BlocksAs(s, e, t);
    forall s, e, s' | Awake(s, t) && kind(s, e) && Moves(s, e, s')
      ensures Awake(s', t)
    {
      AwakeStep(s, e, s', t);
    }
    AsRun(states, steps);
    Throughout(Moves, kind, (s: State) => Awake(s, t), states, steps, a, b);
  }
}
