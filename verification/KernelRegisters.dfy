/**
 What happens to the saved registers of a thread while it is off the CPU: preemption is transparent,
 and a call that blocks returns with exactly one result.
 */
module KernelRegisters {
  import opened Options
  import opened Runs
  import opened Threads
  import opened Sockets
  import opened KernelState
  import opened KernelInvariant
  import opened KernelSteps
  import opened KernelIpc
  import opened Words

  // ---------------------------------------------------------------------------------------
  // Results addressed to one thread
  // ---------------------------------------------------------------------------------------

  function ResultsTo(ws: seq<Result>, t: Tid): seq<Result>
  {
    if ws == [] then []
    else ResultsTo(ws[..|ws| - 1], t) + if ws[|ws| - 1].to == t then [ws[|ws| - 1]] else []
  }

  function AnswerAll(r: Regs, ws: seq<Result>): Regs
  {
    if ws == [] then r else Answer(AnswerAll(r, ws[..|ws| - 1]), ws[|ws| - 1])
  }

  lemma {:induction false} AnswerAllPlus(r: Regs, a: seq<Result>, b: seq<Result>)
    ensures AnswerAll(r, a + b) == AnswerAll(AnswerAll(r, a), b)
  {
    if b == [] {
      assert a + b == a;
    } else {
      var n := |b| - 1;
      assert (a + b)[..|a + b| - 1] == a + b[..n];
      AnswerAllPlus(r, a, b[..n]);
    }
  }

  lemma {:induction false} ResultsToCount(ws: seq<Result>, t: Tid)
    ensures |ResultsTo(ws, t)| == Count(Addressees(ws), t)
  {
    CountPlus([], [], t);
    if ws != [] {
      var n := |ws| - 1;
      ResultsToCount(ws[..n], t);
      CountPlus(Addressees(ws[..n]), [ws[n].to], t);
      CountOne(ws[n].to, t);
    }
  }

  /** Saved contexts of different threads are at different addresses. */
  lemma ContextsDiffer(threads: map<Tid, Thread>, t: Tid, u: Tid)
    requires Stacks(threads) && t in threads && u in threads && t != u
    ensures threads[t].context != threads[u].context
  {
    assert Apart(threads[t].kernelStackEnd, threads[u].kernelStackEnd);
  }

  /** Writing results changes a thread's saved registers by the results addressed to it. */
  lemma {:induction false} WrittenTo(frames: Contexts, threads: map<Tid, Thread>, ws: seq<Result>, t: Tid)
    requires Stacks(threads) && t in threads
    requires forall w <- ws :: w.to in threads
    ensures RegsAt(WriteResults(frames, threads, ws), threads[t].context) ==
            AnswerAll(RegsAt(frames, threads[t].context), ResultsTo(ws, t))
  {
    if ws != [] {
      var n := |ws| - 1;
      var w := ws[n];
      WrittenTo(frames, threads, ws[..n], t);
      assert w.to in threads;
      if w.to == t {
        AnswerAllPlus(RegsAt(frames, threads[t].context), ResultsTo(ws[..n], t), [w]);
        assert [w][..0] == [];
      } else {
        ContextsDiffer(threads, t, w.to);
        assert ResultsTo(ws[..n], t) + [] == ResultsTo(ws[..n], t);
      }
    }
  }

  lemma {:induction false} AddresseesCover(ws: seq<Result>, i: nat)
    requires i < |ws|
    ensures ws[i].to in Addressees(ws)
  {
    var n := |ws| - 1;
    if i < n {
      AddresseesCover(ws[..n], i);
    }
  }

  /** Whom a socket operation writes to: threads it held, and its caller. */
  lemma WrittenAreKnown(s: Socket, op: Op, w: Result)
    requires w in Perform(s, op).results
    ensures w.to in Held(s) || Some(w.to) == Caller(op)
  {
    var o := Perform(s, op);
    var i :| 0 <= i < |o.results| && o.results[i] == w;
    AddresseesCover(o.results, i);
    ReturnedAreAnswered(s, op);
    OutcomeCounts(s, op, w.to);
    CountPlus(Ids(o.first), Ids(o.second), w.to);
    CountPlus(Held(s), Ids(Caller(op)), w.to);
    CountPlus(Ids(Caller(op)), [], w.to);
  }

  lemma HeldAtLeast(sockets: seq<Socket>, j: nat, t: Tid)
    requires j < |sockets|
    ensures HeldCount(sockets, t) >= Count(Held(sockets[j]), t)
  {
    ReplaceHeld(sockets, j, Empty, t);
    CountPlus([], [], t);
  }

  lemma HeldIsLive(s: State, j: nat, t: Tid)
    requires Placed(s) && j < |s.sockets| && t in Held(s.sockets[j])
    ensures t in s.threads
  {
    HeldAtLeast(s.sockets, j, t);
    CountPlus(Held(s.sockets[j]), [], t);
    assert Places(s, t) > 0;
  }

  lemma WrittenAreLive(s: State, j: nat, op: Op)
    requires Placed(s) && j < |s.sockets| && (Caller(op).Some? ==> Caller(op).value in s.threads)
    ensures forall w <- Perform(s.sockets[j], op).results :: w.to in s.threads
  {
    forall w | w in Perform(s.sockets[j], op).results
      ensures w.to in s.threads
    {
      WrittenAreKnown(s.sockets[j], op, w);
      if w.to in Held(s.sockets[j]) {
        HeldIsLive(s, j, w.to);
      }
    }
  }

  // ---------------------------------------------------------------------------------------
  // One step
  // ---------------------------------------------------------------------------------------

  /** A thread's saved registers. */
  function RegistersOf(s: State, t: Tid): Regs
  {
    RegsAt(s.frames, ContextOf(s.threads, t))
  }

  lemma RendezvousTable(s: State, me: Tid, context: nat, j: nat, op: Op)
    requires j < |s.sockets| && s.running == Some(me)
    ensures Rendezvous(s, me, context, j, op).threads == SetContext(s, me, context).threads
  {
    var o := Perform(s.sockets[j], op);
    RedistributeFacts(Conclude(s, me, context, j, o), me, o);
  }

  /** A socket operation of the running thread, seen from any thread. */
  lemma RendezvousRegisters(s: State, me: Tid, context: nat, j: nat, op: Op, t: Tid)
    requires Inv(s) && s.running == Some(me) && Caller(op) == Some(me) && t in s.threads
    requires j < |s.sockets| && context == SyscallContext(s.interruptStack)
    ensures var s' := Rendezvous(s, me, context, j, op);
            && s'.threads == SetContext(s, me, context).threads
            && RegistersOf(s', t) ==
               AnswerAll(RegsAt(s.frames, if t == me then context else s.threads[t].context),
                         ResultsTo(Perform(s.sockets[j], op).results, t))
  {
    RendezvousTable(s, me, context, j, op);
    RendezvousSockets(s, me, context, j, op);
    SetContextCore(s, me, context);
    WrittenAreLive(s, j, op);
    WrittenTo(s.frames, SetContext(s, me, context).threads, Perform(s.sockets[j], op).results, t);
  }

  /** A message without a sender, seen from any thread. */
  lemma DeliverRegisters(s: State, j: nat, m: Message, t: Tid)
    requires Inv(s) && t in s.threads && j < |s.sockets|
    ensures RegistersOf(Deliver(s, j, m), t) ==
            AnswerAll(RegistersOf(s, t), ResultsTo(SendMessage(s.sockets[j], None, m).results, t))
  {
    WrittenAreLive(s, j, Send(None, m));
    WrittenTo(s.frames, s.threads, Perform(s.sockets[j], Send(None, m)).results, t);
  }

  /** The interrupted code's registers are not saved over those of a thread that is off the CPU. */
  lemma ForeignContext(s: State, t: Tid)
    requires Inv(s) && !s.crashed && t in s.threads && s.running != Some(t)
    ensures InterruptContext(s.interruptStack) != s.threads[t].context
    ensures SyscallContext(s.interruptStack) != s.threads[t].context
  {
    assert OwnContext(s.threads[t]);
    if s.running.Some? {
      assert Apart(s.threads[s.running.value].kernelStackEnd, s.threads[t].kernelStackEnd);
    } else {
      assert Apart(s.interruptStack, s.threads[t].kernelStackEnd);
    }
  }

  /** The record is as it was, and the saved registers have been written by `ws`. */
  ghost predicate Suspended(s: State, s': State, t: Tid, ws: seq<Result>)
  {
    && t in s.threads && t in s'.threads && s'.threads[t] == s.threads[t]
    && RegistersOf(s', t) == AnswerAll(RegistersOf(s, t), ResultsTo(ws, t))
  }

  lemma ScheduleSuspends(s: State, context: nat, t: Tid)
    requires t in s.threads && s.running != Some(t)
    ensures Suspended(s, Schedule(s, context), t, []) && Suspended(s, Launch(Schedule(s, context)), t, [])
  {}

  /** Readying the threads a key press woke, and switching to one of them, leaves t's record alone. */
  lemma WakesOthers(s: State, context: nat, first: Option<Tid>, second: Option<Tid>, t: Tid)
    requires t in s.threads && s.running != Some(t)
    ensures var ready := Ready(Ready(s, second), first);
            var s' := if first.Some? then Schedule(ready, context) else ready;
            t in s'.threads && s'.threads[t] == s.threads[t] && s'.frames == s.frames
  {}

  lemma KeyboardSuspends(s: State, context: nat, key: Option<Word>, t: Tid)
    requires Inv(s) && t in s.threads && s.running != Some(t)
    ensures if key.None? then Suspended(s, KeyboardInterrupt(s, context, key), t, [])
            else
              var m := Packet(MESSAGE_TYPE_KEY, key.value, 0);
              var o := SendMessage(s.sockets[KEYBOARD_SOCKET], None, m);
              Suspended(s, KeyboardInterrupt(s, context, key), t, o.results)
  {
    if key.Some? {
      var m := Packet(MESSAGE_TYPE_KEY, key.value, 0);
      var o := SendMessage(s.sockets[KEYBOARD_SOCKET], None, m);
      DeliverRegisters(s, KEYBOARD_SOCKET, m, t);
      WakesOthers(Deliver(s, KEYBOARD_SOCKET, m), context, o.first, o.second, t);
    }
  }

  lemma ForkSuspends(s: State, context: nat, stack: Option<nat>, kernelStack: nat, t: Tid)
    requires Inv(s) && !s.crashed && s.running.Some? && FreeStack(s.threads, kernelStack)
    requires t in s.threads && s.running != Some(t) && context == SyscallContext(s.interruptStack)
    ensures Suspended(s, Fork(s, context, stack, kernelStack), t, [])
  {
    ForeignContext(s, t);
    assert Apart(kernelStack, s.threads[t].kernelStackEnd);
    assert OwnContext(s.threads[t]);
    assert 0 < t <= s.counter;
  }

  lemma RendezvousSuspends(s: State, me: Tid, context: nat, j: nat, op: Op, t: Tid)
    requires Inv(s) && s.running == Some(me) && Caller(op) == Some(me)
    requires t in s.threads && t != me
    requires j < |s.sockets| && context == SyscallContext(s.interruptStack)
    ensures Suspended(s, Rendezvous(s, me, context, j, op), t, Perform(s.sockets[j], op).results)
  {
    RendezvousRegisters(s, me, context, j, op, t);
  }

  lemma InvalidHandleSuspends(s: State, me: Tid, context: nat, t: Tid)
    requires Inv(s) && !s.crashed && s.running == Some(me) && context == SyscallContext(s.interruptStack)
    requires t in s.threads && t != me
    ensures Suspended(s, InvalidHandle(s, me, context), t, [])
  {
    ForeignContext(s, t);
  }

  lemma QuietCallSuspends(s: State, context: nat, live: Regs, stack: Option<nat>, kernelStack: nat, t: Tid)
    requires Inv(s) && !s.crashed && s.running.Some? && FreeStack(s.threads, kernelStack)
    requires t in s.threads && s.running != Some(t) && context == SyscallContext(s.interruptStack)
    requires RequestOf(s.running.value, live).NoRequest?
    ensures Suspended(s, Dispatch(s, context, live, stack, kernelStack), t, [])
  {
    match CallOf(live.rax)
    case ForkCall => ForkSuspends(s, context, stack, kernelStack, t);
    case YieldCall => ScheduleSuspends(s, context, t);
    case _ =>
  }

  lemma OnSocketSuspends(s: State, me: Tid, context: nat, q: Request, t: Tid)
    requires Inv(s) && !s.crashed && s.running == Some(me) && context == SyscallContext(s.interruptStack)
    requires q.Request? && Caller(q.op) == Some(me) && t in s.threads && t != me
    ensures Suspended(s, OnSocket(s, me, context, q.handle, q.op), t, CallResults(s, RequestedOp(s, me, q)))
  {
    var j := SocketOf(s, me, q.handle);
    if j.Some? {
      RendezvousSuspends(s, me, context, j.value, q.op, t);
    } else {
      InvalidHandleSuspends(s, me, context, t);
    }
  }

  lemma SavedSuspends(s: State, at: nat, live: Regs, t: Tid)
    requires Inv(s) && !s.crashed && t in s.threads && s.running != Some(t)
    requires at == InterruptContext(s.interruptStack) || at == SyscallContext(s.interruptStack)
    ensures Inv(Saved(s, at, live)) && RegistersOf(Saved(s, at, live), t) == RegistersOf(s, t)
  {
    SavedKeeps(s, at, live);
    ForeignContext(s, t);
  }

  lemma TimerStepSuspends(s: State, live: Regs, t: Tid)
    requires Inv(s) && !s.crashed && t in s.threads && s.running != Some(t)
    ensures Suspended(s, Apply(s, Timer(live)), t, [])
  {
    var at := InterruptContext(s.interruptStack);
    SavedSuspends(s, at, live, t);
    ScheduleSuspends(Saved(s, at, live), at, t);
  }

  lemma KeyboardStepSuspends(s: State, live: Regs, key: Option<Word>, t: Tid)
    requires Inv(s) && !s.crashed && t in s.threads && s.running != Some(t)
    ensures Suspended(s, Apply(s, Keyboard(live, key)), t, ResultsOf(s, Keyboard(live, key)))
  {
    var at := InterruptContext(s.interruptStack);
    SavedSuspends(s, at, live, t);
    KeyboardSuspends(Saved(s, at, live), at, key, t);
  }

  lemma AskedSuspends(s: State, live: Regs, me: Tid, q: Request, t: Tid)
    requires Inv(s) && !s.crashed && s.running == Some(me) && t in s.threads && me != t
    requires q.Request? && Caller(q.op) == Some(me)
    ensures var at := SyscallContext(s.interruptStack);
            Suspended(s, OnSocket(Saved(s, at, live), me, at, q.handle, q.op), t, CallResults(s, RequestedOp(s, me, q)))
  {
    var at := SyscallContext(s.interruptStack);
    SavedSuspends(s, at, live, t);
    OnSocketSuspends(Saved(s, at, live), me, at, q, t);
  }

  lemma RequestStepSuspends(s: State, step: Step, me: Tid, t: Tid)
    requires Inv(s) && Enabled(s, step) && step.Syscall? && s.running == Some(me) && t in s.threads && me != t
    requires RequestOf(me, step.live).Request?
    ensures Suspended(s, Apply(s, step), t, ResultsOf(s, step))
  {
    var at := SyscallContext(s.interruptStack);
    RequestIsOwn(me, step.live);
    AskedSuspends(s, step.live, me, RequestOf(me, step.live), t);
    DispatchRequest(Saved(s, at, step.live), at, step.live, step.stack, step.kernelStack, me);
  }

  lemma QuietStepSuspends(s: State, step: Step, me: Tid, t: Tid)
    requires Inv(s) && Enabled(s, step) && step.Syscall? && s.running == Some(me) && t in s.threads && me != t
    requires RequestOf(me, step.live).NoRequest?
    ensures Suspended(s, Apply(s, step), t, ResultsOf(s, step))
  {
    var at := SyscallContext(s.interruptStack);
    SavedSuspends(s, at, step.live, t);
    QuietCallSuspends(Saved(s, at, step.live), at, step.live, step.stack, step.kernelStack, t);
  }

  lemma PostSuspends(s: State, j: nat, m: Message, t: Tid)
    requires Inv(s) && t in s.threads && j < |s.sockets| && s.sockets[j] != Receiving(t, None)
    ensures Suspended(s, Post(s, j, m), t, SendMessage(s.sockets[j], None, m).results)
  {
    AnonymousOutcome(s.sockets[j], m);
    DeliverRegisters(s, j, m, t);
  }

  /** Whatever step happens while a thread is off the CPU, unless it is dropped, its record stays and
      its saved registers change only by results a socket wrote for it. */
  lemma SuspendedThroughStep(s: State, step: Step, s': State, t: Tid)
    requires Inv(s) && Moves(s, step, s') && t in s.threads && s.running != Some(t) && !Dropped(s, step, t)
    ensures Suspended(s, s', t, ResultsOf(s, step))
  {
    match step
    case Timer(live) => TimerStepSuspends(s, live, t);
    case Keyboard(live, key) => KeyboardStepSuspends(s, live, key, t);
    case Syscall(live, _, _) =>
      var me := s.running.value;
      if RequestOf(me, live).Request? {
        RequestStepSuspends(s, step, me, t);
      } else {
        QuietStepSuspends(s, step, me, t);
      }
    case PostMessage(j, m) => PostSuspends(s, j, m, t);
    case _ => assert 0 < t <= s.counter;
  }

  /** A thread a socket holds is released by exactly one result, and only threads it holds and the
      caller get one. */
  lemma HeldAfter(s: State, step: Step, s': State, t: Tid)
    requires Inv(s) && Moves(s, step, s')
    ensures HeldCount(s'.sockets, t) + |ResultsTo(ResultsOf(s, step), t)| ==
            HeldCount(s.sockets, t) + if Calls(s, step, t) then 1 else 0
  {
    SocketsAfter(s, step);
    AppendHeld(s.sockets, t);
    ResultsToCount(ResultsOf(s, step), t);
    CountPlus([], [], t);
    var call := OpOf(s, step);
    if call.SocketCall? {
      var o := Perform(s.sockets[call.socket], call.op);
      ReplaceHeld(s.sockets, call.socket, o.socket, t);
      OutcomeCounts(s.sockets[call.socket], call.op, t);
      ReturnedAreAnswered(s.sockets[call.socket], call.op);
      CountPlus(Ids(o.first), Ids(o.second), t);
      CountCaller(call.op, t);
    } else {
      assert s.sockets + [] == s.sockets;
    }
  }

  lemma CountCaller(op: Op, t: Tid)
    ensures Count(Ids(Caller(op)), t) == if Caller(op) == Some(t) then 1 else 0
  {
    CountPlus([], [], t);
    if Caller(op).Some? {
      CountOne(Caller(op).value, t);
    }
  }

  /** Thread t performs a socket operation in this step. */
  predicate Calls(s: State, step: Step, t: Tid)
  {
    OpOf(s, step).SocketCall? && Caller(OpOf(s, step).op) == Some(t)
  }

  // ---------------------------------------------------------------------------------------
  // Runs
  // ---------------------------------------------------------------------------------------

  /** Thread t left the CPU with registers `live`; `results` is what has been written for it since,
      and `due` results are written before it can run again. */
  ghost predicate OffCpu(s: State, t: Tid, live: Regs, due: nat, results: seq<Result>)
  {
    && Inv(s) && t in s.threads
    && RegistersOf(s, t) == AnswerAll(live, results)
    && HeldCount(s.sockets, t) + |results| == due
  }

  lemma OffCpuStep(s: State, step: Step, s': State, t: Tid, live: Regs, due: nat, results: seq<Result>)
    requires OffCpu(s, t, live, due, results) && s.running != Some(t) && Moves(s, step, s') && t in s'.threads
    ensures OffCpu(s', t, live, due, results + ResultsTo(ResultsOf(s, step), t))
  {
    MovesKeeps(s, step, s');
    DroppedIsGone(s, step, t);
    SuspendedThroughStep(s, step, s', t);
    HeldAfter(s, step, s', t);
    OpInRange(s, step);
    AnswerAllPlus(live, results, ResultsTo(ResultsOf(s, step), t));
  }

  lemma DroppedIsGone(s: State, step: Step, t: Tid)
    ensures Dropped(s, step, t) ==> t !in Apply(s, step).threads
  {}

  /** As above, unless the thread has been dropped. */
  ghost predicate OffCpuOrGone(s: State, t: Tid, live: Regs, due: nat, results: seq<Result>)
  {
    Inv(s) && t <= s.counter && (t in s.threads ==> OffCpu(s, t, live, due, results))
  }

  lemma OffCpuOrGoneStep(s: State, step: Step, s': State, t: Tid, live: Regs, due: nat, results: seq<Result>)
    requires OffCpuOrGone(s, t, live, due, results) && s.running != Some(t) && Moves(s, step, s')
    ensures OffCpuOrGone(s', t, live, due, results + ResultsTo(ResultsOf(s, step), t))
  {
    MovesKeeps(s, step, s');
    ThreadsAfter(s, step, t);
    if t in s'.threads {
      OffCpuStep(s, step, s', t, live, due, results);
    }
  }

  /** The thread is off the CPU from state a until it runs in state b. */
  ghost predicate Away(states: seq<State>, t: Tid, a: nat, b: nat)
  {
    && a <= b < |states|
    && (forall k :: a <= k < b ==> states[k].running != Some(t))
    && states[b].running == Some(t)
  }

  /** The registers the CPU is loaded with: those at the address `schedule` answers. */
  function Launched(s: State): Regs
  {
    RegsAt(s.frames, NextContext(s))
  }

  /** The results written for t from state a up to state b. */
  ghost function ResultsOver(states: seq<State>, steps: seq<Step>, t: Tid, a: nat, b: nat): seq<Result>
    requires a <= b <= |steps| <= |states|
  {
    Output((s, e) => ResultsTo(ResultsOf(s, e), t), states, steps, a, b)
  }

  lemma ReturnsWith(states: seq<State>, steps: seq<Step>, t: Tid, a: nat, b: nat, live: Regs, due: nat,
                    first: seq<Result>)
    requires KernelRun(states, steps) && Away(states, t, a, b) && OffCpu(states[a], t, live, due, first)
    ensures var results := first + ResultsOver(states, steps, t, a, b);
            |results| == due && RegistersOf(states[b], t) == AnswerAll(live, results)
    ensures Launched(states[b]) == RegistersOf(states[b], t)
  {
    var kind := (s: State, e: Step) => s.running != Some(t);
    var written := (s: State, e: Step) => ResultsTo(ResultsOf(s, e), t);
    var inv := (s: State, out: seq<Result>) => OffCpuOrGone(s, t, live, due, out);
    assert 0 < t <= states[a].counter;
    forall s, e, s', out | OffCpuOrGone(s, t, live, due, out) && kind(s, e) && Moves(s, e, s')
      ensures OffCpuOrGone(s', t, live, due, out + written(s, e))
    {
      OffCpuOrGoneStep(s, e, s', t, live, due, out);
    }
    AsRun(states, steps);
    Accumulates(Moves, kind, written, inv, states, steps, a, b, first);
    assert OffCpuOrGone(states[b], t, live, due, first + ResultsOver(states, steps, t, a, b));
    RunsElsewhere(states[b], t);
  }

  lemma RunsElsewhere(s: State, t: Tid)
    requires Placed(s) && (s.running == Some(t) || t !in s.threads)
    ensures HeldCount(s.sockets, t) == 0
  {
    CountOne(t, t);
    assert Places(s, t) <= 1;
  }

  /** The step takes the CPU from running thread t without doing anything for it: a timer tick, a key
      press that wakes another thread, or a yield. */
  predicate Displaces(s: State, step: Step, s': State, t: Tid)
  {
    && s.running == Some(t)
    && (step.Timer? || (step.Keyboard? && s'.running != Some(t)) || (step.Syscall? && CallOf(step.live.rax).YieldCall?))
  }

  lemma ScheduleParks(s: State, context: nat, t: Tid)
    requires Inv(s) && s.running == Some(t)
    ensures RegistersOf(Schedule(s, context), t) == RegsAt(s.frames, context)
    ensures RegistersOf(Launch(Schedule(s, context)), t) == RegsAt(s.frames, context)
  {}

  /** The key's message is written for the woken thread, not over the interrupted thread's registers. */
  lemma KeyboardParks(s: State, context: nat, key: Option<Word>, t: Tid)
    requires Inv(s) && !s.crashed && s.running == Some(t) && context == InterruptContext(s.interruptStack)
    requires KeyboardInterrupt(s, context, key).running != Some(t)
    ensures RegistersOf(KeyboardInterrupt(s, context, key), t) == RegsAt(s.frames, context)
  {
    var m := Packet(MESSAGE_TYPE_KEY, key.value, 0);
    var socket := s.sockets[KEYBOARD_SOCKET];
    AnonymousOutcome(socket, m);
    var r := socket.receiver;
    HeldIsLive(s, KEYBOARD_SOCKET, r);
    WriteOne(s.frames, s.threads, [], Data(r, m));
    if r == t {
      RunsElsewhere(s, t);
      HeldAtLeast(s.sockets, KEYBOARD_SOCKET, t);
      CountOne(t, t);
      assert false;
    }
    ForeignContext(s, r);
  }

  lemma InterruptDisplaces(s: State, step: Step, s': State, t: Tid)
    requires Inv(s) && Moves(s, step, s') && Displaces(s, step, s', t) && !step.Syscall?
    ensures t in s'.threads && RegistersOf(s', t) == step.live
  {
    var at := InterruptContext(s.interruptStack);
    var saved := Saved(s, at, step.live);
    SavedKeeps(s, at, step.live);
    if step.Keyboard? {
      KeyboardParks(saved, at, step.key, t);
      KeyboardThreads(saved, at, step.key);
    } else {
      ScheduleParks(saved, at, t);
      ScheduleThreads(saved, at);
    }
  }

  lemma YieldDisplaces(s: State, step: Step, s': State, t: Tid)
    requires Inv(s) && Moves(s, step, s') && Displaces(s, step, s', t) && step.Syscall?
    ensures t in s'.threads && RegistersOf(s', t) == step.live
  {
    var at := SyscallContext(s.interruptStack);
    YieldedRegisters(s, at, step.live, t);
    assert s' == Launch(Schedule(Saved(s, at, step.live), at));
  }

  lemma YieldedRegisters(s: State, at: nat, live: Regs, t: Tid)
    requires Inv(s) && !s.crashed && s.running == Some(t) && at == SyscallContext(s.interruptStack)
    ensures var s' := Launch(Schedule(Saved(s, at, live), at));
            t in s'.threads && RegistersOf(s', t) == live
  {
    SavedKeeps(s, at, live);
    ScheduleParks(Saved(s, at, live), at, t);
    ScheduleThreads(Saved(s, at, live), at);
  }

  lemma StaysUnheld(s: State, step: Step, s': State, t: Tid)
    requires Inv(s) && Moves(s, step, s') && s.running == Some(t) && !Calls(s, step, t)
    ensures HeldCount(s'.sockets, t) == 0
  {
    HeldAfter(s, step, s', t);
    RunsElsewhere(s, t);
  }

  lemma DisplacedOffCpu(s: State, step: Step, s': State, t: Tid)
    requires Inv(s) && Moves(s, step, s') && Displaces(s, step, s', t)
    ensures OffCpu(s', t, step.live, 0, [])
  {
    MovesKeeps(s, step, s');
    StaysUnheld(s, step, s', t);
    if step.Syscall? {
      YieldDisplaces(s, step, s', t);
    } else {
      InterruptDisplaces(s, step, s', t);
    }
  }

  /** Preemption is transparent: a thread displaced by a timer tick, by a key press that wakes another
      thread, or by its own yield next runs with exactly the registers it had, whatever happened in
      between. */
  lemma PreemptionIsTransparent(states: seq<State>, steps: seq<Step>, t: Tid, a: nat, b: nat)
    requires KernelRun(states, steps) && a < b < |states|
    requires Displaces(states[a], steps[a], states[a + 1], t) && Away(states, t, a + 1, b)
    ensures RegistersOf(states[b], t) == steps[a].live
    ensures Launched(states[b]) == steps[a].live
    ensures ResultsOver(states, steps, t, a + 1, b) == []
  {
    RunInv(states, steps, a);
    assert StepAt(states, steps, a);
    DisplacedOffCpu(states[a], steps[a], states[a + 1], t);
    ReturnsWith(states, steps, t, a + 1, b, steps[a].live, 0, []);
  }

  lemma CallRegisters(s: State, step: Step, s': State, t: Tid)
    requires Inv(s) && Moves(s, step, s') && step.Syscall? && Calls(s, step, t)
    ensures t in s'.threads && RegistersOf(s', t) == AnswerAll(step.live, ResultsTo(ResultsOf(s, step), t))
  {
    var at := SyscallContext(s.interruptStack);
    var saved := Saved(s, at, step.live);
    var call := OpOf(s, step);
    OpInRange(s, step);
    SavedKeeps(s, at, step.live);
    DispatchRequest(saved, at, step.live, step.stack, step.kernelStack, t);
    RendezvousRegisters(saved, t, at, call.socket, call.op, t);
  }

  lemma CallOffCpu(s: State, step: Step, s': State, t: Tid)
    requires Inv(s) && Moves(s, step, s') && step.Syscall? && Calls(s, step, t)
    ensures OffCpu(s', t, step.live, 1, ResultsTo(ResultsOf(s, step), t))
  {
    MovesKeeps(s, step, s');
    HeldAfter(s, step, s', t);
    OpInRange(s, step);
    RunsElsewhere(s, t);
    CallRegisters(s, step, s', t);
  }

  /** A send, receive or request returns exactly one result. However long the thread stays blocked,
      one result is written for it before it runs again, and it then runs with the registers it
      called with, changed only by that result. */
  lemma CallReturnsOnce(states: seq<State>, steps: seq<Step>, t: Tid, a: nat, b: nat)
    requires KernelRun(states, steps) && a < b < |states| && steps[a].Syscall?
    requires Calls(states[a], steps[a], t) && Away(states, t, a + 1, b)
    ensures |ResultsOver(states, steps, t, a, b)| == 1
    ensures RegistersOf(states[b], t) == Answer(steps[a].live, ResultsOver(states, steps, t, a, b)[0])
    ensures Launched(states[b]) == Answer(steps[a].live, ResultsOver(states, steps, t, a, b)[0])
  {
    RunInv(states, steps, a);
    assert StepAt(states, steps, a);
    var first := ResultsTo(ResultsOf(states[a], steps[a]), t);
    CallOffCpu(states[a], steps[a], states[a + 1], t);
    ReturnsWith(states, steps, t, a + 1, b, steps[a].live, 1, first);
    OutputFrom((s, e) => ResultsTo(ResultsOf(s, e), t), states, steps, a, b);
    AnswerSingle(steps[a].live, ResultsOver(states, steps, t, a, b));
  }

  lemma AnswerSingle(r: Regs, ws: seq<Result>)
    requires |ws| == 1
    ensures AnswerAll(r, ws) == Answer(r, ws[0])
  {
    assert ws[..0] == [];
  }

  /** What fork puts into registers are the numbers meant, modulo 2^64: the child's number for the
      parent, and the end of its stack for the child. */
  lemma ForkNumbers(live: Regs, stack: nat, child: Tid)
    ensures Number(ChildRegs(live, stack).rsp) == stack % WORD_SIZE
    ensures Number(live.(rdi := AsWord(child)).rdi) == child % WORD_SIZE
  {
    WordIsNumber(stack);
    WordIsNumber(child);
  }

  /** The registers a forked child starts with: its parent's, but for its own stack pointer and a zero
      result. */
  function ChildRegs(live: Regs, stack: nat): Regs
  {
    live.(rsp := AsWord(stack), rax := 0, rdi := 0)
  }

  /** The step is a fork that finds a user stack. */
  predicate Forks(step: Step)
  {
    step.Syscall? && step.stack.Some? && CallOf(step.live.rax).ForkCall?
  }

  lemma ForkRegisters(s: State, context: nat, stack: nat, kernelStack: nat)
    requires Inv(s) && !s.crashed && s.running.Some? && FreeStack(s.threads, kernelStack)
    requires context == SyscallContext(s.interruptStack)
    ensures RegistersOf(Fork(s, context, Some(stack), kernelStack), s.counter + 2) ==
            ChildRegs(RegsAt(s.frames, context), stack)
  {
    assert Apart(kernelStack, s.threads[s.running.value].kernelStackEnd);
  }

  lemma ForkStepRegisters(s: State, step: Step)
    requires Inv(s) && Enabled(s, step) && Forks(step)
    ensures var s' := Apply(s, step);
            && s.counter + 2 in s'.threads && s'.sockets == s.sockets
            && RegistersOf(s', s.counter + 2) == ChildRegs(step.live, step.stack.value)
  {
    var at := SyscallContext(s.interruptStack);
    SavedKeeps(s, at, step.live);
    ForkRegisters(Saved(s, at, step.live), at, step.stack.value, step.kernelStack);
  }

  lemma ForkOffCpu(s: State, step: Step, s': State, child: Tid, start: Regs)
    requires Inv(s) && Moves(s, step, s') && Forks(step)
    requires child == s.counter + 2 && start == ChildRegs(step.live, step.stack.value)
    ensures OffCpu(s', child, start, 0, [])
  {
    MovesKeeps(s, step, s');
    RunsElsewhere(s, child);
    ForkStepRegisters(s, step);
  }

  lemma ForkedInRun(states: seq<State>, steps: seq<Step>, k: nat, child: Tid, start: Regs)
    requires KernelRun(states, steps) && k < |steps| && Forks(steps[k])
    requires child == states[k].counter + 2 && start == ChildRegs(steps[k].live, steps[k].stack.value)
    ensures OffCpu(states[k + 1], child, start, 0, [])
  {
    RunInv(states, steps, k);
    assert StepAt(states, steps, k);
    ForkOffCpu(states[k], steps[k], states[k + 1], child, start);
  }

  /** The child of a fork starts with its parent's registers, except for its own stack pointer and a
      zero result, however long it waits for its turn. */
  lemma ForkedChildStarts(states: seq<State>, steps: seq<Step>, child: Tid, a: nat, b: nat)
    requires KernelRun(states, steps) && a < b < |states| && Forks(steps[a])
    requires child == states[a].counter + 2 && Away(states, child, a + 1, b)
    ensures RegistersOf(states[b], child) == ChildRegs(steps[a].live, steps[a].stack.value)
    ensures Launched(states[b]) == ChildRegs(steps[a].live, steps[a].stack.value)
  {
    var start := ChildRegs(steps[a].live, steps[a].stack.value);
    ForkedInRun(states, steps, a, child, start);
    ReturnsWith(states, steps, child, a + 1, b, start, 0, []);
  }

  /** The record of a forked child: its parent's type, process and page table, and its own stacks. */
  predicate Sibling(parent: Thread, child: Thread, kernelStack: nat, stack: nat)
  {
    && child.threadType == parent.threadType && child.process == parent.process
    && child.pageTable == parent.pageTable && child.kernelStackEnd == kernelStack && child.userStackEnd == stack
  }

  /** A fork makes a sibling: the child is in the parent's process and waits behind everyone, and the
      parent goes on running and is told the child's number. */
  lemma ForkMakesSibling(s: State, step: Step, s': State, me: Tid)
    requires Inv(s) && Moves(s, step, s') && Forks(step) && s.running == Some(me)
    ensures var child := s.counter + 2;
            && child !in s.threads && child in s'.threads && me in s'.threads
            && Sibling(s.threads[me], s'.threads[child], step.kernelStack, step.stack.value)
            && s'.threads[me] == s.threads[me] && s'.queue == s.queue + [child] && s'.running == Some(me)
    ensures RegsAt(s'.frames, SyscallContext(s.interruptStack)) == step.live.(rax := 0, rdi := AsWord(s.counter + 2))
  {
    assert me <= s.counter;
    var at := SyscallContext(s.interruptStack);
    SiblingOf(Saved(s, at, step.live), at, step.stack, step.kernelStack, me);
  }

  lemma SiblingOf(s: State, context: nat, stack: Option<nat>, kernelStack: nat, me: Tid)
    requires s.running == Some(me) && me in s.threads && stack.Some? && me <= s.counter
    ensures var s' := Fork(s, context, stack, kernelStack);
            var child := s.counter + 2;
            && child in s'.threads && me in s'.threads && s'.threads[me] == s.threads[me]
            && Sibling(s.threads[me], s'.threads[child], kernelStack, stack.value)
            && s'.queue == s.queue + [child] && s'.running == Some(me)
            && RegsAt(s'.frames, context) == RegsAt(s.frames, context).(rax := 0, rdi := AsWord(child))
  {}

  // ---------------------------------------------------------------------------------------
  // Handles
  // ---------------------------------------------------------------------------------------

  /** In thread t's process, handle h names socket j. */
  predicate Names(s: State, t: Tid, h: Word, j: nat)
  {
    && t in s.threads && h in s.threads[t].process.handles
    && s.threads[t].process.handles[h] == j && j < |s.sockets|
  }

  /** A call on a handle operates on the socket the process's table has for it, and on no other. */
  lemma CallOnHandle(s: State, step: Step, s': State, t: Tid, j: nat)
    requires Inv(s) && Moves(s, step, s') && step.Syscall? && s.running == Some(t)
    requires RequestOf(t, step.live).Request? && Names(s, t, RequestOf(t, step.live).handle, j)
    ensures var o := Perform(s.sockets[j], RequestOf(t, step.live).op);
            s'.sockets == s.sockets[j := o.socket] && ResultsOf(s, step) == o.results
  {
    SocketsAfter(s, step);
  }

  /** A call on a handle the process does not have is refused: the caller goes on with error 3, and no
      socket and no other thread notices. */
  lemma BadHandleRefused(s: State, step: Step, s': State, me: Tid)
    requires Inv(s) && Moves(s, step, s') && step.Syscall? && s.running == Some(me)
    requires RequestOf(me, step.live).Request?
    requires forall j :: !Names(s, me, RequestOf(me, step.live).handle, j)
    ensures s'.running == Some(me) && s'.queue == s.queue && s'.sockets == s.sockets
    ensures me in s'.threads && RegistersOf(s', me) == step.live.(rax := 3)
    ensures forall t :: t in s.threads && t != me ==> Suspended(s, s', t, [])
  {
    var h := RequestOf(me, step.live).handle;
    var at := SyscallContext(s.interruptStack);
    assert h in s.threads[me].process.handles ==> !Names(s, me, h, s.threads[me].process.handles[h]);
    RefusedCall(s, step, me, h);
    forall t | t in s.threads && t != me
      ensures Suspended(s, s', t, [])
    {
      SuspendedThroughStep(s, step, s', t);
    }
  }

  lemma RefusedCall(s: State, step: Step, me: Tid, h: Word)
    requires Inv(s) && Enabled(s, step) && step.Syscall? && s.running == Some(me)
    requires RequestOf(me, step.live).Request? && RequestOf(me, step.live).handle == h
    requires h !in s.threads[me].process.handles || s.threads[me].process.handles[h] >= |s.sockets|
    ensures var s' := Apply(s, step);
            && s'.running == Some(me) && s'.queue == s.queue && s'.sockets == s.sockets
            && me in s'.threads && RegistersOf(s', me) == step.live.(rax := 3)
            && ResultsOf(s, step) == []
  {
    var at := SyscallContext(s.interruptStack);
    DispatchRequest(Saved(s, at, step.live), at, step.live, step.stack, step.kernelStack, me);
  }
}
