/**
 What a kernel step does to sockets and to the saved registers of threads that are not running, and
 what follows for message passing over whole runs.
 */
module KernelIpc {
  import opened Options
  import opened Runs
  import opened Threads
  import opened Sockets
  import opened KernelState
  import opened KernelInvariant
  import opened KernelSteps

  /** One step of the kernel. */
  ghost predicate Moves(s: State, step: Step, s': State)
  {
    Enabled(s, step) && s' == Apply(s, step)
  }

  ghost predicate StepAt(states: seq<State>, steps: seq<Step>, k: nat)
    requires k < |steps| < |states|
  {
    Moves(states[k], steps[k], states[k + 1])
  }

  /** A run of the kernel from a state that satisfies the invariant, such as boot. */
  ghost predicate KernelRun(states: seq<State>, steps: seq<Step>)
  {
    && |states| == |steps| + 1 && Inv(states[0])
    && (forall k :: 0 <= k < |steps| ==> StepAt(states, steps, k))
  }

  lemma AsRun(states: seq<State>, steps: seq<Step>)
    requires KernelRun(states, steps)
    ensures Run(Moves, states, steps)
  {
    forall k | 0 <= k < |steps|
      ensures Moves(states[k], steps[k], states[k + 1])
    {
      assert StepAt(states, steps, k);
    }
  }

  lemma MovesKeeps(s: State, step: Step, s': State)
    requires Inv(s) && Moves(s, step, s')
    ensures Inv(s')
  {
    StepKeeps(s, step);
  }

  /** Every state the kernel can reach satisfies the invariant. */
  lemma RunInv(states: seq<State>, steps: seq<Step>, n: nat)
    requires KernelRun(states, steps) && n <= |steps|
    ensures Inv(states[n])
  {
    forall s, e, s' | Inv(s) && Moves(s, e, s')
      ensures Inv(s')
    {
      MovesKeeps(s, e, s');
    }
    AsRun(states, steps);
    Always(Moves, Inv, states, steps, n);
  }

  // ---------------------------------------------------------------------------------------
  // The socket operation inside a step
  // ---------------------------------------------------------------------------------------

  datatype SocketCall = NoCall | SocketCall(socket: nat, op: Op)

  datatype Request = NoRequest | Request(handle: Word, op: Op)

  /** What thread t, with registers `live`, asks of which of its handles. */
  function RequestOf(t: Tid, live: Regs): Request
  {
    match CallOf(live.rax)
    case ReceiveCall => Request(live.rdi, Recv(t))
    case SendCall => Request(HandleOf(live.rax), SendOp(live.rax, t, Packet(live.rdi, live.rsi, live.rdx)))
    case SendReceiveCall => Request(HandleOf(live.rax), SendOp(live.rax, t, Packet(live.rdi, live.rsi, live.rdx)))
    case _ => NoRequest
  }

  lemma RequestIsOwn(t: Tid, live: Regs)
    ensures RequestOf(t, live).Request? ==> Caller(RequestOf(t, live).op) == Some(t)
  {}

  lemma DispatchRequest(s: State, context: nat, live: Regs, stack: Option<nat>, kernelStack: nat, me: Tid)
    requires s.running == Some(me) && RequestOf(me, live).Request?
    ensures var q := RequestOf(me, live);
            Dispatch(s, context, live, stack, kernelStack) == OnSocket(s, me, context, q.handle, q.op)
  {}

  function RequestedOp(s: State, t: Tid, q: Request): SocketCall
  {
    if q.NoRequest? then NoCall
    else
      match SocketOf(s, t, q.handle)
      case None => NoCall
      case Some(j) => SocketCall(j, q.op)
  }

  function SyscallOp(s: State, live: Regs): SocketCall
  {
    match s.running
    case None => NoCall
    case Some(t) => RequestedOp(s, t, RequestOf(t, live))
  }

  /** The socket operation a step performs, if any. */
  function OpOf(s: State, step: Step): SocketCall
  {
    match step
    case Keyboard(_, key) =>
      if key.Some? && |s.sockets| > KEYBOARD_SOCKET
      then SocketCall(KEYBOARD_SOCKET, Send(None, Packet(MESSAGE_TYPE_KEY, key.value, 0)))
      else NoCall
    case Syscall(live, _, _) => SyscallOp(s, live)
    case PostMessage(j, m) => if j < |s.sockets| then SocketCall(j, Send(None, m)) else NoCall
    case _ => NoCall
  }

  lemma OpInRange(s: State, step: Step)
    ensures OpOf(s, step).SocketCall? ==> OpOf(s, step).socket < |s.sockets|
    ensures OpOf(s, step).SocketCall? && Caller(OpOf(s, step).op).Some? ==> s.running == Caller(OpOf(s, step).op)
  {}

  function CallResults(s: State, call: SocketCall): seq<Result>
  {
    if call.SocketCall? && call.socket < |s.sockets| then Perform(s.sockets[call.socket], call.op).results else []
  }

  /** The results a step's socket operation writes. */
  function ResultsOf(s: State, step: Step): seq<Result>
  {
    CallResults(s, OpOf(s, step))
  }

  lemma ScheduleSockets(s: State, context: nat)
    ensures Schedule(s, context).sockets == s.sockets && Schedule(s, context).frames == s.frames
    ensures Launch(Schedule(s, context)).sockets == s.sockets && Launch(Schedule(s, context)).frames == s.frames
  {}

  lemma RendezvousSockets(s: State, me: Tid, context: nat, j: nat, op: Op)
    requires j < |s.sockets|
    ensures var o := Perform(s.sockets[j], op);
            var s' := Rendezvous(s, me, context, j, op);
            && s'.sockets == s.sockets[j := o.socket]
            && s'.frames == WriteResults(s.frames, SetContext(s, me, context).threads, o.results)
  {
    var o := Perform(s.sockets[j], op);
    var done := Conclude(s, me, context, j, o);
    RedistributeFacts(done, me, o);
    ScheduleSockets(Redistribute(done, me, o), context);
  }

  ghost predicate SocketsChanged(sockets: seq<Socket>, sockets': seq<Socket>, call: SocketCall)
  {
    if call.SocketCall?
    then call.socket < |sockets| && sockets' == sockets[call.socket := Perform(sockets[call.socket], call.op).socket]
    else sockets' == sockets
  }

  /** A step changes the socket it operates on as that operation says, and no other. */
  lemma SocketsAfter(s: State, step: Step)
    requires Wired(s)
    ensures var call := OpOf(s, step);
            var sockets' := Apply(s, step).sockets;
            if call.SocketCall? then
              call.socket < |s.sockets| &&
              sockets' == s.sockets[call.socket := Perform(s.sockets[call.socket], call.op).socket]
            else
              sockets' == s.sockets + if step.NewSocket? then [Empty] else []
  {
    match step
    case Timer(live) =>
    case Keyboard(live, key) =>
      if key.Some? {
        var at := InterruptContext(s.interruptStack);
        KeyboardSockets(Saved(s, at, live), at, key);
      }
    case Syscall(live, stack, kernelStack) =>
      var at := SyscallContext(s.interruptStack);
      DispatchSockets(Saved(s, at, live), at, live, stack, kernelStack);
    case _ =>
  }

  lemma KeyboardSockets(s: State, context: nat, key: Option<Word>)
    requires Wired(s) && key.Some?
    ensures KeyboardInterrupt(s, context, key).sockets ==
            s.sockets[KEYBOARD_SOCKET :=
              Perform(s.sockets[KEYBOARD_SOCKET], Send(None, Packet(MESSAGE_TYPE_KEY, key.value, 0))).socket]
  {}

  lemma DispatchSockets(s: State, context: nat, live: Regs, stack: Option<nat>, kernelStack: nat)
    ensures SocketsChanged(s.sockets, Dispatch(s, context, live, stack, kernelStack).sockets, SyscallOp(s, live))
  {
    if s.running.Some? {
      var me := s.running.value;
      var q := RequestOf(me, live);
      if q.Request? {
        DispatchRequest(s, context, live, stack, kernelStack, me);
        OnSocketSockets(s, me, context, q);
      }
    }
  }

  lemma OnSocketSockets(s: State, me: Tid, context: nat, q: Request)
    requires q.Request?
    ensures SocketsChanged(s.sockets, OnSocket(s, me, context, q.handle, q.op).sockets, RequestedOp(s, me, q))
  {
    var j := SocketOf(s, me, q.handle);
    if j.Some? {
      RendezvousSockets(s, me, context, j.value, q.op);
    }
  }

  // ---------------------------------------------------------------------------------------
  // Exactly-once delivery over runs
  // ---------------------------------------------------------------------------------------

  function SocketAt(s: State, j: nat): Socket
  {
    if j < |s.sockets| then s.sockets[j] else Empty
  }

  /** The messages socket j accepts in a step. */
  ghost function AcceptedIn(s: State, step: Step, j: nat): seq<Message>
  {
    var call := OpOf(s, step);
    if call.SocketCall? && call.socket == j then Accepted(SocketAt(s, j), call.op) else []
  }

  /** The messages socket j delivers in a step. */
  ghost function DeliveredIn(s: State, step: Step, j: nat): seq<Message>
  {
    var call := OpOf(s, step);
    if call.SocketCall? && call.socket == j then Delivered(Perform(SocketAt(s, j), call.op).results) else []
  }

  lemma DeliveryInStep(s: State, step: Step, s': State, j: nat)
    requires Inv(s) && Moves(s, step, s')
    ensures Pending(SocketAt(s, j)) + AcceptedIn(s, step, j) == DeliveredIn(s, step, j) + Pending(SocketAt(s', j))
  {
    SocketsAfter(s, step);
    var call := OpOf(s, step);
    if call.SocketCall? && call.socket == j {
      DeliveryStep(SocketAt(s, j), call.op);
    }
  }

  /** Over any run, what was pending in a socket at the start followed by what it accepted is, in
      order, what it delivered followed by what is pending now. At most one message is pending, so
      nothing is lost, duplicated or reordered. */
  lemma ExactlyOnceDelivery(states: seq<State>, steps: seq<Step>, j: nat, n: nat)
    requires KernelRun(states, steps) && n <= |steps|
    ensures Pending(SocketAt(states[0], j)) + Output((s, e) => AcceptedIn(s, e, j), states, steps, 0, n) ==
            Output((s, e) => DeliveredIn(s, e, j), states, steps, 0, n) + Pending(SocketAt(states[n], j))
  {
    var inside := (s: State) => Pending(SocketAt(s, j));
    var intake := (s: State, e: Step) => AcceptedIn(s, e, j);
    var out := (s: State, e: Step) => DeliveredIn(s, e, j);
    forall s, e, s' | Inv(s) && Moves(s, e, s')
      ensures Inv(s') && inside(s) + intake(s, e) == out(s, e) + inside(s')
    {
      MovesKeeps(s, e, s');
      DeliveryInStep(s, e, s', j);
    }
    AsRun(states, steps);
    FirstInFirstOut(Moves, Inv, inside, intake, out, states, steps, n);
  }

  // ---------------------------------------------------------------------------------------
  // Request and reply over runs
  // ---------------------------------------------------------------------------------------

  /** Thread p sends on socket j in this step. */
  ghost predicate Replies(s: State, step: Step, j: nat, p: Tid)
  {
    var call := OpOf(s, step);
    call.SocketCall? && call.socket == j && SendsAs(call.op, p)
  }

  lemma WaitsThroughStep(s: State, step: Step, s': State, j: nat, r: Tid, p: Tid)
    requires Inv(s) && Moves(s, step, s')
    requires SocketAt(s, j) == Receiving(r, Some(p)) && !Replies(s, step, j, p)
    ensures SocketAt(s', j) == Receiving(r, Some(p))
    ensures DeliveredIn(s, step, j) == [] && AcceptedIn(s, step, j) == []
  {
    SocketsAfter(s, step);
    var call := OpOf(s, step);
    if call.SocketCall? && call.socket == j {
      OnlyPartnerReplies(r, p, call.op);
    }
  }

  ghost predicate AwaitsReply(s: State, j: nat, r: Tid, p: Tid)
  {
    Inv(s) && SocketAt(s, j) == Receiving(r, Some(p))
  }

  /** Once a request has reached its partner p, the requester keeps waiting, restricted to p, through
      every stretch of a run in which p does not send on that socket: timer ticks, key presses,
      forks, exits and other threads' sends, receives and requests do not release it. */
  lemma WaitsForPartner(states: seq<State>, steps: seq<Step>, j: nat, r: Tid, p: Tid, a: nat, b: nat)
    requires KernelRun(states, steps) && a <= b <= |steps|
    requires SocketAt(states[a], j) == Receiving(r, Some(p))
    requires forall k :: a <= k < b ==> !Replies(states[k], steps[k], j, p)
    ensures SocketAt(states[b], j) == Receiving(r, Some(p))
  {
    var kind := (s: State, e: Step) => !Replies(s, e, j, p);
    var inv := (s: State) => AwaitsReply(s, j, r, p);
    RunInv(states, steps, a);
    forall s, e, s' | AwaitsReply(s, j, r, p) && kind(s, e) && Moves(s, e, s')
      ensures AwaitsReply(s', j, r, p)
    {
      MovesKeeps(s, e, s');
      WaitsThroughStep(s, e, s', j, r, p);
    }
    AsRun(states, steps);
    Throughout(Moves, kind, inv, states, steps, a, b);
  }

  /** A message from p on the socket releases the requester, with that message. */
  lemma ReplyReleases(s: State, step: Step, s': State, j: nat, r: Tid, p: Tid)
    requires Inv(s) && Moves(s, step, s')
    requires SocketAt(s, j) == Receiving(r, Some(p)) && Replies(s, step, j, p)
    ensures SocketAt(s', j) != Receiving(r, Some(p)) && Data(r, OpOf(s, step).op.message) in ResultsOf(s, step)
  {
    SocketsAfter(s, step);
    OpInRange(s, step);
    OnlyPartnerReplies(r, p, OpOf(s, step).op);
    HeldIsOff(s, j, r);
  }

  lemma ReplyInRun(states: seq<State>, steps: seq<Step>, j: nat, r: Tid, p: Tid, k: nat)
    requires KernelRun(states, steps) && k < |steps|
    requires SocketAt(states[k], j) == SocketAt(states[k + 1], j) == Receiving(r, Some(p))
    ensures !Replies(states[k], steps[k], j, p)
  {
    RunInv(states, steps, k);
    assert StepAt(states, steps, k);
    if Replies(states[k], steps[k], j, p) {
      ReplyReleases(states[k], steps[k], states[k + 1], j, r, p);
    }
  }

  /** A requester tied to partner p is still waiting at every state up to b if and only if p has not
      sent on the socket. */
  lemma WaitsIff(states: seq<State>, steps: seq<Step>, j: nat, r: Tid, p: Tid, a: nat, b: nat)
    requires KernelRun(states, steps) && a <= b <= |steps|
    requires SocketAt(states[a], j) == Receiving(r, Some(p))
    ensures (forall k :: a <= k <= b ==> SocketAt(states[k], j) == Receiving(r, Some(p))) <==>
            (forall k :: a <= k < b ==> !Replies(states[k], steps[k], j, p))
  {
    if forall k :: a <= k <= b ==> SocketAt(states[k], j) == Receiving(r, Some(p)) {
      forall k | a <= k < b
        ensures !Replies(states[k], steps[k], j, p)
      {
        ReplyInRun(states, steps, j, r, p, k);
      }
    } else if forall k :: a <= k < b ==> !Replies(states[k], steps[k], j, p) {
      var k :| a <= k <= b && SocketAt(states[k], j) != Receiving(r, Some(p));
      WaitsForPartner(states, steps, j, r, p, a, k);
      assert false;
    }
  }

  /** Kernel code posts on a socket in which t waits for a message from anyone, and drops it. */
  predicate Dropped(s: State, step: Step, t: Tid)
  {
    step.PostMessage? && step.socket < |s.sockets| && s.sockets[step.socket] == Receiving(t, None)
  }

  /** New threads get numbers above the counter, and the counter never falls. */
  lemma ThreadsAfter(s: State, step: Step, t: Tid)
    requires Inv(s) && Enabled(s, step)
    ensures Apply(s, step).counter >= s.counter
    ensures t in Apply(s, step).threads && t !in s.threads ==> t > s.counter
  {
    match step
    case Syscall(live, stack, kernelStack) =>
      var at := SyscallContext(s.interruptStack);
      DispatchThreads(Saved(s, at, live), at, live, stack, kernelStack, t);
    case Timer(live) =>
      var at := InterruptContext(s.interruptStack);
      ScheduleThreads(Saved(s, at, live), at);
    case Keyboard(live, key) =>
      var at := InterruptContext(s.interruptStack);
      KeyboardThreads(Saved(s, at, live), at, key);
    case _ =>
  }

  lemma ScheduleThreads(s: State, context: nat)
    requires s.running.Some? ==> s.running.value in s.threads
    ensures Schedule(s, context).threads.Keys == s.threads.Keys
    ensures Schedule(s, context).counter == s.counter
    ensures Launch(Schedule(s, context)).threads.Keys == s.threads.Keys
    ensures Launch(Schedule(s, context)).counter == s.counter
  {}

  lemma KeyboardThreads(s: State, context: nat, key: Option<Word>)
    requires s.running.Some? ==> s.running.value in s.threads
    ensures KeyboardInterrupt(s, context, key).threads.Keys == s.threads.Keys
    ensures KeyboardInterrupt(s, context, key).counter == s.counter
  {}

  lemma RendezvousThreads(s: State, me: Tid, context: nat, j: nat, op: Op)
    requires j < |s.sockets| && me in s.threads
    ensures Rendezvous(s, me, context, j, op).threads.Keys == s.threads.Keys
    ensures Rendezvous(s, me, context, j, op).counter == s.counter
  {
    var o := Perform(s.sockets[j], op);
    var done := Conclude(s, me, context, j, o);
    RedistributeFacts(done, me, o);
    if Redistribute(done, me, o).running.None? {
      ScheduleThreads(Redistribute(done, me, o), context);
    }
  }

  lemma DispatchThreads(s: State, context: nat, live: Regs, stack: Option<nat>, kernelStack: nat, t: Tid)
    requires s.running.Some? ==> s.running.value in s.threads
    ensures var s' := Dispatch(s, context, live, stack, kernelStack);
            s'.counter >= s.counter && (t in s'.threads && t !in s.threads ==> t > s.counter)
  {
    if s.running.Some? {
      var me := s.running.value;
      var q := RequestOf(me, live);
      if q.Request? {
        DispatchRequest(s, context, live, stack, kernelStack, me);
        OnSocketThreads(s, me, context, q);
      } else if CallOf(live.rax).YieldCall? {
        ScheduleThreads(s, context);
      }
    }
  }

  lemma OnSocketThreads(s: State, me: Tid, context: nat, q: Request)
    requires q.Request? && me in s.threads
    ensures var s' := OnSocket(s, me, context, q.handle, q.op);
            s'.threads.Keys == s.threads.Keys && s'.counter == s.counter
  {
    var j := SocketOf(s, me, q.handle);
    if j.Some? {
      RendezvousThreads(s, me, context, j.value, q.op);
    }
  }

  ghost predicate Gone(s: State, p: Tid)
  {
    Inv(s) && p <= s.counter && p !in s.threads
  }

  /** An id that has been given out and whose thread is gone never comes back. */
  lemma GoneForGood(states: seq<State>, steps: seq<Step>, p: Tid, a: nat, b: nat)
    requires KernelRun(states, steps) && a <= b <= |steps|
    requires p <= states[a].counter && p !in states[a].threads
    ensures p !in states[b].threads
  {
    var inv := (s: State) => Gone(s, p);
    RunInv(states, steps, a);
    forall s, e, s' | Gone(s, p) && Moves(s, e, s')
      ensures Gone(s', p)
    {
      MovesKeeps(s, e, s');
      ThreadsAfter(s, e, p);
    }
    AsRun(states, steps);
    Throughout(Moves, (s, e) => true, inv, states, steps, a, b);
  }

  /** If the partner exits before replying, the requester waits for ever: in no continuation is the
      socket anything but Receiving restricted to the dead partner. */
  lemma OrphanedRequest(states: seq<State>, steps: seq<Step>, j: nat, r: Tid, p: Tid, a: nat, b: nat)
    requires KernelRun(states, steps) && a <= b <= |steps|
    requires SocketAt(states[a], j) == Receiving(r, Some(p))
    requires p <= states[a].counter && p !in states[a].threads
    ensures SocketAt(states[b], j) == Receiving(r, Some(p))
  {
    forall k | a <= k < b
      ensures !Replies(states[k], steps[k], j, p)
    {
      GoneForGood(states, steps, p, a, k);
      RunInv(states, steps, k);
      DeadDoNotSend(states[k], steps[k], j, p);
    }
    WaitsForPartner(states, steps, j, r, p, a, b);
  }

  lemma DeadDoNotSend(s: State, step: Step, j: nat, p: Tid)
    requires Inv(s) && p !in s.threads
    ensures !Replies(s, step, j, p)
  {
    OpInRange(s, step);
  }
}
