/**
 The user side of message passing: how the library packs a call into registers and reads the result,
 and what its functions return over runs of the kernel.
 */
module UserApi {
  import opened Options
  import opened Runs
  import opened Threads
  import opened Sockets
  import opened KernelState
  import opened KernelInvariant
  import opened KernelIpc
  import opened KernelRegisters

  // ---------------------------------------------------------------------------------------
  // Packing and unpacking
  // ---------------------------------------------------------------------------------------

  function Loaded(r: Regs, m: Message): Regs
  {
    r.(rdi := m.data1, rsi := m.data2, rdx := m.data3)
  }

  /** Registers of a library call, over whatever else the thread has in its registers. */
  function ReceiveRegs(r: Regs, socket: Word): Regs
  {
    r.(rax := 3, rdi := socket)
  }

  function SendRegs(r: Regs, socket: bv32, m: Message): Regs
  {
    Loaded(r, m).(rax := 4 + ((socket as Word) << 32))
  }

  /** The control word of a message, which the library ors into the call word. */
  function Control(m: Message): Word
  {
    match m case Packet(_, _, _) => 0
  }

  function RequestRegs(r: Regs, socket: bv32, m: Message): Regs
  {
    Loaded(r, m).(rax := 5 | Control(m) | ((socket as Word) << 32))
  }

  lemma PackedSend(socket: bv32)
    ensures (4 + ((socket as Word) << 32)) & 0xFF == 4
    ensures (4 + ((socket as Word) << 32)) >> 32 == socket as Word
  {}

  lemma PackedRequest(socket: bv32)
    ensures (5 | ((socket as Word) << 32)) & 0xFF == 5
    ensures (5 | ((socket as Word) << 32)) >> 32 == socket as Word
  {}

  /** The kernel unpacks a send as the library packed it, for every socket number. */
  lemma SendUnpacks(t: Tid, r: Regs, socket: bv32, m: Message)
    ensures RequestOf(t, SendRegs(r, socket, m)) == Request(socket as Word, Send(Some(t), m))
  {
    PackedSend(socket);
  }

  lemma ReceiveUnpacks(t: Tid, r: Regs, socket: Word)
    ensures RequestOf(t, ReceiveRegs(r, socket)) == Request(socket, Recv(t))
  {}

  lemma RequestUnpacks(t: Tid, r: Regs, socket: bv32, m: Message)
    ensures RequestOf(t, RequestRegs(r, socket, m)) == Request(socket as Word, SendRecv(t, m))
  {
    PackedRequest(socket);
    assert 5 | Control(m) | ((socket as Word) << 32) == 5 | ((socket as Word) << 32);
  }

  datatype ApiResult<T> = Ok(value: T) | Err(code: Word)

  function ReceiveResult(r: Regs): ApiResult<Message>
  {
    if r.rax == 0 then Ok(Packet(r.rdi, r.rsi, r.rdx)) else Err(r.rax)
  }

  function SendResult(r: Regs): ApiResult<()>
  {
    if r.rax == 0 then Ok(()) else Err(r.rax)
  }

  function RequestResult(r: Regs): ApiResult<Message>
  {
    var code := r.rax & 0xFF;
    if code == 0 then Ok(Packet(r.rdi, r.rsi, r.rdx)) else Err(code)
  }

  // ---------------------------------------------------------------------------------------
  // What result a blocked thread gets
  // ---------------------------------------------------------------------------------------

  /** How socket x holds thread t during t's operation op: a sender with its message, or as a
      receiver or requester. */
  predicate Role(x: Socket, t: Tid, op: Op)
  {
    if op.Send? then x == Sending(Some(t), op.message) else !x.Sending?
  }

  /** Thread t is held nowhere but in socket j, and there in the role op gives it. */
  ghost predicate HeldAs(sockets: seq<Socket>, t: Tid, j: nat, op: Op)
  {
    forall i :: 0 <= i < |sockets| && t in Held(sockets[i]) ==> i == j && Role(sockets[i], t, op)
  }

  /** A result that suits op: a message or an error for a receiver or requester, a code for a sender. */
  predicate Fits(w: Result, op: Op)
  {
    if op.Send? then w.Code? else w.Data? || w.code == RECV_BLOCKING || w.code == SEND_BLOCKING
  }

  /** A result that goes with a delivery: the message itself, or a sender's success. */
  predicate Backed(w: Result, op: Op, delivered: seq<Message>)
  {
    && (w.Data? ==> w.message in delivered)
    && (op.Send? && w == Code(w.to, OK) ==> op.message in delivered)
  }

  /** Someone else's operation answers the thread a socket holds in its role, or leaves it in it. */
  lemma RoleKept(x: Socket, other: Op, t: Tid, op: Op)
    requires Caller(other) != Some(t) && (t in Held(x) ==> Role(x, t, op))
    ensures var o := Perform(x, other);
            && (t in Held(o.socket) ==> t in Held(x) && Role(o.socket, t, op))
            && forall w <- o.results :: w.to == t ==> t in Held(x) && Fits(w, op)
  {}

  lemma RoleBacked(x: Socket, other: Op, t: Tid, op: Op, w: Result)
    requires Caller(other) != Some(t) && Role(x, t, op)
    requires w in Perform(x, other).results && w.to == t
    ensures Backed(w, op, Delivered(Perform(x, other).results))
  {
    if w.Data? {
      DataDelivered(x, other, w);
    } else if op.Send? && w.code == OK {
      assert w == Code(t, OK);
      SuccessDelivered(t, op.message, other);
    }
  }

  lemma DataDelivered(x: Socket, op: Op, w: Result)
    requires w in Perform(x, op).results && w.Data?
    ensures w.message in Delivered(Perform(x, op).results)
  {
    DeliveredFew(Perform(x, op).results);
  }

  /** A waiting sender is told of success only with the delivery of its message. */
  lemma SuccessDelivered(t: Tid, m: Message, other: Op)
    requires Caller(other) != Some(t) && Code(t, OK) in Perform(Sending(Some(t), m), other).results
    ensures m in Delivered(Perform(Sending(Some(t), m), other).results)
  {
    DeliveredFew(Perform(Sending(Some(t), m), other).results);
  }

  /** The caller is answered, or held, in the role its operation gives it. */
  lemma RoleTaken(x: Socket, op: Op, t: Tid)
    requires t !in Held(x) && Caller(op) == Some(t)
    ensures var o := Perform(x, op);
            && (t in Held(o.socket) ==> Role(o.socket, t, op))
            && forall w <- o.results :: w.to == t ==> Fits(w, op)
  {}

  lemma AnswerBacked(x: Socket, op: Op, t: Tid, w: Result)
    requires t !in Held(x) && Caller(op) == Some(t) && w in Perform(x, op).results && w.to == t
    ensures Backed(w, op, Delivered(Perform(x, op).results))
  {
    if w.Data? {
      DataDelivered(x, op, w);
    }
    DeliveredFew(Perform(x, op).results);
  }

  lemma RolesStep(s: State, step: Step, s': State, t: Tid, j: nat, op: Op)
    requires Inv(s) && Moves(s, step, s') && s.running != Some(t) && HeldAs(s.sockets, t, j, op)
    ensures HeldAs(s'.sockets, t, j, op)
    ensures forall w <- ResultsOf(s, step) :: w.to == t ==> Fits(w, op) && Backed(w, op, DeliveredIn(s, step, j))
  {
    SocketsAfter(s, step);
    OpInRange(s, step);
    var call := OpOf(s, step);
    if call.SocketCall? {
      var x := s.sockets[call.socket];
      RoleKept(x, call.op, t, op);
      forall w | w in Perform(x, call.op).results && w.to == t
        ensures Backed(w, op, Delivered(Perform(x, call.op).results))
      {
        RoleBacked(x, call.op, t, op, w);
      }
    }
  }

  lemma HeldNowhere(s: State, t: Tid, i: nat)
    requires Inv(s) && s.running == Some(t) && i < |s.sockets|
    ensures t !in Held(s.sockets[i])
  {
    HeldAtLeast(s.sockets, i, t);
    RunsElsewhere(s, t);
    CountPlus(Held(s.sockets[i]), [], t);
  }

  lemma RolesTaken(s: State, step: Step, s': State, t: Tid)
    requires Inv(s) && Moves(s, step, s') && Calls(s, step, t)
    ensures var call := OpOf(s, step);
            && HeldAs(s'.sockets, t, call.socket, call.op)
            && forall w <- ResultsOf(s, step) :: w.to == t ==>
                 Fits(w, call.op) && Backed(w, call.op, DeliveredIn(s, step, call.socket))
  {
    SocketsAfter(s, step);
    OpInRange(s, step);
    var call := OpOf(s, step);
    forall i: nat | i < |s.sockets|
      ensures t !in Held(s.sockets[i])
    {
      HeldNowhere(s, t, i);
    }
    var x := s.sockets[call.socket];
    RoleTaken(x, call.op, t);
    forall w | w in Perform(x, call.op).results && w.to == t
      ensures Backed(w, call.op, Delivered(Perform(x, call.op).results))
    {
      AnswerBacked(x, call.op, t, w);
    }
  }

  // ---------------------------------------------------------------------------------------
  // What the library's functions return
  // ---------------------------------------------------------------------------------------

  /** The call of thread t made in step a, which it returns from in state b. */
  ghost predicate CallSpan(states: seq<State>, steps: seq<Step>, t: Tid, a: nat, b: nat)
  {
    && KernelRun(states, steps) && a < b < |states| && steps[a].Syscall?
    && Calls(states[a], steps[a], t) && Away(states, t, a + 1, b)
  }

  lemma HeldInRun(states: seq<State>, steps: seq<Step>, t: Tid, a: nat, b: nat)
    requires CallSpan(states, steps, t, a, b)
    ensures var call := OpOf(states[a], steps[a]);
            HeldAs(states[a + 1].sockets, t, call.socket, call.op)
  {
    RunInv(states, steps, a);
    assert StepAt(states, steps, a);
    RolesTaken(states[a], steps[a], states[a + 1], t);
  }

  /** All through the call, t is held by no socket but the one it called. */
  lemma HeldThroughout(states: seq<State>, steps: seq<Step>, t: Tid, a: nat, b: nat, k: nat)
    requires CallSpan(states, steps, t, a, b) && a < k <= b
    ensures var call := OpOf(states[a], steps[a]);
            HeldAs(states[k].sockets, t, call.socket, call.op)
  {
    var call := OpOf(states[a], steps[a]);
    var kind := (s: State, e: Step) => s.running != Some(t);
    var inv := (s: State) => Inv(s) && HeldAs(s.sockets, t, call.socket, call.op);
    HeldInRun(states, steps, t, a, b);
    RunInv(states, steps, a + 1);
    forall s, e, s' | inv(s) && kind(s, e) && Moves(s, e, s')
      ensures inv(s')
    {
      MovesKeeps(s, e, s');
      RolesStep(s, e, s', t, call.socket, call.op);
    }
    AsRun(states, steps);
    Throughout(Moves, kind, inv, states, steps, a + 1, k);
  }

  /** A result written during the call suits it, and goes with a delivery by the socket it called. */
  lemma ResultInCall(states: seq<State>, steps: seq<Step>, t: Tid, a: nat, b: nat, k: nat, w: Result)
    requires CallSpan(states, steps, t, a, b) && a <= k < b
    requires w in ResultsOf(states[k], steps[k]) && w.to == t
    ensures var call := OpOf(states[a], steps[a]);
            Fits(w, call.op) && Backed(w, call.op, DeliveredIn(states[k], steps[k], call.socket))
  {
    var call := OpOf(states[a], steps[a]);
    RunInv(states, steps, k);
    assert StepAt(states, steps, k);
    if k == a {
      RolesTaken(states[a], steps[a], states[a + 1], t);
    } else {
      HeldThroughout(states, steps, t, a, b, k);
      RolesStep(states[k], steps[k], states[k + 1], t, call.socket, call.op);
    }
  }

  lemma {:induction false} ResultsToIn(ws: seq<Result>, t: Tid, w: Result)
    requires w in ResultsTo(ws, t)
    ensures w in ws && w.to == t
  {
    if w != ws[|ws| - 1] {
      ResultsToIn(ws[..|ws| - 1], t, w);
    } else if w.to != t {
      ResultsToIn(ws[..|ws| - 1], t, w);
    }
  }

  /** The messages socket j delivers from state a up to state b. */
  ghost function DeliveredOver(states: seq<State>, steps: seq<Step>, j: nat, a: nat, b: nat): seq<Message>
    requires a <= b <= |steps| <= |states|
  {
    Output((s, e) => DeliveredIn(s, e, j), states, steps, a, b)
  }

  /** The one result of a call suits its operation, and goes with a delivery, during the call, by the
      socket called. */
  lemma ResultFits(states: seq<State>, steps: seq<Step>, t: Tid, a: nat, b: nat)
    requires CallSpan(states, steps, t, a, b)
    ensures |ResultsOver(states, steps, t, a, b)| == 1
    ensures RegistersOf(states[b], t) == Answer(steps[a].live, ResultsOver(states, steps, t, a, b)[0])
    ensures var w, call := ResultsOver(states, steps, t, a, b)[0], OpOf(states[a], steps[a]);
            Fits(w, call.op) && Backed(w, call.op, DeliveredOver(states, steps, call.socket, a, b))
  {
    CallReturnsOnce(states, steps, t, a, b);
    var w, call := ResultsOver(states, steps, t, a, b)[0], OpOf(states[a], steps[a]);
    var k := ProducedAt((s, e) => ResultsTo(ResultsOf(s, e), t), states, steps, a, b, w);
    ResultsToIn(ResultsOf(states[k], steps[k]), t, w);
    ResultInCall(states, steps, t, a, b, k, w);
    var delivered := (s, e) => DeliveredIn(s, e, call.socket);
    if w.Data? {
      ProducedIn(delivered, states, steps, a, b, k, w.message);
    } else if call.op.Send? && w.code == OK {
      ProducedIn(delivered, states, steps, a, b, k, call.op.message);
    }
  }

  /** `receive` returns the message a socket wrote for the thread during the call, or the error if it
      was refused; it never returns anything else as a message. */
  lemma ReceiveReturns(states: seq<State>, steps: seq<Step>, t: Tid, r: Regs, socket: Word, a: nat, b: nat)
    requires CallSpan(states, steps, t, a, b) && steps[a].live == ReceiveRegs(r, socket)
    ensures |ResultsOver(states, steps, t, a, b)| == 1
    ensures match ResultsOver(states, steps, t, a, b)[0]
            case Data(_, m) => ReceiveResult(RegistersOf(states[b], t)) == Ok(m)
            case Code(_, code) => code != 0 && ReceiveResult(RegistersOf(states[b], t)) == Err(code)
  {
    RunInv(states, steps, a);
    CallAsked(states[a], steps[a], t);
    ReceiveUnpacks(t, r, socket);
    ResultFits(states, steps, t, a, b);
  }

  /** `send` succeeds exactly if the result written for the thread during the call is success. */
  lemma SendReturns(states: seq<State>, steps: seq<Step>, t: Tid, r: Regs, socket: bv32, m: Message, a: nat, b: nat)
    requires CallSpan(states, steps, t, a, b) && steps[a].live == SendRegs(r, socket, m)
    ensures |ResultsOver(states, steps, t, a, b)| == 1 && ResultsOver(states, steps, t, a, b)[0].Code?
    ensures var code := ResultsOver(states, steps, t, a, b)[0].code;
            SendResult(RegistersOf(states[b], t)) == if code == 0 then Ok(()) else Err(code)
  {
    RunInv(states, steps, a);
    CallAsked(states[a], steps[a], t);
    SendUnpacks(t, r, socket, m);
    ResultFits(states, steps, t, a, b);
  }

  /** `send_receive` returns the reply a socket wrote for the thread during the call, or the error if
      it was refused. */
  lemma RequestReturns(states: seq<State>, steps: seq<Step>, t: Tid, r: Regs, socket: bv32, m: Message, a: nat, b: nat)
    requires CallSpan(states, steps, t, a, b) && steps[a].live == RequestRegs(r, socket, m)
    ensures |ResultsOver(states, steps, t, a, b)| == 1
    ensures match ResultsOver(states, steps, t, a, b)[0]
            case Data(_, reply) => RequestResult(RegistersOf(states[b], t)) == Ok(reply)
            case Code(_, code) => code != 0 && RequestResult(RegistersOf(states[b], t)) == Err(code)
  {
    RunInv(states, steps, a);
    CallAsked(states[a], steps[a], t);
    RequestUnpacks(t, r, socket, m);
    ResultFits(states, steps, t, a, b);
  }

  lemma CallAsked(s: State, step: Step, t: Tid)
    requires Calls(s, step, t) && step.Syscall?
    ensures var q := RequestOf(t, step.live);
            OpOf(s, step).op == q.op && SocketOf(s, t, q.handle) == Some(OpOf(s, step).socket)
  {
    OpInRange(s, step);
  }

  /** The socket a call is made on is the one its handle names. */
  lemma CalledSocket(states: seq<State>, steps: seq<Step>, t: Tid, a: nat, b: nat) returns (j: nat)
    requires CallSpan(states, steps, t, a, b)
    ensures j == OpOf(states[a], steps[a]).socket && Names(states[a], t, RequestOf(t, steps[a].live).handle, j)
  {
    RunInv(states, steps, a);
    OpInRange(states[a], steps[a]);
    j := OpOf(states[a], steps[a]).socket;
  }

  // ---------------------------------------------------------------------------------------
  // From one program's call to another's result
  // ---------------------------------------------------------------------------------------

  /** Message m was in socket j at the start of the run, or the socket accepted it before state b. */
  ghost predicate CameIn(states: seq<State>, steps: seq<Step>, j: nat, b: nat, m: Message)
    requires b <= |steps| <= |states| && |states| > 0
  {
    m in Pending(SocketAt(states[0], j)) || exists k :: 0 <= k < b && m in AcceptedIn(states[k], steps[k], j)
  }

  /** The messages socket j accepts before state b. */
  ghost function AcceptedOver(states: seq<State>, steps: seq<Step>, j: nat, b: nat): seq<Message>
    requires b <= |steps| <= |states|
  {
    Output((s, e) => AcceptedIn(s, e, j), states, steps, 0, b)
  }

  lemma AcceptedWasSent(states: seq<State>, steps: seq<Step>, j: nat, b: nat, m: Message)
    requires b <= |steps| < |states| && m in AcceptedOver(states, steps, j, b)
    ensures CameIn(states, steps, j, b, m)
  {
    var k := ProducedAt((s, e) => AcceptedIn(s, e, j), states, steps, 0, b, m);
  }

  lemma DeliveredSoFar(states: seq<State>, steps: seq<Step>, j: nat, a: nat, b: nat, m: Message)
    requires a <= b <= |steps| <= |states| && m in DeliveredOver(states, steps, j, a, b)
    ensures m in DeliveredOver(states, steps, j, 0, b)
  {
    var delivered := (s, e) => DeliveredIn(s, e, j);
    var k := ProducedAt(delivered, states, steps, a, b, m);
    ProducedIn(delivered, states, steps, 0, b, k, m);
  }

  lemma InEither<M>(x: M, inside: seq<M>, came: seq<M>, went: seq<M>, left: seq<M>)
    requires inside + came == went + left && x in went
    ensures x in inside || x in came
  {
    assert x in went + left;
  }

  lemma DeliveredCameIn(states: seq<State>, steps: seq<Step>, j: nat, a: nat, b: nat, m: Message)
    requires KernelRun(states, steps) && a <= b <= |steps| && m in DeliveredOver(states, steps, j, a, b)
    ensures CameIn(states, steps, j, b, m)
  {
    DeliveredSoFar(states, steps, j, a, b, m);
    ExactlyOnceDelivery(states, steps, j, b);
    InEither(m, Pending(SocketAt(states[0], j)), AcceptedOver(states, steps, j, b),
             DeliveredOver(states, steps, j, 0, b), Pending(SocketAt(states[b], j)));
    if m in AcceptedOver(states, steps, j, b) {
      AcceptedWasSent(states, steps, j, b, m);
    }
  }

  /** A message that `receive` returns was delivered during the call by the socket its handle names,
      which had accepted it from its sender. */
  lemma ReceivedWasSent(states: seq<State>, steps: seq<Step>, t: Tid, r: Regs, socket: Word, a: nat, b: nat, m: Message)
    returns (j: nat)
    requires CallSpan(states, steps, t, a, b) && steps[a].live == ReceiveRegs(r, socket)
    requires ReceiveResult(RegistersOf(states[b], t)) == Ok(m)
    ensures Names(states[a], t, socket, j)
    ensures m in DeliveredOver(states, steps, j, a, b) && CameIn(states, steps, j, b, m)
  {
    j := CalledSocket(states, steps, t, a, b);
    ReceiveReturns(states, steps, t, r, socket, a, b);
    CallAsked(states[a], steps[a], t);
    ReceiveUnpacks(t, r, socket);
    ResultFits(states, steps, t, a, b);
    DeliveredCameIn(states, steps, j, a, b, m);
  }

  /** A `send` that returns success has met a receiver: its message was delivered during the call by
      the socket its handle names. */
  lemma SentWasReceived(states: seq<State>, steps: seq<Step>, t: Tid, r: Regs, socket: bv32, m: Message, a: nat, b: nat)
    returns (j: nat)
    requires CallSpan(states, steps, t, a, b) && steps[a].live == SendRegs(r, socket, m)
    requires SendResult(RegistersOf(states[b], t)) == Ok(())
    ensures Names(states[a], t, socket as Word, j) && m in DeliveredOver(states, steps, j, a, b)
  {
    j := CalledSocket(states, steps, t, a, b);
    SendReturns(states, steps, t, r, socket, m, a, b);
    CallAsked(states[a], steps[a], t);
    SendUnpacks(t, r, socket, m);
    ResultFits(states, steps, t, a, b);
  }

  // ---------------------------------------------------------------------------------------
  // Request and reply
  // ---------------------------------------------------------------------------------------

  /** In this step thread p gets message m from socket j. */
  predicate Hears(s: State, step: Step, j: nat, p: Tid, m: Message)
  {
    OpOf(s, step).SocketCall? && OpOf(s, step).socket == j && Data(p, m) in ResultsOf(s, step)
  }

  /** In this step thread p sends message m on socket j. */
  ghost predicate Answers(s: State, step: Step, j: nat, p: Tid, m: Message)
  {
    Replies(s, step, j, p) && OpOf(s, step).op.message == m
  }

  /** A request nobody has heard yet: the requester gets no message, and is tied to whoever hears it. */
  lemma Unheard(t: Tid, m: Message, op: Op)
    requires Caller(op) != Some(t)
    ensures var x := SendReceiving(t, m);
            var o := Perform(x, op);
            && (forall w <- o.results :: w.Data? ==> w.to != t)
            && (o.socket == x || (op.Recv? && o.socket == Receiving(t, Some(op.receiver)) &&
                                  Data(op.receiver, m) in o.results))
  {
    if op.Recv? {
      assert Perform(SendReceiving(t, m), op).results[0] == Data(op.receiver, m);
    }
  }

  /** A request that p has heard: the requester gets a message from p only. */
  lemma Tied(t: Tid, p: Tid, op: Op)
    requires Caller(op) != Some(t)
    ensures var x := Receiving(t, Some(p));
            var o := Perform(x, op);
            && (t in Held(o.socket) ==> o.socket == x)
            && (forall w <- o.results :: w.Data? && w.to == t ==> SendsAs(op, p) && w.message == op.message)
  {
    OnlyPartnerReplies(t, p, op);
  }

  /** A requester's own call gets it no message, and leaves it unheard or tied to whoever heard it. */
  lemma Asking(x: Socket, t: Tid, m: Message)
    requires t !in Held(x)
    ensures var o := Perform(x, SendRecv(t, m));
            && (forall w <- o.results :: w.Data? ==> w.to != t)
            && (t in Held(o.socket) ==>
                  || o.socket == SendReceiving(t, m)
                  || (o.socket.Receiving? && o.socket.receiver == t && o.socket.only.Some? &&
                      Data(o.socket.only.value, m) in o.results))
  {
    if x.Receiving? && Perform(x, SendRecv(t, m)).socket.Receiving? && (x.only.None? || x.only.value == t) {
      assert Perform(x, SendRecv(t, m)).results[0] == Data(x.receiver, m);
    }
  }

  /** How far t's request m on socket j has got in state k: unheard, or heard by p in an earlier step. */
  ghost predicate Stage(states: seq<State>, steps: seq<Step>, t: Tid, j: nat, m: Message, a: nat, k: nat, p: Tid,
                        h: nat)
    requires a < k < |states| == |steps| + 1
  {
    || SocketAt(states[k], j) == SendReceiving(t, m)
    || (SocketAt(states[k], j) == Receiving(t, Some(p)) && a <= h < k && Hears(states[h], steps[h], j, p, m))
  }

  lemma StageStarts(states: seq<State>, steps: seq<Step>, t: Tid, a: nat, b: nat) returns (p: Tid)
    requires CallSpan(states, steps, t, a, b) && OpOf(states[a], steps[a]).op.SendRecv?
    ensures var call := OpOf(states[a], steps[a]);
            t in Held(SocketAt(states[a + 1], call.socket)) ==>
              Stage(states, steps, t, call.socket, call.op.message, a, a + 1, p, a)
  {
    RunInv(states, steps, a);
    assert StepAt(states, steps, a);
    var call := OpOf(states[a], steps[a]);
    SocketsAfter(states[a], steps[a]);
    OpInRange(states[a], steps[a]);
    HeldNowhere(states[a], t, call.socket);
    Asking(states[a].sockets[call.socket], t, call.op.message);
    var x := SocketAt(states[a + 1], call.socket);
    p := if x.Receiving? && x.only.Some? then x.only.value else 0;
  }

  /** One step while the requester waits. */
  lemma StageStep(s: State, step: Step, s': State, t: Tid, j: nat, m: Message, p: Tid) returns (p': Tid)
    requires Inv(s) && Moves(s, step, s') && s.running != Some(t) && j < |s.sockets|
    requires s.sockets[j] == SendReceiving(t, m) || s.sockets[j] == Receiving(t, Some(p))
    requires t in Held(SocketAt(s', j))
    ensures SocketAt(s', j) == s.sockets[j] ||
            (SocketAt(s', j) == Receiving(t, Some(p')) && Hears(s, step, j, p', m))
  {
    SocketsAfter(s, step);
    OpInRange(s, step);
    var call := OpOf(s, step);
    p' := p;
    if call.SocketCall? && call.socket == j {
      if s.sockets[j].Receiving? {
        Tied(t, p, call.op);
      } else {
        Unheard(t, m, call.op);
        p' := if call.op.Recv? then call.op.receiver else p;
      }
    }
  }

  lemma StageInRun(states: seq<State>, steps: seq<Step>, t: Tid, j: nat, m: Message, a: nat, k: nat, p: Tid, h: nat)
    returns (p': Tid, h': nat)
    requires KernelRun(states, steps) && a < k < |steps| && states[k].running != Some(t)
    requires Stage(states, steps, t, j, m, a, k, p, h) && t in Held(SocketAt(states[k + 1], j))
    ensures Stage(states, steps, t, j, m, a, k + 1, p', h')
  {
    RunInv(states, steps, k);
    assert StepAt(states, steps, k);
    p' := StageStep(states[k], steps[k], states[k + 1], t, j, m, p);
    h' := k;
    if SocketAt(states[k + 1], j) == SocketAt(states[k], j) {
      p', h' := p, h;
    }
  }

  /** A thread that someone else's step leaves held was held before. */
  lemma HeldBefore(states: seq<State>, steps: seq<Step>, t: Tid, j: nat, k: nat)
    requires KernelRun(states, steps) && k < |steps| && states[k].running != Some(t)
    requires t in Held(SocketAt(states[k + 1], j))
    ensures t in Held(SocketAt(states[k], j))
  {
    RunInv(states, steps, k);
    assert StepAt(states, steps, k);
    SocketsAfter(states[k], steps[k]);
    OpInRange(states[k], steps[k]);
    var call := OpOf(states[k], steps[k]);
    if call.SocketCall? && call.socket == j {
      OnlyHeldStay(states[k].sockets[j], call.op, t);
    }
  }

  lemma OnlyHeldStay(x: Socket, op: Op, t: Tid)
    requires Caller(op) != Some(t) && t in Held(Perform(x, op).socket)
    ensures t in Held(x)
  {}

  lemma StageReached(states: seq<State>, steps: seq<Step>, t: Tid, a: nat, b: nat, k: nat)
    returns (p: Tid, h: nat)
    requires CallSpan(states, steps, t, a, b) && OpOf(states[a], steps[a]).op.SendRecv? && a < k < b
    requires t in Held(SocketAt(states[k], OpOf(states[a], steps[a]).socket))
    ensures var call := OpOf(states[a], steps[a]);
            Stage(states, steps, t, call.socket, call.op.message, a, k, p, h)
  {
    var call := OpOf(states[a], steps[a]);
    p := StageStarts(states, steps, t, a, b);
    p, h := StageKept(states, steps, t, call.socket, call.op.message, a, k, p);
  }

  lemma {:induction false} StageKept(states: seq<State>, steps: seq<Step>, t: Tid, j: nat, m: Message, a: nat, k: nat,
                                     first: Tid)
    returns (p: Tid, h: nat)
    requires KernelRun(states, steps) && a < k < |steps| && forall i :: a < i < k ==> states[i].running != Some(t)
    requires t in Held(SocketAt(states[a + 1], j)) ==> Stage(states, steps, t, j, m, a, a + 1, first, a)
    requires t in Held(SocketAt(states[k], j))
    ensures Stage(states, steps, t, j, m, a, k, p, h)
    decreases k
  {
    if k == a + 1 {
      p, h := first, a;
    } else {
      var c := k - 1;
      HeldBefore(states, steps, t, j, c);
      p, h := StageKept(states, steps, t, j, m, a, c, first);
      p, h := StageInRun(states, steps, t, j, m, a, c, p, h);
    }
  }

  /** A message for the requester in someone else's step was sent by the partner it is tied to. */
  lemma AnswerStep(states: seq<State>, steps: seq<Step>, t: Tid, j: nat, m: Message, a: nat, k: nat, p: Tid, h: nat,
                   reply: Message)
    requires KernelRun(states, steps) && a < k < |steps| && states[k].running != Some(t)
    requires Stage(states, steps, t, j, m, a, k, p, h)
    requires OpOf(states[k], steps[k]).SocketCall? && OpOf(states[k], steps[k]).socket == j
    requires Data(t, reply) in ResultsOf(states[k], steps[k])
    ensures a <= h < k && Hears(states[h], steps[h], j, p, m) && Answers(states[k], steps[k], j, p, reply)
  {
    OpInRange(states[k], steps[k]);
    var op := OpOf(states[k], steps[k]).op;
    if SocketAt(states[k], j) == SendReceiving(t, m) {
      Unheard(t, m, op);
    } else {
      Tied(t, p, op);
    }
  }

  /** The step of the call in which t's message was written, and the socket it came from. */
  lemma AnsweredIn(states: seq<State>, steps: seq<Step>, t: Tid, a: nat, b: nat, reply: Message) returns (k: nat)
    requires CallSpan(states, steps, t, a, b) && OpOf(states[a], steps[a]).op.SendRecv?
    requires |ResultsOver(states, steps, t, a, b)| == 1 && ResultsOver(states, steps, t, a, b)[0] == Data(t, reply)
    ensures a < k < b && Data(t, reply) in ResultsOf(states[k], steps[k])
    ensures var j := OpOf(states[a], steps[a]).socket;
            && OpOf(states[k], steps[k]).SocketCall? && OpOf(states[k], steps[k]).socket == j
            && t in Held(SocketAt(states[k], j))
  {
    var w := Data(t, reply);
    assert w in ResultsOver(states, steps, t, a, b);
    k := ProducedAt((s, e) => ResultsTo(ResultsOf(s, e), t), states, steps, a, b, w);
    ResultsToIn(ResultsOf(states[k], steps[k]), t, w);
    RunInv(states, steps, k);
    OpInRange(states[k], steps[k]);
    var call := OpOf(states[k], steps[k]);
    if k == a {
      HeldNowhere(states[a], t, call.socket);
      Asking(states[a].sockets[call.socket], t, call.op.message);
    } else {
      HeldThroughout(states, steps, t, a, b, k);
      RoleKept(states[k].sockets[call.socket], call.op, t, OpOf(states[a], steps[a]).op);
    }
  }

  /** The reply `send_receive` returns comes from the thread that got the request: during the call some
      thread p gets the request from the socket the handle names, and afterwards p sends the reply on
      that socket. */
  lemma ReplyIsFromPartner(states: seq<State>, steps: seq<Step>, t: Tid, r: Regs, socket: bv32, m: Message,
                           a: nat, b: nat, reply: Message)
    returns (j: nat, p: Tid, h: nat, k: nat)
    requires CallSpan(states, steps, t, a, b) && steps[a].live == RequestRegs(r, socket, m)
    requires RequestResult(RegistersOf(states[b], t)) == Ok(reply)
    ensures Names(states[a], t, socket as Word, j) && a <= h < k < b
    ensures Hears(states[h], steps[h], j, p, m)
    ensures Answers(states[k], steps[k], j, p, reply) && Data(t, reply) in ResultsOf(states[k], steps[k])
  {
    j := CalledSocket(states, steps, t, a, b);
    RequestReturns(states, steps, t, r, socket, m, a, b);
    CallAsked(states[a], steps[a], t);
    RequestUnpacks(t, r, socket, m);
    ResultAddressed(states, steps, t, a, b);
    k := AnsweredIn(states, steps, t, a, b, reply);
    p, h := StageReached(states, steps, t, a, b, k);
    AnswerStep(states, steps, t, j, m, a, k, p, h, reply);
  }

  lemma ResultAddressed(states: seq<State>, steps: seq<Step>, t: Tid, a: nat, b: nat)
    requires a <= b <= |steps| <= |states| && |ResultsOver(states, steps, t, a, b)| == 1
    ensures ResultsOver(states, steps, t, a, b)[0].to == t
  {
    var w := ResultsOver(states, steps, t, a, b)[0];
    var k := ProducedAt((s, e) => ResultsTo(ResultsOf(s, e), t), states, steps, a, b, w);
    ResultsToIn(ResultsOf(states[k], steps[k]), t, w);
  }
}
