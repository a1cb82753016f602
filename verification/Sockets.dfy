/**
 The rendezvous socket: four states, three operations. The functions give each operation's outcome
 on values; the class carries the operations out in place.
 */
module Sockets {
  import opened Options
  import opened Threads

  datatype Socket =
    | Empty
    | Sending(sender: Option<Tid>, message: Message)
    | Receiving(receiver: Tid, only: Option<Tid>)
    | SendReceiving(requester: Tid, message: Message)

  const OK: Word := 0
  const SEND_BLOCKING: Word := 1
  const RECV_BLOCKING: Word := 2
  const WRONG_SENDER: Word := 7
  const BUSY_REQUEST: Word := 8

  /** The socket after an operation, the two threads it hands back, and the results it wrote. */
  datatype Outcome = Outcome(socket: Socket, first: Option<Tid>, second: Option<Tid>, results: seq<Result>)

  function Refuse(s: Socket, thread: Option<Tid>, code: Word): Outcome
  {
    match thread
    case Some(t) => Outcome(s, thread, None, [Code(t, code)])
    case None => Outcome(s, None, None, [])
  }

  function SendMessage(s: Socket, thread: Option<Tid>, m: Message): Outcome
  {
    match s
    case Empty => Outcome(Sending(thread, m), None, None, [])
    case Sending(_, _) => Refuse(s, thread, SEND_BLOCKING)
    case Receiving(r, only) =>
      if only.Some? && thread != only then Refuse(s, thread, WRONG_SENDER)
      else Outcome(Empty, Some(r), thread,
                   [Data(r, m)] + if thread.Some? then [Code(thread.value, OK)] else [])
    case SendReceiving(_, _) => Refuse(s, thread, BUSY_REQUEST)
  }

  function Receive(s: Socket, thread: Tid): Outcome
  {
    match s
    case Empty => Outcome(Receiving(thread, None), None, None, [])
    case Sending(sender, m) =>
      Outcome(Empty, Some(thread), sender,
              [Data(thread, m)] + if sender.Some? then [Code(sender.value, OK)] else [])
    case Receiving(_, _) => Refuse(s, Some(thread), RECV_BLOCKING)
    case SendReceiving(r, m) => Outcome(Receiving(r, Some(thread)), Some(thread), None, [Data(thread, m)])
  }

  function SendReceive(s: Socket, thread: Tid, m: Message): Outcome
  {
    match s
    case Empty => Outcome(SendReceiving(thread, m), None, None, [])
    case Sending(_, _) => Refuse(s, Some(thread), SEND_BLOCKING)
    case Receiving(r, only) =>
      if only.Some? && only.value != thread then Refuse(s, Some(thread), RECV_BLOCKING)
      else Outcome(Receiving(thread, Some(r)), Some(r), None, [Data(r, m)])
    case SendReceiving(_, _) => Refuse(s, Some(thread), SEND_BLOCKING)
  }

  datatype Op =
    | Send(sender: Option<Tid>, message: Message)
    | Recv(receiver: Tid)
    | SendRecv(requester: Tid, message: Message)

  function Perform(s: Socket, op: Op): Outcome
  {
    match op
    case Send(t, m) => SendMessage(s, t, m)
    case Recv(t) => Receive(s, t)
    case SendRecv(t, m) => SendReceive(s, t, m)
  }

  function Caller(op: Op): Option<Tid>
  {
    match op
    case Send(t, _) => t
    case Recv(t) => Some(t)
    case SendRecv(t, _) => Some(t)
  }

  // ---------------------------------------------------------------------------------------
  // In place
  // ---------------------------------------------------------------------------------------

  class SocketCell {
    var state: Socket

    constructor ()
      ensures state == Empty
    {
      state := Empty;
    }

    method Send(heap: ThreadHeap, thread: Option<Tid>, m: Message) returns (first: Option<Tid>, second: Option<Tid>)
      modifies this, heap
      ensures var o := SendMessage(old(state), thread, m);
              && state == o.socket && first == o.first && second == o.second
              && heap.frames == WriteResults(old(heap.frames), heap.threads, o.results)
      ensures heap.threads == old(heap.threads)
    {
      ghost var frames0 := heap.frames;
      WriteOne(frames0, heap.threads, [], Code(0, 0));
      match state
      case Empty =>
        state := Sending(thread, m);
        return None, None;
      case Sending(_, _) =>
        if thread.Some? {
          heap.ReturnError(thread.value, 1);
          WriteOne(frames0, heap.threads, [], Code(thread.value, 1));
        }
        return thread, None;
      case Receiving(receiver, only) =>
        if only.Some? {
          if thread.Some? {
            if thread.value != only.value {
              heap.ReturnError(thread.value, 7);
              WriteOne(frames0, heap.threads, [], Code(thread.value, 7));
              return thread, None;
            }
          } else {
            return thread, None;
          }
        }
        state := Empty;
        heap.ReturnMessage(receiver, m);
        WriteOne(frames0, heap.threads, [], Data(receiver, m));
        if thread.Some? {
          heap.ReturnError(thread.value, 0);
          WriteOne(frames0, heap.threads, [Data(receiver, m)], Code(thread.value, 0));
        }
        return Some(receiver), thread;
      case SendReceiving(_, _) =>
        if thread.Some? {
          heap.ReturnError(thread.value, 8);
          WriteOne(frames0, heap.threads, [], Code(thread.value, 8));
        }
        return thread, None;
    }

    method Recv(heap: ThreadHeap, thread: Tid) returns (first: Option<Tid>, second: Option<Tid>)
      modifies this, heap
      ensures var o := Receive(old(state), thread);
              && state == o.socket && first == o.first && second == o.second
              && heap.frames == WriteResults(old(heap.frames), heap.threads, o.results)
      ensures heap.threads == old(heap.threads)
    {
      ghost var frames0 := heap.frames;
      match state
      case Empty =>
        state := Receiving(thread, None);
        return None, None;
      case Sending(sender, m) =>
        state := Empty;
        heap.ReturnMessage(thread, m);
        WriteOne(frames0, heap.threads, [], Data(thread, m));
        if sender.Some? {
          heap.ReturnError(sender.value, 0);
          WriteOne(frames0, heap.threads, [Data(thread, m)], Code(sender.value, 0));
        }
        return Some(thread), sender;
      case Receiving(_, _) =>
        heap.ReturnError(thread, RECV_BLOCKING);
        WriteOne(frames0, heap.threads, [], Code(thread, RECV_BLOCKING));
        return Some(thread), None;
      case SendReceiving(requester, m) =>
        heap.ReturnMessage(thread, m);
        WriteOne(frames0, heap.threads, [], Data(thread, m));
        state := Receiving(requester, Some(thread));
        return Some(thread), None;
    }

    method SendRecv(heap: ThreadHeap, thread: Tid, m: Message) returns (first: Option<Tid>, second: Option<Tid>)
      modifies this, heap
      ensures var o := SendReceive(old(state), thread, m);
              && state == o.socket && first == o.first && second == o.second
              && heap.frames == WriteResults(old(heap.frames), heap.threads, o.results)
      ensures heap.threads == old(heap.threads)
    {
      ghost var frames0 := heap.frames;
      match state
      case Empty =>
        state := SendReceiving(thread, m);
        return None, None;
      case Sending(_, _) =>
        heap.ReturnError(thread, SEND_BLOCKING);
        WriteOne(frames0, heap.threads, [], Code(thread, SEND_BLOCKING));
        return Some(thread), None;
      case Receiving(receiver, only) =>
        if only.Some? {
          if thread != only.value {
            heap.ReturnError(thread, RECV_BLOCKING);
            WriteOne(frames0, heap.threads, [], Code(thread, RECV_BLOCKING));
            return Some(thread), None;
          }
        }
        heap.ReturnMessage(receiver, m);
        WriteOne(frames0, heap.threads, [], Data(receiver, m));
        state := Receiving(thread, Some(receiver));
        return Some(receiver), None;
      case SendReceiving(_, _) =>
        heap.ReturnError(thread, SEND_BLOCKING);
        WriteOne(frames0, heap.threads, [], Code(thread, SEND_BLOCKING));
        return Some(thread), None;
    }
  }

  // ---------------------------------------------------------------------------------------
  // One operation
  // ---------------------------------------------------------------------------------------

  function Ids(t: Option<Tid>): seq<Tid>
  {
    if t.Some? then [t.value] else []
  }

  /** The threads a socket holds. */
  function Held(s: Socket): seq<Tid>
  {
    match s
    case Empty => []
    case Sending(t, _) => Ids(t)
    case Receiving(t, _) => [t]
    case SendReceiving(t, _) => [t]
  }

  function HandedBack(o: Outcome): seq<Tid>
  {
    Ids(o.first) + Ids(o.second)
  }

  /** The bag of a socket's threads and a caller is the bag of its threads after and those handed
      back. */
  ghost predicate Conserves(s: Socket, caller: Option<Tid>, o: Outcome)
  {
    multiset(Held(s) + Ids(caller)) == multiset(Held(o.socket) + HandedBack(o))
  }

  lemma SwapBag(a: seq<Tid>, b: seq<Tid>)
    ensures multiset(a + b) == multiset(b + a)
  {}

  lemma RefuseConserves(s: Socket, t: Option<Tid>, code: Word)
    ensures Conserves(s, t, Refuse(s, t, code))
  {
    assert HandedBack(Refuse(s, t, code)) == Ids(t);
  }

  lemma SendConserves(s: Socket, t: Option<Tid>, m: Message)
    ensures Conserves(s, t, SendMessage(s, t, m))
  {
    match s
    case Empty =>
      assert Held(s) + Ids(t) == Ids(t) && Held(Sending(t, m)) + [] == Ids(t);
    case Sending(_, _) => RefuseConserves(s, t, SEND_BLOCKING);
    case Receiving(r, only) =>
      if only.Some? && t != only {
        RefuseConserves(s, t, WRONG_SENDER);
      } else {
        assert [] + ([r] + Ids(t)) == [r] + Ids(t);
      }
    case SendReceiving(_, _) => RefuseConserves(s, t, BUSY_REQUEST);
  }

  lemma ReceiveConserves(s: Socket, t: Tid)
    ensures Conserves(s, Some(t), Receive(s, t))
  {
    match s
    case Sending(sender, _) => SwapBag(Ids(sender), [t]);
    case _ =>
  }

  lemma SendReceiveConserves(s: Socket, t: Tid, m: Message)
    ensures Conserves(s, Some(t), SendReceive(s, t, m))
  {
    match s
    case Receiving(r, _) => SwapBag([r], [t]);
    case _ =>
  }

  /** No thread is lost or duplicated by a socket operation. */
  lemma SocketConservation(s: Socket, op: Op)
    ensures Conserves(s, Caller(op), Perform(s, op))
  {
    match op
    case Send(t, m) => SendConserves(s, t, m);
    case Recv(t) => ReceiveConserves(s, t);
    case SendRecv(t, m) => SendReceiveConserves(s, t, m);
  }

  function Addressees(ws: seq<Result>): seq<Tid>
  {
    if ws == [] then [] else Addressees(ws[..|ws| - 1]) + [ws[|ws| - 1].to]
  }

  lemma AddresseesFew(ws: seq<Result>)
    ensures |ws| == 1 ==> Addressees(ws) == [ws[0].to]
    ensures |ws| == 2 ==> Addressees(ws) == [ws[0].to, ws[1].to]
  {
    if |ws| == 1 {
      assert ws[..0] == [];
    } else if |ws| == 2 {
      assert ws[..1] == [ws[0]];
      assert [ws[0]][..0] == [];
    }
  }

  /** Exactly the threads handed back get a result, one each: nobody becomes runnable with a stale
      result register, and a thread that stays blocked is not written to. */
  lemma ReturnedAreAnswered(s: Socket, op: Op)
    ensures Addressees(Perform(s, op).results) == HandedBack(Perform(s, op))
  {
    AddresseesFew(Perform(s, op).results);
  }

  // ---------------------------------------------------------------------------------------
  // Exactly-once delivery
  // ---------------------------------------------------------------------------------------

  function Pending(s: Socket): seq<Message>
  {
    if s.Sending? || s.SendReceiving? then [s.message] else []
  }

  function Delivered(ws: seq<Result>): seq<Message>
  {
    if ws == [] then []
    else Delivered(ws[..|ws| - 1]) + if ws[|ws| - 1].Data? then [ws[|ws| - 1].message] else []
  }

  /** The caller was told the operation failed; a caller-less send is refused when nothing changed. */
  ghost predicate WasRefused(s: Socket, op: Op)
  {
    var o := Perform(s, op);
    match Caller(op)
    case Some(t) => exists c: Word :: c != 0 && Code(t, c) in o.results
    case None => o.socket == s
  }

  ghost function Accepted(s: Socket, op: Op): seq<Message>
  {
    if op.Recv? || WasRefused(s, op) then [] else [op.message]
  }

  lemma DeliveredFew(ws: seq<Result>)
    ensures |ws| == 1 ==> Delivered(ws) == if ws[0].Data? then [ws[0].message] else []
    ensures |ws| == 2 && ws[0].Data? && ws[1].Code? ==> Delivered(ws) == [ws[0].message]
  {
    if |ws| == 1 {
      assert ws[..0] == [];
    } else if |ws| == 2 {
      assert ws[..1] == [ws[0]];
      assert [ws[0]][..0] == [];
    }
  }

  /** The states in which a socket turns an operation away. */
  predicate TurnsAway(s: Socket, op: Op)
  {
    match op
    case Send(t, _) => s.Sending? || s.SendReceiving? || (s.Receiving? && s.only.Some? && t != s.only)
    case Recv(_) => s.Receiving?
    case SendRecv(t, _) => s.Sending? || s.SendReceiving? || (s.Receiving? && s.only.Some? && t != s.only.value)
  }

  lemma RefusedIff(s: Socket, op: Op)
    ensures WasRefused(s, op) <==> TurnsAway(s, op)
  {
    var ws := Perform(s, op).results;
    if TurnsAway(s, op) && Caller(op).Some? {
      assert ws[0].code != 0 && ws[0] in ws;
    }
  }

  /** What a turned-away caller is told. */
  function RefusalCode(s: Socket, op: Op): Word
    requires TurnsAway(s, op)
  {
    match op
    case Send(_, _) => if s.Sending? then 1 else if s.Receiving? then 7 else 8
    case Recv(_) => 2
    case SendRecv(_, _) => if s.Receiving? then 2 else 1
  }

  /** A turned-away caller gets exactly that code and goes on; a send without a caller tells nobody. */
  lemma RefusalCodes(s: Socket, op: Op)
    requires TurnsAway(s, op)
    ensures Perform(s, op) == match Caller(op)
                              case Some(t) => Outcome(s, Some(t), None, [Code(t, RefusalCode(s, op))])
                              case None => Outcome(s, None, None, [])
  {}

  lemma RefusedOutcome(s: Socket, op: Op)
    requires TurnsAway(s, op)
    ensures Perform(s, op).socket == s && Delivered(Perform(s, op).results) == []
  {
    DeliveredFew(Perform(s, op).results);
  }

  lemma AcceptedOutcome(s: Socket, op: Op)
    requires !TurnsAway(s, op)
    ensures Pending(s) + (if op.Recv? then [] else [op.message]) ==
            Delivered(Perform(s, op).results) + Pending(Perform(s, op).socket)
  {
    DeliveredFew(Perform(s, op).results);
  }

  /** What was pending and what is accepted is what is delivered and what is then pending. */
  lemma DeliveryStep(s: Socket, op: Op)
    ensures Pending(s) + Accepted(s, op) ==
            Delivered(Perform(s, op).results) + Pending(Perform(s, op).socket)
  {
    RefusedIff(s, op);
    if TurnsAway(s, op) {
      RefusedOutcome(s, op);
    } else {
      AcceptedOutcome(s, op);
    }
  }

  // ---------------------------------------------------------------------------------------
  // Request and reply
  // ---------------------------------------------------------------------------------------

  /** Thread p sends on the socket. */
  predicate SendsAs(op: Op, p: Tid)
  {
    (op.Send? && op.sender == Some(p)) || (op.SendRecv? && op.requester == p)
  }

  /** A requester waiting for partner p is released by a message from p, and by nothing else: every
      other operation is refused and leaves the socket as it is. */
  lemma OnlyPartnerReplies(r: Tid, p: Tid, op: Op)
    ensures var s := Receiving(r, Some(p));
            var o := Perform(s, op);
            if SendsAs(op, p)
            then o.first == Some(r) && Data(r, op.message) in o.results && (r != p ==> r !in Held(o.socket))
            else o.socket == s && WasRefused(s, op) && Delivered(o.results) == []
  {
    var s := Receiving(r, Some(p));
    var o := Perform(s, op);
    DeliveredFew(o.results);
    if SendsAs(op, p) {
      assert o.results[0] == Data(r, op.message);
    } else if Caller(op).Some? {
      assert o.results[0].Code? && o.results[0] in o.results;
    }
  }

  /** A request that reaches thread p ties the socket to p. */
  lemma RequestTiesPartner(s: Socket, op: Op)
    ensures s.SendReceiving? && op.Recv? ==>
              Perform(s, op).socket == Receiving(s.requester, Some(op.receiver))
    ensures op.SendRecv? && s.Receiving? && !WasRefused(s, op) ==>
              Perform(s, op).socket == Receiving(op.requester, Some(s.receiver))
  {
    if op.SendRecv? && s.Receiving? && s.only.Some? && s.only.value != op.requester {
      assert Perform(s, op).results[0] == Code(op.requester, RECV_BLOCKING);
    }
  }
}
