/**
 Threads, their saved registers, and the heap that holds both. A boxed thread is a reference into
 the heap, named by the thread's id; a saved context is a register record at an address.
 */
module Threads {

  type Word = bv64
  type Tid = nat

  /** A saved register frame: the registers system calls communicate in, the stack pointer, and
      everything else. */
  datatype Regs = Regs(rax: Word, rdi: Word, rsi: Word, rdx: Word, rsp: Word, rest: seq<Word>)

  const NO_REGS: Regs := Regs(0, 0, 0, 0, 0, [])

  datatype Message = Packet(data1: Word, data2: Word, data3: Word)

  datatype ThreadType = Kernel | User

  /** A process's handle table: which of the system's sockets each handle in use names. */
  type Handles = map<Word, nat>

  /** What threads of one process share. */
  datatype Process = Process(pid: nat, pageTable: nat, handles: Handles)

  datatype Thread = Thread(
    threadType: ThreadType,
    process: Process,
    pageTable: nat,      // page table recorded when last switched out
    kernelStackEnd: nat,
    userStackEnd: nat,
    context: nat)        // address of the saved registers

  type Contexts = map<nat, Regs>

  function RegsAt(frames: Contexts, at: nat): Regs
  {
    if at in frames then frames[at] else NO_REGS
  }

  function ContextOf(threads: map<Tid, Thread>, t: Tid): nat
  {
    if t in threads then threads[t].context else 0
  }

  /** A result written into a thread's saved registers. */
  datatype Result = Code(to: Tid, code: Word) | Data(to: Tid, message: Message)

  function Answer(r: Regs, w: Result): Regs
  {
    match w
    case Code(_, c) => r.(rax := c)
    case Data(_, m) => r.(rax := 0, rdi := m.data1, rsi := m.data2, rdx := m.data3)
  }

  function WriteResult(frames: Contexts, threads: map<Tid, Thread>, w: Result): Contexts
  {
    var at := ContextOf(threads, w.to);
    frames[at := Answer(RegsAt(frames, at), w)]
  }

  function WriteResults(frames: Contexts, threads: map<Tid, Thread>, ws: seq<Result>): Contexts
  {
    if ws == [] then frames
    else WriteResult(WriteResults(frames, threads, ws[..|ws| - 1]), threads, ws[|ws| - 1])
  }

  lemma WriteOne(frames: Contexts, threads: map<Tid, Thread>, ws: seq<Result>, w: Result)
    ensures WriteResults(frames, threads, []) == frames
    ensures WriteResults(frames, threads, [w]) == WriteResult(frames, threads, w)
    ensures WriteResults(frames, threads, ws + [w]) == WriteResult(WriteResults(frames, threads, ws), threads, w)
  {
    assert [w][..0] == [];
    assert (ws + [w])[..|ws + [w]| - 1] == ws;
  }

  class ThreadHeap {
    var threads: map<Tid, Thread>
    var frames: Contexts

    constructor ()
      ensures threads == map[] && frames == map[]
    {
      threads, frames := map[], map[];
    }

    method ReturnError(t: Tid, code: Word)
      modifies this
      ensures threads == old(threads)
      ensures frames == WriteResult(old(frames), threads, Code(t, code))
    {
      var at := ContextOf(threads, t);
      frames := frames[at := RegsAt(frames, at).(rax := code)];
    }

    method ReturnMessage(t: Tid, message: Message)
      modifies this
      ensures threads == old(threads)
      ensures frames == WriteResult(old(frames), threads, Data(t, message))
    {
      var at := ContextOf(threads, t);
      var context := RegsAt(frames, at).(rax := 0);
      context := context.(rdi := message.data1, rsi := message.data2, rdx := message.data3);
      frames := frames[at := context];
    }
  }
}
