/**
 The whole life of a user address space: the kernel's page table is copied, any number of stacks are
 allocated and freed in the copy, and the copy is torn down.
 */
module SpaceLife {
  import opened Options
  import opened Frames
  import opened PageTables
  import opened TableWrites
  import opened AddressSpaces
  import opened SpaceBalance
  import opened StackLayout
  import opened UserStacks

  /** Allocate a stack, searching from slot `id`; or free the stack at this position among those live. */
  datatype Command = NewStack(id: nat) | DropStack(index: nat)

  /** The memory and the allocator, and where the live stacks end, in the order they were allocated. */
  datatype Space = Space(ram: Ram, frames: FrameState, ends: seq<nat>)

  /** What a command did: the result of an allocation, with the slot and the frames it took; or the slot
      of the stack freed; or nothing. */
  datatype Event = Stacking(result: StackResult, slot: nat, taken: seq<nat>) | Dropping(slot: nat) | Nothing

  /** The stack table under root; one that does not exist counts as empty. */
  ghost function TableOf(ram: Ram, root: nat, level: nat, path: seq<nat>): Table
  {
    var found := Follow(ram, root, level, path);
    if found == [] then ZeroTable() else At(ram, found[0])
  }

  /** Allocating a stack here panics: there are not enough frames for the missing tables, the first
      unoccupied slot is slot 63, or the next ten positions of the cursor leave the bitmap. */
  ghost predicate StackPanics(usable: seq<nat>, x: Space, root: nat, level: nat, path: seq<nat>, id: nat)
  {
    var missing := Missing(x.ram, root, path);
    var table := TableOf(x.ram, root, level, path);
    || !Grantable(usable, x.frames, missing)
    || FirstUnoccupied(table, id, 63)
    || (HasRoom(table) && RunsBeyond(usable, AllocateMany(usable, x.frames, missing), STACK_PAGES))
  }

  ghost predicate Panics(usable: seq<nat>, x: Space, root: nat, level: nat, path: seq<nat>, command: Command)
  {
    command.NewStack? && StackPanics(usable, x, root, level, path, command.id)
  }

  /** Command takes space x to space y, with event e. */
  ghost predicate Happens(usable: seq<nat>, root: nat, level: nat, path: seq<nat>, command: Command,
                          x: Space, e: Event, y: Space)
  {
    match command
    case NewStack(id) =>
      && e.Stacking? && Stacks(usable, root, level, path, id, x, e, y)
    case DropStack(i) =>
      if i < |x.ends| then e.Dropping? && Drops(root, level, path, i, x, e, y) else e == Nothing && y == x
  }

  /** The missing tables are made, and the first unoccupied slot is filled as far as frames go. */
  ghost predicate Stacks(usable: seq<nat>, root: nat, level: nat, path: seq<nat>, id: nat, x: Space, e: Event, y: Space)
    requires e.Stacking?
  {
    var missing := Missing(x.ram, root, path);
    && Grantable(usable, x.frames, missing) && !e.result.Panicked?
    && StackOutcome(usable, AllocateMany(usable, x.frames, missing), y.frames, TableOf(x.ram, root, level, path),
                    TableOf(y.ram, root, level, path), id, e.result, e.slot, e.taken)
    && Follow(y.ram, root, level, path) != []
    && y.ends == if e.result.Stacked? then x.ends + [e.result.end] else x.ends
  }

  /** The frames of the i-th live stack are freed and its entries cleared. */
  ghost predicate Drops(root: nat, level: nat, path: seq<nat>, i: nat, x: Space, e: Event, y: Space)
    requires e.Dropping? && i < |x.ends|
  {
    var table := TableOf(x.ram, root, level, path);
    && e.slot <= LAST_SLOT && x.ends[i] == StackEnd(e.slot)
    && y.frames == FreeAll(x.frames, Released(table, e.slot, STACK_PAGES + 1))
    && TableOf(y.ram, root, level, path) == Cleared(table, e.slot)
    && Follow(y.ram, root, level, path) != []
    && y.ends == x.ends[..i] + x.ends[i + 1..]
  }

  /** The k-th command did not panic, and led from space k to space k + 1. */
  ghost predicate Goes(usable: seq<nat>, root: nat, level: nat, path: seq<nat>, commands: seq<Command>,
                       spaces: seq<Space>, events: seq<Event>, k: nat)
    requires k < |commands| && k < |events| && k + 1 < |spaces|
  {
    && !Panics(usable, spaces[k], root, level, path, commands[k])
    && Happens(usable, root, level, path, commands[k], spaces[k], events[k], spaces[k + 1])
  }

  /** The first |events| commands have been carried out one after the other. */
  ghost predicate Chain(usable: seq<nat>, root: nat, level: nat, path: seq<nat>, commands: seq<Command>, start: Space,
                        spaces: seq<Space>, events: seq<Event>)
  {
    && |spaces| == |events| + 1 && |events| <= |commands| && spaces[0] == start
    && (forall k :: 0 <= k < |events| ==> Goes(usable, root, level, path, commands, spaces, events, k))
  }

  /** All commands have been carried out, or all before the first one that panics. */
  ghost predicate CarriedOut(usable: seq<nat>, root: nat, level: nat, path: seq<nat>, commands: seq<Command>,
                             start: Space, spaces: seq<Space>, events: seq<Event>)
  {
    && Chain(usable, root, level, path, commands, start, spaces, events)
    && (|events| < |commands| ==> Panics(usable, spaces[|events|], root, level, path, commands[|events|]))
  }

  lemma ChainMore(usable: seq<nat>, root: nat, level: nat, path: seq<nat>, commands: seq<Command>, start: Space,
                  spaces: seq<Space>, events: seq<Event>, e: Event, y: Space)
    requires Chain(usable, root, level, path, commands, start, spaces, events) && |events| < |commands|
    requires !Panics(usable, spaces[|events|], root, level, path, commands[|events|])
    requires Happens(usable, root, level, path, commands[|events|], spaces[|events|], e, y)
    ensures Chain(usable, root, level, path, commands, start, spaces + [y], events + [e])
  {
    var spaces', events' := spaces + [y], events + [e];
    forall k | 0 <= k < |events'|
      ensures Goes(usable, root, level, path, commands, spaces', events', k)
    {
      if k < |events| {
        assert Goes(usable, root, level, path, commands, spaces, events, k);
      }
    }
  }

  /** What the events do to the stack table, as steps of the stack layout. */
  ghost function OpsOf(e: Event): seq<StackOp>
  {
    match e
    case Stacking(r, n, fs) => if r.SlotsFull? then [] else [Fill(n, fs)]
    case Dropping(n) => [Release(n)]
    case Nothing => []
  }

  ghost function AllOps(events: seq<Event>): seq<StackOp>
  {
    if events == [] then [] else AllOps(events[..|events| - 1]) + OpsOf(events[|events| - 1])
  }

  lemma AllOpsMore(events: seq<Event>, e: Event)
    ensures AllOps(events + [e]) == AllOps(events) + OpsOf(e)
  {
    assert (events + [e])[..|events|] == events;
  }

  // ---------------------------------------------------------------------------------------
  // One command
  // ---------------------------------------------------------------------------------------

  /** The stacks at addresses `ends` are those of the slots `slots`, all different and live. */
  ghost predicate Listed(ends: seq<nat>, slots: seq<nat>, run: StackState)
  {
    && |ends| == |slots| && Distinct(slots)
    && (forall i :: 0 <= i < |ends| ==> slots[i] <= LAST_SLOT && ends[i] == StackEnd(slots[i]) && slots[i] in run.live)
  }

  lemma ListedMore(ends: seq<nat>, slots: seq<nat>, run: StackState, n: nat, run': StackState)
    requires Listed(ends, slots, run) && n <= LAST_SLOT && n !in run.live && run'.live == run.live + {n}
    ensures Listed(ends + [StackEnd(n)], slots + [n], run')
  {}

  lemma ListedLess(ends: seq<nat>, slots: seq<nat>, run: StackState, i: nat, run': StackState)
    requires Listed(ends, slots, run) && i < |ends| && run'.live == run.live - {slots[i]}
    ensures Listed(ends[..i] + ends[i + 1..], slots[..i] + slots[i + 1..], run')
  {}

  /** Appending one step to a run of the stack table. */
  lemma RunsOn(states: seq<StackState>, ops: seq<StackOp>, op: StackOp)
    requires StackRun(states, ops) && Enabled(states[|ops|], op)
    ensures StackRun(states + [StackStep(states[|ops|], op)], ops + [op])
    ensures StackInvariant(states[|ops|])
  {
    StackRunInvariant(states, ops);
  }

  /** What holds of the space between two commands: it is sound and balanced, and its stack table has
      gone through a run of the stack layout. */
  ghost predicate Alive(s0: FrameState, tree0: Tree, x: Space, root: nat, level: nat, path: seq<nat>,
                        states: seq<StackState>, ops: seq<StackOp>)
  {
    && StackReady(x.ram, x.frames, root, level, path)
    && Balanced(s0, tree0, x.frames, TreeOf(x.ram, root, level))
    && StackRun(states, ops) && TableOf(x.ram, root, level, path) == states[|ops|].table
  }

  /** An allocation's outcome is a step of the stack table's run, or none. */
  lemma OutcomeRunsOn(usable: seq<nat>, s1: FrameState, s: FrameState, before: Table, after: Table, id: nat,
                      e: Event, states: seq<StackState>, ops: seq<StackOp>)
    returns (states': seq<StackState>)
    requires e.Stacking? && !e.result.Panicked?
    requires StackOutcome(usable, s1, s, before, after, id, e.result, e.slot, e.taken)
    requires StackRun(states, ops) && states[|ops|].table == before
    ensures var ops' := ops + OpsOf(e);
            && StackRun(states', ops') && states'[|ops'|].table == after
            && if e.result.Stacked?
               then e.slot !in states[|ops|].live && states'[|ops'|].live == states[|ops|].live + {e.slot}
               else states'[|ops'|].live == states[|ops|].live
  {
    if e.result.SlotsFull? {
      states' := states;
      assert ops + [] == ops;
    } else {
      var op := Fill(e.slot, e.taken);
      RunsOn(states, ops, op);
      FillKeeps(states[|ops|], e.slot, e.taken);
      states' := states + [StackStep(states[|ops|], op)];
    }
  }

  lemma TableBeforeIs(ram: Ram, root: nat, level: nat, path: seq<nat>, t: nat, before: Table)
    requires TableBefore(ram, root, level, path, t, before)
    ensures before == TableOf(ram, root, level, path)
  {}

  /** One allocation, as a step of the stack table's run. It panics exactly when `StackPanics` says. */
  method AllocateIn(mem: PhysicalMemory, root: nat, id: nat, level: nat, path: seq<nat>, ghost x: Space,
                    ghost s0: FrameState, ghost tree0: Tree, ghost states: seq<StackState>, ghost ops: seq<StackOp>)
    returns (r: StackResult, ghost e: Event, ghost y: Space, ghost states': seq<StackState>)
    requires mem.Valid() && (forall i :: 0 <= i < |path| ==> path[i] < ENTRIES)
    requires x.ram == mem.ram && x.frames == mem.State() && Alive(s0, tree0, x, root, level, path, states, ops)
    modifies mem, mem.frames, mem.frames.usage, mem.frames.logger
    ensures mem.Valid()
    ensures r.Panicked? <==> StackPanics(mem.Usable, x, root, level, path, id)
    ensures !r.Panicked? ==>
              && y.ram == mem.ram && y.frames == mem.State() && e.Stacking? && e.result == r
              && Stacks(mem.Usable, root, level, path, id, x, e, y)
              && Alive(s0, tree0, y, root, level, path, states', ops + OpsOf(e))
              && LiveAfter(states[|ops|], e, states'[|ops + OpsOf(e)|])
  {
    ghost var t, before, n, fs;
    r, t, before, n, fs := AllocateStack(mem, root, id, level, path);
    e, states' := Stacking(r, n, fs), states;
    y := Space(mem.ram, mem.State(), if r.Stacked? then x.ends + [r.end] else x.ends);
    ghost var missing := Missing(x.ram, root, path);
    if Grantable(mem.Usable, x.frames, missing) {
      ghost var s1 := AllocateMany(mem.Usable, x.frames, missing);
      TableBeforeIs(x.ram, root, level, path, t, before);
      StackOutcomeIff(mem.Usable, s1, y.frames, before, At(y.ram, t), id, r, n, fs);
      StaysAlive(s0, tree0, x, y, root, level, path, t);
      if !r.Panicked? {
        states' := OutcomeRunsOn(mem.Usable, s1, y.frames, before, At(y.ram, t), id, e, states, ops);
      }
    }
  }

  /** How an allocation changes which stacks are live. */
  ghost predicate LiveAfter(before: StackState, e: Event, after: StackState)
    requires e.Stacking?
  {
    if e.result.Stacked?
    then e.slot <= LAST_SLOT && e.result.end == StackEnd(e.slot) && e.slot !in before.live &&
         after.live == before.live + {e.slot}
    else after.live == before.live
  }

  lemma ReleaseRunsOn(states: seq<StackState>, ops: seq<StackOp>, n: nat) returns (states': seq<StackState>)
    requires StackRun(states, ops) && n in states[|ops|].live
    ensures StackRun(states', ops + [Release(n)]) && n <= LAST_SLOT
    ensures states'[|ops| + 1].table == Cleared(states[|ops|].table, n)
    ensures states'[|ops| + 1].live == states[|ops|].live - {n}
  {
    RunsOn(states, ops, Release(n));
    states' := states + [StackStep(states[|ops|], Release(n))];
  }

  /** A sound space that a balanced change made from a live one. */
  lemma StaysAlive(s0: FrameState, tree0: Tree, x: Space, y: Space, root: nat, level: nat, path: seq<nat>, t: nat)
    requires Balanced(s0, tree0, x.frames, TreeOf(x.ram, root, level))
    requires Balanced(x.frames, TreeOf(x.ram, root, level), y.frames, TreeOf(y.ram, root, level))
    requires StackSpace(y.ram, y.frames, root, level, path, t)
    ensures StackReady(y.ram, y.frames, root, level, path)
    ensures Balanced(s0, tree0, y.frames, TreeOf(y.ram, root, level))
    ensures Follow(y.ram, root, level, path) == [t] && TableOf(y.ram, root, level, path) == At(y.ram, t)
  {
    ReadyAgain(y.ram, y.frames, root, level, path, t);
  }

  /** One free, as a step of the stack table's run. */
  method FreeIn(mem: PhysicalMemory, root: nat, end: nat, ghost level: nat, ghost path: seq<nat>, ghost n: nat,
                ghost i: nat, ghost x: Space, ghost s0: FrameState, ghost tree0: Tree, ghost states: seq<StackState>,
                ghost ops: seq<StackOp>)
    returns (ghost y: Space, ghost states': seq<StackState>)
    requires mem.Valid() && path == STACK_PATH && level == |path| + 1
    requires x.ram == mem.ram && x.frames == mem.State() && Alive(s0, tree0, x, root, level, path, states, ops)
    requires i < |x.ends| && n <= LAST_SLOT && end == x.ends[i] == StackEnd(n) && n in states[|ops|].live
    requires Follow(mem.ram, root, level, path) != []
    modifies mem, mem.frames, mem.frames.usage, mem.frames.logger
    ensures mem.Valid() && y.ram == mem.ram && y.frames == mem.State()
    ensures Drops(root, level, path, i, x, Dropping(n), y)
    ensures Alive(s0, tree0, y, root, level, path, states', ops + [Release(n)])
    ensures states'[|ops| + 1].live == states[|ops|].live - {n}
  {
    ghost var t := Follow(mem.ram, root, level, path)[0];
    states' := ReleaseRunsOn(states, ops, n);
    FreeStack(mem, root, end, level, path, t, n);
    y := Space(mem.ram, mem.State(), x.ends[..i] + x.ends[i + 1..]);
    StaysAlive(s0, tree0, x, y, root, level, path, t);
  }

  /** A live space, its stacks, and the slots they are in. */
  ghost predicate Standing(s0: FrameState, tree0: Tree, x: Space, root: nat, level: nat, path: seq<nat>,
                           states: seq<StackState>, ops: seq<StackOp>, slots: seq<nat>)
  {
    && Alive(s0, tree0, x, root, level, path, states, ops)
    && Listed(x.ends, slots, states[|ops|])
    && (x.ends != [] ==> Follow(x.ram, root, level, path) != [])
  }

  /** One command. */
  method CarryOne(mem: PhysicalMemory, root: nat, command: Command, level: nat, path: seq<nat>, ends: seq<nat>,
                  ghost x: Space, ghost s0: FrameState, ghost tree0: Tree, ghost states: seq<StackState>,
                  ghost ops: seq<StackOp>, ghost slots: seq<nat>)
    returns (panicked: bool, ends': seq<nat>, ghost e: Event, ghost y: Space, ghost states': seq<StackState>,
             ghost slots': seq<nat>)
    requires mem.Valid() && path == STACK_PATH && level == |path| + 1
    requires x == Space(mem.ram, mem.State(), ends)
    requires Standing(s0, tree0, x, root, level, path, states, ops, slots)
    modifies mem, mem.frames, mem.frames.usage, mem.frames.logger
    ensures mem.Valid()
    ensures panicked <==> Panics(mem.Usable, x, root, level, path, command)
    ensures !panicked ==>
              && y == Space(mem.ram, mem.State(), ends')
              && Happens(mem.Usable, root, level, path, command, x, e, y)
              && Standing(s0, tree0, y, root, level, path, states', ops + OpsOf(e), slots')
  {
    panicked, ends', e, y, states', slots' := false, ends, Nothing, x, states, slots;
    match command
    case NewStack(id) =>
      var r;
      r, e, y, states' := AllocateIn(mem, root, id, level, path, x, s0, tree0, states, ops);
      panicked := r.Panicked?;
      if r.Stacked? {
        ListedMore(ends, slots, states[|ops|], e.slot, states'[|ops + OpsOf(e)|]);
        ends', slots' := ends + [r.end], slots + [e.slot];
      }
    case DropStack(i) =>
      if i < |ends| {
        e := Dropping(slots[i]);
        y, states' := FreeIn(mem, root, ends[i], level, path, slots[i], i, x, s0, tree0, states, ops);
        ListedLess(ends, slots, states[|ops|], i, states'[|ops| + 1]);
        ends', slots' := ends[..i] + ends[i + 1..], slots[..i] + slots[i + 1..];
      } else {
        assert ops + [] == ops;
      }
  }

  // ---------------------------------------------------------------------------------------
  // Many commands
  // ---------------------------------------------------------------------------------------

  /** Carries out the commands in a space that has no stacks yet, up to the first one that panics, if
      any. `spaces` are the spaces in between. The stack table goes through a run of the stack layout,
      so at most 32 stacks are ever completed. */
  method Carry(mem: PhysicalMemory, root: nat, commands: seq<Command>, level: nat, path: seq<nat>)
    returns (panicked: Option<nat>, ghost spaces: seq<Space>, ghost events: seq<Event>, ghost states: seq<StackState>)
    requires mem.Valid() && path == STACK_PATH && level == |path| + 1
    requires StackReady(mem.ram, mem.State(), root, level, path) && Follow(mem.ram, root, level, path) == []
    modifies mem, mem.frames, mem.frames.usage, mem.frames.logger
    ensures mem.Valid()
    ensures CarriedOut(mem.Usable, root, level, path, commands, Space(old(mem.ram), old(mem.State()), []),
                       spaces, events)
    ensures panicked == if |events| < |commands| then Some(|events|) else None
    ensures panicked.None? ==> spaces[|events|].ram == mem.ram && spaces[|events|].frames == mem.State()
    ensures Alive(old(mem.State()), TreeOf(old(mem.ram), root, level), spaces[|events|], root, level, path,
                  states, AllOps(events))
    ensures Completed(AllOps(events)) <= 32 && StackInvariant(states[|AllOps(events)|])
  {
    ghost var s0, tree0 := mem.State(), TreeOf(mem.ram, root, level);
    ghost var x := Space(mem.ram, mem.State(), []);
    ghost var start, slots := x, [];
    spaces, events, states := [x], [], [NoStacks];
    var ends := [];
    for k := 0 to |commands|
      invariant mem.Valid() && x == Space(mem.ram, mem.State(), ends)
      invariant |events| == k && Chain(mem.Usable, root, level, path, commands, start, spaces, events)
      invariant spaces[k] == x && Standing(s0, tree0, x, root, level, path, states, AllOps(events), slots)
    {
      var stop, ends';
      ghost var e, y, states', slots';
      stop, ends', e, y, states', slots' :=
        CarryOne(mem, root, commands[k], level, path, ends, x, s0, tree0, states, AllOps(events), slots);
      if stop {
        StackRunInvariant(states, AllOps(events));
        return Some(k), spaces, events, states;
      }
      ends, states, slots := ends', states', slots';
      ChainMore(mem.Usable, root, level, path, commands, start, spaces, events, e, y);
      AllOpsMore(events, e);
      x, spaces, events := y, spaces + [y], events + [e];
    }
    StackRunInvariant(states, AllOps(events));
    panicked := None;
  }

  /** How a life ends: after teardown, or in a panic while copying or in a command. */
  datatype Life = Finished | NoCopy | Stopped(command: nat)

  /** The rest of the life of a fresh copy: the commands, and teardown. */
  method LiveOut(mem: PhysicalMemory, copy: nat, commands: seq<Command>, level: nat, path: seq<nat>,
                 ghost ram0: Ram, ghost s0: FrameState, ghost kernel: nat)
    returns (life: Life, ghost spaces: seq<Space>, ghost events: seq<Event>)
    requires mem.Valid() && InBitmap(s0) && path == STACK_PATH && level == |path| + 1
    requires IsCopy(mem.Usable, ram0, s0, kernel, mem.ram, mem.State(), copy, level)
    requires UserFrames(TreeOf(ram0, kernel, level)) == [] && Unused(At(ram0, kernel)[path[0]])
    modifies mem, mem.frames, mem.frames.usage, mem.frames.logger
    ensures mem.Valid()
    ensures CarriedOut(mem.Usable, copy, level, path, commands, Space(old(mem.ram), old(mem.State()), []),
                       spaces, events)
    ensures life == if |events| < |commands| then Stopped(|events|) else Finished
    ensures Completed(AllOps(events)) <= 32
    ensures life.Finished? ==> mem.State().used == s0.used
    ensures life.Finished? ==>
              var x := spaces[|events|];
              mem.State() == FreeAll(x.frames, Frees(TreeOf(x.ram, copy, level)))
  {
    ghost var ram1, s1 := mem.ram, mem.State();
    CopyIsReady(mem.Usable, ram0, s0, kernel, ram1, s1, copy, level, path);
    CopyHasNoStacks(mem.Usable, ram0, s0, kernel, ram1, s1, copy, level, path);
    var panicked;
    ghost var states;
    panicked, spaces, events, states := Carry(mem, copy, commands, level, path);
    if panicked.Some? {
      return Stopped(panicked.value), spaces, events;
    }
    LifecycleRestoresUsage(mem.Usable, ram0, s0, kernel, ram1, s1, copy, level,
                           mem.State(), TreeOf(mem.ram, copy, level));
    var done := mem.FreePagesRec(copy, level);
    assert done;
    life := Finished;
  }

  lemma CopyHasNoStacks(usable: seq<nat>, ram0: Ram, s0: FrameState, kernel: nat,
                        ram: Ram, s: FrameState, copy: nat, level: nat, path: seq<nat>)
    requires IsCopy(usable, ram0, s0, kernel, ram, s, copy, level)
    requires path != [] && |path| + 1 == level && path[0] < ENTRIES && Unused(At(ram0, kernel)[path[0]])
    ensures Follow(ram, copy, level, path) == []
  {
    ErasedSlot(ram0, kernel, level, ENTRIES, path[0]);
    ErasedSlot(ram, copy, level, ENTRIES, path[0]);
  }

  /** A process's address space from creation to teardown. The copy fails exactly when frames run out.
      Then the commands are carried out up to the first that panics; if none does, teardown does not
      panic either, and exactly the frames that were in use before are in use again. */
  method LiveAndDie(mem: PhysicalMemory, kernel: nat, commands: seq<Command>)
    returns (life: Life, ghost copy: nat, ghost spaces: seq<Space>, ghost events: seq<Event>)
    requires mem.Valid() && InBitmap(mem.State())
    requires NoneAvailable(mem.Usable, mem.State(), Tables(TreeOf(mem.ram, kernel, LEVELS)))
    requires UserFrames(TreeOf(mem.ram, kernel, LEVELS)) == []
    requires Unused(At(mem.ram, kernel)[STACK_PATH[0]])
    modifies mem, mem.frames, mem.frames.usage, mem.frames.logger
    ensures mem.Valid()
    ensures life.NoCopy? <==> !Grantable(mem.Usable, old(mem.State()), |Tables(TreeOf(old(mem.ram), kernel, LEVELS))|)
    ensures !life.NoCopy? ==>
              && spaces != [] && spaces[0].ends == []
              && IsCopy(mem.Usable, old(mem.ram), old(mem.State()), kernel, spaces[0].ram, spaces[0].frames, copy,
                        LEVELS)
              && CarriedOut(mem.Usable, copy, LEVELS, STACK_PATH, commands, spaces[0], spaces, events)
              && life == if |events| < |commands| then Stopped(|events|) else Finished
    ensures !life.NoCopy? ==> Completed(AllOps(events)) <= 32
    ensures life.Finished? ==> mem.State().used == old(mem.State()).used
  {
    ghost var ram0, s0 := mem.ram, mem.State();
    copy, spaces, events := 0, [], [];
    var r := mem.CopyPagetables(kernel);
    if r.None? {
      life := NoCopy;
      return;
    }
    copy := r.value;
    life, spaces, events := LiveOut(mem, r.value, commands, LEVELS, STACK_PATH, ram0, s0, kernel);
  }
}
