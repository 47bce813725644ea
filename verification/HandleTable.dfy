/**
 The table of generational handles shared by every foreign thread.

 The table has two levels of locks: one mutex over the slot vector, and one mutex inside the cell
 of every stored value.  Each critical section of the slot mutex, each try-lock of a cell and each
 end of a user action is one atomic step below; any interleaving of steps of any number of
 threads is a run.  A user action reports what it did when it ends; it never panics.
 */
module HandleTable {
  import opened Wrappers
  import opened Words

  /** Generations run over 1 .. 2^32 - 1; zero never names a slot. */
  const GENERATIONS := 0xFFFF_FFFF

  datatype HandleError = Invalid | Stale | Busy | Exhausted

  // ---- handles ----

  function EncodeHandle(index: nat, generation: nat): Result<nat, HandleError> {
    if index + 1 < TWO_32 then Ok(generation * TWO_32 + (index + 1)) else Err(Exhausted)
  }

  function DecodeHandle(handle: nat): Result<(nat, nat), HandleError> {
    var slot := handle % TWO_32;
    var generation := handle / TWO_32;
    if slot == 0 || generation == 0 then Err(Invalid) else Ok((slot - 1, generation))
  }

  function NextGeneration(generation: nat): nat {
    var next := (generation + 1) % TWO_32;
    if next == 0 then 1 else next
  }

  /** The generation of a slot that has been retired `n` times. */
  function GenerationAfter(n: nat): nat {
    1 + n % GENERATIONS
  }

  lemma {:induction false} NextGenerationStep(n: nat)
    ensures NextGeneration(GenerationAfter(n)) == GenerationAfter(n + 1)
  {
    if n % GENERATIONS == GENERATIONS - 1 {
      assert (n + 1) % GENERATIONS == 0;
    } else {
      assert (n + 1) % GENERATIONS == n % GENERATIONS + 1;
    }
  }

  /** A handle decodes to exactly the slot and generation it was made from. */
  lemma {:induction false} DecodeInvertsEncode(index: nat, generation: nat)
    requires 0 < generation < TWO_32
    ensures index + 1 < TWO_32 ==>
              var handle := EncodeHandle(index, generation).value;
              handle < TWO_32 * TWO_32 && DecodeHandle(handle) == Ok((index, generation))
  {
    if index + 1 < TWO_32 {
      var handle := EncodeHandle(index, generation).value;
      assert handle % TWO_32 == index + 1;
      assert handle / TWO_32 == generation;
    }
  }

  /** The slot is told by the low half, counted from one, and the generation by the high half. */
  lemma {:induction false} HandleHalves(index: nat, generation: nat)
    requires generation < TWO_32 && index + 1 < TWO_32
    ensures EncodeHandle(index, generation).Ok?
    ensures EncodeHandle(index, generation).value % TWO_32 == index + 1
    ensures EncodeHandle(index, generation).value / TWO_32 == generation
  {
  }

  /** Decoding refuses exactly the handles that no slot and generation have. */
  lemma {:induction false} DecodeRefusesIff(handle: nat)
    requires handle < TWO_32 * TWO_32
    ensures DecodeHandle(handle).Err? <==>
              forall index: nat, generation: nat | 0 < generation < TWO_32 :: EncodeHandle(index, generation) != Ok(handle)
  {
    forall index: nat, generation: nat | 0 < generation < TWO_32 && EncodeHandle(index, generation) == Ok(handle)
      ensures DecodeHandle(handle).Ok?
    {
      DecodeInvertsEncode(index, generation);
    }
    if DecodeHandle(handle).Ok? {
      var (index, generation) := DecodeHandle(handle).value;
      assert generation < TWO_32 && EncodeHandle(index, generation) == Ok(handle);
    }
  }

  // ---- the shared state ----

  datatype Operation = With | Close | Consume

  /** Where a thread is inside one of the table's calls. */
  datatype Pc =
    | Idle
    /** Holds a clone of the cell, no lock. */
    | Resolved(op: Operation, index: nat, generation: nat, cell: nat)
    /** Holds the cell's lock and has not looked inside yet. */
    | Locked(op: Operation, index: nat, generation: nat, cell: nat)
    /** Runs the action of `with` on the value in place. */
    | Running(index: nat, generation: nat, cell: nat)
    /** `close` saw a value and is about to take the slot mutex. */
    | Closing(index: nat, generation: nat, cell: nat)
    /** `consume_if` took the value out and runs the action on it. */
    | Consuming(index: nat, generation: nat, cell: nat, owned: int)
    /** The action of `consume_if` succeeded; about to take the slot mutex. */
    | Retiring(index: nat, generation: nat, cell: nat, owned: int, result: int)
    /** Has given the slot mutex back and still holds the cell's lock. */
    | Leaving(index: nat, generation: nat, cell: nat, outcome: Outcome)

  datatype Cell = Cell(value: Option<int>, holder: Option<nat>)
  datatype Slot = Slot(generation: nat, value: Option<nat>)

  /** The slot a cell was stored in, and how often that slot had been retired by then. */
  datatype Home = Home(index: nat, retired: nat)

  /** What successful calls did to a stored value, in the order their steps took effect. */
  datatype Entry =
    | Inserted(cell: nat, value: int)
    | Acted(cell: nat, before: int, after: int)
    | Closed(cell: nat, value: int)
    | Consumed(cell: nat, value: int, result: int)

  /** `homes`, `retired` and `log` are history: no step reads them. */
  datatype State = State(
    slots: seq<Slot>, cells: seq<Cell>, threads: map<nat, Pc>,
    homes: seq<Home>, retired: seq<nat>, log: seq<Entry>)

  function Init(): State {
    State([], [], map[], [], [], [])
  }

  function PcOf(s: State, t: nat): Pc {
    if t in s.threads then s.threads[t] else Idle
  }

  predicate Holds(pc: Pc, c: nat) {
    !pc.Idle? && !pc.Resolved? && pc.cell == c
  }

  // ---- the steps ----

  datatype ActionEnd = Restore(value: int) | Succeed(result: int)

  datatype Step =
    | StepInsert(thread: nat, value: int)
    | StepResolve(thread: nat, op: Operation, handle: nat)
    | StepTryLock(thread: nat)
    | StepInspect(thread: nat)
    | StepFinishWith(thread: nat, after: int)
    | StepFinishConsume(thread: nat, end: ActionEnd)
    | StepRetire(thread: nat)
    | StepLeave(thread: nat)

  datatype Outcome =
    | Handle(handle: nat)
    | Failed(error: HandleError)
    | Done
    | ConsumeRefused
    | ConsumeSucceeded(result: int)

  predicate Enabled(s: State, e: Step) {
    match e
    case StepInsert(t, _) => PcOf(s, t).Idle?
    case StepResolve(t, _, _) => PcOf(s, t).Idle?
    case StepTryLock(t) => PcOf(s, t).Resolved? && PcOf(s, t).cell < |s.cells|
    case StepInspect(t) => PcOf(s, t).Locked? && PcOf(s, t).cell < |s.cells|
    case StepFinishWith(t, _) => PcOf(s, t).Running? && PcOf(s, t).cell < |s.cells| && s.cells[PcOf(s, t).cell].value.Some?
    case StepFinishConsume(t, _) => PcOf(s, t).Consuming? && PcOf(s, t).cell < |s.cells|
    case StepRetire(t) => (PcOf(s, t).Closing? || PcOf(s, t).Retiring?) && PcOf(s, t).cell < |s.cells|
    case StepLeave(t) => PcOf(s, t).Leaving? && PcOf(s, t).cell < |s.cells|
  }

  /** The first slot that stores nothing, or the number of slots. */
  function FirstFree(slots: seq<Slot>): (i: nat)
    ensures i <= |slots|
    ensures i < |slots| ==> slots[i].value.None?
    ensures forall j | 0 <= j < i :: slots[j].value.Some?
  {
    if slots == [] || slots[0].value.None? then 0 else 1 + FirstFree(slots[1..])
  }

  function At(s: State, t: nat, pc: Pc): State {
    s.(threads := s.threads[t := pc])
  }

  function Insert(s: State, t: nat, value: int): (State, Option<Outcome>)
    requires |s.retired| == |s.slots|
  {
    var i := FirstFree(s.slots);
    var c := |s.cells|;
    var append := i == |s.slots|;
    var generation := if append then 1 else s.slots[i].generation;
    var retired := if append then 0 else s.retired[i];
    var s' := s.(slots := if append then s.slots + [Slot(generation, Some(c))] else s.slots[i := Slot(generation, Some(c))],
                 retired := if append then s.retired + [0] else s.retired,
                 cells := s.cells + [Cell(Some(value), None)],
                 homes := s.homes + [Home(i, retired)],
                 log := s.log + [Inserted(c, value)]);
    (s', Some(match EncodeHandle(i, generation)
              case Ok(handle) => Handle(handle)
              case Err(error) => Failed(error)))
  }

  /** What the slot mutex is held for: the slot, the generation and the cell a handle names now. */
  function Resolve(s: State, handle: nat): Result<(nat, nat, nat), HandleError> {
    match DecodeHandle(handle)
    case Err(error) => Err(error)
    case Ok((index, generation)) =>
      if index >= |s.slots| then Err(Invalid)
      else if s.slots[index].generation != generation then Err(Stale)
      else match s.slots[index].value
        case None => Err(Stale)
        case Some(c) => Ok((index, generation, c))
  }

  function Unlock(s: State, c: nat, value: Option<int>): State
    requires c < |s.cells|
  {
    s.(cells := s.cells[c := Cell(value, None)])
  }

  /** The check made under the slot mutex while the cell's lock is held. */
  predicate StillStored(s: State, index: nat, generation: nat, c: nat) {
    index < |s.slots| && s.slots[index].generation == generation && s.slots[index].value == Some(c)
  }

  function RetireSlot(s: State, index: nat, entry: Entry): State
    requires index < |s.slots| == |s.retired|
  {
    s.(slots := s.slots[index := Slot(NextGeneration(s.slots[index].generation), None)],
       retired := s.retired[index := s.retired[index] + 1],
       log := s.log + [entry])
  }

  /** The critical section of the slot mutex that ends a value; the cell stays locked behind it. */
  function Retire(s: State, t: nat): State
    requires Enabled(s, StepRetire(t)) && |s.retired| == |s.slots|
  {
    var pc := PcOf(s, t);
    var c := pc.cell;
    if pc.index >= |s.slots| then At(s, t, Leaving(pc.index, pc.generation, c, Failed(Invalid)))
    else if !StillStored(s, pc.index, pc.generation, c) then At(s, t, Leaving(pc.index, pc.generation, c, Failed(Stale)))
    else match pc
      case Closing(index, generation, _) =>
        var value := if s.cells[c].value.Some? then s.cells[c].value.value else 0;
        RetireSlot(Emptied(At(s, t, Leaving(index, generation, c, Done)), c), index, Closed(c, value))
      case Retiring(index, generation, _, owned, result) =>
        RetireSlot(At(s, t, Leaving(index, generation, c, ConsumeSucceeded(result))), index, Consumed(c, owned, result))
  }

  function Emptied(s: State, c: nat): State
    requires c < |s.cells|
  {
    s.(cells := s.cells[c := s.cells[c].(value := None)])
  }

  /** One atomic step: the next state, and the answer when the thread's call returns. */
  function Next(s: State, e: Step): (State, Option<Outcome>)
    requires Enabled(s, e) && |s.retired| == |s.slots|
  {
    var t := e.thread;
    var pc := PcOf(s, t);
    match e
    case StepInsert(_, value) => Insert(s, t, value)
    case StepResolve(_, op, handle) =>
      (match Resolve(s, handle)
       case Ok((index, generation, c)) => (At(s, t, Resolved(op, index, generation, c)), None)
       case Err(error) => (s, Some(Failed(error))))
    case StepTryLock(_) =>
      if s.cells[pc.cell].holder.Some? then (At(s, t, Idle), Some(Failed(Busy)))
      else (At(s, t, Locked(pc.op, pc.index, pc.generation, pc.cell))
              .(cells := s.cells[pc.cell := s.cells[pc.cell].(holder := Some(t))]), None)
    case StepInspect(_) =>
      (match s.cells[pc.cell].value
       case None => (Unlock(At(s, t, Idle), pc.cell, None), Some(Failed(Stale)))
       case Some(value) =>
         match pc.op
         case With => (At(s, t, Running(pc.index, pc.generation, pc.cell)), None)
         case Close => (At(s, t, Closing(pc.index, pc.generation, pc.cell)), None)
         case Consume => (At(s, t, Consuming(pc.index, pc.generation, pc.cell, value))
                            .(cells := s.cells[pc.cell := s.cells[pc.cell].(value := None)]), None))
    case StepFinishWith(_, after) =>
      (Unlock(At(s, t, Idle), pc.cell, Some(after))
         .(log := s.log + [Acted(pc.cell, s.cells[pc.cell].value.value, after)]), Some(Done))
    case StepFinishConsume(_, Restore(restored)) =>
      (Unlock(At(s, t, Idle), pc.cell, Some(restored))
         .(log := s.log + [Acted(pc.cell, pc.owned, restored)]), Some(ConsumeRefused))
    case StepFinishConsume(_, Succeed(result)) =>
      (At(s, t, Retiring(pc.index, pc.generation, pc.cell, pc.owned, result)), None)
    case StepRetire(_) => (Retire(s, t), None)
    case StepLeave(_) => (Unlock(At(s, t, Idle), pc.cell, s.cells[pc.cell].value), Some(pc.outcome))
  }

  // ---- the sequential meaning of a log ----

  /** The life of one stored value as a log tells it; `Broken` is a log no sequential table makes. */
  datatype Life = Unborn | Live(value: int) | Dead | Broken

  function Apply(life: Life, c: nat, e: Entry): Life {
    if e.cell != c then life else
    match e
    case Inserted(_, value) => if life.Unborn? then Live(value) else Broken
    case Acted(_, before, after) => if life == Live(before) then Live(after) else Broken
    case Closed(_, value) => if life == Live(value) then Dead else Broken
    case Consumed(_, value, _) => if life == Live(value) then Dead else Broken
  }

  function Replay(log: seq<Entry>, c: nat): Life {
    if log == [] then Unborn else Apply(Replay(log[..|log| - 1], c), c, log[|log| - 1])
  }

  lemma {:induction false} ReplayAppend(log: seq<Entry>, e: Entry, c: nat)
    ensures Replay(log + [e], c) == Apply(Replay(log, c), c, e)
  {
    assert (log + [e])[..|log|] == log;
  }

  // ---- the invariant ----

  predicate Stored(s: State, c: nat)
    requires c < |s.homes|
  {
    s.homes[c].index < |s.slots| && s.slots[s.homes[c].index].value == Some(c)
  }

  /** The thread at `pc` has the value of `c` in its hands. */
  predicate HasTaken(pc: Pc, c: nat) {
    (pc.Consuming? || pc.Retiring?) && pc.cell == c
  }

  ghost predicate SlotOk(s: State, i: nat)
    requires i < |s.slots| == |s.retired|
  {
    && s.slots[i].generation == GenerationAfter(s.retired[i])
    && (s.slots[i].value.Some? ==>
          var c := s.slots[i].value.value; c < |s.homes| && s.homes[c] == Home(i, s.retired[i]))
  }

  ghost predicate PcOk(s: State, t: nat)
    requires |s.homes| == |s.cells|
  {
    var pc := PcOf(s, t);
    pc.Idle? ||
    (&& pc.cell < |s.cells|
     && pc.index == s.homes[pc.cell].index
     && pc.generation == GenerationAfter(s.homes[pc.cell].retired)
     && (Holds(pc, pc.cell) ==> s.cells[pc.cell].holder == Some(t))
     && (pc.Running? || pc.Closing? ==> s.cells[pc.cell].value.Some?)
     && (HasTaken(pc, pc.cell) ==> s.cells[pc.cell].value.None? && Stored(s, pc.cell))
     && (pc.Leaving? ==> s.cells[pc.cell].value.None? && !Stored(s, pc.cell) && (pc.outcome.Done? || pc.outcome.ConsumeSucceeded?)))
  }

  ghost predicate CellOk(s: State, c: nat)
    requires c < |s.cells| == |s.homes|
  {
    var cell := s.cells[c];
    && (cell.holder.Some? ==> Holds(PcOf(s, cell.holder.value), c))
    && (cell.value.Some? ==> Stored(s, c) && Replay(s.log, c) == Live(cell.value.value))
    && (cell.value.None? && Stored(s, c) ==>
          && cell.holder.Some? && HasTaken(PcOf(s, cell.holder.value), c)
          && Replay(s.log, c) == Live(PcOf(s, cell.holder.value).owned))
    && (!Stored(s, c) ==> Replay(s.log, c) == Dead)
    && s.homes[c].index < |s.slots| == |s.retired|
    && (Stored(s, c) ==> s.homes[c].retired == s.retired[s.homes[c].index])
    && (!Stored(s, c) ==> s.homes[c].retired < s.retired[s.homes[c].index])
  }

  ghost predicate Inv(s: State) {
    && |s.homes| == |s.cells| && |s.retired| == |s.slots|
    && (forall i: nat | i < |s.slots| :: SlotOk(s, i))
    && (forall c: nat | c < |s.cells| :: CellOk(s, c))
    && (forall t: nat :: PcOk(s, t))
    && (forall c: nat | |s.cells| <= c :: Replay(s.log, c) == Unborn)
  }

  lemma {:induction false} InitOk()
    ensures Inv(Init())
  {
  }

  /** An insertion answers with the handle of the new cell's home. */
  lemma {:induction false} InsertKeeps(s: State, t: nat, value: int)
    requires Inv(s) && PcOf(s, t).Idle?
    ensures Inv(Insert(s, t, value).0)
    ensures var home := Insert(s, t, value).0.homes[|s.cells|];
            Insert(s, t, value).1 == Some(match EncodeHandle(home.index, GenerationAfter(home.retired))
                                          case Ok(handle) => Handle(handle)
                                          case Err(error) => Failed(error))
  {
    var s' := Insert(s, t, value).0;
    var i := FirstFree(s.slots);
    var c := |s.cells|;
    if i < |s.slots| {
      assert SlotOk(s, i);
    }
    forall d: nat
      ensures Replay(s'.log, d) == Apply(Replay(s.log, d), d, Inserted(c, value))
    {
      ReplayAppend(s.log, Inserted(c, value), d);
    }
    forall j: nat | j < |s'.slots|
      ensures SlotOk(s', j)
    {
      if j < |s.slots| { assert SlotOk(s, j); }
    }
    forall d: nat | d < |s'.cells|
      ensures CellOk(s', d)
    {
      if d < c {
        assert CellOk(s, d);
        assert Stored(s', d) == Stored(s, d);
      }
    }
    forall u: nat
      ensures PcOk(s', u)
    {
      assert PcOk(s, u);
    }
  }

  /** A step that changes one cell and one thread, and no slot, keeps the rest as it was. */
  lemma {:induction false} CellStepKeeps(s: State, s': State, t: nat, c: nat)
    requires Inv(s) && c < |s.cells|
    requires s'.slots == s.slots && s'.homes == s.homes && s'.retired == s.retired
    requires |s'.cells| == |s.cells| && forall d | 0 <= d < |s.cells| && d != c :: s'.cells[d] == s.cells[d]
    requires forall u: nat | u != t :: PcOf(s', u) == PcOf(s, u)
    requires forall d: nat | d != c :: Replay(s'.log, d) == Replay(s.log, d)
    requires Holds(PcOf(s, t), c) || (PcOf(s, t).Resolved? && s.cells[c].holder.None?)
    requires CellOk(s', c) && PcOk(s', t)
    ensures Inv(s')
  {
    forall i: nat | i < |s'.slots|
      ensures SlotOk(s', i)
    {
      assert SlotOk(s, i);
    }
    assert PcOk(s, t);
    forall d: nat | d < |s'.cells|
      ensures CellOk(s', d)
    {
      assert CellOk(s, d);
      assert d != c ==> s.cells[d].holder != Some(t);
    }
    assert CellOk(s, c);
    forall u: nat
      ensures PcOk(s', u)
    {
      assert PcOk(s, u);
    }
  }

  /** While a thread holds the cell of a live value, the check under the slot mutex succeeds. */
  lemma {:induction false} RecheckSucceeds(s: State, t: nat)
    requires Inv(s) && Enabled(s, StepRetire(t))
    ensures var pc := PcOf(s, t); StillStored(s, pc.index, pc.generation, pc.cell)
  {
    var pc := PcOf(s, t);
    assert PcOk(s, t);
    assert CellOk(s, pc.cell);
    assert SlotOk(s, pc.index);
  }

  /** What the retirement's log entry means for a cell. */
  lemma {:induction false} RetireReplays(s: State, t: nat, d: nat)
    requires Inv(s) && Enabled(s, StepRetire(t))
    ensures var s' := Retire(s, t);
            && |s'.log| == |s.log| + 1
            && Replay(s'.log, d) == Apply(Replay(s.log, d), d, s'.log[|s.log|])
  {
    RecheckSucceeds(s, t);
    var s' := Retire(s, t);
    ReplayAppend(s.log, s'.log[|s.log|], d);
  }

  lemma {:induction false} RetireKeepsSlot(s: State, t: nat, i: nat)
    requires Inv(s) && Enabled(s, StepRetire(t)) && i < |s.slots|
    ensures |Retire(s, t).slots| == |s.slots| && SlotOk(Retire(s, t), i)
  {
    var pc := PcOf(s, t);
    RecheckSucceeds(s, t);
    assert PcOk(s, t) && CellOk(s, pc.cell) && SlotOk(s, i);
    NextGenerationStep(s.retired[pc.index]);
  }

  /** A cell that a retirement is not about is as before: still stored where it was, or dead as it was. */
  lemma {:induction false} OtherCellKeeps(s: State, s': State, t: nat, d: nat)
    requires d < |s.cells| == |s.homes| == |s'.cells| && CellOk(s, d) && s'.homes == s.homes
    requires s'.cells[d] == s.cells[d] && s.cells[d].holder != Some(t)
    requires forall u: nat | u != t :: PcOf(s', u) == PcOf(s, u)
    requires Stored(s', d) == Stored(s, d) && Replay(s'.log, d) == Replay(s.log, d)
    requires |s'.slots| == |s.slots| == |s'.retired| == |s.retired|
    requires var i := s.homes[d].index;
             i < |s.retired| && s'.retired[i] >= s.retired[i] && (Stored(s, d) ==> s'.retired[i] == s.retired[i])
    ensures CellOk(s', d)
  {
  }

  lemma {:induction false} RetireKeepsCell(s: State, t: nat, d: nat)
    requires Inv(s) && Enabled(s, StepRetire(t)) && d < |s.cells|
    ensures |Retire(s, t).cells| == |s.cells| && CellOk(Retire(s, t), d)
  {
    var s' := Retire(s, t);
    var c := PcOf(s, t).cell;
    RecheckSucceeds(s, t);
    assert PcOk(s, t) && CellOk(s, c) && CellOk(s, d);
    RetireReplays(s, t, d);
    if d != c {
      assert Stored(s', d) == Stored(s, d);
      OtherCellKeeps(s, s', t, d);
    }
  }

  lemma {:induction false} RetireKeepsPc(s: State, t: nat, u: nat)
    requires Inv(s) && Enabled(s, StepRetire(t))
    ensures PcOk(Retire(s, t), u)
  {
    var c := PcOf(s, t).cell;
    RecheckSucceeds(s, t);
    assert PcOk(s, t) && CellOk(s, c) && PcOk(s, u);
    assert u != t ==> !Holds(PcOf(s, u), c);
  }

  /** Retiring a slot keeps the invariant. */
  lemma {:induction false} RetireKeeps(s: State, t: nat)
    requires Inv(s) && Enabled(s, StepRetire(t))
    ensures Inv(Retire(s, t))
  {
    var s' := Retire(s, t);
    RecheckSucceeds(s, t);
    forall d: nat
      ensures Replay(s'.log, d) == Apply(Replay(s.log, d), d, s'.log[|s.log|])
    {
      RetireReplays(s, t, d);
    }
    forall i: nat | i < |s.slots|
      ensures SlotOk(s', i)
    {
      RetireKeepsSlot(s, t, i);
    }
    forall d: nat | d < |s.cells|
      ensures CellOk(s', d)
    {
      RetireKeepsCell(s, t, d);
    }
    forall u: nat
      ensures PcOk(s', u)
    {
      RetireKeepsPc(s, t, u);
    }
    assert PcOk(s, t);
  }

  lemma {:induction false} LockKeeps(s: State, t: nat)
    requires Inv(s) && Enabled(s, StepTryLock(t))
    ensures Inv(Next(s, StepTryLock(t)).0)
  {
    var pc := PcOf(s, t);
    assert PcOk(s, t) && CellOk(s, pc.cell);
    if s.cells[pc.cell].holder.None? {
      CellStepKeeps(s, Next(s, StepTryLock(t)).0, t, pc.cell);
    } else {
      ReturnKeeps(s, t);
    }
  }

  lemma {:induction false} InspectKeeps(s: State, t: nat)
    requires Inv(s) && Enabled(s, StepInspect(t))
    ensures Inv(Next(s, StepInspect(t)).0)
  {
    var pc := PcOf(s, t);
    assert PcOk(s, t) && CellOk(s, pc.cell);
    CellStepKeeps(s, Next(s, StepInspect(t)).0, t, pc.cell);
  }

  /** The end of an action logs what it did. */
  lemma {:induction false} FinishKeeps(s: State, e: Step)
    requires Inv(s) && Enabled(s, e) && (e.StepFinishWith? || e.StepFinishConsume?)
    ensures Inv(Next(s, e).0)
  {
    var s' := Next(s, e).0;
    var pc := PcOf(s, e.thread);
    assert PcOk(s, e.thread) && CellOk(s, pc.cell);
    if e.StepFinishWith? || e.end.Restore? {
      LogStep(s.log, s'.log[|s.log|]);
    }
    CellStepKeeps(s, s', e.thread, pc.cell);
  }

  /** Giving a dead cell's lock back keeps the invariant. */
  lemma {:induction false} LeaveKeeps(s: State, t: nat)
    requires Inv(s) && Enabled(s, StepLeave(t))
    ensures Inv(Next(s, StepLeave(t)).0)
  {
    var pc := PcOf(s, t);
    assert PcOk(s, t) && CellOk(s, pc.cell);
    CellStepKeeps(s, Next(s, StepLeave(t)).0, t, pc.cell);
  }

  /** Every atomic step keeps the invariant. */
  lemma {:induction false} StepKeeps(s: State, e: Step)
    requires Inv(s) && Enabled(s, e)
    ensures Inv(Next(s, e).0)
  {
    match e
    case StepInsert(t, value) => InsertKeeps(s, t, value);
    case StepResolve(t, op, handle) => ResolveKeeps(s, t, op, handle);
    case StepTryLock(t) => LockKeeps(s, t);
    case StepInspect(t) => InspectKeeps(s, t);
    case StepRetire(t) => RetireKeeps(s, t);
    case StepLeave(t) => LeaveKeeps(s, t);
    case _ => FinishKeeps(s, e);
  }

  lemma {:induction false} LogStep(log: seq<Entry>, e: Entry)
    ensures forall c: nat :: Replay(log + [e], c) == Apply(Replay(log, c), c, e)
  {
    forall c: nat
      ensures Replay(log + [e], c) == Apply(Replay(log, c), c, e)
    {
      ReplayAppend(log, e, c);
    }
  }

  /** Moving a thread that holds no cell changes nothing for anyone else. */
  lemma {:induction false} MoveKeeps(s: State, t: nat, pc: Pc)
    requires Inv(s)
    requires PcOf(s, t).Idle? || PcOf(s, t).Resolved?
    requires PcOk(At(s, t, pc), t) && (pc.Idle? || pc.Resolved?)
    ensures Inv(At(s, t, pc))
  {
    var s' := At(s, t, pc);
    forall i: nat | i < |s'.slots|
      ensures SlotOk(s', i)
    {
      assert SlotOk(s, i);
    }
    forall d: nat | d < |s'.cells|
      ensures CellOk(s', d)
    {
      assert CellOk(s, d);
    }
    forall u: nat
      ensures PcOk(s', u)
    {
      assert PcOk(s, u);
    }
  }

  lemma {:induction false} ReturnKeeps(s: State, t: nat)
    requires Inv(s) && PcOf(s, t).Resolved?
    ensures Inv(At(s, t, Idle))
  {
    MoveKeeps(s, t, Idle);
  }

  lemma {:induction false} ResolveKeeps(s: State, t: nat, op: Operation, handle: nat)
    requires Inv(s) && PcOf(s, t).Idle?
    ensures Inv(Next(s, StepResolve(t, op, handle)).0)
  {
    match Resolve(s, handle)
    case Err(_) =>
    case Ok((index, generation, c)) =>
      assert SlotOk(s, index);
      assert CellOk(s, c);
      MoveKeeps(s, t, Resolved(op, index, generation, c));
  }

  // ---- runs ----

  ghost predicate IsRun(states: seq<State>, steps: seq<Step>) {
    && |states| == |steps| + 1
    && states[0] == Init()
    && forall k | 0 <= k < |steps| ::
         && |states[k].retired| == |states[k].slots|
         && Enabled(states[k], steps[k])
         && states[k + 1] == Next(states[k], steps[k]).0
  }

  lemma {:induction false} RunKeeps(states: seq<State>, steps: seq<Step>, k: nat)
    requires IsRun(states, steps)
    requires k < |states|
    ensures Inv(states[k])
  {
    if k == 0 {
      InitOk();
    } else {
      RunKeeps(states, steps, k - 1);
      assert states[k - 1 + 1] == Next(states[k - 1], steps[k - 1]).0;
      StepKeeps(states[k - 1], steps[k - 1]);
    }
  }

  /** Two threads never act on one stored value at the same time. */
  lemma {:induction false} ActionsExclude(states: seq<State>, steps: seq<Step>, k: nat, t: nat, u: nat, c: nat)
    requires IsRun(states, steps)
    requires k < |states|
    requires Holds(PcOf(states[k], t), c) && Holds(PcOf(states[k], u), c)
    ensures t == u
  {
    RunKeeps(states, steps, k);
    assert PcOk(states[k], t) && PcOk(states[k], u);
  }

  /** The entries a run makes for one value are a sequential life: no overlap, no lost update, one end. */
  lemma {:induction false} RunIsLinear(states: seq<State>, steps: seq<Step>, k: nat, c: nat)
    requires IsRun(states, steps)
    requires k < |states|
    ensures Replay(states[k].log, c) != Broken
  {
    RunKeeps(states, steps, k);
    if c < |states[k].cells| {
      assert CellOk(states[k], c);
    }
  }

  predicate Ends(e: Entry) {
    e.Closed? || e.Consumed?
  }

  /** In a sequential life nothing follows the end: a value is closed or consumed at most once. */
  lemma {:induction false} NothingAfterEnd(log: seq<Entry>, c: nat, i: nat, j: nat)
    requires Replay(log, c) != Broken
    requires i < j < |log|
    requires log[i].cell == c && Ends(log[i])
    ensures log[j].cell != c
    decreases |log|
  {
    var shorter := log[..|log| - 1];
    assert Replay(shorter, c) != Broken;
    if j < |log| - 1 {
      NothingAfterEnd(shorter, c, i, j);
    } else {
      DeadAfterEnd(shorter, c, i);
    }
  }

  lemma {:induction false} DeadAfterEnd(log: seq<Entry>, c: nat, i: nat)
    requires Replay(log, c) != Broken
    requires i < |log|
    requires log[i].cell == c && Ends(log[i])
    ensures Replay(log, c) == Dead
    decreases |log|
  {
    if i < |log| - 1 {
      DeadAfterEnd(log[..|log| - 1], c, i);
    }
  }

  /** Once a value has ended, no thread can be acting on it, in this state of the run. */
  lemma {:induction false} EndedValuesAreUntouched(states: seq<State>, steps: seq<Step>, k: nat, i: nat, t: nat)
    requires IsRun(states, steps)
    requires k < |states| && i < |states[k].log| && Ends(states[k].log[i])
    ensures var c := states[k].log[i].cell;
            var pc := PcOf(states[k], t);
            Holds(pc, c) ==> (pc.Locked? || pc.Leaving?) && c < |states[k].cells| && states[k].cells[c].value.None?
  {
    var s := states[k];
    var c := s.log[i].cell;
    RunKeeps(states, steps, k);
    RunIsLinear(states, steps, k, c);
    DeadAfterEnd(s.log, c, i);
    if c < |s.cells| {
      assert CellOk(s, c);
      assert PcOk(s, t);
    }
  }

  /** A close or a successful consumption that takes the slot mutex always ends the value, with the action's result. */
  lemma {:induction false} RetireNeverLoses(states: seq<State>, steps: seq<Step>, k: nat)
    requires IsRun(states, steps)
    requires k < |steps| && steps[k].StepRetire?
    ensures var pc := PcOf(states[k], steps[k].thread);
            PcOf(states[k + 1], steps[k].thread)
            == Leaving(pc.index, pc.generation, pc.cell, if pc.Retiring? then ConsumeSucceeded(pc.result) else Done)
  {
    RunKeeps(states, steps, k);
    RecheckSucceeds(states[k], steps[k].thread);
    assert states[k + 1] == Next(states[k], steps[k]).0;
  }

  /** Whatever other threads do to the slot meanwhile, the call then returns that result: the stale answers never occur. */
  lemma {:induction false} LeaveReportsSuccess(states: seq<State>, steps: seq<Step>, k: nat)
    requires IsRun(states, steps)
    requires k < |steps| && steps[k].StepLeave?
    ensures var pc := PcOf(states[k], steps[k].thread);
            && Next(states[k], steps[k]).1 == Some(pc.outcome)
            && (pc.outcome.Done? || pc.outcome.ConsumeSucceeded?)
  {
    RunKeeps(states, steps, k);
    assert PcOk(states[k], steps[k].thread);
  }

  /** A slot that has been freed can be taken again while the cell that left it is still locked. */
  lemma {:induction false} SlotIsFreeBeforeCell(states: seq<State>, steps: seq<Step>, k: nat, t: nat)
    requires IsRun(states, steps)
    requires k < |states| && PcOf(states[k], t).Leaving?
    ensures var pc := PcOf(states[k], t);
            && pc.cell < |states[k].cells| == |states[k].homes| && states[k].cells[pc.cell] == Cell(None, Some(t))
            && !Stored(states[k], pc.cell) && Replay(states[k].log, pc.cell) == Dead
  {
    RunKeeps(states, steps, k);
    assert PcOk(states[k], t);
    assert CellOk(states[k], PcOf(states[k], t).cell);
  }

  /** No deadlock: a thread inside a call always has an enabled step. */
  lemma {:induction false} NoThreadIsStuck(states: seq<State>, steps: seq<Step>, k: nat, t: nat)
    requires IsRun(states, steps)
    requires k < |states| && !PcOf(states[k], t).Idle?
    ensures exists e: Step :: e.thread == t && Enabled(states[k], e)
  {
    RunKeeps(states, steps, k);
    var s := states[k];
    assert PcOk(s, t);
    var e := match PcOf(s, t)
      case Resolved(_, _, _, _) => StepTryLock(t)
      case Locked(_, _, _, _) => StepInspect(t)
      case Running(_, _, _) => StepFinishWith(t, 0)
      case Consuming(_, _, _, _) => StepFinishConsume(t, Restore(0))
      case Leaving(_, _, _, _) => StepLeave(t)
      case _ => StepRetire(t);
    assert e.thread == t && Enabled(s, e);
  }

  /**
   The handle of cell `c` resolves exactly when its slot stores something and the slot has been
   retired a multiple of 2^32 - 1 times since.  So it names `c` until `c` ends, and after that it
   can only come to name another value, and only after a positive multiple of that many retirements.
   */
  lemma {:induction false} HandleResolvesIff(states: seq<State>, steps: seq<Step>, k: nat, c: nat)
    requires IsRun(states, steps)
    requires k < |states| && c < |states[k].homes|
    requires states[k].homes[c].index + 1 < TWO_32
    ensures var s := states[k];
            var home := s.homes[c];
            var handle := EncodeHandle(home.index, GenerationAfter(home.retired)).value;
            && home.index < |s.slots| == |s.retired| && home.retired <= s.retired[home.index]
            && var since := s.retired[home.index] - home.retired;
            && (Resolve(s, handle).Ok? <==> s.slots[home.index].value.Some? && since % GENERATIONS == 0)
            && (Resolve(s, handle).Ok? ==> (Resolve(s, handle).value.2 == c <==> since == 0))
  {
    var s := states[k];
    RunKeeps(states, steps, k);
    var home := s.homes[c];
    DecodeInvertsEncode(home.index, GenerationAfter(home.retired));
    assert CellOk(s, c);
    assert SlotOk(s, home.index);
    SameGeneration(home.retired, s.retired[home.index]);
  }

  lemma {:induction false} SameGeneration(a: nat, b: nat)
    requires a <= b
    ensures GenerationAfter(a) == GenerationAfter(b) <==> (b - a) % GENERATIONS == 0
  {
    var m := GENERATIONS;
    assert a == m * (a / m) + a % m && b == m * (b / m) + b % m;
    assert b - a == m * (b / m - a / m) + (b % m - a % m);
  }
}
