/** What each call on the table of handles comes to, over whole runs: the steps of a call are those of its operation. */
module HandleCalls {
  import opened Wrappers
  import opened Words
  import opened HandleTable

  /** A step from a state that keeps the invariant. */
  ghost predicate StepAt(states: seq<State>, steps: seq<Step>, k: nat)
    requires k < |steps| && |states| == |steps| + 1
  {
    Inv(states[k]) && Enabled(states[k], steps[k]) && states[k + 1] == Next(states[k], steps[k]).0
  }

  /** Any part of a run. */
  ghost predicate Runs(states: seq<State>, steps: seq<Step>) {
    |states| == |steps| + 1 && forall k | 0 <= k < |steps| :: StepAt(states, steps, k)
  }

  /** In particular every run from the empty table. */
  lemma {:induction false} WholeRuns(states: seq<State>, steps: seq<Step>)
    requires IsRun(states, steps)
    ensures Runs(states, steps)
  {
    forall k | 0 <= k < |steps|
      ensures StepAt(states, steps, k)
    {
      RunKeeps(states, steps, k);
    }
  }

  /** Step `a` begins a call of thread `t`, and the thread has begun no other call before state `k`. */
  predicate Began(steps: seq<Step>, a: nat, k: nat, t: nat, op: Operation, handle: nat) {
    && a < k <= |steps| && steps[a] == StepResolve(t, op, handle)
    && forall j | a < j < k :: steps[j].thread == t ==> !Begins(steps[j])
  }

  predicate Begins(e: Step) {
    e.StepResolve? || e.StepInsert?
  }

  lemma {:induction false} BeganBefore(steps: seq<Step>, a: nat, j: nat, k: nat, t: nat, op: Operation, handle: nat)
    requires Began(steps, a, k, t, op, handle) && a < j <= k
    ensures Began(steps, a, j, t, op, handle)
  {
  }

  /** Where a thread can be inside a call of each operation. */
  predicate Fits(pc: Pc, op: Operation) {
    match pc
    case Idle => true
    case Resolved(o, _, _, _) => o == op
    case Locked(o, _, _, _) => o == op
    case Running(_, _, _) => op == With
    case Closing(_, _, _) => op == Close
    case Consuming(_, _, _, _) => op == Consume
    case Retiring(_, _, _, _, _) => op == Consume
    case Leaving(_, _, _, outcome) => (op == Close && outcome.Done?) || (op == Consume && outcome.ConsumeSucceeded?)
  }

  /** The thread is in its call, on the cell that the handle named when the call began. */
  predicate InCall(s: State, began: State, t: nat, op: Operation, handle: nat) {
    var pc := PcOf(s, t);
    pc.Idle? || (Resolve(began, handle) == Ok((pc.index, pc.generation, pc.cell)) && Fits(pc, op))
  }

  lemma {:induction false} OthersStay(s: State, e: Step, t: nat)
    requires Enabled(s, e) && |s.retired| == |s.slots| && e.thread != t
    ensures PcOf(Next(s, e).0, t) == PcOf(s, t)
  {
  }

  lemma {:induction false} OwnStepStays(s: State, e: Step, began: State, t: nat, op: Operation, handle: nat)
    requires Inv(s) && Enabled(s, e) && e.thread == t && !Begins(e) && InCall(s, began, t, op, handle)
    ensures InCall(Next(s, e).0, began, t, op, handle)
  {
    if e.StepRetire? {
      RecheckSucceeds(s, t);
    }
  }

  lemma {:induction false} AnyStepStays(s: State, e: Step, began: State, t: nat, op: Operation, handle: nat)
    requires Inv(s) && Enabled(s, e) && (e.thread == t ==> !Begins(e)) && InCall(s, began, t, op, handle)
    ensures InCall(Next(s, e).0, began, t, op, handle)
  {
    if e.thread == t {
      OwnStepStays(s, e, began, t, op, handle);
    } else {
      OthersStay(s, e, t);
    }
  }

  lemma {:induction false} BeginsInCall(s: State, t: nat, op: Operation, handle: nat)
    requires Inv(s) && Enabled(s, StepResolve(t, op, handle))
    ensures InCall(Next(s, StepResolve(t, op, handle)).0, s, t, op, handle)
  {
  }

  /** A thread stays in the call it has begun: what it does is what the operation is for. */
  lemma {:induction false} CallStaysItself(states: seq<State>, steps: seq<Step>, a: nat, k: nat, t: nat,
                                           op: Operation, handle: nat)
    requires Runs(states, steps) && Began(steps, a, k, t, op, handle)
    ensures InCall(states[k], states[a], t, op, handle)
  {
    assert StepAt(states, steps, k - 1);
    if k == a + 1 {
      BeginsInCall(states[a], t, op, handle);
    } else {
      BeganBefore(steps, a, k - 1, k, t, op, handle);
      CallStaysItself(states, steps, a, k - 1, t, op, handle);
      AnyStepStays(states[k - 1], steps[k - 1], states[a], t, op, handle);
    }
  }

  // ---- effects ----

  /** The step logs this entry, which says what it did to the value that was there. */
  predicate Logs(s: State, s': State, c: nat, entry: Entry) {
    && s'.log == s.log + [entry] && entry.cell == c && !entry.Inserted?
    && Replay(s.log, c) == Live(if entry.Acted? then entry.before else entry.value)
  }

  /** What one step of a call may do to the slots and to the log. */
  predicate DoesOnly(s: State, s': State, e: Step, op: Operation, c: nat) {
    if s'.log == s.log then s'.slots == s.slots
    else
      && s'.log != [] && Logs(s, s', c, s'.log[|s'.log| - 1])
      && var entry := s'.log[|s'.log| - 1];
      match op
      case With => e.StepFinishWith? && entry.Acted? && entry.after == e.after && s'.slots == s.slots
      case Close => e.StepRetire? && entry.Closed? && Frees(s, s', c)
      case Consume =>
        || (e.StepFinishConsume? && e.end.Restore? && entry.Acted? && entry.after == e.end.value && s'.slots == s.slots)
        || (e.StepRetire? && entry.Consumed? && PcOf(s, e.thread).Retiring?
            && entry.result == PcOf(s, e.thread).result && Frees(s, s', c))
  }

  /** The slot that stored the cell is empty and has the next generation; the other slots are as they were. */
  predicate Frees(s: State, s': State, c: nat) {
    exists i | 0 <= i < |s.slots| :: s.slots[i].value == Some(c) && s'.slots == s.slots[i := Freed(s.slots[i])]
  }

  function Freed(slot: Slot): Slot {
    Slot(NextGeneration(slot.generation), None)
  }

  lemma {:induction false} RetireDoes(s: State, t: nat, began: State, op: Operation, handle: nat)
    requires Inv(s) && Enabled(s, StepRetire(t)) && InCall(s, began, t, op, handle)
    ensures DoesOnly(s, Next(s, StepRetire(t)).0, StepRetire(t), op, PcOf(s, t).cell)
    ensures Next(s, StepRetire(t)).0.log != s.log
  {
    var pc := PcOf(s, t);
    RecheckSucceeds(s, t);
    assert PcOk(s, t) && CellOk(s, pc.cell);
    assert s.slots[pc.index].value == Some(pc.cell);
    assert Frees(s, Next(s, StepRetire(t)).0, pc.cell);
  }

  lemma {:induction false} FinishDoes(s: State, e: Step, began: State, op: Operation, handle: nat)
    requires Inv(s) && Enabled(s, e) && (e.StepFinishWith? || e.StepFinishConsume?)
    requires InCall(s, began, e.thread, op, handle)
    ensures DoesOnly(s, Next(s, e).0, e, op, PcOf(s, e.thread).cell)
  {
    var pc := PcOf(s, e.thread);
    assert PcOk(s, e.thread) && CellOk(s, pc.cell);
  }

  /**
    * A call touches no value but the one its handle named, and only as its operation allows: `with` acts on it and
    * changes no slot, `close` ends it and frees its slot, and `consume_if` puts a value back or ends it.
    */
  lemma {:induction false} CallDoesOnly(states: seq<State>, steps: seq<Step>, a: nat, k: nat, t: nat,
                                        op: Operation, handle: nat)
    requires Runs(states, steps) && Began(steps, a, k, t, op, handle)
    requires k < |steps| && steps[k].thread == t && !Begins(steps[k])
    ensures Resolve(states[a], handle).Ok?
    ensures DoesOnly(states[k], states[k + 1], steps[k], op, Resolve(states[a], handle).value.2)
  {
    assert StepAt(states, steps, k);
    CallStaysItself(states, steps, a, k, t, op, handle);
    match steps[k]
    case StepRetire(_) => RetireDoes(states[k], t, states[a], op, handle);
    case StepFinishWith(_, _) => FinishDoes(states[k], steps[k], states[a], op, handle);
    case StepFinishConsume(_, _) => FinishDoes(states[k], steps[k], states[a], op, handle);
    case _ =>
  }

  // ---- answers ----

  lemma {:induction false} BecomesRetiring(s: State, e: Step, t: nat)
    requires Inv(s) && Enabled(s, e) && e.thread == t && PcOf(Next(s, e).0, t).Retiring?
    ensures e == StepFinishConsume(t, Succeed(PcOf(Next(s, e).0, t).result))
  {
  }

  lemma {:induction false} BecomesLeaving(s: State, e: Step, t: nat)
    requires Inv(s) && Enabled(s, e) && e.thread == t && PcOf(Next(s, e).0, t).Leaving?
    ensures e == StepRetire(t)
    ensures PcOf(Next(s, e).0, t).outcome == EndAnswer(PcOf(s, t))
  {
    RecheckSucceeds(s, t);
  }

  /** What a call that has ended a value is to answer. */
  function EndAnswer(pc: Pc): Outcome {
    if pc.Retiring? then ConsumeSucceeded(pc.result) else Done
  }

  /** The consumption's action has succeeded with this result. */
  lemma {:induction false} RetiringHasSucceeded(states: seq<State>, steps: seq<Step>, a: nat, k: nat, t: nat,
                                                op: Operation, handle: nat) returns (j: nat)
    requires Runs(states, steps) && Began(steps, a, k, t, op, handle) && PcOf(states[k], t).Retiring?
    ensures a < j < k && steps[j] == StepFinishConsume(t, Succeed(PcOf(states[k], t).result))
  {
    assert StepAt(states, steps, k - 1);
    if steps[k - 1].thread == t {
      BecomesRetiring(states[k - 1], steps[k - 1], t);
      j := k - 1;
    } else {
      OthersStay(states[k - 1], steps[k - 1], t);
      BeganBefore(steps, a, k - 1, k, t, op, handle);
      j := RetiringHasSucceeded(states, steps, a, k - 1, t, op, handle);
    }
  }

  /** A call that is about to return from ending a value has ended it. */
  lemma {:induction false} LeavingHasEnded(states: seq<State>, steps: seq<Step>, a: nat, k: nat, t: nat,
                                           op: Operation, handle: nat) returns (j: nat)
    requires Runs(states, steps) && Began(steps, a, k, t, op, handle) && PcOf(states[k], t).Leaving?
    ensures a < j < k && steps[j] == StepRetire(t) && PcOf(states[k], t).outcome == EndAnswer(PcOf(states[j], t))
  {
    assert StepAt(states, steps, k - 1);
    if steps[k - 1].thread == t {
      BecomesLeaving(states[k - 1], steps[k - 1], t);
      j := k - 1;
    } else {
      OthersStay(states[k - 1], steps[k - 1], t);
      BeganBefore(steps, a, k - 1, k, t, op, handle);
      j := LeavingHasEnded(states, steps, a, k - 1, t, op, handle);
    }
  }

  /** Another thread holds the cell. */
  predicate HeldByOther(s: State, t: nat, c: nat) {
    exists u | u in s.threads.Keys :: u != t && Holds(PcOf(s, u), c)
  }

  lemma {:induction false} HeldIff(s: State, t: nat)
    requires Inv(s) && PcOf(s, t).Resolved?
    ensures PcOf(s, t).cell < |s.cells|
    ensures s.cells[PcOf(s, t).cell].holder.Some? <==> HeldByOther(s, t, PcOf(s, t).cell)
  {
    var c := PcOf(s, t).cell;
    assert PcOk(s, t) && CellOk(s, c);
    if s.cells[c].holder.Some? {
      var u := s.cells[c].holder.value;
      assert Holds(PcOf(s, u), c) && u in s.threads.Keys;
    }
    if HeldByOther(s, t, c) {
      var u :| u in s.threads.Keys && u != t && Holds(PcOf(s, u), c);
      assert PcOk(s, u);
    }
  }

  lemma {:induction false} GoneIff(s: State, t: nat)
    requires Inv(s) && PcOf(s, t).Locked?
    ensures PcOf(s, t).cell < |s.cells|
    ensures s.cells[PcOf(s, t).cell].value.None? <==> Replay(s.log, PcOf(s, t).cell) == Dead
  {
    var c := PcOf(s, t).cell;
    assert PcOk(s, t) && CellOk(s, c);
  }

  /** A call is told that the value is in use exactly when another thread holds it at the try-lock. */
  lemma {:induction false} BusyIff(states: seq<State>, steps: seq<Step>, a: nat, k: nat, t: nat,
                                   op: Operation, handle: nat)
    requires Runs(states, steps) && Began(steps, a, k, t, op, handle)
    requires k < |steps| && steps[k].thread == t && !Begins(steps[k])
    ensures StepAt(states, steps, k) && Resolve(states[a], handle).Ok?
    ensures Next(states[k], steps[k]).1 == Some(Failed(Busy)) <==>
              steps[k].StepTryLock? && HeldByOther(states[k], t, Resolve(states[a], handle).value.2)
  {
    assert StepAt(states, steps, k);
    CallStaysItself(states, steps, a, k, t, op, handle);
    if steps[k].StepTryLock? {
      HeldIff(states[k], t);
    }
    assert PcOk(states[k], t);
  }

  /** A call that has begun is told that its handle is stale exactly when it finds the value ended. */
  lemma {:induction false} StaleIff(states: seq<State>, steps: seq<Step>, a: nat, k: nat, t: nat,
                                    op: Operation, handle: nat)
    requires Runs(states, steps) && Began(steps, a, k, t, op, handle)
    requires k < |steps| && steps[k].thread == t && !Begins(steps[k])
    ensures StepAt(states, steps, k) && Resolve(states[a], handle).Ok?
    ensures Next(states[k], steps[k]).1 == Some(Failed(Stale)) <==>
              steps[k].StepInspect? && Replay(states[k].log, Resolve(states[a], handle).value.2) == Dead
    ensures Next(states[k], steps[k]).1 != Some(Failed(Invalid))
    ensures Next(states[k], steps[k]).1 != Some(Failed(Exhausted))
  {
    assert StepAt(states, steps, k);
    CallStaysItself(states, steps, a, k, t, op, handle);
    if steps[k].StepInspect? {
      GoneIff(states[k], t);
    }
    assert PcOk(states[k], t);
  }

  /** The call has ended the value of `c` at step `j`, and logged that. */
  ghost predicate EndedAt(states: seq<State>, steps: seq<Step>, a: nat, j: nat, k: nat, t: nat, c: nat,
                          result: Option<int>)
  {
    && a < j < k < |states| == |steps| + 1 && steps[j] == StepRetire(t) && Frees(states[j], states[j + 1], c)
    && Replay(states[j].log, c).Live?
    && var value := Replay(states[j].log, c).value;
    states[j + 1].log == states[j].log + [if result.Some? then Consumed(c, value, result.value) else Closed(c, value)]
  }

  /** The end of an action puts its value in place. */
  lemma {:induction false} FinishAnswers(s: State, e: Step, began: State, op: Operation, handle: nat)
    requires Inv(s) && Enabled(s, e) && (e.StepFinishWith? || e.StepFinishConsume?)
    requires InCall(s, began, e.thread, op, handle)
    ensures var (s', answer) := Next(s, e);
            var c := PcOf(s, e.thread).cell;
            && (e.StepFinishWith? ==> op == With && answer == Some(Done) && Replay(s'.log, c) == Live(e.after))
            && (e.StepFinishConsume? ==>
                  && op == Consume
                  && match e.end
                     case Restore(value) => answer == Some(ConsumeRefused) && Replay(s'.log, c) == Live(value)
                     case Succeed(_) => answer == None)
  {
    FinishDoes(s, e, began, op, handle);
    var s' := Next(s, e).0;
    if s'.log != s.log {
      ReplayAppend(s.log, s'.log[|s.log|], PcOf(s, e.thread).cell);
    } else {
      assert e.StepFinishConsume? && e.end.Succeed?;
    }
  }

  /** A call that returns from ending a value has ended just that value. */
  lemma {:induction false} LeaveAnswers(states: seq<State>, steps: seq<Step>, a: nat, k: nat, t: nat,
                                        op: Operation, handle: nat) returns (j: nat)
    requires Runs(states, steps) && Began(steps, a, k, t, op, handle) && k < |steps| && steps[k] == StepLeave(t)
    ensures StepAt(states, steps, k) && Resolve(states[a], handle).Ok?
    ensures var c, answer := Resolve(states[a], handle).value.2, Next(states[k], steps[k]).1;
            || (op == Close && answer == Some(Done) && EndedAt(states, steps, a, j, k, t, c, None))
            || (op == Consume && answer.Some? && answer.value.ConsumeSucceeded?
                && EndedAt(states, steps, a, j, k, t, c, Some(answer.value.result)))
  {
    assert StepAt(states, steps, k);
    CallStaysItself(states, steps, a, k, t, op, handle);
    j := LeavingHasEnded(states, steps, a, k, t, op, handle);
    BeganBefore(steps, a, j, k, t, op, handle);
    assert StepAt(states, steps, j);
    CallStaysItself(states, steps, a, j, t, op, handle);
    RetireDoes(states[j], t, states[a], op, handle);
  }

  /** The steps that answer nothing yet. */
  lemma {:induction false} OtherStepsAnswer(s: State, e: Step, began: State, op: Operation, handle: nat)
    requires Inv(s) && Enabled(s, e) && (e.StepTryLock? || e.StepInspect? || e.StepRetire?)
    requires InCall(s, began, e.thread, op, handle)
    ensures Next(s, e).1.Some? ==> Next(s, e).1 == Some(Failed(Busy)) || Next(s, e).1 == Some(Failed(Stale))
    ensures e.StepInspect? && Next(s, e).1.None? ==>
              var pc := PcOf(Next(s, e).0, e.thread);
              match op
              case With => pc.Running?
              case Close => pc.Closing?
              case Consume => pc.Consuming? && Replay(s.log, pc.cell) == Live(pc.owned)
  {
    assert PcOk(s, e.thread) && CellOk(s, PcOf(s, e.thread).cell);
  }

  /**
    * What a call answers when it succeeds is what it has done: `with` has put the action's value in place, `close` has
    * ended the value, and `consume_if` has put back what its action gave back, or has ended the value with its result.
    */
  lemma {:induction false} SuccessTellsEffect(states: seq<State>, steps: seq<Step>, a: nat, k: nat, t: nat,
                                              op: Operation, handle: nat)
    requires Runs(states, steps) && Began(steps, a, k, t, op, handle)
    requires k < |steps| && steps[k].thread == t && !Begins(steps[k])
    ensures StepAt(states, steps, k) && Resolve(states[a], handle).Ok?
    ensures var c, answer := Resolve(states[a], handle).value.2, Next(states[k], steps[k]).1;
            answer.Some? ==>
              match answer.value
              case Handle(_) => false
              case Failed(error) => error == Busy || error == Stale
              case Done =>
                || (op == With && steps[k].StepFinishWith? && Replay(states[k + 1].log, c) == Live(steps[k].after))
                || (op == Close && exists j: nat :: EndedAt(states, steps, a, j, k, t, c, None))
              case ConsumeRefused =>
                && op == Consume && steps[k].StepFinishConsume? && steps[k].end.Restore?
                && Replay(states[k + 1].log, c) == Live(steps[k].end.value)
              case ConsumeSucceeded(result) =>
                op == Consume && exists j: nat :: EndedAt(states, steps, a, j, k, t, c, Some(result))
  {
    assert StepAt(states, steps, k);
    CallStaysItself(states, steps, a, k, t, op, handle);
    if steps[k].StepFinishWith? || steps[k].StepFinishConsume? {
      FinishAnswers(states[k], steps[k], states[a], op, handle);
    } else if steps[k].StepLeave? {
      var j := LeaveAnswers(states, steps, a, k, t, op, handle);
    } else {
      OtherStepsAnswer(states[k], steps[k], states[a], op, handle);
    }
  }

  // ---- beginnings ----

  /** A call is refused at once, with no effect, exactly when its handle names nothing; the errors tell why. */
  lemma {:induction false} RefusedAtOnce(s: State, t: nat, op: Operation, handle: nat)
    requires Inv(s) && PcOf(s, t).Idle? && handle < TWO_32 * TWO_32
    ensures var (s', answer) := Next(s, StepResolve(t, op, handle));
            && (answer == None || (s' == s && (answer == Some(Failed(Invalid)) || answer == Some(Failed(Stale)))))
            && (answer == Some(Failed(Invalid)) <==>
                  handle % TWO_32 == 0 || handle / TWO_32 == 0 || handle % TWO_32 > |s.slots|)
            && (answer == None <==>
                  exists i | 0 <= i < |s.slots| ::
                    handle == s.slots[i].generation * TWO_32 + (i + 1) && i + 1 < TWO_32 && s.slots[i].value.Some?)
  {
    var slot, generation := handle % TWO_32, handle / TWO_32;
    assert handle == generation * TWO_32 + slot;
    if i :| 0 <= i < |s.slots| && handle == s.slots[i].generation * TWO_32 + (i + 1) && i + 1 < TWO_32 {
      assert SlotOk(s, i);
      assert slot == i + 1 && generation == s.slots[i].generation;
    }
    if 0 < slot <= |s.slots| {
      assert SlotOk(s, slot - 1);
    }
  }

  /** An insertion makes a live value of what it is given, in the first free slot, under a handle of its own. */
  lemma {:induction false} InsertAnswers(s: State, t: nat, value: int)
    requires Inv(s) && PcOf(s, t).Idle?
    ensures var (s', answer) := Next(s, StepInsert(t, value));
            var c, i := |s.cells|, FirstFree(s.slots);
            && Inv(s') && Replay(s'.log, c) == Live(value) && s'.log == s.log + [Inserted(c, value)]
            && i < |s'.slots| && s'.slots[i].value == Some(c)
            && (forall j | 0 <= j < |s.slots| && j != i :: s'.slots[j] == s.slots[j])
            && (if i + 1 < TWO_32
                then && answer.Some? && answer.value.Handle?
                     && Resolve(s', answer.value.handle) == Ok((i, s'.slots[i].generation, c))
                else answer == Some(Failed(Exhausted)))
  {
    InsertKeeps(s, t, value);
    var s' := Next(s, StepInsert(t, value)).0;
    var c, i := |s.cells|, FirstFree(s.slots);
    ReplayAppend(s.log, Inserted(c, value), c);
    assert SlotOk(s', i) && CellOk(s', c);
    DecodeInvertsEncode(i, s'.slots[i].generation);
  }
}
