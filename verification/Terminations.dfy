/** Forced termination: how it unwinds the stack, on its own and with other operations in between. */
module Terminations {
  import opened Wrappers
  import opened Batch
  import opened Sessions
  import opened Processes
  import opened Transitions
  import opened LateAnswers

  /** Whether the parent's session takes the news that the top process has ended. */
  predicate Delivered(m: Machine, reply: Reply)
    requires |m.frames| > 1 && m.frames[|m.frames| - 2].process.Some?
  {
    var parent := m.frames[|m.frames| - 2];
    Takes(parent.session, parent.process.value, reply)
  }

  /** The process that forced termination is to end is the one at `t`. */
  predicate TargetAt(m: Machine, t: nat) {
    t < |m.frames| && m.termination == Some(m.frames[t].scope)
  }

  /**
    * One step of forced termination: a compilation that a process from the target up waits for is given up, the top
    * process ends, and with the target the termination is over.
    */
  function Terminated(l: Limits, m: Machine, t: nat, reply: Reply): Machine
    requires MayExit(l, m)
  {
    var n := Exited(l, m, reply);
    n.(compilation := GivenUp(m.compilation, t),
    termination := if Delivered(m, reply) && |n.frames| == t then None else n.termination)
  }

  function GivenUp(compilation: Option<Compilation>, t: nat): Option<Compilation> {
    if compilation.Some? && compilation.value.depth > t then None else compilation
  }

  /** A compilation outlasts a step of forced termination exactly when a process below the target asked for it. */
  lemma {:induction false} CompilationOutlastsIff(l: Limits, m: Machine, t: nat, reply: Reply)
    requires MayExit(l, m)
    ensures var n := Terminated(l, m, t, reply);
            && (n.compilation.Some? <==> m.compilation.Some? && m.compilation.value.depth <= t)
            && (n.compilation.Some? ==> n.compilation == m.compilation)
  {
  }

  lemma {:induction false} TargetIsNotRoot(l: Limits, m: Machine, t: nat)
    requires Stacked(l, m) && TargetAt(m, t)
    ensures t >= 1 && |m.frames| > 1 && MayExit(l, m)
  {
    ChildMayExit(l, m);
  }

  lemma {:induction false} TerminatedKeeps(l: Limits, m: Machine, t: nat, reply: Reply)
    requires Inv(l, m) && MayExit(l, m)
    ensures Inv(l, Terminated(l, m, t, reply)) && Evolves(m, Terminated(l, m, t, reply))
  {
    var n := Exited(l, m, reply);
    ExitedKeeps(l, m, reply);
    MarksSet(l, m, n, Terminated(l, m, t, reply).termination, GivenUp(m.compilation, t));
  }

  predicate UnwindsAt(l: Limits, ms: seq<Machine>, t: nat, answers: seq<Reply>, i: nat)
    requires i < |answers| && |ms| == |answers| + 1
  {
    TerminationStep(l, ms[i], ms[i + 1], t, answers[i])
  }

  predicate TerminationStep(l: Limits, m: Machine, n: Machine, t: nat, reply: Reply) {
    MayExit(l, m) && n == Terminated(l, m, t, reply)
  }

  /** A run of forced termination, given how each parent takes the news. */
  predicate Unwinding(l: Limits, ms: seq<Machine>, t: nat, answers: seq<Reply>) {
    && |ms| == |answers| + 1
    && forall i | 0 <= i < |answers| :: UnwindsAt(l, ms, t, answers, i)
  }

  /** A frame that has only been told that its child has ended. */
  predicate OnlyResumed(f: Frame, g: Frame) {
    && g.process.None? && g.scope == f.scope && g.shell == f.shell && g.session.work == f.session.work
    && g.terminalEvent == f.terminalEvent && g.stdioRead == f.stdioRead
    && (g.session == f.session
        || (f.process.Some? && exists reply :: g.session == Resumed(f.session, f.process.value, reply)))
  }

  lemma {:induction false} TerminatedStep(l: Limits, m: Machine, t: nat, reply: Reply)
    requires MayExit(l, m)
    ensures var n := Terminated(l, m, t, reply);
            var top := |m.frames| - 2;
            && |n.frames| == top + 1 && n.frames[..top] == m.frames[..top] && OnlyResumed(m.frames[top], n.frames[top])
            && SameHistory(m, n) && (n.termination == m.termination || |n.frames| == t)
  {
  }

  predicate SameHistory(m: Machine, n: Machine) {
    n.ledger == m.ledger && n.starts == m.starts && n.nextExternal == m.nextExternal
  }

  /** Where a machine is after `k > 0` processes have been taken off. */
  predicate TakenOff(m: Machine, n: Machine, t: nat, k: nat) {
    && 0 < k < |m.frames| && |n.frames| == |m.frames| - k
    && n.frames[..|n.frames| - 1] == m.frames[..|n.frames| - 1]
    && OnlyResumed(m.frames[|n.frames| - 1], n.frames[|n.frames| - 1])
    && SameHistory(m, n) && (n.termination == m.termination || |n.frames| == t)
  }

  lemma {:induction false} TerminationStepTakesOff(l: Limits, m: Machine, n: Machine, t: nat, reply: Reply)
    requires Inv(l, m) && TargetAt(m, t) && TerminationStep(l, m, n, t, reply)
    ensures Inv(l, n) && TakenOff(m, n, t, 1) && (|n.frames| > t ==> TargetAt(n, t))
  {
    TerminatedKeeps(l, m, t, reply);
    TerminatedStep(l, m, t, reply);
    if |n.frames| > t {
      TargetStands(m, n, t);
    }
  }

  lemma {:induction false} TargetStands(m: Machine, n: Machine, t: nat)
    requires TargetAt(m, t) && TakenOff(m, n, t, 1) && |n.frames| > t
    ensures TargetAt(n, t)
  {
    assert t < |n.frames| - 1 ==> n.frames[t] == n.frames[..|n.frames| - 1][t] == m.frames[t];
  }

  lemma {:induction false} TakenOffOneMore(m: Machine, before: Machine, n: Machine, t: nat, k: nat)
    requires TakenOff(m, before, t, k) && |before.frames| > t && TakenOff(before, n, t, 1)
    ensures TakenOff(m, n, t, k + 1)
  {
    var d := |before.frames| - 1;
    assert before.frames[d - 1] == before.frames[..d][d - 1] == m.frames[..d][d - 1] == m.frames[d - 1];
    assert n.frames[..d - 1] == before.frames[..d][..d - 1] == m.frames[..d][..d - 1] == m.frames[..d - 1];
  }

  /** Where forced termination stands after `k` steps, of which there are as many as processes from the target up. */
  ghost predicate Underway(l: Limits, m: Machine, n: Machine, t: nat, k: nat) {
    && Inv(l, n) && (k < |m.frames| - t ==> TargetAt(n, t))
    && (k == 0 ==> n == m) && (k > 0 ==> TakenOff(m, n, t, k))
  }

  lemma {:induction false} UnderwayStep(l: Limits, m: Machine, before: Machine, n: Machine, t: nat, k: nat,
                                        reply: Reply)
    requires Underway(l, m, before, t, k) && k < |m.frames| - t && TerminationStep(l, before, n, t, reply)
    ensures Underway(l, m, n, t, k + 1)
  {
    TerminationStepTakesOff(l, before, n, t, reply);
    if k > 0 {
      TakenOffOneMore(m, before, n, t, k);
    }
  }

  /** Forced termination stands at each of the first `k` steps where it should. */
  ghost predicate UnderwayUpTo(l: Limits, ms: seq<Machine>, t: nat, k: nat) {
    k < |ms| && Underway(l, ms[0], ms[k], t, k) && (k > 0 ==> UnderwayUpTo(l, ms, t, k - 1))
  }

  lemma {:induction false} UnderwayBegins(l: Limits, m: Machine, t: nat)
    requires Inv(l, m) && TargetAt(m, t)
    ensures Underway(l, m, m, t, 0)
  {
  }

  /** A run of forced termination that stops with the target at the latest. */
  predicate UnwindsNoFurther(l: Limits, ms: seq<Machine>, t: nat, answers: seq<Reply>) {
    Unwinding(l, ms, t, answers) && |answers| <= |ms[0].frames| - t
  }

  lemma {:induction false} UnwindingStep(l: Limits, ms: seq<Machine>, t: nat, answers: seq<Reply>, k: nat)
    requires UnwindsNoFurther(l, ms, t, answers) && 0 < k <= |answers| && UnderwayUpTo(l, ms, t, k - 1)
    ensures UnderwayUpTo(l, ms, t, k)
  {
    assert UnwindsAt(l, ms, t, answers, k - 1);
    UnderwayStep(l, ms[0], ms[k - 1], ms[k], t, k - 1, answers[k - 1]);
  }

  lemma {:induction false} UnwindingGoesOn(l: Limits, ms: seq<Machine>, t: nat, answers: seq<Reply>, k: nat)
    requires UnwindsNoFurther(l, ms, t, answers) && k <= |answers| && UnderwayUpTo(l, ms, t, 0)
    ensures UnderwayUpTo(l, ms, t, k)
  {
    if k > 0 {
      UnwindingGoesOn(l, ms, t, answers, k - 1);
      UnwindingStep(l, ms, t, answers, k);
    }
  }

  /**
    * Forced termination takes one process off the top at each step, last in first out, and runs no session: below
    * the process that has just been resumed every frame is as it was, no work is counted, no id is issued, and the
    * pending target is the same until it is gone, after exactly as many steps as there are processes from it up.
    */
  lemma {:induction false} UnwindingIsLastInFirstOut(l: Limits, ms: seq<Machine>, t: nat, answers: seq<Reply>, k: nat)
    requires Unwinding(l, ms, t, answers) && Inv(l, ms[0]) && TargetAt(ms[0], t)
    requires k <= |answers| <= |ms[0].frames| - t
    ensures Underway(l, ms[0], ms[k], t, k)
  {
    UnderwayBegins(l, ms[0], t);
    UnwindingGoesOn(l, ms, t, answers, k);
  }

  /** The process that ends at a step is the one that was that far from the top. */
  lemma {:induction false} ExitOrder(l: Limits, m: Machine, n: Machine, t: nat, k: nat)
    requires Underway(l, m, n, t, k) && k < |m.frames|
    ensures Top(n).scope == m.frames[|m.frames| - 1 - k].scope
  {
  }

  /** Once the target is off, no process of its scope is left. */
  lemma {:induction false} TargetIsGone(l: Limits, m: Machine, n: Machine, t: nat)
    requires Stacked(l, m) && TargetAt(m, t) && TakenOff(m, n, t, |m.frames| - t)
    ensures !LiveScope(n.frames, m.frames[t].scope)
  {
    forall i | 0 <= i < |n.frames|
      ensures n.frames[i].scope < m.frames[t].scope
    {
      assert i < |n.frames| - 1 ==> n.frames[i] == n.frames[..|n.frames| - 1][i] == m.frames[i];
    }
  }

  // ---- with other operations in between ----

  /** A process in the same place that has done no work. */
  predicate StandsStill(f: Frame, g: Frame) {
    SamePlace(f, g) && f.shell == g.shell && f.session.work == g.session.work
  }

  /** What can happen between two advances: answers may be taken, but no process starts, ends or runs. */
  predicate Meanwhile(m: Machine, n: Machine) {
    && |n.frames| == |m.frames| && (forall i | 0 <= i < |m.frames| :: StandsStill(m.frames[i], n.frames[i]))
    && n.termination == m.termination && n.heap == m.heap && n.storage == m.storage && SameHistory(m, n)
  }

  lemma {:induction false} FrameChangedMeanwhile(m: Machine, i: nat, f: Frame)
    requires Balanced(m) && i < |m.frames| && StandsStill(m.frames[i], f) && f.scope < |m.ledger|
    ensures Meanwhile(m, FrameChanged(m, i, f))
  {
    assert m.ledger[f.scope := f.session.work] == m.ledger;
  }

  /** Answers from the host do no more than that. */
  lemma {:induction false} AnsweredMeanwhile(m: Machine, k: nat, i: nat, ends: bool)
    requires Balanced(m) && RoutedTo(m, k, i)
    ensures Meanwhile(m, Answered(m, k, i, ends))
  {
    var f := m.frames[i];
    FrameChangedMeanwhile(m, i, f.(session := Taken(f.session, m.routes[k].id, ends)));
  }

  lemma {:induction false} ResumeMeanwhile(l: Limits, m: Machine, id: Id, reply: Reply)
    requires Stacked(l, m) && Balanced(m) && Running(m)
    ensures var n := Resume(m, id, reply); Meanwhile(m, n) && Stacked(l, n) && Balanced(n)
  {
    var d := |m.frames| - 1;
    var f := Top(m).(session := Resumed(Top(m).session, id, reply));
    FrameChangedMeanwhile(m, d, f);
    FrameChangedStacked(l, m, d, f);
    FrameChangedBalanced(l, m, d, f);
  }

  /** Nor does the end of a compilation. */
  lemma {:induction false} CompletedMeanwhile(l: Limits, m: Machine, token: nat, reply: Reply)
    requires Stacked(l, m) && Balanced(m) && Running(m)
    ensures Meanwhile(m, Completed(m, token, reply))
  {
    if Owed(m, token) {
      ResumeMeanwhile(l, m, m.compilation.value.id, reply);
    }
  }

  lemma {:induction false} MeanwhileTransitive(m: Machine, n: Machine, o: Machine)
    requires Meanwhile(m, n) && Meanwhile(n, o)
    ensures Meanwhile(m, o)
  {
    forall i | 0 <= i < |m.frames|
      ensures StandsStill(m.frames[i], o.frames[i])
    {
      assert StandsStill(m.frames[i], n.frames[i]) && StandsStill(n.frames[i], o.frames[i]);
    }
  }

  /** Nor do redstone wakeups. */
  lemma {:induction false} AwakenedMeanwhile(l: Limits, m: Machine, ws: seq<Wakeup>)
    requires Stacked(l, m) && Balanced(m) && Running(m)
    ensures Meanwhile(m, Awakened(m, ws))
    decreases |ws|
  {
    if ws != [] {
      var n := Resume(m, ws[0].id, ReplyOf(ws[0]));
      ResumeMeanwhile(l, m, ws[0].id, ReplyOf(ws[0]));
      if TakesWakeup(m, ws[0]) {
        AwakenedMeanwhile(l, n, ws[1..]);
        MeanwhileTransitive(m, n, Awakened(n, ws[1..]));
      }
    }
  }

  /** A step of forced termination, and how the parent takes the news; or something else. */
  datatype Move = EndsTop(reply: Reply) | Otherwise

  predicate Moves(l: Limits, m: Machine, n: Machine, t: nat, move: Move) {
    match move
    case EndsTop(reply) => TargetAt(m, t) && TerminationStep(l, m, n, t, reply)
    case Otherwise => Meanwhile(m, n)
  }

  predicate MovesAt(l: Limits, ms: seq<Machine>, t: nat, moves: seq<Move>, i: nat)
    requires i < |moves| && |ms| == |moves| + 1
  {
    Moves(l, ms[i], ms[i + 1], t, moves[i])
  }

  predicate Interleaved(l: Limits, ms: seq<Machine>, t: nat, moves: seq<Move>) {
    && |ms| == |moves| + 1
    && forall i | 0 <= i < |moves| :: MovesAt(l, ms, t, moves, i)
  }

  /** How many of the first `k` moves end a process. */
  function EndCount(moves: seq<Move>, k: nat): nat
    requires k <= |moves|
  {
    if k == 0 then 0 else EndCount(moves, k - 1) + if moves[k - 1].EndsTop? then 1 else 0
  }

  /** Where a machine is after `count` processes have been ended, whatever else has happened. */
  predicate Unwound(l: Limits, m: Machine, n: Machine, t: nat, count: nat) {
    && Stacked(l, n) && |n.frames| == |m.frames| - count >= t && SameHistory(m, n)
    && (forall i | 0 <= i < |n.frames| :: n.frames[i].scope == m.frames[i].scope)
    && (|n.frames| > t ==> TargetAt(n, t))
  }

  lemma {:induction false} TerminatedStacked(l: Limits, m: Machine, t: nat, reply: Reply)
    requires Stacked(l, m) && MayExit(l, m)
    ensures Stacked(l, Terminated(l, m, t, reply))
  {
    ExitedStacked(l, m, reply);
  }

  lemma {:induction false} EndsOneMore(l: Limits, m: Machine, before: Machine, n: Machine, t: nat, reply: Reply,
                                       count: nat)
    requires Unwound(l, m, before, t, count) && TargetAt(before, t) && TerminationStep(l, before, n, t, reply)
    ensures Unwound(l, m, n, t, count + 1)
  {
    TerminatedStacked(l, before, t, reply);
    TerminatedStep(l, before, t, reply);
    assert forall i | 0 <= i < |n.frames| :: n.frames[i].scope == before.frames[i].scope by {
      assert forall i | 0 <= i < |n.frames| - 1 :: n.frames[i] == n.frames[..|n.frames| - 1][i] == before.frames[i];
    }
  }

  lemma {:induction false} MeanwhileStacked(l: Limits, m: Machine, n: Machine)
    requires Stacked(l, m) && Meanwhile(m, n)
    ensures Stacked(l, n)
  {
    forall i | 0 <= i < |n.frames|
      ensures Suspended(n.frames, i) && n.frames[i].scope == m.frames[i].scope
    {
      assert StandsStill(m.frames[i], n.frames[i]) && Suspended(m.frames, i);
    }
  }

  lemma {:induction false} EndsNoMore(l: Limits, m: Machine, before: Machine, n: Machine, t: nat, count: nat)
    requires Unwound(l, m, before, t, count) && Meanwhile(before, n)
    ensures Unwound(l, m, n, t, count)
  {
    MeanwhileStacked(l, before, n);
    assert forall i | 0 <= i < |n.frames| :: StandsStill(before.frames[i], n.frames[i]);
  }

  /**
    * Whatever the host does between advances, and even if an answer goes astray, forced termination ends one process
    * at each advance, from the top down, and none below the target: after as many advances as there were processes
    * from the target up it is gone, and until then it stays the target.
    */
  lemma {:induction false} InterleavedUnwinding(l: Limits, ms: seq<Machine>, t: nat, moves: seq<Move>, k: nat)
    requires Interleaved(l, ms, t, moves) && Stacked(l, ms[0]) && TargetAt(ms[0], t) && k <= |moves|
    ensures Unwound(l, ms[0], ms[k], t, EndCount(moves, k))
    ensures EndCount(moves, k) == |ms[0].frames| - t ==> !LiveScope(ms[k].frames, ms[0].frames[t].scope)
  {
    if k > 0 {
      InterleavedUnwinding(l, ms, t, moves, k - 1);
      assert MovesAt(l, ms, t, moves, k - 1);
      match moves[k - 1]
      case EndsTop(reply) => EndsOneMore(l, ms[0], ms[k - 1], ms[k], t, reply, EndCount(moves, k - 1));
      case Otherwise => EndsNoMore(l, ms[0], ms[k - 1], ms[k], t, EndCount(moves, k - 1));
    }
  }
}
