/**
  * What the supervisor's operations do to its state, and why each of them keeps the invariant.
  */
module Transitions {
  import opened Wrappers
  import opened Words
  import opened Accounting
  import opened Batch
  import opened Sessions
  import opened Processes

  // ---- the transitions ----

  /** Runs or resumes the session of one frame, or changes what it waits for; its place in the stack stays. */
  function FrameChanged(m: Machine, i: nat, f: Frame): Machine
    requires i < |m.frames| && f.scope < |m.ledger|
  {
    m.(frames := m.frames[i := f], ledger := m.ledger[f.scope := f.session.work])
  }

  /** The active process's frame is replaced. */
  function TopChanged(m: Machine, f: Frame): Machine
    requires m.frames != [] && f.scope < |m.ledger|
  {
    FrameChanged(m, |m.frames| - 1, f)
  }

  predicate Running(m: Machine) {
    m.frames != [] && Top(m).scope < |m.ledger|
  }

  /** An answer is offered to the active process. */
  function Resume(m: Machine, id: Id, reply: Reply): Machine
    requires Running(m)
  {
    TopChanged(m, Top(m).(session := Resumed(Top(m).session, id, reply)))
  }

  predicate SamePlace(f: Frame, g: Frame) {
    f.scope == g.scope && f.process == g.process
  }

  /** A frame whose process has gone on without an answer from the host. */
  ghost predicate GoesOn(l: Limits, f: Frame, g: Frame) {
    SamePlace(f, g) && FrameOk(l, g) && Succeeds(f.session, g.session)
  }

  /** The process at `i` was there before, and its requests are of the kinds they were. */
  ghost predicate KeepsKinds(m: Machine, f: Frame, i: nat) {
    && i < |m.frames| && m.frames[i].scope == f.scope
    && forall id, kind :: OfKind(m.frames[i].session, id, kind) ==> OfKind(f.session, id, kind)
  }

  /** Processes keep their places and the kinds of their requests, so what is known of the asker stands. */
  lemma {:induction false} AskedStands(m: Machine, n: Machine)
    requires Asked(m.compilation, m.frames, m.starts) && m.starts <= n.starts
    requires forall i | 0 <= i < |n.frames| && n.frames[i].scope < m.starts :: KeepsKinds(m, n.frames[i], i)
    ensures Asked(m.compilation, n.frames, n.starts)
  {
    if m.compilation.Some? {
      forall i | 0 <= i < |n.frames|
        ensures AskedBy(m.compilation.value, n.frames[i], i)
      {
        if n.frames[i].scope < m.starts {
          assert KeepsKinds(m, n.frames[i], i);
          assert AskedBy(m.compilation.value, m.frames[i], i);
        }
      }
    }
  }

  lemma {:induction false} FrameChangedAsked(m: Machine, i: nat, f: Frame)
    requires Asked(m.compilation, m.frames, m.starts) && i < |m.frames| && f.scope < |m.ledger|
    requires f.scope == m.frames[i].scope
    requires forall id, kind :: OfKind(m.frames[i].session, id, kind) ==> OfKind(f.session, id, kind)
    ensures Asked(m.compilation, FrameChanged(m, i, f).frames, m.starts)
  {
    var n := FrameChanged(m, i, f);
    assert forall k | 0 <= k < |n.frames| :: KeepsKinds(m, n.frames[k], k);
    AskedStands(m, n);
  }

  lemma {:induction false} FrameChangedStacked(l: Limits, m: Machine, i: nat, f: Frame)
    requires Stacked(l, m) && i < |m.frames| && SamePlace(f, m.frames[i]) && f.scope < |m.ledger|
    ensures Stacked(l, FrameChanged(m, i, f))
  {
    var n := FrameChanged(m, i, f);
    assert forall k | 0 <= k < |n.frames| :: SamePlace(n.frames[k], m.frames[k]);
    forall k | 0 <= k < |m.frames|
      ensures Suspended(n.frames, k)
    {
      assert Suspended(m.frames, k);
    }
  }

  lemma {:induction false} FrameChangedRouted(l: Limits, m: Machine, i: nat, f: Frame)
    requires Routed(l, m) && i < |m.frames| && GoesOn(l, m.frames[i], f) && f.scope < |m.ledger|
    ensures Routed(l, FrameChanged(m, i, f))
  {
    var n := FrameChanged(m, i, f);
    forall r | r in n.routes
      ensures RouteStands(n, r)
    {
      assert RouteStands(m, r);
      var k :| 0 <= k < |m.frames| && StandsAt(m.frames[k], r);
      assert StandsAt(n.frames[k], r);
    }
  }

  lemma {:induction false} LedgerFollows(m: Machine, i: nat, f: Frame)
    requires Balanced(m) && i < |m.frames| && f.scope == m.frames[i].scope
    ensures Plus(m.spent, Total(Works(FrameChanged(m, i, f).frames))) == Total(FrameChanged(m, i, f).ledger)
  {
    var n := FrameChanged(m, i, f);
    var works, w := Works(m.frames), f.session.work;
    assert Works(n.frames) == works[i := w];
    TotalReplaces(works, i, w);
    TotalReplaces(m.ledger, f.scope, w);
    assert works[i] == m.ledger[f.scope];
  }

  lemma {:induction false} FrameChangedBalanced(l: Limits, m: Machine, i: nat, f: Frame)
    requires Stacked(l, m) && Balanced(m) && i < |m.frames| && f.scope == m.frames[i].scope
    ensures Balanced(FrameChanged(m, i, f))
  {
    LedgerFollows(m, i, f);
    var n := FrameChanged(m, i, f);
    forall k | 0 <= k < |n.frames|
      ensures n.frames[k].scope < n.starts && n.ledger[n.frames[k].scope] == n.frames[k].session.work
    {
      assert k < i ==> m.frames[k].scope < m.frames[i].scope;
      assert i < k ==> m.frames[i].scope < m.frames[k].scope;
    }
  }

  lemma {:induction false} ItselfContinues(l: Limits, m: Machine, k: nat)
    requires Hosted(l, m) && k < |m.frames|
    ensures PlaceKept(m, m.frames[k], k)
  {
    assert FrameOk(l, m.frames[k]);
  }

  lemma {:induction false} FrameChangedEvolves(l: Limits, m: Machine, i: nat, f: Frame)
    requires Stacked(l, m) && Hosted(l, m) && |m.ledger| == m.starts && i < |m.frames|
    requires f.scope == m.frames[i].scope && Continues(m.frames[i].session, f.session)
    ensures Evolves(m, FrameChanged(m, i, f))
  {
    var n := FrameChanged(m, i, f);
    forall k | 0 <= k < |n.frames|
      ensures PlaceKept(m, n.frames[k], k)
    {
      ItselfContinues(l, m, k);
    }
    assert LiveScope(m.frames, f.scope);
  }

  /** A process that goes on keeps the invariant. */
  lemma {:induction false} FrameChangedKeeps(l: Limits, m: Machine, i: nat, f: Frame)
    requires Inv(l, m) && i < |m.frames| && GoesOn(l, m.frames[i], f)
    ensures Inv(l, FrameChanged(m, i, f)) && Evolves(m, FrameChanged(m, i, f))
  {
    FrameChangedStacked(l, m, i, f);
    FrameChangedRouted(l, m, i, f);
    FrameChangedAsked(m, i, f);
    FrameChangedBalanced(l, m, i, f);
    FrameChangedEvolves(l, m, i, f);
  }

  /** Nothing has happened. */
  lemma {:induction false} StaysPut(l: Limits, m: Machine)
    requires Inv(l, m)
    ensures Evolves(m, m)
  {
    forall k | 0 <= k < |m.frames|
      ensures PlaceKept(m, m.frames[k], k)
    {
      ItselfContinues(l, m, k);
    }
  }

  // ---- starting and ending a process ----

  /** The limits that a new process must keep within. */
  predicate MayEnter(l: Limits, m: Machine) {
    && |m.frames| < l.depth && m.starts < l.starts && m.starts < I64_MAX
    && m.heap + l.heapBytes <= U64_MAX && m.storage + l.storageBytes <= U64_MAX
    && m.heap + l.heapBytes <= l.heap && m.storage + l.storageBytes <= l.storage
  }

  function Entered(l: Limits, m: Machine, id: Id, work: Counters, shell: bool): Machine
    requires m.frames != []
  {
    var parent := Top(m).(process := Some(id));
    var child := Frame(m.starts, Started(work), shell, None, None, None);
    m.(frames := m.frames[|m.frames| - 1 := parent] + [child], starts := m.starts + 1,
    heap := m.heap + l.heapBytes, storage := m.storage + l.storageBytes, ledger := m.ledger + [work])
  }

  predicate MayExit(l: Limits, m: Machine) {
    && |m.frames| > 1 && m.frames[|m.frames| - 2].process.Some?
    && m.heap >= l.heapBytes && m.storage >= l.storageBytes
  }

  /** The process that waits for the top one, once it has been told that the top one has ended. */
  function ResumedParent(m: Machine, reply: Reply): Frame
    requires |m.frames| > 1 && m.frames[|m.frames| - 2].process.Some?
  {
    var parent := m.frames[|m.frames| - 2];
    parent.(process := None, session := Resumed(parent.session, parent.process.value, reply))
  }

  function Exited(l: Limits, m: Machine, reply: Reply): Machine
    requires MayExit(l, m)
  {
    var spent := Plus(m.spent, Top(m).session.work);
    m.(frames := m.frames[..|m.frames| - 2] + [ResumedParent(m, reply)],
    heap := m.heap - l.heapBytes, storage := m.storage - l.storageBytes,
    routes := Without(m.routes, Top(m).scope), spent := spent, retired := TallyOf(spent))
  }

  lemma {:induction false} EnteredStacked(l: Limits, m: Machine, id: Id, work: Counters, shell: bool)
    requires Stacked(l, m) && MayEnter(l, m)
    ensures Stacked(l, Entered(l, m, id, work, shell))
  {
    var n := Entered(l, m, id, work, shell);
    var d := |m.frames|;
    assert forall i | 0 <= i < d :: n.frames[i].scope == m.frames[i].scope;
    assert forall i | 0 <= i < d - 1 :: n.frames[i] == m.frames[i];
    forall i | 0 <= i < |n.frames|
      ensures Suspended(n.frames, i)
    {
      if i < d - 1 {
        assert Suspended(m.frames, i);
      }
    }
  }

  lemma {:induction false} EnteredHosted(l: Limits, m: Machine, id: Id, work: Counters, shell: bool)
    requires m.frames != [] && Hosted(l, m) && OfKind(Top(m).session, id, Process)
    ensures Hosted(l, Entered(l, m, id, work, shell))
  {
    var n := Entered(l, m, id, work, shell);
    forall i | 0 <= i < |n.frames|
      ensures FrameOk(l, n.frames[i])
    {
      if i < |m.frames| {
        assert FrameOk(l, m.frames[i]);
      }
    }
  }

  lemma {:induction false} EnteredRouted(l: Limits, m: Machine, id: Id, work: Counters, shell: bool)
    requires m.frames != [] && Routed(l, m)
    ensures Routed(l, Entered(l, m, id, work, shell))
  {
    var n := Entered(l, m, id, work, shell);
    forall r | r in n.routes
      ensures RouteStands(n, r)
    {
      assert RouteStands(m, r);
      var k :| 0 <= k < |m.frames| && StandsAt(m.frames[k], r);
      assert StandsAt(n.frames[k], r);
    }
  }

  lemma {:induction false} EnteredBalanced(l: Limits, m: Machine, id: Id, work: Counters, shell: bool)
    requires m.frames != [] && Balanced(m)
    ensures Balanced(Entered(l, m, id, work, shell))
  {
    var n := Entered(l, m, id, work, shell);
    var works := Works(m.frames);
    assert |Works(n.frames)| == |works| + 1;
    forall i | 0 <= i < |n.frames|
      ensures Works(n.frames)[i] == (works + [work])[i]
    {
      assert i < |m.frames| ==> n.frames[i].session == m.frames[i].session;
    }
    assert Works(n.frames) == works + [work];
    TotalExtends(Works(m.frames), work);
    TotalExtends(m.ledger, work);
    assert n.ledger == m.ledger + [work];
    forall i | 0 <= i < |n.frames|
      ensures n.frames[i].scope < n.starts && n.ledger[n.frames[i].scope] == n.frames[i].session.work
    {
      if i < |m.frames| {
        assert n.frames[i].scope == m.frames[i].scope && n.frames[i].session == m.frames[i].session;
      }
    }
  }

  lemma {:induction false} EnteredEvolves(l: Limits, m: Machine, id: Id, work: Counters, shell: bool)
    requires Stacked(l, m) && Hosted(l, m) && |m.ledger| == m.starts
    ensures Evolves(m, Entered(l, m, id, work, shell))
  {
    var n := Entered(l, m, id, work, shell);
    forall i | 0 <= i < |n.frames|
      ensures PlaceKept(m, n.frames[i], i)
    {
      if i < |m.frames| {
        ItselfContinues(l, m, i);
        assert n.frames[i].session == m.frames[i].session;
      }
    }
  }

  lemma {:induction false} EnteredAsked(l: Limits, m: Machine, id: Id, work: Counters, shell: bool)
    requires m.frames != [] && Asked(m.compilation, m.frames, m.starts)
    ensures Asked(m.compilation, Entered(l, m, id, work, shell).frames, m.starts + 1)
  {
    var n := Entered(l, m, id, work, shell);
    forall i | 0 <= i < |n.frames| && n.frames[i].scope < m.starts
      ensures KeepsKinds(m, n.frames[i], i)
    {
      assert n.frames[i].session == m.frames[i].session;
    }
    AskedStands(m, n);
  }

  /** Starting a process keeps the invariant. */
  /** A program that starts is on top under the next scope, its parent waits for it, and the others are as they were. */
  lemma {:induction false} EnteredOnTop(l: Limits, m: Machine, id: Id, work: Counters, shell: bool)
    requires m.frames != []
    ensures var n, d := Entered(l, m, id, work, shell), |m.frames|;
            && |n.frames| == d + 1 && n.frames[..d - 1] == m.frames[..d - 1]
            && n.frames[d - 1].process == Some(id) && n.frames[d - 1].(process := None) == Top(m).(process := None)
            && Top(n).scope == m.starts && Top(n).shell == shell && Top(n).process.None?
            && Top(n).session.pending == [] && !Top(n).session.over && Top(n).session.work == work
            && Top(n).terminalEvent.None? && Top(n).stdioRead.None? && n.routes == m.routes
  {
  }

  lemma {:induction false} EnteredKeeps(l: Limits, m: Machine, id: Id, work: Counters, shell: bool)
    requires Inv(l, m) && MayEnter(l, m) && OfKind(Top(m).session, id, Process)
    ensures Inv(l, Entered(l, m, id, work, shell)) && Evolves(m, Entered(l, m, id, work, shell))
  {
    EnteredStacked(l, m, id, work, shell);
    EnteredHosted(l, m, id, work, shell);
    EnteredRouted(l, m, id, work, shell);
    EnteredBalanced(l, m, id, work, shell);
    EnteredAsked(l, m, id, work, shell);
    EnteredEvolves(l, m, id, work, shell);
  }

  lemma {:induction false} WithoutKeepsApart(routes: seq<Route>, scope: nat)
    requires AllApart(routes)
    ensures AllApart(Without(routes, scope))
  {
    if routes != [] {
      var shorter, last := routes[..|routes| - 1], routes[|routes| - 1];
      WithoutKeepsApart(shorter, scope);
      WithoutKeeps(shorter, scope);
      var left := Without(shorter, scope);
      forall i | 0 <= i < |left|
        ensures Apart(left[i], last)
      {
        assert left[i] in left;
        var k :| 0 <= k < |shorter| && shorter[k] == left[i];
        assert Apart(routes[k], routes[|routes| - 1]);
      }
    }
  }

  /** On every reachable machine a process other than the root can end: a parent waits, and nothing underflows. */
  lemma {:induction false} ChildMayExit(l: Limits, m: Machine)
    requires Stacked(l, m) && |m.frames| > 1
    ensures MayExit(l, m)
  {
    assert Suspended(m.frames, |m.frames| - 2);
  }

  lemma {:induction false} ExitedStacked(l: Limits, m: Machine, reply: Reply)
    requires Stacked(l, m) && MayExit(l, m)
    ensures Stacked(l, Exited(l, m, reply))
  {
    var n := Exited(l, m, reply);
    var d := |m.frames| - 1;
    assert forall i | 0 <= i < d :: n.frames[i].scope == m.frames[i].scope;
    forall i | 0 <= i < d
      ensures Suspended(n.frames, i)
    {
      assert Suspended(m.frames, i);
    }
  }

  /** A parent that is told of the end of its child goes on. */
  lemma {:induction false} ParentGoesOn(l: Limits, m: Machine, reply: Reply)
    requires Hosted(l, m) && MayExit(l, m)
    ensures var parent := m.frames[|m.frames| - 2];
            FrameOk(l, ResumedParent(m, reply)) && Succeeds(parent.session, ResumedParent(m, reply).session)
  {
    var parent := m.frames[|m.frames| - 2];
    assert FrameOk(l, parent);
    ResumedKeeps(l.hostRequests, parent.session, parent.process.value, reply);
  }

  lemma {:induction false} ExitedHosted(l: Limits, m: Machine, reply: Reply)
    requires Hosted(l, m) && MayExit(l, m)
    ensures Hosted(l, Exited(l, m, reply))
  {
    ParentGoesOn(l, m, reply);
    var n := Exited(l, m, reply);
    forall i | 0 <= i < |n.frames|
      ensures FrameOk(l, n.frames[i])
    {
      assert i < |n.frames| - 1 ==> n.frames[i] == m.frames[i] && FrameOk(l, m.frames[i]);
    }
  }

  lemma {:induction false} ExitedRouteStands(l: Limits, m: Machine, reply: Reply, r: Route)
    requires Hosted(l, m) && MayExit(l, m) && RouteStands(m, r) && r.scope != Top(m).scope
    ensures RouteStands(Exited(l, m, reply), r)
  {
    var n := Exited(l, m, reply);
    var d := |m.frames| - 1;
    ParentGoesOn(l, m, reply);
    var f :| 0 <= f < |m.frames| && StandsAt(m.frames[f], r);
    assert f < d && n.frames[f].scope == m.frames[f].scope;
    assert f < d - 1 ==> n.frames[f] == m.frames[f];
    assert StandsAt(n.frames[f], r);
  }

  lemma {:induction false} ExitedRouted(l: Limits, m: Machine, reply: Reply)
    requires Hosted(l, m) && Routed(l, m) && MayExit(l, m)
    ensures Routed(l, Exited(l, m, reply))
  {
    var n := Exited(l, m, reply);
    WithoutKeeps(m.routes, Top(m).scope);
    WithoutKeepsApart(m.routes, Top(m).scope);
    forall r | r in n.routes
      ensures RouteStands(n, r)
    {
      ExitedRouteStands(l, m, reply, r);
    }
    forall scope: nat
      ensures |RoutesOf(n.routes, scope)| <= l.hostRequests
    {
      RoutesSplit(m.routes, Top(m).scope, scope);
    }
  }

  lemma {:induction false} ExitedBalanced(l: Limits, m: Machine, reply: Reply)
    requires Balanced(m) && MayExit(l, m)
    ensures Balanced(Exited(l, m, reply))
  {
    var n := Exited(l, m, reply);
    var works := Works(m.frames);
    assert Works(n.frames) == works[..|works| - 1];
    forall i | 0 <= i < |n.frames|
      ensures n.frames[i].scope < n.starts && n.ledger[n.frames[i].scope] == n.frames[i].session.work
    {
      assert n.frames[i].scope == m.frames[i].scope && n.frames[i].session.work == m.frames[i].session.work;
    }
  }

  lemma {:induction false} ExitedPlaces(l: Limits, m: Machine, reply: Reply, i: nat)
    requires Hosted(l, m) && MayExit(l, m) && i < |m.frames| - 1
    ensures PlaceKept(m, Exited(l, m, reply).frames[i], i)
  {
    if i < |m.frames| - 2 {
      ItselfContinues(l, m, i);
    } else {
      ParentGoesOn(l, m, reply);
    }
  }

  lemma {:induction false} ExitedEvolves(l: Limits, m: Machine, reply: Reply)
    requires Stacked(l, m) && Hosted(l, m) && MayExit(l, m) && |m.ledger| == m.starts
    ensures Evolves(m, Exited(l, m, reply))
  {
    var n := Exited(l, m, reply);
    WithoutKeeps(m.routes, Top(m).scope);
    forall i | 0 <= i < |n.frames|
      ensures PlaceKept(m, n.frames[i], i)
    {
      ExitedPlaces(l, m, reply, i);
    }
    assert forall i | 0 <= i < |n.frames| :: n.frames[i].scope == m.frames[i].scope < Top(m).scope;
  }

  /** A process that has ended is not alive, and has no route. */
  lemma {:induction false} ExitedIsGone(l: Limits, m: Machine, reply: Reply)
    requires Stacked(l, m) && MayExit(l, m)
    ensures !LiveScope(Exited(l, m, reply).frames, Top(m).scope)
    ensures forall r | r in Exited(l, m, reply).routes :: r in m.routes && r.scope != Top(m).scope
  {
    WithoutKeeps(m.routes, Top(m).scope);
    var n := Exited(l, m, reply);
    assert forall i | 0 <= i < |n.frames| :: n.frames[i].scope == m.frames[i].scope < Top(m).scope;
  }

  lemma {:induction false} ExitedAsked(l: Limits, m: Machine, reply: Reply)
    requires Hosted(l, m) && MayExit(l, m) && Asked(m.compilation, m.frames, m.starts)
    ensures Asked(m.compilation, Exited(l, m, reply).frames, m.starts)
  {
    var n := Exited(l, m, reply);
    ParentGoesOn(l, m, reply);
    forall i | 0 <= i < |n.frames|
      ensures KeepsKinds(m, n.frames[i], i)
    {
      assert i < |n.frames| - 1 ==> n.frames[i] == m.frames[i];
    }
    AskedStands(m, n);
  }

  /** Ending a process keeps the invariant; its work moves from its session to the tally and no count changes. */
  lemma {:induction false} ExitedKeeps(l: Limits, m: Machine, reply: Reply)
    requires Inv(l, m) && MayExit(l, m)
    ensures Inv(l, Exited(l, m, reply)) && Evolves(m, Exited(l, m, reply))
  {
    ExitedStacked(l, m, reply);
    ExitedHosted(l, m, reply);
    ExitedRouted(l, m, reply);
    ExitedBalanced(l, m, reply);
    ExitedAsked(l, m, reply);
    ExitedEvolves(l, m, reply);
  }

  /** Ending a process changes no total, although its session is gone. */
  lemma {:induction false} ExitConserves(l: Limits, m: Machine, reply: Reply)
    requires Balanced(m) && MayExit(l, m)
    ensures var n := Exited(l, m, reply);
            Plus(n.spent, Total(Works(n.frames))) == Plus(m.spent, Total(Works(m.frames)))
  {
    ExitedBalanced(l, m, reply);
  }

  // ---- routing ----

  function Published(m: Machine, id: Id): Machine
    requires m.frames != []
  {
    m.(routes := m.routes + [Route(Top(m).scope, id, m.nextExternal)], nextExternal := m.nextExternal + 1)
  }

  lemma {:induction false} PublishedApart(l: Limits, m: Machine, id: Id)
    requires m.frames != [] && Routed(l, m) && !HasRoute(m, Top(m).scope, id)
    ensures AllApart(Published(m, id).routes)
  {
    var n := Published(m, id);
    forall i | 0 <= i < |m.routes|
      ensures Apart(m.routes[i], n.routes[|m.routes|])
    {
      assert m.routes[i] in m.routes && RouteStands(m, m.routes[i]);
    }
  }

  lemma {:induction false} PublishedCounted(l: Limits, m: Machine, id: Id, scope: nat)
    requires Inv(l, m) && Pends(Top(m).session, id) && !HasRoute(m, Top(m).scope, id)
    ensures |RoutesOf(Published(m, id).routes, scope)| <= l.hostRequests
  {
    OneMoreFits(l, m, |m.frames| - 1, id);
    assert Published(m, id).routes[..|m.routes|] == m.routes;
  }

  lemma {:induction false} PublishedRouted(l: Limits, m: Machine, id: Id)
    requires Inv(l, m) && m.nextExternal < I64_MAX && PendsExternal(Top(m).session, id) && !HasRoute(m, Top(m).scope, id)
    ensures Routed(l, Published(m, id))
  {
    var n := Published(m, id);
    PublishedApart(l, m, id);
    assert FrameOk(l, Top(m));
    ExternalPends(Top(m).session, id);
    PendingIsGiven(Top(m).session, id);
    assert StandsAt(m.frames[|m.frames| - 1], Route(Top(m).scope, id, m.nextExternal));
    forall r | r in n.routes
      ensures RouteStands(n, r)
    {
      assert r in m.routes ==> RouteStands(m, r);
    }
    forall scope: nat
      ensures |RoutesOf(n.routes, scope)| <= l.hostRequests
    {
      PublishedCounted(l, m, id, scope);
    }
  }

  lemma {:induction false} ExternalPends(s: Session, id: Id)
    requires PendsExternal(s, id)
    ensures Pends(s, id)
  {
  }

  lemma {:induction false} PublishedEvolves(l: Limits, m: Machine, id: Id)
    requires Inv(l, m) && Pends(Top(m).session, id) && !HasRoute(m, Top(m).scope, id)
    ensures Evolves(m, Published(m, id))
  {
    var n := Published(m, id);
    forall k | 0 <= k < |m.frames|
      ensures PlaceKept(m, n.frames[k], k)
    {
      ItselfContinues(l, m, k);
    }
    assert Waiting(m, Top(m).scope, id) by {
      assert m.frames[|m.frames| - 1].scope == Top(m).scope;
    }
  }

  /** A new route keeps the invariant. */
  lemma {:induction false} PublishedKeeps(l: Limits, m: Machine, id: Id)
    requires Inv(l, m) && m.nextExternal < I64_MAX && PendsExternal(Top(m).session, id) && !HasRoute(m, Top(m).scope, id)
    ensures Inv(l, Published(m, id)) && Evolves(m, Published(m, id))
  {
    ExternalPends(Top(m).session, id);
    PublishedRouted(l, m, id);
    PublishedEvolves(l, m, id);
    assert Balanced(Published(m, id));
  }

  /** Takes a route out by putting the last one in its place. */
  function Dropped(routes: seq<Route>, k: nat): seq<Route>
    requires k < |routes|
  {
    routes[k := routes[|routes| - 1]][..|routes| - 1]
  }

  /** That takes out that route and no other. */
  lemma {:induction false} DroppedRoutes(routes: seq<Route>, k: nat)
    requires k < |routes| && AllApart(routes)
    ensures AllApart(Dropped(routes, k))
    ensures forall r :: r in Dropped(routes, k) <==> r in routes && r != routes[k]
  {
    var left, last := Dropped(routes, k), |routes| - 1;
    forall i | 0 <= i < last
      ensures left[i] == routes[if i == k then last else i] && left[i] != routes[k]
    {
      assert i < k ==> Apart(routes[i], routes[k]);
      assert k < i ==> Apart(routes[k], routes[i]);
      assert k < last ==> Apart(routes[k], routes[last]);
    }
    forall i, j | 0 <= i < j < last
      ensures Apart(left[i], left[j])
    {
      assert Apart(routes[i], routes[j]) && Apart(routes[i], routes[last]) && Apart(routes[j], routes[last]);
    }
    forall r | r in routes && r != routes[k]
      ensures r in left
    {
      var i :| 0 <= i < |routes| && routes[i] == r;
      assert left[if i == last then k else i] == r;
    }
  }

  /** Fewer routes in all are fewer routes of each process. */
  lemma {:induction false} FewerRoutes(a: seq<Route>, b: seq<Route>, scope: nat)
    requires AllApart(a) && AllApart(b) && forall r | r in a :: r in b
    ensures |RoutesOf(a, scope)| <= |RoutesOf(b, scope)|
  {
    RoutesOfHolds(a, scope);
    RoutesOfHolds(b, scope);
    RoutesOfApart(a, scope);
    RoutesOfApart(b, scope);
    IdsCount(RoutesOf(a, scope), scope);
    IdsCount(RoutesOf(b, scope), scope);
    SmallerSet(IdsOf(RoutesOf(a, scope)), IdsOf(RoutesOf(b, scope)));
  }

  /** The request of route `k` is answered to the process at `i`; some answers end its session. */
  function Answered(m: Machine, k: nat, i: nat, ends: bool): Machine
    requires k < |m.routes| && i < |m.frames| && m.frames[i].scope < |m.ledger|
  {
    var f := m.frames[i];
    FrameChanged(m, i, f.(session := Taken(f.session, m.routes[k].id, ends))).(routes := Dropped(m.routes, k))
  }

  /** Route `k` is for a request of the process at `i`. */
  predicate RoutedTo(m: Machine, k: nat, i: nat) {
    k < |m.routes| && i < |m.frames| && m.frames[i].scope == m.routes[k].scope
  }

  lemma {:induction false} AnsweredFrame(l: Limits, m: Machine, k: nat, i: nat, ends: bool)
    requires Hosted(l, m) && RoutedTo(m, k, i)
    ensures var f := m.frames[i];
            var g := f.(session := Taken(f.session, m.routes[k].id, ends));
            && FrameOk(l, g) && Continues(f.session, g.session) && !Pends(g.session, m.routes[k].id)
            && (forall id | id != m.routes[k].id && StandsIn(f.session, id) :: StandsIn(g.session, id))
            && forall id, kind :: OfKind(f.session, id, kind) ==> OfKind(g.session, id, kind)
  {
    assert FrameOk(l, m.frames[i]);
    TakenKeeps(l.hostRequests, m.frames[i].session, m.routes[k].id, ends);
  }

  lemma {:induction false} AnsweredHosted(l: Limits, m: Machine, k: nat, i: nat, ends: bool)
    requires Hosted(l, m) && RoutedTo(m, k, i) && m.frames[i].scope < |m.ledger|
    ensures Hosted(l, Answered(m, k, i, ends))
  {
    AnsweredFrame(l, m, k, i, ends);
    var n := Answered(m, k, i, ends);
    forall j | 0 <= j < |n.frames|
      ensures FrameOk(l, n.frames[j])
    {
      assert j != i ==> FrameOk(l, m.frames[j]);
    }
  }

  lemma {:induction false} AnsweredRouteStands(l: Limits, m: Machine, k: nat, i: nat, ends: bool, r: Route)
    requires Stacked(l, m) && Hosted(l, m) && RoutedTo(m, k, i) && m.frames[i].scope < |m.ledger|
    requires RouteStands(m, r) && Apart(r, m.routes[k])
    ensures RouteStands(Answered(m, k, i, ends), r)
  {
    var n := Answered(m, k, i, ends);
    AnsweredFrame(l, m, k, i, ends);
    var j :| 0 <= j < |m.frames| && StandsAt(m.frames[j], r);
    assert StandsAt(n.frames[j], r);
  }

  lemma {:induction false} AnsweredRouted(l: Limits, m: Machine, k: nat, i: nat, ends: bool)
    requires Inv(l, m) && RoutedTo(m, k, i)
    ensures Routed(l, Answered(m, k, i, ends))
  {
    var n := Answered(m, k, i, ends);
    DroppedRoutes(m.routes, k);
    forall r | r in n.routes
      ensures RouteStands(n, r)
    {
      assert RouteStands(m, r);
      OthersAreApart(m.routes, k, r);
      AnsweredRouteStands(l, m, k, i, ends, r);
    }
    forall scope: nat
      ensures |RoutesOf(n.routes, scope)| <= l.hostRequests
    {
      FewerRoutes(n.routes, m.routes, scope);
    }
  }

  lemma {:induction false} OthersAreApart(routes: seq<Route>, k: nat, r: Route)
    requires k < |routes| && AllApart(routes) && r in routes && r != routes[k]
    ensures Apart(r, routes[k])
  {
    var j :| 0 <= j < |routes| && routes[j] == r;
    assert if j < k then Apart(routes[j], routes[k]) else Apart(routes[k], routes[j]);
  }

  lemma {:induction false} AnsweredEvolves(l: Limits, m: Machine, k: nat, i: nat, ends: bool)
    requires Inv(l, m) && RoutedTo(m, k, i)
    ensures Evolves(m, Answered(m, k, i, ends))
  {
    var n := Answered(m, k, i, ends);
    DroppedRoutes(m.routes, k);
    AnsweredFrame(l, m, k, i, ends);
    forall j | 0 <= j < |n.frames|
      ensures PlaceKept(m, n.frames[j], j)
    {
      ItselfContinues(l, m, j);
    }
    assert LiveScope(m.frames, m.frames[i].scope);
    NoLongerWaiting(l, m, k, i, ends);
  }

  lemma {:induction false} NoLongerWaiting(l: Limits, m: Machine, k: nat, i: nat, ends: bool)
    requires Inv(l, m) && RoutedTo(m, k, i)
    ensures !Waiting(Answered(m, k, i, ends), m.routes[k].scope, m.routes[k].id)
  {
    var n := Answered(m, k, i, ends);
    AnsweredFrame(l, m, k, i, ends);
    forall j | 0 <= j < |n.frames| && n.frames[j].scope == m.routes[k].scope
      ensures !Pends(n.frames[j].session, m.routes[k].id)
    {
      assert j == i;
    }
  }

  /** Answering a request keeps the invariant and leaves its id without a route. */
  lemma {:induction false} AnsweredKeeps(l: Limits, m: Machine, k: nat, i: nat, ends: bool)
    requires Inv(l, m) && RoutedTo(m, k, i)
    ensures Inv(l, Answered(m, k, i, ends)) && Evolves(m, Answered(m, k, i, ends))
    ensures !HasExternal(Answered(m, k, i, ends), m.routes[k].externalId)
  {
    var f := m.frames[i].(session := Taken(m.frames[i].session, m.routes[k].id, ends));
    FrameChangedStacked(l, m, i, f);
    AnsweredHosted(l, m, k, i, ends);
    AnsweredRouted(l, m, k, i, ends);
    AnsweredFrame(l, m, k, i, ends);
    FrameChangedAsked(m, i, f);
    FrameChangedBalanced(l, m, i, f);
    AnsweredEvolves(l, m, k, i, ends);
    IdIsGone(m.routes, k);
  }

  lemma {:induction false} IdIsGone(routes: seq<Route>, k: nat)
    requires k < |routes| && AllApart(routes)
    ensures forall j | 0 <= j < |routes| - 1 :: Dropped(routes, k)[j].externalId != routes[k].externalId
  {
    DroppedRoutes(routes, k);
    forall j | 0 <= j < |routes| - 1
      ensures Dropped(routes, k)[j].externalId != routes[k].externalId
    {
      assert Dropped(routes, k)[j] in Dropped(routes, k);
      OthersAreApart(routes, k, Dropped(routes, k)[j]);
    }
  }

  // ---- compilations ----

  /** The active process has asked for a compilation, which gets the next token. */
  function Compiling(m: Machine, id: Id): Machine
    requires m.frames != []
  {
    m.(compilation := Some(Compilation(m.nextToken, id, |m.frames|, Top(m).scope)), nextToken := m.nextToken + 1)
  }

  lemma {:induction false} CompilingKeeps(l: Limits, m: Machine, id: Id)
    requires Inv(l, m) && OfKind(Top(m).session, id, Compiler)
    ensures Inv(l, Compiling(m, id)) && Evolves(m, Compiling(m, id))
  {
    var n := Compiling(m, id);
    StaysPut(l, m);
    forall i | 0 <= i < |n.frames|
      ensures AskedBy(n.compilation.value, n.frames[i], i)
    {
      assert i < |n.frames| - 1 ==> n.frames[i].scope < Top(m).scope;
    }
    forall r | r in n.routes
      ensures RouteStands(n, r)
    {
      assert RouteStands(m, r);
    }
  }

  // ---- marks ----

  /** Which process is to be ended has no bearing on anything else, and a compilation can be given up at any time. */
  lemma {:induction false} MarksSet(l: Limits, m: Machine, n: Machine, target: Option<nat>,
                                    compilation: Option<Compilation>)
    requires Inv(l, n) && Evolves(m, n) && target != Some(0)
    requires compilation.None? || compilation == n.compilation
    ensures var marked := n.(termination := target, compilation := compilation);
            Inv(l, marked) && Evolves(m, marked)
  {
    var marked := n.(termination := target, compilation := compilation);
    forall r | r in n.routes
      ensures RouteStands(marked, r)
    {
      assert RouteStands(n, r);
    }
    forall r | r in m.routes
      ensures RouteKept(m, marked, r)
    {
      assert RouteKept(m, n, r);
      assert Waiting(marked, r.scope, r.id) == Waiting(n, r.scope, r.id);
    }
  }
}
