/**
  * Answers that are given to whichever process is active, by the id of a request alone. Compilations are remembered by
  * depth and redstone waits by request id, and an ordinary exit forgets neither, so such an answer can reach a process
  * that has not asked for it.
  */
module LateAnswers {
  import opened Wrappers
  import opened Batch
  import opened Sessions
  import opened Processes
  import opened Transitions

  /** Nothing is left to be answered, or to be refused, in this session. */
  predicate Cleared(s: Session) {
    s.over && s.pending == []
  }

  /** The answer would be taken for a request that has been put to the host, and the session would go on. */
  predicate Misdirected(m: Machine, id: Id, reply: Reply)
    requires m.frames != []
  {
    && Takes(Top(m).session, id, reply) && HasRoute(m, Top(m).scope, id)
    && !Cleared(Resumed(Top(m).session, id, reply))
  }

  /** The route's process is active and goes on, and no longer waits for its request. */
  predicate Lost(m: Machine, r: Route) {
    && Placed(m) && m.frames != [] && r in m.routes && r.scope == Top(m).scope
    && !Pends(Top(m).session, r.id) && !Cleared(Top(m).session)
  }

  lemma {:induction false} LostBreaks(l: Limits, m: Machine, r: Route)
    requires Lost(m, r)
    ensures !Inv(l, m)
  {
    var d := |m.frames| - 1;
    assert forall k | 0 <= k < d :: m.frames[k].scope < m.frames[d].scope;
    assert !StandsIn(m.frames[d].session, r.id);
    assert !RouteStands(m, r);
  }

  lemma {:induction false} ResumedFrame(l: Limits, f: Frame, id: Id, reply: Reply)
    requires FrameOk(l, f)
    ensures var g := f.(session := Resumed(f.session, id, reply));
            && FrameOk(l, g) && Continues(f.session, g.session)
            && (forall other, kind :: OfKind(f.session, other, kind) ==> OfKind(g.session, other, kind))
            && (forall other | other != id && StandsIn(f.session, other) :: StandsIn(g.session, other))
            && (Takes(f.session, id, reply) ==> !Pends(g.session, id))
  {
    TakenKeeps(l.hostRequests, f.session, id, reply.Fatal?);
  }

  lemma {:induction false} RoutesStillStand(l: Limits, m: Machine, id: Id, reply: Reply, r: Route)
    requires Inv(l, m) && Running(m) && !Misdirected(m, id, reply) && r in m.routes
    ensures RouteStands(Resume(m, id, reply), r)
  {
    var d := |m.frames| - 1;
    var n := Resume(m, id, reply);
    assert RouteStands(m, r) && FrameOk(l, m.frames[d]);
    var k :| 0 <= k < |m.frames| && StandsAt(m.frames[k], r);
    if k == d && Takes(Top(m).session, id, reply) {
      ResumedFrame(l, Top(m), id, reply);
      if r.id == id {
        var j :| 0 <= j < |m.routes| && m.routes[j] == r;
        assert HasRoute(m, Top(m).scope, id);
      }
    }
    assert StandsAt(n.frames[k], r);
  }

  lemma {:induction false} WellDirectedKeeps(l: Limits, m: Machine, id: Id, reply: Reply)
    requires Inv(l, m) && Running(m) && !Misdirected(m, id, reply)
    ensures Inv(l, Resume(m, id, reply)) && Evolves(m, Resume(m, id, reply))
  {
    var d := |m.frames| - 1;
    var f := Top(m).(session := Resumed(Top(m).session, id, reply));
    var n := Resume(m, id, reply);
    assert FrameOk(l, m.frames[d]);
    ResumedFrame(l, Top(m), id, reply);
    FrameChangedStacked(l, m, d, f);
    FrameChangedBalanced(l, m, d, f);
    FrameChangedAsked(m, d, f);
    FrameChangedEvolves(l, m, d, f);
    forall r | r in n.routes
      ensures RouteStands(n, r)
    {
      RoutesStillStand(l, m, id, reply, r);
    }
  }

  lemma {:induction false} MisdirectedLoses(l: Limits, m: Machine, id: Id, reply: Reply) returns (r: Route)
    requires Inv(l, m) && Running(m) && Misdirected(m, id, reply)
    ensures Lost(Resume(m, id, reply), r)
  {
    var d := |m.frames| - 1;
    assert FrameOk(l, m.frames[d]);
    ResumedFrame(l, Top(m), id, reply);
    var j :| 0 <= j < |m.routes| && m.routes[j].scope == Top(m).scope && m.routes[j].id == id;
    r := m.routes[j];
    FrameChangedStacked(l, m, d, Top(m).(session := Resumed(Top(m).session, id, reply)));
  }

  /** Such an answer keeps the invariant exactly when it is not misdirected. */
  lemma {:induction false} ResumeKeepsIff(l: Limits, m: Machine, id: Id, reply: Reply)
    requires Inv(l, m) && Running(m)
    ensures Inv(l, Resume(m, id, reply)) <==> !Misdirected(m, id, reply)
    ensures !Misdirected(m, id, reply) ==> Evolves(m, Resume(m, id, reply))
  {
    if Misdirected(m, id, reply) {
      var r := MisdirectedLoses(l, m, id, reply);
      LostBreaks(l, Resume(m, id, reply), r);
    } else {
      WellDirectedKeeps(l, m, id, reply);
    }
  }

  /** A request that is none of the host's is not routed, so its answer is not misdirected. */
  lemma {:induction false} InternalIsWellDirected(l: Limits, m: Machine, id: Id, reply: Reply)
    requires Inv(l, m) && Internal(Top(m).session, id)
    ensures !Misdirected(m, id, reply)
  {
    if HasRoute(m, Top(m).scope, id) {
      var j :| 0 <= j < |m.routes| && m.routes[j].scope == Top(m).scope && m.routes[j].id == id;
      assert m.routes[j] in m.routes && RouteStands(m, m.routes[j]);
      var k :| 0 <= k < |m.frames| && StandsAt(m.frames[k], m.routes[j]);
      assert k == |m.frames| - 1;
    }
  }

  // ---- compilations ----

  /** The compilation goes by this token, and a process is active at the depth of the one that asked for it. */
  predicate Owed(m: Machine, token: nat) {
    Named(m, token) && m.compilation.value.depth == |m.frames|
  }

  function Completed(m: Machine, token: nat, reply: Reply): Machine
    requires Running(m)
  {
    if Owed(m, token) then Resume(m, m.compilation.value.id, reply).(compilation := None) else m
  }

  /**
    * A completion counts exactly when its token is that of the compilation under way and the stack is as high as when it
    * was asked for: then the compilation is over and, if the active session takes the answer, its request is gone.
    */
  lemma {:induction false} CompletionCounts(l: Limits, m: Machine, token: nat, reply: Reply)
    requires Inv(l, m) && Running(m)
    ensures var n, c := Completed(m, token, reply), m.compilation;
            && n.frames != []
            && (if c.Some? && c.value.token == token && c.value.depth == |m.frames|
                then n.compilation.None? && (Takes(Top(m).session, c.value.id, reply) ==> !Pends(Top(n).session, c.value.id))
                else n == m)
  {
    assert FrameOk(l, m.frames[|m.frames| - 1]);
    if m.compilation.Some? {
      TakenTidy(l.hostRequests, Top(m).session, m.compilation.value.id, reply.Fatal?);
    }
  }

  predicate MisdirectsCompilation(m: Machine, token: nat, reply: Reply)
    requires m.frames != []
  {
    Owed(m, token) && Misdirected(m, m.compilation.value.id, reply)
  }

  /** Ending a compilation keeps the invariant exactly when its answer is not misdirected. */
  lemma {:induction false} CompletedKeepsIff(l: Limits, m: Machine, token: nat, reply: Reply)
    requires Inv(l, m) && Running(m)
    ensures Inv(l, Completed(m, token, reply)) <==> !MisdirectsCompilation(m, token, reply)
    ensures !MisdirectsCompilation(m, token, reply) ==> Evolves(m, Completed(m, token, reply))
  {
    if !Owed(m, token) {
      StaysPut(l, m);
    } else if Misdirected(m, m.compilation.value.id, reply) {
      var r := MisdirectedLoses(l, m, m.compilation.value.id, reply);
      LostBreaks(l, Completed(m, token, reply), r);
    } else {
      WellDirectedKeeps(l, m, m.compilation.value.id, reply);
      MarksSet(l, m, Resume(m, m.compilation.value.id, reply), m.termination, None);
    }
  }

  /** An answer goes astray only if the process that has asked for the compilation has exited. */
  lemma {:induction false} AskerHasExited(l: Limits, m: Machine, token: nat, reply: Reply)
    requires Inv(l, m) && MisdirectsCompilation(m, token, reply)
    ensures !LiveScope(m.frames, m.compilation.value.asker)
  {
    var c := m.compilation.value;
    forall i | 0 <= i < |m.frames|
      ensures m.frames[i].scope != c.asker
    {
      assert AskedBy(c, m.frames[i], i);
      if m.frames[i].scope == c.asker {
        InternalIsWellDirected(l, m, c.id, reply);
      }
    }
  }

  // ---- redstone wakeups ----

  /** A wait that the device ends, and whether the active session takes its level. A number ends no session. */
  datatype Wakeup = Wakeup(id: Id, accepted: bool)

  function ReplyOf(w: Wakeup): Reply {
    if w.accepted then Accepted else Declined
  }

  predicate TakesWakeup(m: Machine, w: Wakeup)
    requires m.frames != []
  {
    Takes(Top(m).session, w.id, ReplyOf(w))
  }

  /** The wakeups are delivered in order, until one is refused. */
  function Awakened(m: Machine, ws: seq<Wakeup>): Machine
    requires Running(m)
    decreases |ws|
  {
    if ws == [] then m else
    var n := Resume(m, ws[0].id, ReplyOf(ws[0]));
    if TakesWakeup(m, ws[0]) then Awakened(n, ws[1..]) else n
  }

  predicate AllDelivered(m: Machine, ws: seq<Wakeup>)
    requires Running(m)
    decreases |ws|
  {
    ws == [] || (TakesWakeup(m, ws[0]) && AllDelivered(Resume(m, ws[0].id, ReplyOf(ws[0])), ws[1..]))
  }

  /** One of the wakeups that are delivered is misdirected. */
  predicate Astray(m: Machine, ws: seq<Wakeup>)
    requires Running(m)
    decreases |ws|
  {
    && ws != [] && TakesWakeup(m, ws[0])
    && (HasRoute(m, Top(m).scope, ws[0].id) || Astray(Resume(m, ws[0].id, ReplyOf(ws[0])), ws[1..]))
  }

  /** One wakeup: if the session takes it, its request no longer pends; otherwise nothing has changed. */
  lemma {:induction false} OneWakeup(l: Limits, m: Machine, w: Wakeup)
    requires Inv(l, m) && Running(m)
    ensures Awakened(m, [w]).frames != []
    ensures var s, t := Top(m).session, Top(Awakened(m, [w])).session;
            && (AllDelivered(m, [w]) <==> w.accepted && !s.over && Pends(s, w.id))
            && (if AllDelivered(m, [w]) then !Pends(t, w.id) && !t.over else t == s)
  {
    var n := Resume(m, w.id, ReplyOf(w));
    assert [w][1..] == [] && Awakened(m, [w]) == n;
    assert FrameOk(l, m.frames[|m.frames| - 1]);
    TakenTidy(l.hostRequests, Top(m).session, w.id, false);
  }

  lemma {:induction false} LostStaysLost(l: Limits, m: Machine, ws: seq<Wakeup>, r: Route)
    requires Running(m) && Lost(m, r) && !Top(m).session.over
    ensures Lost(Awakened(m, ws), r)
    decreases |ws|
  {
    if ws != [] {
      var n := Resume(m, ws[0].id, ReplyOf(ws[0]));
      WithoutIdKeeps(Top(m).session.pending, ws[0].id);
      forall i | 0 <= i < |Top(n).session.pending|
        ensures Top(n).session.pending[i].id != r.id
      {
        assert Top(n).session.pending[i] in Top(m).session.pending;
      }
      if TakesWakeup(m, ws[0]) {
        LostStaysLost(l, n, ws[1..], r);
      }
    }
  }

  /** The wakeups keep the invariant exactly when none of those delivered is misdirected. */
  lemma {:induction false} AwakenedKeepsIff(l: Limits, m: Machine, ws: seq<Wakeup>)
    requires Inv(l, m) && Running(m)
    ensures Inv(l, Awakened(m, ws)) <==> !Astray(m, ws)
    ensures !Astray(m, ws) ==> Evolves(m, Awakened(m, ws))
    decreases |ws|
  {
    if ws == [] {
      StaysPut(l, m);
    } else if !TakesWakeup(m, ws[0]) {
      WellDirectedKeeps(l, m, ws[0].id, ReplyOf(ws[0]));
    } else {
      var id, n := ws[0].id, Resume(m, ws[0].id, Accepted);
      if HasRoute(m, Top(m).scope, id) {
        var r := MisdirectedLoses(l, m, id, Accepted);
        LostStaysLost(l, n, ws[1..], r);
        LostBreaks(l, Awakened(n, ws[1..]), r);
      } else {
        WellDirectedKeeps(l, m, id, Accepted);
        AwakenedKeepsIff(l, n, ws[1..]);
        if !Astray(n, ws[1..]) {
          EvolvesTransitive(m, n, Awakened(n, ws[1..]));
        }
      }
    }
  }
}
