/** What a process's interpreter session means to the supervisor: the requests it waits on, and its work. */
module Sessions {
  import opened Wrappers
  import opened Accounting
  import opened Batch

  /**
    * A call that a session makes, before it has an id. `fits` tells whether its arguments, text and merge entries keep
    * within their limits.
    */
  datatype Call = Call(task: Positive, kind: Kind, operation: nat, wellFormed: bool, fits: bool)

  /**
    * `pending` is in the order of issue, and ids are given from `nextRequest`. A session that is over issues nothing
    * and takes no answer.
    */
  datatype Session = Session(pending: seq<Request>, nextRequest: Positive, over: bool, work: Counters)

  /** How a session takes an answer: it may decline it, and some answers end it. */
  datatype Reply = Declined | Accepted | Fatal

  function Started(work: Counters): Session {
    Session([], 1, false, work)
  }

  predicate Pends(s: Session, id: Id) {
    exists i | 0 <= i < |s.pending| :: s.pending[i].id == id
  }

  predicate PendsExternal(s: Session, id: Id) {
    exists i | 0 <= i < |s.pending| :: s.pending[i].id == id && s.pending[i].kind == External
  }

  /** Ids rise in the order of issue, and none has been given that is still to be given. */
  predicate Tidy(s: Session) {
    && (forall i | 0 <= i < |s.pending| :: s.pending[i].id.request < s.nextRequest)
    && (forall i, j | 0 <= i < j < |s.pending| :: s.pending[i].id.request < s.pending[j].id.request)
  }

  predicate SessionOk(limit: nat, s: Session) {
    Tidy(s) && |s.pending| <= limit
  }

  // ---- what a session does ----

  /** A call becomes a pending request if it fits and there is room, and otherwise ends the session. */
  function Issue(limit: nat, s: Session, c: Call): Session {
    var given := s.(nextRequest := s.nextRequest + 1);
    if s.over then s
    else if |s.pending| < limit && c.fits
    then given.(pending := s.pending + [Request(Id(c.task, s.nextRequest), c.kind, c.operation, c.wellFormed)])
    else given.(over := true)
  }

  function IssueAll(limit: nat, s: Session, calls: seq<Call>): Session {
    if calls == [] then s else Issue(limit, IssueAll(limit, s, calls[..|calls| - 1]), calls[|calls| - 1])
  }

  /** A slice: the calls made in it and the work done by its end. */
  function Ran(limit: nat, s: Session, calls: seq<Call>, work: Counters): Session {
    if s.over then s else IssueAll(limit, s, calls).(work := work)
  }

  /** The end of a session; some endings clear what is pending. */
  function Finished(s: Session, clears: bool): Session {
    s.(over := true, pending := if clears then [] else s.pending)
  }

  function WithoutId(pending: seq<Request>, id: Id): seq<Request> {
    if pending == [] then [] else
    var before := WithoutId(pending[..|pending| - 1], id);
    var last := pending[|pending| - 1];
    if last.id == id then before else before + [last]
  }

  /** An answer taken; an answer can also end a session. */
  function Taken(s: Session, id: Id, ends: bool): Session {
    s.(pending := WithoutId(s.pending, id), over := s.over || ends)
  }

  /** An answer offered: it is taken if the session is not over, waits for it, and does not decline it. */
  function Resumed(s: Session, id: Id, reply: Reply): Session {
    if Takes(s, id, reply) then Taken(s, id, reply.Fatal?) else s
  }

  predicate Takes(s: Session, id: Id, reply: Reply) {
    !reply.Declined? && !s.over && Pends(s, id)
  }

  // ---- what it keeps ----

  /** No request comes back: whatever is pending later and was issued before was pending before. */
  predicate Continues(s: Session, t: Session) {
    && Tidy(s) && Tidy(t) && s.nextRequest <= t.nextRequest && (s.over ==> t.over)
    && forall q | q in t.pending :: q.id.request < s.nextRequest ==> q in s.pending
  }

  lemma {:induction false} ContinuesTransitive(s: Session, t: Session, u: Session)
    requires Continues(s, t) && Continues(t, u)
    ensures Continues(s, u)
  {
  }

  /** A request that was exposed to the host still waits there, or its session has been cleared. */
  predicate StandsIn(s: Session, id: Id) {
    id.request < s.nextRequest && (PendsExternal(s, id) || (s.over && s.pending == []))
  }

  /** A request that has been made, and that is of this kind if it still waits. */
  predicate OfKind(s: Session, id: Id, kind: Kind) {
    && id.request < s.nextRequest
    && forall i | 0 <= i < |s.pending| :: s.pending[i].id == id ==> s.pending[i].kind == kind
  }

  /** A request that is not for the host, and never will be. */
  predicate Internal(s: Session, id: Id) {
    && id.request < s.nextRequest
    && forall i | 0 <= i < |s.pending| :: s.pending[i].id == id ==> s.pending[i].kind != External
  }

  /** A session goes on without an answer from the host: what the host was shown stands. */
  ghost predicate Succeeds(s: Session, t: Session) {
    && Continues(s, t)
    && (forall id :: StandsIn(s, id) ==> StandsIn(t, id))
    && (forall id, kind :: OfKind(s, id, kind) ==> OfKind(t, id, kind))
  }

  lemma {:induction false} IssueKeeps(limit: nat, s: Session, c: Call)
    requires SessionOk(limit, s)
    ensures SessionOk(limit, Issue(limit, s, c)) && Succeeds(s, Issue(limit, s, c))
  {
    var t := Issue(limit, s, c);
    assert forall i | 0 <= i < |s.pending| :: t.pending[i] == s.pending[i];
    forall id | StandsIn(s, id)
      ensures StandsIn(t, id)
    {
      if i :| 0 <= i < |s.pending| && s.pending[i].id == id && s.pending[i].kind == External {
        assert t.pending[i].id == id;
      }
    }
  }

  lemma {:induction false} SucceedsTransitive(s: Session, t: Session, u: Session)
    requires Succeeds(s, t) && Succeeds(t, u)
    ensures Succeeds(s, u)
  {
    ContinuesTransitive(s, t, u);
  }

  lemma {:induction false} IssueAllKeeps(limit: nat, s: Session, calls: seq<Call>)
    requires SessionOk(limit, s)
    ensures SessionOk(limit, IssueAll(limit, s, calls)) && Succeeds(s, IssueAll(limit, s, calls))
  {
    if calls != [] {
      var n := |calls| - 1;
      var t := IssueAll(limit, s, calls[..n]);
      IssueAllKeeps(limit, s, calls[..n]);
      IssueKeeps(limit, t, calls[n]);
      SucceedsTransitive(s, t, Issue(limit, t, calls[n]));
    }
  }

  /** What becomes of a call that is taken: a request with the next id. */
  function RequestOf(c: Call, number: Positive): Request {
    Request(Id(c.task, number), c.kind, c.operation, c.wellFormed)
  }

  predicate IssuedAt(s: Session, t: Session, calls: seq<Call>, i: nat) {
    && i < |calls| && |s.pending| + i < |t.pending|
    && t.pending[|s.pending| + i] == RequestOf(calls[i], s.nextRequest + i)
  }

  /**
    * A session that was not over takes all calls if they all fit, each by itself and all together. Then they pend in
    * the order they were made, with ids one after the other, behind what pended before; otherwise the session is over.
    */
  lemma {:induction false} AllIssuedIff(limit: nat, s: Session, calls: seq<Call>)
    requires SessionOk(limit, s) && !s.over
    ensures var t := IssueAll(limit, s, calls);
            && (t.over <==> |s.pending| + |calls| > limit || exists i | 0 <= i < |calls| :: !calls[i].fits)
            && t.work == s.work && s.pending <= t.pending
            && (!t.over ==> && |t.pending| == |s.pending| + |calls| && t.nextRequest == s.nextRequest + |calls|
                            && forall i | 0 <= i < |calls| :: IssuedAt(s, t, calls, i))
  {
    if calls != [] {
      var n := |calls| - 1;
      var fewer := calls[..n];
      var before := IssueAll(limit, s, fewer);
      AllIssuedIff(limit, s, fewer);
      assert forall i | 0 <= i < n :: fewer[i] == calls[i];
      var t := Issue(limit, before, calls[n]);
      if !t.over {
        forall i | 0 <= i < |calls|
          ensures IssuedAt(s, t, calls, i)
        {
          assert i < n ==> IssuedAt(s, before, fewer, i);
        }
      }
    }
  }

  lemma {:induction false} WorkAside(limit: nat, s: Session, t: Session, work: Counters)
    requires SessionOk(limit, t) && Succeeds(s, t)
    ensures SessionOk(limit, t.(work := work)) && Succeeds(s, t.(work := work))
  {
    var u := t.(work := work);
    forall id
      ensures StandsIn(u, id) == StandsIn(t, id)
    {
      assert PendsExternal(u, id) == PendsExternal(t, id);
    }
    assert forall id, kind :: OfKind(u, id, kind) == OfKind(t, id, kind);
  }

  lemma {:induction false} RanKeeps(limit: nat, s: Session, calls: seq<Call>, work: Counters)
    requires SessionOk(limit, s)
    ensures SessionOk(limit, Ran(limit, s, calls, work)) && Succeeds(s, Ran(limit, s, calls, work))
  {
    if !s.over {
      IssueAllKeeps(limit, s, calls);
      WorkAside(limit, s, IssueAll(limit, s, calls), work);
    }
  }

  lemma {:induction false} FinishedKeeps(limit: nat, s: Session, clears: bool)
    requires SessionOk(limit, s)
    ensures SessionOk(limit, Finished(s, clears)) && Succeeds(s, Finished(s, clears))
  {
    var t := Finished(s, clears);
    forall id | StandsIn(s, id)
      ensures StandsIn(t, id)
    {
      assert t.pending == s.pending ==> PendsExternal(t, id) == PendsExternal(s, id);
    }
  }

  lemma {:induction false} WithoutIdKeeps(pending: seq<Request>, id: Id)
    ensures |WithoutId(pending, id)| <= |pending|
    ensures forall q :: q in WithoutId(pending, id) <==> q in pending && q.id != id
  {
    if pending != [] {
      WithoutIdKeeps(pending[..|pending| - 1], id);
      assert pending == pending[..|pending| - 1] + [pending[|pending| - 1]];
    }
  }

  lemma {:induction false} WithoutIdRises(pending: seq<Request>, id: Id)
    requires forall i, j | 0 <= i < j < |pending| :: pending[i].id.request < pending[j].id.request
    ensures var left := WithoutId(pending, id);
            forall i, j | 0 <= i < j < |left| :: left[i].id.request < left[j].id.request
  {
    if pending != [] {
      var n := |pending| - 1;
      WithoutIdRises(pending[..n], id);
      WithoutIdKeeps(pending[..n], id);
      var left := WithoutId(pending[..n], id);
      forall i | 0 <= i < |left|
        ensures left[i].id.request < pending[n].id.request
      {
        assert left[i] in left;
        var k :| 0 <= k < n && pending[..n][k] == left[i];
        assert pending[k] == left[i];
      }
    }
  }

  lemma {:induction false} TakenTidy(limit: nat, s: Session, id: Id, ends: bool)
    requires SessionOk(limit, s)
    ensures SessionOk(limit, Taken(s, id, ends)) && Continues(s, Taken(s, id, ends)) && !Pends(Taken(s, id, ends), id)
  {
    var t := Taken(s, id, ends);
    WithoutIdKeeps(s.pending, id);
    WithoutIdRises(s.pending, id);
    forall i | 0 <= i < |t.pending|
      ensures t.pending[i].id.request < t.nextRequest && t.pending[i].id != id
    {
      assert t.pending[i] in t.pending;
    }
  }

  /** An answer takes out the request it answers and no other. */
  lemma {:induction false} TakenKeeps(limit: nat, s: Session, id: Id, ends: bool)
    requires SessionOk(limit, s)
    ensures SessionOk(limit, Taken(s, id, ends)) && Continues(s, Taken(s, id, ends))
    ensures forall other | other != id && StandsIn(s, other) :: StandsIn(Taken(s, id, ends), other)
    ensures forall other, kind | OfKind(s, other, kind) :: OfKind(Taken(s, id, ends), other, kind)
    ensures Internal(s, id) ==> Succeeds(s, Taken(s, id, ends))
    ensures !Pends(Taken(s, id, ends), id)
  {
    var t := Taken(s, id, ends);
    TakenTidy(limit, s, id, ends);
    WithoutIdKeeps(s.pending, id);
    forall other | other != id && StandsIn(s, other)
      ensures StandsIn(t, other)
    {
      TakenStands(s, id, other, ends);
    }
    forall other, kind | OfKind(s, other, kind)
      ensures OfKind(t, other, kind)
    {
      forall i | 0 <= i < |t.pending| && t.pending[i].id == other
        ensures t.pending[i].kind == kind
      {
        assert t.pending[i] in t.pending;
      }
    }
    if Internal(s, id) && StandsIn(s, id) {
      assert s.pending == [];
    }
  }

  lemma {:induction false} TakenStands(s: Session, id: Id, other: Id, ends: bool)
    requires other != id && StandsIn(s, other)
    ensures StandsIn(Taken(s, id, ends), other)
  {
    var t := Taken(s, id, ends);
    WithoutIdKeeps(s.pending, id);
    if PendsExternal(s, other) {
      var i :| 0 <= i < |s.pending| && s.pending[i].id == other && s.pending[i].kind == External;
      assert s.pending[i] in t.pending;
      var j :| 0 <= j < |t.pending| && t.pending[j] == s.pending[i];
    }
  }

  /**
    * An answer changes a session if, and only if, it is not declined, the session is not over and waits for it: then
    * the request is gone and every other one is still there. Only a fatal answer ends the session.
    */
  lemma {:induction false} ResumedIff(s: Session, id: Id, reply: Reply, q: Request)
    ensures var t := Resumed(s, id, reply);
            && (reply.Declined? || s.over || (forall i | 0 <= i < |s.pending| :: s.pending[i].id != id) ==> t == s)
            && (!reply.Declined? && !s.over && Pends(s, id) ==>
                  && (q in t.pending <==> q in s.pending && q.id != id)
                  && (t.over <==> reply.Fatal?) && t.nextRequest == s.nextRequest && t.work == s.work)
  {
    WithoutIdKeeps(s.pending, id);
  }

  lemma {:induction false} ItselfSucceeds(limit: nat, s: Session)
    requires SessionOk(limit, s)
    ensures Succeeds(s, s)
  {
  }

  lemma {:induction false} ResumedKeeps(limit: nat, s: Session, id: Id, reply: Reply)
    requires SessionOk(limit, s) && Internal(s, id)
    ensures SessionOk(limit, Resumed(s, id, reply)) && Succeeds(s, Resumed(s, id, reply))
  {
    if Takes(s, id, reply) {
      TakenKeeps(limit, s, id, reply.Fatal?);
    } else {
      ItselfSucceeds(limit, s);
    }
  }

  /** A pending request is of its kind and of no other, since ids are not given twice. */
  lemma {:induction false} PendingIsOfKind(s: Session, q: Request)
    requires Tidy(s) && q in s.pending
    ensures OfKind(s, q.id, q.kind) && (q.kind != External ==> Internal(s, q.id))
  {
    var i :| 0 <= i < |s.pending| && s.pending[i] == q;
  }

  lemma {:induction false} TwoCalls(work: Counters)
    ensures Ran(2, Started(work), [Call(1, External, 0, true, true), Call(2, External, 0, true, true)], work)
            == Session([Request(Id(1, 1), External, 0, true), Request(Id(2, 2), External, 0, true)], 3, false, work)
  {
    var first, second := Call(1, External, 0, true, true), Call(2, External, 0, true, true);
    assert [first, second][..1] == [first] && [first][..0] == [];
    assert IssueAll(2, Started(work), [first]) == Issue(2, Started(work), first);
  }

  /** With an allowance of one, an exposed request that comes first is all that is published. */
  lemma {:induction false} ExposedComesFirst(p: Parking, waiting: Request, newer: Request)
    requires waiting.kind == External && newer.kind == External
    ensures Chosen(p, [waiting, newer], {waiting.id}, 1, Choice(None, [waiting]))
    ensures forall c | Chosen(p, [waiting, newer], {waiting.id}, 1, c) :: c == Choice(None, [waiting])
  {
    var batch := [waiting, newer];
    assert batch[..0] == [] && batch[..1] == [waiting] && batch[..2] == batch;
    ExternalsStep(batch, 0);
    ExternalsStep(batch, 1);
    assert Externals(batch) == batch;
  }

  /**
    * An exposed request in front of a new one can keep it from being published: a session has made two calls to the
    * host, the first has been exposed, and an allowance of one is spent on that again.
    */
  lemma {:induction false} FreshBehindExposed(p: Parking, work: Counters)
    ensures var s := Ran(2, Started(work), [Call(1, External, 0, true, true), Call(2, External, 0, true, true)], work);
            var waiting, newer := Request(Id(1, 1), External, 0, true), Request(Id(2, 2), External, 0, true);
            && SessionOk(2, s) && s.pending == [waiting, newer]
            && Chosen(p, s.pending, {waiting.id}, 1, Choice(None, [waiting]))
            && forall c | Chosen(p, s.pending, {waiting.id}, 1, c) :: c == Choice(None, [waiting])
  {
    TwoCalls(work);
    ExposedComesFirst(p, Request(Id(1, 1), External, 0, true), Request(Id(2, 2), External, 0, true));
  }
}
