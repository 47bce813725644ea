/**
  * The state of a computer's process supervisor: the stack of processes, what they have reserved, the routes of
  * the requests they have put to the host, and the work they have done.
  */
module Processes {
  import opened Wrappers
  import opened Words
  import opened Accounting
  import opened Batch
  import opened Sessions

  datatype Frame = Frame(scope: nat, session: Session, shell: bool,
                         terminalEvent: Option<Id>, stdioRead: Option<Id>, process: Option<Id>)

  datatype Route = Route(scope: nat, id: Id, externalId: nat)

  /**
    * A compilation that the host is asked for under a token: the request it answers, and the depth of the process that
    * made it. `asker` records history: the scope of that process.
    */
  datatype Compilation = Compilation(token: nat, id: Id, depth: nat, asker: nat)

  /** What the execution profile reserves for a process, and the limits on all processes together. */
  datatype Limits = Limits(heapBytes: U64, storageBytes: U64, hostRequests: nat,
                           depth: Positive, starts: Positive, heap: U64, storage: U64)

  /**
    * `termination` is the scope of a process to be ended. `ledger` and `spent` record history: the latest counters
    * of every process ever started, by scope, and the exact sum over the processes that have ended.
    */
  datatype Machine = Machine(frames: seq<Frame>, starts: nat, heap: nat, storage: nat, retired: Tally,
                             termination: Option<nat>, compilation: Option<Compilation>, nextToken: nat,
                             nextExternal: nat, routes: seq<Route>, ledger: seq<Counters>, spent: Work)

  function Top(m: Machine): Frame
    requires m.frames != []
  {
    m.frames[|m.frames| - 1]
  }

  // ---- what every reachable machine satisfies ----

  /** A product, by addition. */
  function Times(n: nat, unit: nat): nat {
    if n == 0 then 0 else Times(n - 1, unit) + unit
  }

  lemma {:induction false} TimesIsProduct(n: nat, unit: nat)
    ensures Times(n, unit) == n * unit
  {
    if n > 0 {
      TimesIsProduct(n - 1, unit);
      assert (n - 1) * unit + unit == n * unit;
    }
  }

  predicate Suspended(frames: seq<Frame>, i: nat)
    requires i < |frames|
  {
    frames[i].process.Some? <==> i < |frames| - 1
  }

  /** Scopes rise up the stack and have all been given out. */
  predicate Placed(m: Machine) {
    && (forall i, j | 0 <= i < j < |m.frames| :: m.frames[i].scope < m.frames[j].scope)
    && (forall i | 0 <= i < |m.frames| :: m.frames[i].scope < m.starts)
  }

  predicate Stacked(l: Limits, m: Machine) {
    && m.frames != [] && m.frames[0].scope == 0 && Placed(m)
    && (forall i | 0 <= i < |m.frames| :: Suspended(m.frames, i))
    && |m.frames| <= l.depth && 1 <= m.starts <= l.starts && m.starts <= I64_MAX
    && m.heap == Times(|m.frames|, l.heapBytes) && m.heap <= l.heap
    && m.storage == Times(|m.frames|, l.storageBytes) && m.storage <= l.storage
    && m.termination != Some(0)
  }

  predicate OfKindIf(s: Session, id: Option<Id>, kind: Kind) {
    id.Some? ==> OfKind(s, id.value, kind)
  }

  /** A session within its limits, and devices that each wait on a request made to them. */
  predicate FrameOk(l: Limits, f: Frame) {
    && SessionOk(l.hostRequests, f.session)
    && OfKindIf(f.session, f.terminalEvent, RawTerminal) && OfKindIf(f.session, f.stdioRead, Stdio)
    && OfKindIf(f.session, f.process, Process)
  }

  predicate Hosted(l: Limits, m: Machine) {
    forall i | 0 <= i < |m.frames| :: FrameOk(l, m.frames[i])
  }

  predicate LiveScope(frames: seq<Frame>, scope: nat) {
    exists i | 0 <= i < |frames| :: frames[i].scope == scope
  }

  predicate Apart(r: Route, s: Route) {
    r.externalId != s.externalId && (r.scope != s.scope || r.id != s.id)
  }

  predicate AllApart(routes: seq<Route>) {
    forall i, j | 0 <= i < j < |routes| :: Apart(routes[i], routes[j])
  }

  predicate StandsAt(f: Frame, r: Route) {
    f.scope == r.scope && StandsIn(f.session, r.id)
  }

  /** The request of a route waits in a live process, unless the session there has been cleared. */
  predicate RouteStands(m: Machine, r: Route) {
    1 <= r.externalId < m.nextExternal && exists i | 0 <= i < |m.frames| :: StandsAt(m.frames[i], r)
  }

  /** The routes of one process. */
  function RoutesOf(routes: seq<Route>, scope: nat): seq<Route> {
    if routes == [] then [] else
    var before := RoutesOf(routes[..|routes| - 1], scope);
    var last := routes[|routes| - 1];
    if last.scope == scope then before + [last] else before
  }

  ghost predicate Routed(l: Limits, m: Machine) {
    && 1 <= m.nextExternal <= I64_MAX
    && (forall r | r in m.routes :: RouteStands(m, r))
    && (forall scope: nat :: |RoutesOf(m.routes, scope)| <= l.hostRequests)
    && AllApart(m.routes)
  }

  function Works(frames: seq<Frame>): seq<Work> {
    seq(|frames|, i requires 0 <= i < |frames| => frames[i].session.work)
  }

  predicate Balanced(m: Machine) {
    && |m.ledger| == m.starts
    && (forall i | 0 <= i < |m.frames| :: m.frames[i].scope < m.starts && m.ledger[m.frames[i].scope] == m.frames[i].session.work)
    && Plus(m.spent, Total(Works(m.frames))) == Total(m.ledger)
    && m.retired == TallyOf(m.spent)
  }

  /** A live process that has asked for the compilation is where it was then, and its request is one to the compiler. */
  predicate AskedBy(c: Compilation, f: Frame, i: nat) {
    f.scope == c.asker ==> c.depth == i + 1 && OfKind(f.session, c.id, Compiler)
  }

  predicate Asked(compilation: Option<Compilation>, frames: seq<Frame>, starts: nat) {
    compilation.Some? ==>
      && compilation.value.asker < starts
      && forall i | 0 <= i < |frames| :: AskedBy(compilation.value, frames[i], i)
  }

  ghost predicate Inv(l: Limits, m: Machine) {
    Stacked(l, m) && Hosted(l, m) && Routed(l, m) && Balanced(m) && Asked(m.compilation, m.frames, m.starts)
  }

  function Initial(l: Limits, work: Counters): Machine {
    Machine([Frame(0, Started(work), false, None, None, None)], 1, l.heapBytes, l.storageBytes, TallyOf(ZERO),
            None, None, 1, 1, [], [work], ZERO)
  }

  lemma {:induction false} InitialKeeps(l: Limits, work: Counters)
    requires l.heapBytes <= l.heap && l.storageBytes <= l.storage
    ensures var m := Initial(l, work);
            && Inv(l, m) && m.routes == [] && m.termination.None? && m.compilation.None?
            && m.nextToken == m.nextExternal == m.starts == |m.frames| == 1 && !m.frames[0].shell
  {
    var m := Initial(l, work);
    assert Works(m.frames) == m.ledger == [] + [work];
    TotalExtends([], work);
    assert Times(1, l.heapBytes) == Times(0, l.heapBytes) + l.heapBytes;
    assert Times(1, l.storageBytes) == Times(0, l.storageBytes) + l.storageBytes;
  }

  // ---- how a machine may change ----

  predicate HasRoute(m: Machine, scope: nat, id: Id) {
    exists i | 0 <= i < |m.routes| :: m.routes[i].scope == scope && m.routes[i].id == id
  }

  /** The process is alive and waits for an answer to this request. */
  predicate Waiting(m: Machine, scope: nat, id: Id) {
    exists i | 0 <= i < |m.frames| :: m.frames[i].scope == scope && Pends(m.frames[i].session, id)
  }

  /** The request has not been made yet. */
  predicate Unissued(m: Machine, scope: nat, id: Id) {
    || scope >= m.starts
    || exists i | 0 <= i < |m.frames| :: m.frames[i].scope == scope && id.request >= m.frames[i].session.nextRequest
  }

  /** A process that was alive before is in the same place, and its session has gone on. */
  predicate PlaceKept(m: Machine, f: Frame, i: nat) {
    f.scope < m.starts ==>
      i < |m.frames| && m.frames[i].scope == f.scope && Continues(m.frames[i].session, f.session)
  }

  /** A request that goes on waiting keeps its route. */
  predicate RouteKept(m: Machine, n: Machine, r: Route) {
    Waiting(m, r.scope, r.id) && Waiting(n, r.scope, r.id) ==> r in n.routes
  }

  /** A new route is for a request that had none, or that had not been made. */
  predicate RouteNew(m: Machine, s: Route) {
    || s in m.routes || Unissued(m, s.scope, s.id)
    || (Waiting(m, s.scope, s.id) && !HasRoute(m, s.scope, s.id))
  }

  /**
    * Everything that is over stays over: an external id issued before is either the same route as before or gone,
    * a process that has exited does not return and its counters stand, and a request that has been answered does
    * not come back. What is alive keeps its place, and a request that goes on waiting keeps its route.
    */
  predicate Evolves(m: Machine, n: Machine) {
    && Placed(m) && m.starts <= n.starts && m.nextExternal <= n.nextExternal
    && |m.ledger| == m.starts && |n.ledger| == n.starts
    && (forall i | 0 <= i < |n.frames| :: PlaceKept(m, n.frames[i], i))
    && (forall s | 0 <= s < m.starts && !LiveScope(m.frames, s) :: n.ledger[s] == m.ledger[s])
    && RoutesEvolve(m, n) && TokensEvolve(m, n)
  }

  /** A compilation that stands under a token given before is the one that stood then. */
  predicate TokensEvolve(m: Machine, n: Machine) {
    && m.nextToken <= n.nextToken
    && (n.compilation.Some? && n.compilation.value.token < m.nextToken ==> n.compilation == m.compilation)
  }

  predicate RoutesEvolve(m: Machine, n: Machine) {
    && (forall r | r in n.routes :: r.externalId < m.nextExternal ==> r in m.routes)
    && (forall r | r in m.routes :: RouteKept(m, n, r))
    && (forall s | s in n.routes :: RouteNew(m, s))
  }

  /** A process alive later was alive before, if it had been started by then. */
  lemma {:induction false} LiveWasLive(m: Machine, n: Machine, scope: nat)
    requires Evolves(m, n) && scope < m.starts && LiveScope(n.frames, scope)
    ensures LiveScope(m.frames, scope)
  {
    var i :| 0 <= i < |n.frames| && n.frames[i].scope == scope;
    assert PlaceKept(m, n.frames[i], i);
  }

  lemma {:induction false} PlacesTransitive(m: Machine, n: Machine, f: Frame, i: nat)
    requires m.starts <= n.starts && PlaceKept(n, f, i)
    requires forall k | 0 <= k < |n.frames| :: PlaceKept(m, n.frames[k], k)
    ensures PlaceKept(m, f, i)
  {
    if f.scope < m.starts {
      assert PlaceKept(m, n.frames[i], i);
      ContinuesTransitive(m.frames[i].session, n.frames[i].session, f.session);
    }
  }

  lemma {:induction false} WaitedBefore(s: Session, t: Session, id: Id)
    requires Continues(s, t) && Pends(t, id) && id.request < s.nextRequest
    ensures Pends(s, id)
  {
    var i :| 0 <= i < |t.pending| && t.pending[i].id == id;
    assert t.pending[i] in t.pending && t.pending[i] in s.pending;
  }

  /** A request that waits now and was made before waited before. */
  lemma {:induction false} WaitedEarlier(m: Machine, n: Machine, scope: nat, id: Id)
    requires Evolves(m, n) && Waiting(n, scope, id) && !Unissued(m, scope, id)
    ensures Waiting(m, scope, id)
  {
    var i :| 0 <= i < |n.frames| && n.frames[i].scope == scope && Pends(n.frames[i].session, id);
    assert PlaceKept(m, n.frames[i], i);
    WaitedBefore(m.frames[i].session, n.frames[i].session, id);
  }

  lemma {:induction false} WaitingIsIssued(m: Machine, n: Machine, scope: nat, id: Id)
    requires Evolves(m, n) && Waiting(m, scope, id) && LiveScope(n.frames, scope)
    ensures !Unissued(m, scope, id)
  {
    var i :| 0 <= i < |m.frames| && m.frames[i].scope == scope && Pends(m.frames[i].session, id);
    var k :| 0 <= k < |n.frames| && n.frames[k].scope == scope;
    assert PlaceKept(m, n.frames[k], k) && i == k;
    PendingIsGiven(m.frames[i].session, id);
    GivenIsIssued(m, i, id);
  }

  lemma {:induction false} GivenIsIssued(m: Machine, i: nat, id: Id)
    requires Placed(m) && i < |m.frames| && id.request < m.frames[i].session.nextRequest
    ensures !Unissued(m, m.frames[i].scope, id)
  {
    forall k | 0 <= k < |m.frames| && m.frames[k].scope == m.frames[i].scope
      ensures k == i
    {
    }
  }

  lemma {:induction false} PendingIsGiven(s: Session, id: Id)
    requires Tidy(s) && Pends(s, id)
    ensures id.request < s.nextRequest
  {
    var j :| 0 <= j < |s.pending| && s.pending[j].id == id;
  }

  lemma {:induction false} UnissuedEarlier(m: Machine, n: Machine, scope: nat, id: Id)
    requires Evolves(m, n) && Unissued(n, scope, id)
    ensures Unissued(m, scope, id)
  {
    if scope < n.starts {
      var i :| 0 <= i < |n.frames| && n.frames[i].scope == scope && id.request >= n.frames[i].session.nextRequest;
      assert PlaceKept(m, n.frames[i], i);
    }
  }

  lemma {:induction false} WaitingIsLive(m: Machine, scope: nat, id: Id)
    requires Waiting(m, scope, id)
    ensures LiveScope(m.frames, scope)
  {
  }

  lemma {:induction false} RouteKeptTransitive(m: Machine, n: Machine, o: Machine, r: Route)
    requires Evolves(m, n) && Evolves(n, o) && r in m.routes
    ensures RouteKept(m, o, r)
  {
    if Waiting(m, r.scope, r.id) && Waiting(o, r.scope, r.id) {
      WaitingIsLive(o, r.scope, r.id);
      WaitingIsLive(m, r.scope, r.id);
      LiveWasLive(n, o, r.scope);
      WaitingIsIssued(m, n, r.scope, r.id);
      if Unissued(n, r.scope, r.id) {
        UnissuedEarlier(m, n, r.scope, r.id);
      } else {
        WaitedEarlier(n, o, r.scope, r.id);
        assert RouteKept(m, n, r) && RouteKept(n, o, r);
      }
    }
  }

  lemma {:induction false} RouteNewTransitive(m: Machine, n: Machine, o: Machine, s: Route)
    requires Evolves(m, n) && Evolves(n, o) && s in o.routes
    ensures RouteNew(m, s)
  {
    assert RouteNew(n, s);
    if s in n.routes {
      assert RouteNew(m, s);
    } else if Unissued(n, s.scope, s.id) {
      UnissuedEarlier(m, n, s.scope, s.id);
    } else if !Unissued(m, s.scope, s.id) {
      WaitedEarlier(m, n, s.scope, s.id);
      UnroutedEarlier(m, n, s.scope, s.id);
    }
  }

  /** A request that waits on without a route had none before. */
  lemma {:induction false} UnroutedEarlier(m: Machine, n: Machine, scope: nat, id: Id)
    requires Evolves(m, n) && Waiting(m, scope, id) && Waiting(n, scope, id) && !HasRoute(n, scope, id)
    ensures !HasRoute(m, scope, id)
  {
    forall k | 0 <= k < |m.routes| && m.routes[k].scope == scope
      ensures m.routes[k].id != id
    {
      if m.routes[k].id == id {
        RoutedStays(m, n, m.routes[k]);
      }
    }
  }

  lemma {:induction false} RoutedStays(m: Machine, n: Machine, r: Route)
    requires Evolves(m, n) && r in m.routes && Waiting(m, r.scope, r.id) && Waiting(n, r.scope, r.id)
    ensures r in n.routes && HasRoute(n, r.scope, r.id)
  {
    assert RouteKept(m, n, r);
    var k :| 0 <= k < |n.routes| && n.routes[k] == r;
  }

  lemma {:induction false} LedgerTransitive(m: Machine, n: Machine, o: Machine, s: nat)
    requires Evolves(m, n) && Evolves(n, o) && s < m.starts && !LiveScope(m.frames, s)
    ensures o.ledger[s] == m.ledger[s]
  {
    if LiveScope(n.frames, s) {
      LiveWasLive(m, n, s);
    }
  }

  lemma {:induction false} EvolvesTransitive(m: Machine, n: Machine, o: Machine)
    requires Evolves(m, n) && Evolves(n, o)
    ensures Evolves(m, o)
  {
    forall i | 0 <= i < |o.frames|
      ensures PlaceKept(m, o.frames[i], i)
    {
      PlacesTransitive(m, n, o.frames[i], i);
    }
    forall s | 0 <= s < m.starts && !LiveScope(m.frames, s)
      ensures o.ledger[s] == m.ledger[s]
    {
      LedgerTransitive(m, n, o, s);
    }
    forall r | r in m.routes
      ensures RouteKept(m, o, r)
    {
      RouteKeptTransitive(m, n, o, r);
    }
    forall s | s in o.routes
      ensures RouteNew(m, s)
    {
      RouteNewTransitive(m, n, o, s);
    }
  }

  /** A run: each machine evolves into the next. */
  predicate Run(ms: seq<Machine>) {
    forall i | 0 <= i < |ms| - 1 :: EvolvesAt(ms, i)
  }

  predicate EvolvesAt(ms: seq<Machine>, i: nat)
    requires i < |ms| - 1
  {
    Evolves(ms[i], ms[i + 1])
  }

  lemma {:induction false} RunEvolves(ms: seq<Machine>, i: nat, j: nat)
    requires Run(ms) && i < j < |ms|
    ensures Evolves(ms[i], ms[j])
    decreases j - i
  {
    assert EvolvesAt(ms, j - 1);
    if i + 1 < j {
      RunEvolves(ms, i, j - 1);
      EvolvesTransitive(ms[i], ms[j - 1], ms[j]);
    }
  }

  // ---- routes ----

  predicate Answers(r: Route, task: nat, externalId: nat) {
    r.id.task == task && r.externalId == externalId
  }

  predicate Accepts(m: Machine, task: nat, externalId: nat) {
    exists i | 0 <= i < |m.routes| :: Answers(m.routes[i], task, externalId)
  }

  /** An answer is accepted exactly when its id stands for a request made by a task of the same number. */
  lemma {:induction false} AcceptsIff(m: Machine, task: nat, externalId: nat)
    ensures Accepts(m, task, externalId) <==> exists r :: r in m.routes && r.externalId == externalId && r.id.task == task
  {
    if r :| r in m.routes && r.externalId == externalId && r.id.task == task {
      var i :| 0 <= i < |m.routes| && m.routes[i] == r;
      assert Answers(m.routes[i], task, externalId);
    }
  }

  predicate Issued(m: Machine, externalId: nat) {
    externalId < m.nextExternal
  }

  predicate HasExternal(m: Machine, externalId: nat) {
    exists i | 0 <= i < |m.routes| :: m.routes[i].externalId == externalId
  }

  lemma {:induction false} AcceptedWasRouted(ms: seq<Machine>, i: nat, j: nat, externalId: nat, task: nat)
    requires Run(ms) && i < j < |ms| && Issued(ms[i], externalId) && Accepts(ms[j], task, externalId)
    ensures HasExternal(ms[i], externalId)
  {
    RunEvolves(ms, i, j);
    var k :| 0 <= k < |ms[j].routes| && Answers(ms[j].routes[k], task, externalId);
    assert ms[j].routes[k] in ms[j].routes;
    assert ms[j].routes[k] in ms[i].routes;
  }

  /** An id that was issued and has no route any more is refused for ever, whichever task it is addressed to. */
  lemma {:induction false} GoneIsRefusedForever(ms: seq<Machine>, i: nat, j: nat, externalId: nat, task: nat)
    requires Run(ms) && i <= j < |ms|
    requires Issued(ms[i], externalId) && !HasExternal(ms[i], externalId)
    ensures !Accepts(ms[j], task, externalId)
  {
    if i < j && Accepts(ms[j], task, externalId) {
      AcceptedWasRouted(ms, i, j, externalId, task);
    }
  }

  predicate Named(m: Machine, token: nat) {
    m.compilation.Some? && m.compilation.value.token == token
  }

  /** A token that was given and names no compilation any more never names one again. */
  lemma {:induction false} SpentTokenForever(ms: seq<Machine>, i: nat, j: nat, token: nat)
    requires Run(ms) && i <= j < |ms| && token < ms[i].nextToken && !Named(ms[i], token)
    ensures !Named(ms[j], token)
  {
    if i < j {
      RunEvolves(ms, i, j);
    }
  }

  lemma {:induction false} SameRoute(routes: seq<Route>, r: Route, s: Route)
    requires AllApart(routes) && r in routes && s in routes && !Apart(r, s)
    ensures r == s
  {
    var i :| 0 <= i < |routes| && routes[i] == r;
    var j :| 0 <= j < |routes| && routes[j] == s;
    assert i == j;
  }

  /** As long as an id is accepted, it stands for the one request of the one process it was issued for. */
  lemma {:induction false} RouteNeverChanges(l: Limits, ms: seq<Machine>, i: nat, j: nat, r: Route, s: Route)
    requires Run(ms) && i <= j < |ms| && Inv(l, ms[i])
    requires r in ms[i].routes && s in ms[j].routes && r.externalId == s.externalId
    ensures r == s
  {
    if i < j {
      RunEvolves(ms, i, j);
    }
    assert RouteStands(ms[i], r) && s in ms[i].routes;
    SameRoute(ms[i].routes, r, s);
  }

  /** The request of a route has been made. */
  lemma {:induction false} RoutedIsIssued(l: Limits, m: Machine, r: Route)
    requires Inv(l, m) && r in m.routes
    ensures !Unissued(m, r.scope, r.id)
  {
    assert RouteStands(m, r);
    var i :| 0 <= i < |m.frames| && StandsAt(m.frames[i], r);
    GivenIsIssued(m, i, r.id);
  }

  /**
    * On every run a request has one external id: however often it is published, and whatever has been answered in
    * between, two routes for one request of one process are the same route.
    */
  lemma {:induction false} RequestKeepsId(l: Limits, ms: seq<Machine>, i: nat, j: nat, r: Route, s: Route)
    requires Run(ms) && i <= j < |ms| && Inv(l, ms[i])
    requires r in ms[i].routes && s in ms[j].routes && s.scope == r.scope && s.id == r.id
    ensures s == r
  {
    RoutedIsIssued(l, ms[i], r);
    var k :| 0 <= k < |ms[i].routes| && ms[i].routes[k] == r;
    if i < j {
      RunEvolves(ms, i, j);
      assert RouteNew(ms[i], s);
    }
    SameRoute(ms[i].routes, r, s);
  }

  /** On every run a request that was routed and still waits still has that route, and so the same external id. */
  lemma {:induction false} LiveRequestKeepsId(l: Limits, ms: seq<Machine>, i: nat, j: nat, r: Route)
    requires Run(ms) && i <= j < |ms| && Inv(l, ms[i])
    requires r in ms[i].routes && Waiting(ms[j], r.scope, r.id)
    ensures r in ms[j].routes
  {
    if i < j {
      RunEvolves(ms, i, j);
      RoutedIsIssued(l, ms[i], r);
      WaitedEarlier(ms[i], ms[j], r.scope, r.id);
      assert RouteKept(ms[i], ms[j], r);
    }
  }

  /** An exited process never holds a route again, so every id issued to it is refused. */
  lemma {:induction false} ExitedProcessHasNoRoute(l: Limits, ms: seq<Machine>, i: nat, j: nat, scope: nat, r: Route)
    requires Run(ms) && i <= j < |ms| && Inv(l, ms[j])
    requires scope < ms[i].starts && !LiveScope(ms[i].frames, scope) && r in ms[j].routes
    ensures r.scope != scope
  {
    if i < j {
      RunEvolves(ms, i, j);
    }
    assert RouteStands(ms[j], r);
    assert LiveScope(ms[j].frames, r.scope);
    if LiveScope(ms[j].frames, scope) {
      LiveWasLive(ms[i], ms[j], scope);
    }
  }

  /** The counters of an exited process stand for ever. */
  lemma {:induction false} ExitedWorkStands(ms: seq<Machine>, i: nat, j: nat, scope: nat)
    requires Run(ms) && i <= j < |ms| && |ms[i].ledger| == ms[i].starts
    requires scope < ms[i].starts && !LiveScope(ms[i].frames, scope)
    ensures scope < |ms[j].ledger| && ms[j].ledger[scope] == ms[i].ledger[scope]
  {
    if i < j {
      RunEvolves(ms, i, j);
    }
  }

  // ---- counting routes ----

  lemma {:induction false} RoutesOfHolds(routes: seq<Route>, scope: nat)
    ensures forall r :: r in RoutesOf(routes, scope) <==> r in routes && r.scope == scope
  {
    if routes != [] {
      RoutesOfHolds(routes[..|routes| - 1], scope);
      assert routes == routes[..|routes| - 1] + [routes[|routes| - 1]];
    }
  }

  lemma {:induction false} RoutesOfApart(routes: seq<Route>, scope: nat)
    requires AllApart(routes)
    ensures AllApart(RoutesOf(routes, scope))
  {
    if routes != [] {
      var shorter, last := routes[..|routes| - 1], routes[|routes| - 1];
      RoutesOfApart(shorter, scope);
      RoutesOfHolds(shorter, scope);
      var some := RoutesOf(shorter, scope);
      forall i | 0 <= i < |some|
        ensures Apart(some[i], last)
      {
        assert some[i] in some;
        var k :| 0 <= k < |shorter| && shorter[k] == some[i];
        assert Apart(routes[k], routes[|routes| - 1]);
      }
    }
  }

  function IdsOf(routes: seq<Route>): set<Id> {
    set r | r in routes :: r.id
  }

  function PendingIds(pending: seq<Request>): set<Id> {
    set q | q in pending :: q.id
  }

  lemma {:induction false} LastIdIsNew(routes: seq<Route>, scope: nat, r: Route)
    requires AllApart(routes) && routes != [] && r in routes[..|routes| - 1]
    requires forall s | s in routes :: s.scope == scope
    ensures r.id != routes[|routes| - 1].id
  {
    var n := |routes| - 1;
    var k :| 0 <= k < n && routes[..n][k] == r;
    assert Apart(routes[k], routes[n]) && routes[k] in routes && routes[n] in routes;
  }

  /** The routes of one process are for different requests. */
  lemma {:induction false} IdsCount(routes: seq<Route>, scope: nat)
    requires AllApart(routes) && forall r | r in routes :: r.scope == scope
    ensures |IdsOf(routes)| == |routes|
  {
    if routes != [] {
      var shorter, last := routes[..|routes| - 1], routes[|routes| - 1];
      assert forall r | r in shorter :: r in routes;
      IdsCount(shorter, scope);
      assert routes == shorter + [last];
      assert IdsOf(routes) == IdsOf(shorter) + {last.id};
      forall r | r in shorter
        ensures r.id != last.id
      {
        LastIdIsNew(routes, scope, r);
      }
    }
  }

  lemma {:induction false} PendingCount(pending: seq<Request>)
    ensures |PendingIds(pending)| <= |pending|
  {
    if pending != [] {
      var shorter, last := pending[..|pending| - 1], pending[|pending| - 1];
      PendingCount(shorter);
      assert pending == shorter + [last];
      assert PendingIds(pending) == PendingIds(shorter) + {last.id};
    }
  }

  lemma {:induction false} SmallerSet<T>(a: set<T>, b: set<T>)
    requires a <= b
    ensures |a| <= |b|
  {
    assert b == a + (b - a);
  }

  /** While a request of a process waits without a route, the process has fewer routes than it may have requests. */
  lemma {:induction false} OneMoreFits(l: Limits, m: Machine, i: nat, id: Id)
    requires Stacked(l, m) && Hosted(l, m) && Routed(l, m) && i < |m.frames|
    requires Pends(m.frames[i].session, id) && !HasRoute(m, m.frames[i].scope, id)
    ensures |RoutesOf(m.routes, m.frames[i].scope)| < l.hostRequests
  {
    var f := m.frames[i];
    var routes := RoutesOf(m.routes, f.scope);
    RoutesOfHolds(m.routes, f.scope);
    RoutesOfApart(m.routes, f.scope);
    IdsCount(routes, f.scope);
    PendingCount(f.session.pending);
    forall r | r in routes
      ensures r.id in PendingIds(f.session.pending) && r.id != id
    {
      RoutePends(l, m, i, id, r);
    }
    var k :| 0 <= k < |f.session.pending| && f.session.pending[k].id == id;
    assert f.session.pending[k] in f.session.pending;
    assert id !in IdsOf(routes);
    SmallerSet(IdsOf(routes) + {id}, PendingIds(f.session.pending));
    assert FrameOk(l, f);
  }

  lemma {:induction false} RoutePends(l: Limits, m: Machine, i: nat, id: Id, r: Route)
    requires Stacked(l, m) && Routed(l, m) && i < |m.frames| && r in m.routes && r.scope == m.frames[i].scope
    requires Pends(m.frames[i].session, id) && !HasRoute(m, m.frames[i].scope, id)
    ensures r.id in PendingIds(m.frames[i].session.pending) && r.id != id
  {
    assert RouteStands(m, r);
    var j :| 0 <= j < |m.frames| && StandsAt(m.frames[j], r);
    assert i == j;
    var k :| 0 <= k < |m.routes| && m.routes[k] == r;
    var q :| 0 <= q < |m.frames[i].session.pending| && m.frames[i].session.pending[q].id == r.id;
    assert m.frames[i].session.pending[q] in m.frames[i].session.pending;
  }

  /** The routes that are left when a process ends. */
  function Without(routes: seq<Route>, scope: nat): seq<Route> {
    if routes == [] then [] else
    var before := Without(routes[..|routes| - 1], scope);
    var last := routes[|routes| - 1];
    if last.scope == scope then before else before + [last]
  }

  lemma {:induction false} WithoutKeeps(routes: seq<Route>, scope: nat)
    ensures |Without(routes, scope)| <= |routes|
    ensures forall r :: r in Without(routes, scope) <==> r in routes && r.scope != scope
  {
    if routes != [] {
      WithoutKeeps(routes[..|routes| - 1], scope);
      assert routes == routes[..|routes| - 1] + [routes[|routes| - 1]];
    }
  }

  lemma {:induction false} RoutesSplit(routes: seq<Route>, scope: nat, other: nat)
    ensures |routes| == |RoutesOf(routes, scope)| + |Without(routes, scope)|
    ensures RoutesOf(Without(routes, scope), other) == if other == scope then [] else RoutesOf(routes, other)
  {
    if routes != [] {
      var shorter, last := routes[..|routes| - 1], routes[|routes| - 1];
      RoutesSplit(shorter, scope, other);
      var left := Without(shorter, scope);
      assert (left + [last])[..|left|] == left;
    }
  }

  lemma {:induction false} SomeProcess(frames: seq<Frame>, routes: seq<Route>)
    requires routes != [] && forall r | r in routes :: LiveScope(frames, r.scope)
    ensures frames != []
  {
    assert routes[0] in routes;
    var k :| 0 <= k < |frames| && frames[k].scope == routes[0].scope;
  }

  /** Processes that keep to their share keep to the total. */
  lemma {:induction false} SharesAddUp(frames: seq<Frame>, routes: seq<Route>, share: nat)
    requires forall r | r in routes :: LiveScope(frames, r.scope)
    requires forall scope: nat :: |RoutesOf(routes, scope)| <= share
    ensures |routes| <= Times(|frames|, share)
  {
    if routes != [] {
      SomeProcess(frames, routes);
    }
    if frames != [] {
      var n := |frames| - 1;
      var scope := frames[n].scope;
      var left := Without(routes, scope);
      WithoutKeeps(routes, scope);
      forall r | r in left
        ensures LiveScope(frames[..n], r.scope)
      {
        var k :| 0 <= k < |frames| && frames[k].scope == r.scope;
        assert frames[..n][k].scope == r.scope;
      }
      forall other: nat
        ensures |RoutesOf(left, other)| <= share
      {
        RoutesSplit(routes, scope, other);
      }
      RoutesSplit(routes, scope, scope);
      SharesAddUp(frames[..n], left, share);
    }
  }

  lemma {:induction false} OthersKeepTheirShare(l: Limits, m: Machine)
    requires m.frames != [] && Routed(l, m)
    ensures |Without(m.routes, Top(m).scope)| <= Times(|m.frames| - 1, l.hostRequests)
  {
    var n, scope := |m.frames| - 1, Top(m).scope;
    var left := Without(m.routes, scope);
    WithoutKeeps(m.routes, scope);
    forall r | r in left
      ensures LiveScope(m.frames[..n], r.scope)
    {
      assert RouteStands(m, r);
      var k :| 0 <= k < |m.frames| && StandsAt(m.frames[k], r);
      assert m.frames[..n][k].scope == r.scope;
    }
    forall other: nat
      ensures |RoutesOf(left, other)| <= l.hostRequests
    {
      RoutesSplit(m.routes, scope, other);
    }
    SharesAddUp(m.frames[..n], left, l.hostRequests);
  }

  lemma {:induction false} TimesGrows(n: nat, k: nat, unit: nat)
    requires n <= k
    ensures Times(n, unit) <= Times(k, unit)
  {
    if n < k {
      TimesGrows(n, k - 1, unit);
    }
  }

  /**
    * The limit on routes never stops a publication: while a request of the active process waits without a route,
    * fewer routes stand than the limit allows.
    */
  lemma {:induction false} RoomNeverLacks(l: Limits, m: Machine, id: Id)
    requires Inv(l, m) && Pends(Top(m).session, id) && !HasRoute(m, Top(m).scope, id)
    ensures |m.routes| < l.hostRequests * l.depth
  {
    var n := |m.frames| - 1;
    OneMoreFits(l, m, n, id);
    OthersKeepTheirShare(l, m);
    RoutesSplit(m.routes, Top(m).scope, Top(m).scope);
    assert |m.routes| < Times(n, l.hostRequests) + l.hostRequests == Times(n + 1, l.hostRequests);
    TimesGrows(n + 1, l.depth, l.hostRequests);
    TimesIsProduct(l.depth, l.hostRequests);
  }
}
