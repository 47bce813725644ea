/** The process supervisor of a computer, as it runs. */
module Supervisor {
  import opened Wrappers
  import opened Words
  import opened Accounting
  import opened Batch
  import opened Sessions
  import opened Processes
  import opened Transitions
  import opened LateAnswers
  import opened Terminations

  const MAXIMUM_ADDONS := 28

  datatype StartError = LimitExceeded | NotAdmitted | NotStarted

  datatype ComputerError = InvalidRequestId | ExternalRequestLimit | ResumeRefused | RunRefused | DeviceFailed
                         | ActiveCompilation | NoCompilation | InvalidCompilationToken | InvalidRedstoneRequest
                         | BadBatch(reason: BatchError)

  datatype Ending = AllocationExhausted | QuotaExhausted | Halted | Crashed | UncaughtException | Faulted | HostFailed

  datatype Outcome =
    | ProcessEntered(scope: nat)
    | ProcessExited(scope: nat)
    | HostRequestBatch(published: seq<nat>)
    | SliceExhausted
    | WaitingForHostQuota
    | WaitingForTerminalEvent
    | Serviced(id: Id)
    | Stopped(ending: Ending)

  /** What one slice of the active session comes to: the calls it has made, its work by then, and how it ended. */
  datatype GuestTurn =
    | HostRequests(calls: seq<Call>, work: Counters)
    | SliceOver(calls: seq<Call>, work: Counters)
    | Ended(calls: seq<Call>, work: Counters, ending: Ending)
    | Refused(calls: seq<Call>, work: Counters)

  /** What a device does with a request: answers it at once, takes it on to answer it later, or fails. */
  datatype DeviceReply = Replies | Parks | Fails

  /**
    * What a request for the process service asks for. `loads` tells whether the arguments, the path and the artifact
    * of a program are found good, and `child` is the work its session has done by the time it has been started.
    */
  datatype ProcessOperation =
    | TakeDiagnostic
    | Exit(code: int)
    | RunProcess(loads: bool, child: Option<Counters>, shell: bool)

  datatype EventPoll = NoEvent | Event | InputBusy

  /**
    * Everything an advance finds out from the interpreter and the devices: whether a parked read is settled, what a
    * parked wait for a terminal event finds, what the active session comes to, which redstone waits are registered,
    * whether the session can run on, how a request is served, and how a session takes an answer.
    */
  datatype Turn = Turn(line: bool, event: EventPoll, guest: GuestTurn, redstone: set<Id>, runnable: bool,
                       device: DeviceReply, process: ProcessOperation, reply: Reply)

  datatype KeyAction = Press | Release | Repeat

  // ---- what the operations come to ----

  predicate TargetLive(m: Machine) {
    exists t | 0 <= t < |m.frames| :: TargetAt(m, t)
  }

  /** The requests of the active process that have been routed. */
  function Exposed(m: Machine): set<Id>
    requires m.frames != []
  {
    set r | r in m.routes && r.scope == Top(m).scope :: r.id
  }

  function ResumeOutcome(m: Machine, id: Id, reply: Reply): Result<Outcome, ComputerError>
    requires m.frames != []
  {
    if Takes(Top(m).session, id, reply) then Ok(Serviced(id)) else Err(ResumeRefused)
  }

  /** What the end of the top process is reported as. */
  function ExitOutcome(m: Machine, reply: Reply): Result<Outcome, ComputerError>
    requires |m.frames| > 1 && m.frames[|m.frames| - 2].process.Some?
  {
    if Delivered(m, reply) then Ok(ProcessExited(Top(m).scope)) else Err(ResumeRefused)
  }

  /** Halting and an uncaught exception clear what is pending; the other endings leave it. */
  predicate Clears(ending: Ending) {
    ending.Halted? || ending.UncaughtException?
  }

  function AfterTurn(l: Limits, s: Session, guest: GuestTurn): Session {
    var ran := Ran(l.hostRequests, s, guest.calls, guest.work);
    if guest.Ended? then Finished(ran, Clears(guest.ending)) else ran
  }

  function GuestRan(l: Limits, m: Machine, guest: GuestTurn): Machine
    requires Running(m)
  {
    TopChanged(m, Top(m).(session := AfterTurn(l, Top(m).session, guest)))
  }

  function ParkingOf(m: Machine, redstone: set<Id>): Parking
    requires m.frames != []
  {
    Parking(Top(m).terminalEvent, Top(m).stdioRead, m.compilation.Some?, redstone)
  }

  /** A settled read is no longer parked, and a wait for a terminal event that finds one is answered. */
  function ParkedAnswer(m: Machine, turn: Turn): Option<(Machine, Result<Outcome, ComputerError>)>
    requires Running(m)
  {
    var top := Top(m);
    if top.stdioRead.Some? && turn.line then
      var id := top.stdioRead.value;
      Some((TopChanged(m, top.(stdioRead := None, session := Resumed(top.session, id, turn.reply))),
            if Takes(top.session, id, turn.reply) then Ok(SliceExhausted) else Err(ResumeRefused)))
    else if top.terminalEvent.Some? && turn.event.InputBusy? then
      Some((m, Err(DeviceFailed)))
    else if top.terminalEvent.Some? && turn.event.Event? then
      var id := top.terminalEvent.value;
      if Takes(top.session, id, turn.reply)
      then Some((TopChanged(m, top.(terminalEvent := None, session := Taken(top.session, id, turn.reply.Fatal?))), Ok(SliceExhausted)))
      else Some((m, Err(ResumeRefused)))
    else None
  }

  predicate ServableIn(s: Session, q: Request) {
    OfKind(s, q.id, q.kind) && q.kind != External
  }

  /** A request whose device keeps its wait with the process or with the machine. */
  predicate HasPlace(q: Request) {
    q.kind.RawTerminal? || q.kind.Stdio? || q.kind.Compiler?
  }

  /**
    * The request is parked, whichever redstone waits stand, and the other two devices wait for what they waited for;
    * sessions and routes are as they were.
    */
  ghost predicate IsParked(m: Machine, n: Machine, q: Request) {
    && m.frames != [] && n.frames != [] && Top(n).session == Top(m).session && n.routes == m.routes
    && (forall redstone :: Parked(ParkingOf(n, redstone), q))
    && (!q.kind.RawTerminal? ==> Top(n).terminalEvent == Top(m).terminalEvent)
    && (!q.kind.Stdio? ==> Top(n).stdioRead == Top(m).stdioRead)
    && (!q.kind.Compiler? ==> n.compilation == m.compilation)
  }

  /** The device that a request is for takes it on. */
  function TakenOn(m: Machine, q: Request): Machine
    requires Running(m)
  {
    match q.kind
    case RawTerminal => TopChanged(m, Top(m).(terminalEvent := Some(q.id)))
    case Stdio => TopChanged(m, Top(m).(stdioRead := Some(q.id)))
    case Compiler => Compiling(m, q.id)
    case _ => m
  }

  /** The end of the active process: a child is taken off the stack, the root stops the machine. */
  predicate EndedAs(l: Limits, m: Machine, n: Machine, ending: Ending, reply: Reply, r: Result<Outcome, ComputerError>) {
    if |m.frames| > 1
    then MayExit(l, m) && n == Exited(l, m, reply) && r == ExitOutcome(m, reply)
    else n == m && r == Ok(Stopped(ending))
  }

  /** The file system answers every request at once. */
  predicate AnswersNow(q: Request, reply: DeviceReply) {
    reply.Replies? || (reply.Parks? && q.kind.FileSystem?)
  }

  predicate ServedAs(l: Limits, m: Machine, n: Machine, q: Request, turn: Turn, r: Result<Outcome, ComputerError>) {
    && Running(m)
    && if !q.kind.Process? then
         if turn.device.Fails? then n == m && r == Err(DeviceFailed)
         else if AnswersNow(q, turn.device)
         then n == Resume(m, q.id, turn.reply) && r == ResumeOutcome(m, q.id, turn.reply)
         else if q.kind.Compiler? && m.nextToken >= U64_MAX then n == m && r == Err(ActiveCompilation)
         else n == TakenOn(m, q) && r == Ok(Serviced(q.id))
       else
         match turn.process
         case TakeDiagnostic => n == Resume(m, q.id, turn.reply) && r == ResumeOutcome(m, q.id, turn.reply)
         case Exit(code) => EndedAs(l, m, n, if 0 <= code < 256 then Halted else Crashed, turn.reply, r)
         case RunProcess(loads, child, shell) =>
           if loads && MayEnter(l, m) && child.Some?
           then n == Entered(l, m, q.id, child.value, shell) && r == Ok(ProcessEntered(m.starts))
           else n == Resume(m, q.id, turn.reply) && r == ResumeOutcome(m, q.id, turn.reply)
  }

  /** Every request of the active process has the route its id tells. */
  predicate AllRouted(m: Machine, requests: seq<Request>, ids: seq<nat>) {
    && m.frames != [] && |ids| == |requests|
    && forall i | 0 <= i < |ids| :: Route(Top(m).scope, requests[i].id, ids[i]) in m.routes
  }

  /** Nothing but routes is added. */
  predicate OnlyRoutes(m: Machine, n: Machine) {
    && n == m.(routes := n.routes, nextExternal := n.nextExternal) && Evolves(m, n)
    && forall r | r in m.routes :: r in n.routes
  }

  /** How many of the requests have not been routed. */
  function FreshCount(requests: seq<Request>, exposed: set<Id>): nat {
    if requests == [] then 0 else
    FreshCount(requests[..|requests| - 1], exposed) + if requests[|requests| - 1].id in exposed then 0 else 1
  }

  /** There are external ids left for all requests that need one. */
  predicate IdsSuffice(m: Machine, requests: seq<Request>)
    requires m.frames != []
  {
    m.nextExternal + FreshCount(requests, Exposed(m)) <= I64_MAX
  }

  predicate PublishedAs(m: Machine, n: Machine, requests: seq<Request>, r: Result<Outcome, ComputerError>) {
    && m.frames != [] && OnlyRoutes(m, n)
    && (IdsSuffice(m, requests) ==>
          r.Ok? && r.value.HostRequestBatch? && AllRouted(n, requests, r.value.published)
          && n.nextExternal == m.nextExternal + FreshCount(requests, Exposed(m)))
    && (!IdsSuffice(m, requests) ==> r == Err(ExternalRequestLimit) && n.nextExternal == I64_MAX)
  }

  /** How a choice is carried out. */
  predicate TakenAs(l: Limits, m: Machine, n: Machine, c: Choice, turn: Turn, r: Result<Outcome, ComputerError>) {
    match c
    case WaitForQuota => n == m && r == Ok(WaitingForHostQuota)
    case Choice(internal, external) =>
      if external != [] then PublishedAs(m, n, external, r)
      else if internal.Some? then ServedAs(l, m, n, internal.value, turn, r)
      else
        && n == m && m.frames != []
        && var idle := (Top(m).stdioRead.Some? || Top(m).terminalEvent.Some?) && !turn.runnable;
        r == Ok(if idle then WaitingForTerminalEvent else SliceExhausted)
  }

  /** How the requests of the active session are taken up. */
  ghost predicate Follows(l: Limits, m: Machine, n: Machine, turn: Turn, budget: nat, r: Result<Outcome, ComputerError>)
    requires m.frames != []
  {
    var p, batch := ParkingOf(m, turn.redstone), Top(m).session.pending;
    if batch == [] then n == m && r == Err(BadBatch(NotRunnable))
    else if CopiesMalformed(p, batch, budget) then n == m && r == Err(BadBatch(Malformed))
    else exists c :: Chosen(p, batch, Exposed(m), budget, c) && TakenAs(l, m, n, c, turn, r)
  }

  /** How the end of a slice is dealt with. */
  ghost predicate DealtWith(l: Limits, m: Machine, n: Machine, turn: Turn, budget: nat, r: Result<Outcome, ComputerError>)
    requires m.frames != []
  {
    match turn.guest
    case Refused(_, _) => n == m && r == Err(RunRefused)
    case SliceOver(_, _) => n == m && r == Ok(SliceExhausted)
    case Ended(_, _, ending) => EndedAs(l, m, n, ending, turn.reply, r)
    case HostRequests(_, _) => Follows(l, m, n, turn, budget, r)
  }

  /** What a slice of the active session comes to. */
  ghost predicate RanAs(l: Limits, m: Machine, n: Machine, turn: Turn, budget: nat, r: Result<Outcome, ComputerError>) {
    Running(m) && DealtWith(l, GuestRan(l, m, turn.guest), n, turn, budget, r)
  }

  ghost predicate AdvancedAs(l: Limits, m: Machine, n: Machine, turn: Turn, budget: nat, r: Result<Outcome, ComputerError>) {
    && Running(m)
    && match ParkedAnswer(m, turn)
       case Some(answer) => n == answer.0 && r == answer.1
       case None => RanAs(l, m, n, turn, budget, r)
  }

  /** A session that has ended is over; only halting and an uncaught exception clear what was pending. */
  lemma {:induction false} EndingClears(l: Limits, s: Session, guest: GuestTurn)
    ensures var ran, t := Ran(l.hostRequests, s, guest.calls, guest.work), AfterTurn(l, s, guest);
            && t.work == ran.work && t.nextRequest == ran.nextRequest && (t.over <==> ran.over || guest.Ended?)
            && t.pending == if guest.Ended? && guest.ending in {Halted, UncaughtException} then [] else ran.pending
  {
  }

  /**
    * How an end is reported: the end of the root by its sort, and the end of a child by its scope if the parent has been
    * told, and then the parent's request no longer pends; a parent that does not take the news is as it was.
    */
  lemma {:induction false} EndIsReported(l: Limits, m: Machine, n: Machine, ending: Ending, reply: Reply,
                                         r: Result<Outcome, ComputerError>)
    requires Inv(l, m) && EndedAs(l, m, n, ending, reply, r)
    ensures |m.frames| == 1 ==> r == Ok(Stopped(ending)) && n == m
    ensures |m.frames| > 1 ==>
              && |n.frames| == |m.frames| - 1 && m.frames[|n.frames| - 1].process.Some?
              && var id, parent := m.frames[|n.frames| - 1].process.value, m.frames[|n.frames| - 1].session;
              && r == (if Takes(parent, id, reply) then Ok(ProcessExited(Top(m).scope)) else Err(ResumeRefused))
              && (if r.Ok? then !Pends(Top(n).session, id) else Top(n).session == parent)
  {
    if |m.frames| > 1 {
      var f := m.frames[|m.frames| - 2];
      assert FrameOk(l, f);
      TakenTidy(l.hostRequests, f.session, f.process.value, reply.Fatal?);
    }
  }

  /** The root halts with a code of one byte and crashes with any other. */
  lemma {:induction false} ExitCodes(l: Limits, m: Machine, n: Machine, q: Request, turn: Turn, code: int,
                                     r: Result<Outcome, ComputerError>)
    requires ServedAs(l, m, n, q, turn, r) && q.kind.Process? && turn.process == Exit(code) && |m.frames| == 1
    ensures n == m
    ensures r == Ok(Stopped(Halted)) <==> 0 <= code <= 0xFF
    ensures r == Ok(Stopped(Crashed)) <==> code < 0 || code > 0xFF
  {
  }

  // ---- waits are kept apart ----

  /** A device that takes a request on has it parked. */
  lemma {:induction false} ParksWhatItTakesOn(l: Limits, m: Machine, n: Machine, q: Request, turn: Turn,
                                              r: Result<Outcome, ComputerError>)
    requires ServedAs(l, m, n, q, turn, r) && HasPlace(q) && turn.device.Parks? && r.Ok?
    ensures IsParked(m, n, q)
  {
  }

  /**
    * A request of a device is answered at once or stays pending: it is answered if the device replies, and by the
    * file system whatever it says short of failing.
    */
  lemma {:induction false} AnsweredOrStays(l: Limits, m: Machine, n: Machine, q: Request, turn: Turn,
                                           r: Result<Outcome, ComputerError>)
    requires Inv(l, m) && ServedAs(l, m, n, q, turn, r) && q in Top(m).session.pending && !q.kind.Process?
    ensures var s, now := Top(m).session, turn.device.Replies? || (q.kind.FileSystem? && !turn.device.Fails?);
            && n.frames != [] && (now ==> (r.Ok? <==> Takes(s, q.id, turn.reply)))
            && (if now && r.Ok? then !Pends(Top(n).session, q.id) else Top(n).session == s)
  {
    TopIsOk(l, m);
    TakenTidy(l.hostRequests, Top(m).session, q.id, turn.reply.Fatal?);
  }

  lemma {:induction false} ShorterByOne(frames: seq<Frame>, f: Frame)
    requires |frames| > 1
    ensures frames[..|frames| - 1][|frames| - 2 := f] == frames[..|frames| - 2] + [f]
  {
  }

  lemma {:induction false} TakenOnParks(m: Machine, q: Request)
    requires Running(m)
    ensures HasPlace(q) ==> IsParked(m, TakenOn(m, q), q)
  {
  }

  /** A parked request is passed over by every choice. */
  lemma {:induction false} ParkedIsPassedOver(p: Parking, batch: seq<Request>, exposed: set<Id>, allowed: nat, c: Choice,
                                              q: Request)
    requires Parked(p, q) && Chosen(p, batch, exposed, allowed, c)
    ensures c.Choice? ==> c.internal != Some(q)
  {
    if c.Choice? && c.internal.Some? {
      ChosenIsServiceable(p, batch, exposed, allowed, c);
    }
  }

  /**
    * What settles a wait is what it waits for: a line answers a read and frees its place, a terminal event answers a
    * raw wait and frees its, and neither touches the other's.
    */
  lemma {:induction false} SettlesItsOwn(l: Limits, m: Machine, turn: Turn)
    requires Inv(l, m) && Running(m) && ParkedAnswer(m, turn).Some?
    ensures var (n, r) := ParkedAnswer(m, turn).value;
            var f, g := Top(m), Top(n);
            if f.stdioRead.Some? && turn.line then
              && g.stdioRead == None && g.terminalEvent == f.terminalEvent
              && OfKind(f.session, f.stdioRead.value, Stdio)
              && (r.Ok? <==> Takes(f.session, f.stdioRead.value, turn.reply))
              && (r.Ok? ==> !Pends(g.session, f.stdioRead.value))
            else
              && f.terminalEvent.Some? && g.stdioRead == f.stdioRead
              && OfKind(f.session, f.terminalEvent.value, RawTerminal)
              && (r.Ok? <==> turn.event.Event? && Takes(f.session, f.terminalEvent.value, turn.reply))
              && (r.Ok? ==> g.terminalEvent == None && !Pends(g.session, f.terminalEvent.value))
              && (r.Err? ==> n == m)
  {
    TopIsOk(l, m);
    var f := Top(m);
    var id := if f.stdioRead.Some? && turn.line then f.stdioRead.value else f.terminalEvent.value;
    TakenKeeps(l.hostRequests, f.session, id, turn.reply.Fatal?);
  }

  // ---- why they keep the invariant ----

  lemma {:induction false} TurnGoesOn(l: Limits, f: Frame, guest: GuestTurn)
    requires FrameOk(l, f)
    ensures GoesOn(l, f, f.(session := AfterTurn(l, f.session, guest)))
  {
    var ran := Ran(l.hostRequests, f.session, guest.calls, guest.work);
    RanKeeps(l.hostRequests, f.session, guest.calls, guest.work);
    if guest.Ended? {
      FinishedKeeps(l.hostRequests, ran, Clears(guest.ending));
      SucceedsTransitive(f.session, ran, Finished(ran, Clears(guest.ending)));
    }
  }

  lemma {:induction false} ResumedGoesOn(l: Limits, f: Frame, id: Id, reply: Reply)
    requires FrameOk(l, f) && Internal(f.session, id)
    ensures GoesOn(l, f, f.(session := Resumed(f.session, id, reply)))
    ensures GoesOn(l, f, f.(session := Resumed(f.session, id, reply), stdioRead := None))
    ensures GoesOn(l, f, f.(session := Resumed(f.session, id, reply), terminalEvent := None))
  {
    ResumedKeeps(l.hostRequests, f.session, id, reply);
  }

  lemma {:induction false} TakenOnGoesOn(l: Limits, f: Frame, id: Id)
    requires FrameOk(l, f)
    ensures OfKind(f.session, id, RawTerminal) ==> GoesOn(l, f, f.(terminalEvent := Some(id)))
    ensures OfKind(f.session, id, Stdio) ==> GoesOn(l, f, f.(stdioRead := Some(id)))
  {
    ItselfSucceeds(l.hostRequests, f.session);
  }

  lemma {:induction false} TopIsOk(l: Limits, m: Machine)
    requires Inv(l, m)
    ensures m.frames != [] && FrameOk(l, Top(m)) && Running(m)
  {
    assert FrameOk(l, m.frames[|m.frames| - 1]);
  }

  // ---- the machine ----

  /** Adds the counters of the live processes to a tally. */
  method AddFrames(t: Tally, frames: seq<Frame>, ghost exact: Work) returns (r: Tally)
    requires t == TallyOf(exact)
    ensures r == TallyOf(Plus(exact, Total(Works(frames))))
  {
    r := t;
    ghost var works := Works(frames);
    ghost var sum := exact;
    for i := 0 to |frames|
      invariant sum == Plus(exact, Total(works[..i])) && r == TallyOf(sum)
    {
      assert works[..i + 1] == works[..i] + [frames[i].session.work];
      TotalExtends(works[..i], frames[i].session.work);
      r := Add(r, frames[i].session.work, sum);
      sum := Plus(sum, frames[i].session.work);
    }
    assert works[..|frames|] == works;
  }

  class ComputerMachine {
    const limits: Limits
    var frames: seq<Frame>
    var starts: nat
    var heap: nat
    var storage: nat
    var retired: Tally
    var termination: Option<nat>
    var compilation: Option<Compilation>
    var nextToken: nat
    var nextExternal: nat
    var routes: seq<Route>
    ghost var ledger: seq<Counters>
    ghost var spent: Work

    ghost function State(): Machine
      reads this
    {
      Machine(frames, starts, heap, storage, retired, termination, compilation, nextToken, nextExternal, routes,
              ledger, spent)
    }

    ghost predicate Valid()
      reads this
    {
      Inv(limits, State())
    }

    constructor (l: Limits, work: Counters)
      requires l.heapBytes <= l.heap && l.storageBytes <= l.storage
      ensures Valid() && limits == l && State() == Initial(l, work)
    {
      limits := l;
      frames, starts := [Frame(0, Started(work), false, None, None, None)], 1;
      heap, storage := l.heapBytes, l.storageBytes;
      retired := Tally(ZERO, false);
      termination, compilation, nextToken, nextExternal, routes := None, None, 1, 1, [];
      ledger, spent := [work], ZERO;
      new;
      InitialKeeps(l, work);
      assert State() == Initial(l, work);
    }

    /**
      * A machine starts if it binds no more add-ons than allowed, the root process fits into the limits, and the
      * root session is admitted and started; `admitted` and `started` are what the interpreter says to that.
      */
    static method Start(l: Limits, addons: nat, admitted: bool, started: Option<Counters>)
      returns (r: Result<ComputerMachine, StartError>)
      ensures r == Err(LimitExceeded) <==> addons > MAXIMUM_ADDONS || l.heapBytes > l.heap || l.storageBytes > l.storage
      ensures r == Err(NotAdmitted) <==>
                addons <= MAXIMUM_ADDONS && l.heapBytes <= l.heap && l.storageBytes <= l.storage && !admitted
      ensures r.Ok? ==> started.Some? && fresh(r.value) && r.value.Valid()
                        && r.value.limits == l && r.value.State() == Initial(l, started.value)
      ensures r.Ok? <==>
                && addons <= MAXIMUM_ADDONS && l.heapBytes <= l.heap && l.storageBytes <= l.storage
                && admitted && started.Some?
    {
      if addons > MAXIMUM_ADDONS {
        return Err(LimitExceeded);
      }
      if l.heapBytes > l.heap || l.storageBytes > l.storage {
        return Err(LimitExceeded);
      }
      if !admitted {
        return Err(NotAdmitted);
      }
      if started.None? {
        return Err(NotStarted);
      }
      var machine := new ComputerMachine(l, started.value);
      return Ok(machine);
    }

    /**
      * The counters are those of every process ever started, ended or not, each stopping at its maximum, and the
      * gauges the sums of what is reported; the flag tells whether any of them would not have fitted.
      */
    method ResourceSnapshot(reports: seq<Gauges>) returns (work: Counters, gauges: Gauges, saturated: bool)
      requires Valid()
      ensures Shows(work, ledger) && Gauged(gauges, reports)
      ensures saturated <==> Overflows(ledger) || GaugeOverflows(reports)
    {
      TallyShows(ledger);
      var tally := AddFrames(retired, frames, spent);
      gauges, saturated := AddReports(reports, tally.saturated);
      work := tally.counters;
    }

    method RetainOthers(scope: nat) returns (left: seq<Route>)
      ensures left == Without(routes, scope)
    {
      left := [];
      for i := 0 to |routes|
        invariant left == Without(routes[..i], scope)
      {
        assert routes[..i + 1][..i] == routes[..i];
        if routes[i].scope != scope {
          left := left + [routes[i]];
        }
      }
      assert routes[..|routes|] == routes;
    }

    /** Takes the top process off the stack and tells its parent. */
    method PopTop(reply: Reply) returns (delivered: bool)
      requires MayExit(limits, State()) && retired == TallyOf(spent)
      modifies this
      ensures MayExit(limits, old(State())) && delivered == Delivered(old(State()), reply)
      ensures State() == Exited(limits, old(State()), reply)
    {
      ghost var after := Exited(limits, State(), reply);
      var child := frames[|frames| - 1];
      ShorterByOne(frames, ResumedParent(State(), reply));
      frames := frames[..|frames| - 1];
      routes := RetainOthers(child.scope);
      KeepWork(child.session.work);
      heap := heap - limits.heapBytes;
      storage := storage - limits.storageBytes;
      delivered := TellParent(reply);
      assert frames == after.frames && spent == after.spent && routes == after.routes;
    }

    /** Adds the work of a process that ends to that of those that have ended. */
    method KeepWork(work: Counters)
      requires retired == TallyOf(spent)
      modifies this`retired, this`spent
      ensures spent == Plus(old(spent), work) && retired == TallyOf(spent)
    {
      retired := Add(retired, work, spent);
      spent := Plus(spent, work);
    }

    /** Tells the process that is now on top that its child has ended. */
    method TellParent(reply: Reply) returns (delivered: bool)
      requires frames != [] && frames[|frames| - 1].process.Some?
      modifies this`frames
      ensures var f := old(frames)[|old(frames)| - 1];
              && frames == old(frames)[|old(frames)| - 1 := f.(process := None, session := Resumed(f.session, f.process.value, reply))]
              && delivered == Takes(f.session, f.process.value, reply)
    {
      var parent := frames[|frames| - 1];
      var id := parent.process.value;
      delivered := Takes(parent.session, id, reply);
      frames := frames[|frames| - 1 := parent.(process := None, session := Resumed(parent.session, id, reply))];
    }

    /**
      * Ends the top process. Its routes go, its work is kept, its reservation is given back, and the parent that
      * waits for it is told; the parent's session may refuse the news, and then the process has ended all the same.
      */
    method FinishChild(reply: Reply) returns (r: Result<Outcome, ComputerError>)
      requires Valid() && |frames| > 1
      modifies this
      ensures Valid() && MayExit(limits, old(State()))
      ensures State() == Exited(limits, old(State()), reply) && Evolves(old(State()), State())
      ensures r == ExitOutcome(old(State()), reply)
    {
      ghost var before := State();
      ChildMayExit(limits, before);
      ExitedKeeps(limits, before, reply);
      var scope := frames[|frames| - 1].scope;
      var delivered := PopTop(reply);
      return if delivered then Ok(ProcessExited(scope)) else Err(ResumeRefused);
    }

    /** Looks up the route of a request of the active process. */
    method FindRoute(id: Id) returns (found: Option<nat>)
      requires frames != []
      ensures found.None? <==> !HasRoute(State(), Top(State()).scope, id)
      ensures found.Some? ==> Route(Top(State()).scope, id, found.value) in routes
    {
      var scope := frames[|frames| - 1].scope;
      for i := 0 to |routes|
        invariant forall j | 0 <= j < i :: routes[j].scope != scope || routes[j].id != id
      {
        if routes[i].scope == scope && routes[i].id == id {
          assert routes[i] == Route(scope, id, routes[i].externalId);
          return Some(routes[i].externalId);
        }
      }
      return None;
    }

    /**
      * Gives a request of the active process its external id: the one it has, if it has been routed before, and a
      * new one otherwise. There is always room for one more route; only ids can run out.
      */
    method RouteExternalRequest(id: Id) returns (r: Result<nat, ComputerError>)
      requires Valid() && PendsExternal(Top(State()).session, id)
      modifies this`routes, this`nextExternal
      ensures Valid() && OnlyRoutes(old(State()), State())
      ensures r.Ok? ==> Route(Top(State()).scope, id, r.value) in routes
      ensures HasRoute(old(State()), Top(State()).scope, id) ==> r.Ok? && State() == old(State())
      ensures !HasRoute(old(State()), Top(State()).scope, id) ==>
                if old(nextExternal) < I64_MAX
                then r == Ok(old(nextExternal)) && State() == Published(old(State()), id)
                else r == Err(ExternalRequestLimit) && State() == old(State())
    {
      RoutesNothing(limits, State());
      var found := FindRoute(id);
      if found.Some? {
        return Ok(found.value);
      }
      ExternalPends(Top(State()).session, id);
      RoomNeverLacks(limits, State(), id);
      if |routes| >= limits.hostRequests * limits.depth || nextExternal >= I64_MAX {
        return Err(ExternalRequestLimit);
      }
      PublishedOnlyRoutes(limits, State(), id);
      var externalId := AddRoute(id);
      return Ok(externalId);
    }

    /** Gives a request of the active process the next external id. */
    method AddRoute(id: Id) returns (externalId: nat)
      requires frames != []
      modifies this`routes, this`nextExternal
      ensures State() == Published(old(State()), id) && externalId == old(nextExternal)
    {
      externalId := nextExternal;
      nextExternal := nextExternal + 1;
      routes := routes + [Route(frames[|frames| - 1].scope, id, externalId)];
    }

    /** Routes all requests that are to be published; it fails exactly when there are not ids enough for them. */
    method RouteAll(requests: seq<Request>) returns (r: Result<Outcome, ComputerError>)
      requires Valid() && Publishable(Top(State()).session, requests)
      modifies this`routes, this`nextExternal
      ensures Valid() && PublishedAs(old(State()), State(), requests, r)
    {
      ghost var before := State();
      RoutesNothing(limits, before);
      var ids := [];
      for i := 0 to |requests|
        invariant Valid() && OnlyRoutes(before, State()) && AllRouted(State(), requests[..i], ids)
        invariant RoutedSoFar(before, State(), requests, i)
      {
        ghost var middle := State();
        assert PendsExternal(Top(middle).session, requests[i].id) by {
          assert requests[i] in requests;
        }
        var routed := RouteExternalRequest(requests[i].id);
        OnlyRoutesTransitive(before, middle, State());
        OneMoreCounted(before, middle, State(), requests, i);
        if routed.Err? {
          IdsRunOut(before, middle, requests, i);
          return Err(ExternalRequestLimit);
        }
        OneMoreRouted(middle, State(), requests, i, ids, routed.value);
        ids := ids + [routed.value];
      }
      assert requests[..|requests|] == requests;
      return Ok(HostRequestBatch(ids));
    }

    /** Looks up the route that an answer is addressed to. */
    method FindAnswered(task: nat, externalId: nat) returns (found: Option<nat>)
      ensures found.None? <==> !Accepts(State(), task, externalId)
      ensures found.Some? ==> found.value < |routes| && Answers(routes[found.value], task, externalId)
    {
      for k := 0 to |routes|
        invariant forall j | 0 <= j < k :: !Answers(routes[j], task, externalId)
      {
        if routes[k].id.task == task && routes[k].externalId == externalId {
          assert Answers(routes[k], task, externalId);
          return Some(k);
        }
      }
      return None;
    }

    /** Looks up a process by its scope. */
    method FindScope(scope: nat) returns (found: Option<nat>)
      ensures found.None? <==> !LiveScope(frames, scope)
      ensures found.Some? ==> found.value < |frames| && frames[found.value].scope == scope
    {
      for i := 0 to |frames|
        invariant forall j | 0 <= j < i :: frames[j].scope != scope
      {
        if frames[i].scope == scope {
          return Some(i);
        }
      }
      return None;
    }

    /** Hands the answer to route `k` to the process at `i` and forgets the route. */
    method Deliver(k: nat, i: nat, ends: bool)
      requires k < |routes| && i < |frames| && frames[i].scope < |ledger|
      modifies this`frames, this`routes, this`ledger
      ensures State() == Answered(old(State()), k, i, ends)
    {
      var frame := frames[i];
      frames := frames[i := frame.(session := Taken(frame.session, routes[k].id, ends))];
      ledger := ledger[frame.scope := frame.session.work];
      routes := routes[k := routes[|routes| - 1]][..|routes| - 1];
    }

    /**
      * Answers a request. An id that no route stands for is refused. Otherwise the answer goes to the session of
      * the process that made the request and to no other; if that session takes it, the route goes.
      */
    method ResumeHostRequestFor(task: nat, externalId: nat, reply: Reply) returns (r: Result<(), ComputerError>)
      requires Valid()
      modifies this`frames, this`routes, this`ledger
      ensures Valid() && Evolves(old(State()), State()) && Meanwhile(old(State()), State())
      ensures r == Err(InvalidRequestId) <==> !Accepts(old(State()), task, externalId)
      ensures r.Err? ==> State() == old(State())
      ensures r.Err? ==> r.error == InvalidRequestId || r.error == ResumeRefused
      ensures r.Ok? ==> !HasExternal(State(), externalId)
      ensures r.Ok? ==> exists k: nat, i: nat :: AnsweredAt(old(State()), State(), k, i, task, externalId, reply)
      ensures r == Err(ResumeRefused) ==> exists k: nat, i: nat :: DeclinedAt(old(State()), k, i, task, externalId, reply)
    {
      ghost var before := State();
      StaysPut(limits, before);
      var found := FindAnswered(task, externalId);
      if found.None? {
        return Err(InvalidRequestId);
      }
      var k := found.value;
      var route := routes[k];
      RouteIsLive(limits, before, route);
      var place := FindScope(route.scope);
      var i := place.value;
      var session := frames[i].session;
      if !Takes(session, route.id, reply) {
        assert DeclinedAt(before, k, i, task, externalId, reply);
        return Err(ResumeRefused);
      }
      AnsweredKeeps(limits, before, k, i, reply.Fatal?);
      AnsweredMeanwhile(before, k, i, reply.Fatal?);
      assert AnsweredAt(before, Answered(before, k, i, reply.Fatal?), k, i, task, externalId, reply);
      Deliver(k, i, reply.Fatal?);
      return Ok(());
    }

    /** Replaces the active process's frame by one that goes on from it. */
    method SetActive(f: Frame)
      requires Valid() && GoesOn(limits, Top(State()), f)
      modifies this`frames, this`ledger
      ensures Running(old(State())) && State() == TopChanged(old(State()), f)
      ensures Valid() && Evolves(old(State()), State())
    {
      FrameChangedKeeps(limits, State(), |frames| - 1, f);
      frames := frames[|frames| - 1 := f];
      ledger := ledger[f.scope := f.session.work];
    }

    /** Answers an internal request of the active process. */
    method ResumeActive(id: Id, reply: Reply) returns (r: Result<Outcome, ComputerError>)
      requires Valid() && Internal(Top(State()).session, id)
      modifies this`frames, this`ledger
      ensures Valid() && Evolves(old(State()), State())
      ensures Running(old(State())) && State() == Resume(old(State()), id, reply)
      ensures r == ResumeOutcome(old(State()), id, reply)
    {
      TopIsOk(limits, State());
      ResumedGoesOn(limits, Top(State()), id, reply);
      var top := frames[|frames| - 1];
      SetActive(top.(session := Resumed(top.session, id, reply)));
      return if Takes(top.session, id, reply) then Ok(Serviced(id)) else Err(ResumeRefused);
    }

    /** Suspends the active process and puts a new one on top of it. */
    method PushChild(id: Id, work: Counters, shell: bool) returns (scope: nat)
      requires frames != []
      modifies this
      ensures State() == Entered(limits, old(State()), id, work, shell) && scope == old(starts)
    {
      scope := starts;
      frames := frames[|frames| - 1 := frames[|frames| - 1].(process := Some(id))]
                + [Frame(scope, Started(work), shell, None, None, None)];
      starts := starts + 1;
      heap := heap + limits.heapBytes;
      storage := storage + limits.storageBytes;
      ledger := ledger + [work];
    }

    /**
      * Starts a program on behalf of the active process. It becomes the new top process if it loads, starts, and
      * keeps within the limits; otherwise the active process is told at once and the stack stays as it is.
      */
    method RunProgram(id: Id, loads: bool, child: Option<Counters>, shell: bool, reply: Reply)
      returns (r: Result<Outcome, ComputerError>)
      requires Valid() && OfKind(Top(State()).session, id, Process)
      modifies this
      ensures Valid() && Evolves(old(State()), State())
      ensures loads && MayEnter(limits, old(State())) && child.Some? ==>
                && r == Ok(ProcessEntered(old(starts)))
                && State() == Entered(limits, old(State()), id, child.value, shell)
      ensures !(loads && MayEnter(limits, old(State())) && child.Some?) ==>
                && Running(old(State())) && State() == Resume(old(State()), id, reply)
                && r == ResumeOutcome(old(State()), id, reply)
    {
      if || !loads || |frames| >= limits.depth || starts >= limits.starts || starts >= I64_MAX
         || heap + limits.heapBytes > U64_MAX || storage + limits.storageBytes > U64_MAX
         || heap + limits.heapBytes > limits.heap || storage + limits.storageBytes > limits.storage
         || child.None?
      {
        r := ResumeActive(id, reply);
        return;
      }
      EnteredKeeps(limits, State(), id, child.value, shell);
      var scope := PushChild(id, child.value, shell);
      return Ok(ProcessEntered(scope));
    }

    /** The place above the last shell, or above the root when there is no shell. */
    method FindTarget() returns (t: nat)
      ensures IsTarget(frames, t)
    {
      t := |frames|;
      while t > 0 && !frames[t - 1].shell
        invariant t <= |frames| && forall j | t <= j < |frames| :: !frames[j].shell
      {
        t := t - 1;
      }
      t := if t == 0 then 1 else t;
    }

    /**
      * Takes a key event. Pressing control-C asks for the process above the last shell to be ended, never the root,
      * unless an end is already asked for; the event is then consumed, as is a repeated or released control-C.
      */
    method SubmitTerminalKey(controlC: bool, action: KeyAction) returns (forwarded: bool, drained: bool)
      requires Valid()
      modifies this`termination
      ensures Valid() && Evolves(old(State()), State())
      ensures forwarded <==> !controlC || (action == Press && termination.None?)
      ensures drained <==> termination != old(termination)
      ensures old(termination).Some? ==> Meanwhile(old(State()), State())
      ensures !(controlC && action == Press && old(termination).None?) ==> termination == old(termination)
      ensures controlC && action == Press && old(termination).None? ==>
                exists t: nat :: IsTarget(frames, t) && termination == if t < |frames| then Some(frames[t].scope) else None
    {
      StaysPut(limits, State());
      drained := false;
      if controlC {
        if action == Press && termination.None? {
          var t := FindTarget();
          var target := if t < |frames| then Some(frames[t].scope) else None;
          assert t < |frames| ==> frames[0].scope < frames[t].scope;
          MarksSet(limits, State(), State(), target, compilation);
          termination := target;
          drained := termination.Some?;
        }
        if termination.Some? || action != Press {
          return false, drained;
        }
      }
      return true, drained;
    }

    /** Asks for a compilation on behalf of the active process. */
    method BeginCompilation(id: Id)
      requires Valid() && OfKind(Top(State()).session, id, Compiler)
      modifies this`compilation, this`nextToken
      ensures State() == Compiling(old(State()), id)
      ensures Valid() && Evolves(old(State()), State())
    {
      CompilingKeeps(limits, State(), id);
      compilation := Some(Compilation(nextToken, id, |frames|, frames[|frames| - 1].scope));
      nextToken := nextToken + 1;
    }

    /** Leaves a request of the active process with the device it is for. */
    method TakeOn(q: Request)
      requires Valid() && OfKind(Top(State()).session, q.id, q.kind)
      modifies this`frames, this`ledger, this`compilation, this`nextToken
      ensures Valid() && Evolves(old(State()), State())
      ensures Running(old(State())) && State() == TakenOn(old(State()), q)
      ensures HasPlace(q) ==> IsParked(old(State()), State(), q)
    {
      TopIsOk(limits, State());
      TakenOnParks(State(), q);
      var top := frames[|frames| - 1];
      match q.kind
      case RawTerminal =>
        TakenOnGoesOn(limits, top, q.id);
        SetActive(top.(terminalEvent := Some(q.id)));
      case Stdio =>
        TakenOnGoesOn(limits, top, q.id);
        SetActive(top.(stdioRead := Some(q.id)));
      case Compiler =>
        BeginCompilation(q.id);
      case _ =>
        StaysPut(limits, State());
    }

    /** Ends the active process; the end of the root stops the machine. */
    method EndActive(ending: Ending, reply: Reply) returns (r: Result<Outcome, ComputerError>)
      requires Valid()
      modifies this
      ensures Valid() && Evolves(old(State()), State())
      ensures EndedAs(limits, old(State()), State(), ending, reply, r)
    {
      StaysPut(limits, State());
      if |frames| > 1 {
        r := FinishChild(reply);
      } else {
        r := Ok(Stopped(ending));
      }
    }

    /** Serves one request of the active process: by its device, or, for the process service, by the supervisor. */
    method Serve(q: Request, turn: Turn) returns (r: Result<Outcome, ComputerError>)
      requires Valid() && OfKind(Top(State()).session, q.id, q.kind) && q.kind != External
      modifies this
      ensures Valid() && Evolves(old(State()), State())
      ensures ServedAs(limits, old(State()), State(), q, turn, r)
    {
      StaysPut(limits, State());
      TopIsOk(limits, State());
      if !q.kind.Process? {
        if turn.device.Fails? {
          return Err(DeviceFailed);
        }
        if AnswersNow(q, turn.device) {
          r := ResumeActive(q.id, turn.reply);
          return;
        }
        if q.kind.Compiler? && nextToken >= U64_MAX {
          return Err(ActiveCompilation);
        }
        TakeOn(q);
        return Ok(Serviced(q.id));
      }
      match turn.process {
        case TakeDiagnostic =>
          r := ResumeActive(q.id, turn.reply);
        case Exit(code) =>
          r := EndActive(if 0 <= code < 256 then Halted else Crashed, turn.reply);
        case RunProcess(loads, child, shell) =>
          r := RunProgram(q.id, loads, child, shell, turn.reply);
      }
    }

    /** Carries out a choice: publishes what is chosen for the host, or serves the one chosen, or says why to wait. */
    method CarryOut(c: Choice, turn: Turn) returns (r: Result<Outcome, ComputerError>)
      requires Valid()
      requires c.Choice? ==> Publishable(Top(State()).session, c.external)
      requires c.Choice? && c.internal.Some? ==> ServableIn(Top(State()).session, c.internal.value)
      modifies this
      ensures Valid() && Evolves(old(State()), State())
      ensures TakenAs(limits, old(State()), State(), c, turn, r)
    {
      StaysPut(limits, State());
      if c.WaitForQuota? {
        return Ok(WaitingForHostQuota);
      }
      if c.external != [] {
        r := RouteAll(c.external);
      } else if c.internal.Some? {
        r := Serve(c.internal.value, turn);
      } else {
        var top := frames[|frames| - 1];
        var idle := (top.stdioRead.Some? || top.terminalEvent.Some?) && !turn.runnable;
        r := Ok(if idle then WaitingForTerminalEvent else SliceExhausted);
      }
    }

    /** Takes up the requests of the active session. */
    method TakeUp(turn: Turn, budget: nat) returns (r: Result<Outcome, ComputerError>)
      requires Valid()
      modifies this
      ensures Valid() && Evolves(old(State()), State())
      ensures Follows(limits, old(State()), State(), turn, budget, r)
    {
      ghost var before := State();
      StaysPut(limits, before);
      TopIsOk(limits, before);
      var top := frames[|frames| - 1];
      var parking := Parking(top.terminalEvent, top.stdioRead, compilation.Some?, turn.redstone);
      assert parking == ParkingOf(before, turn.redstone);
      var exposed := set route | route in routes && route.scope == top.scope :: route.id;
      assert exposed == Exposed(before);
      var chosen := Choose(parking, top.session.pending, exposed, budget);
      if chosen.Err? {
        assert chosen.error == NotRunnable || chosen.error == Malformed;
        return Err(BadBatch(chosen.error));
      }
      ChoiceCanBeCarriedOut(top.session, parking, exposed, budget, chosen.value);
      r := CarryOut(chosen.value, turn);
    }

    /** Settles a parked read or a parked wait for a terminal event. */
    method AnswerParked(turn: Turn) returns (r: Option<Result<Outcome, ComputerError>>)
      requires Valid()
      modifies this`frames, this`ledger
      ensures Valid() && Evolves(old(State()), State()) && Running(old(State()))
      ensures match ParkedAnswer(old(State()), turn)
              case Some(answer) => State() == answer.0 && r == Some(answer.1)
              case None => State() == old(State()) && r == None
    {
      TopIsOk(limits, State());
      StaysPut(limits, State());
      var top := frames[|frames| - 1];
      if top.stdioRead.Some? && turn.line {
        var id := top.stdioRead.value;
        ResumedGoesOn(limits, top, id, turn.reply);
        SetActive(top.(stdioRead := None, session := Resumed(top.session, id, turn.reply)));
        return Some(if Takes(top.session, id, turn.reply) then Ok(SliceExhausted) else Err(ResumeRefused));
      }
      if top.terminalEvent.Some? && turn.event.InputBusy? {
        return Some(Err(DeviceFailed));
      }
      if top.terminalEvent.Some? && turn.event.Event? {
        var id := top.terminalEvent.value;
        if !Takes(top.session, id, turn.reply) {
          return Some(Err(ResumeRefused));
        }
        ResumedGoesOn(limits, top, id, turn.reply);
        SetActive(top.(terminalEvent := None, session := Taken(top.session, id, turn.reply.Fatal?)));
        return Some(Ok(SliceExhausted));
      }
      return None;
    }

    /** Runs the active session for a slice. */
    method RunSlice(guest: GuestTurn)
      requires Valid()
      modifies this`frames, this`ledger
      ensures Valid() && Evolves(old(State()), State())
      ensures Running(old(State())) && State() == GuestRan(limits, old(State()), guest)
    {
      TopIsOk(limits, State());
      TurnGoesOn(limits, Top(State()), guest);
      var top := frames[|frames| - 1];
      SetActive(top.(session := AfterTurn(limits, top.session, guest)));
    }

    /** Deals with what a slice of the active session has come to. */
    method DealWith(turn: Turn, budget: nat) returns (r: Result<Outcome, ComputerError>)
      requires Valid()
      modifies this
      ensures Valid() && Evolves(old(State()), State())
      ensures DealtWith(limits, old(State()), State(), turn, budget, r)
    {
      StaysPut(limits, State());
      match turn.guest {
        case Refused(_, _) =>
          r := Err(RunRefused);
        case SliceOver(_, _) =>
          r := Ok(SliceExhausted);
        case Ended(_, _, ending) =>
          r := EndActive(ending, turn.reply);
        case HostRequests(_, _) =>
          r := TakeUp(turn, budget);
      }
    }

    method AdvanceGuest(turn: Turn, budget: nat) returns (r: Result<Outcome, ComputerError>)
      requires Valid()
      modifies this
      ensures Valid() && Evolves(old(State()), State())
      ensures RanAs(limits, old(State()), State(), turn, budget, r)
    {
      RunSlice(turn.guest);
      ghost var ran := State();
      r := DealWith(turn, budget);
      EvolvesTransitive(old(State()), ran, State());
    }

    /**
      * One advance of the machine. While a process is to be ended, the top process ends and nothing runs;
      * otherwise a parked wait may be answered by a device, or the active session runs.
      */
    method Advance(turn: Turn, budget: nat) returns (r: Result<Outcome, ComputerError>)
      requires Valid()
      modifies this
      ensures Valid() && Evolves(old(State()), State())
      ensures forall t: nat | TargetAt(old(State()), t) ::
                && TerminationStep(limits, old(State()), State(), t, turn.reply)
                && r == ExitOutcome(old(State()), turn.reply)
      ensures !TargetLive(old(State())) ==>
                AdvancedAs(limits, old(State()).(termination := None), State(), turn, budget, r)
    {
      ghost var before := State();
      var terminated := AdvanceTermination(turn.reply);
      if terminated.Some? {
        return terminated.value;
      }
      ghost var cleared := State();
      var parked := AnswerParked(turn);
      if parked.Some? {
        EvolvesTransitive(before, cleared, State());
        return parked.value;
      }
      r := AdvanceGuest(turn, budget);
      EvolvesTransitive(before, cleared, State());
    }

    /** One step of forced termination, if the process to be ended is still there. */
    method AdvanceTermination(reply: Reply) returns (r: Option<Result<Outcome, ComputerError>>)
      requires Valid()
      modifies this
      ensures Valid() && Evolves(old(State()), State())
      ensures r.Some? <==> TargetLive(old(State()))
      ensures r.None? ==> State() == old(State()).(termination := None)
      ensures forall t: nat | TargetAt(old(State()), t) ::
                && TerminationStep(limits, old(State()), State(), t, reply)
                && r == Some(ExitOutcome(old(State()), reply))
    {
      ghost var before := State();
      StaysPut(limits, before);
      if termination.None? {
        return None;
      }
      var found := FindScope(termination.value);
      if found.None? {
        MarksSet(limits, before, before, None, compilation);
        termination := None;
        return None;
      }
      TargetIsUnique(limits, before, found.value);
      TargetIsNotRoot(limits, before, found.value);
      TerminatedKeeps(limits, before, found.value, reply);
      var outcome := TerminateTop(found.value, reply);
      return Some(outcome);
    }

    /** Ends the top process on the way to the one at `index`. */
    method TerminateTop(index: nat, reply: Reply) returns (r: Result<Outcome, ComputerError>)
      requires MayExit(limits, State()) && retired == TallyOf(spent)
      modifies this
      ensures TerminationStep(limits, old(State()), State(), index, reply)
      ensures r == ExitOutcome(old(State()), reply)
    {
      if compilation.Some? && compilation.value.depth > index {
        compilation := None;
      }
      var scope := frames[|frames| - 1].scope;
      var delivered := PopTop(reply);
      if delivered && |frames| == index {
        termination := None;
      }
      return if delivered then Ok(ProcessExited(scope)) else Err(ResumeRefused);
    }

    /** Offers an answer to the active process, by the id of a request alone. */
    method TellActive(id: Id, reply: Reply) returns (delivered: bool)
      requires Running(State())
      modifies this`frames, this`ledger
      ensures Running(old(State())) && State() == Resume(old(State()), id, reply)
      ensures delivered == Takes(Top(old(State())).session, id, reply)
    {
      var d := |frames| - 1;
      var top := frames[d];
      delivered := Takes(top.session, id, reply);
      var told := Resumed(top.session, id, reply);
      frames := frames[d := top.(session := told)];
      ledger := ledger[top.scope := told.work];
    }

    /**
      * Ends the compilation of a token and answers its request, if a process is active at the depth of the one that
      * asked. The invariant is kept exactly when the answer is not misdirected.
      */
    method CompleteCompilation(token: nat, reply: Reply) returns (r: Result<Outcome, ComputerError>)
      requires Valid()
      modifies this`frames, this`ledger, this`compilation
      ensures Running(old(State())) && State() == Completed(old(State()), token, reply)
      ensures r == if old(compilation).None? then Err(NoCompilation)
                   else if old(compilation).value.token != token then Err(InvalidCompilationToken)
                   else if old(compilation).value.depth != |old(frames)| then Err(NoCompilation)
                   else ResumeOutcome(old(State()), old(compilation).value.id, reply)
      ensures Valid() <==> !MisdirectsCompilation(old(State()), token, reply)
      ensures Valid() ==> Evolves(old(State()), State())
      ensures Meanwhile(old(State()), State())
    {
      TopIsOk(limits, State());
      CompletedKeepsIff(limits, State(), token, reply);
      CompletedMeanwhile(limits, State(), token, reply);
      if compilation.None? {
        return Err(NoCompilation);
      }
      if compilation.value.token != token {
        return Err(InvalidCompilationToken);
      }
      if compilation.value.depth != |frames| {
        return Err(NoCompilation);
      }
      var id := compilation.value.id;
      compilation := None;
      var delivered := TellActive(id, reply);
      return if delivered then Ok(Serviced(id)) else Err(ResumeRefused);
    }

    method WakeAll(ws: seq<Wakeup>) returns (delivered: bool)
      requires Running(State())
      modifies this`frames, this`ledger
      ensures Running(old(State())) && State() == Awakened(old(State()), ws)
      ensures delivered == AllDelivered(old(State()), ws)
    {
      ghost var before := State();
      for i := 0 to |ws|
        invariant Running(State()) && Awakened(before, ws) == Awakened(State(), ws[i..])
        invariant AllDelivered(before, ws) == AllDelivered(State(), ws[i..])
      {
        assert ws[i..][1..] == ws[i + 1..];
        delivered := TellActive(ws[i].id, ReplyOf(ws[i]));
        if !delivered {
          return;
        }
      }
      return true;
    }

    /**
      * Takes new redstone levels. `woken` is what the device makes of the packet: nothing if it is malformed, and
      * otherwise the waits it ends. Their levels go to the active process, up to the first that is refused. The
      * invariant is kept exactly when none of them is misdirected.
      */
    method SubmitRedstoneInput(woken: Option<seq<Wakeup>>) returns (r: Result<(), ComputerError>)
      requires Valid()
      modifies this`frames, this`ledger
      ensures Running(old(State()))
      ensures woken.None? ==> State() == old(State()) && r == Err(InvalidRedstoneRequest)
      ensures woken.Some? ==>
                && State() == Awakened(old(State()), woken.value)
                && r == if AllDelivered(old(State()), woken.value) then Ok(()) else Err(ResumeRefused)
      ensures Valid() <==> woken.None? || !Astray(old(State()), woken.value)
      ensures Valid() ==> Evolves(old(State()), State())
      ensures Meanwhile(old(State()), State())
    {
      ghost var before := State();
      TopIsOk(limits, before);
      StaysPut(limits, before);
      if woken.None? {
        return Err(InvalidRedstoneRequest);
      }
      var ws := woken.value;
      AwakenedKeepsIff(limits, before, ws);
      AwakenedMeanwhile(limits, before, ws);
      var delivered := WakeAll(ws);
      return if delivered then Ok(()) else Err(ResumeRefused);
    }
  }

  /** A choice from the pending requests publishes requests of the host's and serves a request of the machine's. */
  lemma {:induction false} ChoiceCanBeCarriedOut(s: Session, p: Parking, exposed: set<Id>, budget: nat, c: Choice)
    requires Tidy(s) && Chosen(p, s.pending, exposed, budget, c)
    ensures c.Choice? ==> Publishable(s, c.external)
    ensures c.Choice? && c.internal.Some? ==> ServableIn(s, c.internal.value)
  {
    PrefixPublishable(s, budget);
    if c.Choice? && c.internal.Some? {
      ChosenIsServiceable(p, s.pending, exposed, budget, c);
      PendingIsOfKind(s, c.internal.value);
    }
  }

  lemma {:induction false} ExternalsRise(batch: seq<Request>)
    requires forall i, j | 0 <= i < j < |batch| :: batch[i].id.request < batch[j].id.request
    ensures var all := Externals(batch);
            && (forall q | q in all :: q in batch && q.kind == External)
            && (forall i, j | 0 <= i < j < |all| :: all[i].id.request < all[j].id.request)
  {
    if batch != [] {
      var n := |batch| - 1;
      ExternalsRise(batch[..n]);
      var before := Externals(batch[..n]);
      forall i | 0 <= i < |before|
        ensures before[i].id.request < batch[n].id.request
      {
        assert before[i] in before;
        var k :| 0 <= k < n && batch[..n][k] == before[i];
        assert batch[k] == before[i];
      }
    }
  }

  lemma {:induction false} PrefixPublishable(s: Session, budget: nat)
    requires Tidy(s)
    ensures Publishable(s, Prefix(s.pending, budget)) && Publishable(s, [])
  {
    ExternalsRise(s.pending);
    var all, some := Externals(s.pending), Prefix(s.pending, budget);
    forall q | q in some
      ensures PendsExternal(s, q.id)
    {
      assert q in all;
      var k :| 0 <= k < |s.pending| && s.pending[k] == q;
    }
  }

  lemma {:induction false} RouteIsLive(l: Limits, m: Machine, r: Route)
    requires Routed(l, m) && r in m.routes
    ensures LiveScope(m.frames, r.scope)
  {
    assert RouteStands(m, r);
    var i :| 0 <= i < |m.frames| && StandsAt(m.frames[i], r);
  }

  lemma {:induction false} TargetIsUnique(l: Limits, m: Machine, t: nat)
    requires Stacked(l, m) && TargetAt(m, t)
    ensures TargetLive(m) && forall s: nat | TargetAt(m, s) :: s == t
  {
    forall s: nat | TargetAt(m, s)
      ensures s == t
    {
      assert m.frames[s].scope == m.frames[t].scope;
    }
  }

  /** Above the last shell among the processes, or above the root. */
  predicate IsTarget(frames: seq<Frame>, t: nat) {
    && 1 <= t && (t <= |frames| || (t == 1 && frames == []))
    && (forall j | t <= j < |frames| :: !frames[j].shell)
    && (t == 1 || frames[t - 1].shell)
  }

  /** Route `k` is the one addressed, and the process at `i` made its request. */
  predicate Addressed(m: Machine, k: nat, i: nat, task: nat, externalId: nat) {
    RoutedTo(m, k, i) && Answers(m.routes[k], task, externalId)
  }

  /** The answer has reached the process that made the request, which no longer waits for it. */
  predicate AnsweredAt(m: Machine, n: Machine, k: nat, i: nat, task: nat, externalId: nat, reply: Reply) {
    && Addressed(m, k, i, task, externalId) && m.frames[i].scope < |m.ledger|
    && Takes(m.frames[i].session, m.routes[k].id, reply)
    && n == Answered(m, k, i, reply.Fatal?)
  }

  predicate DeclinedAt(m: Machine, k: nat, i: nat, task: nat, externalId: nat, reply: Reply) {
    Addressed(m, k, i, task, externalId) && !Takes(m.frames[i].session, m.routes[k].id, reply)
  }

  /**
    * An answer reaches the request that was routed under its id, made by a task of the same number; it no longer pends,
    * and every other process is as it was.
    */
  lemma {:induction false} AnswerReaches(l: Limits, m: Machine, n: Machine, k: nat, i: nat, task: nat, externalId: nat,
                                         reply: Reply)
    requires Inv(l, m) && AnsweredAt(m, n, k, i, task, externalId, reply)
    ensures m.routes[k].externalId == externalId && m.routes[k].id.task == task && m.routes[k].scope == m.frames[i].scope
    ensures |n.frames| == |m.frames| && !Pends(n.frames[i].session, m.routes[k].id)
    ensures forall j | 0 <= j < |m.frames| && j != i :: n.frames[j] == m.frames[j]
  {
    assert FrameOk(l, m.frames[i]);
    TakenTidy(l.hostRequests, m.frames[i].session, m.routes[k].id, reply.Fatal?);
  }

  /** Requests that are pending, for the host, and different. */
  predicate Publishable(s: Session, requests: seq<Request>) {
    && (forall q | q in requests :: PendsExternal(s, q.id))
    && Different(requests)
  }

  predicate Different(requests: seq<Request>) {
    forall i, j | 0 <= i < j < |requests| :: requests[i].id != requests[j].id
  }

  /** After the first `i` requests the ids given are as many as those requests needed, and the others are as before. */
  ghost predicate RoutedSoFar(m: Machine, n: Machine, requests: seq<Request>, i: nat)
    requires i <= |requests|
  {
    && m.frames != [] && n.frames == m.frames
    && n.nextExternal == m.nextExternal + FreshCount(requests[..i], Exposed(m))
    && forall j | i <= j < |requests| :: requests[j].id in Exposed(n) <==> requests[j].id in Exposed(m)
  }

  lemma {:induction false} ExposedIsRouted(m: Machine, id: Id)
    requires m.frames != []
    ensures id in Exposed(m) <==> HasRoute(m, Top(m).scope, id)
  {
    if id in Exposed(m) {
      var r :| r in m.routes && r.scope == Top(m).scope && r.id == id;
      var k :| 0 <= k < |m.routes| && m.routes[k] == r;
    }
    if HasRoute(m, Top(m).scope, id) {
      var k :| 0 <= k < |m.routes| && m.routes[k].scope == Top(m).scope && m.routes[k].id == id;
      assert m.routes[k] in m.routes;
    }
  }

  lemma {:induction false} FreshCountStep(requests: seq<Request>, i: nat, exposed: set<Id>)
    requires i < |requests|
    ensures FreshCount(requests[..i + 1], exposed)
            == FreshCount(requests[..i], exposed) + if requests[i].id in exposed then 0 else 1
  {
    assert requests[..i + 1][..i] == requests[..i];
  }

  lemma {:induction false} FreshCountGrows(requests: seq<Request>, i: nat, exposed: set<Id>)
    requires i <= |requests|
    ensures FreshCount(requests[..i], exposed) <= FreshCount(requests, exposed)
    decreases |requests| - i
  {
    if i < |requests| {
      FreshCountStep(requests, i, exposed);
      FreshCountGrows(requests, i + 1, exposed);
    } else {
      assert requests[..i] == requests;
    }
  }

  lemma {:induction false} PublishedExposes(m: Machine, id: Id)
    requires m.frames != []
    ensures Exposed(Published(m, id)) == Exposed(m) + {id}
  {
    var n := Published(m, id);
    var added := Route(Top(m).scope, id, m.nextExternal);
    assert forall r :: r in n.routes <==> r in m.routes || r == added;
    assert added in n.routes;
  }

  lemma {:induction false} OneMoreCounted(before: Machine, m: Machine, n: Machine, requests: seq<Request>, i: nat)
    requires i < |requests| && RoutedSoFar(before, m, requests, i) && Different(requests)
    requires if HasRoute(m, Top(m).scope, requests[i].id) || m.nextExternal >= I64_MAX then n == m
             else n == Published(m, requests[i].id)
    ensures HasRoute(m, Top(m).scope, requests[i].id) || m.nextExternal < I64_MAX ==> RoutedSoFar(before, n, requests, i + 1)
  {
    FreshCountStep(requests, i, Exposed(before));
    ExposedIsRouted(m, requests[i].id);
    if !HasRoute(m, Top(m).scope, requests[i].id) {
      PublishedExposes(m, requests[i].id);
    }
  }

  lemma {:induction false} IdsRunOut(before: Machine, m: Machine, requests: seq<Request>, i: nat)
    requires i < |requests| && RoutedSoFar(before, m, requests, i)
    requires !HasRoute(m, Top(m).scope, requests[i].id) && m.nextExternal >= I64_MAX
    ensures !IdsSuffice(before, requests)
  {
    FreshCountStep(requests, i, Exposed(before));
    ExposedIsRouted(m, requests[i].id);
    FreshCountGrows(requests, i + 1, Exposed(before));
  }

  lemma {:induction false} OneMoreRouted(m: Machine, n: Machine, requests: seq<Request>, i: nat, ids: seq<nat>, id: nat)
    requires i < |requests| && AllRouted(m, requests[..i], ids) && OnlyRoutes(m, n)
    requires Route(Top(n).scope, requests[i].id, id) in n.routes
    ensures AllRouted(n, requests[..i + 1], ids + [id])
  {
    forall k | 0 <= k < i + 1
      ensures Route(Top(n).scope, requests[..i + 1][k].id, (ids + [id])[k]) in n.routes
    {
      if k < i {
        assert Route(Top(m).scope, requests[..i][k].id, ids[k]) in m.routes;
      }
    }
  }

  lemma {:induction false} RoutesNothing(l: Limits, m: Machine)
    requires Inv(l, m)
    ensures OnlyRoutes(m, m)
  {
    StaysPut(l, m);
  }

  lemma {:induction false} PublishedOnlyRoutes(l: Limits, m: Machine, id: Id)
    requires Inv(l, m) && m.nextExternal < I64_MAX && PendsExternal(Top(m).session, id) && !HasRoute(m, Top(m).scope, id)
    ensures Inv(l, Published(m, id)) && OnlyRoutes(m, Published(m, id))
    ensures Route(Top(m).scope, id, m.nextExternal) in Published(m, id).routes
  {
    PublishedKeeps(l, m, id);
    var n := Published(m, id);
    assert n.routes[|m.routes|] == Route(Top(m).scope, id, m.nextExternal);
  }

  lemma {:induction false} OnlyRoutesTransitive(m: Machine, n: Machine, o: Machine)
    requires OnlyRoutes(m, n) && OnlyRoutes(n, o)
    ensures OnlyRoutes(m, o)
  {
    EvolvesTransitive(m, n, o);
  }

  // ---- progress ----

  /** There is work in the batch that the machine can do itself, and nothing malformed in the way. */
  ghost predicate HasWork(m: Machine, redstone: set<Id>, budget: nat) {
    && m.frames != []
    && var p, batch := ParkingOf(m, redstone), Top(m).session.pending;
    AnyWanted(p, batch, false) && !CopiesMalformed(p, batch, budget)
  }

  /** One of the pending requests that the machine can serve is served. */
  ghost predicate ServesOne(l: Limits, m: Machine, n: Machine, turn: Turn, r: Result<Outcome, ComputerError>)
    requires m.frames != []
  {
    exists q :: q in Top(m).session.pending && Serviceable(ParkingOf(m, turn.redstone), q) && ServedAs(l, m, n, q, turn, r)
  }

  /** A batch is published in which a pending request gets a route that had none. */
  ghost predicate ShowsSomethingNew(m: Machine, n: Machine, r: Result<Outcome, ComputerError>)
    requires m.frames != [] && n.frames != []
  {
    && r.Ok? && r.value.HostRequestBatch?
    && exists q :: q in Top(m).session.pending && q.id !in Exposed(m) && q.id in Exposed(n)
  }

  lemma {:induction false} ExternalsArePending(batch: seq<Request>, budget: nat, i: nat)
    requires i < |Prefix(batch, budget)|
    ensures Prefix(batch, budget)[i] in batch
  {
    assert Prefix(batch, budget)[i] in Externals(batch);
    ExternalsAreOfBatch(batch);
  }

  lemma {:induction false} ExternalsAreOfBatch(batch: seq<Request>)
    ensures forall q | q in Externals(batch) :: q in batch && q.kind == External
  {
    if batch != [] {
      ExternalsAreOfBatch(batch[..|batch| - 1]);
    }
  }

  lemma {:induction false} RoutedIsExposed(m: Machine, requests: seq<Request>, ids: seq<nat>, i: nat)
    requires AllRouted(m, requests, ids) && i < |requests|
    ensures requests[i].id in Exposed(m)
  {
    assert Route(Top(m).scope, requests[i].id, ids[i]) in m.routes;
  }

  /** Publishing a new request of the batch exposes it, unless ids run out. */
  lemma {:induction false} PublishingShowsSomethingNew(m: Machine, n: Machine, budget: nat, r: Result<Outcome, ComputerError>)
    requires m.frames != [] && PublishedAs(m, n, Prefix(Top(m).session.pending, budget), r)
    requires AnyFresh(Prefix(Top(m).session.pending, budget), Exposed(m))
    ensures ShowsSomethingNew(m, n, r)
            || (r == Err(ExternalRequestLimit) && !IdsSuffice(m, Prefix(Top(m).session.pending, budget)))
  {
    var batch := Top(m).session.pending;
    var requests := Prefix(batch, budget);
    if IdsSuffice(m, requests) {
      var i :| 0 <= i < |requests| && requests[i].id !in Exposed(m);
      ExternalsArePending(batch, budget, i);
      RoutedIsExposed(n, requests, r.value.published, i);
    }
  }

  /**
    * Progress. If the active session waits for something that the machine can do itself, an advance that takes up
    * its requests serves one of them, or shows the host one it has not been shown; and it fails with the limit error
    * exactly when it would publish something new and there are not ids enough for all that is to be published.
    */
  lemma {:induction false} TakingUpProgresses(l: Limits, m: Machine, n: Machine, turn: Turn, budget: nat,
                                              r: Result<Outcome, ComputerError>)
    requires HasWork(m, turn.redstone, budget) && Follows(l, m, n, turn, budget, r) && n.frames != []
    ensures ServesOne(l, m, n, turn, r) || ShowsSomethingNew(m, n, r) || r == Err(ExternalRequestLimit)
    ensures r == Err(ExternalRequestLimit) <==>
              var p, batch := ParkingOf(m, turn.redstone), Top(m).session.pending;
              && !AnyWanted(p, batch, true) && AnyFresh(Prefix(batch, budget), Exposed(m))
              && !IdsSuffice(m, Prefix(batch, budget))
  {
    var p, batch := ParkingOf(m, turn.redstone), Top(m).session.pending;
    var c :| Chosen(p, batch, Exposed(m), budget, c) && TakenAs(l, m, n, c, turn, r);
    if c.external == [] {
      ChosenIsServiceable(p, batch, Exposed(m), budget, c);
      assert ServedAs(l, m, n, c.internal.value, turn, r);
    } else {
      PublishingShowsSomethingNew(m, n, budget, r);
    }
  }

  /** The same of an advance of the machine. */
  lemma {:induction false} AdvanceProgresses(l: Limits, m: Machine, n: Machine, turn: Turn, budget: nat,
                                             r: Result<Outcome, ComputerError>)
    requires AdvancedAs(l, m, n, turn, budget, r) && n.frames != []
    requires ParkedAnswer(m, turn).None? && turn.guest.HostRequests?
    requires HasWork(GuestRan(l, m, turn.guest), turn.redstone, budget)
    ensures var ran := GuestRan(l, m, turn.guest);
            || ServesOne(l, ran, n, turn, r) || ShowsSomethingNew(ran, n, r)
            || (r == Err(ExternalRequestLimit) && !IdsSuffice(ran, Prefix(Top(ran).session.pending, budget)))
  {
    TakingUpProgresses(l, GuestRan(l, m, turn.guest), n, turn, budget, r);
  }

  lemma {:induction false} NothingIssued(l: Limits, m: Machine, guest: GuestTurn)
    requires Running(m) && guest.HostRequests? && guest.calls == []
    ensures var ran := GuestRan(l, m, guest);
            && Top(ran).session.pending == Top(m).session.pending && Exposed(ran) == Exposed(m)
            && forall redstone :: ParkingOf(ran, redstone) == ParkingOf(m, redstone)
  {
  }

  /**
    * Two advances. After an advance that published requests while the machine had work of its own, an advance in
    * which the active session makes no further call, with the same allowance and the same redstone waits, serves the
    * first request that can be served.
    */
  lemma {:induction false} PublishesThenServes(l: Limits, m: Machine, n: Machine, o: Machine, first: Turn, second: Turn,
                                               budget: nat, r: Result<Outcome, ComputerError>, s: Result<Outcome, ComputerError>)
    requires AdvancedAs(l, m, n, first, budget, r) && ParkedAnswer(m, first).None? && first.guest.HostRequests?
    requires HasWork(GuestRan(l, m, first.guest), first.redstone, budget)
    requires r.Ok? && r.value.HostRequestBatch?
    requires AdvancedAs(l, n, o, second, budget, s) && ParkedAnswer(n, second).None? && second.guest.HostRequests?
    requires second.guest.calls == [] && second.redstone == first.redstone
    ensures var ran, again := GuestRan(l, m, first.guest), GuestRan(l, n, second.guest);
            exists q :: && IsFirst(ParkingOf(ran, first.redstone), Top(ran).session.pending, false, q)
                        && ServedAs(l, again, o, q, second, s)
  {
    var ran, again := GuestRan(l, m, first.guest), GuestRan(l, n, second.guest);
    var p, batch := ParkingOf(ran, first.redstone), Top(ran).session.pending;
    var c :| Chosen(p, batch, Exposed(ran), budget, c) && TakenAs(l, ran, n, c, first, r);
    PublishedIsRouted(l, ran, n, c, first, r);
    NothingIssued(l, n, second.guest);
    assert ParkingOf(again, second.redstone) == p && Top(again).session.pending == batch;
    var d :| Chosen(p, batch, Exposed(again), budget, d) && TakenAs(l, again, o, d, second, s);
    PublicationThenService(p, batch, Exposed(ran), Exposed(again), budget, c, d);
    assert IsFirst(p, batch, false, d.internal.value);
  }

  lemma {:induction false} PublishedIsRouted(l: Limits, m: Machine, n: Machine, c: Choice, turn: Turn,
                                             r: Result<Outcome, ComputerError>)
    requires TakenAs(l, m, n, c, turn, r) && r.Ok? && r.value.HostRequestBatch?
    ensures c.Choice? && c.external != [] && m.frames != [] && n.frames == m.frames && n.compilation == m.compilation
    ensures forall i | 0 <= i < |c.external| :: c.external[i].id in Exposed(n)
  {
    assert c.Choice? && c.external != [];
    forall i | 0 <= i < |c.external|
      ensures c.external[i].id in Exposed(n)
    {
      RoutedIsExposed(n, c.external, r.value.published, i);
    }
  }
}
