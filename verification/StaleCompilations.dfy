/** How the answer to a compilation can go astray: a run of the machine, advance by advance. */
module StaleCompilations {
  import opened Wrappers
  import opened Accounting
  import opened Batch
  import opened Sessions
  import opened Processes
  import opened Transitions
  import opened LateAnswers
  import opened Supervisor

  /** Limits that let the root start two processes one after the other. */
  predicate LeavesRoom(l: Limits) {
    && l.depth >= 2 && l.starts >= 3 && l.hostRequests >= 2
    && Times(2, l.heapBytes) <= l.heap && Times(2, l.storageBytes) <= l.storage
  }

  /** A task of the active session makes a call. */
  function Calling(task: Positive, kind: Kind, work: Counters, device: DeviceReply, process: ProcessOperation): Turn {
    Turn(false, NoEvent, HostRequests([Call(task, kind, 0, true, true)], work), {}, true, device, process, Accepted)
  }

  function Starting(work: Counters): Turn {
    Calling(1, Process, work, Replies, RunProcess(true, Some(work), false))
  }

  function Asking(work: Counters): Turn {
    Calling(2, Compiler, work, Parks, TakeDiagnostic)
  }

  function Exiting(work: Counters): Turn {
    Calling(1, Process, work, Replies, Exit(0))
  }

  function CallingHost(work: Counters): Turn {
    Calling(2, External, work, Replies, TakeDiagnostic)
  }

  /** An advance with an allowance of one request. */
  ghost predicate AdvancesTo(l: Limits, m: Machine, n: Machine, turn: Turn) {
    exists r :: AdvancedAs(l, m, n, turn, 1, r)
  }

  // ---- one call ----

  /** No device waits on the active session, which can go on. */
  predicate Free(m: Machine) {
    && Running(m) && m.termination.None? && !Top(m).session.over
    && Top(m).stdioRead.None? && Top(m).terminalEvent.None?
  }

  /** Nor does the session wait for anything. */
  predicate Idle(m: Machine) {
    Free(m) && Top(m).session.pending == []
  }

  function Next(m: Machine, turn: Turn): Request
    requires m.frames != [] && |turn.guest.calls| == 1
  {
    Request(Id(turn.guest.calls[0].task, Top(m).session.nextRequest), turn.guest.calls[0].kind, 0, true)
  }

  lemma {:induction false} OneCall(l: Limits, m: Machine, task: Positive, kind: Kind, work: Counters,
                                   device: DeviceReply, process: ProcessOperation)
    requires Free(m) && |Top(m).session.pending| < l.hostRequests
    ensures var s, turn := Top(m).session, Calling(task, kind, work, device, process);
            GuestRan(l, m, turn.guest)
            == TopChanged(m, Top(m).(session := Session(s.pending + [Next(m, turn)], s.nextRequest + 1, false, work)))
  {
    var s, calls := Top(m).session, [Call(task, kind, 0, true, true)];
    assert calls[..0] == [];
    assert IssueAll(l.hostRequests, s, calls[..0]) == s;
  }

  /** What is chosen from a batch in which only the last request is not parked. */
  lemma {:induction false} OnlyChoice(p: Parking, parked: seq<Request>, q: Request, exposed: set<Id>, c: Choice)
    requires |parked| <= 1 && (forall a | a in parked :: Parked(p, a) && a.kind != External && a.wellFormed)
    requires !Parked(p, q) && q.wellFormed
    ensures !CopiesMalformed(p, parked + [q], 1)
    ensures Chosen(p, parked + [q], exposed, 1, c) ==>
              c == if q.kind == External then Choice(None, [q]) else Choice(Some(q), [])
  {
    var batch := parked + [q];
    assert batch[..|parked|] == parked && (parked != [] ==> parked[..0] == []);
    assert Externals(parked) == [];
    assert Externals(batch) == if q.kind == External then [q] else [];
    assert Wanted(p, batch[|parked|], false) <==> q.kind != External;
    assert forall i: nat, urgent | FirstAt(p, batch, urgent, i) :: i == |parked|;
  }

  lemma {:induction false} CallIsChosen(l: Limits, m: Machine, n: Machine, task: Positive, kind: Kind, work: Counters,
                                        device: DeviceReply, process: ProcessOperation,
                                        r: Result<Outcome, ComputerError>)
    requires Free(m) && |Top(m).session.pending| < l.hostRequests && (kind == Compiler ==> m.compilation.None?)
    requires |Top(m).session.pending| <= 1 && forall a | a in Top(m).session.pending ::
               a.kind == Compiler && a.wellFormed && m.compilation.Some?
    requires AdvancedAs(l, m, n, Calling(task, kind, work, device, process), 1, r)
    ensures var turn := Calling(task, kind, work, device, process);
            var ran := GuestRan(l, m, turn.guest);
            if kind == External then PublishedAs(ran, n, [Next(m, turn)], r)
            else ServedAs(l, ran, n, Next(m, turn), turn, r)
  {
    var turn, parked := Calling(task, kind, work, device, process), Top(m).session.pending;
    var q := Next(m, turn);
    OneCall(l, m, task, kind, work, device, process);
    var ran := GuestRan(l, m, turn.guest);
    var p := ParkingOf(ran, {});
    assert Top(ran).session.pending == parked + [q] && !Parked(p, q);
    OnlyChoice(p, parked, q, Exposed(ran), WaitForQuota);
    var c :| Chosen(p, parked + [q], Exposed(ran), 1, c) && TakenAs(l, ran, n, c, turn, r);
    OnlyChoice(p, parked, q, Exposed(ran), c);
  }

  // ---- the stages ----

  /** No request is with the host yet. */
  predicate Unrouted(m: Machine) {
    m.routes == [] && m.nextExternal == 1
  }

  /** The root runs on its own, after so many starts. */
  predicate RootAlone(m: Machine, starts: nat, compilation: Option<Compilation>) {
    && |m.frames| == 1 && Idle(m) && m.starts == starts && m.compilation == compilation && m.nextToken <= 2
    && Unrouted(m)
  }

  /** The root waits for a child that has just been started. */
  predicate ChildStarted(m: Machine, starts: nat, work: Counters, compilation: Option<Compilation>) {
    && |m.frames| == 2 && Idle(m) && Top(m).session == Started(work) && m.starts == starts
    && m.compilation == compilation && (compilation.None? ==> m.nextToken == 1) && m.nextToken <= 2 && Unrouted(m)
    && RootWaits(m.frames[0])
  }

  predicate RootWaits(f: Frame) {
    && f.process.Some? && f.session.pending == [Request(f.process.value, Process, 0, true)] && !f.session.over
    && f.stdioRead.None? && f.terminalEvent.None?
  }

  lemma {:induction false} MayStart(l: Limits, m: Machine)
    requires LeavesRoom(l) && Stacked(l, m) && |m.frames| == 1 && m.starts < 3
    ensures MayEnter(l, m)
  {
    assert Times(2, l.heapBytes) == Times(1, l.heapBytes) + l.heapBytes;
    assert Times(2, l.storageBytes) == Times(1, l.storageBytes) + l.storageBytes;
  }

  lemma {:induction false} Starts(l: Limits, m: Machine, n: Machine, starts: nat, c: Option<Compilation>,
                                  work: Counters, r: Result<Outcome, ComputerError>)
    requires LeavesRoom(l) && Inv(l, m) && RootAlone(m, starts, c) && starts < 3 && (c.None? ==> m.nextToken == 1)
    requires AdvancedAs(l, m, n, Starting(work), 1, r)
    ensures ChildStarted(n, starts + 1, work, c)
  {
    var turn := Starting(work);
    OneCall(l, m, 1, Process, work, Replies, turn.process);
    CallIsChosen(l, m, n, 1, Process, work, Replies, turn.process, r);
    MayStart(l, m);
    var ran := GuestRan(l, m, turn.guest);
    assert MayEnter(l, ran);
    assert n == Entered(l, ran, Next(m, turn).id, work, false);
  }

  /** The child has asked for a compilation. */
  predicate ChildAsks(m: Machine, c: Compilation) {
    && |m.frames| == 2 && Free(m) && m.starts == 2 && Unrouted(m) && RootWaits(m.frames[0])
    && m.compilation == Some(c) && m.nextToken == 2 && Top(m).session.pending == [Request(c.id, Compiler, 0, true)]
  }

  lemma {:induction false} SecondScope(l: Limits, m: Machine)
    requires Inv(l, m) && |m.frames| == 2 && m.starts == 2
    ensures Top(m).scope == 1
  {
    assert m.frames[0].scope < m.frames[1].scope < 2;
  }

  lemma {:induction false} Asks(l: Limits, m: Machine, n: Machine, work: Counters, r: Result<Outcome, ComputerError>)
    requires l.hostRequests >= 1 && ChildStarted(m, 2, work, None) && AdvancedAs(l, m, n, Asking(work), 1, r)
    ensures ChildAsks(n, Compilation(1, Id(2, 1), 2, Top(m).scope))
  {
    var turn := Asking(work);
    OneCall(l, m, 2, Compiler, work, Parks, turn.process);
    CallIsChosen(l, m, n, 2, Compiler, work, Parks, turn.process, r);
    var ran := GuestRan(l, m, turn.guest);
    assert n == Compiling(ran, Id(2, 1));
    assert n.frames[0] == m.frames[0];
  }

  lemma {:induction false} Exits(l: Limits, m: Machine, n: Machine, c: Compilation, work: Counters,
                                 r: Result<Outcome, ComputerError>)
    requires l.hostRequests >= 2 && ChildAsks(m, c) && AdvancedAs(l, m, n, Exiting(work), 1, r)
    requires Stacked(l, m) && |m.ledger| == m.starts
    ensures RootAlone(n, 2, Some(c))
  {
    var turn := Exiting(work);
    OneCall(l, m, 1, Process, work, Replies, turn.process);
    CallIsChosen(l, m, n, 1, Process, work, Replies, turn.process, r);
    var ran := GuestRan(l, m, turn.guest);
    assert n == Exited(l, ran, Accepted);
    var root := ran.frames[0];
    assert root == m.frames[0];
    var q := root.session.pending[0];
    assert q.id == root.process.value && Takes(root.session, q.id, Accepted);
    assert [q][..0] == [];
    assert WithoutId([q], q.id) == WithoutId([q][..0], q.id) == [];
  }

  lemma {:induction false} IsShown(m: Machine, n: Machine, q: Request, r: Result<Outcome, ComputerError>)
    requires PublishedAs(m, n, [q], r) && m.nextExternal == 1
    ensures n == m.(routes := n.routes, nextExternal := n.nextExternal) && HasRoute(n, Top(m).scope, q.id)
  {
    assert [q][..0] == [];
    assert FreshCount([q], Exposed(m)) <= 1;
    assert IdsSuffice(m, [q]);
    var route := Route(Top(n).scope, [q][0].id, r.value.published[0]);
    assert route in n.routes;
    var i :| 0 <= i < |n.routes| && n.routes[i] == route;
  }

  lemma {:induction false} ShownIsMisdirected(m: Machine, n: Machine, q: Request, c: Compilation,
                                              r: Result<Outcome, ComputerError>)
    requires PublishedAs(m, n, [q], r) && m.nextExternal == 1 && !Top(m).session.over && Top(m).session.pending == [q]
    requires m.compilation == Some(c) && c.depth == |m.frames| && c.id == q.id
    ensures MisdirectsCompilation(n, c.token, Accepted)
  {
    IsShown(m, n, q, r);
    assert Top(n).session.pending[0] == q;
  }

  lemma {:induction false} Misdirects(l: Limits, m: Machine, n: Machine, c: Compilation, work: Counters,
                                      r: Result<Outcome, ComputerError>)
    requires l.hostRequests >= 1 && ChildStarted(m, 3, work, Some(c)) && c.id == Id(2, 1) && c.depth == 2
    requires AdvancedAs(l, m, n, CallingHost(work), 1, r) && n.frames != []
    ensures MisdirectsCompilation(n, c.token, Accepted)
  {
    var turn := CallingHost(work);
    OneCall(l, m, 2, External, work, Replies, turn.process);
    CallIsChosen(l, m, n, 2, External, work, Replies, turn.process, r);
    var q, ran := Next(m, turn), GuestRan(l, m, turn.guest);
    assert Top(ran).session.pending == [q];
    ShownIsMisdirected(ran, n, q, c, r);
  }

  // ---- the run ----

  method Step(machine: ComputerMachine, turn: Turn) returns (r: Result<Outcome, ComputerError>)
    requires machine.Valid() && machine.termination.None?
    modifies machine
    ensures machine.Valid() && AdvancedAs(machine.limits, old(machine.State()), machine.State(), turn, 1, r)
  {
    assert machine.State().(termination := None) == machine.State();
    r := machine.Advance(turn, 1);
  }

  method StartChild(machine: ComputerMachine, ghost starts: nat, ghost c: Option<Compilation>, work: Counters)
    requires machine.Valid() && LeavesRoom(machine.limits) && RootAlone(machine.State(), starts, c) && starts < 3
    requires c.None? ==> machine.nextToken == 1
    modifies machine
    ensures machine.Valid() && ChildStarted(machine.State(), starts + 1, work, c)
    ensures AdvancesTo(machine.limits, old(machine.State()), machine.State(), Starting(work))
  {
    var r := Step(machine, Starting(work));
    Starts(machine.limits, old(machine.State()), machine.State(), starts, c, work, r);
  }

  method AskForCompilation(machine: ComputerMachine, work: Counters)
    requires machine.Valid() && LeavesRoom(machine.limits) && ChildStarted(machine.State(), 2, work, None)
    modifies machine
    ensures machine.Valid() && ChildAsks(machine.State(), Compilation(1, Id(2, 1), 2, 1))
    ensures AdvancesTo(machine.limits, old(machine.State()), machine.State(), Asking(work))
  {
    SecondScope(machine.limits, machine.State());
    var r := Step(machine, Asking(work));
    Asks(machine.limits, old(machine.State()), machine.State(), work, r);
  }

  method ExitChild(machine: ComputerMachine, ghost c: Compilation, work: Counters)
    requires machine.Valid() && LeavesRoom(machine.limits) && ChildAsks(machine.State(), c)
    modifies machine
    ensures machine.Valid() && RootAlone(machine.State(), 2, Some(c))
    ensures AdvancesTo(machine.limits, old(machine.State()), machine.State(), Exiting(work))
  {
    var r := Step(machine, Exiting(work));
    Exits(machine.limits, old(machine.State()), machine.State(), c, work, r);
  }

  method CallHost(machine: ComputerMachine, ghost c: Compilation, work: Counters)
    requires machine.Valid() && LeavesRoom(machine.limits) && ChildStarted(machine.State(), 3, work, Some(c))
    requires c.id == Id(2, 1) && c.depth == 2
    modifies machine
    ensures machine.Valid() && MisdirectsCompilation(machine.State(), c.token, Accepted)
    ensures AdvancesTo(machine.limits, old(machine.State()), machine.State(), CallingHost(work))
  {
    var r := Step(machine, CallingHost(work));
    Misdirects(machine.limits, old(machine.State()), machine.State(), c, work, r);
  }

  lemma {:induction false} RoomForRoot(l: Limits)
    requires LeavesRoom(l)
    ensures l.heapBytes <= l.heap && l.storageBytes <= l.storage
  {
    TimesIsProduct(2, l.heapBytes);
    TimesIsProduct(2, l.storageBytes);
  }

  /** The first child comes, asks and goes. */
  method FirstChild(machine: ComputerMachine, work: Counters) returns (ghost started: Machine, ghost asking: Machine)
    requires machine.Valid() && LeavesRoom(machine.limits) && RootAlone(machine.State(), 1, None)
    requires machine.nextToken == 1
    modifies machine
    ensures machine.Valid() && RootAlone(machine.State(), 2, Some(Compilation(1, Id(2, 1), 2, 1)))
    ensures AdvancesTo(machine.limits, old(machine.State()), started, Starting(work))
    ensures AdvancesTo(machine.limits, started, asking, Asking(work))
    ensures AdvancesTo(machine.limits, asking, machine.State(), Exiting(work))
  {
    StartChild(machine, 1, None, work);
    started := machine.State();
    AskForCompilation(machine, work);
    asking := machine.State();
    ExitChild(machine, Compilation(1, Id(2, 1), 2, 1), work);
  }

  /** The second child comes, and its request gets in the way. */
  method SecondChild(machine: ComputerMachine, work: Counters) returns (ghost started: Machine)
    requires machine.Valid() && LeavesRoom(machine.limits)
    requires RootAlone(machine.State(), 2, Some(Compilation(1, Id(2, 1), 2, 1)))
    modifies machine
    ensures machine.Valid() && MisdirectsCompilation(machine.State(), 1, Accepted)
    ensures AdvancesTo(machine.limits, old(machine.State()), started, Starting(work))
    ensures AdvancesTo(machine.limits, started, machine.State(), CallingHost(work))
  {
    ghost var c := Compilation(1, Id(2, 1), 2, 1);
    StartChild(machine, 2, Some(c), work);
    started := machine.State();
    CallHost(machine, c, work);
  }

  /**
    * The root starts a child. The child's second task asks for a compilation, and its first task exits. The root starts
    * another child, whose second task calls the host. The machine is then in a state in which the answer to the
    * compilation would be taken for that call.
    */
  method StaleCompilation(l: Limits, work: Counters)
    returns (machine: ComputerMachine, ghost started: Machine, ghost asking: Machine, ghost alone: Machine,
             ghost again: Machine)
    requires LeavesRoom(l)
    ensures fresh(machine) && machine.Valid() && machine.limits == l
    ensures AdvancesTo(l, Initial(l, work), started, Starting(work))
    ensures AdvancesTo(l, started, asking, Asking(work))
    ensures AdvancesTo(l, asking, alone, Exiting(work))
    ensures AdvancesTo(l, alone, again, Starting(work))
    ensures AdvancesTo(l, again, machine.State(), CallingHost(work))
    ensures MisdirectsCompilation(machine.State(), 1, Accepted)
  {
    RoomForRoot(l);
    machine := new ComputerMachine(l, work);
    started, asking := FirstChild(machine, work);
    alone := machine.State();
    again := SecondChild(machine, work);
  }
}
