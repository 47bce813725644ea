/** Which of a session's waiting requests the supervisor takes up next. */
module Batch {
  import opened Wrappers

  type Positive = n: nat | n > 0 witness 1

  /** A task of a session and one of its requests. */
  datatype Id = Id(task: Positive, request: Positive)

  /** `External` is every request that no device of the machine serves itself. */
  datatype Kind = RawTerminal | Stdio | FileSystem | Process | Compiler | RedstoneLocal | External

  /** `wellFormed` tells whether the request's arguments can be copied out of the session. */
  datatype Request = Request(id: Id, kind: Kind, operation: nat, wellFormed: bool)

  /** The waits that a device has already taken on. */
  datatype Parking = Parking(terminalEvent: Option<Id>, stdioRead: Option<Id>, compiling: bool, redstone: set<Id>)

  datatype BatchError = NotRunnable | Malformed

  datatype Choice =
    | WaitForQuota
    | Choice(internal: Option<Request>, external: seq<Request>)

  predicate Parked(p: Parking, r: Request) {
    || (r.kind == RawTerminal && p.terminalEvent == Some(r.id))
    || (r.kind == Stdio && p.stdioRead == Some(r.id))
    || (r.kind == Compiler && p.compiling)
    || (r.kind == RedstoneLocal && r.id in p.redstone)
  }

  /** Work the machine can do itself, now. */
  predicate Serviceable(p: Parking, r: Request) {
    r.kind != External && !Parked(p, r)
  }

  /** Arming an edge-triggered redstone wait comes before everything else. */
  predicate Urgent(p: Parking, r: Request) {
    Serviceable(p, r) && r.kind == RedstoneLocal && r.operation == 1
  }

  predicate Wanted(p: Parking, r: Request, urgent: bool) {
    if urgent then Urgent(p, r) else Serviceable(p, r)
  }

  predicate AnyWanted(p: Parking, batch: seq<Request>, urgent: bool) {
    exists i | 0 <= i < |batch| :: Wanted(p, batch[i], urgent)
  }

  function Externals(batch: seq<Request>): seq<Request> {
    if batch == [] then [] else
    var before := Externals(batch[..|batch| - 1]);
    var last := batch[|batch| - 1];
    if last.kind == External then before + [last] else before
  }

  /** The externals that the allowance covers. */
  function Prefix(batch: seq<Request>, allowed: nat): seq<Request> {
    var all := Externals(batch);
    if allowed < |all| then all[..allowed] else all
  }

  predicate AnyFresh(requests: seq<Request>, exposed: set<Id>) {
    exists i | 0 <= i < |requests| :: requests[i].id !in exposed
  }

  predicate AllWellFormed(requests: seq<Request>) {
    forall i | 0 <= i < |requests| :: requests[i].wellFormed
  }

  predicate FirstAt(p: Parking, batch: seq<Request>, urgent: bool, i: nat) {
    && i < |batch| && Wanted(p, batch[i], urgent)
    && forall j | 0 <= j < i :: !Wanted(p, batch[j], urgent)
  }

  ghost predicate IsFirst(p: Parking, batch: seq<Request>, urgent: bool, r: Request) {
    exists i: nat :: FirstAt(p, batch, urgent, i) && batch[i] == r
  }

  /** What a choice must be. */
  ghost predicate Chosen(p: Parking, batch: seq<Request>, exposed: set<Id>, allowed: nat, c: Choice) {
    if AnyWanted(p, batch, true) then
      c.Choice? && c.internal.Some? && IsFirst(p, batch, true, c.internal.value) && c.external == []
    else if AnyWanted(p, batch, false) then
      && c.Choice? && c.internal.Some? && IsFirst(p, batch, false, c.internal.value)
      && c.external == if AnyFresh(Prefix(batch, allowed), exposed) then Prefix(batch, allowed) else []
    else if allowed == 0 && Externals(batch) != [] then
      c == WaitForQuota
    else
      c == Choice(None, Prefix(batch, allowed))
  }

  /** A choice that would copy a malformed request. */
  ghost predicate CopiesMalformed(p: Parking, batch: seq<Request>, allowed: nat) {
    var urgent := AnyWanted(p, batch, true);
    || (exists i: nat :: FirstAt(p, batch, urgent, i) && !batch[i].wellFormed)
    || (!urgent && !AllWellFormed(Prefix(batch, allowed)))
  }

  /** There is only one first. */
  lemma {:induction false} FirstIsUnique(p: Parking, batch: seq<Request>, urgent: bool, i: nat, j: nat)
    requires FirstAt(p, batch, urgent, i) && FirstAt(p, batch, urgent, j)
    ensures i == j
  {
  }

  lemma {:induction false} ExternalsStep(batch: seq<Request>, i: nat)
    requires i < |batch|
    ensures Externals(batch[..i + 1]) == Externals(batch[..i]) + if batch[i].kind == External then [batch[i]] else []
  {
    assert batch[..i + 1][..i] == batch[..i];
  }

  /** The externals of a batch begin with the externals of any beginning of it. */
  lemma {:induction false} ExternalsGrow(batch: seq<Request>, i: nat)
    requires i <= |batch|
    ensures Externals(batch[..i]) <= Externals(batch)
    decreases |batch| - i
  {
    if i < |batch| {
      ExternalsStep(batch, i);
      ExternalsGrow(batch, i + 1);
    } else {
      assert batch[..i] == batch;
    }
  }

  /** The internal request of a choice is one of the batch that can be served now. */
  lemma {:induction false} ChosenIsServiceable(
      p: Parking, batch: seq<Request>, exposed: set<Id>, allowed: nat, c: Choice)
    requires Chosen(p, batch, exposed, allowed, c) && c.Choice? && c.internal.Some?
    ensures c.internal.value in batch && Serviceable(p, c.internal.value)
  {
  }

  /** A wait for an edge that has not been armed goes before all else, the first of them first, and alone. */
  lemma {:induction false} ArmingComesFirst(
      p: Parking, batch: seq<Request>, exposed: set<Id>, allowed: nat, c: Choice, i: nat)
    requires Chosen(p, batch, exposed, allowed, c) && i < |batch|
    requires batch[i].kind == RedstoneLocal && batch[i].operation == 1 && batch[i].id !in p.redstone
    requires forall j | 0 <= j < i :: batch[j].kind != RedstoneLocal || batch[j].operation != 1 || batch[j].id in p.redstone
    ensures c == Choice(Some(batch[i]), [])
  {
    assert Wanted(p, batch[i], true) && FirstAt(p, batch, true, i);
    var k: nat :| FirstAt(p, batch, true, k) && batch[k] == c.internal.value;
    FirstIsUnique(p, batch, true, i, k);
  }

  /** What is left for later: an external, a wait that its own device holds, or any compilation while one runs. */
  predicate Held(p: Parking, r: Request) {
    match r.kind
    case RawTerminal => Some(r.id) == p.terminalEvent
    case Stdio => Some(r.id) == p.stdioRead
    case FileSystem => false
    case Process => false
    case Compiler => p.compiling
    case RedstoneLocal => r.id in p.redstone
    case External => true
  }

  /** A choice serves something if, and only if, not everything is held. */
  lemma {:induction false} IdleIff(p: Parking, batch: seq<Request>, exposed: set<Id>, allowed: nat, c: Choice)
    requires Chosen(p, batch, exposed, allowed, c)
    ensures c.WaitForQuota? || c.internal.None? <==> forall i | 0 <= i < |batch| :: Held(p, batch[i])
  {
    forall i | 0 <= i < |batch|
      ensures Wanted(p, batch[i], false) <==> !Held(p, batch[i])
      ensures Wanted(p, batch[i], true) ==> !Held(p, batch[i])
    {
    }
  }

  /** Once what was published is exposed, the same batch and allowance give the internal request its turn. */
  lemma {:induction false} PublicationThenService(
      p: Parking, batch: seq<Request>, exposed: set<Id>, after: set<Id>, allowed: nat, c: Choice, d: Choice)
    requires AnyWanted(p, batch, false) && Chosen(p, batch, exposed, allowed, c) && c.external != []
    requires forall i | 0 <= i < |c.external| :: c.external[i].id in after
    requires Chosen(p, batch, after, allowed, d)
    ensures d.Choice? && d.external == [] && d.internal == c.internal
  {
    assert !AnyFresh(Prefix(batch, allowed), after);
    var i: nat :| FirstAt(p, batch, false, i) && batch[i] == c.internal.value;
    var j: nat :| FirstAt(p, batch, false, j) && batch[j] == d.internal.value;
    FirstIsUnique(p, batch, false, i, j);
  }

  /**
    * Which externals a choice publishes: those within the allowance, counted over all externals in batch order,
    * exposed or not; and when internal work is waiting, only if one of those has not been exposed before.
    */
  lemma {:induction false} PublishedIff(
      p: Parking, batch: seq<Request>, exposed: set<Id>, allowed: nat, c: Choice, k: nat)
    requires Chosen(p, batch, exposed, allowed, c) && k < |Externals(batch)|
    ensures c.Choice? && k < |c.external| && c.external[k] == Externals(batch)[k]
            <==> && k < allowed && !AnyWanted(p, batch, true)
                 && (AnyWanted(p, batch, false) ==> AnyFresh(Prefix(batch, allowed), exposed))
  {
  }

  /** Finds the first urgent request, or the first serviceable one. */
  method FindFirst(p: Parking, batch: seq<Request>, urgent: bool) returns (found: Option<Request>)
    ensures found.None? <==> !AnyWanted(p, batch, urgent)
    ensures found.Some? ==> IsFirst(p, batch, urgent, found.value)
  {
    for i := 0 to |batch|
      invariant forall j | 0 <= j < i :: !Wanted(p, batch[j], urgent)
    {
      if Wanted(p, batch[i], urgent) {
        assert FirstAt(p, batch, urgent, i);
        return Some(batch[i]);
      }
    }
    return None;
  }

  /** Collects externals up to the allowance, and tells whether one of them is new to the host. */
  method CollectExternals(batch: seq<Request>, exposed: set<Id>, allowed: nat)
    returns (r: Result<seq<Request>, BatchError>, anyFresh: bool)
    requires allowed > 0
    ensures r.Ok? <==> AllWellFormed(Prefix(batch, allowed))
    ensures r.Ok? ==> r.value == Prefix(batch, allowed) && anyFresh == AnyFresh(r.value, exposed)
    ensures r.Err? ==> r.error == Malformed
  {
    var external: seq<Request> := [];
    anyFresh := false;
    for i := 0 to |batch|
      invariant external == Externals(batch[..i]) && |external| < allowed
      invariant AllWellFormed(external) && anyFresh == AnyFresh(external, exposed)
    {
      ExternalsStep(batch, i);
      ExternalsGrow(batch, i + 1);
      if batch[i].kind == External {
        anyFresh := anyFresh || batch[i].id !in exposed;
        FreshStep(external, batch[i], exposed);
        if !batch[i].wellFormed {
          assert Externals(batch[..i + 1]) <= Prefix(batch, allowed);
          assert Prefix(batch, allowed)[|external|] == batch[i];
          return Err(Malformed), anyFresh;
        }
        external := external + [batch[i]];
        if |external| == allowed {
          assert Prefix(batch, allowed) == external;
          return Ok(external), anyFresh;
        }
      }
    }
    assert batch[..|batch|] == batch;
    return Ok(external), anyFresh;
  }

  /**
    * Chooses from a batch. A choice is as described by `Chosen`; an error means the batch is empty or that a
    * request the choice depends on is malformed.
    */
  method Choose(p: Parking, batch: seq<Request>, exposed: set<Id>, allowed: nat)
    returns (r: Result<Choice, BatchError>)
    ensures r.Ok? ==> Chosen(p, batch, exposed, allowed, r.value)
    ensures r == Err(NotRunnable) <==> batch == []
    ensures r == Err(Malformed) <==> batch != [] && CopiesMalformed(p, batch, allowed)
  {
    if batch == [] {
      return Err(NotRunnable);
    }
    var urgent := FindFirst(p, batch, true);
    if urgent.Some? {
      FirstIsMalformed(p, batch, true, urgent.value);
      return if urgent.value.wellFormed then Ok(Choice(urgent, [])) else Err(Malformed);
    }
    var internal := FindFirst(p, batch, false);
    if internal.Some? {
      FirstIsMalformed(p, batch, false, internal.value);
      if !internal.value.wellFormed {
        return Err(Malformed);
      }
    }
    if allowed == 0 {
      ExternalsExist(batch);
      if internal.None? && exists i | 0 <= i < |batch| :: batch[i].kind == External {
        return Ok(WaitForQuota);
      }
      return Ok(Choice(internal, []));
    }
    var collected, anyFresh := CollectExternals(batch, exposed, allowed);
    if collected.Err? {
      return Err(Malformed);
    }
    return Ok(Choice(internal, if internal.Some? && !anyFresh then [] else collected.value));
  }

  lemma {:induction false} FirstIsMalformed(p: Parking, batch: seq<Request>, urgent: bool, r: Request)
    requires IsFirst(p, batch, urgent, r)
    ensures !r.wellFormed <==> exists i: nat :: FirstAt(p, batch, urgent, i) && !batch[i].wellFormed
  {
    var i: nat :| FirstAt(p, batch, urgent, i) && batch[i] == r;
    forall j: nat | FirstAt(p, batch, urgent, j)
      ensures batch[j] == r
    {
      FirstIsUnique(p, batch, urgent, i, j);
    }
  }

  lemma {:induction false} FreshStep(requests: seq<Request>, r: Request, exposed: set<Id>)
    ensures AnyFresh(requests + [r], exposed) == (AnyFresh(requests, exposed) || r.id !in exposed)
  {
    var longer := requests + [r];
    assert longer[|requests|] == r;
    assert forall i | 0 <= i < |requests| :: longer[i] == requests[i];
  }

  lemma {:induction false} ExternalsExist(batch: seq<Request>)
    ensures Externals(batch) != [] <==> exists i | 0 <= i < |batch| :: batch[i].kind == External
  {
    if batch != [] {
      ExternalsExist(batch[..|batch| - 1]);
    }
  }
}
