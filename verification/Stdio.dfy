/** The standard streams of a computer: who owns the input, and the line being edited. */
module Stdio {
  import opened Wrappers
  import opened Utf16

  datatype Owner = Owner(frame: nat, task: nat)
  datatype Mode = Raw | Canonical

  datatype OwnershipError = RawBusy | CanonicalBusy | WrongOwner
  datatype StreamError = InvalidLimits | LineTooLong | LineReady | OutputTooLarge | NoCanonicalRead
  datatype SubmissionError = InputBusy | PartialInput | UnsupportedCodeUnit | SubmittedTooLong

  datatype Key = Backspace | Enter | OtherKey

  /** What a reader did to the line, and what the screen showed of it. */
  datatype Edit = Typed(units: seq<Unit>) | Rubout

  const NEWLINE: Unit := 10

  predicate IsText(u: Unit) {
    u >= 0x20 && u != 0x7F
  }

  predicate AllText(s: seq<Unit>) {
    forall i | 0 <= i < |s| :: IsText(s[i])
  }

  function OnlyText(s: seq<Unit>): seq<Unit> {
    if s == [] then [] else (if IsText(s[0]) then [s[0]] else []) + OnlyText(s[1..])
  }

  /** Filtering goes unit by unit: what a unit comes to does not depend on what is around it. */
  lemma {:induction false} OnlyTextSplits(s: seq<Unit>, t: seq<Unit>, u: Unit)
    ensures OnlyText(s + t) == OnlyText(s) + OnlyText(t)
    ensures OnlyText([u]) == if IsText(u) then [u] else []
  {
    if s == [] {
      assert s + t == t;
    } else {
      var head := if IsText(s[0]) then [s[0]] else [];
      OnlyTextSplits(s[1..], t, u);
      assert (s + t)[1..] == s[1..] + t && (s + t)[0] == s[0];
      assert OnlyText(s + t) == head + (OnlyText(s[1..]) + OnlyText(t));
      assert OnlyText(s) == head + OnlyText(s[1..]);
    }
  }

  /** The control characters of ASCII. */
  const CONTROLS: set<Unit> := (set u: Unit | u <= 0x1F) + {0x7F}

  /** What is filtered out are the control characters, and nothing else. */
  lemma {:induction false} ControlsAreDropped(s: seq<Unit>, u: Unit)
    ensures u in OnlyText(s) <==> u in s && u !in CONTROLS
  {
    if s != [] {
      ControlsAreDropped(s[1..], u);
      assert s == [s[0]] + s[1..];
    }
  }

  lemma {:induction false} OnlyTextKeeps(s: seq<Unit>)
    ensures AllText(OnlyText(s)) && |OnlyText(s)| <= |s|
    ensures AllText(s) ==> OnlyText(s) == s
    ensures WellFormed(s) ==> WellFormed(OnlyText(s))
  {
    if s != [] {
      OnlyTextKeeps(s[1..]);
      if WellFormed(s) && IsHigh(s[0]) {
        OnlyTextKeeps(s[2..]);
        assert OnlyText(s[1..]) == [s[1]] + OnlyText(s[2..]);
        assert OnlyText(s)[2..] == OnlyText(s[2..]);
      } else if IsText(s[0]) {
        assert OnlyText(s)[1..] == OnlyText(s[1..]);
      } else {
        assert OnlyText(s) == OnlyText(s[1..]);
      }
    }
  }

  predicate WellTyped(edits: seq<Edit>) {
    forall i | 0 <= i < |edits| :: edits[i].Typed? ==> WellFormed(edits[i].units)
  }

  /** The line a sequence of edits makes, scalar by scalar. */
  function Edited(edits: seq<Edit>): seq<nat>
    requires WellTyped(edits)
  {
    if edits == [] then [] else
    var before := Edited(edits[..|edits| - 1]);
    match edits[|edits| - 1]
    case Typed(units) => before + Scalars(units)
    case Rubout => if before == [] then [] else before[..|before| - 1]
  }

  /** The line holds exactly what its edits made of it. */
  ghost predicate Faithful(line: seq<Unit>, edits: seq<Edit>) {
    WellTyped(edits) ==> WellFormed(line) && Scalars(line) == Edited(edits)
  }

  lemma {:induction false} TypedStaysFaithful(line: seq<Unit>, edits: seq<Edit>, units: seq<Unit>)
    requires Faithful(line, edits)
    ensures Faithful(line + units, edits + [Typed(units)])
  {
    var longer := edits + [Typed(units)];
    assert longer[..|edits|] == edits;
    if WellTyped(longer) {
      assert forall i | 0 <= i < |edits| :: edits[i] == longer[i];
      assert longer[|edits|].Typed?;
      AppendText(line, units);
    }
  }

  lemma {:induction false} RuboutStaysFaithful(line: seq<Unit>, edits: seq<Edit>)
    requires Faithful(line, edits) && line != []
    ensures Faithful(Chop(line), edits + [Rubout])
  {
    var longer := edits + [Rubout];
    assert longer[..|edits|] == edits;
    if WellTyped(longer) {
      assert forall i | 0 <= i < |edits| :: edits[i] == longer[i];
      ChopRemovesOneScalar(line);
    }
  }

  /** The screen records what is written to it; `Erase` blanks the cell before the cursor. */
  class Terminal {
    var log: seq<Edit>

    method Write(units: seq<Unit>)
      modifies this
      ensures log == old(log) + [Typed(units)]
    {
      log := log + [Typed(units)];
    }

    method ErasePrevious()
      modifies this
      ensures log == old(log) + [Rubout]
    {
      log := log + [Rubout];
    }
  }

  /** The checkpoint validator's condition on a stream state. */
  predicate CheckpointOk(editing: seq<Unit>, ready: Option<seq<Unit>>, owner: Option<(Mode, Owner)>, maximumLine: nat) {
    && |editing| <= maximumLine
    && (ready.Some? ==> |ready.value| <= maximumLine)
    && AllText(editing)
    && (ready.Some? ==> AllText(ready.value))
    && (owner.Some? ==> owner.value.1.task != 0)
    && (editing != [] || ready.Some? ==> owner.Some? && owner.value.0 == Canonical)
    && (ready.Some? ==> editing == [])
  }

  class StandardStreams {
    var editing: seq<Unit>
    var ready: Option<seq<Unit>>
    var owner: Option<(Mode, Owner)>
    const maximumLine: nat
    const maximumOutput: nat

    /** The edits accepted for the line that is being edited or is ready. */
    ghost var edits: seq<Edit>

    ghost function Line(): seq<Unit>
      reads this
    {
      if ready.Some? then ready.value else editing
    }

    ghost predicate Valid()
      reads this
    {
      && CheckpointOk(editing, ready, owner, maximumLine)
      && Faithful(Line(), edits)
    }

    /** Streams exist only with positive limits. */
    static method New(maximumLine: nat, maximumOutput: nat) returns (r: Result<StandardStreams, StreamError>)
      ensures r.Err? <==> maximumLine == 0 || maximumOutput == 0
      ensures r.Ok? ==>
                && fresh(r.value) && r.value.Valid() && r.value.owner == None
                && r.value.maximumLine == maximumLine && r.value.maximumOutput == maximumOutput
    {
      if maximumLine == 0 || maximumOutput == 0 {
        return Err(InvalidLimits);
      }
      var streams := new StandardStreams(maximumLine, maximumOutput);
      return Ok(streams);
    }

    constructor (maximumLine: nat, maximumOutput: nat)
      ensures Valid() && owner == None && editing == [] && ready == None && edits == []
      ensures this.maximumLine == maximumLine && this.maximumOutput == maximumOutput
    {
      editing, ready, owner, edits := [], None, None, [];
      this.maximumLine, this.maximumOutput := maximumLine, maximumOutput;
    }

    /** Input has one owner: acquiring succeeds when it is free or already held in the same way by the same task. */
    method Acquire(mode: Mode, who: Owner) returns (r: Result<(), OwnershipError>)
      requires Valid() && who.task != 0
      modifies this`owner
      ensures Valid()
      ensures r == if old(owner) == None || old(owner) == Some((mode, who)) then Ok(())
                   else Err(if old(owner).value.0 == Raw then RawBusy else CanonicalBusy)
      ensures owner == if r.Ok? then Some((mode, who)) else old(owner)
    {
      if owner == Some((mode, who)) {
        return Ok(());
      }
      if owner.Some? {
        return Err(if owner.value.0 == Raw then RawBusy else CanonicalBusy);
      }
      owner := Some((mode, who));
      return Ok(());
    }

    method FinishRaw(who: Owner) returns (r: Result<(), OwnershipError>)
      requires Valid()
      modifies this`owner
      ensures Valid()
      ensures r == if old(owner) == Some((Raw, who)) then Ok(()) else Err(WrongOwner)
      ensures owner == if r.Ok? then None else old(owner)
    {
      if owner != Some((Raw, who)) {
        return Err(WrongOwner);
      }
      owner := None;
      return Ok(());
    }

    /** Drops the input of the owner that satisfies the test, with everything typed so far. */
    method Clear(mine: bool)
      requires Valid()
      modifies this
      ensures Valid()
      ensures if mine then owner == None && editing == [] && ready == None && edits == []
              else owner == old(owner) && editing == old(editing) && ready == old(ready) && edits == old(edits)
    {
      if mine {
        owner, editing, ready, edits := None, [], None, [];
      }
    }

    method Cancel(who: Owner)
      requires Valid()
      modifies this
      ensures Valid()
      ensures if old(owner).Some? && old(owner).value.1 == who then owner == None && editing == [] && ready == None
              else owner == old(owner) && editing == old(editing) && ready == old(ready) && edits == old(edits)
    {
      Clear(owner.Some? && owner.value.1 == who);
    }

    method CancelFrame(frame: nat)
      requires Valid()
      modifies this
      ensures Valid()
      ensures if old(owner).Some? && old(owner).value.1.frame == frame then owner == None && editing == [] && ready == None
              else owner == old(owner) && editing == old(editing) && ready == old(ready) && edits == old(edits)
    {
      Clear(owner.Some? && owner.value.1.frame == frame);
    }

    /** Text is echoed and stored without its control units, or refused whole with no effect at all. */
    method AcceptText(units: seq<Unit>, terminal: Terminal) returns (r: Result<(), StreamError>)
      requires Valid()
      modifies this, terminal
      ensures Valid() && owner == old(owner) && ready == old(ready)
      ensures r == if !(old(owner).Some? && old(owner).value.0 == Canonical) then Err(NoCanonicalRead)
                   else if old(ready).Some? then Err(LineReady)
                   else if |old(editing)| + |OnlyText(units)| > maximumLine then Err(LineTooLong)
                   else Ok(())
      ensures r.Err? ==> editing == old(editing) && edits == old(edits) && terminal.log == old(terminal.log)
      ensures r.Ok? ==>
                && editing == old(editing) + OnlyText(units)
                && edits == old(edits) + [Typed(OnlyText(units))]
                && terminal.log == old(terminal.log) + [Typed(OnlyText(units))]
    {
      OnlyTextKeeps(units);
      if !(owner.Some? && owner.value.0 == Canonical) {
        return Err(NoCanonicalRead);
      }
      if ready.Some? {
        return Err(LineReady);
      }
      var kept := OnlyText(units);
      if |editing| + |kept| > maximumLine {
        return Err(LineTooLong);
      }
      terminal.Write(kept);
      TypedStaysFaithful(editing, edits, kept);
      editing := editing + kept;
      edits := edits + [Typed(kept)];
      return Ok(());
    }

    /** Backspace removes one scalar and blanks one cell; Enter makes the line ready; other keys do nothing. */
    method AcceptKey(key: Key, terminal: Terminal) returns (r: Result<(), StreamError>)
      requires Valid()
      modifies this, terminal
      ensures Valid() && owner == old(owner)
      ensures r == if !(old(owner).Some? && old(owner).value.0 == Canonical) then Err(NoCanonicalRead)
                   else if old(ready).Some? then Err(LineReady)
                   else Ok(())
      ensures r.Err? || key == OtherKey || (key == Backspace && old(editing) == []) ==>
                editing == old(editing) && ready == old(ready) && edits == old(edits) && terminal.log == old(terminal.log)
      ensures r.Ok? && key == Backspace && old(editing) != [] ==>
                && editing == Chop(old(editing)) && ready == None
                && edits == old(edits) + [Rubout] && terminal.log == old(terminal.log) + [Rubout]
      ensures r.Ok? && key == Enter ==>
                && editing == [] && ready == Some(old(editing))
                && edits == old(edits) && terminal.log == old(terminal.log) + [Typed([NEWLINE])]
    {
      if !(owner.Some? && owner.value.0 == Canonical) {
        return Err(NoCanonicalRead);
      }
      if ready.Some? {
        return Err(LineReady);
      }
      match key {
      case Backspace =>
        if editing == [] {
          return Ok(());
        }
        RuboutStaysFaithful(editing, edits);
        var last := editing[|editing| - 1];
        var rest := editing[..|editing| - 1];
        if IsLow(last) && |rest| > 0 && IsHigh(rest[|rest| - 1]) {
          rest := rest[..|rest| - 1];
        }
        assert rest == Chop(editing);
        editing := rest;
        terminal.ErasePrevious();
        edits := edits + [Rubout];
      case Enter =>
        terminal.Write([NEWLINE]);
        ready := Some(editing);
        editing := [];
      case OtherKey =>
      }
      return Ok(());
    }

    /** The owner of a finished line takes it once, and gives the input up. */
    method TakeLine(who: Owner) returns (r: Option<seq<Unit>>)
      requires Valid()
      modifies this
      ensures Valid()
      ensures r == if old(owner) == Some((Canonical, who)) then old(ready) else None
      ensures r.Some? ==> owner == None && ready == None && editing == [] && edits == []
      ensures r.None? ==> owner == old(owner) && ready == old(ready) && editing == old(editing) && edits == old(edits)
      ensures r.Some? && WellTyped(old(edits)) ==> WellFormed(r.value) && Scalars(r.value) == Edited(old(edits))
    {
      if owner != Some((Canonical, who)) {
        return None;
      }
      if ready.None? {
        return None;
      }
      r := ready;
      ready, owner, edits := None, None, [];
    }

    /** A complete line is delivered only into an untouched canonical read, exactly as submitted. */
    method SubmitCompleteLine(who: Owner, units: seq<Unit>, terminal: Terminal) returns (r: Result<seq<Unit>, SubmissionError>)
      requires Valid()
      modifies this, terminal
      ensures Valid() && editing == old(editing) && ready == old(ready)
      ensures r == if old(owner) != Some((Canonical, who)) then Err(InputBusy)
                   else if old(editing) != [] || old(ready).Some? then Err(PartialInput)
                   else if !AllText(units) then Err(UnsupportedCodeUnit)
                   else if |units| > maximumLine then Err(SubmittedTooLong)
                   else Ok(units)
      ensures r.Err? ==> owner == old(owner) && terminal.log == old(terminal.log)
      ensures r.Err? ==> edits == old(edits)
      ensures r.Ok? ==> owner == None && edits == [] && terminal.log == old(terminal.log) + [Typed(units), Typed([NEWLINE])]
    {
      if owner != Some((Canonical, who)) {
        return Err(InputBusy);
      }
      if editing != [] || ready.Some? {
        return Err(PartialInput);
      }
      if !AllText(units) {
        return Err(UnsupportedCodeUnit);
      }
      if |units| > maximumLine {
        return Err(SubmittedTooLong);
      }
      terminal.Write(units);
      terminal.Write([NEWLINE]);
      owner, edits := None, [];
      return Ok(units);
    }

    method WriteOutput(units: seq<Unit>, terminal: Terminal) returns (r: Result<(), StreamError>)
      modifies terminal
      ensures r == if |units| > maximumOutput then Err(OutputTooLarge) else Ok(())
      ensures terminal.log == old(terminal.log) + if r.Ok? then [Typed(units)] else []
    {
      if |units| > maximumOutput {
        return Err(OutputTooLarge);
      }
      terminal.Write(units);
      return Ok(());
    }
  }
}
