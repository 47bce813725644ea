/** The redstone device: six input levels, and the tasks waiting for one of them. */
module Redstone {
  import opened Wrappers
  import opened Words

  const SIDE_COUNT := 6
  const SIGNAL_MAXIMUM := 15
  /** Six change bits and six four-bit levels. */
  const REGISTER_LIMIT := 0x4000_0000
  const LEVELS_LIMIT := 0x100_0000

  datatype RedstoneError = ReservedBits | InvalidSide | InvalidSignal | DuplicateWaiter | WaiterLimit

  datatype InputPredicate = Changed | Exact(signal: nat) | AtLeast(signal: nat) | AtMost(signal: nat)

  datatype Waiter = Waiter(task: nat, request: nat, side: nat, condition: InputPredicate)
  datatype Wakeup = Wakeup(task: nat, request: nat, level: nat)
  datatype Registration = Ready(level: nat) | Pending

  function Pow(base: nat, n: nat): (r: nat)
    requires base > 0
    ensures r > 0
  {
    if n == 0 then 1 else Pow(base, n - 1) * base
  }

  /** The four bits of one side in the packed input levels. */
  function Level(levels: nat, side: nat): (level: nat)
    ensures level <= SIGNAL_MAXIMUM
  {
    levels / Pow(16, side) % 16
  }

  predicate Marked(changed: nat, side: nat) {
    changed / Pow(2, side) % 2 == 1
  }

  predicate Matches(p: InputPredicate, level: nat) {
    match p
    case Changed => true
    case Exact(signal) => level == signal
    case AtLeast(signal) => level >= signal
    case AtMost(signal) => level <= signal
  }

  // ---- the layout of a packet ----

  /** Levels of four bits each, side 0 lowest. */
  function PackedLevels(ls: seq<nat>): nat {
    if ls == [] then 0 else ls[0] + 16 * PackedLevels(ls[1..])
  }

  /** Change bits, side 0 lowest. */
  function PackedMarks(bs: seq<bool>): nat {
    if bs == [] then 0 else (if bs[0] then 1 else 0) + 2 * PackedMarks(bs[1..])
  }

  /** For the six sides: side 1 counts 16, side 2 counts 256, and so on. */
  lemma {:induction false} SixSides(ls: seq<nat>, bs: seq<bool>)
    requires |ls| == |bs| == SIDE_COUNT
    ensures PackedLevels(ls)
            == ls[0] + 0x10 * ls[1] + 0x100 * ls[2] + 0x1000 * ls[3] + 0x1_0000 * ls[4] + 0x10_0000 * ls[5]
    ensures PackedMarks(bs) == (if bs[0] then 1 else 0) + (if bs[1] then 2 else 0) + (if bs[2] then 4 else 0)
                               + (if bs[3] then 8 else 0) + (if bs[4] then 16 else 0) + (if bs[5] then 32 else 0)
  {
    assert ls[5..][1..] == [] && bs[5..][1..] == [];
    assert ls[4..][1..] == ls[5..] && ls[3..][1..] == ls[4..] && ls[2..][1..] == ls[3..] && ls[1..][1..] == ls[2..];
    assert bs[4..][1..] == bs[5..] && bs[3..][1..] == bs[4..] && bs[2..][1..] == bs[3..] && bs[1..][1..] == bs[2..];
    assert PackedLevels(ls[5..]) == ls[5] && PackedLevels(ls[4..]) == ls[4] + 16 * PackedLevels(ls[5..]);
    assert PackedLevels(ls[3..]) == ls[3] + 16 * PackedLevels(ls[4..]);
    assert PackedLevels(ls[2..]) == ls[2] + 16 * PackedLevels(ls[3..]);
    assert PackedLevels(ls[1..]) == ls[1] + 16 * PackedLevels(ls[2..]);
    assert PackedMarks(bs[5..]) == (if bs[5] then 1 else 0);
    assert PackedMarks(bs[4..]) == (if bs[4] then 1 else 0) + 2 * PackedMarks(bs[5..]);
    assert PackedMarks(bs[3..]) == (if bs[3] then 1 else 0) + 2 * PackedMarks(bs[4..]);
    assert PackedMarks(bs[2..]) == (if bs[2] then 1 else 0) + 2 * PackedMarks(bs[3..]);
    assert PackedMarks(bs[1..]) == (if bs[1] then 1 else 0) + 2 * PackedMarks(bs[2..]);
  }

  /** A side further up is the same side of the levels shifted down. */
  lemma {:induction false} LevelShifts(levels: nat, side: nat)
    ensures Level(levels, side + 1) == Level(levels / 16, side) && Level(levels, 0) == levels % 16
  {
    var p, a := Pow(16, side), levels / 16;
    var q, r := a / p, a % p;
    assert a == p * q + r;
    assert Pow(16, side + 1) * q == 16 * (p * q);
    QuotientIs(levels, Pow(16, side + 1), q, 16 * r + levels % 16);
    assert Pow(16, 0) == 1;
  }

  lemma {:induction false} MarkShifts(changed: nat, side: nat)
    ensures Marked(changed, side + 1) == Marked(changed / 2, side) && (Marked(changed, 0) <==> changed % 2 == 1)
  {
    var p, a := Pow(2, side), changed / 2;
    var q, r := a / p, a % p;
    assert a == p * q + r;
    assert Pow(2, side + 1) * q == 2 * (p * q);
    QuotientIs(changed, Pow(2, side + 1), q, 2 * r + changed % 2);
    assert Pow(2, 0) == 1;
  }

  /** Levels 3 at side 1 and 5 at side 5, and marks at those sides. */
  lemma {:induction false} KnownPacket()
    ensures Level(0x50_0030, 1) == 3 && Level(0x50_0030, 5) == 5 && Level(0x50_0030, 2) == 0
    ensures Marked(0x22, 1) && Marked(0x22, 5) && !Marked(0x22, 2)
  {
    assert Pow(16, 1) == 16 && Pow(16, 2) == 0x100 && Pow(16, 3) == 0x1000 && Pow(16, 4) == 0x1_0000;
    assert Pow(2, 1) == 2 && Pow(2, 2) == 4 && Pow(2, 3) == 8 && Pow(2, 4) == 16;
    assert Pow(16, 5) == 0x10_0000 && Pow(2, 5) == 32;
  }

  /** A packed level is read back as it was packed. */
  lemma {:induction false} LevelOfPacked(ls: seq<nat>, side: nat)
    requires side < |ls| && forall i | 0 <= i < |ls| :: ls[i] <= SIGNAL_MAXIMUM
    ensures Level(PackedLevels(ls), side) == ls[side]
  {
    var packed := PackedLevels(ls);
    assert packed % 16 == ls[0] && packed / 16 == PackedLevels(ls[1..]);
    LevelShifts(packed, if side == 0 then 0 else side - 1);
    if side > 0 {
      LevelOfPacked(ls[1..], side - 1);
    }
  }

  lemma {:induction false} MarkOfPacked(bs: seq<bool>, side: nat)
    requires side < |bs|
    ensures Marked(PackedMarks(bs), side) <==> bs[side]
  {
    var packed := PackedMarks(bs);
    assert packed % 2 == (if bs[0] then 1 else 0) && packed / 2 == PackedMarks(bs[1..]);
    MarkShifts(packed, if side == 0 then 0 else side - 1);
    if side > 0 {
      MarkOfPacked(bs[1..], side - 1);
    }
  }

  /** The levels of the first `sides` sides. */
  function LevelsOf(levels: nat, sides: nat): (ls: seq<nat>)
    ensures |ls| == sides
  {
    if sides == 0 then [] else [levels % 16] + LevelsOf(levels / 16, sides - 1)
  }

  function MarksOf(changed: nat, sides: nat): (bs: seq<bool>)
    ensures |bs| == sides
  {
    if sides == 0 then [] else [changed % 2 == 1] + MarksOf(changed / 2, sides - 1)
  }

  lemma {:induction false} LevelsAreRead(levels: nat, sides: nat, side: nat)
    requires side < sides
    ensures LevelsOf(levels, sides)[side] == Level(levels, side)
    decreases sides
  {
    LevelShifts(levels, if side == 0 then 0 else side - 1);
    if side > 0 {
      LevelsAreRead(levels / 16, sides - 1, side - 1);
    }
  }

  lemma {:induction false} MarksAreRead(changed: nat, sides: nat, side: nat)
    requires side < sides
    ensures MarksOf(changed, sides)[side] <==> Marked(changed, side)
    decreases sides
  {
    MarkShifts(changed, if side == 0 then 0 else side - 1);
    if side > 0 {
      MarksAreRead(changed / 2, sides - 1, side - 1);
    }
  }

  lemma {:induction false} LevelsArePacked(levels: nat, sides: nat)
    requires levels < Pow(16, sides)
    ensures PackedLevels(LevelsOf(levels, sides)) == levels
    decreases sides
  {
    if sides > 0 {
      LevelsArePacked(levels / 16, sides - 1);
      assert LevelsOf(levels, sides)[1..] == LevelsOf(levels / 16, sides - 1);
    }
  }

  lemma {:induction false} MarksArePacked(changed: nat, sides: nat)
    requires changed < Pow(2, sides)
    ensures PackedMarks(MarksOf(changed, sides)) == changed
    decreases sides
  {
    if sides > 0 {
      MarksArePacked(changed / 2, sides - 1);
      assert MarksOf(changed, sides)[1..] == MarksOf(changed / 2, sides - 1);
    }
  }

  lemma {:induction false} SidePowers()
    ensures Pow(16, 6) == LEVELS_LIMIT && Pow(2, 6) == 64
  {
    assert Pow(16, 1) == Pow(16, 0) * 16 == 16 && Pow(2, 1) == Pow(2, 0) * 2 == 2;
    assert Pow(16, 2) == Pow(16, 1) * 16 && Pow(2, 2) == Pow(2, 1) * 2;
    assert Pow(16, 3) == Pow(16, 2) * 16 && Pow(2, 3) == Pow(2, 2) * 2;
    assert Pow(16, 4) == Pow(16, 3) * 16 && Pow(2, 4) == Pow(2, 3) * 2;
    assert Pow(16, 5) == Pow(16, 4) * 16 && Pow(2, 5) == Pow(2, 4) * 2;
    assert Pow(16, 6) == Pow(16, 5) * 16 && Pow(2, 6) == Pow(2, 5) * 2;
  }

  /** Every packet is six change bits below six levels, and they are what the device reads. */
  lemma {:induction false} EveryPacketIsPacked(packet: nat)
    requires packet < REGISTER_LIMIT
    ensures var bs, ls := MarksOf(packet % 64, SIDE_COUNT), LevelsOf(packet / 64, SIDE_COUNT);
            && packet == PackedMarks(bs) + 64 * PackedLevels(ls)
            && forall side: nat | side < SIDE_COUNT ::
                 (bs[side] <==> Marked(packet % 64, side)) && ls[side] == Level(packet / 64, side)
  {
    SidePowers();
    MarksArePacked(packet % 64, SIDE_COUNT);
    LevelsArePacked(packet / 64, SIDE_COUNT);
    forall side: nat | side < SIDE_COUNT
      ensures MarksOf(packet % 64, SIDE_COUNT)[side] <==> Marked(packet % 64, side)
      ensures LevelsOf(packet / 64, SIDE_COUNT)[side] == Level(packet / 64, side)
    {
      MarksAreRead(packet % 64, SIDE_COUNT, side);
      LevelsAreRead(packet / 64, SIDE_COUNT, side);
    }
  }

  /** The levels at which each kind of wait ends. */
  function EndingLevels(p: InputPredicate): set<nat> {
    set level: nat | level <= SIGNAL_MAXIMUM && Matches(p, level)
  }

  lemma {:induction false} MatchingLevels(signal: nat)
    requires signal <= SIGNAL_MAXIMUM
    ensures forall level: nat | level <= SIGNAL_MAXIMUM :: level in EndingLevels(Changed)
    ensures EndingLevels(Exact(signal)) == {signal}
    ensures EndingLevels(AtLeast(signal)) + EndingLevels(AtMost(signal)) == EndingLevels(Changed)
    ensures EndingLevels(AtLeast(signal)) * EndingLevels(AtMost(signal)) == {signal}
    ensures SIGNAL_MAXIMUM in EndingLevels(AtLeast(signal)) && 0 in EndingLevels(AtMost(signal))
  {
  }

  /** Asking for one more of a level gives up just the level itself. */
  lemma {:induction false} MatchingLevelsShrink(signal: nat)
    requires signal <= SIGNAL_MAXIMUM
    ensures EndingLevels(AtLeast(0)) == EndingLevels(Changed) == EndingLevels(AtMost(SIGNAL_MAXIMUM))
    ensures EndingLevels(AtLeast(signal + 1)) == EndingLevels(AtLeast(signal)) - {signal}
    ensures signal > 0 ==> EndingLevels(AtMost(signal - 1)) == EndingLevels(AtMost(signal)) - {signal}
  {
  }

  /** What a packet does to one waiter. */
  predicate Wakes(w: Waiter, changed: nat, levels: nat) {
    Marked(changed, w.side) && Matches(w.condition, Level(levels, w.side))
  }

  function WakeupOf(w: Waiter, levels: nat): Wakeup {
    Wakeup(w.task, w.request, Level(levels, w.side))
  }

  function Woken(ws: seq<Waiter>, changed: nat, levels: nat): seq<Wakeup> {
    if ws == [] then [] else
    var before := Woken(ws[..|ws| - 1], changed, levels);
    var w := ws[|ws| - 1];
    if Wakes(w, changed, levels) then before + [WakeupOf(w, levels)] else before
  }

  function StillPending(ws: seq<Waiter>, changed: nat, levels: nat): seq<Waiter> {
    if ws == [] then [] else
    var before := StillPending(ws[..|ws| - 1], changed, levels);
    var w := ws[|ws| - 1];
    if Wakes(w, changed, levels) then before else before + [w]
  }

  // ---- the order of wakeups ----

  predicate Less(a: Wakeup, b: Wakeup) {
    a.task < b.task || (a.task == b.task && a.request < b.request)
  }

  /** A strict order by task and then by request: of two wakeups with different keys, one is before the other. */
  lemma {:induction false} KeysAreOrdered(a: Wakeup, b: Wakeup, c: Wakeup)
    ensures Less(a, b) || Less(b, a) <==> a.task != b.task || a.request != b.request
    ensures !(Less(a, b) && Less(b, a)) && (Less(a, b) && Less(b, c) ==> Less(a, c))
    ensures Less(a, b) ==> a.task <= b.task
  {
  }

  predicate InOrder(ws: seq<Wakeup>) {
    forall i, j | 0 <= i < j < |ws| :: Less(ws[i], ws[j])
  }

  predicate DistinctKeys(ws: seq<Wakeup>) {
    forall i, j | 0 <= i < j < |ws| :: ws[i].task != ws[j].task || ws[i].request != ws[j].request
  }

  /** Inserts behind every wakeup that is not later. */
  method InsertInOrder(ws: seq<Wakeup>, x: Wakeup) returns (r: seq<Wakeup>)
    requires InOrder(ws)
    requires forall i | 0 <= i < |ws| :: ws[i].task != x.task || ws[i].request != x.request
    ensures InOrder(r) && multiset(r) == multiset(ws) + multiset{x}
  {
    var k := 0;
    while k < |ws| && Less(ws[k], x)
      invariant 0 <= k <= |ws| && forall i | 0 <= i < k :: Less(ws[i], x)
    {
      k := k + 1;
    }
    r := ws[..k] + [x] + ws[k..];
    InsertedInOrder(ws, x, k, r);
    InsertedOnce(ws, x, k);
  }

  lemma {:induction false} InsertedInOrder(ws: seq<Wakeup>, x: Wakeup, k: nat, r: seq<Wakeup>)
    requires InOrder(ws) && k <= |ws| && r == ws[..k] + [x] + ws[k..]
    requires forall i | 0 <= i < k :: Less(ws[i], x)
    requires k < |ws| ==> Less(x, ws[k])
    ensures InOrder(r)
  {
    forall i, j | 0 <= i < j < |r|
      ensures Less(r[i], r[j])
    {
      if j < k {
        assert r[i] == ws[i] && r[j] == ws[j];
      } else if j == k {
        assert r[i] == ws[i];
      } else {
        assert r[j] == ws[j - 1];
        if i < k {
          assert r[i] == ws[i];
        } else if i > k {
          assert r[i] == ws[i - 1];
        } else if j - 1 > k {
          assert Less(ws[k], ws[j - 1]);
        }
      }
    }
  }

  lemma {:induction false} InsertedOnce(ws: seq<Wakeup>, x: Wakeup, k: nat)
    requires k <= |ws|
    ensures multiset(ws[..k] + [x] + ws[k..]) == multiset(ws) + multiset{x}
  {
    calc {
      multiset(ws[..k] + [x] + ws[k..]);
      multiset(ws[..k]) + multiset{x} + multiset(ws[k..]);
      multiset(ws[..k] + ws[k..]) + multiset{x};
      { assert ws == ws[..k] + ws[k..]; }
      multiset(ws) + multiset{x};
    }
  }

  /** Sorts by task and request; with distinct keys the order is strict. */
  method SortWakeups(ws: seq<Wakeup>) returns (r: seq<Wakeup>)
    requires DistinctKeys(ws)
    ensures InOrder(r) && multiset(r) == multiset(ws)
  {
    r := [];
    for i := 0 to |ws|
      invariant InOrder(r) && multiset(r) == multiset(ws[..i])
    {
      assert ws[..i + 1] == ws[..i] + [ws[i]];
      forall j | 0 <= j < |r|
        ensures r[j].task != ws[i].task || r[j].request != ws[i].request
      {
        assert r[j] in multiset(r);
        assert r[j] in ws[..i];
      }
      r := InsertInOrder(r, ws[i]);
    }
    assert ws[..|ws|] == ws;
  }

  // ---- the waiter registry ----

  predicate PredicateOk(p: InputPredicate) {
    p.Changed? || p.signal <= SIGNAL_MAXIMUM
  }

  /** The signals that can be waited for are the levels that a side can have. */
  lemma {:induction false} SignalsAreLevels(p: InputPredicate)
    requires !p.Changed?
    ensures PredicateOk(p) <==> exists levels: nat :: levels < LEVELS_LIMIT && Level(levels, 0) == p.signal
  {
    if PredicateOk(p) {
      assert Level(p.signal, 0) == p.signal;
    }
  }

  predicate WaiterOk(w: Waiter) {
    w.task != 0 && w.request != 0 && w.side < SIDE_COUNT && PredicateOk(w.condition)
  }

  predicate Distinct(ws: seq<Waiter>) {
    forall i, j | 0 <= i < j < |ws| :: ws[i].task != ws[j].task || ws[i].request != ws[j].request
  }

  predicate Contains(ws: seq<Waiter>, task: nat, request: nat) {
    exists i | 0 <= i < |ws| :: ws[i].task == task && ws[i].request == request
  }

  /** The checkpoint validator's condition on a device. */
  predicate CheckpointOk(levels: nat, output: nat, ws: seq<Waiter>, maximum: nat) {
    && |ws| <= maximum && levels < LEVELS_LIMIT && output < REGISTER_LIMIT
    && (forall i | 0 <= i < |ws| :: WaiterOk(ws[i]))
    && Distinct(ws)
  }

  /** No waiter that is triggered by a level is waiting for the level that is there. */
  predicate Quiescent(ws: seq<Waiter>, levels: nat) {
    forall i | 0 <= i < |ws| :: Unsatisfied(ws[i], levels)
  }

  predicate Unsatisfied(w: Waiter, levels: nat) {
    w.condition.Changed? || !Matches(w.condition, Level(levels, w.side))
  }

  /** The packet's change bits mark every side whose level differs. */
  predicate MarksChanges(before: nat, after: nat, changed: nat) {
    forall side | 0 <= side < SIDE_COUNT :: Level(before, side) != Level(after, side) ==> Marked(changed, side)
  }

  /** Nothing is lost and nothing is invented: every waiter is either woken or still pending, in order. */
  lemma {:induction false} WaitersSplit(ws: seq<Waiter>, changed: nat, levels: nat)
    ensures |Woken(ws, changed, levels)| + |StillPending(ws, changed, levels)| == |ws|
    ensures forall w :: w in StillPending(ws, changed, levels) <==> w in ws && !Wakes(w, changed, levels)
    ensures forall k :: k in Woken(ws, changed, levels) <==> exists w :: w in ws && Wakes(w, changed, levels) && WakeupOf(w, levels) == k
    ensures forall w :: Wakes(w, changed, levels) <==>
              Marked(changed, w.side) && Matches(w.condition, Level(levels, w.side))
    ensures forall w :: WakeupOf(w, levels) == Wakeup(w.task, w.request, Level(levels, w.side))
  {
    if ws != [] {
      var shorter, last := ws[..|ws| - 1], ws[|ws| - 1];
      WaitersSplit(shorter, changed, levels);
      assert ws == shorter + [last];
      forall k | k in Woken(ws, changed, levels)
        ensures exists w :: w in ws && Wakes(w, changed, levels) && WakeupOf(w, levels) == k
      {
        if k !in Woken(shorter, changed, levels) {
          assert last in ws && Wakes(last, changed, levels) && WakeupOf(last, levels) == k;
        }
      }
      forall w | w in ws && Wakes(w, changed, levels)
        ensures WakeupOf(w, levels) in Woken(ws, changed, levels)
      {
        if w in shorter {
          assert WakeupOf(w, levels) in Woken(shorter, changed, levels);
        }
      }
    }
  }

  /** Waiters of one identity as the last one would be the last one. */
  lemma {:induction false} LastIsAlone(ws: seq<Waiter>, w: Waiter)
    requires ws != [] && Distinct(ws) && w in ws[..|ws| - 1]
    ensures w.task != ws[|ws| - 1].task || w.request != ws[|ws| - 1].request
  {
    var i :| 0 <= i < |ws| - 1 && ws[..|ws| - 1][i] == w;
    assert ws[i] == w;
  }

  /** The wakeups and the pending waiters of earlier waiters do not carry the last one's identity. */
  lemma {:induction false} LastIsAloneInSplit(ws: seq<Waiter>, changed: nat, levels: nat)
    requires ws != [] && Distinct(ws)
    ensures var last, shorter := ws[|ws| - 1], ws[..|ws| - 1];
            && (forall k | k in Woken(shorter, changed, levels) :: k.task != last.task || k.request != last.request)
            && (forall w | w in StillPending(shorter, changed, levels) :: w.task != last.task || w.request != last.request)
  {
    var last, shorter := ws[|ws| - 1], ws[..|ws| - 1];
    WaitersSplit(shorter, changed, levels);
    forall w | w in shorter
      ensures w.task != last.task || w.request != last.request
    {
      LastIsAlone(ws, w);
    }
  }

  /** Distinct waiters give distinct wakeups and leave distinct waiters. */
  lemma {:induction false} SplitKeepsDistinct(ws: seq<Waiter>, changed: nat, levels: nat)
    requires Distinct(ws)
    ensures DistinctKeys(Woken(ws, changed, levels)) && Distinct(StillPending(ws, changed, levels))
  {
    if ws != [] {
      var shorter := ws[..|ws| - 1];
      SplitKeepsDistinct(shorter, changed, levels);
      LastIsAloneInSplit(ws, changed, levels);
      var woken, pending := Woken(shorter, changed, levels), StillPending(shorter, changed, levels);
      assert forall i | 0 <= i < |woken| :: woken[i] in woken;
      assert forall i | 0 <= i < |pending| :: pending[i] in pending;
    }
  }

  /** No waiter is both woken and pending. */
  lemma {:induction false} WokenIsGone(ws: seq<Waiter>, changed: nat, levels: nat, k: Wakeup)
    requires Distinct(ws) && k in Woken(ws, changed, levels)
    ensures !Contains(StillPending(ws, changed, levels), k.task, k.request)
  {
    var shorter, last := ws[..|ws| - 1], ws[|ws| - 1];
    LastIsAloneInSplit(ws, changed, levels);
    var pending := StillPending(shorter, changed, levels);
    assert forall i | 0 <= i < |pending| :: pending[i] in pending;
    if k in Woken(shorter, changed, levels) {
      WokenIsGone(shorter, changed, levels, k);
    }
  }

  /** What stays pending still satisfies the checkpoint validator's condition on waiters. */
  lemma {:induction false} PendingKeepsWaiters(ws: seq<Waiter>, changed: nat, levels: nat, maximum: nat)
    requires |ws| <= maximum && Distinct(ws)
    requires forall i | 0 <= i < |ws| :: WaiterOk(ws[i])
    ensures |StillPending(ws, changed, levels)| <= maximum && Distinct(StillPending(ws, changed, levels))
    ensures forall i | 0 <= i < |StillPending(ws, changed, levels)| :: WaiterOk(StillPending(ws, changed, levels)[i])
  {
    WaitersSplit(ws, changed, levels);
    SplitKeepsDistinct(ws, changed, levels);
    var pending := StillPending(ws, changed, levels);
    forall i | 0 <= i < |pending|
      ensures WaiterOk(pending[i])
    {
      assert pending[i] in pending;
    }
  }

  /**
    * After a packet no pending waiter is satisfied by the level that is there, if and only if the packet leaves
    * unmarked no side on which a waiter is satisfied by the new level.
    */
  lemma {:induction false} QuiescentAfterInput(ws: seq<Waiter>, changed: nat, levels: nat)
    ensures Quiescent(StillPending(ws, changed, levels), levels)
            <==> forall i | 0 <= i < |ws| :: Marked(changed, ws[i].side) || Unsatisfied(ws[i], levels)
  {
    WaitersSplit(ws, changed, levels);
    var pending := StillPending(ws, changed, levels);
    if Quiescent(pending, levels) {
      forall i | 0 <= i < |ws|
        ensures Marked(changed, ws[i].side) || Unsatisfied(ws[i], levels)
      {
        if !Marked(changed, ws[i].side) {
          assert ws[i] in ws && !Wakes(ws[i], changed, levels);
          var j :| 0 <= j < |pending| && pending[j] == ws[i];
        }
      }
    }
    if forall i | 0 <= i < |ws| :: Marked(changed, ws[i].side) || Unsatisfied(ws[i], levels) {
      forall j | 0 <= j < |pending|
        ensures Unsatisfied(pending[j], levels)
      {
        assert pending[j] in pending;
        var i :| 0 <= i < |ws| && ws[i] == pending[j];
      }
    }
  }

  /** A host that marks every side whose level differs keeps the waiters quiescent. */
  lemma {:induction false} MarkedChangesKeepQuiescence(ws: seq<Waiter>, before: nat, changed: nat, levels: nat)
    requires forall i | 0 <= i < |ws| :: WaiterOk(ws[i])
    requires Quiescent(ws, before) && MarksChanges(before, levels, changed)
    ensures Quiescent(StillPending(ws, changed, levels), levels)
  {
    forall i | 0 <= i < |ws|
      ensures Marked(changed, ws[i].side) || Unsatisfied(ws[i], levels)
    {
      assert WaiterOk(ws[i]) && Unsatisfied(ws[i], before);
    }
    QuiescentAfterInput(ws, changed, levels);
  }

  /** A packet that leaves a differing side unmarked can leave a satisfied waiter pending. */
  lemma {:induction false} UnmarkedChangeLeavesAWaiter()
    ensures var ws := [Waiter(1, 1, 0, Exact(7))];
            && Quiescent(ws, 0) && !MarksChanges(0, 7, 0)
            && !Quiescent(StillPending(ws, 0, 7), 7)
  {
    var ws := [Waiter(1, 1, 0, Exact(7))];
    assert Pow(16, 0) == 1 && Pow(2, 0) == 1;
    assert Level(0, 0) == 0 && Level(7, 0) == 7 && !Marked(0, 0);
    assert ws[..0] == [];
    assert StillPending(ws, 0, 7) == ws;
    assert !Unsatisfied(ws[0], 7);
  }

  /** With no change bit set, nothing wakes. */
  lemma {:induction false} NothingMarked(ws: seq<Waiter>, levels: nat)
    ensures Woken(ws, 0, levels) == [] && StillPending(ws, 0, levels) == ws
  {
    if ws != [] {
      NothingMarked(ws[..|ws| - 1], levels);
      assert !Marked(0, ws[|ws| - 1].side) by {
        assert 0 / Pow(2, ws[|ws| - 1].side) == 0;
      }
    }
  }

  class RedstoneDevice {
    var inputLevels: nat
    var confirmedOutput: nat
    var waiters: seq<Waiter>
    const maximumWaiters: nat

    ghost predicate Valid()
      reads this
    {
      CheckpointOk(inputLevels, confirmedOutput, waiters, maximumWaiters)
    }

    constructor (maximumWaiters: nat)
      ensures Valid() && waiters == [] && Quiescent(waiters, inputLevels)
      ensures inputLevels == 0 && confirmedOutput == 0 && this.maximumWaiters == maximumWaiters
    {
      this.maximumWaiters := maximumWaiters;
      inputLevels, confirmedOutput, waiters := 0, 0, [];
    }

    function Input(side: nat): (r: Result<nat, RedstoneError>)
      reads this
      ensures r.Ok? <==> side < SIDE_COUNT
      ensures r.Ok? ==> r.value <= SIGNAL_MAXIMUM
    {
      if side < SIDE_COUNT then Ok(Level(inputLevels, side)) else Err(InvalidSide)
    }

    method ConfirmOutput(packed: nat) returns (r: Result<(), RedstoneError>)
      requires Valid()
      modifies this`confirmedOutput
      ensures Valid()
      ensures if packed < REGISTER_LIMIT then r.Ok? && confirmedOutput == packed
              else r == Err(ReservedBits) && confirmedOutput == old(confirmedOutput)
    {
      if packed >= REGISTER_LIMIT {
        return Err(ReservedBits);
      }
      confirmedOutput := packed;
      return Ok(());
    }

    /** Tells the waiters that wake from those that do not. */
    method SplitWaiters(taken: seq<Waiter>, changed: nat) returns (r: Result<(seq<Wakeup>, seq<Waiter>), RedstoneError>)
      requires forall i | 0 <= i < |taken| :: WaiterOk(taken[i])
      ensures r == Ok((Woken(taken, changed, inputLevels), StillPending(taken, changed, inputLevels)))
    {
      var ready, pending := [], [];
      for i := 0 to |taken|
        invariant ready == Woken(taken[..i], changed, inputLevels)
        invariant pending == StillPending(taken[..i], changed, inputLevels)
      {
        var waiter := taken[i];
        assert taken[..i + 1][..i] == taken[..i] && WaiterOk(waiter);
        if !Marked(changed, waiter.side) {
          pending := pending + [waiter];
        } else {
          var level := Input(waiter.side);
          if level.Err? {
            return Err(InvalidSide);
          }
          if Matches(waiter.condition, level.value) {
            ready := ready + [Wakeup(waiter.task, waiter.request, level.value)];
          } else {
            pending := pending + [waiter];
          }
        }
      }
      assert taken[..|taken|] == taken;
      return Ok((ready, pending));
    }

    /**
      * Takes a new snapshot of the levels. Exactly the waiters on marked sides whose predicate holds at the new
      * level wake, in the order of their identities and once each; the others stay in the order they came.
      */
    method SubmitInput(packet: nat) returns (r: Result<seq<Wakeup>, RedstoneError>)
      requires Valid()
      modifies this`inputLevels, this`waiters
      ensures Valid()
      ensures packet >= REGISTER_LIMIT ==> r == Err(ReservedBits) && unchanged(this)
      ensures packet < REGISTER_LIMIT ==>
                && r.Ok? && inputLevels == packet / 64
                && waiters == StillPending(old(waiters), packet % 64, inputLevels)
                && multiset(r.value) == multiset(Woken(old(waiters), packet % 64, inputLevels))
                && InOrder(r.value)
                && (forall k | k in r.value :: !Contains(waiters, k.task, k.request))
                && (Quiescent(old(waiters), old(inputLevels)) && MarksChanges(old(inputLevels), inputLevels, packet % 64)
                    ==> Quiescent(waiters, inputLevels))
    {
      if packet >= REGISTER_LIMIT {
        return Err(ReservedBits);
      }
      var changed := packet % 64;
      ghost var before := inputLevels;
      inputLevels := packet / 64;
      if Quiescent(waiters, before) && MarksChanges(before, inputLevels, changed) {
        MarkedChangesKeepQuiescence(waiters, before, changed, inputLevels);
      }
      if changed == 0 || waiters == [] {
        NothingMarked(waiters, inputLevels);
        return Ok([]);
      }
      var taken := waiters;
      waiters := [];
      var split := SplitWaiters(taken, changed);
      if split.Err? {
        return Err(InvalidSide);
      }
      var (ready, pending) := split.value;
      PendingKeepsWaiters(taken, changed, inputLevels, maximumWaiters);
      SplitKeepsDistinct(taken, changed, inputLevels);
      waiters := pending;
      var sorted := SortWakeups(ready);
      forall k | k in sorted
        ensures !Contains(pending, k.task, k.request)
      {
        assert k in multiset(ready);
        WokenIsGone(taken, changed, inputLevels, k);
      }
      return Ok(sorted);
    }

    /**
      * Registers a wait. A level-triggered wait that is already satisfied answers at once and registers nothing,
      * so quiescence is kept.
      */
    method Register(task: nat, request: nat, side: nat, p: InputPredicate)
      returns (r: Result<Registration, RedstoneError>)
      requires Valid() && task != 0 && request != 0
      modifies this`waiters
      ensures Valid()
      ensures Quiescent(old(waiters), inputLevels) ==> Quiescent(waiters, inputLevels)
      ensures r == Err(InvalidSide) <==> side >= SIDE_COUNT
      ensures r == Err(InvalidSignal) <==> side < SIDE_COUNT && !PredicateOk(p)
      ensures r == Err(DuplicateWaiter) <==>
                side < SIDE_COUNT && PredicateOk(p) && Contains(old(waiters), task, request)
      ensures r.Ok? && r.value.Ready? <==>
                && side < SIDE_COUNT && PredicateOk(p) && !Contains(old(waiters), task, request)
                && !p.Changed? && Matches(p, Level(inputLevels, side))
      ensures r.Ok? && r.value.Ready? ==> r.value.level == Level(inputLevels, side)
      ensures r == Err(WaiterLimit) <==>
                && side < SIDE_COUNT && PredicateOk(p) && !Contains(old(waiters), task, request)
                && (p.Changed? || !Matches(p, Level(inputLevels, side))) && |old(waiters)| >= maximumWaiters
      ensures r == Ok(Pending) ==> waiters == old(waiters) + [Waiter(task, request, side, p)]
      ensures r != Ok(Pending) ==> waiters == old(waiters)
      ensures r != Err(ReservedBits)
    {
      if side >= SIDE_COUNT {
        return Err(InvalidSide);
      }
      if !PredicateOk(p) {
        return Err(InvalidSignal);
      }
      if exists i | 0 <= i < |waiters| :: waiters[i].task == task && waiters[i].request == request {
        return Err(DuplicateWaiter);
      }
      var current := Level(inputLevels, side);
      if !p.Changed? && Matches(p, current) {
        return Ok(Ready(current));
      }
      if |waiters| >= maximumWaiters {
        return Err(WaiterLimit);
      }
      waiters := waiters + [Waiter(task, request, side, p)];
      return Ok(Pending);
    }
  }
}
