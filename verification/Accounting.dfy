/** The six saturating work counters, kept for live processes and for processes that have ended. */
module Accounting {
  import opened Words

  /** Exact, unbounded counts. */
  datatype Work = Work(fixedGuest: nat, dynamicGuest: nat, maintenance: nat,
                       enteredBlocks: nat, executed: nat, retired: nat)

  const ZERO := Work(0, 0, 0, 0, 0, 0)

  predicate Fits(w: Work) {
    && w.fixedGuest <= U64_MAX && w.dynamicGuest <= U64_MAX && w.maintenance <= U64_MAX
    && w.enteredBlocks <= U64_MAX && w.executed <= U64_MAX && w.retired <= U64_MAX
  }

  /** What a machine's own 64-bit counters can hold. */
  type Counters = w: Work | Fits(w) witness ZERO

  datatype Tally = Tally(counters: Counters, saturated: bool)

  function Plus(a: Work, b: Work): Work {
    Work(a.fixedGuest + b.fixedGuest, a.dynamicGuest + b.dynamicGuest, a.maintenance + b.maintenance,
         a.enteredBlocks + b.enteredBlocks, a.executed + b.executed, a.retired + b.retired)
  }

  function Total(ws: seq<Work>): Work {
    if ws == [] then ZERO else Plus(Total(ws[..|ws| - 1]), ws[|ws| - 1])
  }

  function Cap(n: nat): nat {
    if n <= U64_MAX then n else U64_MAX
  }

  /** The tally of an exact count: every counter stops at its maximum, and the flag tells whether one did. */
  function TallyOf(exact: Work): Tally {
    Tally(Work(Cap(exact.fixedGuest), Cap(exact.dynamicGuest), Cap(exact.maintenance),
               Cap(exact.enteredBlocks), Cap(exact.executed), Cap(exact.retired)),
          !Fits(exact))
  }

  lemma {:induction false} TotalExtends(ws: seq<Work>, w: Work)
    ensures Total(ws + [w]) == Plus(Total(ws), w)
  {
    assert (ws + [w])[..|ws|] == ws;
  }

  // ---- the six columns of a ledger ----

  function Sum(ns: seq<nat>): nat {
    if ns == [] then 0 else Sum(ns[..|ns| - 1]) + ns[|ns| - 1]
  }

  function FixedGuestOf(ws: seq<Work>): seq<nat> {
    seq(|ws|, i requires 0 <= i < |ws| => ws[i].fixedGuest)
  }

  function DynamicGuestOf(ws: seq<Work>): seq<nat> {
    seq(|ws|, i requires 0 <= i < |ws| => ws[i].dynamicGuest)
  }

  function MaintenanceOf(ws: seq<Work>): seq<nat> {
    seq(|ws|, i requires 0 <= i < |ws| => ws[i].maintenance)
  }

  function EnteredBlocksOf(ws: seq<Work>): seq<nat> {
    seq(|ws|, i requires 0 <= i < |ws| => ws[i].enteredBlocks)
  }

  function ExecutedOf(ws: seq<Work>): seq<nat> {
    seq(|ws|, i requires 0 <= i < |ws| => ws[i].executed)
  }

  function RetiredOf(ws: seq<Work>): seq<nat> {
    seq(|ws|, i requires 0 <= i < |ws| => ws[i].retired)
  }

  /** The total adds up each counter on its own. */
  lemma {:induction false} TotalIsSums(ws: seq<Work>)
    ensures Total(ws).fixedGuest == Sum(FixedGuestOf(ws)) && Total(ws).dynamicGuest == Sum(DynamicGuestOf(ws))
    ensures Total(ws).maintenance == Sum(MaintenanceOf(ws)) && Total(ws).enteredBlocks == Sum(EnteredBlocksOf(ws))
    ensures Total(ws).executed == Sum(ExecutedOf(ws)) && Total(ws).retired == Sum(RetiredOf(ws))
  {
    if ws != [] {
      var shorter := ws[..|ws| - 1];
      TotalIsSums(shorter);
      var n := |ws| - 1;
      assert FixedGuestOf(ws)[..n] == FixedGuestOf(shorter) && DynamicGuestOf(ws)[..n] == DynamicGuestOf(shorter);
      assert MaintenanceOf(ws)[..n] == MaintenanceOf(shorter) && EnteredBlocksOf(ws)[..n] == EnteredBlocksOf(shorter);
      assert ExecutedOf(ws)[..n] == ExecutedOf(shorter) && RetiredOf(ws)[..n] == RetiredOf(shorter);
    }
  }

  /** What a snapshot shows of a ledger: each counter's sum over all processes, stopped at the 64-bit maximum. */
  predicate Shows(work: Counters, ws: seq<Work>) {
    && work.fixedGuest == Min(Sum(FixedGuestOf(ws)), U64_MAX) && work.dynamicGuest == Min(Sum(DynamicGuestOf(ws)), U64_MAX)
    && work.maintenance == Min(Sum(MaintenanceOf(ws)), U64_MAX)
    && work.enteredBlocks == Min(Sum(EnteredBlocksOf(ws)), U64_MAX)
    && work.executed == Min(Sum(ExecutedOf(ws)), U64_MAX) && work.retired == Min(Sum(RetiredOf(ws)), U64_MAX)
  }

  /** Some counter's sum is beyond the maximum. */
  predicate Overflows(ws: seq<Work>) {
    || Sum(FixedGuestOf(ws)) > U64_MAX || Sum(DynamicGuestOf(ws)) > U64_MAX || Sum(MaintenanceOf(ws)) > U64_MAX
    || Sum(EnteredBlocksOf(ws)) > U64_MAX || Sum(ExecutedOf(ws)) > U64_MAX || Sum(RetiredOf(ws)) > U64_MAX
  }

  lemma {:induction false} TallyShows(ws: seq<Work>)
    ensures Shows(TallyOf(Total(ws)).counters, ws) && (TallyOf(Total(ws)).saturated <==> Overflows(ws))
  {
    TotalIsSums(ws);
  }

  /** Replacing one process's counts changes the total by just the difference. */
  lemma {:induction false} TotalReplaces(ws: seq<Work>, i: nat, w: Work)
    requires i < |ws|
    ensures Plus(Total(ws[i := w]), ws[i]) == Plus(Total(ws), w)
  {
    var n := |ws| - 1;
    if i == n {
      assert ws[i := w][..n] == ws[..n];
    } else {
      assert ws[i := w][..n] == ws[..n][i := w];
      TotalReplaces(ws[..n], i, w);
    }
  }

  /** Adds without wrapping around; the flag is set, never cleared. */
  method AddCounter(target: nat, value: nat, saturated: bool) returns (sum: nat, flag: bool)
    requires target <= U64_MAX && value <= U64_MAX
    ensures sum == Cap(target + value) && flag == (saturated || target + value > U64_MAX)
  {
    var wrapped := (target + value) % (U64_MAX + 1);
    if wrapped < target {
      return U64_MAX, true;
    }
    return wrapped, saturated;
  }

  /** Adding a process's counters to a tally of an exact count gives the tally of the exact sum. */
  method Add(t: Tally, w: Counters, ghost exact: Work) returns (r: Tally)
    requires t == TallyOf(exact)
    ensures r == TallyOf(Plus(exact, w))
  {
    var flag := t.saturated;
    var fixedGuest, dynamicGuest, maintenance, enteredBlocks, executed, retired;
    fixedGuest, flag := AddCounter(t.counters.fixedGuest, w.fixedGuest, flag);
    dynamicGuest, flag := AddCounter(t.counters.dynamicGuest, w.dynamicGuest, flag);
    maintenance, flag := AddCounter(t.counters.maintenance, w.maintenance, flag);
    enteredBlocks, flag := AddCounter(t.counters.enteredBlocks, w.enteredBlocks, flag);
    executed, flag := AddCounter(t.counters.executed, w.executed, flag);
    retired, flag := AddCounter(t.counters.retired, w.retired, flag);
    return Tally(Work(fixedGuest, dynamicGuest, maintenance, enteredBlocks, executed, retired), flag);
  }

  function CapSum(a: nat, b: nat): nat {
    Cap(a + b)
  }

  // ---- gauges ----

  /**
    * The gauges of a snapshot: heap capacity and use, live objects, resident bytes, task capacity, and live, runnable,
    * suspended and completed tasks.
    */
  type Gauges = g: seq<U64> | |g| == 9 witness [0, 0, 0, 0, 0, 0, 0, 0, 0]

  function GaugeSum(reports: seq<Gauges>, k: nat): nat
    requires k < 9
  {
    if reports == [] then 0 else GaugeSum(reports[..|reports| - 1], k) + reports[|reports| - 1][k]
  }

  function GaugeColumn(reports: seq<Gauges>, k: nat): seq<nat>
    requires k < 9
  {
    seq(|reports|, i requires 0 <= i < |reports| => reports[i][k])
  }

  /** One gauge of all reports, added up. */
  lemma {:induction false} GaugeSumIsSum(reports: seq<Gauges>, k: nat)
    requires k < 9
    ensures GaugeSum(reports, k) == Sum(GaugeColumn(reports, k))
  {
    if reports != [] {
      var n, column := |reports| - 1, GaugeColumn(reports, k);
      GaugeSumIsSum(reports[..n], k);
      assert column[..n] == GaugeColumn(reports[..n], k);
    }
  }

  /** Each gauge is the sum of what is reported, stopped at its maximum. */
  predicate Gauged(g: Gauges, reports: seq<Gauges>) {
    forall k | 0 <= k < 9 :: g[k] == Cap(GaugeSum(reports, k))
  }

  predicate GaugeOverflows(reports: seq<Gauges>) {
    exists k | 0 <= k < 9 :: GaugeSum(reports, k) > U64_MAX
  }

  lemma {:induction false} GaugeExtends(reports: seq<Gauges>, g: Gauges)
    ensures forall k | 0 <= k < 9 :: GaugeSum(reports + [g], k) == GaugeSum(reports, k) + g[k]
  {
    assert (reports + [g])[..|reports|] == reports;
  }

  /** Adds one report to the gauges. */
  method AddReport(g: Gauges, report: Gauges, saturated: bool) returns (r: Gauges, flag: bool)
    ensures forall k | 0 <= k < 9 :: r[k] == CapSum(g[k], report[k])
    ensures flag <==> saturated || exists k | 0 <= k < 9 :: g[k] + report[k] > U64_MAX
  {
    r, flag := g, saturated;
    for i := 0 to 9
      invariant forall k | 0 <= k < i :: r[k] == CapSum(g[k], report[k])
      invariant forall k | i <= k < 9 :: r[k] == g[k]
      invariant flag <==> saturated || exists k | 0 <= k < i :: g[k] + report[k] > U64_MAX
    {
      var sum;
      sum, flag := AddCounter(g[i], report[i], flag);
      r := r[i := sum];
    }
  }

  /** Adding a report to the gauges of some reports gives the gauges of one more. */
  lemma {:induction false} GaugedStep(g: Gauges, reports: seq<Gauges>, report: Gauges, r: Gauges)
    requires Gauged(g, reports) && forall k | 0 <= k < 9 :: r[k] == CapSum(g[k], report[k])
    ensures Gauged(r, reports + [report])
    ensures GaugeOverflows(reports + [report]) <==>
              GaugeOverflows(reports) || exists k | 0 <= k < 9 :: g[k] + report[k] > U64_MAX
  {
    GaugeExtends(reports, report);
    var longer := reports + [report];
    if GaugeOverflows(longer) {
      var k :| 0 <= k < 9 && GaugeSum(longer, k) > U64_MAX;
      assert GaugeSum(reports, k) > U64_MAX || g[k] + report[k] > U64_MAX;
    }
    if GaugeOverflows(reports) {
      var k :| 0 <= k < 9 && GaugeSum(reports, k) > U64_MAX;
      assert GaugeSum(longer, k) > U64_MAX;
    }
    if k :| 0 <= k < 9 && g[k] + report[k] > U64_MAX {
      assert GaugeSum(longer, k) > U64_MAX;
    }
  }

  /** The gauges of all reports; a gauge that would not fit sets the flag. */
  method AddReports(reports: seq<Gauges>, saturated: bool) returns (g: Gauges, flag: bool)
    ensures Gauged(g, reports) && (flag <==> saturated || GaugeOverflows(reports))
  {
    g, flag := [0, 0, 0, 0, 0, 0, 0, 0, 0], saturated;
    for i := 0 to |reports|
      invariant Gauged(g, reports[..i]) && (flag <==> saturated || GaugeOverflows(reports[..i]))
    {
      ghost var before := g;
      g, flag := AddReport(g, reports[i], flag);
      GaugedStep(before, reports[..i], reports[i], g);
      assert reports[..i + 1] == reports[..i] + [reports[i]];
    }
    assert reports[..|reports|] == reports;
  }
}
