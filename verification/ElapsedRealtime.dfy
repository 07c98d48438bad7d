/** The elapsed-realtime estimate of gps/core/LocApiBase.cpp, proved against a reference
    that never looks at the wall clock. All times are in nanoseconds. */
module ElapsedRealtime {
  import opened Wrappers

  const SETTLING_FIXES := 5

  /** What a modem fix carries: its data time, whether that can be trusted, and the time
      between fixes (0 when unknown). */
  datatype Fix = Fix(dataTime: int, trusted: bool, tbf: int)

  /** The two system clocks, read together. */
  datatype Clocks = Clocks(utc: int, boot: int)

  // ----- The reference ------------------------------------------------------------------

  /** Either `left` more trusted fixes are let pass, or the estimate is anchored to the boot
      time and data time of one fix. */
  datatype Phase = Settling(left: nat) | Anchored(boot: int, dataTime: int)

  datatype Reference = Reference(phase: Phase, prevDataTime: int)

  predicate Jumps(prevDataTime: int, fix: Fix) {
    fix.trusted && fix.tbf > 0 && fix.tbf != fix.dataTime - prevDataTime
  }

  function NextPhase(phase: Phase, fix: Fix, boot: int): Phase {
    match phase
    case Settling(left) => if left > 0 then Settling(left - 1) else Anchored(boot, fix.dataTime)
    case Anchored(_, _) => phase
  }

  /** One fix; `boot` is None when the clocks could not be read. */
  function ReferenceStep(r: Reference, fix: Fix, boot: Option<int>): Reference {
    if boot.None? || !fix.trusted then r
    else
      var phase := if Jumps(r.prevDataTime, fix) then Settling(SETTLING_FIXES) else r.phase;
      Reference(NextPhase(phase, fix, boot.value), fix.dataTime)
  }

  /** The estimate: the data time elapsed since the anchor, else the boot time less a fixed
      travel time. */
  function ReferenceEstimate(r: Reference, travelTime: int, fix: Fix, boot: Option<int>): int {
    if boot.None? then -1
    else if fix.trusted && r.phase.Anchored? && !Jumps(r.prevDataTime, fix)
    then r.phase.boot - travelTime + (fix.dataTime - r.phase.dataTime)
    else boot.value - travelTime
  }

  function BootOnly(clocks: Option<Clocks>): Option<int> {
    if clocks.Some? then Some(clocks.value.boot) else None
  }

  // ----- The estimator ------------------------------------------------------------------

  class ElapsedRealtimeEstimator {
    const initialTravelTime: int
    var currentClockDiff: int
    var prevUtcTime: int
    var prevBootTime: int
    var prevDataTime: int
    var fixTimeStablizationThreshold: int
    ghost var reference: Reference

    /** The difference kept in `currentClockDiff`, less the wall clock's own offset, never
        changes while anchored: the updates telescope. */
    ghost predicate Valid()
      reads this
    {
      && reference.prevDataTime == prevDataTime
      && match reference.phase
         case Settling(left) => fixTimeStablizationThreshold == left
         case Anchored(boot, dataTime) =>
           && fixTimeStablizationThreshold < 0
           && currentClockDiff - (prevUtcTime - prevBootTime) == boot - dataTime - initialTravelTime
    }

    constructor (travelTimeEstimate: int)
      ensures Valid() && initialTravelTime == travelTimeEstimate
      ensures reference == Reference(Settling(SETTLING_FIXES), 0)
    {
      initialTravelTime := travelTimeEstimate;
      new;
      Reset();
    }

    method Reset()
      modifies this
      ensures Valid() && reference == Reference(Settling(SETTLING_FIXES), 0)
    {
      currentClockDiff := 0;
      prevDataTime := 0;
      prevUtcTime := 0;
      prevBootTime := 0;
      fixTimeStablizationThreshold := SETTLING_FIXES;
      reference := Reference(Settling(SETTLING_FIXES), 0);
    }

    method GetElapsedRealtimeEstimate(fix: Fix, clocks: Option<Clocks>) returns (estimate: int)
      requires Valid()
      modifies this
      ensures Valid()
      ensures reference == ReferenceStep(old(reference), fix, BootOnly(clocks))
      ensures estimate == ReferenceEstimate(old(reference), initialTravelTime, fix, BootOnly(clocks))
      ensures clocks.None? ==> estimate == -1
      ensures clocks.Some? && (!fix.trusted || old(fixTimeStablizationThreshold) >= 0
                               || (fix.tbf > 0 && fix.dataTime - old(prevDataTime) != fix.tbf)) ==>
                estimate == clocks.value.boot - initialTravelTime
      ensures clocks.Some? && fix.trusted && old(fixTimeStablizationThreshold) < 0
              && (fix.tbf <= 0 || fix.dataTime - old(prevDataTime) == fix.tbf) ==>
                estimate == fix.dataTime + old(currentClockDiff) - (old(prevUtcTime) - old(prevBootTime))
    {
      var currentTravelTime := initialTravelTime;
      if clocks.None? {
        return -1;
      }
      var utc, boot := clocks.value.utc, clocks.value.boot;
      if fix.trusted {
        if fix.tbf > 0 && fix.tbf != fix.dataTime - prevDataTime {
          fixTimeStablizationThreshold := SETTLING_FIXES;
        }
        if fixTimeStablizationThreshold == 0 {
          currentTravelTime := initialTravelTime;
          currentClockDiff := utc - fix.dataTime - currentTravelTime;
        } else if fixTimeStablizationThreshold < 0 {
          currentClockDiff := currentClockDiff + (utc - boot) - (prevUtcTime - prevBootTime);
          currentTravelTime := utc - fix.dataTime - currentClockDiff;
        }
        prevUtcTime := utc;
        prevBootTime := boot;
        prevDataTime := fix.dataTime;
        fixTimeStablizationThreshold := fixTimeStablizationThreshold - 1;
      }
      reference := ReferenceStep(reference, fix, BootOnly(clocks));
      return boot - currentTravelTime;
    }
  }

  // ----- Whole runs ---------------------------------------------------------------------

  datatype Report = Report(fix: Fix, clocks: Option<Clocks>)

  function ReferenceRun(r: Reference, reports: seq<Report>): Reference {
    if reports == [] then r
    else
      var last := reports[|reports| - 1];
      ReferenceStep(ReferenceRun(r, reports[..|reports| - 1]), last.fix, BootOnly(last.clocks))
  }

  /** The estimate for the last report of a run. */
  function LastEstimate(r: Reference, travelTime: int, reports: seq<Report>): int
    requires reports != []
  {
    var last := reports[|reports| - 1];
    ReferenceEstimate(ReferenceRun(r, reports[..|reports| - 1]), travelTime, last.fix, BootOnly(last.clocks))
  }

  /** Report `i` of the run is a trusted fix that jumps in data time; one whose clocks could not be
      read leaves the estimator alone. */
  predicate JumpsAt(r: Reference, reports: seq<Report>, i: nat)
    requires i < |reports|
  {
    reports[i].clocks.Some? && Jumps(ReferenceRun(r, reports[..i]).prevDataTime, reports[i].fix)
  }

  predicate NoJumps(r: Reference, reports: seq<Report>) {
    forall i :: 0 <= i < |reports| ==> !JumpsAt(r, reports, i)
  }

  lemma NoJumpsBefore(r: Reference, reports: seq<Report>)
    requires reports != [] && NoJumps(r, reports)
    ensures NoJumps(r, reports[..|reports| - 1])
  {
    var init := reports[..|reports| - 1];
    forall i | 0 <= i < |init| ensures !JumpsAt(r, init, i) {
      assert init[..i] == reports[..i];
      assert !JumpsAt(r, reports, i);
    }
  }

  /** The two runs differ in wall-clock readings only. */
  predicate SameButWallClock(a: seq<Report>, b: seq<Report>) {
    && |a| == |b|
    && forall i :: 0 <= i < |a| ==> a[i].fix == b[i].fix && BootOnly(a[i].clocks) == BootOnly(b[i].clocks)
  }

  const RESET := Reference(Settling(SETTLING_FIXES), 0)

  predicate Usable(report: Report) {
    report.fix.trusted && report.clocks.Some?
  }

  // ----- Runs from the reset, told from the reports --------------------------------------

  /** The data time of the last usable report, 0 if there is none. */
  function LastData(reports: seq<Report>): int {
    if reports == [] then 0
    else if Usable(reports[|reports| - 1]) then reports[|reports| - 1].fix.dataTime
    else LastData(reports[..|reports| - 1])
  }

  /** A usable report whose time between fixes is known and is not the step in data time. */
  predicate JumpsLast(reports: seq<Report>)
    requires reports != []
  {
    var last := reports[|reports| - 1];
    Usable(last) && last.fix.tbf > 0 && last.fix.dataTime - LastData(reports[..|reports| - 1]) != last.fix.tbf
  }

  /** The usable reports since the reset, or since the last jump, which counts itself. */
  function CalmFixes(reports: seq<Report>): nat {
    if reports == [] then 0
    else if JumpsLast(reports) then 1
    else CalmFixes(reports[..|reports| - 1]) + if Usable(reports[|reports| - 1]) then 1 else 0
  }

  /** The sixth of them. */
  function AnchorIndex(reports: seq<Report>): (a: nat)
    requires CalmFixes(reports) > SETTLING_FIXES
    ensures a < |reports| && Usable(reports[a])
  {
    var n := |reports| - 1;
    if CalmFixes(reports) == SETTLING_FIXES + 1 && Usable(reports[n]) then n else AnchorIndex(reports[..n])
  }

  /** The clocks and the data time that a run has settled on, if it has. */
  function PhaseFor(reports: seq<Report>): Phase {
    if CalmFixes(reports) <= SETTLING_FIXES then Settling(SETTLING_FIXES - CalmFixes(reports))
    else
      var anchor := reports[AnchorIndex(reports)];
      Anchored(anchor.clocks.value.boot, anchor.fix.dataTime)
  }

  lemma {:induction false} RunIsTold(reports: seq<Report>)
    ensures ReferenceRun(RESET, reports) == Reference(PhaseFor(reports), LastData(reports))
  {
    if reports != [] {
      RunIsTold(reports[..|reports| - 1]);
    }
  }

  lemma JumpsAreTold(reports: seq<Report>, i: nat)
    requires i < |reports|
    ensures JumpsAt(RESET, reports, i) <==> JumpsLast(reports[..i + 1])
  {
    assert reports[..i + 1][..i] == reports[..i];
    RunIsTold(reports[..i]);
  }

  /** What the estimate for the last report is: -1 without clocks; the boot time less the travel time
      for an untrusted fix and for the first six usable ones; from then on the sixth one's, moved on by
      data time. */
  ghost predicate IsDated(travelTime: int, reports: seq<Report>, estimate: int)
    requires reports != []
  {
    var last := reports[|reports| - 1];
    && (last.clocks.None? ==> estimate == -1)
    && (last.clocks.Some? && (!last.fix.trusted || CalmFixes(reports) <= SETTLING_FIXES + 1) ==>
        estimate == last.clocks.value.boot - travelTime)
    && (Usable(last) && CalmFixes(reports) > SETTLING_FIXES + 1 ==>
        var anchor := reports[AnchorIndex(reports)];
        estimate == anchor.clocks.value.boot - travelTime + (last.fix.dataTime - anchor.fix.dataTime))
  }

  lemma EstimateIsDated(travelTime: int, reports: seq<Report>)
    requires reports != []
    ensures IsDated(travelTime, reports, LastEstimate(RESET, travelTime, reports))
  {
    RunIsTold(reports[..|reports| - 1]);
  }

  /** In a run from the reset, settling starts with report `j`: at the beginning, at a jump, or
      wherever no fix has settled yet; the next fixes are usable, and no report up to `i` jumps. */
  predicate SettledSince(reports: seq<Report>, j: nat, i: nat)
    requires i < |reports|
  {
    && j + SETTLING_FIXES < i
    && (ReferenceRun(RESET, reports[..j]).phase == Settling(SETTLING_FIXES) || JumpsAt(RESET, reports, j))
    && (forall k :: j <= k <= j + SETTLING_FIXES ==> Usable(reports[k]))
    && (forall k :: j < k <= i ==> !JumpsAt(RESET, reports, k))
  }

  lemma {:induction false} SettlesThenAnchors(reports: seq<Report>, j: nat, i: nat, k: nat)
    requires i < |reports| && SettledSince(reports, j, i) && j < k <= i
    ensures ReferenceRun(RESET, reports[..k]).phase ==
            if k <= j + SETTLING_FIXES then Settling(SETTLING_FIXES - (k - j))
            else Anchored(reports[j + SETTLING_FIXES].clocks.value.boot, reports[j + SETTLING_FIXES].fix.dataTime)
    decreases k
  {
    assert reports[..k][..k - 1] == reports[..k - 1];
    if k > j + 1 {
      SettlesThenAnchors(reports, j, i, k - 1);
      assert !JumpsAt(RESET, reports, k - 1);
    } else {
      assert Usable(reports[j]);
    }
  }

  /** Once settled, a usable fix is dated from the sixth one by data time alone. */
  lemma SettledEstimates(travelTime: int, reports: seq<Report>, j: nat, i: nat)
    requires i < |reports| && SettledSince(reports, j, i) && Usable(reports[i])
    ensures LastEstimate(RESET, travelTime, reports[..i + 1]) ==
            reports[j + SETTLING_FIXES].clocks.value.boot - travelTime
            + (reports[i].fix.dataTime - reports[j + SETTLING_FIXES].fix.dataTime)
  {
    assert reports[..i + 1][..i] == reports[..i];
    SettlesThenAnchors(reports, j, i, i);
    assert !JumpsAt(RESET, reports, i);
  }

  /** Every estimate of a run from the reset is the reference's, and is dated as the reports tell; so,
      wherever settling started, each usable fix after it without a jump is dated by data time alone. */
  method Estimates(travelTime: int, reports: seq<Report>) returns (estimates: seq<int>)
    ensures |estimates| == |reports|
    ensures forall i :: 0 <= i < |reports| ==> estimates[i] == LastEstimate(RESET, travelTime, reports[..i + 1])
    ensures forall i :: 0 <= i < |reports| ==> IsDated(travelTime, reports[..i + 1], estimates[i])
    ensures forall j, i :: 0 <= j && 0 <= i < |reports| && SettledSince(reports, j, i) && Usable(reports[i]) ==>
              estimates[i] == reports[j + SETTLING_FIXES].clocks.value.boot - travelTime
                              + (reports[i].fix.dataTime - reports[j + SETTLING_FIXES].fix.dataTime)
  {
    var estimator := new ElapsedRealtimeEstimator(travelTime);
    ghost var start := RESET;
    estimates := [];
    for i := 0 to |reports|
      invariant fresh(estimator) && estimator.Valid() && estimator.initialTravelTime == travelTime
      invariant estimator.reference == ReferenceRun(start, reports[..i])
      invariant |estimates| == i
      invariant forall k :: 0 <= k < i ==> estimates[k] == LastEstimate(start, travelTime, reports[..k + 1])
    {
      assert reports[..i + 1][..i] == reports[..i];
      var estimate := estimator.GetElapsedRealtimeEstimate(reports[i].fix, reports[i].clocks);
      estimates := estimates + [estimate];
    }
    forall i | 0 <= i < |reports| ensures IsDated(travelTime, reports[..i + 1], estimates[i]) {
      EstimateIsDated(travelTime, reports[..i + 1]);
    }
    forall j, i | 0 <= j && 0 <= i < |reports| && SettledSince(reports, j, i) && Usable(reports[i])
      ensures estimates[i] == reports[j + SETTLING_FIXES].clocks.value.boot - travelTime
                              + (reports[i].fix.dataTime - reports[j + SETTLING_FIXES].fix.dataTime)
    {
      SettledEstimates(travelTime, reports, j, i);
    }
  }

  /** Stepping the wall clock never changes an estimate. */
  lemma {:induction false} WallClockIsIrrelevant(r: Reference, travelTime: int, a: seq<Report>, b: seq<Report>)
    requires SameButWallClock(a, b)
    ensures ReferenceRun(r, a) == ReferenceRun(r, b)
    ensures a != [] ==> LastEstimate(r, travelTime, a) == LastEstimate(r, travelTime, b)
  {
    if a != [] {
      WallClockIsIrrelevant(r, travelTime, a[..|a| - 1], b[..|b| - 1]);
    }
  }

  lemma {:induction false} AnchorStays(r: Reference, reports: seq<Report>)
    requires r.phase.Anchored? && NoJumps(r, reports)
    ensures ReferenceRun(r, reports).phase == r.phase
  {
    if reports != [] {
      var init := reports[..|reports| - 1];
      NoJumpsBefore(r, reports);
      assert !JumpsAt(r, reports, |reports| - 1);
      AnchorStays(r, init);
    }
  }

  /** After the anchor, every trusted fix without a jump is dated by data time alone, however
      many untrusted fixes and failed clock reads came between. */
  lemma AnchoredEstimates(boot0: int, data0: int, travelTime: int, reports: seq<Report>)
    requires reports != [] && NoJumps(Reference(Anchored(boot0, data0), data0), reports)
    ensures var last := reports[|reports| - 1];
            last.fix.trusted && last.clocks.Some? ==>
              LastEstimate(Reference(Anchored(boot0, data0), data0), travelTime, reports)
              == boot0 - travelTime + (last.fix.dataTime - data0)
  {
    var r := Reference(Anchored(boot0, data0), data0);
    var init := reports[..|reports| - 1];
    NoJumpsBefore(r, reports);
    assert !JumpsAt(r, reports, |reports| - 1);
    AnchorStays(r, init);
  }

  /** The sixth trusted fix in a row without a jump is the anchor. */
  lemma {:induction false} SettlesAfterFixes(r: Reference, reports: seq<Report>)
    requires r.phase.Settling? && NoJumps(r, reports)
    requires forall i :: 0 <= i < |reports| ==> reports[i].fix.trusted && reports[i].clocks.Some?
    ensures |reports| <= r.phase.left ==> ReferenceRun(r, reports).phase == Settling(r.phase.left - |reports|)
    ensures |reports| > r.phase.left ==>
              ReferenceRun(r, reports).phase ==
              Anchored(reports[r.phase.left].clocks.value.boot, reports[r.phase.left].fix.dataTime)
  {
    if reports != [] {
      var init := reports[..|reports| - 1];
      NoJumpsBefore(r, reports);
      assert !JumpsAt(r, reports, |reports| - 1);
      SettlesAfterFixes(r, init);
    }
  }
}
