/**
 The statistics pins of lcec_read_master: the aggregated working counter with its minimum and its
 change count, and the DC synchrony flag with its tolerance for missed datagrams.
 */
module BusStats {
  import opened CInt

  const DC_SYNC_MISS_MAX := 10

  datatype WcState = Zero | Incomplete | Complete

  /** What one domain reports, and what the master publishes. */
  datatype DomainState = DomainState(workingCounter: nat, wcState: WcState)

  // --- aggregation over the Sync Units ---

  function SumCounters(domains: seq<DomainState>): nat {
    if domains == [] then 0 else SumCounters(domains[..|domains| - 1]) + domains[|domains| - 1].workingCounter
  }

  /** The state of the whole process image: complete iff every domain is, zero iff none moved and not all complete. */
  ghost predicate IsAggregate(r: DomainState, domains: seq<DomainState>) {
    && r.workingCounter == U32(SumCounters(domains))
    && (r.wcState == Complete <==> forall d :: d in domains ==> d.wcState == Complete)
    && (r.wcState == Zero <==> domains != [] && forall d :: d in domains ==> d.wcState == Zero)
  }

  method Aggregate(domains: seq<DomainState>) returns (r: DomainState)
    ensures IsAggregate(r, domains)
  {
    var allZero, allComplete := true, true;
    var counter := 0;
    for i := 0 to |domains|
      invariant counter == U32(SumCounters(domains[..i]))
      invariant allZero <==> forall j :: 0 <= j < i ==> domains[j].wcState == Zero
      invariant allComplete <==> forall j :: 0 <= j < i ==> domains[j].wcState == Complete
    {
      assert domains[..i + 1][..i] == domains[..i];
      AddWrapped(SumCounters(domains[..i]), domains[i].workingCounter);
      counter := U32(counter + domains[i].workingCounter);
      if domains[i].wcState != Zero {
        allZero := false;
      }
      if domains[i].wcState != Complete {
        allComplete := false;
      }
    }
    assert domains[..|domains|] == domains;
    if domains != [] {
      assert domains[0] in domains;
    }
    r := DomainState(counter, if allComplete then Complete else if allZero then Zero else Incomplete);
  }

  lemma AddWrapped(a: int, b: int)
    ensures U32(U32(a) + b) == U32(a + b)
  {
  }

  // --- working-counter statistics ---

  datatype WkcStats = WkcStats(last: nat, min: nat, changes: nat, fullSeen: bool)

  /** One read: an optional reset, then the new value. */
  function WkcStep(s: WkcStats, now: DomainState, reset: bool): WkcStats {
    var z := if reset then s.(fullSeen := false, min := 0, changes := 0) else s;
    var t :=
      if !z.fullSeen then
        if now.wcState == Complete then z.(fullSeen := true, min := now.workingCounter, changes := 0) else z
      else
        z.(min := Min(now.workingCounter, z.min),
           changes := if now.workingCounter != z.last then U32(z.changes + 1) else z.changes);
    t.(last := now.workingCounter)
  }

  /** One read as the outside sees it. */
  datatype Sample = Sample(state: DomainState, reset: bool)

  function WkcRun(s: WkcStats, samples: seq<Sample>): WkcStats
    decreases |samples|
  {
    if samples == [] then s
    else
      var x := samples[|samples| - 1];
      WkcStep(WkcRun(s, samples[..|samples| - 1]), x.state, x.reset)
  }

  /** The read from which the statistics count: the first complete one since the last reset, or the end. */
  function Anchor(samples: seq<Sample>): nat
    ensures Anchor(samples) <= |samples|
    decreases |samples|
  {
    if samples == [] then 0
    else
      var n := |samples|;
      var before := Anchor(samples[..n - 1]);
      if !samples[n - 1].reset && before < n - 1 then before
      else if samples[n - 1].state.wcState == Complete then n - 1
      else n
  }

  function MinFrom(samples: seq<Sample>, i: nat): nat
    requires i < |samples|
    decreases |samples| - i
  {
    var w := samples[i].state.workingCounter;
    if i == |samples| - 1 then w else Min(w, MinFrom(samples, i + 1))
  }

  lemma {:induction false} MinFromIsLeast(samples: seq<Sample>, i: nat)
    requires i < |samples|
    ensures forall j :: i <= j < |samples| ==> MinFrom(samples, i) <= samples[j].state.workingCounter
    ensures exists j :: i <= j < |samples| && MinFrom(samples, i) == samples[j].state.workingCounter
    decreases |samples| - i
  {
    if i < |samples| - 1 {
      MinFromIsLeast(samples, i + 1);
    } else {
      assert MinFrom(samples, i) == samples[i].state.workingCounter;
    }
  }

  /** The number of adjacent changes from sample i on. */
  function ChangesFrom(samples: seq<Sample>, i: nat): nat
    requires i < |samples|
    decreases |samples| - i
  {
    if i == |samples| - 1 then 0
    else
      (if samples[i].state.workingCounter != samples[i + 1].state.workingCounter then 1 else 0)
      + ChangesFrom(samples, i + 1)
  }

  lemma {:induction false} FromExtends(samples: seq<Sample>, x: Sample, i: nat)
    requires i < |samples|
    ensures MinFrom(samples + [x], i) == Min(MinFrom(samples, i), x.state.workingCounter)
    ensures ChangesFrom(samples + [x], i) == ChangesFrom(samples, i)
         + (if samples[|samples| - 1].state.workingCounter != x.state.workingCounter then 1 else 0)
    decreases |samples| - i
  {
    if i < |samples| - 1 {
      FromExtends(samples, x, i + 1);
    } else {
      assert MinFrom(samples + [x], i + 1) == x.state.workingCounter;
    }
  }

  /** The read of the last reset, or the first read. */
  function Since(samples: seq<Sample>): (r: nat)
    ensures r < |samples| || r == 0
    decreases |samples|
  {
    if samples == [] then 0
    else if samples[|samples| - 1].reset then |samples| - 1
    else Since(samples[..|samples| - 1])
  }

  /** The anchor is the first complete exchange from the last reset on. */
  lemma {:induction false} AnchorIsFirstComplete(samples: seq<Sample>)
    ensures forall i :: Since(samples) < i < |samples| ==> !samples[i].reset
    ensures 0 < Since(samples) ==> samples[Since(samples)].reset
    ensures Since(samples) <= Anchor(samples)
    ensures Anchor(samples) < |samples| ==> samples[Anchor(samples)].state.wcState == Complete
    ensures forall i :: Since(samples) <= i < Anchor(samples) ==> samples[i].state.wcState != Complete
    decreases |samples|
  {
    if samples != [] {
      AnchorIsFirstComplete(samples[..|samples| - 1]);
    }
  }

  /** The pins agree with the history since the last reset, whatever the run. */
  lemma {:induction false} StatsAgreeWithHistory(s: WkcStats, samples: seq<Sample>)
    requires !s.fullSeen && s.min == 0 && s.changes == 0
    ensures var r, a := WkcRun(s, samples), Anchor(samples);
            && (samples != [] ==> r.last == samples[|samples| - 1].state.workingCounter)
            && (r.fullSeen <==> a < |samples|)
            && r.min == (if a < |samples| then MinFrom(samples, a) else 0)
            && r.changes == (if a < |samples| then U32(ChangesFrom(samples, a)) else 0)
            // the minimum is the least working counter since the anchor
            && (a < |samples| ==>
              && (forall j :: a <= j < |samples| ==> r.min <= samples[j].state.workingCounter)
              && exists j :: a <= j < |samples| && r.min == samples[j].state.workingCounter)
    decreases |samples|
  {
    if Anchor(samples) < |samples| {
      MinFromIsLeast(samples, Anchor(samples));
    }
    if samples != [] {
      var n := |samples|;
      var before, x := samples[..n - 1], samples[n - 1];
      StatsAgreeWithHistory(s, before);
      assert before + [x] == samples;
      var a := Anchor(before);
      if !x.reset && a < n - 1 {
        FromExtends(before, x, a);
        AddWrapped(ChangesFrom(before, a), 1);
      }
    }
  }

  // --- DC synchrony ---

  datatype DcSync = DcSync(diff: int, converged: bool, missCnt: nat)

  const NO_RESPONSE := 0xffff_ffff

  /** One read of the monitor datagram. */
  datatype Reading = Reading(diff: int, limit: int) {
    predicate Answered() {
      diff != NO_RESPONSE
    }

    predicate BelowLimit() {
      Answered() && diff < limit
    }
  }

  /** One read with the monitor enabled. */
  function DcStep(s: DcSync, r: Reading): DcSync {
    if r.Answered() then DcSync(r.diff, r.diff < r.limit, 0)
    else if s.missCnt < DC_SYNC_MISS_MAX then s.(missCnt := s.missCnt + 1)
    else s.(converged := false, diff := NO_RESPONSE)
  }

  function DcRun(s: DcSync, readings: seq<Reading>): DcSync
    decreases |readings|
  {
    if readings == [] then s
    else DcStep(DcRun(s, readings[..|readings| - 1]), readings[|readings| - 1])
  }

  /** The latest answered reading, or the end when there is none. */
  function LastAnswer(readings: seq<Reading>): nat
    ensures LastAnswer(readings) <= |readings|
    decreases |readings|
  {
    if readings == [] then 0
    else
      var n := |readings|;
      if readings[n - 1].Answered() then n - 1
      else
        var before := LastAnswer(readings[..n - 1]);
        if before == n - 1 then n else before
  }

  lemma {:induction false} LastAnswerIsLast(readings: seq<Reading>)
    ensures var k := LastAnswer(readings);
            && (k < |readings| ==> readings[k].Answered() && forall i :: k < i < |readings| ==> !readings[i].Answered())
            && (k == |readings| ==> forall i :: 0 <= i < |readings| ==> !readings[i].Answered())
    decreases |readings|
  {
    if readings != [] {
      LastAnswerIsLast(readings[..|readings| - 1]);
    }
  }

  /**
   While the monitor stays enabled, dc-sync-converged is set exactly when the latest response came
   within the current and the previous ten reads and was below the limit of its read.
   */
  lemma {:induction false} ConvergedIsRecent(s: DcSync, readings: seq<Reading>)
    requires !s.converged && s.missCnt == 0
    ensures var r, n, k := DcRun(s, readings), |readings|, LastAnswer(readings);
            && (r.converged <==> k < n && n - 1 - k <= DC_SYNC_MISS_MAX && readings[k].BelowLimit())
            && var missed := if k < n then n - 1 - k else n;
               && r.missCnt == Min(missed, DC_SYNC_MISS_MAX)
               // the difference shown is the latest one, or that there is none
               && r.diff == (
                 if missed > DC_SYNC_MISS_MAX then NO_RESPONSE else if k < n then readings[k].diff else s.diff)
    decreases |readings|
  {
    if readings != [] {
      ConvergedIsRecent(s, readings[..|readings| - 1]);
    }
  }

  // --- the pins ---

  class BusMonitor {
    var wkc: nat
    var wkcState: WcState
    var wkcMin: nat
    var wkcChanges: nat
    var wkcReset: bool
    var wkcLast: nat
    var wkcFullSeen: bool
    var dcSyncDiff: int
    var dcSyncConverged: bool
    var dcSyncMissCnt: nat
    var dcSyncMax: int
    var dcSyncMonitor: bool

    function Wkc(): WkcStats
      reads this
    {
      WkcStats(wkcLast, wkcMin, wkcChanges, wkcFullSeen)
    }

    function Dc(): DcSync
      reads this
    {
      DcSync(dcSyncDiff, dcSyncConverged, dcSyncMissCnt)
    }

    constructor (period: nat)
      ensures Wkc() == WkcStats(0, 0, 0, false) && Dc() == DcSync(0, false, 0)
      ensures dcSyncMonitor && dcSyncMax == if period != 0 then period / 25 else 10000
    {
      wkc, wkcState, wkcMin, wkcChanges, wkcReset, wkcLast, wkcFullSeen := 0, Zero, 0, 0, false, 0, false;
      dcSyncDiff, dcSyncConverged, dcSyncMissCnt := 0, false, 0;
      dcSyncMax := if period != 0 then period / 25 else 10000;
      dcSyncMonitor := true;
    }

    /** The pin updates of one read. */
    method Update(domain: DomainState, dcDiff: int)
      modifies this
      ensures Wkc() == WkcStep(old(Wkc()), domain, old(wkcReset))
      ensures wkc == domain.workingCounter && wkcState == domain.wcState && !wkcReset
      ensures Dc() == if old(dcSyncMonitor) then DcStep(old(Dc()), Reading(dcDiff, old(dcSyncMax))) else old(Dc())
      ensures dcSyncMonitor == old(dcSyncMonitor) && dcSyncMax == old(dcSyncMax)
      // an answer is shown and judged at once; without one the pins stay, up to ten reads, and then say so
      ensures old(dcSyncMonitor) && dcDiff != 0xffff_ffff ==>
        dcSyncDiff == dcDiff && dcSyncConverged == (dcDiff < dcSyncMax) && dcSyncMissCnt == 0
      ensures old(dcSyncMonitor) && dcDiff == 0xffff_ffff ==>
        if old(dcSyncMissCnt) < 10 then dcSyncDiff == old(dcSyncDiff) && dcSyncConverged == old(dcSyncConverged)
        else dcSyncDiff == 0xffff_ffff && !dcSyncConverged
    {
      UpdateWkc(domain);
      if dcSyncMonitor {
        if dcDiff != NO_RESPONSE {
          dcSyncMissCnt := 0;
          dcSyncDiff := dcDiff;
          dcSyncConverged := dcDiff < dcSyncMax;
        } else if dcSyncMissCnt < DC_SYNC_MISS_MAX {
          dcSyncMissCnt := dcSyncMissCnt + 1;
        } else {
          dcSyncConverged := false;
          dcSyncDiff := NO_RESPONSE;
        }
      }
    }

    method UpdateWkc(domain: DomainState)
      modifies this`wkc, this`wkcState, this`wkcMin, this`wkcChanges, this`wkcReset, this`wkcLast, this`wkcFullSeen
      ensures Wkc() == WkcStep(old(Wkc()), domain, old(wkcReset))
      ensures wkc == domain.workingCounter && wkcState == domain.wcState && !wkcReset
    {
      var now := domain.workingCounter;
      if wkcReset {
        wkcReset := false;
        wkcFullSeen := false;
        wkcMin := 0;
        wkcChanges := 0;
      }
      wkc := now;
      wkcState := domain.wcState;
      if !wkcFullSeen {
        if domain.wcState == Complete {
          wkcFullSeen := true;
          wkcMin := now;
          wkcChanges := 0;
        }
      } else {
        if now < wkcMin {
          wkcMin := now;
        }
        if now != wkcLast {
          wkcChanges := U32(wkcChanges + 1);
        }
      }
      wkcLast := now;
    }
  }
}
