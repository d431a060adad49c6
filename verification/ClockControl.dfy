/**
 The whole clock section of lcec_write_master: the application time, the mode switch and the
 reference-clock branch, as an object; and the proof that an undisturbed run of it is the abstract
 drifting offset of the Clock module.
 */
module ClockControl {
  import opened CInt
  import opened Clock

  /** What one write reads from outside: times, pins and parameters. */
  datatype Env = Env(
    now: int, ref: int, hostPeriod: int, dcTime: int, dcValid: bool,
    driftMode: int, pllDrift: int, pllStep: nat, pllMaxErr: nat)

  /** The constants fixed at activation. */
  datatype Base = Base(appTimeBase: int, dcRefTime: int, syncRefCycles: nat)

  function AppTime(c: ClockState, cfg: Config, b: Base, e: Env): int {
    if cfg.syncToRef then U64(b.appTimeBase + c.dcRef + (e.now - e.ref)) else U64(b.appTimeBase + e.now)
  }

  /** The position of this write within the local cycle since activation. */
  function AppPhase(appTime: int, b: Base, cfg: Config): (r: int)
    requires cfg.Valid()
    ensures 0 <= r < cfg.period
  {
    U64(appTime - b.dcRefTime) % cfg.period
  }

  function DcValid(cfg: Config, b: Base, e: Env): bool {
    (cfg.syncToRef || b.syncRefCycles > 0) && e.dcValid
  }

  function RawOffset(c: ClockState, e: Env): int {
    S32(c.appTimeLast - e.dcTime)
  }

  /** Two successive valid readings are needed before the offset is used. */
  predicate Observed(c: ClockState, cfg: Config, b: Base, e: Env) {
    cfg.syncToRef && DcValid(cfg, b, e) && c.validLast
  }

  predicate ResyncsNow(c: ClockState, cfg: Config, b: Base, e: Env)
    requires cfg.Valid()
  {
    Observed(c, cfg, b, e) && Trips(RawOffset(c, e), cfg, e.pllMaxErr)
  }

  /** The drift compensation of mode 0 starts after a delay. */
  function Drift(c: ClockState, cfg: Config, phase: int, e: Env): int
    requires cfg.Valid()
  {
    if e.driftMode == 0 && c.autoDriftDelay <= 0 then (cfg.period - phase) % cfg.period else 0
  }

  /** The folded error and the lock pin for a raw offset. */
  function Judge(c: ClockState, cfg: Config, phase: int, raw: int, e: Env): ClockState
    requires cfg.Valid()
  {
    var err := FoldTwice(S32(raw + Drift(c, cfg, phase, e)), cfg);
    c.(pllErr := err, dcPhased := AbsInt(err) < cfg.period / 10,
       autoDriftDelay := if e.driftMode == 0 && c.autoDriftDelay > 0 then c.autoDriftDelay - 1 else c.autoDriftDelay)
  }

  /** Resynchronise beyond the limit, steer by one step within it. */
  function Act(c: ClockState, cfg: Config, raw: int, e: Env): ClockState
    requires cfg.Valid()
  {
    if Trips(raw, cfg, e.pllMaxErr) then
      c.(dcRef := U64(c.dcRef - ResyncCorr(raw, cfg)), validLast := false, resetCnt := U32(c.resetCnt + 1),
         autoDriftDelay := if e.driftMode == 0 then AUTO_DRIFT_DELAY else c.autoDriftDelay)
    else
      c.(pllOut := if c.pllErr < 0 then S32(0 - e.pllStep) else S32(e.pllStep))
  }

  /** The branch for two valid readings with syncToRefClock on. */
  function FollowRef(c: ClockState, cfg: Config, phase: int, raw: int, e: Env): ClockState
    requires cfg.Valid()
  {
    Act(Judge(c, cfg, phase, raw, e), cfg, raw, e)
  }

  /** One write. */
  function ControlStep(c: ClockState, cfg: Config, b: Base, e: Env): ClockState
    requires cfg.Valid()
  {
    var appTime := AppTime(c, cfg, b, e);
    var phase := AppPhase(appTime, b, cfg);
    var valid := DcValid(cfg, b, e);
    var d :=
      if !cfg.syncToRef then
        PhaseStep(c.(validLast := valid), cfg, phase, e.pllStep)
      else
        var z := c.(pllErr := 0, pllOut := 0, dcRef := U64(c.dcRef + e.hostPeriod), validLast := valid);
        if Observed(c, cfg, b, e) then FollowRef(z, cfg, phase, RawOffset(c, e), e) else z.(dcPhased := false);
    d.(appTimeLast := U32(appTime))
  }

  function Correction(d: ClockState, cfg: Config, e: Env): int {
    if cfg.syncToRef then S32(d.pllOut + e.pllDrift) else PhaseCorrection(d, e.pllDrift)
  }

  // --- the object ---

  class ClockController {
    const cfg: Config
    const base: Base
    var measureCnt: int
    var phaseMin: int
    var phaseMax: int
    var phaseLast: int
    var jitter: int
    var target: int
    var calibrated: bool
    var locked: bool
    var lockCnt: int
    var unlockCnt: int
    var dcRef: int
    var appTimeLast: int
    var validLast: bool
    var autoDriftDelay: int
    var resetCnt: int
    var dcPhased: bool
    var pllErr: int
    var pllOut: int

    function State(): ClockState
      reads this
    {
      ClockState(measureCnt, phaseMin, phaseMax, phaseLast, jitter, target, calibrated, locked, lockCnt, unlockCnt,
        dcRef, appTimeLast, validLast, autoDriftDelay, resetCnt, dcPhased, pllErr, pllOut)
    }

    constructor (cfg: Config, base: Base)
      requires cfg.Valid()
      ensures this.cfg == cfg && this.base == base
      ensures State() == ClockState(0, 0, 0, 0, 0, 0, false, false, 0, 0, 0, 0, false, AUTO_DRIFT_DELAY, 0, false, 0, 0)
    {
      this.cfg, this.base := cfg, base;
      measureCnt, phaseMin, phaseMax, phaseLast, jitter, target := 0, 0, 0, 0, 0, 0;
      calibrated, locked, lockCnt, unlockCnt := false, false, 0, 0;
      dcRef, appTimeLast, validLast, autoDriftDelay, resetCnt := 0, 0, false, AUTO_DRIFT_DELAY, 0;
      dcPhased, pllErr, pllOut := false, 0, 0;
    }

    method UnwrapPhase(phase: int) returns (adjusted: int)
      requires cfg.Valid()
      ensures adjusted == Unwrap(cfg, phase, phaseLast)
    {
      var diff := phase - phaseLast;
      adjusted := phase;
      if diff > cfg.period / 2 {
        adjusted := phase - cfg.period;
      } else if diff < -(cfg.period / 2) {
        adjusted := phase + cfg.period;
      }
    }

    method ExtendRange(adjusted: int)
      modifies this`phaseMin, this`phaseMax
      ensures phaseMin == Min(adjusted, old(phaseMin)) && phaseMax == Max(old(phaseMax), adjusted)
    {
      if adjusted < phaseMin {
        phaseMin := adjusted;
      }
      if adjusted > phaseMax {
        phaseMax := adjusted;
      }
    }

    method FixTarget()
      requires cfg.Valid()
      modifies this`jitter, this`target, this`calibrated, this`locked, this`lockCnt, this`unlockCnt
      ensures jitter == phaseMax - phaseMin && target == Min(jitter + Quot(jitter, 2), cfg.period / 8)
      ensures calibrated && !locked && lockCnt == 0 && unlockCnt == 0
    {
      jitter := phaseMax - phaseMin;
      target := jitter + Quot(jitter, 2);
      var maxTarget := cfg.period / 8;
      if target > maxTarget {
        target := maxTarget;
      }
      calibrated := true;
      locked := false;
      lockCnt := 0;
      unlockCnt := 0;
    }

    method MeasurePhase(phase: int)
      requires cfg.Valid()
      modifies this
      ensures State() == Measure(old(State()), cfg, phase)
      ensures !dcPhased && pllErr == old(pllErr) && pllOut == old(pllOut)
    {
      hide Unwrap, Min, Max, Quot;
      dcPhased := false;
      if measureCnt == 0 {
        phaseMin := phase;
        phaseMax := phase;
        phaseLast := phase;
        measureCnt := 1;
      } else if measureCnt < PHASE_MEASURE_CYCLES {
        var adjusted := UnwrapPhase(phase);
        ExtendRange(adjusted);
        phaseLast := phase;
        measureCnt := measureCnt + 1;
      } else {
        FixTarget();
      }
    }

    method TrackPhase(phase: int, step: nat)
      requires cfg.Valid()
      modifies this
      ensures State() == Track(old(State()), cfg, phase, step)
    {
      hide Dwell, LockedAfter, S32;
      ghost var c := State();
      Steer(phase, step);
      DwellOverwritesLock(c.(pllErr := pllErr, pllOut := pllOut), cfg, locked);
      ApplyDwell();
    }

    /** The lock with hysteresis and the bang-bang output. */
    method Steer(phase: int, step: nat)
      requires cfg.Valid()
      modifies this`pllErr, this`locked, this`pllOut
      ensures pllErr == phase - target && locked == LockedAfter(cfg, old(locked), pllErr)
      ensures locked ==
        if AbsInt(pllErr) < cfg.period / 100 then true
        else if AbsInt(pllErr) > cfg.period / 20 then false else old(locked)
      ensures pllOut == if locked then 0
                        else if pllErr == 0 then old(pllOut)
                        else if pllErr > 0 then S32(0 - step) else S32(step)
    {
      hide S32;
      var phaseError := phase - target;
      pllErr := phaseError;
      if AbsInt(phaseError) < cfg.period / 100 {
        locked := true;
      } else if AbsInt(phaseError) > cfg.period / 20 {
        locked := false;
      }
      if locked {
        pllOut := 0;
      } else {
        if phaseError > 0 {
          pllOut := S32(0 - step);
        } else if phaseError < 0 {
          pllOut := S32(step);
        }
      }
    }

    method ApplyDwell()
      modifies this
      ensures State() == Dwell(old(State()), cfg, old(locked))
    {
      if locked {
        unlockCnt := 0;
        if lockCnt < cfg.dwell {
          lockCnt := lockCnt + 1;
        } else {
          dcPhased := true;
        }
      } else {
        lockCnt := 0;
        if unlockCnt < cfg.dwell {
          unlockCnt := unlockCnt + 1;
        } else {
          dcPhased := false;
        }
      }
    }

    method FoldError(e: int) returns (folded: int)
      requires cfg.Valid()
      ensures folded == Fold(e, cfg)
    {
      folded := e;
      if folded > cfg.period / 2 {
        folded := folded - cfg.period;
      } else if folded < -(cfg.period / 2) {
        folded := folded + cfg.period;
      }
    }

    method CompensateDrift(phase: int, e: Env) returns (drift: int)
      requires cfg.Valid()
      modifies this`autoDriftDelay
      ensures drift == Drift(old(State()), cfg, phase, e)
      ensures autoDriftDelay ==
        if e.driftMode == 0 && old(autoDriftDelay) > 0 then old(autoDriftDelay) - 1 else old(autoDriftDelay)
    {
      drift := 0;
      if e.driftMode == 0 {
        var calcVal := (cfg.period - phase) % cfg.period;
        if autoDriftDelay > 0 {
          autoDriftDelay := autoDriftDelay - 1;
        } else {
          drift := calcVal;
        }
      }
    }

    method NearestPeriods(raw: int) returns (corr: int)
      requires cfg.Valid()
      ensures corr == ResyncCorr(raw, cfg)
    {
      if raw >= 0 {
        corr := (raw + cfg.period / 2) / cfg.period * cfg.period;
      } else {
        corr := -((-raw + cfg.period / 2) / cfg.period * cfg.period);
      }
      if corr == 0 {
        corr := raw;
      }
    }

    method ExceedsLimit(raw: int, maxErr: nat) returns (trips: bool)
      requires cfg.Valid()
      ensures trips == Trips(raw, cfg, maxErr) == (S32(AbsInt(raw)) > Min(maxErr, cfg.period / 2))
    {
      var threshold: int := maxErr;
      if threshold > cfg.period / 2 {
        threshold := cfg.period / 2;
      }
      trips := S32(AbsInt(raw)) > threshold;
    }

    method FollowReference(phase: int, raw: int, e: Env)
      requires cfg.Valid()
      modifies this
      ensures State() == FollowRef(old(State()), cfg, phase, raw, e)
    {
      hide Fold, Drift, S32, Act;
      var drift := CompensateDrift(phase, e);
      pllErr := FoldError(S32(raw + drift));
      pllErr := FoldError(pllErr);
      dcPhased := AbsInt(pllErr) < cfg.period / 10;
      ResyncOrSteer(raw, e);
    }

    method ResyncOrSteer(raw: int, e: Env)
      requires cfg.Valid()
      modifies this
      ensures State() == Act(old(State()), cfg, raw, e)
      // within the limit the output is one step against the error, and nothing else changes
      ensures S32(AbsInt(raw)) <= Min(e.pllMaxErr, cfg.period / 2) ==>
        State() == old(State()).(pllOut := if old(pllErr) < 0 then S32(0 - e.pllStep) else S32(e.pllStep))
    {
      hide ResyncCorr, Trips, S32, U32, U64;
      var trips := ExceedsLimit(raw, e.pllMaxErr);
      if trips {
        var corr := NearestPeriods(raw);
        dcRef := U64(dcRef - corr);
        validLast := false;
        resetCnt := U32(resetCnt + 1);
        if e.driftMode == 0 {
          autoDriftDelay := AUTO_DRIFT_DELAY;
        }
      } else {
        pllOut := if pllErr < 0 then S32(0 - e.pllStep) else S32(e.pllStep);
      }
    }

    /** The section that runs with syncToRefClock off. */
    method ControlPhase(phase: int, step: nat)
      requires cfg.Valid()
      modifies this
      ensures State() == PhaseStep(old(State()), cfg, phase, step)
      // no output while measuring, nor after a clean activation
      ensures !old(calibrated) ==> pllErr == 0 && pllOut == 0 && !dcPhased
      ensures old(calibrated) && cfg.initf ==> pllErr == 0 && pllOut == 0 && dcPhased
    {
      hide Measure, Track;
      pllErr := 0;
      pllOut := 0;
      if !calibrated {
        MeasurePhase(phase);
      } else if !cfg.initf {
        TrackPhase(phase, step);
      } else {
        pllOut := 0;
        dcPhased := true;
      }
    }

    /** The section that runs with syncToRefClock on. */
    method ControlReference(phase: int, raw: int, observed: bool, e: Env)
      requires cfg.Valid()
      modifies this
      ensures var z := old(State()).(pllErr := 0, pllOut := 0);
              State() == if observed then FollowRef(z, cfg, phase, raw, e) else z.(dcPhased := false)
      ensures !observed ==> pllErr == 0 && pllOut == 0 && !dcPhased
    {
      hide FollowRef;
      pllErr := 0;
      pllOut := 0;
      if observed {
        FollowReference(phase, raw, e);
      } else {
        dcPhased := false;
      }
    }

    /** The clock section of lcec_write_master. */
    method Control(e: Env) returns (correction: int)
      requires cfg.Valid()
      modifies this
      ensures State() == ControlStep(old(State()), cfg, base, e)
      ensures correction == Correction(State(), cfg, e)
      ensures correction == if !cfg.syncToRef && locked then e.pllDrift else S32(pllOut + e.pllDrift)
      // without two valid readings in a row the reference clock is not followed
      ensures cfg.syncToRef && !(e.dcValid && old(validLast)) ==> pllErr == 0 && pllOut == 0 && !dcPhased
      ensures !cfg.syncToRef && !old(calibrated) ==> pllErr == 0 && pllOut == 0 && !dcPhased
      ensures !cfg.syncToRef && old(calibrated) && cfg.initf ==> pllErr == 0 && pllOut == 0 && dcPhased
    {
      hide FollowRef, PhaseStep, AppPhase, U64, U32, S32;
      var dcTimeValid := (cfg.syncToRef || base.syncRefCycles > 0) && e.dcValid;
      var observed := dcTimeValid && validLast;
      var appTime;
      if !cfg.syncToRef {
        appTime := U64(base.appTimeBase + e.now);
        validLast := dcTimeValid;
        ControlPhase(AppPhase(appTime, base, cfg), e.pllStep);
        correction := PhaseCorrection(State(), e.pllDrift);
      } else {
        appTime := U64(base.appTimeBase + dcRef + (e.now - e.ref));
        dcRef := U64(dcRef + e.hostPeriod);
        validLast := dcTimeValid;
        ControlReference(AppPhase(appTime, base, cfg), S32(appTimeLast - e.dcTime), observed, e);
        correction := S32(pllOut + e.pllDrift);
      }
      appTimeLast := U32(appTime);
    }
  }

  // --- resyncs ---

  /** Whatever the inputs, two successive writes never both resync. */
  lemma NoConsecutiveResyncs(c: ClockState, cfg: Config, b: Base, e: Env, f: Env)
    requires cfg.Valid() && ResyncsNow(c, cfg, b, e)
    ensures !ResyncsNow(ControlStep(c, cfg, b, e), cfg, b, f)
  {
  }

  /**
   The controller whose clocks nobody disturbs: the thread keeps its place in the cycle (now - ref
   stays k), the DC clock reads d and advances by one period, and the offset is what the drifting
   model says.
   */
  ghost predicate Undisturbed(c: ClockState, cfg: Config, b: Base, k: int, d: int, m: Drifting) {
    && S32(b.appTimeBase + c.dcRef + k - (d + cfg.period)) == m.offset
    && c.validLast == !m.skip
    && (!m.skip ==> S32(c.appTimeLast - d) == m.offset)
  }

  ghost predicate UndisturbedEnv(e: Env, cfg: Config, k: int, d: int, maxErr: nat) {
    e.now - e.ref == k && e.hostPeriod == cfg.period && e.dcValid && e.dcTime == U32(d) && e.pllMaxErr == maxErr
  }

  lemma S32Unique(a: int, b: int)
    requires Congruent(a, b, TWO_32)
    ensures S32(a) == S32(b)
  {
  }

  /** Intermediate wrapping to 32 or 64 bits does not change a difference taken modulo 2^32. */
  lemma WrapInside(x: int, y: int)
    ensures S32(U32(x) - U32(y)) == S32(x - y) == S32(x - U32(y)) == S32(U32(x) - y) == S32(U64(x) - y)
    ensures S32(U32(U64(x)) - y) == S32(x - y)
  {
    U32Congruent(x);
    U32Congruent(y);
    U64Congruent(x);
    U32Congruent(U64(x));
    CongruentFactor(U64(x), x, TWO_32, TWO_32);
    CongruentTrans(U32(U64(x)), U64(x), x, TWO_32);
    CongruentRefl(x, TWO_32);
    CongruentRefl(y, TWO_32);
    CongruentAdd(U32(x), x, U32(y), y, TWO_32);
    CongruentAdd(x, x, U32(y), y, TWO_32);
    CongruentAdd(U32(x), x, y, y, TWO_32);
    CongruentAdd(U64(x), x, y, y, TWO_32);
    CongruentAdd(U32(U64(x)), x, y, y, TWO_32);
    S32Unique(U32(x) - U32(y), x - y);
    S32Unique(x - U32(y), x - y);
    S32Unique(U32(x) - y, x - y);
    S32Unique(U64(x) - y, x - y);
    S32Unique(U32(U64(x)) - y, x - y);
  }

  /** The fields of a write that matter to the offset, with syncToRefClock on. */
  lemma RefFields(c: ClockState, cfg: Config, b: Base, e: Env)
    requires cfg.Valid() && cfg.syncToRef && e.dcValid
    ensures var r, moved := ControlStep(c, cfg, b, e), U64(c.dcRef + e.hostPeriod);
            && r.appTimeLast == U32(U64(b.appTimeBase + c.dcRef + (e.now - e.ref)))
            && (if ResyncsNow(c, cfg, b, e)
                then r.dcRef == U64(moved - ResyncCorr(RawOffset(c, e), cfg)) && !r.validLast
                  && r.resetCnt == U32(c.resetCnt + 1)
                else r.dcRef == moved && r.validLast && r.resetCnt == c.resetCnt)
  {
    hide U64, U32, S32, FoldTwice, Drift, ResyncCorr, Trips, AppPhase;
  }

  /** One undisturbed write is one step of the drifting model, and counts its resync. */
  lemma UndisturbedStep(c: ClockState, cfg: Config, b: Base, e: Env, k: int, d: int, m: Drifting, maxErr: nat)
    requires cfg.Valid() && cfg.syncToRef
    requires Undisturbed(c, cfg, b, k, d, m) && UndisturbedEnv(e, cfg, k, d, maxErr)
    ensures var r := ControlStep(c, cfg, b, e);
            && Undisturbed(r, cfg, b, k, d + cfg.period, DriftStep(m, cfg, maxErr))
            && (ResyncsNow(c, cfg, b, e) <==> Resyncs(m, cfg, maxErr))
            && r.resetCnt == (if Resyncs(m, cfg, maxErr) then U32(c.resetCnt + 1) else c.resetCnt)
  {
    hide ControlStep, U64, U32, S32, ResyncCorr, Trips, Congruent;
    RefFields(c, cfg, b, e);
    WrapInside(c.appTimeLast, d);
    WrapInside(b.appTimeBase + c.dcRef + k, d + cfg.period);
    if Resyncs(m, cfg, maxErr) {
      TripsAboveMinimum(m.offset, cfg, maxErr);
      ResyncResidual(m.offset, cfg, maxErr);
    }
    var r := ControlStep(c, cfg, b, e);
    var p, a, moved := cfg.period, b.appTimeBase + c.dcRef + k, c.dcRef + cfg.period;
    assert RawOffset(c, e) == S32(c.appTimeLast - d);
    assert S32(r.appTimeLast - (d + p)) == m.offset;
    var rest := b.appTimeBase + k - (d + p + p);
    if Resyncs(m, cfg, maxErr) {
      var corr := ResyncCorr(m.offset, cfg);
      NextOffset(moved, corr, rest, r.dcRef);
      SubtractWrapped(a - (d + p), corr);
      assert moved - corr + rest == a - (d + p) - corr;
    } else {
      NextOffset(moved, 0, rest, r.dcRef);
      assert moved + rest == a - (d + p);
    }
    assert b.appTimeBase + r.dcRef + k - (d + p + p) == r.dcRef + rest;
  }

  lemma TripsAboveMinimum(raw: int, cfg: Config, maxErr: nat)
    requires cfg.Valid() && IsS32(raw) && Trips(raw, cfg, maxErr)
    ensures raw > -TWO_31
  {
  }

  lemma NextOffset(moved: int, corr: int, rest: int, dcRef: int)
    requires dcRef == U64(U64(moved) - corr) || (corr == 0 && dcRef == U64(moved))
    ensures S32(dcRef + rest) == S32(moved - corr + rest)
  {
    U64Congruent(moved);
    U64Congruent(U64(moved) - corr);
    CongruentRefl(corr, TWO_64);
    CongruentAdd(U64(moved), moved, corr, corr, TWO_64);
    if dcRef == U64(U64(moved) - corr) {
      CongruentTrans(dcRef, U64(moved) - corr, moved - corr, TWO_64);
    }
    CongruentFactor(dcRef, moved - corr, TWO_32, TWO_32);
    CongruentRefl(rest, TWO_32);
    CongruentAdd(dcRef, moved - corr, rest, rest, TWO_32);
    S32Unique(dcRef + rest, moved - corr + rest);
  }

  lemma SubtractWrapped(x: int, corr: int)
    requires -TWO_31 <= S32(x) - corr < TWO_31
    ensures S32(x - corr) == S32(x) - corr
  {
  }

  function ControlRun(c: ClockState, cfg: Config, b: Base, envs: seq<Env>): ClockState
    requires cfg.Valid()
    decreases |envs|
  {
    if envs == [] then c
    else ControlStep(ControlRun(c, cfg, b, envs[..|envs| - 1]), cfg, b, envs[|envs| - 1])
  }

  /** The DC clock after i undisturbed cycles. */
  function DcAt(d: int, i: nat, cfg: Config): int {
    d + i * cfg.period
  }

  lemma DcNext(d: int, i: nat, cfg: Config)
    ensures DcAt(d, 0, cfg) == d && DcAt(d, i + 1, cfg) == DcAt(d, i, cfg) + cfg.period
  {
  }

  /** An undisturbed run is a run of the drifting model; pll-reset-count counts its resyncs. */
  lemma {:induction false} UndisturbedRun(
    c: ClockState, cfg: Config, b: Base, envs: seq<Env>, k: int, d: int, m: Drifting, maxErr: nat)
    requires cfg.Valid() && cfg.syncToRef && Undisturbed(c, cfg, b, k, d, m) && 0 <= c.resetCnt < TWO_32
    requires forall i :: 0 <= i < |envs| ==> UndisturbedEnv(envs[i], cfg, k, DcAt(d, i, cfg), maxErr)
    ensures var n, r := |envs|, ControlRun(c, cfg, b, envs);
            && Undisturbed(r, cfg, b, k, DcAt(d, n, cfg), DriftRun(m, cfg, maxErr, n))
            && r.resetCnt == U32(c.resetCnt + ResyncCount(m, cfg, maxErr, n))
    decreases |envs|
  {
    var n := |envs|;
    hide DcAt, UndisturbedEnv, ControlStep, Undisturbed, Config.Valid, DriftStep, Resyncs, ResyncsNow, U32;
    if n > 0 {
      var before := envs[..n - 1];
      UndisturbedRun(c, cfg, b, before, k, d, m, maxErr);
      UndisturbedStep(ControlRun(c, cfg, b, before), cfg, b, envs[n - 1], k, DcAt(d, n - 1, cfg),
        DriftRun(m, cfg, maxErr, n - 1), maxErr);
      DcNext(d, n - 1, cfg);
      CountUp(c.resetCnt + ResyncCount(m, cfg, maxErr, n - 1));
    } else {
      DcNext(d, 0, cfg);
      SmallCount(c.resetCnt);
    }
  }

  lemma SmallCount(x: int)
    requires 0 <= x < TWO_32
    ensures U32(x) == x
  {
  }

  lemma CountUp(x: int)
    ensures U32(U32(x) + 1) == U32(x + 1)
  {
  }

  /**
   So an undisturbed run raises pll-reset-count at most twice, unless the offset is a tie; then every
   second write raises it.
   */
  lemma UndisturbedResyncs(
    c: ClockState, cfg: Config, b: Base, envs: seq<Env>, k: int, d: int, m: Drifting, maxErr: nat)
    requires cfg.Valid() && cfg.syncToRef && Undisturbed(c, cfg, b, k, d, m) && c.resetCnt == 0
    requires !m.skip && -TWO_31 < m.offset < TWO_31
    requires forall i :: 0 <= i < |envs| ==> UndisturbedEnv(envs[i], cfg, k, DcAt(d, i, cfg), maxErr)
    ensures !Tie(m.offset, cfg, maxErr) ==> ControlRun(c, cfg, b, envs).resetCnt <= 2
    ensures Tie(m.offset, cfg, maxErr) ==>
      forall n: nat :: |envs| == 2 * n ==> ControlRun(c, cfg, b, envs).resetCnt == U32(n)
  {
    hide DcAt, UndisturbedEnv, Undisturbed, ControlRun, Config.Valid, Tie, U32, ResyncCount, DriftRun;
    UndisturbedRun(c, cfg, b, envs, k, d, m, maxErr);
    if Tie(m.offset, cfg, maxErr) {
      forall n: nat | |envs| == 2 * n
        ensures ResyncCount(m, cfg, maxErr, 2 * n) == n
      {
        TieRun(m, cfg, maxErr, n);
      }
    } else {
      SettlingRun(m, cfg, maxErr, |envs|);
      SmallCount(ResyncCount(m, cfg, maxErr, |envs|));
    }
  }

  // --- the drift compensation ---

  /** The writes in drift-mode 0 that used the offset, since the start or the last resync in that mode. */
  function Waited(c: ClockState, cfg: Config, b: Base, envs: seq<Env>): nat
    requires cfg.Valid()
    decreases |envs|
  {
    if envs == [] then 0
    else
      var n := |envs| - 1;
      var d, e, before := ControlRun(c, cfg, b, envs[..n]), envs[n], Waited(c, cfg, b, envs[..n]);
      if !Observed(d, cfg, b, e) || e.driftMode != 0 then before
      else if ResyncsNow(d, cfg, b, e) then 0 else before + 1
  }

  /** The delay counts them down from a hundred. */
  lemma {:induction false} DelayRunsDown(c: ClockState, cfg: Config, b: Base, envs: seq<Env>)
    requires cfg.Valid() && c.autoDriftDelay == 100
    ensures ControlRun(c, cfg, b, envs).autoDriftDelay == Max(100 - Waited(c, cfg, b, envs), 0)
    decreases |envs|
  {
    hide ControlStep, Observed, ResyncsNow;
    if envs != [] {
      var n := |envs| - 1;
      DelayRunsDown(c, cfg, b, envs[..n]);
      DelayStep(ControlRun(c, cfg, b, envs[..n]), cfg, b, envs[n]);
    }
  }

  lemma DelayStep(c: ClockState, cfg: Config, b: Base, e: Env)
    requires cfg.Valid()
    ensures ControlStep(c, cfg, b, e).autoDriftDelay ==
      if !Observed(c, cfg, b, e) || e.driftMode != 0 then c.autoDriftDelay
      else if ResyncsNow(c, cfg, b, e) then 100
      else if c.autoDriftDelay > 0 then c.autoDriftDelay - 1 else c.autoDriftDelay
  {
    hide U64, U32, S32, FoldTwice, Trips, ResyncCorr, AppPhase, AppTime;
  }

  /**
   The error of a write that uses the offset: the offset, in drift-mode 0 after a hundred such writes less the
   place of the write in the local cycle, reduced by whole periods; and the pin says whether it is small.
   */
  lemma ErrorOfRun(c: ClockState, cfg: Config, b: Base, envs: seq<Env>, e: Env)
    requires cfg.Valid() && c.autoDriftDelay == 100
    requires var d := ControlRun(c, cfg, b, envs); Observed(d, cfg, b, e) && RawOffset(d, e) + cfg.period < TWO_31
    ensures var d, r := ControlRun(c, cfg, b, envs), ControlRun(c, cfg, b, envs + [e]);
      var phase := AppPhase(AppTime(d, cfg, b, e), b, cfg);
      var away := if e.driftMode == 0 && Waited(c, cfg, b, envs) >= 100 then phase else 0;
      && Congruent(r.pllErr, S32(d.appTimeLast - e.dcTime) - away, cfg.period)
      && (r.dcPhased <==> AbsInt(r.pllErr) < cfg.period / 10)
      && (AbsInt(S32(d.appTimeLast - e.dcTime)) <= cfg.period ==> AbsInt(r.pllErr) <= cfg.period / 2)
  {
    hide ControlStep, U32, S32, AppPhase, AppTime, Congruent, Waited, ControlRun;
    var d := ControlRun(c, cfg, b, envs);
    RunOneMore(c, cfg, b, envs, e);
    DelayRunsDown(c, cfg, b, envs);
    var phase := AppPhase(AppTime(d, cfg, b, e), b, cfg);
    ErrorOfStep(d, cfg, b, e);
    CompensationMeans(RawOffset(d, e), Drift(d, cfg, phase, e), phase, cfg);
    FoldWindow(RawOffset(d, e) + Drift(d, cfg, phase, e), cfg);
  }

  lemma ErrorOfStep(c: ClockState, cfg: Config, b: Base, e: Env)
    requires cfg.Valid() && Observed(c, cfg, b, e) && RawOffset(c, e) + cfg.period < TWO_31
    ensures var r, phase := ControlStep(c, cfg, b, e), AppPhase(AppTime(c, cfg, b, e), b, cfg);
            && r.pllErr == FoldTwice(RawOffset(c, e) + Drift(c, cfg, phase, e), cfg)
            && (r.dcPhased <==> AbsInt(r.pllErr) < cfg.period / 10)
  {
    hide U64, U32, S32, FoldTwice, Trips, ResyncCorr, AppPhase, AppTime;
    var phase := AppPhase(AppTime(c, cfg, b, e), b, cfg);
    NoWrap(RawOffset(c, e), Drift(c, cfg, phase, e));
  }

  lemma NoWrap(x: int, d: nat)
    requires -TWO_31 <= x && x + d < TWO_31
    ensures S32(x + d) == x + d
  {
  }

  lemma WayToEnd(phase: int, p: int)
    requires 0 <= phase < p
    ensures (p - phase) % p == if phase == 0 then 0 else p - phase
  {
  }

  lemma CompensationMeans(raw: int, drift: int, phase: int, cfg: Config)
    requires cfg.Valid() && 0 <= phase < cfg.period && (drift == 0 || drift == (cfg.period - phase) % cfg.period)
    ensures Congruent(FoldTwice(raw + drift, cfg), raw + drift, cfg.period)
    ensures drift == (cfg.period - phase) % cfg.period ==>
      Congruent(FoldTwice(raw + drift, cfg), raw - phase, cfg.period)
    ensures 0 <= drift < cfg.period
  {
    hide Congruent, FoldTwice;
    var p := cfg.period;
    WayToEnd(phase, p);
    FoldWindow(raw + drift, cfg);
    if drift == (p - phase) % p {
      CongruentBy(drift, -phase, p, if phase == 0 then 0 else 1);
      CongruentRefl(raw, p);
      CongruentAdd(raw, raw, drift, -phase, p);
      CongruentTrans(FoldTwice(raw + drift, cfg), raw + drift, raw - phase, p);
    }
  }

  lemma RunOneMore(c: ClockState, cfg: Config, b: Base, envs: seq<Env>, e: Env)
    requires cfg.Valid()
    ensures ControlRun(c, cfg, b, envs + [e]) == ControlStep(ControlRun(c, cfg, b, envs), cfg, b, e)
  {
    assert (envs + [e])[..|envs|] == envs;
  }
}
