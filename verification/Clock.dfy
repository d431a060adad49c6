/**
 The clock controller at the end of lcec_write_master (src/lcec_main.c), as functions on its
 state. Two modes share it: with syncToRefClock off the thread's own phase is calibrated and
 trimmed to a target; with it on the thread follows the DC reference clock.
 */
module Clock {
  import opened CInt

  const PHASE_MEASURE_CYCLES := 100
  const AUTO_DRIFT_DELAY := 100
  /** Three periods must fit an int32, or the jitter arithmetic of the calibration overflows. */
  const MAX_PERIOD := 715_827_882

  datatype Config = Config(period: int, dwell: nat, syncToRef: bool, initf: bool) {
    predicate Valid() {
      0 < period <= MAX_PERIOD
    }

    /** The windows of the phase lock. */
    function LockWin(): int {
      period / 100
    }

    function UnlockWin(): int {
      period / 20
    }

    function Half(): int {
      period / 2
    }
  }

  datatype ClockState = ClockState(
    // phase calibration and lock
    measureCnt: int, phaseMin: int, phaseMax: int, phaseLast: int, jitter: int, target: int,
    calibrated: bool, locked: bool, lockCnt: int, unlockCnt: int,
    // reference clock
    dcRef: int, appTimeLast: int, validLast: bool, autoDriftDelay: int, resetCnt: int,
    // pins
    dcPhased: bool, pllErr: int, pllOut: int)

  // --- syncToRefClock off ---

  /** A phase more than half a period away from the last one has wrapped. */
  function Unwrap(cfg: Config, phase: int, last: int): int
    requires cfg.Valid()
  {
    if phase - last > cfg.Half() then phase - cfg.period
    else if phase - last < -cfg.Half() then phase + cfg.period
    else phase
  }

  /** The calibration branch: measure for 100 cycles, then fix the target. */
  function Measure(c: ClockState, cfg: Config, phase: int): ClockState
    requires cfg.Valid()
  {
    var d := c.(dcPhased := false);
    if c.measureCnt == 0 then
      d.(phaseMin := phase, phaseMax := phase, phaseLast := phase, measureCnt := 1)
    else if c.measureCnt < PHASE_MEASURE_CYCLES then
      var a := Unwrap(cfg, phase, c.phaseLast);
      d.(phaseMin := Min(a, c.phaseMin), phaseMax := Max(c.phaseMax, a), phaseLast := phase,
         measureCnt := c.measureCnt + 1)
    else
      var j := c.phaseMax - c.phaseMin;
      d.(jitter := j, target := Min(j + Quot(j, 2), cfg.period / 8),
         calibrated := true, locked := false, lockCnt := 0, unlockCnt := 0)
  }

  /** The lock with hysteresis. */
  function LockedAfter(cfg: Config, locked: bool, error: int): bool
    requires cfg.Valid()
  {
    if AbsInt(error) < cfg.LockWin() then true
    else if AbsInt(error) > cfg.UnlockWin() then false
    else locked
  }

  /** The dwell filter behind the dc-phased pin. */
  function Dwell(c: ClockState, cfg: Config, locked: bool): ClockState {
    if locked then
      if c.lockCnt < cfg.dwell then c.(locked := true, unlockCnt := 0, lockCnt := c.lockCnt + 1)
      else c.(locked := true, unlockCnt := 0, dcPhased := true)
    else
      if c.unlockCnt < cfg.dwell then c.(locked := false, lockCnt := 0, unlockCnt := c.unlockCnt + 1)
      else c.(locked := false, lockCnt := 0, dcPhased := false)
  }

  lemma DwellOverwritesLock(c: ClockState, cfg: Config, locked: bool)
    ensures Dwell(c.(locked := locked), cfg, locked) == Dwell(c, cfg, locked)
  {
  }

  /** The bang-bang branch. */
  function Track(c: ClockState, cfg: Config, phase: int, step: nat): ClockState
    requires cfg.Valid()
  {
    var error := phase - c.target;
    var locked := LockedAfter(cfg, c.locked, error);
    var out := if locked || error == 0 then c.pllOut else if error > 0 then S32(0 - step) else S32(step);
    Dwell(c.(pllErr := error, pllOut := if locked then 0 else out), cfg, locked)
  }

  /** One write with syncToRefClock off; the pins start from zero. */
  function PhaseStep(c: ClockState, cfg: Config, phase: int, step: nat): ClockState
    requires cfg.Valid()
  {
    var z := c.(pllErr := 0, pllOut := 0);
    if !c.calibrated then Measure(z, cfg, phase)
    else if !cfg.initf then Track(z, cfg, phase, step)
    else z.(dcPhased := true)
  }

  /** The correction handed to the thread. */
  function PhaseCorrection(c: ClockState, drift: int): int {
    if c.locked then drift else S32(c.pllOut + drift)
  }

  // --- calibration ---

  /** What the measurement keeps for phases in 0 .. period - 1. */
  ghost predicate Measuring(c: ClockState, cfg: Config)
    requires cfg.Valid()
  {
    var p, h := cfg.period, cfg.Half();
    && 0 <= c.measureCnt <= PHASE_MEASURE_CYCLES
    && (c.measureCnt > 0 ==>
      && 0 <= c.phaseLast < p
      && h - p < c.phaseMin <= c.phaseMax < 2 * p - 1 - h)
  }

  /** Every int32 value the calibration branch computes fits. */
  ghost predicate MeasureFits(c: ClockState, cfg: Config, phase: int)
    requires cfg.Valid()
  {
    var jitter := c.phaseMax - c.phaseMin;
    && (0 < c.measureCnt < PHASE_MEASURE_CYCLES ==>
      IsS32(phase - c.phaseLast) && IsS32(Unwrap(cfg, phase, c.phaseLast)))
    && (c.measureCnt == PHASE_MEASURE_CYCLES ==>
      IsS32(jitter) && IsS32(jitter + Quot(jitter, 2)))
  }

  /** Whatever was measured, the target ends up within an eighth of the period and no int32 overflows on the way. */
  lemma CalibrationTarget(c: ClockState, cfg: Config, phase: int)
    requires cfg.Valid() && Measuring(c, cfg) && !c.calibrated && 0 <= phase < cfg.period
    ensures MeasureFits(c, cfg, phase)
    ensures var d := Measure(c, cfg, phase);
            && Measuring(d, cfg)
            && (d.calibrated <==> c.measureCnt == PHASE_MEASURE_CYCLES)
            && (!d.calibrated ==> d.measureCnt == c.measureCnt + 1)
            && (d.calibrated ==>
              && 0 <= d.target <= cfg.period / 8 && 0 <= d.jitter
              && !d.locked && !d.dcPhased && d.lockCnt == 0 && d.unlockCnt == 0)
  {
  }

  function PhaseRun(c: ClockState, cfg: Config, phases: seq<int>, step: nat): ClockState
    requires cfg.Valid()
    decreases |phases|
  {
    if phases == [] then c
    else PhaseStep(PhaseRun(c, cfg, phases[..|phases| - 1], step), cfg, phases[|phases| - 1], step)
  }

  /** From power-up, calibration is complete after exactly 101 writes, with a target in 0 .. period/8. */
  lemma {:induction false} CalibratesOnce(c: ClockState, cfg: Config, phases: seq<int>, step: nat)
    requires cfg.Valid() && c.measureCnt == 0 && !c.calibrated
    requires forall i :: 0 <= i < |phases| ==> 0 <= phases[i] < cfg.period
    requires |phases| <= PHASE_MEASURE_CYCLES + 1
    ensures var d := PhaseRun(c, cfg, phases, step);
            && Measuring(d, cfg)
            && (d.calibrated <==> |phases| == PHASE_MEASURE_CYCLES + 1)
            && (!d.calibrated ==> d.measureCnt == |phases|)
            && (d.calibrated ==> Ready(d, cfg))
    decreases |phases|
  {
    if phases != [] {
      var before := phases[..|phases| - 1];
      CalibratesOnce(c, cfg, before, step);
      var b := PhaseRun(c, cfg, before, step);
      CalibrationTarget(b.(pllErr := 0, pllOut := 0), cfg, phases[|phases| - 1]);
    }
  }

  /** A phase continued from the one before: the place congruent to it within half a period. */
  lemma UnwrapIsNear(cfg: Config, phase: int, last: int)
    requires cfg.Valid() && 0 <= phase < cfg.period && 0 <= last < cfg.period
    ensures Congruent(Unwrap(cfg, phase, last), phase, cfg.period)
    ensures AbsInt(Unwrap(cfg, phase, last) - last) <= cfg.period - cfg.Half()
    ensures AbsInt(phase - last) <= cfg.Half() ==> Unwrap(cfg, phase, last) == phase
  {
    var k := if phase - last > cfg.Half() then -1 else if phase - last < -cfg.Half() then 1 else 0;
    CongruentBy(Unwrap(cfg, phase, last), phase, cfg.period, k);
  }

  /** The i-th measured phase, continued from the one before. */
  function Continued(cfg: Config, phases: seq<int>, i: nat): int
    requires cfg.Valid() && i < |phases|
  {
    if i == 0 then phases[0] else Unwrap(cfg, phases[i], phases[i - 1])
  }

  /** low and high are the least and the greatest of the first n continued phases. */
  ghost predicate IsSpread(cfg: Config, phases: seq<int>, n: nat, low: int, high: int)
    requires cfg.Valid() && n <= |phases|
  {
    && (forall i :: 0 <= i < n ==> low <= Continued(cfg, phases, i) <= high)
    && (exists i :: 0 <= i < n && low == Continued(cfg, phases, i))
    && (exists i :: 0 <= i < n && high == Continued(cfg, phases, i))
  }

  lemma SpreadGrows(cfg: Config, phases: seq<int>, n: nat, low: int, high: int)
    requires cfg.Valid() && n < |phases| && IsSpread(cfg, phases, n, low, high)
    ensures var a := Continued(cfg, phases, n); IsSpread(cfg, phases, n + 1, Min(a, low), Max(high, a))
  {
    hide Continued;
  }

  lemma SpreadStarts(cfg: Config, phases: seq<int>)
    requires cfg.Valid() && phases != []
    ensures IsSpread(cfg, phases, 1, phases[0], phases[0])
  {
    assert Continued(cfg, phases, 0) == phases[0];
  }

  /** The measurement keeps the last phase and the spread of all. */
  lemma {:induction false} MeasuresSpread(c: ClockState, cfg: Config, phases: seq<int>, step: nat, n: nat)
    requires cfg.Valid() && c.measureCnt == 0 && !c.calibrated
    requires 0 < n <= |phases| && n <= PHASE_MEASURE_CYCLES
    ensures var d := PhaseRun(c, cfg, phases[..n], step);
            && !d.calibrated && d.measureCnt == n && d.phaseLast == phases[n - 1]
            && IsSpread(cfg, phases, n, d.phaseMin, d.phaseMax)
  {
    hide Unwrap, IsSpread;
    assert phases[..n][..n - 1] == phases[..n - 1];
    if n == 1 {
      assert phases[..0] == [];
      SpreadStarts(cfg, phases);
    } else {
      MeasuresSpread(c, cfg, phases, step, n - 1);
      var b := PhaseRun(c, cfg, phases[..n - 1], step);
      SpreadGrows(cfg, phases, n - 1, b.phaseMin, b.phaseMax);
    }
  }

  /**
   What the calibration finds: the jitter is the spread of the hundred phases measured, and the target is one
   and a half times the jitter, but at most an eighth of the period.
   */
  lemma CalibrationFinds(c: ClockState, cfg: Config, phases: seq<int>, step: nat)
    requires cfg.Valid() && c.measureCnt == 0 && !c.calibrated && |phases| == 101
    ensures var d := PhaseRun(c, cfg, phases, step);
            && d.calibrated && IsSpread(cfg, phases, 100, d.phaseMin, d.phaseMax)
            && d.jitter == d.phaseMax - d.phaseMin
            && d.target == Min(d.jitter + d.jitter / 2, cfg.period / 8)
  {
    hide IsSpread, Continued;
    MeasuresSpread(c, cfg, phases, step, 100);
    var b := PhaseRun(c, cfg, phases[..100], step);
    SpreadInOrder(cfg, phases, 100, b.phaseMin, b.phaseMax);
  }

  lemma SpreadInOrder(cfg: Config, phases: seq<int>, n: nat, low: int, high: int)
    requires cfg.Valid() && n <= |phases| && IsSpread(cfg, phases, n, low, high)
    ensures low <= high
  {
    hide Continued;
  }

  /** A freshly calibrated controller. */
  ghost predicate Ready(c: ClockState, cfg: Config)
    requires cfg.Valid()
  {
    && c.calibrated && 0 <= c.target <= cfg.period / 8
    && !c.locked && !c.dcPhased && c.lockCnt == 0 && c.unlockCnt == 0
  }

  // --- the closed loop ---

  /** The controller and the phase it will see next. */
  datatype Loop = Loop(c: ClockState, phase: int)

  /** An ideal thread: its phase moves by the correction, with no drift. */
  function LoopStep(l: Loop, cfg: Config, step: nat): Loop
    requires cfg.Valid()
  {
    var d := PhaseStep(l.c, cfg, l.phase, step);
    Loop(d, (l.phase + PhaseCorrection(d, 0)) % cfg.period)
  }

  function LoopRun(l: Loop, cfg: Config, step: nat, n: nat): Loop
    requires cfg.Valid()
  {
    if n == 0 then l else LoopStep(LoopRun(l, cfg, step, n - 1), cfg, step)
  }

  /** How many steps bring an error of e into the lock window. */
  function LockTime(cfg: Config, e: int, step: nat): nat
    requires cfg.Valid() && 0 < step <= cfg.LockWin()
    decreases e
  {
    if e < cfg.LockWin() then 0 else 1 + LockTime(cfg, e - step, step)
  }

  /** Where an ideal loop stands n cycles after calibration, when it started e away from the target. */
  ghost predicate OnCourse(l: Loop, start: Loop, cfg: Config, step: nat, n: nat)
    requires cfg.Valid() && 0 < step <= cfg.LockWin()
  {
    var c, target, e := l.c, start.c.target, AbsInt(start.phase - start.c.target);
    var lockTime := LockTime(cfg, e, step);
    && c.calibrated && c.target == target
    // the phase stays between where it started and the target
    && Min(start.phase, target) <= l.phase <= Max(start.phase, target)
    // it approaches by one step per cycle until it is in the lock window, then stays
    && AbsInt(l.phase - target) == e - Min(n, lockTime) * step
    && LockTime(cfg, AbsInt(l.phase - target), step) == lockTime - Min(n, lockTime)
    // locked from then on
    && (c.locked <==> n > lockTime)
    && c.lockCnt == (if n > lockTime then Min(n - lockTime, cfg.dwell) else 0)
    // the pin rises with the (dwell + 1)-th locked cycle
    && (c.dcPhased <==> n > lockTime + cfg.dwell)
  }

  /** The ideal loop converges, never leaves the period, stays locked, and raises dc-phased on time. */
  lemma {:induction false} Converges(start: Loop, cfg: Config, step: nat, n: nat)
    requires cfg.Valid() && !cfg.initf && Ready(start.c, cfg)
    requires 0 <= start.phase < cfg.period && 0 < step <= cfg.LockWin()
    ensures OnCourse(LoopRun(start, cfg, step, n), start, cfg, step, n)
  {
    if n > 0 {
      Converges(start, cfg, step, n - 1);
      CourseStep(LoopRun(start, cfg, step, n - 1), start, cfg, step, n - 1);
    } else {
      assert 0 * step == 0;
    }
  }

  lemma CourseStep(l: Loop, start: Loop, cfg: Config, step: nat, n: nat)
    requires cfg.Valid() && !cfg.initf && Ready(start.c, cfg)
    requires 0 <= start.phase < cfg.period && 0 < step <= cfg.LockWin()
    requires OnCourse(l, start, cfg, step, n)
    ensures OnCourse(LoopStep(l, cfg, step), start, cfg, step, n + 1)
  {
    hide LoopStep;
    var target := start.c.target;
    var lockTime := LockTime(cfg, AbsInt(start.phase - target), step);
    MulStep(n, step);
    if n < lockTime {
      Approach(l, cfg, step);
    } else {
      Hold(l, cfg, step);
    }
  }

  /** Outside the lock window the phase moves one step towards the target. */
  lemma Approach(l: Loop, cfg: Config, step: nat)
    requires cfg.Valid() && !cfg.initf && l.c.calibrated && !l.c.locked && !l.c.dcPhased && l.c.lockCnt == 0
    requires 0 <= l.phase < cfg.period && 0 <= l.c.target < cfg.period && 0 < step <= cfg.LockWin()
    requires AbsInt(l.phase - l.c.target) >= cfg.LockWin()
    ensures var r, target := LoopStep(l, cfg, step), l.c.target;
            && r.c.calibrated && !r.c.locked && !r.c.dcPhased && r.c.lockCnt == 0 && r.c.target == target
            && AbsInt(r.phase - target) == AbsInt(l.phase - target) - step
            && Min(l.phase, target) <= r.phase <= Max(l.phase, target)
  {
    hide PhaseStep;
    OneStepNearer(l.c, cfg, l.phase, step);
    InPeriod(l.phase + PhaseStep(l.c, cfg, l.phase, step).pllOut, cfg.period);
  }

  lemma OneStepNearer(c: ClockState, cfg: Config, phase: int, step: nat)
    requires cfg.Valid() && !cfg.initf && c.calibrated && !c.locked && !c.dcPhased && c.lockCnt == 0
    requires 0 <= phase < cfg.period && AbsInt(phase - c.target) >= cfg.LockWin() && 0 < step <= cfg.LockWin()
    ensures var d := PhaseStep(c, cfg, phase, step);
            && d.pllOut == (if phase > c.target then 0 - step else step)
            && PhaseCorrection(d, 0) == d.pllOut
            && d.calibrated && !d.locked && !d.dcPhased && d.lockCnt == 0 && d.target == c.target
  {
    hide Measure;
  }

  /** Inside it the phase stays and the dwell counter runs. */
  lemma Hold(l: Loop, cfg: Config, step: nat)
    requires cfg.Valid() && !cfg.initf && l.c.calibrated
    requires 0 <= l.phase < cfg.period && AbsInt(l.phase - l.c.target) < cfg.LockWin()
    ensures var r := LoopStep(l, cfg, step);
            && r.phase == l.phase && r.c.calibrated && r.c.locked && r.c.target == l.c.target
            && r.c.lockCnt == (if l.c.lockCnt < cfg.dwell then l.c.lockCnt + 1 else l.c.lockCnt)
            && r.c.dcPhased == (l.c.dcPhased || l.c.lockCnt >= cfg.dwell)
  {
    InPeriod(l.phase, cfg.period);
  }

  lemma InPeriod(x: int, p: int)
    requires 0 <= x < p
    ensures x % p == x
  {
  }

  // --- the lock over arbitrary runs ---

  /** The j-th phase came within a hundredth of the period of the target, and none since left a twentieth. */
  ghost predicate CaughtAt(cfg: Config, target: int, phases: seq<int>, j: int) {
    && 0 <= j < |phases| && AbsInt(phases[j] - target) < cfg.period / 100
    && forall i :: j < i < |phases| ==> AbsInt(phases[i] - target) <= cfg.period / 20
  }

  ghost predicate CaughtAndHeld(cfg: Config, target: int, phases: seq<int>) {
    exists j :: CaughtAt(cfg, target, phases, j)
  }

  /** After calibration the lock is held exactly then. */
  lemma {:induction false} LockedIff(c: ClockState, cfg: Config, phases: seq<int>, step: nat)
    requires cfg.Valid() && !cfg.initf && Ready(c, cfg)
    ensures var d := PhaseRun(c, cfg, phases, step);
            d.calibrated && d.target == c.target && (d.locked <==> CaughtAndHeld(cfg, c.target, phases))
    decreases |phases|
  {
    if phases != [] {
      var n := |phases| - 1;
      LockedIff(c, cfg, phases[..n], step);
      HeldOn(cfg, c.target, phases[..n], phases[n]);
      assert phases == phases[..n] + [phases[n]];
    }
  }

  lemma CaughtOn(cfg: Config, target: int, before: seq<int>, phase: int, j: int)
    requires 0 <= j < |before|
    ensures CaughtAt(cfg, target, before + [phase], j)
        <==> CaughtAt(cfg, target, before, j) && AbsInt(phase - target) <= cfg.period / 20
  {
    hide AbsInt;
    var all := before + [phase];
    assert all[|before|] == phase && forall i :: 0 <= i < |before| ==> all[i] == before[i];
  }

  lemma HeldOn(cfg: Config, target: int, before: seq<int>, phase: int)
    requires cfg.Valid()
    ensures CaughtAndHeld(cfg, target, before + [phase]) <==> (
      || AbsInt(phase - target) < cfg.period / 100
      || (CaughtAndHeld(cfg, target, before) && AbsInt(phase - target) <= cfg.period / 20))
  {
    var all := before + [phase];
    CaughtNow(cfg, target, before, phase);
    hide CaughtAt;
    if CaughtAndHeld(cfg, target, before) {
      var j :| CaughtAt(cfg, target, before, j);
      CaughtInside(cfg, target, before, j);
      CaughtOn(cfg, target, before, phase, j);
    }
    if CaughtAndHeld(cfg, target, all) {
      var j :| CaughtAt(cfg, target, all, j);
      CaughtInside(cfg, target, all, j);
      if j < |before| {
        CaughtOn(cfg, target, before, phase, j);
      }
    }
  }

  lemma CaughtInside(cfg: Config, target: int, phases: seq<int>, j: int)
    requires CaughtAt(cfg, target, phases, j)
    ensures 0 <= j < |phases|
  {
  }

  lemma CaughtNow(cfg: Config, target: int, before: seq<int>, phase: int)
    ensures CaughtAt(cfg, target, before + [phase], |before|) <==> AbsInt(phase - target) < cfg.period / 100
  {
  }

  // --- the dwell filter over arbitrary runs ---

  /** The length of the final run of v in a history. */
  function Trailing(history: seq<bool>, v: bool): nat
    decreases |history|
  {
    if history == [] || history[|history| - 1] != v then 0
    else 1 + Trailing(history[..|history| - 1], v)
  }

  /** The pin as the specification sees it: it follows the lock after dwell + 1 agreeing cycles. */
  function Filtered(history: seq<bool>, dwell: nat): bool
    decreases |history|
  {
    if history == [] then false
    else if Trailing(history, true) > dwell then true
    else if Trailing(history, false) > dwell then false
    else Filtered(history[..|history| - 1], dwell)
  }

  /** The instantaneous lock states of a run. */
  function LockHistory(c: ClockState, cfg: Config, phases: seq<int>, step: nat): (r: seq<bool>)
    requires cfg.Valid()
    ensures |r| == |phases|
    decreases |phases|
  {
    if phases == [] then []
    else LockHistory(c, cfg, phases[..|phases| - 1], step) + [PhaseRun(c, cfg, phases, step).locked]
  }

  /** What the dwell filter keeps, in terms of the history of lock states. */
  ghost predicate Follows(d: ClockState, history: seq<bool>, cfg: Config) {
    && d.lockCnt == Min(Trailing(history, true), cfg.dwell)
    && d.unlockCnt == Min(Trailing(history, false), cfg.dwell)
    && !(d.lockCnt > 0 && d.unlockCnt > 0)
    && d.dcPhased == Filtered(history, cfg.dwell)
  }

  lemma DwellStep(d: ClockState, history: seq<bool>, cfg: Config, locked: bool)
    requires Follows(d, history, cfg)
    ensures Follows(Dwell(d, cfg, locked), history + [locked], cfg)
  {
    var next := history + [locked];
    assert next[..|next| - 1] == history;
    TrailingExclusive(history);
  }

  /** Any run after calibration: the counters are the capped run lengths and the pin is the filtered history. */
  lemma {:induction false} DwellFilter(c: ClockState, cfg: Config, phases: seq<int>, step: nat)
    requires cfg.Valid() && !cfg.initf && Ready(c, cfg)
    ensures var d := PhaseRun(c, cfg, phases, step);
            && d.calibrated && d.target == c.target
            && Follows(d, LockHistory(c, cfg, phases, step), cfg)
    decreases |phases|
  {
    if phases != [] {
      var before := phases[..|phases| - 1];
      DwellFilter(c, cfg, before, step);
      var b, phase := PhaseRun(c, cfg, before, step), phases[|phases| - 1];
      var locked := LockedAfter(cfg, b.locked, phase - b.target);
      var d := PhaseStep(b, cfg, phase, step);
      DwellStep(b.(pllErr := d.pllErr, pllOut := d.pllOut), LockHistory(c, cfg, before, step), cfg, locked);
      assert d == Dwell(b.(pllErr := d.pllErr, pllOut := d.pllOut), cfg, locked);
      hide Follows, Dwell;
    }
  }

  lemma TrailingExclusive(history: seq<bool>)
    ensures Trailing(history, true) == 0 || Trailing(history, false) == 0
  {
  }

  lemma {:induction false} TrailingAll(history: seq<bool>, v: bool, i: nat)
    requires |history| - Trailing(history, v) <= i < |history|
    ensures history[i] == v
    decreases |history|
  {
    if i < |history| - 1 {
      TrailingAll(history[..|history| - 1], v, i);
    }
  }

  /** A transition happens only at the end of dwell + 1 cycles that agree with it. */
  lemma TransitionNeedsDwell(history: seq<bool>, dwell: nat)
    requires history != [] && Filtered(history, dwell) != Filtered(history[..|history| - 1], dwell)
    ensures Trailing(history, Filtered(history, dwell)) > dwell
  {
  }

  /** Opposite transitions are at least dwell + 1 cycles apart. */
  lemma TransitionsApart(history: seq<bool>, dwell: nat, i: nat, j: nat)
    requires 0 < i < j <= |history|
    requires Filtered(history[..i], dwell) != Filtered(history[..i - 1], dwell)
    requires Filtered(history[..j], dwell) != Filtered(history[..j - 1], dwell)
    requires Filtered(history[..i], dwell) != Filtered(history[..j], dwell)
    ensures j - i > dwell
  {
    var a, b := history[..i], history[..j];
    assert a[..i - 1] == history[..i - 1] && b[..j - 1] == history[..j - 1];
    TransitionNeedsDwell(a, dwell);
    TransitionNeedsDwell(b, dwell);
    TrailingAll(a, Filtered(a, dwell), i - 1);
    assert a[i - 1] == b[i - 1];
    if j - i <= dwell {
      TrailingAll(b, Filtered(b, dwell), i - 1);
    }
  }

  // --- syncToRefClock on ---

  /** One of the two folding steps. */
  function Fold(e: int, cfg: Config): int
    requires cfg.Valid()
  {
    if e > cfg.Half() then e - cfg.period else if e < -cfg.Half() then e + cfg.period else e
  }

  function FoldTwice(e: int, cfg: Config): int
    requires cfg.Valid()
  {
    Fold(Fold(e, cfg), cfg)
  }

  /** The fold keeps the residue, and reaches the half-period window exactly from two periods and a half away. */
  lemma FoldWindow(e: int, cfg: Config)
    requires cfg.Valid()
    ensures Congruent(FoldTwice(e, cfg), e, cfg.period)
    ensures AbsInt(FoldTwice(e, cfg)) <= cfg.Half() <==> AbsInt(e) <= 2 * cfg.period + cfg.Half()
  {
    var k := if FoldTwice(e, cfg) == e then 0
             else if FoldTwice(e, cfg) == e - cfg.period then -1
             else if FoldTwice(e, cfg) == e + cfg.period then 1
             else if e > 0 then -2 else 2;
    CongruentBy(FoldTwice(e, cfg), e, cfg.period, k);
  }

  /** So an offset within a period and a half, plus any drift compensation, is folded into the window. */
  lemma FoldOfOffset(raw: int, drift: int, cfg: Config)
    requires cfg.Valid() && AbsInt(raw) <= cfg.period + cfg.Half() && 0 <= drift < cfg.period
    ensures AbsInt(FoldTwice(raw + drift, cfg)) <= cfg.Half()
    ensures Congruent(FoldTwice(raw + drift, cfg), raw + drift, cfg.period)
  {
    FoldWindow(raw + drift, cfg);
  }

  /** The offset beyond which the master time is resynchronised. */
  function Threshold(cfg: Config, maxErr: nat): int
    requires cfg.Valid()
  {
    if maxErr > cfg.Half() then cfg.Half() else maxErr
  }

  predicate Trips(raw: int, cfg: Config, maxErr: nat)
    requires cfg.Valid()
  {
    S32(AbsInt(raw)) > Threshold(cfg, maxErr)
  }

  /** The whole periods nearest to a magnitude. */
  function Whole(magnitude: nat, cfg: Config): int
    requires cfg.Valid()
  {
    (magnitude + cfg.Half()) / cfg.period * cfg.period
  }

  /** The amount a resync removes: the nearest whole periods, or everything when that is nothing. */
  function ResyncCorr(raw: int, cfg: Config): int
    requires cfg.Valid()
  {
    var corr := if raw >= 0 then Whole(raw, cfg) else -Whole(-raw, cfg);
    if corr == 0 then raw else corr
  }

  lemma WholePeriods(magnitude: nat, cfg: Config)
    requires cfg.Valid()
    ensures var whole := Whole(magnitude, cfg);
            && -cfg.Half() <= magnitude - whole < cfg.period - cfg.Half()
            && (whole == 0 <==> magnitude + cfg.Half() < cfg.period)
            && (whole != 0 ==> whole >= cfg.period)
            && Congruent(whole, 0, cfg.period) && Congruent(-whole, 0, cfg.period)
  {
    hide Congruent;
    WholeShape(magnitude + cfg.Half(), cfg.period);
    var q := (magnitude + cfg.Half()) / cfg.period;
    MultipleOf(Whole(magnitude, cfg), q, cfg.period);
  }

  lemma WholeShape(x: nat, p: nat)
    requires p >= 1
    ensures var w := x / p * p; 0 <= x - w < p && (w == 0 <==> x < p) && (w != 0 ==> w >= p)
  {
  }

  lemma MultipleOf(w: int, q: int, p: int)
    requires w == q * p
    ensures Congruent(w, 0, p) && Congruent(-w, 0, p)
    ensures q == 0 ==> w == 0
  {
    CongruentBy(w, 0, p, q);
    assert (-q) * p == -(q * p);
    CongruentBy(-w, 0, p, -q);
  }

  /** A resync leaves at most half a period; with the limit at half a period or more it removes whole periods only. */
  lemma ResyncResidual(raw: int, cfg: Config, maxErr: nat)
    requires cfg.Valid() && -TWO_31 < raw < TWO_31 && Trips(raw, cfg, maxErr)
    ensures AbsInt(raw - ResyncCorr(raw, cfg)) <= cfg.Half()
    ensures maxErr >= cfg.Half() ==>
      && ResyncCorr(raw, cfg) != 0 && Congruent(ResyncCorr(raw, cfg), 0, cfg.period)
      && !Trips(raw - ResyncCorr(raw, cfg), cfg, maxErr)
  {
    hide Whole, Congruent;
    WholePeriods(AbsInt(raw), cfg);
    assert S32(AbsInt(raw)) == AbsInt(raw);
  }

  // --- how many resyncs follow an offset nobody disturbs ---

  /** The offset the controller would observe next, and whether the coming cycle is skipped after a resync. */
  datatype Drifting = Drifting(offset: int, skip: bool)

  predicate Resyncs(d: Drifting, cfg: Config, maxErr: nat)
    requires cfg.Valid()
  {
    !d.skip && Trips(d.offset, cfg, maxErr)
  }

  function DriftStep(d: Drifting, cfg: Config, maxErr: nat): Drifting
    requires cfg.Valid()
  {
    if Resyncs(d, cfg, maxErr) then Drifting(d.offset - ResyncCorr(d.offset, cfg), true) else Drifting(d.offset, false)
  }

  function DriftRun(d: Drifting, cfg: Config, maxErr: nat, n: nat): Drifting
    requires cfg.Valid()
  {
    if n == 0 then d else DriftStep(DriftRun(d, cfg, maxErr, n - 1), cfg, maxErr)
  }

  /** The number of resyncs in the first n cycles. */
  function ResyncCount(d: Drifting, cfg: Config, maxErr: nat, n: nat): nat
    requires cfg.Valid()
  {
    if n == 0 then 0
    else ResyncCount(d, cfg, maxErr, n - 1) + (if Resyncs(DriftRun(d, cfg, maxErr, n - 1), cfg, maxErr) then 1 else 0)
  }

  /**
   The offset that never settles: exactly half an even period away from a whole number of periods,
   with the limit set below half a period.
   */
  predicate Tie(offset: int, cfg: Config, maxErr: nat)
    requires cfg.Valid()
  {
    cfg.period % 2 == 0 && offset % cfg.period == cfg.Half() && maxErr < cfg.Half()
  }

  /** What is known after some resyncs from an offset without a tie. */
  ghost predicate Settling(d: Drifting, count: nat, cfg: Config, maxErr: nat)
    requires cfg.Valid()
  {
    && -TWO_31 < d.offset < TWO_31
    && (count == 0 ==> !Tie(d.offset, cfg, maxErr))
    && (count == 1 ==> AbsInt(d.offset) + cfg.Half() < cfg.period || !Trips(d.offset, cfg, maxErr))
    && (count == 2 ==> d.offset == 0)
    && count <= 2
  }

  lemma SettlingStep(d: Drifting, count: nat, cfg: Config, maxErr: nat)
    requires cfg.Valid() && Settling(d, count, cfg, maxErr)
    ensures Settling(DriftStep(d, cfg, maxErr), count + (if Resyncs(d, cfg, maxErr) then 1 else 0), cfg, maxErr)
  {
    if Resyncs(d, cfg, maxErr) {
      WholePeriods(AbsInt(d.offset), cfg);
      ResyncResidual(d.offset, cfg, maxErr);
      if count == 0 {
        NoTieResidual(d.offset, cfg, maxErr);
      }
    }
  }

  /** Without a tie the first resync does not leave exactly half a period, or what it leaves does not trip. */
  lemma NoTieResidual(offset: int, cfg: Config, maxErr: nat)
    requires cfg.Valid() && -TWO_31 < offset < TWO_31 && Trips(offset, cfg, maxErr) && !Tie(offset, cfg, maxErr)
    ensures var r := offset - ResyncCorr(offset, cfg);
            AbsInt(r) + cfg.Half() < cfg.period || !Trips(r, cfg, maxErr)
  {
    var p, h := cfg.period, cfg.Half();
    var r := offset - ResyncCorr(offset, cfg);
    ResyncResidual(offset, cfg, maxErr);
    if AbsInt(r) + h >= p {
      assert p == 2 * h && AbsInt(r) == h;
      var q := (AbsInt(offset) + h) / p;
      assert (-q) * p == -(q * p);
      var k := if offset >= 0 then q else -q;
      assert offset == r + k * p;
      HalfResidue(offset, k, r, p);
    }
  }

  /** A multiple of an even period plus or minus half of it leaves the residue p/2. */
  lemma HalfResidue(offset: int, k: int, r: int, p: int)
    requires p > 0 && p % 2 == 0 && offset == r + k * p && (r == p / 2 || r == -(p / 2))
    ensures offset % p == p / 2
  {
    MulStep(k - 1, p);
    assert p * k == k * p && p * (k - 1) == (k - 1) * p;
    if r == p / 2 {
      EuclidUnique(offset, p, k, p / 2);
    } else {
      EuclidUnique(offset, p, k - 1, p / 2);
    }
  }

  lemma {:induction false} SettlingRun(d: Drifting, cfg: Config, maxErr: nat, n: nat)
    requires cfg.Valid() && -TWO_31 < d.offset < TWO_31 && !Tie(d.offset, cfg, maxErr)
    ensures Settling(DriftRun(d, cfg, maxErr, n), ResyncCount(d, cfg, maxErr, n), cfg, maxErr)
  {
    if n > 0 {
      SettlingRun(d, cfg, maxErr, n - 1);
      SettlingStep(DriftRun(d, cfg, maxErr, n - 1), ResyncCount(d, cfg, maxErr, n - 1), cfg, maxErr);
    }
  }

  /** On a tie every observed cycle resyncs and mirrors the offset to the other side. */
  lemma TieStep(offset: int, cfg: Config, maxErr: nat)
    requires cfg.Valid() && -TWO_31 < offset < TWO_31 && Tie(offset, cfg, maxErr)
    ensures Trips(offset, cfg, maxErr)
    ensures var r := offset - ResyncCorr(offset, cfg);
            Tie(r, cfg, maxErr) && AbsInt(r) == cfg.Half()
  {
    var p, h := cfg.period, cfg.Half();
    var q := offset / p;
    assert offset == h + q * p;
    assert (-q - 1) * p == -(q * p) - p;
    if offset < 0 {
      HalfResidue(-offset, -q - 1, h, p);
    }
    TieWhole(AbsInt(offset), cfg);
    var r := offset - ResyncCorr(offset, cfg);
    assert r == -h || r == h;
    HalfResidue(r, 0, r, p);
    SmallMod(AbsInt(offset), p);
  }

  lemma SmallMod(x: nat, p: int)
    requires p > 0
    ensures x % p <= x
  {
  }

  lemma TieWhole(magnitude: nat, cfg: Config)
    requires cfg.Valid() && cfg.period % 2 == 0 && magnitude % cfg.period == cfg.Half()
    ensures Whole(magnitude, cfg) == magnitude + cfg.Half()
  {
    var p, h := cfg.period, cfg.Half();
    var q := magnitude / p;
    assert magnitude == p * q + h;
    assert p * (q + 1) == p * q + p;
    EuclidUnique(magnitude + h, p, q + 1, 0);
    assert (q + 1) * p == p * (q + 1);
  }

  lemma {:induction false} TieRun(d: Drifting, cfg: Config, maxErr: nat, n: nat)
    requires cfg.Valid() && -TWO_31 < d.offset < TWO_31 && Tie(d.offset, cfg, maxErr) && !d.skip
    ensures var e := DriftRun(d, cfg, maxErr, 2 * n);
            && -TWO_31 < e.offset < TWO_31 && Tie(e.offset, cfg, maxErr) && !e.skip
            && ResyncCount(d, cfg, maxErr, 2 * n) == n
  {
    if n > 0 {
      TieRun(d, cfg, maxErr, n - 1);
      TieStep(DriftRun(d, cfg, maxErr, 2 * n - 2).offset, cfg, maxErr);
      assert DriftRun(d, cfg, maxErr, 2 * n - 1).skip;
    }
  }

  /**
   An undisturbed offset causes at most two resyncs, except on a tie; then the resyncs never end.
   With the default limit of one period there is no tie.
   */
  lemma AtMostTwoResyncs(d: Drifting, cfg: Config, maxErr: nat)
    requires cfg.Valid() && -TWO_31 < d.offset < TWO_31 && !d.skip
    ensures (forall n: nat :: ResyncCount(d, cfg, maxErr, n) <= 2) <==> !Tie(d.offset, cfg, maxErr)
  {
    if Tie(d.offset, cfg, maxErr) {
      TieRun(d, cfg, maxErr, 3);
      assert ResyncCount(d, cfg, maxErr, 6) == 3;
    } else {
      forall n: nat
        ensures ResyncCount(d, cfg, maxErr, n) <= 2
      {
        SettlingRun(d, cfg, maxErr, n);
      }
    }
  }

  /** A period of 1000 ns, a limit of 100 ns and an offset of 500 ns: 500, -500, 500, ... without end. */
  lemma TieWitness()
    ensures var cfg := Config(1000, 200, true, false);
            Tie(500, cfg, 100) && ResyncCount(Drifting(500, false), cfg, 100, 6) == 3
  {
    var cfg := Config(1000, 200, true, false);
    TieRun(Drifting(500, false), cfg, 100, 3);
  }
}
