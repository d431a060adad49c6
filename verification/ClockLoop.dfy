/**
 The closed loop: the clock controller on a thread that obeys its corrections. With syncToRefClock on the
 folded error against the DC reference clock comes down step by step over any run of writes and stays down,
 and no resync occurs. With it off the thread's own phase moves to its target as the ideal loop of the Clock
 module says.
 */
module ClockLoop {
  import opened CInt
  import opened Clock
  import opened ClockControl

  // --- syncToRefClock on ---

  /** What does not change during a run: now - ref, pll-step, pll-max-err, drift-mode, and a bound on disturbances. */
  datatype Setup = Setup(cfg: Config, base: Base, k: int, step: nat, maxErr: nat, mode: int, slack: nat) {
    predicate Valid() {
      cfg.Valid() && cfg.syncToRef && slack <= step
    }

    /** The offset beyond which the master's time is resynchronised. */
    function Limit(): (r: nat)
      requires Valid()
      ensures r == Min(maxErr, cfg.period / 2)
    {
      Threshold(cfg, maxErr)
    }
  }

  /** The part of the DC clock's step between two writes that the correction does not explain, less the manual drift. */
  function Disturbance(e: Env, cfg: Config, dc: int, dcNext: int, applied: int): int {
    dcNext - (dc + cfg.period + applied) + e.pllDrift
  }

  /** The inputs of one write of such a run, which finds the DC clock at dc. */
  ghost predicate Inputs(u: Setup, e: Env, dc: int) {
    && UndisturbedEnv(e, u.cfg, u.k, dc, u.maxErr)
    && e.pllStep == u.step && e.driftMode == u.mode
    && IsS32(e.pllDrift - u.step) && IsS32(e.pllDrift + u.step)
  }

  /**
   The thread and the clocks: from one write to the next the DC clock, read as dc[i], advances by one period
   plus the correction that the write applied. The manual pll-drift makes up for the drift of the clocks,
   up to the slack.
   */
  ghost predicate Plant(u: Setup, c: ClockState, envs: seq<Env>, dc: seq<int>)
    requires u.Valid()
  {
    && |dc| == |envs| + 1
    && forall i {:trigger envs[i]} :: 0 <= i < |envs| ==>
      && Inputs(u, envs[i], dc[i])
      && var applied := Correction(ControlRun(c, u.cfg, u.base, envs[..i + 1]), u.cfg, envs[i]);
         AbsInt(Disturbance(envs[i], u.cfg, dc[i], dc[i + 1], applied)) <= u.slack
  }

  /** The controller has seen two valid readings, and its next write will observe the offset raw. */
  ghost predicate InLoop(u: Setup, c: ClockState, dc: int, raw: int)
    requires u.Valid()
  {
    Undisturbed(c, u.cfg, u.base, u.k, dc, Drifting(raw, false))
  }

  /** With drift-mode 0: the delay has run down, and n more cycles do not wrap the 64-bit times. */
  ghost predicate Compensating(u: Setup, c: ClockState, n: nat) {
    var now := u.base.appTimeBase + c.dcRef + u.k;
    && c.autoDriftDelay <= 0 && 0 <= c.dcRef && c.dcRef + n * u.cfg.period < TWO_64
    && 0 <= u.base.dcRefTime <= now && now + n * u.cfg.period < TWO_64
  }

  /** What drift-mode 0 adds to the offset: the way from the place in the local cycle to its end. */
  function Compensation(u: Setup, c: ClockState): (r: int)
    requires u.Valid()
    ensures 0 <= r < u.cfg.period
  {
    if u.mode != 0 then 0
    else (u.cfg.period - (u.base.appTimeBase + c.dcRef + u.k - u.base.dcRefTime) % u.cfg.period) % u.cfg.period
  }

  /** The error that the next write will see. */
  function FirstError(u: Setup, c: ClockState, raw: int): int
    requires u.Valid()
  {
    FoldTwice(S32(raw + Compensation(u, c)), u.cfg)
  }

  /** The offset lies inside the limit, and so does the offset at which the error vanishes, with a margin. */
  ghost predicate Starts(u: Setup, c: ClockState, dc: int, raw: int, n: nat)
    requires u.Valid()
  {
    && InLoop(u, c, dc, raw) && (u.mode == 0 ==> Compensating(u, c, n))
    && AbsInt(raw) <= u.Limit() && AbsInt(raw - FirstError(u, c, raw)) + u.step + u.slack <= u.Limit()
  }

  // --- the error from write to write ---

  /** The error that the next write sees after steering against x, with v left of the drift. */
  function Steered(x: int, step: nat, v: int): int {
    x - (if x < 0 then 0 - step else step) - v
  }

  /** Where the error can be after i writes from an error of start. */
  ghost predicate Course(u: Setup, start: int, i: nat, x: int) {
    && AbsInt(x) <= Max(AbsInt(start) - i * (u.step - u.slack), u.step + u.slack)
    && (u.slack == 0 && i * u.step <= AbsInt(start) ==> AbsInt(x) == AbsInt(start) - i * u.step)
    && Between(u, start, x)
  }

  /** Between the first error and one step beyond zero. */
  predicate Between(u: Setup, start: int, x: int) {
    Min(start, 0 - (u.step + u.slack)) <= x <= Max(start, u.step + u.slack)
  }

  lemma CourseStarts(u: Setup, start: int)
    requires u.Valid()
    ensures Course(u, start, 0, start)
  {
  }

  lemma CourseGoesOn(u: Setup, start: int, i: nat, x: int, v: int)
    requires u.Valid() && Course(u, start, i, x) && AbsInt(v) <= u.slack
    ensures Course(u, start, i + 1, Steered(x, u.step, v))
  {
    MulStep(i, u.step - u.slack);
    MulStep(i, u.step);
  }

  // --- one write ---

  /** A write inside the limit publishes the error, judges it, and steers against it by one step. */
  ghost predicate Steers(u: Setup, r: ClockState, resets: int, e: Env, error: int) {
    && r.pllErr == error && (r.dcPhased <==> AbsInt(error) < u.cfg.period / 10)
    && r.resetCnt == resets
    && Correction(r, u.cfg, e) == (if error < 0 then e.pllDrift - u.step else e.pllDrift + u.step)
  }

  lemma WriteSteers(u: Setup, c: ClockState, e: Env, dc: int, raw: int, n: nat)
    requires u.Valid() && InLoop(u, c, dc, raw) && Inputs(u, e, dc)
    requires !Trips(raw, u.cfg, u.maxErr) && (u.mode == 0 ==> Compensating(u, c, n + 1))
    ensures Steers(u, ControlStep(c, u.cfg, u.base, e), c.resetCnt, e, FirstError(u, c, raw))
  {
    hide U64, U32, S32, FoldTwice, Trips, ResyncCorr, AppPhase, AppTime;
    OffsetSeen(u, c, e, dc, raw);
    SmallSum(u.step, e.pllDrift);
    if u.mode == 0 {
      PlaceInCycle(u, c, e, n);
    }
  }

  lemma SmallSum(step: nat, drift: int)
    requires IsS32(drift - step) && IsS32(drift + step)
    ensures S32(S32(step) + drift) == drift + step && S32(S32(0 - step) + drift) == drift - step
  {
  }

  lemma OffsetSeen(u: Setup, c: ClockState, e: Env, dc: int, raw: int)
    requires u.Valid() && InLoop(u, c, dc, raw) && Inputs(u, e, dc)
    ensures c.validLast && RawOffset(c, e) == raw
  {
    WrapInside(c.appTimeLast, dc);
  }

  lemma PlaceInCycle(u: Setup, c: ClockState, e: Env, n: nat)
    requires u.Valid() && Compensating(u, c, n + 1) && e.now - e.ref == u.k
    ensures var now := u.base.appTimeBase + c.dcRef + u.k;
            && AppPhase(AppTime(c, u.cfg, u.base, e), u.base, u.cfg) == (now - u.base.dcRefTime) % u.cfg.period
            && U64(c.dcRef + u.cfg.period) == c.dcRef + u.cfg.period
  {
    MulStep(n, u.cfg.period);
    assert n * u.cfg.period >= 0;
    var now := u.base.appTimeBase + c.dcRef + u.k;
    assert U64(now) == now && U64(now - u.base.dcRefTime) == now - u.base.dcRefTime;
  }

  /** The times go on by one period, and the place in the cycle stays. */
  lemma TimesGoOn(u: Setup, c: ClockState, e: Env, dc: int, raw: int, n: nat)
    requires u.Valid() && u.mode == 0 && InLoop(u, c, dc, raw) && Inputs(u, e, dc) && !Trips(raw, u.cfg, u.maxErr)
    requires Compensating(u, c, n + 1)
    ensures var r := ControlStep(c, u.cfg, u.base, e);
            Compensating(u, r, n) && Compensation(u, r) == Compensation(u, c)
  {
    hide ControlStep, U64, U32, S32, Trips, AppPhase, AppTime;
    OffsetSeen(u, c, e, dc, raw);
    RefFields(c, u.cfg, u.base, e);
    DelayStep(c, u.cfg, u.base, e);
    PlaceInCycle(u, c, e, n);
    NextPlace(u, c, ControlStep(c, u.cfg, u.base, e), n);
  }

  lemma NextPlace(u: Setup, c: ClockState, r: ClockState, n: nat)
    requires u.Valid() && Compensating(u, c, n + 1)
    requires r.dcRef == c.dcRef + u.cfg.period && r.autoDriftDelay == c.autoDriftDelay
    ensures Compensating(u, r, n) && Compensation(u, r) == Compensation(u, c)
  {
    MulStep(n, u.cfg.period);
    SamePlace(u.base.appTimeBase + c.dcRef + u.k, u.base.dcRefTime, u.cfg.period);
  }

  lemma SamePlace(now: int, ref: int, p: int)
    requires p > 0
    ensures (now + p - ref) % p == (now - ref) % p
  {
    var q, r := (now - ref) / p, (now - ref) % p;
    assert now - ref == p * q + r;
    assert p * (q + 1) == p * q + p;
    EuclidUnique(now + p - ref, p, q + 1, r);
  }

  /** The offset follows the correction: what the thread waits longer, the DC clock gains on it. */
  lemma OffsetFollows(u: Setup, c: ClockState, e: Env, dc: int, raw: int, dcNext: int)
    requires u.Valid() && InLoop(u, c, dc, raw) && Inputs(u, e, dc) && !Trips(raw, u.cfg, u.maxErr)
    requires IsS32(raw - (dcNext - dc - u.cfg.period))
    ensures InLoop(u, ControlStep(c, u.cfg, u.base, e), dcNext, raw - (dcNext - dc - u.cfg.period))
  {
    hide ControlStep, S32, Trips;
    var p := u.cfg.period;
    UndisturbedStep(c, u.cfg, u.base, e, u.k, dc, Drifting(raw, false), u.maxErr);
    var r, moved := ControlStep(c, u.cfg, u.base, e), dcNext - dc - p;
    SubtractWrapped(u.base.appTimeBase + r.dcRef + u.k - (dc + p + p), moved);
    SubtractWrapped(r.appTimeLast - (dc + p), moved);
    assert u.base.appTimeBase + r.dcRef + u.k - (dc + p + p) - moved
        == u.base.appTimeBase + r.dcRef + u.k - (dcNext + p);
    assert r.appTimeLast - (dc + p) - moved == r.appTimeLast - dcNext;
  }

  // --- inside the limit ---

  /** The fold takes the same number of periods off at every offset between the first one and the goal. */
  lemma FoldStays(u: Setup, raw: int, drift: int, x: int)
    requires u.Valid() && 0 <= drift < u.cfg.period && AbsInt(raw) <= u.Limit()
    requires var start := FoldTwice(S32(raw + drift), u.cfg);
      AbsInt(raw - start) + u.step + u.slack <= u.Limit() && Between(u, start, x)
    ensures FoldTwice(S32(raw - FoldTwice(S32(raw + drift), u.cfg) + x + drift), u.cfg) == x
  {
    hide S32, FoldTwice;
    SmallS32(raw + drift);
    SmallFold(raw + drift, u.cfg);
    var m := if raw + drift > u.cfg.Half() then 1 else 0;
    SmallS32(raw - FoldTwice(raw + drift, u.cfg) + x + drift);
    SmallFold(x + m * u.cfg.period, u.cfg);
  }

  lemma SmallFold(x: int, cfg: Config)
    requires cfg.Valid() && -cfg.Half() <= x <= cfg.period + cfg.Half()
    ensures FoldTwice(x, cfg) == if x > cfg.Half() then x - cfg.period else x
  {
  }

  lemma SmallS32(x: int)
    requires IsS32(x)
    ensures S32(x) == x
  {
  }

  /** An offset between the first one and the goal is within the limit. */
  lemma InsideLimit(u: Setup, raw: int, start: int, x: int)
    requires u.Valid() && AbsInt(raw) <= u.Limit() && AbsInt(raw - start) + u.step + u.slack <= u.Limit()
    requires Between(u, start, x)
    ensures AbsInt(raw - start + x) <= u.Limit() && !Trips(raw - start + x, u.cfg, u.maxErr)
  {
  }

  // --- whole runs ---

  /** The i-th write is about to see the error x, left writes before the end of the run. */
  ghost predicate OnTheWay(u: Setup, c: ClockState, raw: int, d: ClockState, dc: int, i: nat, left: nat, x: int)
    requires u.Valid()
  {
    var start := FirstError(u, c, raw);
    && InLoop(u, d, dc, raw - start + x) && Course(u, start, i, x)
    && d.resetCnt == c.resetCnt
    && (u.mode == 0 ==> Compensating(u, d, left)) && Compensation(u, d) == Compensation(u, c)
  }

  /** One write on the way sees the error x, and the next one sees it steered. */
  lemma WriteOnTheWay(
    u: Setup, c: ClockState, raw: int, d: ClockState, e: Env, dc: int, dcNext: int, i: nat, left: nat, x: int)
    returns (y: int)
    requires u.Valid() && OnTheWay(u, c, raw, d, dc, i, left + 1, x) && Inputs(u, e, dc)
    requires AbsInt(raw) <= u.Limit() && AbsInt(raw - FirstError(u, c, raw)) + u.step + u.slack <= u.Limit()
    requires var applied := Correction(ControlStep(d, u.cfg, u.base, e), u.cfg, e);
      AbsInt(Disturbance(e, u.cfg, dc, dcNext, applied)) <= u.slack
    ensures var r := ControlStep(d, u.cfg, u.base, e);
      Steers(u, r, c.resetCnt, e, x) && OnTheWay(u, c, raw, r, dcNext, i + 1, left, y)
  {
    hide ControlStep, InLoop, Compensating, Compensation, FoldTwice, S32, Trips, Correction, Course, Setup.Limit,
         UndisturbedEnv;
    var start, r := FirstError(u, c, raw), ControlStep(d, u.cfg, u.base, e);
    var now := raw - start + x;
    CourseIsBetween(u, start, i, x);
    InsideLimit(u, raw, start, x);
    FoldStays(u, raw, Compensation(u, c), x);
    WriteSteers(u, d, e, dc, now, left);
    var v := Disturbance(e, u.cfg, dc, dcNext, Correction(r, u.cfg, e));
    y := Steered(x, u.step, v);
    CourseGoesOn(u, start, i, x, v);
    CourseIsBetween(u, start, i + 1, y);
    InsideLimit(u, raw, start, y);
    assert now - (dcNext - dc - u.cfg.period) == raw - start + y;
    LimitIsSmall(u);
    OffsetFollows(u, d, e, dc, now, dcNext);
    if u.mode == 0 {
      TimesGoOn(u, d, e, dc, now, left);
    } else {
      NoCompensation(u, d, r);
    }
  }

  lemma CourseIsBetween(u: Setup, start: int, i: nat, x: int)
    requires Course(u, start, i, x)
    ensures Between(u, start, x)
  {
  }

  lemma LimitIsSmall(u: Setup)
    requires u.Valid()
    ensures 2 * u.Limit() < TWO_31
  {
  }

  lemma NoCompensation(u: Setup, c: ClockState, d: ClockState)
    requires u.Valid() && u.mode != 0
    ensures Compensation(u, c) == Compensation(u, d)
  {
  }

  lemma {:induction false} Runs(u: Setup, c: ClockState, raw: int, envs: seq<Env>, dc: seq<int>, i: nat)
    returns (x: int)
    requires u.Valid() && Plant(u, c, envs, dc) && Starts(u, c, dc[0], raw, |envs|) && i <= |envs|
    ensures OnTheWay(u, c, raw, ControlRun(c, u.cfg, u.base, envs[..i]), dc[i], i, |envs| - i, x)
  {
    hide ControlStep, InLoop, Compensating, Compensation, FoldTwice, S32, Correction, Course, Setup.Limit, Disturbance,
         FirstError, Inputs;
    if i == 0 {
      x := FirstError(u, c, raw);
      CourseStarts(u, x);
    } else {
      var before := Runs(u, c, raw, envs, dc, i - 1);
      x := RunsOn(u, c, raw, envs, dc, i - 1, before);
    }
  }

  /** The i-th write of a run that is on the way. */
  lemma RunsOn(u: Setup, c: ClockState, raw: int, envs: seq<Env>, dc: seq<int>, i: nat, x: int) returns (y: int)
    requires u.Valid() && Plant(u, c, envs, dc) && Starts(u, c, dc[0], raw, |envs|) && i < |envs|
    requires OnTheWay(u, c, raw, ControlRun(c, u.cfg, u.base, envs[..i]), dc[i], i, |envs| - i, x)
    ensures var r := ControlRun(c, u.cfg, u.base, envs[..i + 1]);
      Steers(u, r, c.resetCnt, envs[i], x) && OnTheWay(u, c, raw, r, dc[i + 1], i + 1, |envs| - i - 1, y)
  {
    hide ControlStep, InLoop, Compensating, Compensation, FoldTwice, S32, Correction, Course, Setup.Limit, Disturbance,
         FirstError, Inputs, OnTheWay, Steers;
    assert envs[..i + 1][..i] == envs[..i];
    var d := ControlRun(c, u.cfg, u.base, envs[..i]);
    y := WriteOnTheWay(u, c, raw, d, envs[i], dc[i], dc[i + 1], i, |envs| - i - 1, x);
  }

  /**
   The controller converges. The i-th write of any such run sees an error that has come down by pll-step per
   write, exactly when nothing is left of the drift, until it is within one step of zero, where it stays;
   dc-phased says whether it is below a tenth of the period; the correction slows the thread down while the
   master's time is ahead and speeds it up while it is behind; and no write resynchronises.
   */
  lemma ErrorComesDown(u: Setup, c: ClockState, raw: int, envs: seq<Env>, dc: seq<int>, i: nat)
    requires u.Valid() && Plant(u, c, envs, dc) && Starts(u, c, dc[0], raw, |envs|) && i < |envs|
    ensures var r, start := ControlRun(c, u.cfg, u.base, envs[..i + 1]), FirstError(u, c, raw);
      && AbsInt(r.pllErr) <= Max(AbsInt(start) - i * (u.step - u.slack), u.step + u.slack)
      && (u.slack == 0 && i * u.step <= AbsInt(start) ==> AbsInt(r.pllErr) == AbsInt(start) - i * u.step)
      && (r.dcPhased <==> AbsInt(r.pllErr) < u.cfg.period / 10)
      && r.resetCnt == c.resetCnt
      && Correction(r, u.cfg, envs[i]) == envs[i].pllDrift + (if r.pllErr < 0 then 0 - u.step else u.step)
  {
    hide ControlStep, ControlRun, Plant, Starts, FirstError, Correction;
    var x := Runs(u, c, raw, envs, dc, i);
    var _ := RunsOn(u, c, raw, envs, dc, i, x);
  }

  /** From every state there are such runs of every length: the DC clock just has to obey the corrections. */
  lemma {:induction false} RunsExist(u: Setup, c: ClockState, start: int, n: nat) returns (envs: seq<Env>, dc: seq<int>)
    requires u.Valid() && u.step < TWO_31
    ensures |envs| == n && Plant(u, c, envs, dc) && dc[0] == start
  {
    if n == 0 {
      envs, dc := [], [start];
    } else {
      var before, seen := RunsExist(u, c, start, n - 1);
      var e := Env(u.k, 0, u.cfg.period, U32(seen[n - 1]), true, u.mode, 0, u.step, u.maxErr);
      envs := before + [e];
      var applied := Correction(ControlRun(c, u.cfg, u.base, envs), u.cfg, e);
      dc := seen + [seen[n - 1] + u.cfg.period + applied];
      PlantGrows(u, c, before, seen, e, dc[n]);
    }
  }

  lemma PlantGrows(u: Setup, c: ClockState, envs: seq<Env>, dc: seq<int>, e: Env, dcNext: int)
    requires u.Valid() && Plant(u, c, envs, dc) && Inputs(u, e, dc[|envs|])
    requires var applied := Correction(ControlRun(c, u.cfg, u.base, envs + [e]), u.cfg, e);
      AbsInt(Disturbance(e, u.cfg, dc[|envs|], dcNext, applied)) <= u.slack
    ensures Plant(u, c, envs + [e], dc + [dcNext])
  {
    hide Inputs, ControlRun, Correction, Disturbance;
    var all, times, n := envs + [e], dc + [dcNext], |envs|;
    assert all[..n + 1] == all;
    forall i {:trigger all[i]} | 0 <= i < |all|
      ensures Inputs(u, all[i], times[i])
      ensures var applied := Correction(ControlRun(c, u.cfg, u.base, all[..i + 1]), u.cfg, all[i]);
        AbsInt(Disturbance(all[i], u.cfg, times[i], times[i + 1], applied)) <= u.slack
    {
      if i < n {
        assert all[..i + 1] == envs[..i + 1] && all[i] == envs[i];
      }
    }
  }

  /** A controller without a valid reading is in the loop after its first one. */
  lemma FirstReading(u: Setup, c: ClockState, e: Env, dc: int, dcNext: int)
    requires u.Valid() && Inputs(u, e, dc) && !c.validLast
    ensures InLoop(u, ControlStep(c, u.cfg, u.base, e), dcNext, S32(u.base.appTimeBase + c.dcRef + u.k - dcNext))
  {
    hide ControlStep, U64, U32, S32;
    RefFields(c, u.cfg, u.base, e);
    var a, p := u.base.appTimeBase + c.dcRef + u.k, u.cfg.period;
    WrapInside(a, dcNext);
    NextOffset(c.dcRef + p, 0, u.base.appTimeBase + u.k - (dcNext + p), ControlStep(c, u.cfg, u.base, e).dcRef);
    assert c.dcRef + p - 0 + (u.base.appTimeBase + u.k - (dcNext + p)) == a - dcNext;
    assert u.base.appTimeBase + ControlStep(c, u.cfg, u.base, e).dcRef + u.k - (dcNext + p)
        == ControlStep(c, u.cfg, u.base, e).dcRef + (u.base.appTimeBase + u.k - (dcNext + p));
  }

  /** Without compensation the error is the offset; with it, it vanishes at the place of the write in the cycle. */
  lemma FirstErrorIs(u: Setup, c: ClockState, raw: int)
    requires u.Valid() && AbsInt(raw) <= u.Limit()
    ensures AbsInt(FirstError(u, c, raw)) <= u.cfg.period / 2
    ensures u.mode != 0 ==> FirstError(u, c, raw) == raw
    ensures u.mode == 0 ==>
      var now := u.base.appTimeBase + c.dcRef + u.k;
      Congruent(FirstError(u, c, raw), raw - (now - u.base.dcRefTime) % u.cfg.period, u.cfg.period)
  {
    hide S32, Congruent;
    var p, drift := u.cfg.period, Compensation(u, c);
    SmallS32(raw + drift);
    FoldOfOffset(raw, drift, u.cfg);
    if u.mode == 0 {
      var place := (u.base.appTimeBase + c.dcRef + u.k - u.base.dcRefTime) % p;
      ModCongruent(p - place, p);
      CongruentBy(p - place, -place, p, 1);
      CongruentTrans(drift, p - place, -place, p);
      CongruentRefl(raw, p);
      CongruentAdd(raw, raw, drift, -place, p);
      CongruentTrans(FirstError(u, c, raw), raw + drift, raw - place, p);
    }
  }

  // --- syncToRefClock off ---

  /** The place in the cycle at which a write finds itself. */
  function PhaseAt(cfg: Config, b: Base, e: Env): int
    requires cfg.Valid()
  {
    (b.appTimeBase + e.now - b.dcRefTime) % cfg.period
  }

  /** The thread runs one period plus the applied correction from write to write; its times are 64-bit numbers. */
  ghost predicate Thread(c: ClockState, cfg: Config, b: Base, envs: seq<Env>, step: nat)
    requires cfg.Valid()
  {
    && 0 <= b.dcRefTime
    && (forall i {:trigger envs[i]} :: 0 <= i < |envs| ==>
      && envs[i].pllStep == step && envs[i].pllDrift == 0 && b.dcRefTime <= b.appTimeBase + envs[i].now < TWO_64)
    && (forall i, j {:trigger envs[i], envs[j]} :: 0 <= i && j == i + 1 < |envs| ==>
      envs[j].now == envs[i].now + cfg.period + Correction(ControlRun(c, cfg, b, envs[..j]), cfg, envs[i]))
  }

  lemma PhaseSeen(c: ClockState, cfg: Config, b: Base, e: Env)
    requires cfg.Valid() && !cfg.syncToRef && 0 <= b.dcRefTime <= b.appTimeBase + e.now < TWO_64
    ensures AppPhase(AppTime(c, cfg, b, e), b, cfg) == PhaseAt(cfg, b, e)
  {
    assert U64(b.appTimeBase + e.now) == b.appTimeBase + e.now;
  }

  lemma PhaseMoves(x: int, correction: int, p: int)
    requires p > 0
    ensures (x + p + correction) % p == (x % p + correction) % p
  {
    var q, r := x / p, (x % p + correction) % p;
    var s := (x % p + correction) / p;
    assert x == p * q + x % p && x % p + correction == p * s + r;
    assert p * (q + s + 1) == p * q + p * s + p;
    EuclidUnique(x + p + correction, p, q + s + 1, r);
  }

  /** One write is one cycle of the ideal loop, apart from the two fields the loop does not look at. */
  lemma WriteIsCycle(c: ClockState, cfg: Config, b: Base, e: Env, phase: int)
    requires cfg.Valid() && !cfg.syncToRef && e.pllDrift == 0
    requires phase == AppPhase(AppTime(c, cfg, b, e), b, cfg)
    ensures var r, l := ControlStep(c, cfg, b, e), LoopStep(Loop(c, phase), cfg, e.pllStep);
            && l.c == r.(validLast := c.validLast, appTimeLast := c.appTimeLast)
            && l.phase == (phase + Correction(r, cfg, e)) % cfg.period
  {
    hide AppPhase, AppTime, Measure, Track, U32, S32, DcValid;
    var valid := DcValid(cfg, b, e);
    MeasureIgnores(c.(pllErr := 0, pllOut := 0), cfg, phase, valid);
    TrackIgnores(c.(pllErr := 0, pllOut := 0), cfg, phase, e.pllStep, valid);
  }

  lemma MeasureIgnores(c: ClockState, cfg: Config, phase: int, valid: bool)
    requires cfg.Valid()
    ensures Measure(c.(validLast := valid), cfg, phase) == Measure(c, cfg, phase).(validLast := valid)
    ensures Measure(c, cfg, phase).validLast == c.validLast && Measure(c, cfg, phase).appTimeLast == c.appTimeLast
  {
    hide Unwrap, Min, Max, Quot;
  }

  lemma DwellIgnores(c: ClockState, cfg: Config, locked: bool, valid: bool)
    ensures Dwell(c.(validLast := valid), cfg, locked) == Dwell(c, cfg, locked).(validLast := valid)
    ensures Dwell(c, cfg, locked).validLast == c.validLast && Dwell(c, cfg, locked).appTimeLast == c.appTimeLast
  {
  }

  lemma TrackIgnores(c: ClockState, cfg: Config, phase: int, step: nat, valid: bool)
    requires cfg.Valid()
    ensures Track(c.(validLast := valid), cfg, phase, step) == Track(c, cfg, phase, step).(validLast := valid)
    ensures Track(c, cfg, phase, step).validLast == c.validLast
    ensures Track(c, cfg, phase, step).appTimeLast == c.appTimeLast
  {
    hide LockedAfter, S32, AbsInt, Dwell;
    var error := phase - c.target;
    var locked := LockedAfter(cfg, c.locked, error);
    var out := if locked || error == 0 then c.pllOut else if error > 0 then S32(0 - step) else S32(step);
    DwellIgnores(c.(pllErr := error, pllOut := if locked then 0 else out), cfg, locked, valid);
  }

  /**
   The writes of a thread that obeys the corrections follow the ideal loop: after n writes from the calibration
   on, the phase at the next write, the lock, the dwell counter and the pin are on course.
   */
  lemma {:induction false} ThreadConverges(c: ClockState, cfg: Config, b: Base, envs: seq<Env>, step: nat, n: nat)
    requires cfg.Valid() && !cfg.syncToRef && !cfg.initf && Ready(c, cfg) && 0 < step <= cfg.LockWin()
    requires n < |envs| && Thread(c, cfg, b, envs, step)
    ensures var now := Loop(ControlRun(c, cfg, b, envs[..n]), PhaseAt(cfg, b, envs[n]));
      OnCourse(now, Loop(c, PhaseAt(cfg, b, envs[0])), cfg, step, n)
  {
    hide Ready, ControlStep, PhaseAt, LoopStep, Correction;
    var start := Loop(c, PhaseAt(cfg, b, envs[0]));
    if n > 0 {
      ThreadConverges(c, cfg, b, envs, step, n - 1);
      var d, e := ControlRun(c, cfg, b, envs[..n - 1]), envs[n - 1];
      assert envs[..n][..n - 1] == envs[..n - 1];
      PhaseSeen(d, cfg, b, e);
      WriteIsCycle(d, cfg, b, e, PhaseAt(cfg, b, e));
      PhaseInPeriod(cfg, b, envs[0]);
      CourseStep(Loop(d, PhaseAt(cfg, b, e)), start, cfg, step, n - 1);
      NextPhase(cfg, b, e, envs[n], Correction(ControlStep(d, cfg, b, e), cfg, e));
    } else {
      PhaseInPeriod(cfg, b, envs[0]);
      Converges(start, cfg, step, 0);
    }
  }

  lemma PhaseInPeriod(cfg: Config, b: Base, e: Env)
    requires cfg.Valid()
    ensures 0 <= PhaseAt(cfg, b, e) < cfg.period
  {
  }

  lemma NextPhase(cfg: Config, b: Base, e: Env, f: Env, correction: int)
    requires cfg.Valid() && f.now == e.now + cfg.period + correction
    ensures PhaseAt(cfg, b, f) == (PhaseAt(cfg, b, e) + correction) % cfg.period
  {
    PhaseMoves(b.appTimeBase + e.now - b.dcRefTime, correction, cfg.period);
  }
}
