/**
 The process-data scheduler of a master: Sync Units with integer dividers, forced cycling until
 every slave is operational, and the queue/process handshake between write and read.
 */
module SyncUnits {
  import opened CInt

  /** The scheduling fields of lcec_sync_unit_t. */
  datatype UnitState = UnitState(
    cycleTime: nat, divider: nat, counter: nat, queued: bool, process: bool, write: bool)

  // --- one unit, one step ---

  /** lcec_write_master: due units are written; until the start every unit is due in every cycle. */
  function Schedule(u: UnitState, force: bool): UnitState {
    if force then u.(write := true, counter := 0)
    else if u.counter == 0 then u.(write := true, counter := if u.divider == 0 then 0 else u.divider - 1)
    else u.(write := false, counter := u.counter - 1)
  }

  function Queue(u: UnitState): UnitState {
    u.(queued := u.queued || u.write)
  }

  /** lcec_read_master: a queued exchange is processed once. */
  function Process(u: UnitState): UnitState {
    u.(process := u.queued, queued := false)
  }

  /** A unit as lcec_master_get_sync_unit creates it. */
  predicate Fresh(u: UnitState, period: nat) {
    && u.divider >= 1 && u.cycleTime == u.divider * period
    && u.counter == 0 && u.queued && !u.process && !u.write
  }

  // --- whole runs: one read and one write per cycle ---

  /** The master flag and one of its units. */
  datatype System = System(started: bool, u: UnitState)

  /** One cycle: the read may latch the start, then the write schedules and queues. */
  function Cycle(s: System, allOp: bool): System {
    var started := s.started || allOp;
    System(started, Queue(Schedule(Process(s.u), !started)))
  }

  /** The state after the write of the last cycle of a run. */
  function Run(s: System, ops: seq<bool>): System
    decreases |ops|
  {
    if ops == [] then s else Cycle(Run(s, ops[..|ops| - 1]), ops[|ops| - 1])
  }

  /** The number of cycles since every slave was first seen operational, itself included. */
  function SinceStart(ops: seq<bool>): nat
    ensures SinceStart(ops) <= |ops|
    decreases |ops|
  {
    if ops == [] then 0
    else
      var k := SinceStart(ops[..|ops| - 1]);
      if k > 0 then k + 1 else if ops[|ops| - 1] then 1 else 0
  }

  /** Where a unit stands k cycles after the start; k < 0 is before it. */
  ghost predicate OnSchedule(s: System, k: int, d: nat, time: nat) {
    && s.u.divider == d >= 1 && s.u.cycleTime == time
    && (s.started <==> k >= 0)
    && (k < 0 ==> s.u.write && s.u.counter == 0)
    && (k >= 0 ==> s.u.counter == d - 1 - k % d && (s.u.write <==> k % d == 0))
  }

  lemma CycleKeepsSchedule(s: System, k: int, d: nat, time: nat, allOp: bool)
    requires OnSchedule(s, k, d, time) && -1 <= k
    ensures OnSchedule(Cycle(s, allOp), if k >= 0 then k + 1 else if allOp then 0 else -1, d, time)
  {
    if k >= 0 {
      NextResidue(k, d);
    }
  }

  /**
   The exact schedule: before the start a unit is written in every cycle; the k-th write after it
   happens iff k % divider == 0 and leaves divider - 1 - k % divider cycles to wait.
   */
  lemma {:induction false} ExactSchedule(u: UnitState, period: nat, ops: seq<bool>)
    requires Fresh(u, period) && ops != []
    ensures OnSchedule(Run(System(false, u), ops), SinceStart(ops) - 1, u.divider, u.cycleTime)
    decreases |ops|
  {
    hide OnSchedule, Cycle, Fresh;
    var n := |ops|;
    var before := ops[..n - 1];
    if n > 1 {
      ExactSchedule(u, period, before);
      CycleKeepsSchedule(Run(System(false, u), before), SinceStart(before) - 1, u.divider, u.cycleTime, ops[n - 1]);
    } else {
      assert Run(System(false, u), before) == System(false, u);
      FirstCycle(u, period, ops[0]);
    }
  }

  lemma FirstCycle(u: UnitState, period: nat, allOp: bool)
    requires Fresh(u, period)
    ensures OnSchedule(Cycle(System(false, u), allOp), if allOp then 0 else -1, u.divider, u.cycleTime)
  {
  }

  /** The handshake: a unit is processed iff it was written in the cycle before, or has just been created. */
  lemma {:induction false} ProcessedIffWritten(u: UnitState, period: nat, ops: seq<bool>)
    requires Fresh(u, period) && ops != []
    ensures var before := Run(System(false, u), ops[..|ops| - 1]);
            && Run(System(false, u), ops).u.process == (|ops| == 1 || before.u.write)
            && Run(System(false, u), ops).u.queued == Run(System(false, u), ops).u.write
    decreases |ops|
  {
  }

  // --- counting over the cycles after the start ---

  /** How often the unit is written in the cycles after the start. */
  function Writes(u: UnitState, ops: seq<bool>): nat
    decreases |ops|
  {
    if ops == [] then 0
    else Writes(u, ops[..|ops| - 1]) + (if SinceStart(ops) > 0 && Run(System(false, u), ops).u.write then 1 else 0)
  }

  /** The sum of the periods handed to a slave's write callback in those cycles. */
  function HandedTime(u: UnitState, ops: seq<bool>): nat
    decreases |ops|
  {
    if ops == [] then 0
    else
      var r := Run(System(false, u), ops).u;
      HandedTime(u, ops[..|ops| - 1]) + (if SinceStart(ops) > 0 && r.write then r.cycleTime else 0)
  }

  /** w == ceil(n/d): w*d is the first multiple of d from n on. */
  ghost predicate IsCeiling(w: int, n: int, d: int) {
    n <= w * d < n + d
  }

  /** The n cycles after the start contain exactly ceil(n/d) writes. */
  lemma {:induction false} WritesAreCeiling(u: UnitState, period: nat, ops: seq<bool>)
    requires Fresh(u, period)
    ensures IsCeiling(Writes(u, ops), SinceStart(ops), u.divider)
    ensures HandedTime(u, ops) == Writes(u, ops) * u.cycleTime
    decreases |ops|
  {
    if ops != [] {
      var before := ops[..|ops| - 1];
      WritesAreCeiling(u, period, before);
      ExactSchedule(u, period, ops);
      CeilingStep(SinceStart(before), u.divider, Writes(u, before));
      MulStep(Writes(u, before), u.cycleTime);
    }
  }

  lemma CeilingStep(k: int, d: int, w: int)
    requires d >= 1 && IsCeiling(w, k, d)
    ensures IsCeiling(if k % d == 0 then w + 1 else w, k + 1, d)
    ensures k % d == 0 ==> w * d == k
  {
    MulStep(w, d);
    if k % d == 0 {
      assert k == (k / d) * d;
      SameMultiple(w, k / d, d);
    } else if w * d == k {
      EuclidUnique(k, d, w, 0);
    }
  }

  /** Time is conserved: n cycles hand out at least n and less than n + d periods, exactly n when d divides n. */
  lemma TimeConserved(u: UnitState, period: nat, ops: seq<bool>)
    requires Fresh(u, period)
    ensures var n := SinceStart(ops);
            && n * period <= HandedTime(u, ops)
            && (period > 0 ==> HandedTime(u, ops) < (n + u.divider) * period)
            && (n % u.divider == 0 ==> HandedTime(u, ops) == n * period)
  {
    var n, w := SinceStart(ops), Writes(u, ops);
    WritesAreCeiling(u, period, ops);
    CeilingStep(n, u.divider, w);
    MulAssoc(w, u.divider, period);
    TimeBounds(w * u.divider, n, u.divider, period);
  }

  lemma TimeBounds(x: nat, n: nat, d: nat, period: nat)
    requires n <= x < n + d
    ensures n * period <= x * period
    ensures period > 0 ==> x * period < (n + d) * period
  {
  }

  /** If one divider divides the other, every write of the slower unit coincides with one of the faster. */
  lemma NestedDividersCoincide(fast: UnitState, slow: UnitState, period: nat, ops: seq<bool>)
    requires Fresh(fast, period) && Fresh(slow, period) && ops != []
    requires slow.divider % fast.divider == 0
    ensures Run(System(false, slow), ops).u.write ==> Run(System(false, fast), ops).u.write
  {
    ExactSchedule(fast, period, ops);
    ExactSchedule(slow, period, ops);
    var k := SinceStart(ops) - 1;
    if k >= 0 && k % slow.divider == 0 {
      ModDivides(k, fast.divider, slow.divider);
    }
  }
}

/** The master object: the unit table, the slaves and the cyclic functions over them. */
module SyncMaster {
  import opened SyncUnits

  const AL_STATE_OP := 8
  const STATE_UPDATE_PERIOD := 1_000_000_000

  class SyncUnit {
    const name: string
    const cycleTime: nat
    const divider: nat
    var counter: nat
    var processData: nat
    var queued: bool
    var process: bool
    var write: bool

    function State(): UnitState
      reads this
    {
      UnitState(cycleTime, divider, counter, queued, process, write)
    }

    constructor (name: string, cycleTime: nat, divider: nat)
      ensures this.name == name && this.cycleTime == cycleTime && this.divider == divider
      ensures State() == UnitState(cycleTime, divider, 0, true, false, false)
    {
      this.name, this.cycleTime, this.divider := name, cycleTime, divider;
      counter, processData := 0, 0;
      queued, process, write := true, false, false;
    }
  }

  /** A slave: its unit, and whether its driver registered callbacks. */
  datatype Slave = Slave(unit: SyncUnit, hasRead: bool, hasWrite: bool)

  /** A callback comes from a read, from a write before the start, or from a write after it. */
  datatype Phase = Reading | Forced | Scheduled

  /** One driver callback: which slave, the period it is told, the process data the master shows it. */
  datatype Call = Call(phase: Phase, slave: nat, period: nat, processData: nat)

  /** A unit's cycle is its divider times the base period. */
  predicate WellTimed(u: SyncUnit, period: nat) {
    u.divider >= 1 && u.cycleTime == u.divider * period && u.cycleTime > 0
  }

  /** What a read or a write needs to know of a slave. */
  datatype View = View(selected: bool, period: nat, processData: nat)

  function ViewOf(s: Slave, reading: bool): View
    reads s.unit`process, s.unit`write, s.unit`processData
  {
    View(
      if reading then s.unit.process && s.hasRead else s.unit.write && s.hasWrite,
      s.unit.cycleTime, s.unit.processData)
  }

  ghost function Views(slaves: seq<Slave>, reading: bool): (r: seq<View>)
    reads (set s | s in slaves :: s.unit)`process, (set s | s in slaves :: s.unit)`write,
      (set s | s in slaves :: s.unit)`processData
    ensures |r| == |slaves|
    ensures forall i :: 0 <= i < |slaves| ==> r[i] == ViewOf(slaves[i], reading)
  {
    if slaves == [] then [] else [ViewOf(slaves[0], reading)] + Views(slaves[1..], reading)
  }

  /** The callbacks of one pass over the slaves, from the given one on. */
  ghost function Calls(views: seq<View>, phase: Phase, from: nat): seq<Call>
    requires from <= |views|
    decreases |views| - from
  {
    if from == |views| then [] else
      var v := views[from];
      (if v.selected then [Call(phase, from, v.period, v.processData)] else []) + Calls(views, phase, from + 1)
  }

  lemma CallsStep(made: seq<Call>, views: seq<View>, phase: Phase, from: nat)
    requires from < |views|
    ensures made + Calls(views, phase, from) ==
      made + (if views[from].selected then [Call(phase, from, views[from].period, views[from].processData)] else [])
      + Calls(views, phase, from + 1)
  {
  }

  lemma CallsNone(made: seq<Call>, views: seq<View>, phase: Phase)
    ensures made + Calls(views, phase, |views|) == made
  {
  }

  /** A call that the pass from the given slave on has to make. */
  predicate Due(c: Call, views: seq<View>, phase: Phase, from: nat) {
    c.phase == phase && from <= c.slave < |views| && views[c.slave] == View(true, c.period, c.processData)
  }

  ghost predicate InOrder(calls: seq<Call>) {
    forall i, j :: 0 <= i < j < |calls| ==> calls[i].slave < calls[j].slave
  }

  /** Exactly the selected slaves are called, each once and in order, with their own unit's period and data. */
  lemma {:induction false} CallsSeeTheirOwnUnit(views: seq<View>, phase: Phase, from: nat)
    requires from <= |views|
    ensures forall c :: c in Calls(views, phase, from) <==> Due(c, views, phase, from)
    ensures InOrder(Calls(views, phase, from))
    decreases |views| - from
  {
    if from < |views| {
      CallsSeeTheirOwnUnit(views, phase, from + 1);
      var rest, v := Calls(views, phase, from + 1), views[from];
      var first := if v.selected then [Call(phase, from, v.period, v.processData)] else [];
      assert Calls(views, phase, from) == first + rest;
      forall c
        ensures c in first + rest <==> Due(c, views, phase, from)
      {
        assert c in first <==> Due(c, views, phase, from) && c.slave == from;
        assert c in rest <==> Due(c, views, phase, from + 1);
      }
      assert forall j :: 0 <= j < |rest| ==> rest[j] in rest;
      OneMoreInFront(first, rest, from);
    }
  }

  lemma OneMoreInFront(first: seq<Call>, rest: seq<Call>, from: nat)
    requires |first| <= 1 && (first != [] ==> first[0].slave == from)
    requires InOrder(rest) && forall j :: 0 <= j < |rest| ==> from < rest[j].slave
    ensures InOrder(first + rest)
  {
  }

  /** The periods that one slave has been told by the writes after the start, in total. */
  ghost function PeriodsOf(calls: seq<Call>, slave: nat): nat
    decreases |calls|
  {
    if calls == [] then 0
    else
      var last := calls[|calls| - 1];
      PeriodsOf(calls[..|calls| - 1], slave)
      + (if last.phase == Scheduled && last.slave == slave then last.period else 0)
  }

  lemma {:induction false} PeriodsAppend(a: seq<Call>, b: seq<Call>, slave: nat)
    ensures PeriodsOf(a + b, slave) == PeriodsOf(a, slave) + PeriodsOf(b, slave)
    decreases |b|
  {
    if b == [] {
      assert a + b == a;
    } else {
      assert (a + b)[..|a + b| - 1] == a + b[..|b| - 1];
      PeriodsAppend(a, b[..|b| - 1], slave);
    }
  }

  /** One pass tells a slave its unit's period once, if it is selected. */
  lemma {:induction false} PeriodsOfPass(views: seq<View>, phase: Phase, from: nat, slave: nat)
    requires from <= |views|
    ensures PeriodsOf(Calls(views, phase, from), slave) ==
      if phase == Scheduled && from <= slave < |views| && views[slave].selected then views[slave].period else 0
    decreases |views| - from
  {
    hide PeriodsOf;
    PeriodsOfFew(slave);
    if from < |views| {
      var v, rest := views[from], Calls(views, phase, from + 1);
      var first := if v.selected then [Call(phase, from, v.period, v.processData)] else [];
      assert Calls(views, phase, from) == first + rest;
      PeriodsOfPass(views, phase, from + 1, slave);
      PeriodsAppend(first, rest, slave);
    }
  }

  lemma PeriodsOfFew(slave: nat)
    ensures PeriodsOf([], slave) == 0
    ensures forall c :: PeriodsOf([c], slave) == if c.phase == Scheduled && c.slave == slave then c.period else 0
  {
    forall c ensures PeriodsOf([c], slave) == if c.phase == Scheduled && c.slave == slave then c.period else 0 {
      assert [c][..0] == [];
    }
  }

  lemma PositiveFactor(d: nat, p: nat)
    requires d * p > 0
    ensures p > 0
  {
  }

  class Master {
    var appTimePeriod: nat
    var units: seq<SyncUnit>
    var slaves: seq<Slave>
    var started: bool
    var activated: bool
    var alStates: int
    var stateUpdateTimer: int
    var processData: nat
    /** The driver callbacks so far. */
    ghost var calls: seq<Call>

    ghost predicate Valid()
      reads this`units, this`slaves, this`appTimePeriod
    {
      && (forall i, j :: 0 <= i < j < |units| ==> units[i] != units[j] && units[i].name != units[j].name)
      && (forall u :: u in units ==> WellTimed(u, appTimePeriod))
      && (forall s :: s in slaves ==> s.unit in units)
    }

    constructor (period: nat)
      ensures Valid() && units == [] && slaves == [] && !started && !activated && calls == []
      ensures appTimePeriod == period
    {
      appTimePeriod := period;
      units, slaves, calls := [], [], [];
      started, activated := false, false;
      alStates, stateUpdateTimer, processData := 0, 0, 0;
    }

    /** lcec_master_get_sync_unit: find or create, refusing bad or conflicting cycle times. */
    method GetSyncUnit(name: string, cycleTime: nat) returns (r: SyncUnit?)
      requires Valid()
      modifies this`units
      ensures Valid()
      ensures r == null <==> (
        || cycleTime == 0 || appTimePeriod == 0 || cycleTime % appTimePeriod != 0
        || exists u :: u in old(units) && u.name == name && u.cycleTime != cycleTime)
      ensures r == null ==> units == old(units)
      ensures r != null ==> r in units && r.name == name && r.cycleTime == cycleTime
      ensures r != null && r in old(units) ==> units == old(units)
      ensures r != null && r !in old(units) ==>
        units == old(units) + [r] && fresh(r) && SyncUnits.Fresh(r.State(), appTimePeriod)
    {
      if cycleTime == 0 || appTimePeriod == 0 || cycleTime % appTimePeriod != 0 {
        return null;
      }
      for i := 0 to |units|
        invariant forall j :: 0 <= j < i ==> units[j].name != name
      {
        if units[i].name == name {
          if units[i].cycleTime != cycleTime {
            return null;
          }
          return units[i];
        }
      }
      var d := cycleTime / appTimePeriod;
      assert cycleTime == d * appTimePeriod;
      r := new SyncUnit(name, cycleTime, d);
      units := units + [r];
    }

    /** Whether this read queries the state of the bus; counts the query interval down. */
    method CheckStates(period: nat) returns (checkStates: bool)
      modifies this`stateUpdateTimer
      ensures checkStates == (!started || old(stateUpdateTimer) <= 0)
      ensures stateUpdateTimer == (
        if !started then 0 else if checkStates then STATE_UPDATE_PERIOD else old(stateUpdateTimer) - period)
    {
      if !started {
        checkStates := true;
        stateUpdateTimer := 0;
      } else if stateUpdateTimer > 0 {
        checkStates := false;
        stateUpdateTimer := stateUpdateTimer - period;
      } else {
        checkStates := true;
        stateUpdateTimer := STATE_UPDATE_PERIOD;
      }
    }

    method ProcessDomains()
      requires Valid()
      modifies units`process, units`queued
      ensures forall u :: u in units ==> u.State() == Process(old(u.State()))
    {
      for i := 0 to |units|
        modifies units`process, units`queued
        invariant forall j :: 0 <= j < i ==> units[j].State() == Process(old(units[j].State()))
        invariant forall j :: i <= j < |units| ==> units[j].State() == old(units[j].State())
      {
        units[i].process := units[i].queued;
        if units[i].process {
          units[i].queued := false;
        }
      }
    }

    ghost function PhaseNow(reading: bool): Phase
      reads this`started
    {
      if reading then Reading else if started then Scheduled else Forced
    }

    /**
     What one pass over the slaves has called: in order, each slave at most once, and exactly the slaves that
     have the callback and whose unit was processed (in a read) or is written (in a write). Every callback
     gets the cycle of the slave's own unit, and finds that unit's process data in the master.
     */
    ghost predicate Made(made: seq<Call>, phase: Phase, reading: bool)
      reads this`slaves
      reads (set s | s in slaves :: s.unit)`process, (set s | s in slaves :: s.unit)`write,
        (set s | s in slaves :: s.unit)`processData
    {
      && InOrder(made)
      && (forall c :: c in made ==>
        && c.phase == phase && c.slave < |slaves|
        && (reading ==> slaves[c.slave].unit.process && slaves[c.slave].hasRead)
        && (!reading ==> slaves[c.slave].unit.write && slaves[c.slave].hasWrite)
        && c.period == slaves[c.slave].unit.cycleTime
        && c.processData == slaves[c.slave].unit.processData)
      && (forall i: nat :: i < |slaves| ==>
        && (reading && slaves[i].unit.process && slaves[i].hasRead ==> exists c :: c in made && c.slave == i)
        && (!reading && slaves[i].unit.write && slaves[i].hasWrite ==> exists c :: c in made && c.slave == i))
    }

    lemma PassIsMade(phase: Phase, reading: bool)
      ensures Made(Calls(Views(slaves, reading), phase, 0), phase, reading)
    {
      hide Calls, Views;
      var views := Views(slaves, reading);
      var made := Calls(views, phase, 0);
      CallsSeeTheirOwnUnit(views, phase, 0);
      forall i: nat | i < |slaves| && (if reading then slaves[i].unit.process && slaves[i].hasRead
                                       else slaves[i].unit.write && slaves[i].hasWrite)
        ensures exists c :: c in made && c.slave == i
      {
        var c := Call(phase, i, views[i].period, views[i].processData);
        assert Due(c, views, phase, 0);
      }
    }

    /** The loop over the slaves that calls the drivers of the selected units. */
    method CallDrivers(reading: bool)
      modifies this`processData, this`calls
      ensures calls == old(calls) + Calls(Views(slaves, reading), PhaseNow(reading), 0)
      ensures Made(calls[|old(calls)|..], PhaseNow(reading), reading)
    {
      hide Views, Calls, Made;
      ghost var phase := PhaseNow(reading);
      ghost var views := Views(slaves, reading);
      for i := 0 to |slaves|
        modifies this`processData, this`calls
        invariant forall j :: 0 <= j < |slaves| ==> ViewOf(slaves[j], reading) == views[j]
        invariant calls + Calls(views, phase, i) == old(calls) + Calls(views, phase, 0)
      {
        CallsStep(calls, views, phase, i);
        var v := ViewOf(slaves[i], reading);
        if v.selected {
          processData := v.processData;
          calls := calls + [Call(phase, i, v.period, processData)];
        }
      }
      CallsNone(calls, views, phase);
      PassIsMade(phase, reading);
      assert calls[|old(calls)|..] == Calls(views, phase, 0);
    }

    /** The receive part of lcec_read_master and its read callbacks; newAlStates is what a state query would report. */
    method Read(period: nat, newAlStates: int)
      requires Valid()
      modifies this`started, this`alStates, this`stateUpdateTimer, this`processData, this`calls
      modifies units`process, units`queued
      ensures Valid()
      ensures !old(activated) ==>
        && started == old(started) && calls == old(calls)
        && alStates == old(alStates) && stateUpdateTimer == old(stateUpdateTimer)
        && forall u :: u in units ==> u.State() == old(u.State())
      // until the start the bus is queried in every read, afterwards whenever the interval has run down
      ensures old(activated) ==> var queries := !old(started) || old(stateUpdateTimer) <= 0;
        && alStates == (if queries then newAlStates else old(alStates))
        && stateUpdateTimer == (
             if !old(started) then 0 else if queries then STATE_UPDATE_PERIOD else old(stateUpdateTimer) - period)
      ensures old(activated) ==>
        && (forall u :: u in units ==> u.State() == Process(old(u.State())))
        && started == (old(started) || newAlStates == AL_STATE_OP)
        && calls == old(calls) + Calls(Views(slaves, true), Reading, 0)
      ensures old(activated) ==>
        && (forall u :: u in units ==> u.process == old(u.queued) && !u.queued)
        && Made(calls[|old(calls)|..], Reading, true)
    {
      hide WellTimed, Calls, Views, Valid, Made;
      if !activated {
        return;
      }
      var checkStates := CheckStates(period);
      ProcessDomains();
      if checkStates {
        alStates := newAlStates;
      }
      if !started && alStates == AL_STATE_OP {
        started := true;
      }
      CallDrivers(true);
    }

    /** The activation inside lcec_write_master: every unit receives its domain's memory. */
    method Activate(ok: bool, domainData: seq<nat>)
      requires Valid() && |domainData| == |units|
      modifies this`activated, units`processData
      ensures activated == (old(activated) || ok)
      ensures !old(activated) && ok ==> forall i :: 0 <= i < |units| ==> units[i].processData == domainData[i]
      ensures old(activated) || !ok ==>
        forall i :: 0 <= i < |units| ==> units[i].processData == old(units[i].processData)
    {
      if activated || !ok {
        return;
      }
      for i := 0 to |units|
        modifies units`processData
        invariant forall j :: 0 <= j < i ==> units[j].processData == domainData[j]
      {
        units[i].processData := domainData[i];
      }
      activated := true;
    }

    method ScheduleUnits(force: bool)
      requires Valid()
      modifies units`write, units`counter
      ensures forall u :: u in units ==> u.State() == Schedule(old(u.State()), force)
    {
      for i := 0 to |units|
        modifies units`write, units`counter
        invariant forall j :: 0 <= j < i ==> units[j].State() == Schedule(old(units[j].State()), force)
        invariant forall j :: i <= j < |units| ==> units[j].State() == old(units[j].State())
      {
        if force {
          units[i].write := true;
          units[i].counter := 0;
        } else if units[i].counter == 0 {
          assert WellTimed(units[i], appTimePeriod);
          units[i].write := true;
          units[i].counter := units[i].divider - 1;
        } else {
          units[i].write := false;
          units[i].counter := units[i].counter - 1;
        }
      }
    }

    method QueueDomains()
      requires Valid()
      modifies units`queued
      ensures forall u :: u in units ==> u.State() == Queue(old(u.State()))
    {
      for i := 0 to |units|
        modifies units`queued
        invariant forall j :: 0 <= j < i ==> units[j].State() == Queue(old(units[j].State()))
        invariant forall j :: i <= j < |units| ==> units[j].State() == old(units[j].State())
      {
        if units[i].write {
          units[i].queued := true;
        }
      }
    }

    /** The scheduling, the write callbacks and the queueing of lcec_write_master. */
    method Write(activationOk: bool, domainData: seq<nat>)
      requires Valid() && |domainData| == |units|
      modifies this`activated, this`processData, this`calls
      modifies units`processData, units`write, units`counter, units`queued
      ensures Valid() && activated == (old(activated) || activationOk)
      ensures !activated ==> calls == old(calls) && forall u :: u in units ==> u.State() == old(u.State())
      ensures activated ==>
        && (forall u :: u in units ==> u.State() == Queue(Schedule(old(u.State()), !started)))
        && calls == old(calls) + Calls(Views(slaves, false), PhaseNow(false), 0)
      // until the start every unit is written, afterwards the units whose counter has run down
      ensures activated ==>
        && (forall u :: u in units ==> u.write == (!started || old(u.counter) == 0))
        && Made(calls[|old(calls)|..], if started then Scheduled else Forced, false)
      ensures old(activated) ==> forall u :: u in units ==> u.processData == old(u.processData)
      ensures !old(activated) && activated ==> forall i :: 0 <= i < |units| ==> units[i].processData == domainData[i]
    {
      hide WellTimed, Calls, Views, Valid, Made;
      Activate(activationOk, domainData);
      if !activated {
        return;
      }
      Exchange();
    }

    /** The part of lcec_write_master that runs once the master is active. */
    method Exchange()
      requires Valid()
      modifies this`processData, this`calls
      modifies units`write, units`counter, units`queued
      ensures Valid()
      ensures forall u :: u in units ==> u.State() == Queue(Schedule(old(u.State()), !started))
      ensures calls == old(calls) + Calls(Views(slaves, false), PhaseNow(false), 0)
      ensures Made(calls[|old(calls)|..], PhaseNow(false), false)
    {
      hide WellTimed, Calls, Valid, Views, Made;
      ScheduleUnits(!started);
      CallAndQueue();
    }

    /** These callbacks got the cycle and the process data of their own slave's unit. */
    ghost predicate SawOwnUnit(made: seq<Call>)
      reads this`slaves, (set s | s in slaves :: s.unit)`processData
    {
      forall c :: c in made ==>
        && c.slave < |slaves|
        && c.period == slaves[c.slave].unit.cycleTime && c.processData == slaves[c.slave].unit.processData
    }

    lemma MadeSawOwn(made: seq<Call>, phase: Phase, reading: bool)
      requires Made(made, phase, reading)
      ensures SawOwnUnit(made)
    {
    }

    /** One cycle of the thread on an active master: a read and a write. */
    method RunCycle(allOp: bool)
      requires Valid() && activated
      modifies this`started, this`alStates, this`stateUpdateTimer, this`processData, this`calls
      modifies units`process, units`queued, units`write, units`counter
      ensures Valid() && started == (old(started) || allOp)
      ensures forall u :: u in units ==> u.State() == Queue(Schedule(Process(old(u.State())), !started))
      ensures forall i: nat :: i < |slaves| ==>
        PeriodsOf(calls, i) == PeriodsOf(old(calls), i)
          + (if started && slaves[i].unit.write && slaves[i].hasWrite then slaves[i].unit.cycleTime else 0)
      ensures old(calls) <= calls && SawOwnUnit(calls[|old(calls)|..])
    {
      hide WellTimed, Calls, Views, Valid, PeriodsOf, Made;
      ghost var before := calls;
      Read(appTimePeriod, if allOp then AL_STATE_OP else 0);
      ghost var middle := calls;
      MadeSawOwn(middle[|before|..], Reading, true);
      ghost var seen := Views(slaves, true);
      assert middle == before + Calls(seen, Reading, 0);
      Exchange();
      MadeSawOwn(calls[|middle|..], PhaseNow(false), false);
      assert calls[|before|..] == middle[|before|..] + calls[|middle|..];
      ghost var views := Views(slaves, false);
      forall i: nat | i < |slaves|
        ensures PeriodsOf(calls, i) == PeriodsOf(before, i)
          + (if started && slaves[i].unit.write && slaves[i].hasWrite then slaves[i].unit.cycleTime else 0)
      {
        PeriodsAppend(before, Calls(seen, Reading, 0), i);
        PeriodsOfPass(seen, Reading, 0, i);
        PeriodsAppend(middle, Calls(views, PhaseNow(false), 0), i);
        PeriodsOfPass(views, PhaseNow(false), 0, i);
        assert views[i] == ViewOf(slaves[i], false);
      }
    }

    /** The cycles one after the other. */
    method Cycles(ops: seq<bool>)
      requires Valid() && activated && !started
      modifies this`started, this`alStates, this`stateUpdateTimer, this`processData, this`calls
      modifies units`process, units`queued, units`write, units`counter
      ensures Valid()
      ensures forall u :: u in units ==> System(started, u.State()) == Run(System(false, old(u.State())), ops)
      ensures forall i: nat :: i < |slaves| && slaves[i].hasWrite ==>
        PeriodsOf(calls, i) == PeriodsOf(old(calls), i) + HandedTime(old(slaves[i].unit.State()), ops)
      ensures old(calls) <= calls && SawOwnUnit(calls[|old(calls)|..])
    {
      hide WellTimed, Calls, Views, Valid, PeriodsOf, Fresh, Queue, Schedule, Process;
      for k := 0 to |ops|
        invariant old(calls) <= calls && SawOwnUnit(calls[|old(calls)|..])
        invariant Valid() && started == (SinceStart(ops[..k]) > 0)
        invariant forall u :: u in units ==> System(started, u.State()) == Run(System(false, old(u.State())), ops[..k])
        invariant forall i: nat :: i < |slaves| && slaves[i].hasWrite ==>
          PeriodsOf(calls, i) == PeriodsOf(old(calls), i) + HandedTime(old(slaves[i].unit.State()), ops[..k])
      {
        assert ops[..k + 1][..k] == ops[..k];
        ghost var before := calls;
        RunCycle(ops[k]);
        assert calls[|old(calls)|..] == before[|old(calls)|..] + calls[|before|..];
        forall i: nat | i < |slaves| && slaves[i].hasWrite
          ensures PeriodsOf(calls, i)
               == PeriodsOf(old(calls), i) + HandedTime(old(slaves[i].unit.State()), ops[..k + 1])
        {
          UnitOfSlave(i);
        }
      }
      assert ops[..|ops|] == ops;
    }

    /**
     Any run of cycles from the activation on. In the n cycles after the start the periods handed to each
     write callback sum to at least n and less than n + d base periods, and to exactly n when d divides n.
     */
    method RunCycles(ops: seq<bool>)
      requires Valid() && activated && !started
      requires forall u :: u in units ==> SyncUnits.Fresh(u.State(), appTimePeriod)
      modifies this`started, this`alStates, this`stateUpdateTimer, this`processData, this`calls
      modifies units`process, units`queued, units`write, units`counter
      ensures Valid()
      ensures forall u :: u in units ==> System(started, u.State()) == Run(System(false, old(u.State())), ops)
      ensures forall i: nat :: i < |slaves| && slaves[i].hasWrite ==>
        var n, d, handed := SinceStart(ops), slaves[i].unit.divider, PeriodsOf(calls, i) - PeriodsOf(old(calls), i);
        && n * appTimePeriod <= handed < (n + d) * appTimePeriod
        && (n % d == 0 ==> handed == n * appTimePeriod)
      ensures old(calls) <= calls && SawOwnUnit(calls[|old(calls)|..])
    {
      hide WellTimed, Calls, Views, Valid, PeriodsOf, Fresh, Queue, Schedule, Process;
      Cycles(ops);
      forall i: nat | i < |slaves| && slaves[i].hasWrite
        ensures var n, d := SinceStart(ops), slaves[i].unit.divider;
                var handed := PeriodsOf(calls, i) - PeriodsOf(old(calls), i);
                && n * appTimePeriod <= handed < (n + d) * appTimePeriod
                && (n % d == 0 ==> handed == n * appTimePeriod)
      {
        UnitOfSlave(i);
        TimeConserved(old(slaves[i].unit.State()), appTimePeriod, ops);
      }
    }

    /** The activation and the cycles behind it: every callback finds the data its unit got when it was activated. */
    method ActivateAndRun(domainData: seq<nat>, ops: seq<bool>)
      requires Valid() && !activated && !started && |domainData| == |units|
      requires forall u :: u in units ==> SyncUnits.Fresh(u.State(), appTimePeriod)
      modifies this`activated, units`processData
      modifies this`started, this`alStates, this`stateUpdateTimer, this`processData, this`calls
      modifies units`process, units`queued, units`write, units`counter
      ensures Valid() && activated && old(calls) <= calls
      ensures forall c, k: nat :: c in calls[|old(calls)|..] && k < |units| ==>
        c.slave < |slaves| && (slaves[c.slave].unit == units[k] ==>
          c.period == units[k].cycleTime && c.processData == domainData[k])
    {
      hide WellTimed, SyncUnits.Fresh;
      Activate(true, domainData);
      RunCycles(ops);
    }

    lemma UnitOfSlave(i: nat)
      requires Valid() && i < |slaves|
      ensures slaves[i].unit in units && slaves[i].unit.divider >= 1 && appTimePeriod > 0
    {
      var u := slaves[i].unit;
      assert WellTimed(u, appTimePeriod);
      PositiveFactor(u.divider, appTimePeriod);
    }

    method CallAndQueue()
      requires Valid()
      modifies this`processData, this`calls, units`queued
      ensures forall u :: u in units ==> u.State() == Queue(old(u.State()))
      ensures calls == old(calls) + Calls(Views(slaves, false), PhaseNow(false), 0)
      ensures Made(calls[|old(calls)|..], PhaseNow(false), false)
    {
      hide Calls, Valid, Views, Made;
      CallDrivers(false);
      QueueDomains();
    }
  }
}
