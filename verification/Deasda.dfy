/**
 The fault auto-reset of the DeASDA drive, src/devices/lcec_deasda.c: a switch-on edge during a
 fault starts a bounded train of reset pulses, during which the fault pin is held off.
 */
module Deasda {
  import opened CInt

  datatype Gate = Gate(
    retry: nat, state: bool, cycle: nat, lastSwitchOn: bool, internalFault: bool, faultPin: bool)

  /** The fault section of lcec_deasda_read for the reset interval `cycles`. */
  function ReadStep(g: Gate, operational: bool, fault: bool, cycles: nat): Gate {
    if !operational then g.(faultPin := true)
    else
      var h := g.(internalFault := fault, retry := if fault then g.retry else 0);
      if h.retry == 0 then h.(faultPin := fault)
      else if h.cycle < cycles then h.(cycle := h.cycle + 1, faultPin := false)
      else if h.state then h.(cycle := 0, state := false, faultPin := false)
      else h.(cycle := 0, state := true, retry := h.retry - 1, faultPin := false)
  }

  /** The edge that starts the pulses. */
  predicate Starts(g: Gate, switchOn: bool, retries: nat, cycles: nat) {
    retries > 0 && cycles > 0 && switchOn && !g.lastSwitchOn && g.internalFault
  }

  /** The auto-reset section of lcec_deasda_write_csv and lcec_deasda_write_csp. */
  function WriteStep(g: Gate, switchOn: bool, retries: nat, cycles: nat): Gate {
    var h := g.(lastSwitchOn := switchOn);
    if Starts(g, switchOn, retries, cycles) then h.(retry := retries, state := true, cycle := 0) else h
  }

  /** The reset bit the train itself puts into the control word. */
  predicate ResetBit(g: Gate) {
    g.retry > 0 && g.state
  }

  // --- the exact train under a persisting fault ---

  /** A position in the train: pulse, second half, cycle within the half. */
  datatype Position = Position(pulse: nat, off: bool, cycle: nat)

  function Advance(p: Position, cycles: nat): Position {
    if p.cycle < cycles then p.(cycle := p.cycle + 1)
    else if !p.off then Position(p.pulse, true, 0)
    else Position(p.pulse + 1, false, 0)
  }

  function At(n: nat, cycles: nat): Position {
    if n == 0 then Position(0, false, 0) else Advance(At(n - 1, cycles), cycles)
  }

  /** The number of cycles before a position: each half lasts cycles + 1. */
  function Index(p: Position, cycles: nat): nat {
    (2 * p.pulse + (if p.off then 1 else 0)) * (cycles + 1) + p.cycle
  }

  /** Positions are numbered consecutively, so pulse i is on during the cycles+1 indices from 2*i*(cycles+1). */
  lemma {:induction false} AtIsIndexed(n: nat, cycles: nat)
    ensures Index(At(n, cycles), cycles) == n && At(n, cycles).cycle <= cycles
  {
    if n > 0 {
      AtIsIndexed(n - 1, cycles);
      var p := At(n - 1, cycles);
      MulStep(2 * p.pulse, cycles + 1);
      MulStep(2 * p.pulse + 1, cycles + 1);
    }
  }

  /** n cycles of read and write after the starting edge, with the fault and the switch held. */
  function Train(g: Gate, retries: nat, cycles: nat, n: nat): Gate {
    if n == 0 then WriteStep(g, true, retries, cycles)
    else WriteStep(ReadStep(Train(g, retries, cycles, n - 1), true, true, cycles), true, retries, cycles)
  }

  /** One switch-on edge gives exactly `retries` pulses of cycles+1 writes, and then the fault is shown for good. */
  lemma {:induction false} TrainIsExact(g: Gate, retries: nat, cycles: nat, n: nat)
    requires Starts(g, true, retries, cycles)
    ensures var t, p := Train(g, retries, cycles, n), At(n, cycles);
            && t.lastSwitchOn && t.internalFault
            && (if p.pulse < retries
                then t.retry == retries - p.pulse && t.state == !p.off && t.cycle == p.cycle
                else t.retry == 0)
            && (ResetBit(t) <==> p.pulse < retries && !p.off)
            // the read before this write: masked while the train was running
            && (n > 0 ==> t.faultPin == (At(n - 1, cycles).pulse >= retries))
  {
    if n > 0 {
      TrainIsExact(g, retries, cycles, n - 1);
      AtIsIndexed(n - 1, cycles);
    }
  }

  /** In numbers: the fault pin is masked for exactly 2 * retries * (cycles + 1) reads. */
  lemma MaskedForExactly(g: Gate, retries: nat, cycles: nat, n: nat)
    requires Starts(g, true, retries, cycles) && n > 0
    ensures Train(g, retries, cycles, n).faultPin <==> n > 2 * retries * (cycles + 1)
  {
    TrainIsExact(g, retries, cycles, n);
    AtIsIndexed(n - 1, cycles);
    var p := At(n - 1, cycles);
    if p.pulse >= retries {
      MulMono(2 * retries, 2 * p.pulse + (if p.off then 1 else 0), cycles + 1);
    } else {
      MulMono(2 * p.pulse + (if p.off then 1 else 0) + 1, 2 * retries, cycles + 1);
      MulStep(2 * p.pulse + (if p.off then 1 else 0), cycles + 1);
    }
  }

  // --- boundedness over arbitrary runs ---

  /** The masked reads a state can still cause. */
  function Remaining(g: Gate, cycles: nat): int {
    if g.retry == 0 then 0
    else 2 * (g.retry - 1) * (cycles + 1) + (if g.state then cycles + 1 else 0) + (cycles + 1 - g.cycle)
  }

  ghost predicate InRange(g: Gate, cycles: nat) {
    g.cycle <= cycles
  }

  lemma RemainingBounds(g: Gate, cycles: nat)
    requires InRange(g, cycles)
    ensures Remaining(g, cycles) >= 0
    ensures g.retry > 0 ==> Remaining(g, cycles) > 0
  {
    MulMono(0, 2 * (if g.retry == 0 then 0 else g.retry - 1), cycles + 1);
  }

  /** A masked read uses up exactly one, and nothing else is masked. */
  lemma ReadUsesOne(g: Gate, operational: bool, fault: bool, cycles: nat)
    requires InRange(g, cycles)
    ensures var r := ReadStep(g, operational, fault, cycles);
            && InRange(r, cycles) && 0 <= Remaining(r, cycles) <= Remaining(g, cycles)
            && (operational && fault && !r.faultPin ==> g.retry > 0 && Remaining(r, cycles) == Remaining(g, cycles) - 1)
  {
    var r := ReadStep(g, operational, fault, cycles);
    RemainingBounds(g, cycles);
    RemainingBounds(r, cycles);
    if g.retry > 1 {
      MulStep(2 * (g.retry - 2), cycles + 1);
      MulStep(2 * (g.retry - 2) + 1, cycles + 1);
      assert 2 * (g.retry - 2) + 2 == 2 * (g.retry - 1);
    }
  }

  datatype Event = Read(operational: bool, fault: bool) | Write(switchOn: bool)

  function Step(g: Gate, e: Event, retries: nat, cycles: nat): Gate {
    match e
    case Read(operational, fault) => ReadStep(g, operational, fault, cycles)
    case Write(switchOn) => WriteStep(g, switchOn, retries, cycles)
  }

  /** Reads of a run that hide a fault. */
  function Hidden(g: Gate, events: seq<Event>, retries: nat, cycles: nat): nat
    decreases |events|
  {
    if events == [] then 0
    else
      var h := Step(g, events[0], retries, cycles);
      (if events[0].Read? && events[0].operational && events[0].fault && !h.faultPin then 1 else 0)
      + Hidden(h, events[1..], retries, cycles)
  }

  /** Starting edges of a run. */
  function Edges(g: Gate, events: seq<Event>, retries: nat, cycles: nat): nat
    decreases |events|
  {
    if events == [] then 0
    else
      (if events[0].Write? && Starts(g, events[0].switchOn, retries, cycles) then 1 else 0)
      + Edges(Step(g, events[0], retries, cycles), events[1..], retries, cycles)
  }

  /**
   Over any interleaving of reads and writes, with faults coming and going, the fault is hidden in at
   most 2 * retries * (cycles + 1) reads per starting edge, beyond what the first state still had left.
   */
  lemma {:induction false} HidingIsBounded(g: Gate, events: seq<Event>, retries: nat, cycles: nat)
    requires InRange(g, cycles)
    ensures Hidden(g, events, retries, cycles)
         <= Remaining(g, cycles) + Edges(g, events, retries, cycles) * (2 * retries * (cycles + 1))
    decreases |events|
  {
    RemainingBounds(g, cycles);
    var budget := 2 * retries * (cycles + 1);
    if events == [] {
      assert 0 * budget == 0;
    } else {
      var e, h := events[0], Step(g, events[0], retries, cycles);
      if e.Read? {
        ReadUsesOne(g, e.operational, e.fault, cycles);
        HidingIsBounded(h, events[1..], retries, cycles);
      } else {
        HidingIsBounded(h, events[1..], retries, cycles);
        MulStep(Edges(h, events[1..], retries, cycles), budget);
        if Starts(g, e.switchOn, retries, cycles) {
          FullTrain(h, retries, cycles);
        }
      }
    }
  }

  lemma FullTrain(g: Gate, retries: nat, cycles: nat)
    requires g.retry == retries > 0 && g.state && g.cycle == 0
    ensures Remaining(g, cycles) == 2 * retries * (cycles + 1)
  {
  }

  // --- the fault pin in terms of what happened ---

  const INITIAL := Gate(0, false, 0, false, false, false)

  function Run(events: seq<Event>, retries: nat, cycles: nat): Gate
    decreases |events|
  {
    if events == [] then INITIAL
    else Step(Run(events[..|events| - 1], retries, cycles), events[|events| - 1], retries, cycles)
  }

  /** The switch at the last write of a history; off before the first. */
  function SwitchSeen(events: seq<Event>): bool
    decreases |events|
  {
    if events == [] then false
    else
      var last := events[|events| - 1];
      if last.Write? then last.switchOn else SwitchSeen(events[..|events| - 1])
  }

  /** The fault at the last operational read of a history; none before the first. */
  function FaultSeen(events: seq<Event>): bool
    decreases |events|
  {
    if events == [] then false
    else
      var last := events[|events| - 1];
      if last.Read? && last.operational then last.fault else FaultSeen(events[..|events| - 1])
  }

  /** A train starts at event k: the switch goes on while a fault is known, and the automatic reset is enabled. */
  predicate StartsAt(events: seq<Event>, k: nat, retries: nat, cycles: nat) {
    && k < |events| && events[k].Write? && events[k].switchOn
    && retries > 0 && cycles > 0 && !SwitchSeen(events[..k]) && FaultSeen(events[..k])
  }

  /** The number of operational reads behind event k. */
  function ReadsBehind(events: seq<Event>, k: nat): nat
    decreases |events|
  {
    if |events| <= k + 1 then 0
    else
      var last := events[|events| - 1];
      ReadsBehind(events[..|events| - 1], k) + (if last.Read? && last.operational then 1 else 0)
  }

  /** A train started at event k, and no read since has seen the drive without a fault. */
  ghost predicate RunsFrom(events: seq<Event>, k: nat, retries: nat, cycles: nat) {
    && StartsAt(events, k, retries, cycles)
    && forall i :: k < i < |events| && events[i].Read? && events[i].operational ==> events[i].fault
  }

  /** A train that is running: it has not had its 2 * retries * (cycles + 1) reads. */
  ghost predicate TrainLeft(events: seq<Event>, retries: nat, cycles: nat) {
    exists k: nat :: RunsFrom(events, k, retries, cycles) && ReadsBehind(events, k) < 2 * retries * (cycles + 1)
  }

  /** What the state keeps of a history. */
  ghost predicate Knows(g: Gate, events: seq<Event>, retries: nat, cycles: nat) {
    var budget := 2 * retries * (cycles + 1);
    && InRange(g, cycles) && g.lastSwitchOn == SwitchSeen(events) && g.internalFault == FaultSeen(events)
    // every train that runs leaves at least its rest, and one of them exactly that
    && (forall k: nat :: RunsFrom(events, k, retries, cycles) ==>
      Remaining(g, cycles) >= budget - ReadsBehind(events, k))
    && (g.retry > 0 ==> g.internalFault && exists k: nat ::
      RunsFrom(events, k, retries, cycles) && Remaining(g, cycles) == budget - ReadsBehind(events, k))
  }

  lemma StartsBefore(before: seq<Event>, e: Event, k: nat, retries: nat, cycles: nat)
    requires k < |before|
    ensures StartsAt(before + [e], k, retries, cycles) <==> StartsAt(before, k, retries, cycles)
  {
    assert (before + [e])[..k] == before[..k];
  }

  /** One more event: which trains still run. */
  lemma RunsOn(before: seq<Event>, e: Event, k: nat, retries: nat, cycles: nat)
    requires k < |before|
    ensures RunsFrom(before + [e], k, retries, cycles)
      <==> RunsFrom(before, k, retries, cycles) && (e.Read? && e.operational ==> e.fault)
    ensures ReadsBehind(before + [e], k)
      == ReadsBehind(before, k) + (if e.Read? && e.operational then 1 else 0)
  {
    var events := before + [e];
    hide StartsAt;
    StartsBefore(before, e, k, retries, cycles);
    assert events[..|events| - 1] == before && events[|before|] == e;
    if RunsFrom(before, k, retries, cycles) && (e.Read? && e.operational ==> e.fault) {
      forall i | k < i < |events| && events[i].Read? && events[i].operational
        ensures events[i].fault
      {
        assert i < |before| ==> events[i] == before[i];
      }
    }
    if RunsFrom(events, k, retries, cycles) {
      forall i | k < i < |before| && before[i].Read? && before[i].operational
        ensures before[i].fault
      {
        assert events[i] == before[i];
      }
    }
  }

  lemma RunsFromNow(before: seq<Event>, e: Event, retries: nat, cycles: nat)
    ensures RunsFrom(before + [e], |before|, retries, cycles) <==>
      e.Write? && e.switchOn && retries > 0 && cycles > 0 && !SwitchSeen(before) && FaultSeen(before)
    ensures ReadsBehind(before + [e], |before|) == 0
  {
    assert (before + [e])[..|before|] == before;
  }

  lemma SeenNow(before: seq<Event>, e: Event)
    ensures SwitchSeen(before + [e]) == if e.Write? then e.switchOn else SwitchSeen(before)
    ensures FaultSeen(before + [e]) == if e.Read? && e.operational then e.fault else FaultSeen(before)
  {
    assert (before + [e])[..|before|] == before;
  }

  lemma KnowsRead(g: Gate, before: seq<Event>, e: Event, retries: nat, cycles: nat)
    requires Knows(g, before, retries, cycles) && e.Read?
    ensures Knows(Step(g, e, retries, cycles), before + [e], retries, cycles)
  {
    hide RunsFrom, ReadsBehind, SwitchSeen, FaultSeen, Remaining;
    var h, budget := Step(g, e, retries, cycles), 2 * retries * (cycles + 1);
    ReadUsesOne(g, e.operational, e.fault, cycles);
    NothingRemains(g, cycles);
    NothingRemains(h, cycles);
    if !e.operational {
      SameRemaining(g, h, cycles);
    }
    SeenNow(before, e);
    forall k: nat | RunsFrom(before + [e], k, retries, cycles)
      ensures Remaining(h, cycles) >= budget - ReadsBehind(before + [e], k)
    {
      StartsInside(before + [e], k, retries, cycles);
      RunsFromNow(before, e, retries, cycles);
      RunsOn(before, e, k, retries, cycles);
    }
    if h.retry > 0 {
      var k: nat :| RunsFrom(before, k, retries, cycles) && Remaining(g, cycles) == budget - ReadsBehind(before, k);
      StartsInside(before, k, retries, cycles);
      RunsOn(before, e, k, retries, cycles);
    }
  }

  lemma KnowsWrite(g: Gate, before: seq<Event>, e: Event, retries: nat, cycles: nat)
    requires Knows(g, before, retries, cycles) && e.Write?
    ensures Knows(Step(g, e, retries, cycles), before + [e], retries, cycles)
  {
    hide RunsFrom, ReadsBehind, SwitchSeen, FaultSeen, Remaining;
    var h, n, budget := Step(g, e, retries, cycles), |before|, 2 * retries * (cycles + 1);
    SeenNow(before, e);
    RunsFromNow(before, e, retries, cycles);
    if Starts(g, e.switchOn, retries, cycles) {
      FullTrain(h, retries, cycles);
    } else {
      SameRemaining(g, h, cycles);
    }
    forall k: nat | RunsFrom(before + [e], k, retries, cycles)
      ensures Remaining(h, cycles) >= budget - ReadsBehind(before + [e], k)
    {
      StartsInside(before + [e], k, retries, cycles);
      if k < n {
        RunsOn(before, e, k, retries, cycles);
      }
    }
    if h.retry > 0 && !Starts(g, e.switchOn, retries, cycles) {
      var k: nat :| RunsFrom(before, k, retries, cycles) && Remaining(g, cycles) == budget - ReadsBehind(before, k);
      StartsInside(before, k, retries, cycles);
      RunsOn(before, e, k, retries, cycles);
    }
  }

  lemma StartsInside(events: seq<Event>, k: nat, retries: nat, cycles: nat)
    requires RunsFrom(events, k, retries, cycles)
    ensures k < |events| && events[k].Write?
  {
  }

  lemma NothingRemains(g: Gate, cycles: nat)
    requires InRange(g, cycles)
    ensures Remaining(g, cycles) >= 0
    ensures g.retry > 0 <==> Remaining(g, cycles) > 0
  {
    RemainingBounds(g, cycles);
  }

  lemma SameRemaining(g: Gate, h: Gate, cycles: nat)
    requires h.retry == g.retry && h.state == g.state && h.cycle == g.cycle
    ensures Remaining(h, cycles) == Remaining(g, cycles)
  {
  }

  lemma {:induction false} RunKnows(events: seq<Event>, retries: nat, cycles: nat)
    ensures Knows(Run(events, retries, cycles), events, retries, cycles)
    decreases |events|
  {
    hide Knows, Step;
    if events == [] {
      KnowsNothing(retries, cycles);
    } else {
      var before, e := events[..|events| - 1], events[|events| - 1];
      RunKnows(before, retries, cycles);
      assert events == before + [e];
      if e.Read? {
        KnowsRead(Run(before, retries, cycles), before, e, retries, cycles);
      } else {
        KnowsWrite(Run(before, retries, cycles), before, e, retries, cycles);
      }
    }
  }

  lemma KnowsNothing(retries: nat, cycles: nat)
    ensures Knows(INITIAL, [], retries, cycles)
  {
  }

  /**
   The fault pin after a read, for every history: it is set exactly when the drive is not operational, or
   when the drive has a fault and no train of reset pulses is left to mask it.
   */
  lemma FaultPinShows(events: seq<Event>, operational: bool, fault: bool, retries: nat, cycles: nat)
    ensures var g := Run(events + [Read(operational, fault)], retries, cycles);
      g.faultPin <==> !operational || (fault && !TrainLeft(events, retries, cycles))
  {
    var all := events + [Read(operational, fault)];
    assert all[..|all| - 1] == events;
    LeftIsRetry(events, retries, cycles);
  }

  lemma LeftIsRetry(events: seq<Event>, retries: nat, cycles: nat)
    ensures Run(events, retries, cycles).retry > 0 <==> TrainLeft(events, retries, cycles)
  {
    hide RunsFrom, ReadsBehind, Run, Remaining;
    RunKnows(events, retries, cycles);
    NothingRemains(Run(events, retries, cycles), cycles);
  }

  /** Without a fault at the last read there is no train, and the next write starts none. */
  lemma NoTrainWithoutFault(events: seq<Event>, switchOn: bool, retries: nat, cycles: nat)
    requires !FaultSeen(events)
    ensures Run(events, retries, cycles).retry == 0
    ensures Run(events + [Write(switchOn)], retries, cycles).retry == 0
  {
    var all := events + [Write(switchOn)];
    assert all[..|all| - 1] == events;
    RunKnows(events, retries, cycles);
  }

  // --- the drive object ---

  datatype Control = Control(
    switchOn: bool, enableVolt: bool, quickStop: bool, enableOp: bool, faultReset: bool, halt: bool)

  /** The command pins of one write. */
  datatype Commands = Commands(
    switchOn: bool, enableVolt: bool, quickStop: bool, enable: bool, faultReset: bool, halt: bool)

  class Drive {
    var autoresetCycles: nat
    var autoresetRetries: nat
    var switchedOn: bool
    var fault: bool
    var lastSwitchOn: bool
    var internalFault: bool
    var faultResetRetry: nat
    var faultResetState: bool
    var faultResetCycle: nat

    function State(): Gate
      reads this
    {
      Gate(faultResetRetry, faultResetState, faultResetCycle, lastSwitchOn, internalFault, fault)
    }

    constructor (cycles: nat, retries: nat)
      ensures State() == INITIAL
      ensures autoresetCycles == cycles && autoresetRetries == retries
    {
      autoresetCycles, autoresetRetries := cycles, retries;
      switchedOn, fault, lastSwitchOn, internalFault := false, false, false, false;
      faultResetRetry, faultResetState, faultResetCycle := 0, false, 0;
    }

    /** The status part of lcec_deasda_read. */
    method ReadStatus(operational: bool, statusSwitchedOn: bool, statusFault: bool)
      modifies this`switchedOn, this`fault, this`internalFault,
               this`faultResetRetry, this`faultResetState, this`faultResetCycle
      ensures State() == ReadStep(old(State()), operational, statusFault, autoresetCycles)
      ensures switchedOn == (operational && statusSwitchedOn)
      // the gated fault: shown unless a train of reset pulses was running
      ensures fault == (!operational || (statusFault && old(faultResetRetry) == 0))
      ensures internalFault == if operational then statusFault else old(internalFault)
      // a drive without a fault ends the train
      ensures operational && !statusFault ==> faultResetRetry == 0
    {
      if !operational {
        switchedOn := false;
        fault := true;
        return;
      }
      switchedOn := statusSwitchedOn;
      internalFault := statusFault;
      if !internalFault {
        faultResetRetry := 0;
      }
      if faultResetRetry > 0 {
        if faultResetCycle < autoresetCycles {
          faultResetCycle := faultResetCycle + 1;
        } else {
          faultResetCycle := 0;
          faultResetState := !faultResetState;
          if faultResetState {
            faultResetRetry := faultResetRetry - 1;
          }
        }
        fault := false;
      } else {
        fault := internalFault;
      }
    }

    /** The switch-on edge that starts a train of reset pulses. */
    method Arm(switchOn: bool)
      modifies this`lastSwitchOn, this`faultResetRetry, this`faultResetState, this`faultResetCycle
      ensures State() == WriteStep(old(State()), switchOn, autoresetRetries, autoresetCycles)
      ensures lastSwitchOn == switchOn
      ensures faultResetRetry ==
        if switchOn && !old(lastSwitchOn) && internalFault && autoresetCycles > 0 && autoresetRetries > 0
        then autoresetRetries else old(faultResetRetry)
    {
      var switchOnEdge := switchOn && !lastSwitchOn;
      lastSwitchOn := switchOn;
      if autoresetRetries > 0 && autoresetCycles > 0 && switchOnEdge && internalFault {
        faultResetRetry := autoresetRetries;
        faultResetState := true;
        faultResetCycle := 0;
      }
    }

    /** The control word of lcec_deasda_write_csv and lcec_deasda_write_csp. */
    method WriteControl(c: Commands) returns (control: Control)
      modifies this`lastSwitchOn, this`faultResetRetry, this`faultResetState, this`faultResetCycle
      ensures State() == WriteStep(old(State()), c.switchOn, autoresetRetries, autoresetCycles)
      ensures faultResetRetry ==
        if c.switchOn && !old(lastSwitchOn) && internalFault && autoresetCycles > 0 && autoresetRetries > 0
        then autoresetRetries else old(faultResetRetry)
      ensures control.faultReset == (c.faultReset || (faultResetRetry > 0 && faultResetState))
      // without a fault and a train the commands go through, and no reset is added
      ensures old(faultResetRetry) == 0 && !internalFault ==>
        control.switchOn == c.switchOn && control.faultReset == c.faultReset
      // the drive is switched on and enabled only outside the train
      ensures control.switchOn == (faultResetRetry == 0 && c.switchOn)
      ensures control.enableOp == (faultResetRetry == 0 && c.enable && switchedOn)
      ensures control.enableVolt == c.enableVolt && control.quickStop == !c.quickStop && control.halt == c.halt
    {
      Arm(c.switchOn);
      control := Control(false, c.enableVolt, !c.quickStop, false, c.faultReset, c.halt);
      if faultResetRetry > 0 {
        if faultResetState {
          control := control.(faultReset := true);
        }
      } else {
        if c.switchOn {
          control := control.(switchOn := true);
        }
        if c.enable && switchedOn {
          control := control.(enableOp := true);
        }
      }
    }
  }
}
