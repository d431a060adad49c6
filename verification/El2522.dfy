/**
 The EL2522 pulse-train channels, src/devices/lcec_el2522.c: the step counter and the position
 stay tied together through any change of the scale. The C `double` is read as an exact real.
 */
module El2522 {
  import opened CInt
  import opened Options

  datatype Channel = Channel(
    posFb: real, count: int, posScale: real, lastCount: int, lastPosScale: real, posScaleRecip: real, stepOffset: real)

  const INITIAL := Channel(0.0, 0, 1.0, 0, 1.0, 1.0, 0.0)

  /** Half away from zero, as C's round. */
  function Round(x: real): int {
    if x >= 0.0 then (x + 0.5).Floor else -((0.5 - x).Floor)
  }

  predicate TooSmall(scale: real) {
    -0.000_000_000_000_000_000_01 < scale < 0.000_000_000_000_000_000_01
  }

  /** One channel of lcec_el2522_read. */
  function ReadChannel(c: Channel, raw: int, wasOperational: bool): Channel {
    var diff := if wasOperational then S32(raw - c.lastCount) else 0;
    c.(lastCount := raw, count := S32(c.count + diff), posFb := c.posFb + diff as real * c.posScaleRecip)
  }

  /** A read takes the sample, and moves count and position by its distance from the last one, if that counts. */
  predicate Moved(c: Channel, d: Channel, raw: int, wasOperational: bool) {
    var diff := if wasOperational then S32(raw - c.lastCount) else 0;
    && d.lastCount == raw && d.count == S32(c.count + diff) && d.posFb == c.posFb + diff as real * c.posScaleRecip
    && d.posScale == c.posScale && d.lastPosScale == c.lastPosScale
  }

  lemma ReadMoves(c: Channel, raw: int, wasOperational: bool)
    ensures Moved(c, ReadChannel(c, raw, wasOperational), raw, wasOperational)
  {
  }

  /** The scale check of lcec_el2522_write: a new scale moves the offset, an unusable one is put back. */
  function CheckScale(c: Channel): Channel {
    if c.posScale == c.lastPosScale then c
    else if TooSmall(c.posScale) then c.(posScale := c.lastPosScale)
    else c.(lastPosScale := c.posScale,
            stepOffset := c.count as real - c.posFb * c.posScale,
            posScaleRecip := 1.0 / c.posScale)
  }

  /** The counter value that a position command asks for, before and after rounding into the process data. */
  function Demand(c: Channel, posCmd: real): real {
    posCmd * c.posScale + c.stepOffset
  }

  function Target(c: Channel, posCmd: real): int {
    U32(S32(Round(Demand(c, posCmd))))
  }

  // --- the invariant ---

  /** count == posFb * lastPosScale + stepOffset, up to wrapped-off multiples of 2^32. */
  ghost predicate Tied(c: Channel, wraps: int) {
    c.posFb * c.lastPosScale + c.stepOffset == c.count as real + (wraps * TWO_32) as real
  }

  ghost predicate Inv(c: Channel) {
    && c.lastPosScale != 0.0 && c.posScaleRecip * c.lastPosScale == 1.0
    && IsS32(c.count)
    && exists wraps: int :: Tied(c, wraps)
  }

  lemma InitialInv()
    ensures Inv(INITIAL)
  {
    assert Tied(INITIAL, 0);
  }

  lemma ReadKeepsInv(c: Channel, raw: int, wasOperational: bool)
    requires Inv(c)
    ensures Inv(ReadChannel(c, raw, wasOperational))
  {
    var wraps :| Tied(c, wraps);
    var diff := if wasOperational then S32(raw - c.lastCount) else 0;
    var d := ReadChannel(c, raw, wasOperational);
    S32Congruent(c.count + diff);
    CongruentSym(d.count, c.count + diff, TWO_32);
    var k :| c.count + diff == d.count + k * TWO_32;
    MovedPosition(c.posFb, diff as real, c.posScaleRecip, c.lastPosScale);
    assert Tied(d, wraps + k);
  }

  lemma MovedPosition(fb: real, diff: real, recip: real, scale: real)
    requires recip * scale == 1.0
    ensures (fb + diff * recip) * scale == fb * scale + diff
  {
    assert (diff * recip) * scale == diff * (recip * scale);
  }

  lemma CheckKeepsInv(c: Channel)
    requires Inv(c)
    ensures Inv(CheckScale(c)) && CheckScale(c).posScale == CheckScale(c).lastPosScale
  {
    var d := CheckScale(c);
    if c.posScale != c.lastPosScale && !TooSmall(c.posScale) {
      assert c.posScale != 0.0;
      assert Tied(d, 0);
    } else {
      var wraps :| Tied(c, wraps);
      assert Tied(d, wraps);
    }
  }

  /** A scale edit from outside touches nothing the invariant mentions. */
  lemma EditKeepsInv(c: Channel, scale: real)
    requires Inv(c)
    ensures Inv(c.(posScale := scale))
  {
    var wraps :| Tied(c, wraps);
    assert Tied(c.(posScale := scale), wraps);
  }

  /** The state of a channel and whether the last read found the device operational. */
  datatype Line = Line(c: Channel, operational: bool)

  const START := Line(INITIAL, false)

  datatype Event = Read(operational: bool, raw: int) | Write | EditScale(scale: real)

  function Step(l: Line, e: Event): Line {
    match e
    case Read(operational, raw) =>
      if operational then Line(ReadChannel(l.c, raw, l.operational), true) else Line(l.c, false)
    case Write => Line(CheckScale(l.c), l.operational)
    case EditScale(scale) => Line(l.c.(posScale := scale), l.operational)
  }

  function Run(events: seq<Event>): Line
    decreases |events|
  {
    if events == [] then START else Step(Run(events[..|events| - 1]), events[|events| - 1])
  }

  /** Over any interleaving of reads, writes and scale edits, accepted or not. */
  lemma {:induction false} EveryRunKeepsInv(events: seq<Event>)
    ensures Inv(Run(events).c)
    decreases |events|
  {
    if events == [] {
      InitialInv();
    } else {
      var l := Run(events[..|events| - 1]);
      EveryRunKeepsInv(events[..|events| - 1]);
      match events[|events| - 1]
      case Read(operational, raw) => ReadKeepsInv(l.c, raw, l.operational);
      case Write => CheckKeepsInv(l.c);
      case EditScale(scale) => EditKeepsInv(l.c, scale);
    }
  }

  // --- what is counted ---

  /** The true counter at the last read, if that read found the device operational. */
  function Anchor(events: seq<Event>, truth: seq<int>): Option<int>
    requires |truth| == |events|
    decreases |events|
  {
    if events == [] then None
    else
      var n := |events| - 1;
      match events[n]
      case Read(operational, _) => if operational then Some(truth[n]) else None
      case _ => Anchor(events[..n], truth[..n])
  }

  /** The motion of the true counter between the reads of a history, each from the operational read before it. */
  function Motion(events: seq<Event>, truth: seq<int>): int
    requires |truth| == |events|
    decreases |events|
  {
    if events == [] then 0
    else
      var n := |events| - 1;
      var before := Motion(events[..n], truth[..n]);
      match events[n]
      case Read(true, _) =>
        var from := Anchor(events[..n], truth[..n]);
        if from == None then before else before + truth[n] - from.value
      case _ => before
  }

  /** The device shows the low 32 bits of the true counter, which moves less than half their range between reads. */
  ghost predicate Shown(events: seq<Event>, truth: seq<int>)
    requires |truth| == |events|
  {
    forall i :: 0 <= i < |events| && events[i].Read? && events[i].operational ==>
      && events[i].raw == U32(truth[i])
      && (Anchor(events[..i], truth[..i]) != None ==>
        -TWO_31 <= truth[i] - Anchor(events[..i], truth[..i]).value < TWO_31)
  }

  /** The scale a history asks for and the one in force: a write accepts the one asked for or puts it back. */
  function Scales(events: seq<Event>): (r: (real, real))
    ensures r.1 != 0.0
    decreases |events|
  {
    if events == [] then (1.0, 1.0)
    else
      var (asked, inForce) := Scales(events[..|events| - 1]);
      match events[|events| - 1]
      case Read(_, _) => (asked, inForce)
      case Write => if asked != inForce && -1.0e-20 < asked < 1.0e-20 then (inForce, inForce) else (asked, asked)
      case EditScale(scale) => (scale, inForce)
  }

  /** The same motion as a distance, each part at the scale in force when it is read. */
  function Distance(events: seq<Event>, truth: seq<int>): real
    requires |truth| == |events|
    decreases |events|
  {
    if events == [] then 0.0
    else
      var n := |events| - 1;
      Distance(events[..n], truth[..n])
      + (Motion(events, truth) - Motion(events[..n], truth[..n])) as real / Scales(events[..n]).1
  }

  /** The difference of two samples is the motion. */
  lemma SampleDifference(a: int, b: int)
    requires -TWO_31 <= b - a < TWO_31
    ensures S32(U32(b) - U32(a)) == b - a
  {
    U32Congruent(a);
    U32Congruent(b);
    CongruentAdd(U32(b), b, U32(a), a, TWO_32);
    S32Congruent(U32(b) - U32(a));
    CongruentTrans(S32(U32(b) - U32(a)), U32(b) - U32(a), b - a, TWO_32);
    CongruentClose(S32(U32(b) - U32(a)), b - a, TWO_32);
  }

  lemma WrapTwice(x: int, d: int)
    ensures S32(S32(x) + d) == S32(x + d)
  {
  }

  lemma Reciprocal(d: real, recip: real, scale: real)
    requires scale != 0.0 && recip * scale == 1.0
    ensures d * recip == d / scale
  {
    assert (d * recip) * scale == d * (recip * scale);
  }

  /** What a channel shows of a history. */
  ghost predicate Shows(l: Line, events: seq<Event>, truth: seq<int>)
    requires |truth| == |events|
  {
    && l.c.count == S32(Motion(events, truth)) && l.c.posFb == Distance(events, truth)
    && (l.c.posScale, l.c.lastPosScale) == Scales(events)
    && l.operational == (Anchor(events, truth) != None)
    && (l.operational ==> l.c.lastCount == U32(Anchor(events, truth).value))
  }

  /**
   Over any interleaving of reads, writes and scale edits the count is the motion of the true counter
   modulo 2^32, and the position is that motion at the scales in force; after a gap in the operation both
   go on from where they were.
   */
  lemma {:induction false} ShowsMotion(events: seq<Event>, truth: seq<int>)
    requires |truth| == |events| && Shown(events, truth)
    ensures Shows(Run(events), events, truth)
    decreases |events|
  {
    hide Shows, Shown, Step, Inv, Motion, Distance, Anchor;
    if events == [] {
      ShowsNothing();
    } else {
      var n := |events| - 1;
      var before, seen, e := events[..n], truth[..n], events[n];
      ShownBefore(events, truth, n);
      ShowsMotion(before, seen);
      EveryRunKeepsInv(before);
      if e.Read? && e.operational {
        ShowsRead(events, truth, Run(before));
      } else {
        ShowsOther(events, truth, Run(before));
      }
    }
  }

  lemma ShowsNothing()
    ensures Shows(START, [], [])
  {
  }

  lemma ShowsOther(events: seq<Event>, truth: seq<int>, l: Line)
    requires |truth| == |events| && events != [] && Shows(l, events[..|events| - 1], truth[..|truth| - 1])
    requires var e := events[|events| - 1]; !(e.Read? && e.operational)
    ensures Shows(Step(l, events[|events| - 1]), events, truth)
  {
    hide S32, U32;
    assert 0.0 / Scales(events[..|events| - 1]).1 == 0.0;
  }

  lemma ShownBefore(events: seq<Event>, truth: seq<int>, n: nat)
    requires |truth| == |events| && Shown(events, truth) && n <= |events|
    ensures Shown(events[..n], truth[..n])
  {
    forall i | 0 <= i < n
      ensures events[..n][..i] == events[..i] && truth[..n][..i] == truth[..i]
    {
    }
  }

  lemma ShowsRead(events: seq<Event>, truth: seq<int>, l: Line)
    requires |truth| == |events| && Shown(events, truth) && events != []
    requires var e := events[|events| - 1]; e.Read? && e.operational
    requires Shows(l, events[..|events| - 1], truth[..|truth| - 1]) && Inv(l.c)
    ensures Shows(Step(l, events[|events| - 1]), events, truth)
  {
    hide S32, U32, Tied;
    var n := |events| - 1;
    var before, seen, e := events[..n], truth[..n], events[n];
    var m, from := Motion(before, seen), Anchor(before, seen);
    if from != None {
      var d := truth[n] - from.value;
      SampleDifference(from.value, truth[n]);
      WrapTwice(m, d);
      Reciprocal(d as real, l.c.posScaleRecip, l.c.lastPosScale);
    } else {
      WrapTwice(m, 0);
    }
  }

  /** The same for the channel alone: its count and position say how far the true counter has moved. */
  lemma CountIsMotion(events: seq<Event>, truth: seq<int>)
    requires |truth| == |events| && Shown(events, truth)
    ensures var c := Run(events).c;
            c.count == S32(Motion(events, truth)) && c.posFb == Distance(events, truth)
  {
    ShowsMotion(events, truth);
  }

  /** While every read finds the device operational, the motion is that from the first sample to the last. */
  lemma {:induction false} MotionTelescopes(events: seq<Event>, truth: seq<int>, i: nat)
    requires |truth| == |events| && i <= |events| && Anchor(events[..i], truth[..i]) != None
    requires forall j :: i <= j < |events| && events[j].Read? ==> events[j].operational
    ensures Anchor(events, truth) != None
    ensures Motion(events, truth) - Motion(events[..i], truth[..i])
         == Anchor(events, truth).value - Anchor(events[..i], truth[..i]).value
    decreases |events|
  {
    var n := |events| - 1;
    if i <= n {
      var before, seen := events[..n], truth[..n];
      assert before[..i] == events[..i] && seen[..i] == truth[..i];
      MotionTelescopes(before, seen, i);
    } else {
      assert events[..i] == events && truth[..i] == truth;
    }
  }

  /** While no new scale is accepted, the position times the scale moves by exactly the motion. */
  lemma {:induction false} DistanceAtOneScale(events: seq<Event>, truth: seq<int>, i: nat, scale: real)
    requires |truth| == |events| && i <= |events|
    requires forall j :: i <= j < |events| ==> Scales(events[..j]).1 == scale
    ensures (Distance(events, truth) - Distance(events[..i], truth[..i])) * scale
         == (Motion(events, truth) - Motion(events[..i], truth[..i])) as real
    decreases |events|
  {
    hide Motion, Anchor, Scales, Distance;
    var n := |events| - 1;
    if i <= n {
      var before, seen := events[..n], truth[..n];
      assert before[..i] == events[..i] && seen[..i] == truth[..i];
      assert forall j :: i <= j < n ==> before[..j] == events[..j];
      DistanceAtOneScale(before, seen, i, scale);
      DistanceUnfold(events, truth);
      OneMore(Distance(before, seen), Distance(events[..i], truth[..i]), Motion(events, truth) - Motion(before, seen),
        scale);
    } else {
      assert events[..i] == events && truth[..i] == truth;
    }
  }

  lemma DistanceUnfold(events: seq<Event>, truth: seq<int>)
    requires |truth| == |events| && events != []
    ensures var n := |events| - 1;
      Distance(events, truth) == Distance(events[..n], truth[..n])
        + (Motion(events, truth) - Motion(events[..n], truth[..n])) as real / Scales(events[..n]).1
  {
    hide Motion, Scales;
  }

  lemma OneMore(d: real, start: real, step: int, scale: real)
    requires scale != 0.0
    ensures (d + step as real / scale - start) * scale == (d - start) * scale + step as real
  {
    var part := step as real / scale;
    assert part * scale == step as real;
    assert (d + part - start) * scale == (d - start) * scale + part * scale;
  }

  /** C's round: a nearest integer, away from zero when there are two. */
  lemma RoundIsNearest(x: real)
    ensures var d := Round(x) as real - x;
            -0.5 <= d <= 0.5 && (d == 0.5 ==> x >= 0.0) && (d == -0.5 ==> x < 0.0)
  {
  }

  /** The demand is the present count, moved by the scaled distance from the present position. */
  ghost predicate DemandIsRelative(c: Channel, posCmd: real, wraps: int) {
    Demand(c, posCmd) == (posCmd - c.posFb) * c.posScale + (c.count + wraps * TWO_32) as real
  }

  lemma TiedDemand(c: Channel, posCmd: real, wraps: int)
    requires Tied(c, wraps) && c.posScale == c.lastPosScale
    ensures DemandIsRelative(c, posCmd, wraps)
  {
  }

  /** In every state a write leaves behind, commands are relative to the present count and position. */
  lemma CommandIsRelative(events: seq<Event>, posCmd: real) returns (wraps: int)
    ensures DemandIsRelative(Run(events + [Write]).c, posCmd, wraps)
  {
    var all := events + [Write];
    assert all[..|all| - 1] == events;
    EveryRunKeepsInv(events);
    CheckKeepsInv(Run(events).c);
    wraps :| Tied(Run(all).c, wraps);
    TiedDemand(Run(all).c, posCmd, wraps);
  }

  /**
   The target word is the count, modulo 2^32, nearest to the present count moved by the scaled distance from
   the present position to the command.
   */
  lemma TargetFollowsCommand(events: seq<Event>, posCmd: real) returns (k: int)
    ensures var c := Run(events + [Write]).c;
            && Target(c, posCmd) == U32(k)
            && -0.5 <= k as real - ((posCmd - c.posFb) * c.posScale + c.count as real) <= 0.5
  {
    hide Round, Inv;
    var c := Run(events + [Write]).c;
    var wraps := CommandIsRelative(events, posCmd);
    RoundIsNearest(Demand(c, posCmd));
    k := Round(Demand(c, posCmd)) - wraps * TWO_32;
    WrapsOff(Round(Demand(c, posCmd)), wraps);
  }

  lemma WrapsOff(x: int, wraps: int)
    ensures U32(S32(x)) == U32(x - wraps * TWO_32)
  {
  }

  /** No jump: commanding the present position targets the present count, whatever happened to the scale. */
  lemma NoJump(events: seq<Event>)
    ensures var c := Run(events + [Write]).c;
            Target(c, c.posFb) == U32(c.count)
  {
    var c := Run(events + [Write]).c;
    var wraps := CommandIsRelative(events, c.posFb);
    EveryRunKeepsInv(events + [Write]);
    AtRest(c, wraps);
  }

  lemma AtRest(c: Channel, wraps: int)
    requires DemandIsRelative(c, c.posFb, wraps) && IsS32(c.count)
    ensures Target(c, c.posFb) == U32(c.count)
  {
    assert (c.posFb - c.posFb) * c.posScale == 0.0;
    RoundInteger(c.count + wraps * TWO_32);
    WrappedCount(c.count, wraps);
  }

  lemma RoundInteger(n: int)
    ensures Round(n as real) == n
  {
  }

  lemma WrappedCount(count: int, wraps: int)
    requires IsS32(count)
    ensures S32(count + wraps * TWO_32) == count
  {
  }

  // --- the device object ---

  class PulseChannel {
    var posFb: real
    var posCmd: real
    var enable: bool
    var count: int
    var posScale: real
    var lastCount: int
    var lastPosScale: real
    var posScaleRecip: real
    var stepOffset: real
    /** What the last write put into the process data. */
    var target: int
    var enableOut: bool

    function State(): Channel
      reads this
    {
      Channel(posFb, count, posScale, lastCount, lastPosScale, posScaleRecip, stepOffset)
    }

    constructor ()
      ensures State() == INITIAL
    {
      posFb, posCmd, enable, count, posScale := 0.0, 0.0, false, 0, 1.0;
      lastCount, lastPosScale, posScaleRecip, stepOffset := 0, 1.0, 1.0, 0.0;
      target, enableOut := 0, false;
    }
  }

  class Device {
    const channels: seq<PulseChannel>
    var lastOperational: bool

    ghost predicate Valid() {
      |channels| == 2 && channels[0] != channels[1]
    }

    constructor ()
      ensures Valid() && !lastOperational
      ensures forall c :: c in channels ==> fresh(c) && c.State() == INITIAL
    {
      var first := new PulseChannel();
      var second := new PulseChannel();
      channels := [first, second];
      lastOperational := false;
    }

    /** lcec_el2522_read. */
    method Read(operational: bool, rawCounts: seq<int>)
      requires Valid() && |rawCounts| == 2
      modifies this`lastOperational, channels
      ensures lastOperational == operational
      ensures forall i :: 0 <= i < 2 ==>
        channels[i].State() == (if operational
                                then ReadChannel(old(channels[i].State()), rawCounts[i], old(lastOperational))
                                else old(channels[i].State()))
      // each channel takes its own counter; the first read after a gap moves nothing
      ensures operational ==> forall i :: 0 <= i < 2 ==>
        Moved(old(channels[i].State()), channels[i].State(), rawCounts[i], old(lastOperational))
    {
      hide ReadChannel, Moved;
      if !operational {
        lastOperational := false;
        return;
      }
      ghost var first, second := channels[0].State(), channels[1].State();
      ReadMoves(first, rawCounts[0], lastOperational);
      ReadMoves(second, rawCounts[1], lastOperational);
      ReadCounters(rawCounts);
      lastOperational := true;
    }

    method ReadCounters(rawCounts: seq<int>)
      requires Valid() && |rawCounts| == 2
      modifies channels
      ensures forall i :: 0 <= i < 2 ==>
        channels[i].State() == ReadChannel(old(channels[i].State()), rawCounts[i], lastOperational)
    {
      hide ReadChannel;
      for i := 0 to 2
        modifies channels
        invariant forall j :: 0 <= j < i ==>
          channels[j].State() == ReadChannel(old(channels[j].State()), rawCounts[j], lastOperational)
        invariant forall j :: i <= j < 2 ==> channels[j].State() == old(channels[j].State())
      {
        ReadCounter(channels[i], rawCounts[i]);
      }
    }

    method ReadCounter(channel: PulseChannel, rawCount: int)
      modifies channel
      ensures channel.State() == ReadChannel(old(channel.State()), rawCount, lastOperational)
      ensures channel.lastCount == rawCount
      ensures var diff := if lastOperational then S32(rawCount - old(channel.lastCount)) else 0;
              && channel.count == S32(old(channel.count) + diff)
              && channel.posFb == old(channel.posFb) + diff as real * channel.posScaleRecip
    {
      hide S32;
      var diff := S32(rawCount - channel.lastCount);
      channel.lastCount := rawCount;
      if !lastOperational {
        diff := 0;
      }
      channel.count := S32(channel.count + diff);
      channel.posFb := channel.posFb + diff as real * channel.posScaleRecip;
    }

    /** lcec_el2522_write. */
    method Write()
      requires Valid()
      modifies channels
      ensures forall i :: 0 <= i < 2 ==>
        && channels[i].State() == CheckScale(old(channels[i].State()))
        && channels[i].target == Target(channels[i].State(), old(channels[i].posCmd))
        && channels[i].enableOut == old(channels[i].enable)
    {
      hide Target, CheckScale;
      for i := 0 to 2
        modifies channels
        invariant forall j :: 0 <= j < i ==>
          && channels[j].State() == CheckScale(old(channels[j].State()))
          && channels[j].target == Target(channels[j].State(), old(channels[j].posCmd))
          && channels[j].enableOut == old(channels[j].enable)
        invariant forall j :: i <= j < 2 ==>
          && channels[j].State() == old(channels[j].State())
          && channels[j].posCmd == old(channels[j].posCmd) && channels[j].enable == old(channels[j].enable)
      {
        WriteChannel(channels[i]);
      }
    }

    method WriteChannel(channel: PulseChannel)
      modifies channel
      ensures channel.State() == CheckScale(old(channel.State()))
      ensures channel.target == Target(channel.State(), old(channel.posCmd)) && channel.enableOut == old(channel.enable)
      // the scale asked for is taken, or put back when it is next to zero
      ensures channel.count == old(channel.count) && channel.posFb == old(channel.posFb)
      ensures channel.posScale == channel.lastPosScale ==
        if old(channel.posScale != channel.lastPosScale && TooSmall(channel.posScale)) then old(channel.lastPosScale)
        else old(channel.posScale)
    {
      hide Target;
      if channel.posScale != channel.lastPosScale {
        if TooSmall(channel.posScale) {
          channel.posScale := channel.lastPosScale;
        } else {
          channel.lastPosScale := channel.posScale;
          channel.stepOffset := channel.count as real - channel.posFb * channel.posScale;
          channel.posScaleRecip := 1.0 / channel.posScale;
        }
      }
      channel.target := Target(channel.State(), channel.posCmd);
      channel.enableOut := channel.enable;
    }
  }
}
