/**
 The configuration program as a function of the XML events: which tokens it appends, and which
 earlier tokens it goes back to and patches. The stream is held as a zipper whose open points are
 exactly the tokens that can still be patched.
 */
module ConfigEvents {
  import opened ConfigFormat
  import opened Options

  /** One start or end handler call, its attributes decoded. */
  datatype Event =
    | EvMaster(master: MasterAttrs)
    | EvSlave(attrs: SlaveAttrs)
    | EvSm(index: int, dir: Dir)
    | EvPdo(index: int)
    | EvEntry(e: Entry)
    | EvPart(part: Complex)
    | EvSdo(index: int, subindex: int)
    | EvSdoData(data: seq<int>)
    | EvCmdStart(complete: bool)
    | EvCmdIndex(index: int)
    | EvCmdSubindex(subindex: int)
    | EvCmdData(data: seq<int>)
    | EvCmdTransition(text: string)
    | EvCmdEnd

  // --- the events of a document ---

  function PartEvents(parts: seq<Complex>): seq<Event> {
    if parts == [] then [] else [EvPart(parts[0])] + PartEvents(parts[1..])
  }

  function EntriesEvents(es: seq<Entry>): seq<Event> {
    if es == [] then [] else [EvEntry(es[0])] + PartEvents(es[0].parts) + EntriesEvents(es[1..])
  }

  function PdosEvents(ps: seq<Pdo>): seq<Event> {
    if ps == [] then [] else [EvPdo(ps[0].index)] + EntriesEvents(ps[0].entries) + PdosEvents(ps[1..])
  }

  function DataEvents(pieces: seq<seq<int>>): seq<Event> {
    if pieces == [] then [] else [EvSdoData(pieces[0])] + DataEvents(pieces[1..])
  }

  function FieldEvent(f: Field): Event {
    match f
    case Index(index) => EvCmdIndex(index)
    case Subindex(subindex) => EvCmdSubindex(subindex)
    case Payload(data) => EvCmdData(data)
    case Transition(text) => EvCmdTransition(text)
  }

  function FieldsEvents(fields: seq<Field>): seq<Event> {
    if fields == [] then [] else [FieldEvent(fields[0])] + FieldsEvents(fields[1..])
  }

  function CmdEvents(c: Cmd): seq<Event> {
    [EvCmdStart(c.complete)] + FieldsEvents(c.fields) + [EvCmdEnd]
  }

  function CmdsEvents(cs: seq<Cmd>): seq<Event> {
    if cs == [] then [] else CmdEvents(cs[0]) + CmdsEvents(cs[1..])
  }

  function ChildEvents(c: Child): seq<Event> {
    match c
    case SmChild(sm) => [EvSm(sm.index, sm.dir)] + PdosEvents(sm.pdos)
    case SdoChild(sdo) => [EvSdo(sdo.index, sdo.subindex)] + DataEvents(sdo.pieces)
    case InitCmds(cmds) => CmdsEvents(cmds)
  }

  function ChildrenEvents(cs: seq<Child>): seq<Event> {
    if cs == [] then [] else ChildEvents(cs[0]) + ChildrenEvents(cs[1..])
  }

  function NodeEvents(n: Node): seq<Event> {
    match n
    case MasterNode(m) => [EvMaster(m)]
    case SlaveNode(s) => [EvSlave(s.attrs)] + ChildrenEvents(s.children)
  }

  function NodesEvents(ns: seq<Node>): seq<Event> {
    if ns == [] then [] else NodeEvents(ns[0]) + NodesEvents(ns[1..])
  }

  // --- the stream under construction ---

  /** The token that the running child can still patch, with the chunks behind it. */
  datatype Open =
    | Nothing
    | OpenSm(sm: Token, b: seq<Chunk>)
    | OpenPdo(sm: Token, b: seq<Chunk>, pdo: Token, c: seq<Chunk>)
    | OpenSdo(sdo: Token, d: seq<Chunk>)

  /**
   pre, the slave token, the finished children, the open child; the period of the current master, 0 before
   there is one; and the state of the open entry.
   */
  datatype Stream = Stream(
    pre: seq<Chunk>, slave: Option<Token>, done: seq<Chunk>, open: Open,
    period: nat, entryBits: int, bitOffset: int)

  const EMPTY := Stream([], None, [], Nothing, 0, 0, 0)

  function OpenChunks(o: Open): seq<Chunk> {
    match o
    case Nothing => []
    case OpenSm(sm, b) => [[Tok(sm)]] + b
    case OpenPdo(sm, b, pdo, c) => [[Tok(sm)]] + b + [[Tok(pdo)]] + c
    case OpenSdo(sdo, d) => [[Tok(sdo)]] + d
  }

  /** The chunks in the order they were reserved. */
  function Flatten(s: Stream): seq<Chunk> {
    s.pre + (if s.slave == None then [] else [[Tok(s.slave.value)]]) + s.done + OpenChunks(s.open)
  }

  ghost predicate ValidStream(s: Stream) {
    && (s.slave == None ==> s.done == [] && s.open == Nothing)
    && (s.slave != None ==> s.slave.value.TSlave?)
    && match s.open
       case Nothing => true
       case OpenSm(sm, _) => sm.TSync?
       case OpenPdo(sm, _, pdo, _) => sm.TSync? && pdo.TPdo?
       case OpenSdo(sdo, _) => sdo.TSdo?
  }

  function Close(s: Stream): Stream {
    s.(done := s.done + OpenChunks(s.open), open := Nothing)
  }

  /** Add to the memory plan in the slave token. */
  function Plan(s: Stream, c: Counts): Stream
    requires s.slave != None && s.slave.value.TSlave?
  {
    s.(slave := Some(s.slave.value.(counts := Plus(s.slave.value.counts, c))))
  }

  predicate InSlave(s: Stream) {
    s.slave != None && s.slave.value.TSlave?
  }

  /** Patch and extend the open SDO token. */
  function AddData(s: Stream, data: seq<int>): Stream
    requires s.open.OpenSdo? && s.open.sdo.TSdo?
  {
    s.(open := OpenSdo(s.open.sdo.(length := s.open.sdo.length + |data|), s.open.d + [Bytes(data)]))
  }

  predicate GoodAttrs(a: SlaveAttrs, period: nat) {
    a.kind != Unknown && a.unit != "" && CycleOf(a.cycle, period) != None
  }

  /** One handler; None when it stops the parser. */
  function Handle(s: Stream, e: Event, z: Sizes): Option<Stream> {
    match e
    case EvMaster(m) =>
      if SyncMode(m) == None then None
      else Some(Stream(Flatten(s) + [[Tok(MasterToken(m))]], None, [], Nothing, PeriodOf(m),
                       s.entryBits, s.bitOffset))
    case EvSlave(a) =>
      if (s.slave == None && s.pre == []) || !GoodAttrs(a, s.period) then None
      else Some(Stream(Flatten(s), Some(SlaveToken(a, s.period, NONE)), [], Nothing, s.period,
                       s.entryBits, s.bitOffset))
    case EvSm(index, dir) =>
      if !InSlave(s) || !s.slave.value.generic || !(0 <= index < MAX_SYNC_MANAGERS) then None
      else Some(Plan(Close(s).(open := OpenSm(TSync(index, dir, 0), [])), Counts(1, 0, 0, 0, 0)))
    case EvPdo(index) =>
      if !InSlave(s) || !(0 <= index < 0xffff) then None else (
        match s.open
        case OpenSm(sm, b) =>
          if !sm.TSync? then None
          else Some(Plan(
            s.(open := OpenPdo(sm.(pdoCount := sm.pdoCount + 1), b, TPdo(index, 0), [])),
            Counts(0, 1, 0, 0, 0)))
        case OpenPdo(sm, b, pdo, c) =>
          if !sm.TSync? then None
          else Some(Plan(
            s.(open := OpenPdo(sm.(pdoCount := sm.pdoCount + 1), b + [[Tok(pdo)]] + c, TPdo(index, 0), [])),
            Counts(0, 1, 0, 0, 0)))
        case _ => None)
    case EvEntry(x) =>
      if !InSlave(s) || !s.open.OpenPdo? || !s.open.pdo.TPdo? || !GoodEntryAttrs(x) then None
      else
        var o := s.open;
        Some(Plan(
          s.(open := OpenPdo(o.sm, o.b, o.pdo.(entryCount := o.pdo.entryCount + 1),
                             o.c + [[Tok(TEntry(x.index, x.subindex, x.bitLength, x.pin))]]),
             entryBits := x.bitLength, bitOffset := 0),
          Counts(0, 0, 1, PinCount(x.pin), 0)))
    case EvPart(part) =>
      if !InSlave(s) || !s.open.OpenPdo? || !GoodPart(part, s.bitOffset, s.entryBits) then None
      else
        var o := s.open;
        Some(Plan(
          s.(open := o.(c := o.c + [[Tok(TComplex(s.bitOffset, part.bitLength, part.pin))]]),
             bitOffset := s.bitOffset + part.bitLength),
          Counts(0, 0, 0, PinCount(part.pin), 0)))
    case EvSdo(index, subindex) =>
      if !InSlave(s) || !GoodSdo(Sdo(index, subindex, [])) then None
      else Some(Plan(Close(s).(open := OpenSdo(TSdo(index, subindex, 0), [])), Counts(0, 0, 0, 0, z.conf)))
    case EvSdoData(data) =>
      if !InSlave(s) || !s.open.OpenSdo? || !s.open.sdo.TSdo? then None
      else if data == [] then Some(s)
      else Some(Plan(AddData(s, data), Counts(0, 0, 0, 0, |data|)))
    case EvCmdStart(complete) =>
      if !InSlave(s) then None
      else Some(Close(s).(open := OpenSdo(TSdo(0xffff, if complete then SDO_COMPLETE else 0xff, 0), [])))
    case EvCmdIndex(index) =>
      if !s.open.OpenSdo? || !s.open.sdo.TSdo? || !(0 <= index <= 0xffff) then None
      else Some(s.(open := s.open.(sdo := s.open.sdo.(index := index))))
    case EvCmdSubindex(subindex) =>
      if !s.open.OpenSdo? || !s.open.sdo.TSdo? then None
      else if s.open.sdo.subindex == SDO_COMPLETE then Some(s)
      else if !(0 <= subindex <= 0xff) then None
      else Some(s.(open := s.open.(sdo := s.open.sdo.(subindex := subindex))))
    case EvCmdData(data) =>
      if !s.open.OpenSdo? || !s.open.sdo.TSdo? then None else Some(AddData(s, data))
    case EvCmdTransition(text) =>
      if text == "IP" || text == "PS" then Some(s) else None
    case EvCmdEnd =>
      if !InSlave(s) || !s.open.OpenSdo? || !s.open.sdo.TSdo? then None
      else if s.open.sdo.index == 0xffff || s.open.sdo.subindex == 0xff then None
      else Some(Plan(s, Counts(0, 0, 0, 0, z.conf + s.open.sdo.length)))
  }

  function HandleAll(s: Stream, events: seq<Event>, z: Sizes): Option<Stream>
    decreases |events|
  {
    if events == [] then Some(s)
    else
      var t := Handle(s, events[0], z);
      if t == None then None else HandleAll(t.value, events[1..], z)
  }

  lemma {:induction false} HandleAppend(s: Stream, a: seq<Event>, b: seq<Event>, z: Sizes)
    ensures HandleAll(s, a + b, z)
         == (var t := HandleAll(s, a, z); if t == None then None else HandleAll(t.value, b, z))
    decreases |a|
  {
    if a == [] {
      assert a + b == b;
    } else {
      assert (a + b)[0] == a[0] && (a + b)[1..] == a[1..] + b;
      var t := Handle(s, a[0], z);
      if t != None {
        HandleAppend(t.value, a[1..], b, z);
      }
    }
  }

  lemma HandleNone(s: Stream, z: Sizes)
    ensures HandleAll(s, [], z) == Some(s)
  {
  }

  lemma HandleOne(s: Stream, e: Event, z: Sizes)
    ensures HandleAll(s, [e], z) == Handle(s, e, z)
  {
  }

  /** More parts of the open entry. */
  function GrowParts(s: Stream, chunks: seq<Chunk>, bits: int, pins: nat): Stream
    requires InSlave(s) && s.open.OpenPdo?
  {
    Plan(s.(open := s.open.(c := s.open.c + chunks), bitOffset := s.bitOffset + bits), Counts(0, 0, 0, pins, 0))
  }

  lemma GrowPartsTwice(s: Stream, a: seq<Chunk>, b: seq<Chunk>, i: int, j: int, m: nat, n: nat)
    requires InSlave(s) && s.open.OpenPdo?
    ensures GrowParts(GrowParts(s, a, i, m), b, j, n) == GrowParts(s, a + b, i + j, m + n)
    ensures GrowParts(s, [], 0, 0) == s
  {
    assert (s.open.c + a) + b == s.open.c + (a + b);
    assert s.open.c + [] == s.open.c;
  }

  lemma HandlePart(s: Stream, part: Complex, z: Sizes)
    requires InSlave(s) && s.open.OpenPdo?
    ensures Handle(s, EvPart(part), z) ==
      if !GoodPart(part, s.bitOffset, s.entryBits) then None
      else Some(GrowParts(
        s, [[Tok(TComplex(s.bitOffset, part.bitLength, part.pin))]], part.bitLength, PinCount(part.pin)))
  {
  }

  lemma {:induction false} HandleParts(s: Stream, parts: seq<Complex>, z: Sizes)
    requires InSlave(s) && s.open.OpenPdo?
    ensures HandleAll(s, PartEvents(parts), z) ==
      if !GoodParts(parts, s.bitOffset, s.entryBits) then None
      else Some(GrowParts(s, PartChunks(parts, s.bitOffset), PartBits(parts), PartsPins(parts)))
    decreases |parts|
  {
    hide Handle, GoodPart, PinCount;
    GrowPartsTwice(s, [], [], 0, 0, 0, 0);
    if parts != [] {
      assert PartEvents(parts)[1..] == PartEvents(parts[1..]);
      HandlePart(s, parts[0], z);
      var t := Handle(s, EvPart(parts[0]), z);
      if t != None {
        var more := parts[1..];
        HandleParts(t.value, more, z);
        GrowPartsTwice(s, [[Tok(TComplex(s.bitOffset, parts[0].bitLength, parts[0].pin))]],
          PartChunks(more, s.bitOffset + parts[0].bitLength),
          parts[0].bitLength, PartBits(more), PinCount(parts[0].pin), PartsPins(more));
      }
    }
  }

  function PartBits(parts: seq<Complex>): int {
    if parts == [] then 0 else parts[0].bitLength + PartBits(parts[1..])
  }

  /** The stream without the state of the open entry, which only complexEntry events look at. */
  function Core(s: Stream): Stream {
    s.(entryBits := 0, bitOffset := 0)
  }

  /** n more entries in the open PDO. */
  function GrowPdo(s: Stream, n: nat, chunks: seq<Chunk>, counts: Counts): Stream
    requires InSlave(s) && s.open.OpenPdo? && s.open.pdo.TPdo?
  {
    Plan(
      s.(open := s.open.(pdo := s.open.pdo.(entryCount := s.open.pdo.entryCount + n), c := s.open.c + chunks)),
      counts)
  }

  lemma HandleEntry(s: Stream, e: Entry, z: Sizes)
    requires InSlave(s) && s.open.OpenPdo? && s.open.pdo.TPdo?
    ensures var t := HandleAll(s, [EvEntry(e)] + PartEvents(e.parts), z);
      if !GoodEntry(e) then t == None
      else t != None && Core(t.value) == Core(GrowPdo(s, 1, EntryChunks(e), EntryCounts(e)))
  {
    HandleAppend(s, [EvEntry(e)], PartEvents(e.parts), z);
    HandleOne(s, EvEntry(e), z);
    var t := Handle(s, EvEntry(e), z);
    if t != None {
      HandleParts(t.value, e.parts, z);
      var head := [[Tok(TEntry(e.index, e.subindex, e.bitLength, e.pin))]];
      assert (s.open.c + head) + PartChunks(e.parts, 0) == s.open.c + EntryChunks(e);
    }
  }

  lemma {:induction false} HandleEntries(s: Stream, es: seq<Entry>, z: Sizes)
    requires InSlave(s) && s.open.OpenPdo? && s.open.pdo.TPdo?
    ensures var t := HandleAll(s, EntriesEvents(es), z);
      if !GoodEntries(es) then t == None
      else t != None && Core(t.value) == Core(GrowPdo(s, |es|, EntriesChunks(es), EntriesCounts(es)))
    decreases |es|
  {
    hide HandleAll, Handle, GoodEntry, EntryChunks, EntryCounts, PartEvents;
    if es == [] {
      HandleNone(s, z);
      assert s.open.c + [] == s.open.c;
    } else {
      var first := [EvEntry(es[0])] + PartEvents(es[0].parts);
      HandleAppend(s, first, EntriesEvents(es[1..]), z);
      HandleEntry(s, es[0], z);
      var t := HandleAll(s, first, z);
      if t != None {
        HandleEntries(t.value, es[1..], z);
        assert (s.open.c + EntryChunks(es[0])) + EntriesChunks(es[1..]) == s.open.c + EntriesChunks(es);
      }
    }
  }

  /** The open sync manager and what has been appended behind it. */
  ghost predicate SmIsOpen(s: Stream) {
    && InSlave(s)
    && match s.open
       case OpenSm(sm, _) => sm.TSync?
       case OpenPdo(sm, _, pdo, _) => sm.TSync? && pdo.TPdo?
       case _ => false
  }

  ghost function SmOf(s: Stream): (r: Token)
    requires SmIsOpen(s)
    ensures r.TSync?
  {
    s.open.sm
  }

  ghost function TailOf(s: Stream): seq<Chunk>
    requires SmIsOpen(s)
  {
    if s.open.OpenSm? then s.open.b else s.open.b + [[Tok(s.open.pdo)]] + s.open.c
  }

  function MorePdos(sm: Token, n: nat): Token {
    if sm.TSync? then sm.(pdoCount := sm.pdoCount + n) else sm
  }

  /** n more PDOs in the open sync manager. */
  ghost predicate SmGrew(s: Stream, t: Stream, n: nat, chunks: seq<Chunk>, counts: Counts)
    requires SmIsOpen(s)
  {
    && SmIsOpen(t) && t.pre == s.pre && t.done == s.done && t.slave == Plan(s, counts).slave && t.period == s.period
    && SmOf(t) == MorePdos(SmOf(s), n) && TailOf(t) == TailOf(s) + chunks
  }

  lemma HandlePdo(s: Stream, p: Pdo, z: Sizes)
    requires SmIsOpen(s)
    ensures var t := HandleAll(s, [EvPdo(p.index)] + EntriesEvents(p.entries), z);
      if !(0 <= p.index < 0xffff && GoodEntries(p.entries)) then t == None
      else t != None && SmGrew(s, t.value, 1, PdoChunks(p), PdoCounts(p))
  {
    hide HandleAll, GoodEntries, EntriesChunks, EntriesCounts, EntriesEvents;
    HandleAppend(s, [EvPdo(p.index)], EntriesEvents(p.entries), z);
    HandleOne(s, EvPdo(p.index), z);
    var t := Handle(s, EvPdo(p.index), z);
    if t != None {
      assert TailOf(t.value) == TailOf(s) + [[Tok(TPdo(p.index, 0))]];
      HandleEntries(t.value, p.entries, z);
      var u := HandleAll(t.value, EntriesEvents(p.entries), z);
      if u != None {
        assert TailOf(u.value) == TailOf(s) + PdoChunks(p);
      }
    }
  }

  lemma SmGrewTwice(s: Stream, t: Stream, u: Stream, m: nat, n: nat, a: seq<Chunk>, b: seq<Chunk>, i: Counts, j: Counts)
    requires SmIsOpen(s) && SmGrew(s, t, m, a, i) && SmGrew(t, u, n, b, j)
    ensures SmGrew(s, u, m + n, a + b, Plus(i, j))
  {
    hide TailOf;
    assert (TailOf(s) + a) + b == TailOf(s) + (a + b);
  }

  lemma SmStaysOpen(s: Stream, t: Stream, n: nat, chunks: seq<Chunk>, counts: Counts)
    requires SmIsOpen(s) && SmGrew(s, t, n, chunks, counts)
    ensures SmIsOpen(t)
  {
  }

  lemma SmGrewNone(s: Stream)
    requires SmIsOpen(s)
    ensures SmGrew(s, s, 0, [], NONE)
  {
    assert TailOf(s) + [] == TailOf(s);
  }

  lemma {:induction false} HandlePdos(s: Stream, ps: seq<Pdo>, z: Sizes)
    requires SmIsOpen(s)
    ensures var t := HandleAll(s, PdosEvents(ps), z);
      if !GoodPdos(ps) then t == None
      else t != None && SmGrew(s, t.value, |ps|, PdosChunks(ps), PdosCounts(ps))
    decreases |ps|
  {
    hide HandleAll, GoodEntries, PdoChunks, PdoCounts, EntriesEvents, SmIsOpen, SmGrew, Plus;
    if ps == [] {
      HandleNone(s, z);
      SmGrewNone(s);
    } else {
      var first := [EvPdo(ps[0].index)] + EntriesEvents(ps[0].entries);
      HandleAppend(s, first, PdosEvents(ps[1..]), z);
      HandlePdo(s, ps[0], z);
      var t := HandleAll(s, first, z);
      if t != None {
        assert SmIsOpen(t.value) by {
          SmStaysOpen(s, t.value, 1, PdoChunks(ps[0]), PdoCounts(ps[0]));
        }
        HandlePdos(t.value, ps[1..], z);
        var u := HandleAll(t.value, PdosEvents(ps[1..]), z);
        if u != None {
          SmGrewTwice(s, t.value, u.value, 1, |ps| - 1, PdoChunks(ps[0]), PdosChunks(ps[1..]),
            PdoCounts(ps[0]), PdosCounts(ps[1..]));
        }
      }
    }
  }

  /** What has been appended behind the slave token. */
  function Body(s: Stream): seq<Chunk> {
    s.done + OpenChunks(s.open)
  }

  /** The slave has more chunks behind it and more in its memory plan. */
  ghost predicate SlaveGrew(s: Stream, t: Stream, chunks: seq<Chunk>, counts: Counts)
    requires InSlave(s)
  {
    && InSlave(t) && t.pre == s.pre && t.slave == Plan(s, counts).slave && t.period == s.period
    && Body(t) == Body(s) + chunks
  }

  lemma SmOpens(s: Stream, sm: Sm, z: Sizes)
    requires InSlave(s)
    ensures var t := Handle(s, EvSm(sm.index, sm.dir), z);
      if !(s.slave.value.generic && 0 <= sm.index < MAX_SYNC_MANAGERS) then t == None
      else (
        && t != None && SmIsOpen(t.value) && SmOf(t.value) == TSync(sm.index, sm.dir, 0) && TailOf(t.value) == []
        && t.value.pre == s.pre && t.value.done == Body(s) && t.value.period == s.period
        && t.value.slave == Plan(s, Counts(1, 0, 0, 0, 0)).slave)
  {
  }

  lemma SmCompletes(s: Stream, t: Stream, u: Stream, sm: Sm)
    requires InSlave(s) && SmIsOpen(t) && SmOf(t) == TSync(sm.index, sm.dir, 0) && TailOf(t) == []
    requires t.pre == s.pre && t.done == Body(s) && t.period == s.period
    requires t.slave == Plan(s, Counts(1, 0, 0, 0, 0)).slave
    requires SmGrew(t, u, |sm.pdos|, PdosChunks(sm.pdos), PdosCounts(sm.pdos))
    ensures SlaveGrew(s, u, SmChunks(sm), SmCounts(sm))
  {
    hide PdosChunks, PdosCounts;
    assert OpenChunks(u.open) == [[Tok(SmOf(u))]] + TailOf(u);
    assert [] + PdosChunks(sm.pdos) == PdosChunks(sm.pdos);
  }

  lemma HandleSm(s: Stream, sm: Sm, z: Sizes)
    requires InSlave(s)
    ensures var t := HandleAll(s, [EvSm(sm.index, sm.dir)] + PdosEvents(sm.pdos), z);
      if !(s.slave.value.generic && GoodSm(sm)) then t == None
      else t != None && SlaveGrew(s, t.value, SmChunks(sm), SmCounts(sm))
  {
    hide HandleAll, Handle, GoodPdos, PdosChunks, PdosCounts, PdosEvents, SmIsOpen, SmGrew, SlaveGrew, SmChunks,
         SmCounts;
    HandleAppend(s, [EvSm(sm.index, sm.dir)], PdosEvents(sm.pdos), z);
    HandleOne(s, EvSm(sm.index, sm.dir), z);
    SmOpens(s, sm, z);
    var t := Handle(s, EvSm(sm.index, sm.dir), z);
    if t != None {
      HandlePdos(t.value, sm.pdos, z);
      var u := HandleAll(t.value, PdosEvents(sm.pdos), z);
      if u != None {
        SmCompletes(s, t.value, u.value, sm);
      }
    }
  }

  /** n more bytes behind the open SDO token, of which the slave token's plan counts some. */
  function GrowSdo(s: Stream, n: nat, chunks: seq<Chunk>, planned: nat): Stream
    requires InSlave(s) && s.open.OpenSdo? && s.open.sdo.TSdo?
  {
    Plan(
      s.(open := OpenSdo(s.open.sdo.(length := s.open.sdo.length + n), s.open.d + chunks)),
      Counts(0, 0, 0, 0, planned))
  }

  lemma GrowSdoTwice(s: Stream, m: nat, n: nat, a: seq<Chunk>, b: seq<Chunk>, i: nat, j: nat)
    requires InSlave(s) && s.open.OpenSdo? && s.open.sdo.TSdo?
    ensures GrowSdo(GrowSdo(s, m, a, i), n, b, j) == GrowSdo(s, m + n, a + b, i + j)
    ensures GrowSdo(s, 0, [], 0) == s
  {
    assert (s.open.d + a) + b == s.open.d + (a + b);
    assert s.open.d + [] == s.open.d;
  }

  /** XML data elements: each non-empty piece is appended and counted in both lengths. */
  lemma {:induction false} HandleData(s: Stream, pieces: seq<seq<int>>, z: Sizes)
    requires InSlave(s) && s.open.OpenSdo? && s.open.sdo.TSdo?
    ensures HandleAll(s, DataEvents(pieces), z)
         == Some(GrowSdo(s, |Joined(pieces)|, PieceChunks(pieces, false), |Joined(pieces)|))
    decreases |pieces|
  {
    GrowSdoTwice(s, 0, 0, [], [], 0, 0);
    if pieces != [] {
      assert DataEvents(pieces)[1..] == DataEvents(pieces[1..]);
      var n := |pieces[0]|;
      var one := if n == 0 then [] else [Bytes(pieces[0])];
      assert Handle(s, EvSdoData(pieces[0]), z) == Some(GrowSdo(s, n, one, n));
      hide Handle;
      HandleData(GrowSdo(s, n, one, n), pieces[1..], z);
      var m := |Joined(pieces[1..])|;
      GrowSdoTwice(s, n, m, one, PieceChunks(pieces[1..], false), n, m);
    }
  }

  /** The open SDO token with what the fields put into it, and their data behind it. */
  function Filled(s: Stream, fields: seq<Field>): Stream
    requires s.open.OpenSdo? && s.open.sdo.TSdo?
  {
    var t, data := s.open.sdo, Payloads(fields);
    s.(open := OpenSdo(
      TSdo(IndexAfter(t.index, fields), SubindexAfter(t.subindex, fields), t.length + |Joined(data)|),
      s.open.d + PieceChunks(data, true)))
  }

  lemma OneField(f: Field, index: int, subindex: int)
    ensures IndexAfter(index, [f]) == (if f.Index? then f.index else index)
    ensures SubindexAfter(subindex, [f]) == (if f.Subindex? && subindex != SDO_COMPLETE then f.subindex else subindex)
    ensures Payloads([f]) == (if f.Payload? then [f.data] else [])
  {
    assert [f][1..] == [];
  }

  lemma OnePiece(data: seq<int>)
    ensures Joined([data]) == data && PieceChunks([data], true) == [Bytes(data)]
    ensures Joined([]) == [] && PieceChunks([], true) == []
  {
    assert [data][1..] == [] && data + [] == data;
  }

  lemma HandleField(s: Stream, f: Field, z: Sizes)
    requires s.open.OpenSdo? && s.open.sdo.TSdo?
    ensures Handle(s, FieldEvent(f), z) ==
      if GoodField(f, s.open.sdo.subindex == SDO_COMPLETE) then Some(Filled(s, [f])) else None
  {
    hide IndexAfter, SubindexAfter, Payloads, Joined, PieceChunks;
    OneField(f, s.open.sdo.index, s.open.sdo.subindex);
    OnePiece(if f.Payload? then f.data else []);
    assert s.open.d + [] == s.open.d;
  }

  lemma {:induction false} PiecesAppend(a: seq<int>, more: seq<seq<int>>)
    ensures Joined([a] + more) == a + Joined(more)
    ensures PieceChunks([a] + more, true) == [Bytes(a)] + PieceChunks(more, true)
  {
    assert ([a] + more)[1..] == more;
  }

  lemma FilledTwice(s: Stream, fields: seq<Field>)
    requires s.open.OpenSdo? && s.open.sdo.TSdo? && fields != []
    ensures Filled(Filled(s, [fields[0]]), fields[1..]) == Filled(s, fields)
    ensures GoodField(fields[0], s.open.sdo.subindex == SDO_COMPLETE) ==>
      (Filled(s, [fields[0]]).open.sdo.subindex == SDO_COMPLETE <==> s.open.sdo.subindex == SDO_COMPLETE)
  {
    hide Joined, PieceChunks;
    var f, more := fields[0], Payloads(fields[1..]);
    OneField(f, s.open.sdo.index, s.open.sdo.subindex);
    OnePiece(if f.Payload? then f.data else []);
    assert s.open.d + [] == s.open.d;
    if f.Payload? {
      PiecesAppend(f.data, more);
      ChunksAssoc(s.open.d, [Bytes(f.data)], PieceChunks(more, true));
    } else {
      assert [] + more == more;
    }
  }

  /** The elements of an init command, in any order: every piece of data is counted in the SDO token only. */
  lemma {:induction false} HandleFields(s: Stream, fields: seq<Field>, z: Sizes)
    requires s.open.OpenSdo? && s.open.sdo.TSdo?
    ensures HandleAll(s, FieldsEvents(fields), z) ==
      if GoodFields(fields, s.open.sdo.subindex == SDO_COMPLETE) then Some(Filled(s, fields)) else None
    decreases |fields|
  {
    hide Handle, GoodField, FieldEvent, Filled;
    if fields == [] {
      FilledWithNothing(s);
    } else {
      assert FieldsEvents(fields)[1..] == FieldsEvents(fields[1..]);
      HandleField(s, fields[0], z);
      FilledTwice(s, fields);
      FilledIsOpen(s, [fields[0]]);
      if GoodField(fields[0], s.open.sdo.subindex == SDO_COMPLETE) {
        HandleFields(Filled(s, [fields[0]]), fields[1..], z);
      }
    }
  }

  lemma FilledIsOpen(s: Stream, fields: seq<Field>)
    requires s.open.OpenSdo? && s.open.sdo.TSdo?
    ensures var t := Filled(s, fields); t.open.OpenSdo? && t.open.sdo.TSdo?
  {
  }

  lemma FilledWithNothing(s: Stream)
    requires s.open.OpenSdo? && s.open.sdo.TSdo?
    ensures Filled(s, []) == s
  {
    assert s.open.d + [] == s.open.d;
  }

  lemma HandleSdo(s: Stream, sdo: Sdo, z: Sizes)
    requires InSlave(s)
    ensures var t := HandleAll(s, [EvSdo(sdo.index, sdo.subindex)] + DataEvents(sdo.pieces), z);
      if !GoodSdo(sdo) then t == None
      else t != None && SlaveGrew(s, t.value, SdoChunks(sdo, false), SdoCounts(sdo, z))
  {
    hide HandleAll, Handle, DataEvents, SlaveGrew, SdoChunks, SdoCounts;
    HandleAppend(s, [EvSdo(sdo.index, sdo.subindex)], DataEvents(sdo.pieces), z);
    HandleOne(s, EvSdo(sdo.index, sdo.subindex), z);
    SdoCompletes(s, sdo, z);
    var t := Handle(s, EvSdo(sdo.index, sdo.subindex), z);
    if t != None {
      HandleData(t.value, sdo.pieces, z);
    }
  }

  lemma SdoCompletes(s: Stream, sdo: Sdo, z: Sizes)
    requires InSlave(s)
    ensures
      var t := Handle(s, EvSdo(sdo.index, sdo.subindex), z);
      var n := |Joined(sdo.pieces)|;
      if !GoodSdo(sdo) then t == None
      else (
        && t != None && InSlave(t.value) && t.value.open == OpenSdo(TSdo(sdo.index, sdo.subindex, 0), [])
        && var u := GrowSdo(t.value, n, PieceChunks(sdo.pieces, false), n);
           SlaveGrew(s, u, SdoChunks(sdo, false), SdoCounts(sdo, z)))
  {
    hide PieceChunks, Joined;
    assert [] + PieceChunks(sdo.pieces, false) == PieceChunks(sdo.pieces, false);
  }

  lemma {:induction false} FieldsInRange(index: int, subindex: int, fields: seq<Field>)
    requires GoodFields(fields, subindex == SDO_COMPLETE)
    requires 0 <= index <= 0xffff && (subindex == SDO_COMPLETE || 0 <= subindex <= 0xff)
    ensures 0 <= IndexAfter(index, fields) <= 0xffff
    ensures var r := SubindexAfter(subindex, fields); r == SDO_COMPLETE || 0 <= r <= 0xff
    decreases |fields|
  {
    if fields != [] {
      FieldsInRange(
        if fields[0].Index? then fields[0].index else index,
        if fields[0].Subindex? && subindex != SDO_COMPLETE then fields[0].subindex else subindex, fields[1..]);
    }
  }

  /** The token of an init command when its element starts. */
  function Started(s: Stream, complete: bool): Stream {
    Close(s).(open := OpenSdo(TSdo(0xffff, if complete then SDO_COMPLETE else 0xff, 0), []))
  }

  /** Its end checks the token and counts header and data together. */
  lemma CmdCompletes(s: Stream, c: Cmd, z: Sizes)
    requires InSlave(s) && GoodFields(c.fields, c.complete)
    ensures var u := Handle(Filled(Started(s, c.complete), c.fields), EvCmdEnd, z);
      if !GoodCmd(c) then u == None
      else u != None && SlaveGrew(s, u.value, SdoChunks(SdoOf(c), true), SdoCounts(SdoOf(c), z))
  {
    hide PieceChunks, Joined, IndexAfter, SubindexAfter, Payloads, GoodFields;
    FieldsInRange(0xffff, if c.complete then SDO_COMPLETE else 0xff, c.fields);
    assert [] + PieceChunks(Payloads(c.fields), true) == PieceChunks(Payloads(c.fields), true);
  }

  /** An init command: its SDO token ends up as an XML one would, whatever the order of its elements. */
  lemma HandleCmd(s: Stream, c: Cmd, z: Sizes)
    requires InSlave(s)
    ensures var t := HandleAll(s, CmdEvents(c), z);
      if !GoodCmd(c) then t == None
      else t != None && SlaveGrew(s, t.value, SdoChunks(SdoOf(c), true), SdoCounts(SdoOf(c), z))
  {
    hide HandleAll, Handle, FieldsEvents, GoodFields, Filled, SlaveGrew, SdoChunks, SdoCounts;
    var start, fields := [EvCmdStart(c.complete)], FieldsEvents(c.fields);
    HandleAppend(s, start + fields, [EvCmdEnd], z);
    HandleAppend(s, start, fields, z);
    HandleOne(s, start[0], z);
    HandleStart(s, c.complete, z);
    var t := Started(s, c.complete);
    HandleFields(t, c.fields, z);
    if GoodFields(c.fields, c.complete) {
      HandleOne(Filled(t, c.fields), EvCmdEnd, z);
      CmdCompletes(s, c, z);
    }
  }

  lemma HandleStart(s: Stream, complete: bool, z: Sizes)
    requires InSlave(s)
    ensures Handle(s, EvCmdStart(complete), z) == Some(Started(s, complete))
  {
  }

  lemma SlaveGrewTwice(s: Stream, t: Stream, u: Stream, a: seq<Chunk>, b: seq<Chunk>, i: Counts, j: Counts)
    requires InSlave(s) && SlaveGrew(s, t, a, i) && SlaveGrew(t, u, b, j)
    ensures SlaveGrew(s, u, a + b, Plus(i, j))
  {
    hide Body;
    assert (Body(s) + a) + b == Body(s) + (a + b);
  }

  lemma SlaveGrewInSlave(s: Stream, t: Stream, a: seq<Chunk>, i: Counts)
    requires InSlave(s) && SlaveGrew(s, t, a, i)
    ensures InSlave(t) && t.pre == s.pre && t.slave.value.generic == s.slave.value.generic && t.period == s.period
  {
  }

  lemma SlaveGrewByNothing(s: Stream)
    requires InSlave(s)
    ensures SlaveGrew(s, s, [], NONE)
  {
    assert Body(s) + [] == Body(s);
  }

  lemma {:induction false} HandleCmds(s: Stream, cs: seq<Cmd>, z: Sizes)
    requires InSlave(s)
    ensures var t := HandleAll(s, CmdsEvents(cs), z);
      if !GoodCmds(cs) then t == None
      else t != None && SlaveGrew(s, t.value, SdosChunks(SdosOf(cs)), SdosCounts(SdosOf(cs), z))
    decreases |cs|
  {
    hide HandleAll, SlaveGrew, CmdEvents, GoodCmd, SdoOf, SdoChunks, SdoCounts;
    if cs == [] {
      HandleNone(s, z);
      SlaveGrewByNothing(s);
    } else {
      var first, more := SdoOf(cs[0]), SdosOf(cs[1..]);
      assert SdosOf(cs)[0] == first && SdosOf(cs)[1..] == more;
      HandleAppend(s, CmdEvents(cs[0]), CmdsEvents(cs[1..]), z);
      HandleCmd(s, cs[0], z);
      var t := HandleAll(s, CmdEvents(cs[0]), z);
      if t != None {
        SlaveGrewInSlave(s, t.value, SdoChunks(first, true), SdoCounts(first, z));
        HandleCmds(t.value, cs[1..], z);
        var u := HandleAll(t.value, CmdsEvents(cs[1..]), z);
        if u != None {
          SlaveGrewTwice(s, t.value, u.value, SdoChunks(first, true), SdosChunks(more),
            SdoCounts(first, z), SdosCounts(more, z));
        }
      }
    }
  }

  lemma HandleChild(s: Stream, c: Child, z: Sizes)
    requires InSlave(s)
    ensures var t := HandleAll(s, ChildEvents(c), z);
      if !GoodChild(c, s.slave.value.generic) then t == None
      else t != None && SlaveGrew(s, t.value, ChildChunks(c), ChildCounts(c, z))
  {
    hide HandleAll, SlaveGrew, GoodSm, GoodSdo, GoodCmds, SdosOf,
         SmChunks, SdoChunks, SdosChunks, SmCounts, SdoCounts, SdosCounts;
    match c
    case SmChild(sm) => HandleSm(s, sm, z);
    case SdoChild(sdo) => HandleSdo(s, sdo, z);
    case InitCmds(cmds) => HandleCmds(s, cmds, z);
  }

  lemma {:induction false} HandleChildren(s: Stream, cs: seq<Child>, z: Sizes)
    requires InSlave(s)
    ensures var t := HandleAll(s, ChildrenEvents(cs), z);
      if !GoodChildren(cs, s.slave.value.generic) then t == None
      else t != None && SlaveGrew(s, t.value, ChildrenChunks(cs), ChildrenCounts(cs, z))
    decreases |cs|
  {
    hide HandleAll, SlaveGrew, ChildEvents, GoodChild, ChildChunks, ChildCounts;
    if cs == [] {
      HandleNone(s, z);
      SlaveGrewByNothing(s);
    } else {
      HandleAppend(s, ChildEvents(cs[0]), ChildrenEvents(cs[1..]), z);
      HandleChild(s, cs[0], z);
      var t := HandleAll(s, ChildEvents(cs[0]), z);
      if t != None {
        SlaveGrewInSlave(s, t.value, ChildChunks(cs[0]), ChildCounts(cs[0], z));
        HandleChildren(t.value, cs[1..], z);
        var u := HandleAll(t.value, ChildrenEvents(cs[1..]), z);
        if u != None {
          SlaveGrewTwice(s, t.value, u.value, ChildChunks(cs[0]), ChildrenChunks(cs[1..]),
            ChildCounts(cs[0], z), ChildrenCounts(cs[1..], z));
        }
      }
    }
  }

  lemma FlattenBody(s: Stream)
    requires InSlave(s)
    ensures Flatten(s) == s.pre + ([[Tok(s.slave.value)]] + Body(s))
  {
  }

  /** The stream when a slave element has started. */
  function SlaveStarts(s: Stream, a: SlaveAttrs): Stream {
    Stream(Flatten(s), Some(SlaveToken(a, s.period, NONE)), [], Nothing, s.period, s.entryBits, s.bitOffset)
  }

  lemma FlattenOfSlave(s: Stream, u: Stream, n: Slave, z: Sizes)
    requires SlaveGrew(SlaveStarts(s, n.attrs), u, ChildrenChunks(n.children), ChildrenCounts(n.children, z))
    ensures Flatten(u) == Flatten(s) + NodeChunks(SlaveNode(n), s.period, z)
  {
    hide ChildrenChunks, ChildrenCounts;
    var t := SlaveStarts(s, n.attrs);
    var chunks, counts := ChildrenChunks(n.children), ChildrenCounts(n.children, z);
    PlanFromNone(t, n.attrs, s.period, counts);
    assert Body(u) == chunks by {
      assert Body(t) == [] && [] + chunks == chunks;
    }
    FlattenBody(u);
    assert u.pre == Flatten(s);
    hide *;
    assert Flatten(u) == Flatten(s) + ([[Tok(u.slave.value)]] + chunks);
    NodeChunksOfSlave(n, s.period, z);
  }

  lemma PlanFromNone(t: Stream, a: SlaveAttrs, period: nat, counts: Counts)
    requires t.slave == Some(SlaveToken(a, period, NONE))
    ensures Plan(t, counts).slave == Some(SlaveToken(a, period, counts))
  {
  }

  lemma NodeChunksOfSlave(n: Slave, period: nat, z: Sizes)
    ensures NodeChunks(SlaveNode(n), period, z)
         == [[Tok(SlaveToken(n.attrs, period, ChildrenCounts(n.children, z)))]] + ChildrenChunks(n.children)
  {
  }

  /** A slave element stands inside a master element. */
  predicate Fits(s: Stream, n: Node) {
    n.SlaveNode? ==> s.slave != None || s.pre != []
  }

  lemma HandleSlave(s: Stream, n: Slave, z: Sizes)
    requires Fits(s, SlaveNode(n))
    ensures var t := HandleAll(s, NodeEvents(SlaveNode(n)), z);
      if !GoodSlave(n, s.period) then t == None
      else (
        && t != None && t.value.slave != None && t.value.period == s.period
        && Flatten(t.value) == Flatten(s) + NodeChunks(SlaveNode(n), s.period, z))
  {
    hide HandleAll, SlaveGrew, ChildrenEvents, GoodChildren, ChildrenChunks, ChildrenCounts, CycleOf, Flatten,
         NodeChunks;
    HandleAppend(s, [EvSlave(n.attrs)], ChildrenEvents(n.children), z);
    HandleOne(s, EvSlave(n.attrs), z);
    if GoodAttrs(n.attrs, s.period) {
      var t := SlaveStarts(s, n.attrs);
      HandleChildren(t, n.children, z);
      var u := HandleAll(t, ChildrenEvents(n.children), z);
      if u != None {
        SlaveGrewInSlave(t, u.value, ChildrenChunks(n.children), ChildrenCounts(n.children, z));
        FlattenOfSlave(s, u.value, n, z);
      }
    }
  }

  lemma HandleNode(s: Stream, n: Node, z: Sizes)
    requires Fits(s, n)
    ensures var t := HandleAll(s, NodeEvents(n), z);
      if !GoodNode(n, s.period) then t == None
      else (
        && t != None && t.value.period == PeriodAfter(n, s.period) && (t.value.slave != None || t.value.pre != [])
        && Flatten(t.value) == Flatten(s) + NodeChunks(n, s.period, z))
  {
    hide HandleAll, GoodSlave;
    match n
    case MasterNode(m) => HandleOne(s, EvMaster(m), z);
    case SlaveNode(sl) => HandleSlave(s, sl, z);
  }

  lemma {:induction false} HandleNodes(s: Stream, ns: seq<Node>, z: Sizes)
    requires ns != [] ==> Fits(s, ns[0])
    ensures var t := HandleAll(s, NodesEvents(ns), z);
      if !GoodNodes(ns, s.period) then t == None
      else t != None && Flatten(t.value) == Flatten(s) + NodesChunks(ns, s.period, z)
    decreases |ns|
  {
    hide HandleAll, Handle, NodeEvents, NodeChunks, Flatten, GoodNode, PeriodAfter;
    if ns == [] {
      HandleNone(s, z);
      assert Flatten(s) + [] == Flatten(s);
    } else {
      HandleAppend(s, NodeEvents(ns[0]), NodesEvents(ns[1..]), z);
      HandleNode(s, ns[0], z);
      var t := HandleAll(s, NodeEvents(ns[0]), z);
      if t != None {
        HandleNodes(t.value, ns[1..], z);
        ChunksAssoc(Flatten(s), NodeChunks(ns[0], s.period, z), NodesChunks(ns[1..], t.value.period, z));
      }
    }
  }

  lemma ChunksAssoc(a: seq<Chunk>, b: seq<Chunk>, c: seq<Chunk>)
    ensures (a + b) + c == a + (b + c)
  {
  }

  /** A document begins with a master, and its elements pass their checks. */
  predicate GoodDocument(ns: seq<Node>) {
    (ns == [] || ns[0].MasterNode?) && GoodNodes(ns, 0)
  }

  /**
   The configuration program accepts a document exactly when every element passes its checks, and then
   the tokens it leaves behind, after all its back-patching, are the tokens of the document: each
   slave, sync manager, PDO and SDO token carries the counts of what follows it.
   */
  lemma ProducedTokens(ns: seq<Node>, z: Sizes)
    ensures var t := HandleAll(EMPTY, NodesEvents(ns), z);
      if !GoodDocument(ns) then t == None
      else t != None && Flatten(t.value) == NodesChunks(ns, 0, z)
  {
    if ns != [] && ns[0].SlaveNode? {
      assert NodesEvents(ns)[0] == EvSlave(ns[0].slave.attrs);
    } else {
      HandleNodes(EMPTY, ns, z);
      assert Flatten(EMPTY) == [];
      assert [] + NodesChunks(ns, 0, z) == NodesChunks(ns, 0, z);
    }
  }
}
