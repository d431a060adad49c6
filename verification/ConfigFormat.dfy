/**
 What the configuration program reads and what it writes: the XML tree of a slave, the token stream
 in shared memory, and the tokens that stand for a tree.
 */
module ConfigFormat {
  import opened CInt
  import opened Options

  // --- the XML side ---

  datatype Dir = Input | Output

  /** The attributes of a HAL pin; an empty name means no pin, and scaled that a scale or an offset was given. */
  datatype Pin = Pin(name: string, isFloat: bool, kind: int, scaled: bool, scale: real, offset: real)

  datatype Complex = Complex(bitLength: int, pin: Pin)

  datatype Entry = Entry(index: int, subindex: int, bitLength: int, isComplex: bool, pin: Pin, parts: seq<Complex>)

  datatype Pdo = Pdo(index: int, entries: seq<Entry>)

  datatype Sm = Sm(index: int, dir: Dir, pdos: seq<Pdo>)

  /** An SDO setting; its data may arrive in several pieces. */
  datatype Sdo = Sdo(index: int, subindex: int, pieces: seq<seq<int>>)

  /** The elements of an init command that matter, in any order and number. */
  datatype Field = Index(index: int) | Subindex(subindex: int) | Payload(data: seq<int>) | Transition(text: string)

  datatype Cmd = Cmd(complete: bool, fields: seq<Field>)

  /** The children of a slave in document order: sync managers, SDO elements, init-command files. */
  datatype Child = SmChild(sm: Sm) | SdoChild(sdo: Sdo) | InitCmds(cmds: seq<Cmd>)

  datatype Kind = Generic | Known | Unknown

  /** The cycle of a slave's sync unit: not given, a multiple of the master's period, or nanoseconds. */
  datatype Cycle = Default | Times(n: int) | Nanoseconds(n: int)

  /** The attributes of a slave; a unit that is not given reads "default". */
  datatype SlaveAttrs = SlaveAttrs(kind: Kind, unit: string, cycle: Cycle)

  datatype Slave = Slave(attrs: SlaveAttrs, children: seq<Child>)

  datatype Given = NotGiven | Yes | No

  /** The attributes of a master: appTimePeriod, syncToRefClock, refClockSyncCycles. */
  datatype MasterAttrs = MasterAttrs(period: int, syncToRef: Given, refCycles: int)

  /** The nodes of a document in order: a master, then its slaves. */
  datatype Node = MasterNode(master: MasterAttrs) | SlaveNode(slave: Slave)

  // --- the token side ---

  /** The memory plan in a slave token. */
  datatype Counts = Counts(sms: nat, pdos: nat, entries: nat, pins: nat, sdoLength: nat)

  const NONE := Counts(0, 0, 0, 0, 0)

  function Plus(a: Counts, b: Counts): Counts {
    Counts(a.sms + b.sms, a.pdos + b.pdos, a.entries + b.entries, a.pins + b.pins, a.sdoLength + b.sdoLength)
  }

  datatype Token =
    | TEnd
    | TMaster(period: nat, syncToRef: bool, refCycles: nat)
    | TSlave(generic: bool, unit: string, cycle: nat, counts: Counts)
    | TSync(index: int, dir: Dir, pdoCount: nat)
    | TPdo(index: int, entryCount: nat)
    | TEntry(index: int, subindex: int, bitLength: int, pin: Pin)
    | TComplex(bitOffset: int, bitLength: int, pin: Pin)
    | TSdo(index: int, subindex: int, length: nat)

  /** A cell of the stream: one token structure, or one byte of raw data behind an SDO token. */
  datatype Cell = Tok(t: Token) | Raw(b: int)

  /** What one call of addOutputBuffer reserves. */
  type Chunk = seq<Cell>

  /** sizeof of the SDO header on the producing and on the consuming side. */
  datatype Sizes = Sizes(conf: nat, slave: nat) {
    predicate Valid() {
      2 <= slave <= conf
    }
  }

  const SDO_COMPLETE := -1

  function Bytes(data: seq<int>): (r: Chunk)
    ensures |r| == |data|
    ensures forall i :: 0 <= i < |data| ==> r[i] == Raw(data[i])
  {
    seq(|data|, i requires 0 <= i < |data| => Raw(data[i]))
  }

  function Concat(chunks: seq<Chunk>): seq<Cell> {
    if chunks == [] then [] else chunks[0] + Concat(chunks[1..])
  }

  // --- the tokens of a tree ---

  function PartChunks(parts: seq<Complex>, offset: int): seq<Chunk> {
    if parts == [] then []
    else
      [[Tok(TComplex(offset, parts[0].bitLength, parts[0].pin))]]
      + PartChunks(parts[1..], offset + parts[0].bitLength)
  }

  function EntryChunks(e: Entry): seq<Chunk> {
    [[Tok(TEntry(e.index, e.subindex, e.bitLength, e.pin))]] + PartChunks(e.parts, 0)
  }

  function EntriesChunks(es: seq<Entry>): seq<Chunk> {
    if es == [] then [] else EntryChunks(es[0]) + EntriesChunks(es[1..])
  }

  function PdoChunks(p: Pdo): seq<Chunk> {
    [[Tok(TPdo(p.index, |p.entries|))]] + EntriesChunks(p.entries)
  }

  function PdosChunks(ps: seq<Pdo>): seq<Chunk> {
    if ps == [] then [] else PdoChunks(ps[0]) + PdosChunks(ps[1..])
  }

  function SmChunks(s: Sm): seq<Chunk> {
    [[Tok(TSync(s.index, s.dir, |s.pdos|))]] + PdosChunks(s.pdos)
  }

  function Joined(pieces: seq<seq<int>>): seq<int> {
    if pieces == [] then [] else pieces[0] + Joined(pieces[1..])
  }

  /** The XML producer skips empty pieces, the init-command producer does not; the cells are the same. */
  function PieceChunks(pieces: seq<seq<int>>, keepEmpty: bool): seq<Chunk> {
    if pieces == [] then []
    else (if pieces[0] == [] && !keepEmpty then [] else [Bytes(pieces[0])]) + PieceChunks(pieces[1..], keepEmpty)
  }

  function SdoChunks(s: Sdo, keepEmpty: bool): seq<Chunk> {
    [[Tok(TSdo(s.index, s.subindex, |Joined(s.pieces)|))]] + PieceChunks(s.pieces, keepEmpty)
  }

  function SdosChunks(ss: seq<Sdo>): seq<Chunk> {
    if ss == [] then [] else SdoChunks(ss[0], true) + SdosChunks(ss[1..])
  }

  function ChildChunks(c: Child): seq<Chunk> {
    match c
    case SmChild(sm) => SmChunks(sm)
    case SdoChild(sdo) => SdoChunks(sdo, false)
    case InitCmds(cmds) => SdosChunks(SdosOf(cmds))
  }

  function ChildrenChunks(cs: seq<Child>): seq<Chunk> {
    if cs == [] then [] else ChildChunks(cs[0]) + ChildrenChunks(cs[1..])
  }

  function NodeChunks(n: Node, period: nat, z: Sizes): seq<Chunk> {
    match n
    case MasterNode(m) => [[Tok(MasterToken(m))]]
    case SlaveNode(s) =>
      [[Tok(SlaveToken(s.attrs, period, ChildrenCounts(s.children, z)))]] + ChildrenChunks(s.children)
  }

  /** The master's period in force behind a node. */
  function PeriodAfter(n: Node, period: nat): nat {
    if n.MasterNode? then PeriodOf(n.master) else period
  }

  function NodesChunks(ns: seq<Node>, period: nat, z: Sizes): seq<Chunk>
    decreases |ns|
  {
    if ns == [] then [] else NodeChunks(ns[0], period, z) + NodesChunks(ns[1..], PeriodAfter(ns[0], period), z)
  }

  // --- what the attributes of masters and slaves become ---

  /** The synchronisation of a master in its canonical form; None when the attributes contradict each other. */
  function SyncMode(m: MasterAttrs): Option<(bool, nat)> {
    if m.refCycles < -1 then None
    else match m.syncToRef
      case NotGiven => Some((m.refCycles < 0, AbsInt(m.refCycles)))
      case Yes =>
        if m.refCycles > 0 then None else Some((true, if m.refCycles == 0 then 1 else AbsInt(m.refCycles)))
      case No => if m.refCycles < 0 then None else Some((false, m.refCycles))
  }

  /**
   The attributes contradict each other exactly in these cases. Otherwise the master follows the reference
   clock when it is told so, or when -1 cycles say so, and then in every cycle; else the cycles are taken as given.
   */
  lemma SyncModeIsCanonical(m: MasterAttrs)
    ensures SyncMode(m) == None <==> (
      || m.refCycles < -1
      || (m.syncToRef == Yes && m.refCycles > 0)
      || (m.syncToRef == No && m.refCycles < 0))
    ensures SyncMode(m) != None ==>
      var (follows, cycles) := SyncMode(m).value;
      && (follows <==> m.syncToRef == Yes || m.refCycles == -1)
      && cycles == (if follows then 1 else m.refCycles)
      && MasterToken(m) == TMaster(U32(m.period), follows, cycles)
  {
  }

  function PeriodOf(m: MasterAttrs): nat {
    U32(m.period)
  }

  function MasterToken(m: MasterAttrs): Token {
    var mode := SyncMode(m);
    if mode == None then TMaster(PeriodOf(m), false, 0) else TMaster(PeriodOf(m), mode.value.0, mode.value.1)
  }

  /** The cycle stored for a slave; None when it is no positive multiple of the period. */
  function CycleOf(c: Cycle, period: nat): Option<nat> {
    var time := match c
      case Default => period
      case Times(n) => S32(U32(n * period))
      case Nanoseconds(n) => n;
    if time <= 0 || period == 0 || time % period != 0 then None else Some(time)
  }

  function SlaveToken(a: SlaveAttrs, period: nat, counts: Counts): Token {
    var cycle := CycleOf(a.cycle, period);
    TSlave(a.kind == Generic, a.unit, if cycle == None then 0 else cycle.value, counts)
  }

  // --- the SDO that an init command amounts to ---

  function IndexAfter(index: int, fields: seq<Field>): int
    decreases |fields|
  {
    if fields == [] then index else IndexAfter(if fields[0].Index? then fields[0].index else index, fields[1..])
  }

  /** Complete access keeps its mark whatever sub-index is given. */
  function SubindexAfter(subindex: int, fields: seq<Field>): int
    decreases |fields|
  {
    if fields == [] then subindex
    else
      SubindexAfter(
        if fields[0].Subindex? && subindex != SDO_COMPLETE then fields[0].subindex else subindex, fields[1..])
  }

  function Payloads(fields: seq<Field>): seq<seq<int>> {
    if fields == [] then [] else (if fields[0].Payload? then [fields[0].data] else []) + Payloads(fields[1..])
  }

  function SdoOf(c: Cmd): Sdo {
    Sdo(IndexAfter(0xffff, c.fields),
        SubindexAfter(if c.complete then SDO_COMPLETE else 0xff, c.fields),
        Payloads(c.fields))
  }

  function SdosOf(cs: seq<Cmd>): seq<Sdo> {
    if cs == [] then [] else [SdoOf(cs[0])] + SdosOf(cs[1..])
  }

  /** Field j is the last of its kind. */
  predicate LastIndex(fields: seq<Field>, j: nat) {
    j < |fields| && fields[j].Index? && forall i :: j < i < |fields| ==> !fields[i].Index?
  }

  predicate LastSubindex(fields: seq<Field>, j: nat) {
    j < |fields| && fields[j].Subindex? && forall i :: j < i < |fields| ==> !fields[i].Subindex?
  }

  lemma {:induction false} IndexIsLast(index: int, fields: seq<Field>)
    ensures forall j: nat :: LastIndex(fields, j) ==> IndexAfter(index, fields) == fields[j].index
    ensures (forall j :: 0 <= j < |fields| ==> !fields[j].Index?) ==> IndexAfter(index, fields) == index
    decreases |fields|
  {
    if fields != [] {
      var more := fields[1..];
      IndexIsLast(if fields[0].Index? then fields[0].index else index, more);
      assert forall i :: 1 <= i < |fields| ==> fields[i] == more[i - 1];
      forall j: nat | LastIndex(fields, j)
        ensures IndexAfter(index, fields) == fields[j].index
      {
        if j > 0 {
          assert LastIndex(more, j - 1);
        } else {
          assert forall i :: 0 <= i < |more| ==> more[i] == fields[i + 1];
        }
      }
    }
  }

  lemma {:induction false} SubindexIsLast(subindex: int, fields: seq<Field>)
    requires subindex != SDO_COMPLETE && GoodFields(fields, false)
    ensures forall j: nat :: LastSubindex(fields, j) ==> SubindexAfter(subindex, fields) == fields[j].subindex
    ensures (forall j :: 0 <= j < |fields| ==> !fields[j].Subindex?) ==> SubindexAfter(subindex, fields) == subindex
    decreases |fields|
  {
    if fields != [] {
      var more := fields[1..];
      SubindexIsLast(if fields[0].Subindex? then fields[0].subindex else subindex, more);
      assert forall i :: 1 <= i < |fields| ==> fields[i] == more[i - 1];
      forall j: nat | LastSubindex(fields, j)
        ensures SubindexAfter(subindex, fields) == fields[j].subindex
      {
        if j > 0 {
          assert LastSubindex(more, j - 1);
        } else {
          assert forall i :: 0 <= i < |more| ==> more[i] == fields[i + 1];
        }
      }
    }
  }

  lemma {:induction false} CompleteStays(fields: seq<Field>)
    ensures SubindexAfter(SDO_COMPLETE, fields) == SDO_COMPLETE
  {
    if fields != [] {
      CompleteStays(fields[1..]);
    }
  }

  /** A command sets the last index and the last sub-index it names, or everything under complete access. */
  lemma SdoOfIs(c: Cmd)
    requires GoodFields(c.fields, c.complete)
    ensures forall j: nat :: LastIndex(c.fields, j) ==> SdoOf(c).index == c.fields[j].index
    ensures (forall j :: 0 <= j < |c.fields| ==> !c.fields[j].Index?) ==> SdoOf(c).index == 0xffff
    ensures c.complete ==> SdoOf(c).subindex == SDO_COMPLETE
    ensures !c.complete ==> forall j: nat :: LastSubindex(c.fields, j) ==> SdoOf(c).subindex == c.fields[j].subindex
    ensures !c.complete && (forall j :: 0 <= j < |c.fields| ==> !c.fields[j].Subindex?) ==> SdoOf(c).subindex == 0xff
  {
    IndexIsLast(0xffff, c.fields);
    if c.complete {
      CompleteStays(c.fields);
    } else {
      SubindexIsLast(0xff, c.fields);
    }
  }

  // --- the memory plan of a tree, from its pins up ---

  function PinCount(p: Pin): nat {
    if p.name == "" then 0 else 1
  }

  function PartsPins(parts: seq<Complex>): nat {
    if parts == [] then 0 else PinCount(parts[0].pin) + PartsPins(parts[1..])
  }

  function EntryCounts(e: Entry): Counts {
    Counts(0, 0, 1, PinCount(e.pin) + PartsPins(e.parts), 0)
  }

  function EntriesCounts(es: seq<Entry>): Counts {
    if es == [] then NONE else Plus(EntryCounts(es[0]), EntriesCounts(es[1..]))
  }

  function PdoCounts(p: Pdo): Counts {
    Plus(Counts(0, 1, 0, 0, 0), EntriesCounts(p.entries))
  }

  function PdosCounts(ps: seq<Pdo>): Counts {
    if ps == [] then NONE else Plus(PdoCounts(ps[0]), PdosCounts(ps[1..]))
  }

  function SmCounts(s: Sm): Counts {
    Plus(Counts(1, 0, 0, 0, 0), PdosCounts(s.pdos))
  }

  function SdoCounts(s: Sdo, z: Sizes): Counts {
    Counts(0, 0, 0, 0, z.conf + |Joined(s.pieces)|)
  }

  function SdosCounts(ss: seq<Sdo>, z: Sizes): Counts {
    if ss == [] then NONE else Plus(SdoCounts(ss[0], z), SdosCounts(ss[1..], z))
  }

  function ChildCounts(c: Child, z: Sizes): Counts {
    match c
    case SmChild(sm) => SmCounts(sm)
    case SdoChild(sdo) => SdoCounts(sdo, z)
    case InitCmds(cmds) => SdosCounts(SdosOf(cmds), z)
  }

  function ChildrenCounts(cs: seq<Child>, z: Sizes): Counts {
    if cs == [] then NONE else Plus(ChildCounts(cs[0], z), ChildrenCounts(cs[1..], z))
  }

  // --- what the attribute checks accept ---

  /** The bits of the first n parts. */
  function BitsBefore(parts: seq<Complex>, n: nat): int
    requires n <= |parts|
  {
    if n == 0 then 0 else BitsBefore(parts, n - 1) + parts[n - 1].bitLength
  }

  const MAX_SYNC_MANAGERS := 16
  const MAX_SUBPINS := 32
  const MAX_BITLEN := 255

  predicate GoodPin(p: Pin) {
    p.scaled ==> p.isFloat
  }

  predicate GoodPart(part: Complex, offset: int, bits: int) {
    GoodPin(part.pin) && 1 <= part.bitLength <= MAX_SUBPINS && offset + part.bitLength <= bits
  }

  predicate GoodParts(parts: seq<Complex>, offset: int, bits: int) {
    parts == [] || (GoodPart(parts[0], offset, bits) && GoodParts(parts[1..], offset + parts[0].bitLength, bits))
  }

  predicate GoodEntryAttrs(e: Entry) {
    && 0 <= e.index < 0xffff && 0 <= e.subindex < 0xff && 1 <= e.bitLength <= MAX_BITLEN
    && !(e.isComplex && e.pin.name != "") && GoodPin(e.pin)
  }

  predicate GoodEntry(e: Entry) {
    GoodEntryAttrs(e) && GoodParts(e.parts, 0, e.bitLength)
  }

  predicate GoodEntries(es: seq<Entry>) {
    es == [] || (GoodEntry(es[0]) && GoodEntries(es[1..]))
  }

  predicate GoodPdos(ps: seq<Pdo>) {
    ps == [] || (0 <= ps[0].index < 0xffff && GoodEntries(ps[0].entries) && GoodPdos(ps[1..]))
  }

  predicate GoodSm(s: Sm) {
    0 <= s.index < MAX_SYNC_MANAGERS && GoodPdos(s.pdos)
  }

  predicate GoodSdo(s: Sdo) {
    0 <= s.index < 0xffff && (0 <= s.subindex < 0xff || s.subindex == SDO_COMPLETE)
  }

  predicate GoodSdos(ss: seq<Sdo>) {
    ss == [] || (GoodSdo(ss[0]) && GoodSdos(ss[1..]))
  }

  predicate GoodField(f: Field, complete: bool) {
    match f
    case Index(index) => 0 <= index <= 0xffff
    case Subindex(subindex) => complete || 0 <= subindex <= 0xff
    case Payload(_) => true
    case Transition(text) => text == "IP" || text == "PS"
  }

  predicate GoodFields(fields: seq<Field>, complete: bool) {
    fields == [] || (GoodField(fields[0], complete) && GoodFields(fields[1..], complete))
  }

  predicate GoodCmd(c: Cmd) {
    GoodFields(c.fields, c.complete) && GoodSdo(SdoOf(c))
  }

  predicate GoodCmds(cs: seq<Cmd>) {
    cs == [] || (GoodCmd(cs[0]) && GoodCmds(cs[1..]))
  }

  /** Sync managers are refused on slaves that are not generic. */
  predicate GoodChild(c: Child, generic: bool) {
    match c
    case SmChild(sm) => generic && GoodSm(sm)
    case SdoChild(sdo) => GoodSdo(sdo)
    case InitCmds(cmds) => GoodCmds(cmds)
  }

  predicate GoodChildren(cs: seq<Child>, generic: bool) {
    cs == [] || (GoodChild(cs[0], generic) && GoodChildren(cs[1..], generic))
  }

  predicate GoodSlave(s: Slave, period: nat) {
    && s.attrs.kind != Unknown && s.attrs.unit != "" && CycleOf(s.attrs.cycle, period) != None
    && GoodChildren(s.children, s.attrs.kind == Generic)
  }

  predicate GoodNode(n: Node, period: nat) {
    match n
    case MasterNode(m) => SyncMode(m) != None
    case SlaveNode(s) => GoodSlave(s, period)
  }

  predicate GoodNodes(ns: seq<Node>, period: nat)
    decreases |ns|
  {
    ns == [] || (GoodNode(ns[0], period) && GoodNodes(ns[1..], PeriodAfter(ns[0], period)))
  }

  lemma {:induction false} ConcatAppend(a: seq<Chunk>, b: seq<Chunk>)
    ensures Concat(a + b) == Concat(a) + Concat(b)
  {
    if a == [] {
      assert a + b == b;
    } else {
      assert (a + b)[1..] == a[1..] + b;
      ConcatAppend(a[1..], b);
    }
  }
}
