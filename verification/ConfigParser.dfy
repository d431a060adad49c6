/**
 The realtime module's reading of the token stream as a function: the memory it takes for each slave
 from the slave token, and what it writes there token by token. A write behind the memory, or a read
 of anything but a token where a token is expected, is the outcome Overrun.
 */
module ConfigParser {
  import opened ConfigFormat
  import opened Options

  datatype HalDir = Unspecified | HalIn | HalOut

  /** A pointer into one of the slave's arrays. */
  datatype Ptr = Null | At(k: nat)

  datatype SyncInfo = SyncInfo(index: int, dir: Dir, nPdos: nat, pdos: Ptr)

  datatype PdoInfo = PdoInfo(index: int, nEntries: nat, entries: Ptr)

  datatype EntryInfo = EntryInfo(index: int, subindex: int, bitLength: int)

  datatype PinInfo = PinInfo(pin: Pin, bitOffset: int, bitLength: int, dir: HalDir, pdoIndex: int, pdoSubindex: int)

  /** One byte of the SDO memory: the first of a record header, a further one, data, or an end mark. */
  datatype Slot = Head(index: int, subindex: int, length: nat) | Rest | Data(b: int) | Stop

  /** A sync unit by its name and cycle, and the units of one master. */
  datatype Unit = Unit(name: string, cycle: nat)

  datatype Bus = Bus(period: nat, units: seq<Unit>)

  /** What has been written for a slave; sdo does not include the end mark behind the last record. */
  datatype Work = Work(
    generic: bool, unit: Unit, cap: Counts, syncs: seq<SyncInfo>, pdos: seq<PdoInfo>, entries: seq<EntryInfo>,
    pins: seq<PinInfo>, sdo: seq<Slot>, dir: HalDir)

  /** The current master, the slaves before the current one, the current one, and the last PDO entry seen. */
  datatype State = State(master: Option<Bus>, done: seq<Work>, cur: Option<Work>, last: Option<(int, int)>)

  datatype Outcome = Ok(state: State) | Rejected | Overrun

  const INIT := State(None, [], None, None)

  function Fresh(generic: bool, unit: Unit, cap: Counts): Work {
    Work(generic, unit, cap, [], [], [], [], [], Unspecified)
  }

  /** The cycle of the first unit of that name. */
  function Lookup(units: seq<Unit>, name: string): Option<nat> {
    if units == [] then None
    else if units[0].name == name then Some(units[0].cycle)
    else Lookup(units[1..], name)
  }

  /** A unit of that name and cycle, found or added; None when the cycle is bad or not the unit's own. */
  function GetUnit(b: Bus, u: Unit): Option<Bus> {
    var found := Lookup(b.units, u.name);
    if u.cycle == 0 || b.period == 0 || u.cycle % b.period != 0 then None
    else if found == None then Some(b.(units := b.units + [u]))
    else if found.value == u.cycle then Some(b)
    else None
  }

  function Slaves(s: State): seq<Work> {
    s.done + (if s.cur == None then [] else [s.cur.value])
  }

  function HalDirOf(d: Dir): HalDir {
    if d == Input then HalOut else HalIn
  }

  function Pointer(n: nat, k: nat): Ptr {
    if n == 0 then Null else At(k)
  }

  function PinOf(pin: Pin, offset: int, length: int, dir: HalDir, index: int, subindex: int): seq<PinInfo> {
    if pin.name == "" then [] else [PinInfo(pin, offset, length, dir, index, subindex)]
  }

  function RestSlots(n: nat): (r: seq<Slot>)
    ensures |r| == n
  {
    seq(n, _ => Rest)
  }

  function DataSlots(data: seq<int>): (r: seq<Slot>)
    ensures |r| == |data| && forall i :: 0 <= i < |r| ==> r[i] == Data(data[i])
  {
    seq(|data|, i requires 0 <= i < |data| => Data(data[i]))
  }

  function Record(index: int, subindex: int, data: seq<int>, z: Sizes): (r: seq<Slot>)
    requires z.Valid()
    ensures |r| == z.slave + |data|
  {
    [Head(index, subindex, |data|)] + RestSlots(z.slave - 1) + DataSlots(data)
  }

  predicate AllRaw(cells: seq<Cell>) {
    forall c <- cells :: c.Raw?
  }

  function RawBytes(cells: seq<Cell>): (r: seq<int>)
    requires AllRaw(cells)
    ensures |r| == |cells|
  {
    seq(|cells|, i requires 0 <= i < |cells| => cells[i].b)
  }

  function AddPin(w: Work, pins: seq<PinInfo>): Option<Work> {
    if |w.pins| + |pins| > w.cap.pins then None else Some(w.(pins := w.pins + pins))
  }

  function Keep(s: State, w: Option<Work>): Outcome {
    if w == None then Overrun else Ok(s.(cur := w))
  }

  /** One token; data is what follows an SDO token. */
  function Step(s: State, t: Token, data: seq<Cell>, z: Sizes): Outcome
    requires z.Valid()
  {
    match t
    case TEnd => Ok(s)
    case TMaster(period, _, _) => Ok(s.(master := Some(Bus(period, []))))
    case TSlave(generic, name, cycle, counts) =>
      if s.master == None then Rejected
      else
        var bus := GetUnit(s.master.value, Unit(name, cycle));
        if bus == None then Rejected
        else Ok(s.(master := bus, done := Slaves(s), cur := Some(Fresh(generic, Unit(name, cycle), counts))))
    case TSync(index, dir, n) =>
      if s.cur == None || !s.cur.value.generic then Rejected
      else
        var w := s.cur.value;
        if |w.syncs| + 1 > w.cap.sms then Overrun
        else Ok(s.(cur := Some(w.(
          syncs := w.syncs + [SyncInfo(index, dir, n, Pointer(n, |w.pdos|))], dir := HalDirOf(dir)))))
    case TPdo(index, n) =>
      if s.cur == None || !s.cur.value.generic then Rejected
      else
        var w := s.cur.value;
        if |w.pdos| + 1 > w.cap.pdos then Overrun
        else Ok(s.(cur := Some(w.(pdos := w.pdos + [PdoInfo(index, n, Pointer(n, |w.entries|))]))))
    case TEntry(index, subindex, bitLength, pin) =>
      if s.cur == None || !s.cur.value.generic || s.cur.value.dir == Unspecified then Rejected
      else
        var w := s.cur.value;
        if |w.entries| + 1 > w.cap.entries then Overrun
        else Keep(
          s.(last := Some((index, subindex))),
          AddPin(w.(entries := w.entries + [EntryInfo(index, subindex, bitLength)]),
                 PinOf(pin, 0, bitLength, w.dir, index, subindex)))
    case TComplex(offset, bitLength, pin) =>
      if s.last == None || s.cur == None || !s.cur.value.generic then Rejected
      else
        var w := s.cur.value;
        Keep(s, AddPin(w, PinOf(pin, offset, bitLength, w.dir, s.last.value.0, s.last.value.1)))
    case TSdo(index, subindex, length) =>
      if s.cur == None || s.cur.value.cap.sdoLength == 0 then Rejected
      else
        var w := s.cur.value;
        if !AllRaw(data) || |w.sdo| + z.slave + |data| + 2 > w.cap.sdoLength + z.slave then Overrun
        else Ok(s.(cur := Some(w.(sdo := w.sdo + Record(index, subindex, RawBytes(data), z)))))
  }

  function DataLength(t: Token): nat {
    if t.TSdo? then t.length else 0
  }

  /** The whole stream, up to the end marker. */
  function Parse(s: State, cells: seq<Cell>, z: Sizes): Outcome
    requires z.Valid()
    decreases |cells|
  {
    if cells == [] || cells[0].Raw? then Overrun
    else
      var t := cells[0].t;
      if t.TEnd? then Ok(s)
      else if 1 + DataLength(t) > |cells| then Overrun
      else
        var r := Step(s, t, cells[1..1 + DataLength(t)], z);
        if r.Ok? then Parse(r.state, cells[1 + DataLength(t)..], z) else r
  }

  // --- how the memory is read afterwards ---

  datatype PdoTree = PdoTree(index: int, entries: seq<EntryInfo>)

  datatype SmTree = SmTree(index: int, dir: Dir, pdos: seq<PdoTree>)

  function Slice<T>(a: seq<T>, p: Ptr, n: nat): seq<T> {
    if p.At? && p.k + n <= |a| then a[p.k..p.k + n] else []
  }

  function ReadPdos(pdos: seq<PdoInfo>, entries: seq<EntryInfo>): seq<PdoTree> {
    if pdos == [] then []
    else [PdoTree(pdos[0].index, Slice(entries, pdos[0].entries, pdos[0].nEntries))] + ReadPdos(pdos[1..], entries)
  }

  /** The sync managers of a slave, through the pointer and count of each level. */
  function ReadSyncs(syncs: seq<SyncInfo>, pdos: seq<PdoInfo>, entries: seq<EntryInfo>): seq<SmTree> {
    if syncs == [] then []
    else
      [SmTree(syncs[0].index, syncs[0].dir, ReadPdos(Slice(pdos, syncs[0].pdos, syncs[0].nPdos), entries))]
      + ReadSyncs(syncs[1..], pdos, entries)
  }

  datatype SdoRec = SdoRec(index: int, subindex: int, data: seq<int>)

  predicate IsData(slots: seq<Slot>) {
    forall x <- slots :: x.Data?
  }

  function DataOf(slots: seq<Slot>): (r: seq<int>)
    requires IsData(slots)
    ensures |r| == |slots|
  {
    seq(|slots|, i requires 0 <= i < |slots| => slots[i].b)
  }

  /** The activation's walk over the SDO memory by record length; None when it leaves the records. */
  function Walk(a: seq<Slot>, at: nat, z: Sizes): Option<seq<SdoRec>>
    requires z.Valid()
    decreases |a| - at
  {
    if at >= |a| then None
    else match a[at]
      case Stop => Some([])
      case Head(index, subindex, length) =>
        var from := at + z.slave;
        if index == 0xffff then Some([])
        else if from + length > |a| || !IsData(a[from..from + length]) then None
        else
          var tail := Walk(a, from + length, z);
          if tail == None then None else Some([SdoRec(index, subindex, DataOf(a[from..from + length]))] + tail.value)
      case _ => None
  }
}
