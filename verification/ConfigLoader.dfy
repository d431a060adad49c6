/**
 The realtime module's loader as it runs: per slave a set of arrays of the planned sizes, which the
 tokens fill through cursors. Every token is one step of ConfigParser.Step.
 */
module ConfigLoader {
  import opened ConfigFormat
  import opened ConfigParser
  import opened Options
  import M = SyncMaster

  /** The memory of one slave. Arrays that the source leaves NULL are empty here. */
  class SlaveMemory {
    const z: Sizes
    const generic: bool
    const unit: M.SyncUnit
    const cap: Counts
    const syncs: array<SyncInfo>
    const pdos: array<PdoInfo>
    const entries: array<EntryInfo>
    const pins: array<PinInfo>
    const sdo: array<Slot>
    var nSyncs: nat
    var nPdos: nat
    var nEntries: nat
    var nPins: nat
    var nSdo: nat
    var dir: HalDir

    ghost function Repr(): set<object> {
      {this, syncs, pdos, entries, pins, sdo}
    }

    /** The cursors are inside the planned memory, and the end marks stand behind what is written. */
    ghost predicate Valid()
      reads this, syncs, sdo
    {
      && z.Valid()
      && nSyncs <= cap.sms && nPdos <= cap.pdos && nEntries <= cap.entries && nPins <= cap.pins
      && (generic ==>
            && syncs.Length == cap.sms + 1 && pdos.Length == cap.pdos
            && entries.Length == cap.entries && pins.Length == cap.pins
            && syncs[nSyncs].index == 0xff)
      && (!generic ==> nSyncs == nPdos == nEntries == nPins == 0)
      && sdo.Length == (if cap.sdoLength == 0 then 0 else cap.sdoLength + z.slave)
      && nSdo <= sdo.Length && (nSdo > 0 ==> nSdo < sdo.Length && sdo[nSdo] == Stop)
    }

    ghost function Value(): (r: Work)
      requires Valid()
      reads this, syncs, pdos, entries, pins, sdo
      ensures r.generic == generic && r.unit == Unit(unit.name, unit.cycleTime) && r.cap == cap && r.dir == dir
    {
      Work(generic, Unit(unit.name, unit.cycleTime), cap,
           if generic then syncs[..nSyncs] else [], if generic then pdos[..nPdos] else [],
           if generic then entries[..nEntries] else [], if generic then pins[..nPins] else [], sdo[..nSdo], dir)
    }

    /** A slave token: the memory it plans, zeroed, with the end mark of the sync managers. */
    constructor (generic: bool, unit: M.SyncUnit, cap: Counts, z: Sizes)
      requires z.Valid()
      ensures Valid() && fresh(Repr()) && this.z == z
      ensures Value() == Fresh(generic, Unit(unit.name, unit.cycleTime), cap)
    {
      this.generic, this.unit, this.cap, this.z := generic, unit, cap, z;
      syncs := new SyncInfo[if generic then cap.sms + 1 else 0](_ => SyncInfo(0, Output, 0, Null));
      pdos := new PdoInfo[if generic then cap.pdos else 0](_ => PdoInfo(0, 0, Null));
      entries := new EntryInfo[if generic then cap.entries else 0](_ => EntryInfo(0, 0, 0));
      pins := new PinInfo[if generic then cap.pins else 0](
        _ => PinInfo(Pin("", false, 0, false, 0.0, 0.0), 0, 0, Unspecified, 0, 0));
      sdo := new Slot[if cap.sdoLength == 0 then 0 else cap.sdoLength + z.slave](_ => Data(0));
      nSyncs, nPdos, nEntries, nPins, nSdo, dir := 0, 0, 0, 0, 0, Unspecified;
      new;
      if generic {
        syncs[0] := syncs[0].(index := 0xff);
      }
    }

    method AddSync(index: int, d: Dir, n: nat) returns (ok: bool)
      requires Valid() && generic
      modifies this, syncs
      ensures ok == (|old(Value()).syncs| + 1 <= cap.sms)
      // what the device puts in, HAL puts out, and the other way round
      ensures ok ==> dir == if d == Input then HalOut else HalIn
      ensures ok ==> Valid() && Value() == old(Value()).(
        syncs := old(Value()).syncs + [SyncInfo(index, d, n, Pointer(n, |old(Value()).pdos|))], dir := HalDirOf(d))
    {
      if nSyncs + 1 > cap.sms {
        return false;
      }
      syncs[nSyncs] := SyncInfo(index, d, n, Pointer(n, nPdos));
      dir := HalDirOf(d);
      nSyncs := nSyncs + 1;
      syncs[nSyncs] := syncs[nSyncs].(index := 0xff);
      return true;
    }

    method AddPdo(index: int, n: nat) returns (ok: bool)
      requires Valid() && generic
      modifies this, pdos
      ensures ok == (|old(Value()).pdos| + 1 <= cap.pdos)
      ensures ok ==> Valid() && Value() == old(Value()).(
        pdos := old(Value()).pdos + [PdoInfo(index, n, Pointer(n, |old(Value()).entries|))])
    {
      if nPdos + 1 > cap.pdos {
        return false;
      }
      pdos[nPdos] := PdoInfo(index, n, Pointer(n, nEntries));
      nPdos := nPdos + 1;
      return true;
    }

    method PutEntry(index: int, subindex: int, bitLength: int) returns (ok: bool)
      requires Valid() && generic
      modifies this, entries
      ensures ok == (|old(Value()).entries| + 1 <= cap.entries)
      ensures ok ==> Valid() && Value() == old(Value()).(
        entries := old(Value()).entries + [EntryInfo(index, subindex, bitLength)])
    {
      if nEntries + 1 > cap.entries {
        return false;
      }
      entries[nEntries] := EntryInfo(index, subindex, bitLength);
      nEntries := nEntries + 1;
      return true;
    }

    method PutPin(pin: Pin, offset: int, length: int, index: int, subindex: int) returns (ok: bool)
      requires Valid() && generic
      modifies this, pins
      ensures ok == (AddPin(old(Value()), PinOf(pin, offset, length, old(Value()).dir, index, subindex)) != None)
      ensures ok ==>
        Valid() && Some(Value()) == AddPin(old(Value()), PinOf(pin, offset, length, old(Value()).dir, index, subindex))
    {
      if pin.name == "" {
        assert Value().pins + [] == Value().pins;
        return true;
      }
      if nPins + 1 > cap.pins {
        return false;
      }
      ghost var before := pins[..nPins];
      pins[nPins] := PinInfo(pin, offset, length, dir, index, subindex);
      nPins := nPins + 1;
      assert pins[..nPins] == before + [pins[nPins - 1]];
      return true;
    }

    /** An entry and, when it has a name, its pin. */
    method AddEntry(index: int, subindex: int, bitLength: int, pin: Pin) returns (ok: bool)
      requires Valid() && generic
      modifies this, entries, pins
      ensures
        var w := old(Value()).(entries := old(Value()).entries + [EntryInfo(index, subindex, bitLength)]);
        var next := AddPin(w, PinOf(pin, 0, bitLength, w.dir, index, subindex));
        ok == (|w.entries| <= cap.entries && next != None) && (ok ==> Valid() && Some(Value()) == next)
    {
      hide AddPin, PinOf, Valid, Value;
      ok := PutEntry(index, subindex, bitLength);
      if ok {
        ok := PutPin(pin, 0, bitLength, index, subindex);
      }
    }

    /** Copy an SDO record behind the last one, and put an end mark behind it. */
    method PutSdo(index: int, subindex: int, data: seq<Cell>) returns (ok: bool)
      requires Valid() && cap.sdoLength > 0
      modifies this, sdo
      ensures ok == (AllRaw(data) && |old(Value()).sdo| + z.slave + |data| + 2 <= cap.sdoLength + z.slave)
      ensures ok ==> Valid() && Value() == old(Value()).(
        sdo := old(Value()).sdo + Record(index, subindex, RawBytes(data), z))
    {
      hide Record, RawBytes;
      if !AllRaw(data) || nSdo + z.slave + |data| + 2 > sdo.Length {
        return false;
      }
      ghost var before := sdo[..nSdo];
      var record := Record(index, subindex, RawBytes(data), z);
      forall i | 0 <= i < |record| {
        sdo[nSdo + i] := record[i];
      }
      assert sdo[..nSdo + |record|] == before + record;
      nSdo := nSdo + |record|;
      sdo[nSdo] := Stop;
      return true;
    }
  }

  /** The table of a master's units. */
  ghost function UnitsIn(us: seq<M.SyncUnit>): (r: seq<Unit>)
    ensures |r| == |us| && forall i :: 0 <= i < |r| ==> r[i] == Unit(us[i].name, us[i].cycleTime)
  {
    if us == [] then [] else [Unit(us[0].name, us[0].cycleTime)] + UnitsIn(us[1..])
  }

  lemma {:induction false} LookupFinds(us: seq<M.SyncUnit>, name: string)
    ensures Lookup(UnitsIn(us), name) == None <==> forall u <- us :: u.name != name
    ensures Lookup(UnitsIn(us), name) != None ==>
      exists u <- us :: u.name == name && Lookup(UnitsIn(us), name) == Some(u.cycleTime)
  {
    if us != [] {
      LookupFinds(us[1..], name);
      assert UnitsIn(us)[1..] == UnitsIn(us[1..]);
      assert forall u <- us :: u == us[0] || u in us[1..];
      if us[0].name != name && Lookup(UnitsIn(us[1..]), name) != None {
        var u :| u in us[1..] && u.name == name && Lookup(UnitsIn(us[1..]), name) == Some(u.cycleTime);
        assert u in us;
      }
    }
  }

  lemma SlaveStep(s: State, t: Token, z: Sizes)
    requires z.Valid() && t.TSlave?
    ensures var u := Unit(t.unit, t.cycle);
      Step(s, t, [], z) ==
        if s.master == None || GetUnit(s.master.value, u) == None then Rejected
        else Ok(s.(master := GetUnit(s.master.value, u), done := Slaves(s), cur := Some(Fresh(t.generic, u, t.counts))))
  {
  }

  ghost predicate OwnNames(us: seq<M.SyncUnit>) {
    forall i, j :: 0 <= i < j < |us| ==> us[i].name != us[j].name
  }

  lemma UnitsAppend(us: seq<M.SyncUnit>, u: M.SyncUnit)
    ensures UnitsIn(us + [u]) == UnitsIn(us) + [Unit(u.name, u.cycleTime)]
  {
  }

  lemma OneOfThatName(us: seq<M.SyncUnit>, w: M.SyncUnit)
    requires OwnNames(us) && w in us
    ensures forall x <- us :: x.name == w.name ==> x == w
  {
  }

  lemma NewName(us: seq<M.SyncUnit>, u: M.SyncUnit)
    requires OwnNames(us + [u])
    ensures forall x <- us :: x.name != u.name
  {
    forall x | x in us ensures x.name != u.name {
      var i :| 0 <= i < |us| && us[i] == x;
      assert (us + [u])[i].name != (us + [u])[|us|].name;
    }
  }

  /** Finding or creating a unit object does to the table what GetUnit does. */
  lemma UnitFound(before: seq<M.SyncUnit>, after: seq<M.SyncUnit>, period: nat, name: string, cycle: nat,
                  u: M.SyncUnit?)
    requires OwnNames(before) && OwnNames(after)
    requires u == null <==> (
      || cycle == 0 || period == 0 || cycle % period != 0
      || exists x :: x in before && x.name == name && x.cycleTime != cycle)
    requires u != null ==>
      && u.name == name && u.cycleTime == cycle
      && after == if u in before then before else before + [u]
    ensures var bus := GetUnit(Bus(period, UnitsIn(before)), Unit(name, cycle));
      if u == null then bus == None else bus == Some(Bus(period, UnitsIn(after)))
  {
    hide Lookup, UnitsIn, OwnNames;
    LookupFinds(before, name);
    if Lookup(UnitsIn(before), name) == None {
      if u != null {
        UnitsAppend(before, u);
      }
    } else {
      var w :| w in before && w.name == name && Lookup(UnitsIn(before), name) == Some(w.cycleTime);
      OneOfThatName(before, w);
      if u != null && u !in before {
        NewName(before, u);
      }
    }
  }

  /** One token of the stream from a position on. */
  lemma ParseToken(s: State, cells: seq<Cell>, at: nat, z: Sizes)
    requires z.Valid() && at < |cells| && cells[at].Tok? && !cells[at].t.TEnd?
    ensures
      var t := cells[at].t;
      var next := at + 1 + DataLength(t);
      Parse(s, cells[at..], z) ==
        if next > |cells| then Overrun
        else
          var r := Step(s, t, cells[at + 1..next], z);
          if r.Ok? then Parse(r.state, cells[next..], z) else r
  {
    var n := DataLength(cells[at].t);
    if at + 1 + n <= |cells| {
      assert cells[at..][1..1 + n] == cells[at + 1..at + 1 + n];
      assert cells[at..][1 + n..] == cells[at + 1 + n..];
    }
  }

  lemma ParseStops(s: State, cells: seq<Cell>, at: nat, z: Sizes)
    requires z.Valid() && at <= |cells|
    requires at < |cells| ==> cells[at].Raw? || cells[at].t.TEnd?
    ensures Parse(s, cells[at..], z) == if at < |cells| && cells[at].Tok? then Ok(s) else Overrun
  {
  }

  datatype Verdict = Read | Rejects | Overruns

  /** The list of slaves, of which the last one is being filled and the others are settled. */
  class Loader {
    const z: Sizes
    var master: M.Master?
    var slaves: seq<SlaveMemory>
    var last: Option<(int, int)>
    ghost var settled: set<object>

    ghost function Current(): set<object>
      reads `slaves
    {
      if slaves == [] then {} else slaves[|slaves| - 1].Repr()
    }

    ghost function Masters(): set<object>
      reads `master
    {
      if master == null then {} else {master}
    }

    /** Everything the loader has allocated and may still write to. */
    ghost function Owned(): set<object>
      reads `slaves, `master, `settled
    {
      settled + Current() + Masters()
    }

    /** The current master and its units. */
    ghost predicate BusIs(bus: Option<Bus>)
      reads `master, Masters()
    {
      && (master == null <==> bus == None)
      && (master != null ==> master.Valid() && bus == Some(Bus(master.appTimePeriod, UnitsIn(master.units))))
    }

    /** All slaves but the current one. */
    ghost predicate Settled(done: seq<Work>)
      reads `slaves, `settled, settled
    {
      && |done| == (if slaves == [] then 0 else |slaves| - 1)
      && forall i :: 0 <= i < |done| ==>
           slaves[i].Repr() <= settled && slaves[i].Valid() && slaves[i].Value() == done[i]
    }

    /** The parser state that the loader holds. */
    ghost predicate Is(s: State)
      reads this, settled, Current(), Masters()
    {
      && z.Valid() && BusIs(s.master) && last == s.last
      && ({this} + Masters()) !! (settled + Current()) && Settled(s.done)
      && (slaves == [] ==> s.cur == None)
      && (slaves != [] ==>
            var m := slaves[|slaves| - 1];
            m.Repr() !! settled && m.z == z && m.Valid() && s.cur == Some(m.Value()))
    }

    constructor (z: Sizes)
      requires z.Valid()
      ensures Is(INIT) && this.z == z && Owned() == {} && slaves == []
    {
      this.z, master, slaves, last, settled := z, null, [], None, {};
    }

    lemma SettledMore(s: State)
      requires Is(s)
      ensures forall i :: 0 <= i < |slaves| ==>
        slaves[i].Repr() <= settled + Current() && slaves[i].Valid() && slaves[i].Value() == Slaves(s)[i]
      ensures |Slaves(s)| == |slaves|
    {
    }

    /** Append a slave to the list: the one that was current is settled. */
    method Push(m: SlaveMemory, ghost w: Work, ghost s: State)
      requires Is(s) && m.Valid() && m.z == z && m.Repr() !! Owned() + {this} && w == m.Value()
      modifies `slaves, `settled
      ensures Owned() == old(Owned()) + m.Repr()
      ensures Is(s.(done := Slaves(s), cur := Some(w)))
    {
      hide SlaveMemory.Valid, SlaveMemory.Value, BusIs;
      SettledMore(s);
      settled := settled + Current();
      assert m.Repr() !! settled && m.Valid() && m.Value() == w;
      slaves := slaves + [m];
      assert Settled(Slaves(s));
      assert Current() == m.Repr() && m.Valid() && m.Value() == w;
    }

    /** A master token starts a new table of units. */
    method MasterToken(t: Token, ghost s: State) returns (ghost r: State)
      requires Is(s) && t.TMaster?
      modifies `master
      ensures Stepped(s, t, [], Read, r) && fresh(Owned() - old(Owned()))
    {
      hide SlaveMemory.Valid, SlaveMemory.Value, Settled;
      master := new M.Master(t.period);
      r := s.(master := Some(Bus(t.period, [])));
    }

    /** The unit of a slave: refused exactly when the table of the specification refuses it. */
    method FindUnit(name: string, cycle: nat, ghost s: State) returns (u: M.SyncUnit?, ghost bus: Option<Bus>)
      requires Is(s) && master != null
      modifies Masters()
      ensures bus == GetUnit(s.master.value, Unit(name, cycle)) && Owned() == old(Owned())
      ensures u == null <==> bus == None
      ensures u != null ==> u.name == name && u.cycleTime == cycle && Is(s.(master := bus))
    {
      hide SlaveMemory.Valid, SlaveMemory.Value, Settled, GetUnit, UnitsIn;
      ghost var before := master.units;
      u := master.GetSyncUnit(name, cycle);
      bus := GetUnit(s.master.value, Unit(name, cycle));
      UnitFound(before, master.units, master.appTimePeriod, name, cycle, u);
    }

    /** New memory of the planned sizes, which becomes the current slave. */
    method NewSlave(t: Token, u: M.SyncUnit, ghost s: State) returns (ghost r: State)
      requires Is(s) && t.TSlave?
      modifies `slaves, `settled
      ensures r == s.(done := Slaves(s), cur := Some(Fresh(t.generic, Unit(u.name, u.cycleTime), t.counts)))
      ensures Is(r) && forall o :: o in Owned() ==> o in old(Owned()) || fresh(o)
    {
      hide SlaveMemory.Valid, SlaveMemory.Value, BusIs, Settled;
      NoMaster(s);
      var m := new SlaveMemory(t.generic, u, t.counts, z);
      r := s.(done := Slaves(s), cur := Some(m.Value()));
      Push(m, m.Value(), s);
    }

    /** A slave token: a unit of the current master, and new memory for the slave, which becomes the current one. */
    method SlaveToken(t: Token, ghost s: State) returns (v: Verdict, ghost r: State)
      requires Is(s) && t.TSlave?
      modifies `slaves, `settled, Masters()
      ensures Stepped(s, t, [], v, r) && fresh(Owned() - old(Owned()))
    {
      hide SlaveMemory.Repr, Is, BusIs, Settled, GetUnit, Step;
      NoMaster(s);
      SlaveStep(s, t, z);
      if master == null {
        return Rejects, s;
      }
      var u;
      ghost var bus;
      u, bus := FindUnit(t.unit, t.cycle, s);
      if u == null {
        return Rejects, s;
      }
      r := NewSlave(t, u, s.(master := bus));
      v := Read;
    }

    lemma NoMaster(s: State)
      requires Is(s)
      ensures z.Valid() && (master == null <==> s.master == None)
    {
    }

    /** Sync manager tokens need the arrays of a generic slave. */
    method SyncToken(t: Token, ghost s: State) returns (v: Verdict, ghost r: State)
      requires Is(s) && t.TSync?
      modifies Current()
      ensures Stepped(s, t, [], v, r)
      ensures v == Rejects <==> slaves == [] || !slaves[|slaves| - 1].generic
    {
      hide SlaveMemory.Valid, SlaveMemory.Value, BusIs, Settled;
      r := s;
      if slaves == [] {
        return Rejects, s;
      }
      var m := slaves[|slaves| - 1];
      if !m.generic {
        return Rejects, s;
      }
      var ok := m.AddSync(t.index, t.dir, t.pdoCount);
      if !ok {
        return Overruns, s;
      }
      return Read, s.(cur := Some(m.Value()));
    }

    /** A token did what Step says. */
    ghost predicate Stepped(s: State, t: Token, data: seq<Cell>, v: Verdict, r: State)
      reads this, settled, Current(), Masters()
    {
      z.Valid() &&
      match Step(s, t, data, z)
      case Ok(next) => v == Read && r == next && Is(r)
      case Rejected => v == Rejects
      case Overrun => v == Overruns
    }

    method PdoToken(t: Token, ghost s: State) returns (v: Verdict, ghost r: State)
      requires Is(s) && t.TPdo?
      modifies Current()
      ensures Stepped(s, t, [], v, r)
      ensures v == Rejects <==> slaves == [] || !slaves[|slaves| - 1].generic
    {
      hide SlaveMemory.Valid, SlaveMemory.Value, BusIs, Settled;
      if slaves == [] {
        return Rejects, s;
      }
      var m := slaves[|slaves| - 1];
      if !m.generic {
        return Rejects, s;
      }
      var ok := m.AddPdo(t.index, t.entryCount);
      if !ok {
        return Overruns, s;
      }
      return Read, s.(cur := Some(m.Value()));
    }

    /** An entry also needs a direction; its pin gets the direction of the current sync manager. */
    method EntryToken(t: Token, ghost s: State) returns (v: Verdict, ghost r: State)
      requires Is(s) && t.TEntry?
      modifies `last, Current()
      ensures Stepped(s, t, [], v, r)
      ensures v == Rejects <==>
        slaves == [] || !slaves[|slaves| - 1].generic || old(slaves[|slaves| - 1].dir) == Unspecified
      ensures v != Rejects ==> last == Some((t.index, t.subindex))
    {
      hide AddPin, PinOf, SlaveMemory.Valid, SlaveMemory.Value, BusIs, Settled;
      if slaves == [] {
        return Rejects, s;
      }
      var m := slaves[|slaves| - 1];
      if !m.generic || m.dir == Unspecified {
        return Rejects, s;
      }
      last := Some((t.index, t.subindex));
      var ok := m.AddEntry(t.index, t.subindex, t.bitLength, t.pin);
      if !ok {
        return Overruns, s;
      }
      return Read, s.(cur := Some(m.Value()), last := last);
    }

    /** A part of a complex entry belongs to the last entry seen. */
    method ComplexToken(t: Token, ghost s: State) returns (v: Verdict, ghost r: State)
      requires Is(s) && t.TComplex?
      modifies Current()
      ensures Stepped(s, t, [], v, r)
      ensures v == Rejects <==> last == None || slaves == [] || !slaves[|slaves| - 1].generic
    {
      hide AddPin, PinOf, SlaveMemory.Valid, SlaveMemory.Value, BusIs, Settled;
      if last == None || slaves == [] {
        return Rejects, s;
      }
      var m := slaves[|slaves| - 1];
      if !m.generic {
        return Rejects, s;
      }
      var ok := m.PutPin(t.pin, t.bitOffset, t.bitLength, last.value.0, last.value.1);
      if !ok {
        return Overruns, s;
      }
      return Read, s.(cur := Some(m.Value()));
    }

    method SdoToken(t: Token, data: seq<Cell>, ghost s: State) returns (v: Verdict, ghost r: State)
      requires Is(s) && t.TSdo? && |data| == t.length
      modifies Current()
      ensures Stepped(s, t, data, v, r)
      ensures v == Rejects <==> slaves == [] || slaves[|slaves| - 1].cap.sdoLength == 0
    {
      hide SlaveMemory.Valid, SlaveMemory.Value, BusIs, Settled, Record, RawBytes;
      if slaves == [] || slaves[|slaves| - 1].cap.sdoLength == 0 {
        return Rejects, s;
      }
      var m := slaves[|slaves| - 1];
      var ok := m.PutSdo(t.index, t.subindex, data);
      if !ok {
        return Overruns, s;
      }
      return Read, s.(cur := Some(m.Value()));
    }

    /** One token of the stream. */
    method Token(t: Token, data: seq<Cell>, ghost s: State) returns (v: Verdict, ghost r: State)
      requires Is(s) && !t.TEnd? && |data| == DataLength(t)
      modifies this, Owned()
      ensures Stepped(s, t, data, v, r) && fresh(Owned() - old(Owned()))
    {
      hide SlaveMemory.Valid, SlaveMemory.Value, Settled, BusIs, Step;
      match t
      case TMaster(_, _, _) => v := Read; r := MasterToken(t, s);
      case TSlave(_, _, _, _) => v, r := SlaveToken(t, s);
      case TSync(_, _, _) => v, r := SyncToken(t, s);
      case TPdo(_, _) => v, r := PdoToken(t, s);
      case TEntry(_, _, _, _) => v, r := EntryToken(t, s);
      case TComplex(_, _, _) => v, r := ComplexToken(t, s);
      case TSdo(_, _, _) => v, r := SdoToken(t, data, s);
    }

    /** The loop over the stream: the verdict and the memory are those of Parse. */
    method Load(conf: array<Cell>) returns (v: Verdict, ghost r: State)
      requires Is(INIT) && conf !in Owned()
      modifies this, Owned()
      ensures v == Read <==> Parse(INIT, conf[..], z).Ok?
      ensures v == Read ==> Is(r) && Parse(INIT, conf[..], z) == Ok(r)
      ensures v == Rejects <==> Parse(INIT, conf[..], z) == Rejected
      ensures fresh(Owned() - old(Owned()))
    {
      hide Is, BusIs, Settled, SlaveMemory.Repr, Step, Parse;
      NoMaster(INIT);
      ghost var cells, start := conf[..], Owned();
      r := INIT;
      var at := 0;
      while at < conf.Length && conf[at].Tok? && !conf[at].t.TEnd?
        invariant at <= conf.Length && conf[..] == cells
        invariant z.Valid() && Is(r) && fresh(Owned() - start) && conf !in Owned()
        invariant Parse(INIT, cells, z) == Parse(r, cells[at..], z)
        decreases conf.Length - at
      {
        ParseToken(r, cells, at, z);
        var t := conf[at].t;
        var n := DataLength(t);
        if at + 1 + n > conf.Length {
          return Overruns, r;
        }
        ghost var before := Owned();
        v, r := Token(t, conf[at + 1..at + 1 + n], r);
        ghost var after := Owned();
        assert fresh(after - before);
        assert after - start <= (after - before) + (before - start);
        if v != Read {
          return;
        }
        at := at + 1 + n;
      }
      ParseStops(r, cells, at, z);
      v := if at < conf.Length && conf[at].Tok? then Read else Overruns;
    }
  }
}