/**
 The configuration program as it runs: the element handlers append tokens to the output buffer, keep
 pointers to the tokens of the enclosing elements, and count through them. Every handler is one step
 of ConfigEvents.Handle on the stream that the buffer holds.
 */
module ConfigProgram {
  import opened ConfigFormat
  import opened ConfigEvents
  import opened Options
  import opened OutputBuffer

  // --- where the tokens that can still be patched stand ---

  function SlaveAt(s: Stream): nat {
    |s.pre|
  }

  function OpenAt(s: Stream): nat {
    |s.pre| + 1 + |s.done|
  }

  function PdoAt(s: Stream): nat
    requires s.open.OpenPdo?
  {
    OpenAt(s) + 1 + |s.open.b|
  }

  lemma Middle<T>(a: seq<T>, x: T, b: seq<T>, y: T)
    ensures |a| < |a + [x] + b| && (a + [x] + b)[|a|] == x
    ensures (a + [x] + b)[|a| := y] == a + [y] + b
  {
  }

  lemma SlavePatch(s: Stream, c: Counts)
    requires InSlave(s)
    ensures SlaveAt(s) < |Flatten(s)| && Flatten(s)[SlaveAt(s)] == [Tok(s.slave.value)]
    ensures Flatten(Plan(s, c)) == Flatten(s)[SlaveAt(s) := [Tok(Plan(s, c).slave.value)]]
  {
  }

  function WithSm(s: Stream, t: Token): Stream
    requires s.open.OpenSm? || s.open.OpenPdo?
  {
    s.(open := s.open.(sm := t))
  }

  function BehindSm(o: Open): seq<Chunk>
    requires o.OpenSm? || o.OpenPdo?
  {
    if o.OpenSm? then o.b else o.b + [[Tok(o.pdo)]] + o.c
  }

  lemma FlattenAroundSm(s: Stream)
    requires InSlave(s) && (s.open.OpenSm? || s.open.OpenPdo?)
    ensures Flatten(s) == (s.pre + [[Tok(s.slave.value)]] + s.done) + [[Tok(s.open.sm)]] + BehindSm(s.open)
  {
    assert OpenChunks(s.open) == [[Tok(s.open.sm)]] + BehindSm(s.open);
  }

  lemma SmPatch(s: Stream, t: Token)
    requires InSlave(s) && (s.open.OpenSm? || s.open.OpenPdo?)
    ensures OpenAt(s) < |Flatten(s)| && Flatten(s)[OpenAt(s)] == [Tok(s.open.sm)]
    ensures Flatten(WithSm(s, t)) == Flatten(s)[OpenAt(s) := [Tok(t)]]
  {
    hide Flatten;
    FlattenAroundSm(s);
    FlattenAroundSm(WithSm(s, t));
    Middle(s.pre + [[Tok(s.slave.value)]] + s.done, [Tok(s.open.sm)], BehindSm(s.open), [Tok(t)]);
  }

  lemma PdoPatch(s: Stream, t: Token)
    requires InSlave(s) && s.open.OpenPdo?
    ensures PdoAt(s) < |Flatten(s)| && Flatten(s)[PdoAt(s)] == [Tok(s.open.pdo)]
    ensures Flatten(s.(open := s.open.(pdo := t))) == Flatten(s)[PdoAt(s) := [Tok(t)]]
  {
  }

  lemma SdoPatch(s: Stream, t: Token)
    requires InSlave(s) && s.open.OpenSdo?
    ensures OpenAt(s) < |Flatten(s)| && Flatten(s)[OpenAt(s)] == [Tok(s.open.sdo)]
    ensures Flatten(s.(open := s.open.(sdo := t))) == Flatten(s)[OpenAt(s) := [Tok(t)]]
  {
  }

  /** A new child of the slave starts behind everything else. */
  lemma OpenNext(s: Stream, o: Open, first: Chunk)
    requires InSlave(s) && OpenChunks(o) == [first]
    ensures Flatten(Close(s).(open := o)) == Flatten(s) + [first]
    ensures OpenAt(Close(s).(open := o)) == |Flatten(s)|
  {
  }

  lemma PdoNext(s: Stream, o: Open, t: Token)
    requires SmIsOpen(s) && o == OpenPdo(SmOf(s), TailOf(s), t, [])
    ensures Flatten(s.(open := o)) == Flatten(s) + [[Tok(t)]]
    ensures PdoAt(s.(open := o)) == |Flatten(s)|
  {
  }

  lemma BehindPdo(s: Stream, d: Chunk, entryBits: int, bitOffset: int)
    requires InSlave(s) && s.open.OpenPdo?
    ensures Flatten(Behind(s, d, entryBits, bitOffset)) == Flatten(s) + [d]
  {
    assert OpenChunks(s.open) + [d] == OpenChunks(Behind(s, d, entryBits, bitOffset).open);
  }

  lemma BehindSdo(s: Stream, d: Chunk)
    requires InSlave(s) && s.open.OpenSdo?
    ensures Flatten(BehindData(s, d)) == Flatten(s) + [d]
  {
    assert OpenChunks(s.open) + [d] == OpenChunks(BehindData(s, d).open);
  }

  lemma PdoHandled(s: Stream, index: int, z: Sizes)
    requires SmIsOpen(s)
    ensures
      var o := OpenPdo(SmOf(s), TailOf(s), TPdo(index, 0), []);
      var counted := Plan(s.(open := o), Counts(0, 1, 0, 0, 0));
      Handle(s, EvPdo(index), z) ==
        if !(0 <= index < 0xffff) then None else Some(WithSm(counted, MorePdos(SmOf(s), 1)))
  {
  }

  /** The stream with one more chunk behind the open PDO. */
  function Behind(s: Stream, d: Chunk, entryBits: int, bitOffset: int): Stream
    requires s.open.OpenPdo?
  {
    s.(open := s.open.(c := s.open.c + [d]), entryBits := entryBits, bitOffset := bitOffset)
  }

  function WithPdo(s: Stream, t: Token): Stream
    requires s.open.OpenPdo?
  {
    s.(open := s.open.(pdo := t))
  }

  function MoreEntries(pdo: Token, n: nat): Token {
    if pdo.TPdo? then pdo.(entryCount := pdo.entryCount + n) else pdo
  }

  lemma EntryHandled(s: Stream, x: Entry, z: Sizes)
    requires SmIsOpen(s) && s.open.OpenPdo?
    ensures
      var appended := Behind(s, [Tok(TEntry(x.index, x.subindex, x.bitLength, x.pin))], x.bitLength, 0);
      var counted := Plan(Plan(appended, Counts(0, 0, 1, 0, 0)), Counts(0, 0, 0, PinCount(x.pin), 0));
      Handle(s, EvEntry(x), z) ==
        if !GoodEntryAttrs(x) then None else Some(WithPdo(counted, MoreEntries(s.open.pdo, 1)))
  {
  }

  lemma PartHandled(s: Stream, x: Complex, z: Sizes)
    requires SmIsOpen(s) && s.open.OpenPdo?
    ensures
      var token := TComplex(s.bitOffset, x.bitLength, x.pin);
      var appended := Behind(s, [Tok(token)], s.entryBits, s.bitOffset + x.bitLength);
      Handle(s, EvPart(x), z) ==
        if !GoodPart(x, s.bitOffset, s.entryBits) then None
        else Some(Plan(appended, Counts(0, 0, 0, PinCount(x.pin), 0)))
  {
  }

  function WithSdo(s: Stream, t: Token): Stream
    requires s.open.OpenSdo?
  {
    s.(open := s.open.(sdo := t))
  }

  function BehindData(s: Stream, d: Chunk): Stream
    requires s.open.OpenSdo?
  {
    s.(open := s.open.(d := s.open.d + [d]))
  }

  function Longer(sdo: Token, n: nat): Token {
    if sdo.TSdo? then sdo.(length := sdo.length + n) else sdo
  }

  lemma DataHandled(s: Stream, data: seq<int>, z: Sizes)
    requires InSlave(s) && s.open.OpenSdo? && s.open.sdo.TSdo?
    ensures
      var longer := WithSdo(BehindData(s, Bytes(data)), Longer(s.open.sdo, |data|));
      && Handle(s, EvCmdData(data), z) == Some(longer)
      && Handle(s, EvSdoData(data), z) == Some(if data == [] then s else Plan(longer, Counts(0, 0, 0, 0, |data|)))
  {
  }

  lemma SlaveTokenIs(a: SlaveAttrs, period: nat, c: Counts)
    ensures SlaveToken(a, period, c).TSlave?
  {
  }

  lemma PlanNothing(s: Stream)
    requires InSlave(s)
    ensures Plan(s, NONE) == s
  {
  }

  /** Which element the handler table is in. */
  datatype Place = Outside | AtMaster | AtSlave | AtSm | AtPdo | AtSdo

  function PlaceOf(s: Stream): Place {
    if !InSlave(s) then (if s.pre == [] then Outside else AtMaster)
    else match s.open
      case Nothing => AtSlave
      case OpenSm(_, _) => AtSm
      case OpenPdo(_, _, _, _) => AtPdo
      case OpenSdo(_, _) => AtSdo
  }

  lemma NoPdo(s: Stream, e: Event, z: Sizes)
    requires e.EvEntry? || e.EvPart?
    requires PlaceOf(s) != AtPdo
    ensures Handle(s, e, z) == None
  {
  }

  class Program {
    const z: Sizes
    const buf: Buffer
    var place: Place
    var currSlave: Item?
    var currSyncManager: Item?
    var currPdo: Item?
    var currSdoConf: Item?
    /** currMaster->appTimePeriod */
    var period: nat
    var entryBits: int
    var bitOffset: int
    ghost var stream: Stream

    /** The buffer holds the stream. */
    ghost predicate Holds()
      reads this`stream, buf, buf.items
    {
      buf.Valid() && ValidStream(stream) && Contents(buf.items) == Flatten(stream)
    }

    /** The kept pointers lead to the tokens that are still open in s. */
    ghost predicate PointsIn(items: seq<Item>, s: Stream)
      reads `currSlave, `currSyncManager, `currPdo, `currSdoConf
    {
      && |items| == |Flatten(s)|
      && (InSlave(s) ==>
            && currSlave == items[SlaveAt(s)]
            && match s.open
               case Nothing => true
               case OpenSm(_, _) => currSyncManager == items[OpenAt(s)]
               case OpenPdo(_, _, _, _) => currSyncManager == items[OpenAt(s)] && currPdo == items[PdoAt(s)]
               case OpenSdo(_, _) => currSdoConf == items[OpenAt(s)])
    }

    ghost predicate Points(s: Stream)
      reads `place, `currSlave, `currSyncManager, `currPdo, `currSdoConf, `period, `entryBits, `bitOffset, buf`items
    {
      && PointsIn(buf.items, s) && place == PlaceOf(s)
      && period == s.period && entryBits == s.entryBits && bitOffset == s.bitOffset
    }

    /** What a handler may use of the kept pointers. */
    lemma Pointers()
      requires Valid()
      ensures ValidStream(stream)
      ensures InSlave(stream) ==> currSlave != null && currSlave in buf.items
      ensures SmIsOpen(stream) ==> currSyncManager != null && currSyncManager in buf.items
      ensures InSlave(stream) && stream.open.OpenPdo? ==> currPdo != null && currPdo in buf.items
      ensures InSlave(stream) && stream.open.OpenSdo? ==> currSdoConf != null && currSdoConf in buf.items
    {
    }

    lemma OpenSlaveToken()
      requires Valid() && InSlave(stream)
      ensures currSlave.data == [Tok(stream.slave.value)]
    {
    }

    lemma BehindPoints(items: seq<Item>, p: Item, s: Stream, d: Chunk, entryBits: int, bitOffset: int)
      requires InSlave(s) && s.open.OpenPdo? && PointsIn(items, s)
      ensures PointsIn(items + [p], Behind(s, d, entryBits, bitOffset))
    {
    }

    lemma BehindDataPoints(items: seq<Item>, p: Item, s: Stream, d: Chunk)
      requires InSlave(s) && s.open.OpenSdo? && PointsIn(items, s)
      ensures PointsIn(items + [p], BehindData(s, d))
    {
    }

    lemma PlanPoints(s: Stream, c: Counts)
      requires InSlave(s) && Points(s)
      ensures Points(Plan(s, c))
    {
      SlavePatch(s, c);
    }

    lemma WithSmPoints(s: Stream, t: Token)
      requires InSlave(s) && (s.open.OpenSm? || s.open.OpenPdo?) && Points(s)
      ensures Points(WithSm(s, t))
    {
      SmPatch(s, t);
    }

    ghost predicate Valid()
      reads this, buf, buf.items
    {
      Holds() && Points(stream)
    }

    constructor (z: Sizes)
      ensures Valid() && stream == EMPTY && this.z == z && fresh(buf) && buf.items == []
    {
      this.z := z;
      buf := new Buffer();
      currSlave, currSyncManager, currPdo, currSdoConf := null, null, null, null;
      place, period, entryBits, bitOffset, stream := Outside, 0, 0, 0, EMPTY;
    }

    /** Reserve a token or raw bytes; the open places keep their numbers. */
    method Append(data: Chunk, ghost next: Stream) returns (p: Item)
      requires Valid() && ValidStream(next) && Flatten(next) == Flatten(stream) + [data]
      modifies this`stream, buf, buf.items
      ensures Holds() && fresh(p) && stream == next && buf.items == old(buf.items) + [p]
    {
      hide Flatten, ValidStream, Contents;
      p := buf.Add(data);
      stream := next;
    }

    /** Write a token through a kept pointer. */
    method Rewrite(p: Item, t: Token, ghost k: nat, ghost next: Stream)
      requires Holds() && k < |buf.items| && buf.items[k] == p && |Flatten(stream)[k]| == 1
      requires ValidStream(next) && Flatten(next) == Flatten(stream)[k := [Tok(t)]]
      modifies this`stream, p`data
      ensures Holds() && stream == next
    {
      hide Flatten, ValidStream, Linked, Concat;
      assert p.data == Flatten(stream)[k] by {
        assert p.data == Contents(buf.items)[k];
      }
      hide Contents;
      buf.Patch(k, p, [Tok(t)]);
      stream := next;
    }

    /** Count in the token of the slave. */
    method Count(c: Counts)
      requires Valid() && InSlave(stream)
      modifies this`stream, currSlave`data
      ensures Valid() && stream == Plan(old(stream), c)
    {
      SlavePatch(stream, c);
      PlanPoints(stream, c);
      ghost var k := SlaveAt(stream);
      assert currSlave.data == Contents(buf.items)[k];
      hide Flatten, Contents, Linked, Concat, Points;
      var t := currSlave.data[0].t;
      Rewrite(currSlave, t.(counts := Plus(t.counts, c)), k, Plan(stream, c));
    }

    /** A handler did what Handle says, and every item is an old one or new memory. */
    twostate predicate Stepped(s: Stream, e: Event, ok: bool, items: seq<Item>)
      reads this, buf, buf.items
    {
      && ok == (Handle(s, e, z) != None)
      && (ok ==> Valid() && Some(stream) == Handle(s, e, z))
      && forall k :: 0 <= k < |buf.items| ==> buf.items[k] in items || fresh(buf.items[k])
    }

    /** The start of a master: refused when its synchronisation attributes contradict each other. */
    method StartMaster(m: MasterAttrs) returns (ok: bool)
      requires Valid()
      modifies this, buf, buf.items
      ensures Stepped(old(stream), EvMaster(m), ok, old(buf.items))
    {
      hide Holds, Contents, Linked, Concat, SyncMode;
      Pointers();
      ghost var chunks := Flatten(stream) + [[Tok(MasterToken(m))]];
      ghost var next := Stream(chunks, None, [], Nothing, PeriodOf(m), entryBits, bitOffset);
      assert Flatten(next) == Flatten(stream) + [[Tok(MasterToken(m))]];
      var p := Append([Tok(MasterToken(m))], next);
      if SyncMode(m) == None {
        return false;
      }
      place, period := AtMaster, PeriodOf(m);
      return true;
    }

    /** The start of a slave: its type, its unit and its cycle are checked against the current master. */
    method StartSlave(a: SlaveAttrs) returns (ok: bool)
      requires Valid()
      modifies this, buf, buf.items
      ensures Stepped(old(stream), EvSlave(a), ok, old(buf.items))
    {
      hide Holds, Contents, Linked, Concat, CycleOf, SlaveToken;
      Pointers();
      if place == Outside {
        return false;
      }
      var t := SlaveToken(a, period, NONE);
      SlaveTokenIs(a, period, NONE);
      ghost var next := SlaveStarts(stream, a);
      assert Flatten(next) == Flatten(stream) + [[Tok(t)]];
      var p := Append([Tok(t)], next);
      if !GoodAttrs(a, period) {
        return false;
      }
      place, currSlave := AtSlave, p;
      return true;
    }

    /** The start of a sync manager: only on generic slaves. */
    method StartSm(index: int, dir: Dir) returns (ok: bool)
      requires Valid()
      modifies this, buf, buf.items
      ensures Stepped(old(stream), EvSm(index, dir), ok, old(buf.items))
    {
      hide Flatten, Holds, Contents, Linked, Concat;
      Pointers();
      if place in {Outside, AtMaster} {
        return false;
      }
      OpenSlaveToken();
      if !currSlave.data[0].t.generic {
        return false;
      }
      ghost var o := OpenSm(TSync(index, dir, 0), []);
      OpenNext(stream, o, [Tok(TSync(index, dir, 0))]);
      var p := Append([Tok(TSync(index, dir, 0))], Close(stream).(open := o));
      if !(0 <= index < MAX_SYNC_MANAGERS) {
        return false;
      }
      place, currSyncManager := AtSm, p;
      Count(Counts(1, 0, 0, 0, 0));
      return true;
    }

    /** The start of a PDO: it is counted in the slave and in the sync manager. */
    method StartPdo(index: int) returns (ok: bool)
      requires Valid()
      modifies this, buf, buf.items
      ensures Stepped(old(stream), EvPdo(index), ok, old(buf.items))
    {
      hide Flatten, Holds, Contents, Linked, Concat;
      Pointers();
      if !(place in {AtSm, AtPdo}) {
        return false;
      }
      PdoHandled(stream, index, z);
      hide Handle;
      ghost var o := OpenPdo(SmOf(stream), TailOf(stream), TPdo(index, 0), []);
      PdoNext(stream, o, TPdo(index, 0));
      var p := Append([Tok(TPdo(index, 0))], stream.(open := o));
      if !(0 <= index < 0xffff) {
        return false;
      }
      place, currPdo := AtPdo, p;
      Count(Counts(0, 1, 0, 0, 0));
      CountPdo();
      return true;
    }

    /** Count a PDO in the token of its sync manager. */
    method CountPdo()
      requires Valid() && SmIsOpen(stream)
      modifies this`stream, currSyncManager`data
      ensures Valid() && stream == WithSm(old(stream), MorePdos(SmOf(old(stream)), 1))
    {
      ghost var k, next := OpenAt(stream), WithSm(stream, MorePdos(SmOf(stream), 1));
      SmPatch(stream, MorePdos(SmOf(stream), 1));
      assert currSyncManager.data == Contents(buf.items)[k];
      WithSmPoints(stream, MorePdos(SmOf(stream), 1));
      hide Flatten, Contents, Linked, Concat, Points, TailOf;
      var t := currSyncManager.data[0].t;
      Rewrite(currSyncManager, t.(pdoCount := t.pdoCount + 1), k, next);
    }

    /** The start of a PDO entry: counted in the slave and in the PDO, its pin in the slave. */
    method StartEntry(x: Entry) returns (ok: bool)
      requires Valid()
      modifies this, buf, buf.items
      ensures Stepped(old(stream), EvEntry(x), ok, old(buf.items))
    {
      hide Flatten, Holds, Contents, Linked, Concat, Handle, PointsIn;
      Pointers();
      if place != AtPdo {
        NoPdo(stream, EvEntry(x), z);
        return false;
      }
      EntryHandled(stream, x, z);
      var d := [Tok(TEntry(x.index, x.subindex, x.bitLength, x.pin))];
      BehindPdo(stream, d, x.bitLength, 0);
      ghost var s0, items := stream, buf.items;
      var p := Append(d, Behind(stream, d, x.bitLength, 0));
      BehindPoints(items, p, s0, d, x.bitLength, 0);
      if !GoodEntryAttrs(x) {
        return false;
      }
      entryBits, bitOffset := x.bitLength, 0;
      Count(Counts(0, 0, 1, 0, 0));
      CountPin(x.pin);
      CountEntry();
      return true;
    }

    /** The start of a part of a complex entry: it follows the parts before it. */
    method StartPart(x: Complex) returns (ok: bool)
      requires Valid()
      modifies this, buf, buf.items
      ensures Stepped(old(stream), EvPart(x), ok, old(buf.items))
    {
      hide Flatten, Holds, Contents, Linked, Concat, Handle, PointsIn;
      Pointers();
      if place != AtPdo {
        NoPdo(stream, EvPart(x), z);
        return false;
      }
      PartHandled(stream, x, z);
      var d := [Tok(TComplex(bitOffset, x.bitLength, x.pin))];
      BehindPdo(stream, d, entryBits, bitOffset + x.bitLength);
      var good := GoodPart(x, bitOffset, entryBits);
      ghost var s0, items := stream, buf.items;
      var p := Append(d, Behind(stream, d, entryBits, bitOffset + x.bitLength));
      BehindPoints(items, p, s0, d, entryBits, bitOffset + x.bitLength);
      if !good {
        return false;
      }
      bitOffset := bitOffset + x.bitLength;
      CountPin(x.pin);
      return true;
    }

    method CountPin(pin: Pin)
      requires Valid() && InSlave(stream)
      modifies this`stream, currSlave`data
      ensures Valid() && stream == Plan(old(stream), Counts(0, 0, 0, PinCount(pin), 0))
    {
      PlanNothing(stream);
      if pin.name != "" {
        Count(Counts(0, 0, 0, 1, 0));
      }
    }

    /** Count an entry in the token of its PDO. */
    method CountEntry()
      requires Valid() && SmIsOpen(stream) && stream.open.OpenPdo?
      modifies this`stream, currPdo`data
      ensures Valid() && stream == WithPdo(old(stream), MoreEntries(old(stream).open.pdo, 1))
    {
      ghost var k, next := PdoAt(stream), WithPdo(stream, MoreEntries(stream.open.pdo, 1));
      PdoPatch(stream, MoreEntries(stream.open.pdo, 1));
      assert currPdo.data == Contents(buf.items)[k];
      WithPdoPoints(stream, MoreEntries(stream.open.pdo, 1));
      hide Flatten, Contents, Linked, Concat, Points;
      var t := currPdo.data[0].t;
      Rewrite(currPdo, t.(entryCount := t.entryCount + 1), k, next);
    }

    lemma WithPdoPoints(s: Stream, t: Token)
      requires InSlave(s) && s.open.OpenPdo? && Points(s)
      ensures Points(WithPdo(s, t))
    {
      PdoPatch(s, t);
    }

    /** An SDO element: its header is counted at once. */
    method StartSdo(index: int, subindex: int) returns (ok: bool)
      requires Valid()
      modifies this, buf, buf.items
      ensures Stepped(old(stream), EvSdo(index, subindex), ok, old(buf.items))
    {
      hide Flatten, Holds, Contents, Linked, Concat;
      Pointers();
      if place in {Outside, AtMaster} {
        return false;
      }
      ghost var o := OpenSdo(TSdo(index, subindex, 0), []);
      OpenNext(stream, o, [Tok(TSdo(index, subindex, 0))]);
      var p := Append([Tok(TSdo(index, subindex, 0))], Close(stream).(open := o));
      if !GoodSdo(Sdo(index, subindex, [])) {
        return false;
      }
      place, currSdoConf := AtSdo, p;
      Count(Counts(0, 0, 0, 0, z.conf));
      return true;
    }

    method AppendData(data: seq<int>)
      requires Valid() && InSlave(stream) && stream.open.OpenSdo?
      modifies this`stream, buf, buf.items
      ensures Valid() && stream == WithSdo(BehindData(old(stream), Bytes(data)), Longer(old(stream).open.sdo, |data|))
      ensures forall k :: 0 <= k < |buf.items| ==> buf.items[k] in old(buf.items) || fresh(buf.items[k])
    {
      hide Flatten, Holds, Contents, Linked, Concat;
      Pointers();
      hide PointsIn;
      BehindSdo(stream, Bytes(data));
      ghost var s0, items := stream, buf.items;
      var p := Append(Bytes(data), BehindData(stream, Bytes(data)));
      BehindDataPoints(items, p, s0, Bytes(data));
      var t := SdoToken();
      RewriteSdo(t.(length := t.length + |data|));
    }

    method SdoToken() returns (t: Token)
      requires Valid() && InSlave(stream) && stream.open.OpenSdo?
      ensures t == stream.open.sdo && t.TSdo?
    {
      SdoPatch(stream, stream.open.sdo);
      assert currSdoConf.data == Contents(buf.items)[OpenAt(stream)];
      return currSdoConf.data[0].t;
    }

    method RewriteSdo(t: Token)
      requires Valid() && InSlave(stream) && stream.open.OpenSdo? && t.TSdo?
      modifies this`stream, currSdoConf`data
      ensures Valid() && stream == WithSdo(old(stream), t)
    {
      SdoPatch(stream, t);
      WithSdoPoints(stream, t);
      hide Flatten, Contents, Linked, Concat, Points;
      Rewrite(currSdoConf, t, OpenAt(stream), WithSdo(stream, t));
    }

    lemma WithSdoPoints(s: Stream, t: Token)
      requires InSlave(s) && s.open.OpenSdo? && Points(s)
      ensures Points(WithSdo(s, t))
    {
      SdoPatch(s, t);
    }

    /** A dataRaw element: a piece that is not empty is counted in the SDO and in the slave. */
    method SdoData(data: seq<int>) returns (ok: bool)
      requires Valid()
      modifies this, buf, buf.items
      ensures Stepped(old(stream), EvSdoData(data), ok, old(buf.items))
    {
      hide Flatten, Holds, Contents, Linked, Concat, PointsIn;
      Pointers();
      if place != AtSdo {
        return false;
      }
      DataHandled(stream, data, z);
      hide Handle;
      if |data| > 0 {
        AppendData(data);
        Count(Counts(0, 0, 0, 0, |data|));
      }
      return true;
    }

    // --- the second producer: init-command files ---

    method StartCmd(complete: bool) returns (ok: bool)
      requires Valid()
      modifies this, buf, buf.items
      ensures Stepped(old(stream), EvCmdStart(complete), ok, old(buf.items))
    {
      hide Flatten, Holds, Contents, Linked, Concat;
      Pointers();
      if place in {Outside, AtMaster} {
        return false;
      }
      var t := TSdo(0xffff, if complete then SDO_COMPLETE else 0xff, 0);
      ghost var o := OpenSdo(t, []);
      OpenNext(stream, o, [Tok(t)]);
      var p := Append([Tok(t)], Close(stream).(open := o));
      place, currSdoConf := AtSdo, p;
      return true;
    }

    method CmdIndex(index: int) returns (ok: bool)
      requires Valid()
      modifies this, buf.items
      ensures Stepped(old(stream), EvCmdIndex(index), ok, old(buf.items))
    {
      hide Flatten, Holds, Contents, Linked, Concat;
      Pointers();
      if place != AtSdo || !(0 <= index <= 0xffff) {
        return false;
      }
      var t := SdoToken();
      RewriteSdo(TSdo(index, t.subindex, t.length));
      return true;
    }

    method CmdSubindex(subindex: int) returns (ok: bool)
      requires Valid()
      modifies this, buf.items
      ensures Stepped(old(stream), EvCmdSubindex(subindex), ok, old(buf.items))
    {
      hide Flatten, Holds, Contents, Linked, Concat;
      Pointers();
      if place != AtSdo {
        return false;
      }
      var t := SdoToken();
      if t.subindex != SDO_COMPLETE {
        if !(0 <= subindex <= 0xff) {
          return false;
        }
        RewriteSdo(TSdo(t.index, subindex, t.length));
      }
      return true;
    }

    method CmdData(data: seq<int>) returns (ok: bool)
      requires Valid()
      modifies this, buf, buf.items
      ensures Stepped(old(stream), EvCmdData(data), ok, old(buf.items))
    {
      hide Flatten, Holds, Contents, Linked, Concat, PointsIn;
      Pointers();
      if place != AtSdo {
        return false;
      }
      DataHandled(stream, data, z);
      hide Handle;
      AppendData(data);
      return true;
    }

    /** Only the transitions IP and PS are known; nothing is stored. */
    method CmdTransition(text: string) returns (ok: bool)
      requires Valid()
      ensures Stepped(old(stream), EvCmdTransition(text), ok, old(buf.items))
    {
      return text == "IP" || text == "PS";
    }

    /** The end of an init command: only now is it counted in the slave, header and data together. */
    method EndCmd() returns (ok: bool)
      requires Valid()
      modifies this, buf.items
      ensures Stepped(old(stream), EvCmdEnd, ok, old(buf.items))
    {
      hide Flatten, Holds, Contents, Linked, Concat;
      Pointers();
      if place != AtSdo {
        return false;
      }
      var t := SdoToken();
      if t.index == 0xffff || t.subindex == 0xff {
        return false;
      }
      Count(Counts(0, 0, 0, 0, z.conf + t.length));
      return true;
    }

    // --- the whole program ---

    method Dispatch(e: Event) returns (ok: bool)
      requires Valid()
      modifies this, buf, buf.items
      ensures Stepped(old(stream), e, ok, old(buf.items))
    {
      hide Handle, Holds, Points, Contents, Linked, Concat, Flatten;
      match e
      case EvMaster(m) => ok := StartMaster(m);
      case EvSlave(a) => ok := StartSlave(a);
      case EvSm(index, dir) => ok := StartSm(index, dir);
      case EvPdo(index) => ok := StartPdo(index);
      case EvEntry(x) => ok := StartEntry(x);
      case EvPart(part) => ok := StartPart(part);
      case EvSdo(index, subindex) => ok := StartSdo(index, subindex);
      case EvSdoData(data) => ok := SdoData(data);
      case EvCmdStart(complete) => ok := StartCmd(complete);
      case EvCmdIndex(index) => ok := CmdIndex(index);
      case EvCmdSubindex(subindex) => ok := CmdSubindex(subindex);
      case EvCmdData(data) => ok := CmdData(data);
      case EvCmdTransition(text) => ok := CmdTransition(text);
      case EvCmdEnd => ok := EndCmd();
    }

    /** The parser calls the handlers one after the other until one of them stops it. */
    method Run(events: seq<Event>) returns (ok: bool)
      requires Valid()
      modifies this, buf, buf.items
      ensures ok == (HandleAll(old(stream), events, z) != None)
      ensures ok ==> Valid() && Some(stream) == HandleAll(old(stream), events, z)
      ensures forall k :: 0 <= k < |buf.items| ==> buf.items[k] in old(buf.items) || fresh(buf.items[k])
    {
      hide Handle, Holds, Points, Contents, Linked, Concat, Flatten;
      var i := 0;
      while i < |events|
        invariant 0 <= i <= |events| && Valid()
        invariant HandleAll(old(stream), events, z) == HandleAll(stream, events[i..], z)
        invariant forall k :: 0 <= k < |buf.items| ==> buf.items[k] in old(buf.items) || fresh(buf.items[k])
      {
        ok := Dispatch(events[i]);
        if !ok {
          return false;
        }
        i := i + 1;
      }
      return true;
    }

    /** The end marker, and the copy into shared memory. */
    method Finish() returns (shared: array<Cell>)
      requires Valid()
      modifies this`stream, buf, buf.items
      ensures fresh(shared) && shared[..] == Concat(Flatten(old(stream))) + [Tok(TEnd)]
    {
      hide Contents, Linked, Concat, Flatten, PointsIn;
      var end := buf.Add([Tok(TEnd)]);
      ConcatOneMore(Flatten(stream), [Tok(TEnd)]);
      shared := new Cell[buf.len](_ => Raw(0));
      buf.CopyFree(shared);
    }
  }

  /**
   The configuration program on a whole document: nothing for a document it refuses, and otherwise the
   cells of the document's tokens with an end marker behind them.
   */
  method Produce(ns: seq<Node>, z: Sizes) returns (shared: array?<Cell>)
    ensures shared == null <==> !GoodDocument(ns)
    ensures shared != null ==> fresh(shared) && shared[..] == Concat(NodesChunks(ns, 0, z)) + [Tok(TEnd)]
  {
    ProducedTokens(ns, z);
    var program := new Program(z);
    var ok := program.Run(NodesEvents(ns));
    if !ok {
      return null;
    }
    shared := program.Finish();
  }
}
