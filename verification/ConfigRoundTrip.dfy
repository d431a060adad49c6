/**
 The two sides of the configuration together: what the realtime module builds from the tokens of a
 document is the document, in exactly the memory that the tokens planned.
 */
module ConfigRoundTrip {
  import opened CInt
  import opened ConfigFormat
  import opened ConfigParser
  import opened ConfigPins
  import opened Options

  // --- what should be in memory for a document ---

  function EntryInfos(es: seq<Entry>): (r: seq<EntryInfo>)
    ensures |r| == |es|
  {
    if es == [] then []
    else [EntryInfo(es[0].index, es[0].subindex, es[0].bitLength)] + EntryInfos(es[1..])
  }

  /** The entries of a PDO as the document gives them. */
  function EntryRecs(es: seq<Entry>): (r: seq<EntryInfo>)
    ensures |r| == |es|
    ensures forall i :: 0 <= i < |es| ==>
      r[i].index == es[i].index && r[i].subindex == es[i].subindex && r[i].bitLength == es[i].bitLength
  {
    seq(|es|, i requires 0 <= i < |es| => EntryInfo(es[i].index, es[i].subindex, es[i].bitLength))
  }

  lemma {:induction false} EntryInfosAre(es: seq<Entry>)
    ensures EntryInfos(es) == EntryRecs(es)
  {
    if es != [] {
      EntryInfosAre(es[1..]);
      assert EntryRecs(es) == [EntryRecs(es)[0]] + EntryRecs(es[1..]);
    }
  }

  function PdoTrees(ps: seq<Pdo>): seq<PdoTree> {
    if ps == [] then [] else [PdoTree(ps[0].index, EntryRecs(ps[0].entries))] + PdoTrees(ps[1..])
  }

  function SmTrees(cs: seq<Child>): seq<SmTree> {
    if cs == [] then []
    else
      (if cs[0].SmChild? then [SmTree(cs[0].sm.index, cs[0].sm.dir, PdoTrees(cs[0].sm.pdos))] else [])
      + SmTrees(cs[1..])
  }

  function SdoRecs(sdos: seq<Sdo>): seq<SdoRec> {
    if sdos == [] then []
    else [SdoRec(sdos[0].index, sdos[0].subindex, Joined(sdos[0].pieces))] + SdoRecs(sdos[1..])
  }

  /** The SDO settings of a slave in document order, whichever producer they come from. */
  function ChildrenSdos(cs: seq<Child>): seq<Sdo> {
    if cs == [] then []
    else
      (match cs[0]
       case SmChild(_) => []
       case SdoChild(x) => [x]
       case InitCmds(cmds) => SdosOf(cmds))
      + ChildrenSdos(cs[1..])
  }

  // --- what the parser adds for each part of a document ---

  function PdosEntries(ps: seq<Pdo>): seq<EntryInfo> {
    if ps == [] then [] else EntryInfos(ps[0].entries) + PdosEntries(ps[1..])
  }

  function PdoInfos(ps: seq<Pdo>, base: nat): (r: seq<PdoInfo>)
    ensures |r| == |ps|
  {
    if ps == [] then []
    else
      var n := |ps[0].entries|;
      [PdoInfo(ps[0].index, n, Pointer(n, base))] + PdoInfos(ps[1..], base + n)
  }

  function AddParts(w: Work, parts: seq<Complex>, offset: int, index: int, subindex: int): Work {
    w.(pins := w.pins + PartPins(parts, offset, w.dir, index, subindex))
  }

  function AddEntries(w: Work, es: seq<Entry>): Work {
    w.(entries := w.entries + EntryInfos(es), pins := w.pins + EntriesPins(es, w.dir))
  }

  function AddPdos(w: Work, ps: seq<Pdo>): Work {
    w.(pdos := w.pdos + PdoInfos(ps, |w.entries|), entries := w.entries + PdosEntries(ps),
       pins := w.pins + PdosPins(ps, w.dir))
  }

  function AddSm(w: Work, sm: Sm): Work {
    var n := |sm.pdos|;
    var info := SyncInfo(sm.index, sm.dir, n, Pointer(n, |w.pdos|));
    AddPdos(w.(syncs := w.syncs + [info], dir := HalDirOf(sm.dir)), sm.pdos)
  }

  function AddSdo(w: Work, sdo: Sdo, z: Sizes): Work
    requires z.Valid()
  {
    w.(sdo := w.sdo + Record(sdo.index, sdo.subindex, Joined(sdo.pieces), z))
  }

  function AddSdos(w: Work, sdos: seq<Sdo>, z: Sizes): Work
    requires z.Valid()
    decreases |sdos|
  {
    if sdos == [] then w else AddSdos(AddSdo(w, sdos[0], z), sdos[1..], z)
  }

  function AddChild(w: Work, c: Child, z: Sizes): Work
    requires z.Valid()
  {
    match c
    case SmChild(sm) => AddSm(w, sm)
    case SdoChild(sdo) => AddSdo(w, sdo, z)
    case InitCmds(cmds) => AddSdos(w, SdosOf(cmds), z)
  }

  function AddChildren(w: Work, cs: seq<Child>, z: Sizes): Work
    requires z.Valid()
    decreases |cs|
  {
    if cs == [] then w else AddChildren(AddChild(w, cs[0], z), cs[1..], z)
  }

  /** The planned memory has room for this much more. */
  predicate Room(w: Work, c: Counts) {
    && |w.syncs| + c.sms <= w.cap.sms && |w.pdos| + c.pdos <= w.cap.pdos && |w.entries| + c.entries <= w.cap.entries
    && |w.pins| + c.pins <= w.cap.pins && |w.sdo| + c.sdoLength <= w.cap.sdoLength
  }

  // --- the parser on the tokens of each part ---

  lemma ParseToken(s: State, t: Token, data: seq<Cell>, rest: seq<Cell>, z: Sizes)
    requires z.Valid() && !t.TEnd? && DataLength(t) == |data|
    requires Step(s, t, data, z).Ok?
    ensures Parse(s, [Tok(t)] + data + rest, z) == Parse(Step(s, t, data, z).state, rest, z)
  {
  }

  /** A chunk of one token, then more chunks. */
  lemma ParseChunk(s: State, t: Token, more: seq<Chunk>, rest: seq<Cell>, z: Sizes)
    requires z.Valid() && !t.TEnd? && !t.TSdo?
    requires Step(s, t, [], z).Ok?
    ensures Parse(s, Concat([[Tok(t)]] + more) + rest, z) == Parse(Step(s, t, [], z).state, Concat(more) + rest, z)
  {
    hide Step, Parse;
    ConcatAppend([[Tok(t)]], more);
    assert Concat([[Tok(t)]]) == [Tok(t)];
    assert [Tok(t)] + Concat(more) + rest == [Tok(t)] + [] + (Concat(more) + rest);
    ParseToken(s, t, [], Concat(more) + rest, z);
  }

  /** Two runs of chunks, one behind the other. */
  lemma ConcatRest(a: seq<Chunk>, b: seq<Chunk>, rest: seq<Cell>)
    ensures Concat(a + b) + rest == Concat(a) + (Concat(b) + rest)
  {
    ConcatAppend(a, b);
  }

  lemma {:induction false} ParseParts(s: State, w: Work, parts: seq<Complex>, offset: int, rest: seq<Cell>, z: Sizes)
    requires z.Valid() && s.cur == Some(w) && w.generic && s.last != None
    requires |w.pins| + PartsPins(parts) <= w.cap.pins
    ensures Parse(s, Concat(PartChunks(parts, offset)) + rest, z)
         == Parse(s.(cur := Some(AddParts(w, parts, offset, s.last.value.0, s.last.value.1))), rest, z)
    decreases |parts|
  {
    hide Parse, Concat;
    if parts == [] {
      ConcatNone(rest);
      assert w.pins + [] == w.pins;
    } else {
      var t := TComplex(offset, parts[0].bitLength, parts[0].pin);
      var more := PartChunks(parts[1..], offset + parts[0].bitLength);
      ParseChunk(s, t, more, rest, z);
      var u := Step(s, t, [], z).state;
      ParseParts(u, u.cur.value, parts[1..], offset + parts[0].bitLength, rest, z);
      var a := PinOf(parts[0].pin, offset, parts[0].bitLength, w.dir, s.last.value.0, s.last.value.1);
      var b := PartPins(parts[1..], offset + parts[0].bitLength, w.dir, s.last.value.0, s.last.value.1);
      assert (w.pins + a) + b == w.pins + (a + b);
    }
  }

  lemma ConcatNone(rest: seq<Cell>)
    ensures Concat([]) + rest == rest
  {
  }

  lemma ParseEntry(s: State, w: Work, e: Entry, rest: seq<Cell>, z: Sizes)
    requires z.Valid() && s.cur == Some(w) && w.generic && w.dir != Unspecified && Room(w, EntryCounts(e))
    ensures Parse(s, Concat(EntryChunks(e)) + rest, z)
         == Parse(s.(cur := Some(AddEntries(w, [e])), last := Some((e.index, e.subindex))), rest, z)
  {
    hide Parse, Concat, PartChunks, PartsPins, PartPins;
    var t := TEntry(e.index, e.subindex, e.bitLength, e.pin);
    ParseChunk(s, t, PartChunks(e.parts, 0), rest, z);
    var u := Step(s, t, [], z).state;
    ParseParts(u, u.cur.value, e.parts, 0, rest, z);
    var a := PinOf(e.pin, 0, e.bitLength, w.dir, e.index, e.subindex);
    var b := PartPins(e.parts, 0, w.dir, e.index, e.subindex);
    assert EntriesPins([e], w.dir) == EntryPins(e, w.dir) + [] == a + b;
    assert (w.pins + a) + b == w.pins + (a + b);
    assert EntryInfos([e]) == [EntryInfo(e.index, e.subindex, e.bitLength)];
  }

  lemma Assoc<T>(a: seq<T>, b: seq<T>, c: seq<T>)
    ensures (a + b) + c == a + (b + c)
  {
  }

  lemma OneEntry(e: Entry, dir: HalDir)
    ensures EntriesPins([e], dir) == EntryPins(e, dir)
    ensures EntryInfos([e]) == [EntryInfo(e.index, e.subindex, e.bitLength)]
  {
    assert EntriesPins([e], dir) == EntryPins(e, dir) + [];
  }

  lemma EntriesUnfold(es: seq<Entry>, dir: HalDir)
    requires es != []
    ensures EntriesPins(es, dir) == EntriesPins([es[0]], dir) + EntriesPins(es[1..], dir)
    ensures EntryInfos(es) == EntryInfos([es[0]]) + EntryInfos(es[1..])
  {
    hide EntryPins;
    OneEntry(es[0], dir);
  }

  lemma AddEntriesTwice(w: Work, es: seq<Entry>)
    requires es != []
    ensures AddEntries(AddEntries(w, [es[0]]), es[1..]) == AddEntries(w, es)
  {
    hide EntriesPins, EntryInfos;
    EntriesUnfold(es, w.dir);
    Assoc(w.pins, EntriesPins([es[0]], w.dir), EntriesPins(es[1..], w.dir));
    Assoc(w.entries, EntryInfos([es[0]]), EntryInfos(es[1..]));
  }

  lemma {:induction false} ParseEntries(s: State, w: Work, es: seq<Entry>, rest: seq<Cell>, z: Sizes)
    returns (last: Option<(int, int)>)
    requires z.Valid() && s.cur == Some(w) && w.generic && w.dir != Unspecified && Room(w, EntriesCounts(es))
    ensures Parse(s, Concat(EntriesChunks(es)) + rest, z)
         == Parse(s.(cur := Some(AddEntries(w, es)), last := last), rest, z)
    decreases |es|
  {
    hide Parse, Concat, EntryChunks, AddEntries, EntryCounts, EntriesCounts, Room;
    if es == [] {
      ConcatNone(rest);
      AddNoEntries(w);
      last := s.last;
    } else {
      ConcatRest(EntryChunks(es[0]), EntriesChunks(es[1..]), rest);
      EntryRoom(w, es);
      ParseEntry(s, w, es[0], Concat(EntriesChunks(es[1..])) + rest, z);
      var u := AddEntries(w, [es[0]]);
      last := ParseEntries(s.(cur := Some(u), last := Some((es[0].index, es[0].subindex))), u, es[1..], rest, z);
      AddEntriesTwice(w, es);
    }
  }

  lemma AddNoEntries(w: Work)
    ensures AddEntries(w, []) == w
  {
    assert w.pins + [] == w.pins && w.entries + [] == w.entries;
  }

  lemma {:induction false} PartPinsCount(parts: seq<Complex>, offset: int, dir: HalDir, index: int, subindex: int)
    ensures |PartPins(parts, offset, dir, index, subindex)| == PartsPins(parts)
  {
    if parts != [] {
      PartPinsCount(parts[1..], offset + parts[0].bitLength, dir, index, subindex);
    }
  }

  lemma EntryRoom(w: Work, es: seq<Entry>)
    requires es != [] && Room(w, EntriesCounts(es))
    ensures var u := AddEntries(w, [es[0]]);
      u.generic == w.generic && u.dir == w.dir && Room(u, EntriesCounts(es[1..]))
    ensures Room(w, EntryCounts(es[0]))
  {
    hide EntriesPins, PartPins, PartsPins;
    PartPinsCount(es[0].parts, 0, w.dir, es[0].index, es[0].subindex);
    OneEntry(es[0], w.dir);
  }

  lemma OnePdo(p: Pdo, n: nat, dir: HalDir)
    ensures PdosEntries([p]) == EntryInfos(p.entries)
    ensures PdosPins([p], dir) == EntriesPins(p.entries, dir)
    ensures PdoInfos([p], n) == [PdoInfo(p.index, |p.entries|, Pointer(|p.entries|, n))]
  {
  }

  /** The first PDO and the others. */
  lemma PdosUnfold(ps: seq<Pdo>, n: nat, dir: HalDir)
    requires ps != []
    ensures PdosEntries(ps) == PdosEntries([ps[0]]) + PdosEntries(ps[1..])
    ensures PdosPins(ps, dir) == PdosPins([ps[0]], dir) + PdosPins(ps[1..], dir)
    ensures PdoInfos(ps, n) == PdoInfos([ps[0]], n) + PdoInfos(ps[1..], n + |PdosEntries([ps[0]])|)
    ensures PdosCounts(ps) == Plus(PdoCounts(ps[0]), PdosCounts(ps[1..]))
  {
    hide EntryInfos, EntriesPins, EntriesCounts;
    OnePdo(ps[0], n, dir);
  }

  lemma PdoStep(w: Work, p: Pdo)
    ensures
      var u := w.(pdos := w.pdos + [PdoInfo(p.index, |p.entries|, Pointer(|p.entries|, |w.entries|))]);
      AddEntries(u, p.entries) == AddPdos(w, [p])
  {
    hide EntryInfos, EntriesPins, PdosEntries, PdosPins, PdoInfos;
    OnePdo(p, |w.entries|, w.dir);
  }

  lemma ParsePdo(s: State, w: Work, p: Pdo, rest: seq<Cell>, z: Sizes) returns (last: Option<(int, int)>)
    requires z.Valid() && s.cur == Some(w) && w.generic && w.dir != Unspecified && Room(w, PdoCounts(p))
    ensures Parse(s, Concat(PdoChunks(p)) + rest, z) == Parse(s.(cur := Some(AddPdos(w, [p])), last := last), rest, z)
  {
    hide Parse, Concat, EntriesChunks, EntriesCounts, AddEntries, AddPdos;
    var t := TPdo(p.index, |p.entries|);
    ParseChunk(s, t, EntriesChunks(p.entries), rest, z);
    var u := Step(s, t, [], z).state;
    last := ParseEntries(u, u.cur.value, p.entries, rest, z);
    PdoStep(w, p);
  }

  lemma PdoInfosTwice(a: seq<PdoInfo>, ps: seq<Pdo>, n: nat)
    requires ps != []
    ensures a + PdoInfos([ps[0]], n) + PdoInfos(ps[1..], n + |PdosEntries([ps[0]])|) == a + PdoInfos(ps, n)
  {
  }

  lemma AddPdosTwice(w: Work, ps: seq<Pdo>)
    requires ps != []
    ensures AddPdos(AddPdos(w, [ps[0]]), ps[1..]) == AddPdos(w, ps)
  {
    hide PdosPins, PdosCounts;
    var one, n := [ps[0]], |w.entries|;
    PdosUnfold(ps, n, w.dir);
    var u := AddPdos(w, one);
    var v, x := AddPdos(u, ps[1..]), AddPdos(w, ps);
    assert v.entries == x.entries by { Assoc(w.entries, PdosEntries(one), PdosEntries(ps[1..])); }
    assert v.pins == x.pins by { Assoc(w.pins, PdosPins(one, w.dir), PdosPins(ps[1..], w.dir)); }
    PdoInfosTwice(w.pdos, ps, n);
  }

  lemma AddNoPdos(w: Work)
    ensures AddPdos(w, []) == w
  {
    assert w.pdos + [] == w.pdos && w.pins + [] == w.pins && w.entries + [] == w.entries;
  }

  lemma {:induction false} EntriesSize(es: seq<Entry>, dir: HalDir)
    ensures EntriesCounts(es) == Counts(0, 0, |es|, |EntriesPins(es, dir)|, 0)
  {
    if es != [] {
      EntriesSize(es[1..], dir);
      PartPinsCount(es[0].parts, 0, dir, es[0].index, es[0].subindex);
    }
  }

  /** The memory plan is the size of what the parser writes. */
  lemma {:induction false} PdosSize(ps: seq<Pdo>, dir: HalDir)
    ensures PdosCounts(ps) == Counts(0, |ps|, |PdosEntries(ps)|, |PdosPins(ps, dir)|, 0)
  {
    hide EntriesCounts, EntriesPins, EntryInfos;
    if ps != [] {
      EntriesSize(ps[0].entries, dir);
      PdosSize(ps[1..], dir);
    }
  }

  lemma PdoRoom(w: Work, ps: seq<Pdo>)
    requires ps != [] && Room(w, PdosCounts(ps))
    ensures var u := AddPdos(w, [ps[0]]);
      u.generic == w.generic && u.dir == w.dir && Room(u, PdosCounts(ps[1..]))
    ensures Room(w, PdoCounts(ps[0]))
  {
    hide PdosEntries, PdosPins, PdoInfos, PdosCounts, EntriesCounts, EntryInfos, EntriesPins;
    EntriesSize(ps[0].entries, w.dir);
    OnePdo(ps[0], |w.entries|, w.dir);
    PdosUnfold(ps, |w.entries|, w.dir);
  }

  lemma {:induction false} ParsePdos(s: State, w: Work, ps: seq<Pdo>, rest: seq<Cell>, z: Sizes)
    returns (last: Option<(int, int)>)
    requires z.Valid() && s.cur == Some(w) && w.generic && w.dir != Unspecified && Room(w, PdosCounts(ps))
    ensures Parse(s, Concat(PdosChunks(ps)) + rest, z) == Parse(s.(cur := Some(AddPdos(w, ps)), last := last), rest, z)
    decreases |ps|
  {
    hide Parse, Concat, PdoChunks, AddPdos, PdoCounts, PdosCounts, Room;
    if ps == [] {
      ConcatNone(rest);
      AddNoPdos(w);
      last := s.last;
    } else {
      ConcatRest(PdoChunks(ps[0]), PdosChunks(ps[1..]), rest);
      PdoRoom(w, ps);
      last := ParsePdo(s, w, ps[0], Concat(PdosChunks(ps[1..])) + rest, z);
      var u := AddPdos(w, [ps[0]]);
      last := ParsePdos(s.(cur := Some(u), last := last), u, ps[1..], rest, z);
      AddPdosTwice(w, ps);
    }
  }

  lemma ParseSm(s: State, w: Work, sm: Sm, rest: seq<Cell>, z: Sizes) returns (last: Option<(int, int)>)
    requires z.Valid() && s.cur == Some(w) && w.generic && Room(w, SmCounts(sm))
    ensures Parse(s, Concat(SmChunks(sm)) + rest, z) == Parse(s.(cur := Some(AddSm(w, sm)), last := last), rest, z)
  {
    hide Parse, Concat, PdosChunks, AddPdos, PdosCounts;
    var t := TSync(sm.index, sm.dir, |sm.pdos|);
    ParseChunk(s, t, PdosChunks(sm.pdos), rest, z);
    var u := Step(s, t, [], z).state;
    last := ParsePdos(u, u.cur.value, sm.pdos, rest, z);
  }

  // --- SDO records: the data pieces of either producer are one run of bytes ---

  lemma {:induction false} PiecesAreBytes(pieces: seq<seq<int>>, keepEmpty: bool)
    ensures Concat(PieceChunks(pieces, keepEmpty)) == Bytes(Joined(pieces))
  {
    if pieces != [] {
      PiecesAreBytes(pieces[1..], keepEmpty);
      var more := PieceChunks(pieces[1..], keepEmpty);
      if pieces[0] == [] && !keepEmpty {
        assert [] + more == more && [] + Joined(pieces[1..]) == Joined(pieces[1..]);
      } else {
        MoreBytes(pieces[0], more, Joined(pieces[1..]));
      }
    }
  }

  lemma MoreBytes(piece: seq<int>, more: seq<Chunk>, rest: seq<int>)
    requires Concat(more) == Bytes(rest)
    ensures Concat([Bytes(piece)] + more) == Bytes(piece + rest)
  {
  }

  lemma ParseSdo(s: State, w: Work, sdo: Sdo, keepEmpty: bool, rest: seq<Cell>, z: Sizes)
    requires z.Valid() && s.cur == Some(w) && Room(w, SdoCounts(sdo, z))
    ensures Parse(s, Concat(SdoChunks(sdo, keepEmpty)) + rest, z) == Parse(s.(cur := Some(AddSdo(w, sdo, z))), rest, z)
  {
    hide Parse, Concat, PieceChunks, Joined;
    var data := Bytes(Joined(sdo.pieces));
    var t := TSdo(sdo.index, sdo.subindex, |data|);
    ConcatAppend([[Tok(t)]], PieceChunks(sdo.pieces, keepEmpty));
    PiecesAreBytes(sdo.pieces, keepEmpty);
    ConcatOfOne([Tok(t)]);
    assert Concat(SdoChunks(sdo, keepEmpty)) + rest == [Tok(t)] + data + rest;
    assert RawBytes(data) == Joined(sdo.pieces);
    ParseToken(s, t, data, rest, z);
  }

  lemma ConcatOfOne(d: Chunk)
    ensures Concat([d]) == d
  {
  }

  lemma {:induction false} ParseSdos(s: State, w: Work, sdos: seq<Sdo>, rest: seq<Cell>, z: Sizes)
    requires z.Valid() && s.cur == Some(w) && Room(w, SdosCounts(sdos, z))
    ensures Parse(s, Concat(SdosChunks(sdos)) + rest, z) == Parse(s.(cur := Some(AddSdos(w, sdos, z))), rest, z)
    decreases |sdos|
  {
    hide Parse, Concat, SdoChunks;
    if sdos == [] {
      ConcatNone(rest);
    } else {
      ConcatRest(SdoChunks(sdos[0], true), SdosChunks(sdos[1..]), rest);
      ParseSdo(s, w, sdos[0], true, Concat(SdosChunks(sdos[1..])) + rest, z);
      var u := AddSdo(w, sdos[0], z);
      ParseSdos(s.(cur := Some(u)), u, sdos[1..], rest, z);
    }
  }

  // --- the memory plan ---

  /** u is w with exactly c more in every array, and at most c more in the SDO memory. */
  predicate Grew(w: Work, u: Work, c: Counts, z: Sizes) {
    && u.generic == w.generic && u.unit == w.unit && u.cap == w.cap
    && |u.syncs| == |w.syncs| + c.sms && |u.pdos| == |w.pdos| + c.pdos && |u.entries| == |w.entries| + c.entries
    && |u.pins| == |w.pins| + c.pins && |u.sdo| <= |w.sdo| + c.sdoLength
    && (z.conf == z.slave ==> |u.sdo| == |w.sdo| + c.sdoLength)
  }

  lemma {:induction false} SdosGrew(w: Work, sdos: seq<Sdo>, z: Sizes)
    requires z.Valid()
    ensures Grew(w, AddSdos(w, sdos, z), SdosCounts(sdos, z), z)
    decreases |sdos|
  {
    if sdos != [] {
      SdosGrew(AddSdo(w, sdos[0], z), sdos[1..], z);
    }
  }

  lemma ChildGrew(w: Work, c: Child, z: Sizes)
    requires z.Valid()
    ensures Grew(w, AddChild(w, c, z), ChildCounts(c, z), z)
  {
    hide AddSdos, SdosCounts;
    match c
    case SmChild(sm) => PdosSize(sm.pdos, HalDirOf(sm.dir));
    case SdoChild(_) =>
    case InitCmds(cmds) => SdosGrew(w, SdosOf(cmds), z);
  }

  lemma {:induction false} ChildrenGrew(w: Work, cs: seq<Child>, z: Sizes)
    requires z.Valid()
    ensures Grew(w, AddChildren(w, cs, z), ChildrenCounts(cs, z), z)
    decreases |cs|
  {
    hide AddChild, ChildCounts;
    if cs != [] {
      ChildGrew(w, cs[0], z);
      ChildrenGrew(AddChild(w, cs[0], z), cs[1..], z);
    }
  }

  // --- a slave and a document ---

  lemma ParseChild(s: State, w: Work, c: Child, rest: seq<Cell>, z: Sizes) returns (last: Option<(int, int)>)
    requires z.Valid() && s.cur == Some(w) && GoodChild(c, w.generic) && Room(w, ChildCounts(c, z))
    ensures Parse(s, Concat(ChildChunks(c)) + rest, z)
         == Parse(s.(cur := Some(AddChild(w, c, z)), last := last), rest, z)
  {
    hide Parse, Concat, SmChunks, SdoChunks, SdosChunks, AddSm, AddSdo, AddSdos, GoodSm, GoodSdo, GoodSdos;
    last := s.last;
    match c
    case SmChild(sm) => last := ParseSm(s, w, sm, rest, z);
    case SdoChild(sdo) => ParseSdo(s, w, sdo, false, rest, z);
    case InitCmds(cmds) => ParseSdos(s, w, SdosOf(cmds), rest, z);
  }

  lemma {:induction false} ParseChildren(s: State, w: Work, cs: seq<Child>, rest: seq<Cell>, z: Sizes)
    returns (last: Option<(int, int)>)
    requires z.Valid() && s.cur == Some(w) && GoodChildren(cs, w.generic) && Room(w, ChildrenCounts(cs, z))
    ensures Parse(s, Concat(ChildrenChunks(cs)) + rest, z)
         == Parse(s.(cur := Some(AddChildren(w, cs, z)), last := last), rest, z)
    decreases |cs|
  {
    hide Parse, Concat, ChildChunks, AddChild, GoodChild, ChildCounts;
    last := s.last;
    if cs == [] {
      ConcatNone(rest);
    } else {
      ConcatRest(ChildChunks(cs[0]), ChildrenChunks(cs[1..]), rest);
      last := ParseChild(s, w, cs[0], Concat(ChildrenChunks(cs[1..])) + rest, z);
      var u := AddChild(w, cs[0], z);
      ChildGrew(w, cs[0], z);
      last := ParseChildren(s.(cur := Some(u), last := last), u, cs[1..], rest, z);
    }
  }

  // --- reading the memory back ---

  lemma {:induction false} ReadPdosBack(ps: seq<Pdo>, base: nat, entries: seq<EntryInfo>)
    requires base + |PdosEntries(ps)| <= |entries| && entries[base..base + |PdosEntries(ps)|] == PdosEntries(ps)
    ensures ReadPdos(PdoInfos(ps, base), entries) == PdoTrees(ps)
  {
    hide EntryInfos, EntryRecs;
    if ps != [] {
      var own, all := EntryInfos(ps[0].entries), PdosEntries(ps);
      var n := |own|;
      EntryInfosAre(ps[0].entries);
      assert all[..n] == own && all[n..] == PdosEntries(ps[1..]);
      assert entries[base..base + |all|][..n] == entries[base..base + n];
      assert entries[base..base + |all|][n..] == entries[base + n..base + |all|];
      assert Slice(entries, Pointer(n, base), n) == own;
      ReadPdosBack(ps[1..], base + n, entries);
    }
  }

  /** Nothing that has been written is moved or changed later. */
  predicate Extends(w: Work, u: Work) {
    w.syncs <= u.syncs && w.pdos <= u.pdos && w.entries <= u.entries
  }

  lemma {:induction false} SdosOnly(w: Work, sdos: seq<Sdo>, z: Sizes)
    requires z.Valid()
    ensures AddSdos(w, sdos, z) == w.(sdo := AddSdos(w, sdos, z).sdo)
    decreases |sdos|
  {
    if sdos != [] {
      SdosOnly(AddSdo(w, sdos[0], z), sdos[1..], z);
    }
  }

  lemma {:induction false} ChildrenExtend(w: Work, cs: seq<Child>, z: Sizes)
    requires z.Valid()
    ensures Extends(w, AddChildren(w, cs, z))
    decreases |cs|
  {
    if cs != [] {
      if cs[0].InitCmds? {
        SdosOnly(w, SdosOf(cs[0].cmds), z);
      }
      ChildrenExtend(AddChild(w, cs[0], z), cs[1..], z);
    }
  }

  /** A sync manager is read back from any memory that extends the one it was written to. */
  lemma ReadSmBack(w: Work, sm: Sm, full: Work)
    requires Extends(AddSm(w, sm), full)
    ensures ReadSyncs([full.syncs[|w.syncs|]], full.pdos, full.entries)
         == [SmTree(sm.index, sm.dir, PdoTrees(sm.pdos))]
  {
    hide PdosEntries, PdoInfos, PdosPins, PdoTrees, ReadPdos;
    var u, n, base := AddSm(w, sm), |sm.pdos|, |w.entries|;
    assert full.syncs[|w.syncs|] == u.syncs[|w.syncs|] == SyncInfo(sm.index, sm.dir, n, Pointer(n, |w.pdos|));
    assert full.pdos[|w.pdos|..|w.pdos| + n] == u.pdos[|w.pdos|..] == PdoInfos(sm.pdos, base);
    assert Slice(full.pdos, Pointer(n, |w.pdos|), n) == PdoInfos(sm.pdos, base);
    assert full.entries[base..base + |PdosEntries(sm.pdos)|] == u.entries[base..] == PdosEntries(sm.pdos);
    ReadPdosBack(sm.pdos, base, full.entries);
  }

  lemma ReadSyncsSplit(syncs: seq<SyncInfo>, at: nat, pdos: seq<PdoInfo>, entries: seq<EntryInfo>)
    requires at < |syncs|
    ensures ReadSyncs(syncs[at..], pdos, entries)
         == ReadSyncs([syncs[at]], pdos, entries) + ReadSyncs(syncs[at + 1..], pdos, entries)
  {
  }

  lemma {:induction false} ReadBack(w: Work, cs: seq<Child>, z: Sizes)
    requires z.Valid()
    ensures var full := AddChildren(w, cs, z);
      && |w.syncs| <= |full.syncs|
      && ReadSyncs(full.syncs[|w.syncs|..], full.pdos, full.entries) == SmTrees(cs)
    decreases |cs|
  {
    hide ReadSyncs, PdosEntries, PdoInfos, PdosPins, PdoTrees;
    var full := AddChildren(w, cs, z);
    ChildrenExtend(w, cs, z);
    if cs == [] {
      assert full.syncs[|w.syncs|..] == [];
      ReadNothing(full.pdos, full.entries);
    } else {
      var u := AddChild(w, cs[0], z);
      ReadBack(u, cs[1..], z);
      ChildrenExtend(u, cs[1..], z);
      if cs[0].SmChild? {
        ReadSmBack(w, cs[0].sm, full);
        ReadSyncsSplit(full.syncs, |w.syncs|, full.pdos, full.entries);
      } else if cs[0].InitCmds? {
        SdosOnly(w, SdosOf(cs[0].cmds), z);
      }
      assert cs[0].SmChild? || SmTrees(cs) == [] + SmTrees(cs[1..]) == SmTrees(cs[1..]);
    }
  }

  lemma ReadNothing(pdos: seq<PdoInfo>, entries: seq<EntryInfo>)
    ensures ReadSyncs([], pdos, entries) == []
  {
  }

  lemma {:induction false} PinsBack(w: Work, cs: seq<Child>, z: Sizes)
    requires z.Valid()
    ensures AddChildren(w, cs, z).pins == w.pins + ChildrenPins(cs)
    decreases |cs|
  {
    hide PdosEntries, PdoInfos, PdosPins;
    if cs != [] {
      var u := AddChild(w, cs[0], z);
      PinsBack(u, cs[1..], z);
      if cs[0].InitCmds? {
        SdosOnly(w, SdosOf(cs[0].cmds), z);
      }
      var own := if cs[0].SmChild? then PdosPins(cs[0].sm.pdos, HalDirOf(cs[0].sm.dir)) else [];
      assert u.pins == w.pins + own;
      Assoc(w.pins, own, ChildrenPins(cs[1..]));
    }
  }

  function Records(sdos: seq<Sdo>, z: Sizes): seq<Slot>
    requires z.Valid()
  {
    if sdos == [] then []
    else Record(sdos[0].index, sdos[0].subindex, Joined(sdos[0].pieces), z) + Records(sdos[1..], z)
  }

  lemma {:induction false} AddSdosRecords(w: Work, sdos: seq<Sdo>, z: Sizes)
    requires z.Valid()
    ensures AddSdos(w, sdos, z).sdo == w.sdo + Records(sdos, z)
    decreases |sdos|
  {
    hide Record, Joined;
    if sdos != [] {
      AddSdosRecords(AddSdo(w, sdos[0], z), sdos[1..], z);
      Assoc(w.sdo, Record(sdos[0].index, sdos[0].subindex, Joined(sdos[0].pieces), z), Records(sdos[1..], z));
    }
  }

  lemma {:induction false} RecordsAppend(a: seq<Sdo>, b: seq<Sdo>, z: Sizes)
    requires z.Valid()
    ensures Records(a + b, z) == Records(a, z) + Records(b, z)
    decreases |a|
  {
    hide Record;
    if a == [] {
      assert a + b == b;
    } else {
      assert (a + b)[1..] == a[1..] + b;
      RecordsAppend(a[1..], b, z);
      Assoc(Record(a[0].index, a[0].subindex, Joined(a[0].pieces), z), Records(a[1..], z), Records(b, z));
    }
  }

  lemma {:induction false} SdoBack(w: Work, cs: seq<Child>, z: Sizes)
    requires z.Valid()
    ensures AddChildren(w, cs, z).sdo == w.sdo + Records(ChildrenSdos(cs), z)
    decreases |cs|
  {
    hide Record, Joined, PdosEntries, PdoInfos, PdosPins;
    if cs != [] {
      var own := match cs[0] case SmChild(_) => [] case SdoChild(x) => [x] case InitCmds(cmds) => SdosOf(cmds);
      var u := AddChild(w, cs[0], z);
      SdoBack(u, cs[1..], z);
      RecordsAppend(own, ChildrenSdos(cs[1..]), z);
      AddSdosRecords(w, own, z);
      if cs[0].SdoChild? {
        assert own[1..] == [] && AddSdos(w, own, z) == AddSdo(w, own[0], z);
      }
      Assoc(w.sdo, Records(own, z), Records(ChildrenSdos(cs[1..]), z));
    }
  }

  /** One step of the walk, wherever the record lies. */
  lemma WalkRecord(before: seq<Slot>, index: int, subindex: int, data: seq<int>, tail: seq<Slot>, z: Sizes)
    requires z.Valid() && index != 0xffff
    ensures
      var rec := Record(index, subindex, data, z);
      var rest := Walk(before + rec + tail, |before + rec|, z);
      Walk(before + rec + tail, |before|, z)
        == if rest == None then None else Some([SdoRec(index, subindex, data)] + rest.value)
  {
    var rec := Record(index, subindex, data, z);
    var a, from := before + rec + tail, |before| + z.slave;
    assert a[|before|] == rec[0];
    assert a[from..from + |data|] == rec[z.slave..] == DataSlots(data);
    assert DataOf(DataSlots(data)) == data;
  }

  lemma {:induction false} WalkBack(before: seq<Slot>, sdos: seq<Sdo>, tail: seq<Slot>, z: Sizes)
    requires z.Valid() && GoodSdos(sdos)
    ensures Walk(before + Records(sdos, z) + [Stop] + tail, |before|, z) == Some(SdoRecs(sdos))
    decreases |sdos|
  {
    if sdos == [] {
      assert (before + [] + [Stop] + tail)[|before|] == Stop;
    } else {
      WalkFirst(before, sdos, tail, z);
    }
  }

  lemma WalkFirst(before: seq<Slot>, sdos: seq<Sdo>, tail: seq<Slot>, z: Sizes)
    requires z.Valid() && GoodSdos(sdos) && sdos != []
    ensures Walk(before + Records(sdos, z) + [Stop] + tail, |before|, z) == Some(SdoRecs(sdos))
    decreases |sdos|, 0
  {
    hide Walk, Record, Joined;
    var data := Joined(sdos[0].pieces);
    var rec, more := Record(sdos[0].index, sdos[0].subindex, data, z), Records(sdos[1..], z) + [Stop] + tail;
    assert before + Records(sdos, z) + [Stop] + tail == before + rec + more;
    assert before + rec + Records(sdos[1..], z) + [Stop] + tail == before + rec + more;
    WalkRecord(before, sdos[0].index, sdos[0].subindex, data, more, z);
    WalkBack(before + rec, sdos[1..], tail, z);
  }

  lemma {:induction false} ChildrenSdosGood(cs: seq<Child>, generic: bool)
    requires GoodChildren(cs, generic)
    ensures GoodSdos(ChildrenSdos(cs))
  {
    if cs != [] {
      var own := match cs[0] case SmChild(_) => [] case SdoChild(x) => [x] case InitCmds(cmds) => SdosOf(cmds);
      ChildrenSdosGood(cs[1..], generic);
      if cs[0].InitCmds? {
        SdosOfGood(cs[0].cmds);
      }
      GoodSdosAppend(own, ChildrenSdos(cs[1..]));
    }
  }

  lemma {:induction false} SdosOfGood(cs: seq<Cmd>)
    requires GoodCmds(cs)
    ensures GoodSdos(SdosOf(cs))
  {
    if cs != [] {
      SdosOfGood(cs[1..]);
      assert SdosOf(cs)[1..] == SdosOf(cs[1..]);
    }
  }

  lemma {:induction false} GoodSdosAppend(a: seq<Sdo>, b: seq<Sdo>)
    requires GoodSdos(a) && GoodSdos(b)
    ensures GoodSdos(a + b)
  {
    if a == [] {
      assert a + b == b;
    } else {
      assert (a + b)[1..] == a[1..] + b;
      GoodSdosAppend(a[1..], b);
    }
  }

  /** Header and data of every SDO record. */
  function SdoBytes(sdos: seq<Sdo>, z: Sizes): nat {
    if sdos == [] then 0 else z.conf + |Joined(sdos[0].pieces)| + SdoBytes(sdos[1..], z)
  }

  lemma {:induction false} SdoBytesAppend(a: seq<Sdo>, b: seq<Sdo>, z: Sizes)
    ensures SdoBytes(a + b, z) == SdoBytes(a, z) + SdoBytes(b, z)
  {
    if a == [] {
      assert a + b == b;
    } else {
      assert (a + b)[1..] == a[1..] + b;
      SdoBytesAppend(a[1..], b, z);
    }
  }

  lemma {:induction false} SdosCountsBytes(sdos: seq<Sdo>, z: Sizes)
    ensures SdosCounts(sdos, z).sdoLength == SdoBytes(sdos, z)
  {
    if sdos != [] {
      SdosCountsBytes(sdos[1..], z);
    }
  }

  /** Both producers together plan one header and the data for every SDO setting of the slave. */
  lemma {:induction false} SdoPlan(cs: seq<Child>, z: Sizes)
    ensures ChildrenCounts(cs, z).sdoLength == SdoBytes(ChildrenSdos(cs), z)
  {
    if cs != [] {
      var own := match cs[0] case SmChild(_) => [] case SdoChild(x) => [x] case InitCmds(cmds) => SdosOf(cmds);
      SdoPlan(cs[1..], z);
      SdoBytesAppend(own, ChildrenSdos(cs[1..]), z);
      match cs[0]
      case SmChild(sm) => PdosSize(sm.pdos, Unspecified);
      case SdoChild(x) => assert own[1..] == [];
      case InitCmds(cmds) => SdosCountsBytes(SdosOf(cmds), z);
    }
  }

  // --- one slave ---

  /** A slave and its master's period. */
  datatype Placed = Placed(slave: Slave, period: nat)

  function UnitOf(p: Placed): Unit {
    var cycle := CycleOf(p.slave.attrs.cycle, p.period);
    Unit(p.slave.attrs.unit, if cycle == None then 0 else cycle.value)
  }

  /** The cycle that a slave's attribute means: the master's period, a multiple of it, or nanoseconds. */
  ghost predicate CycleIs(time: int, c: Cycle, period: nat) {
    && time > 0 && period > 0 && time % period == 0
    && match c
       case Default => time == period
       case Times(n) => Congruent(time, n * period, TWO_32) && (0 < n * period < TWO_31 ==> time == n * period)
       case Nanoseconds(n) => time == n
  }

  lemma CycleOfIs(c: Cycle, period: nat)
    requires CycleOf(c, period) != None
    ensures CycleIs(CycleOf(c, period).value, c, period)
  {
    if c.Times? {
      var x := c.n * period;
      S32Congruent(U32(x));
      U32Congruent(x);
      CongruentTrans(S32(U32(x)), U32(x), x, TWO_32);
    }
  }

  function WorkOf(p: Placed, z: Sizes): Work
    requires z.Valid()
  {
    var s := p.slave;
    AddChildren(Fresh(s.attrs.kind == Generic, UnitOf(p), ChildrenCounts(s.children, z)), s.children, z)
  }

  /** What the memory of a slave has to hold. */
  ghost predicate Holds(w: Work, p: Placed, z: Sizes)
    requires z.Valid()
  {
    var cs := p.slave.children;
    var planned := ChildrenCounts(cs, z);
    && w.generic == (p.slave.attrs.kind == Generic) && w.cap == planned
    && w.unit.name == p.slave.attrs.unit && CycleIs(w.unit.cycle, p.slave.attrs.cycle, p.period)
    && |w.syncs| == planned.sms && |w.pdos| == planned.pdos
    && |w.entries| == planned.entries && |w.pins| == planned.pins
    && |w.sdo| <= planned.sdoLength && (z.conf == z.slave ==> |w.sdo| == planned.sdoLength)
    && ReadSyncs(w.syncs, w.pdos, w.entries) == SmTrees(cs)
    && PinsOfDocument(w.pins, cs)
    && forall tail :: Walk(w.sdo + [Stop] + tail, 0, z) == Some(SdoRecs(ChildrenSdos(cs)))
  }

  lemma UnitOfGood(p: Placed)
    requires GoodSlave(p.slave, p.period)
    ensures UnitOf(p) == Unit(p.slave.attrs.unit, CycleOf(p.slave.attrs.cycle, p.period).value)
  {
  }

  lemma SlaveMemory(p: Placed, z: Sizes)
    requires z.Valid() && GoodSlave(p.slave, p.period)
    ensures Holds(WorkOf(p, z), p, z)
  {
    hide AddChildren, ChildrenCounts, ReadSyncs, SmTrees, ChildrenPins, Walk, SdoRecs, ChildrenSdos, Records,
         GoodSdos, GoodChildren, UnitOf, CycleOf, CycleIs, PinsOfDocument;
    var cs, generic := p.slave.children, p.slave.attrs.kind == Generic;
    CycleOfIs(p.slave.attrs.cycle, p.period);
    UnitOfGood(p);
    var none := Fresh(generic, UnitOf(p), ChildrenCounts(cs, z));
    var w := WorkOf(p, z);
    ChildrenGrew(none, cs, z);
    ReadBack(none, cs, z);
    assert w.syncs[0..] == w.syncs;
    PinsBack(none, cs, z);
    assert [] + ChildrenPins(cs) == ChildrenPins(cs);
    PinsAreOfDocument(cs);
    SdoBack(none, cs, z);
    ChildrenSdosGood(cs, generic);
    assert [] + Records(ChildrenSdos(cs), z) == w.sdo;
    forall tail
      ensures Walk(w.sdo + [Stop] + tail, 0, z) == Some(SdoRecs(ChildrenSdos(cs)))
    {
      WalkBack([], ChildrenSdos(cs), tail, z);
    }
  }
}
