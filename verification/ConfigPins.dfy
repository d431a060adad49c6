/**
 The pins of a slave: which ones its document asks for, in order, and what the loader has to write for
 each of them, said in terms of the document alone.
 */
module ConfigPins {
  import opened ConfigFormat
  import opened ConfigParser
  import opened Options

  // --- the places of a document that ask for a pin ---

  /** The entry of a PDO of a sync manager, itself (part 0) or its part with that number, from 1. */
  datatype Spot = Spot(child: nat, pdo: nat, entry: nat, part: nat)

  predicate InDocument(s: Spot, cs: seq<Child>) {
    && s.child < |cs| && cs[s.child].SmChild?
    && s.pdo < |cs[s.child].sm.pdos|
    && s.entry < |cs[s.child].sm.pdos[s.pdo].entries|
    && s.part <= |cs[s.child].sm.pdos[s.pdo].entries[s.entry].parts|
  }

  function EntryAt(s: Spot, cs: seq<Child>): Entry
    requires InDocument(s, cs)
  {
    cs[s.child].sm.pdos[s.pdo].entries[s.entry]
  }

  function PinAt(s: Spot, cs: seq<Child>): Pin
    requires InDocument(s, cs)
  {
    if s.part == 0 then EntryAt(s, cs).pin else EntryAt(s, cs).parts[s.part - 1].pin
  }

  /** The place asks for a pin. */
  predicate Named(s: Spot, cs: seq<Child>) {
    InDocument(s, cs) && PinAt(s, cs).name != ""
  }

  /**
   The pin of a place: an input sync manager gives HAL an output and an output sync manager an input; the
   PDO entry is the one the place is in, and a part starts behind the bits of the parts before it.
   */
  predicate IsPinOf(info: PinInfo, s: Spot, cs: seq<Child>) {
    && Named(s, cs) && info.pin == PinAt(s, cs)
    && info.dir == (if cs[s.child].sm.dir == Input then HalOut else HalIn)
    && var e := EntryAt(s, cs);
       && info.pdoIndex == e.index && info.pdoSubindex == e.subindex
       && (s.part == 0 ==> info.bitOffset == 0 && info.bitLength == e.bitLength)
       && (s.part > 0 ==>
         info.bitOffset == BitsBefore(e.parts, s.part - 1) && info.bitLength == e.parts[s.part - 1].bitLength)
  }

  /** Document order. */
  predicate Before(s: Spot, t: Spot) {
    || s.child < t.child
    || (s.child == t.child && s.pdo < t.pdo)
    || (s.child == t.child && s.pdo == t.pdo && s.entry < t.entry)
    || (s.child == t.child && s.pdo == t.pdo && s.entry == t.entry && s.part < t.part)
  }

  /** These pins are those of the document: one for each place that asks for one, in order. */
  ghost predicate PinsOfDocument(pins: seq<PinInfo>, cs: seq<Child>) {
    exists spots: seq<Spot> :: PinsAt(pins, spots, cs) && InOrder(spots) && (forall s :: Named(s, cs) ==> s in spots)
  }

  ghost predicate PinsAt(pins: seq<PinInfo>, spots: seq<Spot>, cs: seq<Child>) {
    |spots| == |pins| && forall i :: 0 <= i < |pins| ==> IsPinOf(pins[i], spots[i], cs)
  }

  ghost predicate InOrder(spots: seq<Spot>) {
    forall i, j :: 0 <= i < j < |spots| ==> Before(spots[i], spots[j])
  }

  // --- the pins as the tokens bring them ---

  function PartPins(parts: seq<Complex>, offset: int, dir: HalDir, index: int, subindex: int): seq<PinInfo> {
    if parts == [] then []
    else
      PinOf(parts[0].pin, offset, parts[0].bitLength, dir, index, subindex)
      + PartPins(parts[1..], offset + parts[0].bitLength, dir, index, subindex)
  }

  function EntryPins(e: Entry, dir: HalDir): seq<PinInfo> {
    PinOf(e.pin, 0, e.bitLength, dir, e.index, e.subindex) + PartPins(e.parts, 0, dir, e.index, e.subindex)
  }

  function EntriesPins(es: seq<Entry>, dir: HalDir): seq<PinInfo> {
    if es == [] then [] else EntryPins(es[0], dir) + EntriesPins(es[1..], dir)
  }

  function PdosPins(ps: seq<Pdo>, dir: HalDir): seq<PinInfo> {
    if ps == [] then [] else EntriesPins(ps[0].entries, dir) + PdosPins(ps[1..], dir)
  }

  /** The pins of the sync managers in document order. */
  function ChildrenPins(cs: seq<Child>): seq<PinInfo> {
    if cs == [] then []
    else (if cs[0].SmChild? then PdosPins(cs[0].sm.pdos, HalDirOf(cs[0].sm.dir)) else []) + ChildrenPins(cs[1..])
  }

  // --- and why they are those of the document ---

  /** A stretch of the places from first up to, but not including, last. */
  ghost predicate Covers(pins: seq<PinInfo>, spots: seq<Spot>, first: Spot, last: Spot, cs: seq<Child>) {
    && PinsAt(pins, spots, cs) && InOrder(spots)
    && (forall s :: s in spots ==> !Before(s, first) && Before(s, last))
    && (forall s :: Named(s, cs) && !Before(s, first) && Before(s, last) ==> s in spots)
  }

  lemma CoversJoin(
    a: seq<PinInfo>, b: seq<PinInfo>, s: seq<Spot>, t: seq<Spot>, first: Spot, middle: Spot, last: Spot, cs: seq<Child>)
    requires Covers(a, s, first, middle, cs) && Covers(b, t, middle, last, cs)
    requires !Before(middle, first) && !Before(last, middle)
    ensures Covers(a + b, s + t, first, last, cs)
  {
    hide IsPinOf, Named;
    PinsAtJoin(a, b, s, t, cs);
    forall i, j | 0 <= i < j < |s + t|
      ensures Before((s + t)[i], (s + t)[j])
    {
      if i < |s| <= j {
        assert s[i] in s && t[j - |s|] in t;
      }
    }
    forall x | x in s + t
      ensures !Before(x, first) && Before(x, last)
    {
      assert x in s || x in t;
    }
  }

  lemma PinsAtJoin(a: seq<PinInfo>, b: seq<PinInfo>, s: seq<Spot>, t: seq<Spot>, cs: seq<Child>)
    requires PinsAt(a, s, cs) && PinsAt(b, t, cs)
    ensures PinsAt(a + b, s + t, cs)
  {
    hide IsPinOf;
  }

  /** Nothing lies between, or at least nothing that asks for a pin. */
  lemma CoversNothing(first: Spot, last: Spot, cs: seq<Child>)
    requires forall s :: Named(s, cs) && !Before(s, first) ==> !Before(s, last)
    ensures Covers([], [], first, last, cs)
  {
  }

  /** One place: it brings a pin or asks for none. */
  lemma CoversOne(s: Spot, cs: seq<Child>, offset: int, length: int, dir: HalDir) returns (spots: seq<Spot>)
    requires InDocument(s, cs) && dir == (if cs[s.child].sm.dir == Input then HalOut else HalIn)
    requires s.part == 0 ==> offset == 0 && length == EntryAt(s, cs).bitLength
    requires s.part > 0 ==>
      && offset == BitsBefore(EntryAt(s, cs).parts, s.part - 1)
      && length == EntryAt(s, cs).parts[s.part - 1].bitLength
    ensures var e := EntryAt(s, cs);
      Covers(PinOf(PinAt(s, cs), offset, length, dir, e.index, e.subindex), spots, s, s.(part := s.part + 1), cs)
  {
    spots := if PinAt(s, cs).name == "" then [] else [s];
    forall x | !Before(x, s) && Before(x, s.(part := s.part + 1))
      ensures x == s
    {
    }
  }

  /** The parts of an entry from the k-th on. */
  lemma {:induction false} CoversParts(s: Spot, cs: seq<Child>, k: nat, dir: HalDir) returns (spots: seq<Spot>)
    requires InDocument(s, cs) && dir == (if cs[s.child].sm.dir == Input then HalOut else HalIn)
    requires k <= |EntryAt(s, cs).parts|
    ensures var e := EntryAt(s, cs);
      Covers(PartPins(e.parts[k..], BitsBefore(e.parts, k), dir, e.index, e.subindex), spots,
        s.(part := k + 1), s.(part := |e.parts| + 1), cs)
    decreases |EntryAt(s, cs).parts| - k
  {
    hide Covers, PinOf;
    var e := EntryAt(s, cs);
    if k == |e.parts| {
      spots := [];
      CoversNothing(s.(part := k + 1), s.(part := k + 1), cs);
    } else {
      var here := s.(part := k + 1);
      var first := CoversOne(here, cs, BitsBefore(e.parts, k), e.parts[k].bitLength, dir);
      var more := CoversParts(s, cs, k + 1, dir);
      assert e.parts[k..][1..] == e.parts[k + 1..];
      spots := first + more;
      CoversJoin(PinOf(e.parts[k].pin, BitsBefore(e.parts, k), e.parts[k].bitLength, dir, e.index, e.subindex),
        PartPins(e.parts[k + 1..], BitsBefore(e.parts, k + 1), dir, e.index, e.subindex),
        first, more, here, s.(part := k + 2), s.(part := |e.parts| + 1), cs);
    }
  }

  lemma CoversEntry(s: Spot, cs: seq<Child>, dir: HalDir) returns (spots: seq<Spot>)
    requires InDocument(s, cs) && s.part == 0 && dir == (if cs[s.child].sm.dir == Input then HalOut else HalIn)
    ensures Covers(EntryPins(EntryAt(s, cs), dir), spots, s, s.(entry := s.entry + 1), cs)
  {
    hide Covers, PinOf;
    var e := EntryAt(s, cs);
    var own := CoversOne(s, cs, 0, e.bitLength, dir);
    var parts := CoversParts(s, cs, 0, dir);
    assert e.parts[0..] == e.parts;
    var end := s.(part := |e.parts| + 1);
    var a := PinOf(e.pin, 0, e.bitLength, dir, e.index, e.subindex);
    var b := PartPins(e.parts, 0, dir, e.index, e.subindex);
    CoversJoin(a, b, own, parts, s, s.(part := 1), end, cs);
    NothingBehindParts(s, cs);
    CoversJoin(a + b, [], own + parts, [], s, end, s.(entry := s.entry + 1), cs);
    assert a + b + [] == EntryPins(e, dir);
    spots := own + parts + [];
  }

  lemma NothingBehindParts(s: Spot, cs: seq<Child>)
    requires InDocument(s, cs) && s.part == 0
    ensures Covers([], [], s.(part := |EntryAt(s, cs).parts| + 1), s.(entry := s.entry + 1), cs)
  {
    CoversNothing(s.(part := |EntryAt(s, cs).parts| + 1), s.(entry := s.entry + 1), cs);
  }

  /** The entries of a PDO from the j-th on. */
  lemma {:induction false} CoversEntries(c: nat, p: nat, cs: seq<Child>, j: nat, dir: HalDir) returns (spots: seq<Spot>)
    requires c < |cs| && cs[c].SmChild? && p < |cs[c].sm.pdos| && j <= |cs[c].sm.pdos[p].entries|
    requires dir == (if cs[c].sm.dir == Input then HalOut else HalIn)
    ensures Covers(EntriesPins(cs[c].sm.pdos[p].entries[j..], dir), spots, Spot(c, p, j, 0), Spot(c, p + 1, 0, 0), cs)
    decreases |cs[c].sm.pdos[p].entries| - j
  {
    hide Covers, EntryPins;
    var es := cs[c].sm.pdos[p].entries;
    if j == |es| {
      spots := [];
      CoversNothing(Spot(c, p, j, 0), Spot(c, p + 1, 0, 0), cs);
    } else {
      var s := Spot(c, p, j, 0);
      var first := CoversEntry(s, cs, dir);
      var more := CoversEntries(c, p, cs, j + 1, dir);
      assert es[j..][1..] == es[j + 1..];
      spots := first + more;
      CoversJoin(EntryPins(es[j], dir), EntriesPins(es[j + 1..], dir), first, more,
        s, Spot(c, p, j + 1, 0), Spot(c, p + 1, 0, 0), cs);
    }
  }

  /** The PDOs of a sync manager from the p-th on. */
  lemma {:induction false} CoversPdos(c: nat, cs: seq<Child>, p: nat, dir: HalDir) returns (spots: seq<Spot>)
    requires c < |cs| && cs[c].SmChild? && p <= |cs[c].sm.pdos|
    requires dir == (if cs[c].sm.dir == Input then HalOut else HalIn)
    ensures Covers(PdosPins(cs[c].sm.pdos[p..], dir), spots, Spot(c, p, 0, 0), Spot(c + 1, 0, 0, 0), cs)
    decreases |cs[c].sm.pdos| - p
  {
    hide Covers, EntriesPins;
    var ps := cs[c].sm.pdos;
    if p == |ps| {
      spots := [];
      CoversNothing(Spot(c, p, 0, 0), Spot(c + 1, 0, 0, 0), cs);
    } else {
      var first := CoversEntries(c, p, cs, 0, dir);
      var more := CoversPdos(c, cs, p + 1, dir);
      assert ps[p..][1..] == ps[p + 1..] && ps[p].entries[0..] == ps[p].entries;
      spots := first + more;
      CoversJoin(EntriesPins(ps[p].entries, dir), PdosPins(ps[p + 1..], dir), first, more,
        Spot(c, p, 0, 0), Spot(c, p + 1, 0, 0), Spot(c + 1, 0, 0, 0), cs);
    }
  }

  /** The children of a slave from the c-th on. */
  lemma {:induction false} CoversChildren(cs: seq<Child>, c: nat) returns (spots: seq<Spot>)
    requires c <= |cs|
    ensures Covers(ChildrenPins(cs[c..]), spots, Spot(c, 0, 0, 0), Spot(|cs|, 0, 0, 0), cs)
    decreases |cs| - c
  {
    hide Covers, PdosPins;
    if c == |cs| {
      spots := [];
      CoversNothing(Spot(c, 0, 0, 0), Spot(c, 0, 0, 0), cs);
    } else {
      var own := if cs[c].SmChild? then PdosPins(cs[c].sm.pdos, HalDirOf(cs[c].sm.dir)) else [];
      var first := [];
      if cs[c].SmChild? {
        first := CoversPdos(c, cs, 0, HalDirOf(cs[c].sm.dir));
        assert cs[c].sm.pdos[0..] == cs[c].sm.pdos;
      } else {
        CoversNothing(Spot(c, 0, 0, 0), Spot(c + 1, 0, 0, 0), cs);
      }
      var more := CoversChildren(cs, c + 1);
      assert cs[c..][1..] == cs[c + 1..];
      spots := first + more;
      CoversJoin(own, ChildrenPins(cs[c + 1..]), first, more,
        Spot(c, 0, 0, 0), Spot(c + 1, 0, 0, 0), Spot(|cs|, 0, 0, 0), cs);
    }
  }

  /** The pins are those of the document, whatever its sync managers, PDOs, entries and parts. */
  lemma PinsAreOfDocument(cs: seq<Child>)
    ensures PinsOfDocument(ChildrenPins(cs), cs)
  {
    hide IsPinOf;
    var spots := CoversChildren(cs, 0);
    assert cs[0..] == cs;
    forall s | Named(s, cs)
      ensures s in spots
    {
      assert !Before(s, Spot(0, 0, 0, 0)) && Before(s, Spot(|cs|, 0, 0, 0));
    }
    assert PinsAt(ChildrenPins(cs), spots, cs);
  }
}
