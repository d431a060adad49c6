/**
 Whole documents on the loading side: when the sync units of the slaves agree, and that then, and only
 then, the stream of the document is read to its end.
 */
module ConfigDocument {
  import opened ConfigFormat
  import opened ConfigParser
  import opened ConfigRoundTrip
  import opened Options

  /** The slaves of a document, each with the period of its master. */
  function PlacedOf(ns: seq<Node>, period: nat): seq<Placed>
    decreases |ns|
  {
    if ns == [] then []
    else
      (if ns[0].SlaveNode? then [Placed(ns[0].slave, period)] else [])
      + PlacedOf(ns[1..], PeriodAfter(ns[0], period))
  }

  function Works(ps: seq<Placed>, z: Sizes): (r: seq<Work>)
    requires z.Valid()
    ensures |r| == |ps| && forall i :: 0 <= i < |r| ==> r[i] == WorkOf(ps[i], z)
  {
    seq(|ps|, i requires 0 <= i < |ps| => WorkOf(ps[i], z))
  }

  // --- which sync units a document asks for ---

  /** Both nodes are slaves of the same master. */
  ghost predicate SameMaster(ns: seq<Node>, i: int, j: int) {
    0 <= i <= j < |ns| && forall k :: i <= k <= j ==> ns[k].SlaveNode?
  }

  function PeriodAt(ns: seq<Node>, period: nat, i: nat): nat
    requires i <= |ns|
    decreases i
  {
    if i == 0 then period else PeriodAt(ns[1..], PeriodAfter(ns[0], period), i - 1)
  }

  /** The unit that the i-th node, a slave, asks its master for. */
  function UnitAt(ns: seq<Node>, period: nat, i: nat): Unit
    requires i < |ns| && ns[i].SlaveNode?
  {
    UnitOf(Placed(ns[i].slave, PeriodAt(ns, period, i)))
  }

  /** No two slaves of one master name the same unit with different cycles. */
  ghost predicate UnitsAgree(ns: seq<Node>, period: nat) {
    forall i: nat, j: nat :: SameMaster(ns, i, j) && UnitAt(ns, period, i).name == UnitAt(ns, period, j).name ==>
      UnitAt(ns, period, i).cycle == UnitAt(ns, period, j).cycle
  }

  /** The slaves of the master that is current in front of the document agree with its units. */
  ghost predicate AgreeWith(units: seq<Unit>, ns: seq<Node>, period: nat) {
    forall j: nat :: SameMaster(ns, 0, j) ==> Fits(units, UnitAt(ns, period, j))
  }

  predicate Fits(units: seq<Unit>, u: Unit) {
    Lookup(units, u.name) == None || Lookup(units, u.name) == Some(u.cycle)
  }

  /** What the loader does with the nodes in order. */
  ghost predicate Admits(ns: seq<Node>, master: Option<Bus>)
    decreases |ns|
  {
    ns == [] ||
    match ns[0]
    case MasterNode(m) => Admits(ns[1..], Some(Bus(PeriodOf(m), [])))
    case SlaveNode(s) =>
      && master != None
      && var bus := GetUnit(master.value, UnitOf(Placed(s, master.value.period)));
         bus != None && Admits(ns[1..], bus)
  }

  // --- the loader admits a document exactly when its units agree ---

  lemma {:induction false} LookupAppend(units: seq<Unit>, u: Unit, name: string)
    ensures Lookup(units + [u], name) ==
      if Lookup(units, name) != None then Lookup(units, name)
      else if u.name == name then Some(u.cycle) else None
  {
    if units != [] {
      assert (units + [u])[1..] == units[1..] + [u];
      LookupAppend(units[1..], u, name);
    } else {
      assert [u][1..] == [];
    }
  }

  /** The nodes behind the first one, with their places counted from it. */
  lemma UnitBehind(ns: seq<Node>, period: nat, i: nat)
    requires ns != [] && i + 1 < |ns| && ns[i + 1].SlaveNode?
    ensures UnitAt(ns, period, i + 1) == UnitAt(ns[1..], PeriodAfter(ns[0], period), i)
  {
  }

  lemma SameMasterBehind(ns: seq<Node>, i: nat, j: nat)
    requires ns != []
    ensures SameMaster(ns, i + 1, j + 1) <==> SameMaster(ns[1..], i, j)
    ensures SameMaster(ns, 0, j + 1) <==> ns[0].SlaveNode? && SameMaster(ns[1..], 0, j)
  {
  }

  /** The units after a slave has been given its own. */
  lemma GivenUnit(b: Bus, u: Unit, name: string)
    requires GetUnit(b, u) != None
    ensures Lookup(GetUnit(b, u).value.units, name) ==
      if Lookup(b.units, name) != None then Lookup(b.units, name)
      else if u.name == name then Some(u.cycle) else None
    ensures GetUnit(b, u).value.period == b.period
  {
    LookupAppend(b.units, u, name);
  }

  lemma AgreeBehindMaster(ns: seq<Node>, period: nat, units: seq<Unit>)
    requires ns != [] && ns[0].MasterNode?
    ensures AgreeWith(units, ns, period) && AgreeWith([], ns[1..], PeriodOf(ns[0].master))
    ensures UnitsAgree(ns, period) <==> UnitsAgree(ns[1..], PeriodOf(ns[0].master))
  {
    AgreeBehind(ns, period);
    if UnitsAgree(ns[1..], PeriodOf(ns[0].master)) {
      forall i: nat, j: nat | SameMaster(ns, i, j) && UnitAt(ns, period, i).name == UnitAt(ns, period, j).name
        ensures UnitAt(ns, period, i).cycle == UnitAt(ns, period, j).cycle
      {
        AgreePair(ns, period, i, j);
      }
    }
  }

  /** Agreement goes down to the rest of a document. */
  lemma AgreeBehind(ns: seq<Node>, period: nat)
    requires ns != []
    ensures UnitsAgree(ns, period) ==> UnitsAgree(ns[1..], PeriodAfter(ns[0], period))
  {
    var rest, after := ns[1..], PeriodAfter(ns[0], period);
    if UnitsAgree(ns, period) {
      forall i: nat, j: nat | SameMaster(rest, i, j) && UnitAt(rest, after, i).name == UnitAt(rest, after, j).name
        ensures UnitAt(rest, after, i).cycle == UnitAt(rest, after, j).cycle
      {
        SameMasterBehind(ns, i, j);
        UnitBehind(ns, period, i);
        UnitBehind(ns, period, j);
      }
    }
  }

  /** And up again for two slaves that are not the first. */
  lemma AgreePair(ns: seq<Node>, period: nat, i: nat, j: nat)
    requires ns != [] && 0 < i && UnitsAgree(ns[1..], PeriodAfter(ns[0], period))
    requires SameMaster(ns, i, j) && UnitAt(ns, period, i).name == UnitAt(ns, period, j).name
    ensures UnitAt(ns, period, i).cycle == UnitAt(ns, period, j).cycle
  {
    SameMasterBehind(ns, i - 1, j - 1);
    UnitBehind(ns, period, i - 1);
    UnitBehind(ns, period, j - 1);
  }

  lemma AgreeBehindSlave(ns: seq<Node>, b: Bus)
    requires ns != [] && ns[0].SlaveNode? && GetUnit(b, UnitAt(ns, b.period, 0)) != None
    requires UnitsAgree(ns, b.period) && AgreeWith(b.units, ns, b.period)
    ensures UnitsAgree(ns[1..], b.period)
    ensures AgreeWith(GetUnit(b, UnitAt(ns, b.period, 0)).value.units, ns[1..], b.period)
  {
    hide UnitAt, Lookup, GetUnit;
    var rest, u := ns[1..], UnitAt(ns, b.period, 0);
    var units := GetUnit(b, u).value.units;
    AgreeBehind(ns, b.period);
    forall j: nat | SameMaster(rest, 0, j)
      ensures Fits(units, UnitAt(rest, b.period, j))
    {
      SameMasterBehind(ns, 0, j);
      UnitBehind(ns, b.period, j);
      GivenUnit(b, u, UnitAt(rest, b.period, j).name);
    }
  }

  lemma AgreeFromSlave(ns: seq<Node>, b: Bus)
    requires ns != [] && ns[0].SlaveNode? && GetUnit(b, UnitAt(ns, b.period, 0)) != None
    requires UnitsAgree(ns[1..], b.period)
    requires AgreeWith(GetUnit(b, UnitAt(ns, b.period, 0)).value.units, ns[1..], b.period)
    ensures UnitsAgree(ns, b.period) && AgreeWith(b.units, ns, b.period)
  {
    hide UnitAt, Lookup;
    var rest, u := ns[1..], UnitAt(ns, b.period, 0);
    forall j: nat | SameMaster(ns, 0, j)
      ensures Fits(b.units, UnitAt(ns, b.period, j))
      ensures UnitAt(ns, b.period, j).name == u.name ==> UnitAt(ns, b.period, j).cycle == u.cycle
    {
      GivenUnit(b, u, UnitAt(ns, b.period, j).name);
      if j > 0 {
        SameMasterBehind(ns, 0, j - 1);
        UnitBehind(ns, b.period, j - 1);
      }
    }
    forall i: nat, j: nat | SameMaster(ns, i, j) && UnitAt(ns, b.period, i).name == UnitAt(ns, b.period, j).name
      ensures UnitAt(ns, b.period, i).cycle == UnitAt(ns, b.period, j).cycle
    {
      if i > 0 {
        AgreePair(ns, b.period, i, j);
      }
    }
  }

  lemma GetUnitIff(s: Slave, b: Bus)
    requires GoodSlave(s, b.period)
    ensures GetUnit(b, UnitOf(Placed(s, b.period))) != None <==> Fits(b.units, UnitOf(Placed(s, b.period)))
  {
  }

  /** The loader's step-by-step table of units amounts to the pairwise condition. */
  lemma {:induction false} AdmitsIff(ns: seq<Node>, b: Bus)
    requires GoodNodes(ns, b.period)
    ensures Admits(ns, Some(b)) <==> UnitsAgree(ns, b.period) && AgreeWith(b.units, ns, b.period)
    decreases |ns|
  {
    hide UnitsAgree, AgreeWith, GetUnit, UnitAt, UnitOf, GoodSlave;
    if ns == [] {
      NothingDisagrees(b);
    } else {
      match ns[0]
      case MasterNode(m) =>
        AdmitsIff(ns[1..], Bus(PeriodOf(m), []));
        AgreeBehindMaster(ns, b.period, b.units);
      case SlaveNode(s) =>
        var u := UnitOf(Placed(s, b.period));
        FirstUnit(ns, b.period);
        GetUnitIff(s, b);
        FirstFits(ns, b);
        if GetUnit(b, u) != None {
          GivenUnit(b, u, u.name);
          AdmitsIff(ns[1..], GetUnit(b, u).value);
          if Admits(ns, Some(b)) {
            AgreeFromSlave(ns, b);
          }
          if UnitsAgree(ns, b.period) && AgreeWith(b.units, ns, b.period) {
            AgreeBehindSlave(ns, b);
          }
        }
    }
  }

  lemma NothingDisagrees(b: Bus)
    ensures UnitsAgree([], b.period) && AgreeWith(b.units, [], b.period)
  {
  }

  lemma FirstUnit(ns: seq<Node>, period: nat)
    requires ns != [] && ns[0].SlaveNode?
    ensures UnitAt(ns, period, 0) == UnitOf(Placed(ns[0].slave, period))
  {
  }

  lemma FirstFits(ns: seq<Node>, b: Bus)
    requires ns != [] && ns[0].SlaveNode?
    ensures AgreeWith(b.units, ns, b.period) ==> Fits(b.units, UnitAt(ns, b.period, 0))
  {
    assert SameMaster(ns, 0, 0);
  }

  // --- the parser on whole documents ---

  lemma ParseMaster(s: State, m: MasterAttrs, rest: seq<Cell>, z: Sizes) returns (t: State)
    requires z.Valid()
    ensures Parse(s, Concat([[Tok(MasterToken(m))]]) + rest, z) == Parse(t, rest, z)
    ensures t.master == Some(Bus(PeriodOf(m), [])) && Slaves(t) == Slaves(s)
  {
    hide Parse, Concat, SyncMode;
    ParseChunk(s, MasterToken(m), [], rest, z);
    ConcatNone(rest);
    t := s.(master := Some(Bus(PeriodOf(m), [])));
    assert [[Tok(MasterToken(m))]] + [] == [[Tok(MasterToken(m))]];
  }

  lemma SlaveStep(s: State, b: Bus, n: Slave, counts: Counts, z: Sizes)
    requires z.Valid() && s.master == Some(b)
    ensures var p := Placed(n, b.period);
      var t := SlaveToken(n.attrs, b.period, counts);
      && !t.TEnd? && !t.TSdo?
      && Step(s, t, [], z) == (
           if GetUnit(b, UnitOf(p)) == None then Rejected
           else Ok(s.(master := GetUnit(b, UnitOf(p)), done := Slaves(s),
                      cur := Some(Fresh(n.attrs.kind == Generic, UnitOf(p), counts)))))
  {
  }

  lemma ParseSlave(s: State, b: Bus, n: Slave, rest: seq<Cell>, z: Sizes) returns (t: State)
    requires z.Valid() && s.master == Some(b) && GoodSlave(n, b.period)
    requires GetUnit(b, UnitOf(Placed(n, b.period))) != None
    ensures Parse(s, Concat(NodeChunks(SlaveNode(n), b.period, z)) + rest, z) == Parse(t, rest, z)
    ensures t.master == GetUnit(b, UnitOf(Placed(n, b.period)))
    ensures Slaves(t) == Slaves(s) + [WorkOf(Placed(n, b.period), z)]
  {
    hide Parse, Concat, ChildrenChunks, ChildrenCounts, AddChildren, GoodChildren, GetUnit, UnitOf, CycleOf,
         SlaveToken, Step;
    var counts := ChildrenCounts(n.children, z);
    SlaveStep(s, b, n, counts, z);
    ParseChunk(s, SlaveToken(n.attrs, b.period, counts), ChildrenChunks(n.children), rest, z);
    var u := Step(s, SlaveToken(n.attrs, b.period, counts), [], z).state;
    var last := ParseChildren(u, u.cur.value, n.children, rest, z);
    t := u.(cur := Some(WorkOf(Placed(n, b.period), z)), last := last);
  }

  /** A slave whose unit is refused ends the parse. */
  lemma ParseRefused(s: State, n: Slave, period: nat, rest: seq<Cell>, z: Sizes)
    requires z.Valid() && !Admits([SlaveNode(n)], s.master)
    requires s.master != None ==> s.master.value.period == period
    ensures Parse(s, Concat(NodeChunks(SlaveNode(n), period, z)) + rest, z) == Rejected
  {
  }

  lemma WorksOfOne(p: Placed, ps: seq<Placed>, z: Sizes)
    requires z.Valid()
    ensures Works([p] + ps, z) == [WorkOf(p, z)] + Works(ps, z)
  {
    hide WorkOf;
  }

  lemma PlacedOfMore(ns: seq<Node>, period: nat)
    requires ns != []
    ensures var ps := PlacedOf(ns[1..], PeriodAfter(ns[0], period));
      PlacedOf(ns, period) == if ns[0].SlaveNode? then [Placed(ns[0].slave, period)] + ps else ps
  {
  }

  /** The memories behind the first node, with those of the nodes before in front. */
  lemma WorksOfMore(before: seq<Work>, ns: seq<Node>, period: nat, z: Sizes)
    requires z.Valid() && ns != []
    ensures var more := Works(PlacedOf(ns[1..], PeriodAfter(ns[0], period)), z);
      before + Works(PlacedOf(ns, period), z) ==
        if ns[0].SlaveNode? then before + [WorkOf(Placed(ns[0].slave, period), z)] + more else before + more
  {
    hide *;
    var ps := PlacedOf(ns[1..], PeriodAfter(ns[0], period));
    PlacedOfMore(ns, period);
    if ns[0].SlaveNode? {
      WorksOfOne(Placed(ns[0].slave, period), ps, z);
      Assoc(before, [WorkOf(Placed(ns[0].slave, period), z)], Works(ps, z));
    }
  }

  /** The tokens of a document whose elements are good: read to the end, or rejected at the first unit that clashes. */
  lemma {:induction false} ParseNodes(s: State, ns: seq<Node>, period: nat, z: Sizes) returns (t: State)
    requires z.Valid() && GoodNodes(ns, period)
    requires s.master != None ==> s.master.value.period == period
    ensures var r := Parse(s, Concat(NodesChunks(ns, period, z)) + [Tok(TEnd)], z);
      if Admits(ns, s.master) then r == Ok(t) && Slaves(t) == Slaves(s) + Works(PlacedOf(ns, period), z)
      else r == Rejected
    decreases |ns|
  {
    t := s;
    if ns == [] {
      ConcatNone([Tok(TEnd)]);
    } else {
      t := ParseMore(s, ns, period, z);
    }
  }

  lemma ParseMore(s: State, ns: seq<Node>, period: nat, z: Sizes) returns (t: State)
    requires z.Valid() && GoodNodes(ns, period) && ns != []
    requires s.master != None ==> s.master.value.period == period
    ensures var r := Parse(s, Concat(NodesChunks(ns, period, z)) + [Tok(TEnd)], z);
      if Admits(ns, s.master) then r == Ok(t) && Slaves(t) == Slaves(s) + Works(PlacedOf(ns, period), z)
      else r == Rejected
    decreases |ns|, 0
  {
    hide Parse, Concat, NodeChunks, Works, WorkOf, PlacedOf, GoodSlave, Slaves, GetUnit, UnitOf, SyncMode, MasterToken;
    WorksOfMore(Slaves(s), ns, period, z);
    var after := PeriodAfter(ns[0], period);
    var rest := Concat(NodesChunks(ns[1..], after, z)) + [Tok(TEnd)];
    ConcatRest(NodeChunks(ns[0], period, z), NodesChunks(ns[1..], after, z), [Tok(TEnd)]);
    t := s;
    match ns[0]
    case MasterNode(m) =>
      ChunksOfMaster(m, period, z);
      t := ParseMaster(s, m, rest, z);
      t := ParseNodes(t, ns[1..], after, z);
    case SlaveNode(n) =>
      AdmitsOne(n, s.master);
      if Admits([ns[0]], s.master) {
        UnitKeepsPeriod(s.master.value, UnitOf(Placed(n, period)));
        t := ParseSlave(s, s.master.value, n, rest, z);
        t := ParseNodes(t, ns[1..], after, z);
      } else {
        ParseRefused(s, n, period, rest, z);
      }
  }

  lemma ChunksOfMaster(m: MasterAttrs, period: nat, z: Sizes)
    ensures NodeChunks(MasterNode(m), period, z) == [[Tok(MasterToken(m))]]
  {
  }

  lemma AdmitsOne(n: Slave, master: Option<Bus>)
    ensures Admits([SlaveNode(n)], master)
      <==> master != None && GetUnit(master.value, UnitOf(Placed(n, master.value.period))) != None
  {
  }

  lemma UnitKeepsPeriod(b: Bus, u: Unit)
    requires GetUnit(b, u) != None
    ensures GetUnit(b, u).value.period == b.period
  {
  }

  // --- the main results ---

  /** Every slave of the document has its memory, in document order. */
  ghost predicate AllHold(works: seq<Work>, ns: seq<Node>, z: Sizes)
    requires z.Valid()
  {
    && |works| == |PlacedOf(ns, 0)|
    && forall i :: 0 <= i < |works| ==> Holds(works[i], PlacedOf(ns, 0)[i], z)
  }

  lemma {:induction false} PlacedGood(ns: seq<Node>, period: nat, i: nat)
    requires GoodNodes(ns, period) && i < |PlacedOf(ns, period)|
    ensures var p := PlacedOf(ns, period)[i]; GoodSlave(p.slave, p.period)
    decreases |ns|
  {
    if !(ns[0].SlaveNode? && i == 0) {
      PlacedGood(ns[1..], PeriodAfter(ns[0], period), if ns[0].SlaveNode? then i - 1 else i);
    }
  }

  /** A document that begins with a master is admitted exactly when its units agree. */
  lemma AdmitsDocument(ns: seq<Node>)
    requires GoodNodes(ns, 0) && (ns == [] || ns[0].MasterNode?)
    ensures Admits(ns, None) <==> UnitsAgree(ns, 0)
  {
    hide UnitsAgree, AgreeWith;
    if ns == [] {
      NothingDisagrees(Bus(0, []));
    } else {
      AdmitsIff(ns[1..], Bus(PeriodOf(ns[0].master), []));
      AgreeBehindMaster(ns, 0, []);
    }
  }

  /**
   The round trip: the tokens of a document that the configuration program accepts are read to the end
   exactly when no two slaves of one master name the same sync unit with different cycles, and never
   with a write behind the planned memory. Then the memory of every slave, in order, is filled exactly,
   holds the slave's unit and tree, gives each pin its own sync manager's direction, and holds the SDO
   settings of both producers in document order.
   */
  lemma RoundTrip(ns: seq<Node>, z: Sizes) returns (t: State)
    requires z.Valid() && GoodNodes(ns, 0) && (ns == [] || ns[0].MasterNode?)
    ensures var r := Parse(INIT, Concat(NodesChunks(ns, 0, z)) + [Tok(TEnd)], z);
      if UnitsAgree(ns, 0) then r == Ok(t) && AllHold(Slaves(t), ns, z) else r == Rejected
  {
    hide Parse, WorkOf, Holds, Concat, NodesChunks, Admits, UnitsAgree;
    AdmitsDocument(ns);
    t := ParseNodes(INIT, ns, 0, z);
    if UnitsAgree(ns, 0) {
      var ps := PlacedOf(ns, 0);
      assert Slaves(t) == Works(ps, z);
      forall i | 0 <= i < |ps| ensures Holds(Slaves(t)[i], ps[i], z) {
        PlacedGood(ns, 0, i);
        SlaveMemory(ps[i], z);
      }
    }
  }

  /** The smallest document that is accepted and then rejected: one unit, once with twice the master's period. */
  const CLASH := [
    MasterNode(MasterAttrs(1_000_000, NotGiven, 0)),
    SlaveNode(Slave(SlaveAttrs(Known, "default", Default), [])),
    SlaveNode(Slave(SlaveAttrs(Known, "default", Times(2)), []))
  ]

  lemma ClashIsRejected(z: Sizes)
    requires z.Valid()
    ensures GoodNodes(CLASH, 0) && !UnitsAgree(CLASH, 0)
    ensures Parse(INIT, Concat(NodesChunks(CLASH, 0, z)) + [Tok(TEnd)], z) == Rejected
  {
    var ns := CLASH;
    assert CycleOf(Default, 1_000_000) == Some(1_000_000) && CycleOf(Times(2), 1_000_000) == Some(2_000_000);
    assert ns[1..] == [ns[1], ns[2]] && ns[1..][1..] == [ns[2]] && ns[1..][1..][1..] == [];
    assert SameMaster(ns, 1, 2);
    var t := RoundTrip(ns, z);
  }
}
