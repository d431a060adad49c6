/**
 Which documents the configuration program accepts, element by element and in numbers.
 */
module ConfigChecks {
  import opened CInt
  import opened ConfigFormat
  import opened ConfigEvents
  import opened Options

  /** A scale or an offset needs a float pin; every part has 1 to 32 bits, and together they fit the entry. */
  ghost predicate PartsPass(parts: seq<Complex>, bits: int) {
    forall k :: 0 <= k < |parts| ==>
      && (parts[k].pin.scaled ==> parts[k].pin.isFloat)
      && 1 <= parts[k].bitLength <= 32 && BitsBefore(parts, k + 1) <= bits
  }

  ghost predicate EntryPasses(e: Entry) {
    && 0 <= e.index <= 0xfffe && 0 <= e.subindex <= 0xfe && 1 <= e.bitLength <= 255
    && (e.isComplex ==> e.pin.name == "") && (e.pin.scaled ==> e.pin.isFloat)
    && PartsPass(e.parts, e.bitLength)
  }

  ghost predicate SmPasses(sm: Sm) {
    && 0 <= sm.index <= 15
    && forall p :: 0 <= p < |sm.pdos| ==>
      && 0 <= sm.pdos[p].index <= 0xfffe
      && forall e :: 0 <= e < |sm.pdos[p].entries| ==> EntryPasses(sm.pdos[p].entries[e])
  }

  predicate FieldPasses(f: Field, complete: bool) {
    && (f.Index? ==> 0 <= f.index <= 0xffff)
    && (f.Subindex? && !complete ==> 0 <= f.subindex <= 0xff)
    && (f.Transition? ==> f.text in ["IP", "PS"])
  }

  /** Every element of a command is in range, its last index is a real one, and so is its last sub-index. */
  ghost predicate CmdPasses(c: Cmd) {
    && (forall j :: 0 <= j < |c.fields| ==> FieldPasses(c.fields[j], c.complete))
    && (exists j: nat :: LastIndex(c.fields, j) && c.fields[j].index != 0xffff)
    && (c.complete || exists j: nat :: LastSubindex(c.fields, j) && c.fields[j].subindex != 0xff)
  }

  ghost predicate ChildPasses(c: Child, generic: bool) {
    match c
    case SmChild(sm) => generic && SmPasses(sm)
    case SdoChild(sdo) => 0 <= sdo.index <= 0xfffe && (0 <= sdo.subindex <= 0xfe || sdo.subindex == SDO_COMPLETE)
    case InitCmds(cmds) => forall k :: 0 <= k < |cmds| ==> CmdPasses(cmds[k])
  }

  /** The cycle that a slave asks for, as the 32-bit numbers of the program have it. */
  function Asked(c: Cycle, period: nat): int {
    match c
    case Default => period
    case Times(n) => S32(n * period)
    case Nanoseconds(n) => n
  }

  /** A slave of a known type names a unit whose cycle is a positive multiple of its master's period. */
  ghost predicate SlavePasses(s: Slave, period: nat) {
    && s.attrs.kind != Unknown && s.attrs.unit != ""
    && period > 0 && Asked(s.attrs.cycle, period) > 0 && Asked(s.attrs.cycle, period) % period == 0
    && forall k :: 0 <= k < |s.children| ==> ChildPasses(s.children[k], s.attrs.kind == Generic)
  }

  /** The attributes of a master do not contradict each other. */
  predicate MasterPasses(m: MasterAttrs) {
    m.refCycles >= -1 && !(m.syncToRef == Yes && m.refCycles > 0) && !(m.syncToRef == No && m.refCycles < 0)
  }

  /** The period of the master of the i-th node; 0 in front of the first master. */
  function PeriodBefore(ns: seq<Node>, i: nat): nat
    requires i <= |ns|
  {
    if i == 0 then 0
    else if ns[i - 1].MasterNode? then U32(ns[i - 1].master.period)
    else PeriodBefore(ns, i - 1)
  }

  /** A document begins with a master, and every node passes. */
  ghost predicate Passes(ns: seq<Node>) {
    && (ns != [] ==> ns[0].MasterNode?)
    && forall i :: 0 <= i < |ns| ==>
      && (ns[i].MasterNode? ==> MasterPasses(ns[i].master))
      && (ns[i].SlaveNode? ==> SlavePasses(ns[i].slave, PeriodBefore(ns, i)))
  }

  // --- the checks of the handlers amount to this ---

  lemma {:induction false} PartsIff(parts: seq<Complex>, n: nat, bits: int)
    requires n <= |parts|
    ensures GoodParts(parts[n..], BitsBefore(parts, n), bits) <==>
      forall k :: n <= k < |parts| ==>
        && (parts[k].pin.scaled ==> parts[k].pin.isFloat)
        && 1 <= parts[k].bitLength <= 32 && BitsBefore(parts, k + 1) <= bits
    decreases |parts| - n
  {
    if n < |parts| {
      PartsIff(parts, n + 1, bits);
      assert parts[n..][1..] == parts[n + 1..];
    }
  }

  lemma EntryIff(e: Entry)
    ensures GoodEntry(e) <==> EntryPasses(e)
  {
    PartsIff(e.parts, 0, e.bitLength);
    assert e.parts[0..] == e.parts;
  }

  lemma {:induction false} EntriesIff(es: seq<Entry>)
    ensures GoodEntries(es) <==> forall j :: 0 <= j < |es| ==> EntryPasses(es[j])
  {
    hide EntryPasses, GoodEntry;
    if es != [] {
      EntryIff(es[0]);
      EntriesIff(es[1..]);
      assert forall j :: 1 <= j < |es| ==> es[j] == es[1..][j - 1];
    }
  }

  lemma {:induction false} PdosIff(ps: seq<Pdo>)
    ensures GoodPdos(ps) <==> forall p :: 0 <= p < |ps| ==>
      && 0 <= ps[p].index <= 0xfffe && forall e :: 0 <= e < |ps[p].entries| ==> EntryPasses(ps[p].entries[e])
  {
    hide EntryPasses, GoodEntries;
    if ps != [] {
      EntriesIff(ps[0].entries);
      PdosIff(ps[1..]);
      assert forall j :: 1 <= j < |ps| ==> ps[j] == ps[1..][j - 1];
    }
  }

  lemma {:induction false} FieldsIff(fields: seq<Field>, complete: bool)
    ensures GoodFields(fields, complete) <==> forall j :: 0 <= j < |fields| ==> FieldPasses(fields[j], complete)
  {
    if fields != [] {
      FieldsIff(fields[1..], complete);
      assert forall j :: 1 <= j < |fields| ==> fields[j] == fields[1..][j - 1];
    }
  }

  lemma {:induction false} SomeLast(fields: seq<Field>)
    ensures (exists j :: 0 <= j < |fields| && fields[j].Index?) ==> exists j: nat :: LastIndex(fields, j)
    ensures (exists j :: 0 <= j < |fields| && fields[j].Subindex?) ==> exists j: nat :: LastSubindex(fields, j)
    decreases |fields|
  {
    if fields != [] {
      var n := |fields| - 1;
      var before := fields[..n];
      SomeLast(before);
      if fields[n].Index? {
        assert LastIndex(fields, n);
      } else if j: nat :| LastIndex(before, j) {
        assert LastIndex(fields, j);
      }
      if fields[n].Subindex? {
        assert LastSubindex(fields, n);
      } else if j: nat :| LastSubindex(before, j) {
        assert LastSubindex(fields, j);
      }
    }
  }

  lemma CmdIff(c: Cmd)
    ensures GoodCmd(c) <==> CmdPasses(c)
  {
    hide SdoOf, GoodFields;
    FieldsIff(c.fields, c.complete);
    SomeLast(c.fields);
    if GoodFields(c.fields, c.complete) {
      SdoOfIs(c);
    }
  }

  lemma {:induction false} CmdsIff(cs: seq<Cmd>)
    ensures GoodCmds(cs) <==> forall k :: 0 <= k < |cs| ==> CmdPasses(cs[k])
  {
    hide CmdPasses, GoodCmd;
    if cs != [] {
      CmdIff(cs[0]);
      CmdsIff(cs[1..]);
      assert forall j :: 1 <= j < |cs| ==> cs[j] == cs[1..][j - 1];
    }
  }

  lemma ChildIff(c: Child, generic: bool)
    ensures GoodChild(c, generic) <==> ChildPasses(c, generic)
  {
    hide GoodCmds, GoodPdos, CmdPasses, EntryPasses;
    match c
    case SmChild(sm) => PdosIff(sm.pdos);
    case SdoChild(sdo) =>
    case InitCmds(cmds) => CmdsIff(cmds);
  }

  lemma {:induction false} ChildrenIff(cs: seq<Child>, generic: bool)
    ensures GoodChildren(cs, generic) <==> forall k :: 0 <= k < |cs| ==> ChildPasses(cs[k], generic)
  {
    hide ChildPasses, GoodChild;
    if cs != [] {
      ChildIff(cs[0], generic);
      ChildrenIff(cs[1..], generic);
      assert forall j :: 1 <= j < |cs| ==> cs[j] == cs[1..][j - 1];
    }
  }

  lemma SlaveIff(s: Slave, period: nat)
    ensures GoodSlave(s, period) <==> SlavePasses(s, period)
  {
    hide GoodChildren, ChildPasses;
    ChildrenIff(s.children, s.attrs.kind == Generic);
    if s.attrs.cycle.Times? {
      WrapOnce(s.attrs.cycle.n * period);
    }
  }

  lemma WrapOnce(x: int)
    ensures S32(U32(x)) == S32(x)
  {
  }

  lemma {:induction false} NodesIff(ns: seq<Node>, n: nat)
    requires n <= |ns|
    ensures GoodNodes(ns[n..], PeriodBefore(ns, n)) <==> forall i :: n <= i < |ns| ==>
      && (ns[i].MasterNode? ==> MasterPasses(ns[i].master))
      && (ns[i].SlaveNode? ==> SlavePasses(ns[i].slave, PeriodBefore(ns, i)))
    decreases |ns| - n
  {
    hide GoodSlave, SlavePasses, U32;
    if n < |ns| {
      NodesIff(ns, n + 1);
      assert ns[n..][1..] == ns[n + 1..];
      if ns[n].SlaveNode? {
        SlaveIff(ns[n].slave, PeriodBefore(ns, n));
      }
    }
  }

  /** The configuration program goes through a document to its end exactly when it passes. */
  lemma AcceptedIffPasses(ns: seq<Node>, z: Sizes)
    ensures HandleAll(EMPTY, NodesEvents(ns), z) != None <==> Passes(ns)
    ensures GoodDocument(ns) <==> Passes(ns)
  {
    hide HandleAll, GoodNodes, MasterPasses, SlavePasses;
    ProducedTokens(ns, z);
    NodesIff(ns, 0);
    assert ns[0..] == ns;
  }
}
