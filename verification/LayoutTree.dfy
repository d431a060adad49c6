/**
 The sync/PDO layout builder of src/lcec_ethercat.c: three fixed arrays filled through cursors, which
 together stand for a tree of syncs, PDOs and PDO entries.
 */
module LayoutTree {

  datatype Entry = Entry(index: int, subindex: int, bitLength: int)

  datatype PdoNode = PdoNode(index: int, entries: seq<Entry>)

  datatype SyncNode = SyncNode(dir: int, watchdog: int, pdos: seq<PdoNode>)

  type Tree = seq<SyncNode>

  /** The autoflow settings. */
  datatype Flow = Flow(on: bool, pdoLimit: int, entryLimit: int, increment: int)

  function U16(x: int): int {
    x % 0x1_0000
  }

  // --- the calls, on the tree ---

  function AddSync(t: Tree, dir: int, watchdog: int): Tree {
    t + [SyncNode(dir, watchdog, [])]
  }

  /** A PDO goes to the last sync. */
  function AddPdo(t: Tree, index: int): Tree
    requires t != []
  {
    var last := t[|t| - 1];
    t[..|t| - 1] + [last.(pdos := last.pdos + [PdoNode(index, [])])]
  }

  /** All PDOs in order, whatever sync they belong to. */
  function Pdos(t: Tree): seq<PdoNode>
    decreases |t|
  {
    if t == [] then [] else Pdos(t[..|t| - 1]) + t[|t| - 1].pdos
  }

  function Entries(pdos: seq<PdoNode>): seq<Entry>
    decreases |pdos|
  {
    if pdos == [] then [] else Entries(pdos[..|pdos| - 1]) + pdos[|pdos| - 1].entries
  }

  function LastPdo(t: Tree): PdoNode
    requires Pdos(t) != []
  {
    Pdos(t)[|Pdos(t)| - 1]
  }

  /** An entry goes to the last PDO there is, even when a newer sync has none yet. */
  function AppendEntry(t: Tree, e: Entry): Tree
    requires Pdos(t) != []
    decreases |t|
  {
    var n := |t|;
    var last := t[n - 1];
    if last.pdos == [] then AppendEntry(t[..n - 1], e) + [last]
    else
      var m := |last.pdos|;
      var p := last.pdos[m - 1];
      t[..n - 1] + [last.(pdos := last.pdos[..m - 1] + [WithEntry(p, e)])]
  }

  /** With autoflow a PDO that has reached its limit is followed by a new one at once. */
  function AddEntry(t: Tree, flow: Flow, e: Entry): Tree
    requires Pdos(t) != []
  {
    AppendKeeps(t, e);
    var u := AppendEntry(t, e);
    if flow.on && |LastPdo(u).entries| >= flow.entryLimit then AddPdo(u, U16(LastPdo(u).index + flow.increment)) else u
  }

  // --- how the calls change the flat views ---

  lemma PdosOfSnoc(front: Tree, last: SyncNode)
    ensures Pdos(front + [last]) == Pdos(front) + last.pdos
  {
    assert (front + [last])[..|front|] == front;
  }

  function WithEntry(p: PdoNode, e: Entry): PdoNode {
    p.(entries := p.entries + [e])
  }

  /** The sizes and the settings of every sync are the same. */
  ghost predicate SameSyncs(t: Tree, u: Tree) {
    && |u| == |t|
    && forall i :: 0 <= i < |t| ==>
      u[i].dir == t[i].dir && u[i].watchdog == t[i].watchdog && |u[i].pdos| == |t[i].pdos|
  }

  lemma {:induction false} AppendKeeps(t: Tree, e: Entry)
    requires Pdos(t) != []
    ensures var u, ps := AppendEntry(t, e), Pdos(t);
            SameSyncs(t, u) && Pdos(u) == ps[..|ps| - 1] + [WithEntry(ps[|ps| - 1], e)]
    decreases |t|
  {
    var front, last := t[..|t| - 1], t[|t| - 1];
    PdosOfSnoc(front, last);
    assert t == front + [last];
    if last.pdos == [] {
      assert Pdos(front) + [] == Pdos(front);
      AppendKeeps(front, e);
      AppendBefore(front, last, e);
    } else {
      AppendToLast(front, last, e);
    }
  }

  lemma AppendBefore(front: Tree, last: SyncNode, e: Entry)
    requires last.pdos == [] && Pdos(front) != [] && Pdos(front + [last]) == Pdos(front)
    requires SameSyncs(front, AppendEntry(front, e))
    ensures var t := front + [last];
            SameSyncs(t, AppendEntry(t, e)) && Pdos(AppendEntry(t, e)) == Pdos(AppendEntry(front, e))
  {
  }

  lemma AppendToLast(front: Tree, last: SyncNode, e: Entry)
    requires last.pdos != [] && Pdos(front + [last]) == Pdos(front) + last.pdos
    ensures var t := front + [last];
            var u, ps := AppendEntry(t, e), Pdos(t);
            SameSyncs(t, u) && Pdos(u) == ps[..|ps| - 1] + [WithEntry(ps[|ps| - 1], e)]
  {
  }

  lemma PdosOfAddPdo(t: Tree, index: int)
    requires t != []
    ensures Pdos(AddPdo(t, index)) == Pdos(t) + [PdoNode(index, [])]
  {
  }

  lemma PdosOfAddSync(t: Tree, dir: int, watchdog: int)
    ensures Pdos(AddSync(t, dir, watchdog)) == Pdos(t)
  {
  }

  /** What adding an entry does to the flat list of PDOs. */
  function Grow(ps: seq<PdoNode>, flow: Flow, e: Entry): seq<PdoNode>
    requires ps != []
  {
    var p := WithEntry(ps[|ps| - 1], e);
    ps[..|ps| - 1] + [p]
    + (if flow.on && |p.entries| >= flow.entryLimit then [PdoNode(U16(p.index + flow.increment), [])] else [])
  }

  lemma NoSyncsNoPdos()
    ensures Pdos([]) == []
  {
  }

  lemma PdosOfAddEntry(t: Tree, flow: Flow, e: Entry)
    requires Pdos(t) != []
    ensures Pdos(AddEntry(t, flow, e)) == Grow(Pdos(t), flow, e)
  {
    hide Pdos, AppendEntry, AddPdo, U16, WithEntry;
    NoSyncsNoPdos();
    AppendKeeps(t, e);
    var u, ps := AppendEntry(t, e), Pdos(t);
    assert Pdos(u)[|Pdos(u)| - 1] == WithEntry(ps[|ps| - 1], e);
    PdosOfAddPdo(u, U16(LastPdo(u).index + flow.increment));
  }

  lemma EntriesOfSnoc(pdos: seq<PdoNode>, p: PdoNode)
    ensures Entries(pdos + [p]) == Entries(pdos) + p.entries
  {
    assert (pdos + [p])[..|pdos|] == pdos;
  }

  /** The number of PDOs before sync i depends only on the sizes. */
  lemma {:induction false} SameSizesSameOffsets(t: Tree, u: Tree, i: nat)
    requires |t| == |u| && i <= |t|
    requires forall j :: 0 <= j < |t| ==> |u[j].pdos| == |t[j].pdos|
    ensures |Pdos(u[..i])| == |Pdos(t[..i])|
  {
    if i > 0 {
      SameSizesSameOffsets(t, u, i - 1);
      assert t[..i][..i - 1] == t[..i - 1] && u[..i][..i - 1] == u[..i - 1];
    }
  }

  // --- what autoflow guarantees over whole runs ---

  datatype Call = Sync(dir: int, watchdog: int) | Pdo(index: int) | PdoEntry(e: Entry)

  /** One call; a PDO needs a sync and an entry needs a PDO, otherwise the source would follow a null pointer. */
  function Step(t: Tree, flow: Flow, c: Call): Tree {
    match c
    case Sync(dir, watchdog) => AddSync(t, dir, watchdog)
    case Pdo(index) => if t == [] then t else AddPdo(t, index)
    case PdoEntry(e) => if Pdos(t) == [] then t else AddEntry(t, flow, e)
  }

  function Build(calls: seq<Call>, flow: Flow): Tree
    decreases |calls|
  {
    if calls == [] then [] else Step(Build(calls[..|calls| - 1], flow), flow, calls[|calls| - 1])
  }

  /** Every PDO is within the limit, and the last one below it. */
  ghost predicate WithinLimit(pdos: seq<PdoNode>, limit: int) {
    && (forall i :: 0 <= i < |pdos| ==> |pdos[i].entries| <= limit)
    && (pdos != [] ==> |pdos[|pdos| - 1].entries| < limit)
  }

  /** With autoflow no PDO ever holds more than the limit, and the one being filled is below it. */
  lemma {:induction false} PdosStayWithinLimit(calls: seq<Call>, flow: Flow)
    requires flow.on && flow.entryLimit >= 1
    ensures WithinLimit(Pdos(Build(calls, flow)), flow.entryLimit)
    decreases |calls|
  {
    if calls != [] {
      var s := Build(calls[..|calls| - 1], flow);
      PdosStayWithinLimit(calls[..|calls| - 1], flow);
      StepStaysWithinLimit(s, flow, calls[|calls| - 1]);
    }
  }

  lemma StepStaysWithinLimit(t: Tree, flow: Flow, c: Call)
    requires flow.on && flow.entryLimit >= 1 && WithinLimit(Pdos(t), flow.entryLimit)
    ensures WithinLimit(Pdos(Step(t, flow, c)), flow.entryLimit)
  {
    hide Pdos;
    match c
    case Sync(dir, watchdog) => PdosOfAddSync(t, dir, watchdog);
    case Pdo(index) =>
      if t != [] {
        PdosOfAddPdo(t, index);
      }
    case PdoEntry(e) =>
      if Pdos(t) != [] {
        PdosOfAddEntry(t, flow, e);
      }
  }

  /** A list of entries cut into PDOs of the limit, their indices stepping by the increment. */
  function Chunks(index: int, es: seq<Entry>, flow: Flow): seq<PdoNode>
    requires flow.entryLimit >= 1
    decreases |es|
  {
    if |es| < flow.entryLimit then [PdoNode(index, es)]
    else [PdoNode(index, es[..flow.entryLimit])] + Chunks(U16(index + flow.increment), es[flow.entryLimit..], flow)
  }

  /** Adding entries one by one. */
  function AddEntries(t: Tree, flow: Flow, es: seq<Entry>): Tree
    decreases |es|
  {
    if es == [] then t else Step(AddEntries(t, flow, es[..|es| - 1]), flow, PdoEntry(es[|es| - 1]))
  }

  lemma {:induction false} ChunksOfSnoc(index: int, es: seq<Entry>, e: Entry, flow: Flow)
    requires flow.on && flow.entryLimit >= 1
    ensures Chunks(index, es, flow) != []
    ensures Chunks(index, es + [e], flow) == Grow(Chunks(index, es, flow), flow, e)
    decreases |es|
  {
    var limit := flow.entryLimit;
    if |es| >= limit {
      var first, rest := [PdoNode(index, es[..limit])], Chunks(U16(index + flow.increment), es[limit..], flow);
      ChunksOfSnoc(U16(index + flow.increment), es[limit..], e, flow);
      GrowConcat(first, rest, flow, e);
      assert (es + [e])[..limit] == es[..limit] && (es + [e])[limit..] == es[limit..] + [e];
    } else if |es| == limit - 1 {
      assert (es + [e])[..limit] == es + [e] && (es + [e])[limit..] == [];
    }
  }

  /** The overflow, exactly: entries added to a new PDO end up cut into chunks behind the PDOs there were. */
  lemma {:induction false} OverflowIsChunks(t: Tree, index: int, es: seq<Entry>, flow: Flow)
    requires t != [] && flow.on && flow.entryLimit >= 1
    ensures Pdos(AddEntries(AddPdo(t, index), flow, es)) == Pdos(t) + Chunks(index, es, flow)
    decreases |es|
  {
    hide Step, Pdos, Chunks, AddPdo;
    if es == [] {
      PdosOfAddPdo(t, index);
      ChunksOfNone(index, flow);
    } else {
      var before, e := es[..|es| - 1], es[|es| - 1];
      OverflowIsChunks(t, index, before, flow);
      assert before + [e] == es;
      OverflowStep(Pdos(t), AddEntries(AddPdo(t, index), flow, before), index, before, e, flow);
    }
  }

  lemma ChunksOfNone(index: int, flow: Flow)
    requires flow.on && flow.entryLimit >= 1
    ensures Chunks(index, [], flow) == [PdoNode(index, [])]
  {
  }

  /** One more entry behind chunks that are already in place. */
  lemma OverflowStep(ps: seq<PdoNode>, s: Tree, index: int, es: seq<Entry>, e: Entry, flow: Flow)
    requires flow.on && flow.entryLimit >= 1 && Pdos(s) == ps + Chunks(index, es, flow)
    ensures Pdos(Step(s, flow, PdoEntry(e))) == ps + Chunks(index, es + [e], flow)
  {
    hide Pdos, Chunks, Grow;
    ChunksOfSnoc(index, es, e, flow);
    PdosOfAddEntry(s, flow, e);
    GrowConcat(ps, Chunks(index, es, flow), flow, e);
  }

  lemma GrowConcat(a: seq<PdoNode>, b: seq<PdoNode>, flow: Flow, e: Entry)
    requires b != []
    ensures Grow(a + b, flow, e) == a + Grow(b, flow, e)
  {
  }

}
