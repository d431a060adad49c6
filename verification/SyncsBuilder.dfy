/**
 lcec_syncs_t of src/lcec_ethercat.c: the arrays behind the layout tree. Pointers into the arrays
 are indices, and NULL is -1.
 */
module SyncsBuilder {
  import opened LayoutTree

  const MAX_SYNC_COUNT := 4
  const MAX_PDO_INFO_COUNT := 16
  const MAX_PDO_ENTRY_COUNT := 128
  const NULL := -1
  const END := 0xff

  datatype SyncInfo = SyncInfo(index: int, dir: int, nPdos: nat, pdos: int, watchdog: int)

  datatype PdoInfo = PdoInfo(index: int, nEntries: nat, entries: int)

  const NO_SYNC := SyncInfo(0, 0, 0, NULL, 0)
  const NO_PDO := PdoInfo(0, 0, NULL)
  const NO_ENTRY := Entry(0, 0, 0)

  // --- what the arrays say about a tree ---

  /** A slice is a start and a length; an empty one has no start. */
  function Start(n: nat, offset: nat): int {
    if n == 0 then NULL else offset
  }

  /** What the slot of sync i holds. */
  function SyncOf(t: Tree, i: nat): SyncInfo
    requires i < |t|
  {
    SyncInfo(i, t[i].dir, |t[i].pdos|, Start(|t[i].pdos|, |Pdos(t[..i])|), t[i].watchdog)
  }

  /** What the slot of PDO i holds. */
  function InfoOf(ps: seq<PdoNode>, i: nat): PdoInfo
    requires i < |ps|
  {
    PdoInfo(ps[i].index, |ps[i].entries|, Start(|ps[i].entries|, |Entries(ps[..i])|))
  }

  /** The syncs in order, each with the slice of its PDOs, closed by the terminator; the rest is untouched. */
  ghost predicate SyncsRep(syncs: seq<SyncInfo>, n: nat, t: Tree) {
    && n == |t| < |syncs|
    && (forall i :: 0 <= i < n ==> syncs[i] == SyncOf(t, i))
    && (n > 0 ==> syncs[n].index == END)
    && (forall i :: n <= i < |syncs| ==> syncs[i].pdos == NULL && syncs[i].nPdos == 0)
  }

  /** The PDOs in order, each with the slice of its entries. */
  ghost predicate PdosRep(infos: seq<PdoInfo>, n: nat, ps: seq<PdoNode>) {
    && n == |ps| <= |infos|
    && (forall i :: 0 <= i < n ==> infos[i] == InfoOf(ps, i))
    && (forall i :: n <= i < |infos| ==> infos[i].entries == NULL && infos[i].nEntries == 0)
  }

  ghost predicate EntriesRep(entries: seq<Entry>, n: nat, es: seq<Entry>) {
    n == |es| <= |entries| && entries[..n] == es
  }

  /** Following a sync's slice gives its PDOs; the slices tile the PDO array in order. */
  lemma SyncSliceGivesPdos(syncs: seq<SyncInfo>, infos: seq<PdoInfo>, n: nat, m: nat, t: Tree, i: nat)
    requires SyncsRep(syncs, n, t) && PdosRep(infos, m, Pdos(t)) && i < n
    ensures var offset := |Pdos(t[..i])|;
            && offset + syncs[i].nPdos == |Pdos(t[..i + 1])| <= m <= |infos|
            && Pdos(t)[offset..offset + syncs[i].nPdos] == t[i].pdos
            && (syncs[i].nPdos > 0 ==> syncs[i].pdos == offset)
  {
    PdoSlice(t, i, n);
  }

  /** Following a PDO's slice gives its entries; the slices tile the entry array in order. */
  lemma InfoSliceGivesEntries(infos: seq<PdoInfo>, entries: seq<Entry>, m: nat, k: nat, ps: seq<PdoNode>, i: nat)
    requires PdosRep(infos, m, ps) && EntriesRep(entries, k, Entries(ps)) && i < m
    ensures var offset := |Entries(ps[..i])|;
            && offset + infos[i].nEntries == |Entries(ps[..i + 1])| <= k <= |entries|
            && entries[offset..offset + infos[i].nEntries] == ps[i].entries
            && (infos[i].nEntries > 0 ==> infos[i].entries == offset)
  {
    EntrySlice(ps, i, m);
    var offset := |Entries(ps[..i])|;
    SliceOfPrefix(entries, k, offset, offset + infos[i].nEntries);
  }

  lemma SliceOfPrefix<T>(a: seq<T>, k: nat, lo: nat, hi: nat)
    requires lo <= hi <= k <= |a|
    ensures a[..k][lo..hi] == a[lo..hi]
  {
  }

  lemma {:induction false} PdoSlice(t: Tree, i: nat, n: nat)
    requires i < n <= |t|
    ensures var offset := |Pdos(t[..i])|;
            && offset + |t[i].pdos| == |Pdos(t[..i + 1])| <= |Pdos(t[..n])|
            && Pdos(t[..n])[offset..offset + |t[i].pdos|] == t[i].pdos
            && (n == |t| ==> t[..n] == t)
    decreases n
  {
    assert t[..n] == t[..n - 1] + [t[n - 1]];
    PdosOfSnoc(t[..n - 1], t[n - 1]);
    if i < n - 1 {
      PdoSlice(t, i, n - 1);
    }
  }

  lemma {:induction false} EntrySlice(ps: seq<PdoNode>, i: nat, n: nat)
    requires i < n <= |ps|
    ensures var offset := |Entries(ps[..i])|;
            && offset + |ps[i].entries| == |Entries(ps[..i + 1])| <= |Entries(ps[..n])|
            && Entries(ps[..n])[offset..offset + |ps[i].entries|] == ps[i].entries
            && (n == |ps| ==> ps[..n] == ps)
    decreases n
  {
    assert ps[..n] == ps[..n - 1] + [ps[n - 1]];
    EntriesOfSnoc(ps[..n - 1], ps[n - 1]);
    if i < n - 1 {
      EntrySlice(ps, i, n - 1);
    }
  }

  // --- how the array updates act on the tree ---

  lemma SameSlot(t: Tree, u: Tree, i: nat)
    requires i < |t| && i < |u| && t[..i] == u[..i] && t[i] == u[i]
    ensures SyncOf(u, i) == SyncOf(t, i)
  {
  }

  lemma OpenSync(syncs: seq<SyncInfo>, after: seq<SyncInfo>, n: nat, t: Tree, dir: int, watchdog: int)
    requires SyncsRep(syncs, n, t) && n + 1 < |syncs| && |after| == |syncs|
    requires after[n] == syncs[n].(index := n, dir := dir, watchdog := watchdog)
    requires after[n + 1] == syncs[n + 1].(index := END)
    requires forall i :: 0 <= i < |syncs| && i != n && i != n + 1 ==> after[i] == syncs[i]
    ensures SyncsRep(after, n + 1, AddSync(t, dir, watchdog))
  {
    var u := AddSync(t, dir, watchdog);
    forall i | 0 <= i < n
      ensures SyncOf(u, i) == SyncOf(t, i)
    {
      SameSlot(t, u, i);
    }
  }

  /** The current sync's slot after one more PDO. */
  function OneMorePdo(s: SyncInfo, m: nat): SyncInfo {
    s.(nPdos := s.nPdos + 1, pdos := if s.pdos == NULL then m else s.pdos)
  }

  lemma OpenPdoInSync(syncs: seq<SyncInfo>, n: nat, t: Tree, index: int)
    requires SyncsRep(syncs, n, t) && n > 0
    ensures SyncsRep(syncs[n - 1 := OneMorePdo(syncs[n - 1], |Pdos(t)|)], n, AddPdo(t, index))
  {
    var u := AddPdo(t, index);
    forall i | 0 <= i < n - 1
      ensures SyncOf(u, i) == SyncOf(t, i)
    {
      SameSlot(t, u, i);
    }
    LastSlotGrows(t, index);
  }

  lemma LastSlotGrows(t: Tree, index: int)
    requires t != []
    ensures var n := |t|; SyncOf(AddPdo(t, index), n - 1) == OneMorePdo(SyncOf(t, n - 1), |Pdos(t)|)
  {
  }

  lemma SameInfo(ps: seq<PdoNode>, qs: seq<PdoNode>, i: nat)
    requires i < |ps| && i < |qs| && ps[..i] == qs[..i] && ps[i] == qs[i]
    ensures InfoOf(qs, i) == InfoOf(ps, i)
  {
  }

  lemma OpenPdoInfo(infos: seq<PdoInfo>, m: nat, ps: seq<PdoNode>, index: int)
    requires PdosRep(infos, m, ps) && m < |infos|
    ensures PdosRep(infos[m := infos[m].(index := index)], m + 1, ps + [PdoNode(index, [])])
  {
    var qs := ps + [PdoNode(index, [])];
    forall i | 0 <= i < m
      ensures InfoOf(qs, i) == InfoOf(ps, i)
    {
      SameInfo(ps, qs, i);
    }
  }

  lemma SameSyncsRep(syncs: seq<SyncInfo>, n: nat, t: Tree, u: Tree)
    requires SyncsRep(syncs, n, t) && SameSyncs(t, u)
    ensures SyncsRep(syncs, n, u)
  {
    forall i | 0 <= i < n
      ensures SyncOf(u, i) == SyncOf(t, i)
    {
      SameSizesSameOffsets(t, u, i);
    }
  }

  /** The current PDO's slot after one more entry. */
  function OneMoreEntry(p: PdoInfo, k: nat): PdoInfo {
    p.(nEntries := p.nEntries + 1, entries := if p.entries == NULL then k else p.entries)
  }

  lemma GrowPdoInfo(infos: seq<PdoInfo>, m: nat, ps: seq<PdoNode>, e: Entry)
    requires PdosRep(infos, m, ps) && m > 0
    ensures var qs := ps[..m - 1] + [WithEntry(ps[m - 1], e)];
            && PdosRep(infos[m - 1 := OneMoreEntry(infos[m - 1], |Entries(ps)|)], m, qs)
            && Entries(qs) == Entries(ps) + [e]
  {
    var front, last := ps[..m - 1], ps[m - 1];
    var qs := front + [WithEntry(last, e)];
    forall i | 0 <= i < m - 1
      ensures InfoOf(qs, i) == InfoOf(ps, i)
    {
      SameInfo(ps, qs, i);
    }
    EntriesOfSnoc(front, last);
    EntriesOfSnoc(front, WithEntry(last, e));
    assert ps == front + [last];
    assert qs[..m - 1] == front;
    assert Entries(front) + (last.entries + [e]) == (Entries(front) + last.entries) + [e];
  }

  // --- the object ---

  class Builder {
    var syncCount: nat
    var currSync: int
    const syncs: array<SyncInfo>
    var pdoInfoCount: nat
    var currPdoInfo: int
    const pdoInfos: array<PdoInfo>
    var pdoEntryCount: nat
    const pdoEntries: array<Entry>
    var autoflow: bool
    var pdoLimit: int
    var pdoEntryLimit: int
    var pdoIncrement: int
    var error: bool
    /** The tree the calls so far describe. */
    ghost var tree: Tree

    ghost function Settings(): Flow
      reads this
    {
      LayoutTree.Flow(autoflow, pdoLimit, pdoEntryLimit, pdoIncrement)
    }

    ghost predicate Sized()
      reads this
    {
      && syncs.Length == MAX_SYNC_COUNT + 1 && pdoInfos.Length == MAX_PDO_INFO_COUNT + 1
      && pdoEntries.Length == MAX_PDO_ENTRY_COUNT + 1
      && syncCount <= MAX_SYNC_COUNT && pdoInfoCount <= pdoInfos.Length && pdoEntryCount <= pdoEntries.Length
      && -1 <= currSync < syncs.Length && -1 <= currPdoInfo < pdoInfos.Length
      && (syncCount > 0 ==> currSync >= 0) && (pdoInfoCount > 0 ==> currPdoInfo >= 0)
    }

    /** The two structural arrays represent the tree. */
    ghost predicate Structured()
      reads this`tree, this`syncCount, this`currSync, this`pdoInfoCount, this`currPdoInfo, syncs, pdoInfos
    {
      && SyncsRep(syncs[..], syncCount, tree) && PdosRep(pdoInfos[..], pdoInfoCount, Pdos(tree))
      && currSync == syncCount - 1 && currPdoInfo == pdoInfoCount - 1
    }

    /** The next PDO is one too many, for the arrays or for the automatic distribution. */
    ghost predicate NoMorePdos()
      reads this`pdoInfoCount, this`autoflow, this`pdoLimit
    {
      pdoInfoCount > MAX_PDO_INFO_COUNT || (autoflow && pdoInfoCount > pdoLimit)
    }

    /** The automatic distribution closes the current PDO once it holds n entries. */
    ghost predicate Closes(n: nat)
      reads this`autoflow, this`pdoEntryLimit
    {
      autoflow && n >= pdoEntryLimit
    }

    /** While no call has failed the arrays represent the tree. */
    ghost predicate Valid()
      reads this, syncs, pdoInfos, pdoEntries
    {
      && Sized()
      && (!error ==> Structured() && EntriesRep(pdoEntries[..], pdoEntryCount, Entries(Pdos(tree))))
    }

    /** lcec_syncs_init: everything zero. */
    constructor ()
      ensures Valid() && !error && tree == [] && !autoflow
      ensures fresh(syncs) && fresh(pdoInfos) && fresh(pdoEntries)
    {
      syncs := new SyncInfo[MAX_SYNC_COUNT + 1](_ => NO_SYNC);
      pdoInfos := new PdoInfo[MAX_PDO_INFO_COUNT + 1](_ => NO_PDO);
      pdoEntries := new Entry[MAX_PDO_ENTRY_COUNT + 1](_ => NO_ENTRY);
      syncCount, currSync, pdoInfoCount, currPdoInfo, pdoEntryCount := 0, NULL, 0, NULL, 0;
      autoflow, pdoLimit, pdoEntryLimit, pdoIncrement, error := false, 0, 0, 0, false;
      tree := [];
    }

    /** lcec_syncs_enable_autoflow. */
    method EnableAutoflow(limit: int, entryLimit: int, increment: int)
      requires Valid()
      modifies this`autoflow, this`pdoLimit, this`pdoEntryLimit, this`pdoIncrement
      ensures Valid() && Settings() == LayoutTree.Flow(true, limit, entryLimit, increment)
    {
      autoflow := true;
      pdoLimit := limit;
      pdoEntryLimit := entryLimit;
      pdoIncrement := increment;
    }

    /** lcec_syncs_add_sync. */
    method AddSync(dir: int, watchdog: int) returns (err: int)
      requires Valid()
      modifies this`syncCount, this`currSync, this`error, this`tree, syncs
      ensures Valid() && (err == 0 || err == -1)
      ensures err == -1 <==> old(syncCount) >= MAX_SYNC_COUNT
      ensures err == 0 ==>
        && syncCount == old(syncCount) + 1 && currSync == old(syncCount) && syncs[syncCount].index == 0xff
        && syncs[currSync].index == currSync && syncs[currSync].dir == dir && syncs[currSync].watchdog == watchdog
      ensures currSync >= 0
      ensures error == (old(error) || err == -1)
      ensures !error ==> tree == LayoutTree.AddSync(old(tree), dir, watchdog)
    {
      if syncCount >= MAX_SYNC_COUNT {
        error := true;
        return -1;
      }
      ghost var before := syncs[..];
      currSync := syncCount;
      syncs[currSync] := syncs[currSync].(index := syncCount, dir := dir, watchdog := watchdog);
      syncCount := syncCount + 1;
      syncs[syncCount] := syncs[syncCount].(index := END);
      if !error {
        OpenSync(before, syncs[..], syncCount - 1, tree, dir, watchdog);
        PdosOfAddSync(tree, dir, watchdog);
      }
      tree := LayoutTree.AddSync(tree, dir, watchdog);
      return 0;
    }

    /** The array work of lcec_syncs_add_pdo_info. */
    method OpenPdo(index: int) returns (err: int)
      requires Sized() && currSync >= 0
      modifies this`pdoInfoCount, this`currPdoInfo, this`error, syncs, pdoInfos
      ensures Sized() && (err == 0 || err == -1)
      ensures err == -1 <==> old(NoMorePdos())
      ensures error == (old(error) || err == -1) && currPdoInfo >= 0
      ensures err == 0 ==>
        && pdoInfoCount == old(pdoInfoCount) + 1 && currPdoInfo == old(pdoInfoCount)
        && pdoInfos[..] == old(pdoInfos[..][pdoInfoCount := pdoInfos[pdoInfoCount].(index := index)])
        && syncs[..] == old(syncs[..])[currSync := OneMorePdo(old(syncs[currSync]), old(pdoInfoCount))]
    {
      if pdoInfoCount > MAX_PDO_INFO_COUNT {
        error := true;
        return -1;
      }
      currPdoInfo := pdoInfoCount;
      if syncs[currSync].pdos == NULL {
        syncs[currSync] := syncs[currSync].(pdos := currPdoInfo);
      }
      syncs[currSync] := syncs[currSync].(nPdos := syncs[currSync].nPdos + 1);
      pdoInfos[currPdoInfo] := pdoInfos[currPdoInfo].(index := index);
      if autoflow && pdoInfoCount > pdoLimit {
        error := true;
        return -1;
      }
      pdoInfoCount := pdoInfoCount + 1;
      return 0;
    }

    /** Opening a PDO on a structured builder opens it in the tree. */
    method OpenPdoInTree(index: int) returns (err: int)
      requires Sized() && currSync >= 0 && (!error ==> Structured())
      modifies this`pdoInfoCount, this`currPdoInfo, this`error, this`tree, syncs, pdoInfos
      ensures Sized() && (!error ==> Structured()) && (err == 0 || err == -1)
      ensures err == -1 <==> old(NoMorePdos())
      ensures error == (old(error) || err == -1) && currPdoInfo >= 0
      ensures !error ==>
        && old(tree) != [] && tree == AddPdo(old(tree), index)
        && Entries(Pdos(tree)) == Entries(Pdos(old(tree)))
    {
      hide SyncsRep, PdosRep, Pdos, Entries, OneMorePdo;
      if !error {
        SyncsOnly(syncs[..], syncCount, tree, index, currSync);
        InfosOnly(pdoInfos[..], pdoInfoCount, tree, index);
      }
      err := OpenPdo(index);
      if !error {
        tree := AddPdo(tree, index);
      }
    }

    /** lcec_syncs_add_pdo_info; without a sync the source follows a null pointer. */
    method AddPdoInfo(index: int) returns (err: int)
      requires Valid() && currSync >= 0
      modifies this`pdoInfoCount, this`currPdoInfo, this`error, this`tree, syncs, pdoInfos
      ensures Valid() && (err == 0 || err == -1)
      ensures err == -1 <==> old(NoMorePdos())
      ensures error == (old(error) || err == -1) && currPdoInfo >= 0
      ensures !error ==> old(tree) != [] && tree == AddPdo(old(tree), index)
    {
      err := OpenPdoInTree(index);
    }

    /** The first half of lcec_syncs_add_pdo_entry: the current PDO claims the next entry slot. */
    method ClaimEntry(ghost e: Entry)
      requires Valid() && currSync >= 0 && currPdoInfo >= 0
      modifies this`tree, pdoInfos
      ensures Sized() && (!error ==> Structured())
      ensures pdoInfos[currPdoInfo].nEntries == old(pdoInfos[currPdoInfo].nEntries) + 1
      ensures !error ==> Pdos(old(tree)) != [] && tree == AppendEntry(old(tree), e) && tree != [] && Pdos(tree) != []
      ensures !error ==> Entries(Pdos(tree)) == Entries(Pdos(old(tree))) + [e]
      ensures !error ==>
        && pdoInfos[currPdoInfo].nEntries == |LastPdo(tree).entries|
        && pdoInfos[currPdoInfo].index == LastPdo(tree).index
    {
      hide SyncsRep, PdosRep, Entries, Pdos;
      if !error {
        FilledPdo(syncs[..], syncCount, pdoInfos[..], pdoInfoCount, tree, e, pdoEntryCount);
        tree := AppendEntry(tree, e);
      }
      var p := pdoInfos[currPdoInfo];
      if p.entries == NULL {
        p := p.(entries := pdoEntryCount);
      }
      pdoInfos[currPdoInfo] := p.(nEntries := p.nEntries + 1);
    }

    /** The second half: a full PDO is closed by opening the next one. */
    method CloseFullPdo()
      requires Sized() && currSync >= 0 && currPdoInfo >= 0 && (!error ==> Structured())
      requires !error ==>
        && tree != [] && Pdos(tree) != []
        && pdoInfos[currPdoInfo].nEntries == |LastPdo(tree).entries|
        && pdoInfos[currPdoInfo].index == LastPdo(tree).index
      modifies this`pdoInfoCount, this`currPdoInfo, this`error, this`tree, syncs, pdoInfos
      ensures Sized() && (!error ==> Structured())
      ensures error == (old(error) || old(Closes(pdoInfos[currPdoInfo].nEntries) && NoMorePdos())) && currPdoInfo >= 0
      ensures !error ==>
        && !old(error) && Entries(Pdos(tree)) == Entries(Pdos(old(tree)))
        && tree == if autoflow && |LastPdo(old(tree)).entries| >= pdoEntryLimit
                   then AddPdo(old(tree), U16(LastPdo(old(tree)).index + pdoIncrement))
                   else old(tree)
    {
      hide SyncsRep, PdosRep, Entries, Pdos;
      if autoflow && pdoInfos[currPdoInfo].nEntries >= pdoEntryLimit {
        var _ := OpenPdoInTree(U16(pdoInfos[currPdoInfo].index + pdoIncrement));
      }
    }

    /** lcec_syncs_add_pdo_entry; without a PDO the source follows a null pointer. */
    method AddPdoEntry(e: Entry) returns (err: int)
      requires Valid() && currSync >= 0 && currPdoInfo >= 0
      modifies this, syncs, pdoInfos, pdoEntries
      ensures Valid() && (err == 0 || err == -1) && Settings() == old(Settings())
      ensures err == -1 <==> old(pdoEntryCount) > MAX_PDO_ENTRY_COUNT
      ensures currSync == old(currSync) && currPdoInfo >= 0
      ensures err == 0 ==> pdoEntryCount == old(pdoEntryCount) + 1 && pdoEntries[old(pdoEntryCount)] == e
      // the builder has failed before, the entry is one too many, or it fills the PDO and there is no next one
      ensures error ==
        (old(error) || err == -1 || old(Closes(pdoInfos[currPdoInfo].nEntries + 1) && NoMorePdos()))
      ensures !error ==> !old(error) && Pdos(old(tree)) != [] && tree == AddEntry(old(tree), Settings(), e)
    {
      hide Structured, Entries, Pdos, AddEntry, Closes, NoMorePdos;
      if pdoEntryCount > MAX_PDO_ENTRY_COUNT {
        error := true;
        return -1;
      }
      PlaceEntry(e);
      StoreEntry(e);
      return 0;
    }

    /**
     A driver makes all its calls and looks at the error once at the end: it is set exactly when the layout
     they describe does not fit, and otherwise the arrays hold that layout.
     */
    method AddAll(calls: seq<Call>)
      requires Valid() && !error && tree == []
      modifies this, syncs, pdoInfos, pdoEntries
      ensures Valid() && Settings() == old(Settings())
      ensures error <==> !Fits(Build(calls, Settings()), Settings())
      ensures !error ==> tree == Build(calls, Settings())
    {
      hide Structured, Entries, Pdos, AddEntry, AddPdo, LayoutTree.AddSync, Fits, Closes, NoMorePdos;
      ghost var flow := Settings();
      NothingFits(flow);
      Sizes();
      assert calls[..0] == [];
      for i := 0 to |calls|
        invariant Valid() && Settings() == flow
        invariant error <==> !Fits(Build(calls[..i], flow), flow)
        invariant !error ==> tree == Build(calls[..i], flow)
        invariant Build(calls[..i], flow) != [] <==> currSync >= 0
        invariant Pdos(Build(calls[..i], flow)) != [] <==> currPdoInfo >= 0
      {
        assert calls[..i + 1][..i] == calls[..i];
        AddOne(calls[i], Build(calls[..i], flow));
      }
      assert calls[..|calls|] == calls;
    }

    /** While no call has failed the counters are the sizes of the layout. */
    lemma Sizes()
      requires Valid() && !error
      ensures syncCount == |tree| && pdoInfoCount == |Pdos(tree)| && pdoEntryCount == |Entries(Pdos(tree))|
      ensures currSync == syncCount - 1 && currPdoInfo == pdoInfoCount - 1
      ensures Pdos(tree) != [] ==> pdoInfos[currPdoInfo].nEntries == |LastPdo(tree).entries|
    {
    }

    /** One call of a driver, whether or not a call has failed before. */
    method AddOne(c: Call, ghost t: Tree)
      requires Valid() && (error <==> !Fits(t, Settings())) && (!error ==> tree == t)
      requires (t != [] <==> currSync >= 0) && (Pdos(t) != [] <==> currPdoInfo >= 0)
      modifies this, syncs, pdoInfos, pdoEntries
      ensures Valid() && Settings() == old(Settings())
      ensures var u := Step(t, Settings(), c);
        && (error <==> !Fits(u, Settings())) && (!error ==> tree == u)
        && (u != [] <==> currSync >= 0) && (Pdos(u) != [] <==> currPdoInfo >= 0)
    {
      hide Structured, Entries, Pdos, AddEntry, AddPdo, LayoutTree.AddSync, Fits, LastPdo, EntriesRep;
      if !error {
        Sizes();
      }
      match c
      case Sync(dir, watchdog) =>
        SyncFits(t, Settings(), dir, watchdog);
        var _ := AddSync(dir, watchdog);
      case Pdo(index) =>
        if currSync >= 0 {
          PdoFits(t, Settings(), index);
          var _ := AddPdoInfo(index);
        }
      case PdoEntry(e) =>
        NoSyncsNoPdos();
        if currPdoInfo >= 0 {
          EntryFits(t, Settings(), e);
          var _ := AddPdoEntry(e);
        }
    }

    method PlaceEntry(ghost e: Entry)
      requires Valid() && currSync >= 0 && currPdoInfo >= 0
      modifies this`pdoInfoCount, this`currPdoInfo, this`error, this`tree, syncs, pdoInfos
      ensures Sized() && (!error ==> Structured()) && currPdoInfo >= 0
      ensures error == (old(error) || old(Closes(pdoInfos[currPdoInfo].nEntries + 1) && NoMorePdos()))
      ensures !error ==>
        && !old(error) && Pdos(old(tree)) != [] && tree == AddEntry(old(tree), Settings(), e)
        && Entries(Pdos(tree)) == Entries(Pdos(old(tree))) + [e]
    {
      hide Structured, Entries, Pdos, AppendEntry, AddPdo, U16, NoMorePdos, Closes;
      ClaimEntry(e);
      CloseFullPdo();
    }

    method StoreEntry(e: Entry)
      requires Sized() && pdoEntryCount < pdoEntries.Length
      modifies this`pdoEntryCount, pdoEntries
      ensures Sized() && pdoEntryCount == old(pdoEntryCount) + 1
      ensures pdoEntries[..pdoEntryCount] == old(pdoEntries[..pdoEntryCount]) + [e]
    {
      pdoEntries[pdoEntryCount] := e;
      pdoEntryCount := pdoEntryCount + 1;
    }
  }

  // --- all the calls of a driver ---

  /** The arrays have room for the layout, and with autoflow there are at most pdoLimit + 1 PDOs. */
  predicate Fits(t: Tree, flow: Flow) {
    && |t| <= MAX_SYNC_COUNT && |Pdos(t)| <= MAX_PDO_INFO_COUNT + 1
    && |Entries(Pdos(t))| <= MAX_PDO_ENTRY_COUNT + 1
    && (flow.on && Pdos(t) != [] ==> |Pdos(t)| <= flow.pdoLimit + 1)
  }

  lemma NothingFits(flow: Flow)
    ensures Fits([], flow) && Pdos([]) == [] && Build([], flow) == []
  {
  }

  lemma SyncFits(t: Tree, flow: Flow, dir: int, watchdog: int)
    ensures Fits(LayoutTree.AddSync(t, dir, watchdog), flow) <==> Fits(t, flow) && |t| < MAX_SYNC_COUNT
    ensures LayoutTree.AddSync(t, dir, watchdog) != []
    ensures Pdos(LayoutTree.AddSync(t, dir, watchdog)) == Pdos(t)
  {
    PdosOfAddSync(t, dir, watchdog);
  }

  lemma PdoFits(t: Tree, flow: Flow, index: int)
    requires t != []
    ensures AddPdo(t, index) != [] && Pdos(AddPdo(t, index)) != []
    ensures Fits(AddPdo(t, index), flow) <==>
      Fits(t, flow) && |Pdos(t)| <= MAX_PDO_INFO_COUNT && (flow.on ==> |Pdos(t)| <= flow.pdoLimit)
  {
    PdosOfAddPdo(t, index);
    EntriesOfSnoc(Pdos(t), PdoNode(index, []));
  }

  lemma EntryFits(t: Tree, flow: Flow, e: Entry)
    requires Pdos(t) != []
    ensures AddEntry(t, flow, e) != [] && Pdos(AddEntry(t, flow, e)) != []
    ensures Fits(AddEntry(t, flow, e), flow) <==>
      && Fits(t, flow) && |Entries(Pdos(t))| <= MAX_PDO_ENTRY_COUNT
      && (flow.on && |LastPdo(t).entries| + 1 >= flow.entryLimit ==>
        |Pdos(t)| <= MAX_PDO_INFO_COUNT && |Pdos(t)| <= flow.pdoLimit)
  {
    hide Pdos, Entries, AddEntry, Grow;
    PdosOfAddEntry(t, flow, e);
    NoSyncsNoPdos();
    GrownSizes(Pdos(t), flow, e);
    EntryKeepsSyncs(t, flow, e);
  }

  lemma EntryKeepsSyncs(t: Tree, flow: Flow, e: Entry)
    requires Pdos(t) != []
    ensures |AddEntry(t, flow, e)| == |t|
  {
    hide Pdos, AppendEntry;
    NoSyncsNoPdos();
    AppendKeeps(t, e);
  }

  lemma GrownSizes(ps: seq<PdoNode>, flow: Flow, e: Entry)
    requires ps != []
    ensures |Entries(Grow(ps, flow, e))| == |Entries(ps)| + 1
    ensures |Grow(ps, flow, e)| == |ps|
      + (if flow.on && |ps[|ps| - 1].entries| + 1 >= flow.entryLimit then 1 else 0)
  {
    hide Entries, U16;
    var front, last := ps[..|ps| - 1], ps[|ps| - 1];
    var grown, next := WithEntry(last, e), PdoNode(U16(last.index + flow.increment), []);
    assert ps == front + [last];
    EntriesOfSnoc(front, last);
    EntriesOfSnoc(front, grown);
    EntriesOfSnoc(front + [grown], next);
    assert Grow(ps, flow, e) ==
      if flow.on && |grown.entries| >= flow.entryLimit then front + [grown] + [next] else front + [grown];
  }

  lemma SyncsOnly(syncs: seq<SyncInfo>, n: nat, t: Tree, index: int, curr: int)
    requires SyncsRep(syncs, n, t) && curr == n - 1 >= 0
    ensures t != [] && curr < |syncs|
    ensures SyncsRep(syncs[curr := OneMorePdo(syncs[curr], |Pdos(t)|)], n, AddPdo(t, index))
  {
    OpenPdoInSync(syncs, n, t, index);
  }

  lemma InfosOnly(infos: seq<PdoInfo>, m: nat, t: Tree, index: int)
    requires PdosRep(infos, m, Pdos(t)) && t != []
    ensures m == |Pdos(t)|
    ensures m < |infos| ==> PdosRep(infos[m := infos[m].(index := index)], m + 1, Pdos(AddPdo(t, index)))
    ensures Entries(Pdos(AddPdo(t, index))) == Entries(Pdos(t))
  {
    PdosOfAddPdo(t, index);
    if m < |infos| {
      OpenPdoInfo(infos, m, Pdos(t), index);
    }
    EntriesOfSnoc(Pdos(t), PdoNode(index, []));
    assert Entries(Pdos(t)) + [] == Entries(Pdos(t));
  }

  /** The current PDO takes one more entry; the tree's last PDO grows with it. */
  lemma FilledPdo(syncs: seq<SyncInfo>, n: nat, infos: seq<PdoInfo>, m: nat, t: Tree, e: Entry, k: nat)
    requires SyncsRep(syncs, n, t) && PdosRep(infos, m, Pdos(t)) && m > 0 && k == |Entries(Pdos(t))|
    ensures Pdos(t) != [] && m <= |infos|
    ensures var u, q := AppendEntry(t, e), OneMoreEntry(infos[m - 1], k);
            && SyncsRep(syncs, n, u) && PdosRep(infos[m - 1 := q], m, Pdos(u))
            && Entries(Pdos(u)) == Entries(Pdos(t)) + [e]
            && u != [] && Pdos(u) != [] && q.nEntries == |LastPdo(u).entries| && q.index == LastPdo(u).index
  {
    AppendKeeps(t, e);
    GrowPdoInfo(infos, m, Pdos(t), e);
    SameSyncsRep(syncs, n, t, AppendEntry(t, e));
  }
}
