/**
 The PDO entry registrations of the drivers and their collection per Sync Unit, as rtapi_app_main
 does it with lcec_pdo_init, lcec_pdo_entry_reg_len and lcec_append_pdo_entry_reg.
 */
module PdoRegs {

  datatype Entry = Entry(position: int, vendor: int, product: int, index: int, subindex: int)

  const TERMINATOR := Entry(0, 0, 0, 0, 0)

  class EntryReg {
    var current: nat
    const max: nat
    const regs: array<Entry>

    ghost predicate Valid()
      reads this
    {
      regs.Length == max && current <= max
    }

    ghost function Contents(): seq<Entry>
      reads this, regs
      requires Valid()
    {
      regs[..current]
    }

    /** lcec_allocate_pdo_entry_reg: zeroed memory for size entries. */
    constructor (size: nat)
      ensures Valid() && fresh(regs) && max == size && current == 0
      ensures forall i :: 0 <= i < size ==> regs[i] == TERMINATOR
    {
      max, current := size, 0;
      regs := new Entry[size](_ => TERMINATOR);
    }

    /** lcec_pdo_init. */
    method PdoInit(e: Entry) returns (err: int)
      requires Valid()
      modifies this, regs
      ensures Valid() && (err == -1 <==> old(current) == max) && (err == 0 || err == -1)
      ensures Contents() == if err == 0 then old(Contents()) + [e] else old(Contents())
    {
      if current >= max {
        return -1;
      }
      regs[current] := e;
      current := current + 1;
      return 0;
    }

    /** lcec_append_pdo_entry_reg: all used entries of src, or nothing when they do not fit. */
    method Append(src: EntryReg) returns (err: int)
      requires Valid() && src.Valid() && src != this && src.regs != regs
      modifies this, regs
      ensures Valid() && (err == -1 <==> old(current) + src.current > max) && (err == 0 || err == -1)
      ensures Contents() == if err == 0 then old(Contents()) + src.Contents() else old(Contents())
      ensures forall i :: current <= i < max ==> regs[i] == old(regs[i])
    {
      if current + src.current > max {
        return -1;
      }
      ghost var before := current;
      for i := 0 to src.current
        invariant Valid() && current == before + i
        invariant Contents() == old(Contents()) + src.regs[..i]
        invariant forall j :: current <= j < max ==> regs[j] == old(regs[j])
      {
        regs[current] := src.regs[i];
        current := current + 1;
        assert src.regs[..i + 1] == src.regs[..i] + [src.regs[i]];
        assert Contents() == old(Contents()) + src.regs[..i] + [src.regs[i]];
      }
      assert src.regs[..src.current] == src.Contents();
      return 0;
    }
  }

  /** A slave: the Sync Unit it belongs to and what its driver registered. */
  datatype SlaveRegs = SlaveRegs(unit: nat, regs: EntryReg)

  /** The same by value. */
  datatype Registered = Registered(unit: nat, entries: seq<Entry>)

  ghost predicate Describes(slaves: seq<SlaveRegs>, values: seq<Registered>)
    reads set s | s in slaves :: s.regs, set s | s in slaves :: s.regs.regs
  {
    && |values| == |slaves|
    && forall i :: 0 <= i < |slaves| ==>
      slaves[i].regs.Valid() && values[i] == Registered(slaves[i].unit, slaves[i].regs.Contents())
  }

  /** The entries of one unit: those of its slaves, in slave order. */
  function UnitEntries(values: seq<Registered>, unit: nat): seq<Entry>
    decreases |values|
  {
    if values == [] then []
    else
      var last := values[|values| - 1];
      UnitEntries(values[..|values| - 1], unit) + (if last.unit == unit then last.entries else [])
  }

  lemma {:induction false} UnitEntriesGrow(values: seq<Registered>, unit: nat, i: nat)
    requires i <= |values|
    ensures |UnitEntries(values[..i], unit)| <= |UnitEntries(values, unit)|
    decreases |values| - i
  {
    if i < |values| {
      UnitEntriesGrow(values, unit, i + 1);
      assert values[..i + 1][..i] == values[..i];
    } else {
      assert values[..i] == values;
    }
  }

  /** The list is in slave order: the entries of a slave stand behind those of the slaves before it. */
  lemma {:induction false} InSlaveOrder(values: seq<Registered>, unit: nat, i: nat)
    requires i < |values| && values[i].unit == unit
    ensures var all, from := UnitEntries(values, unit), |UnitEntries(values[..i], unit)|;
      from + |values[i].entries| <= |all| && all[from..from + |values[i].entries|] == values[i].entries
    decreases |values|
  {
    var n := |values| - 1;
    if i < n {
      InSlaveOrder(values[..n], unit, i);
      assert values[..n][..i] == values[..i];
    }
  }

  function Count(entries: seq<Entry>, e: Entry): nat {
    multiset(entries)[e]
  }

  /** How often the slaves register an entry. */
  function Registrations(values: seq<Registered>, e: Entry): nat
    decreases |values|
  {
    if values == [] then 0
    else Registrations(values[..|values| - 1], e) + Count(values[|values| - 1].entries, e)
  }

  /** How often it occurs in the lists of units 0 .. units-1. */
  function Gathered(values: seq<Registered>, units: nat, e: Entry): nat
    decreases units
  {
    if units == 0 then 0 else Gathered(values, units - 1, e) + Count(UnitEntries(values, units - 1), e)
  }

  /** Every registration reaches exactly one unit: over all units nothing is lost and nothing doubled. */
  lemma {:induction false} NothingLost(values: seq<Registered>, units: nat, e: Entry)
    requires forall v :: v in values ==> v.unit < units
    ensures Gathered(values, units, e) == Registrations(values, e)
    decreases |values|
  {
    hide Gathered, Count;
    if values == [] {
      EmptyGathered(units, e);
    } else {
      var before, last := values[..|values| - 1], values[|values| - 1];
      NothingLost(before, units, e);
      GatherOne(before, last, units, e);
      assert values == before + [last];
    }
  }

  lemma {:induction false} EmptyGathered(units: nat, e: Entry)
    ensures Gathered([], units, e) == 0
  {
    if units > 0 {
      EmptyGathered(units - 1, e);
    }
  }

  lemma {:induction false} GatherOne(before: seq<Registered>, last: Registered, units: nat, e: Entry)
    ensures Gathered(before + [last], units, e)
         == Gathered(before, units, e) + (if last.unit < units then Count(last.entries, e) else 0)
    decreases units
  {
    hide UnitEntries, Count;
    if units > 0 {
      GatherOne(before, last, units - 1, e);
      CountOne(before, last, units - 1, e);
    }
  }

  lemma CountOne(before: seq<Registered>, last: Registered, unit: nat, e: Entry)
    ensures Count(UnitEntries(before + [last], unit), e)
         == Count(UnitEntries(before, unit), e) + (if last.unit == unit then Count(last.entries, e) else 0)
  {
  }

  /** The two passes of rtapi_app_main for one unit: count, allocate one more than that, append. */
  method CollectUnit(slaves: seq<SlaveRegs>, unit: nat, ghost values: seq<Registered>) returns (dest: EntryReg)
    requires Describes(slaves, values)
    ensures fresh(dest) && fresh(dest.regs) && dest.Valid()
    // no append ever fails, the unit's list is exactly its slaves' entries, and a zero entry ends it
    ensures dest.Contents() == UnitEntries(values, unit)
    ensures dest.current < dest.max && dest.regs[dest.current] == TERMINATOR
  {
    hide UnitEntries;
    var count := CountEntries(slaves, unit, values);
    NoEntries(values, unit);
    dest := new EntryReg(count + 1);
    for i := 0 to |slaves|
      invariant fresh(dest) && fresh(dest.regs) && dest.Valid() && dest.max == count + 1
      invariant Describes(slaves, values)
      invariant dest.Contents() == UnitEntries(values[..i], unit)
      invariant forall j :: dest.current <= j < dest.max ==> dest.regs[j] == TERMINATOR
    {
      TakeOne(values, unit, i);
      UnitEntriesGrow(values, unit, i + 1);
      if slaves[i].unit == unit {
        var err := dest.Append(slaves[i].regs);
        assert err == 0;
      }
    }
    assert values[..|slaves|] == values;
  }

  lemma NoEntries(values: seq<Registered>, unit: nat)
    ensures UnitEntries(values[..0], unit) == []
  {
  }

  lemma TakeOne(values: seq<Registered>, unit: nat, i: nat)
    requires i < |values|
    ensures UnitEntries(values[..i + 1], unit)
         == UnitEntries(values[..i], unit) + (if values[i].unit == unit then values[i].entries else [])
  {
    assert values[..i + 1][..i] == values[..i];
  }

  method CountEntries(slaves: seq<SlaveRegs>, unit: nat, ghost values: seq<Registered>) returns (count: nat)
    requires Describes(slaves, values)
    ensures count == |UnitEntries(values, unit)|
  {
    count := 0;
    for i := 0 to |slaves|
      invariant count == |UnitEntries(values[..i], unit)|
    {
      TakeOne(values, unit, i);
      if slaves[i].unit == unit {
        count := count + slaves[i].regs.current;
      }
    }
    assert values[..|slaves|] == values;
  }
}
