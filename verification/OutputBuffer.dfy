/**
 The output buffer of the configuration program: a linked list of separately allocated items, which
 callers keep pointers into and patch, and which is finally copied out in one piece and released.
 */
module OutputBuffer {
  import opened ConfigFormat

  class Item {
    var data: Chunk
    var next: Item?

    constructor (data: Chunk)
      ensures this.data == data && next == null
    {
      this.data, next := data, null;
    }
  }

  class Buffer {
    var head: Item?
    var tail: Item?
    var len: nat
    ghost var items: seq<Item>

    /** The list from head runs through items, in which nothing repeats, and ends at tail. */
    ghost predicate Valid()
      reads this, items
    {
      && (forall i, j :: 0 <= i < j < |items| ==> items[i] != items[j])
      && (if items == [] then head == null && tail == null else head == items[0] && tail == items[|items| - 1])
      && Linked(items)
      && len == |Concat(Contents(items))|
    }

    constructor ()
      ensures Valid() && items == []
    {
      head, tail, len, items := null, null, 0, [];
    }

    /** Append a fresh item; no other item changes, and the length grows by what was asked for. */
    method Add(data: Chunk) returns (p: Item)
      requires Valid()
      modifies this, tail
      ensures Valid() && fresh(p) && items == old(items) + [p]
      ensures Contents(items) == old(Contents(items)) + [data]
      ensures forall x <- old(items) :: x.data == old(x.data)
    {
      hide Concat, Contents;
      ghost var before := Contents(items);
      p := new Item(data);
      len := len + |data|;
      if head == null {
        head := p;
      }
      if tail != null {
        tail.next := p;
      }
      tail := p;
      items := items + [p];
      assert Contents(items) == before + [data];
      ConcatOneMore(before, data);
    }

    /** Write through a pointer kept from Add: that item changes, in place and not in size. */
    method Patch(ghost k: nat, p: Item, data: Chunk)
      requires Valid() && k < |items| && items[k] == p && |data| == |p.data|
      modifies p`data
      ensures Valid() && Contents(items) == old(Contents(items))[k := data]
    {
      ghost var before := Contents(items);
      p.data := data;
      assert Contents(items) == before[k := data];
      ConcatLength(before, k, data);
    }

    /** Copy the items one behind the other into a block of len cells; the list is empty afterwards. */
    method CopyFree(dest: array<Cell>)
      requires Valid() && dest.Length == len
      modifies this`head, dest
      ensures dest[..] == Concat(old(Contents(items)))
      ensures head == null
    {
      hide Concat, Contents, Linked;
      ghost var all := Contents(items);
      ghost var k := 0;
      var at := 0;
      ConcatNothing(all);
      while head != null
        invariant k <= |items| == |all| && all == Contents(items) && Linked(items)
        invariant head == if k < |items| then items[k] else null
        invariant at == |Concat(all[..k])| <= dest.Length == |Concat(all)|
        invariant dest[..at] == Concat(all[..k])
        decreases |items| - k
      {
        var d := head.data;
        ConcatStep(all, k);
        CopyInto(dest, at, d);
        at := at + |d|;
        LinkAt(items, k);
        head := head.next;
        k := k + 1;
      }
      assert all[..k] == all && dest[..at] == dest[..];
    }
  }

  method CopyInto(dest: array<Cell>, at: nat, d: Chunk)
    requires at + |d| <= dest.Length
    modifies dest
    ensures dest[..at + |d|] == old(dest[..at]) + d
  {
    forall i | 0 <= i < |d| {
      dest[at + i] := d[i];
    }
  }

  /** Each item points to the next one. */
  ghost predicate Linked(items: seq<Item>)
    reads items`next
  {
    forall i :: 0 <= i < |items| ==> items[i].next == if i + 1 < |items| then items[i + 1] else null
  }

  lemma LinkAt(items: seq<Item>, k: nat)
    requires Linked(items) && k < |items|
    ensures items[k].next == if k + 1 < |items| then items[k + 1] else null
  {
  }

  lemma ConcatNothing(all: seq<Chunk>)
    ensures all[..0] == [] && Concat(all[..0]) == []
  {
  }

  lemma ConcatOneMore(a: seq<Chunk>, d: Chunk)
    ensures Concat(a + [d]) == Concat(a) + d
  {
    ConcatAppend(a, [d]);
    assert Concat([d]) == d;
  }

  lemma ConcatStep(all: seq<Chunk>, k: nat)
    requires k < |all|
    ensures Concat(all[..k + 1]) == Concat(all[..k]) + all[k]
    ensures |Concat(all[..k])| + |all[k]| <= |Concat(all)|
  {
    assert all[..k + 1] == all[..k] + [all[k]] && all == all[..k + 1] + all[k + 1..];
    ConcatAppend(all[..k], [all[k]]);
    ConcatAppend(all[..k + 1], all[k + 1..]);
    assert Concat([all[k]]) == all[k];
  }

  ghost function Contents(items: seq<Item>): (r: seq<Chunk>)
    reads items`data
    ensures |r| == |items| && forall i :: 0 <= i < |r| ==> r[i] == items[i].data
  {
    if items == [] then []
    else
      var last := |items| - 1;
      Contents(items[..last]) + [items[last].data]
  }

  /** Replacing a chunk by one of the same size keeps the length of the whole. */
  lemma {:induction false} ConcatLength(chunks: seq<Chunk>, k: nat, data: Chunk)
    requires k < |chunks| && |data| == |chunks[k]|
    ensures |Concat(chunks[k := data])| == |Concat(chunks)|
  {
    if k == 0 {
      assert chunks[k := data][1..] == chunks[1..];
    } else {
      ConcatLength(chunks[1..], k - 1, data);
      assert chunks[k := data][1..] == chunks[1..][k - 1 := data];
    }
  }
}
