/** The bump allocator, and why objects it places cannot disturb each other in the cell memory. */
module Alloc {
  import opened Wrappers
  import opened BitVectors
  import opened FlatMemory
  import CellMemory

  const ALLOC_START: nat := 0x1000_0000

  /** An allocation that was made: its address and its size in bits. */
  datatype Allocation = Allocation(addr: nat, bits: nat)

  function BytesFor(bits: nat): (r: nat)
    ensures bits <= 8 * r < bits + 8
  {
    bits / 8 + if bits % 8 != 0 then 1 else 0
  }

  function End(a: Allocation): nat {
    a.addr + BytesFor(a.bits)
  }

  /** Small objects stay in one cell; large ones start at a cell boundary. */
  predicate WellPlaced(a: Allocation) {
    && (BytesFor(a.bits) <= 8 ==> a.addr % 8 + BytesFor(a.bits) <= 8)
    && (BytesFor(a.bits) > 8 ==> a.addr % 8 == 0)
  }

  /** Where the next object of `bytes` bytes goes. */
  function Placement(cursor: nat, bytes: nat): nat {
    if bytes > 8 - cursor % 8 then cursor + (8 - cursor % 8) else cursor
  }

  /** Every earlier allocation ends before every later one starts. */
  ghost predicate InOrder(log: seq<Allocation>) {
    forall i, j :: 0 <= i < j < |log| ==> End(log[i]) <= log[j].addr
  }

  ghost predicate AllPlaced(log: seq<Allocation>, cursor: nat) {
    forall i :: 0 <= i < |log| ==> WellPlaced(log[i]) && ALLOC_START <= log[i].addr && End(log[i]) <= cursor
  }

  /** No allocation after the `i`-th has its address. */
  ghost predicate Latest(log: seq<Allocation>, i: nat)
    requires i < |log|
  {
    forall j :: i < j < |log| ==> log[j].addr != log[i].addr
  }

  /** The recorded sizes are those of the latest allocation at each address. */
  ghost predicate Records(log: seq<Allocation>, sizes: map<nat, nat>) {
    && (forall a :: a in sizes ==> exists i :: 0 <= i < |log| && log[i].addr == a)
    && (forall i :: 0 <= i < |log| ==> log[i].addr in sizes)
    && (forall i :: 0 <= i < |log| && Latest(log, i) ==> sizes[log[i].addr] == log[i].bits)
  }

  lemma PlacedAppend(log: seq<Allocation>, cursor: nat, bits: nat)
    requires InOrder(log) && AllPlaced(log, cursor) && ALLOC_START <= cursor
    ensures var a := Allocation(Placement(cursor, BytesFor(bits)), bits);
            InOrder(log + [a]) && AllPlaced(log + [a], End(a))
  {
  }

  lemma RecordsAppend(log: seq<Allocation>, sizes: map<nat, nat>, a: Allocation)
    requires Records(log, sizes)
    ensures Records(log + [a], sizes[a.addr := a.bits])
  {
    var log', sizes' := log + [a], sizes[a.addr := a.bits];
    assert log'[|log|] == a;
    forall b | b in sizes'
      ensures exists i :: 0 <= i < |log'| && log'[i].addr == b
    {
      if b != a.addr {
        var i :| 0 <= i < |log| && log[i].addr == b;
        assert log'[i].addr == b;
      }
    }
    forall i | 0 <= i < |log'| && Latest(log', i)
      ensures sizes'[log'[i].addr] == log'[i].bits
    {
      if i < |log| {
        assert log'[|log|].addr != log'[i].addr;
        forall j | i < j < |log|
          ensures log[j].addr != log[i].addr
        {
          assert log'[j].addr != log'[i].addr;
        }
        assert Latest(log, i);
      }
    }
  }

  class Allocator {
    var cursor: nat
    var sizes: map<nat, nat>
    /** All allocations so far. */
    ghost var log: seq<Allocation>

    ghost predicate Valid()
      reads this
    {
      ALLOC_START <= cursor < ADDRESSES && InOrder(log) && AllPlaced(log, cursor) && Records(log, sizes)
    }

    constructor ()
      ensures Valid() && log == []
    {
      cursor, sizes, log := ALLOC_START, map[], [];
    }

    /** The source's arithmetic is 64-bit: the caller must leave room for the object. */
    method Alloc(bits: nat) returns (addr: nat)
      requires Valid() && Placement(cursor, BytesFor(bits)) + BytesFor(bits) < ADDRESSES
      modifies this
      ensures Valid() && log == old(log) + [Allocation(addr, bits)]
      ensures sizes == old(sizes)[addr := bits]
      ensures cursor == addr + BytesFor(bits)
      ensures if BytesFor(bits) <= 8 - old(cursor) % 8 then addr == old(cursor) else old(cursor) < addr <= old(cursor) + 8 && addr % 8 == 0
    {
      hide InOrder, AllPlaced, Records;
      PlacedAppend(log, cursor, bits);
      var bytes := bits / 8;
      if bits % 8 != 0 {
        bytes := bytes + 1;
      }
      var remaining := 8 - cursor % 8;
      if bytes > remaining {
        cursor := cursor + remaining;
      }
      addr := cursor;
      RecordsAppend(log, sizes, Allocation(addr, bits));
      cursor := cursor + bytes;
      sizes := sizes[addr := bits];
      log := log + [Allocation(addr, bits)];
    }

    /** The recorded size of an object that was allocated; `None` for any other address. */
    function GetAllocationSize(addr: nat): (r: Option<nat>)
      requires Valid()
      reads this
      ensures r.None? <==> forall i :: 0 <= i < |log| ==> log[i].addr != addr
      ensures forall i :: 0 <= i < |log| && log[i].addr == addr && log[i].bits > 0 ==> r == Some(log[i].bits)
    {
      LastAt(log, addr);
      if addr in sizes then Some(sizes[addr]) else None
    }
  }

  /** A non-empty object is the latest allocation at its address. */
  lemma LastAt(log: seq<Allocation>, addr: nat)
    requires InOrder(log)
    ensures forall i :: 0 <= i < |log| && log[i].addr == addr && log[i].bits > 0 ==> Latest(log, i)
  {
    forall i, j | 0 <= i < j < |log| && log[i].addr == addr && log[i].bits > 0
      ensures log[j].addr != addr
    {
      assert End(log[i]) <= log[j].addr;
    }
  }

  /** `len` bits starting at byte `off` lie inside allocation `a`: among the bits that were asked for,
      or in what rounding up to bytes added to them. */
  predicate Inside(a: Allocation, off: nat, len: nat) {
    8 * off + len <= a.bits || 8 * off + len <= 8 * BytesFor(a.bits)
  }

  /** In terms of the bits that were asked for: allocations do not overlap, those of at most 64 bits lie in
      one cell, larger ones start at a cell boundary, and none is at the null address. */
  lemma RequestedBits(log: seq<Allocation>, cursor: nat, i: nat, j: nat)
    requires InOrder(log) && AllPlaced(log, cursor) && i < |log|
    ensures i < j < |log| ==> 8 * log[i].addr + log[i].bits <= 8 * log[j].addr
    ensures log[i].bits <= 64 ==> 8 * (log[i].addr % 8) + log[i].bits <= 64
    ensures log[i].bits > 64 ==> log[i].addr % 8 == 0
    ensures log[i].addr > 0
  {
    assert WellPlaced(log[i]);
  }

  /** Ranges inside two different allocations share no bit. */
  lemma InsideSeparate(log: seq<Allocation>, i: nat, off: nat, len: nat, j: nat, off': nat, len': nat)
    requires InOrder(log) && i < |log| && j < |log| && i != j && len > 0 && len' > 0
    requires End(log[i]) < ADDRESSES && End(log[j]) < ADDRESSES
    requires Inside(log[i], off, len) && Inside(log[j], off', len')
    ensures log[i].addr + off < ADDRESSES && log[j].addr + off' < ADDRESSES
    ensures Separate(TOTAL_BITS, 8 * (log[i].addr + off), len, 8 * (log[j].addr + off'), len')
  {
    if i < j {
      assert End(log[i]) <= log[j].addr;
    } else {
      assert End(log[j]) <= log[i].addr;
    }
  }

  /** Writing inside one object never changes what is read inside another, although a small write
      rewrites the cell after it as well. */
  method WriteInside(heap: Allocator, mem: CellMemory.Memory, addr: nat, val: Bits, known: bool,
                     ghost i: nat, ghost off: nat)
    requires heap.Valid() && mem.Valid() && i < |heap.log|
    requires 0 < |val| < 0x1_0000_0000 && (|val| > 64 && !known ==> |val| % 8 == 0)
    requires addr == heap.log[i].addr + off && Inside(heap.log[i], off, |val|)
    modifies mem
    ensures mem.Valid()
    ensures Undisturbed(heap.log, i, old(mem.Flat()), mem.Flat())
    ensures addr < ADDRESSES && FlatRead(mem.Flat(), 8 * addr, |val|) == val
  {
    hide FlatRead, FlatWrite, CellMemory.FlatOf, CellMemory.ValidCells, Records, Undisturbed;
    ghost var s := mem.Flat();
    assert End(heap.log[i]) <= heap.cursor;
    WriteUndisturbed(heap.log, i, off, s, val);
    ReadOverWrite(s, 8 * addr, val);
    mem.Write(addr, val, known);
  }

  /** Every read inside an allocation other than the `i`-th gives the same bits in both memories. */
  ghost predicate Undisturbed(log: seq<Allocation>, i: nat, s: Bits, s': Bits)
    requires |s| == |s'| == TOTAL_BITS
  {
    forall j, off: nat, n: nat ::
      0 <= j < |log| && j != i && 0 < n && Inside(log[j], off, n) && End(log[j]) < ADDRESSES ==>
        FlatRead(s', 8 * (log[j].addr + off), n) == FlatRead(s, 8 * (log[j].addr + off), n)
  }

  lemma WriteUndisturbed(log: seq<Allocation>, i: nat, off: nat, s: Bits, val: Bits)
    requires InOrder(log) && i < |log| && End(log[i]) < ADDRESSES && |s| == TOTAL_BITS
    requires 0 < |val| && Inside(log[i], off, |val|)
    ensures Undisturbed(log, i, s, FlatWrite(s, 8 * (log[i].addr + off), val))
  {
    forall j, off': nat, n: nat |
      0 <= j < |log| && j != i && 0 < n && Inside(log[j], off', n) && End(log[j]) < ADDRESSES
      ensures FlatRead(FlatWrite(s, 8 * (log[i].addr + off), val), 8 * (log[j].addr + off'), n)
           == FlatRead(s, 8 * (log[j].addr + off'), n)
    {
      InsideSeparate(log, i, off, |val|, j, off', n);
      ReadElsewhere(s, 8 * (log[i].addr + off), val, 8 * (log[j].addr + off'), n);
    }
  }
}
