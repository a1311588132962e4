/**
  The memory made of 64-bit cells.

  A symbolic read or write acts on each model separately, so the class holds the contents
  under one model.  Whether the solver knows a constant for an address does not depend on
  the model; it selects the strategy and is the parameter `known`.
 */
module CellMemory {
  import opened BitVectors
  import opened FlatMemory

  const CELLS: nat := 0x2000_0000_0000_0000

  type Cells = map<int, Bits>

  ghost predicate ValidCells(cells: Cells) {
    forall i :: 0 <= i < CELLS ==> i in cells && |cells[i]| == 64
  }

  ghost function FlatOf(cells: Cells): (s: Bits)
    requires ValidCells(cells)
    ensures |s| == TOTAL_BITS
  {
    seq(TOTAL_BITS, j requires 0 <= j < TOTAL_BITS => cells[j / 64][j % 64])
  }

  /** Bit `k` of the cell that contains `addr`, counted from `addr`. */
  lemma BitInCell(addr: nat, k: nat)
    requires addr < ADDRESSES && 8 * (addr % 8) + k < 64
    ensures 8 * addr + k < TOTAL_BITS
    ensures (8 * addr + k) / 64 == addr / 8 && (8 * addr + k) % 64 == 8 * (addr % 8) + k
  {
  }

  lemma CellRead(cells: Cells, addr: nat, bits: nat)
    requires ValidCells(cells) && addr < ADDRESSES && 8 * (addr % 8) + bits <= 64
    ensures cells[addr / 8][8 * (addr % 8)..8 * (addr % 8) + bits] == FlatRead(FlatOf(cells), 8 * addr, bits)
  {
    var a, b := cells[addr / 8][8 * (addr % 8)..8 * (addr % 8) + bits], FlatRead(FlatOf(cells), 8 * addr, bits);
    forall k | 0 <= k < bits
      ensures a[k] == b[k]
    {
      BitInCell(addr, k);
      assert b[k] == FlatOf(cells)[Wrap(TOTAL_BITS, 8 * addr + k)];
    }
  }

  lemma CellWrite(cells: Cells, addr: nat, val: Bits)
    requires ValidCells(cells) && addr < ADDRESSES && 8 * (addr % 8) + |val| <= 64
    ensures var o := 8 * (addr % 8);
            var cell := cells[addr / 8];
            var cells' := cells[addr / 8 := cell[..o] + val + cell[o + |val|..]];
            ValidCells(cells') && FlatOf(cells') == FlatWrite(FlatOf(cells), 8 * addr, val)
  {
    var q, o := addr / 8, 8 * (addr % 8);
    var cells' := cells[q := cells[q][..o] + val + cells[q][o + |val|..]];
    var a, b := FlatOf(cells'), FlatWrite(FlatOf(cells), 8 * addr, val);
    forall j | 0 <= j < TOTAL_BITS
      ensures a[j] == b[j]
    {
      var d := Dist(TOTAL_BITS, 8 * addr, j);
      if j / 64 == q && o <= j % 64 {
        assert d == j % 64 - o;
      } else {
        assert d >= |val|;
      }
    }
  }

  lemma BitInNextCell(addr: nat, k: nat)
    requires addr < ADDRESSES && k < 64 <= 8 * (addr % 8) + k
    ensures var j := Wrap(TOTAL_BITS, 8 * addr + k);
            j / 64 == AddrAdd(addr, 8) / 8 && j % 64 == 8 * (addr % 8) + k - 64
  {
    assert 8 * AddrAdd(addr, 8) == Wrap(TOTAL_BITS, 8 * addr + 64);
  }

  /** Two neighbouring cells, the second possibly wrapping to cell 0, read as one. */
  lemma PairRead(cells: Cells, addr: nat, bits: nat)
    requires ValidCells(cells) && addr < ADDRESSES && bits <= 64
    ensures var merged := Concat(cells[AddrAdd(addr, 8) / 8], cells[addr / 8]);
            merged[8 * (addr % 8)..8 * (addr % 8) + bits] == FlatRead(FlatOf(cells), 8 * addr, bits)
  {
    var o := 8 * (addr % 8);
    var merged := Concat(cells[AddrAdd(addr, 8) / 8], cells[addr / 8]);
    var a, b := merged[o..o + bits], FlatRead(FlatOf(cells), 8 * addr, bits);
    forall k | 0 <= k < bits
      ensures a[k] == b[k]
    {
      if o + k < 64 {
        BitInCell(addr, k);
        assert b[k] == FlatOf(cells)[Wrap(TOTAL_BITS, 8 * addr + k)];
      } else {
        BitInNextCell(addr, k);
        assert b[k] == FlatOf(cells)[Wrap(TOTAL_BITS, 8 * addr + k)];
      }
    }
  }

  lemma PairWrite(cells: Cells, addr: nat, val: Bits)
    requires ValidCells(cells) && addr < ADDRESSES && |val| <= 64
    ensures var o, next := 8 * (addr % 8), AddrAdd(addr, 8) / 8;
            var merged := Concat(cells[next], cells[addr / 8]);
            var data := merged[..o] + val + merged[o + |val|..];
            var cells' := cells[addr / 8 := data[..64]][next := data[64..]];
            ValidCells(cells') && FlatOf(cells') == FlatWrite(FlatOf(cells), 8 * addr, val)
  {
    var q: nat, o: nat, next: nat := addr / 8, 8 * (addr % 8), AddrAdd(addr, 8) / 8;
    NextCell(addr);
    var merged := Concat(cells[next], cells[q]);
    var data := merged[..o] + val + merged[o + |val|..];
    var cells': Cells := cells[q := data[..64]][next := data[64..]];
    assert ValidCells(cells');
    hide ValidCells, AddrAdd, Dist;
    var a, b := FlatOf(cells'), FlatWrite(FlatOf(cells), 8 * addr, val);
    forall j | 0 <= j < TOTAL_BITS
      ensures a[j] == b[j]
    {
      PairDist(addr, j);
      assert a[j] == cells'[j / 64][j % 64];
      var d := Dist(TOTAL_BITS, 8 * addr, j);
      assert b[j] == if d < |val| then val[d] else cells[j / 64][j % 64];
      if j / 64 == q {
        assert a[j] == data[j % 64];
      } else if j / 64 == next {
        assert a[j] == data[64 + j % 64];
      }
    }
  }

  lemma NextCell(addr: nat)
    requires addr < ADDRESSES
    ensures var q, next := addr / 8, AddrAdd(addr, 8) / 8;
            0 <= q < CELLS && 0 <= next < CELLS && next != q && next == if q + 1 == CELLS then 0 else q + 1
  {
  }

  lemma PairDist(addr: nat, j: nat)
    requires addr < ADDRESSES && j < TOTAL_BITS
    ensures var o, d := 8 * (addr % 8), Dist(TOTAL_BITS, 8 * addr, j);
            if j / 64 == addr / 8 then (if j % 64 >= o then d == j % 64 - o else d >= 64)
            else if j / 64 == AddrAdd(addr, 8) / 8 then d == 64 - o + j % 64
            else d >= 64
  {
    NextCell(addr);
  }

  function Blank(i: int): (r: Bits)
    ensures |r| == 64
  {
    Zeros(64)
  }

  class Memory {
    var mem: Cells

    ghost predicate Valid()
      reads this
    {
      ValidCells(mem)
    }

    /** The contents as one sequence of bits. */
    ghost function Flat(): (s: Bits)
      requires Valid()
      reads this
      ensures |s| == TOTAL_BITS
    {
      FlatOf(mem)
    }

    /** All zeroes. */
    constructor ()
      ensures Valid() && Flat() == Zeros(TOTAL_BITS)
    {
      mem := map i | 0 <= i < CELLS :: Blank(i);
    }

    function ReadCell(addr: nat): (r: Bits)
      requires Valid() && addr < ADDRESSES
      reads this
      ensures |r| == 64
    {
      mem[addr / 8]
    }

    method WriteCell(addr: nat, val: Bits)
      requires Valid() && addr < ADDRESSES && |val| == 64
      modifies this
      ensures Valid() && mem == old(mem)[addr / 8 := val]
    {
      mem := mem[addr / 8 := val];
    }

    /** Any number of bits that stay within one cell. */
    function ReadWithinCell(addr: nat, bits: nat): (r: Bits)
      requires Valid() && addr < ADDRESSES && 0 < bits && 8 * (addr % 8) + bits <= 64
      reads this
      ensures r == FlatRead(Flat(), 8 * addr, bits)
    {
      CellRead(mem, addr, bits);
      var cell := ReadCell(addr);
      if bits == 64 then cell else Slice(Srl(cell, 8 * (addr % 8)), bits - 1, 0)
    }

    method WriteWithinCell(addr: nat, val: Bits)
      requires Valid() && addr < ADDRESSES && 8 * (addr % 8) + |val| <= 64
      modifies this
      ensures Valid() && Flat() == FlatWrite(old(Flat()), 8 * addr, val)
    {
      CellWrite(mem, addr, val);
      var data;
      if |val| == 64 {
        data := val;
      } else {
        data := Masked(ReadCell(addr), val, 8 * (addr % 8));
      }
      assert data == mem[addr / 8][..8 * (addr % 8)] + val + mem[addr / 8][8 * (addr % 8) + |val|..];
      WriteCell(addr, data);
    }

    /** Up to one cell's worth of bits at any alignment; may straddle two cells. */
    function ReadSmall(addr: nat, bits: nat): (r: Bits)
      requires Valid() && addr < ADDRESSES && 0 < bits <= 64
      reads this
      ensures r == FlatRead(Flat(), 8 * addr, bits)
    {
      if bits <= 8 then ReadWithinCell(addr, bits)
      else
        PairRead(mem, addr, bits);
        var merged := Concat(ReadCell(AddrAdd(addr, 8)), ReadCell(addr));
        Slice(Srl(merged, 8 * (addr % 8)), bits - 1, 0)
    }

    /** Rewrites the next cell too, even when the value does not reach it. */
    method WriteSmall(addr: nat, val: Bits)
      requires Valid() && addr < ADDRESSES && |val| <= 64
      modifies this
      ensures Valid() && Flat() == FlatWrite(old(Flat()), 8 * addr, val)
    {
      if |val| <= 8 {
        WriteWithinCell(addr, val);
      } else {
        PairWrite(mem, addr, val);
        var next := AddrAdd(addr, 8);
        var data := Masked(Concat(ReadCell(next), ReadCell(addr)), val, 8 * (addr % 8));
        WriteCell(addr, Slice(data, 63, 0));
        WriteCell(next, Slice(data, 127, 64));
      }
    }

    /** The size of the `i`-th access of an aligned access of `bits` bits. */
    static function ChunkSize(bits: nat, i: nat): nat
      requires 0 < bits && i <= (bits - 1) / 64
    {
      if i < (bits - 1) / 64 then 64 else (bits - 1) % 64 + 1
    }

    static lemma ChunkBounds(bits: nat, i: nat)
      requires 0 < bits && i <= (bits - 1) / 64
      ensures 0 < ChunkSize(bits, i) <= 64 && 64 * i + ChunkSize(bits, i) <= bits
      ensures i == (bits - 1) / 64 ==> 64 * i + ChunkSize(bits, i) == bits
      ensures i < (bits - 1) / 64 ==> ChunkSize(bits, i) == 64
    {
    }

    static lemma ChunkAddress(addr: nat, i: nat)
      requires addr < ADDRESSES && addr % 8 == 0 && i < 0x1_0000_0000
      ensures AddrAdd(addr, 8 * i) % 8 == 0
      ensures 8 * AddrAdd(addr, 8 * i) == Wrap(TOTAL_BITS, 8 * addr + 64 * i)
    {
    }

    /** The first `k` chunks, put together from the lowest up. */
    function ReadChunks(addr: nat, bits: nat, k: nat): (r: Bits)
      requires Valid() && addr < ADDRESSES && addr % 8 == 0 && 0 < bits < 0x1_0000_0000 && 0 < k <= (bits - 1) / 64 + 1
      reads this
      ensures r == FlatRead(Flat(), 8 * addr, 64 * (k - 1) + ChunkSize(bits, k - 1))
    {
      hide FlatRead, FlatOf, ValidCells, AddrAdd, Wrap, ChunkSize;
      ChunkBounds(bits, k - 1);
      ChunkAddress(addr, k - 1);
      var chunk := ReadWithinCell(AddrAdd(addr, 8 * (k - 1)), ChunkSize(bits, k - 1));
      if k == 1 then chunk
      else
        ChunkBounds(bits, k - 2);
        ReadCompose(Flat(), 8 * addr, 64 * (k - 1), ChunkSize(bits, k - 1));
        Concat(chunk, ReadChunks(addr, bits, k - 1))
    }

    /** Any number of bits from a cell boundary on. */
    function ReadLargeAligned(addr: nat, bits: nat): (r: Bits)
      requires Valid() && addr < ADDRESSES && addr % 8 == 0 && 0 < bits < 0x1_0000_0000
      reads this
      ensures r == FlatRead(Flat(), 8 * addr, bits)
    {
      ChunkBounds(bits, (bits - 1) / 64);
      ReadChunks(addr, bits, (bits - 1) / 64 + 1)
    }

    static lemma ChunkAppended(val: Bits, i: nat)
      requires 0 < |val| && i <= (|val| - 1) / 64
      ensures 64 * i + ChunkSize(|val|, i) <= |val|
      ensures val[..64 * i] + val[64 * i..64 * i + ChunkSize(|val|, i)]
           == if i < (|val| - 1) / 64 then val[..64 * (i + 1)] else val
    {
    }

    /** One iteration of an aligned write. */
    method WriteChunk(addr: nat, val: Bits, i: nat, ghost s: Bits)
      requires Valid() && addr < ADDRESSES && addr % 8 == 0 && 0 < |val| < 0x1_0000_0000 && i <= (|val| - 1) / 64
      requires |s| == TOTAL_BITS && Flat() == FlatWrite(s, 8 * addr, val[..64 * i])
      modifies this
      ensures Valid()
      ensures Flat() == FlatWrite(s, 8 * addr, if i < (|val| - 1) / 64 then val[..64 * (i + 1)] else val)
    {
      hide FlatWrite, FlatOf, ValidCells, AddrAdd, Wrap, ChunkSize;
      ChunkBounds(|val|, i);
      ChunkAddress(addr, i);
      var data := Slice(val, ChunkSize(|val|, i) + 64 * i - 1, 64 * i);
      WriteCompose(s, 8 * addr, val[..64 * i], data);
      ChunkAppended(val, i);
      WriteWithinCell(AddrAdd(addr, 8 * i), data);
    }

    method WriteLargeAligned(addr: nat, val: Bits)
      requires Valid() && addr < ADDRESSES && addr % 8 == 0 && 0 < |val| < 0x1_0000_0000
      modifies this
      ensures Valid() && Flat() == FlatWrite(old(Flat()), 8 * addr, val)
    {
      ghost var s := Flat();
      assert FlatWrite(s, 8 * addr, val[..0]) == s;
      hide FlatWrite, FlatOf, ValidCells;
      var n := (|val| - 1) / 64;
      var i := 0;
      while i <= n
        invariant 0 <= i <= n + 1
        invariant Valid()
        invariant Flat() == FlatWrite(s, 8 * addr, if i <= n then val[..64 * i] else val)
      {
        WriteChunk(addr, val, i, s);
        i := i + 1;
      }
    }

    /** The bytes `0` to `k - 1` after `addr`, read one by one. */
    function ReadBytes(addr: nat, k: nat): (r: Bits)
      requires Valid() && addr < ADDRESSES && 0 < k < 0x1_0000_0000
      reads this
      ensures r == FlatRead(Flat(), 8 * addr, 8 * k)
    {
      var byte := ReadWithinCell(AddrAdd(addr, k - 1), 8);
      if k == 1 then byte
      else
        ReadCompose(Flat(), 8 * addr, 8 * (k - 1), 8);
        Concat(byte, ReadBytes(addr, k - 1))
    }

    method WriteBytes(addr: nat, val: Bits)
      requires Valid() && addr < ADDRESSES && |val| % 8 == 0 && |val| < 0x1_0000_0000
      modifies this
      ensures Valid() && Flat() == FlatWrite(old(Flat()), 8 * addr, val)
    {
      ghost var s := Flat();
      assert FlatWrite(s, 8 * addr, val[..0]) == s;
      hide FlatWrite, FlatOf, ValidCells;
      var i := 0;
      while i < |val| / 8
        invariant 0 <= i <= |val| / 8
        invariant Valid() && Flat() == FlatWrite(s, 8 * addr, val[..8 * i])
      {
        var byte := Slice(val, 8 * (i + 1) - 1, 8 * i);
        WriteCompose(s, 8 * addr, val[..8 * i], byte);
        assert val[..8 * i] + byte == val[..8 * (i + 1)];
        WriteWithinCell(AddrAdd(addr, i), byte);
        i := i + 1;
      }
      assert val[..8 * i] == val;
    }

    /** Whichever strategy is chosen, a read returns the current bits: across cells, and across the
        end of the address space. */
    function Read(addr: nat, bits: nat, known: bool): (r: Bits)
      requires Valid() && addr < ADDRESSES && 0 < bits < 0x1_0000_0000
      requires bits > 64 && !known ==> bits % 8 == 0
      reads this
      ensures r == FlatRead(Flat(), 8 * addr, bits)
    {
      hide FlatRead, FlatOf, ValidCells;
      if bits <= 64 then ReadSmall(addr, bits)
      else if known then
        var offset := addr % 8;
        if offset == 0 then ReadLargeAligned(addr, bits)
        else
          var toBoundary := 8 - offset;
          ReadCompose(Flat(), 8 * addr, 8 * toBoundary, bits - 8 * toBoundary);
          var first := ReadSmall(addr, 8 * toBoundary);
          Concat(ReadLargeAligned(AddrAdd(addr, toBoundary), bits - 8 * toBoundary), first)
      else ReadBytes(addr, bits / 8)
    }

    /** Whichever strategy is chosen, a write changes exactly the bits it names. */
    method Write(addr: nat, val: Bits, known: bool)
      requires Valid() && addr < ADDRESSES && 0 < |val| < 0x1_0000_0000
      requires |val| > 64 && !known ==> |val| % 8 == 0
      modifies this
      ensures Valid() && Flat() == FlatWrite(old(Flat()), 8 * addr, val)
    {
      hide FlatWrite, FlatOf, ValidCells;
      if |val| <= 64 {
        WriteSmall(addr, val);
      } else if known {
        var offset := addr % 8;
        if offset == 0 {
          WriteLargeAligned(addr, val);
        } else {
          var toBoundary := 8 - offset;
          var first := Slice(val, 8 * toBoundary - 1, 0);
          var rest := Slice(val, |val| - 1, 8 * toBoundary);
          WriteCompose(Flat(), 8 * addr, first, rest);
          assert first + rest == val;
          WriteSmall(addr, first);
          WriteLargeAligned(AddrAdd(addr, toBoundary), rest);
        }
      } else {
        WriteBytes(addr, val);
      }
    }
  }
}
