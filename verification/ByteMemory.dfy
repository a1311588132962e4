/** The simple memory made of bytes, with the contents under one model. */
module ByteMemory {
  import opened BitVectors
  import opened FlatMemory

  type Bytes = map<int, Bits>

  ghost predicate ValidBytes(bytes: Bytes) {
    forall a :: 0 <= a < ADDRESSES ==> a in bytes && |bytes[a]| == 8
  }

  ghost function FlatOf(bytes: Bytes): (s: Bits)
    requires ValidBytes(bytes)
    ensures |s| == TOTAL_BITS
  {
    seq(TOTAL_BITS, j requires 0 <= j < TOTAL_BITS => bytes[j / 8][j % 8])
  }

  lemma ByteRead(bytes: Bytes, addr: nat, bits: nat)
    requires ValidBytes(bytes) && addr < ADDRESSES && bits <= 8
    ensures bytes[addr][..bits] == FlatRead(FlatOf(bytes), 8 * addr, bits)
  {
    var a, b := bytes[addr][..bits], FlatRead(FlatOf(bytes), 8 * addr, bits);
    forall k | 0 <= k < bits
      ensures a[k] == b[k]
    {
      assert b[k] == FlatOf(bytes)[Wrap(TOTAL_BITS, 8 * addr + k)];
    }
  }

  lemma ByteWrite(bytes: Bytes, addr: nat, val: Bits)
    requires ValidBytes(bytes) && addr < ADDRESSES && |val| == 8
    ensures ValidBytes(bytes[addr := val])
    ensures FlatOf(bytes[addr := val]) == FlatWrite(FlatOf(bytes), 8 * addr, val)
  {
    var a, b := FlatOf(bytes[addr := val]), FlatWrite(FlatOf(bytes), 8 * addr, val);
    forall j | 0 <= j < TOTAL_BITS
      ensures a[j] == b[j]
    {
      var d := Dist(TOTAL_BITS, 8 * addr, j);
      assert if j / 8 == addr then d == j % 8 else d >= 8;
    }
  }

  function Blank(i: int): (r: Bits)
    ensures |r| == 8
  {
    Zeros(8)
  }

  class Memory {
    var mem: Bytes

    ghost predicate Valid()
      reads this
    {
      ValidBytes(mem)
    }

    ghost function Flat(): (s: Bits)
      requires Valid()
      reads this
      ensures |s| == TOTAL_BITS
    {
      FlatOf(mem)
    }

    constructor ()
      ensures Valid() && Flat() == Zeros(TOTAL_BITS)
    {
      mem := map i | 0 <= i < ADDRESSES :: Blank(i);
    }

    function ReadBytes(addr: nat, k: nat): (r: Bits)
      requires Valid() && addr < ADDRESSES && 0 < k < 0x1_0000_0000
      reads this
      ensures r == FlatRead(Flat(), 8 * addr, 8 * k)
    {
      var a := AddrAdd(addr, k - 1);
      ByteRead(mem, a, 8);
      assert mem[a][..8] == mem[a];
      if k == 1 then mem[a]
      else
        ReadCompose(Flat(), 8 * addr, 8 * (k - 1), 8);
        Concat(mem[a], ReadBytes(addr, k - 1))
    }

    function Read(addr: nat, bits: nat): (r: Bits)
      requires Valid() && addr < ADDRESSES && 0 < bits < 0x1_0000_0000 && (bits < 8 || bits % 8 == 0)
      reads this
      ensures r == FlatRead(Flat(), 8 * addr, bits)
    {
      if bits < 8 then
        ByteRead(mem, addr, bits);
        Slice(mem[addr], bits - 1, 0)
      else ReadBytes(addr, bits / 8)
    }

    /** A value of less than a byte is extended with zeroes to a whole byte. */
    method Write(addr: nat, val: Bits)
      requires Valid() && addr < ADDRESSES && 0 < |val| < 0x1_0000_0000 && (|val| < 8 || |val| % 8 == 0)
      modifies this
      ensures Valid()
      ensures Flat() == FlatWrite(old(Flat()), 8 * addr, if |val| < 8 then Uext(val, 8 - |val|) else val)
    {
      var data := if |val| < 8 then Uext(val, 8 - |val|) else val;
      ghost var s := Flat();
      assert FlatWrite(s, 8 * addr, data[..0]) == s;
      hide FlatWrite, FlatOf, ValidBytes;
      var i := 0;
      while i < |data| / 8
        invariant 0 <= i <= |data| / 8
        invariant Valid() && Flat() == FlatWrite(s, 8 * addr, data[..8 * i])
      {
        var byte := Slice(data, 8 * (i + 1) - 1, 8 * i);
        WriteCompose(s, 8 * addr, data[..8 * i], byte);
        assert data[..8 * i] + byte == data[..8 * (i + 1)];
        ByteWrite(mem, AddrAdd(addr, i), byte);
        mem := mem[AddrAdd(addr, i) := byte];
        i := i + 1;
      }
      assert data[..8 * i] == data;
    }
  }
}
