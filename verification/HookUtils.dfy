/**
  memset and memcpy on the cell memory, under one model: the one-shot versions used for a
  concrete length, and the byte loops used for a symbolic one.
 */
module HookUtils {
  import opened BitVectors
  import opened FlatMemory
  import CellMemory

  /** One large read and one large write. */
  function OneShot(s: Bits, dest: nat, src: nat, n: nat): (r: Bits)
    requires |s| == TOTAL_BITS && dest < ADDRESSES && src < ADDRESSES && n <= ADDRESSES
    ensures |r| == TOTAL_BITS
  {
    FlatWrite(s, 8 * dest, FlatRead(s, 8 * src, 8 * n))
  }

  /** The destination then holds what the source held, and every range outside it is unchanged. */
  lemma OneShotCopies(s: Bits, dest: nat, src: nat, n: nat, q: nat, len: nat)
    requires |s| == TOTAL_BITS && dest < ADDRESSES && src < ADDRESSES && n <= ADDRESSES && q < TOTAL_BITS && len <= TOTAL_BITS
    ensures FlatRead(OneShot(s, dest, src, n), 8 * dest, 8 * n) == FlatRead(s, 8 * src, 8 * n)
    ensures Separate(TOTAL_BITS, 8 * dest, 8 * n, q, len) ==> FlatRead(OneShot(s, dest, src, n), q, len) == FlatRead(s, q, len)
  {
    hide FlatRead, FlatWrite, Separate;
    var v := FlatRead(s, 8 * src, 8 * n);
    ReadOverWrite(s, 8 * dest, v);
    if Separate(TOTAL_BITS, 8 * dest, 8 * n, q, len) {
      ReadElsewhere(s, 8 * dest, v, q, len);
    }
  }

  /** The first `i` bytes copied one by one, upwards. */
  function CopyForward(s: Bits, dest: nat, src: nat, i: nat): (r: Bits)
    requires |s| == TOTAL_BITS && dest < ADDRESSES && src < ADDRESSES && i <= ADDRESSES
    ensures |r| == TOTAL_BITS
  {
    if i == 0 then s
    else
      var t := CopyForward(s, dest, src, i - 1);
      FlatWrite(t, 8 * AddrAdd(dest, i - 1), FlatRead(t, 8 * AddrAdd(src, i - 1), 8))
  }

  /** How far `dest` is above `src`, on 64-bit addresses. */
  function Ahead(dest: nat, src: nat): (r: nat)
    requires dest < ADDRESSES && src < ADDRESSES
    ensures r < ADDRESSES
  {
    if dest >= src then dest - src else dest + ADDRESSES - src
  }

  /** The destination starts inside the source, after its first byte. */
  predicate Clobbers(dest: nat, src: nat, n: nat)
    requires dest < ADDRESSES && src < ADDRESSES
  {
    1 <= Ahead(dest, src) < n
  }

  lemma WriteNothing(s: Bits, p: nat)
    requires p < |s|
    ensures FlatWrite(s, p, []) == s
  {
  }

  lemma WriteBack(s: Bits, p: nat, n: nat)
    requires p < |s| && n <= |s|
    ensures FlatWrite(s, p, FlatRead(s, p, n)) == s
  {
    var t := FlatWrite(s, p, FlatRead(s, p, n));
    forall j | 0 <= j < |s|
      ensures t[j] == s[j]
    {
      var d := Dist(|s|, p, j);
      if d < n {
        assert Wrap(|s|, p + d) == j;
      }
    }
  }

  lemma NextByteSeparate(dest: nat, src: nat, n: nat, i: nat)
    requires dest < ADDRESSES && src < ADDRESSES && i < n <= ADDRESSES && !Clobbers(dest, src, n)
    ensures i > 0 ==> Separate(TOTAL_BITS, 8 * dest, 8 * i, 8 * AddrAdd(src, i), 8)
  {
    var a := AddrAdd(src, i);
    assert a == if src + i < ADDRESSES then src + i else src + i - ADDRESSES;
  }

  /** Without a clobbered source, copying upwards is copying at once. */
  lemma {:induction false} ForwardIsOneShot(s: Bits, dest: nat, src: nat, n: nat, i: nat)
    requires |s| == TOTAL_BITS && dest < ADDRESSES && src < ADDRESSES && i <= n <= ADDRESSES
    requires !Clobbers(dest, src, n)
    ensures CopyForward(s, dest, src, i) == OneShot(s, dest, src, i)
  {
    hide FlatRead, FlatWrite, Dist, AddrAdd, Clobbers, Separate, Wrap;
    if i == 0 {
      WriteNothing(s, 8 * dest);
      assert FlatRead(s, 8 * src, 0) == [];
    } else {
      var k := i - 1;
      ForwardIsOneShot(s, dest, src, n, k);
      var v := FlatRead(s, 8 * src, 8 * k);
      var byte := FlatRead(s, 8 * AddrAdd(src, k), 8);
      NextByteSeparate(dest, src, n, k);
      if k > 0 {
        ReadElsewhere(s, 8 * dest, v, 8 * AddrAdd(src, k), 8);
      } else {
        assert v == [];
        WriteNothing(s, 8 * dest);
      }
      assert CopyForward(s, dest, src, i) == FlatWrite(FlatWrite(s, 8 * dest, v), 8 * AddrAdd(dest, k), byte);
      WriteCompose(s, 8 * dest, v, byte);
      ReadCompose(s, 8 * src, 8 * k, 8);
    }
  }

  /** A memory that is clear except for the first bit of the byte at `src`. */
  function OneBit(src: nat): (s: Bits)
    ensures |s| == TOTAL_BITS
  {
    seq(TOTAL_BITS, j => j == 8 * src)
  }

  /** When the source is clobbered, the first byte is copied over and over. */
  lemma {:induction false} Smears(dest: nat, src: nat, n: nat, i: nat)
    requires dest < ADDRESSES && src < ADDRESSES && i <= n <= ADDRESSES && Clobbers(dest, src, n)
    ensures i > 0 ==> CopyForward(OneBit(src), dest, src, i)[8 * dest]
    ensures i > Ahead(dest, src) ==>
              CopyForward(OneBit(src), dest, src, i)[8 * AddrAdd(dest, Ahead(dest, src))]
  {
    hide FlatRead, FlatWrite;
    if i > 0 {
      var k, h := i - 1, Ahead(dest, src);
      Smears(dest, src, n, k);
      var t, t' := CopyForward(OneBit(src), dest, src, k), CopyForward(OneBit(src), dest, src, i);
      var a, b := AddrAdd(src, k), AddrAdd(dest, k);
      assert AddrAdd(src, h) == dest;
      FirstBitWritten(t, b, a);
      if k > 0 {
        assert b != dest;
        OtherBitKept(t, b, a, dest);
        if k > h {
          assert b != AddrAdd(dest, h);
          OtherBitKept(t, b, a, AddrAdd(dest, h));
        }
      }
    }
  }

  lemma FirstBitWritten(t: Bits, to: nat, from: nat)
    requires |t| == TOTAL_BITS && to < ADDRESSES && from < ADDRESSES
    ensures FlatWrite(t, 8 * to, FlatRead(t, 8 * from, 8))[8 * to] == t[8 * from]
  {
    assert Wrap(TOTAL_BITS, 8 * from + 0) == 8 * from;
    assert FlatRead(t, 8 * from, 8)[0] == t[8 * from];
    assert Dist(TOTAL_BITS, 8 * to, 8 * to) == 0;
  }

  lemma OtherBitKept(t: Bits, to: nat, from: nat, a: nat)
    requires |t| == TOTAL_BITS && to < ADDRESSES && from < ADDRESSES && a < ADDRESSES && a != to
    ensures FlatWrite(t, 8 * to, FlatRead(t, 8 * from, 8))[8 * a] == t[8 * a]
  {
    assert Dist(TOTAL_BITS, 8 * to, 8 * a) >= 8;
  }

  /** The byte loop copies what a single read and write would copy, whatever the memory holds, if and
      only if the destination does not start inside the source after its first byte. */
  lemma ForwardIsOneShotIff(dest: nat, src: nat, n: nat)
    requires dest < ADDRESSES && src < ADDRESSES && n <= ADDRESSES
    ensures (forall s: Bits :: |s| == TOTAL_BITS ==> CopyForward(s, dest, src, n) == OneShot(s, dest, src, n))
       <==> !Clobbers(dest, src, n)
  {
    if Clobbers(dest, src, n) {
      var h, s := Ahead(dest, src), OneBit(src);
      var a := AddrAdd(dest, h);
      Smears(dest, src, n, n);
      assert AddrAdd(src, h) == dest && 8 * a == Wrap(TOTAL_BITS, 8 * dest + 8 * h);
      assert Dist(TOTAL_BITS, 8 * dest, 8 * a) == 8 * h;
      assert FlatRead(s, 8 * src, 8 * n)[8 * h] == s[Wrap(TOTAL_BITS, 8 * src + 8 * h)] == s[8 * dest];
      assert !OneShot(s, dest, src, n)[8 * a];
      assert CopyForward(s, dest, src, n) != OneShot(s, dest, src, n);
    } else {
      forall s: Bits | |s| == TOTAL_BITS
        ensures CopyForward(s, dest, src, n) == OneShot(s, dest, src, n)
      {
        ForwardIsOneShot(s, dest, src, n, n);
      }
    }
  }

  /** Bytes outside the destination keep their contents. */
  lemma {:induction false} ForwardKeepsOthers(s: Bits, dest: nat, src: nat, i: nat, j: nat)
    requires |s| == TOTAL_BITS && dest < ADDRESSES && src < ADDRESSES && i <= ADDRESSES && j < TOTAL_BITS
    requires Dist(TOTAL_BITS, 8 * dest, j) >= 8 * i
    ensures CopyForward(s, dest, src, i)[j] == s[j]
  {
    if i > 0 {
      ForwardKeepsOthers(s, dest, src, i - 1, j);
      var b := AddrAdd(dest, i - 1);
      assert 8 * b == Wrap(TOTAL_BITS, 8 * dest + 8 * (i - 1));
      assert Dist(TOTAL_BITS, 8 * b, j) >= 8;
    }
  }

  /** `n` copies of a byte. */
  function Repeat(val: Bits, n: nat): (r: Bits)
    ensures |r| == n * |val|
  {
    if n == 0 then [] else Concat(val, Repeat(val, n - 1))
  }

  method MemcpyConcrete(mem: CellMemory.Memory, dest: nat, src: nat, n: nat, knownSrc: bool, knownDest: bool)
    requires mem.Valid() && dest < ADDRESSES && src < ADDRESSES && 8 * n < 0x1_0000_0000
    modifies mem
    ensures mem.Valid() && mem.Flat() == OneShot(old(mem.Flat()), dest, src, n)
  {
    hide FlatRead, FlatWrite, CellMemory.FlatOf, CellMemory.ValidCells;
    if n == 0 {
      WriteNothing(mem.Flat(), 8 * dest);
      assert FlatRead(mem.Flat(), 8 * src, 0) == [];
    } else {
      var val := mem.Read(src, 8 * n, knownSrc);
      mem.Write(dest, val, knownDest);
    }
  }

  /** The loop runs for the greatest possible length and writes bytes back unchanged once the actual
      length `n` is reached.  `modulus` is 2 to the width of the length argument. */
  method MemcpySymbolic(mem: CellMemory.Memory, dest: nat, src: nat, n: nat, maxBytes: nat, modulus: nat)
    requires mem.Valid() && dest < ADDRESSES && src < ADDRESSES && n <= maxBytes < modulus <= ADDRESSES
    modifies mem
    ensures mem.Valid() && mem.Flat() == CopyForward(old(mem.Flat()), dest, src, n)
  {
    hide FlatRead, FlatWrite, CellMemory.FlatOf, CellMemory.ValidCells, AddrAdd, CopyForward;
    ghost var s := mem.Flat();
    SameAddress(src);
    SameAddress(dest);
    CopyNone(s, dest, src);
    var srcAddr, destAddr, written := src, dest, 0;
    var i := 0;
    while i <= maxBytes
      invariant 0 <= i <= maxBytes + 1
      invariant i <= maxBytes ==> srcAddr == AddrAdd(src, i) && destAddr == AddrAdd(dest, i) && written == i
      invariant mem.Valid() && mem.Flat() == CopyForward(s, dest, src, if i < n then i else n)
    {
      var srcVal := mem.ReadSmall(srcAddr, 8);
      var dstVal := mem.ReadSmall(destAddr, 8);
      var shouldWrite := n > written;
      WriteBack(mem.Flat(), 8 * destAddr, 8);
      if i < n {
        CopyStep(s, dest, src, i);
      }
      mem.WriteSmall(destAddr, if shouldWrite then srcVal else dstVal);
      if i < maxBytes {
        NextAddress(src, i);
        NextAddress(dest, i);
      }
      srcAddr := AddrAdd(srcAddr, 1);
      destAddr := AddrAdd(destAddr, 1);
      written := if written + 1 == modulus then 0 else written + 1;
      i := i + 1;
    }
  }

  lemma CopyNone(s: Bits, dest: nat, src: nat)
    requires |s| == TOTAL_BITS && dest < ADDRESSES && src < ADDRESSES
    ensures CopyForward(s, dest, src, 0) == s
  {
  }

  lemma CopyStep(s: Bits, dest: nat, src: nat, i: nat)
    requires |s| == TOTAL_BITS && dest < ADDRESSES && src < ADDRESSES && i < ADDRESSES
    ensures var t := CopyForward(s, dest, src, i);
            CopyForward(s, dest, src, i + 1)
              == FlatWrite(t, 8 * AddrAdd(dest, i), FlatRead(t, 8 * AddrAdd(src, i), 8))
  {
  }

  lemma SameAddress(a: nat)
    requires a < ADDRESSES
    ensures AddrAdd(a, 0) == a
  {
  }

  lemma NextAddress(a: nat, i: nat)
    requires a < ADDRESSES && i + 1 < ADDRESSES
    ensures AddrAdd(AddrAdd(a, i), 1) == AddrAdd(a, i + 1)
  {
  }

  lemma RepeatAppend(s: Bits, addr: nat, val: Bits, i: nat)
    requires |s| == TOTAL_BITS && addr < ADDRESSES && |val| == 8 && i + 1 < ADDRESSES
    ensures FlatWrite(FlatWrite(s, 8 * addr, Repeat(val, i)), 8 * AddrAdd(addr, i), val)
         == FlatWrite(s, 8 * addr, Repeat(val, i + 1))
  {
    WriteCompose(s, 8 * addr, Repeat(val, i), val);
    assert Repeat(val, i + 1) == Repeat(val, i) + val;
  }

  /** Each of the copies is the byte. */
  lemma {:induction false} RepeatAt(val: Bits, n: nat, i: nat)
    requires |val| == 8 && i < n
    ensures Repeat(val, n)[8 * i..8 * i + 8] == val
  {
    var front := Repeat(val, n - 1);
    assert Repeat(val, n) == front + val;
    if i + 1 < n {
      RepeatAt(val, n - 1, i);
      assert (front + val)[8 * i..8 * i + 8] == front[8 * i..8 * i + 8];
    }
  }

  lemma {:induction false} RepeatUniform(val: Bits, n: nat)
    ensures val == Zeros(|val|) ==> Repeat(val, n) == Zeros(n * |val|)
    ensures val == Ones(|val|) ==> Repeat(val, n) == Ones(n * |val|)
  {
    if n > 0 {
      RepeatUniform(val, n - 1);
      assert n * |val| == (n - 1) * |val| + |val|;
    }
  }

  /** One large write.  `zero` and `ones` say whether the solver finds that the byte must be all
      zeroes or all ones, under every model; such blocks are not put together byte by byte. */
  method MemsetConcrete(mem: CellMemory.Memory, addr: nat, val: Bits, n: nat, known: bool, zero: bool, ones: bool)
    requires mem.Valid() && addr < ADDRESSES && |val| == 8 && 8 * n < 0x1_0000_0000
    requires (zero ==> val == Zeros(8)) && (ones ==> val == Ones(8))
    modifies mem
    ensures mem.Valid() && mem.Flat() == FlatWrite(old(mem.Flat()), 8 * addr, Repeat(val, n))
  {
    hide FlatRead, FlatWrite, CellMemory.FlatOf, CellMemory.ValidCells, Repeat;
    if n == 0 {
      RepeatNone(val);
      WriteNothing(mem.Flat(), 8 * addr);
    } else {
      RepeatUniform(val, n);
      var bigVal := if zero then Zeros(8 * n) else if ones then Ones(8 * n) else Repeat(val, n);
      mem.Write(addr, bigVal, known);
    }
  }

  /** The symbolic memset loop is a block fill. */
  method MemsetSymbolic(mem: CellMemory.Memory, addr0: nat, val: Bits, n: nat, maxBytes: nat, modulus: nat)
    requires mem.Valid() && addr0 < ADDRESSES && |val| == 8 && n <= maxBytes < modulus <= ADDRESSES
    modifies mem
    ensures mem.Valid() && mem.Flat() == FlatWrite(old(mem.Flat()), 8 * addr0, Repeat(val, n))
  {
    hide FlatRead, FlatWrite, CellMemory.FlatOf, CellMemory.ValidCells, Repeat, AddrAdd;
    ghost var s := mem.Flat();
    SameAddress(addr0);
    WriteNothing(s, 8 * addr0);
    RepeatNone(val);
    var addr, written := addr0, 0;
    var i := 0;
    while i <= maxBytes
      invariant 0 <= i <= maxBytes + 1
      invariant i <= maxBytes ==> addr == AddrAdd(addr0, i) && written == i
      invariant mem.Valid() && mem.Flat() == FlatWrite(s, 8 * addr0, Repeat(val, if i < n then i else n))
    {
      var oldVal := mem.ReadSmall(addr, 8);
      var shouldWrite := n > written;
      WriteBack(mem.Flat(), 8 * addr, 8);
      if i < n {
        RepeatAppend(s, addr0, val, i);
      }
      mem.WriteSmall(addr, if shouldWrite then val else oldVal);
      if i < maxBytes {
        NextAddress(addr0, i);
      }
      addr := AddrAdd(addr, 1);
      written := if written + 1 == modulus then 0 else written + 1;
      i := i + 1;
    }
  }

  lemma RepeatNone(val: Bits)
    ensures Repeat(val, 0) == []
  {
  }
}
