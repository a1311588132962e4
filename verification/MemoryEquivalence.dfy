/** The two memories behave the same on every sequence of operations, and exactly how they
    differ on writes of less than a byte. */
module MemoryEquivalence {
  import opened BitVectors
  import opened FlatMemory
  import CellMemory
  import ByteMemory

  /** An operation, with the strategy hint that the cell memory happens to get. */
  datatype Op = Read(addr: nat, bits: nat, known: bool) | Write(addr: nat, val: Bits, known: bool)

  /** Whole-byte accesses of any size, and reads of less than a byte. */
  predicate ValidOp(op: Op) {
    && op.addr < ADDRESSES
    && match op
       case Read(_, bits, _) => 0 < bits < 0x1_0000_0000 && (bits < 8 || bits % 8 == 0)
       case Write(_, val, _) => 0 < |val| < 0x1_0000_0000 && |val| % 8 == 0
  }

  /** From equal contents, every read of every run gives the same result in both memories. */
  method Replay(cells: CellMemory.Memory, bytes: ByteMemory.Memory, ops: seq<Op>)
    returns (fromCells: seq<Bits>, fromBytes: seq<Bits>)
    requires cells.Valid() && bytes.Valid() && cells.Flat() == bytes.Flat()
    requires forall i :: 0 <= i < |ops| ==> ValidOp(ops[i])
    modifies cells, bytes
    ensures fromCells == fromBytes
    ensures cells.Valid() && bytes.Valid() && cells.Flat() == bytes.Flat()
  {
    hide FlatWrite, FlatRead, CellMemory.FlatOf, ByteMemory.FlatOf, CellMemory.ValidCells, ByteMemory.ValidBytes;
    fromCells, fromBytes := [], [];
    for i := 0 to |ops|
      invariant fromCells == fromBytes
      invariant cells.Valid() && bytes.Valid() && cells.Flat() == bytes.Flat()
    {
      match ops[i] {
        case Read(addr, bits, known) =>
          fromCells := fromCells + [cells.Read(addr, bits, known)];
          fromBytes := fromBytes + [bytes.Read(addr, bits)];
        case Write(addr, val, known) =>
          cells.Write(addr, val, known);
          bytes.Write(addr, val);
      }
    }
  }

  /** A write of less than a byte leaves the two memories equal exactly when the bits up to the end
      of that byte were already clear. */
  lemma SubByteWritesAgreeIff(s: Bits, p: nat, val: Bits, pad: nat)
    requires p < |s| && |val| + pad <= |s|
    ensures FlatWrite(s, p, val) == FlatWrite(s, p, Uext(val, pad))
       <==> FlatRead(s, p, |val| + pad)[|val|..] == Zeros(pad)
  {
    var a, b := FlatWrite(s, p, val), FlatWrite(s, p, Uext(val, pad));
    var tail := FlatRead(s, p, |val| + pad)[|val|..];
    if a == b {
      forall k | 0 <= k < pad
        ensures tail[k] == Zeros(pad)[k]
      {
        var j := Wrap(|s|, p + |val| + k);
        assert Dist(|s|, p, j) == |val| + k;
        assert a[j] == s[j] && !b[j];
      }
    }
    if tail == Zeros(pad) {
      forall j | 0 <= j < |s|
        ensures a[j] == b[j]
      {
        var d := Dist(|s|, p, j);
        if |val| <= d < |val| + pad {
          assert Wrap(|s|, p + d) == j;
          assert !tail[d - |val|] && tail[d - |val|] == s[j];
        }
      }
    }
  }
}
