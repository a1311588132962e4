/**
  Elements of aggregates, reached in two ways: by the address arithmetic of a GEP, and by
  slicing and overwriting bits in `extractvalue` and `insertvalue`.
 */
module Aggregates {
  import opened Wrappers
  import opened Layout
  import opened BitVectors
  import opened FlatMemory
  import opened BinaryDigits
  import opened Modular
  import CellMemory

  const U32: nat := 0x1_0000_0000

  type Path = seq<nat>

  /* ---------- What a path denotes ---------- */

  /** Every index is in range, and no step goes through a pointer. */
  predicate InRange(env: Env, ty: Type, path: Path)
    decreases path
  {
    path == [] || (Indexable(env, ty, path[0]) && InRange(env, ElemType(env, ty, path[0]), path[1..]))
  }

  predicate Walks(env: Env, ty: Type, path: Path) {
    ValidEnv(env) && Sized(env, ty, |env|) && InRange(env, ty, path)
  }

  /** The type at the end of a path. */
  ghost function PathType(env: Env, ty: Type, path: Path): (r: Type)
    requires Walks(env, ty, path)
    ensures Sized(env, r, |env|)
    decreases path
  {
    if path == [] then ty
    else
      ElemSized(env, ty, path[0]);
      PathType(env, ElemType(env, ty, path[0]), path[1..])
  }

  /** The bit at which the element at the end of a path starts. */
  ghost function PathBit(env: Env, ty: Type, path: Path): nat
    requires Walks(env, ty, path)
    decreases path
  {
    if path == [] then 0
    else
      ElemSized(env, ty, path[0]);
      BitOffset(env, ty, path[0]) + PathBit(env, ElemType(env, ty, path[0]), path[1..])
  }

  ghost function PathSize(env: Env, ty: Type, path: Path): nat
    requires Walks(env, ty, path)
  {
    Size(env, PathType(env, ty, path))
  }

  /** Every step along the path can be counted in bytes. */
  ghost predicate ByteSteps(env: Env, ty: Type, path: Path)
    requires Walks(env, ty, path)
    decreases path
  {
    path == [] ||
    (ElemSized(env, ty, path[0]);
     ByteStep(env, ty, path[0]) && ByteSteps(env, ElemType(env, ty, path[0]), path[1..]))
  }

  /** The element at the end of a path lies inside the aggregate. */
  lemma {:induction false} PathInside(env: Env, ty: Type, path: Path)
    requires Walks(env, ty, path)
    ensures PathBit(env, ty, path) + PathSize(env, ty, path) <= Size(env, ty)
    decreases path
  {
    if path != [] {
      ElementInside(env, ty, path[0]);
      PathInside(env, ElemType(env, ty, path[0]), path[1..]);
    }
  }

  /** A path continued: the rest of it is a path inside the element reached first. */
  lemma {:induction false} PathConcat(env: Env, ty: Type, path: Path, rest: Path)
    requires Walks(env, ty, path + rest)
    ensures Walks(env, ty, path)
    ensures var inner := PathType(env, ty, path);
            && Walks(env, inner, rest)
            && PathType(env, ty, path + rest) == PathType(env, inner, rest)
            && PathBit(env, ty, path + rest) == PathBit(env, ty, path) + PathBit(env, inner, rest)
            && (ByteSteps(env, ty, path + rest) <==> ByteSteps(env, ty, path) && ByteSteps(env, inner, rest))
    decreases path
  {
    if path == [] {
      assert path + rest == rest;
    } else {
      ElemSized(env, ty, path[0]);
      assert (path + rest)[1..] == path[1..] + rest;
      PathConcat(env, ElemType(env, ty, path[0]), path[1..], rest);
    }
  }

  ghost predicate BitsApart(env: Env, ty: Type, p: Path, q: Path)
    requires Walks(env, ty, p) && Walks(env, ty, q)
  {
    || PathBit(env, ty, p) + PathSize(env, ty, p) <= PathBit(env, ty, q)
    || PathBit(env, ty, q) + PathSize(env, ty, q) <= PathBit(env, ty, p)
  }

  /** Paths of which neither continues the other share no bit. */
  lemma {:induction false} PathsApart(env: Env, ty: Type, p: Path, q: Path)
    requires Walks(env, ty, p) && Walks(env, ty, q) && !(p <= q) && !(q <= p)
    ensures BitsApart(env, ty, p, q)
    decreases p
  {
    ElementInside(env, ty, p[0]);
    ElementInside(env, ty, q[0]);
    var e, e' := ElemType(env, ty, p[0]), ElemType(env, ty, q[0]);
    if p[0] == q[0] {
      PathsApart(env, e, p[1..], q[1..]);
    } else {
      PathInside(env, e, p[1..]);
      PathInside(env, e', q[1..]);
      if p[0] < q[0] {
        ElementsInOrder(env, ty, p[0], q[0]);
      } else {
        ElementsInOrder(env, ty, q[0], p[0]);
      }
    }
  }

  ghost predicate Within(env: Env, ty: Type, p: Path, q: Path)
    requires Walks(env, ty, p) && Walks(env, ty, q)
  {
    && PathBit(env, ty, q) <= PathBit(env, ty, p)
    && PathBit(env, ty, p) + PathSize(env, ty, p) <= PathBit(env, ty, q) + PathSize(env, ty, q)
  }

  /** Any two paths denote nested or disjoint ranges: nested when one continues the other. */
  lemma NestedOrApart(env: Env, ty: Type, p: Path, q: Path)
    requires Walks(env, ty, p) && Walks(env, ty, q)
    ensures if p <= q then Within(env, ty, q, p) else if q <= p then Within(env, ty, p, q) else BitsApart(env, ty, p, q)
  {
    hide Walks, PathBit, PathType, Size;
    if p <= q {
      assert q == p + q[|p|..];
      PathConcat(env, ty, p, q[|p|..]);
      PathInside(env, PathType(env, ty, p), q[|p|..]);
    } else if q <= p {
      assert p == q + p[|q|..];
      PathConcat(env, ty, q, p[|q|..]);
      PathInside(env, PathType(env, ty, q), p[|q|..]);
    } else {
      PathsApart(env, ty, p, q);
    }
  }

  /* ---------- The two offset functions ---------- */

  /** The path does not make the offset functions panic. */
  predicate Walkable(env: Env, ty: Type, path: Path)
    requires ValidEnv(env)
    decreases path
  {
    if path == [] then Sized(env, ty, |env|)
    else
      && Steppable(env, ty, path[0])
      && var r := GetOffsetConstantIndex(env, ty, path[0]);
         r.Ok? ==> Walkable(env, r.value.1, path[1..])
  }

  /** The offset in bytes of the element at the end of a path, and its size in bits. */
  function GetOffsetRecursiveConstIndices(env: Env, ty: Type, path: Path): (r: Result<(nat, nat), LayoutError>)
    requires ValidEnv(env) && Walkable(env, ty, path)
    decreases path
  {
    if path == [] then Ok((0, Size(env, ty)))
    else
      match GetOffsetConstantIndex(env, ty, path[0])
      case Err(e) => Err(e)
      case Ok(step) =>
        match GetOffsetRecursiveConstIndices(env, step.1, path[1..])
        case Err(e) => Err(e)
        case Ok(inner) => Ok((inner.0 + step.0, inner.1))
  }

  lemma {:induction false} ConstIndicesOffset(env: Env, ty: Type, path: Path)
    requires Walks(env, ty, path)
    ensures Walkable(env, ty, path)
    ensures var r := GetOffsetRecursiveConstIndices(env, ty, path);
            && (r.Ok? <==> ByteSteps(env, ty, path))
            && (r.Ok? ==> 8 * r.value.0 == PathBit(env, ty, path) && r.value.1 == PathSize(env, ty, path))
            && (r.Err? ==> r.error == UnsupportedInstruction)
    decreases path
  {
    if path != [] {
      ElemSized(env, ty, path[0]);
      CanStep(env, ty, path[0]);
      if GetOffsetConstantIndex(env, ty, path[0]).Ok? {
        ConstIndicesOffset(env, ElemType(env, ty, path[0]), path[1..]);
      }
    }
  }

  lemma CanStep(env: Env, ty: Type, i: nat)
    requires ValidEnv(env) && Sized(env, ty, |env|) && Indexable(env, ty, i)
    ensures Steppable(env, ty, i) && GetOffsetConstantIndex(env, ty, i) != Err(MalformedInstruction)
  {
    if FieldsOf(env, ty).Some? {
      FieldsSized(env, ty);
    }
  }

  /** An operand of a GEP: a constant integer, or any other operand by its value under one model. */
  datatype Index = Constant(value: nat) | Symbolic(value: nat)

  /** An index that counts elements, multiplied out in 64 bits. */
  function GetOffsetBvIndex(env: Env, elem: Type, index: nat): Result<nat, LayoutError>
    requires ValidEnv(env) && Sized(env, elem, |env|)
  {
    var bits := Size(env, elem);
    if bits % 8 != 0 then Err(UnsupportedInstruction) else Ok(index * (bits / 8 % ADDRESSES) % ADDRESSES)
  }

  predicate GepWalkable(env: Env, ty: Type, indices: seq<Index>)
    requires ValidEnv(env)
    decreases indices
  {
    indices == [] ||
    (&& Steppable(env, ty, indices[0].value)
     && var r := GetOffsetConstantIndex(env, ty, indices[0].value);
        r.Ok? ==> GepWalkable(env, r.value.1, indices[1..]))
  }

  /** The offset in bytes that the indices of a GEP add up to, as a 64-bit value.  Struct indices
      must be constants, and their offsets pass through 32 bits. */
  function GetOffsetRecursive(env: Env, ty: Type, indices: seq<Index>): (r: Result<nat, LayoutError>)
    requires ValidEnv(env) && GepWalkable(env, ty, indices)
    ensures r.Ok? ==> r.value < ADDRESSES
    decreases indices
  {
    if indices == [] then Ok(0)
    else if ty.Ptr? || ty.Array? || ty.Vector? then
      var elem := if ty.Ptr? then ty.pointee else ty.elem;
      match GetOffsetBvIndex(env, elem, indices[0].value)
      case Err(e) => Err(e)
      case Ok(offset) => AddTo(GetOffsetRecursive(env, elem, indices[1..]), offset)
    else if ty.Named? && FieldsOf(env, ty).None? then Err(MalformedInstruction)
    else if indices[0].Symbolic? then Err(MalformedInstruction)
    else
      match GetOffsetConstantIndex(env, ty, indices[0].value)
      case Err(e) => Err(e)
      case Ok(step) => AddTo(GetOffsetRecursive(env, step.1, indices[1..]), step.0 % U32)
  }

  function AddTo(r: Result<nat, LayoutError>, offset: nat): Result<nat, LayoutError> {
    match r
    case Err(e) => Err(e)
    case Ok(o) => Ok((o + offset) % ADDRESSES)
  }

  function Constants(path: Path): (r: seq<Index>)
    ensures |r| == |path|
  {
    seq(|path|, i requires 0 <= i < |path| => Constant(path[i]))
  }

  function OffsetOnly(r: Result<(nat, nat), LayoutError>): Result<nat, LayoutError> {
    match r
    case Err(e) => Err(e)
    case Ok(p) => Ok(p.0)
  }

  lemma MultiplySmall(i: nat, bits: nat)
    requires bits % 8 == 0 && i * bits + bits < U32
    ensures i * (bits / 8 % ADDRESSES) % ADDRESSES == i * (bits / 8) < U32
  {
    ScaleBytes(i, bits);
    assert i * bits >= 0;
    assert bits / 8 % ADDRESSES == bits / 8;
  }

  /** One step over elements, when nothing overflows. */
  lemma ElementStepAgrees(env: Env, elem: Type, i: nat)
    requires ValidEnv(env) && Sized(env, elem, |env|) && i * Size(env, elem) + Size(env, elem) < U32
    ensures var r := StepByElements(env, elem, i);
            && (r.Ok? ==> r.value.0 < U32)
            && GetOffsetBvIndex(env, elem, i) == if r.Ok? then Ok(r.value.0) else Err(UnsupportedInstruction)
  {
    hide Sized, ValidEnv, Size;
    if Size(env, elem) % 8 == 0 {
      MultiplySmall(i, Size(env, elem));
    }
  }

  /** One step, when nothing overflows. */
  lemma StepAgrees(env: Env, ty: Type, i: nat)
    requires ValidEnv(env) && Sized(env, ty, |env|) && Indexable(env, ty, i) && Size(env, ty) < U32
    ensures Steppable(env, ty, i)
    ensures var r := GetOffsetConstantIndex(env, ty, i);
            && (r.Ok? ==> r.value.0 < U32)
            && (r.Err? ==> r.error == UnsupportedInstruction)
            && (ty.Array? || ty.Vector? ==>
                  GetOffsetBvIndex(env, ty.elem, i) == if r.Ok? then Ok(r.value.0) else Err(r.error))
  {
    hide GetOffsetBvIndex, StepByElements, SizeOfFirst;
    CanStep(env, ty, i);
    ElementInside(env, ty, i);
    if ty.Array? || ty.Vector? {
      StepUp(i, ty.count, Size(env, ty.elem));
      ElementStepAgrees(env, ty.elem, i);
    }
  }

  lemma AddSmall(r: Result<nat, LayoutError>, offset: nat)
    requires r.Ok? ==> r.value + offset < ADDRESSES
    ensures AddTo(r, offset) == if r.Ok? then Ok(r.value + offset) else r
  {
  }

  lemma ConstantsUnfold(path: Path)
    requires path != []
    ensures Constants(path) != [] && Constants(path)[0] == Constant(path[0])
    ensures Constants(path)[1..] == Constants(path[1..])
  {
  }

  /** For aggregates below 2^32 bits the two functions give the same offset or the same error. */
  lemma {:induction false} GepAgrees(env: Env, ty: Type, path: Path)
    requires Walks(env, ty, path) && Size(env, ty) < U32
    ensures Walkable(env, ty, path) && GepWalkable(env, ty, Constants(path))
    ensures GetOffsetRecursive(env, ty, Constants(path))
         == OffsetOnly(GetOffsetRecursiveConstIndices(env, ty, path))
    decreases path
  {
    hide Size, Sized, ValidEnv, Steppable, GetOffsetConstantIndex, GetOffsetBvIndex, BitOffset, ByteStep, AddTo, Constants;
    ConstIndicesOffset(env, ty, path);
    PathInside(env, ty, path);
    if path != [] {
      var i := path[0];
      StepAgrees(env, ty, i);
      ConstantsUnfold(path);
      ElementInside(env, ty, i);
      if GetOffsetConstantIndex(env, ty, i).Ok? {
        GepAgrees(env, ElemType(env, ty, i), path[1..]);
        var step := GetOffsetConstantIndex(env, ty, i).value;
        PathInside(env, step.1, path[1..]);
        ConstIndicesOffset(env, step.1, path[1..]);
        AddSmall(GetOffsetRecursive(env, step.1, Constants(path[1..])), step.0);
      }
    }
  }

  /** A GEP through a pointer starts with an index into what the pointer points to; it adds the
      demand that the whole aggregate be a number of bytes. */
  lemma GepThroughPointer(env: Env, ty: Type, path: Path)
    requires Walks(env, ty, path) && Size(env, ty) < U32
    ensures Walkable(env, ty, path) && GepWalkable(env, Ptr(ty), Constants([0] + path))
    ensures GetOffsetRecursive(env, Ptr(ty), Constants([0] + path))
         == if Size(env, ty) % 8 != 0 then Err(UnsupportedInstruction)
            else OffsetOnly(GetOffsetRecursiveConstIndices(env, ty, path))
  {
    hide Size, Sized, ValidEnv, GetOffsetConstantIndex, AddTo, Constants, GetOffsetRecursiveConstIndices, Walkable;
    GepAgrees(env, ty, path);
    ConstantsUnfold([0] + path);
    assert ([0] + path)[1..] == path;
    AddSmall(GetOffsetRecursive(env, ty, Constants(path)), 0);
  }

  /* ---------- What a GEP computes, for any indices ---------- */

  predicate CountsElements(ty: Type) {
    ty.Ptr? || ty.Array? || ty.Vector?
  }

  /** A step that stays within what the layout knows: not into an opaque struct. */
  ghost predicate CanGoOn(env: Env, ty: Type, i: nat) {
    ValidEnv(env) && Steppable(env, ty, i) && (CountsElements(ty) || FieldsOf(env, ty).Some?)
  }

  lemma GoesInto(env: Env, ty: Type, i: nat)
    requires CanGoOn(env, ty, i) && !CountsElements(ty)
    ensures Sized(env, ty, |env|) && Indexable(env, ty, i)
  {
  }

  ghost function Target(env: Env, ty: Type, i: nat): Type
    requires CanGoOn(env, ty, i)
  {
    if ty.Ptr? then ty.pointee else if CountsElements(ty) then ty.elem else GoesInto(env, ty, i); ElemType(env, ty, i)
  }

  /** How many bits one index moves: that many elements, in range or not, or to the start of a field. */
  ghost function StepBits(env: Env, ty: Type, i: nat): nat
    requires CanGoOn(env, ty, i)
  {
    if CountsElements(ty) then i * Size(env, Target(env, ty, i)) else GoesInto(env, ty, i); BitOffset(env, ty, i)
  }

  /** The unit in which the step is counted is a number of bytes, and a field is chosen by a constant. */
  ghost predicate StepAllowed(env: Env, ty: Type, index: Index)
    requires CanGoOn(env, ty, index.value)
  {
    if CountsElements(ty) then Size(env, Target(env, ty, index.value)) % 8 == 0
    else index.Constant? && StepBits(env, ty, index.value) % 8 == 0
  }

  ghost predicate GepAllowed(env: Env, ty: Type, indices: seq<Index>)
    decreases indices
  {
    indices == [] ||
    (&& CanGoOn(env, ty, indices[0].value) && StepAllowed(env, ty, indices[0])
     && GepAllowed(env, Target(env, ty, indices[0].value), indices[1..]))
  }

  /** The bits that all the indices move together. */
  ghost function GepBits(env: Env, ty: Type, indices: seq<Index>): nat
    requires GepAllowed(env, ty, indices)
    decreases indices
  {
    if indices == [] then 0
    else StepBits(env, ty, indices[0].value) + GepBits(env, Target(env, ty, indices[0].value), indices[1..])
  }

  function StepLost(bits: nat, counts: bool): nat {
    if counts then 0 else bits / 8 / U32 * U32
  }

  /** The bytes that are lost because offsets of fields pass through 32 bits. */
  ghost function GepLost(env: Env, ty: Type, indices: seq<Index>): nat
    requires GepAllowed(env, ty, indices)
    decreases indices
  {
    if indices == [] then 0
    else
      StepLost(StepBits(env, ty, indices[0].value), CountsElements(ty))
      + GepLost(env, Target(env, ty, indices[0].value), indices[1..])
  }

  lemma StepMeans(env: Env, ty: Type, i: nat)
    requires CanGoOn(env, ty, i)
    ensures var r := GetOffsetConstantIndex(env, ty, i);
            && (r.Ok? <==> StepAllowed(env, ty, Constant(i)))
            && (r.Err? ==> r.error == UnsupportedInstruction)
            && (r.Ok? ==> 8 * r.value.0 == StepBits(env, ty, i) && r.value.1 == Target(env, ty, i))
  {
    if !CountsElements(ty) {
      GoesInto(env, ty, i);
    }
  }

  lemma BvStepMeans(env: Env, elem: Type, i: nat)
    requires ValidEnv(env) && Sized(env, elem, |env|)
    ensures var r, bits := GetOffsetBvIndex(env, elem, i), Size(env, elem);
            && (r.Ok? <==> bits % 8 == 0)
            && (r.Err? ==> r.error == UnsupportedInstruction)
            && (r.Ok? ==> i * bits % 8 == 0 && r.value == i * bits / 8 % ADDRESSES)
  {
    hide Size, Sized;
    var bits := Size(env, elem);
    if bits % 8 == 0 {
      MultiplyRemainder(i, bits / 8, ADDRESSES);
      ScaleBytes(i, bits);
    }
  }

  /** What the first index contributes. */
  ghost function FirstStep(env: Env, ty: Type, index: Index): Result<nat, LayoutError>
    requires ValidEnv(env) && Steppable(env, ty, index.value)
  {
    if CountsElements(ty) then GetOffsetBvIndex(env, Target(env, ty, index.value), index.value)
    else if index.Symbolic? then Err(MalformedInstruction)
    else
      match GetOffsetConstantIndex(env, ty, index.value)
      case Err(e) => Err(e)
      case Ok(step) => Ok(step.0 % U32)
  }

  function StepValue(bits: nat, counts: bool): nat {
    if counts then bits / 8 % ADDRESSES else bits / 8 % U32
  }

  lemma FirstStepMeans(env: Env, ty: Type, index: Index)
    requires ValidEnv(env) && Steppable(env, ty, index.value)
    ensures var r := FirstStep(env, ty, index);
            && (r.Ok? <==> CanGoOn(env, ty, index.value) && StepAllowed(env, ty, index))
            && (r.Ok? ==> && StepBits(env, ty, index.value) % 8 == 0
                          && r.value == StepValue(StepBits(env, ty, index.value), CountsElements(ty)))
            && (r == Err(MalformedInstruction) <==> !CountsElements(ty) && (index.Symbolic? || FieldsOf(env, ty).None?))
  {
    hide Size, Sized, ValidEnv, Steppable, GetOffsetConstantIndex, GetOffsetBvIndex, BitOffset;
    var i := index.value;
    StepKinds(env, ty, i);
    if CanGoOn(env, ty, i) {
      StepMeans(env, ty, i);
      if CountsElements(ty) {
        BvStepMeans(env, Target(env, ty, i), i);
      }
    } else {
      OpaqueStep(env, ty, i);
    }
  }

  lemma OpaqueStep(env: Env, ty: Type, i: nat)
    requires ValidEnv(env) && Steppable(env, ty, i) && !CanGoOn(env, ty, i)
    ensures GetOffsetConstantIndex(env, ty, i) == Err(MalformedInstruction)
  {
  }

  lemma GepUnfold(env: Env, ty: Type, indices: seq<Index>)
    requires ValidEnv(env) && GepWalkable(env, ty, indices) && indices != []
    ensures Steppable(env, ty, indices[0].value)
    ensures FirstStep(env, ty, indices[0]).Err? ==> GetOffsetRecursive(env, ty, indices) == Err(FirstStep(env, ty, indices[0]).error)
    ensures FirstStep(env, ty, indices[0]).Ok? ==>
              && CanGoOn(env, ty, indices[0].value)
              && var next := Target(env, ty, indices[0].value);
              && GepWalkable(env, next, indices[1..])
              && GetOffsetRecursive(env, ty, indices)
              == AddTo(GetOffsetRecursive(env, next, indices[1..]), FirstStep(env, ty, indices[0]).value)
  {
    hide Size, Sized, ValidEnv, Steppable, GetOffsetConstantIndex, GetOffsetBvIndex, BitOffset, AddTo, StepBits;
    var i := indices[0].value;
    FirstStepMeans(env, ty, indices[0]);
    StepKinds(env, ty, i);
    if CanGoOn(env, ty, i) {
      StepMeans(env, ty, i);
    }
  }

  /** A GEP succeeds exactly when every step is allowed.  Its offset is then, modulo 2^64, what all
      steps add up to, except for what is lost at fields. */
  lemma {:induction false} GepMeans(env: Env, ty: Type, indices: seq<Index>)
    requires ValidEnv(env) && GepWalkable(env, ty, indices)
    ensures GetOffsetRecursive(env, ty, indices).Ok? <==> GepAllowed(env, ty, indices)
    ensures GepAllowed(env, ty, indices) ==>
              IsOffset(GetOffsetRecursive(env, ty, indices), GepBits(env, ty, indices), GepLost(env, ty, indices))
    decreases indices
  {
    if indices != [] {
      hide ValidEnv, Steppable, StepBits, StepAllowed, CanGoOn, Target, AddTo, FirstStep, GetOffsetRecursive, GepWalkable,
           IsOffset, StepLost, StepValue, FieldsOf, GepAllowed, GepBits, GepLost, CountsElements;
      AddToError();
      FirstStepMeans(env, ty, indices[0]);
      GepUnfold(env, ty, indices);
      AllowedUnfold(env, ty, indices);
      if FirstStep(env, ty, indices[0]).Ok? {
        var i := indices[0].value;
        var next := Target(env, ty, i);
        GepMeans(env, next, indices[1..]);
        if GepAllowed(env, next, indices[1..]) {
          SumOfSteps(GetOffsetRecursive(env, next, indices[1..]), GepBits(env, next, indices[1..]),
                     GepLost(env, next, indices[1..]), StepBits(env, ty, i), CountsElements(ty));
        }
      }
    }
  }

  lemma AllowedUnfold(env: Env, ty: Type, indices: seq<Index>)
    requires indices != []
    ensures var i := indices[0].value;
            if CanGoOn(env, ty, i) && StepAllowed(env, ty, indices[0]) then
              var next := Target(env, ty, i);
              && (GepAllowed(env, ty, indices) <==> GepAllowed(env, next, indices[1..]))
              && (GepAllowed(env, ty, indices) ==>
                    && GepBits(env, ty, indices) == StepBits(env, ty, i) + GepBits(env, next, indices[1..])
                    && GepLost(env, ty, indices) == StepLost(StepBits(env, ty, i), CountsElements(ty)) + GepLost(env, next, indices[1..]))
            else !GepAllowed(env, ty, indices)
  {
    hide StepBits, StepAllowed, CanGoOn, Target, StepLost;
  }

  /** The offset is that of `bits` bits, less `lost` bytes, modulo 2^64. */
  ghost predicate IsOffset(r: Result<nat, LayoutError>, bits: nat, lost: nat) {
    bits % 8 == 0 && r == Ok((bits / 8 - lost) % ADDRESSES)
  }

  lemma EightsAdd(x: nat, y: nat)
    requires x % 8 == 0 && y % 8 == 0
    ensures (x + y) % 8 == 0 && (x + y) / 8 == x / 8 + y / 8
  {
  }

  lemma AddToError()
    ensures forall e, o :: AddTo(Err(e), o) == Err(e)
  {
  }

  lemma StepKinds(env: Env, ty: Type, i: nat)
    requires ValidEnv(env) && Steppable(env, ty, i)
    ensures CanGoOn(env, ty, i) <==> !(ty.Named? && FieldsOf(env, ty).None?)
    ensures CountsElements(ty) ==> Sized(env, Target(env, ty, i), |env|)
  {
  }

  lemma SumOfSteps(rest: Result<nat, LayoutError>, bits: nat, lost: nat, step: nat, counts: bool)
    requires IsOffset(rest, bits, lost) && step % 8 == 0
    ensures IsOffset(AddTo(rest, StepValue(step, counts)), step + bits, StepLost(step, counts) + lost)
  {
    EightsAdd(step, bits);
    if counts {
      AddRemainders(bits / 8 - lost, step / 8, ADDRESSES);
    } else {
      AddRemainder(bits / 8 - lost, step / 8 % U32, ADDRESSES);
    }
  }

  /** So a GEP adds up its steps correctly if and only if no offset of a field is cut off, or what is
      cut off wraps round. */
  lemma GepCorrectIff(env: Env, ty: Type, indices: seq<Index>)
    requires ValidEnv(env) && GepWalkable(env, ty, indices) && GepAllowed(env, ty, indices)
    ensures GetOffsetRecursive(env, ty, indices) == Ok(GepBits(env, ty, indices) / 8 % ADDRESSES)
       <==> GepLost(env, ty, indices) % ADDRESSES == 0
  {
    GepMeans(env, ty, indices);
    hide GepBits, GepLost, GetOffsetRecursive;
    DifferenceRemainder(GepBits(env, ty, indices) / 8, GepLost(env, ty, indices));
  }

  lemma DifferenceRemainder(a: int, b: int)
    ensures (a - b) % ADDRESSES == a % ADDRESSES <==> b % ADDRESSES == 0
  {
  }

  /** A field that starts 2^32 bytes into its struct is taken for the first byte. */
  lemma FieldOffsetCutOff()
    ensures var ty := Struct([Array(Int(64), 0x2000_0000), Int(8)]);
            && GepWalkable([], ty, [Constant(1)]) && GepAllowed([], ty, [Constant(1)])
            && GepBits([], ty, [Constant(1)]) == 8 * U32
            && GetOffsetRecursive([], ty, [Constant(1)]) == Ok(0)
  {
    var ty := Struct([Array(Int(64), 0x2000_0000), Int(8)]);
    assert SizeOfFirst([], ty.fields, 1, 0) == SizeOfFirst([], ty.fields, 0, 0) + SizeBelow([], ty.fields[0], 0);
    assert BitOffset([], ty, 1) == 8 * U32;
    assert [Constant(1)][1..] == [];
  }

  /** A pointer holds exactly the addresses of the memory, and an integer the numbers of its width. */
  lemma ScalarSizes(env: Env, t: Type, w: nat)
    requires ValidEnv(env)
    ensures ADDRESSES == Pow2(Size(env, Ptr(t)))
    ensures Pow2(Size(env, Int(w))) == Pow2(w)
    ensures Size(env, FP(Double)) == Size(env, Ptr(t)) == 2 * Size(env, FP(Single)) == 4 * Size(env, FP(Half))
    ensures Size(env, FP(FP128)) == Size(env, FP(PPCFP128)) == 2 * Size(env, FP(Double))
    ensures Size(env, FP(X86FP80)) == Size(env, FP(Double)) + Size(env, FP(Half))
  {
    Pow2Of64();
  }

  /* ---------- Taking elements out of aggregates, and putting them in ---------- */

  /** `original` with the bits `low` to `high` replaced, by the masks the source builds. */
  function OverwriteBvSegment(original: Bits, data: Bits, low: nat, high: nat): (r: Bits)
    requires low <= high < |original| && |data| == high - low + 1
    ensures r == original[..low] + data + original[high + 1..]
  {
    var highest := |original| - 1;
    var zeroes := Zeros(|data|);
    var maskClear :=
      if high == highest then (if low == 0 then zeroes else Concat(zeroes, Ones(low)))
      else
        var top := Concat(Ones(highest - high), zeroes);
        if low == 0 then top else Concat(top, Ones(low));
    var top := Uext(data, |original| - low - |data|);
    var maskOverwrite := if low == 0 then top else Concat(top, Zeros(low));
    Or(And(original, maskClear), maskOverwrite)
  }

  function Part(b: Bits, i: nat, n: nat): (r: Bits)
    requires i + n <= |b|
    ensures |r| == n
  {
    b[i..i + n]
  }

  function Put(b: Bits, i: nat, v: Bits): (r: Bits)
    requires i + |v| <= |b|
    ensures |r| == |b|
  {
    b[..i] + v + b[i + |v|..]
  }

  lemma PutAt(b: Bits, i: nat, v: Bits, k: nat)
    requires i + |v| <= |b| && k < |b|
    ensures Put(b, i, v)[k] == if i <= k < i + |v| then v[k - i] else b[k]
  {
  }

  lemma PartOfPut(b: Bits, i: nat, v: Bits, j: nat, n: nat)
    requires i + |v| <= |b| && j + n <= |b|
    ensures i <= j && j + n <= i + |v| ==> Part(Put(b, i, v), j, n) == Part(v, j - i, n)
    ensures i + |v| <= j || j + n <= i ==> Part(Put(b, i, v), j, n) == Part(b, j, n)
    ensures j <= i && i + |v| <= j + n ==> Part(Put(b, i, v), j, n) == Put(Part(b, j, n), i - j, v)
  {
    hide Put;
    var r := Part(Put(b, i, v), j, n);
    forall k | 0 <= k < n
      ensures r[k] == if i <= j + k < i + |v| then v[j + k - i] else b[j + k]
    {
      PutAt(b, i, v, j + k);
    }
    if j <= i && i + |v| <= j + n {
      var r' := Put(Part(b, j, n), i - j, v);
      forall k | 0 <= k < n
        ensures r[k] == r'[k]
      {
        PutAt(Part(b, j, n), i - j, v, k);
      }
      assert r == r';
    }
  }

  lemma PutPart(b: Bits, i: nat, n: nat)
    requires i + n <= |b|
    ensures Put(b, i, Part(b, i, n)) == b
    ensures Part(b, 0, |b|) == b
  {
  }

  /** `agg` is a value of type `ty`, and `path` leads to an element with at least one bit. */
  ghost predicate ElementOf(env: Env, ty: Type, agg: Bits, path: Path) {
    Walks(env, ty, path) && |agg| == Size(env, ty) < U32 && PathSize(env, ty, path) > 0
  }

  /** The lowest and the highest bit of an element, as 32-bit positions. */
  function Segment(env: Env, ty: Type, path: Path): (r: Result<(nat, nat), LayoutError>)
    requires Walks(env, ty, path) && Size(env, ty) < U32 && PathSize(env, ty, path) > 0
    ensures r == if ByteSteps(env, ty, path)
                 then Ok((PathBit(env, ty, path), PathBit(env, ty, path) + PathSize(env, ty, path) - 1))
                 else Err(UnsupportedInstruction)
  {
    hide Walks, PathType, PathBit, PathSize, Size, ByteSteps;
    ConstIndicesOffset(env, ty, path);
    PathInside(env, ty, path);
    match GetOffsetRecursiveConstIndices(env, ty, path)
    case Err(e) => Err(e)
    case Ok(p) =>
      var low := p.0 * 8;
      Ok((low % U32, (low + p.1 - 1) % U32))
  }

  function SymexExtractValue(env: Env, ty: Type, agg: Bits, path: Path): (r: Result<Bits, LayoutError>)
    requires ElementOf(env, ty, agg, path)
    ensures r == if ByteSteps(env, ty, path)
                 then PathInside(env, ty, path); Ok(Part(agg, PathBit(env, ty, path), PathSize(env, ty, path)))
                 else Err(UnsupportedInstruction)
  {
    hide Walks, PathType, PathBit, PathSize, Size, ByteSteps;
    match Segment(env, ty, path)
    case Err(e) => Err(e)
    case Ok(p) =>
      PathInside(env, ty, path);
      Ok(Slice(agg, p.1, p.0))
  }

  function SymexInsertValue(env: Env, ty: Type, agg: Bits, path: Path, element: Bits): (r: Result<Bits, LayoutError>)
    requires ElementOf(env, ty, agg, path) && |element| == PathSize(env, ty, path)
    ensures r == if ByteSteps(env, ty, path)
                 then PathInside(env, ty, path); Ok(Put(agg, PathBit(env, ty, path), element))
                 else Err(UnsupportedInstruction)
  {
    hide Walks, PathType, PathBit, PathSize, Size, ByteSteps;
    match Segment(env, ty, path)
    case Err(e) => Err(e)
    case Ok(p) =>
      PathInside(env, ty, path);
      Ok(OverwriteBvSegment(agg, element, p.0, p.1))
  }

  /** What was put in comes out, and putting back what was taken out changes nothing. */
  lemma ExtractInserted(env: Env, ty: Type, agg: Bits, path: Path, v: Bits)
    requires ElementOf(env, ty, agg, path) && |v| == PathSize(env, ty, path) && ByteSteps(env, ty, path)
    ensures SymexExtractValue(env, ty, SymexInsertValue(env, ty, agg, path, v).value, path) == Ok(v)
    ensures var out := SymexExtractValue(env, ty, agg, path).value;
            |out| == |v| && SymexInsertValue(env, ty, agg, path, out) == Ok(agg)
  {
    hide Part, Put, Walks, PathType, PathBit, PathSize, Size, ByteSteps, SymexExtractValue, SymexInsertValue;
    PathInside(env, ty, path);
    var b := PathBit(env, ty, path);
    PartOfPut(agg, b, v, b, |v|);
    PutPart(agg, b, |v|);
    PutPart(v, 0, |v|);
  }

  /** On a path of which neither continues the other, the old element comes out. */
  lemma ExtractElsewhere(env: Env, ty: Type, agg: Bits, path: Path, v: Bits, other: Path)
    requires ElementOf(env, ty, agg, path) && |v| == PathSize(env, ty, path) && ByteSteps(env, ty, path)
    requires ElementOf(env, ty, agg, other) && !(path <= other) && !(other <= path)
    ensures SymexExtractValue(env, ty, SymexInsertValue(env, ty, agg, path, v).value, other)
         == SymexExtractValue(env, ty, agg, other)
  {
    hide Part, Put, Walks, PathType, PathBit, PathSize, Size, ByteSteps, SymexExtractValue, SymexInsertValue;
    PathsApart(env, ty, path, other);
    PathInside(env, ty, path);
    PathInside(env, ty, other);
    PartOfPut(agg, PathBit(env, ty, path), v, PathBit(env, ty, other), PathSize(env, ty, other));
  }

  /** On a longer path, the element comes out of what was put in. */
  lemma ExtractInside(env: Env, ty: Type, agg: Bits, path: Path, v: Bits, rest: Path)
    requires ElementOf(env, ty, agg, path) && |v| == PathSize(env, ty, path) && ByteSteps(env, ty, path)
    requires ElementOf(env, ty, agg, path + rest)
    ensures ElementOf(env, PathType(env, ty, path), v, rest)
    ensures SymexExtractValue(env, ty, SymexInsertValue(env, ty, agg, path, v).value, path + rest)
         == SymexExtractValue(env, PathType(env, ty, path), v, rest)
  {
    hide Part, Put, Walks, PathType, PathBit, Size, ByteSteps, SymexExtractValue, SymexInsertValue;
    var inner := PathType(env, ty, path);
    PathConcat(env, ty, path, rest);
    PathInside(env, ty, path);
    PathInside(env, inner, rest);
    var b := PathBit(env, ty, path);
    PartOfPut(agg, b, v, b + PathBit(env, inner, rest), PathSize(env, inner, rest));
  }

  /** On a shorter path, the element that comes out is the old one with the new part put in. */
  lemma ExtractAround(env: Env, ty: Type, agg: Bits, path: Path, rest: Path, v: Bits)
    requires ElementOf(env, ty, agg, path) && ElementOf(env, ty, agg, path + rest)
    requires |v| == PathSize(env, ty, path + rest) && ByteSteps(env, ty, path + rest)
    ensures ByteSteps(env, ty, path)
    ensures var was := SymexExtractValue(env, ty, agg, path).value;
            && ElementOf(env, PathType(env, ty, path), was, rest)
            && |v| == PathSize(env, PathType(env, ty, path), rest)
            && SymexExtractValue(env, ty, SymexInsertValue(env, ty, agg, path + rest, v).value, path)
            == SymexInsertValue(env, PathType(env, ty, path), was, rest, v)
  {
    hide Part, Put, Walks, PathType, PathBit, Size, ByteSteps, SymexExtractValue, SymexInsertValue;
    var inner := PathType(env, ty, path);
    PathConcat(env, ty, path, rest);
    PathInside(env, ty, path);
    PathInside(env, inner, rest);
    var b := PathBit(env, ty, path);
    PartOfPut(agg, b + PathBit(env, inner, rest), v, b, PathSize(env, ty, path));
  }

  /* ---------- Both ways meet in memory ---------- */

  /** In the flat view: the element sits at the address the GEP computes. */
  lemma StoredElement(s: Bits, env: Env, ty: Type, agg: Bits, path: Path, p: nat, offset: nat)
    requires |s| == TOTAL_BITS && p < ADDRESSES && ElementOf(env, ty, agg, path) && Size(env, ty) % 8 == 0
    requires GepWalkable(env, Ptr(ty), Constants([0] + path))
    requires GetOffsetRecursive(env, Ptr(ty), Constants([0] + path)) == Ok(offset)
    ensures offset < ADDRESSES && PathSize(env, ty, path) <= Size(env, ty)
    ensures SymexExtractValue(env, ty, agg, path)
         == Ok(FlatRead(FlatWrite(s, 8 * p, agg), 8 * AddrAdd(p, offset), PathSize(env, ty, path)))
  {
    hide Walks, PathType, PathBit, PathSize, Size, ByteSteps, GetOffsetRecursive, GetOffsetRecursiveConstIndices,
         SymexExtractValue, FlatRead, FlatWrite, Constants, Walkable, GepWalkable;
    GepThroughPointer(env, ty, path);
    ConstIndicesOffset(env, ty, path);
    PathInside(env, ty, path);
    ReadInsideWrite(s, 8 * p, agg, PathBit(env, ty, path), PathSize(env, ty, path));
  }

  /** Storing an aggregate and loading through a GEP gives the bits that `extractvalue` gives,
      also where the aggregate runs over the end of the address space. */
  method StoreGepLoad(m: CellMemory.Memory, env: Env, ty: Type, agg: Bits, path: Path, p: nat,
                      knownStore: bool, knownLoad: bool)
    returns (r: Result<Bits, LayoutError>)
    requires m.Valid() && p < ADDRESSES && ElementOf(env, ty, agg, path)
    requires Size(env, ty) > 64 && !knownStore ==> Size(env, ty) % 8 == 0
    requires PathSize(env, ty, path) > 64 && !knownLoad ==> PathSize(env, ty, path) % 8 == 0
    modifies m
    ensures m.Valid() && m.Flat() == FlatWrite(old(m.Flat()), 8 * p, agg)
    ensures r == if Size(env, ty) % 8 != 0 then Err(UnsupportedInstruction)
                 else SymexExtractValue(env, ty, agg, path)
  {
    hide PathType, PathBit, PathSize, Size, ByteSteps, GetOffsetRecursive, GetOffsetRecursiveConstIndices,
         SymexExtractValue, FlatRead, FlatWrite, CellMemory.FlatOf, CellMemory.ValidCells, Constants, Walkable,
         GepWalkable, AddrAdd;
    GepThroughPointer(env, ty, path);
    ConstIndicesOffset(env, ty, path);
    PathInside(env, ty, path);
    ghost var s := m.Flat();
    m.Write(p, agg, knownStore);
    match GetOffsetRecursive(env, Ptr(ty), Constants([0] + path)) {
      case Err(e) =>
        r := Err(e);
      case Ok(offset) =>
        var bits := GetOffsetRecursiveConstIndices(env, ty, path).value.1;
        StoredElement(s, env, ty, agg, path, p, offset);
        r := Ok(m.Read(AddrAdd(p, offset), bits, knownLoad));
    }
  }
}
