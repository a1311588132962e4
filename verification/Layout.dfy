/** The layout of types in memory, and the offsets that index paths denote. */
module Layout {
  import opened Wrappers

  datatype FPKind = Half | Single | Double | FP128 | X86FP80 | PPCFP128

  /** A named struct is a reference into an environment of definitions, so that types can be
      recursive through pointers. */
  datatype Type =
    | Int(bits: nat)
    | FP(kind: FPKind)
    | Ptr(pointee: Type)
    | Array(elem: Type, count: nat)
    | Vector(elem: Type, count: nat)
    | Struct(fields: seq<Type>)
    | Named(id: nat)

  /** `None` is an opaque struct. */
  type Env = seq<Option<Type>>

  datatype LayoutError = UnsupportedInstruction | MalformedInstruction

  function FpSize(k: FPKind): nat {
    match k
    case Half => 16
    case Single => 32
    case Double => 64
    case FP128 => 128
    case X86FP80 => 80
    case PPCFP128 => 128
  }

  /** The type has a size: everything it contains by value is defined, by definitions before `k`. */
  predicate Sized(env: Env, ty: Type, k: nat)
    requires k <= |env|
  {
    match ty
    case Array(e, _) => Sized(env, e, k)
    case Vector(e, _) => Sized(env, e, k)
    case Struct(fs) => forall i :: 0 <= i < |fs| ==> Sized(env, fs[i], k)
    case Named(i) => i < k && env[i].Some?
    case _ => true
  }

  /** Definitions contain each other by value only in order. */
  predicate ValidEnv(env: Env) {
    forall i :: 0 <= i < |env| && env[i].Some? ==> Sized(env, env[i].value, i)
  }

  function SizeBelow(env: Env, ty: Type, k: nat): nat
    requires ValidEnv(env) && k <= |env| && Sized(env, ty, k)
    decreases k, ty
  {
    match ty
    case Int(bits) => bits
    case FP(kind) => FpSize(kind)
    case Ptr(_) => 64
    case Array(e, n) => n * SizeBelow(env, e, k)
    case Vector(e, n) => n * SizeBelow(env, e, k)
    case Struct(fs) => SizeOfFirst(env, fs, |fs|, k)
    case Named(i) => SizeBelow(env, env[i].value, i)
  }

  /** The sizes of the first `n` fields, added up. */
  function SizeOfFirst(env: Env, fs: seq<Type>, n: nat, k: nat): nat
    requires ValidEnv(env) && k <= |env| && n <= |fs| && forall i :: 0 <= i < |fs| ==> Sized(env, fs[i], k)
    decreases k, fs, n
  {
    if n == 0 then 0 else SizeOfFirst(env, fs, n - 1, k) + SizeBelow(env, fs[n - 1], k)
  }

  /** The size of a type, in bits. */
  function Size(env: Env, ty: Type): nat
    requires ValidEnv(env) && Sized(env, ty, |env|)
  {
    SizeBelow(env, ty, |env|)
  }

  /** The size does not depend on how much of the environment is in view. */
  lemma {:induction false} SizeStable(env: Env, ty: Type, k: nat, k': nat)
    requires ValidEnv(env) && k <= k' <= |env| && Sized(env, ty, k)
    ensures Sized(env, ty, k') && SizeBelow(env, ty, k') == SizeBelow(env, ty, k)
    decreases ty
  {
    match ty
    case Array(e, _) => SizeStable(env, e, k, k');
    case Vector(e, _) => SizeStable(env, e, k, k');
    case Struct(fs) =>
      forall i | 0 <= i < |fs|
        ensures Sized(env, fs[i], k') && SizeBelow(env, fs[i], k') == SizeBelow(env, fs[i], k)
      {
        SizeStable(env, fs[i], k, k');
      }
      SumStable(env, fs, |fs|, k, k');
    case _ =>
  }

  lemma {:induction false} SumStable(env: Env, fs: seq<Type>, n: nat, k: nat, k': nat)
    requires ValidEnv(env) && k <= k' <= |env| && n <= |fs|
    requires forall i :: 0 <= i < |fs| ==>
               Sized(env, fs[i], k) && Sized(env, fs[i], k') && SizeBelow(env, fs[i], k') == SizeBelow(env, fs[i], k)
    ensures SizeOfFirst(env, fs, n, k') == SizeOfFirst(env, fs, n, k)
    decreases n
  {
    if n > 0 {
      SumStable(env, fs, n - 1, k, k');
    }
  }

  /* ---------- One index ---------- */

  /** The fields of a struct or of a defined named struct. */
  function FieldsOf(env: Env, ty: Type): Option<seq<Type>> {
    match ty
    case Struct(fs) => Some(fs)
    case Named(i) => if i < |env| && env[i].Some? && env[i].value.Struct? then Some(env[i].value.fields) else None
    case _ => None
  }

  /** `i` is in range for `ty`, which is an aggregate and not a pointer. */
  predicate Indexable(env: Env, ty: Type, i: nat) {
    match ty
    case Array(_, n) => i < n
    case Vector(_, n) => i < n
    case _ => FieldsOf(env, ty).Some? && i < |FieldsOf(env, ty).value|
  }

  function ElemType(env: Env, ty: Type, i: nat): Type
    requires Indexable(env, ty, i)
  {
    match ty
    case Array(e, _) => e
    case Vector(e, _) => e
    case _ => FieldsOf(env, ty).value[i]
  }

  lemma ElemSized(env: Env, ty: Type, i: nat)
    requires ValidEnv(env) && Sized(env, ty, |env|) && Indexable(env, ty, i)
    ensures Sized(env, ElemType(env, ty, i), |env|)
  {
    if ty.Named? {
      SizeStable(env, ElemType(env, ty, i), ty.id, |env|);
    }
  }

  lemma FieldsSized(env: Env, ty: Type)
    requires ValidEnv(env) && Sized(env, ty, |env|) && FieldsOf(env, ty).Some?
    ensures var fs := FieldsOf(env, ty).value;
            && (forall i :: 0 <= i < |fs| ==> Sized(env, fs[i], |env|))
            && Size(env, ty) == SizeOfFirst(env, fs, |fs|, |env|)
  {
    if ty.Named? {
      SizeStable(env, env[ty.id].value, ty.id, |env|);
    }
  }

  /** Where element `i` starts, in bits. */
  ghost function BitOffset(env: Env, ty: Type, i: nat): nat
    requires ValidEnv(env) && Sized(env, ty, |env|) && Indexable(env, ty, i)
  {
    ElemSized(env, ty, i);
    if ty.Array? || ty.Vector? then i * Size(env, ty.elem)
    else
      FieldsSized(env, ty);
      SizeOfFirst(env, FieldsOf(env, ty).value, i, |env|)
  }

  /** What the offset functions ask of their caller; anything else makes them panic.  An index into
      a pointer, array or vector may be out of range, an index into a struct may not. */
  predicate Steppable(env: Env, ty: Type, i: nat) {
    match ty
    case Ptr(e) => Sized(env, e, |env|)
    case Array(e, _) => Sized(env, e, |env|)
    case Vector(e, _) => Sized(env, e, |env|)
    case Struct(fs) => i < |fs| && forall j :: 0 <= j < |fs| ==> Sized(env, fs[j], |env|)
    case Named(k) => k < |env| && (FieldsOf(env, ty).Some? ==> i < |FieldsOf(env, ty).value|)
    case _ => false
  }

  /** The step to element `i` can be counted in bytes.  For an array this is about the size of an
      element, even at index 0; for a struct it is about the offset alone. */
  ghost predicate ByteStep(env: Env, ty: Type, i: nat)
    requires ValidEnv(env) && Sized(env, ty, |env|) && Indexable(env, ty, i)
  {
    ElemSized(env, ty, i);
    if ty.Array? || ty.Vector? then Size(env, ty.elem) % 8 == 0 else BitOffset(env, ty, i) % 8 == 0
  }

  function StepByElements(env: Env, elem: Type, i: nat): (r: Result<(nat, Type), LayoutError>)
    requires ValidEnv(env) && Sized(env, elem, |env|)
    ensures r.Ok? <==> Size(env, elem) % 8 == 0
    ensures r.Ok? ==> 8 * r.value.0 == i * Size(env, elem)
  {
    var bits := Size(env, elem);
    if bits % 8 != 0 then Err(UnsupportedInstruction)
    else
      ScaleBytes(i, bits);
      Ok((i * (bits / 8), elem))
  }

  /** The byte offset of the element at a constant index, and its type. */
  function GetOffsetConstantIndex(env: Env, ty: Type, i: nat): (r: Result<(nat, Type), LayoutError>)
    requires ValidEnv(env) && Steppable(env, ty, i)
    ensures Sized(env, ty, |env|) && Indexable(env, ty, i) ==>
              && (r.Ok? <==> ByteStep(env, ty, i))
              && (r.Ok? ==> 8 * r.value.0 == BitOffset(env, ty, i) && r.value.1 == ElemType(env, ty, i))
    ensures r == Err(MalformedInstruction) <==> ty.Named? && FieldsOf(env, ty).None?
    ensures r.Ok? && ty.Ptr? ==> r.value.1 == ty.pointee && 8 * r.value.0 == i * Size(env, ty.pointee)
  {
    if ty.Ptr? then StepByElements(env, ty.pointee, i)
    else if ty.Array? || ty.Vector? then StepByElements(env, ty.elem, i)
    else if FieldsOf(env, ty).None? then Err(MalformedInstruction)
    else
      FieldsSized(env, ty);
      var fs := FieldsOf(env, ty).value;
      var bits := SizeOfFirst(env, fs, i, |env|);
      if bits % 8 != 0 then Err(UnsupportedInstruction) else Ok((bits / 8, fs[i]))
  }

  lemma ScaleBytes(i: nat, bits: nat)
    requires bits % 8 == 0
    ensures 8 * (i * (bits / 8)) == i * bits
  {
    assert bits == 8 * (bits / 8);
    assert i * (8 * (bits / 8)) == 8 * (i * (bits / 8));
  }

  /** The struct case as the source computes it: a loop over the fields before the one indexed. */
  method StructOffset(env: Env, ty: Type, i: nat) returns (offsetBits: nat)
    requires ValidEnv(env) && Sized(env, ty, |env|) && FieldsOf(env, ty).Some? && Indexable(env, ty, i)
    ensures offsetBits == BitOffset(env, ty, i)
  {
    FieldsSized(env, ty);
    var fs := FieldsOf(env, ty).value;
    offsetBits := 0;
    for j := 0 to i
      invariant offsetBits == SizeOfFirst(env, fs, j, |env|)
    {
      offsetBits := offsetBits + Size(env, fs[j]);
    }
  }

  /** An element lies inside its aggregate, and before every later element. */
  lemma ElementsInOrder(env: Env, ty: Type, i: nat, j: nat)
    requires ValidEnv(env) && Sized(env, ty, |env|) && Indexable(env, ty, i) && Indexable(env, ty, j) && i < j
    ensures Sized(env, ElemType(env, ty, i), |env|)
    ensures BitOffset(env, ty, i) + Size(env, ElemType(env, ty, i)) <= BitOffset(env, ty, j)
  {
    ElemSized(env, ty, i);
    if ty.Array? || ty.Vector? {
      StepUp(i, j, Size(env, ty.elem));
    } else {
      FieldsSized(env, ty);
      SumUpTo(env, FieldsOf(env, ty).value, i, j);
    }
  }

  lemma ElementInside(env: Env, ty: Type, i: nat)
    requires ValidEnv(env) && Sized(env, ty, |env|) && Indexable(env, ty, i)
    ensures Sized(env, ElemType(env, ty, i), |env|)
    ensures BitOffset(env, ty, i) + Size(env, ElemType(env, ty, i)) <= Size(env, ty)
  {
    ElemSized(env, ty, i);
    if ty.Array? || ty.Vector? {
      StepUp(i, ty.count, Size(env, ty.elem));
    } else {
      FieldsSized(env, ty);
      var fs := FieldsOf(env, ty).value;
      SumUpTo(env, fs, i, |fs|);
    }
  }

  /** The elements tile the aggregate: the first starts at 0, each starts where the one before it
      ends, and the last ends where the aggregate does. */
  lemma ElementsTile(env: Env, ty: Type, i: nat)
    requires ValidEnv(env) && Sized(env, ty, |env|) && Indexable(env, ty, i)
    ensures Sized(env, ElemType(env, ty, i), |env|)
    ensures i == 0 ==> BitOffset(env, ty, i) == 0
    ensures var end := BitOffset(env, ty, i) + Size(env, ElemType(env, ty, i));
            if Indexable(env, ty, i + 1) then BitOffset(env, ty, i + 1) == end else Size(env, ty) == end
  {
    ElemSized(env, ty, i);
    if ty.Array? || ty.Vector? {
      var size := Size(env, ty.elem);
      assert (i + 1) * size == i * size + size;
      if !Indexable(env, ty, i + 1) {
        assert ty.count == i + 1;
      }
    } else {
      FieldsSized(env, ty);
    }
  }

  /** A named struct is laid out as its definition. */
  lemma NamedAsDefined(env: Env, k: nat, i: nat)
    requires ValidEnv(env) && k < |env| && env[k].Some? && env[k].value.Struct?
    ensures Sized(env, env[k].value, |env|) && Size(env, Named(k)) == Size(env, env[k].value)
    ensures Indexable(env, Named(k), i) <==> Indexable(env, env[k].value, i)
    ensures Indexable(env, Named(k), i) ==>
              GetOffsetConstantIndex(env, Named(k), i) == GetOffsetConstantIndex(env, env[k].value, i)
  {
    SizeStable(env, env[k].value, k, |env|);
  }

  /** An aggregate without elements takes no room. */
  lemma NoElements(env: Env, ty: Type)
    requires ValidEnv(env) && Sized(env, ty, |env|) && !Indexable(env, ty, 0)
    requires ty.Array? || ty.Vector? || FieldsOf(env, ty).Some?
    ensures Size(env, ty) == 0
  {
    if ty.Array? || ty.Vector? {
      assert ty.count == 0;
    } else {
      FieldsSized(env, ty);
    }
  }

  lemma StepUp(i: nat, j: nat, size: nat)
    requires i < j
    ensures i * size + size <= j * size
  {
    assert (j - i - 1) * size >= 0;
    assert j * size == i * size + size + (j - i - 1) * size;
  }

  lemma {:induction false} SumUpTo(env: Env, fs: seq<Type>, i: nat, j: nat)
    requires ValidEnv(env) && i < j <= |fs| && forall k :: 0 <= k < |fs| ==> Sized(env, fs[k], |env|)
    ensures SizeOfFirst(env, fs, i, |env|) + Size(env, fs[i]) <= SizeOfFirst(env, fs, j, |env|)
    decreases j
  {
    if i + 1 < j {
      SumUpTo(env, fs, i, j - 1);
    }
  }
}
