/** Queries built on push, pop, assert and sat: extreme values and bounded enumeration. */
module SolverUtils {
  import opened Wrappers
  import opened BinaryDigits
  import opened SolverModel

  /** A symbolic bit-vector: its digits under each model.  `known` is what the solver can tell about
      it without a query; it may be `Some` only if the value is the same under every model. */
  datatype SymBV<!M> = SymBV(width: nat, digits: M -> Digits, known: Option<Digits>)

  ghost predicate ValidBV<M(!new)>(bv: SymBV<M>) {
    && bv.width > 0
    && (forall m :: |bv.digits(m)| == bv.width)
    && (bv.known.Some? ==> forall m :: bv.digits(m) == bv.known.value)
  }

  function Val<M>(bv: SymBV<M>, m: M): nat {
    Number(bv.digits(m))
  }

  /** The digits from the `high`-th to the `low`-th, counted from the least significant one. */
  function SliceBV<M>(bv: SymBV<M>, high: nat, low: nat): (r: SymBV<M>)
    requires low <= high < bv.width
  {
    var from, to := bv.width - 1 - high, bv.width - low;
    SymBV(high - low + 1,
          m => if |bv.digits(m)| == bv.width then bv.digits(m)[from..to] else [],
          match bv.known
          case None => None
          case Some(d) => if |d| == bv.width then Some(d[from..to]) else None)
  }

  /** Every value that the constraints allow. */
  ghost function Values<M(!new)>(ms: set<M>, bv: SymBV<M>): set<Digits> {
    set m | m in ms :: bv.digits(m)
  }

  ghost predicate IsMax<M(!new)>(ms: set<M>, bv: SymBV<M>, v: nat) {
    (exists m :: m in ms && Val(bv, m) == v) && forall m :: m in ms ==> Val(bv, m) <= v
  }

  ghost predicate IsMin<M(!new)>(ms: set<M>, bv: SymBV<M>, v: nat) {
    (exists m :: m in ms && Val(bv, m) == v) && forall m :: m in ms ==> v <= Val(bv, m)
  }

  method BvsCanBeEqual<M(==,!new)>(solver: Solver<M>, bv: SymBV<M>, d: Digits) returns (b: bool)
    requires solver.Valid()
    modifies solver
    ensures solver.Valid() && solver.frames == old(solver.frames)
    ensures b <==> d in Values(solver.Current(), bv)
  {
    b := solver.SatWithExtraConstraint(m => bv.digits(m) == d);
  }

  /** The midpoint, computed without overflowing 64 bits, and moved towards the small end. */
  function BiasedMid(min: nat, max: nat): (mid: nat)
    requires max - min > 1
    ensures min < mid < max
  {
    var mid := min / 2 + max / 2 + (min % 2 + max % 2) / 2;
    if mid / 2 > min then mid / 2 else mid
  }

  function Largest(width: nat): nat {
    Pow2(width) - 1
  }

  /** Largest fits in a `u64`. */
  lemma LargestFits(width: nat)
    requires width <= 64
    ensures Largest(width) < 0x1_0000_0000_0000_0000
  {
    Pow2Monotone(width, 64);
    Pow2Of64();
  }

  lemma ValBound<M(!new)>(bv: SymBV<M>, m: M)
    requires ValidBV(bv)
    ensures Val(bv, m) <= Largest(bv.width)
  {
    NumberBound(bv.digits(m));
  }

  ghost function AtLeastSet<M(!new)>(ms: set<M>, bv: SymBV<M>, v: nat): set<M> {
    set m | m in ms && Val(bv, m) >= v
  }

  ghost function AtMostSet<M(!new)>(ms: set<M>, bv: SymBV<M>, v: nat): set<M> {
    set m | m in ms && Val(bv, m) <= v
  }

  /** The solver after `pushes` frames have been left open on top of `frames`. */
  ghost predicate Opened<M>(now: seq<set<M>>, frames: seq<set<M>>, pushes: nat) {
    |now| == |frames| + pushes && now[..|frames|] == frames
  }

  /** Pushes that found a solution stay open until the end; the frames are back when it returns. */
  method SearchMax<M(==,!new)>(solver: Solver<M>, bv: SymBV<M>, bound: nat) returns (r: nat)
    requires solver.Valid() && solver.Current() != {}
    requires 0 < bound < 0x1_0000_0000_0000_0000 && forall m :: m in solver.Current() ==> Val(bv, m) < bound
    modifies solver
    ensures solver.Valid() && solver.frames == old(solver.frames)
    ensures IsMax(solver.Current(), bv, r) && r < bound
  {
    hide Number, Where;
    ghost var ms, frames := solver.Current(), solver.frames;
    var min, max, pushes := 0, bound, 0;
    assert AtLeastSet(ms, bv, 0) == ms;
    while max - min > 1
      invariant 0 <= min < max <= bound && pushes >= 0
      invariant solver.Valid() && Opened(solver.frames, frames, pushes)
      invariant solver.Current() == AtLeastSet(ms, bv, min) && solver.Current() != {}
      invariant forall m :: m in ms ==> Val(bv, m) < max
      decreases max - min
    {
      var mid := BiasedMid(min, max);
      solver.Push();
      pushes := pushes + 1;
      solver.Assert(m => Val(bv, m) >= mid);
      assert solver.Current() == AtLeastSet(ms, bv, mid);
      var feasible := solver.Sat();
      if feasible {
        min := mid;
      } else {
        forall m | m in ms
          ensures Val(bv, m) < mid
        {
          assert m !in AtLeastSet(ms, bv, mid);
        }
        max := mid;
        solver.Pop(1);
        pushes := pushes - 1;
      }
    }
    ghost var m1 :| m1 in solver.Current();
    assert m1 in ms && Val(bv, m1) == min;
    solver.Pop(pushes);
    r := min;
  }

  method SearchMin<M(==,!new)>(solver: Solver<M>, bv: SymBV<M>, bound: nat) returns (r: nat)
    requires solver.Valid() && solver.Current() != {}
    requires 0 < bound < 0x1_0000_0000_0000_0000 && forall m :: m in solver.Current() ==> 0 < Val(bv, m) <= bound
    modifies solver
    ensures solver.Valid() && solver.frames == old(solver.frames)
    ensures IsMin(solver.Current(), bv, r) && r <= bound
  {
    hide Number, Where;
    ghost var ms, frames := solver.Current(), solver.frames;
    var min, max, pushes := 0, bound, 0;
    assert AtMostSet(ms, bv, bound) == ms;
    while max - min > 1
      invariant 0 <= min < max <= bound && pushes >= 0
      invariant solver.Valid() && Opened(solver.frames, frames, pushes)
      invariant solver.Current() == AtMostSet(ms, bv, max) && solver.Current() != {}
      invariant forall m :: m in ms ==> Val(bv, m) > min
      decreases max - min
    {
      var mid := BiasedMid(min, max);
      solver.Push();
      pushes := pushes + 1;
      solver.Assert(m => Val(bv, m) <= mid);
      assert solver.Current() == AtMostSet(ms, bv, mid);
      var feasible := solver.Sat();
      if feasible {
        max := mid;
      } else {
        forall m | m in ms
          ensures Val(bv, m) > mid
        {
          assert m !in AtMostSet(ms, bv, mid);
        }
        min := mid;
        solver.Pop(1);
        pushes := pushes - 1;
      }
    }
    ghost var m1 :| m1 in solver.Current();
    assert m1 in ms && Val(bv, m1) == max;
    solver.Pop(pushes);
    r := max;
  }

  /** The digits that stand for an extreme value stand for no other. */
  lemma OnlyDigits<M(!new)>(ms: set<M>, bv: SymBV<M>, d: Digits)
    requires ValidBV(bv) && |d| == bv.width
    ensures d in Values(ms, bv) <==> exists m :: m in ms && Val(bv, m) == Number(d)
  {
    if exists m :: m in ms && Val(bv, m) == Number(d) {
      var m :| m in ms && Val(bv, m) == Number(d);
      NumberInjective(bv.digits(m), d);
    }
  }

  lemma ValBounds<M(!new)>(ms: set<M>, bv: SymBV<M>)
    requires ValidBV(bv)
    ensures forall m :: m in ms ==> Val(bv, m) <= Largest(bv.width)
  {
    forall m | m in ms
      ensures Val(bv, m) <= Largest(bv.width)
    {
      ValBound(bv, m);
    }
  }

  lemma LargestPositive(width: nat)
    requires width > 0
    ensures Largest(width) > 0
  {
  }

  /** The greatest value that the constraints allow, or `None` if they allow none. */
  method MaxPossibleSolutionAsU64<M(==,!new)>(solver: Solver<M>, bv: SymBV<M>) returns (r: Option<nat>)
    requires solver.Valid() && ValidBV(bv) && bv.width <= 64
    modifies solver
    ensures solver.Valid() && solver.frames == old(solver.frames)
    ensures r.None? <==> solver.Current() == {}
    ensures r.Some? ==> IsMax(solver.Current(), bv, r.value) && r.value <= Largest(bv.width)
  {
    ghost var ms := solver.Current();
    ValBounds(ms, bv);
    var feasible := solver.Sat();
    if !feasible {
      return None;
    }
    ghost var m0 :| m0 in ms;
    if bv.known.Some? {
      assert bv.digits(m0) == bv.known.value;
      return Some(Number(bv.known.value));
    }
    hide Number, Largest, Pow2, Val;
    var ones := Ones(bv.width);
    LargestFits(bv.width);
    LargestPositive(bv.width);
    OnlyDigits(ms, bv, ones);
    assert Number(ones) == Largest(bv.width) by { OnesNumber(bv.width); }
    var canBeOnes := BvsCanBeEqual(solver, bv, ones);
    if canBeOnes {
      return Some(Largest(bv.width));
    }
    var max := SearchMax(solver, bv, Largest(bv.width));
    return Some(max);
  }

  lemma OnesNumber(width: nat)
    ensures Number(Ones(width)) == Largest(width)
  {
    OnesIsLargest(width);
  }

  /** The least value that the constraints allow, or `None` if they allow none. */
  method MinPossibleSolutionAsU64<M(==,!new)>(solver: Solver<M>, bv: SymBV<M>) returns (r: Option<nat>)
    requires solver.Valid() && ValidBV(bv) && bv.width <= 64
    modifies solver
    ensures solver.Valid() && solver.frames == old(solver.frames)
    ensures r.None? <==> solver.Current() == {}
    ensures r.Some? ==> IsMin(solver.Current(), bv, r.value) && r.value <= Largest(bv.width)
  {
    ghost var ms := solver.Current();
    ValBounds(ms, bv);
    var feasible := solver.Sat();
    if !feasible {
      return None;
    }
    ghost var m0 :| m0 in ms;
    if bv.known.Some? {
      assert bv.digits(m0) == bv.known.value;
      return Some(Number(bv.known.value));
    }
    NumberOfDigits(0, bv.width);
    hide Number, Largest, Pow2, Val, ToDigits;
    var zero := ToDigits(0, bv.width);
    LargestFits(bv.width);
    LargestPositive(bv.width);
    OnlyDigits(ms, bv, zero);
    var canBeZero := BvsCanBeEqual(solver, bv, zero);
    if canBeZero {
      return Some(0);
    }
    var min := SearchMin(solver, bv, Largest(bv.width));
    return Some(min);
  }

  /* ---------- Values of any width ---------- */

  /** The `k` most significant digits. */
  function Top<M>(bv: SymBV<M>, m: M, k: nat): Digits {
    if k <= |bv.digits(m)| then bv.digits(m)[..k] else []
  }

  /** The models whose top digits are `d`. */
  ghost function WithTop<M(!new)>(ms: set<M>, bv: SymBV<M>, d: Digits): set<M> {
    set m | m in ms && Top(bv, m, |d|) == d
  }

  ghost predicate TopAtMost<M(!new)>(ms: set<M>, bv: SymBV<M>, d: Digits) {
    forall m :: m in ms ==> Number(Top(bv, m, |d|)) <= Number(d)
  }

  ghost predicate TopAtLeast<M(!new)>(ms: set<M>, bv: SymBV<M>, d: Digits) {
    forall m :: m in ms ==> Number(d) <= Number(Top(bv, m, |d|))
  }

  /** `low` is what is left of `bv` below its `k` top digits. */
  ghost predicate Below<M(!new)>(bv: SymBV<M>, low: SymBV<M>, k: nat) {
    && ValidBV(bv) && ValidBV(low) && k + low.width == bv.width
    && forall m :: bv.digits(m)[k..] == low.digits(m)
  }

  lemma SliceValid<M(!new)>(bv: SymBV<M>, high: nat, low: nat)
    requires ValidBV(bv) && low <= high < bv.width
    ensures ValidBV(SliceBV(bv, high, low))
    ensures forall m :: SliceBV(bv, high, low).digits(m) == bv.digits(m)[bv.width - 1 - high..bv.width - low]
  {
  }

  /** The next `w` digits of the models in `WithTop(ms, bv, d)` decide the comparison. */
  lemma ExtendMax<M(!new)>(ms: set<M>, bv: SymBV<M>, d: Digits, low: SymBV<M>, chunk: SymBV<M>, v: nat)
    requires ValidBV(bv) && Below(bv, low, |d|) && ValidBV(chunk) && chunk.width <= low.width
    requires forall m :: chunk.digits(m) == low.digits(m)[..chunk.width]
    requires TopAtMost(ms, bv, d) && IsMax(WithTop(ms, bv, d), chunk, v) && v <= Largest(chunk.width)
    ensures var d' := d + ToDigits(v, chunk.width);
            && TopAtMost(ms, bv, d')
            && WithTop(ms, bv, d') == WithTop(WithTop(ms, bv, d), chunk, ToDigits(v, chunk.width))
            && WithTop(ms, bv, d') != {}
  {
    var c := ToDigits(v, chunk.width);
    NumberOfDigits(v, chunk.width);
    forall m | m in ms
      ensures Top(bv, m, |d + c|) == Top(bv, m, |d|) + chunk.digits(m)
      ensures Number(Top(bv, m, |d + c|)) <= Number(d + c)
    {
      assert Top(bv, m, |d + c|) == Top(bv, m, |d|) + chunk.digits(m);
      NumberLexicographic(Top(bv, m, |d|), chunk.digits(m), d, c);
      if Number(Top(bv, m, |d|)) == Number(d) {
        NumberInjective(Top(bv, m, |d|), d);
        assert m in WithTop(ms, bv, d);
      }
    }
    ExtendTop(ms, bv, d, chunk, c);
    var m :| m in WithTop(ms, bv, d) && Val(chunk, m) == v;
    NumberInjective(chunk.digits(m), c);
    assert m in WithTop(ms, bv, d + c);
  }

  lemma ExtendMin<M(!new)>(ms: set<M>, bv: SymBV<M>, d: Digits, low: SymBV<M>, chunk: SymBV<M>, v: nat)
    requires ValidBV(bv) && Below(bv, low, |d|) && ValidBV(chunk) && chunk.width <= low.width
    requires forall m :: chunk.digits(m) == low.digits(m)[..chunk.width]
    requires TopAtLeast(ms, bv, d) && IsMin(WithTop(ms, bv, d), chunk, v) && v <= Largest(chunk.width)
    ensures var d' := d + ToDigits(v, chunk.width);
            && TopAtLeast(ms, bv, d')
            && WithTop(ms, bv, d') == WithTop(WithTop(ms, bv, d), chunk, ToDigits(v, chunk.width))
            && WithTop(ms, bv, d') != {}
  {
    var c := ToDigits(v, chunk.width);
    NumberOfDigits(v, chunk.width);
    forall m | m in ms
      ensures Top(bv, m, |d + c|) == Top(bv, m, |d|) + chunk.digits(m)
      ensures Number(d + c) <= Number(Top(bv, m, |d + c|))
    {
      assert Top(bv, m, |d + c|) == Top(bv, m, |d|) + chunk.digits(m);
      NumberLexicographic(d, c, Top(bv, m, |d|), chunk.digits(m));
      if Number(Top(bv, m, |d|)) == Number(d) {
        NumberInjective(Top(bv, m, |d|), d);
        assert m in WithTop(ms, bv, d);
      }
    }
    ExtendTop(ms, bv, d, chunk, c);
    var m :| m in WithTop(ms, bv, d) && Val(chunk, m) == v;
    NumberInjective(chunk.digits(m), c);
    assert m in WithTop(ms, bv, d + c);
  }

  lemma ExtendTop<M(!new)>(ms: set<M>, bv: SymBV<M>, d: Digits, chunk: SymBV<M>, c: Digits)
    requires |c| == chunk.width && forall m :: m in ms ==> Top(bv, m, |d + c|) == Top(bv, m, |d|) + chunk.digits(m)
    requires ValidBV(chunk) && ValidBV(bv) && |d| + |c| <= bv.width
    ensures WithTop(ms, bv, d + c) == WithTop(WithTop(ms, bv, d), chunk, c)
  {
    forall m | m in ms
      ensures m in WithTop(ms, bv, d + c) <==> m in WithTop(WithTop(ms, bv, d), chunk, c)
    {
      assert Top(chunk, m, |c|) == chunk.digits(m);
      assert (d + c)[..|d|] == d && (d + c)[|d|..] == c;
      var t := Top(bv, m, |d|) + chunk.digits(m);
      assert t[..|d|] == Top(bv, m, |d|) && t[|d|..] == chunk.digits(m);
    }
  }

  /** Finds the maximum of the top 64 digits of `bv`, the part of `whole` below `d`, and constrains them to it. */
  method FixTopChunkMax<M(==,!new)>(solver: Solver<M>, ghost whole: SymBV<M>, bv: SymBV<M>, ghost d: Digits, ghost ms: set<M>)
    returns (c: Option<Digits>, rest: SymBV<M>)
    requires solver.Valid() && Below(whole, bv, |d|) && TopAtMost(ms, whole, d) && bv.width > 64
    requires solver.Current() == WithTop(ms, whole, d)
    modifies solver
    ensures solver.Valid()
    ensures c.None? <==> old(solver.Current()) == {}
    ensures c.None? ==> solver.frames == old(solver.frames)
    ensures c.Some? ==>
              && |c.value| == 64 && Below(whole, rest, |d| + 64) && rest.width == bv.width - 64
              && TopAtMost(ms, whole, d + c.value)
              && solver.frames == old(solver.frames)[..|old(solver.frames)| - 1] + [WithTop(ms, whole, d + c.value)]
              && solver.Current() != {}
  {
    hide Number, ToDigits, Largest, Where, TopAtMost, IsMax, FixedDigits, WithTop;
    var highBits := SliceBV(bv, bv.width - 1, bv.width - 64);
    rest := SliceBV(bv, bv.width - 65, 0);
    SliceValid(bv, bv.width - 1, bv.width - 64);
    SliceValid(bv, bv.width - 65, 0);
    var max := MaxPossibleSolutionAsU64(solver, highBits);
    if max.None? {
      return None, rest;
    }
    ExtendMax(ms, whole, d, bv, highBits, max.value);
    var digits := ToDigits(max.value, 64);
    var isDigits := m => highBits.digits(m) == digits;
    WhereIsTop(WithTop(ms, whole, d), highBits, digits, isDigits);
    solver.Assert(isDigits);
    BelowRest(whole, bv, rest, |d|, 64);
    c := Some(digits);
  }

  /** The digits of the greatest value, for a bit-vector of any width.  The frames are restored only
      when there is a value: the early exit leaves its frame on the solver. */
  method MaxPossibleSolutionAsBinaryStr<M(==,!new)>(solver: Solver<M>, whole: SymBV<M>) returns (r: Option<Digits>)
    requires solver.Valid() && ValidBV(whole)
    modifies solver
    ensures solver.Valid()
    ensures r.None? <==> old(solver.Current()) == {}
    ensures r.None? ==> solver.frames == old(solver.frames) + [old(solver.Current())]
    ensures r.Some? ==> solver.frames == old(solver.frames)
    ensures r.Some? ==> |r.value| == whole.width && IsMax(solver.Current(), whole, Number(r.value))
  {
    hide Number, ToDigits, Largest, Where, TopAtMost, IsMax;
    ghost var ms, frames := solver.Current(), solver.frames;
    var bv, d := whole, [];
    solver.Push();
    TopOfNone(ms, whole);
    while bv.width > 64
      invariant Below(whole, bv, |d|) && TopAtMost(ms, whole, d)
      invariant solver.Valid() && solver.frames == frames + [WithTop(ms, whole, d)]
      invariant d != [] ==> solver.Current() != {}
      decreases bv.width
    {
      var c, rest := FixTopChunkMax(solver, whole, bv, d, ms);
      if c.None? {
        NothingOnTop(ms, whole, d);
        return None;
      }
      d := d + c.value;
      bv := rest;
    }
    var max := MaxPossibleSolutionAsU64(solver, bv);
    if max.None? {
      NothingOnTop(ms, whole, d);
      return None;
    }
    ExtendMax(ms, whole, d, bv, bv, max.value);
    d := d + ToDigits(max.value, bv.width);
    solver.Pop(1);
    MaxOfAll(ms, whole, d);
    return Some(d);
  }

  lemma WhereIsTop<M(!new)>(ms: set<M>, bv: SymBV<M>, c: Digits, p: M -> bool)
    requires ValidBV(bv) && |c| == bv.width && forall m :: p(m) <==> bv.digits(m) == c
    ensures Where(ms, p) == WithTop(ms, bv, c)
  {
    forall m
      ensures Top(bv, m, |c|) == bv.digits(m)
    {
    }
  }

  lemma TopOfNone<M(!new)>(ms: set<M>, bv: SymBV<M>)
    requires ValidBV(bv)
    ensures TopAtMost(ms, bv, []) && TopAtLeast(ms, bv, []) && WithTop(ms, bv, []) == ms && Below(bv, bv, 0)
  {
    forall m
      ensures bv.digits(m)[0..] == bv.digits(m)
    {
    }
  }

  /** Only the first chunk can turn out to have no solution. */
  lemma NothingOnTop<M(!new)>(ms: set<M>, bv: SymBV<M>, d: Digits)
    requires ValidBV(bv) && WithTop(ms, bv, d) == {} && (d != [] ==> WithTop(ms, bv, d) != {})
    ensures ms == {}
  {
    TopOfNone(ms, bv);
  }

  lemma BelowRest<M(!new)>(bv: SymBV<M>, low: SymBV<M>, rest: SymBV<M>, k: nat, w: nat)
    requires ValidBV(bv) && Below(bv, low, k) && ValidBV(rest) && w < low.width && rest.width == low.width - w
    requires forall m :: rest.digits(m) == low.digits(m)[w..]
    ensures Below(bv, rest, k + w)
  {
    forall m
      ensures bv.digits(m)[k + w..] == rest.digits(m)
    {
      assert bv.digits(m)[k + w..] == bv.digits(m)[k..][w..];
    }
  }

  lemma MaxOfAll<M(!new)>(ms: set<M>, bv: SymBV<M>, d: Digits)
    requires ValidBV(bv) && |d| == bv.width && TopAtMost(ms, bv, d) && WithTop(ms, bv, d) != {}
    ensures IsMax(ms, bv, Number(d)) && ms != {}
  {
    forall m
      ensures Top(bv, m, |d|) == bv.digits(m)
    {
    }
    var m :| m in WithTop(ms, bv, d);
  }

  lemma MinOfAll<M(!new)>(ms: set<M>, bv: SymBV<M>, d: Digits)
    requires ValidBV(bv) && |d| == bv.width && TopAtLeast(ms, bv, d) && WithTop(ms, bv, d) != {}
    ensures IsMin(ms, bv, Number(d)) && ms != {}
  {
    forall m
      ensures Top(bv, m, |d|) == bv.digits(m)
    {
    }
    var m :| m in WithTop(ms, bv, d);
  }

  /** How many top digits are fixed before the last chunk. */
  function FixedDigits(width: nat): nat
    requires width > 0
  {
    (width - 1) / 64 * 64
  }

  lemma FixedIs(width: nat, k: nat)
    requires k % 64 == 0 && k < width <= k + 64
    ensures FixedDigits(width) == k
  {
  }

  /** Finds the minimum of the top 64 digits of `bv`, the part of `whole` below `d`, and constrains them to it. */
  method FixTopChunkMin<M(==,!new)>(solver: Solver<M>, ghost whole: SymBV<M>, bv: SymBV<M>, ghost d: Digits, ghost ms: set<M>)
    returns (c: Option<Digits>, rest: SymBV<M>)
    requires solver.Valid() && Below(whole, bv, |d|) && TopAtLeast(ms, whole, d) && bv.width > 64
    requires solver.Current() == WithTop(ms, whole, d)
    modifies solver
    ensures solver.Valid()
    ensures c.None? <==> old(solver.Current()) == {}
    ensures c.None? ==> solver.frames == old(solver.frames)
    ensures c.Some? ==>
              && |c.value| == 64 && Below(whole, rest, |d| + 64) && rest.width == bv.width - 64
              && TopAtLeast(ms, whole, d + c.value)
              && solver.frames == old(solver.frames)[..|old(solver.frames)| - 1] + [WithTop(ms, whole, d + c.value)]
              && solver.Current() != {}
  {
    hide Number, ToDigits, Largest, Where, TopAtLeast, IsMin, FixedDigits, WithTop;
    var highBits := SliceBV(bv, bv.width - 1, bv.width - 64);
    rest := SliceBV(bv, bv.width - 65, 0);
    SliceValid(bv, bv.width - 1, bv.width - 64);
    SliceValid(bv, bv.width - 65, 0);
    var min := MinPossibleSolutionAsU64(solver, highBits);
    if min.None? {
      return None, rest;
    }
    ExtendMin(ms, whole, d, bv, highBits, min.value);
    var digits := ToDigits(min.value, 64);
    var isDigits := m => highBits.digits(m) == digits;
    WhereIsTop(WithTop(ms, whole, d), highBits, digits, isDigits);
    solver.Assert(isDigits);
    BelowRest(whole, bv, rest, |d|, 64);
    c := Some(digits);
  }

  /** The digits of the least value, for a bit-vector of any width.  Nothing is pushed, so the
      constraints on all but the last chunk stay on the solver. */
  method MinPossibleSolutionAsBinaryStr<M(==,!new)>(solver: Solver<M>, whole: SymBV<M>) returns (r: Option<Digits>)
    requires solver.Valid() && ValidBV(whole)
    modifies solver
    ensures solver.Valid()
    ensures r.None? <==> old(solver.Current()) == {}
    ensures r.None? ==> solver.frames == old(solver.frames)
    ensures r.Some? ==> |r.value| == whole.width && IsMin(old(solver.Current()), whole, Number(r.value))
    ensures r.Some? ==>
              solver.frames == old(solver.frames)[..|old(solver.frames)| - 1]
                             + [WithTop(old(solver.Current()), whole, r.value[..FixedDigits(whole.width)])]
  {
    hide Number, ToDigits, Largest, Where, TopAtLeast, IsMin, FixedDigits;
    ghost var ms, frames := solver.Current(), solver.frames[..|solver.frames| - 1];
    var bv, d := whole, [];
    TopOfNone(ms, whole);
    while bv.width > 64
      invariant Below(whole, bv, |d|) && TopAtLeast(ms, whole, d) && |d| % 64 == 0
      invariant solver.Valid() && solver.frames == frames + [WithTop(ms, whole, d)]
      invariant d != [] ==> solver.Current() != {}
      decreases bv.width
    {
      var c, rest := FixTopChunkMin(solver, whole, bv, d, ms);
      if c.None? {
        NothingOnTop(ms, whole, d);
        return None;
      }
      d := d + c.value;
      bv := rest;
    }
    var min := MinPossibleSolutionAsU64(solver, bv);
    if min.None? {
      NothingOnTop(ms, whole, d);
      return None;
    }
    ExtendMin(ms, whole, d, bv, bv, min.value);
    ghost var top := d;
    d := d + ToDigits(min.value, bv.width);
    FixedIs(whole.width, |top|);
    assert d[..|top|] == top;
    MinOfAll(ms, whole, d);
    return Some(d);
  }

  /** The minimum search leaves the constraints as they were exactly when no top digit is fixed, or
      all solutions agree on the fixed ones. */
  lemma MinRestoresIff<M(!new)>(ms: set<M>, bv: SymBV<M>, d: Digits)
    requires ValidBV(bv) && |d| == bv.width && WithTop(ms, bv, d) != {}
    ensures WithTop(ms, bv, d[..FixedDigits(bv.width)]) == ms
       <==> forall m, n :: m in ms && n in ms ==>
              Top(bv, m, FixedDigits(bv.width)) == Top(bv, n, FixedDigits(bv.width))
  {
    var k := FixedDigits(bv.width);
    var w :| w in WithTop(ms, bv, d);
    assert Top(bv, w, k) == d[..k];
    if forall m, n :: m in ms && n in ms ==> Top(bv, m, k) == Top(bv, n, k) {
      forall m | m in ms
        ensures m in WithTop(ms, bv, d[..k])
      {
        assert Top(bv, m, k) == Top(bv, w, k);
      }
    }
    if WithTop(ms, bv, d[..k]) == ms {
      forall m, n | m in ms && n in ms
        ensures Top(bv, m, k) == Top(bv, n, k)
      {
        assert m in WithTop(ms, bv, d[..k]) && n in WithTop(ms, bv, d[..k]);
      }
    }
  }

  /* ---------- Bounded enumeration ---------- */

  datatype PossibleSolutions = Exactly(solutions: set<Digits>) | AtLeast(solutions: set<Digits>)

  /** The models whose value is none of `s`. */
  ghost function Avoiding<M(!new)>(ms: set<M>, bv: SymBV<M>, s: set<Digits>): set<M> {
    set m | m in ms && bv.digits(m) !in s
  }

  /** What the documentation promises of an enumeration that looks for up to `n` solutions. */
  ghost predicate Describes<M(!new)>(ps: PossibleSolutions, ms: set<M>, bv: SymBV<M>, n: nat) {
    match ps
    case Exactly(s) => s == Values(ms, bv) && |s| <= n
    case AtLeast(s) => s <= Values(ms, bv) && |s| == n + 1
  }

  /** Some model's value. */
  method GetASolution<M(==,!new)>(solver: Solver<M>, bv: SymBV<M>) returns (d: Digits)
    requires solver.Valid() && solver.Current() != {}
    ensures d in Values(solver.Current(), bv)
  {
    var current := solver.Current();
    var m :| m in current;
    d := bv.digits(m);
  }

  /** The values that are tried first: 0, 1, all ones, and the powers of 2 up to the `k`-th that fit. */
  ghost function CommonValues(w: nat, k: nat): set<Digits> {
    if k == 0 then {ToDigits(0, w), ToDigits(1, w)} + if w > 1 then {Ones(w)} else {}
    else CommonValues(w, k - 1) + if w > k then {ToDigits(Pow2(k), w)} else {}
  }

  function Ones(w: nat): Digits {
    seq(w, _ => true)
  }

  /** All feasible members of `tried` have been found, unless there is no more room. */
  ghost predicate Finds<M(!new)>(ms: set<M>, bv: SymBV<M>, n: nat, tried: set<Digits>, found: set<Digits>) {
    && found <= Values(ms, bv)
    && |found| <= n + 1
    && (|found| <= n ==> forall d :: d in tried && d in Values(ms, bv) ==> d in found)
  }

  /** Adds `d` to the solutions if there is room for it and it is one. */
  method CheckCommon<M(==,!new)>(solver: Solver<M>, bv: SymBV<M>, n: nat, d: Digits, found: set<Digits>, ghost tried: set<Digits>)
    returns (solutions: set<Digits>)
    requires solver.Valid() && Finds(solver.Current(), bv, n, tried, found)
    modifies solver
    ensures solver.Valid() && solver.frames == old(solver.frames)
    ensures Finds(solver.Current(), bv, n, tried + {d}, solutions)
  {
    solutions := found;
    if |found| <= n {
      var b := BvsCanBeEqual(solver, bv, d);
      if b {
        solutions := found + {d};
      }
    }
  }

  method CheckPower<M(==,!new)>(solver: Solver<M>, bv: SymBV<M>, n: nat, k: nat, found: set<Digits>) returns (s: set<Digits>)
    requires solver.Valid() && k > 0 && Finds(solver.Current(), bv, n, CommonValues(bv.width, k - 1), found)
    modifies solver
    ensures solver.Valid() && solver.frames == old(solver.frames)
    ensures Finds(solver.Current(), bv, n, CommonValues(bv.width, k), s)
  {
    s := found;
    if bv.width > k {
      s := CheckCommon(solver, bv, n, ToDigits(Pow2(k), bv.width), s, CommonValues(bv.width, k - 1));
    }
  }

  method CheckExtremes<M(==,!new)>(solver: Solver<M>, bv: SymBV<M>, n: nat) returns (s: set<Digits>)
    requires solver.Valid()
    modifies solver
    ensures solver.Valid() && solver.frames == old(solver.frames)
    ensures Finds(solver.Current(), bv, n, CommonValues(bv.width, 0), s)
  {
    hide Values, Finds, ToDigits, Ones;
    var w := bv.width;
    s := {};
    ghost var tried: set<Digits> := {};
    NoValues(solver.Current(), bv, n);
    s := CheckCommon(solver, bv, n, ToDigits(0, w), s, tried);
    tried := tried + {ToDigits(0, w)};
    s := CheckCommon(solver, bv, n, ToDigits(1, w), s, tried);
    tried := tried + {ToDigits(1, w)};
    assert tried == {ToDigits(0, w), ToDigits(1, w)};
    if w > 1 {
      s := CheckCommon(solver, bv, n, Ones(w), s, tried);
    } else {
      assert CommonValues(w, 0) == tried;
    }
  }

  /** Finds every feasible common value as long as there is room. */
  method CheckForCommonSolutions<M(==,!new)>(solver: Solver<M>, bv: SymBV<M>, n: nat) returns (s: set<Digits>)
    requires solver.Valid()
    modifies solver
    ensures solver.Valid() && solver.frames == old(solver.frames)
    ensures Finds(solver.Current(), bv, n, CommonValues(bv.width, 12), s)
  {
    hide Finds, CommonValues;
    s := CheckExtremes(solver, bv, n);
    s := CheckPower(solver, bv, n, 1, s);
    s := CheckPower(solver, bv, n, 2, s);
    s := CheckPower(solver, bv, n, 3, s);
    s := CheckPower(solver, bv, n, 4, s);
    s := CheckPower(solver, bv, n, 5, s);
    s := CheckPower(solver, bv, n, 6, s);
    s := CheckPower(solver, bv, n, 7, s);
    s := CheckPower(solver, bv, n, 8, s);
    s := CheckPower(solver, bv, n, 9, s);
    s := CheckPower(solver, bv, n, 10, s);
    s := CheckPower(solver, bv, n, 11, s);
    s := CheckPower(solver, bv, n, 12, s);
  }

  lemma NoValues<M(!new)>(ms: set<M>, bv: SymBV<M>, n: nat)
    ensures Finds(ms, bv, n, {}, {})
  {
  }

  /** Constrains `bv` to differ from every member of `s`. */
  method AssertAvoids<M(==,!new)>(solver: Solver<M>, bv: SymBV<M>, s: set<Digits>)
    requires solver.Valid()
    modifies solver
    ensures solver.Valid()
    ensures solver.frames == old(solver.frames)[..|old(solver.frames)| - 1] + [Avoiding(old(solver.Current()), bv, s)]
  {
    ghost var ms := solver.Current();
    var todo := s;
    assert s - todo == {} && Avoiding(ms, bv, {}) == ms;
    while todo != {}
      invariant todo <= s
      invariant solver.Valid()
      invariant solver.frames == old(solver.frames)[..|old(solver.frames)| - 1] + [Avoiding(ms, bv, s - todo)]
      decreases |todo|
    {
      var d :| d in todo;
      solver.Assert(m => bv.digits(m) != d);
      todo := todo - {d};
      assert solver.Current() == Avoiding(ms, bv, s - todo);
    }
    assert s - todo == s;
  }

  /** The enumeration is exact, unless the solver knows the value without a query: that shortcut does
      not look at the constraints, so it is exact if and only if they are satisfiable.  At most `n + 1`
      models are generated. */
  method GetPossibleSolutions<M(==,!new)>(solver: Solver<M>, bv: SymBV<M>, n: nat)
    returns (ps: PossibleSolutions, ghost models: nat)
    requires solver.Valid() && ValidBV(bv)
    modifies solver
    ensures solver.Valid() && solver.frames == old(solver.frames)
    ensures Describes(ps, solver.Current(), bv, n) <==> n == 0 || bv.known.None? || solver.Current() != {}
    ensures n > 0 && bv.known.Some? ==> ps == Exactly({bv.known.value})
    ensures models <= n + 1
  {
    ghost var ms := solver.Current();
    if n == 0 {
      var feasible := solver.Sat();
      if feasible {
        var d := GetASolution(solver, bv);
        return AtLeast({d}), 1;
      }
      assert Values(ms, bv) == {};
      return Exactly({}), 0;
    }
    if bv.known.Some? {
      KnownValues(ms, bv);
      return Exactly({bv.known.value}), 0;
    }
    ps, models := EnumerateSolutions(solver, bv, n);
  }

  lemma KnownValues<M(!new)>(ms: set<M>, bv: SymBV<M>)
    requires ValidBV(bv) && bv.known.Some?
    ensures Values(ms, bv) == if ms == {} then {} else {bv.known.value}
  {
    if ms != {} {
      var m :| m in ms;
      assert bv.digits(m) in Values(ms, bv);
    }
  }

  lemma AvoidingNone<M(!new)>(ms: set<M>, bv: SymBV<M>, s: set<Digits>)
    requires Avoiding(ms, bv, s) == {} && s <= Values(ms, bv)
    ensures s == Values(ms, bv)
  {
    forall d | d in Values(ms, bv)
      ensures d in s
    {
      var m :| m in ms && bv.digits(m) == d;
      assert m !in Avoiding(ms, bv, s);
    }
  }

  /** Generates one more solution and excludes it. */
  method TakeSolution<M(==,!new)>(solver: Solver<M>, bv: SymBV<M>, ghost s: set<Digits>, ghost ms: set<M>) returns (d: Digits)
    requires solver.Valid() && solver.Current() == Avoiding(ms, bv, s) && solver.Current() != {}
    modifies solver
    ensures solver.Valid() && d !in s && d in Values(ms, bv)
    ensures solver.frames == old(solver.frames)[..|old(solver.frames)| - 1] + [Avoiding(ms, bv, s + {d})]
  {
    d := GetASolution(solver, bv);
    solver.Assert(m => bv.digits(m) != d);
    assert solver.Current() == Avoiding(ms, bv, s + {d});
  }

  method EnumerateSolutions<M(==,!new)>(solver: Solver<M>, bv: SymBV<M>, n: nat)
    returns (ps: PossibleSolutions, ghost models: nat)
    requires solver.Valid()
    modifies solver
    ensures solver.Valid() && solver.frames == old(solver.frames)
    ensures Describes(ps, solver.Current(), bv, n)
    ensures models <= n + 1
  {
    hide Values, Avoiding, Where;
    ghost var ms, frames := solver.Current(), solver.frames;
    models := 0;
    var s := CheckForCommonSolutions(solver, bv, n);
    if |s| > n {
      return AtLeast(s), 0;
    }
    solver.Push();
    AssertAvoids(solver, bv, s);
    var exhausted := false;
    while |s| <= n && !exhausted
      invariant solver.Valid() && solver.frames == frames + [Avoiding(ms, bv, s)]
      invariant s <= Values(ms, bv) && models <= |s| <= n + 1
      invariant exhausted ==> solver.Current() == {}
      decreases n + 1 - |s|, !exhausted
    {
      var feasible := solver.Sat();
      if feasible {
        var d := TakeSolution(solver, bv, s, ms);
        models := models + 1;
        s := s + {d};
      } else {
        exhausted := true;
      }
    }
    solver.Pop(1);
    assert solver.frames == frames;
    if |s| > n {
      ps := AtLeast(s);
    } else {
      AvoidingNone(ms, bv, s);
      ps := Exactly(s);
    }
  }
}
