/** How the length of a memcpy, memmove or memset is chosen. */
module MemcpyLengths {
  import opened Wrappers
  import opened BinaryDigits
  import opened SolverModel
  import opened SolverUtils

  datatype Concretize =
    | Arbitrary
    | Minimum
    | Maximum
    | Prefer(val: nat, backup: Concretize)
    | KeepSymbolic

  datatype MemcpyLength = Concrete(length: nat) | Symbolic

  datatype LengthError = UnsatPath | TooLong

  /** The constants of the policy fit the width of the length argument. */
  predicate Fits(c: Concretize, width: nat) {
    c.Prefer? ==> c.val <= Largest(width) && Fits(c.backup, width)
  }

  predicate Within(v: nat, maxLength: Option<nat>) {
    maxLength.Some? ==> v <= maxLength.value
  }

  /** The maximum as a bit-vector of the width of the length argument, which cuts it off. */
  function Cut(maxLength: Option<nat>, width: nat): Option<nat> {
    if maxLength.None? then None else Some(maxLength.value % Pow2(width))
  }

  /** The maximum fits the width, or its cut allows every length, as it does itself. */
  predicate MaxFits(maxLength: Option<nat>, width: nat) {
    maxLength.Some? ==> maxLength.value <= Largest(width) || maxLength.value % Pow2(width) == Largest(width)
  }

  /** Exactly then cutting the maximum off does not change which lengths are acceptable. */
  lemma MaxFitsIff(maxLength: Option<nat>, width: nat)
    ensures MaxFits(maxLength, width) <==>
              forall v: nat :: v <= Largest(width) ==> (Within(v, maxLength) <==> Within(v, Cut(maxLength, width)))
  {
    if maxLength.Some? {
      Remainder(maxLength.value, Pow2(width));
      hide Pow2;
      if !MaxFits(maxLength, width) {
        assert Within(Largest(width), maxLength) && !Within(Largest(width), Cut(maxLength, width));
      }
    }
  }

  lemma Remainder(max: nat, p: nat)
    requires p > 0
    ensures 0 <= max % p < p && (max < p ==> max % p == max)
  {
  }

  /** The models whose length is acceptable. */
  ghost function Allowed<M(!new)>(ms: set<M>, len: SymBV<M>, maxLength: Option<nat>): set<M> {
    set m | m in ms && Within(Val(len, m), maxLength)
  }

  ghost function OfLength<M(!new)>(ms: set<M>, len: SymBV<M>, k: nat): set<M> {
    set m | m in ms && Val(len, m) == k
  }

  /** The value that the policy prescribes when several lengths are acceptable. */
  ghost predicate Follows<M(!new)>(c: Concretize, allowed: set<M>, len: SymBV<M>, r: MemcpyLength)
    decreases c
  {
    match c
    case Arbitrary => r.Concrete?
    case Minimum => r.Concrete? && IsMin(allowed, len, r.length)
    case Maximum => r.Concrete? && IsMax(allowed, len, r.length)
    case Prefer(v, backup) =>
      if OfLength(allowed, len, v) != {} then r == Concrete(v) else Follows(backup, allowed, len, r)
    case KeepSymbolic => r.Concrete? ==> forall m :: m in allowed ==> Val(len, m) == r.length
  }

  /** What a successful choice guarantees.  `ms` are the models before it, `current` those after it. */
  ghost predicate SoundChoice<M(!new)>(ms: set<M>, current: set<M>, len: SymBV<M>, maxLength: Option<nat>,
                                       c: Concretize, r: MemcpyLength)
  {
    var allowed := Allowed(ms, len, maxLength);
    && Follows(c, allowed, len, r)
    && match r
       case Concrete(k) => Within(k, maxLength) && current == OfLength(ms, len, k) && current != {}
       case Symbolic => current == allowed && current != {}
  }

  /** Only the top frame of the solver may change. */
  ghost predicate TopOnly<M>(now: seq<set<M>>, before: seq<set<M>>) {
    |now| == |before| > 0 && now[..|now| - 1] == before[..|before| - 1]
  }

  lemma OneLength<M(!new)>(ms: set<M>, len: SymBV<M>, d: Digits, maxLength: Option<nat>, c: Concretize)
    requires ms != {} && Values(ms, len) == {d}
    ensures OfLength(ms, len, Number(d)) == ms
    ensures Within(Number(d), maxLength) ==> SoundChoice(ms, ms, len, maxLength, c, Concrete(Number(d)))
    ensures !Within(Number(d), maxLength) ==> Allowed(ms, len, maxLength) == {}
  {
    forall m | m in ms
      ensures Val(len, m) == Number(d)
    {
      assert len.digits(m) in Values(ms, len);
    }
    if Within(Number(d), maxLength) {
      assert Allowed(ms, len, maxLength) == ms;
      OnlyChoice(ms, len, Number(d), c);
    }
  }

  lemma {:induction false} OnlyChoice<M(!new)>(ms: set<M>, len: SymBV<M>, k: nat, c: Concretize)
    requires ms != {} && forall m :: m in ms ==> Val(len, m) == k
    ensures Follows(c, ms, len, Concrete(k))
    decreases c
  {
    var m :| m in ms;
    if c.Prefer? {
      if OfLength(ms, len, c.val) == {} {
        OnlyChoice(ms, len, k, c.backup);
      }
    }
  }

  /** An acceptable length, if there is one, is chosen by the policy, and the path stays satisfiable.
      The only exits with an error are an unsatisfiable path and a path with no acceptable length.
      All this unless the maximum is cut off to a smaller one. */
  method GetMemcpyLength<M(==,!new)>(solver: Solver<M>, len: SymBV<M>, c: Concretize, maxLength: Option<nat>)
    returns (r: Result<MemcpyLength, LengthError>)
    requires solver.Valid() && ValidBV(len) && len.width <= 64 && Fits(c, len.width)
    modifies solver
    ensures solver.Valid() && TopOnly(solver.frames, old(solver.frames))
    ensures MaxFits(maxLength, len.width) && r.Ok? && old(solver.Current()) != {} ==>
              SoundChoice(old(solver.Current()), solver.Current(), len, maxLength, c, r.value)
    ensures MaxFits(maxLength, len.width) && r.Err? ==>
              Allowed(old(solver.Current()), len, maxLength) == {} && solver.frames == old(solver.frames)
    ensures r == Err(UnsatPath) ==> old(solver.Current()) == {}
    decreases c, 1
  {
    ghost var ms := solver.Current();
    var ps, models := GetPossibleSolutions(solver, len, 1);
    match ps
    case Exactly(v) =>
      if v == {} {
        ValuesOfSome(ms, len);
        return Err(UnsatPath);
      }
      var d :| d in v;
      var single := Number(d);
      if ms != {} {
        SingleValue(v, d);
        OneLength(ms, len, d, maxLength, c);
      }
      if maxLength.Some? && single > maxLength.value {
        return Err(TooLong);
      }
      return Ok(Concrete(single));
    case AtLeast(v) =>
      SomeValue(ms, len, v);
      r := ChooseAmong(solver, len, c, maxLength, v);
  }

  lemma ValuesOfSome<M(!new)>(ms: set<M>, len: SymBV<M>)
    ensures Values(ms, len) == {} ==> ms == {}
  {
    if ms != {} {
      var m :| m in ms;
      assert len.digits(m) in Values(ms, len);
    }
  }

  lemma SingleValue(v: set<Digits>, d: Digits)
    requires d in v && |v| <= 1
    ensures v == {d}
  {
    assert |v - {d}| == 0;
    assert v == {d} + (v - {d});
  }

  lemma SomeValue<M(!new)>(ms: set<M>, len: SymBV<M>, v: set<Digits>)
    requires v <= Values(ms, len) && |v| > 0
    ensures v != {} && ms != {}
  {
    assert v != {};
    var d :| d in v;
    assert d in Values(ms, len);
  }

  /** The branch for several possible lengths, some of which are `v`. */
  method ChooseAmong<M(==,!new)>(solver: Solver<M>, len: SymBV<M>, c: Concretize, maxLength: Option<nat>, v: set<Digits>)
    returns (r: Result<MemcpyLength, LengthError>)
    requires solver.Valid() && ValidBV(len) && len.width <= 64 && Fits(c, len.width)
    requires v != {} && v <= Values(solver.Current(), len)
    modifies solver
    ensures solver.Valid() && TopOnly(solver.frames, old(solver.frames))
    ensures r.Err? ==> r.error == TooLong
    ensures MaxFits(maxLength, len.width) ==>
              if r.Ok? then SoundChoice(old(solver.Current()), solver.Current(), len, maxLength, c, r.value)
              else Allowed(old(solver.Current()), len, maxLength) == {} && solver.frames == old(solver.frames)
    decreases c, 0
  {
    ghost var ms := solver.Current();
    if MaxFits(maxLength, len.width) {
      CutAllows(ms, len, maxLength);
    }
    if maxLength.Some? {
      var max := Cut(maxLength, len.width).value;
      var atMost := m => Val(len, m) <= max;
      var feasible := solver.SatWithExtraConstraint(atMost);
      if !feasible {
        forall m | m in ms
          ensures !Within(Val(len, m), Cut(maxLength, len.width))
        {
          assert !atMost(m);
        }
        assert Allowed(ms, len, Cut(maxLength, len.width)) == {};
        return Err(TooLong);
      }
      var some := solver.SatWithExtraConstraint(m => Val(len, m) > max);
      if some {
        solver.Assert(atMost);
      }
      assert solver.Current() == Allowed(ms, len, Cut(maxLength, len.width));
    } else {
      assert Allowed(ms, len, maxLength) == ms;
      ghost var d :| d in v;
    }
    r := ApplyPolicy(solver, len, c, maxLength, v, ms);
  }

  lemma CutAllows<M(!new)>(ms: set<M>, len: SymBV<M>, maxLength: Option<nat>)
    requires ValidBV(len) && MaxFits(maxLength, len.width)
    ensures Allowed(ms, len, Cut(maxLength, len.width)) == Allowed(ms, len, maxLength)
  {
    MaxFitsIff(maxLength, len.width);
    ValBounds(ms, len);
  }

  /** The choice itself, once the constraints allow only acceptable lengths. */
  method ApplyPolicy<M(==,!new)>(solver: Solver<M>, len: SymBV<M>, c: Concretize, maxLength: Option<nat>, v: set<Digits>,
                                 ghost ms: set<M>)
    returns (r: Result<MemcpyLength, LengthError>)
    requires solver.Valid() && ValidBV(len) && len.width <= 64 && Fits(c, len.width)
    requires v != {} && v <= Values(ms, len) && solver.Current() != {}
    requires MaxFits(maxLength, len.width) ==> solver.Current() == Allowed(ms, len, maxLength)
    modifies solver
    ensures solver.Valid() && TopOnly(solver.frames, old(solver.frames))
    ensures r.Err? ==> r.error == TooLong
    ensures MaxFits(maxLength, len.width) ==> r.Ok? && SoundChoice(ms, solver.Current(), len, maxLength, c, r.value)
    decreases c, 0, 0
  {
    hide Allowed, OfLength, Values, Where, IsMin, IsMax, MaxFits;
    ghost var allowed := solver.Current();
    var k: nat;
    match c {
      case Arbitrary =>
        k := PickArbitrary(solver, len, maxLength, v, ms);
      case Minimum =>
        var min := MinPossibleSolutionAsU64(solver, len);
        k := min.value;
        ExtremeFeasible(allowed, len, k);
      case Maximum =>
        var max := MaxPossibleSolutionAsU64(solver, len);
        k := max.value;
        ExtremeFeasible(allowed, len, k);
      case Prefer(val, backup) =>
        var digits := ToDigits(val, len.width);
        NumberOfDigits(val, len.width);
        OnlyDigits(allowed, len, digits);
        OfLengthSome(allowed, len, val);
        var can := BvsCanBeEqual(solver, len, digits);
        if can {
          k := val;
        } else {
          var satisfiable := solver.Sat();
          if !satisfiable {
            return Err(UnsatPath);
          }
          AllowedTwice(ms, len, maxLength);
          r := GetMemcpyLength(solver, len, backup, maxLength);
          if MaxFits(maxLength, len.width) {
            BackupChoice(ms, solver.Current(), len, maxLength, c, r.value);
          }
          return;
        }
      case KeepSymbolic =>
        return Ok(Symbolic);
    }
    if MaxFits(maxLength, len.width) {
      ConcreteChoice(ms, len, maxLength, c, k);
    }
    var isK := m => Val(len, m) == k;
    WhereIsLength(allowed, len, k, isK);
    solver.Assert(isK);
    return Ok(Concrete(k));
  }

  lemma WhereIsLength<M(!new)>(ms: set<M>, len: SymBV<M>, k: nat, p: M -> bool)
    requires forall m :: p(m) <==> Val(len, m) == k
    ensures Where(ms, p) == OfLength(ms, len, k)
  {
  }

  lemma OfLengthSome<M(!new)>(ms: set<M>, len: SymBV<M>, k: nat)
    ensures OfLength(ms, len, k) != {} <==> exists m :: m in ms && Val(len, m) == k
  {
    if exists m :: m in ms && Val(len, m) == k {
      var m :| m in ms && Val(len, m) == k;
      assert m in OfLength(ms, len, k);
    }
  }

  lemma AllowedTwice<M(!new)>(ms: set<M>, len: SymBV<M>, maxLength: Option<nat>)
    ensures Allowed(Allowed(ms, len, maxLength), len, maxLength) == Allowed(ms, len, maxLength)
  {
  }

  lemma ConcreteChoice<M(!new)>(ms: set<M>, len: SymBV<M>, maxLength: Option<nat>, c: Concretize, k: nat)
    requires OfLength(Allowed(ms, len, maxLength), len, k) != {}
    requires Follows(c, Allowed(ms, len, maxLength), len, Concrete(k))
    ensures SoundChoice(ms, OfLength(Allowed(ms, len, maxLength), len, k), len, maxLength, c, Concrete(k))
  {
    var m :| m in OfLength(Allowed(ms, len, maxLength), len, k);
    assert OfLength(Allowed(ms, len, maxLength), len, k) == OfLength(ms, len, k);
  }

  lemma ExtremeFeasible<M(!new)>(ms: set<M>, len: SymBV<M>, k: nat)
    requires IsMin(ms, len, k) || IsMax(ms, len, k)
    ensures OfLength(ms, len, k) != {}
  {
    var m :| m in ms && Val(len, m) == k;
    assert m in OfLength(ms, len, k);
  }

  lemma BackupChoice<M(!new)>(ms: set<M>, current: set<M>, len: SymBV<M>, maxLength: Option<nat>, c: Concretize, r: MemcpyLength)
    requires c.Prefer? && OfLength(Allowed(ms, len, maxLength), len, c.val) == {}
    requires SoundChoice(Allowed(ms, len, maxLength), current, len, maxLength, c.backup, r)
    ensures SoundChoice(ms, current, len, maxLength, c, r)
  {
    var allowed := Allowed(ms, len, maxLength);
    assert Allowed(allowed, len, maxLength) == allowed;
    if r.Concrete? {
      assert OfLength(allowed, len, r.length) == OfLength(ms, len, r.length);
    }
  }

  method PickArbitrary<M(==,!new)>(solver: Solver<M>, len: SymBV<M>, maxLength: Option<nat>, v: set<Digits>, ghost ms: set<M>)
    returns (k: nat)
    requires solver.Valid() && v != {} && v <= Values(ms, len) && solver.Current() != {}
    requires MaxFits(maxLength, len.width) ==> solver.Current() == Allowed(ms, len, maxLength)
    ensures MaxFits(maxLength, len.width) ==> OfLength(Allowed(ms, len, maxLength), len, k) != {}
  {
    var d;
    if maxLength.None? {
      d :| d in v;
      ghost var m :| m in ms && len.digits(m) == d;
      assert m in OfLength(Allowed(ms, len, maxLength), len, Number(d));
    } else {
      var small := set d | d in v && Number(d) <= maxLength.value;
      if small != {} {
        d :| d in small;
        ghost var m :| m in ms && len.digits(m) == d;
        assert m in OfLength(Allowed(ms, len, maxLength), len, Number(d));
      } else {
        d := GetASolution(solver, len);
        ghost var m :| m in solver.Current() && len.digits(m) == d;
        assert m in OfLength(solver.Current(), len, Number(d));
      }
    }
    k := Number(d);
  }
}
