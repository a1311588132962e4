/**
  The SMT solver as an exact oracle.

  The solver is used only through assertion frames and satisfiability queries.  A
  formula over fixed-width bit-vectors has finitely many models, so frame `i` is
  represented by the set of models that satisfy every assertion made in frames
  `0..i`.  The last frame is the current one.
 */
module SolverModel {

  class Solver<M(==,!new)> {
    var frames: seq<set<M>>

    ghost predicate Valid()
      reads this
    {
      |frames| > 0
    }

    /** The models of the current constraints. */
    function Current(): set<M>
      requires Valid()
      reads this
    {
      frames[|frames| - 1]
    }

    constructor (universe: set<M>)
      ensures Valid() && frames == [universe]
    {
      frames := [universe];
    }

    method Push()
      requires Valid()
      modifies this
      ensures Valid() && frames == old(frames) + [old(Current())]
    {
      frames := frames + [frames[|frames| - 1]];
    }

    method Pop(n: nat)
      requires Valid() && n < |frames|
      modifies this
      ensures Valid() && frames == old(frames)[..|old(frames)| - n]
    {
      frames := frames[..|frames| - n];
    }

    method Assert(p: M -> bool)
      requires Valid()
      modifies this
      ensures Valid() && frames == old(frames)[..|old(frames)| - 1] + [Where(old(Current()), p)]
    {
      var top := frames[|frames| - 1];
      frames := frames[..|frames| - 1] + [Where(top, p)];
    }

    method Sat() returns (b: bool)
      requires Valid()
      ensures b <==> Current() != {}
    {
      b := frames[|frames| - 1] != {};
    }

    /** A query under extra constraints, which are not kept. */
    method SatWithExtraConstraints(ps: seq<M -> bool>) returns (b: bool)
      requires Valid()
      modifies this
      ensures Valid() && frames == old(frames)
      ensures b <==> exists m :: m in Current() && forall i :: 0 <= i < |ps| ==> ps[i](m)
    {
      ghost var ms := Current();
      Push();
      for i := 0 to |ps|
        invariant Valid() && |frames| == |old(frames)| + 1 && frames[..|old(frames)|] == old(frames)
        invariant forall m :: m in Current() <==> m in ms && forall j :: 0 <= j < i ==> ps[j](m)
      {
        Assert(ps[i]);
      }
      b := Sat();
      assert b <==> exists m :: m in Current();
      Pop(1);
      assert Current() == ms;
    }

    method SatWithExtraConstraint(p: M -> bool) returns (b: bool)
      requires Valid()
      modifies this
      ensures Valid() && frames == old(frames)
      ensures b <==> exists m :: m in Current() && p(m)
    {
      b := SatWithExtraConstraints([p]);
      assert [p][0] == p;
    }
  }

  /** The models in `s` that satisfy `p`. */
  function Where<M(!new)>(s: set<M>, p: M -> bool): (r: set<M>)
    ensures forall m :: m in r <==> m in s && p(m)
    ensures r <= s
  {
    set m | m in s && p(m)
  }
}
