/**
  A path without models.

  An assumption is added to the constraints without asking whether they can still be met, so a path
  whose assumptions nothing meets is followed to its end and reported.
 */
module DeadEnds {
  import opened Wrappers
  import opened IR
  import opened SolverModel
  import opened Simulation
  import opened Following
  import opened Engine

  function DeadEnd(): Program {
    map["f" := Function([], true, [Block([Assume(Const(0))], Ret(None))])]
  }

  lemma DeadEndFacts(live: Liveness, rank: Rank)
    requires forall f, b :: live(f, b) == {}
    requires forall l :: rank(l) == if l.pos == 0 then 2 else 1
    ensures WellFormed(DeadEnd(), live) && Ranked(DeadEnd(), rank) && AtDeadEnd(DeadEnd(), Loc("f", 0, 0))
  {
  }

  /** Whatever the constraints were, the only path of this program is reported as a success, and none
      of the models is on it. */
  method DeadEndIsReported<M(==,!new)>(solver: Solver<M>, maxVersion: nat, squashUnsats: bool) returns (item: Option<Result<Value<M>, Error>>)
    requires solver.Valid()
    modifies solver
    ensures solver.Valid() && item == Some(Ok(None)) && solver.Current() == {}
  {
    ghost var live: Liveness := (f, b) => {};
    ghost var rank: Rank := (l: Loc) => if l.pos == 0 then 2 else 1;
    DeadEndFacts(live, rank);
    hide WellFormed, Ranked, AllFollow, Alive;
    var mgr := new ExecutionManager<M>(DeadEnd(), maxVersion, squashUnsats, solver, "f", [], m => map[], live, ByRank(rank));
    item := mgr.Next();
  }
}
