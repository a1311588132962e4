/**
  The path-exploration engine: a depth-first search that follows one path by native
  recursion, saves a backtrack point wherever another path is feasible, and resumes
  pending points through the saved call stack.
 */
module Engine {
  import opened Wrappers
  import opened IR
  import opened Concrete
  import opened VarMapModel
  import opened Simulation
  import opened Following
  import opened Agenda
  import opened SolverModel

  /** What a path returns: nothing, or a symbolic value. */
  type Value<!M> = Option<BV<M>>

  /** `Ok(None)` means that no path is left. */
  type PathResult<!M> = Result<Option<Value<M>>, Error>

  ghost predicate EndsAt<M>(s: Setup<M>, cfg: Config<M>, v: Value<M>) {
    && Good(s, cfg)
    && AtReturn(s, cfg)
    && (TermAt(s.prog, cfg.loc).value.Some? ==> OperandKnown(cfg, TermAt(s.prog, cfg.loc).value.value))
    && v == ReturnValue(s, cfg)
  }

  /** What a reported error stands for: `Unsat` says that nothing is left, and not how runs end. */
  ghost function Blamed(e: Error): set<Error> {
    if e == Unsat then {} else {e}
  }

  /** What is known of the models in `whole` when a result comes back.  A value belongs either to
      the activation that was started with `from`, whose callers are still waiting, or to the
      top-level function.  The models that are neither current nor pending have runs that end in the
      error that comes back, or in one that is not reported. */
  ghost predicate Outcome<M(!new)>(s: Setup<M>, r: PathResult<M>, whole: set<M>, from: Option<Config<M>>,
                                   cfg: Config<M>, current: set<M>, ps: seq<set<M>>)
  {
    match r
    case Err(e) =>
      && Accounted(s, whole, {}, ps, Blamed(e))
      && (e == Unsat ==> ps == [])
      && (Alive(s) && e != Unsat ==> SomeFailsWith(s, whole, e))
    case Ok(None) => ps == [] && AllDropped(s, whole, {})
    case Ok(Some(v)) =>
      && EndsAt(s, cfg, v)
      && AllFollow(s, cfg, current)
      && Accounted(s, whole, current, ps, {})
      && (Alive(s) ==> current != {})
      && (cfg.stack == [] || (from.Some? && cfg.stack == from.value.stack && cfg.turned == from.value.turned))
  }

  lemma OutcomeWithin<M(!new)>(s: Setup<M>, r: PathResult<M>, w0: set<M>, c1: set<M>, ps1: seq<set<M>>,
                               from: Option<Config<M>>, cfg: Config<M>, current: set<M>, ps: seq<set<M>>)
    requires Accounted(s, w0, c1, ps1, {}) && Outcome(s, r, c1 + Union(ps1), from, cfg, current, ps)
    ensures Outcome(s, r, w0, from, cfg, current, ps)
  {
    hide AllDropped, SomeFailsWith, Alive;
    match r
    case Err(e) =>
      AccountedTransitive(s, w0, c1, ps1, {}, ps, Blamed(e));
      AccountedWithin(s, w0, c1, ps1, {});
      SomeFailGrows(s, c1 + Union(ps1), w0, e);
    case Ok(None) =>
      AccountedNone(s, c1 + Union(ps1));
      AccountedTransitive(s, w0, c1, ps1, {}, [], {});
      assert w0 - {} - Union<M>([]) == w0;
    case Ok(Some(v)) => AccountedTransitive(s, w0, c1, ps1, current, ps, {});
  }

  /** What a result says about the work that is left. */
  ghost predicate Progress<M(!new)>(s: Setup<M>, r: PathResult<M>, rem': nat, rem: nat, cfg': Config<M>, cfg: Config<M>) {
    && rem' <= rem
    && (r.Ok? && r.value.Some? && cfg'.stack != [] ==> rem' < rem || NoLonger(s, cfg', cfg))
  }

  /** The models each saved point stands for: those of the frame it was saved in that satisfy
      its constraint. */
  ghost function PendingSets<M(!new)>(frames: seq<set<M>>, base: nat, bps: seq<BacktrackPoint<M>>): (ps: seq<set<M>>)
    requires |frames| == base + 1 + |bps|
    ensures |ps| == |bps|
  {
    seq(|bps|, i requires 0 <= i < |bps| => Where(frames[base + i], bps[i].constraint))
  }

  lemma PendingTop<M(!new)>(frames: seq<set<M>>, base: nat, bps: seq<BacktrackPoint<M>>, top: set<M>)
    requires |frames| == base + 1 + |bps|
    ensures PendingSets(frames[..|frames| - 1] + [top], base, bps) == PendingSets(frames, base, bps)
  {
  }

  lemma PendingPushed<M(!new)>(frames: seq<set<M>>, base: nat, bps: seq<BacktrackPoint<M>>, bp: BacktrackPoint<M>)
    requires |frames| == base + 1 + |bps|
    ensures PendingSets(frames + [frames[|frames| - 1]], base, bps + [bp])
         == PendingSets(frames, base, bps) + [Where(frames[|frames| - 1], bp.constraint)]
  {
  }

  lemma PendingPopped<M(!new)>(frames: seq<set<M>>, base: nat, bps: seq<BacktrackPoint<M>>)
    requires |frames| == base + 1 + |bps| && bps != []
    ensures PendingSets(frames[..|frames| - 1], base, bps[..|bps| - 1])
         == PendingSets(frames, base, bps)[..|bps| - 1]
    ensures PendingSets(frames, base, bps)[|bps| - 1] == Where(frames[|frames| - 2], bps[|bps| - 1].constraint)
  {
  }

  /* ---------- The start of an exploration ---------- */

  predicate DistinctNames(xs: seq<Name>) {
    forall i, j :: 0 <= i < j < |xs| ==> xs[i] != xs[j]
  }

  /** The map that gives the name `xs[i]` the value `vs[i]`. */
  function Zip<V>(xs: seq<Name>, vs: seq<V>): (r: map<Name, V>)
    requires |xs| == |vs| && DistinctNames(xs)
    ensures r.Keys == set x | x in xs
    ensures forall i :: 0 <= i < |xs| ==> r[xs[i]] == vs[i]
  {
    map i | 0 <= i < |xs| :: xs[i] := vs[i]
  }

  /** The configuration in which the parameters are the given symbolic values. */
  function InitialConfig<M>(f: FuncName, xs: seq<Name>, params: seq<BV<M>>, mem: M -> Memory): Config<M>
    requires |xs| == |params| && DistinctNames(xs)
  {
    Config(Loc(f, 0, 0),
           VarMap(map x | x in xs :: (f, x) := Zip(xs, params)[x], map x | x in xs :: (f, x) := 0),
           mem, [], [], 0, None)
  }

  /** The concrete call that model `m` stands for. */
  function InitialState<M>(f: FuncName, xs: seq<Name>, params: seq<BV<M>>, mem: M -> Memory, m: M): State
    requires |xs| == |params| && DistinctNames(xs)
  {
    Concrete.Running(Frame(Loc(f, 0, 0), None, Zip(xs, ValuesAt(params, m))), [], mem(m),
                     map x | x in xs :: (f, x) := 0, [Loc(f, 0, 0)])
  }

  /** The exploration of `f` from the models `start`. */
  ghost function InitialSetup<M>(prog: Program, maxVersion: nat, live: Liveness, bound: Bound, start: set<M>,
                                 f: FuncName, params: seq<BV<M>>, mem: M -> Memory): Setup<M>
    requires f in prog && |params| == |prog[f].params| && DistinctNames(prog[f].params)
  {
    Setup(prog, maxVersion, live, bound, start, m => InitialState(f, prog[f].params, params, mem, m))
  }

  lemma InitialFollows<M(!new)>(s: Setup<M>, f: FuncName, params: seq<BV<M>>, mem: M -> Memory, ms: set<M>)
    requires WellFormed(s.prog, s.live) && f in s.prog && |params| == |s.prog[f].params|
    requires DistinctNames(s.prog[f].params)
    requires ms <= s.start && forall m :: s.init(m) == InitialState(f, s.prog[f].params, params, mem, m)
    ensures AllFollow(s, Recorded(InitialConfig(f, s.prog[f].params, params, mem)), ms)
  {
    InitialGood(s, f, params, mem);
    forall m | m in ms
      ensures Follows(s, Recorded(InitialConfig(f, s.prog[f].params, params, mem)), m)
    {
      InitialSim(s, f, params, mem, m);
      assert StateAt(s, m, 0) == s.init(m);
    }
  }

  lemma InitialGood<M(!new)>(s: Setup<M>, f: FuncName, params: seq<BV<M>>, mem: M -> Memory)
    requires WellFormed(s.prog, s.live) && f in s.prog && |params| == |s.prog[f].params|
    requires DistinctNames(s.prog[f].params)
    ensures Good(s, Recorded(InitialConfig(f, s.prog[f].params, params, mem)))
  {
    assert WellFormedFunction(s.prog, s.live, f);
    var cfg := Recorded(InitialConfig(f, s.prog[f].params, params, mem));
    assert DefinedAt(s.prog, s.live, cfg.loc) == s.live(f, 0);
    forall x | x in s.live(f, 0)
      ensures (f, x) in cfg.vm.active
    {
      var i :| 0 <= i < |s.prog[f].params| && s.prog[f].params[i] == x;
    }
  }

  lemma InitialSim<M(!new)>(s: Setup<M>, f: FuncName, params: seq<BV<M>>, mem: M -> Memory, m: M)
    requires WellFormed(s.prog, s.live) && f in s.prog && |params| == |s.prog[f].params|
    requires DistinctNames(s.prog[f].params)
    requires Good(s, Recorded(InitialConfig(f, s.prog[f].params, params, mem)))
    ensures Sim(s, Recorded(InitialConfig(f, s.prog[f].params, params, mem)), m,
                InitialState(f, s.prog[f].params, params, mem, m))
  {
    assert WellFormedFunction(s.prog, s.live, f);
    var cfg, c := Recorded(InitialConfig(f, s.prog[f].params, params, mem)),
                  InitialState(f, s.prog[f].params, params, mem, m);
    assert DefinedAt(s.prog, s.live, cfg.loc) == s.live(f, 0);
    InitialLocals(f, s.prog[f].params, params, mem, m);
  }

  lemma InitialLocals<M>(f: FuncName, xs: seq<Name>, params: seq<BV<M>>, mem: M -> Memory, m: M)
    requires |xs| == |params| && DistinctNames(xs)
    ensures SimLocals(InitialConfig(f, xs, params, mem).vm.active, f, m, InitialState(f, xs, params, mem, m).frame.locals)
    ensures forall x :: x in xs ==> x in InitialState(f, xs, params, mem, m).frame.locals
  {
    var active := InitialConfig(f, xs, params, mem).vm.active;
    var locals := InitialState(f, xs, params, mem, m).frame.locals;
    forall x | x in locals
      ensures (f, x) in active && active[(f, x)](m) == locals[x]
    {
      var i :| 0 <= i < |xs| && xs[i] == x;
      assert active[(f, x)] == Zip(xs, params)[xs[i]];
    }
  }

  /** A block that rules out every model and then returns. */
  predicate IsDeadEnd(b: Block) {
    |b.instrs| == 1 && b.instrs[0].Assume? && b.instrs[0].cond == Const(0) && b.term == Ret(None)
  }

  predicate AtDeadEnd(p: Program, l: Loc) {
    AtInstr(p, l) && IsDeadEnd(BlockAt(p, l))
  }

  predicate AfterDeadEnd(p: Program, l: Loc) {
    AtTerm(p, l) && IsDeadEnd(BlockAt(p, l))
  }

  lemma DeadEndEmpties<M(!new)>(s: Setup<M>, cfg: Config<M>, ms: set<M>)
    requires AllFollow(s, cfg, ms) && AtInstr(s.prog, cfg.loc) && !InstrAt(s.prog, cfg.loc).Call?
    ensures OperandsKnown(s.prog, cfg)
    ensures AtDeadEnd(s.prog, cfg.loc) ==>
              && Executed(s, cfg).Ok? && AfterDeadEnd(s.prog, Executed(s, cfg).value.loc)
              && forall m :: !Permits(s, cfg, m)
  {
    GoodOperandsKnown(s, cfg);
  }

  class ExecutionManager<M(==,!new)> {
    const prog: Program
    const maxVersion: nat
    const squashUnsats: bool
    const solver: Solver<M>
    /** The solver depth at the start of the exploration. */
    ghost const base: nat
    ghost const live: Liveness
    ghost const bound: Bound
    ghost const start: set<M>
    ghost const init: M -> State

    var curLoc: Loc
    var varmap: VarMap<M>
    var mem: M -> Memory
    var stack: seq<StackFrame<M>>
    var backtrackPoints: seq<BacktrackPoint<M>>
    var path: seq<Loc>
    var isFresh: bool
    /** The machine steps that the current path stands for. */
    ghost var steps: nat
    /** The steps that led to the branch where the latest revert turned. */
    ghost var turned: Option<nat>

    /** Prepares to explore `f` with the given parameter values, under whatever constraints the
        solver already holds. */
    constructor (prog: Program, maxVersion: nat, squashUnsats: bool, solver: Solver<M>, f: FuncName,
                 params: seq<BV<M>>, mem: M -> Memory, ghost live: Liveness, ghost bound: Bound)
      requires WellFormed(prog, live) && solver.Valid()
      requires f in prog && |params| == |prog[f].params| && DistinctNames(prog[f].params)
      requires Bounded(InitialSetup(prog, maxVersion, live, bound, solver.Current(), f, params, mem))
      ensures AboutToRun() && isFresh && stack == [] && backtrackPoints == []
      ensures this.solver == solver && curLoc == Loc(f, 0, 0) && this.squashUnsats == squashUnsats
      ensures S() == InitialSetup(prog, maxVersion, live, bound, solver.Current(), f, params, mem)
    {
      this.prog, this.maxVersion, this.squashUnsats, this.solver := prog, maxVersion, squashUnsats, solver;
      this.live, this.bound := live, bound;
      this.base, this.start := |solver.frames| - 1, solver.Current();
      this.init := InitialSetup(prog, maxVersion, live, bound, solver.Current(), f, params, mem).init;
      var cfg := InitialConfig(f, prog[f].params, params, mem);
      curLoc, varmap, this.mem, stack, path := cfg.loc, cfg.vm, mem, [], [];
      backtrackPoints, isFresh, steps, turned := [], true, 0, None;
      new;
      InitialFollows(S(), f, params, mem, Current());
    }

    ghost function S(): Setup<M> {
      Setup(prog, maxVersion, live, bound, start, init)
    }

    function Cfg(): Config<M>
      reads this
    {
      Config(curLoc, varmap, mem, stack, path, steps, turned)
    }

    /** Solver depth and saved points move together, and below the top, each frame is the one that a
        point was saved in. */
    ghost predicate Shape()
      reads this, solver
    {
      && solver.Valid()
      && |solver.frames| == base + 1 + |backtrackPoints|
      && (forall i :: 0 <= i < |backtrackPoints| ==> solver.frames[base + i] == backtrackPoints[i].models)
      && WellFormed(prog, live)
      && Bounded(S())
    }

    ghost function Pend(): seq<set<M>>
      requires Shape()
      reads this, solver
    {
      PendingSets(solver.frames, base, backtrackPoints)
    }

    ghost function Current(): set<M>
      requires Shape()
      reads this, solver
    {
      solver.Current()
    }

    /** The models of the current path and of all pending ones. */
    ghost function Whole(): set<M>
      requires Shape()
      reads this, solver
    {
      Current() + Union(Pend())
    }

    ghost function Remaining(): nat
      requires Shape()
      reads this, solver
    {
      Cost(Current(), Pend())
    }

    /** The invariant that every operation keeps, even one that ends in an error. */
    ghost predicate Inv()
      reads this, solver
    {
      Shape() && AgendaOk(S(), backtrackPoints, Pend(), path)
    }

    /** The state in which instructions execute. */
    ghost predicate Running()
      reads this, solver
    {
      Inv() && AllFollow(S(), Cfg(), Current()) && Current() !! Union(Pend()) && (Alive(S()) ==> Current() != {})
    }

    /** The state in which a block is entered or resumed, before the location is logged. */
    ghost predicate AboutToRun()
      reads this, solver
    {
      Inv() && AllFollow(S(), Recorded(Cfg()), Current()) && Current() !! Union(Pend()) && (Alive(S()) ==> Current() != {})
    }

    /* ---------- State operations ---------- */

    method AssignBvToName(x: Name, bv: BV<M>) returns (ok: bool)
      modifies this`varmap
      ensures ok <==> CanBind(old(Cfg()), maxVersion, x)
      ensures ok ==> Cfg() == SBind(old(Cfg()), x, bv)
      ensures !ok ==> varmap == Counted(old(varmap), (curLoc.func, x))
    {
      var k := (curLoc.func, x);
      var n := NextVersion(varmap.versions, k);
      varmap := varmap.(versions := varmap.versions[k := n]);
      if n > maxVersion {
        ok := false;
      } else {
        varmap := varmap.(active := varmap.active[k := bv]);
        ok := true;
      }
    }

    method RecordPathEntry()
      modifies this`path
      ensures Cfg() == Recorded(old(Cfg()))
    {
      path := path + [curLoc];
    }

    method PushCallsite()
      modifies this`stack
      ensures Cfg() == PushFrame(old(Cfg()))
    {
      stack := stack + [StackFrame(curLoc, RestoreInfo(varmap, curLoc.func), steps)];
    }

    /** Leaves the current function, restoring the caller's locals. */
    method PopCallsite() returns (callsite: Option<Loc>)
      requires stack != [] ==> RestorableFrame(varmap, stack[|stack| - 1])
      modifies this`stack, this`varmap
      ensures old(stack) == [] ==> callsite == None && Cfg() == old(Cfg())
      ensures old(stack) != [] ==>
                callsite == Some(old(stack)[|old(stack)| - 1].loc)
                && Cfg() == PopFrame(old(Cfg())).(loc := curLoc)
    {
      if stack == [] {
        callsite := None;
      } else {
        var fr := stack[|stack| - 1];
        stack := stack[..|stack| - 1];
        varmap := Restored(varmap, fr.loc.func, fr.restore);
        callsite := Some(fr.loc);
      }
    }

    method SaveBacktrackingPoint(b: BlockId, constraint: M -> bool)
      requires solver.Valid()
      modifies this`backtrackPoints, solver
      ensures solver.Valid() && solver.frames == old(solver.frames) + [old(solver.Current())]
      ensures backtrackPoints == old(backtrackPoints) + [Saved(Cfg(), b, constraint, old(solver.Current()))]
    {
      ghost var models := solver.Current();
      solver.Push();
      backtrackPoints := backtrackPoints
        + [BacktrackPoint(Loc(curLoc.func, b, 0), stack, constraint, varmap, mem, |path|, Cfg(), models)];
    }

    method TakeOver(bp: BacktrackPoint<M>)
      requires bp.pathLen <= |path|
      modifies this`curLoc, this`steps, this`varmap, this`mem, this`stack, this`turned, this`path
      ensures Cfg() == Reverted(bp, old(path))
    {
      varmap := bp.varmap;
      mem := bp.mem;
      stack := bp.stack;
      path := path[..bp.pathLen];
      curLoc := bp.loc;
      steps, turned := bp.held.steps + 1, Some(bp.held.steps);
    }

    /** Pops the latest point and takes over what it holds. */
    method PopPoint()
      requires Shape() && backtrackPoints != [] && backtrackPoints[|backtrackPoints| - 1].pathLen <= |path|
      modifies this`curLoc, this`steps, this`varmap, this`mem, this`stack, this`turned, this`backtrackPoints, this`path, solver
      ensures Shape()
      ensures var n := |old(backtrackPoints)| - 1;
              && backtrackPoints == old(backtrackPoints)[..n]
              && Cfg() == Reverted(old(backtrackPoints)[n], old(path))
              && Current() == Where(old(backtrackPoints)[n].models, old(backtrackPoints)[n].constraint)
              && Current() == old(Pend())[n]
              && Pend() == old(Pend())[..n]
    {
      hide WellFormed, Bounded, PendingSets, Where, Reverted;
      ghost var n, frames, bps := |backtrackPoints| - 1, solver.frames, backtrackPoints;
      var bp := backtrackPoints[|backtrackPoints| - 1];
      backtrackPoints := backtrackPoints[..|backtrackPoints| - 1];
      solver.Pop(1);
      PendingPopped(frames, base, bps);
      TakeOver(bp);
      PendingTop(solver.frames, base, backtrackPoints, Where(Current(), bp.constraint));
      solver.Assert(bp.constraint);
    }

    /** Whatever happened since, the constraints, variable map, memory, call stack and path that were
        held when the latest point was saved come back, plus the constraint of that point. */
    method RevertToBacktrackingPoint() returns (ok: bool)
      requires Inv()
      modifies this`curLoc, this`steps, this`varmap, this`mem, this`stack, this`turned, this`backtrackPoints, this`path, solver
      ensures ok <==> old(backtrackPoints) != []
      ensures !ok ==> Inv() && Cfg() == old(Cfg()) && backtrackPoints == [] && solver.frames == old(solver.frames)
      ensures ok ==>
                var n := |old(backtrackPoints)| - 1;
                && AboutToRun()
                && backtrackPoints == old(backtrackPoints)[..n]
                && var bp := old(backtrackPoints)[n];
                && Cfg() == Resumed(bp.held, bp.loc.block) && TurnedInside(Cfg())
                && Current() == Where(bp.models, bp.constraint)
                && Current() == old(Pend())[n]
                && Pend() == old(Pend())[..n]
                && Whole() == Union(old(Pend()))
                && Remaining() < PendingCost(old(Pend()))
    {
      hide AgendaOk, AllFollow, Apart, Union, PendingCost, Cost, WellFormed, Bounded, Alive, PendingSets, Recorded, Keeps,
           Resumed, TurnedInside;
      if backtrackPoints == [] {
        return false;
      }
      ghost var n := |backtrackPoints| - 1;
      AgendaRevert(S(), backtrackPoints, Pend(), path);
      RevertRestoresSave(backtrackPoints[n], path);
      PopPoint();
      ok := true;
    }

    /* ---------- Straight-line instructions ---------- */

    /** Executes the instruction at `curLoc`, which is not a call, and moves past it. */
    method ExecuteInstr() returns (e: Option<Error>)
      requires Shape() && AtInstr(prog, curLoc) && !InstrAt(prog, curLoc).Call? && OperandsKnown(prog, Cfg())
      modifies this`curLoc, this`steps, this`varmap, this`mem, solver
      ensures Shape() && Pend() == old(Pend())
      ensures e.None? ==>
                && Executed(S(), old(Cfg())) == Ok(Cfg())
                && (forall m :: m in Current() <==> m in old(Current()) && Permits(S(), old(Cfg()), m))
      ensures e.Some? ==> Executed(S(), old(Cfg())) == Err(e.value) && Current() == old(Current())
    {
      hide PendingSets, WellFormed, Bounded;
      var i := InstrAt(prog, curLoc);
      if i.Store? {
        mem := Stored(Cfg(), SEval(Cfg(), i.addr), SEval(Cfg(), i.val));
      } else if i.Assume? {
        var bv := SEval(Cfg(), i.cond);
        PendingTop(solver.frames, base, backtrackPoints, Where(Current(), m => bv(m) != 0));
        solver.Assert(m => bv(m) != 0);
      } else {
        var v := ResultOf(prog, Cfg());
        if v.Err? {
          return Some(v.error);
        }
        var ok := AssignBvToName(i.dest, v.value);
        if !ok {
          return Some(LoopBoundExceeded);
        }
      }
      curLoc, steps := Inc(curLoc), steps + 1;
      e := None;
    }

    /** All current models take the step together, except those that violate an assumption. */
    method SymexInstr() returns (e: Option<Error>)
      requires Running() && AtInstr(prog, curLoc) && !InstrAt(prog, curLoc).Call?
      modifies this`curLoc, this`steps, this`varmap, this`mem, solver
      ensures Inv() && Pend() == old(Pend())
      ensures OperandsKnown(prog, old(Cfg()))
      ensures e.None? ==>
                && Running()
                && Executed(S(), old(Cfg())) == Ok(Cfg()) && curLoc == Inc(old(curLoc))
                && (forall m :: m in Current() <==> m in old(Current()) && Permits(S(), old(Cfg()), m))
                && Accounted(S(), old(Whole()), Current(), Pend(), {})
                && Remaining() <= old(Remaining())
                && Shorter(S(), Cfg(), old(Cfg()))
      ensures e.Some? ==>
                && Executed(S(), old(Cfg())) == Err(e.value)
                && e.value != Unsat && Current() == old(Current())
                && AllFailWith(S(), Current(), e.value)
    {
      hide AgendaOk, AllDropped, Shorter, Accounted, PendingSets, WellFormed, Bounded, Alive, Good, Follows, Cost, Union,
           OperandsKnown, Executed, Permits, AllFailWith;
      ghost var cfg, ms, s := Cfg(), Current(), S();
      GoodOperandsKnown(s, cfg);
      ExecutedAll(s, cfg, ms);
      FollowInTime(s, cfg, ms);
      ExecutedShorter(s, cfg);
      ExecutedErrors(s, cfg);
      ghost var kept, dropped := set m | m in ms && Permits(s, cfg, m), set m | m in ms && !Permits(s, cfg, m);
      e := ExecuteInstr();
      if e.None? {
        assert Current() == kept && ms - kept == dropped;
        SomeFail(s, dropped, dropped, AssumptionViolated);
        NothingDropped(s, cfg, ms, dropped);
        AccountedSelf(s, ms, Pend());
        Narrow(s, old(Whole()), ms, Pend(), kept);
      }
    }

    /* ---------- Calls ---------- */

    method AssignParameters(xs: seq<Name>, bvs: seq<BV<M>>) returns (ok: bool)
      requires |xs| == |bvs|
      modifies this`varmap
      ensures ok <==> SBindAll(old(Cfg()), maxVersion, xs, bvs).Some?
      ensures ok ==> SBindAll(old(Cfg()), maxVersion, xs, bvs) == Some(Cfg())
    {
      var i := 0;
      while i < |xs|
        invariant 0 <= i <= |xs|
        invariant SBindAll(old(Cfg()), maxVersion, xs, bvs) == SBindAll(Cfg(), maxVersion, xs[i..], bvs[i..])
      {
        assert xs[i..][1..] == xs[i + 1..] && bvs[i..][1..] == bvs[i + 1..];
        ok := AssignBvToName(xs[i], bvs[i]);
        if !ok {
          return;
        }
        i := i + 1;
      }
      ok := true;
    }

    /** Looks up the callee, saves the caller and assigns the parameters in the callee. */
    method EnterCallee() returns (e: Option<Error>)
      requires AtInstr(prog, curLoc) && InstrAt(prog, curLoc).Call? && OperandsKnown(prog, Cfg())
      modifies this`curLoc, this`steps, this`varmap, this`stack
      ensures e.None? ==> Entered(S(), old(Cfg())) == Ok(Cfg())
      ensures e.Some? ==> Entered(S(), old(Cfg())) == Err(e.value)
    {
      hide SBindAll, RestoreInfo;
      var call := InstrAt(prog, curLoc);
      if call.callee !in prog {
        return Some(FunctionNotFound);
      } else if |call.args| != |prog[call.callee].params| {
        return Some(MalformedInstruction);
      }
      var args := SEvalAll(Cfg(), call.args);
      PushCallsite();
      curLoc, steps := Loc(call.callee, 0, 0), steps + 1;
      var ok := AssignParameters(prog[call.callee].params, args);
      e := if ok then None else Some(LoopBoundExceeded);
    }

    /** `Ok(None)`: the call has finished and execution continues after it.  `Ok(Some(v))`: the search
        had to backtrack inside the call and went on to the end of the top-level function. */
    method SymexCall() returns (r: PathResult<M>)
      requires Running() && AtInstr(prog, curLoc) && InstrAt(prog, curLoc).Call?
      modifies this`curLoc, this`steps, this`varmap, this`mem, this`stack, this`turned, this`backtrackPoints, this`path, solver
      ensures Inv() && Remaining() <= old(Remaining())
      ensures r.Err? ==> Accounted(S(), old(Whole()), {}, Pend(), Blamed(r.error))
      ensures r == Err(Unsat) ==> Pend() == []
      ensures r.Err? && Alive(S()) && r.error != Unsat ==> SomeFailsWith(S(), old(Whole()), r.error)
      ensures r.Ok? && r.value.Some? ==>
                stack == [] && Outcome(S(), r, old(Whole()), None, Cfg(), Current(), Pend())
      ensures r == Ok(None) ==>
                && Running()
                && Accounted(S(), old(Whole()), Current(), Pend(), {})
                && curLoc == Inc(old(curLoc)) && stack == old(stack) && turned == old(turned)
                && (Remaining() < old(Remaining()) || Shorter(S(), Cfg(), old(Cfg())))
      decreases Remaining(), Slots(S(), Cfg()), Weight(S(), Cfg()), 3
    {
      hide AgendaOk, AllDropped, PendingSets, WellFormed, Bounded, Alive, Good, Follows, Cost, Union,
           OperandsKnown, Slots, Weight, AllFollow, Entered, AllFailWith, SomeFailsWith;
      ghost var cfg, s, whole := Cfg(), S(), Whole();
      FollowGood(s, cfg, Current());
      GoodOperandsKnown(s, cfg);
      EnteredAll(s, cfg, Current());
      FollowInTime(s, cfg, Current());
      EnteredShorter(s, cfg);
      AccountedSelf(s, Current(), Pend());
      EnteredFrame(s, cfg);
      var savedLoc := curLoc;
      var e := EnterCallee();
      if e.Some? {
        SomeFail(s, Current(), whole, e.value);
        DropCurrent(s, whole, Current(), Pend(), {e.value});
        return Err(e.value);
      }
      r := SymexFromCurLocThroughEndOfFunction();
      if r.Ok? && r.value.None? {
        AccountedNone(s, whole);
        r := Err(Unsat);
      } else if r.Ok? && stack != [] {
        assert stack[|stack| - 1].loc == savedLoc && stack[..|stack| - 1] == cfg.stack;
        r := FinishCall(r.value.value, whole);
      }
    }

    /** The callee of a native call has returned: continue in the caller, unless the loop bound is hit. */
    method FinishCall(v: Value<M>, ghost whole: set<M>) returns (r: PathResult<M>)
      requires Running() && EndsAt(S(), Cfg(), v) && stack != [] && Accounted(S(), whole, Current(), Pend(), {})
      modifies this`curLoc, this`steps, this`varmap, this`stack, this`path
      ensures Inv() && Current() == old(Current()) && Pend() == old(Pend())
      ensures r == Ok(None) || r == Err(LoopBoundExceeded)
      ensures r.Err? ==> Accounted(S(), whole, {}, Pend(), {r.error}) && (Alive(S()) ==> SomeFailsWith(S(), whole, r.error))
      ensures r.Ok? ==>
                && Running()
                && curLoc == Inc(old(stack)[|old(stack)| - 1].loc) && stack == old(stack)[..|old(stack)| - 1]
                && Shorter(S(), Cfg(), old(Cfg()))
    {
      hide AgendaOk, AllDropped, PendingSets, WellFormed, Bounded, Alive, Good, Follows, Union,
           Slots, Weight, AllFollow, Accounted, AllFailWith, SomeFailsWith, NativeReturn;
      ghost var ret, ms, ps, s := Cfg(), Current(), Pend(), S();
      FollowInTime(s, ret, ms);
      AccountedWithin(s, whole, ms, ps, {});
      var ok := ReturnNatively(v);
      if ok {
        AfterReturnShorter(s, ret);
        AfterReturnPlace(s, ret);
        r := Ok(None);
      } else {
        SomeFail(s, ms, whole, LoopBoundExceeded);
        DropCurrent(s, whole, ms, ps, {LoopBoundExceeded});
        r := Err(LoopBoundExceeded);
      }
    }

    /** The top of the stack is a call that can be finished with result `v`. */
    ghost predicate CallFinishable(v: Value<M>)
      reads this
    {
      && stack != []
      && var fr := stack[|stack| - 1];
      && RestorableFrame(varmap, fr)
      && AtInstr(prog, fr.loc) && InstrAt(prog, fr.loc).Call? && InstrAt(prog, fr.loc).res.Some? == v.Some?
    }

    method UnwindNatively(v: Value<M>) returns (ok: bool)
      requires CallFinishable(v)
      modifies this`curLoc, this`steps, this`varmap, this`stack, this`path
      ensures path == old(path) + [Inc(old(stack)[|old(stack)| - 1].loc)]
      ensures var res := InstrAt(prog, old(stack)[|old(stack)| - 1].loc).res;
              && (ok <==> (res.Some? ==> CanBind(PopFrame(old(Cfg())), maxVersion, res.value)))
              && (ok ==> Cfg() == NativeReturn(old(Cfg()), res, v))
    {
      hide Restored;
      var callsite := PopCallsite();
      var call := InstrAt(prog, callsite.value);
      curLoc, steps := Inc(callsite.value), steps + 1;
      RecordPathEntry();
      ok := true;
      if v.Some? {
        ok := AssignBvToName(call.res.value, v.value);
      }
    }

    /** Native recursion is back at a callee's return: finish the call instruction. */
    method ReturnNatively(v: Value<M>) returns (ok: bool)
      requires Running() && EndsAt(S(), Cfg(), v) && stack != []
      modifies this`curLoc, this`steps, this`varmap, this`stack, this`path
      ensures Inv() && Current() == old(Current()) && Pend() == old(Pend())
      ensures ok <==> CanReturn(S(), old(Cfg()))
      ensures ok ==> Running() && Cfg() == AfterReturn(S(), old(Cfg()))
      ensures !ok ==> AllFailWith(S(), Current(), LoopBoundExceeded)
    {
      hide AgendaOk, AllFailWith, PendingSets, WellFormed, Bounded, Alive, Good, Follows, AllFollow, Union, Restored,
           NativeReturn, ReturnValue, RestorableFrame, OperandKnown;
      ghost var cfg, s := Cfg(), S();
      GoodReturn(s, cfg);
      AfterReturnAll(s, cfg, Current());
      AgendaPathGrows(s, backtrackPoints, Pend(), path, path + [Inc(stack[|stack| - 1].loc)]);
      ok := UnwindNatively(v);
    }

    /* ---------- Following a path ---------- */

    /** One iteration over the instructions of a block.  A result comes back if the path ends here, or if
        a call went on to the end of the top-level function. */
    method SymexNextInstr(ghost whole: set<M>) returns (r: Option<PathResult<M>>)
      requires Running() && AtInstr(prog, curLoc) && Accounted(S(), whole, Current(), Pend(), {})
      modifies this`curLoc, this`steps, this`varmap, this`mem, this`stack, this`turned, this`backtrackPoints, this`path, solver
      ensures Inv() && Remaining() <= old(Remaining())
      ensures r.Some? ==> Outcome(S(), r.value, whole, None, Cfg(), Current(), Pend()) && !old(AtDeadEnd(prog, curLoc))
      ensures squashUnsats ==> r != Some(Err(Unsat))
      ensures !squashUnsats ==> r != Some(Ok(None))
      ensures r.None? ==>
                && Running() && Accounted(S(), whole, Current(), Pend(), {})
                && curLoc == Inc(old(curLoc)) && stack == old(stack) && turned == old(turned)
                && (Remaining() < old(Remaining()) || Shorter(S(), Cfg(), old(Cfg())))
                && (old(AtDeadEnd(prog, curLoc)) ==> AfterDeadEnd(prog, curLoc) && Current() == {})
      decreases Remaining(), Slots(S(), Cfg()), Weight(S(), Cfg()), 4
    {
      hide AgendaOk, AllDropped, PendingSets, WellFormed, Bounded, Alive, Good, Follows, Cost, Union,
           OperandsKnown, AllFollow, Accounted, Slots, Weight, Apart, PendingCost, Executed, Permits, SomeFailsWith, AllFailWith;
      ghost var s, ms, ps := S(), Current(), Pend();
      AccountedWithin(s, whole, ms, ps, {});
      if InstrAt(prog, curLoc).Call? {
        var called := SymexCall();
        if called.Err? {
          AccountedTransitive(s, whole, ms, ps, {}, Pend(), Blamed(called.error));
          SomeFailGrows(s, ms + Union(ps), whole, called.error);
          if called.error == Unsat && squashUnsats {
            CostDropsCurrent(Current(), Pend());
            called := BacktrackAndContinue();
            assert {} + Union([]) == Union<M>([]);
            OutcomeWithin(s, called, whole, {}, [], None, Cfg(), Current(), Pend());
          }
          return Some(called);
        } else if called.value.Some? {
          OutcomeWithin(s, called, whole, ms, ps, None, Cfg(), Current(), Pend());
          return Some(called);
        }
      } else {
        DeadEndEmpties(s, Cfg(), ms);
        var e := SymexInstr();
        if e.Some? {
          SomeFail(s, ms, whole, e.value);
          DropCurrent(s, whole, ms, ps, {e.value});
          return Some(Err(e.value));
        }
      }
      AccountedTransitive(s, whole, ms, ps, Current(), Pend(), {});
      r := None;
    }

    /** Executes from `curLoc` to the end of the current function, following calls. */
    method SymexFromCurLocThroughEndOfFunction() returns (r: PathResult<M>)
      requires AboutToRun()
      modifies this`curLoc, this`steps, this`varmap, this`mem, this`stack, this`turned, this`backtrackPoints, this`path, solver
      ensures Inv()
      ensures Outcome(S(), r, old(Whole()), Some(old(Cfg())), Cfg(), Current(), Pend())
      ensures squashUnsats ==> r != Err(Unsat)
      ensures Progress(S(), r, Remaining(), old(Remaining()), Cfg(), old(Cfg()))
      ensures old(AtDeadEnd(prog, curLoc)) ==> r == Ok(Some(None)) && Current() == {}
      ensures old(AtReturn(S(), Cfg())) ==>
                r.Ok? && r.value.Some? && Cfg() == Recorded(old(Cfg())) && Current() == old(Current()) && Pend() == old(Pend())
      decreases Remaining(), Slots(S(), Cfg()), Weight(S(), Cfg()), 5
    {
      hide AgendaOk, AllDropped, PendingSets, WellFormed, Bounded, Alive, Good, Follows, Cost, Union,
           AllFollow, Accounted, Slots, Weight, Apart, PendingCost, SomeFailsWith, EndsAt;
      ghost var cfg0, s, whole, dead, ret := Cfg(), S(), Whole(), AtDeadEnd(prog, curLoc), AtReturn(S(), Cfg());
      AgendaPathGrows(s, backtrackPoints, Pend(), path, path + [curLoc]);
      AccountedSelf(s, Current(), Pend());
      FollowGood(s, Recorded(cfg0), Current());
      RecordedSame(s, cfg0);
      RecordPathEntry();
      GoodValid(s, Cfg(), Current());
      while curLoc.pos < |BlockAt(prog, curLoc).instrs|
        invariant Running() && ValidLoc(prog, curLoc) && stack == cfg0.stack && turned == cfg0.turned
        invariant Accounted(s, whole, Current(), Pend(), {})
        invariant dead ==> if curLoc.pos == 0 then AtDeadEnd(prog, curLoc) else AfterDeadEnd(prog, curLoc) && Current() == {}
        invariant ret ==> AtTerm(prog, curLoc) && Cfg() == Recorded(cfg0) && Current() == old(Current()) && Pend() == old(Pend())
        invariant Remaining() <= old(Remaining())
        invariant Remaining() < old(Remaining()) || NoLonger(s, Cfg(), cfg0)
        decreases |BlockAt(prog, curLoc).instrs| - curLoc.pos
      {
        var done := SymexNextInstr(whole);
        if done.Some? {
          return done.value;
        }
      }
      ghost var ms, ps := Current(), Pend();
      r := SymexTerminator();
      OutcomeWithin(s, r, whole, ms, ps, Some(cfg0), Cfg(), Current(), Pend());
    }

    method SymexTerminator() returns (r: PathResult<M>)
      requires Running() && AtTerm(prog, curLoc)
      modifies this`curLoc, this`steps, this`varmap, this`mem, this`stack, this`turned, this`backtrackPoints, this`path, solver
      ensures Inv()
      ensures Outcome(S(), r, old(Whole()), Some(old(Cfg())), Cfg(), Current(), Pend())
      ensures squashUnsats ==> r != Err(Unsat)
      ensures Progress(S(), r, Remaining(), old(Remaining()), Cfg(), old(Cfg()))
      ensures old(AfterDeadEnd(prog, curLoc)) ==> r == Ok(Some(None))
      ensures old(AtReturn(S(), Cfg())) ==>
                r.Ok? && r.value.Some? && Cfg() == old(Cfg()) && Current() == old(Current()) && Pend() == old(Pend())
      decreases Remaining(), Slots(S(), Cfg()), Weight(S(), Cfg()), 3
    {
      hide AgendaOk, AllDropped, PendingSets, WellFormed, Bounded, Alive, Good, Follows, Cost, Union,
           AllFollow, Accounted;
      ghost var cfg, s := Cfg(), S();
      FollowGood(s, cfg, Current());
      AccountedSelf(s, Current(), Pend());
      var term := TermAt(prog, curLoc);
      match term
      case Ret(op) =>
        GoodReturn(s, cfg);
        r := Ok(Some(if op.None? then None else Some(SEval(Cfg(), op.value))));
      case Br(t) =>
        EdgesOk(s, cfg);
        JumpAll(s, cfg, Current(), t);
        FollowInTime(s, cfg, Current());
        JumpShorter(s, cfg, t);
        curLoc, steps := Loc(curLoc.func, t, 0), steps + 1;
        r := SymexFromCurLocThroughEndOfFunction();
      case CondBr(_, _, _) =>
        r := SymexCondBr();
      case Switch(_, _, _) =>
        r := SymexSwitch();
      case Unreachable =>
        UnreachableAll(s, cfg, Current());
        SomeFail(s, Current(), Whole(), UnreachableInstruction);
        DropCurrent(s, Whole(), Current(), Pend(), {UnreachableInstruction});
        r := Err(UnreachableInstruction);
    }

    /** Saves the current models that satisfy `constraint` for later, about to enter block `b`. */
    method SavePending(b: BlockId, constraint: M -> bool)
      requires Inv()
      requires var saved := Where(Current(), constraint);
               && saved != {} && saved !! Union(Pend())
               && AllFollow(S(), Recorded(SJump(Cfg(), b)), saved) && AllOvertaken(S(), saved, steps)
      modifies this`backtrackPoints, solver
      ensures Inv() && Current() == old(Current())
      ensures Pend() == old(Pend()) + [Where(Current(), constraint)]
    {
      hide AgendaOk, PendingSets, WellFormed, Bounded, Alive, Union, AllFollow;
      PendingPushed(solver.frames, base, backtrackPoints, Saved(Cfg(), b, constraint, Current()));
      AgendaSave(S(), backtrackPoints, Pend(), Cfg(), b, constraint, Current(), Where(Current(), constraint));
      SaveBacktrackingPoint(b, constraint);
    }

    /** Constrains the path to `constraint` and follows it into block `b`. */
    method TakeBranch(b: BlockId, constraint: M -> bool) returns (r: PathResult<M>)
      requires Inv()
      requires var kept := Where(Current(), constraint);
               AllFollow(S(), Recorded(SJump(Cfg(), b)), kept) && kept !! Union(Pend()) && (Alive(S()) ==> kept != {})
      requires Shorter(S(), SJump(Cfg(), b), Cfg())
      modifies this`curLoc, this`steps, this`varmap, this`mem, this`stack, this`turned, this`backtrackPoints, this`path, solver
      ensures Inv()
      ensures Outcome(S(), r, old(Where(Current(), constraint) + Union(Pend())), Some(old(Cfg())), Cfg(), Current(), Pend())
      ensures squashUnsats ==> r != Err(Unsat)
      ensures Progress(S(), r, Remaining(), old(Cost(Where(Current(), constraint), Pend())), Cfg(), old(Cfg()))
      decreases Cost(Where(Current(), constraint), Pend()), Slots(S(), Cfg()), Weight(S(), Cfg()), 0
    {
      hide AgendaOk, AllDropped, PendingSets, WellFormed, Bounded, Alive, Good, Follows, Cost, Union, Apart,
           AllFollow, Accounted, Slots, Weight;
      PendingTop(solver.frames, base, backtrackPoints, Where(Current(), constraint));
      solver.Assert(constraint);
      curLoc, steps := Loc(curLoc.func, b, 0), steps + 1;
      r := SymexFromCurLocThroughEndOfFunction();
    }

    /** Explores the true branch first; if both are feasible, the false one is saved. */
    method SymexCondBr() returns (r: PathResult<M>)
      requires Running() && AtTerm(prog, curLoc) && TermAt(prog, curLoc).CondBr?
      modifies this`curLoc, this`steps, this`varmap, this`mem, this`stack, this`turned, this`backtrackPoints, this`path, solver
      ensures Inv()
      ensures Outcome(S(), r, old(Whole()), Some(old(Cfg())), Cfg(), Current(), Pend())
      ensures squashUnsats ==> r != Err(Unsat)
      ensures Progress(S(), r, Remaining(), old(Remaining()), Cfg(), old(Cfg()))
      decreases Remaining(), Slots(S(), Cfg()), Weight(S(), Cfg()), 1
    {
      hide AgendaOk, AllDropped, PendingSets, WellFormed, Bounded, Alive, Good, Follows, Cost, Union, Apart,
           AllFollow, Accounted, Slots, Weight;
      ghost var cfg, s, ms, ps := Cfg(), S(), Current(), Pend();
      FollowGood(s, cfg, ms);
      GoodTermKnown(s, cfg);
      var term := TermAt(prog, curLoc);
      var cond := SEval(Cfg(), term.cond);
      var isTrue, isFalse := m => cond(m) != 0, m => cond(m) == 0;
      ghost var ts, fs := Where(ms, isTrue), Where(ms, isFalse);
      BranchesFollow(s, cfg, ms, ts, fs);
      FollowInTime(s, cfg, ms);
      JumpShorter(s, cfg, term.trueDest);
      JumpShorter(s, cfg, term.falseDest);
      var trueFeasible := solver.SatWithExtraConstraint(isTrue);
      var falseFeasible := solver.SatWithExtraConstraint(isFalse);
      if trueFeasible && falseFeasible {
        SplitTwo(ms, ts, fs, ps);
        FalseOvertaken(s, cfg, ms, ts, fs);
        SavePending(term.falseDest, isFalse);
        r := TakeBranch(term.trueDest, isTrue);
      } else if trueFeasible {
        assert ts == ms;
        r := TakeBranch(term.trueDest, isTrue);
      } else if falseFeasible {
        assert fs == ms;
        r := TakeBranch(term.falseDest, isFalse);
      } else {
        assert ms == {};
        CostOfNone(ps);
        r := BacktrackAndContinue();
        assert {} + Union(ps) == Union(ps);
      }
    }

    /** The indices of the cases that the scrutinee can be equal to, in order. */
    method FeasibleCases(scrutinee: BV<M>, cases: seq<(int, BlockId)>) returns (feasible: seq<nat>)
      requires solver.Valid()
      modifies solver
      ensures solver.Valid() && solver.frames == old(solver.frames)
      ensures ListsFeasible(solver.Current(), scrutinee, cases, feasible)
    {
      feasible := [];
      var i := 0;
      while i < |cases|
        invariant 0 <= i <= |cases|
        invariant solver.Valid() && solver.frames == old(solver.frames)
        invariant forall j :: 0 <= j < |feasible| ==> feasible[j] < i
        invariant forall j, k :: 0 <= j < k < |feasible| ==> feasible[j] < feasible[k]
        invariant forall j :: 0 <= j < |feasible| ==> Hits(solver.Current(), scrutinee, cases[feasible[j]].0)
        invariant forall i', m :: 0 <= i' < i && m in solver.Current() && scrutinee(m) == cases[i'].0 ==> i' in feasible
      {
        var c := cases[i].0;
        var b := solver.SatWithExtraConstraint(m => scrutinee(m) == c);
        if b {
          feasible := feasible + [i];
        }
        i := i + 1;
      }
    }

    /** Follows the first feasible case; the other feasible ones and the default are saved. */
    method SymexSwitch() returns (r: PathResult<M>)
      requires Running() && AtTerm(prog, curLoc) && TermAt(prog, curLoc).Switch?
      modifies this`curLoc, this`steps, this`varmap, this`mem, this`stack, this`turned, this`backtrackPoints, this`path, solver
      ensures Inv()
      ensures Outcome(S(), r, old(Whole()), Some(old(Cfg())), Cfg(), Current(), Pend())
      ensures squashUnsats ==> r != Err(Unsat)
      ensures Progress(S(), r, Remaining(), old(Remaining()), Cfg(), old(Cfg()))
      decreases Remaining(), Slots(S(), Cfg()), Weight(S(), Cfg()), 2
    {
      hide AgendaOk, AllDropped, PendingSets, WellFormed, Bounded, Alive, Good, Follows, Cost, Union, Apart,
           AllFollow, Accounted, Slots, Weight, PendingCost, Carved, SelectsOther, ListsFeasible, Unlisted;
      ghost var cfg, s, ms, ps := Cfg(), S(), Current(), Pend();
      FollowGood(s, cfg, ms);
      GoodTermKnown(s, cfg);
      var term := TermAt(prog, curLoc);
      var scrutinee := SEval(Cfg(), term.scrutinee);
      var unlisted := m => Unlisted(term.cases, scrutinee(m));
      ghost var ds := Where(ms, unlisted);
      DefaultFollows(s, cfg, ms, ds);
      FollowInTime(s, cfg, ms);
      JumpShorter(s, cfg, term.defaultDest);
      var feasible := FeasibleCases(scrutinee, term.cases);
      FeasibleFacts(ms, scrutinee, term.cases, feasible);
      if feasible == [] {
        assert ds == ms;
        curLoc, steps := Loc(curLoc.func, term.defaultDest, 0), steps + 1;
        r := SymexFromCurLocThroughEndOfFunction();
        return;
      }
      r := FollowFirstCase(scrutinee, feasible);
    }

    /** The part of a switch that runs when some case is feasible. */
    method FollowFirstCase(scrutinee: BV<M>, feasible: seq<nat>) returns (r: PathResult<M>)
      requires Running() && AtTerm(prog, curLoc) && TermAt(prog, curLoc).Switch?
      requires TermKnown(S(), Cfg()) && scrutinee == SEval(Cfg(), TermAt(prog, curLoc).scrutinee)
      requires feasible != [] && ListsFeasible(solver.Current(), scrutinee, TermAt(prog, curLoc).cases, feasible)
      modifies this`curLoc, this`steps, this`varmap, this`mem, this`stack, this`turned, this`backtrackPoints, this`path, solver
      ensures Inv()
      ensures Outcome(S(), r, old(Whole()), Some(old(Cfg())), Cfg(), Current(), Pend())
      ensures squashUnsats ==> r != Err(Unsat)
      ensures Progress(S(), r, Remaining(), old(Remaining()), Cfg(), old(Cfg()))
      decreases Remaining(), Slots(S(), Cfg()), Weight(S(), Cfg()), 1
    {
      hide AgendaOk, AllDropped, PendingSets, WellFormed, Bounded, Alive, Good, Follows, Cost, Union, Apart,
           AllFollow, Accounted, Slots, Weight, PendingCost, Carved, SelectsOther, ListsFeasible, Unlisted, TermKnown;
      ghost var cfg, s, ms, ps := Cfg(), S(), Current(), Pend();
      var term := TermAt(prog, curLoc);
      FeasibleFacts(ms, scrutinee, term.cases, feasible);
      var first := term.cases[feasible[0]];
      var isFirst := m => scrutinee(m) == first.0;
      ghost var fs := Where(ms, isFirst);
      CaseFollows(s, cfg, ms, feasible[0], fs);
      FollowInTime(s, cfg, ms);
      JumpShorter(s, cfg, first.1);
      ghost var carved := SaveAllButFirst(scrutinee, feasible, isFirst);
      SplitMany(ms, fs, carved, ps, Pend());
      r := TakeBranch(first.1, isFirst);
    }

    /** Saves the other feasible cases and, if it is feasible, the default. */
    method SaveAllButFirst(scrutinee: BV<M>, feasible: seq<nat>, ghost isFirst: M -> bool) returns (ghost carved: set<M>)
      requires Running() && AtTerm(prog, curLoc) && TermAt(prog, curLoc).Switch?
      requires TermKnown(S(), Cfg()) && scrutinee == SEval(Cfg(), TermAt(prog, curLoc).scrutinee)
      requires feasible != [] && ListsFeasible(solver.Current(), scrutinee, TermAt(prog, curLoc).cases, feasible)
      requires forall m :: isFirst(m) <==> scrutinee(m) == TermAt(prog, curLoc).cases[feasible[0]].0
      modifies this`backtrackPoints, solver
      ensures Inv() && Current() == old(Current())
      ensures Carved(old(Current()), old(Pend()), carved, Pend())
      ensures var fs := Where(Current(), isFirst);
              fs != {} && fs + carved == Current() && fs !! carved
    {
      hide AgendaOk, PendingSets, WellFormed, Bounded, Alive, Good, Follows, Union, Apart, AllFollow, PendingCost, Carved,
           SelectsOther, ListsFeasible, Unlisted, TermKnown, AllDropped;
      ghost var cfg, s, ms, ps := Cfg(), S(), Current(), Pend();
      FollowGood(s, cfg, ms);
      var term := TermAt(prog, curLoc);
      var unlisted := m => Unlisted(term.cases, scrutinee(m));
      ghost var fs, ds := Where(ms, isFirst), Where(ms, unlisted);
      DefaultFollows(s, cfg, ms, ds);
      DistinctCases(s, cfg);
      FeasibleFacts(ms, scrutinee, term.cases, feasible);
      carved := SaveOtherCases(scrutinee, feasible);
      ghost var ps1 := Pend();
      assert Current() == ms;
      SwitchPartition(ms, scrutinee, term.cases, feasible, fs, carved, ds);
      CarvedApart(ms, ps, carved, ps1, ds);
      var defaultFeasible := solver.SatWithExtraConstraint(unlisted);
      assert Current() == ms && Pend() == ps1;
      if defaultFeasible {
        forall m | m in ds
          ensures NoneUpTo(term.cases, feasible[0], scrutinee(m))
        {
          UnlistedNone(term.cases, feasible[0], scrutinee(m));
        }
        CasesOvertaken(s, cfg, ms, feasible[0], fs, ds);
        SavePending(term.defaultDest, unlisted);
        CarveMore(ms, ps, carved, ps1, ds);
      } else {
        assert carved + ds == carved;
      }
      carved := carved + ds;
    }

    /** Saves every feasible case but the first; `carved` is the set of models saved. */
    method SaveOtherCases(scrutinee: BV<M>, feasible: seq<nat>) returns (ghost carved: set<M>)
      requires Running() && AtTerm(prog, curLoc) && TermAt(prog, curLoc).Switch?
      requires TermKnown(S(), Cfg()) && scrutinee == SEval(Cfg(), TermAt(prog, curLoc).scrutinee)
      requires feasible != [] && ListsFeasible(solver.Current(), scrutinee, TermAt(prog, curLoc).cases, feasible)
      modifies this`backtrackPoints, solver
      ensures Inv() && Current() == old(Current())
      ensures Carved(old(Current()), old(Pend()), carved, Pend())
      ensures forall m :: m in carved <==>
                m in Current() && SelectsOther(scrutinee, TermAt(prog, curLoc).cases, feasible, |feasible|, m)
    {
      hide AgendaOk, PendingSets, WellFormed, Bounded, Alive, Good, Follows, Union, Apart, AllFollow, PendingCost, Carved;
      ghost var ms, ps, s := Current(), Pend(), S();
      var cases := TermAt(prog, curLoc).cases;
      FollowGood(s, Cfg(), ms);
      DistinctCases(s, Cfg());
      carved := {};
      CarveNone(ms, ps);
      var k := 1;
      while k < |feasible|
        invariant 1 <= k <= |feasible|
        invariant Inv() && Current() == ms && Carved(ms, ps, carved, Pend())
        invariant forall m :: m in carved <==> m in ms && SelectsOther(scrutinee, cases, feasible, k, m)
      {
        var c := cases[feasible[k]];
        var isCase := m => scrutinee(m) == c.0;
        ghost var cs, ps1 := Where(ms, isCase), Pend();
        assert Hits(ms, scrutinee, c.0);
        assert cs !! carved;
        CarvedApart(ms, ps, carved, ps1, cs);
        CaseFollows(s, Cfg(), ms, feasible[k], cs);
        FirstHit(ms, scrutinee, cases, feasible);
        CasesOvertaken(s, Cfg(), ms, feasible[0], Where(ms, m => scrutinee(m) == cases[feasible[0]].0), cs);
        SavePending(c.1, isCase);
        CarveMore(ms, ps, carved, ps1, cs);
        carved := carved + cs;
        k := k + 1;
      }
    }

    /* ---------- Backtracking ---------- */

    /** The only pending point resumes at a return whose result cannot be assigned. */
    ghost predicate OnlyLoss()
      reads this
    {
      |backtrackPoints| == 1 && LosesResult(S(), Resumed(backtrackPoints[0].held, backtrackPoints[0].loc.block))
    }

    /** Reverts to the latest backtrack point and continues from there, through the saved call
        stack, to the end of the top-level function. */
    method BacktrackAndContinue() returns (r: PathResult<M>)
      requires Inv()
      modifies this`curLoc, this`steps, this`varmap, this`mem, this`stack, this`turned, this`backtrackPoints, this`path, solver
      ensures Inv()
      ensures Outcome(S(), r, Union(old(Pend())), None, Cfg(), Current(), Pend())
      ensures squashUnsats ==> r != Err(Unsat)
      ensures old(Pend()) == [] ==> r == Ok(None) && Remaining() == old(Remaining())
      ensures old(OnlyLoss()) ==> r == Ok(None)
      ensures old(Pend()) != [] ==> Remaining() < PendingCost(old(Pend()))
      decreases PendingCost(Pend()), NoSlots(), 0, 0
    {
      hide AgendaOk, AllDropped, WellFormed, Bounded, Alive, Good, Follows, Cost, PendingCost, Apart,
           AllFollow, Accounted, Slots, Weight;
      var reverted := RevertToBacktrackingPoint();
      if reverted {
        r := SymexFromCurLoc();
      } else {
        NoneFail(S());
        r := Ok(None);
      }
    }

    /** Executes from `curLoc` and returns, through the saved call stack, all the way to the end of
        the top-level function. */
    method SymexFromCurLoc() returns (r: PathResult<M>)
      requires AboutToRun() && TurnedInside(Cfg())
      modifies this`curLoc, this`steps, this`varmap, this`mem, this`stack, this`turned, this`backtrackPoints, this`path, solver
      ensures Inv()
      ensures Outcome(S(), r, old(Whole()), None, Cfg(), Current(), Pend())
      ensures squashUnsats ==> r != Err(Unsat)
      ensures Remaining() <= old(Remaining())
      ensures old(LosesResult(S(), Cfg()) && Pend() == []) ==> r == Ok(None)
      decreases Remaining(), Slots(S(), Cfg()), Weight(S(), Cfg()), 6
    {
      hide AgendaOk, AllDropped, PendingSets, WellFormed, Bounded, Alive, Good, Follows, Cost, Union, Apart,
           AllFollow, Slots, Weight, PendingCost, AllFailWith, SomeFailsWith, Accounted;
      ghost var s, whole := S(), Whole();
      r := SymexFromCurLocThroughEndOfFunction();
      if r.Ok? && r.value.None? {
        CostDropsCurrent(Current(), Pend());
        r := BacktrackAndContinue();
      } else if r.Ok? && stack != [] {
        AccountedWithin(s, whole, Current(), Pend(), {});
        r := FinishResumed(r.value.value, whole);
      }
    }

    /** The callee of a resumed call has returned: continue in the caller.  If the result cannot be
        assigned, nothing is said about it and the next point is taken up. */
    method FinishResumed(v: Value<M>, ghost whole: set<M>) returns (r: PathResult<M>)
      requires Running() && EndsAt(S(), Cfg(), v) && stack != [] && TurnedInside(Cfg())
      requires Accounted(S(), whole, Current(), Pend(), {})
      modifies this`curLoc, this`steps, this`varmap, this`mem, this`stack, this`turned, this`backtrackPoints, this`path, solver
      ensures Inv()
      ensures Outcome(S(), r, whole, None, Cfg(), Current(), Pend())
      ensures squashUnsats ==> r != Err(Unsat)
      ensures Remaining() <= old(Remaining())
      ensures old(!CanReturn(S(), Cfg()) && Pend() == []) ==> r == Ok(None)
      decreases Remaining(), Slots(S(), Cfg()), Weight(S(), Cfg()), 0
    {
      hide AgendaOk, AllDropped, PendingSets, WellFormed, Bounded, Alive, Good, Follows, Cost, Union, Apart,
           AllFollow, Slots, Weight, PendingCost, AllFailWith, SomeFailsWith, Accounted, AtReturn, CanReturn, AfterReturn,
           TurnedInside;
      ghost var s, ret, ms, ps := S(), Cfg(), Current(), Pend();
      FollowInTime(s, ret, ms);
      var ok := ReturnThroughSavedStack(v);
      if !ok {
        ReturnLost(s, ret, ms);
        DropCurrent(s, whole, ms, ps, {});
        CostDropsCurrent(ms, ps);
        r := BacktrackAndContinue();
        assert {} + Union(ps) == Union(ps);
        OutcomeWithin(s, r, whole, {}, ps, None, Cfg(), Current(), Pend());
      } else {
        AfterReturnShorter(s, ret);
        AfterReturnTurned(s, ret);
        RecordedTurned(Cfg());
        RecordedSame(s, Cfg());
        r := SymexFromCurLoc();
        OutcomeWithin(s, r, whole, ms, ps, None, Cfg(), Current(), Pend());
      }
    }

    method UnwindThroughSavedStack(v: Value<M>) returns (ok: bool)
      requires CallFinishable(v)
      modifies this`curLoc, this`steps, this`varmap, this`stack
      ensures var res := InstrAt(prog, old(stack)[|old(stack)| - 1].loc).res;
              && (ok <==> (res.Some? ==> CanBind(PopFrame(old(Cfg())), maxVersion, res.value)))
              && (ok ==> Recorded(Cfg()) == ResumedReturn(old(Cfg()), res, v))
    {
      hide Restored;
      var callsite := PopCallsite();
      curLoc := callsite.value;
      var call := InstrAt(prog, curLoc);
      if v.Some? {
        ok := AssignBvToName(call.res.value, v.value);
        if !ok {
          return;
        }
      }
      ok := true;
      curLoc, steps := Inc(curLoc), steps + 1;
    }

    /** A resumed callee has returned: go back to the call instruction that the saved stack names,
        assign the result and move on. */
    method ReturnThroughSavedStack(v: Value<M>) returns (ok: bool)
      requires Running() && EndsAt(S(), Cfg(), v) && stack != []
      modifies this`curLoc, this`steps, this`varmap, this`stack
      ensures Inv() && Current() == old(Current()) && Pend() == old(Pend())
      ensures ok <==> CanReturn(S(), old(Cfg()))
      ensures ok ==> AboutToRun() && Recorded(Cfg()) == AfterReturn(S(), old(Cfg()))
      ensures !ok ==> AllFailWith(S(), Current(), LoopBoundExceeded)
    {
      hide AgendaOk, AllFailWith, PendingSets, WellFormed, Bounded, Alive, Good, Follows, AllFollow, Union, Restored,
           NativeReturn, ResumedReturn, ReturnValue, RestorableFrame, OperandKnown;
      ghost var cfg, s := Cfg(), S();
      GoodReturn(s, cfg);
      AfterReturnAll(s, cfg, Current());
      ReturnMechanismsAgree(cfg, CallerResult(s, cfg), v);
      ok := UnwindThroughSavedStack(v);
    }

    /* ---------- The iterator over paths ---------- */

    ghost predicate Ready()
      reads this, solver
    {
      Inv() && (isFresh ==> AboutToRun() && stack == [])
    }

    /** The models whose paths have not been produced yet. */
    ghost function Todo(): set<M>
      requires Shape()
      reads this, solver
    {
      if isFresh then Whole() else Union(Pend())
    }

    ghost function TodoCost(): nat
      requires Shape()
      reads this, solver
    {
      if isFresh then Remaining() + 1 else PendingCost(Pend())
    }

    /** Produces the next path, an error, or `None` when no path is left. */
    method Next() returns (item: Option<Result<Value<M>, Error>>)
      requires Ready()
      modifies this, solver
      ensures Ready() && !isFresh
      ensures item.None? ==> Pend() == [] && AllDropped(S(), old(Todo()), {})
      ensures item.Some? && item.value.Err? ==>
                && Accounted(S(), old(Todo()), {}, Pend(), Blamed(item.value.error))
                && (Alive(S()) && item.value.error != Unsat ==> SomeFailsWith(S(), old(Todo()), item.value.error))
      ensures item.Some? && item.value.Ok? ==>
                && Accounted(S(), old(Todo()), Current(), Pend(), {})
                && AllReturn(S(), Current(), item.value.value)
                && (Alive(S()) ==> Current() != {})
      ensures squashUnsats ==> item != Some(Err(Unsat))
      ensures item.Some? ==> TodoCost() < old(TodoCost())
      ensures old(!isFresh && OnlyLoss()) ==> item == None
      ensures old(isFresh && AtDeadEnd(prog, curLoc)) ==> item == Some(Ok(None)) && Current() == {}
    {
      hide AgendaOk, AllDropped, PendingSets, WellFormed, Bounded, Alive, Good, Follows, Cost, Union, Apart,
           AllFollow, Accounted, Slots, Weight, PendingCost, Recorded, AllReturn;
      var r: PathResult<M>;
      if isFresh {
        isFresh := false;
        r := SymexFromCurLocThroughEndOfFunction();
      } else {
        r := BacktrackAndContinue();
      }
      CostDropsCurrent(Current(), Pend());
      if r.Err? {
        item := Some(Err(r.error));
      } else if r.value.None? {
        item := None;
      } else {
        FinalReturnAll(S(), Cfg(), Current());
        item := Some(Ok(r.value.value));
      }
    }
  }

  /** A path that was produced: the models of its final constraints, and its return value. */
  datatype Path<!M> = Path(models: set<M>, value: Value<M>)

  ghost function Covered<M>(paths: seq<Path<M>>): set<M> {
    if paths == [] then {} else Covered(paths[..|paths| - 1]) + paths[|paths| - 1].models
  }

  lemma {:induction false} CoveredBy<M>(paths: seq<Path<M>>, m: M)
    ensures m in Covered(paths) <==> exists k :: 0 <= k < |paths| && m in paths[k].models
  {
    if paths != [] {
      var n := |paths| - 1;
      CoveredBy(paths[..n], m);
      if m in Covered(paths[..n]) {
        var k :| 0 <= k < n && m in paths[..n][k].models;
        assert m in paths[k].models;
      }
      if exists k :: 0 <= k < |paths| && m in paths[k].models {
        var k :| 0 <= k < |paths| && m in paths[k].models;
        assert k < n ==> m in paths[..n][k].models;
      }
    }
  }

  /** No model is on two paths. */
  ghost predicate ExactlyOnce<M(!new)>(paths: seq<Path<M>>) {
    forall j, k :: 0 <= j < k < |paths| ==> paths[j].models !! paths[k].models
  }

  ghost predicate AllSound<M(!new)>(s: Setup<M>, paths: seq<Path<M>>) {
    forall k :: 0 <= k < |paths| ==> AllReturn(s, paths[k].models, paths[k].value)
  }

  ghost function Reported(errors: seq<Error>): set<Error> {
    set e | e in errors
  }

  /** What has been established when `todo` is what is left of `whole`. */
  ghost predicate Explored<M(!new)>(s: Setup<M>, whole: set<M>, paths: seq<Path<M>>, errors: seq<Error>, todo: set<M>) {
    && ExactlyOnce(paths)
    && AllSound(s, paths)
    && (Alive(s) ==> forall k :: 0 <= k < |paths| ==> paths[k].models != {})
    && Covered(paths) + todo <= whole
    && Covered(paths) !! todo
    && AllDropped(s, whole - Covered(paths) - todo, Reported(errors))
  }

  lemma ExploredSkip<M(!new)>(s: Setup<M>, whole: set<M>, paths: seq<Path<M>>, errors: seq<Error>, todo: set<M>,
                              ps: seq<set<M>>, more: seq<Error>)
    requires Explored(s, whole, paths, errors, todo) && Accounted(s, todo, {}, ps, Reported(more))
    ensures Explored(s, whole, paths, errors + more, Union(ps))
  {
    hide Dropped;
    var es := Reported(errors + more);
    DroppedMore(s, whole - Covered(paths) - todo, Reported(errors), es);
    DroppedMore(s, todo - {} - Union(ps), Reported(more), es);
    forall m | m in whole - Covered(paths) - Union(ps)
      ensures Dropped(s, m, es)
    {
      if m in todo {
        assert m in todo - {} - Union(ps);
      } else {
        assert m in whole - Covered(paths) - todo;
      }
    }
  }

  lemma ExploredPath<M(!new)>(s: Setup<M>, whole: set<M>, paths: seq<Path<M>>, errors: seq<Error>, todo: set<M>,
                              current: set<M>, v: Value<M>, ps: seq<set<M>>)
    requires Explored(s, whole, paths, errors, todo) && Accounted(s, todo, current, ps, {}) && AllReturn(s, current, v)
    requires Alive(s) ==> current != {}
    ensures Explored(s, whole, paths + [Path(current, v)], errors, Union(ps))
  {
    hide Dropped;
    var paths' := paths + [Path(current, v)];
    assert paths'[..|paths|] == paths;
    forall j, k | 0 <= j < k < |paths'|
      ensures paths'[j].models !! paths'[k].models
    {
      if k == |paths| {
        forall m | m in paths[j].models
          ensures m !in current
        {
          CoveredBy(paths, m);
        }
      }
    }
    DroppedMore(s, todo - current - Union(ps), {}, Reported(errors));
    forall m | m in whole - Covered(paths') - Union(ps)
      ensures Dropped(s, m, Reported(errors))
    {
      if m in todo {
        assert m in todo - current - Union(ps);
      } else {
        assert m in whole - Covered(paths) - todo;
      }
    }
  }

  /** Each reported error other than `Unsat` is the error of some model's run. */
  ghost predicate Genuine<M(!new)>(s: Setup<M>, whole: set<M>, errors: seq<Error>) {
    forall k :: 0 <= k < |errors| && errors[k] != Unsat ==> SomeFailsWith(s, whole, errors[k])
  }

  lemma GenuineMore<M(!new)>(s: Setup<M>, whole: set<M>, errors: seq<Error>, part: set<M>, e: Error)
    requires Genuine(s, whole, errors) && part <= whole && (e != Unsat ==> SomeFailsWith(s, part, e))
    ensures Genuine(s, whole, errors + [e])
  {
  }

  /** Calls `Next` until it returns `None`. */
  method ExploreAll<M(==,!new)>(mgr: ExecutionManager<M>) returns (paths: seq<Path<M>>, errors: seq<Error>)
    requires mgr.Ready()
    modifies mgr, mgr.solver
    ensures mgr.Ready() && mgr.Pend() == []
    ensures Explored(mgr.S(), old(mgr.Todo()), paths, errors, {})
    ensures Alive(mgr.S()) ==> Genuine(mgr.S(), old(mgr.Todo()), errors)
    ensures mgr.squashUnsats ==> Unsat !in errors
  {
    hide AgendaOk, AllDropped, PendingSets, WellFormed, Bounded, Alive, Good, Follows, Cost, Apart, Explored,
         AllFollow, Accounted, Slots, Weight, PendingCost, Recorded, AllReturn, Genuine, SomeFailsWith;
    ghost var s, whole := mgr.S(), mgr.Todo();
    paths, errors := [], [];
    ExploredNone(s, whole);
    while true
      invariant mgr.Ready() && Explored(s, whole, paths, errors, mgr.Todo())
      invariant Alive(s) ==> Genuine(s, whole, errors)
      invariant mgr.squashUnsats ==> Unsat !in errors
      decreases mgr.TodoCost()
    {
      ghost var todo := mgr.Todo();
      ExploredWithin(s, whole, paths, errors, todo);
      var item := mgr.Next();
      if item.None? {
        AccountedNone(s, todo);
        assert Reported([]) == {} && errors + [] == errors;
        ExploredSkip(s, whole, paths, errors, todo, [], []);
        return;
      } else if item.value.Ok? {
        ExploredPath(s, whole, paths, errors, todo, mgr.Current(), item.value.value, mgr.Pend());
        paths := paths + [Path(mgr.solver.Current(), item.value.value)];
      } else {
        assert Reported([item.value.error]) == {item.value.error};
        AccountedMore(s, todo, {}, mgr.Pend(), Blamed(item.value.error), {item.value.error});
        ExploredSkip(s, whole, paths, errors, todo, mgr.Pend(), [item.value.error]);
        if Alive(s) {
          GenuineMore(s, whole, errors, todo, item.value.error);
        }
        errors := errors + [item.value.error];
      }
    }
  }

  lemma ExploredWithin<M(!new)>(s: Setup<M>, whole: set<M>, paths: seq<Path<M>>, errors: seq<Error>, todo: set<M>)
    requires Explored(s, whole, paths, errors, todo)
    ensures todo <= whole
  {
  }

  lemma ExploredNone<M(!new)>(s: Setup<M>, whole: set<M>)
    ensures Explored(s, whole, [], [], whole) && Genuine(s, whole, [])
  {
  }

  /** The run of `f` on the input that model `m` stands for halts with outcome `d`. */
  ghost predicate RunEnds<M>(prog: Program, maxVersion: nat, f: FuncName, params: seq<BV<M>>, mem: M -> Memory, m: M, d: State)
    requires f in prog && |params| == |prog[f].params| && DistinctNames(prog[f].params)
  {
    !d.Running? && Reaches(prog, maxVersion, InitialState(f, prog[f].params, params, mem, m), d)
  }

  /** Every run from `ms` halts. */
  ghost predicate AllHalt<M(!new)>(prog: Program, maxVersion: nat, f: FuncName, params: seq<BV<M>>, mem: M -> Memory, ms: set<M>)
    requires f in prog && |params| == |prog[f].params| && DistinctNames(prog[f].params)
  {
    forall m :: m in ms ==> exists d :: RunEnds(prog, maxVersion, f, params, mem, m, d)
  }

  /** No run from `ms` violates an assumption. */
  ghost predicate AssumptionsHold<M(!new)>(prog: Program, maxVersion: nat, f: FuncName, params: seq<BV<M>>, mem: M -> Memory,
                                           ms: set<M>)
    requires f in prog && |params| == |prog[f].params| && DistinctNames(prog[f].params)
  {
    forall m :: m in ms ==> !RunEnds(prog, maxVersion, f, params, mem, m, Failed(AssumptionViolated))
  }

  /** The whole exploration of a function is sound, complete and finite.  Every model of the initial
      constraints whose run returns is on exactly one of the paths, every path returns what the runs
      of its models return, and every other run ends in an error.  If there is a model and no assumption is
      violated, every path has a model and every error is the error of some run.

      Exploration is finite if control cannot go round without using up the loop bound.  If there is
      a model and no assumption is violated, it is enough that every run halts, and that is also
      necessary, by the second and the fourth postcondition. */
  method SymexFunction<M(==,!new)>(prog: Program, maxVersion: nat, squashUnsats: bool, solver: Solver<M>,
                                   f: FuncName, params: seq<BV<M>>, mem: M -> Memory, ghost live: Liveness, ghost rank: Option<Rank>)
    returns (paths: seq<Path<M>>, errors: seq<Error>)
    requires WellFormed(prog, live) && solver.Valid()
    requires f in prog && |params| == |prog[f].params| && DistinctNames(prog[f].params)
    requires match rank
             case Some(r) => Ranked(prog, r)
             case None =>
               && solver.Current() != {}
               && AllHalt(prog, maxVersion, f, params, mem, solver.Current())
               && AssumptionsHold(prog, maxVersion, f, params, mem, solver.Current())
    modifies solver
    ensures ExactlyOnce(paths)
    ensures forall k, m :: 0 <= k < |paths| && m in paths[k].models ==>
              && m in old(solver.Current())
              && RunEnds(prog, maxVersion, f, params, mem, m, Returned(At(paths[k].value, m)))
    ensures forall m, v :: m in old(solver.Current()) && RunEnds(prog, maxVersion, f, params, mem, m, Returned(v)) ==>
              exists k :: 0 <= k < |paths| && m in paths[k].models && At(paths[k].value, m) == v
    ensures forall m :: m in old(solver.Current()) && (forall k :: 0 <= k < |paths| ==> m !in paths[k].models) ==>
              exists e :: RunEnds(prog, maxVersion, f, params, mem, m, Failed(e))
    ensures forall m, e :: m in old(solver.Current()) && RunEnds(prog, maxVersion, f, params, mem, m, Failed(e)) ==>
              || e in errors || e == AssumptionViolated
              || (e == LoopBoundExceeded && ResultLost(prog, maxVersion, f, params, mem, old(solver.Current()), m))
    ensures old(solver.Current()) != {} && AssumptionsHold(prog, maxVersion, f, params, mem, old(solver.Current())) ==>
              && (forall k :: 0 <= k < |paths| ==> paths[k].models != {})
              && (forall k :: 0 <= k < |errors| && errors[k] != Unsat ==>
                    exists m :: m in old(solver.Current()) && RunEnds(prog, maxVersion, f, params, mem, m, Failed(errors[k])))
    ensures squashUnsats ==> Unsat !in errors
    ensures old(solver.Current()) != {} && NoAssumes(prog) ==> forall k :: 0 <= k < |paths| ==> paths[k].models != {}
  {
    hide AgendaOk, WellFormed, Bounded, Ranked, Good, Follows, Cost, PendingCost, Recorded, AllFollow, Explored, Genuine,
         Alive, RunEnds, InitialSetup, AssumptionsHold, AllHalt, NoAssumes, ExactlyOnce, DistinctNames;
    ghost var whole := solver.Current();
    ghost var bound := FindBound(prog, maxVersion, live, rank, whole, f, params, mem);
    var mgr := new ExecutionManager<M>(prog, maxVersion, squashUnsats, solver, f, params, mem, live, bound);
    assert mgr.Todo() == whole;
    paths, errors := ExploreAll(mgr);
    ExploredMeans(prog, maxVersion, live, bound, whole, f, params, mem, paths, errors);
  }

  lemma NoAssumesHold<M(!new)>(prog: Program, maxVersion: nat, f: FuncName, params: seq<BV<M>>, mem: M -> Memory, ms: set<M>)
    requires f in prog && |params| == |prog[f].params| && DistinctNames(prog[f].params)
    requires NoAssumes(prog)
    ensures AssumptionsHold(prog, maxVersion, f, params, mem, ms)
  {
    forall m, n: nat
      ensures Steps(prog, maxVersion, InitialState(f, prog[f].params, params, mem, m), n) != Failed(AssumptionViolated)
    {
      NoAssumesNoViolation(prog, maxVersion, InitialState(f, prog[f].params, params, mem, m), n);
    }
  }

  /** A valid reason for finiteness. */
  lemma FindBound<M(!new)>(prog: Program, maxVersion: nat, live: Liveness, rank: Option<Rank>, start: set<M>,
                           f: FuncName, params: seq<BV<M>>, mem: M -> Memory) returns (bound: Bound)
    requires f in prog && |params| == |prog[f].params| && DistinctNames(prog[f].params)
    requires match rank
             case Some(r) => Ranked(prog, r)
             case None =>
               && start != {}
               && AllHalt(prog, maxVersion, f, params, mem, start)
               && AssumptionsHold(prog, maxVersion, f, params, mem, start)
    ensures Bounded(InitialSetup(prog, maxVersion, live, bound, start, f, params, mem))
  {
    match rank
    case Some(r) =>
      bound := ByRank(r);
    case None =>
      var s := InitialSetup(prog, maxVersion, live, BySteps(0), start, f, params, mem);
      forall m | m in start
        ensures exists n: nat :: !StateAt(s, m, n).Running?
      {
        var d :| RunEnds(prog, maxVersion, f, params, mem, m, d);
        var n: nat :| Steps(prog, maxVersion, s.init(m), n) == d;
        assert !StateAt(s, m, n).Running?;
      }
      var n := CommonBound(s, start);
      bound := BySteps(n);
      var s' := InitialSetup(prog, maxVersion, live, bound, start, f, params, mem);
      forall m | m in start
        ensures !StateAt(s', m, n).Running? && !FailsWith(s', m, AssumptionViolated)
      {
        assert !StateAt(s, m, n).Running?;
        assert !RunEnds(prog, maxVersion, f, params, mem, m, Failed(AssumptionViolated));
      }
  }

  /** Finitely many runs that halt have a common bound. */
  lemma {:induction false} CommonBound<M(!new)>(s: Setup<M>, ms: set<M>) returns (n: nat)
    requires forall m :: m in ms ==> exists k: nat :: !StateAt(s, m, k).Running?
    ensures forall m :: m in ms ==> !StateAt(s, m, n).Running?
    decreases ms
  {
    n := 0;
    if m :| m in ms {
      var k: nat :| !StateAt(s, m, k).Running?;
      var k' := CommonBound(s, ms - {m});
      n := k + k';
      forall m' | m' in ms
        ensures !StateAt(s, m', n).Running?
      {
        assert m' != m ==> m' in ms - {m};
        HaltedStays(s.prog, s.maxVersion, s.init(m'), if m' == m then k else k', n);
      }
    }
  }

  /** What a finished exploration says about the runs. */
  lemma ExploredMeans<M(!new)>(prog: Program, maxVersion: nat, live: Liveness, bound: Bound, start: set<M>, f: FuncName,
                               params: seq<BV<M>>, mem: M -> Memory, paths: seq<Path<M>>, errors: seq<Error>)
    requires f in prog && |params| == |prog[f].params| && DistinctNames(prog[f].params)
    requires var s := InitialSetup(prog, maxVersion, live, bound, start, f, params, mem);
             Explored(s, start, paths, errors, {}) && (Alive(s) ==> Genuine(s, start, errors))
    ensures ExactlyOnce(paths)
    ensures forall k, m :: 0 <= k < |paths| && m in paths[k].models ==>
              m in start && RunEnds(prog, maxVersion, f, params, mem, m, Returned(At(paths[k].value, m)))
    ensures forall m, v :: m in start && RunEnds(prog, maxVersion, f, params, mem, m, Returned(v)) ==>
              exists k :: 0 <= k < |paths| && m in paths[k].models && At(paths[k].value, m) == v
    ensures forall m :: m in start && (forall k :: 0 <= k < |paths| ==> m !in paths[k].models) ==>
              exists e :: RunEnds(prog, maxVersion, f, params, mem, m, Failed(e))
    ensures forall m, e :: m in start && RunEnds(prog, maxVersion, f, params, mem, m, Failed(e)) ==>
              || e in errors || e == AssumptionViolated
              || (e == LoopBoundExceeded && ResultLost(prog, maxVersion, f, params, mem, start, m))
    ensures start != {} && AssumptionsHold(prog, maxVersion, f, params, mem, start) ==>
              && (forall k :: 0 <= k < |paths| ==> paths[k].models != {})
              && (forall k :: 0 <= k < |errors| && errors[k] != Unsat ==>
                    exists m :: m in start && RunEnds(prog, maxVersion, f, params, mem, m, Failed(errors[k])))
    ensures start != {} && NoAssumes(prog) ==> forall k :: 0 <= k < |paths| ==> paths[k].models != {}
  {
    hide NoAssumes, InitialState, Explored, LostInReturn, ResultLost, AssumptionsHold, Alive, Genuine, DistinctNames;
    var s := InitialSetup(prog, maxVersion, live, bound, start, f, params, mem);
    forall k, m | 0 <= k < |paths| && m in paths[k].models
      ensures m in start && RunEnds(prog, maxVersion, f, params, mem, m, Returned(At(paths[k].value, m)))
    {
      PathsMean(s, paths, errors, k, m);
    }
    forall m, e | m in start && RunEnds(prog, maxVersion, f, params, mem, m, Failed(e))
      ensures || e in errors || e == AssumptionViolated
              || (e == LoopBoundExceeded && ResultLost(prog, maxVersion, f, params, mem, start, m))
    {
      ErrorsMean(s, paths, errors, m, e);
      LostMeans(prog, maxVersion, live, bound, start, f, params, mem, m);
    }
    forall m | m in start && forall k :: 0 <= k < |paths| ==> m !in paths[k].models
      ensures exists e :: RunEnds(prog, maxVersion, f, params, mem, m, Failed(e))
    {
      var e := OthersMean(s, paths, errors, m);
      assert RunEnds(prog, maxVersion, f, params, mem, m, Failed(e));
    }
    forall m, v | m in start && RunEnds(prog, maxVersion, f, params, mem, m, Returned(v))
      ensures exists k :: 0 <= k < |paths| && m in paths[k].models && At(paths[k].value, m) == v
    {
      var k := ReturnsMean(s, paths, errors, m, v);
    }
    if NoAssumes(prog) {
      NoAssumesHold(prog, maxVersion, f, params, mem, start);
    }
    ExploredShape(s, paths, errors);
    if start != {} && AssumptionsHold(prog, maxVersion, f, params, mem, start) {
      AssumptionsAlive(s, f, params, mem);
      forall k | 0 <= k < |errors| && errors[k] != Unsat
        ensures exists m :: m in start && RunEnds(prog, maxVersion, f, params, mem, m, Failed(errors[k]))
      {
        var m := GenuineMeans(s, errors, k);
        assert RunEnds(prog, maxVersion, f, params, mem, m, Failed(errors[k]));
      }
    }
  }

  lemma ExploredShape<M(!new)>(s: Setup<M>, paths: seq<Path<M>>, errors: seq<Error>)
    requires Explored(s, s.start, paths, errors, {})
    ensures ExactlyOnce(paths)
    ensures Alive(s) ==> forall k :: 0 <= k < |paths| ==> paths[k].models != {}
  {
  }

  lemma GenuineMeans<M(!new)>(s: Setup<M>, errors: seq<Error>, k: nat) returns (m: M)
    requires Genuine(s, s.start, errors) && k < |errors| && errors[k] != Unsat
    ensures m in s.start && FailsWith(s, m, errors[k])
  {
    assert SomeFailsWith(s, s.start, errors[k]);
    m :| m in s.start && FailsWith(s, m, errors[k]);
  }

  lemma PathsMean<M(!new)>(s: Setup<M>, paths: seq<Path<M>>, errors: seq<Error>, k: nat, m: M)
    requires Explored(s, s.start, paths, errors, {}) && k < |paths| && m in paths[k].models
    ensures m in s.start && Returns(s, m, At(paths[k].value, m))
  {
    CoveredBy(paths, m);
    assert AllReturn(s, paths[k].models, paths[k].value);
  }

  lemma OthersMean<M(!new)>(s: Setup<M>, paths: seq<Path<M>>, errors: seq<Error>, m: M) returns (e: Error)
    requires Explored(s, s.start, paths, errors, {}) && m in s.start && forall k :: 0 <= k < |paths| ==> m !in paths[k].models
    ensures FailsWith(s, m, e) && (e in errors || e == AssumptionViolated || (LostInReturn(s, m) && e == LoopBoundExceeded))
  {
    CoveredBy(paths, m);
    assert m in s.start - Covered(paths) - {};
    e := DroppedFails(s, m, Reported(errors));
  }

  lemma ErrorsMean<M(!new)>(s: Setup<M>, paths: seq<Path<M>>, errors: seq<Error>, m: M, e: Error)
    requires Explored(s, s.start, paths, errors, {}) && m in s.start && FailsWith(s, m, e)
    ensures e in errors || e == AssumptionViolated || (LostInReturn(s, m) && e == LoopBoundExceeded)
  {
    hide Explored, LostInReturn;
    forall k | 0 <= k < |paths|
      ensures m !in paths[k].models
    {
      if m in paths[k].models {
        PathsMean(s, paths, errors, k, m);
        OutcomesExclusive(s, m, At(paths[k].value, m));
        assert false;
      }
    }
    var e' := OthersMean(s, paths, errors, m);
    OutcomeUnique(s.prog, s.maxVersion, s.init(m), Failed(e), Failed(e'));
  }

  lemma ReturnsMean<M(!new)>(s: Setup<M>, paths: seq<Path<M>>, errors: seq<Error>, m: M, v: Option<int>) returns (k: nat)
    requires Explored(s, s.start, paths, errors, {}) && m in s.start && Returns(s, m, v)
    ensures k < |paths| && m in paths[k].models && At(paths[k].value, m) == v
  {
    OutcomesExclusive(s, m, v);
    if forall k :: 0 <= k < |paths| ==> m !in paths[k].models {
      var e := OthersMean(s, paths, errors, m);
      assert false;
    }
    k :| 0 <= k < |paths| && m in paths[k].models;
    PathsMean(s, paths, errors, k, m);
  }

  /** The run of `m` ends because the result of a call cannot be assigned, and inside that call another model
      with the same history had gone a way that is tried before. */
  ghost predicate ResultLost<M(!new)>(prog: Program, maxVersion: nat, f: FuncName, params: seq<BV<M>>, mem: M -> Memory,
                                      start: set<M>, m: M)
    requires f in prog && |params| == |prog[f].params| && DistinctNames(prog[f].params)
  {
    LostInReturn(InitialSetup(prog, maxVersion, (_, _) => {}, BySteps(0), start, f, params, mem), m)
  }

  lemma LostMeans<M(!new)>(prog: Program, maxVersion: nat, live: Liveness, bound: Bound, start: set<M>, f: FuncName,
                           params: seq<BV<M>>, mem: M -> Memory, m: M)
    requires f in prog && |params| == |prog[f].params| && DistinctNames(prog[f].params)
    ensures LostInReturn(InitialSetup(prog, maxVersion, live, bound, start, f, params, mem), m)
       ==> ResultLost(prog, maxVersion, f, params, mem, start, m)
  {
    var s := InitialSetup(prog, maxVersion, live, bound, start, f, params, mem);
    var s' := InitialSetup(prog, maxVersion, (_, _) => {}, BySteps(0), start, f, params, mem);
    SameRuns(s, s', m);
  }

  lemma SameRuns<M(!new)>(s: Setup<M>, s': Setup<M>, m: M)
    requires s.prog == s'.prog && s.maxVersion == s'.maxVersion && s.start == s'.start && forall n :: s.init(n) == s'.init(n)
    ensures LostInReturn(s, m) ==> LostInReturn(s', m)
  {
    hide Outranks, Steps;
    assert forall n, k :: StateAt(s, n, k) == StateAt(s', n, k);
    if LostInReturn(s, m) {
      var j: nat, k: nat :| LostAt(s, m, j, k);
      var first :| first in s.start && OvertakenBy(s, first, m, k);
      assert OvertakenBy(s', first, m, k);
      assert DeepSince(s', m, |StateAt(s, m, j).stack|, k, j);
      assert LostAt(s', m, j, k);
    }
  }

  lemma AssumptionsAlive<M(!new)>(s: Setup<M>, f: FuncName, params: seq<BV<M>>, mem: M -> Memory)
    requires f in s.prog && |params| == |s.prog[f].params| && DistinctNames(s.prog[f].params) && s.start != {}
    requires s == InitialSetup(s.prog, s.maxVersion, s.live, s.bound, s.start, f, params, mem)
    requires AssumptionsHold(s.prog, s.maxVersion, f, params, mem, s.start)
    ensures Alive(s)
  {
    forall m | m in s.start
      ensures !FailsWith(s, m, AssumptionViolated)
    {
      assert !RunEnds(s.prog, s.maxVersion, f, params, mem, m, Failed(AssumptionViolated));
    }
  }

  /* ---------- Splitting the current models ---------- */

  lemma EdgesOk<M>(s: Setup<M>, cfg: Config<M>)
    requires Good(s, cfg) && AtTerm(s.prog, cfg.loc)
    ensures WellFormedTerm(s.prog, s.live, cfg.loc.func, cfg.loc.block)
  {
    assert WellFormedFunction(s.prog, s.live, cfg.loc.func);
  }

  lemma BranchesFollow<M(!new)>(s: Setup<M>, cfg: Config<M>, ms: set<M>, ts: set<M>, fs: set<M>)
    requires AllFollow(s, cfg, ms) && AtTerm(s.prog, cfg.loc) && TermAt(s.prog, cfg.loc).CondBr? && TermKnown(s, cfg)
    requires forall m :: m in ts <==> m in ms && SEval(cfg, TermAt(s.prog, cfg.loc).cond)(m) != 0
    requires forall m :: m in fs <==> m in ms && SEval(cfg, TermAt(s.prog, cfg.loc).cond)(m) == 0
    ensures AllFollow(s, Recorded(SJump(cfg, TermAt(s.prog, cfg.loc).trueDest)), ts)
    ensures AllFollow(s, Recorded(SJump(cfg, TermAt(s.prog, cfg.loc).falseDest)), fs)
    ensures ts + fs == ms && ts !! fs
  {
    EdgesOk(s, cfg);
    AllFollowSubset(s, cfg, ms, ts);
    AllFollowSubset(s, cfg, ms, fs);
    JumpAll(s, cfg, ts, TermAt(s.prog, cfg.loc).trueDest);
    JumpAll(s, cfg, fs, TermAt(s.prog, cfg.loc).falseDest);
  }

  /** The models that take the false branch are overtaken by one that takes the true branch. */
  lemma FalseOvertaken<M(!new)>(s: Setup<M>, cfg: Config<M>, ms: set<M>, ts: set<M>, fs: set<M>)
    requires AllFollow(s, cfg, ms) && AtTerm(s.prog, cfg.loc) && TermAt(s.prog, cfg.loc).CondBr? && TermKnown(s, cfg)
    requires ts != {} && ts <= ms && fs <= ms
    requires forall m :: m in ts ==> SEval(cfg, TermAt(s.prog, cfg.loc).cond)(m) != 0
    requires forall m :: m in fs ==> SEval(cfg, TermAt(s.prog, cfg.loc).cond)(m) == 0
    ensures AllOvertaken(s, fs, cfg.steps)
  {
    hide Overtaken, AllFollow;
    var first :| first in ts;
    forall m | m in fs
      ensures Overtaken(s, m, cfg.steps)
    {
      BranchOvertakes(s, cfg, ms, first, m);
    }
  }

  /** The models that select none of the cases up to `i` are overtaken by one that selects case `i`. */
  lemma CasesOvertaken<M(!new)>(s: Setup<M>, cfg: Config<M>, ms: set<M>, i: nat, fs: set<M>, cs: set<M>)
    requires AllFollow(s, cfg, ms) && AtTerm(s.prog, cfg.loc) && TermAt(s.prog, cfg.loc).Switch? && TermKnown(s, cfg)
    requires i < |TermAt(s.prog, cfg.loc).cases| && fs != {} && fs <= ms && cs <= ms
    requires var term := TermAt(s.prog, cfg.loc);
             && (forall m :: m in fs ==> SEval(cfg, term.scrutinee)(m) == term.cases[i].0)
             && (forall m :: m in cs ==> NoneUpTo(term.cases, i, SEval(cfg, term.scrutinee)(m)))
    ensures AllOvertaken(s, cs, cfg.steps)
  {
    hide Overtaken, AllFollow, NoneUpTo;
    var first :| first in fs;
    forall m | m in cs
      ensures Overtaken(s, m, cfg.steps)
    {
      BranchOvertakes(s, cfg, ms, first, m);
    }
  }

  /** The first feasible case is selected by some model, and no model selects one before it. */
  lemma FirstHit<M(!new)>(ms: set<M>, v: BV<M>, cases: seq<(int, BlockId)>, feasible: seq<nat>)
    requires feasible != [] && ListsFeasible(ms, v, cases, feasible)
    ensures feasible[0] < |cases| && Where(ms, m => v(m) == cases[feasible[0]].0) != {}
    ensures forall m :: m in ms && v(m) != cases[feasible[0]].0 ==> NoneUpTo(cases, feasible[0], v(m))
  {
    assert Hits(ms, v, cases[feasible[0]].0);
    var m0 :| m0 in ms && v(m0) == cases[feasible[0]].0;
    assert m0 in Where(ms, m => v(m) == cases[feasible[0]].0);
    forall m, j | m in ms && 0 <= j <= feasible[0] && cases[j].0 == v(m)
      ensures j == feasible[0]
    {
      assert j in feasible;
      var k :| 0 <= k < |feasible| && feasible[k] == j;
      assert k > 0 ==> feasible[0] < feasible[k];
    }
  }

  lemma UnlistedNone(cases: seq<(int, BlockId)>, i: nat, v: int)
    requires i < |cases| && Unlisted(cases, v)
    ensures NoneUpTo(cases, i, v)
  {
  }

  /** Saving one half of the current models keeps the total and the cost. */
  lemma SplitTwo<M>(ms: set<M>, ts: set<M>, fs: set<M>, ps: seq<set<M>>)
    requires ts + fs == ms && ts !! fs && ms !! Union(ps) && ts != {} && fs != {}
    ensures ts + Union(ps + [fs]) == ms + Union(ps)
    ensures ts !! Union(ps + [fs]) && fs !! Union(ps)
    ensures Cost(ts, ps + [fs]) == Cost(ms, ps)
  {
    Appended(ps, fs);
    DisjointCard(ts, fs);
  }

  lemma CostOfNone<M>(ps: seq<set<M>>)
    ensures Cost({}, ps) == PendingCost(ps)
  {
  }

  lemma AccountedNone<M(!new)>(s: Setup<M>, whole: set<M>)
    requires AllDropped(s, whole, {})
    ensures Accounted(s, whole, {}, [], {})
  {
  }

  lemma CostDropsCurrent<M>(ms: set<M>, ps: seq<set<M>>)
    ensures PendingCost(ps) <= Cost(ms, ps)
  {
  }

  lemma ExecutedErrors<M>(s: Setup<M>, cfg: Config<M>)
    requires AtInstr(s.prog, cfg.loc) && !InstrAt(s.prog, cfg.loc).Call? && OperandsKnown(s.prog, cfg)
    ensures Executed(s, cfg) != Err(Unsat)
    ensures Executed(s, cfg).Ok? ==> Executed(s, cfg).value.loc == Inc(cfg.loc)
  {
  }

  lemma EnteredFrame<M>(s: Setup<M>, cfg: Config<M>)
    requires AtInstr(s.prog, cfg.loc) && InstrAt(s.prog, cfg.loc).Call? && OperandsKnown(s.prog, cfg)
    ensures Entered(s, cfg) != Err(Unsat)
    ensures Entered(s, cfg).Ok? ==>
              && Entered(s, cfg).value.path == cfg.path
              && var stack := Entered(s, cfg).value.stack;
              && |stack| == |cfg.stack| + 1 && stack[..|cfg.stack|] == cfg.stack && stack[|cfg.stack|].loc == cfg.loc
  {
    var i := InstrAt(s.prog, cfg.loc);
    if Entered(s, cfg).Ok? {
      BindAllKeeps(AtEntry(cfg, i.callee), s.maxVersion, s.prog[i.callee].params, SEvalAll(cfg, i.args));
    }
  }

  lemma AfterReturnPlace<M>(s: Setup<M>, cfg: Config<M>)
    requires Good(s, cfg) && AtReturn(s, cfg) && cfg.stack != []
    ensures AfterReturn(s, cfg).loc == Inc(cfg.stack[|cfg.stack| - 1].loc)
    ensures AfterReturn(s, cfg).stack == cfg.stack[..|cfg.stack| - 1]
  {
  }

  /** About to return from a call whose result cannot be assigned. */
  ghost predicate LosesResult<M>(s: Setup<M>, cfg: Config<M>) {
    && Good(s, Recorded(cfg)) && AtReturn(s, cfg) && cfg.stack != []
    && !CanReturn(s, Recorded(cfg))
  }

  lemma RecordedTurned<M>(cfg: Config<M>)
    ensures TurnedInside(Recorded(cfg)) <==> TurnedInside(cfg)
  {
  }

  lemma AfterReturnTurned<M>(s: Setup<M>, cfg: Config<M>)
    requires Good(s, cfg) && AtReturn(s, cfg) && cfg.stack != [] && TurnedInside(cfg)
    ensures TurnedInside(AfterReturn(s, cfg))
  {
  }

  lemma NothingDropped<M(!new)>(s: Setup<M>, cfg: Config<M>, ms: set<M>, dropped: set<M>)
    requires AllFollow(s, cfg, ms) && dropped <= ms && AllFailWith(s, dropped, AssumptionViolated)
    ensures Alive(s) ==> dropped == {}
  {
    if dropped != {} {
      var m :| m in dropped;
      assert Follows(s, cfg, m) && FailsWith(s, m, AssumptionViolated);
    }
  }

  lemma NoneFail<M(!new)>(s: Setup<M>)
    ensures AllDropped(s, {}, {})
  {
  }

  ghost predicate Hits<M(!new)>(ms: set<M>, v: BV<M>, c: int) {
    exists m :: m in ms && v(m) == c
  }

  predicate Unlisted(cases: seq<(int, BlockId)>, v: int) {
    forall i :: 0 <= i < |cases| ==> cases[i].0 != v
  }

  lemma DistinctCases<M(!new)>(s: Setup<M>, cfg: Config<M>)
    requires Good(s, cfg) && AtTerm(s.prog, cfg.loc) && TermAt(s.prog, cfg.loc).Switch?
    ensures var cases := TermAt(s.prog, cfg.loc).cases;
            forall i, j :: 0 <= i < j < |cases| ==> cases[i].0 != cases[j].0
  {
    EdgesOk(s, cfg);
  }

  /** The models that select case `i` of a switch go to its block. */
  lemma CaseFollows<M(!new)>(s: Setup<M>, cfg: Config<M>, ms: set<M>, i: nat, cs: set<M>)
    requires AllFollow(s, cfg, ms) && AtTerm(s.prog, cfg.loc) && TermAt(s.prog, cfg.loc).Switch? && TermKnown(s, cfg)
    requires i < |TermAt(s.prog, cfg.loc).cases| && cs <= ms
    requires forall m :: m in cs ==>
               SEval(cfg, TermAt(s.prog, cfg.loc).scrutinee)(m) == TermAt(s.prog, cfg.loc).cases[i].0
    ensures AllFollow(s, Recorded(SJump(cfg, TermAt(s.prog, cfg.loc).cases[i].1)), cs)
  {
    EdgesOk(s, cfg);
    var term := TermAt(s.prog, cfg.loc);
    TargetOfCase(term.cases, term.defaultDest, i);
    AllFollowSubset(s, cfg, ms, cs);
    JumpAll(s, cfg, cs, term.cases[i].1);
  }

  /** The models that select no case of a switch go to its default block. */
  lemma DefaultFollows<M(!new)>(s: Setup<M>, cfg: Config<M>, ms: set<M>, cs: set<M>)
    requires AllFollow(s, cfg, ms) && AtTerm(s.prog, cfg.loc) && TermAt(s.prog, cfg.loc).Switch? && TermKnown(s, cfg)
    requires cs <= ms
    requires forall m :: m in cs ==>
               Unlisted(TermAt(s.prog, cfg.loc).cases, SEval(cfg, TermAt(s.prog, cfg.loc).scrutinee)(m))
    ensures AllFollow(s, Recorded(SJump(cfg, TermAt(s.prog, cfg.loc).defaultDest)), cs)
  {
    EdgesOk(s, cfg);
    var term := TermAt(s.prog, cfg.loc);
    forall m | m in cs
      ensures Destination(s, cfg, m) == term.defaultDest
    {
      TargetOfOther(term.cases, term.defaultDest, SEval(cfg, term.scrutinee)(m));
    }
    AllFollowSubset(s, cfg, ms, cs);
    JumpAll(s, cfg, cs, term.defaultDest);
  }

  /** `feasible` lists, in order, the cases that some model in `ms` selects. */
  ghost predicate ListsFeasible<M(!new)>(ms: set<M>, v: BV<M>, cases: seq<(int, BlockId)>, feasible: seq<nat>) {
    && (forall j :: 0 <= j < |feasible| ==> feasible[j] < |cases|)
    && (forall j, k :: 0 <= j < k < |feasible| ==> feasible[j] < feasible[k])
    && (forall j :: 0 <= j < |feasible| ==> Hits(ms, v, cases[feasible[j]].0))
    && (forall i, m :: 0 <= i < |cases| && m in ms && v(m) == cases[i].0 ==> i in feasible)
  }

  lemma FeasibleFacts<M(!new)>(ms: set<M>, v: BV<M>, cases: seq<(int, BlockId)>, feasible: seq<nat>)
    requires ListsFeasible(ms, v, cases, feasible)
    ensures forall j :: 0 <= j < |feasible| ==> feasible[j] < |cases|
    ensures feasible == [] ==> forall m :: m in ms ==> Unlisted(cases, v(m))
  {
  }

  /** `m` selects one of the feasible cases from the second up to the `k`-th. */
  ghost predicate SelectsOther<M>(v: BV<M>, cases: seq<(int, BlockId)>, feasible: seq<nat>, k: nat, m: M)
    requires k <= |feasible| && forall j :: 0 <= j < |feasible| ==> feasible[j] < |cases|
  {
    exists j :: 1 <= j < k && v(m) == cases[feasible[j]].0
  }

  /** With distinct cases, the first case, the other feasible ones and the default split the models. */
  lemma SwitchPartition<M(!new)>(ms: set<M>, v: BV<M>, cases: seq<(int, BlockId)>, feasible: seq<nat>,
                                 fs: set<M>, others: set<M>, ds: set<M>)
    requires forall i, j :: 0 <= i < j < |cases| ==> cases[i].0 != cases[j].0
    requires ListsFeasible(ms, v, cases, feasible) && feasible != []
    requires forall m :: m in fs <==> m in ms && v(m) == cases[feasible[0]].0
    requires forall m :: m in others <==> m in ms && SelectsOther(v, cases, feasible, |feasible|, m)
    requires forall m :: m in ds <==> m in ms && Unlisted(cases, v(m))
    ensures fs != {} && fs + (others + ds) == ms && fs !! others + ds && ds !! others
  {
    assert Hits(ms, v, cases[feasible[0]].0);
    forall m | m in ms
      ensures m in fs || m in others || m in ds
    {
      if m !in ds {
        var i :| 0 <= i < |cases| && cases[i].0 == v(m);
        assert i in feasible;
        var j :| 0 <= j < |feasible| && feasible[j] == i;
      }
    }
    forall m | m in others
      ensures m !in fs && m !in ds
    {
      var j :| 1 <= j < |feasible| && v(m) == cases[feasible[j]].0;
      assert feasible[0] < feasible[j];
    }
  }

  /** `ps1` is `ps` with the models `carved`, taken from `ms`, added to it. */
  ghost predicate Carved<M>(ms: set<M>, ps: seq<set<M>>, carved: set<M>, ps1: seq<set<M>>) {
    && carved <= ms
    && Union(ps1) == Union(ps) + carved
    && PendingCost(ps1) == PendingCost(ps) + 2 * |carved|
  }

  lemma CarveNone<M>(ms: set<M>, ps: seq<set<M>>)
    ensures Carved(ms, ps, {}, ps)
  {
  }

  lemma CarvedApart<M>(ms: set<M>, ps: seq<set<M>>, carved: set<M>, ps1: seq<set<M>>, cs: set<M>)
    requires Carved(ms, ps, carved, ps1) && cs <= ms && cs !! carved && ms !! Union(ps)
    ensures cs !! Union(ps1)
  {
  }

  lemma CarveMore<M>(ms: set<M>, ps: seq<set<M>>, carved: set<M>, ps1: seq<set<M>>, cs: set<M>)
    requires Carved(ms, ps, carved, ps1) && cs <= ms && cs !! carved
    ensures Carved(ms, ps, carved + cs, ps1 + [cs])
  {
    Appended(ps1, cs);
    DisjointCard(carved, cs);
  }

  lemma SplitMany<M>(ms: set<M>, fs: set<M>, carved: set<M>, ps: seq<set<M>>, ps1: seq<set<M>>)
    requires Carved(ms, ps, carved, ps1) && fs + carved == ms && fs !! carved && fs != {} && ms !! Union(ps)
    ensures fs + Union(ps1) == ms + Union(ps) && fs !! Union(ps1)
    ensures Cost(fs, ps1) == Cost(ms, ps)
  {
    DisjointCard(fs, carved);
  }
}
