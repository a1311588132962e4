/**
  The pending work of a depth-first search: the saved backtrack points, the models each of
  them stands for, and what is known about the models that are no longer pending.
 */
module Agenda {
  import opened Wrappers
  import opened IR
  import opened Concrete
  import opened VarMapModel
  import opened Simulation
  import opened Following

  /** A place where execution can be resumed.  Only the length of the path is saved.  `held` and
      `models` record the whole configuration and the constraints at the time of the save. */
  datatype BacktrackPoint<!M> = BacktrackPoint(loc: Loc, stack: seq<StackFrame<M>>, constraint: M -> bool,
                                               varmap: VarMap<M>, mem: M -> Memory, pathLen: nat,
                                               ghost held: Config<M>, ghost models: set<M>)

  ghost function Saved<M>(cfg: Config<M>, b: BlockId, constraint: M -> bool, models: set<M>): BacktrackPoint<M> {
    BacktrackPoint(Loc(cfg.loc.func, b, 0), cfg.stack, constraint, cfg.vm, cfg.mem, |cfg.path|, cfg, models)
  }

  /** The configuration that a revert to `bp` produces when the current path is `path`. */
  ghost function Reverted<M>(bp: BacktrackPoint<M>, path: seq<Loc>): Config<M>
    requires bp.pathLen <= |path|
  {
    Config(bp.loc, bp.varmap, bp.mem, bp.stack, path[..bp.pathLen], bp.held.steps + 1, Some(bp.held.steps))
  }

  /** `cfg` about to enter block `b`, where a revert turned. */
  ghost function Resumed<M>(cfg: Config<M>, b: BlockId): Config<M> {
    SJump(cfg, b).(turned := Some(cfg.steps))
  }

  /** The point still holds what was saved, and the path has only grown since. */
  ghost predicate Keeps<M>(bp: BacktrackPoint<M>, path: seq<Loc>) {
    bp == Saved(bp.held, bp.loc.block, bp.constraint, bp.models) && bp.held.path <= path
  }

  /** Reverting then yields the configuration of the save: its variable map, memory, call stack and
      path, about to enter the saved block. */
  lemma RevertRestoresSave<M>(bp: BacktrackPoint<M>, path: seq<Loc>)
    requires Keeps(bp, path)
    ensures bp.pathLen <= |path| && Reverted(bp, path) == Resumed(bp.held, bp.loc.block)
  {
    assert path[..|bp.held.path|] == bp.held.path;
  }

  /* ---------- Families of model sets ---------- */

  ghost function Union<M>(ps: seq<set<M>>): set<M> {
    if ps == [] then {} else Union(ps[..|ps| - 1]) + ps[|ps| - 1]
  }

  /** Non-empty and pairwise disjoint. */
  ghost predicate Apart<M>(ps: seq<set<M>>) {
    ps != [] ==>
      && ps[|ps| - 1] != {}
      && ps[|ps| - 1] !! Union(ps[..|ps| - 1])
      && Apart(ps[..|ps| - 1])
  }

  /** The models that are still to be explored, counted so that both dropping a finished path
      and resuming a pending one makes the number smaller. */
  ghost function PendingCost<M>(ps: seq<set<M>>): nat {
    if ps == [] then 0 else PendingCost(ps[..|ps| - 1]) + 2 * |ps[|ps| - 1]|
  }

  ghost function Cost<M>(current: set<M>, ps: seq<set<M>>): nat {
    (if current == {} then 0 else 2 * |current| - 1) + PendingCost(ps)
  }

  lemma Appended<M>(ps: seq<set<M>>, ms: set<M>)
    ensures (ps + [ms])[..|ps|] == ps
    ensures Union(ps + [ms]) == Union(ps) + ms
    ensures PendingCost(ps + [ms]) == PendingCost(ps) + 2 * |ms|
    ensures Apart(ps + [ms]) <==> Apart(ps) && ms != {} && ms !! Union(ps)
  {
    assert (ps + [ms])[..|ps|] == ps;
  }

  lemma DisjointCard<M>(a: set<M>, b: set<M>)
    requires a !! b
    ensures |a + b| == |a| + |b|
  {
  }

  /* ---------- Accounting ---------- */

  /** Of the models in `whole`, those in `current` and those pending are apart, and every other
      one has a run that ends in one of the errors `es`, or in one that is not reported. */
  ghost predicate Accounted<M(!new)>(s: Setup<M>, whole: set<M>, current: set<M>, ps: seq<set<M>>, es: set<Error>) {
    && current + Union(ps) <= whole
    && current !! Union(ps)
    && AllDropped(s, whole - current - Union(ps), es)
  }

  lemma AccountedSelf<M(!new)>(s: Setup<M>, current: set<M>, ps: seq<set<M>>)
    requires current !! Union(ps)
    ensures Accounted(s, current + Union(ps), current, ps, {})
  {
  }

  lemma AccountedWithin<M(!new)>(s: Setup<M>, whole: set<M>, current: set<M>, ps: seq<set<M>>, es: set<Error>)
    requires Accounted(s, whole, current, ps, es)
    ensures current <= whole && current + Union(ps) <= whole && current !! Union(ps)
  {
  }

  lemma DroppedMore<M(!new)>(s: Setup<M>, ms: set<M>, es: set<Error>, es': set<Error>)
    requires AllDropped(s, ms, es) && es <= es'
    ensures AllDropped(s, ms, es')
  {
    forall m | m in ms
      ensures Dropped(s, m, es')
    {
      assert Dropped(s, m, es);
    }
  }

  lemma AccountedMore<M(!new)>(s: Setup<M>, whole: set<M>, current: set<M>, ps: seq<set<M>>, es: set<Error>, es': set<Error>)
    requires Accounted(s, whole, current, ps, es) && es <= es'
    ensures Accounted(s, whole, current, ps, es')
  {
    DroppedMore(s, whole - current - Union(ps), es, es');
  }

  lemma AccountedTransitive<M(!new)>(s: Setup<M>, w0: set<M>, c1: set<M>, ps1: seq<set<M>>, c2: set<M>, ps2: seq<set<M>>, es: set<Error>)
    requires Accounted(s, w0, c1, ps1, {}) && Accounted(s, c1 + Union(ps1), c2, ps2, es)
    ensures Accounted(s, w0, c2, ps2, es)
  {
    hide Dropped;
    DroppedMore(s, w0 - c1 - Union(ps1), {}, es);
    forall m | m in w0 - c2 - Union(ps2)
      ensures Dropped(s, m, es)
    {
      if m in c1 + Union(ps1) {
        assert m in c1 + Union(ps1) - c2 - Union(ps2);
      } else {
        assert m in w0 - c1 - Union(ps1);
      }
    }
  }

  /** The current path is dead: only the pending models are left. */
  lemma DropCurrent<M(!new)>(s: Setup<M>, whole: set<M>, current: set<M>, ps: seq<set<M>>, es: set<Error>)
    requires Accounted(s, whole, current, ps, {}) && AllDropped(s, current, es)
    ensures Accounted(s, whole, {}, ps, es)
  {
    hide Dropped;
    DroppedMore(s, whole - current - Union(ps), {}, es);
    forall m | m in whole - {} - Union(ps)
      ensures Dropped(s, m, es)
    {
      if m !in current {
        assert m in whole - current - Union(ps);
      }
    }
  }

  /** Some of the current models have been found to fail. */
  lemma Narrow<M(!new)>(s: Setup<M>, whole: set<M>, current: set<M>, ps: seq<set<M>>, kept: set<M>)
    requires Accounted(s, whole, current, ps, {}) && kept <= current && AllDropped(s, current - kept, {})
    ensures Accounted(s, whole, kept, ps, {})
    ensures Cost(kept, ps) <= Cost(current, ps)
  {
    hide Dropped;
    forall m | m in whole - kept - Union(ps)
      ensures Dropped(s, m, {})
    {
      if m in current {
        assert m in current - kept;
      } else {
        assert m in whole - current - Union(ps);
      }
    }
    DisjointCard(kept, current - kept);
    assert kept + (current - kept) == current;
  }

  /* ---------- Backtrack points ---------- */

  ghost predicate PointOk<M(!new)>(s: Setup<M>, bp: BacktrackPoint<M>, ms: set<M>, path: seq<Loc>) {
    && Keeps(bp, path)
    && bp.pathLen <= |path|
    && AllFollow(s, Recorded(Reverted(bp, path)), ms)
  }

  /** Every pending point resumes, for all the models it stands for, where their runs are. */
  ghost predicate AgendaOk<M(!new)>(s: Setup<M>, bps: seq<BacktrackPoint<M>>, ps: seq<set<M>>, path: seq<Loc>) {
    && |bps| == |ps|
    && Apart(ps)
    && (forall i :: 0 <= i < |bps| ==> PointOk(s, bps[i], ps[i], path))
    && (forall i, j :: 0 <= i < j < |bps| ==> bps[i].pathLen <= bps[j].pathLen)
  }

  lemma AgendaPathGrows<M(!new)>(s: Setup<M>, bps: seq<BacktrackPoint<M>>, ps: seq<set<M>>, path: seq<Loc>, path': seq<Loc>)
    requires AgendaOk(s, bps, ps, path) && path <= path'
    ensures AgendaOk(s, bps, ps, path')
  {
    hide AllFollow, Apart;
    forall i | 0 <= i < |bps|
      ensures PointOk(s, bps[i], ps[i], path')
    {
      assert PointOk(s, bps[i], ps[i], path);
      assert path'[..bps[i].pathLen] == path[..bps[i].pathLen];
    }
  }

  lemma ResumedFollow<M(!new)>(s: Setup<M>, cfg: Config<M>, b: BlockId, ms: set<M>)
    requires AllFollow(s, Recorded(SJump(cfg, b)), ms) && AllOvertaken(s, ms, cfg.steps)
    ensures AllFollow(s, Recorded(Resumed(cfg, b)), ms)
  {
    hide Overtaken, DeepSince, StateAt;
    var c, c' := Recorded(SJump(cfg, b)), Recorded(Resumed(cfg, b));
    TurnedAside(s, c, c'.turned);
    forall m | m in ms
      ensures Follows(s, c', m)
    {
      assert Follows(s, c, m) && Overtaken(s, m, cfg.steps);
      TurnedAsideSim(s, c, c'.turned, m, StateAt(s, m, c.steps));
    }
  }

  lemma TurnedAside<M>(s: Setup<M>, cfg: Config<M>, turned: Option<nat>)
    requires Good(s, cfg)
    ensures Good(s, cfg.(turned := turned))
  {
    var cfg' := cfg.(turned := turned);
    forall i | 0 <= i < |cfg'.stack|
      ensures FrameOk(s, cfg'.vm, cfg'.stack[i], CalleeOf(cfg', i))
    {
      assert FrameOk(s, cfg.vm, cfg.stack[i], CalleeOf(cfg, i));
    }
  }

  lemma TurnedAsideSim<M>(s: Setup<M>, cfg: Config<M>, turned: Option<nat>, m: M, c: State)
    requires Good(s, cfg) && Good(s, cfg.(turned := turned)) && Sim(s, cfg, m, c)
    ensures Sim(s, cfg.(turned := turned), m, c)
  {
    SimStackSame(s, cfg, cfg.(turned := turned), m, c.stack);
  }

  lemma AgendaSave<M(!new)>(s: Setup<M>, bps: seq<BacktrackPoint<M>>, ps: seq<set<M>>, cfg: Config<M>,
                            b: BlockId, constraint: M -> bool, models: set<M>, ms: set<M>)
    requires AgendaOk(s, bps, ps, cfg.path) && ms != {} && ms !! Union(ps)
    requires AllFollow(s, Recorded(SJump(cfg, b)), ms) && AllOvertaken(s, ms, cfg.steps)
    ensures AgendaOk(s, bps + [Saved(cfg, b, constraint, models)], ps + [ms], cfg.path)
  {
    var bp := Saved(cfg, b, constraint, models);
    Appended(ps, ms);
    assert PointOk(s, bp, ms, cfg.path) by {
      RevertRestoresSave(bp, cfg.path);
      ResumedFollow(s, cfg, b, ms);
    }
    AgendaAppend(s, bps, ps, cfg.path, bp, ms);
  }

  lemma AgendaAppend<M(!new)>(s: Setup<M>, bps: seq<BacktrackPoint<M>>, ps: seq<set<M>>, path: seq<Loc>,
                              bp: BacktrackPoint<M>, ms: set<M>)
    requires AgendaOk(s, bps, ps, path) && PointOk(s, bp, ms, path) && Apart(ps + [ms])
    requires bp.pathLen == |path|
    ensures AgendaOk(s, bps + [bp], ps + [ms], path)
  {
    hide AllFollow, Apart;
    var bps', ps' := bps + [bp], ps + [ms];
    forall i | 0 <= i < |bps'|
      ensures PointOk(s, bps'[i], ps'[i], path)
    {
      if i < |bps| {
        assert PointOk(s, bps[i], ps[i], path);
        assert bps'[i] == bps[i] && ps'[i] == ps[i];
      }
    }
    forall i, j | 0 <= i < j < |bps'|
      ensures bps'[i].pathLen <= bps'[j].pathLen
    {
      assert bps'[i] == bps[i] && PointOk(s, bps[i], ps[i], path);
    }
  }

  lemma PointTurned<M(!new)>(s: Setup<M>, bp: BacktrackPoint<M>, ms: set<M>, path: seq<Loc>)
    requires PointOk(s, bp, ms, path) && ms != {}
    ensures TurnedInside(Reverted(bp, path))
  {
    hide Good, Sim, DeepSince;
    var m :| m in ms;
    assert Follows(s, Recorded(Reverted(bp, path)), m);
  }

  /** Popping the latest point: the rest of the agenda survives the truncation of the path. */
  lemma AgendaRevert<M(!new)>(s: Setup<M>, bps: seq<BacktrackPoint<M>>, ps: seq<set<M>>, path: seq<Loc>)
    requires AgendaOk(s, bps, ps, path) && bps != []
    ensures var n := |bps| - 1;
            && bps[n].pathLen <= |path|
            && AgendaOk(s, bps[..n], ps[..n], path[..bps[n].pathLen])
            && Keeps(bps[n], path)
            && AllFollow(s, Recorded(Reverted(bps[n], path)), ps[n])
            && TurnedInside(Reverted(bps[n], path))
            && ps[n] != {} && ps[n] !! Union(ps[..n])
            && Union(ps) == Union(ps[..n]) + ps[n]
            && Cost(ps[n], ps[..n]) < PendingCost(ps)
  {
    hide AllFollow;
    var n := |bps| - 1;
    assert PointOk(s, bps[n], ps[n], path);
    PointTurned(s, bps[n], ps[n], path);
    var path' := path[..bps[n].pathLen];
    forall i | 0 <= i < n
      ensures PointOk(s, bps[..n][i], ps[..n][i], path')
    {
      assert PointOk(s, bps[i], ps[i], path);
      assert path'[..bps[i].pathLen] == path[..bps[i].pathLen];
    }
  }

  /* ---------- The termination measure ---------- */

  /** A bound on the moves before a name gets a new version: from the current location, and then
      from behind each suspended call.  Where the length of runs is bounded, the steps that are left. */
  ghost function Weight<M>(s: Setup<M>, cfg: Config<M>): (w: nat)
    ensures w > 0
  {
    match s.bound
    case ByRank(rank) => 1 + rank(cfg.loc) + StackWeight(rank, cfg.stack)
    case BySteps(n) => if cfg.steps <= n then 1 + n - cfg.steps else 1
  }

  ghost function StackWeight<M>(rank: Rank, stack: seq<StackFrame<M>>): nat {
    if stack == [] then 0
    else StackWeight(rank, stack[..|stack| - 1]) + rank(Inc(stack[|stack| - 1].loc))
  }

  ghost function Slots<M>(s: Setup<M>, cfg: Config<M>): set<(Key, nat)> {
    if s.bound.BySteps? then NoSlots() else Unused(AllKeys(s.prog), s.maxVersion, cfg.vm.versions)
  }

  ghost function NoSlots(): set<(Key, nat)> {
    {}
  }

  /** `cfg'` has less left to do on its path than `cfg`. */
  ghost predicate Shorter<M>(s: Setup<M>, cfg': Config<M>, cfg: Config<M>) {
    Slots(s, cfg') < Slots(s, cfg) || (Slots(s, cfg') == Slots(s, cfg) && Weight(s, cfg') < Weight(s, cfg))
  }

  ghost predicate NoLonger<M>(s: Setup<M>, cfg': Config<M>, cfg: Config<M>) {
    Slots(s, cfg') < Slots(s, cfg) || (Slots(s, cfg') == Slots(s, cfg) && Weight(s, cfg') <= Weight(s, cfg))
  }

  lemma RecordedSame<M>(s: Setup<M>, cfg: Config<M>)
    ensures Slots(s, Recorded(cfg)) == Slots(s, cfg) && Weight(s, Recorded(cfg)) == Weight(s, cfg)
  {
  }

  lemma BindShrinks<M>(s: Setup<M>, cfg: Config<M>, x: Name, bv: BV<M>)
    requires s.bound.ByRank? && (cfg.loc.func, x) in AllKeys(s.prog) && CanBind(cfg, s.maxVersion, x)
    ensures Slots(s, SBind(cfg, x, bv)) < Slots(s, cfg)
  {
    UnusedShrinks(AllKeys(s.prog), s.maxVersion, cfg.vm.versions, (cfg.loc.func, x));
  }

  lemma ExecutedShorter<M(!new)>(s: Setup<M>, cfg: Config<M>)
    requires Bounded(s) && InTime(s, cfg) && AtInstr(s.prog, cfg.loc) && !InstrAt(s.prog, cfg.loc).Call? && OperandsKnown(s.prog, cfg)
    ensures Executed(s, cfg).Ok? ==> Shorter(s, Executed(s, cfg).value, cfg)
  {
    var i := InstrAt(s.prog, cfg.loc);
    if Executed(s, cfg).Ok? && s.bound.ByRank? {
      if i.Assigns() {
        DestInAllKeys(s.prog, cfg.loc, i.dest);
        BindShrinks(s, cfg, i.dest, ResultOf(s.prog, cfg).value);
      } else {
        assert RankedInstr(s.prog, s.bound.rank, cfg.loc);
      }
    }
  }

  lemma {:induction false} BindAllShrinks<M>(s: Setup<M>, cfg: Config<M>, xs: seq<Name>, bvs: seq<BV<M>>)
    requires s.bound.ByRank? && |xs| == |bvs| && forall x :: x in xs ==> (cfg.loc.func, x) in AllKeys(s.prog)
    ensures var r := SBindAll(cfg, s.maxVersion, xs, bvs);
            r.Some? ==> Slots(s, r.value) <= Slots(s, cfg) && (xs != [] ==> Slots(s, r.value) < Slots(s, cfg))
    decreases |xs|
  {
    if xs != [] && CanBind(cfg, s.maxVersion, xs[0]) {
      BindShrinks(s, cfg, xs[0], bvs[0]);
      BindAllShrinks(s, SBind(cfg, xs[0], bvs[0]), xs[1..], bvs[1..]);
    }
  }

  lemma EnteredShorter<M(!new)>(s: Setup<M>, cfg: Config<M>)
    requires Bounded(s) && InTime(s, cfg) && AtInstr(s.prog, cfg.loc) && InstrAt(s.prog, cfg.loc).Call? && OperandsKnown(s.prog, cfg)
    ensures Entered(s, cfg).Ok? ==> Shorter(s, Entered(s, cfg).value, cfg)
  {
    if Entered(s, cfg).Ok? {
      var i := InstrAt(s.prog, cfg.loc);
      var e, cfg' := AtEntry(cfg, i.callee), Entered(s, cfg).value;
      BindAllKeeps(e, s.maxVersion, s.prog[i.callee].params, SEvalAll(cfg, i.args));
      if s.bound.BySteps? {
        return;
      }
      assert forall x :: x in s.prog[i.callee].params ==> x in FunctionNames(s.prog[i.callee]);
      BindAllShrinks(s, e, s.prog[i.callee].params, SEvalAll(cfg, i.args));
      assert RankedInstr(s.prog, s.bound.rank, cfg.loc);
      assert cfg'.stack[..|cfg'.stack| - 1] == cfg.stack;
    }
  }

  lemma AfterReturnShorter<M(!new)>(s: Setup<M>, cfg: Config<M>)
    requires Bounded(s) && InTime(s, cfg) && Good(s, cfg) && AtReturn(s, cfg) && cfg.stack != [] && CanReturn(s, cfg)
    ensures Shorter(s, AfterReturn(s, cfg), cfg)
  {
    hide Unused, WellFormed, PredecessorLogged, AllKeys;
    GoodReturn(s, cfg);
    var fr := cfg.stack[|cfg.stack| - 1];
    var popped := Recorded(SAdvance(PopFrame(cfg)));
    assert FrameOk(s, cfg.vm, fr, CalleeOf(cfg, |cfg.stack| - 1));
    assert s.bound.ByRank? ==> RankedTerm(s.prog, s.bound.rank, cfg.loc);
    assert Weight(s, popped) < Weight(s, cfg) && Slots(s, popped) == Slots(s, cfg);
    if CallerResult(s, cfg).Some? && s.bound.ByRank? {
      DestInAllKeys(s.prog, fr.loc, CallerResult(s, cfg).value);
      BindShrinks(s, popped, CallerResult(s, cfg).value, ReturnValue(s, cfg).value);
    }
  }

  lemma JumpShorter<M(!new)>(s: Setup<M>, cfg: Config<M>, b: BlockId)
    requires Bounded(s) && InTime(s, cfg) && AtTerm(s.prog, cfg.loc)
    requires IsTarget(TermAt(s.prog, cfg.loc), b)
    ensures Shorter(s, SJump(cfg, b), cfg)
  {
    assert s.bound.ByRank? ==> RankedTerm(s.prog, s.bound.rank, cfg.loc);
  }
}
