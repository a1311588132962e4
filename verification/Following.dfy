/**
  The simulation, lifted from one model to the set of models that satisfy the current
  constraints: all of them are in the same place, and each instruction moves all of
  them one concrete step.
 */
module Following {
  import opened Wrappers
  import opened IR
  import opened Concrete
  import opened Simulation

  /** The state of the concrete run that `m` stands for, after `k` steps. */
  ghost function StateAt<M(!new)>(s: Setup<M>, m: M, k: nat): State {
    Steps(s.prog, s.maxVersion, s.init(m), k)
  }

  /** The values `first` choose an alternative that is tried before the one that `other` chooses. */
  ghost predicate Outranks(t: Terminator, first: map<Name, int>, other: map<Name, int>) {
    match t
    case CondBr(cond, _, _) => Eval(first, cond) != 0 && Eval(other, cond) == 0
    case Switch(op, cases, _) => exists i :: 0 <= i < |cases| && cases[i].0 == Eval(first, op) && NoneUpTo(cases, i, Eval(other, op))
    case _ => false
  }

  predicate NoneUpTo(cases: seq<(int, BlockId)>, i: nat, v: int)
    requires i < |cases|
  {
    forall j :: 0 <= j <= i ==> cases[j].0 != v
  }

  /** After `k` steps with the same history, `first` goes another way than `m`, and one that is tried before. */
  ghost predicate OvertakenBy<M(!new)>(s: Setup<M>, first: M, m: M, k: nat) {
    var c, c' := StateAt(s, m, k), StateAt(s, first, k);
    && c.Running? && c'.Running? && c.path == c'.path && c.frame.loc == c'.frame.loc
    && AtTerm(s.prog, c.frame.loc) && Outranks(TermAt(s.prog, c.frame.loc), c'.frame.locals, c.frame.locals)
  }

  ghost predicate Overtaken<M(!new)>(s: Setup<M>, m: M, k: nat) {
    exists first :: first in s.start && OvertakenBy(s, first, m, k)
  }

  ghost predicate AllOvertaken<M(!new)>(s: Setup<M>, ms: set<M>, k: nat) {
    forall m :: m in ms ==> Overtaken(s, m, k)
  }

  /** At least `d` calls are pending after each of the steps behind `from`, up to `to`. */
  ghost predicate DeepSince<M(!new)>(s: Setup<M>, m: M, d: nat, from: nat, to: nat) {
    forall t: nat :: from < t <= to ==> StateAt(s, m, t).Running? && |StateAt(s, m, t).stack| >= d
  }

  /** The run really is inside the calls of the stack, since the steps that the stack names, and it was
      overtaken where the latest revert turned. */
  ghost predicate History<M(!new)>(s: Setup<M>, cfg: Config<M>, m: M) {
    && (forall i :: 0 <= i < |cfg.stack| ==>
          cfg.stack[i].since < cfg.steps && DeepSince(s, m, i + 1, cfg.stack[i].since, cfg.steps))
    && (cfg.turned.Some? ==> cfg.turned.value < cfg.steps && Overtaken(s, m, cfg.turned.value))
  }

  /** The run of the initial model `m` is, after `cfg.steps` steps, in the state that `cfg` describes. */
  ghost predicate Follows<M(!new)>(s: Setup<M>, cfg: Config<M>, m: M)
    requires Good(s, cfg)
  {
    m in s.start && Sim(s, cfg, m, StateAt(s, m, cfg.steps)) && History(s, cfg, m)
  }

  lemma SimDepth<M>(s: Setup<M>, cfg: Config<M>, m: M, c: State)
    requires Good(s, cfg) && Sim(s, cfg, m, c)
    ensures c.Running? && |c.stack| == |cfg.stack| && c.frame.loc == cfg.loc && c.path == cfg.path
  {
  }

  /** One step further, with at most one new call. */
  lemma HistoryGrows<M(!new)>(s: Setup<M>, cfg: Config<M>, cfg': Config<M>, m: M)
    requires History(s, cfg, m) && cfg'.steps == cfg.steps + 1 && cfg'.turned == cfg.turned
    requires StateAt(s, m, cfg'.steps).Running? && |StateAt(s, m, cfg'.steps).stack| == |cfg'.stack|
    requires forall i :: 0 <= i < |cfg'.stack| ==>
               (i < |cfg.stack| && cfg'.stack[i] == cfg.stack[i]) || cfg'.stack[i].since == cfg.steps
    ensures History(s, cfg', m)
  {
    hide Overtaken, StateAt;
    forall i | 0 <= i < |cfg'.stack|
      ensures cfg'.stack[i].since < cfg'.steps && DeepSince(s, m, i + 1, cfg'.stack[i].since, cfg'.steps)
    {
      if i < |cfg.stack| && cfg'.stack[i] == cfg.stack[i] {
        assert DeepSince(s, m, i + 1, cfg.stack[i].since, cfg.steps);
      }
    }
  }

  ghost predicate AllFollow<M(!new)>(s: Setup<M>, cfg: Config<M>, ms: set<M>) {
    Good(s, cfg) && forall m :: m in ms ==> Follows(s, cfg, m)
  }

  ghost predicate FailsWith<M(!new)>(s: Setup<M>, m: M, e: Error) {
    Reaches(s.prog, s.maxVersion, s.init(m), Failed(e))
  }

  /** The run ends, after `j` steps, with the failed assignment of a call's result, and it was overtaken at
      a branch inside that call. */
  ghost predicate LostAt<M(!new)>(s: Setup<M>, m: M, j: nat, k: nat) {
    var c := StateAt(s, m, j);
    && k < j && Overtaken(s, m, k)
    && c.Running? && c.stack != [] && AtTerm(s.prog, c.frame.loc) && TermAt(s.prog, c.frame.loc).Ret?
    && DeepSince(s, m, |c.stack|, k, j)
    && StateAt(s, m, j + 1) == Failed(LoopBoundExceeded)
  }

  ghost predicate LostInReturn<M(!new)>(s: Setup<M>, m: M) {
    exists j: nat, k: nat :: LostAt(s, m, j, k)
  }

  /** The run of `m` ends in one of the errors `es`, or in one of those that are not reported. */
  ghost predicate Dropped<M(!new)>(s: Setup<M>, m: M, es: set<Error>) {
    FailsWith(s, m, AssumptionViolated) || LostInReturn(s, m) || exists e :: e in es && FailsWith(s, m, e)
  }

  ghost predicate AllDropped<M(!new)>(s: Setup<M>, ms: set<M>, es: set<Error>) {
    forall m :: m in ms ==> Dropped(s, m, es)
  }

  lemma DroppedFails<M(!new)>(s: Setup<M>, m: M, es: set<Error>) returns (e: Error)
    requires Dropped(s, m, es)
    ensures FailsWith(s, m, e)
    ensures e == AssumptionViolated || (LostInReturn(s, m) && e == LoopBoundExceeded) || e in es
  {
    if FailsWith(s, m, AssumptionViolated) {
      e := AssumptionViolated;
    } else if LostInReturn(s, m) {
      var j: nat, k: nat :| LostAt(s, m, j, k);
      e := LoopBoundExceeded;
      assert StateAt(s, m, j + 1) == Failed(e);
    } else {
      e :| e in es && FailsWith(s, m, e);
    }
  }

  ghost predicate AllFailWith<M(!new)>(s: Setup<M>, ms: set<M>, e: Error) {
    forall m :: m in ms ==> FailsWith(s, m, e)
  }

  ghost predicate SomeFailsWith<M(!new)>(s: Setup<M>, ms: set<M>, e: Error) {
    exists m :: m in ms && FailsWith(s, m, e)
  }

  /** There is an initial model, and no initial model's run violates an assumption.  Then the models of a
      path never run out. */
  ghost predicate Alive<M(!new)>(s: Setup<M>) {
    s.start != {} && forall m :: m in s.start ==> !FailsWith(s, m, AssumptionViolated)
  }

  /** The reason for finiteness is a valid one. */
  ghost predicate Bounded<M(!new)>(s: Setup<M>) {
    match s.bound
    case ByRank(rank) => Ranked(s.prog, rank)
    case BySteps(n) => Alive(s) && forall m :: m in s.start ==> !StateAt(s, m, n).Running?
  }

  /** The configuration lies before the end of every run. */
  ghost predicate InTime<M>(s: Setup<M>, cfg: Config<M>) {
    s.bound.BySteps? ==> cfg.steps < s.bound.steps
  }

  lemma FollowInTime<M(!new)>(s: Setup<M>, cfg: Config<M>, ms: set<M>)
    requires Bounded(s) && AllFollow(s, cfg, ms) && (Alive(s) ==> ms != {})
    ensures InTime(s, cfg)
  {
    if s.bound.BySteps? && s.bound.steps <= cfg.steps {
      var m :| m in ms;
      assert Follows(s, cfg, m);
      HaltedStays(s.prog, s.maxVersion, s.init(m), s.bound.steps, cfg.steps);
      assert false;
    }
  }

  lemma SomeFail<M(!new)>(s: Setup<M>, ms: set<M>, whole: set<M>, e: Error)
    requires AllFailWith(s, ms, e) && ms <= whole
    ensures AllDropped(s, ms, {e})
    ensures e == AssumptionViolated ==> AllDropped(s, ms, {})
    ensures ms != {} ==> SomeFailsWith(s, whole, e)
  {
    if ms != {} {
      var m :| m in ms;
      assert FailsWith(s, m, e);
    }
  }

  lemma SomeFailGrows<M(!new)>(s: Setup<M>, part: set<M>, whole: set<M>, e: Error)
    requires part <= whole
    ensures SomeFailsWith(s, part, e) ==> SomeFailsWith(s, whole, e)
  {
  }

  /** The run of `m` returns `v` from the top-level function. */
  ghost predicate Returns<M(!new)>(s: Setup<M>, m: M, v: Option<int>) {
    Reaches(s.prog, s.maxVersion, s.init(m), Returned(v))
  }

  ghost predicate AllReturn<M(!new)>(s: Setup<M>, ms: set<M>, v: Option<BV<M>>) {
    forall m :: m in ms ==> Returns(s, m, At(v, m))
  }

  /** A failing run returns nothing, and a returning run returns one value. */
  lemma OutcomesExclusive<M(!new)>(s: Setup<M>, m: M, v: Option<int>)
    requires Returns(s, m, v)
    ensures forall e :: !FailsWith(s, m, e)
    ensures forall w :: Returns(s, m, w) ==> w == v
  {
    forall e
      ensures !FailsWith(s, m, e)
    {
      if FailsWith(s, m, e) {
        OutcomeUnique(s.prog, s.maxVersion, s.init(m), Returned(v), Failed(e));
      }
    }
    forall w | Returns(s, m, w)
      ensures w == v
    {
      OutcomeUnique(s.prog, s.maxVersion, s.init(m), Returned(v), Returned(w));
    }
  }

  lemma FollowsOn<M(!new)>(s: Setup<M>, cfg: Config<M>, cfg': Config<M>, m: M)
    requires Good(s, cfg) && Good(s, cfg') && Follows(s, cfg, m) && cfg'.steps == cfg.steps + 1 && cfg'.turned == cfg.turned
    requires Sim(s, cfg', m, StateAt(s, m, cfg'.steps))
    requires forall i :: 0 <= i < |cfg'.stack| ==>
               (i < |cfg.stack| && cfg'.stack[i] == cfg.stack[i]) || cfg'.stack[i].since == cfg.steps
    ensures Follows(s, cfg', m)
  {
    hide Good, Sim, StateAt, History;
    SimDepth(s, cfg', m, StateAt(s, m, cfg'.steps));
    HistoryGrows(s, cfg, cfg', m);
  }

  lemma OneStepMore<M(!new)>(s: Setup<M>, m: M, k: nat)
    ensures StateAt(s, m, k + 1) == Step(s.prog, s.maxVersion, StateAt(s, m, k))
    ensures StateAt(s, m, k + 1).Failed? ==> FailsWith(s, m, StateAt(s, m, k + 1).error)
  {
  }

  lemma ExecutedSteps<M>(s: Setup<M>, cfg: Config<M>)
    requires AtInstr(s.prog, cfg.loc) && !InstrAt(s.prog, cfg.loc).Call? && OperandsKnown(s.prog, cfg)
    ensures Executed(s, cfg).Ok? ==>
              var cfg' := Executed(s, cfg).value;
              cfg'.steps == cfg.steps + 1 && cfg'.turned == cfg.turned && cfg'.stack == cfg.stack
  {
  }

  lemma EnteredSteps<M>(s: Setup<M>, cfg: Config<M>)
    requires AtInstr(s.prog, cfg.loc) && InstrAt(s.prog, cfg.loc).Call? && OperandsKnown(s.prog, cfg)
    ensures Entered(s, cfg).Ok? ==>
              var cfg' := Recorded(Entered(s, cfg).value);
              cfg'.steps == cfg.steps + 1 && cfg'.turned == cfg.turned && cfg'.stack == PushFrame(cfg).stack
  {
    var i := InstrAt(s.prog, cfg.loc);
    if Entered(s, cfg).Ok? {
      BindAllKeeps(AtEntry(cfg, i.callee), s.maxVersion, s.prog[i.callee].params, SEvalAll(cfg, i.args));
    }
  }

  /** An instruction that stays in its function. */
  lemma ExecutedAll<M(!new)>(s: Setup<M>, cfg: Config<M>, ms: set<M>)
    requires AllFollow(s, cfg, ms) && AtInstr(s.prog, cfg.loc) && !InstrAt(s.prog, cfg.loc).Call?
    ensures OperandsKnown(s.prog, cfg)
    ensures Executed(s, cfg).Err? ==> AllFailWith(s, ms, Executed(s, cfg).error)
    ensures Executed(s, cfg).Ok? ==>
              && AllFollow(s, Executed(s, cfg).value, set m | m in ms && Permits(s, cfg, m))
              && AllFailWith(s, (set m | m in ms && !Permits(s, cfg, m)), AssumptionViolated)
  {
    hide Good, Sim, Step, StateAt, FailsWith, Executed, Permits, OperandsKnown, History;
    ExecutedGood(s, cfg);
    ExecutedSteps(s, cfg);
    forall m | m in ms
      ensures Executed(s, cfg).Err? ==> FailsWith(s, m, Executed(s, cfg).error)
      ensures Executed(s, cfg).Ok? && Permits(s, cfg, m) ==> Follows(s, Executed(s, cfg).value, m)
      ensures Executed(s, cfg).Ok? && !Permits(s, cfg, m) ==> FailsWith(s, m, AssumptionViolated)
    {
      assert Follows(s, cfg, m);
      OneStepMore(s, m, cfg.steps);
      ExecutedSim(s, cfg, m, StateAt(s, m, cfg.steps));
      if Executed(s, cfg).Ok? && Permits(s, cfg, m) {
        FollowsOn(s, cfg, Executed(s, cfg).value, m);
      }
    }
  }

  /** A call instruction, up to the entry of the callee. */
  lemma EnteredAll<M(!new)>(s: Setup<M>, cfg: Config<M>, ms: set<M>)
    requires AllFollow(s, cfg, ms) && AtInstr(s.prog, cfg.loc) && InstrAt(s.prog, cfg.loc).Call?
    ensures OperandsKnown(s.prog, cfg)
    ensures Entered(s, cfg).Err? ==> AllFailWith(s, ms, Entered(s, cfg).error)
    ensures Entered(s, cfg).Ok? ==> AllFollow(s, Recorded(Entered(s, cfg).value), ms)
  {
    hide Good, Sim, Step, StateAt, FailsWith, Entered, OperandsKnown, Recorded, History;
    EnteredGood(s, cfg);
    EnteredSteps(s, cfg);
    forall m | m in ms
      ensures Entered(s, cfg).Err? ==> FailsWith(s, m, Entered(s, cfg).error)
      ensures Entered(s, cfg).Ok? ==> Follows(s, Recorded(Entered(s, cfg).value), m)
    {
      assert Follows(s, cfg, m);
      OneStepMore(s, m, cfg.steps);
      EnteredSim(s, cfg, m, StateAt(s, m, cfg.steps));
      if Entered(s, cfg).Ok? {
        FollowsOn(s, cfg, Recorded(Entered(s, cfg).value), m);
      }
    }
  }

  lemma AfterReturnSteps<M>(s: Setup<M>, cfg: Config<M>)
    requires Good(s, cfg) && AtReturn(s, cfg) && cfg.stack != []
    ensures var cfg' := AfterReturn(s, cfg);
            cfg'.steps == cfg.steps + 1 && cfg'.turned == cfg.turned && cfg'.stack == cfg.stack[..|cfg.stack| - 1]
  {
  }

  /** A return to a caller. */
  lemma AfterReturnAll<M(!new)>(s: Setup<M>, cfg: Config<M>, ms: set<M>)
    requires AllFollow(s, cfg, ms) && AtReturn(s, cfg) && cfg.stack != []
    ensures !CanReturn(s, cfg) ==> AllFailWith(s, ms, LoopBoundExceeded)
    ensures CanReturn(s, cfg) ==> AllFollow(s, AfterReturn(s, cfg), ms)
  {
    hide Good, Sim, Step, StateAt, FailsWith, AfterReturn, CanReturn, AtReturn, History;
    AfterReturnGood(s, cfg);
    AfterReturnSteps(s, cfg);
    forall m | m in ms
      ensures !CanReturn(s, cfg) ==> FailsWith(s, m, LoopBoundExceeded)
      ensures CanReturn(s, cfg) ==> Follows(s, AfterReturn(s, cfg), m)
    {
      assert Follows(s, cfg, m);
      OneStepMore(s, m, cfg.steps);
      AfterReturnSim(s, cfg, m, StateAt(s, m, cfg.steps));
      if CanReturn(s, cfg) {
        FollowsOn(s, cfg, AfterReturn(s, cfg), m);
      }
    }
  }

  /** A return from the top-level function. */
  lemma FinalReturnAll<M(!new)>(s: Setup<M>, cfg: Config<M>, ms: set<M>)
    requires AllFollow(s, cfg, ms) && AtReturn(s, cfg) && cfg.stack == []
    ensures TermAt(s.prog, cfg.loc).value.Some? ==> OperandKnown(cfg, TermAt(s.prog, cfg.loc).value.value)
    ensures AllReturn(s, ms, ReturnValue(s, cfg))
  {
    GoodReturn(s, cfg);
    forall m | m in ms
      ensures Returns(s, m, At(ReturnValue(s, cfg), m))
    {
      var c := StateAt(s, m, cfg.steps);
      OneStepMore(s, m, cfg.steps);
      ReturnValueAgrees(s, cfg, m, c);
    }
  }

  /** The block that control goes to under model `m`. */
  ghost function Destination<M>(s: Setup<M>, cfg: Config<M>, m: M): BlockId
    requires AtTerm(s.prog, cfg.loc) && TermKnown(s, cfg)
    requires !TermAt(s.prog, cfg.loc).Ret? && !TermAt(s.prog, cfg.loc).Unreachable?
  {
    match TermAt(s.prog, cfg.loc)
    case Br(t) => t
    case CondBr(cond, t, e) => if SEval(cfg, cond)(m) != 0 then t else e
    case Switch(op, cases, d) => Target(cases, d, SEval(cfg, op)(m))
  }

  ghost predicate TermKnown<M>(s: Setup<M>, cfg: Config<M>)
    requires AtTerm(s.prog, cfg.loc)
  {
    match TermAt(s.prog, cfg.loc)
    case CondBr(cond, _, _) => OperandKnown(cfg, cond)
    case Switch(op, _, _) => OperandKnown(cfg, op)
    case _ => true
  }

  lemma GoodTermKnown<M>(s: Setup<M>, cfg: Config<M>)
    requires Good(s, cfg) && AtTerm(s.prog, cfg.loc)
    ensures TermKnown(s, cfg)
  {
    assert WellFormedFunction(s.prog, s.live, cfg.loc.func);
    assert WellFormedTerm(s.prog, s.live, cfg.loc.func, cfg.loc.block);
  }

  lemma {:induction false} TargetListed(cases: seq<(int, BlockId)>, d: BlockId, v: int)
    ensures Target(cases, d, v) == d || exists i :: 0 <= i < |cases| && cases[i] == (v, Target(cases, d, v))
  {
    if cases != [] && cases[0].0 != v {
      TargetListed(cases[1..], d, v);
      if Target(cases, d, v) != d {
        var i :| 0 <= i < |cases[1..]| && cases[1..][i] == (v, Target(cases[1..], d, v));
        assert cases[i + 1] == (v, Target(cases, d, v));
      }
    } else if cases != [] {
      assert cases[0] == (v, Target(cases, d, v));
    }
  }

  /** With distinct cases, the target of a listed value is the block listed with it. */
  lemma {:induction false} TargetOfCase(cases: seq<(int, BlockId)>, d: BlockId, i: nat)
    requires i < |cases| && forall j, k :: 0 <= j < k < |cases| ==> cases[j].0 != cases[k].0
    ensures Target(cases, d, cases[i].0) == cases[i].1
  {
    if i > 0 {
      TargetOfCase(cases[1..], d, i - 1);
    }
  }

  lemma {:induction false} TargetOfOther(cases: seq<(int, BlockId)>, d: BlockId, v: int)
    requires forall i :: 0 <= i < |cases| ==> cases[i].0 != v
    ensures Target(cases, d, v) == d
  {
    if cases != [] {
      TargetOfOther(cases[1..], d, v);
    }
  }

  lemma StepIsJump<M>(s: Setup<M>, cfg: Config<M>, m: M, c: State)
    requires Good(s, cfg) && AtTerm(s.prog, cfg.loc) && Sim(s, cfg, m, c)
    requires !TermAt(s.prog, cfg.loc).Ret? && !TermAt(s.prog, cfg.loc).Unreachable?
    ensures TermKnown(s, cfg)
    ensures Step(s.prog, s.maxVersion, c) == Jump(c, Destination(s, cfg, m))
    ensures WellFormedEdge(s.prog, s.live, cfg.loc.func, cfg.loc.block, Destination(s, cfg, m))
  {
    GoodTermKnown(s, cfg);
    assert WellFormedFunction(s.prog, s.live, cfg.loc.func);
    assert WellFormedTerm(s.prog, s.live, cfg.loc.func, cfg.loc.block);
    var ds := DefinedAt(s.prog, s.live, cfg.loc);
    match TermAt(s.prog, cfg.loc)
    case Br(_) =>
    case CondBr(cond, _, _) => EvalAgrees(s, cfg, m, c, cond, ds);
    case Switch(op, cases, d) =>
      EvalAgrees(s, cfg, m, c, op, ds);
      TargetListed(cases, d, SEval(cfg, op)(m));
  }

  /** The models that all go to block `b` reach it together. */
  lemma JumpAll<M(!new)>(s: Setup<M>, cfg: Config<M>, ms: set<M>, b: BlockId)
    requires AllFollow(s, cfg, ms) && AtTerm(s.prog, cfg.loc) && TermKnown(s, cfg)
    requires !TermAt(s.prog, cfg.loc).Ret? && !TermAt(s.prog, cfg.loc).Unreachable?
    requires WellFormedEdge(s.prog, s.live, cfg.loc.func, cfg.loc.block, b)
    requires forall m :: m in ms ==> Destination(s, cfg, m) == b
    ensures AllFollow(s, Recorded(SJump(cfg, b)), ms)
  {
    hide Good, Sim, Step, StateAt, History, Destination, TermKnown, WellFormedEdge, Jump;
    JumpGood(s, cfg, b);
    forall m | m in ms
      ensures Follows(s, Recorded(SJump(cfg, b)), m)
    {
      assert Follows(s, cfg, m);
      var c := StateAt(s, m, cfg.steps);
      OneStepMore(s, m, cfg.steps);
      StepIsJump(s, cfg, m, c);
      JumpSim(s, cfg, m, c, b);
      FollowsOn(s, cfg, Recorded(SJump(cfg, b)), m);
    }
  }

  lemma UnreachableAll<M(!new)>(s: Setup<M>, cfg: Config<M>, ms: set<M>)
    requires AllFollow(s, cfg, ms) && AtTerm(s.prog, cfg.loc) && TermAt(s.prog, cfg.loc).Unreachable?
    ensures AllFailWith(s, ms, UnreachableInstruction)
  {
    hide StepInstr, StackOk, SimStack, SimPrev, PredecessorLogged, WellFormed;
    forall m | m in ms
      ensures FailsWith(s, m, UnreachableInstruction)
    {
      var c := StateAt(s, m, cfg.steps);
      OneStepMore(s, m, cfg.steps);
      assert Step(s.prog, s.maxVersion, c) == Failed(UnreachableInstruction);
    }
  }

  lemma AllFollowSubset<M(!new)>(s: Setup<M>, cfg: Config<M>, ms: set<M>, sub: set<M>)
    requires AllFollow(s, cfg, ms) && sub <= ms
    ensures AllFollow(s, cfg, sub)
  {
  }

  lemma FollowGood<M(!new)>(s: Setup<M>, cfg: Config<M>, ms: set<M>)
    requires AllFollow(s, cfg, ms)
    ensures Good(s, cfg)
  {
  }

  lemma GoodValid<M(!new)>(s: Setup<M>, cfg: Config<M>, ms: set<M>)
    requires AllFollow(s, cfg, ms)
    ensures ValidLoc(s.prog, cfg.loc)
  {
  }

  /* ---------- What a revert knows ---------- */

  /** The latest revert turned inside all the calls of the stack. */
  ghost predicate TurnedInside<M>(cfg: Config<M>) {
    cfg.turned.Some? && forall i :: 0 <= i < |cfg.stack| ==> cfg.stack[i].since <= cfg.turned.value
  }

  /** When the result of a resumed call cannot be assigned, the models are lost in the return. */
  lemma ReturnLost<M(!new)>(s: Setup<M>, cfg: Config<M>, ms: set<M>)
    requires AllFollow(s, cfg, ms) && AtReturn(s, cfg) && cfg.stack != [] && !CanReturn(s, cfg) && TurnedInside(cfg)
    ensures AllDropped(s, ms, {})
  {
    hide Good, Sim, Step, StateAt, FailsWith, CanReturn, Overtaken;
    forall m | m in ms
      ensures LostInReturn(s, m)
    {
      assert Follows(s, cfg, m);
      var c, j, k := StateAt(s, m, cfg.steps), cfg.steps, cfg.turned.value;
      OneStepMore(s, m, j);
      SimDepth(s, cfg, m, c);
      AfterReturnSim(s, cfg, m, c);
      var n := |cfg.stack| - 1;
      assert DeepSince(s, m, n + 1, cfg.stack[n].since, j);
      assert LostAt(s, m, j, k);
    }
  }

  /** The models on one side of a branch are overtaken by any model on a side that is tried before. */
  lemma BranchOvertakes<M(!new)>(s: Setup<M>, cfg: Config<M>, ms: set<M>, first: M, m: M)
    requires AllFollow(s, cfg, ms) && first in ms && m in ms && AtTerm(s.prog, cfg.loc) && TermKnown(s, cfg)
    requires match TermAt(s.prog, cfg.loc)
             case CondBr(cond, _, _) => SEval(cfg, cond)(first) != 0 && SEval(cfg, cond)(m) == 0
             case Switch(op, cases, _) =>
               exists i :: 0 <= i < |cases| && cases[i].0 == SEval(cfg, op)(first) && NoneUpTo(cases, i, SEval(cfg, op)(m))
             case _ => false
    ensures Overtaken(s, m, cfg.steps)
  {
    hide StackOk, SimStack, SimPrev, PredecessorLogged, StateAt, NoneUpTo;
    assert Follows(s, cfg, first) && Follows(s, cfg, m);
    assert WellFormedFunction(s.prog, s.live, cfg.loc.func);
    assert WellFormedTerm(s.prog, s.live, cfg.loc.func, cfg.loc.block);
    var ds := DefinedAt(s.prog, s.live, cfg.loc);
    var t := TermAt(s.prog, cfg.loc);
    var op := if t.CondBr? then t.cond else t.scrutinee;
    EvalAgrees(s, cfg, first, StateAt(s, first, cfg.steps), op, ds);
    EvalAgrees(s, cfg, m, StateAt(s, m, cfg.steps), op, ds);
    assert OvertakenBy(s, first, m, cfg.steps);
  }
}
