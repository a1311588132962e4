/**
  Symbolic configurations, the effect of each instruction on them, and the proof that
  each effect simulates one step of the concrete machine under every model.
 */
module Simulation {
  import opened Wrappers
  import opened IR
  import opened Concrete
  import opened VarMapModel

  type BV<!M> = M -> int

  /** A call that has not returned: the call instruction, the caller's locals, and how many machine
      steps came before the call. */
  datatype StackFrame<!M> = StackFrame(loc: Loc, restore: map<Name, BV<M>>, ghost since: nat)

  /** `steps` counts the machine steps that lead to the configuration.  `turned` counts those that led
      to the branch of the latest revert. */
  datatype Config<!M> = Config(loc: Loc, vm: VarMap<M>, mem: M -> Memory,
                               stack: seq<StackFrame<M>>, path: seq<Loc>, ghost steps: nat, ghost turned: Option<nat>)

  /** Why every path is finite: control never goes round without giving a name a new version, or
      every run halts within a number of steps. */
  datatype Bound = ByRank(rank: Rank) | BySteps(steps: nat)

  /** Everything that stays fixed during one exploration.  `start` are the models of the initial
      constraints, and `init` gives the concrete initial state that each model stands for. */
  datatype Setup<!M> = Setup(prog: Program, maxVersion: nat, live: Liveness, bound: Bound, start: set<M>, init: M -> State)

  /* ---------- Symbolic effects ---------- */

  predicate OperandKnown<M>(cfg: Config<M>, op: Operand) {
    op.Local? ==> (cfg.loc.func, op.name) in cfg.vm.active
  }

  function SEval<M>(cfg: Config<M>, op: Operand): BV<M>
    requires OperandKnown(cfg, op)
  {
    match op
    case Const(v) => (m: M) => v
    case Local(x) => cfg.vm.active[(cfg.loc.func, x)]
  }

  function SEvalAll<M>(cfg: Config<M>, ops: seq<Operand>): (r: seq<BV<M>>)
    requires forall i :: 0 <= i < |ops| ==> OperandKnown(cfg, ops[i])
    ensures |r| == |ops|
    ensures forall i :: 0 <= i < |ops| ==> r[i] == SEval(cfg, ops[i])
  {
    seq(|ops|, i requires 0 <= i < |ops| => SEval(cfg, ops[i]))
  }

  function ValuesAt<M>(bvs: seq<BV<M>>, m: M): (r: seq<int>)
    ensures |r| == |bvs|
    ensures forall i :: 0 <= i < |bvs| ==> r[i] == bvs[i](m)
  {
    seq(|bvs|, i requires 0 <= i < |bvs| => bvs[i](m))
  }

  function Lift<M>(f: seq<int> -> int, bvs: seq<BV<M>>): BV<M> {
    m => f(ValuesAt(bvs, m))
  }

  function Fetched<M>(cfg: Config<M>, addr: BV<M>): BV<M> {
    m => Fetch(cfg.mem(m), addr(m))
  }

  function Stored<M>(cfg: Config<M>, addr: BV<M>, val: BV<M>): M -> Memory {
    m => cfg.mem(m)[addr(m) := val(m)]
  }

  predicate CanBind<M>(cfg: Config<M>, maxVersion: nat, x: Name) {
    NextVersion(cfg.vm.versions, (cfg.loc.func, x)) <= maxVersion
  }

  function SBind<M>(cfg: Config<M>, x: Name, bv: BV<M>): Config<M> {
    cfg.(vm := Assigned(cfg.vm, (cfg.loc.func, x), bv))
  }

  function SAdvance<M>(cfg: Config<M>): Config<M> {
    cfg.(loc := Inc(cfg.loc), steps := cfg.steps + 1)
  }

  function SJump<M>(cfg: Config<M>, b: BlockId): Config<M> {
    cfg.(loc := Loc(cfg.loc.func, b, 0), steps := cfg.steps + 1)
  }

  /** The configuration once `record_path_entry` has logged the current location. */
  function Recorded<M>(cfg: Config<M>): Config<M> {
    cfg.(path := cfg.path + [cfg.loc])
  }

  function PushFrame<M>(cfg: Config<M>): Config<M> {
    cfg.(stack := cfg.stack + [StackFrame(cfg.loc, RestoreInfo(cfg.vm, cfg.loc.func), cfg.steps)])
  }

  /** The configuration in which the parameters of `callee` are assigned. */
  function AtEntry<M>(cfg: Config<M>, callee: FuncName): Config<M> {
    PushFrame(cfg).(loc := Loc(callee, 0, 0), steps := cfg.steps + 1)
  }

  function SBindAll<M>(cfg: Config<M>, maxVersion: nat, xs: seq<Name>, bvs: seq<BV<M>>): Option<Config<M>>
    requires |xs| == |bvs|
    decreases |xs|
  {
    if xs == [] then Some(cfg)
    else if !CanBind(cfg, maxVersion, xs[0]) then None
    else SBindAll(SBind(cfg, xs[0], bvs[0]), maxVersion, xs[1..], bvs[1..])
  }

  /** The caller's configuration after its callee has returned, at the call instruction. */
  function PopFrame<M>(cfg: Config<M>): Config<M>
    requires cfg.stack != []
    requires RestorableFrame(cfg.vm, cfg.stack[|cfg.stack| - 1])
  {
    var fr := cfg.stack[|cfg.stack| - 1];
    cfg.(loc := fr.loc, vm := Restored(cfg.vm, fr.loc.func, fr.restore), stack := cfg.stack[..|cfg.stack| - 1])
  }

  ghost predicate RestorableFrame<M>(vm: VarMap<M>, fr: StackFrame<M>) {
    forall x :: x in fr.restore ==> (fr.loc.func, x) in vm.active
  }

  /** How native recursion finishes a call: move on, log the location, assign the result. */
  function NativeReturn<M>(cfg: Config<M>, res: Option<Name>, v: Option<BV<M>>): Config<M>
    requires cfg.stack != [] && RestorableFrame(cfg.vm, cfg.stack[|cfg.stack| - 1])
    requires res.Some? ==> v.Some?
  {
    var c := Recorded(SAdvance(PopFrame(cfg)));
    if res.Some? then SBind(c, res.value, v.value) else c
  }

  /** How the saved call stack finishes a call after a revert: assign the result, move on, and
      log the location when execution resumes there. */
  function ResumedReturn<M>(cfg: Config<M>, res: Option<Name>, v: Option<BV<M>>): Config<M>
    requires cfg.stack != [] && RestorableFrame(cfg.vm, cfg.stack[|cfg.stack| - 1])
    requires res.Some? ==> v.Some?
  {
    var c := PopFrame(cfg);
    Recorded(SAdvance(if res.Some? then SBind(c, res.value, v.value) else c))
  }

  /* ---------- Invariants of a configuration ---------- */

  ghost predicate Covers<M>(active: map<Key, BV<M>>, f: FuncName, ds: set<Name>) {
    forall x :: x in ds ==> (f, x) in active
  }

  /** A saved frame denotes a call of `callee` whose caller's locals can be restored. */
  ghost predicate FrameOk<M>(s: Setup<M>, vm: VarMap<M>, fr: StackFrame<M>, callee: FuncName) {
    && AtInstr(s.prog, fr.loc)
    && InstrAt(s.prog, fr.loc).Call?
    && InstrAt(s.prog, fr.loc).callee == callee
    && callee in s.prog
    && DefinedAt(s.prog, s.live, fr.loc) <= fr.restore.Keys
    && RestorableFrame(vm, fr)
  }

  ghost function CalleeOf<M>(cfg: Config<M>, i: nat): FuncName
    requires i < |cfg.stack|
  {
    if i + 1 < |cfg.stack| then cfg.stack[i + 1].loc.func else cfg.loc.func
  }

  ghost predicate StackOk<M>(s: Setup<M>, cfg: Config<M>) {
    forall i :: 0 <= i < |cfg.stack| ==> FrameOk(s, cfg.vm, cfg.stack[i], CalleeOf(cfg, i))
  }

  /** The block that the path says control came from. */
  ghost predicate PredecessorLogged<M>(s: Setup<M>, cfg: Config<M>)
    requires ValidLoc(s.prog, cfg.loc)
  {
    && |cfg.path| >= 2
    && cfg.path[|cfg.path| - 2].func == cfg.loc.func
    && ValidBlock(s.prog, cfg.loc.func, cfg.path[|cfg.path| - 2].block)
    && Covers(cfg.vm.active, cfg.loc.func,
              DefinedOut(s.prog, s.live, cfg.loc.func, cfg.path[|cfg.path| - 2].block))
  }

  /** True of every configuration the engine executes an instruction in. */
  ghost predicate Good<M>(s: Setup<M>, cfg: Config<M>) {
    && WellFormed(s.prog, s.live)
    && ValidLoc(s.prog, cfg.loc)
    && Covers(cfg.vm.active, cfg.loc.func, DefinedAt(s.prog, s.live, cfg.loc))
    && cfg.path != []
    && cfg.path[|cfg.path| - 1].func == cfg.loc.func
    && cfg.path[|cfg.path| - 1].block == cfg.loc.block
    && (InPhiPrefix(s.prog, cfg.loc) && cfg.loc.block != 0 ==> PredecessorLogged(s, cfg))
    && StackOk(s, cfg)
  }

  /* ---------- The simulation relation ---------- */

  ghost predicate SimLocals<M>(active: map<Key, BV<M>>, f: FuncName, m: M, locals: map<Name, int>) {
    forall x :: x in locals ==> (f, x) in active && active[(f, x)](m) == locals[x]
  }

  ghost predicate SimFrame<M>(s: Setup<M>, fr: StackFrame<M>, m: M, cfr: Frame)
    requires ValidLoc(s.prog, fr.loc)
  {
    && fr.loc == cfr.loc
    && DefinedAt(s.prog, s.live, fr.loc) <= cfr.locals.Keys
    && (forall x :: x in cfr.locals ==> x in fr.restore && fr.restore[x](m) == cfr.locals[x])
  }

  /** The predecessor block of the running activation is the one that the path shows. */
  ghost predicate SimPrev<M>(s: Setup<M>, cfg: Config<M>, c: State)
    requires ValidLoc(s.prog, cfg.loc) && c.Running?
  {
    InPhiPrefix(s.prog, cfg.loc) && cfg.loc.block != 0 && PredecessorLogged(s, cfg) ==>
      && c.frame.prev == Some(cfg.path[|cfg.path| - 2].block)
      && DefinedOut(s.prog, s.live, cfg.loc.func, cfg.path[|cfg.path| - 2].block) <= c.frame.locals.Keys
  }

  ghost predicate SimStack<M>(s: Setup<M>, cfg: Config<M>, m: M, cstack: seq<Frame>)
    requires StackOk(s, cfg)
  {
    && |cfg.stack| == |cstack|
    && (forall i :: 0 <= i < |cstack| ==> SimFrame(s, cfg.stack[i], m, cstack[i]))
  }

  /** Under model `m`, the configuration stands for the concrete state `c`. */
  ghost predicate Sim<M>(s: Setup<M>, cfg: Config<M>, m: M, c: State)
    requires Good(s, cfg)
  {
    && c.Running?
    && c.frame.loc == cfg.loc
    && c.versions == cfg.vm.versions
    && c.path == cfg.path
    && c.mem == cfg.mem(m)
    && SimLocals(cfg.vm.active, cfg.loc.func, m, c.frame.locals)
    && DefinedAt(s.prog, s.live, cfg.loc) <= c.frame.locals.Keys
    && SimPrev(s, cfg, c)
    && SimStack(s, cfg, m, c.stack)
  }

  /* ---------- Evaluation agrees ---------- */

  lemma EvalAgrees<M>(s: Setup<M>, cfg: Config<M>, m: M, c: State, op: Operand, ds: set<Name>)
    requires Good(s, cfg) && Sim(s, cfg, m, c)
    requires Uses(op, ds) && ds <= c.frame.locals.Keys && Covers(cfg.vm.active, cfg.loc.func, ds)
    ensures OperandKnown(cfg, op) && SEval(cfg, op)(m) == Eval(c.frame.locals, op)
  {
  }

  lemma EvalAllAgrees<M>(s: Setup<M>, cfg: Config<M>, m: M, c: State, ops: seq<Operand>)
    requires Good(s, cfg) && Sim(s, cfg, m, c)
    requires forall i :: 0 <= i < |ops| ==> Uses(ops[i], DefinedAt(s.prog, s.live, cfg.loc))
    ensures forall i :: 0 <= i < |ops| ==> OperandKnown(cfg, ops[i])
    ensures ValuesAt(SEvalAll(cfg, ops), m) == EvalAll(c.frame.locals, ops)
  {
    forall i | 0 <= i < |ops|
      ensures OperandKnown(cfg, ops[i]) && SEval(cfg, ops[i])(m) == Eval(c.frame.locals, ops[i])
    {
      EvalAgrees(s, cfg, m, c, ops[i], DefinedAt(s.prog, s.live, cfg.loc));
    }
  }

  /* ---------- Binding and advancing ---------- */

  /** Assigning a name that the current instruction defines, then moving past it. */
  lemma BindGood<M>(s: Setup<M>, cfg: Config<M>, x: Name, bv: BV<M>)
    requires Good(s, cfg) && AtInstr(s.prog, cfg.loc)
    requires InstrAt(s.prog, cfg.loc).Dests() == {x} && InstrAt(s.prog, cfg.loc).Assigns()
    ensures Good(s, SAdvance(SBind(cfg, x, bv)))
  {
    hide StackOk, WellFormed;
    var cfg' := SAdvance(SBind(cfg, x, bv));
    assert DefinedAt(s.prog, s.live, cfg'.loc) == DefinedAt(s.prog, s.live, cfg.loc) + {x};
    if InPhiPrefix(s.prog, cfg'.loc) && cfg'.loc.block != 0 {
      assert InPhiPrefix(s.prog, cfg.loc);
    }
    assert StackOk(s, cfg') by { StackOkGrows(s, cfg, cfg'); }
  }

  /** The stack invariant only needs the set of active keys to grow. */
  lemma StackOkGrows<M>(s: Setup<M>, cfg: Config<M>, cfg': Config<M>)
    requires StackOk(s, cfg) && cfg'.stack == cfg.stack && cfg'.loc.func == cfg.loc.func
    requires cfg.vm.active.Keys <= cfg'.vm.active.Keys
    ensures StackOk(s, cfg')
  {
    forall i | 0 <= i < |cfg'.stack|
      ensures FrameOk(s, cfg'.vm, cfg'.stack[i], CalleeOf(cfg', i))
    {
      assert FrameOk(s, cfg.vm, cfg.stack[i], CalleeOf(cfg, i));
    }
  }

  lemma BindSim<M>(s: Setup<M>, cfg: Config<M>, m: M, c: State, x: Name, bv: BV<M>)
    requires Good(s, cfg) && Sim(s, cfg, m, c) && AtInstr(s.prog, cfg.loc)
    requires InstrAt(s.prog, cfg.loc).Dests() == {x} && InstrAt(s.prog, cfg.loc).Assigns()
    requires CanBind(cfg, s.maxVersion, x)
    ensures Good(s, SAdvance(SBind(cfg, x, bv)))
    ensures Sim(s, SAdvance(SBind(cfg, x, bv)), m, Advance(Bind(c, s.maxVersion, x, bv(m))))
  {
    hide StackOk, SimStack, WellFormed, PredecessorLogged, SimLocals;
    BindGood(s, cfg, x, bv);
    BindKeepsSimLocals(cfg.vm.active, cfg.loc.func, m, c.frame.locals, x, bv);
    var cfg', c' := SAdvance(SBind(cfg, x, bv)), Advance(Bind(c, s.maxVersion, x, bv(m)));
    assert DefinedAt(s.prog, s.live, cfg'.loc) == DefinedAt(s.prog, s.live, cfg.loc) + {x};
    if InPhiPrefix(s.prog, cfg'.loc) && cfg'.loc.block != 0 {
      assert InPhiPrefix(s.prog, cfg.loc);
    }
    SimStackSame(s, cfg, cfg', m, c.stack);
  }

  lemma SimStackSame<M>(s: Setup<M>, cfg: Config<M>, cfg': Config<M>, m: M, cstack: seq<Frame>)
    requires StackOk(s, cfg) && StackOk(s, cfg') && SimStack(s, cfg, m, cstack) && cfg'.stack == cfg.stack
    ensures SimStack(s, cfg', m, cstack)
  {
    forall i | 0 <= i < |cstack|
      ensures ValidLoc(s.prog, cfg'.stack[i].loc) && SimFrame(s, cfg'.stack[i], m, cstack[i])
    {
      assert FrameOk(s, cfg'.vm, cfg'.stack[i], CalleeOf(cfg', i));
      assert SimFrame(s, cfg.stack[i], m, cstack[i]);
    }
  }

  /* ---------- One instruction ---------- */

  /** The operands that the instruction at `cfg.loc` reads are all in the variable map, so no
      lookup panics. */
  ghost predicate OperandsKnown<M>(p: Program, cfg: Config<M>)
    requires AtInstr(p, cfg.loc)
  {
    match InstrAt(p, cfg.loc)
    case Pure(_, _, args) => forall i :: 0 <= i < |args| ==> OperandKnown(cfg, args[i])
    case Phi(_, incoming) =>
      && |cfg.path| >= 2
      && var op := Select(incoming, cfg.path[|cfg.path| - 2].block);
         op.Some? ==> OperandKnown(cfg, op.value)
    case Load(_, addr) => OperandKnown(cfg, addr)
    case Store(addr, val) => OperandKnown(cfg, addr) && OperandKnown(cfg, val)
    case Assume(cond) => OperandKnown(cfg, cond)
    case Call(_, _, args) => forall i :: 0 <= i < |args| ==> OperandKnown(cfg, args[i])
  }

  lemma {:induction false} SelectListed(incoming: seq<(Operand, BlockId)>, b: BlockId) returns (i: nat)
    requires Select(incoming, b).Some?
    ensures i < |incoming| && incoming[i] == (Select(incoming, b).value, b)
  {
    if incoming[0].1 == b {
      i := 0;
    } else {
      var j := SelectListed(incoming[1..], b);
      i := j + 1;
    }
  }

  /** Definition before use: in a good configuration every lookup succeeds. */
  lemma GoodOperandsKnown<M>(s: Setup<M>, cfg: Config<M>)
    requires Good(s, cfg) && AtInstr(s.prog, cfg.loc)
    ensures OperandsKnown(s.prog, cfg)
  {
    hide StackOk;
    assert WellFormedFunction(s.prog, s.live, cfg.loc.func);
    assert WellFormedInstr(s.prog, s.live, cfg.loc);
    match InstrAt(s.prog, cfg.loc)
    case Phi(_, incoming) =>
      var b := cfg.path[|cfg.path| - 2].block;
      if Select(incoming, b).Some? {
        var i := SelectListed(incoming, b);
      }
    case _ =>
  }

  /** The value an assigning instruction computes, or the error it raises. */
  function ResultOf<M>(p: Program, cfg: Config<M>): Result<BV<M>, Error>
    requires AtInstr(p, cfg.loc) && InstrAt(p, cfg.loc).Assigns() && OperandsKnown(p, cfg)
  {
    match InstrAt(p, cfg.loc)
    case Pure(_, f, args) => Ok(Lift(f, SEvalAll(cfg, args)))
    case Phi(_, incoming) =>
      (match Select(incoming, cfg.path[|cfg.path| - 2].block)
       case None => Err(NoPhiMember)
       case Some(op) => Ok(SEval(cfg, op)))
    case Load(_, addr) => Ok(Fetched(cfg, SEval(cfg, addr)))
  }

  /** The configuration after an instruction that stays in its function. */
  function Executed<M>(s: Setup<M>, cfg: Config<M>): Result<Config<M>, Error>
    requires AtInstr(s.prog, cfg.loc) && !InstrAt(s.prog, cfg.loc).Call? && OperandsKnown(s.prog, cfg)
  {
    var i := InstrAt(s.prog, cfg.loc);
    if i.Store? then Ok(SAdvance(cfg.(mem := Stored(cfg, SEval(cfg, i.addr), SEval(cfg, i.val)))))
    else if i.Assume? then Ok(SAdvance(cfg))
    else
      var r := ResultOf(s.prog, cfg);
      if r.Err? then Err(r.error)
      else if !CanBind(cfg, s.maxVersion, i.dest) then Err(LoopBoundExceeded)
      else Ok(SAdvance(SBind(cfg, i.dest, r.value)))
  }

  lemma AdvanceGood<M>(s: Setup<M>, cfg: Config<M>, mem: M -> Memory)
    requires Good(s, cfg) && AtInstr(s.prog, cfg.loc)
    requires InstrAt(s.prog, cfg.loc).Store? || InstrAt(s.prog, cfg.loc).Assume?
    ensures Good(s, SAdvance(cfg.(mem := mem)))
  {
    var cfg' := SAdvance(cfg.(mem := mem));
    assert DefinedAt(s.prog, s.live, cfg'.loc) == DefinedAt(s.prog, s.live, cfg.loc);
    assert !InPhiPrefix(s.prog, cfg'.loc) by {
      assert !BlockAt(s.prog, cfg'.loc).instrs[cfg.loc.pos].Phi?;
    }
    StackOkGrows(s, cfg, cfg');
  }

  lemma AdvanceSim<M>(s: Setup<M>, cfg: Config<M>, m: M, c: State, mem: M -> Memory)
    requires Good(s, cfg) && Sim(s, cfg, m, c) && AtInstr(s.prog, cfg.loc)
    requires InstrAt(s.prog, cfg.loc).Store? || InstrAt(s.prog, cfg.loc).Assume?
    ensures Good(s, SAdvance(cfg.(mem := mem)))
    ensures Sim(s, SAdvance(cfg.(mem := mem)), m, Advance(c.(mem := mem(m))))
  {
    hide StackOk, SimStack, WellFormed;
    AdvanceGood(s, cfg, mem);
    var cfg' := SAdvance(cfg.(mem := mem));
    assert !InPhiPrefix(s.prog, cfg'.loc) by {
      assert !BlockAt(s.prog, cfg'.loc).instrs[cfg.loc.pos].Phi?;
    }
    assert DefinedAt(s.prog, s.live, cfg'.loc) == DefinedAt(s.prog, s.live, cfg.loc);
    SimStackSame(s, cfg, cfg', m, c.stack);
  }

  lemma ExecutedGood<M>(s: Setup<M>, cfg: Config<M>)
    requires Good(s, cfg) && AtInstr(s.prog, cfg.loc) && !InstrAt(s.prog, cfg.loc).Call?
    ensures OperandsKnown(s.prog, cfg)
    ensures Executed(s, cfg).Ok? ==> Good(s, Executed(s, cfg).value)
  {
    GoodOperandsKnown(s, cfg);
    var i := InstrAt(s.prog, cfg.loc);
    if i.Store? {
      AdvanceGood(s, cfg, Stored(cfg, SEval(cfg, i.addr), SEval(cfg, i.val)));
    } else if i.Assume? {
      AdvanceGood(s, cfg, cfg.mem);
      assert cfg.(mem := cfg.mem) == cfg;
    } else if Executed(s, cfg).Ok? {
      BindGood(s, cfg, i.dest, ResultOf(s.prog, cfg).value);
    }
  }

  /** When a phi executes, the last path entry but one lies in the block, of the same function, that
      control just jumped from. */
  lemma PhiPredecessor<M>(s: Setup<M>, cfg: Config<M>, m: M, c: State)
    requires Good(s, cfg) && Sim(s, cfg, m, c) && AtInstr(s.prog, cfg.loc) && InstrAt(s.prog, cfg.loc).Phi?
    ensures |cfg.path| >= 2 && cfg.path[|cfg.path| - 2].func == cfg.loc.func
    ensures c.frame.prev == Some(cfg.path[|cfg.path| - 2].block)
  {
    hide StackOk, SimStack;
    assert WellFormedFunction(s.prog, s.live, cfg.loc.func);
    assert WellFormedInstr(s.prog, s.live, cfg.loc);
  }

  /** The symbolic result of an assigning instruction is its concrete result under every model,
      and it fails exactly when the concrete instruction fails. */
  lemma ResultAgrees<M>(s: Setup<M>, cfg: Config<M>, m: M, c: State)
    requires Good(s, cfg) && Sim(s, cfg, m, c) && AtInstr(s.prog, cfg.loc)
    requires InstrAt(s.prog, cfg.loc).Assigns()
    ensures OperandsKnown(s.prog, cfg)
    ensures var r := ResultOf(s.prog, cfg);
            StepInstr(s.prog, s.maxVersion, c)
            == if r.Err? then Failed(r.error)
               else Advance(Bind(c, s.maxVersion, InstrAt(s.prog, cfg.loc).dest, r.value(m)))
  {
    hide StackOk, SimStack;
    GoodOperandsKnown(s, cfg);
    assert WellFormedFunction(s.prog, s.live, cfg.loc.func);
    assert WellFormedInstr(s.prog, s.live, cfg.loc);
    var ds := DefinedAt(s.prog, s.live, cfg.loc);
    match InstrAt(s.prog, cfg.loc)
    case Pure(_, f, args) => EvalAllAgrees(s, cfg, m, c, args);
    case Load(_, addr) => EvalAgrees(s, cfg, m, c, addr, ds);
    case Phi(_, incoming) =>
      var b := cfg.path[|cfg.path| - 2].block;
      PhiPredecessor(s, cfg, m, c);
      if Select(incoming, b).Some? {
        var i := SelectListed(incoming, b);
        EvalAgrees(s, cfg, m, c, incoming[i].0, DefinedOut(s.prog, s.live, cfg.loc.func, b));
      }
  }

  /** The truth of an assumption under a model; true for other instructions. */
  predicate Permits<M>(s: Setup<M>, cfg: Config<M>, m: M)
    requires AtInstr(s.prog, cfg.loc) && OperandsKnown(s.prog, cfg)
  {
    match InstrAt(s.prog, cfg.loc)
    case Assume(cond) => SEval(cfg, cond)(m) != 0
    case _ => true
  }

  /** One instruction of the engine is one step of the machine, under every model. */
  lemma ExecutedSim<M>(s: Setup<M>, cfg: Config<M>, m: M, c: State)
    requires Good(s, cfg) && Sim(s, cfg, m, c) && AtInstr(s.prog, cfg.loc)
    requires !InstrAt(s.prog, cfg.loc).Call?
    ensures OperandsKnown(s.prog, cfg)
    ensures Executed(s, cfg).Ok? ==> Good(s, Executed(s, cfg).value)
    ensures var r, c' := Executed(s, cfg), Step(s.prog, s.maxVersion, c);
            if r.Err? then c' == Failed(r.error)
            else if Permits(s, cfg, m) then Sim(s, r.value, m, c')
            else c' == Failed(AssumptionViolated)
  {
    hide StackOk, SimStack, SimPrev, PredecessorLogged, SimLocals;
    ExecutedGood(s, cfg);
    assert WellFormedFunction(s.prog, s.live, cfg.loc.func);
    assert WellFormedInstr(s.prog, s.live, cfg.loc);
    var ds := DefinedAt(s.prog, s.live, cfg.loc);
    var i := InstrAt(s.prog, cfg.loc);
    if i.Store? {
      EvalAgrees(s, cfg, m, c, i.addr, ds);
      EvalAgrees(s, cfg, m, c, i.val, ds);
      AdvanceSim(s, cfg, m, c, Stored(cfg, SEval(cfg, i.addr), SEval(cfg, i.val)));
    } else if i.Assume? {
      EvalAgrees(s, cfg, m, c, i.cond, ds);
      AdvanceSim(s, cfg, m, c, cfg.mem);
      assert cfg.(mem := cfg.mem) == cfg && c.(mem := cfg.mem(m)) == c;
    } else {
      ResultAgrees(s, cfg, m, c);
      if Executed(s, cfg).Ok? {
        BindSim(s, cfg, m, c, i.dest, ResultOf(s.prog, cfg).value);
      }
    }
  }

  /* ---------- Calls ---------- */

  /** The configuration at the first block of the callee, with its parameters assigned and the
      location not yet logged. */
  function Entered<M>(s: Setup<M>, cfg: Config<M>): Result<Config<M>, Error>
    requires AtInstr(s.prog, cfg.loc) && InstrAt(s.prog, cfg.loc).Call? && OperandsKnown(s.prog, cfg)
  {
    var i := InstrAt(s.prog, cfg.loc);
    if i.callee !in s.prog then Err(FunctionNotFound)
    else if |i.args| != |s.prog[i.callee].params| then Err(MalformedInstruction)
    else
      match SBindAll(AtEntry(cfg, i.callee), s.maxVersion, s.prog[i.callee].params, SEvalAll(cfg, i.args))
      case None => Err(LoopBoundExceeded)
      case Some(cfg') => Ok(cfg')
  }

  /** What binding parameters keeps. */
  lemma {:induction false} BindAllKeeps<M>(cfg: Config<M>, maxVersion: nat, xs: seq<Name>, bvs: seq<BV<M>>)
    requires |xs| == |bvs|
    ensures var r := SBindAll(cfg, maxVersion, xs, bvs);
            r.Some? ==>
              && r.value.(vm := cfg.vm) == cfg
              && cfg.vm.active.Keys <= r.value.vm.active.Keys
              && (forall x :: x in xs ==> (cfg.loc.func, x) in r.value.vm.active)
    decreases |xs|
  {
    if xs != [] && CanBind(cfg, maxVersion, xs[0]) {
      var cfg1 := SBind(cfg, xs[0], bvs[0]);
      BindAllKeeps(cfg1, maxVersion, xs[1..], bvs[1..]);
      assert xs == [xs[0]] + xs[1..];
    }
  }

  lemma AtEntryStackOk<M>(s: Setup<M>, cfg: Config<M>)
    requires Good(s, cfg) && AtInstr(s.prog, cfg.loc) && InstrAt(s.prog, cfg.loc).Call?
    requires InstrAt(s.prog, cfg.loc).callee in s.prog
    ensures StackOk(s, AtEntry(cfg, InstrAt(s.prog, cfg.loc).callee))
  {
    var cfg' := AtEntry(cfg, InstrAt(s.prog, cfg.loc).callee);
    forall i | 0 <= i < |cfg'.stack|
      ensures FrameOk(s, cfg'.vm, cfg'.stack[i], CalleeOf(cfg', i))
    {
      if i < |cfg.stack| {
        assert FrameOk(s, cfg.vm, cfg.stack[i], CalleeOf(cfg, i));
      }
    }
  }

  lemma EntryGood<M>(s: Setup<M>, cfg: Config<M>, f: FuncName)
    requires WellFormed(s.prog, s.live) && StackOk(s, cfg) && f in s.prog && cfg.loc == Loc(f, 0, 0)
    requires cfg.path != [] && cfg.path[|cfg.path| - 1] == cfg.loc
    requires forall x :: x in s.prog[f].params ==> (f, x) in cfg.vm.active
    ensures Good(s, cfg)
  {
    hide StackOk;
    assert WellFormedFunction(s.prog, s.live, f);
  }

  lemma EnteredGood<M>(s: Setup<M>, cfg: Config<M>)
    requires Good(s, cfg) && AtInstr(s.prog, cfg.loc) && InstrAt(s.prog, cfg.loc).Call?
    ensures OperandsKnown(s.prog, cfg)
    ensures Entered(s, cfg).Ok? ==> Good(s, Recorded(Entered(s, cfg).value))
    ensures Entered(s, cfg).Ok? ==> Entered(s, cfg).value.stack == PushFrame(cfg).stack
    ensures Entered(s, cfg).Ok? ==> Entered(s, cfg).value.path == cfg.path
  {
    hide StackOk, PredecessorLogged, WellFormed, SEvalAll, RestoreInfo;
    GoodOperandsKnown(s, cfg);
    if Entered(s, cfg).Ok? {
      var i := InstrAt(s.prog, cfg.loc);
      var e, cfg' := AtEntry(cfg, i.callee), Entered(s, cfg).value;
      BindAllKeeps(e, s.maxVersion, s.prog[i.callee].params, SEvalAll(cfg, i.args));
      AtEntryStackOk(s, cfg);
      StackOkGrows(s, e, Recorded(cfg'));
      EntryGood(s, Recorded(cfg'), i.callee);
    }
  }

  /** Binding the parameters one after another agrees with the concrete machine. */
  lemma {:induction false} BindAllSim<M>(maxVersion: nat, cfg: Config<M>, m: M, c: State, xs: seq<Name>, bvs: seq<BV<M>>)
    requires |xs| == |bvs| && c.Running? && c.frame.loc == cfg.loc && c.versions == cfg.vm.versions
    requires SimLocals(cfg.vm.active, cfg.loc.func, m, c.frame.locals)
    ensures var r, c' := SBindAll(cfg, maxVersion, xs, bvs), BindAll(c, maxVersion, xs, ValuesAt(bvs, m));
            if r.None? then c' == Failed(LoopBoundExceeded)
            else
              && c'.Running?
              && c'.(frame := c.frame, versions := c.versions) == c
              && c'.frame.(locals := c.frame.locals) == c.frame
              && c'.versions == r.value.vm.versions
              && SimLocals(r.value.vm.active, cfg.loc.func, m, c'.frame.locals)
              && (forall x :: x in c.frame.locals || x in xs ==> x in c'.frame.locals)
    decreases |xs|
  {
    if xs != [] && CanBind(cfg, maxVersion, xs[0]) {
      var cfg1, c1 := SBind(cfg, xs[0], bvs[0]), Bind(c, maxVersion, xs[0], bvs[0](m));
      BindAllSim(maxVersion, cfg1, m, c1, xs[1..], bvs[1..]);
      assert ValuesAt(bvs, m)[1..] == ValuesAt(bvs[1..], m);
      assert xs == [xs[0]] + xs[1..];
    } else if xs != [] {
      assert !Bind(c, maxVersion, xs[0], bvs[0](m)).Running?;
    }
  }

  lemma EnteredSim<M>(s: Setup<M>, cfg: Config<M>, m: M, c: State)
    requires Good(s, cfg) && Sim(s, cfg, m, c) && AtInstr(s.prog, cfg.loc) && InstrAt(s.prog, cfg.loc).Call?
    ensures OperandsKnown(s.prog, cfg)
    ensures Entered(s, cfg).Ok? ==> Good(s, Recorded(Entered(s, cfg).value))
    ensures var r, c' := Entered(s, cfg), Step(s.prog, s.maxVersion, c);
            if r.Err? then c' == Failed(r.error) else Sim(s, Recorded(r.value), m, c')
  {
    EnteredGood(s, cfg);
    var i := InstrAt(s.prog, cfg.loc);
    assert WellFormedFunction(s.prog, s.live, cfg.loc.func);
    assert WellFormedInstr(s.prog, s.live, cfg.loc);
    EvalAllAgrees(s, cfg, m, c, i.args);
    if i.callee in s.prog && |i.args| == |s.prog[i.callee].params| {
      var l := Loc(i.callee, 0, 0);
      var e := AtEntry(cfg, i.callee);
      var c1 := c.(frame := Frame(l, None, map[]), stack := c.stack + [c.frame], path := c.path + [l]);
      BindAllSim(s.maxVersion, e, m, c1, s.prog[i.callee].params, SEvalAll(cfg, i.args));
      if Entered(s, cfg).Ok? {
        BindAllKeeps(e, s.maxVersion, s.prog[i.callee].params, SEvalAll(cfg, i.args));
        assert WellFormedFunction(s.prog, s.live, i.callee);
        EnteredSimStack(s, cfg, m, c, Recorded(Entered(s, cfg).value));
      }
    }
  }

  lemma EnteredSimStack<M>(s: Setup<M>, cfg: Config<M>, m: M, c: State, cfg': Config<M>)
    requires Good(s, cfg) && Sim(s, cfg, m, c) && AtInstr(s.prog, cfg.loc)
    requires StackOk(s, cfg') && cfg'.stack == PushFrame(cfg).stack
    ensures SimStack(s, cfg', m, c.stack + [c.frame])
  {
    var cstack := c.stack + [c.frame];
    forall i | 0 <= i < |cstack|
      ensures ValidLoc(s.prog, cfg'.stack[i].loc) && SimFrame(s, cfg'.stack[i], m, cstack[i])
    {
      assert FrameOk(s, cfg'.vm, cfg'.stack[i], CalleeOf(cfg', i));
      if i < |c.stack| {
        assert SimFrame(s, cfg.stack[i], m, c.stack[i]);
      }
    }
  }

  /* ---------- Returns ---------- */

  /** The two ways of finishing a call lead to the same caller configuration: same locals, same
      counters, same path, same continuation. */
  lemma ReturnMechanismsAgree<M>(cfg: Config<M>, res: Option<Name>, v: Option<BV<M>>)
    requires cfg.stack != [] && RestorableFrame(cfg.vm, cfg.stack[|cfg.stack| - 1])
    requires res.Some? ==> v.Some?
    ensures NativeReturn(cfg, res, v) == ResumedReturn(cfg, res, v)
  {
  }

  ghost predicate AtReturn<M>(s: Setup<M>, cfg: Config<M>) {
    AtTerm(s.prog, cfg.loc) && TermAt(s.prog, cfg.loc).Ret?
  }

  /** The value returned at `cfg.loc`. */
  function ReturnValue<M>(s: Setup<M>, cfg: Config<M>): Option<BV<M>>
    requires AtReturn(s, cfg)
    requires TermAt(s.prog, cfg.loc).value.Some? ==> OperandKnown(cfg, TermAt(s.prog, cfg.loc).value.value)
  {
    match TermAt(s.prog, cfg.loc).value
    case None => None
    case Some(op) => Some(SEval(cfg, op))
  }

  lemma GoodReturn<M>(s: Setup<M>, cfg: Config<M>)
    requires Good(s, cfg) && AtReturn(s, cfg)
    ensures TermAt(s.prog, cfg.loc).value.Some? ==> OperandKnown(cfg, TermAt(s.prog, cfg.loc).value.value)
    ensures ReturnValue(s, cfg).Some? == !s.prog[cfg.loc.func].isVoid
    ensures cfg.stack != [] ==>
              var fr := cfg.stack[|cfg.stack| - 1];
              && AtInstr(s.prog, fr.loc) && InstrAt(s.prog, fr.loc).Call?
              && RestorableFrame(cfg.vm, fr)
              && InstrAt(s.prog, fr.loc).res.Some? == ReturnValue(s, cfg).Some?
  {
    assert WellFormedFunction(s.prog, s.live, cfg.loc.func);
    assert WellFormedTerm(s.prog, s.live, cfg.loc.func, cfg.loc.block);
    if cfg.stack != [] {
      var n := |cfg.stack| - 1;
      assert FrameOk(s, cfg.vm, cfg.stack[n], CalleeOf(cfg, n));
      assert WellFormedFunction(s.prog, s.live, cfg.stack[n].loc.func);
      assert WellFormedInstr(s.prog, s.live, cfg.stack[n].loc);
    }
  }

  ghost function CallerResult<M>(s: Setup<M>, cfg: Config<M>): Option<Name>
    requires Good(s, cfg) && AtReturn(s, cfg) && cfg.stack != []
  {
    GoodReturn(s, cfg);
    InstrAt(s.prog, cfg.stack[|cfg.stack| - 1].loc).res
  }

  ghost predicate CanReturn<M>(s: Setup<M>, cfg: Config<M>)
    requires Good(s, cfg) && AtReturn(s, cfg) && cfg.stack != []
  {
    GoodReturn(s, cfg);
    CallerResult(s, cfg).Some? ==> CanBind(PopFrame(cfg), s.maxVersion, CallerResult(s, cfg).value)
  }

  ghost function AfterReturn<M>(s: Setup<M>, cfg: Config<M>): Config<M>
    requires Good(s, cfg) && AtReturn(s, cfg) && cfg.stack != []
  {
    GoodReturn(s, cfg);
    NativeReturn(cfg, CallerResult(s, cfg), ReturnValue(s, cfg))
  }

  lemma PoppedStackOk<M>(s: Setup<M>, cfg: Config<M>)
    requires StackOk(s, cfg) && cfg.stack != []
    ensures RestorableFrame(cfg.vm, cfg.stack[|cfg.stack| - 1])
    ensures StackOk(s, PopFrame(cfg))
  {
    var n := |cfg.stack| - 1;
    assert FrameOk(s, cfg.vm, cfg.stack[n], CalleeOf(cfg, n));
    var cfg' := PopFrame(cfg);
    forall i | 0 <= i < |cfg'.stack|
      ensures FrameOk(s, cfg'.vm, cfg'.stack[i], CalleeOf(cfg', i))
    {
      assert FrameOk(s, cfg.vm, cfg.stack[i], CalleeOf(cfg, i));
    }
  }

  /** The location after a call is not in a phi prefix, and the call's result is now defined. */
  lemma AfterCallLoc<M>(s: Setup<M>, l: Loc)
    requires AtInstr(s.prog, l) && InstrAt(s.prog, l).Call?
    ensures ValidLoc(s.prog, Inc(l)) && !InPhiPrefix(s.prog, Inc(l))
    ensures DefinedAt(s.prog, s.live, Inc(l)) == DefinedAt(s.prog, s.live, l) + InstrAt(s.prog, l).Dests()
  {
    assert !BlockAt(s.prog, Inc(l)).instrs[l.pos].Phi?;
  }

  lemma AfterReturnGood<M>(s: Setup<M>, cfg: Config<M>)
    requires Good(s, cfg) && AtReturn(s, cfg) && cfg.stack != []
    ensures Good(s, AfterReturn(s, cfg))
  {
    hide WellFormed;
    GoodReturn(s, cfg);
    PoppedStackOk(s, cfg);
    var n := |cfg.stack| - 1;
    var fr, popped, cfg' := cfg.stack[n], PopFrame(cfg), AfterReturn(s, cfg);
    assert FrameOk(s, cfg.vm, fr, CalleeOf(cfg, n));
    StackOkGrows(s, popped, cfg');
    AfterCallLoc(s, fr.loc);
    assert cfg'.loc == Inc(fr.loc) && cfg'.path == cfg.path + [Inc(fr.loc)];
    forall x | x in DefinedAt(s.prog, s.live, cfg'.loc)
      ensures (cfg'.loc.func, x) in cfg'.vm.active
    {
    }
  }

  /** The caller's concrete state just before the result of its call is assigned. */
  ghost function Unwound(c: State): State
    requires c.Running? && c.stack != []
  {
    var fr := c.stack[|c.stack| - 1];
    c.(frame := fr.(loc := Inc(fr.loc)), stack := c.stack[..|c.stack| - 1], path := c.path + [Inc(fr.loc)])
  }

  lemma StepIsUnwind<M>(s: Setup<M>, cfg: Config<M>, m: M, c: State)
    requires Good(s, cfg) && AtReturn(s, cfg) && cfg.stack != [] && Sim(s, cfg, m, c)
    ensures TermAt(s.prog, cfg.loc).value.Some? ==> OperandKnown(cfg, TermAt(s.prog, cfg.loc).value.value)
    ensures CallerResult(s, cfg).Some? == ReturnValue(s, cfg).Some?
    ensures Step(s.prog, s.maxVersion, c)
         == if CallerResult(s, cfg).Some?
            then Bind(Unwound(c), s.maxVersion, CallerResult(s, cfg).value, ReturnValue(s, cfg).value(m))
            else Unwound(c)
  {
    hide Step, PredecessorLogged, SimPrev, WellFormed;
    GoodReturn(s, cfg);
    ReturnValueAgrees(s, cfg, m, c);
    assert SimFrame(s, cfg.stack[|cfg.stack| - 1], m, c.stack[|cfg.stack| - 1]);
  }

  lemma SimFields<M>(s: Setup<M>, cfg: Config<M>, m: M, c: State)
    requires Good(s, cfg) && cfg.stack != [] && Sim(s, cfg, m, c)
    ensures c.Running? && |c.stack| == |cfg.stack| && c.versions == cfg.vm.versions && c.path == cfg.path
    ensures c.mem == cfg.mem(m)
    ensures var n := |cfg.stack| - 1;
            ValidLoc(s.prog, cfg.stack[n].loc) && SimFrame(s, cfg.stack[n], m, c.stack[n])
  {
    assert FrameOk(s, cfg.vm, cfg.stack[|cfg.stack| - 1], CalleeOf(cfg, |cfg.stack| - 1));
  }

  lemma ReturnedFields<M>(s: Setup<M>, cfg: Config<M>, m: M, c: State)
    requires Good(s, cfg) && AtReturn(s, cfg) && cfg.stack != [] && Sim(s, cfg, m, c)
    ensures var cfg', c' := AfterReturn(s, cfg), Step(s.prog, s.maxVersion, c);
            if !CanReturn(s, cfg) then c' == Failed(LoopBoundExceeded) else
              && c'.Running?
              && c'.frame.loc == cfg'.loc == Inc(cfg.stack[|cfg.stack| - 1].loc)
              && c'.versions == cfg'.vm.versions
              && c'.path == cfg'.path
              && c'.mem == cfg'.mem(m)
              && c'.stack == c.stack[..|c.stack| - 1]
  {
    hide Good, Sim, DefinedAt, RestorableFrame, Step, StackOk;
    SimFields(s, cfg, m, c);
    StepIsUnwind(s, cfg, m, c);
    GoodReturn(s, cfg);
  }

  lemma BindKeepsSimLocals<M>(active: map<Key, BV<M>>, f: FuncName, m: M, locals: map<Name, int>, x: Name, bv: BV<M>)
    requires SimLocals(active, f, m, locals)
    ensures SimLocals(active[(f, x) := bv], f, m, locals[x := bv(m)])
  {
  }

  /** Returning restores every local of the caller. */
  lemma ReturnedLocals<M>(s: Setup<M>, cfg: Config<M>, m: M, c: State)
    requires Good(s, cfg) && AtReturn(s, cfg) && cfg.stack != [] && Sim(s, cfg, m, c)
    requires CanReturn(s, cfg)
    ensures var cfg', c' := AfterReturn(s, cfg), Step(s.prog, s.maxVersion, c);
            && c'.Running? && ValidLoc(s.prog, cfg'.loc)
            && SimLocals(cfg'.vm.active, cfg'.loc.func, m, c'.frame.locals)
            && DefinedAt(s.prog, s.live, cfg'.loc) <= c'.frame.locals.Keys
  {
    hide Good, Sim, SimFrame, SimLocals, DefinedAt, RestorableFrame, Restored, Step, StackOk, CanReturn;
    var n := |cfg.stack| - 1;
    SimFields(s, cfg, m, c);
    StepIsUnwind(s, cfg, m, c);
    GoodReturn(s, cfg);
    AfterCallLoc(s, cfg.stack[n].loc);
    PoppedSimLocals(s, cfg, m, c.stack[n]);
    FrameDefined(s, cfg.stack[n], m, c.stack[n]);
    ReturnedFields(s, cfg, m, c);
    if CallerResult(s, cfg).Some? {
      BindKeepsSimLocals(PopFrame(cfg).vm.active, cfg.stack[n].loc.func, m, c.stack[n].locals,
                         CallerResult(s, cfg).value, ReturnValue(s, cfg).value);
    }
  }

  lemma FrameDefined<M>(s: Setup<M>, fr: StackFrame<M>, m: M, cfr: Frame)
    requires ValidLoc(s.prog, fr.loc) && SimFrame(s, fr, m, cfr)
    ensures cfr.loc == fr.loc && DefinedAt(s.prog, s.live, fr.loc) <= cfr.locals.Keys
  {
  }

  /** One return is one step of the machine. */
  lemma AfterReturnSim<M>(s: Setup<M>, cfg: Config<M>, m: M, c: State)
    requires Good(s, cfg) && AtReturn(s, cfg) && cfg.stack != [] && Sim(s, cfg, m, c)
    ensures Good(s, AfterReturn(s, cfg))
    ensures var c' := Step(s.prog, s.maxVersion, c);
            if CanReturn(s, cfg) then Sim(s, AfterReturn(s, cfg), m, c') else c' == Failed(LoopBoundExceeded)
  {
    AfterReturnGood(s, cfg);
    ReturnedFields(s, cfg, m, c);
    if CanReturn(s, cfg) {
      ReturnedLocals(s, cfg, m, c);
      ReturnedStack(s, cfg, m, c);
      var fr := cfg.stack[|cfg.stack| - 1];
      assert AtInstr(s.prog, fr.loc) && InstrAt(s.prog, fr.loc).Call? by { GoodReturn(s, cfg); }
      AfterCallLoc(s, fr.loc);
    }
  }

  lemma ReturnedStack<M>(s: Setup<M>, cfg: Config<M>, m: M, c: State)
    requires Good(s, cfg) && AtReturn(s, cfg) && cfg.stack != [] && Sim(s, cfg, m, c)
    requires StackOk(s, AfterReturn(s, cfg))
    ensures SimStack(s, AfterReturn(s, cfg), m, c.stack[..|c.stack| - 1])
  {
    PoppedStackOk(s, cfg);
    PoppedSimStack(s, cfg, m, c.stack);
    SimStackSame(s, PopFrame(cfg), AfterReturn(s, cfg), m, c.stack[..|c.stack| - 1]);
  }

  lemma PoppedSimStack<M>(s: Setup<M>, cfg: Config<M>, m: M, cstack: seq<Frame>)
    requires StackOk(s, cfg) && cfg.stack != [] && SimStack(s, cfg, m, cstack)
    requires RestorableFrame(cfg.vm, cfg.stack[|cfg.stack| - 1])
    ensures StackOk(s, PopFrame(cfg)) && SimStack(s, PopFrame(cfg), m, cstack[..|cstack| - 1])
  {
    PoppedStackOk(s, cfg);
    var cfg' := PopFrame(cfg);
    forall i | 0 <= i < |cstack| - 1
      ensures ValidLoc(s.prog, cfg'.stack[i].loc) && SimFrame(s, cfg'.stack[i], m, cstack[i])
    {
      assert FrameOk(s, cfg'.vm, cfg'.stack[i], CalleeOf(cfg', i));
      assert SimFrame(s, cfg.stack[i], m, cstack[i]);
    }
  }

  lemma PoppedSimLocals<M>(s: Setup<M>, cfg: Config<M>, m: M, cfr: Frame)
    requires cfg.stack != []
    requires var fr := cfg.stack[|cfg.stack| - 1];
             ValidLoc(s.prog, fr.loc) && RestorableFrame(cfg.vm, fr) && SimFrame(s, fr, m, cfr)
    ensures SimLocals(PopFrame(cfg).vm.active, PopFrame(cfg).loc.func, m, cfr.locals)
  {
  }

  ghost function At<M>(v: Option<BV<M>>, m: M): Option<int> {
    if v.Some? then Some(v.value(m)) else None
  }

  lemma ReturnValueAgrees<M>(s: Setup<M>, cfg: Config<M>, m: M, c: State)
    requires Good(s, cfg) && AtReturn(s, cfg) && Sim(s, cfg, m, c)
    ensures TermAt(s.prog, cfg.loc).value.Some? ==> OperandKnown(cfg, TermAt(s.prog, cfg.loc).value.value)
    ensures Step(s.prog, s.maxVersion, c) == Leave(c, s.maxVersion, s.prog, At(ReturnValue(s, cfg), m))
  {
    GoodReturn(s, cfg);
    assert WellFormedFunction(s.prog, s.live, cfg.loc.func);
    assert WellFormedTerm(s.prog, s.live, cfg.loc.func, cfg.loc.block);
    match TermAt(s.prog, cfg.loc).value
    case None =>
    case Some(op) => EvalAgrees(s, cfg, m, c, op, DefinedAt(s.prog, s.live, cfg.loc));
  }

  /* ---------- Jumps ---------- */

  lemma JumpGood<M>(s: Setup<M>, cfg: Config<M>, b: BlockId)
    requires Good(s, cfg) && AtTerm(s.prog, cfg.loc)
    requires WellFormedEdge(s.prog, s.live, cfg.loc.func, cfg.loc.block, b)
    ensures Good(s, Recorded(SJump(cfg, b)))
  {
    var cfg' := Recorded(SJump(cfg, b));
    assert cfg'.path[|cfg'.path| - 2] == cfg.path[|cfg.path| - 1];
    StackOkGrows(s, cfg, cfg');
  }

  /** A jump logs the block it leaves, which is what the next phi will look up. */
  lemma JumpSim<M>(s: Setup<M>, cfg: Config<M>, m: M, c: State, b: BlockId)
    requires Good(s, cfg) && AtTerm(s.prog, cfg.loc) && Sim(s, cfg, m, c)
    requires WellFormedEdge(s.prog, s.live, cfg.loc.func, cfg.loc.block, b)
    ensures Good(s, Recorded(SJump(cfg, b)))
    ensures Sim(s, Recorded(SJump(cfg, b)), m, Jump(c, b))
  {
    JumpGood(s, cfg, b);
    var cfg' := Recorded(SJump(cfg, b));
    assert cfg'.path[|cfg'.path| - 2] == cfg.path[|cfg.path| - 1];
    SimStackSame(s, cfg, cfg', m, c.stack);
  }
}
