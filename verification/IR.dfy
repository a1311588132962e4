/**
  The fragment of LLVM IR that the path-exploration engine is modelled on, and the
  static conditions the engine relies on.

  A pure instruction (binary operator, comparison, cast, select, ...) is represented
  by the value function it computes, so every result below holds for any choice of
  pure instructions.
 */
module IR {
  import opened Wrappers

  type Name = string
  type FuncName = string
  type BlockId = nat

  /** Version counters and active versions are kept per function and name. */
  type Key = (FuncName, Name)

  datatype Operand = Const(value: int) | Local(name: Name)

  datatype Instr =
    | Pure(dest: Name, f: seq<int> -> int, args: seq<Operand>)
    | Phi(dest: Name, incoming: seq<(Operand, BlockId)>)
    | Load(dest: Name, addr: Operand)
    | Store(addr: Operand, val: Operand)
    | Assume(cond: Operand)
    | Call(res: Option<Name>, callee: FuncName, args: seq<Operand>)
  {
    /** True of the instructions that always give a name a new version. */
    predicate Assigns() {
      Pure? || Phi? || Load?
    }

    /** The names that are defined once the instruction has finished. */
    function Dests(): set<Name> {
      match this
      case Pure(x, _, _) => {x}
      case Phi(x, _) => {x}
      case Load(x, _) => {x}
      case Call(Some(x), _, _) => {x}
      case _ => {}
    }
  }

  datatype Terminator =
    | Ret(value: Option<Operand>)
    | Br(dest: BlockId)
    | CondBr(cond: Operand, trueDest: BlockId, falseDest: BlockId)
    | Switch(scrutinee: Operand, cases: seq<(int, BlockId)>, defaultDest: BlockId)
    | Unreachable

  datatype Block = Block(instrs: seq<Instr>, term: Terminator)

  datatype Function = Function(params: seq<Name>, isVoid: bool, blocks: seq<Block>)

  type Program = map<FuncName, Function>

  /** A code location.  `pos == |instrs|` denotes the terminator of the block. */
  datatype Loc = Loc(func: FuncName, block: BlockId, pos: nat)

  datatype Error =
    | LoopBoundExceeded
    | Unsat
    | UnreachableInstruction
    | FunctionNotFound
    | MalformedInstruction
    | NoPhiMember
    | AssumptionViolated

  predicate ValidBlock(p: Program, f: FuncName, b: BlockId) {
    f in p && b < |p[f].blocks|
  }

  predicate ValidLoc(p: Program, l: Loc) {
    ValidBlock(p, l.func, l.block) && l.pos <= |BlockAt(p, l).instrs|
  }

  function BlockAt(p: Program, l: Loc): Block
    requires ValidBlock(p, l.func, l.block)
  {
    p[l.func].blocks[l.block]
  }

  predicate AtInstr(p: Program, l: Loc) {
    ValidLoc(p, l) && l.pos < |BlockAt(p, l).instrs|
  }

  function InstrAt(p: Program, l: Loc): Instr
    requires AtInstr(p, l)
  {
    BlockAt(p, l).instrs[l.pos]
  }

  predicate AtTerm(p: Program, l: Loc) {
    ValidLoc(p, l) && l.pos == |BlockAt(p, l).instrs|
  }

  function TermAt(p: Program, l: Loc): Terminator
    requires AtTerm(p, l)
  {
    BlockAt(p, l).term
  }

  function Inc(l: Loc): Loc {
    l.(pos := l.pos + 1)
  }

  /* ---------- Definition before use ---------- */

  /** A certificate for the dominance condition of the LLVM verifier: the names that
      are defined whenever control enters a block. */
  type Liveness = (FuncName, BlockId) -> set<Name>

  ghost function DestsBefore(instrs: seq<Instr>, k: nat): set<Name>
    requires k <= |instrs|
  {
    if k == 0 then {} else DestsBefore(instrs, k - 1) + instrs[k - 1].Dests()
  }

  /** The names defined just before the instruction at `l`. */
  ghost function DefinedAt(p: Program, live: Liveness, l: Loc): set<Name>
    requires ValidLoc(p, l)
  {
    live(l.func, l.block) + DestsBefore(BlockAt(p, l).instrs, l.pos)
  }

  /** The names defined when control leaves block `b`. */
  ghost function DefinedOut(p: Program, live: Liveness, f: FuncName, b: BlockId): set<Name>
    requires ValidBlock(p, f, b)
  {
    DefinedAt(p, live, Loc(f, b, |p[f].blocks[b].instrs|))
  }

  predicate Uses(op: Operand, defined: set<Name>) {
    op.Local? ==> op.name in defined
  }

  /** Everything before `pos` in the block is a phi, so control jumped here from another
      block and has not been in a callee since. */
  predicate InPhiPrefix(p: Program, l: Loc)
    requires ValidLoc(p, l)
  {
    forall i :: 0 <= i < l.pos ==> BlockAt(p, l).instrs[i].Phi?
  }

  ghost predicate WellFormedInstr(p: Program, live: Liveness, l: Loc)
    requires AtInstr(p, l)
  {
    var ds := DefinedAt(p, live, l);
    match InstrAt(p, l)
    case Pure(_, _, args) => forall i :: 0 <= i < |args| ==> Uses(args[i], ds)
    case Phi(_, incoming) =>
      && l.block != 0
      && InPhiPrefix(p, l)
      && (forall i :: 0 <= i < |incoming| ==>
                        ValidBlock(p, l.func, incoming[i].1)
                        && Uses(incoming[i].0, DefinedOut(p, live, l.func, incoming[i].1)))
    case Load(_, addr) => Uses(addr, ds)
    case Store(addr, val) => Uses(addr, ds) && Uses(val, ds)
    case Assume(cond) => Uses(cond, ds)
    case Call(res, callee, args) =>
      && (forall i :: 0 <= i < |args| ==> Uses(args[i], ds))
      && (callee in p ==> res.Some? == !p[callee].isVoid)
  }

  ghost predicate WellFormedEdge(p: Program, live: Liveness, f: FuncName, b: BlockId, target: BlockId)
    requires ValidBlock(p, f, b)
  {
    ValidBlock(p, f, target) && live(f, target) <= DefinedOut(p, live, f, b)
  }

  ghost predicate WellFormedTerm(p: Program, live: Liveness, f: FuncName, b: BlockId)
    requires ValidBlock(p, f, b)
  {
    var ds := DefinedOut(p, live, f, b);
    match p[f].blocks[b].term
    case Ret(op) => op.Some? == !p[f].isVoid && (op.Some? ==> Uses(op.value, ds))
    case Br(t) => WellFormedEdge(p, live, f, b, t)
    case CondBr(c, t, e) =>
      Uses(c, ds) && WellFormedEdge(p, live, f, b, t) && WellFormedEdge(p, live, f, b, e)
    case Switch(op, cases, d) =>
      && Uses(op, ds)
      && WellFormedEdge(p, live, f, b, d)
      && (forall i :: 0 <= i < |cases| ==> WellFormedEdge(p, live, f, b, cases[i].1))
      && (forall i, j :: 0 <= i < j < |cases| ==> cases[i].0 != cases[j].0)
    case Unreachable => true
  }

  ghost predicate WellFormedFunction(p: Program, live: Liveness, f: FuncName)
    requires f in p
  {
    && |p[f].blocks| > 0
    && (forall x :: x in live(f, 0) ==> x in p[f].params)
    && (forall l: Loc :: l.func == f && AtInstr(p, l) ==> WellFormedInstr(p, live, l))
    && (forall b: BlockId :: ValidBlock(p, f, b) ==> WellFormedTerm(p, live, f, b))
  }

  ghost predicate WellFormed(p: Program, live: Liveness) {
    forall f :: f in p ==> WellFormedFunction(p, live, f)
  }

  ghost predicate NoAssumes(p: Program) {
    forall l: Loc :: AtInstr(p, l) ==> !InstrAt(p, l).Assume?
  }

  /* ---------- Progress ---------- */

  predicate IsTarget(t: Terminator, b: BlockId) {
    match t
    case Br(d) => b == d
    case CondBr(_, d, e) => b == d || b == e
    case Switch(_, cases, d) => b == d || exists i :: 0 <= i < |cases| && cases[i].1 == b
    case _ => false
  }

  /** A bound on the moves that follow a location before a name gets a new version. */
  type Rank = Loc -> nat

  /** An instruction that gives no name a new version lowers the rank; a call of a function without
      parameters pays for what follows the return as well. */
  ghost predicate RankedInstr(p: Program, rank: Rank, l: Loc)
    requires AtInstr(p, l)
  {
    match InstrAt(p, l)
    case Store(_, _) => rank(Inc(l)) < rank(l)
    case Assume(_) => rank(Inc(l)) < rank(l)
    case Call(_, callee, _) =>
      callee in p && p[callee].params == [] ==> rank(Loc(callee, 0, 0)) + rank(Inc(l)) < rank(l)
    case _ => true
  }

  ghost predicate RankedTerm(p: Program, rank: Rank, l: Loc)
    requires AtTerm(p, l)
  {
    && (TermAt(p, l).Ret? ==> rank(l) > 0)
    && forall b :: IsTarget(TermAt(p, l), b) ==> rank(Loc(l.func, b, 0)) < rank(l)
  }

  /** A certificate that control cannot go round in circles without giving a name a new version. */
  ghost predicate Ranked(p: Program, rank: Rank) {
    forall l: Loc :: (AtInstr(p, l) ==> RankedInstr(p, rank, l)) && (AtTerm(p, l) ==> RankedTerm(p, rank, l))
  }

  ghost function BlockNames(bs: seq<Block>): set<Name> {
    if bs == [] then {}
    else BlockNames(bs[..|bs| - 1]) + DestsBefore(bs[|bs| - 1].instrs, |bs[|bs| - 1].instrs|)
  }

  /** Every key whose version counter the program can ever touch. */
  ghost function AllKeys(p: Program): set<Key> {
    set f, x | f in p && x in FunctionNames(p[f]) :: (f, x)
  }

  ghost function FunctionNames(fn: Function): set<Name> {
    (set x | x in fn.params) + BlockNames(fn.blocks)
  }

  lemma {:induction false} DestsBeforeContains(instrs: seq<Instr>, k: nat, i: nat)
    requires i < k <= |instrs|
    ensures instrs[i].Dests() <= DestsBefore(instrs, k)
  {
    if i + 1 < k {
      DestsBeforeContains(instrs, k - 1, i);
    }
  }

  lemma {:induction false} BlockNamesContains(bs: seq<Block>, b: nat)
    requires b < |bs|
    ensures DestsBefore(bs[b].instrs, |bs[b].instrs|) <= BlockNames(bs)
  {
    if b + 1 < |bs| {
      BlockNamesContains(bs[..|bs| - 1], b);
    }
  }

  /** Every name an instruction can assign has a counter in `AllKeys`. */
  lemma DestInAllKeys(p: Program, l: Loc, x: Name)
    requires AtInstr(p, l) && x in InstrAt(p, l).Dests()
    ensures (l.func, x) in AllKeys(p)
  {
    var b := BlockAt(p, l);
    DestsBeforeContains(b.instrs, |b.instrs|, l.pos);
    BlockNamesContains(p[l.func].blocks, l.block);
    assert x in FunctionNames(p[l.func]);
  }
}
