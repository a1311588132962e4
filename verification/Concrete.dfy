/**
  The concrete meaning of the IR: one machine step at a time, with a private set of
  locals for each activation.

  Two counters of the symbolic engine are observable and therefore part of the
  machine state: the number of versions of each name (the loop bound) and the path.
 */
module Concrete {
  import opened Wrappers
  import opened IR

  type Memory = map<int, int>

  /** One activation.  For a suspended activation, `loc` is the call instruction.  `prev`
      is the block that control last jumped from. */
  datatype Frame = Frame(loc: Loc, prev: Option<BlockId>, locals: map<Name, int>)

  datatype State =
    | Running(frame: Frame, stack: seq<Frame>, mem: Memory, versions: map<Key, nat>, path: seq<Loc>)
    | Returned(value: Option<int>)
    | Failed(error: Error)

  function Eval(locals: map<Name, int>, op: Operand): int {
    match op
    case Const(v) => v
    case Local(x) => if x in locals then locals[x] else 0
  }

  function EvalAll(locals: map<Name, int>, ops: seq<Operand>): (r: seq<int>)
    ensures |r| == |ops|
  {
    seq(|ops|, i requires 0 <= i < |ops| => Eval(locals, ops[i]))
  }

  function Fetch(mem: Memory, a: int): int {
    if a in mem then mem[a] else 0
  }

  /** The number of the next version of `k`; the first version is 0. */
  function NextVersion(versions: map<Key, nat>, k: Key): nat {
    if k in versions then versions[k] + 1 else 0
  }

  /** Give `x` a new version with value `v` in the running activation. */
  function Bind(c: State, maxVersion: nat, x: Name, v: int): State
    requires c.Running?
  {
    var k := (c.frame.loc.func, x);
    var n := NextVersion(c.versions, k);
    if n > maxVersion then Failed(LoopBoundExceeded)
    else c.(frame := c.frame.(locals := c.frame.locals[x := v]), versions := c.versions[k := n])
  }

  function BindAll(c: State, maxVersion: nat, xs: seq<Name>, vs: seq<int>): State
    requires |xs| == |vs|
    decreases |xs|
  {
    if xs == [] || !c.Running? then c
    else BindAll(Bind(c, maxVersion, xs[0], vs[0]), maxVersion, xs[1..], vs[1..])
  }

  function Advance(c: State): State {
    if c.Running? then c.(frame := c.frame.(loc := Inc(c.frame.loc))) else c
  }

  function Jump(c: State, b: BlockId): State
    requires c.Running?
  {
    var l := Loc(c.frame.loc.func, b, 0);
    c.(frame := c.frame.(loc := l, prev := Some(c.frame.loc.block)), path := c.path + [l])
  }

  /** Enter `callee` at its first block. */
  function Enter(c: State, maxVersion: nat, p: Program, callee: FuncName, vs: seq<int>): State
    requires c.Running? && callee in p && |vs| == |p[callee].params|
  {
    var l := Loc(callee, 0, 0);
    BindAll(c.(frame := Frame(l, None, map[]), stack := c.stack + [c.frame], path := c.path + [l]),
            maxVersion, p[callee].params, vs)
  }

  /** Return to the suspended caller, just after its call instruction. */
  function Leave(c: State, maxVersion: nat, p: Program, v: Option<int>): State
    requires c.Running?
  {
    if c.stack == [] then Returned(v)
    else
      var fr := c.stack[|c.stack| - 1];
      var c1 := c.(frame := fr.(loc := Inc(fr.loc)), stack := c.stack[..|c.stack| - 1],
                   path := c.path + [Inc(fr.loc)]);
      if AtInstr(p, fr.loc) && InstrAt(p, fr.loc).Call? && InstrAt(p, fr.loc).res.Some? && v.Some? then
        Bind(c1, maxVersion, InstrAt(p, fr.loc).res.value, v.value)
      else c1
  }

  /** The operand that a phi selects for predecessor `b`: the first one listed for it. */
  function Select(incoming: seq<(Operand, BlockId)>, b: BlockId): Option<Operand> {
    if incoming == [] then None
    else if incoming[0].1 == b then Some(incoming[0].0)
    else Select(incoming[1..], b)
  }

  /** The target of a switch for the value `v`. */
  function Target(cases: seq<(int, BlockId)>, defaultDest: BlockId, v: int): BlockId {
    if cases == [] then defaultDest
    else if cases[0].0 == v then cases[0].1
    else Target(cases[1..], defaultDest, v)
  }

  function StepInstr(p: Program, maxVersion: nat, c: State): State
    requires c.Running? && AtInstr(p, c.frame.loc)
  {
    var locals := c.frame.locals;
    match InstrAt(p, c.frame.loc)
    case Pure(x, f, args) => Advance(Bind(c, maxVersion, x, f(EvalAll(locals, args))))
    case Phi(x, incoming) =>
      if c.frame.prev.None? then Failed(NoPhiMember) else
      (match Select(incoming, c.frame.prev.value)
       case None => Failed(NoPhiMember)
       case Some(op) => Advance(Bind(c, maxVersion, x, Eval(locals, op))))
    case Load(x, addr) => Advance(Bind(c, maxVersion, x, Fetch(c.mem, Eval(locals, addr))))
    case Store(addr, val) => Advance(c.(mem := c.mem[Eval(locals, addr) := Eval(locals, val)]))
    case Assume(cond) => if Eval(locals, cond) != 0 then Advance(c) else Failed(AssumptionViolated)
    case Call(_, callee, args) =>
      if callee !in p then Failed(FunctionNotFound)
      else if |args| != |p[callee].params| then Failed(MalformedInstruction)
      else Enter(c, maxVersion, p, callee, EvalAll(locals, args))
  }

  function StepTerm(p: Program, maxVersion: nat, c: State): State
    requires c.Running? && AtTerm(p, c.frame.loc)
  {
    var locals := c.frame.locals;
    match TermAt(p, c.frame.loc)
    case Ret(None) => Leave(c, maxVersion, p, None)
    case Ret(Some(op)) => Leave(c, maxVersion, p, Some(Eval(locals, op)))
    case Br(t) => Jump(c, t)
    case CondBr(cond, t, e) => Jump(c, if Eval(locals, cond) != 0 then t else e)
    case Switch(op, cases, d) => Jump(c, Target(cases, d, Eval(locals, op)))
    case Unreachable => Failed(UnreachableInstruction)
  }

  function Step(p: Program, maxVersion: nat, c: State): State {
    if !c.Running? then c
    else if AtInstr(p, c.frame.loc) then StepInstr(p, maxVersion, c)
    else if AtTerm(p, c.frame.loc) then StepTerm(p, maxVersion, c)
    else Failed(MalformedInstruction)
  }

  function Steps(p: Program, maxVersion: nat, c: State, n: nat): State {
    if n == 0 then c else Step(p, maxVersion, Steps(p, maxVersion, c, n - 1))
  }

  ghost predicate Reaches(p: Program, maxVersion: nat, c: State, d: State) {
    exists n: nat :: Steps(p, maxVersion, c, n) == d
  }

  lemma {:induction false} HaltedStays(p: Program, maxVersion: nat, c: State, n: nat, k: nat)
    requires n <= k && !Steps(p, maxVersion, c, n).Running?
    ensures Steps(p, maxVersion, c, k) == Steps(p, maxVersion, c, n)
    decreases k
  {
    if n < k {
      HaltedStays(p, maxVersion, c, n, k - 1);
    }
  }

  /** A run halts in at most one way. */
  lemma OutcomeUnique(p: Program, maxVersion: nat, c: State, d: State, e: State)
    requires Reaches(p, maxVersion, c, d) && Reaches(p, maxVersion, c, e)
    requires !d.Running? && !e.Running?
    ensures d == e
  {
    var n: nat :| Steps(p, maxVersion, c, n) == d;
    var k: nat :| Steps(p, maxVersion, c, k) == e;
    if n <= k {
      HaltedStays(p, maxVersion, c, n, k);
    } else {
      HaltedStays(p, maxVersion, c, k, n);
    }
  }

  lemma {:induction false} BindAllError(c: State, maxVersion: nat, xs: seq<Name>, vs: seq<int>)
    requires |xs| == |vs| && c.Running?
    ensures var d := BindAll(c, maxVersion, xs, vs); d.Running? || d == Failed(LoopBoundExceeded)
    decreases |xs|
  {
    if xs != [] && Bind(c, maxVersion, xs[0], vs[0]).Running? {
      BindAllError(Bind(c, maxVersion, xs[0], vs[0]), maxVersion, xs[1..], vs[1..]);
    }
  }

  /** A program without assumptions violates none. */
  lemma {:induction false} NoAssumesNoViolation(p: Program, maxVersion: nat, c: State, n: nat)
    requires NoAssumes(p) && c.Running?
    ensures Steps(p, maxVersion, c, n) != Failed(AssumptionViolated)
  {
    if n > 0 {
      NoAssumesNoViolation(p, maxVersion, c, n - 1);
      StepNoViolation(p, maxVersion, Steps(p, maxVersion, c, n - 1));
    }
  }

  lemma StepNoViolation(p: Program, maxVersion: nat, c: State)
    requires NoAssumes(p) && c != Failed(AssumptionViolated)
    ensures Step(p, maxVersion, c) != Failed(AssumptionViolated)
  {
    if c.Running? && AtInstr(p, c.frame.loc) {
      var i := InstrAt(p, c.frame.loc);
      if i.Call? && i.callee in p && |i.args| == |p[i.callee].params| {
        var l := Loc(i.callee, 0, 0);
        BindAllError(c.(frame := Frame(l, None, map[]), stack := c.stack + [c.frame], path := c.path + [l]),
                     maxVersion, p[i.callee].params, EvalAll(c.frame.locals, i.args));
      }
    }
  }

  /* ---------- What the machine computes ---------- */

  /** A phi selects the operand of the first entry for the predecessor, and none only if there is no
      such entry. */
  lemma {:induction false} SelectsFirst(incoming: seq<(Operand, BlockId)>, b: BlockId) returns (k: nat)
    ensures Select(incoming, b).None? <==> forall i :: 0 <= i < |incoming| ==> incoming[i].1 != b
    ensures Select(incoming, b).Some? ==>
              && k < |incoming| && incoming[k] == (Select(incoming, b).value, b)
              && forall i :: 0 <= i < k ==> incoming[i].1 != b
  {
    k := 0;
    if incoming != [] && incoming[0].1 != b {
      var j := SelectsFirst(incoming[1..], b);
      k := j + 1;
      forall i | 0 < i < |incoming|
        ensures incoming[i] == incoming[1..][i - 1]
      {
      }
    }
  }

  ghost predicate Bindable(c: State, maxVersion: nat, x: Name)
    requires c.Running?
  {
    NextVersion(c.versions, (c.frame.loc.func, x)) <= maxVersion
  }

  /** A load binds the contents of its address. */
  lemma LoadBinds(p: Program, maxVersion: nat, c: State)
    requires c.Running? && AtInstr(p, c.frame.loc) && InstrAt(p, c.frame.loc).Load?
    requires Bindable(c, maxVersion, InstrAt(p, c.frame.loc).dest)
    ensures var i, d := InstrAt(p, c.frame.loc), Step(p, maxVersion, c);
            && d.Running? && i.dest in d.frame.locals
            && (Eval(c.frame.locals, i.addr) in c.mem ==> d.frame.locals[i.dest] == c.mem[Eval(c.frame.locals, i.addr)])
  {
  }

  /** Whatever happened since, a load of the address of the latest store binds what was stored, and a
      load of another address binds what it would have bound without the store. */
  lemma LoadAfterStore(p: Program, maxVersion: nat, c: State, later: State, skipped: State)
    requires c.Running? && AtInstr(p, c.frame.loc) && InstrAt(p, c.frame.loc).Store?
    requires later.Running? && later.mem == Step(p, maxVersion, c).mem
    requires AtInstr(p, later.frame.loc) && InstrAt(p, later.frame.loc).Load?
    requires Bindable(later, maxVersion, InstrAt(p, later.frame.loc).dest)
    requires skipped == later.(mem := c.mem)
    ensures var st, ld := InstrAt(p, c.frame.loc), InstrAt(p, later.frame.loc);
            var a, b := Eval(c.frame.locals, st.addr), Eval(later.frame.locals, ld.addr);
            var d, d' := Step(p, maxVersion, later), Step(p, maxVersion, skipped);
            && d.Running? && d'.Running? && ld.dest in d.frame.locals && ld.dest in d'.frame.locals
            && (a == b ==> d.frame.locals[ld.dest] == Eval(c.frame.locals, st.val))
            && (a != b ==> d.frame.locals[ld.dest] == d'.frame.locals[ld.dest])
  {
  }

  /** Only a store changes the memory. */
  lemma OnlyStoresWrite(p: Program, maxVersion: nat, c: State)
    requires c.Running? && Step(p, maxVersion, c).Running?
    ensures Step(p, maxVersion, c).mem != c.mem ==> AtInstr(p, c.frame.loc) && InstrAt(p, c.frame.loc).Store?
  {
    if AtInstr(p, c.frame.loc) {
      var i := InstrAt(p, c.frame.loc);
      if i.Call? && i.callee in p && |i.args| == |p[i.callee].params| {
        var l := Loc(i.callee, 0, 0);
        BindAllMemory(c.(frame := Frame(l, None, map[]), stack := c.stack + [c.frame], path := c.path + [l]),
                      maxVersion, p[i.callee].params, EvalAll(c.frame.locals, i.args));
      }
    }
  }

  lemma {:induction false} BindAllMemory(c: State, maxVersion: nat, xs: seq<Name>, vs: seq<int>)
    requires |xs| == |vs| && c.Running?
    ensures var d := BindAll(c, maxVersion, xs, vs); d.Running? ==> d.mem == c.mem
    decreases |xs|
  {
    if xs != [] && Bind(c, maxVersion, xs[0], vs[0]).Running? {
      BindAllMemory(Bind(c, maxVersion, xs[0], vs[0]), maxVersion, xs[1..], vs[1..]);
    }
  }

  /** `n` assignments of one name, one after another. */
  ghost function BindTimes(c: State, maxVersion: nat, x: Name, n: nat): State {
    if n == 0 || !c.Running? then c else
      var d := BindTimes(c, maxVersion, x, n - 1);
      if d.Running? then Bind(d, maxVersion, x, 0) else d
  }

  /** A name without versions can be assigned `maxVersion + 1` times and no more. */
  lemma {:induction false} LoopBound(c: State, maxVersion: nat, x: Name, n: nat)
    requires c.Running? && (c.frame.loc.func, x) !in c.versions
    ensures var d := BindTimes(c, maxVersion, x, n);
            if n <= maxVersion + 1
            then d.Running? && d.frame.loc == c.frame.loc && NextVersion(d.versions, (c.frame.loc.func, x)) == n
            else d == Failed(LoopBoundExceeded)
  {
    if n > 0 {
      LoopBound(c, maxVersion, x, n - 1);
    }
  }

  /** A conditional branch goes to its first target iff the condition is not 0, and a switch to the
      block of the case that is equal to its operand, or else to the default. */
  lemma BranchGoes(p: Program, maxVersion: nat, c: State)
    requires c.Running? && AtTerm(p, c.frame.loc)
    ensures match TermAt(p, c.frame.loc)
            case CondBr(cond, t, e) =>
              Step(p, maxVersion, c).frame.loc == Loc(c.frame.loc.func, if Eval(c.frame.locals, cond) != 0 then t else e, 0)
            case Switch(op, cases, d) =>
              exists b :: && Step(p, maxVersion, c).frame.loc == Loc(c.frame.loc.func, b, 0)
                          && if CaseOf(cases, Eval(c.frame.locals, op)) then (Eval(c.frame.locals, op), b) in cases else b == d
            case _ => true
  {
    match TermAt(p, c.frame.loc)
    case Switch(op, cases, d) =>
      var v := Eval(c.frame.locals, op);
      TargetIsCase(cases, d, v);
      assert Step(p, maxVersion, c).frame.loc == Loc(c.frame.loc.func, Target(cases, d, v), 0);
    case _ =>
  }

  predicate CaseOf(cases: seq<(int, BlockId)>, v: int) {
    exists i :: 0 <= i < |cases| && cases[i].0 == v
  }

  lemma {:induction false} TargetIsCase(cases: seq<(int, BlockId)>, d: BlockId, v: int)
    ensures if CaseOf(cases, v) then (v, Target(cases, d, v)) in cases else Target(cases, d, v) == d
  {
    if cases != [] {
      TargetIsCase(cases[1..], d, v);
      if cases[0].0 == v {
        assert cases[0] == (v, Target(cases, d, v));
      } else {
        assert CaseOf(cases, v) <==> CaseOf(cases[1..], v) by {
          assert forall i :: 0 <= i < |cases[1..]| ==> cases[1..][i] == cases[i + 1];
        }
      }
    }
  }

  /** A call that succeeds starts the callee with its parameters, and nothing else, bound to the arguments
      in order; the caller waits unchanged. */
  lemma CallBinds(p: Program, maxVersion: nat, c: State, k: nat)
    requires c.Running? && AtInstr(p, c.frame.loc) && InstrAt(p, c.frame.loc).Call? && Step(p, maxVersion, c).Running?
    ensures var i, d := InstrAt(p, c.frame.loc), Step(p, maxVersion, c);
            && i.callee in p && |i.args| == |p[i.callee].params|
            && d.frame.loc == Loc(i.callee, 0, 0) && d.stack == c.stack + [c.frame] && d.mem == c.mem
            && d.frame.locals.Keys == (set x | x in p[i.callee].params)
            && (k < |i.args| && (forall j :: k < j < |i.args| ==> p[i.callee].params[j] != p[i.callee].params[k]) ==>
                  d.frame.locals[p[i.callee].params[k]] == Eval(c.frame.locals, i.args[k]))
  {
    var i := InstrAt(p, c.frame.loc);
    var l := Loc(i.callee, 0, 0);
    var c1 := c.(frame := Frame(l, None, map[]), stack := c.stack + [c.frame], path := c.path + [l]);
    BindAllBinds(c1, maxVersion, p[i.callee].params, EvalAll(c.frame.locals, i.args), k);
  }

  lemma {:induction false} BindAllBinds(c: State, maxVersion: nat, xs: seq<Name>, vs: seq<int>, k: nat)
    requires |xs| == |vs| && c.Running? && BindAll(c, maxVersion, xs, vs).Running?
    ensures var d := BindAll(c, maxVersion, xs, vs);
            && d.frame.loc == c.frame.loc && d.stack == c.stack && d.mem == c.mem
            && d.frame.locals.Keys == c.frame.locals.Keys + (set x | x in xs)
            && (forall x :: x in c.frame.locals && x !in xs ==> d.frame.locals[x] == c.frame.locals[x])
            && (k < |xs| && (forall j :: k < j < |xs| ==> xs[j] != xs[k]) ==> d.frame.locals[xs[k]] == vs[k])
    decreases |xs|
  {
    if xs != [] {
      var c1 := Bind(c, maxVersion, xs[0], vs[0]);
      BindAllStuck(c1, maxVersion, xs[1..], vs[1..]);
      BindAllBinds(c1, maxVersion, xs[1..], vs[1..], if k > 0 then k - 1 else 0);
      assert xs == [xs[0]] + xs[1..];
    }
  }

  lemma BindAllStuck(c: State, maxVersion: nat, xs: seq<Name>, vs: seq<int>)
    requires |xs| == |vs|
    ensures !c.Running? ==> BindAll(c, maxVersion, xs, vs) == c
  {
  }

  /** A return that succeeds continues behind the call with the caller's locals, the result of the call
      bound to what is returned. */
  lemma ReturnBinds(p: Program, maxVersion: nat, c: State)
    requires c.Running? && AtTerm(p, c.frame.loc) && TermAt(p, c.frame.loc).Ret? && c.stack != []
    requires Step(p, maxVersion, c).Running?
    ensures var fr, d, op := c.stack[|c.stack| - 1], Step(p, maxVersion, c), TermAt(p, c.frame.loc).value;
            && d.frame.loc == Inc(fr.loc) && d.stack == c.stack[..|c.stack| - 1] && d.mem == c.mem
            && if AtInstr(p, fr.loc) && InstrAt(p, fr.loc).Call? && InstrAt(p, fr.loc).res.Some? && op.Some?
               then d.frame.locals == fr.locals[InstrAt(p, fr.loc).res.value := Eval(c.frame.locals, op.value)]
               else d.frame.locals == fr.locals
  {
  }
}
