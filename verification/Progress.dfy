/**
  When the loop bound makes every path finite.

  Only instructions that give a name a new version use up the bound.  It is enough that every
  block does so before it calls a function without parameters; it is not enough that every block
  does so at all.
 */
module Progress {
  import opened Wrappers
  import opened IR
  import opened Concrete

  /** Gives a name a new version before anything else can happen: an assignment, or a call that
      assigns parameters or fails. */
  predicate UsesBound(p: Program, i: Instr) {
    i.Assigns() || (i.Call? && (i.callee in p ==> p[i.callee].params != []))
  }

  /** `i` is the first place in the block that uses up the bound, without a call before. */
  predicate AssignsAt(p: Program, b: Block, i: nat) {
    && i < |b.instrs| && UsesBound(p, b.instrs[i])
    && forall j :: 0 <= j < i ==> !b.instrs[j].Call? && !UsesBound(p, b.instrs[j])
  }

  /** The block ends the function and calls nothing. */
  predicate EndsQuietly(b: Block) {
    (b.term.Ret? || b.term.Unreachable?) && forall j :: 0 <= j < |b.instrs| ==> !b.instrs[j].Call?
  }

  ghost predicate Progresses(p: Program, b: Block) {
    EndsQuietly(b) || exists i :: AssignsAt(p, b, i)
  }

  ghost predicate AllProgress(p: Program) {
    forall f, b: BlockId :: ValidBlock(p, f, b) ==> Progresses(p, p[f].blocks[b])
  }

  ghost predicate Bounded(p: Program, f: FuncName, bound: nat)
    requires f in p
  {
    forall b: BlockId :: ValidBlock(p, f, b) ==> |p[f].blocks[b].instrs| + 2 <= bound
  }

  lemma {:induction false} BlocksBounded(bs: seq<Block>) returns (bound: nat)
    ensures forall b :: 0 <= b < |bs| ==> |bs[b].instrs| + 2 <= bound
  {
    bound := 0;
    if bs != [] {
      var rest := BlocksBounded(bs[1..]);
      bound := rest + |bs[0].instrs| + 2;
      forall b | 0 <= b < |bs|
        ensures |bs[b].instrs| + 2 <= bound
      {
        assert b > 0 ==> bs[b] == bs[1..][b - 1];
      }
    }
  }

  lemma {:induction false} ProgramBounded(p: Program, fs: set<FuncName>) returns (bound: nat)
    requires fs <= p.Keys
    ensures forall f :: f in fs ==> Bounded(p, f, bound)
    decreases fs
  {
    bound := 0;
    if f :| f in fs {
      var rest := ProgramBounded(p, fs - {f});
      var own := BlocksBounded(p[f].blocks);
      bound := rest + own;
      forall g | g in fs
        ensures Bounded(p, g, bound)
      {
        assert g != f ==> g in fs - {f};
      }
    }
  }

  /** Up to the assignment, the moves left before it; behind it, one round of moves for each
      instruction that is left. */
  ghost function BlockRank(p: Program, b: Block, pos: nat, bound: nat): nat {
    if pos > |b.instrs| then 0
    else if EndsQuietly(b) then |b.instrs| - pos + 1
    else if i: nat :| AssignsAt(p, b, i) then
      (if pos <= i then i - pos else (|b.instrs| - pos + 1) * bound)
    else 0
  }

  ghost function ProgramRank(p: Program, l: Loc, bound: nat): nat {
    if ValidBlock(p, l.func, l.block) then BlockRank(p, BlockAt(p, l), l.pos, bound) else 0
  }

  lemma AssignsOnce(p: Program, b: Block, i: nat, j: nat)
    requires AssignsAt(p, b, i) && AssignsAt(p, b, j)
    ensures i == j
  {
  }

  lemma EntryRank(p: Program, f: FuncName, b: BlockId, bound: nat)
    requires bound > 0 && (f in p ==> Bounded(p, f, bound))
    ensures ProgramRank(p, Loc(f, b, 0), bound) < bound
  {
    if ValidBlock(p, f, b) {
      assert |p[f].blocks[b].instrs| + 2 <= bound;
    }
  }

  /** A program in which every block progresses has a rank, so its exploration is finite. */
  lemma ProgressingIsRanked(p: Program) returns (rank: Rank)
    requires AllProgress(p)
    ensures Ranked(p, rank)
  {
    var b := ProgramBounded(p, p.Keys);
    var bound := b + 1;
    rank := l => ProgramRank(p, l, bound);
    forall l: Loc | AtInstr(p, l)
      ensures RankedInstr(p, rank, l)
    {
      InstrRanked(p, rank, l, bound);
    }
    forall l: Loc | AtTerm(p, l)
      ensures RankedTerm(p, rank, l)
    {
      TermRanked(p, rank, l, bound);
    }
  }

  lemma InstrRanked(p: Program, rank: Rank, l: Loc, bound: nat)
    requires AllProgress(p) && bound > 0 && (forall f :: f in p ==> Bounded(p, f, bound)) && AtInstr(p, l)
    requires forall k :: rank(k) == ProgramRank(p, k, bound)
    ensures RankedInstr(p, rank, l)
  {
    var b := BlockAt(p, l);
    assert Progresses(p, b);
    if !EndsQuietly(b) {
      var i :| AssignsAt(p, b, i);
      forall j | AssignsAt(p, b, j)
        ensures i == j
      {
        AssignsOnce(p, b, i, j);
      }
      if l.pos > i {
        assert rank(l) == (|b.instrs| - l.pos + 1) * bound;
        assert rank(Inc(l)) == (|b.instrs| - l.pos) * bound;
        assert rank(l) == rank(Inc(l)) + bound;
        if b.instrs[l.pos].Call? {
          EntryRank(p, b.instrs[l.pos].callee, 0, bound);
        }
      }
    }
  }

  lemma TermRanked(p: Program, rank: Rank, l: Loc, bound: nat)
    requires AllProgress(p) && bound > 0 && (forall f :: f in p ==> Bounded(p, f, bound)) && AtTerm(p, l)
    requires forall k :: rank(k) == ProgramRank(p, k, bound)
    ensures RankedTerm(p, rank, l)
  {
    var b := BlockAt(p, l);
    assert Progresses(p, b);
    if !EndsQuietly(b) {
      assert rank(l) == 1 * bound;
      forall t | IsTarget(TermAt(p, l), t)
        ensures rank(Loc(l.func, t, 0)) < rank(l)
      {
        EntryRank(p, l.func, t, bound);
      }
    }
  }

  /* ---------- Assigning somewhere in each block is not enough ---------- */

  /** A function that calls itself and returns the result.  Its only block assigns a name, but only
      after the call has returned. */
  function Endless(): Program {
    map["f" := Function([], false, [Block([Call(Some("x"), "f", [])], Ret(Some(Local("x"))))])]
  }

  lemma EndlessIsWellFormed(live: Liveness)
    requires forall f, b :: live(f, b) == {}
    ensures WellFormed(Endless(), live)
    ensures forall f, b: BlockId :: ValidBlock(Endless(), f, b) ==> "x" in DefinedOut(Endless(), live, f, b)
  {
    var p := Endless();
    forall b: BlockId | ValidBlock(p, "f", b)
      ensures "x" in DefinedOut(p, live, "f", b) && WellFormedTerm(p, live, "f", b)
    {
      assert DestsBefore(p["f"].blocks[0].instrs, 1) == DestsBefore(p["f"].blocks[0].instrs, 0) + {"x"};
    }
  }

  /** Whatever the loop bound, its run never halts, and it has no rank. */
  lemma {:induction false} EndlessNeverHalts(maxVersion: nat, c: State, n: nat, rank: Rank)
    requires c.Running? && c.frame.loc == Loc("f", 0, 0)
    ensures var d := Steps(Endless(), maxVersion, c, n);
            d.Running? && d.frame.loc == Loc("f", 0, 0) && d.versions == c.versions && |d.stack| == |c.stack| + n
    ensures !Ranked(Endless(), rank)
  {
    if n > 0 {
      EndlessNeverHalts(maxVersion, c, n - 1, rank);
    }
    var l := Loc("f", 0, 0);
    assert AtInstr(Endless(), l) && !RankedInstr(Endless(), rank, l);
  }
}
