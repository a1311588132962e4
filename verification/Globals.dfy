/**
  Constants, and the global variables that are initialized when a constant first refers to them.

  A reference to a global stands for its address.  Evaluating it for the first time also writes
  the initializer, whose own references initialize further globals.
 */
module Globals {
  import opened Wrappers
  import opened BitVectors
  import opened BinaryDigits
  import opened Modular
  import opened FlatMemory
  import CellMemory

  type Name = nat

  datatype Constant =
    | Literal(bits: Bits)
    | Aggregate(first: Constant, rest: seq<Constant>)
    | GlobalReference(name: Name)
    | Unary(op1: Bits -> Bits, operand: Constant)
    | Binary(op2: (Bits, Bits) -> Bits, operand0: Constant, operand1: Constant)
    | Select(condition: Constant, trueValue: Constant, falseValue: Constant)

  datatype GlobalAllocation = Function(addr: nat) | Variable(addr: nat, initializer: Constant)

  type Allocations = map<Name, GlobalAllocation>

  datatype GlobalError = NotFound(name: Name)

  type Value = Result<Bits, GlobalError>

  function ToBits(v: nat, w: nat): (r: Bits)
    ensures |r| == w
  {
    if w == 0 then [] else [v % 2 == 1] + ToBits(v / 2, w - 1)
  }

  function AsBool(b: Bits): bool {
    exists i :: 0 <= i < |b| && b[i]
  }

  /** One step of putting together the elements of an aggregate; the later error wins. */
  function Combine(a: Value, b: Value): Value {
    if b.Err? then b else if a.Err? then a else Ok(Concat(b.value, a.value))
  }

  /* ---------- The meaning of a constant: addresses only ---------- */

  function Encode(gs: Allocations, c: Constant): Value
    decreases c
  {
    match c
    case Literal(bits) => Ok(bits)
    case Aggregate(first, rest) => EncodeRest(gs, Encode(gs, first), rest)
    case GlobalReference(n) => if n in gs then Ok(ToBits(gs[n].addr, 64)) else Err(NotFound(n))
    case Unary(op, x) =>
      var v := Encode(gs, x);
      if v.Err? then v else Ok(op(v.value))
    case Binary(op, x, y) =>
      var v, w := Encode(gs, x), Encode(gs, y);
      if v.Err? then v else if w.Err? then w else Ok(op(v.value, w.value))
    case Select(b, x, y) =>
      var v := Encode(gs, b);
      if v.Err? then v else if AsBool(v.value) then Encode(gs, x) else Encode(gs, y)
  }

  function EncodeRest(gs: Allocations, acc: Value, rest: seq<Constant>): (r: Value)
    ensures r.Ok? ==> acc.Ok?
    decreases rest
  {
    if rest == [] then acc else EncodeRest(gs, Combine(acc, Encode(gs, rest[0])), rest[1..])
  }

  /* ---------- What the encoding is ---------- */

  /** The number that bits stand for, the least significant bit first. */
  function Denoted(b: Bits): nat {
    if b == [] then 0 else (if b[0] then 1 else 0) + 2 * Denoted(b[1..])
  }

  /** The same number as that of the digits in the usual order. */
  lemma {:induction false} DenotedIsNumber(b: Bits)
    ensures Denoted(b) == Number(seq(|b|, i requires 0 <= i < |b| => b[|b| - 1 - i]))
  {
    if b != [] {
      var d := seq(|b|, i requires 0 <= i < |b| => b[|b| - 1 - i]);
      DenotedIsNumber(b[1..]);
      assert d[..|d| - 1] == seq(|b[1..]|, i requires 0 <= i < |b[1..]| => b[1..][|b[1..]| - 1 - i]);
    }
  }

  /** An address is encoded as itself, cut off to the width. */
  lemma {:induction false} ToBitsDenotes(v: nat, w: nat)
    ensures Denoted(ToBits(v, w)) == v % Pow2(w)
  {
    if w > 0 {
      ToBitsDenotes(v / 2, w - 1);
      HalfRemainder(v, Pow2(w - 1));
      assert ToBits(v, w)[1..] == ToBits(v / 2, w - 1);
    }
  }

  /** A reference is 64 bits wide and denotes the address of the global. */
  lemma ReferenceDenotes(gs: Allocations, n: Name)
    requires n in gs && gs[n].addr < ADDRESSES
    ensures var v := Encode(gs, GlobalReference(n)); v.Ok? && |v.value| == 64 && Denoted(v.value) == gs[n].addr
  {
    hide Pow2, ToBits, Denoted;
    ToBitsDenotes(gs[n].addr, 64);
    Pow2Of64();
    RemainderIs(gs[n].addr, Pow2(64), 0, gs[n].addr);
  }

  /** A condition holds iff it is not the number 0. */
  lemma {:induction false} AsBoolMeans(b: Bits)
    ensures AsBool(b) <==> Denoted(b) != 0
  {
    if b != [] {
      AsBoolMeans(b[1..]);
      if AsBool(b[1..]) {
        var i :| 0 <= i < |b[1..]| && b[1..][i];
        assert b[i + 1];
      } else if !b[0] {
        forall i | 0 <= i < |b|
          ensures !b[i]
        {
          assert i > 0 ==> b[i] == b[1..][i - 1];
        }
      }
    }
  }

  /** A `Select` takes its first alternative iff the condition is not 0. */
  lemma SelectTakes(gs: Allocations, b: Constant, x: Constant, y: Constant)
    requires Encode(gs, b).Ok?
    ensures Encode(gs, Select(b, x, y)) == if Denoted(Encode(gs, b).value) != 0 then Encode(gs, x) else Encode(gs, y)
  {
    AsBoolMeans(Encode(gs, b).value);
  }

  /** The operands keep their order. */
  lemma OperandOrder(gs: Allocations, x: Constant, y: Constant)
    requires Encode(gs, x).Ok? && Encode(gs, y).Ok?
    ensures Encode(gs, Binary((v: Bits, w: Bits) => v, x, y)) == Encode(gs, x)
    ensures Encode(gs, Binary((v: Bits, w: Bits) => w, x, y)) == Encode(gs, y)
  {
  }

  /** Of two failing operands the first one is reported, of several failing elements the last one. */
  lemma {:induction false} ErrorReported(gs: Allocations, first: Constant, rest: seq<Constant>, i: nat, op: (Bits, Bits) -> Bits)
    requires i <= |rest| && Encode(gs, ([first] + rest)[i]).Err?
    requires forall j :: i < j <= |rest| ==> Encode(gs, ([first] + rest)[j]).Ok?
    ensures Encode(gs, Aggregate(first, rest)) == Encode(gs, ([first] + rest)[i])
    ensures Encode(gs, first).Err? ==> rest != [] ==> Encode(gs, Binary(op, first, rest[0])) == Encode(gs, first)
    decreases |rest|
  {
    if rest != [] {
      var front, last := rest[..|rest| - 1], rest[|rest| - 1];
      assert rest == front + [last];
      EncodeRestLast(gs, Encode(gs, first), front, last);
      assert ([first] + rest)[|rest|] == last;
      if i < |rest| {
        assert Encode(gs, last).Ok?;
        assert forall j :: 0 <= j <= |front| ==> ([first] + front)[j] == ([first] + rest)[j];
        ErrorReported(gs, first, front, i, op);
      }
    }
  }

  ghost predicate AllEncode(gs: Allocations, cs: seq<Constant>) {
    forall i :: 0 <= i < |cs| ==> Encode(gs, cs[i]).Ok?
  }

  /** The total width of the first `n` elements. */
  ghost function WidthOfFirst(gs: Allocations, cs: seq<Constant>, n: nat): nat
    requires AllEncode(gs, cs) && n <= |cs|
  {
    if n == 0 then 0 else WidthOfFirst(gs, cs, n - 1) + |Encode(gs, cs[n - 1]).value|
  }

  /** The encodings of the first `n` elements, one behind the other, the first one lowest. */
  ghost function Joined(gs: Allocations, cs: seq<Constant>, n: nat): (r: Bits)
    requires AllEncode(gs, cs) && n <= |cs|
    ensures |r| == WidthOfFirst(gs, cs, n)
  {
    if n == 0 then [] else Joined(gs, cs, n - 1) + Encode(gs, cs[n - 1]).value
  }

  lemma {:induction false} EncodeRestLast(gs: Allocations, acc: Value, rest: seq<Constant>, c: Constant)
    ensures EncodeRest(gs, acc, rest + [c]) == Combine(EncodeRest(gs, acc, rest), Encode(gs, c))
    decreases rest
  {
    hide Encode;
    if rest == [] {
      assert rest + [c] == [c] && [c][1..] == [];
    } else {
      assert (rest + [c])[0] == rest[0] && (rest + [c])[1..] == rest[1..] + [c];
      EncodeRestLast(gs, Combine(acc, Encode(gs, rest[0])), rest[1..], c);
    }
  }

  lemma {:induction false} EncodeRestJoins(gs: Allocations, first: Constant, rest: seq<Constant>)
    requires EncodeRest(gs, Encode(gs, first), rest).Ok?
    ensures AllEncode(gs, [first] + rest)
    ensures EncodeRest(gs, Encode(gs, first), rest).value == Joined(gs, [first] + rest, |rest| + 1)
    decreases |rest|
  {
    hide Encode;
    var cs := [first] + rest;
    if rest == [] {
      assert Joined(gs, cs, 0) == [];
      assert Joined(gs, cs, 1) == Joined(gs, cs, 0) + Encode(gs, cs[0]).value;
    } else {
      var front, last := rest[..|rest| - 1], rest[|rest| - 1];
      assert rest == front + [last];
      EncodeRestLast(gs, Encode(gs, first), front, last);
      EncodeRestJoins(gs, first, front);
      assert cs == [first] + front + [last];
      JoinedPrefix(gs, [first] + front, last, |rest|);
    }
  }

  lemma {:induction false} JoinedPrefix(gs: Allocations, cs: seq<Constant>, c: Constant, n: nat)
    requires AllEncode(gs, cs) && Encode(gs, c).Ok? && n <= |cs|
    ensures AllEncode(gs, cs + [c]) && Joined(gs, cs + [c], n) == Joined(gs, cs, n)
    decreases n
  {
    hide Encode;
    var cs' := cs + [c];
    forall i | 0 <= i < |cs'|
      ensures Encode(gs, cs'[i]).Ok?
    {
      assert cs'[i] == if i < |cs| then cs[i] else c;
    }
    if n > 0 {
      JoinedPrefix(gs, cs, c, n - 1);
      assert cs'[n - 1] == cs[n - 1];
    }
  }

  /** Each element of an aggregate lies, whole, right behind those before it: the first one lowest. */
  ghost predicate Laid(gs: Allocations, cs: seq<Constant>, v: Bits, i: nat)
    requires AllEncode(gs, cs) && i < |cs|
  {
    var e, at := Encode(gs, cs[i]).value, WidthOfFirst(gs, cs, i);
    at + |e| <= |v| && v[at..at + |e|] == e
  }

  lemma {:induction false} JoinedLays(gs: Allocations, cs: seq<Constant>, n: nat, i: nat)
    requires AllEncode(gs, cs) && i < n <= |cs|
    ensures Laid(gs, cs, Joined(gs, cs, n), i)
    decreases n
  {
    hide Encode;
    var front, e := Joined(gs, cs, n - 1), Encode(gs, cs[n - 1]).value;
    assert Joined(gs, cs, n) == front + e;
    if i < n - 1 {
      JoinedLays(gs, cs, n - 1, i);
      var at, w := WidthOfFirst(gs, cs, i), |Encode(gs, cs[i]).value|;
      assert (front + e)[at..at + w] == front[at..at + w];
    } else {
      assert (front + e)[|front|..|front| + |e|] == e;
    }
  }

  lemma ElementsLaid(gs: Allocations, first: Constant, rest: seq<Constant>, i: nat)
    requires Encode(gs, Aggregate(first, rest)).Ok? && i <= |rest|
    ensures AllEncode(gs, [first] + rest)
    ensures Laid(gs, [first] + rest, Encode(gs, Aggregate(first, rest)).value, i)
    ensures |Encode(gs, Aggregate(first, rest)).value| == WidthOfFirst(gs, [first] + rest, |rest| + 1)
  {
    EncodeRestJoins(gs, first, rest);
    JoinedLays(gs, [first] + rest, |rest| + 1, i);
  }

  predicate IsVariable(gs: Allocations, n: Name) {
    n in gs && gs[n].Variable?
  }

  function Initializer(gs: Allocations, n: Name): Value
    requires IsVariable(gs, n)
  {
    Encode(gs, gs[n].initializer)
  }

  /** The global variables to which a constant refers, leaving out what a `Select` does not take. */
  function Refs(gs: Allocations, c: Constant): set<Name> {
    match c
    case Literal(_) => {}
    case Aggregate(first, rest) => Refs(gs, first) + RefsRest(gs, rest)
    case GlobalReference(n) => if IsVariable(gs, n) then {n} else {}
    case Unary(_, x) => Refs(gs, x)
    case Binary(_, x, y) => Refs(gs, x) + Refs(gs, y)
    case Select(b, x, y) =>
      var v := Encode(gs, b);
      Refs(gs, b) + if v.Err? then {} else if AsBool(v.value) then Refs(gs, x) else Refs(gs, y)
  }

  function RefsRest(gs: Allocations, rest: seq<Constant>): set<Name> {
    if rest == [] then {} else Refs(gs, rest[0]) + RefsRest(gs, rest[1..])
  }

  /* ---------- Evaluation with initialization on first reference ---------- */

  datatype Write = Write(name: Name, addr: nat, value: Bits)

  /** The result, the flags afterwards, and the initializers written, in order. */
  datatype Outcome = Outcome(value: Value, flags: set<Name>, writes: seq<Write>)

  function Unset(gs: Allocations, flags: set<Name>): set<Name> {
    gs.Keys - flags
  }

  lemma UnsetShrinks(gs: Allocations, flags: set<Name>, more: set<Name>)
    requires flags <= more
    ensures |Unset(gs, more)| <= |Unset(gs, flags)|
    ensures (exists n :: n in more && n in gs && n !in flags) ==> |Unset(gs, more)| < |Unset(gs, flags)|
  {
    var a, b := Unset(gs, more), Unset(gs, flags);
    assert b == a + (b - a);
    if n :| n in more && n in gs && n !in flags {
      assert n in b - a;
    }
  }

  /** `next` continues after `o`, which began the evaluation. */
  function After(o: Outcome, next: Outcome): Outcome {
    Outcome(next.value, next.flags, o.writes + next.writes)
  }

  function Eval(gs: Allocations, flags: set<Name>, c: Constant): (o: Outcome)
    ensures flags <= o.flags
    decreases |Unset(gs, flags)|, c
  {
    match c
    case Literal(bits) => Outcome(Ok(bits), flags, [])
    case Aggregate(first, rest) =>
      var o := Eval(gs, flags, first);
      UnsetShrinks(gs, flags, o.flags);
      After(o, EvalRest(gs, o.flags, o.value, rest))
    case GlobalReference(n) =>
      if n !in gs then Outcome(Err(NotFound(n)), flags, [])
      else
        var addr := ToBits(gs[n].addr, 64);
        if gs[n].Function? || n in flags then Outcome(Ok(addr), flags, [])
        else
          UnsetShrinks(gs, flags, flags + {n});
          var o := Eval(gs, flags + {n}, gs[n].initializer);
          if o.value.Err? then o
          else Outcome(Ok(addr), o.flags, o.writes + [Write(n, gs[n].addr, o.value.value)])
    case Unary(op, x) =>
      var o := Eval(gs, flags, x);
      if o.value.Err? then o else Outcome(Ok(op(o.value.value)), o.flags, o.writes)
    case Binary(op, x, y) =>
      var o := Eval(gs, flags, x);
      UnsetShrinks(gs, flags, o.flags);
      if o.value.Err? then o
      else
        var o' := Eval(gs, o.flags, y);
        var v := if o'.value.Err? then o'.value else Ok(op(o.value.value, o'.value.value));
        After(o, Outcome(v, o'.flags, o'.writes))
    case Select(b, x, y) =>
      var o := Eval(gs, flags, b);
      UnsetShrinks(gs, flags, o.flags);
      if o.value.Err? then o
      else After(o, if AsBool(o.value.value) then Eval(gs, o.flags, x) else Eval(gs, o.flags, y))
  }

  function EvalRest(gs: Allocations, flags: set<Name>, acc: Value, rest: seq<Constant>): (o: Outcome)
    ensures flags <= o.flags
    ensures o.value.Ok? ==> acc.Ok?
    decreases |Unset(gs, flags)|, rest
  {
    if rest == [] then Outcome(acc, flags, [])
    else
      var o := Eval(gs, flags, rest[0]);
      UnsetShrinks(gs, flags, o.flags);
      After(o, EvalRest(gs, o.flags, Combine(acc, o.value), rest[1..]))
  }

  /* ---------- What evaluation does ---------- */

  ghost function Written(ws: seq<Write>): set<Name> {
    set i | 0 <= i < |ws| :: ws[i].name
  }

  ghost predicate Distinct(ws: seq<Write>) {
    forall i, j :: 0 <= i < j < |ws| ==> ws[i].name != ws[j].name
  }

  /** The write puts the encoded initializer of a variable at its address. */
  ghost predicate Initializes(gs: Allocations, w: Write) {
    IsVariable(gs, w.name) && w.addr == gs[w.name].addr && Initializer(gs, w.name) == Ok(w.value)
  }

  /** Whatever the result, each newly flagged variable is written at most once, and nothing else. */
  ghost predicate Orderly(gs: Allocations, flags: set<Name>, o: Outcome) {
    && flags <= o.flags
    && (forall n :: n in o.flags && n !in flags ==> IsVariable(gs, n))
    && (forall i :: 0 <= i < |o.writes| ==> Initializes(gs, o.writes[i]))
    && Distinct(o.writes)
    && Written(o.writes) <= o.flags - flags
  }

  /** Every newly flagged variable is written, and every variable its initializer refers to is flagged. */
  ghost predicate Complete(gs: Allocations, flags: set<Name>, o: Outcome)
    requires Orderly(gs, flags, o)
  {
    && Written(o.writes) == o.flags - flags
    && forall n :: n in o.flags && n !in flags ==> Refs(gs, gs[n].initializer) <= o.flags
  }

  /** No newly flagged variable has an initializer that fails. */
  ghost predicate NoneFails(gs: Allocations, flags: set<Name>, o: Outcome)
    requires Orderly(gs, flags, o)
  {
    forall n :: n in o.flags && n !in flags ==> Initializer(gs, n).Ok?
  }

  lemma WrittenConcat(a: seq<Write>, b: seq<Write>)
    ensures Written(a + b) == Written(a) + Written(b)
    ensures Distinct(a) && Distinct(b) && Written(a) !! Written(b) ==> Distinct(a + b)
  {
    forall n
      ensures n in Written(a + b) <==> n in Written(a) + Written(b)
    {
      if i :| 0 <= i < |a| && a[i].name == n {
        assert (a + b)[i].name == n;
      }
      if i :| 0 <= i < |b| && b[i].name == n {
        assert (a + b)[|a| + i].name == n;
      }
    }
    if Distinct(a) && Distinct(b) && Written(a) !! Written(b) {
      forall i, j | 0 <= i < j < |a + b|
        ensures (a + b)[i].name != (a + b)[j].name
      {
        if i < |a| <= j {
          assert a[i].name in Written(a) && b[j - |a|].name in Written(b);
        }
      }
    }
  }

  /** Two evaluations in a row. */
  lemma AfterKeeps(gs: Allocations, flags: set<Name>, o: Outcome, next: Outcome)
    requires Orderly(gs, flags, o) && Orderly(gs, o.flags, next)
    ensures Orderly(gs, flags, After(o, next))
    ensures Complete(gs, flags, o) && Complete(gs, o.flags, next) ==> Complete(gs, flags, After(o, next))
    ensures NoneFails(gs, flags, After(o, next)) <==> NoneFails(gs, flags, o) && NoneFails(gs, o.flags, next)
  {
    WrittenConcat(o.writes, next.writes);
  }

  /** The facts about one evaluation, for a constant whose meaning is `v` and which refers to `refs`. */
  ghost predicate Faithful(gs: Allocations, flags: set<Name>, o: Outcome, v: Value, refs: set<Name>) {
    && Orderly(gs, flags, o)
    && (o.value.Ok? <==> v.Ok? && NoneFails(gs, flags, o))
    && (o.value.Ok? ==> o.value == v && Complete(gs, flags, o) && refs <= o.flags)
    && (NoneFails(gs, flags, o) ==> o.value == v)
  }

  lemma NothingDone(gs: Allocations, flags: set<Name>, v: Value)
    ensures var o := Outcome(v, flags, []);
            Orderly(gs, flags, o) && Complete(gs, flags, o) && NoneFails(gs, flags, o)
  {
  }

  /** The value plays no part in what was flagged and written. */
  lemma ValueAside(gs: Allocations, flags: set<Name>, o: Outcome, v: Value)
    requires Orderly(gs, flags, o)
    ensures var o' := Outcome(v, o.flags, o.writes);
            && Orderly(gs, flags, o')
            && (Complete(gs, flags, o) ==> Complete(gs, flags, o'))
            && (NoneFails(gs, flags, o) <==> NoneFails(gs, flags, o'))
  {
  }

  /** Evaluation succeeds exactly when the constant itself and every initializer it sets off do; it
      then gives the address-only encoding whatever the flags were, and has initialized each newly
      flagged variable exactly once.  Initializers may refer to each other in cycles. */
  lemma {:induction false} EvalFaithful(gs: Allocations, flags: set<Name>, c: Constant)
    ensures Faithful(gs, flags, Eval(gs, flags, c), Encode(gs, c), Refs(gs, c))
    decreases |Unset(gs, flags)|, c
  {
    hide Orderly, Complete, NoneFails, Unset, Combine, ToBits, AsBool, EncodeRest, EvalRest, RefsRest;
    match c
    case Literal(bits) =>
      NothingDone(gs, flags, Ok(bits));
    case Aggregate(first, rest) =>
      var o := Eval(gs, flags, first);
      EvalFaithful(gs, flags, first);
      UnsetShrinks(gs, flags, o.flags);
      RestFaithful(gs, o.flags, o.value, rest);
      AfterKeeps(gs, flags, o, EvalRest(gs, o.flags, o.value, rest));
    case GlobalReference(n) =>
      if IsVariable(gs, n) && n !in flags {
        UnsetShrinks(gs, flags, flags + {n});
        EvalFaithful(gs, flags + {n}, gs[n].initializer);
        ReferenceFaithful(gs, flags, n, Eval(gs, flags + {n}, gs[n].initializer));
      } else {
        NothingDone(gs, flags, Encode(gs, c));
      }
    case Unary(_, x) =>
      EvalFaithful(gs, flags, x);
      ValueAside(gs, flags, Eval(gs, flags, x), Eval(gs, flags, c).value);
    case Binary(_, x, y) =>
      var o := Eval(gs, flags, x);
      EvalFaithful(gs, flags, x);
      UnsetShrinks(gs, flags, o.flags);
      if o.value.Ok? {
        EvalFaithful(gs, o.flags, y);
        var o' := After(o, Eval(gs, o.flags, y));
        AfterKeeps(gs, flags, o, Eval(gs, o.flags, y));
        ValueAside(gs, flags, o', Eval(gs, flags, c).value);
      }
    case Select(b, x, y) =>
      var o := Eval(gs, flags, b);
      EvalFaithful(gs, flags, b);
      UnsetShrinks(gs, flags, o.flags);
      if o.value.Ok? {
        var z := if AsBool(o.value.value) then x else y;
        EvalFaithful(gs, o.flags, z);
        AfterKeeps(gs, flags, o, Eval(gs, o.flags, z));
      }
  }

  /** The flag is set before the initializer is evaluated, and the write comes after. */
  lemma ReferenceFaithful(gs: Allocations, flags: set<Name>, n: Name, o: Outcome)
    requires IsVariable(gs, n) && n !in flags
    requires Faithful(gs, flags + {n}, o, Initializer(gs, n), Refs(gs, gs[n].initializer))
    ensures var addr := Ok(ToBits(gs[n].addr, 64));
            Faithful(gs, flags,
                     if o.value.Err? then o
                     else Outcome(addr, o.flags, o.writes + [Write(n, gs[n].addr, o.value.value)]),
                     addr, {n})
  {
    hide Encode, Refs, ToBits;
    if o.value.Ok? {
      var w := Write(n, gs[n].addr, o.value.value);
      WrittenConcat(o.writes, [w]);
      assert [w][0] == w;
      assert Written([w]) == {n};
    } else if Initializer(gs, n).Ok? {
      assert !NoneFails(gs, flags + {n}, o);
    }
  }

  lemma {:induction false} RestFaithful(gs: Allocations, flags: set<Name>, acc: Value, rest: seq<Constant>)
    ensures Faithful(gs, flags, EvalRest(gs, flags, acc, rest), EncodeRest(gs, acc, rest), RefsRest(gs, rest))
    decreases |Unset(gs, flags)|, rest
  {
    hide Orderly, Complete, NoneFails;
    if rest == [] {
      NothingDone(gs, flags, acc);
    } else {
      var o := Eval(gs, flags, rest[0]);
      EvalFaithful(gs, flags, rest[0]);
      UnsetShrinks(gs, flags, o.flags);
      RestFaithful(gs, o.flags, Combine(acc, o.value), rest[1..]);
      AfterKeeps(gs, flags, o, EvalRest(gs, o.flags, Combine(acc, o.value), rest[1..]));
    }
  }

  /** `reach` holds what was flagged, and with every variable it adds, what its initializer refers to. */
  ghost predicate ClosedAbove(gs: Allocations, flags: set<Name>, reach: set<Name>) {
    && flags <= reach
    && forall n :: n in reach && n !in flags && IsVariable(gs, n) ==> Refs(gs, gs[n].initializer) <= reach
  }

  /** Only what the constant leads to is flagged.  With `EvalFaithful`: after a success the flags
      are the least closed set above the old flags and the constant's references. */
  lemma {:induction false} OnlyReachable(gs: Allocations, flags: set<Name>, c: Constant, reach: set<Name>)
    requires ClosedAbove(gs, flags, reach) && Refs(gs, c) <= reach
    ensures Eval(gs, flags, c).flags <= reach
    decreases |Unset(gs, flags)|, c
  {
    hide Faithful, Unset, ToBits, AsBool, Combine;
    match c
    case Literal(_) =>
    case Aggregate(first, rest) =>
      OnlyReachable(gs, flags, first, reach);
      var o := Eval(gs, flags, first);
      UnsetShrinks(gs, flags, o.flags);
      OnlyReachableRest(gs, o.flags, o.value, rest, reach);
    case GlobalReference(n) =>
      if IsVariable(gs, n) && n !in flags {
        UnsetShrinks(gs, flags, flags + {n});
        OnlyReachable(gs, flags + {n}, gs[n].initializer, reach);
      }
    case Unary(_, x) =>
      OnlyReachable(gs, flags, x, reach);
    case Binary(_, x, y) =>
      OnlyReachable(gs, flags, x, reach);
      UnsetShrinks(gs, flags, Eval(gs, flags, x).flags);
      OnlyReachable(gs, Eval(gs, flags, x).flags, y, reach);
    case Select(b, x, y) =>
      OnlyReachable(gs, flags, b, reach);
      var o := Eval(gs, flags, b);
      UnsetShrinks(gs, flags, o.flags);
      if o.value.Ok? {
        SameValue(gs, flags, b);
        OnlyReachable(gs, o.flags, if AsBool(o.value.value) then x else y, reach);
      }
  }

  lemma SameValue(gs: Allocations, flags: set<Name>, c: Constant)
    requires Eval(gs, flags, c).value.Ok?
    ensures Eval(gs, flags, c).value == Encode(gs, c)
  {
    EvalFaithful(gs, flags, c);
  }

  lemma {:induction false} OnlyReachableRest(gs: Allocations, flags: set<Name>, acc: Value, rest: seq<Constant>, reach: set<Name>)
    requires ClosedAbove(gs, flags, reach) && RefsRest(gs, rest) <= reach
    ensures EvalRest(gs, flags, acc, rest).flags <= reach
    decreases |Unset(gs, flags)|, rest
  {
    if rest != [] {
      OnlyReachable(gs, flags, rest[0], reach);
      var o := Eval(gs, flags, rest[0]);
      UnsetShrinks(gs, flags, o.flags);
      OnlyReachableRest(gs, o.flags, Combine(acc, o.value), rest[1..], reach);
    }
  }

  /** All initializers in `reach` that have not been evaluated yet can be. */
  ghost predicate Sound(gs: Allocations, flags: set<Name>, reach: set<Name>) {
    forall n :: n in reach && n !in flags && IsVariable(gs, n) ==> Initializer(gs, n).Ok?
  }

  /** Some closed set above the flags and the references of `c` has only sound initializers. */
  ghost predicate Evaluable(gs: Allocations, flags: set<Name>, c: Constant) {
    exists reach :: ClosedAbove(gs, flags, reach) && Refs(gs, c) <= reach && Sound(gs, flags, reach)
  }

  /** When evaluation succeeds, said before it is done: the constant has an encoding, and so has every
      initializer that it leads to through variables that are not flagged. */
  lemma EvalSucceedsIff(gs: Allocations, flags: set<Name>, c: Constant)
    ensures Eval(gs, flags, c).value.Ok? <==> Encode(gs, c).Ok? && Evaluable(gs, flags, c)
  {
    hide Eval, Encode, Refs;
    EvalFaithful(gs, flags, c);
    var o := Eval(gs, flags, c);
    if o.value.Ok? {
      assert ClosedAbove(gs, flags, o.flags) && Refs(gs, c) <= o.flags && Sound(gs, flags, o.flags);
    }
    if Evaluable(gs, flags, c) {
      var reach :| ClosedAbove(gs, flags, reach) && Refs(gs, c) <= reach && Sound(gs, flags, reach);
      OnlyReachable(gs, flags, c, reach);
    }
  }

  /** So the flags do matter when an initializer fails: a reference is an error the first time, and
      from then on an address, because the flag was set in between. */
  lemma FailsOnlyOnce(gs: Allocations, flags: set<Name>, n: Name)
    requires Eval(gs, flags, GlobalReference(n)).value.Err? && n in gs
    ensures IsVariable(gs, n) && n !in flags
    ensures var o := Eval(gs, flags, GlobalReference(n));
            n in o.flags && Eval(gs, o.flags, GlobalReference(n)) == Outcome(Encode(gs, GlobalReference(n)), o.flags, [])
  {
  }

  /** An input on which this happens. */
  lemma FailsOnce()
    ensures var gs := map[0 := Variable(0x10000, GlobalReference(1))];
            var o := Eval(gs, {}, GlobalReference(0));
            o.value == Err(NotFound(1)) && o.writes == [] && 0 in o.flags && Encode(gs, GlobalReference(0)).Ok?
  {
    var gs := map[0 := Variable(0x10000, GlobalReference(1))];
    assert Eval(gs, {0}, GlobalReference(1)) == Outcome(Err(NotFound(1)), {0}, []);
    assert Eval(gs, {}, GlobalReference(0)) == Outcome(Err(NotFound(1)), {0}, []) by {
      assert {} + {0} == {0};
    }
  }

  /* ---------- In memory ---------- */

  /** Variables have an address, and initializers a width that can be written. */
  ghost predicate Writable(gs: Allocations) {
    forall n :: IsVariable(gs, n) ==>
                  && gs[n].addr < ADDRESSES
                  && (Initializer(gs, n).Ok? ==> 0 < |Initializer(gs, n).value| < 0x1_0000_0000)
  }

  ghost predicate Fit(ws: seq<Write>) {
    forall i :: 0 <= i < |ws| ==> ws[i].addr < ADDRESSES && |ws[i].value| < 0x1_0000_0000
  }

  /** The writes, carried out in order. */
  ghost function Applied(s: Bits, ws: seq<Write>): (r: Bits)
    requires |s| == TOTAL_BITS && Fit(ws)
    ensures |r| == TOTAL_BITS
  {
    if ws == [] then s
    else
      var w := ws[|ws| - 1];
      FlatWrite(Applied(s, ws[..|ws| - 1]), 8 * w.addr, w.value)
  }

  lemma {:induction false} AppliedConcat(s: Bits, a: seq<Write>, b: seq<Write>)
    requires |s| == TOTAL_BITS && Fit(a) && Fit(b)
    ensures Fit(a + b) && Applied(s, a + b) == Applied(Applied(s, a), b)
    decreases b
  {
    hide FlatWrite;
    if b == [] {
      assert a + b == a;
    } else {
      var b' := b[..|b| - 1];
      AppliedConcat(s, a, b');
      assert (a + b)[..|a + b| - 1] == a + b';
      assert (a + b)[|a + b| - 1] == b[|b| - 1];
    }
  }

  lemma AppliedNone(s: Bits)
    requires |s| == TOTAL_BITS
    ensures Fit([]) && Applied(s, []) == s
  {
  }

  /** The write that completes a first reference. */
  lemma AppliedOne(gs: Allocations, s: Bits, flags: set<Name>, n: Name)
    requires |s| == TOTAL_BITS && Writable(gs) && IsVariable(gs, n)
    requires var o := Eval(gs, flags, gs[n].initializer); Fit(o.writes) && o.value.Ok?
    ensures gs[n].addr < ADDRESSES
    ensures var o := Eval(gs, flags, gs[n].initializer);
            && 0 < |o.value.value| < 0x1_0000_0000
            && var ws := o.writes + [Write(n, gs[n].addr, o.value.value)];
               Fit(ws) && Applied(s, ws) == FlatWrite(Applied(s, o.writes), 8 * gs[n].addr, o.value.value)
  {
    SameValue(gs, flags, gs[n].initializer);
    hide Eval, Encode, FlatWrite;
    assert IsVariable(gs, n);
    var o := Eval(gs, flags, gs[n].initializer);
    var ws := o.writes + [Write(n, gs[n].addr, o.value.value)];
    assert ws[..|ws| - 1] == o.writes;
  }

  lemma EvalFits(gs: Allocations, flags: set<Name>, c: Constant)
    requires Writable(gs)
    ensures Fit(Eval(gs, flags, c).writes)
  {
    EvalFaithful(gs, flags, c);
    hide Encode, Eval, Refs;
    var ws := Eval(gs, flags, c).writes;
    forall i | 0 <= i < |ws|
      ensures ws[i].addr < ADDRESSES && |ws[i].value| < 0x1_0000_0000
    {
      assert Initializes(gs, ws[i]);
    }
  }

  /** The bits `q` to `q + n` share nothing with what `w` writes. */
  ghost predicate Spares(w: Write, q: nat, n: nat)
    requires q < TOTAL_BITS && w.addr < ADDRESSES
  {
    Separate(TOTAL_BITS, 8 * w.addr, |w.value|, q, n)
  }

  lemma {:induction false} AppliedElsewhere(s: Bits, ws: seq<Write>, q: nat, n: nat)
    requires |s| == TOTAL_BITS && Fit(ws) && q < TOTAL_BITS && n <= TOTAL_BITS
    requires forall i :: 0 <= i < |ws| ==> Spares(ws[i], q, n)
    ensures FlatRead(Applied(s, ws), q, n) == FlatRead(s, q, n)
    decreases ws
  {
    hide FlatRead, FlatWrite;
    if ws != [] {
      var w := ws[|ws| - 1];
      AppliedElsewhere(s, ws[..|ws| - 1], q, n);
      assert Spares(w, q, n);
      ReadElsewhere(Applied(s, ws[..|ws| - 1]), 8 * w.addr, w.value, q, n);
    }
  }

  /** Each variable with an initializer has a region of its own. */
  ghost predicate RegionsApart(gs: Allocations)
    requires Writable(gs)
  {
    forall m, n :: IsVariable(gs, m) && IsVariable(gs, n) && m != n && Initializer(gs, m).Ok? && Initializer(gs, n).Ok? ==>
                     Separate(TOTAL_BITS, 8 * gs[m].addr, |Initializer(gs, m).value|, 8 * gs[n].addr, |Initializer(gs, n).value|)
  }

  /** After a success, the region of each newly flagged variable holds its initializer. */
  lemma InitializersInPlace(gs: Allocations, flags: set<Name>, c: Constant, s: Bits, n: Name)
    requires Writable(gs) && RegionsApart(gs) && |s| == TOTAL_BITS
    requires var o := Eval(gs, flags, c); o.value.Ok? && n in o.flags && n !in flags
    ensures Fit(Eval(gs, flags, c).writes) && IsVariable(gs, n) && Initializer(gs, n).Ok?
    ensures var v := Initializer(gs, n).value;
            FlatRead(Applied(s, Eval(gs, flags, c).writes), 8 * gs[n].addr, |v|) == v
  {
    EvalFits(gs, flags, c);
    EvalFaithful(gs, flags, c);
    hide Encode, Refs, FlatRead, FlatWrite, Separate, Eval;
    var ws := Eval(gs, flags, c).writes;
    assert n in Written(ws);
    var i :| 0 <= i < |ws| && ws[i].name == n;
    assert Initializes(gs, ws[i]);
    WriteStays(gs, s, ws, i);
  }

  lemma ReadPart(s: Bits, p: nat, v: Bits, off: nat, n: nat)
    requires p < |s| && |v| <= |s| && off + n <= |v| && FlatRead(s, p, |v|) == v
    ensures FlatRead(s, Wrap(|s|, p + off), n) == v[off..off + n]
  {
    var r := FlatRead(s, Wrap(|s|, p + off), n);
    forall k | 0 <= k < n
      ensures r[k] == v[off + k]
    {
      assert Wrap(|s|, Wrap(|s|, p + off) + k) == Wrap(|s|, p + (off + k));
      assert v[off + k] == FlatRead(s, p, |v|)[off + k];
    }
  }

  /** Element `i` of the initializer `c` of a variable at `addr` can be read where it belongs. */
  ghost predicate ElementReads(gs: Allocations, addr: nat, c: Constant, s: Bits, i: nat)
    requires c.Aggregate? && i <= |c.rest| && addr < ADDRESSES && |s| == TOTAL_BITS
  {
    var cs := [c.first] + c.rest;
    && AllEncode(gs, cs)
    && var e, at := Encode(gs, cs[i]).value, WidthOfFirst(gs, cs, i);
    && |e| <= TOTAL_BITS && at < TOTAL_BITS
    && FlatRead(s, Wrap(TOTAL_BITS, 8 * addr + at), |e|) == e
  }

  lemma ElementReadable(gs: Allocations, addr: nat, c: Constant, s: Bits, i: nat)
    requires c.Aggregate? && i <= |c.rest| && addr < ADDRESSES && |s| == TOTAL_BITS
    requires Encode(gs, c).Ok? && 0 < |Encode(gs, c).value| < TOTAL_BITS
    requires FlatRead(s, 8 * addr, |Encode(gs, c).value|) == Encode(gs, c).value
    ensures ElementReads(gs, addr, c, s, i)
  {
    hide Encode, FlatRead;
    var cs, v := [c.first] + c.rest, Encode(gs, c).value;
    assert c == Aggregate(c.first, c.rest);
    ElementsLaid(gs, c.first, c.rest, i);
    ReadPart(s, 8 * addr, v, WidthOfFirst(gs, cs, i), |Encode(gs, cs[i]).value|);
  }

  /** In particular each element of an aggregate initializer can be read where it belongs. */
  lemma ElementInPlace(gs: Allocations, flags: set<Name>, c: Constant, s: Bits, n: Name, i: nat)
    requires Writable(gs) && RegionsApart(gs) && |s| == TOTAL_BITS
    requires var o := Eval(gs, flags, c); o.value.Ok? && n in o.flags && n !in flags
    requires IsVariable(gs, n) && gs[n].initializer.Aggregate? && i <= |gs[n].initializer.rest|
    ensures Fit(Eval(gs, flags, c).writes)
    ensures ElementReads(gs, gs[n].addr, gs[n].initializer, Applied(s, Eval(gs, flags, c).writes), i)
  {
    InitializersInPlace(gs, flags, c, s, n);
    hide Eval, Encode, FlatRead, Applied, ElementReads;
    ElementReadable(gs, gs[n].addr, gs[n].initializer, Applied(s, Eval(gs, flags, c).writes), i);
  }

  lemma WriteStays(gs: Allocations, s: Bits, ws: seq<Write>, i: nat)
    requires Writable(gs) && RegionsApart(gs) && |s| == TOTAL_BITS && Fit(ws) && i < |ws| && Distinct(ws)
    requires forall j :: 0 <= j < |ws| ==> Initializes(gs, ws[j])
    ensures FlatRead(Applied(s, ws), 8 * ws[i].addr, |ws[i].value|) == ws[i].value
  {
    hide Encode, FlatRead, FlatWrite, Separate;
    var w := ws[i];
    var before, later := ws[..i], ws[i + 1..];
    assert ws == before + [w] + later;
    AppliedConcat(s, before + [w], later);
    assert (before + [w])[..i] == before;
    ReadOverWrite(Applied(s, before), 8 * w.addr, w.value);
    forall j | 0 <= j < |later|
      ensures Spares(later[j], 8 * w.addr, |w.value|)
    {
      assert later[j] == ws[i + 1 + j];
      assert Initializes(gs, ws[i]) && Initializes(gs, ws[i + 1 + j]);
    }
    AppliedElsewhere(Applied(s, before + [w]), later, 8 * w.addr, |w.value|);
  }

  /** The allocations, the memory, and the flags, which are updated while a constant is evaluated. */
  class GlobalState {
    const allocations: Allocations
    const mem: CellMemory.Memory
    var initialized: set<Name>

    constructor (allocations: Allocations, mem: CellMemory.Memory)
      ensures this.allocations == allocations && this.mem == mem && initialized == {}
    {
      this.allocations, this.mem, initialized := allocations, mem, {};
    }

    ghost predicate Valid()
      reads this, mem
    {
      mem.Valid() && Writable(allocations)
    }

    /** `o` is the outcome of what was done since the state had these flags and this memory. */
    ghost predicate Did(flags: set<Name>, s: Bits, o: Outcome)
      reads this, mem
    {
      && Valid()
      && |s| == TOTAL_BITS
      && Fit(o.writes)
      && initialized == o.flags
      && mem.Flat() == Applied(s, o.writes)
    }

    method ConstToBv(c: Constant) returns (r: Value)
      requires Valid()
      modifies this, mem
      ensures Did(old(initialized), old(mem.Flat()), Eval(allocations, old(initialized), c))
      ensures r == Eval(allocations, old(initialized), c).value
      decreases |Unset(allocations, initialized)|, c
    {
      hide Fit, Applied, Writable, CellMemory.FlatOf, CellMemory.ValidCells, Unset, ToBits, AsBool, EvalRest;
      ghost var flags, s := initialized, mem.Flat();
      AppliedNone(s);
      match c {
        case Literal(bits) =>
          r := Ok(bits);
        case Aggregate(first, rest) =>
          r := ConstToBv(first);
          UnsetShrinks(allocations, flags, initialized);
          ghost var o := Eval(allocations, flags, first);
          r := RestToBv(r, rest);
          AppliedConcat(s, o.writes, EvalRest(allocations, o.flags, o.value, rest).writes);
        case GlobalReference(n) =>
          if n !in allocations {
            r := Err(NotFound(n));
          } else {
            if allocations[n].Variable? && n !in initialized {
              UnsetShrinks(allocations, flags, flags + {n});
              initialized := initialized + {n};
              r := ConstToBv(allocations[n].initializer);
              if r.Err? {
                return;
              }
              ghost var o := Eval(allocations, flags + {n}, allocations[n].initializer);
              AppliedOne(allocations, s, flags + {n}, n);
              mem.Write(allocations[n].addr, r.value, true);
            }
            r := Ok(ToBits(allocations[n].addr, 64));
          }
        case Unary(op, x) =>
          r := ConstToBv(x);
          if r.Ok? {
            r := Ok(op(r.value));
          }
        case Binary(op, x, y) =>
          r := ConstToBv(x);
          if r.Ok? {
            UnsetShrinks(allocations, flags, initialized);
            ghost var o := Eval(allocations, flags, x);
            var r' := ConstToBv(y);
            AppliedConcat(s, o.writes, Eval(allocations, o.flags, y).writes);
            r := if r'.Err? then r' else Ok(op(r.value, r'.value));
          }
        case Select(b, x, y) =>
          r := ConstToBv(b);
          if r.Ok? {
            UnsetShrinks(allocations, flags, initialized);
            ghost var o := Eval(allocations, flags, b);
            var z := if AsBool(r.value) then x else y;
            r := ConstToBv(z);
            AppliedConcat(s, o.writes, Eval(allocations, o.flags, z).writes);
          }
      }
    }

    /** The remaining elements of an aggregate; all are evaluated, also after an error. */
    method RestToBv(acc: Value, rest: seq<Constant>) returns (r: Value)
      requires Valid()
      modifies this, mem
      ensures Did(old(initialized), old(mem.Flat()), EvalRest(allocations, old(initialized), acc, rest))
      ensures r == EvalRest(allocations, old(initialized), acc, rest).value
      decreases |Unset(allocations, initialized)|, rest
    {
      hide Fit, Applied, Writable, CellMemory.FlatOf, CellMemory.ValidCells, Unset, Eval;
      ghost var flags, s := initialized, mem.Flat();
      AppliedNone(s);
      r := acc;
      if rest != [] {
        var v := ConstToBv(rest[0]);
        UnsetShrinks(allocations, flags, initialized);
        ghost var o := Eval(allocations, flags, rest[0]);
        r := RestToBv(Combine(acc, v), rest[1..]);
        AppliedConcat(s, o.writes, EvalRest(allocations, o.flags, Combine(acc, v), rest[1..]).writes);
      }
    }

    /** A backtracking point keeps the memory and not the flags. */
    method Save() returns (saved: CellMemory.Cells)
      requires Valid()
      ensures saved == mem.mem
    {
      saved := mem.mem;
    }

    method Revert(saved: CellMemory.Cells)
      requires Valid() && CellMemory.ValidCells(saved)
      modifies mem
      ensures Valid() && mem.Flat() == CellMemory.FlatOf(saved)
    {
      mem.mem := saved;
    }
  }

  /* ---------- Across a revert ---------- */

  /** On the current path each flagged variable has been initialized exactly once. */
  ghost predicate Consistent(gs: Allocations, flags: set<Name>, log: seq<Write>) {
    Distinct(log) && Written(log) == flags && forall i :: 0 <= i < |log| ==> Initializes(gs, log[i])
  }

  /** Within one path this is kept. */
  lemma EvalKeepsConsistent(gs: Allocations, flags: set<Name>, log: seq<Write>, c: Constant)
    requires Consistent(gs, flags, log) && Eval(gs, flags, c).value.Ok?
    ensures var o := Eval(gs, flags, c); Consistent(gs, o.flags, log + o.writes)
  {
    EvalFaithful(gs, flags, c);
    hide Encode, Refs, Eval;
    WrittenConcat(log, Eval(gs, flags, c).writes);
  }

  /** Constants that are evaluated one after another. */
  function EvalSeq(gs: Allocations, flags: set<Name>, cs: seq<Constant>): Outcome {
    EvalRest(gs, flags, Ok([]), cs)
  }

  /** Reverting takes the path back to `log` and leaves the flags.  What holds within a path
      survives this exactly when the constants evaluated since the save referred only to
      variables flagged before the save. */
  lemma RevertConsistentIff(gs: Allocations, flags: set<Name>, log: seq<Write>, cs: seq<Constant>)
    requires Consistent(gs, flags, log) && EvalSeq(gs, flags, cs).value.Ok?
    ensures Consistent(gs, EvalSeq(gs, flags, cs).flags, log) <==> RefsRest(gs, cs) <= flags
  {
    hide EvalRest, RefsRest, EncodeRest;
    RestFaithful(gs, flags, Ok([]), cs);
    if RefsRest(gs, cs) <= flags {
      OnlyReachableRest(gs, flags, Ok([]), cs, flags);
    }
  }

  /** One variable, referred to after a save, is enough for the failure. */
  lemma RevertLosesInitializer()
    ensures var gs := map[0 := Variable(0x10000, Literal([true]))];
            && Consistent(gs, {}, [])
            && EvalSeq(gs, {}, [GlobalReference(0)]).value.Ok?
            && !Consistent(gs, EvalSeq(gs, {}, [GlobalReference(0)]).flags, [])
  {
    var gs := map[0 := Variable(0x10000, Literal([true]))];
    var c := GlobalReference(0);
    assert Eval(gs, {0}, Literal([true])).value.Ok?;
    assert {} + {0} == {0};
    assert Eval(gs, {}, c).value.Ok? && Eval(gs, {}, c).flags == {0};
    assert [c][0] == c && [c][1..] == [];
    assert EvalRest(gs, {0}, Combine(Ok([]), Eval(gs, {}, c).value), []).flags == {0};
    assert EvalSeq(gs, {}, [c]).flags == {0};
    assert 0 !in Written([]);
  }

  lemma SomethingWritten(ws: seq<Write>)
    ensures ws != [] ==> Written(ws) != {}
  {
    if ws != [] {
      assert ws[0].name in Written(ws);
    }
  }

  /** Evaluating a constant again changes nothing. */
  lemma EvalAgain(gs: Allocations, flags: set<Name>, c: Constant)
    requires Eval(gs, flags, c).value.Ok?
    ensures var o := Eval(gs, flags, c); Eval(gs, o.flags, c) == Outcome(o.value, o.flags, [])
  {
    hide Eval, Encode, Refs;
    EvalFaithful(gs, flags, c);
    var o := Eval(gs, flags, c);
    OnlyReachable(gs, o.flags, c, o.flags);
    EvalFaithful(gs, o.flags, c);
    var ws := Eval(gs, o.flags, c).writes;
    SomethingWritten(ws);
  }

  /** In memory: after a revert the same constant has the same value, and the memory stays as it
      was at the save.  What the evaluation before the revert initialized is not written again. */
  method EvaluatedAcrossRevert(g: GlobalState, c: Constant) returns (r: Value, r': Value)
    requires g.Valid() && Eval(g.allocations, g.initialized, c).value.Ok?
    modifies g, g.mem
    ensures g.Valid() && r == r' == Encode(g.allocations, c)
    ensures g.mem.Flat() == old(g.mem.Flat())
    ensures Refs(g.allocations, c) <= g.initialized
  {
    hide Eval, Encode, Refs, CellMemory.FlatOf, CellMemory.ValidCells, Applied, Fit, Writable;
    ghost var flags := g.initialized;
    EvalAgain(g.allocations, flags, c);
    EvalFaithful(g.allocations, flags, c);
    var saved := g.Save();
    r := g.ConstToBv(c);
    g.Revert(saved);
    ghost var s := g.mem.Flat();
    r' := g.ConstToBv(c);
    AppliedNone(s);
  }
}
