/** Which values count as true: as words, in the machines, and in programs. Also what literals, assignments and
    operators
    come to, for the definitions that the meaning of a program and the machines share. */
module Truth {
  import opened Prelude
  import opened RubyCore
  import opened RegisterMachine
  import opened BytecodeSpec
  import opened CompiledCore
  import opened BytecodeProof
  import L = BytecodeLink
  import E = Encoding

  // ----- words -----

  const NIL_VALUE: bv64 := 0x04
  const FALSE_VALUE: bv64 := 0x14
  const TRUE_VALUE: bv64 := 0x1c

  /** The address of an object on the heap. */
  predicate IsPointer(w: bv64) {
    w & 7 == 0 && w != 0
  }

  /** The words that stand for a value. Other objects are on the heap, or are packed floats or symbols. */
  predicate StandsFor(w: bv64, v: Value) {
    match v
    case Nil => w == NIL_VALUE
    case Bool(b) => w == if b then TRUE_VALUE else FALSE_VALUE
    case Int(i) =>
      if -0x4000_0000_0000_0000 <= i < 0x4000_0000_0000_0000
      then (w as int) == (2 * i + 1) % 0x1_0000_0000_0000_0000 else IsPointer(w)
    case Array(_) => IsPointer(w)
    case Object(_) => IsPointer(w) || w & 3 == 2 || w & 0xff == 0x0c
  }

  /** The test of a branch: or-ing one bit makes nil's word false's, and no other word that. */
  lemma {:induction false} TestIs(w: bv64)
    ensures w | 0x10 == FALSE_VALUE <==> w == NIL_VALUE || w == FALSE_VALUE
    ensures w | 0x10 == FALSE_VALUE <==> w & 0xffff_ffff_ffff_ffef == NIL_VALUE
  {}

  lemma {:induction false} OddWord(w: bv64, n: int)
    requires (w as int) == n && n % 2 == 1
    ensures w != NIL_VALUE && w != FALSE_VALUE
  {}

  lemma {:induction false} OddStaysOdd(i: int)
    ensures (2 * i + 1) % 0x1_0000_0000_0000_0000 % 2 == 1
  {
    var q := (2 * i + 1) / 0x1_0000_0000_0000_0000;
    assert (2 * i + 1) % 0x1_0000_0000_0000_0000 == 2 * (i - q * 0x8000_0000_0000_0000) + 1;
  }

  /** Only nil and false have a word that fails the test. */
  lemma {:induction false} FalseWords(w: bv64, v: Value)
    requires StandsFor(w, v)
    ensures w | 0x10 == FALSE_VALUE <==> v == Nil || v == Bool(false)
  {
    hide IsPointer;
    TestIs(w);
    if v.Int? && -0x4000_0000_0000_0000 <= v.i < 0x4000_0000_0000_0000 {
      OddStaysOdd(v.i);
      OddWord(w, (2 * v.i + 1) % 0x1_0000_0000_0000_0000);
    } else if v.Int? || v.Array? || v.Object? {
      EvenWords(w);
    }
  }

  lemma {:induction false} EvenWords(w: bv64)
    requires IsPointer(w) || w & 3 == 2 || w & 0xff == 0x0c
    ensures w != NIL_VALUE && w != FALSE_VALUE
  {}

  // ----- machines -----

  /** A conditional branch of the register machine does what the test of the condition's word says. */
  lemma {:induction false} BranchTestsWord(
      rt: Runtime, st: State, c: Reg, disp: int, optimizable: bool, brIf: bool, w: bv64)
    requires st.At? && StandsFor(w, Get(st.f, c))
    ensures StepAt(rt, CondBr(c, disp, optimizable, brIf), st)
            == st.(pc := if (w | 0x10 != FALSE_VALUE) == brIf then st.pc + 1 + disp else st.pc + 1)
  {
    hide StandsFor;
    FalseWords(w, Get(st.f, c));
  }

  /** So does one of the machine that runs words. */
  lemma {:induction false} SlotBranchTestsWord(
      rt: Runtime, lit: L.Literals, st: L.SlotState, s: E.SlotId, disp: int, optimizable: bool, brIf: bool, w: bv64)
    requires st.SlotAt? && s < |st.slots| && StandsFor(w, st.slots[s])
    ensures L.SlotStepAt(rt, lit, E.TCondBr(s, disp, optimizable, brIf), st)
            == st.(pc := if (w | 0x10 != FALSE_VALUE) == brIf then st.pc + 1 + disp else st.pc + 1)
  {
    hide StandsFor;
    FalseWords(w, st.slots[s]);
  }

  // ----- programs -----

  predicate IsLiteral(e: Expr) {
    e.NilLit? || e.BoolLit? || e.IntLit?
  }

  /** nil and false, and no other literal. */
  predicate IsFalse(e: Expr) {
    e == NilLit || e == BoolLit(false)
  }

  function ValueOf(e: Expr): Value
    requires IsLiteral(e)
  {
    match e
    case NilLit => Nil
    case BoolLit(b) => Bool(b)
    case IntLit(i) => Int(i)
  }

  /** What is left to evaluate of an expression whose condition or left side is a literal. */
  function Chosen(e: Expr): Expr
    requires e.If? || e.And? || e.Or?
  {
    match e
    case If(c, a, b) => if IsFalse(c) then b else a
    case And(l, r) => if IsFalse(l) then l else r
    case Or(l, r) => if IsFalse(l) then r else l
  }

  predicate Decided(e: Expr) {
    (e.If? && IsLiteral(e.cond)) || ((e.And? || e.Or?) && IsLiteral(e.lhs))
  }

  lemma {:induction false} ChosenMeans(rt: Runtime, e: Expr, s: Store, fuel: nat)
    requires Decided(e)
    ensures Eval(rt, e, s, fuel) == Eval(rt, Chosen(e), s, fuel)
    ensures EvalAs(rt, e, None, s, fuel) == EvalAs(rt, Chosen(e), None, s, fuel)
  {}

  /** `if nil`, `if false`, `nil && r` and `false || r` come to exactly what the other side does; with any other literal
      they come to what the first does; and the program does the same. */
  lemma {:induction false} LiteralDecides(rt: Runtime, e: Expr, f: Frame, out: Outcome)
    requires Decided(e) && InFrame(e, |f.locals|)
    ensures var s := Store(f.locals, []);
            && (EvaluatesTo(rt, e, s, out) <==> EvaluatesTo(rt, Chosen(e), s, out))
            && (RunsTo(rt, Code(e, Use, 0), At(0, f, []), out) <==> ComesTo(rt, Chosen(e), s, out))
  {
    hide Code; hide Eval; hide EvalAs; hide RunsTo; hide InFrame; hide Chosen;
    var s := Store(f.locals, []);
    forall fuel: nat
      ensures Eval(rt, e, s, fuel) == Eval(rt, Chosen(e), s, fuel)
      ensures EvalAs(rt, e, None, s, fuel) == EvalAs(rt, Chosen(e), None, s, fuel)
    {
      ChosenMeans(rt, e, s, fuel);
    }
    ProgramComesTo(rt, e, f, out);
  }

  /** A literal comes to itself: `nil && r` to nil, without anything of r. */
  lemma {:induction false} LiteralComesTo(rt: Runtime, e: Expr, s: Store, out: Outcome)
    requires IsLiteral(e)
    ensures EvaluatesTo(rt, e, s, out) <==> out == Done(ValueOf(e), s)
    ensures ComesTo(rt, e, s, out) <==> out == Done(ValueOf(e), s)
  {
    LiteralMeans(rt, e, s, 0);
    forall fuel: nat
      ensures Eval(rt, e, s, fuel) == EvalAs(rt, e, None, s, fuel) == Done(ValueOf(e), s)
    {
      LiteralMeans(rt, e, s, fuel);
    }
  }

  lemma {:induction false} LiteralMeans(rt: Runtime, e: Expr, s: Store, fuel: nat)
    requires IsLiteral(e)
    ensures Eval(rt, e, s, fuel) == EvalAs(rt, e, None, s, fuel) == Done(ValueOf(e), s)
  {}

  /** A loop whose condition is a literal that stops it: pre-tested it runs its body not at all, and is nil. */
  lemma {:induction false} StoppedLoop(rt: Runtime, e: Expr, f: Frame, out: Outcome)
    requires e.While? && IsLiteral(e.cond) && IsFalse(e.cond) == e.condOp && InFrame(e, |f.locals|)
    ensures var s := Store(f.locals, []);
            && (EvaluatesTo(rt, e, s, out) <==> out == Done(Nil, s))
            && (RunsTo(rt, Code(e, Use, 0), At(0, f, []), out) <==> out == Done(Nil, s))
  {
    hide Code; hide Eval; hide EvalAs; hide RunsTo; hide InFrame;
    var s := Store(f.locals, []);
    forall fuel: nat
      ensures Eval(rt, e, s, fuel) == EvalAs(rt, e, None, s, fuel) == if fuel == 0 then NoFuel else Done(Nil, s)
    {
      StoppedMeans(rt, e, s, fuel);
    }
    assert Eval(rt, e, s, 1) == Done(Nil, s);
    assert EvalAs(rt, e, None, s, 1) == Done(Nil, s);
    ProgramComesTo(rt, e, f, out);
  }

  lemma {:induction false} StoppedMeans(rt: Runtime, e: Expr, s: Store, fuel: nat)
    requires e.While? && IsLiteral(e.cond) && IsFalse(e.cond) == e.condOp
    ensures Eval(rt, e, s, fuel) == EvalAs(rt, e, None, s, fuel) == if fuel == 0 then NoFuel else Done(Nil, s)
  {}

  // ----- operators, negation and assignment -----

  /** An operator on two integer literals makes exactly one call, of itself with the two in this order, and comes to
      what that returns. */
  lemma {:induction false} OperatorCalls(rt: Runtime, op: BinOpKind, i: int, j: int, s: Store, fuel: nat)
    ensures var hist := s.hist + [CallBin(op, Int(i), Int(j))];
            Eval(rt, Bin(op, IntLit(i), IntLit(j)), s, fuel)
            == EvalAs(rt, Bin(op, IntLit(i), IntLit(j)), None, s, fuel)
            == if rt(hist).Some? then Done(rt(hist).value, Store(s.env, hist)) else Raise(hist)
  {
    OperandsAreLiterals(rt, Bin(op, IntLit(i), IntLit(j)), s, fuel);
  }

  lemma {:induction false} OperandsAreLiterals(rt: Runtime, e: Expr, s: Store, fuel: nat)
    requires (e.Bin? || e.Cmp?) && IsLiteral(e.lhs) && IsLiteral(e.rhs)
    ensures OperandsAs(rt, e, s, fuel) == (Done(ValueOf(e.rhs), s), ValueOf(e.lhs))
  {
    hide EvalAs;
    LiteralMeans(rt, e.lhs, s, fuel);
    LiteralMeans(rt, e.rhs, s, fuel);
  }

  lemma {:induction false} ComparisonCalls(rt: Runtime, k: CmpKind, i: int, j: int, s: Store, fuel: nat)
    ensures var hist := s.hist + [CallCmp(k, Int(i), Int(j))];
            Eval(rt, Cmp(k, IntLit(i), IntLit(j)), s, fuel)
            == EvalAs(rt, Cmp(k, IntLit(i), IntLit(j)), None, s, fuel)
            == if rt(hist).Some? then Done(rt(hist).value, Store(s.env, hist)) else Raise(hist)
  {
    OperandsAreLiterals(rt, Cmp(k, IntLit(i), IntLit(j)), s, fuel);
  }

  /** Negation: arithmetic on an integer, one call on anything else. */
  lemma {:induction false} NegationIs(rt: Runtime, x: Local, s: Store, fuel: nat)
    requires x < |s.env|
    ensures var hist := s.hist + [CallNeg(s.env[x])];
            Eval(rt, Neg(LocalVar(x)), s, fuel) == EvalAs(rt, Neg(LocalVar(x)), None, s, fuel)
            == match s.env[x]
               case Int(i) => Done(Int(-i), s)
               case _ => if rt(hist).Some? then Done(rt(hist).value, Store(s.env, hist)) else Raise(hist)
  {}

  /** A parallel assignment gives each target the value that stands at the place of its last mention. */
  lemma {:induction false} LastMentionWins(env: seq<Value>, xs: seq<Local>, vs: seq<Value>, x: Local)
    requires |xs| == |vs| && x < |env|
    ensures |PokeAll(env, xs, vs)| == |env|
    ensures x !in xs ==> PokeAll(env, xs, vs)[x] == env[x]
    ensures forall k: nat :: k < |xs| && xs[k] == x && x !in xs[k + 1..] ==> PokeAll(env, xs, vs)[x] == vs[k]
    decreases |xs|
  {
    if xs != [] {
      var env2 := if xs[0] < |env| then env[xs[0] := vs[0]] else env;
      LastMentionWins(env2, xs[1..], vs[1..], x);
      forall k: nat | k < |xs| && xs[k] == x && x !in xs[k + 1..]
        ensures PokeAll(env, xs, vs)[x] == vs[k]
      {
        if k > 0 { assert xs[1..][k - 1] == x && xs[1..][k..] == xs[k + 1..] && vs[1..][k - 1] == vs[k]; }
      }
    }
  }

  /** `x, y = y, x` exchanges the two locals. */
  lemma {:induction false} ParallelExchanges(rt: Runtime, x: Local, y: Local, s: Store, fuel: nat)
    requires x < |s.env| && y < |s.env| && x != y
    ensures var e := MulAssign([x, y], [LocalVar(y), LocalVar(x)]);
            Eval(rt, e, s, fuel) == EvalAs(rt, e, None, s, fuel)
            == Done(Array([s.env[y], s.env[x]]), Store(s.env[x := s.env[y]][y := s.env[x]], s.hist))
  {
    var (es, vs) := ([LocalVar(y), LocalVar(x)], [s.env[y], s.env[x]]);
    assert es[1..] == [LocalVar(x)] && es[1..][1..] == [] && vs[1..] == [s.env[x]] && vs[1..][1..] == [];
    assert [x, y][1..] == [y] && [x, y][1..][1..] == [];
    assert EvalAll(rt, es[1..], s, fuel) == EvalAllAs(rt, es[1..], s, fuel) == DoneAll([s.env[x]], s);
    assert EvalAll(rt, es, s, fuel) == EvalAllAs(rt, es, s, fuel) == DoneAll(vs, s);
    assert PokeAll(s.env[x := s.env[y]], [y], [s.env[x]]) == s.env[x := s.env[y]][y := s.env[x]];
    assert PokeAll(s.env, [x, y], vs) == s.env[x := s.env[y]][y := s.env[x]];
  }

  /** An assignment is its value, reads back, and changes no other local. */
  lemma {:induction false} AssignmentIs(rt: Runtime, x: Local, i: int, s: Store, fuel: nat)
    requires x < |s.env|
    ensures Eval(rt, Assign(x, IntLit(i)), s, fuel) == EvalAs(rt, Assign(x, IntLit(i)), None, s, fuel)
            == Done(Int(i), Store(s.env[x := Int(i)], s.hist))
    ensures Eval(rt, LocalVar(x), s, fuel) == EvalAs(rt, LocalVar(x), None, s, fuel) == Done(s.env[x], s)
  {}
}
