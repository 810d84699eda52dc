/** Running the bytecode of an expression is evaluating the expression. */
module BytecodeProof {
  import opened Prelude
  import opened RubyCore
  import opened RegisterMachine
  import opened BytecodeSpec
  import opened CompiledCore

  // ----- the fragment -----

  /** Locals of a frame with n of them, and as many right sides as left sides. */
  predicate InFrame(e: Expr, n: nat)
    decreases e, 1
  {
    match e
    case LocalVar(x) => x < n
    case Neg(e1) => InFrame(e1, n)
    case Bin(_, l, r) => InFrame(l, n) && InFrame(r, n)
    case Cmp(_, l, r) => InFrame(l, n) && InFrame(r, n)
    case And(l, r) => InFrame(l, n) && InFrame(r, n)
    case Or(l, r) => InFrame(l, n) && InFrame(r, n)
    case If(c, a, b) => InFrame(c, n) && InFrame(a, n) && InFrame(b, n)
    case While(c, b, _) => InFrame(c, n) && InFrame(b, n)
    case DoWhile(c, b, _) => InFrame(c, n) && InFrame(b, n)
    case Stmts(es) => InFrameAll(es, n)
    case Assign(x, e1) => x < n && InFrame(e1, n)
    case MulAssign(xs, es) => |xs| == |es| && |xs| >= 2 && (forall x <- xs :: x < n) && InFrameAll(es, n)
    case _ => true
  }

  predicate InFrameAll(es: seq<Expr>, n: nat)
    decreases es, 0
  {
    es != [] ==> InFrame(es[0], n) && InFrameAll(es[1..], n)
  }

  predicate RegOk(dst: Reg, n: nat) {
    dst.LocalReg? ==> dst.x < n
  }

  /** A destination the compiler may be given: a local, or a temporary already in use. */
  predicate ModeOk(mode: Mode, t: nat, n: nat) {
    mode.Into? ==> if mode.dst.Temp? then mode.dst.t < t else mode.dst.x < n
  }

  function RegInto(dst: Reg): Option<Local> {
    if dst.LocalReg? then Some(dst.x) else None
  }

  /** The local that the value goes straight into. */
  function IntoOf(mode: Mode): Option<Local> {
    if mode.Into? then RegInto(mode.dst) else None
  }

  // ----- what it means to run an expression's code -----

  /** Where the value must end up, or where control must go. */
  datatype Goal = Yields(target: Option<Reg>) | Branch(jmpIf: bool, disp: int)

  function Target(goal: Goal): Option<Reg> {
    if goal.Yields? then goal.target else None
  }

  function Jump(goal: Goal, v: Value): int {
    if goal.Branch? && Truthy(v) == goal.jmpIf then goal.disp else 0
  }

  function ModeTarget(mode: Mode, t: nat): Option<Reg> {
    if mode.NotUse? then None else Some(Dst(mode, t))
  }

  /** No temporary below t changes, except the target. */
  ghost predicate Kept(f: Frame, g: Frame, t: nat, target: Option<Reg>) {
    forall k: nat :: k < t && target != Some(Temp(k)) ==> Get(g, Temp(k)) == Get(f, Temp(k))
  }

  /** The frame g after an evaluation that left the locals at env. */
  ghost predicate Landed(f: Frame, g: Frame, env: seq<Value>, v: Value, target: Option<Reg>, t: nat) {
    && |env| == |f.locals|
    && g.locals == (if target.Some? && target.value.LocalReg? then Poke(env, target.value.x, v) else env)
    && (target.Some? ==> Get(g, target.value) == v)
    && Kept(f, g, t, target)
  }

  /** Running `size` instructions' worth of code from st has led to `end` in n steps, as the evaluation's
      outcome demands. An evaluation that runs out of fuel means that the machine is still at work. */
  ghost predicate Meets(goal: Goal, st: State, end: State, size: nat, out: Outcome, t: nat, n: nat, fuel: nat)
    requires st.At?
  {
    match out
    case Done(v, s) =>
      && end.At? && end.hist == s.hist
      && end.pc == st.pc + size + Jump(goal, v)
      && Landed(st.f, end.f, s.env, v, Target(goal), t)
    case Raise(h) => end == Crashed(h)
    case NoFuel => n >= fuel && end.At? && st.pc <= end.pc < st.pc + size
  }

  function StoreOf(st: State): Store
    requires st.At?
  {
    Store(st.f.locals, st.hist)
  }

  /** First n1 steps to st1, then code that meets the goal from there. */
  lemma {:induction false} Precede(goal: Goal, st: State, st1: State, end: State, size1: nat, size2: nat, out: Outcome,
                                   skip: Option<Reg>, t: nat, t2: nat, n1: nat, n2: nat, fuel: nat, fuel2: nat)
    requires st.At? && st1.At? && st1.pc == st.pc + size1 && |st1.f.locals| == |st.f.locals|
    requires Kept(st.f, st1.f, t, skip)
    requires skip.Some? ==> skip == Target(goal) || (skip.value.Temp? ==> skip.value.t >= t)
    requires Meets(goal, st1, end, size2, out, t2, n2, fuel2) && t <= t2 && fuel <= n1 + fuel2
    ensures Meets(goal, st, end, size1 + size2, out, t, n1 + n2, fuel)
  {
    if out.Done? {
      forall k: nat | k < t && Target(goal) != Some(Temp(k))
        ensures Get(end.f, Temp(k)) == Get(st.f, Temp(k))
      {
        assert Get(end.f, Temp(k)) == Get(st1.f, Temp(k));
      }
    }
  }

  /** An evaluation that does not complete settles the matter, whatever code follows. */
  lemma {:induction false} Stops(goal: Goal, goal2: Goal, st: State, end: State, size: nat, size2: nat, out: Outcome,
                                 t: nat, t2: nat, n: nat, fuel: nat)
    requires st.At? && !out.Done? && Meets(goal, st, end, size, out, t, n, fuel) && size <= size2
    ensures Meets(goal2, st, end, size2, out, t2, n, fuel)
  {}

  /** A value that nobody asked for is just left in its temporary. */
  lemma {:induction false} Forget(
      mode: Mode, st: State, end: State, size: nat, out: Outcome, t: nat, t2: nat, n: nat, fuel: nat)
    requires st.At? && Meets(Yields(Some(Dst(mode, t))), st, end, size, out, t2, n, fuel) && t <= t2
    ensures Meets(Yields(ModeTarget(mode, t)), st, end, size, out, t, n, fuel)
  {}

  lemma {:induction false} SetLands(f: Frame, g: Frame, env: seq<Value>, dst: Reg, v: Value, t: nat)
    requires RegOk(dst, |f.locals|) && |env| == |f.locals|
    requires g.locals == env || (dst.LocalReg? && exists w :: g.locals == Poke(env, dst.x, w))
    requires Kept(f, g, t, Some(dst))
    ensures Landed(f, Set(g, dst, v), env, v, Some(dst), t)
  {}

  // ----- instructions -----

  lemma {:induction false} StepsZero(rt: Runtime, program: seq<Inst>, st: State)
    ensures Steps(rt, program, st, 0) == st
  {}

  /** One instruction that writes v to dst. */
  lemma {:induction false} WriteCorrect(
      rt: Runtime, program: seq<Inst>, inst: Inst, dst: Reg, v: Value, t: nat, st: State, fuel: nat)
    requires st.At? && Placed(program, st.pc, [inst]) && RegOk(dst, |st.f.locals|)
    requires StepAt(rt, inst, st) == At(st.pc + 1, Set(st.f, dst, v), st.hist)
    ensures Meets(Yields(Some(dst)), st, Steps(rt, program, st, 1), 1, Done(v, StoreOf(st)), t, 1, fuel)
  {
    StepPlaced(rt, program, st, inst);
    SetLands(st.f, st.f, st.f.locals, dst, v, t);
  }

  lemma {:induction false} IntCorrect(rt: Runtime, program: seq<Inst>, i: int, dst: Reg, t: nat, st: State, fuel: nat)
    requires st.At? && Placed(program, st.pc, IntCode(dst, i)) && RegOk(dst, |st.f.locals|)
    ensures |IntCode(dst, i)| == 1
    ensures Meets(Yields(Some(dst)), st, Steps(rt, program, st, 1), 1, Done(Int(i), StoreOf(st)), t, 1, fuel)
  {
    WriteCorrect(rt, program, IntCode(dst, i)[0], dst, Int(i), t, st, fuel);
  }

  lemma {:induction false} MovCorrect(
      rt: Runtime, program: seq<Inst>, dst: Reg, src: Reg, t: nat, st: State, fuel: nat) returns (n: nat)
    requires st.At? && Placed(program, st.pc, MovCode(dst, src)) && RegOk(dst, |st.f.locals|)
    ensures Meets(Yields(Some(dst)), st, Steps(rt, program, st, n), |MovCode(dst, src)|,
        Done(Get(st.f, src), StoreOf(st)), t, n, fuel)
  {
    if dst == src {
      n := 0;
    } else {
      n := 1;
      WriteCorrect(rt, program, Mov(dst, src), dst, Get(st.f, src), t, st, fuel);
    }
  }

  /** The instruction that makes the call, once the operands are in place. */
  lemma {:induction false} CallCorrect(
      rt: Runtime, program: seq<Inst>, inst: Inst, event: Event, dst: Reg, target: Option<Reg>, out: Outcome,
      size: nat, t: nat, st: State, n: nat, fuel: nat) returns (m: nat)
    requires st.At? && RegOk(dst, |st.f.locals|) && (target == None || target == Some(Temp(t)))
    requires Meets(Yields(target), st, Steps(rt, program, st, n), size, out, t, n, fuel)
    requires Placed(program, st.pc + size, [inst])
    requires out.Done? ==>
               var st1 := Steps(rt, program, st, n);
               StepAt(rt, inst, st1) == CallTo(rt, st1, event, dst)
    ensures Meets(Yields(Some(dst)), st, Steps(rt, program, st, m), size + 1,
                  if out.Done? then Call(rt, out.s, event) else out, t, m, fuel)
  {
    m := n;
    if out.Done? {
      m := n + 1;
      var st1 := Steps(rt, program, st, n);
      StepPlaced(rt, program, st1, inst);
      StepsAdd(rt, program, st, n, 1);
      var result := Call(rt, out.s, event);
      if result.Done? { SetLands(st.f, st1.f, out.s.env, dst, result.v, t); }
    }
  }

  // ----- operands and operators -----

  function OperandTarget(e: Expr, t: nat): Option<Reg> {
    if e.LocalVar? then None else Some(Temp(t))
  }

  lemma {:induction false} OperandCorrect(
      rt: Runtime, program: seq<Inst>, e: Expr, t: nat, st: State, fuel: nat) returns (n: nat)
    requires st.At? && Placed(program, st.pc, OperandCode(e, t)) && InFrame(e, |st.f.locals|)
    ensures Meets(Yields(OperandTarget(e, t)), st, Steps(rt, program, st, n), |OperandCode(e, t)|,
                  EvalAs(rt, e, None, StoreOf(st), fuel), t, n, fuel)
    ensures EvalAs(rt, e, None, StoreOf(st), fuel).Done? ==>
              && Steps(rt, program, st, n).At?
              && Get(Steps(rt, program, st, n).f, OperandReg(e, t)) == EvalAs(rt, e, None, StoreOf(st), fuel).v
    ensures e.LocalVar? ==> Steps(rt, program, st, n) == st
    decreases fuel, e, 6
  {
    if e.LocalVar? {
      n := 0;
    } else {
      n := CodeCorrect(rt, program, e, Use, t, st, fuel);
    }
  }

  /** Both operands of an operator: at the end the two values stand in their registers. */
  lemma {:induction false} OperandsCorrect(rt: Runtime, program: seq<Inst>, e: Expr, t: nat, st: State, fuel: nat)
    returns (n: nat)
    requires (e.Bin? || e.Cmp?) && st.At? && InFrame(e, |st.f.locals|)
    requires Placed(program, st.pc, OperandCode(e.lhs, t) + OperandCode(e.rhs, SecondTemp(e.lhs, e.rhs, t)))
    ensures var (out, v) := OperandsAs(rt, e, StoreOf(st), fuel);
            && Meets(Yields(None), st, Steps(rt, program, st, n),
                     |OperandCode(e.lhs, t) + OperandCode(e.rhs, SecondTemp(e.lhs, e.rhs, t))|, out, t, n, fuel)
            && (out.Done? ==>
                  && Steps(rt, program, st, n).At?
                  && Get(Steps(rt, program, st, n).f, OperandReg(e.lhs, t)) == v
                  && Get(Steps(rt, program, st, n).f, OperandReg(e.rhs, SecondTemp(e.lhs, e.rhs, t))) == out.v)
    decreases fuel, e, 0
  {
    hide EvalAs; hide Code; hide CondCode; hide OperatorCode; hide OperandCode; hide LogicCode; hide Steps; hide Step;
    hide Placed;
    var (l, r) := (e.lhs, e.rhs);
    var t' := SecondTemp(l, r, t);
    var size1, size2 := |OperandCode(l, t)|, |OperandCode(r, t')|;
    PlacedParts(program, st.pc, OperandCode(l, t), OperandCode(r, t'));
    n := OperandCorrect(rt, program, l, t, st, fuel);
    var first := EvalAs(rt, l, None, StoreOf(st), fuel);
    LocalMeans(rt, l, StoreOf(st), fuel);
    if first.Done? {
      var st1 := Steps(rt, program, st, n);
      var n2 := OperandCorrect(rt, program, r, t', st1, fuel);
      StepsAdd(rt, program, st, n, n2);
      var out := EvalAs(rt, r, None, first.s, fuel);
      var end := Steps(rt, program, st1, n2);
      Precede(Yields(OperandTarget(r, t')), st, st1, end, size1, size2, out, OperandTarget(l, t), t, t', n, n2, fuel,
          fuel);
      n := n + n2;
    } else {
      Stops(Yields(OperandTarget(l, t)), Yields(None), st, Steps(rt, program, st, n), size1, size1 + size2, first, t,
          t, n, fuel);
    }
  }

  lemma {:induction false} LocalMeans(rt: Runtime, e: Expr, s: Store, fuel: nat)
    ensures e.LocalVar? ==> EvalAs(rt, e, None, s, fuel) == Done(Peek(s.env, e.x), s)
  {}

  predicate ByRightImmediate(e: Expr)
    requires e.Bin? || e.Cmp?
  {
    IsSmi(e.rhs) && (e.Bin? ==> HasImmediate(e.op))
  }

  predicate ByLeftImmediate(e: Expr)
    requires e.Bin? || e.Cmp?
  {
    !ByRightImmediate(e) && IsSmi(e.lhs) && e.Bin? && HasImmediate(e.op)
  }

  function ImmediateInst(e: Expr, dst: Reg, t: nat, optimizable: bool): Inst
    requires (e.Bin? || e.Cmp?) && (ByRightImmediate(e) || ByLeftImmediate(e))
  {
    if e.Cmp? then CmpRi(e.kind, dst, OperandReg(e.lhs, t), e.rhs.i, optimizable)
    else if ByRightImmediate(e) then BinOpRi(e.op, dst, OperandReg(e.lhs, t), e.rhs.i)
    else BinOpIr(e.op, dst, e.lhs.i, OperandReg(e.rhs, t))
  }

  function PlainInst(e: Expr, dst: Reg, t: nat, optimizable: bool): Inst
    requires e.Bin? || e.Cmp?
  {
    var (l, r) := (OperandReg(e.lhs, t), OperandReg(e.rhs, SecondTemp(e.lhs, e.rhs, t)));
    if e.Cmp? then CmpRr(e.kind, dst, l, r, optimizable) else BinOp(e.op, dst, l, r)
  }

  lemma {:induction false} OperatorShape(e: Expr, dst: Reg, t: nat, optimizable: bool)
    requires e.Bin? || e.Cmp?
    ensures OperatorCode(e, dst, t, optimizable) ==
            if ByRightImmediate(e) then OperandCode(e.lhs, t) + [ImmediateInst(e, dst, t, optimizable)]
            else if ByLeftImmediate(e) then OperandCode(e.rhs, t) + [ImmediateInst(e, dst, t, optimizable)]
            else OperandCode(e.lhs, t) + OperandCode(e.rhs,
                SecondTemp(e.lhs, e.rhs, t)) + [PlainInst(e, dst, t, optimizable)]
  {
    hide OperandCode; hide OperandReg;
  }

  /** With an immediate operand only the other one is evaluated. */
  lemma {:induction false} ImmediateMeaning(rt: Runtime, e: Expr, into: Option<Local>, s: Store, fuel: nat)
    requires (e.Bin? || e.Cmp?) && (ByRightImmediate(e) || ByLeftImmediate(e))
    ensures var out := EvalAs(rt, if ByRightImmediate(e) then e.lhs else e.rhs, None, s, fuel);
            EvalAs(rt, e, into, s, fuel) ==
            if !out.Done? then out
            else if ByRightImmediate(e) then Call(rt, out.s, CallOf(e, out.v, Int(e.rhs.i)))
            else Call(rt, out.s, CallOf(e, Int(e.lhs.i), out.v))
  {
    hide Call;
    OperatorMeanings(rt, e, into, s, fuel);
    LocalMeans(rt, e.lhs, s, fuel);
  }

  lemma {:induction false} ImmediateCorrect(
      rt: Runtime, program: seq<Inst>, e: Expr, dst: Reg, t: nat, optimizable: bool, st: State, fuel: nat)
    returns (n: nat)
    requires (e.Bin? || e.Cmp?) && st.At? && InFrame(e, |st.f.locals|) && RegOk(dst, |st.f.locals|)
    requires ByRightImmediate(e) || ByLeftImmediate(e)
    requires Placed(program, st.pc, OperatorCode(e, dst, t, optimizable))
    ensures Meets(Yields(Some(dst)), st, Steps(rt, program, st, n), |OperatorCode(e, dst, t, optimizable)|,
                  EvalAs(rt, e, None, StoreOf(st), fuel), t, n, fuel)
    decreases fuel, e, 1
  {
    hide EvalAs; hide Code; hide CondCode; hide OperatorCode; hide OperandCode; hide LogicCode; hide Steps; hide Step;
    hide Placed;
    hide Meets; hide Landed; hide Kept; hide Call; hide Get; hide Deliver;
    OperatorShape(e, dst, t, optimizable);
    ImmediateMeaning(rt, e, None, StoreOf(st), fuel);
    var operand := if ByRightImmediate(e) then e.lhs else e.rhs;
    var inst := ImmediateInst(e, dst, t, optimizable);
    PlacedParts(program, st.pc, OperandCode(operand, t), [inst]);
    n := OperandCorrect(rt, program, operand, t, st, fuel);
    var out := EvalAs(rt, operand, None, StoreOf(st), fuel);
    var event := if !out.Done? then CallNeg(Nil)
                 else if ByRightImmediate(e) then CallOf(e, out.v, Int(e.rhs.i)) else CallOf(e, Int(e.lhs.i), out.v);
    n := CallCorrect(rt, program, inst, event, dst, OperandTarget(operand, t), out, |OperandCode(operand, t)|, t, st,
        n, fuel);
  }

  lemma {:induction false} PlainCorrect(
      rt: Runtime, program: seq<Inst>, e: Expr, dst: Reg, t: nat, optimizable: bool, st: State, fuel: nat)
    returns (n: nat)
    requires (e.Bin? || e.Cmp?) && st.At? && InFrame(e, |st.f.locals|) && RegOk(dst, |st.f.locals|)
    requires !ByRightImmediate(e) && !ByLeftImmediate(e)
    requires Placed(program, st.pc, OperatorCode(e, dst, t, optimizable))
    ensures Meets(Yields(Some(dst)), st, Steps(rt, program, st, n), |OperatorCode(e, dst, t, optimizable)|,
                  EvalAs(rt, e, None, StoreOf(st), fuel), t, n, fuel)
    decreases fuel, e, 1
  {
    hide EvalAs; hide OperandsAs; hide Code; hide CondCode; hide OperatorCode; hide OperandCode; hide LogicCode;
    hide Steps; hide Step; hide Placed;
    hide Meets; hide Landed; hide Kept; hide Call; hide Get; hide Deliver;
    OperatorShape(e, dst, t, optimizable);
    OperatorMeanings(rt, e, None, StoreOf(st), fuel);
    var operands := OperandCode(e.lhs, t) + OperandCode(e.rhs, SecondTemp(e.lhs, e.rhs, t));
    var inst := PlainInst(e, dst, t, optimizable);
    PlacedParts(program, st.pc, operands, [inst]);
    n := OperandsCorrect(rt, program, e, t, st, fuel);
    var (out, v) := OperandsAs(rt, e, StoreOf(st), fuel);
    var event := if !out.Done? then CallNeg(Nil) else CallOf(e, v, out.v);
    n := CallCorrect(rt, program, inst, event, dst, None, out, |operands|, t, st, n, fuel);
  }

  lemma {:induction false} OperatorCorrect(
      rt: Runtime, program: seq<Inst>, e: Expr, dst: Reg, t: nat, optimizable: bool, st: State, fuel: nat)
    returns (n: nat)
    requires (e.Bin? || e.Cmp?) && st.At? && InFrame(e, |st.f.locals|) && RegOk(dst, |st.f.locals|)
    requires Placed(program, st.pc, OperatorCode(e, dst, t, optimizable))
    ensures Meets(Yields(Some(dst)), st, Steps(rt, program, st, n), |OperatorCode(e, dst, t, optimizable)|,
                  EvalAs(rt, e, None, StoreOf(st), fuel), t, n, fuel)
    decreases fuel, e, 2
  {
    hide EvalAs; hide Code; hide OperatorCode; hide Placed; hide Steps; hide Meets; hide InFrame;
    if ByRightImmediate(e) || ByLeftImmediate(e) {
      n := ImmediateCorrect(rt, program, e, dst, t, optimizable, st, fuel);
    } else {
      n := PlainCorrect(rt, program, e, dst, t, optimizable, st, fuel);
    }
  }

  // ----- && and || as values -----

  lemma {:induction false} LogicShape(e: Expr, dst: Reg, t: nat)
    requires e.And? || e.Or?
    ensures var right := Code(e.rhs, Into(dst), t);
            LogicCode(e, dst, t) == Code(e.lhs, Into(dst), t) + [CondBr(dst, |right|, false, e.Or?)] + right
  {
    hide Code;
  }

  lemma {:induction false} LogicCorrect(
      rt: Runtime, program: seq<Inst>, e: Expr, dst: Reg, t: nat, st: State, fuel: nat) returns (n: nat)
    requires (e.And? || e.Or?) && st.At? && InFrame(e, |st.f.locals|) && ModeOk(Into(dst), t, |st.f.locals|)
    requires Placed(program, st.pc, LogicCode(e, dst, t))
    ensures Meets(Yields(Some(dst)), st, Steps(rt, program, st, n), |LogicCode(e, dst, t)|,
        EvalAs(rt, e, RegInto(dst), StoreOf(st), fuel), t, n, fuel)
    decreases fuel, e, 1
  {
    hide EvalAs; hide Code; hide CondCode; hide OperatorCode; hide OperandCode; hide LogicCode; hide Steps; hide Step;
    hide Placed;
    var left, right := Code(e.lhs, Into(dst), t), Code(e.rhs, Into(dst), t);
    var br := CondBr(dst, |right|, false, e.Or?);
    var goal := Yields(Some(dst));
    LogicShape(e, dst, t);
    LogicMeanings(rt, e, RegInto(dst), StoreOf(st), fuel);
    PlacedParts(program, st.pc, left + [br], right);
    PlacedParts(program, st.pc, left, [br]);
    n := CodeCorrect(rt, program, e.lhs, Into(dst), t, st, fuel);
    var out := EvalAs(rt, e.lhs, RegInto(dst), StoreOf(st), fuel);
    var st1 := Steps(rt, program, st, n);
    if out.Done? {
      StepPlaced(rt, program, st1, br);
      StepsAdd(rt, program, st, n, 1);
      n := n + 1;
      var st2 := Steps(rt, program, st, n);
      if Truthy(out.v) == e.And? {
        var n2 := CodeCorrect(rt, program, e.rhs, Into(dst), t, st2, fuel);
        StepsAdd(rt, program, st, n, n2);
        var end := Steps(rt, program, st2, n2);
        Precede(goal, st, st2, end, |left| + 1, |right|,
            EvalAs(rt, e.rhs, RegInto(dst), Early(out.s, RegInto(dst), out.v), fuel), Some(dst), t, t, n, n2, fuel,
            fuel);
        n := n + n2;
      }
    } else {
      Stops(goal, goal, st, st1, |left|, |left| + 1 + |right|, out, t, t, n, fuel);
    }
  }

  // ----- conditions -----

  lemma {:induction false} LeafCondCorrect(
      rt: Runtime, program: seq<Inst>, cond: Reg, opt: bool, jmpIf: bool, disp: int, size: nat, target: Option<Reg>,
      out: Outcome, t: nat, st: State, n: nat, fuel: nat) returns (m: nat)
    requires st.At? && Meets(Yields(target), st, Steps(rt, program, st, n), size, out, t, n, fuel)
    requires target.Some? ==> target.value.Temp? && target.value.t >= t
    requires out.Done? ==> Get(Steps(rt, program, st, n).f, cond) == out.v
    requires Placed(program, st.pc + size, [CondBr(cond, disp, opt, jmpIf)])
    ensures Meets(Branch(jmpIf, disp), st, Steps(rt, program, st, m), size + 1, out, t, m, fuel)
  {
    m := n;
    if out.Done? {
      m := n + 1;
      StepPlaced(rt, program, Steps(rt, program, st, n), CondBr(cond, disp, opt, jmpIf));
      StepsAdd(rt, program, st, n, 1);
    }
  }

  /** Short circuit: control reaches the destination exactly when the condition's truth is jmpIf, and
      the calls made on the way are those of a short-circuit evaluation, in its order. */
  lemma {:induction false} CondShape(rt: Runtime, c: Expr, jmpIf: bool, disp: int, t: nat, s: Store, fuel: nat)
    ensures CondCode(c, jmpIf, disp, t) ==
            if c.Cmp? then OperatorCode(c, Temp(t), t, true) + [CondBr(Temp(t), disp, true, jmpIf)]
            else if c.And? || c.Or? then
              var either := c.Or? == jmpIf;
              var right := CondCode(c.rhs, jmpIf, disp, t);
              CondCode(c.lhs, jmpIf == either, |right| + (if either then disp else 0), t) + right
            else OperandCode(c, t) + [CondBr(OperandReg(c, t), disp, false, jmpIf)]
    ensures c.And? || c.Or? ==>
              var out := EvalAs(rt, c.lhs, None, s, fuel);
              EvalAs(rt, c, None, s, fuel) == if out.Done? && Truthy(out.v) == c.And?
                  then EvalAs(rt, c.rhs, None, out.s, fuel) else out
  {
    hide OperatorCode; hide OperandCode; hide Code; hide EvalAs; hide Eval;
    if c.And? || c.Or? { LogicMeanings(rt, c, None, s, fuel); }
  }

  lemma {:induction false} CondCorrect(
      rt: Runtime, program: seq<Inst>, c: Expr, jmpIf: bool, disp: int, t: nat, st: State, fuel: nat) returns (n: nat)
    requires st.At? && Placed(program, st.pc, CondCode(c, jmpIf, disp, t)) && InFrame(c, |st.f.locals|)
    ensures Meets(Branch(jmpIf, disp), st, Steps(rt, program, st, n), |CondCode(c, jmpIf, disp, t)|,
        EvalAs(rt, c, None, StoreOf(st), fuel), t, n, fuel)
    decreases fuel, c, 7
  {
    hide EvalAs; hide Code; hide CondCode; hide OperatorCode; hide OperandCode; hide LogicCode; hide Steps; hide Step;
    hide Placed;
    CondShape(rt, c, jmpIf, disp, t, StoreOf(st), fuel);
    if c.Cmp? {
      var code := OperatorCode(c, Temp(t), t, true);
      PlacedParts(program, st.pc, code, [CondBr(Temp(t), disp, true, jmpIf)]);
      n := OperatorCorrect(rt, program, c, Temp(t), t, true, st, fuel);
      n := LeafCondCorrect(rt, program, Temp(t), true, jmpIf, disp, |code|, Some(Temp(t)),
          EvalAs(rt, c, None, StoreOf(st), fuel), t, st, n, fuel);
    } else if c.And? || c.Or? {
      var either := c.Or? == jmpIf;
      var right := CondCode(c.rhs, jmpIf, disp, t);
      var leftDisp := |right| + if either then disp else 0;
      var left := CondCode(c.lhs, jmpIf == either, leftDisp, t);
      PlacedParts(program, st.pc, left, right);
      n := JunctionCorrect(rt, program, c, jmpIf, disp, t, st, fuel);
    } else {
      PlacedParts(program, st.pc, OperandCode(c, t), [CondBr(OperandReg(c, t), disp, false, jmpIf)]);
      n := OperandCorrect(rt, program, c, t, st, fuel);
      n := LeafCondCorrect(rt, program, OperandReg(c, t), false, jmpIf, disp, |OperandCode(c, t)|, OperandTarget(c, t),
                           EvalAs(rt, c, None, StoreOf(st), fuel), t, st, n, fuel);
    }
  }

  lemma {:induction false} JunctionCorrect(
      rt: Runtime, program: seq<Inst>, c: Expr, jmpIf: bool, disp: int, t: nat, st: State, fuel: nat) returns (n: nat)
    requires (c.And? || c.Or?) && st.At? && InFrame(c, |st.f.locals|)
    requires var either := c.Or? == jmpIf;
             var right := CondCode(c.rhs, jmpIf, disp, t);
             var left := CondCode(c.lhs, jmpIf == either, |right| + if either then disp else 0, t);
             Placed(program, st.pc, left) && Placed(program, st.pc + |left|, right)
    ensures Meets(Branch(jmpIf, disp), st, Steps(rt, program, st, n), |CondCode(c, jmpIf, disp, t)|,
        EvalAs(rt, c, None, StoreOf(st), fuel), t, n, fuel)
    decreases fuel, c, 6
  {
    hide EvalAs; hide Code; hide CondCode; hide OperatorCode; hide OperandCode; hide LogicCode; hide Steps; hide Step;
    hide Placed;
    CondShape(rt, c, jmpIf, disp, t, StoreOf(st), fuel);
    var either := c.Or? == jmpIf;
    var right := CondCode(c.rhs, jmpIf, disp, t);
    var leftDisp := |right| + if either then disp else 0;
    var left := CondCode(c.lhs, jmpIf == either, leftDisp, t);
    assert |CondCode(c, jmpIf, disp, t)| == |left| + |right|;
    n := CondCorrect(rt, program, c.lhs, jmpIf == either, leftDisp, t, st, fuel);
    var out := EvalAs(rt, c.lhs, None, StoreOf(st), fuel);
    var st1 := Steps(rt, program, st, n);
    if out.Done? {
      if Truthy(out.v) == c.And? {
        var n2 := CondCorrect(rt, program, c.rhs, jmpIf, disp, t, st1, fuel);
        StepsAdd(rt, program, st, n, n2);
        Precede(Branch(jmpIf, disp), st, st1, Steps(rt, program, st1, n2), |left|, |right|,
            EvalAs(rt, c.rhs, None, out.s, fuel), None,
                t, t, n, n2, fuel, fuel);
        n := n + n2;
      }
    } else {
      Stops(Branch(jmpIf == either, leftDisp), Branch(jmpIf, disp), st, st1, |left|, |left| + |right|, out, t, t, n,
          fuel);
    }
  }

  // ----- if and loops -----

  lemma {:induction false} IfShape(rt: Runtime, e: Expr, mode: Mode, t: nat, s: Store, fuel: nat)
    requires e.If? && !mode.Into?
    ensures var (then_, else_) := (Code(e.then_, mode, t), Code(e.else_, mode, t));
            Code(e, mode, t) == CondCode(e.cond, false, |then_| + 1, t) + then_ + [Br(|else_|)] + else_
    ensures var out := EvalAs(rt, e.cond, None, s, fuel);
            EvalAs(rt, e, None, s, fuel) == if out.Done? then EvalAs(rt, if Truthy(out.v) then e.then_ else e.else_,
                None, out.s, fuel) else out
  {
    hide CondCode; hide EvalAs; hide Eval;
    IfMeanings(rt, e, None, s, fuel);
  }

  lemma {:induction false} IfCorrect(
      rt: Runtime, program: seq<Inst>, e: Expr, mode: Mode, t: nat, st: State, fuel: nat) returns (n: nat)
    requires e.If? && !mode.Into? && st.At? && InFrame(e, |st.f.locals|) && Placed(program, st.pc, Code(e, mode, t))
    ensures Meets(Yields(ModeTarget(mode, t)), st, Steps(rt, program, st, n), |Code(e, mode, t)|,
        EvalAs(rt, e, None, StoreOf(st), fuel), t, n, fuel)
    decreases fuel, e, 4
  {
    hide EvalAs; hide Code; hide CondCode; hide OperatorCode; hide OperandCode; hide LogicCode; hide Steps; hide Step;
    hide Placed;
    IfShape(rt, e, mode, t, StoreOf(st), fuel);
    var goal := Yields(ModeTarget(mode, t));
    var then_, else_ := Code(e.then_, mode, t), Code(e.else_, mode, t);
    var cond := CondCode(e.cond, false, |then_| + 1, t);
    var total := |Code(e, mode, t)|;
    assert total == |cond| + |then_| + 1 + |else_|;
    PlacedParts(program, st.pc, cond + then_ + [Br(|else_|)], else_);
    PlacedParts(program, st.pc, cond + then_, [Br(|else_|)]);
    PlacedParts(program, st.pc, cond, then_);
    n := CondCorrect(rt, program, e.cond, false, |then_| + 1, t, st, fuel);
    var out := EvalAs(rt, e.cond, None, StoreOf(st), fuel);
    var st1 := Steps(rt, program, st, n);
    if !out.Done? {
      Stops(Branch(false, |then_| + 1), goal, st, st1, |cond|, total, out, t, t, n, fuel);
    } else if Truthy(out.v) {
      var n2 := CodeCorrect(rt, program, e.then_, mode, t, st1, fuel);
      StepsAdd(rt, program, st, n, n2);
      var st2 := Steps(rt, program, st1, n2);
      var out2 := EvalAs(rt, e.then_, None, out.s, fuel);
      Precede(goal, st, st1, st2, |cond|, |then_|, out2, None, t, t, n, n2, fuel, fuel);
      n := n + n2;
      if out2.Done? {
        StepPlaced(rt, program, st2, Br(|else_|));
        StepsAdd(rt, program, st, n, 1);
        n := n + 1;
      } else {
        Stops(goal, goal, st, st2, |cond| + |then_|, total, out2, t, t, n, fuel);
      }
    } else {
      var n2 := CodeCorrect(rt, program, e.else_, mode, t, st1, fuel);
      StepsAdd(rt, program, st, n, n2);
      Precede(goal, st, st1, Steps(rt, program, st1, n2), |cond| + |then_| + 1, |else_|,
          EvalAs(rt, e.else_, None, out.s, fuel), None,
              t, t, n, n2, fuel, fuel);
      n := n + n2;
    }
  }

  lemma {:induction false} WhileShape(rt: Runtime, e: Expr, t: nat, s: Store, fuel: nat)
    requires e.While?
    ensures var body := Code(e.body, NotUse, t);
            var cond := CondCode(e.cond, !e.condOp, |body| + 1, t);
            WhileCode(e, t) == [LoopStart] + cond + body + [Br(-(1 + |cond| + |body| + 1))]
    ensures fuel > 0 ==>
              var out := EvalAs(rt, e.cond, None, s, fuel);
              EvalAs(rt, e, None, s, fuel) ==
              if !out.Done? then out
              else if Truthy(out.v) != e.condOp then Done(Nil, out.s)
              else var out2 := EvalAs(rt, e.body, None, out.s, fuel);
                   if out2.Done? then EvalAs(rt, e, None, out2.s, fuel - 1) else out2
    ensures fuel == 0 ==> EvalAs(rt, e, None, s, fuel) == NoFuel
  {
    hide CondCode; hide Code; hide EvalAs; hide Eval;
    LoopMeanings(rt, e, None, s, fuel);
  }

  lemma {:induction false} WhileCorrect(
      rt: Runtime, program: seq<Inst>, e: Expr, t: nat, st: State, fuel: nat) returns (n: nat)
    requires e.While? && st.At? && InFrame(e, |st.f.locals|) && Placed(program, st.pc, WhileCode(e, t))
    ensures Meets(Yields(None), st, Steps(rt, program, st, n), |WhileCode(e, t)|,
        EvalAs(rt, e, None, StoreOf(st), fuel), t, n, fuel)
    decreases fuel, e, 4
  {
    hide EvalAs; hide Code; hide CondCode; hide OperatorCode; hide OperandCode; hide LogicCode; hide Steps; hide Step;
    hide Placed; hide WhileCode;
    WhileShape(rt, e, t, StoreOf(st), fuel);
    StepsZero(rt, program, st);
    var goal := Yields(None);
    var body := Code(e.body, NotUse, t);
    var cond := CondCode(e.cond, !e.condOp, |body| + 1, t);
    var back := Br(-(1 + |cond| + |body| + 1));
    var total := |WhileCode(e, t)|;
    assert total == 1 + |cond| + |body| + 1;
    PlacedParts(program, st.pc, [LoopStart] + cond + body, [back]);
    PlacedParts(program, st.pc, [LoopStart] + cond, body);
    PlacedParts(program, st.pc, [LoopStart], cond);
    if fuel == 0 {
      n := 0;
      return;
    }
    StepPlaced(rt, program, st, LoopStart);
    var st0 := Steps(rt, program, st, 1);
    var n1 := CondCorrect(rt, program, e.cond, !e.condOp, |body| + 1, t, st0, fuel);
    StepsAdd(rt, program, st, 1, n1);
    n := 1 + n1;
    var out := EvalAs(rt, e.cond, None, StoreOf(st), fuel);
    var st1 := Steps(rt, program, st, n);
    Precede(Branch(!e.condOp, |body| + 1), st, st0, st1, 1, |cond|, out, None, t, t, 1, n1, fuel, fuel);
    if !out.Done? {
      Stops(Branch(!e.condOp, |body| + 1), goal, st, st1, 1 + |cond|, total, out, t, t, n, fuel);
    } else if Truthy(out.v) == e.condOp {
      var n2 := CodeCorrect(rt, program, e.body, NotUse, t, st1, fuel);
      StepsAdd(rt, program, st, n, n2);
      var st2 := Steps(rt, program, st1, n2);
      var out2 := EvalAs(rt, e.body, None, out.s, fuel);
      Precede(goal, st, st1, st2, 1 + |cond|, |body|, out2, None, t, t, n, n2, fuel, fuel);
      n := n + n2;
      if out2.Done? {
        n := AgainCorrect(rt, program, e, back, total, out2, t, st, n, fuel);
      } else {
        Stops(goal, goal, st, st2, 1 + |cond| + |body|, total, out2, t, t, n, fuel);
      }
    }
  }

  /** The branch back, and the rest of the loop. */
  lemma {:induction false} AgainCorrect(
      rt: Runtime, program: seq<Inst>, e: Expr, back: Inst, total: nat, out: Outcome, t: nat, st: State, n1: nat,
      fuel: nat)
    returns (n: nat)
    requires e.While? && st.At? && InFrame(e, |st.f.locals|) && Placed(program, st.pc, WhileCode(e, t))
        && total == |WhileCode(e, t)|
    requires fuel > 0 && total > 0 && back == Br(-(total as int)) && Placed(program, st.pc + total - 1, [back])
    requires out.Done? && Meets(Yields(None), st, Steps(rt, program, st, n1), total - 1, out, t, n1, fuel)
    ensures Meets(Yields(None), st, Steps(rt, program, st, n), total, EvalAs(rt, e, None, out.s, fuel - 1), t, n, fuel)
    decreases fuel, e, 3
  {
    hide WhileCode; hide EvalAs;
    var st2 := Steps(rt, program, st, n1);
    StepPlaced(rt, program, st2, back);
    hide Step;
    StepsAdd(rt, program, st, n1, 1);
    var st3 := Steps(rt, program, st, n1 + 1);
    var n2 := WhileCorrect(rt, program, e, t, st3, fuel - 1);
    StepsAdd(rt, program, st, n1 + 1, n2);
    Precede(Yields(None), st, st3, Steps(rt, program, st3, n2), 0, total, EvalAs(rt, e, None, out.s, fuel - 1), None,
        t, t, n1 + 1, n2, fuel, fuel - 1);
    n := n1 + 1 + n2;
  }

  lemma {:induction false} DoWhileShape(rt: Runtime, e: Expr, t: nat, s: Store, fuel: nat)
    requires e.DoWhile?
    ensures var body := Code(e.body, NotUse, t);
            var disp := -(1 + |body| + |CondCode(e.cond, e.condOp, 0, t)|);
            var cond := CondCode(e.cond, e.condOp, disp, t);
            DoWhileCode(e, t) == [LoopStart] + body + cond && |DoWhileCode(e, t)| == -disp
    ensures fuel > 0 ==>
              var out := EvalAs(rt, e.body, None, s, fuel);
              EvalAs(rt, e, None, s, fuel) ==
              if !out.Done? then out
              else var out2 := EvalAs(rt, e.cond, None, out.s, fuel);
                   if !out2.Done? then out2
                   else if Truthy(out2.v) == e.condOp then EvalAs(rt, e, None, out2.s, fuel - 1) else Done(Nil, out2.s)
    ensures fuel == 0 ==> EvalAs(rt, e, None, s, fuel) == NoFuel
  {
    hide CondCode; hide Code; hide EvalAs; hide Eval;
    LoopMeanings(rt, e, None, s, fuel);
    CondSize(e.cond, e.condOp, 0, -(1 + |Code(e.body, NotUse, t)| + |CondCode(e.cond, e.condOp, 0, t)|), t);
  }

  lemma {:induction false} DoWhileCorrect(
      rt: Runtime, program: seq<Inst>, e: Expr, t: nat, st: State, fuel: nat) returns (n: nat)
    requires e.DoWhile? && st.At? && InFrame(e, |st.f.locals|) && Placed(program, st.pc, DoWhileCode(e, t))
    ensures Meets(Yields(None), st, Steps(rt, program, st, n), |DoWhileCode(e, t)|,
        EvalAs(rt, e, None, StoreOf(st), fuel), t, n, fuel)
    decreases fuel, e, 4
  {
    hide EvalAs; hide Code; hide CondCode; hide OperatorCode; hide OperandCode; hide LogicCode; hide Steps; hide Step;
    hide Placed; hide DoWhileCode;
    DoWhileShape(rt, e, t, StoreOf(st), fuel);
    StepsZero(rt, program, st);
    var goal := Yields(None);
    var body := Code(e.body, NotUse, t);
    var disp := -(1 + |body| + |CondCode(e.cond, e.condOp, 0, t)|);
    var cond := CondCode(e.cond, e.condOp, disp, t);
    var total := |DoWhileCode(e, t)|;
    assert total == 1 + |body| + |cond| == -disp;
    PlacedParts(program, st.pc, [LoopStart] + body, cond);
    PlacedParts(program, st.pc, [LoopStart], body);
    if fuel == 0 {
      n := 0;
      return;
    }
    StepPlaced(rt, program, st, LoopStart);
    var st0 := Steps(rt, program, st, 1);
    var n1 := CodeCorrect(rt, program, e.body, NotUse, t, st0, fuel);
    StepsAdd(rt, program, st, 1, n1);
    n := 1 + n1;
    var out := EvalAs(rt, e.body, None, StoreOf(st), fuel);
    var st1 := Steps(rt, program, st, n);
    Precede(goal, st, st0, st1, 1, |body|, out, None, t, t, 1, n1, fuel, fuel);
    if !out.Done? {
      Stops(goal, goal, st, st1, 1 + |body|, total, out, t, t, n, fuel);
    } else {
      var n2 := CondCorrect(rt, program, e.cond, e.condOp, disp, t, st1, fuel);
      StepsAdd(rt, program, st, n, n2);
      var st2 := Steps(rt, program, st1, n2);
      var out2 := EvalAs(rt, e.cond, None, out.s, fuel);
      Precede(Branch(e.condOp, disp), st, st1, st2, 1 + |body|, |cond|, out2, None, t, t, n, n2, fuel, fuel);
      n := n + n2;
      if !out2.Done? {
        Stops(Branch(e.condOp, disp), goal, st, st2, total, total, out2, t, t, n, fuel);
      } else if Truthy(out2.v) == e.condOp {
        var n3 := DoWhileCorrect(rt, program, e, t, st2, fuel - 1);
        StepsAdd(rt, program, st, n, n3);
        Precede(goal, st, st2, Steps(rt, program, st2, n3), 0, total, EvalAs(rt, e, None, out2.s, fuel - 1), None, t,
            t, n, n3, fuel, fuel - 1);
        n := n + n3;
      }
    }
  }

  /** The loop's value, and its end mark. */
  lemma {:induction false} LoopEndCorrect(
      rt: Runtime, program: seq<Inst>, mode: Mode, size: nat, out: Outcome, t: nat, st: State, n1: nat, fuel: nat)
    returns (n: nat)
    requires !mode.Into? && st.At? && Meets(Yields(None), st, Steps(rt, program, st, n1), size, out, t, n1, fuel)
    requires out.Done? ==> out.v == Nil
    requires Placed(program, st.pc + size, ValueOfLoop(mode, t) + [LoopEnd])
    ensures Meets(Yields(ModeTarget(mode, t)), st, Steps(rt, program, st, n), size + |ValueOfLoop(mode, t)| + 1, out,
        t, n, fuel)
  {
    hide Steps; hide Step;
    n := n1;
    if out.Done? {
      var st1 := Steps(rt, program, st, n);
      PlacedParts(program, st1.pc, ValueOfLoop(mode, t), [LoopEnd]);
      if mode.Use? {
        StepPlaced(rt, program, st1, NilTo(Temp(t)));
        StepsAdd(rt, program, st, n, 1);
        n := n + 1;
      }
      StepPlaced(rt, program, Steps(rt, program, st, n), LoopEnd);
      StepsAdd(rt, program, st, n, 1);
      n := n + 1;
    }
  }

  // ----- sequences and parallel assignment -----

  lemma {:induction false} StmtsShape(rt: Runtime, es: seq<Expr>, mode: Mode, t: nat, s: Store, fuel: nat)
    ensures StmtsCode(es, mode, t) ==
            if es == [] then (if mode.NotUse? then [] else [NilTo(Dst(mode, t))])
            else if |es| == 1 then Code(es[0], mode, t)
            else Code(es[0], NotUse, t) + StmtsCode(es[1..], mode, t)
    ensures EvalStmtsAs(rt, es, IntoOf(mode), s, fuel) ==
            if es == [] then Done(Nil, s)
            else var out := EvalAs(rt, es[0], if |es| == 1 then IntoOf(mode) else None, s, fuel);
                 if |es| > 1 && out.Done? then EvalStmtsAs(rt, es[1..], IntoOf(mode), out.s, fuel) else out
  {
    hide Code; hide EvalAs;
  }

  lemma {:induction false} StmtsCorrect(
      rt: Runtime, program: seq<Inst>, es: seq<Expr>, mode: Mode, t: nat, st: State, fuel: nat) returns (n: nat)
    requires st.At? && InFrameAll(es, |st.f.locals|) && ModeOk(mode, t, |st.f.locals|)
    requires Placed(program, st.pc, StmtsCode(es, mode, t))
    ensures Meets(Yields(ModeTarget(mode, t)), st, Steps(rt, program, st, n), |StmtsCode(es, mode, t)|,
                  EvalStmtsAs(rt, es, IntoOf(mode), StoreOf(st), fuel), t, n, fuel)
    decreases fuel, es, 5
  {
    hide EvalAs; hide Code; hide CondCode; hide OperatorCode; hide OperandCode; hide LogicCode; hide Steps; hide Step;
    hide Placed; hide StmtsCode; hide EvalStmtsAs;
    StmtsShape(rt, es, mode, t, StoreOf(st), fuel);
    StepsZero(rt, program, st);
    var goal := Yields(ModeTarget(mode, t));
    if es == [] {
      n := 0;
      if !mode.NotUse? {
        n := 1;
        WriteCorrect(rt, program, NilTo(Dst(mode, t)), Dst(mode, t), Nil, t, st, fuel);
      }
    } else if |es| == 1 {
      n := CodeCorrect(rt, program, es[0], mode, t, st, fuel);
    } else {
      var first, rest := Code(es[0], NotUse, t), StmtsCode(es[1..], mode, t);
      PlacedParts(program, st.pc, first, rest);
      n := CodeCorrect(rt, program, es[0], NotUse, t, st, fuel);
      var st1 := Steps(rt, program, st, n);
      var out := EvalAs(rt, es[0], None, StoreOf(st), fuel);
      if out.Done? {
        var n2 := StmtsCorrect(rt, program, es[1..], mode, t, st1, fuel);
        StepsAdd(rt, program, st, n, n2);
        Precede(goal, st, st1, Steps(rt, program, st1, n2), |first|, |rest|,
            EvalStmtsAs(rt, es[1..], IntoOf(mode), out.s, fuel), None, t, t, n, n2, fuel, fuel);
        n := n + n2;
      } else {
        Stops(Yields(None), goal, st, st1, |first|, |first| + |rest|, out, t, t, n, fuel);
      }
    }
  }

  /** The values stand in consecutive temporaries from t on. */
  ghost predicate Listed(f: Frame, t: nat, vs: seq<Value>) {
    forall i: nat :: i < |vs| ==> Get(f, Temp(t + i)) == vs[i]
  }

  /** As Meets, for a list of values. */
  ghost predicate MeetsAll(st: State, end: State, size: nat, out: Outcomes, t: nat, n: nat, fuel: nat)
    requires st.At?
  {
    match out
    case DoneAll(vs, s) =>
      && end.At? && end.hist == s.hist && end.pc == st.pc + size
      && |s.env| == |st.f.locals| && end.f.locals == s.env
      && Kept(st.f, end.f, t, None) && Listed(end.f, t, vs)
    case RaiseAll(h) => end == Crashed(h)
    case NoFuelAll => n >= fuel && end.At? && st.pc <= end.pc < st.pc + size
  }

  lemma {:induction false} ListShape(rt: Runtime, es: seq<Expr>, t: nat, s: Store, fuel: nat)
    ensures ListCode(es, t) == if es == [] then [] else Code(es[0], Use, t) + ListCode(es[1..], t + 1)
    ensures es == [] ==> EvalAllAs(rt, es, s, fuel) == DoneAll([], s)
    ensures es != [] ==>
              var out := EvalAs(rt, es[0], None, s, fuel);
              if !out.Done? then EvalAllAs(rt, es, s, fuel) == if out.Raise? then RaiseAll(out.hist) else NoFuelAll
              else var rest := EvalAllAs(rt, es[1..], out.s, fuel);
                   EvalAllAs(rt, es, s, fuel) == if rest.DoneAll? then DoneAll([out.v] + rest.vs, rest.s) else rest
  {
    hide Code; hide EvalAs;
  }

  lemma {:induction false} NoList(st: State, t: nat, fuel: nat)
    requires st.At?
    ensures MeetsAll(st, st, 0, DoneAll([], StoreOf(st)), t, 0, fuel)
  {}

  lemma {:induction false} UseLands(st: State, end: State, size: nat, out: Outcome, t: nat, n: nat, fuel: nat)
    requires st.At? && out.Done? && Meets(Yields(Some(Temp(t))), st, end, size, out, t, n, fuel)
    ensures end.At? && end.pc == st.pc + size && StoreOf(end) == out.s && |out.s.env| == |st.f.locals|
  {}

  lemma {:induction false} ListCorrect(
      rt: Runtime, program: seq<Inst>, es: seq<Expr>, t: nat, st: State, fuel: nat) returns (n: nat)
    requires st.At? && InFrameAll(es, |st.f.locals|) && Placed(program, st.pc, ListCode(es, t))
    ensures MeetsAll(st, Steps(rt, program, st, n), |ListCode(es, t)|, EvalAllAs(rt, es, StoreOf(st), fuel), t, n, fuel)
    decreases fuel, es, 5
  {
    hide EvalAs; hide Code; hide CondCode; hide OperatorCode; hide OperandCode; hide LogicCode; hide Steps; hide Step;
    hide Placed; hide ListCode; hide EvalAllAs;
    hide Landed; hide Kept; hide Listed;
    ListShape(rt, es, t, StoreOf(st), fuel);
    StepsZero(rt, program, st);
    if es == [] {
      n := 0;
      NoList(st, t, fuel);
    } else {
      var first, rest := Code(es[0], Use, t), ListCode(es[1..], t + 1);
      PlacedParts(program, st.pc, first, rest);
      n := CodeCorrect(rt, program, es[0], Use, t, st, fuel);
      var st1 := Steps(rt, program, st, n);
      var out := EvalAs(rt, es[0], None, StoreOf(st), fuel);
      if out.Done? {
        UseLands(st, st1, |first|, out, t, n, fuel);
        var n2 := ListCorrect(rt, program, es[1..], t + 1, st1, fuel);
        StepsAdd(rt, program, st, n, n2);
        var end := Steps(rt, program, st1, n2);
        ListStep(st, st1, end, |first|, |rest|, out, EvalAllAs(rt, es[1..], out.s, fuel), t, n, n2, fuel);
        n := n + n2;
      }
    }
  }

  lemma {:induction false} ListStep(
      st: State, st1: State, end: State, size1: nat, size2: nat, out: Outcome, rest: Outcomes, t: nat, n1: nat,
      n2: nat, fuel: nat)
    requires st.At? && out.Done? && Meets(Yields(Some(Temp(t))), st, st1, size1, out, t, n1, fuel)
    requires MeetsAll(st1, end, size2, rest, t + 1, n2, fuel)
    ensures MeetsAll(st, end, size1 + size2, if rest.DoneAll? then DoneAll([out.v] + rest.vs, rest.s) else rest, t,
        n1 + n2, fuel)
  {
    if rest.DoneAll? {
      forall k: nat | k < t ensures Get(end.f, Temp(k)) == Get(st.f, Temp(k)) {
        assert Get(end.f, Temp(k)) == Get(st1.f, Temp(k));
      }
      var vs := [out.v] + rest.vs;
      forall i: nat | i < |vs| ensures Get(end.f, Temp(t + i)) == vs[i] {
        if i > 0 { assert t + 1 + (i - 1) == t + i; }
      }
    }
  }

  /** Simultaneous assignment: whatever the locals held, they receive the listed values. */
  lemma {:induction false} MovsCorrect(
      rt: Runtime, program: seq<Inst>, xs: seq<Local>, vs: seq<Value>, t: nat, st: State) returns (n: nat)
    requires st.At? && Placed(program, st.pc, MovsCode(xs, t)) && |xs| == |vs| && Listed(st.f, t, vs)
    requires forall x <- xs :: x < |st.f.locals|
    ensures Steps(rt, program, st, n) == At(st.pc + |xs|, st.f.(locals := PokeAll(st.f.locals, xs, vs)), st.hist)
    ensures |MovsCode(xs, t)| == |xs|
    decreases |xs|
  {
    hide Step; hide Steps; hide Placed; hide Listed; hide StepAt; hide PokeAll; hide MovsCode; hide Poke;
    MovsShape(st.f.locals, xs, vs, t);
    StepsZero(rt, program, st);
    if xs == [] {
      n := 0;
    } else {
      var inst := Mov(LocalReg(xs[0]), Temp(t));
      PlacedParts(program, st.pc, [inst], MovsCode(xs[1..], t + 1));
      StepPlaced(rt, program, st, inst);
      MovStep(rt, xs[0], vs, t, st);
      var st1 := Steps(rt, program, st, 1);
      assert forall x <- xs[1..] :: x in xs;
      n := MovsCorrect(rt, program, xs[1..], vs[1..], t + 1, st1);
      StepsAdd(rt, program, st, 1, n);
      n := 1 + n;
    }
  }

  lemma {:induction false} MovsShape(env: seq<Value>, xs: seq<Local>, vs: seq<Value>, t: nat)
    requires |xs| == |vs|
    ensures MovsCode(xs, t) == if xs == [] then [] else [Mov(LocalReg(xs[0]), Temp(t))] + MovsCode(xs[1..], t + 1)
    ensures PokeAll(env, xs, vs) == if xs == [] then env else PokeAll(Poke(env, xs[0], vs[0]), xs[1..], vs[1..])
  {}

  lemma {:induction false} MovStep(rt: Runtime, x: Local, vs: seq<Value>, t: nat, st: State)
    requires st.At? && vs != [] && Listed(st.f, t, vs)
    ensures var f := st.f.(locals := Poke(st.f.locals, x, vs[0]));
            StepAt(rt, Mov(LocalReg(x), Temp(t)), st) == At(st.pc + 1, f, st.hist) && Listed(f, t + 1, vs[1..])
  {
    var f := st.f.(locals := Poke(st.f.locals, x, vs[0]));
    assert vs[0] == Get(st.f, Temp(t + 0));
    forall i: nat | i < |vs[1..]| ensures Get(f, Temp(t + 1 + i)) == vs[1..][i] {
      assert Get(st.f, Temp(t + (i + 1))) == vs[i + 1];
    }
  }

  lemma {:induction false} MulAssignShape(rt: Runtime, e: Expr, mode: Mode, t: nat, s: Store, fuel: nat)
    requires e.MulAssign? && !mode.Into?
    ensures Code(e, mode, t) ==
            ListCode(e.es, t) + MovsCode(e.xs, t) + if mode.NotUse? then [] else [ArrayTo(Temp(t), t, |e.es|)]
    ensures EvalAs(rt, e, None, s, fuel) ==
            match EvalAllAs(rt, e.es, s, fuel)
            case DoneAll(vs, s1) => Done(Array(vs), s1.(env := PokeAll(s1.env, e.xs, vs)))
            case RaiseAll(h) => Raise(h)
            case NoFuelAll => NoFuel
  {
    hide ListCode; hide MovsCode; hide EvalAllAs;
  }

  lemma {:induction false} MulAssignCorrect(
      rt: Runtime, program: seq<Inst>, e: Expr, mode: Mode, t: nat, st: State, fuel: nat) returns (n: nat)
    requires e.MulAssign? && !mode.Into? && st.At? && InFrame(e, |st.f.locals|)
        && Placed(program, st.pc, Code(e, mode, t))
    ensures Meets(Yields(ModeTarget(mode, t)), st, Steps(rt, program, st, n), |Code(e, mode, t)|,
        EvalAs(rt, e, None, StoreOf(st), fuel), t, n, fuel)
    decreases fuel, e, 4
  {
    hide EvalAs; hide Code; hide CondCode; hide OperatorCode; hide OperandCode; hide LogicCode; hide Steps; hide Step;
    hide Placed; hide ListCode; hide EvalAllAs; hide MovsCode;
    MulAssignShape(rt, e, mode, t, StoreOf(st), fuel);
    var (list, movs) := (ListCode(e.es, t), MovsCode(e.xs, t));
    var tail := if mode.NotUse? then [] else [ArrayTo(Dst(mode, t), t, |e.es|)];
    PlacedParts(program, st.pc, list + movs, tail);
    PlacedParts(program, st.pc, list, movs);
    assert |Code(e, mode, t)| == |list| + |movs| + |tail|;
    n := ListCorrect(rt, program, e.es, t, st, fuel);
    var st1 := Steps(rt, program, st, n);
    var out := EvalAllAs(rt, e.es, StoreOf(st), fuel);
    if out.DoneAll? {
      var n2 := MovsCorrect(rt, program, e.xs, out.vs, t, st1);
      StepsAdd(rt, program, st, n, n2);
      n := n + n2;
      var st2 := Steps(rt, program, st, n);
      assert forall k: nat :: Get(st2.f, Temp(k)) == Get(st1.f, Temp(k));
      if mode.Use? {
        ArrayCorrect(rt, program, st2, t, out.vs);
        StepsAdd(rt, program, st, n, 1);
        n := n + 1;
      }
    }
  }

  lemma {:induction false} ArrayCorrect(rt: Runtime, program: seq<Inst>, st: State, t: nat, vs: seq<Value>)
    requires st.At? && Listed(st.f, t, vs) && Placed(program, st.pc, [ArrayTo(Temp(t), t, |vs|)])
    ensures Steps(rt, program, st, 1) == At(st.pc + 1, Set(st.f, Temp(t), Array(vs)), st.hist)
  {
    hide Step; hide Steps; hide Placed;
    StepPlaced(rt, program, st, ArrayTo(Temp(t), t, |vs|));
    assert seq(|vs|, i requires 0 <= i < |vs| => Get(st.f, Temp(t + i))) == vs;
  }

  // ----- every expression -----

  /** The compiler is correct: the code of an expression yields its value where it is wanted, leaves the
      locals as the evaluation does and every lower temporary alone, makes the same calls in the same
      order, raises when the evaluation raises, and is still at work when the evaluation is. */
  lemma {:induction false} CodeCorrect(
      rt: Runtime, program: seq<Inst>, e: Expr, mode: Mode, t: nat, st: State, fuel: nat) returns (n: nat)
    requires st.At? && Placed(program, st.pc, Code(e, mode, t))
    requires InFrame(e, |st.f.locals|) && ModeOk(mode, t, |st.f.locals|)
    ensures Meets(Yields(ModeTarget(mode, t)), st, Steps(rt, program, st, n), |Code(e, mode, t)|,
                  EvalAs(rt, e, IntoOf(mode), StoreOf(st), fuel), t, n, fuel)
    decreases fuel, e, 5, mode.Into?
  {
    hide EvalAs; hide Code; hide CondCode; hide OperatorCode; hide OperandCode; hide LogicCode; hide Steps; hide Step;
    hide Placed;
    hide Meets; hide InFrame;
    Dispatch(rt, e, mode, t, StoreOf(st), fuel);
    var dst := Dst(mode, t);
    if mode.Into? && Indirect(e) {
      n := IndirectCorrect(rt, program, e, mode, t, st, fuel);
    } else if e.If? {
      n := IfCorrect(rt, program, e, mode, t, st, fuel);
    } else if e.MulAssign? {
      n := MulAssignCorrect(rt, program, e, mode, t, st, fuel);
    } else if e.While? || e.DoWhile? {
      n := LoopCorrect(rt, program, e, mode, t, st, fuel);
    } else if e.Stmts? {
      n := StmtsCorrect(rt, program, e.es, mode, t, st, fuel);
    } else if e.Bin? || e.Cmp? {
      n := OperatorCorrect(rt, program, e, dst, t, false, st, fuel);
      Forget(mode, st, Steps(rt, program, st, n), |Code(e, mode, t)|, EvalAs(rt, e, IntoOf(mode), StoreOf(st), fuel),
          t, t, n, fuel);
    } else if e.And? || e.Or? {
      var t2 := if mode.Into? then t else t + 1;
      n := LogicCorrect(rt, program, e, dst, t2, st, fuel);
      Forget(mode, st, Steps(rt, program, st, n), |Code(e, mode, t)|, EvalAs(rt, e, IntoOf(mode), StoreOf(st), fuel),
          t, t2, n, fuel);
    } else {
      n := SimpleCorrect(rt, program, e, mode, t, st, fuel);
    }
  }

  /** Which code and which evaluation each kind of expression has. */
  lemma {:induction false} Dispatch(rt: Runtime, e: Expr, mode: Mode, t: nat, s: Store, fuel: nat)
    ensures e.Stmts? ==> Code(e, mode, t) == StmtsCode(e.es, mode, t)
    ensures e.Stmts? ==> EvalAs(rt, e, IntoOf(mode), s, fuel) == EvalStmtsAs(rt, e.es, IntoOf(mode), s, fuel)
    ensures e.Bin? || e.Cmp? ==> EvalAs(rt, e, IntoOf(mode), s, fuel) == EvalAs(rt, e, None, s, fuel)
    ensures Indirect(e) ==> EvalAs(rt, e, IntoOf(mode), s, fuel) == EvalAs(rt, e, None, s, fuel)
    ensures e.Bin? || e.Cmp? ==> Code(e, mode, t) == OperatorCode(e, Dst(mode, t), t, false)
    ensures e.And? || e.Or? ==> Code(e, mode, t) == LogicCode(e, Dst(mode, t), if mode.Into? then t else t + 1)
    ensures forall n: nat :: InFrame(e, n) && e.Stmts? ==> InFrameAll(e.es, n)
  {
    hide StmtsCode; hide OperatorCode; hide LogicCode; hide EvalStmtsAs; hide OperandsAs; hide EvalAllAs;
    hide InFrameAll;
  }

  lemma {:induction false} LoopShape(e: Expr, mode: Mode, t: nat)
    requires (e.While? || e.DoWhile?) && !mode.Into?
    ensures Code(e, mode, t) == (if e.While? then WhileCode(e, t) else DoWhileCode(e, t)) + ValueOfLoop(mode,
        t) + [LoopEnd]
  {
    hide WhileCode; hide DoWhileCode;
  }

  lemma {:induction false} LoopValue(rt: Runtime, e: Expr, s: Store, fuel: nat)
    requires e.While? || e.DoWhile?
    ensures EvalAs(rt, e, None, s, fuel).Done? ==> EvalAs(rt, e, None, s, fuel).v == Nil
    decreases fuel
  {
    hide EvalAs; hide WhileCode; hide DoWhileCode; hide Code; hide CondCode;
    var first, second := if e.While? then e.cond else e.body, if e.While? then e.body else e.cond;
    if e.While? { WhileShape(rt, e, 0, s, fuel); } else { DoWhileShape(rt, e, 0, s, fuel); }
    if fuel > 0 {
      var out := EvalAs(rt, first, None, s, fuel);
      if out.Done? {
        var out2 := EvalAs(rt, second, None, out.s, fuel);
        if out2.Done? { LoopValue(rt, e, out2.s, fuel - 1); }
      }
    }
  }

  lemma {:induction false} LoopCorrect(
      rt: Runtime, program: seq<Inst>, e: Expr, mode: Mode, t: nat, st: State, fuel: nat) returns (n: nat)
    requires (e.While? || e.DoWhile?) && !mode.Into? && st.At? && InFrame(e, |st.f.locals|)
        && Placed(program, st.pc, Code(e, mode, t))
    ensures Meets(Yields(ModeTarget(mode, t)), st, Steps(rt, program, st, n), |Code(e, mode, t)|,
        EvalAs(rt, e, None, StoreOf(st), fuel), t, n, fuel)
    decreases fuel, e, 5, false, 0
  {
    hide EvalAs; hide Code; hide CondCode; hide OperatorCode; hide OperandCode; hide LogicCode; hide Steps; hide Step;
    hide Placed;
    hide WhileCode; hide DoWhileCode; hide InFrame; hide Meets; hide ValueOfLoop;
    LoopShape(e, mode, t);
    LoopValue(rt, e, StoreOf(st), fuel);
    var loop := if e.While? then WhileCode(e, t) else DoWhileCode(e, t);
    assert loop + ValueOfLoop(mode, t) + [LoopEnd] == loop + (ValueOfLoop(mode, t) + [LoopEnd]);
    PlacedParts(program, st.pc, loop, ValueOfLoop(mode, t) + [LoopEnd]);
    if e.While? {
      n := WhileCorrect(rt, program, e, t, st, fuel);
    } else {
      n := DoWhileCorrect(rt, program, e, t, st, fuel);
    }
    n := LoopEndCorrect(rt, program, mode, |loop|, EvalAs(rt, e, None, StoreOf(st), fuel), t, st, n, fuel);
  }

  lemma {:induction false} IndirectShape(e: Expr, mode: Mode, t: nat)
    requires mode.Into? && Indirect(e)
    ensures Code(e, mode, t) == Code(e, Use, t) + MovCode(mode.dst, Temp(t))
  {
    hide CondCode; hide MovCode; hide MovsCode; hide ListCode; hide WhileCode; hide DoWhileCode;
  }

  lemma {:induction false} IndirectCorrect(
      rt: Runtime, program: seq<Inst>, e: Expr, mode: Mode, t: nat, st: State, fuel: nat) returns (n: nat)
    requires mode.Into? && Indirect(e) && st.At? && Placed(program, st.pc, Code(e, mode, t))
    requires InFrame(e, |st.f.locals|) && ModeOk(mode, t, |st.f.locals|)
    ensures Meets(Yields(Some(mode.dst)), st, Steps(rt, program, st, n), |Code(e, mode, t)|,
        EvalAs(rt, e, IntoOf(mode), StoreOf(st), fuel), t, n, fuel)
    decreases fuel, e, 5, true, 0
  {
    hide EvalAs; hide Code; hide CondCode; hide OperatorCode; hide OperandCode; hide LogicCode; hide Steps; hide Step;
    hide Placed;
    IndirectShape(e, mode, t);
    Dispatch(rt, e, mode, t, StoreOf(st), fuel);
    var code, mov := Code(e, Use, t), MovCode(mode.dst, Temp(t));
    PlacedParts(program, st.pc, code, mov);
    n := CodeCorrect(rt, program, e, Use, t, st, fuel);
    var st1 := Steps(rt, program, st, n);
    var out := EvalAs(rt, e, None, StoreOf(st), fuel);
    if out.Done? {
      var n2 := MovCorrect(rt, program, mode.dst, Temp(t), t, st1, fuel);
      StepsAdd(rt, program, st, n, n2);
      Precede(Yields(Some(mode.dst)), st, st1, Steps(rt, program, st1, n2), |code|, |mov|, Done(out.v, StoreOf(st1)),
          Some(Temp(t)),
              t, t, n, n2, fuel, fuel);
      n := n + n2;
    }
  }

  lemma {:induction false} SimpleCorrect(
      rt: Runtime, program: seq<Inst>, e: Expr, mode: Mode, t: nat, st: State, fuel: nat) returns (n: nat)
    requires e.NilLit? || e.BoolLit? || e.IntLit? || e.LocalVar? || e.Neg? || e.Assign?
    requires st.At? && Placed(program, st.pc, Code(e, mode, t))
    requires InFrame(e, |st.f.locals|) && ModeOk(mode, t, |st.f.locals|)
    ensures Meets(Yields(ModeTarget(mode, t)), st, Steps(rt, program, st, n), |Code(e, mode, t)|,
        EvalAs(rt, e, IntoOf(mode), StoreOf(st), fuel), t, n, fuel)
    decreases fuel, e, 4
  {
    var dst := Dst(mode, t);
    if e.Neg? && !(mode.Into? && e.e.IntLit?) {
      n := NegCorrect(rt, program, e, mode, t, st, fuel);
    } else if e.Assign? {
      n := AssignCorrect(rt, program, e, mode, t, st, fuel);
    } else if mode.NotUse? {
      n := 0;
    } else if e.LocalVar? {
      n := MovCorrect(rt, program, dst, LocalReg(e.x), t, st, fuel);
    } else if e.IntLit? || e.Neg? {
      n := 1;
      IntCorrect(rt, program, if e.IntLit? then e.i else -e.e.i, dst, t, st, fuel);
    } else {
      n := 1;
      WriteCorrect(rt, program, Code(e, mode, t)[0], dst, if e.NilLit? then Nil else Bool(e.b), t, st, fuel);
    }
  }

  lemma {:induction false} NegShape(rt: Runtime, e: Expr, mode: Mode, t: nat, s: Store, fuel: nat)
    requires e.Neg? && !(mode.Into? && e.e.IntLit?)
    ensures var dst := Dst(mode, t);
            Code(e, mode, t) == Code(e.e, if mode.Into? then mode else Use, t) + [NegTo(dst, dst)]
    ensures var out := EvalAs(rt, e.e, IntoOf(mode), s, fuel);
            EvalAs(rt, e, IntoOf(mode), s, fuel) == if out.Done? then Negate(rt, out.s, out.v) else out
  {}

  lemma {:induction false} NegCorrect(
      rt: Runtime, program: seq<Inst>, e: Expr, mode: Mode, t: nat, st: State, fuel: nat) returns (n: nat)
    requires e.Neg? && !(mode.Into? && e.e.IntLit?)
    requires st.At? && Placed(program, st.pc, Code(e, mode, t))
    requires InFrame(e, |st.f.locals|) && ModeOk(mode, t, |st.f.locals|)
    ensures Meets(Yields(ModeTarget(mode, t)), st, Steps(rt, program, st, n), |Code(e, mode, t)|,
        EvalAs(rt, e, IntoOf(mode), StoreOf(st), fuel), t, n, fuel)
    decreases fuel, e, 3
  {
    hide EvalAs; hide Code; hide CondCode; hide OperatorCode; hide OperandCode; hide LogicCode; hide Steps; hide Step;
    hide Placed;
    NegShape(rt, e, mode, t, StoreOf(st), fuel);
    var dst := Dst(mode, t);
    var inner := if mode.Into? then mode else Use;
    var code := Code(e.e, inner, t);
    var inst := NegTo(dst, dst);
    PlacedParts(program, st.pc, code, [inst]);
    n := CodeCorrect(rt, program, e.e, inner, t, st, fuel);
    var st1 := Steps(rt, program, st, n);
    var out := EvalAs(rt, e.e, IntoOf(mode), StoreOf(st), fuel);
    if out.Done? {
      StepPlaced(rt, program, st1, inst);
      StepsAdd(rt, program, st, n, 1);
      n := n + 1;
      var result := Negate(rt, out.s, out.v);
      if result.Done? {
        SetLands(st.f, st1.f, out.s.env, dst, result.v, t);
      }
    }
  }

  lemma {:induction false} AssignShape(rt: Runtime, e: Expr, mode: Mode, t: nat, s: Store, fuel: nat)
    requires e.Assign?
    ensures Code(e, mode, t) ==
            Code(e.e, Into(LocalReg(e.x)), t) + if mode.NotUse? then [] else MovCode(Dst(mode, t), LocalReg(e.x))
    ensures var out := EvalAs(rt, e.e, Some(e.x), s, fuel);
            EvalAs(rt, e, IntoOf(mode), s, fuel) == if out.Done?
                then Done(out.v, out.s.(env := Poke(out.s.env, e.x, out.v))) else out
  {
    hide MovCode;
  }

  lemma {:induction false} AssignCorrect(
      rt: Runtime, program: seq<Inst>, e: Expr, mode: Mode, t: nat, st: State, fuel: nat) returns (n: nat)
    requires e.Assign? && st.At? && Placed(program, st.pc, Code(e, mode, t))
    requires InFrame(e, |st.f.locals|) && ModeOk(mode, t, |st.f.locals|)
    ensures Meets(Yields(ModeTarget(mode, t)), st, Steps(rt, program, st, n), |Code(e, mode, t)|,
        EvalAs(rt, e, IntoOf(mode), StoreOf(st), fuel), t, n, fuel)
    decreases fuel, e, 3
  {
    hide EvalAs; hide Code; hide CondCode; hide OperatorCode; hide OperandCode; hide LogicCode; hide Steps; hide Step;
    hide Placed;
    AssignShape(rt, e, mode, t, StoreOf(st), fuel);
    var x := LocalReg(e.x);
    var dst := Dst(mode, t);
    var code, mov := Code(e.e, Into(x), t), if mode.NotUse? then [] else MovCode(dst, x);
    PlacedParts(program, st.pc, code, mov);
    n := CodeCorrect(rt, program, e.e, Into(x), t, st, fuel);
    var st1 := Steps(rt, program, st, n);
    var out := EvalAs(rt, e.e, Some(e.x), StoreOf(st), fuel);
    if out.Done? && !mode.NotUse? {
      var n2 := MovCorrect(rt, program, dst, x, t, st1, fuel);
      StepsAdd(rt, program, st, n, n2);
      Precede(Yields(Some(dst)), st, st1, Steps(rt, program, st1, n2), |code|, |mov|, Done(out.v, StoreOf(st1)), None,
              t, t, n, n2, fuel, fuel);
      n := n + n2;
    }
  }

  // ----- whole programs -----

  /** The program has run to its end and its value is in the first temporary. */
  ghost predicate Finished(end: State, size: nat, v: Value, s: Store) {
    end.At? && end.pc == size && StoreOf(end) == s && Get(end.f, Temp(0)) == v
  }

  ghost predicate Halted(end: State, size: nat) {
    end.At? ==> end.pc == size
  }

  lemma {:induction false} HaltedStays(rt: Runtime, program: seq<Inst>, st: State, n: nat)
    requires Halted(st, |program|)
    ensures Steps(rt, program, st, n) == st
    decreases n
  {
    if n > 0 { HaltedStays(rt, program, st, n - 1); }
  }

  /** A program halts in one way only. */
  lemma {:induction false} HaltsOnce(rt: Runtime, program: seq<Inst>, st: State, m: nat, n: nat)
    requires Halted(Steps(rt, program, st, m), |program|) && m <= n
    ensures Steps(rt, program, st, n) == Steps(rt, program, st, m)
  {
    StepsAdd(rt, program, st, m, n - m);
    HaltedStays(rt, program, Steps(rt, program, st, m), n - m);
  }

  /** What the source means. */
  ghost predicate EvaluatesTo(rt: Runtime, e: Expr, s: Store, out: Outcome) {
    !out.NoFuel? && exists fuel: nat :: Eval(rt, e, s, fuel) == out
  }

  /** What the compiled code means. */
  ghost predicate ComesTo(rt: Runtime, e: Expr, s: Store, out: Outcome) {
    !out.NoFuel? && exists fuel: nat :: EvalAs(rt, e, None, s, fuel) == out
  }

  ghost predicate RunsTo(rt: Runtime, program: seq<Inst>, st: State, out: Outcome) {
    exists n: nat :: EndsAs(out, Steps(rt, program, st, n), |program|)
  }

  /** Every program compiled from an expression ends, after certain calls, with a value and certain locals, or
      crashes, exactly as the compiled meaning of the expression says. */
  lemma {:induction false} ProgramComesTo(rt: Runtime, e: Expr, f: Frame, out: Outcome)
    requires InFrame(e, |f.locals|)
    ensures ComesTo(rt, e, Store(f.locals, []), out) <==> RunsTo(rt, Code(e, Use, 0), At(0, f, []), out)
  {
    hide EvalAs; hide Steps; hide ComesTo; hide RunsTo; hide Code; hide InFrame;
    var (program, st) := (Code(e, Use, 0), At(0, f, []));
    if ComesTo(rt, e, Store(f.locals, []), out) {
      var fuel := EnoughFuel(rt, e, StoreOf(st), out);
      var n := ProgramRuns(rt, e, f, fuel);
      RunFound(rt, program, st, out, n);
    }
    if RunsTo(rt, program, st, out) {
      var n := EnoughSteps(rt, program, st, out);
      var m := ProgramRuns(rt, e, f, n + 1);
      if m <= n { HaltsOnce(rt, program, st, m, n); } else { HaltsOnce(rt, program, st, n, m); }
      OutcomeFound(rt, e, StoreOf(st), out, n + 1);
    }
  }

  /** A program compiled from a plain expression behaves as the expression does: it ends with a value, with
      certain locals, after certain calls exactly when the evaluation does, and crashes after certain calls
      exactly when the evaluation raises after them. */
  lemma {:induction false} ProgramBehavesAsExpr(rt: Runtime, e: Expr, f: Frame, out: Outcome)
    requires InFrame(e, |f.locals|) && Plain(e)
    ensures EvaluatesTo(rt, e, Store(f.locals, []), out) <==> RunsTo(rt, Code(e, Use, 0), At(0, f, []), out)
  {
    hide Code; hide Eval; hide EvalAs; hide RunsTo; hide Plain; hide InFrame;
    ProgramComesTo(rt, e, f, out);
    forall fuel: nat ensures Eval(rt, e, Store(f.locals, []), fuel) == EvalAs(rt, e, None, Store(f.locals, []), fuel) {
      AsWritten(rt, e, None, Store(f.locals, []), fuel);
    }
  }

  lemma {:induction false} EnoughFuel(rt: Runtime, e: Expr, s: Store, out: Outcome) returns (fuel: nat)
    requires ComesTo(rt, e, s, out)
    ensures EvalAs(rt, e, None, s, fuel) == out && !out.NoFuel?
  {
    hide EvalAs;
    fuel :| EvalAs(rt, e, None, s, fuel) == out;
  }

  lemma {:induction false} OutcomeFound(rt: Runtime, e: Expr, s: Store, out: Outcome, fuel: nat)
    requires EvalAs(rt, e, None, s, fuel) == out && !out.NoFuel?
    ensures ComesTo(rt, e, s, out)
  {
    hide EvalAs;
  }

  lemma {:induction false} EnoughSteps(rt: Runtime, program: seq<Inst>, st: State, out: Outcome) returns (n: nat)
    requires RunsTo(rt, program, st, out)
    ensures EndsAs(out, Steps(rt, program, st, n), |program|)
  {
    hide Steps;
    n :| EndsAs(out, Steps(rt, program, st, n), |program|);
  }

  lemma {:induction false} RunFound(rt: Runtime, program: seq<Inst>, st: State, out: Outcome, n: nat)
    requires EndsAs(out, Steps(rt, program, st, n), |program|)
    ensures RunsTo(rt, program, st, out)
  {
    hide Steps;
  }

  ghost predicate Diverges(rt: Runtime, e: Expr, s: Store) {
    forall fuel: nat :: Eval(rt, e, s, fuel).NoFuel?
  }

  ghost predicate NeverComes(rt: Runtime, e: Expr, s: Store) {
    forall fuel: nat :: EvalAs(rt, e, None, s, fuel).NoFuel?
  }

  ghost predicate RunsOn(rt: Runtime, program: seq<Inst>, st: State) {
    forall n: nat :: !Halted(Steps(rt, program, st, n), |program|)
  }

  /** The program runs for ever exactly when the compiled meaning exhausts any amount of fuel: for plain
      expressions, exactly when the evaluation does. */
  lemma {:induction false} ProgramDivergesAsExpr(rt: Runtime, e: Expr, f: Frame)
    requires InFrame(e, |f.locals|)
    ensures NeverComes(rt, e, Store(f.locals, [])) <==> RunsOn(rt, Code(e, Use, 0), At(0, f, []))
    ensures Plain(e) ==> (Diverges(rt, e, Store(f.locals, [])) <==> RunsOn(rt, Code(e, Use, 0), At(0, f, [])))
  {
    hide Code; hide EvalAs; hide Eval; hide Steps; hide InFrame; hide Plain;
    var (program, st) := (Code(e, Use, 0), At(0, f, []));
    if NeverComes(rt, e, StoreOf(st)) {
      forall n: nat ensures !Halted(Steps(rt, program, st, n), |program|) {
        var m := ProgramRuns(rt, e, f, n + 1);
        if Halted(Steps(rt, program, st, n), |program|) { HaltsOnce(rt, program, st, n, m); }
      }
    } else {
      var fuel: nat :| !EvalAs(rt, e, None, StoreOf(st), fuel).NoFuel?;
      var n := ProgramRuns(rt, e, f, fuel);
      assert Halted(Steps(rt, program, st, n), |program|);
    }
    if Plain(e) {
      forall fuel: nat ensures Eval(rt, e, StoreOf(st), fuel) == EvalAs(rt, e, None, StoreOf(st), fuel) {
        AsWritten(rt, e, None, StoreOf(st), fuel);
      }
    }
  }

  ghost predicate EndsAs(out: Outcome, end: State, size: nat) {
    match out
    case Done(v, s) => Finished(end, size, v, s)
    case Raise(h) => end == Crashed(h)
    case NoFuel => false
  }

  /** A program that has run n steps against an evaluation with this fuel: at an end like the evaluation's, or
      still at work. */
  ghost predicate Keeps(out: Outcome, end: State, size: nat, n: nat, fuel: nat) {
    if out.NoFuel? then n >= fuel && !Halted(end, size) else EndsAs(out, end, size)
  }

  lemma {:induction false} ProgramRuns(rt: Runtime, e: Expr, f: Frame, fuel: nat) returns (n: nat)
    requires InFrame(e, |f.locals|)
    ensures Keeps(EvalAs(rt, e, None, Store(f.locals, []), fuel), Steps(rt, Code(e, Use, 0), At(0, f, []), n),
                  |Code(e, Use, 0)|, n, fuel)
  {
    hide Code; hide EvalAs; hide Steps; hide InFrame;
    var (program, st) := (Code(e, Use, 0), At(0, f, []));
    assert program[0..0 + |program|] == program;
    n := CodeCorrect(rt, program, e, Use, 0, st, fuel);
  }
}
