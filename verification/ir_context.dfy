/** The generator itself: appends to `ir`, allocates and patches `labels`, and moves the counter of
    temporaries, construct by construct. */
module IrContexts {
  import opened Prelude
  import opened RubyCore
  import opened RegisterMachine
  import opened BytecodeSpec
  import opened Bytecodegen

  /** The two sides of a parallel assignment have the same length, as the generator asserts. */
  predicate Balanced(e: Expr)
    decreases e, 1
  {
    match e
    case Neg(e1) => Balanced(e1)
    case Bin(_, l, r) => Balanced(l) && Balanced(r)
    case Cmp(_, l, r) => Balanced(l) && Balanced(r)
    case And(l, r) => Balanced(l) && Balanced(r)
    case Or(l, r) => Balanced(l) && Balanced(r)
    case If(c, a, b) => Balanced(c) && Balanced(a) && Balanced(b)
    case While(c, b, _) => Balanced(c) && Balanced(b)
    case DoWhile(c, b, _) => Balanced(c) && Balanced(b)
    case Stmts(es) => BalancedAll(es)
    case Assign(_, e1) => Balanced(e1)
    case MulAssign(xs, es) => |xs| == |es| && BalancedAll(es)
    case _ => true
  }

  predicate BalancedAll(es: seq<Expr>)
    decreases es, 0
  {
    es != [] ==> Balanced(es[0]) && BalancedAll(es[1..])
  }

  lemma {:induction false} BalancedAt(es: seq<Expr>, i: nat)
    requires BalancedAll(es) && i < |es|
    ensures Balanced(es[i])
    decreases i
  {
    if i > 0 { BalancedAt(es[1..], i - 1); }
  }

  lemma {:induction false} BalancedParts(e: Expr)
    requires Balanced(e)
    ensures IsBinop(e) ==> Balanced(e.lhs) && Balanced(e.rhs)
    ensures e.Neg? || e.Assign? ==> Balanced(e.e)
    ensures e.If? ==> Balanced(e.cond) && Balanced(e.then_) && Balanced(e.else_)
    ensures e.While? || e.DoWhile? ==> Balanced(e.cond) && Balanced(e.body)
    ensures e.Stmts? ==> BalancedAll(e.es)
    ensures e.MulAssign? ==> |e.xs| == |e.es| && BalancedAll(e.es)
  {
    hide BalancedAll;
  }

  predicate RegIn(r: Reg, n: nat) {
    r.Temp? ==> r.t < n
  }

  predicate InstIn(inst: Inst, n: nat) {
    match inst
    case NilTo(d) => RegIn(d, n)
    case LiteralTo(d, _) => RegIn(d, n)
    case IntegerTo(d, _) => RegIn(d, n)
    case Mov(d, s) => RegIn(d, n) && RegIn(s, n)
    case NegTo(d, s) => RegIn(d, n) && RegIn(s, n)
    case BinOp(_, d, l, r) => RegIn(d, n) && RegIn(l, n) && RegIn(r, n)
    case BinOpRi(_, d, l, _) => RegIn(d, n) && RegIn(l, n)
    case BinOpIr(_, d, _, r) => RegIn(d, n) && RegIn(r, n)
    case CmpRr(_, d, l, r, _) => RegIn(d, n) && RegIn(l, n) && RegIn(r, n)
    case CmpRi(_, d, l, _, _) => RegIn(d, n) && RegIn(l, n)
    case CondBr(c, _, _, _) => RegIn(c, n)
    case ArrayTo(d, first, len) => RegIn(d, n) && first + len <= n
    case _ => true
  }

  /** The instruction uses fewer than n temporaries and m labels. */
  predicate OpIn(op: BcIr, n: nat, m: nat) {
    match op
    case Op(inst) => InstIn(inst, n)
    case BrTo(l) => l < m
    case CondBrTo(c, l, _, _) => RegIn(c, n) && l < m
  }

  ghost predicate AllIn(a: Image, n: nat) {
    forall i: nat :: i < |a.ir| ==> OpIn(a.ir[i], n, |a.labels|)
  }

  lemma {:induction false} InMore(op: BcIr, n: nat, m: nat, n2: nat, m2: nat)
    requires OpIn(op, n, m) && n <= n2 && m <= m2
    ensures OpIn(op, n2, m2)
  {}

  lemma {:induction false} AllInMore(a: Image, n: nat, b: Image, n2: nat)
    requires AllIn(a, n) && n <= n2 && a.ir == b.ir && |a.labels| <= |b.labels|
    ensures AllIn(b, n2)
  {
    hide OpIn;
    forall i: nat | i < |b.ir| ensures OpIn(b.ir[i], n2, |b.labels|) {
      assert OpIn(a.ir[i], n, |a.labels|);
      InMore(a.ir[i], n, |a.labels|, n2, |b.labels|);
    }
  }

  function GivenOr(dst: Option<Reg>, t: nat): Reg {
    if dst.Some? then dst.value else Temp(t)
  }

  predicate IsBinop(e: Expr) {
    e.Bin? || e.Cmp? || e.And? || e.Or?
  }

  function BinopCode(e: Expr, dst: Option<Reg>, t: nat): seq<Inst>
    requires IsBinop(e)
  {
    if e.Bin? || e.Cmp? then OperatorCode(e, GivenOr(dst, t), t, false)
    else LogicCode(e, GivenOr(dst, t), t + if dst.Some? then 0 else 1)
  }

  function MulValue(mode: Mode, t: nat, n: nat): seq<Inst> {
    if mode.NotUse? then [] else [ArrayTo(Temp(t), t, n)]
  }

  lemma {:induction false} OperatorShape(e: Expr, dst: Reg, t: nat, optimizable: bool)
    requires e.Bin? || e.Cmp?
    ensures var (l, r, t') := (e.lhs, e.rhs, SecondTemp(e.lhs, e.rhs, t));
            var both := OperandCode(l, t) + OperandCode(r, t');
            OperatorCode(e, dst, t, optimizable) ==
            if e.Cmp? then
              if IsSmi(r) then OperandCode(l, t) + [CmpRi(e.kind, dst, OperandReg(l, t), r.i, optimizable)]
              else both + [CmpRr(e.kind, dst, OperandReg(l, t), OperandReg(r, t'), optimizable)]
            else if HasImmediate(e.op) && IsSmi(r) then OperandCode(l, t) + [BinOpRi(e.op, dst, OperandReg(l, t), r.i)]
            else if HasImmediate(e.op) && IsSmi(l) then OperandCode(r, t) + [BinOpIr(e.op, dst, l.i, OperandReg(r, t))]
            else both + [BinOp(e.op, dst, OperandReg(l, t), OperandReg(r, t'))]
  {
    hide OperandCode;
  }

  lemma {:induction false} LeafShape(c: Expr, jmpIf: bool, t: nat)
    requires !c.And? && !c.Or?
    ensures forall disp: int :: CondCode(c, jmpIf, disp, t) ==
              if c.Cmp? then OperatorCode(c, Temp(t), t, true) + [CondBr(Temp(t), disp, true, jmpIf)]
              else OperandCode(c, t) + [CondBr(OperandReg(c, t), disp, false, jmpIf)]
  {
    hide OperandCode; hide OperatorCode;
  }

  lemma {:induction false} NoLists(t: nat)
    ensures ListCode([], t) == [] && MovsCode([], t) == []
  {}

  lemma {:induction false} CodeShape(e: Expr, mode: Mode, t: nat)
    ensures mode.Into? && Indirect(e) ==> Code(e, mode, t) == Code(e, Use, t) + MovCode(mode.dst, Temp(t))
    ensures e.NilLit? || e.BoolLit? || e.IntLit? || e.LocalVar? ==>
              Code(e, mode, t) ==
              if mode.NotUse? then []
              else if e.NilLit? then [NilTo(Dst(mode, t))]
              else if e.BoolLit? then [LiteralTo(Dst(mode, t), Bool(e.b))]
              else if e.IntLit? then IntCode(Dst(mode, t), e.i)
              else MovCode(Dst(mode, t), LocalReg(e.x))
    ensures e.Neg? ==>
              Code(e, mode, t) ==
              if mode.Into? && e.e.IntLit? then IntCode(mode.dst, -e.e.i)
              else if mode.Into? then Code(e.e, mode, t) + [NegTo(mode.dst, mode.dst)]
              else Code(e.e, Use, t) + [NegTo(Temp(t), Temp(t))]
    ensures IsBinop(e) ==> Code(e, mode, t) == BinopCode(e, if mode.Into? then Some(mode.dst) else None, t)
    ensures e.Assign? ==>
              Code(e, mode, t) == Code(e.e, Into(LocalReg(e.x)), t) + if mode.NotUse? then []
                  else MovCode(Dst(mode, t), LocalReg(e.x))
    ensures e.Stmts? ==> Code(e, mode, t) == StmtsCode(e.es, mode, t)
    ensures e.While? && !mode.Into? ==> Code(e, mode, t) == WhileCode(e, t) + ValueOfLoop(mode, t) + [LoopEnd]
    ensures e.DoWhile? && !mode.Into? ==> Code(e, mode, t) == DoWhileCode(e, t) + ValueOfLoop(mode, t) + [LoopEnd]
    ensures e.MulAssign? && !mode.Into? ==>
              Code(e, mode, t) == ListCode(e.es, t) + MovsCode(e.xs, t) + MulValue(mode, t, |e.es|)
  {
    hide OperatorCode; hide LogicCode; hide CondCode; hide MovCode; hide IntCode; hide StmtsCode; hide ListCode;
    hide MovsCode;
    hide WhileCode; hide DoWhileCode; hide ValueOfLoop;
  }

  /** Counters for the function being compiled. */
  class ISeqInfo {
    var temp: nat     // the next temporary
    var tempNum: nat  // how many are needed in all

    constructor ()
      ensures temp == 0 && tempNum == 0
    {
      temp := 0;
      tempNum := 0;
    }

    method Push() returns (r: Reg)
      requires temp <= tempNum
      modifies this
      ensures r == Temp(old(temp)) && temp == old(temp) + 1
      ensures tempNum == if old(temp) < old(tempNum) then old(tempNum) else old(temp) + 1
    {
      r := Temp(temp);
      temp := temp + 1;
      if temp > tempNum { tempNum := temp; }
    }

    method Pop() returns (r: Reg)
      requires temp > 0
      modifies this`temp
      ensures r == Temp(temp) && temp == old(temp) - 1
    {
      temp := temp - 1;
      r := Temp(temp);
    }
  }

  class IrContext {
    var ir: seq<BcIr>
    var labels: Labels

    constructor ()
      ensures ir == [] && labels == []
    {
      ir := [];
      labels := [];
    }

    ghost function Now(): Image
      reads this
    {
      Image(ir, labels)
    }

    /** The frame has room for every temporary the code uses, and every label it names exists. */
    ghost predicate Room(info: ISeqInfo)
      reads this, info
    {
      info.temp <= info.tempNum && AllIn(Now(), info.tempNum)
    }

    // ----- the buffer and the labels -----

    method Emit(info: ISeqInfo, op: BcIr)
      requires Room(info) && OpIn(op, info.tempNum, |labels|)
      modifies this`ir
      ensures Now() == Append(old(Now()), op) && Room(info)
    {
      ir := ir + [op];
    }

    method NewLabel(info: ISeqInfo) returns (l: Label)
      requires Room(info)
      modifies this`labels
      ensures l == old(|labels|) && Now() == WithLabels(old(Now()), 1) && Room(info)
    {
      l := |labels|;
      labels := labels + [None];
      AllInMore(old(Now()), info.tempNum, Now(), info.tempNum);
    }

    method ApplyLabel(info: ISeqInfo, l: Label)
      requires Room(info) && l < |labels|
      modifies this`labels
      ensures Now() == Apply(old(Now()), l) && Room(info)
    {
      labels := labels[l := Some(|ir|)];
      AllInMore(old(Now()), info.tempNum, Now(), info.tempNum);
    }

    method PushTemp(info: ISeqInfo) returns (r: Reg)
      requires Room(info)
      modifies info
      ensures r == Temp(old(info.temp)) && info.temp == old(info.temp) + 1 && old(info.tempNum) <= info.tempNum
      ensures info.temp <= info.tempNum && Room(info)
    {
      r := info.Push();
      AllInMore(Now(), old(info.tempNum), Now(), info.tempNum);
    }

    /** The register given, or else the next temporary. */
    method GetReg(info: ISeqInfo, dst: Option<Reg>) returns (r: Reg)
      requires Room(info)
      modifies info
      ensures r == (if dst.Some? then dst.value else Temp(old(info.temp)))
      ensures info.temp == old(info.temp) + (if dst.Some? then 0 else 1) && old(info.tempNum) <= info.tempNum
      ensures info.temp <= info.tempNum && Room(info)
    {
      if dst.Some? {
        r := dst.value;
      } else {
        r := PushTemp(info);
      }
    }

    // ----- single instructions -----

    method GenOp(info: ISeqInfo, inst: Inst)
      requires Room(info) && InstIn(inst, info.tempNum)
      modifies this
      ensures Emits(old(Now()), Now(), [inst]) && Room(info)
    {
      Emit(info, Op(inst));
      EmitsOp(old(Now()), inst);
    }

    method GenMov(info: ISeqInfo, dst: Reg, src: Reg)
      requires Room(info) && RegIn(dst, info.tempNum) && RegIn(src, info.tempNum)
      modifies this
      ensures Emits(old(Now()), Now(), MovCode(dst, src)) && Room(info)
    {
      if dst != src {
        GenOp(info, Mov(dst, src));
      } else {
        EmitsNothing(Now());
      }
    }

    method GenTempMov(info: ISeqInfo, rhs: Reg)
      requires Room(info) && RegIn(rhs, info.tempNum)
      modifies this, info
      ensures Emits(old(Now()), Now(), MovCode(Temp(old(info.temp)), rhs)) && Room(info)
      ensures info.temp == old(info.temp) + 1 && old(info.tempNum) <= info.tempNum
    {
      var lhs := PushTemp(info);
      GenMov(info, lhs, rhs);
    }

    method GenNil(info: ISeqInfo, dst: Option<Reg>)
      requires Room(info) && (dst.Some? ==> RegIn(dst.value, info.tempNum))
      modifies this, info
      ensures Emits(old(Now()), Now(), [NilTo(if dst.Some? then dst.value else Temp(old(info.temp)))]) && Room(info)
      ensures info.temp == old(info.temp) + (if dst.Some? then 0 else 1) && old(info.tempNum) <= info.tempNum
    {
      var reg := GetReg(info, dst);
      GenOp(info, NilTo(reg));
    }

    method GenLiteral(info: ISeqInfo, dst: Option<Reg>, v: Value)
      requires Room(info) && (dst.Some? ==> RegIn(dst.value, info.tempNum))
      modifies this, info
      ensures Emits(old(Now()), Now(), [LiteralTo(if dst.Some? then dst.value else Temp(old(info.temp)), v)])
          && Room(info)
      ensures info.temp == old(info.temp) + (if dst.Some? then 0 else 1) && old(info.tempNum) <= info.tempNum
    {
      var reg := GetReg(info, dst);
      GenOp(info, LiteralTo(reg, v));
    }

    method GenInteger(info: ISeqInfo, dst: Option<Reg>, i: int)
      requires Room(info) && (dst.Some? ==> RegIn(dst.value, info.tempNum))
      modifies this, info
      ensures Emits(old(Now()), Now(), IntCode(if dst.Some? then dst.value else Temp(old(info.temp)), i)) && Room(info)
      ensures info.temp == old(info.temp) + (if dst.Some? then 0 else 1) && old(info.tempNum) <= info.tempNum
    {
      if -0x8000_0000 <= i < 0x8000_0000 {
        var reg := GetReg(info, dst);
        GenOp(info, IntegerTo(reg, i));
      } else {
        GenLiteral(info, dst, Int(i));
      }
    }

    method GenNeg(info: ISeqInfo, local: Option<Reg>)
      requires Room(info) && (if local.Some? then RegIn(local.value, info.tempNum) else info.temp > 0)
      modifies this, info
      ensures info.temp == old(info.temp) && old(info.tempNum) <= info.tempNum
      ensures local.None? ==> info.temp > 0 && Emits(old(Now()), Now(),
          [NegTo(Temp(info.temp - 1), Temp(info.temp - 1))])
      ensures local.Some? ==> Emits(old(Now()), Now(), [NegTo(local.value, local.value)])
      ensures Room(info)
    {
      if local.Some? {
        GenOp(info, NegTo(local.value, local.value));
      } else {
        var src := info.Pop();
        var dst := PushTemp(info);
        GenOp(info, NegTo(dst, src));
      }
    }

    // ----- operands -----

    method PushExpr(info: ISeqInfo, e: Expr) returns (r: Reg)
      requires Room(info) && Balanced(e)
      modifies this, info
      ensures Emits(old(Now()), Now(), Code(e, Use, old(info.temp))) && Room(info)
      ensures info.temp == old(info.temp) + 1 && old(info.tempNum) <= info.tempNum
      ensures r == Temp(old(info.temp))
      decreases e, 6
    {
      r := Temp(info.temp);
      GenExpr(info, e, Use);
    }

    method GenTempExpr(info: ISeqInfo, e: Expr) returns (r: Reg)
      requires Room(info) && Balanced(e)
      modifies this, info
      ensures Emits(old(Now()), Now(), OperandCode(e, old(info.temp))) && Room(info)
      ensures info.temp == old(info.temp) && old(info.tempNum) <= info.tempNum
      ensures r == OperandReg(e, old(info.temp)) && RegIn(r, info.tempNum)
      decreases e, 7
    {
      hide Code; hide Balanced; hide AllIn; hide Between; hide Agrees;
      if e.LocalVar? {
        r := LocalReg(e.x);
        EmitsNothing(Now());
      } else {
        r := PushExpr(info, e);
        r := info.Pop();
      }
    }

    /** Both operands of an operator. */
    method GenBinaryTempExpr(info: ISeqInfo, e: Expr) returns (l: Reg, r: Reg)
      requires Room(info) && (e.Bin? || e.Cmp?) && Balanced(e)
      modifies this, info
      ensures Emits(old(Now()), Now(), OperandCode(e.lhs, old(info.temp)) + OperandCode(e.rhs,
          SecondTemp(e.lhs, e.rhs, old(info.temp)))) && Room(info)
      ensures info.temp == old(info.temp) && old(info.tempNum) <= info.tempNum
      ensures l == OperandReg(e.lhs, old(info.temp)) && RegIn(l, info.tempNum)
      ensures r == OperandReg(e.rhs, SecondTemp(e.lhs, e.rhs, old(info.temp))) && RegIn(r, info.tempNum)
      decreases e, 0
    {
      hide Code; hide CondCode; hide OperatorCode; hide LogicCode; hide StmtsCode; hide ListCode; hide MovsCode;
      hide WhileCode; hide DoWhileCode; hide Between; hide Agrees; hide AllIn; hide Balanced;
      BalancedParts(e);
      ghost var (start, t) := (Now(), info.temp);
      if !e.lhs.LocalVar? && !e.rhs.LocalVar? {
        l := PushExpr(info, e.lhs);
        ghost var middle := Now();
        r := PushExpr(info, e.rhs);
        info.temp := info.temp - 2;
        EmitsJoin(start, middle, Now(), Code(e.lhs, Use, t), Code(e.rhs, Use, t + 1));
      } else {
        l := GenTempExpr(info, e.lhs);
        ghost var middle := Now();
        r := GenTempExpr(info, e.rhs);
        EmitsJoin(start, middle, Now(), OperandCode(e.lhs, t), OperandCode(e.rhs, t));
      }
    }

    method GenSingular(info: ISeqInfo, dst: Option<Reg>, e: Expr) returns (d: Reg, r: Reg)
      requires Room(info) && (dst.Some? ==> RegIn(dst.value, info.tempNum)) && Balanced(e)
      modifies this, info
      ensures Emits(old(Now()), Now(), OperandCode(e, old(info.temp))) && Room(info)
      ensures info.temp == old(info.temp) + (if dst.Some? then 0 else 1) && old(info.tempNum) <= info.tempNum
      ensures d == GivenOr(dst, old(info.temp)) && RegIn(d, info.tempNum)
      ensures r == OperandReg(e, old(info.temp)) && RegIn(r, info.tempNum)
      decreases e, 8
    {
      hide Code; hide CondCode; hide OperatorCode; hide OperandCode; hide LogicCode; hide StmtsCode; hide ListCode;
      hide MovsCode;
      hide WhileCode; hide DoWhileCode; hide Between; hide Agrees; hide AllIn; hide Balanced;
      r := GenTempExpr(info, e);
      d := GetReg(info, dst);
    }

    method GenBinary(info: ISeqInfo, dst: Option<Reg>, e: Expr) returns (d: Reg, l: Reg, r: Reg)
      requires Room(info) && (dst.Some? ==> RegIn(dst.value, info.tempNum)) && (e.Bin? || e.Cmp?) && Balanced(e)
      modifies this, info
      ensures Emits(old(Now()), Now(), OperandCode(e.lhs, old(info.temp)) + OperandCode(e.rhs,
          SecondTemp(e.lhs, e.rhs, old(info.temp)))) && Room(info)
      ensures info.temp == old(info.temp) + (if dst.Some? then 0 else 1) && old(info.tempNum) <= info.tempNum
      ensures d == GivenOr(dst, old(info.temp)) && RegIn(d, info.tempNum)
      ensures l == OperandReg(e.lhs, old(info.temp)) && RegIn(l, info.tempNum)
      ensures r == OperandReg(e.rhs, SecondTemp(e.lhs, e.rhs, old(info.temp))) && RegIn(r, info.tempNum)
      decreases e, 1
    {
      hide Code; hide CondCode; hide OperatorCode; hide OperandCode; hide LogicCode; hide StmtsCode; hide ListCode;
      hide MovsCode;
      hide WhileCode; hide DoWhileCode; hide Between; hide Agrees; hide AllIn; hide Balanced;
      l, r := GenBinaryTempExpr(info, e);
      d := GetReg(info, dst);
    }

    // ----- operators -----

    method GenCmp(info: ISeqInfo, dst: Option<Reg>, e: Expr, optimizable: bool)
      requires Room(info) && (dst.Some? ==> RegIn(dst.value, info.tempNum)) && e.Cmp? && Balanced(e)
      modifies this, info
      ensures Emits(old(Now()), Now(), OperatorCode(e, GivenOr(dst, old(info.temp)), old(info.temp), optimizable))
          && Room(info)
      ensures info.temp == old(info.temp) + (if dst.Some? then 0 else 1) && old(info.tempNum) <= info.tempNum
      decreases e, 2
    {
      hide Code; hide CondCode; hide OperatorCode; hide OperandCode; hide LogicCode; hide StmtsCode; hide ListCode;
      hide MovsCode;
      hide WhileCode; hide DoWhileCode; hide Between; hide Agrees; hide AllIn; hide Balanced;
      BalancedParts(e);
      ghost var (start, t) := (Now(), info.temp);
      OperatorShape(e, GivenOr(dst, t), t, optimizable);
      if IsSmi(e.rhs) {
        var d, l := GenSingular(info, dst, e.lhs);
        ghost var middle := Now();
        GenOp(info, CmpRi(e.kind, d, l, e.rhs.i, optimizable));
        EmitsJoin(start, middle, Now(), OperandCode(e.lhs, t), [CmpRi(e.kind, d, l, e.rhs.i, optimizable)]);
      } else {
        var d, l, r := GenBinary(info, dst, e);
        ghost var middle := Now();
        GenOp(info, CmpRr(e.kind, d, l, r, optimizable));
        EmitsJoin(start, middle, Now(), OperandCode(e.lhs, t) + OperandCode(e.rhs, SecondTemp(e.lhs, e.rhs, t)),
                  [CmpRr(e.kind, d, l, r, optimizable)]);
      }
    }

    method GenArith(info: ISeqInfo, dst: Option<Reg>, e: Expr)
      requires Room(info) && (dst.Some? ==> RegIn(dst.value, info.tempNum)) && e.Bin? && Balanced(e)
      modifies this, info
      ensures Emits(old(Now()), Now(), OperatorCode(e, GivenOr(dst, old(info.temp)), old(info.temp), false))
          && Room(info)
      ensures info.temp == old(info.temp) + (if dst.Some? then 0 else 1) && old(info.tempNum) <= info.tempNum
      decreases e, 2
    {
      hide Code; hide CondCode; hide OperatorCode; hide OperandCode; hide LogicCode; hide StmtsCode; hide ListCode;
      hide MovsCode;
      hide WhileCode; hide DoWhileCode; hide Between; hide Agrees; hide AllIn; hide Balanced;
      BalancedParts(e);
      ghost var (start, t) := (Now(), info.temp);
      OperatorShape(e, GivenOr(dst, t), t, false);
      if HasImmediate(e.op) && IsSmi(e.rhs) {
        var d, l := GenSingular(info, dst, e.lhs);
        ghost var middle := Now();
        GenOp(info, BinOpRi(e.op, d, l, e.rhs.i));
        EmitsJoin(start, middle, Now(), OperandCode(e.lhs, t), [BinOpRi(e.op, d, l, e.rhs.i)]);
      } else if HasImmediate(e.op) && IsSmi(e.lhs) {
        var d, r := GenSingular(info, dst, e.rhs);
        ghost var middle := Now();
        GenOp(info, BinOpIr(e.op, d, e.lhs.i, r));
        EmitsJoin(start, middle, Now(), OperandCode(e.rhs, t), [BinOpIr(e.op, d, e.lhs.i, r)]);
      } else {
        var d, l, r := GenBinary(info, dst, e);
        ghost var middle := Now();
        GenOp(info, BinOp(e.op, d, l, r));
        EmitsJoin(start, middle, Now(), OperandCode(e.lhs, t) + OperandCode(e.rhs, SecondTemp(e.lhs, e.rhs, t)),
                  [BinOp(e.op, d, l, r)]);
      }
    }

    /** `&&` branches over the right side when the left one is false, `||` when it is true. */
    method GenLogic(info: ISeqInfo, dst: Option<Reg>, e: Expr)
      requires Room(info) && (dst.Some? ==> RegIn(dst.value, info.tempNum)) && (e.And? || e.Or?) && Balanced(e)
      modifies this, info
      ensures Emits(old(Now()), Now(), LogicCode(e, GivenOr(dst, old(info.temp)),
          old(info.temp) + (if dst.Some? then 0 else 1))) && Room(info)
      ensures info.temp == old(info.temp) + (if dst.Some? then 0 else 1) && old(info.tempNum) <= info.tempNum
      decreases e, 2
    {
      hide Code; hide CondCode; hide OperatorCode; hide OperandCode; hide LogicCode; hide StmtsCode; hide ListCode;
      hide MovsCode;
      hide WhileCode; hide DoWhileCode; hide Between; hide Agrees; hide AllIn; hide Balanced;
      BalancedParts(e);
      ghost var start := Now();
      var exit := NewLabel(info);
      var d := GetReg(info, dst);
      GenStoreExpr(info, d, e.lhs);
      ghost var middle := Now();
      Emit(info, CondBrTo(d, exit, false, e.Or?));
      GenStoreExpr(info, d, e.rhs);
      ghost var end := Now();
      ApplyLabel(info, exit);
      EmitsLogic(start, middle, end, e, d, info.temp);
    }

    method GenBinop(info: ISeqInfo, dst: Option<Reg>, e: Expr)
      requires Room(info) && (dst.Some? ==> RegIn(dst.value, info.tempNum)) && IsBinop(e) && Balanced(e)
      modifies this, info
      ensures Emits(old(Now()), Now(), BinopCode(e, dst, old(info.temp))) && Room(info)
      ensures info.temp == old(info.temp) + (if dst.Some? then 0 else 1) && old(info.tempNum) <= info.tempNum
      decreases e, 3
    {
      hide Code; hide CondCode; hide OperatorCode; hide OperandCode; hide LogicCode; hide StmtsCode; hide ListCode;
      hide MovsCode;
      hide WhileCode; hide DoWhileCode; hide Between; hide Agrees; hide AllIn; hide Balanced;
      if e.Bin? {
        GenArith(info, dst, e);
      } else if e.Cmp? {
        GenCmp(info, dst, e, false);
      } else {
        GenLogic(info, dst, e);
      }
    }

    // ----- conditions -----

    method GenOptCondbr(info: ISeqInfo, jmpIf: bool, c: Expr, to: Label)
      requires Room(info) && to < |labels| && Balanced(c)
      modifies this, info
      ensures EmitsCond(old(Now()), Now(), c, jmpIf, to, old(info.temp)) && Room(info)
      ensures info.temp == old(info.temp) && old(info.tempNum) <= info.tempNum
      decreases c, 8
    {
      hide Code; hide CondCode; hide OperatorCode; hide OperandCode; hide LogicCode; hide StmtsCode; hide ListCode;
      hide MovsCode;
      hide WhileCode; hide DoWhileCode; hide Between; hide Agrees; hide AllIn; hide Balanced;
      BalancedParts(c);
      ghost var (start, t) := (Now(), info.temp);
      if c.Cmp? {
        var cond := Temp(info.temp);
        GenCmp(info, None, c, true);
        ghost var middle := Now();
        var _ := info.Pop();
        Emit(info, CondBrTo(cond, to, true, jmpIf));
        LeafShape(c, jmpIf, t);
        EmitsLeaf(start, middle, OperatorCode(c, Temp(t), t, true), c, cond, true, jmpIf, to, t);
      } else if c.And? || c.Or? {
        if c.Or? == jmpIf {
          GenOptCondbr(info, jmpIf, c.lhs, to);
          ghost var middle := Now();
          GenOptCondbr(info, jmpIf, c.rhs, to);
          EmitsEither(start, middle, Now(), c, jmpIf, to, t);
        } else {
          var cont := NewLabel(info);
          GenOptCondbr(info, !jmpIf, c.lhs, cont);
          ghost var middle := Now();
          GenOptCondbr(info, jmpIf, c.rhs, to);
          ghost var end := Now();
          ApplyLabel(info, cont);
          EmitsSkip(start, middle, end, c, jmpIf, to, t);
        }
      } else {
        var cond := GenTempExpr(info, c);
        ghost var middle := Now();
        Emit(info, CondBrTo(cond, to, false, jmpIf));
        LeafShape(c, jmpIf, t);
        EmitsLeaf(start, middle, OperandCode(c, t), c, cond, false, jmpIf, to, t);
      }
    }

    // ----- statements -----

    method GenIf(info: ISeqInfo, e: Expr, mode: Mode)
      requires Room(info) && e.If? && !mode.Into? && Balanced(e)
      modifies this, info
      ensures Emits(old(Now()), Now(), Code(e, mode, old(info.temp))) && Room(info)
      ensures info.temp == old(info.temp) + (if mode.Use? then 1 else 0) && old(info.tempNum) <= info.tempNum
      decreases e, 4
    {
      hide Code; hide CondCode; hide OperatorCode; hide OperandCode; hide LogicCode; hide StmtsCode; hide ListCode;
      hide MovsCode;
      hide WhileCode; hide DoWhileCode; hide Between; hide Agrees; hide AllIn; hide Balanced;
      BalancedParts(e);
      ghost var (start, t) := (Now(), info.temp);
      var elsePos := NewLabel(info);
      var succPos := NewLabel(info);
      assert Now() == WithLabels(start, 2);
      GenOptCondbr(info, false, e.cond, elsePos);
      ghost var afterCond := Now();
      GenExpr(info, e.then_, mode);
      ghost var afterThen := Now();
      Emit(info, BrTo(succPos));
      if mode.Use? {
        var _ := info.Pop();
      }
      ApplyLabel(info, elsePos);
      GenExpr(info, e.else_, mode);
      ghost var end := Now();
      EmitsIf(start, afterCond, afterThen, end, e, mode, t);
      ApplyLabel(info, succPos);
    }

    method GenWhile(info: ISeqInfo, e: Expr, useValue: bool)
      requires Room(info) && e.While? && Balanced(e)
      modifies this, info
      ensures Emits(old(Now()), Now(), WhileCode(e, old(info.temp)) + ValueOfLoop(if useValue then Use else NotUse,
          old(info.temp)) + [LoopEnd]) && Room(info)
      ensures info.temp == old(info.temp) + (if useValue then 1 else 0) && old(info.tempNum) <= info.tempNum
      decreases e, 4
    {
      hide Code; hide CondCode; hide OperatorCode; hide OperandCode; hide LogicCode; hide StmtsCode; hide ListCode;
      hide MovsCode;
      hide WhileCode; hide DoWhileCode; hide Between; hide Agrees; hide AllIn; hide Balanced;
      BalancedParts(e);
      ghost var (start, t) := (Now(), info.temp);
      var condPos := NewLabel(info);
      var succPos := NewLabel(info);
      var breakPos := NewLabel(info);
      assert Now() == WithLabels(start, 3);
      ApplyLabel(info, condPos);
      Emit(info, Op(LoopStart));
      GenOptCondbr(info, !e.condOp, e.cond, succPos);
      ghost var afterCond := Now();
      GenExpr(info, e.body, NotUse);
      ghost var afterBody := Now();
      EmitsWhile(start, afterCond, afterBody, e, t);
      Emit(info, BrTo(condPos));
      ApplyLabel(info, succPos);
      GenLoopEnd(info, start, breakPos, WhileCode(e, t), useValue);
    }

    /** The condition is tested after the body. */
    method GenWhileBeginPostfix(info: ISeqInfo, e: Expr, useValue: bool)
      requires Room(info) && e.DoWhile? && Balanced(e)
      modifies this, info
      ensures Emits(old(Now()), Now(), DoWhileCode(e, old(info.temp)) + ValueOfLoop(if useValue then Use else NotUse,
          old(info.temp)) + [LoopEnd]) && Room(info)
      ensures info.temp == old(info.temp) + (if useValue then 1 else 0) && old(info.tempNum) <= info.tempNum
      decreases e, 4
    {
      hide Code; hide CondCode; hide OperatorCode; hide OperandCode; hide LogicCode; hide StmtsCode; hide ListCode;
      hide MovsCode;
      hide WhileCode; hide DoWhileCode; hide Between; hide Agrees; hide AllIn; hide Balanced;
      BalancedParts(e);
      ghost var (start, t) := (Now(), info.temp);
      var loopPos := NewLabel(info);
      var breakPos := NewLabel(info);
      assert Now() == WithLabels(start, 2);
      ApplyLabel(info, loopPos);
      Emit(info, Op(LoopStart));
      GenExpr(info, e.body, NotUse);
      ghost var afterBody := Now();
      GenOptCondbr(info, e.condOp, e.cond, loopPos);
      EmitsDoWhile(start, afterBody, Now(), e, t);
      GenLoopEnd(info, start, breakPos, DoWhileCode(e, t), useValue);
    }

    /** How either kind of loop ends. */
    method GenLoopEnd(info: ISeqInfo, ghost start: Image, breakPos: Label, ghost code: seq<Inst>, useValue: bool)
      requires Room(info) && breakPos < |labels| && EmitsOpen(start, Now(), breakPos, code)
      modifies this, info
      ensures Emits(start, Now(), code + ValueOfLoop(if useValue then Use else NotUse, old(info.temp)) + [LoopEnd])
          && Room(info)
      ensures info.temp == old(info.temp) + (if useValue then 1 else 0) && old(info.tempNum) <= info.tempNum
    {
      hide Code; hide CondCode; hide OperatorCode; hide OperandCode; hide LogicCode; hide StmtsCode; hide ListCode;
      hide MovsCode;
      hide WhileCode; hide DoWhileCode; hide Between; hide Agrees; hide AllIn; hide Balanced;
      ghost var open := Now();
      ghost var value := ValueOfLoop(if useValue then Use else NotUse, info.temp);
      EmitsNothing(Now());
      if useValue {
        GenNil(info, None);
      }
      EmitsLoopEnd(start, open, Now(), breakPos, code, value);
      ApplyLabel(info, breakPos);
      Emit(info, Op(LoopEnd));
    }

    method GenCompStmts(info: ISeqInfo, es: seq<Expr>, mode: Mode)
      requires Room(info) && (mode.Into? ==> RegIn(mode.dst, info.tempNum)) && BalancedAll(es)
      modifies this, info
      ensures Emits(old(Now()), Now(), StmtsCode(es, mode, old(info.temp))) && Room(info)
      ensures info.temp == old(info.temp) + (if mode.Use? then 1 else 0) && old(info.tempNum) <= info.tempNum
      decreases es, 4
    {
      hide Code; hide CondCode; hide OperatorCode; hide OperandCode; hide LogicCode; hide ListCode; hide MovsCode;
      hide WhileCode; hide DoWhileCode; hide Between; hide Agrees; hide AllIn; hide Balanced; hide BalancedAll;
      ghost var (start, t) := (Now(), info.temp);
      EmitsNothing(start);
      if es == [] {
        if !mode.NotUse? {
          GenNil(info, if mode.Into? then Some(mode.dst) else None);
        }
        return;
      }
      for i := 0 to |es| - 1
        invariant Room(info) && info.temp == t && old(info.tempNum) <= info.tempNum
        invariant Emits(start, Now(), DropsCode(es, i, t))
      {
        BalancedAt(es, i);
        ghost var before := Now();
        GenExpr(info, es[i], NotUse);
        EmitsJoin(start, before, Now(), DropsCode(es, i, t), Code(es[i], NotUse, t));
      }
      var last := es[|es| - 1];
      BalancedAt(es, |es| - 1);
      ghost var before := Now();
      if mode.Into? {
        GenStoreExpr(info, mode.dst, last);
      } else {
        GenExpr(info, last, mode);
      }
      EmitsJoin(start, before, Now(), DropsCode(es, |es| - 1, t), Code(last, mode, t));
      StmtsAreDropsAndLast(es, mode, t);
    }

    /** All right-hand sides into fresh temporaries, then all assignments. */
    method GenMulAssign(info: ISeqInfo, xs: seq<Local>, es: seq<Expr>, mode: Mode)
      requires Room(info) && |xs| == |es| && !mode.Into? && BalancedAll(es)
      modifies this, info
      ensures Emits(old(Now()), Now(), ListCode(es, old(info.temp)) + MovsCode(xs, old(info.temp)) + MulValue(mode,
          old(info.temp), |es|)) && Room(info)
      ensures info.temp == old(info.temp) + (if mode.Use? then 1 else 0) && old(info.tempNum) <= info.tempNum
      decreases es, 4
    {
      hide Code; hide CondCode; hide OperatorCode; hide OperandCode; hide LogicCode; hide StmtsCode; hide ListCode;
      hide MovsCode;
      hide WhileCode; hide DoWhileCode; hide Between; hide Agrees; hide AllIn; hide Balanced; hide BalancedAll;
      ghost var start := Now();
      var temp := info.temp;
      NoLists(temp);
      EmitsNothing(start);
      for i := 0 to |es|
        invariant Room(info) && info.temp == temp + i && old(info.tempNum) <= info.tempNum
        invariant Emits(start, Now(), ListCode(es[..i], temp))
      {
        BalancedAt(es, i);
        ghost var before := Now();
        var _ := PushExpr(info, es[i]);
        EmitsJoin(start, before, Now(), ListCode(es[..i], temp), Code(es[i], Use, temp + i));
        ListGrows(es[..i + 1], temp);
        assert es[..i + 1][..i] == es[..i];
      }
      assert es[..|es|] == es && xs[..|xs|] == xs;
      ghost var listed := Now();
      EmitsNothing(listed);
      for i := 0 to |xs|
        invariant Room(info) && info.temp == temp + |es| && old(info.tempNum) <= info.tempNum
        invariant Emits(listed, Now(), MovsCode(xs[..i], temp))
      {
        ghost var before := Now();
        GenMov(info, LocalReg(xs[i]), Temp(temp + i));
        EmitsJoin(listed, before, Now(), MovsCode(xs[..i], temp), [Mov(LocalReg(xs[i]), Temp(temp + i))]);
        MovsGrow(xs[..i + 1], temp);
        assert xs[..i + 1][..i] == xs[..i];
      }
      EmitsJoin(start, listed, Now(), ListCode(es, temp), MovsCode(xs, temp));
      ghost var moved := Now();
      EmitsNothing(moved);
      info.temp := temp;
      if mode.Use? {
        var ret := PushTemp(info);
        GenOp(info, ArrayTo(ret, temp, |es|));
      }
      EmitsJoin(start, moved, Now(), ListCode(es, temp) + MovsCode(xs, temp), MulValue(mode, temp, |es|));
    }

    // ----- expressions -----

    method GenExpr(info: ISeqInfo, e: Expr, mode: Mode)
      requires Room(info) && !mode.Into? && Balanced(e)
      modifies this, info
      ensures Emits(old(Now()), Now(), Code(e, mode, old(info.temp))) && Room(info)
      ensures info.temp == old(info.temp) + (if mode.Use? then 1 else 0) && old(info.tempNum) <= info.tempNum
      decreases e, 5
    {
      hide Code; hide CondCode; hide OperatorCode; hide OperandCode; hide LogicCode; hide StmtsCode; hide ListCode;
      hide MovsCode;
      hide WhileCode; hide DoWhileCode; hide Between; hide Agrees; hide AllIn; hide Balanced;
      BalancedParts(e);
      ghost var (start, t) := (Now(), info.temp);
      CodeShape(e, mode, t);
      EmitsNothing(start);
      if mode.NotUse? && (e.NilLit? || e.BoolLit? || e.IntLit?) { return; }
      if e.LocalVar? {
        if mode.Use? { GenTempMov(info, LocalReg(e.x)); }
        return;
      } else if e.Assign? {
        GenStoreExpr(info, LocalReg(e.x), e.e);
        ghost var middle := Now();
        EmitsNothing(middle);
        if mode.Use? { GenTempMov(info, LocalReg(e.x)); }
        EmitsJoin(start, middle, Now(), Code(e.e, Into(LocalReg(e.x)), t),
            if mode.Use? then MovCode(Temp(t), LocalReg(e.x)) else []);
        return;
      } else if e.MulAssign? {
        GenMulAssign(info, e.xs, e.es, mode);
        return;
      } else if e.If? {
        GenIf(info, e, mode);
        return;
      } else if e.While? {
        GenWhile(info, e, mode.Use?);
        return;
      } else if e.DoWhile? {
        GenWhileBeginPostfix(info, e, mode.Use?);
        return;
      } else if e.Stmts? {
        GenCompStmts(info, e.es, mode);
        return;
      } else if e.NilLit? {
        GenNil(info, None);
      } else if e.BoolLit? {
        GenLiteral(info, None, Bool(e.b));
      } else if e.IntLit? {
        GenInteger(info, None, e.i);
      } else if e.Neg? {
        var _ := PushExpr(info, e.e);
        ghost var middle := Now();
        GenNeg(info, None);
        EmitsJoin(start, middle, Now(), Code(e.e, Use, t), [NegTo(Temp(t), Temp(t))]);
      } else {
        GenBinop(info, None, e);
      }
      if mode.NotUse? {
        var _ := info.Pop();
      }
    }

    method GenStoreExpr(info: ISeqInfo, dst: Reg, e: Expr)
      requires Room(info) && RegIn(dst, info.tempNum) && Balanced(e)
      modifies this, info
      ensures Emits(old(Now()), Now(), Code(e, Into(dst), old(info.temp))) && Room(info)
      ensures info.temp == old(info.temp) && old(info.tempNum) <= info.tempNum
      decreases e, 7
    {
      hide Code; hide CondCode; hide OperatorCode; hide OperandCode; hide LogicCode; hide StmtsCode; hide ListCode;
      hide MovsCode;
      hide WhileCode; hide DoWhileCode; hide Between; hide Agrees; hide AllIn; hide Balanced;
      BalancedParts(e);
      ghost var (start, t) := (Now(), info.temp);
      CodeShape(e, Into(dst), t);
      EmitsNothing(start);
      if Indirect(e) {
        var ret := PushExpr(info, e);
        ghost var middle := Now();
        GenMov(info, dst, ret);
        var _ := info.Pop();
        EmitsJoin(start, middle, Now(), Code(e, Use, t), MovCode(dst, ret));
        return;
      }
      if e.NilLit? {
        GenNil(info, Some(dst));
      } else if e.BoolLit? {
        GenLiteral(info, Some(dst), Bool(e.b));
      } else if e.IntLit? {
        GenInteger(info, Some(dst), e.i);
      } else if e.Neg? && e.e.IntLit? {
        GenInteger(info, Some(dst), -e.e.i);
      } else if e.Neg? {
        GenStoreExpr(info, dst, e.e);
        ghost var middle := Now();
        GenNeg(info, Some(dst));
        EmitsJoin(start, middle, Now(), Code(e.e, Into(dst), t), [NegTo(dst, dst)]);
      } else if e.LocalVar? {
        GenMov(info, dst, LocalReg(e.x));
      } else if e.Assign? {
        GenStoreExpr(info, LocalReg(e.x), e.e);
        ghost var middle := Now();
        GenMov(info, dst, LocalReg(e.x));
        EmitsJoin(start, middle, Now(), Code(e.e, Into(LocalReg(e.x)), t), MovCode(dst, LocalReg(e.x)));
      } else if e.Stmts? {
        GenCompStmts(info, e.es, Into(dst));
      } else {
        GenBinop(info, Some(dst), e);
      }
    }

    // ----- the finished code -----

    /** Replaces labels by displacements. */
    method IrToBytecode(info: ISeqInfo) returns (ops: seq<Inst>)
      requires Room(info) && forall l: nat :: l < |labels| ==> labels[l].Some?
      ensures ops == Resolved(ir, 0, labels)
      ensures forall i: nat :: i < |ops| ==> InstIn(ops[i], info.tempNum)
    {
      ops := [];
      for idx := 0 to |ir|
        invariant ops == Resolved(ir[..idx], 0, labels)
        invariant forall i: nat :: i < |ops| ==> InstIn(ops[i], info.tempNum)
      {
        assert OpIn(Now().ir[idx], info.tempNum, |labels|);
        var op := match ir[idx]
          case Op(inst) => inst
          case BrTo(l) => Br(labels[l].value - idx - 1)
          case CondBrTo(c, l, optimizable, brIf) => CondBr(c, labels[l].value - idx - 1, optimizable, brIf);
        ops := ops + [op];
      }
      assert ir[..|ir|] == ir;
    }
  }

  lemma {:induction false} AllEmitted(a: Image, code: seq<Inst>)
    requires Emits(Image([], []), a, code)
    ensures Resolved(a.ir, 0, a.labels) == code
  {
    assert a.ir[0..] == a.ir;
    assert Between(Image([], []), a, a.labels) == code;
  }

  /** Compiles an expression whose value is wanted. The frame has room for every temporary used. */
  method Compile(e: Expr) returns (program: seq<Inst>, tempNum: nat)
    requires Balanced(e)
    ensures program == Code(e, Use, 0) && tempNum > 0
    ensures forall i: nat :: i < |program| ==> InstIn(program[i], tempNum)
  {
    hide Code; hide Between; hide Agrees; hide Resolved; hide OpIn; hide InstIn; hide Balanced;
    var info := new ISeqInfo();
    var ctx := new IrContext();
    ctx.GenExpr(info, e, Use);
    program := ctx.IrToBytecode(info);
    tempNum := info.tempNum;
    AllEmitted(ctx.Now(), Code(e, Use, 0));
  }
}
