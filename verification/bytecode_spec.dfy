/** The bytecode of each construct, as a function of the construct alone: no labels, no patching, no
    counters. Branches carry relative displacements; t is the first free temporary. */
module BytecodeSpec {
  import opened RubyCore
  import opened RegisterMachine

  /** What becomes of an expression's value: Use leaves it in the next temporary, Into writes it to a
      given register. */
  datatype Mode = Use | NotUse | Into(dst: Reg)

  function Dst(mode: Mode, t: nat): Reg {
    if mode.Into? then mode.dst else Temp(t)
  }

  /** The integer literals an instruction can carry as a 16-bit immediate. */
  predicate IsSmi(e: Expr) {
    e.IntLit? && -0x8000 <= e.i < 0x8000
  }

  predicate HasImmediate(op: BinOpKind) {
    op in {Add, Sub, Mul, Div, Exp}
  }

  function IntCode(dst: Reg, i: int): seq<Inst> {
    if -0x8000_0000 <= i < 0x8000_0000 then [IntegerTo(dst, i)] else [LiteralTo(dst, Int(i))]
  }

  function MovCode(dst: Reg, src: Reg): seq<Inst> {
    if dst == src then [] else [Mov(dst, src)]
  }

  /** The constructs that are only ever computed into a temporary. */
  predicate Indirect(e: Expr) {
    e.If? || e.While? || e.DoWhile? || e.MulAssign?
  }

  function Code(e: Expr, mode: Mode, t: nat): seq<Inst>
    decreases e, 5, mode.Into?
  {
    var dst := Dst(mode, t);
    if mode.Into? && Indirect(e) then Code(e, Use, t) + MovCode(dst, Temp(t))
    else match e
      case NilLit => if mode.NotUse? then [] else [NilTo(dst)]
      case BoolLit(b) => if mode.NotUse? then [] else [LiteralTo(dst, Bool(b))]
      case IntLit(i) => if mode.NotUse? then [] else IntCode(dst, i)
      case LocalVar(x) => if mode.NotUse? then [] else MovCode(dst, LocalReg(x))
      case Neg(e1) =>
        if mode.Into? && e1.IntLit? then IntCode(dst, -e1.i)
        else Code(e1, if mode.Into? then mode else Use, t) + [NegTo(dst, dst)]
      case Bin(_, _, _) => OperatorCode(e, dst, t, false)
      case Cmp(_, _, _) => OperatorCode(e, dst, t, false)
      case And(_, _) => LogicCode(e, dst, if mode.Into? then t else t + 1)
      case Or(_, _) => LogicCode(e, dst, if mode.Into? then t else t + 1)
      case If(c, a, b) =>
        var (then_, else_) := (Code(a, mode, t), Code(b, mode, t));
        CondCode(c, false, |then_| + 1, t) + then_ + [Br(|else_|)] + else_
      case While(c, b, op) => WhileCode(e, t) + ValueOfLoop(mode, t) + [LoopEnd]
      case DoWhile(c, b, op) => DoWhileCode(e, t) + ValueOfLoop(mode, t) + [LoopEnd]
      case Stmts(es) => StmtsCode(es, mode, t)
      case Assign(x, e1) =>
        Code(e1, Into(LocalReg(x)), t) + (if mode.NotUse? then [] else MovCode(dst, LocalReg(x)))
      case MulAssign(xs, es) =>
        ListCode(es, t) + MovsCode(xs, t) + (if mode.NotUse? then [] else [ArrayTo(dst, t, |es|)])
  }

  /** All but the last for their effect only. */
  function StmtsCode(es: seq<Expr>, mode: Mode, t: nat): seq<Inst>
    decreases es, 5
  {
    if es == [] then (if mode.NotUse? then [] else [NilTo(Dst(mode, t))])
    else if |es| == 1 then Code(es[0], mode, t)
    else Code(es[0], NotUse, t) + StmtsCode(es[1..], mode, t)
  }

  /** Values into consecutive temporaries. */
  function ListCode(es: seq<Expr>, t: nat): seq<Inst>
    decreases es, 5
  {
    if es == [] then [] else Code(es[0], Use, t) + ListCode(es[1..], t + 1)
  }

  function MovsCode(xs: seq<Local>, t: nat): seq<Inst>
    decreases |xs|
  {
    if xs == [] then [] else [Mov(LocalReg(xs[0]), Temp(t))] + MovsCode(xs[1..], t + 1)
  }

  function ValueOfLoop(mode: Mode, t: nat): seq<Inst> {
    if mode.NotUse? then [] else [NilTo(Temp(t))]
  }

  /** Up to and including the branch back; leaves by falling out at the end. */
  function WhileCode(e: Expr, t: nat): seq<Inst>
    requires e.While?
    decreases e, 4
  {
    var body := Code(e.body, NotUse, t);
    var cond := CondCode(e.cond, !e.condOp, |body| + 1, t);
    [LoopStart] + cond + body + [Br(-(1 + |cond| + |body| + 1))]
  }

  function DoWhileCode(e: Expr, t: nat): seq<Inst>
    requires e.DoWhile?
    decreases e, 4
  {
    var body := Code(e.body, NotUse, t);
    var size := |CondCode(e.cond, e.condOp, 0, t)|;
    [LoopStart] + body + CondCode(e.cond, e.condOp, -(1 + |body| + size), t)
  }

  /** A local is used in place; anything else is computed into the next temporary. */
  function OperandReg(e: Expr, t: nat): Reg {
    if e.LocalVar? then LocalReg(e.x) else Temp(t)
  }

  function OperandCode(e: Expr, t: nat): seq<Inst>
    decreases e, 6
  {
    if e.LocalVar? then [] else Code(e, Use, t)
  }

  /** Two operands take two temporaries only when neither is a local. */
  function SecondTemp(l: Expr, r: Expr, t: nat): nat {
    if !l.LocalVar? && !r.LocalVar? then t + 1 else t
  }

  /** An arithmetic or comparison operator with its operands, into dst. */
  function OperatorCode(e: Expr, dst: Reg, t: nat, optimizable: bool): seq<Inst>
    requires e.Bin? || e.Cmp?
    decreases e, 1
  {
    var (l, r) := (e.lhs, e.rhs);
    var t' := SecondTemp(l, r, t);
    match e
    case Bin(op, _, _) =>
      if HasImmediate(op) && IsSmi(r) then OperandCode(l, t) + [BinOpRi(op, dst, OperandReg(l, t), r.i)]
      else if HasImmediate(op) && IsSmi(l) then OperandCode(r, t) + [BinOpIr(op, dst, l.i, OperandReg(r, t))]
      else OperandCode(l, t) + OperandCode(r, t') + [BinOp(op, dst, OperandReg(l, t), OperandReg(r, t'))]
    case Cmp(k, _, _) =>
      if IsSmi(r) then OperandCode(l, t) + [CmpRi(k, dst, OperandReg(l, t), r.i, optimizable)]
      else OperandCode(l, t) + OperandCode(r, t') + [CmpRr(k, dst, OperandReg(l, t), OperandReg(r, t'), optimizable)]
  }

  /** `&&` and `||` as values: the left side goes to dst first, the right side over it. */
  function LogicCode(e: Expr, dst: Reg, t: nat): seq<Inst>
    requires e.And? || e.Or?
    decreases e, 1
  {
    var right := Code(e.rhs, Into(dst), t);
    Code(e.lhs, Into(dst), t) + [CondBr(dst, |right|, false, e.Or?)] + right
  }

  /** Branches by disp from the end of this code when the condition's truth is jmpIf; falls through
      otherwise. Of two conditions, the left one can settle the whole: it then either branches to the
      destination as well, or skips the right one. */
  function CondCode(c: Expr, jmpIf: bool, disp: int, t: nat): seq<Inst>
    decreases c, 7
  {
    if c.Cmp? then OperatorCode(c, Temp(t), t, true) + [CondBr(Temp(t), disp, true, jmpIf)]
    else if c.And? || c.Or? then
      var either := c.Or? == jmpIf;
      var right := CondCode(c.rhs, jmpIf, disp, t);
      CondCode(c.lhs, jmpIf == either, |right| + (if either then disp else 0), t) + right
    else OperandCode(c, t) + [CondBr(OperandReg(c, t), disp, false, jmpIf)]
  }

  /** The displacement does not change the size. */
  lemma {:induction false} CondSize(c: Expr, jmpIf: bool, d1: int, d2: int, t: nat)
    ensures |CondCode(c, jmpIf, d1, t)| == |CondCode(c, jmpIf, d2, t)|
    decreases c
  {
    hide Code; hide OperatorCode; hide OperandCode;
    if c.And? || c.Or? {
      CondSize(c.rhs, jmpIf, d1, d2, t);
      var size, either := |CondCode(c.rhs, jmpIf, d1, t)|, c.Or? == jmpIf;
      CondSize(c.lhs, jmpIf == either, size + (if either then d1 else 0), size + (if either then d2 else 0), t);
    }
  }
}
