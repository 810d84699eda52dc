/** What compiled code looks like where its meaning leaves a choice: immediate operands, literals, fused comparisons,
    and
    the marks and branches of loops. */
module CodeLayout {
  import opened Prelude
  import opened RubyCore
  import opened RegisterMachine
  import opened BytecodeSpec
  import I = IrContexts

  predicate ShortLit(e: Expr) {
    e.IntLit? && -32768 <= e.i <= 32767
  }

  predicate Immediate(op: BinOpKind) {
    op == Add || op == Sub || op == Mul || op == Div || op == Exp
  }

  /** The instruction that an operator ends with: it carries the right operand if that is a literal of 16 bits and the
      operator has such a form, else the left one likewise; comparisons carry the right one only. */
  lemma {:induction false} OperatorEnds(e: Expr, dst: Reg, t: nat, optimizable: bool)
    requires e.Bin? || e.Cmp?
    ensures var code := OperatorCode(e, dst, t, optimizable);
            code != [] &&
            var last := code[|code| - 1];
            if e.Cmp? then
              if ShortLit(e.rhs) then last == CmpRi(e.kind, dst, OperandReg(e.lhs, t), e.rhs.i, optimizable)
              else last.CmpRr? && last.kind == e.kind && last.dst == dst && last.optimizable == optimizable
            else if Immediate(e.op) && ShortLit(e.rhs) then
              last == BinOpRi(e.op, dst, OperandReg(e.lhs, t), e.rhs.i)
            else if Immediate(e.op) && ShortLit(e.lhs) then
              last == BinOpIr(e.op, dst, e.lhs.i, OperandReg(e.rhs, t))
            else last.BinOp? && last.op == e.op && last.dst == dst
  {
    hide OperandCode; hide OperandReg; hide OperatorCode;
    I.OperatorShape(e, dst, t, optimizable);
  }

  /** An integer literal is one instruction: with the integer in it if that has 32 bits, else with its value. */
  lemma {:induction false} LiteralIs(i: int, t: nat)
    ensures Code(IntLit(i), Use, t)
            == [if -2147483648 <= i <= 2147483647 then IntegerTo(Temp(t), i) else LiteralTo(Temp(t), Int(i))]
    ensures Code(IntLit(i), NotUse, t) == []
  {}

  /** A condition ends with a branch on it; a comparison and its branch are marked as a pair. */
  lemma {:induction false} ConditionEnds(c: Expr, jmpIf: bool, disp: int, t: nat)
    ensures var code := CondCode(c, jmpIf, disp, t);
            && code != []
            && code[|code| - 1].CondBr? && code[|code| - 1].disp == disp && code[|code| - 1].brIf == jmpIf
            && (c.Cmp? ==>
                  && |code| > 1 && code[|code| - 1].optimizable && code[|code| - 1].cond == Temp(t)
                  && (code[|code| - 2].CmpRr? || code[|code| - 2].CmpRi?)
                  && code[|code| - 2].optimizable && code[|code| - 2].dst == Temp(t))
            && (!c.Cmp? && !c.And? && !c.Or? ==>
                  !code[|code| - 1].optimizable && code[|code| - 1].cond == OperandReg(c, t))
    decreases c
  {
    hide OperatorCode; hide OperandCode; hide CondCode; hide OperandReg;
    if c.And? || c.Or? {
      CondParts(c, jmpIf, disp, t);
      ConditionEnds(c.rhs, jmpIf, disp, t);
    } else {
      I.LeafShape(c, jmpIf, t);
      if c.Cmp? { OperatorEnds(c, Temp(t), t, true); }
    }
  }

  lemma {:induction false} CondParts(c: Expr, jmpIf: bool, disp: int, t: nat)
    requires c.And? || c.Or?
    ensures |CondCode(c, jmpIf, disp, t)| >= |CondCode(c.rhs, jmpIf, disp, t)|
    ensures var (code, right) := (CondCode(c, jmpIf, disp, t), CondCode(c.rhs, jmpIf, disp, t));
            code[|code| - |right|..] == right
  {}

  /** Where the loop proper ends, before its value and the mark of its end. */
  function BackAt(e: Expr, t: nat): int
    requires e.While? || e.DoWhile?
  {
    if e.While? then |WhileCode(e, t)| - 1 else |DoWhileCode(e, t)| - 1
  }

  /** A loop begins with the mark of its start, ends with the mark of its end, and branches back to the former with
      the last instruction before its value: always if the test comes first, by the test if it comes last. */
  lemma {:induction false} LoopLayout(e: Expr, mode: Mode, t: nat)
    requires (e.While? || e.DoWhile?) && !mode.Into?
    ensures var (code, k) := (Code(e, mode, t), BackAt(e, t));
            && 0 < k < |code| - 1 && code[0] == LoopStart && code[|code| - 1] == LoopEnd
            && (e.While? ==> code[k].Br?) && (e.DoWhile? ==> code[k].CondBr? && code[k].brIf == e.condOp)
            && k + 1 + code[k].disp == 0
            && (|code| == k + if mode.NotUse? then 2 else 3) && (mode.Use? ==> code[k + 1] == NilTo(Temp(t)))
  {
    hide Code; hide CondCode; hide WhileCode; hide DoWhileCode;
    I.CodeShape(e, mode, t);
    if e.While? { WhileParts(e, t); } else { DoWhileParts(e, t); }
  }

  lemma {:induction false} WhileParts(e: Expr, t: nat)
    requires e.While?
    ensures var code := WhileCode(e, t);
            && |code| > 1 && code[0] == LoopStart && code[|code| - 1].Br? && |code| + code[|code| - 1].disp == 0
  {
    hide Code; hide CondCode;
  }

  lemma {:induction false} DoWhileParts(e: Expr, t: nat)
    requires e.DoWhile?
    ensures var code := DoWhileCode(e, t);
            && |code| > 1 && code[0] == LoopStart && code[|code| - 1].CondBr? && code[|code| - 1].brIf == e.condOp
            && |code| + code[|code| - 1].disp == 0
  {
    hide Code; hide CondCode;
    var body := Code(e.body, NotUse, t);
    var disp := -(1 + |body| + |CondCode(e.cond, e.condOp, 0, t)|);
    CondSize(e.cond, e.condOp, 0, disp, t);
    ConditionEnds(e.cond, e.condOp, disp, t);
  }
}
