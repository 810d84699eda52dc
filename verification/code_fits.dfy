/** Compiled code stays within its fields: the registers of its instructions are the frame's, immediates have 16 or 32
    bits, and every branch lands within the code or just behind it. */
module CodeFits {
  import opened Prelude
  import opened RubyCore
  import opened RegisterMachine
  import opened BytecodeSpec
  import opened BytecodeProof
  import I = IrContexts

  /** The instruction's locals are among the first n, and its immediates within their fields. */
  predicate FieldsOk(inst: Inst, n: nat) {
    match inst
    case NilTo(d) => RegOk(d, n)
    case LiteralTo(d, _) => RegOk(d, n)
    case IntegerTo(d, i) => RegOk(d, n) && -0x8000_0000 <= i < 0x8000_0000
    case Mov(d, s) => RegOk(d, n) && RegOk(s, n)
    case NegTo(d, s) => RegOk(d, n) && RegOk(s, n)
    case BinOp(_, d, l, r) => RegOk(d, n) && RegOk(l, n) && RegOk(r, n)
    case BinOpRi(_, d, l, i) => RegOk(d, n) && RegOk(l, n) && -0x8000 <= i < 0x8000
    case BinOpIr(_, d, i, r) => RegOk(d, n) && RegOk(r, n) && -0x8000 <= i < 0x8000
    case CmpRr(_, d, l, r, _) => RegOk(d, n) && RegOk(l, n) && RegOk(r, n)
    case CmpRi(_, d, l, i, _) => RegOk(d, n) && RegOk(l, n) && -0x8000 <= i < 0x8000
    case CondBr(c, _, _, _) => RegOk(c, n)
    case ArrayTo(d, _, len) => RegOk(d, n) && len > 0
    case _ => true
  }

  predicate Lands(inst: Inst, i: int, lo: int, hi: int) {
    inst.Br? || inst.CondBr? ==> lo <= i + 1 + inst.disp <= hi
  }

  /** All fields are right, and all branches land between lo and hi, counted from the start of the code. */
  ghost predicate Within(code: seq<Inst>, n: nat, lo: int, hi: int) {
    forall i: nat :: i < |code| ==> FieldsOk(code[i], n) && Lands(code[i], i, lo, hi)
  }

  lemma {:induction false} Join(a: seq<Inst>, b: seq<Inst>, n: nat, lo: int, hi: int)
    requires Within(a, n, lo, hi) && Within(b, n, lo - |a|, hi - |a|)
    ensures Within(a + b, n, lo, hi)
  {
    hide FieldsOk;
    forall i: nat | i < |a + b| ensures FieldsOk((a + b)[i], n) && Lands((a + b)[i], i, lo, hi) {
      if i >= |a| { assert (a + b)[i] == b[i - |a|] && Lands(b[i - |a|], i - |a|, lo - |a|, hi - |a|); }
    }
  }

  lemma {:induction false} Wider(a: seq<Inst>, n: nat, lo: int, hi: int, lo2: int, hi2: int)
    requires Within(a, n, lo, hi) && lo2 <= lo && hi <= hi2
    ensures Within(a, n, lo2, hi2)
  {
    hide FieldsOk;
  }

  /** Two pieces, one behind the other, each of which stays within itself. */
  lemma {:induction false} Pair(a: seq<Inst>, b: seq<Inst>, n: nat)
    requires Within(a, n, 0, |a|) && Within(b, n, 0, |b|)
    ensures Within(a + b, n, 0, |a + b|)
  {
    hide Within;
    Wider(a, n, 0, |a|, 0, |a + b|);
    Wider(b, n, 0, |b|, -|a|, |a + b| - |a|);
    Join(a, b, n, 0, |a + b|);
  }

  lemma {:induction false} One(inst: Inst, n: nat, lo: int, hi: int)
    requires FieldsOk(inst, n) && Lands(inst, 0, lo, hi)
    ensures Within([inst], n, lo, hi)
  {}

  lemma {:induction false} Small(dst: Reg, src: Reg, i: int, n: nat)
    requires RegOk(dst, n) && RegOk(src, n)
    ensures Within(MovCode(dst, src), n, 0, |MovCode(dst, src)|)
    ensures Within(IntCode(dst, i), n, 0, |IntCode(dst, i)|)
  {}

  predicate ModeFits(mode: Mode, n: nat) {
    mode.Into? ==> RegOk(mode.dst, n)
  }

  // ----- construct by construct -----

  lemma {:induction false} OperandFits(e: Expr, t: nat, n: nat)
    requires InFrame(e, n)
    ensures Within(OperandCode(e, t), n, 0, |OperandCode(e, t)|) && RegOk(OperandReg(e, t), n)
    decreases e, 6
  {
    hide Code;
    if !e.LocalVar? { Fits(e, Use, t, n); }
  }

  lemma {:induction false} OperatorFits(e: Expr, dst: Reg, t: nat, optimizable: bool, n: nat)
    requires (e.Bin? || e.Cmp?) && InFrame(e, n) && RegOk(dst, n)
    ensures var code := OperatorCode(e, dst, t, optimizable); Within(code, n, 0, |code|)
    decreases e, 1
  {
    hide OperandCode; hide OperandReg; hide OperatorCode; hide Within;
    I.OperatorShape(e, dst, t, optimizable);
    var (l, r, t') := (e.lhs, e.rhs, SecondTemp(e.lhs, e.rhs, t));
    OperandFits(l, t, n);
    OperandFits(r, t, n);
    OperandFits(r, t', n);
    Pair(OperandCode(l, t), OperandCode(r, t'), n);
    var code := OperatorCode(e, dst, t, optimizable);
    var last := code[|code| - 1];
    One(last, n, 0, 1);
    Pair(code[..|code| - 1], [last], n);
    assert code == code[..|code| - 1] + [last];
  }

  lemma {:induction false} LogicFits(e: Expr, dst: Reg, t: nat, n: nat)
    requires (e.And? || e.Or?) && InFrame(e, n) && RegOk(dst, n)
    ensures var code := LogicCode(e, dst, t); Within(code, n, 0, |code|)
    decreases e, 1
  {
    hide Code; hide LogicCode; hide Within;
    LogicShape(e, dst, t);
    Fits(e.lhs, Into(dst), t, n);
    Fits(e.rhs, Into(dst), t, n);
    var right := Code(e.rhs, Into(dst), t);
    SkipFits(CondBr(dst, |right|, false, e.Or?), right, n);
    assert Code(e.lhs, Into(dst), t) + [CondBr(dst, |right|, false, e.Or?)] + right
        == Code(e.lhs, Into(dst), t) + ([CondBr(dst, |right|, false, e.Or?)] + right);
    Pair(Code(e.lhs, Into(dst), t), [CondBr(dst, |right|, false, e.Or?)] + right, n);
  }

  /** A branch over a piece. */
  lemma {:induction false} SkipFits(inst: Inst, code: seq<Inst>, n: nat)
    requires (inst.Br? || inst.CondBr?) && inst.disp == |code| && FieldsOk(inst, n) && Within(code, n, 0, |code|)
    ensures Within([inst] + code, n, 0, |code| + 1)
  {
    hide Within;
    One(inst, n, 0, |code| + 1);
    Wider(code, n, 0, |code|, -1, |code|);
    Join([inst], code, n, 0, |code| + 1);
  }

  function Lowest(disp: int, size: nat): int {
    if size + disp < 0 then size + disp else 0
  }

  function Highest(disp: int, size: nat): int {
    if disp > 0 then size + disp else size
  }

  /** A condition's code also branches to its destination. */
  lemma {:induction false} CondFits(c: Expr, jmpIf: bool, disp: int, t: nat, n: nat)
    requires InFrame(c, n)
    ensures var code := CondCode(c, jmpIf, disp, t);
            Within(code, n, Lowest(disp, |code|), Highest(disp, |code|))
    decreases c, 7
  {
    hide CondCode; hide OperatorCode; hide OperandCode; hide Within; hide OperandReg;
    var code := CondCode(c, jmpIf, disp, t);
    if c.And? || c.Or? {
      CondParts(c, jmpIf, disp, t);
      var either := c.Or? == jmpIf;
      var right := CondCode(c.rhs, jmpIf, disp, t);
      var skip := |right| + (if either then disp else 0);
      var left := CondCode(c.lhs, jmpIf == either, skip, t);
      CondFits(c.rhs, jmpIf, disp, t, n);
      CondFits(c.lhs, jmpIf == either, skip, t, n);
      var (lo, hi) := (Lowest(disp, |code|), Highest(disp, |code|));
      Wider(left, n, Lowest(skip, |left|), Highest(skip, |left|), lo, hi);
      Wider(right, n, Lowest(disp, |right|), Highest(disp, |right|), lo - |left|, hi - |left|);
      Join(left, right, n, lo, hi);
    } else {
      I.LeafShape(c, jmpIf, t);
      if c.Cmp? { OperatorFits(c, Temp(t), t, true, n); } else { OperandFits(c, t, n); }
      var (value, last) := (code[..|code| - 1], code[|code| - 1]);
      var (lo, hi) := (Lowest(disp, |code|), Highest(disp, |code|));
      One(last, n, lo - |value|, hi - |value|);
      Wider(value, n, 0, |value|, lo, hi);
      Join(value, [last], n, lo, hi);
      assert code == value + [last];
    }
  }

  lemma {:induction false} CondParts(c: Expr, jmpIf: bool, disp: int, t: nat)
    requires c.And? || c.Or?
    ensures var either := c.Or? == jmpIf;
            var right := CondCode(c.rhs, jmpIf, disp, t);
            CondCode(c, jmpIf, disp, t)
            == CondCode(c.lhs, jmpIf == either, |right| + (if either then disp else 0), t) + right
  {}

  lemma {:induction false} IfFits(e: Expr, mode: Mode, t: nat, n: nat)
    requires e.If? && InFrame(e, n) && !mode.Into?
    ensures Within(Code(e, mode, t), n, 0, |Code(e, mode, t)|)
    decreases e, 4
  {
    hide Code; hide CondCode; hide Within;
    var (then_, else_) := (Code(e.then_, mode, t), Code(e.else_, mode, t));
    var cond := CondCode(e.cond, false, |then_| + 1, t);
    IfParts(e, mode, t);
    CondFits(e.cond, false, |then_| + 1, t, n);
    Fits(e.then_, mode, t, n);
    Fits(e.else_, mode, t, n);
    SkipFits(Br(|else_|), else_, n);
    var rest := [Br(|else_|)] + else_;
    Pair(then_, rest, n);
    var size := |cond + (then_ + rest)|;
    Wider(cond, n, 0, |cond| + |then_| + 1, 0, size);
    Wider(then_ + rest, n, 0, |then_ + rest|, -|cond|, size - |cond|);
    Join(cond, then_ + rest, n, 0, size);
    assert Code(e, mode, t) == cond + (then_ + rest);
  }

  lemma {:induction false} IfParts(e: Expr, mode: Mode, t: nat)
    requires e.If? && !mode.Into?
    ensures var (then_, else_) := (Code(e.then_, mode, t), Code(e.else_, mode, t));
            Code(e, mode, t) == CondCode(e.cond, false, |then_| + 1, t) + then_ + [Br(|else_|)] + else_
  {
    hide CondCode;
  }

  lemma {:induction false} WhileFits(e: Expr, t: nat, n: nat)
    requires e.While? && InFrame(e, n)
    ensures Within(WhileCode(e, t), n, 0, |WhileCode(e, t)|)
    decreases e, 4
  {
    hide Code; hide CondCode; hide Within;
    var body := Code(e.body, NotUse, t);
    var cond := CondCode(e.cond, !e.condOp, |body| + 1, t);
    var (size, back) := (|cond| + |body| + 2, Br(-(1 + |cond| + |body| + 1)));
    CondFits(e.cond, !e.condOp, |body| + 1, t, n);
    Fits(e.body, NotUse, t, n);
    One(LoopStart, n, 0, size);
    Wider(cond, n, 0, size - 1, -1, size - 1);
    Join([LoopStart], cond, n, 0, size);
    Wider(body, n, 0, |body|, -(1 + |cond|), size - (1 + |cond|));
    Join([LoopStart] + cond, body, n, 0, size);
    One(back, n, -(size - 1), 1);
    Join([LoopStart] + cond + body, [back], n, 0, size);
  }

  lemma {:induction false} DoWhileFits(e: Expr, t: nat, n: nat)
    requires e.DoWhile? && InFrame(e, n)
    ensures Within(DoWhileCode(e, t), n, 0, |DoWhileCode(e, t)|)
    decreases e, 4
  {
    hide Code; hide CondCode; hide Within;
    var body := Code(e.body, NotUse, t);
    var disp := -(1 + |body| + |CondCode(e.cond, e.condOp, 0, t)|);
    var cond := CondCode(e.cond, e.condOp, disp, t);
    CondSize(e.cond, e.condOp, 0, disp, t);
    var size := -disp;
    CondFits(e.cond, e.condOp, disp, t, n);
    Fits(e.body, NotUse, t, n);
    One(LoopStart, n, 0, size);
    Wider(body, n, 0, |body|, -1, size - 1);
    Join([LoopStart], body, n, 0, size);
    Wider(cond, n, Lowest(disp, |cond|), Highest(disp, |cond|), -(1 + |body|), size - (1 + |body|));
    Join([LoopStart] + body, cond, n, 0, size);
  }

  lemma {:induction false} StmtsFits(es: seq<Expr>, mode: Mode, t: nat, n: nat)
    requires InFrameAll(es, n) && ModeFits(mode, n)
    ensures Within(StmtsCode(es, mode, t), n, 0, |StmtsCode(es, mode, t)|)
    decreases es, 5
  {
    hide Code; hide Within;
    if es == [] {
      if !mode.NotUse? { One(NilTo(Dst(mode, t)), n, 0, 1); } else { Nothing(n); }
    } else if |es| == 1 {
      Fits(es[0], mode, t, n);
    } else {
      Fits(es[0], NotUse, t, n);
      StmtsFits(es[1..], mode, t, n);
      Pair(Code(es[0], NotUse, t), StmtsCode(es[1..], mode, t), n);
    }
  }

  lemma {:induction false} Nothing(n: nat)
    ensures Within([], n, 0, 0)
  {}

  lemma {:induction false} ListFits(es: seq<Expr>, t: nat, n: nat)
    requires InFrameAll(es, n)
    ensures Within(ListCode(es, t), n, 0, |ListCode(es, t)|)
    decreases es, 5
  {
    hide Code; hide Within;
    Nothing(n);
    if es != [] {
      Fits(es[0], Use, t, n);
      ListFits(es[1..], t + 1, n);
      Pair(Code(es[0], Use, t), ListCode(es[1..], t + 1), n);
    }
  }

  lemma {:induction false} MovsFits(xs: seq<Local>, t: nat, n: nat)
    requires forall x <- xs :: x < n
    ensures Within(MovsCode(xs, t), n, 0, |MovsCode(xs, t)|)
    decreases |xs|
  {
    hide Within;
    Nothing(n);
    if xs != [] {
      assert xs[0] in xs && forall x <- xs[1..] :: x in xs;
      MovsFits(xs[1..], t + 1, n);
      One(Mov(LocalReg(xs[0]), Temp(t)), n, 0, 1);
      Pair([Mov(LocalReg(xs[0]), Temp(t))], MovsCode(xs[1..], t + 1), n);
    }
  }

  lemma {:induction false} MulAssignFits(e: Expr, mode: Mode, t: nat, n: nat)
    requires e.MulAssign? && InFrame(e, n) && !mode.Into?
    ensures Within(Code(e, mode, t), n, 0, |Code(e, mode, t)|)
    decreases e, 4
  {
    hide Code; hide ListCode; hide MovsCode; hide Within;
    I.CodeShape(e, mode, t);
    ListFits(e.es, t, n);
    MovsFits(e.xs, t, n);
    Pair(ListCode(e.es, t), MovsCode(e.xs, t), n);
    Nothing(n);
    One(ArrayTo(Temp(t), t, |e.es|), n, 0, 1);
    Pair(ListCode(e.es, t) + MovsCode(e.xs, t), I.MulValue(mode, t, |e.es|), n);
  }

  lemma {:induction false} LoopFits(e: Expr, mode: Mode, t: nat, n: nat)
    requires (e.While? || e.DoWhile?) && InFrame(e, n) && !mode.Into?
    ensures Within(Code(e, mode, t), n, 0, |Code(e, mode, t)|)
    decreases e, 5, false, 0
  {
    hide Code; hide WhileCode; hide DoWhileCode; hide Within;
    I.CodeShape(e, mode, t);
    if e.While? { WhileFits(e, t, n); } else { DoWhileFits(e, t, n); }
    var loop := if e.While? then WhileCode(e, t) else DoWhileCode(e, t);
    Nothing(n);
    One(NilTo(Temp(t)), n, 0, 1);
    One(LoopEnd, n, 0, 1);
    Pair(loop, ValueOfLoop(mode, t), n);
    Pair(loop + ValueOfLoop(mode, t), [LoopEnd], n);
  }

  lemma {:induction false} Fits(e: Expr, mode: Mode, t: nat, n: nat)
    requires InFrame(e, n) && ModeFits(mode, n)
    ensures Within(Code(e, mode, t), n, 0, |Code(e, mode, t)|)
    decreases e, 5, mode.Into?, 1
  {
    hide Code; hide CondCode; hide OperatorCode; hide LogicCode; hide StmtsCode; hide MovCode; hide IntCode;
    hide Within;
    I.CodeShape(e, mode, t);
    Nothing(n);
    var dst := Dst(mode, t);
    if mode.Into? && Indirect(e) {
      Fits(e, Use, t, n);
      Small(mode.dst, Temp(t), 0, n);
      Pair(Code(e, Use, t), MovCode(mode.dst, Temp(t)), n);
    } else if I.IsBinop(e) {
      var t1 := if mode.Into? then t else t + 1;
      if e.Bin? || e.Cmp? { OperatorFits(e, dst, t, false, n); } else { LogicFits(e, dst, t1, n); }
    } else if e.Neg? {
      if mode.Into? && e.e.IntLit? {
        Small(dst, dst, -e.e.i, n);
      } else {
        var inner := if mode.Into? then mode else Use;
        Fits(e.e, inner, t, n);
        One(NegTo(dst, dst), n, 0, 1);
        Pair(Code(e.e, inner, t), [NegTo(dst, dst)], n);
      }
    } else if e.Assign? {
      Fits(e.e, Into(LocalReg(e.x)), t, n);
      Small(dst, LocalReg(e.x), 0, n);
      Pair(Code(e.e, Into(LocalReg(e.x)), t), if mode.NotUse? then [] else MovCode(dst, LocalReg(e.x)), n);
    } else if e.Stmts? {
      StmtsFits(e.es, mode, t, n);
    } else if e.If? {
      IfFits(e, mode, t, n);
    } else if e.MulAssign? {
      MulAssignFits(e, mode, t, n);
    } else if e.While? || e.DoWhile? {
      LoopFits(e, mode, t, n);
    } else {
      LeafFits(e, mode, t, n);
    }
  }

  lemma {:induction false} LeafFits(e: Expr, mode: Mode, t: nat, n: nat)
    requires (e.NilLit? || e.BoolLit? || e.IntLit? || e.LocalVar?) && InFrame(e, n) && ModeFits(mode, n)
    ensures Within(Code(e, mode, t), n, 0, |Code(e, mode, t)|)
  {
    hide Code;
    I.CodeShape(e, mode, t);
  }

  /** What is in a frame is balanced. */
  lemma {:induction false} InFrameBalanced(e: Expr, n: nat)
    requires InFrame(e, n)
    ensures I.Balanced(e)
    decreases e, 1
  {
    match e
    case Neg(e1) => InFrameBalanced(e1, n);
    case Bin(_, l, r) => InFrameBalanced(l, n); InFrameBalanced(r, n);
    case Cmp(_, l, r) => InFrameBalanced(l, n); InFrameBalanced(r, n);
    case And(l, r) => InFrameBalanced(l, n); InFrameBalanced(r, n);
    case Or(l, r) => InFrameBalanced(l, n); InFrameBalanced(r, n);
    case If(c, a, b) => InFrameBalanced(c, n); InFrameBalanced(a, n); InFrameBalanced(b, n);
    case While(c, b, _) => InFrameBalanced(c, n); InFrameBalanced(b, n);
    case DoWhile(c, b, _) => InFrameBalanced(c, n); InFrameBalanced(b, n);
    case Stmts(es) => InFrameAllBalanced(es, n);
    case Assign(_, e1) => InFrameBalanced(e1, n);
    case MulAssign(_, es) => InFrameAllBalanced(es, n);
    case _ =>
  }

  lemma {:induction false} InFrameAllBalanced(es: seq<Expr>, n: nat)
    requires InFrameAll(es, n)
    ensures I.BalancedAll(es)
    decreases es, 0
  {
    if es != [] {
      InFrameBalanced(es[0], n);
      InFrameAllBalanced(es[1..], n);
    }
  }
}
