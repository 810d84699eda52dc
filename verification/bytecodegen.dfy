/** The bytecode generator as it works: instructions are appended, labels are allocated, branched to and
    patched later, and a counter hands out temporaries. Once the labels are resolved, what it has emitted
    is the code of BytecodeSpec. */
module Bytecodegen {
  import opened Prelude
  import opened RubyCore
  import opened RegisterMachine
  import opened BytecodeSpec

  type Label = nat
  type Labels = seq<Option<nat>>

  /** Branches still name a label; everything else is final. */
  datatype BcIr = Op(inst: Inst) | BrTo(to: Label) | CondBrTo(cond: Reg, to: Label, optimizable: bool, brIf: bool)

  function Pos(labels: Labels, l: Label): nat {
    if l < |labels| && labels[l].Some? then labels[l].value else 0
  }

  /** A branch at idx stores the distance from the instruction after it. */
  function ResolveAt(op: BcIr, idx: nat, labels: Labels): Inst {
    match op
    case Op(inst) => inst
    case BrTo(l) => Br(Pos(labels, l) - idx - 1)
    case CondBrTo(c, l, opt, brIf) => CondBr(c, Pos(labels, l) - idx - 1, opt, brIf)
  }

  function Resolved(ops: seq<BcIr>, from: nat, labels: Labels): (r: seq<Inst>)
    ensures |r| == |ops|
  {
    seq(|ops|, i requires 0 <= i < |ops| => ResolveAt(ops[i], from + i, labels))
  }

  // ----- what a piece of generation adds -----

  datatype Image = Image(ir: seq<BcIr>, labels: Labels)

  /** The table `final` places every label that `labels` has placed, at the same position. */
  ghost predicate Agrees(labels: Labels, final: Labels) {
    |labels| <= |final| && forall l: nat :: l < |labels| && labels[l].Some? ==> final[l] == labels[l]
  }

  /** Only additions: old instructions and old labels are as they were, new labels are all placed. */
  ghost predicate Grows(a: Image, b: Image) {
    && a.ir <= b.ir && a.labels <= b.labels
    && forall l: nat :: |a.labels| <= l < |b.labels| ==> b.labels[l].Some?
  }

  function Between(a: Image, b: Image, final: Labels): seq<Inst> {
    if |a.ir| <= |b.ir| then Resolved(b.ir[|a.ir|..], |a.ir|, final) else []
  }

  /** From a to b, this code has been added, wherever the labels still open end up. */
  ghost predicate Emits(a: Image, b: Image, code: seq<Inst>) {
    && Grows(a, b)
    && forall final: Labels :: Agrees(b.labels, final) ==> Between(a, b, final) == code
  }

  /** The same for a condition, which branches to a label of the caller's. */
  ghost predicate EmitsCond(a: Image, b: Image, c: Expr, jmpIf: bool, to: Label, t: nat) {
    && Grows(a, b)
    && forall final: Labels :: Agrees(b.labels, final) ==>
         Between(a, b, final) == CondCode(c, jmpIf, Pos(final, to) - |b.ir|, t)
  }

  function Append(a: Image, op: BcIr): Image {
    a.(ir := a.ir + [op])
  }

  function WithLabels(a: Image, n: nat): Image {
    a.(labels := a.labels + seq(n, _ => None))
  }

  function Apply(a: Image, l: Label): Image
    requires l < |a.labels|
  {
    a.(labels := a.labels[l := Some(|a.ir|)])
  }

  lemma {:induction false} BetweenJoins(a: Image, b: Image, c: Image, final: Labels)
    requires a.ir <= b.ir && b.ir <= c.ir
    ensures Between(a, c, final) == Between(a, b, final) + Between(b, c, final)
    ensures |Between(a, b, final)| == |b.ir| - |a.ir|
  {}

  lemma {:induction false} BetweenAppend(a: Image, op: BcIr, final: Labels)
    ensures a.ir <= Append(a, op).ir && Between(a, Append(a, op), final) == [ResolveAt(op, |a.ir|, final)]
  {
    assert Append(a, op).ir[|a.ir|..] == [op];
  }

  lemma {:induction false} AgreesBack(a: Labels, b: Labels, final: Labels)
    requires a <= b && Agrees(b, final)
    ensures Agrees(a, final)
  {
    forall l: nat | l < |a| && a[l].Some? ensures final[l] == a[l] {
      assert a[l] == b[l];
    }
  }

  /** Placing an open label decides where it is and nothing else. */
  lemma {:induction false} AgreesPatched(labels: Labels, l: Label, p: nat, final: Labels)
    requires l < |labels| && labels[l] == None && Agrees(labels[l := Some(p)], final)
    ensures Agrees(labels, final) && Pos(final, l) == p
  {
    assert labels[l := Some(p)][l] == Some(p);
    forall m: nat | m < |labels| && labels[m].Some? ensures final[m] == labels[m] {
      assert labels[l := Some(p)][m] == labels[m];
    }
  }

  lemma {:induction false} GrowsJoin(a: Image, b: Image, c: Image)
    requires Grows(a, b) && Grows(b, c)
    ensures Grows(a, c)
  {
    forall l: nat | |a.labels| <= l < |c.labels| ensures c.labels[l].Some? {
      if l < |b.labels| { assert c.labels[l] == b.labels[l]; }
    }
  }

  lemma {:induction false} EmitsNothing(a: Image)
    ensures Emits(a, a, [])
  {}

  lemma {:induction false} EmitsJoin(a: Image, b: Image, c: Image, x: seq<Inst>, y: seq<Inst>)
    requires Emits(a, b, x) && Emits(b, c, y)
    ensures Emits(a, c, x + y)
  {
    hide Between; hide Agrees;
    GrowsJoin(a, b, c);
    forall final: Labels | Agrees(c.labels, final) ensures Between(a, c, final) == x + y {
      AgreesBack(b.labels, c.labels, final);
      BetweenJoins(a, b, c, final);
    }
  }

  lemma {:induction false} EmitsOp(a: Image, inst: Inst)
    ensures Emits(a, Append(a, Op(inst)), [inst])
  {
    forall final: Labels ensures Between(a, Append(a, Op(inst)), final) == [inst] {
      BetweenAppend(a, Op(inst), final);
    }
  }

  // ----- conditions -----

  lemma {:induction false} EmitsLeaf(
      a: Image, b: Image, x: seq<Inst>, c: Expr, cond: Reg, optimizable: bool, jmpIf: bool, to: Label, t: nat)
    requires Emits(a, b, x)
    requires forall disp: int :: CondCode(c, jmpIf, disp, t) == x + [CondBr(cond, disp, optimizable, jmpIf)]
    ensures EmitsCond(a, Append(b, CondBrTo(cond, to, optimizable, jmpIf)), c, jmpIf, to, t)
  {
    hide CondCode; hide Between; hide Agrees;
    var op := CondBrTo(cond, to, optimizable, jmpIf);
    var e := Append(b, op);
    forall final: Labels | Agrees(e.labels, final)
      ensures Between(a, e, final) == CondCode(c, jmpIf, Pos(final, to) - |e.ir|, t)
    {
      BetweenAppend(b, op, final);
      BetweenJoins(a, b, e, final);
    }
  }

  lemma {:induction false} CondShape(c: Expr, jmpIf: bool, disp: int, t: nat)
    requires c.And? || c.Or?
    ensures var either := c.Or? == jmpIf;
            var right := CondCode(c.rhs, jmpIf, disp, t);
            CondCode(c, jmpIf, disp, t) == CondCode(c.lhs, jmpIf == either, |right| + (if either then disp else 0),
                t) + right
  {
    hide OperatorCode; hide OperandCode; hide Code;
  }

  /** Both sides branch to the caller's label. */
  lemma {:induction false} EmitsEither(a: Image, b: Image, d: Image, c: Expr, jmpIf: bool, to: Label, t: nat)
    requires (c.And? || c.Or?) && c.Or? == jmpIf
    requires EmitsCond(a, b, c.lhs, jmpIf, to, t) && EmitsCond(b, d, c.rhs, jmpIf, to, t)
    ensures EmitsCond(a, d, c, jmpIf, to, t)
  {
    hide CondCode; hide Between; hide Agrees;
    GrowsJoin(a, b, d);
    forall final: Labels | Agrees(d.labels, final)
      ensures Between(a, d, final) == CondCode(c, jmpIf, Pos(final, to) - |d.ir|, t)
    {
      AgreesBack(b.labels, d.labels, final);
      BetweenJoins(a, b, d, final);
      BetweenJoins(b, d, d, final);
      CondShape(c, jmpIf, Pos(final, to) - |d.ir|, t);
    }
  }

  /** The left side branches to a label of its own, behind the right side. */
  lemma {:induction false} EmitsSkip(a: Image, b: Image, d: Image, c: Expr, jmpIf: bool, to: Label, t: nat)
    requires (c.And? || c.Or?) && c.Or? != jmpIf && to < |a.labels|
    requires EmitsCond(WithLabels(a, 1), b, c.lhs, !jmpIf, |a.labels|, t) && EmitsCond(b, d, c.rhs, jmpIf, to, t)
    ensures EmitsCond(a, Apply(d, |a.labels|), c, jmpIf, to, t)
  {
    hide CondCode; hide Between; hide Agrees;
    var cont := |a.labels|;
    var a1, e := WithLabels(a, 1), Apply(d, cont);
    GrowsJoin(a1, b, d);
    assert d.labels[cont] == a1.labels[cont] == None;
    forall final: Labels | Agrees(e.labels, final)
      ensures Between(a, e, final) == CondCode(c, jmpIf, Pos(final, to) - |e.ir|, t)
    {
      AgreesPatched(d.labels, cont, |d.ir|, final);
      AgreesBack(b.labels, d.labels, final);
      BetweenJoins(a1, b, d, final);
      BetweenJoins(b, d, d, final);
      SameIr(a, a1, d, e, final);
      CondShape(c, jmpIf, Pos(final, to) - |d.ir|, t);
    }
  }

  /** Labels do not enter into the code of a stretch. */
  lemma {:induction false} SameIr(a: Image, b: Image, c: Image, d: Image, final: Labels)
    requires a.ir == b.ir && c.ir == d.ir
    ensures Between(a, d, final) == Between(b, c, final)
  {}

  // ----- statements with labels -----

  /** `&&` and `||` as values: the exit label is placed at the end. */
  lemma {:induction false} EmitsLogic(a: Image, b: Image, d: Image, e: Expr, dst: Reg, t: nat)
    requires e.And? || e.Or?
    requires Emits(WithLabels(a, 1), b, Code(e.lhs, Into(dst), t))
    requires Emits(Append(b, CondBrTo(dst, |a.labels|, false, e.Or?)), d, Code(e.rhs, Into(dst), t))
    ensures Emits(a, Apply(d, |a.labels|), LogicCode(e, dst, t))
  {
    hide Code; hide Between; hide Agrees;
    var exit := |a.labels|;
    var a1, z := WithLabels(a, 1), Apply(d, exit);
    var br := CondBrTo(dst, exit, false, e.Or?);
    var c := Append(b, br);
    GrowsJoin(a1, c, d);
    assert d.labels[exit] == a1.labels[exit] == None;
    forall final: Labels | Agrees(z.labels, final) ensures Between(a, z, final) == LogicCode(e, dst, t) {
      AgreesPatched(d.labels, exit, |d.ir|, final);
      AgreesBack(b.labels, d.labels, final);
      BetweenAppend(b, br, final);
      BetweenJoins(a1, b, c, final);
      BetweenJoins(a1, c, d, final);
      BetweenJoins(c, d, d, final);
      SameIr(a, a1, d, z, final);
    }
  }

  /** else_pos is a's first new label, succ_pos its second. */
  lemma {:induction false} EmitsIf(a: Image, b: Image, c: Image, f: Image, e: Expr, mode: Mode, t: nat)
    requires e.If? && !mode.Into?
    requires EmitsCond(WithLabels(a, 2), b, e.cond, false, |a.labels|, t)
    requires Emits(b, c, Code(e.then_, mode, t))
    requires var d := Append(c, BrTo(|a.labels| + 1));
             |a.labels| < |d.labels| && Emits(Apply(d, |a.labels|), f, Code(e.else_, mode, t))
    ensures |a.labels| + 1 < |f.labels| && Emits(a, Apply(f, |a.labels| + 1), Code(e, mode, t))
  {
    hide Code; hide CondCode; hide Between; hide Agrees;
    var (els, succ) := (|a.labels|, |a.labels| + 1);
    var a1 := WithLabels(a, 2);
    var d := Append(c, BrTo(succ));
    var d1 := Apply(d, els);
    var z := Apply(f, succ);
    GrowsJoin(a1, b, c);
    assert c.labels[els] == a1.labels[els] == None
        && f.labels[succ] == d1.labels[succ] == c.labels[succ] == a1.labels[succ] == None;
    assert a.labels <= d1.labels;
    forall l: nat | |a.labels| <= l < |z.labels| ensures z.labels[l].Some? {
      if l < |d1.labels| && l != succ && l != els { assert f.labels[l] == d1.labels[l] == d.labels[l]; }
      if l == els { assert f.labels[l] == d1.labels[l]; }
    }
    forall final: Labels | Agrees(z.labels, final) ensures Between(a, z, final) == Code(e, mode, t) {
      AgreesPatched(f.labels, succ, |f.ir|, final);
      AgreesBack(d1.labels, f.labels, final);
      AgreesPatched(d.labels, els, |d.ir|, final);
      AgreesBack(b.labels, d.labels, final);
      IfJoins(a1, b, c, d, f, succ, final);
      SameIr(d1, d, f, f, final);
      SameIr(a, a1, f, z, final);
      IfShape(e, mode, t);
    }
  }

  lemma {:induction false} IfJoins(a: Image, b: Image, c: Image, d: Image, f: Image, succ: Label, final: Labels)
    requires a.ir <= b.ir <= c.ir && d == Append(c, BrTo(succ)) && d.ir <= f.ir
    ensures Between(a, f, final)
            == Between(a, b, final) + Between(b, c, final) + [Br(Pos(final, succ) - |c.ir| - 1)] + Between(d, f, final)
    ensures |Between(b, c, final)| == |c.ir| - |b.ir| && |Between(d, f, final)| == |f.ir| - |d.ir|
  {
    hide Between;
    BetweenAppend(c, BrTo(succ), final);
    BetweenJoins(a, b, c, final);
    BetweenJoins(b, c, c, final);
    BetweenJoins(a, c, d, final);
    BetweenJoins(a, d, f, final);
    BetweenJoins(d, f, f, final);
  }

  lemma {:induction false} IfShape(e: Expr, mode: Mode, t: nat)
    requires e.If? && !mode.Into?
    ensures var (then_, else_) := (Code(e.then_, mode, t), Code(e.else_, mode, t));
            Code(e, mode, t) == CondCode(e.cond, false, |then_| + 1, t) + then_ + [Br(|else_|)] + else_
  {
    hide CondCode;
  }

  /** As Emits, with the loop's break label still open. */
  ghost predicate EmitsOpen(a: Image, b: Image, brk: Label, code: seq<Inst>) {
    && a.ir <= b.ir && a.labels <= b.labels
    && |a.labels| <= brk < |b.labels| && b.labels[brk] == None
    && (forall l: nat :: |a.labels| <= l < |b.labels| && l != brk ==> b.labels[l].Some?)
    && forall final: Labels :: Agrees(b.labels, final) ==> Between(a, b, final) == code
  }

  lemma {:induction false} EmitsLoopEnd(a: Image, b: Image, c: Image, brk: Label, code: seq<Inst>, value: seq<Inst>)
    requires EmitsOpen(a, b, brk, code) && Emits(b, c, value)
    ensures brk < |c.labels| && Emits(a, Append(Apply(c, brk), Op(LoopEnd)), code + value + [LoopEnd])
  {
    hide Between; hide Agrees;
    var c1 := Apply(c, brk);
    var z := Append(c1, Op(LoopEnd));
    assert c.labels[brk] == b.labels[brk] == None;
    forall l: nat | |a.labels| <= l < |z.labels| ensures z.labels[l].Some? {
      if l < |b.labels| && l != brk { assert c.labels[l] == b.labels[l]; }
    }
    forall final: Labels | Agrees(z.labels, final) ensures Between(a, z, final) == code + value + [LoopEnd] {
      AgreesPatched(c.labels, brk, |c.ir|, final);
      AgreesBack(b.labels, c.labels, final);
      BetweenAppend(c1, Op(LoopEnd), final);
      BetweenJoins(a, b, c, final);
      BetweenJoins(a, c1, z, final);
      SameIr(a, a, c, c1, final);
    }
  }

  /** Labels of a while loop: its head, its exit, and the target of a break. */
  function WhileHead(a: Image): Image {
    Append(Apply(WithLabels(a, 3), |a.labels|), Op(LoopStart))
  }

  lemma {:induction false} EmitsWhile(a: Image, b: Image, c: Image, e: Expr, t: nat)
    requires e.While?
    requires EmitsCond(WhileHead(a), b, e.cond, !e.condOp, |a.labels| + 1, t) && Emits(b, c, Code(e.body, NotUse, t))
    ensures |a.labels| + 3 <= |c.labels|
    ensures EmitsOpen(a, Apply(Append(c, BrTo(|a.labels|)), |a.labels| + 1), |a.labels| + 2, WhileCode(e, t))
  {
    hide Code; hide CondCode; hide Between; hide Agrees;
    var (head, succ, brk) := (|a.labels|, |a.labels| + 1, |a.labels| + 2);
    var a1 := Apply(WithLabels(a, 3), head);
    var h := WhileHead(a);
    var d := Append(c, BrTo(head));
    var z := Apply(d, succ);
    GrowsJoin(h, b, c);
    assert d.labels[succ] == h.labels[succ] == None && d.labels[brk] == h.labels[brk] == None;
    assert d.labels[head] == h.labels[head] == Some(|a.ir|);
    forall final: Labels | Agrees(z.labels, final) ensures Between(a, z, final) == WhileCode(e, t) {
      AgreesPatched(d.labels, succ, |d.ir|, final);
      AgreesBack(b.labels, d.labels, final);
      PlacedAt(d.labels, head, final);
      BetweenAppend(a1, Op(LoopStart), final);
      BetweenAppend(c, BrTo(head), final);
      BetweenJoins(a1, h, b, final);
      BetweenJoins(h, b, b, final);
      BetweenJoins(a1, b, c, final);
      BetweenJoins(b, c, c, final);
      BetweenJoins(a1, c, d, final);
      SameIr(a, a1, d, z, final);
    }
  }

  function DoWhileHead(a: Image): Image {
    Append(Apply(WithLabels(a, 2), |a.labels|), Op(LoopStart))
  }

  lemma {:induction false} EmitsDoWhile(a: Image, b: Image, c: Image, e: Expr, t: nat)
    requires e.DoWhile?
    requires Emits(DoWhileHead(a), b, Code(e.body, NotUse, t)) && EmitsCond(b, c, e.cond, e.condOp, |a.labels|, t)
    ensures EmitsOpen(a, c, |a.labels| + 1, DoWhileCode(e, t))
  {
    hide Code; hide CondCode; hide Between; hide Agrees;
    var (head, brk) := (|a.labels|, |a.labels| + 1);
    var a1 := Apply(WithLabels(a, 2), head);
    var h := DoWhileHead(a);
    GrowsJoin(h, b, c);
    assert c.labels[brk] == h.labels[brk] == None;
    assert c.labels[head] == h.labels[head] == Some(|a.ir|);
    forall final: Labels | Agrees(c.labels, final) ensures Between(a, c, final) == DoWhileCode(e, t) {
      AgreesBack(b.labels, c.labels, final);
      PlacedAt(c.labels, head, final);
      BetweenAppend(a1, Op(LoopStart), final);
      BetweenJoins(a1, h, b, final);
      BetweenJoins(h, b, b, final);
      BetweenJoins(a1, b, c, final);
      BetweenJoins(b, c, c, final);
      SameIr(a, a1, c, c, final);
      CondSize(e.cond, e.condOp, 0, |a.ir| - |c.ir|, t);
    }
  }

  lemma {:induction false} PlacedAt(labels: Labels, l: Label, final: Labels)
    requires l < |labels| && labels[l].Some? && Agrees(labels, final)
    ensures Pos(final, l) == labels[l].value
  {}

  // ----- lists -----

  /** The first n statements, for their effect. */
  function DropsCode(es: seq<Expr>, n: nat, t: nat): seq<Inst>
    requires n <= |es|
    decreases n
  {
    if n == 0 then [] else DropsCode(es, n - 1, t) + Code(es[n - 1], NotUse, t)
  }

  lemma {:induction false} DropsFromFront(es: seq<Expr>, n: nat, t: nat)
    requires 0 < n <= |es|
    ensures DropsCode(es, n, t) == Code(es[0], NotUse, t) + DropsCode(es[1..], n - 1, t)
    decreases n
  {
    hide Code;
    if n > 1 {
      DropsFromFront(es, n - 1, t);
      assert es[1..][n - 2] == es[n - 1];
    }
  }

  lemma {:induction false} StmtsAreDropsAndLast(es: seq<Expr>, mode: Mode, t: nat)
    requires es != []
    ensures StmtsCode(es, mode, t) == DropsCode(es, |es| - 1, t) + Code(es[|es| - 1], mode, t)
    decreases |es|
  {
    hide Code;
    if |es| > 1 {
      DropsFromFront(es, |es| - 1, t);
      StmtsAreDropsAndLast(es[1..], mode, t);
    }
  }

  lemma {:induction false} ListGrows(es: seq<Expr>, t: nat)
    requires es != []
    ensures ListCode(es, t) == ListCode(es[..|es| - 1], t) + Code(es[|es| - 1], Use, t + |es| - 1)
    decreases |es|
  {
    hide Code;
    if |es| > 1 {
      ListGrows(es[1..], t + 1);
      assert es[1..][..|es| - 2] == es[..|es| - 1][1..];
    }
  }

  lemma {:induction false} MovsGrow(xs: seq<Local>, t: nat)
    requires xs != []
    ensures MovsCode(xs, t) == MovsCode(xs[..|xs| - 1], t) + [Mov(LocalReg(xs[|xs| - 1]), Temp(t + |xs| - 1))]
    decreases |xs|
  {
    if |xs| > 1 {
      MovsGrow(xs[1..], t + 1);
      assert xs[1..][..|xs| - 2] == xs[..|xs| - 1][1..];
    }
  }
}
