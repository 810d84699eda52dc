/** The register machine that interprets bytecode: locals and temporaries of one frame, branches by
    relative displacement. */
module RegisterMachine {
  import opened RubyCore

  datatype Reg = LocalReg(x: Local) | Temp(t: nat)

  datatype Inst =
    | NilTo(dst: Reg)
    | LiteralTo(dst: Reg, v: Value)
    | IntegerTo(dst: Reg, i: int)
    | Mov(dst: Reg, src: Reg)
    | NegTo(dst: Reg, src: Reg)
    | BinOp(op: BinOpKind, dst: Reg, l: Reg, r: Reg)
    | BinOpRi(op: BinOpKind, dst: Reg, l: Reg, imm: int)
    | BinOpIr(op: BinOpKind, dst: Reg, imm: int, r: Reg)
    | CmpRr(kind: CmpKind, dst: Reg, l: Reg, r: Reg, optimizable: bool)
    | CmpRi(kind: CmpKind, dst: Reg, l: Reg, imm: int, optimizable: bool)
    | Br(disp: int)
    | CondBr(cond: Reg, disp: int, optimizable: bool, brIf: bool)
    | LoopStart
    | LoopEnd
    | ArrayTo(dst: Reg, first: nat, len: nat)  // from consecutive temporaries

  datatype Frame = Frame(locals: seq<Value>, temps: map<nat, Value>)

  function Get(f: Frame, r: Reg): Value {
    match r
    case LocalReg(x) => Peek(f.locals, x)
    case Temp(t) => if t in f.temps then f.temps[t] else Nil
  }

  function Set(f: Frame, r: Reg, v: Value): Frame {
    match r
    case LocalReg(x) => f.(locals := Poke(f.locals, x, v))
    case Temp(t) => f.(temps := f.temps[t := v])
  }

  datatype State = At(pc: int, f: Frame, hist: History) | Crashed(hist: History)

  /** The result of an operator goes to dst, or the program crashes. */
  function Deliver(st: State, out: Outcome, dst: Reg): State
    requires st.At?
  {
    match out
    case Done(v, s) => At(st.pc + 1, Set(st.f, dst, v), s.hist)
    case Raise(h) => Crashed(h)
    case NoFuel => st
  }

  function CallTo(rt: Runtime, st: State, event: Event, dst: Reg): State
    requires st.At?
  {
    Deliver(st, Call(rt, Store(st.f.locals, st.hist), event), dst)
  }

  function StepAt(rt: Runtime, inst: Inst, st: State): State
    requires st.At?
  {
    var (pc, f) := (st.pc, st.f);
    match inst
    case NilTo(d) => st.(pc := pc + 1, f := Set(f, d, Nil))
    case LiteralTo(d, v) => st.(pc := pc + 1, f := Set(f, d, v))
    case IntegerTo(d, i) => st.(pc := pc + 1, f := Set(f, d, Int(i)))
    case Mov(d, s) => st.(pc := pc + 1, f := Set(f, d, Get(f, s)))
    case NegTo(d, s) => Deliver(st, Negate(rt, Store(f.locals, st.hist), Get(f, s)), d)
    case BinOp(op, d, l, r) => CallTo(rt, st, CallBin(op, Get(f, l), Get(f, r)), d)
    case BinOpRi(op, d, l, i) => CallTo(rt, st, CallBin(op, Get(f, l), Int(i)), d)
    case BinOpIr(op, d, i, r) => CallTo(rt, st, CallBin(op, Int(i), Get(f, r)), d)
    case CmpRr(k, d, l, r, _) => CallTo(rt, st, CallCmp(k, Get(f, l), Get(f, r)), d)
    case CmpRi(k, d, l, i, _) => CallTo(rt, st, CallCmp(k, Get(f, l), Int(i)), d)
    case Br(disp) => st.(pc := pc + 1 + disp)
    case CondBr(c, disp, _, brIf) => st.(pc := if Truthy(Get(f, c)) == brIf then pc + 1 + disp else pc + 1)
    case LoopStart => st.(pc := pc + 1)
    case LoopEnd => st.(pc := pc + 1)
    case ArrayTo(d, first, len) =>
      st.(pc := pc + 1, f := Set(f, d, Array(seq(len, i requires 0 <= i < len => Get(f, Temp(first + i))))))
  }

  function Step(rt: Runtime, program: seq<Inst>, st: State): State {
    if st.At? && 0 <= st.pc < |program| then StepAt(rt, program[st.pc], st) else st
  }

  function Steps(rt: Runtime, program: seq<Inst>, st: State, n: nat): State
    decreases n
  {
    if n == 0 then st else Steps(rt, program, Step(rt, program, st), n - 1)
  }

  lemma {:induction false} StepsAdd(rt: Runtime, program: seq<Inst>, st: State, a: nat, b: nat)
    ensures Steps(rt, program, st, a + b) == Steps(rt, program, Steps(rt, program, st, a), b)
    decreases a
  {
    if a > 0 { StepsAdd(rt, program, Step(rt, program, st), a - 1, b); }
  }

  /** The code stands in the program from position `base` on. */
  ghost predicate Placed(program: seq<Inst>, base: int, code: seq<Inst>) {
    0 <= base && base + |code| <= |program| && program[base..base + |code|] == code
  }

  lemma {:induction false} PlacedParts(program: seq<Inst>, base: int, a: seq<Inst>, b: seq<Inst>)
    requires Placed(program, base, a + b)
    ensures Placed(program, base, a) && Placed(program, base + |a|, b)
  {
    var whole := program[base..base + |a + b|];
    assert program[base..base + |a|] == whole[..|a|] == a;
    assert program[base + |a|..base + |a| + |b|] == whole[|a|..] == b;
  }

  lemma {:induction false} StepPlaced(rt: Runtime, program: seq<Inst>, st: State, inst: Inst)
    requires st.At? && Placed(program, st.pc, [inst])
    ensures Steps(rt, program, st, 1) == StepAt(rt, inst, st)
  {
    assert program[st.pc] == program[st.pc..st.pc + 1][0];
    assert Steps(rt, program, Step(rt, program, st), 0) == Step(rt, program, st);
  }
}
