/** Compiled code in words: packed, read back and run on the slots of a frame, it does what the register machine does
    with the instructions themselves. */
module BytecodeLink {
  import opened Prelude
  import C = RubyCore
  import R = RegisterMachine
  import E = Encoding
  import S = BytecodeSpec
  import P = BytecodeProof
  import K = CompiledCore
  import I = IrContexts
  import F = CodeFits

  /** How literal values are kept in words. */
  datatype Literals = Literals(word: C.Value -> nat, value: nat -> C.Value)

  ghost predicate Faithful(lit: Literals) {
    forall v: C.Value :: lit.value(lit.word(v)) == v
  }

  // ----- instructions as words -----

  function ToReg(r: R.Reg): E.Reg {
    match r
    case LocalReg(x) => E.LocalReg(x)
    case Temp(t) => E.TempReg(t)
  }

  function ToOp(k: C.BinOpKind): E.BinOpK {
    match k
    case Add => E.Add case Sub => E.Sub case Mul => E.Mul case Div => E.Div case BitOr => E.BitOr
    case BitAnd => E.BitAnd case BitXor => E.BitXor case Shr => E.Shr case Shl => E.Shl case Rem => E.Rem
    case Exp => E.Exp
  }

  function OfOp(k: E.BinOpK): C.BinOpKind {
    match k
    case Add => C.Add case Sub => C.Sub case Mul => C.Mul case Div => C.Div case BitOr => C.BitOr
    case BitAnd => C.BitAnd case BitXor => C.BitXor case Shr => C.Shr case Shl => C.Shl case Rem => C.Rem
    case Exp => C.Exp
  }

  function ToCmp(k: C.CmpKind): E.CmpKind {
    match k
    case Eq => E.Eq case Ne => E.Ne case Lt => E.Lt case Le => E.Le case Gt => E.Gt case Ge => E.Ge
  }

  function OfCmp(k: E.CmpKind): C.CmpKind {
    match k
    case Eq => C.Eq case Ne => C.Ne case Lt => C.Lt case Le => C.Le case Gt => C.Gt case Ge => C.Ge
  }

  function Target(idx: nat, disp: int): nat {
    if idx + 1 + disp >= 0 then idx + 1 + disp else 0
  }

  /** The instruction at idx in the intermediate form, with positions for labels. */
  function ToIr(lit: Literals, inst: R.Inst, idx: nat): E.BcIr {
    match inst
    case NilTo(d) => E.Nil(ToReg(d))
    case LiteralTo(d, v) => E.Literal(ToReg(d), lit.word(v))
    case IntegerTo(d, i) => E.Integer(ToReg(d), i)
    case Mov(d, s) => E.Mov(ToReg(d), ToReg(s))
    case NegTo(d, s) => E.Neg(ToReg(d), ToReg(s))
    case BinOp(k, d, l, r) => E.BinOp(ToOp(k), ToReg(d), ToReg(l), ToReg(r))
    case BinOpRi(k, d, l, i) => E.BinOpRi(ToOp(k), ToReg(d), ToReg(l), i)
    case BinOpIr(k, d, i, r) => E.BinOpIr(ToOp(k), ToReg(d), i, ToReg(r))
    case CmpRr(k, d, l, r, opt) => E.Cmp(ToCmp(k), ToReg(d), ToReg(l), ToReg(r), opt)
    case CmpRi(k, d, l, i, opt) => E.Cmpri(ToCmp(k), ToReg(d), ToReg(l), i, opt)
    case Br(disp) => E.Br(Target(idx, disp))
    case CondBr(c, disp, opt, brIf) => E.CondBr(ToReg(c), Target(idx, disp), opt, brIf)
    case LoopStart => E.LoopStart
    case LoopEnd => E.LoopEnd
    case ArrayTo(d, first, len) => E.Array(ToReg(d), E.TempReg(first), len)
  }

  predicate RegFits(info: E.Info, r: R.Reg) {
    E.ValidReg(info, ToReg(r))
  }

  /** Registers of the frame, immediates and displacements within their fields, branches into the program. */
  predicate InstFits(info: E.Info, inst: R.Inst, idx: nat) {
    match inst
    case NilTo(d) => RegFits(info, d)
    case LiteralTo(d, _) => RegFits(info, d)
    case IntegerTo(d, i) => RegFits(info, d) && E.I32(i)
    case Mov(d, s) => RegFits(info, d) && RegFits(info, s)
    case NegTo(d, s) => RegFits(info, d) && RegFits(info, s)
    case BinOp(_, d, l, r) => RegFits(info, d) && RegFits(info, l) && RegFits(info, r)
    case BinOpRi(_, d, l, i) => RegFits(info, d) && RegFits(info, l) && E.I16(i)
    case BinOpIr(_, d, i, r) => RegFits(info, d) && RegFits(info, r) && E.I16(i)
    case CmpRr(_, d, l, r, _) => RegFits(info, d) && RegFits(info, l) && RegFits(info, r)
    case CmpRi(_, d, l, i, _) => RegFits(info, d) && RegFits(info, l) && E.I16(i)
    case Br(disp) => E.I32(disp) && idx + 1 + disp >= 0
    case CondBr(c, disp, _, _) => RegFits(info, c) && E.I32(disp) && idx + 1 + disp >= 0
    case ArrayTo(d, first, len) =>
      RegFits(info, d) && first < info.temps && first + len <= info.temps && len < E.W16
    case _ => true
  }

  predicate ProgramFits(info: E.Info, program: seq<R.Inst>) {
    E.TotalRegNum(info) < E.W16 && forall i: nat :: i < |program| ==> InstFits(info, program[i], i)
  }

  function Words(info: E.Info, lit: Literals, program: seq<R.Inst>): (code: seq<E.Bc>)
    ensures |code| == |program|
  {
    seq(|program|, i requires 0 <= i < |program| => E.Encode(info, ToIr(lit, program[i], i), i, l => l))
  }

  // ----- the machine that runs words -----

  datatype SlotState = SlotAt(pc: int, slots: seq<C.Value>, hist: C.History) | SlotCrashed(hist: C.History)

  function Load(slots: seq<C.Value>, s: E.SlotId): C.Value {
    if s < |slots| then slots[s] else C.Nil
  }

  function Save(st: SlotState, s: E.SlotId, v: C.Value): SlotState
    requires st.SlotAt?
  {
    st.(pc := st.pc + 1, slots := if s < |st.slots| then st.slots[s := v] else st.slots)
  }

  function Finish(st: SlotState, out: C.Outcome, ret: E.SlotId): SlotState
    requires st.SlotAt?
  {
    match out
    case Done(v, s) => Save(st, ret, v).(hist := s.hist)
    case Raise(h) => SlotCrashed(h)
    case NoFuel => st
  }

  function SlotCall(rt: C.Runtime, st: SlotState, event: C.Event, ret: E.SlotId): SlotState
    requires st.SlotAt?
  {
    Finish(st, C.Call(rt, C.Store([], st.hist), event), ret)
  }

  function SlotStepAt(rt: C.Runtime, lit: Literals, inst: E.TraceIr, st: SlotState): SlotState
    requires st.SlotAt?
  {
    match inst
    case TNil(r) => Save(st, r, C.Nil)
    case TLiteral(r, w) => Save(st, r, lit.value(w))
    case TInteger(r, i) => Save(st, r, C.Int(i))
    case TMov(r, s) => Save(st, r, Load(st.slots, s))
    case TNeg(r, s) => Finish(st, C.Negate(rt, C.Store([], st.hist), Load(st.slots, s)), r)
    case TBinOp(k, r, a, b) => SlotCall(rt, st, C.CallBin(OfOp(k), Load(st.slots, a), Load(st.slots, b)), r)
    case TBinOpRi(k, r, a, i) => SlotCall(rt, st, C.CallBin(OfOp(k), Load(st.slots, a), C.Int(i)), r)
    case TBinOpIr(k, r, i, b) => SlotCall(rt, st, C.CallBin(OfOp(k), C.Int(i), Load(st.slots, b)), r)
    case TCmp(k, r, a, b, _) => SlotCall(rt, st, C.CallCmp(OfCmp(k), Load(st.slots, a), Load(st.slots, b)), r)
    case TCmpri(k, r, a, i, _) => SlotCall(rt, st, C.CallCmp(OfCmp(k), Load(st.slots, a), C.Int(i)), r)
    case TBr(disp) => st.(pc := st.pc + 1 + disp)
    case TCondBr(c, disp, _, brIf) =>
      st.(pc := if C.Truthy(Load(st.slots, c)) == brIf then st.pc + 1 + disp else st.pc + 1)
    case TLoopStart(_) => st.(pc := st.pc + 1)
    case TLoopEnd => st.(pc := st.pc + 1)
    case TArray(r, src, len) => Save(st, r, C.Array(seq(len, i requires 0 <= i < len => Load(st.slots, src + i))))
    case _ => st
  }

  function SlotStep(rt: C.Runtime, lit: Literals, code: seq<E.Bc>, st: SlotState): SlotState {
    if st.SlotAt? && 0 <= st.pc < |code| && E.FromBc(code[st.pc]).Some?
    then SlotStepAt(rt, lit, E.FromBc(code[st.pc]).value, st) else st
  }

  function SlotSteps(rt: C.Runtime, lit: Literals, code: seq<E.Bc>, st: SlotState, n: nat): SlotState
    decreases n
  {
    if n == 0 then st else SlotSteps(rt, lit, code, SlotStep(rt, lit, code, st), n - 1)
  }

  // ----- they run alike -----

  /** The frame of the register machine, laid out in slots after the one for self. */
  ghost predicate LaidOut(info: E.Info, f: R.Frame, slots: seq<C.Value>) {
    && |slots| == E.TotalRegNum(info) && |f.locals| == info.locals
    && forall r: R.Reg :: RegFits(info, r) ==> slots[E.GetIndex(info, ToReg(r))] == R.Get(f, r)
  }

  ghost predicate Alike(info: E.Info, st: R.State, ss: SlotState) {
    match st
    case Crashed(h) => ss == SlotCrashed(h)
    case At(pc, f, hist) => ss.SlotAt? && ss.pc == pc && ss.hist == hist && LaidOut(info, f, ss.slots)
  }

  lemma {:induction false} IndexFits(info: E.Info, r: R.Reg)
    requires RegFits(info, r)
    ensures E.GetIndex(info, ToReg(r)) < E.TotalRegNum(info)
  {}

  /** Writing a register is writing its slot: no other register has that slot. */
  lemma {:induction false} SaveLaysOut(info: E.Info, f: R.Frame, slots: seq<C.Value>, d: R.Reg, v: C.Value)
    requires LaidOut(info, f, slots) && RegFits(info, d)
    ensures E.GetIndex(info, ToReg(d)) < |slots|
    ensures LaidOut(info, R.Set(f, d, v), slots[E.GetIndex(info, ToReg(d)) := v])
  {
    IndexFits(info, d);
    var (g, after) := (R.Set(f, d, v), slots[E.GetIndex(info, ToReg(d)) := v]);
    forall r: R.Reg | RegFits(info, r) ensures after[E.GetIndex(info, ToReg(r))] == R.Get(g, r) {
      IndexFits(info, r);
      E.GetIndexIsInjective(info, ToReg(r), ToReg(d));
      assert slots[E.GetIndex(info, ToReg(r))] == R.Get(f, r);
    }
  }

  lemma {:induction false} LoadIs(info: E.Info, f: R.Frame, slots: seq<C.Value>, r: R.Reg)
    requires LaidOut(info, f, slots) && RegFits(info, r)
    ensures Load(slots, E.GetIndex(info, ToReg(r))) == R.Get(f, r)
  {
    IndexFits(info, r);
  }

  lemma {:induction false} KindsReadBack(k: C.BinOpKind, c: C.CmpKind)
    ensures OfOp(ToOp(k)) == k && OfCmp(ToCmp(c)) == c
  {}

  /** What the word at idx is read back as. */
  lemma {:induction false} WordIs(info: E.Info, lit: Literals, program: seq<R.Inst>, idx: nat)
    requires ProgramFits(info, program) && idx < |program|
    ensures var ir := ToIr(lit, program[idx], idx);
            !ir.InlineCache? && E.FromBc(Words(info, lit, program)[idx]) == Some(E.Meaning(info, ir, idx, l => l))
  {
    var ir := ToIr(lit, program[idx], idx);
    WordFits(info, lit, program[idx], idx);
    E.DecodeEncode(info, ir, idx, l => l);
  }

  lemma {:induction false} WordFits(info: E.Info, lit: Literals, inst: R.Inst, idx: nat)
    requires E.TotalRegNum(info) < E.W16 && InstFits(info, inst, idx)
    ensures !ToIr(lit, inst, idx).InlineCache? && E.Encodable(info, ToIr(lit, inst, idx), idx, l => l)
  {
    hide E.Pack; hide E.Fits;
    PackFits(info, lit, inst, idx);
  }

  lemma {:induction false} PackFits(info: E.Info, lit: Literals, inst: R.Inst, idx: nat)
    requires E.TotalRegNum(info) < E.W16 && InstFits(info, inst, idx)
    ensures E.Fits(E.Pack(info, ToIr(lit, inst, idx), idx, l => l))
  {
    hide E.BinOpNumber; hide E.CmpNumber; hide ToOp; hide ToCmp; hide E.GetIndex; hide ToReg;
    SlotsFit(info);
  }

  lemma {:induction false} SlotsFit(info: E.Info)
    requires E.TotalRegNum(info) < E.W16
    ensures forall r: R.Reg :: RegFits(info, r) ==> E.GetIndex(info, ToReg(r)) < E.W16
    ensures forall t: nat :: t < info.temps ==> E.GetIndex(info, E.TempReg(t)) < E.W16
  {}

  /** A result arrives in a register, and in its slot. */
  lemma {:induction false} FinishAlike(info: E.Info, st: R.State, ss: SlotState, a: C.Outcome, b: C.Outcome, d: R.Reg)
    requires st.At? && Alike(info, st, ss) && RegFits(info, d) && !a.NoFuel?
    requires if a.Done? then b.Done? && a.v == b.v && a.s.hist == b.s.hist else a == b
    ensures Alike(info, R.Deliver(st, a, d), Finish(ss, b, E.GetIndex(info, ToReg(d))))
  {
    hide LaidOut;
    if a.Done? { LayOut(info, st.f, ss.slots, d, a.v); }
  }

  lemma {:induction false} LayOut(info: E.Info, f: R.Frame, slots: seq<C.Value>, d: R.Reg, v: C.Value)
    requires LaidOut(info, f, slots) && RegFits(info, d)
    ensures E.GetIndex(info, ToReg(d)) < |slots|
    ensures LaidOut(info, R.Set(f, d, v), slots[E.GetIndex(info, ToReg(d)) := v])
  {
    SaveLaysOut(info, f, slots, d, v);
  }

  lemma {:induction false} CallAlike(
      rt: C.Runtime, info: E.Info, st: R.State, ss: SlotState, event: C.Event, d: R.Reg)
    requires st.At? && Alike(info, st, ss) && RegFits(info, d)
    ensures Alike(info, R.CallTo(rt, st, event, d), SlotCall(rt, ss, event, E.GetIndex(info, ToReg(d))))
  {
    hide LaidOut; hide R.Deliver; hide Finish;
    FinishAlike(info, st, ss, C.Call(rt, C.Store(st.f.locals, st.hist), event),
        C.Call(rt, C.Store([], ss.hist), event), d);
  }

  lemma {:induction false} SaveAlike(info: E.Info, st: R.State, ss: SlotState, d: R.Reg, v: C.Value)
    requires st.At? && Alike(info, st, ss) && RegFits(info, d)
    ensures Alike(info, st.(pc := st.pc + 1, f := R.Set(st.f, d, v)), Save(ss, E.GetIndex(info, ToReg(d)), v))
  {
    hide LaidOut;
    LayOut(info, st.f, ss.slots, d, v);
  }

  lemma {:induction false} ArrayAlike(info: E.Info, f: R.Frame, slots: seq<C.Value>, first: nat, len: nat)
    requires LaidOut(info, f, slots) && first + len <= info.temps
    ensures seq(len, i requires 0 <= i < len => R.Get(f, R.Temp(first + i)))
            == seq(len, i requires 0 <= i < len => Load(slots, E.GetIndex(info, E.TempReg(first)) + i))
  {
    hide LaidOut;
    var a := seq(len, i requires 0 <= i < len => R.Get(f, R.Temp(first + i)));
    var b := seq(len, i requires 0 <= i < len => Load(slots, E.GetIndex(info, E.TempReg(first)) + i));
    forall i | 0 <= i < len ensures a[i] == b[i] {
      LoadIs(info, f, slots, R.Temp(first + i));
      assert E.GetIndex(info, ToReg(R.Temp(first + i))) == E.GetIndex(info, E.TempReg(first)) + i;
      assert a[i] == R.Get(f, R.Temp(first + i));
    }
  }

  lemma {:induction false} OperatorAlike(
      rt: C.Runtime, info: E.Info, lit: Literals, inst: R.Inst, idx: nat, st: R.State, ss: SlotState)
    requires st.At? && st.pc == idx && Alike(info, st, ss) && InstFits(info, inst, idx)
    requires inst.BinOp? || inst.BinOpRi? || inst.BinOpIr? || inst.CmpRr? || inst.CmpRi?
    ensures !ToIr(lit, inst, idx).InlineCache?
    ensures Alike(info, R.StepAt(rt, inst, st),
                  SlotStepAt(rt, lit, E.Meaning(info, ToIr(lit, inst, idx), idx, l => l), ss))
  {
    hide LaidOut; hide Load; hide SlotCall; hide R.CallTo; hide R.Get; hide E.GetIndex; hide ToReg; hide RegFits;
    hide OfOp; hide ToOp; hide OfCmp; hide ToCmp; hide Alike;
    AlikeLaysOut(info, st, ss);
    match inst
    case BinOp(k, d, l, r) =>
      LoadIs(info, st.f, ss.slots, l);
      LoadIs(info, st.f, ss.slots, r);
      KindsReadBack(k, C.Eq);
      CallAlike(rt, info, st, ss, C.CallBin(k, R.Get(st.f, l), R.Get(st.f, r)), d);
    case BinOpRi(k, d, l, i) =>
      LoadIs(info, st.f, ss.slots, l);
      KindsReadBack(k, C.Eq);
      CallAlike(rt, info, st, ss, C.CallBin(k, R.Get(st.f, l), C.Int(i)), d);
    case BinOpIr(k, d, i, r) =>
      LoadIs(info, st.f, ss.slots, r);
      KindsReadBack(k, C.Eq);
      CallAlike(rt, info, st, ss, C.CallBin(k, C.Int(i), R.Get(st.f, r)), d);
    case CmpRr(k, d, l, r, _) =>
      LoadIs(info, st.f, ss.slots, l);
      LoadIs(info, st.f, ss.slots, r);
      KindsReadBack(C.Add, k);
      CallAlike(rt, info, st, ss, C.CallCmp(k, R.Get(st.f, l), R.Get(st.f, r)), d);
    case CmpRi(k, d, l, i, _) =>
      LoadIs(info, st.f, ss.slots, l);
      KindsReadBack(C.Add, k);
      CallAlike(rt, info, st, ss, C.CallCmp(k, R.Get(st.f, l), C.Int(i)), d);
  }

  lemma {:induction false} AlikeLaysOut(info: E.Info, st: R.State, ss: SlotState)
    requires st.At? && Alike(info, st, ss)
    ensures ss.SlotAt? && ss.pc == st.pc && LaidOut(info, st.f, ss.slots)
  {}

  lemma {:induction false} TargetReadsBack(idx: nat, disp: int)
    requires idx + 1 + disp >= 0
    ensures E.Disp(Target(idx, disp), idx) == disp
  {}

  lemma {:induction false} BranchAlike(
      rt: C.Runtime, info: E.Info, lit: Literals, inst: R.Inst, idx: nat, st: R.State, ss: SlotState)
    requires st.At? && st.pc == idx && Alike(info, st, ss) && InstFits(info, inst, idx)
    requires inst.Br? || inst.CondBr? || inst.LoopStart? || inst.LoopEnd?
    ensures !ToIr(lit, inst, idx).InlineCache?
    ensures Alike(info, R.StepAt(rt, inst, st),
                  SlotStepAt(rt, lit, E.Meaning(info, ToIr(lit, inst, idx), idx, l => l), ss))
  {
    hide LaidOut; hide Load; hide R.Get; hide E.GetIndex; hide ToReg; hide RegFits; hide C.Truthy; hide Target;
    hide E.Disp; hide ToIr; hide E.Meaning;
    BranchMeaning(info, lit, inst, idx);
    if inst.CondBr? { LoadIs(info, st.f, ss.slots, inst.cond); }
  }

  lemma {:induction false} BranchMeaning(info: E.Info, lit: Literals, inst: R.Inst, idx: nat)
    requires InstFits(info, inst, idx) && (inst.Br? || inst.CondBr? || inst.LoopStart? || inst.LoopEnd?)
    ensures !ToIr(lit, inst, idx).InlineCache?
    ensures E.Meaning(info, ToIr(lit, inst, idx), idx, l => l)
            == match inst
               case Br(disp) => E.TBr(disp)
               case CondBr(c, disp, opt, brIf) => E.TCondBr(E.GetIndex(info, ToReg(c)), disp, opt, brIf)
               case LoopStart => E.TLoopStart(0)
               case LoopEnd => E.TLoopEnd
  {
    hide E.GetIndex; hide ToReg; hide RegFits; hide Target; hide E.Disp;
    if inst.Br? || inst.CondBr? { TargetReadsBack(idx, inst.disp); }
  }

  lemma {:induction false} DataAlike(
      rt: C.Runtime, info: E.Info, lit: Literals, inst: R.Inst, idx: nat, st: R.State, ss: SlotState)
    requires st.At? && st.pc == idx && Alike(info, st, ss) && InstFits(info, inst, idx) && Faithful(lit)
    requires inst.NilTo? || inst.LiteralTo? || inst.IntegerTo? || inst.Mov? || inst.NegTo? || inst.ArrayTo?
    ensures !ToIr(lit, inst, idx).InlineCache?
    ensures Alike(info, R.StepAt(rt, inst, st),
                  SlotStepAt(rt, lit, E.Meaning(info, ToIr(lit, inst, idx), idx, l => l), ss))
  {
    hide LaidOut; hide Load; hide Save; hide Finish; hide R.Deliver; hide R.Get; hide R.Set; hide E.GetIndex;
    hide ToReg; hide RegFits; hide Alike;
    AlikeLaysOut(info, st, ss);
    match inst
    case NilTo(d) => SaveAlike(info, st, ss, d, C.Nil);
    case LiteralTo(d, v) => SaveAlike(info, st, ss, d, v);
    case IntegerTo(d, i) => SaveAlike(info, st, ss, d, C.Int(i));
    case Mov(d, s) =>
      LoadIs(info, st.f, ss.slots, s);
      SaveAlike(info, st, ss, d, R.Get(st.f, s));
    case NegTo(d, s) =>
      LoadIs(info, st.f, ss.slots, s);
      NegateAlike(rt, info, st, ss, d, R.Get(st.f, s));
    case ArrayTo(d, first, len) =>
      ArrayAlike(info, st.f, ss.slots, first, len);
      SaveAlike(info, st, ss, d, C.Array(seq(len, i requires 0 <= i < len => R.Get(st.f, R.Temp(first + i)))));
  }

  lemma {:induction false} NegateAlike(rt: C.Runtime, info: E.Info, st: R.State, ss: SlotState, d: R.Reg, v: C.Value)
    requires st.At? && Alike(info, st, ss) && RegFits(info, d)
    ensures Alike(info, R.Deliver(st, C.Negate(rt, C.Store(st.f.locals, st.hist), v), d),
                  Finish(ss, C.Negate(rt, C.Store([], ss.hist), v), E.GetIndex(info, ToReg(d))))
  {
    hide LaidOut; hide R.Deliver; hide Finish;
    var (a, b) := (C.Negate(rt, C.Store(st.f.locals, st.hist), v), C.Negate(rt, C.Store([], ss.hist), v));
    FinishAlike(info, st, ss, a, b, d);
  }

  /** One step on the word, for each kind of instruction. */
  lemma {:induction false} StepAlike(
      rt: C.Runtime, info: E.Info, lit: Literals, inst: R.Inst, idx: nat, st: R.State, ss: SlotState)
    requires st.At? && st.pc == idx && Alike(info, st, ss) && InstFits(info, inst, idx) && Faithful(lit)
    ensures !ToIr(lit, inst, idx).InlineCache?
    ensures Alike(info, R.StepAt(rt, inst, st),
                  SlotStepAt(rt, lit, E.Meaning(info, ToIr(lit, inst, idx), idx, l => l), ss))
  {
    hide Alike; hide InstFits; hide R.StepAt; hide SlotStepAt; hide E.Meaning; hide ToIr; hide Faithful;
    if inst.Br? || inst.CondBr? || inst.LoopStart? || inst.LoopEnd? {
      BranchAlike(rt, info, lit, inst, idx, st, ss);
    } else if inst.BinOp? || inst.BinOpRi? || inst.BinOpIr? || inst.CmpRr? || inst.CmpRi? {
      OperatorAlike(rt, info, lit, inst, idx, st, ss);
    } else {
      DataAlike(rt, info, lit, inst, idx, st, ss);
    }
  }

  /** Running the words is running the program, step for step. */
  lemma {:induction false} RunAlike(
      rt: C.Runtime, info: E.Info, lit: Literals, program: seq<R.Inst>, st: R.State, ss: SlotState, n: nat)
    requires ProgramFits(info, program) && Faithful(lit) && Alike(info, st, ss)
    ensures Alike(info, R.Steps(rt, program, st, n), SlotSteps(rt, lit, Words(info, lit, program), ss, n))
    decreases n
  {
    hide R.StepAt; hide SlotStepAt; hide LaidOut; hide E.FromBc; hide E.Meaning; hide ToIr; hide InstFits;
    hide E.Encode;
    if n > 0 {
      var code := Words(info, lit, program);
      if st.At? && 0 <= st.pc < |program| {
        WordIs(info, lit, program, st.pc);
        StepAlike(rt, info, lit, program[st.pc], st.pc, st, ss);
      }
      RunAlike(rt, info, lit, program, R.Step(rt, program, st), SlotStep(rt, lit, code, ss), n - 1);
    }
  }

  /** The words have run to an outcome: to the end, with the value in the first temporary's slot and the locals in
      theirs, or to a crash. */
  ghost predicate SlotsEndAs(info: E.Info, out: C.Outcome, end: SlotState, size: nat) {
    match out
    case Done(v, s) =>
      && end.SlotAt? && end.pc == size && end.hist == s.hist && |end.slots| == E.TotalRegNum(info)
      && |s.env| == info.locals && info.temps > 0 && end.slots[1 + info.locals] == v
      && forall x: nat :: x < info.locals ==> end.slots[1 + x] == s.env[x]
    case Raise(h) => end == SlotCrashed(h)
    case NoFuel => false
  }

  lemma {:induction false} EndsAlike(info: E.Info, out: C.Outcome, st: R.State, ss: SlotState, size: nat)
    requires Alike(info, st, ss) && info.temps > 0
    ensures P.EndsAs(out, st, size) <==> SlotsEndAs(info, out, ss, size)
  {
    if st.At? {
      LoadsOf(info, st.f, ss.slots);
      if SlotsEndAs(info, out, ss, size) { assert st.f.locals == out.s.env; }
    }
  }

  lemma {:induction false} LoadsOf(info: E.Info, f: R.Frame, slots: seq<C.Value>)
    requires LaidOut(info, f, slots) && info.temps > 0
    ensures |slots| == E.TotalRegNum(info) && |f.locals| == info.locals && slots[1 + info.locals] == R.Get(f, R.Temp(0))
    ensures forall x: nat :: x < info.locals ==> slots[1 + x] == f.locals[x]
  {
    assert RegFits(info, R.Temp(0));
    forall x: nat | x < info.locals ensures slots[1 + x] == f.locals[x] {
      assert RegFits(info, R.LocalReg(x));
    }
  }

  ghost predicate SlotsRunTo(
      rt: C.Runtime, info: E.Info, lit: Literals, code: seq<E.Bc>, ss: SlotState, out: C.Outcome)
  {
    exists n: nat :: SlotsEndAs(info, out, SlotSteps(rt, lit, code, ss, n), |code|)
  }

  /** The numbers that operators and comparisons have in the opcodes. */
  lemma {:induction false} OperatorNumbers(
      info: E.Info, lit: Literals, inst: R.Inst, idx: nat, at: E.Label -> nat)
    ensures var o := E.Pack(info, ToIr(lit, inst, idx), idx, at).opcode;
            && (inst.BinOp? ==> o == 200 + NumberOf(inst.op)) && (inst.BinOpRi? ==> o == 220 + NumberOf(inst.op))
            && (inst.BinOpIr? ==> o == 180 + NumberOf(inst.op))
            && (inst.CmpRr? ==> o == (if inst.optimizable then 156 else 134) + RankOf(inst.kind))
            && (inst.CmpRi? ==> o == (if inst.optimizable then 162 else 142) + RankOf(inst.kind))
  {
    hide E.GetIndex; hide ToReg; hide E.ResultIndex; hide E.U32; hide E.U16;
  }

  function NumberOf(k: C.BinOpKind): nat {
    if k == C.Add then 0 else if k == C.Sub then 1 else if k == C.Mul then 2 else if k == C.Div then 3
    else if k == C.BitOr then 4 else if k == C.BitAnd then 5 else if k == C.BitXor then 6 else if k == C.Shr then 7
    else if k == C.Shl then 8 else if k == C.Rem then 9 else 10
  }

  function RankOf(k: C.CmpKind): nat {
    if k == C.Eq then 0 else if k == C.Ne then 1 else if k == C.Lt then 2 else if k == C.Le then 3
    else if k == C.Gt then 4 else 5
  }

  // ----- every compiled program fits -----

  /** The frame and the code are within what instruction words can address. */
  predicate SizeFits(info: E.Info, size: nat) {
    E.TotalRegNum(info) < E.W16 && size < 0x8000_0000
  }

  lemma {:induction false} InstFitsWithin(info: E.Info, inst: R.Inst, idx: nat, size: nat)
    requires F.FieldsOk(inst, info.locals) && F.Lands(inst, idx, 0, size) && I.InstIn(inst, info.temps)
    requires SizeFits(info, size) && idx < size && info.temps > 0
    ensures InstFits(info, inst, idx)
  {}

  /** A program compiled for this many locals and with this many temporaries fits, if it is not too large. */
  lemma {:induction false} CompiledFits(info: E.Info, e: C.Expr)
    requires P.InFrame(e, info.locals) && info.temps > 0 && SizeFits(info, |S.Code(e, S.Use, 0)|)
    requires forall i: nat :: i < |S.Code(e, S.Use, 0)| ==> I.InstIn(S.Code(e, S.Use, 0)[i], info.temps)
    ensures ProgramFits(info, S.Code(e, S.Use, 0))
  {
    hide S.Code; hide F.FieldsOk; hide F.Lands; hide I.InstIn; hide InstFits; hide P.InFrame;
    F.Fits(e, S.Use, 0, info.locals);
    var program := S.Code(e, S.Use, 0);
    forall i: nat | i < |program| ensures InstFits(info, program[i], i) {
      InstFitsWithin(info, program[i], i, |program|);
    }
  }

  /** From the expression to the words: packed, read back and run on slots, the compiled program comes to exactly the
      outcomes of the compiled meaning, and so of the source if the expression is plain. */
  lemma {:induction false} WordsComeTo(
      rt: C.Runtime, info: E.Info, lit: Literals, e: C.Expr, f: R.Frame, slots: seq<C.Value>, out: C.Outcome)
    requires P.InFrame(e, info.locals) && info.temps > 0 && SizeFits(info, |S.Code(e, S.Use, 0)|)
    requires forall i: nat :: i < |S.Code(e, S.Use, 0)| ==> I.InstIn(S.Code(e, S.Use, 0)[i], info.temps)
    requires Faithful(lit) && LaidOut(info, f, slots)
    ensures P.ComesTo(rt, e, C.Store(f.locals, []), out)
            <==> SlotsRunTo(rt, info, lit, Words(info, lit, S.Code(e, S.Use, 0)), SlotAt(0, slots, []), out)
    ensures K.Plain(e) ==>
              (P.EvaluatesTo(rt, e, C.Store(f.locals, []), out) <==> P.ComesTo(rt, e, C.Store(f.locals, []), out))
  {
    hide S.Code; hide P.EvaluatesTo; hide P.ComesTo; hide LaidOut; hide ProgramFits; hide P.InFrame; hide K.Plain;
    hide P.RunsTo; hide SlotsRunTo; hide I.InstIn;
    LoadsOf(info, f, slots);
    CompiledFits(info, e);
    P.ProgramComesTo(rt, e, f, out);
    if K.Plain(e) { P.ProgramBehavesAsExpr(rt, e, f, out); }
    RunsAlike(rt, info, lit, S.Code(e, S.Use, 0), R.At(0, f, []), SlotAt(0, slots, []), out);
  }

  /** The words as they come from the generator, with the temporaries that it has counted. */
  method Assemble(e: C.Expr, locals: nat, lit: Literals) returns (info: E.Info, code: seq<E.Bc>)
    requires P.InFrame(e, locals) && Faithful(lit)
    ensures info.locals == locals && info.temps > 0
    ensures SizeFits(info, |code|) ==>
              forall rt: C.Runtime, f: R.Frame, slots: seq<C.Value>, out: C.Outcome :: LaidOut(info, f, slots) ==>
                (P.ComesTo(rt, e, C.Store(f.locals, []), out)
                 <==> SlotsRunTo(rt, info, lit, code, SlotAt(0, slots, []), out))
  {
    hide S.Code; hide P.ComesTo; hide LaidOut; hide P.InFrame; hide I.Balanced; hide P.RunsTo; hide SlotsRunTo;
    hide I.InstIn; hide E.Encode; hide ToIr;
    F.InFrameBalanced(e, locals);
    var program, tempNum := I.Compile(e);
    info := E.Info(locals, tempNum);
    code := Words(info, lit, program);
    if SizeFits(info, |code|) {
      forall rt: C.Runtime, f: R.Frame, slots: seq<C.Value>, out: C.Outcome | LaidOut(info, f, slots)
        ensures P.ComesTo(rt, e, C.Store(f.locals, []), out)
                <==> SlotsRunTo(rt, info, lit, code, SlotAt(0, slots, []), out)
      {
        WordsComeTo(rt, info, lit, e, f, slots, out);
      }
    }
  }

  lemma {:induction false} RunsAlike(
      rt: C.Runtime, info: E.Info, lit: Literals, program: seq<R.Inst>, st: R.State, ss: SlotState, out: C.Outcome)
    requires ProgramFits(info, program) && Faithful(lit) && Alike(info, st, ss) && info.temps > 0
    ensures P.RunsTo(rt, program, st, out) <==> SlotsRunTo(rt, info, lit, Words(info, lit, program), ss, out)
  {
    hide R.Steps; hide SlotSteps; hide SlotsEndAs; hide P.EndsAs; hide Alike; hide ProgramFits; hide E.Encode;
    hide ToIr;
    var code := Words(info, lit, program);
    forall n: nat
      ensures P.EndsAs(out, R.Steps(rt, program, st, n), |program|)
              <==> SlotsEndAs(info, out, SlotSteps(rt, lit, code, ss, n), |program|)
    {
      RunAlike(rt, info, lit, program, st, ss, n);
      EndsAlike(info, out, R.Steps(rt, program, st, n), SlotSteps(rt, lit, code, ss, n), |program|);
    }
    if P.RunsTo(rt, program, st, out) {
      var n: nat :| P.EndsAs(out, R.Steps(rt, program, st, n), |program|);
      assert SlotsEndAs(info, out, SlotSteps(rt, lit, code, ss, n), |code|);
    }
    if SlotsRunTo(rt, info, lit, code, ss, out) {
      var n: nat :| SlotsEndAs(info, out, SlotSteps(rt, lit, code, ss, n), |code|);
      P.RunFound(rt, program, st, out, n);
    }
  }
}
