/** The machine that JIT-compiled float code runs on, reduced to what that code touches: the stack
    slots of a frame, the sixteen xmm registers, and the two general registers that carry a boxed
    value. Floating-point arithmetic stays abstract: a `Fpu` supplies the operations. */
module JitMachine {
  import opened Prelude

  /** A double, known only by its bit pattern. */
  datatype F64 = F64(bits: nat)

  const POS_ZERO := F64(0)
  const NEG_ZERO := F64(0x8000_0000_0000_0000)

  /** The operations of the floating-point unit and the Integer-to-double conversion. */
  datatype Fpu = Fpu(
    add: (F64, F64) -> F64,
    sub: (F64, F64) -> F64,
    mul: (F64, F64) -> F64,
    div: (F64, F64) -> F64,
    ofInt: int -> F64)

  /** A Ruby value, as the conversion routines tell values apart. */
  datatype Value = Float(f: F64) | Fixnum(i: int) | Bignum(n: int) | Other(id: nat)

  /** Boxing compares with zero and returns the one box of 0.0, so it forgets the sign of a zero. */
  function Norm(f: F64): F64 {
    if f == NEG_ZERO then POS_ZERO else f
  }

  function Box(f: F64): Value {
    Float(Norm(f))
  }

  /** What a conversion to a double accepts; anything else takes the side exit. */
  datatype Assume = AnyNumber | FloatOnly | IntegerOnly

  /** A heap number goes through the routine that also converts big integers, so `FloatOnly` lets a
      `Bignum` pass. */
  function Unbox(fpu: Fpu, v: Value, assume_: Assume): Option<F64> {
    match (v, assume_)
    case (Float(f), AnyNumber) => Some(f)
    case (Float(f), FloatOnly) => Some(f)
    case (Float(_), IntegerOnly) => None
    case (Fixnum(_), FloatOnly) => None
    case (Fixnum(i), _) => Some(fpu.ofInt(i))
    case (Bignum(_), IntegerOnly) => None
    case (Bignum(n), _) => Some(fpu.ofInt(n))
    case (Other(_), _) => None
  }

  /** The number a value stands for, up to the sign of zero; None if it is no number. */
  function Number(fpu: Fpu, v: Value): Option<F64> {
    match Unbox(fpu, v, AnyNumber)
    case None => None
    case Some(f) => Some(Norm(f))
  }

  /** Two values the program cannot tell apart by their number. */
  predicate Agree(fpu: Fpu, v: Value, w: Value) {
    v == w || (Number(fpu, v).Some? && Number(fpu, v) == Number(fpu, w))
  }

  type SlotId = nat

  /** A physical xmm register. xmm0 and xmm1 are scratch; the allocator hands out xmm2 to xmm15. */
  type PhysReg = r: nat | r < 16

  const NUM_XMM := 14

  /** A register as the allocator numbers them. */
  type Xmm = x: nat | x < NUM_XMM

  function Enc(x: Xmm): PhysReg {
    x + 2
  }

  type XmmFile = s: seq<F64> | |s| == 16 witness seq(16, _ => POS_ZERO)

  datatype Machine = Machine(stack: seq<Value>, xmm: XmmFile, rax: Value, rdi: Value)

  datatype FloatOp = Add | Sub | Mul | Div

  datatype Inst =
    | MovXmm(dst: PhysReg, src: PhysReg)
    | F64ToVal                                        // rax := box of xmm0
    | StoreRax(slot: SlotId)
    | LoadRax(slot: SlotId)
    | LoadRdi(slot: SlotId)
    | StoreValue(slot: SlotId, v: Value)              // the result of a runtime call or a constant
    | ValToF64(dst: PhysReg, assume_: Assume)         // dst := unboxed rdi, or side exit
    | GuardFloat(slot: SlotId)                        // side exit unless the slot passes as a float
    | Arith(op: FloatOp, dst: PhysReg, src: PhysReg)  // dst := dst op src
    | RaiseIfZero(src: PhysReg)                       // division by a bit pattern of zero

  datatype Outcome = Running(m: Machine) | SideExit(m: Machine) | Raised

  function Apply(fpu: Fpu, op: FloatOp, a: F64, b: F64): F64 {
    match op
    case Add => fpu.add(a, b)
    case Sub => fpu.sub(a, b)
    case Mul => fpu.mul(a, b)
    case Div => fpu.div(a, b)
  }

  /** Slots outside the frame read as a value that is no number; nothing the compiler emits does so. */
  function Peek(stack: seq<Value>, slot: SlotId): Value {
    if slot < |stack| then stack[slot] else Other(0)
  }

  function Poke(stack: seq<Value>, slot: SlotId, v: Value): (r: seq<Value>)
    ensures |r| == |stack|
  {
    if slot < |stack| then stack[slot := v] else stack
  }

  function Step(fpu: Fpu, inst: Inst, m: Machine): Outcome {
    match inst
    case MovXmm(d, s) => Running(m.(xmm := m.xmm[d := m.xmm[s]]))
    // the boxing routine clears xmm1 and preserves xmm2 to xmm15
    case F64ToVal => Running(m.(rax := Box(m.xmm[0]), xmm := m.xmm[1 := POS_ZERO]))
    case StoreRax(s) => Running(m.(stack := Poke(m.stack, s, m.rax)))
    case LoadRax(s) => Running(m.(rax := Peek(m.stack, s)))
    case LoadRdi(s) => Running(m.(rdi := Peek(m.stack, s)))
    case StoreValue(s, v) => Running(m.(stack := Poke(m.stack, s, v)))
    case ValToF64(d, a) =>
      (match Unbox(fpu, m.rdi, a)
       case None => SideExit(m)
       // a heap number passes through xmm0
       case Some(f) => Running(m.(xmm := m.xmm[0 := f][d := f])))
    case GuardFloat(s) =>
      (match Unbox(fpu, Peek(m.stack, s), FloatOnly)
       case None => SideExit(m.(rdi := Peek(m.stack, s)))
       case Some(f) => Running(m.(rdi := Peek(m.stack, s), xmm := m.xmm[0 := f])))
    case Arith(op, d, s) => Running(m.(xmm := m.xmm[d := Apply(fpu, op, m.xmm[d], m.xmm[s])]))
    case RaiseIfZero(s) => if m.xmm[s] == POS_ZERO then Raised else Running(m)
  }

  /** Runs a straight-line stretch of code. */
  function Exec(fpu: Fpu, code: seq<Inst>, m: Machine): Outcome {
    if code == [] then Running(m)
    else match Step(fpu, code[0], m)
      case Running(m') => Exec(fpu, code[1..], m')
      case SideExit(m') => SideExit(m')
      case Raised => Raised
  }

  lemma {:induction false} ExecAppend(fpu: Fpu, a: seq<Inst>, b: seq<Inst>, m: Machine)
    ensures Exec(fpu, a + b, m) ==
            match Exec(fpu, a, m)
            case Running(m') => Exec(fpu, b, m')
            case SideExit(m') => SideExit(m')
            case Raised => Raised
  {
    if a == [] {
      assert a + b == b;
    } else {
      assert (a + b)[0] == a[0] && (a + b)[1..] == a[1..] + b;
      match Step(fpu, a[0], m)
      case Running(m') => ExecAppend(fpu, a[1..], b, m');
      case _ =>
    }
  }

  lemma {:induction false} NoCode(fpu: Fpu, m: Machine)
    ensures Exec(fpu, [], m) == Running(m)
  {}
}
