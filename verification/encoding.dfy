/** Bytecode words: how the instructions of the intermediate form are packed, and how they are read back. */
module Encoding {
  import opened Prelude

  type SlotId = nat
  type Label = nat

  datatype Reg = SelfReg | LocalReg(i: nat) | TempReg(i: nat)

  datatype BinOpK = Add | Sub | Mul | Div | BitOr | BitAnd | BitXor | Shr | Shl | Rem | Exp

  datatype CmpKind = Eq | Ne | Lt | Le | Gt | Ge

  /** Sizes of a frame, and what a function's prologue needs to know. */
  datatype FnInitInfo = FnInitInfo(regNum: nat, argNum: nat, posNum: nat, reqNum: nat, blockPos: nat, stackOffset: nat)

  datatype BcIr =
    | Nil(ret: Reg)
    | Integer(ret: Reg, i: int)
    | Symbol(ret: Reg, name: nat)
    | Literal(ret: Reg, value: nat)
    | Array(ret: Reg, src: Reg, len: nat)
    | Range(ret: Reg, start: Reg, end: Reg, excludeEnd: bool)
    | Index(ret: Reg, base: Reg, idx: Reg)
    | StoreIndex(src: Reg, base: Reg, idx: Reg)
    | LoadConst(ret: Reg, site: nat)
    | StoreConst(src: Reg, name: nat)
    | LoadGvar(ret: Reg, name: nat)
    | StoreGvar(src: Reg, name: nat)
    | BlockArgProxy(ret: Reg)
    | LoadDynVar(ret: Reg, src: Reg, outer: nat)
    | StoreDynVar(dst: Reg, outer: nat, src: Reg)
    | LoadIvar(ret: Reg, name: nat)
    | StoreIvar(src: Reg, name: nat)
    | Neg(ret: Reg, src: Reg)
    | BinOp(kind: BinOpK, ret: Reg, lhs: Reg, rhs: Reg)
    | BinOpRi(kind: BinOpK, ret: Reg, lhs: Reg, imm: int)
    | BinOpIr(kind: BinOpK, ret: Reg, imm: int, rhs: Reg)
    | Cmp(cmp: CmpKind, ret: Reg, lhs: Reg, rhs: Reg, optimizable: bool)
    | Cmpri(cmp: CmpKind, ret: Reg, lhs: Reg, imm: int, optimizable: bool)
    | Mov(ret: Reg, src: Reg)
    | CheckLocal(local: Reg, to: Label)
    | Br(to: Label)
    | CondBr(cond: Reg, to: Label, optimizable: bool, brIf: bool)
    | Ret(src: Reg)
    | MethodCall(result: Option<Reg>, name: nat)
    | MethodCallBlock(result: Option<Reg>, name: nat)
    | Yield(result: Option<Reg>, args: Reg, len: nat)
    | InitMethod(fninfo: FnInitInfo)
    | InitBlock(fninfo: FnInitInfo)
    | MethodArgs(recv: Reg, args: Reg, len: nat)
    | InlineCache
    | MethodDef(name: nat, func: nat)
    | ClassDef(result: Option<Reg>, superclass: Option<Reg>, name: nat, func: nat)
    | ConcatStr(result: Option<Reg>, arg: nat, len: nat)
    | ExpandArray(src: Reg, dst: Reg, len: nat)
    | LoopStart
    | LoopEnd

  /** What is read back. */
  datatype TraceIr =
    | TNil(ret: SlotId)
    | TInteger(ret: SlotId, i: int)
    | TSymbol(ret: SlotId, name: nat)
    | TLiteral(ret: SlotId, value: nat)
    | TArray(ret: SlotId, src: SlotId, len: nat)
    | TRange(ret: SlotId, start: SlotId, end: SlotId, excludeEnd: bool)
    | TIndex(ret: SlotId, base: SlotId, idx: SlotId)
    | TIndexAssign(src: SlotId, base: SlotId, idx: SlotId)
    | TLoadConst(ret: SlotId, site: nat)
    | TStoreConst(src: SlotId, name: nat)
    | TLoadGvar(ret: SlotId, name: nat)
    | TStoreGvar(src: SlotId, name: nat)
    | TBlockArgProxy(ret: SlotId)
    | TLoadDynVar(ret: SlotId, src: SlotId, outer: nat)
    | TStoreDynVar(dst: SlotId, outer: nat, src: SlotId)
    | TLoadIvar(ret: SlotId, name: nat, class_: nat, ivar: nat)
    | TStoreIvar(src: SlotId, name: nat, class_: nat, ivar: nat)
    | TNeg(ret: SlotId, src: SlotId)
    | TBinOp(kind: BinOpK, ret: SlotId, lhs: SlotId, rhs: SlotId)
    | TIntegerBinOp(kind: BinOpK, ret: SlotId, lhs: SlotId, rhs: SlotId)
    | TFloatBinOp(kind: BinOpK, ret: SlotId, lhs: SlotId, rhs: SlotId)
    | TBinOpRi(kind: BinOpK, ret: SlotId, lhs: SlotId, imm: int)
    | TBinOpIr(kind: BinOpK, ret: SlotId, imm: int, rhs: SlotId)
    | TCmp(cmp: CmpKind, ret: SlotId, lhs: SlotId, rhs: SlotId, optimizable: bool)
    | TCmpri(cmp: CmpKind, ret: SlotId, lhs: SlotId, imm: int, optimizable: bool)
    | TMov(ret: SlotId, src: SlotId)
    | TCheckLocal(local: SlotId, disp: int)
    | TBr(disp: int)
    | TCondBr(cond: SlotId, disp: int, optimizable: bool, brIf: bool)
    | TRet(src: SlotId)
    | TMethodCall(ret: SlotId, name: nat, class_: nat, version: nat)
    | TMethodCallBlock(ret: SlotId, name: nat, class_: nat, version: nat)
    | TYield(ret: SlotId, args: SlotId, len: nat)
    | TInitMethod(fninfo: FnInitInfo)
    | TInitBlock(fninfo: FnInitInfo)
    | TMethodArgs(recv: SlotId, args: SlotId, len: nat, code: Option<nat>)
    | TMethodDef(name: nat, func: nat)
    | TClassDef(ret: SlotId, superclass: SlotId, name: nat, func: nat)
    | TConcatStr(ret: SlotId, args: SlotId, len: nat)
    | TExpandArray(src: SlotId, dst: SlotId, len: nat)
    | TLoopStart(count: nat)
    | TLoopEnd

  /** One bytecode: two 64-bit words. */
  datatype Bc = Bc(op1: nat, op2: nat)

  // ----- registers -----

  datatype Info = Info(locals: nat, temps: nat)

  function TotalRegNum(info: Info): nat {
    1 + info.locals + info.temps
  }

  function GetIndex(info: Info, r: Reg): SlotId {
    match r
    case SelfReg => 0
    case LocalReg(i) => 1 + i
    case TempReg(i) => 1 + info.locals + i
  }

  predicate ValidReg(info: Info, r: Reg) {
    match r
    case SelfReg => true
    case LocalReg(i) => i < info.locals
    case TempReg(i) => i < info.temps
  }

  /** Different registers have different slots, all within the frame. */
  lemma {:induction false} GetIndexIsInjective(info: Info, r: Reg, q: Reg)
    requires ValidReg(info, r) && ValidReg(info, q)
    ensures GetIndex(info, r) < TotalRegNum(info)
    ensures GetIndex(info, r) == GetIndex(info, q) <==> r == q
  {}

  function ResultIndex(info: Info, r: Option<Reg>): SlotId {
    if r.Some? then GetIndex(info, r.value) else 0
  }

  // ----- packing -----

  const W16: nat := 0x1_0000
  const W32: nat := 0x1_0000_0000
  const W48: nat := 0x1_0000_0000_0000

  function EncWww(opcode: nat, a: nat, b: nat, c: nat): nat {
    opcode * W48 + a * W32 + b * W16 + c
  }

  function EncWl(opcode: nat, a: nat, l: nat): nat {
    opcode * W48 + a * W32 + l
  }

  /** Two's complement. */
  function AsU32(i: int): nat
    requires -0x8000_0000 <= i < 0x8000_0000
  {
    if i < 0 then i + W32 else i
  }

  function AsI32(l: nat): int {
    if l < 0x8000_0000 then l else l - W32
  }

  function AsU16(i: int): nat
    requires -0x8000 <= i < 0x8000
  {
    if i < 0 then i + W16 else i
  }

  function AsI16(w: nat): int {
    if w < 0x8000 then w else w - W16
  }

  function Opcode(op: nat): nat {
    op / W48 % W16
  }

  function Op1(op: nat): nat {
    op / W32 % W16
  }

  function Op2(op: nat): nat {
    op / W16 % W16
  }

  function Op3(op: nat): nat {
    op % W16
  }

  function LongOp(op: nat): nat {
    op % W32
  }

  lemma {:induction false} Digits(q: nat, r: nat)
    ensures r < W16 ==> (q * W16 + r) / W16 == q && (q * W16 + r) % W16 == r
    ensures r < W32 ==> (q * W32 + r) / W32 == q && (q * W32 + r) % W32 == r
    ensures r < W48 ==> (q * W48 + r) / W48 == q
  {}

  lemma {:induction false} WwwReadsBack(opcode: nat, a: nat, b: nat, c: nat)
    requires opcode < W16 && a < W16 && b < W16 && c < W16
    ensures var op := EncWww(opcode, a, b, c);
            Opcode(op) == opcode && Op1(op) == a && Op2(op) == b && Op3(op) == c
  {
    Digits(opcode, a * W32 + b * W16 + c);
    Digits(opcode * W16 + a, b * W16 + c);
    Digits(opcode, a);
    Digits(opcode * W32 + a * W16 + b, c);
    Digits(opcode * W16 + a, b);
  }

  lemma {:induction false} WlReadsBack(opcode: nat, a: nat, l: nat)
    requires opcode < W16 && a < W16 && l < W32
    ensures var op := EncWl(opcode, a, l);
            Opcode(op) == opcode && Op1(op) == a && LongOp(op) == l
  {
    Digits(opcode, a * W32 + l);
    Digits(opcode * W16 + a, l);
    Digits(opcode, a);
  }

  /** Two 32-bit halves, the first one low. */
  function Halves(low: nat, high: nat): nat {
    high * W32 + low
  }

  function LowHalf(op: nat): nat {
    op % W32
  }

  function HighHalf(op: nat): nat {
    op / W32
  }

  lemma {:induction false} HalvesReadBack(low: nat, high: nat)
    requires low < W32
    ensures LowHalf(Halves(low, high)) == low && HighHalf(Halves(low, high)) == high
  {}

  function Quarter(op: nat, i: nat): nat {
    (if i == 0 then op else if i == 1 then op / W16 else op / W32) % W16
  }

  lemma {:induction false} QuartersReadBack(a: nat, b: nat, c: nat)
    requires a < W16 && b < W16 && c < W16
    ensures var op := c * W32 + b * W16 + a;
            Quarter(op, 0) == a && Quarter(op, 1) == b && Quarter(op, 2) == c
  {
    var op := c * W32 + b * W16 + a;
    assert op / W32 == c;
    assert op / W16 == c * W16 + b;
  }

  // ----- operation numbers -----

  const BIN_OPS: seq<BinOpK> := [Add, Sub, Mul, Div, BitOr, BitAnd, BitXor, Shr, Shl, Rem, Exp]
  const CMP_KINDS: seq<CmpKind> := [Eq, Ne, Lt, Le, Gt, Ge]

  function BinOpNumber(k: BinOpK): (n: nat)
    ensures n < |BIN_OPS| && BIN_OPS[n] == k
  {
    match k
    case Add => 0 case Sub => 1 case Mul => 2 case Div => 3 case BitOr => 4 case BitAnd => 5
    case BitXor => 6 case Shr => 7 case Shl => 8 case Rem => 9 case Exp => 10
  }

  function CmpNumber(k: CmpKind): (n: nat)
    ensures n < |CMP_KINDS| && CMP_KINDS[n] == k
  {
    match k
    case Eq => 0 case Ne => 1 case Lt => 2 case Le => 3 case Gt => 4 case Ge => 5
  }

  // ----- instruction to words -----

  /** A packed first word, before its fields are placed. */
  datatype Packed = Long(opcode: nat, a: nat, l: nat) | Short(opcode: nat, a: nat, b: nat, c: nat)

  function Word(p: Packed): nat {
    match p
    case Long(o, a, l) => EncWl(o, a, l)
    case Short(o, a, b, c) => EncWww(o, a, b, c)
  }

  predicate Fits(p: Packed) {
    match p
    case Long(o, a, l) => o < 128 && a < W16 && l < W32
    case Short(o, a, b, c) => 128 <= o < 256 && a < W16 && b < W16 && c < W16
  }

  /** The displacement stored in a branch at idx. */
  function Disp(target: nat, idx: nat): int {
    target - idx - 1
  }

  predicate I32(i: int) {
    -0x8000_0000 <= i < 0x8000_0000
  }

  predicate I16(i: int) {
    -0x8000 <= i < 0x8000
  }

  function U32(i: int): nat {
    if I32(i) then AsU32(i) else 0
  }

  function U16(i: int): nat {
    if I16(i) then AsU16(i) else 0
  }

  /** The first word; `at` gives the position of each label. */
  function Pack(info: Info, ir: BcIr, idx: nat, at: Label -> nat): Packed {
    match ir
    case MethodCall(r, name) => Long(1, ResultIndex(info, r), name)
    case Br(l) => Long(3, 0, U32(Disp(at(l), idx)))
    case Integer(r, i) => Long(6, GetIndex(info, r), U32(i))
    case Literal(r, _) => Long(7, GetIndex(info, r), 0)
    case Nil(r) => Long(8, GetIndex(info, r), 0)
    case Symbol(r, name) => Long(9, GetIndex(info, r), name)
    case LoadConst(r, site) => Long(10, GetIndex(info, r), site)
    case StoreConst(r, name) => Long(11, GetIndex(info, r), name)
    case CondBr(r, l, optimizable, brIf) =>
      Long((if optimizable then 12 else 4) + (if brIf then 0 else 1), GetIndex(info, r), U32(Disp(at(l), idx)))
    case LoopStart => Long(14, 0, 0)
    case LoopEnd => Long(15, 0, 0)
    case LoadIvar(r, name) => Long(16, GetIndex(info, r), name)
    case StoreIvar(r, name) => Long(17, GetIndex(info, r), name)
    case MethodCallBlock(r, name) => Long(19, ResultIndex(info, r), name)
    case CheckLocal(r, l) => Long(20, GetIndex(info, r), U32(Disp(at(l), idx)))
    case BlockArgProxy(r) => Long(21, GetIndex(info, r), 0)
    case LoadGvar(r, name) => Long(25, GetIndex(info, r), name)
    case StoreGvar(r, name) => Long(26, GetIndex(info, r), name)
    case MethodDef(_, _) => Long(2, 0, 0)
    case ClassDef(r, super, _, _) => Long(18, ResultIndex(info, r), ResultIndex(info, super))
    case InlineCache => Long(0, 0, 0)
    case Array(r, src, len) => Short(131, GetIndex(info, r), GetIndex(info, src), len)
    case Index(r, base, i) => Short(132, GetIndex(info, r), GetIndex(info, base), GetIndex(info, i))
    case StoreIndex(src, base, i) => Short(133, GetIndex(info, src), GetIndex(info, base), GetIndex(info, i))
    case LoadDynVar(r, src, outer) => Short(150, GetIndex(info, r), GetIndex(info, src), outer)
    case StoreDynVar(dst, outer, src) => Short(151, GetIndex(info, dst), outer, GetIndex(info, src))
    case Range(r, start, end, exclude) => Short(153 + (if exclude then 1 else 0), GetIndex(info, r),
        GetIndex(info, start), GetIndex(info, end))
    case Neg(r, src) => Short(129, GetIndex(info, r), GetIndex(info, src), 0)
    case BinOpIr(k, r, i, rhs) => Short(180 + BinOpNumber(k), GetIndex(info, r), U16(i), GetIndex(info, rhs))
    case BinOp(k, r, lhs, rhs) => Short(200 + BinOpNumber(k), GetIndex(info, r), GetIndex(info, lhs),
        GetIndex(info, rhs))
    case BinOpRi(k, r, lhs, i) => Short(220 + BinOpNumber(k), GetIndex(info, r), GetIndex(info, lhs), U16(i))
    case Cmp(k, r, lhs, rhs, optimizable) => Short((if optimizable then 156 else 134) + CmpNumber(k),
        GetIndex(info, r), GetIndex(info, lhs), GetIndex(info, rhs))
    case Cmpri(k, r, lhs, i, optimizable) => Short((if optimizable then 162 else 142) + CmpNumber(k),
        GetIndex(info, r), GetIndex(info, lhs), U16(i))
    case Ret(src) => Short(148, GetIndex(info, src), 0, 0)
    case Mov(r, src) => Short(149, GetIndex(info, r), GetIndex(info, src), 0)
    case InitMethod(f) => Short(170, f.regNum, f.posNum, f.stackOffset)
    case InitBlock(f) => Short(172, f.regNum, f.posNum, f.stackOffset)
    case Yield(r, args, len) => Short(152, ResultIndex(info, r), GetIndex(info, args), len)
    case MethodArgs(recv, args, len) => Short(130, GetIndex(info, recv), GetIndex(info, args), len)
    case ConcatStr(r, arg, len) => Short(155, ResultIndex(info, r), GetIndex(info, TempReg(arg)), len)
    case ExpandArray(src, dst, len) => Short(171, GetIndex(info, src), GetIndex(info, dst), len)
  }

  /** The second word. */
  function Second(ir: BcIr): nat {
    match ir
    case MethodCall(_, _) => Halves(0, W32 - 1)
    case MethodCallBlock(_, _) => Halves(0, W32 - 1)
    case Neg(_, _) => Halves(0, W32 - 1)
    case Literal(_, v) => v
    case MethodDef(name, func) => Halves(name, func)
    case ClassDef(_, _, name, func) => Halves(name, func)
    case InitMethod(f) => f.blockPos * W32 + f.argNum * W16 + f.reqNum
    case InitBlock(f) => f.blockPos * W32 + f.argNum * W16 + f.reqNum
    case _ => 0
  }

  function Encode(info: Info, ir: BcIr, idx: nat, at: Label -> nat): Bc {
    Bc(Word(Pack(info, ir, idx, at)), Second(ir))
  }

  // ----- words to instruction -----

  function FromLong(bc: Bc): Option<TraceIr> {
    var (opcode, a, l) := (Opcode(bc.op1), Op1(bc.op1), LongOp(bc.op1));
    if opcode == 1 then Some(TMethodCall(a, l, LowHalf(bc.op2), HighHalf(bc.op2)))
    else if opcode == 2 then Some(TMethodDef(LowHalf(bc.op2), HighHalf(bc.op2)))
    else if opcode == 3 then Some(TBr(AsI32(l)))
    else if opcode == 4 then Some(TCondBr(a, AsI32(l), false, true))
    else if opcode == 5 then Some(TCondBr(a, AsI32(l), false, false))
    else if opcode == 6 then Some(TInteger(a, AsI32(l)))
    else if opcode == 7 then Some(TLiteral(a, bc.op2))
    else if opcode == 8 then Some(TNil(a))
    else if opcode == 9 then Some(TSymbol(a, l))
    else if opcode == 10 then Some(TLoadConst(a, l))
    else if opcode == 11 then Some(TStoreConst(a, l))
    else if opcode == 12 then Some(TCondBr(a, AsI32(l), true, true))
    else if opcode == 13 then Some(TCondBr(a, AsI32(l), true, false))
    else if opcode == 14 then Some(TLoopStart(l))
    else if opcode == 15 then Some(TLoopEnd)
    else if opcode == 16 then Some(TLoadIvar(a, l, LowHalf(bc.op2), HighHalf(bc.op2)))
    else if opcode == 17 then Some(TStoreIvar(a, l, LowHalf(bc.op2), HighHalf(bc.op2)))
    else if opcode == 18 then Some(TClassDef(a, l % W16, LowHalf(bc.op2), HighHalf(bc.op2)))
    else if opcode == 19 then Some(TMethodCallBlock(a, l, LowHalf(bc.op2), HighHalf(bc.op2)))
    else if opcode == 20 then Some(TCheckLocal(a, AsI32(l)))
    else if opcode == 21 then Some(TBlockArgProxy(a))
    else if opcode == 25 then Some(TLoadGvar(a, l))
    else if opcode == 26 then Some(TStoreGvar(a, l))
    else None
  }

  const INTEGER_CLASS: nat := 6
  const FLOAT_CLASS: nat := 7

  function BinaryOp(k: BinOpK, a: SlotId, b: SlotId, c: SlotId, classes: nat): TraceIr {
    var (c1, c2) := (LowHalf(classes), HighHalf(classes));
    if c1 == INTEGER_CLASS && c2 == INTEGER_CLASS then TIntegerBinOp(k, a, b, c)
    else if c1 in {INTEGER_CLASS, FLOAT_CLASS} && c2 in {INTEGER_CLASS, FLOAT_CLASS} then TFloatBinOp(k, a, b, c)
    else TBinOp(k, a, b, c)
  }

  function InitInfo(bc: Bc): FnInitInfo {
    FnInitInfo(Op1(bc.op1), Quarter(bc.op2, 1), Op2(bc.op1), Quarter(bc.op2, 0), Quarter(bc.op2, 2), Op3(bc.op1))
  }

  function FromShort(bc: Bc): Option<TraceIr> {
    var (opcode, a, b, c) := (Opcode(bc.op1), Op1(bc.op1), Op2(bc.op1), Op3(bc.op1));
    if opcode == 129 then Some(TNeg(a, b))
    else if opcode == 130 then Some(TMethodArgs(a, b, c, if bc.op2 == 0 then None else Some(bc.op2)))
    else if opcode == 131 then Some(TArray(a, b, c))
    else if opcode == 132 then Some(TIndex(a, b, c))
    else if opcode == 133 then Some(TIndexAssign(a, b, c))
    else if 134 <= opcode <= 139 then Some(TCmp(CMP_KINDS[opcode - 134], a, b, c, false))
    else if 142 <= opcode <= 147 then Some(TCmpri(CMP_KINDS[opcode - 142], a, b, AsI16(c), false))
    else if opcode == 148 then Some(TRet(a))
    else if opcode == 149 then Some(TMov(a, b))
    else if opcode == 150 then Some(TLoadDynVar(a, b, c))
    else if opcode == 151 then Some(TStoreDynVar(a, b, c))
    else if opcode == 152 then Some(TYield(a, b, c))
    else if opcode == 153 || opcode == 154 then Some(TRange(a, b, c, opcode == 154))
    else if opcode == 155 then Some(TConcatStr(a, b, c))
    else if 156 <= opcode <= 161 then Some(TCmp(CMP_KINDS[opcode - 156], a, b, c, true))
    else if 162 <= opcode <= 167 then Some(TCmpri(CMP_KINDS[opcode - 162], a, b, AsI16(c), true))
    else if opcode == 170 then Some(TInitMethod(InitInfo(bc)))
    else if opcode == 171 then Some(TExpandArray(a, b, c))
    else if opcode == 172 then Some(TInitBlock(InitInfo(bc)))
    else if 180 <= opcode < 180 + |BIN_OPS| then Some(TBinOpIr(BIN_OPS[opcode - 180], a, AsI16(b), c))
    else if 200 <= opcode < 200 + |BIN_OPS| then Some(BinaryOp(BIN_OPS[opcode - 200], a, b, c, bc.op2))
    else if 220 <= opcode < 220 + |BIN_OPS| then Some(TBinOpRi(BIN_OPS[opcode - 220], a, b, AsI16(c)))
    else None
  }

  /** None: not an instruction. */
  function FromBc(bc: Bc): Option<TraceIr> {
    if Opcode(bc.op1) / 128 % 2 == 0 then FromLong(bc) else FromShort(bc)
  }

  // ----- the round trip -----

  /** The same instruction over slots and displacements. */
  function Meaning(info: Info, ir: BcIr, idx: nat, at: Label -> nat): TraceIr
    requires !ir.InlineCache?
  {
    match ir
    case MethodCall(r, name) => TMethodCall(ResultIndex(info, r), name, 0, W32 - 1)
    case Br(l) => TBr(Disp(at(l), idx))
    case Integer(r, i) => TInteger(GetIndex(info, r), i)
    case Literal(r, v) => TLiteral(GetIndex(info, r), v)
    case Nil(r) => TNil(GetIndex(info, r))
    case Symbol(r, name) => TSymbol(GetIndex(info, r), name)
    case LoadConst(r, site) => TLoadConst(GetIndex(info, r), site)
    case StoreConst(r, name) => TStoreConst(GetIndex(info, r), name)
    case CondBr(r, l, optimizable, brIf) => TCondBr(GetIndex(info, r), Disp(at(l), idx), optimizable, brIf)
    case LoopStart => TLoopStart(0)
    case LoopEnd => TLoopEnd
    case LoadIvar(r, name) => TLoadIvar(GetIndex(info, r), name, 0, 0)
    case StoreIvar(r, name) => TStoreIvar(GetIndex(info, r), name, 0, 0)
    case MethodCallBlock(r, name) => TMethodCallBlock(ResultIndex(info, r), name, 0, W32 - 1)
    case CheckLocal(r, l) => TCheckLocal(GetIndex(info, r), Disp(at(l), idx))
    case BlockArgProxy(r) => TBlockArgProxy(GetIndex(info, r))
    case LoadGvar(r, name) => TLoadGvar(GetIndex(info, r), name)
    case StoreGvar(r, name) => TStoreGvar(GetIndex(info, r), name)
    case MethodDef(name, func) => TMethodDef(name, func)
    case ClassDef(r, super, name, func) => TClassDef(ResultIndex(info, r), ResultIndex(info, super), name, func)
    case Array(r, src, len) => TArray(GetIndex(info, r), GetIndex(info, src), len)
    case Index(r, base, i) => TIndex(GetIndex(info, r), GetIndex(info, base), GetIndex(info, i))
    case StoreIndex(src, base, i) => TIndexAssign(GetIndex(info, src), GetIndex(info, base), GetIndex(info, i))
    case LoadDynVar(r, src, outer) => TLoadDynVar(GetIndex(info, r), GetIndex(info, src), outer)
    case StoreDynVar(dst, outer, src) => TStoreDynVar(GetIndex(info, dst), outer, GetIndex(info, src))
    case Range(r, start, end, exclude) => TRange(GetIndex(info, r), GetIndex(info, start), GetIndex(info, end), exclude)
    case Neg(r, src) => TNeg(GetIndex(info, r), GetIndex(info, src))
    case BinOpIr(k, r, i, rhs) => TBinOpIr(k, GetIndex(info, r), i, GetIndex(info, rhs))
    case BinOp(k, r, lhs, rhs) => TBinOp(k, GetIndex(info, r), GetIndex(info, lhs), GetIndex(info, rhs))
    case BinOpRi(k, r, lhs, i) => TBinOpRi(k, GetIndex(info, r), GetIndex(info, lhs), i)
    case Cmp(k, r, lhs, rhs, optimizable) => TCmp(k, GetIndex(info, r), GetIndex(info, lhs), GetIndex(info, rhs),
        optimizable)
    case Cmpri(k, r, lhs, i, optimizable) => TCmpri(k, GetIndex(info, r), GetIndex(info, lhs), i, optimizable)
    case Ret(src) => TRet(GetIndex(info, src))
    case Mov(r, src) => TMov(GetIndex(info, r), GetIndex(info, src))
    case InitMethod(f) => TInitMethod(f)
    case InitBlock(f) => TInitBlock(f)
    case Yield(r, args, len) => TYield(ResultIndex(info, r), GetIndex(info, args), len)
    case MethodArgs(recv, args, len) => TMethodArgs(GetIndex(info, recv), GetIndex(info, args), len, None)
    case ConcatStr(r, arg, len) => TConcatStr(ResultIndex(info, r), GetIndex(info, TempReg(arg)), len)
    case ExpandArray(src, dst, len) => TExpandArray(GetIndex(info, src), GetIndex(info, dst), len)
  }

  /** The fields of the second word are in range. */
  predicate SecondFits(ir: BcIr) {
    match ir
    case MethodDef(name, func) => name < W32
    case ClassDef(_, _, name, func) => name < W32
    case InitMethod(f) => f.blockPos < W16 && f.argNum < W16 && f.reqNum < W16
    case InitBlock(f) => f.blockPos < W16 && f.argNum < W16 && f.reqNum < W16
    case _ => true
  }

  /** Every field is in the range of the bits it is given. */
  predicate Encodable(info: Info, ir: BcIr, idx: nat, at: Label -> nat) {
    && Fits(Pack(info, ir, idx, at)) && SecondFits(ir)
    && (ir.Br? || ir.CondBr? || ir.CheckLocal? ==> I32(Disp(at(ir.to), idx)))
    && (ir.Integer? ==> I32(ir.i))
    && (ir.BinOpIr? || ir.BinOpRi? || ir.Cmpri? ==> I16(ir.imm))
    && (ir.ClassDef? ==> ResultIndex(info, ir.superclass) < W16)
  }

  lemma {:induction false} WordReadsBack(p: Packed)
    requires Fits(p)
    ensures var op := Word(p);
            Opcode(op) == p.opcode && Op1(op) == p.a && (p.opcode / 128 % 2 == 0 <==> p.Long?)
            && if p.Long? then LongOp(op) == p.l else Op2(op) == p.b && Op3(op) == p.c
  {
    match p
    case Long(o, a, l) => WlReadsBack(o, a, l);
    case Short(o, a, b, c) => WwwReadsBack(o, a, b, c);
  }

  lemma {:induction false} SecondReadsBack(ir: BcIr)
    requires SecondFits(ir)
    ensures ir.MethodCall? || ir.MethodCallBlock? ==> LowHalf(Second(ir)) == 0 && HighHalf(Second(ir)) == W32 - 1
    ensures ir.MethodDef? || ir.ClassDef? ==> LowHalf(Second(ir)) == ir.name && HighHalf(Second(ir)) == ir.func
    ensures ir.InitMethod? || ir.InitBlock? ==>
              Quarter(Second(ir), 0) == ir.fninfo.reqNum && Quarter(Second(ir), 1) == ir.fninfo.argNum
              && Quarter(Second(ir), 2) == ir.fninfo.blockPos
    ensures LowHalf(0) == 0 && HighHalf(0) == 0
  {
    HalvesReadBack(0, W32 - 1);
    if ir.MethodDef? || ir.ClassDef? { HalvesReadBack(ir.name, ir.func); }
    if ir.InitMethod? || ir.InitBlock? { QuartersReadBack(ir.fninfo.reqNum, ir.fninfo.argNum, ir.fninfo.blockPos); }
  }

  lemma {:induction false} SignedReadBack(i: int)
    ensures I32(i) ==> AsI32(U32(i)) == i
    ensures I16(i) ==> AsI16(U16(i)) == i
  {}

  /** Decoding undoes encoding. */
  lemma {:induction false} DecodeEncode(info: Info, ir: BcIr, idx: nat, at: Label -> nat)
    requires Encodable(info, ir, idx, at) && !ir.InlineCache?
    ensures FromBc(Encode(info, ir, idx, at)) == Some(Meaning(info, ir, idx, at))
  {
    var p := Pack(info, ir, idx, at);
    WordReadsBack(p);
    SecondReadsBack(ir);
    if p.Long? { DecodeLong(info, ir, idx, at); } else { DecodeShort(info, ir, idx, at); }
  }

  lemma {:induction false} DecodeLong(info: Info, ir: BcIr, idx: nat, at: Label -> nat)
    requires Encodable(info, ir, idx, at) && !ir.InlineCache? && Pack(info, ir, idx, at).Long?
    ensures FromLong(Encode(info, ir, idx, at)) == Some(Meaning(info, ir, idx, at))
  {
    hide EncWl; hide EncWww; hide Opcode; hide Op1; hide Op2; hide Op3; hide LongOp; hide LowHalf; hide HighHalf;
    hide Quarter;
    hide Word; hide AsI32; hide U32; hide AsI16; hide U16; hide Second; hide GetIndex; hide ResultIndex;
    WordReadsBack(Pack(info, ir, idx, at));
    SecondReadsBack(ir);
    PlainSecond(ir);
    if ir.Br? || ir.CondBr? || ir.CheckLocal? { SignedReadBack(Disp(at(ir.to), idx)); }
    if ir.Integer? { SignedReadBack(ir.i); }
  }

  lemma {:induction false} PlainSecond(ir: BcIr)
    ensures ir.Literal? ==> Second(ir) == ir.value
    ensures ir.BinOp? || ir.MethodArgs? || ir.LoadIvar? || ir.StoreIvar? ==> Second(ir) == 0
  {}

  lemma {:induction false} DecodeShort(info: Info, ir: BcIr, idx: nat, at: Label -> nat)
    requires Encodable(info, ir, idx, at) && !ir.InlineCache? && Pack(info, ir, idx, at).Short?
    ensures FromShort(Encode(info, ir, idx, at)) == Some(Meaning(info, ir, idx, at))
  {
    hide EncWl; hide EncWww; hide Opcode; hide Op1; hide Op2; hide Op3; hide LongOp; hide LowHalf; hide HighHalf;
    hide Quarter;
    hide Word; hide AsI32; hide U32; hide AsI16; hide U16; hide Second; hide GetIndex; hide ResultIndex;
    WordReadsBack(Pack(info, ir, idx, at));
    SecondReadsBack(ir);
    PlainSecond(ir);
    if ir.BinOpIr? || ir.BinOpRi? || ir.Cmpri? { SignedReadBack(ir.imm); }
  }

  // ----- words whose caches have been filled -----

  /** What the second word holds besides what was emitted: classes, a class with a version or an id, or code. */
  predicate HasCache(ir: BcIr) {
    ir.BinOp? || ir.LoadIvar? || ir.StoreIvar? || ir.MethodCall? || ir.MethodCallBlock? || ir.MethodArgs?
  }

  predicate BelongsToSecond(ir: BcIr) {
    ir.Literal? || ir.MethodDef? || ir.ClassDef? || ir.InitMethod? || ir.InitBlock?
  }

  /** Once the interpreter has written the two halves of the second word, an operator is read back by the classes in
      them: the integer operation if both are Integer (6), the float operation if each is Integer or Float (7) but
      not both Integer, else the plain one. Kind and slots are the emitted ones. */
  lemma {:induction false} FilledOperator(
      info: Info, ir: BcIr, idx: nat, at: Label -> nat, c1: nat, c2: nat)
    requires Encodable(info, ir, idx, at) && ir.BinOp? && c1 < W32
    ensures var (r, a, b) := (GetIndex(info, ir.ret), GetIndex(info, ir.lhs), GetIndex(info, ir.rhs));
            FromBc(Filled(info, ir, idx, at, c1, c2)) ==
            Some(if c1 == 6 && c2 == 6 then TIntegerBinOp(ir.kind, r, a, b)
                 else if (c1 == 6 && c2 == 7) || (c1 == 7 && c2 == 6) || (c1 == 7 && c2 == 7) then
                   TFloatBinOp(ir.kind, r, a, b)
                 else TBinOp(ir.kind, r, a, b))
  {
    hide EncWl; hide EncWww; hide Opcode; hide Op1; hide Op2; hide Op3; hide LongOp; hide LowHalf; hide HighHalf;
    hide Quarter; hide Word; hide GetIndex; hide ResultIndex; hide U32; hide U16;
    WordReadsBack(Pack(info, ir, idx, at));
    HalvesReadBack(c1, c2);
  }

  function Filled(info: Info, ir: BcIr, idx: nat, at: Label -> nat, low: nat, high: nat): Bc {
    Bc(Word(Pack(info, ir, idx, at)), high * 0x1_0000_0000 + low)
  }

  /** Likewise the class and id of an instance variable access, the class and version of a call, and the code of a
      call's arguments. */
  lemma {:induction false} FilledCache(
      info: Info, ir: BcIr, idx: nat, at: Label -> nat, low: nat, high: nat)
    requires Encodable(info, ir, idx, at) && HasCache(ir) && !ir.BinOp? && low < W32
    ensures FromBc(Filled(info, ir, idx, at, low, high)) ==
            Some(match ir
                 case LoadIvar(r, name) => TLoadIvar(GetIndex(info, r), name, low, high)
                 case StoreIvar(r, name) => TStoreIvar(GetIndex(info, r), name, low, high)
                 case MethodCall(r, name) => TMethodCall(ResultIndex(info, r), name, low, high)
                 case MethodCallBlock(r, name) => TMethodCallBlock(ResultIndex(info, r), name, low, high)
                 case MethodArgs(recv, args, len) =>
                   TMethodArgs(GetIndex(info, recv), GetIndex(info, args), len,
                               if low == 0 && high == 0 then None else Some(high * 0x1_0000_0000 + low)))
  {
    hide EncWl; hide EncWww; hide Opcode; hide Op1; hide Op2; hide Op3; hide LongOp; hide LowHalf; hide HighHalf;
    hide Quarter; hide Word; hide GetIndex; hide ResultIndex; hide U32; hide U16;
    WordReadsBack(Pack(info, ir, idx, at));
    HalvesReadBack(low, high);
  }

  /** All other instructions are read back as they were emitted, whatever is cached in their second word. */
  lemma {:induction false} CacheIsIgnored(info: Info, ir: BcIr, idx: nat, at: Label -> nat, second: nat)
    requires Encodable(info, ir, idx, at) && !ir.InlineCache? && !HasCache(ir) && !BelongsToSecond(ir)
    ensures FromBc(Bc(Word(Pack(info, ir, idx, at)), second)) == Some(Meaning(info, ir, idx, at))
  {
    hide EncWl; hide EncWww; hide Opcode; hide Op1; hide Op2; hide Op3; hide LongOp; hide LowHalf; hide HighHalf;
    hide Quarter; hide Word; hide FromLong; hide FromShort; hide Pack; hide Fits; hide Meaning;
    var p := Pack(info, ir, idx, at);
    WordReadsBack(p);
    DecodeEncode(info, ir, idx, at);
    if p.Long? { LongIgnores(info, ir, idx, at, second); } else { ShortIgnores(info, ir, idx, at, second); }
  }

  lemma {:induction false} LongIgnores(info: Info, ir: BcIr, idx: nat, at: Label -> nat, second: nat)
    requires Fits(Pack(info, ir, idx, at)) && !ir.InlineCache? && !HasCache(ir) && !BelongsToSecond(ir)
        && Pack(info, ir, idx, at).Long?
    ensures FromLong(Bc(Word(Pack(info, ir, idx, at)), second)) == FromLong(Encode(info, ir, idx, at))
  {
    hide EncWl; hide EncWww; hide Opcode; hide Op1; hide Op2; hide Op3; hide LongOp; hide LowHalf; hide HighHalf;
    hide Quarter; hide Word; hide U32; hide U16; hide Second; hide GetIndex; hide ResultIndex; hide AsI32;
    WordReadsBack(Pack(info, ir, idx, at));
  }

  lemma {:induction false} ShortIgnores(info: Info, ir: BcIr, idx: nat, at: Label -> nat, second: nat)
    requires Fits(Pack(info, ir, idx, at)) && !ir.InlineCache? && !HasCache(ir) && !BelongsToSecond(ir)
        && Pack(info, ir, idx, at).Short?
    ensures FromShort(Bc(Word(Pack(info, ir, idx, at)), second)) == FromShort(Encode(info, ir, idx, at))
  {
    hide EncWl; hide EncWww; hide Opcode; hide Op1; hide Op2; hide Op3; hide LongOp; hide LowHalf; hide HighHalf;
    hide Quarter; hide Word; hide U32; hide U16; hide Second; hide GetIndex; hide ResultIndex; hide AsI16;
    WordReadsBack(Pack(info, ir, idx, at));
  }

  /** Each operation has opcodes of its own: the opcode alone tells which operation it is. */
  lemma {:induction false} LongOpcodesAreDistinct(info: Info, ir: BcIr, idx: nat, at: Label -> nat)
    ensures var o := Pack(info, ir, idx, at).opcode;
            && (o == 0 <==> ir.InlineCache?) && (o == 1 <==> ir.MethodCall?) && (o == 2 <==>
                ir.MethodDef?) && (o == 3 <==> ir.Br?)
            && (o == 4 <==> ir.CondBr? && !ir.optimizable && ir.brIf) && (o == 5 <==>
                ir.CondBr? && !ir.optimizable && !ir.brIf)
            && (o == 6 <==> ir.Integer?) && (o == 7 <==> ir.Literal?) && (o == 8 <==> ir.Nil?) && (o == 9 <==>
                ir.Symbol?)
            && (o == 10 <==> ir.LoadConst?) && (o == 11 <==> ir.StoreConst?)
            && (o == 12 <==> ir.CondBr? && ir.optimizable && ir.brIf) && (o == 13 <==>
                ir.CondBr? && ir.optimizable && !ir.brIf)
            && (o == 14 <==> ir.LoopStart?) && (o == 15 <==> ir.LoopEnd?) && (o == 16 <==>
                ir.LoadIvar?) && (o == 17 <==> ir.StoreIvar?)
            && (o == 18 <==> ir.ClassDef?) && (o == 19 <==> ir.MethodCallBlock?) && (o == 20 <==> ir.CheckLocal?)
            && (o == 21 <==> ir.BlockArgProxy?) && (o == 25 <==> ir.LoadGvar?) && (o == 26 <==> ir.StoreGvar?)
  {
    hide GetIndex; hide ResultIndex; hide U32; hide U16;
  }

  lemma {:induction false} ShortOpcodesAreDistinct(info: Info, ir: BcIr, idx: nat, at: Label -> nat)
    ensures var o := Pack(info, ir, idx, at).opcode;
            && (o == 129 <==> ir.Neg?) && (o == 130 <==> ir.MethodArgs?) && (o == 131 <==> ir.Array?) && (o == 132 <==>
                ir.Index?)
            && (o == 133 <==> ir.StoreIndex?) && (o == 148 <==> ir.Ret?) && (o == 149 <==> ir.Mov?) && (o == 150 <==>
                ir.LoadDynVar?)
            && (o == 151 <==> ir.StoreDynVar?) && (o == 152 <==> ir.Yield?)
            && (o == 153 <==> ir.Range? && !ir.excludeEnd) && (o == 154 <==> ir.Range? && ir.excludeEnd)
            && (o == 155 <==> ir.ConcatStr?) && (o == 170 <==> ir.InitMethod?) && (o == 171 <==>
                ir.ExpandArray?) && (o == 172 <==> ir.InitBlock?)
  {
    hide GetIndex; hide ResultIndex; hide U32; hide U16;
  }

  lemma {:induction false} OperatorOpcodesAreDistinct(
      info: Info, ir: BcIr, idx: nat, at: Label -> nat, c: CmpKind, k: BinOpK)
    ensures var o := Pack(info, ir, idx, at).opcode;
            && (o == 134 + CmpNumber(c) <==> ir.Cmp? && ir.cmp == c && !ir.optimizable)
            && (o == 156 + CmpNumber(c) <==> ir.Cmp? && ir.cmp == c && ir.optimizable)
            && (o == 142 + CmpNumber(c) <==> ir.Cmpri? && ir.cmp == c && !ir.optimizable)
            && (o == 162 + CmpNumber(c) <==> ir.Cmpri? && ir.cmp == c && ir.optimizable)
            && (o == 180 + BinOpNumber(k) <==> ir.BinOpIr? && ir.kind == k)
            && (o == 200 + BinOpNumber(k) <==> ir.BinOp? && ir.kind == k)
            && (o == 220 + BinOpNumber(k) <==> ir.BinOpRi? && ir.kind == k)
  {
    hide GetIndex; hide ResultIndex; hide U32; hide U16;
  }

  /** An instruction without its operands: the operation alone. */
  function Operation(ir: BcIr): BcIr {
    var (r, f) := (SelfReg, FnInitInfo(0, 0, 0, 0, 0, 0));
    match ir
    case Nil(_) => Nil(r)
    case Integer(_, _) => Integer(r, 0)
    case Symbol(_, _) => Symbol(r, 0)
    case Literal(_, _) => Literal(r, 0)
    case Array(_, _, _) => Array(r, r, 0)
    case Range(_, _, _, exclude) => Range(r, r, r, exclude)
    case Index(_, _, _) => Index(r, r, r)
    case StoreIndex(_, _, _) => StoreIndex(r, r, r)
    case LoadConst(_, _) => LoadConst(r, 0)
    case StoreConst(_, _) => StoreConst(r, 0)
    case LoadGvar(_, _) => LoadGvar(r, 0)
    case StoreGvar(_, _) => StoreGvar(r, 0)
    case BlockArgProxy(_) => BlockArgProxy(r)
    case LoadDynVar(_, _, _) => LoadDynVar(r, r, 0)
    case StoreDynVar(_, _, _) => StoreDynVar(r, 0, r)
    case LoadIvar(_, _) => LoadIvar(r, 0)
    case StoreIvar(_, _) => StoreIvar(r, 0)
    case Neg(_, _) => Neg(r, r)
    case BinOp(k, _, _, _) => BinOp(k, r, r, r)
    case BinOpRi(k, _, _, _) => BinOpRi(k, r, r, 0)
    case BinOpIr(k, _, _, _) => BinOpIr(k, r, 0, r)
    case Cmp(k, _, _, _, optimizable) => Cmp(k, r, r, r, optimizable)
    case Cmpri(k, _, _, _, optimizable) => Cmpri(k, r, r, 0, optimizable)
    case Mov(_, _) => Mov(r, r)
    case CheckLocal(_, _) => CheckLocal(r, 0)
    case Br(_) => Br(0)
    case CondBr(_, _, optimizable, brIf) => CondBr(r, 0, optimizable, brIf)
    case Ret(_) => Ret(r)
    case MethodCall(_, _) => MethodCall(None, 0)
    case MethodCallBlock(_, _) => MethodCallBlock(None, 0)
    case Yield(_, _, _) => Yield(None, r, 0)
    case InitMethod(_) => InitMethod(f)
    case InitBlock(_) => InitBlock(f)
    case MethodArgs(_, _, _) => MethodArgs(r, r, 0)
    case InlineCache => InlineCache
    case MethodDef(_, _) => MethodDef(0, 0)
    case ClassDef(_, _, _, _) => ClassDef(None, None, 0, 0)
    case ConcatStr(_, _, _) => ConcatStr(None, 0, 0)
    case ExpandArray(_, _, _) => ExpandArray(r, r, 0)
    case LoopStart => LoopStart
    case LoopEnd => LoopEnd
  }

  lemma {:induction false} OpcodeOfOperation(info: Info, ir: BcIr, idx: nat, at: Label -> nat)
    ensures Pack(info, ir, idx, at).opcode == Pack(info, Operation(ir), 0, _ => 0).opcode
  {
    hide GetIndex; hide ResultIndex; hide U32; hide U16; hide BinOpNumber; hide CmpNumber;
  }

  /** Two instructions have the same opcode exactly if they are the same operation: the opcode tells the
      operation, with its kind of operator, its branch sense and its flags. */
  lemma {:induction false} OpcodeTellsOperation(info: Info, a: BcIr, b: BcIr, i: nat, j: nat, at: Label -> nat)
    ensures Pack(info, a, i, at).opcode == Pack(info, b, j, at).opcode <==> Operation(a) == Operation(b)
  {
    hide Pack; hide CmpNumber; hide BinOpNumber;
    OpcodeOfOperation(info, a, i, at);
    OpcodeOfOperation(info, b, j, at);
    if Pack(info, a, i, at).opcode == Pack(info, b, j, at).opcode {
      LongOpcodesAreDistinct(info, a, i, at);
      LongOpcodesAreDistinct(info, b, j, at);
      ShortOpcodesAreDistinct(info, a, i, at);
      ShortOpcodesAreDistinct(info, b, j, at);
      var c := if a.Cmp? || a.Cmpri? then a.cmp else Eq;
      var k := if a.BinOp? || a.BinOpRi? || a.BinOpIr? then a.kind else Add;
      OperatorOpcodesAreDistinct(info, a, i, at, c, k);
      OperatorOpcodesAreDistinct(info, b, j, at, c, k);
    }
  }
}
