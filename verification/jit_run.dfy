/** Runs of compiled float code beside an interpreter that knows nothing of registers. */
module JitRun {
  import opened Prelude
  import opened JitMachine
  import opened JitContext
  import opened JitDeopt

  // ----- the interpreter -----

  predicate Integral(v: Value) {
    v.Fixnum? || v.Bignum?
  }

  function IntOf(v: Value): int
    requires Integral(v)
  {
    if v.Fixnum? then v.i else v.n
  }

  function IntValue(n: int): Value {
    if -0x4000_0000_0000_0000 <= n < 0x4000_0000_0000_0000 then Fixnum(n) else Bignum(n)
  }

  /** Rounds down, whatever the signs. */
  function FloorDiv(i: int, j: int): int
    requires j != 0
  {
    if j > 0 then i / j else (-i) / (-j)
  }

  /** None: division by zero. */
  function IntResult(op: FloatOp, i: int, j: int): Option<int> {
    match op
    case Add => Some(i + j)
    case Sub => Some(i - j)
    case Mul => Some(i * j)
    case Div => if j == 0 then None else Some(FloorDiv(i, j))
  }

  /** The interpreter's result for two numbers; None where it raises. Two integers give an integer. */
  function Interpret(fpu: Fpu, op: FloatOp, v: Value, w: Value): Option<Value> {
    if Integral(v) && Integral(w) then
      match IntResult(op, IntOf(v), IntOf(w))
      case None => None
      case Some(n) => Some(IntValue(n))
    else match (Unbox(fpu, v, AnyNumber), Unbox(fpu, w, AnyNumber))
      case (Some(a), Some(b)) => if op.Div? && Norm(b) == POS_ZERO then None else Some(Box(Apply(fpu, op, a, b)))
      case _ => None
  }

  /** The integer that a value denotes, small or big. */
  predicate Denotes(v: Value, i: int) {
    if -0x4000_0000_0000_0000 <= i < 0x4000_0000_0000_0000 then v == Fixnum(i) else v == Bignum(i)
  }

  /** On two integers the interpreter computes exactly: sum, difference, product, and the quotient rounded down;
      only a division by zero raises. */
  lemma {:induction false} IntegersAreExact(fpu: Fpu, v: Value, w: Value, i: int, j: int)
    requires v in {Fixnum(i), Bignum(i)} && w in {Fixnum(j), Bignum(j)}
    ensures Interpret(fpu, Add, v, w).Some? && Denotes(Interpret(fpu, Add, v, w).value, i + j)
    ensures Interpret(fpu, Sub, v, w).Some? && Denotes(Interpret(fpu, Sub, v, w).value, i - j)
    ensures Interpret(fpu, Mul, v, w).Some? && Denotes(Interpret(fpu, Mul, v, w).value, i * j)
    ensures Interpret(fpu, Div, v, w).None? <==> j == 0
    ensures j != 0 ==> exists q: int :: Denotes(Interpret(fpu, Div, v, w).value, q) && RoundsDown(i, j, q)
  {
    if j != 0 {
      FloorDivRoundsDown(i, j);
      assert Denotes(Interpret(fpu, Div, v, w).value, FloorDiv(i, j));
    }
  }

  /** q is the largest integer not above the quotient of i by j. */
  predicate RoundsDown(i: int, j: int, q: int) {
    if j > 0 then q * j <= i < (q + 1) * j else q * j >= i > (q + 1) * j
  }

  lemma {:induction false} FloorDivRoundsDown(i: int, j: int)
    requires j != 0
    ensures RoundsDown(i, j, FloorDiv(i, j))
  {
    var (a, b) := if j > 0 then (i, j) else (-i, -j);
    var q := a / b;
    assert a == q * b + a % b;
    assert q * b <= a < (q + 1) * b;
    if j < 0 {
      assert q * b == -(q * j) && (q + 1) * b == -((q + 1) * j);
    }
  }

  /** As soon as one operand is a Float, the result is the Float of the operation on the doubles, -0.0 made 0.0;
      only a division by a zero of either sign raises. */
  lemma {:induction false} FloatsAreFloats(fpu: Fpu, v: Value, w: Value, a: F64, b: F64)
    requires v == Float(a) || (w == Float(b) && ((exists i: int :: v in {Fixnum(i), Bignum(i)} && a == fpu.ofInt(i))))
    requires w == Float(b) || exists j: int :: w in {Fixnum(j), Bignum(j)} && b == fpu.ofInt(j)
    ensures Interpret(fpu, Add, v, w) == Some(FloatOf(fpu.add(a, b)))
    ensures Interpret(fpu, Sub, v, w) == Some(FloatOf(fpu.sub(a, b)))
    ensures Interpret(fpu, Mul, v, w) == Some(FloatOf(fpu.mul(a, b)))
    ensures Interpret(fpu, Div, v, w) == if b in {POS_ZERO, NEG_ZERO} then None else Some(FloatOf(fpu.div(a, b)))
  {}

  function FloatOf(f: F64): Value {
    if f.bits == 0x8000_0000_0000_0000 then Float(F64(0)) else Float(f)
  }

  datatype Op =
    | Copy(src: SlotId, dst: SlotId)
    | WriteBack(slot: SlotId)
    | Read(slot: SlotId, assume_: Assume)
    | Store(slot: SlotId, v: Value)
    | Binop(op: FloatOp, ret: SlotId, lhs: SlotId, rhs: SlotId, l: Assume, r: Assume)

  predicate ValidOp(op: Op, slots: nat) {
    match op
    case Copy(src, dst) => src < slots && dst < slots && src != dst
    case WriteBack(s) => s < slots
    case Read(s, _) => s < slots
    case Store(s, _) => s < slots
    case Binop(_, ret, lhs, rhs, _, _) => ret < slots && lhs < slots && rhs < slots
  }

  /** What the interpreter makes of an operation, on its frame alone; None: it raises. */
  function InterpretOp(fpu: Fpu, frame: seq<Value>, op: Op): (r: Option<seq<Value>>)
    requires ValidOp(op, |frame|)
    ensures r.Some? ==> |r.value| == |frame|
  {
    match op
    case Copy(src, dst) => Some(frame[dst := frame[src]])
    case Store(s, v) => Some(frame[s := v])
    case Binop(o, ret, lhs, rhs, _, _) =>
      (match Interpret(fpu, o, frame[lhs], frame[rhs])
       case None => None
       case Some(v) => Some(frame[ret := v]))
    case _ => Some(frame)
  }

  function InterpretAll(fpu: Fpu, frame: seq<Value>, ops: seq<Op>): Option<seq<Value>>
    requires forall op :: op in ops ==> ValidOp(op, |frame|)
    decreases |ops|
  {
    if ops == [] then Some(frame)
    else match InterpretOp(fpu, frame, ops[0])
      case None => None
      case Some(next) => InterpretAll(fpu, next, ops[1..])
  }

  // ----- dead slots -----

  predicate Avoids(op: Op, dead: set<SlotId>) {
    match op
    case Copy(src, _) => src !in dead
    case Read(s, _) => s !in dead
    case Binop(_, _, lhs, rhs, _, _) => lhs !in dead && rhs !in dead
    case _ => true
  }

  /** A definition revives its slot. */
  function DeadAfter(op: Op, dead: set<SlotId>): set<SlotId> {
    match op
    case Copy(_, dst) => dead - {dst}
    case Store(s, _) => dead - {s}
    case Binop(_, ret, _, _, _, _) => dead - {ret}
    case _ => dead
  }

  predicate AvoidsAll(ops: seq<Op>, dead: set<SlotId>)
    decreases |ops|
  {
    ops == [] || (Avoids(ops[0], dead) && AvoidsAll(ops[1..], DeadAfter(ops[0], dead)))
  }

  // ----- compiled code -----

  /** Machine and interpreter side by side. */
  datatype State = State(c: Ctx, m: Machine, truth: seq<Value>)

  /** How a stretch of compiled code ends: still in compiled code, back in the interpreter with a frame,
      with an exception, astray (running on where the interpreter raises), or not compiled at all for
      want of a register. */
  datatype Result =
    | Going(st: State)
    | Deopted(stack: seq<Value>, truth: seq<Value>)
    | Raising
    | Astray
    | NoRegister

  predicate Fits(st: State, slots: nat) {
    |st.c.xmm| == NUM_XMM && |st.c.slots| == |st.m.stack| == |st.truth| == slots
  }

  /** Runs code emitted in context c; the interpreter moves on to `truth`. */
  function Advance(fpu: Fpu, code: seq<Inst>, m: Machine, c: Ctx, truth: seq<Value>): Result
    requires |c.xmm| == NUM_XMM
  {
    match Exec(fpu, code, m)
    case Running(n) => Going(State(c, n, truth))
    case SideExit(n) => Deopted(Deoptimise(fpu, c, n), truth)
    case Raised => Raising
  }

  function RunRead(fpu: Fpu, st: State, s: SlotId, a: Assume): Result
    requires Fits(st, |st.truth|) && s < |st.truth|
  {
    match ReadSlot(st.c, s, a)
    case None => NoRegister
    case Some((d, code, _)) => Advance(fpu, code, st.m, d, st.truth)
  }

  /** Both operands are in registers: reserve the result register, then compute. */
  function RunArith(fpu: Fpu, st: State, op: FloatOp, ret: SlotId, lhs: SlotId, rhs: SlotId): Result
    requires Fits(st, |st.truth|) && ret < |st.truth| && Linked(st.c, lhs) && Linked(st.c, rhs)
  {
    match XmmWrite(st.c, ret)
    case None => NoRegister
    case Some((d, x)) =>
      match Interpret(fpu, op, st.truth[lhs], st.truth[rhs])
      case Some(v) =>
        Advance(fpu, FloatCode(op, x, st.c.slots[lhs].x, st.c.slots[rhs].x), st.m, d, st.truth[ret := v])
      case None =>
        var r := Advance(fpu, FloatCode(op, x, st.c.slots[lhs].x, st.c.slots[rhs].x), st.m, d, st.truth);
        if r.Raising? then Raising else Astray
  }

  function RunBinop(
      fpu: Fpu, st: State, op: FloatOp, ret: SlotId, lhs: SlotId, rhs: SlotId, l: Assume, r: Assume): Result
    requires Fits(st, |st.truth|) && ret < |st.truth| && lhs < |st.truth| && rhs < |st.truth|
  {
    var first := RunRead(fpu, st, lhs, l);
    if !first.Going? then first
    else
      var second := if lhs == rhs || !Fits(first.st, |st.truth|) then first else RunRead(fpu, first.st, rhs, r);
      if !second.Going? then second
      else if Fits(second.st, |st.truth|) && Linked(second.st.c, lhs) && Linked(second.st.c, rhs) then
        RunArith(fpu, second.st, op, ret, lhs, rhs)
      else NoRegister
  }

  function RunOp(fpu: Fpu, st: State, op: Op): Result
    requires Fits(st, |st.truth|) && ValidOp(op, |st.truth|)
  {
    match op
    case Copy(src, dst) =>
      var (d, code) := CopySlot(st.c, src, dst);
      Advance(fpu, code, st.m, d, st.truth[dst := st.truth[src]])
    case WriteBack(s) =>
      var (d, code) := WriteBackSlot(st.c, s);
      Advance(fpu, code, st.m, d, st.truth)
    case Read(s, a) => RunRead(fpu, st, s, a)
    case Store(s, v) => Advance(fpu, [StoreValue(s, v)], st.m, Dealloc(st.c, s), st.truth[s := v])
    case Binop(o, ret, lhs, rhs, l, r) => RunBinop(fpu, st, o, ret, lhs, rhs, l, r)
  }

  function Run(fpu: Fpu, st: State, ops: seq<Op>): Result
    requires Fits(st, |st.truth|) && forall op :: op in ops ==> ValidOp(op, |st.truth|)
    decreases |ops|
  {
    if ops == [] then Going(st)
    else
      var r := RunOp(fpu, st, ops[0]);
      if r.Going? && Fits(r.st, |st.truth|) then Run(fpu, r.st, ops[1..]) else r
  }

  ghost predicate InStep(fpu: Fpu, st: State, dead: set<SlotId>, g: Grade) {
    Represents(fpu, st.c, st.m, st.truth, dead, g)
  }

  // ----- one operation -----

  /** Float arithmetic on the two operands gives what the interpreter computes: always, unless both are
      integers; then by number if the conversions of the exact result and of the operands fit together,
      and never by value. */
  predicate ArithFaithful(fpu: Fpu, op: FloatOp, v: Value, w: Value, g: Grade) {
    Integral(v) && Integral(w) ==>
      && g.ByNumber?
      && (IntResult(op, IntOf(v), IntOf(w)).Some? ==>
            Norm(fpu.ofInt(IntResult(op, IntOf(v), IntOf(w)).value))
            == Norm(Apply(fpu, op, fpu.ofInt(IntOf(v)), fpu.ofInt(IntOf(w)))))
  }

  /** Whether an operation on these values keeps compiled code in step. */
  predicate Faithful(fpu: Fpu, c: Ctx, frame: seq<Value>, op: Op, g: Grade)
    requires ValidOp(op, |frame|) && |c.slots| == |frame|
  {
    match op
    case Copy(src, _) => CopyFaithful(c.slots[src], frame[src], g)
    case Binop(o, _, lhs, rhs, _, _) => ArithFaithful(fpu, o, frame[lhs], frame[rhs], g)
    case _ => true
  }

  lemma {:induction false} ReadIsSafe(fpu: Fpu, st: State, s: SlotId, a: Assume, dead: set<SlotId>, g: Grade)
    requires InStep(fpu, st, dead, g) && s < |st.truth| && s !in dead
    ensures var r := RunRead(fpu, st, s, a);
            && !r.Raising? && !r.Astray?
            && (r.Deopted? ==> r.truth == st.truth && FramesAgree(fpu, r.stack, r.truth, dead, g))
            && (r.Going? ==>
                  && InStep(fpu, r.st, dead, g) && r.st.truth == st.truth && Linked(r.st.c, s)
                  && forall t: SlotId :: t < |st.truth| && t != s ==> r.st.c.slots[t] == st.c.slots[t])
  {
    if ReadSlot(st.c, s, a).Some? { ReadSlotKeeps(fpu, st.c, st.m, st.truth, s, a, dead, g); }
  }

  /** The interpreter raises exactly for a zero divisor; otherwise its result is what the registers' result
      stands for, exactly if the arithmetic is faithful. */
  lemma {:induction false} InterpretMatches(fpu: Fpu, op: FloatOp, v: Value, w: Value, a: F64, b: F64, g: Grade)
    requires Lawful(fpu) && Number(fpu, v) == Some(Norm(a)) && Number(fpu, w) == Some(Norm(b))
    ensures Interpret(fpu, op, v, w).None? <==> op.Div? && Norm(b) == POS_ZERO
    ensures Interpret(fpu, op, v, w).Some? ==>
      (Carries(fpu, Apply(fpu, op, a, b), Interpret(fpu, op, v, w).value, g) <==> ArithFaithful(fpu, op, v, w, g))
  {
    hide FloorDiv; hide Apply; hide Lawful;
    var a', b' := Unbox(fpu, v, AnyNumber).value, Unbox(fpu, w, AnyNumber).value;
    if op.Div? ==> Norm(b) != POS_ZERO { SignOfZero(fpu, op, a, a', b, b'); }
    NumberOfBox(fpu, Apply(fpu, op, a', b'));
    if Integral(w) { ZeroConverts(fpu, IntOf(w)); }
  }

  lemma {:induction false} SignOfZero(fpu: Fpu, op: FloatOp, a: F64, a': F64, b: F64, b': F64)
    requires Lawful(fpu) && Norm(a) == Norm(a') && Norm(b) == Norm(b') && (op.Div? ==> Norm(b) != POS_ZERO)
    ensures Norm(Apply(fpu, op, a, b)) == Norm(Apply(fpu, op, a', b'))
  {
    hide Apply;
  }

  lemma {:induction false} ZeroConverts(fpu: Fpu, i: int)
    requires Lawful(fpu)
    ensures Norm(fpu.ofInt(i)) == POS_ZERO <==> i == 0
  {}

  /** The arithmetic defines its result slot and nothing else, in step with the interpreter exactly if it is
      faithful. It goes astray exactly when it divides by a register that holds the negative zero: the
      test before the division looks for the bit pattern of the positive one, while the interpreter
      raises for either. */
  lemma {:induction false} ArithIsSafe(
      fpu: Fpu, st: State, op: FloatOp, ret: SlotId, lhs: SlotId, rhs: SlotId, dead: set<SlotId>, g: Grade)
    requires Lawful(fpu) && InStep(fpu, st, dead, g)
    requires ret < |st.truth| && Linked(st.c, lhs) && Linked(st.c, rhs) && lhs !in dead && rhs !in dead
    ensures var r := RunArith(fpu, st, op, ret, lhs, rhs);
            var result := Interpret(fpu, op, st.truth[lhs], st.truth[rhs]);
            && !r.Deopted?
            && (XmmWrite(st.c, ret).Some? ==>
                  (r.Astray? <==> op.Div? && st.m.xmm[Enc(st.c.slots[rhs].x)] == NEG_ZERO))
            && (r.Raising? || r.Astray? ==> result.None?)
            && (r.Going? ==>
                  && result.Some? && r.st.truth == st.truth[ret := result.value] && Fits(r.st, |st.truth|)
                  && (InStep(fpu, r.st, dead - {ret}, g)
                      <==> ArithFaithful(fpu, op, st.truth[lhs], st.truth[rhs], g)))
  {
    hide FloatCode; hide Exec; hide XmmWrite; hide Deoptimise; hide Lawful; hide Interpret; hide Number;
    hide ArithFaithful;
    if XmmWrite(st.c, ret).Some? {
      var (d, x) := XmmWrite(st.c, ret).value;
      var (l, r) := (st.c.slots[lhs].x, st.c.slots[rhs].x);
      LinkedNumber(fpu, st, lhs, dead, g);
      LinkedNumber(fpu, st, rhs, dead, g);
      InterpretMatches(fpu, op, st.truth[lhs], st.truth[rhs], st.m.xmm[Enc(l)], st.m.xmm[Enc(r)], g);
      XmmWriteKeeps(fpu, st.c, st.m, st.truth, ret, dead, g);
      FloatCodeEffect(fpu, op, x, l, r, st.m);
      var o := Exec(fpu, FloatCode(op, x, l, r), st.m);
      var result := Interpret(fpu, op, st.truth[lhs], st.truth[rhs]);
      if result.Some? && o.Running? {
        DefineCompletes(fpu, d, st.m, o.m, st.truth, ret, result.value, dead, g);
      }
    }
  }

  lemma {:induction false} LinkedNumber(fpu: Fpu, st: State, s: SlotId, dead: set<SlotId>, g: Grade)
    requires InStep(fpu, st, dead, g) && Linked(st.c, s) && s !in dead
    ensures Number(fpu, st.truth[s]) == Some(Norm(st.m.xmm[Enc(st.c.slots[s].x)]))
  {
    assert Holds(fpu, st.c.slots[s], st.m, s, st.truth[s], g);
  }

  /** One operation against one step of the interpreter. */
  ghost predicate OpOutcome(fpu: Fpu, st: State, op: Op, r: Result, dead: set<SlotId>, g: Grade)
    requires ValidOp(op, |st.truth|) && |st.c.slots| == |st.truth|
  {
    match r
    case Going(next) =>
      && InterpretOp(fpu, st.truth, op) == Some(next.truth) && Fits(next, |st.truth|)
      && (InStep(fpu, next, DeadAfter(op, dead), g) <==> Faithful(fpu, st.c, st.truth, op, g))
    case Deopted(stack, frame) => frame == st.truth && FramesAgree(fpu, stack, frame, dead, g)
    case NoRegister => true
    case _ => InterpretOp(fpu, st.truth, op) == None
  }

  lemma {:induction false} OpIsSafe(fpu: Fpu, st: State, op: Op, dead: set<SlotId>, g: Grade)
    requires Lawful(fpu) && InStep(fpu, st, dead, g) && ValidOp(op, |st.truth|) && Avoids(op, dead)
    ensures OpOutcome(fpu, st, op, RunOp(fpu, st, op), dead, g)
  {
    hide Holds; hide Exec; hide Lawful; hide Same; hide Carries; hide Interpret; hide ArithFaithful;
    match op
    case Copy(src, dst) => CopySlotKeeps(fpu, st.c, st.m, st.truth, src, dst, dead, g);
    case WriteBack(s) => WriteBackSlotKeeps(fpu, st.c, st.m, st.truth, s, dead, g);
    case Read(s, a) => ReadIsSafe(fpu, st, s, a, dead, g);
    case Store(s, v) =>
      StoreKeeps(fpu, st.c, st.m, st.truth, s, v, dead, g);
      DeallocConsistent(st.c, s);
    case Binop(o, ret, lhs, rhs, l, r) =>
      ReadIsSafe(fpu, st, lhs, l, dead, g);
      var first := RunRead(fpu, st, lhs, l);
      if first.Going? {
        if lhs != rhs { ReadIsSafe(fpu, first.st, rhs, r, dead, g); }
        var second := if lhs == rhs then first else RunRead(fpu, first.st, rhs, r);
        if second.Going? { ArithIsSafe(fpu, second.st, o, ret, lhs, rhs, dead, g); }
      }
  }

  // ----- whole runs -----

  /** Every operation that the run reaches is faithful. */
  predicate FaithfulAll(fpu: Fpu, st: State, ops: seq<Op>, g: Grade)
    requires Fits(st, |st.truth|) && forall op :: op in ops ==> ValidOp(op, |st.truth|)
    decreases |ops|
  {
    ops != [] ==>
      && Faithful(fpu, st.c, st.truth, ops[0], g)
      && var r := RunOp(fpu, st, ops[0]);
         (r.Going? && Fits(r.st, |st.truth|) ==> FaithfulAll(fpu, r.st, ops[1..], g))
  }

  /** How compiled code may end, seen from an interpreter that starts from the same frame: both at the end
      with frames that agree; back in the interpreter at one of the operations, with the frame that it
      has there; with an exception, or astray, only if the interpreter raises. */
  ghost predicate Follows(fpu: Fpu, r: Result, frame: seq<Value>, ops: seq<Op>, dead: set<SlotId>, g: Grade)
    requires forall op :: op in ops ==> ValidOp(op, |frame|)
    decreases |ops|
  {
    match r
    case Going(st) => InterpretAll(fpu, frame, ops) == Some(st.truth) && InStep(fpu, st, DeadAfterAll(ops, dead), g)
    case Deopted(stack, truth) => exists k: nat :: k < |ops| && ReturnsAt(fpu, stack, truth, frame, ops, k, dead, g)
    case NoRegister => true
    case _ => InterpretAll(fpu, frame, ops) == None
  }

  ghost predicate ReturnsAt(
      fpu: Fpu, stack: seq<Value>, truth: seq<Value>, frame: seq<Value>, ops: seq<Op>, k: nat, dead: set<SlotId>,
      g: Grade)
    requires k < |ops| && forall op :: op in ops ==> ValidOp(op, |frame|)
  {
    && InterpretAll(fpu, frame, ops[..k]) == Some(truth)
    && FramesAgree(fpu, stack, truth, DeadAfterAll(ops[..k], dead), g)
  }

  function DeadAfterAll(ops: seq<Op>, dead: set<SlotId>): set<SlotId>
    decreases |ops|
  {
    if ops == [] then dead else DeadAfterAll(ops[1..], DeadAfter(ops[0], dead))
  }

  lemma {:induction false} StateFits(fpu: Fpu, st: State, dead: set<SlotId>, g: Grade)
    requires InStep(fpu, st, dead, g)
    ensures Fits(st, |st.truth|)
  {}

  /** Along every run of faithful operations the compiler's picture stays true, and wherever the run leaves
      compiled code the interpreter receives its own frame. */
  lemma {:induction false} RunIsSafe(fpu: Fpu, st: State, ops: seq<Op>, dead: set<SlotId>, g: Grade)
    requires Lawful(fpu) && InStep(fpu, st, dead, g)
    requires (forall op :: op in ops ==> ValidOp(op, |st.truth|)) && AvoidsAll(ops, dead)
    ensures Fits(st, |st.truth|)
    ensures FaithfulAll(fpu, st, ops, g) ==> Follows(fpu, Run(fpu, st, ops), st.truth, ops, dead, g)
    decreases |ops|
  {
    hide RunOp; hide InterpretOp; hide Represents; hide FramesAgree; hide Lawful; hide Faithful; hide DeadAfter;
    StateFits(fpu, st, dead, g);
    if ops != [] && FaithfulAll(fpu, st, ops, g) {
      var (op, rest) := (ops[0], ops[1..]);
      OpIsSafe(fpu, st, op, dead, g);
      var r := RunOp(fpu, st, op);
      if r.Going? {
        var later := DeadAfter(op, dead);
        RunIsSafe(fpu, r.st, rest, later, g);
        var end := Run(fpu, r.st, rest);
        if end.Deopted? {
          var k: nat :| k < |rest| && ReturnsAt(fpu, end.stack, end.truth, r.st.truth, rest, k, later, g);
          assert ops[..k + 1][1..] == rest[..k];
          assert ReturnsAt(fpu, end.stack, end.truth, st.truth, ops, k + 1, dead, g);
        }
      } else if r.Deopted? {
        assert ReturnsAt(fpu, r.stack, r.truth, st.truth, ops, 0, dead, g);
      }
    }
  }

  /** The compiled code is in step wherever the run has come. */
  ghost predicate StaysInStep(fpu: Fpu, st: State, ops: seq<Op>, dead: set<SlotId>, g: Grade)
    requires Fits(st, |st.truth|) && forall op :: op in ops ==> ValidOp(op, |st.truth|)
    decreases |ops|
  {
    && InStep(fpu, st, dead, g)
    && (ops != [] ==>
          var r := RunOp(fpu, st, ops[0]);
          (r.Going? && Fits(r.st, |st.truth|) ==> StaysInStep(fpu, r.st, ops[1..], DeadAfter(ops[0], dead), g)))
  }

  /** A run through to the end is in step all the way exactly if every operation is faithful. */
  lemma {:induction false} RunInStepExactly(fpu: Fpu, st: State, ops: seq<Op>, dead: set<SlotId>, g: Grade)
    requires Lawful(fpu) && InStep(fpu, st, dead, g) && Fits(st, |st.truth|)
    requires (forall op :: op in ops ==> ValidOp(op, |st.truth|)) && AvoidsAll(ops, dead)
    requires Run(fpu, st, ops).Going?
    ensures StaysInStep(fpu, st, ops, dead, g) <==> FaithfulAll(fpu, st, ops, g)
    decreases |ops|
  {
    hide RunOp; hide InterpretOp; hide Represents; hide FramesAgree; hide Lawful; hide Faithful; hide DeadAfter;
    if ops != [] {
      OpIsSafe(fpu, st, ops[0], dead, g);
      var r := RunOp(fpu, st, ops[0]);
      if Faithful(fpu, st.c, st.truth, ops[0], g) {
        RunInStepExactly(fpu, r.st, ops[1..], DeadAfter(ops[0], dead), g);
      }
    }
  }

  // ----- two integers -----

  /** 7 / 2 in compiled float code: both slots were loaded as Integers before, so the division does not look
      at them again. The interpreter holds 3, the result register the quotient of 7.0 and 2.0. */
  lemma {:induction false} IntegerDivisionParts(fpu: Fpu, st: State)
    requires Lawful(fpu) && Norm(fpu.div(fpu.ofInt(7), fpu.ofInt(2))) != Norm(fpu.ofInt(3))
    requires st == State(Empty(3), st.m, [Fixnum(7), Fixnum(2), Other(0)]) && st.m.stack == st.truth
    ensures InStep(fpu, st, {}, ByValue) && Fits(st, 3)
    ensures var r := Run(fpu, st, [Read(0, IntegerOnly), Read(1, IntegerOnly),
        Binop(Div, 2, 0, 1, FloatOnly, FloatOnly)]);
            && r.Going? && r.st.truth == [Fixnum(7), Fixnum(2), Fixnum(3)]
            && !InStep(fpu, r.st, {}, ByNumber)
  {
    hide Exec; hide Lawful; hide XmmWrite; hide FloatCode; hide Interpret; hide ArithFaithful; hide Represents;
    hide RunArith; hide Link; hide FirstFree; hide Empty; hide Dealloc;
    var (a, b, div) := (Read(0, IntegerOnly), Read(1, IntegerOnly), Binop(Div, 2, 0, 1, FloatOnly, FloatOnly));
    var ops := [a, b, div];
    assert ops[1..] == [b, div] && [b, div][1..] == [div] && [div][1..] == [];
    EmptyInStep(fpu, st);
    ValuesAreNumbers(fpu, st.c, st.m, st.truth, {});
    TwoLoads();
    var st1 := Loads(fpu, st, 0, IntegerOnly, 0, fpu.ofInt(7), ByNumber);
    var st2 := Loads(fpu, st1, 1, IntegerOnly, 1, fpu.ofInt(2), ByNumber);
    ReadsLinked(fpu, st2, 0, FloatOnly);
    ReadsLinked(fpu, st2, 1, FloatOnly);
    DivisionGoes(fpu, st2);
    assert st2.truth[2 := Fixnum(3)] == [Fixnum(7), Fixnum(2), Fixnum(3)];
  }

  lemma {:induction false} EmptyInStep(fpu: Fpu, st: State)
    requires st.c == Empty(|st.truth|) && st.m.stack == st.truth
    ensures InStep(fpu, st, {}, ByValue) && Fits(st, |st.truth|)
  {
    EmptyConsistent(|st.truth|);
  }

  lemma {:induction false} TwoLoads()
    ensures var c := Empty(3);
            && FirstFree(c.xmm) == Some(0) && c.slots == [Unlinked, Unlinked, Unlinked]
            && var d := Link(c, 0, XmmR(0));
            && FirstFree(d.xmm) == Some(1) && d.slots == [XmmR(0), Unlinked, Unlinked] && |d.xmm| == NUM_XMM
            && var e := Link(d, 1, XmmR(1));
            e.slots == [XmmR(0), XmmR(1), Unlinked] && |e.xmm| == NUM_XMM && XmmWrite(e, 2).Some?
  {
    var e := Link(Link(Empty(3), 0, XmmR(0)), 1, XmmR(1));
    assert FirstFree(e.xmm, 2) == Some(2);
    assert FirstFree(e.xmm, 1) == Some(2);
  }

  /** Loading a number leaves the frame alone and links its slot. */
  lemma {:induction false} Loads(fpu: Fpu, st: State, s: SlotId, a: Assume, x: Xmm, f: F64, g: Grade)
    returns (next: State)
    requires InStep(fpu, st, {}, g) && Fits(st, |st.truth|) && s < |st.truth| && st.c.slots[s].Unlinked?
    requires Unbox(fpu, st.m.stack[s], a) == Some(f) && FirstFree(st.c.xmm) == Some(x)
    ensures RunOp(fpu, st, Read(s, a)) == RunRead(fpu, st, s, a) == Going(next) && InStep(fpu, next, {}, g)
    ensures next.c == Link(st.c, s, XmmR(x)) && next.truth == st.truth && next.m.stack == st.m.stack
    ensures next.m.xmm[Enc(x)] == f && forall y: Xmm :: y != x ==> next.m.xmm[Enc(y)] == st.m.xmm[Enc(y)]
    ensures Fits(next, |st.truth|)
  {
    hide Represents; hide Consistent;
    var m := st.m;
    next := State(Link(st.c, s, XmmR(x)), m.(rdi := m.stack[s], xmm := m.xmm[0 := f][Enc(x) := f]), st.truth);
    LoadEffect(fpu, m, s, x, a);
    ReadIsSafe(fpu, st, s, a, {}, g);
  }

  /** A slot with a register is not looked at again, whatever is assumed about it. */
  lemma {:induction false} ReadsLinked(fpu: Fpu, st: State, s: SlotId, a: Assume)
    requires Fits(st, |st.truth|) && Linked(st.c, s)
    ensures RunRead(fpu, st, s, a) == Going(st)
  {}

  lemma {:induction false} DivisionGoes(fpu: Fpu, st: State)
    requires Lawful(fpu) && Norm(fpu.div(fpu.ofInt(7), fpu.ofInt(2))) != Norm(fpu.ofInt(3))
    requires InStep(fpu, st, {}, ByNumber) && st.truth == [Fixnum(7), Fixnum(2), Other(0)] && Fits(st, 3)
    requires Linked(st.c, 0) && Linked(st.c, 1) && XmmWrite(st.c, 2).Some?
    ensures var r := RunArith(fpu, st, Div, 2, 0, 1);
            && r.Going? && r.st.truth == st.truth[2 := Fixnum(3)]
            && !InStep(fpu, r.st, {}, ByNumber) && Fits(r.st, 3)
  {
    hide RunArith; hide XmmWrite; hide Represents; hide Lawful;
    ArithIsSafe(fpu, st, Div, 2, 0, 1, {}, ByNumber);
    LinkedNumber(fpu, st, 1, {}, ByNumber);
    ZeroConverts(fpu, 2);
    assert {} - {2} == {};
    assert Interpret(fpu, Div, Fixnum(7), Fixnum(2)) == Some(Fixnum(3));
    RunsIfRegister(fpu, st, Div, 2, 0, 1);
  }

  lemma {:induction false} RunsIfRegister(fpu: Fpu, st: State, op: FloatOp, ret: SlotId, lhs: SlotId, rhs: SlotId)
    requires Fits(st, |st.truth|) && ret < |st.truth| && Linked(st.c, lhs) && Linked(st.c, rhs)
    requires XmmWrite(st.c, ret).Some?
    ensures !RunArith(fpu, st, op, ret, lhs, rhs).NoRegister?
  {
    hide XmmWrite; hide FloatCode; hide Exec; hide Interpret;
  }

  // ----- a negative zero in a register -----

  /** `t = zero * a; y = z / t`, with the result slots t and y behind the operands. */
  const NEGATIVE_ZERO_RUN := [Binop(Mul, 3, 0, 1, FloatOnly, FloatOnly), Binop(Div, 4, 2, 3, FloatOnly, FloatOnly)]

  /** Arithmetic that neither raises nor lacks a register leaves the result in the register it is given. */
  lemma {:induction false} ArithGoes(
      fpu: Fpu, st: State, op: FloatOp, ret: SlotId, lhs: SlotId, rhs: SlotId, d: Ctx, x: Xmm) returns (next: State)
    requires Lawful(fpu) && Fits(st, |st.truth|) && ret < |st.truth| && Linked(st.c, lhs) && Linked(st.c, rhs)
    requires !op.Div? && XmmWrite(st.c, ret) == Some((d, x))
    requires Interpret(fpu, op, st.truth[lhs], st.truth[rhs]).Some?
    ensures RunArith(fpu, st, op, ret, lhs, rhs) == Going(next) && next.c == d && next.m.stack == st.m.stack
    ensures next.truth == st.truth[ret := Interpret(fpu, op, st.truth[lhs], st.truth[rhs]).value]
    ensures next.m.xmm[Enc(x)] == Apply(fpu, op, st.m.xmm[Enc(st.c.slots[lhs].x)], st.m.xmm[Enc(st.c.slots[rhs].x)])
  {
    hide XmmWrite; hide FloatCode; hide Exec; hide Interpret; hide Lawful; hide Apply;
    var (l, r) := (st.c.slots[lhs].x, st.c.slots[rhs].x);
    FloatCodeEffect(fpu, op, x, l, r, st.m);
    next := State(d, Exec(fpu, FloatCode(op, x, l, r), st.m).m,
                  st.truth[ret := Interpret(fpu, op, st.truth[lhs], st.truth[rhs]).value]);
  }

  /** The linkage when both operands of the product are loaded. */
  function BothLoaded(): Ctx {
    Link(Link(Empty(5), 0, XmmR(0)), 1, XmmR(1))
  }

  lemma {:induction false} ProductLinkage() returns (c: Ctx, end: Ctx)
    ensures FirstFree(Empty(5).xmm) == Some(0) && FirstFree(Link(Empty(5), 0, XmmR(0)).xmm) == Some(1)
    ensures Empty(5).slots == seq(5, _ => Unlinked) && |Empty(5).xmm| == NUM_XMM
    ensures Link(Empty(5), 0, XmmR(0)).slots[1].Unlinked?
    ensures BothLoaded().slots == [XmmR(0), XmmR(1), Unlinked, Unlinked, Unlinked]
    ensures |BothLoaded().xmm| == NUM_XMM && XmmWrite(BothLoaded(), 3) == Some((c, 2))
    ensures c.slots == [XmmR(0), XmmR(1), Unlinked, XmmRW(2), Unlinked] && |c.xmm| == NUM_XMM
    ensures FirstFree(c.xmm) == Some(3)
    ensures XmmWrite(Link(c, 2, XmmR(3)), 4) == Some((end, 4))
  {
    var b := BothLoaded();
    assert FirstFree(b.xmm, 1) == FirstFree(b.xmm, 2) == Some(2);
    c := Link(b, 3, XmmRW(2));
    assert FirstFree(c.xmm, 1) == FirstFree(c.xmm, 2) == FirstFree(c.xmm, 3) == Some(3);
    var d := Link(c, 2, XmmR(3));
    assert FirstFree(d.xmm, 1) == FirstFree(d.xmm, 2) == FirstFree(d.xmm, 3) == FirstFree(d.xmm, 4) == Some(4);
    end := Link(d, 4, XmmRW(4));
  }

  /** After the product the slot t is in step, and its register holds -0.0. */
  lemma {:induction false} ProductIsNegativeZero(fpu: Fpu, st: State, a: F64, z: F64) returns (next: State)
    requires Lawful(fpu) && fpu.mul(POS_ZERO, a) == NEG_ZERO
    requires st == State(Empty(5), st.m, [Float(POS_ZERO), Float(a), Float(z), Other(0), Other(0)])
    requires st.m.stack == st.truth && InStep(fpu, st, {}, ByValue) && Fits(st, 5)
    ensures RunOp(fpu, st, NEGATIVE_ZERO_RUN[0]) == Going(next)
    ensures XmmWrite(BothLoaded(), 3) == Some((next.c, 2)) && next.m.xmm[Enc(2)] == NEG_ZERO
    ensures InStep(fpu, next, {}, ByValue) && next.m.stack == st.m.stack
    ensures next.truth == st.truth[3 := Float(POS_ZERO)]
    ensures InterpretOp(fpu, st.truth, NEGATIVE_ZERO_RUN[0]) == Some(next.truth)
  {
    hide RunArith; hide XmmWrite; hide Represents; hide Lawful; hide RunRead; hide Link; hide FirstFree; hide Empty;
    hide Interpret;
    var c, end := ProductLinkage();
    var st1 := Loads(fpu, st, 0, FloatOnly, 0, POS_ZERO, ByValue);
    var st2 := Loads(fpu, st1, 1, FloatOnly, 1, a, ByValue);
    FloatsMultiply(fpu, POS_ZERO, a);
    next := ArithGoes(fpu, st2, Mul, 3, 0, 1, c, 2);
    assert {} - {3} == {};
    ArithIsSafe(fpu, st2, Mul, 3, 0, 1, {}, ByValue);
  }

  lemma {:induction false} FloatsMultiply(fpu: Fpu, a: F64, b: F64)
    ensures Interpret(fpu, Mul, Float(a), Float(b)) == Some(Box(fpu.mul(a, b)))
  {}

  /** The division finds the bits of -0.0, not those of 0.0. */
  lemma {:induction false} DivisionGoesAstray(fpu: Fpu, st: State, z: F64)
    requires Lawful(fpu) && InStep(fpu, st, {}, ByValue) && Fits(st, 5)
    requires XmmWrite(BothLoaded(), 3) == Some((st.c, 2)) && st.m.xmm[Enc(2)] == NEG_ZERO
    requires st.m.stack[2] == st.truth[2] == Float(z) && st.truth[3] == Float(POS_ZERO)
    ensures RunOp(fpu, st, NEGATIVE_ZERO_RUN[1]).Astray?
    ensures InterpretOp(fpu, st.truth, NEGATIVE_ZERO_RUN[1]).None?
  {
    hide RunArith; hide XmmWrite; hide Represents; hide Lawful; hide RunRead; hide Link; hide FirstFree; hide Empty;
    var c, end := ProductLinkage();
    LinkedAt(c, 2, XmmR(3));
    var next := Loads(fpu, st, 2, FloatOnly, 3, z, ByValue);
    ReadsLinked(fpu, next, 3, FloatOnly);
    ArithIsSafe(fpu, next, Div, 4, 2, 3, {}, ByValue);
  }

  lemma {:induction false} LinkedAt(c: Ctx, s: SlotId, mode: LinkMode)
    requires |c.xmm| == NUM_XMM && s < |c.slots| && !mode.Unlinked?
    ensures Link(c, s, mode).slots == c.slots[s := mode]
  {}

  /** 0.0 times a negative float leaves -0.0 in the register of t, linked and in step. The interpreter, whose t is
      boxed, raises at the division; compiled code runs on. */
  lemma {:induction false} NegativeZeroGoesAstray(fpu: Fpu, st: State, a: F64, z: F64)
    requires Lawful(fpu) && fpu.mul(POS_ZERO, a) == NEG_ZERO
    requires st == State(Empty(5), st.m, [Float(POS_ZERO), Float(a), Float(z), Other(0), Other(0)])
    requires st.m.stack == st.truth
    ensures InStep(fpu, st, {}, ByValue) && Fits(st, 5)
    ensures Run(fpu, st, NEGATIVE_ZERO_RUN).Astray?
    ensures InterpretAll(fpu, st.truth, NEGATIVE_ZERO_RUN).None?
  {
    hide RunOp; hide InterpretOp; hide Represents; hide Lawful;
    EmptyInStep(fpu, st);
    var next := ProductIsNegativeZero(fpu, st, a, z);
    DivisionGoesAstray(fpu, next, z);
    var ops := NEGATIVE_ZERO_RUN;
    assert ops[1..] == [ops[1]] && ops[1..][1..] == [];
  }
}
