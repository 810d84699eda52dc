/** Float code between two edges, and what a deoptimisation in the middle of it hands back to the
    interpreter. The interpreter's own frame is the yardstick: `truth` is what it would hold. */
module JitDeopt {
  import opened Prelude
  import opened JitMachine
  import opened JitContext

  // ----- how the machine represents the interpreter's frame -----

  /** How closely: number for number, or value for value. */
  datatype Grade = ByNumber | ByValue

  predicate Same(fpu: Fpu, v: Value, w: Value, g: Grade) {
    if g.ByValue? then v == w else Agree(fpu, v, w)
  }

  /** A register that holds f alone stands for w. */
  predicate Carries(fpu: Fpu, f: F64, w: Value, g: Grade) {
    if g.ByValue? then w == Box(f) else Number(fpu, w) == Some(Norm(f))
  }

  /** The values that boxing yields: every Float but the negative zero, which no Float object holds. */
  predicate IsBox(w: Value) {
    w.Float? && w.f != NEG_ZERO
  }

  /** A slot stands for the interpreter's value w: on the stack, in the register, or both. */
  predicate Holds(fpu: Fpu, mode: LinkMode, m: Machine, s: SlotId, w: Value, g: Grade) {
    match mode
    case Unlinked => Same(fpu, Peek(m.stack, s), w, g)
    case XmmR(x) => Same(fpu, Peek(m.stack, s), w, g) && Number(fpu, w) == Some(Norm(m.xmm[Enc(x)]))
    case XmmRW(x) => Carries(fpu, m.xmm[Enc(x)], w, g)
  }

  /** Every slot stands for the interpreter's value, except dead ones: a slot being defined, or one the
      program will not read before it defines it again. */
  ghost predicate Represents(fpu: Fpu, c: Ctx, m: Machine, truth: seq<Value>, dead: set<SlotId>, g: Grade) {
    && Consistent(c) && |c.slots| == |m.stack| == |truth|
    && forall s: SlotId :: s < |truth| && s !in dead ==> Holds(fpu, c.slots[s], m, s, truth[s], g)
  }

  /** Two frames the interpreter cannot tell apart, by the numbers or by the values they hold. */
  ghost predicate FramesAgree(fpu: Fpu, stack: seq<Value>, truth: seq<Value>, dead: set<SlotId>, g: Grade) {
    && |stack| == |truth|
    && forall s: SlotId :: s < |truth| && s !in dead ==> Same(fpu, stack[s], truth[s], g)
  }

  /** By value two frames agree only if they are the same; by number, if each slot holds the same value or the same
      number. And a frame that nothing has been loaded from stands for itself alone. */
  lemma {:induction false} AgreementIs(fpu: Fpu, stack: seq<Value>, truth: seq<Value>, c: Ctx, m: Machine)
    requires m.stack == stack && c == Empty(|truth|) && |stack| == |truth|
    ensures FramesAgree(fpu, stack, truth, {}, ByValue) <==> stack == truth
    ensures FramesAgree(fpu, stack, truth, {}, ByNumber) <==>
              forall s: SlotId :: s < |truth| ==>
                stack[s] == truth[s] || (Number(fpu, stack[s]).Some? && Number(fpu, stack[s]) == Number(fpu, truth[s]))
    ensures Represents(fpu, c, m, truth, {}, ByValue) <==> stack == truth
  {
    EmptyConsistent(|truth|);
    assert forall s: SlotId :: s < |truth| ==> (Holds(fpu, c.slots[s], m, s, truth[s], ByValue) <==>
        stack[s] == truth[s]);
  }

  /** The frame that reaches the interpreter when the write-back of context c runs. */
  function Deoptimise(fpu: Fpu, c: Ctx, m: Machine): seq<Value>
    requires |c.xmm| == NUM_XMM
  {
    match Exec(fpu, WriteBackCode(c, 0), m)
    case Running(n) => n.stack
    case _ => []
  }

  lemma {:induction false} NumberOfBox(fpu: Fpu, f: F64)
    ensures Number(fpu, Box(f)) == Some(Norm(f)) && IsBox(Box(f))
  {
  }

  /** Boxing the register restores the value exactly if the value is what boxing yields. */
  lemma {:induction false} BoxRestores(fpu: Fpu, f: F64, w: Value)
    requires Number(fpu, w) == Some(Norm(f))
    ensures w == Box(f) <==> IsBox(w)
  {
  }

  lemma {:induction false} ValuesAreNumbers(fpu: Fpu, c: Ctx, m: Machine, truth: seq<Value>, dead: set<SlotId>)
    requires Represents(fpu, c, m, truth, dead, ByValue)
    ensures Represents(fpu, c, m, truth, dead, ByNumber)
  {
    forall s: SlotId | s < |truth| && s !in dead
      ensures Holds(fpu, c.slots[s], m, s, truth[s], ByNumber)
    {
      assert Holds(fpu, c.slots[s], m, s, truth[s], ByValue);
    }
  }

  /** A slot stands for the same value as long as its link, its stack copy and its register stay. */
  lemma {:induction false} HoldsFrame(
      fpu: Fpu, mode: LinkMode, m: Machine, n: Machine, s: SlotId, w: Value, g: Grade)
    requires Holds(fpu, mode, m, s, w, g) && Peek(m.stack, s) == Peek(n.stack, s)
    requires !mode.Unlinked? ==> n.xmm[Enc(mode.x)] == m.xmm[Enc(mode.x)]
    ensures Holds(fpu, mode, n, s, w, g)
  {
  }

  lemma {:induction false} SlotDeopts(fpu: Fpu, mode: LinkMode, m: Machine, s: SlotId, w: Value, v: Value, g: Grade)
    requires s < |m.stack| && Holds(fpu, mode, m, s, w, g)
    requires v == if mode.XmmRW? then Box(m.xmm[Enc(mode.x)]) else m.stack[s]
    ensures Same(fpu, v, w, g)
  {
    if mode.XmmRW? { NumberOfBox(fpu, m.xmm[Enc(mode.x)]); }
  }

  lemma {:induction false} DeoptIsSafe(
      fpu: Fpu, c: Ctx, m: Machine, truth: seq<Value>, dead: set<SlotId>, g: Grade)
    requires Represents(fpu, c, m, truth, dead, g)
    ensures FramesAgree(fpu, Deoptimise(fpu, c, m), truth, dead, g)
  {
    WriteBackEffect(fpu, c, m, 0);
    var stack := Deoptimise(fpu, c, m);
    forall s: SlotId | s < |truth| && s !in dead
      ensures Same(fpu, stack[s], truth[s], g)
    {
      SlotDeopts(fpu, c.slots[s], m, s, truth[s], stack[s], g);
    }
  }

  // ----- the emitting operations -----

  /** Copies src to dst. A linked source lends its register; both slots share it from here on. */
  function CopySlot(c: Ctx, src: SlotId, dst: SlotId): (Ctx, seq<Inst>)
    requires |c.xmm| == NUM_XMM && src < |c.slots| && dst < |c.slots| && src != dst
  {
    var d := Dealloc(c, dst);
    if Linked(d, src) then (Link(d, dst, XmmRW(d.slots[src].x)), [])
    else (d, [LoadRax(src), StoreRax(dst)])
  }

  function WriteBackSlot(c: Ctx, s: SlotId): (Ctx, seq<Inst>)
    requires |c.xmm| == NUM_XMM && s < |c.slots|
  {
    match c.slots[s]
    case XmmRW(x) => (c.(slots := c.slots[s := XmmR(x)]), WriteBackSingle(x, [s]))
    case _ => (c, [])
  }

  /** Loads a slot into a register unless it is in one already. The context is also the one the side
      exit of the conversion writes back from. None: out of registers. */
  function ReadSlot(c: Ctx, s: SlotId, assume_: Assume): Option<(Ctx, seq<Inst>, Xmm)>
    requires |c.xmm| == NUM_XMM && s < |c.slots|
  {
    if !c.slots[s].Unlinked? then Some((c, [], c.slots[s].x))
    else match FirstFree(c.xmm)
      case None => None
      case Some(x) => Some((Link(c, s, XmmR(x)), [LoadRdi(s), ValToF64(Enc(x), assume_)], x))
  }

  function XmmMov(src: Xmm, dst: Xmm): seq<Inst> {
    if src == dst then [] else [MovXmm(Enc(dst), Enc(src))]
  }

  /** The arithmetic itself; ret may coincide with either operand. */
  function FloatCode(op: FloatOp, ret: Xmm, lhs: Xmm, rhs: Xmm): seq<Inst> {
    var (t, l, r) := (Enc(ret), Enc(lhs), Enc(rhs));
    match op
    case Add => if ret == rhs then [Arith(Add, t, l)] else XmmMov(lhs, ret) + [Arith(Add, t, r)]
    case Mul => if ret == rhs then [Arith(Mul, t, l)] else XmmMov(lhs, ret) + [Arith(Mul, t, r)]
    case Sub =>
      if ret == rhs then [MovXmm(0, l), Arith(Sub, 0, t), MovXmm(t, 0)]
      else XmmMov(lhs, ret) + [Arith(Sub, t, r)]
    case Div =>
      if ret == rhs then [RaiseIfZero(t), MovXmm(0, l), Arith(Div, 0, t), MovXmm(t, 0)]
      else XmmMov(lhs, ret) + [RaiseIfZero(r), Arith(Div, t, r)]
  }

  // ----- what each makes of the representation -----

  /** Whether a copy from this link keeps the class of the value: the copy lives in the register only, so
      a value that is not what boxing yields must be without a register. */
  predicate CopyFaithful(mode: LinkMode, w: Value, g: Grade) {
    g.ByValue? && mode.XmmR? ==> IsBox(w)
  }

  lemma {:induction false} CopySlotKeeps(
      fpu: Fpu, c: Ctx, m: Machine, truth: seq<Value>, src: SlotId, dst: SlotId, dead: set<SlotId>, g: Grade)
    requires Represents(fpu, c, m, truth, dead, g)
    requires src < |truth| && dst < |truth| && src != dst && src !in dead
    ensures var (d, code) := CopySlot(c, src, dst);
            var o := Exec(fpu, code, m);
            && o.Running? && Consistent(d) && |d.slots| == |o.m.stack| == |truth|
            && (Represents(fpu, d, o.m, truth[dst := truth[src]], dead - {dst}, g)
                <==> CopyFaithful(c.slots[src], truth[src], g))
  {
    DeallocConsistent(c, dst);
    var d := Dealloc(c, dst);
    var now := truth[dst := truth[src]];
    assert Holds(fpu, c.slots[src], m, src, truth[src], g);
    if Linked(d, src) {
      var x := d.slots[src].x;
      LinkConsistent(d, dst, XmmRW(x));
      if c.slots[src].XmmR? { BoxRestores(fpu, m.xmm[Enc(x)], truth[src]); }
      var e := Link(d, dst, XmmRW(x));
      assert Holds(fpu, e.slots[dst], m, dst, now[dst], g) <==> CopyFaithful(c.slots[src], truth[src], g);
      forall t: SlotId | t < |truth| && t != dst && t !in dead
        ensures Holds(fpu, e.slots[t], m, t, now[t], g)
      {
        assert Holds(fpu, c.slots[t], m, t, truth[t], g);
      }
    } else {
      var code := [LoadRax(src), StoreRax(dst)];
      var m1 := m.(rax := m.stack[src]);
      var n := m1.(stack := m.stack[dst := m.stack[src]]);
      assert code[1..] == [StoreRax(dst)];
      assert Exec(fpu, code[1..], m1) == Running(n);
      forall t: SlotId | t < |truth| && t !in dead - {dst}
        ensures Holds(fpu, d.slots[t], n, t, now[t], g)
      {
        if t != dst { HoldsFrame(fpu, c.slots[t], m, n, t, truth[t], g); }
      }
    }
  }

  /** What a copy of a slot with a register comes back as: the register's box, even if the slot itself, valid
      on the stack, comes back as an Integer. */
  lemma {:induction false} CopyReturnsBox(fpu: Fpu, c: Ctx, m: Machine, src: SlotId, dst: SlotId)
    requires Consistent(c) && |c.slots| == |m.stack| && Linked(c, src) && dst < |c.slots| && src != dst
    ensures var d := CopySlot(c, src, dst).0;
            && |d.xmm| == NUM_XMM && |Deoptimise(fpu, d, m)| == |m.stack|
            && Deoptimise(fpu, d, m)[dst] == Box(m.xmm[Enc(c.slots[src].x)])
            && (c.slots[src].XmmR? ==> Deoptimise(fpu, d, m)[src] == m.stack[src])
  {
    hide WriteBackCode; hide Exec; hide Box;
    DeallocConsistent(c, dst);
    var d := Dealloc(c, dst);
    LinkConsistent(d, dst, XmmRW(d.slots[src].x));
    WriteBackEffect(fpu, CopySlot(c, src, dst).0, m, 0);
  }

  lemma {:induction false} WriteBackSlotKeeps(
      fpu: Fpu, c: Ctx, m: Machine, truth: seq<Value>, s: SlotId, dead: set<SlotId>, g: Grade)
    requires Represents(fpu, c, m, truth, dead, g) && s < |truth|
    ensures var (d, code) := WriteBackSlot(c, s);
            var o := Exec(fpu, code, m);
            && o.Running? && Represents(fpu, d, o.m, truth, dead, g) && !d.slots[s].XmmRW?
            && d.slots == c.slots[s := if c.slots[s].XmmRW? then XmmR(c.slots[s].x) else c.slots[s]]
  {
    if c.slots[s].XmmRW? {
      var x := c.slots[s].x;
      RemodeConsistent(c, s, XmmR(x));
      WriteBackSingleEffect(fpu, x, [s], m);
      NumberOfBox(fpu, m.xmm[Enc(x)]);
      var (d, code) := WriteBackSlot(c, s);
      var n := Exec(fpu, code, m).m;
      forall t: SlotId | t < |truth| && t !in dead
        ensures Holds(fpu, d.slots[t], n, t, truth[t], g)
      {
        assert Holds(fpu, c.slots[t], m, t, truth[t], g);
        if t != s { HoldsFrame(fpu, c.slots[t], m, n, t, truth[t], g); }
      }
    }
  }

  /** A register no slot uses may be overwritten. */
  lemma {:induction false} FreeRegisterUnused(c: Ctx, x: Xmm, s: SlotId)
    requires Consistent(c) && c.xmm[x] == [] && Linked(c, s)
    ensures c.slots[s].x != x
  {
    assert s in c.xmm[c.slots[s].x];
  }

  lemma {:induction false} ReadSlotKeeps(
      fpu: Fpu, c: Ctx, m: Machine, truth: seq<Value>, s: SlotId, a: Assume, dead: set<SlotId>, g: Grade)
    requires Represents(fpu, c, m, truth, dead, g) && s < |truth| && s !in dead && ReadSlot(c, s, a).Some?
    ensures var (d, code, x) := ReadSlot(c, s, a).value;
            var o := Exec(fpu, code, m);
            && !o.Raised? && Consistent(d)
            && (o.Running? ==> Represents(fpu, d, o.m, truth, dead, g) && Linked(d, s) && d.slots[s].x == x)
            && (o.SideExit? ==> FramesAgree(fpu, Deoptimise(fpu, d, o.m), truth, dead, g))
            && (forall t: SlotId :: t < |truth| && t != s ==> d.slots[t] == c.slots[t])
  {
    assert Holds(fpu, c.slots[s], m, s, truth[s], g);
    if c.slots[s].Unlinked? {
      var (d, code, x) := ReadSlot(c, s, a).value;
      LinkConsistent(c, s, XmmR(x));
      LoadEffect(fpu, m, s, x, a);
      var m1 := m.(rdi := m.stack[s]);
      if Unbox(fpu, m.stack[s], a).None? {
        RefusedReadDeopts(fpu, c, m, m1, truth, s, x, dead, g);
      } else {
        AcceptedReadKeeps(fpu, c, m, truth, s, x, a, Unbox(fpu, m.stack[s], a).value, dead, g);
      }
    }
  }

  lemma {:induction false} LoadEffect(fpu: Fpu, m: Machine, s: SlotId, x: Xmm, a: Assume)
    requires s < |m.stack|
    ensures Exec(fpu, [LoadRdi(s), ValToF64(Enc(x), a)], m) ==
            match Unbox(fpu, m.stack[s], a)
            case None => SideExit(m.(rdi := m.stack[s]))
            case Some(f) => Running(m.(rdi := m.stack[s], xmm := m.xmm[0 := f][Enc(x) := f]))
  {
    var code, m1 := [LoadRdi(s), ValToF64(Enc(x), a)], m.(rdi := m.stack[s]);
    var rest := [ValToF64(Enc(x), a)];
    assert code[0] == LoadRdi(s) && code[1..] == rest && rest[0] == ValToF64(Enc(x), a) && rest[1..] == [];
    assert Step(fpu, code[0], m) == Running(m1);
    assert Exec(fpu, code, m) == Exec(fpu, rest, m1);
    match Unbox(fpu, m.stack[s], a)
    case None => assert Step(fpu, rest[0], m1) == SideExit(m1);
    case Some(f) =>
      var n := m1.(xmm := m1.xmm[0 := f][Enc(x) := f]);
      assert Step(fpu, rest[0], m1) == Running(n);
      NoCode(fpu, n);
  }

  /** The slot was linked as readable only, so the write-back skips it. */
  lemma {:induction false} RefusedReadDeopts(
      fpu: Fpu, c: Ctx, m: Machine, m1: Machine, truth: seq<Value>, s: SlotId, x: Xmm, dead: set<SlotId>, g: Grade)
    requires Represents(fpu, c, m, truth, dead, g) && s < |truth| && c.slots[s].Unlinked?
    requires m1 == m.(rdi := m.stack[s])
    ensures FramesAgree(fpu, Deoptimise(fpu, Link(c, s, XmmR(x)), m1), truth, dead, g)
  {
    hide Holds; hide Same; hide WriteBackCode; hide Exec;
    var d := Link(c, s, XmmR(x));
    LinkConsistent(c, s, XmmR(x));
    WriteBackEffect(fpu, d, m1, 0);
    var stack := Deoptimise(fpu, d, m1);
    forall t: SlotId | t < |truth| && t !in dead
      ensures Same(fpu, stack[t], truth[t], g)
    {
      SlotDeopts(fpu, c.slots[t], m, t, truth[t], stack[t], g);
    }
  }

  lemma {:induction false} AcceptedReadKeeps(
      fpu: Fpu, c: Ctx, m: Machine, truth: seq<Value>, s: SlotId, x: Xmm, a: Assume, f: F64, dead: set<SlotId>,
      g: Grade)
    requires Represents(fpu, c, m, truth, dead, g) && s < |truth| && c.slots[s].Unlinked? && c.xmm[x] == []
    requires Unbox(fpu, m.stack[s], a) == Some(f)
    ensures var n := m.(rdi := m.stack[s], xmm := m.xmm[0 := f][Enc(x) := f]);
            Represents(fpu, Link(c, s, XmmR(x)), n, truth, dead, g)
  {
    LinkConsistent(c, s, XmmR(x));
    var d, n := Link(c, s, XmmR(x)), m.(rdi := m.stack[s], xmm := m.xmm[0 := f][Enc(x) := f]);
    forall t: SlotId | t < |truth| && t !in dead
      ensures Holds(fpu, d.slots[t], n, t, truth[t], g)
    {
      assert Holds(fpu, c.slots[t], m, t, truth[t], g);
      if t != s {
        if Linked(c, t) { FreeRegisterUnused(c, x, t); }
        HoldsFrame(fpu, c.slots[t], m, n, t, truth[t], g);
      }
    }
  }

  /** Reserving a register for the result disturbs no other slot, even when the result slot shared its
      old register with others. */
  lemma {:induction false} XmmWriteKeeps(
      fpu: Fpu, c: Ctx, m: Machine, truth: seq<Value>, s: SlotId, dead: set<SlotId>, g: Grade)
    requires Represents(fpu, c, m, truth, dead, g) && s < |truth| && XmmWrite(c, s).Some?
    ensures var (d, x) := XmmWrite(c, s).value;
            && Represents(fpu, d, m, truth, dead + {s}, g)
            && d.slots[s] == XmmRW(x)
            && (forall t: SlotId :: t < |truth| && t != s && Linked(d, t) ==> d.slots[t].x != x)
  {
    XmmWriteConsistent(c, s);
    var (d, x) := XmmWrite(c, s).value;
    forall t: SlotId | t < |truth| && t != s
      ensures t !in dead ==> Holds(fpu, d.slots[t], m, t, truth[t], g)
      ensures Linked(d, t) ==> d.slots[t].x != x
    {
      assert t !in dead ==> Holds(fpu, c.slots[t], m, t, truth[t], g);
      assert t in d.xmm[x] <==> Linked(d, t) && d.slots[t].x == x;
    }
  }

  /** A result has arrived in the reserved register: the slot is defined if that is the right one. */
  lemma {:induction false} DefineCompletes(
      fpu: Fpu, c: Ctx, m: Machine, n: Machine, truth: seq<Value>, s: SlotId, w: Value, dead: set<SlotId>, g: Grade)
    requires Represents(fpu, c, m, truth, dead + {s}, g) && s < |truth| && c.slots[s].XmmRW?
    requires forall t: SlotId :: t < |truth| && t != s && Linked(c, t) ==> c.slots[t].x != c.slots[s].x
    requires n.stack == m.stack && forall x: Xmm :: x != c.slots[s].x ==> n.xmm[Enc(x)] == m.xmm[Enc(x)]
    ensures Represents(fpu, c, n, truth[s := w], dead - {s}, g) <==> Carries(fpu, n.xmm[Enc(c.slots[s].x)], w, g)
  {
    var now := truth[s := w];
    assert Holds(fpu, c.slots[s], n, s, now[s], g) <==> Carries(fpu, n.xmm[Enc(c.slots[s].x)], w, g);
    forall t: SlotId | t < |now| && t != s && t !in dead
      ensures Holds(fpu, c.slots[t], n, t, now[t], g)
    {
      assert Holds(fpu, c.slots[t], m, t, truth[t], g);
    }
  }

  lemma {:induction false} StoreKeeps(
      fpu: Fpu, c: Ctx, m: Machine, truth: seq<Value>, s: SlotId, v: Value, dead: set<SlotId>, g: Grade)
    requires Represents(fpu, c, m, truth, dead, g) && s < |truth|
    ensures var o := Exec(fpu, [StoreValue(s, v)], m);
            o.Running? && Represents(fpu, Dealloc(c, s), o.m, truth[s := v], dead - {s}, g)
  {
    DeallocConsistent(c, s);
    var n := m.(stack := m.stack[s := v]);
    assert Exec(fpu, [StoreValue(s, v)], m) == Running(n);
    var now := truth[s := v];
    forall t: SlotId | t < |truth| && t !in dead - {s}
      ensures Holds(fpu, Dealloc(c, s).slots[t], n, t, now[t], g)
    {
      if t != s { HoldsFrame(fpu, c.slots[t], m, n, t, truth[t], g); }
    }
  }

  // ----- float arithmetic under aliasing -----

  /** What the theorem needs of the floating-point unit: addition and multiplication commute (all NaNs
      count as one), no operation sees the sign of a zero except a division by zero, and only the
      Integer zero converts to a zero, the positive one. */
  ghost predicate Lawful(fpu: Fpu) {
    && (forall a, b :: fpu.add(a, b) == fpu.add(b, a))
    && (forall a, b :: fpu.mul(a, b) == fpu.mul(b, a))
    && (forall op: FloatOp, a, a', b, b' ::
          Norm(a) == Norm(a') && Norm(b) == Norm(b') && (op.Div? ==> Norm(b) != POS_ZERO) ==>
            Norm(Apply(fpu, op, a, b)) == Norm(Apply(fpu, op, a', b')))
    && (forall i: int :: fpu.ofInt(i) != NEG_ZERO && (fpu.ofInt(i) == POS_ZERO <==> i == 0))
  }

  /** However the three registers coincide, the result register receives lhs op rhs and no register of
      the allocator but that one changes. */
  lemma {:induction false} FloatCodeEffect(fpu: Fpu, op: FloatOp, ret: Xmm, lhs: Xmm, rhs: Xmm, m: Machine)
    requires Lawful(fpu)
    ensures var o := Exec(fpu, FloatCode(op, ret, lhs, rhs), m);
            if op.Div? && m.xmm[Enc(rhs)] == POS_ZERO then o.Raised?
            else
              && o.Running? && o.m.stack == m.stack
              && o.m.xmm[Enc(ret)] == Apply(fpu, op, m.xmm[Enc(lhs)], m.xmm[Enc(rhs)])
              && forall x: Xmm :: x != ret ==> o.m.xmm[Enc(x)] == m.xmm[Enc(x)]
  {
    if ret == rhs { InPlace(fpu, op, ret, lhs, m); } else { Apart(fpu, op, ret, lhs, rhs, m); }
  }

  lemma {:induction false} Apart(fpu: Fpu, op: FloatOp, ret: Xmm, lhs: Xmm, rhs: Xmm, m: Machine)
    requires ret != rhs
    ensures var o := Exec(fpu, FloatCode(op, ret, lhs, rhs), m);
            if op.Div? && m.xmm[Enc(rhs)] == POS_ZERO then o.Raised?
            else
              && o.Running? && o.m.stack == m.stack
              && o.m.xmm[Enc(ret)] == Apply(fpu, op, m.xmm[Enc(lhs)], m.xmm[Enc(rhs)])
              && forall x: Xmm :: x != ret ==> o.m.xmm[Enc(x)] == m.xmm[Enc(x)]
  {
    var (t, l, r) := (Enc(ret), Enc(lhs), Enc(rhs));
    var m1 := if lhs == ret then m else m.(xmm := m.xmm[t := m.xmm[l]]);
    assert Exec(fpu, XmmMov(lhs, ret), m) == Running(m1);
    ArithEffect(fpu, op, t, r, m1);
    hide Exec; hide Step; hide Apply;
    ExecAppend(fpu, XmmMov(lhs, ret), ArithCode(op, t, r), m);
    assert FloatCode(op, ret, lhs, rhs) == XmmMov(lhs, ret) + ArithCode(op, t, r);
  }

  function ArithCode(op: FloatOp, t: PhysReg, r: PhysReg): seq<Inst> {
    if op.Div? then [RaiseIfZero(r), Arith(op, t, r)] else [Arith(op, t, r)]
  }

  lemma {:induction false} ArithEffect(fpu: Fpu, op: FloatOp, t: PhysReg, r: PhysReg, m: Machine)
    ensures Exec(fpu, ArithCode(op, t, r), m) ==
            if op.Div? && m.xmm[r] == POS_ZERO then Raised
            else Running(m.(xmm := m.xmm[t := Apply(fpu, op, m.xmm[t], m.xmm[r])]))
  {
    var last := [Arith(op, t, r)];
    var n := m.(xmm := m.xmm[t := Apply(fpu, op, m.xmm[t], m.xmm[r])]);
    assert Exec(fpu, last, m) == Running(n);
    assert op.Div? ==> ArithCode(op, t, r)[1..] == last;
  }

  lemma {:induction false} InPlace(fpu: Fpu, op: FloatOp, ret: Xmm, lhs: Xmm, m: Machine)
    requires Lawful(fpu)
    ensures var o := Exec(fpu, FloatCode(op, ret, lhs, ret), m);
            if op.Div? && m.xmm[Enc(ret)] == POS_ZERO then o.Raised?
            else
              && o.Running? && o.m.stack == m.stack
              && o.m.xmm[Enc(ret)] == Apply(fpu, op, m.xmm[Enc(lhs)], m.xmm[Enc(ret)])
              && forall x: Xmm :: x != ret ==> o.m.xmm[Enc(x)] == m.xmm[Enc(x)]
  {
    var (t, l) := (Enc(ret), Enc(lhs));
    if op.Sub? || op.Div? {
      var tail := [MovXmm(0, l), Arith(op, 0, t), MovXmm(t, 0)];
      var m1 := m.(xmm := m.xmm[0 := m.xmm[l]]);
      var m2 := m1.(xmm := m1.xmm[0 := Apply(fpu, op, m1.xmm[0], m1.xmm[t])]);
      var m3 := m2.(xmm := m2.xmm[t := m2.xmm[0]]);
      assert tail[1..] == [Arith(op, 0, t), MovXmm(t, 0)] && tail[1..][1..] == [MovXmm(t, 0)];
      assert Exec(fpu, tail[1..][1..], m2) == Running(m3);
      assert Exec(fpu, tail[1..], m1) == Running(m3);
      assert Exec(fpu, tail, m) == Running(m3);
      assert op.Div? ==> FloatCode(op, ret, lhs, ret)[1..] == tail;
    } else {
      assert fpu.add(m.xmm[t], m.xmm[l]) == fpu.add(m.xmm[l], m.xmm[t]);
      assert fpu.mul(m.xmm[t], m.xmm[l]) == fpu.mul(m.xmm[l], m.xmm[t]);
    }
  }
}
