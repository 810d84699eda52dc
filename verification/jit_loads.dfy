/** When a load of an operand leaves compiled code: exactly for values that are not of the class assumed. */
module JitLoads {
  import opened Prelude
  import opened JitMachine
  import opened JitContext
  import opened JitDeopt
  import opened JitRun
  import E = Encoding

  /** The values that a conversion lets through. A Bignum passes for a Float, because both are on the heap. */
  predicate Passes(v: Value, a: Assume) {
    match a
    case FloatOnly => v.Float? || v.Bignum?
    case IntegerOnly => v.Fixnum?
    case AnyNumber => v.Float? || v.Bignum? || v.Fixnum?
  }

  /** The double that stands for such a value. */
  predicate StandsFor(fpu: Fpu, f: F64, v: Value) {
    match v
    case Float(g) => f == g
    case Fixnum(i) => f == fpu.ofInt(i)
    case Bignum(n) => f == fpu.ofInt(n)
    case Other(_) => false
  }

  /** Whether a load is needed and refused. */
  predicate Refused(c: Ctx, m: Machine, s: SlotId, a: Assume)
    requires |c.slots| == |m.stack| && s < |c.slots|
  {
    c.slots[s].Unlinked? && !Passes(m.stack[s], a)
  }

  /** An unlinked slot is loaded if its value is of the class assumed, into a register that no slot has; otherwise the
      load exits and the interpreter gets the frame it would have got before. A linked slot needs no code. */
  lemma {:induction false} ReadExitsExactly(fpu: Fpu, c: Ctx, m: Machine, s: SlotId, a: Assume)
    requires Consistent(c) && |c.slots| == |m.stack| && s < |c.slots| && ReadSlot(c, s, a).Some?
    ensures var (d, code, x) := ReadSlot(c, s, a).value;
            var o := Exec(fpu, code, m);
            && !o.Raised? && (o.SideExit? <==> Refused(c, m, s, a))
            && (Linked(c, s) ==> d == c && o == Running(m) && x == c.slots[s].x)
            && (o.Running? && !Linked(c, s) ==>
                  && d.slots == c.slots[s := XmmR(x)] && c.xmm[x] == [] && o.m.stack == m.stack
                  && StandsFor(fpu, o.m.xmm[Enc(x)], m.stack[s])
                  && forall y: Xmm :: y != x ==> o.m.xmm[Enc(y)] == m.xmm[Enc(y)])
            && (o.SideExit? ==> Deoptimise(fpu, d, o.m) == Deoptimise(fpu, c, m))
  {
    hide WriteBackCode; hide Box;
    var (d, code, x) := ReadSlot(c, s, a).value;
    if c.slots[s].Unlinked? {
      LoadEffect(fpu, m, s, x, a);
      LinkConsistent(c, s, XmmR(x));
      if !Passes(m.stack[s], a) { SameExit(fpu, c, m, s, x, Exec(fpu, code, m).m); }
    }
  }

  /** A slot that has just been linked as readable is not written back. */
  lemma {:induction false} SameExit(fpu: Fpu, c: Ctx, m: Machine, s: SlotId, x: Xmm, n: Machine)
    requires Consistent(c) && |c.slots| == |m.stack| && s < |c.slots| && c.slots[s].Unlinked? && c.xmm[x] == []
    requires Consistent(Link(c, s, XmmR(x))) && n.stack == m.stack && n.xmm == m.xmm
    ensures Deoptimise(fpu, Link(c, s, XmmR(x)), n) == Deoptimise(fpu, c, m)
  {
    hide WriteBackCode; hide Box; hide Exec; hide Consistent;
    SizeIs(c);
    var d := Link(c, s, XmmR(x));
    SizeIs(d);
    WriteBackEffect(fpu, c, m, 0);
    WriteBackEffect(fpu, d, n, 0);
    assert Deoptimise(fpu, d, n) == Deoptimise(fpu, c, m);
  }

  lemma {:induction false} SizeIs(c: Ctx)
    requires Consistent(c)
    ensures |c.xmm| == NUM_XMM
  {}

  lemma {:induction false} RunReadExactly(fpu: Fpu, st: State, s: SlotId, a: Assume)
    requires Consistent(st.c) && Fits(st, |st.truth|) && s < |st.truth|
    ensures var r := RunRead(fpu, st, s, a);
            && (r.NoRegister? <==> st.c.slots[s].Unlinked? && FirstFree(st.c.xmm).None?)
            && (!r.NoRegister? ==> if Refused(st.c, st.m, s, a) then r == Deopted(Deoptimise(fpu, st.c, st.m), st.truth)
                                   else r.Going? && Loaded(st, r.st, s))
  {
    hide Exec; hide Deoptimise;
    if ReadSlot(st.c, s, a).Some? {
      ReadExitsExactly(fpu, st.c, st.m, s, a);
      if st.c.slots[s].Unlinked? { LinkConsistent(st.c, s, XmmR(FirstFree(st.c.xmm).value)); }
    }
  }

  /** A load changes no other link and no slot of the frame. */
  ghost predicate Loaded(st: State, next: State, s: SlotId) {
    && Consistent(next.c) && Fits(next, |st.truth|) && next.truth == st.truth && next.m.stack == st.m.stack
    && Linked(next.c, s)
    && (forall t: SlotId :: t < |st.c.slots| && t < |next.c.slots| && t != s ==> next.c.slots[t] == st.c.slots[t])
  }

  /** A float operation with enough registers leaves compiled code before it computes anything exactly if one of its
      operands has to be loaded and is not of the class assumed for it; the first one decides what is assumed if
      both are the same slot. */
  lemma {:induction false} BinopExitsExactly(
      fpu: Fpu, st: State, op: FloatOp, ret: SlotId, lhs: SlotId, rhs: SlotId, l: Assume, r: Assume)
    requires Lawful(fpu) && Consistent(st.c) && Fits(st, |st.truth|)
    requires ret < |st.truth| && lhs < |st.truth| && rhs < |st.truth|
    requires !RunBinop(fpu, st, op, ret, lhs, rhs, l, r).NoRegister?
    ensures RunBinop(fpu, st, op, ret, lhs, rhs, l, r).Deopted?
            <==> Refused(st.c, st.m, lhs, l) || (lhs != rhs && Refused(st.c, st.m, rhs, r))
  {
    hide RunRead; hide RunArith; hide Consistent; hide Exec; hide Lawful;
    RunReadExactly(fpu, st, lhs, l);
    var first := RunRead(fpu, st, lhs, l);
    if first.Going? {
      if lhs != rhs { RunReadExactly(fpu, first.st, rhs, r); }
      var second := if lhs == rhs then first else RunRead(fpu, first.st, rhs, r);
      if second.Going? { ArithNeverExits(fpu, second.st, op, ret, lhs, rhs); }
    }
  }

  lemma {:induction false} ArithNeverExits(
      fpu: Fpu, st: State, op: FloatOp, ret: SlotId, lhs: SlotId, rhs: SlotId)
    requires Lawful(fpu) && Fits(st, |st.truth|) && ret < |st.truth| && Linked(st.c, lhs) && Linked(st.c, rhs)
    ensures !RunArith(fpu, st, op, ret, lhs, rhs).Deopted?
  {
    hide FloatCode; hide Exec; hide XmmWrite; hide Interpret; hide Lawful;
    if XmmWrite(st.c, ret).Some? {
      FloatCodeEffect(fpu, op, XmmWrite(st.c, ret).value.1, st.c.slots[lhs].x, st.c.slots[rhs].x, st.m);
    }
  }

  // ----- what is assumed -----

  /** The class word of an operand decides what is assumed; the compiler has no code for other classes. */
  function AssumeOf(class_: nat): Option<Assume> {
    if class_ == 6 then Some(IntegerOnly) else if class_ == 7 then Some(FloatOnly) else None
  }

  /** An instruction that is decoded as a float operation has an assumption for each operand, and for one of them at
      least it is that of a Float. */
  lemma {:induction false} FloatOpsAssume(bc: E.Bc)
    requires E.FromBc(bc).Some? && E.FromBc(bc).value.TFloatBinOp?
    ensures var (l, r) := (AssumeOf(bc.op2 % 0x1_0000_0000), AssumeOf(bc.op2 / 0x1_0000_0000));
            l.Some? && r.Some? && (l == Some(FloatOnly) || r == Some(FloatOnly))
  {
    hide E.Opcode; hide E.Op1; hide E.Op2; hide E.Op3; hide E.LongOp; hide E.Quarter;
  }

  /** So two small Integers (of one class, if they are one slot) that have to be loaded are left to the interpreter,
      which divides them as integers. */
  lemma {:induction false} IntegersAreLeft(
      fpu: Fpu, st: State, op: FloatOp, bc: E.Bc, ret: SlotId, lhs: SlotId, rhs: SlotId, l: Assume, r: Assume)
    requires Lawful(fpu) && Consistent(st.c) && Fits(st, |st.truth|)
    requires ret < |st.truth| && lhs < |st.truth| && rhs < |st.truth| && (lhs == rhs ==> l == r)
    requires E.FromBc(bc).Some? && E.FromBc(bc).value.TFloatBinOp?
    requires AssumeOf(bc.op2 % 0x1_0000_0000) == Some(l) && AssumeOf(bc.op2 / 0x1_0000_0000) == Some(r)
    requires st.c.slots[lhs].Unlinked? && st.c.slots[rhs].Unlinked?
    requires st.m.stack[lhs].Fixnum? && st.m.stack[rhs].Fixnum?
    requires !RunBinop(fpu, st, op, ret, lhs, rhs, l, r).NoRegister?
    ensures RunBinop(fpu, st, op, ret, lhs, rhs, l, r).Deopted?
  {
    hide RunBinop; hide Consistent; hide Lawful; hide E.FromBc;
    FloatOpsAssume(bc);
    BinopExitsExactly(fpu, st, op, ret, lhs, rhs, l, r);
  }

  lemma {:induction false} EmptyDeopts(fpu: Fpu, n: nat, m: Machine)
    requires |m.stack| == n
    ensures |Empty(n).xmm| == NUM_XMM && Consistent(Empty(n)) && Deoptimise(fpu, Empty(n), m) == m.stack
  {
    hide WriteBackCode; hide Exec; hide Box;
    EmptyConsistent(n);
    WriteBackEffect(fpu, Empty(n), m, 0);
  }

  /** 7 / 2 from a frame that nothing has been loaded from yet: back to the interpreter, with its frame. */
  lemma {:induction false} IntegerDivisionExits(fpu: Fpu, st: State)
    requires Lawful(fpu) && st == State(Empty(3), st.m, [Fixnum(7), Fixnum(2), Other(0)]) && st.m.stack == st.truth
    ensures Fits(st, 3)
    ensures RunBinop(fpu, st, Div, 2, 0, 1, FloatOnly, FloatOnly) == Deopted(st.truth, st.truth)
  {
    hide RunRead; hide RunArith; hide Exec; hide Lawful; hide Deoptimise; hide Consistent;
    EmptyDeopts(fpu, 3, st.m);
    RunReadExactly(fpu, st, 0, FloatOnly);
    assert FirstFree(st.c.xmm) == Some(0);
  }
}
