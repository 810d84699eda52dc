/** The emitter: it appends to the code while it updates a basic block's context. */
module JitCodegen {
  import opened Prelude
  import opened JitMachine
  import opened JitContext
  import opened JitDeopt
  import opened JitMerge

  lemma {:induction false} Assoc<T>(a: seq<T>, b: seq<T>, c: seq<T>)
    ensures a + b + c == a + (b + c)
  {
  }

  class Codegen {
    var code: seq<Inst>

    constructor ()
      ensures code == []
    {
      code := [];
    }

    method GenWriteBackSingle(freg: Xmm, v: seq<SlotId>)
      modifies this
      ensures code == old(code) + WriteBackSingle(freg, v)
    {
      if v == [] { return; }
      code := code + [MovXmm(0, Enc(freg)), F64ToVal];
      ghost var before, stores := code, [];
      var i := 0;
      while i < |v|
        invariant i <= |v| && code == before + stores && stores + StoreAll(v[i..]) == StoreAll(v)
      {
        Assoc(before, stores, [StoreRax(v[i])]);
        Assoc(stores, [StoreRax(v[i])], StoreAll(v[i + 1..]));
        assert v[i..][1..] == v[i + 1..];
        stores := stores + [StoreRax(v[i])];
        code := code + [StoreRax(v[i])];
        i := i + 1;
      }
      Assoc(old(code), [MovXmm(0, Enc(freg)), F64ToVal], stores);
    }

    method FreeSlotOf(ctx: BBContext, target: seq<LinkMode>, reg: SlotId)
      requires |ctx.xmm| == NUM_XMM && reg < |ctx.stackSlot| == |target|
      modifies this, ctx
      ensures var (c, emitted) := FreeSlot(old(ctx.View()), target, reg);
              ctx.View() == c && code == old(code) + emitted
    {
      if target[reg].Unlinked? {
        match ctx.stackSlot[reg]
        case XmmRW(freg) =>
          var v := ctx.xmm[freg];
          var i := 0;
          while i < |v|
            invariant i <= |v| && ctx.xmm == old(ctx.xmm) && code == old(code)
            invariant |ctx.stackSlot| == |target|
            invariant RemodeAll(ctx.stackSlot, v[i..], freg) == RemodeAll(old(ctx.stackSlot), v, freg)
          {
            assert v[i..][1..] == v[i + 1..];
            if v[i] < |ctx.stackSlot| {
              ctx.stackSlot := ctx.stackSlot[v[i] := XmmR(freg)];
            }
            i := i + 1;
          }
          ctx.DeallocXmm(reg);
          GenWriteBackSingle(freg, v);
        case XmmR(_) => ctx.DeallocXmm(reg);
        case Unlinked =>
      }
    }

    method MoveSlotTo(ctx: BBContext, reg: SlotId, mode: LinkMode)
      requires |ctx.xmm| == NUM_XMM && Linked(ctx.View(), reg) && !mode.Unlinked?
      modifies this, ctx
      ensures var (c, emitted) := MoveSlot(old(ctx.View()), reg, mode);
              ctx.View() == c && code == old(code) + emitted
    {
      var l, r := ctx.stackSlot[reg].x, mode.x;
      if l == r {
        ctx.stackSlot := ctx.stackSlot[reg := mode];
      } else if ctx.xmm[r] == [] {
        code := code + [MovXmm(Enc(r), Enc(l))];
        ctx.DeallocXmm(reg);
        ctx.LinkXmm(reg, mode);
      } else {
        ctx.XmmSwap(l, r);
        code := code + ExchangeCode(l, r);
      }
    }

    method FreeAll(ctx: BBContext, target: seq<LinkMode>)
      requires Consistent(ctx.View()) && Joinable(ctx.stackSlot, target)
      modifies this, ctx
      ensures var (c, emitted) := FreeSlots(old(ctx.View()), target, 0);
              ctx.View() == c && code == old(code) + emitted
      ensures Joinable(ctx.stackSlot, target)
    {
      hide FreeSlot;
      ghost var src, emitted := ctx.View(), [];
      var i := 0;
      while i < |target|
        invariant i <= |target| == |ctx.stackSlot| && |ctx.xmm| == NUM_XMM
        invariant Joinable(ctx.stackSlot, target)
        invariant FreeSlots(src, target, 0).0 == FreeSlots(ctx.View(), target, i).0
        invariant code == old(code) + emitted
        invariant FreeSlots(src, target, 0).1 == emitted + FreeSlots(ctx.View(), target, i).1
      {
        FreeSlotJoinable(ctx.View(), target, i);
        ghost var step := FreeSlot(ctx.View(), target, i);
        Assoc(old(code), emitted, step.1);
        Assoc(emitted, step.1, FreeSlots(step.0, target, i + 1).1);
        emitted := emitted + step.1;
        FreeSlotOf(ctx, target, i);
        i := i + 1;
      }
    }

    /** One slot of the second pass, with the conversions and guards found so far. */
    method PlaceSlotOf(
        ctx: BBContext, target: seq<LinkMode>, reg: SlotId, conv: seq<(SlotId, Xmm)>, guards: seq<SlotId>)
        returns (conv': seq<(SlotId, Xmm)>, guards': seq<SlotId>)
      requires |ctx.xmm| == NUM_XMM && reg < |ctx.stackSlot| == |target|
      requires !(ctx.stackSlot[reg].Unlinked? && target[reg].XmmRW?)
      modifies this, ctx
      ensures var e := PlaceSlot(Edge(old(ctx.View()), [], conv, guards), target, reg);
              ctx.View() == e.ctx && code == old(code) + e.code && conv' == e.conv && guards' == e.guards
    {
      hide MoveSlot; hide WriteBackSingle; hide Link;
      conv', guards' := conv, guards;
      var now, mode := ctx.stackSlot[reg], target[reg];
      if mode.Unlinked? {
      } else if now.Unlinked? {
        ctx.LinkXmm(reg, mode);
        conv' := conv + [(reg, mode.x)];
      } else {
        ghost var store := if now.XmmRW? && mode.XmmR? then WriteBackSingle(now.x, [reg]) else [];
        Assoc(code, store, MoveSlot(ctx.View(), reg, mode).1);
        if now.XmmRW? && mode.XmmR? { GenWriteBackSingle(now.x, [reg]); }
        MoveSlotTo(ctx, reg, mode);
        if now.XmmR? && mode.XmmRW? { guards' := guards + [reg]; }
      }
    }

    method PlaceAll(ctx: BBContext, target: seq<LinkMode>) returns (conv: seq<(SlotId, Xmm)>, guards: seq<SlotId>)
      requires |ctx.xmm| == NUM_XMM && Joinable(ctx.stackSlot, target)
      modifies this, ctx
      ensures var e := PlaceSlots(Edge(old(ctx.View()), [], [], []), target, 0);
              ctx.View() == e.ctx && code == old(code) + e.code && conv == e.conv && guards == e.guards
    {
      ghost var e := Edge(ctx.View(), [], [], []);
      ghost var last := PlaceSlots(e, target, 0);
      conv, guards := [], [];
      var i := 0;
      while i < |target|
        invariant i <= |target| == |ctx.stackSlot| && |ctx.xmm| == NUM_XMM
        invariant e.ctx == ctx.View() && e.conv == conv && e.guards == guards && code == old(code) + e.code
        invariant last == PlaceSlots(e, target, i)
        invariant forall s :: i <= s < |target| ==> !(ctx.stackSlot[s].Unlinked? && target[s].XmmRW?)
      {
        hide PlaceSlot;
        OtherLinksStay(e, target, i);
        CodeIsAppended(e, target, i);
        Assoc(old(code), e.code, PlaceSlot(e.(code := []), target, i).code);
        e := PlaceSlot(e, target, i);
        conv, guards := PlaceSlotOf(ctx, target, i, conv, guards);
        i := i + 1;
      }
    }

    /** Emits the edge from `ctx` to `target`; `exit` is the code of its side exit. */
    method GenWriteBackForTarget(ctx: BBContext, target: seq<LinkMode>) returns (exit: seq<Inst>)
      requires Consistent(ctx.View()) && Joinable(ctx.stackSlot, target)
      modifies this, ctx
      ensures code == old(code) + EdgeCode(old(ctx.View()), target).0
      ensures exit == WriteBackCode(EdgeCode(old(ctx.View()), target).1, 0)
    {
      ghost var (c, free) := FreeSlots(ctx.View(), target, 0);
      ghost var e := PlaceSlots(Edge(c, [], [], []), target, 0);
      FreeAll(ctx, target);
      var conv, guards := PlaceAll(ctx, target);
      var checks := ConvCode(conv) + GuardCode(guards);
      Assoc(old(code), free, e.code);
      Assoc(old(code), free + e.code, checks);
      Assoc(free, e.code, checks);
      code := code + checks;
      exit := WriteBackCode(ctx.View(), 0);
    }

    // ----- within a block -----

    method CopySlotTo(ctx: BBContext, src: SlotId, dst: SlotId)
      requires |ctx.xmm| == NUM_XMM && src < |ctx.stackSlot| && dst < |ctx.stackSlot| && src != dst
      modifies this, ctx
      ensures var (c, emitted) := CopySlot(old(ctx.View()), src, dst);
              ctx.View() == c && code == old(code) + emitted
    {
      ctx.DeallocXmm(dst);
      if !ctx.stackSlot[src].Unlinked? {
        ctx.LinkXmm(dst, XmmRW(ctx.stackSlot[src].x));
      } else {
        code := code + [LoadRax(src), StoreRax(dst)];
      }
    }

    method WriteBack(ctx: BBContext, reg: SlotId)
      requires |ctx.xmm| == NUM_XMM && reg < |ctx.stackSlot|
      modifies this, ctx
      ensures var (c, emitted) := WriteBackSlot(old(ctx.View()), reg);
              ctx.View() == c && code == old(code) + emitted
    {
      if ctx.stackSlot[reg].XmmRW? {
        var freg := ctx.stackSlot[reg].x;
        GenWriteBackSingle(freg, [reg]);
        ctx.stackSlot := ctx.stackSlot[reg := XmmR(freg)];
      }
    }

    /** Reads a slot as a double; `exit` is the code of the side exit its conversion may take. */
    method XmmReadAssume(ctx: BBContext, reg: SlotId, assume_: Assume) returns (freg: Xmm, exit: seq<Inst>)
      requires |ctx.xmm| == NUM_XMM && reg < |ctx.stackSlot|
      requires ReadSlot(ctx.View(), reg, assume_).Some?
      modifies this, ctx
      ensures var (c, emitted, x) := ReadSlot(old(ctx.View()), reg, assume_).value;
              ctx.View() == c && code == old(code) + emitted && freg == x && exit == WriteBackCode(c, 0)
    {
      if !ctx.stackSlot[reg].Unlinked? {
        freg := ctx.stackSlot[reg].x;
      } else {
        freg := ctx.AllocXmm();
        ctx.LinkXmm(reg, XmmR(freg));
        code := code + [LoadRdi(reg), ValToF64(Enc(freg), assume_)];
      }
      exit := WriteBackCode(ctx.View(), 0);
    }

    method GenBinopFloat(op: FloatOp, ret: Xmm, lhs: Xmm, rhs: Xmm)
      modifies this
      ensures code == old(code) + FloatCode(op, ret, lhs, rhs)
    {
      var t, l, r := Enc(ret), Enc(lhs), Enc(rhs);
      if ret == rhs {
        match op
        case Add => code := code + [Arith(Add, t, l)];
        case Mul => code := code + [Arith(Mul, t, l)];
        case Sub => code := code + [MovXmm(0, l), Arith(Sub, 0, t), MovXmm(t, 0)];
        case Div => code := code + [RaiseIfZero(t), MovXmm(0, l), Arith(Div, 0, t), MovXmm(t, 0)];
      } else {
        var tail := if op.Div? then [RaiseIfZero(r), Arith(op, t, r)] else [Arith(op, t, r)];
        Assoc(code, XmmMov(lhs, ret), tail);
        if lhs != ret { code := code + [MovXmm(t, l)]; }
        code := code + tail;
      }
    }
  }
}
