/** Code on the edge between two basic blocks: it turns the linkage the source block ends with into
    the linkage the target block starts with, by stores, moves, exchanges, conversions and guards. */
module JitMerge {
  import opened Prelude
  import opened JitMachine
  import opened JitContext

  // ----- the code, as a function of the two linkages -----

  function RemodeAll(slots: seq<LinkMode>, v: seq<SlotId>, x: Xmm): (r: seq<LinkMode>)
    ensures |r| == |slots|
    ensures forall s: SlotId :: s < |slots| ==> r[s] == if s in v then XmmR(x) else slots[s]
    decreases |v|
  {
    if v == [] then slots
    else RemodeAll(if v[0] < |slots| then slots[v[0] := XmmR(x)] else slots, v[1..], x)
  }

  /** First pass: a slot the target does not link is written back if stale, then unlinked. */
  function FreeSlot(c: Ctx, target: seq<LinkMode>, s: SlotId): (r: (Ctx, seq<Inst>))
    requires |c.xmm| == NUM_XMM && s < |c.slots| == |target|
    ensures |r.0.xmm| == NUM_XMM && |r.0.slots| == |c.slots|
  {
    if !target[s].Unlinked? then (c, [])
    else match c.slots[s]
      case XmmRW(x) =>
        var v := c.xmm[x];
        (Dealloc(c.(slots := RemodeAll(c.slots, v, x)), s), WriteBackSingle(x, v))
      case XmmR(_) => (Dealloc(c, s), [])
      case Unlinked => (c, [])
  }

  function FreeSlots(c: Ctx, target: seq<LinkMode>, from: SlotId): (r: (Ctx, seq<Inst>))
    requires |c.xmm| == NUM_XMM && from <= |c.slots| == |target|
    ensures |r.0.xmm| == NUM_XMM && |r.0.slots| == |c.slots|
    decreases |target| - from
  {
    if from == |target| then (c, [])
    else
      var (d, code) := FreeSlot(c, target, from);
      var (e, rest) := FreeSlots(d, target, from + 1);
      (e, code + rest)
  }

  /** The second pass: context, code so far, conversions and guards still to be emitted. */
  datatype Edge = Edge(ctx: Ctx, code: seq<Inst>, conv: seq<(SlotId, Xmm)>, guards: seq<SlotId>)

  function ExchangeCode(l: Xmm, r: Xmm): seq<Inst> {
    [MovXmm(0, Enc(l)), MovXmm(Enc(l), Enc(r)), MovXmm(Enc(r), 0)]
  }

  function MoveSlot(c: Ctx, s: SlotId, mode: LinkMode): (Ctx, seq<Inst>)
    requires |c.xmm| == NUM_XMM && Linked(c, s) && !mode.Unlinked?
  {
    var (l, r) := (c.slots[s].x, mode.x);
    if l == r then (c.(slots := c.slots[s := mode]), [])
    else if c.xmm[r] == [] then (Link(Dealloc(c, s), s, mode), [MovXmm(Enc(r), Enc(l))])
    else (Swap(c, l, r), ExchangeCode(l, r))
  }

  /** No slot goes from the stack alone to a register alone: there would be no code for that. */
  ghost predicate Joinable(src: seq<LinkMode>, target: seq<LinkMode>) {
    && |src| == |target|
    && forall s :: 0 <= s < |src| ==> !(src[s].Unlinked? && target[s].XmmRW?)
  }

  lemma {:induction false} FreeSlotJoinable(c: Ctx, target: seq<LinkMode>, s: SlotId)
    requires |c.xmm| == NUM_XMM && s < |c.slots| && Joinable(c.slots, target)
    ensures Joinable(FreeSlot(c, target, s).0.slots, target)
  {
  }

  function PlaceSlot(e: Edge, target: seq<LinkMode>, s: SlotId): (f: Edge)
    requires |e.ctx.xmm| == NUM_XMM && s < |e.ctx.slots| == |target|
    ensures |f.ctx.xmm| == NUM_XMM && |f.ctx.slots| == |e.ctx.slots|
  {
    var (now, mode) := (e.ctx.slots[s], target[s]);
    if mode.Unlinked? || (now.Unlinked? && mode.XmmRW?) then e  // the second case is unreachable
    else if now.Unlinked? then e.(ctx := Link(e.ctx, s, mode), conv := e.conv + [(s, mode.x)])
    else
      var store := if now.XmmRW? && mode.XmmR? then WriteBackSingle(now.x, [s]) else [];
      var (d, move) := MoveSlot(e.ctx, s, mode);
      e.(ctx := d, code := e.code + store + move,
         guards := if now.XmmR? && mode.XmmRW? then e.guards + [s] else e.guards)
  }

  function ConvCode(conv: seq<(SlotId, Xmm)>): seq<Inst> {
    if conv == [] then []
    else [LoadRdi(conv[0].0), ValToF64(Enc(conv[0].1), AnyNumber)] + ConvCode(conv[1..])
  }

  function GuardCode(guards: seq<SlotId>): seq<Inst> {
    if guards == [] then [] else [GuardFloat(guards[0])] + GuardCode(guards[1..])
  }

  // ----- first pass -----

  /** The first k steps have written slot s back: because some stale slot with the same register had to go,
      before s itself did. */
  ghost predicate Spilled(src: seq<LinkMode>, target: seq<LinkMode>, s: SlotId, k: nat) {
    s < |src| == |target| && !src[s].Unlinked? &&
    exists t: SlotId :: t < k && t < |src| && SpilledBy(src, target, s, t)
  }

  ghost predicate SpilledBy(src: seq<LinkMode>, target: seq<LinkMode>, s: SlotId, t: SlotId)
    requires s < |src| == |target| && t < |src| && !src[s].Unlinked?
  {
    target[t].Unlinked? && src[t] == XmmRW(src[s].x) && (!target[s].Unlinked? || t <= s)
  }

  /** Slot s between the machine before the pass and now. */
  ghost predicate SlotFreed(
      src: seq<LinkMode>, target: seq<LinkMode>, m0: Machine, c: Ctx, m: Machine, s: SlotId, k: nat)
    requires s < |src| == |target| == |m0.stack| == |m.stack| == |c.slots|
  {
    var spilled := Spilled(src, target, s, k);
    && c.slots[s] == (if s < k && target[s].Unlinked? then Unlinked else if spilled then XmmR(src[s].x) else src[s])
    && m.stack[s] == (if spilled then Box(m0.xmm[Enc(src[s].x)]) else m0.stack[s])
  }

  ghost predicate Freed(src: Ctx, m0: Machine, target: seq<LinkMode>, c: Ctx, m: Machine, k: nat) {
    && Consistent(c) && SameFile(m0, m)
    && |src.slots| == |c.slots| == |target| == |m0.stack| == |m.stack|
    && forall s: SlotId :: s < |target| ==> SlotFreed(src.slots, target, m0, c, m, s, k)
  }

  lemma {:induction false} SpilledNext(src: seq<LinkMode>, target: seq<LinkMode>, s: SlotId, k: SlotId)
    requires s < |src| == |target| && k < |src| && !src[s].Unlinked?
    ensures Spilled(src, target, s, k + 1) <==> Spilled(src, target, s, k) || SpilledBy(src, target, s, k)
  {}

  /** Nothing new is spilled by a slot that stays, or that another one has spilled already. */
  lemma {:induction false} NothingSpilled(src: seq<LinkMode>, target: seq<LinkMode>, s: SlotId, k: SlotId)
    requires s < |src| == |target| && k < |src| && !src[s].Unlinked?
    requires !target[k].Unlinked? || !src[k].XmmRW? || Spilled(src, target, k, k)
    ensures Spilled(src, target, s, k + 1) <==> Spilled(src, target, s, k)
  {
    SpilledNext(src, target, s, k);
    if target[k].Unlinked? && SpilledBy(src, target, s, k) {
      var t: SlotId :| t < k && SpilledBy(src, target, k, t);
      assert SpilledBy(src, target, s, t);
    }
  }

  lemma {:induction false} FreeSlotStep(
      fpu: Fpu, src: Ctx, m0: Machine, target: seq<LinkMode>, c: Ctx, m: Machine, k: SlotId)
    requires k < |target| && Freed(src, m0, target, c, m, k)
    ensures var (d, code) := FreeSlot(c, target, k);
            var o := Exec(fpu, code, m);
            o.Running? && Freed(src, m0, target, d, o.m, k + 1)
  {
    hide Spilled; hide Exec; hide WriteBackSingle;
    assert SlotFreed(src.slots, target, m0, c, m, k, k);
    if target[k].Unlinked? && c.slots[k].XmmRW? {
      FreeStaleSlot(fpu, src, m0, target, c, m, k);
    } else {
      var (d, code) := FreeSlot(c, target, k);
      var next := k + 1;
      assert Exec(fpu, code, m) == Running(m) by { NoCode(fpu, m); }
      if target[k].Unlinked? { DeallocConsistent(c, k); }
      forall s: SlotId | s < |target|
        ensures SlotFreed(src.slots, target, m0, d, m, s, next)
      {
        assert SlotFreed(src.slots, target, m0, c, m, s, k);
        if src.slots[s].Unlinked? {
          UnlinkedNotSpilled(src.slots, target, s, k);
        } else {
          NothingSpilled(src.slots, target, s, k);
        }
      }
    }
  }

  lemma {:induction false} UnlinkedNotSpilled(src: seq<LinkMode>, target: seq<LinkMode>, s: SlotId, k: nat)
    requires s < |src| && src[s].Unlinked?
    ensures !Spilled(src, target, s, k) && !Spilled(src, target, s, k + 1)
  {}

  /** The stale slot k goes, and everybody who shares its register is written back with it. */
  lemma {:induction false} FreeStaleSlot(
      fpu: Fpu, src: Ctx, m0: Machine, target: seq<LinkMode>, c: Ctx, m: Machine, k: SlotId)
    requires k < |target| && Freed(src, m0, target, c, m, k) && target[k].Unlinked? && c.slots[k].XmmRW?
    ensures var (d, code) := FreeSlot(c, target, k);
            var o := Exec(fpu, code, m);
            o.Running? && Freed(src, m0, target, d, o.m, k + 1)
  {
    hide Spilled; hide Exec; hide WriteBackSingle; hide Box;
    var x := c.slots[k].x;
    var v := c.xmm[x];
    var c1 := c.(slots := RemodeAll(c.slots, v, x));
    assert SlotFreed(src.slots, target, m0, c, m, k, k);
    RemodeAllConsistent(c, x);
    DeallocConsistent(c1, k);
    WriteBackSingleEffect(fpu, x, v, m);
    var (d, code) := FreeSlot(c, target, k);
    var next := k + 1;
    var n := Exec(fpu, code, m).m;
    forall s: SlotId | s < |target|
      ensures SlotFreed(src.slots, target, m0, d, n, s, next)
    {
      assert s in v <==> Linked(c, s) && c.slots[s].x == x;
      StaleSlotFreed(src.slots, target, m0, c, m, d, n, s, k);
    }
  }

  lemma {:induction false} StaleSlotFreed(
      src: seq<LinkMode>, target: seq<LinkMode>, m0: Machine, c: Ctx, m: Machine, d: Ctx, n: Machine, s: SlotId,
      k: SlotId)
    requires s < |src| && k < |src| == |target| == |m0.stack| == |m.stack| == |c.slots| == |d.slots| == |n.stack|
    requires SlotFreed(src, target, m0, c, m, s, k) && SlotFreed(src, target, m0, c, m, k, k) && SameFile(m0, m)
    requires target[k].Unlinked? && c.slots[k].XmmRW?
    requires var sharer := Linked(c, s) && c.slots[s].x == c.slots[k].x;
             && d.slots[s] == (if s == k then Unlinked else if sharer then XmmR(c.slots[k].x) else c.slots[s])
             && n.stack[s] == (if sharer then Box(m.xmm[Enc(c.slots[k].x)]) else m.stack[s])
    ensures SlotFreed(src, target, m0, d, n, s, k + 1)
  {
    hide Spilled; hide Box;
    if src[s].Unlinked? {
      UnlinkedNotSpilled(src, target, s, k);
    } else {
      SpilledNext(src, target, s, k);
    }
  }

  lemma {:induction false} RemodeAllConsistent(c: Ctx, x: Xmm)
    requires Consistent(c)
    ensures Consistent(c.(slots := RemodeAll(c.slots, c.xmm[x], x)))
  {
    var d := c.(slots := RemodeAll(c.slots, c.xmm[x], x));
    forall y: Xmm, s: SlotId
      ensures s in d.xmm[y] <==> Linked(d, s) && d.slots[s].x == y
    {
      assert s in c.xmm[y] <==> Linked(c, s) && c.slots[s].x == y;
      assert s in c.xmm[x] <==> Linked(c, s) && c.slots[s].x == x;
    }
  }

  lemma {:induction false} FreeSlotsEffect(
      fpu: Fpu, src: Ctx, m0: Machine, target: seq<LinkMode>, c: Ctx, m: Machine, from: SlotId)
    requires from <= |target| && Freed(src, m0, target, c, m, from)
    ensures var (d, code) := FreeSlots(c, target, from);
            var o := Exec(fpu, code, m);
            o.Running? && Freed(src, m0, target, d, o.m, |target|)
    decreases |target| - from
  {
    hide Freed; hide FreeSlot;
    FreedSizes(src, m0, target, c, m, from);
    if from < |target| {
      FreeSlotStep(fpu, src, m0, target, c, m, from);
      var (d, code) := FreeSlot(c, target, from);
      var m1 := Exec(fpu, code, m).m;
      FreedSizes(src, m0, target, d, m1, from + 1);
      FreeSlotsEffect(fpu, src, m0, target, d, m1, from + 1);
      ExecAppend(fpu, code, FreeSlots(d, target, from + 1).1, m);
    }
  }

  lemma {:induction false} FreedSizes(src: Ctx, m0: Machine, target: seq<LinkMode>, c: Ctx, m: Machine, k: nat)
    requires Freed(src, m0, target, c, m, k)
    ensures |c.xmm| == NUM_XMM && |c.slots| == |target|
  {}

  // ----- second pass: where every register's content comes from -----

  /** For each register, the register that held its content when the pass began. */
  type Origins = o: seq<Xmm> | |o| == NUM_XMM witness seq(NUM_XMM, _ => 0)

  function Identity(): Origins {
    seq(NUM_XMM, x requires 0 <= x < NUM_XMM => x)
  }

  function MoveOrigins(c: Ctx, s: SlotId, mode: LinkMode, o: Origins): Origins
    requires |c.xmm| == NUM_XMM && Linked(c, s) && !mode.Unlinked?
  {
    var (l, r) := (c.slots[s].x, mode.x);
    if l == r then o else if c.xmm[r] == [] then o[r := o[l]] else o[l := o[r]][r := o[l]]
  }

  function PlaceOrigins(c: Ctx, target: seq<LinkMode>, s: SlotId, o: Origins): Origins
    requires |c.xmm| == NUM_XMM && s < |c.slots| == |target|
  {
    if target[s].Unlinked? || c.slots[s].Unlinked? then o else MoveOrigins(c, s, target[s], o)
  }

  function PlaceSlots(e: Edge, target: seq<LinkMode>, from: SlotId): (f: Edge)
    requires |e.ctx.xmm| == NUM_XMM && from <= |e.ctx.slots| == |target|
    ensures |f.ctx.xmm| == NUM_XMM && |f.ctx.slots| == |e.ctx.slots|
    decreases |target| - from
  {
    if from == |target| then e else PlaceSlots(PlaceSlot(e, target, from), target, from + 1)
  }

  function FinalOrigins(e: Edge, target: seq<LinkMode>, from: SlotId, o: Origins): Origins
    requires |e.ctx.xmm| == NUM_XMM && from <= |e.ctx.slots| == |target|
    decreases |target| - from
  {
    if from == |target| then o
    else FinalOrigins(PlaceSlot(e, target, from), target, from + 1, PlaceOrigins(e.ctx, target, from, o))
  }

  /** What the compiler knows of one slot: a mover's content is in the register the context names. */
  predicate SlotTraced(from: LinkMode, mode: LinkMode, now: LinkMode, o: Origins, done: bool) {
    if mode.Unlinked? then now.Unlinked?
    else if from.Unlinked? then (if done then now.XmmR? else now.Unlinked?)
    else
      && !now.Unlinked? && o[now.x] == from.x
      && (if done then
            (now.XmmRW? ==> from.XmmRW? || mode.XmmRW?) && (now.XmmR? ==> from.XmmR? || mode.XmmR?)
          else now.XmmR? == from.XmmR?)
  }

  ghost predicate Traced(c0: Ctx, target: seq<LinkMode>, c: Ctx, o: Origins, k: nat) {
    && |c0.slots| == |target| == |c.slots| && Consistent(c)
    && forall s: SlotId :: s < |target| ==> SlotTraced(c0.slots[s], target[s], c.slots[s], o, s < k)
  }

  /** Slots other than s keep their kind of link, and move only with their register's content. */
  lemma {:induction false} MoveSlotTraced(c: Ctx, s: SlotId, mode: LinkMode, o: Origins)
    requires Consistent(c) && Linked(c, s) && !mode.Unlinked?
    ensures var (d, p) := (MoveSlot(c, s, mode).0, MoveOrigins(c, s, mode, o));
            && Consistent(d) && |d.slots| == |c.slots|
            && (forall t: SlotId :: t < |c.slots| && t != s ==>
                  && d.slots[t].Unlinked? == c.slots[t].Unlinked? && d.slots[t].XmmR? == c.slots[t].XmmR?
                  && (Linked(c, t) ==> p[d.slots[t].x] == o[c.slots[t].x]))
            && Linked(d, s) && d.slots[s].x == mode.x && p[mode.x] == o[c.slots[s].x]
            && (d.slots[s].XmmR? == mode.XmmR? || d.slots[s].XmmR? == c.slots[s].XmmR?)
  {
    var (l, r) := (c.slots[s].x, mode.x);
    if l == r {
      RemodeConsistent(c, s, mode);
    } else if c.xmm[r] == [] {
      DeallocConsistent(c, s);
      LinkConsistent(Dealloc(c, s), s, mode);
      forall t: SlotId | Linked(c, t)
        ensures c.slots[t].x != r
      {
        assert t in c.xmm[c.slots[t].x];
      }
    } else {
      SwapConsistent(c, l, r);
    }
  }

  lemma {:induction false} PlaceSlotTraced(c0: Ctx, target: seq<LinkMode>, e: Edge, o: Origins, s: SlotId)
    requires s < |target| && Traced(c0, target, e.ctx, o, s) && Joinable(c0.slots, target)
    ensures Traced(c0, target, PlaceSlot(e, target, s).ctx, PlaceOrigins(e.ctx, target, s, o), s + 1)
  {
    hide MoveSlot; hide MoveOrigins; hide Consistent; hide WriteBackSingle;
    SizeOf(e.ctx);
    var (c, d, p) := (e.ctx, PlaceSlot(e, target, s).ctx, PlaceOrigins(e.ctx, target, s, o));
    assert SlotTraced(c0.slots[s], target[s], c.slots[s], o, false);
    if !target[s].Unlinked? {
      if c.slots[s].Unlinked? { LinkConsistent(c, s, target[s]); } else { MoveSlotTraced(c, s, target[s], o); }
    }
    forall t: SlotId | t < |target|
      ensures SlotTraced(c0.slots[t], target[t], d.slots[t], p, t < s + 1)
    {
      assert SlotTraced(c0.slots[t], target[t], c.slots[t], o, t < s);
    }
  }

  lemma {:induction false} SizeOf(c: Ctx)
    requires Consistent(c)
    ensures |c.xmm| == NUM_XMM
  {}

  // ----- second pass: what the code does -----

  ghost predicate Tracks(m0: Machine, m: Machine, o: Origins) {
    forall x: Xmm :: m.xmm[Enc(x)] == m0.xmm[Enc(o[x])]
  }

  lemma {:induction false} ExchangeEffect(fpu: Fpu, m: Machine, l: Xmm, r: Xmm)
    requires l != r
    ensures Exec(fpu, ExchangeCode(l, r), m) ==
            Running(m.(xmm := m.xmm[0 := m.xmm[Enc(l)]][Enc(l) := m.xmm[Enc(r)]][Enc(r) := m.xmm[Enc(l)]]))
  {
    var code := ExchangeCode(l, r);
    var m1 := m.(xmm := m.xmm[0 := m.xmm[Enc(l)]]);
    var m2 := m1.(xmm := m1.xmm[Enc(l) := m1.xmm[Enc(r)]]);
    var m3 := m2.(xmm := m2.xmm[Enc(r) := m2.xmm[0]]);
    assert code[1..] == [MovXmm(Enc(l), Enc(r)), MovXmm(Enc(r), 0)];
    assert code[1..][1..] == [MovXmm(Enc(r), 0)];
    assert Exec(fpu, code[1..][1..], m2) == Running(m3);
    assert Exec(fpu, code[1..], m1) == Running(m3);
  }

  lemma {:induction false} MoveSlotEffect(
      fpu: Fpu, m0: Machine, c: Ctx, m: Machine, s: SlotId, mode: LinkMode, o: Origins)
    requires |c.xmm| == NUM_XMM && Linked(c, s) && !mode.Unlinked? && Tracks(m0, m, o)
    ensures var out := Exec(fpu, MoveSlot(c, s, mode).1, m);
            out.Running? && out.m.stack == m.stack && Tracks(m0, out.m, MoveOrigins(c, s, mode, o))
  {
    var (l, r) := (c.slots[s].x, mode.x);
    if l != r && c.xmm[r] != [] {
      hide Exec;
      ExchangeEffect(fpu, m, l, r);
    }
  }

  /** The lists of pending work name exactly the slots below k that need it. */
  ghost predicate Pending(c0: Ctx, target: seq<LinkMode>, e: Edge, k: nat) {
    && |c0.slots| == |target|
    && (forall s: SlotId, r: Xmm :: (s, r) in e.conv <==>
          s < k && s < |target| && c0.slots[s].Unlinked? && target[s] == XmmR(r))
    && (forall s: SlotId :: s in e.guards <==>
          s < k && s < |target| && c0.slots[s].XmmR? && target[s].XmmRW?)
  }

  /** A stale slot that the target wants valid on the stack has been stored. */
  ghost predicate Stored(c0: Ctx, m0: Machine, target: seq<LinkMode>, m: Machine, k: nat) {
    && |c0.slots| == |target| == |m0.stack| == |m.stack|
    && forall s: SlotId :: s < |target| ==>
         m.stack[s] == if s < k && c0.slots[s].XmmRW? && target[s].XmmR?
                       then Box(m0.xmm[Enc(c0.slots[s].x)]) else m0.stack[s]
  }

  ghost predicate Progress(
      fpu: Fpu, c0: Ctx, m0: Machine, target: seq<LinkMode>, e: Edge, o: Origins, k: nat)
  {
    var out := Exec(fpu, e.code, m0);
    && out.Running? && Traced(c0, target, e.ctx, o, k) && Tracks(m0, out.m, o) && Stored(c0, m0, target, out.m, k)
    && Pending(c0, target, e, k)
  }

  lemma {:induction false} PlaceSlotStep(
      fpu: Fpu, c0: Ctx, m0: Machine, target: seq<LinkMode>, e: Edge, o: Origins, s: SlotId)
    requires s < |target| && Progress(fpu, c0, m0, target, e, o, s) && Joinable(c0.slots, target)
    ensures |e.ctx.xmm| == NUM_XMM && |e.ctx.slots| == |target|
    ensures Progress(fpu, c0, m0, target, PlaceSlot(e, target, s), PlaceOrigins(e.ctx, target, s, o), s + 1)
  {
    hide Exec; hide MoveSlot; hide MoveOrigins; hide WriteBackSingle; hide Consistent; hide Box;
    SizeOf(e.ctx);
    PlaceSlotTraced(c0, target, e, o, s);
    assert SlotTraced(c0.slots[s], target[s], e.ctx.slots[s], o, false);
    if !target[s].Unlinked? && !c0.slots[s].Unlinked? {
      PlaceMover(fpu, c0, m0, target, e, o, s);
    }
  }

  lemma {:induction false} PlaceMover(
      fpu: Fpu, c0: Ctx, m0: Machine, target: seq<LinkMode>, e: Edge, o: Origins, s: SlotId)
    requires s < |target| && Progress(fpu, c0, m0, target, e, o, s)
    requires |e.ctx.xmm| == NUM_XMM && !target[s].Unlinked? && !c0.slots[s].Unlinked?
    ensures var f := PlaceSlot(e, target, s);
            var out := Exec(fpu, f.code, m0);
            && out.Running? && Tracks(m0, out.m, PlaceOrigins(e.ctx, target, s, o))
            && Stored(c0, m0, target, out.m, s + 1)
  {
    hide Exec; hide MoveSlot; hide MoveOrigins; hide WriteBackSingle; hide Consistent; hide Box; hide Tracks;
    hide Pending;
    var c, m, mode := e.ctx, Exec(fpu, e.code, m0).m, target[s];
    assert SlotTraced(c0.slots[s], mode, c.slots[s], o, false);
    var now := c.slots[s];
    var store := if now.XmmRW? && mode.XmmR? then WriteBackSingle(now.x, [s]) else [];
    var move := MoveSlot(c, s, mode).1;
    WriteBackSingleEffect(fpu, now.x, [s], m);
    NoCode(fpu, m);
    var m1 := Exec(fpu, store, m).m;
    TracksAt(m0, m, o, now.x);
    assert Tracks(m0, m1, o) by { TracksFile(m0, m, m1, o); }
    MoveSlotEffect(fpu, m0, c, m1, s, mode, o);
    var f := PlaceSlot(e, target, s);
    assert f.code == e.code + (store + move);
    ExecAppend(fpu, e.code, store + move, m0);
    ExecAppend(fpu, store, move, m);
  }

  lemma {:induction false} TracksAt(m0: Machine, m: Machine, o: Origins, x: Xmm)
    requires Tracks(m0, m, o)
    ensures m.xmm[Enc(x)] == m0.xmm[Enc(o[x])]
  {}

  lemma {:induction false} TracksFile(m0: Machine, m: Machine, n: Machine, o: Origins)
    requires Tracks(m0, m, o) && SameFile(m, n)
    ensures Tracks(m0, n, o)
  {}

  lemma {:induction false} PlaceSlotsEffect(
      fpu: Fpu, c0: Ctx, m0: Machine, target: seq<LinkMode>, e: Edge, o: Origins, from: SlotId)
    requires from <= |target| && Progress(fpu, c0, m0, target, e, o, from) && Joinable(c0.slots, target)
    ensures |e.ctx.xmm| == NUM_XMM && |e.ctx.slots| == |target|
    ensures Progress(
      fpu, c0, m0, target, PlaceSlots(e, target, from), FinalOrigins(e, target, from, o), |target|)
    decreases |target| - from
  {
    hide Progress; hide PlaceSlot; hide PlaceOrigins;
    if from < |target| {
      PlaceSlotStep(fpu, c0, m0, target, e, o, from);
      PlaceSlotsEffect(
        fpu, c0, m0, target, PlaceSlot(e, target, from), PlaceOrigins(e.ctx, target, from, o), from + 1);
    } else {
      ProgressSizes(fpu, c0, m0, target, e, o, from);
    }
  }

  lemma {:induction false} ProgressSizes(
      fpu: Fpu, c0: Ctx, m0: Machine, target: seq<LinkMode>, e: Edge, o: Origins, k: nat)
    requires Progress(fpu, c0, m0, target, e, o, k)
    ensures |e.ctx.xmm| == NUM_XMM && |e.ctx.slots| == |target|
  {
    hide Exec;
  }

  // ----- conversions and guards -----

  ghost predicate Converts(conv: seq<(SlotId, Xmm)>, r: Xmm) {
    exists i :: 0 <= i < |conv| && conv[i].1 == r
  }

  lemma {:induction false} ConvEffect(fpu: Fpu, conv: seq<(SlotId, Xmm)>, m: Machine)
    requires forall i, j :: 0 <= i < j < |conv| && conv[i].1 == conv[j].1 ==> conv[i] == conv[j]
    ensures var o := Exec(fpu, ConvCode(conv), m);
            && !o.Raised? && o.m.stack == m.stack
            && (o.Running? <==> forall i :: 0 <= i < |conv| ==> Unbox(fpu, Peek(m.stack, conv[i].0), AnyNumber).Some?)
            && (forall r: Xmm :: !Converts(conv, r) ==> o.m.xmm[Enc(r)] == m.xmm[Enc(r)])
            && (o.Running? ==> forall i :: 0 <= i < |conv| ==>
                  Unbox(fpu, Peek(m.stack, conv[i].0), AnyNumber) == Some(o.m.xmm[Enc(conv[i].1)]))
  {
    if conv != [] {
      var (s, r) := conv[0];
      var code, rest := ConvCode(conv), conv[1..];
      assert code[1..] == [ValToF64(Enc(r), AnyNumber)] + ConvCode(rest);
      assert code[1..][1..] == ConvCode(rest);
      var v := Peek(m.stack, s);
      var m1 := m.(rdi := v);
      match Unbox(fpu, v, AnyNumber)
      case None =>
        assert Exec(fpu, code[1..], m1) == SideExit(m1);
        assert !Exec(fpu, code, m).Running?;
        assert Unbox(fpu, Peek(m.stack, conv[0].0), AnyNumber).None?;
      case Some(f) =>
        var m2 := m1.(xmm := m1.xmm[0 := f][Enc(r) := f]);
        assert Exec(fpu, code[1..], m1) == Exec(fpu, ConvCode(rest), m2);
        ConvEffect(fpu, rest, m2);
        var o := Exec(fpu, code, m);
        assert forall i :: 0 <= i < |rest| ==> rest[i] == conv[i + 1];
        forall q: Xmm | !Converts(conv, q)
          ensures o.m.xmm[Enc(q)] == m.xmm[Enc(q)]
        {
          assert conv[0].1 != q;
          assert !Converts(rest, q);
        }
        if o.Running? {
          assert o.m.xmm[Enc(r)] == f by {
            if Converts(rest, r) {
              var i :| 0 <= i < |rest| && rest[i].1 == r;
              assert conv[i + 1] == conv[0];
            }
          }
          forall i | 0 <= i < |conv|
            ensures Unbox(fpu, Peek(m.stack, conv[i].0), AnyNumber) == Some(o.m.xmm[Enc(conv[i].1)])
          {
            if i > 0 { assert conv[i] == rest[i - 1]; }
          }
        } else {
          var i :| 0 <= i < |rest| && Unbox(fpu, Peek(m.stack, rest[i].0), AnyNumber).None?;
          assert conv[i + 1] == rest[i];
        }
    }
  }

  lemma {:induction false} GuardEffect(fpu: Fpu, guards: seq<SlotId>, m: Machine)
    ensures var o := Exec(fpu, GuardCode(guards), m);
            && !o.Raised? && o.m.stack == m.stack && SameFile(m, o.m)
            && (o.Running? <==> forall s :: s in guards ==> Unbox(fpu, Peek(m.stack, s), FloatOnly).Some?)
  {
    if guards != [] {
      var s := guards[0];
      assert GuardCode(guards)[1..] == GuardCode(guards[1..]);
      match Unbox(fpu, Peek(m.stack, s), FloatOnly)
      case None =>
      case Some(f) =>
        var m1 := m.(rdi := Peek(m.stack, s), xmm := m.xmm[0 := f]);
        GuardEffect(fpu, guards[1..], m1);
    }
  }

  // ----- the whole edge -----

  /** Code for the edge, and the context its side exit writes back from. */
  function EdgeCode(src: Ctx, target: seq<LinkMode>): (seq<Inst>, Ctx)
    requires |src.xmm| == NUM_XMM && |src.slots| == |target|
  {
    var (c, free) := FreeSlots(src, target, 0);
    var e := PlaceSlots(Edge(c, [], [], []), target, 0);
    (free + (e.code + (ConvCode(e.conv) + GuardCode(e.guards))), e.ctx)
  }

  lemma {:induction false} NothingToFree(c: Ctx, target: seq<LinkMode>, from: SlotId)
    requires |c.xmm| == NUM_XMM && from <= |c.slots| == |target|
    requires forall s :: from <= s < |target| ==> !target[s].Unlinked?
    ensures FreeSlots(c, target, from) == (c, [])
    decreases |target| - from
  {
    var nothing: seq<Inst> := [];
    assert nothing + nothing == nothing;
    if from < |target| { NothingToFree(c, target, from + 1); }
  }

  // ----- the compiler pass -----

  /** Only the slot being treated gains or loses a link. */
  lemma {:induction false} OtherLinksStay(e: Edge, target: seq<LinkMode>, s: SlotId)
    requires |e.ctx.xmm| == NUM_XMM && s < |e.ctx.slots| == |target|
    ensures forall t: SlotId :: t < |target| && t != s ==>
      PlaceSlot(e, target, s).ctx.slots[t].Unlinked? == e.ctx.slots[t].Unlinked?
  {
  }

  /** What a step emits does not depend on what was emitted before. */
  lemma {:induction false} CodeIsAppended(e: Edge, target: seq<LinkMode>, s: SlotId)
    requires |e.ctx.xmm| == NUM_XMM && s < |e.ctx.slots| == |target|
    ensures var f := PlaceSlot(e.(code := []), target, s);
            PlaceSlot(e, target, s) == f.(code := e.code + f.code)
  {
    hide MoveSlot; hide WriteBackSingle; hide Link;
    var (now, mode) := (e.ctx.slots[s], target[s]);
    if !mode.Unlinked? && !now.Unlinked? {
      var store := if now.XmmRW? && mode.XmmR? then WriteBackSingle(now.x, [s]) else [];
      var (_, move) := MoveSlot(e.ctx, s, mode);
      assert [] + store + move == store + move;
      assert e.code + store + move == e.code + (store + move);
    }
  }
}
