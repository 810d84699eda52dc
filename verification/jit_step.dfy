/** Edges in the interpreter's terms: when compiled code is in step with it after an edge, and what a side
    exit on the way hands back. */
module JitStep {
  import opened Prelude
  import opened JitMachine
  import opened JitContext
  import opened JitDeopt
  import opened JitMerge
  import opened JitPlacing
  import opened JitEdge

  /** The slot's value survives being boxed from its register, if that is what happens to it: a slot that
      is valid on the stack is spilled, or comes to live in the register only. */
  predicate Kept(from: LinkMode, spilled: bool, registerOnly: bool, w: Value, g: Grade) {
    g.ByValue? && from.XmmR? && (spilled || registerOnly) ==> IsBox(w)
  }

  ghost predicate AllKept(
      src: seq<LinkMode>, target: seq<LinkMode>, links: seq<LinkMode>, truth: seq<Value>, dead: set<SlotId>, g: Grade)
  {
    forall s: SlotId :: s < |truth| && s < |src| && s < |links| && s !in dead ==>
      Kept(src[s], Spilled(src, target, s, |target|), links[s].XmmRW?, truth[s], g)
  }

  lemma {:induction false} SlotArrivesInStep(
      fpu: Fpu, from: LinkMode, mode: LinkMode, spilled: bool, m: Machine, n: Machine, s: SlotId, w: Value, g: Grade)
    requires Arrived(fpu, from, mode, spilled, m, n, s) && Holds(fpu, from, m, s, w, g)
    requires !(from.Unlinked? && mode.XmmRW?) && (spilled ==> !from.Unlinked?)
    ensures Holds(fpu, mode, n, s, w, g) <==> Kept(from, spilled, mode.XmmRW?, w, g)
  {
    if !from.Unlinked? {
      NumberOfBox(fpu, m.xmm[Enc(from.x)]);
      if Number(fpu, w) == Some(Norm(m.xmm[Enc(from.x)])) { BoxRestores(fpu, m.xmm[Enc(from.x)], w); }
    }
  }

  lemma {:induction false} SlotReturnsInStep(
      fpu: Fpu, from: LinkMode, spilled: bool, now: LinkMode, m: Machine, stack: seq<Value>, s: SlotId, w: Value,
      g: Grade)
    requires s < |stack| && WrittenBack(from, spilled, now, m, stack, s) && Holds(fpu, from, m, s, w, g)
    ensures Same(fpu, stack[s], w, g) <==> Kept(from, spilled, now.XmmRW?, w, g)
  {
    if !from.Unlinked? {
      NumberOfBox(fpu, m.xmm[Enc(from.x)]);
      if Number(fpu, w) == Some(Norm(m.xmm[Enc(from.x)])) { BoxRestores(fpu, m.xmm[Enc(from.x)], w); }
    }
  }

  /** An edge arrives in step, or hands the frame back in agreement. */
  ghost predicate EdgeInStep(
      fpu: Fpu, src: Ctx, target: Ctx, m: Machine, truth: seq<Value>, dead: set<SlotId>, g: Grade)
    requires |src.xmm| == NUM_XMM && |src.slots| == |target.slots|
  {
    var (code, exit) := EdgeCode(src, target.slots);
    var o := Exec(fpu, code, m);
    && !o.Raised? && Consistent(exit)
    && (o.Running? ==> Represents(fpu, target, o.m, truth, dead, g))
    && (o.SideExit? ==> FramesAgree(fpu, Deoptimise(fpu, exit, o.m), truth, dead, g))
  }

  /** Whatever the interpreter holds before an edge that delivers, the target context represents after it; and
      a side exit hands the interpreter its own frame: by number always, by value exactly if every slot
      keeps its value. Which slots could lose it depends on the links, and on the exit's context for the
      side exit. */
  lemma {:induction false} EdgeKeepsInStep(
      fpu: Fpu, src: Ctx, target: Ctx, m: Machine, truth: seq<Value>, dead: set<SlotId>, g: Grade)
    requires Represents(fpu, src, m, truth, dead, g) && Consistent(target) && Plain(src.slots, target.slots)
    requires |src.xmm| == NUM_XMM && |src.slots| == |target.slots| && Delivers(src, target.slots)
    ensures var (code, exit) := EdgeCode(src, target.slots);
            var o := Exec(fpu, code, m);
            && !o.Raised? && Consistent(exit) && |exit.xmm| == NUM_XMM && |exit.slots| == |truth|
            && (o.Running? ==>
                  (Represents(fpu, target, o.m, truth, dead, g)
                   <==> AllKept(src.slots, target.slots, target.slots, truth, dead, g)))
            && (o.SideExit? ==>
                  (FramesAgree(fpu, Deoptimise(fpu, exit, o.m), truth, dead, g)
                   <==> AllKept(src.slots, target.slots, exit.slots, truth, dead, g)))
  {
    hide EdgeCode; hide Arrived; hide WrittenBack; hide Holds; hide Same; hide Delivers; hide Spilled; hide Kept;
    hide Exec;
    hide WriteBackCode; hide Consistent; hide TargetApart; hide NoLoads; hide Admits;
    EdgePreservesMeaning(fpu, src, target.slots, m);
    var (code, exit) := EdgeCode(src, target.slots);
    var o := Exec(fpu, code, m);
    forall s: SlotId | s < |truth| && s !in dead
      ensures o.Running? ==>
        (Holds(fpu, target.slots[s], o.m, s, truth[s], g)
         <==> Kept(src.slots[s], Spilled(src.slots, target.slots, s, |truth|), target.slots[s].XmmRW?, truth[s], g))
      ensures o.SideExit? ==>
        (Same(fpu, Deoptimise(fpu, exit, o.m)[s], truth[s], g)
         <==> Kept(src.slots[s], Spilled(src.slots, target.slots, s, |truth|), exit.slots[s].XmmRW?, truth[s], g))
    {
      var spilled := Spilled(src.slots, target.slots, s, |truth|);
      SpilledLinked(src.slots, target.slots, s, |truth|);
      if o.Running? {
        SlotArrivesInStep(fpu, src.slots[s], target.slots[s], spilled, m, o.m, s, truth[s], g);
      } else {
        SlotReturnsInStep(
          fpu, src.slots[s], spilled, exit.slots[s], m, Deoptimise(fpu, exit, o.m), s, truth[s], g);
      }
    }
  }

  lemma {:induction false} NumbersAreKept(
      src: seq<LinkMode>, target: seq<LinkMode>, links: seq<LinkMode>, truth: seq<Value>, dead: set<SlotId>)
    ensures AllKept(src, target, links, truth, dead, ByNumber)
  {}

  // ----- an edge that does not deliver -----

  function Telltale(p: nat): F64 {
    F64(p + 1)
  }

  /** A machine whose registers all hold different numbers, with the frame that it represents. */
  function Witness(src: Ctx): Machine {
    Machine(
      seq(|src.slots|, s requires 0 <= s < |src.slots| =>
        Float(if src.slots[s].Unlinked? then Telltale(0) else Telltale(Enc(src.slots[s].x)))),
      seq(16, p requires 0 <= p < 16 => Telltale(p)), Other(0), Other(0))
  }

  lemma {:induction false} WitnessInStep(fpu: Fpu, src: Ctx, dead: set<SlotId>)
    requires Consistent(src)
    ensures Represents(fpu, src, Witness(src), Witness(src).stack, dead, ByNumber)
  {
    hide Consistent;
  }

  ghost predicate AllFloats(fpu: Fpu, stack: seq<Value>) {
    forall s: SlotId :: s < |stack| ==> stack[s].Float?
  }

  /** On the witness every check passes. */
  lemma {:induction false} WitnessPasses(fpu: Fpu, src: Ctx, target: seq<LinkMode>) returns (n: Machine)
    requires Consistent(src) && Plain(src.slots, target) && |src.xmm| == NUM_XMM && |src.slots| == |target|
    ensures Exec(fpu, EdgeCode(src, target).0, Witness(src)) == Running(n)
    ensures forall s: SlotId :: Mover(src.slots, target, s) ==>
              n.xmm[Enc(target[s].x)] == Witness(src).xmm[Enc(EdgeOrigins(src, target)[target[s].x])]
  {
    hide PlaceSlots; hide FinalOrigins; hide Exec; hide FreeSlots; hide Consistent; hide Traced; hide Identity;
    hide Witness; hide ConvCode; hide GuardCode; hide Converts; hide EdgeOrigins;
    var m := Witness(src);
    WitnessFloats(fpu, src);
    PassesRun(fpu, src, target, m);
    var (c, free) := FreeSlots(src, target, 0);
    var e := PlaceSlots(Edge(c, [], [], []), target, 0);
    var m0 := Exec(fpu, free, m).m;
    var m1 := Exec(fpu, e.code, m0).m;
    var o := EdgeOrigins(src, target);
    PassesKeepFloats(fpu, src, m, target, c, m0, e, m1);
    LoadsApart(src, m, target, c, m0, e);
    ConvEffect(fpu, e.conv, m1);
    var o1 := Exec(fpu, ConvCode(e.conv), m1);
    forall i | 0 <= i < |e.conv|
      ensures Unbox(fpu, Peek(m1.stack, e.conv[i].0), AnyNumber).Some?
    {
      assert (e.conv[i].0, e.conv[i].1) in e.conv;
    }
    GuardEffect(fpu, e.guards, o1.m);
    n := Exec(fpu, GuardCode(e.guards), o1.m).m;
    ExecAppend(fpu, ConvCode(e.conv), GuardCode(e.guards), m1);
    ExecAppend(fpu, free, e.code + (ConvCode(e.conv) + GuardCode(e.guards)), m);
    ExecAppend(fpu, e.code, ConvCode(e.conv) + GuardCode(e.guards), m0);
    forall s: SlotId | Mover(src.slots, target, s)
      ensures n.xmm[Enc(target[s].x)] == m.xmm[Enc(o[target[s].x])]
    {
      var x: Xmm := target[s].x;
      NotLoaded(src, m, target, c, m0, e, s);
      TracksAt(m0, m1, o, x);
    }
  }

  lemma {:induction false} WitnessFloats(fpu: Fpu, src: Ctx)
    ensures |Witness(src).stack| == |src.slots| && AllFloats(fpu, Witness(src).stack)
  {}

  lemma {:induction false} PassesKeepFloats(
      fpu: Fpu, src: Ctx, m: Machine, target: seq<LinkMode>, c: Ctx, m0: Machine, e: Edge, m1: Machine)
    requires Freed(src, m, target, c, m0, |target|) && Stored(c, m0, target, m1, |target|) && AllFloats(fpu, m.stack)
    ensures |m1.stack| == |target| && AllFloats(fpu, m1.stack)
  {
    hide Spilled; hide Consistent;
    forall s: SlotId | s < |m1.stack|
      ensures m1.stack[s].Float?
    {
      assert SlotFreed(src.slots, target, m, c, m0, s, |target|);
    }
  }

  /** Whoever is loaded comes from the stack alone, and the target is then one without sharing. */
  lemma {:induction false} LoadsApart(
      src: Ctx, m: Machine, target: seq<LinkMode>, c: Ctx, m0: Machine, e: Edge)
    requires Freed(src, m, target, c, m0, |target|) && Pending(c, target, e, |target|) && Plain(src.slots, target)
    ensures forall i :: 0 <= i < |e.conv| ==>
              e.conv[i].0 < |target| && target[e.conv[i].0] == XmmR(e.conv[i].1) && TargetApart(target)
              && src.slots[e.conv[i].0].Unlinked?
    ensures forall i, j :: 0 <= i < j < |e.conv| && e.conv[i].1 == e.conv[j].1 ==> e.conv[i] == e.conv[j]
  {
    hide Spilled; hide Consistent;
    forall i | 0 <= i < |e.conv|
      ensures e.conv[i].0 < |target| && target[e.conv[i].0] == XmmR(e.conv[i].1) && TargetApart(target)
              && src.slots[e.conv[i].0].Unlinked?
    {
      assert (e.conv[i].0, e.conv[i].1) in e.conv;
      assert SlotFreed(src.slots, target, m, c, m0, e.conv[i].0, |target|);
    }
  }

  lemma {:induction false} NotLoaded(
      src: Ctx, m: Machine, target: seq<LinkMode>, c: Ctx, m0: Machine, e: Edge, s: SlotId)
    requires Freed(src, m, target, c, m0, |target|) && Pending(c, target, e, |target|) && Plain(src.slots, target)
    requires Mover(src.slots, target, s)
    ensures !Converts(e.conv, target[s].x)
  {
    hide Freed; hide Pending; hide Joinable; hide NoLoads;
    LoadsApart(src, m, target, c, m0, e);
  }

  /** An edge that misdelivers leaves the witness out of step. */
  lemma {:induction false} MisdeliveryShows(fpu: Fpu, src: Ctx, target: Ctx, s: SlotId, dead: set<SlotId>)
    requires Consistent(src) && Plain(src.slots, target.slots) && |src.xmm| == NUM_XMM && |src.slots| == |target.slots|
    requires Mover(src.slots, target.slots, s) && s !in dead
    requires EdgeOrigins(src, target.slots)[target.slots[s].x] != src.slots[s].x
    ensures !EdgeInStep(fpu, src, target, Witness(src), Witness(src).stack, dead, ByNumber)
  {
    hide EdgeCode; hide EdgeOrigins; hide Consistent; hide Plain; hide Exec;
    var n := WitnessPasses(fpu, src, target.slots);
    assert !Holds(fpu, target.slots[s], n, s, Witness(src).stack[s], ByNumber);
  }

  /** For the edges the compiler emits: whatever frame the machine holds, the edge keeps it in step with the
      interpreter, if and only if the edge delivers. */
  lemma {:induction false} DeliversExactly(fpu: Fpu, src: Ctx, target: Ctx, dead: set<SlotId>)
    requires Consistent(src) && Consistent(target) && Plain(src.slots, target.slots)
    requires |src.xmm| == NUM_XMM && |src.slots| == |target.slots|
    requires forall s: SlotId :: s in dead ==> !Linked(src, s)
    ensures Delivers(src, target.slots)
            <==> forall m: Machine, truth: seq<Value> :: Represents(fpu, src, m, truth, dead, ByNumber) ==>
                   EdgeInStep(fpu, src, target, m, truth, dead, ByNumber)
  {
    hide EdgeCode; hide EdgeOrigins; hide Consistent; hide Plain; hide Exec; hide Represents; hide FramesAgree;
    if Delivers(src, target.slots) {
      forall m: Machine, truth: seq<Value> | Represents(fpu, src, m, truth, dead, ByNumber)
        ensures EdgeInStep(fpu, src, target, m, truth, dead, ByNumber)
      {
        EdgeKeepsInStep(fpu, src, target, m, truth, dead, ByNumber);
        NumbersAreKept(src.slots, target.slots, target.slots, truth, dead);
        NumbersAreKept(src.slots, target.slots, EdgeCode(src, target.slots).1.slots, truth, dead);
      }
    } else {
      var s: SlotId :| Mover(src.slots, target.slots, s)
                       && EdgeOrigins(src, target.slots)[target.slots[s].x] != src.slots[s].x;
      WitnessInStep(fpu, src, dead);
      MisdeliveryShows(fpu, src, target, s, dead);
    }
  }

  // ----- an Integer that comes back as a Float -----

  /** One slot, linked as by a load. */
  function Loaded(mode: LinkMode): Ctx
    requires !mode.Unlinked?
  {
    Link(Empty(1), 0, mode)
  }

  lemma {:induction false} LoadedIs(mode: LinkMode)
    requires mode == XmmR(0) || mode == XmmRW(0)
    ensures var c := Loaded(mode);
            Consistent(c) && |c.xmm| == NUM_XMM && c.slots == [mode] && c.xmm == Empty(1).xmm[0 := [0]]
  {
    EmptyConsistent(1);
    LinkConsistent(Empty(1), 0, mode);
    assert Empty(1).xmm[mode.x] + [0] == [0];
  }

  /** An Integer that was loaded, on an edge to a register-only link: the guard refuses it, and the side exit
      hands back a Float of the same number. */
  lemma {:induction false} SideExitTurnsIntegerIntoFloat(fpu: Fpu, m: Machine, i: int)
    requires m.stack == [Fixnum(i)] && m.xmm[Enc(0)] == fpu.ofInt(i)
    ensures var src := Loaded(XmmR(0));
            && |src.xmm| == NUM_XMM && |src.slots| == 1 && Represents(fpu, src, m, m.stack, {}, ByValue)
            && var (code, exit) := EdgeCode(src, [XmmRW(0)]);
            var o := Exec(fpu, code, m);
            && |exit.xmm| == NUM_XMM && o.SideExit? && Deoptimise(fpu, exit, o.m) == [Box(fpu.ofInt(i))]
  {
    hide EdgeCode; hide WriteBackCode; hide Consistent; hide Exec; hide Loaded;
    var exit := Loaded(XmmRW(0));
    LoadedIs(XmmR(0));
    LoadedIs(XmmRW(0));
    LoadedGuardCode();
    GuardExits(fpu, m, i);
    WriteBackEffect(fpu, exit, m.(rdi := Fixnum(i)), 0);
  }

  lemma {:induction false} GuardExits(fpu: Fpu, m: Machine, i: int)
    requires m.stack == [Fixnum(i)]
    ensures Exec(fpu, [GuardFloat(0)], m) == SideExit(m.(rdi := Fixnum(i)))
  {}

  lemma {:induction false} LoadedGuardCode()
    ensures |Loaded(XmmR(0)).xmm| == NUM_XMM && |Loaded(XmmR(0)).slots| == 1
    ensures EdgeCode(Loaded(XmmR(0)), [XmmRW(0)]) == ([GuardFloat(0)], Loaded(XmmRW(0)))
  {
    hide Loaded;
    LoadedIs(XmmR(0));
    LoadedIs(XmmRW(0));
    var src, target, exit := Loaded(XmmR(0)), [XmmRW(0)], Loaded(XmmRW(0));
    NothingToFree(src, target, 0);
    var e0 := Edge(src, [], [], []);
    var e1 := PlaceSlot(e0, target, 0);
    assert e1 == Edge(exit, [], [], [0]) by { assert src.slots[0 := XmmRW(0)] == exit.slots; }
    assert PlaceSlots(e1, target, 1) == e1;
    assert GuardCode([0]) == [GuardFloat(0)];
    var code := EdgeCode(src, target).0;
    assert code == [GuardFloat(0)];
  }
}
