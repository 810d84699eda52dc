/** What the code on an edge does to the machine, and to its being in step with the interpreter. */
module JitEdge {
  import opened Prelude
  import opened JitMachine
  import opened JitContext
  import opened JitMerge
  import opened JitPlacing

  // ----- one slot -----

  /** What the edge must still check at run time about a slot: that a value to be loaded is a number, and
      that a value about to live in a register only is a float. A slot that was spilled on the way has a
      float on the stack. */
  predicate Admits(fpu: Fpu, from: LinkMode, mode: LinkMode, spilled: bool, v: Value) {
    match (from, mode)
    case (Unlinked, XmmR(_)) => Unbox(fpu, v, AnyNumber).Some?
    case (XmmR(_), XmmRW(_)) => spilled || Unbox(fpu, v, FloatOnly).Some?
    case _ => true
  }

  /** The register's box if the slot has been stored on the way, else the old stack copy. */
  function StackCopy(from: LinkMode, stored: bool, m: Machine, s: SlotId): Value {
    if !from.Unlinked? && stored then Box(m.xmm[Enc(from.x)]) else Peek(m.stack, s)
  }

  /** Slot s went from linkage `from` in machine m to linkage `mode` in machine n with its number kept: on
      the stack for an unlinked slot, in both places for `XmmR`, in the register for `XmmRW`. */
  ghost predicate Arrived(
      fpu: Fpu, from: LinkMode, mode: LinkMode, spilled: bool, m: Machine, n: Machine, s: SlotId)
  {
    && (!mode.XmmRW? ==> Peek(n.stack, s) == StackCopy(from, spilled || from.XmmRW?, m, s))
    && (mode.XmmR? && from.Unlinked? ==> Unbox(fpu, Peek(m.stack, s), AnyNumber) == Some(n.xmm[Enc(mode.x)]))
    && (!mode.Unlinked? && !from.Unlinked? ==> n.xmm[Enc(mode.x)] == m.xmm[Enc(from.x)])
  }

  /** What the two passes have done to one slot, whose link is `now` in the end. */
  ghost predicate SlotSettled(
      from: LinkMode, mode: LinkMode, spilled: bool, now: LinkMode, m: Machine, m1: Machine, s: SlotId)
  {
    && Peek(m1.stack, s) == StackCopy(from, spilled || (from.XmmRW? && mode.XmmR?), m, s)
    && (from.XmmRW? && mode.Unlinked? ==> spilled)
    && (if mode.Unlinked? then now.Unlinked?
        else if from.Unlinked? then now.XmmR?
        else
          && !now.Unlinked?
          && m1.xmm[Enc(mode.x)] == m.xmm[Enc(from.x)] && m1.xmm[Enc(now.x)] == m.xmm[Enc(from.x)]
          && (now.XmmRW? ==> from.XmmRW? || mode.XmmRW?)
          && (now.XmmR? && from.XmmRW? && mode.XmmRW? ==> spilled))
  }

  // ----- both passes -----

  /** (src, m) before, (c, m0) between, (e, m1) after the two passes. */
  ghost predicate Settled(
      fpu: Fpu, src: Ctx, m: Machine, target: seq<LinkMode>, c: Ctx, m0: Machine, e: Edge, o: Origins, m1: Machine)
  {
    && Freed(src, m, target, c, m0, |target|) && Progress(fpu, c, m0, target, e, o, |target|)
    && m1 == Exec(fpu, e.code, m0).m && Plain(src.slots, target)
    && (forall s: SlotId :: Mover(src.slots, target, s) ==> o[target[s].x] == src.slots[s].x)
    && (TargetApart(target) ==>
          forall s: SlotId :: Mover(src.slots, target, s) ==> RegOf(e.ctx, s) == target[s].x)
  }

  lemma {:induction false} Settles(fpu: Fpu, src: Ctx, target: seq<LinkMode>, m: Machine)
    requires Consistent(src) && Plain(src.slots, target) && |target| == |m.stack| && |src.xmm| == NUM_XMM
    requires |src.slots| == |target| && Delivers(src, target)
    ensures var (c, free) := FreeSlots(src, target, 0);
            var e := PlaceSlots(Edge(c, [], [], []), target, 0);
            && Exec(fpu, free, m).Running?
            && var m0 := Exec(fpu, free, m).m;
            && Exec(fpu, e.code, m0).Running?
            && Settled(fpu, src, m, target, c, m0, e, EdgeOrigins(src, target), Exec(fpu, e.code, m0).m)
  {
    hide PlaceSlots; hide FinalOrigins; hide Progress; hide Consistent; hide FreeSlots; hide NobodyEvicted;
    hide Identity;
    PassesRun(fpu, src, target, m);
    if TargetApart(target) { DeliversUnlessEvicted(src, target); }
  }

  /** The two passes, whether or not the edge delivers. */
  lemma {:induction false} PassesRun(fpu: Fpu, src: Ctx, target: seq<LinkMode>, m: Machine)
    requires Consistent(src) && Joinable(src.slots, target) && |target| == |m.stack|
    requires |src.xmm| == NUM_XMM && |src.slots| == |target|
    ensures var (c, free) := FreeSlots(src, target, 0);
            var e := PlaceSlots(Edge(c, [], [], []), target, 0);
            && Exec(fpu, free, m).Running?
            && var m0 := Exec(fpu, free, m).m;
            && Freed(src, m, target, c, m0, |target|)
            && Exec(fpu, e.code, m0).Running?
            && Progress(fpu, c, m0, target, e, EdgeOrigins(src, target), |target|)
  {
    hide PlaceSlots; hide FinalOrigins; hide Consistent; hide Exec; hide FreeSlots; hide Identity; hide Spilled;
    FreedBegins(src, target, m);
    FreeSlotsEffect(fpu, src, m, target, src, m, 0);
    var (c, free) := FreeSlots(src, target, 0);
    var m0 := Exec(fpu, free, m).m;
    PlacingBegins(src, target);
    NoCode(fpu, m0);
    IdentityTracks(m0);
    ThinnedJoinable(src.slots, target, c);
    PlaceSlotsEffect(fpu, c, m0, target, Edge(c, [], [], []), Identity(), 0);
  }

  lemma {:induction false} FreedBegins(src: Ctx, target: seq<LinkMode>, m: Machine)
    requires Consistent(src) && |src.slots| == |target| == |m.stack|
    ensures Freed(src, m, target, src, m, 0)
  {}

  lemma {:induction false} IdentityTracks(m: Machine)
    ensures Tracks(m, m, Identity())
  {}

  lemma {:induction false} SettleSlot(
      fpu: Fpu, src: Ctx, m: Machine, target: seq<LinkMode>, c: Ctx, m0: Machine, e: Edge, o: Origins, m1: Machine,
      s: SlotId)
    requires Settled(fpu, src, m, target, c, m0, e, o, m1) && s < |target|
    ensures |src.slots| == |e.ctx.slots| == |m.stack| == |m1.stack| == |target|
    ensures SlotSettled(
      src.slots[s], target[s], Spilled(src.slots, target, s, |target|), e.ctx.slots[s], m, m1, s)
  {
    hide Spilled; hide Exec; hide Box; hide Consistent; hide Plain; hide TargetApart; hide Pending;
    var (from, mode, now) := (src.slots[s], target[s], e.ctx.slots[s]);
    assert SlotFreed(src.slots, target, m, c, m0, s, |target|);
    assert SlotTraced(c.slots[s], mode, now, o, true);
    SpilledLinked(src.slots, target, s, |target|);
    if Mover(src.slots, target, s) {
      TracksAt(m0, m1, o, mode.x);
      TracksAt(m0, m1, o, now.x);
    } else if from.XmmRW? {
      SpillsItself(src.slots, target, s);
    }
  }

  lemma {:induction false} SpillsItself(src: seq<LinkMode>, target: seq<LinkMode>, s: SlotId)
    requires s < |src| == |target| && src[s].XmmRW? && target[s].Unlinked?
    ensures Spilled(src, target, s, |target|)
  {
    assert SpilledBy(src, target, s, s);
  }

  /** A conversion fills no register that a mover is in or is to be in. */
  lemma {:induction false} MoversNotConverted(
      fpu: Fpu, src: Ctx, m: Machine, target: seq<LinkMode>, c: Ctx, m0: Machine, e: Edge, o: Origins, m1: Machine,
      s: SlotId)
    requires Settled(fpu, src, m, target, c, m0, e, o, m1) && Mover(src.slots, target, s)
    requires s < |e.ctx.slots| && !e.ctx.slots[s].Unlinked?
    ensures !Converts(e.conv, target[s].x) && !Converts(e.conv, e.ctx.slots[s].x)
  {
    hide Spilled; hide Exec; hide Box; hide Consistent; hide Traced; hide Stored; hide Tracks;
    forall i | 0 <= i < |e.conv|
      ensures e.conv[i].1 != target[s].x && e.conv[i].1 != e.ctx.slots[s].x
    {
      var t := e.conv[i].0;
      assert (t, e.conv[i].1) in e.conv;
      assert SlotFreed(src.slots, target, m, c, m0, t, |target|);
      assert RegOf(e.ctx, s) == e.ctx.slots[s].x;
    }
  }

  /** Conversions only touch registers that wait for one. */
  ghost predicate OnlyConverted(e: Edge, m1: Machine, n: Machine) {
    n.stack == m1.stack && forall r: Xmm :: !Converts(e.conv, r) ==> n.xmm[Enc(r)] == m1.xmm[Enc(r)]
  }

  lemma {:induction false} SlotArrives(
      fpu: Fpu, from: LinkMode, mode: LinkMode, spilled: bool, now: LinkMode, m: Machine, e: Edge, m1: Machine,
      n: Machine, s: SlotId)
    requires SlotSettled(from, mode, spilled, now, m, m1, s) && OnlyConverted(e, m1, n)
    requires (from.Unlinked? ==> !mode.XmmRW?) && (spilled ==> !from.Unlinked?)
    requires !from.Unlinked? && !mode.Unlinked? ==> !Converts(e.conv, mode.x)
    requires from.Unlinked? && mode.XmmR? ==> Unbox(fpu, Peek(m1.stack, s), AnyNumber) == Some(n.xmm[Enc(mode.x)])
    requires from.XmmR? && mode.XmmRW? ==> Unbox(fpu, Peek(m1.stack, s), FloatOnly).Some?
    ensures Arrived(fpu, from, mode, spilled, m, n, s) && Admits(fpu, from, mode, spilled, Peek(m.stack, s))
  {
  }

  /** After the side exit's write-back: the box of the register wherever the slot has been stored or counts
      as stale for the exit, and the old value everywhere else. */
  predicate WrittenBack(
      from: LinkMode, spilled: bool, now: LinkMode, m: Machine, stack: seq<Value>, s: SlotId)
  {
    Peek(stack, s) == StackCopy(from, spilled || from.XmmRW? || now.XmmRW?, m, s)
  }

  lemma {:induction false} SlotReturns(
      from: LinkMode, mode: LinkMode, spilled: bool, now: LinkMode, m: Machine, e: Edge, m1: Machine, n: Machine,
      stack: seq<Value>, s: SlotId)
    requires SlotSettled(from, mode, spilled, now, m, m1, s) && OnlyConverted(e, m1, n)
    requires spilled ==> !from.Unlinked?
    requires !from.Unlinked? && !mode.Unlinked? ==> !Converts(e.conv, now.x)
    requires Peek(stack, s) == if now.XmmRW? then Box(n.xmm[Enc(now.x)]) else Peek(n.stack, s)
    ensures WrittenBack(from, spilled, now, m, stack, s)
  {
  }

  lemma {:induction false} LeaveEdge(
      fpu: Fpu, src: Ctx, m: Machine, target: seq<LinkMode>, c: Ctx, m0: Machine, e: Edge, o: Origins, m1: Machine,
      n: Machine)
    requires Settled(fpu, src, m, target, c, m0, e, o, m1) && OnlyConverted(e, m1, n)
    ensures |e.ctx.xmm| == NUM_XMM && |src.slots| == |e.ctx.slots| == |m.stack| == |target|
    ensures var w := Exec(fpu, WriteBackCode(e.ctx, 0), n);
            && w.Running? && |w.m.stack| == |m.stack|
            && forall s: SlotId :: s < |m.stack| ==>
                 WrittenBack(src.slots[s], Spilled(src.slots, target, s, |target|), e.ctx.slots[s], m, w.m.stack, s)
  {
    hide Spilled; hide Exec; hide WriteBackCode; hide Box; hide Freed; hide Plain; hide Pending; hide Converts;
    TracedConsistent(c, target, e.ctx, o, |target|);
    WriteBackEffect(fpu, e.ctx, n, 0);
    var w := Exec(fpu, WriteBackCode(e.ctx, 0), n);
    SettledSizes(fpu, src, m, target, c, m0, e, o, m1);
    forall s: SlotId | s < |m.stack|
      ensures WrittenBack(src.slots[s], Spilled(src.slots, target, s, |target|), e.ctx.slots[s], m, w.m.stack, s)
    {
      SettleSlot(fpu, src, m, target, c, m0, e, o, m1, s);
      if Mover(src.slots, target, s) { MoversNotConverted(fpu, src, m, target, c, m0, e, o, m1, s); }
      SpilledLinked(src.slots, target, s, |target|);
      SlotReturns(src.slots[s], target[s], Spilled(src.slots, target, s, |target|), e.ctx.slots[s], m, e, m1, n,
          w.m.stack, s);
    }
  }

  lemma {:induction false} SpilledLinked(src: seq<LinkMode>, target: seq<LinkMode>, s: SlotId, k: nat)
    ensures Spilled(src, target, s, k) ==> s < |src| && !src[s].Unlinked?
  {}

  lemma {:induction false} TracedConsistent(c0: Ctx, target: seq<LinkMode>, c: Ctx, o: Origins, k: nat)
    requires Traced(c0, target, c, o, k)
    ensures Consistent(c) && |c.xmm| == NUM_XMM && |c.slots| == |target|
  {}

  lemma {:induction false} SettledSizes(
      fpu: Fpu, src: Ctx, m: Machine, target: seq<LinkMode>, c: Ctx, m0: Machine, e: Edge, o: Origins, m1: Machine)
    requires Settled(fpu, src, m, target, c, m0, e, o, m1)
    ensures |src.slots| == |e.ctx.slots| == |m.stack| == |m1.stack| == |target|
  {
    hide Exec;
  }

  lemma {:induction false} FailedCheck(
      fpu: Fpu, src: Ctx, m: Machine, target: seq<LinkMode>, c: Ctx, m0: Machine, e: Edge, o: Origins, m1: Machine,
      s: SlotId)
    requires Settled(fpu, src, m, target, c, m0, e, o, m1)
    requires
      || ((exists r: Xmm :: (s, r) in e.conv) && Unbox(fpu, Peek(m1.stack, s), AnyNumber).None?)
      || (s in e.guards && Unbox(fpu, Peek(m1.stack, s), FloatOnly).None?)
    ensures s < |target| == |src.slots|
    ensures !Admits(fpu, src.slots[s], target[s], Spilled(src.slots, target, s, |target|), Peek(m.stack, s))
  {
    hide Exec; hide Spilled; hide Plain; hide Consistent; hide Traced; hide Stored; hide Tracks;
    assert s < |target|;
    SettleSlot(fpu, src, m, target, c, m0, e, o, m1, s);
    assert SlotFreed(src.slots, target, m, c, m0, s, |target|);
    SpilledLinked(src.slots, target, s, |target|);
    if s in e.guards && Unbox(fpu, Peek(m1.stack, s), FloatOnly).None? {
      assert src.slots[s].XmmR? && target[s].XmmRW?;
    } else {
      var r: Xmm :| (s, r) in e.conv;
      assert src.slots[s].Unlinked? && target[s] == XmmR(r);
    }
  }

  // ----- the whole edge -----

  /** The edge either arrives, exactly if every slot passes its check, with every slot's number where the
      target expects it; or it leaves through the side exit, whose write-back returns every number. */
  ghost predicate EdgeOutcome(fpu: Fpu, src: Ctx, target: seq<LinkMode>, m: Machine, exit: Ctx, o: Outcome)
    requires |src.slots| == |target| == |m.stack| == |exit.slots| && |exit.xmm| == NUM_XMM
  {
    && !o.Raised?
    && |o.m.stack| == |m.stack|
    && (o.Running? <==>
          forall s: SlotId :: s < |m.stack| ==>
            Admits(fpu, src.slots[s], target[s], Spilled(src.slots, target, s, |target|), Peek(m.stack, s)))
    && (o.Running? ==>
          forall s: SlotId :: s < |m.stack| ==>
            Arrived(fpu, src.slots[s], target[s], Spilled(src.slots, target, s, |target|), m, o.m, s))
    && (o.SideExit? ==>
          var w := Exec(fpu, WriteBackCode(exit, 0), o.m);
          && w.Running? && |w.m.stack| == |m.stack|
          && forall s: SlotId :: s < |m.stack| ==>
               WrittenBack(src.slots[s], Spilled(src.slots, target, s, |target|), exit.slots[s], m, w.m.stack, s))
  }

  lemma {:induction false} EdgePreservesMeaning(fpu: Fpu, src: Ctx, target: seq<LinkMode>, m: Machine)
    requires Consistent(src) && Plain(src.slots, target) && |target| == |m.stack|
    requires |src.xmm| == NUM_XMM && |src.slots| == |target| && Delivers(src, target)
    ensures var (code, exit) := EdgeCode(src, target);
            && Consistent(exit) && |exit.xmm| == NUM_XMM && |exit.slots| == |target|
            && EdgeOutcome(fpu, src, target, m, exit, Exec(fpu, code, m))
  {
    hide PlaceSlots; hide Exec; hide FreeSlots; hide Delivers; hide EdgeOrigins; hide Consistent; hide Plain;
    hide EdgeOutcome;
    hide Settled;
    Settles(fpu, src, target, m);
    var (c, free) := FreeSlots(src, target, 0);
    var e := PlaceSlots(Edge(c, [], [], []), target, 0);
    var m0 := Exec(fpu, free, m).m;
    var m1 := Exec(fpu, e.code, m0).m;
    FinishEdge(fpu, src, m, target, c, m0, e, EdgeOrigins(src, target), m1);
    var conv, guards := ConvCode(e.conv), GuardCode(e.guards);
    ExecAppend(fpu, free, e.code + (conv + guards), m);
    ExecAppend(fpu, e.code, conv + guards, m0);
  }

  lemma {:induction false} FinishEdge(
      fpu: Fpu, src: Ctx, m: Machine, target: seq<LinkMode>, c: Ctx, m0: Machine, e: Edge, o: Origins, m1: Machine)
    requires Settled(fpu, src, m, target, c, m0, e, o, m1)
    ensures Consistent(e.ctx) && |e.ctx.xmm| == NUM_XMM
    ensures |src.slots| == |target| == |m.stack| == |e.ctx.slots|
    ensures EdgeOutcome(fpu, src, target, m, e.ctx, Exec(fpu, ConvCode(e.conv) + GuardCode(e.guards), m1))
  {
    hide Spilled; hide Admits; hide Arrived; hide WrittenBack; hide ConvCode; hide GuardCode; hide WriteBackCode;
    hide Converts;
    hide Exec; hide Settled; hide Consistent;
    SettledSizes(fpu, src, m, target, c, m0, e, o, m1);
    SettledConsistent(fpu, src, m, target, c, m0, e, o, m1);
    ConvRegistersApart(fpu, src, m, target, c, m0, e, o, m1);
    ConvEffect(fpu, e.conv, m1);
    var o1 := Exec(fpu, ConvCode(e.conv), m1);
    ExecAppend(fpu, ConvCode(e.conv), GuardCode(e.guards), m1);
    if o1.Running? {
      GuardEffect(fpu, e.guards, o1.m);
      var o2 := Exec(fpu, GuardCode(e.guards), o1.m);
      if o2.Running? {
        forall s: SlotId | s < |m.stack|
          ensures Arrived(fpu, src.slots[s], target[s], Spilled(src.slots, target, s, |target|), m, o2.m, s)
          ensures Admits(fpu, src.slots[s], target[s], Spilled(src.slots, target, s, |target|), Peek(m.stack, s))
        {
          Arrives(fpu, src, m, target, c, m0, e, o, m1, o2.m, s);
        }
      } else {
        var s :| s in e.guards && Unbox(fpu, Peek(m1.stack, s), FloatOnly).None?;
        FailedCheck(fpu, src, m, target, c, m0, e, o, m1, s);
        LeaveEdge(fpu, src, m, target, c, m0, e, o, m1, o2.m);
      }
    } else {
      var i :| 0 <= i < |e.conv| && Unbox(fpu, Peek(m1.stack, e.conv[i].0), AnyNumber).None?;
      assert (e.conv[i].0, e.conv[i].1) in e.conv;
      FailedCheck(fpu, src, m, target, c, m0, e, o, m1, e.conv[i].0);
      LeaveEdge(fpu, src, m, target, c, m0, e, o, m1, o1.m);
    }
  }

  lemma {:induction false} SettledConsistent(
      fpu: Fpu, src: Ctx, m: Machine, target: seq<LinkMode>, c: Ctx, m0: Machine, e: Edge, o: Origins, m1: Machine)
    requires Settled(fpu, src, m, target, c, m0, e, o, m1)
    ensures Consistent(e.ctx) && |e.ctx.xmm| == NUM_XMM
  {
    hide Exec;
  }

  lemma {:induction false} ConvRegistersApart(
      fpu: Fpu, src: Ctx, m: Machine, target: seq<LinkMode>, c: Ctx, m0: Machine, e: Edge, o: Origins, m1: Machine)
    requires Settled(fpu, src, m, target, c, m0, e, o, m1)
    ensures forall i, j :: 0 <= i < j < |e.conv| && e.conv[i].1 == e.conv[j].1 ==> e.conv[i] == e.conv[j]
  {
    hide Exec; hide Spilled; hide Traced; hide Tracks; hide Stored;
    forall i | 0 <= i < |e.conv|
      ensures e.conv[i].0 < |target| && target[e.conv[i].0] == XmmR(e.conv[i].1) && TargetApart(target)
    {
      assert (e.conv[i].0, e.conv[i].1) in e.conv;
      assert SlotFreed(src.slots, target, m, c, m0, e.conv[i].0, |target|);
    }
  }

  lemma {:induction false} Arrives(
      fpu: Fpu, src: Ctx, m: Machine, target: seq<LinkMode>, c: Ctx, m0: Machine, e: Edge, o: Origins, m1: Machine,
      n: Machine, s: SlotId)
    requires Settled(fpu, src, m, target, c, m0, e, o, m1) && s < |target| && OnlyConverted(e, m1, n)
    requires forall i :: 0 <= i < |e.conv| ==>
      Unbox(fpu, Peek(m1.stack, e.conv[i].0), AnyNumber) == Some(n.xmm[Enc(e.conv[i].1)])
    requires forall t :: t in e.guards ==> Unbox(fpu, Peek(m1.stack, t), FloatOnly).Some?
    ensures |src.slots| == |target| == |m.stack|
    ensures Arrived(fpu, src.slots[s], target[s], Spilled(src.slots, target, s, |target|), m, n, s)
    ensures Admits(fpu, src.slots[s], target[s], Spilled(src.slots, target, s, |target|), Peek(m.stack, s))
  {
    hide Exec; hide Spilled; hide Traced; hide Tracks; hide Stored; hide Consistent; hide Arrived; hide Admits;
    hide Converts;
    hide OnlyConverted; hide TargetApart; hide SlotSettled;
    SettleSlot(fpu, src, m, target, c, m0, e, o, m1, s);
    assert SlotFreed(src.slots, target, m, c, m0, s, |target|);
    var (from, mode, spilled) := (src.slots[s], target[s], Spilled(src.slots, target, s, |target|));
    SpilledLinked(src.slots, target, s, |target|);
    if Mover(src.slots, target, s) {
      assert !e.ctx.slots[s].Unlinked? by { SettledLinked(from, mode, spilled, e.ctx.slots[s], m, m1, s); }
      MoversNotConverted(fpu, src, m, target, c, m0, e, o, m1, s);
      assert from.XmmR? && mode.XmmRW? ==> s in e.guards;
    } else if from.Unlinked? && mode.XmmR? {
      assert (s, mode.x) in e.conv;
    }
    SlotArrives(fpu, from, mode, spilled, e.ctx.slots[s], m, e, m1, n, s);
  }

  lemma {:induction false} SettledLinked(
      from: LinkMode, mode: LinkMode, spilled: bool, now: LinkMode, m: Machine, m1: Machine, s: SlotId)
    requires SlotSettled(from, mode, spilled, now, m, m1, s) && !from.Unlinked? && !mode.Unlinked?
    ensures !now.Unlinked?
  {}
}
