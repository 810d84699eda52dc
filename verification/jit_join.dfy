/** Joins: the linkage a block with several predecessors starts from. */
module JitJoin {
  import opened Prelude
  import opened JitMachine
  import opened JitContext
  import opened JitDeopt
  import opened JitMerge
  import opened JitPlacing
  import opened JitStep

  function MergeMode(l: LinkMode, r: LinkMode): LinkMode {
    match (l, r)
    case (XmmR(x), XmmR(_)) => XmmR(x)
    case (XmmR(x), XmmRW(_)) => XmmR(x)
    case (XmmRW(x), XmmR(_)) => XmmR(x)
    case (XmmRW(x), XmmRW(_)) => XmmRW(x)
    case _ => Unlinked
  }

  function MergeInfo(l: seq<LinkMode>, r: seq<LinkMode>): (m: seq<LinkMode>)
    requires |l| == |r|
    ensures |m| == |l| && forall s :: 0 <= s < |l| ==> m[s] == MergeMode(l[s], r[s])
  {
    seq(|l|, s requires 0 <= s < |l| => MergeMode(l[s], r[s]))
  }

  ghost predicate SameWidth(entries: seq<seq<LinkMode>>, width: nat) {
    forall i :: 0 <= i < |entries| ==> |entries[i]| == width
  }

  /** The links of the first entry, weakened by those of the others. */
  function MergeEntries(entries: seq<seq<LinkMode>>): (m: seq<LinkMode>)
    requires entries != [] && SameWidth(entries, |entries[0]|)
    ensures |m| == |entries[0]|
  {
    if |entries| == 1 then entries[0]
    else MergeInfo(MergeEntries(entries[..|entries| - 1]), entries[|entries| - 1])
  }

  /** A slot stays unlinked if some predecessor leaves it so, lives in a register only if all agree on
      that, and otherwise in both; the register is the first predecessor's. */
  lemma {:induction false} MergeEntriesMeaning(entries: seq<seq<LinkMode>>, s: nat)
    requires entries != [] && SameWidth(entries, |entries[0]|) && s < |entries[0]|
    ensures MergeEntries(entries)[s].Unlinked? <==> exists i :: 0 <= i < |entries| && entries[i][s].Unlinked?
    ensures MergeEntries(entries)[s].XmmRW? <==> forall i :: 0 <= i < |entries| ==> entries[i][s].XmmRW?
    ensures !MergeEntries(entries)[s].Unlinked? ==>
      !entries[0][s].Unlinked? && MergeEntries(entries)[s].x == entries[0][s].x
  {
    var last := |entries| - 1;
    if last > 0 {
      var init := entries[..last];
      assert forall i :: 0 <= i < last ==> init[i] == entries[i];
      MergeEntriesMeaning(init, s);
    } else {
      assert |entries| == 1 && entries[0] == MergeEntries(entries);
    }
  }

  /** The edge from any predecessor into the join has code for every slot, and loads none. */
  lemma {:induction false} JoinIsJoinable(entries: seq<seq<LinkMode>>, i: nat)
    requires i < |entries| && SameWidth(entries, |entries[0]|)
    ensures Joinable(entries[i], MergeEntries(entries)) && NoLoads(entries[i], MergeEntries(entries))
  {
    forall s: SlotId | s < |entries[i]|
      ensures entries[i][s].Unlinked? ==> MergeEntries(entries)[s].Unlinked?
    {
      MergeEntriesMeaning(entries, s);
    }
  }

  // ----- loop heads -----

  /** The linkage of a loop head: each slot the loop uses as a float gets a register of its own, writable
      where the merge is writable and the loop keeps the slot a float. None: out of registers. */
  function LoopTarget(c: Ctx, useSet: seq<(SlotId, bool)>, merged: seq<LinkMode>): Option<Ctx>
    requires |c.xmm| == NUM_XMM && |c.slots| == |merged|
    requires forall i :: 0 <= i < |useSet| ==> useSet[i].0 < |merged|
    decreases |useSet|
  {
    if useSet == [] then Some(c)
    else
      var (reg, isFloat) := useSet[0];
      if merged[reg].Unlinked? then LoopTarget(c, useSet[1..], merged)
      else match FirstFree(c.xmm)
        case None => None
        case Some(x) =>
          LoopTarget(Link(c, reg, if merged[reg].XmmRW? && isFloat then XmmRW(x) else XmmR(x)), useSet[1..], merged)
  }

  ghost predicate Increasing(useSet: seq<(SlotId, bool)>) {
    forall i, j :: 0 <= i < j < |useSet| ==> useSet[i].0 < useSet[j].0
  }

  ghost predicate Uses(useSet: seq<(SlotId, bool)>, s: SlotId) {
    exists i :: 0 <= i < |useSet| && useSet[i].0 == s
  }

  lemma {:induction false} UsesTail(useSet: seq<(SlotId, bool)>)
    requires useSet != [] && Increasing(useSet)
    ensures Increasing(useSet[1..])
    ensures forall s: SlotId :: Uses(useSet, s) <==> s == useSet[0].0 || Uses(useSet[1..], s)
    ensures !Uses(useSet[1..], useSet[0].0)
  {
    var rest := useSet[1..];
    assert forall i :: 0 <= i < |rest| ==> rest[i] == useSet[i + 1];
    forall s: SlotId
      ensures Uses(useSet, s) <==> s == useSet[0].0 || Uses(rest, s)
    {
      if Uses(useSet, s) {
        var i :| 0 <= i < |useSet| && useSet[i].0 == s;
        assert i > 0 ==> rest[i - 1].0 == s;
      }
    }
  }

  /** How the loop head links a slot that the loop uses: in a register only if the merge is and the loop keeps the
      slot a Float, in both if the merge is linked otherwise. */
  predicate HeadMode(useSet: seq<(SlotId, bool)>, merged: seq<LinkMode>, s: SlotId, mode: LinkMode)
    requires s < |merged|
  {
    && (mode.XmmRW? <==> merged[s].XmmRW? && (s, true) in useSet)
    && (mode.XmmR? <==> !merged[s].Unlinked? && !(merged[s].XmmRW? && (s, true) in useSet))
  }

  /** The first use decides for its slot, the others for theirs. */
  lemma {:induction false} HeadModeStep(
      useSet: seq<(SlotId, bool)>, merged: seq<LinkMode>, s: SlotId, mode: LinkMode, x: Xmm)
    requires useSet != [] && Increasing(useSet) && s < |merged| && useSet[0].0 < |merged|
    ensures s != useSet[0].0 ==> (HeadMode(useSet, merged, s, mode) <==> HeadMode(useSet[1..], merged, s, mode))
    ensures var (reg, isFloat) := useSet[0];
            HeadMode(useSet, merged, reg,
                     if merged[reg].Unlinked? then Unlinked
                     else if merged[reg].XmmRW? && isFloat then XmmRW(x) else XmmR(x))
  {}

  lemma {:induction false} LoopTargetMeaning(c: Ctx, useSet: seq<(SlotId, bool)>, merged: seq<LinkMode>)
    requires Consistent(c) && Exclusive(c) && |c.slots| == |merged| && Increasing(useSet)
    requires forall i :: 0 <= i < |useSet| ==> useSet[i].0 < |merged| && c.slots[useSet[i].0].Unlinked?
    requires LoopTarget(c, useSet, merged).Some?
    ensures var t := LoopTarget(c, useSet, merged).value;
            && Consistent(t) && Exclusive(t) && |t.slots| == |merged|
            && forall s: SlotId :: s < |merged| ==>
                 && (!Uses(useSet, s) ==> t.slots[s] == c.slots[s])
                 && (Uses(useSet, s) ==> HeadMode(useSet, merged, s, t.slots[s]))
    decreases |useSet|
  {
    if useSet != [] {
      hide FirstFree; hide Consistent; hide Exclusive; hide Uses; hide HeadMode;
      var (reg, isFloat) := useSet[0];
      var rest := useSet[1..];
      UsesTail(useSet);
      forall s: SlotId, mode: LinkMode | s < |merged| && s != reg
        ensures HeadMode(useSet, merged, s, mode) <==> HeadMode(rest, merged, s, mode)
      {
        HeadModeStep(useSet, merged, s, mode, 0);
      }
      assert forall i :: 0 <= i < |rest| ==> rest[i] == useSet[i + 1] && rest[i].0 > reg;
      if merged[reg].Unlinked? {
        HeadModeStep(useSet, merged, reg, Unlinked, 0);
        LoopTargetMeaning(c, rest, merged);
      } else {
        var x := FirstFree(c.xmm).value;
        HeadModeStep(useSet, merged, reg, Unlinked, x);
        var mode := if merged[reg].XmmRW? && isFloat then XmmRW(x) else XmmR(x);
        LinkConsistent(c, reg, mode);
        LoopTargetMeaning(Link(c, reg, mode), rest, merged);
      }
    }
  }

  /** What an entry keeps after the slots the loop does not need are dropped. */
  function Pruned(slots: seq<LinkMode>, unused: seq<SlotId>): (r: seq<LinkMode>)
    ensures |r| == |slots|
  {
    seq(|slots|, s requires 0 <= s < |slots| => if s in unused then Unlinked else slots[s])
  }

  /** Dropping unused slots cannot strand a slot that the loop head expects in a register only, because
      no slot is both used and unused. */
  lemma {:induction false} LoopHeadIsJoinable(
      entries: seq<seq<LinkMode>>, i: nat, useSet: seq<(SlotId, bool)>, unused: seq<SlotId>, target: Ctx)
    requires i < |entries| && SameWidth(entries, |entries[0]|)
    requires Increasing(useSet) && forall k :: 0 <= k < |useSet| ==> useSet[k].0 < |entries[0]|
    requires LoopTarget(Empty(|entries[0]|), useSet, MergeEntries(entries)) == Some(target)
    requires forall s :: s in unused ==> !Uses(useSet, s)
    ensures Consistent(target) && TargetApart(target.slots) && Joinable(Pruned(entries[i], unused), target.slots)
  {
    var merged := MergeEntries(entries);
    EmptyConsistent(|merged|);
    LoopTargetMeaning(Empty(|merged|), useSet, merged);
    forall s: SlotId | s < |merged|
      ensures !(Pruned(entries[i], unused)[s].Unlinked? && target.slots[s].XmmRW?)
    {
      MergeEntriesMeaning(entries, s);
    }
    forall s: SlotId, t: SlotId | Linked(target, s) && Linked(target, t) && s != t
      ensures target.slots[s].x != target.slots[t].x
    {}
  }

  /** After the drop, the picture is still true of every slot but the dropped ones. */
  lemma {:induction false} PruneKeepsInStep(
      fpu: Fpu, c: Ctx, d: Ctx, m: Machine, truth: seq<Value>, unused: seq<SlotId>, dead: set<SlotId>, g: Grade)
    requires Represents(fpu, c, m, truth, dead, g)
    requires Consistent(d) && d.slots == Pruned(c.slots, unused)
    ensures Represents(fpu, d, m, truth, dead + (set s | s in unused), g)
  {
    forall s: SlotId | s < |truth| && s !in unused && s !in dead
      ensures Holds(fpu, d.slots[s], m, s, truth[s], g)
    {
      assert Holds(fpu, c.slots[s], m, s, truth[s], g);
    }
  }

  function Slots(ctxs: seq<Ctx>): (r: seq<seq<LinkMode>>)
    ensures |r| == |ctxs|
  {
    seq(|ctxs|, i requires 0 <= i < |ctxs| => ctxs[i].slots)
  }

  ghost predicate Entries(ctxs: seq<Ctx>, width: nat) {
    ctxs != [] && forall j :: 0 <= j < |ctxs| ==> Consistent(ctxs[j]) && |ctxs[j].slots| == width
  }

  /** A forward edge into a join keeps compiled code in step with the interpreter, whatever slots share
      registers in the entries, if and only if it delivers. */
  lemma {:induction false} JoinEdgeExactly(fpu: Fpu, ctxs: seq<Ctx>, target: Ctx, i: nat)
    requires i < |ctxs| && Entries(ctxs, |target.slots|)
    requires Consistent(target) && target.slots == MergeEntries(Slots(ctxs))
    ensures |ctxs[i].xmm| == NUM_XMM && Plain(ctxs[i].slots, target.slots)
    ensures Delivers(ctxs[i], target.slots)
            <==> forall m: Machine, truth: seq<Value> :: Represents(fpu, ctxs[i], m, truth, {}, ByNumber) ==>
                   EdgeInStep(fpu, ctxs[i], target, m, truth, {}, ByNumber)
  {
    hide Delivers; hide EdgeInStep; hide Represents;
    JoinIsJoinable(Slots(ctxs), i);
    DeliversExactly(fpu, ctxs[i], target, {});
  }

  /** Slots that share a register in the first entry, and are linked in all, must share one in every entry. */
  lemma {:induction false} JoinNeedsSharing(ctxs: seq<Ctx>, target: seq<LinkMode>, i: nat, s: SlotId, t: SlotId)
    requires i < |ctxs| && Entries(ctxs, |target|) && target == MergeEntries(Slots(ctxs))
    requires s < |target| && t < |target| && !target[s].Unlinked? && !target[t].Unlinked?
    requires |ctxs[i].xmm| == NUM_XMM && Delivers(ctxs[i], target)
    ensures Linked(ctxs[0], s) && Linked(ctxs[0], t) && Linked(ctxs[i], s) && Linked(ctxs[i], t)
    ensures ctxs[0].slots[s].x == ctxs[0].slots[t].x ==> ctxs[i].slots[s].x == ctxs[i].slots[t].x
  {
    hide Delivers;
    MergeEntriesMeaning(Slots(ctxs), s);
    MergeEntriesMeaning(Slots(ctxs), t);
    assert Slots(ctxs)[i] == ctxs[i].slots && Slots(ctxs)[0] == ctxs[0].slots;
    if ctxs[0].slots[s].x == ctxs[0].slots[t].x { DeliveryNeedsSharing(ctxs[i], target, s, t); }
  }

  /** And it is enough that, among the slots the join links, exactly the same share. */
  lemma {:induction false} JoinKeepsSharing(ctxs: seq<Ctx>, target: seq<LinkMode>, i: nat)
    requires i < |ctxs| && Entries(ctxs, |target|) && target == MergeEntries(Slots(ctxs))
    requires forall s: SlotId, t: SlotId :: Mover(ctxs[i].slots, target, s) && Mover(ctxs[i].slots, target, t) ==>
      (target[s].x == target[t].x <==> ctxs[i].slots[s].x == ctxs[i].slots[t].x)
    ensures |ctxs[i].xmm| == NUM_XMM && Delivers(ctxs[i], target)
  {
    JoinIsJoinable(Slots(ctxs), i);
    SameSharingDelivers(ctxs[i], target);
  }

  /** A forward edge into a loop head, from an entry without the slots the loop will not read, keeps compiled
      code in step apart from those slots, if and only if nobody is evicted. */
  lemma {:induction false} LoopEdgeExactly(
      fpu: Fpu, ctxs: seq<Ctx>, useSet: seq<(SlotId, bool)>, unused: seq<SlotId>, pruned: Ctx, target: Ctx, i: nat)
    requires i < |ctxs| && Entries(ctxs, |ctxs[0].slots|)
    requires Increasing(useSet) && forall k :: 0 <= k < |useSet| ==> useSet[k].0 < |ctxs[0].slots|
    requires LoopTarget(Empty(|ctxs[0].slots|), useSet, MergeEntries(Slots(ctxs))) == Some(target)
    requires forall s :: s in unused ==> !Uses(useSet, s)
    requires Consistent(pruned) && pruned.slots == Pruned(ctxs[i].slots, unused)
    ensures |pruned.slots| == |target.slots| && |pruned.xmm| == NUM_XMM && Plain(pruned.slots, target.slots)
    ensures var dead := set s | s in unused;
            var c := FreeSlots(pruned, target.slots, 0).0;
            NobodyEvicted(pruned.slots, target.slots, Edge(c, [], [], []), 0)
            <==> forall m: Machine, truth: seq<Value> :: Represents(fpu, pruned, m, truth, dead, ByNumber) ==>
                   EdgeInStep(fpu, pruned, target, m, truth, dead, ByNumber)
  {
    hide Delivers; hide EdgeInStep; hide Represents; hide NobodyEvicted; hide FreeSlots; hide LoopTarget;
    hide TargetApart;
    hide MergeEntries;
    LoopHeadIsJoinable(Slots(ctxs), i, useSet, unused, target);
    DeliversUnlessEvicted(pruned, target.slots);
    DeliversExactly(fpu, pruned, target, set s | s in unused);
  }

  // ----- slots that share a register through a copy -----

  /** The context of n slots after float operations have defined the slots of `defs`, one after the other. */
  function Floats(c: Ctx, defs: seq<SlotId>): Option<Ctx>
    requires |c.xmm| == NUM_XMM && forall i :: 0 <= i < |defs| ==> defs[i] < |c.slots|
    decreases |defs|
  {
    if defs == [] then Some(c)
    else match XmmWrite(c, defs[0])
      case None => None
      case Some((d, _)) => if |d.xmm| == NUM_XMM && |d.slots| == |c.slots| then Floats(d, defs[1..]) else None
  }

  lemma {:induction false} FloatsFirst(c: Ctx, defs: seq<SlotId>)
    requires |c.xmm| == NUM_XMM && defs != [] && forall i :: 0 <= i < |defs| ==> defs[i] < |c.slots|
    requires XmmWrite(c, defs[0]).Some?
    ensures var d := XmmWrite(c, defs[0]).value.0;
            |d.xmm| == NUM_XMM && |d.slots| == |c.slots| ==> Floats(c, defs) == Floats(d, defs[1..])
  {}

  lemma {:induction false} TwoFloats(n: nat, s: SlotId, t: SlotId)
    requires s < n && t < n && s != t
    ensures Floats(Empty(n), [s]) == Some(Link(Empty(n), s, XmmRW(0)))
    ensures Floats(Empty(n), [s, t]) == Some(Link(Link(Empty(n), s, XmmRW(0)), t, XmmRW(1)))
  {
    hide Link; hide Floats;
    var c := Empty(n);
    assert XmmWrite(c, s) == Some((Link(c, s, XmmRW(0)), 0));
    var d := Link(c, s, XmmRW(0));
    LinkIs(c, s, XmmRW(0));
    assert c.xmm[0] + [s] == [s];
    assert d.slots == c.slots[s := XmmRW(0)] && d.xmm == c.xmm[0 := [s]];
    assert FirstFree(d.xmm, 1) == Some(1);
    assert XmmWrite(d, t) == Some((Link(d, t, XmmRW(1)), 1));
    LinkIs(d, t, XmmRW(1));
    FloatsFirst(c, [s]);
    FloatsFirst(c, [s, t]);
    FloatsFirst(d, [t]);
    assert [s, t][1..] == [t] && [s][1..] == [] && [t][1..] == [];
    FloatsNone(d);
    FloatsNone(Link(d, t, XmmRW(1)));
  }

  lemma {:induction false} LinkIs(c: Ctx, s: SlotId, mode: LinkMode)
    requires |c.xmm| == NUM_XMM && s < |c.slots| && !mode.Unlinked?
    ensures Link(c, s, mode) == Ctx(c.slots[s := mode], c.xmm[mode.x := c.xmm[mode.x] + [s]])
  {}

  lemma {:induction false} FloatsNone(c: Ctx)
    requires |c.xmm| == NUM_XMM
    ensures Floats(c, []) == Some(c)
  {}

  /** `if c then x = f; y = x else x = f; y = g end`: the first entry lets x and y share a register, so the join
      does; the second entry exchanges them, and slot 0 is left with the number of slot 1. */
  lemma {:induction false} JoinAfterCopyMisdelivers(fpu: Fpu, one: Ctx, src: Ctx, target: Ctx)
    requires Floats(Empty(2), [0]) == Some(one) && Floats(Empty(2), [0, 1]) == Some(src)
    requires |one.xmm| == |src.xmm| == NUM_XMM && |one.slots| == |src.slots| == 2 && Consistent(target)
    requires target.slots == MergeEntries([CopySlot(one, 0, 1).0.slots, src.slots])
    ensures Consistent(src) && |target.slots| == 2 && src.slots[0] == target.slots[0] == XmmRW(0)
    ensures EdgeOrigins(src, target.slots)[0] == 1
    ensures !EdgeInStep(fpu, src, target, Witness(src), Witness(src).stack, {}, ByNumber)
  {
    hide EdgeInStep; hide Witness; hide Floats; hide FinalOrigins; hide FreeSlots; hide MergeEntries; hide NoLoads;
    TwoFloats(2, 0, 1);
    var copied := CopySlot(one, 0, 1).0;
    assert copied.slots == [XmmRW(0), XmmRW(0)];
    assert src.slots == [XmmRW(0), XmmRW(1)] && src.xmm[0] == [0] && src.xmm[1] == [1];
    EmptyConsistent(2);
    LinkConsistent(Empty(2), 0, XmmRW(0));
    LinkConsistent(Link(Empty(2), 0, XmmRW(0)), 1, XmmRW(1));
    MergeTwo(copied.slots, src.slots);
    assert target.slots == [XmmRW(0), XmmRW(0)];
    JoinIsJoinable([copied.slots, src.slots], 1);
    ExchangedOrigins(src, target.slots);
    assert Mover(src.slots, target.slots, 0);
    MisdeliveryShows(fpu, src, target, 0, {});
  }

  lemma {:induction false} MergeTwo(a: seq<LinkMode>, b: seq<LinkMode>)
    requires |a| == |b|
    ensures MergeEntries([a, b]) == MergeInfo(a, b)
  {
    assert [a, b][..1] == [a];
    assert MergeEntries([a]) == a;
  }

  lemma {:induction false} ExchangedOrigins(src: Ctx, target: seq<LinkMode>)
    requires |src.xmm| == NUM_XMM && src.slots == [XmmRW(0), XmmRW(1)] && target == [XmmRW(0), XmmRW(0)]
    requires src.xmm[0] == [0] && src.xmm[1] == [1]
    ensures EdgeOrigins(src, target)[0] == 1
  {
    hide MoveSlot; hide WriteBackSingle;
    NothingToFree(src, target, 0);
    var e0 := Edge(src, [], [], []);
    var o := Identity();
    var e1 := PlaceSlot(e0, target, 0);
    StaysPut(e0, target, 0);
    assert PlaceOrigins(src, target, 0, o) == o;
    assert PlaceOrigins(e1.ctx, target, 1, o) == o[1 := o[0]][0 := o[1]];
    var e2 := PlaceSlot(e1, target, 1);
    assert FinalOrigins(e2, target, 2, o[1 := o[0]][0 := o[1]]) == o[1 := o[0]][0 := o[1]];
    assert FinalOrigins(e1, target, 1, o) == FinalOrigins(e2, target, 2, o[1 := o[0]][0 := o[1]]);
    assert FinalOrigins(e0, target, 0, o) == FinalOrigins(e1, target, 1, o);
  }

  lemma {:induction false} StaysPut(e: Edge, target: seq<LinkMode>, s: SlotId)
    requires |e.ctx.xmm| == NUM_XMM && s < |e.ctx.slots| == |target|
    requires e.ctx.slots[s] == target[s] && !target[s].Unlinked?
    ensures PlaceSlot(e, target, s).ctx == e.ctx
  {
    assert e.ctx.slots[s := target[s]] == e.ctx.slots;
  }

  /** `x = f; z = g; y = x; while … x … y … z …`: the loop gives each slot a register of its own, slot 1 is
      exchanged with slot 2 while it still shares its register with slot 0, and takes slot 0 along. */
  lemma {:induction false} LoopAfterCopyMisdelivers(fpu: Fpu, two: Ctx, src: Ctx, target: Ctx)
    requires Floats(Empty(3), [0, 2]) == Some(two) && |two.xmm| == NUM_XMM && |two.slots| == 3
    requires src == CopySlot(two, 0, 1).0 && |src.slots| == 3
    requires LoopTarget(Empty(3), [(0, true), (1, true), (2, true)], MergeEntries([src.slots])) == Some(target)
    ensures Consistent(src) && |src.xmm| == NUM_XMM && src.slots == [XmmRW(0), XmmRW(0), XmmRW(1)]
    ensures target.slots == [XmmRW(0), XmmRW(1), XmmRW(2)] && EdgeOrigins(src, target.slots)[0] == 1
    ensures !EdgeInStep(fpu, src, target, Witness(src), Witness(src).stack, {}, ByNumber)
  {
    hide EdgeInStep; hide Witness; hide Floats; hide FinalOrigins; hide FreeSlots; hide NoLoads; hide LoopTarget;
    hide MergeEntries;
    TwoFloats(3, 0, 2);
    EmptyConsistent(3);
    LinkConsistent(Empty(3), 0, XmmRW(0));
    LinkConsistent(Link(Empty(3), 0, XmmRW(0)), 2, XmmRW(1));
    assert two.slots == [XmmRW(0), Unlinked, XmmRW(1)] && two.xmm[0] == [0] && two.xmm[1] == [2];
    assert Dealloc(two, 1) == two;
    LinkConsistent(two, 1, XmmRW(0));
    assert src.slots == [XmmRW(0), XmmRW(0), XmmRW(1)] && src.xmm[0] == [0, 1] && src.xmm[1] == [2] && src.xmm[2] == [];
    MergeOne(src.slots);
    ThreeLoopSlots(src.slots);
    assert target.slots == [XmmRW(0), XmmRW(1), XmmRW(2)];
    EvictedOrigins(src, target.slots);
    assert Mover(src.slots, target.slots, 0);
    MisdeliveryShows(fpu, src, target, 0, {});
  }

  lemma {:induction false} MergeOne(a: seq<LinkMode>)
    ensures MergeEntries([a]) == a
  {}

  lemma {:induction false} ThreeLoopSlots(merged: seq<LinkMode>)
    requires merged == [XmmRW(0), XmmRW(0), XmmRW(1)]
    ensures var t := LoopTarget(Empty(3), [(0, true), (1, true), (2, true)], merged);
            t.Some? && t.value.slots == [XmmRW(0), XmmRW(1), XmmRW(2)]
  {
    var useSet: seq<(SlotId, bool)> := [(0, true), (1, true), (2, true)];
    var c0 := Empty(3);
    var c1 := Link(c0, 0, XmmRW(0));
    var c2 := Link(c1, 1, XmmRW(1));
    var c3 := Link(c2, 2, XmmRW(2));
    assert useSet[1..] == [(1, true), (2, true)] && useSet[1..][1..] == [(2, true)] && useSet[1..][1..][1..] == [];
    assert FirstFree(c0.xmm) == Some(0);
    assert FirstFree(c1.xmm, 1) == Some(1);
    assert FirstFree(c2.xmm, 2) == Some(2);
    assert FirstFree(c2.xmm, 1) == Some(2);
    assert LoopTarget(c3, useSet[1..][1..][1..], merged) == Some(c3);
    assert LoopTarget(c2, useSet[1..][1..], merged) == Some(c3);
    assert LoopTarget(c1, useSet[1..], merged) == Some(c3);
    assert c3.slots == [XmmRW(0), XmmRW(1), XmmRW(2)];
  }

  lemma {:induction false} EvictedOrigins(src: Ctx, target: seq<LinkMode>)
    requires |src.xmm| == NUM_XMM && src.slots == [XmmRW(0), XmmRW(0), XmmRW(1)]
    requires src.xmm[0] == [0, 1] && src.xmm[1] == [2] && src.xmm[2] == []
    requires target == [XmmRW(0), XmmRW(1), XmmRW(2)]
    ensures EdgeOrigins(src, target)[0] == 1
  {
    hide WriteBackSingle;
    NothingToFree(src, target, 0);
    var e0 := Edge(src, [], [], []);
    var o := Identity();
    var p := o[0 := o[1]][1 := o[0]];
    var q := p[2 := p[0]];
    var e1 := PlaceSlot(e0, target, 0);
    StaysPut(e0, target, 0);
    var e2 := PlaceSlot(e1, target, 1);
    assert e2.ctx == Swap(src, 0, 1);
    assert e2.ctx.slots[2] == XmmRW(0) && e2.ctx.xmm[2] == [];
    var e3 := PlaceSlot(e2, target, 2);
    assert PlaceOrigins(src, target, 0, o) == o && PlaceOrigins(src, target, 1, o) == p
        && PlaceOrigins(e2.ctx, target, 2, p) == q;
    assert FinalOrigins(e3, target, 3, q) == q;
    assert FinalOrigins(e2, target, 2, p) == q;
    assert FinalOrigins(e1, target, 1, o) == q;
    assert FinalOrigins(e0, target, 0, o) == q;
  }

  // ----- the compiler pass -----

  class StackSlotInfo {
    var slots: seq<LinkMode>

    constructor (initial: seq<LinkMode>)
      ensures slots == initial
    {
      slots := initial;
    }

    method Merge(other: seq<LinkMode>)
      requires |other| == |slots|
      modifies this
      ensures slots == MergeInfo(old(slots), other)
    {
      var i := 0;
      while i < |slots|
        invariant i <= |slots| == |other|
        invariant forall s :: 0 <= s < |slots| ==>
          slots[s] == if s < i then MergeMode(old(slots)[s], other[s]) else old(slots)[s]
      {
        slots := slots[i := MergeMode(slots[i], other[i])];
        i := i + 1;
      }
    }
  }

  method MergeAll(entries: seq<seq<LinkMode>>) returns (target: StackSlotInfo)
    requires entries != [] && SameWidth(entries, |entries[0]|)
    ensures fresh(target) && target.slots == MergeEntries(entries)
  {
    target := new StackSlotInfo(entries[0]);
    var i := 1;
    while i < |entries|
      invariant 1 <= i <= |entries| && fresh(target)
      invariant target.slots == MergeEntries(entries[..i])
    {
      assert entries[..i + 1][..i] == entries[..i];
      target.Merge(entries[i]);
      i := i + 1;
    }
    assert entries[..i] == entries;
  }

  /** Builds the loop head's context; the compiler must not run out of registers. */
  method LoopHeadContext(useSet: seq<(SlotId, bool)>, merged: seq<LinkMode>) returns (ctx: BBContext)
    requires forall i :: 0 <= i < |useSet| ==> useSet[i].0 < |merged|
    requires LoopTarget(Empty(|merged|), useSet, merged).Some?
    ensures fresh(ctx) && LoopTarget(Empty(|merged|), useSet, merged) == Some(ctx.View())
    ensures |ctx.View().slots| == |merged|
    ensures Increasing(useSet) ==>
              forall s: SlotId :: s < |merged| ==>
                if Uses(useSet, s) then HeadMode(useSet, merged, s, ctx.View().slots[s])
                else ctx.View().slots[s].Unlinked?
  {
    ctx := new BBContext(|merged|);
    var i := 0;
    while i < |useSet|
      invariant i <= |useSet| && fresh(ctx) && |ctx.xmm| == NUM_XMM && |ctx.stackSlot| == |merged|
      invariant LoopTarget(ctx.View(), useSet[i..], merged) == LoopTarget(Empty(|merged|), useSet, merged)
    {
      assert useSet[i..][1..] == useSet[i + 1..];
      var (reg, isFloat) := useSet[i];
      if !merged[reg].Unlinked? {
        var freg := ctx.AllocXmm();
        ctx.LinkXmm(reg, if merged[reg].XmmRW? && isFloat then XmmRW(freg) else XmmR(freg));
      }
      i := i + 1;
    }
    if Increasing(useSet) {
      EmptyConsistent(|merged|);
      LoopTargetMeaning(Empty(|merged|), useSet, merged);
    }
  }
}
