/** Edges whose target lets slots share registers: a guard under which they deliver, and why it is not needed. */
module JitSharing {
  import opened Prelude
  import opened JitMachine
  import opened JitContext
  import opened JitMerge
  import opened JitPlacing
  import opened JitJoin

  /** Movers that share a register in the target share one in the source. */
  ghost predicate SharersShare(src: seq<LinkMode>, target: seq<LinkMode>) {
    forall s: SlotId, t: SlotId ::
      Mover(src, target, s) && Mover(src, target, t) && target[s].x == target[t].x ==> src[s].x == src[t].x
  }

  ghost predicate PlacedIn(c0: seq<LinkMode>, target: seq<LinkMode>, x: Xmm, k: SlotId) {
    exists t: SlotId :: t < k && Mover(c0, target, t) && target[t].x == x
  }

  /** Slot s is about to be exchanged out of a register that slots placed before belong in, as the first of those that
      belong in its own. Sharers of a target register count as one. */
  ghost predicate Takes(c0: seq<LinkMode>, target: seq<LinkMode>, c: Ctx, s: SlotId)
    requires |c.xmm| == NUM_XMM && s < |c.slots| == |target|
  {
    && !target[s].Unlinked? && !c.slots[s].Unlinked? && c.slots[s].x != target[s].x && c.xmm[target[s].x] != []
    && PlacedIn(c0, target, c.slots[s].x, s) && !PlacedIn(c0, target, target[s].x, s)
  }

  ghost predicate NobodyTaken(c0: seq<LinkMode>, target: seq<LinkMode>, e: Edge, from: SlotId)
    requires |e.ctx.xmm| == NUM_XMM && from <= |e.ctx.slots| == |target|
    decreases |target| - from
  {
    from < |target| ==>
      !Takes(c0, target, e.ctx, from) && NobodyTaken(c0, target, PlaceSlot(e, target, from), from + 1)
  }

  lemma {:induction false} GuardedStep(c0: Ctx, target: seq<LinkMode>, e: Edge, o: Origins, s: SlotId)
    requires s < |target| && Traced(c0, target, e.ctx, o, s) && |e.ctx.xmm| == NUM_XMM
    requires SharersShare(c0.slots, target) && DeliveredBelow(c0.slots, target, o, s)
    requires !Takes(c0.slots, target, e.ctx, s)
    ensures DeliveredBelow(c0.slots, target, PlaceOrigins(e.ctx, target, s, o), s + 1)
  {
    var c, p := e.ctx, PlaceOrigins(e.ctx, target, s, o);
    assert SlotTraced(c0.slots[s], target[s], c.slots[s], o, false);
    if Mover(c0.slots, target, s) {
      var (l, r) := (c.slots[s].x, target[s].x);
      forall t: SlotId | t < s && Mover(c0.slots, target, t)
        ensures p[target[t].x] == c0.slots[t].x
      {
        assert o[target[t].x] == c0.slots[t].x;
        if target[t].x == l && l != r && c.xmm[r] != [] {
          assert PlacedIn(c0.slots, target, l, s);
          var u: SlotId :| u < s && Mover(c0.slots, target, u) && target[u].x == r;
          assert o[target[u].x] == c0.slots[u].x;
        }
      }
    }
  }

  lemma {:induction false} GuardedSteps(c0: Ctx, target: seq<LinkMode>, e: Edge, o: Origins, from: SlotId)
    requires from <= |target| && Traced(c0, target, e.ctx, o, from) && Joinable(c0.slots, target)
    requires SharersShare(c0.slots, target) && DeliveredBelow(c0.slots, target, o, from)
    requires |e.ctx.xmm| == NUM_XMM && |e.ctx.slots| == |target| && NobodyTaken(c0.slots, target, e, from)
    ensures DeliveredBelow(c0.slots, target, FinalOrigins(e, target, from, o), |target|)
    decreases |target| - from
  {
    hide PlaceSlot; hide PlaceOrigins; hide SharersShare; hide DeliveredBelow; hide Takes; hide Traced;
    if from < |target| {
      GuardedStep(c0, target, e, o, from);
      PlaceSlotTraced(c0, target, e, o, from);
      TracedSizes(c0, target, PlaceSlot(e, target, from).ctx, PlaceOrigins(e.ctx, target, from, o), from + 1);
      GuardedSteps(c0, target, PlaceSlot(e, target, from), PlaceOrigins(e.ctx, target, from, o), from + 1);
    }
  }

  /** Whatever the target shares: an edge delivers if those who are to share do so to begin with (which they must), and
      no exchange takes a register's content from those placed in it. */
  lemma {:induction false} GuardDelivers(src: Ctx, target: seq<LinkMode>)
    requires Consistent(src) && Joinable(src.slots, target) && SharersShare(src.slots, target)
    ensures |src.xmm| == NUM_XMM
    ensures NobodyTaken(src.slots, target, Edge(FreeSlots(src, target, 0).0, [], [], []), 0) ==> Delivers(src, target)
  {
    hide FreeSlots; hide FinalOrigins; hide Identity; hide Consistent; hide NobodyTaken; hide PlaceSlots;
    SizeOf(src);
    PlacingBegins(src, target);
    var c := FreeSlots(src, target, 0).0;
    var e := Edge(c, [], [], []);
    ThinnedMovers(src.slots, target, c);
    SameGuard(src.slots, c.slots, target, e, 0);
    if NobodyTaken(src.slots, target, e, 0) { GuardedSteps(c, target, e, Identity(), 0); }
  }

  /** Which slots are movers is all that the guard looks at in the source. */
  lemma {:induction false} SameGuard(
      src: seq<LinkMode>, c0: seq<LinkMode>, target: seq<LinkMode>, e: Edge, from: SlotId)
    requires |e.ctx.xmm| == NUM_XMM && from <= |e.ctx.slots| == |target|
    requires forall s: SlotId :: Mover(c0, target, s) <==> Mover(src, target, s)
    ensures NobodyTaken(c0, target, e, from) <==> NobodyTaken(src, target, e, from)
    decreases |target| - from
  {
    hide Mover; hide PlaceSlot;
    if from < |target| { SameGuard(src, c0, target, PlaceSlot(e, target, from), from + 1); }
  }

  // ----- the guard is not necessary -----

  /** Slots 0, 1 and 3 share a register; slot 2 has the one that slot 1 is to go to. */
  function Crowded(): Ctx {
    Ctx([XmmR(0), XmmR(0), XmmR(1), XmmR(0)],
        seq(NUM_XMM, x => if x == 0 then [0, 1, 3] else if x == 1 then [2] else []))
  }

  const APART: seq<LinkMode> := [XmmR(0), XmmR(1), XmmR(2), XmmR(0)]

  lemma {:induction false} CrowdedConsistent()
    ensures Consistent(Crowded()) && Joinable(Crowded().slots, APART) && SharersShare(Crowded().slots, APART)
    ensures |Crowded().xmm| == NUM_XMM
  {
    var c := Crowded();
    forall x: Xmm, s: SlotId ensures s in c.xmm[x] <==> Linked(c, s) && c.slots[s].x == x {
      assert c.slots[0].x == c.slots[1].x == c.slots[3].x == 0 && c.slots[2].x == 1;
    }
  }

  /** Slot 1 is exchanged out of the register of slot 0 and takes its content along; but the register is empty again
      when slot 3 is moved there from the register of slot 1, which brings the content back. */
  lemma {:induction false} TakenYetDelivered()
    ensures |Crowded().xmm| == NUM_XMM && |Crowded().slots| == |APART|
    ensures Delivers(Crowded(), APART)
    ensures !NobodyTaken(Crowded().slots, APART, Edge(FreeSlots(Crowded(), APART, 0).0, [], [], []), 0)
  {
    hide FreeSlots; hide PlaceSlot; hide PlaceOrigins; hide Takes;
    CrowdedConsistent();
    var (c, o) := (Crowded(), Identity());
    NothingToFree(c, APART, 0);
    var e0 := Edge(c, [], [], []);
    StaysPut(e0, APART, 0);
    assert PlaceOrigins(c, APART, 0, o) == o by { NoMove(c, 0, o); }
    var e1 := PlaceSlot(e0, APART, 0);
    ExchangeOut(e1, o);
    var (e2, o2) := (PlaceSlot(e1, APART, 1), PlaceOrigins(e1.ctx, APART, 1, o));
    MoveOn(e2, o2);
    var (e3, o3) := (PlaceSlot(e2, APART, 2), PlaceOrigins(e2.ctx, APART, 2, o2));
    BringBack(e3, o3);
    var (e4, o4) := (PlaceSlot(e3, APART, 3), PlaceOrigins(e3.ctx, APART, 3, o3));
    assert FinalOrigins(e4, APART, 4, o4) == o4;
    assert FinalOrigins(e3, APART, 3, o3) == o4;
    assert FinalOrigins(e2, APART, 2, o2) == o4;
    assert FinalOrigins(e1, APART, 1, o) == o4;
    assert FinalOrigins(e0, APART, 0, o) == o4;
    assert !NobodyTaken(c.slots, APART, e1, 1);
  }

  lemma {:induction false} NoMove(c: Ctx, s: SlotId, o: Origins)
    requires |c.xmm| == NUM_XMM && s < |c.slots| == |APART| && c.slots[s] == APART[s]
    ensures PlaceOrigins(c, APART, s, o) == o
  {}

  lemma {:induction false} ExchangeOut(e: Edge, o: Origins)
    requires e.ctx == Crowded() && |e.ctx.xmm| == NUM_XMM
    ensures Takes(Crowded().slots, APART, e.ctx, 1)
    ensures var d := PlaceSlot(e, APART, 1).ctx;
            && d.slots == [XmmR(1), XmmR(1), XmmR(0), XmmR(1)]
            && d.xmm[0] == [2] && d.xmm[1] == [0, 1, 3] && d.xmm[2] == []
    ensures PlaceOrigins(e.ctx, APART, 1, o) == o[0 := o[1]][1 := o[0]]
  {
    hide WriteBackSingle; hide ExchangeCode;
    assert PlacedIn(Crowded().slots, APART, 0, 1) by { assert Mover(Crowded().slots, APART, 0); }
    assert PlaceSlot(e, APART, 1).ctx == Swap(e.ctx, 0, 1);
  }

  lemma {:induction false} MoveOn(e: Edge, o: Origins)
    requires |e.ctx.xmm| == NUM_XMM && e.ctx.slots == [XmmR(1), XmmR(1), XmmR(0), XmmR(1)]
    requires e.ctx.xmm[0] == [2] && e.ctx.xmm[1] == [0, 1, 3] && e.ctx.xmm[2] == []
    ensures var d := PlaceSlot(e, APART, 2).ctx;
            && d.slots == [XmmR(1), XmmR(1), XmmR(2), XmmR(1)] && d.xmm[0] == [] && d.xmm[1] == [0, 1, 3]
    ensures PlaceOrigins(e.ctx, APART, 2, o) == o[2 := o[0]]
  {
    hide WriteBackSingle; hide ExchangeCode;
    assert Without([2], 2) == [];
  }

  lemma {:induction false} BringBack(e: Edge, o: Origins)
    requires |e.ctx.xmm| == NUM_XMM && e.ctx.slots == [XmmR(1), XmmR(1), XmmR(2), XmmR(1)]
    requires e.ctx.xmm[0] == [] && e.ctx.xmm[1] == [0, 1, 3]
    ensures PlaceOrigins(e.ctx, APART, 3, o) == o[0 := o[1]]
  {}
}
