/** Which edges put every slot into the right register, whoever shares a register with whom. All of it is known
    to the compiler: nothing here depends on the machine. */
module JitPlacing {
  import opened Prelude
  import opened JitMachine
  import opened JitContext
  import opened JitMerge

  /** The slot goes from register to register. */
  predicate Mover(src: seq<LinkMode>, target: seq<LinkMode>, s: SlotId) {
    s < |src| && s < |target| && !src[s].Unlinked? && !target[s].Unlinked?
  }

  /** For each register at the end of the edge, the register its content was in at the beginning. */
  function EdgeOrigins(src: Ctx, target: seq<LinkMode>): Origins
    requires |src.xmm| == NUM_XMM && |src.slots| == |target|
  {
    FinalOrigins(Edge(FreeSlots(src, target, 0).0, [], [], []), target, 0, Identity())
  }

  /** Every mover finds its own content in the register where the target expects it. */
  ghost predicate Delivers(src: Ctx, target: seq<LinkMode>)
    requires |src.xmm| == NUM_XMM && |src.slots| == |target|
  {
    forall s: SlotId :: Mover(src.slots, target, s) ==> EdgeOrigins(src, target)[target[s].x] == src.slots[s].x
  }

  ghost predicate TargetApart(target: seq<LinkMode>) {
    forall s: SlotId, t: SlotId ::
      s < |target| && t < |target| && s != t && !target[s].Unlinked? && !target[t].Unlinked? ==>
        target[s].x != target[t].x
  }

  /** No slot has to be loaded. */
  ghost predicate NoLoads(src: seq<LinkMode>, target: seq<LinkMode>) {
    forall s: SlotId :: s < |src| && s < |target| && src[s].Unlinked? ==> target[s].Unlinked?
  }

  /** The edges that the compiler emits: into a loop head, whose slots have registers of their own, or into
      a join, which links no slot that an entry does not link. */
  ghost predicate Plain(src: seq<LinkMode>, target: seq<LinkMode>) {
    Joinable(src, target) && (TargetApart(target) || NoLoads(src, target))
  }

  // ----- what the first pass leaves for the second -----

  /** The first pass takes links away but moves nothing. */
  ghost predicate Thinned(src: seq<LinkMode>, target: seq<LinkMode>, c: Ctx, k: nat) {
    && |src| == |target| == |c.slots| && |c.xmm| == NUM_XMM
    && forall s: SlotId :: s < |src| ==>
         && (c.slots[s].Unlinked? <==> src[s].Unlinked? || (s < k && target[s].Unlinked?))
         && (!c.slots[s].Unlinked? ==> c.slots[s].x == src[s].x)
  }

  lemma {:induction false} FreeSlotThins(src: seq<LinkMode>, target: seq<LinkMode>, c: Ctx, s: SlotId)
    requires s < |src| && Thinned(src, target, c, s) && Consistent(c)
    ensures Thinned(src, target, FreeSlot(c, target, s).0, s + 1) && Consistent(FreeSlot(c, target, s).0)
  {
    var d := FreeSlot(c, target, s).0;
    if target[s].Unlinked? && !c.slots[s].Unlinked? {
      var x := c.slots[s].x;
      RemodeAllConsistent(c, x);
      DeallocConsistent(c.(slots := RemodeAll(c.slots, c.xmm[x], x)), s);
      DeallocConsistent(c, s);
      forall t: SlotId | t in c.xmm[x]
        ensures Linked(c, t) && c.slots[t].x == x
      {}
    }
  }

  lemma {:induction false} FreeSlotsThin(src: seq<LinkMode>, target: seq<LinkMode>, c: Ctx, from: SlotId)
    requires from <= |src| && Thinned(src, target, c, from) && Consistent(c)
    ensures Thinned(src, target, FreeSlots(c, target, from).0, |src|) && Consistent(FreeSlots(c, target, from).0)
    decreases |src| - from
  {
    hide FreeSlot; hide Consistent;
    if from < |src| {
      FreeSlotThins(src, target, c, from);
      FreeSlotsThin(src, target, FreeSlot(c, target, from).0, from + 1);
    }
  }

  /** The second pass begins with every mover in its source register. */
  lemma {:induction false} PlacingBegins(src: Ctx, target: seq<LinkMode>)
    requires Consistent(src) && |src.slots| == |target|
    ensures var c := FreeSlots(src, target, 0).0;
            Thinned(src.slots, target, c, |target|) && Traced(c, target, c, Identity(), 0)
  {
    FreeSlotsThin(src.slots, target, src, 0);
  }

  // ----- movers that share a register in the same way before and after -----

  /** Movers share a register in the source exactly if they share one in the target. */
  ghost predicate SameSharing(src: seq<LinkMode>, target: seq<LinkMode>) {
    forall s: SlotId, t: SlotId :: Mover(src, target, s) && Mover(src, target, t) ==>
      (src[s].x == src[t].x <==> target[s].x == target[t].x)
  }

  ghost predicate DeliveredBelow(c0: seq<LinkMode>, target: seq<LinkMode>, o: Origins, k: nat) {
    forall s: SlotId :: s < k && Mover(c0, target, s) ==> o[target[s].x] == c0[s].x
  }

  lemma {:induction false} SharingStep(c0: Ctx, target: seq<LinkMode>, e: Edge, o: Origins, s: SlotId)
    requires s < |target| && Traced(c0, target, e.ctx, o, s)
    requires SameSharing(c0.slots, target) && DeliveredBelow(c0.slots, target, o, s)
    ensures DeliveredBelow(c0.slots, target, PlaceOrigins(e.ctx, target, s, o), s + 1)
  {
    var c, p := e.ctx, PlaceOrigins(e.ctx, target, s, o);
    assert SlotTraced(c0.slots[s], target[s], c.slots[s], o, false);
    if Mover(c0.slots, target, s) {
      forall t: SlotId | t < s && Mover(c0.slots, target, t)
        ensures p[target[t].x] == c0.slots[t].x
      {
        assert o[target[t].x] == c0.slots[t].x;
      }
    }
  }

  lemma {:induction false} SharingSteps(c0: Ctx, target: seq<LinkMode>, e: Edge, o: Origins, from: SlotId)
    requires from <= |target| && Traced(c0, target, e.ctx, o, from) && Joinable(c0.slots, target)
    requires SameSharing(c0.slots, target) && DeliveredBelow(c0.slots, target, o, from)
    ensures |e.ctx.xmm| == NUM_XMM
    ensures DeliveredBelow(c0.slots, target, FinalOrigins(e, target, from, o), |target|)
    decreases |target| - from
  {
    hide PlaceSlot; hide PlaceOrigins; hide SameSharing; hide DeliveredBelow;
    if from < |target| {
      SharingStep(c0, target, e, o, from);
      PlaceSlotTraced(c0, target, e, o, from);
      SharingSteps(c0, target, PlaceSlot(e, target, from), PlaceOrigins(e.ctx, target, from, o), from + 1);
    }
  }

  /** An edge that keeps the sharing as it is delivers: in particular one between linkages without sharing. */
  lemma {:induction false} SameSharingDelivers(src: Ctx, target: seq<LinkMode>)
    requires Consistent(src) && Joinable(src.slots, target) && SameSharing(src.slots, target)
    ensures Delivers(src, target)
  {
    hide FreeSlots; hide FinalOrigins; hide Identity; hide Consistent;
    SizeOf(src);
    PlacingBegins(src, target);
    var c := FreeSlots(src, target, 0).0;
    assert forall s: SlotId :: Mover(c.slots, target, s) <==> Mover(src.slots, target, s);
    SharingSteps(c, target, Edge(c, [], [], []), Identity(), 0);
  }

  /** Where nobody shares, every edge to a target with a register per slot delivers. */
  lemma {:induction false} ExclusiveDelivers(src: Ctx, target: seq<LinkMode>)
    requires Consistent(src) && Exclusive(src) && Joinable(src.slots, target) && TargetApart(target)
    ensures Delivers(src, target)
  {
    forall s: SlotId, t: SlotId | Mover(src.slots, target, s) && Mover(src.slots, target, t)
      ensures src.slots[s].x == src.slots[t].x <==> target[s].x == target[t].x
    {
      assert Linked(src, s) && Linked(src, t);
    }
    SameSharingDelivers(src, target);
  }

  /** Whoever is to share a register must share one to begin with. */
  lemma {:induction false} DeliveryNeedsSharing(src: Ctx, target: seq<LinkMode>, s: SlotId, t: SlotId)
    requires |src.xmm| == NUM_XMM && |src.slots| == |target| && Delivers(src, target)
    requires Mover(src.slots, target, s) && Mover(src.slots, target, t) && target[s].x == target[t].x
    ensures src.slots[s].x == src.slots[t].x
  {
    hide EdgeOrigins;
    assert EdgeOrigins(src, target)[target[s].x] == src.slots[s].x;
    assert EdgeOrigins(src, target)[target[t].x] == src.slots[t].x;
  }

  // ----- targets with registers of their own: nobody is evicted -----

  /** Slot s is about to be exchanged into its register, out of one that also holds a mover already placed:
      the exchange takes that one along. */
  ghost predicate Evicts(c0: seq<LinkMode>, target: seq<LinkMode>, c: Ctx, s: SlotId)
    requires |c.xmm| == NUM_XMM && s < |c.slots| == |target|
  {
    && !target[s].Unlinked? && !c.slots[s].Unlinked? && c.slots[s].x != target[s].x && c.xmm[target[s].x] != []
    && exists t: SlotId :: t < s && Mover(c0, target, t) && c.slots[t] in {XmmR(c.slots[s].x), XmmRW(c.slots[s].x)}
  }

  ghost predicate NobodyEvicted(c0: seq<LinkMode>, target: seq<LinkMode>, e: Edge, from: SlotId)
    requires |e.ctx.xmm| == NUM_XMM && from <= |e.ctx.slots| == |target|
    decreases |target| - from
  {
    from < |target| ==>
      !Evicts(c0, target, e.ctx, from) && NobodyEvicted(c0, target, PlaceSlot(e, target, from), from + 1)
  }

  /** The register of a slot, -1 without one. */
  function RegOf(c: Ctx, s: SlotId): int {
    if s < |c.slots| && !c.slots[s].Unlinked? then c.slots[s].x else -1
  }

  function Wanted(target: seq<LinkMode>, s: SlotId): int {
    if s < |target| && !target[s].Unlinked? then target[s].x else -1
  }

  function Content(o: Origins, x: int): int {
    if 0 <= x < NUM_XMM then o[x] else -1
  }

  /** A mover below k is out of the register where it has been placed. */
  predicate Displaced(c0: Ctx, target: seq<LinkMode>, c: Ctx, s: SlotId, k: nat) {
    s < k && Mover(c0.slots, target, s) && RegOf(c, s) != Wanted(target, s)
  }

  ghost predicate SomeDisplaced(c0: Ctx, target: seq<LinkMode>, c: Ctx, k: nat) {
    exists s: SlotId :: Displaced(c0, target, c, s, k)
  }

  predicate Waits(c0: Ctx, target: seq<LinkMode>, s: SlotId, k: nat) {
    k <= s && Mover(c0.slots, target, s)
  }

  /** The register is one that a slot below k has been placed in. */
  ghost predicate Taken(target: seq<LinkMode>, x: int, k: nat) {
    exists w: SlotId :: w < k && Wanted(target, w) == x && x >= 0
  }

  /** Movers of one origin that wait do so together. */
  ghost predicate WaitTogether(c0: Ctx, target: seq<LinkMode>, c: Ctx, k: nat) {
    forall s: SlotId, t: SlotId ::
      Waits(c0, target, s, k) && Waits(c0, target, t, k) && RegOf(c0, s) == RegOf(c0, t) ==> RegOf(c, s) == RegOf(c, t)
  }

  /** Whoever has been placed is in a taken register. */
  ghost predicate PlacedTaken(target: seq<LinkMode>, c: Ctx, k: nat) {
    forall s: SlotId :: s < k && Wanted(target, s) >= 0 ==> Taken(target, RegOf(c, s), k)
  }

  /** Where a displaced mover belongs there is no content like its own. */
  ghost predicate DisplacedMiss(c0: Ctx, target: seq<LinkMode>, c: Ctx, o: Origins, k: nat) {
    forall s: SlotId :: Displaced(c0, target, c, s, k) ==> Content(o, Wanted(target, s)) != RegOf(c0, s)
  }

  /** And those of its origin that still wait do so in a taken register. */
  ghost predicate DisplacedDrag(c0: Ctx, target: seq<LinkMode>, c: Ctx, k: nat) {
    forall s: SlotId, u: SlotId ::
      Displaced(c0, target, c, s, k) && Waits(c0, target, u, k) && RegOf(c0, u) == RegOf(c0, s) ==>
        Taken(target, RegOf(c, u), k)
  }

  ghost predicate Orderly(c0: Ctx, target: seq<LinkMode>, c: Ctx, o: Origins, k: nat) {
    && Traced(c0, target, c, o, k)
    && WaitTogether(c0, target, c, k) && PlacedTaken(target, c, k)
    && DisplacedMiss(c0, target, c, o, k) && DisplacedDrag(c0, target, c, k)
  }

  // One step is a step without a move, a move to an empty register, or an exchange. The lemmas below
  // see it as a change of RegOf and Content alone.

  datatype Placing = Stays | Moves | Exchanges

  function KindOf(target: seq<LinkMode>, c: Ctx, s: SlotId): Placing
    requires |c.xmm| == NUM_XMM && s < |target|
  {
    var (l, r) := (RegOf(c, s), Wanted(target, s));
    if l < 0 || r < 0 || l == r then Stays else if c.xmm[r] == [] then Moves else Exchanges
  }

  ghost predicate Stepped(
      c0: Ctx, target: seq<LinkMode>, c: Ctx, o: Origins, d: Ctx, p: Origins, k: SlotId, kind: Placing)
  {
    var (l, r) := (RegOf(c, k), Wanted(target, k));
    && (r >= 0 ==> RegOf(d, k) == r)
    && (forall t: SlotId :: t != k ==>
          RegOf(d, t) == if kind.Exchanges? && RegOf(c, t) == l then r
                         else if kind.Exchanges? && RegOf(c, t) == r then l else RegOf(c, t))
    && (forall x: int :: 0 <= x < NUM_XMM ==>
          Content(p, x) == if !kind.Stays? && x == r then Content(o, l)
                           else if kind.Exchanges? && x == l then Content(o, r) else Content(o, x))
    && (!kind.Stays? ==> l != r && l >= 0 && r >= 0 && Mover(c0.slots, target, k))
    && (kind.Stays? && Mover(c0.slots, target, k) ==> l == r)
    && (kind.Exchanges? ==> exists z: SlotId :: RegOf(c, z) == r)
  }

  lemma {:induction false} StepIs(c0: Ctx, target: seq<LinkMode>, e: Edge, o: Origins, k: SlotId)
    requires k < |target| && Traced(c0, target, e.ctx, o, k) && Joinable(c0.slots, target)
    ensures |e.ctx.xmm| == NUM_XMM
    ensures Stepped(
      c0, target, e.ctx, o, PlaceSlot(e, target, k).ctx, PlaceOrigins(e.ctx, target, k, o), k, KindOf(target, e.ctx, k))
  {
    hide WriteBackSingle; hide ExchangeCode; hide Without; hide NoDup;
    var c := e.ctx;
    assert SlotTraced(c0.slots[k], target[k], c.slots[k], o, false);
    if KindOf(target, c, k).Exchanges? { HasOccupant(c, Wanted(target, k)); }
  }

  lemma {:induction false} HasOccupant(c: Ctx, x: int)
    requires Consistent(c) && 0 <= x < NUM_XMM && c.xmm[x] != []
    ensures exists z: SlotId :: RegOf(c, z) == x
  {
    var y: Xmm := x;
    var z := c.xmm[y][0];
    assert z in c.xmm[y];
    assert RegOf(c, z) == x;
  }

  // ----- each part of the invariant is kept -----

  lemma {:induction false} TakenMore(target: seq<LinkMode>, x: int, k: nat)
    requires Taken(target, x, k)
    ensures Taken(target, x, k + 1)
  {
    var w: SlotId :| w < k && Wanted(target, w) == x && x >= 0;
    assert w < k + 1;
  }

  lemma {:induction false} NotTaken(target: seq<LinkMode>, k: SlotId)
    requires TargetApart(target) && Wanted(target, k) >= 0
    ensures !Taken(target, Wanted(target, k), k) && Taken(target, Wanted(target, k), k + 1)
  {
    assert k < k + 1;
  }

  /** The register that an exchange is to free holds a mover that waits, and its content. */
  lemma {:induction false} Occupant(
      c0: Ctx, target: seq<LinkMode>, c: Ctx, o: Origins, d: Ctx, p: Origins, k: SlotId) returns (z: SlotId)
    requires Orderly(c0, target, c, o, k) && TargetApart(target)
    requires Stepped(c0, target, c, o, d, p, k, Exchanges)
    ensures Waits(c0, target, z, k + 1) && RegOf(c, z) == Wanted(target, k)
        && Content(o, Wanted(target, k)) == RegOf(c0, z)
  {
    z :| RegOf(c, z) == Wanted(target, k);
    assert SlotTraced(c0.slots[z], target[z], c.slots[z], o, z < k);
    NotTaken(target, k);
    assert Wanted(target, z) >= 0;
  }

  ghost predicate Step(
      c0: Ctx, target: seq<LinkMode>, c: Ctx, o: Origins, d: Ctx, p: Origins, k: SlotId, kind: Placing)
  {
    && k < |target| && TargetApart(target) && Orderly(c0, target, c, o, k)
    && Stepped(c0, target, c, o, d, p, k, kind) && Traced(c0, target, d, p, k + 1)
  }

  lemma {:induction false} TogetherStep(
      c0: Ctx, target: seq<LinkMode>, c: Ctx, o: Origins, d: Ctx, p: Origins, k: SlotId, kind: Placing)
    requires Step(c0, target, c, o, d, p, k, kind)
    ensures WaitTogether(c0, target, d, k + 1)
  {
    hide Traced; hide Taken; hide Content; hide Wanted; hide RegOf; hide Mover; hide Displaced;
    forall s: SlotId, t: SlotId | Waits(c0, target, s, k + 1) && Waits(c0, target, t, k + 1)
        && RegOf(c0, s) == RegOf(c0, t)
      ensures RegOf(d, s) == RegOf(d, t)
    {
      assert Waits(c0, target, s, k) && Waits(c0, target, t, k);
    }
  }

  /** A register already taken: what was in it stays in a taken one. */
  lemma {:induction false} TakenStays(
      c0: Ctx, target: seq<LinkMode>, c: Ctx, o: Origins, d: Ctx, p: Origins, k: SlotId, kind: Placing, s: SlotId)
    requires Step(c0, target, c, o, d, p, k, kind) && s != k && Taken(target, RegOf(c, s), k)
    ensures Taken(target, RegOf(d, s), k + 1)
  {
    hide Traced; hide Content; hide Displaced; hide Taken; hide Orderly; hide RegOf; hide Wanted; hide TargetApart;
    TakenMore(target, RegOf(c, s), k);
    if !kind.Stays? { NotTaken(target, k); }
  }

  lemma {:induction false} TakenStep(
      c0: Ctx, target: seq<LinkMode>, c: Ctx, o: Origins, d: Ctx, p: Origins, k: SlotId, kind: Placing)
    requires Step(c0, target, c, o, d, p, k, kind)
    ensures PlacedTaken(target, d, k + 1)
  {
    hide Traced; hide Content; hide Displaced; hide Taken; hide RegOf; hide Wanted; hide TargetApart; hide Stepped;
    forall s: SlotId | s < k + 1 && Wanted(target, s) >= 0
      ensures Taken(target, RegOf(d, s), k + 1)
    {
      if s == k {
        PlacedIsTaken(c0, target, c, o, d, p, k, kind);
      } else {
        TakenStays(c0, target, c, o, d, p, k, kind, s);
      }
    }
  }

  lemma {:induction false} PlacedIsTaken(
      c0: Ctx, target: seq<LinkMode>, c: Ctx, o: Origins, d: Ctx, p: Origins, k: SlotId, kind: Placing)
    requires Stepped(c0, target, c, o, d, p, k, kind) && Wanted(target, k) >= 0
    ensures Taken(target, RegOf(d, k), k + 1)
  {
    hide RegOf; hide Content;
    assert k < k + 1;
  }

  /** A mover is displaced by this step only if it shared the register of the slot that is exchanged. */
  lemma {:induction false} DisplacedBy(
      c0: Ctx, target: seq<LinkMode>, c: Ctx, o: Origins, d: Ctx, p: Origins, k: SlotId, kind: Placing, s: SlotId)
    requires Step(c0, target, c, o, d, p, k, kind) && s < k && Mover(c0.slots, target, s)
    ensures Displaced(c0, target, d, s, k + 1) <==>
              Displaced(c0, target, c, s, k) || (kind.Exchanges? && RegOf(c, s) == RegOf(c, k))
    ensures kind.Exchanges? ==> RegOf(c, s) != Wanted(target, k)
  {
    hide Content; hide Traced;
    assert Wanted(target, s) >= 0;
    if !kind.Stays? {
      NotTaken(target, k);
      assert Wanted(target, s) != Wanted(target, k);
    }
  }

  lemma {:induction false} OriginOf(c0: Ctx, target: seq<LinkMode>, c: Ctx, o: Origins, k: nat, s: SlotId)
    requires Traced(c0, target, c, o, k) && Mover(c0.slots, target, s)
    ensures Content(o, RegOf(c, s)) == RegOf(c0, s) && RegOf(c, s) >= 0
  {
    assert SlotTraced(c0.slots[s], target[s], c.slots[s], o, s < k);
  }

  lemma {:induction false} MissStep(
      c0: Ctx, target: seq<LinkMode>, c: Ctx, o: Origins, d: Ctx, p: Origins, k: SlotId, kind: Placing)
    requires Step(c0, target, c, o, d, p, k, kind)
    ensures DisplacedMiss(c0, target, d, p, k + 1)
  {
    hide RegOf; hide Wanted; hide Content; hide Traced;
    forall s: SlotId | Displaced(c0, target, d, s, k + 1)
      ensures Content(p, Wanted(target, s)) != RegOf(c0, s)
    {
      MissOne(c0, target, c, o, d, p, k, kind, s);
    }
  }

  lemma {:induction false} MissOne(
      c0: Ctx, target: seq<LinkMode>, c: Ctx, o: Origins, d: Ctx, p: Origins, k: SlotId, kind: Placing, s: SlotId)
    requires Step(c0, target, c, o, d, p, k, kind) && Displaced(c0, target, d, s, k + 1)
    ensures Content(p, Wanted(target, s)) != RegOf(c0, s)
  {
    hide Content; hide RegOf; hide Traced; hide Taken; hide WaitTogether; hide PlacedTaken; hide DisplacedDrag;
    DisplacedBy(c0, target, c, o, d, p, k, kind, s);
    assert !kind.Stays? ==> Wanted(target, s) != Wanted(target, k) by { NotWantedTwice(target, s, k); }
    WantedIsRegister(target, s);
    if kind.Exchanges? && Wanted(target, s) == RegOf(c, k) {
      OccupantMisses(c0, target, c, o, d, p, k, s);
    }
  }

  lemma {:induction false} WantedIsRegister(target: seq<LinkMode>, s: SlotId)
    ensures Wanted(target, s) < NUM_XMM && (s < |target| && !target[s].Unlinked? ==> 0 <= Wanted(target, s))
  {}

  lemma {:induction false} NotWantedTwice(target: seq<LinkMode>, s: SlotId, t: SlotId)
    requires TargetApart(target) && s != t
    ensures Wanted(target, s) >= 0 ==> Wanted(target, s) != Wanted(target, t)
  {}

  /** What an exchange brings into the register of a displaced mover is of another origin. */
  lemma {:induction false} OccupantMisses(
      c0: Ctx, target: seq<LinkMode>, c: Ctx, o: Origins, d: Ctx, p: Origins, k: SlotId, s: SlotId)
    requires Step(c0, target, c, o, d, p, k, Exchanges) && s < k && Mover(c0.slots, target, s)
    requires Displaced(c0, target, c, s, k) || RegOf(c, s) == RegOf(c, k)
    ensures Content(o, Wanted(target, k)) != RegOf(c0, s)
  {
    hide Content; hide RegOf; hide Traced; hide Taken; hide PlacedTaken; hide DisplacedMiss; hide Displaced;
    var z := Occupant(c0, target, c, o, d, p, k);
    OriginOf(c0, target, c, o, k, k);
    OriginOf(c0, target, c, o, k, s);
    NotTaken(target, k);
    assert Waits(c0, target, z, k) && Waits(c0, target, k, k);
  }

  lemma {:induction false} DragStep(
      c0: Ctx, target: seq<LinkMode>, c: Ctx, o: Origins, d: Ctx, p: Origins, k: SlotId, kind: Placing)
    requires Step(c0, target, c, o, d, p, k, kind)
    ensures DisplacedDrag(c0, target, d, k + 1)
  {
    hide RegOf; hide Wanted; hide Content; hide Traced; hide Taken; hide TargetApart; hide Stepped; hide Mover;
    forall s: SlotId, u: SlotId
      | Displaced(c0, target, d, s, k + 1) && Waits(c0, target, u, k + 1) && RegOf(c0, u) == RegOf(c0, s)
      ensures Taken(target, RegOf(d, u), k + 1)
    {
      DragOne(c0, target, c, o, d, p, k, kind, s, u);
    }
  }

  lemma {:induction false} DragOne(
      c0: Ctx, target: seq<LinkMode>, c: Ctx, o: Origins, d: Ctx, p: Origins, k: SlotId, kind: Placing, s: SlotId,
      u: SlotId)
    requires Step(c0, target, c, o, d, p, k, kind)
    requires Displaced(c0, target, d, s, k + 1) && Waits(c0, target, u, k + 1) && RegOf(c0, u) == RegOf(c0, s)
    ensures Taken(target, RegOf(d, u), k + 1)
  {
    hide Content; hide RegOf; hide Traced; hide Taken;
    assert s != k;
    DisplacedBy(c0, target, c, o, d, p, k, kind, s);
    assert Waits(c0, target, u, k);
    if Displaced(c0, target, c, s, k) {
      TakenStays(c0, target, c, o, d, p, k, kind, u);
    } else {
      OriginOf(c0, target, c, o, k, k);
      OriginOf(c0, target, c, o, k, s);
      assert Waits(c0, target, k, k);
      PlacedIsTaken(c0, target, c, o, d, p, k, kind);
    }
  }

  lemma {:induction false} OrderlyStep(c0: Ctx, target: seq<LinkMode>, e: Edge, o: Origins, k: SlotId)
    requires k < |target| && Orderly(c0, target, e.ctx, o, k) && Joinable(c0.slots, target) && TargetApart(target)
    ensures |e.ctx.xmm| == NUM_XMM
    ensures var d := PlaceSlot(e, target, k).ctx;
            && Orderly(c0, target, d, PlaceOrigins(e.ctx, target, k, o), k + 1)
            && (SomeDisplaced(c0, target, d, k + 1)
                <==> SomeDisplaced(c0, target, e.ctx, k) || Evicts(c0.slots, target, e.ctx, k))
  {
    hide Traced; hide PlaceSlot; hide PlaceOrigins; hide WaitTogether; hide PlacedTaken; hide DisplacedMiss;
    hide DisplacedDrag;
    hide Displaced;
    TracedSizes(c0, target, e.ctx, o, k);
    StepIs(c0, target, e, o, k);
    PlaceSlotTraced(c0, target, e, o, k);
    var (c, d, p, kind) := (e.ctx, PlaceSlot(e, target, k).ctx, PlaceOrigins(e.ctx, target, k, o),
        KindOf(target, e.ctx, k));
    TogetherStep(c0, target, c, o, d, p, k, kind);
    TakenStep(c0, target, c, o, d, p, k, kind);
    MissStep(c0, target, c, o, d, p, k, kind);
    DragStep(c0, target, c, o, d, p, k, kind);
    EvictionStep(c0, target, c, o, d, p, k);
  }

  lemma {:induction false} EvictionStep(
      c0: Ctx, target: seq<LinkMode>, c: Ctx, o: Origins, d: Ctx, p: Origins, k: SlotId)
    requires |c.xmm| == NUM_XMM && k < |target| == |c.slots| && Step(c0, target, c, o, d, p, k, KindOf(target, c, k))
    ensures SomeDisplaced(c0, target, d, k + 1)
            <==> SomeDisplaced(c0, target, c, k) || Evicts(c0.slots, target, c, k)
  {
    hide Content; hide Traced; hide Orderly; hide Taken; hide TargetApart;
    var kind := KindOf(target, c, k);
    if SomeDisplaced(c0, target, d, k + 1) {
      var s: SlotId :| Displaced(c0, target, d, s, k + 1);
      assert s != k;
      DisplacedBy(c0, target, c, o, d, p, k, kind, s);
    }
    if SomeDisplaced(c0, target, c, k) {
      var s: SlotId :| Displaced(c0, target, c, s, k);
      DisplacedBy(c0, target, c, o, d, p, k, kind, s);
      assert Displaced(c0, target, d, s, k + 1);
    } else if Evicts(c0.slots, target, c, k) {
      var t: SlotId :| t < k && Mover(c0.slots, target, t) && c.slots[t] in {XmmR(c.slots[k].x), XmmRW(c.slots[k].x)};
      assert kind.Exchanges?;
      DisplacedBy(c0, target, c, o, d, p, k, kind, t);
      assert Displaced(c0, target, d, t, k + 1);
    }
  }

  lemma {:induction false} OrderlySteps(c0: Ctx, target: seq<LinkMode>, e: Edge, o: Origins, from: SlotId)
    requires from <= |target| && Orderly(c0, target, e.ctx, o, from) && Joinable(c0.slots, target)
        && TargetApart(target)
    ensures |e.ctx.xmm| == NUM_XMM && |e.ctx.slots| == |target|
    ensures var d := PlaceSlots(e, target, from).ctx;
            && Orderly(c0, target, d, FinalOrigins(e, target, from, o), |target|)
            && (SomeDisplaced(c0, target, d, |target|)
                <==> SomeDisplaced(c0, target, e.ctx, from) || !NobodyEvicted(c0.slots, target, e, from))
    decreases |target| - from
  {
    hide WaitTogether; hide PlacedTaken; hide DisplacedMiss; hide DisplacedDrag; hide PlaceSlot; hide PlaceOrigins;
    hide Evicts; hide SomeDisplaced; hide TargetApart; hide Joinable;
    TracedSizes(c0, target, e.ctx, o, from);
    if from < |target| {
      OrderlyStep(c0, target, e, o, from);
      OrderlySteps(c0, target, PlaceSlot(e, target, from), PlaceOrigins(e.ctx, target, from, o), from + 1);
    }
  }

  lemma {:induction false} TracedSizes(c0: Ctx, target: seq<LinkMode>, c: Ctx, o: Origins, k: nat)
    requires Traced(c0, target, c, o, k)
    ensures |c.xmm| == NUM_XMM && |c.slots| == |target|
  {}

  /** For a target whose slots have registers of their own, an edge delivers exactly if nobody is evicted; and
      then every mover ends in its register for the compiler as well. */
  lemma {:induction false} DeliversUnlessEvicted(src: Ctx, target: seq<LinkMode>)
    requires Consistent(src) && Joinable(src.slots, target) && TargetApart(target)
    ensures |src.xmm| == NUM_XMM
    ensures var (c, exit) := (FreeSlots(src, target, 0).0, EdgeCode(src, target).1);
            && (Delivers(src, target) <==> NobodyEvicted(src.slots, target, Edge(c, [], [], []), 0))
            && (Delivers(src, target) ==>
                  forall s: SlotId :: Mover(src.slots, target, s) ==> RegOf(exit, s) == target[s].x)
  {
    hide FreeSlots; hide FinalOrigins; hide Identity; hide Consistent; hide PlaceSlots; hide TargetApart; hide Joinable;
    hide Orderly; hide NobodyEvicted; hide Thinned;
    SizeOf(src);
    assert |src.slots| == |target| by { JoinableSizes(src.slots, target); }
    PlacingBegins(src, target);
    var c := FreeSlots(src, target, 0).0;
    var e := Edge(c, [], [], []);
    BeginsOrderly(c, target);
    ThinnedMovers(src.slots, target, c);
    OrderlySteps(c, target, e, Identity(), 0);
    MoversOnly(src.slots, c.slots, target, e, 0);
    FinalPlacement(c, target, PlaceSlots(e, target, 0).ctx, FinalOrigins(e, target, 0, Identity()));
  }

  /** At the end a mover finds its content where it belongs exactly if it has not been displaced. */
  lemma {:induction false} FinalPlacement(c: Ctx, target: seq<LinkMode>, exit: Ctx, o: Origins)
    requires Orderly(c, target, exit, o, |target|)
    ensures forall s: SlotId :: Mover(c.slots, target, s) ==>
              (o[target[s].x] == c.slots[s].x <==> !Displaced(c, target, exit, s, |target|))
  {
    hide WaitTogether; hide PlacedTaken; hide DisplacedDrag; hide Traced;
    forall s: SlotId | Mover(c.slots, target, s)
      ensures o[target[s].x] == c.slots[s].x <==> !Displaced(c, target, exit, s, |target|)
    {
      OriginOf(c, target, exit, o, |target|, s);
    }
  }

  lemma {:induction false} JoinableSizes(src: seq<LinkMode>, target: seq<LinkMode>)
    requires Joinable(src, target)
    ensures |src| == |target|
  {}

  lemma {:induction false} ThinnedJoinable(src: seq<LinkMode>, target: seq<LinkMode>, c: Ctx)
    requires Thinned(src, target, c, |target|) && Joinable(src, target)
    ensures Joinable(c.slots, target)
  {}

  lemma {:induction false} ThinnedMovers(src: seq<LinkMode>, target: seq<LinkMode>, c: Ctx)
    requires Thinned(src, target, c, |target|) && Joinable(src, target)
    ensures Joinable(c.slots, target) && |c.xmm| == NUM_XMM && |c.slots| == |src|
    ensures forall s: SlotId :: Mover(c.slots, target, s) <==> Mover(src, target, s)
    ensures forall s: SlotId :: Mover(src, target, s) ==> c.slots[s].x == src[s].x
  {}

  lemma {:induction false} BeginsOrderly(c: Ctx, target: seq<LinkMode>)
    requires Traced(c, target, c, Identity(), 0)
    ensures Orderly(c, target, c, Identity(), 0) && !SomeDisplaced(c, target, c, 0)
  {
    hide Traced;
  }

  /** Which slots are movers is all that the guard looks at in the source. */
  lemma {:induction false} MoversOnly(
      src: seq<LinkMode>, c0: seq<LinkMode>, target: seq<LinkMode>, e: Edge, from: SlotId)
    requires |e.ctx.xmm| == NUM_XMM && from <= |e.ctx.slots| == |target|
    requires forall s: SlotId :: Mover(c0, target, s) <==> Mover(src, target, s)
    ensures NobodyEvicted(c0, target, e, from) <==> NobodyEvicted(src, target, e, from)
    decreases |target| - from
  {
    hide Mover; hide PlaceSlot;
    if from < |target| { MoversOnly(src, c0, target, PlaceSlot(e, target, from), from + 1); }
  }
}
