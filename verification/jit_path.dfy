/** Paths through compiled code: blocks of float operations, joined by edges that drop what is not needed any
    more and rearrange the rest. */
module JitPath {
  import opened Prelude
  import opened JitMachine
  import opened JitContext
  import opened JitDeopt
  import opened JitMerge
  import opened JitPlacing
  import opened JitStep
  import opened JitRun

  /** A block, and the edge that leaves it: the slots that are not read after it before they are defined
      again, and the context of the next block. */
  datatype Leg = Leg(ops: seq<Op>, unused: seq<SlotId>, target: Ctx)

  /** Forgets the links of the unused slots. */
  function DropAll(c: Ctx, unused: seq<SlotId>): (d: Ctx)
    requires |c.xmm| == NUM_XMM && forall i :: 0 <= i < |unused| ==> unused[i] < |c.slots|
    ensures |d.xmm| == NUM_XMM && |d.slots| == |c.slots|
    decreases |unused|
  {
    if unused == [] then c else DropAll(Dealloc(c, unused[0]), unused[1..])
  }

  lemma {:induction false} DropKeeps(
      fpu: Fpu, c: Ctx, m: Machine, truth: seq<Value>, unused: seq<SlotId>, dead: set<SlotId>, g: Grade)
    requires Represents(fpu, c, m, truth, dead, g) && |c.xmm| == NUM_XMM
    requires forall i :: 0 <= i < |unused| ==> unused[i] < |c.slots|
    ensures Represents(fpu, DropAll(c, unused), m, truth, dead + (set s | s in unused), g)
    decreases |unused|
  {
    if unused != [] {
      var (s, d) := (unused[0], Dealloc(c, unused[0]));
      DeallocConsistent(c, s);
      forall t: SlotId | t < |truth| && t !in dead + {s}
        ensures Holds(fpu, d.slots[t], m, t, truth[t], g)
      {
        assert Holds(fpu, c.slots[t], m, t, truth[t], g);
      }
      DropKeeps(fpu, d, m, truth, unused[1..], dead + {s}, g);
      assert dead + {s} + (set t | t in unused[1..]) == dead + (set t | t in unused);
    } else {
      assert dead + (set s: SlotId | s in unused) == dead;
    }
  }

  predicate LegsOk(legs: seq<Leg>, slots: nat) {
    forall i :: 0 <= i < |legs| ==> LegOk(legs[i], slots)
  }

  predicate LegOk(leg: Leg, slots: nat) {
    && (forall op :: op in leg.ops ==> ValidOp(op, slots))
    && (forall i :: 0 <= i < |leg.unused| ==> leg.unused[i] < slots)
    && |leg.target.slots| == slots && |leg.target.xmm| == NUM_XMM
  }

  /** The edge: drop, rearrange, go on in the target's context or leave through the side exit. */
  function RunEdge(fpu: Fpu, st: State, leg: Leg): Result
    requires Fits(st, |st.truth|) && LegOk(leg, |st.truth|)
  {
    var (code, exit) := EdgeCode(DropAll(st.c, leg.unused), leg.target.slots);
    match Exec(fpu, code, st.m)
    case Running(n) => Going(State(leg.target, n, st.truth))
    case SideExit(n) => if |exit.xmm| == NUM_XMM then Deopted(Deoptimise(fpu, exit, n), st.truth) else NoRegister
    case Raised => Raising
  }

  function RunLegs(fpu: Fpu, st: State, legs: seq<Leg>): Result
    requires Fits(st, |st.truth|) && LegsOk(legs, |st.truth|)
    decreases |legs|
  {
    if legs == [] then Going(st)
    else
      var r := Run(fpu, st, legs[0].ops);
      if r.Going? && Fits(r.st, |st.truth|) then
        var e := RunEdge(fpu, r.st, legs[0]);
        if e.Going? && Fits(e.st, |st.truth|) then RunLegs(fpu, e.st, legs[1..]) else e
      else r
  }

  /** The interpreter runs the same operations, and knows of no edges. */
  function InterpretLegs(fpu: Fpu, frame: seq<Value>, legs: seq<Leg>): Option<seq<Value>>
    requires LegsOk(legs, |frame|)
    decreases |legs|
  {
    if legs == [] then Some(frame)
    else match InterpretAll(fpu, frame, legs[0].ops)
      case None => None
      case Some(next) => if |next| == |frame| then InterpretLegs(fpu, next, legs[1..]) else None
  }

  function DeadAfterLeg(leg: Leg, dead: set<SlotId>): set<SlotId> {
    DeadAfterAll(leg.ops, dead) + (set s | s in leg.unused)
  }

  function DeadAfterLegs(legs: seq<Leg>, dead: set<SlotId>): set<SlotId>
    decreases |legs|
  {
    if legs == [] then dead else DeadAfterLegs(legs[1..], DeadAfterLeg(legs[0], dead))
  }

  /** No operation on the path reads a slot that is dead there. */
  predicate AvoidsLegs(legs: seq<Leg>, dead: set<SlotId>)
    decreases |legs|
  {
    legs != [] ==> AvoidsAll(legs[0].ops, dead) && AvoidsLegs(legs[1..], DeadAfterLeg(legs[0], dead))
  }

  /** What the path must be like besides: every operation that is reached is faithful, and every edge that is
      reached is one the compiler emits, delivers, and keeps what values must be kept. All but the faithfulness
      is known to the compiler. */
  ghost predicate PathOk(fpu: Fpu, st: State, legs: seq<Leg>, dead: set<SlotId>, g: Grade)
    requires Fits(st, |st.truth|) && LegsOk(legs, |st.truth|)
    decreases |legs|
  {
    legs != [] ==>
      && FaithfulAll(fpu, st, legs[0].ops, g)
      && var r := Run(fpu, st, legs[0].ops);
         (r.Going? && Fits(r.st, |st.truth|) ==>
            && EdgeOk(r.st, legs[0], DeadAfterAll(legs[0].ops, dead), g)
            && var e := RunEdge(fpu, r.st, legs[0]);
               (e.Going? && Fits(e.st, |st.truth|) ==>
                  PathOk(fpu, e.st, legs[1..], DeadAfterLeg(legs[0], dead), g)))
  }

  ghost predicate EdgeOk(st: State, leg: Leg, dead: set<SlotId>, g: Grade)
    requires Fits(st, |st.truth|) && LegOk(leg, |st.truth|)
  {
    var (src, gone) := (DropAll(st.c, leg.unused), dead + set s | s in leg.unused);
    && Consistent(leg.target) && Plain(src.slots, leg.target.slots) && Delivers(src, leg.target.slots)
    && AllKept(src.slots, leg.target.slots, leg.target.slots, st.truth, gone, g)
    && AllKept(src.slots, leg.target.slots, EdgeCode(src, leg.target.slots).1.slots, st.truth, gone, g)
  }

  /** The interpreter reaches `truth` somewhere on the path, at one of the operations or at the end of a block,
      and the frame handed over agrees with it but for the slots that are dead there. */
  ghost predicate ReturnsOnPath(
      fpu: Fpu, stack: seq<Value>, truth: seq<Value>, frame: seq<Value>, legs: seq<Leg>, dead: set<SlotId>, g: Grade)
    requires LegsOk(legs, |frame|)
    decreases |legs|
  {
    legs != [] &&
    var ops := legs[0].ops;
    || (exists k: nat :: k < |ops| && ReturnsAt(fpu, stack, truth, frame, ops, k, dead, g))
    || (InterpretAll(fpu, frame, ops) == Some(truth) && FramesAgree(fpu, stack, truth, DeadAfterLeg(legs[0], dead), g))
    || (InterpretAll(fpu, frame, ops).Some? && |InterpretAll(fpu, frame, ops).value| == |frame|
        && ReturnsOnPath(
             fpu, stack, truth, InterpretAll(fpu, frame, ops).value, legs[1..], DeadAfterLeg(legs[0], dead), g))
  }

  /** As for one block: at the end in step, or back in the interpreter where it is itself, or raising (or
      astray) only if it raises. */
  ghost predicate FollowsPath(
      fpu: Fpu, r: Result, frame: seq<Value>, legs: seq<Leg>, dead: set<SlotId>, g: Grade)
    requires LegsOk(legs, |frame|)
  {
    match r
    case Going(st) => InterpretLegs(fpu, frame, legs) == Some(st.truth) && InStep(fpu, st, DeadAfterLegs(legs, dead), g)
    case Deopted(stack, truth) => ReturnsOnPath(fpu, stack, truth, frame, legs, dead, g)
    case NoRegister => true
    case _ => InterpretLegs(fpu, frame, legs) == None
  }

  lemma {:induction false} InterpretKeepsSize(fpu: Fpu, frame: seq<Value>, ops: seq<Op>)
    requires forall op :: op in ops ==> ValidOp(op, |frame|)
    ensures InterpretAll(fpu, frame, ops).Some? ==> |InterpretAll(fpu, frame, ops).value| == |frame|
    decreases |ops|
  {
    hide InterpretOp;
    if ops != [] {
      var next := InterpretOp(fpu, frame, ops[0]);
      if next.Some? { InterpretKeepsSize(fpu, next.value, ops[1..]); }
    }
  }

  lemma {:induction false} EdgeIsSafe(fpu: Fpu, st: State, leg: Leg, dead: set<SlotId>, g: Grade)
    requires Fits(st, |st.truth|) && LegOk(leg, |st.truth|) && InStep(fpu, st, dead, g) && EdgeOk(st, leg, dead, g)
    ensures var e := RunEdge(fpu, st, leg);
            var gone := dead + set s | s in leg.unused;
            && (e.Going? ==> e.st.truth == st.truth && InStep(fpu, e.st, gone, g))
            && (e.Deopted? ==> e.truth == st.truth && FramesAgree(fpu, e.stack, e.truth, gone, g))
            && !e.Raising? && !e.Astray?
  {
    hide EdgeCode; hide Delivers; hide Plain; hide AllKept; hide Exec; hide Holds; hide FramesAgree; hide DropAll;
    hide Deoptimise;
    var src := DropAll(st.c, leg.unused);
    DropKeeps(fpu, st.c, st.m, st.truth, leg.unused, dead, g);
    EdgeKeepsInStep(fpu, src, leg.target, st.m, st.truth, dead + (set s | s in leg.unused), g);
  }

  /** Along every path of blocks and edges that is as it should be, compiled code does what the interpreter
      does on the operations alone. */
  lemma {:induction false} PathIsSafe(fpu: Fpu, st: State, legs: seq<Leg>, dead: set<SlotId>, g: Grade)
    requires Lawful(fpu) && InStep(fpu, st, dead, g) && Fits(st, |st.truth|) && LegsOk(legs, |st.truth|)
    requires AvoidsLegs(legs, dead) && PathOk(fpu, st, legs, dead, g)
    ensures FollowsPath(fpu, RunLegs(fpu, st, legs), st.truth, legs, dead, g)
    decreases |legs|
  {
    hide Run; hide RunEdge; hide Represents; hide FramesAgree; hide Lawful; hide EdgeOk; hide FaithfulAll;
    hide InterpretAll;
    hide AvoidsAll; hide DeadAfterAll; hide ReturnsAt; hide ValidOp;
    if legs != [] {
      var (leg, rest) := (legs[0], legs[1..]);
      RunIsSafe(fpu, st, leg.ops, dead, g);
      InterpretKeepsSize(fpu, st.truth, leg.ops);
      var r := Run(fpu, st, leg.ops);
      var mid := DeadAfterAll(leg.ops, dead);
      if r.Going? {
        StateFits(fpu, r.st, mid, g);
        EdgeIsSafe(fpu, r.st, leg, mid, g);
        var e := RunEdge(fpu, r.st, leg);
        if e.Going? {
          StateFits(fpu, e.st, DeadAfterLeg(leg, dead), g);
          PathIsSafe(fpu, e.st, rest, DeadAfterLeg(leg, dead), g);
        }
      }
    }
  }
}
