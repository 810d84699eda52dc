/** Compiled loops: the slots that the analysis reports as unused are dead on entry and after every branch back, and
    no operation of the loop reads a dead slot. */
module JitLoops {
  import opened Prelude
  import opened JitMachine
  import opened JitContext
  import opened JitDeopt
  import opened JitRun
  import opened JitPath
  import L = Liveness
  import A = LoopAnalyses
  import R = LoopScans
  import U = LivenessReads

  // ----- the operations of one instruction -----

  /** Operands are written back or loaded, and results stored. */
  predicate OnStack(code: seq<L.TraceIr>, idx: nat, ops: seq<Op>)
    requires idx < |code|
  {
    forall op <- ops :: op.WriteBack? || op.Store? || (op.Read? && U.Reads(code, idx, op.slot))
  }

  ghost predicate Stores(ops: seq<Op>, s: SlotId) {
    exists i :: 0 <= i < |ops| && ops[i].Store? && ops[i].slot == s
  }

  /** What an instruction is compiled to: a copy, float arithmetic, or for all others something that leaves each
      result that the analysis records on the stack. */
  ghost predicate Emitted(code: seq<L.TraceIr>, idx: nat, localNum: nat, ops: seq<Op>)
    requires idx < |code|
  {
    match code[idx]
    case Mov(ret, src) => ops == if ret == src then [] else [Copy(src, ret)]
    case Binary(ret, lhs, rhs, true, _, _, true) =>
      |ops| == 1 && ops[0].Binop? && ops[0].ret == ret && ops[0].lhs == lhs && ops[0].rhs == rhs
    case _ => OnStack(code, idx, ops) && forall s: SlotId :: Writes(code, idx, localNum, s) ==> Stores(ops, s)
  }

  /** The analysis records that the instruction writes the slot, and does not read it first. */
  predicate Writes(code: seq<L.TraceIr>, idx: nat, localNum: nat, s: SlotId)
    requires idx < |code|
  {
    L.TouchAll(L.ND, L.Records(code, idx, localNum), s) == L.NotUsed
  }

  lemma {:induction false} StackAvoids(code: seq<L.TraceIr>, idx: nat, ops: seq<Op>, dead: set<SlotId>)
    requires idx < |code| && OnStack(code, idx, ops) && forall s <- dead :: !U.Reads(code, idx, s)
    ensures AvoidsAll(ops, dead)
    decreases |ops|
  {
    hide U.Reads;
    if ops != [] {
      assert ops[0] in ops && forall op <- ops[1..] :: op in ops;
      StackAvoids(code, idx, ops[1..], DeadAfter(ops[0], dead));
    }
  }

  lemma {:induction false} DeadShrinks(ops: seq<Op>, dead: set<SlotId>)
    ensures DeadAfterAll(ops, dead) <= dead
    decreases |ops|
  {
    if ops != [] { DeadShrinks(ops[1..], DeadAfter(ops[0], dead)); }
  }

  lemma {:induction false} StoreRevives(ops: seq<Op>, dead: set<SlotId>, i: nat)
    requires i < |ops| && ops[i].Store?
    ensures ops[i].slot !in DeadAfterAll(ops, dead)
    decreases |ops|
  {
    if i == 0 {
      DeadShrinks(ops[1..], DeadAfter(ops[0], dead));
    } else {
      StoreRevives(ops[1..], DeadAfter(ops[0], dead), i - 1);
    }
  }

  /** The operations read what the instruction reads. */
  lemma {:induction false} EmittedAvoids(
      code: seq<L.TraceIr>, idx: nat, localNum: nat, ops: seq<Op>, dead: set<SlotId>)
    requires idx < |code| && Emitted(code, idx, localNum, ops)
    requires forall s <- dead :: !U.Reads(code, idx, s)
    ensures AvoidsAll(ops, dead)
  {
    hide L.Records; hide L.TouchAll;
    if code[idx].Mov? {
      assert code[idx].ret != code[idx].src ==> ops[1..] == [];
    } else if code[idx].Binary? && code[idx].useFloat && code[idx].isFloat {
      assert ops[1..] == [];
    } else {
      StackAvoids(code, idx, ops, dead);
    }
  }

  /** They define what the instruction is recorded to write. */
  lemma {:induction false} EmittedDefines(
      code: seq<L.TraceIr>, idx: nat, localNum: nat, ops: seq<Op>, dead: set<SlotId>, s: SlotId)
    requires idx < |code| && Emitted(code, idx, localNum, ops) && Writes(code, idx, localNum, s)
    ensures s !in DeadAfterAll(ops, dead)
  {
    var inst := code[idx];
    if inst.Mov? {
      L.TouchFew(L.ND, L.Copy(inst.ret, inst.src), L.Copy(0, 0), L.Copy(0, 0), s);
      assert inst.ret != inst.src ==> ops[1..] == [];
    } else if inst.Binary? && inst.useFloat && inst.isFloat {
      L.TouchFew(L.ND, L.UseAs(inst.lhs, true, inst.known1), L.UseAs(inst.rhs, true, inst.known2),
                 L.DefAs(inst.ret, inst.isFloat), s);
      assert ops[1..] == [];
    } else {
      var i: nat :| i < |ops| && ops[i].Store? && ops[i].slot == s;
      StoreRevives(ops, dead, i);
    }
  }

  // ----- paths through the loop -----

  /** An instruction on the way, and the operations that stand for it. */
  datatype Visit = Visit(idx: nat, ops: seq<Op>)

  function Indices(visits: seq<Visit>): (path: seq<nat>)
    ensures |path| == |visits|
  {
    seq(|visits|, i requires 0 <= i < |visits| => visits[i].idx)
  }

  function Flat(visits: seq<Visit>): seq<Op>
    decreases |visits|
  {
    if visits == [] then [] else visits[0].ops + Flat(visits[1..])
  }

  lemma {:induction false} AvoidsBoth(a: seq<Op>, b: seq<Op>, dead: set<SlotId>)
    ensures DeadAfterAll(a + b, dead) == DeadAfterAll(b, DeadAfterAll(a, dead))
    ensures AvoidsAll(a + b, dead) <==> AvoidsAll(a, dead) && AvoidsAll(b, DeadAfterAll(a, dead))
    decreases |a|
  {
    if a == [] {
      assert a + b == b;
    } else {
      assert (a + b)[0] == a[0] && (a + b)[1..] == a[1..] + b;
      AvoidsBoth(a[1..], b, DeadAfter(a[0], dead));
    }
  }

  /** A path from the loop's head, in one iteration. */
  predicate OnWay(lp: A.Loop, path: seq<nat>) {
    L.IsPath(lp.code, lp.head, path)
  }

  /** The operations stand for the instructions. */
  ghost predicate AllEmitted(lp: A.Loop, visits: seq<Visit>) {
    forall i :: 0 <= i < |visits| ==>
      visits[i].idx < |lp.code| && Emitted(lp.code, visits[i].idx, lp.localNum, visits[i].ops)
  }

  /** Every dead slot is one that the loop does not read, and the path has not defined it yet. */
  ghost predicate StillDead(lp: A.Loop, path: seq<nat>, dead: set<SlotId>) {
    && (forall i :: 0 <= i < |path| ==> path[i] < |lp.code|)
    && forall s <- dead :: U.Unread(lp, s) && L.Along(lp.code, lp.localNum, path, s) != L.NotUsed
  }

  lemma {:induction false} PathStays(lp: A.Loop, path: seq<nat>, k: nat)
    requires A.LoopOk(lp) && OnWay(lp, path) && k < |path|
    ensures lp.head <= path[k] <= lp.end
    decreases k
  {
    A.LoopBounds(lp);
    if k > 0 {
      PathStays(lp, path, k - 1);
      assert L.Goes(lp.code, path[k - 1], path[k]);
      if A.Inside(lp, path[k - 1]) { A.GoesForward(lp, path[k - 1], path[k]); }
    }
  }

  /** An instruction of the loop reads no dead slot. */
  lemma {:induction false} DeadIsUnread(lp: A.Loop, path: seq<nat>, k: nat, dead: set<SlotId>, s: SlotId)
    requires A.LoopOk(lp) && OnWay(lp, path) && k < |path| && StillDead(lp, path[..k], dead) && s in dead
    ensures !U.Reads(lp.code, path[k], s)
  {
    hide A.LoopOk; hide L.Goes; hide L.Along; hide U.Reads;
    PathStays(lp, path, |path| - 1);
    var whole := A.Complete(lp, path, path[|path| - 1]);
    assert whole[k] == path[k] && whole[..k] == path[..k];
    assert U.Unread(lp, s);
  }

  lemma {:induction false} VisitOne(
      lp: A.Loop, path: seq<nat>, k: nat, ops: seq<Op>, dead: set<SlotId>)
    requires A.LoopOk(lp) && OnWay(lp, path) && k < |path| && StillDead(lp, path[..k], dead)
    requires Emitted(lp.code, path[k], lp.localNum, ops)
    ensures AvoidsAll(ops, dead) && StillDead(lp, path[..k + 1], DeadAfterAll(ops, dead))
  {
    hide A.LoopOk; hide L.Goes; hide U.Reads; hide U.Unread; hide L.Records; hide L.TouchAll; hide Emitted;
    forall s <- dead ensures !U.Reads(lp.code, path[k], s) { DeadIsUnread(lp, path, k, dead, s); }
    EmittedAvoids(lp.code, path[k], lp.localNum, ops, dead);
    DeadShrinks(ops, dead);
    assert path[..k + 1][..k] == path[..k];
    forall s <- DeadAfterAll(ops, dead) ensures L.Along(lp.code, lp.localNum, path[..k + 1], s) != L.NotUsed {
      if L.Along(lp.code, lp.localNum, path[..k], s) == L.ND {
        if Writes(lp.code, path[k], lp.localNum, s) {
          EmittedDefines(lp.code, path[k], lp.localNum, ops, dead, s);
        }
      } else {
        U.TouchAllKeeps(L.Used, L.Records(lp.code, path[k], lp.localNum), s);
      }
    }
  }

  lemma {:induction false} VisitAvoids(lp: A.Loop, visits: seq<Visit>, k: nat, dead: set<SlotId>)
    requires A.LoopOk(lp) && AllEmitted(lp, visits) && OnWay(lp, Indices(visits)) && k <= |visits|
    requires StillDead(lp, Indices(visits)[..k], dead)
    ensures var ops := Flat(visits[k..]);
            AvoidsAll(ops, dead) && StillDead(lp, Indices(visits), DeadAfterAll(ops, dead))
    decreases |visits| - k
  {
    hide A.LoopOk; hide L.Goes; hide StillDead; hide Emitted;
    var path := Indices(visits);
    if k == |path| {
      assert path[..k] == path;
    } else {
      var ops := visits[k].ops;
      VisitOne(lp, path, k, ops, dead);
      VisitAvoids(lp, visits, k + 1, DeadAfterAll(ops, dead));
      assert visits[k..][1..] == visits[k + 1..];
      AvoidsBoth(ops, Flat(visits[k + 1..]), dead);
    }
  }

  /** The legs run through the loop, any number of iterations of it: each leg carries the operations of the
      instructions that it visits, an edge within the loop drops nothing, and a branch back drops the unused slots.
      `way` is what the iteration has visited so far. */
  ghost predicate InLoop(
      lp: A.Loop, unused: seq<SlotId>, legs: seq<Leg>, visits: seq<seq<Visit>>, way: seq<Visit>)
    decreases |legs|
  {
    && |visits| == |legs|
    && (legs != [] ==>
          var now := way + visits[0];
          && OnWay(lp, Indices(now)) && AllEmitted(lp, now) && legs[0].ops == Flat(visits[0])
          && ((A.BranchesBackOn(lp, Indices(now)) && legs[0].unused == unused
               && InLoop(lp, unused, legs[1..], visits[1..], []))
              || (legs[0].unused == [] && InLoop(lp, unused, legs[1..], visits[1..], now))))
  }

  lemma {:induction false} NothingDefined(lp: A.Loop, dead: set<SlotId>, unused: seq<SlotId>)
    requires (forall s <- unused :: U.Unread(lp, s)) && dead <= set s | s in unused
    ensures StillDead(lp, [], dead)
  {}

  /** No operation of the loop reads a slot that is dead there. */
  lemma {:induction false} LoopAvoids(
      lp: A.Loop, unused: seq<SlotId>, legs: seq<Leg>, visits: seq<seq<Visit>>, way: seq<Visit>, dead: set<SlotId>)
    requires A.LoopOk(lp) && forall s <- unused :: U.Unread(lp, s)
    requires InLoop(lp, unused, legs, visits, way)
    requires StillDead(lp, Indices(way), dead) && dead <= set s | s in unused
    ensures AvoidsLegs(legs, dead)
    decreases |legs|
  {
    hide A.LoopOk; hide AllEmitted; hide StillDead; hide OnWay; hide U.Unread; hide A.BranchesBackOn; hide AvoidsAll;
    hide DeadAfterAll; hide Flat;
    if legs != [] {
      var now := way + visits[0];
      assert Indices(now)[..|way|] == Indices(way) && now[|way|..] == visits[0];
      VisitAvoids(lp, now, |way|, dead);
      var ops := legs[0].ops;
      DeadShrinks(ops, dead);
      var later := DeadAfterLeg(legs[0], dead);
      if A.BranchesBackOn(lp, Indices(now)) && legs[0].unused == unused
         && InLoop(lp, unused, legs[1..], visits[1..], []) {
        assert later == set s | s in unused;
        NothingDefined(lp, later, unused);
        assert Indices([]) == [];
        LoopAvoids(lp, unused, legs[1..], visits[1..], [], later);
      } else {
        assert later == DeadAfterAll(ops, dead);
        LoopAvoids(lp, unused, legs[1..], visits[1..], now, later);
      }
    }
  }

  /** From the analysis to the machine: a compiled loop entered with the reported slots dead does what the interpreter
      does, through any number of iterations, if every slot reported is written where the scan misses a read of it,
      and the edges and operations are as they should be. */
  lemma {:induction false} LoopIsSafe(
      fpu: Fpu, st: State, legs: seq<Leg>, dead: set<SlotId>, g: Grade, lp: A.Loop, at: map<nat, L.RegInfo>,
      r: Option<(seq<(L.Slot, bool)>, seq<L.Slot>)>, visits: seq<seq<Visit>>)
    requires Lawful(fpu) && InStep(fpu, st, dead, g) && Fits(st, |st.truth|) && LegsOk(legs, |st.truth|)
    requires A.Scanned(lp, at) && R.Reports(lp, r) && r.Some?
    requires forall s <- r.value.1 :: U.WrittenWhereMissed(lp, at, s)
    requires InLoop(lp, r.value.1, legs, visits, [])
    requires dead <= (set s | s in r.value.1) && PathOk(fpu, st, legs, dead, g)
    ensures FollowsPath(fpu, RunLegs(fpu, st, legs), st.truth, legs, dead, g)
  {
    hide A.LoopOk; hide A.Closed; hide A.NodesFrom; hide InLoop; hide StillDead; hide U.Unread;
    hide U.WrittenWhereMissed; hide PathOk; hide Represents; hide FollowsPath; hide RunLegs; hide Lawful;
    hide LegsOk; hide AvoidsLegs; hide L.Along;
    forall s <- r.value.1 ensures U.Unread(lp, s) { U.UnreadIf(lp, at, s); }
    NothingDefined(lp, dead, r.value.1);
    assert Indices([]) == [];
    LoopAvoids(lp, r.value.1, legs, visits, [], dead);
    PathIsSafe(fpu, st, legs, dead, g);
  }
}
