/** From the intermediate form to bytecode, and the basic blocks found again in the bytecode. */
module BasicBlocks {
  import opened Prelude
  import opened Encoding

  function At(labels: seq<Option<nat>>, l: Label): nat {
    if l < |labels| && labels[l].Some? then labels[l].value else 0
  }

  /** One bytecode for each instruction, labels replaced by displacements. */
  method IrToBytecode(info: Info, ir: seq<BcIr>, labels: seq<Option<nat>>) returns (ops: seq<Bc>)
    ensures |ops| == |ir|
    ensures forall i: nat :: i < |ir| ==> ops[i] == Encode(info, ir[i], i, l => At(labels, l))
  {
    hide Encode;
    ops := [];
    for idx := 0 to |ir|
      invariant |ops| == idx
      invariant forall i: nat :: i < idx ==> ops[i] == Encode(info, ir[i], i, l => At(labels, l))
    {
      ops := ops + [Encode(info, ir[idx], idx, l => At(labels, l))];
    }
  }

  // ----- control flow, as read from bytecode -----

  function BranchDisp(t: TraceIr): Option<int> {
    if t.TBr? || t.TCondBr? || t.TCheckLocal? then Some(t.disp) else None
  }

  /** The word after a call's arguments is its inline cache, not an instruction. */
  predicate Skipped(code: seq<Bc>, idx: nat)
    requires idx <= |code|
    decreases idx
  {
    idx > 0 && !Skipped(code, idx - 1) && FromBc(code[idx - 1]).Some? && FromBc(code[idx - 1]).value.TMethodArgs?
  }

  predicate BranchesTo(code: seq<Bc>, idx: nat, t: int)
    requires idx < |code|
  {
    !Skipped(code, idx) && FromBc(code[idx]).Some?
    && BranchDisp(FromBc(code[idx]).value).Some? && idx + 1 + BranchDisp(FromBc(code[idx]).value).value == t
  }

  predicate FallsTo(code: seq<Bc>, idx: nat, t: int)
    requires idx < |code|
  {
    !Skipped(code, idx) && FromBc(code[idx]).Some?
    && var inst := FromBc(code[idx]).value;
       if inst.TMethodArgs? then t == idx + 2 else !inst.TBr? && !inst.TRet? && t == idx + 1
  }

  /** Every word that is not a cache is an instruction; branches stay inside; a call's cache is there. */
  predicate CodeOk(code: seq<Bc>) {
    forall idx: nat :: idx < |code| && !Skipped(code, idx) ==> InstOk(code, idx)
  }

  predicate InstOk(code: seq<Bc>, idx: nat)
    requires idx < |code|
  {
    && FromBc(code[idx]).Some?
    && var inst := FromBc(code[idx]).value;
       && (BranchDisp(inst).Some? ==> 0 <= idx + 1 + BranchDisp(inst).value < |code|)
       && (inst.TMethodArgs? ==> idx + 2 <= |code|)
  }

  /** Which of the first n instructions branch to t, in order. */
  function BranchSources(code: seq<Bc>, t: int, n: nat): seq<nat>
    requires n <= |code|
    decreases n
  {
    if n == 0 then [] else BranchSources(code, t, n - 1) + if BranchesTo(code, n - 1, t) then [n - 1] else []
  }

  /** Which of them run on into t. */
  function FallSources(code: seq<Bc>, t: int, n: nat): seq<nat>
    requires n <= |code|
    decreases n
  {
    if n == 0 then [] else FallSources(code, t, n - 1) + if FallsTo(code, n - 1, t) then [n - 1] else []
  }

  predicate IsTarget(code: seq<Bc>, t: int) {
    BranchSources(code, t, |code|) != []
  }

  /** The number of targets below t. */
  function TargetsBelow(code: seq<Bc>, t: nat): nat
    decreases t
  {
    if t == 0 then 0 else TargetsBelow(code, t - 1) + if IsTarget(code, t - 1) then 1 else 0
  }

  /** A block's number and the instructions it can be reached from. */
  type BbInfo = Option<(nat, seq<nat>)>

  /** What the entry for t is to be, when falling through has been looked at for the first n instructions. */
  function Entry(code: seq<Bc>, t: nat, n: nat): BbInfo
    requires n <= |code|
  {
    if IsTarget(code, t) then Some((TargetsBelow(code, t) + 1,
        BranchSources(code, t, |code|) + FallSources(code, t, n)))
    else None
  }

  lemma {:induction false} SourcesAre(code: seq<Bc>, t: int, n: nat, idx: nat)
    requires n <= |code| && idx < |code|
    ensures idx in BranchSources(code, t, n) <==> idx < n && BranchesTo(code, idx, t)
    ensures idx in FallSources(code, t, n) <==> idx < n && FallsTo(code, idx, t)
    decreases n
  {
    hide BranchesTo; hide FallsTo;
    if n > 0 { SourcesAre(code, t, n - 1, idx); }
  }

  /** At most one instruction runs on into another, and it is the one before it. */
  lemma {:induction false} FallsFromOne(code: seq<Bc>, t: int, i: nat, j: nat)
    requires i < |code| && j < |code| && FallsTo(code, i, t) && FallsTo(code, j, t)
    ensures i == j
  {}

  lemma {:induction false} OneFallSource(code: seq<Bc>, t: int, n: nat)
    requires n <= |code|
    ensures |FallSources(code, t, n)| <= 1
    decreases n
  {
    hide FallsTo;
    if n > 0 {
      OneFallSource(code, t, n - 1);
      var before := FallSources(code, t, n - 1);
      if FallsTo(code, n - 1, t) && before != [] {
        FallSourceBelow(code, t, n - 1);
        FallsFromOne(code, t, n - 1, before[0]);
      }
    }
  }

  lemma {:induction false} FallSourceBelow(code: seq<Bc>, t: int, n: nat)
    requires n <= |code|
    ensures forall x <- FallSources(code, t, n) :: x < n && FallsTo(code, x, t)
    decreases n
  {
    hide FallsTo;
    if n > 0 { FallSourceBelow(code, t, n - 1); }
  }

  // ----- the scan -----

  lemma {:induction false} SourcesNext(code: seq<Bc>, t: int, n: nat)
    requires n < |code|
    ensures BranchSources(code, t, n + 1) == BranchSources(code, t, n) + if BranchesTo(code, n, t) then [n] else []
    ensures FallSources(code, t, n + 1) == FallSources(code, t, n) + if FallsTo(code, n, t) then [n] else []
  {
    hide BranchesTo; hide FallsTo;
    assert (n + 1) - 1 == n;
  }

  /** The branches of one instruction go on record. */
  method NoteBranch(code: seq<Bc>, info: seq<seq<nat>>, idx: nat, inst: TraceIr) returns (info': seq<seq<nat>>)
    requires CodeOk(code) && idx < |code| && !Skipped(code, idx) && FromBc(code[idx]) == Some(inst)
        && |info| == |code| + 1
    requires forall t: nat :: t <= |code| ==> info[t] == BranchSources(code, t, idx)
    ensures |info'| == |info| && forall t: nat :: t <= |code| ==> info'[t] == BranchSources(code, t, idx + 1)
  {
    hide BranchSources; hide FallSources; hide FallsTo; hide FromBc;
    assert InstOk(code, idx);
    info' := info;
    if BranchDisp(inst).Some? {
      var dest := idx + 1 + BranchDisp(inst).value;
      info' := info[dest := info[dest] + [idx]];
    }
    forall t: nat | t <= |code| ensures info'[t] == BranchSources(code, t, idx + 1) {
      SourcesNext(code, t, idx);
    }
  }

  lemma {:induction false} SkippedAddsNothing(code: seq<Bc>, idx: nat)
    requires idx < |code| && Skipped(code, idx)
    ensures forall t: int :: BranchSources(code, t, idx + 1) == BranchSources(code, t, idx)
    ensures forall t: int :: FallSources(code, t, idx + 1) == FallSources(code, t, idx)
  {
    hide BranchSources; hide FallSources;
    forall t: int
      ensures BranchSources(code, t, idx + 1) == BranchSources(code, t, idx)
      ensures FallSources(code, t, idx + 1) == FallSources(code, t, idx)
    {
      SourcesNext(code, t, idx);
    }
  }

  lemma {:induction false} SkipNext(code: seq<Bc>, idx: nat)
    requires CodeOk(code) && idx < |code|
    ensures Skipped(code, idx + 1)
            <==> (!Skipped(code, idx) && FromBc(code[idx]).Some? && FromBc(code[idx]).value.TMethodArgs?)
    ensures !Skipped(code, idx) ==> FromBc(code[idx]).Some?
    ensures idx + 1 == |code| ==> !Skipped(code, idx + 1)
    ensures !Skipped(code, 0)
  {
    hide FromBc; hide BranchDisp;
    assert idx + 1 - 1 == idx;
    if !Skipped(code, idx) { assert InstOk(code, idx); }
  }

  method CollectBranches(code: seq<Bc>) returns (info: seq<seq<nat>>)
    requires CodeOk(code)
    ensures |info| == |code| + 1 && forall t: nat :: t <= |code| ==> info[t] == BranchSources(code, t, |code|)
  {
    hide CodeOk; hide FromBc; hide BranchesTo; hide FallsTo; hide Skipped;
    info := seq(|code| + 1, _ => []);
    var skip := false;
    NoSources(code);
    for idx := 0 to |code|
      invariant |info| == |code| + 1 && skip == Skipped(code, idx)
      invariant forall t: nat :: t <= |code| ==> info[t] == BranchSources(code, t, idx)
    {
      SkipNext(code, idx);
      if skip {
        SkippedAddsNothing(code, idx);
        skip := false;
      } else {
        var inst := FromBc(code[idx]).value;
        skip := inst.TMethodArgs?;
        info := NoteBranch(code, info, idx, inst);
      }
    }
  }

  lemma {:induction false} NoSources(code: seq<Bc>)
    ensures !Skipped(code, 0) && forall t: int :: BranchSources(code, t, 0) == [] && FallSources(code, t, 0) == []
  {}

  /** Numbers the targets. */
  method NumberBlocks(code: seq<Bc>, info: seq<seq<nat>>) returns (bbInfo: seq<BbInfo>)
    requires |info| == |code| + 1 && forall t: nat :: t <= |code| ==> info[t] == BranchSources(code, t, |code|)
    ensures |bbInfo| == |info| && forall t: nat :: t <= |code| ==> bbInfo[t] == Entry(code, t, 0)
  {
    hide BranchSources; hide FallSources;
    NoSources(code);
    bbInfo := [];
    var bbId := 1;
    for t := 0 to |info|
      invariant |bbInfo| == t && bbId == TargetsBelow(code, t) + 1
      invariant forall u: nat :: u < t ==> bbInfo[u] == Entry(code, u, 0)
    {
      assert info[t] + [] == info[t];
      if info[t] != [] {
        bbInfo := bbInfo + [Some((bbId, info[t]))];
        bbId := bbId + 1;
      } else {
        bbInfo := bbInfo + [None];
      }
    }
  }

  /** Adds, to each target, the instruction that runs on into it. */
  method NoteFall(code: seq<Bc>, bbInfo: seq<BbInfo>, idx: nat, inst: TraceIr) returns (bbInfo': seq<BbInfo>)
    requires CodeOk(code) && idx < |code| && !Skipped(code, idx) && FromBc(code[idx]) == Some(inst)
        && |bbInfo| == |code| + 1
    requires forall t: nat :: t <= |code| ==> bbInfo[t] == Entry(code, t, idx)
    ensures |bbInfo'| == |bbInfo| && forall t: nat :: t <= |code| ==> bbInfo'[t] == Entry(code, t, idx + 1)
  {
    hide BranchSources; hide FallSources; hide BranchesTo; hide FromBc; hide TargetsBelow; hide IsTarget;
    assert InstOk(code, idx);
    bbInfo' := bbInfo;
    if !inst.TBr? && !inst.TRet? {
      var next := if inst.TMethodArgs? then idx + 2 else idx + 1;
      if bbInfo[next].Some? {
        bbInfo' := bbInfo[next := Some((bbInfo[next].value.0, bbInfo[next].value.1 + [idx]))];
      }
    }
    forall t: nat | t <= |code| ensures bbInfo'[t] == Entry(code, t, idx + 1) {
      SourcesNext(code, t, idx);
      var (b, f) := (BranchSources(code, t, |code|), FallSources(code, t, idx));
      assert b + (f + [idx]) == b + f + [idx] && f + [] == f;
    }
  }

  /** Finds the basic blocks: exactly the first instruction and the targets of branches start one, and each
      target lists the branches to it and then the instruction before it, if control can run on from there. */
  method GetBbInfo(code: seq<Bc>) returns (bbInfo: seq<BbInfo>)
    requires CodeOk(code)
    ensures |bbInfo| == |code| + 1
    ensures forall t: nat :: t <= |code| ==>
              bbInfo[t] == if t == 0 && !IsTarget(code, 0) then Some((0, [])) else Entry(code, t, |code|)
  {
    hide CodeOk; hide FromBc; hide BranchesTo; hide FallsTo; hide Skipped; hide BranchSources; hide FallSources;
    hide TargetsBelow;
    var info := CollectBranches(code);
    bbInfo := NumberBlocks(code, info);
    NoSources(code);
    var skip := false;
    for idx := 0 to |code|
      invariant |bbInfo| == |code| + 1 && skip == Skipped(code, idx)
      invariant forall t: nat :: t <= |code| ==> bbInfo[t] == Entry(code, t, idx)
    {
      SkipNext(code, idx);
      if skip {
        SkippedAddsNothing(code, idx);
        skip := false;
      } else {
        var inst := FromBc(code[idx]).value;
        skip := inst.TMethodArgs?;
        bbInfo := NoteFall(code, bbInfo, idx, inst);
      }
    }
    if bbInfo[0] == None {
      bbInfo := bbInfo[0 := Some((0, []))];
    }
  }

  // ----- against the labels -----

  predicate IsBranchIr(ir: BcIr) {
    ir.Br? || ir.CondBr? || ir.CheckLocal?
  }

  /** As the generator leaves it: a cache word after each call's arguments and nowhere else. */
  predicate CachesPaired(ir: seq<BcIr>) {
    && (forall i: nat :: i < |ir| && ir[i].MethodArgs? ==> i + 1 < |ir|)
    && (forall i: nat :: i < |ir| && ir[i].InlineCache? ==> i > 0)
    && (forall i: nat {:trigger ir[i].InlineCache?} :: 0 < i < |ir| ==> (ir[i].InlineCache? <==> ir[i - 1].MethodArgs?))
  }

  ghost predicate Encoded(info: Info, ir: seq<BcIr>, labels: seq<Option<nat>>, code: seq<Bc>) {
    && |code| == |ir| && CachesPaired(ir)
    && forall i: nat :: i < |ir| ==>
         code[i] == Encode(info, ir[i], i, l => At(labels, l)) && (!ir[i].InlineCache? ==>
             Encodable(info, ir[i], i, l => At(labels, l)))
  }

  lemma {:induction false} EncodedReadsBack(info: Info, ir: seq<BcIr>, labels: seq<Option<nat>>, code: seq<Bc>, i: nat)
    requires Encoded(info, ir, labels, code) && i < |ir| && !ir[i].InlineCache?
    ensures FromBc(code[i]) == Some(Meaning(info, ir[i], i, l => At(labels, l)))
  {
    hide Encode; hide FromBc; hide Meaning; hide Encodable;
    DecodeEncode(info, ir[i], i, l => At(labels, l));
  }

  /** The words that are skipped are exactly the caches. */
  lemma {:induction false} SkippedAreCaches(info: Info, ir: seq<BcIr>, labels: seq<Option<nat>>, code: seq<Bc>, i: nat)
    requires Encoded(info, ir, labels, code) && i < |ir|
    ensures Skipped(code, i) <==> ir[i].InlineCache?
    decreases i
  {
    hide Encode; hide FromBc; hide Encodable;
    if i > 0 {
      SkippedAreCaches(info, ir, labels, code, i - 1);
      if !ir[i - 1].InlineCache? {
        EncodedReadsBack(info, ir, labels, code, i - 1);
      }
    }
  }

  /** Branches survive encoding: an encoded instruction branches to where its label was placed. */
  lemma {:induction false} BranchesAreLabels(
      info: Info, ir: seq<BcIr>, labels: seq<Option<nat>>, code: seq<Bc>, i: nat, t: int)
    requires Encoded(info, ir, labels, code) && i < |ir|
    ensures BranchesTo(code, i, t) <==> IsBranchIr(ir[i]) && At(labels, ir[i].to) == t
  {
    hide Encode; hide FromBc; hide Encodable;
    SkippedAreCaches(info, ir, labels, code, i);
    if !ir[i].InlineCache? {
      EncodedReadsBack(info, ir, labels, code, i);
    }
  }

  /** Control runs on past each instruction but an unconditional branch and a return; past a call's
      arguments, over the cache. */
  lemma {:induction false} FallsAreNeighbours(
      info: Info, ir: seq<BcIr>, labels: seq<Option<nat>>, code: seq<Bc>, i: nat, t: int)
    requires Encoded(info, ir, labels, code) && i < |ir|
    ensures FallsTo(code, i, t) <==>
              !ir[i].InlineCache? && !ir[i].Br? && !ir[i].Ret? && t == if ir[i].MethodArgs? then i + 2 else i + 1
  {
    hide Encode; hide FromBc; hide Encodable;
    SkippedAreCaches(info, ir, labels, code, i);
    if !ir[i].InlineCache? {
      EncodedReadsBack(info, ir, labels, code, i);
    }
  }

  /** So blocks start exactly at the first instruction and at the labels that are branched to. */
  lemma {:induction false} TargetsAreLabels(info: Info, ir: seq<BcIr>, labels: seq<Option<nat>>, code: seq<Bc>, t: nat)
    requires Encoded(info, ir, labels, code)
    ensures IsTarget(code, t) <==> exists i: nat :: i < |ir| && IsBranchIr(ir[i]) && At(labels, ir[i].to) == t
  {
    hide BranchesTo; hide Encoded;
    assert |code| == |ir| by { SameSize(info, ir, labels, code); }
    var sources := BranchSources(code, t, |code|);
    if sources != [] {
      BranchSourceBelow(code, t, |code|);
      assert sources[0] in sources;
      BranchesAreLabels(info, ir, labels, code, sources[0], t);
    }
    forall i: nat | i < |ir| && IsBranchIr(ir[i]) && At(labels, ir[i].to) == t ensures i in sources {
      BranchesAreLabels(info, ir, labels, code, i, t);
      SourcesAre(code, t, |code|, i);
    }
  }

  lemma {:induction false} SameSize(info: Info, ir: seq<BcIr>, labels: seq<Option<nat>>, code: seq<Bc>)
    requires Encoded(info, ir, labels, code)
    ensures |code| == |ir|
  {}

  lemma {:induction false} BranchSourceBelow(code: seq<Bc>, t: int, n: nat)
    requires n <= |code|
    ensures forall x <- BranchSources(code, t, n) :: x < n && BranchesTo(code, x, t)
    decreases n
  {
    hide BranchesTo;
    if n > 0 { BranchSourceBelow(code, t, n - 1); }
  }
}
