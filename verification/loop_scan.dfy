/** The scan itself, as the compiler runs it, and what it reports. */
module LoopScans {
  import opened Prelude
  import opened Liveness
  import opened LoopAnalyses
  import Links = LoopLinks
  import Join = JitJoin

  // ----- the scan's invariant -----

  ghost predicate ScanOk(
      lp: Loop, at: map<nat, RegInfo>, bm: Branches, idx: int, pending: Option<RegInfo>, be: Option<RegInfo>,
      re: Option<RegInfo>)
  {
    && LoopOk(lp) && Widths(lp, at, bm) && EdgesTo(lp, at, bm, idx, pending) && EndsOk(lp, at, be, re)
    && Exact(lp, at, bm, idx, pending, be, re)
  }

  /** One instruction more. */
  lemma {:induction false} ScanVisit(
      lp: Loop, at: map<nat, RegInfo>, bm: Branches, bm2: Branches, idx: nat, info: RegInfo, next: int,
      pending: Option<RegInfo>, be: Option<RegInfo>, re: Option<RegInfo>, be2: Option<RegInfo>, re2: Option<RegInfo>)
    requires ScanOk(lp, at, bm, idx, Some(info), be, re) && lp.head <= idx <= lp.end && |info| == lp.regNum
    requires forall u: nat :: u in at ==> u < idx
    requires |Out(lp, idx, info)| == lp.regNum && Widths(lp, at[idx := info], bm2)
    requires forall v: int, i: RegInfo :: HasEntry(bm, v, i) ==> HasEntry(bm2, v, i)
    requires forall v: int, i: RegInfo :: HasEntry(bm2, v, i) ==>
      HasEntry(bm, v, i) || (Goes(lp.code, idx, v) && i == Out(lp, idx, info))
    requires idx <= next && lp.end < |lp.starts| && forall j: nat :: idx < j <= next && j <= lp.end ==> !lp.starts[j]
    requires forall v: int :: Goes(lp.code, idx, v) ==> Settled(lp, at[idx := info], bm2, next, pending, idx, v)
    requires pending.Some? ==> Goes(lp.code, idx, next) && pending.value == Out(lp, idx, info)
    requires idx < |lp.code| && (be.Some? ==> |be.value| == lp.regNum) && (re.Some? ==> |re.value| == lp.regNum)
    requires be2 == if BranchesBack(lp.code[idx]) then Absorb(be, Out(lp, idx, info)) else be
    requires re2 == if lp.code[idx].Ret? then Absorb(re, Out(lp, idx, info)) else re
    ensures ScanOk(lp, at[idx := info], bm2, next, pending, be2, re2)
  {
    hide LoopOk; hide Widths; hide EdgesTo; hide EndsOk; hide Exact; hide Settled; hide Goes; hide HasEntry; hide Out;
    hide Absorb;
    VisitKeeps(lp, at, bm, bm2, idx, info, next, pending);
    EndsAbsorb(lp, at, idx, info, be, re, be2, re2);
    ExactVisit(lp, at, bm, bm2, idx, info, next, pending, be, re, be2, re2);
  }

  /** The block ends: the scan goes on at the next one. */
  lemma {:induction false} ScanLeave(
      lp: Loop, at: map<nat, RegInfo>, bm: Branches, idx: nat, nb: nat, be: Option<RegInfo>, re: Option<RegInfo>)
    requires ScanOk(lp, at, bm, idx, None, be, re) && lp.end < |lp.starts|
    requires forall j: nat :: idx < j < nb && j <= lp.end ==> !lp.starts[j]
    ensures ScanOk(lp, at, bm, nb - 1, None, be, re)
  {
    hide Widths; hide EdgesTo; hide EndsOk; hide Exact; hide LoopOk;
    LeaveBlock(lp, at, bm, idx, nb);
    ExactBetween(lp, at, bm, idx, nb - 1, be, re);
  }

  class LoopAnalysis {
    const lp: Loop
    var branchMap: Branches
    var loopLevel: int
    var backedgeInfo: Option<RegInfo>
    var returnInfo: Option<RegInfo>
    ghost var at: map<nat, RegInfo>  // the information each scanned instruction was reached with

    constructor (lp: Loop)
      ensures this.lp == lp && branchMap == map[] && loopLevel == 0 && backedgeInfo == None && returnInfo == None
          && at == map[]
    {
      this.lp := lp;
      branchMap, loopLevel, backedgeInfo, returnInfo, at := map[], 0, None, None, map[];
    }

    ghost predicate Ok(idx: int, pending: Option<RegInfo>)
      reads this
    {
      ScanOk(lp, at, branchMap, idx, pending, backedgeInfo, returnInfo)
    }

    method AddBranch(src: nat, info: RegInfo, dest: nat)
      modifies this`branchMap
      ensures HasEntry(branchMap, dest, info)
      ensures forall v: int, i: RegInfo ::
                HasEntry(branchMap, v, i) <==> HasEntry(old(branchMap), v, i) || (v == dest && i == info)
      ensures |info| == lp.regNum && Widths(lp, at, old(branchMap)) ==> Widths(lp, at, branchMap)
    {
      var entries := if dest in branchMap then branchMap[dest] else [];
      branchMap := branchMap[dest := entries + [(src, info)]];
      assert branchMap[dest][|entries|].1 == info;
      forall v: int, i: RegInfo | HasEntry(old(branchMap), v, i) ensures HasEntry(branchMap, v, i) {
        var k :| 0 <= k < |old(branchMap)[v]| && old(branchMap)[v][k].1 == i;
        assert branchMap[v][k].1 == i;
      }
      forall v: int, i: RegInfo | HasEntry(branchMap, v, i)
        ensures HasEntry(old(branchMap), v, i) || (v == dest && i == info)
      {
        var k :| 0 <= k < |branchMap[v]| && branchMap[v][k].1 == i;
        if v == dest && k < |entries| { assert old(branchMap)[v][k].1 == i; }
      }
    }

    method AddBackedge(info: RegInfo)
      requires |info| == lp.regNum && (backedgeInfo.Some? ==> |backedgeInfo.value| == lp.regNum)
      modifies this`backedgeInfo
      ensures backedgeInfo == Some(if old(backedgeInfo).Some? then Merge(old(backedgeInfo).value, info) else info)
    {
      if backedgeInfo.Some? {
        backedgeInfo := Some(Merge(backedgeInfo.value, info));
      } else {
        backedgeInfo := Some(info);
      }
    }

    method AddReturn(info: RegInfo)
      requires |info| == lp.regNum && (returnInfo.Some? ==> |returnInfo.value| == lp.regNum)
      modifies this`returnInfo
      ensures returnInfo == Some(if old(returnInfo).Some? then Merge(old(returnInfo).value, info) else info)
    {
      if returnInfo.Some? {
        returnInfo := Some(Merge(returnInfo.value, info));
      } else {
        returnInfo := Some(info);
      }
    }

    /** The merge of everything on record for a block, or nothing known. */
    method IncomingInfo(b: nat) returns (info: RegInfo)
      requires Widths(lp, at, branchMap)
      ensures |info| == lp.regNum
      ensures forall k :: b in branchMap && 0 <= k < |branchMap[b]| ==> |branchMap[b][k].1| == lp.regNum
      ensures info == MergeRecorded(if b in branchMap then branchMap[b] else [], lp.regNum)
    {
      hide Merge;
      if b !in branchMap || |branchMap[b]| == 0 {
        info := Fresh(lp.regNum);
        return;
      }
      var entries := branchMap[b];
      info := entries[0].1;
      for k := 1 to |entries|
        invariant |info| == lp.regNum && info == MergeRecorded(entries[..k], lp.regNum)
      {
        assert entries[..k + 1][..k] == entries[..k];
        info := Merge(info, entries[k].1);
      }
      assert entries[..|entries|] == entries;
    }

    lemma {:induction false} OkBounds(idx: int, pending: Option<RegInfo>)
      requires Ok(idx, pending)
      ensures LoopOk(lp) && lp.head < lp.end < |lp.code| && |lp.starts| == |lp.code| + 1
      ensures backedgeInfo.Some? ==> |backedgeInfo.value| == lp.regNum
      ensures returnInfo.Some? ==> |returnInfo.value| == lp.regNum
      ensures LoopOk(lp) && Widths(lp, at, branchMap)
    {
      hide Exact; hide EdgesTo;
    }

    /** A block may be entered with information that covers everything on record for it. */
    lemma {:induction false} OkEnter(b: nat)
      requires Ok(b - 1, None) && b < |lp.starts| && lp.starts[b] && forall u: nat :: u in at ==> u < b
      requires forall k :: b in branchMap && 0 <= k < |branchMap[b]| ==> |branchMap[b][k].1| == lp.regNum
      ensures Ok(b, Some(MergeRecorded(if b in branchMap then branchMap[b] else [], lp.regNum)))
    {
      hide EdgesTo; hide CoversAll; hide LoopOk; hide EndsOk; hide Widths; hide Exact; hide MergeRecorded;
      var entries := if b in branchMap then branchMap[b] else [];
      MergeRecordedIs(entries, lp.regNum);
      EnterBlock(lp, at, branchMap, b, MergeRecorded(entries, lp.regNum));
      ExactEnter(lp, at, branchMap, b, backedgeInfo, returnInfo);
    }

    lemma {:induction false} Started()
      requires LoopOk(lp) && at == map[] && branchMap == map[] && backedgeInfo == None && returnInfo == None
      ensures Ok(lp.head - 1, None)
    {}

    lemma {:induction false} Finished()
      requires Ok(lp.end, None) && lp.head in at && lp.end in at && at[lp.head] == Fresh(lp.regNum)
      ensures Closed(lp, at) && Widths(lp, at, map[]) && EndsOk(lp, at, backedgeInfo, returnInfo)
      ensures NodesFrom(lp, at) && EndFrom(lp, at, backedgeInfo, true) && EndFrom(lp, at, returnInfo, false)
    {
      hide EdgesTo; hide LoopOk; hide EndsOk; hide Closed; hide NodesFrom; hide EndFrom; hide EntriesFrom;
      ScanIsClosed(lp, at, branchMap);
    }

    /** Records what leaves the straight line at idx: a return, a branch forward or back. */
    method NoteEdges(idx: nat, out: RegInfo)
      requires idx < |lp.code| && |out| == lp.regNum && Widths(lp, at, branchMap)
      requires (backedgeInfo.Some? ==> |backedgeInfo.value| == lp.regNum) && (returnInfo.Some? ==>
          |returnInfo.value| == lp.regNum)
      requires BranchesBack(lp.code[idx]) ==> loopLevel == 1
      modifies this`branchMap, this`backedgeInfo, this`returnInfo
      ensures Widths(lp, at, branchMap)
      ensures forall v: int, i: RegInfo :: HasEntry(branchMap, v, i) <==>
                HasEntry(old(branchMap), v, i)
                || (IsBranch(lp.code[idx]) && lp.code[idx].disp >= 0 && v == idx + 1 + lp.code[idx].disp && i == out)
      ensures backedgeInfo == if BranchesBack(lp.code[idx]) then Absorb(old(backedgeInfo), out) else old(backedgeInfo)
      ensures returnInfo == if lp.code[idx].Ret? then Absorb(old(returnInfo), out) else old(returnInfo)
    {
      hide HasEntry; hide Widths;
      var inst := lp.code[idx];
      if inst.Ret? {
        AddReturn(out);
      } else if IsBranch(inst) {
        if inst.disp >= 0 {
          AddBranch(idx, out, idx + 1 + inst.disp);
        } else if loopLevel == 1 {
          AddBackedge(out);
        }
      }
    }

    /** Scans one instruction. */
    method ScanInst(idx: nat, regInfo: RegInfo, ghost nb: nat) returns (step: Step)
      requires Ok(idx, Some(regInfo)) && |regInfo| == lp.regNum && NextBlock(lp, idx, nb)
      requires (forall u: nat :: u in at ==> u < idx) && loopLevel == if idx == lp.head then 0 else 1
      modifies this
      ensures at == old(at)[idx := regInfo]
      ensures match step
              case Continue(info, skip) =>
                var next := if skip then idx + 2 else idx + 1;
                NextBlock(lp, next, nb) && Ok(next, Some(info)) && |info| == lp.regNum && loopLevel == 1
              case BlockEnds => nb <= lp.end && Ok(nb - 1, None) && loopLevel == 1
              case LoopEnds => idx == lp.end && Ok(lp.end, None)
    {
      hide LoopOk; hide Widths; hide HasEntry; hide Goes; hide RecordAll; hide Records; hide Settled; hide CoversAll;
      hide Out;
      hide Merge; hide Absorb; hide ScanOk;
      ghost var (at0, bm0, be0, re0) := (at, branchMap, backedgeInfo, returnInfo);
      OkBounds(idx, Some(regInfo));
      at := at[idx := regInfo];
      var inst := lp.code[idx];
      InstFacts(lp, idx, regInfo, nb);
      Leads(lp, idx);
      WidthsGrow(lp, at0, branchMap, idx, regInfo);
      if inst.LoopStart? {
        loopLevel := loopLevel + 1;
      } else if inst.LoopEnd? {
        loopLevel := loopLevel - 1;
        if loopLevel == 0 {
          ScanVisit(lp, at0, bm0, bm0, idx, regInfo, idx, None, be0, re0, be0, re0);
          return LoopEnds;
        }
      }
      var out := RecordAll(regInfo, Records(lp.code, idx, lp.localNum));
      NoteEdges(idx, out);
      CoversSelf(out);
      if inst.Ret? || inst.Br? {
        BranchSettled(lp, at, branchMap, idx, out, None, idx);
        ScanVisit(lp, at0, bm0, branchMap, idx, regInfo, idx, None, be0, re0, backedgeInfo, returnInfo);
        ScanLeave(lp, at, branchMap, idx, nb, backedgeInfo, returnInfo);
        return BlockEnds;
      }
      if lp.starts[idx + 1] {
        AddBranch(idx, out, idx + 1);
        BranchSettled(lp, at, branchMap, idx, out, None, idx);
        ScanVisit(lp, at0, bm0, branchMap, idx, regInfo, idx, None, be0, re0, backedgeInfo, returnInfo);
        ScanLeave(lp, at, branchMap, idx, nb, backedgeInfo, returnInfo);
        return BlockEnds;
      }
      var next := if inst.MethodArgs? then idx + 2 else idx + 1;
      BranchSettled(lp, at, branchMap, idx, out, Some(out), next);
      ScanVisit(lp, at0, bm0, branchMap, idx, regInfo, next, Some(out), be0, re0, backedgeInfo, returnInfo);
      return Continue(out, inst.MethodArgs?);
    }

    /** Scans the block at bbPos; nb is where the next one starts. Gives the information at the end of the
        loop when it gets there. */
    method ScanBb(info: RegInfo, bbPos: nat, ghost nb: nat) returns (r: Option<RegInfo>)
      requires Ok(bbPos, Some(info)) && |info| == lp.regNum && NextBlock(lp, bbPos, nb)
      requires (forall u: nat :: u in at ==> u < bbPos) && loopLevel == if bbPos == lp.head then 0 else 1
      modifies this
      ensures bbPos in at && at[bbPos] == info && forall u: nat :: u in old(at) ==> u in at && at[u] == old(at)[u]
      ensures r.None? ==> nb <= lp.end && Ok(nb - 1, None) && loopLevel == 1 && forall u: nat :: u in at ==> u < nb
      ensures r.Some? ==> Ok(lp.end, None) && lp.end in at && at[lp.end] == r.value
    {
      hide Ok;
      OkBounds(bbPos, Some(info));
      var regInfo, skip, idx := info, false, bbPos;
      while idx < |lp.code|
        invariant idx >= bbPos && NextBlock(lp, if skip then idx + 1 else idx, nb)
        invariant Ok(if skip then idx + 1 else idx, Some(regInfo)) && |regInfo| == lp.regNum
        invariant forall u: nat :: u in at ==> u < if skip then idx + 1 else idx
        invariant loopLevel == if idx == lp.head then 0 else 1
        invariant skip ==> idx > bbPos
        invariant idx == bbPos ==> regInfo == info && at == old(at)
        invariant idx > bbPos ==> bbPos in at && at[bbPos] == info
        invariant forall u: nat :: u in old(at) ==> u in at && at[u] == old(at)[u]
      {
        if skip {
          skip := false;
          idx := idx + 1;
          continue;
        }
        var step := ScanInst(idx, regInfo, nb);
        match step
        case LoopEnds => return Some(regInfo);
        case BlockEnds => return None;
        case Continue(out, sk) =>
          regInfo, skip := out, sk;
          idx := idx + 1;
      }
      assert false;
    }
  }

  /** The starts of blocks from the loop's head on. */
  method BlockStarts(lp: Loop) returns (vec: seq<nat>)
    requires LoopOk(lp)
    ensures Ascending(vec) && vec != [] && vec[0] == lp.head
    ensures forall k: nat :: k < |vec| ==> vec[k] <= |lp.code| && lp.starts[vec[k]]
    ensures forall j: nat :: lp.head <= j <= |lp.code| && lp.starts[j] ==> j in vec
  {
    LoopBounds(lp);
    vec := [lp.head];
    for i := lp.head + 1 to |lp.starts|
      invariant Ascending(vec) && vec != [] && vec[0] == lp.head
      invariant forall k: nat :: k < |vec| ==> vec[k] < i && lp.starts[vec[k]]
      invariant forall j: nat :: lp.head <= j < i && lp.starts[j] ==> j in vec
    {
      if lp.starts[i] {
        vec := vec + [i];
      }
    }
  }

  ghost predicate Ascending(vec: seq<nat>) {
    forall i, j :: 0 <= i < j < |vec| ==> vec[i] < vec[j]
  }

  function StartAfter(lp: Loop, vec: seq<nat>, k: nat): nat {
    if k + 1 < |vec| then vec[k + 1] else |lp.code| + 1
  }

  lemma {:induction false} VecNext(lp: Loop, vec: seq<nat>, k: nat)
    requires LoopOk(lp) && Ascending(vec) && k < |vec| && lp.head <= vec[k] <= lp.end
    requires forall i: nat :: i < |vec| ==> vec[i] <= |lp.code| && lp.starts[vec[i]]
    requires forall j: nat :: lp.head <= j <= |lp.code| && lp.starts[j] ==> j in vec
    ensures NextBlock(lp, vec[k], StartAfter(lp, vec, k))
  {
    var nb := StartAfter(lp, vec, k);
    LoopBounds(lp);
    forall j: nat | vec[k] < j < nb && j <= lp.end ensures !lp.starts[j] {
      NotBetween(vec, k, j);
    }
  }

  lemma {:induction false} NotBetween(vec: seq<nat>, k: nat, j: nat)
    requires Ascending(vec) && k < |vec| && vec[k] < j && (k + 1 < |vec| ==> j < vec[k + 1])
    ensures j !in vec
  {
    forall i | 0 <= i < |vec| ensures vec[i] != j {
      if i <= k { assert vec[i] <= vec[k]; } else { assert vec[k + 1] <= vec[i]; }
    }
  }

  /** What the analysis reports. None: no path branches back, and the analysis panics. Nothing reported as unused
      is read before it is written, on any path through the loop; nothing reported as used is reported as unused;
      and if no block is dead, the report leaves out no slot that is written first on all paths, and reports as
      used only what some path reads first, with the register it is in at the branches back. */
  ghost predicate Reports(lp: Loop, r: Option<(seq<(Slot, bool)>, seq<Slot>)>) {
    && (r.None? ==> forall path: seq<nat> :: !BranchesBackOn(lp, path))
    && (r.Some? ==>
          && Sound(lp, r.value.1)
          && Join.Increasing(r.value.0) && (forall k :: 0 <= k < |r.value.0| ==> r.value.0[k].0 < lp.regNum)
          && (forall s: Slot :: s in r.value.1 ==> s < lp.regNum && !Join.Uses(r.value.0, s)))
    && (AllReached(lp) && r.Some? ==>
          && (exists path: seq<nat> :: BranchesBackOn(lp, path))
          && (forall s: Slot :: s < lp.regNum ==> (s in r.value.1 <==> WrittenFirst(lp, s)))
          && (forall s: Slot :: Join.Uses(r.value.0, s) ==> ReadFirst(lp, s))
          && (forall s: Slot :: s < lp.regNum ==> Links.ReportedBy(lp, r.value.0, s)))
  }

  lemma {:induction false} SummarySizes(
      lp: Loop, at: map<nat, RegInfo>, backedge: RegInfo, returns_: Option<RegInfo>)
    requires Scanned(lp, at) && EndsOk(lp, at, Some(backedge), returns_)
    ensures lp.end in at && |at[lp.end]| == |backedge| == lp.regNum
    ensures returns_.Some? ==> |returns_.value| == lp.regNum
  {
    hide LoopOk; hide NodesFrom;
  }

  lemma {:induction false} ReportsExactly(
      lp: Loop, at: map<nat, RegInfo>, backedge: RegInfo, returns_: Option<RegInfo>)
    requires Scanned(lp, at) && AllReached(lp) && EndsOk(lp, at, Some(backedge), returns_)
    requires EndFrom(lp, at, Some(backedge), true) && EndFrom(lp, at, returns_, false)
    ensures |at[lp.end]| == |backedge| == lp.regNum && (returns_.Some? ==> |returns_.value| == lp.regNum)
    ensures exists path: seq<nat> :: BranchesBackOn(lp, path)
    ensures var exit := ExitInfo(at[lp.end], backedge, returns_);
            forall s: Slot :: s < lp.regNum ==> (s in Unused(exit, |exit|) <==> WrittenFirst(lp, s))
    ensures forall s: Slot :: Join.Uses(UseSet(backedge, |backedge|), s) ==> ReadFirst(lp, s)
    ensures forall s: Slot :: s < lp.regNum ==> Links.ReportedBy(lp, UseSet(backedge, |backedge|), s)
  {
    hide LoopOk; hide Closed; hide NodesFrom; hide EndFrom; hide AllReached; hide Along; hide WrittenFirst;
    hide Links.ReportedBy;
    hide IsWhole; hide Merge;
    hide Unused; hide UseSet;
    SummarySizes(lp, at, backedge, returns_);
    BackedgeIsExact(lp, at, Some(backedge), returns_);
    forall s: Slot | s < lp.regNum
      ensures ExitInfo(at[lp.end], backedge, returns_)[s].used == NotUsed <==> WrittenFirst(lp, s)
    {
      UnusedIsExact(lp, at, backedge, returns_, s);
    }
    var exit := ExitInfo(at[lp.end], backedge, returns_);
    UnusedIs(exit, |exit|);
    UseSetIs(backedge, |backedge|);
    forall s: Slot | s < lp.regNum ensures Links.ReportedBy(lp, UseSet(backedge, |backedge|), s) {
      Links.UseSetReports(lp, at, backedge, returns_, s);
    }
    forall s: Slot | Join.Uses(UseSet(backedge, |backedge|), s) ensures ReadFirst(lp, s) {
      var path := SummaryIsAttained(lp, at, Some(backedge), true, s);
      assert BranchesBackOn(lp, path);
    }
  }

  lemma {:induction false} MergeNothing(regNum: nat)
    ensures MergeRecorded([], regNum) == Fresh(regNum)
  {}

  lemma {:induction false} NoneBack(lp: Loop, at: map<nat, RegInfo>, returns_: Option<RegInfo>)
    requires LoopOk(lp) && Closed(lp, at) && Widths(lp, at, map[]) && EndsOk(lp, at, None, returns_)
    ensures forall path: seq<nat> :: !BranchesBackOn(lp, path)
  {
    hide LoopOk; hide Closed; hide EndsOk; hide IsWhole;
    NoBackedge(lp, at, returns_);
  }

  /** The analysis; `at` is the state that the scan has come to at each instruction. */
  method Analyse(lp: Loop) returns (r: Option<(seq<(Slot, bool)>, seq<Slot>)>, ghost at: map<nat, RegInfo>)
    requires LoopOk(lp)
    ensures Reports(lp, r)
    ensures Scanned(lp, at)
  {
    hide LoopOk; hide CoversAll; hide IsWhole; hide Sound; hide WrittenFirst; hide ReadFirst; hide AllReached;
    hide BranchesBackOn;
    hide Widths; hide HasEntry; hide Closed; hide Merge; hide UseSet; hide Unused; hide NodesFrom; hide EndsOk;
    hide EndFrom;
    hide ScanOk; hide MergeRecorded; hide Links.ReportedBy;
    LoopBounds(lp);
    var ctx := new LoopAnalysis(lp);
    var vec := BlockStarts(lp);
    ctx.Started();
    var exit := Fresh(lp.regNum);
    var k := 0;
    while true
      invariant k < |vec| && lp.head <= vec[k] <= lp.end && fresh(ctx) && ctx.lp == lp
      invariant ctx.Ok(vec[k] - 1, None) && ctx.loopLevel == (if vec[k] == lp.head then 0 else 1)
      invariant forall u: nat :: u in ctx.at ==> u < vec[k]
      invariant k == 0 ==> ctx.branchMap == map[]
      invariant k > 0 ==> vec[k] > lp.head && lp.head in ctx.at && ctx.at[lp.head] == Fresh(lp.regNum)
      decreases |vec| - k
    {
      ctx.OkBounds(vec[k] - 1, None);
      var info := ctx.IncomingInfo(vec[k]);
      MergeNothing(lp.regNum);
      ctx.OkEnter(vec[k]);
      VecNext(lp, vec, k);
      var found := ctx.ScanBb(info, vec[k], StartAfter(lp, vec, k));
      if found.Some? {
        exit := found.value;
        break;
      }
      k := k + 1;
    }
    ctx.Finished();
    at := ctx.at;
    if ctx.backedgeInfo == None {
      NoneBack(lp, at, ctx.returnInfo);
      return None, at;
    }
    var info := ctx.backedgeInfo.value;
    UnusedIsSound(lp, ctx.at, info, ctx.returnInfo);
    UseSetIs(info, |info|);
    exit := Merge(exit, info);
    if ctx.returnInfo.Some? {
      exit := Merge(exit, ctx.returnInfo.value);
    }
    r := Some((UseSet(info, |info|), Unused(exit, |exit|)));
    UnusedIs(exit, |exit|);
    if AllReached(lp) { ReportsExactly(lp, at, info, ctx.returnInfo); }
  }

  // ----- a loop without a scanned branch back -----

  /** `while c; return x; end`: the branch back comes after the return, in the same block. */
  function ReturnLoop(): Loop {
    Loop([LoopStart, CondBr(2, 2), Ret(1), Br(-4), LoopEnd], [true, false, false, false, true, false], 3, 1, 0, 4)
  }

  lemma {:induction false} ReturnLoopOk()
    ensures LoopOk(ReturnLoop()) && AllReached(ReturnLoop())
  {
    hide Records; hide InRange; hide Inside; hide Reached;
    var lp := ReturnLoop();
    ReturnLoopInsides();
    ReturnLoopRecords();
    ReturnLoopReached();
    assert lp.starts[4];
    forall i: nat | Inside(lp, i)
      ensures !lp.code[i].MethodArgs? && !lp.code[i].LoopEnd? && (i > 0 ==> !lp.code[i].LoopStart?)
      ensures IsBranch(lp.code[i]) && lp.code[i].disp >= 0 ==> i + 1 + lp.code[i].disp == 4
    {
      assert i == 0 || i == 1 || i == 2 || i == 3;
    }
  }

  lemma {:induction false} ReturnLoopReached()
    ensures Reached(ReturnLoop(), 4)
  {
    assert PathTo(ReturnLoop(), [0, 1, 4], 4);
  }

  /** Whatever is strictly inside, one by one. */
  lemma {:induction false} ReturnLoopInsides()
    ensures forall i: nat :: Inside(ReturnLoop(), i) <==> i < 4
  {}

  lemma {:induction false} ReturnLoopRecords()
    ensures var lp := ReturnLoop();
            forall i: nat, a: Access :: Inside(lp, i) && a in Records(lp.code, i, lp.localNum) ==> InRange(a, lp.regNum)
  {
    var lp := ReturnLoop();
    forall i: nat, a: Access | Inside(lp, i) && a in Records(lp.code, i, lp.localNum) ensures InRange(a, lp.regNum) {
      assert i == 0 || i == 1 || i == 2 || i == 3;
    }
  }

  lemma {:induction false} ReturnLoopPath(path: seq<nat>, n: nat)
    requires IsPath(ReturnLoop().code, 0, path) && n < |path|
    ensures path[n] in {0, 1, 2, 4}
    decreases n
  {
    if n > 0 {
      ReturnLoopPath(path, n - 1);
      assert Goes(ReturnLoop().code, path[n - 1], path[n]);
    }
  }

  /** Although no block of it is dead, no path branches back, and the analysis panics. */
  lemma {:induction false} ReturnLoopFails(r: Option<(seq<(Slot, bool)>, seq<Slot>)>)
    requires Reports(ReturnLoop(), r)
    ensures LoopOk(ReturnLoop()) && AllReached(ReturnLoop()) && r.None?
  {
    hide LoopOk; hide AllReached; hide Sound; hide WrittenFirst; hide ReadFirst;
    ReturnLoopOk();
    if r.Some? {
      var path: seq<nat> :| BranchesBackOn(ReturnLoop(), path);
      ReturnLoopPath(path, |path| - 1);
      assert false;
    }
  }

  // ----- a loop that computes with Floats -----

  /** `while c; x = x + y; end` with Floats in x and y, slots 1 and 2, and c in slot 3. */
  function FloatLoop(): Loop {
    Loop([LoopStart, CondBr(3, 2), Binary(1, 1, 2, true, true, true, true), Br(-4), LoopEnd],
         [true, false, false, false, true, false], 4, 2, 0, 4)
  }

  lemma {:induction false} FloatLoopOk()
    ensures LoopOk(FloatLoop()) && AllReached(FloatLoop())
  {
    hide Records; hide InRange; hide Inside; hide Reached;
    var lp := FloatLoop();
    FloatLoopInsides();
    FloatLoopInRange();
    FloatLoopReached();
    assert lp.starts[4];
    forall i: nat | Inside(lp, i)
      ensures !lp.code[i].MethodArgs? && !lp.code[i].LoopEnd? && (i > 0 ==> !lp.code[i].LoopStart?)
      ensures IsBranch(lp.code[i]) && lp.code[i].disp >= 0 ==> i + 1 + lp.code[i].disp == 4
    {
      assert i == 0 || i == 1 || i == 2 || i == 3;
    }
  }

  lemma {:induction false} FloatLoopReached()
    ensures Reached(FloatLoop(), 4)
  {
    assert PathTo(FloatLoop(), [0, 1, 4], 4);
  }

  lemma {:induction false} FloatLoopInsides()
    ensures forall i: nat :: Inside(FloatLoop(), i) <==> i < 4
  {}

  lemma {:induction false} FloatLoopInRange()
    ensures var lp := FloatLoop();
            forall i: nat, a: Access :: Inside(lp, i) && a in Records(lp.code, i, lp.localNum) ==> InRange(a, lp.regNum)
  {
    var lp := FloatLoop();
    forall i: nat, a: Access | Inside(lp, i) && a in Records(lp.code, i, lp.localNum) ensures InRange(a, lp.regNum) {
      assert i == 0 || i == 1 || i == 2 || i == 3;
    }
  }

  lemma {:induction false} FloatLoopPath(path: seq<nat>, n: nat)
    requires IsPath(FloatLoop().code, 0, path) && n < |path|
    ensures n < 4 && (path[n] == n || (n == 2 && path[n] == 4))
    decreases n
  {
    if n > 0 {
      FloatLoopPath(path, n - 1);
      assert Goes(FloatLoop().code, path[n - 1], path[n]);
    }
  }

  /** Its one way back: once around. */
  lemma {:induction false} FloatLoopBack(path: seq<nat>)
    ensures BranchesBackOn(FloatLoop(), path) <==> path == [0, 1, 2, 3]
  {
    var lp := FloatLoop();
    if BranchesBackOn(lp, path) {
      forall n: nat | n < |path| ensures n < 4 && (path[n] == n || (n == 2 && path[n] == 4)) {
        FloatLoopPath(path, n);
      }
      assert path[|path| - 1] == 3 && |path| == 4;
    }
  }

  lemma {:induction false} FloatLoopRecords()
    ensures var (lp, path) := (FloatLoop(), [0, 1, 2, 3]);
            Links.Accesses(lp, path)
            == [UseAs(3, false, false), UseAs(1, true, true), UseAs(2, true, true), DefAs(1, true)]
  {
    hide Links.Accesses; hide Records;
    var lp := FloatLoop();
    RecordsOfFloatLoop();
    assert Links.Accesses(lp, []) == [] by { NoAccesses(lp); }
    Links.AccessesStep(lp, [], 0);
    Links.AccessesStep(lp, [0], 1);
    Links.AccessesStep(lp, [0, 1], 2);
    Links.AccessesStep(lp, [0, 1, 2], 3);
    assert [] + [0] == [0] && [0] + [1] == [0, 1] && [0, 1] + [2] == [0, 1, 2] && [0, 1, 2] + [3] == [0, 1, 2, 3];
  }

  lemma {:induction false} NoAccesses(lp: Loop)
    ensures Links.Accesses(lp, []) == []
  {}

  lemma {:induction false} RecordsOfFloatLoop()
    ensures var code := FloatLoop().code;
            && Records(code, 0, 2) == [] && Records(code, 1, 2) == [UseAs(3, false, false)]
            && Records(code, 2, 2) == [UseAs(1, true, true), UseAs(2, true, true), DefAs(1, true)]
            && Records(code, 3, 2) == []
  {}

  lemma {:induction false} FloatLoopHappened(as_: seq<Access>)
    requires as_ == [UseAs(3, false, false), UseAs(1, true, true), UseAs(2, true, true), DefAs(1, true)]
    ensures IsFloat(History(as_, 1)) && IsFloat(History(as_, 2)) && InNoRegister(History(as_, 3))
  {
    hide History; hide IsFloat; hide InNoRegister;
    var (a, b, c, d) := (as_[0], as_[1], as_[2], as_[3]);
    assert as_[..3] == [a, b, c];
    forall s: Slot ensures History(as_, s) == Seen(History([a, b, c], s), d, s) { HistoryLast(as_, s); }
    HistoryFew(a, b, c, 1);
    HistoryFew(a, b, c, 2);
    HistoryFew(a, b, c, 3);
    assert History(as_, 1) == [d] && History(as_, 2) == [c] && History(as_, 3) == [a];
    KindsOfOne(d);
    KindsOfOne(c);
    KindsOfOne(a);
  }

  lemma {:induction false} HistoryLast(as_: seq<Access>, s: Slot)
    requires as_ != [] && !as_[|as_| - 1].Copy?
    ensures History(as_, s) == Seen(History(as_[..|as_| - 1], s), as_[|as_| - 1], s)
  {}

  lemma {:induction false} KindsOfOne(a: Access)
    ensures FloatDef(a) || (FloatUse(a) && a.known) ==> IsFloat([a])
    ensures InNoRegister([a]) <==> !FloatDef(a) && !FloatUse(a)
  {
    assert [a][0] == a;
  }

  lemma {:induction false} FloatLoopReads()
    ensures ReadFirst(FloatLoop(), 1) && ReadFirst(FloatLoop(), 2)
  {
    hide BranchesBackOn;
    var (code, path) := (FloatLoop().code, [0, 1, 2, 3]);
    FloatLoopBack(path);
    FloatLoopUsed(1);
    FloatLoopUsed(2);
    assert Along(code, 2, path, 1) == Used && Along(code, 2, path, 2) == Used;
  }

  lemma {:induction false} FloatLoopUsed(s: Slot)
    requires s == 1 || s == 2
    ensures Along(FloatLoop().code, 2, [0, 1, 2, 3], s) == Used
  {
    hide TouchAll; hide Records;
    RecordsOfFloatLoop();
    var code := FloatLoop().code;
    assert [0, 1, 2, 3][..3] == [0, 1, 2] && [0, 1, 2][..2] == [0, 1] && [0, 1][..1] == [0] && [0][..0] == [];
    TouchFew(ND, UseAs(3, false, false), DefAs(1, true), DefAs(1, true), s);
    TouchFew(ND, UseAs(1, true, true), UseAs(2, true, true), DefAs(1, true), s);
    TouchNothing(s);
    assert Along(code, 2, [0], s) == ND;
    assert Along(code, 2, [0, 1], s) == ND;
    assert Along(code, 2, [0, 1, 2], s) == Used;
  }

  lemma {:induction false} TouchNothing(s: Slot)
    ensures forall u: IsUsed :: TouchAll(u, [], s) == u
  {}

  /** Both are reported as Floats, and the condition not at all. */
  lemma {:induction false} FloatLoopReport(r: Option<(seq<(Slot, bool)>, seq<Slot>)>)
    requires Reports(FloatLoop(), r)
    ensures LoopOk(FloatLoop()) && AllReached(FloatLoop()) && r.Some?
    ensures (1, true) in r.value.0 && (2, true) in r.value.0 && (3, true) !in r.value.0 && (3, false) !in r.value.0
  {
    hide LoopOk; hide AllReached; hide Sound; hide WrittenFirst; hide ReadFirst; hide BranchesBackOn; hide History;
    hide Links.Accesses; hide IsFloat; hide InNoRegister;
    var (lp, path) := (FloatLoop(), [0, 1, 2, 3]);
    FloatLoopOk();
    FloatLoopReads();
    FloatLoopRecords();
    FloatLoopHappened(Links.Accesses(lp, path));
    forall p: seq<nat> ensures BranchesBackOn(lp, p) <==> p == path { FloatLoopBack(p); }
    assert BranchesBackOn(lp, path);
    assert Links.FloatOnAll(lp, 1) && Links.FloatOnAll(lp, 2) && Links.LinkedOnNone(lp, 3);
    assert Links.ReportedBy(lp, r.value.0, 1) && Links.ReportedBy(lp, r.value.0, 2);
    assert Links.ReportedBy(lp, r.value.0, 3);
  }
}
