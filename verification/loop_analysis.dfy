/** The forward scan over a loop's blocks, and why the slots it reports as unused may be dropped. */
module LoopAnalyses {
  import opened Prelude
  import opened Liveness
  import Join = JitJoin

  /** A loop in a function's bytecode: from its LoopStart to its LoopEnd; starts[i]: a block starts at i. */
  datatype Loop = Loop(code: seq<TraceIr>, starts: seq<bool>, regNum: nat, localNum: nat, head: nat, end: nat)

  predicate Inside(lp: Loop, idx: int) {
    lp.head <= idx < lp.end
  }

  /** The loops the analysis is for: as the compiler lays them out, without an inner loop and without a call
      directly before a block start. */
  ghost predicate LoopOk(lp: Loop) {
    var code := lp.code;
    && lp.head < lp.end < |code| && |lp.starts| == |code| + 1 && lp.starts[lp.head] && lp.regNum > 0
    && code[lp.head].LoopStart? && code[lp.end].LoopEnd?
    && (forall i: nat :: lp.head < i < lp.end ==> !code[i].LoopStart? && !code[i].LoopEnd?)
    && (forall i: nat :: Inside(lp, i) && IsBranch(code[i]) && code[i].disp >= 0 ==>
          i + 1 + code[i].disp <= lp.end && lp.starts[i + 1 + code[i].disp])
    && (forall i: nat :: Inside(lp, i) && code[i].MethodArgs? ==>
          i + 2 <= lp.end && code[i + 1].InlineCache? && !lp.starts[i + 1] && !lp.starts[i + 2])
    && (forall i: nat :: Inside(lp, i) && (code[i].Br? || code[i].Ret?) ==>
        exists t: nat :: i < t <= lp.end && lp.starts[t])
    && (forall i: nat, a: Access :: Inside(lp, i) && a in Records(code, i, lp.localNum) ==> InRange(a, lp.regNum))
  }

  type Branches = map<nat, seq<(nat, RegInfo)>>

  function Out(lp: Loop, idx: nat, info: RegInfo): RegInfo {
    if idx < |lp.code| && forall a <- Records(lp.code, idx, lp.localNum) :: InRange(a, |info|)
    then RecordAll(info, Records(lp.code, idx, lp.localNum)) else info
  }

  ghost predicate HasEntry(bm: Branches, v: int, info: RegInfo) {
    v in bm && exists k :: 0 <= k < |bm[v]| && bm[v][k].1 == info
  }

  /** The edge from u to v has been accounted for: v was scanned with information that covers it, or is about
      to be, or the edge is on record for a later block. */
  ghost predicate Settled(
      lp: Loop, at: map<nat, RegInfo>, bm: Branches, idx: int, pending: Option<RegInfo>, u: nat, v: int)
    requires u in at
  {
    && lp.head < v <= lp.end
    && ( || (v in at && CoversAll(at[v], Out(lp, u, at[u])))
         || (v == idx && pending.Some? && CoversAll(pending.value, Out(lp, u, at[u])))
         || (v > idx && v < |lp.starts| && lp.starts[v] && HasEntry(bm, v, Out(lp, u, at[u]))))
  }

  /** All edges out of the instructions scanned so far. */
  ghost predicate EdgesTo(lp: Loop, at: map<nat, RegInfo>, bm: Branches, idx: int, pending: Option<RegInfo>)
    requires LoopOk(lp)
  {
    forall u: nat, v: int :: u in at && Goes(lp.code, u, v) ==> Settled(lp, at, bm, idx, pending, u, v)
  }

  ghost predicate Widths(lp: Loop, at: map<nat, RegInfo>, bm: Branches) {
    && (forall u: nat :: u in at ==> lp.head <= u <= lp.end && |at[u]| == lp.regNum)
    && (forall v: nat, k: int :: v in bm && 0 <= k < |bm[v]| ==> |bm[v][k].1| == lp.regNum)
  }

  ghost predicate SummaryCovers(lp: Loop, u: nat, info: RegInfo, summary: Option<RegInfo>) {
    summary.Some? && CoversAll(summary.value, Out(lp, u, info))
  }

  predicate BranchesBack(inst: TraceIr) {
    IsBranch(inst) && inst.disp < 0
  }

  /** The two summaries cover every branch back and every return scanned so far. */
  ghost predicate EndsOk(lp: Loop, at: map<nat, RegInfo>, backedge: Option<RegInfo>, returns_: Option<RegInfo>)
    requires LoopOk(lp)
  {
    && (backedge.Some? ==> |backedge.value| == lp.regNum) && (returns_.Some? ==> |returns_.value| == lp.regNum)
    && forall u: nat :: u in at && u < |lp.code| ==>
         && (BranchesBack(lp.code[u]) ==> SummaryCovers(lp, u, at[u], backedge))
         && (lp.code[u].Ret? ==> SummaryCovers(lp, u, at[u], returns_))
  }

  // ----- covering -----

  lemma {:induction false} CoversSelf(a: RegInfo)
    ensures CoversAll(a, a)
  {}

  lemma {:induction false} CoversTrans(a: RegInfo, b: RegInfo, c: RegInfo)
    requires CoversAll(a, b) && CoversAll(b, c)
    ensures CoversAll(a, c)
  {
    forall s: Slot | s < |a| ensures Covers(a[s].used, c[s].used) {
      assert Covers(a[s].used, b[s].used) && Covers(b[s].used, c[s].used);
    }
  }

  /** A summary that absorbs more still covers what it covered. */
  lemma {:induction false} SummaryGrows(lp: Loop, u: nat, info: RegInfo, old_: RegInfo, more: RegInfo)
    requires |old_| == |more| && SummaryCovers(lp, u, info, Some(old_))
    ensures SummaryCovers(lp, u, info, Some(Merge(old_, more)))
  {
    hide Out; hide CoversAll;
    MergeCovers(old_, more);
    CoversTrans(Merge(old_, more), old_, Out(lp, u, info));
  }

  // ----- one instruction -----

  /** Scanning one instruction: edges into it are settled, and those out of it are on record or pending. */
  lemma {:induction false} VisitKeeps(
      lp: Loop, at: map<nat, RegInfo>, bm: Branches, bm2: Branches, idx: nat, info: RegInfo, next: int,
      pending: Option<RegInfo>)
    requires LoopOk(lp) && EdgesTo(lp, at, bm, idx, Some(info)) && idx !in at
    requires forall v: int, i: RegInfo :: HasEntry(bm, v, i) ==> HasEntry(bm2, v, i)
    requires idx <= next && forall j: nat :: idx < j <= next && j <= lp.end ==> !lp.starts[j]
    requires forall v: int :: Goes(lp.code, idx, v) ==>
               Settled(lp, at[idx := info], bm2, next, pending, idx, v)
    ensures EdgesTo(lp, at[idx := info], bm2, next, pending)
  {
    hide Out; hide CoversAll; hide HasEntry; hide Goes; hide LoopOk;
    var at2 := at[idx := info];
    forall u: nat, v: int | u in at2 && Goes(lp.code, u, v) ensures Settled(lp, at2, bm2, next, pending, u, v) {
      if u != idx {
        assert Settled(lp, at, bm, idx, Some(info), u, v);
      }
    }
  }

  /** Entering a block with information that covers all that is on record for it. */
  lemma {:induction false} EnterBlock(lp: Loop, at: map<nat, RegInfo>, bm: Branches, b: nat, info: RegInfo)
    requires LoopOk(lp) && EdgesTo(lp, at, bm, b - 1, None)
    requires forall i: RegInfo :: HasEntry(bm, b, i) ==> CoversAll(info, i)
    ensures EdgesTo(lp, at, bm, b, Some(info))
  {
    hide Out; hide CoversAll; hide HasEntry; hide Goes; hide LoopOk;
    forall u: nat, v: int | u in at && Goes(lp.code, u, v) ensures Settled(lp, at, bm, b, Some(info), u, v) {
      assert Settled(lp, at, bm, b - 1, None, u, v);
    }
  }

  /** Between blocks: whatever is on record is for the next block start or later. */
  lemma {:induction false} LeaveBlock(lp: Loop, at: map<nat, RegInfo>, bm: Branches, idx: nat, nb: nat)
    requires LoopOk(lp) && EdgesTo(lp, at, bm, idx, None)
    requires forall j: nat :: idx < j < nb && j <= lp.end ==> !lp.starts[j]
    ensures EdgesTo(lp, at, bm, nb - 1, None)
  {
    hide Out; hide CoversAll; hide HasEntry; hide Goes; hide LoopOk;
    forall u: nat, v: int | u in at && Goes(lp.code, u, v) ensures Settled(lp, at, bm, nb - 1, None, u, v) {
      assert Settled(lp, at, bm, idx, None, u, v);
    }
  }

  // ----- from the scan to paths -----

  /** The scan is complete: every edge leads to an instruction scanned with information that covers it. */
  ghost predicate Closed(lp: Loop, at: map<nat, RegInfo>)
    requires LoopOk(lp)
  {
    && lp.head in at && lp.end in at && at[lp.head] == Fresh(lp.regNum)
    && forall u: nat, v: int :: u in at && Goes(lp.code, u, v) ==> Follows(lp, at, u, v)
  }

  ghost predicate Follows(lp: Loop, at: map<nat, RegInfo>, u: nat, v: int)
    requires u in at
  {
    v in at && CoversAll(at[v], Out(lp, u, at[u]))
  }

  lemma {:induction false} ScanIsClosed(lp: Loop, at: map<nat, RegInfo>, bm: Branches)
    requires LoopOk(lp) && EdgesTo(lp, at, bm, lp.end, None)
    requires lp.head in at && lp.end in at && at[lp.head] == Fresh(lp.regNum)
    ensures Closed(lp, at)
  {
    hide Out; hide CoversAll; hide HasEntry; hide Goes; hide LoopOk;
    forall u: nat, v: int | u in at && Goes(lp.code, u, v) ensures Follows(lp, at, u, v) {
      assert Settled(lp, at, bm, lp.end, None, u, v);
    }
  }

  /** One step of a path, seen by one slot. */
  lemma {:induction false} OutCovers(lp: Loop, u: nat, info: RegInfo, s: Slot, state: IsUsed)
    requires LoopOk(lp) && lp.head <= u <= lp.end && |info| == lp.regNum && s < lp.regNum && Covers(info[s].used, state)
    ensures |Out(lp, u, info)| == lp.regNum
    ensures Covers(Out(lp, u, info)[s].used, TouchAll(state, Records(lp.code, u, lp.localNum), s))
  {
    var as_ := Records(lp.code, u, lp.localNum);
    if u < lp.end {
      forall a <- as_ ensures InRange(a, |info|) {
        assert Inside(lp, u);
      }
    } else {
      assert as_ == [];
    }
    RecordAllTouches(info, as_, s);
    TouchAllCovers(info[s].used, state, as_, s);
  }

  /** Along every path through the loop, the information at an instruction covers what has happened to each
      slot before it. */
  lemma {:induction false} PathIsCovered(lp: Loop, at: map<nat, RegInfo>, path: seq<nat>, s: Slot)
    requires LoopOk(lp) && Closed(lp, at) && Widths(lp, at, map[])
    requires IsPath(lp.code, lp.head, path) && s < lp.regNum
    ensures var (before, last) := (path[..|path| - 1], path[|path| - 1]);
            last in at && Covers(at[last][s].used, Along(lp.code, lp.localNum, before, s))
    decreases |path|
  {
    hide LoopOk; hide Goes; hide Out; hide Records; hide TouchAll;
    if |path| > 1 {
      var (before, last) := (path[..|path| - 1], path[|path| - 1]);
      var u := path[|path| - 2];
      assert IsPath(lp.code, lp.head, before) by {
        forall i | 0 < i < |before| ensures Goes(lp.code, before[i - 1], before[i]) {
          assert Goes(lp.code, path[i - 1], path[i]);
        }
      }
      PathIsCovered(lp, at, before, s);
      assert Goes(lp.code, u, last);
      assert Follows(lp, at, u, last);
      OutCovers(lp, u, at[u], s, Along(lp.code, lp.localNum, before[..|before| - 1], s));
    }
  }

  /** Any path that ends by leaving the loop, by returning or by branching back. */
  predicate IsWhole(lp: Loop, path: seq<nat>) {
    IsPath(lp.code, lp.head, path) && Ends(lp.code, path[|path| - 1])
  }

  /** On every whole path, the summary of its kind of ending covers the path. */
  lemma {:induction false} EndIsCovered(
      lp: Loop, at: map<nat, RegInfo>, backedge: Option<RegInfo>, returns_: Option<RegInfo>, path: seq<nat>, s: Slot)
    requires LoopOk(lp) && Closed(lp, at) && Widths(lp, at, map[]) && EndsOk(lp, at, backedge, returns_)
    requires IsWhole(lp, path) && s < lp.regNum
    ensures var (last, whole) := (path[|path| - 1], Along(lp.code, lp.localNum, path, s));
            if lp.code[last].LoopEnd? then last == lp.end && Covers(at[lp.end][s].used, whole)
            else if lp.code[last].Ret? then returns_.Some? && s < |returns_.value|
                && Covers(returns_.value[s].used, whole)
            else backedge.Some? && s < |backedge.value| && Covers(backedge.value[s].used, whole)
  {
    hide Closed; hide Goes; hide Records; hide TouchAll; hide Out; hide CoversAll; hide RecordAll;
    var last := path[|path| - 1];
    var before := Along(lp.code, lp.localNum, path[..|path| - 1], s);
    LoopBounds(lp);
    PathIsCovered(lp, at, path, s);
    OutCovers(lp, last, at[last], s, before);
    AlongLast(lp, path, s);
    if lp.code[last].LoopEnd? {
      OnlyLoopEnd(lp, last);
      NothingRecorded(lp, last);
    } else if lp.code[last].Ret? {
      SummaryCoversSlot(lp, last, at[last], returns_, s, Along(lp.code, lp.localNum, path, s));
    } else {
      SummaryCoversSlot(lp, last, at[last], backedge, s, Along(lp.code, lp.localNum, path, s));
    }
  }

  lemma {:induction false} AlongLast(lp: Loop, path: seq<nat>, s: Slot)
    requires path != [] && forall i :: 0 <= i < |path| ==> path[i] < |lp.code|
    ensures Along(lp.code, lp.localNum, path, s)
            == TouchAll(Along(lp.code, lp.localNum, path[..|path| - 1], s),
                Records(lp.code, path[|path| - 1], lp.localNum), s)
  {}

  lemma {:induction false} OnlyLoopEnd(lp: Loop, idx: nat)
    requires LoopOk(lp) && lp.head <= idx <= lp.end && lp.code[idx].LoopEnd?
    ensures idx == lp.end
  {}

  lemma {:induction false} NothingRecorded(lp: Loop, idx: nat)
    requires idx < |lp.code| && lp.code[idx].LoopEnd?
    ensures Records(lp.code, idx, lp.localNum) == []
    ensures forall u: IsUsed, s: Slot :: TouchAll(u, [], s) == u
  {}

  lemma {:induction false} SummaryCoversSlot(
      lp: Loop, u: nat, info: RegInfo, summary: Option<RegInfo>, s: Slot, whole: IsUsed)
    requires SummaryCovers(lp, u, info, summary) && s < |Out(lp, u, info)| && Covers(Out(lp, u, info)[s].used, whole)
    ensures s < |summary.value| && Covers(summary.value[s].used, whole)
  {
    hide Out;
  }

  // ----- the scan -----

  predicate LinkedAsFloat(st: RegState) {
    st.used == Used && (st.link.R? || st.link == RW)
  }

  /** Slots read in the loop and in a register on the back edge; the flag says that they are Floats there. */
  function UseSet(info: RegInfo, n: nat): seq<(Slot, bool)>
    requires n <= |info|
    decreases n
  {
    if n == 0 then []
    else UseSet(info, n - 1) + if LinkedAsFloat(info[n - 1]) then [(n - 1, info[n - 1].link != R(false))] else []
  }

  function Unused(info: RegInfo, n: nat): seq<Slot>
    requires n <= |info|
    decreases n
  {
    if n == 0 then [] else Unused(info, n - 1) + if info[n - 1].used == NotUsed then [n - 1] else []
  }

  lemma {:induction false} UseSetIs(info: RegInfo, n: nat)
    requires n <= |info|
    ensures Join.Increasing(UseSet(info, n))
    ensures forall k :: 0 <= k < |UseSet(info, n)| ==>
        UseSet(info, n)[k].0 < n && LinkedAsFloat(info[UseSet(info, n)[k].0])
    ensures forall s: Slot, float: bool :: (s, float) in UseSet(info, n) <==>
              s < n && info[s].used == Used && info[s].link != Unlinked && (float <==> info[s].link in {RW, R(true)})
    decreases n
  {
    if n > 0 { UseSetIs(info, n - 1); }
  }

  lemma {:induction false} UnusedIs(info: RegInfo, n: nat)
    requires n <= |info|
    ensures forall s: Slot :: s in Unused(info, n) <==> s < n && info[s].used == NotUsed
    decreases n
  {
    if n > 0 { UnusedIs(info, n - 1); }
  }

  /** A slot reported as used on the back edge is never reported as unused. */
  lemma {:induction false} UsedAndUnusedAreDisjoint(backedge: RegInfo, exit: RegInfo)
    requires CoversAll(exit, backedge)
    ensures forall s: Slot :: s in Unused(exit, |exit|) ==> !Join.Uses(UseSet(backedge, |backedge|), s)
  {
    UseSetIs(backedge, |backedge|);
    UnusedIs(exit, |exit|);
  }

  datatype Step = Continue(info: RegInfo, skip: bool) | BlockEnds | LoopEnds

  /** idx is in a block that ends before nb, where the next block of the loop starts if there is one. */
  ghost predicate NextBlock(lp: Loop, idx: nat, nb: nat) {
    && lp.head <= idx <= lp.end && idx < nb && lp.end < |lp.starts|
    && (nb <= lp.end ==> lp.starts[nb])
    && forall j: nat :: idx < j < nb && j <= lp.end ==> !lp.starts[j]
  }

  lemma {:induction false} LoopBounds(lp: Loop)
    requires LoopOk(lp)
    ensures lp.head < lp.end < |lp.code| && |lp.starts| == |lp.code| + 1 && lp.starts[lp.head] && lp.regNum > 0
  {}

  lemma {:induction false} WidthsGrow(lp: Loop, at: map<nat, RegInfo>, bm: Branches, idx: nat, info: RegInfo)
    requires Widths(lp, at, bm) && lp.head <= idx <= lp.end && |info| == lp.regNum
    ensures Widths(lp, at[idx := info], bm)
  {}

  function Absorb(summary: Option<RegInfo>, out: RegInfo): Option<RegInfo>
    requires summary.Some? ==> |summary.value| == |out|
  {
    Some(if summary.Some? then Merge(summary.value, out) else out)
  }

  /** The summaries after scanning one more instruction. */
  lemma {:induction false} EndsAbsorb(lp: Loop, at: map<nat, RegInfo>, idx: nat, info: RegInfo,
                                      be: Option<RegInfo>, re: Option<RegInfo>, be2: Option<RegInfo>,
                                          re2: Option<RegInfo>)
    requires LoopOk(lp) && EndsOk(lp, at, be, re) && idx !in at && lp.head <= idx <= lp.end && |info| == lp.regNum
    requires |Out(lp, idx, info)| == lp.regNum
    requires be2 == if BranchesBack(lp.code[idx]) then Absorb(be, Out(lp, idx, info)) else be
    requires re2 == if lp.code[idx].Ret? then Absorb(re, Out(lp, idx, info)) else re
    ensures EndsOk(lp, at[idx := info], be2, re2)
  {
    hide LoopOk; hide Out; hide CoversAll; hide Merge;
    LoopBounds(lp);
    var at2 := at[idx := info];
    var out := Out(lp, idx, info);
    if be.Some? { MergeCovers(be.value, out); }
    if re.Some? { MergeCovers(re.value, out); }
    CoversSelf(out);
    forall u: nat | u in at2 && u < |lp.code|
      ensures BranchesBack(lp.code[u]) ==> SummaryCovers(lp, u, at2[u], be2)
      ensures lp.code[u].Ret? ==> SummaryCovers(lp, u, at2[u], re2)
    {
      if u != idx {
        if BranchesBack(lp.code[u]) && BranchesBack(lp.code[idx]) { SummaryGrows(lp, u, at[u], be.value, out); }
        if lp.code[u].Ret? && lp.code[idx].Ret? { SummaryGrows(lp, u, at[u], re.value, out); }
      }
    }
  }

  /** What holds of every instruction of such a loop. */
  lemma {:induction false} InstFacts(lp: Loop, idx: nat, info: RegInfo, nb: nat)
    requires LoopOk(lp) && NextBlock(lp, idx, nb) && |info| == lp.regNum
    ensures var inst := lp.code[idx];
            && (forall a <- Records(lp.code, idx, lp.localNum) :: InRange(a, |info|))
            && Out(lp, idx, info) == RecordAll(info, Records(lp.code, idx, lp.localNum))
            && (inst.LoopStart? <==> idx == lp.head) && (inst.LoopEnd? <==> idx == lp.end)
            && (inst.LoopEnd? ==> forall v: int :: !Goes(lp.code, idx, v))
            && (IsBranch(inst) && inst.disp >= 0 ==> idx + 1 + inst.disp <= lp.end && lp.starts[idx + 1 + inst.disp])
            && (inst.Ret? || inst.Br? ==> nb <= lp.end)
            && (inst.MethodArgs? ==> idx + 2 <= lp.end && !lp.starts[idx + 1] && NextBlock(lp, idx + 2, nb))
            && (idx < lp.end && !lp.starts[idx + 1] ==> NextBlock(lp, idx + 1, nb))
            && (idx < lp.end && lp.starts[idx + 1] ==> nb <= lp.end)
  {
    hide Records; hide RecordAll; hide InRange;
    var as_ := Records(lp.code, idx, lp.localNum);
    if idx < lp.end {
      forall a <- as_ ensures InRange(a, |info|) {
        assert Inside(lp, idx);
      }
    } else {
      NothingAtEnd(lp);
    }
    assert Inside(lp, idx) || idx == lp.end;
  }

  lemma {:induction false} NothingAtEnd(lp: Loop)
    requires LoopOk(lp)
    ensures Records(lp.code, lp.end, lp.localNum) == []
  {}

  /** Where control goes from idx is on record, or is where the scan goes on. */
  lemma {:induction false} BranchSettled(
      lp: Loop, at: map<nat, RegInfo>, bm: Branches, idx: nat, out: RegInfo, pending: Option<RegInfo>, next: int)
    requires LoopOk(lp) && Inside(lp, idx) && idx in at && out == Out(lp, idx, at[idx])
    requires var inst := lp.code[idx];
             && (IsBranch(inst) && inst.disp >= 0 ==> HasEntry(bm, idx + 1 + inst.disp, out))
             && if inst.Ret? || inst.Br? then next == idx
                else if pending == None then next == idx && !inst.MethodArgs? && HasEntry(bm, idx + 1, out)
                    && lp.starts[idx + 1]
                else pending == Some(out) && next == (if inst.MethodArgs? then idx + 2 else idx + 1)
                     && forall j: nat :: idx < j <= next && j <= lp.end ==> !lp.starts[j]
    requires CoversAll(out, out)
    ensures forall v: int :: Goes(lp.code, idx, v) ==> Settled(lp, at, bm, next, pending, idx, v)
  {
    hide Out; hide CoversAll; hide HasEntry;
  }

  /** The claim about unused slots: on every path to the loop's end, to a return or to a branch back, the
      slot's first recorded access is a write. */
  ghost predicate Sound(lp: Loop, unused: seq<Slot>) {
    forall s: Slot, path: seq<nat> :: s in unused && IsWhole(lp, path) ==>
        Along(lp.code, lp.localNum, path, s) == NotUsed
  }

  /** What the analysis makes of the three kinds of ending. */
  function ExitInfo(exit: RegInfo, backedge: RegInfo, returns_: Option<RegInfo>): RegInfo
    requires |exit| == |backedge| && (returns_.Some? ==> |returns_.value| == |exit|)
  {
    var e := Merge(exit, backedge);
    if returns_.Some? then Merge(e, returns_.value) else e
  }

  lemma {:induction false} UnusedIsSound(lp: Loop, at: map<nat, RegInfo>, backedge: RegInfo, returns_: Option<RegInfo>)
    requires LoopOk(lp) && Closed(lp, at) && Widths(lp, at, map[]) && EndsOk(lp, at, Some(backedge), returns_)
    ensures |at[lp.end]| == |backedge| == lp.regNum && (returns_.Some? ==> |returns_.value| == lp.regNum)
    ensures var exit := ExitInfo(at[lp.end], backedge, returns_);
            Sound(lp, Unused(exit, |exit|)) && CoversAll(exit, backedge)
            && forall s: Slot :: s in Unused(exit, |exit|) ==> !Join.Uses(UseSet(backedge, |backedge|), s)
  {
    hide LoopOk; hide Unused; hide UseSet; hide Along; hide Ends; hide Goes;
    assert |at[lp.end]| == lp.regNum && |backedge| == lp.regNum;
    var exit := ExitInfo(at[lp.end], backedge, returns_);
    UnusedIs(exit, |exit|);
    forall s: Slot, path: seq<nat> | s in Unused(exit, |exit|) && IsWhole(lp, path)
      ensures Along(lp.code, lp.localNum, path, s) == NotUsed
    {
      EndIsCovered(lp, at, Some(backedge), returns_, path, s);
    }
    UsedAndUnusedAreDisjoint(backedge, exit);
  }

  lemma {:induction false} NoBackedge(lp: Loop, at: map<nat, RegInfo>, returns_: Option<RegInfo>)
    requires LoopOk(lp) && Closed(lp, at) && Widths(lp, at, map[]) && EndsOk(lp, at, None, returns_)
    ensures forall path: seq<nat> :: IsWhole(lp, path) ==> !IsBranch(lp.code[path[|path| - 1]])
  {
    hide LoopOk; hide Closed; hide Widths; hide EndsOk; hide Along;
    LoopBounds(lp);
    forall path: seq<nat> | IsWhole(lp, path) ensures !IsBranch(lp.code[path[|path| - 1]]) {
      EndIsCovered(lp, at, None, returns_, path, 0);
    }
  }

  // ----- nothing in the scan is made up -----

  /** The state of slot s after u, which leads to v, shows the trait. */
  ghost predicate Feeds(lp: Loop, at: map<nat, RegInfo>, u: nat, v: int, s: Slot, t: Trait) {
    && u in at && Goes(lp.code, u, v)
    && var out := Out(lp, u, at[u]); s < |out| && Shows(t, out[s])
  }

  ghost predicate Fed(lp: Loop, at: map<nat, RegInfo>, v: int, s: Slot, t: Trait) {
    exists u: nat :: Feeds(lp, at, u, v, s, t)
  }

  ghost predicate Attained(lp: Loop, at: map<nat, RegInfo>, info: RegInfo, v: int) {
    forall s: Slot, t: Trait :: s < |info| && Shows(t, info[s]) ==> Fed(lp, at, v, s, t)
  }

  ghost predicate NobodyGoes(lp: Loop, at: map<nat, RegInfo>, v: int) {
    forall u: nat :: u in at ==> !Goes(lp.code, u, v)
  }

  /** What a slot's state at v shows comes from an instruction that leads there; but for the head of the loop, and for
      block starts to which nothing leads. */
  ghost predicate From(lp: Loop, at: map<nat, RegInfo>, info: RegInfo, v: int) {
    v == lp.head || Attained(lp, at, info, v) || (0 <= v < |lp.starts| && lp.starts[v] && NobodyGoes(lp, at, v))
  }

  ghost predicate NodesFrom(lp: Loop, at: map<nat, RegInfo>) {
    forall v: nat :: v in at ==> From(lp, at, at[v], v)
  }

  ghost predicate Source(lp: Loop, at: map<nat, RegInfo>, v: int, info: RegInfo) {
    exists u: nat :: u in at && Goes(lp.code, u, v) && info == Out(lp, u, at[u])
  }

  ghost predicate EntriesFrom(lp: Loop, at: map<nat, RegInfo>, bm: Branches) {
    forall v: int, info: RegInfo :: HasEntry(bm, v, info) ==> Source(lp, at, v, info)
  }

  predicate EndsSo(inst: TraceIr, back: bool) {
    if back then BranchesBack(inst) else inst.Ret?
  }

  ghost predicate EndFeeds(lp: Loop, at: map<nat, RegInfo>, u: nat, s: Slot, t: Trait, back: bool) {
    && u in at && u < |lp.code| && EndsSo(lp.code[u], back)
    && var out := Out(lp, u, at[u]); s < |out| && Shows(t, out[s])
  }

  /** What a slot's state in a summary shows comes from an ending of that kind. */
  ghost predicate EndFrom(lp: Loop, at: map<nat, RegInfo>, summary: Option<RegInfo>, back: bool) {
    summary.Some? ==>
      forall s: Slot, t: Trait :: s < |summary.value| && Shows(t, summary.value[s]) ==> EndFed(lp, at, s, t, back)
  }

  ghost predicate EndFed(lp: Loop, at: map<nat, RegInfo>, s: Slot, t: Trait, back: bool) {
    exists u: nat :: EndFeeds(lp, at, u, s, t, back)
  }

  ghost predicate Exact(
      lp: Loop, at: map<nat, RegInfo>, bm: Branches, idx: int, pending: Option<RegInfo>, be: Option<RegInfo>,
      re: Option<RegInfo>)
  {
    && NodesFrom(lp, at) && EntriesFrom(lp, at, bm) && (pending.Some? ==> From(lp, at, pending.value, idx))
    && EndFrom(lp, at, be, true) && EndFrom(lp, at, re, false)
  }

  lemma {:induction false} GoesForward(lp: Loop, u: nat, v: int)
    requires Goes(lp.code, u, v)
    ensures v > u
  {}

  lemma {:induction false} FromGrows(lp: Loop, at: map<nat, RegInfo>, idx: nat, info: RegInfo, i: RegInfo, v: int)
    requires idx !in at && v <= idx && From(lp, at, i, v)
    ensures From(lp, at[idx := info], i, v)
  {
    hide Goes; hide Out; hide Shows;
    var at2 := at[idx := info];
    if v != lp.head && Attained(lp, at, i, v) {
      forall s: Slot, t: Trait | s < |i| && Shows(t, i[s]) ensures Fed(lp, at2, v, s, t) {
        assert Fed(lp, at, v, s, t);
        var u: nat :| Feeds(lp, at, u, v, s, t);
        assert Feeds(lp, at2, u, v, s, t);
      }
    } else if v != lp.head {
      forall u: nat | u in at2 ensures !Goes(lp.code, u, v) {
        if Goes(lp.code, u, v) { GoesForward(lp, u, v); }
      }
    }
  }

  lemma {:induction false} SourceGrows(lp: Loop, at: map<nat, RegInfo>, idx: nat, info: RegInfo, v: int, i: RegInfo)
    requires idx !in at && Source(lp, at, v, i)
    ensures Source(lp, at[idx := info], v, i)
  {
    hide Goes; hide Out;
    var u: nat :| u in at && Goes(lp.code, u, v) && i == Out(lp, u, at[u]);
    assert at[idx := info][u] == at[u];
  }

  lemma {:induction false} EndGrows(
      lp: Loop, at: map<nat, RegInfo>, idx: nat, info: RegInfo, summary: Option<RegInfo>, more: Option<RegInfo>,
      back: bool)
    requires idx !in at && EndFrom(lp, at, summary, back) && idx < |lp.code|
    requires summary.Some? ==> |summary.value| == |Out(lp, idx, info)|
    requires more == if EndsSo(lp.code[idx], back) then Absorb(summary, Out(lp, idx, info)) else summary
    ensures EndFrom(lp, at[idx := info], more, back)
  {
    hide Out; hide Merge; hide Shows;
    var at2 := at[idx := info];
    if more.Some? {
      forall s: Slot, t: Trait | s < |more.value| && Shows(t, more.value[s]) ensures EndFed(lp, at2, s, t, back) {
        if EndsSo(lp.code[idx], back) && (summary.None? || Shows(t, Out(lp, idx, info)[s])) {
          assert EndFeeds(lp, at2, idx, s, t, back);
        } else {
          if EndsSo(lp.code[idx], back) { MergeShows(summary.value, Out(lp, idx, info), s, t); }
          assert EndFed(lp, at, s, t, back);
          var u: nat :| EndFeeds(lp, at, u, s, t, back);
          assert EndFeeds(lp, at2, u, s, t, back);
        }
      }
    }
  }

  lemma {:induction false} ExactVisit(
      lp: Loop, at: map<nat, RegInfo>, bm: Branches, bm2: Branches, idx: nat, info: RegInfo, next: int,
      pending: Option<RegInfo>, be: Option<RegInfo>, re: Option<RegInfo>, be2: Option<RegInfo>, re2: Option<RegInfo>)
    requires Exact(lp, at, bm, idx, Some(info), be, re) && idx < |lp.code|
    requires idx !in at && forall u: nat :: u in at ==> u < idx
    requires forall v: int, i: RegInfo :: HasEntry(bm2, v, i) ==>
      HasEntry(bm, v, i) || (Goes(lp.code, idx, v) && i == Out(lp, idx, info))
    requires pending.Some? ==> Goes(lp.code, idx, next) && pending.value == Out(lp, idx, info)
    requires (be.Some? ==> |be.value| == |Out(lp, idx, info)|) && (re.Some? ==> |re.value| == |Out(lp, idx, info)|)
    requires be2 == if BranchesBack(lp.code[idx]) then Absorb(be, Out(lp, idx, info)) else be
    requires re2 == if lp.code[idx].Ret? then Absorb(re, Out(lp, idx, info)) else re
    ensures Exact(lp, at[idx := info], bm2, next, pending, be2, re2)
  {
    hide Goes; hide Out; hide HasEntry; hide Merge; hide Source; hide From; hide EndFrom; hide Absorb;
    var at2 := at[idx := info];
    forall v: nat | v in at2 ensures From(lp, at2, at2[v], v) {
      FromGrows(lp, at, idx, info, at2[v], v);
    }
    forall v: int, i: RegInfo | HasEntry(bm2, v, i) ensures Source(lp, at2, v, i) {
      if HasEntry(bm, v, i) { SourceGrows(lp, at, idx, info, v, i); } else { NewSource(lp, at2, idx, v); }
    }
    if pending.Some? { PendingFrom(lp, at2, idx, next); }
    EndGrows(lp, at, idx, info, be, be2, true);
    EndGrows(lp, at, idx, info, re, re2, false);
  }

  /** Where the scan takes an instruction to lead. */
  lemma {:induction false} Leads(lp: Loop, idx: nat)
    requires idx < |lp.code|
    ensures var inst := lp.code[idx];
            && (IsBranch(inst) && inst.disp >= 0 ==> Goes(lp.code, idx, idx + 1 + inst.disp))
            && (!inst.Br? && !inst.Ret? && !inst.LoopEnd? ==>
                  Goes(lp.code, idx, if inst.MethodArgs? then idx + 2 else idx + 1))
  {}

  lemma {:induction false} ExactBetween(
      lp: Loop, at: map<nat, RegInfo>, bm: Branches, idx: int, idx2: int, be: Option<RegInfo>, re: Option<RegInfo>)
    requires Exact(lp, at, bm, idx, None, be, re)
    ensures Exact(lp, at, bm, idx2, None, be, re)
  {}

  lemma {:induction false} NewSource(lp: Loop, at: map<nat, RegInfo>, idx: nat, v: int)
    requires idx in at && Goes(lp.code, idx, v)
    ensures Source(lp, at, v, Out(lp, idx, at[idx]))
  {}

  lemma {:induction false} PendingFrom(lp: Loop, at: map<nat, RegInfo>, idx: nat, v: int)
    requires idx in at && Goes(lp.code, idx, v)
    ensures From(lp, at, Out(lp, idx, at[idx]), v)
  {
    hide Goes; hide Out; hide Shows;
    var out := Out(lp, idx, at[idx]);
    forall s: Slot, t: Trait | s < |out| && Shows(t, out[s]) ensures Fed(lp, at, v, s, t) {
      assert Feeds(lp, at, idx, v, s, t);
    }
  }

  /** What is on record for a block, merged; nothing known where nothing is on record. */
  function MergeRecorded(entries: seq<(nat, RegInfo)>, regNum: nat): (r: RegInfo)
    requires forall k :: 0 <= k < |entries| ==> |entries[k].1| == regNum
    ensures |r| == regNum
    decreases |entries|
  {
    if entries == [] then Fresh(regNum)
    else if |entries| == 1 then entries[0].1
    else Merge(MergeRecorded(entries[..|entries| - 1], regNum), entries[|entries| - 1].1)
  }

  lemma {:induction false} MergeRecordedIs(entries: seq<(nat, RegInfo)>, regNum: nat)
    requires forall k :: 0 <= k < |entries| ==> |entries[k].1| == regNum
    ensures forall k :: 0 <= k < |entries| ==> CoversAll(MergeRecorded(entries, regNum), entries[k].1)
    ensures forall s: Slot, t: Trait ::
              s < regNum && entries != [] && Shows(t, MergeRecorded(entries, regNum)[s]) ==> OneOf(entries, s, t)
    decreases |entries|
  {
    hide CoversAll; hide Merge; hide Shows;
    if |entries| == 1 {
      CoversSelf(entries[0].1);
      forall s: Slot, t: Trait | s < regNum && Shows(t, MergeRecorded(entries, regNum)[s]) ensures OneOf(entries, s,
          t) {
        assert Shows(t, entries[0].1[s]);
      }
    } else if entries != [] {
      var (init, last) := (entries[..|entries| - 1], entries[|entries| - 1].1);
      var (before, merged) := (MergeRecorded(init, regNum), MergeRecorded(entries, regNum));
      MergeRecordedIs(init, regNum);
      MergeCovers(before, last);
      forall k | 0 <= k < |entries| ensures CoversAll(merged, entries[k].1) {
        if k < |init| {
          assert init[k] == entries[k];
          CoversTrans(merged, before, init[k].1);
        }
      }
      forall s: Slot, t: Trait | s < regNum && Shows(t, merged[s]) ensures OneOf(entries, s, t) {
        MergeShows(before, last, s, t);
        if Shows(t, last[s]) {
          assert Shows(t, entries[|entries| - 1].1[s]);
        } else {
          var k :| 0 <= k < |init| && s < |init[k].1| && Shows(t, init[k].1[s]);
          assert Shows(t, entries[k].1[s]);
        }
      }
    }
  }

  ghost predicate OneOf(entries: seq<(nat, RegInfo)>, s: Slot, t: Trait) {
    exists k :: 0 <= k < |entries| && s < |entries[k].1| && Shows(t, entries[k].1[s])
  }

  /** A block is entered with states that come from somewhere. */
  lemma {:induction false} ExactEnter(
      lp: Loop, at: map<nat, RegInfo>, bm: Branches, b: nat, be: Option<RegInfo>, re: Option<RegInfo>)
    requires LoopOk(lp) && EdgesTo(lp, at, bm, b - 1, None) && Exact(lp, at, bm, b - 1, None, be, re)
    requires b < |lp.starts| && lp.starts[b] && (forall u: nat :: u in at ==> u < b)
    requires forall k :: b in bm && 0 <= k < |bm[b]| ==> |bm[b][k].1| == lp.regNum
    ensures Exact(lp, at, bm, b, Some(MergeRecorded(if b in bm then bm[b] else [], lp.regNum)), be, re)
  {
    hide Goes; hide Out; hide Merge; hide LoopOk; hide CoversAll; hide EndFrom; hide NodesFrom; hide MergeRecorded;
    hide Shows;
    var entries := if b in bm then bm[b] else [];
    var info := MergeRecorded(entries, lp.regNum);
    MergeRecordedIs(entries, lp.regNum);
    if entries == [] {
      forall u: nat | u in at ensures !Goes(lp.code, u, b) {
        assert Goes(lp.code, u, b) ==> Settled(lp, at, bm, b - 1, None, u, b);
      }
    } else {
      forall s: Slot, t: Trait | s < |info| && Shows(t, info[s]) ensures Fed(lp, at, b, s, t) {
        assert OneOf(entries, s, t);
        var k :| 0 <= k < |entries| && s < |entries[k].1| && Shows(t, entries[k].1[s]);
        assert HasEntry(bm, b, entries[k].1);
        assert Source(lp, at, b, entries[k].1);
        var u: nat :| u in at && Goes(lp.code, u, b) && entries[k].1 == Out(lp, u, at[u]);
        assert Feeds(lp, at, u, b, s, t);
      }
    }
  }

  // ----- the scan is exact -----

  predicate PathTo(lp: Loop, path: seq<nat>, v: nat) {
    IsPath(lp.code, lp.head, path) && path[|path| - 1] == v
  }

  ghost predicate Reached(lp: Loop, v: nat) {
    exists path: seq<nat> :: PathTo(lp, path, v)
  }

  /** No block of the loop is dead code. */
  ghost predicate AllReached(lp: Loop) {
    forall b: nat :: lp.head < b <= lp.end && b < |lp.starts| && lp.starts[b] ==> Reached(lp, b)
  }

  /** `at` gives the state that the scan has reached each instruction with. */
  ghost predicate Scanned(lp: Loop, at: map<nat, RegInfo>) {
    LoopOk(lp) && Closed(lp, at) && Widths(lp, at, map[]) && NodesFrom(lp, at)
  }

  /** The slot's state when a path reaches its last instruction. */
  function Before(lp: Loop, path: seq<nat>, s: Slot): IsUsed
    requires path != [] && forall i :: 0 <= i < |path| ==> path[i] < |lp.code|
  {
    Along(lp.code, lp.localNum, path[..|path| - 1], s)
  }

  lemma {:induction false} OutTouches(lp: Loop, u: nat, info: RegInfo, s: Slot)
    requires LoopOk(lp) && lp.head <= u <= lp.end && |info| == lp.regNum && s < lp.regNum
    ensures |Out(lp, u, info)| == lp.regNum
    ensures Out(lp, u, info)[s].used == TouchAll(info[s].used, Records(lp.code, u, lp.localNum), s)
  {
    hide Records; hide TouchAll; hide RecordAll;
    var as_ := Records(lp.code, u, lp.localNum);
    if u == lp.end { NothingAtEnd(lp); }
    forall a <- as_ ensures InRange(a, |info|) {
      assert u < lp.end ==> Inside(lp, u);
    }
    RecordAllTouches(info, as_, s);
  }

  lemma {:induction false} PathGrows(lp: Loop, path: seq<nat>, u: nat, v: nat, s: Slot)
    requires PathTo(lp, path, u) && Goes(lp.code, u, v) && v < |lp.code|
    ensures PathTo(lp, path + [v], v)
    ensures Before(lp, path + [v], s) == TouchAll(Before(lp, path, s), Records(lp.code, u, lp.localNum), s)
  {
    hide Goes; hide Records; hide TouchAll;
    assert (path + [v])[..|path|] == path;
  }

  /** Every state that the scan comes to is the state after some path. */
  lemma {:induction false} StateIsAttained(lp: Loop, at: map<nat, RegInfo>, v: nat, s: Slot) returns (path: seq<nat>)
    requires Scanned(lp, at) && AllReached(lp) && v in at && s < lp.regNum
    ensures v < |lp.code| && PathTo(lp, path, v) && Before(lp, path, s) == at[v][s].used
    decreases v
  {
    hide LoopOk; hide Goes; hide Records; hide TouchAll; hide Out; hide AllReached; hide NobodyGoes;
    LoopBounds(lp);
    if v == lp.head {
      path := [v];
    } else {
      assert From(lp, at, at[v], v);
      if !Attained(lp, at, at[v], v) { SomebodyGoes(lp, at, v); }
      var t := UsedIs(at[v][s].used);
      assert Fed(lp, at, v, s, t);
      var u: nat :| Feeds(lp, at, u, v, s, t);
      GoesForward(lp, u, v);
      path := StateIsAttained(lp, at, u, s);
      OutTouches(lp, u, at[u], s);
      PathGrows(lp, path, u, v, s);
      path := path + [v];
    }
  }

  lemma {:induction false} SomebodyGoes(lp: Loop, at: map<nat, RegInfo>, v: nat)
    requires Scanned(lp, at) && AllReached(lp) && lp.head < v <= lp.end && v < |lp.starts| && lp.starts[v]
    ensures !NobodyGoes(lp, at, v)
  {
    hide LoopOk; hide Goes; hide Closed; hide NodesFrom;
    LoopBounds(lp);
    assert Reached(lp, v);
    var path: seq<nat> :| PathTo(lp, path, v);
    var before := path[..|path| - 1];
    assert |path| > 1;
    var u := path[|path| - 2];
    assert Goes(lp.code, u, v);
    PathIsCovered(lp, at, before, 0);
    assert u in at;
  }

  /** At every instruction: read first on some path, written first on all. */
  lemma {:induction false} ScanIsExact(lp: Loop, at: map<nat, RegInfo>, v: nat, s: Slot)
    requires Scanned(lp, at) && AllReached(lp) && v in at && s < lp.regNum
    ensures at[v][s].used == Used <==> exists path: seq<nat> :: PathTo(lp, path, v) && Before(lp, path, s) == Used
    ensures at[v][s].used == NotUsed <==> forall path: seq<nat> :: PathTo(lp, path, v) ==>
        Before(lp, path, s) == NotUsed
  {
    hide LoopOk; hide Closed; hide NodesFrom; hide Along; hide Goes;
    var found := StateIsAttained(lp, at, v, s);
    forall path: seq<nat> | PathTo(lp, path, v) ensures Covers(at[v][s].used, Before(lp, path, s)) {
      PathIsCovered(lp, at, path, s);
    }
  }

  /** On every path to the loop's end, a return or a branch back, the slot is written before any recorded read. */
  ghost predicate WrittenFirst(lp: Loop, s: Slot) {
    forall path: seq<nat> :: IsWhole(lp, path) ==> Along(lp.code, lp.localNum, path, s) == NotUsed
  }

  /** On some path that branches back, the slot is read before it is written. */
  ghost predicate ReadFirst(lp: Loop, s: Slot) {
    exists path: seq<nat> :: BranchesBackOn(lp, path) && Along(lp.code, lp.localNum, path, s) == Used
  }

  predicate BranchesBackOn(lp: Loop, path: seq<nat>) {
    IsWhole(lp, path) && BranchesBack(lp.code[path[|path| - 1]])
  }

  /** A summary's state is the state at the end of some path that ends so. */
  lemma {:induction false} SummaryIsAttained(
      lp: Loop, at: map<nat, RegInfo>, summary: Option<RegInfo>, back: bool, s: Slot) returns (path: seq<nat>)
    requires Scanned(lp, at) && AllReached(lp) && EndFrom(lp, at, summary, back)
    requires summary.Some? && |summary.value| == lp.regNum && s < lp.regNum
    ensures IsWhole(lp, path) && EndsSo(lp.code[path[|path| - 1]], back)
    ensures Along(lp.code, lp.localNum, path, s) == summary.value[s].used
  {
    hide LoopOk; hide Goes; hide Records; hide TouchAll; hide Out; hide AllReached; hide Closed; hide NodesFrom;
    LoopBounds(lp);
    var t := UsedIs(summary.value[s].used);
    assert EndFed(lp, at, s, t, back);
    var u: nat :| EndFeeds(lp, at, u, s, t, back);
    path := StateIsAttained(lp, at, u, s);
    OutTouches(lp, u, at[u], s);
    AlongLast(lp, path, s);
  }

  /** What is reported as unused is exactly what is written first. */
  lemma {:induction false} UnusedIsExact(
      lp: Loop, at: map<nat, RegInfo>, backedge: RegInfo, returns_: Option<RegInfo>, s: Slot)
    requires Scanned(lp, at) && AllReached(lp) && EndsOk(lp, at, Some(backedge), returns_) && s < lp.regNum
    requires EndFrom(lp, at, Some(backedge), true) && EndFrom(lp, at, returns_, false)
    ensures |at[lp.end]| == |backedge| == lp.regNum && (returns_.Some? ==> |returns_.value| == lp.regNum)
    ensures ExitInfo(at[lp.end], backedge, returns_)[s].used == NotUsed <==> WrittenFirst(lp, s)
  {
    hide LoopOk; hide Records; hide TouchAll; hide Goes; hide NodesFrom; hide EndFrom; hide Along; hide AllReached;
    hide Unused;
    hide UseSet;
    LoopBounds(lp);
    var exit := ExitInfo(at[lp.end], backedge, returns_);
    if exit[s].used == NotUsed {
      UnusedIsSound(lp, at, backedge, returns_);
      UnusedIs(exit, |exit|);
    } else if WrittenFirst(lp, s) {
      var p := StateIsAttained(lp, at, lp.end, s);
      EndIsWhole(lp, p, s);
      var q := SummaryIsAttained(lp, at, Some(backedge), true, s);
      if returns_.Some? { var r := SummaryIsAttained(lp, at, returns_, false, s); }
      assert false;
    }
  }

  lemma {:induction false} EndIsWhole(lp: Loop, path: seq<nat>, s: Slot)
    requires LoopOk(lp) && PathTo(lp, path, lp.end)
    ensures IsWhole(lp, path) && Along(lp.code, lp.localNum, path, s) == Before(lp, path, s)
  {
    hide Records; hide TouchAll; hide Goes;
    AlongLast(lp, path, s);
    NothingRecorded(lp, lp.end);
  }

  /** There is a summary of branches back exactly if there is a path that branches back. */
  lemma {:induction false} BackedgeIsExact(
      lp: Loop, at: map<nat, RegInfo>, backedge: Option<RegInfo>, returns_: Option<RegInfo>)
    requires Scanned(lp, at) && AllReached(lp) && EndsOk(lp, at, backedge, returns_) && EndFrom(lp, at, backedge, true)
    ensures backedge.Some? <==> exists path: seq<nat> :: BranchesBackOn(lp, path)
  {
    hide LoopOk; hide Closed; hide NodesFrom; hide EndFrom; hide IsWhole; hide AllReached; hide Along;
    LoopBounds(lp);
    if backedge.Some? {
      var path := SummaryIsAttained(lp, at, backedge, true, 0);
      assert BranchesBackOn(lp, path);
    } else if exists path: seq<nat> :: BranchesBackOn(lp, path) {
      var path: seq<nat> :| BranchesBackOn(lp, path);
      NoBackedge(lp, at, returns_);
      assert false;
    }
  }

  /** Every path through the loop can be continued to one of its endings. */
  lemma {:induction false} Complete(lp: Loop, path: seq<nat>, last: nat) returns (whole: seq<nat>)
    requires LoopOk(lp) && PathTo(lp, path, last) && lp.head <= last <= lp.end
    ensures IsWhole(lp, whole) && path <= whole
    decreases lp.end - last
  {
    hide LoopOk; hide Records; hide Goes;
    LoopBounds(lp);
    if Ends(lp.code, last) {
      whole := path;
    } else {
      var v := Onward(lp, last);
      PathGrows(lp, path, last, v, 0);
      whole := Complete(lp, path + [v], v);
    }
  }

  lemma {:induction false} Onward(lp: Loop, u: nat) returns (v: nat)
    requires LoopOk(lp) && lp.head <= u <= lp.end && !Ends(lp.code, u)
    ensures Goes(lp.code, u, v) && u < v <= lp.end
  {
    var inst := lp.code[u];
    assert Inside(lp, u);
    v := if inst.Br? then u + 1 + inst.disp else if inst.MethodArgs? then u + 2 else u + 1;
  }
}
