/** What the instructions really read, against what the analysis records. */
module LivenessReads {
  import opened Prelude
  import opened Liveness
  import opened LoopAnalyses
  import opened LoopScans
  import Join = JitJoin

  predicate InSpan(s: Slot, first: Slot, len: nat) {
    first <= s < first + len
  }

  /** The slots that executing the instruction reads. */
  predicate Reads(code: seq<TraceIr>, idx: nat, s: Slot)
    requires idx < |code|
  {
    match code[idx]
    case ArrayOf(_, args, len) => InSpan(s, args, len)
    case Index(_, base, i) => s == base || s == i
    case IndexAssign(src, base, i) => s == src || s == base || s == i
    case Range(_, start, end) => s == start || s == end
    case StoreConst(src) => s == src
    case StoreVar(src) => s == src
    case Unary(_, src, _, _, _) => s == src
    case Binary(_, l, r, _, _, _, _) => s == l || s == r
    case Mov(_, src) => s == src
    case ConcatStr(_, args, len) => InSpan(s, args, len)
    case ExpandArray(src, _, _) => s == src
    case Yield(_, args, len) => InSpan(s, args, len)
    case MethodArgs(recv, args, len, callee) =>
      s == recv || (match callee
                    case Called => InSpan(s, args, if idx > 0 && code[idx - 1].MethodCallBlock? then len + 1 else len)
                    case IntegerToF => false
                    case MathFunction => s == args)
    case Ret(ret) => s == ret
    case CondBr(cond, _) => s == cond
    case CheckLocal(local, _) => s == local
    case _ => false
  }

  /** The scan notices each read, and notices it before the instruction's own write. */
  ghost predicate NoticesReads(code: seq<TraceIr>, idx: nat, localNum: nat)
    requires idx < |code|
  {
    forall s: Slot :: Reads(code, idx, s) ==> TouchAll(ND, Records(code, idx, localNum), s) == Used
  }

  /** Five kinds of instruction are recorded without their operands, and two write before they read. */
  predicate FullyRecorded(code: seq<TraceIr>, idx: nat)
    requires idx < |code|
  {
    match code[idx]
    case ArrayOf(_, _, len) => len == 0
    case Index(_, _, _) => false
    case IndexAssign(_, _, _) => false
    case StoreConst(_) => false
    case Ret(_) => false
    case CheckLocal(_, _) => false
    case Range(ret, start, end) => ret == 0 || (ret != start && ret != end)
    case ExpandArray(src, dst, len) => src == 0 || !InSpan(src, dst, len)
    case _ => true
  }

  /** A call's arguments follow the call; inlined methods take no block. */
  predicate CallOk(code: seq<TraceIr>, idx: nat)
    requires idx < |code|
  {
    code[idx].MethodArgs? ==>
      idx > 0 && (code[idx - 1].MethodCall? || (code[idx - 1].MethodCallBlock? && code[idx].callee.Called?))
  }

  lemma {:induction false} TouchAppend(u: IsUsed, a: seq<Access>, b: seq<Access>, s: Slot)
    ensures TouchAll(u, a + b, s) == TouchAll(TouchAll(u, a, s), b, s)
    decreases |a|
  {
    if a == [] {
      assert a + b == b;
    } else {
      assert (a + b)[1..] == a[1..] + b;
      TouchAppend(Touch(u, a[0], s), a[1..], b, s);
    }
  }

  lemma {:induction false} TouchUses(u: IsUsed, first: Slot, len: nat, s: Slot)
    ensures TouchAll(u, Uses(first, len), s) == if u == ND && InSpan(s, first, len) then Used else u
    decreases len
  {
    if len > 0 { TouchUses(Touch(u, UseAs(first, false, false), s), first + 1, len - 1, s); }
  }

  lemma {:induction false} TouchDefs(u: IsUsed, first: Slot, len: nat, s: Slot)
    ensures TouchAll(u, Defs(first, len), s) == if u == ND && s != 0 && InSpan(s, first, len) then NotUsed else u
    decreases len
  {
    if len > 0 { TouchDefs(Touch(u, DefAs(first, false), s), first + 1, len - 1, s); }
  }

  /** Once read first, always read first. */
  lemma {:induction false} TouchAllKeeps(u: IsUsed, as_: seq<Access>, s: Slot)
    requires u != ND
    ensures TouchAll(u, as_, s) == u
    decreases |as_|
  {
    if as_ != [] { TouchAllKeeps(Touch(u, as_[0], s), as_[1..], s); }
  }

  /** Exactly these instructions are recorded with all they read. */
  lemma {:induction false} NoticesReadsExactly(code: seq<TraceIr>, idx: nat, localNum: nat)
    requires idx < |code| && CallOk(code, idx)
    ensures NoticesReads(code, idx, localNum) <==> FullyRecorded(code, idx)
  {
    if FullyRecorded(code, idx) {
      forall s: Slot | Reads(code, idx, s) ensures TouchAll(ND, Records(code, idx, localNum), s) == Used {
        ReadIsNoticed(code, idx, localNum, s);
      }
    } else {
      var s := MissedRead(code, idx, localNum);
    }
  }

  lemma {:induction false} ArgumentIsNoticed(code: seq<TraceIr>, idx: nat, localNum: nat, s: Slot)
    requires idx < |code| && CallOk(code, idx) && code[idx].MethodArgs? && code[idx].callee.Called?
        && Reads(code, idx, s)
    ensures TouchAll(ND, Records(code, idx, localNum), s) == Used
  {
    hide Uses; hide Unlinks; hide Records; hide TouchAll;
    var inst := code[idx];
    var n := ArgumentCount(code, idx);
    var (head, uses, tail) := ([UseAs(inst.recv, false, false)], Uses(inst.args, n), CallTail(code, idx, localNum));
    CallRecords(code, idx, localNum);
    TouchAppend(ND, head + uses, tail, s);
    TouchAppend(ND, head, uses, s);
    TouchFew(ND, head[0], head[0], head[0], s);
    var u := Touch(ND, head[0], s);
    TouchUses(u, inst.args, n, s);
    TouchAllKeeps(Used, tail, s);
  }

  function ArgumentCount(code: seq<TraceIr>, idx: nat): nat
    requires 0 < idx < |code| && code[idx].MethodArgs?
  {
    if code[idx - 1].MethodCallBlock? then code[idx].len + 1 else code[idx].len
  }

  /** What a call records after its receiver and arguments. */
  function CallTail(code: seq<TraceIr>, idx: nat, localNum: nat): seq<Access>
    requires 0 < idx < |code| && (code[idx - 1].MethodCall? || code[idx - 1].MethodCallBlock?)
  {
    (if code[idx - 1].MethodCallBlock? then Unlinks(1, localNum) else []) + [DefAs(code[idx - 1].ret, false)]
  }

  lemma {:induction false} CallRecords(code: seq<TraceIr>, idx: nat, localNum: nat)
    requires idx < |code| && CallOk(code, idx) && code[idx].MethodArgs? && code[idx].callee.Called?
    ensures Records(code, idx, localNum)
            == [UseAs(code[idx].recv, false, false)] + Uses(code[idx].args, ArgumentCount(code, idx))
               + CallTail(code, idx, localNum)
  {
    hide Uses; hide Unlinks;
    var (a, b) := ([UseAs(code[idx].recv, false, false)], Uses(code[idx].args, ArgumentCount(code, idx)));
    assert a + b + CallTail(code, idx, localNum) == a + (b + CallTail(code, idx, localNum));
  }

  lemma {:induction false} ReadIsNoticed(code: seq<TraceIr>, idx: nat, localNum: nat, s: Slot)
    requires idx < |code| && CallOk(code, idx) && FullyRecorded(code, idx) && Reads(code, idx, s)
    ensures TouchAll(ND, Records(code, idx, localNum), s) == Used
  {
    hide Uses; hide Defs; hide Unlinks;
    var inst := code[idx];
    if inst.ConcatStr? || inst.Yield? {
      TouchUses(ND, inst.args, inst.len, s);
      TouchAppend(ND, Uses(inst.args, inst.len), [DefAs(inst.ret, false)], s);
      TouchAllKeeps(Used, [DefAs(inst.ret, false)], s);
    } else if inst.ExpandArray? {
      TouchDefs(ND, inst.dst, inst.len, s);
      TouchAppend(ND, Defs(inst.dst, inst.len), [UseAs(inst.src, false, false)], s);
    } else if inst.MethodArgs? && inst.callee.Called? {
      ArgumentIsNoticed(code, idx, localNum, s);
    } else {
      var as_ := Records(code, idx, localNum);
      if |as_| == 1 {
        TouchFew(ND, as_[0], as_[0], as_[0], s);
      } else if |as_| == 2 {
        TouchFew(ND, as_[0], as_[1], as_[0], s);
        assert as_ == [as_[0], as_[1]];
      } else {
        TouchFew(ND, as_[0], as_[1], as_[2], s);
      }
    }
  }

  lemma {:induction false} MissedRead(code: seq<TraceIr>, idx: nat, localNum: nat) returns (s: Slot)
    requires idx < |code| && !FullyRecorded(code, idx)
    ensures Reads(code, idx, s) && TouchAll(ND, Records(code, idx, localNum), s) != Used
  {
    hide Uses; hide Defs; hide Unlinks;
    var inst := code[idx];
    if inst.ArrayOf? {
      s := inst.args;
    } else if inst.Index? || inst.IndexAssign? {
      s := inst.base;
    } else if inst.StoreConst? {
      s := inst.src;
    } else if inst.Ret? {
      s := inst.ret;
    } else if inst.CheckLocal? {
      s := inst.local;
    } else if inst.Range? {
      s := inst.ret;
      TouchFew(ND, DefAs(s, false), UseAs(inst.start, false, false), UseAs(inst.end, false, false), s);
    } else {
      s := inst.src;
      TouchDefs(ND, inst.dst, inst.len, s);
      TouchAppend(ND, Defs(inst.dst, inst.len), [UseAs(inst.src, false, false)], s);
      TouchAllKeeps(NotUsed, [UseAs(inst.src, false, false)], s);
    }
  }

  /** The slots that executing the instruction writes. */
  predicate Defines(code: seq<TraceIr>, idx: nat, s: Slot)
    requires idx < |code|
  {
    match code[idx]
    case Define(ret, _) => s == ret && s != 0
    case DefineFloat(ret) => s == ret && s != 0
    case ArrayOf(ret, _, _) => s == ret && s != 0
    case Index(ret, _, _) => s == ret && s != 0
    case Range(ret, _, _) => s == ret && s != 0
    case Unary(ret, _, _, _, _) => s == ret && s != 0
    case Binary(ret, _, _, _, _, _, _) => s == ret && s != 0
    case Mov(ret, _) => s == ret
    case ConcatStr(ret, _, _) => s == ret && s != 0
    case ExpandArray(_, dst, len) => InSpan(s, dst, len) && s != 0
    case Yield(ret, _, _) => s == ret && s != 0
    case MethodArgs(_, _, _, _) =>
      idx > 0 && (code[idx - 1].MethodCall? || code[idx - 1].MethodCallBlock?) && s == code[idx - 1].ret && s != 0
    case _ => false
  }

  /** Every write is recorded, as a write unless a read of the slot was recorded first; and nothing is recorded that
      does not happen. */
  lemma {:induction false} RecordsAreReal(code: seq<TraceIr>, idx: nat, localNum: nat, s: Slot)
    requires idx < |code| && CallOk(code, idx)
    ensures var u := TouchAll(ND, Records(code, idx, localNum), s);
            && (Defines(code, idx, s) ==> u != ND) && (u == NotUsed ==> Defines(code, idx, s))
            && (u == Used ==> Reads(code, idx, s))
  {
    hide Uses; hide Defs; hide Unlinks;
    var inst := code[idx];
    if inst.ConcatStr? || inst.Yield? {
      TouchUses(ND, inst.args, inst.len, s);
      TouchAppend(ND, Uses(inst.args, inst.len), [DefAs(inst.ret, false)], s);
      LastTouch(TouchAll(ND, Uses(inst.args, inst.len), s), inst.ret, false, s);
    } else if inst.ExpandArray? {
      TouchDefs(ND, inst.dst, inst.len, s);
      TouchAppend(ND, Defs(inst.dst, inst.len), [UseAs(inst.src, false, false)], s);
      var u := TouchAll(ND, Defs(inst.dst, inst.len), s);
      TouchFew(u, UseAs(inst.src, false, false), DefAs(0, false), DefAs(0, false), s);
    } else if inst.MethodArgs? && inst.callee.Called? {
      CallIsReal(code, idx, localNum, s);
    } else {
      var as_ := Records(code, idx, localNum);
      if |as_| == 1 {
        TouchFew(ND, as_[0], as_[0], as_[0], s);
      } else if |as_| == 2 {
        TouchFew(ND, as_[0], as_[1], as_[0], s);
        assert as_ == [as_[0], as_[1]];
      } else if |as_| == 3 {
        TouchFew(ND, as_[0], as_[1], as_[2], s);
      } else {
        assert as_ == [];
      }
    }
  }

  lemma {:induction false} LastTouch(u: IsUsed, ret: Slot, isFloat: bool, s: Slot)
    ensures TouchAll(u, [DefAs(ret, isFloat)], s) == if ret == s && s != 0 && u == ND then NotUsed else u
  {
    TouchFew(u, DefAs(ret, isFloat), DefAs(ret, isFloat), DefAs(ret, isFloat), s);
  }

  lemma {:induction false} CallIsReal(code: seq<TraceIr>, idx: nat, localNum: nat, s: Slot)
    requires idx < |code| && CallOk(code, idx) && code[idx].MethodArgs? && code[idx].callee.Called?
    ensures var u := TouchAll(ND, Records(code, idx, localNum), s);
            && (Defines(code, idx, s) ==> u != ND) && (u == NotUsed ==> Defines(code, idx, s))
            && (u == Used ==> Reads(code, idx, s))
  {
    hide Uses; hide Unlinks; hide Records; hide TouchAll;
    var inst := code[idx];
    var n := ArgumentCount(code, idx);
    var (head, uses) := ([UseAs(inst.recv, false, false)], Uses(inst.args, n));
    var (links, def) := (if code[idx - 1].MethodCallBlock? then Unlinks(1, localNum) else [],
        [DefAs(code[idx - 1].ret, false)]);
    CallRecords(code, idx, localNum);
    TouchAppend(ND, head + uses, links + def, s);
    TouchAppend(ND, head, uses, s);
    TouchFew(ND, head[0], head[0], head[0], s);
    var u := Touch(ND, head[0], s);
    TouchUses(u, inst.args, n, s);
    var u2 := TouchAll(u, uses, s);
    TouchAppend(u2, links, def, s);
    TouchUnlinks(u2, 1, if code[idx - 1].MethodCallBlock? then localNum else 0, s);
    LastTouch(u2, code[idx - 1].ret, false, s);
  }

  lemma {:induction false} TouchUnlinks(u: IsUsed, first: Slot, len: nat, s: Slot)
    ensures TouchAll(u, Unlinks(first, len), s) == u
    ensures Unlinks(first, 0) == []
    decreases len
  {
    if len > 0 { TouchUnlinks(u, first + 1, len - 1, s); }
  }

  /** How an operation uses and defines its slots, where they differ: each operand with its own class, and the result
      as a Float exactly if the operation is one on Floats. */
  lemma {:induction false} OperationKinds(code: seq<TraceIr>, idx: nat, localNum: nat)
    requires idx < |code|
    ensures var (inst, as_) := (code[idx], Records(code, idx, localNum));
            inst.Binary? && inst.lhs != inst.rhs && inst.ret !in {inst.lhs, inst.rhs, 0} ==>
              && History(as_, inst.lhs) == [UseAs(inst.lhs, inst.useFloat, inst.known1)]
              && History(as_, inst.rhs) == [UseAs(inst.rhs, inst.useFloat, inst.known2)]
              && History(as_, inst.ret) == [DefAs(inst.ret, inst.isFloat)]
    ensures var (inst, as_) := (code[idx], Records(code, idx, localNum));
            inst.Unary? && inst.ret !in {inst.src, 0} ==>
              && History(as_, inst.src) == [UseAs(inst.src, inst.useFloat, inst.known)]
              && History(as_, inst.ret) == [DefAs(inst.ret, inst.isFloat)]
  {
    hide Uses; hide Defs; hide Unlinks; hide History;
    var inst := code[idx];
    if inst.Binary? {
      var (a, b, c) := (UseAs(inst.lhs, inst.useFloat, inst.known1), UseAs(inst.rhs, inst.useFloat, inst.known2),
          DefAs(inst.ret, inst.isFloat));
      HistoryFew(a, b, c, inst.lhs);
      HistoryFew(a, b, c, inst.rhs);
      HistoryFew(a, b, c, inst.ret);
    } else if inst.Unary? {
      var (a, b) := (UseAs(inst.src, inst.useFloat, inst.known), DefAs(inst.ret, inst.isFloat));
      HistoryFew(a, b, b, inst.src);
      HistoryFew(a, b, b, inst.ret);
    }
  }

  /** A Float literal is a Float; so is the result of an inlined conversion or mathematical function, and the argument
      of the latter. */
  lemma {:induction false} FloatKinds(code: seq<TraceIr>, idx: nat, localNum: nat)
    requires idx < |code|
    ensures var (inst, as_) := (code[idx], Records(code, idx, localNum));
            inst.DefineFloat? && inst.ret != 0 ==> IsFloat(History(as_, inst.ret))
    ensures var (inst, as_) := (code[idx], Records(code, idx, localNum));
            InlineCall(code, idx) && code[idx - 1].ret != 0 ==> Writable(History(as_, code[idx - 1].ret))
    ensures var (inst, as_) := (code[idx], Records(code, idx, localNum));
            InlineCall(code, idx) && inst.callee.MathFunction? && inst.args !in {inst.recv, code[idx - 1].ret} ==>
              IsFloat(History(as_, inst.args))
  {
    hide Uses; hide Defs; hide Unlinks; hide History;
    var inst := code[idx];
    if inst.DefineFloat? {
      HistoryFew(DefFloatConst(inst.ret), DefFloatConst(inst.ret), DefFloatConst(inst.ret), inst.ret);
      if inst.ret != 0 { assert FloatDef(History([DefFloatConst(inst.ret)], inst.ret)[0]); }
    } else if InlineCall(code, idx) {
      var ret := code[idx - 1].ret;
      var (a, b, c) := (UseAs(inst.recv, false, false), UseAs(inst.args, true, true), DefAs(ret, true));
      HistoryFew(a, b, c, ret);
      HistoryFew(a, c, c, ret);
      HistoryFew(a, b, c, inst.args);
      if inst.args !in {inst.recv, ret} { assert FloatUse(History([a, b, c], inst.args)[0]); }
    }
  }

  predicate InlineCall(code: seq<TraceIr>, idx: nat)
    requires idx < |code|
  {
    code[idx].MethodArgs? && !code[idx].callee.Called? && idx > 0 && code[idx - 1].MethodCall?
  }

  // ----- unused slots are really unread -----

  lemma {:induction false} AlongKeeps(code: seq<TraceIr>, localNum: nat, path: seq<nat>, k: nat, s: Slot)
    requires k <= |path| && forall i :: 0 <= i < |path| ==> path[i] < |code|
    requires Along(code, localNum, path[..k], s) == Used
    ensures Along(code, localNum, path, s) == Used
    decreases |path|
  {
    hide Records; hide TouchAll;
    if k == |path| {
      assert path[..k] == path;
    } else {
      var before := path[..|path| - 1];
      assert before[..k] == path[..k];
      AlongKeeps(code, localNum, before, k, s);
      TouchAllKeeps(Used, Records(code, path[|path| - 1], localNum), s);
    }
  }

  /** The instruction reads the slot, and the scan does not notice. */
  ghost predicate Misses(lp: Loop, u: nat, s: Slot) {
    u < |lp.code| && Reads(lp.code, u, s) && TouchAll(ND, Records(lp.code, u, lp.localNum), s) != Used
  }

  /** Whenever an instruction of the loop reads the slot, the loop has written it before in this iteration. */
  ghost predicate Unread(lp: Loop, s: Slot) {
    forall path: seq<nat>, k: nat :: IsWhole(lp, path) && k < |path| && Reads(lp.code, path[k], s) ==>
      Along(lp.code, lp.localNum, path[..k], s) == NotUsed
  }

  /** On a whole path that writes the slot first, a read that is noticed comes after a write. */
  lemma {:induction false} NoticedComesLater(lp: Loop, path: seq<nat>, k: nat, s: Slot)
    requires LoopOk(lp) && IsWhole(lp, path) && k < |path| && Along(lp.code, lp.localNum, path, s) == NotUsed
    requires Reads(lp.code, path[k], s) && !Misses(lp, path[k], s)
    ensures Along(lp.code, lp.localNum, path[..k], s) == NotUsed
  {
    hide LoopOk; hide Records; hide TouchAll; hide Goes; hide Ends; hide Reads;
    var u := Along(lp.code, lp.localNum, path[..k], s);
    if u == ND {
      assert path[..k + 1][..k] == path[..k];
      AlongKeeps(lp.code, lp.localNum, path, k + 1, s);
    } else if u == Used {
      AlongKeeps(lp.code, lp.localNum, path, k, s);
    }
  }

  /** The scan finds the slot written at every instruction whose read of it goes unnoticed. */
  ghost predicate WrittenWhereMissed(lp: Loop, at: map<nat, RegInfo>, s: Slot) {
    forall u: nat :: u in at && Misses(lp, u, s) ==> s < |at[u]| && at[u][s].used == NotUsed
  }

  /** Dead blocks or not, that is enough for a slot that is written first on all paths. */
  lemma {:induction false} UnreadIf(lp: Loop, at: map<nat, RegInfo>, s: Slot)
    requires Scanned(lp, at) && s < lp.regNum && WrittenFirst(lp, s) && WrittenWhereMissed(lp, at, s)
    ensures Unread(lp, s)
  {
    hide LoopOk; hide Records; hide TouchAll; hide Goes; hide Ends; hide Reads; hide Closed; hide NodesFrom;
    hide Along; hide Misses;
    forall path: seq<nat>, k: nat | IsWhole(lp, path) && k < |path| && Reads(lp.code, path[k], s)
      ensures Along(lp.code, lp.localNum, path[..k], s) == NotUsed
    {
      if Misses(lp, path[k], s) {
        StateAt(lp, at, path, k, s);
      } else {
        NoticedComesLater(lp, path, k, s);
      }
    }
  }

  /** A slot that the scan finds to be written first on all paths is really never read before, exactly if the
      scan finds it written at every instruction whose read of it goes unnoticed. */
  lemma {:induction false} UnreadExactly(lp: Loop, at: map<nat, RegInfo>, s: Slot)
    requires Scanned(lp, at) && AllReached(lp) && s < lp.regNum && WrittenFirst(lp, s)
    ensures Unread(lp, s) <==> WrittenWhereMissed(lp, at, s)
  {
    hide LoopOk; hide Records; hide TouchAll; hide Goes; hide Ends; hide Reads; hide Closed; hide NodesFrom;
    hide AllReached;
    hide Along; hide Misses;
    if Unread(lp, s) {
      forall u: nat | u in at && Misses(lp, u, s) ensures s < |at[u]| && at[u][s].used == NotUsed {
        var path := StateIsAttained(lp, at, u, s);
        ReadBefore(lp, at, path, u, s);
      }
    }
    if WrittenWhereMissed(lp, at, s) { UnreadIf(lp, at, s); }
  }

  /** A read at the end of a path, if the slot is unread. */
  lemma {:induction false} ReadBefore(lp: Loop, at: map<nat, RegInfo>, path: seq<nat>, u: nat, s: Slot)
    requires Scanned(lp, at) && PathTo(lp, path, u) && u in at && Unread(lp, s) && Misses(lp, u, s)
    ensures Before(lp, path, s) == NotUsed
  {
    hide LoopOk; hide Records; hide TouchAll; hide Goes; hide Ends; hide Reads; hide Closed; hide NodesFrom; hide Along;
    var whole := Complete(lp, path, u);
    var k := |path| - 1;
    assert whole[k] == u && whole[..k] == path[..k];
  }

  /** The scan's state at the k-th instruction of a path covers the path so far. */
  lemma {:induction false} StateAt(lp: Loop, at: map<nat, RegInfo>, path: seq<nat>, k: nat, s: Slot)
    requires Scanned(lp, at) && IsWhole(lp, path) && k < |path| && s < lp.regNum
    ensures path[k] in at && |at[path[k]]| == lp.regNum
    ensures Covers(at[path[k]][s].used, Along(lp.code, lp.localNum, path[..k], s))
  {
    hide LoopOk; hide Records; hide TouchAll; hide Ends; hide Closed; hide NodesFrom; hide Along; hide Covers;
    var part := path[..k + 1];
    assert part[..k] == path[..k];
    forall i | 0 < i < |part| ensures Goes(lp.code, part[i - 1], part[i]) {
      assert Goes(lp.code, path[i - 1], path[i]);
    }
    PathIsCovered(lp, at, part, s);
  }

  /** Returns do no harm: although the scan does not notice what they read, a slot that is written first on the
      path to a return is written there. */
  lemma {:induction false} ReturnsComeLater(lp: Loop, at: map<nat, RegInfo>, u: nat, s: Slot)
    requires Scanned(lp, at) && AllReached(lp) && s < lp.regNum && WrittenFirst(lp, s)
    requires u in at && u < |lp.code| && lp.code[u].Ret?
    ensures s < |at[u]| && at[u][s].used == NotUsed
  {
    hide LoopOk; hide TouchAll; hide Goes; hide Closed; hide NodesFrom; hide AllReached; hide Along;
    var path := StateIsAttained(lp, at, u, s);
    AlongLast(lp, path, s);
    assert Records(lp.code, u, lp.localNum) == [];
    NoAccess(s);
  }

  /** So a slot reported as unused is unread if every instruction that reads it is a return or notices. */
  lemma {:induction false} UnusedIsUnread(
      lp: Loop, at: map<nat, RegInfo>, r: Option<(seq<(Slot, bool)>, seq<Slot>)>, s: Slot)
    requires Scanned(lp, at) && Reports(lp, r) && AllReached(lp) && r.Some? && s in r.value.1
    requires forall u: nat :: u in at && u < |lp.code| && Reads(lp.code, u, s) ==> lp.code[u].Ret? || !Misses(lp, u, s)
    ensures Unread(lp, s)
  {
    hide LoopOk; hide Goes; hide Closed; hide NodesFrom; hide AllReached; hide Along; hide WrittenFirst; hide Reads;
    hide Records;
    hide TouchAll; hide Unread; hide Sound; hide IsWhole; hide Join.Uses; hide ReadFirst;
    UnreadExactly(lp, at, s);
    forall u: nat | u in at && Misses(lp, u, s) ensures s < |at[u]| && at[u][s].used == NotUsed {
      ReturnsComeLater(lp, at, u, s);
    }
  }

  // ----- an input for which the report is wrong -----

  /** `begin; y = a[i]; a = nil; end while c`, with a in slot 1. */
  function IndexLoop(): Loop {
    Loop([LoopStart, Index(3, 1, 2), Define(1, false), CondBr(4, -4), LoopEnd],
         [true, false, false, false, false, false], 5, 4, 0, 4)
  }

  lemma {:induction false} IndexLoopOk()
    ensures LoopOk(IndexLoop()) && AllReached(IndexLoop())
  {
    hide LoopOk; hide Reached;
    IndexLoopShape();
  }

  lemma {:induction false} IndexLoopShape()
    ensures LoopOk(IndexLoop())
  {
    hide Records; hide InRange; hide Inside;
    IndexLoopRecords();
    IndexLoopInsides();
  }

  /** Whatever is strictly inside, one by one. */
  lemma {:induction false} IndexLoopInsides()
    ensures forall i: nat :: Inside(IndexLoop(), i) ==> i < 4 && !IndexLoop().code[i].LoopEnd?
    ensures forall i: nat :: Inside(IndexLoop(), i) ==>
              !IndexLoop().code[i].MethodArgs? && !IndexLoop().code[i].Br? && !IndexLoop().code[i].Ret?
              && (IsBranch(IndexLoop().code[i]) ==> IndexLoop().code[i].disp < 0)
  {}

  lemma {:induction false} IndexLoopRecords()
    ensures var lp := IndexLoop();
            forall i: nat, a: Access :: Inside(lp, i) && a in Records(lp.code, i, lp.localNum) ==> InRange(a, lp.regNum)
  {
    hide Records;
    var lp := IndexLoop();
    TheRecords(lp.code);
    forall i: nat, a: Access | Inside(lp, i) && a in Records(lp.code, i, lp.localNum) ensures InRange(a, lp.regNum) {
      assert i == 0 || i == 1 || i == 2 || i == 3;
    }
  }

  /** The loop reads a before it writes it, in every iteration, and yet every report that the analysis can make
      lists a as unused. */
  lemma {:induction false} IndexedSlotIsReportedUnused(r: Option<(seq<(Slot, bool)>, seq<Slot>)>)
    requires Reports(IndexLoop(), r)
    ensures r.Some? && 1 in r.value.1 && !Unread(IndexLoop(), 1)
  {
    hide Along; hide Records; hide TouchAll; hide LoopOk; hide Sound; hide AllReached;
    var lp := IndexLoop();
    IndexLoopOk();
    IndexLoopPaths();
    var path := [0, 1, 2, 3];
    assert BranchesBackOn(lp, path);
    assert Reads(lp.code, path[1], 1) && path[..1] == [0];
    assert Along(lp.code, 4, path[..1], 1) == ND;
    forall p: seq<nat> | IsWhole(lp, p) ensures Along(lp.code, 4, p, 1) == NotUsed {
      IndexLoopPath(p);
    }
    assert WrittenFirst(lp, 1);
  }

  lemma {:induction false} IndexLoopPaths()
    ensures var (lp, path) := (IndexLoop(), [0, 1, 2, 3]);
            && IsWhole(lp, path) && Along(lp.code, 4, [0], 1) == ND
            && Along(lp.code, 4, path, 1) == NotUsed && Along(lp.code, 4, [0, 1, 2, 3, 4], 1) == NotUsed
  {
    hide Along; hide TouchAll; hide Records;
    IndexLoopStates();
  }

  lemma {:induction false} IndexLoopStates()
    ensures var code := IndexLoop().code;
            && Along(code, 4, [0], 1) == ND && Along(code, 4, [0, 1, 2, 3], 1) == NotUsed
            && Along(code, 4, [0, 1, 2, 3, 4], 1) == NotUsed
  {
    hide Along; hide TouchAll; hide Records;
    var code := IndexLoop().code;
    TheRecords(code);
    NoAccess(1);
    assert Along(code, 4, [], 1) == ND by { NoPath(code); }
    assert [] + [0] == [0] && [0] + [1] == [0, 1] && [0, 1] + [2] == [0, 1, 2];
    assert [0, 1, 2] + [3] == [0, 1, 2, 3] && [0, 1, 2, 3] + [4] == [0, 1, 2, 3, 4];
    AlongStep(code, 4, [], 0, 1);
    AlongStep(code, 4, [0], 1, 1);
    AlongStep(code, 4, [0, 1], 2, 1);
    AlongStep(code, 4, [0, 1, 2], 3, 1);
    AlongStep(code, 4, [0, 1, 2, 3], 4, 1);
    TouchFew(ND, DefAs(3, false), DefAs(3, false), DefAs(3, false), 1);
    TouchFew(ND, DefAs(1, false), DefAs(1, false), DefAs(1, false), 1);
    TouchFew(NotUsed, UseAs(4, false, false), DefAs(1, false), DefAs(1, false), 1);
  }

  /** Its only whole paths are those two. */
  lemma {:induction false} IndexLoopPath(p: seq<nat>)
    requires IsWhole(IndexLoop(), p)
    ensures p == [0, 1, 2, 3] || p == [0, 1, 2, 3, 4]
  {
    hide Along; hide Records;
    var code := IndexLoop().code;
    assert forall i :: 0 < i < |p| ==> Goes(code, p[i - 1], p[i]);
    StraightAhead(p, |p|);
    assert p[|p| - 1] == |p| - 1;
  }

  lemma {:induction false} StraightAhead(p: seq<nat>, n: nat)
    requires IsPath(IndexLoop().code, 0, p) && n <= |p|
    ensures forall i :: 0 <= i < n ==> p[i] == i
    decreases n
  {
    if n > 1 {
      StraightAhead(p, n - 1);
      assert Goes(IndexLoop().code, p[n - 2], p[n - 1]);
    }
  }

  lemma {:induction false} TheRecords(code: seq<TraceIr>)
    requires code == [LoopStart, Index(3, 1, 2), Define(1, false), CondBr(4, -4), LoopEnd]
    ensures Records(code, 0, 4) == [] && Records(code, 1, 4) == [DefAs(3, false)]
        && Records(code, 2, 4) == [DefAs(1, false)]
    ensures Records(code, 3, 4) == [UseAs(4, false, false)] && Records(code, 4, 4) == []
  {}

  lemma {:induction false} NoAccess(s: Slot)
    ensures forall u: IsUsed :: TouchAll(u, [], s) == u
  {}

  lemma {:induction false} NoPath(code: seq<TraceIr>)
    ensures Along(code, 4, [], 1) == ND
  {}

  lemma {:induction false} AlongStep(code: seq<TraceIr>, localNum: nat, path: seq<nat>, idx: nat, s: Slot)
    requires (forall i :: 0 <= i < |path| ==> path[i] < |code|) && idx < |code|
    ensures Along(code, localNum, path + [idx], s)
        == TouchAll(Along(code, localNum, path, s), Records(code, idx, localNum), s)
  {
    assert (path + [idx])[..|path|] == path;
  }
}
