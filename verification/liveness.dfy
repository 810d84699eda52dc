/** What the loop analysis records about each instruction, and what that says about execution paths. */
module Liveness {

  type Slot = nat

  /** How a called method is treated: called, or replaced by inline code. */
  datatype Callee = Called | IntegerToF | MathFunction

  /** Bytecode, as far as the analysis distinguishes it. Slot 0 stands for "no result". */
  datatype TraceIr =
    | LoopStart
    | LoopEnd
    | Define(ret: Slot, isFloat: bool)                       // Integer, Symbol, Nil, LoadConst, LoadIvar, …
    | DefineFloat(ret: Slot)                                 // a Float literal
    | ArrayOf(ret: Slot, args: Slot, len: nat)
    | Index(ret: Slot, base: Slot, idx: Slot)
    | IndexAssign(src: Slot, base: Slot, idx: Slot)
    | Range(ret: Slot, start: Slot, end: Slot)
    | StoreConst(src: Slot)
    | StoreVar(src: Slot)                                    // instance, global and outer variables
    | Unary(ret: Slot, src: Slot, useFloat: bool, known: bool, isFloat: bool)
    | Binary(ret: Slot, lhs: Slot, rhs: Slot, useFloat: bool, known1: bool, known2: bool, isFloat: bool)
    | Mov(ret: Slot, src: Slot)
    | ConcatStr(ret: Slot, args: Slot, len: nat)
    | ExpandArray(src: Slot, dst: Slot, len: nat)
    | Yield(ret: Slot, args: Slot, len: nat)
    | MethodCall(ret: Slot)
    | MethodCallBlock(ret: Slot)
    | MethodArgs(recv: Slot, args: Slot, len: nat, callee: Callee)
    | InlineCache
    | Ret(ret: Slot)
    | Br(disp: int)
    | CondBr(cond: Slot, disp: int)
    | CheckLocal(local: Slot, disp: int)

  // ----- register states -----

  datatype XmmLink = Unlinked | R(isFloat: bool) | RW

  datatype IsUsed = ND | Used | NotUsed

  datatype RegState = RegState(link: XmmLink, used: IsUsed)

  type RegInfo = seq<RegState>

  function MergeLink(a: XmmLink, b: XmmLink): XmmLink {
    if a == RW && b == RW then RW
    else if (a == R(true) || a == RW) && (b == R(true) || b == RW) then R(true)
    else if a.R? || b.R? then R(false)
    else Unlinked
  }

  function MergeUsed(a: IsUsed, b: IsUsed): IsUsed {
    if a == Used || b == Used then Used
    else if a == NotUsed && b == NotUsed then NotUsed
    else ND
  }

  function Merge(a: RegInfo, b: RegInfo): (r: RegInfo)
    requires |a| == |b|
    ensures |r| == |a|
  {
    seq(|a|, i requires 0 <= i < |a| => RegState(MergeLink(a[i].link, b[i].link), MergeUsed(a[i].used, b[i].used)))
  }

  function Fresh(regNum: nat): RegInfo {
    seq(regNum, _ => RegState(Unlinked, ND))
  }

  /** One thing recorded about one slot. */
  datatype Access =
    | UseAs(slot: Slot, asFloat: bool, known: bool)
    | DefAs(slot: Slot, isFloat: bool)
    | DefFloatConst(slot: Slot)
    | Copy(dst: Slot, src: Slot)
    | Unlink(slot: Slot)

  function UseState(st: RegState, asFloat: bool, known: bool): RegState {
    var link := if asFloat then (if st.link == RW then RW else R(known))
                else (match st.link case Unlinked => Unlinked case R(_) => R(known) case RW => R(true));
    RegState(link, if st.used != NotUsed then Used else NotUsed)
  }

  function Defined(used: IsUsed): IsUsed {
    if used == ND then NotUsed else used
  }

  predicate InRange(a: Access, n: nat) {
    match a
    case UseAs(s, _, _) => s < n
    case DefAs(s, _) => s < n
    case DefFloatConst(s) => s < n
    case Copy(d, s) => d < n && s < n
    case Unlink(s) => s < n
  }

  function Record(info: RegInfo, a: Access): (r: RegInfo)
    requires InRange(a, |info|)
    ensures |r| == |info|
  {
    match a
    case UseAs(s, f, c) => info[s := UseState(info[s], f, c)]
    case DefAs(s, f) => if s == 0 then info else info[s := RegState(if f then RW else Unlinked, Defined(info[s].used))]
    case DefFloatConst(s) => if s == 0 then info else info[s := RegState(R(true), Defined(info[s].used))]
    case Unlink(s) => info[s := info[s].(link := Unlinked)]
    case Copy(d, s) =>
      var i1 := info[s := info[s].(used := if info[s].used != NotUsed then Used else NotUsed)];
      i1[d := RegState(i1[s].link, Defined(i1[d].used))]
  }

  function RecordAll(info: RegInfo, as_: seq<Access>): (r: RegInfo)
    requires forall a <- as_ :: InRange(a, |info|)
    ensures |r| == |info|
    decreases |as_|
  {
    if as_ == [] then info else RecordAll(Record(info, as_[0]), as_[1..])
  }

  function Uses(first: Slot, len: nat): seq<Access>
    decreases len
  {
    if len == 0 then [] else [UseAs(first, false, false)] + Uses(first + 1, len - 1)
  }

  function Defs(first: Slot, len: nat): seq<Access>
    decreases len
  {
    if len == 0 then [] else [DefAs(first, false)] + Defs(first + 1, len - 1)
  }

  function Unlinks(first: Slot, len: nat): seq<Access>
    decreases len
  {
    if len == 0 then [] else [Unlink(first)] + Unlinks(first + 1, len - 1)
  }

  /** What the scan records at one instruction, in the scan's order. */
  function Records(code: seq<TraceIr>, idx: nat, localNum: nat): seq<Access>
    requires idx < |code|
  {
    match code[idx]
    case Define(ret, f) => [DefAs(ret, f)]
    case DefineFloat(ret) => [DefFloatConst(ret)]
    case ArrayOf(ret, _, _) => [DefAs(ret, false)]
    case Index(ret, _, _) => [DefAs(ret, false)]
    case Range(ret, start, end) => [DefAs(ret, false), UseAs(start, false, false), UseAs(end, false, false)]
    case StoreVar(src) => [UseAs(src, false, false)]
    case Unary(ret, src, uf, c, f) => [UseAs(src, uf, c), DefAs(ret, f)]
    case Binary(ret, l, r, uf, c1, c2, f) => [UseAs(l, uf, c1), UseAs(r, uf, c2), DefAs(ret, f)]
    case Mov(ret, src) => [Copy(ret, src)]
    case ConcatStr(ret, args, len) => Uses(args, len) + [DefAs(ret, false)]
    case ExpandArray(src, dst, len) => Defs(dst, len) + [UseAs(src, false, false)]
    case Yield(ret, args, len) => Uses(args, len) + [DefAs(ret, false)]
    case MethodArgs(recv, args, len, callee) =>
      if idx > 0 && code[idx - 1].MethodCall? then
        var ret := code[idx - 1].ret;
        (match callee
         case Called => [UseAs(recv, false, false)] + Uses(args, len) + [DefAs(ret, false)]
         case IntegerToF => [UseAs(recv, false, false), DefAs(ret, true)]
         case MathFunction => [UseAs(recv, false, false), UseAs(args, true, true), DefAs(ret, true)])
      else if idx > 0 && code[idx - 1].MethodCallBlock? then
        [UseAs(recv, false, false)] + Uses(args, len + 1) + Unlinks(1, localNum) + [DefAs(code[idx - 1].ret, false)]
      else []
    case CondBr(cond, _) => [UseAs(cond, false, false)]
    case _ => []
  }

  // ----- what the record of one slot means -----

  /** The first access decides: read first is Used, written first is NotUsed. */
  function Touch(u: IsUsed, a: Access, s: Slot): IsUsed {
    match a
    case UseAs(x, _, _) => if x == s && u == ND then Used else u
    case DefAs(x, _) => if x == s && s != 0 then Defined(u) else u
    case DefFloatConst(x) => if x == s && s != 0 then Defined(u) else u
    case Copy(d, x) => if u != ND then u else if x == s then Used else if d == s then NotUsed else ND
    case Unlink(_) => u
  }

  function TouchAll(u: IsUsed, as_: seq<Access>, s: Slot): IsUsed
    decreases |as_|
  {
    if as_ == [] then u else TouchAll(Touch(u, as_[0], s), as_[1..], s)
  }

  lemma {:induction false} TouchFew(u: IsUsed, a: Access, b: Access, c: Access, s: Slot)
    ensures TouchAll(u, [a], s) == Touch(u, a, s)
    ensures TouchAll(u, [a, b], s) == Touch(Touch(u, a, s), b, s)
    ensures TouchAll(u, [a, b, c], s) == Touch(Touch(Touch(u, a, s), b, s), c, s)
  {
    assert [a, b, c][1..] == [b, c] && [a, b][1..] == [b] && [b, c][1..] == [c] && [b][1..] == [] && [c][1..] == []
        && [a][1..] == [];
    assert TouchAll(Touch(Touch(u, a, s), b, s), [c], s) == Touch(Touch(Touch(u, a, s), b, s), c, s);
    assert TouchAll(Touch(u, a, s), [b], s) == Touch(Touch(u, a, s), b, s);
    assert TouchAll(Touch(u, a, s), [b, c], s) == Touch(Touch(Touch(u, a, s), b, s), c, s);
  }

  lemma {:induction false} RecordTouches(info: RegInfo, a: Access, s: Slot)
    requires InRange(a, |info|) && s < |info|
    ensures Record(info, a)[s].used == Touch(info[s].used, a, s)
  {}

  lemma {:induction false} RecordAllTouches(info: RegInfo, as_: seq<Access>, s: Slot)
    requires (forall a <- as_ :: InRange(a, |info|)) && s < |info|
    ensures RecordAll(info, as_)[s].used == TouchAll(info[s].used, as_, s)
    decreases |as_|
  {
    if as_ != [] {
      RecordTouches(info, as_[0], s);
      RecordAllTouches(Record(info, as_[0]), as_[1..], s);
    }
  }

  // ----- approximation -----

  /** `x` stands for all executions in which the slot is in state `u`: it admits a read whenever there is
      one, and claims a write only when there is one. */
  predicate Covers(x: IsUsed, u: IsUsed) {
    (u == Used ==> x == Used) && (x == NotUsed ==> u == NotUsed)
  }

  /** Of the links: no Float there if none here, and writable only if writable here. */
  predicate LinkCovers(x: XmmLink, y: XmmLink) {
    (y in {Unlinked, R(false)} ==> x in {Unlinked, R(false)}) && (x == RW ==> y == RW)
  }

  ghost predicate CoversAll(a: RegInfo, b: RegInfo) {
    |a| == |b|
    && forall s: Slot :: s < |a| ==> Covers(a[s].used, b[s].used) && LinkCovers(a[s].link, b[s].link)
  }

  lemma {:induction false} TouchAllCovers(x: IsUsed, u: IsUsed, as_: seq<Access>, s: Slot)
    requires Covers(x, u)
    ensures Covers(TouchAll(x, as_, s), TouchAll(u, as_, s))
    decreases |as_|
  {
    if as_ != [] { TouchAllCovers(Touch(x, as_[0], s), Touch(u, as_[0], s), as_[1..], s); }
  }

  lemma {:induction false} MergeCovers(a: RegInfo, b: RegInfo)
    requires |a| == |b|
    ensures CoversAll(Merge(a, b), a) && CoversAll(Merge(a, b), b)
  {}

  /** How much is known of a link: nothing is below a writable one, and nothing above one that need not be a Float. */
  predicate AtMost(x: XmmLink, y: XmmLink) {
    x == y || x == RW || y == R(false)
  }

  /** Merging takes the least link above both, so that the order of merging does not matter. */
  lemma {:induction false} MergeIsLeast(a: XmmLink, b: XmmLink, c: XmmLink)
    ensures AtMost(a, MergeLink(a, b)) && AtMost(b, MergeLink(a, b))
    ensures AtMost(a, c) && AtMost(b, c) ==> AtMost(MergeLink(a, b), c)
    ensures MergeLink(MergeLink(a, b), c) == MergeLink(a, MergeLink(b, c)) && MergeLink(a, b) == MergeLink(b, a)
  {}

  // ----- what is never made up by a merge -----

  /** What a merged state shows only if one of the states merged into it shows it. */
  datatype Trait = UsedIs(used: IsUsed) | NotFloat | NotWritable | InRegister | InNone | Always | Never

  predicate Shows(t: Trait, st: RegState) {
    match t
    case UsedIs(u) => st.used == u
    case NotFloat => st.link != RW && st.link != R(true)
    case NotWritable => st.link != RW
    case InRegister => st.link != Unlinked
    case InNone => st.link == Unlinked
    case Always => true
    case Never => false
  }

  lemma {:induction false} MergeShows(a: RegInfo, b: RegInfo, s: Slot, t: Trait)
    requires |a| == |b| && s < |a| && Shows(t, Merge(a, b)[s])
    ensures Shows(t, a[s]) || Shows(t, b[s])
  {}

  function Certain(b: bool): Trait {
    if b then Always else Never
  }

  /** What has to be shown, of which slot, before an access for the trait of a slot's link to be shown after it. */
  function Pull(t: Trait, s: Slot, a: Access): (Slot, Trait) {
    match a
    case UseAs(x, asFloat, known) =>
      if x != s then (s, t)
      else if asFloat then
        (s, match t
            case NotFloat => if known then Never else NotWritable
            case InRegister => Always
            case InNone => Never
            case _ => t)
      else
        (s, match t
            case NotFloat => if known then InNone else NotWritable
            case NotWritable => Always
            case _ => t)
    case DefAs(x, f) =>
      if x != s || x == 0 then (s, t) else (s, Certain(Shows(t, RegState(if f then RW else Unlinked, ND))))
    case DefFloatConst(x) => if x != s || x == 0 then (s, t) else (s, Certain(Shows(t, RegState(R(true), ND))))
    case Unlink(x) => if x != s then (s, t) else (s, Certain(Shows(t, RegState(Unlinked, ND))))
    case Copy(d, x) => (if d == s then x else s, t)
  }

  lemma {:induction false} PullIs(info: RegInfo, a: Access, s: Slot, t: Trait)
    requires InRange(a, |info|) && s < |info| && !t.UsedIs?
    ensures var (x, u) := Pull(t, s, a);
            x < |info| && !u.UsedIs? && (Shows(t, Record(info, a)[s]) <==> Shows(u, info[x]))
  {}

  function PullAll(t: Trait, s: Slot, as_: seq<Access>): (Slot, Trait)
    decreases |as_|
  {
    if as_ == [] then (s, t)
    else
      var (x, u) := PullAll(t, s, as_[1..]);
      Pull(u, x, as_[0])
  }

  lemma {:induction false} PullAllIs(info: RegInfo, as_: seq<Access>, s: Slot, t: Trait)
    requires (forall a <- as_ :: InRange(a, |info|)) && s < |info| && !t.UsedIs?
    ensures var (x, u) := PullAll(t, s, as_);
            x < |info| && !u.UsedIs? && (Shows(t, RecordAll(info, as_)[s]) <==> Shows(u, info[x]))
    decreases |as_|
  {
    hide Record; hide Pull; hide Shows;
    if as_ != [] {
      PullAllIs(Record(info, as_[0]), as_[1..], s, t);
      var (x, u) := PullAll(t, s, as_[1..]);
      PullIs(info, as_[0], x, u);
    }
  }

  // ----- what the record of a link means -----

  /** What has happened to the content of a slot since it was last defined, through copies: the definition, if there
      was one, and the uses. */
  function History(as_: seq<Access>, s: Slot): seq<Access>
    decreases |as_|
  {
    if as_ == [] then []
    else
      var (before, last) := (as_[..|as_| - 1], as_[|as_| - 1]);
      match last
      case UseAs(x, _, _) => if x == s then History(before, s) + [last] else History(before, s)
      case DefAs(x, _) => if x == s && x != 0 then [last] else History(before, s)
      case DefFloatConst(x) => if x == s && x != 0 then [last] else History(before, s)
      case Unlink(x) => if x == s then [last] else History(before, s)
      case Copy(d, x) => History(before, if d == s then x else s)
  }

  /** A history after one more access, other than a copy. */
  function Seen(h: seq<Access>, a: Access, s: Slot): seq<Access> {
    if a.UseAs? && a.slot == s then h + [a]
    else if (a.DefAs? || a.DefFloatConst?) && a.slot == s && s != 0 then [a]
    else if a.Unlink? && a.slot == s then [a]
    else h
  }

  lemma {:induction false} HistoryFew(a: Access, b: Access, c: Access, s: Slot)
    requires !a.Copy? && !b.Copy? && !c.Copy?
    ensures History([a], s) == Seen([], a, s)
    ensures History([a, b], s) == Seen(Seen([], a, s), b, s)
    ensures History([a, b, c], s) == Seen(Seen(Seen([], a, s), b, s), c, s)
  {
    assert [a, b, c][..2] == [a, b] && [a, b][..1] == [a] && [a][..0] == [];
  }

  predicate FloatUse(a: Access) {
    a.UseAs? && a.asFloat
  }

  predicate FloatDef(a: Access) {
    (a.DefAs? && a.isFloat) || a.DefFloatConst?
  }

  /** Computed as a Float, and used only as one since. */
  ghost predicate Writable(h: seq<Access>) {
    h != [] && h[0].DefAs? && h[0].isFloat && forall i :: 0 < i < |h| ==> FloatUse(h[i])
  }

  /** Neither defined nor used as a Float. */
  ghost predicate InNoRegister(h: seq<Access>) {
    forall i :: 0 <= i < |h| ==> !FloatUse(h[i]) && !FloatDef(h[i])
  }

  /** In a register, and last known to be a Float: by its definition, by the class seen at its last use, or because
      that was the first use of a computed Float as something else. */
  ghost predicate IsFloat(h: seq<Access>) {
    && !InNoRegister(h)
    && var last := h[|h| - 1];
       last.UseAs? && !Writable(h) ==> last.known || (!last.asFloat && Writable(h[..|h| - 1]))
  }

  lemma {:induction false} RecordLast(info: RegInfo, as_: seq<Access>)
    requires as_ != [] && forall a <- as_ :: InRange(a, |info|)
    ensures var (before, last) := (as_[..|as_| - 1], as_[|as_| - 1]);
            && (forall a <- before :: InRange(a, |info|)) && InRange(last, |info|)
            && RecordAll(info, as_) == Record(RecordAll(info, before), last)
    decreases |as_|
  {
    hide Record; hide InRange;
    var (before, last) := (as_[..|as_| - 1], as_[|as_| - 1]);
    assert forall a <- before :: a in as_;
    if |as_| > 1 {
      var rest := as_[1..];
      assert forall a <- rest :: a in as_;
      assert as_[0] in as_ && before[0] == as_[0] && before[1..] == rest[..|rest| - 1];
      RecordLast(Record(info, as_[0]), rest);
    }
  }

  /** What links a slot with a register, by its history alone. */
  lemma {:induction false} LinkMeans(regNum: nat, as_: seq<Access>, s: Slot)
    requires (forall a <- as_ :: InRange(a, regNum)) && s < regNum
    ensures var link := RecordAll(Fresh(regNum), as_)[s].link;
            && (link == RW <==> Writable(History(as_, s)))
            && (link == Unlinked <==> InNoRegister(History(as_, s)))
            && (link in {RW, R(true)} <==> IsFloat(History(as_, s)))
    decreases |as_|
  {
    hide RecordAll; hide InRange;
    if as_ == [] {
      RecordNothing(Fresh(regNum));
    } else {
      var (before, last) := (as_[..|as_| - 1], as_[|as_| - 1]);
      RecordLast(Fresh(regNum), as_);
      LinkMeans(regNum, before, s);
      if last.Copy? { CopyInRange(last, regNum); LinkMeans(regNum, before, last.src); }
      LinkStep(RecordAll(Fresh(regNum), before), before, last, s);
    }
  }

  lemma {:induction false} RecordNothing(info: RegInfo)
    ensures RecordAll(info, []) == info
  {}

  lemma {:induction false} CopyInRange(a: Access, n: nat)
    requires a.Copy? && InRange(a, n)
    ensures a.src < n && a.dst < n
  {}

  ghost predicate LinkSays(link: XmmLink, h: seq<Access>) {
    && (link == RW <==> Writable(h)) && (link == Unlinked <==> InNoRegister(h))
    && (link in {RW, R(true)} <==> IsFloat(h))
  }

  lemma {:induction false} LinkStep(info: RegInfo, before: seq<Access>, last: Access, s: Slot)
    requires InRange(last, |info|) && s < |info| && LinkSays(info[s].link, History(before, s))
    requires last.Copy? ==> LinkSays(info[last.src].link, History(before, last.src))
    ensures LinkSays(Record(info, last)[s].link, History(before + [last], s))
  {
    hide RecordAll;
    assert (before + [last])[..|before|] == before;
    var h := History(before, s);
    if last.UseAs? && last.slot == s {
      UseSays(info[s].link, h, last, info[s].used);
    }
  }

  lemma {:induction false} UseSays(link: XmmLink, h: seq<Access>, use: Access, used: IsUsed)
    requires use.UseAs? && LinkSays(link, h)
    ensures LinkSays(UseState(RegState(link, used), use.asFloat, use.known).link, h + [use])
  {
    var g := h + [use];
    assert g[..|h|] == h && g[|h|] == use;
    assert forall i :: 0 <= i < |h| ==> g[i] == h[i];
    assert Writable(g) <==> Writable(h) && use.asFloat by {
      if h == [] { assert g[0] == use; }
    }
    assert InNoRegister(g) <==> InNoRegister(h) && !use.asFloat;
  }

  // ----- paths -----

  function Target(code: seq<TraceIr>, idx: nat): int
    requires idx < |code| && (code[idx].Br? || code[idx].CondBr? || code[idx].CheckLocal?)
  {
    idx + 1 + code[idx].disp
  }

  predicate IsBranch(inst: TraceIr) {
    inst.Br? || inst.CondBr? || inst.CheckLocal?
  }

  /** Control can go from idx on to v, within one iteration. */
  predicate Goes(code: seq<TraceIr>, idx: nat, v: int) {
    idx < |code| &&
    match code[idx]
    case Br(d) => d >= 0 && v == idx + 1 + d
    case CondBr(_, d) => v == idx + 1 || (d >= 0 && v == idx + 1 + d)
    case CheckLocal(_, d) => v == idx + 1 || (d >= 0 && v == idx + 1 + d)
    case Ret(_) => false
    case LoopEnd => false
    case MethodArgs(_, _, _, _) => v == idx + 2
    case _ => v == idx + 1
  }

  /** The iteration ends here: by leaving the loop, returning, or branching back. */
  predicate Ends(code: seq<TraceIr>, idx: nat) {
    idx < |code| && (code[idx].LoopEnd? || code[idx].Ret? || (IsBranch(code[idx]) && code[idx].disp < 0))
  }

  predicate IsPath(code: seq<TraceIr>, head: nat, path: seq<nat>) {
    && path != [] && path[0] == head && (forall i :: 0 <= i < |path| ==> path[i] < |code|)
    && forall i :: 0 < i < |path| ==> Goes(code, path[i - 1], path[i])
  }

  /** The slot's state after the instructions of a path. */
  function Along(code: seq<TraceIr>, localNum: nat, path: seq<nat>, s: Slot): IsUsed
    requires forall i :: 0 <= i < |path| ==> path[i] < |code|
    decreases |path|
  {
    if path == [] then ND
    else
      var (before, last) := (path[..|path| - 1], path[|path| - 1]);
      TouchAll(Along(code, localNum, before, s), Records(code, last, localNum), s)
  }
}
