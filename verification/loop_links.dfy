/** What the use set says about registers: the link of a slot at the back edge, against what happens to the slot along
    the
    paths that branch back. */
module LoopLinks {
  import opened Prelude
  import opened Liveness
  import opened LoopAnalyses
  import Join = JitJoin

  predicate InCode(lp: Loop, path: seq<nat>) {
    forall i :: 0 <= i < |path| ==> path[i] < |lp.code|
  }

  /** All that is recorded along a path. */
  function Accesses(lp: Loop, path: seq<nat>): seq<Access>
    requires InCode(lp, path)
    decreases |path|
  {
    if path == [] then []
    else Accesses(lp, path[..|path| - 1]) + Records(lp.code, path[|path| - 1], lp.localNum)
  }

  lemma {:induction false} AccessesStep(lp: Loop, path: seq<nat>, u: nat)
    requires InCode(lp, path) && u < |lp.code|
    ensures Accesses(lp, path + [u]) == Accesses(lp, path) + Records(lp.code, u, lp.localNum)
  {
    assert (path + [u])[..|path|] == path;
  }

  /** The state after a path, had the scan gone along it alone. */
  function After(lp: Loop, path: seq<nat>): RegInfo
    requires InCode(lp, path)
    decreases |path|
  {
    if path == [] then Fresh(lp.regNum) else Out(lp, path[|path| - 1], After(lp, path[..|path| - 1]))
  }

  lemma {:induction false} RecordBoth(info: RegInfo, a: seq<Access>, b: seq<Access>)
    requires forall x <- a + b :: InRange(x, |info|)
    ensures (forall x <- a :: InRange(x, |info|)) && (forall x <- b :: InRange(x, |info|))
    ensures RecordAll(info, a + b) == RecordAll(RecordAll(info, a), b)
    decreases |a|
  {
    hide Record; hide InRange;
    assert forall x <- a :: x in a + b;
    assert forall x <- b :: x in a + b;
    if a == [] {
      assert a + b == b;
    } else {
      assert (a + b)[0] == a[0] && (a + b)[1..] == a[1..] + b;
      assert forall x <- a[1..] + b :: x in a + b;
      RecordBoth(Record(info, a[0]), a[1..], b);
    }
  }

  lemma {:induction false} InstInRange(lp: Loop, u: nat, n: nat)
    requires LoopOk(lp) && lp.head <= u <= lp.end && n == lp.regNum
    ensures forall a <- Records(lp.code, u, lp.localNum) :: InRange(a, n)
  {
    hide InRange; hide Records;
    if u == lp.end { NothingAtEnd(lp); }
    forall a <- Records(lp.code, u, lp.localNum) ensures InRange(a, n) {
      assert u < lp.end ==> Inside(lp, u);
    }
  }

  ghost predicate InLoop(lp: Loop, path: seq<nat>) {
    InCode(lp, path) && forall i :: 0 <= i < |path| ==> lp.head <= path[i] <= lp.end
  }

  /** That state is what its record makes of nothing known. */
  lemma {:induction false} AfterIs(lp: Loop, path: seq<nat>)
    requires LoopOk(lp) && InLoop(lp, path)
    ensures forall a <- Accesses(lp, path) :: InRange(a, lp.regNum)
    ensures |After(lp, path)| == lp.regNum && After(lp, path) == RecordAll(Fresh(lp.regNum), Accesses(lp, path))
    decreases |path|
  {
    hide LoopOk; hide InRange; hide Records; hide RecordAll;
    if path == [] {
      RecordNothing(Fresh(lp.regNum));
    } else {
      var (before, u) := (path[..|path| - 1], path[|path| - 1]);
      LoopBounds(lp);
      AfterIs(lp, before);
      InstInRange(lp, u, lp.regNum);
      RecordBoth(Fresh(lp.regNum), Accesses(lp, before), Records(lp.code, u, lp.localNum));
    }
  }

  /** What has happened to the content of a slot when a path has been run. */
  function Happened(lp: Loop, path: seq<nat>, s: Slot): seq<Access>
    requires InCode(lp, path)
  {
    History(Accesses(lp, path), s)
  }

  /** The link along a path says what has happened to the slot. */
  lemma {:induction false} AfterMeans(lp: Loop, path: seq<nat>, s: Slot)
    requires LoopOk(lp) && InLoop(lp, path) && s < lp.regNum
    ensures |After(lp, path)| == lp.regNum && LinkSays(After(lp, path)[s].link, Happened(lp, path, s))
  {
    hide LoopOk; hide InRange; hide RecordAll; hide History; hide Writable; hide InNoRegister; hide IsFloat;
    AfterIs(lp, path);
    LinkMeans(lp.regNum, Accesses(lp, path), s);
  }

  lemma {:induction false} PathInLoop(lp: Loop, path: seq<nat>, n: nat)
    requires LoopOk(lp) && IsPath(lp.code, lp.head, path) && n <= |path|
    ensures InLoop(lp, path[..n])
    decreases n
  {
    hide LoopOk; hide Goes;
    LoopBounds(lp);
    if n > 1 {
      PathInLoop(lp, path, n - 1);
      assert path[..n - 1][n - 2] == path[n - 2];
      assert Goes(lp.code, path[n - 2], path[n - 1]);
      StepInLoop(lp, path[n - 2], path[n - 1]);
      forall i | 0 <= i < n ensures lp.head <= path[..n][i] <= lp.end {
        if i < n - 1 { assert path[..n - 1][i] == path[..n][i]; }
      }
    }
  }

  lemma {:induction false} StepInLoop(lp: Loop, u: nat, v: nat)
    requires LoopOk(lp) && lp.head <= u <= lp.end && Goes(lp.code, u, v)
    ensures u < v <= lp.end
  {
    GoesForward(lp, u, v);
    assert u != lp.end;
    assert Inside(lp, u);
  }

  // ----- what the scan shows, some path shows -----

  /** The last step of a path, seen by a trait of a link. */
  lemma {:induction false} StepShows(lp: Loop, u: nat, info: RegInfo, s: Slot, t: Trait)
    requires LoopOk(lp) && lp.head <= u <= lp.end && u < |lp.code| && |info| == lp.regNum && s < lp.regNum && !t.UsedIs?
    ensures |Out(lp, u, info)| == lp.regNum
    ensures var (x, t0) := PullAll(t, s, Records(lp.code, u, lp.localNum));
            x < lp.regNum && !t0.UsedIs? && (Shows(t, Out(lp, u, info)[s]) <==> Shows(t0, info[x]))
  {
    hide LoopOk; hide Records; hide RecordAll; hide Shows; hide PullAll;
    InstInRange(lp, u, lp.regNum);
    PullAllIs(info, Records(lp.code, u, lp.localNum), s, t);
  }

  lemma {:induction false} TraitIsAttained(lp: Loop, at: map<nat, RegInfo>, v: nat, s: Slot, t: Trait)
    returns (path: seq<nat>)
    requires Scanned(lp, at) && AllReached(lp) && v in at && s < lp.regNum && !t.UsedIs?
    requires |at[v]| == lp.regNum && Shows(t, at[v][s])
    ensures v < |lp.code| && PathTo(lp, path, v) && InCode(lp, path[..|path| - 1])
    ensures var before := After(lp, path[..|path| - 1]); |before| == lp.regNum && Shows(t, before[s])
    decreases v
  {
    hide LoopOk; hide Goes; hide Records; hide Out; hide AllReached; hide NobodyGoes; hide Shows;
    LoopBounds(lp);
    if v == lp.head {
      path := [v];
    } else {
      assert From(lp, at, at[v], v);
      if !Attained(lp, at, at[v], v) { SomebodyGoes(lp, at, v); }
      assert Fed(lp, at, v, s, t);
      var u: nat :| Feeds(lp, at, u, v, s, t);
      GoesForward(lp, u, v);
      var (x, t0) := PullAll(t, s, Records(lp.code, u, lp.localNum));
      StepShows(lp, u, at[u], s, t);
      path := TraitIsAttained(lp, at, u, x, t0);
      StepShows(lp, u, After(lp, path[..|path| - 1]), s, t);
      PathGrows(lp, path, u, v, s);
      assert (path + [v])[..|path|] == path;
      path := path + [v];
    }
  }

  /** Whatever a summary shows, some path that ends so shows. */
  lemma {:induction false} SummaryTrait(
      lp: Loop, at: map<nat, RegInfo>, summary: RegInfo, back: bool, s: Slot, t: Trait) returns (path: seq<nat>)
    requires Scanned(lp, at) && AllReached(lp) && EndFrom(lp, at, Some(summary), back)
    requires |summary| == lp.regNum && s < lp.regNum && !t.UsedIs? && Shows(t, summary[s])
    ensures IsWhole(lp, path) && EndsSo(lp.code[path[|path| - 1]], back) && InCode(lp, path)
    ensures |After(lp, path)| == lp.regNum && Shows(t, After(lp, path)[s])
  {
    hide LoopOk; hide Goes; hide Records; hide Out; hide AllReached; hide Closed; hide NodesFrom; hide Shows;
    LoopBounds(lp);
    assert EndFed(lp, at, s, t, back);
    var u: nat :| EndFeeds(lp, at, u, s, t, back);
    var (x, t0) := PullAll(t, s, Records(lp.code, u, lp.localNum));
    StepShows(lp, u, at[u], s, t);
    path := TraitIsAttained(lp, at, u, x, t0);
    StepShows(lp, u, After(lp, path[..|path| - 1]), s, t);
  }

  // ----- what a path is known to have lost, the scan knows -----

  /** A link along one path against the scan's: lost as a Float there, it is no Float here; writable here, it is
      writable there. */
  predicate Keeps(x: XmmLink, y: XmmLink) {
    (y == R(false) ==> x in {Unlinked, R(false)}) && (x == RW ==> y == RW)
  }

  ghost predicate KeepsAll(a: RegInfo, b: RegInfo) {
    |a| == |b| && forall s: Slot :: s < |a| ==> Keeps(a[s].link, b[s].link)
  }

  lemma {:induction false} RecordKeeps(a: RegInfo, b: RegInfo, as_: seq<Access>)
    requires KeepsAll(a, b) && |a| == |b| && forall x <- as_ :: InRange(x, |a|)
    ensures KeepsAll(RecordAll(a, as_), RecordAll(b, as_))
    decreases |as_|
  {
    hide Record; hide KeepsAll; hide InRange;
    if as_ != [] {
      SameSize(a, b);
      OneKeeps(a, b, as_[0]);
      RecordKeeps(Record(a, as_[0]), Record(b, as_[0]), as_[1..]);
    }
  }

  lemma {:induction false} OneKeeps(a: RegInfo, b: RegInfo, access: Access)
    requires KeepsAll(a, b) && |a| == |b| && InRange(access, |a|)
    ensures KeepsAll(Record(a, access), Record(b, access))
  {
    forall s: Slot | s < |a| ensures Keeps(Record(a, access)[s].link, Record(b, access)[s].link) {
      assert Keeps(a[s].link, b[s].link);
      if access.Copy? { assert Keeps(a[access.src].link, b[access.src].link); }
    }
  }

  lemma {:induction false} CoversKeeps(x: RegInfo, a: RegInfo, b: RegInfo)
    requires CoversAll(x, a) && KeepsAll(a, b)
    ensures KeepsAll(x, b)
  {
    forall s: Slot | s < |x| ensures Keeps(x[s].link, b[s].link) {
      assert LinkCovers(x[s].link, a[s].link) && Keeps(a[s].link, b[s].link);
    }
  }

  lemma {:induction false} OutKeeps(lp: Loop, u: nat, a: RegInfo, b: RegInfo)
    requires LoopOk(lp) && lp.head <= u <= lp.end && |a| == lp.regNum && KeepsAll(a, b)
    ensures KeepsAll(Out(lp, u, a), Out(lp, u, b))
  {
    hide LoopOk; hide Records; hide RecordAll; hide KeepsAll;
    LoopBounds(lp);
    InstInRange(lp, u, lp.regNum);
    assert |a| == |b| by { SameSize(a, b); }
    RecordKeeps(a, b, Records(lp.code, u, lp.localNum));
  }

  lemma {:induction false} SameSize(a: RegInfo, b: RegInfo)
    requires KeepsAll(a, b)
    ensures |a| == |b|
  {}

  lemma {:induction false} PathKeeps(lp: Loop, at: map<nat, RegInfo>, path: seq<nat>)
    requires Scanned(lp, at) && IsPath(lp.code, lp.head, path)
    ensures InCode(lp, path[..|path| - 1]) && path[|path| - 1] in at
    ensures KeepsAll(at[path[|path| - 1]], After(lp, path[..|path| - 1]))
    decreases |path|
  {
    hide LoopOk; hide Goes; hide Out; hide KeepsAll; hide CoversAll; hide NodesFrom;
    if |path| == 1 {
      FreshKeeps(lp.regNum);
    } else {
      var (before, last, u) := (path[..|path| - 1], path[|path| - 1], path[|path| - 2]);
      forall i | 0 < i < |before| ensures Goes(lp.code, before[i - 1], before[i]) {
        assert Goes(lp.code, path[i - 1], path[i]);
      }
      PathKeeps(lp, at, before);
      assert Goes(lp.code, u, last);
      assert Follows(lp, at, u, last);
      OutKeeps(lp, u, at[u], After(lp, before[..|before| - 1]));
      CoversKeeps(at[last], Out(lp, u, at[u]), After(lp, before));
    }
  }

  lemma {:induction false} FreshKeeps(n: nat)
    ensures KeepsAll(Fresh(n), Fresh(n))
  {}

  lemma {:induction false} SummaryKeeps(
      lp: Loop, at: map<nat, RegInfo>, backedge: RegInfo, returns_: Option<RegInfo>, path: seq<nat>)
    requires Scanned(lp, at) && EndsOk(lp, at, Some(backedge), returns_) && BranchesBackOn(lp, path)
    ensures InCode(lp, path) && KeepsAll(backedge, After(lp, path))
  {
    hide LoopOk; hide Goes; hide Out; hide KeepsAll; hide CoversAll; hide NodesFrom; hide Closed;
    var u := path[|path| - 1];
    PathKeeps(lp, at, path);
    OutKeeps(lp, u, at[u], After(lp, path[..|path| - 1]));
    assert SummaryCovers(lp, u, at[u], Some(backedge));
    CoversKeeps(backedge, Out(lp, u, at[u]), After(lp, path));
  }

  // ----- the use set -----

  /** At every branch back the slot is in a register and known to be a Float. */
  ghost predicate FloatOnAll(lp: Loop, s: Slot) {
    forall path: seq<nat> :: BranchesBackOn(lp, path) ==> InCode(lp, path) && IsFloat(Happened(lp, path, s))
  }

  /** At no branch back has the slot been defined or used as a Float. */
  ghost predicate LinkedOnNone(lp: Loop, s: Slot) {
    forall path: seq<nat> :: BranchesBackOn(lp, path) ==> InCode(lp, path) && InNoRegister(Happened(lp, path, s))
  }

  ghost predicate LinkedOnAll(lp: Loop, s: Slot) {
    forall path: seq<nat> :: BranchesBackOn(lp, path) ==> InCode(lp, path) && !InNoRegister(Happened(lp, path, s))
  }

  /** At some branch back the slot is in a register without being known to be a Float. */
  ghost predicate OtherOnSome(lp: Loop, s: Slot) {
    exists path: seq<nat> :: BranchesBackOn(lp, path) && InCode(lp, path)
      && !InNoRegister(Happened(lp, path, s)) && !IsFloat(Happened(lp, path, s))
  }

  /** How a use set reports a slot. If some path that branches back reads the slot first and all leave it in a
      register, it is reported, as a Float exactly if all leave it one; if none leaves it in a register, it is not
      reported; and it is never reported as a Float if some path leaves it as something else. */
  ghost predicate ReportedBy(lp: Loop, useSet: seq<(Slot, bool)>, s: Slot) {
    && (ReadFirst(lp, s) && FloatOnAll(lp, s) ==> (s, true) in useSet)
    && (ReadFirst(lp, s) && LinkedOnAll(lp, s) ==> (s, true) in useSet || (s, false) in useSet)
    && (OtherOnSome(lp, s) ==> (s, true) !in useSet)
    && (LinkedOnNone(lp, s) ==> (s, true) !in useSet && (s, false) !in useSet)
    && !((s, true) in useSet && (s, false) in useSet)
  }

  lemma {:induction false} BackPathMeans(lp: Loop, path: seq<nat>, s: Slot)
    requires LoopOk(lp) && BranchesBackOn(lp, path) && s < lp.regNum
    ensures InCode(lp, path) && |After(lp, path)| == lp.regNum
    ensures LinkSays(After(lp, path)[s].link, Happened(lp, path, s))
  {
    hide LoopOk; hide Goes; hide After; hide Happened; hide LinkSays;
    PathInLoop(lp, path, |path|);
    assert path[..|path|] == path;
    AfterMeans(lp, path, s);
  }

  lemma {:induction false} UseSetReports(
      lp: Loop, at: map<nat, RegInfo>, backedge: RegInfo, returns_: Option<RegInfo>, s: Slot)
    requires Scanned(lp, at) && AllReached(lp) && EndsOk(lp, at, Some(backedge), returns_) && s < lp.regNum
    requires |backedge| == lp.regNum && EndFrom(lp, at, Some(backedge), true)
    ensures ReportedBy(lp, UseSet(backedge, |backedge|), s)
  {
    hide LoopOk; hide Closed; hide NodesFrom; hide EndFrom; hide EndsOk; hide AllReached; hide After; hide Happened;
    hide UseSet; hide IsWhole; hide Writable; hide InNoRegister; hide IsFloat; hide BranchesBackOn; hide Along;
    UseSetIs(backedge, |backedge|);
    var link := backedge[s].link;
    if ReadFirst(lp, s) { ReadIsUsed(lp, at, backedge, returns_, s); }
    if FloatOnAll(lp, s) && link !in {RW, R(true)} {
      var path := BackShows(lp, at, backedge, s, NotFloat);
      assert false;
    }
    if LinkedOnAll(lp, s) && link == Unlinked {
      var path := BackShows(lp, at, backedge, s, InNone);
      assert false;
    }
    if LinkedOnNone(lp, s) && link != Unlinked {
      var path := BackShows(lp, at, backedge, s, InRegister);
      assert false;
    }
    if OtherOnSome(lp, s) {
      var path: seq<nat> :| BranchesBackOn(lp, path) && InCode(lp, path)
        && !InNoRegister(Happened(lp, path, s)) && !IsFloat(Happened(lp, path, s));
      BackPathMeans(lp, path, s);
      SummaryKeeps(lp, at, backedge, returns_, path);
      assert Keeps(link, After(lp, path)[s].link);
    }
  }

  lemma {:induction false} BackShows(lp: Loop, at: map<nat, RegInfo>, backedge: RegInfo, s: Slot, t: Trait)
    returns (path: seq<nat>)
    requires Scanned(lp, at) && AllReached(lp) && s < lp.regNum && |backedge| == lp.regNum
    requires EndFrom(lp, at, Some(backedge), true) && !t.UsedIs? && Shows(t, backedge[s])
    ensures BranchesBackOn(lp, path) && InCode(lp, path) && |After(lp, path)| == lp.regNum
    ensures Shows(t, After(lp, path)[s]) && LinkSays(After(lp, path)[s].link, Happened(lp, path, s))
  {
    hide LoopOk; hide Closed; hide NodesFrom; hide EndFrom; hide AllReached; hide After; hide Happened; hide IsWhole;
    hide LinkSays; hide Shows;
    path := SummaryTrait(lp, at, backedge, true, s, t);
    BackPathMeans(lp, path, s);
  }

  lemma {:induction false} ReadIsUsed(
      lp: Loop, at: map<nat, RegInfo>, backedge: RegInfo, returns_: Option<RegInfo>, s: Slot)
    requires Scanned(lp, at) && EndsOk(lp, at, Some(backedge), returns_) && s < lp.regNum && ReadFirst(lp, s)
    requires |backedge| == lp.regNum
    ensures backedge[s].used == Used
  {
    hide LoopOk; hide Closed; hide NodesFrom; hide EndsOk; hide Along;
    LoopBounds(lp);
    var path: seq<nat> :| BranchesBackOn(lp, path) && Along(lp.code, lp.localNum, path, s) == Used;
    EndIsCovered(lp, at, Some(backedge), returns_, path, s);
  }
}
