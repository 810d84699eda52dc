/** The compiler's picture of the machine at one point of a basic block: which stack slots live in
    which xmm registers. `Ctx` is the picture as a value and carries the specification of each
    operation; `BBContext` is the object the compiler updates in place. */
module JitContext {
  import opened Prelude
  import opened JitMachine

  /** How a stack slot is linked to a register: in `XmmR` both copies are valid, in `XmmRW` only the
      register is. */
  datatype LinkMode = Unlinked | XmmR(x: Xmm) | XmmRW(x: Xmm)

  datatype Ctx = Ctx(slots: seq<LinkMode>, xmm: seq<seq<SlotId>>)

  predicate Linked(c: Ctx, s: SlotId) {
    s < |c.slots| && !c.slots[s].Unlinked?
  }

  /** The two maps are inverses: register x lists exactly the slots linked to x, each once. */
  ghost predicate Consistent(c: Ctx) {
    && |c.xmm| == NUM_XMM
    && (forall x: Xmm :: NoDup(c.xmm[x]))
    && (forall x: Xmm, s: SlotId :: s in c.xmm[x] <==> Linked(c, s) && c.slots[s].x == x)
  }

  /** Every linked slot has a register of its own. */
  ghost predicate Exclusive(c: Ctx) {
    forall s: SlotId, t: SlotId :: Linked(c, s) && Linked(c, t) && s != t ==> c.slots[s].x != c.slots[t].x
  }

  // ----- the operations on values -----

  function Without(v: seq<SlotId>, s: SlotId): (r: seq<SlotId>)
    ensures forall t: SlotId :: t in r <==> t in v && t != s
    ensures NoDup(v) ==> NoDup(r)
  {
    if v == [] then []
    else if v[0] == s then Without(v[1..], s)
    else
      var rest := Without(v[1..], s);
      assert NoDup(v) ==> NoDup(v[1..]) && v[0] !in v[1..];
      [v[0]] + rest
  }

  function Empty(slots: nat): Ctx {
    Ctx(seq(slots, _ => Unlinked), seq(NUM_XMM, _ => []))
  }

  function Dealloc(c: Ctx, s: SlotId): Ctx
    requires |c.xmm| == NUM_XMM && s < |c.slots|
  {
    if c.slots[s].Unlinked? then c
    else Ctx(c.slots[s := Unlinked], c.xmm[c.slots[s].x := Without(c.xmm[c.slots[s].x], s)])
  }

  /** Links a slot that is not linked yet. */
  function Link(c: Ctx, s: SlotId, mode: LinkMode): Ctx
    requires |c.xmm| == NUM_XMM && s < |c.slots| && !mode.Unlinked?
  {
    Ctx(c.slots[s := mode], c.xmm[mode.x := c.xmm[mode.x] + [s]])
  }

  function SwapMode(mode: LinkMode, l: Xmm, r: Xmm): LinkMode {
    match mode
    case Unlinked => Unlinked
    case XmmR(x) => XmmR(if x == l then r else if x == r then l else x)
    case XmmRW(x) => XmmRW(if x == l then r else if x == r then l else x)
  }

  function Swap(c: Ctx, l: Xmm, r: Xmm): Ctx
    requires |c.xmm| == NUM_XMM
  {
    Ctx(seq(|c.slots|, i requires 0 <= i < |c.slots| => SwapMode(c.slots[i], l, r)),
        c.xmm[l := c.xmm[r]][r := c.xmm[l]])
  }

  /** The lowest register that holds no slot. */
  function FirstFree(xmm: seq<seq<SlotId>>, from: nat := 0): (r: Option<nat>)
    requires from <= |xmm|
    ensures r.Some? ==> from <= r.value < |xmm| && xmm[r.value] == []
    ensures r.Some? ==> forall x :: from <= x < r.value ==> xmm[x] != []
    ensures r.None? ==> forall x :: from <= x < |xmm| ==> xmm[x] != []
    decreases |xmm| - from
  {
    if from == |xmm| then None
    else if xmm[from] == [] then Some(from)
    else FirstFree(xmm, from + 1)
  }

  /** The register a slot is written through, and the context with the slot linked to it; None where
      the compiler runs out of registers. */
  function XmmWrite(c: Ctx, s: SlotId): Option<(Ctx, Xmm)>
    requires |c.xmm| == NUM_XMM && s < |c.slots|
  {
    if c.slots[s].XmmRW? && |c.xmm[c.slots[s].x]| == 1 then Some((c, c.slots[s].x))
    else
      var d := Dealloc(c, s);
      match FirstFree(d.xmm)
      case None => None
      case Some(x) => Some((Link(d, s, XmmRW(x)), x))
  }

  // ----- what every operation keeps -----

  lemma {:induction false} EmptyConsistent(slots: nat)
    ensures Consistent(Empty(slots))
  {
  }

  lemma {:induction false} DeallocConsistent(c: Ctx, s: SlotId)
    requires Consistent(c) && s < |c.slots|
    ensures Consistent(Dealloc(c, s)) && !Linked(Dealloc(c, s), s)
    ensures Exclusive(c) ==> Exclusive(Dealloc(c, s))
    ensures forall t: SlotId :: t < |c.slots| && t != s ==> Dealloc(c, s).slots[t] == c.slots[t]
  {
    if Linked(c, s) {
      var d := Dealloc(c, s);
      forall x: Xmm, t: SlotId
        ensures t in d.xmm[x] <==> Linked(d, t) && d.slots[t].x == x
      {
        assert t in c.xmm[x] <==> Linked(c, t) && c.slots[t].x == x;
      }
    }
  }

  lemma {:induction false} LinkConsistent(c: Ctx, s: SlotId, mode: LinkMode)
    requires Consistent(c) && s < |c.slots| && !Linked(c, s) && !mode.Unlinked?
    ensures Consistent(Link(c, s, mode))
    ensures Exclusive(c) && c.xmm[mode.x] == [] ==> Exclusive(Link(c, s, mode))
  {
    var d := Link(c, s, mode);
    assert s !in c.xmm[mode.x];
    forall x: Xmm, t: SlotId
      ensures t in d.xmm[x] <==> Linked(d, t) && d.slots[t].x == x
    {
      assert t in c.xmm[x] <==> Linked(c, t) && c.slots[t].x == x;
    }
    if Exclusive(c) && c.xmm[mode.x] == [] {
      forall t: SlotId | Linked(c, t)
        ensures c.slots[t].x != mode.x
      {
        assert t in c.xmm[c.slots[t].x];
      }
    }
  }

  /** Weakening or strengthening a link without moving it. */
  lemma {:induction false} RemodeConsistent(c: Ctx, s: SlotId, mode: LinkMode)
    requires Consistent(c) && Linked(c, s) && !mode.Unlinked? && mode.x == c.slots[s].x
    ensures Consistent(c.(slots := c.slots[s := mode]))
  {
    var d := c.(slots := c.slots[s := mode]);
    forall x: Xmm, t: SlotId
      ensures t in d.xmm[x] <==> Linked(d, t) && d.slots[t].x == x
    {
      assert t in c.xmm[x] <==> Linked(c, t) && c.slots[t].x == x;
    }
  }

  lemma {:induction false} SwapConsistent(c: Ctx, l: Xmm, r: Xmm)
    requires Consistent(c)
    ensures Consistent(Swap(c, l, r))
  {
    var d := Swap(c, l, r);
    forall x: Xmm, t: SlotId
      ensures t in d.xmm[x] <==> Linked(d, t) && d.slots[t].x == x
    {
      var y: Xmm := if x == l then r else if x == r then l else x;
      assert t in c.xmm[y] <==> Linked(c, t) && c.slots[t].x == y;
    }
  }

  lemma {:induction false} XmmWriteConsistent(c: Ctx, s: SlotId)
    requires Consistent(c) && s < |c.slots| && XmmWrite(c, s).Some?
    ensures var (d, x) := XmmWrite(c, s).value;
            && Consistent(d) && |d.slots| == |c.slots|
            && d.slots[s] == XmmRW(x) && d.xmm[x] == [s]
            && (forall t: SlotId :: t < |c.slots| && t != s ==> d.slots[t] == c.slots[t])
  {
    if c.slots[s].XmmRW? && |c.xmm[c.slots[s].x]| == 1 {
      assert s in c.xmm[c.slots[s].x];
    } else {
      var d := Dealloc(c, s);
      DeallocConsistent(c, s);
      LinkConsistent(d, s, XmmRW(FirstFree(d.xmm).value));
    }
  }

  /** Which register a result goes to: the slot's own if it is there alone and nowhere else, otherwise the lowest one
      that no other slot has; there is none exactly if other slots have all of them. */
  lemma {:induction false} XmmWriteExactly(c: Ctx, s: SlotId)
    requires Consistent(c) && s < |c.slots|
    ensures XmmWrite(c, s).None? <==> forall y: Xmm :: OthersIn(c, y, s)
    ensures XmmWrite(c, s).Some? ==>
              var (d, x) := XmmWrite(c, s).value;
              && !OthersIn(c, x, s)
              && (c.slots[s].XmmRW? && !OthersIn(c, c.slots[s].x, s) ==> x == c.slots[s].x && d.slots == c.slots)
              && (!(c.slots[s].XmmRW? && !OthersIn(c, c.slots[s].x, s)) ==> forall y: Xmm :: y < x ==>
                  OthersIn(c, y, s))
  {
    if Linked(c, s) { AloneIsOne(c, s); }
    if !(c.slots[s].XmmRW? && |c.xmm[c.slots[s].x]| == 1) {
      DeallocConsistent(c, s);
      var d := Dealloc(c, s);
      forall y: Xmm ensures d.xmm[y] == [] <==> !OthersIn(c, y, s) {
        forall t: SlotId | t != s && Linked(c, t) && c.slots[t].x == y ensures t in d.xmm[y] {
          assert Linked(d, t) && d.slots[t].x == y;
        }
        if d.xmm[y] != [] {
          var t := d.xmm[y][0];
          assert t in d.xmm[y];
          assert Linked(d, t) && t != s && c.slots[t].x == y;
        }
      }
    }
  }

  /** A slot other than s is in the register. */
  ghost predicate OthersIn(c: Ctx, x: Xmm, s: SlotId) {
    exists t: SlotId :: t != s && Linked(c, t) && c.slots[t].x == x
  }

  lemma {:induction false} AloneIsOne(c: Ctx, s: SlotId)
    requires Consistent(c) && Linked(c, s)
    ensures |c.xmm| == NUM_XMM
    ensures |c.xmm[c.slots[s].x]| == 1 <==> !OthersIn(c, c.slots[s].x, s)
  {
    var v := c.xmm[c.slots[s].x];
    assert s in v;
    if |v| == 1 {
      assert v == [s];
      forall t: SlotId | Linked(c, t) && c.slots[t].x == c.slots[s].x ensures t == s {
        assert t in v;
      }
    } else {
      var i := if v[0] == s then 1 else 0;
      assert v[i] in v && v[i] != s;
      assert Linked(c, v[i]) && c.slots[v[i]].x == c.slots[s].x;
    }
  }

  // ----- write-back -----

  function StoreAll(v: seq<SlotId>): seq<Inst> {
    if v == [] then [] else [StoreRax(v[0])] + StoreAll(v[1..])
  }

  function WriteBackSingle(x: Xmm, v: seq<SlotId>): seq<Inst> {
    if v == [] then [] else [MovXmm(0, Enc(x)), F64ToVal] + StoreAll(v)
  }

  function OnlyRW(slots: seq<LinkMode>, v: seq<SlotId>): (r: seq<SlotId>)
    ensures forall t: SlotId :: t in r <==> t in v && t < |slots| && slots[t].XmmRW?
  {
    if v == [] then []
    else (if v[0] < |slots| && slots[v[0]].XmmRW? then [v[0]] else []) + OnlyRW(slots, v[1..])
  }

  /** Code that brings every slot's stack copy up to date, register by register. */
  function WriteBackCode(c: Ctx, from: nat := 0): seq<Inst>
    requires |c.xmm| == NUM_XMM && from <= NUM_XMM
    decreases NUM_XMM - from
  {
    if from == NUM_XMM then []
    else WriteBackSingle(from, OnlyRW(c.slots, c.xmm[from])) + WriteBackCode(c, from + 1)
  }

  lemma {:induction false} StoreAllEffect(fpu: Fpu, v: seq<SlotId>, m: Machine)
    ensures var o := Exec(fpu, StoreAll(v), m);
            && o.Running? && o.m.xmm == m.xmm && o.m.rax == m.rax && |o.m.stack| == |m.stack|
            && forall s: SlotId :: s < |m.stack| ==> o.m.stack[s] == if s in v then m.rax else m.stack[s]
  {
    if v != [] {
      var m1 := m.(stack := Poke(m.stack, v[0], m.rax));
      StoreAllEffect(fpu, v[1..], m1);
      assert StoreAll(v)[0] == StoreRax(v[0]) && StoreAll(v)[1..] == StoreAll(v[1..]);
    }
  }

  /** Registers of linked slots are never scratch, so a write-back leaves them alone. */
  ghost predicate SameFile(m: Machine, n: Machine) {
    forall x: Xmm :: m.xmm[Enc(x)] == n.xmm[Enc(x)]
  }

  lemma {:induction false} WriteBackSingleEffect(fpu: Fpu, x: Xmm, v: seq<SlotId>, m: Machine)
    ensures var o := Exec(fpu, WriteBackSingle(x, v), m);
            && o.Running? && SameFile(m, o.m) && |o.m.stack| == |m.stack|
            && forall s: SlotId :: s < |m.stack| ==>
                 o.m.stack[s] == if s in v then Box(m.xmm[Enc(x)]) else m.stack[s]
  {
    if v != [] {
      var pre := [MovXmm(0, Enc(x)), F64ToVal];
      ExecAppend(fpu, pre, StoreAll(v), m);
      var m1 := m.(xmm := m.xmm[0 := m.xmm[Enc(x)]]);
      var m2 := m1.(rax := Box(m1.xmm[0]), xmm := m1.xmm[1 := POS_ZERO]);
      assert pre[1..] == [F64ToVal];
      assert Step(fpu, pre[0], m) == Running(m1);
      assert Exec(fpu, pre[1..], m1) == Running(m2);
      assert Exec(fpu, pre, m) == Running(m2);
      StoreAllEffect(fpu, v, m2);
    }
  }

  /** Deoptimisation puts the register's number into every slot whose stack copy was stale and leaves
      all other slots alone. */
  lemma {:induction false} WriteBackEffect(fpu: Fpu, c: Ctx, m: Machine, from: nat)
    requires Consistent(c) && from <= NUM_XMM
    ensures var o := Exec(fpu, WriteBackCode(c, from), m);
            && o.Running? && SameFile(m, o.m) && |o.m.stack| == |m.stack|
            && forall s: SlotId :: s < |m.stack| ==>
                 o.m.stack[s] == if s < |c.slots| && c.slots[s].XmmRW? && c.slots[s].x >= from
                                 then Box(m.xmm[Enc(c.slots[s].x)]) else m.stack[s]
    decreases NUM_XMM - from
  {
    hide Exec; hide WriteBackSingle; hide Box; hide OnlyRW; hide NoDup;
    NoCode(fpu, m);
    if from < NUM_XMM {
      var v := OnlyRW(c.slots, c.xmm[from]);
      WriteBackSingleEffect(fpu, from, v, m);
      var m1 := Exec(fpu, WriteBackSingle(from, v), m).m;
      ExecAppend(fpu, WriteBackSingle(from, v), WriteBackCode(c, from + 1), m);
      WriteBackEffect(fpu, c, m1, from + 1);
      StaleIn(c, from);
    }
  }

  lemma {:induction false} StaleIn(c: Ctx, x: Xmm)
    requires Consistent(c)
    ensures forall s: SlotId :: s in OnlyRW(c.slots, c.xmm[x]) <==> s < |c.slots| && c.slots[s] == XmmRW(x)
  {
    forall s: SlotId
      ensures s in c.xmm[x] <==> Linked(c, s) && c.slots[s].x == x
    {}
  }

  // ----- the object the compiler updates -----

  class BBContext {
    var stackSlot: seq<LinkMode>
    var xmm: seq<seq<SlotId>>

    function View(): Ctx
      reads this
    {
      Ctx(stackSlot, xmm)
    }

    constructor (regNum: nat)
      ensures View() == Empty(regNum)
    {
      stackSlot := seq(regNum, _ => Unlinked);
      xmm := seq(NUM_XMM, _ => []);
    }

    /** Rebuilds both maps from slot links alone. */
    constructor From(slotInfo: seq<LinkMode>)
      ensures stackSlot == slotInfo && Consistent(View())
    {
      stackSlot := seq(|slotInfo|, _ => Unlinked);
      xmm := seq(NUM_XMM, _ => []);
      new;
      EmptyConsistent(|slotInfo|);
      var i := 0;
      while i < |slotInfo|
        invariant i <= |slotInfo| == |stackSlot| && Consistent(View())
        invariant stackSlot[..i] == slotInfo[..i]
        invariant forall j :: i <= j < |slotInfo| ==> stackSlot[j].Unlinked?
      {
        var mode := slotInfo[i];
        if !mode.Unlinked? {
          LinkConsistent(View(), i, mode);
          stackSlot := stackSlot[i := mode];
          xmm := xmm[mode.x := xmm[mode.x] + [i]];
        }
        i := i + 1;
      }
      assert stackSlot == stackSlot[..i] && slotInfo == slotInfo[..i];
    }

    method AllocXmm() returns (x: Xmm)
      requires |xmm| == NUM_XMM && FirstFree(xmm).Some?
      ensures FirstFree(xmm) == Some(x)
    {
      var i := 0;
      while xmm[i] != []
        invariant i < NUM_XMM && FirstFree(xmm, i) == FirstFree(xmm)
        decreases NUM_XMM - i
      {
        i := i + 1;
      }
      x := i;
    }

    method LinkXmm(reg: SlotId, mode: LinkMode)
      requires |xmm| == NUM_XMM && reg < |stackSlot| && !mode.Unlinked?
      modifies this
      ensures View() == Link(old(View()), reg, mode)
    {
      stackSlot := stackSlot[reg := mode];
      xmm := xmm[mode.x := xmm[mode.x] + [reg]];
    }

    method DeallocXmm(reg: SlotId)
      requires |xmm| == NUM_XMM && reg < |stackSlot|
      modifies this
      ensures View() == Dealloc(old(View()), reg)
    {
      if !stackSlot[reg].Unlinked? {
        var freg := stackSlot[reg].x;
        xmm := xmm[freg := Without(xmm[freg], reg)];
        stackSlot := stackSlot[reg := Unlinked];
      }
    }

    method RemoveUnused(unused: seq<SlotId>)
      requires Consistent(View()) && forall s :: s in unused ==> s < |stackSlot|
      modifies this
      ensures Consistent(View()) && |stackSlot| == |old(stackSlot)|
      ensures forall s: SlotId :: s < |stackSlot| ==>
        stackSlot[s] == if s in unused then Unlinked else old(stackSlot)[s]
    {
      var i := 0;
      while i < |unused|
        invariant i <= |unused| && Consistent(View()) && |stackSlot| == |old(stackSlot)|
        invariant forall s: SlotId :: s < |stackSlot| ==>
          stackSlot[s] == if s in unused[..i] then Unlinked else old(stackSlot)[s]
      {
        assert unused[i] in unused;
        DeallocConsistent(View(), unused[i]);
        DeallocXmm(unused[i]);
        i := i + 1;
      }
      assert unused[..i] == unused;
    }

    method XmmSwap(l: Xmm, r: Xmm)
      requires |xmm| == NUM_XMM
      modifies this
      ensures View() == Swap(old(View()), l, r)
    {
      xmm := xmm[l := xmm[r]][r := xmm[l]];
      var i := 0;
      while i < |stackSlot|
        invariant i <= |stackSlot| == |old(stackSlot)| && xmm == Swap(old(View()), l, r).xmm
        invariant forall j :: 0 <= j < |stackSlot| ==>
          stackSlot[j] == if j < i then SwapMode(old(stackSlot)[j], l, r) else old(stackSlot)[j]
      {
        var mode := stackSlot[i];
        if !mode.Unlinked? {
          if mode.x == l {
            stackSlot := stackSlot[i := mode.(x := r)];
          } else if mode.x == r {
            stackSlot := stackSlot[i := mode.(x := l)];
          }
        }
        i := i + 1;
      }
    }

    /** The register through which `reg` will be written; the compiler must not be out of registers. */
    method XmmWriteReg(reg: SlotId) returns (freg: Xmm)
      requires Consistent(View()) && reg < |stackSlot| && XmmWrite(View(), reg).Some?
      modifies this
      ensures XmmWrite(old(View()), reg) == Some((View(), freg))
    {
      if stackSlot[reg].XmmRW? && |xmm[stackSlot[reg].x]| == 1 {
        freg := stackSlot[reg].x;
      } else {
        DeallocXmm(reg);
        freg := AllocXmm();
        LinkXmm(reg, XmmRW(freg));
      }
    }
  }
}
