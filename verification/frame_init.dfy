/** Initialising a callee's frame: the interpreter's prologue and the one the compiler emits. */
module FrameInit {

  datatype Value = Zero | Nil | Arr(elems: seq<Value>) | Other(id: nat)

  /** Slots of a frame are counted from the first argument; regNum also counts self.
      arguments:  | required | optional | rest | …temporaries (the first may be the block parameter) */
  datatype FnInfo = FnInfo(regNum: nat, argNum: nat, posNum: nat, reqNum: nat, blockPos: nat)

  predicate InfoOk(f: FnInfo) {
    && f.reqNum <= f.posNum && (f.argNum == f.posNum || f.argNum == f.posNum + 1) && f.argNum + 1 <= f.regNum
    && (f.blockPos == 0 || (f.blockPos == f.argNum + 1 && f.blockPos + 1 <= f.regNum))
  }

  predicate HasRest(f: FnInfo) {
    f.argNum != f.posNum
  }

  /** A method insists on its arity; a block takes what it gets. */
  predicate ArityError(f: FnInfo, isBlock: bool, passed: nat) {
    !isBlock && (passed < f.reqNum || (passed > f.posNum && !HasRest(f)))
  }

  /** What slot i holds once the frame is ready. */
  function SlotAfter(f: FnInfo, passed: nat, block: Value, before: seq<Value>, i: nat): Value
    requires i < |before| && passed <= |before|
  {
    if i < f.posNum then if i < passed then before[i] else if i < f.reqNum then Nil else Zero
    else if i == f.posNum && HasRest(f) then Arr(if passed > f.posNum then before[f.posNum..passed] else [])
    else if f.blockPos > 0 && i == f.blockPos - 1 then block
    else if i + 1 < f.regNum then Nil
    else before[i]
  }

  function FrameAfter(f: FnInfo, passed: nat, block: Value, before: seq<Value>): (after: seq<Value>)
    requires passed <= |before|
    ensures |after| == |before|
  {
    seq(|before|, i requires 0 <= i < |before| => SlotAfter(f, passed, block, before, i))
  }

  /** Fills the n slots before `end`, from the first to the last. */
  method Fill(frame: array<Value>, end: nat, n: nat, val: Value)
    requires n <= end <= frame.Length
    modifies frame
    ensures forall i :: 0 <= i < frame.Length ==> frame[i] == if end - n <= i < end then val else old(frame[i])
  {
    var rax := n;
    while rax != 0
      invariant 0 <= rax <= n
      invariant forall i :: 0 <= i < frame.Length ==>
          frame[i] == if end - n <= i < end - rax then val else old(frame[i])
    {
      frame[end - rax] := val;
      rax := rax - 1;
    }
  }

  /** Gathers `len` slots into an array that replaces the first of them. */
  method MakeRestArray(frame: array<Value>, src: nat, len: nat)
    requires src < frame.Length && src + len <= frame.Length
    modifies frame
    ensures frame[..] == old(frame[..])[src := Arr(old(frame[src..src + len]))]
  {
    var ary := [];
    for i := 0 to len
      invariant ary == frame[src..src + i]
    {
      ary := ary + [frame[src + i]];
    }
    frame[src] := Arr(ary);
  }

  /** An array that is a block's only argument is spread over the block's parameters. */
  predicate Expands(f: FnInfo, passed: nat, before: seq<Value>) {
    passed == 1 && f.posNum >= 2 && |before| > 0 && before[0].Arr?
  }

  /** `{|a|}` and `{|a, *r|}` given one array take it whole, `{|a, b|}` takes it apart; two arguments, or one that is
      no array, are taken as they are. */
  lemma {:induction false} SpreadsExactly(f: FnInfo, passed: nat, before: seq<Value>)
    requires passed <= |before|
    ensures f.posNum == 0 || f.posNum == 1 ==> !Expands(f, passed, before)
    ensures f.posNum > 1 && passed == 1 ==> (Expands(f, passed, before) <==> before[0].Arr?)
    ensures passed == 0 || passed > 1 ==> !Expands(f, passed, before)
  {}

  /** The number of arguments after spreading, and the frame. */
  method ExpandArg0(frame: array<Value>, f: FnInfo, passed: nat) returns (n: nat)
    requires Expands(f, passed, frame[..]) ==> |frame[0].elems| <= frame.Length && f.reqNum <= frame.Length
    modifies frame
    ensures if !Expands(f, passed, old(frame[..])) then n == passed && frame[..] == old(frame[..])
            else var elems := old(frame[0].elems);
                 && n == (if |elems| < f.reqNum then f.reqNum else |elems|)
                 && forall i :: 0 <= i < frame.Length ==>
                      frame[i] == if i < |elems| then elems[i] else if i < f.reqNum then Nil else old(frame[i])
  {
    n := passed;
    if passed == 1 && f.posNum >= 2 && frame.Length > 0 && frame[0].Arr? {
      var elems := frame[0].elems;
      for i := 0 to |elems|
        invariant forall j :: 0 <= j < frame.Length ==> frame[j] == if j < i then elems[j] else old(frame[j])
      {
        frame[i] := elems[i];
      }
      n := |elems|;
      while n < f.reqNum
        invariant n <= frame.Length && |elems| <= n && (|elems| <= f.reqNum ==>
            n <= f.reqNum) && (|elems| > f.reqNum ==> n == |elems|)
        invariant forall j :: 0 <= j < frame.Length ==>
                    frame[j] == if j < |elems| then elems[j] else if j < n then Nil else old(frame[j])
        decreases f.reqNum - n
      {
        frame[n] := Nil;
        n := n + 1;
      }
    }
  }

  /** The interpreter's prologue up to the rest parameter: false is an arity error. */
  method VmInitArgs(frame: array<Value>, f: FnInfo, isBlock: bool, args: nat) returns (ok: bool)
    requires InfoOk(f) && args <= frame.Length && f.regNum <= frame.Length + 1
    modifies frame
    ensures ok == !ArityError(f, isBlock, args)
    ensures ok ==> forall i :: 0 <= i < frame.Length ==>
              frame[i] == if i < f.argNum then SlotAfter(f, args, Nil, old(frame[..]), i) else old(frame[i])
  {
    var passed := args;
    if passed > f.posNum {
      if !HasRest(f) {
        if !isBlock { return false; }
      } else {
        MakeRestArray(frame, f.posNum, passed - f.posNum);
      }
    } else {
      if passed < f.posNum {
        if passed < f.reqNum {
          if !isBlock { return false; }
          Fill(frame, f.reqNum, f.reqNum - passed, Nil);
          passed := f.reqNum;
        }
        Fill(frame, f.posNum, f.posNum - passed, Zero);
      }
      if HasRest(f) {
        MakeRestArray(frame, f.posNum, 0);
      }
    }
    ok := true;
  }

  /** The interpreter's prologue. */
  method VmInitFunc(frame: array<Value>, f: FnInfo, isBlock: bool, args: nat, block: Value) returns (ok: bool)
    requires InfoOk(f) && args <= frame.Length && f.regNum <= frame.Length + 1
    modifies frame
    ensures ok == !ArityError(f, isBlock, args)
    ensures ok ==> frame[..] == FrameAfter(f, args, block, old(frame[..]))
  {
    ghost var before := frame[..];
    ok := VmInitArgs(frame, f, isBlock, args);
    if !ok { return; }
    var r15 := f.regNum - 1;
    if r15 - f.argNum != 0 {
      Fill(frame, r15, r15 - f.argNum, Nil);
    }
    if f.blockPos != 0 {
      frame[f.blockPos - 1] := block;
    }
    forall i | 0 <= i < frame.Length ensures frame[i] == SlotAfter(f, args, block, before, i) {}
  }

  /** The compiled prologue. It has no code for a block parameter, and with no positional parameter none that
      looks at the number of arguments. */
  method JitInitFunc(frame: array<Value>, f: FnInfo, isBlock: bool, args: nat) returns (ok: bool)
    requires InfoOk(f) && args <= frame.Length && f.regNum <= frame.Length + 1
    modifies frame
    ensures ok == (f.posNum == 0 || !ArityError(f, isBlock, args))
    ensures ok ==> frame[..] == FrameAfter(f.(blockPos := 0), if f.posNum == 0 then 0 else args, Nil, old(frame[..]))
  {
    ghost var before := frame[..];
    var passed := args;
    var restDone := false;
    if f.posNum > 0 {
      if passed > f.posNum {
        if f.posNum == f.argNum {
          if !isBlock { return false; }
        } else {
          MakeRestArray(frame, f.posNum, passed - f.posNum);
        }
        restDone := true;
      } else if passed < f.posNum {
        if f.reqNum > 0 {
          if f.posNum == f.reqNum || passed < f.reqNum {
            if !isBlock { return false; }
            Fill(frame, f.reqNum, f.reqNum - passed, Nil);
            passed := f.reqNum;
          }
        }
        Fill(frame, f.posNum, f.posNum - passed, Zero);
      }
    }
    if !restDone && f.argNum != f.posNum {
      MakeRestArray(frame, f.posNum, 0);
    }
    ghost var ready := frame[..];
    var clearLen := f.regNum - f.argNum - 1;
    for i := 0 to clearLen
      invariant forall j :: 0 <= j < frame.Length ==> frame[j] == if f.argNum <= j < f.argNum + i then Nil else ready[j]
    {
      frame[f.argNum + i] := Nil;
    }
    ok := true;
    forall i | 0 <= i < frame.Length
      ensures frame[i] == SlotAfter(f.(blockPos := 0), if f.posNum == 0 then 0 else args, Nil, before, i)
    {}
  }

  /** When the compiled prologue does what the interpreter's does: unless there is no positional parameter
      and the arguments would have been rejected or gathered, or there is a block parameter and a block. */
  predicate PrologueAgrees(f: FnInfo, isBlock: bool, passed: nat, block: Value) {
    && (f.posNum > 0 || passed == 0 || (isBlock && !HasRest(f)))
    && (f.blockPos == 0 || block == Nil || ArityError(f, isBlock, passed))
  }

  function VmResult(f: FnInfo, isBlock: bool, passed: nat, block: Value, before: seq<Value>): (r: (bool, seq<Value>))
    requires passed <= |before|
  {
    if ArityError(f, isBlock, passed) then (false, []) else (true, FrameAfter(f, passed, block, before))
  }

  function JitResult(f: FnInfo, isBlock: bool, passed: nat, before: seq<Value>): (r: (bool, seq<Value>))
    requires passed <= |before|
  {
    if f.posNum > 0 && ArityError(f, isBlock, passed) then (false, [])
    else (true, FrameAfter(f.(blockPos := 0), if f.posNum == 0 then 0 else passed, Nil, before))
  }

  lemma {:induction false} ProloguesAgreeExactly(
      f: FnInfo, isBlock: bool, passed: nat, block: Value, before: seq<Value>)
    requires InfoOk(f) && passed <= |before| && f.regNum <= |before| + 1
    ensures VmResult(f, isBlock, passed, block, before) == JitResult(f, isBlock, passed, before)
            <==> PrologueAgrees(f, isBlock, passed, block)
  {
    hide FrameAfter;
    var (vm, jit) := (VmResult(f, isBlock, passed, block, before), JitResult(f, isBlock, passed, before));
    if vm.0 && jit.0 {
      var n := if f.posNum == 0 then 0 else passed;
      forall i: nat | i < |before|
        ensures vm.1[i] == SlotAfter(f, passed, block, before, i)
            && jit.1[i] == SlotAfter(f.(blockPos := 0), n, Nil, before, i)
      {
        SlotIs(f, passed, block, before, i);
        SlotIs(f.(blockPos := 0), n, Nil, before, i);
      }
      if f.blockPos > 0 && block != Nil {
        assert vm.1[f.blockPos - 1] != jit.1[f.blockPos - 1];
      } else if f.posNum == 0 && passed > 0 && HasRest(f) {
        assert |before[0..passed]| > 0;
        assert vm.1[0] != jit.1[0];
      } else {
        assert vm.1 == jit.1;
      }
    }
  }

  lemma {:induction false} SlotIs(f: FnInfo, passed: nat, block: Value, before: seq<Value>, i: nat)
    requires passed <= |before| && i < |before|
    ensures FrameAfter(f, passed, block, before)[i] == SlotAfter(f, passed, block, before, i)
  {}

  /** Three calls for which they part. `def f; end` called with an argument: an error, or none. `def f(*a); end`
      called with an argument: the array of it, or an empty one. `def f(&b); end` called with a block: the block, or
      nil. */
  lemma {:induction false} ProloguesPart(block: Value, before: seq<Value>)
    requires |before| > 0 && block != Nil
    ensures var none := FnInfo(1, 0, 0, 0, 0);
            !VmResult(none, false, 1, block, before).0 && JitResult(none, false, 1, before).0
    ensures var rest := FnInfo(2, 1, 0, 0, 0);
            && VmResult(rest, false, 1, block, before) == (true, before[0 := Arr([before[0]])])
            && JitResult(rest, false, 1, before) == (true, before[0 := Arr([])])
    ensures var blk := FnInfo(2, 0, 0, 0, 1);
            && VmResult(blk, false, 0, block, before) == (true, before[0 := block])
            && JitResult(blk, false, 0, before) == (true, before[0 := Nil])
  {
    assert before[0..1] == [before[0]];
    assert FrameAfter(FnInfo(2, 1, 0, 0, 0), 1, block, before) == before[0 := Arr([before[0]])];
    assert FrameAfter(FnInfo(2, 1, 0, 0, 0), 0, Nil, before) == before[0 := Arr([])];
    assert FrameAfter(FnInfo(2, 0, 0, 0, 1), 0, block, before) == before[0 := block];
    assert FrameAfter(FnInfo(2, 0, 0, 0, 0), 0, Nil, before) == before[0 := Nil];
  }
}
