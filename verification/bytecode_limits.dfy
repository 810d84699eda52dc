/** Where the compiled meaning of an expression is not the source's. */
module BytecodeLimits {
  import opened Prelude
  import opened RubyCore
  import opened RegisterMachine
  import opened BytecodeSpec
  import opened CompiledCore
  import opened BytecodeProof

  /** `x + r`, with r compiled faithfully: it is compiled faithfully exactly if r does not come to an end, or leaves
      x with its old value. */
  lemma {:induction false} LateReadExactly(rt: Runtime, e: Expr, into: Option<Local>, s: Store, fuel: nat)
    requires (e.Bin? || e.Cmp?) && e.lhs.LocalVar?
    requires EvalAs(rt, e.rhs, None, s, fuel) == Eval(rt, e.rhs, s, fuel)
    ensures var right := Eval(rt, e.rhs, s, fuel);
            EvalAs(rt, e, into, s, fuel) == Eval(rt, e, s, fuel)
            <==> !right.Done? || Peek(right.s.env, e.lhs.x) == Peek(s.env, e.lhs.x)
  {
    hide Eval; hide EvalAs;
    OperatorMeanings(rt, e, into, s, fuel);
    LocalMeaning(rt, e.lhs, s, fuel);
    var right := Eval(rt, e.rhs, s, fuel);
    if right.Done? {
      var (late, early) := (CallOf(e, Peek(right.s.env, e.lhs.x), right.v), CallOf(e, Peek(s.env, e.lhs.x), right.v));
      assert (right.s.hist + [late])[|right.s.hist|] == late && (right.s.hist + [early])[|right.s.hist|] == early;
    }
  }

  /** What the compiler makes of `x = l && r` and `x = l || r`. */
  function StoredTwice(e: Expr): Expr
    requires e.Assign? && (e.e.And? || e.e.Or?)
  {
    var (l, r) := (Assign(e.x, e.e.lhs), Assign(e.x, e.e.rhs));
    if e.e.And? then And(l, r) else Or(l, r)
  }

  /** Wherever it stands and whatever its sides are, `x = l && r` is compiled as `(x = l) && (x = r)`; and likewise
      for `||`. */
  lemma {:induction false} LogicStoresTwice(rt: Runtime, e: Expr, s: Store, fuel: nat)
    requires e.Assign? && (e.e.And? || e.e.Or?)
    ensures EvalAs(rt, e, None, s, fuel) == EvalAs(rt, StoredTwice(e), None, s, fuel)
  {
    hide EvalAs; hide Eval;
    var (x, l, r) := (Some(e.x), Assign(e.x, e.e.lhs), Assign(e.x, e.e.rhs));
    SimpleMeanings(rt, e, None, s, fuel);
    LogicMeanings(rt, e.e, x, s, fuel);
    LogicMeanings(rt, StoredTwice(e), None, s, fuel);
    SimpleMeanings(rt, l, None, s, fuel);
    var out := EvalAs(rt, e.e.lhs, x, s, fuel);
    if out.Done? { SimpleMeanings(rt, r, None, Early(out.s, x, out.v), fuel); }
  }

  /** `x = l && r`, with both sides compiled faithfully into x: it is compiled faithfully exactly if l does not come
      to an end, or settles it, or r comes to the same, up to x, when x already holds l's value. */
  lemma {:induction false} EarlyWriteExactly(rt: Runtime, e: Expr, s: Store, fuel: nat)
    requires e.Assign? && (e.e.And? || e.e.Or?)
    requires Alike(Eval(rt, e.e.lhs, s, fuel), EvalAs(rt, e.e.lhs, Some(e.x), s, fuel), Some(e.x))
    requires var left := Eval(rt, e.e.lhs, s, fuel);
             left.Done? ==>
               var early := Early(left.s, Some(e.x), left.v);
               Alike(Eval(rt, e.e.rhs, early, fuel), EvalAs(rt, e.e.rhs, Some(e.x), early, fuel), Some(e.x))
    ensures var left := Eval(rt, e.e.lhs, s, fuel);
            EvalAs(rt, e, None, s, fuel) == Eval(rt, e, s, fuel)
            <==> !left.Done? || Truthy(left.v) != e.e.And?
                 || SameOnceWritten(Eval(rt, e.e.rhs, left.s, fuel),
                                    Eval(rt, e.e.rhs, Early(left.s, Some(e.x), left.v), fuel), e.x)
  {
    hide EvalAs; hide Eval; hide OutcomesMatch;
    var x := Some(e.x);
    SimpleMeanings(rt, e, None, s, fuel);
    LogicMeanings(rt, e.e, x, s, fuel);
    var (a, b) := (Eval(rt, e.e.lhs, s, fuel), EvalAs(rt, e.e.lhs, x, s, fuel));
    MatchingOnceWritten(a, b, e.x);
    if a.Done? && Truthy(a.v) == e.e.And? {
      var early := Early(a.s, x, a.v);
      MatchingOnceWritten(Eval(rt, e.e.rhs, early, fuel), EvalAs(rt, e.e.rhs, x, early, fuel), e.x);
    }
  }

  /** The same outcome, once the value has been written to x. */
  predicate SameOnceWritten(a: Outcome, b: Outcome, x: Local) {
    Written(a, x) == Written(b, x)
  }

  function Written(a: Outcome, x: Local): Outcome {
    if a.Done? then Done(a.v, Early(a.s, Some(x), a.v)) else a
  }

  lemma {:induction false} MatchingOnceWritten(a: Outcome, b: Outcome, x: Local)
    requires OutcomesMatch(a, b, x)
    ensures SameOnceWritten(a, b, x) && (a.Done? <==> b.Done?)
    ensures a.Done? ==> a.v == b.v && Early(a.s, Some(x), a.v) == Early(b.s, Some(x), b.v)
  {
    if a.Done? { assert Poke(a.s.env, x, a.v) == Poke(b.s.env, x, b.v); }
  }

  /** In particular `x = l && x`: exactly if l settles it or x already holds what l comes to. */
  lemma {:induction false} SelfLogicExactly(rt: Runtime, e: Expr, s: Store, fuel: nat)
    requires e.Assign? && (e.e.And? || e.e.Or?) && e.e.rhs == LocalVar(e.x) && e.x < |s.env|
    requires Plain(e.e.lhs) && StoreSafe(e.x, e.e.lhs)
    ensures var left := Eval(rt, e.e.lhs, s, fuel);
            EvalAs(rt, e, None, s, fuel) == Eval(rt, e, s, fuel)
            <==> !left.Done? || Truthy(left.v) != e.e.And? || Peek(left.s.env, e.x) == left.v
  {
    hide EvalAs; hide Eval; hide Plain; hide StoreSafe;
    AsWritten(rt, e.e.lhs, Some(e.x), s, fuel);
    EvalKeeps(rt, e.e.lhs, s, fuel);
    var left := Eval(rt, e.e.lhs, s, fuel);
    if left.Done? {
      var early := Early(left.s, Some(e.x), left.v);
      LocalMeaning(rt, e.e.rhs, left.s, fuel);
      LocalMeaning(rt, e.e.rhs, early, fuel);
      SimpleMeanings(rt, e.e.rhs, Some(e.x), early, fuel);
      SelfAlike(Eval(rt, e.e.rhs, early, fuel), Some(e.x));
    }
    EarlyWriteExactly(rt, e, s, fuel);
  }

  /** The operand of b besides x. */
  function OtherOperand(b: Expr, x: Local): Expr
    requires b.Bin? || b.Cmp?
  {
    if b.lhs == LocalVar(x) then b.rhs else b.lhs
  }

  /** An operator with x as one operand, and another that has nothing to do with x. */
  predicate OperatesOn(b: Expr, x: Local) {
    && (b.Bin? || b.Cmp?) && (b.lhs == LocalVar(x) || b.rhs == LocalVar(x))
    && x !in Reads(OtherOperand(b, x)) && x !in Assigned(OtherOperand(b, x))
  }

  /** Its operator is called with what x held at the start. */
  lemma {:induction false} OperatorSeesLocal(rt: Runtime, b: Expr, x: Local, s: Store, fuel: nat)
    requires OperatesOn(b, x) && x < |s.env|
    ensures var out := Eval(rt, OtherOperand(b, x), s, fuel);
            Eval(rt, b, s, fuel) ==
            if !out.Done? then out
            else Call(rt, out.s, if b.lhs == LocalVar(x) then CallOf(b, s.env[x], out.v)
                else CallOf(b, out.v, s.env[x]))
  {
    hide Eval; hide Call; hide CallOf;
    OperatorMeanings(rt, b, None, s, fuel);
    var out := Eval(rt, OtherOperand(b, x), s, fuel);
    EvalKeeps(rt, OtherOperand(b, x), s, fuel);
    LocalMeaning(rt, LocalVar(x), s, fuel);
    if out.Done? { LocalMeaning(rt, LocalVar(x), out.s, fuel); }
  }

  /** And `x = l && x op r`, whose call shows what x held: exactly if l settles it, or x already holds what l comes to,
      or r does not come to an end. */
  lemma {:induction false} OperandLogicExactly(rt: Runtime, e: Expr, s: Store, fuel: nat)
    requires e.Assign? && (e.e.And? || e.e.Or?) && OperatesOn(e.e.rhs, e.x) && e.x < |s.env|
    requires Plain(e.e.lhs) && StoreSafe(e.x, e.e.lhs) && Plain(e.e.rhs)
    ensures var left := Eval(rt, e.e.lhs, s, fuel);
            EvalAs(rt, e, None, s, fuel) == Eval(rt, e, s, fuel)
            <==> !left.Done? || Truthy(left.v) != e.e.And? || Peek(left.s.env, e.x) == left.v
                 || !Eval(rt, OtherOperand(e.e.rhs, e.x), left.s, fuel).Done?
  {
    hide EvalAs; hide Eval; hide Plain; hide StoreSafe; hide Call; hide OperatesOn;
    var (x, b) := (e.x, e.e.rhs);
    AsWritten(rt, e.e.lhs, Some(x), s, fuel);
    EvalKeeps(rt, e.e.lhs, s, fuel);
    var left := Eval(rt, e.e.lhs, s, fuel);
    if left.Done? {
      var early := Early(left.s, Some(x), left.v);
      assert StoreSafe(x, b) by { OperatorIsSafe(b, x); }
      AsWritten(rt, b, Some(x), early, fuel);
      CallsTell(rt, b, x, left, fuel);
    }
    EarlyWriteExactly(rt, e, s, fuel);
  }

  lemma {:induction false} OperatorIsSafe(b: Expr, x: Local)
    requires OperatesOn(b, x)
    ensures StoreSafe(x, b)
  {}

  /** Whether x holds the left side's value already makes the whole difference. */
  lemma {:induction false} CallsTell(rt: Runtime, b: Expr, x: Local, left: Outcome, fuel: nat)
    requires OperatesOn(b, x) && left.Done? && x < |left.s.env|
    ensures var early := Early(left.s, Some(x), left.v);
            SameOnceWritten(Eval(rt, b, left.s, fuel), Eval(rt, b, early, fuel), x)
            <==> left.s.env[x] == left.v || !Eval(rt, OtherOperand(b, x), left.s, fuel).Done?
  {
    hide Eval;
    var (s, early) := (left.s, Early(left.s, Some(x), left.v));
    OperatorSeesLocal(rt, b, x, s, fuel);
    OperatorSeesLocal(rt, b, x, early, fuel);
    EvalIgnores(rt, OtherOperand(b, x), s, early, x, fuel);
    var (a, c) := (Eval(rt, OtherOperand(b, x), s, fuel), Eval(rt, OtherOperand(b, x), early, fuel));
    if a.Done? && s.env[x] != left.v {
      LastCall(rt, a.s, if b.lhs == LocalVar(x) then CallOf(b, s.env[x], a.v) else CallOf(b, a.v, s.env[x]), x);
      LastCall(rt, c.s, if b.lhs == LocalVar(x) then CallOf(b, left.v, c.v) else CallOf(b, c.v, left.v), x);
    } else if s.env[x] == left.v {
      assert early.env == s.env;
    }
  }

  function HistoryOf(out: Outcome): History
    requires !out.NoFuel?
  {
    if out.Done? then out.s.hist else out.hist
  }

  lemma {:induction false} LastCall(rt: Runtime, s: Store, event: Event, x: Local)
    ensures var out := Written(Call(rt, s, event), x);
            !out.NoFuel? && |HistoryOf(out)| > 0 && HistoryOf(out)[|HistoryOf(out)| - 1] == event
  {}

  // ----- two inputs -----

  /** `a + (a = 5)`: the program reads the local after the assignment. */
  lemma {:induction false} LateOperandReadIsWrong(rt: Runtime)
    requires rt([CallBin(Add, Int(1), Int(5))]) == Some(Int(6))
    requires rt([CallBin(Add, Int(5), Int(5))]) == Some(Int(10))
    ensures var (e, f) := (Bin(Add, LocalVar(0), Assign(0, IntLit(5))), Frame([Int(1)], map[]));
            && EvaluatesTo(rt, e, Store(f.locals, []), Done(Int(6), Store([Int(5)], [CallBin(Add, Int(1), Int(5))])))
            && RunsTo(rt, Code(e, Use, 0), At(0, f, []), Done(Int(10), Store([Int(5)], [CallBin(Add, Int(5), Int(5))])))
  {
    hide Code; hide Eval; hide EvalAs; hide RunsTo; hide EvaluatesTo; hide ComesTo;
    var (e, f) := (Bin(Add, LocalVar(0), Assign(0, IntLit(5))), Frame([Int(1)], map[]));
    var none: History := [];
    var s := Store(f.locals, none);
    assert Poke([Int(1)], 0, Int(5)) == [Int(5)];
    assert none + [CallBin(Add, Int(1), Int(5))] == [CallBin(Add, Int(1), Int(5))];
    assert none + [CallBin(Add, Int(5), Int(5))] == [CallBin(Add, Int(5), Int(5))];
    AssignFive(rt, s);
    OperatorMeanings(rt, e, None, s, 0);
    LocalMeaning(rt, e.lhs, s, 0);
    SourceFound(rt, e, s, Done(Int(6), Store([Int(5)], [CallBin(Add, Int(1), Int(5))])), 0);
    OutcomeFound(rt, e, s, Done(Int(10), Store([Int(5)], [CallBin(Add, Int(5), Int(5))])), 0);
    ProgramComesTo(rt, e, f, Done(Int(10), Store([Int(5)], [CallBin(Add, Int(5), Int(5))])));
  }

  lemma {:induction false} AssignFive(rt: Runtime, s: Store)
    ensures var a := Assign(0, IntLit(5));
            Eval(rt, a, s, 0) == EvalAs(rt, a, None, s, 0) == Done(Int(5), s.(env := Poke(s.env, 0, Int(5))))
  {}

  lemma {:induction false} SourceFound(rt: Runtime, e: Expr, s: Store, out: Outcome, fuel: nat)
    requires Eval(rt, e, s, fuel) == out && !out.NoFuel?
    ensures EvaluatesTo(rt, e, s, out)
  {
    hide Eval;
  }

  /** `x = 1 && x`: the right side reads the left side's value, not the old one. */
  lemma {:induction false} EarlyLogicWriteIsWrong(rt: Runtime)
    ensures var (e, f) := (Assign(0, And(IntLit(1), LocalVar(0))), Frame([Int(7)], map[]));
            && EvaluatesTo(rt, e, Store(f.locals, []), Done(Int(7), Store([Int(7)], [])))
            && RunsTo(rt, Code(e, Use, 0), At(0, f, []), Done(Int(1), Store([Int(1)], [])))
  {
    hide Code; hide RunsTo; hide EvaluatesTo; hide ComesTo;
    var (e, f) := (Assign(0, And(IntLit(1), LocalVar(0))), Frame([Int(7)], map[]));
    var s := Store(f.locals, []);
    OneAndSelf(rt, s);
    SourceFound(rt, e, s, Done(Int(7), Store([Int(7)], [])), 0);
    OutcomeFound(rt, e, s, Done(Int(1), Store([Int(1)], [])), 0);
    ProgramComesTo(rt, e, f, Done(Int(1), Store([Int(1)], [])));
  }

  lemma {:induction false} OneAndSelf(rt: Runtime, s: Store)
    requires s == Store([Int(7)], [])
    ensures var e := Assign(0, And(IntLit(1), LocalVar(0)));
            && Eval(rt, e, s, 0) == Done(Int(7), Store([Int(7)], []))
            && EvalAs(rt, e, None, s, 0) == Done(Int(1), Store([Int(1)], []))
  {
    assert Poke([Int(7)], 0, Int(7)) == [Int(7)] && Poke([Int(7)], 0, Int(1)) == [Int(1)];
    assert Poke([Int(1)], 0, Int(1)) == [Int(1)];
  }
}
