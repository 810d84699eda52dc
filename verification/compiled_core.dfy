/** The meaning that compiled code has. It differs from the source's meaning in two ways: an operand that is a local is
    read when the operator runs, after the other operand; and the left side of an `&&` or `||` that goes
    straight into a local is written there before the right side runs. */
module CompiledCore {
  import opened Prelude
  import opened RubyCore

  function Early(s: Store, into: Option<Local>, v: Value): Store {
    if into.Some? then s.(env := Poke(s.env, into.value, v)) else s
  }

  /** Evaluates e on its way into a local, if `into` says so. The store is the one before the value is written. */
  function EvalAs(rt: Runtime, e: Expr, into: Option<Local>, s: Store, fuel: nat): Outcome
    decreases fuel, e, 1
  {
    match e
    case NilLit => Done(Nil, s)
    case BoolLit(b) => Done(Bool(b), s)
    case IntLit(i) => Done(Int(i), s)
    case LocalVar(x) => Done(Peek(s.env, x), s)
    case Neg(e1) =>
      (match EvalAs(rt, e1, into, s, fuel)
       case Done(v, s1) => Negate(rt, s1, v)
       case out => out)
    case Bin(op, l, r) =>
      (match OperandsAs(rt, e, s, fuel)
       case (Done(w, s1), v) => Call(rt, s1, CallBin(op, v, w))
       case (out, _) => out)
    case Cmp(k, l, r) =>
      (match OperandsAs(rt, e, s, fuel)
       case (Done(w, s1), v) => Call(rt, s1, CallCmp(k, v, w))
       case (out, _) => out)
    case And(l, r) =>
      (match EvalAs(rt, l, into, s, fuel)
       case Done(v, s1) => if Truthy(v) then EvalAs(rt, r, into, Early(s1, into, v), fuel) else Done(v, s1)
       case out => out)
    case Or(l, r) =>
      (match EvalAs(rt, l, into, s, fuel)
       case Done(v, s1) => if Truthy(v) then Done(v, s1) else EvalAs(rt, r, into, Early(s1, into, v), fuel)
       case out => out)
    case If(c, t, f) =>
      (match EvalAs(rt, c, None, s, fuel)
       case Done(v, s1) => EvalAs(rt, if Truthy(v) then t else f, None, s1, fuel)
       case out => out)
    case While(c, b, op) =>
      if fuel == 0 then NoFuel
      else (match EvalAs(rt, c, None, s, fuel)
            case Done(v, s1) =>
              if Truthy(v) != op then Done(Nil, s1)
              else (match EvalAs(rt, b, None, s1, fuel)
                    case Done(_, s2) => EvalAs(rt, e, None, s2, fuel - 1)
                    case out => out)
            case out => out)
    case DoWhile(c, b, op) =>
      if fuel == 0 then NoFuel
      else (match EvalAs(rt, b, None, s, fuel)
            case Done(_, s1) =>
              (match EvalAs(rt, c, None, s1, fuel)
               case Done(v, s2) => if Truthy(v) == op then EvalAs(rt, e, None, s2, fuel - 1) else Done(Nil, s2)
               case out => out)
            case out => out)
    case Stmts(es) => EvalStmtsAs(rt, es, into, s, fuel)
    case Assign(x, e1) =>
      (match EvalAs(rt, e1, Some(x), s, fuel)
       case Done(v, s1) => Done(v, s1.(env := Poke(s1.env, x, v)))
       case out => out)
    case MulAssign(xs, es) =>
      (match EvalAllAs(rt, es, s, fuel)
       case DoneAll(vs, s1) => Done(Array(vs), s1.(env := PokeAll(s1.env, xs, vs)))
       case RaiseAll(h) => Raise(h)
       case NoFuelAll => NoFuel)
  }

  /** The outcome of an operator's right operand, and the left operand's value as the operator reads it. */
  function OperandsAs(rt: Runtime, e: Expr, s: Store, fuel: nat): (Outcome, Value)
    requires e.Bin? || e.Cmp?
    decreases fuel, e, 0
  {
    if e.lhs.LocalVar? then
      var out := EvalAs(rt, e.rhs, None, s, fuel);
      (out, if out.Done? then Peek(out.s.env, e.lhs.x) else Nil)
    else
      match EvalAs(rt, e.lhs, None, s, fuel)
      case Done(v, s1) => (EvalAs(rt, e.rhs, None, s1, fuel), v)
      case out => (out, Nil)
  }

  function EvalStmtsAs(rt: Runtime, es: seq<Expr>, into: Option<Local>, s: Store, fuel: nat): Outcome
    decreases fuel, es, 0
  {
    if es == [] then Done(Nil, s)
    else if |es| == 1 then EvalAs(rt, es[0], into, s, fuel)
    else match EvalAs(rt, es[0], None, s, fuel)
      case Done(_, s1) => EvalStmtsAs(rt, es[1..], into, s1, fuel)
      case out => out
  }

  function EvalAllAs(rt: Runtime, es: seq<Expr>, s: Store, fuel: nat): (out: Outcomes)
    ensures out.DoneAll? ==> |out.vs| == |es|
    decreases fuel, es, 0
  {
    if es == [] then DoneAll([], s)
    else match EvalAs(rt, es[0], None, s, fuel)
      case Raise(h) => RaiseAll(h)
      case NoFuel => NoFuelAll
      case Done(v, s1) =>
        match EvalAllAs(rt, es[1..], s1, fuel)
        case DoneAll(vs, s2) => DoneAll([v] + vs, s2)
        case out => out
  }

  // ----- when compiled code means what the source means -----

  /** A local operand is not assigned by the other operand, and a local that an `&&` or `||` goes straight into
      is not read by its right side. */
  predicate Plain(e: Expr)
    decreases e, 1
  {
    match e
    case Neg(e1) => Plain(e1)
    case Bin(_, l, r) => Plain(l) && Plain(r) && (l.LocalVar? ==> l.x !in Assigned(r))
    case Cmp(_, l, r) => Plain(l) && Plain(r) && (l.LocalVar? ==> l.x !in Assigned(r))
    case And(l, r) => Plain(l) && Plain(r)
    case Or(l, r) => Plain(l) && Plain(r)
    case If(c, a, b) => Plain(c) && Plain(a) && Plain(b)
    case While(c, b, _) => Plain(c) && Plain(b)
    case DoWhile(c, b, _) => Plain(c) && Plain(b)
    case Stmts(es) => PlainAll(es)
    case Assign(x, e1) => Plain(e1) && StoreSafe(x, e1)
    case MulAssign(_, es) => PlainAll(es)
    case _ => true
  }

  predicate PlainAll(es: seq<Expr>)
    decreases es, 0
  {
    es != [] ==> Plain(es[0]) && PlainAll(es[1..])
  }

  /** The right side of an `&&` or `||` that goes straight into local x does not read x, which already
      holds the left side's value; unless the left side is x itself. */
  predicate StoreSafe(x: Local, e: Expr)
    decreases e
  {
    match e
    case And(l, r) => StoreSafe(x, l) && StoreSafe(x, r) && (l == LocalVar(x) || x !in Reads(r))
    case Or(l, r) => StoreSafe(x, l) && StoreSafe(x, r) && (l == LocalVar(x) || x !in Reads(r))
    case Neg(e1) => StoreSafe(x, e1)
    case Stmts(es) => es != [] ==> StoreSafe(x, es[|es| - 1])
    case _ => true
  }

  predicate Safe(into: Option<Local>, e: Expr) {
    into.Some? ==> StoreSafe(into.value, e)
  }

  /** The same, but for what the local that is about to be written holds. */
  ghost predicate Alike(a: Outcome, b: Outcome, into: Option<Local>) {
    if into.Some? then OutcomesMatch(a, b, into.value) else a == b
  }

  lemma {:induction false} AlikeTrans(a: Outcome, b: Outcome, c: Outcome, into: Option<Local>)
    requires Alike(a, b, into) && Alike(b, c, into)
    ensures Alike(a, c, into)
  {}

  lemma {:induction false} SelfAlike(a: Outcome, into: Option<Local>)
    ensures Alike(a, a, into)
  {}

  /** For plain expressions compiled code means what the source means. */
  lemma {:induction false} AsWritten(rt: Runtime, e: Expr, into: Option<Local>, s: Store, fuel: nat)
    requires Plain(e) && Safe(into, e)
    ensures Alike(Eval(rt, e, s, fuel), EvalAs(rt, e, into, s, fuel), into)
    decreases fuel, e, 2
  {
    hide Eval; hide EvalAs; hide Plain; hide StoreSafe; hide Alike;
    PlainParts(e);
    if e.Bin? || e.Cmp? {
      OperandsAsWritten(rt, e, s, fuel);
      OperatorMeanings(rt, e, into, s, fuel);
      SelfAlike(Eval(rt, e, s, fuel), into);
    } else if e.And? || e.Or? {
      LogicAsWritten(rt, e, into, s, fuel);
    } else if e.While? || e.DoWhile? || e.If? {
      BranchAsWritten(rt, e, into, s, fuel);
    } else if e.Stmts? {
      SafeParts(into, e);
      StmtsAsWritten(rt, e.es, into, s, fuel);
      SimpleMeanings(rt, e, into, s, fuel);
    } else if e.MulAssign? {
      AllAsWritten(rt, e.es, s, fuel);
      SimpleMeanings(rt, e, into, s, fuel);
      SelfAlike(Eval(rt, e, s, fuel), into);
    } else if e.Assign? {
      AsWritten(rt, e.e, Some(e.x), s, fuel);
      SimpleMeanings(rt, e, into, s, fuel);
      AssignAlike(rt, e, into, s, fuel);
    } else if e.Neg? {
      SafeParts(into, e);
      AsWritten(rt, e.e, into, s, fuel);
      SimpleMeanings(rt, e, into, s, fuel);
      NegAlike(rt, e, into, s, fuel);
    } else {
      SimpleMeanings(rt, e, into, s, fuel);
      SelfAlike(Eval(rt, e, s, fuel), into);
    }
  }

  lemma {:induction false} PlainParts(e: Expr)
    requires Plain(e)
    ensures e.Bin? || e.Cmp? || e.And? || e.Or? ==> Plain(e.lhs) && Plain(e.rhs)
    ensures (e.Bin? || e.Cmp?) && e.lhs.LocalVar? ==> e.lhs.x !in Assigned(e.rhs)
    ensures e.Neg? || e.Assign? ==> Plain(e.e)
    ensures e.Assign? ==> StoreSafe(e.x, e.e)
    ensures e.If? ==> Plain(e.cond) && Plain(e.then_) && Plain(e.else_)
    ensures e.While? || e.DoWhile? ==> Plain(e.cond) && Plain(e.body)
    ensures e.Stmts? || e.MulAssign? ==> PlainAll(e.es)
  {
    hide StoreSafe; hide Assigned;
  }

  lemma {:induction false} SafeParts(into: Option<Local>, e: Expr)
    requires Safe(into, e)
    ensures e.And? || e.Or? ==> Safe(into, e.lhs) && Safe(into, e.rhs)
    ensures (e.And? || e.Or?) && into.Some? ==> e.lhs == LocalVar(into.value) || into.value !in Reads(e.rhs)
    ensures e.Neg? ==> Safe(into, e.e)
    ensures e.Stmts? && e.es != [] ==> Safe(into, e.es[|e.es| - 1])
  {
    hide Reads;
  }

  lemma {:induction false} OperatorMeanings(rt: Runtime, e: Expr, into: Option<Local>, s: Store, fuel: nat)
    requires e.Bin? || e.Cmp?
    ensures var out := Eval(rt, e.lhs, s, fuel);
            Eval(rt, e, s, fuel) ==
            if !out.Done? then out
            else var out2 := Eval(rt, e.rhs, out.s, fuel);
                 if out2.Done? then Call(rt, out2.s, CallOf(e, out.v, out2.v)) else out2
    ensures var (out, v) := OperandsAs(rt, e, s, fuel);
            EvalAs(rt, e, into, s, fuel) == if out.Done? then Call(rt, out.s, CallOf(e, v, out.v)) else out
  {
    hide OperandsAs;
  }

  function CallOf(e: Expr, v: Value, w: Value): Event
    requires e.Bin? || e.Cmp?
  {
    if e.Cmp? then CallCmp(e.kind, v, w) else CallBin(e.op, v, w)
  }

  lemma {:induction false} OperandsAsWritten(rt: Runtime, e: Expr, s: Store, fuel: nat)
    requires (e.Bin? || e.Cmp?) && Plain(e.lhs) && Plain(e.rhs) && (e.lhs.LocalVar? ==> e.lhs.x !in Assigned(e.rhs))
    ensures var first := Eval(rt, e.lhs, s, fuel);
            var (out, v) := OperandsAs(rt, e, s, fuel);
            if first.Done? then out == Eval(rt, e.rhs, first.s, fuel) && (out.Done? ==> v == first.v) else out == first
    decreases fuel, e, 0
  {
    hide Eval; hide EvalAs; hide Plain; hide StoreSafe; hide Assigned;
    AsWritten(rt, e.lhs, None, s, fuel);
    var first := Eval(rt, e.lhs, s, fuel);
    if first.Done? {
      AsWritten(rt, e.rhs, None, first.s, fuel);
      if e.lhs.LocalVar? {
        LocalMeaning(rt, e.lhs, s, fuel);
        EvalKeeps(rt, e.rhs, s, fuel);
        UnassignedStays(rt, e.rhs, e.lhs.x, s, fuel);
      }
    } else {
      if e.lhs.LocalVar? { LocalMeaning(rt, e.lhs, s, fuel); }
    }
  }

  lemma {:induction false} LocalMeaning(rt: Runtime, e: Expr, s: Store, fuel: nat)
    requires e.LocalVar?
    ensures Eval(rt, e, s, fuel) == Done(Peek(s.env, e.x), s)
  {}

  lemma {:induction false} UnassignedStays(rt: Runtime, e: Expr, x: Local, s: Store, fuel: nat)
    requires x !in Assigned(e)
    ensures var out := Eval(rt, e, s, fuel); out.Done? ==> Peek(out.s.env, x) == Peek(s.env, x)
  {
    hide Eval; hide Assigned;
    EvalKeeps(rt, e, s, fuel);
  }

  lemma {:induction false} LogicMeanings(rt: Runtime, e: Expr, into: Option<Local>, s: Store, fuel: nat)
    requires e.And? || e.Or?
    ensures var out := Eval(rt, e.lhs, s, fuel);
            Eval(rt, e, s, fuel) == if out.Done? && Truthy(out.v) == e.And? then Eval(rt, e.rhs, out.s, fuel) else out
    ensures var out := EvalAs(rt, e.lhs, into, s, fuel);
            EvalAs(rt, e, into, s, fuel) ==
            if out.Done? && Truthy(out.v) == e.And? then EvalAs(rt, e.rhs, into, Early(out.s, into, out.v), fuel)
                else out
  {}

  lemma {:induction false} LogicAsWritten(rt: Runtime, e: Expr, into: Option<Local>, s: Store, fuel: nat)
    requires (e.And? || e.Or?) && Plain(e.lhs) && Plain(e.rhs) && Safe(into, e)
    ensures Alike(Eval(rt, e, s, fuel), EvalAs(rt, e, into, s, fuel), into)
    decreases fuel, e, 1
  {
    hide Eval; hide EvalAs; hide Plain; hide StoreSafe; hide Reads;
    LogicMeanings(rt, e, into, s, fuel);
    SafeParts(into, e);
    AsWritten(rt, e.lhs, into, s, fuel);
    var (a, b) := (Eval(rt, e.lhs, s, fuel), EvalAs(rt, e.lhs, into, s, fuel));
    if a.Done? && Truthy(a.v) == e.And? {
      var early := Early(b.s, into, b.v);
      AsWritten(rt, e.rhs, into, early, fuel);
      if into.Some? {
        EarlyIsIgnored(rt, e, into.value, a, early, s, fuel);
        AlikeTrans(Eval(rt, e.rhs, a.s, fuel), Eval(rt, e.rhs, early, fuel), EvalAs(rt, e.rhs, into, early, fuel),
            into);
      }
    }
  }

  /** The right side comes to the same, up to x, whether or not x already holds the left side's value. */
  lemma {:induction false} EarlyIsIgnored(rt: Runtime, e: Expr, x: Local, a: Outcome, early: Store, s: Store, fuel: nat)
    requires (e.And? || e.Or?) && (e.lhs == LocalVar(x) || x !in Reads(e.rhs))
    requires a == Eval(rt, e.lhs, s, fuel) && a.Done? && early.hist == a.s.hist
    requires |early.env| == |a.s.env| && (forall y: Local :: y < |a.s.env| && y != x ==> early.env[y] == a.s.env[y])
    requires x < |early.env| ==> early.env[x] == a.v
    ensures OutcomesMatch(Eval(rt, e.rhs, a.s, fuel), Eval(rt, e.rhs, early, fuel), x)
  {
    hide Eval; hide Reads;
    if e.lhs == LocalVar(x) {
      LocalMeaning(rt, e.lhs, s, fuel);
      assert early.env == a.s.env;
      assert early == a.s;
      MatchSelf(Eval(rt, e.rhs, a.s, fuel), x);
    } else {
      EvalIgnores(rt, e.rhs, a.s, early, x, fuel);
    }
  }

  lemma {:induction false} MatchSelf(a: Outcome, x: Local)
    ensures OutcomesMatch(a, a, x)
  {}

  lemma {:induction false} BranchAsWritten(rt: Runtime, e: Expr, into: Option<Local>, s: Store, fuel: nat)
    requires (e.If? || e.While? || e.DoWhile?) && Plain(e)
    ensures Alike(Eval(rt, e, s, fuel), EvalAs(rt, e, into, s, fuel), into)
    decreases fuel, e, 1
  {
    hide Plain; hide StoreSafe; hide Alike;
    PlainParts(e);
    if e.If? {
      hide Eval; hide EvalAs;
      AsWritten(rt, e.cond, None, s, fuel);
      NoneAlike();
      var out := Eval(rt, e.cond, s, fuel);
      if out.Done? { AsWritten(rt, if Truthy(out.v) then e.then_ else e.else_, None, out.s, fuel); }
      IfMeanings(rt, e, into, s, fuel);
    } else {
      hide Eval; hide EvalAs;
      LoopMeanings(rt, e, into, s, fuel);
      NoneAlike();
      if fuel > 0 {
        var (first, second) := if e.While? then (e.cond, e.body) else (e.body, e.cond);
        AsWritten(rt, first, None, s, fuel);
        var out := Eval(rt, first, s, fuel);
        if out.Done? {
          AsWritten(rt, second, None, out.s, fuel);
          var out2 := Eval(rt, second, out.s, fuel);
          if out2.Done? { AsWritten(rt, e, None, out2.s, fuel - 1); }
        }
      }
    }
    SelfAlike(Eval(rt, e, s, fuel), into);
  }

  lemma {:induction false} NoneAlike()
    ensures forall a: Outcome, b: Outcome :: Alike(a, b, None) <==> a == b
  {}

  lemma {:induction false} IfMeanings(rt: Runtime, e: Expr, into: Option<Local>, s: Store, fuel: nat)
    requires e.If?
    ensures var out := Eval(rt, e.cond, s, fuel);
            Eval(rt, e, s, fuel) == if out.Done? then Eval(rt, if Truthy(out.v) then e.then_ else e.else_, out.s,
                fuel) else out
    ensures var out := EvalAs(rt, e.cond, None, s, fuel);
            EvalAs(rt, e, into, s, fuel) ==
            if out.Done? then EvalAs(rt, if Truthy(out.v) then e.then_ else e.else_, None, out.s, fuel) else out
  {}

  lemma {:induction false} LoopMeanings(rt: Runtime, e: Expr, into: Option<Local>, s: Store, fuel: nat)
    requires e.While? || e.DoWhile?
    ensures fuel == 0 ==> Eval(rt, e, s, fuel) == EvalAs(rt, e, into, s, fuel) == NoFuel
    ensures fuel > 0 && e.While? ==>
              var out := Eval(rt, e.cond, s, fuel);
              Eval(rt, e, s, fuel) ==
              if !out.Done? then out
              else if Truthy(out.v) != e.condOp then Done(Nil, out.s)
              else var out2 := Eval(rt, e.body, out.s, fuel);
                   if out2.Done? then Eval(rt, e, out2.s, fuel - 1) else out2
    ensures fuel > 0 && e.While? ==>
              var out := EvalAs(rt, e.cond, None, s, fuel);
              EvalAs(rt, e, into, s, fuel) ==
              if !out.Done? then out
              else if Truthy(out.v) != e.condOp then Done(Nil, out.s)
              else var out2 := EvalAs(rt, e.body, None, out.s, fuel);
                   if out2.Done? then EvalAs(rt, e, None, out2.s, fuel - 1) else out2
    ensures fuel > 0 && e.DoWhile? ==>
              var out := Eval(rt, e.body, s, fuel);
              Eval(rt, e, s, fuel) ==
              if !out.Done? then out
              else var out2 := Eval(rt, e.cond, out.s, fuel);
                   if !out2.Done? then out2
                   else if Truthy(out2.v) == e.condOp then Eval(rt, e, out2.s, fuel - 1) else Done(Nil, out2.s)
    ensures fuel > 0 && e.DoWhile? ==>
              var out := EvalAs(rt, e.body, None, s, fuel);
              EvalAs(rt, e, into, s, fuel) ==
              if !out.Done? then out
              else var out2 := EvalAs(rt, e.cond, None, out.s, fuel);
                   if !out2.Done? then out2
                   else if Truthy(out2.v) == e.condOp then EvalAs(rt, e, None, out2.s, fuel - 1) else Done(Nil, out2.s)
  {}

  lemma {:induction false} SimpleMeanings(rt: Runtime, e: Expr, into: Option<Local>, s: Store, fuel: nat)
    ensures e.NilLit? || e.BoolLit? || e.IntLit? || e.LocalVar? ==> Eval(rt, e, s, fuel) == EvalAs(rt, e, into, s, fuel)
    ensures e.Stmts? ==> Eval(rt, e, s, fuel) == EvalStmts(rt, e.es, s, fuel)
    ensures e.Stmts? ==> EvalAs(rt, e, into, s, fuel) == EvalStmtsAs(rt, e.es, into, s, fuel)
    ensures e.MulAssign? && EvalAll(rt, e.es, s, fuel) == EvalAllAs(rt, e.es, s, fuel) ==>
              Eval(rt, e, s, fuel) == EvalAs(rt, e, into, s, fuel)
    ensures e.Assign? ==>
              var out := Eval(rt, e.e, s, fuel);
              Eval(rt, e, s, fuel) == if out.Done? then Done(out.v, Early(out.s, Some(e.x), out.v)) else out
    ensures e.Assign? ==>
              var out := EvalAs(rt, e.e, Some(e.x), s, fuel);
              EvalAs(rt, e, into, s, fuel) == if out.Done? then Done(out.v, Early(out.s, Some(e.x), out.v)) else out
    ensures e.Neg? ==>
              var out := Eval(rt, e.e, s, fuel);
              Eval(rt, e, s, fuel) == if out.Done? then Negate(rt, out.s, out.v) else out
    ensures e.Neg? ==>
              var out := EvalAs(rt, e.e, into, s, fuel);
              EvalAs(rt, e, into, s, fuel) == if out.Done? then Negate(rt, out.s, out.v) else out
  {
    hide EvalStmts; hide EvalStmtsAs; hide EvalAll; hide EvalAllAs;
  }

  lemma {:induction false} AssignAlike(rt: Runtime, e: Expr, into: Option<Local>, s: Store, fuel: nat)
    requires e.Assign? && Alike(Eval(rt, e.e, s, fuel), EvalAs(rt, e.e, Some(e.x), s, fuel), Some(e.x))
    ensures Alike(Eval(rt, e, s, fuel), EvalAs(rt, e, into, s, fuel), into)
  {
    hide Eval; hide EvalAs;
    SimpleMeanings(rt, e, into, s, fuel);
    var (a, b) := (Eval(rt, e.e, s, fuel), EvalAs(rt, e.e, Some(e.x), s, fuel));
    if a.Done? { assert Poke(a.s.env, e.x, a.v) == Poke(b.s.env, e.x, b.v); }
  }

  lemma {:induction false} NegAlike(rt: Runtime, e: Expr, into: Option<Local>, s: Store, fuel: nat)
    requires e.Neg? && Alike(Eval(rt, e.e, s, fuel), EvalAs(rt, e.e, into, s, fuel), into)
    ensures Alike(Eval(rt, e, s, fuel), EvalAs(rt, e, into, s, fuel), into)
  {
    hide Eval; hide EvalAs;
    SimpleMeanings(rt, e, into, s, fuel);
  }

  lemma {:induction false} StmtsAsWritten(rt: Runtime, es: seq<Expr>, into: Option<Local>, s: Store, fuel: nat)
    requires PlainAll(es) && (es != [] ==> Safe(into, es[|es| - 1]))
    ensures Alike(EvalStmts(rt, es, s, fuel), EvalStmtsAs(rt, es, into, s, fuel), into)
    decreases fuel, es, 3
  {
    hide Eval; hide EvalAs; hide Plain; hide StoreSafe; hide Alike;
    NoneAlike();
    SelfAlike(Done(Nil, s), into);
    if |es| == 1 {
      AsWritten(rt, es[0], into, s, fuel);
    } else if es != [] {
      AsWritten(rt, es[0], None, s, fuel);
      var out := Eval(rt, es[0], s, fuel);
      assert es[1..][|es[1..]| - 1] == es[|es| - 1];
      SelfAlike(out, into);
      if out.Done? { StmtsAsWritten(rt, es[1..], into, out.s, fuel); }
    }
  }

  lemma {:induction false} AllAsWritten(rt: Runtime, es: seq<Expr>, s: Store, fuel: nat)
    requires PlainAll(es)
    ensures EvalAll(rt, es, s, fuel) == EvalAllAs(rt, es, s, fuel)
    decreases fuel, es, 3
  {
    hide Eval; hide EvalAs; hide Plain; hide StoreSafe;
    if es != [] {
      AsWritten(rt, es[0], None, s, fuel);
      var out := Eval(rt, es[0], s, fuel);
      if out.Done? { AllAsWritten(rt, es[1..], out.s, fuel); }
    }
  }
}
