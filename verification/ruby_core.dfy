/** The fragment of Ruby the compiler proof covers, with its meaning. Operators are method calls: what
    one returns may depend on everything called before it, and it may raise. */
module RubyCore {
  import opened Prelude

  datatype BinOpKind = Add | Sub | Mul | Div | BitOr | BitAnd | BitXor | Shr | Shl | Rem | Exp

  datatype CmpKind = Eq | Ne | Lt | Le | Gt | Ge

  type Local = nat

  datatype Expr =
    | NilLit
    | BoolLit(b: bool)
    | IntLit(i: int)
    | LocalVar(x: Local)
    | Neg(e: Expr)
    | Bin(op: BinOpKind, lhs: Expr, rhs: Expr)
    | Cmp(kind: CmpKind, lhs: Expr, rhs: Expr)
    | And(lhs: Expr, rhs: Expr)
    | Or(lhs: Expr, rhs: Expr)
    | If(cond: Expr, then_: Expr, else_: Expr)
    | While(cond: Expr, body: Expr, condOp: bool)      // `until` has condOp false
    | DoWhile(cond: Expr, body: Expr, condOp: bool)    // `begin … end while …`
    | Stmts(es: seq<Expr>)
    | Assign(x: Local, e: Expr)
    | MulAssign(xs: seq<Local>, es: seq<Expr>)

  datatype Value = Nil | Bool(b: bool) | Int(i: int) | Array(elems: seq<Value>) | Object(id: nat)

  predicate Truthy(v: Value) {
    v != Nil && v != Bool(false)
  }

  /** One method call made by an operator. */
  datatype Event = CallBin(op: BinOpKind, l: Value, r: Value) | CallCmp(kind: CmpKind, l: Value,
      r: Value) | CallNeg(v: Value)

  type History = seq<Event>

  /** What a call returns, given all calls up to and including it; None: it raises. */
  type Runtime = History -> Option<Value>

  datatype Store = Store(env: seq<Value>, hist: History)

  datatype Outcome = Done(v: Value, s: Store) | Raise(hist: History) | NoFuel

  datatype Outcomes = DoneAll(vs: seq<Value>, s: Store) | RaiseAll(hist: History) | NoFuelAll

  function Peek(env: seq<Value>, x: Local): Value {
    if x < |env| then env[x] else Nil
  }

  function Poke(env: seq<Value>, x: Local, v: Value): (r: seq<Value>)
    ensures |r| == |env|
  {
    if x < |env| then env[x := v] else env
  }

  /** Assigns from left to right. */
  function PokeAll(env: seq<Value>, xs: seq<Local>, vs: seq<Value>): (r: seq<Value>)
    ensures |r| == |env|
    decreases |xs|
  {
    if xs == [] || vs == [] then env else PokeAll(Poke(env, xs[0], vs[0]), xs[1..], vs[1..])
  }

  function Call(rt: Runtime, s: Store, event: Event): Outcome {
    var hist := s.hist + [event];
    match rt(hist)
    case Some(v) => Done(v, s.(hist := hist))
    case None => Raise(hist)
  }

  /** Negating an Integer is arithmetic, negating anything else is a call. */
  function Negate(rt: Runtime, s: Store, v: Value): Outcome {
    if v.Int? then Done(Int(-v.i), s) else Call(rt, s, CallNeg(v))
  }

  function Eval(rt: Runtime, e: Expr, s: Store, fuel: nat): Outcome
    decreases fuel, e, 1
  {
    match e
    case NilLit => Done(Nil, s)
    case BoolLit(b) => Done(Bool(b), s)
    case IntLit(i) => Done(Int(i), s)
    case LocalVar(x) => Done(Peek(s.env, x), s)
    case Neg(e1) =>
      (match Eval(rt, e1, s, fuel)
       case Done(v, s1) => Negate(rt, s1, v)
       case out => out)
    case Bin(op, l, r) =>
      (match Eval(rt, l, s, fuel)
       case Done(v, s1) =>
         (match Eval(rt, r, s1, fuel)
          case Done(w, s2) => Call(rt, s2, CallBin(op, v, w))
          case out => out)
       case out => out)
    case Cmp(k, l, r) =>
      (match Eval(rt, l, s, fuel)
       case Done(v, s1) =>
         (match Eval(rt, r, s1, fuel)
          case Done(w, s2) => Call(rt, s2, CallCmp(k, v, w))
          case out => out)
       case out => out)
    case And(l, r) =>
      (match Eval(rt, l, s, fuel)
       case Done(v, s1) => if Truthy(v) then Eval(rt, r, s1, fuel) else Done(v, s1)
       case out => out)
    case Or(l, r) =>
      (match Eval(rt, l, s, fuel)
       case Done(v, s1) => if Truthy(v) then Done(v, s1) else Eval(rt, r, s1, fuel)
       case out => out)
    case If(c, t, f) =>
      (match Eval(rt, c, s, fuel)
       case Done(v, s1) => Eval(rt, if Truthy(v) then t else f, s1, fuel)
       case out => out)
    case While(c, b, op) =>
      if fuel == 0 then NoFuel
      else (match Eval(rt, c, s, fuel)
            case Done(v, s1) =>
              if Truthy(v) != op then Done(Nil, s1)
              else (match Eval(rt, b, s1, fuel)
                    case Done(_, s2) => Eval(rt, e, s2, fuel - 1)
                    case out => out)
            case out => out)
    case DoWhile(c, b, op) =>
      if fuel == 0 then NoFuel
      else (match Eval(rt, b, s, fuel)
            case Done(_, s1) =>
              (match Eval(rt, c, s1, fuel)
               case Done(v, s2) => if Truthy(v) == op then Eval(rt, e, s2, fuel - 1) else Done(Nil, s2)
               case out => out)
            case out => out)
    case Stmts(es) => EvalStmts(rt, es, s, fuel)
    case Assign(x, e1) =>
      (match Eval(rt, e1, s, fuel)
       case Done(v, s1) => Done(v, s1.(env := Poke(s1.env, x, v)))
       case out => out)
    // all right-hand sides first, then all assignments
    case MulAssign(xs, es) =>
      (match EvalAll(rt, es, s, fuel)
       case DoneAll(vs, s1) => Done(Array(vs), s1.(env := PokeAll(s1.env, xs, vs)))
       case RaiseAll(h) => Raise(h)
       case NoFuelAll => NoFuel)
  }

  /** One after the other; the value is the last one's. */
  function EvalStmts(rt: Runtime, es: seq<Expr>, s: Store, fuel: nat): Outcome
    decreases fuel, es, 0
  {
    if es == [] then Done(Nil, s)
    else if |es| == 1 then Eval(rt, es[0], s, fuel)
    else match Eval(rt, es[0], s, fuel)
      case Done(_, s1) => EvalStmts(rt, es[1..], s1, fuel)
      case out => out
  }

  function EvalAll(rt: Runtime, es: seq<Expr>, s: Store, fuel: nat): (out: Outcomes)
    ensures out.DoneAll? ==> |out.vs| == |es|
    decreases fuel, es, 0
  {
    if es == [] then DoneAll([], s)
    else match Eval(rt, es[0], s, fuel)
      case Raise(h) => RaiseAll(h)
      case NoFuel => NoFuelAll
      case Done(v, s1) =>
        match EvalAll(rt, es[1..], s1, fuel)
        case DoneAll(vs, s2) => DoneAll([v] + vs, s2)
        case out => out
  }

  // ----- which locals an expression reads and assigns -----

  function Assigned(e: Expr): set<Local>
    decreases e, 1
  {
    match e
    case Neg(e1) => Assigned(e1)
    case Bin(_, l, r) => Assigned(l) + Assigned(r)
    case Cmp(_, l, r) => Assigned(l) + Assigned(r)
    case And(l, r) => Assigned(l) + Assigned(r)
    case Or(l, r) => Assigned(l) + Assigned(r)
    case If(c, t, f) => Assigned(c) + Assigned(t) + Assigned(f)
    case While(c, b, _) => Assigned(c) + Assigned(b)
    case DoWhile(c, b, _) => Assigned(c) + Assigned(b)
    case Stmts(es) => AssignedAll(es)
    case Assign(x, e1) => {x} + Assigned(e1)
    case MulAssign(xs, es) => (set x | x in xs) + AssignedAll(es)
    case _ => {}
  }

  function AssignedAll(es: seq<Expr>): set<Local>
    decreases es, 0
  {
    if es == [] then {} else Assigned(es[0]) + AssignedAll(es[1..])
  }

  function Reads(e: Expr): set<Local>
    decreases e, 1
  {
    match e
    case LocalVar(x) => {x}
    case Neg(e1) => Reads(e1)
    case Bin(_, l, r) => Reads(l) + Reads(r)
    case Cmp(_, l, r) => Reads(l) + Reads(r)
    case And(l, r) => Reads(l) + Reads(r)
    case Or(l, r) => Reads(l) + Reads(r)
    case If(c, t, f) => Reads(c) + Reads(t) + Reads(f)
    case While(c, b, _) => Reads(c) + Reads(b)
    case DoWhile(c, b, _) => Reads(c) + Reads(b)
    case Stmts(es) => ReadsAll(es)
    case Assign(_, e1) => Reads(e1)
    case MulAssign(_, es) => ReadsAll(es)
    case _ => {}
  }

  function ReadsAll(es: seq<Expr>): set<Local>
    decreases es, 0
  {
    if es == [] then {} else Reads(es[0]) + ReadsAll(es[1..])
  }

  /** Evaluation leaves every local alone that the expression does not assign. */
  ghost predicate KeepsBut(before: seq<Value>, after: seq<Value>, xs: set<Local>) {
    |before| == |after| && forall x: Local :: x < |before| && x !in xs ==> after[x] == before[x]
  }

  lemma {:induction false} PokeAllKeeps(env: seq<Value>, xs: seq<Local>, vs: seq<Value>)
    ensures KeepsBut(env, PokeAll(env, xs, vs), set x | x in xs)
    decreases |xs|
  {
    if xs != [] && vs != [] {
      PokeAllKeeps(Poke(env, xs[0], vs[0]), xs[1..], vs[1..]);
    }
  }

  lemma {:induction false} EvalKeeps(rt: Runtime, e: Expr, s: Store, fuel: nat)
    ensures var out := Eval(rt, e, s, fuel);
            out.Done? ==> KeepsBut(s.env, out.s.env, Assigned(e))
    decreases fuel, e, 1
  {
    match e
    case Neg(e1) => EvalKeeps(rt, e1, s, fuel);
    case Assign(_, e1) => EvalKeeps(rt, e1, s, fuel);
    case Bin(_, l, r) =>
      EvalKeeps(rt, l, s, fuel);
      var out := Eval(rt, l, s, fuel);
      if out.Done? { EvalKeeps(rt, r, out.s, fuel); }
    case Cmp(_, l, r) =>
      EvalKeeps(rt, l, s, fuel);
      var out := Eval(rt, l, s, fuel);
      if out.Done? { EvalKeeps(rt, r, out.s, fuel); }
    case And(l, r) =>
      EvalKeeps(rt, l, s, fuel);
      var out := Eval(rt, l, s, fuel);
      if out.Done? { EvalKeeps(rt, r, out.s, fuel); }
    case Or(l, r) =>
      EvalKeeps(rt, l, s, fuel);
      var out := Eval(rt, l, s, fuel);
      if out.Done? { EvalKeeps(rt, r, out.s, fuel); }
    case If(c, t, f) =>
      EvalKeeps(rt, c, s, fuel);
      var out := Eval(rt, c, s, fuel);
      if out.Done? { EvalKeeps(rt, if Truthy(out.v) then t else f, out.s, fuel); }
    case While(c, b, op) =>
      if fuel > 0 {
        EvalKeeps(rt, c, s, fuel);
        var out := Eval(rt, c, s, fuel);
        if out.Done? && Truthy(out.v) == op {
          EvalKeeps(rt, b, out.s, fuel);
          var out2 := Eval(rt, b, out.s, fuel);
          if out2.Done? { EvalKeeps(rt, e, out2.s, fuel - 1); }
        }
      }
    case DoWhile(c, b, op) =>
      if fuel > 0 {
        EvalKeeps(rt, b, s, fuel);
        var out := Eval(rt, b, s, fuel);
        if out.Done? {
          EvalKeeps(rt, c, out.s, fuel);
          var out2 := Eval(rt, c, out.s, fuel);
          if out2.Done? && Truthy(out2.v) == op { EvalKeeps(rt, e, out2.s, fuel - 1); }
        }
      }
    case Stmts(es) => EvalStmtsKeeps(rt, es, s, fuel);
    case MulAssign(xs, es) =>
      EvalAllKeeps(rt, es, s, fuel);
      var out := EvalAll(rt, es, s, fuel);
      if out.DoneAll? { PokeAllKeeps(out.s.env, xs, out.vs); }
    case _ =>
  }

  lemma {:induction false} EvalStmtsKeeps(rt: Runtime, es: seq<Expr>, s: Store, fuel: nat)
    ensures var out := EvalStmts(rt, es, s, fuel);
            out.Done? ==> KeepsBut(s.env, out.s.env, AssignedAll(es))
    decreases fuel, es, 0
  {
    if es != [] {
      EvalKeeps(rt, es[0], s, fuel);
      var out := Eval(rt, es[0], s, fuel);
      if out.Done? { EvalStmtsKeeps(rt, es[1..], out.s, fuel); }
    }
  }

  lemma {:induction false} EvalAllKeeps(rt: Runtime, es: seq<Expr>, s: Store, fuel: nat)
    ensures var out := EvalAll(rt, es, s, fuel);
            out.DoneAll? ==> KeepsBut(s.env, out.s.env, AssignedAll(es))
    decreases fuel, es, 0
  {
    if es != [] {
      EvalKeeps(rt, es[0], s, fuel);
      var out := Eval(rt, es[0], s, fuel);
      if out.Done? { EvalAllKeeps(rt, es[1..], out.s, fuel); }
    }
  }

  // ----- a local that is not read does not matter -----

  ghost predicate SameBut(a: seq<Value>, b: seq<Value>, x: Local) {
    KeepsBut(a, b, {x})
  }

  ghost predicate OutcomesMatch(a: Outcome, b: Outcome, x: Local) {
    if a.Done? then b.Done? && a.v == b.v && a.s.hist == b.s.hist && SameBut(a.s.env, b.s.env, x)
    else a == b
  }

  ghost predicate AllMatch(a: Outcomes, b: Outcomes, x: Local) {
    if a.DoneAll? then b.DoneAll? && a.vs == b.vs && a.s.hist == b.s.hist && SameBut(a.s.env, b.s.env, x)
    else a == b
  }

  lemma {:induction false} PokeAllSame(a: seq<Value>, b: seq<Value>, x: Local, xs: seq<Local>, vs: seq<Value>)
    requires SameBut(a, b, x)
    ensures SameBut(PokeAll(a, xs, vs), PokeAll(b, xs, vs), x)
    decreases |xs|
  {
    if xs != [] && vs != [] {
      PokeAllSame(Poke(a, xs[0], vs[0]), Poke(b, xs[0], vs[0]), x, xs[1..], vs[1..]);
    }
  }

  /** Two stores that differ only in a local the expression never reads give the same outcome, up to
      that local. */
  lemma {:induction false} EvalIgnores(rt: Runtime, e: Expr, s: Store, t: Store, x: Local, fuel: nat)
    requires s.hist == t.hist && SameBut(s.env, t.env, x) && x !in Reads(e)
    ensures OutcomesMatch(Eval(rt, e, s, fuel), Eval(rt, e, t, fuel), x)
    decreases fuel, e, 1
  {
    match e
    case Neg(e1) => EvalIgnores(rt, e1, s, t, x, fuel);
    case Assign(_, e1) => EvalIgnores(rt, e1, s, t, x, fuel);
    case Bin(_, l, r) =>
      EvalIgnores(rt, l, s, t, x, fuel);
      var a, b := Eval(rt, l, s, fuel), Eval(rt, l, t, fuel);
      if a.Done? { EvalIgnores(rt, r, a.s, b.s, x, fuel); }
    case Cmp(_, l, r) =>
      EvalIgnores(rt, l, s, t, x, fuel);
      var a, b := Eval(rt, l, s, fuel), Eval(rt, l, t, fuel);
      if a.Done? { EvalIgnores(rt, r, a.s, b.s, x, fuel); }
    case And(l, r) =>
      EvalIgnores(rt, l, s, t, x, fuel);
      var a, b := Eval(rt, l, s, fuel), Eval(rt, l, t, fuel);
      if a.Done? { EvalIgnores(rt, r, a.s, b.s, x, fuel); }
    case Or(l, r) =>
      EvalIgnores(rt, l, s, t, x, fuel);
      var a, b := Eval(rt, l, s, fuel), Eval(rt, l, t, fuel);
      if a.Done? { EvalIgnores(rt, r, a.s, b.s, x, fuel); }
    case If(c, th, el) =>
      EvalIgnores(rt, c, s, t, x, fuel);
      var a, b := Eval(rt, c, s, fuel), Eval(rt, c, t, fuel);
      if a.Done? { EvalIgnores(rt, if Truthy(a.v) then th else el, a.s, b.s, x, fuel); }
    case While(c, body, op) =>
      if fuel > 0 {
        EvalIgnores(rt, c, s, t, x, fuel);
        var a, b := Eval(rt, c, s, fuel), Eval(rt, c, t, fuel);
        if a.Done? && Truthy(a.v) == op {
          EvalIgnores(rt, body, a.s, b.s, x, fuel);
          var a2, b2 := Eval(rt, body, a.s, fuel), Eval(rt, body, b.s, fuel);
          if a2.Done? { EvalIgnores(rt, e, a2.s, b2.s, x, fuel - 1); }
        }
      }
    case DoWhile(c, body, op) =>
      if fuel > 0 {
        EvalIgnores(rt, body, s, t, x, fuel);
        var a, b := Eval(rt, body, s, fuel), Eval(rt, body, t, fuel);
        if a.Done? {
          EvalIgnores(rt, c, a.s, b.s, x, fuel);
          var a2, b2 := Eval(rt, c, a.s, fuel), Eval(rt, c, b.s, fuel);
          if a2.Done? && Truthy(a2.v) == op { EvalIgnores(rt, e, a2.s, b2.s, x, fuel - 1); }
        }
      }
    case Stmts(es) => EvalStmtsIgnores(rt, es, s, t, x, fuel);
    case MulAssign(xs, es) =>
      EvalAllIgnores(rt, es, s, t, x, fuel);
      var a, b := EvalAll(rt, es, s, fuel), EvalAll(rt, es, t, fuel);
      if a.DoneAll? { PokeAllSame(a.s.env, b.s.env, x, xs, a.vs); }
    case _ =>
  }

  lemma {:induction false} EvalStmtsIgnores(rt: Runtime, es: seq<Expr>, s: Store, t: Store, x: Local, fuel: nat)
    requires s.hist == t.hist && SameBut(s.env, t.env, x) && x !in ReadsAll(es)
    ensures OutcomesMatch(EvalStmts(rt, es, s, fuel), EvalStmts(rt, es, t, fuel), x)
    decreases fuel, es, 0
  {
    if es != [] {
      EvalIgnores(rt, es[0], s, t, x, fuel);
      var a, b := Eval(rt, es[0], s, fuel), Eval(rt, es[0], t, fuel);
      if a.Done? { EvalStmtsIgnores(rt, es[1..], a.s, b.s, x, fuel); }
    }
  }

  lemma {:induction false} EvalAllIgnores(rt: Runtime, es: seq<Expr>, s: Store, t: Store, x: Local, fuel: nat)
    requires s.hist == t.hist && SameBut(s.env, t.env, x) && x !in ReadsAll(es)
    ensures AllMatch(EvalAll(rt, es, s, fuel), EvalAll(rt, es, t, fuel), x)
    decreases fuel, es, 0
  {
    if es != [] {
      EvalIgnores(rt, es[0], s, t, x, fuel);
      var a, b := Eval(rt, es[0], s, fuel), Eval(rt, es[0], t, fuel);
      if a.Done? { EvalAllIgnores(rt, es[1..], a.s, b.s, x, fuel); }
    }
  }
}
