/** The statement language every pass of this model shares.
  *
  * One list of statements is one Rust block. A `match` and an `if` are the same
  * construct here: `Branch` selects an arm by the value of an expression, and an
  * `if` is the branch with two arms (a missing `else` is an empty second arm).
  * `SetPc` and `Goto` are never written by a user: they are the two transfers
  * control extraction leaves behind.
  */
module Syntax {

  datatype Option<+T> = None | Some(value: T)

  /** `Apply` is any operator, method or helper function the model gives no meaning
    * of its own. `AddU32` and `Ge` are the two the counted-loop rewrite emits.
    */
  datatype Expr =
    | Lit(value: int)
    | Var(name: string)
    | Input(port: string)
    | Not(arg: Expr)
    | AddU32(left: Expr, right: Expr)
    | Ge(left: Expr, right: Expr)
    | Apply(op: string, left: Expr, right: Expr)

  /** What a statement can drive: an output port, or a memory port's read or write bus. */
  datatype Sink =
    | OutPort(name: string)
    | ReadBus(mem: string, port: string)
    | WriteBus(mem: string, port: string)

  datatype Action =
    | Let(name: string, init: Expr)
    | Set(name: string, value: Expr)
    | Drive(sink: Sink, value: Expr)

  datatype Arm = Arm(body: seq<Stmt>)

  datatype Stmt =
    | Do(action: Action)
    | Tick
    | Branch(sel: Expr, arms: seq<Arm>)
    | Loop(body: seq<Stmt>)
    | While(cond: Expr, body: seq<Stmt>)
    | For(counter: string, lo: Expr, hi: Expr, body: seq<Stmt>)
    | Break
    | Continue
    | SetPc(target: nat)
    | Goto(target: nat)

  /** `if cond { thn } else { els }`: arm 0 when the condition is non-zero. */
  function If(cond: Expr, thn: seq<Stmt>, els: seq<Stmt>): Stmt {
    Branch(Not(cond), [Arm(thn), Arm(els)])
  }

  // ----- Sizes ---------------------------------------------------------------

  function Size(stmts: seq<Stmt>): nat
    decreases stmts
  {
    if stmts == [] then 0 else StmtSize(stmts[0]) + Size(stmts[1..])
  }

  function StmtSize(s: Stmt): (n: nat)
    ensures n > 0
    decreases s
  {
    match s
    case Branch(_, arms) => 1 + ArmsSize(arms)
    case Loop(body) => 1 + Size(body)
    case While(_, body) => 1 + Size(body)
    case For(_, _, _, body) => 1 + Size(body)
    case _ => 1
  }

  function ArmsSize(arms: seq<Arm>): nat
    decreases arms
  {
    if arms == [] then 0 else 1 + Size(arms[0].body) + ArmsSize(arms[1..])
  }

  lemma {:induction false} SizeAppend(a: seq<Stmt>, b: seq<Stmt>)
    ensures Size(a + b) == Size(a) + Size(b)
  {
    if a == [] {
      assert a + b == b;
    } else {
      assert (a + b)[1..] == a[1..] + b;
      SizeAppend(a[1..], b);
    }
  }

  lemma {:induction false} ArmSizeBound(arms: seq<Arm>, i: nat)
    requires i < |arms|
    ensures Size(arms[i].body) < ArmsSize(arms)
  {
    if i > 0 {
      ArmSizeBound(arms[1..], i - 1);
    }
  }

  // ----- Detection -----------------------------------------------------------

  predicate ContainsTick(stmts: seq<Stmt>)
    decreases stmts
  {
    stmts != [] && (StmtContainsTick(stmts[0]) || ContainsTick(stmts[1..]))
  }

  predicate StmtContainsTick(s: Stmt)
    decreases s
  {
    match s
    case Tick => true
    case Branch(_, arms) => ArmsContainTick(arms)
    case Loop(body) => ContainsTick(body)
    case While(_, body) => ContainsTick(body)
    case For(_, _, _, body) => ContainsTick(body)
    case _ => false
  }

  predicate ArmsContainTick(arms: seq<Arm>)
    decreases arms
  {
    arms != [] && (ContainsTick(arms[0].body) || ArmsContainTick(arms[1..]))
  }

  /** Is there a `break` here that leaves the enclosing loop? */
  predicate Breaks(stmts: seq<Stmt>)
    decreases stmts
  {
    stmts != [] && (StmtBreaks(stmts[0]) || Breaks(stmts[1..]))
  }

  predicate StmtBreaks(s: Stmt)
    decreases s
  {
    match s
    case Break => true
    case Branch(_, arms) => ArmsBreak(arms)
    case _ => false
  }

  predicate ArmsBreak(arms: seq<Arm>)
    decreases arms
  {
    arms != [] && (Breaks(arms[0].body) || ArmsBreak(arms[1..]))
  }

  /** Is there a `continue` here that restarts the enclosing loop? */
  predicate Continues(stmts: seq<Stmt>)
    decreases stmts
  {
    stmts != [] && (StmtContinues(stmts[0]) || Continues(stmts[1..]))
  }

  predicate StmtContinues(s: Stmt)
    decreases s
  {
    match s
    case Continue => true
    case Branch(_, arms) => ArmsContinue(arms)
    case _ => false
  }

  predicate ArmsContinue(arms: seq<Arm>)
    decreases arms
  {
    arms != [] && (Continues(arms[0].body) || ArmsContinue(arms[1..]))
  }

  /** Can control leave this statement other than by falling off its end? */
  predicate Diverges(s: Stmt) {
    StmtContainsTick(s) || StmtBreaks(s) || StmtContinues(s)
  }

  /** Straight-line work that unrolls: actions, branches, and counted loops of such work. */
  predicate Unrolled(stmts: seq<Stmt>)
    decreases stmts
  {
    stmts != [] ==> UnrolledStmt(stmts[0]) && Unrolled(stmts[1..])
  }

  predicate UnrolledStmt(s: Stmt)
    decreases s
  {
    match s
    case Do(_) => true
    case Branch(_, arms) => arms != [] && ArmsUnrolled(arms)
    case For(_, _, _, body) => Unrolled(body)
    case _ => false
  }

  predicate ArmsUnrolled(arms: seq<Arm>)
    decreases arms
  {
    arms != [] ==> Unrolled(arms[0].body) && ArmsUnrolled(arms[1..])
  }

  lemma {:induction false} ArmUnrolled(arms: seq<Arm>, i: nat)
    requires i < |arms| && ArmsUnrolled(arms)
    ensures Unrolled(arms[i].body)
  {
    if i > 0 {
      ArmUnrolled(arms[1..], i - 1);
    }
  }

  /** The index of the first top-level tick, or the length if there is none. */
  function FirstTick(stmts: seq<Stmt>): (t: nat)
    ensures t <= |stmts|
    ensures t < |stmts| ==> stmts[t] == Tick
    ensures forall i :: 0 <= i < t ==> stmts[i] != Tick
  {
    if stmts == [] || stmts[0] == Tick then 0 else 1 + FirstTick(stmts[1..])
  }

  lemma {:induction false} ControlAppend(a: seq<Stmt>, b: seq<Stmt>)
    ensures ContainsTick(a + b) == (ContainsTick(a) || ContainsTick(b))
    ensures Breaks(a + b) == (Breaks(a) || Breaks(b))
    ensures Continues(a + b) == (Continues(a) || Continues(b))
  {
    if a == [] {
      assert a + b == b;
    } else {
      assert (a + b)[1..] == a[1..] + b;
      ControlAppend(a[1..], b);
    }
  }

  lemma {:induction false} ArmControl(arms: seq<Arm>, i: nat)
    requires i < |arms|
    ensures ContainsTick(arms[i].body) ==> ArmsContainTick(arms)
    ensures Breaks(arms[i].body) ==> ArmsBreak(arms)
    ensures Continues(arms[i].body) ==> ArmsContinue(arms)
  {
    if i > 0 {
      ArmControl(arms[1..], i - 1);
    }
  }

  /** A list without nested loops. */
  predicate Flat(stmts: seq<Stmt>)
    decreases stmts
  {
    stmts != [] ==> FlatStmt(stmts[0]) && Flat(stmts[1..])
  }

  predicate FlatStmt(s: Stmt)
    decreases s
  {
    match s
    case Branch(_, arms) => ArmsFlat(arms)
    case Loop(_) => false
    case While(_, _) => false
    case For(_, _, _, _) => false
    case _ => true
  }

  predicate ArmsFlat(arms: seq<Arm>)
    decreases arms
  {
    arms != [] ==> Flat(arms[0].body) && ArmsFlat(arms[1..])
  }

  lemma {:induction false} FlatAppend(a: seq<Stmt>, b: seq<Stmt>)
    ensures Flat(a + b) <==> Flat(a) && Flat(b)
  {
    if a == [] {
      assert a + b == b;
    } else {
      assert (a + b)[1..] == a[1..] + b;
      FlatAppend(a[1..], b);
    }
  }

  lemma {:induction false} ArmFlat(arms: seq<Arm>, i: nat)
    requires i < |arms| && ArmsFlat(arms)
    ensures Flat(arms[i].body)
  {
    if i > 0 {
      ArmFlat(arms[1..], i - 1);
    }
  }

  // ----- Lists a user can write ------------------------------------------------

  /** A list a user can write: no transfers in it, and no branch without an arm. */
  predicate Written(stmts: seq<Stmt>)
    decreases stmts
  {
    stmts != [] ==> WrittenStmt(stmts[0]) && Written(stmts[1..])
  }

  predicate WrittenStmt(s: Stmt)
    decreases s
  {
    match s
    case SetPc(_) => false
    case Goto(_) => false
    case Branch(_, arms) => arms != [] && ArmsWritten(arms)
    case Loop(body) => Written(body)
    case While(_, body) => Written(body)
    case For(_, _, _, body) => Written(body)
    case _ => true
  }

  predicate ArmsWritten(arms: seq<Arm>)
    decreases arms
  {
    arms != [] ==> Written(arms[0].body) && ArmsWritten(arms[1..])
  }

  lemma {:induction false} WrittenAppend(a: seq<Stmt>, b: seq<Stmt>)
    ensures Written(a + b) <==> Written(a) && Written(b)
  {
    if a == [] {
      assert a + b == b;
    } else {
      assert (a + b)[1..] == a[1..] + b;
      WrittenAppend(a[1..], b);
    }
  }

  lemma {:induction false} WrittenAt(stmts: seq<Stmt>, i: nat)
    requires i < |stmts| && Written(stmts)
    ensures WrittenStmt(stmts[i])
  {
    if i > 0 {
      WrittenAt(stmts[1..], i - 1);
    }
  }

  lemma {:induction false} ArmWritten(arms: seq<Arm>, i: nat)
    requires i < |arms| && ArmsWritten(arms)
    ensures Written(arms[i].body)
  {
    if i > 0 {
      ArmWritten(arms[1..], i - 1);
    }
  }
}
