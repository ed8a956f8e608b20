/** When the clock always comes: a test on the text that is right about every nested ticking
  * loop, what the reachability check's own test promises by it, and a loop the check
  * accepts that never ticks.
  */
module Progress {
  import opened Syntax
  import opened Semantics
  import opened Lowering
  import opened Unrolling
  import opened Desugaring
  import opened DesugarSimulation
  import opened Graphs
  import opened Cfg
  import opened Reachability
  import opened Verdict

  // ----- What control may do before a tick -----------------------------------------------------

  /** May control run off the end of this list in no time? A counted loop runs its body, but
    * may leave it early; the check takes it never to.
    */
  predicate Passes(stmts: Code)
    decreases stmts, 1
  {
    stmts == [] || (StmtPasses(stmts[0]) && Passes(stmts[1..]))
  }

  predicate StmtPasses(s: Stmt)
    decreases s, 0
  {
    match s
    case Do(_) => true
    case Branch(_, arms) => SomeArmPasses(arms)
    case Loop(body) => Leaves(body)
    case While(_, _) => true
    case For(_, lo, hi, body) => Unrolled(body) || StaticallyEmpty(lo, hi) || Leaves(body)
    case _ => false
  }

  predicate SomeArmPasses(arms: seq<Arm>)
    decreases arms, 0
  {
    arms != [] && (Passes(arms[0].body) || SomeArmPasses(arms[1..]))
  }

  /** May control meet a `continue` of this loop in no time? */
  predicate Restarts(stmts: Code)
    decreases stmts, 1
  {
    stmts != [] && (StmtRestarts(stmts[0]) || (StmtPasses(stmts[0]) && Restarts(stmts[1..])))
  }

  predicate StmtRestarts(s: Stmt)
    decreases s, 0
  {
    match s
    case Continue => true
    case Branch(_, arms) => SomeArmRestarts(arms)
    case _ => false
  }

  predicate SomeArmRestarts(arms: seq<Arm>)
    decreases arms, 0
  {
    arms != [] && (Restarts(arms[0].body) || SomeArmRestarts(arms[1..]))
  }

  /** May control meet a `break` of this loop in no time? */
  predicate Leaves(stmts: Code)
    decreases stmts, 1
  {
    stmts != [] && (StmtLeaves(stmts[0]) || (StmtPasses(stmts[0]) && Leaves(stmts[1..])))
  }

  predicate StmtLeaves(s: Stmt)
    decreases s, 0
  {
    match s
    case Break => true
    case Branch(_, arms) => SomeArmLeaves(arms)
    case _ => false
  }

  predicate SomeArmLeaves(arms: seq<Arm>)
    decreases arms, 0
  {
    arms != [] && (Leaves(arms[0].body) || SomeArmLeaves(arms[1..]))
  }

  lemma {:induction false} ArmDoes(arms: seq<Arm>, i: nat)
    requires i < |arms|
    ensures Passes(arms[i].body) ==> SomeArmPasses(arms)
    ensures Restarts(arms[i].body) ==> SomeArmRestarts(arms)
    ensures Leaves(arms[i].body) ==> SomeArmLeaves(arms)
  {
    if i > 0 {
      ArmDoes(arms[1..], i - 1);
    }
  }

  lemma {:induction false} LeavesBreaks(stmts: Code)
    requires Leaves(stmts)
    ensures Breaks(stmts)
    decreases stmts, 1
  {
    if stmts[0].Branch? && StmtLeaves(stmts[0]) {
      ArmLeavesBreaks(stmts[0].arms);
    } else if !stmts[0].Break? {
      LeavesBreaks(stmts[1..]);
    }
  }

  lemma {:induction false} ArmLeavesBreaks(arms: seq<Arm>)
    requires SomeArmLeaves(arms)
    ensures ArmsBreak(arms)
    decreases arms, 0
  {
    if Leaves(arms[0].body) {
      LeavesBreaks(arms[0].body);
    } else {
      ArmLeavesBreaks(arms[1..]);
    }
  }

  /** May control get round this loop's body in no time? */
  predicate Idles(body: Code) {
    Passes(body) || Restarts(body)
  }

  /** No loop nested in here gets round its body in no time. */
  predicate Clocked(stmts: Code)
    decreases stmts
  {
    stmts != [] ==> ClockedStmt(stmts[0]) && Clocked(stmts[1..])
  }

  predicate ClockedStmt(s: Stmt)
    decreases s
  {
    match s
    case Branch(_, arms) => ArmsClocked(arms)
    case Loop(body) => !Idles(body) && Clocked(body)
    case While(_, body) => !Idles(body) && Clocked(body)
    case For(_, lo, hi, body) => Unrolled(body) || StaticallyEmpty(lo, hi) || (!Idles(body) && Clocked(body))
    case _ => true
  }

  predicate ArmsClocked(arms: seq<Arm>)
    decreases arms
  {
    arms != [] ==> Clocked(arms[0].body) && ArmsClocked(arms[1..])
  }

  // ----- Where the check's test is right ---------------------------------------------------------------

  /** No ticking counted loop in here is visibly empty or left before it ticks. */
  predicate Unhurried(stmts: Code)
    decreases stmts
  {
    stmts != [] ==> UnhurriedStmt(stmts[0]) && Unhurried(stmts[1..])
  }

  predicate UnhurriedStmt(s: Stmt)
    decreases s
  {
    match s
    case Branch(_, arms) => ArmsUnhurried(arms)
    case Loop(body) => Unhurried(body)
    case While(_, body) => Unhurried(body)
    case For(_, lo, hi, body) => Unrolled(body) || (!StaticallyEmpty(lo, hi) && !Leaves(body) && Unhurried(body))
    case _ => true
  }

  predicate ArmsUnhurried(arms: seq<Arm>)
    decreases arms
  {
    arms != [] ==> Unhurried(arms[0].body) && ArmsUnhurried(arms[1..])
  }

  lemma {:induction false} ArmUnhurried(arms: seq<Arm>, i: nat)
    requires i < |arms| && ArmsUnhurried(arms)
    ensures Unhurried(arms[i].body)
  {
    if i > 0 {
      ArmUnhurried(arms[1..], i - 1);
    }
  }

  /** A body the check says ticks before any `break` is not left in no time. */
  lemma {:induction false} LeavesNotTicking(stmts: Code)
    requires Leaves(stmts) && Unhurried(stmts)
    ensures !TickFirst(stmts)
    decreases stmts
  {
    var s := stmts[0];
    TickFirstStep(stmts);
    if s.Branch? && StmtLeaves(s) {
      ArmLeavesBreaks(s.arms);
    } else if !s.Break? {
      LeavesNotTicking(stmts[1..]);
      if s.Loop? || s.While? || s.For? {
        PassesExits(s);
      }
    }
  }

  /** What the corrected test lets pass, the check lets pass. */
  lemma {:induction false} PassesExits(s: Stmt)
    requires StmtPasses(s) && UnhurriedStmt(s) && (s.Loop? || s.While? || s.For?)
    ensures !AlwaysTicks(s)
    decreases s
  {
    if s.Loop? {
      LeavesNotTicking(s.body);
    } else if s.For? {
      DUnrolledTick(s.body);
    }
  }

  lemma DUnrolledTick(body: Code)
    ensures Unrolled(body) ==> !ContainsTick(body)
  {
    if Unrolled(body) {
      DUnrolled(body);
    }
  }

  // ----- Starting over in no time ----------------------------------------------------------------------

  lemma {:induction false} CanRestartAppend(a: Code, rest: Code)
    requires (Restarts(a) || (Passes(a) && CanRestart(rest))) && Unhurried(a)
    ensures CanRestart(a + rest)
    decreases Size(a)
  {
    if a == [] {
      assert a + rest == rest;
    } else {
      var s, tail := a[0], a[1..];
      assert (a + rest)[1..] == tail + rest && Size(a) == StmtSize(s) + Size(tail);
      if StmtRestarts(s) {
        if s.Branch? {
          var i := ArmThatRestarts(s.arms);
          ArmSizeBound(s.arms, i);
          ArmUnhurried(s.arms, i);
          CanRestartAppend(s.arms[i].body, tail + rest);
          SizeAppend(s.arms[i].body, tail + rest);
        }
      } else {
        CanRestartAppend(tail, rest);
        if s.Branch? {
          var i := ArmThatPasses(s.arms);
          ArmSizeBound(s.arms, i);
          ArmUnhurried(s.arms, i);
          CanRestartAppend(s.arms[i].body, tail + rest);
          SizeAppend(s.arms[i].body, tail + rest);
        } else if s.Loop? || s.While? || s.For? {
          PassesExits(s);
        }
      }
    }
  }

  lemma {:induction false} ArmThatPasses(arms: seq<Arm>) returns (i: nat)
    requires SomeArmPasses(arms)
    ensures i < |arms| && Passes(arms[i].body)
  {
    if Passes(arms[0].body) {
      i := 0;
    } else {
      i := ArmThatPasses(arms[1..]);
      i := i + 1;
    }
  }

  lemma {:induction false} ArmThatRestarts(arms: seq<Arm>) returns (i: nat)
    requires SomeArmRestarts(arms)
    ensures i < |arms| && Restarts(arms[i].body)
  {
    if Restarts(arms[0].body) {
      i := 0;
    } else {
      i := ArmThatRestarts(arms[1..]);
      i := i + 1;
    }
  }

  lemma {:induction false} RestartReturns(todo: Code)
    requires CanRestart(todo)
    ensures CanReturn(todo)
    decreases Size(todo)
  {
    if todo != [] {
      var s, rest := todo[0], todo[1..];
      assert Size(todo) == StmtSize(s) + Size(rest);
      if s.Branch? {
        var i :| 0 <= i < |s.arms| && CanRestart(s.arms[i].body + rest);
        ArmSizeBound(s.arms, i);
        SizeAppend(s.arms[i].body, rest);
        RestartReturns(s.arms[i].body + rest);
      } else if !s.Continue? {
        RestartReturns(rest);
      }
    }
  }

  // ----- Accepted loops ---------------------------------------------------------------------------------

  /** What the check leaves to others: jumps stand where they mean something, and a loop
    * without a tick is a counted one that unrolls.
    */
  predicate Runnable(stmts: Code, nested: bool)
    decreases stmts
  {
    stmts != [] ==> RunnableStmt(stmts[0], nested) && Runnable(stmts[1..], nested)
  }

  predicate RunnableStmt(s: Stmt, nested: bool)
    decreases s
  {
    match s
    case Branch(_, arms) => arms != [] && ArmsRunnable(arms, nested)
    case Loop(body) => ContainsTick(body) && Runnable(body, true)
    case While(_, body) => ContainsTick(body) && Runnable(body, true)
    case For(_, _, _, body) => Unrolled(body) || (ContainsTick(body) && Runnable(body, true))
    case Break => nested
    case SetPc(_) => false
    case Goto(_) => false
    case _ => true
  }

  predicate ArmsRunnable(arms: seq<Arm>, nested: bool)
    decreases arms
  {
    arms != [] ==> Runnable(arms[0].body, nested) && ArmsRunnable(arms[1..], nested)
  }

  /** Acceptance gives the corrected test's verdict where the two tests agree. */
  lemma {:induction false} TickClocked(stmts: Code, nested: bool)
    requires LoopsTick(stmts) && Unhurried(stmts) && Runnable(stmts, nested)
    ensures Clocked(stmts)
    decreases stmts, 0
  {
    if stmts != [] {
      TickClocked(stmts[1..], nested);
      match stmts[0]
      case Branch(_, arms) => TickClockedArms(arms, nested);
      case Loop(body) => BodyClocked(body);
      case While(_, body) => BodyClocked(body);
      case For(_, _, _, body) =>
        if !Unrolled(body) {
          BodyClocked(body);
        }
      case _ =>
    }
  }

  lemma {:induction false} TickClockedArms(arms: seq<Arm>, nested: bool)
    requires ArmsLoopsTick(arms) && ArmsUnhurried(arms) && ArmsRunnable(arms, nested)
    ensures ArmsClocked(arms)
    decreases arms, 0
  {
    if arms != [] {
      TickClocked(arms[0].body, nested);
      TickClockedArms(arms[1..], nested);
    }
  }

  lemma {:induction false} BodyClocked(body: Code)
    requires !CanRestart(body) && LoopsTick(body) && Unhurried(body) && Runnable(body, true)
    ensures !Idles(body) && Clocked(body)
    decreases body, 1
  {
    TickClocked(body, true);
    NoIdling(body);
  }

  lemma NoIdling(body: Code)
    requires !CanRestart(body) && Unhurried(body)
    ensures !Idles(body)
  {
    assert body + [] == body && CanRestart([]);
    if Idles(body) {
      CanRestartAppend(body, []);
      assert false;
    }
  }

  /** Every ticking loop in here shows in its text that it ticks: a tick, or such a loop, stands
    * before anything that breaks or ticks otherwise; and no ticking range is visibly empty.
    */
  predicate Direct(stmts: Code)
    decreases stmts
  {
    stmts != [] ==> DirectStmt(stmts[0]) && Direct(stmts[1..])
  }

  predicate DirectStmt(s: Stmt)
    decreases s
  {
    match s
    case Branch(_, arms) => ArmsDirect(arms)
    case Loop(body) => TickFirst(body) && Direct(body)
    case While(_, body) => Direct(body)
    case For(_, lo, hi, body) => Unrolled(body) || (!StaticallyEmpty(lo, hi) && Direct(body))
    case _ => true
  }

  predicate ArmsDirect(arms: seq<Arm>)
    decreases arms
  {
    arms != [] ==> Direct(arms[0].body) && ArmsDirect(arms[1..])
  }

  lemma {:induction false} DirectAppend(a: Code, b: Code, nested: bool)
    requires Direct(a) && Direct(b) && Runnable(a, nested) && Runnable(b, nested)
    ensures Direct(a + b) && Runnable(a + b, nested)
  {
    if a == [] {
      assert a + b == b;
    } else {
      assert (a + b)[1..] == a[1..] + b;
      DirectAppend(a[1..], b, nested);
    }
  }

  lemma {:induction false} DirectArm(arms: seq<Arm>, i: nat, nested: bool)
    requires i < |arms| && ArmsDirect(arms) && ArmsRunnable(arms, nested)
    ensures Direct(arms[i].body) && Runnable(arms[i].body, nested)
  {
    if i > 0 {
      DirectArm(arms[1..], i - 1, nested);
    }
  }

  lemma {:induction false} IdlesAppend(a: Code, b: Code)
    ensures Passes(a + b) <==> Passes(a) && Passes(b)
    ensures Restarts(a + b) <==> Restarts(a) || (Passes(a) && Restarts(b))
  {
    if a == [] {
      assert a + b == b;
    } else {
      assert (a + b)[1..] == a[1..] + b;
      IdlesAppend(a[1..], b);
    }
  }

  /** What starts over by the check's rules gets round in no time. */
  lemma {:induction false} RestartIdles(todo: Code, nested: bool)
    requires CanRestart(todo) && Runnable(todo, nested) && Direct(todo)
    ensures Idles(todo)
    decreases Size(todo)
  {
    if todo != [] {
      var s, rest := todo[0], todo[1..];
      assert Size(todo) == StmtSize(s) + Size(rest);
      if s.Branch? {
        var i :| 0 <= i < |s.arms| && CanRestart(s.arms[i].body + rest);
        ArmSizeBound(s.arms, i);
        SizeAppend(s.arms[i].body, rest);
        DirectArm(s.arms, i, nested);
        DirectAppend(s.arms[i].body, rest, nested);
        RestartIdles(s.arms[i].body + rest, nested);
        IdlesAppend(s.arms[i].body, rest);
        ArmDoes(s.arms, i);
      } else if !s.Continue? {
        RestartIdles(rest, nested);
      }
    }
  }

  /** With no loop around there is nothing to leave. */
  lemma {:induction false} ReturnRestarts(todo: Code)
    requires CanReturn(todo) && Runnable(todo, false)
    ensures CanRestart(todo)
    decreases Size(todo)
  {
    if todo != [] {
      var s, rest := todo[0], todo[1..];
      assert Size(todo) == StmtSize(s) + Size(rest);
      if s.Branch? {
        var i :| 0 <= i < |s.arms| && CanReturn(s.arms[i].body + rest);
        ArmSizeBound(s.arms, i);
        SizeAppend(s.arms[i].body, rest);
        RunnableArm(s.arms, i, rest);
        ReturnRestarts(s.arms[i].body + rest);
      } else if !s.Continue? {
        ReturnRestarts(rest);
      }
    }
  }

  lemma {:induction false} RunnableArm(arms: seq<Arm>, i: nat, rest: Code)
    requires i < |arms| && ArmsRunnable(arms, false) && Runnable(rest, false)
    ensures Runnable(arms[i].body + rest, false)
  {
    if i > 0 {
      RunnableArm(arms[1..], i - 1, rest);
    } else {
      RunnableAppend(arms[0].body, rest);
    }
  }

  lemma {:induction false} RunnableAppend(a: Code, b: Code)
    requires Runnable(a, false) && Runnable(b, false)
    ensures Runnable(a + b, false)
  {
    if a == [] {
      assert a + b == b;
    } else {
      assert (a + b)[1..] == a[1..] + b;
      RunnableAppend(a[1..], b);
    }
  }

  lemma {:induction false} ClockedTick(stmts: Code, nested: bool)
    requires Clocked(stmts) && Direct(stmts) && Runnable(stmts, nested)
    ensures LoopsTick(stmts)
    decreases stmts, 0
  {
    if stmts != [] {
      ClockedTick(stmts[1..], nested);
      match stmts[0]
      case Branch(_, arms) => ClockedArmsTick(arms, nested);
      case Loop(body) => ClockedBodyTicks(body);
      case While(_, body) => ClockedBodyTicks(body);
      case For(_, _, _, body) =>
        DUnrolledTick(body);
        if !Unrolled(body) {
          ClockedBodyTicks(body);
        }
      case _ =>
    }
  }

  lemma {:induction false} ClockedArmsTick(arms: seq<Arm>, nested: bool)
    requires ArmsClocked(arms) && ArmsDirect(arms) && ArmsRunnable(arms, nested)
    ensures ArmsLoopsTick(arms)
    decreases arms, 0
  {
    if arms != [] {
      ClockedTick(arms[0].body, nested);
      ClockedArmsTick(arms[1..], nested);
    }
  }

  lemma {:induction false} ClockedBodyTicks(body: Code)
    requires !Idles(body) && Clocked(body) && Direct(body) && Runnable(body, true)
    ensures !CanRestart(body) && LoopsTick(body)
    decreases body, 1
  {
    ClockedTick(body, true);
    if CanRestart(body) {
      RestartIdles(body, true);
    }
  }

  /** The check refuses no loop that ticks every time round, as long as the loops nested in it
    * show that they tick; and where no counted loop is left before it ticks it accepts no
    * other.
    */
  lemma DirectAccepted(g: Graph, body: Code)
    requires GraphOf(g, body) && Runnable(body, false) && Direct(body)
    ensures !Idles(body) && Clocked(body) ==> TicksEverywhere(g)
    ensures Unhurried(body) ==> (TicksEverywhere(g) <==> !Idles(body) && Clocked(body))
  {
    AcceptsIff(g, body);
    if !Idles(body) && Clocked(body) {
      ClockedTick(body, false);
      if CanReturn(body) {
        ReturnRestarts(body);
        RestartIdles(body, false);
      }
    }
    if Unhurried(body) && Accepts(body) {
      AcceptedClocked(body);
    }
  }

  lemma AcceptedClocked(body: Code)
    requires Accepts(body) && Runnable(body, false) && Unhurried(body)
    ensures !Idles(body) && Clocked(body)
  {
    if CanRestart(body) {
      RestartReturns(body);
    }
    NoIdling(body);
    TickClocked(body, false);
  }

  // ----- Getting to the next tick --------------------------------------------------------------------------

  predicate Fine(todo: Code, k: Kont) {
    Runnable(todo, !k.Module?) && Clocked(todo)
  }

  predicate FineAround(k: Kont) {
    match k
    case Module(body) => Fine(body, k) && !Idles(body)
    case Nested(body, after, outer) => Fine(body, k) && !Idles(body) && Fine(after, outer) && FineAround(outer)
    case InWhile(_, body, after, outer) => Fine(body, k) && !Idles(body) && Fine(after, outer) && FineAround(outer)
    case InFor(_, _, _, _, body, after, outer) => Fine(body, k) && !Idles(body) && Fine(after, outer) && FineAround(outer)
  }

  lemma {:induction false} FineAppend(a: Code, b: Code, k: Kont)
    ensures Fine(a + b, k) <==> Fine(a, k) && Fine(b, k)
  {
    if a == [] {
      assert a + b == b;
    } else {
      assert (a + b)[1..] == a[1..] + b;
      FineAppend(a[1..], b, k);
    }
  }

  lemma {:induction false} FineArm(arms: seq<Arm>, k: Kont, i: nat)
    requires i < |arms| && ArmsRunnable(arms, !k.Module?) && ArmsClocked(arms)
    ensures Fine(arms[i].body, k)
  {
    if i > 0 {
      FineArm(arms[1..], k, i - 1);
    }
  }

  /** How a list is left in no time. */
  datatype Exit = AtEdge | Through | Restarted | Left

  ghost predicate Exits(todo: Code, rest: Code, k: Kont, o: Seen, x: Exit) {
    match x
    case AtEdge => StandsAtTick(o.cfg) && Fine(o.cfg.todo, o.cfg.k) && FineAround(o.cfg.k)
    case Through => o.cfg == Config(rest, k) && Passes(todo)
    case Restarted => o.cfg == Config([], k) && Restarts(todo)
    case Left => !k.Module? && o.cfg == Config(k.after, k.outer) && Leaves(todo)
  }

  lemma Onward(env: Env, cfg: Config, st: State, n: nat, a: Seen, m: nat, b: Seen) returns (t: nat, o: Seen)
    requires Steps(env, cfg, st, n) == Some(a) && Steps(env, a.cfg, a.st, m) == Some(b)
    ensures Steps(env, cfg, st, t) == Some(o) && o.cfg == b.cfg && o.st == b.st
  {
    StepsCompose(env, cfg, st, n, a, m, b);
    t, o := n + m, Seen(a.log + b.log, b.cfg, b.st);
  }

  /** A list is left within the cycle, by a tick or in one of the ways it may be. */
  lemma {:induction false} ListExits(env: Env, todo: Code, rest: Code, k: Kont, st: State) returns (n: nat, o: Seen, x: Exit)
    requires Fine(todo, k) && Fine(rest, k) && FineAround(k) && RangesOk(env, Config(todo + rest, k), st)
    ensures Steps(env, Config(todo + rest, k), st, n) == Some(o) && Exits(todo, rest, k, o, x)
    decreases Size(todo), 1
  {
    var cfg := Config(todo + rest, k);
    if todo == [] {
      assert todo + rest == rest;
      n, o, x := 0, Seen([], cfg, st), Through;
    } else {
      var tail := todo[1..];
      assert todo + rest == [todo[0]] + (tail + rest) && Size(todo) == StmtSize(todo[0]) + Size(tail);
      FineAppend(tail, rest, k);
      var a, first, y := StmtExits(env, todo[0], tail + rest, k, st);
      n, o, x := a, first, y;
      if y == Through {
        AlwaysSteps(EntersWell, env, cfg, st, a, first);
        var b, last, z := ListExits(env, tail, rest, k, first.st);
        n, o := Onward(env, cfg, st, a, first, b, last);
        x := z;
      }
    }
  }

  lemma {:induction false} StmtExits(env: Env, s: Stmt, rest: Code, k: Kont, st: State) returns (n: nat, o: Seen, x: Exit)
    requires RunnableStmt(s, !k.Module?) && ClockedStmt(s) && Fine(rest, k) && FineAround(k)
    requires RangesOk(env, Config([s] + rest, k), st)
    ensures Steps(env, Config([s] + rest, k), st, n) == Some(o)
    ensures match x
            case Through => o.cfg == Config(rest, k) && StmtPasses(s)
            case Restarted => o.cfg == Config([], k) && StmtRestarts(s)
            case Left => !k.Module? && o.cfg == Config(k.after, k.outer) && StmtLeaves(s)
            case AtEdge => StandsAtTick(o.cfg) && Fine(o.cfg.todo, o.cfg.k) && FineAround(o.cfg.k)
    decreases StmtSize(s), 0
  {
    var cfg := Config([s] + rest, k);
    assert cfg.todo[1..] == rest;
    if s.Tick? {
      n, o, x := 0, Seen([], cfg, st), AtEdge;
    } else if s.Do? {
      n, o, x := 1, Seen(Step(env, cfg, st).log, Config(rest, k), Step(env, cfg, st).st), Through;
      assert Steps(env, o.cfg, o.st, 0) == Some(Seen([], o.cfg, o.st)) && o.log + [] == o.log;
    } else if s.Break? || s.Continue? {
      var m := Step(env, cfg, st);
      Steps1(env, cfg, st, m.cfg, st);
      n, o, x := 1, Seen([], m.cfg, st), if s.Break? then Left else Restarted;
    } else if s.Branch? {
      n, o, x := BranchExits(env, s, rest, k, st);
    } else if s.For? && Unrolled(s.body) {
      UnrolledRuns(env, [s], st, Hold, rest, k) by {
        assert UnrolledStmt(s) && [s][1..] == [];
      }
      var r := Exec(env, [s], st, Hold);
      o, x := Seen(r.log, Config(rest, k), r.st), Through;
      n :| Steps(env, cfg, st, n) == Some(o);
      DUnrolled(s.body);
    } else {
      n, o, x := LoopExits(env, s, rest, k, st);
    }
  }

  lemma {:induction false} BranchExits(env: Env, s: Stmt, rest: Code, k: Kont, st: State) returns (n: nat, o: Seen, x: Exit)
    requires s.Branch? && RunnableStmt(s, !k.Module?) && ClockedStmt(s) && Fine(rest, k) && FineAround(k)
    requires RangesOk(env, Config([s] + rest, k), st)
    ensures Steps(env, Config([s] + rest, k), st, n) == Some(o)
    ensures match x
            case Through => o.cfg == Config(rest, k) && StmtPasses(s)
            case Restarted => o.cfg == Config([], k) && StmtRestarts(s)
            case Left => !k.Module? && o.cfg == Config(k.after, k.outer) && StmtLeaves(s)
            case AtEdge => StandsAtTick(o.cfg) && Fine(o.cfg.todo, o.cfg.k) && FineAround(o.cfg.k)
    decreases StmtSize(s), 0, 0
  {
    var cfg := Config([s] + rest, k);
    assert cfg.todo[1..] == rest;
    var i := Pick(env, s.sel, |s.arms|, st);
    var entered := Config(s.arms[i].body + rest, k);
    ArmSizeBound(s.arms, i);
    FineArm(s.arms, k, i);
    ArmDoes(s.arms, i);
    AlwaysStep(EntersWell, env, cfg, st);
    Steps1(env, cfg, st, entered, st);
    var m, p, y := ListExits(env, s.arms[i].body, rest, k, st);
    n, o := Onward(env, cfg, st, 1, Seen([], entered, st), m, p);
    x := y;
  }

  /** A ticking loop is entered, if at all, and ticks, unless it is left first. */
  lemma {:induction false} LoopExits(env: Env, s: Stmt, rest: Code, k: Kont, st: State) returns (n: nat, o: Seen, x: Exit)
    requires s.Loop? || s.While? || (s.For? && !Unrolled(s.body))
    requires RunnableStmt(s, !k.Module?) && ClockedStmt(s) && Fine(rest, k) && FineAround(k)
    requires RangesOk(env, Config([s] + rest, k), st)
    ensures Steps(env, Config([s] + rest, k), st, n) == Some(o)
    ensures match x
            case Through => o.cfg == Config(rest, k) && StmtPasses(s)
            case AtEdge => StandsAtTick(o.cfg) && Fine(o.cfg.todo, o.cfg.k) && FineAround(o.cfg.k)
            case _ => false
    decreases StmtSize(s), 0, 0
  {
    var cfg := Config([s] + rest, k);
    var ki, st1, j, skipped := Enter(env, s, rest, k, st);
    if skipped {
      n, o, x := j, Seen([], Config(rest, k), st1), Through;
    } else {
      AlwaysSteps(EntersWell, env, cfg, st, j, Seen([], Config(s.body, ki), st1));
      assert s.body + [] == s.body;
      var m, p, y := ListExits(env, s.body, [], ki, st1);
      n, o := Onward(env, cfg, st, j, Seen([], Config(s.body, ki), st1), m, p);
      x := if y == Left then Through else AtEdge;
    }
  }

  /** The first steps at a ticking loop: into its body, or past a `while` that is not taken. */
  lemma Enter(env: Env, s: Stmt, rest: Code, k: Kont, st: State) returns (ki: Kont, st1: State, n: nat, skipped: bool)
    requires s.Loop? || s.While? || (s.For? && !Unrolled(s.body))
    requires RunnableStmt(s, !k.Module?) && ClockedStmt(s) && Fine(rest, k) && FineAround(k)
    requires RangesOk(env, Config([s] + rest, k), st)
    ensures Steps(env, Config([s] + rest, k), st, n) == Some(Seen([], if skipped then Config(rest, k) else Config(s.body, ki), st1))
    ensures skipped ==> StmtPasses(s)
    ensures !skipped ==> !ki.Module? && ki.after == rest && ki.outer == k && FineAround(ki) && Fine(s.body, ki) && !Idles(s.body)
  {
    var cfg := Config([s] + rest, k);
    assert cfg.todo[1..] == rest;
    AlwaysNow(EntersWell, env, cfg, st);
    skipped, st1, n := false, st, 2;
    match s
    case Loop(body) =>
      ki, n := Nested(body, rest, k), 1;
      Steps1(env, cfg, st, Config(body, ki), st);
    case While(c, body) =>
      ki := InWhile(c, body, rest, k);
      skipped := Eval(env, c, st) == 0;
      var next := if skipped then Config(rest, k) else Config(body, ki);
      Steps1(env, Config([], ki), st, next, st);
      StepThen(env, cfg, st, Config([], ki), st, 1, next, st);
    case For(x, lo, hi, body) =>
      var i, top := Eval(env, lo, st), Eval(env, hi, st);
      skipped, ki := i >= top, InFor(x, hi, i + 1, top, body, rest, k);
      st1 := if skipped then st else Assign(st, x, i);
      var before, next := Config([], InFor(x, hi, i, top, body, rest, k)), if skipped then Config(rest, k) else Config(body, ki);
      Steps1(env, before, st, next, st1);
      StepThen(env, cfg, st, before, st, 1, next, st1);
  }

  /** From every point of an accepted loop the clock comes, however many loops are left on
    * the way.
    */
  lemma {:induction false} TickComes(env: Env, todo: Code, k: Kont, st: State) returns (n: nat, o: Seen)
    requires Fine(todo, k) && FineAround(k) && RangesOk(env, Config(todo, k), st)
    ensures Steps(env, Config(todo, k), st, n) == Some(o) && StandsAtTick(o.cfg) && Fine(o.cfg.todo, o.cfg.k) && FineAround(o.cfg.k)
    decreases k, 1
  {
    assert todo + [] == todo;
    var a, p, x := ListExits(env, todo, [], k, st);
    AlwaysSteps(EntersWell, env, Config(todo, k), st, a, p);
    n, o := a, p;
    if x == Left {
      var b, q := TickComes(env, k.after, k.outer, p.st);
      n, o := Onward(env, Config(todo, k), st, a, p, b, q);
    } else if x != AtEdge {
      var b, q := TickComesBack(env, k, p.st);
      n, o := Onward(env, Config(todo, k), st, a, p, b, q);
    }
  }

  lemma {:induction false} TickComesBack(env: Env, k: Kont, st: State) returns (n: nat, o: Seen)
    requires FineAround(k) && RangesOk(env, Config([], k), st)
    ensures Steps(env, Config([], k), st, n) == Some(o) && StandsAtTick(o.cfg) && Fine(o.cfg.todo, o.cfg.k) && FineAround(o.cfg.k)
    decreases k, 0
  {
    var m := Rewind(env, k, st);
    Steps1(env, Config([], k), st, m.cfg, m.st);
    AlwaysStep(EntersWell, env, Config([], k), st);
    var first := Seen([], m.cfg, m.st);
    if !k.Module? && m.cfg == Config(k.after, k.outer) {
      var b, q := TickComes(env, k.after, k.outer, m.st);
      n, o := Onward(env, Config([], k), st, 1, first, b, q);
    } else {
      var k' := m.cfg.k;
      assert k.body + [] == k.body;
      var b, q, x := ListExits(env, k.body, [], k', m.st);
      AlwaysSteps(EntersWell, env, m.cfg, m.st, b, q);
      n, o := Onward(env, Config([], k), st, 1, first, b, q);
      if x == Left {
        var c, r := TickComes(env, k.after, k.outer, q.st);
        n, o := Onward(env, Config([], k), st, n, o, c, r);
      }
    }
  }

  lemma {:induction false} RunsOn(env: Env, cfg: Config, st: State, k: nat) returns (logs: seq<seq<Event>>, c: Config, s: State)
    requires Fine(cfg.todo, cfg.k) && FineAround(cfg.k) && RangesOk(env, cfg, st)
    ensures |logs| == k && Runs(env, cfg, st, logs, c, s)
    decreases k
  {
    if k == 0 {
      logs, c, s := [], cfg, st;
    } else {
      var n, o := TickComes(env, cfg.todo, cfg.k, st);
      CycleBySteps(env, cfg, st, n, o);
      AlwaysSteps(EntersWell, env, cfg, st, n, o);
      AlwaysTick(EntersWell, env, o.cfg, o.st);
      var mid, more := Config(o.cfg.todo[1..], o.cfg.k), [];
      more, c, s := RunsOn(env, mid, Edge(o.st), k - 1);
      logs := [o.log] + more;
      assert logs[1..] == more && Cycle(env, cfg, st, logs[0], mid, Edge(o.st));
    }
  }

  /** When the clock always comes: a loop that gets round no ticking body of its own or
    * nested in it in no time has, from every store and under all inputs, a run of every
    * length, as long as the ranges it enters are not empty unless visibly so.
    */
  lemma ClockedRunsForever(env: Env, body: Code, st: State, k: nat)
    requires Runnable(body, false) && !Idles(body) && Clocked(body)
    requires RangesOk(env, Config(body, Module(body)), st)
    ensures exists logs: seq<seq<Event>>, c: Config, s: State :: |logs| == k && Runs(env, Config(body, Module(body)), st, logs, c, s)
  {
    var logs, c, s := RunsOn(env, Config(body, Module(body)), st, k);
  }

  /** What acceptance means: the check's verdict is that of the corrected test wherever no
    * counted loop is visibly empty or left before it ticks, so the clock always comes.
    */
  lemma AcceptedRunsForever(env: Env, g: Graph, body: Code, st: State, k: nat)
    requires GraphOf(g, body) && TicksEverywhere(g) && Runnable(body, false) && Unhurried(body)
    requires RangesOk(env, Config(body, Module(body)), st)
    ensures !Idles(body) && Clocked(body)
    ensures exists logs: seq<seq<Event>>, c: Config, s: State :: |logs| == k && Runs(env, Config(body, Module(body)), st, logs, c, s)
  {
    AcceptsIff(g, body);
    AcceptedClocked(body);
    ClockedRunsForever(env, body, st, k);
  }

  // ----- An accepted loop that never ticks ---------------------------------------------------------------

  /** `if c { break; } tick;` */
  function Hasty(): Code {
    [If(Var("c"), [Break], []), Tick]
  }

  /** `loop { for i in 0..3 { if c { break; } tick; } }` */
  function Livelock(): Code {
    [For("i", Lit(0), Lit(3), Hasty())]
  }

  lemma HastyLoops()
    ensures LoopsOf(Hasty()) == [] && LoopsOf(Livelock()) == [Hasty()] && ContainsTick(Hasty())
  {
    var wait := Hasty()[0];
    assert Hasty()[1..] == [Tick] && [Tick][1..] == [] && Livelock()[1..] == [];
    assert wait.arms[1..] == [Arm([])] && wait.arms[1..][1..] == [];
    assert ContainsTick([Tick]) && ContainsTick(Hasty());
    assert LoopsOf([Tick]) == [] && LoopsOf([Break]) == [] && LoopsOfArms(wait.arms[1..]) == [] && LoopsOfArms(wait.arms) == [];
    assert LoopsOfStmt(wait) == [] && LoopsOf(Hasty()) == LoopsOf([Tick]) + LoopsOfStmt(wait);
    assert LoopsOf(Livelock()) == LoopsOf([]) + LoopsOfStmt(Livelock()[0]) == [Hasty()];
  }

  lemma HastyTicks()
    ensures !CanRestart(Hasty())
  {
    var wait := Hasty()[0];
    assert Hasty()[1..] == [Tick];
    assert !CanRestart([Tick]) && [Break] + [Tick] == [Break, Tick] && [] + [Tick] == [Tick];
    forall i | 0 <= i < 2 ensures !CanRestart(wait.arms[i].body + [Tick]) {
    }
  }

  lemma LivelockReturns()
    ensures !CanReturn(Livelock())
  {
    HastyLoops();
    assert Livelock()[1..] == [];
  }

  /** The check takes a counted loop to tick: both this loop's graphs are free of zero-time
    * cycles. The corrected test refuses it.
    */
  lemma LivelockAccepted(g: Graph)
    requires GraphOf(g, Livelock())
    ensures TicksEverywhere(g) && Idles(Livelock())
  {
    assert Leaves([Break]) && SomeArmLeaves(Hasty()[0].arms) && Leaves(Hasty()) && Livelock()[1..] == [];
    HastyLoops();
    HastyTicks();
    LivelockReturns();
    OneNested(g, Livelock(), Hasty());
  }

  lemma OneNested(g: Graph, body: Code, inner: Code)
    requires GraphOf(g, body) && LoopsOf(body) == [inner] && LoopsOf(inner) == []
    requires !CanReturn(body) && !CanRestart(inner)
    ensures TicksEverywhere(g)
  {
    CycleIffReturn(g, body);
    var sub := g.nested[0];
    assert SubGraphOf(sub, inner);
    SubCycleIffRestart(sub, inner);
    assert Folds(sub.nested, LoopsOf(inner)) && |sub.nested| == 0;
    assert forall x <- g.nested :: x == sub;
  }

  /** Where the loop is while `c` holds: never in front of a tick. */
  predicate Spinning(cfg: Config, st: State) {
    var home := Module(Livelock());
    && Get(st.vars, "c") != 0
    && (cfg == Config(Livelock(), home) || cfg == Config([], home)
        || cfg == Config([], InFor("i", Lit(3), 0, 3, Hasty(), [], home))
        || cfg == Config(Hasty(), InFor("i", Lit(3), 1, 3, Hasty(), [], home))
        || cfg == Config([Break, Tick], InFor("i", Lit(3), 1, 3, Hasty(), [], home)))
  }

  lemma SpinningSpins(env: Env, cfg: Config, st: State)
    requires Spinning(cfg, st)
    ensures !StandsAtTick(cfg) && (Step(env, cfg, st).Move? ==> Spinning(Step(env, cfg, st).cfg, Step(env, cfg, st).st))
  {
    assert Livelock()[1..] == [] && Hasty()[1..] == [Tick] && [Break] + [Tick] == [Break, Tick];
    assert Hasty()[0].sel == Not(Var("c")) && Eval(env, Var("c"), st) != 0 && Eval(env, Not(Var("c")), st) == 0;
    assert Pick(env, Hasty()[0].sel, 2, st) == 0;
  }

  lemma {:induction false} SpinningStays(env: Env, cfg: Config, st: State, n: nat)
    requires Spinning(cfg, st) && Steps(env, cfg, st, n).Some?
    ensures !StandsAtTick(Steps(env, cfg, st, n).value.cfg)
    decreases n
  {
    SpinningSpins(env, cfg, st);
    if n > 0 {
      var m := Step(env, cfg, st);
      SpinningStays(env, m.cfg, m.st, n - 1);
    }
  }

  /** While `c` holds the loop leaves its counted loop before the tick and starts over, and
    * no clock cycle ever ends: a counted loop that may be left by `break` need not tick.
    */
  lemma LivelockNeverTicks(env: Env, st: State, log: seq<Event>, c: Config, s: State)
    requires Get(st.vars, "c") != 0
    ensures !Cycle(env, Config(Livelock(), Module(Livelock())), st, log, c, s)
  {
    var start := Config(Livelock(), Module(Livelock()));
    forall n: nat | Steps(env, start, st, n).Some? ensures !StandsAtTick(Steps(env, start, st, n).value.cfg) {
      SpinningStays(env, start, st, n);
    }
  }
}
