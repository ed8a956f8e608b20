/** The gate in front of the flattening: which loop bodies it is tried on at all. */
module Gate {
  import opened Syntax

  /** A nested loop's body has to be one segment between two ticks. It is when its
    * first tick is its last statement, or when it has none and ends in a loop that is.
    */
  predicate EndsAtClockBoundary(body: seq<Stmt>)
    decreases body
  {
    var t := FirstTick(body);
    if t < |body| then t + 1 == |body|
    else body != [] && body[|body| - 1].Loop? && EndsAtClockBoundary(body[|body| - 1].body)
  }

  /** The same from the end of the list: nothing in front of the last statement is a tick. */
  lemma ClockBoundary(body: seq<Stmt>)
    ensures EndsAtClockBoundary(body) <==>
      && body != [] && Tick !in body[..|body| - 1]
      && var last := body[|body| - 1]; last == Tick || (last.Loop? && EndsAtClockBoundary(last.body))
  {
    var t := FirstTick(body);
    if body != [] && Tick in body[..|body| - 1] {
      var i :| 0 <= i < |body| - 1 && body[i] == Tick;
    }
    if t + 1 < |body| {
      assert body[..|body| - 1][t] == Tick;
    }
  }

  /** No construct in here stops the flattening; `inLoop` is whether a nested loop
    * encloses the list, which is what gives a `break` something to leave.
    */
  predicate Flattenable(stmts: seq<Stmt>, inLoop: bool)
    decreases stmts
  {
    stmts != [] ==> FlattenableStmt(stmts[0], inLoop) && Flattenable(stmts[1..], inLoop)
  }

  predicate FlattenableStmt(s: Stmt, inLoop: bool)
    decreases s
  {
    match s
    case Break => inLoop
    case Continue => !inLoop
    case Loop(body) => EndsAtClockBoundary(body) && Flattenable(body, true)
    case While(_, body) => !ContainsTick(body)
    case For(_, _, _, body) => !ContainsTick(body)
    case Branch(_, arms) => ArmsFlattenable(arms, inLoop)
    case _ => true
  }

  predicate ArmsFlattenable(arms: seq<Arm>, inLoop: bool)
    decreases arms
  {
    arms != [] ==> Flattenable(arms[0].body, inLoop) && ArmsFlattenable(arms[1..], inLoop)
  }

  /** The statements of a list at every depth, what is inside a `while` or a `for` apart. */
  function Within(stmts: seq<Stmt>): seq<Stmt>
    decreases stmts
  {
    if stmts == [] then [] else WithinStmt(stmts[0]) + Within(stmts[1..])
  }

  function WithinStmt(s: Stmt): seq<Stmt>
    decreases s
  {
    match s
    case Loop(body) => [s] + Within(body)
    case Branch(_, arms) => [s] + WithinArms(arms)
    case _ => [s]
  }

  function WithinArms(arms: seq<Arm>): seq<Stmt>
    decreases arms
  {
    if arms == [] then [] else Within(arms[0].body) + WithinArms(arms[1..])
  }

  /** Nothing about this statement itself stops the flattening. */
  predicate Passable(s: Stmt) {
    && (s.Loop? ==> EndsAtClockBoundary(s.body) && !Continues(s.body))
    && (s.While? || s.For? ==> !StmtContainsTick(s))
  }

  /** The jumps that mean something to the list's own loop are the right ones: a nested loop is
    * left and not restarted, the module's own is restarted and not left.
    */
  predicate JumpsFit(stmts: seq<Stmt>, inLoop: bool) {
    if inLoop then !Continues(stmts) else !Breaks(stmts)
  }

  /** The gate admits exactly the lists whose jumps fit and in which, at whatever depth, every
    * loop is one segment that nothing restarts and no `while` or `for` ticks.
    */
  lemma {:induction false} FlattenableIs(stmts: seq<Stmt>, inLoop: bool)
    ensures Flattenable(stmts, inLoop) <==> JumpsFit(stmts, inLoop) && forall s <- Within(stmts) :: Passable(s)
    decreases stmts, 1
  {
    if stmts != [] {
      FlattenableStmtIs(stmts[0], inLoop);
      FlattenableIs(stmts[1..], inLoop);
    }
  }

  lemma {:induction false} FlattenableStmtIs(s: Stmt, inLoop: bool)
    ensures FlattenableStmt(s, inLoop) <==>
      && (if inLoop then !StmtContinues(s) else !StmtBreaks(s))
      && forall x <- WithinStmt(s) :: Passable(x)
    decreases s, 0
  {
    assert s in WithinStmt(s);
    match s
    case Loop(body) =>
      FlattenableIs(body, true);
      assert forall x <- WithinStmt(s) :: x == s || x in Within(body);
    case Branch(_, arms) =>
      FlattenableArmsAre(arms, inLoop);
      assert forall x <- WithinStmt(s) :: x == s || x in WithinArms(arms);
    case _ =>
      assert forall x <- WithinStmt(s) :: x == s;
  }

  lemma {:induction false} FlattenableArmsAre(arms: seq<Arm>, inLoop: bool)
    ensures ArmsFlattenable(arms, inLoop) <==>
      && (if inLoop then !ArmsContinue(arms) else !ArmsBreak(arms))
      && forall s <- WithinArms(arms) :: Passable(s)
    decreases arms, 0
  {
    if arms != [] {
      FlattenableIs(arms[0].body, inLoop);
      FlattenableArmsAre(arms[1..], inLoop);
    }
  }

  /** Extraction fires only when some tick is inside a branch or a loop, or when the
    * body restarts itself in the middle.
    */
  predicate NeedsExtraction(body: seq<Stmt>) {
    (exists i :: 0 <= i < |body| && body[i] != Tick && StmtContainsTick(body[i])) || Continues(body)
  }

  lemma {:induction false} FlattenableAppend(a: seq<Stmt>, b: seq<Stmt>, inLoop: bool)
    ensures Flattenable(a + b, inLoop) <==> Flattenable(a, inLoop) && Flattenable(b, inLoop)
  {
    if a == [] {
      assert a + b == b;
    } else {
      assert (a + b)[1..] == a[1..] + b;
      FlattenableAppend(a[1..], b, inLoop);
    }
  }

  lemma {:induction false} ArmFlattenable(arms: seq<Arm>, i: nat, inLoop: bool)
    requires i < |arms| && ArmsFlattenable(arms, inLoop)
    ensures Flattenable(arms[i].body, inLoop)
  {
    if i > 0 {
      ArmFlattenable(arms[1..], i - 1, inLoop);
    }
  }
}
