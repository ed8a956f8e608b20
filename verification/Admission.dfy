/** Which loops the gate admits once they are rewritten, told from their text as written. */
module Admission {
  import opened Syntax
  import opened Lowering
  import opened Gate
  import opened Desugaring
  import opened Extraction

  // ----- Where the rewrite of a counted loop applies ---------------------------------------------

  /** The last statement left in this list by the rewrite is a tick: its own, or the one hoisted
    * out of a counted loop that ends in one; a visibly empty one leaves nothing.
    */
  predicate EndsInTick(stmts: Code)
    decreases stmts, 0
  {
    stmts != [] &&
      var n := |stmts| - 1;
      GivesTick(stmts[n]) || (Dropped(stmts[n]) && EndsInTick(stmts[..n]))
  }

  predicate GivesTick(s: Stmt)
    decreases s, 1
  {
    s == Tick || (s.For? && !StaticallyEmpty(s.lo, s.hi) && EndsInTick(s.body))
  }

  predicate Dropped(s: Stmt)
    decreases s, 1
  {
    s.For? && StaticallyEmpty(s.lo, s.hi) && EndsInTick(s.body)
  }

  lemma DLast(stmts: Code)
    requires stmts != []
    ensures D(stmts) == D(stmts[..|stmts| - 1]) + DStmt(stmts[|stmts| - 1])
  {
    var n := |stmts| - 1;
    assert stmts == stmts[..n] + [stmts[n]];
    DAppend(stmts[..n], [stmts[n]]);
    assert D([stmts[n]]) == DStmt(stmts[n]) + D([stmts[n]][1..]) == DStmt(stmts[n]);
  }

  /** A rewritten list ends in a tick just when its text says so. */
  lemma {:induction false} DEndsIff(stmts: Code)
    ensures EndsInTick(stmts) <==> D(stmts) != [] && D(stmts)[|D(stmts)| - 1] == Tick
    decreases stmts, 1
  {
    if stmts != [] {
      var n := |stmts| - 1;
      DLast(stmts);
      if stmts[n].For? {
        ForBecomes(stmts[n]);
      }
      DEndsIff(stmts[..n]);
    }
  }

  /** What a counted loop becomes. Its body is rewritten first. One that then ends in a tick
    * is a plain loop over all its other statements, between the tests, with the tick once
    * more behind it, or nothing when its range is visibly empty; every other one stays a
    * counted loop with its counter, its bounds and all of its body.
    */
  lemma {:induction false} ForBecomes(f: Stmt)
    requires f.For?
    ensures !EndsInTick(f.body) ==> DStmt(f) == [For(f.counter, f.lo, f.hi, D(f.body))]
    ensures Dropped(f) ==> DStmt(f) == []
    ensures f.For? && GivesTick(f) ==>
      && D(f.body) == Work(D(f.body)) + [Tick]
      && DStmt(f) == [Do(Let(f.counter, f.lo)), Loop(CountedBody(f.counter, f.hi, Work(D(f.body)))), Tick]
    decreases f, 0
  {
    DEndsIff(f.body);
    if EndsInTick(f.body) {
      EndsTicks(D(f.body));
    }
  }

  // ----- What of it ticks -------------------------------------------------------------------------

  /** Is a tick left in here by the rewrite? Only visibly empty ranges that end in one go. */
  predicate TicksLeft(stmts: Code)
    decreases stmts
  {
    stmts != [] && (TickLeft(stmts[0]) || TicksLeft(stmts[1..]))
  }

  predicate TickLeft(s: Stmt)
    decreases s
  {
    match s
    case Tick => true
    case Branch(_, arms) => ArmsTickLeft(arms)
    case Loop(body) => TicksLeft(body)
    case While(_, body) => TicksLeft(body)
    case For(_, _, _, body) => !Dropped(s) && TicksLeft(body)
    case _ => false
  }

  predicate ArmsTickLeft(arms: seq<Arm>)
    decreases arms
  {
    arms != [] && (TicksLeft(arms[0].body) || ArmsTickLeft(arms[1..]))
  }

  lemma JumpsOf(s: Stmt)
    ensures ContainsTick([s]) == StmtContainsTick(s)
    ensures Breaks([s]) == StmtBreaks(s) && Continues([s]) == StmtContinues(s)
  {
    assert [s][1..] == [];
  }

  lemma ExitJumps(cond: Expr)
    ensures var exit := If(cond, [Break], []); !StmtContainsTick(exit) && StmtBreaks(exit) && !StmtContinues(exit)
  {
    var arms, none: Code := If(cond, [Break], []).arms, [];
    JumpsOf(Break);
    assert arms[1..] == [Arm(none)] && arms[1..][1..] == [] && arms[0].body == [Break] && arms[1..][0].body == none;
    assert !ContainsTick(none) && !Continues(none) && !ArmsContainTick(arms[1..][1..]) && !ArmsContinue(arms[1..][1..]);
    assert !ArmsContainTick(arms[1..]) && !ArmsContinue(arms[1..]);
    assert !ArmsContainTick(arms) && !ArmsContinue(arms) && ArmsBreak(arms);
  }

  /** The rewrites leave every jump of a list and, visibly empty ranges apart, its ticks. */
  lemma {:induction false} DKeeps(stmts: Code)
    ensures ContainsTick(D(stmts)) == TicksLeft(stmts)
    ensures Breaks(D(stmts)) == Breaks(stmts) && Continues(D(stmts)) == Continues(stmts)
    decreases stmts, 1
  {
    if stmts != [] {
      DStmtKeeps(stmts[0]);
      DKeeps(stmts[1..]);
      ControlAppend(DStmt(stmts[0]), D(stmts[1..]));
    }
  }

  lemma {:induction false} DStmtKeeps(s: Stmt)
    ensures ContainsTick(DStmt(s)) == TickLeft(s)
    ensures Breaks(DStmt(s)) == StmtBreaks(s) && Continues(DStmt(s)) == StmtContinues(s)
    decreases s, 0
  {
    match s
    case While(c, body) =>
      DKeeps(body);
      JumpsOf(DStmt(s)[0]);
      JumpsOf(ExitUnless(c));
      ExitJumps(Not(c));
      ControlAppend([ExitUnless(c)], D(body));
    case For(x, lo, hi, body) =>
      DKeeps(body);
      ForBecomes(s);
      if GivesTick(s) {
        GivenTick(s);
      } else if !Dropped(s) {
        JumpsOf(DStmt(s)[0]);
      }
    case Loop(body) =>
      DKeeps(body);
      JumpsOf(Loop(D(body)));
    case Branch(sel, arms) =>
      DArmsKeep(arms);
      JumpsOf(Branch(sel, DArms(arms)));
    case _ => JumpsOf(s);
  }

  lemma GivenTick(f: Stmt)
    requires f.For? && GivesTick(f)
    ensures ContainsTick(DStmt(f)) && !Breaks(DStmt(f)) && !Continues(DStmt(f)) && ContainsTick(D(f.body))
  {
    ForBecomes(f);
    DEndsIff(f.body);
    EndsTicks(D(f.body));
    var parts := DStmt(f);
    assert parts == [parts[0]] + ([parts[1]] + [Tick]);
    ControlAppend([parts[1]], [Tick]);
    ControlAppend([parts[0]], [parts[1]] + [Tick]);
    JumpsOf(parts[0]);
    JumpsOf(parts[1]);
    JumpsOf(Tick);
  }

  lemma {:induction false} DArmsKeep(arms: seq<Arm>)
    ensures ArmsContainTick(DArms(arms)) == ArmsTickLeft(arms)
    ensures ArmsBreak(DArms(arms)) == ArmsBreak(arms) && ArmsContinue(DArms(arms)) == ArmsContinue(arms)
    decreases arms, 0
  {
    if arms != [] {
      DKeeps(arms[0].body);
      DArmsKeep(arms[1..]);
      assert DArms(arms)[1..] == DArms(arms[1..]);
    }
  }

  lemma {:induction false} LeftTicks(stmts: Code)
    requires !ContainsTick(stmts)
    ensures !TicksLeft(stmts)
    decreases stmts, 1
  {
    if stmts != [] {
      LeftTicks(stmts[1..]);
      match stmts[0]
      case Branch(_, arms) => LeftTicksArms(arms);
      case Loop(body) => LeftTicks(body);
      case While(_, body) => LeftTicks(body);
      case For(_, _, _, body) => LeftTicks(body);
      case _ =>
    }
  }

  lemma {:induction false} LeftTicksArms(arms: seq<Arm>)
    requires !ArmsContainTick(arms)
    ensures !ArmsTickLeft(arms)
    decreases arms, 0
  {
    if arms != [] {
      LeftTicks(arms[0].body);
      LeftTicksArms(arms[1..]);
    }
  }

  // ----- One segment between two ticks --------------------------------------------------------------

  /** The rewritten list is one segment: nothing in front of its last statement gives a tick, and
    * that one is a tick, or a loop that is one segment. What the rewrite drops does not count.
    */
  predicate OneSegment(stmts: Code)
    decreases stmts
  {
    stmts != [] &&
      var n := |stmts| - 1;
      var s := stmts[n];
      if Dropped(s) then OneSegment(stmts[..n])
      else
        && (forall i :: 0 <= i < n ==> !GivesTick(stmts[i]))
        && (GivesTick(s) || (s.Loop? && OneSegment(s.body)) || (s.While? && ContainsTick(s.body) && OneSegment(s.body)))
  }

  lemma {:induction false} TickInD(stmts: Code)
    ensures Tick in D(stmts) <==> exists i :: 0 <= i < |stmts| && GivesTick(stmts[i])
  {
    if stmts != [] {
      var s, rest := stmts[0], stmts[1..];
      TickInD(rest);
      TickInDStmt(s);
      if i :| 0 <= i < |stmts| && GivesTick(stmts[i]) {
        assert i > 0 ==> GivesTick(rest[i - 1]);
      }
      if i :| 0 <= i < |rest| && GivesTick(rest[i]) {
        assert GivesTick(stmts[i + 1]);
      }
    }
  }

  lemma TickInDStmt(s: Stmt)
    ensures Tick in DStmt(s) <==> GivesTick(s)
  {
    if s.For? {
      ForBecomes(s);
      if GivesTick(s) {
        assert DStmt(s)[2] == Tick;
      }
    }
  }

  lemma {:induction false} SegmentIff(stmts: Code)
    ensures EndsAtClockBoundary(D(stmts)) <==> OneSegment(stmts)
    decreases stmts
  {
    if stmts != [] {
      var n := |stmts| - 1;
      var s, front := stmts[n], stmts[..n];
      DLast(stmts);
      if Dropped(s) {
        ForBecomes(s);
        assert D(stmts) == D(front);
        SegmentIff(front);
      } else {
        TickInD(front);
        assert (exists i :: 0 <= i < |front| && GivesTick(front[i])) <==> (exists i :: 0 <= i < n && GivesTick(stmts[i])) by {
          assert forall i :: 0 <= i < n ==> front[i] == stmts[i];
        }
        LastSegment(D(front), s);
      }
    }
  }

  lemma {:induction false} LastSegment(front: Code, s: Stmt)
    requires !Dropped(s)
    ensures EndsAtClockBoundary(front + DStmt(s)) <==>
      && Tick !in front
      && (GivesTick(s) || (s.Loop? && OneSegment(s.body)) || (s.While? && ContainsTick(s.body) && OneSegment(s.body)))
    decreases s
  {
    var all := front + DStmt(s);
    if s.For? {
      ForBecomes(s);
    }
    var n := |all| - 1;
    ClockBoundary(all);
    if GivesTick(s) {
      assert all[..n] == front + DStmt(s)[..|DStmt(s)| - 1];
      assert Tick in all[..n] <==> Tick in front;
    } else {
      assert all[..n] == front && all[n] == DStmt(s)[0];
      if s.Loop? {
        SegmentIff(s.body);
      } else if s.While? && ContainsTick(s.body) {
        SegmentIff(s.body);
        BehindExit(ExitUnless(s.cond), D(s.body));
      }
    }
  }

  lemma BehindExit(exit: Stmt, body: Code)
    requires exit != Tick && !exit.Loop?
    ensures EndsAtClockBoundary([exit] + body) <==> EndsAtClockBoundary(body)
  {
    var all, n := [exit] + body, |body|;
    ClockBoundary(all);
    ClockBoundary(body);
    if body != [] {
      assert all[..n] == [exit] + body[..n - 1] && all[n] == body[n - 1];
    }
  }

  // ----- The gate ----------------------------------------------------------------------------------------

  /** No statement in here stops the flattening of the rewritten list. */
  predicate Flattens(stmts: Code, inLoop: bool)
    decreases stmts
  {
    stmts != [] ==> FlattensStmt(stmts[0], inLoop) && Flattens(stmts[1..], inLoop)
  }

  predicate FlattensStmt(s: Stmt, inLoop: bool)
    decreases s
  {
    match s
    case Break => inLoop
    case Continue => !inLoop
    case Loop(body) => OneSegment(body) && Flattens(body, true)
    case While(_, body) => ContainsTick(body) ==> OneSegment(body) && Flattens(body, true)
    case For(_, lo, hi, body) =>
      if EndsInTick(body) then StaticallyEmpty(lo, hi) || (OneSegment(body) && Flattens(body, true)) else !TicksLeft(body)
    case Branch(_, arms) => ArmsFlatten(arms, inLoop)
    case _ => true
  }

  predicate ArmsFlatten(arms: seq<Arm>, inLoop: bool)
    decreases arms
  {
    arms != [] ==> Flattens(arms[0].body, inLoop) && ArmsFlatten(arms[1..], inLoop)
  }

  lemma AloneFlattenable(s: Stmt, inLoop: bool)
    ensures Flattenable([s], inLoop) <==> FlattenableStmt(s, inLoop)
  {
    assert [s][1..] == [];
  }

  lemma ExitFlattenable(cond: Expr)
    ensures FlattenableStmt(If(cond, [Break], []), true)
  {
    var arms := If(cond, [Break], []).arms;
    AloneFlattenable(Break, true);
    assert arms[1..] == [Arm([])] && arms[1..][1..] == [];
    assert ArmsFlattenable(arms[1..], true);
  }

  /** The gate's verdict on a rewritten list is one on the text: every loop in it is one segment,
    * and a counted loop that does not end in a tick must have none left.
    */
  lemma {:induction false} FlattenableIff(stmts: Code, inLoop: bool)
    ensures Flattenable(D(stmts), inLoop) <==> Flattens(stmts, inLoop)
    decreases stmts, 1
  {
    if stmts != [] {
      FlattenableAppend(DStmt(stmts[0]), D(stmts[1..]), inLoop);
      FlattenableStmtIff(stmts[0], inLoop);
      FlattenableIff(stmts[1..], inLoop);
    }
  }

  lemma {:induction false} FlattenableStmtIff(s: Stmt, inLoop: bool)
    ensures Flattenable(DStmt(s), inLoop) <==> FlattensStmt(s, inLoop)
    decreases s, 0
  {
    match s
    case Loop(body) =>
      AloneFlattenable(Loop(D(body)), inLoop);
      SegmentIff(body);
      FlattenableIff(body, true);
    case While(c, body) => WhileIff(s, inLoop);
    case For(x, lo, hi, body) => ForIff(s, inLoop);
    case Branch(sel, arms) =>
      AloneFlattenable(Branch(sel, DArms(arms)), inLoop);
      FlattenableArmsIff(arms, inLoop);
    case _ => AloneFlattenable(s, inLoop);
  }

  lemma {:induction false} WhileIff(s: Stmt, inLoop: bool)
    requires s.While?
    ensures Flattenable(DStmt(s), inLoop) <==> FlattensStmt(s, inLoop)
    decreases s.body, 2
  {
    var exit, body := ExitUnless(s.cond), D(s.body);
    AloneFlattenable(DStmt(s)[0], inLoop);
    if ContainsTick(s.body) {
      SegmentIff(s.body);
      BehindExit(exit, body);
      FlattenableIff(s.body, true);
      ExitFlattenable(Not(s.cond));
      assert ([exit] + body)[1..] == body;
    } else {
      LeftTicks(s.body);
      DKeeps(s.body);
    }
  }

  lemma {:induction false} ForIff(f: Stmt, inLoop: bool)
    requires f.For?
    ensures Flattenable(DStmt(f), inLoop) <==> FlattensStmt(f, inLoop)
    decreases f.body, 2
  {
    ForBecomes(f);
    DKeeps(f.body);
    if GivesTick(f) {
      var work := Work(D(f.body));
      FlattenableIff(f.body, true);
      SegmentIff(f.body);
      CountedIff(f.counter, f.hi, work);
      CountedCode(f.counter, f.lo, f.hi, work, inLoop);
    } else if !Dropped(f) {
      AloneFlattenable(DStmt(f)[0], inLoop);
    }
  }

  /** The loop a counted loop becomes is one segment when its body was. */
  lemma CountedIff(x: string, hi: Expr, work: Code)
    ensures EndsAtClockBoundary(CountedBody(x, hi, work)) <==> EndsAtClockBoundary(work + [Tick])
    ensures Flattenable(CountedBody(x, hi, work), true) <==> Flattenable(work + [Tick], true)
  {
    var body, exit, count := CountedBody(x, hi, work), ExitAt(x, hi), Do(Set(x, AddU32(Var(x), Lit(1))));
    var n := |body| - 1;
    ClockBoundary(body);
    ClockBoundary(work + [Tick]);
    assert body[..n] == [exit] + work + [count, exit] && (work + [Tick])[..|work|] == work;
    ExitFlattenable(Ge(Var(x), hi));
    AloneFlattenable(exit, true);
    AloneFlattenable(count, true);
    AloneFlattenable(Tick, true);
    FlattenableAppend(work, [Tick], true);
    FlattenableAppend([exit], work, true);
    FlattenableAppend([exit] + work, Closing(x, hi), true);
    assert Closing(x, hi) == [count] + ([exit] + [Tick]);
    FlattenableAppend([exit], [Tick], true);
    FlattenableAppend([count], [exit] + [Tick], true);
  }

  lemma CountedCode(x: string, lo: Expr, hi: Expr, work: Code, inLoop: bool)
    ensures Flattenable([Do(Let(x, lo)), Loop(CountedBody(x, hi, work)), Tick], inLoop) <==>
      EndsAtClockBoundary(CountedBody(x, hi, work)) && Flattenable(CountedBody(x, hi, work), true)
  {
    var first, turn := Do(Let(x, lo)), Loop(CountedBody(x, hi, work));
    assert [first, turn, Tick] == [first] + ([turn] + [Tick]);
    FlattenableAppend([turn], [Tick], inLoop);
    FlattenableAppend([first], [turn] + [Tick], inLoop);
    AloneFlattenable(first, inLoop);
    AloneFlattenable(turn, inLoop);
    AloneFlattenable(Tick, inLoop);
  }

  lemma {:induction false} FlattenableArmsIff(arms: seq<Arm>, inLoop: bool)
    ensures ArmsFlattenable(DArms(arms), inLoop) <==> ArmsFlatten(arms, inLoop)
    decreases arms, 0
  {
    if arms != [] {
      FlattenableIff(arms[0].body, inLoop);
      FlattenableArmsIff(arms[1..], inLoop);
      assert DArms(arms)[1..] == DArms(arms[1..]);
    }
  }

  /** Extraction is tried on this loop, read as written: nothing in it stops the flattening, a
    * tick is left in it, and one is inside a branch or a loop, or the body restarts itself.
    */
  predicate Admits(body: Code) {
    && Flattens(body, false) && TicksLeft(body)
    && (Continues(body) || exists i :: 0 <= i < |body| && body[i] != Tick && TickLeft(body[i]))
  }

  lemma AdmittedIsText(body: Code)
    ensures Admitted(D(body)) <==> Admits(body)
  {
    FlattenableIff(body, false);
    DKeeps(body);
    DeepIff(body);
  }

  /** Some tick of the list is inside a branch or a loop. */
  predicate Deep(stmts: Code) {
    exists i :: 0 <= i < |stmts| && stmts[i] != Tick && StmtContainsTick(stmts[i])
  }

  lemma DeepAppend(a: Code, b: Code)
    ensures Deep(a + b) <==> Deep(a) || Deep(b)
  {
    var c := a + b;
    if Deep(a) {
      var i :| 0 <= i < |a| && a[i] != Tick && StmtContainsTick(a[i]);
      assert c[i] == a[i];
    }
    if Deep(b) {
      var i :| 0 <= i < |b| && b[i] != Tick && StmtContainsTick(b[i]);
      assert c[|a| + i] == b[i];
    }
    if Deep(c) && !Deep(a) {
      var i :| 0 <= i < |c| && c[i] != Tick && StmtContainsTick(c[i]);
      assert i < |a| ==> a[i] == c[i];
      assert i >= |a| ==> b[i - |a|] == c[i];
    }
  }

  lemma {:induction false} DeepIff(stmts: Code)
    ensures Deep(D(stmts)) <==> exists i :: 0 <= i < |stmts| && stmts[i] != Tick && TickLeft(stmts[i])
  {
    if stmts != [] {
      var s, rest := stmts[0], stmts[1..];
      DeepIff(rest);
      DeepStmt(s);
      DeepAppend(DStmt(s), D(rest));
      if i :| 0 <= i < |stmts| && stmts[i] != Tick && TickLeft(stmts[i]) {
        assert i > 0 ==> rest[i - 1] == stmts[i];
      }
      if i :| 0 <= i < |rest| && rest[i] != Tick && TickLeft(rest[i]) {
        assert stmts[i + 1] == rest[i];
      }
    }
  }

  lemma DeepStmt(s: Stmt)
    ensures Deep(DStmt(s)) <==> s != Tick && TickLeft(s)
  {
    DStmtKeeps(s);
    if s.For? {
      ForBecomes(s);
      if GivesTick(s) {
        DEndsIff(s.body);
        var work := Work(D(s.body));
        var turn := CountedBody(s.counter, s.hi, work);
        assert turn[|turn| - 1] == Tick;
        EndsTicks(turn);
        assert DStmt(s)[1] == Loop(turn);
        DKeeps(s.body);
        EndsTicks(D(s.body));
      }
    }
    if DStmt(s) != [] && !(s.For? && GivesTick(s)) {
      assert |DStmt(s)| == 1 && DStmt(s) == [DStmt(s)[0]];
      JumpsOf(DStmt(s)[0]);
    }
  }

  /** A counted loop without a tick stops nothing. */
  lemma TickFreeForPasses(s: Stmt, inLoop: bool)
    requires s.For? && !StmtContainsTick(s)
    ensures FlattensStmt(s, inLoop) && Flattenable(DStmt(s), inLoop)
  {
    LeftTicks(s.body);
    DEndsIff(s.body);
    DKeeps(s.body);
    if EndsInTick(s.body) {
      EndsTicks(D(s.body));
    }
    FlattenableStmtIff(s, inLoop);
  }
}
