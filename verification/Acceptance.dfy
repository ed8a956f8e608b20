/** The reachability check stands in front of extraction, on the source as written: why
  * a loop it accepts is one extraction never gives up on.
  */
module Acceptance {
  import opened Syntax
  import opened Gate
  import opened Lowering
  import opened Shape
  import opened Desugaring
  import opened Graphs
  import opened Cfg
  import opened Reachability
  import opened Extraction
  import opened Admission

  /** No counted loop in here has a visibly empty range. */
  predicate Ranged(stmts: Code)
    decreases stmts
  {
    stmts != [] ==> RangedStmt(stmts[0]) && Ranged(stmts[1..])
  }

  predicate RangedStmt(s: Stmt)
    decreases s
  {
    match s
    case For(_, lo, hi, body) => !StaticallyEmpty(lo, hi) && Ranged(body)
    case While(_, body) => Ranged(body)
    case Loop(body) => Ranged(body)
    case Branch(_, arms) => ArmsRanged(arms)
    case _ => true
  }

  predicate ArmsRanged(arms: seq<Arm>)
    decreases arms
  {
    arms != [] ==> Ranged(arms[0].body) && ArmsRanged(arms[1..])
  }

  // ----- The rewrites keep what control can do ----------------------------------------------------

  lemma {:induction false} RangedLeft(stmts: Code)
    requires Ranged(stmts)
    ensures TicksLeft(stmts) == ContainsTick(stmts)
    ensures EndsInTick(stmts) == EndsCounted(stmts)
    decreases stmts, 1
  {
    if stmts != [] {
      RangedLeft(stmts[1..]);
      RangedLeftStmt(stmts[0]);
      RangedAt(stmts, |stmts| - 1);
      if stmts[|stmts| - 1].For? {
        RangedLeft(stmts[|stmts| - 1].body);
      }
    }
  }

  lemma {:induction false} RangedLeftStmt(s: Stmt)
    requires RangedStmt(s)
    ensures TickLeft(s) == StmtContainsTick(s)
    decreases s, 0
  {
    match s
    case Branch(_, arms) => RangedLeftArms(arms);
    case Loop(body) => RangedLeft(body);
    case While(_, body) => RangedLeft(body);
    case For(_, _, _, body) => RangedLeft(body);
    case _ =>
  }

  lemma {:induction false} RangedLeftArms(arms: seq<Arm>)
    requires ArmsRanged(arms)
    ensures ArmsTickLeft(arms) == ArmsContainTick(arms)
    decreases arms, 0
  {
    if arms != [] {
      RangedLeft(arms[0].body);
      RangedLeftArms(arms[1..]);
    }
  }

  lemma {:induction false} RangedAt(stmts: Code, i: nat)
    requires i < |stmts| && Ranged(stmts)
    ensures RangedStmt(stmts[i])
  {
    if i > 0 {
      RangedAt(stmts[1..], i - 1);
    }
  }

  lemma DKeepsControl(stmts: Code)
    requires Ranged(stmts)
    ensures ContainsTick(D(stmts)) == ContainsTick(stmts)
    ensures Breaks(D(stmts)) == Breaks(stmts) && Continues(D(stmts)) == Continues(stmts)
  {
    DKeeps(stmts);
    RangedLeft(stmts);
  }

  lemma DStmtKeepsControl(s: Stmt)
    requires RangedStmt(s)
    ensures ContainsTick(DStmt(s)) == StmtContainsTick(s)
    ensures Breaks(DStmt(s)) == StmtBreaks(s) && Continues(DStmt(s)) == StmtContinues(s)
  {
    DStmtKeeps(s);
    RangedLeftStmt(s);
  }

  /** A ticking counted loop that does not end in its tick does not pass the gate: it is
    * still a counted loop there.
    */
  lemma DeclinedStays(s: Stmt, inLoop: bool)
    requires s.For? && RangedStmt(s) && StmtContainsTick(s) && Flattenable(DStmt(s), inLoop)
    ensures EndsCounted(s.body) && GivesTick(s)
  {
    FlattenableStmtIff(s, inLoop);
    RangedLeft(s.body);
  }

  // ----- Leaving a nested loop before it ticks -------------------------------------------------------

  /** Is there a way from here to a `break` of the enclosing loop in no time? */
  ghost predicate LeavesSoon(w: Code)
    decreases Size(w)
  {
    if w == [] then false else
    var s, rest := w[0], w[1..];
    assert Size(w) == StmtSize(s) + Size(rest);
    if s.Tick? || s.Continue? then false
    else if s.Break? then true
    else if s.Loop? then LeavesSoon(Prefix(s.body)) && LeavesSoon(rest)
    else if s.Branch? && Diverges(s) then
      exists i :: 0 <= i < |s.arms| && (ArmSizeBound(s.arms, i); SizeAppend(s.arms[i].body, rest);
                                        LeavesSoon(s.arms[i].body + rest))
    else LeavesSoon(rest)
  }

  lemma {:induction false} ArmsCanGotoAt(arms: seq<Arm>, rest: Code, exits: seq<Code>) returns (i: nat)
    requires ArmsCanGoto(arms, rest, exits)
    ensures i < |arms| && CanGoto(arms[i].body + rest, exits)
    decreases |arms|
  {
    SizeAppend(arms[0].body, rest);
    if CanGoto(arms[0].body + rest, exits) {
      i := 0;
    } else {
      i := ArmsCanGotoAt(arms[1..], rest, exits);
      i := i + 1;
    }
  }

  lemma PrefixFlattenable(body: Code)
    requires Flattenable(body, true)
    ensures Flattenable(Prefix(body), true)
  {
    var t := FirstTick(body);
    assert body == body[..t] + body[t..];
    FlattenableAppend(body[..t], body[t..], true);
    assert body[..|body|] == body;
  }

  /** From inside a nested loop the head can only be reached by leaving it. */
  lemma {:induction false} GotoLeaves(w: Code, after: Code, exits: seq<Code>)
    requires Flattenable(w, true) && CanGoto(w, [after] + exits)
    ensures LeavesSoon(w) && CanGoto(after, exits)
    decreases Size(w)
  {
    assert ([after] + exits)[1..] == exits;
    if w != [] {
      var s, rest := w[0], w[1..];
      assert Size(w) == StmtSize(s) + Size(rest);
      if s.Loop? {
        PrefixFlattenable(s.body);
        GotoLeaves(Prefix(s.body), rest, [after] + exits);
        GotoLeaves(rest, after, exits);
      } else if s.Branch? && Diverges(s) {
        var i := ArmsCanGotoAt(s.arms, rest, [after] + exits);
        ArmSizeBound(s.arms, i);
        SizeAppend(s.arms[i].body, rest);
        ArmFlattenable(s.arms, i, true);
        FlattenableAppend(s.arms[i].body, rest, true);
        GotoLeaves(s.arms[i].body + rest, after, exits);
      } else if !s.Break? {
        GotoLeaves(rest, after, exits);
      }
    }
  }

  /** What stands behind a tick does not matter to leaving before it. */
  lemma {:induction false} LeavesBeforeTick(w: Code, tail: Code)
    requires LeavesSoon(w)
    ensures LeavesSoon(w + ([Tick] + tail))
    decreases Size(w)
  {
    var s, rest, more := w[0], w[1..], [Tick] + tail;
    assert Size(w) == StmtSize(s) + Size(rest);
    assert (w + more)[1..] == rest + more;
    if s.Loop? {
      LeavesBeforeTick(rest, tail);
    } else if s.Branch? && Diverges(s) {
      var i :| 0 <= i < |s.arms| && LeavesSoon(s.arms[i].body + rest);
      ArmSizeBound(s.arms, i);
      SizeAppend(s.arms[i].body, rest);
      LeavesBeforeTick(s.arms[i].body + rest, tail);
      assert s.arms[i].body + rest + more == s.arms[i].body + (rest + more);
    } else if !s.Break? {
      LeavesBeforeTick(rest, tail);
    }
  }

  lemma PrefixLeaves(body: Code)
    requires LeavesSoon(Prefix(body))
    ensures LeavesSoon(body)
  {
    var t := FirstTick(body);
    if t < |body| {
      LeavesBeforeTick(body[..t], body[t + 1..]);
      assert body == body[..t] + ([Tick] + body[t + 1..]);
    }
  }

  /** The syntactic test is sound: a loop it says ticks before any `break` cannot be left
    * in no time, neither as written nor rewritten.
    */
  lemma {:induction false} TicksFirst(b: Code)
    requires TicksBeforeAnyBreak(b) && Ranged(b) && Flattenable(D(b), true)
    ensures !LeavesSoon(D(b))
    decreases b
  {
    var s, rest := b[0], b[1..];
    FlattenableAppend(DStmt(s), D(rest), true);
    if s.Tick? {
      assert D(b)[0] == Tick;
    } else if s.Loop? {
      assert D(b)[0] == Loop(D(s.body)) && D(b)[1..] == D(rest);
      TicksFirst(s.body);
      if LeavesSoon(Prefix(D(s.body))) {
        PrefixLeaves(D(s.body));
      }
    } else if s.For? {
      DeclinedStays(s, true);
      ForHolds(s, rest);
    } else {
      assert D(b)[0] == DStmt(s)[0] && D(b)[1..] == D(rest);
      DStmtKeepsControl(s);
      JumpsOf(DStmt(s)[0]);
      FlattenableStmtIs(DStmt(s)[0], true);
      TicksFirst(rest);
    }
  }

  /** A counted loop's own tick stands behind it. */
  lemma ForHolds(s: Stmt, rest: Code)
    requires s.For? && GivesTick(s)
    ensures !LeavesSoon(DStmt(s) + D(rest))
  {
    ForBecomes(s);
    var w := DStmt(s) + D(rest);
    assert w[1..][1..] == [Tick] + D(rest);
    assert !LeavesSoon(w[1..][1..]) && !LeavesSoon(w[1..]);
  }

  // ----- Acceptance implies extraction ------------------------------------------------------------------

  /** A list control passes straight through does not come between a point and its return. */
  lemma {:induction false} CalmReturns(a: Code, rest: Code)
    requires !ContainsTick(a) && CanReturn(rest) && Written(a)
    ensures CanReturn(a + rest)
    decreases Size(a)
  {
    if a == [] {
      assert a + rest == rest;
    } else {
      var s := a[0];
      assert Size(a) == StmtSize(s) + Size(a[1..]);
      assert (a + rest)[1..] == a[1..] + rest;
      CalmReturns(a[1..], rest);
      if s.Branch? {
        ArmSizeBound(s.arms, 0);
        SizeAppend(s.arms[0].body, a[1..] + rest);
        assert WrittenStmt(s) && !StmtContainsTick(s) && !ArmsContainTick(s.arms);
        ArmWritten(s.arms, 0);
        CalmReturns(s.arms[0].body, a[1..] + rest);
      } else if s.Loop? && AlwaysTicks(s) {
        TickFirstTicks(s.body);
      }
    }
  }

  lemma {:induction false} GotoReturns(todo: Code)
    requires Ranged(todo) && Written(todo) && Flattenable(D(todo), false)
    requires CanGoto(D(todo), [])
    ensures CanReturn(todo)
    decreases Size(todo)
  {
    if todo != [] {
      var s, rest := todo[0], todo[1..];
      assert Size(todo) == StmtSize(s) + Size(rest);
      FlattenableAppend(DStmt(s), D(rest), false);
      if s.Loop? {
        LoopReturns(D(s.body), D(rest));
        GotoReturns(rest);
        if AlwaysTicks(s) {
          TicksFirstIsText(s.body);
          TicksFirst(s.body);
          PrefixLeaves(D(s.body));
        }
      } else if s.While? && ContainsTick(s.body) {
        LoopReturns([ExitUnless(s.cond)] + D(s.body), D(rest));
        GotoReturns(rest);
      } else if s.For? && StmtContainsTick(s) {
        DeclinedStays(s, false);
        ForNeverReturns(s, rest);
      } else if s.While? || s.For? {
        DKeepsControl(s.body);
        assert D(todo)[0] == DStmt(s)[0] && D(todo)[1..] == D(rest);
        GotoReturns(rest);
      } else if s.Branch? {
        assert todo == [Branch(s.sel, s.arms)] + rest;
        BranchReturns(s.sel, s.arms, rest);
      } else {
        assert D(todo)[0] == s && D(todo)[1..] == D(rest);
        if !s.Continue? {
          GotoReturns(rest);
        }
      }
    }
  }

  lemma ForNeverReturns(s: Stmt, rest: Code)
    requires s.For? && GivesTick(s) && Flattenable(DStmt(s), false)
    ensures !CanGoto(DStmt(s) + D(rest), [])
  {
    ForBecomes(s);
    var w, after := DStmt(s) + D(rest), [Tick] + D(rest);
    assert w[0] == Do(Let(s.counter, s.lo)) && w[1..] == [DStmt(s)[1]] + after;
    assert DStmt(s) == DStmt(s)[..1] + ([DStmt(s)[1]] + [Tick]);
    FlattenableAppend(DStmt(s)[..1], [DStmt(s)[1]] + [Tick], false);
    if CanGoto(w, []) {
      LoopReturns(DStmt(s)[1].body, after);
    }
  }

  lemma LoopReturns(body: Code, after: Code)
    requires FlattenableStmt(Loop(body), false) && CanGoto([Loop(body)] + after, [])
    ensures LeavesSoon(Prefix(body)) && CanGoto(after, [])
  {
    assert ([Loop(body)] + after)[1..] == after;
    PrefixFlattenable(body);
    GotoLeaves(Prefix(body), after, []);
  }

  lemma {:induction false} BranchReturns(sel: Expr, arms: seq<Arm>, rest: Code)
    requires Ranged([Branch(sel, arms)] + rest) && Written([Branch(sel, arms)] + rest)
    requires Flattenable(D([Branch(sel, arms)] + rest), false) && CanGoto(D([Branch(sel, arms)] + rest), [])
    ensures CanReturn([Branch(sel, arms)] + rest)
    decreases Size([Branch(sel, arms)] + rest), 0
  {
    var todo := [Branch(sel, arms)] + rest;
    var d := Branch(sel, DArms(arms));
    assert todo[1..] == rest && D(todo) == [d] + D(rest) && D(todo)[1..] == D(rest);
    assert Size(todo) == StmtSize(todo[0]) + Size(rest);
    DStmtKeepsControl(todo[0]);
    JumpsOf(d);
    if Diverges(d) {
      var i := ArmsCanGotoAt(DArms(arms), D(rest), []);
      ArmParts(arms, i);
      ArmSizeBound(arms, i);
      SizeAppend(arms[i].body, rest);
      DArmAt(arms, i);
      DAppend(arms[i].body, rest);
      ArmFlattenable(DArms(arms), i, false);
      FlattenableAppend(D(arms[i].body), D(rest), false);
      ListParts(arms[i].body, rest);
      GotoReturns(arms[i].body + rest);
    } else {
      GotoReturns(rest);
      ArmSizeBound(arms, 0);
      SizeAppend(arms[0].body, rest);
      ArmParts(arms, 0);
      CalmReturns(arms[0].body, rest);
    }
  }

  lemma {:induction false} ArmParts(arms: seq<Arm>, i: nat)
    requires i < |arms| && ArmsRanged(arms) && ArmsWritten(arms)
    ensures Ranged(arms[i].body) && Written(arms[i].body)
  {
    if i > 0 {
      ArmParts(arms[1..], i - 1);
    }
  }

  lemma {:induction false} ListParts(a: Code, b: Code)
    requires Ranged(a) && Written(a) && Ranged(b) && Written(b)
    ensures Ranged(a + b) && Written(a + b)
  {
    if a == [] {
      assert a + b == b;
    } else {
      assert (a + b)[1..] == a[1..] + b;
      ListParts(a[1..], b);
    }
  }

  lemma {:induction false} DWritten(stmts: Code)
    requires Written(stmts)
    ensures Written(D(stmts))
    decreases stmts, 1
  {
    if stmts != [] {
      DStmtWritten(stmts[0]);
      DWritten(stmts[1..]);
      WrittenAppend(DStmt(stmts[0]), D(stmts[1..]));
    }
  }

  lemma {:induction false} DStmtWritten(s: Stmt)
    requires WrittenStmt(s)
    ensures Written(DStmt(s))
    decreases s, 0
  {
    match s
    case While(c, body) =>
      DWritten(body);
      ExitWritten(Not(c), D(body));
    case For(x, lo, hi, body) =>
      DWritten(body);
      ForWritten(s);
    case Loop(body) => DWritten(body);
    case Branch(sel, arms) => DArmsWritten(arms);
    case _ =>
  }

  lemma ForWritten(f: Stmt)
    requires f.For? && Written(D(f.body))
    ensures Written(DStmt(f))
  {
    ForBecomes(f);
    if GivesTick(f) {
      var work := Work(D(f.body));
      WrittenPrefix(D(f.body), |work|);
      CountedWritten(f.counter, f.hi, work);
      CountedCodeWritten(f.counter, f.lo, CountedBody(f.counter, f.hi, work));
    } else if !Dropped(f) {
      WrittenOne(DStmt(f)[0]);
    }
  }

  lemma WrittenOne(s: Stmt)
    ensures Written([s]) <==> WrittenStmt(s)
  {
    assert [s][1..] == [];
  }

  lemma CountedCodeWritten(x: string, lo: Expr, turn: Code)
    requires Written(turn)
    ensures Written([Do(Let(x, lo)), Loop(turn), Tick])
  {
    WrittenOne(Do(Let(x, lo)));
    WrittenOne(Loop(turn));
    WrittenOne(Tick);
    WrittenAppend([Loop(turn)], [Tick]);
    WrittenAppend([Do(Let(x, lo))], [Loop(turn)] + [Tick]);
    assert [Do(Let(x, lo)), Loop(turn), Tick] == [Do(Let(x, lo))] + ([Loop(turn)] + [Tick]);
  }

  lemma CountedWritten(x: string, hi: Expr, work: Code)
    requires Written(work)
    ensures Written(CountedBody(x, hi, work))
  {
    var exit := [ExitAt(x, hi)];
    ExitWritten(Ge(Var(x), hi), [Tick]);
    assert Closing(x, hi)[1..] == exit + [Tick];
    WrittenAppend(work, Closing(x, hi));
    ExitWritten(Ge(Var(x), hi), work + Closing(x, hi));
    assert exit + work + Closing(x, hi) == exit + (work + Closing(x, hi));
  }

  lemma ExitWritten(cond: Expr, rest: Code)
    requires Written(rest)
    ensures Written([If(cond, [Break], [])] + rest)
  {
    var exit := If(cond, [Break], []);
    assert exit.arms[1..] == [Arm([])] && exit.arms[1..][1..] == [];
    assert Written([Break]) && ArmsWritten(exit.arms[1..]) && ArmsWritten(exit.arms);
    assert ([exit] + rest)[1..] == rest;
  }

  lemma WrittenPrefix(stmts: Code, n: nat)
    requires Written(stmts) && n <= |stmts|
    ensures Written(stmts[..n])
  {
    assert stmts == stmts[..n] + stmts[n..];
    WrittenAppend(stmts[..n], stmts[n..]);
  }

  lemma {:induction false} DArmsWritten(arms: seq<Arm>)
    requires ArmsWritten(arms)
    ensures ArmsWritten(DArms(arms))
    decreases arms, 0
  {
    if arms != [] {
      DWritten(arms[0].body);
      DArmsWritten(arms[1..]);
      assert DArms(arms)[1..] == DArms(arms[1..]);
    }
  }

  /** A loop that cannot return to its head in no time, once rewritten and past the gate,
    * is extracted.
    */
  lemma UnreturningExtracts(body: Code, preloop: Code)
    requires Written(body) && Ranged(body) && Plain(preloop) && !CanReturn(body)
    requires Flattenable(Desugar(body), false)
    ensures Extracted(preloop, Desugar(body)).Some?
  {
    DesugarIsD(body);
    if CanGoto(D(body), []) {
      GotoReturns(body);
    }
    DWritten(body);
    ExtractionSucceeds(preloop, D(body));
  }

  /** Acceptance implies extraction: whatever loop the reachability check accepts, once
    * rewritten and past the gate, is extracted; no marker survives to make it give up.
    */
  lemma AcceptedExtracts(body: Code, preloop: Code, g: Graph)
    requires Written(body) && Ranged(body) && Plain(preloop)
    requires GraphOf(g, body) && TicksEverywhere(g)
    requires Flattenable(Desugar(body), false)
    ensures Extracted(preloop, Desugar(body)).Some?
  {
    CycleIffReturn(g, body);
    UnreturningExtracts(body, preloop);
  }
}
