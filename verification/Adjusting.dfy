/** The source program a flattened machine really runs. Where a nested loop's work ends
  * in a tick of its own, the flattening takes that tick for the loop's; where a nested
  * loop can run off its end without one, it adds one. `Adjusted` makes both changes in
  * the source, and `Exact` is the condition under which there is none to make.
  */
module Adjusting {
  import opened Syntax
  import opened Lowering
  import opened Gate
  import opened Shape

  /** What the lowering behind extraction takes of the loops left in a state: counted ones
    * that unroll. It refuses every `while`, and `break` or `continue` in a state.
    */
  predicate Lowerable(stmts: Code)
    decreases stmts
  {
    stmts != [] ==> LowerableStmt(stmts[0]) && Lowerable(stmts[1..])
  }

  predicate LowerableStmt(s: Stmt)
    decreases s
  {
    match s
    case Loop(body) => Lowerable(body)
    case Branch(_, arms) => ArmsLowerable(arms)
    case While(_, _) => false
    case For(_, _, _, body) => Unrolled(body)
    case _ => true
  }

  predicate ArmsLowerable(arms: seq<Arm>)
    decreases arms
  {
    arms != [] ==> Lowerable(arms[0].body) && ArmsLowerable(arms[1..])
  }

  lemma {:induction false} LowerableAppend(a: Code, b: Code)
    ensures Lowerable(a + b) <==> Lowerable(a) && Lowerable(b)
  {
    if a == [] {
      assert a + b == b;
    } else {
      assert (a + b)[1..] == a[1..] + b;
      LowerableAppend(a[1..], b);
    }
  }

  lemma {:induction false} ArmLowerable(arms: seq<Arm>, i: nat)
    requires i < |arms| && ArmsLowerable(arms)
    ensures Lowerable(arms[i].body)
  {
    if i > 0 {
      ArmLowerable(arms[1..], i - 1);
    }
  }

  /** What control passes straight through unrolls. */
  lemma {:induction false} CalmUnrolls(stmts: Code, inLoop: bool)
    requires Written(stmts) && Flattenable(stmts, inLoop) && Lowerable(stmts)
    requires !ContainsTick(stmts) && !Breaks(stmts) && !Continues(stmts)
    ensures Unrolled(stmts)
    decreases stmts
  {
    if stmts != [] {
      CalmUnrolls(stmts[1..], inLoop);
      match stmts[0]
      case Branch(_, arms) => CalmArmsUnroll(arms, inLoop);
      case Loop(body) => BoundaryTicks(body);
      case _ =>
    }
  }

  lemma {:induction false} CalmArmsUnroll(arms: seq<Arm>, inLoop: bool)
    requires ArmsWritten(arms) && ArmsFlattenable(arms, inLoop) && ArmsLowerable(arms)
    requires !ArmsContainTick(arms) && !ArmsBreak(arms) && !ArmsContinue(arms)
    ensures ArmsUnrolled(arms)
    decreases arms
  {
    if arms != [] {
      CalmUnrolls(arms[0].body, inLoop);
      CalmArmsUnroll(arms[1..], inLoop);
    }
  }

  // ----- The condition --------------------------------------------------------------------------

  /** Control never runs off the end: the last statement is a loop nothing leaves. */
  predicate Endless(body: Code) {
    body != [] && body[|body| - 1].Loop? && !Breaks(body[|body| - 1].body)
  }

  /** No path leaves this list by a tick that is its last statement. */
  predicate NoTailTick(stmts: Code)
    decreases stmts
  {
    if stmts == [] then true else
    var rest := stmts[1..];
    match stmts[0]
    case Tick => rest != [] && NoTailTick(rest)
    case Break => true
    case Continue => true
    case Branch(_, arms) => if rest == [] then ArmsNoTailTick(arms) else NoTailTick(rest)
    case _ => NoTailTick(rest)
  }

  predicate ArmsNoTailTick(arms: seq<Arm>)
    decreases arms
  {
    arms != [] ==> NoTailTick(arms[0].body) && ArmsNoTailTick(arms[1..])
  }

  /** Every nested loop has a tick of its own or ends in a loop that is never left, and no
    * path through the work before its tick ends in another tick.
    */
  predicate Exact(stmts: Code)
    decreases stmts
  {
    stmts != [] ==> ExactStmt(stmts[0]) && Exact(stmts[1..])
  }

  predicate ExactStmt(s: Stmt)
    decreases s
  {
    match s
    case Loop(body) => (FirstTick(body) < |body| || Endless(body)) && NoTailTick(body[..FirstTick(body)]) && Exact(body)
    case Branch(_, arms) => ArmsExact(arms)
    case _ => true
  }

  predicate ArmsExact(arms: seq<Arm>)
    decreases arms
  {
    arms != [] ==> Exact(arms[0].body) && ArmsExact(arms[1..])
  }

  lemma {:induction false} ExactAppend(a: Code, b: Code)
    ensures Exact(a + b) <==> Exact(a) && Exact(b)
  {
    if a == [] {
      assert a + b == b;
    } else {
      assert (a + b)[1..] == a[1..] + b;
      ExactAppend(a[1..], b);
    }
  }

  // ----- The adjustment ---------------------------------------------------------------------------

  /** A list with the ticks its paths end in taken off. */
  function Trimmed(w: Code): Code
    decreases w
  {
    if w == [] then [] else
    var rest := w[1..];
    match w[0]
    case Tick => if rest == [] then [] else [Tick] + Trimmed(rest)
    case Break => w
    case Continue => w
    case Branch(sel, arms) => if rest == [] then [Branch(sel, TrimmedArms(arms))] else [w[0]] + Trimmed(rest)
    case _ => [w[0]] + Trimmed(rest)
  }

  function TrimmedArms(arms: seq<Arm>): (r: seq<Arm>)
    ensures |r| == |arms|
    decreases arms
  {
    if arms == [] then [] else [Arm(Trimmed(arms[0].body))] + TrimmedArms(arms[1..])
  }

  /** Every nested loop, at any depth, with its tick where the machine takes it. */
  function Adjusted(stmts: Code): (r: Code)
    ensures |r| == |stmts|
    decreases stmts
  {
    if stmts == [] then [] else [AdjustedStmt(stmts[0])] + Adjusted(stmts[1..])
  }

  function AdjustedStmt(s: Stmt): Stmt
    decreases s
  {
    match s
    case Loop(body) =>
      var work := Trimmed(Adjusted(body)[..FirstTick(body)]);
      Loop(if Endless(body) then work else work + [Tick])
    case Branch(sel, arms) => Branch(sel, AdjustedArms(arms))
    case _ => s
  }

  function AdjustedArms(arms: seq<Arm>): (r: seq<Arm>)
    ensures |r| == |arms|
    decreases arms
  {
    if arms == [] then [] else [Arm(Adjusted(arms[0].body))] + AdjustedArms(arms[1..])
  }

  lemma {:induction false} AdjustedPrefix(stmts: Code, n: nat)
    requires n <= |stmts|
    ensures Adjusted(stmts)[..n] == Adjusted(stmts[..n])
  {
    if n > 0 {
      AdjustedPrefix(stmts[1..], n - 1);
      assert stmts[..n][1..] == stmts[1..][..n - 1];
    }
  }

  // ----- Nothing to adjust ---------------------------------------------------------------------------

  /** Nothing is adjusted exactly in the lists that meet the condition. */
  lemma {:induction false} AdjustedIsExact(stmts: Code, inLoop: bool)
    requires Flattenable(stmts, inLoop)
    ensures Adjusted(stmts) == stmts <==> Exact(stmts)
    decreases Size(stmts), 1
  {
    if stmts != [] {
      assert stmts == [stmts[0]] + stmts[1..];
      AdjustedStmtIsExact(stmts[0], inLoop);
      AdjustedIsExact(stmts[1..], inLoop);
    }
  }

  lemma {:induction false} AdjustedStmtIsExact(s: Stmt, inLoop: bool)
    requires FlattenableStmt(s, inLoop)
    ensures AdjustedStmt(s) == s <==> ExactStmt(s)
    decreases StmtSize(s), 0
  {
    match s
    case Branch(_, arms) => AdjustedArmsAreExact(arms, inLoop);
    case Loop(body) => AdjustedLoopIsExact(body);
    case _ =>
  }

  lemma {:induction false} AdjustedLoopIsExact(body: Code)
    requires FlattenableStmt(Loop(body), false)
    ensures AdjustedStmt(Loop(body)) == Loop(body) <==> ExactStmt(Loop(body))
    decreases Size(body), 3
  {
    var t := FirstTick(body);
    PrefixFlattens(body, t);
    AdjustedPrefix(body, t);
    TrimmedIsExact(body[..t], true);
    if t < |body| {
      OwnTickIsExact(body, Trimmed(Adjusted(body[..t])));
    } else {
      assert body[..t] == body;
      BoundaryLoops(body);
      TrimmedLength(Adjusted(body));
      OneLonger(body);
    }
  }

  /** Comparing a loop that ends in its own tick with its adjusted work and that tick. */
  lemma OwnTickIsExact(body: Code, w: Code)
    requires EndsAtClockBoundary(body) && FirstTick(body) < |body|
    ensures body == body[..FirstTick(body)] + [Tick] && !Endless(body)
    ensures w + [Tick] == body <==> w == body[..FirstTick(body)]
    ensures Exact(body) <==> Exact(body[..FirstTick(body)])
  {
    var work := body[..FirstTick(body)];
    assert body == work + [Tick];
    ExactAppend(work, [Tick]);
    if w + [Tick] == body {
      assert w == body[..|w|];
    }
  }

  /** A loop without a tick of its own is kept only if none is added. */
  lemma OneLonger(body: Code)
    requires FirstTick(body) == |body| && |Trimmed(Adjusted(body))| <= |body|
    requires body != [] && body[|body| - 1].Loop?
    ensures NoTailTick(body)
    ensures !Endless(body) ==> Trimmed(Adjusted(body)) + [Tick] != body
  {
    NoTailBeforeLoop(body);
    var w := Trimmed(Adjusted(body)) + [Tick];
    assert w[|w| - 1] == Tick;
  }

  lemma {:induction false} NoTailBeforeLoop(w: Code)
    requires w != [] && w[|w| - 1].Loop?
    ensures NoTailTick(w)
  {
    if |w| > 1 {
      NoTailBeforeLoop(w[1..]);
    }
  }

  lemma PrefixFlattens(body: Code, t: nat)
    requires Flattenable(body, true) && t <= |body|
    ensures Flattenable(body[..t], true) && Size(body[..t]) <= Size(body)
  {
    assert body == body[..t] + body[t..];
    FlattenableAppend(body[..t], body[t..], true);
    SizeAppend(body[..t], body[t..]);
  }

  /** A body without a tick of its own ends in a loop. */
  lemma BoundaryLoops(body: Code)
    requires EndsAtClockBoundary(body) && FirstTick(body) == |body|
    ensures body != [] && body[|body| - 1].Loop?
  {
  }

  lemma {:induction false} TrimmedLength(w: Code)
    ensures |Trimmed(w)| <= |w|
  {
    if w != [] {
      TrimmedLength(w[1..]);
    }
  }

  lemma {:induction false} AdjustedArmsAreExact(arms: seq<Arm>, inLoop: bool)
    requires ArmsFlattenable(arms, inLoop)
    ensures AdjustedArms(arms) == arms <==> ArmsExact(arms)
    decreases ArmsSize(arms), 0
  {
    if arms != [] {
      assert arms == [arms[0]] + arms[1..];
      AdjustedIsExact(arms[0].body, inLoop);
      AdjustedArmsAreExact(arms[1..], inLoop);
    }
  }

  lemma {:induction false} TrimmedIsExact(w: Code, inLoop: bool)
    requires Flattenable(w, inLoop)
    ensures Trimmed(Adjusted(w)) == w <==> Exact(w) && NoTailTick(w)
    decreases Size(w), 2
  {
    if w != [] {
      var rest, a := w[1..], Adjusted(w);
      assert w == [w[0]] + rest && a[1..] == Adjusted(rest) && a[0] == AdjustedStmt(w[0]);
      AdjustedStmtIsExact(w[0], inLoop);
      AdjustedIsExact(rest, inLoop);
      TrimmedIsExact(rest, inLoop);
      if w[0].Branch? && rest == [] {
        TrimmedArmsAreExact(w[0].arms, inLoop);
      }
    }
  }

  lemma {:induction false} TrimmedArmsAreExact(arms: seq<Arm>, inLoop: bool)
    requires ArmsFlattenable(arms, inLoop)
    ensures TrimmedArms(AdjustedArms(arms)) == arms <==> ArmsExact(arms) && ArmsNoTailTick(arms)
    decreases ArmsSize(arms), 0
  {
    if arms != [] {
      assert arms == [arms[0]] + arms[1..];
      TrimmedIsExact(arms[0].body, inLoop);
      TrimmedArmsAreExact(arms[1..], inLoop);
      assert AdjustedArms(arms)[1..] == AdjustedArms(arms[1..]);
    }
  }

  // ----- What the machine is related to -----------------------------------------------------------------

  /** `b` is `a` with its nested loops adjusted and, when `tail`, the ticks its paths end in
    * taken off. What stands behind a `break` or `continue` does not matter.
    */
  predicate Adjusts(a: Code, b: Code, tail: bool)
    decreases Size(a), 1
  {
    if a == [] then b == [] else
    var rest := a[1..];
    assert Size(a) == StmtSize(a[0]) + Size(rest);
    if a[0].Tick? && rest == [] && tail then b == [] else
    b != [] &&
    match a[0]
    case Break => b[0] == Break
    case Continue => b[0] == Continue
    case Loop(x) => b[0].Loop? && AdjustsLoop(x, b[0].body) && Adjusts(rest, b[1..], tail)
    case Branch(sel, arms) =>
      && b[0].Branch? && b[0].sel == sel && AdjustsArms(arms, b[0].arms, tail && rest == [])
      && Adjusts(rest, b[1..], tail)
    case _ => b[0] == a[0] && Adjusts(rest, b[1..], tail)
  }

  /** The body of an adjusted loop: its work, and the loop's tick unless it is never reached. */
  predicate AdjustsLoop(x: Code, y: Code)
    decreases Size(x), 2
  {
    if Endless(x) then Adjusts(Prefix(x), y, true) && (y == [] || y[|y| - 1] != Tick)
    else y != [] && y[|y| - 1] == Tick && Adjusts(Prefix(x), y[..|y| - 1], true)
  }

  predicate AdjustsArms(arms: seq<Arm>, bs: seq<Arm>, tail: bool)
    decreases ArmsSize(arms), 0
  {
    if arms == [] then bs == []
    else bs != [] && Adjusts(arms[0].body, bs[0].body, tail) && AdjustsArms(arms[1..], bs[1..], tail)
  }

  lemma {:induction false} AdjustsArmAt(arms: seq<Arm>, bs: seq<Arm>, tail: bool, i: nat)
    requires AdjustsArms(arms, bs, tail) && i < |arms|
    ensures |bs| == |arms| && Adjusts(arms[i].body, bs[i].body, tail)
  {
    AdjustsArmsCount(arms, bs, tail);
    if i > 0 {
      AdjustsArmAt(arms[1..], bs[1..], tail, i - 1);
    }
  }

  lemma {:induction false} AdjustsArmsCount(arms: seq<Arm>, bs: seq<Arm>, tail: bool)
    requires AdjustsArms(arms, bs, tail)
    ensures |bs| == |arms|
  {
    if arms != [] {
      AdjustsArmsCount(arms[1..], bs[1..], tail);
    }
  }

  /** Inlining a continuation behind an arm moves the tail, not what is in it. */
  lemma {:induction false} AdjustsInline(a: Code, a': Code, rest: Code, rest': Code, tail: bool)
    requires Adjusts(rest, rest', tail) && Adjusts(a, a', tail && rest == [])
    ensures Adjusts(a + rest, a' + rest', tail)
    decreases a
  {
    if a == [] {
      assert a + rest == rest && a' + rest' == rest';
    } else if rest == [] {
      assert a + rest == a && a' + rest' == a';
    } else {
      assert (a + rest)[1..] == a[1..] + rest && (a' + rest')[1..] == a'[1..] + rest';
      if !a[0].Break? && !a[0].Continue? {
        AdjustsInline(a[1..], a'[1..], rest, rest', tail);
      }
    }
  }

  /** What control passes straight through is not adjusted. */
  lemma {:induction false} AdjustsCalm(a: Code, b: Code, tail: bool)
    requires Adjusts(a, b, tail) && Unrolled(a)
    ensures a == b
    decreases a
  {
    if a != [] {
      AdjustsCalm(a[1..], b[1..], tail);
      if a[0].Branch? {
        AdjustsArmsCalm(a[0].arms, b[0].arms, tail && a[1..] == []);
      }
      assert a == [a[0]] + a[1..] && b == [b[0]] + b[1..];
    }
  }

  lemma {:induction false} AdjustsArmsCalm(arms: seq<Arm>, bs: seq<Arm>, tail: bool)
    requires AdjustsArms(arms, bs, tail) && ArmsUnrolled(arms)
    ensures arms == bs
    decreases arms
  {
    if arms != [] {
      AdjustsCalm(arms[0].body, bs[0].body, tail);
      AdjustsArmsCalm(arms[1..], bs[1..], tail);
      assert arms == [arms[0]] + arms[1..] && bs == [bs[0]] + bs[1..];
    }
  }

  lemma {:induction false} AdjustedAdjusts(stmts: Code, inLoop: bool)
    requires Flattenable(stmts, inLoop)
    ensures Adjusts(stmts, Adjusted(stmts), false) && Adjusts(stmts, Trimmed(Adjusted(stmts)), true)
    decreases Size(stmts), 1
  {
    if stmts != [] {
      var rest, a := stmts[1..], Adjusted(stmts);
      assert a[1..] == Adjusted(rest) && a[0] == AdjustedStmt(stmts[0]);
      assert Size(stmts) == StmtSize(stmts[0]) + Size(rest);
      AdjustedAdjusts(rest, inLoop);
      match stmts[0] {
        case Branch(_, arms) => AdjustedArmsAdjust(arms, inLoop);
        case Loop(body) => AdjustedLoopAdjusts(body);
        case _ =>
      }
      assert Trimmed(a) != [] ==> Trimmed(a)[1..] == Trimmed(a[1..]) || stmts[0].Break? || stmts[0].Continue?;
    }
  }

  lemma {:induction false} AdjustedLoopAdjusts(body: Code)
    requires FlattenableStmt(Loop(body), false)
    ensures AdjustsLoop(body, AdjustedStmt(Loop(body)).body)
    decreases Size(body), 2
  {
    var t, y := FirstTick(body), AdjustedStmt(Loop(body)).body;
    PrefixFlattens(body, t);
    AdjustedPrefix(body, t);
    AdjustedAdjusts(body[..t], true);
    assert Prefix(body) == body[..t];
    var w := Trimmed(Adjusted(body)[..t]);
    if Endless(body) {
      assert body[..t] == body;
      var a := Adjusted(body);
      AdjustedLast(body);
      TrimmedBeforeLoop(a);
    } else {
      assert y == w + [Tick] && y[..|y| - 1] == w;
    }
  }

  lemma {:induction false} AdjustedLast(stmts: Code)
    requires stmts != []
    ensures Adjusted(stmts)[|stmts| - 1] == AdjustedStmt(stmts[|stmts| - 1])
  {
    if |stmts| > 1 {
      AdjustedLast(stmts[1..]);
    }
  }

  lemma {:induction false} TrimmedBeforeLoop(w: Code)
    requires w != [] && w[|w| - 1].Loop?
    ensures Trimmed(w) == w
  {
    assert w == [w[0]] + w[1..];
    if |w| > 1 {
      TrimmedBeforeLoop(w[1..]);
    }
  }

  lemma {:induction false} AdjustedArmsAdjust(arms: seq<Arm>, inLoop: bool)
    requires ArmsFlattenable(arms, inLoop)
    ensures AdjustsArms(arms, AdjustedArms(arms), false) && AdjustsArms(arms, TrimmedArms(AdjustedArms(arms)), true)
    decreases ArmsSize(arms), 0
  {
    if arms != [] {
      AdjustedAdjusts(arms[0].body, inLoop);
      AdjustedArmsAdjust(arms[1..], inLoop);
      assert AdjustedArms(arms)[1..] == AdjustedArms(arms[1..]);
      assert TrimmedArms(AdjustedArms(arms))[1..] == TrimmedArms(AdjustedArms(arms[1..]));
    }
  }
}
