/** The shape of what the flattening builds, for every body the gate admits. */
module Shape {
  import opened Syntax
  import opened Lowering
  import opened Gate

  // ----- Sealed code -----------------------------------------------------------------

  /** A statement control passes straight through: no tick, no transfer, no way out. */
  predicate Stays(s: Stmt)
    decreases s
  {
    match s
    case Do(_) => true
    case Branch(_, arms) => arms != [] && ArmsStay(arms)
    case While(_, body) => Written(body) && !ContainsTick(body)
    case For(_, _, _, body) => Written(body) && !ContainsTick(body)
    case _ => false
  }

  predicate ArmsStay(arms: seq<Arm>)
    decreases arms
  {
    arms != [] ==> AllStay(arms[0].body) && ArmsStay(arms[1..])
  }

  predicate AllStay(stmts: Code)
    decreases stmts
  {
    stmts != [] ==> Stays(stmts[0]) && AllStay(stmts[1..])
  }

  lemma {:induction false} StayWritten(stmts: Code)
    requires AllStay(stmts)
    ensures Written(stmts)
    decreases stmts
  {
    if stmts != [] {
      StayWritten(stmts[1..]);
      if stmts[0].Branch? {
        StayArmsWritten(stmts[0].arms);
      }
    }
  }

  lemma {:induction false} StayArmsWritten(arms: seq<Arm>)
    requires ArmsStay(arms)
    ensures ArmsWritten(arms)
    decreases arms
  {
    if arms != [] {
      StayWritten(arms[0].body);
      StayArmsWritten(arms[1..]);
    }
  }

  /** Every path ends in exactly one transfer, to one of the `n` states, and takes none
    * before; a zero-time marker only ever names state 0.
    */
  predicate Sealed(code: Code, n: nat)
    decreases code
  {
    && code != []
    && if |code| == 1 then EndsSealed(code[0], n) else Stays(code[0]) && Sealed(code[1..], n)
  }

  predicate EndsSealed(s: Stmt, n: nat)
    decreases s
  {
    match s
    case SetPc(m) => m < n
    case Goto(m) => m == 0 < n
    case Branch(_, arms) => arms != [] && ArmsSealed(arms, n)
    case _ => false
  }

  predicate ArmsSealed(arms: seq<Arm>, n: nat)
    decreases arms
  {
    arms != [] ==> Sealed(arms[0].body, n) && ArmsSealed(arms[1..], n)
  }

  lemma {:induction false} SealedGrow(code: Code, n: nat, m: nat)
    requires Sealed(code, n) && n <= m
    ensures Sealed(code, m)
    decreases code
  {
    if |code| == 1 {
      if code[0].Branch? {
        ArmsSealedGrow(code[0].arms, n, m);
      }
    } else {
      SealedGrow(code[1..], n, m);
    }
  }

  lemma {:induction false} ArmsSealedGrow(arms: seq<Arm>, n: nat, m: nat)
    requires ArmsSealed(arms, n) && n <= m
    ensures ArmsSealed(arms, m)
    decreases arms
  {
    if arms != [] {
      SealedGrow(arms[0].body, n, m);
      ArmsSealedGrow(arms[1..], n, m);
    }
  }

  lemma {:induction false} BoundaryTicks(body: Code)
    requires EndsAtClockBoundary(body)
    ensures ContainsTick(body)
    decreases body
  {
    if body[0] != Tick {
      if |body| == 1 {
        if FirstTick(body) == |body| {
          BoundaryTicks(body[0].body);
        }
      } else {
        assert FirstTick(body) == 1 + FirstTick(body[1..]);
        BoundaryTicks(body[1..]);
      }
    }
  }

  lemma {:induction false} CalmStays(stmts: Code, inLoop: bool)
    requires Written(stmts) && Flattenable(stmts, inLoop)
    requires !ContainsTick(stmts) && !Breaks(stmts) && !Continues(stmts)
    ensures AllStay(stmts)
    decreases stmts
  {
    if stmts != [] {
      CalmStays(stmts[1..], inLoop);
      match stmts[0]
      case Branch(_, arms) => CalmArmsStay(arms, inLoop);
      case Loop(body) => BoundaryTicks(body);
      case _ =>
    }
  }

  lemma {:induction false} CalmArmsStay(arms: seq<Arm>, inLoop: bool)
    requires ArmsWritten(arms) && ArmsFlattenable(arms, inLoop)
    requires !ArmsContainTick(arms) && !ArmsBreak(arms) && !ArmsContinue(arms)
    ensures ArmsStay(arms)
    decreases arms
  {
    if arms != [] {
      CalmStays(arms[0].body, inLoop);
      CalmArmsStay(arms[1..], inLoop);
    }
  }

  // ----- The lowering seals every state -------------------------------------------------

  predicate CtxSane(ctx: Ctx, n: nat) {
    && ctx.Head() < n
    && (ctx.NestedLoop? ==>
          && Written(ctx.brk) && Flattenable(ctx.brk, ctx.outer.NestedLoop?) && CtxSane(ctx.outer, n))
  }

  lemma {:induction false} CtxSaneGrow(ctx: Ctx, n: nat, m: nat)
    requires CtxSane(ctx, n) && n <= m
    ensures CtxSane(ctx, m)
  {
    if ctx.NestedLoop? {
      CtxSaneGrow(ctx.outer, n, m);
    }
  }

  predicate CachesSealed(caches: Caches, n: nat) {
    forall i :: 0 <= i < |caches| && caches[i].Some? ==> Sealed(caches[i].value, n)
  }

  lemma CachesSealedGrow(caches: Caches, n: nat, m: nat)
    requires CachesSealed(caches, n) && n <= m
    ensures CachesSealed(caches, m)
  {
    forall i | 0 <= i < |caches| && caches[i].Some? ensures Sealed(caches[i].value, m) {
      SealedGrow(caches[i].value, n, m);
    }
  }

  /** The states from `lo` on are filled and sealed. */
  predicate SealedFrom(states: seq<Code>, lo: nat) {
    forall i :: lo <= i < |states| ==> Sealed(states[i], |states|)
  }

  predicate Sound(from: seq<Code>, to: seq<Code>, caches: Caches) {
    from <= to && SealedFrom(to, |from|) && CachesSealed(caches, |to|)
  }

  lemma SoundTrans(s0: seq<Code>, s1: seq<Code>, s2: seq<Code>, c1: Caches, c2: Caches)
    requires Sound(s0, s1, c1) && Sound(s1, s2, c2)
    ensures Sound(s0, s2, c2)
  {
    forall i | |s0| <= i < |s2| ensures Sealed(s2[i], |s2|) {
      if i < |s1| {
        SealedGrow(s1[i], |s1|, |s2|);
      }
    }
  }

  lemma {:induction false} LowerSealed(stmts: Code, states: seq<Code>, caches: Caches, ctx: Ctx)
    requires |caches| == ctx.Depth() && CtxSane(ctx, |states|) && CachesSealed(caches, |states|)
    requires Written(stmts) && Flattenable(stmts, ctx.NestedLoop?)
    ensures var r := Lower(stmts, states, caches, ctx);
      Sealed(r.code, |r.states|) && Sound(states, r.states, r.caches)
    decreases Size(stmts) + ctx.Pending(), 1, 0
  {
    if stmts != [] {
      var rest := stmts[1..];
      assert Size(stmts) == StmtSize(stmts[0]) + Size(rest);
      match stmts[0]
      case Tick =>
        if rest != [] {
          CtxSaneGrow(ctx, |states|, |states| + 1);
          CachesSealedGrow(caches, |states|, |states| + 1);
          LowerSealed(rest, states + [[]], caches, ctx);
        }
      case Continue =>
      case Break =>
        LowerBreakSealed(states, caches, ctx);
      case Loop(body) =>
        LowerLoopSealed(body, rest, states, caches, ctx);
      case Branch(sel, arms) =>
        if Diverges(stmts[0]) {
          LowerArmsSealed(arms, rest, states, caches, ctx);
        } else {
          CalmArmsStay(arms, ctx.NestedLoop?);
          LowerSealed(rest, states, caches, ctx);
          PushSealed(stmts[0], Lower(rest, states, caches, ctx));
        }
      case Do(_) => LowerPlainSealed(stmts, states, caches, ctx);
      case While(_, _) => LowerPlainSealed(stmts, states, caches, ctx);
      case For(_, _, _, _) => LowerPlainSealed(stmts, states, caches, ctx);
      case SetPc(_) =>
      case Goto(_) =>
    }
  }

  lemma {:induction false} LowerPlainSealed(stmts: Code, states: seq<Code>, caches: Caches, ctx: Ctx)
    requires |caches| == ctx.Depth() && CtxSane(ctx, |states|) && CachesSealed(caches, |states|)
    requires Written(stmts) && Flattenable(stmts, ctx.NestedLoop?)
    requires stmts != [] && (stmts[0].Do? || stmts[0].While? || stmts[0].For?)
    ensures var r := Lower(stmts, states, caches, ctx);
      Sealed(r.code, |r.states|) && Sound(states, r.states, r.caches)
    decreases Size(stmts) + ctx.Pending(), 0, 0
  {
    assert Size(stmts) == StmtSize(stmts[0]) + Size(stmts[1..]);
    LowerSealed(stmts[1..], states, caches, ctx);
    PushSealed(stmts[0], Lower(stmts[1..], states, caches, ctx));
  }

  lemma PushSealed(s: Stmt, l: Lowered)
    requires Stays(s) && Sealed(l.code, |l.states|)
    ensures Sealed([s] + l.code, |l.states|)
  {
    assert ([s] + l.code)[1..] == l.code;
  }

  lemma {:induction false} LowerBreakSealed(states: seq<Code>, caches: Caches, ctx: Ctx)
    requires |caches| == ctx.Depth() && CtxSane(ctx, |states|) && CachesSealed(caches, |states|) && ctx.NestedLoop?
    ensures var r := LowerBreak(states, caches, ctx);
      Sealed(r.code, |r.states|) && Sound(states, r.states, r.caches)
    decreases ctx.Pending(), 2, 0
  {
    var d := |caches| - 1;
    if caches[d].None? {
      LowerSealed(ctx.brk, states, caches[..d], ctx.outer);
    }
  }

  lemma {:induction false} LowerLoopSealed(body: Code, rest: Code, states: seq<Code>, caches: Caches, ctx: Ctx)
    requires |caches| == ctx.Depth() && CtxSane(ctx, |states|) && CachesSealed(caches, |states|)
    requires Written(body) && Flattenable(body, true) && Written(rest) && Flattenable(rest, ctx.NestedLoop?)
    ensures var r := LowerLoop(body, rest, states, caches, ctx);
      Sealed(r.code, |r.states|) && Sound(states, r.states, r.caches)
    decreases Size(body) + Size(rest) + ctx.Pending(), 2, 0
  {
    var inner, t := NestedLoop(|states|, rest, ctx), FirstTick(body);
    if t < |body| {
      RotatedSize(body, t);
      SplitWritten(body, t);
      LowerHeadSealed(Rotated(body, t), rest, states, caches, ctx);
      var h := Lower(Rotated(body, t), states + [[]], caches + [None], inner);
      var s1 := h.states[|states| := h.code];
      LowerSealed(body[..t], s1, h.caches, inner);
      var e := Lower(body[..t], s1, h.caches, inner);
      SoundTrans(states, s1, e.states, h.caches, e.caches);
    } else {
      LowerHeadSealed(body, rest, states, caches, ctx);
    }
  }

  lemma {:induction false} LowerHeadSealed(turned: Code, rest: Code, states: seq<Code>, caches: Caches, ctx: Ctx)
    requires |caches| == ctx.Depth() && CtxSane(ctx, |states|) && CachesSealed(caches, |states|)
    requires Written(turned) && Flattenable(turned, true) && Written(rest) && Flattenable(rest, ctx.NestedLoop?)
    ensures var inner := NestedLoop(|states|, rest, ctx);
      var h := Lower(turned, states + [[]], caches + [None], inner);
      && |states| < |h.states| && Sealed(h.code, |h.states|) && CtxSane(inner, |h.states|)
      && Sound(states, h.states[|states| := h.code], h.caches)
    decreases Size(turned) + Size(rest) + ctx.Pending(), 1, 1
  {
    var inner := NestedLoop(|states|, rest, ctx);
    CtxSaneGrow(ctx, |states|, |states| + 1);
    CachesSealedGrow(caches, |states|, |states| + 1);
    LowerSealed(turned, states + [[]], caches + [None], inner);
    var h := Lower(turned, states + [[]], caches + [None], inner);
    CtxSaneGrow(inner, |states| + 1, |h.states|);
  }

  lemma SplitWritten(body: Code, t: nat)
    requires t < |body| && Written(body) && Flattenable(body, true)
    ensures Written(body[..t]) && Flattenable(body[..t], true)
    ensures Written(Rotated(body, t)) && Flattenable(Rotated(body, t), true)
  {
    assert body == body[..t] + body[t..];
    assert body[t..][1..] == body[t + 1..];
    FlattenableAppend(body[..t], body[t..], true);
    FlattenableAppend(body[t + 1..], body[..t], true);
    WrittenAppend(body[..t], body[t..]);
    WrittenAppend(body[t + 1..], body[..t]);
  }

  lemma {:induction false} LowerArmsSealed(arms: seq<Arm>, rest: Code, states: seq<Code>, caches: Caches, ctx: Ctx)
    requires |caches| == ctx.Depth() && CtxSane(ctx, |states|) && CachesSealed(caches, |states|)
    requires ArmsWritten(arms) && ArmsFlattenable(arms, ctx.NestedLoop?)
    requires Written(rest) && Flattenable(rest, ctx.NestedLoop?)
    ensures var r := LowerArms(arms, rest, states, caches, ctx);
      ArmsSealed(r.arms, |r.states|) && Sound(states, r.states, r.caches)
    decreases ArmsSize(arms) + Size(rest) + ctx.Pending(), 2, |arms|
  {
    if arms != [] {
      SizeAppend(arms[0].body, rest);
      WrittenAppend(arms[0].body, rest);
      FlattenableAppend(arms[0].body, rest, ctx.NestedLoop?);
      LowerSealed(arms[0].body + rest, states, caches, ctx);
      var a := Lower(arms[0].body + rest, states, caches, ctx);
      CtxSaneGrow(ctx, |states|, |a.states|);
      LowerArmsSealed(arms[1..], rest, a.states, a.caches, ctx);
      var l := LowerArms(arms[1..], rest, a.states, a.caches, ctx);
      SoundTrans(states, a.states, l.states, a.caches, l.caches);
      SealedGrow(a.code, |a.states|, |l.states|);
      assert ([Arm(a.code)] + l.arms)[1..] == l.arms;
    }
  }

  // ----- Where a zero-time marker comes from --------------------------------------------

  predicate ContainsGoto(code: Code)
    decreases code
  {
    code != [] && (StmtContainsGoto(code[0]) || ContainsGoto(code[1..]))
  }

  predicate StmtContainsGoto(s: Stmt)
    decreases s
  {
    match s
    case Goto(_) => true
    case Branch(_, arms) => ArmsContainGoto(arms)
    case _ => false
  }

  predicate ArmsContainGoto(arms: seq<Arm>)
    decreases arms
  {
    arms != [] && (ContainsGoto(arms[0].body) || ArmsContainGoto(arms[1..]))
  }

  lemma {:induction false} WrittenNoGoto(stmts: Code)
    requires Written(stmts)
    ensures !ContainsGoto(stmts)
    decreases stmts
  {
    if stmts != [] {
      WrittenNoGoto(stmts[1..]);
      if stmts[0].Branch? {
        ArmsWrittenNoGoto(stmts[0].arms);
      }
    }
  }

  lemma {:induction false} ArmsWrittenNoGoto(arms: seq<Arm>)
    requires ArmsWritten(arms)
    ensures !ArmsContainGoto(arms)
    decreases arms
  {
    if arms != [] {
      WrittenNoGoto(arms[0].body);
      ArmsWrittenNoGoto(arms[1..]);
    }
  }

  /** What the loops around a list continue with when broken out of, innermost first. */
  function Exits(ctx: Ctx): seq<Code> {
    if ctx.ModuleLoop? then [] else [ctx.brk] + Exits(ctx.outer)
  }

  function Total(exits: seq<Code>): nat {
    if exits == [] then 0 else Size(exits[0]) + Total(exits[1..])
  }

  lemma {:induction false} ExitsTotal(ctx: Ctx)
    ensures Total(Exits(ctx)) == ctx.Pending() && |Exits(ctx)| == ctx.Depth()
  {
    if ctx.NestedLoop? {
      ExitsTotal(ctx.outer);
      assert Exits(ctx)[1..] == Exits(ctx.outer);
    }
  }

  /** Can control get from here back to the module loop's head without a tick? The
    * question is asked of the source list, its nested loops being entered once.
    */
  predicate CanGoto(stmts: Code, exits: seq<Code>)
    decreases Size(stmts) + Total(exits), 1, 0
  {
    if stmts == [] then exits == [] else
    var rest := stmts[1..];
    assert Size(stmts) == StmtSize(stmts[0]) + Size(rest);
    match stmts[0]
    case Tick => false
    case Continue => true
    case Break => exits != [] && CanGoto(exits[0], exits[1..])
    case Loop(body) => LoopCanGoto(body, rest, exits)
    case Branch(_, arms) => if Diverges(stmts[0]) then ArmsCanGoto(arms, rest, exits) else CanGoto(rest, exits)
    case _ => CanGoto(rest, exits)
  }

  /** What runs in the cycle that enters the loop is the list before its first tick. */
  function Prefix(body: Code): (w: Code)
    ensures Size(w) <= Size(body)
  {
    var t := FirstTick(body);
    if t < |body| then RotatedSize(body, t); body[..t] else body
  }

  predicate LoopCanGoto(body: Code, rest: Code, exits: seq<Code>)
    decreases Size(body) + Size(rest) + Total(exits), 2, 0
  {
    CanGoto(Prefix(body), [rest] + exits)
  }

  predicate ArmsCanGoto(arms: seq<Arm>, rest: Code, exits: seq<Code>)
    decreases ArmsSize(arms) + Size(rest) + Total(exits), 2, |arms|
  {
    arms != [] &&
      (SizeAppend(arms[0].body, rest);
       CanGoto(arms[0].body + rest, exits) || ArmsCanGoto(arms[1..], rest, exits))
  }

  predicate CachesGoto(caches: Caches, ctx: Ctx)
    requires |caches| == ctx.Depth()
    decreases ctx
  {
    ctx.NestedLoop? ==>
      var d := |caches| - 1;
      && (caches[d].Some? ==> (ContainsGoto(caches[d].value) <==> CanGoto(ctx.brk, Exits(ctx.outer))))
      && CachesGoto(caches[..d], ctx.outer)
  }

  /** The lowered code holds a zero-time marker exactly when the source can get back to
    * the head from here in no time.
    */
  lemma {:induction false} LowerGoto(stmts: Code, states: seq<Code>, caches: Caches, ctx: Ctx)
    requires |caches| == ctx.Depth() && CachesGoto(caches, ctx) && Written(stmts)
    requires Flattenable(stmts, ctx.NestedLoop?) && CtxWritten(ctx)
    ensures var r := Lower(stmts, states, caches, ctx);
      CachesGoto(r.caches, ctx) && (ContainsGoto(r.code) <==> CanGoto(stmts, Exits(ctx)))
    decreases Size(stmts) + ctx.Pending(), 1, 0
  {
    if stmts != [] {
      var rest := stmts[1..];
      assert Size(stmts) == StmtSize(stmts[0]) + Size(rest);
      match stmts[0]
      case Tick =>
        if rest != [] {
          LowerGoto(rest, states + [[]], caches, ctx);
        }
      case Continue =>
      case Break =>
        LowerBreakGoto(states, caches, ctx);
        assert Exits(ctx)[1..] == Exits(ctx.outer);
      case Loop(body) =>
        LowerLoopGoto(body, rest, states, caches, ctx);
      case Branch(sel, arms) =>
        if Diverges(stmts[0]) {
          LowerArmsGoto(arms, rest, states, caches, ctx);
        } else {
          ArmsWrittenNoGoto(arms);
          LowerGoto(rest, states, caches, ctx);
          assert ([stmts[0]] + Lower(rest, states, caches, ctx).code)[1..] == Lower(rest, states, caches, ctx).code;
        }
      case Do(_) => LowerPlainGoto(stmts, states, caches, ctx);
      case While(_, _) => LowerPlainGoto(stmts, states, caches, ctx);
      case For(_, _, _, _) => LowerPlainGoto(stmts, states, caches, ctx);
      case SetPc(_) =>
      case Goto(_) =>
    }
  }

  lemma {:induction false} LowerPlainGoto(stmts: Code, states: seq<Code>, caches: Caches, ctx: Ctx)
    requires |caches| == ctx.Depth() && CachesGoto(caches, ctx) && Written(stmts)
    requires Flattenable(stmts, ctx.NestedLoop?) && CtxWritten(ctx)
    requires stmts != [] && (stmts[0].Do? || stmts[0].While? || stmts[0].For?)
    ensures var r := Lower(stmts, states, caches, ctx);
      CachesGoto(r.caches, ctx) && (ContainsGoto(r.code) <==> CanGoto(stmts, Exits(ctx)))
    decreases Size(stmts) + ctx.Pending(), 0, 0
  {
    var rest := stmts[1..];
    assert Size(stmts) == StmtSize(stmts[0]) + Size(rest);
    LowerGoto(rest, states, caches, ctx);
    assert ([stmts[0]] + Lower(rest, states, caches, ctx).code)[1..] == Lower(rest, states, caches, ctx).code;
  }

  predicate CtxWritten(ctx: Ctx) {
    ctx.NestedLoop? ==> Written(ctx.brk) && Flattenable(ctx.brk, ctx.outer.NestedLoop?) && CtxWritten(ctx.outer)
  }

  lemma {:induction false} LowerBreakGoto(states: seq<Code>, caches: Caches, ctx: Ctx)
    requires |caches| == ctx.Depth() && CachesGoto(caches, ctx) && CtxWritten(ctx) && ctx.NestedLoop?
    ensures var r := LowerBreak(states, caches, ctx);
      CachesGoto(r.caches, ctx) && (ContainsGoto(r.code) <==> CanGoto(ctx.brk, Exits(ctx.outer)))
    decreases ctx.Pending(), 2, 0
  {
    var d := |caches| - 1;
    if caches[d].None? {
      LowerGoto(ctx.brk, states, caches[..d], ctx.outer);
      var l := Lower(ctx.brk, states, caches[..d], ctx.outer);
      assert (l.caches + [Some(l.code)])[..d] == l.caches;
    }
  }

  lemma {:induction false} LowerLoopGoto(body: Code, rest: Code, states: seq<Code>, caches: Caches, ctx: Ctx)
    requires |caches| == ctx.Depth() && CachesGoto(caches, ctx) && CtxWritten(ctx)
    requires Written(body) && Flattenable(body, true) && Written(rest) && Flattenable(rest, ctx.NestedLoop?)
    ensures var r := LowerLoop(body, rest, states, caches, ctx);
      CachesGoto(r.caches, ctx) && (ContainsGoto(r.code) <==> LoopCanGoto(body, rest, Exits(ctx)))
    decreases Size(body) + Size(rest) + ctx.Pending(), 2, 0
  {
    var inner := NestedLoop(|states|, rest, ctx);
    EnterLoopGoto(|states|, rest, caches, ctx);
    TwiceGoto(body, states + [[]], caches + [None], inner);
    LeaveLoopGoto(Twice(body, states + [[]], caches + [None], inner), |states|, body, rest, ctx);
    LowerLoopTwice(body, rest, states, caches, ctx);
  }

  lemma EnterLoopGoto(head: nat, rest: Code, caches: Caches, ctx: Ctx)
    requires |caches| == ctx.Depth() && CachesGoto(caches, ctx) && CtxWritten(ctx)
    requires Written(rest) && Flattenable(rest, ctx.NestedLoop?)
    ensures var inner := NestedLoop(head, rest, ctx); CachesGoto(caches + [None], inner) && CtxWritten(inner)
  {
    assert (caches + [None])[..|caches|] == caches;
  }

  lemma LeaveLoopGoto(e: Lowered, head: nat, body: Code, rest: Code, ctx: Ctx)
    requires var inner := NestedLoop(head, rest, ctx);
      |e.caches| == inner.Depth() && CachesGoto(e.caches, inner) && (ContainsGoto(e.code) <==> CanGoto(Prefix(body), Exits(inner)))
    ensures CachesGoto(e.caches[..ctx.Depth()], ctx) && (ContainsGoto(e.code) <==> LoopCanGoto(body, rest, Exits(ctx)))
  {
    assert Exits(NestedLoop(head, rest, ctx)) == [rest] + Exits(ctx);
  }

  /** Of a nested loop's two lowerings the one for its entry is what a marker can be in. */
  lemma {:induction false} TwiceGoto(body: Code, states: seq<Code>, caches: Caches, ctx: Ctx)
    requires |caches| == ctx.Depth() && CachesGoto(caches, ctx) && CtxWritten(ctx) && ctx.NestedLoop? && ctx.head < |states|
    requires Written(body) && Flattenable(body, true)
    ensures var e := Twice(body, states, caches, ctx);
      CachesGoto(e.caches, ctx) && (ContainsGoto(e.code) <==> CanGoto(Prefix(body), Exits(ctx)))
    decreases Size(body) + ctx.Pending(), 1, 1
  {
    var t := FirstTick(body);
    if t < |body| {
      RotatedSize(body, t);
      SplitWritten(body, t);
      LowerGoto(Rotated(body, t), states, caches, ctx);
      var h := Lower(Rotated(body, t), states, caches, ctx);
      LowerGoto(body[..t], h.states[ctx.head := h.code], h.caches, ctx);
    } else {
      LowerGoto(body, states, caches, ctx);
    }
  }

  lemma {:induction false} LowerArmsGoto(arms: seq<Arm>, rest: Code, states: seq<Code>, caches: Caches, ctx: Ctx)
    requires |caches| == ctx.Depth() && CachesGoto(caches, ctx) && CtxWritten(ctx)
    requires ArmsWritten(arms) && ArmsFlattenable(arms, ctx.NestedLoop?)
    requires Written(rest) && Flattenable(rest, ctx.NestedLoop?)
    ensures var r := LowerArms(arms, rest, states, caches, ctx);
      CachesGoto(r.caches, ctx) && (ArmsContainGoto(r.arms) <==> ArmsCanGoto(arms, rest, Exits(ctx)))
    decreases ArmsSize(arms) + Size(rest) + ctx.Pending(), 2, |arms|
  {
    if arms != [] {
      SizeAppend(arms[0].body, rest);
      WrittenAppend(arms[0].body, rest);
      FlattenableAppend(arms[0].body, rest, ctx.NestedLoop?);
      LowerGoto(arms[0].body + rest, states, caches, ctx);
      var a := Lower(arms[0].body + rest, states, caches, ctx);
      LowerArmsGoto(arms[1..], rest, a.states, a.caches, ctx);
      var l := LowerArms(arms[1..], rest, a.states, a.caches, ctx);
      assert ([Arm(a.code)] + l.arms)[1..] == l.arms;
    }
  }
}
