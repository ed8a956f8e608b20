/** When the counted-loop rewrite counts right: what its condition on ranges comes to at
  * one entry and in the text, and a loop that fails it.
  */
module Ranges {
  import opened Syntax
  import opened Semantics
  import opened Lowering
  import opened Gate
  import opened Scoping
  import opened Unrolling
  import opened Desugaring
  import opened DesugarSimulation
  import opened Extraction
  import opened ExtractionLimits

  // ----- One entry ---------------------------------------------------------------------------------

  /** Just after the source has decided whether there is a first index, the rewritten
    * program stands, or will in the same cycle, at the same point.
    */
  ghost predicate StaysInStep(env: Env, counters: set<string>, cs: Config, ss: State, ct: Config, st: State) {
    exists n: nat, p: Pair ::
      && Steps(env, cs, ss, 2) == Some(p.source) && Steps(env, ct, st, n) == Some(p.target)
      && p.source.log == [] && p.target.log == []
      && Sync(env, counters, p.source.cfg, p.source.st, p.target.cfg, p.target.st)
  }

  function Loops(k: Kont): nat {
    if k.Module? then 0 else 1 + Loops(k.outer)
  }

  lemma {:induction false} StopsAtTick(env: Env, c: Config, s: State, j: nat, o: Seen, n: nat)
    requires Steps(env, c, s, j) == Some(o) && StandsAtTick(o.cfg) && n > j
    ensures Steps(env, c, s, n) == None
    decreases j
  {
    if j > 0 {
      var m := Step(env, c, s);
      StopsAtTick(env, m.cfg, m.st, j - 1, Steps(env, m.cfg, m.st, j - 1).value, n - 1);
    }
  }

  /** A loop entered with an empty range leaves at once, and its hoisted tick is still in
    * the way; until then the rewritten program is inside the loop or in front of it.
    */
  lemma EmptyLoopLeaves(env: Env, f: Stmt, after: Code, kt: Kont, st: State, lo: int, n: nat)
    requires f.For? && lo == Eval(env, f.lo, st) && lo >= Eval(env, f.hi, Assign(st, f.counter, lo)) && n <= 4
    ensures Steps(env, Config(Opening(f) + after, kt), st, n).Some? && Steps(env, Config(Opening(f) + after, kt), st, n).value.log == []
    ensures n == 4 ==> Steps(env, Config(Opening(f) + after, kt), st, n).value.st == Assign(st, f.counter, lo)
    ensures var c := Steps(env, Config(Opening(f) + after, kt), st, n).value.cfg;
      if n == 4 then c == Config(after, kt) else Loops(c.k) > Loops(kt) || |c.todo| > |after|
  {
    var st1 := Assign(st, f.counter, lo);
    var body := CountedBody(f.counter, f.hi, Work(D(f.body)));
    var inner := body[1..];
    var k' := Nested(body, after, kt);
    assert body == [ExitAt(f.counter, f.hi)] + inner;
    ExitTaken(env, f.counter, f.hi, inner, k', st1);
    var c0, c1 := Config(Opening(f) + after, kt), Config([Loop(body)] + after, kt);
    assert c0.todo[1..] == c1.todo && c1.todo[1..] == after;
    assert Step(env, c0, st) == Move([], c1, st1) && Step(env, c1, st1) == Move([], Config(body, k'), st1);
    assert Step(env, Config(body, k'), st1) == Move([], Config([Break] + inner, k'), st1);
    assert Step(env, Config([Break] + inner, k'), st1) == Move([], Config(after, kt), st1);
    if n > 0 {
      if n > 1 {
        if n > 2 {
          if n > 3 {
            Steps1(env, Config([Break] + inner, k'), st1, Config(after, kt), st1);
          }
          StepThen(env, Config(body, k'), st1, Config([Break] + inner, k'), st1, n - 3, if n == 4 then Config(after, kt) else Config([Break] + inner, k'), st1);
        }
        StepThen(env, c1, st1, Config(body, k'), st1, n - 2,
          if n == 4 then Config(after, kt) else if n == 3 then Config([Break] + inner, k') else Config(body, k'), st1);
      }
    }
  }

  /** At one entry, with bounds that fit 32 bits: the rewritten program stays in step just
    * when the range is visibly empty or is not empty.
    */
  lemma EntryInStep(env: Env, counters: set<string>, f: Stmt, rest: Code, k: Kont, ss: State, ct: Config, st: State)
    requires f.For? && !Unrolled(f.body) && Sync(env, counters, Config([f] + rest, k), ss, ct, st)
    requires 0 <= Eval(env, f.lo, ss) && Eval(env, f.hi, ss) < U32
    ensures StaysInStep(env, counters, Config([f] + rest, k), ss, ct, st)
       <==> StaticallyEmpty(f.lo, f.hi) || Eval(env, f.lo, ss) < Eval(env, f.hi, ss)
  {
    var cs := Config([f] + rest, k);
    if StaticallyEmpty(f.lo, f.hi) || Eval(env, f.lo, ss) < Eval(env, f.hi, ss) {
      var m, n, p := ForAdvances(env, counters, cs, ss, ct, st);
    } else if StaysInStep(env, counters, cs, ss, ct, st) {
      var n: nat, p: Pair :| Steps(env, cs, ss, 2) == Some(p.source) && Steps(env, ct, st, n) == Some(p.target)
        && p.source.log == [] && p.target.log == [] && Sync(env, counters, p.source.cfg, p.source.st, p.target.cfg, p.target.st);
      EmptyRangeFallsBehind(env, counters, f, rest, k, ss, ct, st, n);
      assert false;
    }
  }

  /** A range that turns out empty only when the loop is entered: the source is behind the
    * loop in no time, and the rewritten program never is in the same cycle.
    */
  lemma EmptyRangeFallsBehind(env: Env, counters: set<string>, f: Stmt, rest: Code, k: Kont, ss: State, ct: Config, st: State, n: nat)
    requires f.For? && !Unrolled(f.body) && Sync(env, counters, Config([f] + rest, k), ss, ct, st)
    requires !StaticallyEmpty(f.lo, f.hi) && Eval(env, f.lo, ss) >= Eval(env, f.hi, ss)
    ensures Steps(env, Config([f] + rest, k), ss, 2) == Some(Seen([], Config(rest, k), ss))
    ensures Steps(env, ct, st, n).Some? ==> !Sync(env, counters, Config(rest, k), ss, Steps(env, ct, st, n).value.cfg, Steps(env, ct, st, n).value.st)
  {
    var x, lo, hi := f.counter, Eval(env, f.lo, ss), Eval(env, f.hi, ss);
    assert ([f] + rest)[1..] == rest;
    TodoHead([f] + rest, k, counters);
    var running := InFor(x, f.hi, lo, hi, f.body, rest, k);
    Steps1(env, Config([], running), ss, Config(rest, k), ss);
    StepThen(env, Config([f] + rest, k), ss, Config([], running), ss, 1, Config(rest, k), ss);
    if k.InFor? ==> EndsCounted(rest) {
      RestFor(f, rest, k);
      RestPush(Tick, rest, k);
      AlikeEval(env, f.lo, Off(k, counters), ss, st);
      AssignAlike(Off(k, counters), ss, st, x, lo);
      AlikeEval(env, f.hi, Off(k, counters), ss, Assign(st, x, lo));
      var after := Rest([Tick] + rest, k);
      assert after == [Tick] + Rest(rest, k);
      EmptyLoopLeaves(env, f, after, Image(k), st, lo, 4);
      if n <= 4 {
        EmptyLoopLeaves(env, f, after, Image(k), st, lo, n);
      } else {
        StopsAtTick(env, ct, st, 4, Steps(env, ct, st, 4).value, n);
      }
    }
  }

  /** An idle counter may be set in one store alone. */
  lemma AssignAlike(off: set<string>, a: State, b: State, x: string, v: int)
    requires Alike(off, a, b) && x in off
    ensures Alike(off, a, Assign(b, x, v))
  {
    var b' := Assign(b, x, v);
    forall y: string | y !in off ensures Get(a.vars, y) == Get(b'.vars, y) {
      assert Get(b.vars, y) == Get(a.vars, y);
    }
  }

  // ----- In the text ------------------------------------------------------------------------------------

  predicate LiteralRange(lo: Expr, hi: Expr) {
    lo.Lit? && hi.Lit? && (lo.value >= hi.value || 0 <= lo.value < hi.value < U32)
  }

  /** Every ticking counted loop in here has literal bounds the rewrite counts right. */
  predicate LiteralRanges(stmts: Code)
    decreases stmts
  {
    stmts != [] ==> LiteralRangesIn(stmts[0]) && LiteralRanges(stmts[1..])
  }

  predicate LiteralRangesIn(s: Stmt)
    decreases s
  {
    match s
    case For(_, lo, hi, body) => Unrolled(body) || (LiteralRange(lo, hi) && LiteralRanges(body))
    case While(_, body) => LiteralRanges(body)
    case Loop(body) => LiteralRanges(body)
    case Branch(_, arms) => LiteralRangesInArms(arms)
    case _ => true
  }

  predicate LiteralRangesInArms(arms: seq<Arm>)
    decreases arms
  {
    arms != [] ==> LiteralRanges(arms[0].body) && LiteralRangesInArms(arms[1..])
  }

  predicate LiteralRangesAround(k: Kont) {
    match k
    case Module(body) => LiteralRanges(body)
    case Nested(body, after, outer) => LiteralRanges(body) && LiteralRanges(after) && LiteralRangesAround(outer)
    case InWhile(_, body, after, outer) => LiteralRanges(body) && LiteralRanges(after) && LiteralRangesAround(outer)
    case InFor(_, _, _, _, body, after, outer) => LiteralRanges(body) && LiteralRanges(after) && LiteralRangesAround(outer)
  }

  lemma {:induction false} LiteralAppend(a: Code, b: Code)
    ensures LiteralRanges(a + b) <==> LiteralRanges(a) && LiteralRanges(b)
  {
    if a == [] {
      assert a + b == b;
    } else {
      assert (a + b)[1..] == a[1..] + b;
      LiteralAppend(a[1..], b);
    }
  }

  lemma {:induction false} LiteralArm(arms: seq<Arm>, i: nat)
    requires i < |arms| && LiteralRangesInArms(arms)
    ensures LiteralRanges(arms[i].body)
  {
    if i > 0 {
      LiteralArm(arms[1..], i - 1);
    }
  }

  lemma {:induction false} UnrolledLiteral(stmts: Code)
    requires Unrolled(stmts)
    ensures LiteralRanges(stmts)
    decreases stmts
  {
    if stmts != [] {
      UnrolledLiteral(stmts[1..]);
      assert UnrolledStmt(stmts[0]);
      if stmts[0].Branch? {
        UnrolledArmsLiteral(stmts[0].arms);
      }
    }
  }

  lemma {:induction false} UnrolledArmsLiteral(arms: seq<Arm>)
    requires ArmsUnrolled(arms)
    ensures LiteralRangesInArms(arms)
    decreases arms
  {
    if arms != [] {
      UnrolledLiteral(arms[0].body);
      UnrolledArmsLiteral(arms[1..]);
    }
  }

  lemma LiteralStep(env: Env, cfg: Config, st: State)
    requires LiteralRanges(cfg.todo) && LiteralRangesAround(cfg.k) && Step(env, cfg, st).Move?
    ensures var m := Step(env, cfg, st); LiteralRanges(m.cfg.todo) && LiteralRangesAround(m.cfg.k)
  {
    if cfg.todo != [] {
      var s, rest := cfg.todo[0], cfg.todo[1..];
      assert LiteralRangesIn(s);
      if s.Branch? {
        var i := Pick(env, s.sel, |s.arms|, st);
        LiteralArm(s.arms, i);
        LiteralAppend(s.arms[i].body, rest);
      } else if s.For? && Unrolled(s.body) {
        UnrolledLiteral(s.body);
      }
    }
  }

  lemma {:induction false} LiteralWalk(env: Env, cfg: Config, st: State, n: nat)
    requires LiteralRanges(cfg.todo) && LiteralRangesAround(cfg.k) && Walk(env, cfg, st, n).Some?
    ensures var w := Walk(env, cfg, st, n).value; EntersWell(env, w.0, w.1)
    decreases n
  {
    if n == 0 {
      if cfg.todo != [] && cfg.todo[0].For? {
        assert LiteralRangesIn(cfg.todo[0]);
      }
    } else if StandsAtTick(cfg) {
      LiteralWalk(env, Config(cfg.todo[1..], cfg.k), Edge(st), n - 1);
    } else {
      LiteralStep(env, cfg, st);
      var m := Step(env, cfg, st);
      LiteralWalk(env, m.cfg, m.st, n - 1);
    }
  }

  /** Literal bounds need no look at the run: from every store, every ticking counted loop
    * it ever enters has a range the rewrite counts right.
    */
  lemma LiteralRangesSuffice(env: Env, body: Code, st: State)
    requires LiteralRanges(body)
    ensures RangesOk(env, Start(body), st)
  {
    forall n: nat | Walk(env, Start(body), st, n).Some?
      ensures var w := Walk(env, Start(body), st, n); EntersWell(env, w.value.0, w.value.1)
    {
      LiteralWalk(env, Start(body), st, n);
    }
  }

  // ----- A loop that is a cycle late -------------------------------------------------------------------------

  function Delay(): Stmt {
    For("i", Lit(0), Var("n"), [Tick])
  }

  /** `loop { for i in 0..n { tick } p.write(1); tick }` */
  function Delayed(): Code {
    [Delay(), Shown(), Tick]
  }

  lemma DelayedCountable()
    ensures Countable(Delayed(), {"i"}, {}, false) && !Unrolled([Tick])
  {
    var body := Delayed();
    assert body[1..] == [Shown(), Tick] && body[1..][1..] == [Tick] && [Tick][1..] == [];
    assert Countable([Tick], {"i"} - {"i"}, {} + {"i"} + {"n"}, true);
    assert Countable([Tick], {"i"}, {}, false) && Countable(body[1..], {"i"}, {}, false);
    assert EndsCounted([Tick]) && CountableStmt(Delay(), {"i"}, {}, false);
  }

  /** The source shows the event in the cycle it starts in, and in the next. */
  lemma DelayedSource(env: Env, st: State)
    requires Get(st.vars, "n") <= 0
    ensures exists c: Config, s: State :: Runs(env, Start(Delayed()), st, [[EVENT], [EVENT]], c, s)
  {
    var body, k := Delayed(), Module(Delayed());
    var end, s1 := Config([], k), Edge(st);
    DelayedOnce(env, st);
    CycleBySteps(env, Start(body), st, 3, Seen([EVENT], Config([Tick], k), st));
    DelayedOnce(env, s1);
    var none: seq<Event> := [];
    assert none + [EVENT] == [EVENT];
    assert Steps(env, end, s1, 4) == Some(Seen([EVENT], Config([Tick], k), s1));
    CycleBySteps(env, end, s1, 4, Seen([EVENT], Config([Tick], k), s1));
    assert [Tick][1..] == [];
    TwoCycles(env, Start(body), st, [EVENT], end, [EVENT], end);
  }

  lemma DelayedOnce(env: Env, st: State)
    requires Get(st.vars, "n") <= 0
    ensures Steps(env, Start(Delayed()), st, 3) == Some(Seen([EVENT], Config([Tick], Module(Delayed())), st))
  {
    var body, k := Delayed(), Module(Delayed());
    var rest, none: seq<Event> := [Shown(), Tick], [];
    var running := InFor("i", Var("n"), 0, Get(st.vars, "n"), [Tick], rest, k);
    assert body[1..] == rest && rest[1..] == [Tick];
    assert none + none == none && none + [EVENT] == [EVENT] && [EVENT] + none == [EVENT];
    assert Steps(env, Config([Tick], k), st, 0) == Some(Seen(none, Config([Tick], k), st));
    assert Steps(env, Config(rest, k), st, 1) == Some(Seen([EVENT], Config([Tick], k), st));
    assert Step(env, Config([], running), st) == Move([], Config(rest, k), st);
    assert Steps(env, Config([], running), st, 2) == Some(Seen([EVENT], Config([Tick], k), st));
    assert Step(env, Start(body), st) == Move([], Config([], running), st);
  }

  /** The rewritten loop shows nothing in the first cycle: it takes the hoisted tick. */
  lemma DelayedRewritten(env: Env, st: State)
    requires Get(st.vars, "n") <= 0
    ensures exists c: Config, s: State :: Runs(env, Start(Desugar(Delayed())), st, [[], [EVENT]], c, s)
  {
    DesugarIsD(Delayed());
    DelayedRewrites();
    LateByOne(env, st, D(Delayed()));
  }

  lemma LateByOne(env: Env, st: State, body: Code)
    requires Get(st.vars, "n") <= 0 && body == Opening(Delay()) + [Tick, Shown(), Tick]
    ensures exists c: Config, s: State :: Runs(env, Start(body), st, [[], [EVENT]], c, s)
  {
    var k, rest := Module(body), [Tick, Shown(), Tick];
    EmptyLoopLeaves(env, Delay(), rest, k, st, 0, 4);
    var s1 := Edge(Assign(st, "i", 0));
    CycleBySteps(env, Start(body), st, 4, Seen([], Config(rest, k), Assign(st, "i", 0)));
    assert rest[1..] == [Shown(), Tick];
    ShownAfter(env, k, s1);
    var logs: seq<seq<Event>> := [[], [EVENT]];
    assert logs[1..] == [[EVENT]] && [[EVENT]][1..] == [];
    assert Runs(env, Config([], k), Edge(s1), [], Config([], k), Edge(s1));
    assert Runs(env, Config([Shown(), Tick], k), s1, logs[1..], Config([], k), Edge(s1));
    assert Cycle(env, Start(body), st, logs[0], Config([Shown(), Tick], k), s1);
    assert Runs(env, Start(body), st, logs, Config([], k), Edge(s1));
  }

  lemma ShownAfter(env: Env, k: Kont, st: State)
    ensures Cycle(env, Config([Shown(), Tick], k), st, [EVENT], Config([], k), Edge(st))
  {
    var none: seq<Event> := [];
    assert [EVENT] + none == [EVENT] && [Shown(), Tick][1..] == [Tick] && [Tick][1..] == [];
    assert Steps(env, Config([Tick], k), st, 0) == Some(Seen(none, Config([Tick], k), st));
    assert Steps(env, Config([Shown(), Tick], k), st, 1) == Some(Seen([EVENT], Config([Tick], k), st));
    CycleBySteps(env, Config([Shown(), Tick], k), st, 1, Seen([EVENT], Config([Tick], k), st));
  }

  lemma DelayedRewrites()
    ensures D(Delayed()) == Opening(Delay()) + [Tick, Shown(), Tick]
  {
    var body := Delayed();
    assert body[1..] == [Shown(), Tick] && body[1..][1..] == [Tick] && [Tick][1..] == [];
    DOne(Tick);
    assert D(body[1..]) == [Shown()] + [Tick] == [Shown(), Tick];
    DFor(Delay());
    assert DStmt(Delay()) == Opening(Delay()) + [Tick];
    assert Opening(Delay()) + [Tick] + [Shown(), Tick] == Opening(Delay()) + [Tick, Shown(), Tick];
  }

  /** One cycle too many: a countable loop, and two runs of two cycles that differ, from
    * any store in which the delay is not positive.
    */
  lemma EmptyRangeCounterexample(env: Env, st: State)
    requires Get(st.vars, "n") <= 0
    ensures Countable(Delayed(), {"i"}, {}, false)
    ensures exists c: Config, s: State :: Runs(env, Start(Delayed()), st, [[EVENT], [EVENT]], c, s)
    ensures exists c: Config, s: State :: Runs(env, Start(Desugar(Delayed())), st, [[], [EVENT]], c, s)
  {
    DelayedCountable();
    DelayedSource(env, st);
    DelayedRewritten(env, st);
  }
}
