/** Where the flattening is not exact: bodies the gate admits whose machine is a cycle
  * off. What the machine does instead is `Adjusting` and `ExtractionRunsAdjusted`.
  */
module ExtractionLimits {
  import opened Syntax
  import opened Semantics
  import opened Lowering
  import opened Gate
  import opened Shape
  import opened Adjusting
  import opened Simulation
  import opened Splicing
  import opened Scoping
  import opened Hoisting
  import opened Extraction

  // ----- Tables with nothing to hoist and nothing to splice ------------------------------------

  lemma {:induction false} ConvertNothing(code: Code)
    ensures Convert(code, {}) == code
    decreases code
  {
    if code != [] {
      ConvertNothing(code[1..]);
      match code[0] {
        case Branch(_, arms) => ConvertArmsNothing(arms);
        case Loop(body) => ConvertNothing(body);
        case While(_, body) => ConvertNothing(body);
        case For(_, _, _, body) => ConvertNothing(body);
        case _ =>
      }
      assert code == [code[0]] + code[1..];
    }
  }

  lemma {:induction false} ConvertArmsNothing(arms: seq<Arm>)
    ensures ConvertArms(arms, {}) == arms
    decreases arms
  {
    if arms != [] {
      ConvertNothing(arms[0].body);
      ConvertArmsNothing(arms[1..]);
      assert arms == [arms[0]] + arms[1..];
    }
  }

  lemma {:induction false} SpliceNothing(code: Code, originals: seq<Code>, path: seq<nat>)
    requires !ContainsGoto(code)
    ensures Splice(code, originals, path) == Some(code)
    decreases code
  {
    if code != [] {
      SpliceNothing(code[1..], originals, path);
      if code[0].Branch? {
        SpliceArmsNothing(code[0].arms, originals, path);
      }
      assert code == [code[0]] + code[1..];
    }
  }

  lemma {:induction false} SpliceArmsNothing(arms: seq<Arm>, originals: seq<Code>, path: seq<nat>)
    requires !ArmsContainGoto(arms)
    ensures SpliceArms(arms, originals, path) == Some(arms)
    decreases arms
  {
    if arms != [] {
      SpliceNothing(arms[0].body, originals, path);
      SpliceArmsNothing(arms[1..], originals, path);
      assert arms == [arms[0]] + arms[1..];
    }
  }

  lemma {:induction false} SpliceTableNothing(states: seq<Code>, i: nat)
    requires i <= |states| && forall j :: 0 <= j < |states| ==> !ContainsGoto(states[j])
    ensures SpliceFrom(states, i) == Some(states[i..])
    decreases |states| - i
  {
    if i < |states| {
      SpliceTableNothing(states, i + 1);
      SpliceNothing(states[i], states, [i]);
      assert states[i..] == [states[i]] + states[i + 1..];
    }
  }

  lemma ExtractedAsFlattened(preloop: Code, body: Code)
    requires forall i :: 0 <= i < |Flattened(preloop, body)| ==>
      Lets(Flattened(preloop, body)[i]) == {} && !ContainsGoto(Flattened(preloop, body)[i])
    ensures Extracted(preloop, body) == Some(Flattened(preloop, body))
  {
    var s := Flattened(preloop, body);
    assert Crossing(s) == {};
    forall i | 0 <= i < |s| ensures Convert(s[i], {}) == s[i] {
      ConvertNothing(s[i]);
    }
    assert Hoisted(preloop, body) == s;
    SpliceTableNothing(s, 0);
    assert s[0..] == s;
  }

  // ----- The counterexamples ----------------------------------------------------------------------

  const EVENT := Event(OutPort("p"), 1)

  function Shown(): Stmt {
    Do(Drive(OutPort("p"), Lit(1)))
  }

  /** `if 1 { tick; }`, the last thing before the loop's own tick. */
  function EarlyTick(): Stmt {
    If(Lit(1), [Tick], [])
  }

  /** `loop { loop { p.write(1); if 1 { tick; } tick; } }` */
  function TailTick(): Code {
    [Loop([Shown(), EarlyTick(), Tick])]
  }

  function TailTickState(): Code {
    [Shown(), Branch(Not(Lit(1)), [Arm([SetPc(1)]), Arm([SetPc(1)])])]
  }

  lemma TailTickLowered(states: seq<Code>, caches: Caches)
    requires |caches| == 1
    ensures var inner := NestedLoop(1, [], ModuleLoop);
      Lower([Shown(), EarlyTick()], states, caches, inner) == Lowered(TailTickState(), states, caches)
  {
    var inner := NestedLoop(1, [], ModuleLoop);
    var arms := [Arm([Tick]), Arm([])];
    assert Lower([Tick], states, caches, inner) == Lowered([SetPc(1)], states, caches);
    assert Lower([], states, caches, inner) == Lowered([SetPc(1)], states, caches);
    assert [Tick] + [] == [Tick] && arms[1..] == [Arm([])] && arms[1..][1..] == [];
    assert LowerArms(arms[1..], [], states, caches, inner) == LoweredArms([Arm([SetPc(1)])], states, caches);
    assert LowerArms(arms, [], states, caches, inner) == LoweredArms([Arm([SetPc(1)]), Arm([SetPc(1)])], states, caches);
    assert ContainsTick([Tick]) && Diverges(EarlyTick());
    assert [EarlyTick()][1..] == [];
    assert [Shown(), EarlyTick()][1..] == [EarlyTick()];
    assert Lower([EarlyTick()], states, caches, inner).code == TailTickState()[1..];
  }

  lemma TailTickFlattened()
    ensures Flattened([], TailTick()) == [TailTickState(), TailTickState()]
  {
    var body, work := [Shown(), EarlyTick(), Tick], [Shown(), EarlyTick()];
    var inner := NestedLoop(1, [], ModuleLoop);
    assert FirstTick(body) == 2 by {
      assert body[1..] == [EarlyTick(), Tick] && body[1..][1..] == [Tick];
    }
    assert body[..2] == work && Rotated(body, 2) == work;
    TailTickLowered([[]] + [[]], [] + [None]);
    var s1 := [[], TailTickState()];
    assert ([[]] + [[]])[1 := TailTickState()] == s1;
    TailTickLowered(s1, [None]);
    assert TailTick()[1..] == [];
    var l := LowerLoop(body, [], [[]], [], ModuleLoop);
    assert l.states == s1 && l.code == TailTickState();
    assert Lower(TailTick(), [[]], [], ModuleLoop) == l;
    assert [] + l.code == l.code;
  }

  lemma TailTickStateRuns(env: Env, st: State)
    ensures Exec(env, TailTickState(), st, Hold) == Ran([EVENT], st, Pc(1))
  {
    var branch := TailTickState()[1..];
    assert branch == [Branch(Not(Lit(1)), [Arm([SetPc(1)]), Arm([SetPc(1)])])] && branch[1..] == [];
    assert [SetPc(1)][1..] == [];
    assert Exec(env, [SetPc(1)], st, Hold) == Ran([], st, Pc(1));
    assert Exec(env, branch, st, Hold).log == [] + [];
  }

  lemma TailTickMachine(env: Env, st: State)
    ensures Extracted([], TailTick()).Some?
    ensures RunMachine(env, Extracted([], TailTick()).value, 0, st, 2).logs == [[EVENT], [EVENT]]
  {
    TailTickFlattened();
    TailTickStatePlain();
    ExtractedAsFlattened([], TailTick());
    TailTickRuns(env, st);
  }

  lemma TailTickStatePlain()
    ensures Lets(TailTickState()) == {} && !ContainsGoto(TailTickState())
  {
    var branch := TailTickState()[1..];
    assert branch == [Branch(Not(Lit(1)), [Arm([SetPc(1)]), Arm([SetPc(1)])])] && branch[1..] == [];
    var arms := branch[0].arms;
    assert [SetPc(1)][1..] == [] && arms[1..] == [Arm([SetPc(1)])] && arms[1..][1..] == [];
    assert !ContainsGoto([SetPc(1)]) && !ArmsContainGoto(arms[1..]) && !ArmsContainGoto(arms) && !ContainsGoto(branch);
    assert Lets([SetPc(1)]) == {} && Lets(branch) == {};
  }

  lemma TailTickRuns(env: Env, st: State)
    ensures RunMachine(env, [TailTickState(), TailTickState()], 0, st, 2).logs == [[EVENT], [EVENT]]
  {
    var states := [TailTickState(), TailTickState()];
    TailTickStateRuns(env, st);
    TailTickStateRuns(env, Edge(st));
    assert RunMachine(env, states, 1, Edge(Edge(st)), 0).logs == [];
    assert RunMachine(env, states, 1, Edge(st), 1).logs == [[EVENT]];
  }

  /** Two cycles given by where each of them ends. */
  lemma TwoCycles(env: Env, start: Config, st: State, a: seq<Event>, c1: Config, b: seq<Event>, c2: Config)
    requires Cycle(env, start, st, a, c1, Edge(st)) && Cycle(env, c1, Edge(st), b, c2, Edge(Edge(st)))
    ensures Runs(env, start, st, [a, b], c2, Edge(Edge(st)))
  {
    var logs := [a, b];
    assert logs[1..] == [b] && [b][1..] == [];
    assert Runs(env, c2, Edge(Edge(st)), [], c2, Edge(Edge(st)));
    assert Runs(env, c1, Edge(st), logs[1..], c2, Edge(Edge(st)));
  }

  lemma TailTickSource(env: Env, st: State)
    ensures exists c: Config, s: State :: Runs(env, Start(TailTick()), st, [[EVENT], []], c, s)
  {
    var body := [Shown(), EarlyTick(), Tick];
    var k := Nested(body, [], Module(TailTick()));
    var c1, c2, c3 := Config([EarlyTick(), Tick], k), Config([Tick, Tick], k), Config([Tick], k);
    assert TailTick()[1..] == [] && body[1..] == c1.todo && c1.todo[1..] == [Tick] && [Tick] + [Tick] == c2.todo;
    assert Eval(env, Lit(1), st) == 1 && Pick(env, EarlyTick().sel, 2, st) == 0;
    assert Step(env, c1, st) == Move([], c2, st);
    var shown := Seen([EVENT], c2, st);
    var none: seq<Event> := [];
    assert none + none == none && [EVENT] + none == [EVENT] && none + [EVENT] == [EVENT];
    assert Steps(env, c2, st, 0) == Some(Seen(none, c2, st));
    assert Steps(env, c1, st, 1) == Some(Seen([], c2, st));
    assert Step(env, Config(body, k), st) == Move([EVENT], c1, st);
    assert Steps(env, Config(body, k), st, 2) == Some(shown);
    assert Steps(env, Start(TailTick()), st, 3) == Some(shown);
    assert c2.todo[1..] == c3.todo && c3.todo[1..] == [];
    assert Cycle(env, Start(TailTick()), st, [EVENT], c3, Edge(st));
    ReachesSelf(env, c3, Edge(st));
    assert Cycle(env, c3, Edge(st), [], Config([], k), Edge(Edge(st)));
    TwoCycles(env, Start(TailTick()), st, [EVENT], c3, [], Config([], k));
  }

  lemma TailTickAdmitted()
    ensures Written(TailTick()) && Admitted(TailTick())
  {
    var body := [Shown(), EarlyTick(), Tick];
    assert body[1..] == [EarlyTick(), Tick] && body[1..][1..] == [Tick] && [Tick][1..] == [];
    assert EarlyTick().arms[1..] == [Arm([])] && EarlyTick().arms[1..][1..] == [];
    assert ArmsWritten(EarlyTick().arms[1..]) && WrittenStmt(EarlyTick());
    assert Written(body[1..][1..]) && Written(body[1..]) && Written(body);
    assert ArmsFlattenable(EarlyTick().arms, true);
    assert Flattenable(body[1..][1..], true) && Flattenable(body[1..], true) && Flattenable(body, true);
    assert FirstTick(body) == 2 && EndsAtClockBoundary(body);
    assert ContainsTick(body[1..][1..]) && ContainsTick(body[1..]) && ContainsTick(body);
    assert StmtContainsTick(TailTick()[0]);
  }

  lemma TailTickAdjusted()
    ensures Lowerable(TailTick()) && !Exact(TailTick())
    ensures Adjusted(TailTick()) == [Loop([Shown(), If(Lit(1), [], []), Tick])]
  {
    var body, arms := [Shown(), EarlyTick(), Tick], EarlyTick().arms;
    assert body[1..] == [EarlyTick(), Tick] && body[1..][1..] == [Tick] && [Tick][1..] == [] && TailTick()[1..] == [];
    assert arms[1..] == [Arm([])] && arms[1..][1..] == [];
    assert Lowerable([Tick]) && ArmsLowerable(arms[1..]) && ArmsLowerable(arms) && LowerableStmt(EarlyTick());
    assert Lowerable(body[1..][1..]) && Lowerable(body[1..]) && Lowerable(body);
    assert FirstTick(body) == 2 && body[|body| - 1] == Tick && !Endless(body);
    assert Adjusted([Tick]) == [Tick] && AdjustedArms(arms[1..]) == [Arm([])] && AdjustedArms(arms) == arms;
    assert Adjusted(body[1..][1..]) == [Tick] && Adjusted(body[1..]) == body[1..] && Adjusted(body) == body;
    var work := [Shown(), EarlyTick()];
    assert body[..2] == work && work[1..] == [EarlyTick()] && work[1..][1..] == [];
    assert Trimmed([Tick]) == [] && TrimmedArms(arms[1..]) == [Arm([])];
    assert TrimmedArms(arms) == [Arm([]), Arm([])];
    assert Trimmed(work[1..]) == [If(Lit(1), [], [])] && Trimmed(work) == [Shown(), If(Lit(1), [], [])];
    assert Trimmed(work) + [Tick] == [Shown(), If(Lit(1), [], []), Tick];
    assert AdjustedStmt(Loop(body)) == Loop([Shown(), If(Lit(1), [], []), Tick]);
    assert !NoTailTick([Tick]) && !ArmsNoTailTick(arms) && !NoTailTick(work[1..]) && !NoTailTick(work);
  }

  /** One source cycle too few: an admitted body, its machine, and two runs that differ. */
  lemma TailTickCounterexample(env: Env, st: State)
    ensures Written(TailTick()) && Admitted(TailTick()) && Lowerable(TailTick()) && Extracted([], TailTick()).Some?
    ensures !Exact(TailTick()) && Adjusted(TailTick()) == [Loop([Shown(), If(Lit(1), [], []), Tick])]
    ensures RunMachine(env, Extracted([], TailTick()).value, 0, st, 2).logs == [[EVENT], [EVENT]]
    ensures exists c: Config, s: State :: Runs(env, Start(TailTick()), st, [[EVENT], []], c, s)
  {
    TailTickAdmitted();
    TailTickAdjusted();
    TailTickMachine(env, st);
    TailTickSource(env, st);
  }

  // ----- A loop that ends in a loop ------------------------------------------------------------------

  function WaitOnce(): Stmt {
    Branch(Lit(0), [Arm([Tick])])
  }

  function InnerBody(): Code {
    [Shown(), Break, Tick]
  }

  function OuterBody(): Code {
    [WaitOnce(), Loop(InnerBody())]
  }

  /** `loop { loop { match 0 { _ => tick } loop { p.write(1); break; tick; } } }` */
  function LoopInLoop(): Code {
    [Loop(OuterBody())]
  }

  function WaitState(): Code {
    [Branch(Lit(0), [Arm([SetPc(2)])])]
  }

  function ShowState(): Code {
    [Shown(), SetPc(1)]
  }

  lemma ShowLowered(states: seq<Code>, caches: Caches, inner: Ctx)
    requires |caches| == 2 && inner == NestedLoop(3, [], NestedLoop(1, [], ModuleLoop))
    requires caches[1] == None || caches[1] == Some([SetPc(1)])
    ensures Lower([Shown(), Break], states, caches, inner) == Lowered(ShowState(), states, caches[..1] + [Some([SetPc(1)])])
  {
    assert Lower([], states, caches[..1], inner.outer) == Lowered([SetPc(1)], states, caches[..1]);
    assert [Shown(), Break][1..] == [Break];
    assert caches == caches[..1] + [caches[1]];
    assert LowerBreak(states, caches, inner) == Lowered([SetPc(1)], states, caches[..1] + [Some([SetPc(1)])]);
    assert ShowState() == [Shown()] + [SetPc(1)];
  }

  lemma InnerLowered(states: seq<Code>, caches: Caches)
    requires |states| == 3 && caches == [None]
    ensures Lower([Loop(InnerBody())], states, caches, NestedLoop(1, [], ModuleLoop))
         == Lowered(ShowState(), states + [ShowState()], caches)
  {
    var outer := NestedLoop(1, [], ModuleLoop);
    var inner := NestedLoop(3, [], outer);
    var work := [Shown(), Break];
    assert FirstTick(InnerBody()) == 2 by {
      assert InnerBody()[1..] == [Break, Tick] && InnerBody()[1..][1..] == [Tick];
    }
    assert InnerBody()[..2] == work && Rotated(InnerBody(), 2) == work;
    var filled: Caches := [None, Some([SetPc(1)])];
    assert caches + [None] == [None, None] && [None, None][..1] + [Some([SetPc(1)])] == filled;
    ShowLowered(states + [[]], [None, None], inner);
    var s1 := states + [ShowState()];
    assert (states + [[]])[3 := ShowState()] == s1;
    assert filled[..1] + [Some([SetPc(1)])] == filled && filled[..1] == caches;
    ShowLowered(s1, filled, inner);
    assert [Loop(InnerBody())][1..] == [];
  }

  lemma OuterLowered()
    ensures Lower(OuterBody(), [[], []], [None], NestedLoop(1, [], ModuleLoop))
         == Lowered(WaitState(), [[], [], ShowState(), ShowState()], [None])
  {
    var outer := NestedLoop(1, [], ModuleLoop);
    var rest := [Loop(InnerBody())];
    var s2: seq<Code> := [[], []];
    assert OuterBody()[1..] == rest && [Tick] + rest == [Tick, Loop(InnerBody())];
    InnerLowered(s2 + [[]], [None]);
    assert ([Tick] + rest)[1..] == rest;
    var done: seq<Code> := [[], [], ShowState(), ShowState()];
    assert (s2 + [[]] + [ShowState()])[2 := ShowState()] == done;
    assert Lower([Tick] + rest, s2, [None], outer) == Lowered([SetPc(2)], done, [None]);
    assert WaitOnce().arms[1..] == [];
    assert LowerArms(WaitOnce().arms, rest, s2, [None], outer) == LoweredArms([Arm([SetPc(2)])], done, [None]);
    assert ContainsTick([Tick]) && Diverges(WaitOnce());
  }

  lemma LoopInLoopFlattened()
    ensures Flattened([], LoopInLoop()) == [WaitState(), WaitState(), ShowState(), ShowState()]
  {
    OuterLowered();
    assert FirstTick(OuterBody()) == 2 by {
      assert OuterBody()[1..] == [Loop(InnerBody())] && OuterBody()[1..][1..] == [];
    }
    var none: Caches := [];
    var one: seq<Code>, two: seq<Code> := [[]], [[], []];
    assert none + [None] == [None] && one + [[]] == two && LoopInLoop()[1..] == [];
    var l := LowerLoop(OuterBody(), [], [[]], none, ModuleLoop);
    assert l.states == [[], WaitState(), ShowState(), ShowState()] && l.code == WaitState();
    assert Lower(LoopInLoop(), [[]], none, ModuleLoop) == l;
    assert [] + l.code == l.code;
  }

  lemma LoopInLoopMachine(env: Env, st: State)
    ensures Extracted([], LoopInLoop()).Some?
    ensures RunMachine(env, Extracted([], LoopInLoop()).value, 0, st, 3).logs == [[], [EVENT], []]
  {
    var states := [WaitState(), WaitState(), ShowState(), ShowState()];
    LoopInLoopFlattened();
    LoopInLoopStatesPlain();
    assert forall i :: 0 <= i < |states| ==> states[i] == WaitState() || states[i] == ShowState();
    ExtractedAsFlattened([], LoopInLoop());
    LoopInLoopRuns(env, st);
  }

  lemma LoopInLoopStatesPlain()
    ensures Lets(WaitState()) == {} && !ContainsGoto(WaitState())
    ensures Lets(ShowState()) == {} && !ContainsGoto(ShowState())
  {
    assert [SetPc(2)][1..] == [] && WaitState()[1..] == [] && WaitState()[0].arms[1..] == [];
    assert Lets([SetPc(2)]) == {} && !ContainsGoto([SetPc(2)]) && !ArmsContainGoto(WaitState()[0].arms);
    assert ShowState()[1..] == [SetPc(1)] && [SetPc(1)][1..] == [];
    assert Lets([SetPc(1)]) == {} && !ContainsGoto([SetPc(1)]);
  }

  lemma LoopInLoopRuns(env: Env, st: State)
    ensures RunMachine(env, [WaitState(), WaitState(), ShowState(), ShowState()], 0, st, 3).logs == [[], [EVENT], []]
  {
    var states := [WaitState(), WaitState(), ShowState(), ShowState()];
    LoopInLoopStatesRun(env, st);
    LoopInLoopStatesRun(env, Edge(st));
    LoopInLoopStatesRun(env, Edge(Edge(st)));
    assert RunMachine(env, states, 2, Edge(Edge(Edge(st))), 0).logs == [];
    assert RunMachine(env, states, 1, Edge(Edge(st)), 1).logs == [[]];
    assert RunMachine(env, states, 2, Edge(st), 2).logs == [[EVENT], []];
  }

  lemma LoopInLoopStatesRun(env: Env, st: State)
    ensures Exec(env, WaitState(), st, Hold) == Ran([], st, Pc(2))
    ensures Exec(env, ShowState(), st, Hold) == Ran([EVENT], st, Pc(1))
  {
    assert [SetPc(2)][1..] == [] && WaitState()[1..] == [];
    assert Exec(env, [SetPc(2)], st, Hold) == Ran([], st, Pc(2));
    assert ShowState()[1..] == [SetPc(1)] && [SetPc(1)][1..] == [];
    assert Exec(env, [SetPc(1)], st, Hold) == Ran([], st, Pc(1));
  }

  lemma LoopInLoopSource(env: Env, st: State)
    ensures exists c: Config, s: State :: Runs(env, Start(LoopInLoop()), st, [[], [EVENT], [EVENT]], c, s)
  {
    var k1 := Nested(OuterBody(), [], Module(LoopInLoop()));
    var rest := [Loop(InnerBody())];
    var top, wait, next := Start(LoopInLoop()), Config([Tick] + rest, k1), Config(rest, k1);
    var s1, s2 := Edge(st), Edge(Edge(st));
    assert LoopInLoop()[1..] == [] && OuterBody()[1..] == rest && wait.todo[1..] == rest && rest[1..] == [];
    var none: seq<Event> := [];
    assert none + none == none;
    assert Steps(env, wait, st, 0) == Some(Seen(none, wait, st));
    assert Steps(env, Config(OuterBody(), k1), st, 1) == Some(Seen([], wait, st));
    assert Steps(env, top, st, 2) == Some(Seen([], wait, st));
    CycleBySteps(env, top, st, 2, Seen([], wait, st));
    LoopInLoopAgain(env, s1);
    LoopInLoopAgain(env, s2);
    CycleBySteps(env, next, s1, 5, Seen([EVENT], wait, s1));
    CycleBySteps(env, next, s2, 5, Seen([EVENT], wait, s2));
    TwoCycles(env, next, s1, [EVENT], next, [EVENT], next);
    var logs := [[], [EVENT], [EVENT]];
    assert logs[1..] == [[EVENT], [EVENT]];
    assert Runs(env, top, st, logs, next, Edge(s2));
  }

  /** From the inner loop to the wait of the next iteration, within one cycle. */
  lemma LoopInLoopAgain(env: Env, s: State)
    ensures var k1, rest := Nested(OuterBody(), [], Module(LoopInLoop())), [Loop(InnerBody())];
      Steps(env, Config(rest, k1), s, 5) == Some(Seen([EVENT], Config([Tick] + rest, k1), s))
  {
    var k1, rest := Nested(OuterBody(), [], Module(LoopInLoop())), [Loop(InnerBody())];
    var k2, wait := Nested(InnerBody(), [], k1), Config([Tick] + rest, k1);
    var none: seq<Event> := [];
    assert none + none == none && [EVENT] + none == [EVENT] && none + [EVENT] == [EVENT];
    assert OuterBody()[1..] == rest && rest[1..] == [];
    assert InnerBody()[1..] == [Break, Tick] && [Break, Tick][1..] == [Tick];
    assert Steps(env, wait, s, 0) == Some(Seen(none, wait, s));
    assert Steps(env, Config(OuterBody(), k1), s, 1) == Some(Seen([], wait, s));
    assert Steps(env, Config([], k1), s, 2) == Some(Seen([], wait, s));
    assert Steps(env, Config([Break, Tick], k2), s, 3) == Some(Seen([], wait, s));
    assert Steps(env, Config(InnerBody(), k2), s, 4) == Some(Seen([EVENT], wait, s));
  }

  lemma LoopInLoopAdmitted()
    ensures Written(LoopInLoop()) && Admitted(LoopInLoop())
  {
    var rest := [Loop(InnerBody())];
    assert InnerBody()[1..] == [Break, Tick] && InnerBody()[1..][1..] == [Tick];
    assert Written(InnerBody()[1..][1..]) && Written(InnerBody()[1..]) && Written(InnerBody());
    assert Flattenable(InnerBody()[1..][1..], true) && Flattenable(InnerBody()[1..], true) && Flattenable(InnerBody(), true);
    assert FirstTick(InnerBody()) == 2 && EndsAtClockBoundary(InnerBody());
    assert OuterBody()[1..] == rest && rest[1..] == [] && WaitOnce().arms[1..] == [];
    assert ContainsTick([Tick]) && StmtContainsTick(WaitOnce());
    assert Written([Tick]) && ArmsWritten(WaitOnce().arms) && WrittenStmt(WaitOnce()) && Written(rest) && Written(OuterBody());
    assert Flattenable([Tick], true) && ArmsFlattenable(WaitOnce().arms, true);
    assert Flattenable(rest, true) && Flattenable(OuterBody(), true);
    assert FirstTick(OuterBody()) == 2 && EndsAtClockBoundary(OuterBody());
    assert ContainsTick(OuterBody()) && StmtContainsTick(LoopInLoop()[0]);
  }

  lemma InnerUnadjusted()
    ensures Lowerable([Loop(InnerBody())]) && Adjusted([Loop(InnerBody())]) == [Loop(InnerBody())] && Breaks(InnerBody())
  {
    var inner := InnerBody();
    assert inner[1..] == [Break, Tick] && inner[1..][1..] == [Tick] && [Tick][1..] == [] && [Loop(inner)][1..] == [];
    assert Lowerable(inner[1..][1..]) && Lowerable(inner[1..]) && Lowerable(inner);
    assert FirstTick(inner) == 2 && inner[|inner| - 1] == Tick && inner[..2] == [Shown(), Break];
    assert Adjusted([Tick]) == [Tick] && Adjusted(inner[1..]) == inner[1..] && Adjusted(inner) == inner;
    assert [Shown(), Break][1..] == [Break] && Trimmed([Break]) == [Break] && Trimmed([Shown(), Break]) == [Shown(), Break];
    assert AdjustedStmt(Loop(inner)) == Loop(inner);
    assert Breaks(inner[1..]);
  }

  lemma LoopInLoopAdjusted()
    ensures Lowerable(LoopInLoop()) && !Exact(LoopInLoop()) && Adjusted(LoopInLoop()) == [Loop(OuterBody() + [Tick])]
  {
    var rest, body := [Loop(InnerBody())], OuterBody();
    InnerUnadjusted();
    assert body[1..] == rest && rest[1..] == [] && LoopInLoop()[1..] == [] && WaitOnce().arms[1..] == [] && [Tick][1..] == [];
    assert Lowerable([Tick]) && ArmsLowerable(WaitOnce().arms) && Lowerable(body);
    assert Adjusted([Tick]) == [Tick] && AdjustedArms(WaitOnce().arms) == WaitOnce().arms && Adjusted(body) == body;
    assert FirstTick(body) == 2 && body[..2] == body && body[|body| - 1] == Loop(InnerBody()) && !Endless(body);
    TrimmedBeforeLoop(body);
  }

  /** One machine cycle too many. */
  lemma LoopInLoopCounterexample(env: Env, st: State)
    ensures Written(LoopInLoop()) && Admitted(LoopInLoop()) && Lowerable(LoopInLoop()) && Extracted([], LoopInLoop()).Some?
    ensures !Exact(LoopInLoop()) && Adjusted(LoopInLoop()) == [Loop(OuterBody() + [Tick])]
    ensures RunMachine(env, Extracted([], LoopInLoop()).value, 0, st, 3).logs == [[], [EVENT], []]
    ensures exists c: Config, s: State :: Runs(env, Start(LoopInLoop()), st, [[], [EVENT], [EVENT]], c, s)
  {
    LoopInLoopAdmitted();
    LoopInLoopAdjusted();
    LoopInLoopMachine(env, st);
    LoopInLoopSource(env, st);
  }
}
