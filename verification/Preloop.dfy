/** Statements in front of the loop are moved into state 0, which is also the loop's head:
  * when that keeps what `P; loop { body }` does, and what happens when it does not.
  */
module Preloop {
  import opened Syntax
  import opened Semantics
  import opened Lowering
  import opened Gate
  import opened Shape
  import opened Adjusting
  import opened Scoping
  import opened Hoisting
  import opened Extraction
  import opened ExtractionLimits

  // ----- The machine's program ---------------------------------------------------------------

  lemma {:induction false} PreloopPushed(preloop: Code, body: Code, states: seq<Code>)
    requires Plain(preloop)
    ensures var l := Lower(body, states, [], ModuleLoop);
      Lower(preloop + body, states, [], ModuleLoop) == l.(code := preloop + l.code)
  {
    var l := Lower(body, states, [], ModuleLoop);
    if preloop == [] {
      assert preloop + body == body && preloop + l.code == l.code;
    } else {
      PreloopPushed(preloop[1..], body, states);
      assert (preloop + body)[1..] == preloop[1..] + body;
      assert preloop + l.code == [preloop[0]] + (preloop[1..] + l.code);
    }
  }

  lemma {:induction false} PlainJoins(preloop: Code, body: Code)
    requires Plain(preloop) && Written(body) && Flattenable(body, false) && Lowerable(body)
    ensures Written(preloop + body) && Flattenable(preloop + body, false) && Lowerable(preloop + body)
    ensures Exact(preloop + body) == Exact(body)
  {
    if preloop == [] {
      assert preloop + body == body;
    } else {
      PlainJoins(preloop[1..], body);
      assert (preloop + body)[1..] == preloop[1..] + body;
    }
  }

  /** Actions moved from in front of the loop into state 0 become part of the loop: the
    * machine is the one of a body that starts with them, and does what
    * `loop { P; body }` does.
    */
  lemma PreloopRunsEachTime(preloop: Code, body: Code, env: Env, st: State, k: nat)
    requires Plain(preloop) && Written(body) && Flattenable(body, false) && Lowerable(body) && Exact(body)
    requires Extracted(preloop, body).Some?
    ensures Extracted(preloop, body) == Extracted([], preloop + body)
    ensures var r := RunMachine(env, Extracted(preloop, body).value, 0, st, k);
      r.ok && |r.logs| == k && exists c: Config :: Runs(env, Start(preloop + body), st, r.logs, c, r.st)
  {
    PreloopPushed(preloop, body, [[]]);
    var code := Lower(preloop + body, [[]], [], ModuleLoop).code;
    assert [] + code == code;
    PlainJoins(preloop, body);
    ExtractionPreservesBehaviour(preloop + body, env, st, k);
  }

  // ----- Coming back to the head ----------------------------------------------------------------

  /** May control run off the end of this list? */
  predicate Falls(stmts: Code)
    decreases stmts
  {
    stmts == [] || (FallsThrough(stmts[0]) && Falls(stmts[1..]))
  }

  predicate FallsThrough(s: Stmt)
    decreases s
  {
    match s
    case Break => false
    case Continue => false
    case Loop(body) => Breaks(body)
    case Branch(_, arms) => SomeArmFalls(arms)
    case _ => true
  }

  predicate SomeArmFalls(arms: seq<Arm>)
    decreases arms
  {
    arms != [] && (Falls(arms[0].body) || SomeArmFalls(arms[1..]))
  }

  /** May control come back to the head of a loop with this body? */
  predicate ComesBack(body: Code) {
    Falls(body) || Continues(body)
  }

  lemma {:induction false} FallsAppend(a: Code, b: Code)
    ensures Falls(a + b) == (Falls(a) && Falls(b))
  {
    if a == [] {
      assert a + b == b;
    } else {
      assert (a + b)[1..] == a[1..] + b;
      FallsAppend(a[1..], b);
    }
  }

  /** A body that ends in a loop nothing leaves, and is not restarted before it, never comes back. */
  lemma EndlessNeverComesBack(w: Code, inner: Code)
    requires !Breaks(inner) && !Continues(w)
    ensures !ComesBack(w + [Loop(inner)])
  {
    assert [Loop(inner)][1..] == [];
    FallsAppend(w, [Loop(inner)]);
    ControlAppend(w, [Loop(inner)]);
  }

  lemma {:induction false} ArmFalls(arms: seq<Arm>, i: nat)
    requires i < |arms| && Falls(arms[i].body)
    ensures SomeArmFalls(arms)
  {
    if i > 0 {
      ArmFalls(arms[1..], i - 1);
    }
  }

  /** From here control does not come back to the module loop's head. */
  predicate NoWayBack(todo: Code, k: Kont)
    decreases k
  {
    match k
    case Module(_) => !Falls(todo) && !Continues(todo)
    case Nested(body, after, outer) => Breaks(todo) || Breaks(body) ==> NoWayBack(after, outer)
    case InWhile(_, _, after, outer) => NoWayBack(after, outer)
    case InFor(_, _, _, _, _, after, outer) => NoWayBack(after, outer)
  }

  lemma NoWayBackStep(env: Env, cfg: Config, st: State)
    requires NoWayBack(cfg.todo, cfg.k) && Step(env, cfg, st).Move?
    ensures !(cfg.todo == [] && cfg.k.Module?)
    ensures var m := Step(env, cfg, st); NoWayBack(m.cfg.todo, m.cfg.k)
  {
    if cfg.todo != [] {
      var s, rest := cfg.todo[0], cfg.todo[1..];
      assert Falls(cfg.todo) == (FallsThrough(s) && Falls(rest));
      assert Continues(cfg.todo) == (StmtContinues(s) || Continues(rest)) && Breaks(cfg.todo) == (StmtBreaks(s) || Breaks(rest));
      if s.Branch? {
        var i := Pick(env, s.sel, |s.arms|, st);
        FallsAppend(s.arms[i].body, rest);
        ControlAppend(s.arms[i].body, rest);
        ArmControl(s.arms, i);
        if Falls(s.arms[i].body) {
          ArmFalls(s.arms, i);
        }
      }
    }
  }

  // ----- Two programs that differ in what their head starts with -----------------------------------

  /** The same point of a program whose module loop has another body. */
  function Rehomed(k: Kont, body: Code): Kont {
    match k
    case Module(_) => Module(body)
    case Nested(b, after, outer) => Nested(b, after, Rehomed(outer, body))
    case InWhile(c, b, after, outer) => InWhile(c, b, after, Rehomed(outer, body))
    case InFor(x, bound, next, hi, b, after, outer) => InFor(x, bound, next, hi, b, after, Rehomed(outer, body))
  }

  function Elsewhere(cfg: Config, body: Code): Config {
    Config(cfg.todo, Rehomed(cfg.k, body))
  }

  predicate AtHead(cfg: Config) {
    cfg.todo == [] && cfg.k.Module?
  }

  /** Away from the head the two programs take the same step. */
  lemma StepElsewhere(env: Env, cfg: Config, st: State, body: Code)
    requires !AtHead(cfg)
    ensures var m, m' := Step(env, cfg, st), Step(env, Elsewhere(cfg, body), st);
      if m.Move? then m' == Move(m.log, Elsewhere(m.cfg, body), m.st) else m' == m
  {
  }

  lemma {:induction false} StepsElsewhere(env: Env, cfg: Config, st: State, body: Code, n: nat, o: Seen)
    requires NoWayBack(cfg.todo, cfg.k) && Steps(env, cfg, st, n) == Some(o)
    ensures Steps(env, Elsewhere(cfg, body), st, n) == Some(o.(cfg := Elsewhere(o.cfg, body)))
    ensures NoWayBack(o.cfg.todo, o.cfg.k)
    decreases n
  {
    if n > 0 {
      var m := Step(env, cfg, st);
      NoWayBackStep(env, cfg, st);
      StepElsewhere(env, cfg, st, body);
      StepsElsewhere(env, m.cfg, m.st, body, n - 1, Steps(env, m.cfg, m.st, n - 1).value);
    }
  }

  lemma {:induction false} RunsElsewhere(env: Env, cfg: Config, st: State, body: Code, logs: seq<seq<Event>>, c: Config, s: State)
    requires NoWayBack(cfg.todo, cfg.k) && Runs(env, cfg, st, logs, c, s)
    ensures Runs(env, Elsewhere(cfg, body), st, logs, Elsewhere(c, body), s)
    decreases |logs|
  {
    if logs != [] {
      var mid: Config, sm: State :| Cycle(env, cfg, st, logs[0], mid, sm) && Runs(env, mid, sm, logs[1..], c, s);
      var o: Seen :| Reaches(env, cfg, st, o) && StandsAtTick(o.cfg)
        && logs[0] == o.log && mid == Config(o.cfg.todo[1..], o.cfg.k) && sm == Edge(o.st);
      var n: nat :| Steps(env, cfg, st, n) == Some(o);
      StepsElsewhere(env, cfg, st, body, n, o);
      CycleBySteps(env, Elsewhere(cfg, body), st, n, o.(cfg := Elsewhere(o.cfg, body)));
      assert o.cfg.k.Module? ==> FallsThrough(Tick);
      RunsElsewhere(env, mid, sm, body, logs[1..], c, s);
    }
  }

  lemma {:induction false} PlainFalls(preloop: Code, body: Code)
    requires Plain(preloop)
    ensures Falls(preloop + body) == Falls(body) && Continues(preloop + body) == Continues(body)
  {
    if preloop == [] {
      assert preloop + body == body;
    } else {
      PlainFalls(preloop[1..], body);
      assert (preloop + body)[1..] == preloop[1..] + body;
    }
  }

  /** `P; loop { body }`: what stands in front runs, and then the loop. */
  function Whole(preloop: Code, body: Code): Config {
    Config(preloop + body, Module(body))
  }

  /** Statements in front of a loop that never comes back to its head are run once, as the
    * source runs them: the machine keeps `P; loop { body }` cycle by cycle.
    */
  lemma PreloopRunsOnce(preloop: Code, body: Code, env: Env, st: State, k: nat)
    requires Plain(preloop) && Written(body) && Flattenable(body, false) && Lowerable(body) && Exact(body)
    requires Extracted(preloop, body).Some?
    requires preloop == [] || !ComesBack(body)
    ensures var r := RunMachine(env, Extracted(preloop, body).value, 0, st, k);
      && r.ok && |r.logs| == k
      && (exists c: Config :: Runs(env, Whole(preloop, body), st, r.logs, c, r.st))
      && forall logs: seq<seq<Event>>, c: Config, s: State | |logs| == k && Runs(env, Whole(preloop, body), st, logs, c, s) ::
           logs == r.logs && s == r.st
  {
    PreloopRunsEachTime(preloop, body, env, st, k);
    var r := RunMachine(env, Extracted(preloop, body).value, 0, st, k);
    var joined := Start(preloop + body);
    var c: Config :| Runs(env, joined, st, r.logs, c, r.st);
    if preloop == [] {
      assert preloop + body == body;
      assert Runs(env, Whole(preloop, body), st, r.logs, c, r.st);
    } else {
      PlainFalls(preloop, body);
      RunsElsewhere(env, joined, st, body, r.logs, c, r.st);
      assert Runs(env, Whole(preloop, body), st, r.logs, Elsewhere(c, body), r.st);
    }
    var c0: Config :| Runs(env, Whole(preloop, body), st, r.logs, c0, r.st);
    forall logs: seq<seq<Event>>, c: Config, s: State | |logs| == k && Runs(env, Whole(preloop, body), st, logs, c, s)
      ensures logs == r.logs && s == r.st
    {
      RunsDeterministic(env, Whole(preloop, body), st, logs, c, s, r.logs, c0, r.st);
    }
  }

  // ----- Statements in front that only drive ------------------------------------------------------------

  predicate Driving(preloop: Code) {
    preloop != [] && forall i :: 0 <= i < |preloop| ==> preloop[i].Do? && preloop[i].action.Drive?
  }

  /** In this cycle, control gets to the end of the module loop's body. */
  ghost predicate PassesHead(env: Env, cfg: Config, st: State) {
    exists n: nat :: var o := Steps(env, cfg, st, n); o.Some? && AtHead(o.value.cfg)
  }

  /** In the `i`-th cycle of this run, control comes back to the module loop's head. */
  ghost predicate Reenters(env: Env, cfg: Config, st: State, logs: seq<seq<Event>>, i: nat)
    requires i < |logs|
    decreases i
  {
    if i == 0 then PassesHead(env, cfg, st)
    else exists mid: Config, sm: State :: Cycle(env, cfg, st, logs[0], mid, sm) && Reenters(env, mid, sm, logs[1..], i - 1)
  }

  lemma PassesHeadStep(env: Env, cfg: Config, st: State)
    requires Step(env, cfg, st).Move?
    ensures var m := Step(env, cfg, st); PassesHead(env, cfg, st) <==> AtHead(cfg) || PassesHead(env, m.cfg, m.st)
  {
    var m := Step(env, cfg, st);
    if PassesHead(env, cfg, st) && !AtHead(cfg) {
      var n: nat :| var o := Steps(env, cfg, st, n); o.Some? && AtHead(o.value.cfg);
      assert n > 0 && Steps(env, m.cfg, m.st, n - 1).Some?;
    }
    if AtHead(cfg) {
      assert Steps(env, cfg, st, 0) == Some(Seen([], cfg, st));
    }
    if PassesHead(env, m.cfg, m.st) {
      var n: nat :| var o := Steps(env, m.cfg, m.st, n); o.Some? && AtHead(o.value.cfg);
      assert Steps(env, cfg, st, n + 1).Some?;
    }
  }

  /** Drives leave the store alone and show one event each. */
  lemma {:induction false} DrivesRun(env: Env, drives: Code, rest: Code, k: Kont, st: State) returns (log: seq<Event>)
    requires forall i :: 0 <= i < |drives| ==> drives[i].Do? && drives[i].action.Drive?
    ensures |log| == |drives| && Steps(env, Config(drives + rest, k), st, |drives|) == Some(Seen(log, Config(rest, k), st))
  {
    if drives == [] {
      log := [];
      assert drives + rest == rest;
    } else {
      var more := DrivesRun(env, drives[1..], rest, k, st);
      assert (drives + rest)[1..] == drives[1..] + rest;
      log := Emit(env, drives[0].action, st) + more;
    }
  }

  /** One cycle of the two programs: from the same point and store they get to the same
    * point and store, and drive the same unless the cycle passes the head; then the
    * program that starts its loop with the drives shows more.
    */
  lemma {:induction false} CycleApart(env: Env, preloop: Code, body: Code, cfg: Config, st: State, n: nat, o: Seen)
    returns (n': nat, o': Seen)
    requires Driving(preloop) && Steps(env, cfg, st, n) == Some(o) && StandsAtTick(o.cfg)
    requires Home(cfg.k) == body
    ensures Steps(env, Elsewhere(cfg, preloop + body), st, n') == Some(o')
    ensures o'.cfg == Elsewhere(o.cfg, preloop + body) && o'.st == o.st && Home(o.cfg.k) == body
    ensures if PassesHead(env, cfg, st) then |o'.log| > |o.log| else o'.log == o.log
    decreases n
  {
    var joined := preloop + body;
    if n == 0 {
      n', o' := 0, Seen([], Elsewhere(cfg, joined), st);
      assert !PassesHead(env, cfg, st) by {
        AtTickIsNotHead(env, cfg, st);
      }
    } else {
      var m := Step(env, cfg, st);
      PassesHeadStep(env, cfg, st);
      var r := Steps(env, m.cfg, m.st, n - 1).value;
      StepHome(env, cfg, st);
      var j, x := CycleApart(env, preloop, body, m.cfg, m.st, n - 1, r);
      if AtHead(cfg) {
        n', o' := HeadApart(env, preloop, body, st, j, x);
      } else {
        StepElsewhere(env, cfg, st, joined);
        n', o' := 1 + j, x.(log := m.log + x.log);
      }
    }
  }

  /** From its head, the program that starts its loop with the drives shows them first. */
  lemma HeadApart(env: Env, preloop: Code, body: Code, st: State, j: nat, x: Seen) returns (n': nat, o': Seen)
    requires Driving(preloop) && Steps(env, Config(body, Module(preloop + body)), st, j) == Some(x)
    ensures Steps(env, Config([], Module(preloop + body)), st, n') == Some(o')
    ensures o'.cfg == x.cfg && o'.st == x.st && |o'.log| > |x.log|
  {
    var k := Module(preloop + body);
    var log := DrivesRun(env, preloop, body, k, st);
    StepsCompose(env, Config(preloop + body, k), st, |preloop|, Seen(log, Config(body, k), st), j, x);
    n', o' := 1 + (|preloop| + j), Seen(log + x.log, x.cfg, x.st);
    assert [] + (log + x.log) == log + x.log;
  }

  lemma AtTickIsNotHead(env: Env, cfg: Config, st: State)
    requires StandsAtTick(cfg)
    ensures !PassesHead(env, cfg, st)
  {
    forall n: nat ensures !(var o := Steps(env, cfg, st, n); o.Some? && AtHead(o.value.cfg)) {
    }
  }

  /** The module loop's body, under all the loops around a point. */
  function Home(k: Kont): Code {
    if k.Module? then k.body else Home(k.outer)
  }

  lemma StepHome(env: Env, cfg: Config, st: State)
    requires Step(env, cfg, st).Move?
    ensures Home(Step(env, cfg, st).cfg.k) == Home(cfg.k)
  {
  }

  lemma WholeCycleApart(env: Env, preloop: Code, body: Code, cfg: Config, st: State, log: seq<Event>, mid: Config, sm: State)
    returns (log': seq<Event>)
    requires Driving(preloop) && Home(cfg.k) == body && Cycle(env, cfg, st, log, mid, sm)
    ensures Cycle(env, Elsewhere(cfg, preloop + body), st, log', Elsewhere(mid, preloop + body), sm) && Home(mid.k) == body
    ensures if PassesHead(env, cfg, st) then |log'| > |log| else log' == log
  {
    var o: Seen :| Reaches(env, cfg, st, o) && StandsAtTick(o.cfg)
      && log == o.log && mid == Config(o.cfg.todo[1..], o.cfg.k) && sm == Edge(o.st);
    var n: nat :| Steps(env, cfg, st, n) == Some(o);
    var n', o' := CycleApart(env, preloop, body, cfg, st, n, o);
    CycleBySteps(env, Elsewhere(cfg, preloop + body), st, n', o');
    log' := o'.log;
  }

  lemma {:induction false} RunsApart(env: Env, preloop: Code, body: Code, cfg: Config, st: State,
                                     logs: seq<seq<Event>>, c: Config, s: State)
    returns (logs': seq<seq<Event>>)
    requires Driving(preloop) && Home(cfg.k) == body && Runs(env, cfg, st, logs, c, s)
    ensures |logs'| == |logs| && Runs(env, Elsewhere(cfg, preloop + body), st, logs', Elsewhere(c, preloop + body), s)
    ensures forall i :: 0 <= i < |logs| ==> (logs'[i] != logs[i] <==> Reenters(env, cfg, st, logs, i)) && |logs'[i]| >= |logs[i]|
    decreases |logs|
  {
    logs' := [];
    if logs != [] {
      var joined := preloop + body;
      var mid: Config, sm: State :| Cycle(env, cfg, st, logs[0], mid, sm) && Runs(env, mid, sm, logs[1..], c, s);
      var first := WholeCycleApart(env, preloop, body, cfg, st, logs[0], mid, sm);
      var more := RunsApart(env, preloop, body, mid, sm, logs[1..], c, s);
      logs' := [first] + more;
      assert logs'[1..] == more;
      forall i | 0 <= i < |logs|
        ensures (logs'[i] != logs[i] <==> Reenters(env, cfg, st, logs, i)) && |logs'[i]| >= |logs[i]|
      {
        if i > 0 {
          assert logs'[i] == more[i - 1] && logs[i] == logs[1..][i - 1];
          LaterReenters(env, cfg, st, logs, i, mid, sm);
        }
      }
    }
  }

  lemma LaterReenters(env: Env, cfg: Config, st: State, logs: seq<seq<Event>>, i: nat, mid: Config, sm: State)
    requires 0 < i < |logs| && Cycle(env, cfg, st, logs[0], mid, sm)
    ensures Reenters(env, cfg, st, logs, i) <==> Reenters(env, mid, sm, logs[1..], i - 1)
  {
    if Reenters(env, cfg, st, logs, i) {
      var m: Config, s: State :| Cycle(env, cfg, st, logs[0], m, s) && Reenters(env, m, s, logs[1..], i - 1);
      CycleDeterministic(env, cfg, st, logs[0], mid, sm, logs[0], m, s);
    }
  }

  /** Statements in front of the loop that only drive: in any run of `P; loop { body }`, the
    * machine shows something else in exactly the cycles in which control comes back to
    * the loop's head, and then it shows more. So it keeps the run just when there are none.
    */
  lemma PreloopDrivesAgain(preloop: Code, body: Code, env: Env, st: State, logs: seq<seq<Event>>, c: Config, s: State)
    requires Driving(preloop) && Written(body) && Flattenable(body, false) && Lowerable(body) && Exact(body)
    requires Extracted(preloop, body).Some? && Runs(env, Whole(preloop, body), st, logs, c, s)
    ensures var r := RunMachine(env, Extracted(preloop, body).value, 0, st, |logs|);
      && r.ok && |r.logs| == |logs| && r.st == s
      && (forall i :: 0 <= i < |logs| ==>
            (r.logs[i] != logs[i] <==> Reenters(env, Whole(preloop, body), st, logs, i)) && |r.logs[i]| >= |logs[i]|)
      && (r.logs == logs <==> forall i :: 0 <= i < |logs| ==> !Reenters(env, Whole(preloop, body), st, logs, i))
  {
    var joined := preloop + body;
    PreloopRunsEachTime(preloop, body, env, st, |logs|);
    var r := RunMachine(env, Extracted(preloop, body).value, 0, st, |logs|);
    var c0: Config :| Runs(env, Start(joined), st, r.logs, c0, r.st);
    var logs' := RunsApart(env, preloop, body, Whole(preloop, body), st, logs, c, s);
    RunsDeterministic(env, Start(joined), st, r.logs, c0, r.st, logs', Elsewhere(c, joined), s);
    assert forall i :: 0 <= i < |logs| ==> (r.logs[i] != logs[i] <==> Reenters(env, Whole(preloop, body), st, logs, i));
  }

  // ----- A write that is repeated ----------------------------------------------------------------------------

  /** `p.write(1); loop { match 0 { _ => tick } }` writes once; its machine, every cycle. */
  lemma PreloopCounterexample(env: Env, st: State)
    ensures Written([WaitOnce()]) && Admitted([WaitOnce()]) && Extracted([Shown()], [WaitOnce()]).Some?
    ensures RunMachine(env, Extracted([Shown()], [WaitOnce()]).value, 0, st, 2).logs == [[EVENT], [EVENT]]
    ensures exists c: Config, s: State ::
      Runs(env, Config([Shown(), WaitOnce()], Module([WaitOnce()])), st, [[EVENT], []], c, s)
  {
    assert WaitOnce().arms[1..] == [] && [WaitOnce()][1..] == [] && [Tick][1..] == [];
    assert Written([Tick]) && ArmsWritten(WaitOnce().arms) && WrittenStmt(WaitOnce());
    assert Flattenable([Tick], false) && ArmsFlattenable(WaitOnce().arms, false);
    assert ContainsTick([Tick]) && StmtContainsTick(WaitOnce()) && Diverges(WaitOnce());
    assert [Tick] + [] == [Tick];
    assert LowerArms(WaitOnce().arms, [], [[]], [], ModuleLoop) == LoweredArms([Arm([SetPc(0)])], [[]], []);
    PreloopMachine(env, st);
    PreloopSource(env, st);
  }

  lemma PreloopMachine(env: Env, st: State)
    requires LowerArms(WaitOnce().arms, [], [[]], [], ModuleLoop) == LoweredArms([Arm([SetPc(0)])], [[]], [])
    requires Diverges(WaitOnce())
    ensures Extracted([Shown()], [WaitOnce()]).Some?
    ensures RunMachine(env, Extracted([Shown()], [WaitOnce()]).value, 0, st, 2).logs == [[EVENT], [EVENT]]
  {
    var again := [Branch(Lit(0), [Arm([SetPc(0)])])];
    var state := [Shown()] + again;
    assert [WaitOnce()][1..] == [];
    assert Flattened([Shown()], [WaitOnce()]) == [state];
    assert state[1..] == again && again[1..] == [] && [SetPc(0)][1..] == [];
    assert again[0].arms == [Arm([SetPc(0)])] && again[0].arms[1..] == [];
    assert !ContainsGoto([SetPc(0)]) && !ArmsContainGoto(again[0].arms) && !ContainsGoto(again) && !ContainsGoto(state);
    assert Lets([SetPc(0)]) == {} && Lets(again) == {} && Lets(state) == {};
    ExtractedAsFlattened([Shown()], [WaitOnce()]);
    forall s: State ensures Exec(env, state, s, Hold) == Ran([EVENT], s, Pc(0)) {
      assert Exec(env, [SetPc(0)], s, Hold) == Ran([], s, Pc(0));
      assert Exec(env, again, s, Hold).log == [] + [];
    }
    assert RunMachine(env, [state], 0, Edge(Edge(st)), 0).logs == [];
    assert RunMachine(env, [state], 0, Edge(st), 1).logs == [[EVENT]];
  }

  lemma PreloopSource(env: Env, st: State)
    ensures exists c: Config, s: State ::
      Runs(env, Config([Shown(), WaitOnce()], Module([WaitOnce()])), st, [[EVENT], []], c, s)
  {
    var k := Module([WaitOnce()]);
    var start, top, wait := Config([Shown(), WaitOnce()], k), Config([WaitOnce()], k), Config([Tick], k);
    var none: seq<Event> := [];
    assert none + none == none && [EVENT] + none == [EVENT];
    assert start.todo[1..] == top.todo && top.todo[1..] == [] && [Tick] + [] == [Tick] && [Tick][1..] == [];
    forall s: State ensures Steps(env, top, s, 1) == Some(Seen([], wait, s)) {
      assert Steps(env, wait, s, 0) == Some(Seen(none, wait, s));
    }
    assert Steps(env, start, st, 2) == Some(Seen([EVENT], wait, st));
    CycleBySteps(env, start, st, 2, Seen([EVENT], wait, st));
    assert Steps(env, Config([], k), Edge(st), 2) == Some(Seen([], wait, Edge(st)));
    CycleBySteps(env, Config([], k), Edge(st), 2, Seen([], wait, Edge(st)));
    TwoCycles(env, start, st, [EVENT], Config([], k), [], Config([], k));
  }

  // ----- A repetition nothing shows ---------------------------------------------------------------------------

  function Once(): Code {
    [Shown(), Do(Set("x", Lit(1)))]
  }

  /** `if x { } else { p.write(1) } x = 0; match 0 { _ => tick }` */
  function Covering(): Code {
    [If(Var("x"), [], [Shown()]), Do(Set("x", Lit(0))), WaitOnce()]
  }

  /** One pass through the body, to its tick. */
  lemma CoveringPass(env: Env, k: Kont, st: State) returns (n: nat)
    ensures Steps(env, Config(Covering(), k), st, n)
         == Some(Seen(if Get(st.vars, "x") != 0 then [] else [EVENT], Config([Tick], k), Assign(st, "x", 0)))
  {
    var body := Covering();
    var rest, wait, none: seq<Event> := body[1..], [WaitOnce()], [];
    var end := Assign(st, "x", 0);
    assert rest == [Do(Set("x", Lit(0))), WaitOnce()] && rest[1..] == wait && wait[1..] == [] && [Tick] + [] == [Tick];
    assert none + none == none && [EVENT] + none == [EVENT] && none + [EVENT] == [EVENT] && [] + rest == rest;
    assert Steps(env, Config([Tick], k), end, 0) == Some(Seen(none, Config([Tick], k), end));
    assert Steps(env, Config(wait, k), end, 1) == Some(Seen(none, Config([Tick], k), end));
    assert Steps(env, Config(rest, k), st, 2) == Some(Seen(none, Config([Tick], k), end));
    assert body[0].sel == Not(Var("x")) && body[0].arms == [Arm([]), Arm([Shown()])];
    assert Eval(env, Var("x"), st) == Get(st.vars, "x");
    assert Eval(env, Not(Var("x")), st) == if Get(st.vars, "x") == 0 then 1 else 0;
    assert Pick(env, Not(Var("x")), 2, st) == if Get(st.vars, "x") == 0 then 1 else 0;
    assert body == [Branch(Not(Var("x")), [Arm([]), Arm([Shown()])])] + rest;
    if Get(st.vars, "x") != 0 {
      assert Step(env, Config(body, k), st) == Move([], Config(rest, k), st);
      n := 3;
    } else {
      assert ([Shown()] + rest)[1..] == rest;
      assert Steps(env, Config([Shown()] + rest, k), st, 3) == Some(Seen([EVENT], Config([Tick], k), end));
      assert Step(env, Config(body, k), st) == Move([], Config([Shown()] + rest, k), st);
      n := 4;
    }
  }

  /** The same behind the statements in front: the write, and a pass that shows nothing. */
  lemma CoveringFirst(env: Env, k: Kont, st: State) returns (n: nat)
    ensures Steps(env, Config(Once() + Covering(), k), st, n) == Some(Seen([EVENT], Config([Tick], k), Assign(st, "x", 0)))
  {
    var st1 := Assign(st, "x", 1);
    assert Get(st1.vars, "x") == 1;
    OnceRuns(env, Covering(), k, st);
    var m := CoveringPass(env, k, st1);
    StepsCompose(env, Config(Once() + Covering(), k), st, 2, Seen([EVENT], Config(Covering(), k), st1),
                 m, Seen([], Config([Tick], k), Assign(st1, "x", 0)));
    assert Assign(st1, "x", 0) == Assign(st, "x", 0);
    assert [EVENT] + [] == [EVENT];
    n := 2 + m;
  }

  lemma OnceRuns(env: Env, rest: Code, k: Kont, st: State)
    ensures Steps(env, Config(Once() + rest, k), st, 2) == Some(Seen([EVENT], Config(rest, k), Assign(st, "x", 1)))
  {
    var none: seq<Event> := [];
    var more, end := [Do(Set("x", Lit(1)))] + rest, Assign(st, "x", 1);
    assert (Once() + rest)[1..] == more && more[1..] == rest;
    assert none + none == none && [EVENT] + none == [EVENT];
    assert Steps(env, Config(rest, k), end, 0) == Some(Seen(none, Config(rest, k), end));
    assert Steps(env, Config(more, k), st, 1) == Some(Seen(none, Config(rest, k), end));
  }

  /** Starting over takes one more step. */
  lemma AroundTo(env: Env, body: Code, st: State, n: nat, end: State)
    requires Steps(env, Start(body), st, n) == Some(Seen([EVENT], Config([Tick], Module(body)), end))
    ensures Cycle(env, Config([], Module(body)), st, [EVENT], Config([], Module(body)), Edge(end))
  {
    var o := Seen([EVENT], Config([Tick], Module(body)), end);
    assert [] + [EVENT] == [EVENT] && [Tick][1..] == [];
    assert Steps(env, Config([], Module(body)), st, n + 1) == Some(o);
    CycleBySteps(env, Config([], Module(body)), st, n + 1, o);
  }

  /** A cycle of either loop that starts over with `x` unset: the same event, the same store. */
  lemma CoveringCycles(env: Env, st: State)
    requires Get(st.vars, "x") == 0
    ensures var source, joined, end := Config([], Module(Covering())), Config([], Module(Once() + Covering())), Edge(Assign(st, "x", 0));
      Cycle(env, source, st, [EVENT], source, end) && Cycle(env, joined, st, [EVENT], joined, end)
  {
    var n := CoveringPass(env, Module(Covering()), st);
    AroundTo(env, Covering(), st, n, Assign(st, "x", 0));
    var m := CoveringFirst(env, Module(Once() + Covering()), st);
    AroundTo(env, Once() + Covering(), st, m, Assign(st, "x", 0));
  }

  lemma AtHeadPasses(env: Env, cfg: Config, st: State, logs: seq<seq<Event>>)
    requires AtHead(cfg) && logs != []
    ensures Reenters(env, cfg, st, logs, 0)
  {
    assert Steps(env, cfg, st, 0) == Some(Seen([], cfg, st));
  }

  /** Where the run after the first cycle comes back each time, so does the whole from then on. */
  lemma AllReenter(env: Env, cfg: Config, st: State, logs: seq<seq<Event>>, mid: Config, sm: State)
    requires logs != [] && Cycle(env, cfg, st, logs[0], mid, sm)
    requires forall i :: 0 <= i < |logs| - 1 ==> Reenters(env, mid, sm, logs[1..], i)
    ensures forall i :: 0 < i < |logs| ==> Reenters(env, cfg, st, logs, i)
  {
    forall i | 0 < i < |logs| ensures Reenters(env, cfg, st, logs, i) {
      LaterReenters(env, cfg, st, logs, i, mid, sm);
    }
  }

  lemma {:induction false} CoveringRuns(env: Env, st: State, n: nat) returns (logs: seq<seq<Event>>, s: State)
    requires Get(st.vars, "x") == 0
    ensures var source, joined := Config([], Module(Covering())), Config([], Module(Once() + Covering()));
      |logs| == n && Runs(env, source, st, logs, source, s) && Runs(env, joined, st, logs, joined, s)
      && forall i :: 0 <= i < n ==> Reenters(env, source, st, logs, i)
    decreases n
  {
    var source := Config([], Module(Covering()));
    if n == 0 {
      logs, s := [], st;
    } else {
      CoveringCycles(env, st);
      var more;
      more, s := CoveringRuns(env, Edge(Assign(st, "x", 0)), n - 1);
      logs := [[EVENT]] + more;
      assert logs[1..] == more;
      AtHeadPasses(env, source, st, logs);
      AllReenter(env, source, st, logs, source, Edge(Assign(st, "x", 0)));
    }
  }

  /** Where a statement in front also assigns, running it each time may show nothing: this
    * loop comes back to its head in every cycle, and `P; loop { body }` and
    * `loop { P; body }` have the same runs all the same.
    */
  lemma RepetitionHidden(env: Env, st: State, n: nat)
    ensures ComesBack(Covering()) && Plain(Once())
    ensures exists logs: seq<seq<Event>>, c: Config, c': Config, s: State ::
      && |logs| == n && Runs(env, Whole(Once(), Covering()), st, logs, c, s) && Runs(env, Start(Once() + Covering()), st, logs, c', s)
      && forall i :: 0 < i < n ==> Reenters(env, Whole(Once(), Covering()), st, logs, i)
  {
    CoveringComesBack();
    if n == 0 {
      NoCycles(env, Whole(Once(), Covering()), Start(Once() + Covering()), st);
    } else {
      var more, s := CoveringRuns(env, Edge(Assign(st, "x", 0)), n - 1);
      CoveringStarts(env, st, more, s);
    }
  }

  lemma NoCycles(env: Env, a: Config, b: Config, st: State)
    ensures Runs(env, a, st, [], a, st) && Runs(env, b, st, [], b, st)
  {
  }

  /** The first cycle of either loop, and then the others. */
  lemma CoveringStarts(env: Env, st: State, more: seq<seq<Event>>, s: State)
    requires var here, s1 := Config([], Module(Covering())), Edge(Assign(st, "x", 0));
      && Runs(env, here, s1, more, here, s) && forall i :: 0 <= i < |more| ==> Reenters(env, here, s1, more, i)
    requires var there := Config([], Module(Once() + Covering())); Runs(env, there, Edge(Assign(st, "x", 0)), more, there, s)
    ensures var source, joined, logs := Whole(Once(), Covering()), Start(Once() + Covering()), [[EVENT]] + more;
      && Runs(env, source, st, logs, Config([], source.k), s) && Runs(env, joined, st, logs, Config([], joined.k), s)
      && forall i :: 0 < i < |logs| ==> Reenters(env, source, st, logs, i)
  {
    var source, joined, logs := Whole(Once(), Covering()), Start(Once() + Covering()), [[EVENT]] + more;
    var a := CoveringFirst(env, source.k, st);
    var b := CoveringFirst(env, joined.k, st);
    assert [Tick][1..] == [] && logs[1..] == more;
    CycleBySteps(env, source, st, a, Seen([EVENT], Config([Tick], source.k), Assign(st, "x", 0)));
    CycleBySteps(env, joined, st, b, Seen([EVENT], Config([Tick], joined.k), Assign(st, "x", 0)));
    AllReenter(env, source, st, logs, Config([], source.k), Edge(Assign(st, "x", 0)));
  }

  lemma CoveringComesBack()
    ensures ComesBack(Covering())
  {
    var body := Covering();
    assert body[1..][1..] == [WaitOnce()] && [WaitOnce()][1..] == [] && [Tick][1..] == [];
    assert Falls([]) && Falls([Tick]) && SomeArmFalls(WaitOnce().arms) && Falls([WaitOnce()]);
    assert SomeArmFalls(body[0].arms) && Falls(body[1..]);
  }
}
