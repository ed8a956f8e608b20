/** The rewritten module from its first statement on: its declarations, its program counter
  * and its loop, against the module as written.
  */
module WholeModule {
  import opened Syntax
  import opened Semantics
  import opened Lowering
  import opened Gate
  import opened Shape
  import opened Unrolling
  import opened Adjusting
  import opened Scoping
  import opened Hoisting
  import opened Extraction
  import opened Emission

  // ----- A closed program sees only what is in scope ---------------------------------------------

  predicate ClosedAround(k: Kont, scope: set<string>) {
    match k
    case Module(body) => Closed(body, scope)
    case Nested(body, after, outer) => Closed(body, scope) && Closed(after, scope) && ClosedAround(outer, scope)
    case InWhile(c, body, after, outer) =>
      Reads(c) <= scope && Closed(body, scope) && Closed(after, scope) && ClosedAround(outer, scope)
    case InFor(x, _, _, _, body, after, outer) =>
      Closed(body, scope + {x}) && Closed(after, scope) && ClosedAround(outer, scope)
  }

  lemma {:induction false} ClosedAroundGrow(k: Kont, scope: set<string>, more: set<string>)
    requires ClosedAround(k, scope) && scope <= more
    ensures ClosedAround(k, more)
  {
    match k
    case Module(body) => ClosedGrow(body, scope, more);
    case Nested(body, after, outer) =>
      ClosedGrow(body, scope, more);
      ClosedGrow(after, scope, more);
      ClosedAroundGrow(outer, scope, more);
    case InWhile(_, body, after, outer) =>
      ClosedGrow(body, scope, more);
      ClosedGrow(after, scope, more);
      ClosedAroundGrow(outer, scope, more);
    case InFor(x, _, _, _, body, after, outer) =>
      ClosedGrow(body, scope + {x}, more + {x});
      ClosedGrow(after, scope, more);
      ClosedAroundGrow(outer, scope, more);
  }

  predicate ClosedAt(cfg: Config, scope: set<string>) {
    Closed(cfg.todo, scope) && ClosedAround(cfg.k, scope)
  }

  /** From stores that agree on what is in scope, a closed program takes the same step, and
    * the stores then agree on what is in scope there.
    */
  lemma StepAgrees(env: Env, cfg: Config, scope: set<string>, a: State, b: State) returns (scope': set<string>)
    requires ClosedAt(cfg, scope) && Agree(scope, a, b) && Step(env, cfg, a).Move?
    ensures var m, n := Step(env, cfg, a), Step(env, cfg, b);
      && n.Move? && n.log == m.log && n.cfg == m.cfg
      && scope <= scope' && ClosedAt(m.cfg, scope') && Agree(scope', m.st, n.st)
  {
    scope' := scope;
    if cfg.todo == [] {
      if cfg.k.InWhile? {
        EvalAgrees(env, cfg.k.cond, scope, a, b);
      } else if cfg.k.InFor? && cfg.k.next < cfg.k.hi {
        scope' := scope + {cfg.k.counter};
        ClosedAroundGrow(cfg.k, scope, scope');
        assert scope' + {cfg.k.counter} == scope';
      }
    } else {
      var s, rest := cfg.todo[0], cfg.todo[1..];
      assert StmtClosed(s, scope) && Closed(rest, After(scope, s));
      match s
      case Do(act) =>
        EvalAgrees(env, ActionExpr(act), scope, a, b);
        scope' := After(scope, s);
        ClosedAroundGrow(cfg.k, scope, scope');
      case Branch(sel, arms) =>
        EvalAgrees(env, sel, scope, a, b);
        var i := Pick(env, sel, |arms|, a);
        ClosedArm(arms, scope, i);
        ClosedAppend(arms[i].body, rest, scope);
      case For(x, lo, hi, body) =>
        EvalAgrees(env, lo, scope, a, b);
        EvalAgrees(env, hi, scope, a, b);
      case _ =>
    }
  }

  lemma {:induction false} StepsAgree(env: Env, cfg: Config, scope: set<string>, a: State, b: State, n: nat, o: Seen)
    returns (scope': set<string>, st: State)
    requires ClosedAt(cfg, scope) && Agree(scope, a, b) && Steps(env, cfg, a, n) == Some(o)
    ensures Steps(env, cfg, b, n) == Some(o.(st := st))
    ensures scope <= scope' && ClosedAt(o.cfg, scope') && Agree(scope', o.st, st)
    decreases n
  {
    if n == 0 {
      scope', st := scope, b;
    } else {
      var m, x := Step(env, cfg, a), Step(env, cfg, b);
      var mid := StepAgrees(env, cfg, scope, a, b);
      scope', st := StepsAgree(env, m.cfg, mid, m.st, x.st, n - 1, Steps(env, m.cfg, m.st, n - 1).value);
    }
  }

  /** A run of a closed program depends on nothing but what is in scope where it starts. */
  lemma {:induction false} RunsAgree(env: Env, cfg: Config, scope: set<string>, a: State, b: State,
                                     logs: seq<seq<Event>>, c: Config, s: State)
    returns (st: State)
    requires ClosedAt(cfg, scope) && Agree(scope, a, b) && Runs(env, cfg, a, logs, c, s)
    ensures Runs(env, cfg, b, logs, c, st) && Agree(scope, s, st)
    decreases |logs|
  {
    if logs == [] {
      st := b;
    } else {
      var mid: Config, sm: State :| Cycle(env, cfg, a, logs[0], mid, sm) && Runs(env, mid, sm, logs[1..], c, s);
      var o: Seen :| Reaches(env, cfg, a, o) && StandsAtTick(o.cfg)
        && logs[0] == o.log && mid == Config(o.cfg.todo[1..], o.cfg.k) && sm == Edge(o.st);
      var n: nat :| Steps(env, cfg, a, n) == Some(o);
      var scope', x := StepsAgree(env, cfg, scope, a, b, n, o);
      CycleBySteps(env, cfg, b, n, o.(st := x));
      st := RunsAgree(env, mid, scope', sm, Edge(x), logs[1..], c, s);
    }
  }

  // ----- Declarations in front of a loop ------------------------------------------------------------

  /** Locals declared in front of a loop: they set the store and show nothing. */
  lemma {:induction false} LetsQuiet(env: Env, decls: Code, st: State)
    requires Plain(decls) && Quiet(decls)
    ensures Unrolled(decls) && Exec(env, decls, st, Hold).log == []
  {
    if decls != [] {
      var a := decls[0].action;
      assert a.Let?;
      assert forall i :: 0 <= i < |decls[1..]| ==> decls[1..][i] == decls[i + 1];
      LetsQuiet(env, decls[1..], Perform(env, a, st));
    }
  }

  lemma RunsBehind(env: Env, decls: Code, body: Code, st: State, logs: seq<seq<Event>>, c: Config, s: State)
    requires Plain(decls) && Quiet(decls) && logs != []
    requires Runs(env, Start(body), Exec(env, decls, st, Hold).st, logs, c, s)
    ensures Runs(env, Config(decls + body, Module(body)), st, logs, c, s)
  {
    LetsQuiet(env, decls, st);
    UnrolledRuns(env, decls, st, Hold, body, Module(body));
    var r := Exec(env, decls, st, Hold);
    var mid: Config, sm: State :| Cycle(env, Start(body), r.st, logs[0], mid, sm) && Runs(env, mid, sm, logs[1..], c, s);
    var o: Seen :| Reaches(env, Start(body), r.st, o) && StandsAtTick(o.cfg)
      && logs[0] == o.log && mid == Config(o.cfg.todo[1..], o.cfg.k) && sm == Edge(o.st);
    ReachesCompose(env, Config(decls + body, Module(body)), st, Seen([], Start(body), r.st), o);
    assert [] + o.log == o.log;
    assert Cycle(env, Config(decls + body, Module(body)), st, logs[0], mid, sm);
  }

  /** What extraction puts in front of the loop it leaves. */
  function Rewritten(preloop: Code, registers: seq<Action>, pc: string): Code {
    preloop + Declared(registers) + [Do(Let(pc, Lit(0)))]
  }

  lemma {:induction false} DeclaredAssigns(registers: seq<Action>, names: set<string>)
    requires forall a <- registers :: a.Let? && a.name in names
    ensures Assigns(Declared(registers)) <= names
  {
    if registers != [] {
      assert Declared(registers)[1..] == Declared(registers[1..]);
      DeclaredAssigns(registers[1..], names);
    }
  }

  lemma {:induction false} AssignsAppend(a: Code, b: Code)
    ensures Assigns(a + b) == Assigns(a) + Assigns(b)
  {
    if a == [] {
      assert a + b == b;
    } else {
      assert (a + b)[1..] == a[1..] + b;
      AssignsAppend(a[1..], b);
    }
  }

  lemma {:induction false} ExecAppend(env: Env, a: Code, b: Code, st: State)
    requires Plain(a)
    ensures Exec(env, a + b, st, Hold).st == Exec(env, b, Exec(env, a, st, Hold).st, Hold).st
  {
    if a == [] {
      assert a + b == b;
    } else {
      assert (a + b)[1..] == a[1..] + b;
      ExecAppend(env, a[1..], b, Perform(env, a[0].action, st));
    }
  }

  /** The declarations change no name the loop can see, and leave the counter at 0. */
  lemma DeclarationsAside(env: Env, preloop: Code, registers: seq<Action>, names: set<string>, pc: string, outer: set<string>, st: State)
    requires Plain(preloop) && Names(registers, names) && names !! outer && pc !in outer
    ensures var a, b := Exec(env, preloop, st, Hold).st, Exec(env, Rewritten(preloop, registers, pc), st, Hold).st;
      Agree(outer, a, b) && Get(b.vars, pc) == 0
  {
    var set0, decls := [Do(Let(pc, Lit(0)))], Declared(registers);
    var a := Exec(env, preloop, st, Hold).st;
    assert preloop + decls + set0 == preloop + (decls + set0) && set0[1..] == [];
    ExecAppend(env, preloop, decls + set0, st);
    DeclaredAssigns(registers, names);
    AssignsAppend(decls, set0);
    assert Assigns(set0) == {pc};
    ExecAppend(env, decls, set0, a);
    var b := Exec(env, decls + set0, a, Hold).st;
    forall x | x in outer ensures Get(a.vars, x) == Get(b.vars, x) && a.cycle == b.cycle {
      ExecKeeps(env, decls + set0, a, Hold, x);
    }
    ExecCycle(env, decls + set0, a);
  }

  lemma {:induction false} ExecCycle(env: Env, code: Code, st: State)
    requires Plain(code)
    ensures Exec(env, code, st, Hold).st.cycle == st.cycle
  {
    if code != [] {
      ExecCycle(env, code[1..], Perform(env, code[0].action, st));
    }
  }

  // ----- The whole module ------------------------------------------------------------------------------

  /** The rewritten module, declarations and all, and the module as written have, for every
    * number of cycles, one run each, which drive the same ports with the same values in
    * the same cycles and end in stores that agree on every name the loop can see.
    */
  lemma ModulePreservesBehaviour(preloop: Code, body: Code, outer: set<string>, registers: seq<Action>, pc: string,
                                 env: Env, st: State, k: nat)
    requires Plain(preloop) && Quiet(preloop)
    requires Written(body) && Flattenable(body, false) && Lowerable(body) && Exact(body) && Extracted([], body).Some?
    requires Closed(body, outer) && Names(registers, Crossing(Flattened([], body))) && Crossing(Flattened([], body)) !! outer
    requires TableUnused(Extracted([], body).value, pc) && pc !in outer
    ensures var emitted := EmittedBody(Extracted([], body).value, pc);
      var source, target := Config(preloop + body, Module(body)), Config(Rewritten(preloop, registers, pc) + emitted, Module(emitted));
      && (exists logs: seq<seq<Event>>, c: Config, s: State, c': Config, s': State ::
            |logs| == k && Runs(env, source, st, logs, c, s) && Runs(env, target, st, logs, c', s') && Agree(outer, s, s'))
      && forall logs: seq<seq<Event>>, c: Config, s: State, logs': seq<seq<Event>>, c': Config, s': State |
           |logs| == k && Runs(env, source, st, logs, c, s) && |logs'| == k && Runs(env, target, st, logs', c', s') ::
             logs == logs' && Agree(outer, s, s')
  {
    var emitted := EmittedBody(Extracted([], body).value, pc);
    var source, target := Config(preloop + body, Module(body)), Config(Rewritten(preloop, registers, pc) + emitted, Module(emitted));
    var logs0, c0, s0, c1, s1 := ModuleRuns(preloop, body, outer, registers, pc, env, st, k);
    forall logs: seq<seq<Event>>, c: Config, s: State, logs': seq<seq<Event>>, c': Config, s': State |
      |logs| == k && Runs(env, source, st, logs, c, s) && |logs'| == k && Runs(env, target, st, logs', c', s')
      ensures logs == logs' && Agree(outer, s, s')
    {
      RunsDeterministic(env, source, st, logs, c, s, logs0, c0, s0);
      RunsDeterministic(env, target, st, logs', c', s', logs0, c1, s1);
    }
  }

  lemma ModuleRuns(preloop: Code, body: Code, outer: set<string>, registers: seq<Action>, pc: string, env: Env, st: State, k: nat)
    returns (logs: seq<seq<Event>>, c: Config, s: State, c': Config, s': State)
    requires Plain(preloop) && Quiet(preloop)
    requires Written(body) && Flattenable(body, false) && Lowerable(body) && Exact(body) && Extracted([], body).Some?
    requires Closed(body, outer) && Names(registers, Crossing(Flattened([], body))) && Crossing(Flattened([], body)) !! outer
    requires TableUnused(Extracted([], body).value, pc) && pc !in outer
    ensures var emitted := EmittedBody(Extracted([], body).value, pc);
      && |logs| == k && Agree(outer, s, s')
      && Runs(env, Config(preloop + body, Module(body)), st, logs, c, s)
      && Runs(env, Config(Rewritten(preloop, registers, pc) + emitted, Module(emitted)), st, logs, c', s')
  {
    var emitted, decls := EmittedBody(Extracted([], body).value, pc), Rewritten(preloop, registers, pc);
    if k == 0 {
      logs, s, s' := [], st, st;
      c, c' := Config(preloop + body, Module(body)), Config(decls + emitted, Module(emitted));
    } else {
      logs, c, s, c', s' := LoopRuns(preloop, body, outer, registers, pc, env, st, k);
      RunsBehind(env, preloop, body, st, logs, c, s);
    }
  }

  /** The loop's run from behind its declarations, and the rewritten module's from its first. */
  lemma LoopRuns(preloop: Code, body: Code, outer: set<string>, registers: seq<Action>, pc: string, env: Env, st: State, k: nat)
    returns (logs: seq<seq<Event>>, c: Config, s: State, c': Config, s': State)
    requires k > 0 && Plain(preloop) && Quiet(preloop)
    requires Written(body) && Flattenable(body, false) && Lowerable(body) && Exact(body) && Extracted([], body).Some?
    requires Closed(body, outer) && Names(registers, Crossing(Flattened([], body))) && Crossing(Flattened([], body)) !! outer
    requires TableUnused(Extracted([], body).value, pc) && pc !in outer
    ensures var emitted := EmittedBody(Extracted([], body).value, pc);
      && |logs| == k && Agree(outer, s, s')
      && Runs(env, Start(body), Exec(env, preloop, st, Hold).st, logs, c, s)
      && Runs(env, Config(Rewritten(preloop, registers, pc) + emitted, Module(emitted)), st, logs, c', s')
  {
    var states := Extracted([], body).value;
    var emitted, decls := EmittedBody(states, pc), Rewritten(preloop, registers, pc);
    var a, b := Exec(env, preloop, st, Hold).st, Exec(env, decls, st, Hold).st;
    DeclarationsAside(env, preloop, registers, Crossing(Flattened([], body)), pc, outer, st);
    ExtractionPreservesBehaviour(body, env, b, k);
    ExtractedSteady([], body);
    var r := RunMachine(env, states, 0, b, k);
    logs := r.logs;
    c :| Runs(env, Start(body), b, r.logs, c, r.st);
    s := RunsAgree(env, Start(body), outer, b, a, logs, c, r.st);
    c', s' := EmittedRuns(env, states, pc, 0, b, b, k);
    RewrittenQuiet(preloop, registers, Crossing(Flattened([], body)), pc);
    RunsBehind(env, decls, emitted, st, logs, c', s');
  }

  lemma RewrittenQuiet(preloop: Code, registers: seq<Action>, names: set<string>, pc: string)
    requires Plain(preloop) && Quiet(preloop) && Names(registers, names)
    ensures Plain(Rewritten(preloop, registers, pc)) && Quiet(Rewritten(preloop, registers, pc))
  {
    forall i | 0 <= i < |Declared(registers)| ensures Declared(registers)[i].Do? && !IsAction(Declared(registers)[i]) {
      assert registers[i] in registers;
    }
  }
}
