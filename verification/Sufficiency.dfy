/** Why the inferred registers are enough: every other local of the loop may take any
  * value at every clock edge without anything noticing.
  */
module Sufficiency {
  import opened Syntax
  import opened Semantics
  import opened Scoping
  import opened Unrolling
  import opened Hoisting
  import opened DesugarSimulation
  import opened Graphs
  import opened Cfg
  import opened Reachability
  import opened Liveness
  import opened Carried
  import opened Tracing

  /** The names a loop writes: the register candidates. */
  function WrittenNames(stmts: seq<Stmt>): set<string>
    decreases stmts
  {
    if stmts == [] then {} else WrittenBy(stmts[0]) + WrittenNames(stmts[1..])
  }

  function WrittenBy(s: Stmt): set<string>
    decreases s
  {
    match s
    case Do(a) => Defs(a)
    case Branch(_, arms) => WrittenByArms(arms)
    case Loop(body) => WrittenNames(body)
    case While(_, body) => WrittenNames(body)
    case For(x, _, _, body) => (if ContainsTick(body) then {x} else {}) + WrittenNames(body)
    case _ => {}
  }

  function WrittenByArms(arms: seq<Arm>): set<string>
    decreases arms
  {
    if arms == [] then {} else WrittenNames(arms[0].body) + WrittenByArms(arms[1..])
  }

  /** The loop writes the name: it declares or assigns it, or counts cycles with it. */
  predicate WritesName(s: Stmt, x: string) {
    Writes(s, x) || (s.For? && ContainsTick(s.body) && s.counter == x)
  }

  lemma {:induction false} WrittenIff(stmts: seq<Stmt>, x: string)
    ensures x in WrittenNames(stmts) <==> exists s <- Everywhere(stmts) :: WritesName(s, x)
    decreases stmts, 1
  {
    if stmts != [] {
      WrittenByIff(stmts[0], x);
      WrittenIff(stmts[1..], x);
      assert Everywhere(stmts) == {stmts[0]} + Inside(stmts[0]) + Everywhere(stmts[1..]);
    }
  }

  lemma {:induction false} WrittenByIff(s: Stmt, x: string)
    ensures x in WrittenBy(s) <==> WritesName(s, x) || exists y <- Inside(s) :: WritesName(y, x)
    decreases s, 0
  {
    match s
    case Branch(_, arms) => WrittenByArmsIff(arms, x);
    case Loop(body) => WrittenIff(body, x);
    case While(_, body) => WrittenIff(body, x);
    case For(_, _, _, body) => WrittenIff(body, x);
    case _ =>
  }

  lemma {:induction false} WrittenByArmsIff(arms: seq<Arm>, x: string)
    ensures x in WrittenByArms(arms) <==> exists s <- InsideArms(arms) :: WritesName(s, x)
    decreases arms, 0
  {
    if arms != [] {
      WrittenIff(arms[0].body, x);
      WrittenByArmsIff(arms[1..], x);
      assert InsideArms(arms) == Everywhere(arms[0].body) + InsideArms(arms[1..]);
    }
  }

  // ----- Where a run stands -----------------------------------------------------------------------------

  /** The names the outermost nested loop around this point reads or assigns; none on the module's
    * own level.
    */
  function LoopNames(k: Kont): set<string> {
    if k.Module? then {}
    else if k.outer.Module? then Mentions(k.body) + if k.InWhile? then Reads(k.cond) else {}
    else LoopNames(k.outer)
  }

  /** Inside the loop folded in `node` this list names nothing else and ticks only if the node does. */
  predicate Stays(stmts: seq<Stmt>, names: set<string>, node: Node) {
    Mentions(stmts) <= names && (ContainsTick(stmts) ==> node.isTick)
  }

  /** The loops around a point inside node `n`, out to the module's own. */
  ghost predicate Enclosed(nodes: seq<Node>, n: nat, body: seq<Stmt>, names: set<string>, k: Kont)
    requires n < |nodes| && |nodes[n].succs| == 1
  {
    !k.Module? && Stays(k.body, names, nodes[n]) && (k.InWhile? ==> Reads(k.cond) <= names) &&
    if k.outer.Module? then k.outer == Module(body) && Wired(nodes, nodes[n].succs[0].to, k.after, MODULE)
    else Stays(k.after, names, nodes[n]) && Enclosed(nodes, n, body, names, k.outer)
  }

  /** The run stands at node `n` of the module loop's graph, or inside the loop folded in it. */
  ghost predicate Stands(g: Graph, body: seq<Stmt>, cfg: Config, n: nat) {
    if cfg.k.Module? then cfg.k == Module(body) && Wired(g.nodes, n, cfg.todo, MODULE)
    else
      && n < |g.nodes| && g.nodes[n].folded && g.nodes[n].defs == {} && |g.nodes[n].succs| == 1
      && Stays(cfg.todo, LoopNames(cfg.k), g.nodes[n]) && Enclosed(g.nodes, n, body, LoopNames(cfg.k), cfg.k)
  }

  // ----- Stores that differ only in dead names ------------------------------------------------------------

  /** The value this name has here can still be read: by the loop around, or later on. */
  ghost predicate Alive(nodes: seq<Node>, n: nat, k: Kont, x: string) {
    if k.Module? then LiveIn(nodes, n, x) else x in LoopNames(k) || LiveOut(nodes, n, x)
  }

  /** The stores differ only in names that may be scrambled and are dead here. */
  ghost predicate DeadAside(nodes: seq<Node>, n: nat, k: Kont, junk: set<string>, a: State, b: State) {
    a.cycle == b.cycle && forall x: string | Get(a.vars, x) != Get(b.vars, x) :: x in junk && !Alive(nodes, n, k, x)
  }

  lemma ReadsAlike(env: Env, nodes: seq<Node>, n: nat, k: Kont, junk: set<string>, e: Expr, a: State, b: State)
    requires DeadAside(nodes, n, k, junk, a, b)
    requires if k.Module? then n < |nodes| && Reads(e) <= nodes[n].uses else Reads(e) <= LoopNames(k)
    ensures Eval(env, e, a) == Eval(env, e, b)
  {
    forall x | x in Reads(e) ensures Get(a.vars, x) == Get(b.vars, x) {
      if k.Module? {
        UsedIsLive(nodes, n, x);
      }
    }
    EvalAgrees(env, e, Reads(e), a, b);
  }

  /** Crossing an edge, what was dead and not written stays dead. */
  lemma StaysDead(nodes: seq<Node>, n: nat, m: nat, k: Kont, k': Kont, junk: set<string>, a: State, b: State)
    requires DeadAside(nodes, n, k, junk, a, b) && Linked(nodes, n, m) && nodes[n].defs == {} && k'.Module?
    ensures DeadAside(nodes, m, k', junk, a, b)
  {
    forall x: string | Get(a.vars, x) != Get(b.vars, x) ensures !LiveIn(nodes, m, x) {
      if LiveIn(nodes, m, x) {
        LivePasses(nodes, n, m, x);
        assert LiveOut(nodes, n, x);
      }
    }
  }

  /** Entering a nested loop, what was dead in front of it is dead in it. */
  lemma EntersDead(nodes: seq<Node>, n: nat, k: Kont, k': Kont, junk: set<string>, a: State, b: State)
    requires DeadAside(nodes, n, k, junk, a, b) && k.Module? && !k'.Module? && n < |nodes| && nodes[n].defs == {}
    requires LoopNames(k') <= nodes[n].uses
    ensures DeadAside(nodes, n, k', junk, a, b)
  {
    forall x: string | Get(a.vars, x) != Get(b.vars, x) ensures !Alive(nodes, n, k', x) {
      if x in LoopNames(k') {
        UsedIsLive(nodes, n, x);
      } else if LiveOut(nodes, n, x) {
        var m: nat :| Linked(nodes, n, m) && LiveIn(nodes, m, x);
        LivePasses(nodes, n, m, x);
      }
    }
  }

  lemma ActionAlike(env: Env, nodes: seq<Node>, n: nat, m: nat, k: Kont, junk: set<string>, act: Action, a: State, b: State)
    requires DeadAside(nodes, n, k, junk, a, b) && k.Module? && n < |nodes| && nodes[n] == ActionNode(act, m)
    ensures Emit(env, act, a) == Emit(env, act, b)
    ensures DeadAside(nodes, m, k, junk, Perform(env, act, a), Perform(env, act, b))
  {
    ReadsAlike(env, nodes, n, k, junk, ActionExpr(act), a, b);
    assert nodes[n].succs[0].to == m && Linked(nodes, n, m);
    var a', b' := Perform(env, act, a), Perform(env, act, b);
    forall x: string | Get(a'.vars, x) != Get(b'.vars, x) ensures x in junk && !LiveIn(nodes, m, x) {
      assert Get(a.vars, x) != Get(b.vars, x) && x !in Defs(act);
      if LiveIn(nodes, m, x) {
        LivePasses(nodes, n, m, x);
      }
    }
  }

  /** One and the same value to both stores. */
  lemma AssignAlike(nodes: seq<Node>, n: nat, k: Kont, junk: set<string>, a: State, b: State, x: string, v: int)
    requires DeadAside(nodes, n, k, junk, a, b)
    ensures DeadAside(nodes, n, k, junk, Assign(a, x, v), Assign(b, x, v))
  {
    var a', b' := Assign(a, x, v), Assign(b, x, v);
    forall y: string | Get(a'.vars, y) != Get(b'.vars, y) ensures y in junk && !Alive(nodes, n, k, y) {
      assert Get(a.vars, y) != Get(b.vars, y);
    }
  }

  // ----- One step ----------------------------------------------------------------------------------------

  /** Both runs take the same step, and then stand at node `m` with stores that are alike there. */
  ghost predicate SameStep(env: Env, g: Graph, body: seq<Stmt>, m: nat, junk: set<string>, cfg: Config, a: State, b: State) {
    var x, y := Step(env, cfg, a), Step(env, cfg, b);
    && x.Move? && y.Move? && x.log == y.log && x.cfg == y.cfg
    && Stands(g, body, x.cfg, m) && DeadAside(g.nodes, m, x.cfg.k, junk, x.st, y.st)
  }

  lemma StaysHead(todo: seq<Stmt>, names: set<string>, node: Node)
    requires Stays(todo, names, node) && todo != []
    ensures StmtMentions(todo[0]) <= names && (StmtContainsTick(todo[0]) ==> node.isTick) && Stays(todo[1..], names, node)
  {
  }

  lemma StaysArm(arms: seq<Arm>, i: nat, rest: seq<Stmt>, names: set<string>, node: Node)
    requires i < |arms| && ArmsMention(arms) <= names && (ArmsContainTick(arms) ==> node.isTick) && Stays(rest, names, node)
    ensures Stays(arms[i].body + rest, names, node)
  {
    ArmParts(arms, i);
    ArmControl(arms, i);
    PartsAppend(arms[i].body, rest);
    ControlAppend(arms[i].body, rest);
  }

  /** At the end of a nested loop's body, or on leaving it. */
  lemma TurnAlike(env: Env, g: Graph, body: seq<Stmt>, cfg: Config, n: nat, junk: set<string>, a: State, b: State) returns (m: nat)
    requires GraphOf(g, body) && Stands(g, body, cfg, n) && !cfg.k.Module? && (cfg.todo == [] || cfg.todo[0].Break?)
    requires DeadAside(g.nodes, n, cfg.k, junk, a, b)
    ensures SameStep(env, g, body, m, junk, cfg, a, b)
  {
    var nodes, k := g.nodes, cfg.k;
    m := n;
    if cfg.todo == [] {
      if k.InWhile? {
        ReadsAlike(env, nodes, n, k, junk, k.cond, a, b);
      } else if k.InFor? && k.next < k.hi {
        AssignAlike(nodes, n, k, junk, a, b, k.counter, k.next);
      }
    }
    var x, y := Step(env, cfg, a), Step(env, cfg, b);
    if x.cfg == Config(k.after, k.outer) && k.outer.Module? {
      m := nodes[n].succs[0].to;
      assert Linked(nodes, n, m);
      StaysDead(nodes, n, m, k, k.outer, junk, x.st, y.st);
    }
  }

  /** At a statement inside a nested loop. */
  lemma InsideAlike(env: Env, g: Graph, body: seq<Stmt>, cfg: Config, n: nat, junk: set<string>, a: State, b: State)
    requires Stands(g, body, cfg, n) && !cfg.k.Module? && cfg.todo != [] && !cfg.todo[0].Break?
    requires DeadAside(g.nodes, n, cfg.k, junk, a, b) && Step(env, cfg, a).Move?
    ensures SameStep(env, g, body, n, junk, cfg, a, b)
  {
    var nodes, k, s, rest := g.nodes, cfg.k, cfg.todo[0], cfg.todo[1..];
    StaysHead(cfg.todo, LoopNames(k), nodes[n]);
    if s.Do? {
      ReadsAlike(env, nodes, n, k, junk, ActionExpr(s.action), a, b);
      if !s.action.Drive? {
        AssignAlike(nodes, n, k, junk, a, b, s.action.name, Eval(env, ActionExpr(s.action), a));
      }
    } else if s.Branch? {
      ReadsAlike(env, nodes, n, k, junk, s.sel, a, b);
      StaysArm(s.arms, Pick(env, s.sel, |s.arms|, a), rest, LoopNames(k), nodes[n]);
    } else if s.For? {
      ReadsAlike(env, nodes, n, k, junk, s.lo, a, b);
      ReadsAlike(env, nodes, n, k, junk, s.hi, a, b);
    }
  }

  /** At a nested loop on the module's own level. */
  lemma EnterAlike(env: Env, g: Graph, body: seq<Stmt>, cfg: Config, n: nat, junk: set<string>, a: State, b: State)
    requires Stands(g, body, cfg, n) && cfg.k.Module? && cfg.todo != [] && (cfg.todo[0].Loop? || cfg.todo[0].While? || cfg.todo[0].For?)
    requires DeadAside(g.nodes, n, cfg.k, junk, a, b)
    ensures SameStep(env, g, body, n, junk, cfg, a, b)
  {
    var nodes, k, s, rest := g.nodes, cfg.k, cfg.todo[0], cfg.todo[1..];
    assert Size(cfg.todo) == StmtSize(s) + Size(rest);
    assert nodes[n].uses == StmtMentions(s) && nodes[n].isTick == ContainsTick(s.body);
    if s.For? {
      ReadsAlike(env, nodes, n, k, junk, s.lo, a, b);
      ReadsAlike(env, nodes, n, k, junk, s.hi, a, b);
    }
    var x := Step(env, cfg, a);
    EntersDead(nodes, n, k, x.cfg.k, junk, a, b);
    var none: seq<Stmt> := [];
    assert Stays(none, LoopNames(x.cfg.k), nodes[n]);
  }

  /** At any other statement on the module's own level. */
  lemma OutsideAlike(env: Env, g: Graph, body: seq<Stmt>, cfg: Config, n: nat, junk: set<string>, a: State, b: State) returns (m: nat)
    requires GraphOf(g, body) && Stands(g, body, cfg, n) && cfg.k.Module? && DeadAside(g.nodes, n, cfg.k, junk, a, b)
    requires cfg.todo != [] ==> !cfg.todo[0].Loop? && !cfg.todo[0].While? && !cfg.todo[0].For?
    requires Step(env, cfg, a).Move?
    ensures SameStep(env, g, body, m, junk, cfg, a, b)
  {
    var nodes, k := g.nodes, cfg.k;
    if cfg.todo == [] {
      m := nodes[0].succs[0].to;
      assert Linked(nodes, n, m);
      StaysDead(nodes, n, m, k, k, junk, a, b);
    } else {
      var s, rest := cfg.todo[0], cfg.todo[1..];
      assert Size(cfg.todo) == StmtSize(s) + Size(rest);
      m := nodes[n].succs[0].to;
      if s.Do? {
        ActionAlike(env, nodes, n, m, k, junk, s.action, a, b);
      } else {
        if s.Branch? {
          ReadsAlike(env, nodes, n, k, junk, s.sel, a, b);
          m := nodes[n].succs[Pick(env, s.sel, |s.arms|, a)].to;
        }
        assert Linked(nodes, n, m);
        StaysDead(nodes, n, m, k, k, junk, a, b);
      }
    }
  }

  /** Away from a tick both runs take the same step. */
  lemma StepAlike(env: Env, g: Graph, body: seq<Stmt>, cfg: Config, n: nat, junk: set<string>, a: State, b: State) returns (m: nat)
    requires GraphOf(g, body) && Stands(g, body, cfg, n) && DeadAside(g.nodes, n, cfg.k, junk, a, b)
    requires Step(env, cfg, a).Move?
    ensures SameStep(env, g, body, m, junk, cfg, a, b)
  {
    m := n;
    if cfg.k.Module? {
      if cfg.todo != [] && (cfg.todo[0].Loop? || cfg.todo[0].While? || cfg.todo[0].For?) {
        EnterAlike(env, g, body, cfg, n, junk, a, b);
      } else {
        m := OutsideAlike(env, g, body, cfg, n, junk, a, b);
      }
    } else if cfg.todo == [] || cfg.todo[0].Break? {
      m := TurnAlike(env, g, body, cfg, n, junk, a, b);
    } else {
      InsideAlike(env, g, body, cfg, n, junk, a, b);
    }
  }

  lemma {:induction false} StepsAlike(env: Env, g: Graph, body: seq<Stmt>, cfg: Config, n: nat, junk: set<string>,
                                      a: State, b: State, k: nat, o: Seen)
    returns (m: nat, q: Seen)
    requires GraphOf(g, body) && Stands(g, body, cfg, n) && DeadAside(g.nodes, n, cfg.k, junk, a, b)
    requires Steps(env, cfg, a, k) == Some(o)
    ensures Steps(env, cfg, b, k) == Some(q) && q.log == o.log && q.cfg == o.cfg
    ensures Stands(g, body, o.cfg, m) && DeadAside(g.nodes, m, o.cfg.k, junk, o.st, q.st)
    decreases k
  {
    if k == 0 {
      m, q := n, Seen([], cfg, b);
    } else {
      m := StepAlike(env, g, body, cfg, n, junk, a, b);
      var x, y := Step(env, cfg, a), Step(env, cfg, b);
      m, q := StepsAlike(env, g, body, x.cfg, m, junk, x.st, y.st, k - 1, Steps(env, x.cfg, x.st, k - 1).value);
      q := Seen(y.log + q.log, q.cfg, q.st);
    }
  }

  // ----- Scrambled runs -------------------------------------------------------------------------------------

  /** The written locals that are not registers. */
  ghost predicate Junk(g: Graph, body: seq<Stmt>, junk: set<string>) {
    forall x :: x in junk <==> x in WrittenNames(body) && !IsRegister(g, WrittenNames(body), x)
  }

  /** The store after a clock edge that overwrites the names in `junk` with `noise`. */
  function Scramble(junk: set<string>, noise: map<string, int>, st: State): (r: State)
    ensures Alike(junk, st, r)
  {
    st.(vars := st.vars + (map x | x in noise && x in junk :: noise[x]))
  }

  /** A run in which the edge that ends cycle `i` overwrites the names in `junk` with `noise[i]`; an
    * edge inside a nested loop spares the names that loop reads or assigns.
    */
  ghost predicate ScrambledRuns(env: Env, junk: set<string>, noise: seq<map<string, int>>, cfg: Config, st: State,
                                logs: seq<seq<Event>>, cfg': Config, st': State)
    decreases |logs|
  {
    && |noise| == |logs|
    && if logs == [] then cfg' == cfg && st' == st
       else exists mid: Config, sm: State ::
         && Cycle(env, cfg, st, logs[0], mid, sm)
         && ScrambledRuns(env, junk, noise[1..], mid, Scramble(junk - LoopNames(mid.k), noise[0], sm), logs[1..], cfg', st')
  }

  /** Past a tick every scrambled name is dead. */
  lemma EdgeAlike(g: Graph, body: seq<Stmt>, cfg: Config, n: nat, junk: set<string>, a: State, b: State, c: State) returns (m: nat)
    requires GraphOf(g, body) && Stands(g, body, cfg, n) && StandsAtTick(cfg) && Junk(g, body, junk)
    requires DeadAside(g.nodes, n, cfg.k, junk, a, b) && Alike(junk - LoopNames(cfg.k), Edge(b), c)
    ensures Stands(g, body, Config(cfg.todo[1..], cfg.k), m) && DeadAside(g.nodes, m, cfg.k, junk, Edge(a), c)
  {
    var nodes, k := g.nodes, cfg.k;
    assert Size(cfg.todo) == StmtSize(cfg.todo[0]) + Size(cfg.todo[1..]);
    assert StmtContainsTick(cfg.todo[0]) && ContainsTick(cfg.todo) && nodes[n].isTick;
    m := n;
    if k.Module? {
      m := nodes[n].succs[0].to;
      assert Linked(nodes, n, m);
    }
    forall x: string | Get(Edge(a).vars, x) != Get(c.vars, x) ensures x in junk && !Alive(nodes, m, k, x) {
      assert x in junk && !LiveOut(nodes, n, x);
      if Get(b.vars, x) != Get(c.vars, x) {
        assert x !in LoopNames(k);
      }
    }
  }

  /** A whole cycle goes the same way, whatever the edge behind it overwrites. */
  lemma CycleAlike(env: Env, g: Graph, body: seq<Stmt>, cfg: Config, n: nat, junk: set<string>, a: State, b: State,
                   log: seq<Event>, mid: Config, am: State, noise: map<string, int>) returns (m: nat, bm: State)
    requires GraphOf(g, body) && Stands(g, body, cfg, n) && Junk(g, body, junk) && DeadAside(g.nodes, n, cfg.k, junk, a, b)
    requires Cycle(env, cfg, a, log, mid, am)
    ensures Cycle(env, cfg, b, log, mid, bm)
    ensures Stands(g, body, mid, m) && DeadAside(g.nodes, m, mid.k, junk, am, Scramble(junk - LoopNames(mid.k), noise, bm))
  {
    var o: Seen :| Reaches(env, cfg, a, o) && StandsAtTick(o.cfg)
      && log == o.log && mid == Config(o.cfg.todo[1..], o.cfg.k) && am == Edge(o.st);
    var k: nat :| Steps(env, cfg, a, k) == Some(o);
    var i, q := StepsAlike(env, g, body, cfg, n, junk, a, b, k, o);
    CycleBySteps(env, cfg, b, k, q);
    bm := Edge(q.st);
    m := EdgeAlike(g, body, o.cfg, i, junk, o.st, q.st, Scramble(junk - LoopNames(mid.k), noise, bm));
  }

  lemma {:induction false} RunsAlike(env: Env, g: Graph, body: seq<Stmt>, cfg: Config, n: nat, junk: set<string>, a: State, b: State,
                                     noise: seq<map<string, int>>, logs: seq<seq<Event>>, c: Config, s: State) returns (s': State)
    requires GraphOf(g, body) && Stands(g, body, cfg, n) && Junk(g, body, junk) && DeadAside(g.nodes, n, cfg.k, junk, a, b)
    requires Runs(env, cfg, a, logs, c, s) && |noise| == |logs|
    ensures ScrambledRuns(env, junk, noise, cfg, b, logs, c, s') && Alike(junk, s, s')
    decreases |logs|
  {
    s' := b;
    if logs != [] {
      var m, am := RunsSplit(env, cfg, a, logs, c, s);
      var i, bm := CycleAlike(env, g, body, cfg, n, junk, a, b, logs[0], m, am, noise[0]);
      s' := RunsAlike(env, g, body, m, i, junk, am, Scramble(junk - LoopNames(m.k), noise[0], bm), noise[1..], logs[1..], c, s);
    }
  }

  lemma RunsSplit(env: Env, cfg: Config, st: State, logs: seq<seq<Event>>, c: Config, s: State) returns (m: Config, sm: State)
    requires Runs(env, cfg, st, logs, c, s) && logs != []
    ensures Cycle(env, cfg, st, logs[0], m, sm) && Runs(env, m, sm, logs[1..], c, s)
  {
    m, sm :| Cycle(env, cfg, st, logs[0], m, sm) && Runs(env, m, sm, logs[1..], c, s);
  }

  lemma ScrambledSplit(env: Env, junk: set<string>, noise: seq<map<string, int>>, cfg: Config, st: State,
                       logs: seq<seq<Event>>, c: Config, s: State) returns (m: Config, sm: State, next: State)
    requires ScrambledRuns(env, junk, noise, cfg, st, logs, c, s) && logs != []
    ensures Cycle(env, cfg, st, logs[0], m, sm) && next == Scramble(junk - LoopNames(m.k), noise[0], sm)
    ensures ScrambledRuns(env, junk, noise[1..], m, next, logs[1..], c, s)
  {
    m, sm :| Cycle(env, cfg, st, logs[0], m, sm)
      && ScrambledRuns(env, junk, noise[1..], m, Scramble(junk - LoopNames(m.k), noise[0], sm), logs[1..], c, s);
    next := Scramble(junk - LoopNames(m.k), noise[0], sm);
  }

  lemma SameWhole<T>(a: seq<T>, b: seq<T>)
    requires a != [] && b != [] && a[0] == b[0] && a[1..] == b[1..]
    ensures a == b
  {
    assert a == [a[0]] + a[1..] && b == [b[0]] + b[1..];
  }

  lemma {:induction false} ScrambledDeterministic(env: Env, junk: set<string>, noise: seq<map<string, int>>, cfg: Config, st: State,
      logs: seq<seq<Event>>, c: Config, s: State, logs': seq<seq<Event>>, c': Config, s': State)
    requires ScrambledRuns(env, junk, noise, cfg, st, logs, c, s) && ScrambledRuns(env, junk, noise, cfg, st, logs', c', s')
    ensures logs == logs' && c == c' && s == s'
    decreases |logs|
  {
    if logs != [] {
      var m, sm, next := ScrambledSplit(env, junk, noise, cfg, st, logs, c, s);
      var m', sm', next' := ScrambledSplit(env, junk, noise, cfg, st, logs', c', s');
      CycleDeterministic(env, cfg, st, logs[0], m, sm, logs'[0], m', sm');
      ScrambledDeterministic(env, junk, noise[1..], m, next, logs[1..], c, s, logs'[1..], c', s');
      SameWhole(logs, logs');
    }
  }

  /** The registers are enough: giving every other local written in the loop an arbitrary value at
    * every clock edge changes no branch taken, nothing driven, and no register, in any run of any
    * length. At the edges inside a nested loop that goes for the names it does not itself read
    * or assign, on the module's own level for all of them.
    */
  lemma RegistersSuffice(env: Env, g: Graph, body: seq<Stmt>, junk: set<string>, st: State,
                         noise: seq<map<string, int>>, logs: seq<seq<Event>>, c: Config, s: State)
    requires GraphOf(g, body) && Junk(g, body, junk)
    requires Runs(env, Config(body, Module(body)), st, logs, c, s) && |noise| == |logs|
    ensures exists s': State :: ScrambledRuns(env, junk, noise, Config(body, Module(body)), st, logs, c, s') && Alike(junk, s, s')
    ensures forall logs': seq<seq<Event>>, c': Config, s': State |
      ScrambledRuns(env, junk, noise, Config(body, Module(body)), st, logs', c', s') :: logs' == logs && c' == c && Alike(junk, s, s')
  {
    var top := Config(body, Module(body));
    var s' := RunsAlike(env, g, body, top, g.nodes[0].succs[0].to, junk, st, st, noise, logs, c, s);
    forall logs2: seq<seq<Event>>, c2: Config, s2: State | ScrambledRuns(env, junk, noise, top, st, logs2, c2, s2)
      ensures logs2 == logs && c2 == c && Alike(junk, s, s2)
    {
      ScrambledDeterministic(env, junk, noise, top, st, logs, c, s', logs2, c2, s2);
    }
  }

  // ----- Why the edges inside a nested loop spare its names ------------------------------------------------

  /** `loop { tick; p.write(x) }` */
  function Holding(): seq<Stmt> {
    [Tick, Do(Drive(OutPort("p"), Var("x")))]
  }

  /** `loop { let x = d.read(); loop { tick; p.write(x) } }` */
  function Held(): seq<Stmt> {
    [Do(Let("x", Input("d"))), Loop(Holding())]
  }

  lemma HeldSpots()
    ensures Spots(Held(), []) == {Held(), Held()[1..]} && Held()[1..] == [Loop(Holding())] && Held()[1..][1..] == []
  {
    var body, inner: seq<Stmt> := Held(), [Loop(Holding())];
    assert body[1..] == inner && inner[1..] == [] && inner + [] == inner && inner[1..] + [] == [];
    assert Spots(inner[1..], []) == {} && [body[0]] + inner == body && [inner[0]] + [] == inner;
    assert Spots(inner, []) == StmtSpots(inner[0], []) + Spots(inner[1..], []) == {inner};
    assert Spots(body, []) == StmtSpots(body[0], inner) + Spots(inner, []);
  }

  lemma NotReadFirst(body: seq<Stmt>)
    requires body != [] && body[0] == Do(Let("x", Input("d")))
    ensures !ReadsFirst(body, "x")
  {
    assert Parts(Input("d")) == {Input("d")} && Evaluates(body[0]) == {Input("d")};
    assert !Asks(body[0], "x") && Writes(body[0], "x");
  }

  lemma NotNeededPast()
    ensures !NeededPastTick(Held(), "x")
  {
    var body := Held();
    HeldSpots();
    NotReadFirst(body);
    assert !Needed(body, body[1..][1..], "x") && !Clocks(body[0]);
  }

  lemma HeldIsNoRegister(g: Graph)
    requires GraphOf(g, Held())
    ensures !IsRegister(g, WrittenNames(Held()), "x")
  {
    RegistersAreText(g, Held(), WrittenNames(Held()), "x");
    NotReadFirst(Held());
    NotNeededPast();
  }

  /** The value of a local that is no register can cross a clock edge inside a nested loop: in the
    * loop above, `x` is none, and every later cycle drives whatever the inner edge leaves in it.
    */
  lemma InnerEdgeCounterexample(env: Env, g: Graph, st: State)
    requires GraphOf(g, Held())
    ensures !IsRegister(g, WrittenNames(Held()), "x")
    ensures exists mid: Config, sm: State ::
      && Cycle(env, Config(Held(), Module(Held())), st, [], mid, sm) && "x" in LoopNames(mid.k)
      && forall v: int :: Cycle(env, mid, Assign(sm, "x", v), [Event(OutPort("p"), v)], mid, Edge(Assign(sm, "x", v)))
  {
    HeldIsNoRegister(g);
    var k := Nested(Holding(), [], Module(Held()));
    var sm := FirstCycle(env, k, st);
    forall v: int ensures Cycle(env, Config(Holding()[1..], k), Assign(sm, "x", v), [Event(OutPort("p"), v)],
                                Config(Holding()[1..], k), Edge(Assign(sm, "x", v)))
    {
      HoldsOn(env, k, Assign(sm, "x", v), v);
    }
    assert Mentions(Holding()) == StmtMentions(Tick) + (StmtMentions(Holding()[1]) + Mentions([])) by {
      assert Holding()[1..] == [Holding()[1]] && Holding()[1..][1..] == [];
    }
  }

  lemma FirstCycle(env: Env, k: Kont, st: State) returns (sm: State)
    requires k == Nested(Holding(), [], Module(Held()))
    ensures Cycle(env, Config(Held(), k.outer), st, [], Config(Holding()[1..], k), sm)
  {
    var top, entry := Config(Held(), k.outer), Config(Held()[1..], k.outer);
    var st1 := Perform(env, Held()[0].action, st);
    HeldSpots();
    Steps1(env, entry, st1, Config(Holding(), k), st1);
    StepThen(env, top, st, entry, st1, 1, Config(Holding(), k), st1);
    CycleBySteps(env, top, st, 2, Seen([], Config(Holding(), k), st1));
    sm := Edge(st1);
  }

  lemma HoldsOn(env: Env, k: Kont, st: State, v: int)
    requires k.Nested? && k.body == Holding() && Get(st.vars, "x") == v
    ensures Cycle(env, Config(Holding()[1..], k), st, [Event(OutPort("p"), v)], Config(Holding()[1..], k), Edge(st))
  {
    var mid, rest := Config(Holding()[1..], k), Config([], k);
    assert mid.todo[1..] == [] && mid.todo[0] == Do(Drive(OutPort("p"), Var("x")));
    var log := [Event(OutPort("p"), v)];
    assert Eval(env, Var("x"), st) == v;
    assert Step(env, mid, st) == Move(log, rest, st);
    Steps1(env, rest, st, Config(Holding(), k), st);
    assert log + [] == log && Steps(env, mid, st, 2) == Some(Seen(log, Config(Holding(), k), st));
    CycleBySteps(env, mid, st, 2, Seen(log, Config(Holding(), k), st));
  }
}
