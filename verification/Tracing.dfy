/** A run of the source is a walk of its graph: what a clock cycle drives is driven by
  * the nodes of one path within the cycle. A nested loop without a tick is one node, and
  * the run stays there until it is through.
  */
module Tracing {
  import opened Syntax
  import opened Semantics
  import opened Scoping
  import opened Graphs
  import opened Cfg
  import opened Reachability

  // ----- Loops without a tick ---------------------------------------------------------------------------

  /** A list whose nested loops have no tick: each is one node of the graph. */
  predicate Unticked(stmts: seq<Stmt>)
    decreases stmts
  {
    stmts != [] ==> UntickedStmt(stmts[0]) && Unticked(stmts[1..])
  }

  predicate UntickedStmt(s: Stmt)
    decreases s
  {
    match s
    case Branch(_, arms) => ArmsUnticked(arms)
    case Loop(body) => !ContainsTick(body)
    case While(_, body) => !ContainsTick(body)
    case For(_, _, _, body) => !ContainsTick(body)
    case _ => true
  }

  predicate ArmsUnticked(arms: seq<Arm>)
    decreases arms
  {
    arms != [] ==> Unticked(arms[0].body) && ArmsUnticked(arms[1..])
  }

  lemma {:induction false} UntickedAppend(a: seq<Stmt>, b: seq<Stmt>)
    ensures Unticked(a + b) <==> Unticked(a) && Unticked(b)
  {
    if a == [] {
      assert a + b == b;
    } else {
      assert (a + b)[1..] == a[1..] + b;
      UntickedAppend(a[1..], b);
    }
  }

  lemma {:induction false} ArmUnticked(arms: seq<Arm>, i: nat)
    requires i < |arms| && ArmsUnticked(arms)
    ensures Unticked(arms[i].body)
  {
    if i > 0 {
      ArmUnticked(arms[1..], i - 1);
    }
  }

  /** Every port a list drives, wherever in it. */
  function PortsIn(stmts: seq<Stmt>): set<string>
    decreases stmts
  {
    if stmts == [] then {} else PortsInStmt(stmts[0]) + PortsIn(stmts[1..])
  }

  function PortsInStmt(s: Stmt): set<string>
    decreases s
  {
    match s
    case Do(a) => PortsOf(a)
    case Branch(_, arms) => PortsInArms(arms)
    case Loop(body) => PortsIn(body)
    case While(_, body) => PortsIn(body)
    case For(_, _, _, body) => PortsIn(body)
    case _ => {}
  }

  function PortsInArms(arms: seq<Arm>): set<string>
    decreases arms
  {
    if arms == [] then {} else PortsIn(arms[0].body) + PortsInArms(arms[1..])
  }

  /** The ports driven inside a nested loop. */
  function LoopPorts(stmts: seq<Stmt>): set<string>
    decreases stmts
  {
    if stmts == [] then {} else LoopPortsOf(stmts[0]) + LoopPorts(stmts[1..])
  }

  function LoopPortsOf(s: Stmt): set<string>
    decreases s
  {
    match s
    case Branch(_, arms) => LoopPortsOfArms(arms)
    case Loop(body) => PortsIn(body)
    case While(_, body) => PortsIn(body)
    case For(_, _, _, body) => PortsIn(body)
    case _ => {}
  }

  function LoopPortsOfArms(arms: seq<Arm>): set<string>
    decreases arms
  {
    if arms == [] then {} else LoopPorts(arms[0].body) + LoopPortsOfArms(arms[1..])
  }

  /** Inside the loop folded in `node`: the list reads, and drives, what the node says. */
  predicate Within(stmts: seq<Stmt>, node: Node, ports: set<string>) {
    && Mentions(stmts) <= node.uses && !ContainsTick(stmts)
    && (forall b <- BusesIn(stmts) :: b in node.mem) && PortsIn(stmts) <= ports
  }

  lemma {:induction false} PartsAppend(a: seq<Stmt>, b: seq<Stmt>)
    ensures Mentions(a + b) == Mentions(a) + Mentions(b)
    ensures BusesIn(a + b) == BusesIn(a) + BusesIn(b)
    ensures PortsIn(a + b) == PortsIn(a) + PortsIn(b)
    ensures LoopPorts(a + b) == LoopPorts(a) + LoopPorts(b)
  {
    if a == [] {
      assert a + b == b;
    } else {
      assert (a + b)[1..] == a[1..] + b;
      PartsAppend(a[1..], b);
    }
  }

  lemma {:induction false} ArmParts(arms: seq<Arm>, i: nat)
    requires i < |arms|
    ensures Mentions(arms[i].body) <= ArmsMention(arms)
    ensures (forall b <- BusesIn(arms[i].body) :: b in BusesInArms(arms)) && PortsIn(arms[i].body) <= PortsInArms(arms)
    ensures LoopPorts(arms[i].body) <= LoopPortsOfArms(arms)
  {
    if i > 0 {
      ArmParts(arms[1..], i - 1);
    }
  }

  // ----- Standing at a node ------------------------------------------------------------------------------

  /** Node `n` folds a loop without a tick. */
  predicate Unticking(node: Node) {
    node.folded && !node.isTick && node.defs == {} && |node.succs| == 1 && node.succs[0].kind == Comb
  }

  /** The loops around a point inside node `n`, out to the module's own. */
  ghost predicate Around(nodes: seq<Node>, n: nat, body: seq<Stmt>, k: Kont)
    requires n < |nodes| && |nodes[n].succs| == 1
  {
    !k.Module? && Within(k.body, nodes[n], LoopPorts(body)) && (k.InWhile? ==> Reads(k.cond) <= nodes[n].uses) &&
    if k.outer.Module? then
      && k.outer == Module(body) && Unticked(k.after) && LoopPorts(k.after) <= LoopPorts(body)
      && Wired(nodes, nodes[n].succs[0].to, k.after, MODULE)
    else Within(k.after, nodes[n], LoopPorts(body)) && Around(nodes, n, body, k.outer)
  }

  /** The run stands at node `n` of the module loop's graph, or inside the loop folded in it. */
  ghost predicate At(g: Graph, body: seq<Stmt>, cfg: Config, n: nat) {
    if cfg.k.Module? then
      && cfg.k == Module(body) && Unticked(cfg.todo) && LoopPorts(cfg.todo) <= LoopPorts(body)
      && Wired(g.nodes, n, cfg.todo, MODULE)
    else (
      && n < |g.nodes| && Unticking(g.nodes[n])
      && Within(cfg.todo, g.nodes[n], LoopPorts(body)) && Around(g.nodes, n, body, cfg.k)
    )
  }

  /** What a run can drive at a node; at a folded loop, `ports` and the buses in it. */
  predicate Drives(node: Node, ports: set<string>, sink: Sink) {
    if node.folded then !node.isTick && (if sink.OutPort? then sink.name in ports else sink in node.mem)
    else if sink.OutPort? then sink.name in node.writes else sink in node.mem
  }

  /** A run goes from a node to the next along an edge within the cycle, or stays in a loop
    * folded in it.
    */
  predicate Follows(nodes: seq<Node>, a: nat, b: nat) {
    CombEdge(nodes, a, b) || (a == b && a < |nodes| && nodes[a].folded)
  }

  predicate Stroll(nodes: seq<Node>, p: seq<nat>) {
    && p != [] && (forall i :: 0 <= i < |p| ==> p[i] < |nodes|)
    && forall i :: 0 <= i < |p| - 1 ==> Follows(nodes, p[i], p[i + 1])
  }

  /** What the run passed, without the waiting: a path within the cycle, and one with an edge
    * if it starts at a node that folds nothing.
    */
  lemma {:induction false} Passed(nodes: seq<Node>, p: seq<nat>, i: nat, j: nat) returns (q: seq<nat>)
    requires Stroll(nodes, p) && i <= j < |p|
    ensures CombPath(nodes, q) && q[0] == p[i] && q[|q| - 1] == p[j]
    ensures !nodes[p[i]].folded && i < j ==> |q| > 1
    decreases j
  {
    if i == j {
      q := [p[i]];
    } else {
      q := Passed(nodes, p, i, j - 1);
      assert Follows(nodes, p[j - 1], p[j - 1 + 1]);
      if CombEdge(nodes, p[j - 1], p[j]) {
        CombPathExtends(nodes, q, p[j]);
        q := q + [p[j]];
      }
    }
  }

  lemma BranchFollows(env: Env, g: Graph, body: seq<Stmt>, cfg: Config, n: nat, st: State) returns (m: nat)
    requires At(g, body, cfg, n) && cfg.k.Module? && cfg.todo != [] && cfg.todo[0].Branch? && Step(env, cfg, st).Move?
    ensures At(g, body, Step(env, cfg, st).cfg, m) && CombEdge(g.nodes, n, m)
  {
    var s, rest := cfg.todo[0], cfg.todo[1..];
    assert Size(cfg.todo) == StmtSize(s) + Size(rest) && UntickedStmt(s) && ArmsUnticked(s.arms);
    var i := Pick(env, s.sel, |s.arms|, st);
    m := g.nodes[n].succs[i].to;
    assert g.nodes[n].succs[i] == Arc(m, Comb);
    ArmUnticked(s.arms, i);
    UntickedAppend(s.arms[i].body, rest);
    ArmParts(s.arms, i);
    PartsAppend(s.arms[i].body, rest);
    assert LoopPorts(cfg.todo) == LoopPortsOfArms(s.arms) + LoopPorts(rest);
  }

  /** At a loop without a tick the run is inside its node. */
  lemma Enters(env: Env, g: Graph, body: seq<Stmt>, cfg: Config, n: nat, st: State)
    requires At(g, body, cfg, n) && cfg.k.Module? && cfg.todo != [] && (cfg.todo[0].Loop? || cfg.todo[0].While? || cfg.todo[0].For?)
    ensures Step(env, cfg, st).Move? && At(g, body, Step(env, cfg, st).cfg, n) && Unticking(g.nodes[n])
  {
    var s, rest := cfg.todo[0], cfg.todo[1..];
    assert Size(cfg.todo) == StmtSize(s) + Size(rest) && UntickedStmt(s);
    assert g.nodes[n].uses == StmtMentions(s) && FoldedMem(s.body, g.nodes[n].mem);
    assert LoopPorts(cfg.todo) == LoopPortsOf(s) + LoopPorts(rest);
    var none: seq<Stmt> := [];
    assert Within(s.body, g.nodes[n], LoopPorts(body)) && Within(none, g.nodes[n], LoopPorts(body));
  }

  /** A step at node `n` itself. */
  lemma StepAt(env: Env, g: Graph, body: seq<Stmt>, cfg: Config, n: nat, st: State) returns (m: nat)
    requires GraphOf(g, body) && Unticked(body) && At(g, body, cfg, n) && cfg.k.Module? && Step(env, cfg, st).Move?
    ensures n < |g.nodes| && At(g, body, Step(env, cfg, st).cfg, m) && Follows(g.nodes, n, m)
    ensures |Step(env, cfg, st).log| <= 1
    ensures forall e <- Step(env, cfg, st).log :: Drives(g.nodes[n], LoopPorts(body), e.sink)
  {
    var nodes := g.nodes;
    if cfg.todo == [] {
      m := nodes[0].succs[0].to;
      assert nodes[0].succs[0] == Arc(m, Comb);
    } else {
      var s, rest := cfg.todo[0], cfg.todo[1..];
      assert Size(cfg.todo) == StmtSize(s) + Size(rest);
      assert UntickedStmt(s) && Unticked(rest) && LoopPorts(rest) <= LoopPorts(body);
      if s.Branch? {
        m := BranchFollows(env, g, body, cfg, n, st);
      } else if s.Loop? || s.While? || s.For? {
        m := n;
        Enters(env, g, body, cfg, n, st);
      } else {
        m := nodes[n].succs[0].to;
        assert nodes[n].succs[0] == Arc(m, Comb);
      }
    }
  }

  /** What is left to run inside a folded loop stays inside what its node says. */
  lemma WithinStep(env: Env, node: Node, ports: set<string>, cfg: Config, st: State)
    requires Within(cfg.todo, node, ports) && cfg.todo != [] && !cfg.todo[0].Break? && Step(env, cfg, st).Move?
    ensures var m := Step(env, cfg, st);
      && Within(m.cfg.todo, node, ports)
      && (m.cfg.k == cfg.k || (!m.cfg.k.Module? && m.cfg.k.outer == cfg.k && Within(m.cfg.k.body, node, ports)
                               && Within(m.cfg.k.after, node, ports) && (m.cfg.k.InWhile? ==> Reads(m.cfg.k.cond) <= node.uses)))
      && |m.log| <= 1
      && forall e <- m.log :: if e.sink.OutPort? then e.sink.name in ports else e.sink in node.mem
  {
    var s, rest := cfg.todo[0], cfg.todo[1..];
    WithinParts(cfg.todo, node, ports);
    var none: seq<Stmt> := [];
    assert Within(none, node, ports);
    if s.Branch? {
      var i := Pick(env, s.sel, |s.arms|, st);
      ArmParts(s.arms, i);
      ArmControl(s.arms, i);
      PartsAppend(s.arms[i].body, rest);
      ControlAppend(s.arms[i].body, rest);
    }
  }

  lemma WithinParts(todo: seq<Stmt>, node: Node, ports: set<string>)
    requires Within(todo, node, ports) && todo != []
    ensures StmtMentions(todo[0]) <= node.uses && !StmtContainsTick(todo[0])
    ensures (forall b <- BusesInStmt(todo[0]) :: b in node.mem) && PortsInStmt(todo[0]) <= ports
    ensures Within(todo[1..], node, ports)
  {
    assert BusesIn(todo) == BusesInStmt(todo[0]) + BusesIn(todo[1..]);
  }

  /** A step inside the loop folded in node `n`. */
  lemma StepIn(env: Env, g: Graph, body: seq<Stmt>, cfg: Config, n: nat, st: State) returns (m: nat)
    requires At(g, body, cfg, n) && !cfg.k.Module? && Step(env, cfg, st).Move?
    ensures At(g, body, Step(env, cfg, st).cfg, m) && Follows(g.nodes, n, m)
    ensures |Step(env, cfg, st).log| <= 1
    ensures forall e <- Step(env, cfg, st).log :: Drives(g.nodes[n], LoopPorts(body), e.sink)
  {
    var nodes, k, x := g.nodes, cfg.k, Step(env, cfg, st);
    m := n;
    if cfg.todo == [] || cfg.todo[0].Break? {
      if x.cfg == Config(k.after, k.outer) && k.outer.Module? {
        m := nodes[n].succs[0].to;
        assert nodes[n].succs[0] == Arc(m, Comb);
      }
    } else {
      WithinStep(env, nodes[n], LoopPorts(body), cfg, st);
    }
  }

  /** A step that takes no time goes on within the cycle, and drives what its node says. */
  lemma StepFollows(env: Env, g: Graph, body: seq<Stmt>, cfg: Config, n: nat, st: State) returns (m: nat)
    requires GraphOf(g, body) && Unticked(body) && At(g, body, cfg, n) && Step(env, cfg, st).Move?
    ensures n < |g.nodes| && At(g, body, Step(env, cfg, st).cfg, m) && Follows(g.nodes, n, m)
    ensures |Step(env, cfg, st).log| <= 1
    ensures forall e <- Step(env, cfg, st).log :: Drives(g.nodes[n], LoopPorts(body), e.sink)
  {
    if cfg.k.Module? {
      m := StepAt(env, g, body, cfg, n, st);
    } else {
      m := StepIn(env, g, body, cfg, n, st);
    }
  }

  /** `at[e]` is the place on the path `p` that drove event `e`, a statement's own node;
    * each place drives at most one.
    */
  predicate DrivenAlong(nodes: seq<Node>, ports: set<string>, log: seq<Event>, p: seq<nat>, at: seq<nat>) {
    && Stroll(nodes, p) && |at| == |log|
    && (forall e :: 0 <= e < |at| ==> at[e] < |p| && Drives(nodes[p[at[e]]], ports, log[e].sink))
    && forall e, f :: 0 <= e < f < |at| ==> at[e] < at[f]
  }

  lemma PathPrepend(nodes: seq<Node>, n: nat, q: seq<nat>)
    requires n < |nodes| && Stroll(nodes, q) && Follows(nodes, n, q[0])
    ensures Stroll(nodes, [n] + q)
  {
    var p := [n] + q;
    forall i | 0 <= i < |p| - 1 ensures Follows(nodes, p[i], p[i + 1]) {
      if i > 0 {
        assert Follows(nodes, q[i - 1], q[i]);
      }
    }
  }

  /** The places of a path with one more step in front, which showed `log0`. */
  function Delayed(log0: seq<Event>, at: seq<nat>): (at': seq<nat>) {
    (if log0 == [] then [] else [0]) + seq(|at|, i requires 0 <= i < |at| => at[i] + 1)
  }

  lemma DrivenPrepend(nodes: seq<Node>, ports: set<string>, n: nat, log0: seq<Event>, log: seq<Event>, p: seq<nat>, at: seq<nat>) returns (at': seq<nat>)
    requires n < |nodes| && DrivenAlong(nodes, ports, log, p, at) && Follows(nodes, n, p[0])
    requires |log0| <= 1 && forall e <- log0 :: Drives(nodes[n], ports, e.sink)
    ensures DrivenAlong(nodes, ports, log0 + log, [n] + p, at') && at' == Delayed(log0, at)
  {
    PathPrepend(nodes, n, p);
    at' := Delayed(log0, at);
    var q, all := [n] + p, log0 + log;
    forall e | 0 <= e < |at'|
      ensures at'[e] < |q| && Drives(nodes[q[at'[e]]], ports, all[e].sink)
    {
      if e >= |log0| {
        assert at'[e] == at[e - |log0|] + 1 && all[e] == log[e - |log0|];
      } else {
        assert all[e] == log0[0];
      }
    }
  }

  /** `p` is where the run stands: after `i` steps at node `p[i]`. */
  ghost predicate Stands(env: Env, g: Graph, body: seq<Stmt>, cfg: Config, st: State, k: nat, p: seq<nat>) {
    && |p| == k + 1
    && forall i :: 0 <= i <= k ==> Steps(env, cfg, st, i).Some? && At(g, body, Steps(env, cfg, st, i).value.cfg, p[i])
  }

  /** Event `e` is the one step `at[e]` shows. */
  predicate Shows(env: Env, cfg: Config, st: State, at: seq<nat>) {
    forall e :: 0 <= e < |at| ==> ShowsAt(env, cfg, st, at[e], e)
  }

  lemma StandsPrepend(env: Env, g: Graph, body: seq<Stmt>, cfg: Config, n: nat, st: State, k: nat, p: seq<nat>)
    requires At(g, body, cfg, n) && Step(env, cfg, st).Move?
    requires var m := Step(env, cfg, st); Stands(env, g, body, m.cfg, m.st, k, p)
    ensures Stands(env, g, body, cfg, st, k + 1, [n] + p)
  {
    var m, q := Step(env, cfg, st), [n] + p;
    forall i | 0 <= i <= k + 1 ensures Steps(env, cfg, st, i).Some? && At(g, body, Steps(env, cfg, st, i).value.cfg, q[i]) {
      if i > 0 {
        LaterSteps(env, cfg, st, i - 1);
        assert q[i] == p[i - 1];
      }
    }
  }

  /** After its first step a run is the run from there. */
  lemma LaterSteps(env: Env, cfg: Config, st: State, i: nat)
    requires Step(env, cfg, st).Move?
    ensures var m := Step(env, cfg, st); Steps(env, cfg, st, i + 1).Some? <==> Steps(env, m.cfg, m.st, i).Some?
    ensures var m := Step(env, cfg, st); Steps(env, m.cfg, m.st, i).Some? ==>
      var r := Steps(env, m.cfg, m.st, i).value; Steps(env, cfg, st, i + 1) == Some(Seen(m.log + r.log, r.cfg, r.st))
  {
  }

  /** The `e`-th event of the run shows in its step `i`. */
  predicate ShowsAt(env: Env, cfg: Config, st: State, i: nat, e: nat) {
    var before, after := Steps(env, cfg, st, i), Steps(env, cfg, st, i + 1);
    before.Some? && after.Some? && |before.value.log| == e && |after.value.log| == e + 1
  }

  lemma ShowsPrepend(env: Env, cfg: Config, st: State, at: seq<nat>)
    requires Step(env, cfg, st).Move? && |Step(env, cfg, st).log| <= 1
    requires var m := Step(env, cfg, st); Shows(env, m.cfg, m.st, at)
    ensures Shows(env, cfg, st, Delayed(Step(env, cfg, st).log, at))
  {
    var m := Step(env, cfg, st);
    var at' := Delayed(m.log, at);
    forall e | 0 <= e < |at'| ensures ShowsAt(env, cfg, st, at'[e], e) {
      LaterSteps(env, cfg, st, 0);
      if e >= |m.log| {
        var i := at[e - |m.log|];
        assert at'[e] == i + 1 && ShowsAt(env, m.cfg, m.st, i, e - |m.log|);
        LaterSteps(env, cfg, st, i);
        LaterSteps(env, cfg, st, i + 1);
      }
    }
  }

  /** Whatever runs between two ticks walks a path within the cycle, standing at its nodes
    * one after the other, at a folded loop as long as it takes, and all it drives is driven by the nodes it stands at.
    */
  lemma {:induction false} StepsFollow(env: Env, g: Graph, body: seq<Stmt>, cfg: Config, n: nat, st: State, k: nat, o: Seen)
    returns (p: seq<nat>, at: seq<nat>)
    requires GraphOf(g, body) && Unticked(body) && At(g, body, cfg, n) && n < |g.nodes|
    requires Steps(env, cfg, st, k) == Some(o)
    ensures DrivenAlong(g.nodes, LoopPorts(body), o.log, p, at) && p[0] == n
    ensures Stands(env, g, body, cfg, st, k, p) && Shows(env, cfg, st, at)
    decreases k
  {
    if k == 0 {
      p, at := [n], [];
    } else {
      var m := StepFollows(env, g, body, cfg, n, st);
      var x := Step(env, cfg, st);
      assert InRange(g.nodes);
      var r := Steps(env, x.cfg, x.st, k - 1).value;
      var q, at0 := StepsFollow(env, g, body, x.cfg, m, x.st, k - 1, r);
      at := DrivenPrepend(g.nodes, LoopPorts(body), n, x.log, r.log, q, at0);
      StandsPrepend(env, g, body, cfg, n, st, k - 1, q);
      ShowsPrepend(env, cfg, st, at0);
      p := [n] + q;
    }
  }

  /** One clock cycle from `cfg`, driving `log`: `p` is the sequence of nodes the run stands
    * at until its tick, along edges within the cycle, and every event is driven by the
    * node the run stands at when it shows it.
    */
  ghost predicate CycleWalk(env: Env, g: Graph, body: seq<Stmt>, cfg: Config, st: State, log: seq<Event>, p: seq<nat>) {
    exists k: nat, o: Seen, at: seq<nat> ::
      && Steps(env, cfg, st, k) == Some(o) && StandsAtTick(o.cfg) && log == o.log
      && Stands(env, g, body, cfg, st, k, p) && Shows(env, cfg, st, at) && DrivenAlong(g.nodes, LoopPorts(body), log, p, at)
  }

  lemma CycleFollows(env: Env, g: Graph, body: seq<Stmt>, cfg: Config, n: nat, st: State, log: seq<Event>, cfg': Config, st': State)
    returns (p: seq<nat>, m: nat)
    requires GraphOf(g, body) && Unticked(body) && At(g, body, cfg, n) && n < |g.nodes|
    requires Cycle(env, cfg, st, log, cfg', st')
    ensures CycleWalk(env, g, body, cfg, st, log, p) && At(g, body, cfg', m) && m < |g.nodes|
  {
    var o: Seen :| Reaches(env, cfg, st, o) && StandsAtTick(o.cfg)
      && log == o.log && cfg' == Config(o.cfg.todo[1..], o.cfg.k) && st' == Edge(o.st);
    var k: nat :| Steps(env, cfg, st, k) == Some(o);
    var at;
    p, at := StepsFollow(env, g, body, cfg, n, st, k, o);
    assert Steps(env, cfg, st, k).value == o && At(g, body, Steps(env, cfg, st, k).value.cfg, p[k]);
    m := TickFollows(g, body, o.cfg, p[k]);
    assert CycleWalk(env, g, body, cfg, st, o.log, p);
  }

  lemma TickFollows(g: Graph, body: seq<Stmt>, cfg: Config, n: nat) returns (m: nat)
    requires GraphOf(g, body) && At(g, body, cfg, n) && StandsAtTick(cfg)
    ensures At(g, body, Config(cfg.todo[1..], cfg.k), m) && m < |g.nodes|
  {
    assert Size(cfg.todo) == StmtSize(cfg.todo[0]) + Size(cfg.todo[1..]);
    assert StmtContainsTick(cfg.todo[0]) && ContainsTick(cfg.todo) && cfg.k.Module?;
    assert LoopPorts(cfg.todo[1..]) <= LoopPorts(cfg.todo);
    m := g.nodes[n].succs[0].to;
    assert InRange(g.nodes);
  }

  /** `walks[i]` is the walk of a run's `i`-th cycle. */
  ghost predicate RunWalks(env: Env, g: Graph, body: seq<Stmt>, cfg: Config, st: State, logs: seq<seq<Event>>, walks: seq<seq<nat>>)
    decreases |logs|
  {
    && |walks| == |logs|
    && (logs != [] ==>
          && CycleWalk(env, g, body, cfg, st, logs[0], walks[0])
          && exists mid: Config, sm: State ::
               Cycle(env, cfg, st, logs[0], mid, sm) && RunWalks(env, g, body, mid, sm, logs[1..], walks[1..]))
  }

  lemma {:induction false} RunsFollow(env: Env, g: Graph, body: seq<Stmt>, cfg: Config, n: nat, st: State,
                                      logs: seq<seq<Event>>, c: Config, s: State)
    returns (walks: seq<seq<nat>>)
    requires GraphOf(g, body) && Unticked(body) && At(g, body, cfg, n) && n < |g.nodes|
    requires Runs(env, cfg, st, logs, c, s)
    ensures RunWalks(env, g, body, cfg, st, logs, walks)
    decreases |logs|
  {
    walks := [];
    if logs != [] {
      var mid: Config, sm: State :| Cycle(env, cfg, st, logs[0], mid, sm) && Runs(env, mid, sm, logs[1..], c, s);
      var p, m := CycleFollows(env, g, body, cfg, n, st, logs[0], mid, sm);
      var more := RunsFollow(env, g, body, mid, m, sm, logs[1..], c, s);
      walks := [p] + more;
      assert walks[1..] == more;
    }
  }

  /** Each cycle's events are driven by nodes of its walk. */
  ghost predicate DrivenOn(nodes: seq<Node>, ports: set<string>, log: seq<Event>, p: seq<nat>) {
    exists at: seq<nat> :: DrivenAlong(nodes, ports, log, p, at)
  }

  lemma WalkDrives(env: Env, g: Graph, body: seq<Stmt>, cfg: Config, st: State, log: seq<Event>, p: seq<nat>)
    requires CycleWalk(env, g, body, cfg, st, log, p)
    ensures DrivenOn(g.nodes, LoopPorts(body), log, p)
  {
  }

  lemma RestWalks(env: Env, g: Graph, body: seq<Stmt>, cfg: Config, st: State, logs: seq<seq<Event>>, walks: seq<seq<nat>>)
    returns (mid: Config, sm: State)
    requires RunWalks(env, g, body, cfg, st, logs, walks) && logs != []
    ensures RunWalks(env, g, body, mid, sm, logs[1..], walks[1..])
  {
    mid, sm :| Cycle(env, cfg, st, logs[0], mid, sm) && RunWalks(env, g, body, mid, sm, logs[1..], walks[1..]);
  }

  lemma {:induction false} WalkOf(env: Env, g: Graph, body: seq<Stmt>, cfg: Config, st: State, logs: seq<seq<Event>>,
                                  walks: seq<seq<nat>>, i: nat)
    requires RunWalks(env, g, body, cfg, st, logs, walks) && i < |logs|
    ensures DrivenOn(g.nodes, LoopPorts(body), logs[i], walks[i])
    decreases i
  {
    if i == 0 {
      WalkDrives(env, g, body, cfg, st, logs[0], walks[0]);
    } else {
      var mid, sm := RestWalks(env, g, body, cfg, st, logs, walks);
      WalkOf(env, g, body, mid, sm, logs[1..], walks[1..], i - 1);
      assert logs[1..][i - 1] == logs[i] && walks[1..][i - 1] == walks[i];
    }
  }

  /** In every run of a loop whose nested loops do not tick, every clock cycle, those that
    * pass the loop's head included, walks one tick-free path of the graph: the nodes the run
    * stands at from tick to tick, which drive all it drives.
    */
  lemma EveryCycleIsOneWalk(env: Env, g: Graph, body: seq<Stmt>, st: State, logs: seq<seq<Event>>, c: Config, s: State)
    returns (walks: seq<seq<nat>>)
    requires GraphOf(g, body) && Unticked(body) && Runs(env, Config(body, Module(body)), st, logs, c, s)
    ensures RunWalks(env, g, body, Config(body, Module(body)), st, logs, walks)
    ensures forall i :: 0 <= i < |logs| ==> DrivenOn(g.nodes, LoopPorts(body), logs[i], walks[i])
  {
    walks := RunsFollow(env, g, body, Config(body, Module(body)), g.nodes[0].succs[0].to, st, logs, c, s);
    forall i | 0 <= i < |logs| ensures DrivenOn(g.nodes, LoopPorts(body), logs[i], walks[i]) {
      WalkOf(env, g, body, Config(body, Module(body)), st, logs, walks, i);
    }
  }
}
