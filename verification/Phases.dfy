/** Clock phases: the parts of a loop that one clock cycle can run, found by union-find. */
module Phases {
  import opened Syntax
  import opened Semantics
  import opened Graphs
  import opened Cfg
  import opened Reachability
  import opened Tracing
  import opened Nesting

  // ----- What a phase is ----------------------------------------------------------------------------------

  predicate Touches(nodes: seq<Node>, a: nat, b: nat) {
    CombEdge(nodes, a, b) || CombEdge(nodes, b, a)
  }

  /** Nodes joined by edges within the cycle, whichever way they point. */
  ghost predicate Chain(nodes: seq<Node>, p: seq<nat>) {
    && p != [] && (forall i :: 0 <= i < |p| ==> p[i] < |nodes|)
    && forall i :: 0 <= i < |p| - 1 ==> Touches(nodes, p[i], p[i + 1])
  }

  ghost predicate SamePhase(nodes: seq<Node>, a: nat, b: nat) {
    exists p: seq<nat> :: Chain(nodes, p) && p[0] == a && p[|p| - 1] == b
  }

  lemma PhaseOfItself(nodes: seq<Node>, a: nat)
    requires a < |nodes|
    ensures SamePhase(nodes, a, a)
  {
    assert Chain(nodes, [a]);
  }

  lemma PhaseOfEdge(nodes: seq<Node>, a: nat, b: nat)
    requires a < |nodes| && b < |nodes| && CombEdge(nodes, a, b)
    ensures SamePhase(nodes, a, b)
  {
    var p := [a, b];
    assert Touches(nodes, p[0], p[1]);
    assert Chain(nodes, p);
  }

  lemma PhaseJoins(nodes: seq<Node>, a: nat, b: nat, c: nat)
    requires SamePhase(nodes, a, b) && SamePhase(nodes, b, c)
    ensures SamePhase(nodes, a, c)
  {
    var p: seq<nat> :| Chain(nodes, p) && p[0] == a && p[|p| - 1] == b;
    var q: seq<nat> :| Chain(nodes, q) && q[0] == b && q[|q| - 1] == c;
    var r := p + q[1..];
    forall i | 0 <= i < |r| - 1 ensures Touches(nodes, r[i], r[i + 1]) {
      if i < |p| - 1 {
        assert Touches(nodes, p[i], p[i + 1]);
      } else {
        assert Touches(nodes, q[i - (|p| - 1)], q[i - (|p| - 1) + 1]);
      }
    }
    assert Chain(nodes, r);
  }

  lemma PhaseTurns(nodes: seq<Node>, a: nat, b: nat)
    requires SamePhase(nodes, a, b)
    ensures SamePhase(nodes, b, a)
  {
    var p: seq<nat> :| Chain(nodes, p) && p[0] == a && p[|p| - 1] == b;
    var r := seq(|p|, i requires 0 <= i < |p| => p[|p| - 1 - i]);
    forall i | 0 <= i < |r| - 1 ensures Touches(nodes, r[i], r[i + 1]) {
      assert Touches(nodes, p[|p| - 2 - i], p[|p| - 2 - i + 1]);
    }
    assert Chain(nodes, r);
  }

  // ----- The forest ------------------------------------------------------------------------------------------

  /** A parent array whose trees are the classes of `rep`; `height` falls towards a root. */
  ghost predicate Forest(parent: seq<nat>, rep: seq<nat>, height: seq<nat>) {
    && |parent| == |rep| == |height|
    && (forall x: nat :: x < |parent| ==> parent[x] < |parent| && rep[x] < |parent|)
    && (forall x: nat :: x < |parent| ==> rep[parent[x]] == rep[x] && parent[rep[x]] == rep[x])
    && (forall x: nat :: x < |parent| && parent[x] != x ==> height[parent[x]] < height[x])
    && (forall x: nat :: x < |parent| && parent[x] == x ==> rep[x] == x)
  }

  lemma Halved(parent: seq<nat>, rep: seq<nat>, height: seq<nat>, x: nat)
    requires Forest(parent, rep, height) && x < |parent| && parent[x] != x
    ensures Forest(parent[x := parent[parent[x]]], rep, height)
  {
    assert rep[x] != x;
  }

  /** The root of `x`, halving the path to it. */
  method Find(parent: array<nat>, x: nat, ghost rep: seq<nat>, ghost height: seq<nat>) returns (r: nat)
    requires Forest(parent[..], rep, height) && x < parent.Length
    modifies parent
    ensures Forest(parent[..], rep, height) && r == rep[x] && r < parent.Length
  {
    r := x;
    while parent[r] != r
      invariant r < parent.Length && Forest(parent[..], rep, height) && rep[r] == rep[x]
      decreases height[r]
    {
      ghost var was := parent[..];
      Halved(was, rep, height, r);
      assert was[r] == parent[r];
      parent[r] := parent[parent[r]];
      assert parent[..] == was[r := was[was[r]]];
      r := parent[r];
    }
    assert parent[..][r] == r;
  }

  function Renamed(rep: seq<nat>, a: nat, b: nat): (r: seq<nat>)
    ensures |r| == |rep| && forall x: nat :: x < |rep| ==> r[x] == if rep[x] == a then b else rep[x]
  {
    seq(|rep|, i requires 0 <= i < |rep| => if rep[i] == a then b else rep[i])
  }

  function Raised(rep: seq<nat>, height: seq<nat>, a: nat, b: nat): (h: seq<nat>)
    requires |rep| == |height| && b < |rep|
    ensures |h| == |rep| && forall x: nat :: x < |rep| ==> h[x] == height[x] + if rep[x] == a then height[b] + 1 else 0
  {
    seq(|rep|, i requires 0 <= i < |rep| => height[i] + if rep[i] == a then height[b] + 1 else 0)
  }

  lemma LinkKeepsForest(parent: seq<nat>, rep: seq<nat>, height: seq<nat>, a: nat, b: nat)
    requires Forest(parent, rep, height) && a < |parent| && b < |parent| && a != b
    requires parent[a] == a && parent[b] == b
    ensures Forest(parent[a := b], Renamed(rep, a, b), Raised(rep, height, a, b))
  {
  }

  /** Each class lies in one phase. */
  ghost predicate Sound(nodes: seq<Node>, rep: seq<nat>) {
    |rep| == |nodes| && forall x: nat, y: nat :: x < |rep| && y < |rep| && rep[x] == rep[y] ==> SamePhase(nodes, x, y)
  }

  /** The edges of the nodes below `i`, and the first `j` of node `i`, are within classes. */
  ghost predicate Merged(nodes: seq<Node>, rep: seq<nat>, i: nat, j: nat) {
    && |rep| == |nodes| && InRange(nodes)
    && forall x: nat, k :: x < |nodes| && 0 <= k < |nodes[x].succs| && (x < i || (x == i && k < j)) && nodes[x].succs[k].kind == Comb
         ==> rep[x] == rep[nodes[x].succs[k].to]
  }

  lemma RenamedSound(nodes: seq<Node>, rep: seq<nat>, a: nat, b: nat, x: nat, y: nat)
    requires Sound(nodes, rep) && x < |rep| && y < |rep| && rep[x] == a && rep[y] == b && SamePhase(nodes, x, y)
    ensures Sound(nodes, Renamed(rep, a, b))
  {
    forall u: nat, v: nat | u < |rep| && v < |rep| && Renamed(rep, a, b)[u] == Renamed(rep, a, b)[v]
      ensures SamePhase(nodes, u, v)
    {
      PhaseTurns(nodes, x, y);
      if rep[u] == a && rep[v] == b {
        PhaseJoins(nodes, u, x, y);
        PhaseJoins(nodes, u, y, v);
      } else if rep[u] == b && rep[v] == a {
        PhaseJoins(nodes, u, y, x);
        PhaseJoins(nodes, u, x, v);
      }
    }
  }

  /** Node `i`'s edge `j` is dealt with when its ends are of one class. */
  lemma MergedStep(nodes: seq<Node>, rep: seq<nat>, i: nat, j: nat)
    requires Merged(nodes, rep, i, j) && i < |nodes| && j < |nodes[i].succs|
    requires nodes[i].succs[j].kind == Comb ==> rep[i] == rep[nodes[i].succs[j].to]
    ensures Merged(nodes, rep, i, j + 1)
  {
  }

  lemma RenamedMerged(nodes: seq<Node>, rep: seq<nat>, i: nat, j: nat, a: nat, b: nat)
    requires Merged(nodes, rep, i, j)
    ensures Merged(nodes, Renamed(rep, a, b), i, j)
  {
  }

  /** Give root `a` the parent `b`. */
  method Link(parent: array<nat>, a: nat, b: nat, ghost rep: seq<nat>, ghost height: seq<nat>)
    requires Forest(parent[..], rep, height) && a < parent.Length && b < parent.Length && a != b
    requires parent[a] == a && parent[b] == b
    modifies parent
    ensures Forest(parent[..], Renamed(rep, a, b), Raised(rep, height, a, b))
  {
    ghost var was := parent[..];
    assert was[a] == a && was[b] == b;
    LinkKeepsForest(was, rep, height, a, b);
    parent[a] := b;
    assert parent[..] == was[a := b];
  }

  /** The classes of `x` and `y` become one. */
  method Join(nodes: seq<Node>, parent: array<nat>, x: nat, y: nat, ghost rep: seq<nat>, ghost height: seq<nat>)
    returns (ghost rep': seq<nat>, ghost height': seq<nat>)
    requires Forest(parent[..], rep, height) && Sound(nodes, rep) && x < parent.Length && y < parent.Length && SamePhase(nodes, x, y)
    modifies parent
    ensures Forest(parent[..], rep', height') && Sound(nodes, rep') && rep'[x] == rep'[y]
    ensures rep' == rep || rep' == Renamed(rep, rep[x], rep[y])
  {
    rep', height' := rep, height;
    var a := Find(parent, x, rep, height);
    var b := Find(parent, y, rep, height);
    if a != b {
      RenamedSound(nodes, rep, a, b, x, y);
      assert parent[..][rep[x]] == rep[x] && parent[..][rep[y]] == rep[y];
      Link(parent, a, b, rep, height);
      rep', height' := Renamed(rep, a, b), Raised(rep, height, a, b);
    }
  }

  /** One edge: the classes of its two ends become one. */
  method Unite(nodes: seq<Node>, parent: array<nat>, i: nat, j: nat, ghost rep: seq<nat>, ghost height: seq<nat>)
    returns (ghost rep': seq<nat>, ghost height': seq<nat>)
    requires Merged(nodes, rep, i, j) && Sound(nodes, rep) && Forest(parent[..], rep, height)
    requires i < |nodes| && j < |nodes[i].succs|
    modifies parent
    ensures Merged(nodes, rep', i, j + 1) && Sound(nodes, rep') && Forest(parent[..], rep', height')
  {
    rep', height' := rep, height;
    var e := nodes[i].succs[j];
    if e.kind == Comb {
      assert e == Arc(e.to, Comb);
      PhaseOfEdge(nodes, i, e.to);
      rep', height' := Join(nodes, parent, i, e.to, rep, height);
      RenamedMerged(nodes, rep, i, j, rep[i], rep[e.to]);
    }
    MergedStep(nodes, rep', i, j);
  }

  method UniteAll(nodes: seq<Node>, parent: array<nat>, i: nat, ghost rep: seq<nat>, ghost height: seq<nat>)
    returns (ghost rep': seq<nat>, ghost height': seq<nat>)
    requires Merged(nodes, rep, i, 0) && Sound(nodes, rep) && Forest(parent[..], rep, height) && i < |nodes|
    modifies parent
    ensures Merged(nodes, rep', i + 1, 0) && Sound(nodes, rep') && Forest(parent[..], rep', height')
  {
    rep', height' := rep, height;
    for j := 0 to |nodes[i].succs|
      invariant Merged(nodes, rep', i, j) && Sound(nodes, rep') && Forest(parent[..], rep', height')
    {
      rep', height' := Unite(nodes, parent, i, j, rep', height');
    }
  }

  lemma {:induction false} MergedAlong(nodes: seq<Node>, rep: seq<nat>, p: seq<nat>)
    requires Merged(nodes, rep, |nodes|, 0) && Chain(nodes, p)
    ensures rep[p[0]] == rep[p[|p| - 1]]
    decreases |p|
  {
    if |p| > 1 {
      assert Touches(nodes, p[0], p[1]);
      var q := p[1..];
      forall i | 0 <= i < |q| - 1 ensures Touches(nodes, q[i], q[i + 1]) {
        assert Touches(nodes, p[i + 1], p[i + 2]);
      }
      MergedAlong(nodes, rep, q);
    }
  }

  /** `phases[n]` names the phase of node `n`: equal exactly for nodes of the same phase. */
  ghost predicate PhasesOf(nodes: seq<Node>, phases: seq<nat>) {
    && |phases| == |nodes|
    && forall a: nat, b: nat :: a < |nodes| && b < |nodes| ==> (phases[a] == phases[b] <==> SamePhase(nodes, a, b))
  }

  lemma StartsApart(nodes: seq<Node>, rep: seq<nat>)
    requires InRange(nodes) && |rep| == |nodes| && forall x: nat :: x < |rep| ==> rep[x] == x
    ensures Sound(nodes, rep) && Merged(nodes, rep, 0, 0)
  {
    forall x: nat | x < |nodes| ensures SamePhase(nodes, x, x) {
      PhaseOfItself(nodes, x);
    }
  }

  /** Union-find over the edges within the cycle: one representative per phase. */
  method CombPhases(nodes: seq<Node>) returns (phases: seq<nat>)
    requires InRange(nodes)
    ensures PhasesOf(nodes, phases)
  {
    var parent := new nat[|nodes|](i => i);
    ghost var rep: seq<nat>, height := parent[..], seq(|nodes|, _ => 0);
    StartsApart(nodes, rep);
    assert Forest(parent[..], rep, height);
    for i := 0 to |nodes|
      invariant Merged(nodes, rep, i, 0) && Sound(nodes, rep) && Forest(parent[..], rep, height)
    {
      rep, height := UniteAll(nodes, parent, i, rep, height);
    }
    phases := Roots(parent, rep, height);
    MergedIsExact(nodes, rep);
  }

  predicate Begins(roots: seq<nat>, rep: seq<nat>, i: nat) {
    i <= |rep| && roots == rep[..i]
  }

  lemma BeginsOn(roots: seq<nat>, rep: seq<nat>, i: nat)
    requires Begins(roots, rep, i) && i < |rep|
    ensures Begins(roots + [rep[i]], rep, i + 1)
  {
    assert rep[..i + 1] == rep[..i] + [rep[i]];
  }

  /** Every node's root. */
  method Roots(parent: array<nat>, ghost rep: seq<nat>, ghost height: seq<nat>) returns (roots: seq<nat>)
    requires Forest(parent[..], rep, height)
    modifies parent
    ensures roots == rep
  {
    roots := [];
    for i := 0 to parent.Length
      invariant Forest(parent[..], rep, height) && |rep| == parent.Length
      invariant Begins(roots, rep, i)
    {
      var r := Find(parent, i, rep, height);
      BeginsOn(roots, rep, i);
      roots := roots + [r];
    }
    assert Begins(roots, rep, |rep|) && rep[..|rep|] == rep;
  }

  lemma MergedIsExact(nodes: seq<Node>, rep: seq<nat>)
    requires Merged(nodes, rep, |nodes|, 0) && Sound(nodes, rep)
    ensures PhasesOf(nodes, rep)
  {
    forall a: nat, b: nat | a < |nodes| && b < |nodes| && SamePhase(nodes, a, b) ensures rep[a] == rep[b] {
      var p: seq<nat> :| Chain(nodes, p) && p[0] == a && p[|p| - 1] == b;
      MergedAlong(nodes, rep, p);
    }
  }

  // ----- Ports written in more than one phase -------------------------------------------------------------------

  /** A port driven in two phases by statements that are not folded loops. */
  ghost predicate MultiPhase(nodes: seq<Node>, w: string) {
    exists i: nat, j: nat ::
      && i < |nodes| && j < |nodes| && !nodes[i].folded && !nodes[j].folded
      && w in nodes[i].writes && w in nodes[j].writes && !SamePhase(nodes, i, j)
  }

  /** The statement drives this port itself. */
  predicate DrivesPort(s: Stmt, w: string) {
    s.Do? && s.action.Drive? && s.action.sink == OutPort(w)
  }

  /** The node is that of a place of the loop's own level whose statement drives this port. */
  ghost predicate DrivesHere(nodes: seq<Node>, body: seq<Stmt>, n: nat, w: string) {
    exists todo <- Spots(body, []) :: todo != [] && DrivesPort(todo[0], w) && Wired(nodes, n, todo, MODULE)
  }

  lemma WritesIff(g: Graph, body: seq<Stmt>, n: nat, w: string)
    requires GraphOf(g, body) && n < |g.nodes|
    ensures DrivesHere(g.nodes, body, n, w) <==> !g.nodes[n].folded && w in g.nodes[n].writes
  {
    if DrivesHere(g.nodes, body, n, w) {
      var todo :| todo in Spots(body, []) && todo != [] && DrivesPort(todo[0], w) && Wired(g.nodes, n, todo, MODULE);
      assert Size(todo) == StmtSize(todo[0]) + Size(todo[1..]);
    }
    if !g.nodes[n].folded && w in g.nodes[n].writes {
      assert n >= 1 && SeatsOne(g.nodes, n, Spots(body, []), MODULE);
      var todo :| todo in Spots(body, []) && Wired(g.nodes, n, todo, MODULE);
      SpotsAreInside(body, []);
      assert Size(todo) == StmtSize(todo[0]) + Size(todo[1..]);
    }
  }

  /** Just the ports two statements of the loop's own level drive whose nodes no edges within the
    * cycle join; what nested loops drive is not looked at.
    */
  lemma MultiPhaseIff(g: Graph, body: seq<Stmt>, w: string)
    requires GraphOf(g, body)
    ensures MultiPhase(g.nodes, w) <==> exists i: nat, j: nat ::
      && i < |g.nodes| && j < |g.nodes| && DrivesHere(g.nodes, body, i, w) && DrivesHere(g.nodes, body, j, w)
      && !SamePhase(g.nodes, i, j)
  {
    forall n: nat | n < |g.nodes| ensures DrivesHere(g.nodes, body, n, w) <==> !g.nodes[n].folded && w in g.nodes[n].writes {
      WritesIff(g, body, n, w);
    }
  }

  /** For each port, the phases it is written in. */
  ghost predicate Tallied(nodes: seq<Node>, phases: seq<nat>, seen: map<string, set<nat>>, n: nat) {
    && n <= |nodes| == |phases|
    && (forall w, r :: w in seen && r in seen[w] ==> exists i: nat :: i < n && WritesIn(nodes, phases, i, w, r))
    && (forall i: nat, w :: i < n && WritesIn(nodes, phases, i, w, phases[i]) ==> w in seen && phases[i] in seen[w])
  }

  predicate WritesIn(nodes: seq<Node>, phases: seq<nat>, i: nat, w: string, r: nat) {
    i < |nodes| == |phases| && !nodes[i].folded && w in nodes[i].writes && phases[i] == r
  }

  function Noted(seen: map<string, set<nat>>, ports: set<string>, r: nat): map<string, set<nat>> {
    map w | w in seen.Keys + ports :: (if w in seen then seen[w] else {}) + if w in ports then {r} else {}
  }

  lemma TalliedStep(nodes: seq<Node>, phases: seq<nat>, seen: map<string, set<nat>>, n: nat)
    requires Tallied(nodes, phases, seen, n) && n < |nodes|
    ensures Tallied(nodes, phases, if nodes[n].folded then seen else Noted(seen, nodes[n].writes, phases[n]), n + 1)
  {
    if !nodes[n].folded {
      var seen' := Noted(seen, nodes[n].writes, phases[n]);
      forall w, r | w in seen' && r in seen'[w] ensures exists i: nat :: i < n + 1 && WritesIn(nodes, phases, i, w, r) {
        if w in seen && r in seen[w] {
          var i: nat :| i < n && WritesIn(nodes, phases, i, w, r);
          assert i < n + 1;
        } else {
          assert WritesIn(nodes, phases, n, w, r);
        }
      }
    }
  }

  lemma TalliedExact(nodes: seq<Node>, phases: seq<nat>, seen: map<string, set<nat>>, w: string)
    requires PhasesOf(nodes, phases) && Tallied(nodes, phases, seen, |nodes|)
    ensures MultiPhase(nodes, w) <==> w in seen && exists r, r' :: r in seen[w] && r' in seen[w] && r != r'
  {
    if w in seen && exists r, r' :: r in seen[w] && r' in seen[w] && r != r' {
      var r, r' :| r in seen[w] && r' in seen[w] && r != r';
      var i: nat :| i < |nodes| && WritesIn(nodes, phases, i, w, r);
      var j: nat :| j < |nodes| && WritesIn(nodes, phases, j, w, r');
      assert !SamePhase(nodes, i, j);
    }
    if MultiPhase(nodes, w) {
      var i: nat, j: nat :| && i < |nodes| && j < |nodes| && !nodes[i].folded && !nodes[j].folded
        && w in nodes[i].writes && w in nodes[j].writes && !SamePhase(nodes, i, j);
      assert WritesIn(nodes, phases, i, w, phases[i]) && WritesIn(nodes, phases, j, w, phases[j]);
    }
  }

  lemma TwoOrMore(s: set<nat>)
    ensures |s| > 1 <==> exists r, r' :: r in s && r' in s && r != r'
  {
    if |s| > 1 {
      var r :| r in s;
      assert |s - {r}| == |s| - 1;
      var r' :| r' in s - {r};
    }
    if exists r, r' :: r in s && r' in s && r != r' {
      var r, r' :| r in s && r' in s && r != r';
      assert s == {r, r'} + (s - {r, r'});
    }
  }

  method MultiPhaseOutWrite(nodes: seq<Node>) returns (ports: set<string>)
    requires InRange(nodes)
    ensures forall w :: w in ports <==> MultiPhase(nodes, w)
  {
    var phases := CombPhases(nodes);
    var seen: map<string, set<nat>> := map[];
    for i := 0 to |nodes|
      invariant Tallied(nodes, phases, seen, i)
    {
      TalliedStep(nodes, phases, seen, i);
      if !nodes[i].folded {
        seen := Noted(seen, nodes[i].writes, phases[i]);
      }
    }
    ports := set w | w in seen && |seen[w]| > 1;
    forall w ensures w in ports <==> MultiPhase(nodes, w) {
      TalliedExact(nodes, phases, seen, w);
      if w in seen {
        TwoOrMore(seen[w]);
      }
    }
  }

  // ----- What a phase means for a run ----------------------------------------------------------------------------

  lemma {:induction false} WalkStaysInPhase(nodes: seq<Node>, p: seq<nat>, i: nat, j: nat)
    requires Stroll(nodes, p) && i <= j < |p|
    ensures SamePhase(nodes, p[i], p[j])
    decreases j
  {
    if i == j {
      PhaseOfItself(nodes, p[i]);
    } else {
      WalkStaysInPhase(nodes, p, i, j - 1);
      assert Follows(nodes, p[j - 1], p[j - 1 + 1]);
      if CombEdge(nodes, p[j - 1], p[j]) {
        PhaseOfEdge(nodes, p[j - 1], p[j]);
        PhaseJoins(nodes, p[i], p[j - 1], p[j]);
      }
    }
  }

  lemma WalkIsOnePhase(nodes: seq<Node>, p: seq<nat>, i: nat, j: nat)
    requires Stroll(nodes, p) && i < |p| && j < |p|
    ensures SamePhase(nodes, p[i], p[j])
  {
    if i <= j {
      WalkStaysInPhase(nodes, p, i, j);
    } else {
      WalkStaysInPhase(nodes, p, j, i);
      PhaseTurns(nodes, p[j], p[i]);
    }
  }

  /** The nodes of one walk are of one phase. */
  ghost predicate OnePhase(nodes: seq<Node>, p: seq<nat>) {
    forall i, j :: 0 <= i < |p| && 0 <= j < |p| ==> SamePhase(nodes, p[i], p[j])
  }

  /** In every run, all nodes the run stands at between two ticks are of one phase, whether
    * the cycle drives anything or not.
    */
  lemma CyclesKeepToOnePhase(env: Env, g: Graph, body: seq<Stmt>, st: State, logs: seq<seq<Event>>, c: Config, s: State)
    returns (walks: seq<seq<nat>>)
    requires GraphOf(g, body) && Unticked(body) && Runs(env, Config(body, Module(body)), st, logs, c, s)
    ensures RunWalks(env, g, body, Config(body, Module(body)), st, logs, walks)
    ensures forall i :: 0 <= i < |walks| ==> DrivenOn(g.nodes, LoopPorts(body), logs[i], walks[i]) && OnePhase(g.nodes, walks[i])
  {
    walks := EveryCycleIsOneWalk(env, g, body, st, logs, c, s);
    assert |walks| == |logs|;
    forall i | 0 <= i < |walks| ensures OnePhase(g.nodes, walks[i]) {
      var p := walks[i];
      var at: seq<nat> :| DrivenAlong(g.nodes, LoopPorts(body), logs[i], p, at);
      forall a, b | 0 <= a < |p| && 0 <= b < |p| ensures SamePhase(g.nodes, p[a], p[b]) {
        WalkIsOnePhase(g.nodes, p, a, b);
      }
    }
  }

  /** Everything a cycle drives on `port` is driven while the run stands at a node of `r`'s phase. */
  ghost predicate DrivenInPhase(nodes: seq<Node>, ports: set<string>, log: seq<Event>, p: seq<nat>, port: string, r: nat) {
    exists at: seq<nat> ::
      DrivenAlong(nodes, ports, log, p, at) && forall e :: 0 <= e < |at| && log[e].sink == OutPort(port) ==> SamePhase(nodes, p[at[e]], r)
  }

  /** What the report is for: a port it does not name, and that no nested loop drives, which
    * the report does not look into, is driven from one phase, the same in all cycles of every
    * run.
    */
  lemma UnreportedPortHasOnePhase(env: Env, g: Graph, body: seq<Stmt>, port: string, st: State, logs: seq<seq<Event>>, c: Config, s: State)
    returns (walks: seq<seq<nat>>, r: nat)
    requires GraphOf(g, body) && Unticked(body) && Runs(env, Config(body, Module(body)), st, logs, c, s)
    requires !MultiPhase(g.nodes, port) && port !in LoopPorts(body)
    ensures RunWalks(env, g, body, Config(body, Module(body)), st, logs, walks)
    ensures forall i :: 0 <= i < |logs| ==> DrivenInPhase(g.nodes, LoopPorts(body), logs[i], walks[i], port, r)
  {
    walks := EveryCycleIsOneWalk(env, g, body, st, logs, c, s);
    var nodes := g.nodes;
    r := 0;
    if n: nat :| n < |nodes| && !nodes[n].folded && port in nodes[n].writes {
      r := n;
    }
    forall i | 0 <= i < |logs| ensures DrivenInPhase(nodes, LoopPorts(body), logs[i], walks[i], port, r) {
      var p := walks[i];
      var at: seq<nat> :| DrivenAlong(nodes, LoopPorts(body), logs[i], p, at);
      forall e | 0 <= e < |at| && logs[i][e].sink == OutPort(port) ensures SamePhase(nodes, p[at[e]], r) {
        var n := p[at[e]];
        assert Drives(nodes[n], LoopPorts(body), logs[i][e].sink) && !nodes[n].folded && n < |nodes|;
      }
    }
  }
}
