/** What the check's verdict on a graph and the graphs of its nested loops means in the text.
  */
module Verdict {
  import opened Syntax
  import opened Lowering
  import opened Graphs
  import opened Cfg
  import opened Reachability

  // ----- One nested loop ----------------------------------------------------------------------------

  /** Can control get from here to the nested loop's head without a tick and without leaving it? */
  ghost predicate CanRestart(todo: Code)
    decreases Size(todo)
  {
    if todo == [] then true else
    var s, rest := todo[0], todo[1..];
    assert Size(todo) == StmtSize(s) + Size(rest);
    if s.Tick? || s.Break? then false
    else if s.Continue? then true
    else if s.Branch? then
      exists i :: 0 <= i < |s.arms| && (ArmSizeBound(s.arms, i); SizeAppend(s.arms[i].body, rest);
                                        CanRestart(s.arms[i].body + rest))
    else !AlwaysTicks(s) && CanRestart(rest)
  }

  const NESTED := Targets(0, Some(0), Some(1))

  lemma {:induction false} RestartsByPath(nodes: seq<Node>, n: nat, todo: Code) returns (p: seq<nat>)
    requires nodes != [] && InRange(nodes) && n < |nodes| && Wired(nodes, n, todo, NESTED) && CanRestart(todo)
    ensures ZeroPath(nodes, p) && p[0] == n && p[|p| - 1] == 0
    decreases Size(todo)
  {
    if todo == [] {
      p := [0];
    } else {
      var s, rest := todo[0], todo[1..];
      assert Size(todo) == StmtSize(s) + Size(rest);
      if s.Branch? {
        var i :| 0 <= i < |s.arms| && CanRestart(s.arms[i].body + rest);
        ArmSizeBound(s.arms, i);
        SizeAppend(s.arms[i].body, rest);
        var q := RestartsByPath(nodes, nodes[n].succs[i].to, s.arms[i].body + rest);
        p := PathCons(nodes, n, i, q);
      } else {
        var q := [0];
        if s.Loop? || s.While? || s.For? {
          MayExitIsText(s);
        }
        if !s.Continue? {
          q := RestartsByPath(nodes, nodes[n].succs[0].to, rest);
        }
        p := PathCons(nodes, n, 0, q);
      }
    }
  }

  lemma SinkEnds(nodes: seq<Node>, p: seq<nat>)
    requires |nodes| >= 2 && nodes[1] == EMPTY && ZeroPath(nodes, p) && p[0] == 1
    ensures p[|p| - 1] == 1
  {
    assert |p| > 1 ==> ZeroEdge(nodes, p[0], p[1]);
  }

  lemma {:induction false} PathRestarts(nodes: seq<Node>, n: nat, todo: Code, p: seq<nat>)
    requires |nodes| >= 2 && nodes[1] == EMPTY && Wired(nodes, n, todo, NESTED)
    requires ZeroPath(nodes, p) && p[0] == n && p[|p| - 1] == 0
    ensures CanRestart(todo)
    decreases Size(todo)
  {
    if todo != [] {
      var s, rest := todo[0], todo[1..];
      assert Size(todo) == StmtSize(s) + Size(rest);
      assert ZeroEdge(nodes, p[0], p[1]);
      var q := p[1..];
      forall i | 0 <= i < |q| - 1 ensures ZeroEdge(nodes, q[i], q[i + 1]) {
        assert ZeroEdge(nodes, p[i + 1], p[i + 2]);
      }
      var j :| 0 <= j < |nodes[n].succs| && Zero(nodes, n, j) && nodes[n].succs[j].to == p[1];
      if s.Branch? {
        ArmSizeBound(s.arms, j);
        SizeAppend(s.arms[j].body, rest);
        PathRestarts(nodes, p[1], s.arms[j].body + rest, q);
      } else if s.Break? {
        SinkEnds(nodes, q);
      } else if !s.Continue? {
        if s.Loop? || s.While? || s.For? {
          MayExitIsText(s);
        }
        PathRestarts(nodes, p[1], rest, q);
      }
    }
  }

  /** The verdict on a nested loop's own graph is exact as well: a zero-time cycle is
    * reachable just when the loop can start over without a tick and without being left.
    */
  lemma SubCycleIffRestart(g: Graph, body: Code)
    requires SubGraphOf(g, body)
    ensures HasZeroCycle(g.nodes, g.head) <==> CanRestart(body)
  {
    var nodes, entry := g.nodes, g.nodes[0].succs[0].to;
    SubGraphOk(g, body);
    if CanRestart(body) {
      var p := RestartsByPath(nodes, entry, body);
      var q := PathCons(nodes, 0, 0, p);
      assert q[0] == q[|q| - 1];
      assert ZeroLasso(nodes, 0, q);
    }
    if HasZeroCycle(nodes, g.head) {
      var q := LassoReturns(nodes, entry);
      PathRestarts(nodes, entry, body, q);
    }
  }

  // ----- All of them ---------------------------------------------------------------------------------

  /** No loop nested in here can start over in no time. */
  ghost predicate LoopsTick(stmts: Code)
    decreases stmts
  {
    stmts != [] ==> LoopsTickIn(stmts[0]) && LoopsTick(stmts[1..])
  }

  ghost predicate LoopsTickIn(s: Stmt)
    decreases s
  {
    match s
    case Branch(_, arms) => ArmsLoopsTick(arms)
    case Loop(body) => ContainsTick(body) ==> !CanRestart(body) && LoopsTick(body)
    case While(_, body) => ContainsTick(body) ==> !CanRestart(body) && LoopsTick(body)
    case For(_, _, _, body) => ContainsTick(body) ==> !CanRestart(body) && LoopsTick(body)
    case _ => true
  }

  ghost predicate ArmsLoopsTick(arms: seq<Arm>)
    decreases arms
  {
    arms != [] ==> LoopsTick(arms[0].body) && ArmsLoopsTick(arms[1..])
  }

  ghost predicate AllTick(subs: seq<Graph>) {
    forall s <- subs :: TicksEverywhere(s)
  }

  lemma AllTickSplit(subs: seq<Graph>, n: nat)
    requires n <= |subs|
    ensures AllTick(subs) <==> AllTick(subs[..n]) && AllTick(subs[n..])
  {
    assert subs == subs[..n] + subs[n..];
  }

  /** The nested graphs are free of zero-time cycles just when no nested loop of the text can
    * start over in no time.
    */
  lemma {:induction false} FoldsTick(subs: seq<Graph>, stmts: Code)
    requires Folds(subs, LoopsOf(stmts))
    ensures AllTick(subs) <==> LoopsTick(stmts)
    decreases stmts, 1
  {
    if stmts != [] {
      var a, b := LoopsOf(stmts[1..]), LoopsOfStmt(stmts[0]);
      FoldsSplit(subs, a, b);
      AllTickSplit(subs, |a|);
      FoldsTick(subs[..|a|], stmts[1..]);
      StmtFoldsTick(subs[|a|..], stmts[0]);
    }
  }

  lemma {:induction false} StmtFoldsTick(subs: seq<Graph>, s: Stmt)
    requires Folds(subs, LoopsOfStmt(s))
    ensures AllTick(subs) <==> LoopsTickIn(s)
    decreases s, 0
  {
    match s
    case Branch(_, arms) => ArmsFoldTick(subs, arms);
    case Loop(body) => BodyTicks(subs, body);
    case While(_, body) => BodyTicks(subs, body);
    case For(_, _, _, body) => BodyTicks(subs, body);
    case _ =>
  }

  lemma {:induction false} BodyTicks(subs: seq<Graph>, body: Code)
    requires Folds(subs, if ContainsTick(body) then [body] else [])
    ensures AllTick(subs) <==> (ContainsTick(body) ==> !CanRestart(body) && LoopsTick(body))
    decreases body, 2
  {
    if ContainsTick(body) {
      SubCycleIffRestart(subs[0], body);
      FoldsTick(subs[0].nested, body);
      assert subs[0] in subs && forall s <- subs :: s == subs[0];
    }
  }

  lemma {:induction false} ArmsFoldTick(subs: seq<Graph>, arms: seq<Arm>)
    requires Folds(subs, LoopsOfArms(arms))
    ensures AllTick(subs) <==> ArmsLoopsTick(arms)
    decreases arms, 0
  {
    if arms != [] {
      var a, b := LoopsOf(arms[0].body), LoopsOfArms(arms[1..]);
      FoldsSplit(subs, a, b);
      AllTickSplit(subs, |a|);
      FoldsTick(subs[..|a|], arms[0].body);
      ArmsFoldTick(subs[|a|..], arms[1..]);
    }
  }

  /** This loop cannot return to its head, and no ticking loop nested in it can start over,
    * without a tick.
    */
  ghost predicate Accepts(body: Code) {
    !CanReturn(body) && LoopsTick(body)
  }

  /** The whole verdict is one on the text. */
  lemma AcceptsIff(g: Graph, body: Code)
    requires GraphOf(g, body)
    ensures TicksEverywhere(g) <==> Accepts(body)
  {
    CycleIffReturn(g, body);
    FoldsTick(g.nested, body);
  }
}
