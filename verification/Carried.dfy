/** Which locals the clock edges carry, told from the text: what liveness on the graph finds,
  * and with it the registers, without the graph.
  */
module Carried {
  import opened Syntax
  import opened Scoping
  import opened Nesting
  import opened Graphs
  import opened Cfg
  import opened Reachability
  import opened Liveness

  // ----- Reading and writing a name, statement by statement -------------------------------------------

  /** The statement evaluates the name; a nested loop counts as a whole, with every name that is
    * read or assigned somewhere in it.
    */
  predicate Asks(s: Stmt, x: string) {
    (exists e <- Evaluates(s) :: Var(x) in Parts(e)) || (Nests(s) && exists y <- Inside(s) :: Refers(y, x))
  }

  predicate Writes(s: Stmt, x: string) {
    s.Do? && !s.action.Drive? && s.action.name == x
  }

  /** On some way from here the name is read before it is written and before the loop starts over. */
  ghost predicate ReadsFirst(todo: seq<Stmt>, x: string)
    decreases Size(todo)
  {
    if todo == [] then false else
    var s, rest := todo[0], todo[1..];
    assert Size(todo) == StmtSize(s) + Size(rest);
    Asks(s, x) ||
    if Writes(s, x) || s.Continue? then false
    else if s.Branch? then
      exists i :: 0 <= i < |s.arms| && (ArmSizeBound(s.arms, i); SizeAppend(s.arms[i].body, rest);
                                        ReadsFirst(s.arms[i].body + rest, x))
    else ReadsFirst(rest, x)
  }

  /** On some way from here the loop starts over and the name has not been written. */
  ghost predicate HandsOn(todo: seq<Stmt>, x: string)
    decreases Size(todo)
  {
    if todo == [] then true else
    var s, rest := todo[0], todo[1..];
    assert Size(todo) == StmtSize(s) + Size(rest);
    if s.Continue? then true
    else if Writes(s, x) then false
    else if s.Branch? then
      exists i :: 0 <= i < |s.arms| && (ArmSizeBound(s.arms, i); SizeAppend(s.arms[i].body, rest);
                                        HandsOn(s.arms[i].body + rest, x))
    else HandsOn(rest, x)
  }

  /** The value a name has here is read later on: on the way round the loop, or past its head. */
  ghost predicate Needed(body: seq<Stmt>, todo: seq<Stmt>, x: string) {
    ReadsFirst(todo, x) || (HandsOn(todo, x) && ReadsFirst(body, x))
  }

  // ----- What a node uses -------------------------------------------------------------------------------

  /** A node uses exactly the names its statement asks for; of a nested loop, all that are read or
    * assigned in it.
    */
  lemma UsesIff(nodes: seq<Node>, n: nat, todo: seq<Stmt>, t: Targets, x: string)
    requires todo != [] && Wired(nodes, n, todo, t)
    ensures n < |nodes| && (x in nodes[n].uses <==> Asks(todo[0], x)) && (x in nodes[n].defs <==> Writes(todo[0], x))
  {
    var s := todo[0];
    assert Size(todo) == StmtSize(s) + Size(todo[1..]);
    RefersIff(s, x);
    InsideIff(s, x);
    forall e | e in Evaluates(s) ensures x in Reads(e) <==> Var(x) in Parts(e) {
      ReadsAreParts(e, x);
    }
    if s.Do? {
      assert ActionExpr(s.action) in Evaluates(s);
    } else if s.Branch? {
      assert s.sel in Evaluates(s);
    }
  }

  lemma {:induction false} AllAreInside(stmts: seq<Stmt>, s: Stmt)
    requires s in Everywhere(stmts)
    ensures Inside(s) <= Everywhere(stmts)
    decreases stmts, 1
  {
    assert Everywhere(stmts) == {stmts[0]} + Inside(stmts[0]) + Everywhere(stmts[1..]);
    if s in Everywhere(stmts[1..]) {
      AllAreInside(stmts[1..], s);
    } else if s != stmts[0] {
      match stmts[0]
      case Branch(_, arms) => ArmsAreInside(arms, s);
      case Loop(body) => AllAreInside(body, s);
      case While(_, body) => AllAreInside(body, s);
      case For(_, _, _, body) => AllAreInside(body, s);
    }
  }

  lemma {:induction false} ArmsAreInside(arms: seq<Arm>, s: Stmt)
    requires s in InsideArms(arms)
    ensures Inside(s) <= InsideArms(arms)
    decreases arms, 0
  {
    assert InsideArms(arms) == Everywhere(arms[0].body) + InsideArms(arms[1..]);
    if s in Everywhere(arms[0].body) {
      AllAreInside(arms[0].body, s);
    } else {
      ArmsAreInside(arms[1..], s);
    }
  }

  lemma UsedIsReferred(nodes: seq<Node>, m: nat, body: seq<Stmt>, t: Targets, x: string) returns (y: Stmt)
    requires SeatsOne(nodes, m, Spots(body, []), t) && m < |nodes| && x in nodes[m].uses
    ensures y in Everywhere(body) && Refers(y, x)
  {
    var todo :| todo in Spots(body, []) && Wired(nodes, m, todo, t);
    SpotsAreInside(body, []);
    UsesIff(nodes, m, todo, t, x);
    y := todo[0];
    if !Refers(y, x) {
      AllAreInside(body, todo[0]);
      y :| y in Inside(todo[0]) && Refers(y, x);
    }
  }

  /** Whatever a path of a nested loop's own graph reads before writing it is used by the node the
    * loop is folded into.
    */
  lemma NestedReadsAreUsed(nodes: seq<Node>, n: nat, todo: seq<Stmt>, t: Targets, sub: Graph, x: string)
    requires todo != [] && Nests(todo[0]) && Wired(nodes, n, todo, t)
    requires SubGraphOf(sub, todo[0].body) && LiveIn(sub.nodes, sub.head, x)
    ensures n < |nodes| && x in nodes[n].uses
  {
    var body := todo[0].body;
    var p: seq<nat> :| ReadsBeforeWriting(sub.nodes, p, x) && p[0] == sub.head;
    var m := p[|p| - 1];
    assert m >= 2 && SeatsOne(sub.nodes, m, Spots(body, []), SUB);
    var y := UsedIsReferred(sub.nodes, m, body, SUB, x);
    assert Everywhere(body) == Inside(todo[0]);
    assert Asks(todo[0], x);
    UsesIff(nodes, n, todo, t, x);
  }

  // ----- Liveness is in the text ----------------------------------------------------------------------------

  lemma {:induction false} ReadsFirstIsLive(nodes: seq<Node>, n: nat, todo: seq<Stmt>, x: string)
    requires Wired(nodes, n, todo, MODULE) && ReadsFirst(todo, x)
    ensures LiveIn(nodes, n, x)
    decreases Size(todo)
  {
    var s, rest := todo[0], todo[1..];
    assert Size(todo) == StmtSize(s) + Size(rest);
    UsesIff(nodes, n, todo, MODULE, x);
    if Asks(s, x) {
      UsedIsLive(nodes, n, x);
    } else if s.Branch? {
      var i :| 0 <= i < |s.arms| && ReadsFirst(s.arms[i].body + rest, x);
      ArmSizeBound(s.arms, i);
      SizeAppend(s.arms[i].body, rest);
      var m := nodes[n].succs[i].to;
      ReadsFirstIsLive(nodes, m, s.arms[i].body + rest, x);
      assert Linked(nodes, n, m);
      LivePasses(nodes, n, m, x);
    } else {
      var m := nodes[n].succs[0].to;
      ReadsFirstIsLive(nodes, m, rest, x);
      assert Linked(nodes, n, m);
      LivePasses(nodes, n, m, x);
    }
  }

  lemma {:induction false} HandedOnIsLive(nodes: seq<Node>, n: nat, todo: seq<Stmt>, x: string)
    requires Wired(nodes, n, todo, MODULE) && HandsOn(todo, x) && LiveIn(nodes, 0, x)
    ensures LiveIn(nodes, n, x)
    decreases Size(todo)
  {
    if todo != [] {
      var s, rest := todo[0], todo[1..];
      assert Size(todo) == StmtSize(s) + Size(rest);
      UsesIff(nodes, n, todo, MODULE, x);
      var m := nodes[n].succs[0].to;
      if s.Branch? {
        var i :| 0 <= i < |s.arms| && HandsOn(s.arms[i].body + rest, x);
        ArmSizeBound(s.arms, i);
        SizeAppend(s.arms[i].body, rest);
        m := nodes[n].succs[i].to;
        HandedOnIsLive(nodes, m, s.arms[i].body + rest, x);
      } else if !s.Continue? {
        HandedOnIsLive(nodes, m, rest, x);
      }
      assert Linked(nodes, n, m);
      LivePasses(nodes, n, m, x);
    }
  }

  lemma LiveTail(nodes: seq<Node>, p: seq<nat>, x: string)
    requires ReadsBeforeWriting(nodes, p, x) && x !in nodes[p[0]].uses
    ensures |p| > 1 && Linked(nodes, p[0], p[1]) && x !in nodes[p[0]].defs && ReadsBeforeWriting(nodes, p[1..], x)
  {
    assert |p| > 1 && Linked(nodes, p[0], p[0 + 1]);
    var q := p[1..];
    forall i | 0 <= i < |q| - 1 ensures Linked(nodes, q[i], q[i + 1]) && x !in nodes[q[i]].defs {
      assert Linked(nodes, p[i + 1], p[i + 1 + 1]);
    }
  }

  lemma {:induction false} LiveIsNeeded(nodes: seq<Node>, body: seq<Stmt>, n: nat, todo: seq<Stmt>, p: seq<nat>, x: string)
    requires nodes != [] && |nodes[0].succs| == 1 && nodes[0] == JumpNode(nodes[0].succs[0].to)
    requires Wired(nodes, nodes[0].succs[0].to, body, MODULE) && Wired(nodes, n, todo, MODULE)
    requires ReadsBeforeWriting(nodes, p, x) && p[0] == n
    ensures Needed(body, todo, x)
    decreases |p|
  {
    if todo == [] {
      LiveTail(nodes, p, x);
      LiveIsNeeded(nodes, body, p[1], body, p[1..], x);
    } else {
      var s, rest := todo[0], todo[1..];
      assert Size(todo) == StmtSize(s) + Size(rest);
      UsesIff(nodes, n, todo, MODULE, x);
      if !Asks(s, x) {
        LiveTail(nodes, p, x);
        var j :| 0 <= j < |nodes[n].succs| && nodes[n].succs[j].to == p[1];
        if s.Branch? {
          ArmSizeBound(s.arms, j);
          SizeAppend(s.arms[j].body, rest);
          LiveIsNeeded(nodes, body, p[1], s.arms[j].body + rest, p[1..], x);
        } else if s.Continue? {
          LiveIsNeeded(nodes, body, 0, [], p[1..], x);
        } else {
          LiveIsNeeded(nodes, body, p[1], rest, p[1..], x);
        }
      }
    }
  }

  /** A name is live at a node just when the text still needs the value it has there. */
  lemma LiveIff(g: Graph, body: seq<Stmt>, n: nat, todo: seq<Stmt>, x: string)
    requires GraphOf(g, body) && Wired(g.nodes, n, todo, MODULE)
    ensures LiveIn(g.nodes, n, x) <==> Needed(body, todo, x)
  {
    var nodes, entry := g.nodes, g.nodes[0].succs[0].to;
    if ReadsFirst(todo, x) {
      ReadsFirstIsLive(nodes, n, todo, x);
    }
    if HandsOn(todo, x) && ReadsFirst(body, x) {
      ReadsFirstIsLive(nodes, entry, body, x);
      assert Linked(nodes, 0, entry);
      LivePasses(nodes, 0, entry, x);
      HandedOnIsLive(nodes, n, todo, x);
    }
    if LiveIn(nodes, n, x) {
      var p: seq<nat> :| ReadsBeforeWriting(nodes, p, x) && p[0] == n;
      LiveIsNeeded(nodes, body, n, todo, p, x);
    }
  }

  // ----- Registers are in the text -----------------------------------------------------------------------------

  /** Time passes at this statement: it is a tick, or a loop with one. */
  predicate Clocks(s: Stmt) {
    s == Tick || (Nests(s) && ContainsTick(s.body))
  }

  /** Somewhere in the loop time passes and the value the name then has is still needed. */
  ghost predicate NeededPastTick(body: seq<Stmt>, x: string) {
    exists todo <- Spots(body, []) :: todo != [] && Clocks(todo[0]) && Needed(body, todo[1..], x)
  }

  lemma ClocksIff(nodes: seq<Node>, n: nat, todo: seq<Stmt>)
    requires todo != [] && Wired(nodes, n, todo, MODULE)
    ensures n < |nodes| && (nodes[n].isTick <==> Clocks(todo[0]))
    ensures Clocks(todo[0]) ==> |nodes[n].succs| == 1 && Wired(nodes, nodes[n].succs[0].to, todo[1..], MODULE)
  {
    assert Size(todo) == StmtSize(todo[0]) + Size(todo[1..]);
  }

  lemma OnwardIff(g: Graph, body: seq<Stmt>, n: nat, todo: seq<Stmt>, x: string)
    requires GraphOf(g, body) && todo != [] && Clocks(todo[0]) && Wired(g.nodes, n, todo, MODULE)
    ensures LiveOut(g.nodes, n, x) <==> Needed(body, todo[1..], x)
  {
    ClocksIff(g.nodes, n, todo);
    var m := g.nodes[n].succs[0].to;
    assert Linked(g.nodes, n, m);
    LiveIff(g, body, m, todo[1..], x);
  }

  /** The registers of a loop are, of the names written in it, those read in it before they are
    * written, and those whose value at some tick or ticking loop is still needed behind it.
    */
  lemma RegistersAreText(g: Graph, body: seq<Stmt>, written: set<string>, x: string)
    requires GraphOf(g, body)
    ensures IsRegister(g, written, x) <==> x in written && (ReadsFirst(body, x) || NeededPastTick(body, x))
  {
    var nodes, entry := g.nodes, g.nodes[0].succs[0].to;
    LiveIff(g, body, entry, body, x);
    assert Linked(nodes, 0, entry);
    assert LiveOut(nodes, 0, x) <==> LiveIn(nodes, entry, x);
    if n: nat :| n < |nodes| && nodes[n].isTick && LiveOut(nodes, n, x) {
      assert n >= 1 && SeatsOne(nodes, n, Spots(body, []), MODULE);
      var todo :| todo in Spots(body, []) && Wired(nodes, n, todo, MODULE);
      SpotsAreInside(body, []);
      ClocksIff(nodes, n, todo);
      OnwardIff(g, body, n, todo, x);
    }
    if NeededPastTick(body, x) {
      var todo :| todo in Spots(body, []) && todo != [] && Clocks(todo[0]) && Needed(body, todo[1..], x);
      assert SeatOf(nodes, 1, |nodes|, todo, MODULE);
      var n: nat :| 1 <= n < |nodes| && Wired(nodes, n, todo, MODULE);
      ClocksIff(nodes, n, todo);
      OnwardIff(g, body, n, todo, x);
    }
  }
}
