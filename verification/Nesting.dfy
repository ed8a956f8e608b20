/** The loops nested in a list, at every depth, and the graphs they have. */
module Nesting {
  import opened Syntax
  import opened Scoping
  import opened Graphs
  import opened Cfg

  /** `sub` is among these graphs, or nested in one. */
  ghost predicate Among(subs: seq<Graph>, sub: Graph)
    decreases subs
  {
    exists h <- subs :: h == sub || Among(h.nested, sub)
  }

  lemma AmongPart(subs: seq<Graph>, part: seq<Graph>, sub: Graph)
    requires Among(part, sub) && forall h <- part :: h in subs
    ensures Among(subs, sub)
  {
    var h :| h in part && (h == sub || Among(h.nested, sub));
    assert h in subs;
  }

  /** Every ticking loop nested in a list, however deep, has its graph. */
  lemma {:induction false} NestedGraph(subs: seq<Graph>, stmts: seq<Stmt>, s: Stmt) returns (sub: Graph)
    requires Folds(subs, LoopsOf(stmts)) && s in Everywhere(stmts) && Nests(s) && ContainsTick(s.body)
    ensures Among(subs, sub) && SubGraphOf(sub, s.body)
    decreases stmts, 1
  {
    var a, b := LoopsOf(stmts[1..]), LoopsOfStmt(stmts[0]);
    FoldsSplit(subs, a, b);
    assert Everywhere(stmts) == {stmts[0]} + Inside(stmts[0]) + Everywhere(stmts[1..]);
    if s in Everywhere(stmts[1..]) {
      sub := NestedGraph(subs[..|a|], stmts[1..], s);
      AmongPart(subs, subs[..|a|], sub);
    } else {
      sub := NestedGraphOf(subs[|a|..], stmts[0], s);
      AmongPart(subs, subs[|a|..], sub);
    }
  }

  lemma {:induction false} NestedGraphOf(subs: seq<Graph>, top: Stmt, s: Stmt) returns (sub: Graph)
    requires Folds(subs, LoopsOfStmt(top)) && s in {top} + Inside(top) && Nests(s) && ContainsTick(s.body)
    ensures Among(subs, sub) && SubGraphOf(sub, s.body)
    decreases top, 0
  {
    if top.Branch? {
      sub := NestedGraphInArms(subs, top.arms, s);
    } else {
      assert Nests(top) && (s != top ==> s in Everywhere(top.body));
      if s != top {
        TickShows(top.body, s);
      }
      assert subs == [subs[0]] && SubGraphOf(subs[0], top.body);
      if s == top {
        sub := subs[0];
      } else {
        sub := NestedGraph(subs[0].nested, top.body, s);
      }
      assert subs[0] in subs;
    }
  }

  lemma {:induction false} NestedGraphInArms(subs: seq<Graph>, arms: seq<Arm>, s: Stmt) returns (sub: Graph)
    requires Folds(subs, LoopsOfArms(arms)) && s in InsideArms(arms) && Nests(s) && ContainsTick(s.body)
    ensures Among(subs, sub) && SubGraphOf(sub, s.body)
    decreases arms, 0
  {
    var a, b := LoopsOf(arms[0].body), LoopsOfArms(arms[1..]);
    FoldsSplit(subs, a, b);
    assert InsideArms(arms) == Everywhere(arms[0].body) + InsideArms(arms[1..]);
    if s in Everywhere(arms[0].body) {
      sub := NestedGraph(subs[..|a|], arms[0].body, s);
      AmongPart(subs, subs[..|a|], sub);
    } else {
      sub := NestedGraphInArms(subs[|a|..], arms[1..], s);
      AmongPart(subs, subs[|a|..], sub);
    }
  }

  lemma {:induction false} TickShows(stmts: seq<Stmt>, s: Stmt)
    requires s in Everywhere(stmts) && StmtContainsTick(s)
    ensures ContainsTick(stmts)
    decreases stmts, 1
  {
    assert Everywhere(stmts) == {stmts[0]} + Inside(stmts[0]) + Everywhere(stmts[1..]);
    if s in Everywhere(stmts[1..]) {
      TickShows(stmts[1..], s);
    } else if s != stmts[0] {
      match stmts[0]
      case Branch(_, arms) => TickShowsInArms(arms, s);
      case Loop(body) => TickShows(body, s);
      case While(_, body) => TickShows(body, s);
      case For(_, _, _, body) => TickShows(body, s);
    }
  }

  lemma {:induction false} TickShowsInArms(arms: seq<Arm>, s: Stmt)
    requires s in InsideArms(arms) && StmtContainsTick(s)
    ensures ArmsContainTick(arms)
    decreases arms, 0
  {
    assert InsideArms(arms) == Everywhere(arms[0].body) + InsideArms(arms[1..]);
    if s in Everywhere(arms[0].body) {
      TickShows(arms[0].body, s);
    } else {
      TickShowsInArms(arms[1..], s);
    }
  }

  /** And every nested graph is that of such a loop. */
  lemma {:induction false} NestedLoop(subs: seq<Graph>, stmts: seq<Stmt>, sub: Graph) returns (s: Stmt)
    requires Folds(subs, LoopsOf(stmts)) && Among(subs, sub)
    ensures s in Everywhere(stmts) && Nests(s) && ContainsTick(s.body) && SubGraphOf(sub, s.body)
    decreases stmts, 1
  {
    var h :| h in subs && (h == sub || Among(h.nested, sub));
    if stmts == [] {
      assert false;
    } else {
      var a, b := LoopsOf(stmts[1..]), LoopsOfStmt(stmts[0]);
      FoldsSplit(subs, a, b);
      assert subs == subs[..|a|] + subs[|a|..];
      assert Everywhere(stmts) == {stmts[0]} + Inside(stmts[0]) + Everywhere(stmts[1..]);
      if h in subs[..|a|] {
        s := NestedLoop(subs[..|a|], stmts[1..], sub);
      } else {
        s := NestedLoopOf(subs[|a|..], stmts[0], sub);
      }
    }
  }

  lemma {:induction false} NestedLoopOf(subs: seq<Graph>, top: Stmt, sub: Graph) returns (s: Stmt)
    requires Folds(subs, LoopsOfStmt(top)) && Among(subs, sub)
    ensures s in {top} + Inside(top) && Nests(s) && ContainsTick(s.body) && SubGraphOf(sub, s.body)
    decreases top, 0
  {
    var h :| h in subs && (h == sub || Among(h.nested, sub));
    if top.Branch? {
      s := NestedLoopInArms(subs, top.arms, sub);
    } else {
      assert |subs| == 1 && h == subs[0] && Nests(top) && SubGraphOf(h, top.body);
      if h == sub {
        s := top;
      } else {
        s := NestedLoop(h.nested, top.body, sub);
      }
    }
  }

  lemma {:induction false} NestedLoopInArms(subs: seq<Graph>, arms: seq<Arm>, sub: Graph) returns (s: Stmt)
    requires Folds(subs, LoopsOfArms(arms)) && Among(subs, sub)
    ensures s in InsideArms(arms) && Nests(s) && ContainsTick(s.body) && SubGraphOf(sub, s.body)
    decreases arms, 0
  {
    var h :| h in subs && (h == sub || Among(h.nested, sub));
    if arms == [] {
      assert false;
    } else {
      var a, b := LoopsOf(arms[0].body), LoopsOfArms(arms[1..]);
      FoldsSplit(subs, a, b);
      assert subs == subs[..|a|] + subs[|a|..];
      assert InsideArms(arms) == Everywhere(arms[0].body) + InsideArms(arms[1..]);
      if h in subs[..|a|] {
        s := NestedLoop(subs[..|a|], arms[0].body, sub);
      } else {
        s := NestedLoopInArms(subs[|a|..], arms[1..], sub);
      }
    }
  }

  lemma {:induction false} InsideIsSmaller(stmts: seq<Stmt>, s: Stmt)
    requires s in Everywhere(stmts)
    ensures StmtSize(s) <= Size(stmts)
    decreases stmts, 1
  {
    assert Everywhere(stmts) == {stmts[0]} + Inside(stmts[0]) + Everywhere(stmts[1..]);
    if s in Everywhere(stmts[1..]) {
      InsideIsSmaller(stmts[1..], s);
    } else if s != stmts[0] {
      match stmts[0]
      case Branch(_, arms) => InsideArmsIsSmaller(arms, s);
      case Loop(body) => InsideIsSmaller(body, s);
      case While(_, body) => InsideIsSmaller(body, s);
      case For(_, _, _, body) => InsideIsSmaller(body, s);
    }
  }

  lemma {:induction false} InsideArmsIsSmaller(arms: seq<Arm>, s: Stmt)
    requires s in InsideArms(arms)
    ensures StmtSize(s) <= ArmsSize(arms)
    decreases arms, 0
  {
    assert InsideArms(arms) == Everywhere(arms[0].body) + InsideArms(arms[1..]);
    if s in Everywhere(arms[0].body) {
      InsideIsSmaller(arms[0].body, s);
    } else {
      InsideArmsIsSmaller(arms[1..], s);
    }
  }

  lemma {:induction false} SpotsAreInside(stmts: seq<Stmt>, rest: seq<Stmt>)
    ensures forall todo <- Spots(stmts, rest) :: todo != [] && todo[0] in Everywhere(stmts)
    decreases stmts, 1
  {
    if stmts != [] {
      SpotsAreInside(stmts[1..], rest);
      var s, more := stmts[0], stmts[1..] + rest;
      if s.Branch? {
        ArmSpotsAreInside(s.arms, more);
      }
      assert Everywhere(stmts) == {s} + Inside(s) + Everywhere(stmts[1..]);
      forall todo | todo in Spots(stmts, rest) ensures todo != [] && todo[0] in Everywhere(stmts) {
        if todo in StmtSpots(s, more) {
          assert todo == [s] + more || (s.Branch? && todo in ArmSpots(s.arms, more));
          assert ([s] + more)[0] == s;
        } else {
          assert todo in Spots(stmts[1..], rest);
        }
      }
    }
  }

  lemma {:induction false} ArmSpotsAreInside(arms: seq<Arm>, rest: seq<Stmt>)
    ensures forall todo <- ArmSpots(arms, rest) :: todo != [] && todo[0] in InsideArms(arms)
    decreases arms, 0
  {
    if arms != [] {
      SpotsAreInside(arms[0].body, rest);
      ArmSpotsAreInside(arms[1..], rest);
      assert InsideArms(arms) == Everywhere(arms[0].body) + InsideArms(arms[1..]);
    }
  }
}
