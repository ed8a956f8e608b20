/** What the latch check says about a combinational body as it is written, and about every
  * evaluation of it.
  */
module Latches {
  import opened Syntax
  import opened Semantics
  import opened Graphs
  import opened Cfg
  import opened Tracing
  import opened DefiniteAssignment

  // ----- Ways through a body ----------------------------------------------------------------------

  /** Some choice of arms drives `w`. */
  predicate CanDrive(stmts: seq<Stmt>, w: string)
    decreases stmts
  {
    stmts != [] && (CanDriveStmt(stmts[0], w) || CanDrive(stmts[1..], w))
  }

  predicate CanDriveStmt(s: Stmt, w: string)
    decreases s
  {
    match s
    case Do(a) => w in PortsOf(a)
    case Branch(_, arms) => ArmsCanDrive(arms, w)
    case _ => false
  }

  predicate ArmsCanDrive(arms: seq<Arm>, w: string)
    decreases arms
  {
    arms != [] && (CanDrive(arms[0].body, w) || ArmsCanDrive(arms[1..], w))
  }

  /** Some choice of arms does not. */
  predicate CanAvoid(stmts: seq<Stmt>, w: string)
    decreases stmts
  {
    stmts != [] ==> CanAvoidStmt(stmts[0], w) && CanAvoid(stmts[1..], w)
  }

  predicate CanAvoidStmt(s: Stmt, w: string)
    decreases s
  {
    match s
    case Do(a) => w !in PortsOf(a)
    case Branch(_, arms) => ArmsCanAvoid(arms, w)
    case _ => true
  }

  predicate ArmsCanAvoid(arms: seq<Arm>, w: string)
    decreases arms
  {
    arms != [] && (CanAvoid(arms[0].body, w) || ArmsCanAvoid(arms[1..], w))
  }

  /** A body a combinational module can have: no clock, no nested loops. */
  predicate Combinational(stmts: seq<Stmt>) {
    Flat(stmts) && !ContainsTick(stmts) && Written(stmts)
  }

  lemma {:induction false} WaysAppend(a: seq<Stmt>, b: seq<Stmt>, w: string)
    ensures CanDrive(a + b, w) == (CanDrive(a, w) || CanDrive(b, w))
    ensures CanAvoid(a + b, w) == (CanAvoid(a, w) && CanAvoid(b, w))
    ensures Combinational(a + b) == (Combinational(a) && Combinational(b))
    ensures PortsIn(a + b) == PortsIn(a) + PortsIn(b)
  {
    if a == [] {
      assert a + b == b;
    } else {
      assert (a + b)[1..] == a[1..] + b;
      WaysAppend(a[1..], b, w);
    }
  }

  lemma {:induction false} ArmWays(arms: seq<Arm>, i: nat, w: string)
    requires i < |arms|
    ensures CanDrive(arms[i].body, w) ==> ArmsCanDrive(arms, w)
    ensures CanAvoid(arms[i].body, w) ==> ArmsCanAvoid(arms, w)
    ensures ArmsFlat(arms) && !ArmsContainTick(arms) && ArmsWritten(arms) ==> Combinational(arms[i].body)
    ensures PortsIn(arms[i].body) <= PortsInArms(arms)
  {
    if i > 0 {
      ArmWays(arms[1..], i - 1, w);
    }
  }

  lemma {:induction false} DrivingArm(arms: seq<Arm>, w: string) returns (i: nat)
    requires ArmsCanDrive(arms, w)
    ensures i < |arms| && CanDrive(arms[i].body, w)
  {
    if CanDrive(arms[0].body, w) {
      i := 0;
    } else {
      i := DrivingArm(arms[1..], w);
      i := i + 1;
    }
  }

  lemma {:induction false} AvoidingArm(arms: seq<Arm>, w: string) returns (i: nat)
    requires ArmsCanAvoid(arms, w)
    ensures i < |arms| && CanAvoid(arms[i].body, w)
  {
    if CanAvoid(arms[0].body, w) {
      i := 0;
    } else {
      i := AvoidingArm(arms[1..], w);
      i := i + 1;
    }
  }

  // ----- Steps in the graph ---------------------------------------------------------------------------

  const EXIT := Targets(0, None, None)

  /** Node `n` stands for the combinational list `todo`. */
  ghost predicate Stands(nodes: seq<Node>, n: nat, todo: seq<Stmt>) {
    && nodes != [] && nodes[0] == EMPTY && InRange(nodes) && n < |nodes|
    && Combinational(todo) && Wired(nodes, n, todo, EXIT)
  }

  /** What is left when control takes edge `j` out of where `todo` starts. */
  function After(todo: seq<Stmt>, j: nat): seq<Stmt>
    requires todo != [] && (todo[0].Branch? ==> j < |todo[0].arms|)
  {
    if todo[0].Branch? then todo[0].arms[j].body + todo[1..] else todo[1..]
  }

  lemma StandsOn(nodes: seq<Node>, n: nat, todo: seq<Stmt>, j: nat, w: string)
    requires Stands(nodes, n, todo) && j < |nodes[n].succs|
    ensures todo != [] && n != 0 && (todo[0].Branch? ==> j < |todo[0].arms|)
    ensures nodes[n].succs[j].kind == Comb && Size(After(todo, j)) < Size(todo)
    ensures Stands(nodes, nodes[n].succs[j].to, After(todo, j))
    ensures PortsIn(After(todo, j)) <= PortsIn(todo)
    ensures CanDrive(After(todo, j), w) || w in nodes[n].writes ==> CanDrive(todo, w)
    ensures CanAvoid(After(todo, j), w) && w !in nodes[n].writes ==> CanAvoid(todo, w)
    ensures nodes[n].writes <= PortsIn(todo)
  {
    var s, rest := todo[0], todo[1..];
    assert Size(todo) == StmtSize(s) + Size(rest);
    assert FlatStmt(s) && WrittenStmt(s) && !StmtContainsTick(s) && Combinational(rest);
    if s.Branch? {
      assert ArmsFlat(s.arms) && ArmsWritten(s.arms) && !ArmsContainTick(s.arms);
      ArmWays(s.arms, j, w);
      ArmSizeBound(s.arms, j);
      SizeAppend(s.arms[j].body, rest);
      WaysAppend(s.arms[j].body, rest, w);
    }
  }

  lemma EdgesOut(nodes: seq<Node>, n: nat, todo: seq<Stmt>)
    requires Stands(nodes, n, todo) && todo != []
    ensures n != 0 && |nodes[n].succs| == if todo[0].Branch? then |todo[0].arms| else 1
    ensures |nodes[n].succs| > 0
  {
    assert Size(todo) == StmtSize(todo[0]) + Size(todo[1..]);
  }

  lemma TailOfPath(nodes: seq<Node>, p: seq<nat>) returns (j: nat)
    requires CombPath(nodes, p) && |p| > 1
    ensures CombPath(nodes, p[1..]) && j < |nodes[p[0]].succs| && nodes[p[0]].succs[j] == Arc(p[1], Comb)
  {
    assert CombEdge(nodes, p[0], p[0 + 1]);
    forall i | 0 <= i < |p[1..]| - 1 ensures CombEdge(nodes, p[1..][i], p[1..][i + 1]) {
      assert CombEdge(nodes, p[i + 1], p[i + 1 + 1]);
    }
    j :| 0 <= j < |nodes[p[0]].succs| && nodes[p[0]].succs[j] == Arc(p[1], Comb);
  }

  lemma HeadOfPath(nodes: seq<Node>, n: nat, j: nat, q: seq<nat>)
    requires n < |nodes| && j < |nodes[n].succs| && nodes[n].succs[j].kind == Comb
    requires CombPath(nodes, q) && q[0] == nodes[n].succs[j].to
    ensures CombPath(nodes, [n] + q)
  {
    assert nodes[n].succs[j] == Arc(q[0], Comb);
    assert CombEdge(nodes, n, q[0]);
    PathPrepend(nodes, n, q);
  }

  // ----- Paths and ways -------------------------------------------------------------------------------

  /** A path to the exit is a way through what is left. */
  lemma {:induction false} PathIsWay(nodes: seq<Node>, n: nat, todo: seq<Stmt>, p: seq<nat>, w: string)
    requires Stands(nodes, n, todo) && CombPath(nodes, p) && p[0] == n && p[|p| - 1] == 0
    ensures if Silent(nodes, p, w) then CanAvoid(todo, w) else CanDrive(todo, w)
    decreases |p|
  {
    if |p| == 1 {
      if todo != [] {
        EdgesOut(nodes, n, todo);
      }
    } else {
      var j := TailOfPath(nodes, p);
      StandsOn(nodes, n, todo, j, w);
      PathIsWay(nodes, p[1], After(todo, j), p[1..], w);
      SilentSplits(nodes, p, w);
    }
  }

  lemma SilentSplits(nodes: seq<Node>, p: seq<nat>, w: string)
    requires p != [] && p[0] < |nodes|
    ensures Silent(nodes, p, w) <==> w !in nodes[p[0]].writes && Silent(nodes, p[1..], w)
  {
    if Silent(nodes, p[1..], w) && w !in nodes[p[0]].writes {
      forall k | 0 <= k < |p| ensures p[k] < |nodes| && w !in nodes[p[k]].writes {
        if k > 0 {
          assert p[k] == p[1..][k - 1];
        }
      }
    }
    if Silent(nodes, p, w) {
      assert forall k :: 0 <= k < |p[1..]| ==> p[1..][k] == p[k + 1];
    }
  }

  /** Every way through what is left is a path to the exit. */
  lemma {:induction false} WayIsPath(nodes: seq<Node>, n: nat, todo: seq<Stmt>, w: string, driven: bool) returns (p: seq<nat>)
    requires Stands(nodes, n, todo) && if driven then CanDrive(todo, w) else CanAvoid(todo, w)
    ensures CombPath(nodes, p) && p[0] == n && p[|p| - 1] == 0 && Silent(nodes, p, w) == !driven
    decreases Size(todo)
  {
    if todo == [] {
      p := [0];
    } else {
      EdgesOut(nodes, n, todo);
      var here := w in nodes[n].writes;
      var j := ChooseArm(nodes, n, todo, w, driven);
      StandsOn(nodes, n, todo, j, w);
      var q: seq<nat>;
      if here {
        q := AnyPath(nodes, nodes[n].succs[j].to, After(todo, j));
      } else {
        q := WayIsPath(nodes, nodes[n].succs[j].to, After(todo, j), w, driven);
      }
      HeadOfPath(nodes, n, j, q);
      p := [n] + q;
      assert p[1..] == q;
      SilentSplits(nodes, p, w);
    }
  }

  /** The edge out of `n` that the wanted way takes. */
  lemma ChooseArm(nodes: seq<Node>, n: nat, todo: seq<Stmt>, w: string, driven: bool) returns (j: nat)
    requires Stands(nodes, n, todo) && todo != [] && if driven then CanDrive(todo, w) else CanAvoid(todo, w)
    ensures j < |nodes[n].succs| && (todo[0].Branch? ==> j < |todo[0].arms|)
    ensures w in nodes[n].writes ==> driven
    ensures w !in nodes[n].writes ==> if driven then CanDrive(After(todo, j), w) else CanAvoid(After(todo, j), w)
  {
    EdgesOut(nodes, n, todo);
    var s, rest := todo[0], todo[1..];
    assert Size(todo) == StmtSize(s) + Size(rest);
    assert FlatStmt(s) && (!driven ==> CanAvoidStmt(s, w) && CanAvoid(rest, w));
    j := 0;
    if s.Branch? {
      if driven && ArmsCanDrive(s.arms, w) {
        j := DrivingArm(s.arms, w);
      } else if !driven {
        assert CanAvoidStmt(s, w) && ArmsCanAvoid(s.arms, w);
        j := AvoidingArm(s.arms, w);
      } else {
        assert CanDriveStmt(s, w) == ArmsCanDrive(s.arms, w);
      }
      WaysAppend(s.arms[j].body, rest, w);
    }
  }

  lemma {:induction false} AnyPath(nodes: seq<Node>, n: nat, todo: seq<Stmt>) returns (p: seq<nat>)
    requires Stands(nodes, n, todo)
    ensures CombPath(nodes, p) && p[0] == n && p[|p| - 1] == 0
    decreases Size(todo)
  {
    if todo == [] {
      p := [0];
    } else {
      EdgesOut(nodes, n, todo);
      StandsOn(nodes, n, todo, 0, "");
      var q := AnyPath(nodes, nodes[n].succs[0].to, After(todo, 0));
      HeadOfPath(nodes, n, 0, q);
      p := [n] + q;
    }
  }

  /** Every node is on a way from the head, and stands for what is left there. */
  lemma {:induction false} FromHead(nodes: seq<Node>, head: nat, body: seq<Stmt>, m: nat) returns (p: seq<nat>, todo: seq<Stmt>)
    requires CombGraphOf(nodes, head, body) && Combinational(body) && m < |nodes|
    ensures Stands(nodes, m, todo) && PortsIn(todo) <= PortsIn(body)
    ensures CombPath(nodes, p) && p[0] == head && p[|p| - 1] == m
    decreases |nodes| - m
  {
    if m == head {
      p, todo := [head], body;
    } else {
      assert HasPred(nodes, m);
      var i :| 0 <= i < |nodes| && Linked(nodes, i, m);
      var j :| 0 <= j < |nodes[i].succs| && nodes[i].succs[j].to == m;
      var q, before := FromHead(nodes, head, body, i);
      StandsOn(nodes, i, before, j, "");
      assert EdgeAt(nodes, i, j, m);
      PathGrows(nodes, q, i, j, m);
      p, todo := q + [m], After(before, j);
    }
  }

  lemma JoinPaths(nodes: seq<Node>, p: seq<nat>, q: seq<nat>)
    requires CombPath(nodes, p) && CombPath(nodes, q) && p[|p| - 1] == q[0]
    ensures CombPath(nodes, p + q[1..]) && (p + q[1..])[|p + q[1..]| - 1] == q[|q| - 1] && (p + q[1..])[|p| - 1] == q[0]
  {
    var r := p + q[1..];
    forall i | 0 <= i < |r| - 1 ensures CombEdge(nodes, r[i], r[i + 1]) {
      if i < |p| - 1 {
        assert CombEdge(nodes, p[i], p[i + 1]);
      } else {
        assert CombEdge(nodes, q[i - (|p| - 1)], q[i - (|p| - 1) + 1]);
      }
    }
  }

  /** The graph may drive a port on the way to its exit just when the body can. */
  lemma MayDriveIff(nodes: seq<Node>, head: nat, body: seq<Stmt>, w: string)
    requires CombGraphOf(nodes, head, body) && Combinational(body)
    ensures MayDrive(nodes, 0, w) <==> CanDrive(body, w)
  {
    if MayDrive(nodes, 0, w) {
      var q: seq<nat> :| CombPath(nodes, q) && q[|q| - 1] == 0 && w in nodes[q[0]].writes;
      PathDrives(nodes, head, body, q, w);
    }
    if CanDrive(body, w) {
      WayDrives(nodes, head, body, w);
    }
  }

  lemma PathDrives(nodes: seq<Node>, head: nat, body: seq<Stmt>, q: seq<nat>, w: string)
    requires CombGraphOf(nodes, head, body) && Combinational(body)
    requires CombPath(nodes, q) && q[|q| - 1] == 0 && w in nodes[q[0]].writes
    ensures CanDrive(body, w)
  {
    var p, todo := FromHead(nodes, head, body, q[0]);
    JoinPaths(nodes, p, q);
    assert !Silent(nodes, p + q[1..], w);
    PathIsWay(nodes, head, body, p + q[1..], w);
  }

  lemma WayDrives(nodes: seq<Node>, head: nat, body: seq<Stmt>, w: string)
    requires CombGraphOf(nodes, head, body) && Combinational(body) && CanDrive(body, w)
    ensures MayDrive(nodes, 0, w)
  {
    var p := WayIsPath(nodes, head, body, w, true);
    var k :| 0 <= k < |p| && !(p[k] < |nodes| && w !in nodes[p[k]].writes);
    var q := p[k..];
    forall i | 0 <= i < |q| - 1 ensures CombEdge(nodes, q[i], q[i + 1]) {
      assert CombEdge(nodes, p[k + i], p[k + i + 1]);
    }
    assert CombPath(nodes, q) && q[|q| - 1] == 0 && q[0] == p[k];
  }

  /** And some path to the exit avoids it just when the body can. */
  lemma AvoidsIff(nodes: seq<Node>, head: nat, body: seq<Stmt>, w: string)
    requires CombGraphOf(nodes, head, body) && Combinational(body)
    ensures Avoids(nodes, 0, w) <==> CanAvoid(body, w)
  {
    if Avoids(nodes, 0, w) {
      var p: seq<nat> :| CombPath(nodes, p) && p[|p| - 1] == 0 && Fresh(nodes, p[0]) && Silent(nodes, p, w);
      OnlyHeadIsFresh(nodes, head, body, p[0]);
      PathIsWay(nodes, head, body, p, w);
    }
    if CanAvoid(body, w) {
      var p := WayIsPath(nodes, head, body, w, false);
      assert !HasPred(nodes, head);
      assert Fresh(nodes, p[0]);
    }
  }

  lemma OnlyHeadIsFresh(nodes: seq<Node>, head: nat, body: seq<Stmt>, n: nat)
    requires CombGraphOf(nodes, head, body) && Combinational(body) && n < |nodes| && Fresh(nodes, n)
    ensures n == head
  {
    if n != head {
      assert HasPred(nodes, n);
      var i: nat, j: nat :| EdgeAt(nodes, i, j, n) && nodes[i].succs[j].kind == TickEdge;
      var p, todo := FromHead(nodes, head, body, i);
      StandsOn(nodes, i, todo, j, "");
    }
  }

  lemma {:induction false} WritesBounded(nodes: seq<Node>, outputs: set<string>)
    requires forall m: nat :: m < |nodes| ==> nodes[m].writes <= outputs
    ensures AllWrites(nodes) <= outputs
  {
    if nodes != [] {
      assert nodes[0].writes <= outputs;
      forall m: nat | m < |nodes[1..]| ensures nodes[1..][m].writes <= outputs {
        assert nodes[1..][m] == nodes[m + 1];
      }
      WritesBounded(nodes[1..], outputs);
    }
  }

  lemma GraphWritesPorts(nodes: seq<Node>, head: nat, body: seq<Stmt>, outputs: set<string>)
    requires CombGraphOf(nodes, head, body) && Combinational(body) && PortsIn(body) <= outputs
    ensures AllWrites(nodes) <= outputs
  {
    forall m: nat | m < |nodes| ensures nodes[m].writes <= outputs {
      var p, todo := FromHead(nodes, head, body, m);
      if todo != [] {
        EdgesOut(nodes, m, todo);
        StandsOn(nodes, m, todo, 0, "");
      }
    }
    WritesBounded(nodes, outputs);
  }

  /** The outputs a combinational body would make latches of: those some choice of arms
    * drives and some other does not.
    */
  method CheckCombinational(body: seq<Stmt>, outputs: set<string>) returns (latches: set<string>)
    requires Combinational(body) && PortsIn(body) <= outputs
    ensures forall w :: w in latches <==> w in outputs && CanDrive(body, w) && CanAvoid(body, w)
  {
    var nodes, head := BuildCombinational(body, outputs);
    GraphWritesPorts(nodes, head, body, outputs);
    latches := CheckDefiniteAssignment(nodes, Some(0), outputs);
    forall w ensures Latch(nodes, 0, w) <==> CanDrive(body, w) && CanAvoid(body, w) {
      MayDriveIff(nodes, head, body, w);
      AvoidsIff(nodes, head, body, w);
    }
  }

  // ----- What it means for an evaluation --------------------------------------------------------------

  predicate DrivesPort(log: seq<Event>, w: string) {
    exists i :: 0 <= i < |log| && log[i].sink == OutPort(w)
  }

  lemma DrivesJoin(a: seq<Event>, b: seq<Event>, w: string)
    ensures DrivesPort(a + b, w) <==> DrivesPort(a, w) || DrivesPort(b, w)
  {
    if DrivesPort(a, w) {
      var i :| 0 <= i < |a| && a[i].sink == OutPort(w);
      assert (a + b)[i].sink == OutPort(w);
    }
    if DrivesPort(b, w) {
      var i :| 0 <= i < |b| && b[i].sink == OutPort(w);
      assert (a + b)[|a| + i].sink == OutPort(w);
    }
  }

  lemma {:induction false} EvaluationIsWay(env: Env, code: seq<Stmt>, st: State, w: string)
    requires Combinational(code) && !Breaks(code) && !Continues(code)
    ensures var r := Exec(env, code, st, Hold);
      r.next == Hold && if DrivesPort(r.log, w) then CanDrive(code, w) else CanAvoid(code, w)
    decreases code
  {
    if code != [] {
      var s, rest := code[0], code[1..];
      assert FlatStmt(s) && WrittenStmt(s) && !StmtContainsTick(s) && !StmtBreaks(s) && !StmtContinues(s);
      if s.Do? {
        var st' := Perform(env, s.action, st);
        EvaluationIsWay(env, rest, st', w);
        DrivesJoin(Emit(env, s.action, st), Exec(env, rest, st', Hold).log, w);
        ActionDrives(env, s.action, st, w);
      } else if s.Branch? {
        var i := Pick(env, s.sel, |s.arms|, st);
        ArmWays(s.arms, i, w);
        ArmJumps(s.arms, i);
        EvaluationIsWay(env, s.arms[i].body, st, w);
        var a := Exec(env, s.arms[i].body, st, Hold);
        EvaluationIsWay(env, rest, a.st, w);
        DrivesJoin(a.log, Exec(env, rest, a.st, Hold).log, w);
      }
    }
  }

  lemma ActionDrives(env: Env, a: Action, st: State, w: string)
    ensures DrivesPort(Emit(env, a, st), w) <==> w in PortsOf(a)
  {
    if w in PortsOf(a) {
      assert Emit(env, a, st)[0].sink == OutPort(w);
    }
  }

  lemma {:induction false} ArmJumps(arms: seq<Arm>, i: nat)
    requires i < |arms| && !ArmsBreak(arms) && !ArmsContinue(arms)
    ensures !Breaks(arms[i].body) && !Continues(arms[i].body)
  {
    if i > 0 {
      ArmJumps(arms[1..], i - 1);
    }
  }

  /** An output that is not reported is driven by every evaluation of the body or by none,
    * whatever the inputs: the circuit has nothing to remember.
    */
  lemma UnreportedIsNoLatch(body: seq<Stmt>, w: string, env: Env, st: State, env': Env, st': State)
    requires Combinational(body) && !Breaks(body) && !Continues(body)
    requires !(CanDrive(body, w) && CanAvoid(body, w))
    ensures DrivesPort(Exec(env, body, st, Hold).log, w) == DrivesPort(Exec(env', body, st', Hold).log, w)
  {
    EvaluationIsWay(env, body, st, w);
    EvaluationIsWay(env', body, st', w);
  }
}
