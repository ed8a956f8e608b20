/** When an input is sampled: a read that a tick still follows in its iteration waits for
  * the next clock edge, any other is taken at once. The classification is syntactic; the
  * graph says what it means.
  */
module ReadTiming {
  import opened Syntax
  import opened Scoping
  import opened Graphs
  import opened Cfg
  import opened Reachability
  import opened Nesting
  import opened Carried

  datatype Timing = Deferred | Immediate

  /** How many input reads an expression holds. */
  function InputReads(e: Expr): nat {
    match e
    case Input(_) => 1
    case Not(a) => InputReads(a)
    case AddU32(a, b) => InputReads(a) + InputReads(b)
    case Ge(a, b) => InputReads(a) + InputReads(b)
    case Apply(_, a, b) => InputReads(a) + InputReads(b)
    case _ => 0
  }

  function Times(t: Timing, n: nat): (r: seq<Timing>)
    ensures |r| == n && forall i :: 0 <= i < n ==> r[i] == t
  {
    seq(n, _ => t)
  }

  function Tagged(e: Expr, after: bool): seq<Timing> {
    Times(if after then Deferred else Immediate, InputReads(e))
  }

  /** What is driven onto a wire in a segment that assigns no register is not held back. */
  predicate Passthrough(a: Action, outputs: set<string>, combinational: bool) {
    combinational && a.Drive? && a.sink.OutPort? && a.sink.name in outputs
  }

  // ----- The classification, as a list ------------------------------------------------------------

  /** `tail`: does a tick follow the list within the iteration? */
  function Timings(stmts: seq<Stmt>, tail: bool, outputs: set<string>, combinational: bool): seq<Timing>
    decreases stmts
  {
    if stmts == [] then []
    else StmtTimings(stmts[0], tail || ContainsTick(stmts[1..]), outputs, combinational)
         + Timings(stmts[1..], tail, outputs, combinational)
  }

  function StmtTimings(s: Stmt, after: bool, outputs: set<string>, combinational: bool): seq<Timing>
    decreases s
  {
    match s
    case Do(a) => Tagged(ActionExpr(a), after && !Passthrough(a, outputs, combinational))
    case Branch(sel, arms) =>
      Tagged(sel, after || ArmsContainTick(arms)) + ArmTimings(arms, after, outputs, combinational)
    case While(_, body) => Controls(s, after) + Timings(body, false, outputs, combinational)
    case For(_, _, _, body) => Controls(s, after) + Timings(body, false, outputs, combinational)
    case Loop(body) => Controls(s, after) + Timings(body, false, outputs, combinational)
    case _ => []
  }

  /** The reads that control a nested loop: a condition, which is read again, or the bounds. */
  function Controls(s: Stmt, after: bool): seq<Timing> {
    match s
    case While(c, body) => Tagged(c, after || ContainsTick(body))
    case For(_, lo, hi, _) => Tagged(lo, after) + Tagged(hi, after)
    case _ => []
  }

  function ArmTimings(arms: seq<Arm>, after: bool, outputs: set<string>, combinational: bool): seq<Timing>
    decreases arms
  {
    if arms == [] then []
    else Timings(arms[0].body, after, outputs, combinational) + ArmTimings(arms[1..], after, outputs, combinational)
  }

  // ----- The classifier ------------------------------------------------------------------------------

  /** Appends a timing for every read, in source order. */
  class Classifier {
    const outputs: set<string>
    const combinational: bool
    var out: seq<Timing>

    constructor (outputs: set<string>, combinational: bool)
      ensures out == [] && this.outputs == outputs && this.combinational == combinational
    {
      this.outputs, this.combinational, out := outputs, combinational, [];
    }

    method CollectReads(e: Expr, after: bool)
      modifies this`out
      ensures out == old(out) + Tagged(e, after)
      decreases e
    {
      match e {
        case Input(_) => out := out + [if after then Deferred else Immediate];
        case Not(a) => CollectReads(a, after);
        case AddU32(a, b) => CollectReads(a, after); CollectReads(b, after);
        case Ge(a, b) => CollectReads(a, after); CollectReads(b, after);
        case Apply(_, a, b) => CollectReads(a, after); CollectReads(b, after);
        case Lit(_) =>
        case Var(_) =>
      }
    }

    method ClassifyBlock(stmts: seq<Stmt>, tail: bool)
      modifies this`out
      ensures out == old(out) + Timings(stmts, tail, outputs, combinational)
      decreases stmts, 1
    {
      for i := 0 to |stmts|
        invariant out + Timings(stmts[i..], tail, outputs, combinational) == old(out) + Timings(stmts, tail, outputs, combinational)
      {
        assert stmts[i..][1..] == stmts[i + 1..];
        var after := tail || ContainsTick(stmts[i + 1..]);
        ClassifyStmt(stmts[i], after);
      }
    }

    method ClassifyArms(arms: seq<Arm>, after: bool)
      modifies this`out
      ensures out == old(out) + ArmTimings(arms, after, outputs, combinational)
      decreases arms, 1
    {
      for i := 0 to |arms|
        invariant out + ArmTimings(arms[i..], after, outputs, combinational) == old(out) + ArmTimings(arms, after, outputs, combinational)
      {
        assert arms[i..][1..] == arms[i + 1..];
        ClassifyBlock(arms[i].body, after);
      }
    }

    method ClassifyStmt(s: Stmt, after: bool)
      modifies this`out
      ensures out == old(out) + StmtTimings(s, after, outputs, combinational)
      decreases s, 0
    {
      match s {
        case Do(a) =>
          CollectReads(ActionExpr(a), after && !Passthrough(a, outputs, combinational));
        case Branch(sel, arms) =>
          CollectReads(sel, after || ArmsContainTick(arms));
          ClassifyArms(arms, after);
        case While(_, _) => ClassifyLoop(s, after);
        case For(_, _, _, _) => ClassifyLoop(s, after);
        case Loop(_) => ClassifyLoop(s, after);
        case Tick =>
        case Break =>
        case Continue =>
        case SetPc(_) =>
        case Goto(_) =>
      }
    }

    /** A nested loop: what controls it, then its body as a fresh iteration. */
    method ClassifyLoop(s: Stmt, after: bool)
      requires s.While? || s.For? || s.Loop?
      modifies this`out
      ensures out == old(out) + StmtTimings(s, after, outputs, combinational)
      decreases s.body, 2
    {
      CollectControls(s, after);
      ClassifyBlock(s.body, false);
      Grouped(old(out), Controls(s, after), Timings(s.body, false, outputs, combinational));
    }

    method CollectControls(s: Stmt, after: bool)
      requires s.While? || s.For? || s.Loop?
      modifies this`out
      ensures out == old(out) + Controls(s, after)
    {
      if s.While? {
        CollectReads(s.cond, after || ContainsTick(s.body));
      } else if s.For? {
        CollectReads(s.lo, after);
        CollectReads(s.hi, after);
      }
    }
  }

  lemma Grouped<T>(a: seq<T>, b: seq<T>, c: seq<T>)
    ensures a + b + c == a + (b + c)
  {
  }

  // ----- What the graph says ---------------------------------------------------------------------------

  /** A path within the iteration, that is not through the head, to a tick. */
  predicate PathToTick(nodes: seq<Node>, p: seq<nat>) {
    && p != [] && (forall i :: 0 <= i < |p| ==> p[i] < |nodes| && p[i] != 0)
    && (forall i :: 0 <= i < |p| - 1 ==> Linked(nodes, p[i], p[i + 1]))
    && nodes[p[|p| - 1]].isTick
  }

  ghost predicate TickAhead(nodes: seq<Node>, n: nat) {
    exists p: seq<nat> :: PathToTick(nodes, p) && p[0] == n
  }

  lemma TickAheadStep(nodes: seq<Node>, n: nat, m: nat)
    requires n < |nodes| && n != 0 && Linked(nodes, n, m) && TickAhead(nodes, m)
    ensures TickAhead(nodes, n)
  {
    var p: seq<nat> :| PathToTick(nodes, p) && p[0] == m;
    var q := [n] + p;
    forall i | 0 <= i < |q| - 1 ensures Linked(nodes, q[i], q[i + 1]) {
      if i > 0 {
        assert Linked(nodes, p[i - 1], p[i]);
      }
    }
    assert PathToTick(nodes, q);
  }

  /** A tick ahead of a node that is none is ahead of one of its successors. */
  lemma TickAheadSplits(nodes: seq<Node>, n: nat) returns (j: nat)
    requires TickAhead(nodes, n) && n < |nodes| && !nodes[n].isTick
    ensures j < |nodes[n].succs| && TickAhead(nodes, nodes[n].succs[j].to)
  {
    var p: seq<nat> :| PathToTick(nodes, p) && p[0] == n;
    assert |p| > 1 && Linked(nodes, p[0], p[0 + 1]);
    j :| 0 <= j < |nodes[n].succs| && nodes[n].succs[j].to == p[1];
    var q := p[1..];
    forall i | 0 <= i < |q| - 1 ensures Linked(nodes, q[i], q[i + 1]) {
      assert Linked(nodes, p[i + 1], p[i + 1 + 1]);
    }
    assert PathToTick(nodes, q);
  }


  // ----- Getting to a tick ------------------------------------------------------------------------------

  /** Can control get from here to a tick before its loop starts over? A ticking loop counts as
    * one. A `continue` goes to the head; a `break` leaves a nested loop, and is nothing in the
    * module's own.
    */
  ghost predicate CanTick(todo: seq<Stmt>, nested: bool)
    decreases Size(todo)
  {
    if todo == [] then false else
    var s, rest := todo[0], todo[1..];
    assert Size(todo) == StmtSize(s) + Size(rest);
    if Clocks(s) then true
    else if s.Continue? || (s.Break? && nested) then false
    else if s.Branch? then
      exists i :: 0 <= i < |s.arms| && (ArmSizeBound(s.arms, i); SizeAppend(s.arms[i].body, rest);
                                        CanTick(s.arms[i].body + rest, nested))
    else CanTick(rest, nested)
  }

  /** The nodes of a loop's graph: nothing leads on from where a `break` goes. */
  predicate LoopNodes(nodes: seq<Node>, nested: bool) {
    nodes != [] && InRange(nodes) && (nested ==> |nodes| >= 2 && nodes[1] == EMPTY)
  }

  lemma NothingAheadOfJump(nodes: seq<Node>, n: nat, nested: bool)
    requires LoopNodes(nodes, nested) && n < |nodes| && (nodes[n] == JumpNode(0) || (nested && nodes[n] == JumpNode(1)))
    ensures !TickAhead(nodes, n)
  {
    if TickAhead(nodes, n) {
      var j := TickAheadSplits(nodes, n);
      if nodes[n].succs[j].to == 1 {
        var k := TickAheadSplits(nodes, 1);
      }
    }
  }

  /** The graph has a tick ahead of a node exactly when the source can get to one. */
  lemma {:induction false} TickAheadIff(nodes: seq<Node>, n: nat, todo: seq<Stmt>, nested: bool)
    requires LoopNodes(nodes, nested) && Wired(nodes, n, todo, LoopTargets(nested))
    ensures TickAhead(nodes, n) <==> CanTick(todo, nested)
    decreases Size(todo), 1
  {
    if todo != [] {
      var s, rest := todo[0], todo[1..];
      assert Size(todo) == StmtSize(s) + Size(rest);
      if s.Branch? {
        BranchTickAhead(nodes, n, todo, nested);
      } else if Clocks(s) {
        assert PathToTick(nodes, [n]);
      } else if s.Continue? || (s.Break? && nested) {
        NothingAheadOfJump(nodes, n, nested);
      } else {
        var next := nodes[n].succs[0].to;
        assert Linked(nodes, n, next);
        TickAheadIff(nodes, next, rest, nested);
        if TickAhead(nodes, n) {
          var j := TickAheadSplits(nodes, n);
        }
        if TickAhead(nodes, next) {
          TickAheadStep(nodes, n, next);
        }
      }
    }
  }

  lemma {:induction false} ArmTickAhead(nodes: seq<Node>, n: nat, todo: seq<Stmt>, i: nat, nested: bool)
    requires LoopNodes(nodes, nested) && Wired(nodes, n, todo, LoopTargets(nested))
    requires todo != [] && todo[0].Branch? && i < |todo[0].arms|
    ensures n < |nodes| && n != 0 && !nodes[n].isTick && |nodes[n].succs| == |todo[0].arms|
    ensures TickAhead(nodes, nodes[n].succs[i].to) <==> CanTick(todo[0].arms[i].body + todo[1..], nested)
    decreases Size(todo), 0, 0
  {
    var s, rest := todo[0], todo[1..];
    assert Size(todo) == StmtSize(s) + Size(rest);
    ArmSizeBound(s.arms, i);
    SizeAppend(s.arms[i].body, rest);
    TickAheadIff(nodes, nodes[n].succs[i].to, s.arms[i].body + rest, nested);
  }

  lemma {:induction false} BranchTickAhead(nodes: seq<Node>, n: nat, todo: seq<Stmt>, nested: bool)
    requires LoopNodes(nodes, nested) && Wired(nodes, n, todo, LoopTargets(nested))
    requires todo != [] && todo[0].Branch?
    ensures TickAhead(nodes, n) <==> CanTick(todo, nested)
    decreases Size(todo), 0, 1
  {
    var arms, rest := todo[0].arms, todo[1..];
    assert Size(todo) == StmtSize(todo[0]) + Size(rest) && |arms| > 0;
    ArmTickAhead(nodes, n, todo, 0, nested);
    if TickAhead(nodes, n) {
      var j := TickAheadSplits(nodes, n);
      ArmTickAhead(nodes, n, todo, j, nested);
    }
    if CanTick(todo, nested) {
      var i :| 0 <= i < |arms| && CanTick(arms[i].body + rest, nested);
      ArmTickAhead(nodes, n, todo, i, nested);
      assert Linked(nodes, n, nodes[n].succs[i].to);
      TickAheadStep(nodes, n, nodes[n].succs[i].to);
    }
  }

  lemma {:induction false} CanTickFindsOne(todo: seq<Stmt>, nested: bool)
    requires CanTick(todo, nested)
    ensures ContainsTick(todo)
    decreases Size(todo)
  {
    var s, rest := todo[0], todo[1..];
    assert Size(todo) == StmtSize(s) + Size(rest);
    if s.Branch? {
      var i :| 0 <= i < |s.arms| && CanTick(s.arms[i].body + rest, nested);
      ArmSizeBound(s.arms, i);
      SizeAppend(s.arms[i].body, rest);
      CanTickFindsOne(s.arms[i].body + rest, nested);
      ControlAppend(s.arms[i].body, rest);
      ArmControl(s.arms, i);
      assert StmtContainsTick(s) == ArmsContainTick(s.arms);
    } else if !Clocks(s) {
      CanTickFindsOne(rest, nested);
    }
  }

  /** No `break` and no `continue`: control leaves the list at its end only. */
  predicate Calm(stmts: seq<Stmt>) {
    !Breaks(stmts) && !Continues(stmts) && Written(stmts)
  }

  /** Where nothing jumps, every tick there is can be got to. */
  lemma {:induction false} CalmTicks(todo: seq<Stmt>, nested: bool)
    requires Calm(todo)
    ensures CanTick(todo, nested) <==> ContainsTick(todo)
    decreases Size(todo)
  {
    if todo != [] {
      var s, rest := todo[0], todo[1..];
      assert Size(todo) == StmtSize(s) + Size(rest);
      assert WrittenStmt(s) && !StmtBreaks(s) && !StmtContinues(s);
      if s.Branch? {
        forall i | 0 <= i < |s.arms|
          ensures CanTick(s.arms[i].body + rest, nested) <==> ContainsTick(s.arms[i].body) || ContainsTick(rest)
        {
          CalmArm(s.arms, i);
          CalmAppend(s.arms[i].body, rest);
          ArmSizeBound(s.arms, i);
          SizeAppend(s.arms[i].body, rest);
          CalmTicks(s.arms[i].body + rest, nested);
        }
        ArmsTick(s.arms);
        assert StmtContainsTick(s) == ArmsContainTick(s.arms);
        assert CanTick(s.arms[0].body + rest, nested) == (ContainsTick(s.arms[0].body) || ContainsTick(rest));
      } else {
        CalmTicks(rest, nested);
      }
    }
  }

  lemma CalmAppend(a: seq<Stmt>, b: seq<Stmt>)
    requires Calm(a) && Calm(b)
    ensures Calm(a + b) && ContainsTick(a + b) == (ContainsTick(a) || ContainsTick(b))
  {
    ControlAppend(a, b);
    WrittenAppend(a, b);
  }

  lemma CalmArm(arms: seq<Arm>, i: nat)
    requires i < |arms| && !ArmsBreak(arms) && !ArmsContinue(arms) && ArmsWritten(arms)
    ensures Calm(arms[i].body)
  {
    ArmControl(arms, i);
    ArmWritten(arms, i);
  }

  lemma {:induction false} ArmsTick(arms: seq<Arm>)
    ensures ArmsContainTick(arms) <==> exists i :: 0 <= i < |arms| && ContainsTick(arms[i].body)
  {
    if arms != [] {
      ArmsTick(arms[1..]);
      if ArmsContainTick(arms[1..]) {
        var i :| 0 <= i < |arms[1..]| && ContainsTick(arms[1..][i].body);
        assert arms[i + 1] == arms[1..][i];
      }
      forall i | 0 <= i < |arms| && ContainsTick(arms[i].body) ensures ArmsContainTick(arms) {
        if i > 0 {
          assert arms[1..][i - 1] == arms[i];
        }
      }
    }
  }

  // ----- The reads of a loop, and where they stand --------------------------------------------------------

  /** What a read is for: the bounds of a counted loop, which are read once in front of it, a value
    * driven onto a combinational output, or anything else.
    */
  datatype Role = Plain | Bounds | Wire

  /** A read: the body of the innermost loop around it, what is left to run there from its
    * statement on, and its role.
    */
  datatype Read = Read(home: seq<Stmt>, todo: seq<Stmt>, role: Role)
  {
    /** What decides its timing: its statement and what follows, or only what follows the loop
      * whose bounds it reads.
      */
    function From(): seq<Stmt> {
      if role.Bounds? && todo != [] then todo[1..] else todo
    }
  }

  function Copies(n: nat, r: Read): (rs: seq<Read>)
    ensures |rs| == n && forall i :: 0 <= i < n ==> rs[i] == r
  {
    seq(n, _ => r)
  }

  /** The reads of a list in source order. A nested loop's body is a home of its own, at the end
    * of which nothing is left to run.
    */
  function ReadsIn(stmts: seq<Stmt>, rest: seq<Stmt>, home: seq<Stmt>, outputs: set<string>): seq<Read>
    decreases stmts
  {
    if stmts == [] then [] else ReadsOf(stmts[0], stmts[1..] + rest, home, outputs) + ReadsIn(stmts[1..], rest, home, outputs)
  }

  function ReadsOf(s: Stmt, rest: seq<Stmt>, home: seq<Stmt>, outputs: set<string>): seq<Read>
    decreases s
  {
    var todo := [s] + rest;
    match s
    case Do(a) =>
      var wire := a.Drive? && a.sink.OutPort? && a.sink.name in outputs;
      Copies(InputReads(ActionExpr(a)), Read(home, todo, if wire then Wire else Plain))
    case Branch(sel, arms) => Copies(InputReads(sel), Read(home, todo, Plain)) + ArmReads(arms, rest, home, outputs)
    case Loop(body) => ReadsIn(body, [], body, outputs)
    case While(c, body) => Copies(InputReads(c), Read(home, todo, Plain)) + ReadsIn(body, [], body, outputs)
    case For(_, lo, hi, body) =>
      Copies(InputReads(lo) + InputReads(hi), Read(home, todo, Bounds)) + ReadsIn(body, [], body, outputs)
    case _ => []
  }

  function ArmReads(arms: seq<Arm>, rest: seq<Stmt>, home: seq<Stmt>, outputs: set<string>): seq<Read>
    decreases arms
  {
    if arms == [] then [] else ReadsIn(arms[0].body, rest, home, outputs) + ArmReads(arms[1..], rest, home, outputs)
  }

  /** A place of the loop with this body, or of one nested in `stmts`. */
  ghost predicate PlacedIn(stmts: seq<Stmt>, rest: seq<Stmt>, home: seq<Stmt>, r: Read) {
    (r.home == home && r.todo in Spots(stmts, rest)) || exists s <- Everywhere(stmts) :: NestedPlace(s, r)
  }

  predicate NestedPlace(s: Stmt, r: Read) {
    Nests(s) && r.home == s.body && r.todo in Spots(s.body, [])
  }

  /** The bounds of a counted loop are read where the loop stands. */
  predicate RoleFits(r: Read) {
    r.todo != [] && (r.role.Bounds? ==> r.todo[0].For?)
  }

  lemma {:induction false} ReadsPlaced(stmts: seq<Stmt>, rest: seq<Stmt>, home: seq<Stmt>, outputs: set<string>, r: Read)
    requires r in ReadsIn(stmts, rest, home, outputs)
    ensures PlacedIn(stmts, rest, home, r) && RoleFits(r)
    decreases stmts, 1
  {
    var s, more := stmts[0], stmts[1..];
    assert Everywhere(stmts) == {s} + Inside(s) + Everywhere(more);
    if r in ReadsOf(s, more + rest, home, outputs) {
      ReadsOfPlaced(s, more + rest, home, outputs, r);
      if !(r.home == home && r.todo in StmtSpots(s, more + rest)) {
        var y :| y in {s} + Inside(s) && NestedPlace(y, r);
        assert y in Everywhere(stmts);
      }
    } else {
      ReadsPlaced(more, rest, home, outputs, r);
      if !(r.home == home && r.todo in Spots(more, rest)) {
        var y :| y in Everywhere(more) && NestedPlace(y, r);
        assert y in Everywhere(stmts);
      }
    }
  }

  lemma {:induction false} ReadsOfPlaced(s: Stmt, rest: seq<Stmt>, home: seq<Stmt>, outputs: set<string>, r: Read)
    requires r in ReadsOf(s, rest, home, outputs)
    ensures (r.home == home && r.todo in StmtSpots(s, rest)) || exists y <- {s} + Inside(s) :: NestedPlace(y, r)
    ensures RoleFits(r)
    decreases s, 0
  {
    assert [s] + rest in StmtSpots(s, rest);
    if s.Branch? && r in ArmReads(s.arms, rest, home, outputs) {
      ArmReadsPlaced(s.arms, rest, home, outputs, r);
    } else if Nests(s) && r in ReadsIn(s.body, [], s.body, outputs) {
      ReadsPlaced(s.body, [], s.body, outputs, r);
      assert Inside(s) == Everywhere(s.body) && s in {s} + Inside(s);
      if !NestedPlace(s, r) {
        var y :| y in Everywhere(s.body) && NestedPlace(y, r);
        assert y in {s} + Inside(s);
      }
    }
  }

  lemma {:induction false} ArmReadsPlaced(arms: seq<Arm>, rest: seq<Stmt>, home: seq<Stmt>, outputs: set<string>, r: Read)
    requires r in ArmReads(arms, rest, home, outputs)
    ensures (r.home == home && r.todo in ArmSpots(arms, rest)) || exists s <- InsideArms(arms) :: NestedPlace(s, r)
    ensures RoleFits(r)
    decreases arms, 0
  {
    assert InsideArms(arms) == Everywhere(arms[0].body) + InsideArms(arms[1..]);
    if r in ReadsIn(arms[0].body, rest, home, outputs) {
      ReadsPlaced(arms[0].body, rest, home, outputs, r);
      if !(r.home == home && r.todo in Spots(arms[0].body, rest)) {
        var y :| y in Everywhere(arms[0].body) && NestedPlace(y, r);
        assert y in InsideArms(arms);
      }
    } else {
      ArmReadsPlaced(arms[1..], rest, home, outputs, r);
      if !(r.home == home && r.todo in ArmSpots(arms[1..], rest)) {
        var y :| y in InsideArms(arms[1..]) && NestedPlace(y, r);
        assert y in InsideArms(arms);
      }
    }
  }

  /** The statement reads an input itself. */
  ghost predicate Samples(s: Stmt) {
    exists e <- Evaluates(s) :: InputReads(e) > 0
  }

  lemma {:induction false} InputReadsArePorts(e: Expr)
    ensures InputReads(e) > 0 <==> exists port :: Input(port) in Parts(e)
  {
    match e
    case Input(p) => assert Input(p) in Parts(e);
    case Not(a) => InputReadsArePorts(a);
    case AddU32(a, b) => InputReadsArePorts(a); InputReadsArePorts(b);
    case Ge(a, b) => InputReadsArePorts(a); InputReadsArePorts(b);
    case Apply(_, a, b) => InputReadsArePorts(a); InputReadsArePorts(b);
    case _ =>
  }

  ghost predicate Listed(places: seq<Read>, home: seq<Stmt>, todo: seq<Stmt>) {
    exists r <- places :: r.home == home && r.todo == todo
  }

  /** Every statement that reads an input is listed, at its place. */
  lemma {:induction false} SamplesListed(stmts: seq<Stmt>, rest: seq<Stmt>, home: seq<Stmt>, outputs: set<string>, todo: seq<Stmt>)
    requires todo in Spots(stmts, rest) && todo != [] && Samples(todo[0])
    ensures Listed(ReadsIn(stmts, rest, home, outputs), home, todo)
    decreases stmts, 1
  {
    var s, more := stmts[0], stmts[1..] + rest;
    if todo in StmtSpots(s, more) {
      SamplesOfListed(s, more, home, outputs, todo);
      var r :| r in ReadsOf(s, more, home, outputs) && r.home == home && r.todo == todo;
      assert r in ReadsIn(stmts, rest, home, outputs);
    } else {
      SamplesListed(stmts[1..], rest, home, outputs, todo);
      var r :| r in ReadsIn(stmts[1..], rest, home, outputs) && r.home == home && r.todo == todo;
      assert r in ReadsIn(stmts, rest, home, outputs);
    }
  }

  lemma {:induction false} SamplesOfListed(s: Stmt, rest: seq<Stmt>, home: seq<Stmt>, outputs: set<string>, todo: seq<Stmt>)
    requires todo in StmtSpots(s, rest) && todo != [] && Samples(todo[0])
    ensures Listed(ReadsOf(s, rest, home, outputs), home, todo)
    decreases s, 0
  {
    var all := ReadsOf(s, rest, home, outputs);
    if todo == [s] + rest {
      assert all != [] && all[0].home == home && all[0].todo == todo && all[0] in all;
    } else {
      ArmSamplesListed(s.arms, rest, home, outputs, todo);
      var r :| r in ArmReads(s.arms, rest, home, outputs) && r.home == home && r.todo == todo;
      assert r in all;
    }
  }

  lemma {:induction false} ArmSamplesListed(arms: seq<Arm>, rest: seq<Stmt>, home: seq<Stmt>, outputs: set<string>, todo: seq<Stmt>)
    requires todo in ArmSpots(arms, rest) && todo != [] && Samples(todo[0])
    ensures Listed(ArmReads(arms, rest, home, outputs), home, todo)
    decreases arms, 0
  {
    var all := ArmReads(arms, rest, home, outputs);
    if todo in Spots(arms[0].body, rest) {
      SamplesListed(arms[0].body, rest, home, outputs, todo);
      var r :| r in ReadsIn(arms[0].body, rest, home, outputs) && r.home == home && r.todo == todo;
      assert r in all;
    } else {
      ArmSamplesListed(arms[1..], rest, home, outputs, todo);
      var r :| r in ArmReads(arms[1..], rest, home, outputs) && r.home == home && r.todo == todo;
      assert r in all;
    }
  }

  /** The reads of a nested loop are among those of the list it is in. */
  lemma {:induction false} NestedReadsListed(stmts: seq<Stmt>, rest: seq<Stmt>, home: seq<Stmt>, outputs: set<string>, s: Stmt, r: Read)
    requires s in Everywhere(stmts) && Nests(s) && r in ReadsIn(s.body, [], s.body, outputs)
    ensures r in ReadsIn(stmts, rest, home, outputs)
    decreases stmts, 1
  {
    assert Everywhere(stmts) == {stmts[0]} + Inside(stmts[0]) + Everywhere(stmts[1..]);
    if s in Everywhere(stmts[1..]) {
      NestedReadsListed(stmts[1..], rest, home, outputs, s, r);
    } else {
      var top, more := stmts[0], stmts[1..] + rest;
      if top.Branch? {
        NestedArmReadsListed(top.arms, more, home, outputs, s, r);
      } else if s != top {
        NestedReadsListed(top.body, [], top.body, outputs, s, r);
      }
      assert r in ReadsOf(top, more, home, outputs);
    }
  }

  lemma {:induction false} NestedArmReadsListed(arms: seq<Arm>, rest: seq<Stmt>, home: seq<Stmt>, outputs: set<string>, s: Stmt, r: Read)
    requires s in InsideArms(arms) && Nests(s) && r in ReadsIn(s.body, [], s.body, outputs)
    ensures r in ArmReads(arms, rest, home, outputs)
    decreases arms, 0
  {
    assert InsideArms(arms) == Everywhere(arms[0].body) + InsideArms(arms[1..]);
    if s in Everywhere(arms[0].body) {
      NestedReadsListed(arms[0].body, rest, home, outputs, s, r);
    } else {
      NestedArmReadsListed(arms[1..], rest, home, outputs, s, r);
    }
  }

  /** Every statement of the loop, and of every loop nested in it, that reads an input has a timing
    * at its place.
    */
  lemma EverySampleIsTimed(body: seq<Stmt>, outputs: set<string>, home: seq<Stmt>, todo: seq<Stmt>)
    requires home == body || exists s <- Everywhere(body) :: Nests(s) && s.body == home
    requires todo in Spots(home, []) && todo != [] && Samples(todo[0])
    ensures Listed(ReadsIn(body, [], body, outputs), home, todo)
  {
    SamplesListed(home, [], home, outputs, todo);
    if home != body {
      var s :| s in Everywhere(body) && Nests(s) && s.body == home;
      var r :| r in ReadsIn(home, [], home, outputs) && r.home == home && r.todo == todo;
      NestedReadsListed(body, [], body, outputs, s, r);
    }
  }

  // ----- The timing is in the text -------------------------------------------------------------------------

  /** Deferred exactly where a tick is still to come; what is driven onto a wire never is in a
    * module without registers.
    */
  predicate Matching(timings: seq<Timing>, places: seq<Read>, combinational: bool) {
    |timings| == |places| && forall k :: 0 <= k < |places| ==> Fits(timings[k], places[k], combinational)
  }

  predicate Fits(timing: Timing, r: Read, combinational: bool) {
    r.todo != [] && (timing == Deferred <==> !(combinational && r.role.Wire?) && ContainsTick(r.From()))
  }

  lemma MatchingJoin(a: seq<Timing>, ra: seq<Read>, b: seq<Timing>, rb: seq<Read>, combinational: bool)
    requires Matching(a, ra, combinational) && Matching(b, rb, combinational)
    ensures Matching(a + b, ra + rb, combinational)
  {
  }

  lemma MatchingCopies(e: Expr, after: bool, r: Read, combinational: bool)
    requires r.todo != [] && (after <==> !(combinational && r.role.Wire?) && ContainsTick(r.From()))
    ensures Matching(Tagged(e, after), Copies(InputReads(e), r), combinational)
  {
  }

  lemma {:induction false} TimingsMatch(stmts: seq<Stmt>, rest: seq<Stmt>, home: seq<Stmt>, outputs: set<string>, comb: bool)
    ensures Matching(Timings(stmts, ContainsTick(rest), outputs, comb), ReadsIn(stmts, rest, home, outputs), comb)
    decreases stmts, 1
  {
    if stmts != [] {
      ControlAppend(stmts[1..], rest);
      StmtTimingsMatch(stmts[0], stmts[1..] + rest, home, outputs, comb);
      TimingsMatch(stmts[1..], rest, home, outputs, comb);
      MatchingJoin(StmtTimings(stmts[0], ContainsTick(stmts[1..] + rest), outputs, comb), ReadsOf(stmts[0], stmts[1..] + rest, home, outputs),
                   Timings(stmts[1..], ContainsTick(rest), outputs, comb), ReadsIn(stmts[1..], rest, home, outputs), comb);
    }
  }

  lemma ActionTimingMatches(a: Action, rest: seq<Stmt>, home: seq<Stmt>, outputs: set<string>, comb: bool)
    ensures Matching(StmtTimings(Do(a), ContainsTick(rest), outputs, comb), ReadsOf(Do(a), rest, home, outputs), comb)
  {
    var todo := [Do(a)] + rest;
    var wire := a.Drive? && a.sink.OutPort? && a.sink.name in outputs;
    assert todo[1..] == rest && ContainsTick(todo) == ContainsTick(rest);
    MatchingCopies(ActionExpr(a), ContainsTick(rest) && !Passthrough(a, outputs, comb), Read(home, todo, if wire then Wire else Plain), comb);
  }

  lemma {:induction false} StmtTimingsMatch(s: Stmt, rest: seq<Stmt>, home: seq<Stmt>, outputs: set<string>, comb: bool)
    ensures Matching(StmtTimings(s, ContainsTick(rest), outputs, comb), ReadsOf(s, rest, home, outputs), comb)
    decreases s, 0
  {
    var after, todo := ContainsTick(rest), [s] + rest;
    assert todo[1..] == rest && ContainsTick(todo) == (StmtContainsTick(s) || after);
    match s
    case Do(a) => ActionTimingMatches(a, rest, home, outputs, comb);
    case Branch(sel, arms) =>
      MatchingCopies(sel, after || ArmsContainTick(arms), Read(home, todo, Plain), comb);
      ArmTimingsMatch(arms, rest, home, outputs, comb);
      MatchingJoin(Tagged(sel, after || ArmsContainTick(arms)), Copies(InputReads(sel), Read(home, todo, Plain)),
                   ArmTimings(arms, after, outputs, comb), ArmReads(arms, rest, home, outputs), comb);
    case Loop(_) => LoopTimingsMatch(s, rest, home, outputs, comb);
    case While(_, _) => LoopTimingsMatch(s, rest, home, outputs, comb);
    case For(_, _, _, _) => LoopTimingsMatch(s, rest, home, outputs, comb);
    case _ =>
  }

  lemma {:induction false} LoopTimingsMatch(s: Stmt, rest: seq<Stmt>, home: seq<Stmt>, outputs: set<string>, comb: bool)
    requires Nests(s)
    ensures Matching(StmtTimings(s, ContainsTick(rest), outputs, comb), ReadsOf(s, rest, home, outputs), comb)
    decreases s.body, 2
  {
    var after, todo := ContainsTick(rest), [s] + rest;
    assert todo[1..] == rest && ContainsTick(todo) == (StmtContainsTick(s) || after);
    TimingsMatch(s.body, [], s.body, outputs, comb);
    if s.While? {
      MatchingCopies(s.cond, after || ContainsTick(s.body), Read(home, todo, Plain), comb);
      MatchingJoin(Controls(s, after), Copies(InputReads(s.cond), Read(home, todo, Plain)),
                   Timings(s.body, false, outputs, comb), ReadsIn(s.body, [], s.body, outputs), comb);
    } else if s.For? {
      MatchingJoin(Controls(s, after), Copies(InputReads(s.lo) + InputReads(s.hi), Read(home, todo, Bounds)),
                   Timings(s.body, false, outputs, comb), ReadsIn(s.body, [], s.body, outputs), comb);
    }
  }

  lemma {:induction false} ArmTimingsMatch(arms: seq<Arm>, rest: seq<Stmt>, home: seq<Stmt>, outputs: set<string>, comb: bool)
    ensures Matching(ArmTimings(arms, ContainsTick(rest), outputs, comb), ArmReads(arms, rest, home, outputs), comb)
    decreases arms, 1
  {
    if arms != [] {
      TimingsMatch(arms[0].body, rest, home, outputs, comb);
      ArmTimingsMatch(arms[1..], rest, home, outputs, comb);
      MatchingJoin(Timings(arms[0].body, ContainsTick(rest), outputs, comb), ReadsIn(arms[0].body, rest, home, outputs),
                   ArmTimings(arms[1..], ContainsTick(rest), outputs, comb), ArmReads(arms[1..], rest, home, outputs), comb);
    }
  }

  // ----- The timing is in the graph -------------------------------------------------------------------------

  /** The graph `h` is that of the loop with body `home`: the module's own, or one nested in it. */
  ghost predicate GraphFor(g: Graph, body: seq<Stmt>, h: Graph, home: seq<Stmt>, nested: bool) {
    if nested then Among(g.nested, h) && SubGraphOf(h, home) else h == g && home == body
  }

  /** The place has a node, and so has what follows the loop whose bounds are read there. */
  lemma SpotHasNode(nodes: seq<Node>, lo: nat, home: seq<Stmt>, r: Read, nested: bool) returns (n: nat)
    requires Seated(nodes, lo, |nodes|, Spots(home, []), LoopTargets(nested)) && r.todo in Spots(home, []) && RoleFits(r)
    ensures Wired(nodes, n, r.From(), LoopTargets(nested))
  {
    assert SeatOf(nodes, lo, |nodes|, r.todo, LoopTargets(nested));
    n :| lo <= n < |nodes| && Wired(nodes, n, r.todo, LoopTargets(nested));
    if r.role.Bounds? {
      assert Size(r.todo) == StmtSize(r.todo[0]) + Size(r.todo[1..]);
      n := nodes[n].succs[0].to;
    }
  }

  /** Every read stands at a place of the loop it is in. */
  lemma ReadIsHome(body: seq<Stmt>, outputs: set<string>, r: Read)
    requires r in ReadsIn(body, [], body, outputs)
    ensures RoleFits(r) && r.todo in Spots(r.home, [])
    ensures r.home != body ==> exists s <- Everywhere(body) :: NestedPlace(s, r)
  {
    ReadsPlaced(body, [], body, outputs, r);
  }

  /** Every read is at a node of the graph of its loop, unless that is a nested one without a tick. */
  lemma ReadHasNode(g: Graph, body: seq<Stmt>, outputs: set<string>, r: Read) returns (h: Graph, n: nat)
    requires GraphOf(g, body) && r in ReadsIn(body, [], body, outputs) && (r.home == body || ContainsTick(r.home))
    ensures GraphFor(g, body, h, r.home, r.home != body) && Wired(h.nodes, n, r.From(), LoopTargets(r.home != body))
  {
    ReadIsHome(body, outputs, r);
    if r.home == body {
      h := g;
      n := SpotHasNode(g.nodes, 1, body, r, false);
    } else {
      var s :| s in Everywhere(body) && NestedPlace(s, r);
      h := NestedGraph(g.nested, body, s);
      n := SpotHasNode(h.nodes, 2, s.body, r, true);
    }
  }

  lemma GraphForNodes(g: Graph, body: seq<Stmt>, h: Graph, home: seq<Stmt>, nested: bool)
    requires GraphOf(g, body) && GraphFor(g, body, h, home, nested)
    ensures LoopNodes(h.nodes, nested)
  {
    if nested {
      SubGraphOk(h, home);
    }
  }

  // ----- The two agree ------------------------------------------------------------------------------------------

  /** In the module's own loop and in every nested one, a read is deferred exactly when a tick is
    * still to come in the text of its loop, and its node has a path to a tick that does not pass
    * that loop's head exactly when control can get to one. So the two agree exactly where no
    * tick is cut off by a jump. The bounds of a counted loop go by what follows it; what is
    * driven onto a wire is never deferred in a module without registers.
    */
  lemma TimingAgreesUnlessCutOff(g: Graph, body: seq<Stmt>, outputs: set<string>, comb: bool, k: nat, h: Graph, nested: bool, n: nat)
    requires GraphOf(g, body) && k < |ReadsIn(body, [], body, outputs)|
    requires var r := ReadsIn(body, [], body, outputs)[k];
      GraphFor(g, body, h, r.home, nested) && Wired(h.nodes, n, r.From(), LoopTargets(nested))
    ensures |Timings(body, false, outputs, comb)| == |ReadsIn(body, [], body, outputs)|
    ensures var timing, r := Timings(body, false, outputs, comb)[k], ReadsIn(body, [], body, outputs)[k];
      if comb && r.role.Wire? then timing == Immediate
      else (timing == Deferred <==> TickAhead(h.nodes, n)) <==> (ContainsTick(r.From()) ==> CanTick(r.From(), nested))
  {
    TimingsMatch(body, [], body, outputs, comb);
    var timing, r := Timings(body, false, outputs, comb)[k], ReadsIn(body, [], body, outputs)[k];
    assert Fits(timing, r, comb);
    GraphForNodes(g, body, h, r.home, nested);
    TickAheadIff(h.nodes, n, r.From(), nested);
    if CanTick(r.From(), nested) {
      CanTickFindsOne(r.From(), nested);
    }
  }

  lemma {:induction false} SpotsCalm(stmts: seq<Stmt>, rest: seq<Stmt>, todo: seq<Stmt>)
    requires Calm(stmts) && Calm(rest) && todo in Spots(stmts, rest)
    ensures todo != [] && Calm(todo) && Calm(todo[1..])
    decreases stmts, 1
  {
    var s, more := stmts[0], stmts[1..] + rest;
    CalmAppend(stmts[1..], rest);
    if todo in StmtSpots(s, more) {
      assert ([s] + more)[1..] == more && ([s] + more)[0] == s;
      assert WrittenStmt(s) && !StmtBreaks(s) && !StmtContinues(s);
      if s.Branch? && todo in ArmSpots(s.arms, more) {
        ArmSpotsCalm(s.arms, more, todo);
      }
    } else {
      SpotsCalm(stmts[1..], rest, todo);
    }
  }

  lemma {:induction false} ArmSpotsCalm(arms: seq<Arm>, rest: seq<Stmt>, todo: seq<Stmt>)
    requires !ArmsBreak(arms) && !ArmsContinue(arms) && ArmsWritten(arms) && Calm(rest) && todo in ArmSpots(arms, rest)
    ensures todo != [] && Calm(todo) && Calm(todo[1..])
    decreases arms, 0
  {
    if todo in Spots(arms[0].body, rest) {
      SpotsCalm(arms[0].body, rest, todo);
    } else {
      ArmSpotsCalm(arms[1..], rest, todo);
    }
  }

  lemma {:induction false} SpotTicks(stmts: seq<Stmt>, rest: seq<Stmt>, todo: seq<Stmt>)
    requires todo in Spots(stmts, rest) && ContainsTick(todo)
    ensures ContainsTick(stmts) || ContainsTick(rest)
    decreases stmts, 1
  {
    var s, more := stmts[0], stmts[1..] + rest;
    ControlAppend(stmts[1..], rest);
    if todo in StmtSpots(s, more) {
      assert ([s] + more)[1..] == more && ([s] + more)[0] == s;
      if s.Branch? && todo in ArmSpots(s.arms, more) {
        ArmSpotTicks(s.arms, more, todo);
      }
    } else {
      SpotTicks(stmts[1..], rest, todo);
    }
  }

  lemma {:induction false} ArmSpotTicks(arms: seq<Arm>, rest: seq<Stmt>, todo: seq<Stmt>)
    requires todo in ArmSpots(arms, rest) && ContainsTick(todo)
    ensures ArmsContainTick(arms) || ContainsTick(rest)
    decreases arms, 0
  {
    if todo in Spots(arms[0].body, rest) {
      SpotTicks(arms[0].body, rest, todo);
    } else {
      ArmSpotTicks(arms[1..], rest, todo);
    }
  }

  /** The read stands at a node of its loop's graph, and has this timing there exactly when the node
    * has a path to a tick that does not pass the head.
    */
  ghost predicate TimedByGraph(g: Graph, body: seq<Stmt>, r: Read, timing: Timing) {
    exists h: Graph, n: nat ::
      && GraphFor(g, body, h, r.home, r.home != body) && Wired(h.nodes, n, r.From(), LoopTargets(r.home != body))
      && (timing == Deferred <==> TickAhead(h.nodes, n))
  }

  /** With no jump of its own in the loop a read is in, the graph says all: the read stands at a node
    * of that loop's graph, and is deferred exactly when the graph has a path from there to a
    * tick that does not pass the head. In a nested loop without a tick nothing is deferred.
    */
  lemma TimingAgreesWithGraph(g: Graph, body: seq<Stmt>, outputs: set<string>, comb: bool, k: nat)
    requires GraphOf(g, body) && k < |ReadsIn(body, [], body, outputs)| && Calm(ReadsIn(body, [], body, outputs)[k].home)
    ensures |Timings(body, false, outputs, comb)| == |ReadsIn(body, [], body, outputs)|
    ensures var timing, r := Timings(body, false, outputs, comb)[k], ReadsIn(body, [], body, outputs)[k];
      if comb && r.role.Wire? then timing == Immediate
      else if r.home == body || ContainsTick(r.home) then TimedByGraph(g, body, r, timing)
      else timing == Immediate
  {
    TimingsMatch(body, [], body, outputs, comb);
    var timing, r := Timings(body, false, outputs, comb)[k], ReadsIn(body, [], body, outputs)[k];
    assert Fits(timing, r, comb);
    ReadIsHome(body, outputs, r);
    if r.home == body || ContainsTick(r.home) {
      var h, n := ReadHasNode(g, body, outputs, r);
      TimingAgreesUnlessCutOff(g, body, outputs, comb, k, h, r.home != body, n);
      SpotsCalm(r.home, [], r.todo);
      CalmTicks(r.From(), r.home != body);
      assert !(comb && r.role.Wire?) ==> TimedByGraph(g, body, r, timing);
    } else if ContainsTick(r.From()) {
      assert ContainsTick(r.todo);
      SpotTicks(r.home, [], r.todo);
    }
  }

  lemma WriteIsTimed(outputs: set<string>)
    ensures StmtTimings(Do(Drive(OutPort("o"), Input("p"))), true, outputs, false) == [Deferred]
  {
    var a := Drive(OutPort("o"), Input("p"));
    assert ActionExpr(a) == Input("p") && InputReads(Input("p")) == 1 && !Passthrough(a, outputs, false);
    assert Tagged(ActionExpr(a), true) == Times(Deferred, 1) == [Deferred];
  }

  /** `{ o.write(p.read()); continue }`, the first arm below. */
  const JUMPING: seq<Stmt> := [Do(Drive(OutPort("o"), Input("p"))), Continue]

  lemma JumpingIsTimed(outputs: set<string>)
    ensures Timings(JUMPING, true, outputs, false) == [Deferred]
  {
    WriteIsTimed(outputs);
    assert JUMPING[1..] == [Continue] && JUMPING[1..][1..] == [];
    assert Timings(JUMPING[1..], true, outputs, false) == [];
  }

  lemma BodyIsTimed(body: seq<Stmt>, outputs: set<string>)
    requires body == [Branch(Var("c"), [Arm(JUMPING), Arm([])]), Tick]
    ensures Timings(body, false, outputs, false) == [Deferred]
  {
    var arms := body[0].arms;
    JumpingIsTimed(outputs);
    assert arms[1..] == [Arm([])] && arms[1..][1..] == [] && body[1..] == [Tick] && body[1..][1..] == [];
    assert ArmTimings(arms[1..], true, outputs, false) == [];
    assert ArmTimings(arms, true, outputs, false) == [Deferred];
    assert ContainsTick(body[1..]) && Tagged(Var("c"), true) == [];
    assert StmtTimings(body[0], true, outputs, false) == [Deferred];
    assert Timings(body[1..], false, outputs, false) == [];
  }

  /** `loop { match c { 0 => { o.write(p.read()); continue } _ => {} } tick }`: the read is
    * deferred for a tick that the path through it never reaches.
    */
  lemma ContinueCounterexample(g: Graph, body: seq<Stmt>, outputs: set<string>)
    requires body == [Branch(Var("c"), [Arm(JUMPING), Arm([])]), Tick] && GraphOf(g, body)
    ensures Timings(body, false, outputs, false) == [Deferred]
    ensures exists n: nat :: Wired(g.nodes, n, JUMPING + body[1..], MODULE) && !TickAhead(g.nodes, n)
  {
    BodyIsTimed(body, outputs);
    var nodes, todo := g.nodes, JUMPING + body[1..];
    var n := nodes[nodes[0].succs[0].to].succs[0].to;
    assert body[0].arms[0].body + body[1..] == todo;
    assert Wired(nodes, n, todo, MODULE);
    NoTickPastContinue(todo);
    assert todo[1..] == [Continue, Tick] && todo[1..][1..] == [Tick] && [Tick][1..] == [];
    TickAheadIff(nodes, n, todo, false);
  }

  lemma NoTickPastContinue(todo: seq<Stmt>)
    requires |todo| >= 2 && todo[0].Do? && todo[1] == Continue
    ensures !CanTick(todo, false)
  {
    assert Size(todo) == StmtSize(todo[0]) + Size(todo[1..]);
    assert !CanTick(todo[1..], false);
  }
}
