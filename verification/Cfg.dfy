/** The control-flow graph of a clocked loop, and the builder that threads it backwards.
  *
  * Every node is one statement; an edge either stays in the clock cycle or crosses a
  * clock edge. A nested loop is folded into one opaque node, and each ticking one gets
  * a graph of its own.
  */
module Cfg {
  import opened Syntax
  import opened Scoping
  import opened Graphs

  // ----- What a statement contributes -------------------------------------------------------------

  function Defs(a: Action): set<string> {
    if a.Drive? then {} else {a.name}
  }

  function PortsOf(a: Action): set<string> {
    if a.Drive? && a.sink.OutPort? then {a.sink.name} else {}
  }

  function BusesOf(a: Action): seq<Sink> {
    if a.Drive? && !a.sink.OutPort? then [a.sink] else []
  }

  function ActionNode(a: Action, next: nat): Node {
    Node(Defs(a), Reads(ActionExpr(a)), false, [Arc(next, Comb)], PortsOf(a), BusesOf(a), false, false)
  }

  function TickNode(next: nat): Node {
    EMPTY.(isTick := true, succs := [Arc(next, TickEdge)])
  }

  function JumpNode(next: nat): Node {
    EMPTY.(succs := [Arc(next, Comb)])
  }

  function BranchNode(sel: Expr, succs: seq<Arc>): Node {
    EMPTY.(uses := Reads(sel), succs := succs)
  }

  /** A nested loop folded into one node, conservatively driving every output. */
  function FoldedNode(s: Stmt, outputs: set<string>, mem: seq<Sink>, next: nat): Node {
    var ticks := StmtContainsTick(s);
    Node({}, StmtMentions(s), ticks, [Arc(next, if ticks then TickEdge else Comb)], outputs, mem, true,
         ticks && MayExitWithoutTick(s))
  }

  // ----- Can a ticking loop be left without ticking? ------------------------------------------------

  /** A `for` is taken to run its body; a `while` can always be left at once. */
  predicate MayExitWithoutTick(s: Stmt)
    decreases s, 1
  {
    match s
    case While(_, _) => true
    case Loop(body) => !TicksBeforeAnyBreak(body)
    case _ => false
  }

  /** Does every top-level path through this body reach a tick before it can leave? Only
    * a tick in statement position counts, or a nested loop that always ticks.
    */
  predicate TicksBeforeAnyBreak(body: seq<Stmt>)
    decreases body, 0
  {
    if body == [] then false else
    var s := body[0];
    if s.Tick? then true
    else if s.Loop? || s.While? || s.For? then StmtContainsTick(s) && !MayExitWithoutTick(s)
    else if StmtBreaks(s) || StmtContainsTick(s) then false
    else TicksBeforeAnyBreak(body[1..])
  }

  // ----- A graph of a list ---------------------------------------------------------------------------

  /** Where control goes at the end of the list, at a `continue` and at a `break`. With
    * no loop to restart or leave, both just carry on.
    */
  datatype Targets = Targets(end: nat, cont: Option<nat>, brk: Option<nat>)

  /** Node `n` is where `todo` starts: its statements, in order, up to the targets. */
  ghost predicate Wired(nodes: seq<Node>, n: nat, todo: seq<Stmt>, t: Targets)
    decreases Size(todo)
  {
    if todo == [] then n == t.end else
    var rest := todo[1..];
    assert Size(todo) == StmtSize(todo[0]) + Size(rest);
    n < |nodes| && n != t.end &&
    if todo[0].Branch? then
      var arms := todo[0].arms;
      && nodes[n] == BranchNode(todo[0].sel, nodes[n].succs) && |nodes[n].succs| == |arms| > 0
      && forall i :: 0 <= i < |arms| ==>
           && nodes[n].succs[i].kind == Comb
           && (ArmSizeBound(arms, i); SizeAppend(arms[i].body, rest);
               Wired(nodes, nodes[n].succs[i].to, arms[i].body + rest, t))
    else
      && |nodes[n].succs| == 1
      && var next := nodes[n].succs[0].to;
         && IsNodeOf(nodes[n], todo[0], next)
         && if todo[0].Break? && t.brk.Some? then next == t.brk.value
            else if todo[0].Continue? && t.cont.Some? then next == t.cont.value
            else Wired(nodes, next, rest, t)
  }

  /** From here, without a clock edge and without starting over, control can get to where this
    * bus is driven; a nested loop is met at its own entry, and one without a tick as a whole. A
    * `break` leaves a nested loop and is nothing in the module's own.
    */
  ghost predicate Touches(todo: seq<Stmt>, bus: Sink, nested: bool)
    decreases Size(todo)
  {
    if todo == [] then false else
    var s, rest := todo[0], todo[1..];
    assert Size(todo) == StmtSize(s) + Size(rest);
    match s
    case Do(a) => bus in BusesOf(a) || Touches(rest, bus, nested)
    case Branch(_, arms) =>
      exists i :: 0 <= i < |arms| && (ArmSizeBound(arms, i); SizeAppend(arms[i].body, rest); Touches(arms[i].body + rest, bus, nested))
    case Loop(body) => if ContainsTick(body) then Touches(body, bus, true) else bus in BusesIn(body) || Touches(rest, bus, nested)
    case While(_, body) => if ContainsTick(body) then Touches(body, bus, true) else bus in BusesIn(body) || Touches(rest, bus, nested)
    case For(_, _, _, body) => if ContainsTick(body) then Touches(body, bus, true) else bus in BusesIn(body) || Touches(rest, bus, nested)
    case Break => !nested && Touches(rest, bus, nested)
    case _ => false
  }

  /** From here, without a clock edge, control can get to the loop's head; a ticking loop is a clock
    * edge.
    */
  ghost predicate ComesRound(todo: seq<Stmt>, nested: bool)
    decreases Size(todo)
  {
    if todo == [] then true else
    var s, rest := todo[0], todo[1..];
    assert Size(todo) == StmtSize(s) + Size(rest);
    match s
    case Continue => true
    case Branch(_, arms) =>
      exists i :: 0 <= i < |arms| && (ArmSizeBound(arms, i); SizeAppend(arms[i].body, rest); ComesRound(arms[i].body + rest, nested))
    case Break => !nested && ComesRound(rest, nested)
    case _ => !StmtContainsTick(s) && ComesRound(rest, nested)
  }

  /** A folded loop's buses: all of them when it unrolls, else those of its first cycle. */
  ghost predicate FoldedMem(body: seq<Stmt>, mem: seq<Sink>) {
    if ContainsTick(body) then forall bus :: bus in mem <==> Touches(body, bus, true) else mem == BusesIn(body)
  }

  /** The node of a statement that is not a branch. */
  ghost predicate IsNodeOf(node: Node, s: Stmt, next: nat) {
    match s
    case Do(a) => node == ActionNode(a, next)
    case Tick => node == TickNode(next)
    case Break => node == JumpNode(next)
    case Continue => node == JumpNode(next)
    case Loop(body) => node == FoldedNode(s, node.writes, node.mem, next) && FoldedMem(body, node.mem)
    case While(_, body) => node == FoldedNode(s, node.writes, node.mem, next) && FoldedMem(body, node.mem)
    case For(_, _, _, body) => node == FoldedNode(s, node.writes, node.mem, next) && FoldedMem(body, node.mem)
    case _ => false
  }

  lemma {:induction false} WiredGrow(nodes: seq<Node>, nodes': seq<Node>, n: nat, todo: seq<Stmt>, t: Targets)
    requires Wired(nodes, n, todo, t) && nodes <= nodes'
    ensures Wired(nodes', n, todo, t)
    decreases Size(todo)
  {
    if todo != [] {
      var rest := todo[1..];
      assert Size(todo) == StmtSize(todo[0]) + Size(rest);
      if todo[0].Branch? {
        var arms := todo[0].arms;
        forall i | 0 <= i < |arms|
          ensures Wired(nodes', nodes[n].succs[i].to, arms[i].body + rest, t)
        {
          ArmSizeBound(arms, i);
          SizeAppend(arms[i].body, rest);
          WiredGrow(nodes, nodes', nodes[n].succs[i].to, arms[i].body + rest, t);
        }
      } else if !(todo[0] == Break && t.brk.Some?) && !(todo[0] == Continue && t.cont.Some?) {
        WiredGrow(nodes, nodes', nodes[n].succs[0].to, rest, t);
      }
    }
  }

  /** A node without successors starts no list, so giving it some changes no wiring. */
  lemma {:induction false} WiredPatch(nodes: seq<Node>, at: nat, node: Node, n: nat, todo: seq<Stmt>, t: Targets)
    requires at < |nodes| && nodes[at].succs == [] && Wired(nodes, n, todo, t)
    ensures Wired(nodes[at := node], n, todo, t)
    decreases Size(todo)
  {
    if todo != [] {
      var rest := todo[1..];
      assert Size(todo) == StmtSize(todo[0]) + Size(rest);
      assert n != at;
      if todo[0].Branch? {
        var arms := todo[0].arms;
        forall i | 0 <= i < |arms|
          ensures Wired(nodes[at := node], nodes[n].succs[i].to, arms[i].body + rest, t)
        {
          ArmSizeBound(arms, i);
          SizeAppend(arms[i].body, rest);
          WiredPatch(nodes, at, node, nodes[n].succs[i].to, arms[i].body + rest, t);
        }
      } else if !(todo[0] == Break && t.brk.Some?) && !(todo[0] == Continue && t.cont.Some?) {
        WiredPatch(nodes, at, node, nodes[n].succs[0].to, rest, t);
      }
    }
  }

  /** While a graph is being built, every edge leads to an older node. */
  predicate Backward(nodes: seq<Node>, from: nat) {
    forall i, j :: from <= i < |nodes| && 0 <= j < |nodes[i].succs| ==> nodes[i].succs[j].to < i
  }

  /** The bodies of the ticking loops directly in a list, in the order they are built. */
  function LoopsOf(stmts: seq<Stmt>): seq<seq<Stmt>>
    decreases stmts
  {
    if stmts == [] then [] else LoopsOf(stmts[1..]) + LoopsOfStmt(stmts[0])
  }

  function LoopsOfStmt(s: Stmt): seq<seq<Stmt>>
    decreases s
  {
    match s
    case Branch(_, arms) => LoopsOfArms(arms)
    case Loop(body) => if ContainsTick(body) then [body] else []
    case While(_, body) => if ContainsTick(body) then [body] else []
    case For(_, _, _, body) => if ContainsTick(body) then [body] else []
    case _ => []
  }

  function LoopsOfArms(arms: seq<Arm>): seq<seq<Stmt>>
    decreases arms
  {
    if arms == [] then [] else LoopsOf(arms[0].body) + LoopsOfArms(arms[1..])
  }

  /** The places of a list: what is left to run at each of its statements, those inside its
    * branches included.
    */
  function Spots(stmts: seq<Stmt>, rest: seq<Stmt>): set<seq<Stmt>>
    decreases stmts
  {
    if stmts == [] then {} else StmtSpots(stmts[0], stmts[1..] + rest) + Spots(stmts[1..], rest)
  }

  function StmtSpots(s: Stmt, rest: seq<Stmt>): set<seq<Stmt>>
    decreases s
  {
    {[s] + rest} + if s.Branch? then ArmSpots(s.arms, rest) else {}
  }

  function ArmSpots(arms: seq<Arm>, rest: seq<Stmt>): set<seq<Stmt>>
    decreases arms
  {
    if arms == [] then {} else Spots(arms[0].body, rest) + ArmSpots(arms[1..], rest)
  }

  /** Some node from `lo` to `hi` is where this list starts. */
  ghost predicate SeatOf(nodes: seq<Node>, lo: nat, hi: nat, todo: seq<Stmt>, t: Targets) {
    exists n: nat :: lo <= n < hi && Wired(nodes, n, todo, t)
  }

  /** This node is where one of the lists starts. */
  ghost predicate SeatsOne(nodes: seq<Node>, n: nat, spots: set<seq<Stmt>>, t: Targets) {
    exists todo :: todo in spots && Wired(nodes, n, todo, t)
  }

  /** The nodes from `lo` to `hi` are those of the places `spots`: each has one, and there are
    * no others.
    */
  ghost predicate Seated(nodes: seq<Node>, lo: nat, hi: nat, spots: set<seq<Stmt>>, t: Targets) {
    && hi <= |nodes|
    && (forall todo <- spots :: SeatOf(nodes, lo, hi, todo, t))
    && forall n: nat :: lo <= n < hi ==> SeatsOne(nodes, n, spots, t)
  }

  /** Every folded loop is taken to drive every output. */
  predicate FoldedWrites(nodes: seq<Node>, outputs: set<string>) {
    forall n <- nodes :: n.folded ==> n.writes == outputs
  }

  /** The graph of a nested loop's body: node 0 is its head, node 1 where a `break` goes. */
  ghost predicate SubGraphOf(g: Graph, body: seq<Stmt>)
    decreases g
  {
    && g.head == 0 && |g.nodes| >= 2 && Backward(g.nodes, 1) && |g.nodes[0].succs| == 1 && g.nodes[0].succs[0].to < |g.nodes|
    && g.nodes[0] == JumpNode(g.nodes[0].succs[0].to) && g.nodes[1] == EMPTY
    && Wired(g.nodes, g.nodes[0].succs[0].to, body, Targets(0, Some(0), Some(1)))
    && Seated(g.nodes, 2, |g.nodes|, Spots(body, []), Targets(0, Some(0), Some(1)))
    && Folds(g.nested, LoopsOf(body)) && FoldedWrites(g.nodes, g.outputs)
  }

  ghost predicate Folds(subs: seq<Graph>, loops: seq<seq<Stmt>>)
    decreases subs
  {
    && |subs| == |loops|
    && (subs != [] ==> SubGraphOf(subs[0], loops[0]) && Folds(subs[1..], loops[1..]))
  }

  /** The graph of the module's own loop: nothing leaves it. */
  ghost predicate GraphOf(g: Graph, body: seq<Stmt>) {
    && g.head == 0 && |g.nodes| >= 1 && Backward(g.nodes, 1) && |g.nodes[0].succs| == 1 && g.nodes[0].succs[0].to < |g.nodes|
    && g.nodes[0] == JumpNode(g.nodes[0].succs[0].to)
    && Wired(g.nodes, g.nodes[0].succs[0].to, body, Targets(0, Some(0), None))
    && Seated(g.nodes, 1, |g.nodes|, Spots(body, []), Targets(0, Some(0), None))
    && Folds(g.nested, LoopsOf(body)) && FoldedWrites(g.nodes, g.outputs)
  }

  lemma {:induction false} FoldsJoin(a: seq<Graph>, la: seq<seq<Stmt>>, b: seq<Graph>, lb: seq<seq<Stmt>>)
    requires Folds(a, la) && Folds(b, lb)
    ensures Folds(a + b, la + lb)
  {
    if a == [] {
      assert a + b == b && la + lb == lb;
    } else {
      FoldsJoin(a[1..], la[1..], b, lb);
      assert (a + b)[1..] == a[1..] + b && (la + lb)[1..] == la[1..] + lb;
    }
  }

  lemma {:induction false} FoldsSplit(subs: seq<Graph>, a: seq<seq<Stmt>>, b: seq<seq<Stmt>>)
    requires Folds(subs, a + b)
    ensures Folds(subs[..|a|], a) && Folds(subs[|a|..], b)
    decreases |a|
  {
    if a == [] {
      assert a + b == b && subs[0..] == subs;
    } else {
      assert (a + b)[1..] == a[1..] + b;
      FoldsSplit(subs[1..], a[1..], b);
      assert subs[..|a|][1..] == subs[1..][..|a| - 1] && subs[1..][|a| - 1..] == subs[|a|..];
    }
  }

  lemma SuffixStep(stmts: seq<Stmt>, i: nat, todo: seq<Stmt>)
    requires i < |stmts|
    ensures [stmts[i]] + (stmts[i + 1..] + todo) == stmts[i..] + todo
    ensures LoopsOf(stmts[i..]) == LoopsOf(stmts[i + 1..]) + LoopsOfStmt(stmts[i])
    ensures Spots(stmts[i..], todo) == StmtSpots(stmts[i], stmts[i + 1..] + todo) + Spots(stmts[i + 1..], todo)
  {
    assert stmts[i..] == [stmts[i]] + stmts[i + 1..] && stmts[i..][1..] == stmts[i + 1..];
  }

  /** Some edge leads to node `m`. */
  predicate HasPred(nodes: seq<Node>, m: nat) {
    exists i :: 0 <= i < |nodes| && Linked(nodes, i, m)
  }

  /** What was built in front of `next`, with no jump out of it: its last node is its entry,
    * and every other node of it, `next` included, is led to.
    */
  ghost predicate Threaded(before: seq<Node>, after: seq<Node>, next: nat, entry: nat) {
    && before <= after
    && if |after| == |before| then entry == next
       else entry == |after| - 1 && HasPred(after, next) && forall m :: |before| <= m < |after| - 1 ==> HasPred(after, m)
  }

  lemma HasPredGrow(nodes: seq<Node>, nodes': seq<Node>, m: nat)
    requires HasPred(nodes, m) && nodes <= nodes'
    ensures HasPred(nodes', m)
  {
    var i :| 0 <= i < |nodes| && Linked(nodes, i, m);
    assert Linked(nodes', i, m);
  }

  lemma ThreadedCompose(a: seq<Node>, b: seq<Node>, c: seq<Node>, next: nat, mid: nat, entry: nat)
    requires Threaded(a, b, next, mid) && Threaded(b, c, mid, entry)
    ensures Threaded(a, c, next, entry)
  {
    if |a| == |b| {
      assert a == b;
    } else if |b| == |c| {
      assert b == c;
    } else {
      HasPredGrow(b, c, next);
      forall m | |a| <= m < |c| - 1 ensures HasPred(c, m) {
        if m < |b| - 1 {
          HasPredGrow(b, c, m);
        }
      }
    }
  }

  lemma ThreadedOne(nodes: seq<Node>, node: Node, next: nat)
    requires |node.succs| > 0 && node.succs[0].to == next
    ensures Threaded(nodes, nodes + [node], next, |nodes|)
  {
    var after := nodes + [node];
    assert after[|nodes|].succs[0].to == next;
    assert Linked(after, |nodes|, next);
  }

  /** The same for the arms of a branch, before the branch leads to them. */
  ghost predicate ArmsThreaded(before: seq<Node>, after: seq<Node>, next: nat, succs: seq<Arc>) {
    && before <= after
    && (succs != [] ==> LedTo(after, next, succs))
    && forall m :: |before| <= m < |after| ==> LedTo(after, m, succs)
  }

  predicate LedTo(nodes: seq<Node>, m: nat, succs: seq<Arc>) {
    HasPred(nodes, m) || exists i :: 0 <= i < |succs| && succs[i].to == m
  }

  lemma ArmsThreadedCons(a: seq<Node>, b: seq<Node>, c: seq<Node>, next: nat, first: nat, rest: seq<Arc>)
    requires Threaded(a, b, next, first) && ArmsThreaded(b, c, next, rest)
    ensures ArmsThreaded(a, c, next, [Arc(first, Comb)] + rest)
  {
    var succs := [Arc(first, Comb)] + rest;
    assert succs[0].to == first;
    if |a| < |b| {
      HasPredGrow(b, c, next);
    }
    forall m | |a| <= m < |c| ensures LedTo(c, m, succs) {
      if m < |b| {
        if m != first {
          HasPredGrow(b, c, m);
        }
      } else if LedTo(c, m, rest) && !HasPred(c, m) {
        var i :| 0 <= i < |rest| && rest[i].to == m;
        assert succs[i + 1].to == m;
      }
    }
  }

  lemma ThreadedBranch(a: seq<Node>, b: seq<Node>, next: nat, node: Node)
    requires ArmsThreaded(a, b, next, node.succs) && node.succs != []
    ensures Threaded(a, b + [node], next, |b|)
  {
    var c := b + [node];
    forall m: nat | LedTo(b, m, node.succs) ensures HasPred(c, m) {
      if HasPred(b, m) {
        HasPredGrow(b, c, m);
      } else {
        var j :| 0 <= j < |node.succs| && node.succs[j].to == m;
        assert c[|b|].succs[j].to == m && Linked(c, |b|, m);
      }
    }
  }

  lemma SeatedGrow(nodes: seq<Node>, nodes': seq<Node>, lo: nat, hi: nat, spots: set<seq<Stmt>>, t: Targets)
    requires Seated(nodes, lo, hi, spots, t) && nodes <= nodes'
    ensures Seated(nodes', lo, hi, spots, t)
  {
    forall todo | todo in spots ensures SeatOf(nodes', lo, hi, todo, t) {
      var n: nat :| lo <= n < hi && Wired(nodes, n, todo, t);
      WiredGrow(nodes, nodes', n, todo, t);
    }
    forall n: nat | lo <= n < hi ensures SeatsOne(nodes', n, spots, t) {
      assert SeatsOne(nodes, n, spots, t);
      var todo :| todo in spots && Wired(nodes, n, todo, t);
      WiredGrow(nodes, nodes', n, todo, t);
    }
  }

  lemma SeatedPatch(nodes: seq<Node>, at: nat, node: Node, lo: nat, hi: nat, spots: set<seq<Stmt>>, t: Targets)
    requires at < |nodes| && nodes[at].succs == [] && Seated(nodes, lo, hi, spots, t)
    ensures Seated(nodes[at := node], lo, hi, spots, t)
  {
    var patched := nodes[at := node];
    forall todo | todo in spots ensures SeatOf(patched, lo, hi, todo, t) {
      var n: nat :| lo <= n < hi && Wired(nodes, n, todo, t);
      WiredPatch(nodes, at, node, n, todo, t);
    }
    forall n: nat | lo <= n < hi ensures SeatsOne(patched, n, spots, t) {
      assert SeatsOne(nodes, n, spots, t);
      var todo :| todo in spots && Wired(nodes, n, todo, t);
      WiredPatch(nodes, at, node, n, todo, t);
    }
  }

  lemma SeatedJoin(nodes: seq<Node>, lo: nat, mid: nat, hi: nat, a: set<seq<Stmt>>, b: set<seq<Stmt>>, t: Targets)
    requires lo <= mid <= hi && Seated(nodes, lo, mid, a, t) && Seated(nodes, mid, hi, b, t)
    ensures Seated(nodes, lo, hi, a + b, t)
  {
    forall todo | todo in a + b ensures SeatOf(nodes, lo, hi, todo, t) {
      assert SeatOf(nodes, lo, mid, todo, t) || SeatOf(nodes, mid, hi, todo, t);
    }
    forall n: nat | lo <= n < hi ensures SeatsOne(nodes, n, a + b, t) {
      assert SeatsOne(nodes, n, a, t) || SeatsOne(nodes, n, b, t);
    }
  }

  /** What is built later in front of what is there. */
  lemma SeatedOnward(n0: seq<Node>, n1: seq<Node>, n2: seq<Node>, a: set<seq<Stmt>>, b: set<seq<Stmt>>, t: Targets)
    requires n0 <= n1 <= n2 && Seated(n1, |n0|, |n1|, a, t) && Seated(n2, |n1|, |n2|, b, t)
    ensures Seated(n2, |n0|, |n2|, a + b, t)
  {
    SeatedGrow(n1, n2, |n0|, |n1|, a, t);
    SeatedJoin(n2, |n0|, |n1|, |n2|, a, b, t);
  }

  lemma SeatedOne(nodes: seq<Node>, n: nat, todo: seq<Stmt>, t: Targets)
    requires n < |nodes| && Wired(nodes, n, todo, t)
    ensures Seated(nodes, n, n + 1, {todo}, t)
  {
  }

  // ----- What building promises ----------------------------------------------------------------------------

  /** Nothing in the graph leads back into it. */
  predicate Alone(t: Targets) {
    t.cont.None? && t.brk.None?
  }

  /** From `before` to `after` a statement was built in front of `next`, where `todo` starts,
    * with the graphs `subs` of its nested loops.
    */
  ghost predicate StmtBuilt(t: Targets, before: seq<Node>, after: seq<Node>, subs: seq<Graph>, next: nat, entry: nat,
                            s: Stmt, todo: seq<Stmt>) {
    && before <= after && Wired(after, entry, [s] + todo, t) && Folds(subs, LoopsOfStmt(s))
    && Seated(after, |before|, |after|, StmtSpots(s, todo), t)
    && (Alone(t) ==> Threaded(before, after, next, entry))
  }

  ghost predicate BlockBuilt(t: Targets, before: seq<Node>, after: seq<Node>, subs: seq<Graph>, next: nat, entry: nat,
                             stmts: seq<Stmt>, todo: seq<Stmt>) {
    && before <= after && Wired(after, entry, stmts + todo, t) && Folds(subs, LoopsOf(stmts))
    && Seated(after, |before|, |after|, Spots(stmts, todo), t)
    && (Alone(t) ==> Threaded(before, after, next, entry))
  }

  ghost predicate ArmsBuilt(t: Targets, before: seq<Node>, after: seq<Node>, subs: seq<Graph>, next: nat,
                            succs: seq<Arc>, arms: seq<Arm>, todo: seq<Stmt>) {
    && before <= after && |succs| == |arms| && Folds(subs, LoopsOfArms(arms))
    && Seated(after, |before|, |after|, ArmSpots(arms, todo), t)
    && (forall i :: 0 <= i < |arms| ==> succs[i].kind == Comb && Wired(after, succs[i].to, arms[i].body + todo, t))
    && (Alone(t) ==> ArmsThreaded(before, after, next, succs))
  }

  lemma BlockStarts(t: Targets, nodes: seq<Node>, next: nat, todo: seq<Stmt>)
    requires Wired(nodes, next, todo, t)
    ensures BlockBuilt(t, nodes, nodes, [], next, next, [], todo)
  {
    assert [] + todo == todo;
  }

  lemma BlockStep(t: Targets, n0: seq<Node>, n1: seq<Node>, n2: seq<Node>, g0: seq<Graph>, g1: seq<Graph>, g2: seq<Graph>,
                  next: nat, mid: nat, entry: nat, stmts: seq<Stmt>, i: nat, todo: seq<Stmt>)
    requires i < |stmts| && g0 <= g1 <= g2 && BlockBuilt(t, n0, n1, g1[|g0|..], next, mid, stmts[i + 1..], todo)
    requires StmtBuilt(t, n1, n2, g2[|g1|..], mid, entry, stmts[i], stmts[i + 1..] + todo)
    ensures BlockBuilt(t, n0, n2, g2[|g0|..], next, entry, stmts[i..], todo)
  {
    var subs, more := g1[|g0|..], g2[|g1|..];
    assert g2[|g0|..] == subs + more;
    SuffixStep(stmts, i, todo);
    FoldsJoin(subs, LoopsOf(stmts[i + 1..]), more, LoopsOfStmt(stmts[i]));
    SeatedOnward(n0, n1, n2, Spots(stmts[i + 1..], todo), StmtSpots(stmts[i], stmts[i + 1..] + todo), t);
    assert Spots(stmts[i..], todo) == Spots(stmts[i + 1..], todo) + StmtSpots(stmts[i], stmts[i + 1..] + todo);
    if Alone(t) {
      ThreadedCompose(n0, n1, n2, next, mid, entry);
    }
  }

  lemma ArmsStep(t: Targets, n0: seq<Node>, n1: seq<Node>, n2: seq<Node>, g0: seq<Graph>, g1: seq<Graph>, g2: seq<Graph>,
                 next: nat, first: nat, rest: seq<Arc>, arms: seq<Arm>, todo: seq<Stmt>)
    requires arms != [] && g0 <= g1 <= g2 && BlockBuilt(t, n0, n1, g1[|g0|..], next, first, arms[0].body, todo)
    requires ArmsBuilt(t, n1, n2, g2[|g1|..], next, rest, arms[1..], todo)
    ensures ArmsBuilt(t, n0, n2, g2[|g0|..], next, [Arc(first, Comb)] + rest, arms, todo)
  {
    var subs, more := g1[|g0|..], g2[|g1|..];
    assert g2[|g0|..] == subs + more;
    WiredGrow(n1, n2, first, arms[0].body + todo, t);
    FoldsJoin(subs, LoopsOf(arms[0].body), more, LoopsOfArms(arms[1..]));
    SeatedOnward(n0, n1, n2, Spots(arms[0].body, todo), ArmSpots(arms[1..], todo), t);
    if Alone(t) {
      ArmsThreadedCons(n0, n1, n2, next, first, rest);
    }
  }

  lemma BranchBuilt(t: Targets, n0: seq<Node>, n1: seq<Node>, subs: seq<Graph>, next: nat, sel: Expr, succs: seq<Arc>,
                    arms: seq<Arm>, todo: seq<Stmt>)
    requires ArmsBuilt(t, n0, n1, subs, next, succs, arms, todo) && arms != [] && t.end < |n1|
    ensures StmtBuilt(t, n0, n1 + [BranchNode(sel, succs)], subs, next, |n1|, Branch(sel, arms), todo)
  {
    var node := BranchNode(sel, succs);
    WireBranch(n1, n1 + [node], |n1|, sel, arms, succs, todo, t);
    SeatedOne(n1 + [node], |n1|, [Branch(sel, arms)] + todo, t);
    SeatedOnward(n0, n1, n1 + [node], ArmSpots(arms, todo), {[Branch(sel, arms)] + todo}, t);
    assert StmtSpots(Branch(sel, arms), todo) == ArmSpots(arms, todo) + {[Branch(sel, arms)] + todo};
    if Alone(t) {
      ThreadedBranch(n0, n1, next, node);
    }
  }

  /** A statement that is one node. */
  lemma OneBuilt(t: Targets, nodes: seq<Node>, node: Node, subs: seq<Graph>, s: Stmt, next: nat, todo: seq<Stmt>)
    requires Wired(nodes, next, todo, t) && t.end < |nodes| && Folds(subs, LoopsOfStmt(s)) && |node.succs| == 1
    requires IsNodeOf(node, s, next) && !s.Break? && !s.Continue?
    ensures StmtBuilt(t, nodes, nodes + [node], subs, next, |nodes|, s, todo)
  {
    WireOne(nodes, nodes + [node], |nodes|, s, next, todo, t);
    SeatedOne(nodes + [node], |nodes|, [s] + todo, t);
    assert StmtSpots(s, todo) == {[s] + todo};
    assert node.succs[0].to == next;
    ThreadedOne(nodes, node, next);
  }

  lemma JumpBuilt(t: Targets, nodes: seq<Node>, s: Stmt, next: nat, todo: seq<Stmt>)
    requires Wired(nodes, next, todo, t) && t.end < |nodes| && (s.Break? || s.Continue?)
    ensures var goal := if s.Break? then t.brk else t.cont;
      StmtBuilt(t, nodes, nodes + [JumpNode(if goal.Some? then goal.value else next)], [], next, |nodes|, s, todo)
  {
    var goal := if s.Break? then t.brk else t.cont;
    var node := JumpNode(if goal.Some? then goal.value else next);
    WireJump(nodes, nodes + [node], |nodes|, s, next, todo, t);
    SeatedOne(nodes + [node], |nodes|, [s] + todo, t);
    assert StmtSpots(s, todo) == {[s] + todo};
    ThreadedOne(nodes, node, node.succs[0].to);
  }

  // ----- A folded loop's first cycle --------------------------------------------------------------------

  lemma CombPathCons(nodes: seq<Node>, n: nat, q: seq<nat>) returns (p: seq<nat>)
    requires n < |nodes| && CombPath(nodes, q) && CombEdge(nodes, n, q[0])
    ensures CombPath(nodes, p) && p == [n] + q && p[0] == n && p[|p| - 1] == q[|q| - 1]
  {
    p := [n] + q;
    forall i | 0 <= i < |p| - 1 ensures CombEdge(nodes, p[i], p[i + 1]) {
      if i > 0 {
        assert CombEdge(nodes, q[i - 1], q[i]);
      }
    }
  }

  lemma CombPathTail(nodes: seq<Node>, p: seq<nat>)
    requires CombPath(nodes, p) && |p| > 1
    ensures CombPath(nodes, p[1..]) && CombEdge(nodes, p[0], p[1]) && p[1..][|p| - 2] == p[|p| - 1]
  {
    var q := p[1..];
    forall i | 0 <= i < |q| - 1 ensures CombEdge(nodes, q[i], q[i + 1]) {
      assert CombEdge(nodes, p[i + 1], p[i + 2]);
    }
  }

  const SUB := Targets(0, Some(0), Some(1))

  /** Where control goes in a loop's own graph: a nested loop has a sink a `break` goes to. */
  function LoopTargets(nested: bool): Targets {
    if nested then SUB else Targets(0, Some(0), None)
  }

  /** The head leads to the body, and nothing leads on from where a `break` goes. */
  ghost predicate LoopHead(nodes: seq<Node>, body: seq<Stmt>, nested: bool) {
    && nodes != [] && |nodes[0].succs| == 1 && nodes[0] == JumpNode(nodes[0].succs[0].to)
    && Wired(nodes, nodes[0].succs[0].to, body, LoopTargets(nested))
    && (nested ==> |nodes| >= 2 && nodes[1] == EMPTY)
  }

  lemma {:induction false} TouchesByPath(nodes: seq<Node>, n: nat, todo: seq<Stmt>, bus: Sink, nested: bool) returns (p: seq<nat>)
    requires Wired(nodes, n, todo, LoopTargets(nested)) && Touches(todo, bus, nested)
    ensures CombPath(nodes, p) && p[0] == n && bus in nodes[p[|p| - 1]].mem
    decreases Size(todo)
  {
    var s, rest := todo[0], todo[1..];
    assert Size(todo) == StmtSize(s) + Size(rest);
    p := [n];
    if s.Branch? {
      var i :| 0 <= i < |s.arms| && Touches(s.arms[i].body + rest, bus, nested);
      ArmSizeBound(s.arms, i);
      SizeAppend(s.arms[i].body, rest);
      var m := nodes[n].succs[i].to;
      var q := TouchesByPath(nodes, m, s.arms[i].body + rest, bus, nested);
      assert nodes[n].succs[i] == Arc(m, Comb);
      p := CombPathCons(nodes, n, q);
    } else if bus !in nodes[n].mem {
      var m := nodes[n].succs[0].to;
      var q := TouchesByPath(nodes, m, rest, bus, nested);
      assert nodes[n].succs[0] == Arc(m, Comb);
      p := CombPathCons(nodes, n, q);
    }
  }

  lemma {:induction false} RoundByPath(nodes: seq<Node>, n: nat, todo: seq<Stmt>, nested: bool) returns (p: seq<nat>)
    requires nodes != [] && Wired(nodes, n, todo, LoopTargets(nested)) && ComesRound(todo, nested)
    ensures CombPath(nodes, p) && p[0] == n && p[|p| - 1] == 0
    decreases Size(todo)
  {
    if todo == [] {
      p := [0];
    } else {
      var s, rest := todo[0], todo[1..];
      assert Size(todo) == StmtSize(s) + Size(rest);
      var i, q: seq<nat> := 0, [0];
      if s.Branch? {
        i :| 0 <= i < |s.arms| && ComesRound(s.arms[i].body + rest, nested);
        ArmSizeBound(s.arms, i);
        SizeAppend(s.arms[i].body, rest);
        q := RoundByPath(nodes, nodes[n].succs[i].to, s.arms[i].body + rest, nested);
      } else if !s.Continue? {
        q := RoundByPath(nodes, nodes[n].succs[0].to, rest, nested);
      }
      assert nodes[n].succs[i] == Arc(q[0], Comb);
      p := CombPathCons(nodes, n, q);
    }
  }

  /** From here control can get to where the bus is driven without a clock edge, past the head or not. */
  ghost predicate Meets(body: seq<Stmt>, todo: seq<Stmt>, bus: Sink, nested: bool) {
    Touches(todo, bus, nested) || (ComesRound(todo, nested) && Touches(body, bus, nested))
  }

  lemma {:induction false} PathTouches(nodes: seq<Node>, n: nat, todo: seq<Stmt>, body: seq<Stmt>, p: seq<nat>, bus: Sink, nested: bool)
    requires LoopHead(nodes, body, nested) && Wired(nodes, n, todo, LoopTargets(nested))
    requires CombPath(nodes, p) && p[0] == n && bus in nodes[p[|p| - 1]].mem
    ensures Meets(body, todo, bus, nested)
    decreases |p|
  {
    if |p| > 1 {
      CombPathTail(nodes, p);
      if todo == [] {
        PathTouches(nodes, p[1], body, body, p[1..], bus, nested);
      } else {
        PathTouchesOn(nodes, n, todo, body, p, bus, nested);
      }
    } else if todo != [] {
      assert Size(todo) == StmtSize(todo[0]) + Size(todo[1..]);
    }
  }

  lemma {:induction false} PathTouchesOn(nodes: seq<Node>, n: nat, todo: seq<Stmt>, body: seq<Stmt>, p: seq<nat>, bus: Sink, nested: bool)
    requires LoopHead(nodes, body, nested) && Wired(nodes, n, todo, LoopTargets(nested)) && todo != []
    requires |p| > 1 && CombPath(nodes, p) && CombPath(nodes, p[1..]) && CombEdge(nodes, n, p[1]) && bus in nodes[p[1..][|p| - 2]].mem
    requires p[0] == n
    ensures Meets(body, todo, bus, nested)
    ensures !todo[0].Branch? ==> !StmtContainsTick(todo[0])
    ensures !todo[0].Branch? && !todo[0].Continue? && !(todo[0].Break? && nested) ==> Meets(body, todo[1..], bus, nested)
    decreases |p|, 0
  {
    var s, rest := todo[0], todo[1..];
    assert Size(todo) == StmtSize(s) + Size(rest);
    var j :| 0 <= j < |nodes[n].succs| && nodes[n].succs[j] == Arc(p[1], Comb);
    if s.Branch? {
      ArmSizeBound(s.arms, j);
      SizeAppend(s.arms[j].body, rest);
      PathTouches(nodes, p[1], s.arms[j].body + rest, body, p[1..], bus, nested);
    } else if s.Continue? {
      PathTouches(nodes, 0, [], body, p[1..], bus, nested);
    } else if s.Break? && nested {
      assert p[1] == 1;
      if |p[1..]| > 1 {
        CombPathTail(nodes, p[1..]);
      }
    } else {
      PathTouches(nodes, p[1], rest, body, p[1..], bus, nested);
    }
  }

  /** The buses on nodes reached from a nested loop's head without a clock edge are those the
    * text can drive before its first tick.
    */
  lemma EntryMemIsText(g: Graph, body: seq<Stmt>)
    requires SubGraphOf(g, body)
    ensures forall bus :: (exists i :: 0 <= i < |g.nodes| && SameCycle(g.nodes, g.head, i) && bus in g.nodes[i].mem) <==> Touches(body, bus, true)
  {
    var nodes, entry := g.nodes, g.nodes[0].succs[0].to;
    forall bus ensures (exists i :: 0 <= i < |nodes| && SameCycle(nodes, 0, i) && bus in nodes[i].mem) <==> Touches(body, bus, true) {
      if Touches(body, bus, true) {
        var q := TouchesByPath(nodes, entry, body, bus, true);
        assert nodes[0].succs[0] == Arc(entry, Comb);
        var p := CombPathCons(nodes, 0, q);
        assert SameCycle(nodes, 0, p[|p| - 1]);
      }
      if i :| 0 <= i < |nodes| && SameCycle(nodes, 0, i) && bus in nodes[i].mem {
        var p: seq<nat> :| CombPath(nodes, p) && p[0] == 0 && p[|p| - 1] == i;
        PathTouches(nodes, 0, [], body, p, bus, true);
      }
    }
  }

  // ----- The builder ----------------------------------------------------------------------------------

  class Builder {
    var nodes: seq<Node>
    var nested: seq<Graph>
    /** The module's combinational output ports. */
    const outputs: set<string>
    /** Where `continue` and `break` go in the loop being built. */
    const cont: Option<nat>
    const brk: Option<nat>

    constructor (outputs: set<string>, cont: Option<nat>, brk: Option<nat>)
      ensures nodes == [] && nested == []
      ensures this.outputs == outputs && this.cont == cont && this.brk == brk
    {
      nodes, nested := [], [];
      this.outputs, this.cont, this.brk := outputs, cont, brk;
    }

    ghost function Goals(end: nat): Targets {
      Targets(end, cont, brk)
    }

    /** The loop's own targets are older than anything being built. */
    ghost predicate Valid()
      reads this
    {
      && Backward(nodes, 0) && FoldedWrites(nodes, outputs)
      && (cont.Some? ==> cont.value < |nodes|) && (brk.Some? ==> brk.value < |nodes|)
    }

    method NewNode(node: Node) returns (id: nat)
      modifies this
      ensures id == |old(nodes)| && nodes == old(nodes) + [node] && nested == old(nested)
    {
      nodes := nodes + [node];
      id := |nodes| - 1;
    }

    /** Builds a block in front of `next`, last statement first. */
    method BuildBlock(stmts: seq<Stmt>, next: nat, ghost todo: seq<Stmt>, ghost end: nat) returns (entry: nat)
      requires Valid() && next < |nodes| && end < |nodes| && Written(stmts) && Wired(nodes, next, todo, Goals(end))
      modifies this
      ensures Valid() && entry < |nodes| && old(nodes) <= nodes && old(nested) <= nested
      ensures BlockBuilt(Goals(end), old(nodes), nodes, nested[|old(nested)|..], next, entry, stmts, todo)
      decreases stmts, 1
    {
      entry := next;
      var i := |stmts|;
      BlockStarts(Goals(end), nodes, next, todo);
      assert stmts[i..] == [];
      while i > 0
        invariant 0 <= i <= |stmts| && Valid() && entry < |nodes| && old(nodes) <= nodes && old(nested) <= nested
        invariant BlockBuilt(Goals(end), old(nodes), nodes, nested[|old(nested)|..], next, entry, stmts[i..], todo)
      {
        i := i - 1;
        WrittenAt(stmts, i);
        ghost var had, was, mid := nested, nodes, entry;
        entry := BuildStmt(stmts[i], entry, stmts[i + 1..] + todo, end);
        BlockStep(Goals(end), old(nodes), was, nodes, old(nested), had, nested, next, mid, entry, stmts, i, todo);
      }
      assert stmts[0..] == stmts;
    }

    /** One entry per arm, each arm's block in front of `next`. */
    method BuildArms(arms: seq<Arm>, next: nat, ghost todo: seq<Stmt>, ghost end: nat) returns (succs: seq<Arc>)
      requires Valid() && next < |nodes| && end < |nodes| && ArmsWritten(arms) && Wired(nodes, next, todo, Goals(end))
      modifies this
      ensures Valid() && old(nodes) <= nodes && old(nested) <= nested
      ensures ArmsBuilt(Goals(end), old(nodes), nodes, nested[|old(nested)|..], next, succs, arms, todo)
      ensures forall i :: 0 <= i < |succs| ==> succs[i].to < |nodes|
      decreases arms, 0
    {
      succs := [];
      if arms != [] {
        var first := BuildBlock(arms[0].body, next, todo, end);
        ghost var had, was := nested, nodes;
        WiredGrow(old(nodes), nodes, next, todo, Goals(end));
        var rest := BuildArms(arms[1..], next, todo, end);
        succs := [Arc(first, Comb)] + rest;
        ArmsStep(Goals(end), old(nodes), was, nodes, old(nested), had, nested, next, first, rest, arms, todo);
      }
    }

    method BuildStmt(s: Stmt, next: nat, ghost todo: seq<Stmt>, ghost end: nat) returns (entry: nat)
      requires Valid() && next < |nodes| && end < |nodes| && WrittenStmt(s) && Wired(nodes, next, todo, Goals(end))
      modifies this
      ensures Valid() && entry < |nodes| && old(nodes) <= nodes && old(nested) <= nested
      ensures StmtBuilt(Goals(end), old(nodes), nodes, nested[|old(nested)|..], next, entry, s, todo)
      decreases s, 0
    {
      match s {
        case Branch(sel, arms) =>
          var succs := BuildArms(arms, next, todo, end);
          BranchBuilt(Goals(end), old(nodes), nodes, nested[|old(nested)|..], next, sel, succs, arms, todo);
          entry := NewNode(BranchNode(sel, succs));
        case Do(a) =>
          entry := BuildOne(s, ActionNode(a, next), next, todo, end);
        case Tick =>
          entry := BuildOne(s, TickNode(next), next, todo, end);
        case Break =>
          entry := BuildJump(s, next, todo, end);
        case Continue =>
          entry := BuildJump(s, next, todo, end);
        case Loop(_) =>
          entry := BuildFolded(s, next, todo, end);
        case While(_, _) =>
          entry := BuildFolded(s, next, todo, end);
        case For(_, _, _, _) =>
          entry := BuildFolded(s, next, todo, end);
      }
    }

    method BuildOne(s: Stmt, node: Node, next: nat, ghost todo: seq<Stmt>, ghost end: nat) returns (entry: nat)
      requires Valid() && next < |nodes| && end < |nodes| && Wired(nodes, next, todo, Goals(end)) && (s.Do? || s.Tick?)
      requires IsNodeOf(node, s, next)
      modifies this
      ensures Valid() && entry < |nodes| && old(nodes) <= nodes && nested == old(nested)
      ensures StmtBuilt(Goals(end), old(nodes), nodes, [], next, entry, s, todo)
    {
      OneBuilt(Goals(end), nodes, node, [], s, next, todo);
      entry := NewNode(node);
    }

    method BuildJump(s: Stmt, next: nat, ghost todo: seq<Stmt>, ghost end: nat) returns (entry: nat)
      requires Valid() && next < |nodes| && end < |nodes| && Wired(nodes, next, todo, Goals(end)) && (s.Break? || s.Continue?)
      modifies this
      ensures Valid() && entry < |nodes| && old(nodes) <= nodes && nested == old(nested)
      ensures StmtBuilt(Goals(end), old(nodes), nodes, [], next, entry, s, todo)
    {
      var goal := if s.Break? then brk else cont;
      JumpBuilt(Goals(end), nodes, s, next, todo);
      entry := NewNode(JumpNode(if goal.Some? then goal.value else next));
    }

    /** A nested loop: one opaque node here, and a graph of its own when it ticks. */
    method BuildFolded(s: Stmt, next: nat, ghost todo: seq<Stmt>, ghost end: nat) returns (entry: nat)
      requires Valid() && next < |nodes| && end < |nodes| && WrittenStmt(s) && Wired(nodes, next, todo, Goals(end))
      requires s.Loop? || s.While? || s.For?
      modifies this
      ensures Valid() && entry < |nodes| && old(nodes) <= nodes && old(nested) <= nested
      ensures StmtBuilt(Goals(end), old(nodes), nodes, nested[|old(nested)|..], next, entry, s, todo)
      ensures nodes[entry].folded && nodes[entry].writes == outputs && FoldedMem(s.body, nodes[entry].mem)
      decreases s.body, 4
    {
      var mem, subs := FoldLoop(s.body, outputs);
      nested := nested + subs;
      assert nested[|old(nested)|..] == subs;
      OneBuilt(Goals(end), nodes, FoldedNode(s, outputs, mem, next), subs, s, next, todo);
      entry := NewNode(FoldedNode(s, outputs, mem, next));
    }
  }

  /** A folded loop's buses, and its own graph if it ticks. */
  method FoldLoop(body: seq<Stmt>, outputs: set<string>) returns (mem: seq<Sink>, subs: seq<Graph>)
    requires Written(body)
    ensures FoldedMem(body, mem) && Folds(subs, if ContainsTick(body) then [body] else [])
    decreases body, 3
  {
    mem, subs := BusesIn(body), [];
    if ContainsTick(body) {
      var sub := NestedLoopGraph(body, outputs);
      mem := EntryCycleMem(sub);
      EntryMemIsText(sub, body);
      subs := [sub];
      assert subs[1..] == [] && [body][1..] == [];
    }
  }

  lemma WireOne(nodes: seq<Node>, nodes': seq<Node>, n: nat, s: Stmt, next: nat, todo: seq<Stmt>, t: Targets)
    requires Wired(nodes, next, todo, t) && t.end < n == |nodes| < |nodes'| && nodes' == nodes + [nodes'[n]]
    requires IsNodeOf(nodes'[n], s, next) && !s.Break? && !s.Continue?
    ensures Wired(nodes', n, [s] + todo, t)
  {
    assert ([s] + todo)[1..] == todo;
    WiredGrow(nodes, nodes', next, todo, t);
  }

  lemma WireJump(nodes: seq<Node>, nodes': seq<Node>, n: nat, s: Stmt, next: nat, todo: seq<Stmt>, t: Targets)
    requires Wired(nodes, next, todo, t) && t.end < n == |nodes| < |nodes'| && nodes' == nodes + [nodes'[n]] && (s.Break? || s.Continue?)
    requires var goal := if s.Break? then t.brk else t.cont;
      nodes'[n] == JumpNode(if goal.Some? then goal.value else next)
    ensures Wired(nodes', n, [s] + todo, t)
  {
    assert ([s] + todo)[1..] == todo;
    WiredGrow(nodes, nodes', next, todo, t);
  }

  lemma WireBranch(nodes: seq<Node>, nodes': seq<Node>, n: nat, sel: Expr, arms: seq<Arm>, succs: seq<Arc>, todo: seq<Stmt>, t: Targets)
    requires t.end < n == |nodes| && nodes' == nodes + [BranchNode(sel, succs)] && |succs| == |arms| > 0
    requires forall i :: 0 <= i < |arms| ==> succs[i].kind == Comb && Wired(nodes, succs[i].to, arms[i].body + todo, t)
    ensures Wired(nodes', n, [Branch(sel, arms)] + todo, t)
  {
    assert ([Branch(sel, arms)] + todo)[1..] == todo;
    forall i | 0 <= i < |arms| ensures Wired(nodes', succs[i].to, arms[i].body + todo, t) {
      WiredGrow(nodes, nodes', succs[i].to, arms[i].body + todo, t);
    }
  }

  /** Every bus a list drives, wherever in it. */
  function BusesIn(stmts: seq<Stmt>): seq<Sink>
    decreases stmts
  {
    if stmts == [] then [] else BusesInStmt(stmts[0]) + BusesIn(stmts[1..])
  }

  function BusesInStmt(s: Stmt): seq<Sink>
    decreases s
  {
    match s
    case Do(a) => BusesOf(a)
    case Branch(_, arms) => BusesInArms(arms)
    case Loop(body) => BusesIn(body)
    case While(_, body) => BusesIn(body)
    case For(_, _, _, body) => BusesIn(body)
    case _ => []
  }

  function BusesInArms(arms: seq<Arm>): seq<Sink>
    decreases arms
  {
    if arms == [] then [] else BusesIn(arms[0].body) + BusesInArms(arms[1..])
  }

  /** A nested loop's own graph, built on the side. */
  method NestedLoopGraph(body: seq<Stmt>, outputs: set<string>) returns (g: Graph)
    requires Written(body)
    ensures SubGraphOf(g, body) && g.outputs == outputs
    decreases body, 2
  {
    var b := new Builder(outputs, Some(0), Some(1));
    var head := b.NewNode(EMPTY);
    var brk := b.NewNode(EMPTY);
    var entry := b.BuildBlock(body, head, [], 0);
    assert body + [] == body;
    WiredPatch(b.nodes, 0, JumpNode(entry), entry, body, Targets(0, Some(0), Some(1)));
    SeatedPatch(b.nodes, 0, JumpNode(entry), 2, |b.nodes|, Spots(body, []), Targets(0, Some(0), Some(1)));
    assert b.nested[0..] == b.nested;
    g := Graph(b.nodes[0 := JumpNode(entry)], head, b.nested, outputs);
  }

  /** The graph of a combinational body: node 0 is where every path ends, and every node
    * but the head is led to.
    */
  ghost predicate CombGraphOf(nodes: seq<Node>, head: nat, body: seq<Stmt>) {
    && |nodes| >= 1 && head == |nodes| - 1 && Backward(nodes, 0) && nodes[0] == EMPTY
    && Wired(nodes, head, body, Targets(0, None, None))
    && forall m :: 0 <= m < |nodes| - 1 ==> HasPred(nodes, m)
  }

  method BuildCombinational(body: seq<Stmt>, outputs: set<string>) returns (nodes: seq<Node>, head: nat)
    requires Written(body)
    ensures CombGraphOf(nodes, head, body)
  {
    var b := new Builder(outputs, None, None);
    var exit := b.NewNode(EMPTY);
    head := b.BuildBlock(body, exit, [], 0);
    assert body + [] == body;
    nodes := b.nodes;
  }

  /** The graph of a module's loop. */
  method BuildGraph(body: seq<Stmt>, outputs: set<string>) returns (g: Graph)
    requires Written(body)
    ensures GraphOf(g, body) && g.outputs == outputs
  {
    var b := new Builder(outputs, Some(0), None);
    var head := b.NewNode(EMPTY);
    var entry := b.BuildBlock(body, head, [], 0);
    assert body + [] == body;
    WiredPatch(b.nodes, 0, JumpNode(entry), entry, body, Targets(0, Some(0), None));
    SeatedPatch(b.nodes, 0, JumpNode(entry), 1, |b.nodes|, Spots(body, []), Targets(0, Some(0), None));
    assert b.nested[0..] == b.nested;
    g := Graph(b.nodes[0 := JumpNode(entry)], head, b.nested, outputs);
  }
}
