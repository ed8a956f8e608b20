/** Every path through a clocked loop must reach a tick: the depth-first search that
  * decides it, and what its verdict means for the source and for extraction.
  */
module Reachability {
  import opened Syntax
  import opened Graphs
  import opened Cfg

  // ----- Paths that take no time -----------------------------------------------------------------------

  /** An edge within the cycle, or out of a nested loop that may be left before it ticks. */
  predicate ZeroEdge(nodes: seq<Node>, a: nat, b: nat) {
    a < |nodes| && exists j :: 0 <= j < |nodes[a].succs| && Zero(nodes, a, j) && nodes[a].succs[j].to == b
  }

  predicate Zero(nodes: seq<Node>, a: nat, j: nat)
    requires a < |nodes| && j < |nodes[a].succs|
  {
    nodes[a].succs[j].kind == Comb || nodes[a].mayExit
  }

  predicate ZeroPath(nodes: seq<Node>, p: seq<nat>) {
    && p != [] && (forall i :: 0 <= i < |p| ==> p[i] < |nodes|)
    && forall i :: 0 <= i < |p| - 1 ==> ZeroEdge(nodes, p[i], p[i + 1])
  }

  /** A path from the head that takes no time and meets a node again. */
  predicate ZeroLasso(nodes: seq<Node>, head: nat, p: seq<nat>) {
    ZeroPath(nodes, p) && p[0] == head && exists i, j :: 0 <= i < j < |p| && p[i] == p[j]
  }

  ghost predicate HasZeroCycle(nodes: seq<Node>, head: nat) {
    exists p: seq<nat> :: ZeroLasso(nodes, head, p)
  }

  /** No loop of this program, nested ones included, can start over without a tick. */
  ghost predicate TicksEverywhere(g: Graph)
    decreases g
  {
    !HasZeroCycle(g.nodes, g.head) && forall s <- g.nested :: TicksEverywhere(s)
  }

  // ----- The search ---------------------------------------------------------------------------------------

  datatype Color = White | Gray | Black

  datatype Frame = Frame(node: nat, next: nat)

  /** The stack's nodes, bottom first. */
  function StackPath(stack: seq<Frame>): (p: seq<nat>)
    ensures |p| == |stack| && forall i :: 0 <= i < |p| ==> p[i] == stack[i].node
  {
    seq(|stack|, i requires 0 <= i < |stack| => stack[i].node)
  }

  /** The gray nodes are a path from the head that meets no node twice. */
  ghost predicate PathOk(nodes: seq<Node>, head: nat, color: seq<Color>, p: seq<nat>) {
    && |color| == |nodes|
    && (forall i :: 0 <= i < |p| ==> p[i] < |nodes|)
    && (forall i, j :: 0 <= i < j < |p| ==> p[i] != p[j])
    && (forall i :: 0 <= i < |p| - 1 ==> ZeroEdge(nodes, p[i], p[i + 1]))
    && (p != [] ==> p[0] == head)
    && (forall x: nat :: x < |nodes| ==> (color[x] == Gray <==> x in p))
  }

  /** `done` lists the black nodes; whatever one reaches in no time was listed before it. */
  ghost predicate DoneOk(nodes: seq<Node>, color: seq<Color>, done: seq<nat>) {
    && |color| == |nodes|
    && (forall x: nat :: x < |nodes| ==> (color[x] == Black <==> x in done))
    && (forall i :: 0 <= i < |done| ==> done[i] < |nodes|)
    && (forall i, j :: 0 <= i < j < |done| ==> done[i] != done[j])
    && forall i, y: nat :: 0 <= i < |done| && ZeroEdge(nodes, done[i], y) ==> y in done[..i]
  }

  /** What a node's first `n` successors reach in no time is done, or is `after`. */
  ghost predicate Tried(nodes: seq<Node>, x: nat, n: nat, done: seq<nat>, after: seq<nat>) {
    && x < |nodes| && n <= |nodes[x].succs|
    && forall j :: 0 <= j < n && Zero(nodes, x, j) ==> nodes[x].succs[j].to in done + after
  }

  /** The node the frame above frame `i` is working on. */
  function Above(stack: seq<Frame>, i: nat): seq<nat> {
    if i + 1 < |stack| then [stack[i + 1].node] else []
  }

  ghost predicate TriedOk(nodes: seq<Node>, stack: seq<Frame>, done: seq<nat>) {
    forall i :: 0 <= i < |stack| ==> Tried(nodes, stack[i].node, stack[i].next, done, Above(stack, i))
  }

  function Whites(color: seq<Color>): nat {
    if color == [] then 0 else (if color[0] == White then 1 else 0) + Whites(color[1..])
  }

  lemma {:induction false} WhitesPaint(color: seq<Color>, i: nat, c: Color)
    requires i < |color| && c != White
    ensures Whites(color[i := c]) == Whites(color) - if color[i] == White then 1 else 0
  {
    if i == 0 {
      assert color[0 := c][1..] == color[1..];
    } else {
      WhitesPaint(color[1..], i - 1, c);
      assert color[i := c][1..] == color[1..][i - 1 := c];
    }
  }

  function Pending(nodes: seq<Node>, stack: seq<Frame>): nat {
    if stack == [] then 0
    else 1 + Pending(nodes, stack[..|stack| - 1])
           + var f := stack[|stack| - 1]; if f.node < |nodes| && f.next < |nodes[f.node].succs| then |nodes[f.node].succs| - f.next else 0
  }

  /** A gray successor closes a cycle on the stack. */
  lemma GrayClosesCycle(nodes: seq<Node>, head: nat, color: seq<Color>, path: seq<nat>, y: nat)
    requires PathOk(nodes, head, color, path) && path != [] && y < |nodes| && color[y] == Gray
    requires ZeroEdge(nodes, path[|path| - 1], y)
    ensures HasZeroCycle(nodes, head)
  {
    var p := path + [y];
    var i :| 0 <= i < |path| && path[i] == y;
    assert p[i] == p[|p| - 1];
    assert ZeroLasso(nodes, head, p);
  }

  /** Along a zero-time path among done nodes, each is listed before its predecessor. */
  lemma {:induction false} DoneFalls(nodes: seq<Node>, color: seq<Color>, done: seq<nat>, p: seq<nat>, i: nat, j: nat, m: nat)
    requires DoneOk(nodes, color, done) && ZeroPath(nodes, p) && i < j < |p|
    requires m < |done| && done[m] == p[i]
    ensures p[j] in done[..m]
    decreases j
  {
    if j == i + 1 {
      assert ZeroEdge(nodes, done[m], p[j]);
    } else {
      DoneFalls(nodes, color, done, p, i, j - 1, m);
      var m' :| 0 <= m' < m && done[m'] == p[j - 1];
      assert ZeroEdge(nodes, done[m'], p[j]);
      assert p[j] in done[..m'];
    }
  }

  lemma {:induction false} DoneReaches(nodes: seq<Node>, color: seq<Color>, done: seq<nat>, p: seq<nat>, i: nat)
    requires DoneOk(nodes, color, done) && ZeroPath(nodes, p) && p[0] in done && i < |p|
    ensures p[i] in done
  {
    if i > 0 {
      var m :| 0 <= m < |done| && done[m] == p[0];
      DoneFalls(nodes, color, done, p, 0, i, m);
    }
  }

  lemma DoneHasNoCycle(nodes: seq<Node>, head: nat, color: seq<Color>, done: seq<nat>)
    requires DoneOk(nodes, color, done) && head in done
    ensures !HasZeroCycle(nodes, head)
  {
    forall p: seq<nat> ensures !ZeroLasso(nodes, head, p) {
      if ZeroLasso(nodes, head, p) {
        var i, j :| 0 <= i < j < |p| && p[i] == p[j];
        DoneReaches(nodes, color, done, p, i);
        var m :| 0 <= m < |done| && done[m] == p[i];
        DoneFalls(nodes, color, done, p, i, j, m);
      }
    }
  }

  // ----- One step of the search ----------------------------------------------------------------------------

  lemma PathPush(nodes: seq<Node>, head: nat, color: seq<Color>, p: seq<nat>, y: nat)
    requires PathOk(nodes, head, color, p) && p != [] && y < |nodes| && color[y] == White
    requires ZeroEdge(nodes, p[|p| - 1], y)
    ensures PathOk(nodes, head, color[y := Gray], p + [y])
  {
  }

  lemma PathPop(nodes: seq<Node>, head: nat, color: seq<Color>, p: seq<nat>)
    requires PathOk(nodes, head, color, p) && p != []
    ensures PathOk(nodes, head, color[p[|p| - 1] := Black], p[..|p| - 1])
  {
    var q, x := p[..|p| - 1], p[|p| - 1];
    assert p == q + [x];
  }

  lemma DonePush(nodes: seq<Node>, color: seq<Color>, done: seq<nat>, y: nat)
    requires DoneOk(nodes, color, done) && y < |nodes| && color[y] == White
    ensures DoneOk(nodes, color[y := Gray], done)
  {
  }

  lemma DonePop(nodes: seq<Node>, color: seq<Color>, done: seq<nat>, x: nat)
    requires DoneOk(nodes, color, done) && x < |nodes| && color[x] == Gray
    requires Tried(nodes, x, |nodes[x].succs|, done, [])
    ensures DoneOk(nodes, color[x := Black], done + [x])
  {
    var done' := done + [x];
    forall i, y: nat | 0 <= i < |done'| && ZeroEdge(nodes, done'[i], y) ensures y in done'[..i] {
      if i < |done| {
        assert done'[..i] == done[..i];
      } else {
        assert done'[..i] == done && done + [] == done;
      }
    }
  }

  lemma TriedStep(nodes: seq<Node>, stack: seq<Frame>, done: seq<nat>, after: seq<nat>)
    requires TriedOk(nodes, stack, done) && stack != []
    requires var f := stack[|stack| - 1];
      f.node < |nodes| && f.next < |nodes[f.node].succs|
      && (Zero(nodes, f.node, f.next) ==> nodes[f.node].succs[f.next].to in done + after)
    ensures var f := stack[|stack| - 1];
      Tried(nodes, f.node, f.next + 1, done, after)
  {
    var f := stack[|stack| - 1];
    assert Tried(nodes, f.node, f.next, done, Above(stack, |stack| - 1));
  }

  lemma TriedPush(nodes: seq<Node>, stack: seq<Frame>, done: seq<nat>, y: nat)
    requires TriedOk(nodes, stack, done) && stack != [] && y < |nodes|
    requires var f := stack[|stack| - 1]; Tried(nodes, f.node, f.next + 1, done, [y])
    ensures var f := stack[|stack| - 1];
      TriedOk(nodes, stack[|stack| - 1 := Frame(f.node, f.next + 1)] + [Frame(y, 0)], done)
  {
    var f := stack[|stack| - 1];
    var stack' := stack[|stack| - 1 := Frame(f.node, f.next + 1)] + [Frame(y, 0)];
    forall i | 0 <= i < |stack'|
      ensures Tried(nodes, stack'[i].node, stack'[i].next, done, Above(stack', i))
    {
      if i < |stack| - 1 {
        assert Tried(nodes, stack[i].node, stack[i].next, done, Above(stack, i));
      }
    }
  }

  lemma TriedSkip(nodes: seq<Node>, stack: seq<Frame>, done: seq<nat>)
    requires TriedOk(nodes, stack, done) && stack != []
    requires var f := stack[|stack| - 1]; Tried(nodes, f.node, f.next + 1, done, [])
    ensures var f := stack[|stack| - 1]; TriedOk(nodes, stack[|stack| - 1 := Frame(f.node, f.next + 1)], done)
  {
    var f := stack[|stack| - 1];
    var stack' := stack[|stack| - 1 := Frame(f.node, f.next + 1)];
    forall i | 0 <= i < |stack'|
      ensures Tried(nodes, stack'[i].node, stack'[i].next, done, Above(stack', i))
    {
      if i < |stack| - 1 {
        assert Tried(nodes, stack[i].node, stack[i].next, done, Above(stack, i));
      }
    }
  }

  lemma TriedPop(nodes: seq<Node>, stack: seq<Frame>, done: seq<nat>)
    requires TriedOk(nodes, stack, done) && stack != []
    ensures TriedOk(nodes, stack[..|stack| - 1], done + [stack[|stack| - 1].node])
  {
    var stack', done' := stack[..|stack| - 1], done + [stack[|stack| - 1].node];
    forall i | 0 <= i < |stack'|
      ensures Tried(nodes, stack'[i].node, stack'[i].next, done', Above(stack', i))
    {
      assert Tried(nodes, stack[i].node, stack[i].next, done, Above(stack, i));
    }
  }

  // ----- The search -----------------------------------------------------------------------------------------

  ghost predicate SearchOk(nodes: seq<Node>, head: nat, color: seq<Color>, stack: seq<Frame>, done: seq<nat>) {
    PathOk(nodes, head, color, StackPath(stack)) && DoneOk(nodes, color, done) && TriedOk(nodes, stack, done)
  }

  /** A white successor goes on the stack. */
  lemma PushStep(nodes: seq<Node>, head: nat, color: seq<Color>, stack: seq<Frame>, done: seq<nat>, f: Frame, y: nat)
    requires SearchOk(nodes, head, color, stack, done) && stack != [] && f == stack[|stack| - 1]
    requires f.node < |nodes| && f.next < |nodes[f.node].succs| && Zero(nodes, f.node, f.next)
    requires y == nodes[f.node].succs[f.next].to && y < |nodes| && color[y] == White
    ensures SearchOk(nodes, head, color[y := Gray], stack[|stack| - 1 := Frame(f.node, f.next + 1)] + [Frame(y, 0)], done)
    ensures Whites(color[y := Gray]) < Whites(color)
  {
    assert ZeroEdge(nodes, f.node, y);
    PathPush(nodes, head, color, StackPath(stack), y);
    DonePush(nodes, color, done, y);
    TriedStep(nodes, stack, done, [y]);
    TriedPush(nodes, stack, done, y);
    WhitesPaint(color, y, Gray);
    StackPathPush(stack, f, y);
  }

  lemma StackPathPush(stack: seq<Frame>, f: Frame, y: nat)
    requires stack != [] && f == stack[|stack| - 1]
    ensures StackPath(stack[|stack| - 1 := Frame(f.node, f.next + 1)] + [Frame(y, 0)]) == StackPath(stack) + [y]
  {
  }

  /** A successor that is done, or not reached in no time, is passed over. */
  lemma SkipStep(nodes: seq<Node>, head: nat, color: seq<Color>, stack: seq<Frame>, done: seq<nat>, f: Frame)
    requires SearchOk(nodes, head, color, stack, done) && stack != [] && f == stack[|stack| - 1]
    requires f.node < |nodes| && f.next < |nodes[f.node].succs|
    requires Zero(nodes, f.node, f.next) ==> nodes[f.node].succs[f.next].to in done
    ensures var stack' := stack[|stack| - 1 := Frame(f.node, f.next + 1)];
      SearchOk(nodes, head, color, stack', done) && Pending(nodes, stack') < Pending(nodes, stack)
  {
    var stack' := stack[|stack| - 1 := Frame(f.node, f.next + 1)];
    TriedStep(nodes, stack, done, []);
    TriedSkip(nodes, stack, done);
    assert StackPath(stack') == StackPath(stack);
    assert stack'[..|stack| - 1] == stack[..|stack| - 1];
  }

  /** A node with no successor left to try is done. */
  lemma PopStep(nodes: seq<Node>, head: nat, color: seq<Color>, stack: seq<Frame>, done: seq<nat>, f: Frame)
    requires SearchOk(nodes, head, color, stack, done) && stack != [] && f == stack[|stack| - 1]
    requires f.node < |nodes| && f.next == |nodes[f.node].succs|
    ensures var stack' := stack[..|stack| - 1];
      && SearchOk(nodes, head, color[f.node := Black], stack', done + [f.node])
      && Whites(color[f.node := Black]) == Whites(color) && Pending(nodes, stack') < Pending(nodes, stack)
      && (stack' == [] ==> head in done + [f.node])
  {
    var stack' := stack[..|stack| - 1];
    PopPath(nodes, head, color, stack);
    assert Tried(nodes, f.node, f.next, done, Above(stack, |stack| - 1));
    DonePop(nodes, color, done, f.node);
    TriedPop(nodes, stack, done);
    WhitesPaint(color, f.node, Black);
  }

  /** The path without its last node, which is gray no more. */
  lemma PopPath(nodes: seq<Node>, head: nat, color: seq<Color>, stack: seq<Frame>)
    requires PathOk(nodes, head, color, StackPath(stack)) && stack != []
    ensures var x := stack[|stack| - 1].node;
      && x < |color| && color[x] == Gray && PathOk(nodes, head, color[x := Black], StackPath(stack[..|stack| - 1]))
      && (|stack| == 1 ==> x == head)
  {
    var p := StackPath(stack);
    assert p[|stack| - 1] == stack[|stack| - 1].node && p[|stack| - 1] in p;
    PathPop(nodes, head, color, p);
    assert StackPath(stack[..|stack| - 1]) == p[..|stack| - 1];
  }

  lemma SearchStart(nodes: seq<Node>, head: nat, color: seq<Color>)
    requires head < |nodes| == |color| && color[head] == Gray
    requires forall i :: 0 <= i < |nodes| && i != head ==> color[i] == White
    ensures SearchOk(nodes, head, color, [Frame(head, 0)], [])
  {
  }

  lemma SearchTop(nodes: seq<Node>, head: nat, color: seq<Color>, stack: seq<Frame>, done: seq<nat>)
    requires SearchOk(nodes, head, color, stack, done) && stack != []
    ensures |color| == |nodes|
    ensures var f := stack[|stack| - 1]; f.node < |nodes| && f.next <= |nodes[f.node].succs|
    ensures forall y: nat :: y < |nodes| && color[y] == Black ==> y in done
  {
    var f := stack[|stack| - 1];
    assert Tried(nodes, f.node, f.next, done, Above(stack, |stack| - 1));
  }

  lemma SearchFails(nodes: seq<Node>, head: nat, color: seq<Color>, stack: seq<Frame>, done: seq<nat>, f: Frame, y: nat)
    requires SearchOk(nodes, head, color, stack, done) && stack != [] && f == stack[|stack| - 1]
    requires f.node < |nodes| && f.next < |nodes[f.node].succs| && Zero(nodes, f.node, f.next)
    requires y == nodes[f.node].succs[f.next].to && y < |nodes| && color[y] == Gray
    ensures HasZeroCycle(nodes, head)
  {
    assert ZeroEdge(nodes, f.node, y);
    GrayClosesCycle(nodes, head, color, StackPath(stack), y);
  }

  /** One step of the search: the top frame's next successor, or its end. */
  method Visit(nodes: seq<Node>, head: nat, color: array<Color>, stack: seq<Frame>, ghost done: seq<nat>)
    returns (ok: bool, stack': seq<Frame>, ghost done': seq<nat>)
    requires InRange(nodes) && stack != [] && SearchOk(nodes, head, color[..], stack, done)
    modifies color
    ensures !ok ==> HasZeroCycle(nodes, head)
    ensures ok ==> SearchOk(nodes, head, color[..], stack', done') && (stack' == [] ==> head in done')
    ensures ok ==> Whites(color[..]) <= Whites(old(color[..]))
    ensures ok && Whites(color[..]) == Whites(old(color[..])) ==> Pending(nodes, stack') < Pending(nodes, stack)
  {
    var top := |stack| - 1;
    var f := stack[top];
    ghost var was := color[..];
    SearchTop(nodes, head, was, stack, done);
    ok, done' := true, done;
    if f.next == |nodes[f.node].succs| {
      PopStep(nodes, head, was, stack, done, f);
      color[f.node] := Black;
      assert color[..] == was[f.node := Black];
      stack', done' := stack[..top], done + [f.node];
      return;
    }
    var e := nodes[f.node].succs[f.next];
    stack' := stack[top := Frame(f.node, f.next + 1)];
    if e.kind == Comb || nodes[f.node].mayExit {
      if color[e.to] == Gray {
        SearchFails(nodes, head, was, stack, done, f, e.to);
        return false, stack', done;
      }
      if color[e.to] == White {
        PushStep(nodes, head, was, stack, done, f, e.to);
        color[e.to] := Gray;
        assert color[..] == was[e.to := Gray];
        stack' := stack' + [Frame(e.to, 0)];
        return;
      }
    }
    SkipStep(nodes, head, was, stack, done, f);
  }

  /** One graph: the search fails exactly when a zero-time cycle is reachable from the head. */
  method Acyclic(nodes: seq<Node>, head: nat) returns (ok: bool)
    requires InRange(nodes) && head < |nodes|
    ensures ok <==> !HasZeroCycle(nodes, head)
  {
    var color := new Color[|nodes|](_ => White);
    var stack := [Frame(head, 0)];
    color[head] := Gray;
    ghost var done: seq<nat> := [];
    SearchStart(nodes, head, color[..]);
    while stack != []
      invariant SearchOk(nodes, head, color[..], stack, done)
      invariant stack == [] ==> head in done
      decreases Whites(color[..]), Pending(nodes, stack)
    {
      ok, stack, done := Visit(nodes, head, color, stack, done);
      if !ok {
        return;
      }
    }
    DoneHasNoCycle(nodes, head, color[..], done);
    return true;
  }

  ghost predicate GraphOk(g: Graph)
    decreases g
  {
    InRange(g.nodes) && g.head < |g.nodes| && forall s <- g.nested :: GraphOk(s)
  }

  lemma {:induction false} SubGraphOk(g: Graph, body: seq<Stmt>)
    requires SubGraphOf(g, body)
    ensures GraphOk(g)
    decreases g, 1
  {
    FoldsOk(g.nested, LoopsOf(body));
  }

  lemma {:induction false} FoldsOk(subs: seq<Graph>, loops: seq<seq<Stmt>>)
    requires Folds(subs, loops)
    ensures forall s <- subs :: GraphOk(s)
    decreases subs, 0
  {
    if subs != [] {
      SubGraphOk(subs[0], loops[0]);
      FoldsOk(subs[1..], loops[1..]);
      assert forall s <- subs :: s == subs[0] || s in subs[1..];
    }
  }

  /** The check: this graph and, recursively, every nested loop's. */
  method CheckReachability(g: Graph) returns (ok: bool)
    requires GraphOk(g)
    ensures ok <==> TicksEverywhere(g)
    decreases g
  {
    ok := Acyclic(g.nodes, g.head);
    if !ok {
      return;
    }
    for i := 0 to |g.nested|
      invariant forall j :: 0 <= j < i ==> TicksEverywhere(g.nested[j])
    {
      ok := CheckReachability(g.nested[i]);
      if !ok {
        return;
      }
    }
    return true;
  }

  /** On success every zero-time path from the head is shorter than the graph. */
  lemma ZeroPathsAreShort(nodes: seq<Node>, head: nat, p: seq<nat>)
    requires !HasZeroCycle(nodes, head) && ZeroPath(nodes, p) && p[0] == head
    ensures |p| <= |nodes|
  {
    assert !ZeroLasso(nodes, head, p);
    Pigeonhole(p, |nodes|);
  }

  lemma {:induction false} Pigeonhole(p: seq<nat>, n: nat)
    requires forall i :: 0 <= i < |p| ==> p[i] < n
    requires forall i, j :: 0 <= i < j < |p| ==> p[i] != p[j]
    ensures |p| <= n
    decreases n
  {
    if p != [] {
      assert p[0] < n;
      if n - 1 in p {
        var i :| 0 <= i < |p| && p[i] == n - 1;
        var q := p[..i] + p[i + 1..];
        Pigeonhole(q, n - 1);
      } else {
        Pigeonhole(p, n - 1);
      }
    }
  }

  // ----- What the verdict means for the source -----------------------------------------------------------

  /** Reaching this statement, control is past it only with a tick, as far as its text shows
    * without looking into branches: a tick, a counted loop that ticks, or a loop whose body
    * has such a statement with nothing in front that could break, tick or loop.
    */
  predicate AlwaysTicks(s: Stmt)
    decreases s, 1
  {
    match s
    case Tick => true
    case For(_, _, _, body) => ContainsTick(body)
    case Loop(body) => TickFirst(body)
    case _ => false
  }

  predicate TickFirst(body: seq<Stmt>)
    decreases body, 0
  {
    exists i :: 0 <= i < |body| && AlwaysTicks(body[i]) && forall j :: 0 <= j < i ==> PassedOver(body[j])
  }

  predicate PassedOver(s: Stmt) {
    !StmtBreaks(s) && !StmtContainsTick(s) && !s.Loop? && !s.While? && !s.For?
  }

  lemma TickFirstStep(body: seq<Stmt>)
    requires body != []
    ensures TickFirst(body) <==> AlwaysTicks(body[0]) || (PassedOver(body[0]) && TickFirst(body[1..]))
  {
    if TickFirst(body) {
      var i :| 0 <= i < |body| && AlwaysTicks(body[i]) && forall j :: 0 <= j < i ==> PassedOver(body[j]);
      if i > 0 {
        assert AlwaysTicks(body[1..][i - 1]);
        assert forall j :: 0 <= j < i - 1 ==> PassedOver(body[1..][j]) by {
          assert forall j :: 0 <= j < i - 1 ==> body[1..][j] == body[j + 1];
        }
      }
    }
    if !AlwaysTicks(body[0]) && PassedOver(body[0]) && TickFirst(body[1..]) {
      var i :| 0 <= i < |body[1..]| && AlwaysTicks(body[1..][i]) && forall j :: 0 <= j < i ==> PassedOver(body[1..][j]);
      assert AlwaysTicks(body[i + 1]);
      forall j | 0 <= j < i + 1 ensures PassedOver(body[j]) {
        assert j > 0 ==> body[j] == body[1..][j - 1];
      }
    }
  }

  /** The check's test, right to left: it lets a loop be left without a tick exactly where the
    * text does not show that it ticks.
    */
  lemma {:induction false} MayExitIsText(s: Stmt)
    requires s.Loop? || s.While? || s.For?
    ensures StmtContainsTick(s) && !MayExitWithoutTick(s) <==> AlwaysTicks(s)
    decreases s, 1
  {
    if s.Loop? {
      TicksFirstIsText(s.body);
      if AlwaysTicks(s) {
        TickFirstTicks(s.body);
      }
    }
  }

  lemma {:induction false} TicksFirstIsText(body: seq<Stmt>)
    ensures TicksBeforeAnyBreak(body) <==> TickFirst(body)
    decreases body, 0
  {
    if body != [] {
      TickFirstStep(body);
      TicksFirstIsText(body[1..]);
      if body[0].Loop? || body[0].While? || body[0].For? {
        MayExitIsText(body[0]);
      }
    }
  }

  lemma {:induction false} TickFirstTicks(body: seq<Stmt>)
    requires TickFirst(body)
    ensures ContainsTick(body)
    decreases body
  {
    TickFirstStep(body);
    if AlwaysTicks(body[0]) {
      if body[0].Loop? {
        TickFirstTicks(body[0].body);
      }
    } else {
      TickFirstTicks(body[1..]);
    }
  }

  /** Can control get from here to the loop's head without a tick, a nested loop being passed
    * unless its text shows that it ticks?
    */
  ghost predicate CanReturn(todo: seq<Stmt>)
    decreases Size(todo)
  {
    if todo == [] then true else
    var s, rest := todo[0], todo[1..];
    assert Size(todo) == StmtSize(s) + Size(rest);
    if s.Tick? then false
    else if s.Continue? then true
    else if s.Branch? then
      exists i :: 0 <= i < |s.arms| && (ArmSizeBound(s.arms, i); SizeAppend(s.arms[i].body, rest);
                                        CanReturn(s.arms[i].body + rest))
    else !AlwaysTicks(s) && CanReturn(rest)
  }

  const MODULE := Targets(0, Some(0), None)

  lemma PathCons(nodes: seq<Node>, n: nat, j: nat, q: seq<nat>) returns (p: seq<nat>)
    requires n < |nodes| && j < |nodes[n].succs| && Zero(nodes, n, j)
    requires ZeroPath(nodes, q) && q[0] == nodes[n].succs[j].to
    ensures ZeroPath(nodes, p) && p[0] == n && p[|p| - 1] == q[|q| - 1] && p == [n] + q
  {
    p := [n] + q;
    assert ZeroEdge(nodes, n, q[0]);
    forall i | 0 <= i < |p| - 1 ensures ZeroEdge(nodes, p[i], p[i + 1]) {
      if i > 0 {
        assert ZeroEdge(nodes, q[i - 1], q[i]);
      }
    }
  }

  lemma {:induction false} ReturnsByPath(nodes: seq<Node>, n: nat, todo: seq<Stmt>) returns (p: seq<nat>)
    requires nodes != [] && InRange(nodes) && n < |nodes| && Wired(nodes, n, todo, MODULE) && CanReturn(todo)
    ensures ZeroPath(nodes, p) && p[0] == n && p[|p| - 1] == 0
    decreases Size(todo)
  {
    if todo == [] {
      p := [0];
    } else {
      var s, rest := todo[0], todo[1..];
      assert Size(todo) == StmtSize(s) + Size(rest);
      if s.Branch? {
        var i :| 0 <= i < |s.arms| && CanReturn(s.arms[i].body + rest);
        ArmSizeBound(s.arms, i);
        SizeAppend(s.arms[i].body, rest);
        var q := ReturnsByPath(nodes, nodes[n].succs[i].to, s.arms[i].body + rest);
        p := PathCons(nodes, n, i, q);
      } else {
        var next := nodes[n].succs[0].to;
        var q := [0];
        if s.Loop? || s.While? || s.For? {
          MayExitIsText(s);
        }
        if !s.Continue? {
          q := ReturnsByPath(nodes, next, rest);
        }
        p := PathCons(nodes, n, 0, q);
      }
    }
  }

  lemma {:induction false} PathReturns(nodes: seq<Node>, n: nat, todo: seq<Stmt>, p: seq<nat>)
    requires Wired(nodes, n, todo, MODULE) && ZeroPath(nodes, p) && p[0] == n && p[|p| - 1] == 0
    ensures CanReturn(todo)
    decreases Size(todo)
  {
    if todo != [] {
      var s, rest := todo[0], todo[1..];
      assert Size(todo) == StmtSize(s) + Size(rest);
      assert ZeroEdge(nodes, p[0], p[1]);
      var q := p[1..];
      forall i | 0 <= i < |q| - 1 ensures ZeroEdge(nodes, q[i], q[i + 1]) {
        assert ZeroEdge(nodes, p[i + 1], p[i + 2]);
      }
      var j :| 0 <= j < |nodes[n].succs| && Zero(nodes, n, j) && nodes[n].succs[j].to == p[1];
      if s.Branch? {
        ArmSizeBound(s.arms, j);
        SizeAppend(s.arms[j].body, rest);
        PathReturns(nodes, p[1], s.arms[j].body + rest, q);
      } else if !s.Continue? {
        if s.Loop? || s.While? || s.For? {
          MayExitIsText(s);
        }
        PathReturns(nodes, p[1], rest, q);
      }
    }
  }

  /** Away from the head every edge leads to an older node, so a cycle passes the head. */
  lemma {:induction false} CyclePassesHead(nodes: seq<Node>, p: seq<nat>, i: nat, j: nat)
    requires Backward(nodes, 1) && ZeroPath(nodes, p) && i <= j < |p|
    requires forall k :: i <= k < j ==> p[k] != 0
    ensures i < j ==> p[j] < p[i]
    decreases j
  {
    if i < j {
      CyclePassesHead(nodes, p, i, j - 1);
      assert ZeroEdge(nodes, p[j - 1], p[j]);
    }
  }

  /** A zero-time cycle reachable from the head passes it, and so comes back to it. */
  lemma LassoReturns(nodes: seq<Node>, entry: nat) returns (q: seq<nat>)
    requires Backward(nodes, 1) && nodes != [] && nodes[0] == JumpNode(entry) && HasZeroCycle(nodes, 0)
    ensures ZeroPath(nodes, q) && q[0] == entry && q[|q| - 1] == 0
  {
    var p: seq<nat> :| ZeroLasso(nodes, 0, p);
    var i, j :| 0 <= i < j < |p| && p[i] == p[j];
    if forall k :: i <= k < j ==> p[k] != 0 {
      CyclePassesHead(nodes, p, i, j);
    }
    var k :| i <= k < j && p[k] == 0;
    var m := if k == 0 then j else k;
    q := p[1..m + 1];
    assert ZeroEdge(nodes, p[0], p[1]);
    forall l | 0 <= l < |q| - 1 ensures ZeroEdge(nodes, q[l], q[l + 1]) {
      assert ZeroEdge(nodes, p[l + 1], p[l + 2]);
    }
  }

  /** The verdict on the module's own graph is exact: a zero-time cycle is reachable just
    * when the source can get back to the loop's head without a tick.
    */
  lemma CycleIffReturn(g: Graph, body: seq<Stmt>)
    requires GraphOf(g, body)
    ensures HasZeroCycle(g.nodes, g.head) <==> CanReturn(body)
  {
    var nodes, entry := g.nodes, g.nodes[0].succs[0].to;
    assert InRange(nodes);
    if CanReturn(body) {
      var p := ReturnsByPath(nodes, entry, body);
      var q := PathCons(nodes, 0, 0, p);
      assert q[0] == q[|q| - 1];
      assert ZeroLasso(nodes, 0, q);
    }
    if HasZeroCycle(nodes, g.head) {
      var q := LassoReturns(nodes, entry);
      PathReturns(nodes, entry, body, q);
    }
  }
}
