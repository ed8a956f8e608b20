/** Graphs of statements, their paths, and the search the timing rules ask of them. */
module Graphs {
  import opened Syntax

  datatype Kind = Comb | TickEdge

  datatype Arc = Arc(to: nat, kind: Kind)

  /** `defs` are full writes, `uses` reads; `writes` are the output ports driven here
    * and `mem` the memory buses. `mayExit` marks a folded ticking loop that can be
    * left before it ever ticks.
    */
  datatype Node = Node(defs: set<string>, uses: set<string>, isTick: bool, succs: seq<Arc>,
                       writes: set<string>, mem: seq<Sink>, folded: bool, mayExit: bool)

  const EMPTY := Node({}, {}, false, [], {}, [], false, false)

  /** `head` is where the loop starts over; `nested` are the graphs of the ticking loops
    * folded in this one; `outputs` are the module's combinational output ports.
    */
  datatype Graph = Graph(nodes: seq<Node>, head: nat, nested: seq<Graph>, outputs: set<string>)

  predicate InRange(nodes: seq<Node>) {
    forall i, j :: 0 <= i < |nodes| && 0 <= j < |nodes[i].succs| ==> nodes[i].succs[j].to < |nodes|
  }

  /** An edge of either kind. */
  predicate Linked(nodes: seq<Node>, a: nat, b: nat) {
    a < |nodes| && exists j :: 0 <= j < |nodes[a].succs| && nodes[a].succs[j].to == b
  }

  /** An edge within the clock cycle. */
  predicate CombEdge(nodes: seq<Node>, a: nat, b: nat) {
    a < |nodes| && exists j :: 0 <= j < |nodes[a].succs| && nodes[a].succs[j] == Arc(b, Comb)
  }

  /** A path from `a` to `b` that crosses no clock edge. */
  predicate CombPath(nodes: seq<Node>, p: seq<nat>) {
    && p != [] && (forall i :: 0 <= i < |p| ==> p[i] < |nodes|)
    && forall i :: 0 <= i < |p| - 1 ==> CombEdge(nodes, p[i], p[i + 1])
  }

  ghost predicate SameCycle(nodes: seq<Node>, a: nat, b: nat) {
    exists p: seq<nat> :: CombPath(nodes, p) && p[0] == a && p[|p| - 1] == b
  }

  lemma CombPathExtends(nodes: seq<Node>, p: seq<nat>, b: nat)
    requires CombPath(nodes, p) && b < |nodes| && CombEdge(nodes, p[|p| - 1], b)
    ensures CombPath(nodes, p + [b]) && (p + [b])[0] == p[0]
  {
  }

  /** A set closed under edges within the cycle is left by no path within the cycle. */
  lemma {:induction false} ClosedUnderPath(nodes: seq<Node>, inside: set<nat>, p: seq<nat>)
    requires CombPath(nodes, p) && p[0] in inside
    requires forall a, b :: a in inside && CombEdge(nodes, a, b) ==> b in inside
    ensures p[|p| - 1] in inside
    decreases |p|
  {
    if |p| > 1 {
      assert CombEdge(nodes, p[0], p[1]);
      forall i | 0 <= i < |p[1..]| - 1 ensures CombEdge(nodes, p[1..][i], p[1..][i + 1]) {
        assert CombEdge(nodes, p[i + 1], p[i + 2]);
      }
      ClosedUnderPath(nodes, inside, p[1..]);
    }
  }

  /** Is there a path from `a` to `b` that crosses no clock edge? */
  method TickFreeReaches(nodes: seq<Node>, a: nat, b: nat) returns (r: bool)
    requires InRange(nodes) && a < |nodes| && b < |nodes|
    ensures r <==> SameCycle(nodes, a, b)
  {
    var stack: seq<nat> := [a];
    var seen := new bool[|nodes|](_ => false);
    assert CombPath(nodes, [a]);
    while stack != []
      invariant seen.Length == |nodes|
      invariant forall x <- stack :: x < |nodes| && SameCycle(nodes, a, x)
      invariant forall x: nat :: x < |nodes| && seen[x] ==> SameCycle(nodes, a, x) && x != b
      invariant forall x: nat, y: nat :: x < |nodes| && seen[x] && CombEdge(nodes, x, y) ==> y in stack || (y < |nodes| && seen[y])
      invariant a in stack || seen[a]
      decreases |nodes| - Count(seen[..]), |stack|
    {
      var n := stack[|stack| - 1];
      ghost var was := stack;
      assert n in stack && n < |nodes|;
      stack := stack[..|stack| - 1];
      assert forall x <- was :: x in stack || x == n;
      if n == b {
        return true;
      }
      if !seen[n] {
        CountSet(seen[..], n);
        seen[n] := true;
        stack := PushAll(nodes, a, n, stack);
      }
    }
    if SameCycle(nodes, a, b) {
      var p: seq<nat> :| CombPath(nodes, p) && p[0] == a && p[|p| - 1] == b;
      var inside := set x: nat | x < |nodes| && seen[x];
      ClosedUnderPath(nodes, inside, p);
    }
    return false;
  }

  /** The successors of `n` within the cycle, on top of the stack. */
  method PushAll(nodes: seq<Node>, a: nat, n: nat, stack: seq<nat>) returns (out: seq<nat>)
    requires InRange(nodes) && n < |nodes| && SameCycle(nodes, a, n)
    requires forall x <- stack :: x < |nodes| && SameCycle(nodes, a, x)
    ensures stack <= out && forall x <- out :: x < |nodes| && SameCycle(nodes, a, x)
    ensures forall y: nat :: CombEdge(nodes, n, y) ==> y in out
  {
    out := stack;
    ghost var p: seq<nat> :| CombPath(nodes, p) && p[0] == a && p[|p| - 1] == n;
    for i := 0 to |nodes[n].succs|
      invariant stack <= out && forall x <- out :: x < |nodes| && SameCycle(nodes, a, x)
      invariant forall j :: 0 <= j < i && nodes[n].succs[j].kind == Comb ==> nodes[n].succs[j].to in out
    {
      var e := nodes[n].succs[i];
      if e.kind == Comb {
        assert CombEdge(nodes, n, e.to);
        CombPathExtends(nodes, p, e.to);
        assert (p + [e.to])[|p + [e.to]| - 1] == e.to;
        out := out + [e.to];
      }
    }
  }

  function Count(marks: seq<bool>): (n: nat)
    ensures n <= |marks|
  {
    if marks == [] then 0 else (if marks[0] then 1 else 0) + Count(marks[1..])
  }

  lemma {:induction false} CountSet(marks: seq<bool>, i: nat)
    requires i < |marks| && !marks[i]
    ensures Count(marks[i := true]) == Count(marks) + 1
  {
    if i > 0 {
      CountSet(marks[1..], i - 1);
      assert marks[i := true][1..] == marks[1..][i - 1 := true];
    } else {
      assert marks[0 := true][1..] == marks[1..];
    }
  }

  /** The buses driven in the cycle that enters a nested loop. */
  method EntryCycleMem(g: Graph) returns (mem: seq<Sink>)
    requires InRange(g.nodes) && g.head < |g.nodes|
    ensures forall s: Sink :: s in mem <==> exists i :: 0 <= i < |g.nodes| && SameCycle(g.nodes, g.head, i) && s in g.nodes[i].mem
  {
    mem := [];
    for i := 0 to |g.nodes|
      invariant forall s: Sink :: s in mem <==> exists j :: 0 <= j < i && SameCycle(g.nodes, g.head, j) && s in g.nodes[j].mem
    {
      var here := TickFreeReaches(g.nodes, g.head, i);
      if here {
        mem := mem + g.nodes[i].mem;
      }
    }
  }
}
