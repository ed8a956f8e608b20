/** One access per memory bus per clock cycle: the check on the graph, and what passing
  * it means for every run.
  */
module Memory {
  import opened Syntax
  import opened Semantics
  import opened Graphs
  import opened Cfg
  import opened Reachability
  import opened Tracing
  import opened Scoping
  import opened Nesting

  // ----- The rule ------------------------------------------------------------------------------------------

  /** Node `i` accesses bus `bus` more than once by itself. A folded ticking loop counts
    * once: its iterations are in different cycles.
    */
  predicate Twice(node: Node, bus: Sink) {
    !node.folded && multiset(node.mem)[bus] > 1
  }

  /** Two accesses of one bus that one clock cycle can contain. */
  ghost predicate Clash(nodes: seq<Node>, i: nat, j: nat, bus: Sink) {
    && i < |nodes| && j < |nodes| && bus in nodes[i].mem && bus in nodes[j].mem
    && (if i == j then Twice(nodes[i], bus) else SameCycle(nodes, i, j))
  }

  /** A nested loop without a tick is unrolled, so it may not touch memory at all. */
  predicate Unrolled(node: Node) {
    node.folded && !node.isTick && node.mem != []
  }

  ghost predicate BusesFree(nodes: seq<Node>) {
    (forall n <- nodes :: !Unrolled(n)) && forall i, j, bus :: !Clash(nodes, i, j, bus)
  }

  /** The rule holds in this loop and, on its own graph, in every loop inside. */
  ghost predicate OneAccessPerCycle(g: Graph)
    decreases g
  {
    BusesFree(g.nodes) && forall s <- g.nested :: OneAccessPerCycle(s)
  }

  // ----- The sites -------------------------------------------------------------------------------------------

  datatype Site = Site(node: nat, bus: Sink)

  /** A folded node's accesses, without repetitions. */
  method Deduplicated(mem: seq<Sink>) returns (out: seq<Sink>)
    ensures forall s :: multiset(out)[s] == if s in mem then 1 else 0
  {
    out := [];
    var here: set<Sink> := {};
    for i := 0 to |mem|
      invariant forall s :: s in here <==> s in mem[..i]
      invariant forall s :: multiset(out)[s] == if s in mem[..i] then 1 else 0
    {
      assert mem[..i + 1] == mem[..i] + [mem[i]];
      if mem[i] !in here {
        here := here + {mem[i]};
        out := out + [mem[i]];
      }
    }
    assert mem[..|mem|] == mem;
  }

  /** How many sites node `i` has for a bus. */
  function Accesses(node: Node, bus: Sink): nat {
    if node.folded then (if bus in node.mem then 1 else 0) else multiset(node.mem)[bus]
  }

  ghost predicate SitesOf(nodes: seq<Node>, sites: seq<Site>, n: nat) {
    n <= |nodes| && forall i: nat, bus :: multiset(sites)[Site(i, bus)] == if i < n then Accesses(nodes[i], bus) else 0
  }

  function Placed(i: nat, buses: seq<Sink>): seq<Site> {
    seq(|buses|, k requires 0 <= k < |buses| => Site(i, buses[k]))
  }

  lemma {:induction false} PlacedCount(i: nat, buses: seq<Sink>)
    ensures forall j: nat, bus :: multiset(Placed(i, buses))[Site(j, bus)] == if j == i then multiset(buses)[bus] else 0
  {
    if buses != [] {
      PlacedCount(i, buses[1..]);
      assert buses == [buses[0]] + buses[1..];
      assert Placed(i, buses) == [Site(i, buses[0])] + Placed(i, buses[1..]);
    }
  }

  method CollectSites(nodes: seq<Node>) returns (sites: seq<Site>)
    ensures SitesOf(nodes, sites, |nodes|)
  {
    sites := [];
    for i := 0 to |nodes|
      invariant SitesOf(nodes, sites, i)
    {
      var buses := nodes[i].mem;
      if nodes[i].folded {
        buses := Deduplicated(nodes[i].mem);
      }
      assert forall bus :: multiset(buses)[bus] == Accesses(nodes[i], bus);
      PlacedCount(i, buses);
      assert multiset(sites + Placed(i, buses)) == multiset(sites) + multiset(Placed(i, buses));
      sites := sites + Placed(i, buses);
    }
  }

  // ----- The check -------------------------------------------------------------------------------------------

  /** Sites `p` and `q` are in conflict. */
  ghost predicate InConflict(nodes: seq<Node>, sites: seq<Site>, p: nat, q: nat) {
    && p < |sites| && q < |sites| && p != q && sites[p].bus == sites[q].bus
    && (SameCycle(nodes, sites[p].node, sites[q].node) || SameCycle(nodes, sites[q].node, sites[p].node))
  }

  /** Does any other site share this one's bus and cycle? */
  method Conflicting(nodes: seq<Node>, sites: seq<Site>, p: nat) returns (r: bool)
    requires InRange(nodes) && p < |sites| && forall s <- sites :: s.node < |nodes|
    ensures r <==> exists q: nat :: InConflict(nodes, sites, p, q)
  {
    for q := 0 to |sites|
      invariant forall k: nat :: k < q ==> !InConflict(nodes, sites, p, k)
    {
      if q != p && sites[p].bus == sites[q].bus {
        var there := TickFreeReaches(nodes, sites[p].node, sites[q].node);
        var back := TickFreeReaches(nodes, sites[q].node, sites[p].node);
        if there || back {
          assert InConflict(nodes, sites, p, q);
          return true;
        }
      }
    }
    return false;
  }

  lemma {:induction false} TwoPlaces<T>(s: seq<T>, x: T) returns (p: nat, q: nat)
    requires multiset(s)[x] > 1
    ensures p < q < |s| && s[p] == x && s[q] == x
  {
    assert s == [s[0]] + s[1..];
    if s[0] == x {
      assert x in multiset(s[1..]);
      var k :| 0 <= k < |s[1..]| && s[1..][k] == x;
      p, q := 0, k + 1;
    } else {
      p, q := TwoPlaces(s[1..], x);
      p, q := p + 1, q + 1;
    }
  }

  lemma TwoPlacesCount<T>(s: seq<T>, p: nat, q: nat)
    requires p < q < |s| && s[p] == s[q]
    ensures multiset(s)[s[p]] > 1
  {
    var x := s[p];
    assert s == s[..q] + s[q..];
    assert multiset(s) == multiset(s[..q]) + multiset(s[q..]);
    assert s[..q][p] == x && s[q..][0] == x;
    assert x in multiset(s[..q]) && x in multiset(s[q..]);
  }

  lemma SiteOf(nodes: seq<Node>, sites: seq<Site>, i: nat, bus: Sink) returns (p: nat)
    requires SitesOf(nodes, sites, |nodes|) && i < |nodes| && bus in nodes[i].mem
    ensures p < |sites| && sites[p] == Site(i, bus)
  {
    assert bus in multiset(nodes[i].mem);
    assert Site(i, bus) in multiset(sites);
    p :| 0 <= p < |sites| && sites[p] == Site(i, bus);
  }

  lemma SiteInRange(nodes: seq<Node>, sites: seq<Site>, p: nat)
    requires SitesOf(nodes, sites, |nodes|) && p < |sites|
    ensures sites[p].node < |nodes| && sites[p].bus in nodes[sites[p].node].mem
  {
    var s := sites[p];
    assert s in multiset(sites) && multiset(sites)[Site(s.node, s.bus)] > 0;
    assert Accesses(nodes[s.node], s.bus) > 0;
    assert s.bus in multiset(nodes[s.node].mem);
  }

  /** Two sites in conflict are two accesses one cycle can contain. */
  lemma ConflictClashes(nodes: seq<Node>, sites: seq<Site>, p: nat, q: nat) returns (i: nat, j: nat, bus: Sink)
    requires SitesOf(nodes, sites, |nodes|) && InConflict(nodes, sites, p, q)
    ensures Clash(nodes, i, j, bus)
  {
    SiteInRange(nodes, sites, p);
    SiteInRange(nodes, sites, q);
    i, j, bus := sites[p].node, sites[q].node, sites[p].bus;
    if i == j {
      TwoPlacesCount(sites, if p < q then p else q, if p < q then q else p);
      assert sites[p] == Site(i, bus);
      assert Accesses(nodes[i], bus) > 1;
    } else if !SameCycle(nodes, i, j) {
      i, j := j, i;
    }
  }

  lemma ClashConflicts(nodes: seq<Node>, sites: seq<Site>, i: nat, j: nat, bus: Sink) returns (p: nat, q: nat)
    requires SitesOf(nodes, sites, |nodes|) && Clash(nodes, i, j, bus)
    ensures InConflict(nodes, sites, p, q)
  {
    if i == j {
      assert multiset(sites)[Site(i, bus)] > 1;
      p, q := TwoPlaces(sites, Site(i, bus));
      assert CombPath(nodes, [i]);
      assert SameCycle(nodes, i, i);
    } else {
      p := SiteOf(nodes, sites, i, bus);
      q := SiteOf(nodes, sites, j, bus);
    }
  }

  /** The bus rule on one graph. */
  method CheckBuses(nodes: seq<Node>) returns (ok: bool)
    requires InRange(nodes)
    ensures ok <==> BusesFree(nodes)
  {
    for i := 0 to |nodes|
      invariant forall k :: 0 <= k < i ==> !Unrolled(nodes[k])
    {
      if nodes[i].folded && !nodes[i].isTick && nodes[i].mem != [] {
        assert nodes[i] in nodes && Unrolled(nodes[i]);
        return false;
      }
    }
    var sites := CollectSites(nodes);
    forall s | s in sites ensures s.node < |nodes| {
      var p: nat :| p < |sites| && sites[p] == s;
      SiteInRange(nodes, sites, p);
    }
    for p := 0 to |sites|
      invariant forall k: nat, q: nat :: k < p ==> !InConflict(nodes, sites, k, q)
    {
      var bad := Conflicting(nodes, sites, p);
      if bad {
        ghost var q: nat :| InConflict(nodes, sites, p, q);
        ghost var i, j, bus := ConflictClashes(nodes, sites, p, q);
        return false;
      }
    }
    forall i, j, bus ensures !Clash(nodes, i, j, bus) {
      if Clash(nodes, i, j, bus) {
        var p, q := ClashConflicts(nodes, sites, i, j, bus);
      }
    }
    return true;
  }

  /** The bus rule, in this graph and every nested loop's. */
  method CheckMemoryStaging(g: Graph) returns (ok: bool)
    requires GraphOk(g)
    ensures ok <==> OneAccessPerCycle(g)
    decreases g
  {
    ok := CheckBuses(g.nodes);
    if !ok {
      return;
    }
    for i := 0 to |g.nested|
      invariant forall j :: 0 <= j < i ==> OneAccessPerCycle(g.nested[j])
    {
      ok := CheckMemoryStaging(g.nested[i]);
      if !ok {
        return;
      }
    }
    return true;
  }

  // ----- What the rule says of the text ---------------------------------------------------------------------

  /** The statement drives this memory bus itself. */
  predicate Stages(s: Stmt, bus: Sink) {
    s.Do? && s.action.Drive? && s.action.sink == bus && !bus.OutPort?
  }

  lemma {:induction false} BusesInIff(stmts: seq<Stmt>, bus: Sink)
    ensures bus in BusesIn(stmts) <==> exists s <- Everywhere(stmts) :: Stages(s, bus)
    decreases stmts, 1
  {
    if stmts != [] {
      BusesInStmtIff(stmts[0], bus);
      BusesInIff(stmts[1..], bus);
      assert Everywhere(stmts) == {stmts[0]} + Inside(stmts[0]) + Everywhere(stmts[1..]);
    }
  }

  lemma {:induction false} BusesInStmtIff(s: Stmt, bus: Sink)
    ensures bus in BusesInStmt(s) <==> Stages(s, bus) || exists y <- Inside(s) :: Stages(y, bus)
    decreases s, 0
  {
    match s
    case Branch(_, arms) => BusesInArmsIff(arms, bus);
    case Loop(body) => BusesInIff(body, bus);
    case While(_, body) => BusesInIff(body, bus);
    case For(_, _, _, body) => BusesInIff(body, bus);
    case _ =>
  }

  lemma {:induction false} BusesInArmsIff(arms: seq<Arm>, bus: Sink)
    ensures bus in BusesInArms(arms) <==> exists s <- InsideArms(arms) :: Stages(s, bus)
    decreases arms, 0
  {
    if arms != [] {
      BusesInIff(arms[0].body, bus);
      BusesInArmsIff(arms[1..], bus);
      assert InsideArms(arms) == Everywhere(arms[0].body) + InsideArms(arms[1..]);
    }
  }

  /** No loop without a tick at this place drives a bus, and no statement at it one that can be
    * driven again before the next clock edge.
    */
  ghost predicate StagedOnce(body: seq<Stmt>, todo: seq<Stmt>, nested: bool) {
    todo != [] ==>
      && (Nests(todo[0]) && !ContainsTick(todo[0].body) ==> forall y <- Inside(todo[0]), bus :: !Stages(y, bus))
      && forall bus :: Stages(todo[0], bus) ==> !Meets(body, todo[1..], bus, nested)
  }

  /** So it is at every place of this loop. */
  ghost predicate OncePerCycle(body: seq<Stmt>, nested: bool) {
    forall todo <- Spots(body, []) :: StagedOnce(body, todo, nested)
  }

  /** A graph with its places, and no way round it in no time. */
  ghost predicate Sound(nodes: seq<Node>, body: seq<Stmt>, nested: bool) {
    && LoopHead(nodes, body, nested) && InRange(nodes) && Backward(nodes, 1) && !HasZeroCycle(nodes, 0)
    && Seated(nodes, if nested then 2 else 1, |nodes|, Spots(body, []), LoopTargets(nested))
  }

  lemma NodeMem(nodes: seq<Node>, n: nat, todo: seq<Stmt>, t: Targets, bus: Sink)
    requires todo != [] && Wired(nodes, n, todo, t)
    ensures n < |nodes| && !nodes[n].folded ==> (bus in nodes[n].mem <==> Stages(todo[0], bus)) && !Twice(nodes[n], bus)
    ensures nodes[n].folded <==> Nests(todo[0])
    ensures nodes[n].folded ==> nodes[n].isTick == ContainsTick(todo[0].body)
    ensures nodes[n].folded && !nodes[n].isTick ==> (bus in nodes[n].mem <==> exists y <- Inside(todo[0]) :: Stages(y, bus))
  {
    assert Size(todo) == StmtSize(todo[0]) + Size(todo[1..]);
    if Nests(todo[0]) {
      BusesInIff(todo[0].body, bus);
    }
  }

  /** What can be driven again is on a path of the graph. */
  lemma MeetsByPath(nodes: seq<Node>, n: nat, todo: seq<Stmt>, body: seq<Stmt>, bus: Sink, nested: bool) returns (p: seq<nat>)
    requires LoopHead(nodes, body, nested) && Wired(nodes, n, todo, LoopTargets(nested)) && Meets(body, todo, bus, nested)
    ensures CombPath(nodes, p) && p[0] == n && bus in nodes[p[|p| - 1]].mem
  {
    if Touches(todo, bus, nested) {
      p := TouchesByPath(nodes, n, todo, bus, nested);
    } else {
      var a := RoundByPath(nodes, n, todo, nested);
      var entry := nodes[0].succs[0].to;
      var b := TouchesByPath(nodes, entry, body, bus, nested);
      assert nodes[0].succs[0] == Arc(entry, Comb) && CombEdge(nodes, 0, entry);
      p := PathsJoin(nodes, a, b);
    }
  }

  lemma PathsJoin(nodes: seq<Node>, a: seq<nat>, b: seq<nat>) returns (p: seq<nat>)
    requires CombPath(nodes, a) && CombPath(nodes, b) && CombEdge(nodes, a[|a| - 1], b[0])
    ensures CombPath(nodes, p) && p == a + b && p[0] == a[0] && p[|p| - 1] == b[|b| - 1]
  {
    p := a + b;
    forall i | 0 <= i < |p| - 1 ensures CombEdge(nodes, p[i], p[i + 1]) {
      if i < |a| - 1 {
        assert CombEdge(nodes, a[i], a[i + 1]);
      } else if i >= |a| {
        assert CombEdge(nodes, b[i - |a|], b[i - |a| + 1]);
      }
    }
  }

  lemma FreeIsStaged(nodes: seq<Node>, body: seq<Stmt>, nested: bool, todo: seq<Stmt>)
    requires Sound(nodes, body, nested) && BusesFree(nodes) && todo in Spots(body, [])
    ensures StagedOnce(body, todo, nested)
  {
    if todo != [] {
      var lo, t := if nested then 2 else 1, LoopTargets(nested);
      assert SeatOf(nodes, lo, |nodes|, todo, t);
      var n: nat :| lo <= n < |nodes| && Wired(nodes, n, todo, t);
      assert nodes[n] in nodes;
      if Nests(todo[0]) && !ContainsTick(todo[0].body) {
        forall y, bus | y in Inside(todo[0]) ensures !Stages(y, bus) {
          NodeMem(nodes, n, todo, t, bus);
        }
      }
      forall bus | Stages(todo[0], bus) ensures !Meets(body, todo[1..], bus, nested) {
        NodeMem(nodes, n, todo, t, bus);
        if Meets(body, todo[1..], bus, nested) {
          StagedAgain(nodes, body, nested, n, todo, bus);
        }
      }
    }
  }

  lemma StagedAgain(nodes: seq<Node>, body: seq<Stmt>, nested: bool, n: nat, todo: seq<Stmt>, bus: Sink)
    requires Sound(nodes, body, nested) && todo != [] && Wired(nodes, n, todo, LoopTargets(nested)) && Stages(todo[0], bus)
    requires Meets(body, todo[1..], bus, nested)
    ensures !BusesFree(nodes)
  {
    assert Size(todo) == StmtSize(todo[0]) + Size(todo[1..]);
    NodeMem(nodes, n, todo, LoopTargets(nested), bus);
    var m := nodes[n].succs[0].to;
    assert nodes[n].succs[0] == Arc(m, Comb);
    var q := MeetsByPath(nodes, m, todo[1..], body, bus, nested);
    var p := CombPathCons(nodes, n, q);
    var j := p[|p| - 1];
    if n == j {
      WalkAgain(nodes, p, 0, |p| - 1);
    } else {
      assert SameCycle(nodes, n, j);
      assert Clash(nodes, n, j, bus);
    }
  }

  lemma NodeHasSpot(nodes: seq<Node>, body: seq<Stmt>, nested: bool, n: nat) returns (todo: seq<Stmt>)
    requires Sound(nodes, body, nested) && n < |nodes| && nodes[n].mem != []
    ensures todo in Spots(body, []) && todo != [] && Wired(nodes, n, todo, LoopTargets(nested))
  {
    var lo, t := if nested then 2 else 1, LoopTargets(nested);
    assert n >= lo && SeatsOne(nodes, n, Spots(body, []), t);
    todo :| todo in Spots(body, []) && Wired(nodes, n, todo, t);
    SpotsAreInside(body, []);
  }

  lemma StagedHasNoClash(nodes: seq<Node>, body: seq<Stmt>, nested: bool, i: nat, j: nat, bus: Sink)
    requires Sound(nodes, body, nested) && OncePerCycle(body, nested)
    ensures !Clash(nodes, i, j, bus)
  {
    if Clash(nodes, i, j, bus) {
      var todo := NodeHasSpot(nodes, body, nested, i);
      var t := LoopTargets(nested);
      NodeMem(nodes, i, todo, t, bus);
      assert StagedOnce(body, todo, nested);
      if i != j {
        var p: seq<nat> :| CombPath(nodes, p) && p[0] == i && p[|p| - 1] == j;
        CombPathTail(nodes, p);
        PathTouchesOn(nodes, i, todo, body, p, bus, nested);
      }
    }
  }

  lemma StagedIsFree(nodes: seq<Node>, body: seq<Stmt>, nested: bool)
    requires Sound(nodes, body, nested) && OncePerCycle(body, nested)
    ensures BusesFree(nodes)
  {
    forall node | node in nodes ensures !Unrolled(node) {
      if Unrolled(node) {
        var n: nat :| n < |nodes| && nodes[n] == node;
        var todo := NodeHasSpot(nodes, body, nested, n);
        assert node.mem[0] in node.mem && StagedOnce(body, todo, nested);
        NodeMem(nodes, n, todo, LoopTargets(nested), node.mem[0]);
      }
    }
    forall i, j, bus ensures !Clash(nodes, i, j, bus) {
      StagedHasNoClash(nodes, body, nested, i, j, bus);
    }
  }

  /** The bus rule on a loop's own graph is one on its text. */
  lemma BusesFreeIff(nodes: seq<Node>, body: seq<Stmt>, nested: bool)
    requires Sound(nodes, body, nested)
    ensures BusesFree(nodes) <==> OncePerCycle(body, nested)
  {
    if BusesFree(nodes) {
      forall todo | todo in Spots(body, []) ensures StagedOnce(body, todo, nested) {
        FreeIsStaged(nodes, body, nested, todo);
      }
    }
    if OncePerCycle(body, nested) {
      StagedIsFree(nodes, body, nested);
    }
  }

  lemma AmongOf(subs: seq<Graph>, h: Graph, sub: Graph)
    requires h in subs && (sub == h || Among(h.nested, sub))
    ensures Among(subs, sub)
  {
  }

  /** The rule over all nested graphs, one by one. */
  lemma {:induction false} StagingAmong(g: Graph)
    ensures OneAccessPerCycle(g) <==> BusesFree(g.nodes) && forall sub :: Among(g.nested, sub) ==> BusesFree(sub.nodes)
    decreases g
  {
    forall h | h in g.nested
      ensures OneAccessPerCycle(h) <==> BusesFree(h.nodes) && forall sub :: Among(h.nested, sub) ==> BusesFree(sub.nodes)
    {
      StagingAmong(h);
    }
    forall h, sub | h in g.nested && (sub == h || Among(h.nested, sub)) ensures Among(g.nested, sub) {
      AmongOf(g.nested, h, sub);
    }
  }

  lemma {:induction false} TicksAmong(g: Graph, sub: Graph)
    requires TicksEverywhere(g) && Among(g.nested, sub)
    ensures !HasZeroCycle(sub.nodes, sub.head)
    decreases g
  {
    var h :| h in g.nested && (h == sub || Among(h.nested, sub));
    if h != sub {
      TicksAmong(h, sub);
    }
  }

  /** The module's loop and each ticking loop nested in it drive every bus once per cycle at most. */
  ghost predicate MemoryStaged(body: seq<Stmt>) {
    OncePerCycle(body, false) && forall s <- Everywhere(body) :: Nests(s) && ContainsTick(s.body) ==> OncePerCycle(s.body, true)
  }

  /** What the check refuses, of loops that tick everywhere: a loop without a tick that drives a bus,
    * and a bus that can be driven twice between two clock edges, in the module's loop or in one
    * nested in it. Accesses on exclusive branches are never in each other's way.
    */
  lemma StagingIsText(g: Graph, body: seq<Stmt>)
    requires GraphOf(g, body) && TicksEverywhere(g)
    ensures OneAccessPerCycle(g) <==> MemoryStaged(body)
  {
    StagingAmong(g);
    BusesFreeIff(g.nodes, body, false);
    if MemoryStaged(body) {
      forall sub | Among(g.nested, sub) ensures BusesFree(sub.nodes) {
        var s := NestedLoop(g.nested, body, sub);
        NestedFreeIff(g, sub, s.body);
      }
    }
    if OneAccessPerCycle(g) {
      forall s | s in Everywhere(body) && Nests(s) && ContainsTick(s.body) ensures OncePerCycle(s.body, true) {
        var sub := NestedGraph(g.nested, body, s);
        NestedFreeIff(g, sub, s.body);
      }
    }
  }

  lemma NestedFreeIff(g: Graph, sub: Graph, body: seq<Stmt>)
    requires TicksEverywhere(g) && Among(g.nested, sub) && SubGraphOf(sub, body)
    ensures BusesFree(sub.nodes) <==> OncePerCycle(body, true)
  {
    TicksAmong(g, sub);
    SubGraphOk(sub, body);
    BusesFreeIff(sub.nodes, body, true);
  }

  // ----- What passing means for a run ----------------------------------------------------------------------------

  /** No two accesses of one memory bus among these events. */
  predicate BusesDrivenOnce(log: seq<Event>) {
    forall e, f :: 0 <= e < f < |log| && !log[e].sink.OutPort? ==> log[e].sink != log[f].sink
  }

  lemma CombIsZero(nodes: seq<Node>, p: seq<nat>)
    requires CombPath(nodes, p)
    ensures ZeroPath(nodes, p)
  {
    forall i | 0 <= i < |p| - 1 ensures ZeroEdge(nodes, p[i], p[i + 1]) {
      assert CombEdge(nodes, p[i], p[i + 1]);
    }
  }

  lemma PartOfPath(nodes: seq<Node>, p: seq<nat>, i: nat, j: nat)
    requires CombPath(nodes, p) && i <= j < |p|
    ensures CombPath(nodes, p[i..j + 1]) && p[i..j + 1][0] == p[i] && p[i..j + 1][j - i] == p[j]
    ensures SameCycle(nodes, p[i], p[j])
  {
    var q := p[i..j + 1];
    forall k | 0 <= k < |q| - 1 ensures CombEdge(nodes, q[k], q[k + 1]) {
      assert CombEdge(nodes, p[i + k], p[i + k + 1]);
    }
  }

  /** A walk within the cycle that meets a node again passes the head, and so makes the
    * loop return to its head in no time.
    */
  lemma WalkAgain(nodes: seq<Node>, p: seq<nat>, i: nat, j: nat)
    requires Backward(nodes, 1) && CombPath(nodes, p) && i < j < |p| && p[i] == p[j]
    ensures HasZeroCycle(nodes, 0)
  {
    CombIsZero(nodes, p);
    if forall k :: i <= k < j ==> p[k] != 0 {
      CyclePassesHead(nodes, p, i, j);
    }
    var k :| i <= k < j && p[k] == 0;
    var a, b := p[k..j + 1], p[i..k + 1];
    PartOfPath(nodes, p, k, j);
    PartOfPath(nodes, p, i, k);
    var q := a + b[1..];
    forall l | 0 <= l < |q| - 1 ensures CombEdge(nodes, q[l], q[l + 1]) {
      if l < |a| - 1 {
        assert CombEdge(nodes, a[l], a[l + 1]);
      } else {
        assert CombEdge(nodes, b[l - (|a| - 1)], b[l - (|a| - 1) + 1]);
      }
    }
    CombIsZero(nodes, q);
    assert q[0] == 0 && q[|q| - 1] == 0 && |q| > 1;
    assert ZeroLasso(nodes, 0, q);
  }

  /** Two accesses a cycle shows are two accesses the graph has on a tick-free path. */
  lemma EventsClash(nodes: seq<Node>, p: seq<nat>, i: nat, j: nat, bus: Sink)
    requires Backward(nodes, 1) && !HasZeroCycle(nodes, 0) && Stroll(nodes, p) && i < j < |p|
    requires !nodes[p[i]].folded && bus in nodes[p[i]].mem && bus in nodes[p[j]].mem
    ensures Clash(nodes, p[i], p[j], bus)
  {
    var q := Passed(nodes, p, i, j);
    if p[i] == p[j] {
      WalkAgain(nodes, q, 0, |q| - 1);
      assert false;
    }
  }

  lemma WalkDrivesOnce(nodes: seq<Node>, ports: set<string>, log: seq<Event>, p: seq<nat>)
    requires Backward(nodes, 1) && !HasZeroCycle(nodes, 0) && BusesFree(nodes) && DrivenOn(nodes, ports, log, p)
    ensures BusesDrivenOnce(log)
  {
    var at: seq<nat> :| DrivenAlong(nodes, ports, log, p, at);
    forall e, f | 0 <= e < f < |log| && !log[e].sink.OutPort? ensures log[e].sink != log[f].sink {
      if log[e].sink == log[f].sink {
        assert nodes[p[at[e]]] in nodes && !Unrolled(nodes[p[at[e]]]);
        EventsClash(nodes, p, at[e], at[f], log[e].sink);
      }
    }
  }

  /** A loop whose nested loops do not tick and that both checks accept never drives a memory
    * bus twice in one clock cycle, whatever the inputs, in any run of any length; a cycle that
    * wraps through the loop's head is no exception.
    */
  lemma AcceptedBusesAreDrivenOnce(env: Env, g: Graph, body: seq<Stmt>, st: State, logs: seq<seq<Event>>, c: Config, s: State)
    requires GraphOf(g, body) && Unticked(body) && TicksEverywhere(g) && OneAccessPerCycle(g)
    requires Runs(env, Config(body, Module(body)), st, logs, c, s)
    ensures forall log <- logs :: BusesDrivenOnce(log)
  {
    var walks := EveryCycleIsOneWalk(env, g, body, st, logs, c, s);
    forall log | log in logs ensures BusesDrivenOnce(log) {
      var i :| 0 <= i < |logs| && logs[i] == log;
      WalkDrivesOnce(g.nodes, LoopPorts(body), log, walks[i]);
    }
  }
}
