/** Latches: a combinational output driven on some path through the body but not on all.
  * Two fixpoints decide it, one of what may have been driven and one of what must have.
  */
module DefiniteAssignment {
  import opened Syntax
  import opened Graphs
  import opened Cfg
  import opened Liveness

  // ----- Driven, by paths ------------------------------------------------------------------------

  /** Some path within the cycle that ends at `n` starts where `w` is driven. */
  ghost predicate MayDrive(nodes: seq<Node>, n: nat, w: string) {
    exists p: seq<nat> :: CombPath(nodes, p) && p[|p| - 1] == n && w in nodes[p[0]].writes
  }

  /** Nothing has been driven yet at `n` when control gets there: it is where everything
    * starts, or a clock edge leads to it.
    */
  ghost predicate Fresh(nodes: seq<Node>, n: nat) {
    !HasPred(nodes, n) || exists i: nat, j: nat :: EdgeAt(nodes, i, j, n) && nodes[i].succs[j].kind == TickEdge
  }

  predicate EdgeAt(nodes: seq<Node>, i: nat, j: nat, n: nat) {
    i < |nodes| && j < |nodes[i].succs| && nodes[i].succs[j].to == n
  }

  predicate Silent(nodes: seq<Node>, p: seq<nat>, w: string) {
    forall k :: 0 <= k < |p| ==> p[k] < |nodes| && w !in nodes[p[k]].writes
  }

  /** Some path that ends at `n`, from where nothing is driven yet, never drives `w`. */
  ghost predicate Avoids(nodes: seq<Node>, n: nat, w: string) {
    exists p: seq<nat> :: CombPath(nodes, p) && p[|p| - 1] == n && Fresh(nodes, p[0]) && Silent(nodes, p, w)
  }

  lemma PathGrows(nodes: seq<Node>, p: seq<nat>, i: nat, j: nat, n: nat)
    requires CombPath(nodes, p) && p[|p| - 1] == i && EdgeAt(nodes, i, j, n) && nodes[i].succs[j].kind == Comb && n < |nodes|
    ensures CombPath(nodes, p + [n])
  {
    assert nodes[i].succs[j] == Arc(n, Comb);
    CombPathExtends(nodes, p, n);
  }

  // ----- Predecessors -----------------------------------------------------------------------------

  /** `preds[n]` lists the edges into `n`, each with where it comes from. */
  ghost predicate PredsOk(nodes: seq<Node>, preds: seq<seq<Arc>>) {
    && |preds| == |nodes|
    && (forall n, k :: 0 <= n < |preds| && 0 <= k < |preds[n]| ==> IsPred(nodes, n, preds[n][k]))
    && forall i: nat, j: nat, n: nat :: EdgeAt(nodes, i, j, n) && n < |nodes| ==> Arc(i, nodes[i].succs[j].kind) in preds[n]
  }

  predicate IsPred(nodes: seq<Node>, n: nat, a: Arc) {
    a.to < |nodes| && exists j :: 0 <= j < |nodes[a.to].succs| && nodes[a.to].succs[j] == Arc(n, a.kind)
  }

  method Predecessors(nodes: seq<Node>) returns (preds: seq<seq<Arc>>)
    requires InRange(nodes)
    ensures PredsOk(nodes, preds)
  {
    preds := seq(|nodes|, _ => []);
    for i := 0 to |nodes|
      invariant |preds| == |nodes|
      invariant forall n, k :: 0 <= n < |preds| && 0 <= k < |preds[n]| ==> IsPred(nodes, n, preds[n][k])
      invariant forall a: nat, j: nat, n: nat :: a < i && EdgeAt(nodes, a, j, n) && n < |nodes| ==> Arc(a, nodes[a].succs[j].kind) in preds[n]
    {
      preds := AddEdges(nodes, i, preds);
    }
  }

  method AddEdges(nodes: seq<Node>, i: nat, preds: seq<seq<Arc>>) returns (more: seq<seq<Arc>>)
    requires InRange(nodes) && |preds| == |nodes| && i < |nodes|
    requires forall n, k :: 0 <= n < |preds| && 0 <= k < |preds[n]| ==> IsPred(nodes, n, preds[n][k])
    ensures |more| == |nodes| && forall n :: 0 <= n < |preds| ==> preds[n] <= more[n]
    ensures forall n, k :: 0 <= n < |more| && 0 <= k < |more[n]| ==> IsPred(nodes, n, more[n][k])
    ensures forall j: nat :: j < |nodes[i].succs| ==> Arc(i, nodes[i].succs[j].kind) in more[nodes[i].succs[j].to]
  {
    more := preds;
    for j := 0 to |nodes[i].succs|
      invariant |more| == |nodes| && forall n :: 0 <= n < |preds| ==> preds[n] <= more[n]
      invariant forall n, k :: 0 <= n < |more| && 0 <= k < |more[n]| ==> IsPred(nodes, n, more[n][k])
      invariant forall l: nat :: l < j ==> Arc(i, nodes[i].succs[l].kind) in more[nodes[i].succs[l].to]
    {
      var e := nodes[i].succs[j];
      assert e == Arc(e.to, e.kind);
      assert IsPred(nodes, e.to, Arc(i, e.kind));
      more := more[e.to := more[e.to] + [Arc(i, e.kind)]];
    }
  }

  lemma PredsExist(nodes: seq<Node>, preds: seq<seq<Arc>>, n: nat)
    requires PredsOk(nodes, preds) && n < |nodes|
    ensures preds[n] != [] <==> HasPred(nodes, n)
  {
    if preds[n] != [] {
      assert IsPred(nodes, n, preds[n][0]);
      assert Linked(nodes, preds[n][0].to, n);
    }
    if HasPred(nodes, n) {
      var i :| 0 <= i < |nodes| && Linked(nodes, i, n);
      var j :| 0 <= j < |nodes[i].succs| && nodes[i].succs[j].to == n;
      assert EdgeAt(nodes, i, j, n);
    }
  }

  // ----- What may have been driven -----------------------------------------------------------------

  function MayOf(nodes: seq<Node>, preds: seq<seq<Arc>>, may: Sets, n: nat): set<string>
    requires |may| == |nodes| == |preds| && n < |nodes|
  {
    nodes[n].writes + set k, w | 0 <= k < |preds[n]| && preds[n][k].kind == Comb && preds[n][k].to < |may| && w in may[preds[n][k].to] :: w
  }

  function AllWrites(nodes: seq<Node>): set<string> {
    if nodes == [] then {} else nodes[0].writes + AllWrites(nodes[1..])
  }

  lemma {:induction false} WritesWithin(nodes: seq<Node>, n: nat)
    requires n < |nodes|
    ensures nodes[n].writes <= AllWrites(nodes)
  {
    if n > 0 {
      WritesWithin(nodes[1..], n - 1);
    }
  }

  ghost predicate MaySound(nodes: seq<Node>, may: Sets) {
    |may| == |nodes| && forall n: nat, w :: n < |nodes| && w in may[n] ==> MayDrive(nodes, n, w)
  }

  /** Nothing wrong is held, recomputing loses nothing, and there is a bound. */
  ghost predicate MayOk(nodes: seq<Node>, preds: seq<seq<Arc>>, may: Sets)
    requires |preds| == |nodes|
  {
    MaySound(nodes, may) && Bounded(may, AllWrites(nodes)) && MayGrowing(nodes, preds, may)
  }

  ghost predicate MayGrowing(nodes: seq<Node>, preds: seq<seq<Arc>>, may: Sets)
    requires |preds| == |nodes| == |may|
  {
    forall n: nat :: n < |nodes| ==> may[n] <= MayOf(nodes, preds, may, n)
  }

  lemma MayOfSound(nodes: seq<Node>, preds: seq<seq<Arc>>, may: Sets, n: nat)
    requires PredsOk(nodes, preds) && MaySound(nodes, may) && n < |nodes|
    ensures forall w :: w in MayOf(nodes, preds, may, n) ==> MayDrive(nodes, n, w)
  {
    forall w | w in MayOf(nodes, preds, may, n) ensures MayDrive(nodes, n, w) {
      if w in nodes[n].writes {
        assert CombPath(nodes, [n]) && [n][|[n]| - 1] == n;
      } else {
        var k :| 0 <= k < |preds[n]| && preds[n][k].kind == Comb && w in may[preds[n][k].to];
        var i := preds[n][k].to;
        assert IsPred(nodes, n, preds[n][k]);
        var j :| 0 <= j < |nodes[i].succs| && nodes[i].succs[j] == Arc(n, Comb);
        var p: seq<nat> :| CombPath(nodes, p) && p[|p| - 1] == i && w in nodes[p[0]].writes;
        PathGrows(nodes, p, i, j, n);
        assert (p + [n])[|p + [n]| - 1] == n && (p + [n])[0] == p[0];
      }
    }
  }

  lemma MayOfGrows(nodes: seq<Node>, preds: seq<seq<Arc>>, may: Sets, n: nat)
    requires |preds| == |nodes| == |may| && MayGrowing(nodes, preds, may) && n < |nodes|
    ensures MayGrowing(nodes, preds, may[n := MayOf(nodes, preds, may, n)])
  {
    var may' := may[n := MayOf(nodes, preds, may, n)];
    forall m: nat | m < |nodes| ensures MayOf(nodes, preds, may, m) <= MayOf(nodes, preds, may', m) {
      forall w | w in MayOf(nodes, preds, may, m) && w !in nodes[m].writes ensures w in MayOf(nodes, preds, may', m) {
        var k :| 0 <= k < |preds[m]| && preds[m][k].kind == Comb && preds[m][k].to < |may| && w in may[preds[m][k].to];
        assert w in may'[preds[m][k].to];
      }
    }
  }

  lemma MayStep(nodes: seq<Node>, preds: seq<seq<Arc>>, may: Sets, n: nat)
    requires PredsOk(nodes, preds) && MayOk(nodes, preds, may) && n < |nodes|
    ensures var out := MayOf(nodes, preds, may, n);
      && MayOk(nodes, preds, may[n := out]) && TotalSize(may) <= TotalSize(may[n := out])
      && (out != may[n] ==> TotalSize(may) < TotalSize(may[n := out]))
  {
    var out := MayOf(nodes, preds, may, n);
    MayOfSound(nodes, preds, may, n);
    MayOfGrows(nodes, preds, may, n);
    MayOfBounded(nodes, preds, may, n);
    TotalUpdate(may, n, out);
    SubsetSize(may[n], out);
  }

  lemma MayOfBounded(nodes: seq<Node>, preds: seq<seq<Arc>>, may: Sets, n: nat)
    requires |may| == |nodes| == |preds| && n < |nodes| && Bounded(may, AllWrites(nodes))
    ensures MayOf(nodes, preds, may, n) <= AllWrites(nodes)
  {
    WritesWithin(nodes, n);
    forall w | w in MayOf(nodes, preds, may, n) && w !in nodes[n].writes ensures w in AllWrites(nodes) {
      var k :| 0 <= k < |preds[n]| && preds[n][k].kind == Comb && preds[n][k].to < |may| && w in may[preds[n][k].to];
    }
  }

  ghost predicate MayAt(nodes: seq<Node>, preds: seq<seq<Arc>>, may: Sets, n: nat) {
    |may| == |nodes| == |preds| && n < |nodes| && may[n] == MayOf(nodes, preds, may, n)
  }

  ghost predicate MaySettled(nodes: seq<Node>, preds: seq<seq<Arc>>, may: Sets) {
    forall i: nat :: i < |nodes| ==> MayAt(nodes, preds, may, i)
  }

  /** The sets after sweeping on from node `i`, in ascending order. */
  function MaySwept(nodes: seq<Node>, preds: seq<seq<Arc>>, may: Sets, i: nat): (r: Sets)
    requires |may| == |nodes| == |preds| && i <= |nodes|
    ensures |r| == |nodes|
    decreases |nodes| - i
  {
    if i == |nodes| then may else MaySwept(nodes, preds, may[i := MayOf(nodes, preds, may, i)], i + 1)
  }

  /** Does that sweep change anything? */
  predicate MayChanges(nodes: seq<Node>, preds: seq<seq<Arc>>, may: Sets, i: nat)
    requires |may| == |nodes| == |preds| && i <= |nodes|
    decreases |nodes| - i
  {
    i < |nodes| && (MayOf(nodes, preds, may, i) != may[i] || MayChanges(nodes, preds, may[i := MayOf(nodes, preds, may, i)], i + 1))
  }

  lemma {:induction false} MaySweptOk(nodes: seq<Node>, preds: seq<seq<Arc>>, may: Sets, i: nat)
    requires PredsOk(nodes, preds) && MayOk(nodes, preds, may) && i <= |nodes|
    ensures var r := MaySwept(nodes, preds, may, i);
      && MayOk(nodes, preds, r) && TotalSize(may) <= TotalSize(r) <= |nodes| * |AllWrites(nodes)|
      && if MayChanges(nodes, preds, may, i) then TotalSize(may) < TotalSize(r) else r == may && forall n: nat :: i <= n < |nodes| ==> MayAt(nodes, preds, may, n)
    decreases |nodes| - i
  {
    if i == |nodes| {
      TotalBound(may, AllWrites(nodes));
    } else {
      var out := MayOf(nodes, preds, may, i);
      MayStep(nodes, preds, may, i);
      MaySweptOk(nodes, preds, may[i := out], i + 1);
      assert out == may[i] ==> may[i := out] == may;
    }
  }

  /** One sweep, in place, in ascending order. */
  method MaySweep(nodes: seq<Node>, preds: seq<seq<Arc>>, may: array<set<string>>) returns (changed: bool)
    requires may.Length == |nodes| == |preds|
    modifies may
    ensures may[..] == MaySwept(nodes, preds, old(may[..]), 0)
    ensures changed == MayChanges(nodes, preds, old(may[..]), 0)
  {
    changed := false;
    for i := 0 to |nodes|
      invariant MaySwept(nodes, preds, may[..], i) == MaySwept(nodes, preds, old(may[..]), 0)
      invariant (changed || MayChanges(nodes, preds, may[..], i)) == MayChanges(nodes, preds, old(may[..]), 0)
    {
      ghost var was := may[..];
      var out := MayOf(nodes, preds, may[..], i);
      changed := changed || out != may[i];
      may[i] := out;
      assert may[..] == was[i := out];
    }
  }

  lemma {:induction false} MayComplete(nodes: seq<Node>, preds: seq<seq<Arc>>, may: Sets, p: seq<nat>, w: string)
    requires PredsOk(nodes, preds) && |may| == |nodes| && MaySettled(nodes, preds, may)
    requires CombPath(nodes, p) && w in nodes[p[0]].writes
    ensures w in may[p[|p| - 1]]
    decreases |p|
  {
    assert MayAt(nodes, preds, may, p[0]);
    if |p| > 1 {
      var q := p[..|p| - 1];
      forall i | 0 <= i < |q| - 1 ensures CombEdge(nodes, q[i], q[i + 1]) {
        assert CombEdge(nodes, p[i], p[i + 1]);
      }
      MayComplete(nodes, preds, may, q, w);
      var a, b := p[|p| - 2], p[|p| - 1];
      assert CombEdge(nodes, p[|p| - 2], p[|p| - 2 + 1]);
      var j :| 0 <= j < |nodes[a].succs| && nodes[a].succs[j] == Arc(b, Comb);
      assert EdgeAt(nodes, a, j, b);
      var k :| 0 <= k < |preds[b]| && preds[b][k] == Arc(a, Comb);
      assert MayAt(nodes, preds, may, b) && w in MayOf(nodes, preds, may, b);
    }
  }

  /** Exactly what some path may have driven on reaching each node. */
  method MaySets(nodes: seq<Node>, preds: seq<seq<Arc>>) returns (may: seq<set<string>>)
    requires PredsOk(nodes, preds)
    ensures |may| == |nodes| && forall n: nat, w :: n < |nodes| ==> (w in may[n] <==> MayDrive(nodes, n, w))
  {
    var sets := new set<string>[|nodes|](_ => {});
    var changed := true;
    TotalBound(sets[..], AllWrites(nodes));
    while changed
      invariant MayOk(nodes, preds, sets[..]) && TotalSize(sets[..]) <= |nodes| * |AllWrites(nodes)|
      invariant !changed ==> MaySettled(nodes, preds, sets[..])
      decreases |nodes| * |AllWrites(nodes)| - TotalSize(sets[..]), changed
    {
      MaySweptOk(nodes, preds, sets[..], 0);
      changed := MaySweep(nodes, preds, sets);
    }
    may := sets[..];
    forall n: nat, w | n < |nodes| && MayDrive(nodes, n, w) ensures w in may[n] {
      var p: seq<nat> :| CombPath(nodes, p) && p[|p| - 1] == n && w in nodes[p[0]].writes;
      MayComplete(nodes, preds, may, p, w);
    }
  }

  // ----- What must have been driven ----------------------------------------------------------------

  /** What every one of these edges brings; a clock edge brings nothing. */
  function Meet(arcs: seq<Arc>, must: Sets): set<string>
    requires arcs != []
  {
    var here := if arcs[0].kind == TickEdge || arcs[0].to >= |must| then {} else must[arcs[0].to];
    if |arcs| == 1 then here else here * Meet(arcs[1..], must)
  }

  function MustOf(nodes: seq<Node>, preds: seq<seq<Arc>>, must: Sets, n: nat): set<string>
    requires |must| == |nodes| == |preds| && n < |nodes|
  {
    nodes[n].writes + if preds[n] == [] then {} else Meet(preds[n], must)
  }

  predicate Brings(a: Arc, must: Sets, w: string) {
    a.kind == Comb && a.to < |must| && w in must[a.to]
  }

  lemma {:induction false} MeetIsAll(arcs: seq<Arc>, must: Sets, w: string)
    requires arcs != []
    ensures w in Meet(arcs, must) <==> forall k :: 0 <= k < |arcs| ==> Brings(arcs[k], must, w)
  {
    if |arcs| > 1 {
      MeetIsAll(arcs[1..], must, w);
      assert forall k :: 0 <= k < |arcs| ==> arcs[k] == if k == 0 then arcs[0] else arcs[1..][k - 1];
    }
  }

  /** What is missing can be avoided, recomputing adds nothing, and there is a bound. */
  ghost predicate MustOk(nodes: seq<Node>, preds: seq<seq<Arc>>, must: Sets, all: set<string>)
    requires |preds| == |nodes|
  {
    |must| == |nodes| && Bounded(must, all) && MustSound(nodes, must, all) && MustShrinking(nodes, preds, must)
  }

  ghost predicate MustSound(nodes: seq<Node>, must: Sets, all: set<string>)
    requires |must| == |nodes|
  {
    forall n: nat, w :: n < |nodes| && w in all && w !in must[n] ==> Avoids(nodes, n, w)
  }

  ghost predicate MustShrinking(nodes: seq<Node>, preds: seq<seq<Arc>>, must: Sets)
    requires |preds| == |nodes| == |must|
  {
    forall n: nat :: n < |nodes| ==> MustOf(nodes, preds, must, n) <= must[n]
  }

  ghost predicate MustAt(nodes: seq<Node>, preds: seq<seq<Arc>>, must: Sets, n: nat) {
    |must| == |nodes| == |preds| && n < |nodes| && must[n] == MustOf(nodes, preds, must, n)
  }

  ghost predicate MustSettled(nodes: seq<Node>, preds: seq<seq<Arc>>, must: Sets) {
    forall i: nat :: i < |nodes| ==> MustAt(nodes, preds, must, i)
  }

  lemma MissingAvoids(nodes: seq<Node>, preds: seq<seq<Arc>>, must: Sets, all: set<string>, n: nat, w: string)
    requires PredsOk(nodes, preds) && MustOk(nodes, preds, must, all) && n < |nodes| && w in all && w !in MustOf(nodes, preds, must, n)
    ensures Avoids(nodes, n, w)
  {
    PredsExist(nodes, preds, n);
    if preds[n] == [] {
      FreshAvoids(nodes, n, w);
    } else {
      MeetIsAll(preds[n], must, w);
      var k :| 0 <= k < |preds[n]| && !Brings(preds[n][k], must, w);
      var i := preds[n][k].to;
      assert IsPred(nodes, n, preds[n][k]);
      var j :| 0 <= j < |nodes[i].succs| && nodes[i].succs[j] == Arc(n, preds[n][k].kind);
      assert EdgeAt(nodes, i, j, n);
      if preds[n][k].kind == TickEdge {
        FreshAvoids(nodes, n, w);
      } else {
        AvoidsOn(nodes, i, j, n, w);
      }
    }
  }

  lemma FreshAvoids(nodes: seq<Node>, n: nat, w: string)
    requires n < |nodes| && Fresh(nodes, n) && w !in nodes[n].writes
    ensures Avoids(nodes, n, w)
  {
    assert CombPath(nodes, [n]) && Silent(nodes, [n], w) && [n][|[n]| - 1] == n;
  }

  lemma AvoidsOn(nodes: seq<Node>, i: nat, j: nat, n: nat, w: string)
    requires n < |nodes| && EdgeAt(nodes, i, j, n) && nodes[i].succs[j].kind == Comb && Avoids(nodes, i, w) && w !in nodes[n].writes
    ensures Avoids(nodes, n, w)
  {
    var p: seq<nat> :| CombPath(nodes, p) && p[|p| - 1] == i && Fresh(nodes, p[0]) && Silent(nodes, p, w);
    PathGrows(nodes, p, i, j, n);
    var q := p + [n];
    assert q[|q| - 1] == n && q[0] == p[0] && Silent(nodes, q, w);
  }

  lemma {:induction false} MeetMonotone(arcs: seq<Arc>, a: Sets, b: Sets)
    requires arcs != [] && |a| == |b| && forall n :: 0 <= n < |a| ==> a[n] <= b[n]
    ensures Meet(arcs, a) <= Meet(arcs, b)
  {
    if |arcs| > 1 {
      MeetMonotone(arcs[1..], a, b);
    }
  }

  lemma MustOfShrinks(nodes: seq<Node>, preds: seq<seq<Arc>>, must: Sets, n: nat)
    requires |preds| == |nodes| == |must| && MustShrinking(nodes, preds, must) && n < |nodes|
    ensures MustShrinking(nodes, preds, must[n := MustOf(nodes, preds, must, n)])
  {
    var must' := must[n := MustOf(nodes, preds, must, n)];
    forall m: nat | m < |nodes| ensures MustOf(nodes, preds, must', m) <= must'[m] {
      if preds[m] != [] {
        MeetMonotone(preds[m], must', must);
      }
    }
  }

  lemma MustOfSound(nodes: seq<Node>, preds: seq<seq<Arc>>, must: Sets, all: set<string>, n: nat)
    requires PredsOk(nodes, preds) && MustOk(nodes, preds, must, all) && n < |nodes|
    ensures MustSound(nodes, must[n := MustOf(nodes, preds, must, n)], all)
  {
    forall w | w in all && w !in MustOf(nodes, preds, must, n) ensures Avoids(nodes, n, w) {
      MissingAvoids(nodes, preds, must, all, n, w);
    }
  }

  lemma MustStep(nodes: seq<Node>, preds: seq<seq<Arc>>, must: Sets, all: set<string>, n: nat)
    requires PredsOk(nodes, preds) && MustOk(nodes, preds, must, all) && n < |nodes|
    ensures var out := MustOf(nodes, preds, must, n);
      && MustOk(nodes, preds, must[n := out], all) && TotalSize(must[n := out]) <= TotalSize(must)
      && (out != must[n] ==> TotalSize(must[n := out]) < TotalSize(must))
  {
    var out := MustOf(nodes, preds, must, n);
    MustOfSound(nodes, preds, must, all, n);
    MustOfShrinks(nodes, preds, must, n);
    TotalUpdate(must, n, out);
    SubsetSize(out, must[n]);
  }

  /** The sets after sweeping on from node `i`, in ascending order. */
  function MustSwept(nodes: seq<Node>, preds: seq<seq<Arc>>, must: Sets, i: nat): (r: Sets)
    requires |must| == |nodes| == |preds| && i <= |nodes|
    ensures |r| == |nodes|
    decreases |nodes| - i
  {
    if i == |nodes| then must else MustSwept(nodes, preds, must[i := MustOf(nodes, preds, must, i)], i + 1)
  }

  /** Does that sweep change anything? */
  predicate MustChanges(nodes: seq<Node>, preds: seq<seq<Arc>>, must: Sets, i: nat)
    requires |must| == |nodes| == |preds| && i <= |nodes|
    decreases |nodes| - i
  {
    i < |nodes| && (MustOf(nodes, preds, must, i) != must[i] || MustChanges(nodes, preds, must[i := MustOf(nodes, preds, must, i)], i + 1))
  }

  lemma {:induction false} MustSweptOk(nodes: seq<Node>, preds: seq<seq<Arc>>, must: Sets, all: set<string>, i: nat)
    requires PredsOk(nodes, preds) && MustOk(nodes, preds, must, all) && i <= |nodes|
    ensures var r := MustSwept(nodes, preds, must, i);
      && MustOk(nodes, preds, r, all) && TotalSize(r) <= TotalSize(must)
      && if MustChanges(nodes, preds, must, i) then TotalSize(r) < TotalSize(must) else r == must && forall n: nat :: i <= n < |nodes| ==> MustAt(nodes, preds, must, n)
    decreases |nodes| - i
  {
    if i < |nodes| {
      var out := MustOf(nodes, preds, must, i);
      MustStep(nodes, preds, must, all, i);
      MustSweptOk(nodes, preds, must[i := out], all, i + 1);
      assert out == must[i] ==> must[i := out] == must;
    }
  }

  /** One sweep, in place, in ascending order. */
  method MustSweep(nodes: seq<Node>, preds: seq<seq<Arc>>, must: array<set<string>>) returns (changed: bool)
    requires must.Length == |nodes| == |preds|
    modifies must
    ensures must[..] == MustSwept(nodes, preds, old(must[..]), 0)
    ensures changed == MustChanges(nodes, preds, old(must[..]), 0)
  {
    changed := false;
    for i := 0 to |nodes|
      invariant MustSwept(nodes, preds, must[..], i) == MustSwept(nodes, preds, old(must[..]), 0)
      invariant (changed || MustChanges(nodes, preds, must[..], i)) == MustChanges(nodes, preds, old(must[..]), 0)
    {
      ghost var was := must[..];
      var out := MustOf(nodes, preds, must[..], i);
      changed := changed || out != must[i];
      must[i] := out;
      assert must[..] == was[i := out];
    }
  }

  /** Along a path that starts fresh and stays silent, nothing must have been driven. */
  lemma {:induction false} SilentIsMissing(nodes: seq<Node>, preds: seq<seq<Arc>>, must: Sets, p: seq<nat>, w: string)
    requires PredsOk(nodes, preds) && |must| == |nodes| && MustSettled(nodes, preds, must)
    requires CombPath(nodes, p) && Fresh(nodes, p[0]) && Silent(nodes, p, w)
    ensures w !in must[p[|p| - 1]]
    decreases |p|
  {
    var n := p[|p| - 1];
    assert MustAt(nodes, preds, must, n);
    PredsExist(nodes, preds, n);
    if preds[n] != [] {
      MeetIsAll(preds[n], must, w);
      if |p| == 1 {
        var i: nat, j: nat :| EdgeAt(nodes, i, j, n) && nodes[i].succs[j].kind == TickEdge;
        var k :| 0 <= k < |preds[n]| && preds[n][k] == Arc(i, TickEdge);
        assert !Brings(preds[n][k], must, w);
      } else {
        var q := p[..|p| - 1];
        forall i | 0 <= i < |q| - 1 ensures CombEdge(nodes, q[i], q[i + 1]) {
          assert CombEdge(nodes, p[i], p[i + 1]);
        }
        SilentIsMissing(nodes, preds, must, q, w);
        var a := p[|p| - 2];
        assert CombEdge(nodes, p[|p| - 2], p[|p| - 2 + 1]);
        var j :| 0 <= j < |nodes[a].succs| && nodes[a].succs[j] == Arc(n, Comb);
        assert EdgeAt(nodes, a, j, n);
        var k :| 0 <= k < |preds[n]| && preds[n][k] == Arc(a, Comb);
        assert !Brings(preds[n][k], must, w);
      }
    }
  }

  ghost predicate MustExactly(nodes: seq<Node>, must: Sets, all: set<string>) {
    |must| == |nodes| && forall n: nat, w :: n < |nodes| && w in all ==> (w in must[n] <==> !Avoids(nodes, n, w))
  }

  lemma MustSettledExact(nodes: seq<Node>, preds: seq<seq<Arc>>, must: Sets, all: set<string>)
    requires PredsOk(nodes, preds) && MustOk(nodes, preds, must, all)
    requires MustSettled(nodes, preds, must)
    ensures MustExactly(nodes, must, all)
  {
    forall n: nat, w | n < |nodes| && w in all && Avoids(nodes, n, w) ensures w !in must[n] {
      var p: seq<nat> :| CombPath(nodes, p) && p[|p| - 1] == n && Fresh(nodes, p[0]) && Silent(nodes, p, w);
      SilentIsMissing(nodes, preds, must, p, w);
    }
  }

  /** Exactly what every path must have driven on reaching each node. */
  method MustSets(nodes: seq<Node>, preds: seq<seq<Arc>>, outputs: set<string>) returns (must: seq<set<string>>)
    requires PredsOk(nodes, preds) && AllWrites(nodes) <= outputs
    ensures MustExactly(nodes, must, outputs)
  {
    var sets := new set<string>[|nodes|](_ => outputs);
    var changed := true;
    MustStarts(nodes, preds, sets[..], outputs);
    while changed
      invariant MustOk(nodes, preds, sets[..], outputs)
      invariant !changed ==> MustSettled(nodes, preds, sets[..])
      decreases TotalSize(sets[..]), changed
    {
      MustSweptOk(nodes, preds, sets[..], outputs, 0);
      changed := MustSweep(nodes, preds, sets);
    }
    MustSettledExact(nodes, preds, sets[..], outputs);
    must := sets[..];
  }

  lemma MustStarts(nodes: seq<Node>, preds: seq<seq<Arc>>, must: Sets, outputs: set<string>)
    requires PredsOk(nodes, preds) && AllWrites(nodes) <= outputs && |must| == |nodes| && forall n: nat :: n < |must| ==> must[n] == outputs
    ensures MustOk(nodes, preds, must, outputs)
  {
    forall n: nat | n < |nodes| ensures MustOf(nodes, preds, must, n) <= must[n] {
      WritesWithin(nodes, n);
      forall w | w in MustOf(nodes, preds, must, n) && w !in nodes[n].writes ensures w in outputs {
        MeetIsAll(preds[n], must, w);
        assert Brings(preds[n][0], must, w);
      }
    }
  }

  // ----- The check ----------------------------------------------------------------------------------

  /** `w` is driven on one way to `exit` and not on another. */
  ghost predicate Latch(nodes: seq<Node>, exit: nat, w: string) {
    MayDrive(nodes, exit, w) && Avoids(nodes, exit, w)
  }

  /** The outputs that would be latches; a sequential loop, without an exit, has none. */
  method CheckDefiniteAssignment(nodes: seq<Node>, exit: Option<nat>, outputs: set<string>) returns (latches: set<string>)
    requires InRange(nodes) && (exit.Some? ==> exit.value < |nodes|) && AllWrites(nodes) <= outputs
    ensures exit.None? ==> latches == {}
    ensures exit.Some? ==> forall w :: w in latches <==> w in outputs && Latch(nodes, exit.value, w)
  {
    if exit.None? {
      return {};
    }
    if outputs == {} {
      return {};
    }
    var preds := Predecessors(nodes);
    var may := MaySets(nodes, preds);
    var must := MustSets(nodes, preds, outputs);
    latches := set w | w in outputs && w in may[exit.value] && w !in must[exit.value];
  }
}
