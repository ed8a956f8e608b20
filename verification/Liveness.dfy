/** Backward liveness and the registers it infers: what they are, exactly, and why they
  * are enough.
  */
module Liveness {
  import opened Syntax
  import opened Graphs
  import opened Cfg

  // ----- Live values, by paths ---------------------------------------------------------------------------

  /** Along `p`, `x` is read at the last node and fully written at none before it. */
  predicate ReadsBeforeWriting(nodes: seq<Node>, p: seq<nat>, x: string) {
    && p != [] && (forall i :: 0 <= i < |p| ==> p[i] < |nodes|)
    && (forall i :: 0 <= i < |p| - 1 ==> Linked(nodes, p[i], p[i + 1]) && x !in nodes[p[i]].defs)
    && x in nodes[p[|p| - 1]].uses
  }

  ghost predicate LiveIn(nodes: seq<Node>, n: nat, x: string) {
    exists p: seq<nat> :: ReadsBeforeWriting(nodes, p, x) && p[0] == n
  }

  /** Some path out of `n` reads `x` before any full write of it. */
  ghost predicate LiveOut(nodes: seq<Node>, n: nat, x: string) {
    exists m: nat :: Linked(nodes, n, m) && LiveIn(nodes, m, x)
  }

  lemma UsedIsLive(nodes: seq<Node>, n: nat, x: string)
    requires n < |nodes| && x in nodes[n].uses
    ensures LiveIn(nodes, n, x)
  {
    assert ReadsBeforeWriting(nodes, [n], x);
  }

  lemma LivePasses(nodes: seq<Node>, n: nat, m: nat, x: string)
    requires Linked(nodes, n, m) && x !in nodes[n].defs && LiveIn(nodes, m, x)
    ensures LiveIn(nodes, n, x)
  {
    var p: seq<nat> :| ReadsBeforeWriting(nodes, p, x) && p[0] == m;
    var q := [n] + p;
    forall i | 0 <= i < |q| - 1 ensures Linked(nodes, q[i], q[i + 1]) && x !in nodes[q[i]].defs {
      if i > 0 {
        assert Linked(nodes, p[i - 1], p[i]);
      }
    }
    assert ReadsBeforeWriting(nodes, q, x);
  }

  // ----- The fixpoint ---------------------------------------------------------------------------------------

  type Sets = seq<set<string>>

  /** What the successors of `n` have live on entry. */
  function OutOf(nodes: seq<Node>, liveIn: Sets, n: nat): set<string>
    requires InRange(nodes) && n < |nodes| == |liveIn|
  {
    set j, x | 0 <= j < |nodes[n].succs| && x in liveIn[nodes[n].succs[j].to] :: x
  }

  function InOf(nodes: seq<Node>, n: nat, out: set<string>): set<string>
    requires n < |nodes|
  {
    nodes[n].uses + (out - nodes[n].defs)
  }

  ghost predicate SoundSets(nodes: seq<Node>, liveIn: Sets, liveOut: Sets) {
    && |liveIn| == |liveOut| == |nodes|
    && forall n: nat, x | n < |nodes| :: (x in liveIn[n] ==> LiveIn(nodes, n, x)) && (x in liveOut[n] ==> LiveOut(nodes, n, x))
  }

  /** What is stored never exceeds what recomputing it would give. */
  ghost predicate Growing(nodes: seq<Node>, liveIn: Sets, liveOut: Sets)
    requires InRange(nodes)
  {
    && |liveIn| == |liveOut| == |nodes|
    && forall n: nat | n < |nodes| :: liveOut[n] <= OutOf(nodes, liveIn, n) && liveIn[n] <= InOf(nodes, n, liveOut[n])
  }

  ghost predicate Settled(nodes: seq<Node>, liveIn: Sets, liveOut: Sets, n: nat)
    requires InRange(nodes)
  {
    && |liveIn| == |liveOut| == |nodes| && n < |nodes|
    && liveOut[n] == OutOf(nodes, liveIn, n) && liveIn[n] == InOf(nodes, n, liveOut[n])
  }

  function AllUses(nodes: seq<Node>): set<string> {
    if nodes == [] then {} else nodes[0].uses + AllUses(nodes[1..])
  }

  lemma {:induction false} UsesWithin(nodes: seq<Node>, n: nat)
    requires n < |nodes|
    ensures nodes[n].uses <= AllUses(nodes)
  {
    if n > 0 {
      UsesWithin(nodes[1..], n - 1);
    }
  }

  function TotalSize(sets: Sets): nat {
    if sets == [] then 0 else |sets[0]| + TotalSize(sets[1..])
  }

  lemma {:induction false} TotalUpdate(sets: Sets, i: nat, s: set<string>)
    requires i < |sets|
    ensures TotalSize(sets[i := s]) == TotalSize(sets) - |sets[i]| + |s|
  {
    if i == 0 {
      assert sets[0 := s][1..] == sets[1..];
    } else {
      TotalUpdate(sets[1..], i - 1, s);
      assert sets[i := s][1..] == sets[1..][i - 1 := s];
    }
  }

  lemma {:induction false} TotalBound(sets: Sets, all: set<string>)
    requires forall i :: 0 <= i < |sets| ==> sets[i] <= all
    ensures TotalSize(sets) <= |sets| * |all|
  {
    if sets != [] {
      SubsetSize(sets[0], all);
      TotalBound(sets[1..], all);
    }
  }

  lemma SubsetSize(a: set<string>, b: set<string>)
    requires a <= b
    ensures |a| <= |b| && (a != b ==> |a| < |b|)
  {
    assert b == a + (b - a);
  }

  ghost predicate Bounded(sets: Sets, all: set<string>) {
    forall i :: 0 <= i < |sets| ==> sets[i] <= all
  }

  ghost predicate FixOk(nodes: seq<Node>, liveIn: Sets, liveOut: Sets)
    requires InRange(nodes)
  {
    && SoundSets(nodes, liveIn, liveOut) && Growing(nodes, liveIn, liveOut)
    && Bounded(liveIn, AllUses(nodes)) && Bounded(liveOut, AllUses(nodes))
  }

  /** Recomputing one node keeps everything and loses nothing. */
  lemma Recomputed(nodes: seq<Node>, liveIn: Sets, liveOut: Sets, n: nat)
    requires InRange(nodes) && FixOk(nodes, liveIn, liveOut) && n < |nodes|
    ensures var out := OutOf(nodes, liveIn, n); var in_ := InOf(nodes, n, out);
      && liveOut[n] <= out && liveIn[n] <= in_ && FixOk(nodes, liveIn[n := in_], liveOut[n := out])
  {
    var out := OutOf(nodes, liveIn, n);
    var in_ := InOf(nodes, n, out);
    RecomputedSound(nodes, liveIn, liveOut, n);
    RecomputedGrows(nodes, liveIn, liveOut, n);
    UsesWithin(nodes, n);
    assert out <= AllUses(nodes);
  }

  lemma RecomputedSound(nodes: seq<Node>, liveIn: Sets, liveOut: Sets, n: nat)
    requires InRange(nodes) && SoundSets(nodes, liveIn, liveOut) && n < |nodes|
    ensures var out := OutOf(nodes, liveIn, n);
      SoundSets(nodes, liveIn[n := InOf(nodes, n, out)], liveOut[n := out])
  {
    var out := OutOf(nodes, liveIn, n);
    forall x | x in out ensures LiveOut(nodes, n, x) {
      var j :| 0 <= j < |nodes[n].succs| && x in liveIn[nodes[n].succs[j].to];
      assert Linked(nodes, n, nodes[n].succs[j].to);
    }
    forall x | x in InOf(nodes, n, out) ensures LiveIn(nodes, n, x) {
      if x in nodes[n].uses {
        UsedIsLive(nodes, n, x);
      } else {
        var m: nat :| Linked(nodes, n, m) && LiveIn(nodes, m, x);
        LivePasses(nodes, n, m, x);
      }
    }
  }

  lemma RecomputedGrows(nodes: seq<Node>, liveIn: Sets, liveOut: Sets, n: nat)
    requires InRange(nodes) && Growing(nodes, liveIn, liveOut) && n < |nodes|
    ensures var out := OutOf(nodes, liveIn, n); var in_ := InOf(nodes, n, out);
      liveIn[n] <= in_ && Growing(nodes, liveIn[n := in_], liveOut[n := out])
  {
    var out := OutOf(nodes, liveIn, n);
    var in_ := InOf(nodes, n, out);
    var liveIn' := liveIn[n := in_];
    assert liveIn[n] <= in_;
    forall m: nat | m < |nodes| ensures OutOf(nodes, liveIn, m) <= OutOf(nodes, liveIn', m) {
      forall x | x in OutOf(nodes, liveIn, m) ensures x in OutOf(nodes, liveIn', m) {
        var j :| 0 <= j < |nodes[m].succs| && x in liveIn[nodes[m].succs[j].to];
        assert x in liveIn'[nodes[m].succs[j].to];
      }
    }
  }

  /** At a fixpoint nothing live is missing. */
  lemma {:induction false} SettledComplete(nodes: seq<Node>, liveIn: Sets, liveOut: Sets, p: seq<nat>, x: string)
    requires InRange(nodes) && forall n: nat :: n < |nodes| ==> Settled(nodes, liveIn, liveOut, n)
    requires ReadsBeforeWriting(nodes, p, x) && |liveIn| == |nodes|
    ensures x in liveIn[p[0]]
    decreases |p|
  {
    assert Settled(nodes, liveIn, liveOut, p[0]);
    if |p| > 1 {
      var q := p[1..];
      forall i | 0 <= i < |q| - 1 ensures Linked(nodes, q[i], q[i + 1]) && x !in nodes[q[i]].defs {
        assert Linked(nodes, p[i + 1], p[i + 2]);
      }
      SettledComplete(nodes, liveIn, liveOut, q, x);
      assert Linked(nodes, p[0], p[1]);
      var j :| 0 <= j < |nodes[p[0]].succs| && nodes[p[0]].succs[j].to == p[1];
      assert x in OutOf(nodes, liveIn, p[0]);
    }
  }

  ghost predicate Exactly(nodes: seq<Node>, liveOut: Sets) {
    |liveOut| == |nodes| && forall n: nat, x | n < |nodes| :: x in liveOut[n] <==> LiveOut(nodes, n, x)
  }

  lemma SettledExact(nodes: seq<Node>, liveIn: Sets, liveOut: Sets)
    requires InRange(nodes) && SoundSets(nodes, liveIn, liveOut)
    requires forall n: nat :: n < |nodes| ==> Settled(nodes, liveIn, liveOut, n)
    ensures Exactly(nodes, liveOut)
  {
    forall n: nat, x | n < |nodes| && LiveOut(nodes, n, x) ensures x in liveOut[n] {
      var m: nat :| Linked(nodes, n, m) && LiveIn(nodes, m, x);
      var p: seq<nat> :| ReadsBeforeWriting(nodes, p, x) && p[0] == m;
      SettledComplete(nodes, liveIn, liveOut, p, x);
      var j :| 0 <= j < |nodes[n].succs| && nodes[n].succs[j].to == m;
      assert Settled(nodes, liveIn, liveOut, n);
    }
  }

  /** How far the sets are from holding every name that is read anywhere. */
  function Room(nodes: seq<Node>, liveIn: Sets, liveOut: Sets): int {
    2 * (|nodes| * |AllUses(nodes)|) - TotalSize(liveIn) - TotalSize(liveOut)
  }

  lemma RoomShrinks(nodes: seq<Node>, liveIn: Sets, liveOut: Sets, n: nat, in_: set<string>, out: set<string>)
    requires n < |nodes| == |liveIn| == |liveOut| && liveIn[n] <= in_ && liveOut[n] <= out
    ensures Room(nodes, liveIn[n := in_], liveOut[n := out]) <= Room(nodes, liveIn, liveOut)
    ensures in_ != liveIn[n] || out != liveOut[n] ==>
      Room(nodes, liveIn[n := in_], liveOut[n := out]) < Room(nodes, liveIn, liveOut)
  {
    TotalUpdate(liveIn, n, in_);
    TotalUpdate(liveOut, n, out);
    SubsetSize(liveIn[n], in_);
    SubsetSize(liveOut[n], out);
  }

  lemma RoomLeft(nodes: seq<Node>, liveIn: Sets, liveOut: Sets)
    requires InRange(nodes) && FixOk(nodes, liveIn, liveOut)
    ensures Room(nodes, liveIn, liveOut) >= 0
  {
    TotalBound(liveIn, AllUses(nodes));
    TotalBound(liveOut, AllUses(nodes));
  }

  /** Recompute one node's sets in place. */
  method Recompute(nodes: seq<Node>, liveIn: array<set<string>>, liveOut: array<set<string>>, n: nat) returns (changed: bool)
    requires InRange(nodes) && liveIn != liveOut && FixOk(nodes, liveIn[..], liveOut[..]) && n < |nodes|
    modifies liveIn, liveOut
    ensures FixOk(nodes, liveIn[..], liveOut[..])
    ensures changed ==> Room(nodes, liveIn[..], liveOut[..]) < Room(nodes, old(liveIn[..]), old(liveOut[..]))
    ensures !changed ==> liveIn[..] == old(liveIn[..]) && liveOut[..] == old(liveOut[..])
    ensures !changed ==> Settled(nodes, liveIn[..], liveOut[..], n)
  {
    ghost var ins, outs := liveIn[..], liveOut[..];
    var out := OutOf(nodes, liveIn[..], n);
    var in_ := InOf(nodes, n, out);
    Recomputed(nodes, ins, outs, n);
    RoomShrinks(nodes, ins, outs, n, in_, out);
    changed := out != liveOut[n] || in_ != liveIn[n];
    liveOut[n] := out;
    liveIn[n] := in_;
    assert liveIn[..] == ins[n := in_] && liveOut[..] == outs[n := out];
  }

  /** One sweep over the nodes, newest first. */
  method Sweep(nodes: seq<Node>, liveIn: array<set<string>>, liveOut: array<set<string>>) returns (changed: bool)
    requires InRange(nodes) && liveIn != liveOut && FixOk(nodes, liveIn[..], liveOut[..])
    modifies liveIn, liveOut
    ensures FixOk(nodes, liveIn[..], liveOut[..])
    ensures changed ==> Room(nodes, liveIn[..], liveOut[..]) < Room(nodes, old(liveIn[..]), old(liveOut[..]))
    ensures !changed ==> Room(nodes, liveIn[..], liveOut[..]) == Room(nodes, old(liveIn[..]), old(liveOut[..]))
    ensures !changed ==> forall n: nat :: n < |nodes| ==> Settled(nodes, liveIn[..], liveOut[..], n)
  {
    changed := false;
    var i := |nodes|;
    while i > 0
      invariant 0 <= i <= |nodes| && FixOk(nodes, liveIn[..], liveOut[..])
      invariant changed ==> Room(nodes, liveIn[..], liveOut[..]) < Room(nodes, old(liveIn[..]), old(liveOut[..]))
      invariant !changed ==> liveIn[..] == old(liveIn[..]) && liveOut[..] == old(liveOut[..])
      invariant !changed ==> forall n: nat :: i <= n < |nodes| ==> Settled(nodes, liveIn[..], liveOut[..], n)
    {
      i := i - 1;
      var here := Recompute(nodes, liveIn, liveOut, i);
      changed := changed || here;
    }
  }

  /** Backward liveness: the sets live on leaving each node, exactly. */
  method LiveSets(nodes: seq<Node>) returns (liveOut: seq<set<string>>)
    requires InRange(nodes)
    ensures Exactly(nodes, liveOut)
  {
    var in_ := new set<string>[|nodes|](_ => {});
    var out := new set<string>[|nodes|](_ => {});
    var changed := true;
    while changed
      invariant FixOk(nodes, in_[..], out[..])
      invariant !changed ==> forall n: nat :: n < |nodes| ==> Settled(nodes, in_[..], out[..], n)
      decreases Room(nodes, in_[..], out[..]), changed
    {
      RoomLeft(nodes, in_[..], out[..]);
      changed := Sweep(nodes, in_, out);
      RoomLeft(nodes, in_[..], out[..]);
    }
    SettledExact(nodes, in_[..], out[..]);
    liveOut := out[..];
  }

  // ----- Registers --------------------------------------------------------------------------------------------

  /** A local is a register when it is written in the loop and live across a clock edge,
    * or live from one iteration into the next.
    */
  ghost predicate IsRegister(g: Graph, definedInLoop: set<string>, x: string) {
    && x in definedInLoop
    && (LiveOut(g.nodes, g.head, x) || exists n: nat :: n < |g.nodes| && g.nodes[n].isTick && LiveOut(g.nodes, n, x))
  }

  method Registers(g: Graph, definedInLoop: set<string>) returns (regs: set<string>)
    requires InRange(g.nodes) && g.head < |g.nodes|
    ensures forall x :: x in regs <==> IsRegister(g, definedInLoop, x)
  {
    var liveOut := LiveSets(g.nodes);
    var across: set<string> := {};
    for i := 0 to |g.nodes|
      invariant forall x :: x in across <==> exists n: nat :: n < i && g.nodes[n].isTick && LiveOut(g.nodes, n, x)
    {
      if g.nodes[i].isTick {
        across := across + liveOut[i];
      }
    }
    regs := definedInLoop * (across + liveOut[g.head]);
  }
}
