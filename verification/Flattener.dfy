/** The flattening as the compiler runs it: one growing table of states, and one cell
  * per nested loop that remembers what its `break`s continue with.
  */
module Flattener {
  import opened Syntax
  import opened Lowering
  import opened Gate

  class StateMachine {
    var states: seq<Code>

    /** State 0, the loop head, is reserved up front. */
    constructor ()
      ensures states == [[]]
    {
      states := [[]];
    }

    method NewState() returns (id: nat)
      modifies this
      ensures id == |old(states)| && states == old(states) + [[]]
    {
      states := states + [[]];
      id := |states| - 1;
    }

    method SetBody(id: nat, body: Code)
      requires id < |states|
      modifies this
      ensures states == old(states)[id := body]
    {
      states := states[id := body];
    }
  }

  class BreakCell {
    var lowered: Option<Code>
    /** How often the lowering was called for this loop's continuation. */
    ghost var lowerings: nat

    constructor ()
      ensures lowered == None && Valid()
    {
      lowered := None;
      lowerings := 0;
    }

    /** A filled cell's continuation has been lowered once, an empty one's never. */
    ghost predicate Valid()
      reads this
    {
      lowerings == if lowered.Some? then 1 else 0
    }

    method Fill(code: Code)
      modifies this`lowered
      ensures lowered == Some(code)
    {
      lowered := Some(code);
    }
  }

  /** Every pending break continuation passed the gate. */
  predicate Gated(ctx: Ctx) {
    ctx.NestedLoop? ==> Flattenable(ctx.brk, ctx.outer.NestedLoop?) && Gated(ctx.outer)
  }

  /** One cell for each loop of the context, outermost first; none is shared, and each
    * continuation was lowered at most once.
    */
  ghost predicate Valid(ctx: Ctx, cells: seq<BreakCell>)
    reads cells
  {
    && |cells| == ctx.Depth() && Gated(ctx)
    && (forall i, j :: 0 <= i < j < |cells| ==> cells[i] != cells[j])
    && (forall i :: 0 <= i < |cells| ==> cells[i].Valid())
  }

  ghost function Filled(cells: seq<BreakCell>): (caches: Caches)
    reads cells
    ensures |caches| == |cells| && forall i :: 0 <= i < |cells| ==> caches[i] == cells[i].lowered
  {
    seq(|cells|, i requires 0 <= i < |cells| reads cells => cells[i].lowered)
  }

  /** A statement that decides where control goes, as opposed to one pushed as it is. */
  predicate IsControl(s: Stmt) {
    s.Tick? || s.Continue? || s.Break? || s.Loop? || (s.Branch? && Diverges(s))
  }

  lemma LowerPlain(stmts: Code, states: seq<Code>, caches: Caches, ctx: Ctx)
    requires |caches| == ctx.Depth() && stmts != [] && !IsControl(stmts[0])
    ensures var l := Lower(stmts[1..], states, caches, ctx);
      Lower(stmts, states, caches, ctx) == l.(code := [stmts[0]] + l.code)
  {
  }

  lemma {:induction false} LowerPlainPrefix(stmts: Code, i: nat, states: seq<Code>, caches: Caches, ctx: Ctx)
    requires |caches| == ctx.Depth() && i <= |stmts|
    requires forall j :: 0 <= j < i ==> !IsControl(stmts[j])
    ensures var l := Lower(stmts[i..], states, caches, ctx);
      Lower(stmts, states, caches, ctx) == l.(code := stmts[..i] + l.code)
  {
    var l := Lower(stmts[i..], states, caches, ctx);
    if i == 0 {
      assert stmts[..0] + l.code == l.code;
      assert stmts[0..] == stmts;
    } else {
      LowerPlainPrefix(stmts[1..], i - 1, states, caches, ctx);
      assert stmts[1..][i - 1..] == stmts[i..];
      LowerPlain(stmts, states, caches, ctx);
      assert stmts[..i] == [stmts[0]] + stmts[1..][..i - 1];
      assert stmts[..i] + l.code == [stmts[0]] + (stmts[1..][..i - 1] + l.code);
    }
  }

  lemma {:induction false} SuffixOf(stmts: Code, i: nat, inLoop: bool)
    requires i <= |stmts| && Flattenable(stmts, inLoop)
    ensures Flattenable(stmts[i..], inLoop) && Size(stmts[i..]) <= Size(stmts)
  {
    assert stmts == stmts[..i] + stmts[i..];
    FlattenableAppend(stmts[..i], stmts[i..], inLoop);
    SizeAppend(stmts[..i], stmts[i..]);
  }

  /** Appends the flattening of `stmts` to `target` and grows the state table, exactly
    * as `Lower` describes; along the way no break continuation is lowered twice.
    */
  method LowerInto(stmts: Code, target: Code, sm: StateMachine, ctx: Ctx, cells: seq<BreakCell>) returns (out: Code)
    requires Valid(ctx, cells) && Flattenable(stmts, ctx.NestedLoop?)
    modifies sm, cells
    ensures var l := Lower(stmts, old(sm.states), old(Filled(cells)), ctx);
      out == target + l.code && Valid(ctx, cells) && sm.states == l.states && Filled(cells) == l.caches
    decreases Size(stmts) + ctx.Pending(), 3, 0
  {
    out := target;
    var i := 0;
    while i < |stmts|
      invariant 0 <= i <= |stmts| && Valid(ctx, cells)
      invariant out == target + stmts[..i]
      invariant forall j :: 0 <= j < i ==> !IsControl(stmts[j])
      invariant sm.states == old(sm.states) && Filled(cells) == old(Filled(cells))
    {
      if IsControl(stmts[i]) {
        LowerPlainPrefix(stmts, i, sm.states, Filled(cells), ctx);
        SuffixOf(stmts, i, ctx.NestedLoop?);
        var tail := LowerControl(stmts[i..], sm, ctx, cells);
        out := out + tail;
        assert target + stmts[..i] + tail == target + (stmts[..i] + tail);
        return;
      }
      out := out + [stmts[i]];
      i := i + 1;
    }
    LowerPlainPrefix(stmts, |stmts|, sm.states, Filled(cells), ctx);
    out := out + [ctx.FallThrough()];
  }

  /** The flattening of a list that starts with a control statement. */
  method LowerControl(stmts: Code, sm: StateMachine, ctx: Ctx, cells: seq<BreakCell>) returns (code: Code)
    requires stmts != [] && IsControl(stmts[0])
    requires Valid(ctx, cells) && Flattenable(stmts, ctx.NestedLoop?)
    modifies sm, cells
    ensures var l := Lower(stmts, old(sm.states), old(Filled(cells)), ctx);
      code == l.code && Valid(ctx, cells) && sm.states == l.states && Filled(cells) == l.caches
    decreases Size(stmts) + ctx.Pending(), 2, 1
  {
    var rest := stmts[1..];
    assert Size(stmts) == StmtSize(stmts[0]) + Size(rest);
    match stmts[0] {
      case Tick =>
        if rest == [] {
          code := [SetPc(ctx.Head())];
        } else {
          var next := sm.NewState();
          ghost var l := Lower(rest, sm.states, Filled(cells), ctx);
          var body := LowerInto(rest, [], sm, ctx, cells);
          assert body == l.code;
          sm.SetBody(next, body);
          code := [SetPc(next)];
        }
      case Continue =>
        code := [Goto(ctx.Head())];
      case Break =>
        code := LowerBreakInto(sm, ctx, cells);
      case Loop(body) =>
        ghost var cell;
        code, cell := LowerLoopInto(body, rest, sm, ctx, cells);
      case Branch(sel, arms) =>
        var lowered := LowerArmsInto(arms, rest, sm, ctx, cells);
        code := [Branch(sel, lowered)];
    }
  }

  method LowerBreakInto(sm: StateMachine, ctx: Ctx, cells: seq<BreakCell>) returns (code: Code)
    requires Valid(ctx, cells) && ctx.NestedLoop?
    modifies sm, cells
    ensures var l := LowerBreak(old(sm.states), old(Filled(cells)), ctx);
      code == l.code && Valid(ctx, cells) && sm.states == l.states && Filled(cells) == l.caches
    decreases ctx.Pending(), 4, 0
  {
    if cells[|cells| - 1].lowered.Some? {
      code := cells[|cells| - 1].lowered.value;
    } else {
      code := FillBreakCell(sm, ctx, cells);
    }
  }

  /** The first `break` out of a loop: what follows the loop is lowered, and remembered. */
  method FillBreakCell(sm: StateMachine, ctx: Ctx, cells: seq<BreakCell>) returns (code: Code)
    requires Valid(ctx, cells) && ctx.NestedLoop? && cells[|cells| - 1].lowered.None?
    modifies sm, cells
    ensures var l := Lower(ctx.brk, old(sm.states), old(Filled(cells))[..|cells| - 1], ctx.outer);
      code == l.code && Valid(ctx, cells) && sm.states == l.states && Filled(cells) == l.caches + [Some(code)]
    decreases ctx.Pending(), 3, 1
  {
    var own, outer := cells[|cells| - 1], cells[..|cells| - 1];
    OuterCells(ctx, cells);
    ghost var l := Lower(ctx.brk, sm.states, Filled(outer), ctx.outer);
    own.lowerings := own.lowerings + 1;
    code := LowerInto(ctx.brk, [], sm, ctx.outer, outer);
    assert code == l.code;
    own.Fill(code);
    CellsBack(ctx, cells);
    assert Filled(outer) == l.caches;
  }

  lemma OuterCells(ctx: Ctx, cells: seq<BreakCell>)
    requires Valid(ctx, cells) && ctx.NestedLoop?
    ensures var outer := cells[..|cells| - 1];
      Valid(ctx.outer, outer) && cells[|cells| - 1] !in outer && Filled(outer) == Filled(cells)[..|cells| - 1]
  {
    var outer := cells[..|cells| - 1];
    assert forall i :: 0 <= i < |outer| ==> outer[i] == cells[i];
  }

  lemma CellsBack(ctx: Ctx, cells: seq<BreakCell>)
    requires ctx.NestedLoop? && |cells| == ctx.Depth() && Gated(ctx)
    requires var outer := cells[..|cells| - 1];
      Valid(ctx.outer, outer) && cells[|cells| - 1] !in outer && cells[|cells| - 1].Valid()
    ensures Valid(ctx, cells) && Filled(cells) == Filled(cells[..|cells| - 1]) + [cells[|cells| - 1].lowered]
  {
    var outer := cells[..|cells| - 1];
    assert forall i :: 0 <= i < |outer| ==> outer[i] == cells[i];
  }

  /** A nested loop is lowered against a cell of its own, handed out as a witness: at the
    * end the lowering has been called for what follows the loop once if any `break` was
    * met, however many there were, and never if none was.
    */
  method LowerLoopInto(body: Code, rest: Code, sm: StateMachine, ctx: Ctx, cells: seq<BreakCell>)
    returns (code: Code, ghost own: BreakCell)
    requires Valid(ctx, cells)
    requires Flattenable(body, true) && Flattenable(rest, ctx.NestedLoop?)
    modifies sm, cells
    ensures var l := LowerLoop(body, rest, old(sm.states), old(Filled(cells)), ctx);
      code == l.code && Valid(ctx, cells) && sm.states == l.states && Filled(cells) == l.caches
    ensures var e := Twice(body, old(sm.states) + [[]], old(Filled(cells)) + [None], NestedLoop(|old(sm.states)|, rest, ctx));
      fresh(own) && own.lowerings <= 1 && (own.lowerings == 1 <==> e.caches[|cells|].Some?)
    decreases Size(body) + Size(rest) + ctx.Pending(), 6, 0
  {
    ghost var before, caches := sm.states, Filled(cells);
    var head := sm.NewState();
    var cell := new BreakCell();
    var inner, cells' := NestedLoop(head, rest, ctx), cells + [cell];
    assert Filled(cells') == caches + [None];
    code := LowerTwice(body, sm, inner, cells');
    LowerLoopTwice(body, rest, before, caches, ctx);
    assert Filled(cells) == Filled(cells')[..|cells|];
    assert forall i :: 0 <= i < |cells| ==> cells[i] == cells'[i];
    own := cell;
    assert cells'[|cells|] == cell && cell.Valid();
  }

  method LowerTwice(body: Code, sm: StateMachine, ctx: Ctx, cells: seq<BreakCell>) returns (code: Code)
    requires Valid(ctx, cells) && ctx.NestedLoop? && Flattenable(body, true) && ctx.head < |sm.states|
    modifies sm, cells
    ensures var l := Twice(body, old(sm.states), old(Filled(cells)), ctx);
      code == l.code && Valid(ctx, cells) && sm.states == l.states && Filled(cells) == l.caches
    decreases Size(body) + ctx.Pending(), 5, 0
  {
    var t := FirstTick(body);
    if t < |body| {
      RotatedSize(body, t);
      SplitFlattenable(body, t);
      code := LowerHeadInto(Rotated(body, t), sm, ctx, cells);
      ghost var e := Lower(body[..t], sm.states, Filled(cells), ctx);
      code := LowerInto(body[..t], [], sm, ctx, cells);
      assert code == e.code;
    } else {
      code := LowerHeadInto(body, sm, ctx, cells);
    }
  }

  /** Lowers a nested loop's body and makes it its head state. */
  method LowerHeadInto(body: Code, sm: StateMachine, ctx: Ctx, cells: seq<BreakCell>) returns (code: Code)
    requires Valid(ctx, cells) && ctx.NestedLoop? && Flattenable(body, true) && ctx.head < |sm.states|
    modifies sm, cells
    ensures var h := Lower(body, old(sm.states), old(Filled(cells)), ctx);
      code == h.code && Valid(ctx, cells) && sm.states == h.states[ctx.head := h.code] && Filled(cells) == h.caches
    decreases Size(body) + ctx.Pending(), 4, 0
  {
    ghost var h := Lower(body, sm.states, Filled(cells), ctx);
    code := LowerInto(body, [], sm, ctx, cells);
    assert code == h.code;
    sm.SetBody(ctx.head, code);
  }

  lemma SplitFlattenable(body: Code, t: nat)
    requires t < |body| && Flattenable(body, true)
    ensures Flattenable(body[..t], true) && Flattenable(Rotated(body, t), true)
  {
    assert body == body[..t] + body[t..];
    FlattenableAppend(body[..t], body[t..], true);
    assert body[t..][1..] == body[t + 1..];
    FlattenableAppend(body[t + 1..], body[..t], true);
  }

  /** What lowering the arms from `i` on adds to the ones already lowered. */
  function Onward(arms: seq<Arm>, i: nat, out: seq<Arm>, rest: Code, states: seq<Code>, caches: Caches, ctx: Ctx): LoweredArms
    requires i <= |arms| && |caches| == ctx.Depth()
  {
    var l := LowerArms(arms[i..], rest, states, caches, ctx);
    l.(arms := out + l.arms)
  }

  lemma OnwardStep(arms: seq<Arm>, i: nat, out: seq<Arm>, rest: Code, states: seq<Code>, caches: Caches, ctx: Ctx)
    requires i < |arms| && |caches| == ctx.Depth()
    ensures var a := Lower(arms[i].body + rest, states, caches, ctx);
      Onward(arms, i, out, rest, states, caches, ctx) == Onward(arms, i + 1, out + [Arm(a.code)], rest, a.states, a.caches, ctx)
  {
    assert arms[i..][1..] == arms[i + 1..];
    var a := Lower(arms[i].body + rest, states, caches, ctx);
    var l := LowerArms(arms[i + 1..], rest, a.states, a.caches, ctx);
    assert out + ([Arm(a.code)] + l.arms) == (out + [Arm(a.code)]) + l.arms;
  }

  lemma OnwardAll(arms: seq<Arm>, rest: Code, states: seq<Code>, caches: Caches, ctx: Ctx)
    requires |caches| == ctx.Depth()
    ensures Onward(arms, 0, [], rest, states, caches, ctx) == LowerArms(arms, rest, states, caches, ctx)
  {
    assert arms[0..] == arms;
    var l := LowerArms(arms, rest, states, caches, ctx);
    assert [] + l.arms == l.arms;
  }

  lemma OnwardDone(arms: seq<Arm>, out: seq<Arm>, rest: Code, states: seq<Code>, caches: Caches, ctx: Ctx)
    requires |caches| == ctx.Depth()
    ensures Onward(arms, |arms|, out, rest, states, caches, ctx) == LoweredArms(out, states, caches)
  {
    assert arms[|arms|..] == [] && out + [] == out;
  }

  lemma ArmAdmitted(arms: seq<Arm>, i: nat, rest: Code, inLoop: bool)
    requires i < |arms| && ArmsFlattenable(arms, inLoop) && Flattenable(rest, inLoop)
    ensures Flattenable(arms[i].body + rest, inLoop) && Size(arms[i].body + rest) < ArmsSize(arms) + Size(rest)
  {
    ArmFlattenable(arms, i, inLoop);
    FlattenableAppend(arms[i].body, rest, inLoop);
    ArmSizeBound(arms, i);
    SizeAppend(arms[i].body, rest);
  }

  method LowerArmsInto(arms: seq<Arm>, rest: Code, sm: StateMachine, ctx: Ctx, cells: seq<BreakCell>) returns (out: seq<Arm>)
    requires Valid(ctx, cells)
    requires ArmsFlattenable(arms, ctx.NestedLoop?) && Flattenable(rest, ctx.NestedLoop?)
    modifies sm, cells
    ensures var l := LowerArms(arms, rest, old(sm.states), old(Filled(cells)), ctx);
      out == l.arms && Valid(ctx, cells) && sm.states == l.states && Filled(cells) == l.caches
    decreases ArmsSize(arms) + Size(rest) + ctx.Pending(), 4, 0
  {
    out := [];
    var i := 0;
    ghost var all := Onward(arms, 0, [], rest, sm.states, Filled(cells), ctx);
    OnwardAll(arms, rest, sm.states, Filled(cells), ctx);
    while i < |arms|
      invariant 0 <= i <= |arms| && Valid(ctx, cells)
      invariant all == Onward(arms, i, out, rest, sm.states, Filled(cells), ctx)
    {
      OnwardStep(arms, i, out, rest, sm.states, Filled(cells), ctx);
      ArmAdmitted(arms, i, rest, ctx.NestedLoop?);
      ghost var a := Lower(arms[i].body + rest, sm.states, Filled(cells), ctx);
      var body := LowerInto(arms[i].body + rest, [], sm, ctx, cells);
      assert body == a.code;
      out := out + [Arm(body)];
      i := i + 1;
    }
    OnwardDone(arms, out, rest, sm.states, Filled(cells), ctx);
  }
}
