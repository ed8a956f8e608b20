/** Control extraction's core: flattening a loop body whose ticks sit inside
  * branches and nested loops into numbered state bodies, one per tick.
  */
module Lowering {
  import opened Syntax

  type Code = seq<Stmt>

  /** Where control goes when a body ends or is broken out of. `head` is the back
    * edge's state; `brk` are the statements after the nested loop, which a `break`
    * continues with in the same cycle, in the context `outer`.
    */
  datatype Ctx =
    | ModuleLoop
    | NestedLoop(head: nat, brk: Code, outer: Ctx)
  {
    function Head(): nat {
      if ModuleLoop? then 0 else head
    }

    function Depth(): nat {
      if ModuleLoop? then 0 else 1 + outer.Depth()
    }

    /** The statements that lowering in this context may still reach by breaking out. */
    function Pending(): nat {
      if ModuleLoop? then 0 else Size(brk) + outer.Pending()
    }

    /** Running off the end of the module's own body costs no time; running off the
      * end of a nested one stands for the tick the rotation removed.
      */
    function FallThrough(): Stmt {
      if ModuleLoop? then Goto(0) else SetPc(head)
    }
  }

  /** A body split at its first tick and turned round it: `W; tick; C` becomes `C; W`. */
  function Rotated(body: Code, t: nat): Code
    requires t < |body|
  {
    body[t + 1..] + body[..t]
  }

  lemma RotatedSize(body: Code, t: nat)
    requires t < |body|
    ensures Size(Rotated(body, t)) < Size(body) && Size(body[..t]) < Size(body)
  {
    assert body == body[..t] + body[t..];
    SizeAppend(body[..t], body[t..]);
    assert body[t..][1..] == body[t + 1..];
    SizeAppend(body[t + 1..], body[..t]);
  }

  /** `caches[d]` is the break continuation of the loop at depth `d + 1`, once lowered. */
  type Caches = seq<Option<Code>>

  datatype Lowered = Lowered(code: Code, states: seq<Code>, caches: Caches)

  datatype LoweredArms = LoweredArms(arms: seq<Arm>, states: seq<Code>, caches: Caches)

  /** The lowering as a function of the states and break caches it starts from. */
  function Lower(stmts: Code, states: seq<Code>, caches: Caches, ctx: Ctx): (r: Lowered)
    requires |caches| == ctx.Depth()
    ensures |r.caches| == |caches| && |r.states| >= |states|
    decreases Size(stmts) + ctx.Pending(), 1, 0
  {
    if stmts == [] then Lowered([ctx.FallThrough()], states, caches) else
    var rest := stmts[1..];
    assert Size(stmts) == StmtSize(stmts[0]) + Size(rest);
    match stmts[0]
    case Tick =>
      if rest == [] then Lowered([SetPc(ctx.Head())], states, caches) else
      var next := |states|;
      var l := Lower(rest, states + [[]], caches, ctx);
      Lowered([SetPc(next)], l.states[next := l.code], l.caches)
    case Continue => Lowered([Goto(ctx.Head())], states, caches)
    case Break => LowerBreak(states, caches, ctx)
    case Loop(body) => LowerLoop(body, rest, states, caches, ctx)
    case Branch(sel, arms) =>
      if Diverges(stmts[0]) then
        var l := LowerArms(arms, rest, states, caches, ctx);
        Lowered([Branch(sel, l.arms)], l.states, l.caches)
      else
        var l := Lower(rest, states, caches, ctx);
        l.(code := [stmts[0]] + l.code)
    case _ =>
      var l := Lower(rest, states, caches, ctx);
      l.(code := [stmts[0]] + l.code)
  }

  /** A `break` inlines what follows its loop, lowered at most once per loop. */
  function LowerBreak(states: seq<Code>, caches: Caches, ctx: Ctx): (r: Lowered)
    requires |caches| == ctx.Depth()
    ensures |r.caches| == |caches| && |r.states| >= |states|
    decreases ctx.Pending(), 2, 0
  {
    if ctx.ModuleLoop? then Lowered([], states, caches) else
    var d := |caches| - 1;
    if caches[d].Some? then Lowered(caches[d].value, states, caches) else
    var l := Lower(ctx.brk, states, caches[..d], ctx.outer);
    l.(caches := l.caches + [Some(l.code)])
  }

  /** A nested loop gets one head state. Its body is lowered for the head, rotated
    * about its tick, and once more for the entry, which runs up to the first tick
    * in the current cycle; without a tick of its own the lowered body is copied.
    */
  function LowerLoop(body: Code, rest: Code, states: seq<Code>, caches: Caches, ctx: Ctx): (r: Lowered)
    requires |caches| == ctx.Depth()
    ensures |r.caches| == |caches| && |r.states| >= |states|
    decreases Size(body) + Size(rest) + ctx.Pending(), 2, 0
  {
    var head := |states|;
    var inner := NestedLoop(head, rest, ctx);
    var d := |caches|;
    var t := FirstTick(body);
    if t < |body| then
      RotatedSize(body, t);
      var h := Lower(Rotated(body, t), states + [[]], caches + [None], inner);
      var e := Lower(body[..t], h.states[head := h.code], h.caches, inner);
      e.(caches := e.caches[..d])
    else
      var h := Lower(body, states + [[]], caches + [None], inner);
      Lowered(h.code, h.states[head := h.code], h.caches[..d])
  }

  /** The two lowerings of a nested loop's body: for its head, turned, and for its entry. */
  function Twice(body: Code, states: seq<Code>, caches: Caches, ctx: Ctx): Lowered
    requires |caches| == ctx.Depth() && ctx.NestedLoop? && ctx.head < |states|
  {
    var t := FirstTick(body);
    var h := Lower(if t < |body| then Rotated(body, t) else body, states, caches, ctx);
    var filled := h.states[ctx.head := h.code];
    if t < |body| then Lower(body[..t], filled, h.caches, ctx) else h.(states := filled)
  }

  lemma LowerLoopTwice(body: Code, rest: Code, states: seq<Code>, caches: Caches, ctx: Ctx)
    requires |caches| == ctx.Depth()
    ensures var e := Twice(body, states + [[]], caches + [None], NestedLoop(|states|, rest, ctx));
      LowerLoop(body, rest, states, caches, ctx) == e.(caches := e.caches[..|caches|])
  {
  }

  /** Every arm of a branch control can leave gets its own copy of what follows it. */
  function LowerArms(arms: seq<Arm>, rest: Code, states: seq<Code>, caches: Caches, ctx: Ctx): (r: LoweredArms)
    requires |caches| == ctx.Depth()
    ensures |r.caches| == |caches| && |r.states| >= |states| && |r.arms| == |arms|
    decreases ArmsSize(arms) + Size(rest) + ctx.Pending(), 2, |arms|
  {
    if arms == [] then LoweredArms([], states, caches) else
    SizeAppend(arms[0].body, rest);
    var a := Lower(arms[0].body + rest, states, caches, ctx);
    var l := LowerArms(arms[1..], rest, a.states, a.caches, ctx);
    l.(arms := [Arm(a.code)] + l.arms)
  }
}
