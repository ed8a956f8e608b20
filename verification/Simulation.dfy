/** Why flattening keeps the meaning: every state body does, in one cycle, exactly
  * what the source does between two ticks.
  */
module Simulation {
  import opened Syntax
  import opened Semantics
  import opened Lowering
  import opened Gate
  import opened Shape
  import opened Unrolling
  import opened Adjusting

  /** `meaning[i]` is the source configuration state `i` stands for: the one right
    * after the tick that enters it.
    */
  type Meaning = seq<Config>

  /** Where the source must stand, still in the same cycle, when a state body ends. */
  function Landing(next: Next, meaning: Meaning): Config
    requires (next.Pc? || next.Jump?) && next.target < |meaning|
  {
    var c := meaning[next.target];
    if next.Pc? then Config([Tick] + c.todo, c.k) else c
  }

  ghost predicate RealisesAt(env: Env, code: Code, cfg: Config, meaning: Meaning, st: State) {
    var r := Exec(env, code, st, Hold);
    && (r.next.Pc? || r.next.Jump?) && r.next.target < |meaning|
    && Reaches(env, cfg, st, Seen(r.log, Landing(r.next, meaning), r.st))
  }

  /** Whatever the operators, the inputs and the store, running `code` drives what the
    * source drives from `cfg` and leaves the same store, and the state it transfers
    * to stands for the configuration the source got to.
    */
  ghost predicate Realises(code: Code, cfg: Config, meaning: Meaning) {
    forall env, st :: RealisesAt(env, code, cfg, meaning, st)
  }

  // ----- Contexts ----------------------------------------------------------------

  /** What a body lowered in this loop still has in front of its end: the tick the
    * rotation took out of a nested loop, unless control never gets there.
    */
  function Suffix(k: Kont): Code {
    if k.Nested? && k.body != [] && k.body[|k.body| - 1] == Tick then [Tick] else []
  }

  /** The lowering context describes the source's loops, and its head states are theirs. */
  ghost predicate CtxOk(ctx: Ctx, k: Kont, meaning: Meaning) {
    && ctx.Head() < |meaning| && meaning[ctx.Head()] == Config([], k)
    && match ctx
       case ModuleLoop => k.Module?
       case NestedLoop(_, _, outer) => k.Nested? && CtxOk(outer, k.outer, meaning)
  }

  /** `adj` is what the machine makes of `stmts` in this loop. Where no tick follows, the
    * list must not end; where it can be left, what follows the loop must fit in turn.
    */
  predicate Fits(stmts: Code, adj: Code, ctx: Ctx, k: Kont)
    decreases ctx, 1
  {
    && Written(stmts) && Lowerable(stmts) && Flattenable(stmts, ctx.NestedLoop?)
    && Adjusts(stmts, adj, ctx.NestedLoop?)
    && (ctx.NestedLoop? && Suffix(k) == [] ==> Endless(stmts))
    && (ctx.NestedLoop? && Breaks(stmts) ==> CanLeave(ctx, k))
  }

  predicate CanLeave(ctx: Ctx, k: Kont)
    requires ctx.NestedLoop?
    decreases ctx, 0
  {
    k.Nested? &&
      var n := |k.after| - |Suffix(k.outer)|;
      n >= 0 && k.after[n..] == Suffix(k.outer) && Fits(ctx.brk, k.after[..n], ctx.outer, k.outer)
  }

  ghost predicate CachesOk(caches: Caches, ctx: Ctx, k: Kont, meaning: Meaning)
    requires |caches| == ctx.Depth() && CtxOk(ctx, k, meaning)
    decreases ctx
  {
    ctx.NestedLoop? ==>
      var d := |caches| - 1;
      && (caches[d].Some? ==> Realises(caches[d].value, Config(k.after, k.outer), meaning))
      && CachesOk(caches[..d], ctx.outer, k.outer, meaning)
  }

  /** Everything lowering from `states` to `states'` promises about the states it made. */
  ghost predicate Grown(states: seq<Code>, meaning: Meaning, states': seq<Code>, meaning': Meaning) {
    && |states| == |meaning| && |states'| == |meaning'| && states <= states' && meaning <= meaning'
    && forall i :: |states| <= i < |states'| ==> Realises(states'[i], meaning'[i], meaning')
  }

  lemma RealisesGrow(code: Code, cfg: Config, m: Meaning, m': Meaning)
    requires Realises(code, cfg, m) && m <= m'
    ensures Realises(code, cfg, m')
  {
    forall env, st ensures RealisesAt(env, code, cfg, m', st) {
      assert RealisesAt(env, code, cfg, m, st);
    }
  }

  lemma {:induction false} CtxGrow(caches: Caches, ctx: Ctx, k: Kont, m: Meaning, m': Meaning)
    requires |caches| == ctx.Depth() && CtxOk(ctx, k, m) && CachesOk(caches, ctx, k, m) && m <= m'
    ensures CtxOk(ctx, k, m') && CachesOk(caches, ctx, k, m')
    decreases ctx
  {
    if ctx.NestedLoop? {
      var d := |caches| - 1;
      CtxGrow(caches[..d], ctx.outer, k.outer, m, m');
      if caches[d].Some? {
        RealisesGrow(caches[d].value, Config(k.after, k.outer), m, m');
      }
    }
  }

  lemma GrownTrans(s: seq<Code>, m: Meaning, s1: seq<Code>, m1: Meaning, s2: seq<Code>, m2: Meaning)
    requires Grown(s, m, s1, m1) && Grown(s1, m1, s2, m2)
    ensures Grown(s, m, s2, m2)
  {
    forall i | |s| <= i < |s2| ensures Realises(s2[i], m2[i], m2) {
      if i < |s1| {
        RealisesGrow(s1[i], m1[i], m1, m2);
      }
    }
  }

  // ----- One construct at a time ---------------------------------------------------

  /** A step that drives nothing may be taken for free. */
  lemma Silently(code: Code, cfg: Config, cfg': Config, meaning: Meaning)
    requires forall env, st :: Step(env, cfg, st) == Move([], cfg', st)
    requires Realises(code, cfg', meaning)
    ensures Realises(code, cfg, meaning)
  {
    forall env, st ensures RealisesAt(env, code, cfg, meaning, st) {
      assert RealisesAt(env, code, cfg', meaning, st);
      var r := Exec(env, code, st, Hold);
      ReachesByStep(env, cfg, st, Seen(r.log, Landing(r.next, meaning), r.st));
      assert [] + r.log == r.log;
    }
  }

  /** A transfer with nothing left to run: the source is already where it lands. */
  lemma Transfer(s: Stmt, cfg: Config, meaning: Meaning)
    requires (s.SetPc? || s.Goto?) && s.target < |meaning|
    requires cfg == Landing(if s.SetPc? then Pc(s.target) else Jump(s.target), meaning)
    ensures Realises([s], cfg, meaning)
  {
    forall env, st ensures RealisesAt(env, [s], cfg, meaning, st) {
      ReachesSelf(env, cfg, st);
    }
  }

  /** A branch every arm of which transfers control. */
  lemma BranchStep(sel: Expr, arms: seq<Arm>, lowered: seq<Arm>, rest: Code, k: Kont, meaning: Meaning)
    requires |arms| == |lowered| > 0
    requires forall i :: 0 <= i < |arms| ==> Realises(lowered[i].body, Config(arms[i].body + rest, k), meaning)
    ensures Realises([Branch(sel, lowered)], Config([Branch(sel, arms)] + rest, k), meaning)
  {
    var cfg := Config([Branch(sel, arms)] + rest, k);
    var code := [Branch(sel, lowered)];
    assert cfg.todo[1..] == rest && code[1..] == [];
    forall env, st ensures RealisesAt(env, code, cfg, meaning, st) {
      var p := Pick(env, sel, |arms|, st);
      assert RealisesAt(env, lowered[p].body, Config(arms[p].body + rest, k), meaning, st);
      var a := Exec(env, lowered[p].body, st, Hold);
      ReachesByStep(env, cfg, st, Seen(a.log, Landing(a.next, meaning), a.st));
      assert a.log + [] == a.log && [] + a.log == a.log;
    }
  }

  /** Work that unrolls stays in its state as it stands. */
  lemma StayStep(s: Stmt, rest: Code, k: Kont, code: Code, meaning: Meaning)
    requires UnrolledStmt(s) && Realises(code, Config(rest, k), meaning)
    ensures Realises([s] + code, Config([s] + rest, k), meaning)
  {
    assert ([s] + code)[1..] == code && [s][1..] == [];
    forall env, st ensures RealisesAt(env, [s] + code, Config([s] + rest, k), meaning, st) {
      UnrolledRuns(env, [s], st, Hold, rest, k);
      var a := Exec(env, [s], st, Hold);
      ExecHead(env, [s] + code, st, Hold);
      assert RealisesAt(env, code, Config(rest, k), meaning, a.st);
      var r := Exec(env, code, a.st, Hold);
      ReachesCompose(env, Config([s] + rest, k), st, Seen(a.log, Config(rest, k), a.st), Seen(r.log, Landing(r.next, meaning), r.st));
    }
  }

  // ----- The whole lowering ----------------------------------------------------------

  /** What lowering promises: the code realises the source's configuration, and so does
    * every state and every break continuation it made on the way.
    */
  ghost predicate Done(states: seq<Code>, meaning: Meaning, r: Lowered, cfg: Config, ctx: Ctx, k: Kont, meaning': Meaning) {
    && Grown(states, meaning, r.states, meaning')
    && Realises(r.code, cfg, meaning')
    && |r.caches| == ctx.Depth() && CtxOk(ctx, k, meaning') && CachesOk(r.caches, ctx, k, meaning')
  }

  ghost predicate Ready(states: seq<Code>, caches: Caches, ctx: Ctx, k: Kont, meaning: Meaning) {
    && |states| == |meaning| && |caches| == ctx.Depth()
    && CtxOk(ctx, k, meaning) && CachesOk(caches, ctx, k, meaning)
  }

  /** What stands behind the head of a fitting list fits. */
  lemma FitsRest(stmts: Code, adj: Code, ctx: Ctx, k: Kont)
    requires Fits(stmts, adj, ctx, k) && stmts != [] && adj != []
    requires !stmts[0].Break? && !stmts[0].Continue?
    ensures Adjusts(stmts[1..], adj[1..], ctx.NestedLoop?)
    ensures (ctx.NestedLoop? && Suffix(k) == [] ==> stmts[1..] != []) ==> Fits(stmts[1..], adj[1..], ctx, k)
  {
  }

  /** What a fitting list may start with. */
  lemma FitsHead(stmts: Code, adj: Code, ctx: Ctx, k: Kont)
    requires Fits(stmts, adj, ctx, k) && stmts != []
    ensures var s := stmts[0]; WrittenStmt(s) && LowerableStmt(s) && FlattenableStmt(s, ctx.NestedLoop?)
    ensures var s := stmts[0]; !s.While? && !s.SetPc? && !s.Goto?
    ensures stmts[0].Continue? ==> ctx.ModuleLoop?
    ensures stmts[0].Break? ==> ctx.NestedLoop? && CanLeave(ctx, k)
  {
    assert WrittenStmt(stmts[0]) && LowerableStmt(stmts[0]) && FlattenableStmt(stmts[0], ctx.NestedLoop?);
    if stmts[0].Break? {
      assert StmtBreaks(stmts[0]) && Breaks(stmts);
    }
  }

  /** Flattening is a simulation, for every list past the gate and in every context: its
    * result is the adjusted source's meaning of each state allocated on the way.
    */
  lemma {:induction false} LowerSimulates(stmts: Code, adj: Code, states: seq<Code>, caches: Caches, ctx: Ctx, k: Kont, meaning: Meaning)
    returns (meaning': Meaning)
    requires Ready(states, caches, ctx, k, meaning) && Fits(stmts, adj, ctx, k)
    ensures Done(states, meaning, Lower(stmts, states, caches, ctx), Config(adj + Suffix(k), k), ctx, k, meaning')
    decreases Size(stmts) + ctx.Pending(), 1, 0
  {
    var cfg := Config(adj + Suffix(k), k);
    if stmts == [] {
      meaning' := meaning;
      assert adj + Suffix(k) == Suffix(k) && Suffix(k) + [] == Suffix(k);
      Transfer(ctx.FallThrough(), cfg, meaning);
    } else if stmts[0].Tick? {
      meaning' := LowerTick(stmts, adj, states, caches, ctx, k, meaning);
    } else {
      var rest, adj' := stmts[1..], adj[1..];
      assert adj + Suffix(k) == [adj[0]] + (adj' + Suffix(k)) && stmts == [stmts[0]] + rest;
      assert Size(stmts) == StmtSize(stmts[0]) + Size(rest);
      FitsHead(stmts, adj, ctx, k);
      if stmts[0].Continue? {
        meaning' := meaning;
        assert adj[0] == Continue;
        Transfer(Goto(0), Config([], k), meaning);
        Silently([Goto(0)], cfg, Config([], k), meaning);
      } else if stmts[0].Break? {
        meaning' := LowerBreakSimulates(states, caches, ctx, k, meaning);
        Silently(LowerBreak(states, caches, ctx).code, cfg, Config(k.after, k.outer), meaning');
      } else if stmts[0].Loop? {
        meaning' := LowerLoopSimulates(stmts[0].body, adj[0].body, rest, adj', states, caches, ctx, k, meaning);
      } else if Diverges(stmts[0]) {
        meaning' := LowerBranchSimulates(stmts, adj, states, caches, ctx, k, meaning);
      } else {
        StaysPut(stmts, adj, ctx, k);
        meaning' := LowerSimulates(rest, adj', states, caches, ctx, k, meaning);
        StayStep(stmts[0], adj' + Suffix(k), k, Lower(rest, states, caches, ctx).code, meaning');
      }
    }
  }

  /** A statement control does not leave unrolls, and is left as it is. */
  lemma StaysPut(stmts: Code, adj: Code, ctx: Ctx, k: Kont)
    requires Fits(stmts, adj, ctx, k) && stmts != [] && !stmts[0].Loop? && !Diverges(stmts[0])
    requires !stmts[0].Tick? && !stmts[0].Break? && !stmts[0].Continue?
    ensures UnrolledStmt(stmts[0]) && adj[0] == stmts[0] && Fits(stmts[1..], adj[1..], ctx, k)
  {
    FitsHead(stmts, adj, ctx, k);
    if stmts[0].Branch? {
      CalmArmsUnroll(stmts[0].arms, ctx.NestedLoop?);
      AdjustsArmsCalm(stmts[0].arms, adj[0].arms, ctx.NestedLoop? && stmts[1..] == []);
    }
    FitsRest(stmts, adj, ctx, k);
  }

  lemma {:induction false} LowerTick(stmts: Code, adj: Code, states: seq<Code>, caches: Caches, ctx: Ctx, k: Kont, meaning: Meaning)
    returns (meaning': Meaning)
    requires Ready(states, caches, ctx, k, meaning) && Fits(stmts, adj, ctx, k) && stmts != [] && stmts[0].Tick?
    ensures Done(states, meaning, Lower(stmts, states, caches, ctx), Config(adj + Suffix(k), k), ctx, k, meaning')
    decreases Size(stmts) + ctx.Pending(), 0, 0
  {
    var rest := stmts[1..];
    if rest == [] {
      meaning' := meaning;
      LastTick(stmts, adj, ctx, k, meaning);
      Transfer(SetPc(ctx.Head()), Config(adj + Suffix(k), k), meaning);
    } else {
      var adj' := adj[1..];
      FitsRest(stmts, adj, ctx, k);
      assert Size(stmts) == StmtSize(stmts[0]) + Size(rest);
      var here := Config(adj' + Suffix(k), k);
      CtxGrow(caches, ctx, k, meaning, meaning + [here]);
      meaning' := LowerSimulates(rest, adj', states + [[]], caches, ctx, k, meaning + [here]);
      assert adj + Suffix(k) == [Tick] + here.todo;
      StateFilled(states, meaning, Lower(rest, states + [[]], caches, ctx), here, ctx, k, meaning');
    }
  }

  /** A tick with nothing behind it leads to the head's end. */
  lemma LastTick(stmts: Code, adj: Code, ctx: Ctx, k: Kont, meaning: Meaning)
    requires CtxOk(ctx, k, meaning) && Fits(stmts, adj, ctx, k) && stmts != [] && stmts[0].Tick? && stmts[1..] == []
    ensures adj + Suffix(k) == [Tick] + []
  {
    if ctx.ModuleLoop? {
      assert Adjusts(stmts[1..], adj[1..], false);
      assert adj == [adj[0]] + adj[1..];
    }
  }

  /** A reserved state, filled with what follows the tick that enters it. */
  lemma StateFilled(states: seq<Code>, meaning: Meaning, l: Lowered, here: Config, ctx: Ctx, k: Kont, meaning': Meaning)
    requires |states| == |meaning| && here.k == k && Done(states + [[]], meaning + [here], l, here, ctx, k, meaning')
    ensures Done(states, meaning, Lowered([SetPc(|states|)], l.states[|states| := l.code], l.caches), Config([Tick] + here.todo, k), ctx, k, meaning')
  {
    var next := |states|;
    assert meaning'[next] == (meaning + [here])[next] == here;
    Transfer(SetPc(next), Config([Tick] + here.todo, k), meaning');
    assert forall i :: next < i < |l.states| ==> Realises(l.states[i], meaning'[i], meaning');
    assert states <= l.states[next := l.code];
  }

  lemma {:induction false} LowerBreakSimulates(states: seq<Code>, caches: Caches, ctx: Ctx, k: Kont, meaning: Meaning)
    returns (meaning': Meaning)
    requires Ready(states, caches, ctx, k, meaning) && ctx.NestedLoop? && CanLeave(ctx, k)
    ensures Done(states, meaning, LowerBreak(states, caches, ctx), Config(k.after, k.outer), ctx, k, meaning')
    decreases ctx.Pending(), 2, 0
  {
    var d := |caches| - 1;
    if caches[d].Some? {
      meaning' := meaning;
    } else {
      var adj := k.after[..|k.after| - |Suffix(k.outer)|];
      assert adj + Suffix(k.outer) == k.after;
      meaning' := LowerSimulates(ctx.brk, adj, states, caches[..d], ctx.outer, k.outer, meaning);
      var l := Lower(ctx.brk, states, caches[..d], ctx.outer);
      assert (l.caches + [Some(l.code)])[..d] == l.caches;
    }
  }

  // ----- Nested loops ------------------------------------------------------------------

  /** The work of an adjusted loop: its body without the loop's tick. */
  function WorkOf(body: Code, y: Code): Code {
    if Endless(body) || y == [] then y else y[..|y| - 1]
  }

  /** The work before a tick is as the gate takes it, and breaks no more than the body. */
  lemma PrefixOf(body: Code)
    requires Written(body) && Lowerable(body) && Flattenable(body, true)
    ensures var w := Prefix(body); Written(w) && Lowerable(w) && Flattenable(w, true) && (Breaks(w) ==> Breaks(body))
  {
    var t := FirstTick(body);
    assert Prefix(body) == body[..t] && body == body[..t] + body[t..];
    WrittenAppend(body[..t], body[t..]);
    LowerableAppend(body[..t], body[t..]);
    FlattenableAppend(body[..t], body[t..], true);
    ControlAppend(body[..t], body[t..]);
  }

  /** An adjusted loop's body is its work and, unless it is never reached, its tick. */
  lemma WorkAndTick(body: Code, y: Code, after: Code, k: Kont)
    requires AdjustsLoop(body, y) && EndsAtClockBoundary(body)
    ensures var ki := Nested(y, after, k);
      && Adjusts(Prefix(body), WorkOf(body, y), true) && WorkOf(body, y) + Suffix(ki) == y
      && (Suffix(ki) == [] ==> Endless(Prefix(body)))
  {
    if Endless(body) {
      assert FirstTick(body) == |body| && body[..|body|] == body;
    }
  }

  /** Once the nested loop is left, what follows it fits. */
  lemma AfterFits(body: Code, y: Code, rest: Code, adj': Code, head: nat, ctx: Ctx, k: Kont)
    requires Fits([Loop(body)] + rest, [Loop(y)] + adj', ctx, k) && Breaks(body)
    ensures CanLeave(NestedLoop(head, rest, ctx), Nested(y, adj' + Suffix(k), k))
  {
    var stmts, adj := [Loop(body)] + rest, [Loop(y)] + adj';
    assert stmts[1..] == rest && adj[1..] == adj';
    assert stmts[|stmts| - 1] == if rest == [] then Loop(body) else rest[|rest| - 1];
    FitsRest(stmts, adj, ctx, k);
    var after := adj' + Suffix(k);
    assert after[..|adj'|] == adj' && after[|adj'|..] == Suffix(k);
  }

  /** Inside a nested loop its work fits, and so does, once it is left, what follows it. */
  lemma WorkFits(body: Code, y: Code, rest: Code, adj': Code, head: nat, ctx: Ctx, k: Kont)
    requires Fits([Loop(body)] + rest, [Loop(y)] + adj', ctx, k)
    ensures var ki := Nested(y, adj' + Suffix(k), k);
      Fits(Prefix(body), WorkOf(body, y), NestedLoop(head, rest, ctx), ki) && WorkOf(body, y) + Suffix(ki) == y
  {
    LoopHead(body, y, rest, adj', ctx, k);
    PrefixOf(body);
    WorkAndTick(body, y, adj' + Suffix(k), k);
    if Breaks(Prefix(body)) {
      AfterFits(body, y, rest, adj', head, ctx, k);
    }
  }

  lemma LoopHead(body: Code, y: Code, rest: Code, adj': Code, ctx: Ctx, k: Kont)
    requires Fits([Loop(body)] + rest, [Loop(y)] + adj', ctx, k)
    ensures Written(body) && Lowerable(body) && Flattenable(body, true) && EndsAtClockBoundary(body)
    ensures AdjustsLoop(body, y)
  {
    FitsHead([Loop(body)] + rest, [Loop(y)] + adj', ctx, k);
    assert ([Loop(body)] + rest)[0] == Loop(body) && ([Loop(y)] + adj')[0] == Loop(y);
  }

  lemma {:induction false} LowerLoopSimulates(body: Code, y: Code, rest: Code, adj': Code, states: seq<Code>,
                                              caches: Caches, ctx: Ctx, k: Kont, meaning: Meaning)
    returns (meaning': Meaning)
    requires Ready(states, caches, ctx, k, meaning)
    requires Fits([Loop(body)] + rest, [Loop(y)] + adj', ctx, k)
    ensures Done(states, meaning, LowerLoop(body, rest, states, caches, ctx), Config([Loop(y)] + (adj' + Suffix(k)), k), ctx, k, meaning')
    decreases Size(body) + Size(rest) + ctx.Pending(), 2, 0
  {
    var work, inner := Prefix(body), NestedLoop(|states|, rest, ctx);
    var ki, w := Nested(y, adj' + Suffix(k), k), WorkOf(body, y);
    WorkFits(body, y, rest, adj', |states|, ctx, k);
    var m2 := LowerHeadSimulates(body, y, rest, adj', states, caches, ctx, k, meaning);
    var h := Lower(work, states + [[]], caches + [None], inner);
    var s2 := h.states[|states| := h.code];
    FitsHead([Loop(body)] + rest, [Loop(y)] + adj', ctx, k);
    LowerLoopPrefix(body, rest, states, caches, ctx);
    if FirstTick(body) < |body| {
      meaning' := LowerSimulates(work, w, s2, h.caches, inner, ki, m2);
      EntrySimulates(y, rest, states, caches, ctx, k, meaning, s2, m2, Lower(work, s2, h.caches, inner), meaning', adj' + Suffix(k));
    } else {
      meaning' := m2;
      EntrySimulates(y, rest, states, caches, ctx, k, meaning, s2, m2, h.(states := s2), m2, adj' + Suffix(k));
    }
  }

  /** Entering the loop and running the code lowered for its entry come to the same. */
  lemma EntrySimulates(y: Code, rest: Code, states: seq<Code>, caches: Caches, ctx: Ctx, k: Kont, meaning: Meaning,
                       s2: seq<Code>, m2: Meaning, e: Lowered, m3: Meaning, after: Code)
    requires |caches| == ctx.Depth() && Grown(states, meaning, s2, m2)
    requires var ki := Nested(y, after, k);
      Done(s2, m2, e, Config(y, ki), NestedLoop(|states|, rest, ctx), ki, m3)
    ensures Done(states, meaning, e.(caches := e.caches[..|caches|]), Config([Loop(y)] + after, k), ctx, k, m3)
  {
    var cfg := Config([Loop(y)] + after, k);
    GrownTrans(states, meaning, s2, m2, e.states, m3);
    assert cfg.todo[1..] == after;
    Silently(e.code, cfg, Config(y, Nested(y, after, k)), m3);
  }

  /** A body that ends at a clock boundary needs no turning: head and entry lower its work. */
  lemma LowerLoopPrefix(body: Code, rest: Code, states: seq<Code>, caches: Caches, ctx: Ctx)
    requires |caches| == ctx.Depth() && EndsAtClockBoundary(body)
    ensures var work, inner := Prefix(body), NestedLoop(|states|, rest, ctx);
      var h := Lower(work, states + [[]], caches + [None], inner);
      var s2 := h.states[|states| := h.code];
      var e := if FirstTick(body) < |body| then Lower(work, s2, h.caches, inner) else h.(states := s2);
      LowerLoop(body, rest, states, caches, ctx) == e.(caches := e.caches[..|caches|])
  {
    var t := FirstTick(body);
    if t < |body| {
      assert Rotated(body, t) == body[..t];
    }
  }

  /** The head state of a nested loop, filled with its work. */
  lemma {:induction false} LowerHeadSimulates(body: Code, y: Code, rest: Code, adj': Code, states: seq<Code>,
                                              caches: Caches, ctx: Ctx, k: Kont, meaning: Meaning)
    returns (meaning': Meaning)
    requires Ready(states, caches, ctx, k, meaning)
    requires Fits([Loop(body)] + rest, [Loop(y)] + adj', ctx, k)
    ensures var inner, ki := NestedLoop(|states|, rest, ctx), Nested(y, adj' + Suffix(k), k);
      var h := Lower(Prefix(body), states + [[]], caches + [None], inner);
      && |states| < |h.states|
      && Grown(states, meaning, h.states[|states| := h.code], meaning')
      && Ready(h.states, h.caches, inner, ki, meaning') && Realises(h.code, Config(y, ki), meaning')
    decreases Size(body) + Size(rest) + ctx.Pending(), 1, 1
  {
    var head, work := |states|, Prefix(body);
    var inner := NestedLoop(head, rest, ctx);
    var ki := Nested(y, adj' + Suffix(k), k);
    var top := Config([], ki);
    WorkFits(body, y, rest, adj', head, ctx, k);
    var m1 := meaning + [top];
    CtxGrow(caches, ctx, k, meaning, m1);
    assert (caches + [None])[..|caches|] == caches;
    meaning' := LowerSimulates(work, WorkOf(body, y), states + [[]], caches + [None], inner, ki, m1);
    var h := Lower(work, states + [[]], caches + [None], inner);
    Silently(h.code, top, Config(y, ki), meaning');
    assert meaning'[head] == m1[head] == top;
    assert states <= h.states[head := h.code];
  }

  // ----- Branches ------------------------------------------------------------------------

  lemma {:induction false} LowerBranchSimulates(stmts: Code, adj: Code, states: seq<Code>, caches: Caches, ctx: Ctx,
                                                k: Kont, meaning: Meaning)
    returns (meaning': Meaning)
    requires Ready(states, caches, ctx, k, meaning) && Fits(stmts, adj, ctx, k)
    requires stmts != [] && stmts[0].Branch? && Diverges(stmts[0])
    ensures Done(states, meaning, Lower(stmts, states, caches, ctx), Config(adj + Suffix(k), k), ctx, k, meaning')
    decreases Size(stmts) + ctx.Pending(), 0, 0
  {
    var arms, arms', rest, adj' := stmts[0].arms, adj[0].arms, stmts[1..], adj[1..];
    assert Size(stmts) == StmtSize(stmts[0]) + Size(rest);
    assert adj + Suffix(k) == [Branch(stmts[0].sel, arms')] + (adj' + Suffix(k));
    FitsHead(stmts, adj, ctx, k);
    AdjustsArmsCount(arms, arms', ctx.NestedLoop? && rest == []);
    forall i | 0 <= i < |arms| ensures Fits(arms[i].body + rest, arms'[i].body + adj', ctx, k) {
      ArmFits(stmts, adj, ctx, k, i);
    }
    meaning' := LowerArmsSimulates(arms, arms', rest, adj', states, caches, ctx, k, meaning);
    BranchStep(stmts[0].sel, arms', LowerArms(arms, rest, states, caches, ctx).arms, adj' + Suffix(k), k, meaning');
  }

  /** An arm with what follows the branch inlined behind it fits where the branch did. */
  lemma ArmFits(stmts: Code, adj: Code, ctx: Ctx, k: Kont, i: nat)
    requires Fits(stmts, adj, ctx, k) && stmts != [] && stmts[0].Branch? && i < |stmts[0].arms|
    ensures |adj[0].arms| == |stmts[0].arms|
    ensures Fits(stmts[0].arms[i].body + stmts[1..], adj[0].arms[i].body + adj[1..], ctx, k)
  {
    var arms, rest, nested := stmts[0].arms, stmts[1..], ctx.NestedLoop?;
    FitsHead(stmts, adj, ctx, k);
    assert StmtBreaks(stmts[0]) == ArmsBreak(arms);
    AdjustsArmAt(arms, adj[0].arms, nested && rest == [], i);
    AdjustsInline(arms[i].body, adj[0].arms[i].body, rest, adj[1..], nested);
    ArmWritten(arms, i);
    ArmLowerable(arms, i);
    ArmFlattenable(arms, i, nested);
    ArmControl(arms, i);
    WrittenAppend(arms[i].body, rest);
    LowerableAppend(arms[i].body, rest);
    FlattenableAppend(arms[i].body, rest, nested);
    ControlAppend(arms[i].body, rest);
  }

  lemma {:induction false} LowerArmsSimulates(arms: seq<Arm>, arms': seq<Arm>, rest: Code, adj': Code,
                                              states: seq<Code>, caches: Caches, ctx: Ctx, k: Kont, meaning: Meaning)
    returns (meaning': Meaning)
    requires Ready(states, caches, ctx, k, meaning) && |arms'| == |arms|
    requires forall i :: 0 <= i < |arms| ==> Fits(arms[i].body + rest, arms'[i].body + adj', ctx, k)
    ensures var r := LowerArms(arms, rest, states, caches, ctx);
      && Grown(states, meaning, r.states, meaning') && Ready(r.states, r.caches, ctx, k, meaning')
      && forall i :: 0 <= i < |arms| ==> Realises(r.arms[i].body, Config(arms'[i].body + (adj' + Suffix(k)), k), meaning')
    decreases ArmsSize(arms) + Size(rest) + ctx.Pending(), 2, |arms|
  {
    var r := LowerArms(arms, rest, states, caches, ctx);
    if arms == [] {
      meaning' := meaning;
    } else {
      SizeAppend(arms[0].body, rest);
      var m1 := LowerSimulates(arms[0].body + rest, arms'[0].body + adj', states, caches, ctx, k, meaning);
      var a := Lower(arms[0].body + rest, states, caches, ctx);
      assert arms'[0].body + adj' + Suffix(k) == arms'[0].body + (adj' + Suffix(k));
      forall i | 0 <= i < |arms[1..]| ensures Fits(arms[1..][i].body + rest, arms'[1..][i].body + adj', ctx, k) {
        assert arms[1..][i] == arms[i + 1] && arms'[1..][i] == arms'[i + 1];
      }
      meaning' := LowerArmsSimulates(arms[1..], arms'[1..], rest, adj', a.states, a.caches, ctx, k, m1);
      var l := LowerArms(arms[1..], rest, a.states, a.caches, ctx);
      GrownTrans(states, meaning, a.states, m1, l.states, meaning');
      RealisesGrow(a.code, Config(arms'[0].body + (adj' + Suffix(k)), k), m1, meaning');
      forall i | 0 <= i < |arms|
        ensures Realises(r.arms[i].body, Config(arms'[i].body + (adj' + Suffix(k)), k), meaning')
      {
        if i > 0 {
          assert arms'[i] == arms'[1..][i - 1] && r.arms[i] == l.arms[i - 1];
        }
      }
    }
  }
}
