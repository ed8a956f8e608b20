/** Which local names a list reads and declares, and why every state body reads only
  * names that are declared on its own way or by some other state.
  */
module Scoping {
  import opened Syntax
  import opened Lowering
  import opened Gate

  // ----- Names ---------------------------------------------------------------------------

  function Reads(e: Expr): set<string> {
    match e
    case Lit(_) => {}
    case Var(x) => {x}
    case Input(_) => {}
    case Not(a) => Reads(a)
    case AddU32(a, b) => Reads(a) + Reads(b)
    case Ge(a, b) => Reads(a) + Reads(b)
    case Apply(_, a, b) => Reads(a) + Reads(b)
  }

  function ActionExpr(a: Action): Expr {
    match a
    case Let(_, e) => e
    case Set(_, e) => e
    case Drive(_, e) => e
  }

  /** The names a list mentions: read anywhere in it, or the target of an assignment. A
    * declaration does not mention the name it declares.
    */
  function Mentions(stmts: Code): set<string>
    decreases stmts
  {
    if stmts == [] then {} else StmtMentions(stmts[0]) + Mentions(stmts[1..])
  }

  function StmtMentions(s: Stmt): set<string>
    decreases s
  {
    match s
    case Do(a) => Reads(ActionExpr(a)) + if a.Set? then {a.name} else {}
    case Branch(sel, arms) => Reads(sel) + ArmsMention(arms)
    case Loop(body) => Mentions(body)
    case While(c, body) => Reads(c) + Mentions(body)
    case For(_, lo, hi, body) => Reads(lo) + Reads(hi) + Mentions(body)
    case _ => {}
  }

  function ArmsMention(arms: seq<Arm>): set<string>
    decreases arms
  {
    if arms == [] then {} else Mentions(arms[0].body) + ArmsMention(arms[1..])
  }

  /** The names a list declares, at any depth. */
  function Lets(stmts: Code): set<string>
    decreases stmts
  {
    if stmts == [] then {} else StmtLets(stmts[0]) + Lets(stmts[1..])
  }

  function StmtLets(s: Stmt): set<string>
    decreases s
  {
    match s
    case Do(a) => if a.Let? then {a.name} else {}
    case Branch(_, arms) => ArmsLet(arms)
    case Loop(body) => Lets(body)
    case While(_, body) => Lets(body)
    case For(_, _, _, body) => Lets(body)
    case _ => {}
  }

  function ArmsLet(arms: seq<Arm>): set<string>
    decreases arms
  {
    if arms == [] then {} else Lets(arms[0].body) + ArmsLet(arms[1..])
  }

  /** The parts of an expression, itself included. */
  function Parts(e: Expr): set<Expr> {
    {e} + match e
          case Not(a) => Parts(a)
          case AddU32(a, b) => Parts(a) + Parts(b)
          case Ge(a, b) => Parts(a) + Parts(b)
          case Apply(_, a, b) => Parts(a) + Parts(b)
          case _ => {}
  }

  lemma {:induction false} ReadsAreParts(e: Expr, x: string)
    ensures x in Reads(e) <==> Var(x) in Parts(e)
  {
    match e
    case Not(a) => ReadsAreParts(a, x);
    case AddU32(a, b) => ReadsAreParts(a, x); ReadsAreParts(b, x);
    case Ge(a, b) => ReadsAreParts(a, x); ReadsAreParts(b, x);
    case Apply(_, a, b) => ReadsAreParts(a, x); ReadsAreParts(b, x);
    case _ =>
  }

  /** The statements of a list at every depth. */
  function Everywhere(stmts: Code): set<Stmt>
    decreases stmts
  {
    if stmts == [] then {} else {stmts[0]} + Inside(stmts[0]) + Everywhere(stmts[1..])
  }

  function Inside(s: Stmt): set<Stmt>
    decreases s
  {
    match s
    case Branch(_, arms) => InsideArms(arms)
    case Loop(body) => Everywhere(body)
    case While(_, body) => Everywhere(body)
    case For(_, _, _, body) => Everywhere(body)
    case _ => {}
  }

  function InsideArms(arms: seq<Arm>): set<Stmt>
    decreases arms
  {
    if arms == [] then {} else Everywhere(arms[0].body) + InsideArms(arms[1..])
  }

  predicate Nests(s: Stmt) {
    s.Loop? || s.While? || s.For?
  }

  /** The expressions a statement evaluates itself. */
  function Evaluates(s: Stmt): set<Expr> {
    match s
    case Do(a) => {ActionExpr(a)}
    case Branch(sel, _) => {sel}
    case While(c, _) => {c}
    case For(_, lo, hi, _) => {lo, hi}
    case _ => {}
  }

  /** The statement itself reads the name, or assigns it without declaring it. */
  predicate Refers(s: Stmt, x: string) {
    (exists e <- Evaluates(s) :: Var(x) in Parts(e)) || (s.Do? && s.action.Set? && s.action.name == x)
  }

  predicate Declaring(s: Stmt, x: string) {
    s.Do? && s.action.Let? && s.action.name == x
  }

  lemma RefersIff(s: Stmt, x: string)
    ensures Refers(s, x) <==>
      match s
      case Do(a) => x in Reads(ActionExpr(a)) || (a.Set? && a.name == x)
      case Branch(sel, _) => x in Reads(sel)
      case While(c, _) => x in Reads(c)
      case For(_, lo, hi, _) => x in Reads(lo) || x in Reads(hi)
      case _ => false
  {
    forall e | e in Evaluates(s) ensures x in Reads(e) <==> Var(x) in Parts(e) {
      ReadsAreParts(e, x);
    }
    match s
    case Do(a) => assert ActionExpr(a) in Evaluates(s);
    case Branch(sel, _) => assert sel in Evaluates(s);
    case While(c, _) => assert c in Evaluates(s);
    case For(_, lo, hi, _) => assert lo in Evaluates(s) && hi in Evaluates(s);
    case _ =>
  }

  /** A list mentions exactly what its statements name, and declares what they declare. */
  lemma {:induction false} MentionedIff(stmts: Code, x: string)
    ensures x in Mentions(stmts) <==> exists s <- Everywhere(stmts) :: Refers(s, x)
    ensures x in Lets(stmts) <==> exists s <- Everywhere(stmts) :: Declaring(s, x)
    decreases stmts, 1
  {
    if stmts != [] {
      InsideIff(stmts[0], x);
      MentionedIff(stmts[1..], x);
      assert Everywhere(stmts) == {stmts[0]} + Inside(stmts[0]) + Everywhere(stmts[1..]);
    }
  }

  lemma {:induction false} InsideIff(s: Stmt, x: string)
    ensures x in StmtMentions(s) <==> Refers(s, x) || exists y <- Inside(s) :: Refers(y, x)
    ensures x in StmtLets(s) <==> Declaring(s, x) || exists y <- Inside(s) :: Declaring(y, x)
    decreases s, 0
  {
    RefersIff(s, x);
    match s
    case Branch(_, arms) => InsideArmsIff(arms, x);
    case Loop(body) => MentionedIff(body, x);
    case While(_, body) => MentionedIff(body, x);
    case For(_, _, _, body) => MentionedIff(body, x);
    case _ =>
  }

  lemma {:induction false} InsideArmsIff(arms: seq<Arm>, x: string)
    ensures x in ArmsMention(arms) <==> exists s <- InsideArms(arms) :: Refers(s, x)
    ensures x in ArmsLet(arms) <==> exists s <- InsideArms(arms) :: Declaring(s, x)
    decreases arms, 0
  {
    if arms != [] {
      MentionedIff(arms[0].body, x);
      InsideArmsIff(arms[1..], x);
      assert InsideArms(arms) == Everywhere(arms[0].body) + InsideArms(arms[1..]);
    }
  }

  // ----- Lexical scope -------------------------------------------------------------------

  function After(scope: set<string>, s: Stmt): set<string> {
    if s.Do? && s.action.Let? then scope + {s.action.name} else scope
  }

  /** Every name a list reads or assigns is in `scope` or declared before, in the same
    * block or one around it.
    */
  predicate Closed(stmts: Code, scope: set<string>)
    decreases stmts
  {
    stmts != [] ==> StmtClosed(stmts[0], scope) && Closed(stmts[1..], After(scope, stmts[0]))
  }

  predicate StmtClosed(s: Stmt, scope: set<string>)
    decreases s
  {
    match s
    case Do(a) => Reads(ActionExpr(a)) <= scope && (a.Set? ==> a.name in scope)
    case Branch(sel, arms) => Reads(sel) <= scope && ArmsClosed(arms, scope)
    case Loop(body) => Closed(body, scope)
    case While(c, body) => Reads(c) <= scope && Closed(body, scope)
    case For(x, lo, hi, body) => Reads(lo) + Reads(hi) <= scope && Closed(body, scope + {x})
    case _ => true
  }

  predicate ArmsClosed(arms: seq<Arm>, scope: set<string>)
    decreases arms
  {
    arms != [] ==> Closed(arms[0].body, scope) && ArmsClosed(arms[1..], scope)
  }

  lemma {:induction false} ClosedGrow(stmts: Code, d: set<string>, d': set<string>)
    requires Closed(stmts, d) && d <= d'
    ensures Closed(stmts, d')
    decreases stmts
  {
    if stmts != [] {
      ClosedGrow(stmts[1..], After(d, stmts[0]), After(d', stmts[0]));
      match stmts[0]
      case Branch(_, arms) => ArmsClosedGrow(arms, d, d');
      case Loop(body) => ClosedGrow(body, d, d');
      case While(_, body) => ClosedGrow(body, d, d');
      case For(x, _, _, body) => ClosedGrow(body, d + {x}, d' + {x});
      case _ =>
    }
  }

  lemma {:induction false} ArmsClosedGrow(arms: seq<Arm>, d: set<string>, d': set<string>)
    requires ArmsClosed(arms, d) && d <= d'
    ensures ArmsClosed(arms, d')
    decreases arms
  {
    if arms != [] {
      ClosedGrow(arms[0].body, d, d');
      ArmsClosedGrow(arms[1..], d, d');
    }
  }

  lemma {:induction false} ClosedAppend(a: Code, b: Code, d: set<string>)
    requires Closed(a, d) && Closed(b, d)
    ensures Closed(a + b, d)
    decreases a
  {
    if a == [] {
      assert a + b == b;
    } else {
      ClosedGrow(b, d, After(d, a[0]));
      ClosedAppend(a[1..], b, After(d, a[0]));
      assert (a + b)[1..] == a[1..] + b;
    }
  }

  lemma {:induction false} ClosedPrefix(a: Code, b: Code, d: set<string>)
    requires Closed(a + b, d)
    ensures Closed(a, d)
    decreases a
  {
    if a != [] {
      assert (a + b)[1..] == a[1..] + b;
      ClosedPrefix(a[1..], b, After(d, a[0]));
    }
  }

  lemma {:induction false} LetsAppend(a: Code, b: Code)
    ensures Lets(a + b) == Lets(a) + Lets(b)
  {
    if a == [] {
      assert a + b == b;
    } else {
      assert (a + b)[1..] == a[1..] + b;
      LetsAppend(a[1..], b);
    }
  }

  // ----- The lowering keeps scope -----------------------------------------------------------

  /** `x` is declared by a state from `lo` on, other than state `i`. */
  predicate DeclaredElsewhere(states: seq<Code>, lo: nat, i: nat, x: string) {
    exists j :: lo <= j < |states| && j != i && x in Lets(states[j])
  }

  /** Each state from `lo` on has a scope it is closed under, and every name in that
    * scope was in scope before, or is declared by `code` or by another such state.
    */
  ghost predicate Owned(states: seq<Code>, scopes: seq<set<string>>, lo: nat, d: set<string>, code: Code) {
    && |states| == |scopes|
    && forall i :: lo <= i < |states| ==>
         && Closed(states[i], scopes[i])
         && forall x <- scopes[i] :: x in d || x in Lets(code) || DeclaredElsewhere(states, lo, i, x)
  }

  /** `ds[i]` is what is in scope where the loop at depth `i + 1` stands. */
  predicate CtxClosed(ctx: Ctx, ds: seq<set<string>>, d: set<string>) {
    && |ds| == ctx.Depth()
    && (ctx.NestedLoop? ==>
          var n := |ds| - 1;
          && ds[n] <= d && Closed(ctx.brk, ds[n]) && Flattenable(ctx.brk, ctx.outer.NestedLoop?)
          && CtxClosed(ctx.outer, ds[..n], ds[n]))
  }

  predicate CachesClosed(caches: Caches, ds: seq<set<string>>) {
    |caches| == |ds| && forall i :: 0 <= i < |caches| && caches[i].Some? ==> Closed(caches[i].value, ds[i])
  }

  lemma OwnedGrow(s1: seq<Code>, m1: seq<set<string>>, s2: seq<Code>, m2: seq<set<string>>, lo: nat, d: set<string>,
                  c1: Code, c2: Code, c: Code)
    requires lo <= |s1| && s1 <= s2 && m1 <= m2
    requires Owned(s1, m1, lo, d, c1) && Owned(s2, m2, |s1|, d, c2)
    requires Lets(c1) + Lets(c2) <= Lets(c)
    ensures Owned(s2, m2, lo, d, c)
  {
    forall i | lo <= i < |s2|
      ensures Closed(s2[i], m2[i])
      ensures forall x <- m2[i] :: x in d || x in Lets(c) || DeclaredElsewhere(s2, lo, i, x)
    {
      forall x | x in m2[i] && x !in d && x !in Lets(c) ensures DeclaredElsewhere(s2, lo, i, x) {
        if i < |s1| {
          assert x in m1[i] && DeclaredElsewhere(s1, lo, i, x);
          var j :| lo <= j < |s1| && j != i && x in Lets(s1[j]);
          assert s2[j] == s1[j];
        } else {
          assert DeclaredElsewhere(s2, |s1|, i, x);
        }
      }
    }
  }

  /** Filling a reserved state with `code` makes `code` a state like the others. */
  lemma OwnedFill(s: seq<Code>, m: seq<set<string>>, at: nat, d: set<string>, code: Code, c: Code)
    requires at < |s| && Owned(s, m, at + 1, d, code) && m[at] == d && Closed(code, d)
    ensures Owned(s[at := code], m, at, d, c)
  {
    var s' := s[at := code];
    forall i | at <= i < |s'|
      ensures Closed(s'[i], m[i])
      ensures forall x <- m[i] :: x in d || x in Lets(c) || DeclaredElsewhere(s', at, i, x)
    {
      if i > at {
        forall x | x in m[i] && x !in d ensures DeclaredElsewhere(s', at, i, x) {
          if x in Lets(code) {
            assert s'[at] == code;
          } else {
            assert DeclaredElsewhere(s, at + 1, i, x);
            var j :| at + 1 <= j < |s| && j != i && x in Lets(s[j]);
            assert s'[j] == s[j];
          }
        }
      }
    }
  }

  lemma OwnedWiden(s: seq<Code>, m: seq<set<string>>, lo: nat, d: set<string>, code: Code, d': set<string>, code': Code)
    requires Owned(s, m, lo, d, code) && d + Lets(code) <= d' + Lets(code')
    ensures Owned(s, m, lo, d', code')
  {
    forall i | lo <= i < |s| ensures forall x <- m[i] :: x in d' || x in Lets(code') || DeclaredElsewhere(s, lo, i, x) {
      forall x | x in m[i] && !DeclaredElsewhere(s, lo, i, x) ensures x in d' || x in Lets(code') {
        assert x in d + Lets(code);
      }
    }
  }

  ghost predicate Kept(from: seq<Code>, scopes: seq<set<string>>, r: Lowered, scopes': seq<set<string>>,
                       d: set<string>, ds: seq<set<string>>) {
    && |scopes| == |from| && from <= r.states && scopes <= scopes'
    && Closed(r.code, d) && Owned(r.states, scopes', |from|, d, r.code) && CachesClosed(r.caches, ds)
  }

  lemma {:induction false} LowerClosed(stmts: Code, states: seq<Code>, caches: Caches, ctx: Ctx,
                                       d: set<string>, ds: seq<set<string>>, scopes: seq<set<string>>)
    returns (scopes': seq<set<string>>)
    requires |caches| == ctx.Depth() && |scopes| == |states|
    requires CtxClosed(ctx, ds, d) && CachesClosed(caches, ds) && Closed(stmts, d) && Flattenable(stmts, ctx.NestedLoop?)
    ensures Kept(states, scopes, Lower(stmts, states, caches, ctx), scopes', d, ds)
    decreases Size(stmts) + ctx.Pending(), 1, 0
  {
    scopes' := scopes;
    if stmts != [] {
      var rest := stmts[1..];
      assert Size(stmts) == StmtSize(stmts[0]) + Size(rest);
      match stmts[0]
      case Tick =>
        if rest != [] {
          scopes' := LowerClosed(rest, states + [[]], caches, ctx, d, ds, scopes + [d]);
          var l := Lower(rest, states + [[]], caches, ctx);
          OwnedFill(l.states, scopes', |states|, d, l.code, [SetPc(|states|)]);
        }
      case Continue =>
      case Break =>
        if ctx.NestedLoop? {
          scopes' := LowerBreakClosed(states, caches, ctx, d, ds, scopes);
        }
      case Loop(body) =>
        scopes' := LowerLoopClosed(body, rest, states, caches, ctx, d, ds, scopes);
      case Branch(sel, arms) =>
        if Diverges(stmts[0]) {
          scopes' := LowerArmsClosed(arms, rest, states, caches, ctx, d, ds, scopes);
          var l := LowerArms(arms, rest, states, caches, ctx);
          SoleBranchLets(sel, l.arms);
          OwnedWiden(l.states, scopes', |states|, d, ArmsCode(l.arms), d, [Branch(sel, l.arms)]);
        } else {
          scopes' := LowerPushClosed(stmts, states, caches, ctx, d, ds, scopes);
        }
      case Do(_) =>
        scopes' := LowerPushClosed(stmts, states, caches, ctx, d, ds, scopes);
      case While(_, _) =>
        scopes' := LowerPushClosed(stmts, states, caches, ctx, d, ds, scopes);
      case For(_, _, _, _) =>
        scopes' := LowerPushClosed(stmts, states, caches, ctx, d, ds, scopes);
      case SetPc(_) =>
        scopes' := LowerPushClosed(stmts, states, caches, ctx, d, ds, scopes);
      case Goto(_) =>
        scopes' := LowerPushClosed(stmts, states, caches, ctx, d, ds, scopes);
    }
  }

  lemma {:induction false} LowerPushClosed(stmts: Code, states: seq<Code>, caches: Caches, ctx: Ctx,
                                           d: set<string>, ds: seq<set<string>>, scopes: seq<set<string>>)
    returns (scopes': seq<set<string>>)
    requires |caches| == ctx.Depth() && |scopes| == |states|
    requires CtxClosed(ctx, ds, d) && CachesClosed(caches, ds) && Closed(stmts, d) && Flattenable(stmts, ctx.NestedLoop?)
    requires stmts != [] && !stmts[0].Tick? && !stmts[0].Continue? && !stmts[0].Break? && !stmts[0].Loop?
    requires stmts[0].Branch? ==> !Diverges(stmts[0])
    ensures Kept(states, scopes, Lower(stmts, states, caches, ctx), scopes', d, ds)
    decreases Size(stmts) + ctx.Pending(), 0, 0
  {
    var rest, d' := stmts[1..], After(d, stmts[0]);
    assert Size(stmts) == StmtSize(stmts[0]) + Size(rest);
    scopes' := LowerClosed(rest, states, caches, ctx, d', ds, scopes);
    var l := Lower(rest, states, caches, ctx);
    var code := [stmts[0]] + l.code;
    assert code[1..] == l.code;
    OwnedWiden(l.states, scopes', |states|, d', l.code, d, code);
  }

  lemma {:induction false} LowerBreakClosed(states: seq<Code>, caches: Caches, ctx: Ctx,
                                            d: set<string>, ds: seq<set<string>>, scopes: seq<set<string>>)
    returns (scopes': seq<set<string>>)
    requires |caches| == ctx.Depth() && |scopes| == |states| && ctx.NestedLoop?
    requires CtxClosed(ctx, ds, d) && CachesClosed(caches, ds)
    ensures Kept(states, scopes, LowerBreak(states, caches, ctx), scopes', d, ds)
    decreases ctx.Pending(), 2, 0
  {
    var n := |ds| - 1;
    if caches[n].Some? {
      scopes' := scopes;
      ClosedGrow(caches[n].value, ds[n], d);
    } else {
      scopes' := LowerClosed(ctx.brk, states, caches[..n], ctx.outer, ds[n], ds[..n], scopes);
      var l := Lower(ctx.brk, states, caches[..n], ctx.outer);
      ClosedGrow(l.code, ds[n], d);
      OwnedWiden(l.states, scopes', |states|, ds[n], l.code, d, l.code);
    }
  }

  lemma {:induction false} LowerLoopClosed(body: Code, rest: Code, states: seq<Code>, caches: Caches, ctx: Ctx,
                                           d: set<string>, ds: seq<set<string>>, scopes: seq<set<string>>)
    returns (scopes': seq<set<string>>)
    requires |caches| == ctx.Depth() && |scopes| == |states|
    requires CtxClosed(ctx, ds, d) && CachesClosed(caches, ds) && Closed(body, d) && Closed(rest, d)
    requires FlattenableStmt(Loop(body), ctx.NestedLoop?) && Flattenable(rest, ctx.NestedLoop?)
    ensures Kept(states, scopes, LowerLoop(body, rest, states, caches, ctx), scopes', d, ds)
    decreases Size(body) + Size(rest) + ctx.Pending(), 2, 0
  {
    var inner := NestedLoop(|states|, rest, ctx);
    if FirstTick(body) < |body| {
      scopes' := LowerTickingClosed(body, rest, states, caches, ctx, d, ds, scopes);
    } else {
      scopes' := LowerHeadClosed(body, rest, states, caches, ctx, d, ds, scopes);
      var h := Lower(body, states + [[]], caches + [None], inner);
      OwnedWiden(h.states[|states| := h.code], scopes', |states|, d, [], d, h.code);
    }
    LowerLoopTwice(body, rest, states, caches, ctx);
    DeepestGone(Twice(body, states + [[]], caches + [None], inner).caches, ds, d);
  }

  lemma DeepestGone(caches: Caches, ds: seq<set<string>>, d: set<string>)
    requires CachesClosed(caches, ds + [d])
    ensures CachesClosed(caches[..|ds|], ds)
  {
    assert forall i :: 0 <= i < |ds| ==> (ds + [d])[i] == ds[i];
  }

  /** A loop with a tick of its own: its body is lowered once more, for the entry. */
  lemma {:induction false} LowerTickingClosed(body: Code, rest: Code, states: seq<Code>, caches: Caches, ctx: Ctx,
                                              d: set<string>, ds: seq<set<string>>, scopes: seq<set<string>>)
    returns (scopes': seq<set<string>>)
    requires |caches| == ctx.Depth() && |scopes| == |states| && FirstTick(body) < |body|
    requires CtxClosed(ctx, ds, d) && CachesClosed(caches, ds) && Closed(body, d) && Closed(rest, d)
    requires FlattenableStmt(Loop(body), ctx.NestedLoop?) && Flattenable(rest, ctx.NestedLoop?)
    ensures var e := Twice(body, states + [[]], caches + [None], NestedLoop(|states|, rest, ctx));
      && states <= e.states && scopes <= scopes' && Closed(e.code, d)
      && Owned(e.states, scopes', |states|, d, e.code) && CachesClosed(e.caches, ds + [d])
    decreases Size(body) + Size(rest) + ctx.Pending(), 1, 2
  {
    var inner, t := NestedLoop(|states|, rest, ctx), FirstTick(body);
    var work := body[..t];
    WorkOf(body, t);
    ClosedPrefix(work, [Tick], d);
    FlattenableAppend(work, [Tick], true);
    var m := LowerHeadClosed(work, rest, states, caches, ctx, d, ds, scopes);
    var h := Lower(work, states + [[]], caches + [None], inner);
    scopes' := LowerEntryClosed(work, h.states[|states| := h.code], h.caches, inner, d, ds + [d], |states|, m);
  }

  /** A nested loop's body past the gate is its work and a tick, and turns to its work. */
  lemma WorkOf(body: Code, t: nat)
    requires t + 1 == |body| && body[t] == Tick
    ensures body == body[..t] + [Tick] && Rotated(body, t) == body[..t] && Size(body[..t]) < Size(body)
  {
    assert body[t + 1..] == [];
    RotatedSize(body, t);
  }

  /** Lowering on top of a table whose states from `lo` on are owned keeps them owned. */
  lemma {:induction false} LowerEntryClosed(work: Code, states: seq<Code>, caches: Caches, ctx: Ctx,
                                            d: set<string>, ds: seq<set<string>>, lo: nat, scopes: seq<set<string>>)
    returns (scopes': seq<set<string>>)
    requires |caches| == ctx.Depth() && ctx.NestedLoop? && lo <= |states| && Owned(states, scopes, lo, d, [])
    requires CtxClosed(ctx, ds, d) && CachesClosed(caches, ds) && Closed(work, d) && Flattenable(work, true)
    ensures var e := Lower(work, states, caches, ctx);
      && states <= e.states && scopes <= scopes' && Closed(e.code, d)
      && Owned(e.states, scopes', lo, d, e.code) && CachesClosed(e.caches, ds)
    decreases Size(work) + ctx.Pending(), 1, 1
  {
    scopes' := LowerClosed(work, states, caches, ctx, d, ds, scopes);
    var e := Lower(work, states, caches, ctx);
    OwnedGrow(states, scopes, e.states, scopes', lo, d, [], e.code, e.code);
  }

  lemma InnerClosed(head: nat, rest: Code, caches: Caches, ctx: Ctx, d: set<string>, ds: seq<set<string>>)
    requires |caches| == ctx.Depth() && CtxClosed(ctx, ds, d) && CachesClosed(caches, ds) && Closed(rest, d)
    requires Flattenable(rest, ctx.NestedLoop?)
    ensures CtxClosed(NestedLoop(head, rest, ctx), ds + [d], d) && CachesClosed(caches + [None], ds + [d])
  {
    assert (ds + [d])[..|ds|] == ds && (ds + [d])[|ds|] == d;
  }

  lemma {:induction false} LowerHeadClosed(work: Code, rest: Code, states: seq<Code>, caches: Caches, ctx: Ctx,
                                           d: set<string>, ds: seq<set<string>>, scopes: seq<set<string>>)
    returns (scopes': seq<set<string>>)
    requires |caches| == ctx.Depth() && |scopes| == |states|
    requires CtxClosed(ctx, ds, d) && CachesClosed(caches, ds) && Closed(work, d) && Closed(rest, d)
    requires Flattenable(work, true) && Flattenable(rest, ctx.NestedLoop?)
    ensures var inner := NestedLoop(|states|, rest, ctx);
      var h := Lower(work, states + [[]], caches + [None], inner);
      && |states| < |h.states| && states <= h.states && scopes <= scopes' && Closed(h.code, d)
      && Owned(h.states[|states| := h.code], scopes', |states|, d, [])
      && CtxClosed(inner, ds + [d], d) && CachesClosed(h.caches, ds + [d]) && |h.caches| == inner.Depth()
    decreases Size(work) + Size(rest) + ctx.Pending(), 1, 1
  {
    var inner := NestedLoop(|states|, rest, ctx);
    InnerClosed(|states|, rest, caches, ctx, d, ds);
    scopes' := LowerClosed(work, states + [[]], caches + [None], inner, d, ds + [d], scopes + [d]);
    var h := Lower(work, states + [[]], caches + [None], inner);
    OwnedFill(h.states, scopes', |states|, d, h.code, []);
  }

  lemma {:induction false} LowerArmsClosed(arms: seq<Arm>, rest: Code, states: seq<Code>, caches: Caches, ctx: Ctx,
                                           d: set<string>, ds: seq<set<string>>, scopes: seq<set<string>>)
    returns (scopes': seq<set<string>>)
    requires |caches| == ctx.Depth() && |scopes| == |states|
    requires CtxClosed(ctx, ds, d) && CachesClosed(caches, ds) && ArmsClosed(arms, d) && Closed(rest, d)
    requires ArmsFlattenable(arms, ctx.NestedLoop?) && Flattenable(rest, ctx.NestedLoop?)
    ensures var l := LowerArms(arms, rest, states, caches, ctx);
      && states <= l.states && scopes <= scopes' && ArmsClosed(l.arms, d)
      && Owned(l.states, scopes', |states|, d, ArmsCode(l.arms)) && CachesClosed(l.caches, ds)
    decreases ArmsSize(arms) + Size(rest) + ctx.Pending(), 2, |arms|
  {
    if arms == [] {
      scopes' := scopes;
    } else {
      SizeAppend(arms[0].body, rest);
      ClosedAppend(arms[0].body, rest, d);
      FlattenableAppend(arms[0].body, rest, ctx.NestedLoop?);
      var m := LowerClosed(arms[0].body + rest, states, caches, ctx, d, ds, scopes);
      var a := Lower(arms[0].body + rest, states, caches, ctx);
      scopes' := LowerArmsClosed(arms[1..], rest, a.states, a.caches, ctx, d, ds, m);
      ArmsOwned(states, scopes, a, m, LowerArms(arms[1..], rest, a.states, a.caches, ctx), scopes', d);
    }
  }

  /** The first arm's states and the others'. */
  lemma ArmsOwned(states: seq<Code>, scopes: seq<set<string>>, a: Lowered, m: seq<set<string>>, l: LoweredArms,
                  scopes': seq<set<string>>, d: set<string>)
    requires states <= a.states <= l.states && scopes <= m <= scopes' && |scopes| == |states| && |m| == |a.states|
    requires Closed(a.code, d) && ArmsClosed(l.arms, d)
    requires Owned(a.states, m, |states|, d, a.code) && Owned(l.states, scopes', |a.states|, d, ArmsCode(l.arms))
    ensures ArmsClosed([Arm(a.code)] + l.arms, d) && Owned(l.states, scopes', |states|, d, ArmsCode([Arm(a.code)] + l.arms))
  {
    assert ([Arm(a.code)] + l.arms)[1..] == l.arms;
    OwnedGrow(a.states, m, l.states, scopes', |states|, d, a.code, ArmsCode(l.arms), ArmsCode([Arm(a.code)] + l.arms));
  }

  /** The arms' code as one list: only what it declares matters. */
  ghost function ArmsCode(arms: seq<Arm>): (c: Code)
    ensures Lets(c) == ArmsLet(arms)
  {
    if arms == [] then [] else
    LetsAppend(arms[0].body, ArmsCode(arms[1..]));
    arms[0].body + ArmsCode(arms[1..])
  }

  lemma SoleBranchLets(sel: Expr, arms: seq<Arm>)
    ensures Lets([Branch(sel, arms)]) == ArmsLet(arms)
  {
    assert Lets([Branch(sel, arms)][1..]) == {};
  }
}
