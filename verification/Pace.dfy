/** Keeping pace with the source through a whole counted loop: what the rewrite's condition
  * on runs comes to at each way out of a loop and at each of its ticks, when the text
  * already guarantees it, and two loops that fail it.
  */
module Pace {
  import opened Syntax
  import opened Semantics
  import opened Lowering
  import opened Gate
  import opened Scoping
  import opened Unrolling
  import opened Desugaring
  import opened DesugarSimulation
  import opened Ranges
  import opened Shape
  import opened Adjusting
  import opened Simulation
  import opened Splicing
  import opened Extraction
  import opened Cfg
  import opened Reachability
  import opened Acceptance
  import opened ExtractionLimits

  // ----- In the text -------------------------------------------------------------------------------

  predicate NoInputs(e: Expr) {
    match e
    case Input(_) => false
    case Not(a) => NoInputs(a)
    case AddU32(a, b) => NoInputs(a) && NoInputs(b)
    case Ge(a, b) => NoInputs(a) && NoInputs(b)
    case Apply(_, a, b) => NoInputs(a) && NoInputs(b)
    case _ => true
  }

  /** No counted loop in here is left by its own `break`, and the bound of one that ticks
    * reads no input and no name its body assigns. `fixed` are the names the bounds of the
    * loops around the list read, `inFor` is whether the innermost of these is counted.
    */
  predicate Undisturbed(stmts: Code, fixed: set<string>, inFor: bool)
    decreases stmts
  {
    stmts != [] ==> UndisturbedStmt(stmts[0], fixed, inFor) && Undisturbed(stmts[1..], fixed, inFor)
  }

  predicate UndisturbedStmt(s: Stmt, fixed: set<string>, inFor: bool)
    decreases s
  {
    match s
    case Do(a) => a.Drive? || a.name !in fixed
    case Branch(_, arms) => UndisturbedArms(arms, fixed, inFor)
    case Loop(body) => Undisturbed(body, fixed, false)
    case While(_, body) => Undisturbed(body, fixed, false)
    case For(x, _, hi, body) =>
      x !in Held(hi, fixed, body) && (NoInputs(hi) || Unrolled(body)) && Undisturbed(body, Held(hi, fixed, body), true)
    case Break => !inFor
    case _ => true
  }

  predicate UndisturbedArms(arms: seq<Arm>, fixed: set<string>, inFor: bool)
    decreases arms
  {
    arms != [] ==> Undisturbed(arms[0].body, fixed, inFor) && UndisturbedArms(arms[1..], fixed, inFor)
  }

  /** A ticking loop holds what its bound reads. */
  function Held(bound: Expr, fixed: set<string>, body: Code): set<string> {
    if Unrolled(body) then fixed else fixed + Reads(bound)
  }

  lemma {:induction false} UndisturbedAppend(a: Code, b: Code, fixed: set<string>, inFor: bool)
    ensures Undisturbed(a + b, fixed, inFor) <==> Undisturbed(a, fixed, inFor) && Undisturbed(b, fixed, inFor)
    ensures Unrolled(a + b) <==> Unrolled(a) && Unrolled(b)
  {
    if a == [] {
      assert a + b == b;
    } else {
      assert (a + b)[1..] == a[1..] + b;
      UndisturbedAppend(a[1..], b, fixed, inFor);
    }
  }

  lemma {:induction false} UndisturbedArm(arms: seq<Arm>, i: nat, fixed: set<string>, inFor: bool)
    requires i < |arms| && UndisturbedArms(arms, fixed, inFor)
    ensures Undisturbed(arms[i].body, fixed, inFor)
  {
    if i > 0 {
      UndisturbedArm(arms[1..], i - 1, fixed, inFor);
    }
  }

  /** What the bounds of the running loops read. */
  function Needs(k: Kont): set<string> {
    if k.Module? then {} else if k.InFor? then Held(k.bound, Needs(k.outer), k.body) else Needs(k.outer)
  }

  predicate Unrolls(k: Kont) {
    k.InFor? && Unrolled(k.body)
  }

  predicate Calm(todo: Code, k: Kont) {
    Undisturbed(todo, Needs(k), k.InFor?) && (Unrolls(k) ==> Unrolled(todo))
  }

  predicate CalmAround(k: Kont) {
    match k
    case Module(body) => Calm(body, k)
    case InFor(x, hi, _, _, body, after, outer) =>
      && x !in Needs(k) && (NoInputs(hi) || Unrolled(body)) && (Unrolls(outer) ==> Unrolled(body))
      && Calm(body, k) && Calm(after, outer) && CalmAround(outer)
    case _ => !Unrolls(k.outer) && Calm(k.body, k) && Calm(k.after, k.outer) && CalmAround(k.outer)
  }

  /** The running loops' bounds still have the values they had on entry. */
  predicate BoundsKept(env: Env, k: Kont, st: State) {
    match k
    case Module(_) => true
    case InFor(_, hi, _, top, body, _, outer) => (Unrolled(body) || Eval(env, hi, st) == top) && BoundsKept(env, outer, st)
    case _ => BoundsKept(env, k.outer, st)
  }

  /** An expression without inputs has the same value wherever its names do. */
  lemma {:induction false} SameValue(env: Env, e: Expr, a: State, b: State)
    requires NoInputs(e) && forall x <- Reads(e) :: Get(a.vars, x) == Get(b.vars, x)
    ensures Eval(env, e, a) == Eval(env, e, b)
  {
    match e
    case Not(x) => SameValue(env, x, a, b);
    case AddU32(x, y) => SameValue(env, x, a, b); SameValue(env, y, a, b);
    case Ge(x, y) => SameValue(env, x, a, b); SameValue(env, y, a, b);
    case Apply(_, x, y) => SameValue(env, x, a, b); SameValue(env, y, a, b);
    case _ =>
  }

  lemma {:induction false} BoundsStay(env: Env, k: Kont, a: State, b: State)
    requires CalmAround(k) && BoundsKept(env, k, a) && forall x <- Needs(k) :: Get(a.vars, x) == Get(b.vars, x)
    ensures BoundsKept(env, k, b)
  {
    if !k.Module? {
      BoundsStay(env, k.outer, a, b);
      if k.InFor? && !Unrolled(k.body) {
        SameValue(env, k.bound, a, b);
      }
    }
  }

  /** The text's condition stays with a run from step to step. */
  lemma CalmStep(env: Env, cfg: Config, st: State)
    requires Calm(cfg.todo, cfg.k) && CalmAround(cfg.k) && BoundsKept(env, cfg.k, st) && Step(env, cfg, st).Move?
    ensures var m := Step(env, cfg, st); Calm(m.cfg.todo, m.cfg.k) && CalmAround(m.cfg.k) && BoundsKept(env, m.cfg.k, m.st)
  {
    var k, m := cfg.k, Step(env, cfg, st);
    if cfg.todo == [] {
      if k.InFor? && k.next < k.hi {
        assert Needs(m.cfg.k) == Needs(k) && BoundsKept(env, m.cfg.k, st);
        BoundsStay(env, m.cfg.k, st, m.st);
      }
    } else {
      var s, rest := cfg.todo[0], cfg.todo[1..];
      assert UndisturbedStmt(s, Needs(k), k.InFor?) && Calm(rest, k);
      assert Unrolls(k) ==> UnrolledStmt(s);
      match s
      case Do(a) => BoundsStay(env, k, st, m.st);
      case Branch(sel, arms) =>
        var i := Pick(env, sel, |arms|, st);
        UndisturbedArm(arms, i, Needs(k), k.InFor?);
        UndisturbedAppend(arms[i].body, rest, Needs(k), k.InFor?);
        if Unrolls(k) {
          ArmUnrolled(arms, i);
        }
      case For(x, _, hi, body) => assert Needs(m.cfg.k) == Held(hi, Needs(k), body);
      case _ =>
    }
  }

  /** Where every bound has kept its value, so does the one read again at a last tick. */
  lemma {:induction false} KeptHolds(env: Env, k: Kont, st: State)
    requires CalmAround(k) && BoundsKept(env, k, st) && !Unrolls(k)
    ensures BoundHolds(env, k, st)
  {
    if k.InFor? {
      SameValue(env, k.bound, st, Edge(st));
      if !Unrolls(k.outer) {
        KeptHolds(env, k.outer, st);
      }
    }
  }

  lemma {:induction false} CalmWalk(env: Env, cfg: Config, st: State, n: nat)
    requires Calm(cfg.todo, cfg.k) && CalmAround(cfg.k) && BoundsKept(env, cfg.k, st)
    requires RangesOk(env, cfg, st) && Walk(env, cfg, st, n).Some?
    ensures var w := Walk(env, cfg, st, n).value; KeepsPace(env, w.0, w.1)
    decreases n
  {
    AlwaysNow(EntersWell, env, cfg, st);
    if n == 0 {
      assert cfg.todo != [] ==> UndisturbedStmt(cfg.todo[0], Needs(cfg.k), cfg.k.InFor?);
      if cfg.todo == [Tick] {
        assert !UnrolledStmt(cfg.todo[0]);
        KeptHolds(env, cfg.k, st);
      }
    } else if StandsAtTick(cfg) {
      AlwaysTick(EntersWell, env, cfg, st);
      BoundsStay(env, cfg.k, st, Edge(st));
      CalmWalk(env, Config(cfg.todo[1..], cfg.k), Edge(st), n - 1);
    } else {
      AlwaysStep(EntersWell, env, cfg, st);
      CalmStep(env, cfg, st);
      var m := Step(env, cfg, st);
      CalmWalk(env, m.cfg, m.st, n - 1);
    }
  }

  /** Where no counted loop has a `break` of its own or changes what its bound reads, only
    * the ranges are left to ask about.
    */
  lemma UndisturbedPaced(env: Env, body: Code, st: State)
    requires Undisturbed(body, {}, false) && RangesOk(env, Start(body), st)
    ensures Paced(env, Start(body), st)
  {
    forall n: nat | Walk(env, Start(body), st, n).Some?
      ensures var w := Walk(env, Start(body), st, n); KeepsPace(env, w.value.0, w.value.1)
    {
      CalmWalk(env, Start(body), st, n);
    }
  }

  // ----- Ways out of a loop ------------------------------------------------------------------------

  /** The rewritten program, running on, stands where the source stands, in the same cycle. */
  ghost predicate Meets(env: Env, counters: set<string>, cs: Config, ss: State, ct: Config, st: State) {
    exists n: nat, c: Config, s: State :: Walk(env, ct, st, n) == Some((c, s)) && Sync(env, counters, cs, ss, c, s)
  }

  lemma {:induction false} WalkCycles(env: Env, cfg: Config, st: State, n: nat)
    requires Walk(env, cfg, st, n).Some?
    ensures Walk(env, cfg, st, n).value.1.cycle >= st.cycle
    decreases n
  {
    if n > 0 {
      if StandsAtTick(cfg) {
        WalkCycles(env, Config(cfg.todo[1..], cfg.k), Edge(st), n - 1);
      } else {
        var m := Step(env, cfg, st);
        WalkCycles(env, m.cfg, m.st, n - 1);
      }
    }
  }

  lemma {:induction false} StepsWalk(env: Env, cfg: Config, st: State, n: nat, o: Seen)
    requires Steps(env, cfg, st, n) == Some(o)
    ensures Walk(env, cfg, st, n) == Some((o.cfg, o.st))
    decreases n
  {
    if n > 0 {
      var m := Step(env, cfg, st);
      StepsWalk(env, m.cfg, m.st, n - 1, Steps(env, m.cfg, m.st, n - 1).value);
    }
  }

  lemma {:induction false} WalkOn(env: Env, cfg: Config, st: State, n: nat, o: Seen, m: nat)
    requires Steps(env, cfg, st, n) == Some(o)
    ensures Walk(env, cfg, st, n + m) == Walk(env, o.cfg, o.st, m)
    decreases n
  {
    if n > 0 {
      var mv := Step(env, cfg, st);
      WalkOn(env, mv.cfg, mv.st, n - 1, Steps(env, mv.cfg, mv.st, n - 1).value, m);
    }
  }

  /** This loop's last tick is its own: it does not end the body of a counted loop. */
  predicate OwnTick(k: Kont) {
    k.InFor? && (k.after == [] ==> !k.outer.InFor?)
  }

  /** Behind a loop left by `break` the rewritten program has the hoisted tick in front of
    * what the source goes on with.
    */
  lemma BreakFallsBehind(env: Env, counters: set<string>, rest: Code, k: Kont, ss: State, ct: Config, st: State)
    requires OwnTick(k) && Sync(env, counters, Config([Break] + rest, k), ss, ct, st)
    ensures !Meets(env, counters, Config(k.after, k.outer), ss, ct, st)
  {
    var goal := Config(Rest(k.after, k.outer), Image(k.outer));
    var behind := BreakTarget(env, counters, rest, k, ss, ct, st);
    if n: nat, c: Config, s: State :|
      Walk(env, ct, st, n) == Some((c, s)) && Sync(env, counters, Config(k.after, k.outer), ss, c, s)
    {
      NeverThere(env, ct, st, behind, goal, n);
      assert false;
    }
  }

  /** The rewritten `break` leads in front of the hoisted tick. */
  lemma BreakTarget(env: Env, counters: set<string>, rest: Code, k: Kont, ss: State, ct: Config, st: State) returns (behind: Config)
    requires OwnTick(k) && Sync(env, counters, Config([Break] + rest, k), ss, ct, st)
    ensures st.cycle == ss.cycle && Loops(ct.k) > Loops(Image(k.outer)) && Step(env, ct, st) == Move([], behind, st)
    ensures behind == Config([Tick] + Rest(k.after, k.outer), Image(k.outer))
  {
    assert ([Break] + rest)[1..] == rest && rest != [] && ([Break] + rest)[|rest|] == rest[|rest| - 1];
    RestPush(Break, rest, k);
    RestPush(Tick, k.after, k.outer);
    behind := Config([Tick] + Rest(k.after, k.outer), Image(k.outer));
  }

  /** A walk through that tick is not behind it in the same cycle. */
  lemma NeverThere(env: Env, ct: Config, st: State, behind: Config, goal: Config, n: nat)
    requires Step(env, ct, st) == Move([], behind, st) && StandsAtTick(behind)
    requires Loops(ct.k) > Loops(goal.k) && |behind.todo| > |goal.todo| && Walk(env, ct, st, n).Some?
    ensures Walk(env, ct, st, n).value.0 != goal || Walk(env, ct, st, n).value.1.cycle > st.cycle
  {
    if n > 1 {
      assert Walk(env, ct, st, n) == Walk(env, behind, st, n - 1) == Walk(env, Past(behind), Edge(st), n - 2);
      WalkCycles(env, Past(behind), Edge(st), n - 2);
    } else if n == 1 {
      assert Walk(env, ct, st, n) == Walk(env, behind, st, 0);
    }
  }

  /** Behind a loop left by its range the two are at one point, past the last tick. */
  lemma RangeExitMeets(env: Env, counters: set<string>, k: Kont, ss: State, ct: Config, st: State)
    returns (j: nat, t: Seen)
    requires OwnTick(k) && k.next >= k.hi && BoundHolds(env, k, ss) && Sync(env, counters, Config([Tick], k), ss, ct, st)
    ensures Steps(env, ct, st, j) == Some(t) && t.log == [] && StandsAtTick(t.cfg)
    ensures Sync(env, counters, Config(k.after, k.outer), Edge(ss), Past(t.cfg), Edge(t.st))
  {
    assert [Tick] + [] == [Tick];
    var st1 := Closes(env, counters, k, ss, st);
    BreaksOut(env, k, st1);
    RestPush(Tick, k.after, k.outer);
    var behind := Config(Rest([Tick] + k.after, k.outer), Image(k.outer));
    j, t := 3, Seen([], behind, st1);
    assert Steps(env, behind, st1, 0) == Some(t);
    LeavesBy(env, ct, st, Config([Break, Tick], Image(k)), st1, behind, 0, t);
    assert behind.todo[1..] == Rest(k.after, k.outer);
    BehindSync(env, counters, k, ss, st1);
  }

  lemma BehindSync(env: Env, counters: set<string>, k: Kont, ss: State, st1: State)
    requires k.InFor? && (k.after == [] ==> !k.outer.InFor?) && KontOk(k, counters) && CountersOk(env, k.outer, ss)
    requires Alike(Off(k.outer, counters), ss, st1)
    ensures Sync(env, counters, Config(k.after, k.outer), Edge(ss), Config(Rest(k.after, k.outer), Image(k.outer)), Edge(st1))
  {
    CountersKept(env, k.outer, counters, ss, Edge(ss));
  }

  /** At one exit: behind the loop the two programs meet just when it was left by its range
    * and not by `break`.
    */
  lemma ExitInStep(env: Env, counters: set<string>, s: Stmt, rest: Code, k: Kont, ss: State, ct: Config, st: State)
    requires OwnTick(k) && Sync(env, counters, Config([s] + rest, k), ss, ct, st)
    requires s == Break || (s == Tick && rest == [] && k.next >= k.hi && BoundHolds(env, k, ss))
    ensures Meets(env, counters, Config(k.after, k.outer), if s == Break then ss else Edge(ss), ct, st) <==> s != Break
  {
    if s == Break {
      BreakFallsBehind(env, counters, rest, k, ss, ct, st);
    } else {
      assert [s] + rest == [Tick];
      var j, t := RangeExitMeets(env, counters, k, ss, ct, st);
      WalkOn(env, ct, st, j, t, 1);
      assert Walk(env, Past(t.cfg), Edge(t.st), 0) == Some((Past(t.cfg), Edge(t.st)));
      assert Walk(env, t.cfg, t.st, 1) == Some((Past(t.cfg), Edge(t.st)));
    }
  }

  // ----- From one iteration to the next ------------------------------------------------------------------

  /** Past the loop's own tick: in the two steps it takes to hand out an index the rewritten
    * program gets to where the source gets in one, inside the loop or behind it.
    */
  ghost predicate GoesOnInStep(env: Env, counters: set<string>, k: Kont, ss: State, ct: Config, st: State) {
    var m := Step(env, Config([], k), Edge(ss));
    exists j: nat, t: Seen, n: nat, o: Seen ::
      && Steps(env, ct, st, j) == Some(t) && StandsAtTick(t.cfg) && n <= 2
      && Steps(env, Past(t.cfg), Edge(t.st), n) == Some(o)
      && m.Move? && Sync(env, counters, m.cfg, m.st, o.cfg, o.st)
  }

  /** At one tick: the two programs go on in step just when the bound, read again in front
    * of the tick and behind it, decides as it did on entry.
    */
  lemma IterationInStep(env: Env, counters: set<string>, k: Kont, ss: State, ct: Config, st: State)
    requires OwnTick(k) && Sync(env, counters, Config([Tick], k), ss, ct, st)
    ensures GoesOnInStep(env, counters, k, ss, ct, st) <==> BoundHolds(env, k, ss)
  {
    assert [Tick] + [] == [Tick];
    if BoundHolds(env, k, ss) {
      StaysOn(env, counters, k, ss, ct, st);
    } else if GoesOnInStep(env, counters, k, ss, ct, st) {
      var m := Step(env, Config([], k), Edge(ss));
      var j: nat, t: Seen, n: nat, o: Seen :|
        && Steps(env, ct, st, j) == Some(t) && StandsAtTick(t.cfg) && n <= 2
        && Steps(env, Past(t.cfg), Edge(t.st), n) == Some(o)
        && m.Move? && Sync(env, counters, m.cfg, m.st, o.cfg, o.st);
      FallsOut(env, counters, k, ss, ct, st, j, t, n, o);
      assert false;
    }
  }

  lemma StaysOn(env: Env, counters: set<string>, k: Kont, ss: State, ct: Config, st: State)
    requires OwnTick(k) && Sync(env, counters, Config([Tick], k), ss, ct, st) && BoundHolds(env, k, ss)
    ensures GoesOnInStep(env, counters, k, ss, ct, st)
  {
    if k.next >= k.hi {
      var j, t := RangeExitMeets(env, counters, k, ss, ct, st);
      var o := Seen([], Past(t.cfg), Edge(t.st));
      assert Steps(env, Past(t.cfg), Edge(t.st), 0) == Some(o);
    } else {
      assert [Tick] + [] == [Tick] && [Tick][1..] == [];
      var st1 := Closes(env, counters, k, ss, st);
      var t := Seen([], Config([Tick], Image(k)), st1);
      CountersKept(env, k, counters, ss, Edge(ss));
      var p := NextIndex(env, counters, k, Edge(ss), Edge(st1));
      StepThen(env, Config([], Image(k)), Edge(st1), Config(Image(k).body, Image(k)), Edge(st1), 1, p.target.cfg, p.target.st);
      assert Steps(env, Config([], k), Edge(ss), 1) == Some(p.source);
      assert Steps(env, p.source.cfg, p.source.st, 0) == Some(Seen([], p.source.cfg, p.source.st));
      assert Steps(env, ct, st, 2) == Some(t);
      var o := p.target;
      assert Steps(env, Past(t.cfg), Edge(t.st), 2) == Some(o);
    }
  }

  /** A step enters at most one loop, at its head. */
  lemma StepLoops(env: Env, c: Config, s: State)
    requires Step(env, c, s).Move?
    ensures var m := Step(env, c, s);
      && Loops(m.cfg.k) <= Loops(c.k) + 1
      && (m.cfg.k.Nested? && Loops(m.cfg.k) == Loops(c.k) + 1 ==> c.todo != [] && m.cfg.todo == m.cfg.k.body && m.cfg.k.after == c.todo[1..])
      && (m.cfg.k.Nested? && Loops(m.cfg.k) == Loops(c.k) ==> m.cfg.k == c.k)
  {
  }

  /** From further out, two steps lead no further into a loop than to its head. */
  lemma TwoStepsIn(env: Env, c: Config, s: State, n: nat, o: Seen)
    requires Steps(env, c, s, n) == Some(o) && n <= 2 && o.cfg.k.Nested? && Loops(c.k) < Loops(o.cfg.k)
    ensures o.cfg.todo == o.cfg.k.body || |o.cfg.k.after| < |c.todo|
  {
    if n > 0 {
      var m := Step(env, c, s);
      StepLoops(env, c, s);
      if n == 1 {
        assert o.cfg == m.cfg by {
          assert Steps(env, m.cfg, m.st, 0) == Some(Seen([], m.cfg, m.st));
        }
      } else {
        var m' := Step(env, m.cfg, m.st);
        StepLoops(env, m.cfg, m.st);
        assert Steps(env, m.cfg, m.st, 1).Some?;
        assert Steps(env, m'.cfg, m'.st, 0) == Some(Seen([], m'.cfg, m'.st));
        assert o.cfg == m'.cfg;
      }
    }
  }

  /** The image of an iteration's beginning is not the rewritten loop's head. */
  lemma PastHead(k: Kont)
    requires k.InFor?
    ensures var k' := Image(k); k'.Nested? && k'.body == [ExitAt(k.counter, k.bound)] + Rest(k.body, k) && Rest(k.body, k) != []
    ensures Loops(Image(k)) == 1 + Loops(Image(k.outer))
  {
    assert CountedBody(k.counter, k.bound, Work(D(k.body))) == [ExitAt(k.counter, k.bound)] + Rest(k.body, k);
  }

  lemma FallsOut(env: Env, counters: set<string>, k: Kont, ss: State, ct: Config, st: State, j: nat, t: Seen, n: nat, o: Seen)
    requires OwnTick(k) && Sync(env, counters, Config([Tick], k), ss, ct, st) && !BoundHolds(env, k, ss)
    requires Steps(env, ct, st, j) == Some(t) && StandsAtTick(t.cfg) && n <= 2
    requires Steps(env, Past(t.cfg), Edge(t.st), n) == Some(o)
    ensures var m := Step(env, Config([], k), Edge(ss)); m.Move? && !Sync(env, counters, m.cfg, m.st, o.cfg, o.st)
  {
    assert [Tick] + [] == [Tick] && [Tick][1..] == [];
    PastHead(k);
    var st1 := Closes(env, counters, k, ss, st);
    if k.next < Eval(env, k.bound, ss) {
      StepsToTickUnique(env, ct, st, j, t, 2, Seen([], Config([Tick], Image(k)), st1));
      AlikeEval(env, k.bound, Off(k.outer, counters), Edge(ss), Edge(st1));
      HeadSteps(env, k, Edge(st1), n, o);
    } else {
      LeavesEarly(env, counters, k, ss, ct, st, st1, j, t);
      if o.cfg.k == Image(k) {
        TwoStepsIn(env, Past(t.cfg), Edge(t.st), n, o);
      }
    }
  }

  /** The bound read again ends the loop: its hoisted tick is the one the run gets to. */
  lemma LeavesEarly(env: Env, counters: set<string>, k: Kont, ss: State, ct: Config, st: State, st1: State, j: nat, t: Seen)
    requires OwnTick(k) && Sync(env, counters, Config([Tick], k), ss, ct, st) && k.next >= Eval(env, k.bound, ss)
    requires Steps(env, Config(Rest([Tick] + [], k), Image(k)), st, 2) == Some(Seen([], Config([Break, Tick], Image(k)), st1))
    requires Steps(env, ct, st, j) == Some(t) && StandsAtTick(t.cfg)
    ensures Past(t.cfg) == Config(Rest(k.after, k.outer), Image(k.outer))
    ensures |Image(k).after| == 1 + |Rest(k.after, k.outer)|
  {
    assert [Tick] + [] == [Tick];
    BreaksOut(env, k, st1);
    RestPush(Tick, k.after, k.outer);
    var behind := Config(Rest([Tick] + k.after, k.outer), Image(k.outer));
    assert Steps(env, behind, st1, 0) == Some(Seen([], behind, st1));
    LeavesBy(env, ct, st, Config([Break, Tick], Image(k)), st1, behind, 0, Seen([], behind, st1));
    StepsToTickUnique(env, ct, st, j, t, 3, Seen([], behind, st1));
    assert behind.todo[1..] == Rest(k.after, k.outer);
  }

  /** The rewritten loop's head from its back edge on. */
  lemma HeadSteps(env: Env, k: Kont, st: State, n: nat, o: Seen)
    requires k.InFor? && n <= 2 && Steps(env, Config([], Image(k)), st, n) == Some(o)
    ensures o.cfg.k == Image(k)
    ensures o.cfg.todo == Rest(k.body, k) ==> Get(st.vars, k.counter) < Eval(env, k.bound, st)
  {
    var body, rest := Image(k).body, Rest(k.body, k);
    PastHead(k);
    var c1 := Config(body, Image(k));
    assert Step(env, Config([], Image(k)), st) == Move([], c1, st);
    ExitTaken(env, k.counter, k.bound, rest, Image(k), st);
    var m := Step(env, c1, st);
    if n == 1 {
      assert Steps(env, c1, st, 0) == Some(Seen([], c1, st));
    } else if n == 2 {
      assert Steps(env, m.cfg, m.st, 0) == Some(Seen([], m.cfg, m.st));
      assert Steps(env, c1, st, 1).value.cfg == m.cfg;
    }
  }

  // ----- Two loops that fall out of step -------------------------------------------------------------------

  /** `if c { break; }` */
  function Quit(): Stmt {
    If(Var("c"), [Break], [])
  }

  /** `n = 0;` */
  function Shorten(): Stmt {
    Do(Set("n", Lit(0)))
  }

  function Probed(bound: Expr, first: Stmt): Stmt {
    For("i", Lit(0), bound, [first, Tick])
  }

  /** `loop { for i in 0..bound { first; tick } p.write(1); tick }` */
  function Probe(bound: Expr, first: Stmt): Code {
    [Probed(bound, first), Shown(), Tick]
  }

  predicate Probing(bound: Expr, first: Stmt) {
    (bound == Lit(3) && first == Quit()) || (bound == Var("n") && first == Shorten())
  }

  function Turning(bound: Expr, first: Stmt): Code {
    [ExitAt("i", bound), first] + Closing("i", bound)
  }

  lemma QuitFacts()
    ensures Quit().arms == [Arm([Break]), Arm([])] && Quit().arms[1..] == [Arm([])] && Quit().arms[1..][1..] == [] && [Break][1..] == []
    ensures ArmsWritten(Quit().arms) && ArmsFlattenable(Quit().arms, true) && ArmsLowerable(Quit().arms) && ArmsExact(Quit().arms)
    ensures ArmsRanged(Quit().arms) && !ArmsContainTick(Quit().arms) && ArmsNoTailTick(Quit().arms) && !ArmsContinue(Quit().arms)
    ensures DArms(Quit().arms) == Quit().arms && !Unrolled([Break])
  {
    var arms, none := Quit().arms, [Arm([])];
    assert arms[1..] == none && none[1..] == [] && [Break][1..] == [];
    assert ArmsWritten(none) && ArmsFlattenable(none, true) && ArmsLowerable(none) && ArmsExact(none) && ArmsRanged(none);
    assert Written([Break]) && Flattenable([Break], true) && Lowerable([Break]) && Exact([Break]) && Ranged([Break]);
    assert !ArmsContainTick(none) && !ContainsTick([Break]) && ArmsNoTailTick(none) && NoTailTick([Break]);
    assert !ArmsContinue(none) && !Continues([Break]) && DArms(none) == none;
    DOne(Break);
    assert UnrolledStmt(Break) == false;
  }

  /** What one pass says of `first` where both probes agree. */
  lemma FirstFacts(bound: Expr, first: Stmt)
    requires Probing(bound, first)
    ensures WrittenStmt(first) && FlattenableStmt(first, true) && LowerableStmt(first) && ExactStmt(first) && RangedStmt(first)
    ensures !StmtContainsTick(first) && first != Tick && DStmt(first) == [first] && !StaticallyEmpty(Lit(0), bound)
  {
    QuitFacts();
  }

  lemma ProbeRewrites(bound: Expr, first: Stmt)
    requires Probing(bound, first)
    ensures Work(D(Probed(bound, first).body)) == [first] && CountedBody("i", bound, [first]) == Turning(bound, first)
    ensures Desugar(Probe(bound, first)) == Opening(Probed(bound, first)) + Behind()
  {
    var f := Probed(bound, first);
    FirstRewrites(bound, first);
    ProbeRest();
    assert Probe(bound, first)[1..] == [Shown(), Tick];
    DesugarIsD(Probe(bound, first));
    assert Opening(f) + [Tick] + [Shown(), Tick] == Opening(f) + Behind();
  }

  function Behind(): Code {
    [Tick, Shown(), Tick]
  }

  lemma ProbeRest()
    ensures D([Shown(), Tick]) == [Shown(), Tick]
  {
    assert [Shown(), Tick][1..] == [Tick];
    DOne(Tick);
  }

  lemma FirstRewrites(bound: Expr, first: Stmt)
    requires Probing(bound, first)
    ensures Work(D([first, Tick])) == [first] && DStmt(Probed(bound, first)) == Opening(Probed(bound, first)) + [Tick]
  {
    FirstFacts(bound, first);
    UnchangedThenTick(first);
    DFor(Probed(bound, first));
  }

  lemma UnchangedThenTick(s: Stmt)
    requires DStmt(s) == [s]
    ensures D([s, Tick]) == [s, Tick] && Work([s, Tick]) == [s]
  {
    DAppend([s], [Tick]);
    DOne(s);
    DOne(Tick);
    assert [s] + [Tick] == [s, Tick];
  }

  /** Both probes pass every check up to and including the extraction. */
  lemma ProbeAccepted(bound: Expr, first: Stmt)
    requires Probing(bound, first)
    ensures var body := Probe(bound, first);
      && Written(body) && !CanReturn(body) && Ranged(body) && Countable(body, {"i"}, {}, false)
      && Admitted(Desugar(body)) && Lowerable(Desugar(body)) && Exact(Desugar(body)) && Extracted([], Desugar(body)).Some?
  {
    var opening, tail := Opening(Probed(bound, first)), Behind();
    ProbeWritten(bound, first);
    ProbeRewrites(bound, first);
    OpeningAdmitted(bound, first);
    BehindAdmitted();
    FlattenableAppend(opening, tail, false);
    LowerableAppend(opening, tail);
    ExactAppend(opening, tail);
    ControlAppend(opening, tail);
    assert (opening + tail)[1] == opening[1];
    UnreturningExtracts(Probe(bound, first), []);
  }

  lemma OpeningAdmitted(bound: Expr, first: Stmt)
    requires Probing(bound, first)
    ensures var opening := Opening(Probed(bound, first));
      && Flattenable(opening, false) && Lowerable(opening) && Exact(opening)
      && opening[1] != Tick && StmtContainsTick(opening[1])
  {
    ProbeRewrites(bound, first);
    TurningAdmitted(bound, first);
    var opening := Opening(Probed(bound, first));
    assert opening == [Do(Let("i", Lit(0))), Loop(Turning(bound, first))];
    assert opening[1..] == [Loop(Turning(bound, first))] && opening[1..][1..] == [];
  }

  lemma BehindAdmitted()
    ensures Flattenable(Behind(), false) && Lowerable(Behind()) && Exact(Behind()) && ContainsTick(Behind())
  {
    var tail := Behind();
    assert tail[1..] == [Shown(), Tick] && tail[1..][1..] == [Tick] && [Tick][1..] == [];
    assert Flattenable(tail[1..][1..], false) && Flattenable(tail[1..], false);
    assert Lowerable(tail[1..][1..]) && Lowerable(tail[1..]);
    assert Exact(tail[1..][1..]) && Exact(tail[1..]);
  }

  lemma ProbeWritten(bound: Expr, first: Stmt)
    requires Probing(bound, first)
    ensures Written(Probe(bound, first)) && !CanReturn(Probe(bound, first)) && Ranged(Probe(bound, first))
    ensures Countable(Probe(bound, first), {"i"}, {}, false)
  {
    FirstFacts(bound, first);
    QuitFacts();
    var body, work := Probe(bound, first), [first, Tick];
    assert body[1..] == [Shown(), Tick] && body[1..][1..] == [Tick] && [Tick][1..] == [] && work[1..] == [Tick];
    assert Written(work[1..]) && Written(work) && Written(body[1..][1..]) && Written(body[1..]);
    assert Ranged(work[1..]) && Ranged(work) && Ranged(body[1..][1..]) && Ranged(body[1..]);
    assert ContainsTick(work[1..]) && ContainsTick(work) && StmtContainsTick(body[0]) && AlwaysTicks(body[0]);
    assert EndsCounted(work) && UnrolledStmt(Tick) == false && !Unrolled(work[1..]) && !Unrolled(work);
    var off, fixed := {"i"} - {"i"}, {} + {"i"};
    assert Countable(work[1..], off, fixed, true) && Countable([Break], off, fixed, true);
    assert ArmsCountable(Quit().arms[1..], off, fixed, true) && ArmsCountable(Quit().arms, off, fixed, true);
    assert Countable(work, off, fixed, true);
    assert Countable(body[1..][1..], {"i"}, {}, false) && Countable(body[1..], {"i"}, {}, false);
  }

  lemma TurningAdmitted(bound: Expr, first: Stmt)
    requires Probing(bound, first)
    ensures var s := Loop(Turning(bound, first));
      FlattenableStmt(s, false) && LowerableStmt(s) && ExactStmt(s) && StmtContainsTick(s)
  {
    FirstFacts(bound, first);
    QuitFacts();
    var exit, t := ExitAt("i", bound), Turning(bound, first);
    assert exit.arms == Quit().arms;
    var t1, t2, t3, t4 := t[1..], t[2..], t[3..], t[4..];
    assert t1[1..] == t2 && t2[1..] == t3 && t3[1..] == t4 && t4 == [Tick] && t4[1..] == [];
    assert t[0] == exit && t1[0] == first && t2[0].Do? && t3[0] == exit;
    assert Flattenable(t4, true) && Flattenable(t3, true) && Flattenable(t2, true) && Flattenable(t1, true) && Flattenable(t, true);
    assert Lowerable(t4) && Lowerable(t3) && Lowerable(t2) && Lowerable(t1) && Lowerable(t);
    assert Exact(t4) && Exact(t3) && Exact(t2) && Exact(t1) && Exact(t);
    assert FirstTick(t4) == 0 && FirstTick(t3) == 1 && FirstTick(t2) == 2 && FirstTick(t1) == 3 && FirstTick(t) == 4;
    assert ContainsTick(t4) && ContainsTick(t3) && ContainsTick(t2) && ContainsTick(t1) && ContainsTick(t);
    var w := t[..4];
    var w1, w2, w3 := w[1..], w[2..], w[3..];
    assert w1[1..] == w2 && w2[1..] == w3 && w3 == [exit] && w3[1..] == [];
    assert NoTailTick(w3) && NoTailTick(w2) && NoTailTick(w1) && NoTailTick(w);
  }

  /** The machine drives what the rewritten loop does. */
  lemma ProbeMachine(bound: Expr, first: Stmt, env: Env, st: State, logs: seq<seq<Event>>, c: Config, s: State)
    requires Probing(bound, first) && Runs(env, Start(Desugar(Probe(bound, first))), st, logs, c, s)
    ensures Extracted([], Desugar(Probe(bound, first))).Some?
    ensures RunMachine(env, Extracted([], Desugar(Probe(bound, first))).value, 0, st, |logs|).logs == logs
  {
    ProbeAccepted(bound, first);
    var body := Probe(bound, first);
    DesugarIsD(body);
    DWritten(body);
    ExtractionPreservesBehaviour(Desugar(body), env, st, |logs|);
  }

  function Inside(bound: Expr, first: Stmt, k: Kont): Kont {
    Nested(Turning(bound, first), Behind(), k)
  }

  /** The rewritten probe enters its loop and is at the first iteration's first statement. */
  lemma TurningEntered(bound: Expr, first: Stmt, env: Env, k: Kont, st: State)
    requires Probing(bound, first) && Eval(env, bound, Assign(st, "i", 0)) > 0
    ensures Steps(env, Config(Opening(Probed(bound, first)) + Behind(), k), st, 3)
         == Some(Seen([], Config([first] + Closing("i", bound), Inside(bound, first, k)), Assign(st, "i", 0)))
  {
    ProbeRewrites(bound, first);
    var st1, k1, rest := Assign(st, "i", 0), Inside(bound, first, k), [first] + Closing("i", bound);
    assert k1.body == [ExitAt("i", bound)] + rest;
    ExitTaken(env, "i", bound, rest, k1, st1);
    Steps1(env, Config(k1.body, k1), st1, Config(rest, k1), st1);
    OpeningRuns(env, Probed(bound, first), Behind(), k, st, k1, Seen([], Config(rest, k1), st1));
  }

  lemma Silently(env: Env, c: Config, s: State, n: nat, c1: Config, s1: State, m: nat, c2: Config, s2: State)
    requires Steps(env, c, s, n) == Some(Seen([], c1, s1)) && Steps(env, c1, s1, m) == Some(Seen([], c2, s2))
    ensures Steps(env, c, s, n + m) == Some(Seen([], c2, s2))
  {
    StepsCompose(env, c, s, n, Seen([], c1, s1), m, Seen([], c2, s2));
    var none: seq<Event> := [];
    assert none + none == none;
  }

  /** The source shows the event in the cycle it starts in. */
  lemma QuitSource(env: Env, st: State)
    requires Get(st.vars, "c") != 0
    ensures exists c: Config, s: State :: Runs(env, Start(Probe(Lit(3), Quit())), st, [[EVENT]], c, s)
  {
    var body, work := Probe(Lit(3), Quit()), [Quit(), Tick];
    var k, rest, st1 := Module(body), [Shown(), Tick], Assign(st, "i", 0);
    var running, inside := InFor("i", Lit(3), 0, 3, work, rest, k), InFor("i", Lit(3), 1, 3, work, rest, k);
    var none: seq<Event> := [];
    assert body[1..] == rest && rest[1..] == [Tick] && work[1..] == [Tick] && [EVENT] + none == [EVENT];
    var end := Config([Tick], k);
    assert Steps(env, end, st1, 0) == Some(Seen(none, end, st1));
    assert Steps(env, Config(rest, k), st1, 1) == Some(Seen([EVENT], end, st1));
    QuitTaken(env, [Tick], inside, st1);
    var quit := Config([Break] + [Tick], inside);
    assert Step(env, quit, st1) == Move([], Config(rest, k), st1);
    assert none + [EVENT] == [EVENT];
    assert Steps(env, quit, st1, 2) == Some(Seen([EVENT], end, st1));
    assert [Quit()] + [Tick] == work;
    assert Steps(env, Config(work, inside), st1, 3) == Some(Seen([EVENT], end, st1));
    assert Step(env, Config([], running), st) == Move([], Config(work, inside), st1);
    assert Steps(env, Config([], running), st, 4) == Some(Seen([EVENT], end, st1));
    assert Step(env, Start(body), st) == Move([], Config([], running), st);
    assert Steps(env, Start(body), st, 5) == Some(Seen([EVENT], end, st1));
    CycleBySteps(env, Start(body), st, 5, Seen([EVENT], end, st1));
    OneCycle(env, Start(body), st, [EVENT], Past(end), Edge(st1));
  }

  lemma QuitTaken(env: Env, rest: Code, k: Kont, st: State)
    requires Get(st.vars, "c") != 0
    ensures Step(env, Config([Quit()] + rest, k), st) == Move([], Config([Break] + rest, k), st)
  {
    assert Quit().arms == [Arm([Break]), Arm([])];
    BranchTaken(env, Quit(), rest, k, st, 0);
  }

  lemma OneCycle(env: Env, start: Config, st: State, log: seq<Event>, c: Config, s: State)
    requires Cycle(env, start, st, log, c, s)
    ensures Runs(env, start, st, [log], c, s)
  {
    assert [log][1..] == [] && Runs(env, c, s, [], c, s);
  }

  lemma CycleThen(env: Env, start: Config, st: State, a: seq<Event>, c: Config, s: State, b: seq<Event>, c': Config, s': State)
    requires Cycle(env, start, st, a, c, s) && Cycle(env, c, s, b, c', s')
    ensures Runs(env, start, st, [a, b], c', s')
  {
    OneCycle(env, c, s, b, c', s');
    assert [a, b][1..] == [b] && [a, b][0] == a;
  }

  lemma QuitLeaves(env: Env, closing: Code, k: Kont, st: State)
    requires Get(st.vars, "c") != 0
    ensures Steps(env, Config([Quit()] + closing, Inside(Lit(3), Quit(), k)), st, 2) == Some(Seen([], Config(Behind(), k), st))
  {
    var k1 := Inside(Lit(3), Quit(), k);
    QuitTaken(env, closing, k1, st);
    Steps1(env, Config([Break] + closing, k1), st, Config(Behind(), k), st);
    StepThen(env, Config([Quit()] + closing, k1), st, Config([Break] + closing, k1), st, 1, Config(Behind(), k), st);
  }

  /** The rewritten loop shows nothing in that cycle: it takes the hoisted tick. */
  lemma QuitRewritten(env: Env, st: State)
    requires Get(st.vars, "c") != 0
    ensures exists c: Config, s: State :: Runs(env, Start(Desugar(Probe(Lit(3), Quit()))), st, [[]], c, s)
  {
    var bound, first := Lit(3), Quit();
    ProbeRewrites(bound, first);
    var body := Desugar(Probe(bound, first));
    var k, st1 := Module(body), Assign(st, "i", 0);
    var k1, closing, end := Inside(bound, first, k), Closing("i", bound), Config(Behind(), k);
    TurningEntered(bound, first, env, k, st);
    QuitLeaves(env, closing, k, st1);
    Silently(env, Start(body), st, 3, Config([first] + closing, k1), st1, 2, end, st1);
    CycleBySteps(env, Start(body), st, 5, Seen([], end, st1));
    OneCycle(env, Start(body), st, [], Past(end), Edge(st1));
  }

  /** One cycle too many, with a range that is never empty: a loop left by `break` passes
    * every check, and its machine shows in no first cycle what the source shows in it.
    */
  lemma BreakCounterexample(env: Env, st: State)
    requires Get(st.vars, "c") != 0
    ensures var body := Probe(Lit(3), Quit());
      && Written(body) && !CanReturn(body) && Ranged(body) && LiteralRanges(body) && Countable(body, {"i"}, {}, false)
      && Admitted(Desugar(body)) && Lowerable(Desugar(body)) && Exact(Desugar(body)) && Extracted([], Desugar(body)).Some?
      && (exists c: Config, s: State :: Runs(env, Start(body), st, [[EVENT]], c, s))
      && RunMachine(env, Extracted([], Desugar(body)).value, 0, st, 1).logs == [[]]
  {
    ProbeAccepted(Lit(3), Quit());
    QuitLiteral();
    QuitSource(env, st);
    QuitRewritten(env, st);
    var c: Config, s: State :| Runs(env, Start(Desugar(Probe(Lit(3), Quit()))), st, [[]], c, s);
    ProbeMachine(Lit(3), Quit(), env, st, [[]], c, s);
  }

  lemma QuitLiteral()
    ensures LiteralRanges(Probe(Lit(3), Quit()))
  {
    QuitFacts();
    var body, work := Probe(Lit(3), Quit()), [Quit(), Tick];
    assert body[1..] == [Shown(), Tick] && body[1..][1..] == [Tick] && work[1..] == [Tick] && [Tick][1..] == [];
    assert LiteralRanges([Break]) && LiteralRangesInArms(Quit().arms[1..]) && LiteralRangesInArms(Quit().arms);
    assert LiteralRanges(work[1..]) && LiteralRanges(work) && LiteralRanges(body[1..][1..]) && LiteralRanges(body[1..]);
  }

  /** The source goes round twice and shows nothing yet. */
  lemma ShortenSource(env: Env, st: State)
    requires Get(st.vars, "n") > 1
    ensures exists c: Config, s: State :: Runs(env, Start(Probe(Var("n"), Shorten())), st, [[], []], c, s)
  {
    var body, work, hi := Probe(Var("n"), Shorten()), [Shorten(), Tick], Get(st.vars, "n");
    var k, rest := Module(body), [Shown(), Tick];
    var running := InFor("i", Var("n"), 0, hi, work, rest, k);
    assert body[1..] == rest && work[1..] == [Tick];
    var s1 := Round(env, running, st);
    StepThen(env, Start(body), st, Config([], running), st, 2, Config([Tick], running.(next := 1)), s1);
    CycleBySteps(env, Start(body), st, 3, Seen([], Config([Tick], running.(next := 1)), s1));
    assert [Tick][1..] == [];
    var s2 := Round(env, running.(next := 1), Edge(s1));
    CycleBySteps(env, Config([], running.(next := 1)), Edge(s1), 2, Seen([], Config([Tick], running.(next := 2)), s2));
    CycleThen(env, Start(body), st, [], Config([], running.(next := 1)), Edge(s1), [], Config([], running.(next := 2)), Edge(s2));
  }

  lemma Round(env: Env, k: Kont, st: State) returns (s: State)
    requires k.InFor? && k.next < k.hi && k.body == [Shorten(), Tick]
    ensures Steps(env, Config([], k), st, 2) == Some(Seen([], Config([Tick], k.(next := k.next + 1)), s))
  {
    var st1, k1 := Assign(st, k.counter, k.next), k.(next := k.next + 1);
    s := Assign(st1, "n", 0);
    assert k.body[1..] == [Tick];
    Steps1(env, Config(k.body, k1), st1, Config([Tick], k1), s);
    StepThen(env, Config([], k), st, Config(k.body, k1), st1, 1, Config([Tick], k1), s);
  }

  /** The rewritten iteration writes the bound, counts, and finds its loop at its end. */
  lemma ShortenLeaves(env: Env, k: Kont, st: State) returns (s: State)
    requires Get(st.vars, "i") == 0
    ensures var k1 := Inside(Var("n"), Shorten(), k);
      Steps(env, Config([Shorten()] + Closing("i", Var("n")), k1), st, 4) == Some(Seen([], Config(Behind(), k), s))
  {
    var k1, closing := Inside(Var("n"), Shorten(), k), Closing("i", Var("n"));
    var st2 := Assign(st, "n", 0);
    s := ShortenCloses(env, k, st2);
    assert ([Shorten()] + closing)[1..] == closing;
    StepThen(env, Config([Shorten()] + closing, k1), st, Config(closing, k1), st2, 3, Config(Behind(), k), s);
  }

  lemma ShortenCloses(env: Env, k: Kont, st: State) returns (s: State)
    requires Get(st.vars, "i") == 0 && Get(st.vars, "n") == 0
    ensures Steps(env, Config(Closing("i", Var("n")), Inside(Var("n"), Shorten(), k)), st, 3) == Some(Seen([], Config(Behind(), k), s))
  {
    var k1, closing := Inside(Var("n"), Shorten(), k), Closing("i", Var("n"));
    s := Assign(st, "i", 1);
    ClosingRuns(env, "i", Var("n"), 1, 0, k1, st);
    Steps1(env, Config([Break, Tick], k1), s, Config(Behind(), k), s);
    Silently(env, Config(closing, k1), st, 2, Config([Break, Tick], k1), s, 1, Config(Behind(), k), s);
  }

  /** The rewritten loop reads its bound again, leaves, and shows the event a cycle later. */
  lemma ShortenRewritten(env: Env, st: State)
    requires Get(st.vars, "n") > 1
    ensures exists c: Config, s: State :: Runs(env, Start(Desugar(Probe(Var("n"), Shorten()))), st, [[], [EVENT]], c, s)
  {
    var bound, first := Var("n"), Shorten();
    ProbeRewrites(bound, first);
    var body := Desugar(Probe(bound, first));
    var k, end := Module(body), Config(Behind(), Module(body));
    TurningEntered(bound, first, env, k, st);
    var s := ShortenLeaves(env, k, Assign(st, "i", 0));
    Silently(env, Start(body), st, 3, Config([first] + Closing("i", bound), Inside(bound, first, k)), Assign(st, "i", 0), 4, end, s);
    CycleBySteps(env, Start(body), st, 7, Seen([], end, s));
    assert Behind()[1..] == [Shown(), Tick];
    ShownAfter(env, k, Edge(s));
    CycleThen(env, Start(body), st, [], Past(end), Edge(s), [EVENT], Config([], k), Edge(Edge(s)));
  }

  /** One iteration too few: a loop whose body writes its bound passes every check, and its
    * machine shows in the second cycle what the source, still in its loop, does not.
    */
  lemma BoundCounterexample(env: Env, st: State)
    requires Get(st.vars, "n") > 1
    ensures var body := Probe(Var("n"), Shorten());
      && Written(body) && !CanReturn(body) && Ranged(body) && Countable(body, {"i"}, {}, false)
      && Admitted(Desugar(body)) && Lowerable(Desugar(body)) && Exact(Desugar(body)) && Extracted([], Desugar(body)).Some?
      && (exists c: Config, s: State :: Runs(env, Start(body), st, [[], []], c, s))
      && RunMachine(env, Extracted([], Desugar(body)).value, 0, st, 2).logs == [[], [EVENT]]
  {
    ProbeAccepted(Var("n"), Shorten());
    ShortenSource(env, st);
    ShortenRewritten(env, st);
    var logs: seq<seq<Event>> := [[], [EVENT]];
    var c: Config, s: State :| Runs(env, Start(Desugar(Probe(Var("n"), Shorten()))), st, logs, c, s);
    ProbeMachine(Var("n"), Shorten(), env, st, logs, c, s);
  }
}
