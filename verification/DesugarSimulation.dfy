/** Why the rewrites keep the meaning: source and rewritten program run in step, cycle by
  * cycle, in both directions. How many cycles a counted loop takes is in `Counting`.
  */
module DesugarSimulation {
  import opened Syntax
  import opened Semantics
  import opened Lowering
  import opened Scoping
  import opened Unrolling
  import opened Hoisting
  import opened Desugaring

  // ----- What the rewrite needs of the source --------------------------------------------------------

  /** `off` are counters of loops not running here, which nothing may read; `fixed` are
    * those of the running ones, which nothing may assign; `inFor` is whether the innermost
    * loop is counted, which nothing may restart early.
    */
  predicate Countable(stmts: Code, off: set<string>, fixed: set<string>, inFor: bool)
    decreases stmts
  {
    stmts != [] ==> CountableStmt(stmts[0], off, fixed, inFor) && Countable(stmts[1..], off, fixed, inFor)
  }

  predicate CountableStmt(s: Stmt, off: set<string>, fixed: set<string>, inFor: bool)
    decreases s
  {
    match s
    case Do(a) => Reads(ActionExpr(a)) !! off && (a.Drive? || a.name !in off + fixed)
    case Tick => true
    case Branch(sel, arms) => arms != [] && Reads(sel) !! off && ArmsCountable(arms, off, fixed, inFor)
    case Loop(body) => Countable(body, off, fixed, false)
    case While(c, body) => ContainsTick(body) && Reads(c) !! off && Countable(body, off, fixed, false)
    case For(x, lo, hi, body) =>
      if Unrolled(body) then StmtMentions(s) !! off && StmtAssigns(s) !! off + fixed else
      && x in off && x !in fixed && Reads(lo) !! off && Reads(hi) !! off
      && EndsCounted(body) && Countable(body, off - {x}, fixed + {x}, true)
    case Break => true
    case Continue => !inFor
    case _ => false
  }

  predicate ArmsCountable(arms: seq<Arm>, off: set<string>, fixed: set<string>, inFor: bool)
    decreases arms
  {
    arms != [] ==> Countable(arms[0].body, off, fixed, inFor) && ArmsCountable(arms[1..], off, fixed, inFor)
  }

  lemma {:induction false} CountableAppend(a: Code, b: Code, off: set<string>, fixed: set<string>, inFor: bool)
    ensures Countable(a + b, off, fixed, inFor) <==> Countable(a, off, fixed, inFor) && Countable(b, off, fixed, inFor)
  {
    if a == [] {
      assert a + b == b;
    } else {
      assert (a + b)[1..] == a[1..] + b;
      CountableAppend(a[1..], b, off, fixed, inFor);
    }
  }

  lemma {:induction false} CountableArm(arms: seq<Arm>, i: nat, off: set<string>, fixed: set<string>, inFor: bool)
    requires i < |arms| && ArmsCountable(arms, off, fixed, inFor)
    ensures Countable(arms[i].body, off, fixed, inFor)
  {
    if i > 0 {
      CountableArm(arms[1..], i - 1, off, fixed, inFor);
    }
  }

  // ----- What it needs of the run ---------------------------------------------------------------------

  /** A range the rewrite counts right: visibly empty, or non-empty and within 32 bits. */
  predicate RangeOk(env: Env, lo: Expr, hi: Expr, st: State) {
    StaticallyEmpty(lo, hi) || 0 <= Eval(env, lo, st) < Eval(env, hi, st) < U32
  }

  /** At an iteration's last tick: the bound, which the rewritten loop reads again in front
    * of the tick and, unless that ends the loop, behind it, decides as it did on entry.
    * Where a loop ends its enclosing counted loop's body, its last tick is theirs too.
    */
  predicate BoundHolds(env: Env, k: Kont, st: State) {
    k.InFor? ==>
      && (k.next < k.hi <==> k.next < Eval(env, k.bound, st))
      && (if k.next < k.hi then k.next < Eval(env, k.bound, Edge(st)) else k.after == [] ==> BoundHolds(env, k.outer, st))
  }

  predicate EntersWell(env: Env, cfg: Config, st: State) {
    cfg.todo != [] && cfg.todo[0].For? && !Unrolled(cfg.todo[0].body) ==> RangeOk(env, cfg.todo[0].lo, cfg.todo[0].hi, st)
  }

  /** Counted loops are entered with a range the rewrite counts right, not left by `break`,
    * and find their bound unchanged where it is read again.
    */
  predicate KeepsPace(env: Env, cfg: Config, st: State) {
    && EntersWell(env, cfg, st)
    && (cfg.todo != [] && cfg.todo[0] == Break ==> !cfg.k.InFor?)
    && (cfg.todo == [Tick] ==> BoundHolds(env, cfg.k, st))
  }

  /** The `n`-th configuration of a run, ticks included. */
  function Walk(env: Env, cfg: Config, st: State, n: nat): Option<(Config, State)>
    decreases n
  {
    if n == 0 then Some((cfg, st))
    else if StandsAtTick(cfg) then Walk(env, Config(cfg.todo[1..], cfg.k), Edge(st), n - 1)
    else
      var m := Step(env, cfg, st);
      if m.Move? then Walk(env, m.cfg, m.st, n - 1) else None
  }

  /** `ok` holds wherever the run ever stands. */
  ghost predicate Always(ok: (Env, Config, State) -> bool, env: Env, cfg: Config, st: State) {
    forall n: nat :: var w := Walk(env, cfg, st, n); w.Some? ==> ok(env, w.value.0, w.value.1)
  }

  /** Every ticking counted loop this run ever enters has a range the rewrite counts right. */
  ghost predicate RangesOk(env: Env, cfg: Config, st: State) {
    Always(EntersWell, env, cfg, st)
  }

  /** No counted loop of this run does what the rewrite does not count right. */
  ghost predicate Paced(env: Env, cfg: Config, st: State) {
    Always(KeepsPace, env, cfg, st)
  }

  lemma AlwaysNow(ok: (Env, Config, State) -> bool, env: Env, cfg: Config, st: State)
    requires Always(ok, env, cfg, st)
    ensures ok(env, cfg, st)
  {
    assert Walk(env, cfg, st, 0) == Some((cfg, st));
  }

  lemma AlwaysStep(ok: (Env, Config, State) -> bool, env: Env, cfg: Config, st: State)
    requires Always(ok, env, cfg, st) && Step(env, cfg, st).Move?
    ensures var m := Step(env, cfg, st); Always(ok, env, m.cfg, m.st)
  {
    var m := Step(env, cfg, st);
    forall n: nat | Walk(env, m.cfg, m.st, n).Some?
      ensures var w := Walk(env, m.cfg, m.st, n); ok(env, w.value.0, w.value.1)
    {
      assert Walk(env, cfg, st, n + 1) == Walk(env, m.cfg, m.st, n);
    }
  }

  lemma AlwaysTick(ok: (Env, Config, State) -> bool, env: Env, cfg: Config, st: State)
    requires Always(ok, env, cfg, st) && StandsAtTick(cfg)
    ensures Always(ok, env, Config(cfg.todo[1..], cfg.k), Edge(st))
  {
    var c, s := Config(cfg.todo[1..], cfg.k), Edge(st);
    forall n: nat | Walk(env, c, s, n).Some?
      ensures var w := Walk(env, c, s, n); ok(env, w.value.0, w.value.1)
    {
      assert Walk(env, cfg, st, n + 1) == Walk(env, c, s, n);
    }
  }

  lemma {:induction false} AlwaysSteps(ok: (Env, Config, State) -> bool, env: Env, cfg: Config, st: State, n: nat, o: Seen)
    requires Always(ok, env, cfg, st) && Steps(env, cfg, st, n) == Some(o)
    ensures Always(ok, env, o.cfg, o.st)
    decreases n
  {
    if n > 0 {
      AlwaysStep(ok, env, cfg, st);
      var m := Step(env, cfg, st);
      AlwaysSteps(ok, env, m.cfg, m.st, n - 1, Steps(env, m.cfg, m.st, n - 1).value);
    }
  }

  // ----- The rewritten program's configuration ------------------------------------------------------------

  /** What the rewritten program has left to run where the source has `todo` in `k`. In
    * a counted loop the iteration's tick is replaced by the counting in front of it.
    */
  function Rest(todo: Code, k: Kont): Code {
    if k.InFor? then Work(D(todo)) + Closing(k.counter, k.bound) else D(todo)
  }

  function Image(k: Kont): Kont {
    match k
    case Module(body) => Module(D(body))
    case Nested(body, after, outer) => Nested(D(body), Rest(after, outer), Image(outer))
    case InWhile(c, body, after, outer) => Nested([ExitUnless(c)] + D(body), Rest(after, outer), Image(outer))
    case InFor(x, hi, _, _, body, after, outer) =>
      Nested(CountedBody(x, hi, Work(D(body))), Rest([Tick] + after, outer), Image(outer))
  }

  function Off(k: Kont, counters: set<string>): set<string> {
    if k.Module? then counters
    else if k.InFor? then Off(k.outer, counters) - {k.counter}
    else Off(k.outer, counters)
  }

  function Fixed(k: Kont): set<string> {
    if k.Module? then {}
    else if k.InFor? then Fixed(k.outer) + {k.counter}
    else Fixed(k.outer)
  }

  predicate TodoOk(todo: Code, k: Kont, counters: set<string>) {
    Countable(todo, Off(k, counters), Fixed(k), k.InFor?)
  }

  predicate KontOk(k: Kont, counters: set<string>) {
    match k
    case Module(body) => TodoOk(body, k, counters)
    case Nested(body, after, outer) =>
      TodoOk(body, k, counters) && TodoOk(after, outer, counters) && (outer.InFor? ==> EndsCounted(after)) && KontOk(outer, counters)
    case InWhile(c, body, after, outer) =>
      && Reads(c) !! Off(k, counters)
      && TodoOk(body, k, counters) && TodoOk(after, outer, counters) && (outer.InFor? ==> EndsCounted(after)) && KontOk(outer, counters)
    case InFor(x, hi, next, top, body, after, outer) =>
      && x in Off(outer, counters) && x !in Fixed(outer) && Reads(hi) !! Off(outer, counters)
      && 0 < next <= top < U32 && EndsCounted(body)
      && TodoOk(body, k, counters) && TodoOk(after, outer, counters) && KontOk(outer, counters)
      && (outer.InFor? ==> after == [] || EndsCounted(after))
  }

  /** The counters of the running loops hold the current index. */
  predicate CountersOk(env: Env, k: Kont, st: State) {
    match k
    case Module(_) => true
    case InFor(x, _, next, _, _, _, outer) =>
      Get(st.vars, x) == next - 1 && CountersOk(env, outer, st)
    case _ => CountersOk(env, k.outer, st)
  }

  /** Equal but for counters of loops that are not running. */
  ghost predicate Alike(off: set<string>, a: State, b: State) {
    a.cycle == b.cycle && forall x: string :: x !in off ==> Get(a.vars, x) == Get(b.vars, x)
  }

  /** The two programs stand at the same point. */
  ghost predicate Sync(env: Env, counters: set<string>, cs: Config, ss: State, ct: Config, st: State) {
    && TodoOk(cs.todo, cs.k, counters) && KontOk(cs.k, counters) && CountersOk(env, cs.k, ss)
    && (cs.k.InFor? ==> EndsCounted(cs.todo))
    && Alike(Off(cs.k, counters), ss, st)
    && ct == Config(Rest(cs.todo, cs.k), Image(cs.k))
  }

  lemma {:induction false} AlikeEval(env: Env, e: Expr, off: set<string>, a: State, b: State)
    requires Reads(e) !! off && Alike(off, a, b)
    ensures Eval(env, e, a) == Eval(env, e, b)
  {
    match e
    case Not(x) => AlikeEval(env, x, off, a, b);
    case AddU32(x, y) => AlikeEval(env, x, off, a, b); AlikeEval(env, y, off, a, b);
    case Ge(x, y) => AlikeEval(env, x, off, a, b); AlikeEval(env, y, off, a, b);
    case Apply(_, x, y) => AlikeEval(env, x, off, a, b); AlikeEval(env, y, off, a, b);
    case _ =>
  }

  lemma {:induction false} CountersKept(env: Env, k: Kont, counters: set<string>, a: State, b: State)
    requires KontOk(k, counters) && CountersOk(env, k, a)
    requires forall x <- Fixed(k) :: Get(a.vars, x) == Get(b.vars, x)
    ensures CountersOk(env, k, b)
  {
    if !k.Module? {
      CountersKept(env, k.outer, counters, a, b);
    }
  }

  lemma {:induction false} OffWithin(k: Kont, counters: set<string>)
    ensures Off(k, counters) <= counters
  {
    if !k.Module? {
      OffWithin(k.outer, counters);
    }
  }

  // ----- Taking steps ---------------------------------------------------------------------------------------

  lemma Steps1(env: Env, c: Config, s: State, c1: Config, s1: State)
    requires Step(env, c, s) == Move([], c1, s1)
    ensures Steps(env, c, s, 1) == Some(Seen([], c1, s1))
  {
    var none: seq<Event> := [];
    assert none + none == none && Steps(env, c1, s1, 0) == Some(Seen(none, c1, s1));
  }

  lemma StepThen(env: Env, c: Config, s: State, c1: Config, s1: State, n: nat, c2: Config, s2: State)
    requires Step(env, c, s) == Move([], c1, s1) && Steps(env, c1, s1, n) == Some(Seen([], c2, s2))
    ensures Steps(env, c, s, n + 1) == Some(Seen([], c2, s2))
  {
    var none: seq<Event> := [];
    assert none + none == none;
  }

  lemma {:induction false} StepsSplit(env: Env, c: Config, s: State, n: nat, o: Seen, j: nat, a: Seen)
    requires Steps(env, c, s, n) == Some(o) && StandsAtTick(o.cfg) && Steps(env, c, s, j) == Some(a)
    ensures j <= n && Steps(env, a.cfg, a.st, n - j).Some?
    ensures var r := Steps(env, a.cfg, a.st, n - j).value; o == r.(log := a.log + r.log)
    decreases j
  {
    if j == 0 {
      assert [] + o.log == o.log;
    } else {
      var m := Step(env, c, s);
      var o', a' := Steps(env, m.cfg, m.st, n - 1).value, Steps(env, m.cfg, m.st, j - 1).value;
      StepsSplit(env, m.cfg, m.st, n - 1, o', j - 1, a');
      var r := Steps(env, a.cfg, a.st, n - j).value;
      assert m.log + (a'.log + r.log) == a.log + r.log;
    }
  }

  // ----- The image of a list ----------------------------------------------------------------------------------

  lemma RestInline(a: Code, rest: Code, k: Kont)
    requires k.InFor? ==> EndsCounted(rest)
    ensures Rest(a + rest, k) == D(a) + Rest(rest, k)
  {
    DAppend(a, rest);
    if k.InFor? {
      DEnds(rest);
      WorkBehind(D(a), D(rest), Closing(k.counter, k.bound));
    }
  }

  /** Taking the last statement off the end does not touch what is in front. */
  lemma WorkBehind(a: Code, b: Code, c: Code)
    requires b != []
    ensures Work(a + b) + c == a + (Work(b) + c)
  {
    assert Work(a + b) == a + Work(b);
  }

  lemma RestPush(s: Stmt, rest: Code, k: Kont)
    requires k.InFor? ==> EndsCounted(rest)
    ensures Rest([s] + rest, k) == DStmt(s) + Rest(rest, k)
  {
    RestInline([s], rest, k);
    assert [s][1..] == [];
    assert DStmt(s) + [] == DStmt(s);
  }

  lemma DOne(s: Stmt)
    ensures D([s]) == DStmt(s)
  {
    assert [s][1..] == [];
    assert DStmt(s) + [] == DStmt(s);
  }

  function Opening(f: Stmt): Code
    requires f.For?
  {
    [Do(Let(f.counter, f.lo)), Loop(CountedBody(f.counter, f.hi, Work(D(f.body))))]
  }

  /** A counted loop's image is its opening, and then the tick hoisted out of it. */
  lemma RestFor(f: Stmt, rest: Code, k: Kont)
    requires f.For? && EndsCounted(f.body) && !StaticallyEmpty(f.lo, f.hi) && (k.InFor? ==> rest == [] || EndsCounted(rest))
    ensures Rest([f] + rest, k) == Opening(f) + Rest([Tick] + rest, k)
  {
    DFor(f);
    assert DStmt(f) == Opening(f) + [Tick];
    if rest == [] && k.InFor? {
      RestForLast(f, k);
    } else {
      RestPush(f, rest, k);
      RestPush(Tick, rest, k);
      Reassociate(Opening(f), [Tick], Rest(rest, k));
    }
  }

  lemma Reassociate(a: Code, b: Code, c: Code)
    ensures a + b + c == a + (b + c)
  {
  }

  lemma RestForLast(f: Stmt, k: Kont)
    requires f.For? && k.InFor? && DStmt(f) == Opening(f) + [Tick]
    ensures Rest([f] + [], k) == Opening(f) + Rest([Tick] + [], k)
  {
    var close := Closing(k.counter, k.bound);
    DOne(f);
    DOne(Tick);
    assert [f] + [] == [f] && [Tick] + [] == [Tick];
    assert Work(Opening(f) + [Tick]) == Opening(f) && Work([Tick]) == [];
    assert Rest([f], k) == Opening(f) + close && Rest([Tick], k) == [] + close == close;
  }

  // ----- One source statement ------------------------------------------------------------------------------------

  datatype Pair = Pair(source: Seen, target: Seen)

  /** From a pair of points in step, `m` source steps and `n` target steps lead to
    * another, driving the same on the way.
    */
  ghost predicate Advanced(env: Env, counters: set<string>, cs: Config, ss: State, ct: Config, st: State, m: nat, n: nat, p: Pair) {
    && Steps(env, cs, ss, m) == Some(p.source) && Steps(env, ct, st, n) == Some(p.target)
    && p.source.log == p.target.log
    && Sync(env, counters, p.source.cfg, p.source.st, p.target.cfg, p.target.st)
    && m > 0 && (n > 0 || Size(p.source.cfg.todo) < Size(cs.todo))
  }

  lemma TodoHead(todo: Code, k: Kont, counters: set<string>)
    requires TodoOk(todo, k, counters) && todo != []
    ensures CountableStmt(todo[0], Off(k, counters), Fixed(k), k.InFor?) && TodoOk(todo[1..], k, counters)
  {
  }

  lemma ActionAdvances(env: Env, counters: set<string>, cs: Config, ss: State, ct: Config, st: State) returns (p: Pair)
    requires Sync(env, counters, cs, ss, ct, st) && cs.todo != [] && cs.todo[0].Do?
    ensures Advanced(env, counters, cs, ss, ct, st, 1, 1, p)
  {
    var a, rest := cs.todo[0].action, cs.todo[1..];
    TodoHead(cs.todo, cs.k, counters);
    assert cs.todo == [Do(a)] + rest;
    RestPush(Do(a), rest, cs.k);
    assert ct.todo == [Do(a)] + Rest(rest, cs.k) && ct.todo[1..] == Rest(rest, cs.k);
    AlikeEval(env, ActionExpr(a), Off(cs.k, counters), ss, st);
    var log, ss', st' := Emit(env, a, ss), Perform(env, a, ss), Perform(env, a, st);
    CountersKept(env, cs.k, counters, ss, ss');
    p := Pair(Seen(log, Config(rest, cs.k), ss'), Seen(log, Config(Rest(rest, cs.k), ct.k), st'));
    assert Steps(env, p.source.cfg, ss', 0) == Some(Seen([], p.source.cfg, ss'));
    assert Steps(env, p.target.cfg, st', 0) == Some(Seen([], p.target.cfg, st'));
    assert log + [] == log;
  }

  lemma BranchAdvances(env: Env, counters: set<string>, cs: Config, ss: State, ct: Config, st: State) returns (p: Pair)
    requires Sync(env, counters, cs, ss, ct, st) && cs.todo != [] && cs.todo[0].Branch?
    ensures Advanced(env, counters, cs, ss, ct, st, 1, 1, p)
  {
    var sel, arms, rest := cs.todo[0].sel, cs.todo[0].arms, cs.todo[1..];
    TodoHead(cs.todo, cs.k, counters);
    assert cs.todo == [Branch(sel, arms)] + rest;
    RestPush(Branch(sel, arms), rest, cs.k);
    assert ct.todo == [Branch(sel, DArms(arms))] + Rest(rest, cs.k) && ct.todo[1..] == Rest(rest, cs.k);
    AlikeEval(env, sel, Off(cs.k, counters), ss, st);
    var i := Pick(env, sel, |arms|, ss);
    DArmAt(arms, i);
    CountableArm(arms, i, Off(cs.k, counters), Fixed(cs.k), cs.k.InFor?);
    CountableAppend(arms[i].body, rest, Off(cs.k, counters), Fixed(cs.k), cs.k.InFor?);
    RestInline(arms[i].body, rest, cs.k);
    var cs', ct' := Config(arms[i].body + rest, cs.k), Config(D(arms[i].body) + Rest(rest, cs.k), ct.k);
    Steps1(env, cs, ss, cs', ss);
    Steps1(env, ct, st, ct', st);
    p := Pair(Seen([], cs', ss), Seen([], ct', st));
  }

  lemma LoopAdvances(env: Env, counters: set<string>, cs: Config, ss: State, ct: Config, st: State) returns (p: Pair)
    requires Sync(env, counters, cs, ss, ct, st) && cs.todo != [] && cs.todo[0].Loop?
    ensures Advanced(env, counters, cs, ss, ct, st, 1, 1, p)
  {
    var body, rest := cs.todo[0].body, cs.todo[1..];
    TodoHead(cs.todo, cs.k, counters);
    assert cs.todo == [Loop(body)] + rest;
    RestPush(Loop(body), rest, cs.k);
    assert ct.todo == [Loop(D(body))] + Rest(rest, cs.k) && ct.todo[1..] == Rest(rest, cs.k);
    var cs' := Config(body, Nested(body, rest, cs.k));
    var ct' := Config(D(body), Image(cs'.k));
    Steps1(env, cs, ss, cs', ss);
    Steps1(env, ct, st, ct', st);
    p := Pair(Seen([], cs', ss), Seen([], ct', st));
  }

  /** The head of a rewritten `while`: the test the source makes, made by a branch. */
  lemma WhileTest(env: Env, counters: set<string>, k: Kont, ss: State, st: State) returns (m: nat, n: nat, p: Pair)
    requires k.InWhile? && KontOk(k, counters) && CountersOk(env, k, ss) && Alike(Off(k, counters), ss, st)
    ensures n > 0 && p.source.log == []
    ensures Advanced(env, counters, Config([], k), ss, Config([ExitUnless(k.cond)] + D(k.body), Image(k)), st, m, n, p)
  {
    var c, body := k.cond, k.body;
    var ct := Config([ExitUnless(c)] + D(body), Image(k));
    assert ct.todo[1..] == D(body);
    AlikeEval(env, c, Off(k, counters), ss, st);
    assert Eval(env, Not(Not(c)), st) == if Eval(env, Not(c), st) == 0 then 1 else 0;
    m := 1;
    if Eval(env, c, ss) != 0 {
      var cs', ct' := Config(body, k), Config(D(body), Image(k));
      assert [] + D(body) == D(body);
      Steps1(env, Config([], k), ss, cs', ss);
      Steps1(env, ct, st, ct', st);
      n, p := 1, Pair(Seen([], cs', ss), Seen([], ct', st));
    } else {
      var cs', ct' := Config(k.after, k.outer), Config(Rest(k.after, k.outer), Image(k.outer));
      var ctb := Config([Break] + D(body), Image(k));
      Steps1(env, Config([], k), ss, cs', ss);
      Steps1(env, ctb, st, ct', st);
      StepThen(env, ct, st, ctb, st, 1, ct', st);
      n, p := 2, Pair(Seen([], cs', ss), Seen([], ct', st));
    }
  }

  /** Both programs enter the loop, in one step each. */
  lemma WhileEnters(env: Env, counters: set<string>, cs: Config, ss: State, ct: Config, st: State) returns (k: Kont)
    requires Sync(env, counters, cs, ss, ct, st) && cs.todo != [] && cs.todo[0].While?
    ensures k.InWhile? && KontOk(k, counters) && CountersOk(env, k, ss) && Alike(Off(k, counters), ss, st)
    ensures Step(env, cs, ss) == Move([], Config([], k), ss)
    ensures Step(env, ct, st) == Move([], Config([ExitUnless(k.cond)] + D(k.body), Image(k)), st)
  {
    var c, body, rest := cs.todo[0].cond, cs.todo[0].body, cs.todo[1..];
    TodoHead(cs.todo, cs.k, counters);
    assert cs.todo == [While(c, body)] + rest;
    RestPush(While(c, body), rest, cs.k);
    k := InWhile(c, body, rest, cs.k);
    assert Off(k, counters) == Off(cs.k, counters) && Fixed(k) == Fixed(cs.k);
    assert ct.todo == [Loop([ExitUnless(c)] + D(body))] + Rest(rest, cs.k) && ct.todo[1..] == Rest(rest, cs.k);
  }

  lemma WhileAdvances(env: Env, counters: set<string>, cs: Config, ss: State, ct: Config, st: State) returns (m: nat, n: nat, p: Pair)
    requires Sync(env, counters, cs, ss, ct, st) && cs.todo != [] && cs.todo[0].While?
    ensures n > 0 && Advanced(env, counters, cs, ss, ct, st, m, n, p)
  {
    var k := WhileEnters(env, counters, cs, ss, ct, st);
    m, n, p := WhileTest(env, counters, k, ss, st);
    StepThen(env, cs, ss, Config([], k), ss, m, p.source.cfg, p.source.st);
    StepThen(env, ct, st, Config([ExitUnless(k.cond)] + D(k.body), Image(k)), st, n, p.target.cfg, p.target.st);
    m, n := m + 1, n + 1;
  }

  lemma BreakAdvances(env: Env, counters: set<string>, cs: Config, ss: State, ct: Config, st: State) returns (p: Pair)
    requires Sync(env, counters, cs, ss, ct, st) && cs.todo != [] && cs.todo[0] == Break && !cs.k.Module? && !cs.k.InFor?
    ensures Advanced(env, counters, cs, ss, ct, st, 1, 1, p)
  {
    var rest, k := cs.todo[1..], cs.k;
    TodoHead(cs.todo, k, counters);
    assert cs.todo == [Break] + rest;
    RestPush(Break, rest, k);
    var cs', ct' := Config(k.after, k.outer), Config(Rest(k.after, k.outer), Image(k.outer));
    Steps1(env, cs, ss, cs', ss);
    Steps1(env, ct, st, ct', st);
    p := Pair(Seen([], cs', ss), Seen([], ct', st));
  }

  lemma ContinueAdvances(env: Env, counters: set<string>, cs: Config, ss: State, ct: Config, st: State) returns (p: Pair)
    requires Sync(env, counters, cs, ss, ct, st) && cs.todo != [] && cs.todo[0] == Continue
    ensures Advanced(env, counters, cs, ss, ct, st, 1, 1, p)
  {
    var rest, k := cs.todo[1..], cs.k;
    TodoHead(cs.todo, k, counters);
    assert cs.todo == [Continue] + rest;
    RestPush(Continue, rest, k);
    Steps1(env, cs, ss, Config([], k), ss);
    Steps1(env, ct, st, Config([], ct.k), st);
    p := Pair(Seen([], Config([], k), ss), Seen([], Config([], ct.k), st));
  }

  lemma RewindAdvances(env: Env, counters: set<string>, cs: Config, ss: State, ct: Config, st: State) returns (m: nat, n: nat, p: Pair)
    requires Sync(env, counters, cs, ss, ct, st) && cs.todo == []
    ensures n > 0 && Advanced(env, counters, cs, ss, ct, st, m, n, p)
  {
    var k := cs.k;
    if k.InWhile? {
      m, n, p := WhileTest(env, counters, k, ss, st);
      StepThen(env, ct, st, Config([ExitUnless(k.cond)] + D(k.body), ct.k), st, n, p.target.cfg, p.target.st);
      n := n + 1;
    } else {
      var cs', ct' := Config(k.body, k), Config(D(k.body), ct.k);
      Steps1(env, cs, ss, cs', ss);
      Steps1(env, ct, st, ct', st);
      m, n, p := 1, 1, Pair(Seen([], cs', ss), Seen([], ct', st));
    }
  }

  // ----- Counted loops that unroll -----------------------------------------------------------------------------------

  /** Work that mentions and assigns no idle counter does the same to both stores. */
  lemma ExecAlike(env: Env, s: Code, off: set<string>, a: State, b: State)
    requires Mentions(s) !! off && Alike(off, a, b)
    ensures var r, r' := Exec(env, s, a, Hold), Exec(env, s, b, Hold); r.log == r'.log && r.next == r'.next && Alike(off, r.st, r'.st)
  {
    var r, r' := Exec(env, s, a, Hold), Exec(env, s, b, Hold);
    ExecAgrees(env, s, Mentions(s), a, b, Hold);
    forall x: string | x !in off ensures Get(r.st.vars, x) == Get(r'.st.vars, x) {
      ExecAgrees(env, s, Mentions(s) + {x}, a, b, Hold);
    }
  }

  lemma UnrolledAdvances(env: Env, counters: set<string>, cs: Config, ss: State, ct: Config, st: State) returns (m: nat, n: nat, p: Pair)
    requires Sync(env, counters, cs, ss, ct, st) && cs.todo != [] && cs.todo[0].For? && Unrolled(cs.todo[0].body)
    ensures Advanced(env, counters, cs, ss, ct, st, m, n, p)
  {
    var f, rest, k := cs.todo[0], cs.todo[1..], cs.k;
    assert cs.todo == [f] + rest;
    TodoHead(cs.todo, k, counters);
    UnrolledInPlace(f, rest, k);
    var r := Exec(env, [f], ss, Hold);
    var r' := UnrolledAlike(env, counters, f, k, ss, st);
    UnrolledRuns(env, [f], ss, Hold, rest, k);
    UnrolledRuns(env, [f], st, Hold, Rest(rest, k), ct.k);
    p := Pair(Seen(r.log, Config(rest, k), r.st), Seen(r'.log, Config(Rest(rest, k), ct.k), r'.st));
    m := StepsTo(env, cs, ss, p.source);
    n := StepsTo(env, ct, st, p.target);
    assert |p.source.cfg.todo| < |cs.todo| && |p.target.cfg.todo| < |ct.todo|;
  }

  lemma StepsTo(env: Env, cfg: Config, st: State, o: Seen) returns (n: nat)
    requires Reaches(env, cfg, st, o)
    ensures Steps(env, cfg, st, n) == Some(o)
  {
    n :| Steps(env, cfg, st, n) == Some(o);
  }

  /** A counted loop that unrolls is left where it is. */
  lemma UnrolledInPlace(f: Stmt, rest: Code, k: Kont)
    requires f.For? && Unrolled(f.body) && (k.InFor? ==> EndsCounted([f] + rest))
    ensures Rest([f] + rest, k) == [f] + Rest(rest, k) && Unrolled([f]) && (k.InFor? ==> EndsCounted(rest))
  {
    DUnrolled(f.body);
    var todo := [f] + rest;
    assert todo[|todo| - 1] == if rest == [] then f else rest[|rest| - 1];
    RestPush(f, rest, k);
    assert DStmt(f) == [f] && [f][1..] == [] && UnrolledStmt(f);
  }

  /** It does the same in both stores, and leaves the running loops' counters alone. */
  lemma UnrolledAlike(env: Env, counters: set<string>, f: Stmt, k: Kont, ss: State, st: State) returns (r': Ran)
    requires f.For? && Unrolled(f.body) && CountableStmt(f, Off(k, counters), Fixed(k), k.InFor?)
    requires KontOk(k, counters) && CountersOk(env, k, ss) && Alike(Off(k, counters), ss, st)
    ensures r' == Exec(env, [f], st, Hold)
    ensures var r := Exec(env, [f], ss, Hold);
      r.log == r'.log && Alike(Off(k, counters), r.st, r'.st) && CountersOk(env, k, r.st)
  {
    r' := Exec(env, [f], st, Hold);
    var r := Exec(env, [f], ss, Hold);
    OneStatement(f);
    ExecAlike(env, [f], Off(k, counters), ss, st);
    forall x | x in Fixed(k) ensures Get(ss.vars, x) == Get(r.st.vars, x) {
      ExecKeeps(env, [f], ss, Hold, x);
    }
    CountersKept(env, k, counters, ss, r.st);
  }

  // ----- Counted loops --------------------------------------------------------------------------------------------

  /** What holds between two iterations: the source is about to hand out index
    * `k.next`, which the rewritten program's counter already has, and its test lets pass.
    */
  ghost predicate Between(env: Env, counters: set<string>, k: Kont, ss: State, st: State) {
    && k.InFor? && 0 <= k.next < k.hi && KontOk(k.outer, counters) && CountersOk(env, k.outer, ss)
    && Alike(Off(k.outer, counters), ss, st) && Get(st.vars, k.counter) == k.next
    && k.next < Eval(env, k.bound, ss)
  }

  /** The next index: the source binds it, the rewritten program finds its test false. */
  lemma NextIndex(env: Env, counters: set<string>, k: Kont, ss: State, st: State) returns (p: Pair)
    requires Between(env, counters, k, ss, st) && KontOk(k.(next := k.next + 1), counters)
    ensures Steps(env, Config([], k), ss, 1) == Some(p.source) && p.source.log == []
    ensures Steps(env, Config(CountedBody(k.counter, k.bound, Work(D(k.body))), Image(k)), st, 1) == Some(p.target) && p.target.log == []
    ensures Sync(env, counters, p.source.cfg, p.source.st, p.target.cfg, p.target.st)
  {
    var x, k' := k.counter, k.(next := k.next + 1);
    var work := Work(D(k.body));
    var body := CountedBody(x, k.bound, work);
    var ss' := Assign(ss, x, k.next);
    AlikeEval(env, k.bound, Off(k.outer, counters), ss, st);
    assert Eval(env, Ge(Var(x), k.bound), st) == 0;
    assert body[1..] == work + Closing(x, k.bound);
    assert [] + body[1..] == Rest(k.body, k');
    Steps1(env, Config([], k), ss, Config(k.body, k'), ss');
    Steps1(env, Config(body, Image(k)), st, Config(Rest(k.body, k'), Image(k)), st);
    CountersKept(env, k.outer, counters, ss, ss');
    assert Off(k', counters) == Off(k.outer, counters) - {x};
    p := Pair(Seen([], Config(k.body, k'), ss'), Seen([], Config(Rest(k.body, k'), Image(k)), st));
  }

  lemma ForAdvances(env: Env, counters: set<string>, cs: Config, ss: State, ct: Config, st: State) returns (m: nat, n: nat, p: Pair)
    requires Sync(env, counters, cs, ss, ct, st) && cs.todo != [] && cs.todo[0].For? && EntersWell(env, cs, ss)
    requires !Unrolled(cs.todo[0].body)
    ensures m == 2 && p.source.log == [] && Advanced(env, counters, cs, ss, ct, st, m, n, p)
  {
    var f, rest := cs.todo[0], cs.todo[1..];
    TodoHead(cs.todo, cs.k, counters);
    assert cs.todo == [f] + rest;
    if StaticallyEmpty(f.lo, f.hi) {
      EmptyForSkipped(env, f, rest, cs.k, ss);
      m, n, p := 2, 0, Pair(Seen([], Config(rest, cs.k), ss), Seen([], ct, st));
    } else {
      p := ForEnters(env, counters, f, rest, cs.k, ss, st);
      m, n := 2, 3;
    }
  }

  /** A visibly empty range: the source passes it in two steps, the rewrite dropped it. */
  lemma EmptyForSkipped(env: Env, f: Stmt, rest: Code, k: Kont, st: State)
    requires f.For? && EndsCounted(f.body) && StaticallyEmpty(f.lo, f.hi) && (k.InFor? ==> EndsCounted([f] + rest))
    ensures Rest([f] + rest, k) == Rest(rest, k) && (k.InFor? ==> EndsCounted(rest))
    ensures Steps(env, Config([f] + rest, k), st, 2) == Some(Seen([], Config(rest, k), st))
  {
    var todo := [f] + rest;
    assert todo[|todo| - 1] == if rest == [] then f else rest[|rest| - 1];
    DFor(f);
    RestPush(f, rest, k);
    assert [] + Rest(rest, k) == Rest(rest, k) && todo[1..] == rest;
    var running := InFor(f.counter, f.hi, f.lo.value, f.hi.value, f.body, rest, k);
    Steps1(env, Config([], running), st, Config(rest, k), st);
    StepThen(env, Config(todo, k), st, Config([], running), st, 1, Config(rest, k), st);
  }

  lemma ForEnters(env: Env, counters: set<string>, f: Stmt, rest: Code, k0: Kont, ss: State, st: State) returns (p: Pair)
    requires f.For? && !Unrolled(f.body) && !StaticallyEmpty(f.lo, f.hi) && RangeOk(env, f.lo, f.hi, ss)
    requires CountableStmt(f, Off(k0, counters), Fixed(k0), k0.InFor?) && TodoOk(rest, k0, counters)
    requires KontOk(k0, counters) && CountersOk(env, k0, ss) && Alike(Off(k0, counters), ss, st)
    requires k0.InFor? ==> rest == [] || EndsCounted(rest)
    ensures p.source.log == [] && Advanced(env, counters, Config([f] + rest, k0), ss, Config(Rest([f] + rest, k0), Image(k0)), st, 2, 3, p)
  {
    var x, lo, hi := f.counter, Eval(env, f.lo, ss), Eval(env, f.hi, ss);
    var k := InFor(x, f.hi, lo, hi, f.body, rest, k0);
    RestFor(f, rest, k0);
    AlikeEval(env, f.lo, Off(k0, counters), ss, st);
    var st1 := Assign(st, x, lo);
    assert ([f] + rest)[1..] == rest;
    assert Between(env, counters, k, ss, st1);
    p := NextIndex(env, counters, k, ss, st1);
    StepThen(env, Config([f] + rest, k0), ss, Config([], k), ss, 1, p.source.cfg, p.source.st);
    OpeningRuns(env, f, Rest([Tick] + rest, k0), Image(k0), st, Image(k), p.target);
  }

  /** The rewritten loop's counter is set and its loop entered. */
  lemma OpeningRuns(env: Env, f: Stmt, after: Code, kt: Kont, st: State, ki: Kont, o: Seen)
    requires f.For? && ki == Nested(CountedBody(f.counter, f.hi, Work(D(f.body))), after, kt)
    requires Steps(env, Config(ki.body, ki), Assign(st, f.counter, Eval(env, f.lo, st)), 1) == Some(o) && o.log == []
    ensures Steps(env, Config(Opening(f) + after, kt), st, 3) == Some(o)
  {
    var st1 := Assign(st, f.counter, Eval(env, f.lo, st));
    var c0, c1 := Config(Opening(f) + after, kt), Config([Loop(ki.body)] + after, kt);
    assert c0.todo[1..] == c1.todo && c1.todo[1..] == after;
    StepThen(env, c1, st1, Config(ki.body, ki), st1, 1, o.cfg, o.st);
    StepThen(env, c0, st, c1, st1, 2, o.cfg, o.st);
  }

  // ----- Ticks --------------------------------------------------------------------------------------------------------

  function Past(cfg: Config): Config
    requires StandsAtTick(cfg)
  {
    Config(cfg.todo[1..], cfg.k)
  }

  /** Both programs get to points in step without driving anything, and their stores
    * differ at most in loop counters.
    */
  ghost predicate Settles(env: Env, counters: set<string>, cs: Config, ss: State, ct: Config, st: State) {
    && Alike(counters, ss, st)
    && exists m: nat, n: nat, p: Pair ::
      && Steps(env, cs, ss, m) == Some(p.source) && Steps(env, ct, st, n) == Some(p.target)
      && p.source.log == [] && p.target.log == []
      && Sync(env, counters, p.source.cfg, p.source.st, p.target.cfg, p.target.st)
  }

  /** The rewritten program gets to the tick the source stands at, in no time, and past
    * it the two settle: also when that tick is the last of one or several counted loops.
    */
  lemma {:induction false} ToTick(env: Env, counters: set<string>, after: Code, k: Kont, ss: State, st: State) returns (j: nat, t: Seen)
    requires TodoOk(after, k, counters) && KontOk(k, counters) && CountersOk(env, k, ss) && Alike(Off(k, counters), ss, st)
    requires k.InFor? ==> if after == [] then BoundHolds(env, k, ss) else EndsCounted(after)
    ensures Steps(env, Config(Rest([Tick] + after, k), Image(k)), st, j) == Some(t)
    ensures t.log == [] && StandsAtTick(t.cfg)
    ensures Settles(env, counters, Config(after, k), Edge(ss), Past(t.cfg), Edge(t.st))
    decreases k
  {
    var ct := Config(Rest([Tick] + after, k), Image(k));
    OffWithin(k, counters);
    if k.InFor? && after == [] {
      j, t := ToOwnTick(env, counters, k, ss, st);
    } else {
      RestPush(Tick, after, k);
      CountersKept(env, k, counters, ss, Edge(ss));
      assert ct.todo[1..] == Rest(after, k);
      j, t := 0, Seen([], ct, st);
      var p := Pair(Seen([], Config(after, k), Edge(ss)), Seen([], Past(ct), Edge(st)));
      assert Steps(env, Config(after, k), Edge(ss), 0) == Some(p.source);
      assert Steps(env, Past(ct), Edge(st), 0) == Some(p.target);
    }
  }

  lemma {:induction false} ToOwnTick(env: Env, counters: set<string>, k: Kont, ss: State, st: State) returns (j: nat, t: Seen)
    requires k.InFor? && KontOk(k, counters) && CountersOk(env, k, ss) && Alike(Off(k, counters), ss, st) && BoundHolds(env, k, ss)
    ensures Steps(env, Config(Rest([Tick] + [], k), Image(k)), st, j) == Some(t)
    ensures t.log == [] && StandsAtTick(t.cfg)
    ensures Settles(env, counters, Config([], k), Edge(ss), Past(t.cfg), Edge(t.st))
    decreases k, 0
  {
    var st1 := Closes(env, counters, k, ss, st);
    if k.next < k.hi {
      j, t := 2, Seen([], Config([Tick], Image(k)), st1);
      assert [Tick][1..] == [];
      CountersKept(env, k, counters, ss, Edge(ss));
      AgainAfterTick(env, counters, k, Edge(ss), Edge(st1));
    } else {
      j, t := ToTick(env, counters, k.after, k.outer, ss, st1);
      LeftAfterTick(env, counters, k, Edge(ss), Past(t.cfg), Edge(t.st));
      BreaksOut(env, k, st1);
      LeavesBy(env, Config(Rest([Tick] + [], k), Image(k)), st, Config([Break, Tick], Image(k)), st1,
               Config(Rest([Tick] + k.after, k.outer), Image(k.outer)), j, t);
      j := j + 3;
    }
  }

  lemma BreaksOut(env: Env, k: Kont, st: State)
    requires k.InFor?
    ensures Step(env, Config([Break, Tick], Image(k)), st)
         == Move([], Config(Rest([Tick] + k.after, k.outer), Image(k.outer)), st)
  {
  }

  /** Two steps to the exit, one out of the loop, and then as from behind it. */
  lemma LeavesBy(env: Env, c: Config, st: State, exit: Config, st1: State, behind: Config, j: nat, t: Seen)
    requires Steps(env, c, st, 2) == Some(Seen([], exit, st1)) && Step(env, exit, st1) == Move([], behind, st1)
    requires Steps(env, behind, st1, j) == Some(t) && t.log == []
    ensures Steps(env, c, st, j + 3) == Some(t)
  {
    StepThen(env, exit, st1, behind, st1, j, t.cfg, t.st);
    StepsCompose(env, c, st, 2, Seen([], exit, st1), j + 1, t);
    assert t.log + t.log == t.log;
  }

  /** The end of an iteration: count, and decide whether this was the last index. */
  lemma Closes(env: Env, counters: set<string>, k: Kont, ss: State, st: State) returns (st1: State)
    requires k.InFor? && KontOk(k, counters) && CountersOk(env, k, ss) && Alike(Off(k, counters), ss, st)
    ensures Alike(Off(k.outer, counters), ss, st1) && Get(st1.vars, k.counter) == k.next
    ensures Steps(env, Config(Rest([Tick] + [], k), Image(k)), st, 2)
         == Some(Seen([], Config(if k.next < Eval(env, k.bound, ss) then [Tick] else [Break, Tick], Image(k)), st1))
  {
    var x, kt := k.counter, Image(k);
    RestTick(k);
    st1 := Assign(st, x, k.next);
    assert Get(st.vars, x) == Get(ss.vars, x) == k.next - 1;
    AlikeEval(env, k.bound, Off(k.outer, counters), ss, st1);
    ClosingRuns(env, x, k.bound, k.next, Eval(env, k.bound, ss), kt, st);
  }

  lemma RestTick(k: Kont)
    requires k.InFor?
    ensures Rest([Tick] + [], k) == Closing(k.counter, k.bound)
  {
    DOne(Tick);
    assert [Tick] + [] == [Tick] && Work([Tick]) == [];
  }

  /** The two statements in front of the rewritten loop's tick, whatever loop it is in. */
  lemma ClosingRuns(env: Env, x: string, bound: Expr, next: int, hi: int, kt: Kont, st: State)
    requires Get(st.vars, x) == next - 1 && 0 < next < U32 && Eval(env, bound, Assign(st, x, next)) == hi
    ensures Steps(env, Config(Closing(x, bound), kt), st, 2)
         == Some(Seen([], Config(if next < hi then [Tick] else [Break, Tick], kt), Assign(st, x, next)))
  {
    var st1 := Assign(st, x, next);
    var c0, c1 := Config(Closing(x, bound), kt), Config([ExitAt(x, bound)] + [Tick], kt);
    assert c0.todo[1..] == c1.todo;
    assert Eval(env, Lit(1), st) == 1 && Eval(env, Var(x), st) == next - 1;
    assert Eval(env, AddU32(Var(x), Lit(1)), st) == next;
    assert Step(env, c0, st) == Move([], c1, st1);
    ExitTaken(env, x, bound, [Tick], kt, st1);
    assert [Break] + [Tick] == [Break, Tick];
    Steps1(env, c1, st1, Config(if next < hi then [Tick] else [Break, Tick], kt), st1);
    StepThen(env, c0, st, c1, st1, 1, Config(if next < hi then [Tick] else [Break, Tick], kt), st1);
  }

  /** A counted loop's exit test. */
  lemma ExitTaken(env: Env, x: string, bound: Expr, rest: Code, kt: Kont, st: State)
    ensures Step(env, Config([ExitAt(x, bound)] + rest, kt), st)
         == Move([], Config(if Get(st.vars, x) < Eval(env, bound, st) then rest else [Break] + rest, kt), st)
  {
    var running := Get(st.vars, x) < Eval(env, bound, st);
    var exit := ExitAt(x, bound);
    assert Eval(env, Var(x), st) == Get(st.vars, x);
    assert Eval(env, Ge(Var(x), bound), st) == if running then 0 else 1;
    assert Eval(env, Not(Ge(Var(x), bound)), st) == if running then 1 else 0;
    assert exit.sel == Not(Ge(Var(x), bound)) && exit.arms == [Arm([Break]), Arm([])];
    BranchTaken(env, exit, rest, kt, st, if running then 1 else 0);
    assert [] + rest == rest;
  }

  lemma BranchTaken(env: Env, s: Stmt, rest: Code, kt: Kont, st: State, i: nat)
    requires s.Branch? && i < |s.arms| && Eval(env, s.sel, st) == i
    ensures Step(env, Config([s] + rest, kt), st) == Move([], Config(s.arms[i].body + rest, kt), st)
  {
    assert ([s] + rest)[1..] == rest;
  }

  /** Past a tick that is not the loop's last, both programs start the next iteration. */
  lemma AgainAfterTick(env: Env, counters: set<string>, k: Kont, ss: State, st: State)
    requires k.InFor? && KontOk(k, counters) && k.next < k.hi && k.next < Eval(env, k.bound, ss) && CountersOk(env, k, ss)
    requires Alike(Off(k.outer, counters), ss, st) && Get(st.vars, k.counter) == k.next
    ensures Settles(env, counters, Config([], k), ss, Config([], Image(k)), st)
  {
    OffWithin(k.outer, counters);
    var p := NextIndex(env, counters, k, ss, st);
    StepThen(env, Config([], Image(k)), st, Config(Image(k).body, Image(k)), st, 1, p.target.cfg, p.target.st);
  }

  /** Past a loop's last tick, the source leaves the loop. */
  lemma LeftAfterTick(env: Env, counters: set<string>, k: Kont, ss: State, ct: Config, st: State)
    requires k.InFor? && k.next >= k.hi && Settles(env, counters, Config(k.after, k.outer), ss, ct, st)
    ensures Settles(env, counters, Config([], k), ss, ct, st)
  {
    var m: nat, n: nat, p: Pair :| Steps(env, Config(k.after, k.outer), ss, m) == Some(p.source)
      && Steps(env, ct, st, n) == Some(p.target) && p.source.log == [] && p.target.log == []
      && Sync(env, counters, p.source.cfg, p.source.st, p.target.cfg, p.target.st);
    StepThen(env, Config([], k), ss, Config(k.after, k.outer), ss, m, p.source.cfg, p.source.st);
  }

  // ----- Cycles and runs --------------------------------------------------------------------------------------------------

  /** Away from a tick, the source's next statement is matched by the rewritten program's. */
  lemma Advances(env: Env, counters: set<string>, cs: Config, ss: State, ct: Config, st: State) returns (m: nat, n: nat, p: Pair)
    requires Sync(env, counters, cs, ss, ct, st) && KeepsPace(env, cs, ss)
    requires !StandsAtTick(cs) && !(cs.k.Module? && cs.todo != [] && cs.todo[0] == Break)
    ensures Advanced(env, counters, cs, ss, ct, st, m, n, p)
  {
    if cs.todo == [] {
      m, n, p := RewindAdvances(env, counters, cs, ss, ct, st);
    } else {
      TodoHead(cs.todo, cs.k, counters);
      m, n := 1, 1;
      match cs.todo[0]
      case Do(_) => p := ActionAdvances(env, counters, cs, ss, ct, st);
      case Branch(_, _) => p := BranchAdvances(env, counters, cs, ss, ct, st);
      case Loop(_) => p := LoopAdvances(env, counters, cs, ss, ct, st);
      case While(_, _) => m, n, p := WhileAdvances(env, counters, cs, ss, ct, st);
      case For(_, _, _, body) =>
        if Unrolled(body) {
          m, n, p := UnrolledAdvances(env, counters, cs, ss, ct, st);
        } else {
          m, n, p := ForAdvances(env, counters, cs, ss, ct, st);
        }
      case Break => p := BreakAdvances(env, counters, cs, ss, ct, st);
      case Continue => p := ContinueAdvances(env, counters, cs, ss, ct, st);
    }
  }

  /** Where the source stands at a tick, the rewritten program reaches one too. */
  lemma TickMatched(env: Env, counters: set<string>, cs: Config, ss: State, ct: Config, st: State, n: nat, o: Seen)
    requires Sync(env, counters, cs, ss, ct, st) && StandsAtTick(cs) && KeepsPace(env, cs, ss)
    requires Steps(env, ct, st, n) == Some(o) && StandsAtTick(o.cfg)
    ensures o.log == [] && Settles(env, counters, Past(cs), Edge(ss), Past(o.cfg), Edge(o.st))
  {
    var after := cs.todo[1..];
    TodoHead(cs.todo, cs.k, counters);
    assert cs.todo == [Tick] + after;
    var j, t := ToTick(env, counters, after, cs.k, ss, st);
    StepsToTickUnique(env, ct, st, n, o, j, t);
  }

  /** A stuck source is a stuck rewritten program. */
  lemma StuckMatched(env: Env, counters: set<string>, cs: Config, ss: State, ct: Config, st: State)
    requires Sync(env, counters, cs, ss, ct, st) && cs.k.Module? && cs.todo != [] && cs.todo[0] == Break
    ensures Step(env, ct, st) == Wrong && !StandsAtTick(ct)
  {
    assert cs.todo == [Break] + cs.todo[1..];
    RestPush(Break, cs.todo[1..], cs.k);
  }

  /** What is left of a run to a tick after its first steps. */
  lemma Remainder(env: Env, ct: Config, st: State, n: nat, o: Seen, j: nat, a: Seen) returns (r: Seen)
    requires Steps(env, ct, st, n) == Some(o) && StandsAtTick(o.cfg) && Steps(env, ct, st, j) == Some(a)
    ensures j <= n && Steps(env, a.cfg, a.st, n - j) == Some(r)
    ensures r.cfg == o.cfg && r.st == o.st && o.log == a.log + r.log
  {
    StepsSplit(env, ct, st, n, o, j, a);
    r := Steps(env, a.cfg, a.st, n - j).value;
  }

  /** Every cycle of the rewritten program is a cycle of the source, driving the same. */
  lemma {:induction false} CycleMatched(env: Env, counters: set<string>, cs: Config, ss: State, ct: Config, st: State, n: nat, o: Seen)
    returns (m: nat, q: Seen)
    requires Sync(env, counters, cs, ss, ct, st) && Paced(env, cs, ss)
    requires Steps(env, ct, st, n) == Some(o) && StandsAtTick(o.cfg)
    ensures Steps(env, cs, ss, m) == Some(q) && StandsAtTick(q.cfg) && q.log == o.log
    ensures Settles(env, counters, Past(q.cfg), Edge(q.st), Past(o.cfg), Edge(o.st))
    decreases n, Size(cs.todo)
  {
    AlwaysNow(KeepsPace, env, cs, ss);
    if StandsAtTick(cs) {
      TickMatched(env, counters, cs, ss, ct, st, n, o);
      m, q := 0, Seen([], cs, ss);
    } else if cs.k.Module? && cs.todo != [] && cs.todo[0] == Break {
      StuckMatched(env, counters, cs, ss, ct, st);
      assert false;
    } else {
      var i, j, p := Advances(env, counters, cs, ss, ct, st);
      m, q := LaterCycleMatched(env, counters, cs, ss, ct, st, n, o, i, j, p);
    }
  }

  lemma {:induction false} LaterCycleMatched(env: Env, counters: set<string>, cs: Config, ss: State, ct: Config, st: State, n: nat, o: Seen,
                                             i: nat, j: nat, p: Pair)
    returns (m: nat, q: Seen)
    requires Advanced(env, counters, cs, ss, ct, st, i, j, p) && Paced(env, cs, ss)
    requires Steps(env, ct, st, n) == Some(o) && StandsAtTick(o.cfg)
    ensures Steps(env, cs, ss, m) == Some(q) && StandsAtTick(q.cfg) && q.log == o.log
    ensures Settles(env, counters, Past(q.cfg), Edge(q.st), Past(o.cfg), Edge(o.st))
    decreases n, Size(cs.todo), 0
  {
    var r := AdvancedRemainder(env, counters, cs, ss, ct, st, n, o, i, j, p);
    var m', q' := CycleMatched(env, counters, p.source.cfg, p.source.st, p.target.cfg, p.target.st, n - j, r);
    m, q := Prefixed(env, cs, ss, i, p.source, m', q');
  }

  /** Both programs' first steps taken, what is left of the rewritten program's cycle. */
  lemma AdvancedRemainder(env: Env, counters: set<string>, cs: Config, ss: State, ct: Config, st: State, n: nat, o: Seen,
                          i: nat, j: nat, p: Pair) returns (r: Seen)
    requires Advanced(env, counters, cs, ss, ct, st, i, j, p) && Paced(env, cs, ss)
    requires Steps(env, ct, st, n) == Some(o) && StandsAtTick(o.cfg)
    ensures j <= n && Steps(env, p.target.cfg, p.target.st, n - j) == Some(r) && Paced(env, p.source.cfg, p.source.st)
    ensures r.cfg == o.cfg && r.st == o.st && o.log == p.source.log + r.log
    ensures n - j < n || Size(p.source.cfg.todo) < Size(cs.todo)
  {
    r := Remainder(env, ct, st, n, o, j, p.target);
    AlwaysSteps(KeepsPace, env, cs, ss, i, p.source);
  }

  lemma Prefixed(env: Env, cs: Config, ss: State, i: nat, a: Seen, m': nat, q': Seen) returns (m: nat, q: Seen)
    requires Steps(env, cs, ss, i) == Some(a) && Steps(env, a.cfg, a.st, m') == Some(q')
    ensures Steps(env, cs, ss, m) == Some(q) && q == Seen(a.log + q'.log, q'.cfg, q'.st)
  {
    StepsCompose(env, cs, ss, i, a, m', q');
    m, q := i + m', Seen(a.log + q'.log, q'.cfg, q'.st);
  }

  /** Both programs in step, what is left of the rewritten program's cycle. */
  lemma SettledTarget(env: Env, counters: set<string>, cs: Config, ss: State, ct: Config, st: State,
                      log: seq<Event>, ct': Config, st': State)
    returns (i: nat, p: Pair, n: nat, r: Seen)
    requires Settles(env, counters, cs, ss, ct, st) && Paced(env, cs, ss) && Cycle(env, ct, st, log, ct', st')
    ensures Steps(env, cs, ss, i) == Some(p.source) && p.source.log == [] && Paced(env, p.source.cfg, p.source.st)
    ensures Sync(env, counters, p.source.cfg, p.source.st, p.target.cfg, p.target.st)
    ensures Steps(env, p.target.cfg, p.target.st, n) == Some(r) && StandsAtTick(r.cfg)
    ensures log == r.log && ct' == Past(r.cfg) && st' == Edge(r.st)
  {
    var j;
    i, j, p := Settling(env, counters, cs, ss, ct, st);
    var m, o := CycleSteps(env, ct, st, log, ct', st');
    r := Remainder(env, ct, st, m, o, j, p.target);
    n := m - j;
    assert [] + r.log == r.log;
    AlwaysSteps(KeepsPace, env, cs, ss, i, p.source);
  }

  lemma SettledCycleMatched(env: Env, counters: set<string>, cs: Config, ss: State, ct: Config, st: State,
                            log: seq<Event>, ct': Config, st': State)
    returns (cs': Config, ss': State)
    requires Settles(env, counters, cs, ss, ct, st) && Paced(env, cs, ss) && Cycle(env, ct, st, log, ct', st')
    ensures Cycle(env, cs, ss, log, cs', ss')
    ensures Settles(env, counters, cs', ss', ct', st') && Paced(env, cs', ss')
  {
    var i, p, n, r := SettledTarget(env, counters, cs, ss, ct, st, log, ct', st');
    var m, q := CycleMatched(env, counters, p.source.cfg, p.source.st, p.target.cfg, p.target.st, n, r);
    SourceCycle(env, cs, ss, i, p.source, m, q);
    cs', ss' := Past(q.cfg), Edge(q.st);
    CycleKeepsPace(env, cs, ss, log, cs', ss');
  }

  lemma Settling(env: Env, counters: set<string>, cs: Config, ss: State, ct: Config, st: State) returns (i: nat, j: nat, p: Pair)
    requires Settles(env, counters, cs, ss, ct, st)
    ensures Steps(env, cs, ss, i) == Some(p.source) && Steps(env, ct, st, j) == Some(p.target)
    ensures p.source.log == [] && p.target.log == [] && Sync(env, counters, p.source.cfg, p.source.st, p.target.cfg, p.target.st)
  {
    i, j, p :| Steps(env, cs, ss, i) == Some(p.source) && Steps(env, ct, st, j) == Some(p.target)
      && p.source.log == [] && p.target.log == [] && Sync(env, counters, p.source.cfg, p.source.st, p.target.cfg, p.target.st);
  }

  lemma CycleSteps(env: Env, ct: Config, st: State, log: seq<Event>, ct': Config, st': State) returns (n: nat, o: Seen)
    requires Cycle(env, ct, st, log, ct', st')
    ensures Steps(env, ct, st, n) == Some(o) && StandsAtTick(o.cfg)
    ensures log == o.log && ct' == Past(o.cfg) && st' == Edge(o.st)
  {
    o :| Reaches(env, ct, st, o) && StandsAtTick(o.cfg) && log == o.log && ct' == Config(o.cfg.todo[1..], o.cfg.k) && st' == Edge(o.st);
    n :| Steps(env, ct, st, n) == Some(o);
  }

  lemma SourceCycle(env: Env, cs: Config, ss: State, i: nat, a: Seen, m: nat, q: Seen)
    requires Steps(env, cs, ss, i) == Some(a) && a.log == []
    requires Steps(env, a.cfg, a.st, m) == Some(q) && StandsAtTick(q.cfg)
    ensures Cycle(env, cs, ss, q.log, Past(q.cfg), Edge(q.st))
  {
    StepsCompose(env, cs, ss, i, a, m, q);
    assert a.log + q.log == q.log;
    CycleBySteps(env, cs, ss, i + m, Seen(q.log, q.cfg, q.st));
  }

  lemma CycleKeepsPace(env: Env, cs: Config, ss: State, log: seq<Event>, cs': Config, ss': State)
    requires Paced(env, cs, ss) && Cycle(env, cs, ss, log, cs', ss')
    ensures Paced(env, cs', ss')
  {
    var m, q := CycleSteps(env, cs, ss, log, cs', ss');
    AlwaysSteps(KeepsPace, env, cs, ss, m, q);
    AlwaysTick(KeepsPace, env, q.cfg, q.st);
  }

  lemma {:induction false} RunsMatched(env: Env, counters: set<string>, cs: Config, ss: State, ct: Config, st: State,
                                       logs: seq<seq<Event>>, ct': Config, st': State)
    returns (cs': Config, ss': State)
    requires Settles(env, counters, cs, ss, ct, st) && Paced(env, cs, ss) && Runs(env, ct, st, logs, ct', st')
    ensures Runs(env, cs, ss, logs, cs', ss') && Settles(env, counters, cs', ss', ct', st')
    decreases |logs|
  {
    if logs == [] {
      cs', ss' := cs, ss;
    } else {
      var mt: Config, sm: State :| Cycle(env, ct, st, logs[0], mt, sm) && Runs(env, mt, sm, logs[1..], ct', st');
      var ms, ssm := SettledCycleMatched(env, counters, cs, ss, ct, st, logs[0], mt, sm);
      cs', ss' := RunsMatched(env, counters, ms, ssm, mt, sm, logs[1..], ct', st');
    }
  }

  // ----- The other direction --------------------------------------------------------------------------------------------------

  /** Every cycle of the source is a cycle of the rewritten program, driving the same. */
  lemma {:induction false} CycleFollowed(env: Env, counters: set<string>, cs: Config, ss: State, ct: Config, st: State, m: nat, q: Seen)
    returns (n: nat, o: Seen)
    requires Sync(env, counters, cs, ss, ct, st) && Paced(env, cs, ss)
    requires Steps(env, cs, ss, m) == Some(q) && StandsAtTick(q.cfg)
    ensures Steps(env, ct, st, n) == Some(o) && StandsAtTick(o.cfg) && q.log == o.log
    ensures Settles(env, counters, Past(q.cfg), Edge(q.st), Past(o.cfg), Edge(o.st))
    decreases m
  {
    AlwaysNow(KeepsPace, env, cs, ss);
    if StandsAtTick(cs) {
      var after := cs.todo[1..];
      TodoHead(cs.todo, cs.k, counters);
      assert cs.todo == [Tick] + after;
      n, o := ToTick(env, counters, after, cs.k, ss, st);
    } else {
      var i, j, p := Advances(env, counters, cs, ss, ct, st);
      var r := Remainder(env, cs, ss, m, q, i, p.source);
      AlwaysSteps(KeepsPace, env, cs, ss, i, p.source);
      var n', o' := CycleFollowed(env, counters, p.source.cfg, p.source.st, p.target.cfg, p.target.st, m - i, r);
      n, o := Prefixed(env, ct, st, j, p.target, n', o');
    }
  }

  lemma SettledCycleFollowed(env: Env, counters: set<string>, cs: Config, ss: State, ct: Config, st: State,
                             log: seq<Event>, cs': Config, ss': State)
    returns (ct': Config, st': State)
    requires Settles(env, counters, cs, ss, ct, st) && Paced(env, cs, ss) && Cycle(env, cs, ss, log, cs', ss')
    ensures Cycle(env, ct, st, log, ct', st')
    ensures Settles(env, counters, cs', ss', ct', st') && Paced(env, cs', ss')
  {
    var i, j, p := Settling(env, counters, cs, ss, ct, st);
    var m, q := CycleSteps(env, cs, ss, log, cs', ss');
    var r := Remainder(env, cs, ss, m, q, i, p.source);
    assert [] + r.log == r.log;
    AlwaysSteps(KeepsPace, env, cs, ss, i, p.source);
    var n, o := CycleFollowed(env, counters, p.source.cfg, p.source.st, p.target.cfg, p.target.st, m - i, r);
    SourceCycle(env, ct, st, j, p.target, n, o);
    ct', st' := Past(o.cfg), Edge(o.st);
    CycleKeepsPace(env, cs, ss, log, cs', ss');
  }

  lemma {:induction false} RunsFollowed(env: Env, counters: set<string>, cs: Config, ss: State, ct: Config, st: State,
                                        logs: seq<seq<Event>>, cs': Config, ss': State)
    returns (ct': Config, st': State)
    requires Settles(env, counters, cs, ss, ct, st) && Paced(env, cs, ss) && Runs(env, cs, ss, logs, cs', ss')
    ensures Runs(env, ct, st, logs, ct', st') && Settles(env, counters, cs', ss', ct', st')
    decreases |logs|
  {
    if logs == [] {
      ct', st' := ct, st;
    } else {
      var ms: Config, sm: State :| Cycle(env, cs, ss, logs[0], ms, sm) && Runs(env, ms, sm, logs[1..], cs', ss');
      var mt, tm := SettledCycleFollowed(env, counters, cs, ss, ct, st, logs[0], ms, sm);
      ct', st' := RunsFollowed(env, counters, ms, sm, mt, tm, logs[1..], cs', ss');
    }
  }

  lemma InStepAtStart(env: Env, body: Code, counters: set<string>, st: State)
    requires Countable(body, counters, {}, false)
    ensures Settles(env, counters, Config(body, Module(body)), st, Config(D(body), Module(D(body))), st)
  {
    var cs, ct := Config(body, Module(body)), Config(D(body), Module(D(body)));
    var p := Pair(Seen([], cs, st), Seen([], ct, st));
    assert Steps(env, cs, st, 0) == Some(p.source) && Steps(env, ct, st, 0) == Some(p.target);
    assert Sync(env, counters, cs, st, ct, st);
  }

  lemma RewrittenRunIsSource(env: Env, body: Code, counters: set<string>, st: State, logs: seq<seq<Event>>, ct': Config, st': State)
    returns (c: Config, s: State)
    requires Countable(body, counters, {}, false) && Paced(env, Config(body, Module(body)), st)
    requires Runs(env, Config(Desugar(body), Module(Desugar(body))), st, logs, ct', st')
    ensures Runs(env, Config(body, Module(body)), st, logs, c, s) && Alike(counters, s, st')
  {
    DesugarIsD(body);
    InStepAtStart(env, body, counters, st);
    c, s := RunsMatched(env, counters, Config(body, Module(body)), st, Config(D(body), Module(D(body))), st, logs, ct', st');
  }

  /** The rewrites preserve behaviour: the source and the rewritten loop have the same
    * runs, cycle by cycle, and their stores differ at most in loop counters. Counted loops
    * may nest: each body runs once per index, in order, and in the cycles the source runs
    * it in.
    */
  lemma DesugarPreservesBehaviour(env: Env, body: Code, counters: set<string>, st: State, logs: seq<seq<Event>>)
    requires Countable(body, counters, {}, false) && Paced(env, Config(body, Module(body)), st)
    ensures var source, target := Config(body, Module(body)), Config(Desugar(body), Module(Desugar(body)));
      && ((exists c: Config, s: State :: Runs(env, source, st, logs, c, s)) <==>
          (exists c: Config, s: State :: Runs(env, target, st, logs, c, s)))
      && forall c: Config, s: State, c': Config, s': State ::
           Runs(env, source, st, logs, c, s) && Runs(env, target, st, logs, c', s') ==> Alike(counters, s, s')
  {
    DesugarIsD(body);
    var source, target := Config(body, Module(body)), Config(D(body), Module(D(body)));
    InStepAtStart(env, body, counters, st);
    if c: Config, s: State :| Runs(env, source, st, logs, c, s) {
      var c', s' := RunsFollowed(env, counters, source, st, target, st, logs, c, s);
      assert Runs(env, target, st, logs, c', s');
      forall a: Config, x: State, b: Config, y: State | Runs(env, source, st, logs, a, x) && Runs(env, target, st, logs, b, y)
        ensures Alike(counters, x, y)
      {
        RunsDeterministic(env, source, st, logs, a, x, logs, c, s);
        RunsDeterministic(env, target, st, logs, b, y, logs, c', s');
      }
    }
    if c': Config, s': State :| Runs(env, target, st, logs, c', s') {
      var c, s := RewrittenRunIsSource(env, body, counters, st, logs, c', s');
      assert Runs(env, source, st, logs, c, s);
    }
  }
}
