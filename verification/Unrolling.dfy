/** Work that takes no time and always comes to its end: what a state body keeps as it
  * stands, counted loops without a tick included.
  */
module Unrolling {
  import opened Syntax
  import opened Semantics
  import opened Scoping

  predicate Going(next: Next) {
    !next.Jump? && !next.Stuck?
  }

  // ----- The source steps through it in place --------------------------------------------------

  /** The source gets from `cfg` to `end` doing what `r` did. */
  ghost predicate Arrives(env: Env, cfg: Config, st: State, r: Ran, end: Config) {
    Reaches(env, cfg, st, Seen(r.log, end, r.st))
  }

  lemma ArrivesByStep(env: Env, cfg: Config, st: State, mid: Config, st': State, r: Ran, end: Config)
    requires Step(env, cfg, st) == Move([], mid, st') && Arrives(env, mid, st', r, end)
    ensures Arrives(env, cfg, st, r, end)
  {
    ReachesByStep(env, cfg, st, Seen(r.log, end, r.st));
    assert [] + r.log == r.log;
  }

  lemma ArrivesThen(env: Env, cfg: Config, st: State, a: Ran, mid: Config, r: Ran, end: Config)
    requires Arrives(env, cfg, st, a, mid) && Arrives(env, mid, a.st, r, end)
    ensures Arrives(env, cfg, st, r.(log := a.log + r.log), end)
  {
    ReachesCompose(env, cfg, st, Seen(a.log, mid, a.st), Seen(r.log, end, r.st));
  }

  /** Whatever a user can write that runs to its end as part of a state body, the source
    * runs to its end in place, whatever stands behind it.
    */
  lemma {:induction false} WrittenRuns(env: Env, s: seq<Stmt>, st: State, next: Next, rest: seq<Stmt>, k: Kont)
    requires Written(s) && Going(next) && Going(Exec(env, s, st, next).next)
    ensures var r := Exec(env, s, st, next); r.next == next && Arrives(env, Config(s + rest, k), st, r, Config(rest, k))
    decreases Size(s), 1, 0
  {
    var cfg, r := Config(s + rest, k), Exec(env, s, st, next);
    if s == [] {
      assert s + rest == rest;
      ReachesSelf(env, cfg, st);
    } else {
      var tail := s[1..];
      assert (s + rest)[1..] == tail + rest && Size(s) == StmtSize(s[0]) + Size(tail) && WrittenStmt(s[0]);
      if s[0].Do? {
        var st' := Perform(env, s[0].action, st);
        WrittenRuns(env, tail, st', next, rest, k);
        var t := Exec(env, tail, st', next);
        ReachesByStep(env, cfg, st, Seen(t.log, Config(rest, k), t.st));
      } else {
        ExecStarts(env, s, st, next);
        HeadRuns(env, s[0], st, next, tail + rest, k);
        var a := Exec(env, [s[0]], st, next);
        ExecHead(env, s, st, next);
        WrittenRuns(env, tail, a.st, next, rest, k);
        assert [s[0]] + (tail + rest) == s + rest;
        ArrivesThen(env, cfg, st, a, Config(tail + rest, k), Exec(env, tail, a.st, next), Config(rest, k));
      }
    }
  }

  /** A list that runs to its end starts with a statement that does. */
  lemma ExecStarts(env: Env, s: seq<Stmt>, st: State, next: Next)
    requires s != [] && Going(next) && Going(Exec(env, s, st, next).next) && WrittenStmt(s[0])
    ensures s[0].Do? || s[0].Branch? || s[0].For?
    ensures Going(Exec(env, [s[0]], st, next).next)
  {
    assert [s[0]][1..] == [];
  }

  lemma {:induction false} HeadRuns(env: Env, s: Stmt, st: State, next: Next, rest: seq<Stmt>, k: Kont)
    requires WrittenStmt(s) && (s.Branch? || s.For?) && Going(next) && Going(Exec(env, [s], st, next).next)
    ensures var r := Exec(env, [s], st, next); r.next == next && Arrives(env, Config([s] + rest, k), st, r, Config(rest, k))
    decreases StmtSize(s), 0, 0
  {
    var cfg := Config([s] + rest, k);
    assert cfg.todo[1..] == rest && [s][1..] == [];
    match s
    case Branch(sel, arms) =>
      var i := Pick(env, sel, |arms|, st);
      ArmSizeBound(arms, i);
      ArmWritten(arms, i);
      WrittenRuns(env, arms[i].body, st, next, rest, k);
      var a := Exec(env, arms[i].body, st, next);
      ArrivesByStep(env, cfg, st, Config(arms[i].body + rest, k), st, a, Config(rest, k));
      assert a.log + [] == a.log;
    case For(x, lo, hi, body) =>
      var i, n := Eval(env, lo, st), Eval(env, hi, st);
      RepeatRuns(env, x, hi, i, n, body, st, next, rest, k);
      var a := Repeat(env, x, i, n, body, st, next);
      ArrivesByStep(env, cfg, st, Config([], InFor(x, hi, i, n, body, rest, k)), st, a, Config(rest, k));
      assert a.log + [] == a.log;
  }

  lemma {:induction false} RepeatRuns(env: Env, x: string, bound: Expr, i: int, hi: int, body: seq<Stmt>, st: State,
                                      next: Next, rest: seq<Stmt>, k: Kont)
    requires Written(body) && Going(next) && Going(Repeat(env, x, i, hi, body, st, next).next)
    ensures var r := Repeat(env, x, i, hi, body, st, next);
      r.next == next && Arrives(env, Config([], InFor(x, bound, i, hi, body, rest, k)), st, r, Config(rest, k))
    decreases Size(body), 2, if i < hi then hi - i else 0
  {
    var here := Config([], InFor(x, bound, i, hi, body, rest, k));
    var r := Repeat(env, x, i, hi, body, st, next);
    if i >= hi {
      ReachesSelf(env, Config(rest, k), st);
      ArrivesByStep(env, here, st, Config(rest, k), st, r, Config(rest, k));
    } else {
      var st', k' := Assign(st, x, i), InFor(x, bound, i + 1, hi, body, rest, k);
      WrittenRuns(env, body, st', next, [], k');
      assert body + [] == body;
      var a := Exec(env, body, st', next);
      RepeatRuns(env, x, bound, i + 1, hi, body, a.st, next, rest, k);
      ArrivesThen(env, Config(body, k'), st', a, Config([], k'), Repeat(env, x, i + 1, hi, body, a.st, next), Config(rest, k));
      ArrivesByStep(env, here, st, Config(body, k'), st', r, Config(rest, k));
    }
  }

  /** A list that unrolls always runs to its end, and does not touch where the state goes next. */
  lemma {:induction false} UnrolledEnds(env: Env, s: seq<Stmt>, st: State, next: Next)
    requires Unrolled(s) && Going(next)
    ensures Exec(env, s, st, next).next == next
    decreases s, 0, 0
  {
    if s != [] {
      assert UnrolledStmt(s[0]);
      match s[0]
      case Do(act) => UnrolledEnds(env, s[1..], Perform(env, act, st), next);
      case Branch(sel, arms) =>
        var i := Pick(env, sel, |arms|, st);
        ArmUnrolled(arms, i);
        UnrolledEnds(env, arms[i].body, st, next);
        UnrolledEnds(env, s[1..], Exec(env, arms[i].body, st, next).st, next);
      case For(x, lo, hi, body) =>
        var i, n := Eval(env, lo, st), Eval(env, hi, st);
        RepeatEnds(env, x, i, n, body, st, next);
        UnrolledEnds(env, s[1..], Repeat(env, x, i, n, body, st, next).st, next);
    }
  }

  lemma {:induction false} RepeatEnds(env: Env, x: string, i: int, hi: int, body: seq<Stmt>, st: State, next: Next)
    requires Unrolled(body) && Going(next)
    ensures Repeat(env, x, i, hi, body, st, next).next == next
    decreases body, 1, if i < hi then hi - i else 0
  {
    if i < hi {
      UnrolledEnds(env, body, Assign(st, x, i), next);
      RepeatEnds(env, x, i + 1, hi, body, Exec(env, body, Assign(st, x, i), next).st, next);
    }
  }

  lemma UnrolledRuns(env: Env, s: seq<Stmt>, st: State, next: Next, rest: seq<Stmt>, k: Kont)
    requires Unrolled(s) && Going(next)
    ensures var r := Exec(env, s, st, next); r.next == next && Arrives(env, Config(s + rest, k), st, r, Config(rest, k))
  {
    UnrolledWritten(s);
    UnrolledEnds(env, s, st, next);
    WrittenRuns(env, s, st, next, rest, k);
  }

  lemma {:induction false} UnrolledWritten(s: seq<Stmt>)
    requires Unrolled(s)
    ensures Written(s)
    decreases s
  {
    if s != [] {
      UnrolledWritten(s[1..]);
      assert UnrolledStmt(s[0]);
      match s[0]
      case Branch(_, arms) => ArmsUnrolledWritten(arms);
      case For(_, _, _, body) => UnrolledWritten(body);
      case _ =>
    }
  }

  lemma {:induction false} ArmsUnrolledWritten(arms: seq<Arm>)
    requires ArmsUnrolled(arms)
    ensures ArmsWritten(arms)
    decreases arms
  {
    if arms != [] {
      UnrolledWritten(arms[0].body);
      ArmsUnrolledWritten(arms[1..]);
    }
  }

  /** Running a list is running its head and then the rest. */
  lemma ExecHead(env: Env, s: seq<Stmt>, st: State, next: Next)
    requires s != [] && Going(Exec(env, [s[0]], st, next).next) && Going(next)
    requires s[0].Do? || s[0].Branch? || s[0].For?
    ensures var a := Exec(env, [s[0]], st, next);
      var r := Exec(env, s[1..], a.st, a.next);
      Exec(env, s, st, next) == r.(log := a.log + r.log)
  {
    assert [s[0]][1..] == [];
    match s[0]
    case Do(a) =>
      assert Emit(env, a, st) + [] == Emit(env, a, st);
    case Branch(sel, arms) =>
      var a := Exec(env, arms[Pick(env, sel, |arms|, st)].body, st, next);
      assert a.log + [] == a.log;
    case For(x, lo, hi, body) =>
      var a := Repeat(env, x, Eval(env, lo, st), Eval(env, hi, st), body, st, next);
      assert a.log + [] == a.log;
  }

  // ----- It sees only the names it mentions -------------------------------------------------------

  predicate Agree(scope: set<string>, a: State, b: State) {
    a.cycle == b.cycle && forall x <- scope :: Get(a.vars, x) == Get(b.vars, x)
  }

  lemma {:induction false} EvalAgrees(env: Env, e: Expr, scope: set<string>, a: State, b: State)
    requires Reads(e) <= scope && Agree(scope, a, b)
    ensures Eval(env, e, a) == Eval(env, e, b)
  {
    match e
    case Not(x) => EvalAgrees(env, x, scope, a, b);
    case AddU32(x, y) => EvalAgrees(env, x, scope, a, b); EvalAgrees(env, y, scope, a, b);
    case Ge(x, y) => EvalAgrees(env, x, scope, a, b); EvalAgrees(env, y, scope, a, b);
    case Apply(_, x, y) => EvalAgrees(env, x, scope, a, b); EvalAgrees(env, y, scope, a, b);
    case _ =>
  }

  lemma {:induction false} ArmMentions(arms: seq<Arm>, i: nat)
    requires i < |arms|
    ensures Mentions(arms[i].body) <= ArmsMention(arms)
  {
    if i > 0 {
      ArmMentions(arms[1..], i - 1);
    }
  }

  /** From stores that agree on every name the code mentions it does the same, and leaves
    * stores that agree on them and on every other name they agreed on.
    */
  lemma {:induction false} ExecAgrees(env: Env, s: seq<Stmt>, names: set<string>, a: State, b: State, next: Next)
    requires Mentions(s) <= names && Agree(names, a, b)
    ensures var r, r' := Exec(env, s, a, next), Exec(env, s, b, next);
      r.log == r'.log && r.next == r'.next && Agree(names, r.st, r'.st)
    decreases s, 1
  {
    if s != [] {
      assert StmtMentions(s[0]) <= names;
      match s[0]
      case Do(act) =>
        EvalAgrees(env, ActionExpr(act), names, a, b);
        ExecAgrees(env, s[1..], names, Perform(env, act, a), Perform(env, act, b), next);
      case SetPc(n) => ExecAgrees(env, s[1..], names, a, b, Pc(n));
      case Branch(_, _) => BranchAgrees(env, s, names, a, b, next);
      case For(x, lo, hi, body) =>
        EvalAgrees(env, lo, names, a, b);
        EvalAgrees(env, hi, names, a, b);
        var i, n := Eval(env, lo, a), Eval(env, hi, a);
        RepeatAgrees(env, x, i, n, body, names, a, b, next);
        var u, v := Repeat(env, x, i, n, body, a, next), Repeat(env, x, i, n, body, b, next);
        ExecAgrees(env, s[1..], names, u.st, v.st, u.next);
      case _ =>
    }
  }

  lemma {:induction false} BranchAgrees(env: Env, s: seq<Stmt>, names: set<string>, a: State, b: State, next: Next)
    requires s != [] && s[0].Branch? && Mentions(s) <= names && Agree(names, a, b)
    ensures var r, r' := Exec(env, s, a, next), Exec(env, s, b, next);
      r.log == r'.log && r.next == r'.next && Agree(names, r.st, r'.st)
    decreases s, 0
  {
    var sel, arms := s[0].sel, s[0].arms;
    assert StmtMentions(s[0]) <= names;
    EvalAgrees(env, sel, names, a, b);
    if arms != [] {
      var i := Pick(env, sel, |arms|, a);
      ArmMentions(arms, i);
      ExecAgrees(env, arms[i].body, names, a, b, next);
      var x, y := Exec(env, arms[i].body, a, next), Exec(env, arms[i].body, b, next);
      ExecAgrees(env, s[1..], names, x.st, y.st, x.next);
    }
  }

  lemma {:induction false} RepeatAgrees(env: Env, x: string, i: int, hi: int, body: seq<Stmt>, names: set<string>,
                                        a: State, b: State, next: Next)
    requires Mentions(body) <= names && Agree(names, a, b)
    ensures var r, r' := Repeat(env, x, i, hi, body, a, next), Repeat(env, x, i, hi, body, b, next);
      r.log == r'.log && r.next == r'.next && Agree(names, r.st, r'.st)
    decreases body, 2, if i < hi then hi - i else 0
  {
    if i < hi {
      var a', b' := Assign(a, x, i), Assign(b, x, i);
      ExecAgrees(env, body, names, a', b', next);
      var u, v := Exec(env, body, a', next), Exec(env, body, b', next);
      RepeatAgrees(env, x, i + 1, hi, body, names, u.st, v.st, u.next);
    }
  }

  // ----- It changes only the names it assigns -------------------------------------------------------

  /** The names a list assigns or declares, loop counters included. */
  function Assigns(stmts: seq<Stmt>): set<string>
    decreases stmts
  {
    if stmts == [] then {} else StmtAssigns(stmts[0]) + Assigns(stmts[1..])
  }

  function StmtAssigns(s: Stmt): set<string>
    decreases s
  {
    match s
    case Do(a) => if a.Drive? then {} else {a.name}
    case Branch(_, arms) => ArmsAssign(arms)
    case Loop(body) => Assigns(body)
    case While(_, body) => Assigns(body)
    case For(x, _, _, body) => {x} + Assigns(body)
    case _ => {}
  }

  function ArmsAssign(arms: seq<Arm>): set<string>
    decreases arms
  {
    if arms == [] then {} else Assigns(arms[0].body) + ArmsAssign(arms[1..])
  }

  /** The statement itself gives the name a value: it declares or assigns it, or counts with it. */
  predicate Gives(s: Stmt, x: string) {
    (s.Do? && !s.action.Drive? && s.action.name == x) || (s.For? && s.counter == x)
  }

  /** A list assigns exactly what its statements give a value to. */
  lemma {:induction false} AssignsIff(stmts: seq<Stmt>, x: string)
    ensures x in Assigns(stmts) <==> exists s <- Everywhere(stmts) :: Gives(s, x)
    decreases stmts, 1
  {
    if stmts != [] {
      StmtAssignsIff(stmts[0], x);
      AssignsIff(stmts[1..], x);
      assert Everywhere(stmts) == {stmts[0]} + Inside(stmts[0]) + Everywhere(stmts[1..]);
    }
  }

  lemma {:induction false} StmtAssignsIff(s: Stmt, x: string)
    ensures x in StmtAssigns(s) <==> Gives(s, x) || exists y <- Inside(s) :: Gives(y, x)
    decreases s, 0
  {
    match s
    case Branch(_, arms) => ArmsAssignIff(arms, x);
    case Loop(body) => AssignsIff(body, x);
    case While(_, body) => AssignsIff(body, x);
    case For(_, _, _, body) => AssignsIff(body, x);
    case _ =>
  }

  lemma {:induction false} ArmsAssignIff(arms: seq<Arm>, x: string)
    ensures x in ArmsAssign(arms) <==> exists s <- InsideArms(arms) :: Gives(s, x)
    decreases arms, 0
  {
    if arms != [] {
      AssignsIff(arms[0].body, x);
      ArmsAssignIff(arms[1..], x);
      assert InsideArms(arms) == Everywhere(arms[0].body) + InsideArms(arms[1..]);
    }
  }

  lemma OneStatement(s: Stmt)
    ensures Mentions([s]) == StmtMentions(s) && Assigns([s]) == StmtAssigns(s)
  {
    var rest := [s][1..];
    assert rest == [] && Mentions(rest) == {} && Assigns(rest) == {};
  }

  lemma {:induction false} ArmAssigns(arms: seq<Arm>, i: nat)
    requires i < |arms|
    ensures Assigns(arms[i].body) <= ArmsAssign(arms)
  {
    if i > 0 {
      ArmAssigns(arms[1..], i - 1);
    }
  }

  lemma {:induction false} ExecKeeps(env: Env, s: seq<Stmt>, st: State, next: Next, x: string)
    requires x !in Assigns(s)
    ensures var r := Exec(env, s, st, next); r.st.cycle == st.cycle && Get(r.st.vars, x) == Get(st.vars, x)
    decreases s, 0, 0
  {
    if s != [] {
      match s[0]
      case Do(act) => ExecKeeps(env, s[1..], Perform(env, act, st), next, x);
      case SetPc(n) => ExecKeeps(env, s[1..], st, Pc(n), x);
      case Branch(sel, arms) =>
        if arms != [] {
          var i := Pick(env, sel, |arms|, st);
          ArmAssigns(arms, i);
          ExecKeeps(env, arms[i].body, st, next, x);
          var a := Exec(env, arms[i].body, st, next);
          ExecKeeps(env, s[1..], a.st, a.next, x);
        }
      case For(y, lo, hi, body) =>
        var i, n := Eval(env, lo, st), Eval(env, hi, st);
        RepeatKeeps(env, y, i, n, body, st, next, x);
        var a := Repeat(env, y, i, n, body, st, next);
        ExecKeeps(env, s[1..], a.st, a.next, x);
      case _ =>
    }
  }

  lemma {:induction false} RepeatKeeps(env: Env, y: string, i: int, hi: int, body: seq<Stmt>, st: State, next: Next, x: string)
    requires x !in Assigns(body) && x != y
    ensures var r := Repeat(env, y, i, hi, body, st, next); r.st.cycle == st.cycle && Get(r.st.vars, x) == Get(st.vars, x)
    decreases body, 1, if i < hi then hi - i else 0
  {
    if i < hi {
      var st' := Assign(st, y, i);
      ExecKeeps(env, body, st', next, x);
      var a := Exec(env, body, st', next);
      RepeatKeeps(env, y, i + 1, hi, body, a.st, a.next, x);
    }
  }
}
