/** How long a counted loop takes: as many cycles as its range has indices, times what its
  * body takes, before and after the rewrite.
  */
module Counting {
  import opened Syntax
  import opened Semantics
  import opened Lowering
  import opened Scoping
  import opened Unrolling
  import opened Desugaring
  import opened DesugarSimulation

  /** Ticks, work that takes no time, and counted loops over literal ranges of the same,
    * which leave their counter alone.
    */
  predicate Metered(stmts: Code)
    decreases stmts
  {
    stmts != [] ==> MeteredStmt(stmts[0]) && Metered(stmts[1..])
  }

  predicate MeteredStmt(s: Stmt)
    decreases s
  {
    match s
    case Tick => true
    case For(x, lo, hi, body) => Unrolled(body) || (lo.Lit? && hi.Lit? && x !in Assigns(body) && Metered(body))
    case _ => UnrolledStmt(s)
  }

  /** The number of indices in a range. */
  function Indices(lo: int, hi: int): nat {
    if lo < hi then hi - lo else 0
  }

  /** The cycles one pass through the list takes. */
  function CyclesOf(stmts: Code): nat
    requires Metered(stmts)
    decreases stmts
  {
    if stmts == [] then 0 else StmtCycles(stmts[0]) + CyclesOf(stmts[1..])
  }

  function StmtCycles(s: Stmt): nat
    requires MeteredStmt(s)
    decreases s
  {
    match s
    case Tick => 1
    case For(x, lo, hi, body) => if Unrolled(body) then 0 else Indices(lo.value, hi.value) * CyclesOf(body)
    case _ => 0
  }

  /** Whole cycles, then what is driven after the last of them and where that begins. */
  datatype Trip = Trip(logs: seq<seq<Event>>, cfg: Config, st: State, log: seq<Event>)

  /** The trip leads from one point to another: its cycles, and then no time. */
  ghost predicate Leads(env: Env, cfg: Config, st: State, t: Trip, end: Config, st': State) {
    Runs(env, cfg, st, t.logs, t.cfg, t.st) && Reaches(env, t.cfg, t.st, Seen(t.log, end, st'))
  }

  /** A trip that takes no time. */
  lemma AtOnce(env: Env, cfg: Config, st: State, o: Seen) returns (t: Trip)
    requires Reaches(env, cfg, st, o)
    ensures t.logs == [] && Leads(env, cfg, st, t, o.cfg, o.st)
  {
    t := Trip([], cfg, st, o.log);
  }

  lemma CycleLater(env: Env, cfg: Config, st: State, a: Seen, log: seq<Event>, mid: Config, sm: State)
    requires Reaches(env, cfg, st, a) && Cycle(env, a.cfg, a.st, log, mid, sm)
    ensures Cycle(env, cfg, st, a.log + log, mid, sm)
  {
    var o: Seen :| Reaches(env, a.cfg, a.st, o) && StandsAtTick(o.cfg)
      && log == o.log && mid == Config(o.cfg.todo[1..], o.cfg.k) && sm == Edge(o.st);
    ReachesCompose(env, cfg, st, a, o);
  }

  /** Time taken in front of a cycle counts into it. */
  lemma Later(env: Env, cfg: Config, st: State, a: Seen, b: Trip, end: Config, st': State) returns (t: Trip)
    requires Reaches(env, cfg, st, a) && Leads(env, a.cfg, a.st, b, end, st')
    ensures |t.logs| == |b.logs| && Leads(env, cfg, st, t, end, st')
  {
    if b.logs == [] {
      ReachesCompose(env, cfg, st, a, Seen(b.log, end, st'));
      t := Trip([], cfg, st, a.log + b.log);
    } else {
      var mid, sm := FirstOf(env, a.cfg, a.st, b.logs, b.cfg, b.st);
      CycleLater(env, cfg, st, a, b.logs[0], mid, sm);
      t := b.(logs := [a.log + b.logs[0]] + b.logs[1..]);
      assert t.logs[1..] == b.logs[1..];
      RunsCons(env, cfg, st, t.logs, mid, sm, b.cfg, b.st);
    }
  }

  lemma FirstOf(env: Env, cfg: Config, st: State, logs: seq<seq<Event>>, c: Config, s: State) returns (mid: Config, sm: State)
    requires logs != [] && Runs(env, cfg, st, logs, c, s)
    ensures Cycle(env, cfg, st, logs[0], mid, sm) && Runs(env, mid, sm, logs[1..], c, s)
  {
    mid, sm :| Cycle(env, cfg, st, logs[0], mid, sm) && Runs(env, mid, sm, logs[1..], c, s);
  }

  lemma RunsCons(env: Env, cfg: Config, st: State, all: seq<seq<Event>>, mid: Config, sm: State, c: Config, s: State)
    requires all != [] && Cycle(env, cfg, st, all[0], mid, sm) && Runs(env, mid, sm, all[1..], c, s)
    ensures Runs(env, cfg, st, all, c, s)
  {
  }

  lemma JoinedHead<T>(a: seq<T>, b: seq<T>, all: seq<T>)
    requires a != [] && all == a + b
    ensures all != [] && all[0] == a[0] && all[1..] == a[1..] + b
  {
  }

  lemma {:induction false} RunsJoin(env: Env, cfg: Config, st: State, a: seq<seq<Event>>, mid: Config, sm: State,
                                    b: seq<seq<Event>>, c: Config, s: State, all: seq<seq<Event>>)
    requires Runs(env, cfg, st, a, mid, sm) && Runs(env, mid, sm, b, c, s) && all == a + b
    ensures Runs(env, cfg, st, all, c, s)
    decreases |a|
  {
    if a == [] {
      assert all == b;
    } else {
      var m, x := FirstOf(env, cfg, st, a, mid, sm);
      JoinedHead(a, b, all);
      RunsJoin(env, m, x, a[1..], mid, sm, b, c, s, all[1..]);
      RunsCons(env, cfg, st, all, m, x, c, s);
    }
  }

  /** One trip after the other. */
  lemma Then(env: Env, cfg: Config, st: State, a: Trip, mid: Config, sm: State, b: Trip, end: Config, st': State) returns (t: Trip)
    requires Leads(env, cfg, st, a, mid, sm) && Leads(env, mid, sm, b, end, st')
    ensures |t.logs| == |a.logs| + |b.logs| && Leads(env, cfg, st, t, end, st')
  {
    var rest := Later(env, a.cfg, a.st, Seen(a.log, mid, sm), b, end, st');
    RunsJoin(env, cfg, st, a.logs, a.cfg, a.st, rest.logs, rest.cfg, rest.st, a.logs + rest.logs);
    t := rest.(logs := a.logs + rest.logs);
  }

  /** Only the names a list assigns may change. */
  ghost predicate Keeps(names: set<string>, a: State, b: State) {
    forall x: string :: x !in names ==> Get(b.vars, x) == Get(a.vars, x)
  }

  /** One pass through a metered list, whatever stands behind it. */
  lemma {:induction false} MeteredTakes(env: Env, s: Code, rest: Code, k: Kont, st: State) returns (st': State, t: Trip)
    requires Metered(s)
    ensures |t.logs| == CyclesOf(s) && Leads(env, Config(s + rest, k), st, t, Config(rest, k), st') && Keeps(Assigns(s), st, st')
    decreases Size(s), 1, 0
  {
    var cfg := Config(s + rest, k);
    if s == [] {
      assert s + rest == rest;
      ReachesSelf(env, cfg, st);
      st' := st;
      t := AtOnce(env, cfg, st, Seen([], cfg, st));
    } else {
      var tail := s[1..];
      assert (s + rest)[1..] == tail + rest && s + rest == [s[0]] + (tail + rest) && Size(s) == StmtSize(s[0]) + Size(tail);
      var mid, a := HeadTakes(env, s[0], tail + rest, k, st);
      var b;
      st', b := MeteredTakes(env, tail, rest, k, mid);
      t := Then(env, cfg, st, a, Config(tail + rest, k), mid, b, Config(rest, k), st');
    }
  }

  lemma {:induction false} HeadTakes(env: Env, s: Stmt, rest: Code, k: Kont, st: State) returns (st': State, t: Trip)
    requires MeteredStmt(s)
    ensures |t.logs| == StmtCycles(s) && Leads(env, Config([s] + rest, k), st, t, Config(rest, k), st') && Keeps(StmtAssigns(s), st, st')
    decreases StmtSize(s), 0, 0
  {
    var cfg := Config([s] + rest, k);
    assert cfg.todo[1..] == rest;
    if s.Tick? {
      st' := Edge(st);
      t := OneCycle(env, cfg, st);
    } else if s.For? && !Unrolled(s.body) {
      st', t := LoopTakes(env, s, rest, k, st);
    } else {
      assert UnrolledStmt(s) && [s][1..] == [] && Unrolled([s]);
      OneStatement(s);
      UnrolledRuns(env, [s], st, Hold, rest, k);
      var r := Exec(env, [s], st, Hold);
      st' := r.st;
      t := AtOnce(env, cfg, st, Seen(r.log, Config(rest, k), r.st));
      forall x: string | x !in StmtAssigns(s) ensures Get(st'.vars, x) == Get(st.vars, x) {
        ExecKeeps(env, [s], st, Hold, x);
      }
    }
  }

  lemma OneCycle(env: Env, cfg: Config, st: State) returns (t: Trip)
    requires StandsAtTick(cfg)
    ensures |t.logs| == 1 && Leads(env, cfg, st, t, Config(cfg.todo[1..], cfg.k), Edge(st))
  {
    var past := Config(cfg.todo[1..], cfg.k);
    t := Trip([[]], past, Edge(st), []);
    assert Steps(env, cfg, st, 0) == Some(Seen([], cfg, st));
    CycleBySteps(env, cfg, st, 0, Seen([], cfg, st));
    assert t.logs[1..] == [] && Runs(env, past, Edge(st), [], past, Edge(st));
    ReachesSelf(env, past, Edge(st));
  }

  /** Before index `i` of a counted loop: the point at which the source hands it out. */
  function Before(f: Stmt, i: int, hi: int, rest: Code, k: Kont): Config
    requires f.For?
  {
    Config([], InFor(f.counter, f.hi, i, hi, f.body, rest, k))
  }

  lemma {:induction false} IterationTakes(env: Env, f: Stmt, i: int, hi: int, rest: Code, k: Kont, st: State) returns (st': State, t: Trip)
    requires f.For? && Metered(f.body) && f.counter !in Assigns(f.body) && i < hi
    ensures |t.logs| == CyclesOf(f.body) && Leads(env, Before(f, i, hi, rest, k), st, t, Before(f, i + 1, hi, rest, k), st')
    ensures Get(st'.vars, f.counter) == i && Keeps(StmtAssigns(f), st, st')
    decreases Size(f.body), 2, 0
  {
    var st1, k1 := Assign(st, f.counter, i), Before(f, i + 1, hi, rest, k).k;
    var a;
    st', a := MeteredTakes(env, f.body, [], k1, st1);
    assert f.body + [] == f.body;
    Steps1(env, Before(f, i, hi, rest, k), st, Config(f.body, k1), st1);
    t := Later(env, Before(f, i, hi, rest, k), st, Seen([], Config(f.body, k1), st1), a, Config([], k1), st');
    assert Get(st1.vars, f.counter) == i;
  }

  /** `j` indices, in order: `j` passes later the loop is about to hand out the index
    * `j` places on, and its counter holds the one before.
    */
  lemma {:induction false} IndicesTake(env: Env, f: Stmt, lo: int, hi: int, j: nat, rest: Code, k: Kont, st: State)
    returns (st': State, t: Trip)
    requires f.For? && Metered(f.body) && f.counter !in Assigns(f.body) && j <= Indices(lo, hi)
    ensures |t.logs| == j * CyclesOf(f.body) && Leads(env, Before(f, lo, hi, rest, k), st, t, Before(f, lo + j, hi, rest, k), st')
    ensures (j > 0 ==> Get(st'.vars, f.counter) == lo + j - 1) && Keeps(StmtAssigns(f), st, st')
    decreases Size(f.body), 3, j
  {
    var start := Before(f, lo, hi, rest, k);
    if j == 0 {
      st' := st;
      ReachesSelf(env, start, st);
      t := AtOnce(env, start, st, Seen([], start, st));
    } else {
      var mid, a := IndicesTake(env, f, lo, hi, j - 1, rest, k, st);
      st', t := OneIndexMore(env, f, lo, hi, j, rest, k, st, mid, a);
    }
  }

  lemma {:induction false} OneIndexMore(env: Env, f: Stmt, lo: int, hi: int, j: nat, rest: Code, k: Kont, st: State, mid: State, a: Trip)
    returns (st': State, t: Trip)
    requires f.For? && Metered(f.body) && f.counter !in Assigns(f.body) && 0 < j <= Indices(lo, hi)
    requires |a.logs| == (j - 1) * CyclesOf(f.body) && Keeps(StmtAssigns(f), st, mid)
    requires Leads(env, Before(f, lo, hi, rest, k), st, a, Before(f, lo + j - 1, hi, rest, k), mid)
    ensures |t.logs| == j * CyclesOf(f.body) && Leads(env, Before(f, lo, hi, rest, k), st, t, Before(f, lo + j, hi, rest, k), st')
    ensures Get(st'.vars, f.counter) == lo + j - 1 && Keeps(StmtAssigns(f), st, st')
    decreases Size(f.body), 2, 1
  {
    var here, b := Before(f, lo + j - 1, hi, rest, k), a;
    st', b := IterationTakes(env, f, lo + j - 1, hi, rest, k, mid);
    OnceMore(j, CyclesOf(f.body));
    t := Then(env, Before(f, lo, hi, rest, k), st, a, here, mid, b, Before(f, lo + j, hi, rest, k), st');
  }

  lemma OnceMore(j: nat, c: nat)
    requires j > 0
    ensures (j - 1) * c + c == j * c
  {
  }

  lemma {:induction false} LoopTakes(env: Env, f: Stmt, rest: Code, k: Kont, st: State) returns (st': State, t: Trip)
    requires f.For? && Metered(f.body) && f.counter !in Assigns(f.body)
    ensures |t.logs| == Indices(Eval(env, f.lo, st), Eval(env, f.hi, st)) * CyclesOf(f.body)
    ensures Leads(env, Config([f] + rest, k), st, t, Config(rest, k), st') && Keeps(StmtAssigns(f), st, st')
    decreases Size(f.body), 4, 0
  {
    var lo, hi := Eval(env, f.lo, st), Eval(env, f.hi, st);
    var n, cfg := Indices(lo, hi), Config([f] + rest, k);
    var start, end := Before(f, lo, hi, rest, k), Before(f, lo + n, hi, rest, k);
    assert cfg.todo[1..] == rest;
    var a;
    st', a := IndicesTake(env, f, lo, hi, n, rest, k, st);
    Steps1(env, cfg, st, start, st);
    var b := Later(env, cfg, st, Seen([], start, st), a, end, st');
    Steps1(env, end, st', Config(rest, k), st');
    var c := AtOnce(env, end, st', Seen([], Config(rest, k), st'));
    t := Then(env, cfg, st, b, end, st', c, Config(rest, k), st');
  }

  /** A counted loop spends exactly its body's cycles per index, one index after the other.
    * Its range is whatever its bounds come to on entry; `j` passes after the entry the
    * loop is `j` indices on, and after all of them, in no further time, behind the loop.
    */
  lemma CountedLoopTakes(env: Env, f: Stmt, rest: Code, k: Kont, st: State, j: nat)
    returns (mid: State, some: Trip, end: State, all: Trip)
    requires f.For? && Metered(f.body) && f.counter !in Assigns(f.body)
    requires j <= Indices(Eval(env, f.lo, st), Eval(env, f.hi, st))
    ensures var lo, hi := Eval(env, f.lo, st), Eval(env, f.hi, st);
      && |some.logs| == j * CyclesOf(f.body) && Leads(env, Config([f] + rest, k), st, some, Before(f, lo + j, hi, rest, k), mid)
      && (j > 0 ==> Get(mid.vars, f.counter) == lo + j - 1)
      && |all.logs| == Indices(lo, hi) * CyclesOf(f.body) && Leads(env, Config([f] + rest, k), st, all, Config(rest, k), end)
  {
    mid, some := FirstIndices(env, f, rest, k, st, j);
    end, all := LoopTakes(env, f, rest, k, st);
  }

  lemma FirstIndices(env: Env, f: Stmt, rest: Code, k: Kont, st: State, j: nat) returns (mid: State, some: Trip)
    requires f.For? && Metered(f.body) && f.counter !in Assigns(f.body)
    requires j <= Indices(Eval(env, f.lo, st), Eval(env, f.hi, st))
    ensures var lo, hi := Eval(env, f.lo, st), Eval(env, f.hi, st);
      && |some.logs| == j * CyclesOf(f.body) && Leads(env, Config([f] + rest, k), st, some, Before(f, lo + j, hi, rest, k), mid)
      && (j > 0 ==> Get(mid.vars, f.counter) == lo + j - 1)
  {
    var lo, hi, cfg := Eval(env, f.lo, st), Eval(env, f.hi, st), Config([f] + rest, k);
    var start := Before(f, lo, hi, rest, k);
    assert cfg.todo[1..] == rest;
    var a;
    mid, a := IndicesTake(env, f, lo, hi, j, rest, k, st);
    Steps1(env, cfg, st, start, st);
    some := Later(env, cfg, st, Seen([], start, st), a, Before(f, lo + j, hi, rest, k), mid);
  }

  /** A body whose only tick is its last statement takes one cycle per index. */
  lemma {:induction false} OneTick(work: Code)
    requires Unrolled(work)
    ensures Metered(work + [Tick]) && CyclesOf(work + [Tick]) == 1
    decreases work
  {
    assert [Tick][1..] == [];
    if work == [] {
      assert work + [Tick] == [Tick];
    } else {
      assert (work + [Tick])[1..] == work[1..] + [Tick] && UnrolledStmt(work[0]);
      OneTick(work[1..]);
    }
  }

  /** And so does what it is rewritten to: from a point in step, source and rewritten
    * program run the same cycles, as many as the loop's indices take, and are then in
    * step again, the source behind its loop in no further time.
    */
  lemma RewrittenLoopTakes(env: Env, counters: set<string>, f: Stmt, rest: Code, k: Kont, ss: State, ct: Config, st: State)
    requires f.For? && Metered(f.body) && f.counter !in Assigns(f.body)
    requires Sync(env, counters, Config([f] + rest, k), ss, ct, st) && Paced(env, Config([f] + rest, k), ss)
    ensures exists logs: seq<seq<Event>>, cs': Config, ss': State, ct': Config, st': State, log: seq<Event>, end: State ::
      && |logs| == Indices(Eval(env, f.lo, ss), Eval(env, f.hi, ss)) * CyclesOf(f.body)
      && Runs(env, Config([f] + rest, k), ss, logs, cs', ss') && Reaches(env, cs', ss', Seen(log, Config(rest, k), end))
      && Runs(env, ct, st, logs, ct', st') && Settles(env, counters, cs', ss', ct', st')
  {
    var cs := Config([f] + rest, k);
    var end, t := LoopTakes(env, f, rest, k, ss);
    SyncSettles(env, counters, cs, ss, ct, st);
    var ct', st' := RunsFollowed(env, counters, cs, ss, ct, st, t.logs, t.cfg, t.st);
  }

  lemma SyncSettles(env: Env, counters: set<string>, cs: Config, ss: State, ct: Config, st: State)
    requires Sync(env, counters, cs, ss, ct, st)
    ensures Settles(env, counters, cs, ss, ct, st)
  {
    OffWithin(cs.k, counters);
    var p := Pair(Seen([], cs, ss), Seen([], ct, st));
    assert Steps(env, cs, ss, 0) == Some(p.source) && Steps(env, ct, st, 0) == Some(p.target);
  }
}
