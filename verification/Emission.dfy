/** What extraction leaves in the module: the table spelled out as an ordinary loop over
  * `match pc`, in the language it came from, and what that loop does.
  */
module Emission {
  import opened Syntax
  import opened Semantics
  import opened Lowering
  import opened Gate
  import opened Shape
  import opened Unrolling
  import opened Adjusting
  import opened Splicing
  import opened Simulation
  import opened Scoping
  import opened Hoisting
  import opened Extraction

  // ----- Spelling the table out --------------------------------------------------------------

  /** A state body as a program: a transfer is an assignment to `pc`. */
  function Spelled(code: Code, pc: string): Code
    decreases code
  {
    if code == [] then [] else [SpelledStmt(code[0], pc)] + Spelled(code[1..], pc)
  }

  function SpelledStmt(s: Stmt, pc: string): Stmt
    decreases s
  {
    match s
    case SetPc(n) => Do(Set(pc, Lit(n)))
    case Branch(sel, arms) => Branch(sel, SpelledArms(arms, pc))
    case _ => s
  }

  function SpelledArms(arms: seq<Arm>, pc: string): (r: seq<Arm>)
    ensures |r| == |arms|
    decreases arms
  {
    if arms == [] then [] else [Arm(Spelled(arms[0].body, pc))] + SpelledArms(arms[1..], pc)
  }

  /** One arm for each state, and an empty one for every other value of `pc`. */
  function StateArms(states: seq<Code>, pc: string): (r: seq<Arm>)
    ensures |r| == |states| + 1
    ensures forall i :: 0 <= i < |states| ==> r[i] == Arm(Spelled(states[i], pc))
    ensures r[|states|] == Arm([])
  {
    seq(|states|, i requires 0 <= i < |states| => Arm(Spelled(states[i], pc))) + [Arm([])]
  }

  /** `loop { match pc { 0 => .., _ => {} } tick }` */
  function EmittedBody(states: seq<Code>, pc: string): Code {
    [Branch(Var(pc), StateArms(states, pc)), Tick]
  }

  // ----- Its meaning ----------------------------------------------------------------------------

  /** Equal but for the program counter. */
  ghost predicate PcAside(pc: string, a: State, b: State) {
    a.cycle == b.cycle && forall x: string :: x != pc ==> Get(a.vars, x) == Get(b.vars, x)
  }

  /** Nothing in the list reads, assigns or declares this name. */
  predicate Unused(code: Code, pc: string) {
    pc !in Mentions(code) && pc !in Assigns(code)
  }

  /** What `pc` holds once a body has got this far, having started at `cur`. */
  function PcAfter(next: Next, cur: int): int {
    if next.Pc? then next.target else cur
  }

  lemma PcAsideEval(env: Env, e: Expr, pc: string, a: State, b: State)
    requires pc !in Reads(e) && PcAside(pc, a, b)
    ensures Eval(env, e, a) == Eval(env, e, b)
  {
    EvalAgrees(env, e, Reads(e), a, b);
  }

  lemma {:induction false} ArmUnused(arms: seq<Arm>, pc: string, i: nat)
    requires i < |arms| && pc !in ArmsMention(arms) && pc !in ArmsAssign(arms)
    ensures Unused(arms[i].body, pc) && SpelledArms(arms, pc)[i] == Arm(Spelled(arms[i].body, pc))
  {
    if i > 0 {
      ArmUnused(arms[1..], pc, i - 1);
    }
  }

  /** The loops a state body holds are as a user wrote them. */
  predicate Steady(code: Code)
    decreases code
  {
    code != [] ==> SteadyStmt(code[0]) && Steady(code[1..])
  }

  predicate SteadyStmt(s: Stmt)
    decreases s
  {
    match s
    case Branch(_, arms) => ArmsSteady(arms)
    case For(_, _, _, body) => Written(body)
    case _ => true
  }

  predicate ArmsSteady(arms: seq<Arm>)
    decreases arms
  {
    arms != [] ==> Steady(arms[0].body) && ArmsSteady(arms[1..])
  }

  lemma {:induction false} ArmSteady(arms: seq<Arm>, i: nat)
    requires i < |arms| && ArmsSteady(arms)
    ensures Steady(arms[i].body)
  {
    if i > 0 {
      ArmSteady(arms[1..], i - 1);
    }
  }

  lemma {:induction false} StaySteady(code: Code)
    requires AllStay(code)
    ensures Steady(code)
    decreases code
  {
    if code != [] {
      StaySteady(code[1..]);
      if code[0].Branch? {
        StayArmsSteady(code[0].arms);
      }
    }
  }

  lemma {:induction false} StayArmsSteady(arms: seq<Arm>)
    requires ArmsStay(arms)
    ensures ArmsSteady(arms)
    decreases arms
  {
    if arms != [] {
      StaySteady(arms[0].body);
      StayArmsSteady(arms[1..]);
    }
  }

  lemma {:induction false} SealedSteady(code: Code, n: nat)
    requires Sealed(code, n)
    ensures Steady(code)
    decreases code
  {
    if |code| > 1 {
      StaySteady(code[..1]);
      SealedSteady(code[1..], n);
    } else if code[0].Branch? {
      SealedArmsSteady(code[0].arms, n);
    }
  }

  lemma {:induction false} SealedArmsSteady(arms: seq<Arm>, n: nat)
    requires ArmsSealed(arms, n)
    ensures ArmsSteady(arms)
    decreases arms
  {
    if arms != [] {
      SealedSteady(arms[0].body, n);
      SealedArmsSteady(arms[1..], n);
    }
  }

  /** One action does the same to both stores. */
  lemma ActionAside(env: Env, a: Action, pc: string, st: State, ss: State)
    requires pc !in Reads(ActionExpr(a)) && (a.Drive? || a.name != pc) && PcAside(pc, st, ss)
    ensures Emit(env, a, st) == Emit(env, a, ss) && PcAside(pc, Perform(env, a, st), Perform(env, a, ss))
    ensures Get(Perform(env, a, ss).vars, pc) == Get(ss.vars, pc)
  {
    PcAsideEval(env, ActionExpr(a), pc, st, ss);
    var st', ss' := Perform(env, a, st), Perform(env, a, ss);
    forall x: string | x != pc ensures Get(st'.vars, x) == Get(ss'.vars, x) {
      assert Get(st.vars, x) == Get(ss.vars, x);
    }
  }

  lemma UnusedHead(code: Code, pc: string)
    requires code != [] && Unused(code, pc)
    ensures Unused(code[1..], pc)
    ensures code[0].Do? ==> var a := code[0].action; pc !in Reads(ActionExpr(a)) && (a.Drive? || a.name != pc)
    ensures code[0].Branch? ==> pc !in Reads(code[0].sel) && pc !in ArmsMention(code[0].arms) && pc !in ArmsAssign(code[0].arms)
  {
    assert pc !in StmtMentions(code[0]) && pc !in StmtAssigns(code[0]);
  }

  /** Running a state body is running its spelling, in no time, whatever stands behind it. */
  lemma {:induction false} SpelledRuns(env: Env, code: Code, pc: string, next: Next, st: State, ss: State, cur: int, rest: Code, k: Kont)
    returns (ss': State)
    requires Unused(code, pc) && Steady(code) && Going(next) && PcAside(pc, st, ss) && Get(ss.vars, pc) == PcAfter(next, cur)
    requires var r := Exec(env, code, st, next); !r.next.Jump? && !r.next.Stuck?
    ensures var r := Exec(env, code, st, next);
      && Reaches(env, Config(Spelled(code, pc) + rest, k), ss, Seen(r.log, Config(rest, k), ss'))
      && PcAside(pc, r.st, ss') && Get(ss'.vars, pc) == PcAfter(r.next, cur)
    decreases code
  {
    var cfg := Config(Spelled(code, pc) + rest, k);
    if code == [] {
      ss' := ss;
      assert Spelled(code, pc) + rest == rest;
      ReachesSelf(env, cfg, ss);
    } else if code[0].Branch? {
      ss' := SpelledBranchRuns(env, code, pc, next, st, ss, cur, rest, k);
    } else if code[0].For? {
      ss' := SpelledForRuns(env, code, pc, next, st, ss, cur, rest, k);
    } else {
      var s, tail := code[0], code[1..];
      UnusedHead(code, pc);
      assert cfg.todo[0] == SpelledStmt(s, pc) && cfg.todo[1..] == Spelled(tail, pc) + rest;
      var a := if s.Do? then s.action else Set(pc, Lit(s.target));
      var st', next' := if s.Do? then Perform(env, a, st) else st, if s.Do? then next else Pc(s.target);
      if s.Do? {
        ActionAside(env, a, pc, st, ss);
      }
      ss' := SpelledRuns(env, tail, pc, next', st', Perform(env, a, ss), cur, rest, k);
      var r := Exec(env, tail, st', next');
      ReachesByStep(env, cfg, ss, Seen(r.log, Config(rest, k), ss'));
      assert [] + r.log == r.log;
    }
  }

  lemma {:induction false} SpelledBranchRuns(env: Env, code: Code, pc: string, next: Next, st: State, ss: State,
                                             cur: int, rest: Code, k: Kont)
    returns (ss': State)
    requires code != [] && code[0].Branch?
    requires Unused(code, pc) && Steady(code) && Going(next) && PcAside(pc, st, ss) && Get(ss.vars, pc) == PcAfter(next, cur)
    requires var r := Exec(env, code, st, next); !r.next.Jump? && !r.next.Stuck?
    ensures var r := Exec(env, code, st, next);
      && Reaches(env, Config(Spelled(code, pc) + rest, k), ss, Seen(r.log, Config(rest, k), ss'))
      && PcAside(pc, r.st, ss') && Get(ss'.vars, pc) == PcAfter(r.next, cur)
    decreases code, 0
  {
    var s, tail, more := code[0], code[1..], Spelled(code[1..], pc) + rest;
    UnusedHead(code, pc);
    var i := ArmEntered(env, code, pc, st, ss, rest, k);
    ArmUnused(s.arms, pc, i);
    ArmSteady(s.arms, i);
    var mid := SpelledRuns(env, s.arms[i].body, pc, next, st, ss, cur, more, k);
    var a := Exec(env, s.arms[i].body, st, next);
    ss' := SpelledRuns(env, tail, pc, a.next, a.st, mid, cur, rest, k);
    var r := Exec(env, tail, a.st, a.next);
    var entered := Config(Spelled(s.arms[i].body, pc) + more, k);
    ReachesCompose(env, entered, ss, Seen(a.log, Config(more, k), mid), Seen(r.log, Config(rest, k), ss'));
    ReachesByStep(env, Config(Spelled(code, pc) + rest, k), ss, Seen(a.log + r.log, Config(rest, k), ss'));
    assert [] + (a.log + r.log) == a.log + r.log;
  }

  /** The spelled branch takes the arm the branch takes. */
  lemma ArmEntered(env: Env, code: Code, pc: string, st: State, ss: State, rest: Code, k: Kont) returns (i: nat)
    requires code != [] && code[0].Branch? && code[0].arms != [] && Unused(code, pc) && PcAside(pc, st, ss)
    ensures i < |code[0].arms| && i == Pick(env, code[0].sel, |code[0].arms|, st)
    ensures Step(env, Config(Spelled(code, pc) + rest, k), ss)
         == Move([], Config(Spelled(code[0].arms[i].body, pc) + (Spelled(code[1..], pc) + rest), k), ss)
  {
    var s := code[0];
    UnusedHead(code, pc);
    var cfg := Config(Spelled(code, pc) + rest, k);
    assert SpelledStmt(s, pc) == Branch(s.sel, SpelledArms(s.arms, pc));
    assert cfg.todo[0] == SpelledStmt(s, pc) && cfg.todo[1..] == Spelled(code[1..], pc) + rest;
    PcAsideEval(env, s.sel, pc, st, ss);
    i := Pick(env, s.sel, |s.arms|, st);
    ArmUnused(s.arms, pc, i);
  }

  /** A statement that does not name the program counter does the same to both stores. */
  lemma ForAside(env: Env, s: Stmt, pc: string, st: State, ss: State, next: Next)
    requires Unused([s], pc) && PcAside(pc, st, ss)
    ensures var a, b := Exec(env, [s], st, next), Exec(env, [s], ss, next);
      a.log == b.log && a.next == b.next && PcAside(pc, a.st, b.st) && Get(b.st.vars, pc) == Get(ss.vars, pc)
  {
    var a, b := Exec(env, [s], st, next), Exec(env, [s], ss, next);
    ExecAgrees(env, [s], Mentions([s]), st, ss, next);
    ExecKeeps(env, [s], ss, next, pc);
    forall x: string | x != pc ensures Get(a.st.vars, x) == Get(b.st.vars, x) {
      ExecAgrees(env, [s], Mentions([s]) + {x}, st, ss, next);
    }
  }

  /** A counted loop left in the state runs as the source's. */
  lemma {:induction false} SpelledForRuns(env: Env, code: Code, pc: string, next: Next, st: State, ss: State, cur: int, rest: Code, k: Kont)
    returns (ss': State)
    requires code != [] && code[0].For?
    requires Unused(code, pc) && Steady(code) && Going(next) && PcAside(pc, st, ss) && Get(ss.vars, pc) == PcAfter(next, cur)
    requires var r := Exec(env, code, st, next); !r.next.Jump? && !r.next.Stuck?
    ensures var r := Exec(env, code, st, next);
      && Reaches(env, Config(Spelled(code, pc) + rest, k), ss, Seen(r.log, Config(rest, k), ss'))
      && PcAside(pc, r.st, ss') && Get(ss'.vars, pc) == PcAfter(r.next, cur)
    decreases code, 0
  {
    var s, tail, more := code[0], code[1..], Spelled(code[1..], pc) + rest;
    assert SpelledStmt(s, pc) == s && Spelled(code, pc) + rest == [s] + more;
    UnusedHead(code, pc);
    OneStatement(s);
    ForAside(env, s, pc, st, ss, next);
    var a, b := Exec(env, [s], st, next), Exec(env, [s], ss, next);
    ExecHead(env, code, st, next);
    WrittenRuns(env, [s], ss, next, more, k);
    ss' := SpelledRuns(env, tail, pc, next, a.st, b.st, cur, rest, k);
    ArrivesThen(env, Config([s] + more, k), ss, b, Config(more, k), Exec(env, tail, a.st, next).(st := ss'), Config(rest, k));
  }

  predicate TableUnused(states: seq<Code>, pc: string) {
    forall i :: 0 <= i < |states| ==> Unused(states[i], pc)
  }

  predicate TableSteady(states: seq<Code>) {
    forall i :: 0 <= i < |states| ==> Steady(states[i])
  }

  lemma ExtractedSteady(preloop: Code, body: Code)
    requires Written(body) && Flattenable(body, false) && Plain(preloop) && Extracted(preloop, body).Some?
    ensures TableSteady(Extracted(preloop, body).value)
  {
    var s := Extracted(preloop, body).value;
    MachineWellFormed(preloop, body);
    forall i | 0 <= i < |s| ensures Steady(s[i]) {
      SealedSteady(s[i], |s|);
    }
  }

  /** One cycle of the machine is one cycle of the emitted loop. */
  lemma EmittedCycle(env: Env, states: seq<Code>, pc: string, m: nat, st: State, ss: State) returns (ss': State)
    requires TableUnused(states, pc) && TableSteady(states) && PcAside(pc, st, ss) && Get(ss.vars, pc) == m
    requires var r := if m < |states| then Exec(env, states[m], st, Hold) else Ran([], st, Hold);
      !r.next.Jump? && !r.next.Stuck?
    ensures var r := if m < |states| then Exec(env, states[m], st, Hold) else Ran([], st, Hold);
      var body := EmittedBody(states, pc);
      && Cycle(env, Config(body, Module(body)), ss, r.log, Config([], Module(body)), ss')
      && PcAside(pc, Edge(r.st), ss') && Get(ss'.vars, pc) == PcAfter(r.next, m)
  {
    var body := EmittedBody(states, pc);
    var k, top := Module(body), Config(body, Module(body));
    var i := if m < |states| then m else |states|;
    var code := if m < |states| then states[m] else [];
    assert body[1..] == [Tick] && Pick(env, Var(pc), |states| + 1, ss) == i;
    assert StateArms(states, pc)[i].body == Spelled(code, pc);
    var end := SpelledRuns(env, code, pc, Hold, st, ss, m, [Tick], k);
    var r := Exec(env, code, st, Hold);
    ReachesByStep(env, top, ss, Seen(r.log, Config([Tick], k), end));
    assert [] + r.log == r.log && [Tick][1..] == [];
    ss' := Edge(end);
  }

  /** At the end of the body and at its start the loop is in the same cycle. */
  lemma CycleFromEnd(env: Env, body: Code, st: State, log: seq<Event>, c: Config, s: State)
    requires Cycle(env, Config(body, Module(body)), st, log, c, s)
    ensures Cycle(env, Config([], Module(body)), st, log, c, s)
  {
    var top, end := Config(body, Module(body)), Config([], Module(body));
    var o: Seen :| Reaches(env, top, st, o) && StandsAtTick(o.cfg)
      && log == o.log && c == Config(o.cfg.todo[1..], o.cfg.k) && s == Edge(o.st);
    ReachesByStep(env, end, st, o);
    assert [] + o.log == o.log;
  }

  /** The emitted loop is the machine: from equal stores, with `pc` at the machine's state,
    * it drives the same in every cycle and leaves equal stores and `pc` at its state.
    */
  lemma {:induction false} EmittedRuns(env: Env, states: seq<Code>, pc: string, m: nat, st: State, ss: State, k: nat)
    returns (c: Config, ss': State)
    requires TableUnused(states, pc) && TableSteady(states) && PcAside(pc, st, ss) && Get(ss.vars, pc) == m
    requires RunMachine(env, states, m, st, k).ok
    ensures var r, body := RunMachine(env, states, m, st, k), EmittedBody(states, pc);
      && |r.logs| == k && Runs(env, Config(body, Module(body)), ss, r.logs, c, ss')
      && PcAside(pc, r.st, ss') && Get(ss'.vars, pc) == r.pc
    decreases k
  {
    var body := EmittedBody(states, pc);
    if k == 0 {
      c, ss' := Config(body, Module(body)), ss;
    } else {
      var x := if m < |states| then Exec(env, states[m], st, Hold) else Ran([], st, Hold);
      var m' := if x.next.Pc? then x.next.target else m;
      var mid := EmittedCycle(env, states, pc, m, st, ss);
      var rest, r := RunMachine(env, states, m', Edge(x.st), k - 1), RunMachine(env, states, m, st, k);
      assert r.logs[0] == x.log && r.logs[1..] == rest.logs;
      c, ss' := EmittedRuns(env, states, pc, m', Edge(x.st), mid, k - 1);
      if k == 1 {
        c := Config([], Module(body));
        assert Runs(env, c, mid, [], c, ss');
      } else {
        RunsFromEnd(env, body, mid, rest.logs, c, ss');
      }
      assert Runs(env, Config([], Module(body)), mid, r.logs[1..], c, ss');
    }
  }

  lemma RunsFromEnd(env: Env, body: Code, st: State, logs: seq<seq<Event>>, c: Config, s: State)
    requires logs != [] && Runs(env, Config(body, Module(body)), st, logs, c, s)
    ensures Runs(env, Config([], Module(body)), st, logs, c, s)
  {
    var m: Config, sm: State :| Cycle(env, Config(body, Module(body)), st, logs[0], m, sm) && Runs(env, m, sm, logs[1..], c, s);
    CycleFromEnd(env, body, st, logs[0], m, sm);
  }

  /** Source loop and emitted loop, two programs of one language: for every number of
    * cycles the emitted one, started with `pc` at 0, has just one run, it drives what the
    * source drives in the same cycles, and it ends in the same store but for `pc`.
    */
  lemma EmittedPreservesBehaviour(body: Code, pc: string, env: Env, st: State, ss: State, k: nat)
    requires Written(body) && Flattenable(body, false) && Lowerable(body) && Exact(body) && Extracted([], body).Some?
    requires TableUnused(Extracted([], body).value, pc) && PcAside(pc, st, ss) && Get(ss.vars, pc) == 0
    ensures var emitted := EmittedBody(Extracted([], body).value, pc);
      && (exists logs: seq<seq<Event>>, c: Config, s: State, c': Config, s': State ::
            && |logs| == k && Runs(env, Start(body), st, logs, c, s)
            && Runs(env, Start(emitted), ss, logs, c', s') && PcAside(pc, s, s'))
      && forall logs: seq<seq<Event>>, c: Config, s: State, logs': seq<seq<Event>>, c': Config, s': State |
           && |logs| == k && Runs(env, Start(body), st, logs, c, s)
           && |logs'| == k && Runs(env, Start(emitted), ss, logs', c', s') :: logs == logs' && PcAside(pc, s, s')
  {
    var states := Extracted([], body).value;
    var emitted := EmittedBody(states, pc);
    ExtractionPreservesBehaviour(body, env, st, k);
    ExtractedSteady([], body);
    var r := RunMachine(env, states, 0, st, k);
    var c0: Config :| Runs(env, Start(body), st, r.logs, c0, r.st);
    var c1, s1 := EmittedRuns(env, states, pc, 0, st, ss, k);
    assert Runs(env, Start(emitted), ss, r.logs, c1, s1);
    forall logs: seq<seq<Event>>, c: Config, s: State, logs': seq<seq<Event>>, c': Config, s': State |
      && |logs| == k && Runs(env, Start(body), st, logs, c, s)
      && |logs'| == k && Runs(env, Start(emitted), ss, logs', c', s')
      ensures logs == logs' && PcAside(pc, s, s')
    {
      RunsDeterministic(env, Start(emitted), ss, logs', c', s', r.logs, c1, s1);
    }
  }

  // ----- The module -------------------------------------------------------------------------------

  /** Statements of a list that do something, as opposed to declaring a local. */
  function ActionsOf(stmts: Code): Code {
    if stmts == [] then [] else (if IsAction(stmts[0]) then [stmts[0]] else []) + ActionsOf(stmts[1..])
  }

  function LocalsOf(stmts: Code): Code {
    if stmts == [] then [] else (if IsAction(stmts[0]) then [] else [stmts[0]]) + LocalsOf(stmts[1..])
  }

  predicate IsAction(s: Stmt) {
    !(s.Do? && s.action.Let?)
  }

  /** Nothing in front of the loop but locals. */
  predicate Quiet(stmts: Code) {
    forall i :: 0 <= i < |stmts| ==> !IsAction(stmts[i])
  }

  /** Taking out the actions changes exactly the lists that hold one. */
  lemma {:induction false} QuietStays(stmts: Code)
    ensures |LocalsOf(stmts)| <= |stmts|
    ensures LocalsOf(stmts) == stmts <==> Quiet(stmts)
  {
    if stmts != [] {
      QuietStays(stmts[1..]);
      assert stmts == [stmts[0]] + stmts[1..];
      assert forall i :: 0 <= i < |stmts[1..]| ==> stmts[1..][i] == stmts[i + 1];
      if Quiet(stmts[1..]) && !IsAction(stmts[0]) {
        assert forall i :: 0 < i < |stmts| ==> stmts[i] == stmts[1..][i - 1];
      }
    }
  }

  /** The statement at `i`, taken out or passed over. */
  lemma SortedOut(stmts: Code, i: nat)
    requires i < |stmts|
    ensures var without := stmts[..i] + stmts[i + 1..]; without[..i] == stmts[..i] && without[i..] == stmts[i + 1..]
    ensures ActionsOf(stmts[i..]) == (if IsAction(stmts[i]) then [stmts[i]] else []) + ActionsOf(stmts[i + 1..])
    ensures LocalsOf(stmts[i..]) == (if IsAction(stmts[i]) then [] else [stmts[i]]) + LocalsOf(stmts[i + 1..])
    ensures stmts[..i + 1] == stmts[..i] + [stmts[i]]
  {
    assert stmts[i..][1..] == stmts[i + 1..];
  }

  /** The part of a module extraction rewrites: what stands in front of its loop, and the loop. */
  class ModuleIR {
    var preloop: Code
    var body: Code

    constructor (preloop: Code, body: Code)
      ensures this.preloop == preloop && this.body == body
    {
      this.preloop, this.body := preloop, body;
    }

    /** Takes the actions out from in front of the loop, and leaves the locals. */
    method TakeActions() returns (actions: Code)
      modifies this
      ensures actions == ActionsOf(old(preloop)) && preloop == LocalsOf(old(preloop)) && body == old(body)
    {
      actions := [];
      ghost var had := preloop;
      var idx := 0;
      while idx < |preloop|
        invariant 0 <= idx <= |preloop| && body == old(body)
        invariant actions + ActionsOf(preloop[idx..]) == ActionsOf(had)
        invariant preloop[..idx] + LocalsOf(preloop[idx..]) == LocalsOf(had)
        decreases |preloop| - idx
      {
        var s := preloop[idx];
        SortedOut(preloop, idx);
        if IsAction(s) {
          actions := actions + [s];
          preloop := preloop[..idx] + preloop[idx + 1..];
        } else {
          idx := idx + 1;
        }
      }
      assert preloop[..idx] + [] == preloop && actions + [] == actions;
    }

    /** Rewrites the module in place. Past the gate the actions in front of the loop have
      * been taken out before it is known whether the flattening can be spliced: giving up
      * then leaves the loop alone, but not what stood in front of it.
      */
    method Extract(pc: string) returns (done: bool)
      requires Written(body) && Plain(preloop)
      modifies this
      ensures done <==> old(Admitted(body)) && !CanGoto(old(body), [])
      ensures !old(NeedsExtraction(body) && Flattenable(body, false)) ==> preloop == old(preloop) && body == old(body)
      ensures !done && old(NeedsExtraction(body) && Flattenable(body, false)) ==>
        preloop == LocalsOf(old(preloop)) && body == old(body)
      ensures !done ==> (preloop == old(preloop) && body == old(body) <==>
        !old(NeedsExtraction(body) && Flattenable(body, false)) || Quiet(old(preloop)))
      ensures done ==>
        && Extracted(ActionsOf(old(preloop)), old(body)).Some?
        && body == EmittedBody(Extracted(ActionsOf(old(preloop)), old(body)).value, pc)
        && exists registers: seq<Action> ::
             && Declares(registers, Flattened(ActionsOf(old(preloop)), old(body)))
             && preloop == LocalsOf(old(preloop)) + Declared(registers) + [Do(Let(pc, Lit(0)))]
    {
      if !NeedsExtraction(body) || !Flattenable(body, false) {
        return false;
      }
      ghost var had := preloop;
      var actions := TakeActions();
      QuietStays(had);
      ActionsArePlain(had);
      ExtractionSucceeds(actions, body);
      var m := ExtractControl(actions, body);
      if m.None? {
        return false;
      }
      body := EmittedBody(m.value.states, pc);
      preloop := preloop + Declared(m.value.registers) + [Do(Let(pc, Lit(0)))];
      return true;
    }
  }

  function Declared(registers: seq<Action>): (r: Code)
    ensures |r| == |registers| && forall i :: 0 <= i < |r| ==> r[i] == Do(registers[i])
  {
    seq(|registers|, i requires 0 <= i < |registers| => Do(registers[i]))
  }

  lemma {:induction false} ActionsArePlain(stmts: Code)
    requires Plain(stmts)
    ensures Plain(ActionsOf(stmts))
  {
    if stmts != [] {
      assert forall i :: 0 <= i < |stmts[1..]| ==> stmts[1..][i] == stmts[i + 1];
      ActionsArePlain(stmts[1..]);
    }
  }
}
