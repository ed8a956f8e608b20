/** The front of the compiler, from a loop as written to the flattened machine. */
module Pipeline {
  import opened Syntax
  import opened Semantics
  import opened Lowering
  import opened Gate
  import opened Scoping
  import opened Adjusting
  import opened Unrolling
  import opened Simulation
  import opened Hoisting
  import opened Extraction
  import opened Emission
  import opened WholeModule
  import opened Desugaring
  import opened DesugarSimulation
  import opened Ranges
  import opened Pace
  import opened Graphs
  import opened Cfg
  import opened Reachability
  import opened Verdict
  import opened Admission
  import opened Acceptance
  import opened Shape

  datatype Outcome = Rejected | Untouched | Flat(machine: Machine)

  /** Check the loop as written, rewrite its `while`s and counted `for`s, extract. A loop is
    * rejected just when its text has a way round it, or round a ticking loop nested in it,
    * without a tick; one that is not is left alone just when the gate declines it or the
    * rewritten loop can come back to its head in no time.
    */
  method Compile(body: Code, outputs: set<string>) returns (r: Outcome)
    requires Written(body)
    ensures r.Rejected? <==> !Accepts(body)
    ensures r.Flat? <==> Accepts(body) && Admits(body) && !CanGoto(Desugar(body), [])
    ensures r.Flat? ==>
      && Extracted([], Desugar(body)) == Some(r.machine.states)
      && Declares(r.machine.registers, Flattened([], Desugar(body)))
      && Narrowest(r.machine.pcBits, |r.machine.states|)
    ensures Accepts(body) && Ranged(body) && Admits(body) ==> r.Flat?
  {
    var g := BuildGraph(body, outputs);
    FoldsOk(g.nested, LoopsOf(body));
    var ok := CheckReachability(g);
    AcceptsIff(g, body);
    if !ok {
      return Rejected;
    }
    var waits := DesugarStmts(body);
    var rewritten := DesugarCountedLoops(waits);
    DesugarIsD(body);
    DWritten(body);
    AdmittedIsText(body);
    var m := ExtractControl([], rewritten);
    if Flattenable(rewritten, false) {
      ExtractionSucceeds([], rewritten);
      if Ranged(body) {
        AcceptedExtracts(body, [], g);
      }
    }
    return if m.Some? then Flat(m.value) else Untouched;
  }

  /** The machine's run is one of the source. */
  lemma CompiledRun(body: Code, counters: set<string>, env: Env, st: State, k: nat) returns (c: Config, s: State)
    requires Written(body) && Countable(body, counters, {}, false)
    requires Paced(env, Config(body, Module(body)), st)
    requires Flattenable(Desugar(body), false) && Lowerable(Desugar(body)) && Exact(Desugar(body))
    requires Extracted([], Desugar(body)).Some?
    ensures var r := RunMachine(env, Extracted([], Desugar(body)).value, 0, st, k);
      r.ok && |r.logs| == k && Runs(env, Start(body), st, r.logs, c, s) && Alike(counters, s, r.st)
  {
    DesugarIsD(body);
    DWritten(body);
    ExtractionPreservesBehaviour(Desugar(body), env, st, k);
    var r := RunMachine(env, Extracted([], Desugar(body)).value, 0, st, k);
    var ct: Config :| Runs(env, Start(Desugar(body)), st, r.logs, ct, r.st);
    c, s := RewrittenRunIsSource(env, body, counters, st, r.logs, ct, r.st);
  }

  /** From source to machine: for a loop that passes the checks, whatever the operators,
    * the inputs and the store, and for every number of cycles, the machine drives the
    * ports as the source does, cycle by cycle, counted loops and waits included; the
    * source has no other run of that length; and the stores agree outside loop counters.
    */
  lemma CompilePreservesBehaviour(body: Code, counters: set<string>, env: Env, st: State, k: nat)
    requires Written(body) && Countable(body, counters, {}, false)
    requires Paced(env, Config(body, Module(body)), st)
    requires Flattenable(Desugar(body), false) && Lowerable(Desugar(body)) && Exact(Desugar(body))
    requires Extracted([], Desugar(body)).Some?
    ensures var r := RunMachine(env, Extracted([], Desugar(body)).value, 0, st, k);
      && r.ok && |r.logs| == k
      && (exists c: Config, s: State :: Runs(env, Start(body), st, r.logs, c, s) && Alike(counters, s, r.st))
      && forall logs: seq<seq<Event>>, c: Config, s: State | |logs| == k && Runs(env, Start(body), st, logs, c, s) ::
           logs == r.logs && Alike(counters, s, r.st)
  {
    var c0, s0 := CompiledRun(body, counters, env, st, k);
    var r := RunMachine(env, Extracted([], Desugar(body)).value, 0, st, k);
    forall logs: seq<seq<Event>>, c: Config, s: State | |logs| == k && Runs(env, Start(body), st, logs, c, s)
      ensures logs == r.logs && Alike(counters, s, r.st)
    {
      RunsDeterministic(env, Start(body), st, logs, c, s, r.logs, c0, s0);
    }
  }

  /** The same with conditions on the text alone: Rust's scoping of loop counters, the gate read off
    * the source, literal bounds wherever a counted loop ticks, nested loops whose tick is where the
    * machine takes it.
    */
  lemma LiteralLoopsPreserveBehaviour(body: Code, counters: set<string>, env: Env, st: State, k: nat)
    requires Written(body) && Scoped(body, counters, {}) && LiteralRanges(body) && Undisturbed(body, {}, false)
    requires Flattens(body, false) && Lowerable(Desugar(body)) && Exact(Desugar(body))
    requires !CanReturn(body) && Ranged(body)
    ensures Extracted([], Desugar(body)).Some?
    ensures var r := RunMachine(env, Extracted([], Desugar(body)).value, 0, st, k);
      && r.ok && |r.logs| == k
      && (exists c: Config, s: State :: Runs(env, Start(body), st, r.logs, c, s) && Alike(counters, s, r.st))
      && forall logs: seq<seq<Event>>, c: Config, s: State | |logs| == k && Runs(env, Start(body), st, logs, c, s) ::
           logs == r.logs && Alike(counters, s, r.st)
  {
    DesugarIsD(body);
    FlattenableIff(body, false);
    GatedIsCountable(body, counters, {}, false, false);
    UnreturningExtracts(body, []);
    LiteralRangesSuffice(env, body, st);
    UndisturbedPaced(env, body, st);
    CompilePreservesBehaviour(body, counters, env, st, k);
  }

  /** The same between the two programs a user sees, the loop as written and the loop that
    * is emitted: they drive the same ports with the same values in the same cycles for any
    * number of cycles, and end in stores that agree outside loop counters and `pc`.
    */
  lemma EmittedLoopPreservesBehaviour(body: Code, counters: set<string>, pc: string, env: Env, st: State, ss: State, k: nat)
    requires Written(body) && Countable(body, counters, {}, false)
    requires Paced(env, Config(body, Module(body)), st)
    requires Flattenable(Desugar(body), false) && Lowerable(Desugar(body)) && Exact(Desugar(body))
    requires Extracted([], Desugar(body)).Some?
    requires TableUnused(Extracted([], Desugar(body)).value, pc) && PcAside(pc, st, ss) && Get(ss.vars, pc) == 0
    ensures var emitted := EmittedBody(Extracted([], Desugar(body)).value, pc);
      forall logs: seq<seq<Event>>, c: Config, s: State, logs': seq<seq<Event>>, c': Config, s': State |
        && |logs| == k && Runs(env, Start(body), st, logs, c, s)
        && |logs'| == k && Runs(env, Start(emitted), ss, logs', c', s') ::
          logs == logs' && Alike(counters + {pc}, s, s')
    ensures var emitted := EmittedBody(Extracted([], Desugar(body)).value, pc);
      && (exists logs: seq<seq<Event>>, c: Config, s: State :: |logs| == k && Runs(env, Start(body), st, logs, c, s))
      && exists logs: seq<seq<Event>>, c: Config, s: State :: |logs| == k && Runs(env, Start(emitted), ss, logs, c, s)
  {
    var states := Extracted([], Desugar(body)).value;
    var emitted := EmittedBody(states, pc);
    CompilePreservesBehaviour(body, counters, env, st, k);
    DesugarIsD(body);
    DWritten(body);
    ExtractedSteady([], Desugar(body));
    var r := RunMachine(env, states, 0, st, k);
    var c1, s1 := EmittedRuns(env, states, pc, 0, st, ss, k);
    assert Runs(env, Start(emitted), ss, r.logs, c1, s1);
    forall logs: seq<seq<Event>>, c: Config, s: State, logs': seq<seq<Event>>, c': Config, s': State |
      && |logs| == k && Runs(env, Start(body), st, logs, c, s)
      && |logs'| == k && Runs(env, Start(emitted), ss, logs', c', s')
      ensures logs == logs' && Alike(counters + {pc}, s, s')
    {
      RunsDeterministic(env, Start(emitted), ss, logs', c', s', r.logs, c1, s1);
    }
  }

  // ----- What the gate leaves to ask ------------------------------------------------------------------

  /** Rust's scoping of loop counters, and nothing else: `off` are the counters of loops not running
    * here, which nothing may read or assign; `fixed` those of the running ones, which nothing may
    * assign.
    */
  predicate Scoped(stmts: Code, off: set<string>, fixed: set<string>)
    decreases stmts
  {
    stmts != [] ==> ScopedStmt(stmts[0], off, fixed) && Scoped(stmts[1..], off, fixed)
  }

  predicate ScopedStmt(s: Stmt, off: set<string>, fixed: set<string>)
    decreases s
  {
    match s
    case Do(a) => Reads(ActionExpr(a)) !! off && (a.Drive? || a.name !in off + fixed)
    case Branch(sel, arms) => Reads(sel) !! off && ArmsScoped(arms, off, fixed)
    case Loop(body) => Scoped(body, off, fixed)
    case While(c, body) => Reads(c) !! off && Scoped(body, off, fixed)
    case For(x, lo, hi, body) =>
      if Unrolled(body) then StmtMentions(s) !! off && StmtAssigns(s) !! off + fixed
      else x in off && x !in fixed && Reads(lo) !! off && Reads(hi) !! off && Scoped(body, off - {x}, fixed + {x})
    case _ => true
  }

  predicate ArmsScoped(arms: seq<Arm>, off: set<string>, fixed: set<string>)
    decreases arms
  {
    arms != [] ==> Scoped(arms[0].body, off, fixed) && ArmsScoped(arms[1..], off, fixed)
  }

  /** What unrolls once it is rewritten, and has no tick, unrolled before. */
  lemma {:induction false} UnrolledBack(stmts: Code)
    requires Ranged(stmts) && !ContainsTick(stmts) && Unrolled(D(stmts))
    ensures Unrolled(stmts)
    decreases stmts, 1
  {
    if stmts != [] {
      var s := stmts[0];
      TicklessStays(s);
      assert D(stmts)[0] == DStmt(s)[0] && D(stmts)[1..] == D(stmts[1..]);
      UnrolledBack(stmts[1..]);
      match s
      case Branch(_, arms) => ArmsUnrolledBack(arms);
      case For(_, _, _, body) => UnrolledBack(body);
      case _ =>
    }
  }

  lemma {:induction false} ArmsUnrolledBack(arms: seq<Arm>)
    requires ArmsRanged(arms) && !ArmsContainTick(arms) && ArmsUnrolled(DArms(arms))
    ensures ArmsUnrolled(arms)
    decreases arms, 0
  {
    if arms != [] {
      UnrolledBack(arms[0].body);
      ArmsUnrolledBack(arms[1..]);
      assert DArms(arms)[1..] == DArms(arms[1..]);
    }
  }

  lemma TicklessStays(s: Stmt)
    requires RangedStmt(s) && !StmtContainsTick(s)
    ensures |DStmt(s)| == 1 && (s.For? ==> DStmt(s) == [For(s.counter, s.lo, s.hi, D(s.body))])
  {
    if s.For? {
      LeftTicks(s.body);
      DKeeps(s.body);
      DEndsIff(s.body);
      if EndsInTick(s.body) {
        EndsTicks(D(s.body));
      }
      ForBecomes(s);
    }
  }

  /** The gate asks the rest of `Countable`: that ticking counted loops end in their tick and are
    * not restarted early, and that nothing else is left in a state but what unrolls.
    */
  lemma {:induction false} GatedIsCountable(stmts: Code, off: set<string>, fixed: set<string>, inLoop: bool, inFor: bool)
    requires Written(stmts) && Ranged(stmts) && Flattens(stmts, inLoop) && Lowerable(D(stmts)) && Scoped(stmts, off, fixed)
    requires inFor ==> inLoop
    ensures Countable(stmts, off, fixed, inFor)
    decreases stmts, 1
  {
    if stmts != [] {
      LowerableAppend(DStmt(stmts[0]), D(stmts[1..]));
      GatedIsCountableStmt(stmts[0], off, fixed, inLoop, inFor);
      GatedIsCountable(stmts[1..], off, fixed, inLoop, inFor);
    }
  }

  lemma {:induction false} GatedIsCountableStmt(s: Stmt, off: set<string>, fixed: set<string>, inLoop: bool, inFor: bool)
    requires WrittenStmt(s) && RangedStmt(s) && FlattensStmt(s, inLoop) && Lowerable(DStmt(s)) && ScopedStmt(s, off, fixed)
    requires inFor ==> inLoop
    ensures CountableStmt(s, off, fixed, inFor)
    decreases s, 0
  {
    match s
    case Branch(_, arms) =>
      assert DStmt(s)[0] == Branch(s.sel, DArms(arms));
      GatedArmsAreCountable(arms, off, fixed, inLoop, inFor);
    case Loop(body) =>
      assert DStmt(s)[0] == Loop(D(body));
      GatedIsCountable(body, off, fixed, true, false);
    case While(c, body) =>
      assert DStmt(s)[0] == if ContainsTick(body) then Loop([ExitUnless(c)] + D(body)) else While(c, D(body));
      if ContainsTick(body) {
        LowerableAppend([ExitUnless(c)], D(body));
        GatedIsCountable(body, off, fixed, true, false);
      }
    case For(_, _, _, _) => GatedForIsCountable(s, off, fixed, inFor);
    case _ =>
  }

  lemma {:induction false} GatedForIsCountable(f: Stmt, off: set<string>, fixed: set<string>, inFor: bool)
    requires f.For? && WrittenStmt(f) && RangedStmt(f) && FlattensStmt(f, true) && Lowerable(DStmt(f)) && ScopedStmt(f, off, fixed)
    ensures CountableStmt(f, off, fixed, inFor)
    decreases f.body, 2
  {
    ForBecomes(f);
    RangedLeft(f.body);
    if EndsInTick(f.body) {
      if Unrolled(f.body) {
        DUnrolled(f.body);
        assert false;
      }
      TurnLowerable(f);
      GatedIsCountable(f.body, off - {f.counter}, fixed + {f.counter}, true, true);
    } else {
      assert DStmt(f)[0] == For(f.counter, f.lo, f.hi, D(f.body));
      UnrolledBack(f.body);
    }
  }

  lemma TurnLowerable(f: Stmt)
    requires f.For? && GivesTick(f) && Lowerable(DStmt(f))
    ensures Lowerable(D(f.body))
  {
    ForBecomes(f);
    var work := Work(D(f.body));
    assert DStmt(f)[1..][0] == Loop(CountedBody(f.counter, f.hi, work)) && LowerableStmt(DStmt(f)[1..][0]);
    LowerableAppend([ExitAt(f.counter, f.hi)] + work, Closing(f.counter, f.hi));
    LowerableAppend([ExitAt(f.counter, f.hi)], work);
    LowerableAppend(work, [Tick]);
    assert [Tick][1..] == [] && Lowerable([Tick]);
  }

  lemma {:induction false} GatedArmsAreCountable(arms: seq<Arm>, off: set<string>, fixed: set<string>, inLoop: bool, inFor: bool)
    requires ArmsWritten(arms) && ArmsRanged(arms) && ArmsFlatten(arms, inLoop) && ArmsLowerable(DArms(arms)) && ArmsScoped(arms, off, fixed)
    requires inFor ==> inLoop
    ensures ArmsCountable(arms, off, fixed, inFor)
    decreases arms, 0
  {
    if arms != [] {
      assert DArms(arms)[1..] == DArms(arms[1..]);
      GatedIsCountable(arms[0].body, off, fixed, inLoop, inFor);
      GatedArmsAreCountable(arms[1..], off, fixed, inLoop, inFor);
    }
  }

  // ----- The whole module ---------------------------------------------------------------------------

  /** The rewrites read no name that was not in scope. */
  lemma {:induction false} DClosed(stmts: Code, scope: set<string>)
    requires Closed(stmts, scope)
    ensures Closed(D(stmts), scope)
    decreases stmts, 1
  {
    if stmts != [] {
      var s, rest := stmts[0], stmts[1..];
      DClosed(rest, After(scope, s));
      DStmtClosed(s, scope);
      if s.Do? {
        assert ([s] + D(rest))[1..] == D(rest);
      } else {
        ClosedAppend(DStmt(s), D(rest), scope);
      }
    }
  }

  lemma {:induction false} DStmtClosed(s: Stmt, scope: set<string>)
    requires StmtClosed(s, scope)
    ensures Closed(DStmt(s), scope)
    decreases s, 0
  {
    assert [s][1..] == [];
    match s
    case While(c, body) =>
      DClosed(body, scope);
      ExitClosed(Not(c), scope);
      ClosedAppend([ExitUnless(c)], D(body), scope);
      assert [Loop([ExitUnless(c)] + D(body))][1..] == [] && [While(c, D(body))][1..] == [];
    case For(x, lo, hi, body) =>
      DClosed(body, scope + {x});
      ForClosed(s, scope);
    case Loop(body) =>
      DClosed(body, scope);
      assert [Loop(D(body))][1..] == [];
    case Branch(sel, arms) =>
      DArmsClosed(arms, scope);
      assert [Branch(sel, DArms(arms))][1..] == [];
    case _ =>
  }

  lemma ForClosed(f: Stmt, scope: set<string>)
    requires f.For? && StmtClosed(f, scope) && Closed(D(f.body), scope + {f.counter})
    ensures Closed(DStmt(f), scope)
  {
    ForBecomes(f);
    if GivesTick(f) {
      CountedClosed(f, D(f.body), scope);
    } else if !Dropped(f) {
      assert DStmt(f)[1..] == [];
    }
  }

  lemma {:induction false} DArmsClosed(arms: seq<Arm>, scope: set<string>)
    requires ArmsClosed(arms, scope)
    ensures ArmsClosed(DArms(arms), scope)
    decreases arms, 0
  {
    if arms != [] {
      DClosed(arms[0].body, scope);
      DArmsClosed(arms[1..], scope);
    }
  }

  lemma ExitClosed(cond: Expr, scope: set<string>)
    requires Reads(cond) <= scope
    ensures Closed([If(cond, [Break], [])], scope)
  {
    var exit := If(cond, [Break], []);
    assert exit.arms[1..] == [Arm([])] && exit.arms[1..][1..] == [] && [exit][1..] == [] && [Break][1..] == [];
    assert Closed([Break], scope) && ArmsClosed(exit.arms[1..], scope) && ArmsClosed(exit.arms, scope);
  }

  lemma ClosingClosed(x: string, hi: Expr, scope: set<string>)
    requires x in scope && Reads(hi) <= scope
    ensures Closed([ExitAt(x, hi)], scope) && Closed(Closing(x, hi), scope)
  {
    var exit, closing := ExitAt(x, hi), Closing(x, hi);
    ExitClosed(Ge(Var(x), hi), scope);
    assert [Tick][1..] == [] && Closed([Tick], scope);
    ClosedAppend([exit], [Tick], scope);
    assert closing[0] == Do(Set(x, AddU32(Var(x), Lit(1)))) && closing[1..] == [exit] + [Tick];
    assert Reads(AddU32(Var(x), Lit(1))) == {x} + {} && StmtClosed(closing[0], scope) && After(scope, closing[0]) == scope;
  }

  lemma LoopClosed(x: string, lo: Expr, turning: Code, scope: set<string>)
    requires Reads(lo) <= scope && Closed(turning, scope + {x})
    ensures Closed([Do(Let(x, lo)), Loop(turning), Tick], scope)
  {
    var loops := [Loop(turning), Tick];
    assert loops[1..] == [Tick] && [Tick][1..] == [] && Closed([Tick], scope + {x});
    assert [Do(Let(x, lo)), loops[0], Tick][1..] == loops;
  }

  lemma CountedClosed(f: Stmt, body: Code, scope: set<string>)
    requires f.For? && StmtClosed(f, scope) && Closed(body, scope + {f.counter}) && body != []
    ensures Closed([Do(Let(f.counter, f.lo)), Loop(CountedBody(f.counter, f.hi, body[..|body| - 1])), Tick], scope)
  {
    var x, inside, n := f.counter, scope + {f.counter}, |body| - 1;
    assert body == body[..n] + body[n..];
    ClosedPrefix(body[..n], body[n..], inside);
    ClosingClosed(x, f.hi, inside);
    ClosedAppend([ExitAt(x, f.hi)], body[..n], inside);
    ClosedAppend([ExitAt(x, f.hi)] + body[..n], Closing(x, f.hi), inside);
    LoopClosed(x, f.lo, CountedBody(x, f.hi, body[..n]), scope);
  }

  /** One run each of the module as written and of the module that is left. */
  lemma WrittenModuleRuns(preloop: Code, body: Code, counters: set<string>, outer: set<string>, registers: seq<Action>, pc: string,
                          env: Env, st: State, k: nat)
    returns (logs: seq<seq<Event>>, c: Config, s: State, c': Config, s': State)
    requires Plain(preloop) && Quiet(preloop) && Written(body) && Closed(body, outer)
    requires Countable(body, counters, {}, false) && Paced(env, Start(body), Exec(env, preloop, st, Hold).st)
    requires Flattenable(Desugar(body), false) && Lowerable(Desugar(body)) && Exact(Desugar(body)) && Extracted([], Desugar(body)).Some?
    requires var crossing := Crossing(Flattened([], Desugar(body))); Names(registers, crossing) && crossing !! outer
    requires TableUnused(Extracted([], Desugar(body)).value, pc) && pc !in outer
    ensures var emitted := EmittedBody(Extracted([], Desugar(body)).value, pc);
      && |logs| == k && Agree(outer - counters, s, s')
      && Runs(env, Config(preloop + body, Module(body)), st, logs, c, s)
      && Runs(env, Config(Rewritten(preloop, registers, pc) + emitted, Module(emitted)), st, logs, c', s')
  {
    var emitted, decls := EmittedBody(Extracted([], Desugar(body)).value, pc), Rewritten(preloop, registers, pc);
    if k == 0 {
      logs, s, s' := [], st, st;
      c, c' := Config(preloop + body, Module(body)), Config(decls + emitted, Module(emitted));
    } else {
      DesugarIsD(body);
      DWritten(body);
      DClosed(body, outer);
      var a := Exec(env, preloop, st, Hold).st;
      var ct, x;
      logs, ct, x, c', s' := LoopRuns(preloop, Desugar(body), outer, registers, pc, env, st, k);
      c, s := RewrittenRunIsSource(env, body, counters, a, logs, ct, x);
      RunsBehind(env, preloop, body, st, logs, c, s);
    }
  }

  /** From the module as written, its `while`s and `for`s included, to the module that is left,
    * its declarations and its counter included: for every number of cycles one run each,
    * driving the same ports with the same values in the same cycles and ending in stores
    * that agree on every name the loop sees from outside.
    */
  lemma WrittenModulePreservesBehaviour(preloop: Code, body: Code, counters: set<string>, outer: set<string>, registers: seq<Action>,
                                        pc: string, env: Env, st: State, k: nat)
    requires Plain(preloop) && Quiet(preloop) && Written(body) && Closed(body, outer)
    requires Countable(body, counters, {}, false) && Paced(env, Start(body), Exec(env, preloop, st, Hold).st)
    requires Flattenable(Desugar(body), false) && Lowerable(Desugar(body)) && Exact(Desugar(body)) && Extracted([], Desugar(body)).Some?
    requires var crossing := Crossing(Flattened([], Desugar(body))); Names(registers, crossing) && crossing !! outer
    requires TableUnused(Extracted([], Desugar(body)).value, pc) && pc !in outer
    ensures var emitted := EmittedBody(Extracted([], Desugar(body)).value, pc);
      var source, target := Config(preloop + body, Module(body)), Config(Rewritten(preloop, registers, pc) + emitted, Module(emitted));
      && (exists logs: seq<seq<Event>>, c: Config, s: State, c': Config, s': State ::
            |logs| == k && Runs(env, source, st, logs, c, s) && Runs(env, target, st, logs, c', s') && Agree(outer - counters, s, s'))
      && forall logs: seq<seq<Event>>, c: Config, s: State, logs': seq<seq<Event>>, c': Config, s': State |
           |logs| == k && Runs(env, source, st, logs, c, s) && |logs'| == k && Runs(env, target, st, logs', c', s') ::
             logs == logs' && Agree(outer - counters, s, s')
  {
    var emitted := EmittedBody(Extracted([], Desugar(body)).value, pc);
    var source, target := Config(preloop + body, Module(body)), Config(Rewritten(preloop, registers, pc) + emitted, Module(emitted));
    var logs0, c0, s0, c1, s1 := WrittenModuleRuns(preloop, body, counters, outer, registers, pc, env, st, k);
    forall logs: seq<seq<Event>>, c: Config, s: State, logs': seq<seq<Event>>, c': Config, s': State |
      |logs| == k && Runs(env, source, st, logs, c, s) && |logs'| == k && Runs(env, target, st, logs', c', s')
      ensures logs == logs' && Agree(outer - counters, s, s')
    {
      RunsDeterministic(env, source, st, logs, c, s, logs0, c0, s0);
      RunsDeterministic(env, target, st, logs', c', s', logs0, c1, s1);
    }
  }

  // ----- A module that is declined too late ------------------------------------------------------

  /** `for i in 3..3 { tick }` and then `if c { tick }` */
  function Vanishing(): Code {
    [For("i", Lit(3), Lit(3), [Tick]), If(Var("c"), [Tick], [])]
  }

  lemma VanishingRewritten()
    ensures Desugar(Vanishing()) == [If(Var("c"), [Tick], [])]
  {
    var wait := If(Var("c"), [Tick], []);
    assert Vanishing()[1..] == [wait] && [wait][1..] == [] && [Tick][1..] == [];
    assert wait.arms[1..] == [Arm([])] && wait.arms[1..][1..] == [];
    DOne(Tick);
    assert DArms(wait.arms[1..]) == [Arm([])] && DArms(wait.arms) == wait.arms;
    assert D([wait]) == [wait] + D([wait][1..]) == [wait];
    assert EndsCounted([Tick]);
    DFor(Vanishing()[0]);
    DesugarIsD(Vanishing());
    assert [] + [wait] == [wait];
  }

  /** The check takes the counted loop to tick, the rewrite drops it, and what is left can
    * return to its head in no time: accepted, past the gate, and never extracted.
    */
  lemma VanishingAccepted()
    ensures Written(Vanishing()) && !CanReturn(Vanishing()) && !Ranged(Vanishing())
    ensures Admitted(Desugar(Vanishing())) && CanGoto(Desugar(Vanishing()), [])
  {
    var body, wait := Vanishing(), If(Var("c"), [Tick], []);
    VanishingRewritten();
    assert body[1..] == [wait] && [wait][1..] == [] && [Tick][1..] == [];
    assert wait.arms[1..] == [Arm([])] && wait.arms[1..][1..] == [];
    assert Written([Tick]) && ArmsWritten(wait.arms[1..]) && ArmsWritten(wait.arms) && WrittenStmt(wait) && Written([wait]);
    assert StmtContainsTick(body[0]) by {
      assert ContainsTick([Tick]);
    }
    assert AlwaysTicks(body[0]);
    assert ContainsTick([Tick]) && StmtContainsTick(wait) && Diverges(wait);
    assert Flattenable([Tick], false) && ArmsFlattenable(wait.arms, false) && Flattenable([wait], false);
    assert [wait][0] != Tick;
    assert CanGoto([] + [], []) && ArmsCanGoto(wait.arms[1..], [], []);
    assert ArmsCanGoto(wait.arms, [], []);
  }

  /** `p.write(1); loop { for i in 3..3 { tick } if c { tick } }`, its loop accepted as
    * written and rewritten as here: given up on, and left without the write.
    */
  method DeclineLate(m: ModuleIR) returns (done: bool)
    requires m.preloop == [Do(Drive(OutPort("p"), Lit(1)))] && m.body == Desugar(Vanishing())
    modifies m
    ensures !done && m.preloop == [] && m.body == old(m.body)
    ensures Written(Vanishing()) && !CanReturn(Vanishing()) && Admitted(Desugar(Vanishing()))
  {
    VanishingAccepted();
    DesugarIsD(Vanishing());
    DWritten(Vanishing());
    ghost var front := m.preloop;
    assert front[1..] == [];
    done := m.Extract("pc");
    assert LocalsOf(front) == [];
  }
}
