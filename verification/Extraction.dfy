/** Control extraction as a whole: gate, flatten, hoist, splice, choose `pc`'s width. */
module Extraction {
  import opened Syntax
  import opened Semantics
  import opened Lowering
  import opened Gate
  import opened Shape
  import opened Unrolling
  import opened Adjusting
  import opened Scoping
  import opened Simulation
  import opened Splicing
  import opened Hoisting
  import opened Flattener

  /** The width of `pc`'s type for a table of `n` states. */
  function PcBits(n: nat): nat {
    if n <= 256 then 8 else if n <= 65536 then 16 else 32
  }

  /** Of the widths a type can have, the narrowest that holds the numbers of `n` states, or
    * the widest if none does.
    */
  predicate Narrowest(bits: nat, n: nat) {
    && bits in {8, 16, 32} && (Pow2(bits) < n ==> bits == 32)
    && forall b <- {8, 16, 32} :: b < bits ==> Pow2(b) < n
  }

  /** The declarations in front of the loop: each state's locals that another state mentions,
    * one declaration each, taken from a state.
    */
  ghost predicate Declares(registers: seq<Action>, states: seq<Code>) {
    && Names(registers, Crossing(states))
    && (forall i, j :: 0 <= i < j < |registers| ==> registers[i].name != registers[j].name)
    && forall a <- registers :: exists i :: 0 <= i < |states| && a in Locals(states[i])
  }

  /** `registers` are declared in front of the loop; the loop is then the `match` over
    * `states` and one tick.
    */
  datatype Machine = Machine(registers: seq<Action>, states: seq<Code>, pcBits: nat)

  /** The table before splicing: state 0 is the pre-loop actions and then the loop head. */
  function Flattened(preloop: Code, body: Code): (states: seq<Code>)
    ensures states != []
  {
    var l := Lower(body, [[]], [], ModuleLoop);
    l.states[0 := preloop + l.code]
  }

  function Hoisted(preloop: Code, body: Code): (states: seq<Code>)
    ensures |states| == |Flattened(preloop, body)|
  {
    var states := Flattened(preloop, body);
    ConvertAll(states, Crossing(states))
  }

  function Extracted(preloop: Code, body: Code): Option<seq<Code>> {
    SpliceFrom(Hoisted(preloop, body), 0)
  }

  predicate Admitted(body: Code) {
    NeedsExtraction(body) && Flattenable(body, false) && ContainsTick(body)
  }

  /** Extraction either leaves the module alone or hands over the flattened machine. */
  method ExtractControl(preloop: Code, body: Code) returns (r: Option<Machine>)
    requires Written(body)
    ensures r.Some? <==> Admitted(body) && Extracted(preloop, body).Some?
    ensures r.Some? ==>
      && r.value.states == Extracted(preloop, body).value
      && Declares(r.value.registers, Flattened(preloop, body))
      && Narrowest(r.value.pcBits, |r.value.states|)
  {
    if !NeedsExtraction(body) || !Flattenable(body, false) {
      return None;
    }
    var sm := new StateMachine();
    assert Filled([]) == [];
    var state0 := LowerInto(body, preloop, sm, ModuleLoop, []);
    sm.SetBody(0, state0);
    var registers := HoistCrossStateLocals(sm);
    var ok := SpliceZeroTimeGotos(sm);
    if !ok || !ContainsTick(body) {
      return None;
    }
    WidthFits(|sm.states|);
    return Some(Machine(registers, sm.states, PcBits(|sm.states|)));
  }

  function Start(body: Code): Config {
    Config(body, Module(body))
  }

  // ----- Well-formedness ---------------------------------------------------------------------

  lemma {:induction false} PlainPush(p: Code, code: Code, n: nat)
    requires Plain(p) && Sealed(code, n)
    ensures Sealed(p + code, n)
  {
    if p == [] {
      assert p + code == code;
    } else {
      PlainPush(p[1..], code, n);
      assert (p + code)[1..] == p[1..] + code;
    }
  }

  predicate Plain(p: Code) {
    forall i :: 0 <= i < |p| ==> p[i].Do?
  }

  lemma FlattenedSealed(preloop: Code, body: Code)
    requires Written(body) && Flattenable(body, false) && Plain(preloop)
    ensures var s := Flattened(preloop, body);
      forall i :: 0 <= i < |s| ==> Sealed(s[i], |s|)
  {
    LowerSealed(body, [[]], [], ModuleLoop);
    var l := Lower(body, [[]], [], ModuleLoop);
    PlainPush(preloop, l.code, |l.states|);
  }

  lemma HoistedSealed(preloop: Code, body: Code)
    requires Written(body) && Flattenable(body, false) && Plain(preloop)
    ensures var s := Hoisted(preloop, body);
      forall i :: 0 <= i < |s| ==> Sealed(s[i], |s|)
  {
    FlattenedSealed(preloop, body);
    var s := Flattened(preloop, body);
    forall i | 0 <= i < |s| ensures Sealed(Hoisted(preloop, body)[i], |s|) {
      ConvertSealed(s[i], Crossing(s), |s|);
    }
  }

  /** Every machine is well formed: each path of each state ends in exactly one `pc`
    * assignment, to a state of the table, and takes none before; no tick, `break`,
    * `continue`, ticking loop or zero-time marker is left; and every state number
    * fits the type chosen for `pc`, up to the widest type's range.
    */
  lemma MachineWellFormed(preloop: Code, body: Code)
    requires Written(body) && Flattenable(body, false) && Plain(preloop) && Extracted(preloop, body).Some?
    ensures var s := Extracted(preloop, body).value;
      && (forall i :: 0 <= i < |s| ==> Sealed(s[i], |s|) && !ContainsGoto(s[i]))
      && (|s| <= U32 <==> |s| - 1 < Pow2(PcBits(|s|)))
  {
    var h, s := Hoisted(preloop, body), Extracted(preloop, body).value;
    HoistedSealed(preloop, body);
    forall i | 0 <= i < |s| ensures Sealed(s[i], |s|) && !ContainsGoto(s[i]) {
      SpliceFromAt(h, 0, i);
      SpliceSealed(h[i], h, [i]);
    }
    WidthFits(|s|);
  }

  /** The width chosen for `n` states is the narrowest that holds all their numbers, up to the
    * widest type's range.
    */
  lemma WidthFits(n: nat)
    ensures n <= U32 <==> n - 1 < Pow2(PcBits(n))
    ensures Narrowest(PcBits(n), n)
  {
    assert Pow2(8) == 256;
    Pow2Add(8, 8);
    Pow2Add(16, 16);
    assert Pow2(16) == Pow2(8) * Pow2(8) && Pow2(32) == Pow2(16) * Pow2(16);
  }

  function Pow2(n: nat): nat {
    if n == 0 then 1 else 2 * Pow2(n - 1)
  }

  lemma {:induction false} Pow2Add(a: nat, b: nat)
    ensures Pow2(a + b) == Pow2(a) * Pow2(b)
  {
    if a > 0 {
      Pow2Add(a - 1, b);
      assert Pow2(a + b) == 2 * (Pow2(a - 1) * Pow2(b)) == Pow2(a) * Pow2(b);
    }
  }

  // ----- When extraction succeeds --------------------------------------------------------------

  lemma {:induction false} PlainGoto(p: Code, code: Code)
    requires Plain(p)
    ensures ContainsGoto(p + code) <==> ContainsGoto(code)
  {
    if p == [] {
      assert p + code == code;
    } else {
      PlainGoto(p[1..], code);
      assert (p + code)[1..] == p[1..] + code;
    }
  }

  /** Past the gate, extraction gives up exactly when the source can get from the loop's
    * head back to it in no time.
    */
  lemma ExtractionSucceeds(preloop: Code, body: Code)
    requires Written(body) && Flattenable(body, false) && Plain(preloop)
    ensures Extracted(preloop, body).Some? <==> !CanGoto(body, [])
  {
    var s, h := Flattened(preloop, body), Hoisted(preloop, body);
    HoistedSealed(preloop, body);
    SpliceFromSucceeds(h, 0);
    LowerGoto(body, [[]], [], ModuleLoop);
    PlainGoto(preloop, Lower(body, [[]], [], ModuleLoop).code);
    ConvertKeepsTicks(s[0], Crossing(s));
  }

  // ----- Extraction preserves behaviour -----------------------------------------------------------

  lemma {:induction false} NoJump(env: Env, code: Code, n: nat, st: State)
    requires Sealed(code, n) && !ContainsGoto(code)
    ensures !Exec(env, code, st, Hold).next.Jump?
    decreases code
  {
    var rest := code[1..];
    if |code| > 1 {
      StayWritten(code[..1]);
      WrittenRun(env, code[..1], st);
      var a := Exec(env, code[..1], st, Hold);
      if !a.next.Stuck? && (code[0].Do? || code[0].Branch? || code[0].For?) {
        assert code[..1] == [code[0]];
        ExecHead(env, code, st, Hold);
        NoJump(env, rest, n, a.st);
      } else {
        assert code[..1][1..] == [];
      }
    } else if code[0].Branch? {
      var arms := code[0].arms;
      var i := Pick(env, code[0].sel, |arms|, st);
      NoGotoArm(arms, i);
      SealedArm(arms, n, i);
      NoJump(env, arms[i].body, n, st);
      SoleBranch(env, code[0].sel, arms, st);
      assert code == [Branch(code[0].sel, arms)];
    }
  }

  lemma {:induction false} NoGotoArm(arms: seq<Arm>, i: nat)
    requires i < |arms| && !ArmsContainGoto(arms)
    ensures !ContainsGoto(arms[i].body)
    decreases arms
  {
    if i > 0 {
      NoGotoArm(arms[1..], i - 1);
    }
  }

  /** A table whose states realise what they stand for runs, from any of them, as the source does. */
  lemma {:induction false} RealisedRuns(env: Env, states: seq<Code>, meaning: Meaning, pc: nat, st: State, k: nat)
    requires |states| == |meaning| && pc < |states|
    requires forall i :: 0 <= i < |states| ==>
      Realises(states[i], meaning[i], meaning) && Sealed(states[i], |states|) && !ContainsGoto(states[i])
    ensures var r := RunMachine(env, states, pc, st, k);
      r.ok && r.pc < |states| && |r.logs| == k && Runs(env, meaning[pc], st, r.logs, meaning[r.pc], r.st)
    decreases k
  {
    if k > 0 {
      var x := Exec(env, states[pc], st, Hold);
      assert RealisesAt(env, states[pc], meaning[pc], meaning, st);
      NoJump(env, states[pc], |states|, st);
      var pc' := x.next.target;
      RealisedRuns(env, states, meaning, pc', Edge(x.st), k - 1);
      var o := Seen(x.log, Landing(x.next, meaning), x.st);
      assert Config(o.cfg.todo[1..], o.cfg.k) == meaning[pc'];
      assert Cycle(env, meaning[pc], st, x.log, meaning[pc'], Edge(x.st));
      var rest := RunMachine(env, states, pc', Edge(x.st), k - 1);
      var r := RunMachine(env, states, pc, st, k);
      assert r.logs[0] == x.log && r.logs[1..] == rest.logs;
    }
  }

  lemma ExtractedMeaning(body: Code) returns (meaning: Meaning)
    requires Written(body) && Flattenable(body, false) && Lowerable(body) && Extracted([], body).Some?
    ensures var s := Extracted([], body).value;
      && |meaning| == |s| && meaning[0] == Config([], Module(Adjusted(body)))
      && forall i :: 0 <= i < |s| ==> Realises(s[i], meaning[i], meaning) && Sealed(s[i], |s|) && !ContainsGoto(s[i])
  {
    var adj := Adjusted(body);
    var top, k := Config([], Module(adj)), Module(adj);
    AdjustedAdjusts(body, false);
    meaning := LowerSimulates(body, adj, [[]], [], ModuleLoop, k, [top]);
    var l := Lower(body, [[]], [], ModuleLoop);
    assert adj + Suffix(k) == adj && [] + l.code == l.code;
    Silently(l.code, top, Start(adj), meaning);
    var f, h, s := Flattened([], body), Hoisted([], body), Extracted([], body).value;
    assert meaning[0] == [top][0];
    HoistedSealed([], body);
    MachineWellFormed([], body);
    forall i | 0 <= i < |h| ensures Realises(h[i], meaning[i], meaning) {
      ConvertRealises(f[i], Crossing(f), meaning[i], meaning);
    }
    forall i | 0 <= i < |s| ensures Realises(s[i], meaning[i], meaning) {
      SpliceFromAt(h, 0, i);
      SpliceRealises(h[i], meaning[i], h, meaning, [i]);
    }
  }

  /** What the machine does, for every body past the gate: cycle by cycle, whatever the
    * operators, the inputs and the initial store, it drives what the adjusted source
    * drives and ends in an equal store, and the adjusted source has no other run of that
    * length.
    */
  lemma ExtractionRunsAdjusted(body: Code, env: Env, st: State, k: nat)
    requires Written(body) && Flattenable(body, false) && Lowerable(body) && Extracted([], body).Some?
    ensures var r := RunMachine(env, Extracted([], body).value, 0, st, k);
      && r.ok && |r.logs| == k
      && (exists c: Config :: Runs(env, Start(Adjusted(body)), st, r.logs, c, r.st))
      && forall logs: seq<seq<Event>>, c: Config, s: State | |logs| == k && Runs(env, Start(Adjusted(body)), st, logs, c, s) ::
           logs == r.logs && s == r.st
  {
    var states, adj := Extracted([], body).value, Adjusted(body);
    var meaning := ExtractedMeaning(body);
    RealisedRuns(env, states, meaning, 0, st, k);
    var r := RunMachine(env, states, 0, st, k);
    if k > 0 {
      RunsFromTop(env, adj, st, r.logs, meaning[r.pc], r.st);
    } else {
      assert Runs(env, Start(adj), st, r.logs, Start(adj), r.st);
    }
    var c0: Config :| Runs(env, Start(adj), st, r.logs, c0, r.st);
    forall logs: seq<seq<Event>>, c: Config, s: State | |logs| == k && Runs(env, Start(adj), st, logs, c, s)
      ensures logs == r.logs && s == r.st
    {
      RunsDeterministic(env, Start(adj), st, logs, c, s, r.logs, c0, r.st);
    }
  }

  /** Extraction preserves behaviour cycle by cycle: whatever the operators, the inputs
    * and the initial store, for every number of cycles the machine and the source drive
    * the same ports with the same values in the same cycles and end in equal stores;
    * and no other source run of that length exists.
    */
  lemma ExtractionPreservesBehaviour(body: Code, env: Env, st: State, k: nat)
    requires Written(body) && Flattenable(body, false) && Lowerable(body) && Exact(body) && Extracted([], body).Some?
    ensures var r := RunMachine(env, Extracted([], body).value, 0, st, k);
      && r.ok && |r.logs| == k
      && (exists c: Config :: Runs(env, Start(body), st, r.logs, c, r.st))
      && forall logs: seq<seq<Event>>, c: Config, s: State | |logs| == k && Runs(env, Start(body), st, logs, c, s) ::
           logs == r.logs && s == r.st
  {
    AdjustedIsExact(body, false);
    ExtractionRunsAdjusted(body, env, st, k);
  }

  /** At the end of the body and at its beginning the source is in the same cycle. */
  lemma RunsFromTop(env: Env, body: Code, st: State, logs: seq<seq<Event>>, c: Config, s: State)
    requires logs != [] && Runs(env, Config([], Module(body)), st, logs, c, s)
    ensures Runs(env, Start(body), st, logs, c, s)
  {
    var top := Config([], Module(body));
    var m: Config, sm: State :| Cycle(env, top, st, logs[0], m, sm) && Runs(env, m, sm, logs[1..], c, s);
    var o: Seen :| Reaches(env, top, st, o) && StandsAtTick(o.cfg)
      && logs[0] == o.log && m == Config(o.cfg.todo[1..], o.cfg.k) && sm == Edge(o.st);
    var n: nat :| Steps(env, top, st, n) == Some(o);
    var o' := Steps(env, Start(body), st, n - 1).value;
    assert [] + o'.log == o'.log;
    assert o' == o;
    assert Cycle(env, Start(body), st, logs[0], m, sm);
  }

  lemma FlattenedOwned(body: Code, outer: set<string>) returns (scopes: seq<set<string>>)
    requires Flattenable(body, false) && Closed(body, outer)
    ensures Owned(Flattened([], body), scopes, 0, outer, [])
  {
    scopes := LowerClosed(body, [[]], [], ModuleLoop, outer, [], [outer]);
    var l := Lower(body, [[]], [], ModuleLoop);
    OwnedFill(l.states, scopes, 0, outer, l.code, []);
    assert [] + l.code == l.code;
  }

  lemma SplicedCloses(table: seq<Code>, i: nat, regs: set<string>, held: set<string>)
    requires i < |table| && Splice(table[i], table, [i]).Some?
    requires forall j :: 0 <= j < |table| ==> Closed(table[j], regs) && Lets(table[j]) !! held
    ensures Closed(Splice(table[i], table, [i]).value, regs) && Lets(Splice(table[i], table, [i]).value) !! held
  {
    SpliceCloses(table[i], table, [i], regs, regs);
    SpliceLets(table[i], table, [i], held);
  }

  lemma HoistedCloses(body: Code, outer: set<string>)
    requires Flattenable(body, false) && Closed(body, outer)
    ensures var h, held := Hoisted([], body), Crossing(Flattened([], body));
      forall i :: 0 <= i < |h| ==> Closed(h[i], outer + held) && Lets(h[i]) !! held
  {
    var scopes := FlattenedOwned(body, outer);
    HoistCloses(Flattened([], body), scopes, outer);
    HoistHidesNone(Flattened([], body));
  }

  /** No state of the machine reads a local that only another state declares, and none declares a
    * register over again.
    */
  lemma ExtractedCloses(body: Code, outer: set<string>)
    requires Flattenable(body, false) && Extracted([], body).Some? && Closed(body, outer)
    ensures var s, held := Extracted([], body).value, Crossing(Flattened([], body));
      forall i :: 0 <= i < |s| ==> Closed(s[i], outer + held) && Lets(s[i]) !! held
  {
    var h, s, held := Hoisted([], body), Extracted([], body).value, Crossing(Flattened([], body));
    HoistedCloses(body, outer);
    forall i | 0 <= i < |s| ensures Closed(s[i], outer + held) && Lets(s[i]) !! held {
      SpliceFromAt(h, 0, i);
      SplicedCloses(h, i, outer + held, held);
    }
  }

  /** The machine the compiler emits scopes each state's locals to its arm. For a body
    * whose names are declared before they are used, that changes nothing: no state
    * meets a name it cannot see or hides a register, and every read has the value the source gives it.
    */
  lemma ScopedMachinePreservesBehaviour(body: Code, outer: set<string>, env: Env, st: State, k: nat)
    requires Written(body) && Flattenable(body, false) && Lowerable(body) && Extracted([], body).Some?
    requires Closed(body, outer)
    ensures var held := Crossing(Flattened([], body));
      var regs := outer + held;
      var r := RunScoped(env, held, Extracted([], body).value, regs, 0, Keep(st, regs), k);
      && r.ok && |r.logs| == k
      && (exists c: Config, s: State :: Runs(env, Start(Adjusted(body)), st, r.logs, c, s) && Agree(regs, s, r.st))
      && (Exact(body) ==> exists c: Config, s: State :: Runs(env, Start(body), st, r.logs, c, s) && Agree(regs, s, r.st))
  {
    var states, held := Extracted([], body).value, Crossing(Flattened([], body));
    var regs := outer + held;
    ExtractedCloses(body, outer);
    ScopedRunMatches(env, held, states, regs, 0, st, Keep(st, regs), k);
    ExtractionRunsAdjusted(body, env, st, k);
    var flat := RunMachine(env, states, 0, st, k);
    var c: Config :| Runs(env, Start(Adjusted(body)), st, flat.logs, c, flat.st);
    assert Agree(regs, flat.st, RunScoped(env, held, states, regs, 0, Keep(st, regs), k).st);
    AdjustedIsExact(body, false);
  }
}
