/** Locals that cross from one state to another become declarations before the loop.
  *
  * A `match` arm scopes its own locals, so a name declared in one state and used in
  * another has to move out: its `let` turns into an assignment, and the declaration
  * goes in front of the loop, where it is a register.
  */
module Hoisting {
  import opened Syntax
  import opened Semantics
  import opened Lowering
  import opened Gate
  import opened Shape
  import opened Scoping
  import opened Unrolling
  import opened Simulation
  import opened Splicing
  import opened Flattener

  predicate MentionedElsewhere(states: seq<Code>, i: nat, x: string) {
    exists j :: 0 <= j < |states| && j != i && x in Mentions(states[j])
  }

  /** The names declared in one state and mentioned in another. */
  function Crossing(states: seq<Code>): set<string> {
    set i, x | 0 <= i < |states| && x in Lets(states[i]) && MentionedElsewhere(states, i, x) :: x
  }

  /** A statement somewhere in one state declares the name, and a statement somewhere in
    * another reads or assigns it.
    */
  ghost predicate UsedAbroad(states: seq<Code>, x: string) {
    exists i, j, d, s | 0 <= i < |states| && 0 <= j < |states| ::
      i != j && d in Everywhere(states[i]) && Declaring(d, x) && s in Everywhere(states[j]) && Refers(s, x)
  }

  lemma UsedBetween(states: seq<Code>, i: nat, j: nat, x: string)
    requires i < |states| && j < |states| && i != j
    ensures x in Lets(states[i]) && x in Mentions(states[j]) <==>
      && (exists d <- Everywhere(states[i]) :: Declaring(d, x)) && exists s <- Everywhere(states[j]) :: Refers(s, x)
  {
    MentionedIff(states[i], x);
    MentionedIff(states[j], x);
  }

  /** A local leaves its state just when it is used abroad; one only its own state uses stays. */
  lemma CrossingIff(states: seq<Code>, x: string)
    ensures x in Crossing(states) <==> UsedAbroad(states, x)
  {
    if x in Crossing(states) {
      var i :| 0 <= i < |states| && x in Lets(states[i]) && MentionedElsewhere(states, i, x);
      var j :| 0 <= j < |states| && j != i && x in Mentions(states[j]);
      UsedBetween(states, i, j, x);
    }
    if UsedAbroad(states, x) {
      var i, j, d, s :| 0 <= i < |states| && 0 <= j < |states| &&
        i != j && d in Everywhere(states[i]) && Declaring(d, x) && s in Everywhere(states[j]) && Refers(s, x);
      UsedBetween(states, i, j, x);
      assert MentionedElsewhere(states, i, x);
    }
  }

  /** `let x = e` becomes `x = e` for every hoisted name. */
  function Convert(code: Code, names: set<string>): Code
    decreases code
  {
    if code == [] then [] else [ConvertStmt(code[0], names)] + Convert(code[1..], names)
  }

  function ConvertStmt(s: Stmt, names: set<string>): Stmt
    decreases s
  {
    match s
    case Do(Let(x, e)) => if x in names then Do(Set(x, e)) else s
    case Branch(sel, arms) => Branch(sel, ConvertArms(arms, names))
    case Loop(body) => Loop(Convert(body, names))
    case While(c, body) => While(c, Convert(body, names))
    case For(x, lo, hi, body) => For(x, lo, hi, Convert(body, names))
    case _ => s
  }

  function ConvertArms(arms: seq<Arm>, names: set<string>): (r: seq<Arm>)
    ensures |r| == |arms|
    decreases arms
  {
    if arms == [] then [] else [Arm(Convert(arms[0].body, names))] + ConvertArms(arms[1..], names)
  }

  function ConvertAll(states: seq<Code>, names: set<string>): (r: seq<Code>)
    ensures |r| == |states| && forall i :: 0 <= i < |states| ==> r[i] == Convert(states[i], names)
  {
    seq(|states|, i requires 0 <= i < |states| => Convert(states[i], names))
  }

  // ----- As the compiler runs it -----------------------------------------------------------

  /** The declarations in a state, in order. */
  function Locals(code: Code): seq<Action>
    decreases code
  {
    if code == [] then [] else StmtLocals(code[0]) + Locals(code[1..])
  }

  function StmtLocals(s: Stmt): seq<Action>
    decreases s
  {
    match s
    case Do(a) => if a.Let? then [a] else []
    case Branch(_, arms) => ArmsLocals(arms)
    case Loop(body) => Locals(body)
    case While(_, body) => Locals(body)
    case For(_, _, _, body) => Locals(body)
    case _ => []
  }

  function ArmsLocals(arms: seq<Arm>): seq<Action>
    decreases arms
  {
    if arms == [] then [] else Locals(arms[0].body) + ArmsLocals(arms[1..])
  }

  predicate Names(decls: seq<Action>, names: set<string>) {
    && (forall a <- decls :: a.Let? && a.name in names)
    && (forall x <- names :: exists a <- decls :: a.Let? && a.name == x)
  }

  lemma NamesJoin(a: seq<Action>, m: set<string>, b: seq<Action>, n: set<string>)
    requires Names(a, m) && Names(b, n)
    ensures Names(a + b, m + n)
  {
    forall x | x in m + n ensures exists d <- a + b :: d.Let? && d.name == x {
      if x in m {
        var d :| d in a && d.Let? && d.name == x;
        assert d in a + b;
      } else {
        var d :| d in b && d.Let? && d.name == x;
        assert d in a + b;
      }
    }
  }

  lemma {:induction false} LocalsAreLets(code: Code)
    ensures Names(Locals(code), Lets(code))
    decreases code
  {
    if code != [] {
      LocalsAreLets(code[1..]);
      match code[0] {
        case Branch(_, arms) => ArmsLocalsAreLets(arms);
        case Loop(body) => LocalsAreLets(body);
        case While(_, body) => LocalsAreLets(body);
        case For(_, _, _, body) => LocalsAreLets(body);
        case _ =>
      }
      NamesJoin(StmtLocals(code[0]), StmtLets(code[0]), Locals(code[1..]), Lets(code[1..]));
    }
  }

  lemma {:induction false} ArmsLocalsAreLets(arms: seq<Arm>)
    ensures Names(ArmsLocals(arms), ArmsLet(arms))
    decreases arms
  {
    if arms != [] {
      LocalsAreLets(arms[0].body);
      ArmsLocalsAreLets(arms[1..]);
      NamesJoin(Locals(arms[0].body), Lets(arms[0].body), ArmsLocals(arms[1..]), ArmsLet(arms[1..]));
    }
  }

  datatype Decl = Decl(state: nat, action: Action)

  /** `decls` are the declarations of the states before `n`, each with its state. */
  predicate Collected(states: seq<Code>, n: nat, decls: seq<Decl>)
    requires n <= |states|
  {
    && (forall d <- decls :: d.state < n && d.action in Locals(states[d.state]))
    && (forall i, a | 0 <= i < n && a in Locals(states[i]) :: Decl(i, a) in decls)
  }

  method CollectLocals(states: seq<Code>) returns (decls: seq<Decl>)
    ensures Collected(states, |states|, decls)
  {
    decls := [];
    for i := 0 to |states|
      invariant Collected(states, i, decls)
    {
      var here := Locals(states[i]);
      var before := decls;
      for j := 0 to |here|
        invariant forall d <- decls :: d in before || (d.state == i && d.action in here)
        invariant forall d <- before :: d in decls
        invariant forall m :: 0 <= m < j ==> Decl(i, here[m]) in decls
      {
        decls := decls + [Decl(i, here[j])];
      }
    }
  }

  predicate Leaves(states: seq<Code>, d: Decl) {
    d.action.Let? && MentionedElsewhere(states, d.state, d.action.name)
  }

  lemma CollectedLets(states: seq<Code>, decls: seq<Decl>)
    requires Collected(states, |states|, decls)
    ensures forall d <- decls :: d.action.Let? && d.action.name in Lets(states[d.state])
    ensures forall i, x | 0 <= i < |states| && x in Lets(states[i]) ::
              exists d <- decls :: d.state == i && d.action.Let? && d.action.name == x
  {
    forall d | d in decls ensures d.action.Let? && d.action.name in Lets(states[d.state]) {
      LocalsAreLets(states[d.state]);
    }
    forall i, x | 0 <= i < |states| && x in Lets(states[i])
      ensures exists d <- decls :: d.state == i && d.action.Let? && d.action.name == x
    {
      LocalsAreLets(states[i]);
      var a :| a in Locals(states[i]) && a.Let? && a.name == x;
      assert Decl(i, a) in decls;
    }
  }

  /** The first declaration of every name that has to leave its state. */
  method ChooseLeaving(states: seq<Code>, decls: seq<Decl>) returns (hoisted: seq<Action>, names: set<string>)
    ensures Names(hoisted, names)
    ensures forall i, j :: 0 <= i < j < |hoisted| ==> hoisted[i].name != hoisted[j].name
    ensures forall a <- hoisted :: exists d <- decls :: d.action == a && Leaves(states, d)
    ensures forall d <- decls :: Leaves(states, d) ==> d.action.name in names
  {
    hoisted, names := [], {};
    for k := 0 to |decls|
      invariant Names(hoisted, names)
      invariant forall i, j :: 0 <= i < j < |hoisted| ==> hoisted[i].name != hoisted[j].name
      invariant forall a <- hoisted :: exists d <- decls :: d.action == a && Leaves(states, d)
      invariant forall m :: 0 <= m < k && Leaves(states, decls[m]) ==> decls[m].action.name in names
    {
      var d := decls[k];
      if Leaves(states, d) && d.action.name !in names {
        NamesJoin(hoisted, names, [d.action], {d.action.name});
        hoisted, names := hoisted + [d.action], names + {d.action.name};
      }
    }
  }

  /** A name declared in one state and mentioned in another leaves its state, once;
    * every other declaration stays where it is.
    */
  method HoistCrossStateLocals(sm: StateMachine) returns (hoisted: seq<Action>)
    modifies sm
    ensures sm.states == ConvertAll(old(sm.states), Crossing(old(sm.states)))
    ensures Names(hoisted, Crossing(old(sm.states)))
    ensures forall i, j :: 0 <= i < j < |hoisted| ==> hoisted[i].name != hoisted[j].name
    ensures forall a <- hoisted :: exists i :: 0 <= i < |old(sm.states)| && a in Locals(old(sm.states)[i])
  {
    var states := sm.states;
    var decls := CollectLocals(states);
    CollectedLets(states, decls);
    var names;
    hoisted, names := ChooseLeaving(states, decls);
    assert names == Crossing(states) by {
      forall x | x in names ensures x in Crossing(states) {
        var a :| a in hoisted && a.Let? && a.name == x;
        var d :| d in decls && d.action == a && Leaves(states, d);
      }
      forall x | x in Crossing(states) ensures x in names {
        var i :| 0 <= i < |states| && x in Lets(states[i]) && MentionedElsewhere(states, i, x);
        var d :| d in decls && d.state == i && d.action.Let? && d.action.name == x;
        assert Leaves(states, d);
      }
    }
    sm.states := ConvertAll(states, names);
  }

  // ----- Converting changes nothing a flat store can see --------------------------------------

  lemma {:induction false} ConvertedArm(arms: seq<Arm>, names: set<string>, i: nat)
    requires i < |arms|
    ensures ConvertArms(arms, names)[i].body == Convert(arms[i].body, names)
    decreases arms
  {
    if i > 0 {
      ConvertedArm(arms[1..], names, i - 1);
    }
  }

  lemma {:induction false} ConvertRuns(env: Env, code: Code, names: set<string>, st: State, next: Next)
    ensures Exec(env, Convert(code, names), st, next) == Exec(env, code, st, next)
    decreases code, 0, 0
  {
    if code != [] {
      var rest := code[1..];
      assert Convert(code, names)[1..] == Convert(rest, names);
      match code[0]
      case Do(a) => ConvertRuns(env, rest, names, Perform(env, a, st), next);
      case SetPc(n) => ConvertRuns(env, rest, names, st, Pc(n));
      case Branch(sel, arms) =>
        if arms != [] {
          var i := Pick(env, sel, |arms|, st);
          ConvertedArm(arms, names, i);
          ConvertRuns(env, arms[i].body, names, st, next);
          var a := Exec(env, arms[i].body, st, next);
          ConvertRuns(env, rest, names, a.st, a.next);
        }
      case For(x, lo, hi, body) =>
        ConvertRepeats(env, x, Eval(env, lo, st), Eval(env, hi, st), body, names, st, next);
        var a := Repeat(env, x, Eval(env, lo, st), Eval(env, hi, st), body, st, next);
        ConvertRuns(env, rest, names, a.st, a.next);
      case _ =>
    }
  }

  lemma {:induction false} ConvertRepeats(env: Env, x: string, i: int, hi: int, body: Code, names: set<string>, st: State, next: Next)
    ensures Repeat(env, x, i, hi, Convert(body, names), st, next) == Repeat(env, x, i, hi, body, st, next)
    decreases body, 1, if i < hi then hi - i else 0
  {
    if i < hi {
      ConvertRuns(env, body, names, Assign(st, x, i), next);
      var a := Exec(env, body, Assign(st, x, i), next);
      ConvertRepeats(env, x, i + 1, hi, body, names, a.st, a.next);
    }
  }

  lemma ConvertRealises(code: Code, names: set<string>, cfg: Config, meaning: Meaning)
    requires Realises(code, cfg, meaning)
    ensures Realises(Convert(code, names), cfg, meaning)
  {
    forall env, st ensures RealisesAt(env, Convert(code, names), cfg, meaning, st) {
      assert RealisesAt(env, code, cfg, meaning, st);
      ConvertRuns(env, code, names, st, Hold);
    }
  }

  lemma {:induction false} ConvertKeepsTicks(code: Code, names: set<string>)
    ensures ContainsTick(Convert(code, names)) == ContainsTick(code)
    ensures ContainsGoto(Convert(code, names)) == ContainsGoto(code)
    decreases code
  {
    if code != [] {
      var rest := code[1..];
      assert Convert(code, names)[1..] == Convert(rest, names);
      ConvertKeepsTicks(rest, names);
      match code[0]
      case Branch(_, arms) => ConvertArmsKeepTicks(arms, names);
      case Loop(body) => ConvertKeepsTicks(body, names);
      case While(_, body) => ConvertKeepsTicks(body, names);
      case For(_, _, _, body) => ConvertKeepsTicks(body, names);
      case _ =>
    }
  }

  lemma {:induction false} ConvertArmsKeepTicks(arms: seq<Arm>, names: set<string>)
    ensures ArmsContainTick(ConvertArms(arms, names)) == ArmsContainTick(arms)
    ensures ArmsContainGoto(ConvertArms(arms, names)) == ArmsContainGoto(arms)
    decreases arms
  {
    if arms != [] {
      ConvertKeepsTicks(arms[0].body, names);
      ConvertArmsKeepTicks(arms[1..], names);
      assert ConvertArms(arms, names)[1..] == ConvertArms(arms[1..], names);
    }
  }

  lemma {:induction false} ConvertWritten(code: Code, names: set<string>)
    requires Written(code)
    ensures Written(Convert(code, names))
    decreases code
  {
    if code != [] {
      ConvertWritten(code[1..], names);
      assert Convert(code, names)[1..] == Convert(code[1..], names) && WrittenStmt(code[0]);
      match code[0]
      case Branch(_, arms) => ConvertArmsWritten(arms, names);
      case Loop(body) => ConvertWritten(body, names);
      case While(_, body) => ConvertWritten(body, names);
      case For(_, _, _, body) => ConvertWritten(body, names);
      case _ =>
    }
  }

  lemma {:induction false} ConvertArmsWritten(arms: seq<Arm>, names: set<string>)
    requires ArmsWritten(arms)
    ensures ArmsWritten(ConvertArms(arms, names))
    decreases arms
  {
    if arms != [] {
      ConvertWritten(arms[0].body, names);
      ConvertArmsWritten(arms[1..], names);
      assert ConvertArms(arms, names)[1..] == ConvertArms(arms[1..], names);
    }
  }

  lemma {:induction false} ConvertStays(code: Code, names: set<string>)
    requires AllStay(code)
    ensures AllStay(Convert(code, names))
    decreases code
  {
    if code != [] {
      ConvertStays(code[1..], names);
      assert Convert(code, names)[1..] == Convert(code[1..], names);
      match code[0]
      case Branch(_, arms) => ConvertArmsStay(arms, names);
      case While(_, body) =>
        ConvertKeepsTicks(body, names);
        ConvertWritten(body, names);
      case For(_, _, _, body) =>
        ConvertKeepsTicks(body, names);
        ConvertWritten(body, names);
      case _ =>
    }
  }

  lemma {:induction false} ConvertArmsStay(arms: seq<Arm>, names: set<string>)
    requires ArmsStay(arms)
    ensures ArmsStay(ConvertArms(arms, names))
    decreases arms
  {
    if arms != [] {
      ConvertStays(arms[0].body, names);
      ConvertArmsStay(arms[1..], names);
      assert ConvertArms(arms, names)[1..] == ConvertArms(arms[1..], names);
    }
  }

  lemma {:induction false} ConvertSealed(code: Code, names: set<string>, n: nat)
    requires Sealed(code, n)
    ensures Sealed(Convert(code, names), n)
    decreases code
  {
    assert Convert(code, names)[1..] == Convert(code[1..], names);
    if |code| > 1 {
      ConvertSealed(code[1..], names, n);
      ConvertStays(code[..1], names);
      assert Convert(code[..1], names)[0] == Convert(code, names)[0];
      assert |Convert(code[1..], names)| > 0;
    } else {
      assert Convert(code[1..], names) == [];
      if code[0].Branch? {
        ConvertArmsSealed(code[0].arms, names, n);
      }
    }
  }

  lemma {:induction false} ConvertArmsSealed(arms: seq<Arm>, names: set<string>, n: nat)
    requires ArmsSealed(arms, n)
    ensures ArmsSealed(ConvertArms(arms, names), n)
    decreases arms
  {
    if arms != [] {
      ConvertSealed(arms[0].body, names, n);
      ConvertArmsSealed(arms[1..], names, n);
      assert ConvertArms(arms, names)[1..] == ConvertArms(arms[1..], names);
    }
  }

  // ----- After hoisting, no state reads another state's local ----------------------------------

  /** A list closed under `scope` is, once converted, closed under the registers alone,
    * when they hold every hoisted name and every outer name the list mentions.
    */
  lemma {:induction false} ConvertClosed(code: Code, names: set<string>, scope: set<string>, regs: set<string>)
    requires Closed(code, scope) && names <= regs && scope * Mentions(code) <= regs
    ensures Closed(Convert(code, names), regs)
    decreases code
  {
    if code != [] {
      var rest := code[1..];
      assert Convert(code, names)[1..] == Convert(rest, names);
      var regs' := After(regs, ConvertStmt(code[0], names));
      ConvertClosed(rest, names, After(scope, code[0]), regs');
      match code[0]
      case Branch(_, arms) => ConvertArmsClosed(arms, names, scope, regs);
      case Loop(body) => ConvertClosed(body, names, scope, regs);
      case While(c, body) =>
        assert Reads(c) <= scope * Mentions(code);
        ConvertClosed(body, names, scope, regs);
      case For(x, lo, hi, body) =>
        assert Reads(lo) + Reads(hi) <= scope * Mentions(code);
        ConvertClosed(body, names, scope + {x}, regs + {x});
      case Do(a) => assert Reads(ActionExpr(a)) <= scope * Mentions(code);
      case _ =>
    }
  }

  lemma {:induction false} ConvertArmsClosed(arms: seq<Arm>, names: set<string>, scope: set<string>, regs: set<string>)
    requires ArmsClosed(arms, scope) && names <= regs && scope * ArmsMention(arms) <= regs
    ensures ArmsClosed(ConvertArms(arms, names), regs)
    decreases arms
  {
    if arms != [] {
      ConvertClosed(arms[0].body, names, scope, regs);
      ConvertArmsClosed(arms[1..], names, scope, regs);
      assert ConvertArms(arms, names)[1..] == ConvertArms(arms[1..], names);
    }
  }

  /** What the lowering owns, hoisting closes: every state reads only registers and its
    * own declarations.
    */
  lemma HoistCloses(states: seq<Code>, scopes: seq<set<string>>, outer: set<string>)
    requires Owned(states, scopes, 0, outer, [])
    ensures forall i :: 0 <= i < |states| ==> Closed(ConvertAll(states, Crossing(states))[i], outer + Crossing(states))
  {
    var names := Crossing(states);
    forall i | 0 <= i < |states| ensures Closed(Convert(states[i], names), outer + names) {
      forall x | x in scopes[i] * Mentions(states[i]) ensures x in outer + names {
        if x !in outer {
          assert DeclaredElsewhere(states, 0, i, x);
          var j :| 0 <= j < |states| && j != i && x in Lets(states[j]);
          assert MentionedElsewhere(states, j, x);
        }
      }
      ConvertClosed(states[i], names, scopes[i], outer + names);
    }
  }

  lemma {:induction false} SpliceCloses(stmts: Code, originals: seq<Code>, path: seq<nat>, regs: set<string>, scope: set<string>)
    requires Closed(stmts, scope) && regs <= scope && Splice(stmts, originals, path).Some?
    requires forall i :: 0 <= i < |originals| ==> Closed(originals[i], regs)
    ensures Closed(Splice(stmts, originals, path).value, scope)
    decreases Free(|originals|, path), stmts
  {
    if stmts != [] {
      var out := Splice(stmts, originals, path).value;
      if stmts[0].Goto? {
        var t := stmts[0].target;
        assert t in Free(|originals|, path) && t !in Free(|originals|, path + [t]);
        ClosedGrow(originals[t], regs, scope);
        SpliceCloses(originals[t], originals, path + [t], regs, scope);
      } else {
        if stmts[0].Branch? {
          SpliceArmsClose(stmts[0].arms, originals, path, regs, scope);
        }
        SpliceCloses(stmts[1..], originals, path, regs, After(scope, stmts[0]));
        assert out[1..] == Splice(stmts[1..], originals, path).value;
      }
    }
  }

  lemma {:induction false} SpliceArmsClose(arms: seq<Arm>, originals: seq<Code>, path: seq<nat>, regs: set<string>, scope: set<string>)
    requires ArmsClosed(arms, scope) && regs <= scope && SpliceArms(arms, originals, path).Some?
    requires forall i :: 0 <= i < |originals| ==> Closed(originals[i], regs)
    ensures ArmsClosed(SpliceArms(arms, originals, path).value, scope)
    decreases Free(|originals|, path), arms
  {
    if arms != [] {
      SpliceCloses(arms[0].body, originals, path, regs, scope);
      SpliceArmsClose(arms[1..], originals, path, regs, scope);
      var out := SpliceArms(arms, originals, path).value;
      assert out[1..] == SpliceArms(arms[1..], originals, path).value;
    }
  }

  /** Converting takes exactly the hoisted names out of what a list declares. */
  lemma {:induction false} ConvertLets(code: Code, names: set<string>)
    ensures Lets(Convert(code, names)) == Lets(code) - names
    decreases code, 1
  {
    if code != [] {
      ConvertStmtLets(code[0], names);
      ConvertLets(code[1..], names);
      assert Convert(code, names)[1..] == Convert(code[1..], names);
    }
  }

  lemma {:induction false} ConvertStmtLets(s: Stmt, names: set<string>)
    ensures StmtLets(ConvertStmt(s, names)) == StmtLets(s) - names
    decreases s, 0
  {
    match s
    case Branch(_, arms) => ConvertArmsLet(arms, names);
    case Loop(body) => ConvertLets(body, names);
    case While(_, body) => ConvertLets(body, names);
    case For(_, _, _, body) => ConvertLets(body, names);
    case _ =>
  }

  lemma {:induction false} ConvertArmsLet(arms: seq<Arm>, names: set<string>)
    ensures ArmsLet(ConvertArms(arms, names)) == ArmsLet(arms) - names
    decreases arms, 0
  {
    if arms != [] {
      ConvertLets(arms[0].body, names);
      ConvertArmsLet(arms[1..], names);
      assert ConvertArms(arms, names)[1..] == ConvertArms(arms[1..], names);
    }
  }

  /** After hoisting no state declares a register: none is hidden from the rest of the machine. */
  lemma HoistHidesNone(states: seq<Code>)
    ensures forall i :: 0 <= i < |states| ==> Lets(ConvertAll(states, Crossing(states))[i]) == Lets(states[i]) - Crossing(states)
  {
    forall i | 0 <= i < |states| ensures Lets(Convert(states[i], Crossing(states))) == Lets(states[i]) - Crossing(states) {
      ConvertLets(states[i], Crossing(states));
    }
  }

  lemma {:induction false} SpliceLets(stmts: Code, originals: seq<Code>, path: seq<nat>, held: set<string>)
    requires Lets(stmts) !! held && Splice(stmts, originals, path).Some?
    requires forall i :: 0 <= i < |originals| ==> Lets(originals[i]) !! held
    ensures Lets(Splice(stmts, originals, path).value) !! held
    decreases Free(|originals|, path), stmts
  {
    if stmts != [] {
      var out := Splice(stmts, originals, path).value;
      if stmts[0].Goto? {
        var t := stmts[0].target;
        assert t in Free(|originals|, path) && t !in Free(|originals|, path + [t]);
        SpliceLets(originals[t], originals, path + [t], held);
      } else {
        if stmts[0].Branch? {
          SpliceArmsLet(stmts[0].arms, originals, path, held);
        }
        SpliceLets(stmts[1..], originals, path, held);
        assert out[1..] == Splice(stmts[1..], originals, path).value;
      }
    }
  }

  lemma {:induction false} SpliceArmsLet(arms: seq<Arm>, originals: seq<Code>, path: seq<nat>, held: set<string>)
    requires ArmsLet(arms) !! held && SpliceArms(arms, originals, path).Some?
    requires forall i :: 0 <= i < |originals| ==> Lets(originals[i]) !! held
    ensures ArmsLet(SpliceArms(arms, originals, path).value) !! held
    decreases Free(|originals|, path), arms
  {
    if arms != [] {
      SpliceLets(arms[0].body, originals, path, held);
      SpliceArmsLet(arms[1..], originals, path, held);
      var out := SpliceArms(arms, originals, path).value;
      assert out[1..] == SpliceArms(arms[1..], originals, path).value;
    }
  }

  // ----- The machine with arms that scope their locals -----------------------------------------

  /** Like `Exec`, but reading or assigning a name that is not in scope is an error, and so is a
    * declaration that hides one of the registers `held`.
    */
  function ScopedExec(env: Env, held: set<string>, code: Code, scope: set<string>, st: State, next: Next): Ran
    decreases code, 0, 0
  {
    if code == [] then Ran([], st, next) else
    var rest := code[1..];
    match code[0]
    case Do(a) =>
      if !(Reads(ActionExpr(a)) <= scope) || (a.Set? && a.name !in scope) || (a.Let? && a.name in held) then Ran([], st, Stuck) else
      var r := ScopedExec(env, held, rest, After(scope, code[0]), Perform(env, a, st), next);
      r.(log := Emit(env, a, st) + r.log)
    case SetPc(n) => ScopedExec(env, held, rest, scope, st, Pc(n))
    case Goto(n) => Ran([], st, Jump(n))
    case Branch(sel, arms) =>
      if arms == [] || !(Reads(sel) <= scope) then Ran([], st, Stuck) else
      var a := ScopedExec(env, held, arms[Pick(env, sel, |arms|, st)].body, scope, st, next);
      if a.next.Jump? || a.next.Stuck? then a else
      var r := ScopedExec(env, held, rest, scope, a.st, a.next);
      r.(log := a.log + r.log)
    case For(x, lo, hi, body) =>
      if !(Reads(lo) + Reads(hi) <= scope) then Ran([], st, Stuck) else
      var a := ScopedRepeat(env, held, x, Eval(env, lo, st), Eval(env, hi, st), body, scope + {x}, st, next);
      if a.next.Jump? || a.next.Stuck? then a else
      var r := ScopedExec(env, held, rest, scope, a.st, a.next);
      r.(log := a.log + r.log)
    case _ => Ran([], st, Stuck)
  }

  /** The counter is in scope in the body of its loop, and nowhere else. */
  function ScopedRepeat(env: Env, held: set<string>, x: string, i: int, hi: int, body: Code, scope: set<string>, st: State, next: Next): Ran
    decreases body, 1, if i < hi then hi - i else 0
  {
    if i >= hi then Ran([], st, next) else
    var a := ScopedExec(env, held, body, scope, Assign(st, x, i), next);
    if a.next.Jump? || a.next.Stuck? then a else
    var r := ScopedRepeat(env, held, x, i + 1, hi, body, scope, a.st, a.next);
    r.(log := a.log + r.log)
  }

  /** At the end of a cycle only the registers are left. */
  function Keep(st: State, regs: set<string>): State {
    st.(vars := map x | x in st.vars && x in regs :: st.vars[x])
  }

  function RunScoped(env: Env, held: set<string>, states: seq<Code>, regs: set<string>, pc: nat, st: State, k: nat): MachineRun
    decreases k
  {
    if k == 0 then MachineRun([], pc, st, true) else
    var r := if pc < |states| then ScopedExec(env, held, states[pc], regs, st, Hold) else Ran([], st, Hold);
    if r.next.Jump? || r.next.Stuck? then MachineRun([], pc, st, false) else
    var pc' := if r.next.Pc? then r.next.target else pc;
    var rest := RunScoped(env, held, states, regs, pc', Edge(Keep(r.st, regs)), k - 1);
    rest.(logs := [r.log] + rest.logs)
  }

  /** Code that is closed never meets an undeclared name, and cannot tell the stores apart. */
  lemma {:induction false} ScopedMatches(env: Env, held: set<string>, code: Code, scope: set<string>, st: State, st': State, next: Next)
    requires Closed(code, scope) && Lets(code) !! held && Agree(scope, st, st')
    ensures var r, r' := Exec(env, code, st, next), ScopedExec(env, held, code, scope, st', next);
      r'.log == r.log && r'.next == r.next && Agree(scope, r.st, r'.st)
    decreases code, 1
  {
    if code != [] {
      match code[0]
      case Do(a) =>
        EvalAgrees(env, ActionExpr(a), scope, st, st');
        ScopedMatches(env, held, code[1..], After(scope, code[0]), Perform(env, a, st), Perform(env, a, st'), next);
      case SetPc(n) => ScopedMatches(env, held, code[1..], scope, st, st', Pc(n));
      case Branch(_, _) => BranchMatches(env, held, code, scope, st, st', next);
      case For(_, _, _, _) => ForMatches(env, held, code, scope, st, st', next);
      case _ =>
    }
  }

  lemma {:induction false} BranchMatches(env: Env, held: set<string>, code: Code, scope: set<string>, st: State, st': State, next: Next)
    requires code != [] && code[0].Branch? && Closed(code, scope) && Lets(code) !! held && Agree(scope, st, st')
    ensures var r, r' := Exec(env, code, st, next), ScopedExec(env, held, code, scope, st', next);
      r'.log == r.log && r'.next == r.next && Agree(scope, r.st, r'.st)
    decreases code, 0
  {
    if code[0].arms != [] {
      var i, a, a' := ArmMatches(env, held, code[0].sel, code[0].arms, scope, st, st', next);
      ScopedMatches(env, held, code[1..], scope, a.st, a'.st, a.next);
    }
  }

  lemma {:induction false} ForMatches(env: Env, held: set<string>, code: Code, scope: set<string>, st: State, st': State, next: Next)
    requires code != [] && code[0].For? && Closed(code, scope) && Lets(code) !! held && Agree(scope, st, st')
    ensures var r, r' := Exec(env, code, st, next), ScopedExec(env, held, code, scope, st', next);
      r'.log == r.log && r'.next == r.next && Agree(scope, r.st, r'.st)
    decreases code, 0
  {
    var a, a' := LoopMatches(env, held, code[0], scope, st, st', next);
    ScopedMatches(env, held, code[1..], scope, a.st, a'.st, a.next);
  }

  /** A counted loop without a tick is entered with the same range, and does the same. */
  lemma {:induction false} LoopMatches(env: Env, held: set<string>, f: Stmt, scope: set<string>, st: State, st': State, next: Next)
    returns (a: Ran, a': Ran)
    requires f.For? && StmtClosed(f, scope) && Lets(f.body) !! held && Agree(scope, st, st')
    ensures a == Repeat(env, f.counter, Eval(env, f.lo, st), Eval(env, f.hi, st), f.body, st, next)
    ensures a' == ScopedRepeat(env, held, f.counter, Eval(env, f.lo, st'), Eval(env, f.hi, st'), f.body, scope + {f.counter}, st', next)
    ensures a'.log == a.log && a'.next == a.next && Agree(scope, a.st, a'.st)
    decreases f, 0, 0
  {
    var i, n := Eval(env, f.lo, st), Eval(env, f.hi, st);
    EvalAgrees(env, f.lo, scope, st, st');
    EvalAgrees(env, f.hi, scope, st, st');
    RepeatMatches(env, held, f.counter, i, n, f.body, scope, st, st', next);
    a, a' := Repeat(env, f.counter, i, n, f.body, st, next), ScopedRepeat(env, held, f.counter, i, n, f.body, scope + {f.counter}, st', next);
  }

  /** The arm taken is the same, and does the same. */
  lemma {:induction false} ArmMatches(env: Env, held: set<string>, sel: Expr, arms: seq<Arm>, scope: set<string>, st: State, st': State, next: Next)
    returns (i: nat, a: Ran, a': Ran)
    requires arms != [] && Reads(sel) <= scope && ArmsClosed(arms, scope) && ArmsLet(arms) !! held && Agree(scope, st, st')
    ensures i == Pick(env, sel, |arms|, st) == Pick(env, sel, |arms|, st') && i < |arms|
    ensures a == Exec(env, arms[i].body, st, next) && a' == ScopedExec(env, held, arms[i].body, scope, st', next)
    ensures a'.log == a.log && a'.next == a.next && Agree(scope, a.st, a'.st)
    decreases arms, 0, 0
  {
    EvalAgrees(env, sel, scope, st, st');
    i := Pick(env, sel, |arms|, st);
    ClosedArm(arms, scope, i);
    ScopedMatches(env, held, arms[i].body, scope, st, st', next);
    a, a' := Exec(env, arms[i].body, st, next), ScopedExec(env, held, arms[i].body, scope, st', next);
  }

  lemma {:induction false} RepeatMatches(env: Env, held: set<string>, x: string, i: int, hi: int, body: Code, scope: set<string>,
                                         st: State, st': State, next: Next)
    requires Closed(body, scope + {x}) && Lets(body) !! held && Agree(scope, st, st')
    ensures var r, r' := Repeat(env, x, i, hi, body, st, next), ScopedRepeat(env, held, x, i, hi, body, scope + {x}, st', next);
      r'.log == r.log && r'.next == r.next && Agree(scope, r.st, r'.st)
    decreases body, 2, if i < hi then hi - i else 0
  {
    if i < hi {
      ScopedMatches(env, held, body, scope + {x}, Assign(st, x, i), Assign(st', x, i), next);
      var a, a' := Exec(env, body, Assign(st, x, i), next), ScopedExec(env, held, body, scope + {x}, Assign(st', x, i), next);
      RepeatMatches(env, held, x, i + 1, hi, body, scope, a.st, a'.st, a.next);
    }
  }

  lemma {:induction false} ClosedArm(arms: seq<Arm>, scope: set<string>, i: nat)
    requires i < |arms| && ArmsClosed(arms, scope)
    ensures Closed(arms[i].body, scope) && Lets(arms[i].body) <= ArmsLet(arms)
    decreases arms
  {
    if i > 0 {
      ClosedArm(arms[1..], scope, i - 1);
    }
  }

  /** A table every state of which is closed under the registers runs the same with arms
    * that scope their locals as with one flat store, for any number of cycles.
    */
  lemma {:induction false} ScopedRunMatches(env: Env, held: set<string>, states: seq<Code>, regs: set<string>, pc: nat, st: State, st': State, k: nat)
    requires forall i :: 0 <= i < |states| ==> Closed(states[i], regs) && Lets(states[i]) !! held
    requires Agree(regs, st, st')
    ensures var r, r' := RunMachine(env, states, pc, st, k), RunScoped(env, held, states, regs, pc, st', k);
      r'.logs == r.logs && r'.pc == r.pc && r'.ok == r.ok && Agree(regs, r.st, r'.st)
    decreases k
  {
    if k > 0 {
      var r := if pc < |states| then Exec(env, states[pc], st, Hold) else Ran([], st, Hold);
      var r' := if pc < |states| then ScopedExec(env, held, states[pc], regs, st', Hold) else Ran([], st', Hold);
      if pc < |states| {
        ScopedMatches(env, held, states[pc], regs, st, st', Hold);
      }
      if !r.next.Jump? && !r.next.Stuck? {
        var pc' := if r.next.Pc? then r.next.target else pc;
        ScopedRunMatches(env, held, states, regs, pc', Edge(r.st), Edge(Keep(r'.st, regs)), k - 1);
      }
    }
  }
}
