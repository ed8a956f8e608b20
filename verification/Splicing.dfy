/** Inlining the zero-time markers: a jump that must cost no cycle cannot be a `pc`
  * assignment, so the target's own statements take its place.
  */
module Splicing {
  import opened Syntax
  import opened Semantics
  import opened Lowering
  import opened Shape
  import opened Simulation
  import opened Flattener

  function Behind<T>(prefix: seq<T>, r: Option<seq<T>>): Option<seq<T>> {
    if r.None? then None else Some(prefix + r.value)
  }

  lemma BehindNil<T>(r: Option<seq<T>>)
    ensures Behind([], r) == r
  {
    if r.Some? {
      assert [] + r.value == r.value;
    }
  }

  lemma BehindPush<T>(prefix: seq<T>, x: T, r: Option<seq<T>>)
    ensures Behind(prefix, Behind([x], r)) == Behind(prefix + [x], r)
  {
    if r.Some? {
      assert prefix + ([x] + r.value) == prefix + [x] + r.value;
    }
  }

  /** The states not yet inlined on the way here. */
  ghost function Free(n: nat, path: seq<nat>): set<nat> {
    set i: nat | i < n && i !in path
  }

  /** `stmts` with its markers inlined, or nothing when one closes a zero-time cycle. */
  function Splice(stmts: Code, originals: seq<Code>, path: seq<nat>): Option<Code>
    decreases Free(|originals|, path), stmts
  {
    if stmts == [] then Some([]) else
    match stmts[0]
    case Goto(t) =>
      if t in path || t >= |originals| then None
      else
        assert t in Free(|originals|, path) && t !in Free(|originals|, path + [t]);
        Splice(originals[t], originals, path + [t])
    case Branch(sel, arms) =>
      var a := SpliceArms(arms, originals, path);
      var r := Splice(stmts[1..], originals, path);
      if a.None? then None else Behind([Branch(sel, a.value)], r)
    case s =>
      Behind([s], Splice(stmts[1..], originals, path))
  }

  function SpliceArms(arms: seq<Arm>, originals: seq<Code>, path: seq<nat>): (r: Option<seq<Arm>>)
    ensures r.Some? ==> |r.value| == |arms|
    decreases Free(|originals|, path), arms
  {
    if arms == [] then Some([]) else
    var a := Splice(arms[0].body, originals, path);
    var r := SpliceArms(arms[1..], originals, path);
    if a.None? then None else Behind([Arm(a.value)], r)
  }

  /** Splicing of the states from `i` on, each starting a chain of its own. */
  function SpliceFrom(originals: seq<Code>, i: nat): (r: Option<seq<Code>>)
    requires i <= |originals|
    ensures r.Some? ==> |r.value| == |originals| - i
    decreases |originals| - i
  {
    if i == |originals| then Some([]) else
    var s := Splice(originals[i], originals, [i]);
    var r := SpliceFrom(originals, i + 1);
    if s.None? then None else Behind([s.value], r)
  }

  // ----- As the compiler runs it ---------------------------------------------------------

  method SpliceInStmts(stmts: Code, originals: seq<Code>, path: seq<nat>) returns (ok: bool, out: Code)
    ensures var r := Splice(stmts, originals, path); ok == r.Some? && (ok ==> out == r.value)
    decreases Free(|originals|, path), stmts, 1
  {
    out := [];
    var i := 0;
    BehindNil(Splice(stmts, originals, path));
    while i < |stmts|
      invariant 0 <= i <= |stmts|
      invariant Splice(stmts, originals, path) == Behind(out, Splice(stmts[i..], originals, path))
    {
      ghost var after := Splice(stmts[i + 1..], originals, path);
      assert stmts[i..][1..] == stmts[i + 1..] && stmts[i] == stmts[i..][0];
      if stmts[i].Goto? {
        var t := stmts[i].target;
        if t in path || t >= |originals| {
          return false, [];
        }
        assert t in Free(|originals|, path) && t !in Free(|originals|, path + [t]);
        var inlined;
        ok, inlined := SpliceInStmts(originals[t], originals, path + [t]);
        out := out + inlined;
        return;
      }
      if stmts[i].Branch? {
        var spliced;
        ok, spliced := SpliceInArms(stmts[i].arms, originals, path);
        if !ok {
          return false, [];
        }
        BehindPush(out, Branch(stmts[i].sel, spliced), after);
        out := out + [Branch(stmts[i].sel, spliced)];
      } else {
        BehindPush(out, stmts[i], after);
        out := out + [stmts[i]];
      }
      i := i + 1;
    }
    ok := true;
  }

  method SpliceInArms(arms: seq<Arm>, originals: seq<Code>, path: seq<nat>) returns (ok: bool, out: seq<Arm>)
    ensures var r := SpliceArms(arms, originals, path); ok == r.Some? && (ok ==> out == r.value)
    decreases Free(|originals|, path), arms, 0
  {
    out := [];
    var i := 0;
    BehindNil(SpliceArms(arms, originals, path));
    while i < |arms|
      invariant 0 <= i <= |arms|
      invariant SpliceArms(arms, originals, path) == Behind(out, SpliceArms(arms[i..], originals, path))
    {
      assert arms[i..][1..] == arms[i + 1..] && arms[i] == arms[i..][0];
      var body;
      ok, body := SpliceInStmts(arms[i].body, originals, path);
      if !ok {
        return false, [];
      }
      BehindPush(out, Arm(body), SpliceArms(arms[i + 1..], originals, path));
      out := out + [Arm(body)];
      i := i + 1;
    }
    ok := true;
  }

  /** Splices every state in place, against the bodies as they were before. */
  method SpliceZeroTimeGotos(sm: StateMachine) returns (ok: bool)
    modifies sm
    ensures var r := SpliceFrom(old(sm.states), 0); ok == r.Some? && (ok ==> sm.states == r.value)
  {
    var originals := sm.states;
    var i := 0;
    ghost var spliced := [];
    NoneSpliced(originals);
    while i < |originals|
      invariant 0 <= i == |spliced| <= |originals| && PartlySpliced(originals, spliced, sm.states)
    {
      var body;
      ok, body := SpliceInStmts(originals[i], originals, [i]);
      if !ok {
        SplicedNot(originals, spliced, sm.states);
        return false;
      }
      SplicedOn(originals, spliced, sm.states, body);
      sm.states := sm.states[i := body];
      spliced := spliced + [body];
      i := i + 1;
    }
    AllSpliced(originals, spliced, sm.states);
    ok := true;
  }

  /** The first states of the table are spliced, the others as they were. */
  ghost predicate PartlySpliced(originals: seq<Code>, spliced: seq<Code>, states: seq<Code>) {
    && |spliced| <= |originals| && states == spliced + originals[|spliced|..]
    && SpliceFrom(originals, 0) == Behind(spliced, SpliceFrom(originals, |spliced|))
  }

  lemma NoneSpliced(originals: seq<Code>)
    ensures PartlySpliced(originals, [], originals)
  {
    BehindNil(SpliceFrom(originals, 0));
  }

  lemma SplicedNot(originals: seq<Code>, spliced: seq<Code>, states: seq<Code>)
    requires PartlySpliced(originals, spliced, states) && |spliced| < |originals|
    requires Splice(originals[|spliced|], originals, [|spliced|]).None?
    ensures SpliceFrom(originals, 0).None?
  {
  }

  lemma SplicedOn(originals: seq<Code>, spliced: seq<Code>, states: seq<Code>, body: Code)
    requires PartlySpliced(originals, spliced, states) && |spliced| < |originals|
    requires Splice(originals[|spliced|], originals, [|spliced|]) == Some(body)
    ensures |spliced| < |states| && PartlySpliced(originals, spliced + [body], states[|spliced| := body])
  {
    BehindPush(spliced, body, SpliceFrom(originals, |spliced| + 1));
    PutAt(spliced, originals[|spliced|..], body);
    assert originals[|spliced|..][1..] == originals[|spliced| + 1..];
  }

  lemma PutAt<T>(front: seq<T>, rest: seq<T>, x: T)
    requires rest != []
    ensures (front + rest)[|front| := x] == (front + [x]) + rest[1..]
  {
  }

  lemma AllSpliced(originals: seq<Code>, spliced: seq<Code>, states: seq<Code>)
    requires PartlySpliced(originals, spliced, states) && |spliced| == |originals|
    ensures SpliceFrom(originals, 0) == Some(states)
  {
    assert states == spliced == spliced + [];
  }

  // ----- What splicing does ---------------------------------------------------------------

  lemma {:induction false} SpliceStays(stmts: Code, originals: seq<Code>, path: seq<nat>)
    requires AllStay(stmts)
    ensures Splice(stmts, originals, path) == Some(stmts)
    decreases stmts
  {
    if stmts != [] {
      SpliceStays(stmts[1..], originals, path);
      assert stmts == [stmts[0]] + stmts[1..];
      if stmts[0].Branch? {
        SpliceArmsStay(stmts[0].arms, originals, path);
      }
    }
  }

  lemma {:induction false} SpliceArmsStay(arms: seq<Arm>, originals: seq<Code>, path: seq<nat>)
    requires ArmsStay(arms)
    ensures SpliceArms(arms, originals, path) == Some(arms)
    decreases arms
  {
    if arms != [] {
      SpliceStays(arms[0].body, originals, path);
      SpliceArmsStay(arms[1..], originals, path);
      assert arms == [arms[0]] + arms[1..];
    }
  }

  lemma {:induction false} SplicedArm(arms: seq<Arm>, originals: seq<Code>, path: seq<nat>, i: nat)
    requires i < |arms| && SpliceArms(arms, originals, path).Some?
    ensures Splice(arms[i].body, originals, path) == Some(SpliceArms(arms, originals, path).value[i].body)
    decreases arms
  {
    if i > 0 {
      SplicedArm(arms[1..], originals, path, i - 1);
    }
  }

  lemma {:induction false} SealedArm(arms: seq<Arm>, n: nat, i: nat)
    requires i < |arms| && ArmsSealed(arms, n)
    ensures Sealed(arms[i].body, n)
    decreases arms
  {
    if i > 0 {
      SealedArm(arms[1..], n, i - 1);
    }
  }

  /** `x` is the run `r` with the jump it ended in, if any, followed by running the
    * target's own spliced body: after the same events, from the same store.
    */
  ghost predicate Inlined(env: Env, r: Ran, x: Ran, originals: seq<Code>, path: seq<nat>) {
    if r.next.Jump? then
      var t := r.next.target;
      && t < |originals| && t !in path && Splice(originals[t], originals, path + [t]).Some?
      && var y := Exec(env, Splice(originals[t], originals, path + [t]).value, r.st, Hold);
         x == y.(log := r.log + y.log)
    else x == r
  }

  /** Statements a user can write do not transfer control. */
  lemma {:induction false} WrittenRun(env: Env, s: Code, st: State)
    requires Written(s)
    ensures var r := Exec(env, s, st, Hold); r.next.Hold? || r.next.Stuck?
    decreases s, 0, 0
  {
    if s != [] {
      assert WrittenStmt(s[0]);
      match s[0]
      case Do(a) => WrittenRun(env, s[1..], Perform(env, a, st));
      case Branch(sel, arms) =>
        var i := Pick(env, sel, |arms|, st);
        ArmWritten(arms, i);
        WrittenRun(env, arms[i].body, st);
        var a := Exec(env, arms[i].body, st, Hold);
        WrittenRun(env, s[1..], a.st);
      case For(x, lo, hi, body) =>
        RepeatWritten(env, x, Eval(env, lo, st), Eval(env, hi, st), body, st);
        var a := Repeat(env, x, Eval(env, lo, st), Eval(env, hi, st), body, st, Hold);
        WrittenRun(env, s[1..], a.st);
      case _ =>
    }
  }

  lemma {:induction false} RepeatWritten(env: Env, x: string, i: int, hi: int, body: Code, st: State)
    requires Written(body)
    ensures var r := Repeat(env, x, i, hi, body, st, Hold); r.next.Hold? || r.next.Stuck?
    decreases body, 1, if i < hi then hi - i else 0
  {
    if i < hi {
      WrittenRun(env, body, Assign(st, x, i));
      RepeatWritten(env, x, i + 1, hi, body, Exec(env, body, Assign(st, x, i), Hold).st);
    }
  }

  lemma StayRun(env: Env, s: Code, st: State)
    requires AllStay(s)
    ensures var r := Exec(env, s, st, Hold); r.next.Hold? || r.next.Stuck?
  {
    StayWritten(s);
    WrittenRun(env, s, st);
  }

  lemma {:induction false} StayArm(arms: seq<Arm>, i: nat)
    requires i < |arms| && ArmsStay(arms)
    ensures AllStay(arms[i].body)
    decreases arms
  {
    if i > 0 {
      StayArm(arms[1..], i - 1);
    }
  }

  /** Inlining runs the target where the marker was. */
  lemma {:induction false} SplicedRun(env: Env, stmts: Code, originals: seq<Code>, path: seq<nat>, st: State)
    requires Sealed(stmts, |originals|) && Splice(stmts, originals, path).Some?
    ensures var out := Splice(stmts, originals, path).value;
      Inlined(env, Exec(env, stmts, st, Hold), Exec(env, out, st, Hold), originals, path)
    decreases stmts
  {
    var out := Splice(stmts, originals, path).value;
    var rest := stmts[1..];
    if |stmts| > 1 {
      var out' := Splice(rest, originals, path).value;
      match stmts[0]
      case Do(a) =>
        assert out == [stmts[0]] + out' && out[1..] == out';
        var st' := Perform(env, a, st);
        SplicedRun(env, rest, originals, path, st');
        InlinedAfter(env, Emit(env, a, st), Exec(env, rest, st', Hold), Exec(env, out', st', Hold), originals, path);
      case Branch(sel, arms) =>
        SpliceArmsStay(arms, originals, path);
        assert out == [stmts[0]] + out' && out[1..] == out';
        var i := Pick(env, sel, |arms|, st);
        StayArm(arms, i);
        StayRun(env, arms[i].body, st);
        var a := Exec(env, arms[i].body, st, Hold);
        SplicedRun(env, rest, originals, path, a.st);
        InlinedAfter(env, a.log, Exec(env, rest, a.st, Hold), Exec(env, out', a.st, Hold), originals, path);
      case While(_, _) =>
        assert out == [stmts[0]] + out';
      case For(x, lo, hi, body) =>
        assert out == [stmts[0]] + out' && out[1..] == out';
        RepeatWritten(env, x, Eval(env, lo, st), Eval(env, hi, st), body, st);
        var a := Repeat(env, x, Eval(env, lo, st), Eval(env, hi, st), body, st, Hold);
        SplicedRun(env, rest, originals, path, a.st);
        InlinedAfter(env, a.log, Exec(env, rest, a.st, Hold), Exec(env, out', a.st, Hold), originals, path);
    } else {
      assert Splice(rest, originals, path) == Some([]);
      match stmts[0]
      case SetPc(_) =>
        assert out == stmts;
      case Goto(t) =>
        var x := Exec(env, out, st, Hold);
        assert [] + x.log == x.log;
      case Branch(sel, arms) =>
        var i := Pick(env, sel, |arms|, st);
        SplicedArm(arms, originals, path, i);
        SealedArm(arms, |originals|, i);
        SplicedRun(env, arms[i].body, originals, path, st);
        SoleBranch(env, sel, arms, st);
        SoleBranch(env, sel, out[0].arms, st);
        assert out == [Branch(sel, out[0].arms)] && stmts == [Branch(sel, arms)];
    }
  }

  /** A branch alone in its list runs as the arm it takes. */
  lemma SoleBranch(env: Env, sel: Expr, arms: seq<Arm>, st: State)
    requires arms != []
    ensures Exec(env, [Branch(sel, arms)], st, Hold) == Exec(env, arms[Pick(env, sel, |arms|, st)].body, st, Hold)
  {
    var a := Exec(env, arms[Pick(env, sel, |arms|, st)].body, st, Hold);
    assert [Branch(sel, arms)][1..] == [];
    assert a.log + [] == a.log;
  }

  lemma InlinedAfter(env: Env, log: seq<Event>, r: Ran, x: Ran, originals: seq<Code>, path: seq<nat>)
    requires Inlined(env, r, x, originals, path)
    ensures Inlined(env, r.(log := log + r.log), x.(log := log + x.log), originals, path)
  {
    if r.next.Jump? {
      var t := r.next.target;
      var y := Exec(env, Splice(originals[t], originals, path + [t]).value, r.st, Hold);
      assert log + (r.log + y.log) == log + r.log + y.log;
    }
  }

  /** Splicing keeps what a state stands for: a jump costs no cycle in the source either. */
  lemma {:induction false} SpliceRealises(stmts: Code, cfg: Config, originals: seq<Code>, meaning: Meaning, path: seq<nat>)
    requires |originals| == |meaning|
    requires forall i :: 0 <= i < |originals| ==> Sealed(originals[i], |originals|) && Realises(originals[i], meaning[i], meaning)
    requires Sealed(stmts, |originals|) && Realises(stmts, cfg, meaning)
    requires Splice(stmts, originals, path).Some?
    ensures Realises(Splice(stmts, originals, path).value, cfg, meaning)
    decreases Free(|originals|, path)
  {
    var out := Splice(stmts, originals, path).value;
    forall env, st ensures RealisesAt(env, out, cfg, meaning, st) {
      assert RealisesAt(env, stmts, cfg, meaning, st);
      SplicedRun(env, stmts, originals, path, st);
      var r := Exec(env, stmts, st, Hold);
      if r.next.Jump? {
        var t := r.next.target;
        assert t in Free(|originals|, path) && t !in Free(|originals|, path + [t]);
        SpliceRealises(originals[t], meaning[t], originals, meaning, path + [t]);
        var o := Splice(originals[t], originals, path + [t]).value;
        assert RealisesAt(env, o, meaning[t], meaning, r.st);
        var x := Exec(env, o, r.st, Hold);
        ReachesCompose(env, cfg, st, Seen(r.log, meaning[t], r.st), Seen(x.log, Landing(x.next, meaning), x.st));
      }
    }
  }

  /** After splicing, every path ends in exactly one `pc` assignment and no marker is left. */
  lemma {:induction false} SpliceSealed(stmts: Code, originals: seq<Code>, path: seq<nat>)
    requires forall i :: 0 <= i < |originals| ==> Sealed(originals[i], |originals|)
    requires Sealed(stmts, |originals|) && Splice(stmts, originals, path).Some?
    ensures var out := Splice(stmts, originals, path).value; Sealed(out, |originals|) && !ContainsGoto(out)
    decreases Free(|originals|, path), stmts
  {
    var out := Splice(stmts, originals, path).value;
    var rest := stmts[1..];
    if |stmts| > 1 {
      SpliceSealed(rest, originals, path);
      if stmts[0].Branch? {
        SpliceArmsStay(stmts[0].arms, originals, path);
        StayNoGoto(stmts[..1]);
      }
      assert out == [stmts[0]] + Splice(rest, originals, path).value;
      assert out[1..] == Splice(rest, originals, path).value;
    } else {
      assert Splice(rest, originals, path) == Some([]);
      match stmts[0]
      case SetPc(_) =>
        assert out == stmts;
      case Goto(t) =>
        assert t in Free(|originals|, path) && t !in Free(|originals|, path + [t]);
        SpliceSealed(originals[t], originals, path + [t]);
      case Branch(sel, arms) =>
        SpliceArmsSealed(arms, originals, path);
    }
  }

  lemma {:induction false} StayNoGoto(stmts: Code)
    requires AllStay(stmts)
    ensures !ContainsGoto(stmts)
    decreases stmts
  {
    if stmts != [] {
      StayNoGoto(stmts[1..]);
      if stmts[0].Branch? {
        StayArmsNoGoto(stmts[0].arms);
      }
    }
  }

  lemma {:induction false} StayArmsNoGoto(arms: seq<Arm>)
    requires ArmsStay(arms)
    ensures !ArmsContainGoto(arms)
    decreases arms
  {
    if arms != [] {
      StayNoGoto(arms[0].body);
      StayArmsNoGoto(arms[1..]);
    }
  }

  lemma {:induction false} SpliceArmsSealed(arms: seq<Arm>, originals: seq<Code>, path: seq<nat>)
    requires forall i :: 0 <= i < |originals| ==> Sealed(originals[i], |originals|)
    requires ArmsSealed(arms, |originals|) && SpliceArms(arms, originals, path).Some?
    ensures var out := SpliceArms(arms, originals, path).value; ArmsSealed(out, |originals|) && !ArmsContainGoto(out)
    decreases Free(|originals|, path), arms
  {
    if arms != [] {
      SpliceSealed(arms[0].body, originals, path);
      SpliceArmsSealed(arms[1..], originals, path);
      var out := SpliceArms(arms, originals, path).value;
      assert out[1..] == SpliceArms(arms[1..], originals, path).value;
    }
  }

  // ----- When splicing succeeds ------------------------------------------------------------

  /** A chain that has already passed through state 0 can go on exactly when no marker is left. */
  lemma {:induction false} SpliceSucceeds(stmts: Code, originals: seq<Code>, path: seq<nat>)
    requires Sealed(stmts, |originals|) && |originals| > 0 && Sealed(originals[0], |originals|)
    requires 0 !in path ==> !ContainsGoto(originals[0])
    ensures Splice(stmts, originals, path).Some? <==> !ContainsGoto(stmts) || 0 !in path
    decreases Free(|originals|, path), stmts
  {
    var rest := stmts[1..];
    if |stmts| > 1 {
      SpliceSucceeds(rest, originals, path);
      StayNoGoto(stmts[..1]);
      SpliceStays(stmts[..1], originals, path);
    } else {
      assert Splice(rest, originals, path) == Some([]);
      match stmts[0]
      case SetPc(_) =>
      case Goto(t) =>
        if 0 !in path {
          assert 0 in Free(|originals|, path) && 0 !in Free(|originals|, path + [0]);
          SpliceSucceeds(originals[0], originals, path + [0]);
        }
      case Branch(sel, arms) =>
        SpliceArmsSucceed(arms, originals, path);
    }
  }

  lemma {:induction false} SpliceArmsSucceed(arms: seq<Arm>, originals: seq<Code>, path: seq<nat>)
    requires ArmsSealed(arms, |originals|) && |originals| > 0 && Sealed(originals[0], |originals|)
    requires 0 !in path ==> !ContainsGoto(originals[0])
    ensures SpliceArms(arms, originals, path).Some? <==> !ArmsContainGoto(arms) || 0 !in path
    decreases Free(|originals|, path), arms
  {
    if arms != [] {
      SpliceSucceeds(arms[0].body, originals, path);
      SpliceArmsSucceed(arms[1..], originals, path);
    }
  }

  /** Splicing a whole table works out exactly when the head state holds no marker. */
  lemma {:induction false} SpliceFromSucceeds(originals: seq<Code>, i: nat)
    requires i <= |originals|
    requires forall j :: 0 <= j < |originals| ==> Sealed(originals[j], |originals|)
    ensures i == 0 && originals != [] ==> (SpliceFrom(originals, i).Some? <==> !ContainsGoto(originals[0]))
    ensures i > 0 && !ContainsGoto(originals[0]) ==> SpliceFrom(originals, i).Some?
    decreases |originals| - i
  {
    if i < |originals| {
      SpliceFromSucceeds(originals, i + 1);
      if i == 0 || !ContainsGoto(originals[0]) {
        SpliceSucceeds(originals[i], originals, [i]);
      }
    }
  }

  lemma {:induction false} SpliceFromAt(originals: seq<Code>, i: nat, j: nat)
    requires i <= j < |originals| && SpliceFrom(originals, i).Some?
    ensures Splice(originals[j], originals, [j]) == Some(SpliceFrom(originals, i).value[j - i])
    decreases |originals| - i
  {
    if i < j {
      SpliceFromAt(originals, i + 1, j);
    }
  }
}
