/** The expressions of a combinational helper, before lowering: names, operators and
  * `match` with or-patterns, binders, partial wildcards and guards.
  */
module Expressions {
  import Syntax

  type Option<T> = Syntax.Option<T>

  /** One position of a pattern. `OneConst` is a named constant or parameter. */
  datatype Pat = OneLit(value: int) | OneConst(name: string) | Wild | Bind(name: string)

  /** A tuple is matched position by position. */
  type Pattern = seq<Pat>

  datatype MatchArm = MatchArm(alts: seq<Pattern>, guard: Option<Src>, body: Src)

  datatype Src =
    | Num(value: int)
    | Name(name: string)
    | Op(op: string, args: seq<Src>)
    | Match(scrutinee: seq<Src>, arms: seq<MatchArm>)

  type Ops = (string, seq<int>) -> int

  type Vals = map<string, int>

  function At(env: Vals, x: string): int {
    if x in env then env[x] else 0
  }

  // ----- Patterns -------------------------------------------------------------------------------

  /** A lone `_` matches a tuple of any arity. */
  predicate Whole(p: Pattern) {
    p == [Wild]
  }

  predicate Fits(env: Vals, p: Pat, v: int) {
    match p
    case OneLit(n) => v == n
    case OneConst(c) => v == At(env, c)
    case Wild => true
    case Bind(_) => true
  }

  predicate Matches(env: Vals, p: Pattern, vals: seq<int>) {
    Whole(p) || (|p| == |vals| && forall i :: 0 <= i < |p| ==> Fits(env, p[i], vals[i]))
  }

  predicate SomeMatches(env: Vals, alts: seq<Pattern>, vals: seq<int>) {
    exists i :: 0 <= i < |alts| && Matches(env, alts[i], vals)
  }

  function BindersOf(p: Pattern): set<string> {
    set i | 0 <= i < |p| && p[i].Bind? :: p[i].name
  }

  function Binders(alts: seq<Pattern>): set<string> {
    if alts == [] then {} else BindersOf(alts[0]) + Binders(alts[1..])
  }

  /** The names every alternative binds; in a well-formed or-pattern, all of them. */
  function Shared(alts: seq<Pattern>): set<string> {
    set x | x in Binders(alts) && forall i :: 0 <= i < |alts| ==> x in BindersOf(alts[i])
  }

  function ConstsOf(p: Pattern): set<string> {
    set i | 0 <= i < |p| && p[i].OneConst? :: p[i].name
  }

  function Consts(alts: seq<Pattern>): set<string> {
    if alts == [] then {} else ConstsOf(alts[0]) + Consts(alts[1..])
  }

  /** The names a pattern's first `n` positions bind, to the scrutinee's values there. */
  function BoundUpTo(p: Pattern, vals: seq<int>, n: nat): Vals
    requires n <= |p|
  {
    if n == 0 then map[] else
    var b := BoundUpTo(p, vals, n - 1);
    if p[n - 1].Bind? && n <= |vals| then b[p[n - 1].name := vals[n - 1]] else b
  }

  /** The names the first alternative that matches binds. */
  function Bound(env: Vals, alts: seq<Pattern>, vals: seq<int>): Vals {
    if alts == [] then map[]
    else if Matches(env, alts[0], vals) then BoundUpTo(alts[0], vals, |alts[0]|)
    else Bound(env, alts[1..], vals)
  }

  lemma {:induction false} BoundUpToKeys(p: Pattern, vals: seq<int>, n: nat)
    requires n <= |p|
    ensures BoundUpTo(p, vals, n).Keys <= BindersOf(p)
    ensures |p| <= |vals| ==> forall i :: 0 <= i < n && p[i].Bind? ==> p[i].name in BoundUpTo(p, vals, n)
  {
    if n > 0 {
      BoundUpToKeys(p, vals, n - 1);
    }
  }

  lemma {:induction false} BoundKeys(env: Vals, alts: seq<Pattern>, vals: seq<int>)
    ensures Bound(env, alts, vals).Keys <= Binders(alts)
  {
    if alts != [] {
      BoundUpToKeys(alts[0], vals, |alts[0]|);
      BoundKeys(env, alts[1..], vals);
    }
  }

  lemma {:induction false} BoundCovers(env: Vals, alts: seq<Pattern>, vals: seq<int>)
    requires SomeMatches(env, alts, vals)
    ensures Shared(alts) <= Bound(env, alts, vals).Keys
  {
    SomeMatchesSplit(env, alts, vals);
    if Matches(env, alts[0], vals) {
      BoundUpToKeys(alts[0], vals, |alts[0]|);
    } else {
      BoundCovers(env, alts[1..], vals);
      forall x | x in Shared(alts) ensures x in Shared(alts[1..]) {
        assert forall i :: 0 <= i < |alts[1..]| ==> alts[1..][i] == alts[i + 1];
        SharedBinds(alts[1..], x);
      }
    }
  }

  lemma SharedBinds(alts: seq<Pattern>, x: string)
    requires alts != [] && forall i :: 0 <= i < |alts| ==> x in BindersOf(alts[i])
    ensures x in Shared(alts)
  {
    assert x in BindersOf(alts[0]) && x in Binders(alts);
  }

  // ----- Evaluation -----------------------------------------------------------------------------

  /** The value of an expression; nothing, if a match it meets has no arm for its scrutinee. */
  function Eval(op: Ops, env: Vals, e: Src): Option<int>
    decreases e
  {
    match e
    case Num(n) => Syntax.Some(n)
    case Name(x) => Syntax.Some(At(env, x))
    case Op(f, args) =>
      var vals := EvalAll(op, env, args);
      if vals.None? then Syntax.None else Syntax.Some(op(f, vals.value))
    case Match(scrutinee, arms) =>
      var vals := EvalAll(op, env, scrutinee);
      if vals.None? then Syntax.None else EvalArms(op, env, vals.value, arms)
  }

  function EvalAll(op: Ops, env: Vals, es: seq<Src>): (r: Option<seq<int>>)
    ensures r.Some? ==> |r.value| == |es|
    decreases es
  {
    if es == [] then Syntax.Some([]) else
    var v, vs := Eval(op, env, es[0]), EvalAll(op, env, es[1..]);
    if v.None? || vs.None? then Syntax.None else Syntax.Some([v.value] + vs.value)
  }

  /** The first arm whose pattern fits and whose guard holds. */
  function EvalArms(op: Ops, env: Vals, vals: seq<int>, arms: seq<MatchArm>): Option<int>
    decreases arms
  {
    if arms == [] then Syntax.None else
    var a := arms[0];
    if !SomeMatches(env, a.alts, vals) then EvalArms(op, env, vals, arms[1..]) else
    var inner := env + Bound(env, a.alts, vals);
    if a.guard.None? then Eval(op, inner, a.body) else
    var g := Eval(op, inner, a.guard.value);
    if g.None? then Syntax.None
    else if g.value != 0 then Eval(op, inner, a.body)
    else EvalArms(op, env, vals, arms[1..])
  }

  // ----- Free names -----------------------------------------------------------------------------

  function Free(e: Src): set<string>
    decreases e
  {
    match e
    case Num(_) => {}
    case Name(x) => {x}
    case Op(_, args) => FreeAll(args)
    case Match(scrutinee, arms) => FreeAll(scrutinee) + FreeArms(arms)
  }

  function FreeAll(es: seq<Src>): set<string>
    decreases es
  {
    if es == [] then {} else Free(es[0]) + FreeAll(es[1..])
  }

  function FreeArms(arms: seq<MatchArm>): set<string>
    decreases arms
  {
    if arms == [] then {} else FreeArm(arms[0]) + FreeArms(arms[1..])
  }

  function FreeArm(a: MatchArm): set<string>
    decreases a
  {
    Consts(a.alts) + ((if a.guard.None? then {} else Free(a.guard.value)) + Free(a.body) - Shared(a.alts))
  }

  /** Two environments that agree on these names. */
  predicate Agrees(names: set<string>, a: Vals, b: Vals) {
    forall x <- names :: At(a, x) == At(b, x)
  }

  lemma {:induction false} MatchesFrame(alts: seq<Pattern>, a: Vals, b: Vals, vals: seq<int>)
    requires Agrees(Consts(alts), a, b)
    ensures SomeMatches(a, alts, vals) == SomeMatches(b, alts, vals) && Bound(a, alts, vals) == Bound(b, alts, vals)
  {
    if alts != [] {
      MatchesFrame(alts[1..], a, b, vals);
      forall i | 0 <= i < |alts[0]| && alts[0][i].OneConst? ensures alts[0][i].name in ConstsOf(alts[0]) {}
      assert Matches(a, alts[0], vals) == Matches(b, alts[0], vals);
      SomeMatchesSplit(a, alts, vals);
      SomeMatchesSplit(b, alts, vals);
    }
  }

  lemma SomeMatchesSplit(env: Vals, alts: seq<Pattern>, vals: seq<int>)
    requires alts != []
    ensures SomeMatches(env, alts, vals) <==> Matches(env, alts[0], vals) || SomeMatches(env, alts[1..], vals)
  {
    if SomeMatches(env, alts, vals) && !Matches(env, alts[0], vals) {
      var i :| 0 <= i < |alts| && Matches(env, alts[i], vals);
      assert Matches(env, alts[1..][i - 1], vals);
    }
    if SomeMatches(env, alts[1..], vals) {
      var i :| 0 <= i < |alts[1..]| && Matches(env, alts[1..][i], vals);
      assert Matches(env, alts[i + 1], vals);
    }
  }

  lemma InnerAgrees(arm: MatchArm, a: Vals, b: Vals, vals: seq<int>)
    requires Agrees(FreeArm(arm), a, b) && SomeMatches(a, arm.alts, vals)
    ensures var a', b' := a + Bound(a, arm.alts, vals), b + Bound(b, arm.alts, vals);
      Agrees((if arm.guard.None? then {} else Free(arm.guard.value)) + Free(arm.body), a', b')
  {
    MatchesFrame(arm.alts, a, b, vals);
    BoundCovers(a, arm.alts, vals);
    var bound := Bound(a, arm.alts, vals);
    forall x | x in (if arm.guard.None? then {} else Free(arm.guard.value)) + Free(arm.body)
      ensures At(a + bound, x) == At(b + bound, x)
    {
      if x !in bound {
        assert x !in Shared(arm.alts) && x in FreeArm(arm);
      }
    }
  }

  /** An expression's value depends on its free names only. */
  lemma {:induction false} EvalFrame(op: Ops, a: Vals, b: Vals, e: Src)
    requires Agrees(Free(e), a, b)
    ensures Eval(op, a, e) == Eval(op, b, e)
    decreases e
  {
    match e {
      case Num(_) =>
      case Name(_) =>
      case Op(_, args) => EvalAllFrame(op, a, b, args);
      case Match(scrutinee, arms) =>
        EvalAllFrame(op, a, b, scrutinee);
        var vals := EvalAll(op, a, scrutinee);
        if vals.Some? {
          EvalArmsFrame(op, a, b, vals.value, arms);
        }
    }
  }

  lemma {:induction false} EvalAllFrame(op: Ops, a: Vals, b: Vals, es: seq<Src>)
    requires Agrees(FreeAll(es), a, b)
    ensures EvalAll(op, a, es) == EvalAll(op, b, es)
    decreases es
  {
    if es != [] {
      EvalFrame(op, a, b, es[0]);
      EvalAllFrame(op, a, b, es[1..]);
    }
  }

  lemma {:induction false} EvalArmsFrame(op: Ops, a: Vals, b: Vals, vals: seq<int>, arms: seq<MatchArm>)
    requires Agrees(FreeArms(arms), a, b)
    ensures EvalArms(op, a, vals, arms) == EvalArms(op, b, vals, arms)
    decreases arms
  {
    if arms != [] {
      var arm := arms[0];
      assert FreeArms(arms) == FreeArm(arm) + FreeArms(arms[1..]) && Consts(arm.alts) <= FreeArm(arm);
      MatchesFrame(arm.alts, a, b, vals);
      EvalArmsFrame(op, a, b, vals, arms[1..]);
      if SomeMatches(a, arm.alts, vals) {
        InnerAgrees(arm, a, b, vals);
        var a', b' := a + Bound(a, arm.alts, vals), b + Bound(b, arm.alts, vals);
        if arm.guard.Some? {
          EvalFrame(op, a', b', arm.guard.value);
        }
        EvalFrame(op, a', b', arm.body);
      }
    }
  }

  // ----- A match with one binder ------------------------------------------------------------------

  lemma OneName(op: Ops, env: Vals, x: string)
    ensures EvalAll(op, env, [Name(x)]) == Syntax.Some([At(env, x)])
  {
    assert [Name(x)][1..] == [] && Eval(op, env, [Name(x)][0]) == Syntax.Some(At(env, x));
    assert EvalAll(op, env, [Name(x)][1..]) == Syntax.Some([]);
    assert [At(env, x)] + [] == [At(env, x)];
  }

  /** `match x { y => body }` is `body` with `y` bound to the value of `x`. */
  lemma OneBinder(op: Ops, env: Vals, x: string, y: string, body: Src)
    ensures Eval(op, env, Match([Name(x)], [MatchArm([[Bind(y)]], Syntax.None, body)])) == Eval(op, env[y := At(env, x)], body)
  {
    var p, v := [Bind(y)], At(env, x);
    OneName(op, env, x);
    assert Matches(env, p, [v]) && SomeMatches(env, [p], [v]) by {
      assert [p][0] == p;
    }
    assert BoundUpTo(p, [v], 1) == map[y := v];
    assert env + map[y := v] == env[y := v];
  }
}
