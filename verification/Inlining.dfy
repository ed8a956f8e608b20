/** Inlining a pure helper: a call is replaced by the body's tail, with arguments put for
  * parameters and each `let` folded in.
  */
module Inlining {
  import Syntax
  import opened Expressions

  datatype FnStmt =
    | LetStmt(name: string, init: Option<Src>)
    | Item
    | ExprStmt(expr: Src, semi: bool)

  datatype Fn = Fn(params: seq<string>, body: seq<FnStmt>)

  type Subst = map<string, Src>

  // ----- Substitution ---------------------------------------------------------------------------

  /** Every name in `s` replaced by what it stands for. Patterns are left as they are, and
    * a pattern's binders are not taken out of `s` below it.
    */
  function Replaced(e: Src, s: Subst): Src
    decreases e
  {
    match e
    case Num(_) => e
    case Name(x) => if x in s then s[x] else e
    case Op(f, args) => Op(f, AllReplaced(args, s))
    case Match(scrutinee, arms) => Match(AllReplaced(scrutinee, s), ArmsReplaced(arms, s))
  }

  function AllReplaced(es: seq<Src>, s: Subst): (r: seq<Src>)
    ensures |r| == |es|
    decreases es
  {
    if es == [] then [] else [Replaced(es[0], s)] + AllReplaced(es[1..], s)
  }

  function ArmsReplaced(arms: seq<MatchArm>, s: Subst): seq<MatchArm>
    decreases arms
  {
    if arms == [] then [] else [ArmReplaced(arms[0], s)] + ArmsReplaced(arms[1..], s)
  }

  function ArmReplaced(a: MatchArm, s: Subst): MatchArm
    decreases a
  {
    MatchArm(a.alts, if a.guard.None? then Syntax.None else Syntax.Some(Replaced(a.guard.value, s)), Replaced(a.body, s))
  }

  // ----- Building the inlined expression ----------------------------------------------------------

  /** The body's last statement, when it is an expression without a semicolon. */
  predicate HasTail(body: seq<FnStmt>) {
    body != [] && body[|body| - 1].ExprStmt? && !body[|body| - 1].semi
  }

  /** The substitution after the statements in front of the tail; nothing when one of them
    * is neither an item nor a `let` with an initializer.
    */
  function Folded(stmts: seq<FnStmt>, s: Subst): Option<Subst> {
    if stmts == [] then Syntax.Some(s) else
    match stmts[0]
    case LetStmt(x, init) =>
      if init.None? then Syntax.None else Folded(stmts[1..], s[x := Replaced(init.value, s)])
    case Item => Folded(stmts[1..], s)
    case ExprStmt(_, _) => Syntax.None
  }

  function Zip(params: seq<string>, args: seq<Src>): (s: Subst)
    requires |params| == |args|
    ensures s.Keys == set x | x in params
  {
    if params == [] then map[] else
    var n := |params| - 1;
    Zip(params[..n], args[..n])[params[n] := args[n]]
  }

  function Inlined(fn: Fn, args: seq<Src>): Option<Src> {
    if |fn.params| != |args| || !HasTail(fn.body) then Syntax.None else
    var n := |fn.body| - 1;
    var s := Folded(fn.body[..n], Zip(fn.params, args));
    if s.None? then Syntax.None else Syntax.Some(Replaced(fn.body[n].expr, s.value))
  }

  /** What may stand in front of the tail: an item, or a `let` with an initializer. */
  predicate Foldable(s: FnStmt) {
    s.Item? || (s.LetStmt? && s.init.Some?)
  }

  lemma {:induction false} FoldsIff(stmts: seq<FnStmt>, s: Subst)
    ensures Folded(stmts, s).Some? <==> forall x <- stmts :: Foldable(x)
    decreases |stmts|
  {
    if stmts != [] {
      assert stmts[0] in stmts && forall x <- stmts :: x == stmts[0] || x in stmts[1..];
      assert forall x <- stmts[1..] :: x in stmts;
      match stmts[0]
      case LetStmt(x, init) =>
        if init.Some? {
          FoldsIff(stmts[1..], s[x := Replaced(init.value, s)]);
        }
      case Item => FoldsIff(stmts[1..], s);
      case ExprStmt(_, _) =>
    }
  }

  /** A call is inlined exactly when it has as many arguments as there are parameters and the body
    * is items and initialized `let`s in front of an expression without a semicolon.
    */
  lemma InlinesIff(fn: Fn, args: seq<Src>)
    ensures Inlined(fn, args).Some? <==>
      && |fn.params| == |args| && HasTail(fn.body) && forall i :: 0 <= i < |fn.body| - 1 ==> Foldable(fn.body[i])
  {
    if |fn.params| == |args| && HasTail(fn.body) {
      var front := fn.body[..|fn.body| - 1];
      FoldsIff(front, Zip(fn.params, args));
      assert forall i :: 0 <= i < |front| ==> front[i] == fn.body[i] && front[i] in front;
    }
  }

  method BuildInlinedExpr(fn: Fn, args: seq<Src>) returns (r: Option<Src>)
    ensures r == Inlined(fn, args)
  {
    if |fn.params| != |args| {
      return Syntax.None;
    }
    var s: Subst := map[];
    for i := 0 to |args|
      invariant s == Zip(fn.params[..i], args[..i])
    {
      assert fn.params[..i + 1][..i] == fn.params[..i] && args[..i + 1][..i] == args[..i];
      s := s[fn.params[i] := args[i]];
    }
    assert fn.params[..|args|] == fn.params && args[..|args|] == args;
    if !HasTail(fn.body) {
      return Syntax.None;
    }
    var n := |fn.body| - 1;
    ghost var lets := fn.body[..n];
    for i := 0 to n
      invariant Folded(lets, Zip(fn.params, args)) == Folded(lets[i..], s)
    {
      assert lets[i..][0] == fn.body[i] && lets[i..][1..] == lets[i + 1..];
      match fn.body[i] {
        case LetStmt(x, init) =>
          if init.None? {
            return Syntax.None;
          }
          s := s[x := Replaced(init.value, s)];
        case Item =>
        case ExprStmt(_, _) =>
          return Syntax.None;
      }
    }
    return Syntax.Some(Replaced(fn.body[n].expr, s));
  }

  // ----- What a call means ------------------------------------------------------------------------

  function Frame(params: seq<string>, vals: seq<int>, globals: Vals): Vals
    requires |params| == |vals|
  {
    if params == [] then globals else
    var n := |params| - 1;
    Frame(params[..n], vals[..n], globals)[params[n] := vals[n]]
  }

  /** Run the `let`s one after the other, each seeing the ones before it. */
  function RunLets(op: Ops, env: Vals, stmts: seq<FnStmt>): Option<Vals>
    decreases |stmts|
  {
    if stmts == [] then Syntax.Some(env) else
    match stmts[0]
    case LetStmt(x, init) =>
      if init.None? then Syntax.None else
      var v := Eval(op, env, init.value);
      if v.None? then Syntax.None else RunLets(op, env[x := v.value], stmts[1..])
    case Item => RunLets(op, env, stmts[1..])
    case ExprStmt(_, _) => Syntax.None
  }

  /** A call evaluates its arguments where it stands, and its body where only the
    * parameters and the file's constants are visible.
    */
  function Call(op: Ops, caller: Vals, globals: Vals, fn: Fn, args: seq<Src>): Option<int> {
    if |fn.params| != |args| || !HasTail(fn.body) then Syntax.None else
    var vals := EvalAll(op, caller, args);
    if vals.None? then Syntax.None else
    var n := |fn.body| - 1;
    var env := RunLets(op, Frame(fn.params, vals.value, globals), fn.body[..n]);
    if env.None? then Syntax.None else Eval(op, env.value, fn.body[n].expr)
  }

  // ----- When the two agree --------------------------------------------------------------------------

  /** No binder in here is one of `names`, and no pattern compares against one of `subst`. */
  predicate Fresh(e: Src, names: set<string>, subst: set<string>)
    decreases e
  {
    match e
    case Num(_) => true
    case Name(_) => true
    case Op(_, args) => AllFresh(args, names, subst)
    case Match(scrutinee, arms) => AllFresh(scrutinee, names, subst) && ArmsFresh(arms, names, subst)
  }

  predicate AllFresh(es: seq<Src>, names: set<string>, subst: set<string>)
    decreases es
  {
    es != [] ==> Fresh(es[0], names, subst) && AllFresh(es[1..], names, subst)
  }

  predicate ArmsFresh(arms: seq<MatchArm>, names: set<string>, subst: set<string>)
    decreases arms
  {
    arms != [] ==> ArmFresh(arms[0], names, subst) && ArmsFresh(arms[1..], names, subst)
  }

  predicate ArmFresh(a: MatchArm, names: set<string>, subst: set<string>)
    decreases a
  {
    && Binders(a.alts) !! names && Consts(a.alts) !! subst
    && (a.guard.None? || Fresh(a.guard.value, names, subst)) && Fresh(a.body, names, subst)
  }

  /** The substitution's names, and the names in what it puts for them, are within `names`. */
  predicate Within(s: Subst, names: set<string>) {
    s.Keys <= names && forall x <- s :: Free(s[x]) <= names
  }

  /** For these names: what is put for a name has, outside, the value the name has inside;
    * any other name means the same on both sides.
    */
  predicate Stands(op: Ops, s: Subst, inside: Vals, outside: Vals, names: set<string>) {
    && Given(op, s, inside, outside)
    && forall x <- names :: x !in s ==> At(inside, x) == At(outside, x)
  }

  predicate Given(op: Ops, s: Subst, inside: Vals, outside: Vals) {
    forall x <- s :: Eval(op, outside, s[x]) == Syntax.Some(At(inside, x))
  }

  lemma {:induction false} ReplacedKeepsValue(op: Ops, e: Src, s: Subst, inside: Vals, outside: Vals, names: set<string>)
    requires Stands(op, s, inside, outside, Free(e)) && Within(s, names) && Fresh(e, names, s.Keys)
    requires Eval(op, inside, e).Some?
    ensures Eval(op, outside, Replaced(e, s)) == Eval(op, inside, e)
    decreases e
  {
    match e {
      case Num(_) =>
      case Name(_) =>
      case Op(_, args) =>
        AllReplacedKeep(op, args, s, inside, outside, names);
      case Match(scrutinee, arms) =>
        AllReplacedKeep(op, scrutinee, s, inside, outside, names);
        ArmsReplacedKeep(op, arms, EvalAll(op, inside, scrutinee).value, s, inside, outside, names);
    }
  }

  lemma {:induction false} AllReplacedKeep(op: Ops, es: seq<Src>, s: Subst, inside: Vals, outside: Vals, names: set<string>)
    requires Stands(op, s, inside, outside, FreeAll(es)) && Within(s, names) && AllFresh(es, names, s.Keys)
    requires EvalAll(op, inside, es).Some?
    ensures EvalAll(op, outside, AllReplaced(es, s)) == EvalAll(op, inside, es)
    decreases es
  {
    if es != [] {
      ReplacedKeepsValue(op, es[0], s, inside, outside, names);
      AllReplacedKeep(op, es[1..], s, inside, outside, names);
      assert AllReplaced(es, s)[1..] == AllReplaced(es[1..], s);
    }
  }

  /** Below a pattern both sides see its binders, and nothing else has changed. */
  lemma InnerStands(op: Ops, a: MatchArm, vals: seq<int>, s: Subst, inside: Vals, outside: Vals, names: set<string>)
    requires Stands(op, s, inside, outside, FreeArm(a)) && Within(s, names) && ArmFresh(a, names, s.Keys)
    requires SomeMatches(inside, a.alts, vals)
    ensures SomeMatches(outside, a.alts, vals)
    ensures var bound := Bound(inside, a.alts, vals);
      && bound == Bound(outside, a.alts, vals)
      && Stands(op, s, inside + bound, outside + bound, (if a.guard.None? then {} else Free(a.guard.value)) + Free(a.body))
  {
    assert Agrees(Consts(a.alts), inside, outside);
    MatchesFrame(a.alts, inside, outside, vals);
    var bound := Bound(inside, a.alts, vals);
    BoundKeys(inside, a.alts, vals);
    BoundCovers(inside, a.alts, vals);
    forall x | x in s ensures Eval(op, outside + bound, s[x]) == Syntax.Some(At(inside + bound, x)) {
      EvalFrame(op, outside, outside + bound, s[x]);
    }
    forall x | x in (if a.guard.None? then {} else Free(a.guard.value)) + Free(a.body) && x !in s
      ensures At(inside + bound, x) == At(outside + bound, x)
    {
      if x !in bound {
        assert x in FreeArm(a);
      }
    }
  }

  lemma {:induction false} ArmsReplacedKeep(op: Ops, arms: seq<MatchArm>, vals: seq<int>, s: Subst, inside: Vals,
                                            outside: Vals, names: set<string>)
    requires Stands(op, s, inside, outside, FreeArms(arms)) && Within(s, names) && ArmsFresh(arms, names, s.Keys)
    requires EvalArms(op, inside, vals, arms).Some?
    ensures EvalArms(op, outside, vals, ArmsReplaced(arms, s)) == EvalArms(op, inside, vals, arms)
    decreases arms
  {
    var a := arms[0];
    assert ArmsReplaced(arms, s)[1..] == ArmsReplaced(arms[1..], s) && ArmsReplaced(arms, s)[0] == ArmReplaced(a, s);
    assert FreeArms(arms) == FreeArm(a) + FreeArms(arms[1..]);
    if SomeMatches(inside, a.alts, vals) {
      InnerStands(op, a, vals, s, inside, outside, names);
      var bound := Bound(inside, a.alts, vals);
      if a.guard.Some? {
        ReplacedKeepsValue(op, a.guard.value, s, inside + bound, outside + bound, names);
      }
      if a.guard.None? || Eval(op, inside + bound, a.guard.value).value != 0 {
        ReplacedKeepsValue(op, a.body, s, inside + bound, outside + bound, names);
      } else {
        ArmsReplacedKeep(op, arms[1..], vals, s, inside, outside, names);
      }
    } else {
      assert Consts(a.alts) <= FreeArm(a);
      assert Agrees(Consts(a.alts), inside, outside);
      MatchesFrame(a.alts, inside, outside, vals);
      ArmsReplacedKeep(op, arms[1..], vals, s, inside, outside, names);
    }
  }

  // ----- A whole body ---------------------------------------------------------------------------------

  /** The names a body reads that are neither parameters nor bound by a `let` before. */
  function FreeIn(stmts: seq<FnStmt>, tail: Src, bound: set<string>): set<string> {
    if stmts == [] then Free(tail) - bound else
    match stmts[0]
    case LetStmt(x, init) => (if init.None? then {} else Free(init.value) - bound) + FreeIn(stmts[1..], tail, bound + {x})
    case Item => FreeIn(stmts[1..], tail, bound)
    case ExprStmt(_, _) => FreeIn(stmts[1..], tail, bound)
  }

  /** No binder in a body hides a parameter, a `let`, or a name that substitution puts
    * under it; `names` holds all of these, `bound` what is in scope so far.
    */
  predicate BodyFresh(stmts: seq<FnStmt>, tail: Src, names: set<string>, bound: set<string>) {
    if stmts == [] then Fresh(tail, names, bound) else
    match stmts[0]
    case LetStmt(x, init) =>
      && (init.None? || (Fresh(init.value, names, bound) && Free(init.value) <= names))
      && x in names && BodyFresh(stmts[1..], tail, names, bound + {x})
    case Item => BodyFresh(stmts[1..], tail, names, bound)
    case ExprStmt(_, _) => BodyFresh(stmts[1..], tail, names, bound)
  }

  lemma {:induction false} FreeReplaced(e: Src, s: Subst, names: set<string>)
    requires Within(s, names) && Free(e) <= names
    ensures Free(Replaced(e, s)) <= names
    decreases e
  {
    match e {
      case Num(_) =>
      case Name(_) =>
      case Op(_, args) => FreeAllReplaced(args, s, names);
      case Match(scrutinee, arms) =>
        FreeAllReplaced(scrutinee, s, names);
        FreeArmsReplaced(arms, s, names);
    }
  }

  lemma {:induction false} FreeAllReplaced(es: seq<Src>, s: Subst, names: set<string>)
    requires Within(s, names) && FreeAll(es) <= names
    ensures FreeAll(AllReplaced(es, s)) <= names
    decreases es
  {
    if es != [] {
      FreeReplaced(es[0], s, names);
      FreeAllReplaced(es[1..], s, names);
      assert AllReplaced(es, s)[1..] == AllReplaced(es[1..], s);
    }
  }

  lemma {:induction false} FreeArmsReplaced(arms: seq<MatchArm>, s: Subst, names: set<string>)
    requires Within(s, names) && FreeArms(arms) <= names
    ensures FreeArms(ArmsReplaced(arms, s)) <= names
    decreases arms
  {
    if arms != [] {
      var a := arms[0];
      var shared := Shared(a.alts);
      var wide := names + shared;
      assert FreeArms(arms) == FreeArm(a) + FreeArms(arms[1..]);
      assert Within(s, wide);
      if a.guard.Some? {
        assert forall x <- Free(a.guard.value) :: x in shared || x in FreeArm(a);
        FreeReplaced(a.guard.value, s, wide);
      }
      assert forall x <- Free(a.body) :: x in shared || x in FreeArm(a);
      FreeReplaced(a.body, s, wide);
      FreeArmsReplaced(arms[1..], s, names);
      assert ArmsReplaced(arms, s)[1..] == ArmsReplaced(arms[1..], s) && ArmsReplaced(arms, s)[0] == ArmReplaced(a, s);
      assert FreeArm(ArmReplaced(a, s)) <= names;
    }
  }

  /** Running the `let`s and folding them into the substitution come to the same. */
  lemma {:induction false} LetsFold(op: Ops, stmts: seq<FnStmt>, tail: Src, s: Subst, inside: Vals, outside: Vals, names: set<string>)
    requires Folded(stmts, s).Some? && RunLets(op, inside, stmts).Some?
    requires Within(s, names) && BodyFresh(stmts, tail, names, s.Keys)
    requires Stands(op, s, inside, outside, FreeIn(stmts, tail, s.Keys))
    requires Eval(op, RunLets(op, inside, stmts).value, tail).Some?
    ensures Eval(op, outside, Replaced(tail, Folded(stmts, s).value)) == Eval(op, RunLets(op, inside, stmts).value, tail)
    decreases |stmts|
  {
    if stmts == [] {
      assert Stands(op, s, inside, outside, Free(tail));
      ReplacedKeepsValue(op, tail, s, inside, outside, names);
    } else if stmts[0].Item? {
      LetsFold(op, stmts[1..], tail, s, inside, outside, names);
    } else {
      var x, init := stmts[0].name, stmts[0].init.value;
      assert Stands(op, s, inside, outside, Free(init));
      ReplacedKeepsValue(op, init, s, inside, outside, names);
      FreeReplaced(init, s, names);
      var s', inside' := s[x := Replaced(init, s)], inside[x := Eval(op, inside, init).value];
      assert s'.Keys == s.Keys + {x};
      LetsFold(op, stmts[1..], tail, s', inside', outside, names);
    }
  }

  lemma {:induction false} ArgumentsStand(op: Ops, params: seq<string>, args: seq<Src>, vals: seq<int>, globals: Vals, caller: Vals)
    requires |params| == |args| == |vals| && EvalAll(op, caller, args) == Syntax.Some(vals)
    ensures var s, env := Zip(params, args), Frame(params, vals, globals);
      && Given(op, s, env, caller)
      && forall x: string :: x !in s ==> At(env, x) == At(globals, x)
  {
    if params != [] {
      var n := |params| - 1;
      EvalAllPrefix(op, caller, args, n);
      ArgumentsStand(op, params[..n], args[..n], vals[..n], globals, caller);
      var s, env := Zip(params, args), Frame(params, vals, globals);
      var s', env' := Zip(params[..n], args[..n]), Frame(params[..n], vals[..n], globals);
      assert s == s'[params[n] := args[n]] && env == env'[params[n] := vals[n]];
      forall x | x in s ensures Eval(op, caller, s[x]) == Syntax.Some(At(env, x)) {
        assert x == params[n] || x in s';
      }
    }
  }

  lemma {:induction false} EvalAllPrefix(op: Ops, env: Vals, es: seq<Src>, n: nat)
    requires EvalAll(op, env, es).Some? && n < |es|
    ensures EvalAll(op, env, es[..n]) == Syntax.Some(EvalAll(op, env, es).value[..n])
    ensures Eval(op, env, es[n]) == Syntax.Some(EvalAll(op, env, es).value[n])
    decreases n
  {
    if n > 0 {
      EvalAllPrefix(op, env, es[1..], n - 1);
      assert es[..n][1..] == es[1..][..n - 1];
      var vs := EvalAll(op, env, es).value;
      assert vs[..n] == [vs[0]] + vs[1..][..n - 1];
    }
  }

  lemma {:induction false} ArgumentsWithin(params: seq<string>, args: seq<Src>, names: set<string>)
    requires |params| == |args| && (set x | x in params) <= names && FreeAll(args) <= names
    ensures Within(Zip(params, args), names)
  {
    if params != [] {
      var n := |params| - 1;
      FreeAllPrefix(args, n);
      ArgumentsWithin(params[..n], args[..n], names);
    }
  }

  lemma {:induction false} FreeAllPrefix(es: seq<Src>, n: nat)
    requires n < |es|
    ensures FreeAll(es[..n]) <= FreeAll(es) && Free(es[n]) <= FreeAll(es)
    decreases n
  {
    if n > 0 {
      FreeAllPrefix(es[1..], n - 1);
      assert es[..n][1..] == es[1..][..n - 1];
    }
  }

  /** Inlining keeps the value of a call, `let`s that rebind a name included, when no
    * pattern in the body binds a parameter, a `let` or a name of an argument or
    * initializer, and no constant the body reads is hidden at the call.
    */
  lemma InliningKeepsValue(op: Ops, caller: Vals, globals: Vals, fn: Fn, args: seq<Src>, names: set<string>)
    requires Inlined(fn, args).Some? && Call(op, caller, globals, fn, args).Some?
    requires (set x | x in fn.params) <= names && FreeAll(args) <= names
    requires var n := |fn.body| - 1; BodyFresh(fn.body[..n], fn.body[n].expr, names, set x | x in fn.params)
    requires var n := |fn.body| - 1; Agrees(FreeIn(fn.body[..n], fn.body[n].expr, set x | x in fn.params), globals, caller)
    ensures Eval(op, caller, Inlined(fn, args).value) == Call(op, caller, globals, fn, args)
  {
    var n := |fn.body| - 1;
    var vals := EvalAll(op, caller, args).value;
    ArgumentsStand(op, fn.params, args, vals, globals, caller);
    ArgumentsWithin(fn.params, args, names);
    var s, inside := Zip(fn.params, args), Frame(fn.params, vals, globals);
    assert Stands(op, s, inside, caller, FreeIn(fn.body[..n], fn.body[n].expr, s.Keys));
    LetsFold(op, fn.body[..n], fn.body[n].expr, s, inside, caller, names);
  }

  /** `fn f(a) { match k { t => a } }` called as `f(t)`: the pattern takes the caller's `t`. */
  lemma BinderCounterexample(op: Ops)
    ensures var fn := Fn(["a"], [ExprStmt(Match([Name("k")], [MatchArm([[Bind("t")]], Syntax.None, Name("a"))]), false)]);
      var caller, globals: Vals := map["t" := 7, "k" := 1], map["k" := 1];
      && Call(op, caller, globals, fn, [Name("t")]) == Syntax.Some(7)
      && Inlined(fn, [Name("t")]).Some? && Eval(op, caller, Inlined(fn, [Name("t")]).value) == Syntax.Some(1)
      && forall names: set<string> :: FreeAll([Name("t")]) <= names ==> !BodyFresh([], fn.body[0].expr, names, {"a"})
  {
    var body := Match([Name("k")], [MatchArm([[Bind("t")]], Syntax.None, Name("a"))]);
    var fn := Fn(["a"], [ExprStmt(body, false)]);
    var caller, globals: Vals := map["t" := 7, "k" := 1], map["k" := 1];
    var s: Subst := map["a" := Name("t")];
    OneName(op, caller, "t");
    assert fn.params[..0] == [] && [Name("t")][..0] == [] && fn.body[..0] == [];
    assert Zip(fn.params, [Name("t")]) == s;
    assert Frame(fn.params, [7], globals) == globals["a" := 7];
    OneBinder(op, globals["a" := 7], "k", "t", Name("a"));
    var arms := [MatchArm([[Bind("t")]], Syntax.None, Name("a"))];
    assert ArmsReplaced(arms, s) == [ArmReplaced(arms[0], s)] + ArmsReplaced(arms[1..], s);
    assert arms[1..] == [] && [Name("k")][1..] == [];
    assert AllReplaced([Name("k")], s) == [Name("k")];
    assert Replaced(body, s) == Match([Name("k")], [MatchArm([[Bind("t")]], Syntax.None, Name("t"))]);
    OneBinder(op, caller, "k", "t", Name("t"));
    forall names: set<string> | FreeAll([Name("t")]) <= names ensures !BodyFresh([], body, names, {"a"}) {
      assert "t" in FreeAll([Name("t")]);
      assert "t" in Binders([[Bind("t")]]);
    }
  }
}
