/** A `match` as a chain of multiplexers: built from the last arm to the first, so that
  * an earlier arm takes priority.
  */
module MuxChain {
  import Syntax
  import opened Expressions

  /** The combinational expressions a match lowers to. */
  datatype Chir =
    | Lit(value: int)
    | Var(name: string)
    | App(op: string, args: seq<Chir>)
    | Eq(left: Chir, right: Chir)
    | And(left: Chir, right: Chir)
    | Or(left: Chir, right: Chir)
    | Mux(cond: Chir, thenVal: Chir, elseVal: Chir)

  type Bindings = map<string, Chir>

  function Bit(b: bool): int {
    if b then 1 else 0
  }

  /** Every part of a circuit always has a value, whether or not it is selected. */
  function Value(op: Ops, store: Vals, c: Chir): int
    decreases c
  {
    match c
    case Lit(n) => n
    case Var(x) => At(store, x)
    case App(f, args) => op(f, Values(op, store, args))
    case Eq(l, r) => Bit(Value(op, store, l) == Value(op, store, r))
    case And(l, r) => Bit(Value(op, store, l) != 0 && Value(op, store, r) != 0)
    case Or(l, r) => Bit(Value(op, store, l) != 0 || Value(op, store, r) != 0)
    case Mux(c, t, e) => if Value(op, store, c) != 0 then Value(op, store, t) else Value(op, store, e)
  }

  function Values(op: Ops, store: Vals, cs: seq<Chir>): (vs: seq<int>)
    ensures |vs| == |cs| && forall i :: 0 <= i < |cs| ==> vs[i] == Value(op, store, cs[i])
    decreases cs
  {
    if cs == [] then [] else [Value(op, store, cs[0])] + Values(op, store, cs[1..])
  }

  // ----- What lowering yields ----------------------------------------------------------------------

  /** A condition that may be absent, which means it always holds. */
  function AndCond(acc: Option<Chir>, next: Chir): Option<Chir> {
    if acc.None? then Syntax.Some(next) else Syntax.Some(And(acc.value, next))
  }

  predicate Holds(op: Ops, store: Vals, c: Option<Chir>) {
    c.None? || Value(op, store, c.value) != 0
  }

  /** The scrutinee's positions, each lowered, if it can be, where a pattern looks at it. */
  type Positions = seq<Option<Chir>>

  /** Every position the pattern tests or binds can be lowered. */
  predicate Seen(p: Pattern, scs: Positions) {
    |p| == |scs| && forall i :: 0 <= i < |p| && !p[i].Wild? ==> scs[i].Some?
  }

  /** The test on a pattern's first `n` positions: wildcards and binders ask nothing. */
  function CondUpTo(p: Pattern, scs: Positions, n: nat): Option<Chir>
    requires n <= |p| && Seen(p, scs)
  {
    if n == 0 then Syntax.None else
    var c := CondUpTo(p, scs, n - 1);
    match p[n - 1]
    case OneLit(v) => AndCond(c, Eq(scs[n - 1].value, Lit(v)))
    case OneConst(x) => AndCond(c, Eq(scs[n - 1].value, Var(x)))
    case Wild => c
    case Bind(_) => c
  }

  function BindUpTo(p: Pattern, scs: Positions, n: nat): Bindings
    requires n <= |p| && Seen(p, scs)
  {
    if n == 0 then map[] else
    var b := BindUpTo(p, scs, n - 1);
    if p[n - 1].Bind? then b[p[n - 1].name := scs[n - 1].value] else b
  }

  /** A pattern of the scrutinee's arity whose positions can be lowered, or a lone `_`. */
  predicate AltOk(p: Pattern, scs: Positions) {
    Whole(p) || Seen(p, scs)
  }

  function AltCond(p: Pattern, scs: Positions): Option<Chir>
    requires AltOk(p, scs)
  {
    if Whole(p) then Syntax.None else CondUpTo(p, scs, |p|)
  }

  function AltBindings(p: Pattern, scs: Positions): Bindings
    requires AltOk(p, scs)
  {
    if Whole(p) then map[] else BindUpTo(p, scs, |p|)
  }

  /** The alternatives' tests joined, the first ones leftmost; absent when one is. */
  function AnyCond(alts: seq<Pattern>, scs: Positions, n: nat): Option<Chir>
    requires n <= |alts| && forall i :: 0 <= i < n ==> AltOk(alts[i], scs)
  {
    if n == 0 then Syntax.None else
    var here := AltCond(alts[n - 1], scs);
    if n == 1 then here else OrCond(AnyCond(alts, scs, n - 1), here)
  }

  function OrCond(before: Option<Chir>, here: Option<Chir>): Option<Chir> {
    if before.None? || here.None? then Syntax.None else Syntax.Some(Or(before.value, here.value))
  }

  predicate Binding(p: Pattern) {
    exists j :: 0 <= j < |p| && p[j].Bind?
  }

  predicate HasBinder(alts: seq<Pattern>) {
    exists i :: 0 <= i < |alts| && Binding(alts[i])
  }

  /** An arm's pattern can be lowered; not when its arity is wrong or a position it looks at
    * cannot be, nor when it is an or-pattern with a binder.
    */
  predicate AltsOk(alts: seq<Pattern>, scs: Positions) {
    (forall i :: 0 <= i < |alts| ==> AltOk(alts[i], scs)) && (|alts| > 1 ==> !HasBinder(alts))
  }

  function ArmBindings(alts: seq<Pattern>, scs: Positions): Bindings
    requires AltsOk(alts, scs)
  {
    if |alts| == 1 then AltBindings(alts[0], scs) else map[]
  }

  function Lower(e: Src, b: Bindings): Option<Chir>
    decreases e
  {
    match e
    case Num(n) => Syntax.Some(Lit(n))
    case Name(x) => Syntax.Some(if x in b then b[x] else Var(x))
    case Op(f, args) =>
      var cs := LowerAll(args, b);
      if cs.None? then Syntax.None else Syntax.Some(App(f, cs.value))
    case Match(scrutinee, arms) =>
      LowerArms(arms, LowerEach(scrutinee, b))
  }

  function LowerEach(es: seq<Src>, b: Bindings): (r: Positions)
    ensures |r| == |es| && forall i :: 0 <= i < |es| ==> r[i] == Lower(es[i], b)
    decreases es
  {
    if es == [] then [] else [Lower(es[0], b)] + LowerEach(es[1..], b)
  }

  function LowerAll(es: seq<Src>, b: Bindings): (r: Option<seq<Chir>>)
    ensures r.Some? ==> |r.value| == |es|
    decreases es
  {
    if es == [] then Syntax.Some([]) else
    var c, cs := Lower(es[0], b), LowerAll(es[1..], b);
    if c.None? || cs.None? then Syntax.None else Syntax.Some([c.value] + cs.value)
  }

  /** The chain for these arms. The last one is the fallback and its test is dropped. */
  function LowerArms(arms: seq<MatchArm>, scs: Positions): Option<Chir>
    decreases arms
  {
    if arms == [] || !AltsOk(arms[0].alts, scs) then Syntax.None else
    var a := arms[0];
    var inner := ArmBindings(a.alts, scs);
    var guard := if a.guard.None? then Syntax.Some(Syntax.None) else Lowered(Lower(a.guard.value, inner));
    var value := Lower(a.body, inner);
    if guard.None? || value.None? then Syntax.None
    else if |arms| == 1 then (if a.guard.Some? then Syntax.None else value)
    else
      var rest := LowerArms(arms[1..], scs);
      if rest.None? then Syntax.None else Syntax.Some(Chained(Full(AnyCond(a.alts, scs, |a.alts|), guard.value), value.value, rest.value))
  }

  function Lowered(c: Option<Chir>): Option<Option<Chir>> {
    if c.None? then Syntax.None else Syntax.Some(c)
  }

  function Full(cond: Option<Chir>, guard: Option<Chir>): Option<Chir> {
    if guard.None? then cond else AndCond(cond, guard.value)
  }

  /** An arm without a test hides everything after it. */
  function Chained(cond: Option<Chir>, value: Chir, rest: Chir): Chir {
    if cond.None? then value else Mux(cond.value, value, rest)
  }

  // ----- When it succeeds ------------------------------------------------------------------------------

  /** A `match` can be lowered when it has an arm, its last arm no guard, and every arm can: guards
    * on the others and wildcards over what cannot be lowered are fine.
    */
  predicate Lowerable(e: Src)
    decreases e
  {
    match e
    case Num(_) => true
    case Name(_) => true
    case Op(_, args) => forall a <- args :: Lowerable(a)
    case Match(scrutinee, arms) =>
      var ok := seq(|scrutinee|, i requires 0 <= i < |scrutinee| => Lowerable(scrutinee[i]));
      arms != [] && arms[|arms| - 1].guard.None? && forall a <- arms :: ArmLowerable(a, ok)
  }

  /** An arm can when its guard and its value can, each of its alternatives fits, and several bind
    * nothing.
    */
  predicate ArmLowerable(a: MatchArm, ok: seq<bool>)
    decreases a
  {
    && (forall p <- a.alts :: AltLowerable(p, ok)) && (|a.alts| > 1 ==> forall p <- a.alts :: !Binding(p))
    && (a.guard.Some? ==> Lowerable(a.guard.value)) && Lowerable(a.body)
  }

  /** A lone `_`, or as many positions as the scrutinee has, those it looks at lowerable. */
  predicate AltLowerable(p: Pattern, ok: seq<bool>) {
    Whole(p) || (|p| == |ok| && forall i :: 0 <= i < |p| ==> p[i].Wild? || ok[i])
  }

  /** The scrutinee's positions are those that could be lowered. */
  predicate Accessible(scs: Positions, ok: seq<bool>) {
    |scs| == |ok| && forall i :: 0 <= i < |ok| ==> (scs[i].Some? <==> ok[i])
  }

  /** Lowering succeeds on exactly these expressions, whatever is bound. */
  lemma {:induction false} LowersIff(e: Src, b: Bindings)
    ensures Lower(e, b).Some? <==> Lowerable(e)
    decreases e, 0
  {
    match e
    case Op(_, args) => LowersAllIff(args, b);
    case Match(scrutinee, arms) =>
      var ok := seq(|scrutinee|, i requires 0 <= i < |scrutinee| => Lowerable(scrutinee[i]));
      forall i | 0 <= i < |scrutinee| ensures LowerEach(scrutinee, b)[i].Some? <==> ok[i] {
        LowersIff(scrutinee[i], b);
      }
      LowersArmsIff(arms, LowerEach(scrutinee, b), ok);
    case _ =>
  }

  lemma {:induction false} LowersAllIff(es: seq<Src>, b: Bindings)
    ensures LowerAll(es, b).Some? <==> forall e <- es :: Lowerable(e)
    decreases es, 0
  {
    if es != [] {
      LowersIff(es[0], b);
      LowersAllIff(es[1..], b);
      assert forall e <- es :: e == es[0] || e in es[1..];
    }
  }

  lemma AltsOkIff(alts: seq<Pattern>, scs: Positions, ok: seq<bool>)
    requires Accessible(scs, ok)
    ensures AltsOk(alts, scs) <==> (forall p <- alts :: AltLowerable(p, ok)) && (|alts| > 1 ==> forall p <- alts :: !Binding(p))
  {
    forall p | p in alts ensures AltLowerable(p, ok) <==> AltOk(p, scs) {
    }
    if HasBinder(alts) {
      var i :| 0 <= i < |alts| && Binding(alts[i]);
      assert alts[i] in alts;
    }
    if p :| p in alts && Binding(p) {
      var i :| 0 <= i < |alts| && alts[i] == p;
    }
  }

  lemma {:induction false} LowersArmIff(a: MatchArm, scs: Positions, ok: seq<bool>)
    requires Accessible(scs, ok)
    ensures ArmLowerable(a, ok) <==>
      && AltsOk(a.alts, scs) && Lower(a.body, ArmBindings(a.alts, scs)).Some?
      && (a.guard.Some? ==> Lower(a.guard.value, ArmBindings(a.alts, scs)).Some?)
    decreases a, 1
  {
    AltsOkIff(a.alts, scs, ok);
    if AltsOk(a.alts, scs) {
      LowersIff(a.body, ArmBindings(a.alts, scs));
      if a.guard.Some? {
        LowersIff(a.guard.value, ArmBindings(a.alts, scs));
      }
    }
  }

  lemma {:induction false} LowersArmsIff(arms: seq<MatchArm>, scs: Positions, ok: seq<bool>)
    requires Accessible(scs, ok)
    ensures LowerArms(arms, scs).Some? <==>
      arms != [] && arms[|arms| - 1].guard.None? && forall a <- arms :: ArmLowerable(a, ok)
    decreases arms, 0
  {
    if arms != [] {
      LowersArmIff(arms[0], scs, ok);
      LowersArmsIff(arms[1..], scs, ok);
      assert forall a <- arms :: a == arms[0] || a in arms[1..];
      assert arms[0] in arms && forall a <- arms[1..] :: a in arms;
      if |arms| > 1 {
        assert arms[1..][|arms| - 2] == arms[|arms| - 1];
      }
    }
  }

  // ----- The lowering itself --------------------------------------------------------------------------

  /** `bindings` names the scrutinee positions the arm being lowered has bound. */
  class LowerCtx {
    var bindings: Bindings

    constructor ()
      ensures bindings == map[]
    {
      bindings := map[];
    }

    method LowerExpr(e: Src) returns (r: Option<Chir>)
      modifies this
      ensures r == Lower(e, old(bindings)) && (r.Some? ==> bindings == old(bindings))
      decreases e, 4
    {
      match e {
        case Num(n) =>
          return Syntax.Some(Lit(n));
        case Name(x) =>
          return Syntax.Some(if x in bindings then bindings[x] else Var(x));
        case Op(f, args) =>
          var cs := LowerExprs(args);
          return if cs.None? then Syntax.None else Syntax.Some(App(f, cs.value));
        case Match(_, _) =>
          r := LowerMatchAsChain(e);
      }
    }

    method LowerExprs(es: seq<Src>) returns (r: Option<seq<Chir>>)
      modifies this
      ensures r == LowerAll(es, old(bindings)) && (r.Some? ==> bindings == old(bindings))
      decreases es
    {
      if es == [] {
        return Syntax.Some([]);
      }
      var c := LowerExpr(es[0]);
      if c.None? {
        return Syntax.None;
      }
      var cs := LowerExprs(es[1..]);
      return if cs.None? then Syntax.None else Syntax.Some([c.value] + cs.value);
    }

    /** Back to front: each arm is put in front of what is already built. */
    method LowerMatchAsChain(e: Src) returns (r: Option<Chir>)
      requires e.Match?
      modifies this
      ensures r == LowerArms(e.arms, LowerEach(e.scrutinee, old(bindings))) && (r.Some? ==> bindings == old(bindings))
      decreases e, 3
    {
      ghost var scs := LowerEach(e.scrutinee, bindings);
      r := Syntax.None;
      var i := |e.arms|;
      while i > 0
        invariant 0 <= i <= |e.arms| && bindings == old(bindings)
        invariant r == LowerArms(e.arms[i..], scs) && (i < |e.arms| ==> r.Some?)
      {
        i := i - 1;
        assert e.arms[i..][1..] == e.arms[i + 1..];
        r := LowerArm(e, i, r);
        if r.None? {
          BadArm(e.arms, scs, i);
          return;
        }
      }
      assert e.arms[0..] == e.arms;
    }

    /** Arm `i` in front of the chain `rest`, which is absent for the last arm. */
    method LowerArm(e: Src, i: nat, rest: Option<Chir>) returns (r: Option<Chir>)
      requires e.Match? && i < |e.arms| && (i + 1 < |e.arms| <==> rest.Some?)
      requires rest == LowerArms(e.arms[i + 1..], LowerEach(e.scrutinee, bindings))
      modifies this
      ensures r == LowerArms(e.arms[i..], LowerEach(e.scrutinee, old(bindings))) && (r.Some? ==> bindings == old(bindings))
      decreases e, 2
    {
      var a := e.arms[i];
      assert e.arms[i..][0] == a && e.arms[i..][1..] == e.arms[i + 1..];
      var ok, cond, bound := LowerAlts(e, a.alts);
      if !ok {
        return Syntax.None;
      }
      var saved := bindings;
      bindings := bound;
      var guard: Option<Chir> := Syntax.None;
      if a.guard.Some? {
        guard := LowerExpr(a.guard.value);
        if guard.None? {
          return Syntax.None;
        }
      }
      var value := LowerExpr(a.body);
      if value.None? {
        return Syntax.None;
      }
      bindings := saved;
      if rest.None? {
        return if a.guard.Some? then Syntax.None else value;
      }
      r := Syntax.Some(Chained(Full(cond, guard), value.value, rest.value));
    }

    /** The test and the bindings of one arm's alternatives, unless one cannot be lowered or
      * several come with a binder.
      */
    method LowerAlts(e: Src, alts: seq<Pattern>) returns (ok: bool, cond: Option<Chir>, bound: Bindings)
      requires e.Match?
      modifies this
      ensures var scs := LowerEach(e.scrutinee, old(bindings));
        && (ok <==> AltsOk(alts, scs))
        && (ok ==> cond == AnyCond(alts, scs, |alts|) && bound == ArmBindings(alts, scs) && bindings == old(bindings))
      decreases e, 1
    {
      ghost var scs := LowerEach(e.scrutinee, bindings);
      ok, cond, bound := true, Syntax.None, map[];
      var binds := false;
      for i := 0 to |alts|
        invariant ok && bindings == old(bindings) && Joined(alts, scs, i, cond, bound, binds)
      {
        var fine, here, names := LowerAlt(e, alts[i]);
        if !fine {
          return false, Syntax.None, map[];
        }
        JoinStep(alts, scs, i, cond, bound, binds, here, names);
        binds := binds || Binding(alts[i]);
        if |alts| == 1 {
          bound := names;
        }
        cond := if i == 0 then here else OrCond(cond, here);
      }
      JoinEnd(alts, scs, cond, bound, binds);
      ok := |alts| <= 1 || !binds;
    }

    /** One alternative: a position is lowered where the pattern tests or binds it. */
    method LowerAlt(e: Src, p: Pattern) returns (ok: bool, cond: Option<Chir>, bound: Bindings)
      requires e.Match?
      modifies this
      ensures var scs := LowerEach(e.scrutinee, old(bindings));
        && (ok <==> AltOk(p, scs))
        && (ok ==> cond == AltCond(p, scs) && bound == AltBindings(p, scs) && bindings == old(bindings))
      decreases e, 0
    {
      ghost var scs := LowerEach(e.scrutinee, bindings);
      ok, cond, bound := true, Syntax.None, map[];
      if Whole(p) {
        return;
      }
      if |p| != |e.scrutinee| {
        return false, Syntax.None, map[];
      }
      for i := 0 to |p|
        invariant ok && bindings == old(bindings)
        invariant forall j :: 0 <= j < i && !p[j].Wild? ==> scs[j].Some?
        invariant cond == CondUpTo(p[..i], scs[..i], i) && bound == BindUpTo(p[..i], scs[..i], i)
      {
        PrefixSame(p, scs, i);
        if !p[i].Wild? {
          var sc := LowerExpr(e.scrutinee[i]);
          if sc.None? {
            return false, Syntax.None, map[];
          }
          match p[i] {
            case OneLit(v) => cond := AndCond(cond, Eq(sc.value, Lit(v)));
            case OneConst(x) => cond := AndCond(cond, Eq(sc.value, Var(x)));
            case Bind(x) => bound := bound[x := sc.value];
          }
        }
      }
      assert p[..|p|] == p && scs[..|p|] == scs;
    }
  }

  /** The first `n` alternatives can be lowered, and this is what they come to. */
  ghost predicate Joined(alts: seq<Pattern>, scs: Positions, n: nat, cond: Option<Chir>, bound: Bindings, binds: bool) {
    && n <= |alts| && (forall j :: 0 <= j < n ==> AltOk(alts[j], scs))
    && cond == AnyCond(alts, scs, n) && bound == (if n == 1 && |alts| == 1 then AltBindings(alts[0], scs) else map[])
    && (binds <==> HasBinder(alts[..n]))
  }

  lemma JoinStep(alts: seq<Pattern>, scs: Positions, i: nat, cond: Option<Chir>, bound: Bindings, binds: bool,
                 here: Option<Chir>, names: Bindings)
    requires i < |alts| && Joined(alts, scs, i, cond, bound, binds)
    requires AltOk(alts[i], scs) && here == AltCond(alts[i], scs) && names == AltBindings(alts[i], scs)
    ensures Joined(alts, scs, i + 1, if i == 0 then here else OrCond(cond, here), if |alts| == 1 then names else bound,
                   binds || Binding(alts[i]))
  {
    BinderStep(alts, i);
  }

  lemma JoinEnd(alts: seq<Pattern>, scs: Positions, cond: Option<Chir>, bound: Bindings, binds: bool)
    requires Joined(alts, scs, |alts|, cond, bound, binds)
    ensures AltsOk(alts, scs) <==> |alts| <= 1 || !binds
    ensures AltsOk(alts, scs) ==> cond == AnyCond(alts, scs, |alts|) && bound == ArmBindings(alts, scs)
  {
    assert alts[..|alts|] == alts;
  }

  lemma BinderStep(alts: seq<Pattern>, i: nat)
    requires i < |alts|
    ensures HasBinder(alts[..i + 1]) <==> HasBinder(alts[..i]) || Binding(alts[i])
  {
    if HasBinder(alts[..i + 1]) {
      var k :| 0 <= k < i + 1 && Binding(alts[..i + 1][k]);
      if k < i {
        assert alts[..i][k] == alts[..i + 1][k];
      }
    }
    if HasBinder(alts[..i]) {
      var k :| 0 <= k < i && Binding(alts[..i][k]);
      assert alts[..i + 1][k] == alts[..i][k];
    }
    if Binding(alts[i]) {
      assert alts[..i + 1][i] == alts[i];
    }
  }

  /** A pattern's first positions are tested and bound the same whatever follows them. */
  lemma {:induction false} UpToSame(p: Pattern, scs: Positions, q: Pattern, ts: Positions, n: nat)
    requires Seen(p, scs) && Seen(q, ts) && n <= |p| && n <= |q| && p[..n] == q[..n] && scs[..n] == ts[..n]
    ensures CondUpTo(p, scs, n) == CondUpTo(q, ts, n) && BindUpTo(p, scs, n) == BindUpTo(q, ts, n)
  {
    if n > 0 {
      assert p[..n - 1] == p[..n][..n - 1] && q[..n - 1] == q[..n][..n - 1];
      assert scs[..n - 1] == scs[..n][..n - 1] && ts[..n - 1] == ts[..n][..n - 1];
      UpToSame(p, scs, q, ts, n - 1);
      assert p[n - 1] == p[..n][n - 1] && q[n - 1] == q[..n][n - 1] && scs[n - 1] == scs[..n][n - 1] && ts[n - 1] == ts[..n][n - 1];
    }
  }

  lemma PrefixSame(p: Pattern, scs: Positions, i: nat)
    requires i < |p| == |scs| && forall j :: 0 <= j < i && !p[j].Wild? ==> scs[j].Some?
    ensures Seen(p[..i], scs[..i])
    ensures p[i].Wild? || scs[i].Some? ==>
      && Seen(p[..i + 1], scs[..i + 1])
      && CondUpTo(p[..i + 1], scs[..i + 1], i) == CondUpTo(p[..i], scs[..i], i)
      && BindUpTo(p[..i + 1], scs[..i + 1], i) == BindUpTo(p[..i], scs[..i], i)
  {
    assert p[..i + 1][..i] == p[..i] == p[..i][..i] && scs[..i + 1][..i] == scs[..i] == scs[..i][..i];
    if p[i].Wild? || scs[i].Some? {
      UpToSame(p[..i + 1], scs[..i + 1], p[..i], scs[..i], i);
    }
  }

  /** One arm that cannot be lowered makes the whole match fail. */
  lemma {:induction false} BadArm(arms: seq<MatchArm>, scs: Positions, i: nat)
    requires i < |arms| && LowerArms(arms[i..], scs).None?
    ensures LowerArms(arms, scs).None?
  {
    if i > 0 {
      assert arms[1..][i - 1..] == arms[i..];
      BadArm(arms[1..], scs, i - 1);
    } else {
      assert arms[0..] == arms;
    }
  }

  // ----- First-match meaning -------------------------------------------------------------------------

  /** No name is looked for where lowering has lost it: an arm's bindings replace those of
    * the arms around it, so under an inner match an outer binder must not be mentioned.
    */
  predicate Uncaptured(e: Src, live: set<string>, lost: set<string>)
    decreases e
  {
    match e
    case Num(_) => true
    case Name(x) => x !in lost
    case Op(_, args) => AllUncaptured(args, live, lost)
    case Match(scrutinee, arms) => AllUncaptured(scrutinee, live, lost) && ArmsUncaptured(arms, live + lost)
  }

  predicate AllUncaptured(es: seq<Src>, live: set<string>, lost: set<string>)
    decreases es
  {
    es != [] ==> Uncaptured(es[0], live, lost) && AllUncaptured(es[1..], live, lost)
  }

  predicate ArmsUncaptured(arms: seq<MatchArm>, outer: set<string>)
    decreases arms
  {
    arms != [] ==> ArmUncaptured(arms[0], outer) && ArmsUncaptured(arms[1..], outer)
  }

  predicate ArmUncaptured(a: MatchArm, outer: set<string>)
    decreases a
  {
    var mine := Binders(a.alts);
    && a.alts != [] && Consts(a.alts) !! outer
    && (a.guard.None? || Uncaptured(a.guard.value, mine, outer - mine))
    && Uncaptured(a.body, mine, outer - mine)
  }

  /** What the source sees under each name that is not lost, the circuit sees too. */
  ghost predicate Sees(op: Ops, store: Vals, b: Bindings, lost: set<string>, env: Vals) {
    forall x: string :: x !in lost ==> At(env, x) == if x in b then Value(op, store, b[x]) else At(store, x)
  }

  /** The positions that can be lowered have the scrutinee's values. */
  ghost predicate Carries(op: Ops, store: Vals, scs: Positions, vals: seq<int>) {
    |scs| == |vals| && forall i :: 0 <= i < |scs| && scs[i].Some? ==> Value(op, store, scs[i].value) == vals[i]
  }

    lemma {:induction false} CondFits(op: Ops, store: Vals, env: Vals, p: Pattern, scs: Positions, vals: seq<int>, n: nat)
    requires Carries(op, store, scs, vals)
    requires n <= |p| && Seen(p, scs) && Agrees(ConstsOf(p), env, store)
    ensures Holds(op, store, CondUpTo(p, scs, n)) <==> forall i :: 0 <= i < n ==> Fits(env, p[i], vals[i])
  {
    if n > 0 {
      CondFits(op, store, env, p, scs, vals, n - 1);
      CondStep(op, store, env, p, scs, vals, n);
    }
  }

  lemma CondStep(op: Ops, store: Vals, env: Vals, p: Pattern, scs: Positions, vals: seq<int>, n: nat)
    requires Carries(op, store, scs, vals)
    requires 0 < n <= |p| && Seen(p, scs) && Agrees(ConstsOf(p), env, store)
    ensures Holds(op, store, CondUpTo(p, scs, n)) <==>
      Holds(op, store, CondUpTo(p, scs, n - 1)) && Fits(env, p[n - 1], vals[n - 1])
  {
    match p[n - 1] {
      case OneLit(v) =>
        var sc := scs[n - 1].value;
        assert Value(op, store, Eq(sc, Lit(v))) == Bit(Value(op, store, sc) == v);
      case OneConst(c) =>
        var sc := scs[n - 1].value;
        assert c in ConstsOf(p) && At(env, c) == At(store, c);
        assert Value(op, store, Eq(sc, Var(c))) == Bit(Value(op, store, sc) == At(store, c));
      case Wild =>
      case Bind(_) =>
    }
  }

  lemma AltFits(op: Ops, store: Vals, env: Vals, p: Pattern, scs: Positions, vals: seq<int>)
    requires Carries(op, store, scs, vals)
    requires AltOk(p, scs) && Agrees(ConstsOf(p), env, store)
    ensures Holds(op, store, AltCond(p, scs)) <==> Matches(env, p, vals)
  {
    if !Whole(p) {
      CondFits(op, store, env, p, scs, vals, |p|);
    }
  }

  predicate SomeMatchesUpTo(env: Vals, alts: seq<Pattern>, vals: seq<int>, n: nat) {
    exists i :: 0 <= i < n && i < |alts| && Matches(env, alts[i], vals)
  }

  lemma {:induction false} AnyFits(op: Ops, store: Vals, env: Vals, alts: seq<Pattern>, scs: Positions, vals: seq<int>, n: nat)
    requires Carries(op, store, scs, vals)
    requires 0 < n <= |alts| && (forall i :: 0 <= i < |alts| ==> AltOk(alts[i], scs)) && Agrees(Consts(alts), env, store)
    ensures Holds(op, store, AnyCond(alts, scs, n)) <==> SomeMatchesUpTo(env, alts, vals, n)
  {
    ConstsWithin(alts, n - 1);
    AltFits(op, store, env, alts[n - 1], scs, vals);
    if n > 1 {
      AnyFits(op, store, env, alts, scs, vals, n - 1);
    }
  }

  lemma {:induction false} ConstsWithin(alts: seq<Pattern>, i: nat)
    requires i < |alts|
    ensures ConstsOf(alts[i]) <= Consts(alts)
  {
    if i > 0 {
      ConstsWithin(alts[1..], i - 1);
    }
  }

  /** A binder names the same value on both sides. */
  lemma {:induction false} BindersMatch(op: Ops, store: Vals, p: Pattern, scs: Positions, vals: seq<int>, n: nat)
    requires Carries(op, store, scs, vals)
    requires n <= |p| && Seen(p, scs)
    ensures var b, v := BindUpTo(p, scs, n), BoundUpTo(p, vals, n);
      b.Keys == v.Keys && forall x <- b :: Value(op, store, b[x]) == v[x]
    ensures n == |p| ==> BindUpTo(p, scs, n).Keys == BindersOf(p)
  {
    if n > 0 {
      BindersMatch(op, store, p, scs, vals, n - 1);
    }
    BindKeys(p, scs, n);
  }

  lemma {:induction false} BindKeys(p: Pattern, scs: Positions, n: nat)
    requires n <= |p| && Seen(p, scs)
    ensures BindUpTo(p, scs, n).Keys == set i | 0 <= i < n && p[i].Bind? :: p[i].name
  {
    if n > 0 {
      BindKeys(p, scs, n - 1);
    }
  }

  lemma {:induction false} NoBinders(env: Vals, alts: seq<Pattern>, vals: seq<int>)
    requires !HasBinder(alts)
    ensures Binders(alts) == {} && Bound(env, alts, vals) == map[]
  {
    if alts != [] {
      assert !HasBinder(alts[1..]) by {
        forall i, j | 0 <= i < |alts[1..]| && 0 <= j < |alts[1..][i]| ensures !alts[1..][i][j].Bind? {
          assert !alts[i + 1][j].Bind?;
        }
      }
      NoBinders(env, alts[1..], vals);
      BoundUpToKeys(alts[0], vals, |alts[0]|);
      assert BindersOf(alts[0]) == {};
    }
  }

  /** An arm that fits binds the same names to the same values on both sides. */
  lemma ArmBinds(op: Ops, store: Vals, env: Vals, alts: seq<Pattern>, scs: Positions, vals: seq<int>)
    requires Carries(op, store, scs, vals)
    requires alts != [] && AltsOk(alts, scs) && SomeMatches(env, alts, vals)
    ensures var b, v := ArmBindings(alts, scs), Bound(env, alts, vals);
      b.Keys == v.Keys == Binders(alts) && forall x <- b :: Value(op, store, b[x]) == v[x]
  {
    if |alts| == 1 {
      assert Matches(env, alts[0], vals) && Binders(alts) == BindersOf(alts[0]) + Binders(alts[1..]) && Binders(alts[1..]) == {};
      if Whole(alts[0]) {
        assert BoundUpTo(alts[0], vals, 1) == map[];
      } else {
        BindersMatch(op, store, alts[0], scs, vals, |alts[0]|);
      }
    } else {
      NoBinders(env, alts, vals);
    }
  }

  /** Lowering is exact: wherever the source expression has a value, the circuit has that
    * value. For a match this is the body of the first arm whose pattern and guard hold,
    * although the last arm's test is gone.
    */
  lemma {:induction false} ChainIsFirstMatch(op: Ops, store: Vals, env: Vals, e: Src, b: Bindings, lost: set<string>)
    requires Lower(e, b).Some? && Uncaptured(e, b.Keys, lost) && Sees(op, store, b, lost, env) && b.Keys !! lost
    requires Eval(op, env, e).Some?
    ensures Value(op, store, Lower(e, b).value) == Eval(op, env, e).value
    decreases e
  {
    match e {
      case Num(_) =>
      case Name(_) =>
      case Op(f, args) =>
        AllFirstMatch(op, store, env, args, b, lost);
      case Match(scrutinee, arms) =>
        EachFirstMatch(op, store, env, scrutinee, b, lost);
        ArmsFirstMatch(op, store, env, arms, LowerEach(scrutinee, b), EvalAll(op, env, scrutinee).value, b, lost);
    }
  }

  lemma {:induction false} AllFirstMatch(op: Ops, store: Vals, env: Vals, es: seq<Src>, b: Bindings, lost: set<string>)
    requires LowerAll(es, b).Some? && AllUncaptured(es, b.Keys, lost) && Sees(op, store, b, lost, env) && b.Keys !! lost
    requires EvalAll(op, env, es).Some?
    ensures Values(op, store, LowerAll(es, b).value) == EvalAll(op, env, es).value
    decreases es
  {
    if es != [] {
      ChainIsFirstMatch(op, store, env, es[0], b, lost);
      AllFirstMatch(op, store, env, es[1..], b, lost);
      assert LowerAll(es, b).value[1..] == LowerAll(es[1..], b).value;
    }
  }

  lemma {:induction false} EachFirstMatch(op: Ops, store: Vals, env: Vals, es: seq<Src>, b: Bindings, lost: set<string>)
    requires AllUncaptured(es, b.Keys, lost) && Sees(op, store, b, lost, env) && b.Keys !! lost
    requires EvalAll(op, env, es).Some?
    ensures Carries(op, store, LowerEach(es, b), EvalAll(op, env, es).value)
    decreases es
  {
    if es != [] {
      if Lower(es[0], b).Some? {
        ChainIsFirstMatch(op, store, env, es[0], b, lost);
      }
      EachFirstMatch(op, store, env, es[1..], b, lost);
      assert LowerEach(es, b)[1..] == LowerEach(es[1..], b) && EvalAll(op, env, es).value[1..] == EvalAll(op, env, es[1..]).value;
    }
  }

  /** Inside an arm that fits, both sides see the same. */
  lemma InnerSees(op: Ops, store: Vals, env: Vals, a: MatchArm, scs: Positions, vals: seq<int>, b: Bindings, lost: set<string>)
    requires Carries(op, store, scs, vals)
    requires Sees(op, store, b, lost, env) && AltsOk(a.alts, scs) && a.alts != []
    requires SomeMatches(env, a.alts, vals)
    ensures var inner, mine := ArmBindings(a.alts, scs), Binders(a.alts);
      && inner.Keys == mine
      && Sees(op, store, inner, (b.Keys + lost) - mine, env + Bound(env, a.alts, vals))
  {
    ArmBinds(op, store, env, a.alts, scs, vals);
  }

  lemma ArmTest(op: Ops, store: Vals, env: Vals, a: MatchArm, scs: Positions, vals: seq<int>, b: Bindings, lost: set<string>)
    requires Carries(op, store, scs, vals)
    requires Sees(op, store, b, lost, env) && AltsOk(a.alts, scs) && a.alts != [] && Consts(a.alts) !! b.Keys + lost
    ensures Holds(op, store, AnyCond(a.alts, scs, |a.alts|)) <==> SomeMatches(env, a.alts, vals)
  {
    assert Agrees(Consts(a.alts), env, store);
    AnyFits(op, store, env, a.alts, scs, vals, |a.alts|);
  }

  /** What one arm in front of a chain comes to. */
  lemma ChainedValue(op: Ops, store: Vals, cond: Option<Chir>, guard: Option<Chir>, value: Chir, rest: Chir)
    ensures Value(op, store, Chained(Full(cond, guard), value, rest))
         == if Holds(op, store, cond) && Holds(op, store, guard) then Value(op, store, value) else Value(op, store, rest)
  {
  }

  lemma {:induction false} ArmsFirstMatch(op: Ops, store: Vals, env: Vals, arms: seq<MatchArm>, scs: Positions, vals: seq<int>,
                                          b: Bindings, lost: set<string>)
    requires Carries(op, store, scs, vals)
    requires LowerArms(arms, scs).Some? && ArmsUncaptured(arms, b.Keys + lost) && Sees(op, store, b, lost, env)
    requires EvalArms(op, env, vals, arms).Some?
    ensures Value(op, store, LowerArms(arms, scs).value) == EvalArms(op, env, vals, arms).value
    decreases arms, 1
  {
    var a := arms[0];
    assert ArmUncaptured(a, b.Keys + lost);
    var inner := ArmBindings(a.alts, scs);
    ArmTest(op, store, env, a, scs, vals, b, lost);
    var taken := false;
    if SomeMatches(env, a.alts, vals) {
      taken := ArmFirstMatch(op, store, env, arms, scs, vals, b, lost);
    }
    if !taken {
      ArmsFirstMatch(op, store, env, arms[1..], scs, vals, b, lost);
    }
    if |arms| > 1 {
      var guard := if a.guard.None? then Syntax.None else Lower(a.guard.value, inner);
      ChainedValue(op, store, AnyCond(a.alts, scs, |a.alts|), guard, Lower(a.body, inner).value, LowerArms(arms[1..], scs).value);
    }
  }

  /** The first arm, when its pattern fits: is it taken, and with what value? */
  lemma {:induction false} ArmFirstMatch(op: Ops, store: Vals, env: Vals, arms: seq<MatchArm>, scs: Positions, vals: seq<int>,
                                         b: Bindings, lost: set<string>)
    returns (taken: bool)
    requires Carries(op, store, scs, vals)
    requires LowerArms(arms, scs).Some? && ArmsUncaptured(arms, b.Keys + lost) && Sees(op, store, b, lost, env)
    requires EvalArms(op, env, vals, arms).Some? && SomeMatches(env, arms[0].alts, vals)
    ensures var a := arms[0];
      var env', inner := env + Bound(env, a.alts, vals), ArmBindings(a.alts, scs);
      && (a.guard.Some? ==> Eval(op, env', a.guard.value).Some? && (Value(op, store, Lower(a.guard.value, inner).value) != 0) == taken)
      && (a.guard.None? ==> taken)
      && (taken ==> EvalArms(op, env, vals, arms) == Eval(op, env', a.body)
                    && Eval(op, env', a.body) == Syntax.Some(Value(op, store, Lower(a.body, inner).value)))
      && (!taken ==> EvalArms(op, env, vals, arms) == EvalArms(op, env, vals, arms[1..]))
    decreases arms, 0
  {
    var a := arms[0];
    assert ArmUncaptured(a, b.Keys + lost);
    var inner, mine := ArmBindings(a.alts, scs), Binders(a.alts);
    InnerSees(op, store, env, a, scs, vals, b, lost);
    var env' := env + Bound(env, a.alts, vals);
    taken := true;
    if a.guard.Some? {
      ChainIsFirstMatch(op, store, env', a.guard.value, inner, (b.Keys + lost) - mine);
      taken := Eval(op, env', a.guard.value).value != 0;
    }
    if taken {
      ChainIsFirstMatch(op, store, env', a.body, inner, (b.Keys + lost) - mine);
    }
  }

  /** At the top nothing is bound and nothing is lost. */
  lemma LoweringKeepsValue(op: Ops, store: Vals, e: Src)
    requires Lower(e, map[]).Some? && Uncaptured(e, {}, {}) && Eval(op, store, e).Some?
    ensures Value(op, store, Lower(e, map[]).value) == Eval(op, store, e).value
  {
    var none: Bindings := map[];
    assert none.Keys == {} && Sees(op, store, none, {}, store);
    ChainIsFirstMatch(op, store, store, e, none, {});
  }

  /** `match a { t => match b { u => t } }`: the inner arm's bindings replace the outer
    * arm's, so `t` becomes a name of the module.
    */
  lemma CaptureCounterexample(op: Ops)
    ensures var inner := Match([Name("b")], [MatchArm([[Bind("u")]], Syntax.None, Name("t"))]);
      var e := Match([Name("a")], [MatchArm([[Bind("t")]], Syntax.None, inner)]);
      var store: Vals := map["a" := 7, "b" := 1];
      && Eval(op, store, e) == Syntax.Some(7)
      && Lower(e, map[]) == Syntax.Some(Var("t")) && Value(op, store, Var("t")) == 0
      && !Uncaptured(e, {}, {})
  {
    var arm := MatchArm([[Bind("u")]], Syntax.None, Name("t"));
    var inner := Match([Name("b")], [arm]);
    var outer := MatchArm([[Bind("t")]], Syntax.None, inner);
    var e := Match([Name("a")], [outer]);
    var store: Vals := map["a" := 7, "b" := 1];
    OneBinder(op, store, "b", "u", Name("t"));
    OneBinder(op, store, "a", "t", inner);
    OneBinder(op, store["t" := 7], "b", "u", Name("t"));
    LowerOneBinder(map["t" := Var("a")], "b", "u", Name("t"));
    LowerOneBinder(map[], "a", "t", inner);
    BindsOne("t");
    BindsOne("u");
    assert !ArmUncaptured(arm, {"t"} + {});
    assert !Uncaptured(inner, {"t"}, {});
    var none: set<string> := {};
    assert none - {"t"} == none && none + none == none;
    assert !ArmUncaptured(outer, none);
  }

  lemma BindsOne(x: string)
    ensures Binders([[Bind(x)]]) == {x}
  {
    assert [[Bind(x)]][1..] == [];
    assert [Bind(x)][0].Bind?;
  }

  lemma LowerOneBinder(b: Bindings, x: string, y: string, body: Src)
    ensures var c := if x in b then b[x] else Var(x);
      Lower(Match([Name(x)], [MatchArm([[Bind(y)]], Syntax.None, body)]), b) == Lower(body, map[y := c])
  {
    var c := if x in b then b[x] else Var(x);
    var scs: Positions := [Syntax.Some(c)];
    assert [Name(x)][1..] == [] && LowerEach([Name(x)], b) == scs;
    assert BindUpTo([Bind(y)], scs, 1) == map[y := c];
  }
}
