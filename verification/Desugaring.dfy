/** The two rewrites in front of extraction: a ticking `while` and a counted `for`
  * become plain `loop`s the flattening knows.
  */
module Desugaring {
  import opened Syntax
  import opened Semantics
  import opened Lowering
  import opened Scoping
  import opened Hoisting

  // ----- `while` -------------------------------------------------------------------------------

  /** The exit test a rewritten loop starts with. */
  function ExitUnless(cond: Expr): Stmt {
    If(Not(cond), [Break], [])
  }

  /** `while c { B }` with a tick in `B` becomes `loop { if !c { break; } B }`. */
  function Waits(stmts: Code): (r: Code)
    decreases stmts
  {
    if stmts == [] then [] else [WaitStmt(stmts[0])] + Waits(stmts[1..])
  }

  function WaitStmt(s: Stmt): Stmt
    decreases s
  {
    match s
    case While(c, body) =>
      if ContainsTick(body) then Loop([ExitUnless(c)] + Waits(body)) else While(c, Waits(body))
    case Loop(body) => Loop(Waits(body))
    case For(x, lo, hi, body) => For(x, lo, hi, Waits(body))
    case Branch(sel, arms) => Branch(sel, WaitArms(arms))
    case _ => s
  }

  function WaitArms(arms: seq<Arm>): (r: seq<Arm>)
    ensures |r| == |arms|
    decreases arms
  {
    if arms == [] then [] else [Arm(Waits(arms[0].body))] + WaitArms(arms[1..])
  }

  // ----- `for` ---------------------------------------------------------------------------------

  function ExitAt(x: string, hi: Expr): Stmt {
    If(Ge(Var(x), hi), [Break], [])
  }

  /** What follows an iteration's work: count, leave before the last tick, or take it. */
  function Closing(x: string, hi: Expr): Code {
    [Do(Set(x, AddU32(Var(x), Lit(1)))), ExitAt(x, hi), Tick]
  }

  function CountedBody(x: string, hi: Expr, work: Code): Code {
    [ExitAt(x, hi)] + work + Closing(x, hi)
  }

  predicate StaticallyEmpty(lo: Expr, hi: Expr) {
    lo.Lit? && hi.Lit? && lo.value >= hi.value
  }

  /** The loop a `for` with an already rewritten body becomes, its last tick hoisted
    * behind it; nothing when the range is visibly empty, and `None` when the body does
    * not end in a tick, in which case the `for` is left as written.
    */
  function ExpandCountedFor(x: string, lo: Expr, hi: Expr, body: Code): Option<Code> {
    if body == [] || body[|body| - 1] != Tick then None
    else if StaticallyEmpty(lo, hi) then Some([])
    else Some([Do(Let(x, lo)), Loop(CountedBody(x, hi, body[..|body| - 1])), Tick])
  }

  function Counted(stmts: Code): Code
    decreases stmts
  {
    if stmts == [] then [] else CountedStmt(stmts[0]) + Counted(stmts[1..])
  }

  function CountedStmt(s: Stmt): Code
    decreases s
  {
    match s
    case For(x, lo, hi, body) =>
      var b := Counted(body);
      var e := if ContainsTick(b) then ExpandCountedFor(x, lo, hi, b) else None;
      if e.Some? then e.value else [For(x, lo, hi, b)]
    case While(c, body) => [While(c, Counted(body))]
    case Loop(body) => [Loop(Counted(body))]
    case Branch(sel, arms) => [Branch(sel, CountedArms(arms))]
    case _ => [s]
  }

  function CountedArms(arms: seq<Arm>): (r: seq<Arm>)
    ensures |r| == |arms|
    decreases arms
  {
    if arms == [] then [] else [Arm(Counted(arms[0].body))] + CountedArms(arms[1..])
  }

  /** Both rewrites, in the order the compiler runs them. */
  function Desugar(stmts: Code): Code {
    Counted(Waits(stmts))
  }

  // ----- As the compiler runs them -----------------------------------------------------------------

  method DesugarStmts(stmts: Code) returns (out: Code)
    ensures out == Waits(stmts)
    decreases stmts, 1
  {
    out := [];
    for i := 0 to |stmts|
      invariant Waits(stmts) == out + Waits(stmts[i..])
    {
      assert stmts[i..][1..] == stmts[i + 1..] && stmts[i] == stmts[i..][0];
      var s := DesugarStmt(stmts[i]);
      out := out + [s];
    }
  }

  method DesugarStmt(s: Stmt) returns (r: Stmt)
    ensures r == WaitStmt(s)
    decreases s, 0
  {
    match s {
      case While(c, body) =>
        var b := DesugarStmts(body);
        r := if ContainsTick(body) then Loop([ExitUnless(c)] + b) else While(c, b);
      case Loop(body) =>
        var b := DesugarStmts(body);
        r := Loop(b);
      case For(x, lo, hi, body) =>
        var b := DesugarStmts(body);
        r := For(x, lo, hi, b);
      case Branch(sel, arms) =>
        var out := [];
        for i := 0 to |arms|
          invariant WaitArms(arms) == out + WaitArms(arms[i..])
        {
          assert arms[i..][1..] == arms[i + 1..] && arms[i] == arms[i..][0];
          var b := DesugarStmts(arms[i].body);
          out := out + [Arm(b)];
        }
        r := Branch(sel, out);
      case _ =>
        r := s;
    }
  }

  method DesugarCountedLoops(stmts: Code) returns (out: Code)
    ensures out == Counted(stmts)
    decreases stmts, 1
  {
    out := [];
    for i := 0 to |stmts|
      invariant Counted(stmts) == out + Counted(stmts[i..])
    {
      assert stmts[i..][1..] == stmts[i + 1..] && stmts[i] == stmts[i..][0];
      var s := DescendCounted(stmts[i]);
      assert out + (s + Counted(stmts[i + 1..])) == out + s + Counted(stmts[i + 1..]);
      out := out + s;
    }
  }

  method DescendCounted(s: Stmt) returns (out: Code)
    ensures out == CountedStmt(s)
    decreases s, 0
  {
    match s {
      case For(x, lo, hi, body) =>
        var b := DesugarCountedLoops(body);
        var e := if ContainsTick(b) then ExpandCountedFor(x, lo, hi, b) else None;
        out := if e.Some? then e.value else [For(x, lo, hi, b)];
      case While(c, body) =>
        var b := DesugarCountedLoops(body);
        out := [While(c, b)];
      case Loop(body) =>
        var b := DesugarCountedLoops(body);
        out := [Loop(b)];
      case Branch(sel, arms) =>
        var lowered := [];
        for i := 0 to |arms|
          invariant CountedArms(arms) == lowered + CountedArms(arms[i..])
        {
          assert arms[i..][1..] == arms[i + 1..] && arms[i] == arms[i..][0];
          var b := DesugarCountedLoops(arms[i].body);
          lowered := lowered + [Arm(b)];
        }
        assert lowered + CountedArms([]) == lowered;
        out := [Branch(sel, lowered)];
      case _ =>
        out := [s];
    }
  }

  // ----- One rewrite instead of two -------------------------------------------------------------------

  /** The rewrites fused into one recursion over the source. */
  function D(stmts: Code): Code
    decreases stmts
  {
    if stmts == [] then [] else DStmt(stmts[0]) + D(stmts[1..])
  }

  function DStmt(s: Stmt): Code
    decreases s
  {
    match s
    case While(c, body) => if ContainsTick(body) then [Loop([ExitUnless(c)] + D(body))] else [While(c, D(body))]
    case For(x, lo, hi, body) =>
      var e := if ContainsTick(D(body)) then ExpandCountedFor(x, lo, hi, D(body)) else None;
      if e.Some? then e.value else [For(x, lo, hi, D(body))]
    case Loop(body) => [Loop(D(body))]
    case Branch(sel, arms) => [Branch(sel, DArms(arms))]
    case _ => [s]
  }

  function DArms(arms: seq<Arm>): (r: seq<Arm>)
    ensures |r| == |arms|
    decreases arms
  {
    if arms == [] then [] else [Arm(D(arms[0].body))] + DArms(arms[1..])
  }

  /** A list without its last statement. */
  function Work(stmts: Code): Code {
    if stmts == [] then [] else stmts[..|stmts| - 1]
  }

  /** A body whose last statement is its tick, or a counted loop whose hoisted tick will be. */
  predicate EndsCounted(stmts: Code)
    decreases stmts
  {
    stmts != [] &&
      var last := stmts[|stmts| - 1];
      last == Tick || (last.For? && !StaticallyEmpty(last.lo, last.hi) && EndsCounted(last.body))
  }

  lemma {:induction false} DAppend(a: Code, b: Code)
    ensures D(a + b) == D(a) + D(b)
  {
    if a == [] {
      assert a + b == b;
    } else {
      assert (a + b)[1..] == a[1..] + b;
      DAppend(a[1..], b);
    }
  }

  lemma {:induction false} DArmAt(arms: seq<Arm>, i: nat)
    requires i < |arms|
    ensures DArms(arms)[i].body == D(arms[i].body)
    decreases arms
  {
    if i > 0 {
      DArmAt(arms[1..], i - 1);
    }
  }

  lemma {:induction false} DEnds(stmts: Code)
    requires EndsCounted(stmts)
    ensures D(stmts) != [] && D(stmts)[|D(stmts)| - 1] == Tick
    decreases stmts, 1
  {
    var n := |stmts| - 1;
    var last := stmts[n];
    assert stmts == stmts[..n] + [last];
    DAppend(stmts[..n], [last]);
    assert D([last]) == DStmt(last) + D([last][1..]) == DStmt(last);
    if last.For? {
      DFor(last);
    }
  }

  /** A counted loop that ends at its tick is expanded. */
  lemma {:induction false} DFor(f: Stmt)
    requires f.For? && EndsCounted(f.body)
    ensures DStmt(f) == if StaticallyEmpty(f.lo, f.hi) then []
                        else [Do(Let(f.counter, f.lo)), Loop(CountedBody(f.counter, f.hi, Work(D(f.body)))), Tick]
    decreases f, 0
  {
    DEnds(f.body);
    EndsTicks(D(f.body));
  }

  lemma {:induction false} EndsTicks(stmts: Code)
    requires stmts != [] && stmts[|stmts| - 1] == Tick
    ensures ContainsTick(stmts)
  {
    if |stmts| > 1 {
      EndsTicks(stmts[1..]);
    }
  }

  /** What unrolls has no tick, and is not rewritten. */
  lemma {:induction false} DUnrolled(stmts: Code)
    requires Unrolled(stmts)
    ensures D(stmts) == stmts && !ContainsTick(stmts) && !EndsCounted(stmts)
    decreases stmts, 1
  {
    if stmts != [] {
      var rest := stmts[1..];
      assert stmts == [stmts[0]] + rest && UnrolledStmt(stmts[0]);
      DUnrolled(rest);
      match stmts[0] {
        case Branch(_, arms) => DArmsUnrolled(arms);
        case For(_, _, _, body) => DUnrolled(body);
        case _ =>
      }
      assert rest != [] ==> stmts[|stmts| - 1] == rest[|rest| - 1];
    }
  }

  lemma {:induction false} DArmsUnrolled(arms: seq<Arm>)
    requires ArmsUnrolled(arms)
    ensures DArms(arms) == arms && !ArmsContainTick(arms)
    decreases arms, 0
  {
    if arms != [] {
      assert arms == [arms[0]] + arms[1..];
      DUnrolled(arms[0].body);
      DArmsUnrolled(arms[1..]);
    }
  }

  lemma ExitCounted()
    ensures CountedArms([Arm([Break]), Arm([])]) == [Arm([Break]), Arm([])]
  {
    var none, exit: Code := [], [Break];
    assert exit[1..] == none && Counted(none) == none;
    assert Counted(exit) == CountedStmt(Break) + none == exit;
    var arms := [Arm(exit), Arm(none)];
    assert arms[1..] == [Arm(none)] && arms[1..][1..] == [];
    assert CountedArms(arms[1..]) == [Arm(none)];
  }

  /** The compiler's two passes, one after the other, are the fused one. */
  lemma {:induction false} DesugarIsD(stmts: Code)
    ensures Desugar(stmts) == D(stmts)
    decreases stmts, 1
  {
    if stmts != [] {
      DesugarIsD(stmts[1..]);
      DesugarStmtIsD(stmts[0]);
      assert Waits(stmts)[1..] == Waits(stmts[1..]) && Waits(stmts)[0] == WaitStmt(stmts[0]);
    }
  }

  lemma {:induction false} DesugarStmtIsD(s: Stmt)
    ensures CountedStmt(WaitStmt(s)) == DStmt(s)
    decreases s, 0
  {
    match s
    case While(c, body) =>
      DesugarIsD(body);
      ExitCounted();
      assert ([ExitUnless(c)] + Waits(body))[1..] == Waits(body);
      assert CountedStmt(ExitUnless(c)) == [ExitUnless(c)];
    case For(_, _, _, body) => DesugarIsD(body);
    case Loop(body) => DesugarIsD(body);
    case Branch(_, arms) => DesugarArmsIsD(arms);
    case _ =>
  }

  lemma {:induction false} DesugarArmsIsD(arms: seq<Arm>)
    ensures CountedArms(WaitArms(arms)) == DArms(arms)
    decreases arms, 0
  {
    if arms != [] {
      DesugarIsD(arms[0].body);
      DesugarArmsIsD(arms[1..]);
      assert WaitArms(arms)[1..] == WaitArms(arms[1..]);
    }
  }
}
