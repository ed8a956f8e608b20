/** Which constants a module declares, and in what order: the whole-identifier scan, the
  * depth-first ordering and the closure over what the emitted text mentions.
  */
module LocalParams {
  import Syntax
  import opened Rendering

  datatype Const = Const(name: string, text: string)

  // ----- Whole identifiers -----------------------------------------------------------------------

  predicate Occurs(text: string, ident: string, i: nat) {
    i + |ident| <= |text| && text[i..i + |ident|] == ident
  }

  predicate WholeAt(text: string, ident: string, i: nat) {
    && Occurs(text, ident, i) && (i == 0 || !WordChar(text[i - 1]))
    && (i + |ident| == |text| || !WordChar(text[i + |ident|]))
  }

  /** `ident` stands somewhere in the text as a whole identifier. */
  predicate Mentions(text: string, ident: string) {
    ident != "" && exists i :: 0 <= i <= |text| && WholeAt(text, ident, i)
  }

  /** The first occurrence at `from` or later. */
  method Find(text: string, from: nat, ident: string) returns (r: Option<nat>)
    requires from <= |text|
    ensures r.None? ==> forall i: nat :: from <= i ==> !Occurs(text, ident, i)
    ensures r.Some? ==> from <= r.value && Occurs(text, ident, r.value) && forall i: nat :: from <= i < r.value ==> !Occurs(text, ident, i)
  {
    var i := from;
    while i + |ident| <= |text|
      invariant from <= i && forall j: nat :: from <= j < i ==> !Occurs(text, ident, j)
    {
      if text[i..i + |ident|] == ident {
        return Syntax.Some(i);
      }
      i := i + 1;
    }
    return Syntax.None;
  }

  method ContainsIdent(text: string, ident: string) returns (r: bool)
    ensures r <==> Mentions(text, ident)
  {
    if ident == "" {
      return false;
    }
    var from := 0;
    while from <= |text|
      invariant 0 <= from && forall i: nat :: i < from ==> !WholeAt(text, ident, i)
      decreases |text| + 1 - from
    {
      var found := Find(text, from, ident);
      if found.None? {
        return false;
      }
      var start := found.value;
      var end := start + |ident|;
      if (start == 0 || !WordChar(text[start - 1])) && (end == |text| || !WordChar(text[end])) {
        assert WholeAt(text, ident, start);
        return true;
      }
      from := start + 1;
    }
    return false;
  }

  lemma OccurrenceIsWord(t: string, x: string, i: nat)
    requires Occurs(t, x, i) && Word(x)
    ensures forall k :: i <= k < i + |x| ==> WordChar(t[k])
  {
    forall k | i <= k < i + |x| ensures WordChar(t[k]) {
      assert t[i..i + |x|][k - i] == x[k - i];
    }
  }

  lemma MentionedInPart(a: string, c: char, b: string, x: string)
    requires Word(x) && !WordChar(c) && Mentions(a + [c] + b, x)
    ensures Mentions(a, x) || Mentions(b, x)
  {
    var t, n := a + [c] + b, |x|;
    var i :| 0 <= i <= |t| && WholeAt(t, x, i);
    OccurrenceIsWord(t, x, i);
    assert t[|a|] == c && !(i <= |a| < i + n);
    if i + n <= |a| {
      assert t[i..i + n] == a[i..i + n];
      assert WholeAt(a, x, i);
    } else {
      PartBehind(a + [c], b, x, i);
    }
  }

  lemma PartBehind(front: string, b: string, x: string, i: nat)
    requires |front| <= i && WholeAt(front + b, x, i)
    ensures WholeAt(b, x, i - |front|)
  {
    var t, j, n := front + b, i - |front|, |x|;
    assert forall k :: 0 <= k < |b| ==> t[|front| + k] == b[k];
    assert t[i..i + n] == b[j..j + n];
  }

  lemma MentionedInFront(a: string, c: char, b: string, x: string)
    requires !WordChar(c) && Mentions(a, x)
    ensures Mentions(a + [c] + b, x)
  {
    var t, n := a + [c] + b, |x|;
    var i :| 0 <= i <= |a| && WholeAt(a, x, i);
    assert t[i..i + n] == a[i..i + n];
    assert WholeAt(t, x, i);
  }

  lemma MentionedBehind(a: string, c: char, b: string, x: string)
    requires !WordChar(c) && Mentions(b, x)
    ensures Mentions(a + [c] + b, x)
  {
    var t, n := a + [c] + b, |x|;
    var j :| 0 <= j <= |b| && WholeAt(b, x, j);
    var i := |a| + 1 + j;
    assert t[i..i + n] == b[j..j + n];
    assert WholeAt(t, x, i);
  }

  /** A text in two parts with a sign between them mentions what either part mentions. */
  lemma MentionsSplit(a: string, c: char, b: string, x: string)
    requires Word(x) && !WordChar(c)
    ensures Mentions(a + [c] + b, x) <==> Mentions(a, x) || Mentions(b, x)
  {
    if Mentions(a + [c] + b, x) {
      MentionedInPart(a, c, b, x);
    }
    if Mentions(a, x) {
      MentionedInFront(a, c, b, x);
    }
    if Mentions(b, x) {
      MentionedBehind(a, c, b, x);
    }
  }

  lemma WordMentions(w: string, x: string)
    requires Word(x) && Word(w)
    ensures Mentions(w, x) <==> w == x
  {
    if w == x {
      assert WholeAt(w, x, 0);
    }
    if Mentions(w, x) {
      var i :| 0 <= i <= |w| && WholeAt(w, x, i);
      assert i == 0 && |x| == |w|;
      assert w[0..|w|] == w;
    }
  }

  lemma NothingMentions(x: string)
    requires x != ""
    ensures !Mentions("", x)
  {
  }

  /** The names in an initializer. */
  function NamesIn(e: Init): set<string> {
    match e
    case Ident(x) => {x}
    case Paren(a) => NamesIn(a)
    case Group(a) => NamesIn(a)
    case Unary(_, a) => NamesIn(a)
    case Binary(_, l, r) => NamesIn(l) + NamesIn(r)
    case _ => {}
  }

  lemma OpMentions(op: BinOp, b: string, x: string)
    requires op != Compare && Word(x)
    ensures Mentions(BinText(op).value + " " + b, x) <==> Mentions(b, x)
  {
    var o := BinText(op).value;
    NothingMentions(x);
    if |o| == 1 {
      MentionsSplit("", o[0], " " + b, x);
      assert "" + [o[0]] + (" " + b) == o + " " + b;
    } else {
      MentionsSplit("", o[0], [o[1]] + (" " + b), x);
      MentionsSplit("", o[1], " " + b, x);
      assert "" + [o[0]] + ([o[1]] + (" " + b)) == o + " " + b;
      assert "" + [o[1]] + (" " + b) == [o[1]] + (" " + b);
    }
    MentionsSplit("", ' ', b, x);
    assert "" + " " + b == " " + b;
  }

  /** Scanning the rendered text finds exactly the names of the expression. */
  lemma {:induction false} TextMentionsNames(e: Init, x: string)
    requires Lexical(e) && Render(e).Some? && Word(x) && !Digit(x[0])
    ensures Mentions(Render(e).value, x) <==> x in NamesIn(e)
  {
    NothingMentions(x);
    match e {
      case Digits(t) => WordMentions(t, x);
      case Ident(y) => WordMentions(y, x);
      case Paren(a) =>
        TextMentionsNames(a, x);
        var s := Render(a).value;
        MentionsSplit("(" + s, ')', "", x);
        MentionsSplit("", '(', s, x);
        assert "" + "(" + s == "(" + s && "(" + s + ")" + "" == "(" + s + ")";
      case Group(a) => TextMentionsNames(a, x);
      case Unary(op, a) =>
        TextMentionsNames(a, x);
        var s := Render(a).value;
        MentionsSplit("", UnText(op).value[0], s, x);
        assert "" + UnText(op).value + s == UnText(op).value + s && UnText(op).value == [UnText(op).value[0]];
      case Binary(op, l, r) =>
        TextMentionsNames(l, x);
        TextMentionsNames(r, x);
        RenderExpressible(e);
        var a, o, b := Render(l).value, BinText(op).value, Render(r).value;
        OpMentions(op, b, x);
        MentionsSplit(a, ' ', o + " " + b, x);
        assert a + " " + (o + " " + b) == a + " " + o + " " + b;
    }
  }

  // ----- One constant after another ------------------------------------------------------------------

  predicate Refers(c: Const, d: Const) {
    Mentions(c.text, d.name)
  }

  /** From mention to mention, among these constants. */
  predicate RefersAlong(cs: seq<Const>, p: seq<Const>) {
    p != [] && p[0] in cs && (|p| > 1 ==> Refers(p[0], p[1]) && RefersAlong(cs, p[1..]))
  }

  lemma {:induction false} AlongFurther(cs: seq<Const>, p: seq<Const>, e: Const)
    requires RefersAlong(cs, p) && Refers(p[|p| - 1], e) && e in cs
    ensures RefersAlong(cs, p + [e])
  {
    var q := p + [e];
    if |p| == 1 {
      assert q[1..] == [e];
    } else {
      AlongFurther(cs, p[1..], e);
      assert q[1..] == p[1..] + [e] && q[1] == p[1];
    }
  }

  ghost predicate Reaches(cs: seq<Const>, c: Const, d: Const) {
    exists p: seq<Const> :: RefersAlong(cs, p) && p[0] == c && p[|p| - 1] == d
  }

  lemma ReachesItself(cs: seq<Const>, c: Const)
    requires c in cs
    ensures Reaches(cs, c, c)
  {
    assert RefersAlong(cs, [c]);
  }

  lemma ReachesFurther(cs: seq<Const>, c: Const, d: Const, e: Const)
    requires Reaches(cs, c, d) && Refers(d, e) && e in cs
    ensures Reaches(cs, c, e)
  {
    var p: seq<Const> :| RefersAlong(cs, p) && p[0] == c && p[|p| - 1] == d;
    AlongFurther(cs, p, e);
    var q := p + [e];
    assert q[0] == c && q[|q| - 1] == e;
  }

  predicate UniquelyNamed(cs: seq<Const>) {
    forall i, j :: 0 <= i < j < |cs| ==> cs[i].name != cs[j].name
  }

  function Names(cs: seq<Const>): set<string> {
    set c | c in cs :: c.name
  }

  /** No constant is declared in terms of itself, however indirectly. */
  ghost predicate Acyclic(cs: seq<Const>) {
    forall c, d :: c in cs && d in cs && Refers(c, d) ==> !Reaches(cs, d, c)
  }

  /** What each constant here mentions stands before it, unless the two are on a cycle. */
  ghost predicate InOrder(cs: seq<Const>, out: seq<Const>) {
    forall k, d {:trigger Refers(out[k], d)} :: 0 <= k < |out| && d in cs && Refers(out[k], d) ==> d in out[..k] || Reaches(cs, d, out[k])
  }

  lemma {:induction false} NamesCount(cs: seq<Const>)
    ensures |Names(cs)| <= |cs|
  {
    if cs != [] {
      NamesCount(cs[1..]);
      assert Names(cs) == {cs[0].name} + Names(cs[1..]);
    }
  }

  lemma SubsetCount(a: set<string>, b: set<string>, x: string)
    requires a <= b && x in b && x !in a
    ensures |a| < |b|
  {
    assert b == a + (b - a) && x in b - a;
  }

  /** The constants' names that stand in a text. */
  method ReferencedIdents(text: string, cs: seq<Const>) returns (deps: seq<nat>)
    ensures forall j: nat :: j in deps <==> j < |cs| && Mentions(text, cs[j].name)
  {
    deps := [];
    for i := 0 to |cs|
      invariant forall j: nat :: j in deps <==> j < i && Mentions(text, cs[j].name)
    {
      var here := ContainsIdent(text, cs[i].name);
      if here {
        deps := deps + [i];
      }
    }
  }

  class Orderer {
    const usable: seq<Const>
    var placed: set<string>
    var visiting: set<string>
    var out: seq<Const>

    ghost predicate Valid()
      reads this
    {
      && UniquelyNamed(usable) && UniquelyNamed(out)
      && (forall c :: c in usable ==> (c in out <==> c.name in placed))
      && (forall c :: c in out ==> c in usable)
      && InOrder(usable, out)
      && visiting <= Names(usable) && visiting !! placed
    }

    constructor (usable: seq<Const>)
      requires UniquelyNamed(usable)
      ensures Valid() && this.usable == usable && out == [] && visiting == {}
    {
      this.usable := usable;
      placed, visiting, out := {}, {}, [];
    }

    /** Everything being visited leads to constant `idx`. */
    ghost predicate LeadsTo(idx: nat)
      reads this
    {
      && idx < |usable|
      && forall c {:trigger Reaches(usable, c, usable[idx])} :: c in usable && c.name in visiting ==> Reaches(usable, c, usable[idx])
    }

    method Enter(idx: nat)
      requires Valid() && LeadsTo(idx) && usable[idx].name !in placed && usable[idx].name !in visiting
      modifies this`visiting
      ensures Valid() && LeadsTo(idx) && visiting == old(visiting) + {usable[idx].name}
      ensures |Names(usable)| - |visiting| < |Names(usable)| - old(|visiting|) && |visiting| <= |Names(usable)|
    {
      assert usable[idx].name in Names(usable);
      SubsetCount(visiting, Names(usable), usable[idx].name);
      ReachesItself(usable, usable[idx]);
      visiting := visiting + {usable[idx].name};
      assert forall c :: c in usable && c.name == usable[idx].name ==> c == usable[idx];
    }

    /** Places constant `idx`, and before it whatever it mentions; a constant already being
      * visited is not entered again.
      */
    method Visit(idx: nat)
      requires Valid() && LeadsTo(idx)
      modifies this
      ensures Valid() && visiting == old(visiting) && old(out) <= out
      ensures usable[idx] in out || usable[idx].name in visiting
      decreases |Names(usable)| - |visiting|, 0
    {
      if usable[idx].name in placed || usable[idx].name in visiting {
        return;
      }
      var deps := ReferencedIdents(usable[idx].text, usable);
      assert Refs(idx, deps) by {
        assert forall k :: 0 <= k < |deps| ==> deps[k] in deps;
      }
      Enter(idx);
      VisitAll(idx, deps);
      Leave(idx, deps);
    }

    /** Everything constant `idx` mentions is visited; the constant follows. */
    method Leave(idx: nat, ghost deps: seq<nat>)
      requires Valid() && LeadsTo(idx) && usable[idx].name in visiting
      requires forall j: nat :: j in deps <==> j < |usable| && Refers(usable[idx], usable[j])
      requires Refs(idx, deps) && forall k :: 0 <= k < |deps| ==> Settled(usable[deps[k]])
      modifies this
      ensures Valid() && visiting == old(visiting) - {usable[idx].name} && out == old(out) + [usable[idx]]
    {
      var c := usable[idx];
      forall d | d in usable && Refers(c, d) ensures d in out || d.name in visiting {
        var j: nat :| j < |usable| && usable[j] == d;
        assert j in deps;
      }
      PlacedInOrder(usable, out, c, visiting);
      PlacedUnique(out, c);
      visiting := visiting - {c.name};
      placed := placed + {c.name};
      out := out + [c];
      assert forall d :: d in usable && d.name == c.name ==> d == c;
    }

    lemma LeadOn(idx: nat, j: nat)
      requires LeadsTo(idx) && j < |usable| && Refers(usable[idx], usable[j])
      ensures LeadsTo(j)
    {
      forall c | c in usable && c.name in visiting ensures Reaches(usable, c, usable[j]) {
        ReachesFurther(usable, c, usable[idx], usable[j]);
      }
    }

    /** Constant `idx` mentions all of these. */
    ghost predicate Refs(idx: nat, deps: seq<nat>) {
      idx < |usable| && forall k :: 0 <= k < |deps| ==> deps[k] < |usable| && Refers(usable[idx], usable[deps[k]])
    }

    ghost predicate Settled(c: Const)
      reads this
    {
      c in out || c.name in visiting
    }

    lemma StillSettled(was: seq<Const>, deps: seq<nat>)
      requires was <= out && forall m :: 0 <= m < |deps| ==> deps[m] < |usable|
      requires forall m :: 0 <= m < |deps| ==> usable[deps[m]] in was || usable[deps[m]].name in visiting
      ensures forall m :: 0 <= m < |deps| ==> Settled(usable[deps[m]])
    {
      forall m | 0 <= m < |deps| ensures Settled(usable[deps[m]]) {
        StillIn(was, out, usable[deps[m]]);
      }
    }

    method VisitAll(idx: nat, deps: seq<nat>)
      requires Valid() && LeadsTo(idx) && Refs(idx, deps)
      modifies this
      ensures Valid() && LeadsTo(idx) && visiting == old(visiting) && old(out) <= out
      ensures forall k :: 0 <= k < |deps| ==> Settled(usable[deps[k]])
      decreases |Names(usable)| - |visiting|, 1, |deps|
    {
      for k := 0 to |deps|
        invariant Valid() && LeadsTo(idx) && visiting == old(visiting) && old(out) <= out
        invariant forall m :: 0 <= m < k ==> Settled(usable[deps[m]])
      {
        ghost var was := out;
        LeadOn(idx, deps[k]);
        Visit(deps[k]);
        StillSettled(was, deps[..k]);
        assert forall m :: 0 <= m < k ==> deps[..k][m] == deps[m];
      }
    }
  }

  lemma StillIn(a: seq<Const>, b: seq<Const>, c: Const)
    requires a <= b
    ensures c in a ==> c in b
  {
    if c in a {
      var i :| 0 <= i < |a| && a[i] == c;
      assert b[i] == c;
    }
  }

  lemma PlacedUnique(out: seq<Const>, c: Const)
    requires UniquelyNamed(out) && forall d :: d in out ==> d.name != c.name
    ensures UniquelyNamed(out + [c])
  {
  }

  lemma PlacedInOrder(cs: seq<Const>, out: seq<Const>, c: Const, visiting: set<string>)
    requires InOrder(cs, out) && c in cs
    requires forall d :: d in cs && d.name in visiting ==> Reaches(cs, d, c)
    requires forall d :: d in cs && Refers(c, d) ==> d in out || d.name in visiting
    ensures InOrder(cs, out + [c])
  {
    var all := out + [c];
    forall k, d | 0 <= k < |all| && d in cs && Refers(all[k], d) ensures d in all[..k] || Reaches(cs, d, all[k]) {
      if k < |out| {
        assert all[..k] == out[..k];
      } else {
        assert all[..k] == out;
      }
    }
  }

  /** Every constant once, each after what it mentions. */
  method DependencyOrder(usable: seq<Const>) returns (out: seq<Const>)
    requires UniquelyNamed(usable)
    ensures UniquelyNamed(out) && (forall c :: c in out <==> c in usable) && InOrder(usable, out)
  {
    var o := new Orderer(usable);
    for i := 0 to |usable|
      invariant o.Valid() && o.usable == usable && o.visiting == {} && fresh(o)
      invariant forall k :: 0 <= k < i ==> usable[k] in o.out
    {
      ghost var was := o.out;
      o.Visit(i);
      forall k | 0 <= k < i ensures usable[k] in o.out {
        StillIn(was, o.out, usable[k]);
      }
    }
    return o.out;
  }

  // ----- The constants a text needs -------------------------------------------------------------------------

  /** Mentioned in the text, or by a constant that is needed. */
  ghost predicate Needed(cs: seq<Const>, text: string, d: Const) {
    exists c :: c in cs && Mentions(text, c.name) && Reaches(cs, c, d)
  }

  ghost predicate OnlyNeeded(cs: seq<Const>, text: string, used: set<string>) {
    used <= Names(cs) && forall c {:trigger Needed(cs, text, c)} :: c in cs && c.name in used ==> Needed(cs, text, c)
  }

  lemma NeededNext(cs: seq<Const>, text: string, used: set<string>, c: Const, d: Const)
    requires OnlyNeeded(cs, text, used) && UniquelyNamed(cs) && c in cs && d in cs && c.name in used && Refers(c, d)
    ensures OnlyNeeded(cs, text, used + {d.name})
  {
    assert Needed(cs, text, c);
    var b :| b in cs && Mentions(text, b.name) && Reaches(cs, b, c);
    ReachesFurther(cs, b, c, d);
    assert forall e :: e in cs && e.name == d.name ==> e == d;
  }

  /** Adds what one used constant mentions. */
  method AddMentioned(cs: seq<Const>, text: string, c: Const, used: set<string>) returns (more: set<string>)
    requires UniquelyNamed(cs) && OnlyNeeded(cs, text, used) && c in cs && c.name in used
    ensures OnlyNeeded(cs, text, more) && used <= more && MentionsKept(c, cs, more)
  {
    more := used;
    for i := 0 to |cs|
      invariant OnlyNeeded(cs, text, more) && used <= more
      invariant forall k :: 0 <= k < i && Refers(c, cs[k]) ==> cs[k].name in more
    {
      if cs[i].name !in more {
        var here := ContainsIdent(c.text, cs[i].name);
        if here {
          NeededNext(cs, text, more, c, cs[i]);
          more := more + {cs[i].name};
        }
      }
    }
  }

  predicate MentionsKept(c: Const, cs: seq<Const>, used: set<string>) {
    c.name in used ==> forall d :: d in cs && Refers(c, d) ==> d.name in used
  }

  /** One sweep over the constants; nothing is added only when nothing is missing. */
  method SweepMentioned(cs: seq<Const>, text: string, used: set<string>) returns (more: set<string>)
    requires UniquelyNamed(cs) && OnlyNeeded(cs, text, used)
    ensures OnlyNeeded(cs, text, more) && used <= more
    ensures more == used ==> forall c :: c in cs ==> MentionsKept(c, cs, used)
  {
    more := used;
    for i := 0 to |cs|
      invariant OnlyNeeded(cs, text, more) && used <= more
      invariant more == used ==> forall k :: 0 <= k < i ==> MentionsKept(cs[k], cs, used)
    {
      ghost var was := more;
      if cs[i].name in more {
        more := AddMentioned(cs, text, cs[i], more);
      }
      assert more == used ==> was == used;
      assert MentionsKept(cs[i], cs, more);
    }
  }

  lemma {:induction false} KeptAlong(cs: seq<Const>, used: set<string>, p: seq<Const>)
    requires RefersAlong(cs, p) && p[0].name in used && forall c :: c in cs ==> MentionsKept(c, cs, used)
    ensures p[|p| - 1].name in used
    decreases |p|
  {
    if |p| > 1 {
      assert MentionsKept(p[0], cs, used) && p[1] == p[1..][0];
      KeptAlong(cs, used, p[1..]);
    }
  }

  ghost predicate Complete(cs: seq<Const>, text: string, used: set<string>) {
    && (forall c :: c in cs ==> MentionsKept(c, cs, used))
    && forall c :: c in cs && Mentions(text, c.name) ==> c.name in used
  }

  lemma NeededIsUsed(cs: seq<Const>, text: string, used: set<string>, d: Const)
    requires Complete(cs, text, used) && Needed(cs, text, d)
    ensures d.name in used
  {
    var c :| c in cs && Mentions(text, c.name) && Reaches(cs, c, d);
    var p: seq<Const> :| RefersAlong(cs, p) && p[0] == c && p[|p| - 1] == d;
    KeptAlong(cs, used, p);
  }

  ghost predicate ExactlyNeeded(cs: seq<Const>, text: string, used: set<string>) {
    forall c {:trigger Needed(cs, text, c)} :: c in cs ==> (c.name in used <==> Needed(cs, text, c))
  }

  lemma CompleteIsExact(cs: seq<Const>, text: string, used: set<string>)
    requires OnlyNeeded(cs, text, used) && Complete(cs, text, used)
    ensures ExactlyNeeded(cs, text, used)
  {
    forall d | d in cs && Needed(cs, text, d) ensures d.name in used {
      NeededIsUsed(cs, text, used, d);
    }
  }

  function Kept(cs: seq<Const>, used: set<string>): seq<Const> {
    if cs == [] then [] else (if cs[0].name in used then [cs[0]] else []) + Kept(cs[1..], used)
  }

  /** The needed constants, in the order they came. */
  ghost predicate KeepsNeeded(cs: seq<Const>, text: string, r: seq<Const>) {
    exists used: set<string> :: r == Kept(cs, used) && ExactlyNeeded(cs, text, used)
  }

  method UsedLocalparams(cs: seq<Const>, text: string) returns (r: seq<Const>)
    requires UniquelyNamed(cs)
    ensures KeepsNeeded(cs, text, r)
  {
    var used := NeededNames(cs, text);
    r := Filter(cs, used);
  }

  ghost predicate Rooted(cs: seq<Const>, text: string, used: set<string>) {
    forall c :: c in cs && Mentions(text, c.name) ==> c.name in used
  }

  /** Grows the set of used names until a sweep adds nothing. */
  method NeededNames(cs: seq<Const>, text: string) returns (used: set<string>)
    requires UniquelyNamed(cs)
    ensures ExactlyNeeded(cs, text, used)
  {
    used := MentionedNames(cs, text);
    var grew := true;
    while grew
      invariant OnlyNeeded(cs, text, used) && Rooted(cs, text, used)
      invariant !grew ==> Complete(cs, text, used)
      decreases |Names(cs)| - |used|, grew
    {
      var more := SweepMentioned(cs, text, used);
      grew := more != used;
      Swept(cs, text, used, more);
      used := more;
    }
    CompleteIsExact(cs, text, used);
  }

  lemma Swept(cs: seq<Const>, text: string, used: set<string>, more: set<string>)
    requires Rooted(cs, text, used) && OnlyNeeded(cs, text, more) && used <= more
    requires more == used ==> forall c :: c in cs ==> MentionsKept(c, cs, used)
    ensures Rooted(cs, text, more) && (more == used ==> Complete(cs, text, more))
    ensures more != used ==> |used| < |more| <= |Names(cs)|
  {
    if more != used {
      Larger(used, more, Names(cs));
    }
  }

  lemma Larger(a: set<string>, b: set<string>, all: set<string>)
    requires a <= b <= all && a != b
    ensures |a| < |b| <= |all|
  {
    assert b == a + (b - a) && all == b + (all - b);
  }

  method MentionedNames(cs: seq<Const>, text: string) returns (used: set<string>)
    requires UniquelyNamed(cs)
    ensures OnlyNeeded(cs, text, used) && Rooted(cs, text, used)
  {
    used := {};
    for i := 0 to |cs|
      invariant used <= Names(cs) && forall k :: 0 <= k < |cs| ==> (cs[k].name in used <==> k < i && Mentions(text, cs[k].name))
    {
      var here := ContainsIdent(text, cs[i].name);
      if here {
        used := used + {cs[i].name};
      }
    }
    forall c | c in cs && c.name in used ensures Needed(cs, text, c) {
      ReachesItself(cs, c);
    }
  }

  method Filter(cs: seq<Const>, used: set<string>) returns (r: seq<Const>)
    ensures r == Kept(cs, used)
  {
    r := [];
    for i := 0 to |cs|
      invariant r + Kept(cs[i..], used) == Kept(cs, used)
    {
      assert cs[i..][1..] == cs[i + 1..];
      if cs[i].name in used {
        r := r + [cs[i]];
      }
    }
  }

  // ----- The emitted list --------------------------------------------------------------------------------------

  lemma {:induction false} KeptElements(cs: seq<Const>, used: set<string>)
    ensures forall c :: c in Kept(cs, used) <==> c in cs && c.name in used
  {
    if cs != [] {
      KeptElements(cs[1..], used);
      assert forall c :: c in cs <==> c == cs[0] || c in cs[1..];
    }
  }

  lemma {:induction false} KeptUnique(cs: seq<Const>, used: set<string>)
    requires UniquelyNamed(cs)
    ensures UniquelyNamed(Kept(cs, used))
  {
    if cs != [] {
      KeptUnique(cs[1..], used);
      KeptElements(cs[1..], used);
      forall c | c in Kept(cs[1..], used) ensures c.name != cs[0].name {
        var i :| 0 <= i < |cs[1..]| && cs[1..][i] == c;
        assert cs[i + 1] == c;
      }
    }
  }

  /** What stands before a kept constant was before it. */
  lemma {:induction false} KeptBefore(cs: seq<Const>, used: set<string>, k: nat) returns (m: nat)
    requires k < |Kept(cs, used)|
    ensures m < |cs| && cs[m] == Kept(cs, used)[k] && Kept(cs, used)[..k] == Kept(cs[..m], used)
  {
    var first := if cs[0].name in used then 1 else 0;
    if k < first {
      m := 0;
    } else {
      m := KeptBefore(cs[1..], used, k - first);
      assert cs[..m + 1][0] == cs[0] && cs[..m + 1][1..] == cs[1..][..m];
      m := m + 1;
    }
  }

  lemma ReachesSameSet(a: seq<Const>, b: seq<Const>, c: Const, d: Const)
    requires (forall x :: x in a <==> x in b) && Reaches(a, c, d)
    ensures Reaches(b, c, d)
  {
    var p: seq<Const> :| RefersAlong(a, p) && p[0] == c && p[|p| - 1] == d;
    AlongSameSet(a, b, p);
  }

  lemma {:induction false} AlongSameSet(a: seq<Const>, b: seq<Const>, p: seq<Const>)
    requires (forall x :: x in a ==> x in b) && RefersAlong(a, p)
    ensures RefersAlong(b, p)
  {
    if |p| > 1 {
      AlongSameSet(a, b, p[1..]);
    }
  }

  lemma NeededSameSet(a: seq<Const>, b: seq<Const>, text: string, d: Const)
    requires (forall x :: x in a <==> x in b) && Needed(a, text, d)
    ensures Needed(b, text, d)
  {
    var c :| c in a && Mentions(text, c.name) && Reaches(a, c, d);
    ReachesSameSet(a, b, c, d);
  }

  /** The emitted list is exact and ordered: of constants with distinct names none of which
    * is declared in terms of itself, it holds precisely those the text reaches from
    * mention to mention, each once, each after every one it mentions.
    */
  lemma EmittedExactAndOrdered(usable: seq<Const>, out: seq<Const>, text: string, r: seq<Const>)
    requires UniquelyNamed(usable) && Acyclic(usable)
    requires UniquelyNamed(out) && (forall c :: c in out <==> c in usable) && InOrder(usable, out)
    requires KeepsNeeded(out, text, r)
    ensures forall c :: c in r <==> c in usable && Needed(usable, text, c)
    ensures UniquelyNamed(r)
    ensures forall k, d :: 0 <= k < |r| && d in usable && Refers(r[k], d) ==> d in r[..k]
  {
    var used: set<string> :| r == Kept(out, used) && ExactlyNeeded(out, text, used);
    KeptElements(out, used);
    KeptUnique(out, used);
    forall c | c in usable ensures Needed(out, text, c) <==> Needed(usable, text, c) {
      if Needed(out, text, c) {
        NeededSameSet(out, usable, text, c);
      }
      if Needed(usable, text, c) {
        NeededSameSet(usable, out, text, c);
      }
    }
    forall k, d | 0 <= k < |r| && d in usable && Refers(r[k], d) ensures d in r[..k] {
      var m := KeptBefore(out, used, k);
      assert r[k] in r && r[k] in usable && !Reaches(usable, d, r[k]);
      var b :| b in usable && Mentions(text, b.name) && Reaches(usable, b, r[k]);
      ReachesFurther(usable, b, r[k], d);
      assert Needed(usable, text, d);
      KeptElements(out[..m], used);
    }
  }

  /** From the usable constants to the emitted list. */
  method EmitLocalparams(usable: seq<Const>, text: string) returns (r: seq<Const>)
    requires UniquelyNamed(usable)
    ensures Acyclic(usable) ==>
      && (forall c :: c in r <==> c in usable && Needed(usable, text, c)) && UniquelyNamed(r)
      && forall k, d :: 0 <= k < |r| && d in usable && Refers(r[k], d) ==> d in r[..k]
  {
    var out := DependencyOrder(usable);
    r := UsedLocalparams(out, text);
    if Acyclic(usable) {
      EmittedExactAndOrdered(usable, out, text, r);
    }
  }
}
