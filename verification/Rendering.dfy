/** A constant's initializer as SystemVerilog text, and what a SystemVerilog reader makes
  * of that text.
  */
module Rendering {
  import Syntax

  type Option<T> = Syntax.Option<T>

  datatype UnOp = Not | Neg | Deref

  datatype BinOp = Add | Sub | Mul | Div | Rem | Shl | Shr | BitAnd | BitOr | BitXor | Compare

  /** An initializer as Rust parses it. `Group` is an invisible group, which brackets
    * without a character; `Other` is any form with no SystemVerilog spelling.
    */
  datatype Init =
    | Digits(text: string)
    | Ident(name: string)
    | Paren(inner: Init)
    | Group(inner: Init)
    | Unary(un: UnOp, arg: Init)
    | Binary(bin: BinOp, left: Init, right: Init)
    | Other

  // ----- Rendering ---------------------------------------------------------------------------------

  function UnText(op: UnOp): Option<string> {
    match op
    case Not => Syntax.Some("~")
    case Neg => Syntax.Some("-")
    case Deref => Syntax.None
  }

  function BinText(op: BinOp): Option<string> {
    match op
    case Add => Syntax.Some("+")
    case Sub => Syntax.Some("-")
    case Mul => Syntax.Some("*")
    case Div => Syntax.Some("/")
    case Rem => Syntax.Some("%")
    case Shl => Syntax.Some("<<")
    case Shr => Syntax.Some(">>")
    case BitAnd => Syntax.Some("&")
    case BitOr => Syntax.Some("|")
    case BitXor => Syntax.Some("^")
    case Compare => Syntax.None
  }

  function Render(e: Init): Option<string> {
    match e
    case Digits(t) => Syntax.Some(t)
    case Ident(x) => Syntax.Some(x)
    case Paren(a) =>
      var s := Render(a);
      if s.None? then Syntax.None else Syntax.Some("(" + s.value + ")")
    case Group(a) => Render(a)
    case Unary(op, a) =>
      var o, s := UnText(op), Render(a);
      if o.None? || s.None? then Syntax.None else Syntax.Some(o.value + s.value)
    case Binary(op, l, r) =>
      var o, a, b := BinText(op), Render(l), Render(r);
      if o.None? || a.None? || b.None? then Syntax.None else Syntax.Some(a.value + " " + o.value + " " + b.value)
    case Other => Syntax.None
  }

  // ----- Trees -------------------------------------------------------------------------------------

  predicate WordChar(c: char) {
    'a' <= c <= 'z' || 'A' <= c <= 'Z' || '0' <= c <= '9' || c == '_'
  }

  predicate Digit(c: char) {
    '0' <= c <= '9'
  }

  predicate Word(w: string) {
    w != "" && forall i :: 0 <= i < |w| ==> WordChar(w[i])
  }

  /** A tree the Rust reader can build: literals are digits, names do not begin with one. */
  predicate Lexical(e: Init) {
    match e
    case Digits(t) => Word(t) && Digit(t[0])
    case Ident(x) => Word(x) && !Digit(x[0])
    case Paren(a) => Lexical(a)
    case Group(a) => Lexical(a)
    case Unary(_, a) => Lexical(a)
    case Binary(_, l, r) => Lexical(l) && Lexical(r)
    case Other => true
  }

  /** The tree without its invisible groups: what its text can say. */
  function Erase(e: Init): Init {
    match e
    case Paren(a) => Paren(Erase(a))
    case Group(a) => Erase(a)
    case Unary(op, a) => Unary(op, Erase(a))
    case Binary(op, l, r) => Binary(op, Erase(l), Erase(r))
    case _ => e
  }

  predicate Groupless(e: Init) {
    match e
    case Paren(a) => Groupless(a)
    case Group(_) => false
    case Unary(_, a) => Groupless(a)
    case Binary(_, l, r) => Groupless(l) && Groupless(r)
    case _ => true
  }

  /** How tightly Rust's binary operators bind. */
  function RustLevel(op: BinOp): nat {
    match op
    case Compare => 0
    case BitOr => 1
    case BitXor => 2
    case BitAnd => 3
    case Shl => 4
    case Shr => 4
    case Add => 5
    case Sub => 5
    case Mul => 6
    case Div => 6
    case Rem => 6
  }

  const RUST_TIGHT := 7

  function Binds(e: Init): nat {
    if e.Binary? then RustLevel(e.bin) else RUST_TIGHT
  }

  /** A tree that needs no brackets it does not show: operators of one level lean left. */
  predicate Shaped(e: Init) {
    match e
    case Digits(_) => true
    case Ident(_) => true
    case Paren(a) => Shaped(a)
    case Unary(_, a) => Shaped(a) && !a.Binary?
    case Binary(op, l, r) => Shaped(l) && Shaped(r) && Binds(l) >= RustLevel(op) && Binds(r) > RustLevel(op)
    case Group(_) => false
    case Other => false
  }

  /** A minus directly under a minus. */
  predicate MinusMinus(e: Init) {
    match e
    case Paren(a) => MinusMinus(a)
    case Group(a) => MinusMinus(a)
    case Unary(op, a) => (op == Neg && a.Unary? && a.un == Neg) || MinusMinus(a)
    case Binary(_, l, r) => MinusMinus(l) || MinusMinus(r)
    case _ => false
  }

  // ----- Reading SystemVerilog -----------------------------------------------------------------------

  datatype Token = Name(text: string) | Sign(text: string)

  /** Two characters that are one operator when they stand together (section 5.5 and
    * table 11-1 of IEEE 1800-2017), a comment, or an attribute's bracket.
    */
  predicate Joins(a: char, b: char) {
    match a
    case '-' => b == '-' || b == '>'
    case '+' => b == '+'
    case '*' => b == '*' || b == ')'
    case '<' => b == '<'
    case '>' => b == '>'
    case '&' => b == '&'
    case '|' => b == '|'
    case '~' => b == '&' || b == '|' || b == '^'
    case '^' => b == '~'
    case '/' => b == '/' || b == '*'
    case '(' => b == '*'
    case _ => false
  }

  /** The arithmetic shifts. */
  predicate JoinsThree(a: char, b: char, c: char) {
    a == b == c && (a == '<' || a == '>')
  }

  /** How many characters the operator at the front of a text has: the longest match. */
  function SignLen(s: string): (n: nat)
    requires s != ""
    ensures 1 <= n <= |s|
  {
    if |s| >= 3 && JoinsThree(s[0], s[1], s[2]) then 3 else if |s| >= 2 && Joins(s[0], s[1]) then 2 else 1
  }

  function WordLen(s: string): (n: nat)
    ensures n <= |s| && (forall i :: 0 <= i < n ==> WordChar(s[i])) && (n < |s| ==> !WordChar(s[n]))
  {
    if s == "" || !WordChar(s[0]) then 0 else 1 + WordLen(s[1..])
  }

  function Lex(s: string): seq<Token>
    decreases |s|
  {
    if s == "" then []
    else if s[0] == ' ' then Lex(s[1..])
    else if WordChar(s[0]) then
      var n := WordLen(s);
      [Name(s[..n])] + Lex(s[n..])
    else
      var n := SignLen(s);
      [Sign(s[..n])] + Lex(s[n..])
  }

  /** The binary operators' rows, loosest first, of table 11-2 in section 11.3.2 of
    * IEEE 1800-2017: rows 3 and 4 are equality and comparison, which stand below the
    * shifts there.
    */
  function SvLevel(op: BinOp): nat {
    match op
    case BitOr => 0
    case BitXor => 1
    case BitAnd => 2
    case Compare => 4
    case Shl => 5
    case Shr => 5
    case Add => 6
    case Sub => 6
    case Mul => 7
    case Div => 7
    case Rem => 7
  }

  const SV_TIGHT := 8

  function OpOf(t: Token): Option<BinOp> {
    if t == Sign("+") then Syntax.Some(Add)
    else if t == Sign("-") then Syntax.Some(Sub)
    else if t == Sign("*") then Syntax.Some(Mul)
    else if t == Sign("/") then Syntax.Some(Div)
    else if t == Sign("%") then Syntax.Some(Rem)
    else if t == Sign("<<") then Syntax.Some(Shl)
    else if t == Sign(">>") then Syntax.Some(Shr)
    else if t == Sign("&") then Syntax.Some(BitAnd)
    else if t == Sign("|") then Syntax.Some(BitOr)
    else if t == Sign("^") then Syntax.Some(BitXor)
    else Syntax.None
  }

  datatype Parsed = Parsed(tree: Init, rest: seq<Token>)

  /** An expression of operators at row `k` or tighter. */
  function ParseRow(k: nat, toks: seq<Token>): (r: Option<Parsed>)
    requires k <= SV_TIGHT
    ensures r.Some? ==> |r.value.rest| < |toks|
    decreases |toks|, SV_TIGHT + 1 - k
  {
    if k == SV_TIGHT then ParseTight(toks) else
    var first := ParseRow(k + 1, toks);
    if first.None? then Syntax.None else ParseTail(k, first.value.tree, first.value.rest)
  }

  /** What follows an operand at row `k`: operators of that row, leaning left. */
  function ParseTail(k: nat, acc: Init, toks: seq<Token>): (r: Option<Parsed>)
    requires k < SV_TIGHT
    ensures r.Some? ==> |r.value.rest| <= |toks|
    decreases |toks|, SV_TIGHT + 1 - k
  {
    if toks == [] || OpOf(toks[0]).None? || SvLevel(OpOf(toks[0]).value) != k then Syntax.Some(Parsed(acc, toks)) else
    var operand := ParseRow(k + 1, toks[1..]);
    if operand.None? then Syntax.None
    else ParseTail(k, Binary(OpOf(toks[0]).value, acc, operand.value.tree), operand.value.rest)
  }

  /** A unary operator and its operand, a bracketed expression, a literal or a name. */
  function ParseTight(toks: seq<Token>): (r: Option<Parsed>)
    ensures r.Some? ==> |r.value.rest| < |toks|
    decreases |toks|, 0
  {
    if toks == [] then Syntax.None
    else if toks[0].Name? then
      if toks[0].text == "" then Syntax.None
      else Syntax.Some(Parsed(if Digit(toks[0].text[0]) then Digits(toks[0].text) else Ident(toks[0].text), toks[1..]))
    else if toks[0] == Sign("~") || toks[0] == Sign("-") then
      var a := ParseTight(toks[1..]);
      if a.None? then Syntax.None
      else Syntax.Some(Parsed(Unary(if toks[0] == Sign("~") then Not else Neg, a.value.tree), a.value.rest))
    else if toks[0] == Sign("(") then
      var a := ParseRow(0, toks[1..]);
      if a.None? || a.value.rest == [] || a.value.rest[0] != Sign(")") then Syntax.None
      else Syntax.Some(Parsed(Paren(a.value.tree), a.value.rest[1..]))
    else Syntax.None
  }

  /** The whole text, as one expression. */
  function Read(s: string): Option<Init> {
    var r := ParseRow(0, Lex(s));
    if r.None? || r.value.rest != [] then Syntax.None else Syntax.Some(r.value.tree)
  }

  // ----- Tokens of a tree ------------------------------------------------------------------------------

  /** The forms that have a text. */
  predicate Expressible(e: Init) {
    match e
    case Paren(a) => Expressible(a)
    case Group(a) => Expressible(a)
    case Unary(op, a) => op != Deref && Expressible(a)
    case Binary(op, l, r) => op != Compare && Expressible(l) && Expressible(r)
    case Other => false
    case _ => true
  }

  function Tokens(e: Init): seq<Token>
    requires Expressible(e)
  {
    match e
    case Digits(t) => [Name(t)]
    case Ident(x) => [Name(x)]
    case Paren(a) => [Sign("(")] + Tokens(a) + [Sign(")")]
    case Group(a) => Tokens(a)
    case Unary(op, a) => [Sign(UnText(op).value)] + Tokens(a)
    case Binary(op, l, r) => Tokens(l) + [Sign(BinText(op).value)] + Tokens(r)
  }

  lemma {:induction false} RenderExpressible(e: Init)
    ensures Render(e).Some? <==> Expressible(e)
    ensures Expressible(Erase(e)) <==> Expressible(e)
    ensures Render(Erase(e)) == Render(e)
    ensures Lexical(e) ==> Lexical(Erase(e))
  {
    match e {
      case Paren(a) => RenderExpressible(a);
      case Group(a) => RenderExpressible(a);
      case Unary(_, a) => RenderExpressible(a);
      case Binary(_, l, r) =>
        RenderExpressible(l);
        RenderExpressible(r);
      case Digits(_) =>
      case Ident(_) =>
      case Other =>
    }
  }

  // ----- Lexing ------------------------------------------------------------------------------------------

  /** A token that begins here is not part of what came before. */
  predicate Stops(rest: string) {
    rest == "" || !WordChar(rest[0])
  }

  lemma {:induction false} RenderStarts(e: Init)
    requires Expressible(e) && Lexical(e)
    ensures Render(e).Some?
    ensures Begins(Render(e).value)
    ensures Shaped(e) && !e.Binary? && Render(e).value[0] == '-' ==> e.Unary? && e.un == Neg
  {
    RenderExpressible(e);
    match e {
      case Paren(a) => RenderExpressible(a);
      case Group(a) => RenderStarts(a);
      case Unary(op, a) => RenderExpressible(a);
      case Binary(_, l, r) =>
        RenderStarts(l);
        RenderExpressible(r);
      case Digits(_) =>
      case Ident(_) =>
      case Other =>
    }
  }

  lemma LexWord(w: string, rest: string)
    requires Word(w) && Stops(rest)
    ensures Lex(w + rest) == [Name(w)] + Lex(rest)
  {
    WordLenIs(w, rest);
    assert (w + rest)[..|w|] == w && (w + rest)[|w|..] == rest;
  }

  lemma {:induction false} WordLenIs(w: string, rest: string)
    requires (forall i :: 0 <= i < |w| ==> WordChar(w[i])) && Stops(rest)
    ensures WordLen(w + rest) == |w|
  {
    if w == "" {
      assert w + rest == rest;
    } else {
      assert (w + rest)[1..] == w[1..] + rest;
      WordLenIs(w[1..], rest);
    }
  }

  /** A sign that joins with nothing that follows. */
  lemma LexSign(c: char, rest: string)
    requires c != ' ' && !WordChar(c) && (rest != "" ==> !Joins(c, rest[0]))
    ensures Lex([c] + rest) == [Sign([c])] + Lex(rest)
  {
    var s := [c] + rest;
    assert s[..1] == [c] && s[1..] == rest;
    assert SignLen(s) == 1;
  }

  lemma LexSpace(rest: string)
    ensures Lex(" " + rest) == Lex(rest)
  {
    assert (" " + rest)[1..] == rest;
  }

  lemma LexShift(c: char, rest: string)
    requires c == '<' || c == '>'
    ensures Lex([c, c] + (" " + rest)) == [Sign([c, c])] + Lex(rest)
  {
    var s := [c, c] + (" " + rest);
    assert s[0] == c && s[1] == c && s[2] == ' ' && SignLen(s) == 2;
    assert s[..2] == [c, c] && s[2..] == " " + rest;
    LexSpace(rest);
  }

  lemma LexSpaced(t: string, rest: string, toks: seq<Token>)
    requires Lex(t + (" " + rest)) == toks
    ensures Lex(" " + t + " " + rest) == toks
  {
    LexSpace(t + (" " + rest));
    assert " " + t + " " + rest == " " + (t + (" " + rest));
  }

  lemma LexOneSign(c: char, rest: string)
    requires c != ' ' && !WordChar(c)
    ensures Lex([c] + (" " + rest)) == [Sign([c])] + Lex(rest)
  {
    LexSign(c, " " + rest);
    LexSpace(rest);
  }

  lemma LexOp(op: BinOp, rest: string)
    requires op != Compare
    ensures Lex(" " + BinText(op).value + " " + rest) == [Sign(BinText(op).value)] + Lex(rest)
  {
    var t := BinText(op).value;
    if op == Shl || op == Shr {
      assert t == [t[0], t[0]];
      LexShift(t[0], rest);
    } else {
      assert t == [t[0]];
      LexOneSign(t[0], rest);
    }
    LexSpaced(t, rest, [Sign(t)] + Lex(rest));
  }

  lemma Regroup<T>(a: seq<T>, b: seq<T>, c: seq<T>)
    ensures a + b + c == a + (b + c)
  {
  }

  /** What an expression's text can begin with joins with no sign in front of it. */
  predicate Begins(s: string) {
    s != "" && (WordChar(s[0]) || s[0] == '(' || s[0] == '~' || s[0] == '-')
  }

  lemma LexAfterSign(c: char, inner: string, toks: seq<Token>, rest: string)
    requires Begins(inner) && (c == '(' || c == '~' || (c == '-' && inner[0] != '-'))
    requires Lex(inner + rest) == toks + Lex(rest)
    ensures Lex([c] + inner + rest) == [Sign([c])] + toks + Lex(rest)
  {
    var more := inner + rest;
    assert more[0] == inner[0] && !Joins(c, more[0]);
    LexSign(c, more);
    Regroup([c], inner, rest);
    Regroup([Sign([c])], toks, Lex(rest));
  }

  lemma LexParen(inner: string, toks: seq<Token>, rest: string)
    requires Begins(inner) && Lex(inner + (")" + rest)) == toks + Lex(")" + rest)
    ensures Lex("(" + inner + ")" + rest) == [Sign("(")] + toks + [Sign(")")] + Lex(rest)
  {
    LexAfterSign('(', inner, toks, ")" + rest);
    LexSign(')', rest);
    Regroup("(" + inner, ")", rest);
    Regroup([Sign("(")] + toks, [Sign(")")], Lex(rest));
  }

  lemma {:induction false} LexRender(e: Init, rest: string)
    requires Expressible(e) && Lexical(e) && Shaped(e) && !MinusMinus(e) && Stops(rest)
    ensures Render(e).Some? && Lex(Render(e).value + rest) == Tokens(e) + Lex(rest)
    decreases e
  {
    match e {
      case Digits(t) => LexWord(t, rest);
      case Ident(x) => LexWord(x, rest);
      case Paren(a) =>
        RenderStarts(a);
        LexRender(a, ")" + rest);
        LexParen(Render(a).value, Tokens(a), rest);
      case Unary(op, a) =>
        RenderStarts(a);
        LexRender(a, rest);
        LexAfterSign(UnText(op).value[0], Render(a).value, Tokens(a), rest);
        assert UnText(op).value == [UnText(op).value[0]];
      case Binary(op, l, r) =>
        LexRenderBinary(op, l, r, rest);
    }
  }

  lemma {:induction false} LexRenderBinary(op: BinOp, l: Init, r: Init, rest: string)
    requires var e := Binary(op, l, r); Expressible(e) && Lexical(e) && Shaped(e) && !MinusMinus(e) && Stops(rest)
    ensures var e := Binary(op, l, r); Render(e).Some? && Lex(Render(e).value + rest) == Tokens(e) + Lex(rest)
    decreases Binary(op, l, r), 0
  {
    LexRender(r, rest);
    var right := Render(r).value + rest;
    LexOp(op, right);
    LexRender(l, " " + BinText(op).value + " " + right);
    RegroupText(Render(l).value, BinText(op).value, Render(r).value, rest);
    RegroupTokens(Tokens(l), Sign(BinText(op).value), Tokens(r), Lex(rest));
  }

  lemma RegroupText(a: string, o: string, b: string, c: string)
    ensures a + " " + o + " " + b + c == a + (" " + o + " " + (b + c))
  {
  }

  lemma RegroupTokens(a: seq<Token>, o: Token, b: seq<Token>, c: seq<Token>)
    ensures a + [o] + b + c == a + ([o] + (b + c))
  {
  }

  predicate HasDashes(s: string) {
    exists i :: 0 <= i < |s| - 1 && s[i] == '-' && s[i + 1] == '-'
  }

  lemma DashesWithin(a: string, s: string, b: string)
    requires HasDashes(s)
    ensures HasDashes(a + s + b)
  {
    var i :| 0 <= i < |s| - 1 && s[i] == '-' && s[i + 1] == '-';
    var t := a + s + b;
    assert t[|a| + i] == '-' && t[|a| + i + 1] == '-';
  }

  lemma {:induction false} MinusMinusDashes(e: Init)
    requires Expressible(e) && MinusMinus(e) && Groupless(e)
    ensures Render(e).Some? && HasDashes(Render(e).value)
  {
    RenderExpressible(e);
    match e {
      case Paren(a) =>
        MinusMinusDashes(a);
        DashesWithin("(", Render(a).value, ")");
      case Unary(op, a) =>
        RenderExpressible(a);
        if MinusMinus(a) {
          MinusMinusDashes(a);
          DashesWithin(UnText(op).value, Render(a).value, "");
          Padded(UnText(op).value + Render(a).value);
        } else {
          assert Render(e).value[0] == '-' && Render(e).value[1] == '-';
        }
      case Binary(op, l, r) =>
        BinaryDashes(op, l, r);
    }
  }

  lemma {:induction false} BinaryDashes(op: BinOp, l: Init, r: Init)
    requires var e := Binary(op, l, r); Expressible(e) && MinusMinus(e) && Groupless(e)
    ensures var e := Binary(op, l, r); Render(e).Some? && HasDashes(Render(e).value)
    decreases Binary(op, l, r), 0
  {
    RenderExpressible(l);
    RenderExpressible(r);
    if MinusMinus(l) {
      MinusMinusDashes(l);
    } else {
      MinusMinusDashes(r);
    }
    DashesBeside(Render(l).value, BinText(op).value, Render(r).value);
  }

  lemma DashesBeside(a: string, o: string, b: string)
    requires HasDashes(a) || HasDashes(b)
    ensures HasDashes(a + " " + o + " " + b)
  {
    var front := a + " " + o + " ";
    if HasDashes(b) {
      DashesWithin(front, b, "");
      Padded(front + b);
    } else {
      DashesWithin("", a, " ");
      assert "" + a + " " == a + " ";
      DashesWithin("", a + " ", o);
      assert "" + (a + " ") + o == a + " " + o;
      DashesWithin("", a + " " + o, " ");
      assert "" + (a + " " + o) + " " == front;
      DashesWithin("", front, b);
      assert "" + front + b == front + b;
    }
  }

  lemma Padded(s: string)
    ensures s + "" == s
  {
  }

  lemma {:induction false} LexDashes(s: string)
    requires HasDashes(s)
    ensures Sign("--") in Lex(s)
    decreases |s|
  {
    var i :| 0 <= i < |s| - 1 && s[i] == '-' && s[i + 1] == '-';
    var n := if s[0] == ' ' then 1
             else if WordChar(s[0]) then WordLen(s)
             else SignLen(s);
    if i >= n {
      assert s[n..][i - n] == '-' && s[n..][i - n + 1] == '-';
      LexDashes(s[n..]);
    } else {
      assert s[0] == '-' && s[1] == '-';
      assert SignLen(s) == 2 && s[..2] == "--";
    }
  }

  // ----- Reading back ----------------------------------------------------------------------------------------

  /** The two languages order the operators that are rendered alike. */
  lemma LevelsAgree(a: BinOp, b: BinOp)
    requires a != Compare && b != Compare
    ensures RustLevel(a) < RustLevel(b) <==> SvLevel(a) < SvLevel(b)
  {
  }

  function SvBinds(e: Init): nat {
    if e.Binary? then SvLevel(e.bin) else SV_TIGHT
  }

  /** No operator of row `k` or tighter stands here. */
  predicate NoOpFrom(toks: seq<Token>, k: nat) {
    toks == [] || OpOf(toks[0]).None? || SvLevel(OpOf(toks[0]).value) < k
  }

  lemma OpOfText(op: BinOp)
    requires op != Compare
    ensures OpOf(Sign(BinText(op).value)) == Syntax.Some(op)
  {
    assert forall a: char, b: char {:trigger [a, b]} :: |[a, b]| == 2;
  }

  lemma {:induction false} ReadTight(e: Init, rest: seq<Token>)
    requires Expressible(e) && Lexical(e) && Shaped(e) && !e.Binary?
    ensures ParseTight(Tokens(e) + rest) == Syntax.Some(Parsed(e, rest))
    decreases e, 0
  {
    var toks := Tokens(e) + rest;
    match e {
      case Digits(t) => assert toks[1..] == rest;
      case Ident(x) => assert toks[1..] == rest;
      case Paren(a) =>
        ReadRow(a, 0, [Sign(")")] + rest);
        ReadParen(a, rest);
      case Unary(op, a) =>
        ReadTight(a, rest);
        ReadUnary(op, a, rest);
    }
  }

  lemma ReadParen(a: Init, rest: seq<Token>)
    requires Expressible(a) && ParseRow(0, Tokens(a) + ([Sign(")")] + rest)) == Syntax.Some(Parsed(a, [Sign(")")] + rest))
    ensures ParseTight(Tokens(Paren(a)) + rest) == Syntax.Some(Parsed(Paren(a), rest))
  {
    var toks, inner := Tokens(Paren(a)) + rest, [Sign(")")] + rest;
    assert Tokens(Paren(a)) == [Sign("(")] + Tokens(a) + [Sign(")")];
    assert toks[0] == Sign("(") && toks[1..] == Tokens(a) + inner && inner[1..] == rest;
    assert inner[0] == Sign(")") && ParseRow(0, toks[1..]) == Syntax.Some(Parsed(a, inner));
  }

  lemma ReadUnary(op: UnOp, a: Init, rest: seq<Token>)
    requires op != Deref && Expressible(a) && ParseTight(Tokens(a) + rest) == Syntax.Some(Parsed(a, rest))
    ensures ParseTight(Tokens(Unary(op, a)) + rest) == Syntax.Some(Parsed(Unary(op, a), rest))
  {
    var toks := Tokens(Unary(op, a)) + rest;
    assert toks[0] == Sign(UnText(op).value) && toks[1..] == Tokens(a) + rest;
    assert "~" != "-" by {
      assert "~"[0] != "-"[0];
    }
  }

  /** An operand is read whole when nothing as tight follows it. */
  lemma {:induction false} ReadRow(e: Init, k: nat, rest: seq<Token>)
    requires Expressible(e) && Lexical(e) && Shaped(e) && k <= SvBinds(e) && NoOpFrom(rest, k)
    ensures ParseRow(k, Tokens(e) + rest) == Syntax.Some(Parsed(e, rest))
    decreases e, 2, SV_TIGHT - k
  {
    if k == SV_TIGHT {
      ReadTight(e, rest);
    } else {
      ReadPrefix(e, k, rest);
    }
  }

  /** Reading at row `k` takes all of `e`, then looks on. */
  lemma {:induction false} ReadPrefix(e: Init, k: nat, rest: seq<Token>)
    requires Expressible(e) && Lexical(e) && Shaped(e) && k <= SvBinds(e) && k < SV_TIGHT && NoOpFrom(rest, k + 1)
    ensures ParseRow(k, Tokens(e) + rest) == ParseTail(k, e, rest)
    decreases e, 1, SV_TIGHT - k
  {
    if SvBinds(e) > k {
      ReadRowAbove(e, k, rest);
    } else {
      var op, l, r := e.bin, e.left, e.right;
      LevelOf(e);
      var more := [Sign(BinText(op).value)] + (Tokens(r) + rest);
      OpOfText(op);
      assert Tokens(e) + rest == Tokens(l) + more && more[1..] == Tokens(r) + rest;
      ReadPrefix(l, k, more);
      ReadRow(r, k + 1, rest);
    }
  }

  lemma {:induction false} ReadRowAbove(e: Init, k: nat, rest: seq<Token>)
    requires Expressible(e) && Lexical(e) && Shaped(e) && k < SvBinds(e) && k < SV_TIGHT && NoOpFrom(rest, k + 1)
    ensures ParseRow(k, Tokens(e) + rest) == ParseTail(k, e, rest)
    decreases e, 1, SV_TIGHT - k, 0
  {
    if k + 1 == SV_TIGHT {
      ReadTight(e, rest);
    } else {
      ReadPrefix(e, k + 1, rest);
    }
  }

  lemma LevelOf(e: Init)
    requires Expressible(e) && Shaped(e) && e.Binary?
    ensures SvLevel(e.bin) <= SvBinds(e.left) && SvLevel(e.bin) < SvBinds(e.right)
  {
    if e.left.Binary? {
      LevelsAgree(e.left.bin, e.bin);
    }
    if e.right.Binary? {
      LevelsAgree(e.bin, e.right.bin);
    }
  }

  // ----- What is read is shaped --------------------------------------------------------------------------------

  /** `t` was read off the front of `toks`. */
  predicate ReadOff(toks: seq<Token>, t: Init, rest: seq<Token>) {
    Expressible(t) && Shaped(t) && toks == Tokens(t) + rest
  }

  lemma TextOfOp(t: Token)
    requires OpOf(t).Some?
    ensures OpOf(t).value != Compare && t == Sign(BinText(OpOf(t).value).value)
  {
  }

  lemma {:induction false} RowIsShaped(k: nat, toks: seq<Token>)
    requires k <= SV_TIGHT && ParseRow(k, toks).Some?
    ensures var p := ParseRow(k, toks).value; ReadOff(toks, p.tree, p.rest) && k <= SvBinds(p.tree)
    decreases |toks|, SV_TIGHT + 1 - k
  {
    if k == SV_TIGHT {
      TightIsShaped(toks);
    } else {
      RowIsShaped(k + 1, toks);
      var p := ParseRow(k + 1, toks).value;
      TailIsShaped(k, p.tree, p.rest);
    }
  }

  lemma {:induction false} TailIsShaped(k: nat, acc: Init, toks: seq<Token>)
    requires k < SV_TIGHT && Expressible(acc) && Shaped(acc) && k <= SvBinds(acc) && ParseTail(k, acc, toks).Some?
    ensures var p := ParseTail(k, acc, toks).value; ReadOff(Tokens(acc) + toks, p.tree, p.rest) && k <= SvBinds(p.tree)
    decreases |toks|, SV_TIGHT + 1 - k
  {
    if !(toks == [] || OpOf(toks[0]).None? || SvLevel(OpOf(toks[0]).value) != k) {
      TextOfOp(toks[0]);
      var op := OpOf(toks[0]).value;
      RowIsShaped(k + 1, toks[1..]);
      var r := ParseRow(k + 1, toks[1..]).value;
      JoinIsShaped(op, acc, r.tree, toks, r.rest);
      TailIsShaped(k, Binary(op, acc, r.tree), r.rest);
    }
  }

  /** An operator and an operand that binds tighter, put behind what was read before. */
  lemma JoinIsShaped(op: BinOp, acc: Init, right: Init, toks: seq<Token>, rest: seq<Token>)
    requires op != Compare && Expressible(acc) && Shaped(acc) && SvLevel(op) <= SvBinds(acc) && SvLevel(op) < SvBinds(right)
    requires toks != [] && toks[0] == Sign(BinText(op).value) && ReadOff(toks[1..], right, rest)
    ensures var joined := Binary(op, acc, right);
      Expressible(joined) && Shaped(joined) && Tokens(acc) + toks == Tokens(joined) + rest
  {
    if acc.Binary? {
      LevelsAgree(acc.bin, op);
    }
    if right.Binary? {
      LevelsAgree(op, right.bin);
    }
    RegroupBehind(Tokens(acc), toks, Tokens(right), rest);
  }

  lemma RegroupBehind(a: seq<Token>, toks: seq<Token>, b: seq<Token>, rest: seq<Token>)
    requires toks != [] && toks[1..] == b + rest
    ensures a + toks == a + [toks[0]] + b + rest
  {
    assert toks == [toks[0]] + toks[1..];
  }

  lemma {:induction false} TightIsShaped(toks: seq<Token>)
    requires ParseTight(toks).Some?
    ensures var p := ParseTight(toks).value; ReadOff(toks, p.tree, p.rest) && !p.tree.Binary?
    decreases |toks|, 0
  {
    assert toks == [toks[0]] + toks[1..];
    if toks[0] == Sign("~") || toks[0] == Sign("-") {
      TightIsShaped(toks[1..]);
      var a := ParseTight(toks[1..]).value;
      UnaryOff(toks, if toks[0] == Sign("~") then Not else Neg, a.tree, a.rest);
    } else if toks[0] == Sign("(") {
      RowIsShaped(0, toks[1..]);
      var a := ParseRow(0, toks[1..]).value;
      ParenOff(toks, a.tree, a.rest);
    }
  }

  lemma UnaryOff(toks: seq<Token>, op: UnOp, a: Init, rest: seq<Token>)
    requires toks != [] && op != Deref && toks[0] == Sign(UnText(op).value) && ReadOff(toks[1..], a, rest) && !a.Binary?
    ensures ReadOff(toks, Unary(op, a), rest)
  {
    assert toks == [toks[0]] + toks[1..];
    assert [toks[0]] + (Tokens(a) + rest) == Tokens(Unary(op, a)) + rest;
  }

  lemma ParenOff(toks: seq<Token>, a: Init, rest: seq<Token>)
    requires toks != [] && toks[0] == Sign("(") && ReadOff(toks[1..], a, rest) && rest != [] && rest[0] == Sign(")")
    ensures ReadOff(toks, Paren(a), rest[1..])
  {
    assert toks == [toks[0]] + toks[1..] && rest == [rest[0]] + rest[1..];
    assert [toks[0]] + (Tokens(a) + ([rest[0]] + rest[1..])) == Tokens(Paren(a)) + rest[1..];
  }

  lemma {:induction false} TokensHaveNoDashes(e: Init)
    requires Expressible(e)
    ensures Sign("--") !in Tokens(e)
  {
    match e {
      case Paren(a) => TokensHaveNoDashes(a);
      case Group(a) => TokensHaveNoDashes(a);
      case Unary(_, a) => TokensHaveNoDashes(a);
      case Binary(op, l, r) =>
        TokensHaveNoDashes(l);
        TokensHaveNoDashes(r);
        assert BinText(op).value != "--";
      case Digits(_) =>
      case Ident(_) =>
    }
  }

  // ----- The round trip --------------------------------------------------------------------------------------------

  lemma {:induction false} EraseLeavesNoGroup(e: Init)
    ensures Groupless(Erase(e))
  {
    match e {
      case Paren(a) => EraseLeavesNoGroup(a);
      case Group(a) => EraseLeavesNoGroup(a);
      case Unary(_, a) => EraseLeavesNoGroup(a);
      case Binary(_, l, r) =>
        EraseLeavesNoGroup(l);
        EraseLeavesNoGroup(r);
      case Digits(_) =>
      case Ident(_) =>
      case Other =>
    }
  }

  /** A rendered initializer reads back, by SystemVerilog's rules, as the tree it came from
    * (Rust's `!` being `~`), exactly when the tree shows the brackets it needs once its
    * invisible groups are gone, and no minus stands directly under a minus.
    */
  lemma RoundTrip(e: Init)
    requires Lexical(e) && Render(e).Some?
    ensures Read(Render(e).value) == Syntax.Some(Erase(e)) <==> Shaped(Erase(e)) && !MinusMinus(Erase(e))
  {
    var t, s := Erase(e), Render(e).value;
    RenderExpressible(e);
    EraseLeavesNoGroup(e);
    if Shaped(t) && !MinusMinus(t) {
      LexRender(t, "");
      assert s + "" == s && Tokens(t) + [] == Tokens(t);
      ReadRow(t, 0, []);
    }
    if Read(s) == Syntax.Some(t) {
      RowIsShaped(0, Lex(s));
      assert Tokens(t) + [] == Tokens(t);
      if MinusMinus(t) {
        MinusMinusDashes(t);
        LexDashes(s);
        TokensHaveNoDashes(t);
      }
    }
  }

  /** `(a + b) * c` with its bracket an invisible group is rendered `a + b * c`. */
  lemma GroupCounterexample()
    ensures var e := Binary(Mul, Group(Binary(Add, Ident("a"), Ident("b"))), Ident("c"));
      Render(e) == Syntax.Some("a + b * c") && Read("a + b * c") != Syntax.Some(Erase(e))
  {
    var e := Binary(Mul, Group(Binary(Add, Ident("a"), Ident("b"))), Ident("c"));
    assert Render(e.left.inner).value == "a" + " " + "+" + " " + "b" == "a + b";
    assert "a + b" + " " + "*" + " " + "c" == "a + b * c";
    RoundTrip(e);
  }
}
