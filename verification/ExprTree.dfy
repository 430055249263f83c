/**
 Syntax trees of template expressions, their printed form, and the theorem that
 the string evaluator computes the meaning of the tree it was printed from.
 */
module ExprTree {
  import opened Text
  import opened Expr

  datatype Keyword = True | False | Null | Undefined

  /** An `Equal` nests to the right only: `a == b == c` reads as `a == (b == c)`. */
  datatype Tree =
    | Word(k: Keyword)
    | Number(digits: string)
    | Quoted(quote: char, body: string)
    | Path(head: string, tail: Tail)
    | Not(gap: string, operand: Tree)
    | Paren(before: string, inner: Tree, after: string)
    | Equal(left: Tree, gap1: string, op: EqOp, gap2: string, right: Tree)

  datatype Tail =
    | End
    | Dot(name: string, rest: Tail)
    | Index(pre: string, key: Tree, post: string, rest: Tail)

  function KeywordText(k: Keyword): string {
    match k
    case True => "true"
    case False => "false"
    case Null => "null"
    case Undefined => "undefined"
  }

  function Print(e: Tree): string {
    match e
    case Word(k) => KeywordText(k)
    case Number(digits) => digits
    case Quoted(quote, body) => [quote] + body + [quote]
    case Path(head, tail) => head + PrintTail(tail)
    case Not(gap, operand) => "!" + (gap + Print(operand))
    case Paren(before, inner, after) => "(" + (before + Print(inner) + after) + ")"
    case Equal(left, gap1, op, gap2, right) =>
      Print(left) + gap1 + OpText(op) + (gap2 + Print(right))
  }

  function PrintTail(t: Tail): string {
    match t
    case End => ""
    case Dot(name, rest) => "." + name + PrintTail(rest)
    case Index(pre, key, post, rest) => "[" + (pre + Print(key) + post) + "]" + PrintTail(rest)
  }

  predicate IsIdent(s: string) {
    s != "" && IsIdentStart(s[0]) && forall i :: 0 <= i < |s| ==> IsIdentChar(s[i])
  }

  /** Free of operator and bracket characters. */
  predicate Plain(c: char) {
    !EqLead(c) && !Opens(Either, c) && !Closes(Either, c)
  }

  predicate AllPlain(s: string) {
    forall i :: 0 <= i < |s| ==> Plain(s[i])
  }

  predicate IsKeyword(s: string) {
    s == "true" || s == "false" || s == "null" || s == "undefined"
  }

  predicate WellFormed(e: Tree) {
    match e
    case Word(_) => true
    case Number(digits) => IsNumber(digits)
    case Quoted(quote, body) => (quote == '"' || quote == '\'') && AllPlain(body)
    case Path(head, tail) => IsIdent(head) && (tail.End? ==> !IsKeyword(head)) && WellFormedTail(tail)
    case Not(gap, operand) => AllSpace(gap) && !operand.Equal? && WellFormed(operand)
    case Paren(before, inner, after) => AllSpace(before) && AllSpace(after) && WellFormed(inner)
    case Equal(left, gap1, _, gap2, right) =>
      AllSpace(gap1) && AllSpace(gap2) && !left.Equal? && WellFormed(left) && WellFormed(right)
  }

  predicate WellFormedTail(t: Tail) {
    match t
    case End => true
    case Dot(name, rest) => name != "" && (IsIdent(name) || AllDigits(name)) && WellFormedTail(rest)
    case Index(pre, key, post, rest) =>
      AllSpace(pre) && AllSpace(post) && WellFormed(key) && WellFormedTail(rest)
  }

  /** The direct meaning of a tree. */
  function Eval(js: Js, vals: Value, e: Tree): Value {
    match e
    case Word(True) => js.truth(true)
    case Word(False) => js.truth(false)
    case Word(Null) => js.nul
    case Word(Undefined) => js.undef
    case Number(digits) => js.number(digits)
    case Quoted(_, body) => js.text(body)
    case Path(head, tail) => EvalTail(js, vals, js.Member(vals, js.text(head)), tail)
    case Not(_, operand) => js.truth(!js.truthy(Eval(js, vals, operand)))
    case Paren(_, inner, _) => Eval(js, vals, inner)
    case Equal(left, _, op, _, right) => Compare(js, op, Eval(js, vals, left), Eval(js, vals, right))
  }

  function EvalTail(js: Js, vals: Value, cur: Value, t: Tail): Value {
    match t
    case End => cur
    case Dot(name, rest) => EvalTail(js, vals, js.Member(cur, js.text(name)), rest)
    case Index(_, key, _, rest) => EvalTail(js, vals, js.Member(cur, Eval(js, vals, key)), rest)
  }

  // ---------------------------------------------------------------- nesting

  function Delta(kind: Kind, c: char): int {
    if Opens(kind, c) then 1 else if Closes(kind, c) then -1 else 0
  }

  /** Nesting depth after `s`, entered at depth `d`. */
  function Depth(kind: Kind, s: string, d: int): int {
    if s == "" then d else Depth(kind, s[1..], d + Delta(kind, s[0]))
  }

  /** After every character of `s` the depth is at least 1. */
  predicate Above(kind: Kind, s: string, d: int) {
    s == "" || (d + Delta(kind, s[0]) >= 1 && Above(kind, s[1..], d + Delta(kind, s[0])))
  }

  lemma {:induction false} DepthConcat(kind: Kind, a: string, b: string, d: int)
    ensures Depth(kind, a + b, d) == Depth(kind, b, Depth(kind, a, d))
    ensures Above(kind, a + b, d) <==> Above(kind, a, d) && Above(kind, b, Depth(kind, a, d))
  {
    if a == "" {
      assert a + b == b;
    } else {
      assert (a + b)[1..] == a[1..] + b;
      DepthConcat(kind, a[1..], b, d + Delta(kind, a[0]));
    }
  }

  /** Brackets of each kind pair up, and never close more than was opened. */
  ghost predicate Balanced(s: string) {
    forall kind, d :: Depth(kind, s, d) == d && (d >= 1 ==> Above(kind, s, d))
  }

  lemma {:induction false} PlainDepth(kind: Kind, s: string, d: int)
    requires forall i :: 0 <= i < |s| ==> !Opens(Either, s[i]) && !Closes(Either, s[i])
    ensures Depth(kind, s, d) == d && (d >= 1 ==> Above(kind, s, d))
  {
    if s != "" {
      assert !Opens(Either, s[0]) && !Closes(Either, s[0]);
      assert Delta(kind, s[0]) == 0;
      PlainDepth(kind, s[1..], d);
    }
  }

  lemma BalancedPlain(s: string)
    requires forall i :: 0 <= i < |s| ==> !Opens(Either, s[i]) && !Closes(Either, s[i])
    ensures Balanced(s)
  {
    forall kind, d ensures Depth(kind, s, d) == d && (d >= 1 ==> Above(kind, s, d)) {
      PlainDepth(kind, s, d);
    }
  }

  lemma BalancedConcat(a: string, b: string)
    requires Balanced(a) && Balanced(b)
    ensures Balanced(a + b)
  {
    forall kind, d ensures Depth(kind, a + b, d) == d && (d >= 1 ==> Above(kind, a + b, d)) {
      DepthConcat(kind, a, b, d);
      assert Depth(kind, a, d) == d && Depth(kind, b, d) == d;
    }
  }

  lemma BalancedWrap(open: string, s: string, close: string)
    requires Balanced(s)
    requires (open == "(" && close == ")") || (open == "[" && close == "]")
    ensures Balanced(open + s + close)
  {
    var whole := open + s + close;
    forall kind, d ensures Depth(kind, whole, d) == d && (d >= 1 ==> Above(kind, whole, d)) {
      DepthConcat(kind, open + s, close, d);
      DepthConcat(kind, open, s, d);
      var inside := d + Delta(kind, open[0]);
      assert open[1..] == "" && close[1..] == "";
      assert Depth(kind, open, d) == inside;
      assert Depth(kind, s, inside) == inside;
      assert Depth(kind, close, inside) == d;
    }
  }

  lemma SpacesBalanced(w: string)
    requires AllSpace(w)
    ensures Balanced(w)
  {
    BalancedPlain(w);
  }

  lemma {:induction false} DigitRunDigits(s: string)
    ensures forall i :: 0 <= i < DigitRun(s) ==> IsDigit(s[i])
  {
    if s != "" && IsDigit(s[0]) {
      DigitRunDigits(s[1..]);
      forall i | 0 < i < DigitRun(s) ensures IsDigit(s[i]) {
        assert s[i] == s[1..][i - 1];
      }
    }
  }

  predicate DigitOrDot(c: char) {
    IsDigit(c) || c == '.'
  }

  /** The unsigned part of a number. */
  lemma NumberBody(body: string, n: nat)
    requires n == DigitRun(body) && n > 0
    requires n == |body| || (body[n] == '.' && n + 1 < |body| && AllDigits(body[n + 1..]))
    ensures forall i :: 0 <= i < |body| ==> DigitOrDot(body[i])
    ensures IsDigit(body[0]) && IsDigit(body[|body| - 1])
  {
    DigitRunDigits(body);
    forall i | n < i < |body| ensures IsDigit(body[i]) {
      assert body[i] == body[n + 1..][i - n - 1];
    }
  }

  lemma NumberPlain(s: string)
    requires IsNumber(s)
    ensures AllPlain(s) && !IsSpace(s[|s| - 1]) && (s[0] == '-' || IsDigit(s[0]))
  {
    if s[0] == '-' {
      var body := s[1..];
      NumberBody(body, DigitRun(body));
      assert forall i :: 1 <= i < |s| ==> s[i] == body[i - 1];
    } else {
      NumberBody(s, DigitRun(s));
    }
  }

  lemma {:induction false} PrintBalanced(e: Tree)
    requires WellFormed(e)
    ensures Balanced(Print(e))
    decreases e
  {
    match e
    case Word(k) => BalancedPlain(Print(e));
    case Number(digits) =>
      NumberPlain(digits);
      BalancedPlain(digits);
    case Quoted(quote, body) => BalancedPlain(Print(e));
    case Path(head, tail) =>
      BalancedPlain(head);
      TailBalanced(tail);
      BalancedConcat(head, PrintTail(tail));
    case Not(gap, operand) =>
      PrintBalanced(operand);
      SpacesBalanced(gap);
      BalancedConcat(gap, Print(operand));
      BalancedPlain("!");
      BalancedConcat("!", gap + Print(operand));
    case Paren(before, inner, after) =>
      PrintBalanced(inner);
      PaddedBalanced(before, Print(inner), after);
      BalancedWrap("(", before + Print(inner) + after, ")");
    case Equal(left, gap1, op, gap2, right) =>
      PrintBalanced(left);
      PrintBalanced(right);
      SpacesBalanced(gap1);
      SpacesBalanced(gap2);
      BalancedPlain(OpText(op));
      BalancedConcat(Print(left), gap1);
      BalancedConcat(Print(left) + gap1, OpText(op));
      BalancedConcat(gap2, Print(right));
      BalancedConcat(Print(left) + gap1 + OpText(op), gap2 + Print(right));
  }

  lemma PaddedBalanced(before: string, s: string, after: string)
    requires AllSpace(before) && AllSpace(after) && Balanced(s)
    ensures Balanced(before + s + after)
  {
    SpacesBalanced(before);
    SpacesBalanced(after);
    BalancedConcat(before, s);
    BalancedConcat(before + s, after);
  }

  lemma {:induction false} TailBalanced(t: Tail)
    requires WellFormedTail(t)
    ensures Balanced(PrintTail(t))
    decreases t
  {
    match t
    case End => BalancedPlain("");
    case Dot(name, rest) =>
      TailBalanced(rest);
      BalancedPlain("." + name);
      BalancedConcat("." + name, PrintTail(rest));
    case Index(pre, key, post, rest) =>
      PrintBalanced(key);
      TailBalanced(rest);
      PaddedBalanced(pre, Print(key), post);
      BalancedWrap("[", pre + Print(key) + post, "]");
      BalancedConcat("[" + (pre + Print(key) + post) + "]", PrintTail(rest));
  }

  // ----------------------------------------------------------- first and last

  /** Starts and ends with a character that is neither blank nor `=`. */
  predicate Tidy(s: string) {
    && s != "" && !IsSpace(s[0]) && s[0] != '='
    && !IsSpace(s[|s| - 1]) && !EqLead(s[|s| - 1])
  }

  lemma TidyEqual(l: string, g1: string, o: string, g2: string, r: string)
    requires Tidy(l) && Tidy(r)
    ensures Tidy(l + g1 + o + (g2 + r)) && (l + g1 + o + (g2 + r))[0] == l[0]
  {
    var w := l + g1 + o + (g2 + r);
    assert w[|w| - 1] == r[|r| - 1];
    assert w[0] == l[0];
  }

  lemma TidyWrap(a: char, m: string, b: char)
    requires !IsSpace(a) && a != '=' && !IsSpace(b) && !EqLead(b)
    ensures Tidy([a] + m + [b]) && ([a] + m + [b])[0] == a
  {
    var w := [a] + m + [b];
    assert w[|w| - 1] == b;
  }

  lemma TidyNot(m: string, s: string)
    requires Tidy(s)
    ensures Tidy("!" + (m + s)) && ("!" + (m + s))[0] == '!'
  {
    var w := "!" + (m + s);
    assert w[|w| - 1] == s[|s| - 1];
  }

  lemma Assoc(p: string, g: string, o: string, t: string)
    ensures p + g + o + t == p + (g + o) + t == p + (g + o + t)
  {
  }

  lemma {:induction false} PrintEnds(e: Tree)
    requires WellFormed(e)
    ensures Tidy(Print(e))
    ensures !e.Equal? ==> (Print(e)[0] == '(' <==> e.Paren?) && (Print(e)[0] == '!' <==> e.Not?)
    decreases e, 1
  {
    match e
    case Word(k) =>
    case Number(digits) => NumberPlain(digits);
    case Quoted(quote, body) => TidyWrap(quote, body, quote);
    case Path(head, tail) => PathEnds(head, tail);
    case Not(gap, operand) => NotEnds(gap, operand);
    case Paren(before, inner, after) => TidyWrap('(', before + Print(inner) + after, ')');
    case Equal(left, gap1, op, gap2, right) => EqualEnds(left, gap1, op, gap2, right);
  }

  lemma {:induction false} NotEnds(gap: string, operand: Tree)
    requires WellFormed(operand)
    ensures Tidy("!" + (gap + Print(operand)))
    decreases operand, 2
  {
    PrintEnds(operand);
    TidyNot(gap, Print(operand));
  }

  lemma {:induction false} EqualEnds(left: Tree, gap1: string, op: EqOp, gap2: string, right: Tree)
    requires WellFormed(left) && WellFormed(right)
    ensures Tidy(Print(left) + gap1 + OpText(op) + (gap2 + Print(right)))
    decreases Equal(left, gap1, op, gap2, right), 0
  {
    PrintEnds(left);
    PrintEnds(right);
    TidyEqual(Print(left), gap1, OpText(op), gap2, Print(right));
  }

  lemma PathEnds(head: string, tail: Tail)
    requires IsIdent(head) && WellFormedTail(tail)
    ensures Tidy(head + PrintTail(tail)) && IsIdentStart((head + PrintTail(tail))[0])
  {
    TailEnds(tail);
    var s := head + PrintTail(tail);
    if PrintTail(tail) == "" {
      assert s == head && IsIdentChar(head[|head| - 1]);
    } else {
      assert s[|s| - 1] == PrintTail(tail)[|PrintTail(tail)| - 1];
    }
  }

  lemma {:induction false} TailEnds(t: Tail)
    requires WellFormedTail(t)
    ensures var s := PrintTail(t);
            s != "" ==> (s[0] == '.' || s[0] == '[') && !IsSpace(s[|s| - 1]) && !EqLead(s[|s| - 1])
    decreases t
  {
    match t
    case End =>
    case Dot(name, rest) => TailEnds(rest);
    case Index(pre, key, post, rest) => TailEnds(rest);
  }

  // ----------------------------------------------- equality scan: calm text

  /** Scanned from depth `d`, no character of `s` starts an equality at depth 0. */
  predicate Calm(s: string, d: int) {
    s == "" ||
    ((d == 0 && EqLead(s[0]) ==> |s| > 1 && s[1] != '=')
     && Calm(s[1..], d + Delta(Either, s[0])))
  }

  lemma {:induction false} AboveCalm(s: string, d: int)
    requires d >= 1 && Above(Either, s, d)
    ensures Calm(s, d)
  {
    if s != "" {
      AboveCalm(s[1..], d + Delta(Either, s[0]));
    }
  }

  lemma {:induction false} CalmConcat(a: string, b: string, d: int)
    requires Calm(a, d) && Calm(b, Depth(Either, a, d))
    ensures Calm(a + b, d)
  {
    if a == "" {
      assert a + b == b;
    } else {
      assert (a + b)[1..] == a[1..] + b;
      CalmConcat(a[1..], b, d + Delta(Either, a[0]));
    }
  }

  lemma {:induction false} CalmPlain(s: string, d: int)
    requires AllPlain(s)
    ensures Calm(s, d)
  {
    if s != "" {
      assert Plain(s[0]);
      CalmPlain(s[1..], d);
    }
  }

  lemma SpacesCalm(w: string)
    requires AllSpace(w)
    ensures AllPlain(w)
  {
  }

  lemma {:induction false} CalmWrap(open: string, s: string, close: string)
    requires Balanced(s)
    requires (open == "(" && close == ")") || (open == "[" && close == "]")
    ensures Calm(open + s + close, 0)
  {
    assert Depth(Either, s, 1) == 1 && Above(Either, s, 1);
    AboveCalm(s, 1);
    assert Calm(close, 1) by { assert close[1..] == ""; }
    CalmConcat(s, close, 1);
    assert open + s + close == open + (s + close);
    assert (open + (s + close))[1..] == s + close;
  }

  /** No operand printed without an outer equality shows one at depth 0. */
  lemma {:induction false} PrintCalm(e: Tree)
    requires WellFormed(e) && !e.Equal?
    ensures Calm(Print(e), 0)
    decreases e
  {
    match e
    case Word(k) => CalmPlain(Print(e), 0);
    case Number(digits) =>
      NumberPlain(digits);
      CalmPlain(digits, 0);
    case Quoted(quote, body) => CalmPlain(Print(e), 0);
    case Path(head, tail) =>
      CalmPlain(head, 0);
      BalancedPlain(head);
      TailCalm(tail);
      assert Depth(Either, head, 0) == 0;
      CalmConcat(head, PrintTail(tail), 0);
    case Not(gap, operand) =>
      PrintCalm(operand);
      PrintEnds(operand);
      SpacesCalm(gap);
      CalmPlain(gap, 0);
      SpacesBalanced(gap);
      assert Depth(Either, gap, 0) == 0;
      CalmConcat(gap, Print(operand), 0);
      assert Print(e)[1..] == gap + Print(operand);
    case Paren(before, inner, after) =>
      PrintBalanced(inner);
      PaddedBalanced(before, Print(inner), after);
      CalmWrap("(", before + Print(inner) + after, ")");
  }

  lemma {:induction false} TailCalm(t: Tail)
    requires WellFormedTail(t)
    ensures Calm(PrintTail(t), 0)
    decreases t
  {
    match t
    case End =>
    case Dot(name, rest) =>
      TailCalm(rest);
      CalmPlain("." + name, 0);
      BalancedPlain("." + name);
      assert Depth(Either, "." + name, 0) == 0;
      CalmConcat("." + name, PrintTail(rest), 0);
    case Index(pre, key, post, rest) =>
      TailCalm(rest);
      PrintBalanced(key);
      var s := pre + Print(key) + post;
      PaddedBalanced(pre, Print(key), post);
      CalmWrap("[", s, "]");
      BalancedWrap("[", s, "]");
      assert Depth(Either, "[" + s + "]", 0) == 0;
      CalmConcat("[" + s + "]", PrintTail(rest), 0);
  }

  /** The equality scan runs through calm text without stopping. */
  lemma {:induction false} FindSkips(expr: string, i: nat, j: nat, d: int)
    requires i <= j <= |expr| && Calm(expr[i..j], d)
    ensures FindFrom(expr, i, d) == FindFrom(expr, j, Depth(Either, expr[i..j], d))
    decreases j - i
  {
    if i < j {
      var s := expr[i..j];
      assert s[0] == expr[i] && s[1..] == expr[i + 1..j];
      if d == 0 && EqLead(expr[i]) {
        assert s[1] == expr[i + 1];
      }
      FindSkips(expr, i + 1, j, d + Delta(Either, expr[i]));
    }
  }

  lemma FindNothing(e: Tree)
    requires WellFormed(e) && !e.Equal?
    ensures FindFrom(Print(e), 0, 0) == NotFound
  {
    var s := Print(e);
    PrintCalm(e);
    assert s[0..|s|] == s;
    FindSkips(s, 0, |s|, 0);
  }

  /** The first operator after calm text is the one found. */
  lemma OperatorAfter(a: string, op: EqOp, b: string)
    requires a != "" && Calm(a, 0) && Depth(Either, a, 0) == 0
    requires !IsSpace(a[0]) && !EqLead(a[|a| - 1])
    requires b != "" && b[0] != '='
    ensures FindFrom(a + OpText(op) + b, 0, 0) == At(|a|, op)
  {
    var expr := a + OpText(op) + b;
    var i := |a|;
    assert expr[0..i] == a;
    FindSkips(expr, 0, i, 0);
    assert expr[..i] == a;
    TrimNonBlank(a, 0);
    assert expr[i - 1] == a[i - 1];
    OpReadBack(expr, i, op);
  }

  lemma OpReadBack(expr: string, i: nat, op: EqOp)
    requires i + |OpText(op)| < |expr| && expr[i..i + |OpText(op)|] == OpText(op)
    requires expr[i + |OpText(op)|] != '='
    ensures EqLead(expr[i]) && expr[i + 1] == '=' && OpAt(expr, i) == op
  {
    var t := expr[i..i + |OpText(op)|];
    assert t[0] == expr[i] && t[1] == expr[i + 1];
    if |t| == 3 {
      assert t[2] == expr[i + 2];
    }
  }

  lemma FindOperator(e: Tree)
    requires WellFormed(e) && e.Equal?
    ensures FindFrom(Print(e), 0, 0) == At(|Print(e.left) + e.gap1|, e.op)
  {
    var Equal(left, gap1, op, gap2, right) := e;
    var l := Print(left);
    PrintEnds(left);
    PrintEnds(right);
    PrintCalm(left);
    PrintBalanced(left);
    SpacesCalm(gap1);
    SpacesBalanced(gap1);
    CalmPlain(gap1, 0);
    assert Depth(Either, l, 0) == 0 && Depth(Either, gap1, 0) == 0;
    CalmConcat(l, gap1, 0);
    DepthConcat(Either, l, gap1, 0);
    OperatorAfter(l + gap1, op, gap2 + Print(right));
  }

  // ------------------------------------------------ parentheses and brackets

  lemma {:induction false} WrapSkips(expr: string, i: nat, j: nat, d: int)
    requires i <= j < |expr| && d >= 1 && Above(Round, expr[i..j], d)
    ensures WrapFrom(expr, i, d) == WrapFrom(expr, j, Depth(Round, expr[i..j], d))
    decreases j - i
  {
    if i < j {
      assert expr[i..j][0] == expr[i] && expr[i..j][1..] == expr[i + 1..j];
      WrapSkips(expr, i + 1, j, d + Delta(Round, expr[i]));
    }
  }

  /** `( s )` wraps the whole; with more text after it, the first paren does not. */
  lemma WrapDecides(s: string, more: string)
    requires Balanced(s)
    ensures WrapFrom("(" + s + ")" + more, 0, 0) == (more == "")
  {
    var expr := "(" + s + ")" + more;
    var j := 1 + |s|;
    assert expr[1..j] == s;
    assert Above(Round, s, 1) && Depth(Round, s, 1) == 1;
    WrapSkips(expr, 1, j, 1);
    assert expr[0] == '(' && expr[j] == ')';
    assert WrapFrom(expr, 0, 0) == WrapFrom(expr, 1, 1);
  }

  lemma {:induction false} CloseSkips(expr: string, i: nat, j: nat, d: nat)
    requires i <= j <= |expr| && d >= 1 && Above(Square, expr[i..j], d)
    requires Depth(Square, expr[i..j], d) >= 1
    ensures CloseFrom(expr, i, d) == CloseFrom(expr, j, Depth(Square, expr[i..j], d))
    decreases j - i
  {
    if i < j {
      assert expr[i..j][0] == expr[i] && expr[i..j][1..] == expr[i + 1..j];
      CloseSkips(expr, i + 1, j, d + Delta(Square, expr[i]));
    }
  }

  lemma CloseFinds(expr: string, i: nat, s: string)
    requires Balanced(s)
    requires i + |s| < |expr| && expr[i..i + |s|] == s && expr[i + |s|] == ']'
    ensures CloseFrom(expr, i, 1) == Some(i + |s|)
  {
    assert Above(Square, s, 1) && Depth(Square, s, 1) == 1;
    CloseSkips(expr, i, i + |s|, 1);
  }

  // --------------------------------------------------------------- names

  lemma {:induction false} IdentRunStops(a: string, b: string)
    requires forall i :: 0 <= i < |a| ==> IsIdentChar(a[i])
    requires b != "" ==> !IsIdentChar(b[0])
    ensures IdentRun(a + b) == |a|
  {
    if a == "" {
      assert a + b == b;
    } else {
      assert (a + b)[1..] == a[1..] + b;
      IdentRunStops(a[1..], b);
    }
  }

  lemma {:induction false} DigitRunStops(a: string, b: string)
    requires AllDigits(a)
    requires b != "" ==> !IsDigit(b[0])
    ensures DigitRun(a + b) == |a|
  {
    if a == "" {
      assert a + b == b;
    } else {
      assert (a + b)[1..] == a[1..] + b;
      DigitRunStops(a[1..], b);
    }
  }

  lemma NameStops(name: string, b: string)
    requires name != "" && (IsIdent(name) || AllDigits(name))
    requires b != "" ==> b[0] == '.' || b[0] == '['
    ensures NameLen(name + b) == |name|
    ensures IsIdent(name) ==> IdentLen(name + b) == |name|
  {
    assert (name + b)[0] == name[0];
    if IsIdent(name) {
      IdentRunStops(name, b);
    } else {
      assert IsDigit(name[0]);
      DigitRunStops(name, b);
    }
  }

  // --------------------------------------------------------- main theorems

  lemma DotSplit(expr: string, i: nat, name: string, rest: string)
    requires i <= |expr| && expr[i..] == "." + name + rest
    requires name != "" && (IsIdent(name) || AllDigits(name))
    requires rest != "" ==> rest[0] == '.' || rest[0] == '['
    ensures i < |expr| && AccessAt(expr, i) == Name(name, i + 1 + |name|)
    ensures expr[i + 1 + |name|..] == rest
  {
    NameStops(name, rest);
    assert expr[i] == expr[i..][0];
    assert expr[i + 1..] == expr[i..][1..] == name + rest;
    assert expr[i + 1..i + 1 + |name|] == expr[i + 1..][..|name|] == name;
    assert expr[i + 1 + |name|..] == expr[i + 1..][|name|..];
  }

  lemma IndexSplit(expr: string, i: nat, s: string, rest: string)
    requires i <= |expr| && expr[i..] == "[" + s + "]" + rest
    requires Balanced(s)
    ensures i < |expr| && AccessAt(expr, i) == Key(s, i + 2 + |s|)
    ensures expr[i + 2 + |s|..] == rest
  {
    var j := i + 1 + |s|;
    assert expr[i] == expr[i..][0];
    assert expr[i + 1..] == expr[i..][1..] == s + "]" + rest;
    assert expr[i + 1..j] == expr[i + 1..][..|s|] == s;
    assert expr[j] == expr[i + 1..][|s|];
    assert expr[j + 1..] == expr[i + 1..][|s| + 1..];
    CloseFinds(expr, i + 1, s);
  }

  lemma StepName(js: Js, vals: Value, cur: Value, expr: string, i: nat, name: string, next: nat, v: Value)
    requires i < |expr| && AccessAt(expr, i) == Name(name, next)
    requires ResolveSteps(js, vals, js.Member(cur, js.text(name)), expr, next) == v
    ensures ResolveSteps(js, vals, cur, expr, i) == v
  {
  }

  lemma StepKey(js: Js, vals: Value, cur: Value, expr: string, i: nat, src: string, next: nat, k: Value, v: Value)
    requires i < |expr| && AccessAt(expr, i) == Key(src, next)
    requires Resolve(js, vals, src) == k
    requires ResolveSteps(js, vals, js.Member(cur, k), expr, next) == v
    ensures ResolveSteps(js, vals, cur, expr, i) == v
  {
  }

  /** A turn of the path loop over a bracketed key. */
  lemma StepBracket(
    js: Js, vals: Value, cur: Value, expr: string, i: nat, j: nat, s: string, rest: string, k: Value, v: Value)
    requires i <= |expr| && expr[i..] == "[" + s + "]" + rest && Balanced(s) && j == i + 2 + |s|
    requires Resolve(js, vals, s) == k
    requires ResolveSteps(js, vals, js.Member(cur, k), expr, j) == v
    ensures ResolveSteps(js, vals, cur, expr, i) == v
  {
    IndexSplit(expr, i, s, rest);
    StepKey(js, vals, cur, expr, i, s, j, k, v);
  }

  lemma BracketTail(expr: string, i: nat, s: string, rest: string)
    requires i <= |expr| && expr[i..] == "[" + s + "]" + rest
    ensures i + 2 + |s| <= |expr| && expr[i + 2 + |s|..] == rest
  {
    assert expr[i + 2 + |s|..] == expr[i..][2 + |s|..];
  }

  /** The path loop, entered where the printed tail starts. */
  lemma {:induction false} StepsTail(js: Js, vals: Value, cur: Value, expr: string, i: nat, t: Tail)
    requires WellFormedTail(t)
    requires i <= |expr| && expr[i..] == PrintTail(t)
    ensures ResolveSteps(js, vals, cur, expr, i) == EvalTail(js, vals, cur, t)
    decreases t, 1
  {
    match t
    case End => assert i == |expr|;
    case Dot(_, _) => StepsDot(js, vals, cur, expr, i, t);
    case Index(pre, key, post, rest) =>
      var text := pre + Print(key) + post;
      var next := js.Member(cur, Eval(js, vals, key));
      var j := i + 2 + |text|;
      KeyBalanced(pre, key, post);
      ResolvePrinted(js, vals, pre, key, post);
      StepsRest(js, vals, next, expr, i, j, text, rest);
      StepBracket(js, vals, cur, expr, i, j, text, PrintTail(rest),
                  Eval(js, vals, key), EvalTail(js, vals, next, rest));
  }

  lemma {:induction false} StepsDot(js: Js, vals: Value, cur: Value, expr: string, i: nat, t: Tail)
    requires WellFormedTail(t) && t.Dot?
    requires i <= |expr| && expr[i..] == PrintTail(t)
    ensures ResolveSteps(js, vals, cur, expr, i) == EvalTail(js, vals, cur, t)
    decreases t, 0
  {
    var Dot(name, rest) := t;
    var next := i + 1 + |name|;
    var value := js.Member(cur, js.text(name));
    TailEnds(rest);
    DotSplit(expr, i, name, PrintTail(rest));
    StepsTail(js, vals, value, expr, next, rest);
    StepName(js, vals, cur, expr, i, name, next, EvalTail(js, vals, value, rest));
  }

  lemma KeyBalanced(pre: string, key: Tree, post: string)
    requires WellFormed(key) && AllSpace(pre) && AllSpace(post)
    ensures Balanced(pre + Print(key) + post)
  {
    PrintBalanced(key);
    PaddedBalanced(pre, Print(key), post);
  }

  /** The loop after the bracket, at `j`. */
  lemma {:induction false} StepsRest(
    js: Js, vals: Value, cur: Value, expr: string, i: nat, j: nat, s: string, rest: Tail)
    requires WellFormedTail(rest)
    requires i <= |expr| && expr[i..] == "[" + s + "]" + PrintTail(rest) && j == i + 2 + |s|
    ensures j <= |expr| && ResolveSteps(js, vals, cur, expr, j) == EvalTail(js, vals, cur, rest)
    decreases rest, 2
  {
    BracketTail(expr, i, s, PrintTail(rest));
    StepsTail(js, vals, cur, expr, j, rest);
  }

  lemma {:induction false} AtomPrinted(js: Js, vals: Value, e: Tree)
    requires WellFormed(e) && (e.Word? || e.Number? || e.Quoted? || e.Path?)
    ensures ResolveAtom(js, vals, Print(e)) == Eval(js, vals, e)
    decreases e, 0
  {
    PrintEnds(e);
    var s := Print(e);
    match e
    case Word(k) =>
    case Number(digits) =>
      NumberPlain(digits);
    case Quoted(quote, body) =>
      assert !IsNumber(s);
      assert s[1..|s| - 1] == body;
    case Path(head, tail) =>
      assert !IsNumber(s) && !IsQuoted(s);
      PathNotKeyword(head, tail);
      TailEnds(tail);
      NameStops(head, PrintTail(tail));
      assert s[..|head|] == head && s[|head|..] == PrintTail(tail);
      StepsTail(js, vals, js.Member(vals, js.text(head)), s, |head|, tail);
  }

  lemma PathNotKeyword(head: string, tail: Tail)
    requires WellFormed(Path(head, tail))
    ensures !IsKeyword(Print(Path(head, tail)))
  {
    TailEnds(tail);
    if tail == End {
      assert head + "" == head;
    } else {
      MarkNotKeyword(head + PrintTail(tail), |head|);
    }
  }

  lemma MarkNotKeyword(s: string, k: nat)
    requires k < |s| && (s[k] == '.' || s[k] == '[')
    ensures !IsKeyword(s)
  {
    if |s| == 4 {
      assert k == 0 || k == 1 || k == 2 || k == 3;
    } else if |s| == 5 {
      assert k == 0 || k == 1 || k == 2 || k == 3 || k == 4;
    } else if |s| == 9 {
      assert k == 0 || k == 1 || k == 2 || k == 3 || k == 4 || k == 5 || k == 6 || k == 7 || k == 8;
    }
  }

  /**
   Evaluating the printed form of a tree, between any blanks, gives the tree's
   meaning.
   */
  lemma {:induction false} ResolvePrinted(js: Js, vals: Value, before: string, e: Tree, after: string)
    requires WellFormed(e) && AllSpace(before) && AllSpace(after)
    ensures Resolve(js, vals, before + Print(e) + after) == Eval(js, vals, e)
    decreases e, 1
  {
    var s := Print(e);
    PrintEnds(e);
    TrimPad(before, s, after);
    match e
    case Paren(_, _, _) => ParenPrinted(js, vals, e);
    case Equal(_, _, _, _, _) => EqualPrinted(js, vals, e);
    case Not(gap, operand) =>
      FindNothing(e);
      ResolvePrinted(js, vals, gap, operand, "");
      assert s[1..] == gap + Print(operand) + "";
    case _ =>
      FindNothing(e);
      AtomPrinted(js, vals, e);
  }

  lemma {:induction false} ParenPrinted(js: Js, vals: Value, e: Tree)
    requires WellFormed(e) && e.Paren?
    ensures ResolveTrimmed(js, vals, Print(e)) == Eval(js, vals, e)
    decreases e, 0
  {
    var s := Print(e);
    var inside := e.before + Print(e.inner) + e.after;
    PrintBalanced(e.inner);
    PaddedBalanced(e.before, Print(e.inner), e.after);
    WrapDecides(inside, "");
    assert "(" + inside + ")" + "" == s;
    assert s[1..|s| - 1] == inside;
    ResolvePrinted(js, vals, e.before, e.inner, e.after);
  }

  /** The outer parenthesis test fails on a printed equality. */
  lemma EqualNotWrapped(e: Tree)
    requires WellFormed(e) && e.Equal?
    ensures Print(e)[0] == '(' ==> !WrapFrom(Print(e), 0, 0)
  {
    var left := e.left;
    var p := Print(left);
    PrintEnds(left);
    var more := e.gap1 + OpText(e.op) + (e.gap2 + Print(e.right));
    Assoc(p, e.gap1, OpText(e.op), e.gap2 + Print(e.right));
    assert Print(e)[0] == p[0];
    if p[0] == '(' {
      var inside := left.before + Print(left.inner) + left.after;
      PrintBalanced(left.inner);
      PaddedBalanced(left.before, Print(left.inner), left.after);
      WrapDecides(inside, more);
      assert more[|e.gap1|] == OpText(e.op)[0];
    }
  }

  lemma {:induction false} EqualPrinted(js: Js, vals: Value, e: Tree)
    requires WellFormed(e) && e.Equal?
    ensures ResolveTrimmed(js, vals, Print(e)) == Eval(js, vals, e)
    decreases e, 0
  {
    var Equal(left, gap1, op, gap2, right) := e;
    var s := Print(e);
    PrintEnds(e);
    EqualNotWrapped(e);
    FindOperator(e);
    var i := |Print(left) + gap1|;
    assert s[..i] == "" + Print(left) + gap1;
    assert s[i + |OpText(op)|..] == gap2 + Print(right) + "";
    ResolvePrinted(js, vals, "", left, gap1);
    ResolvePrinted(js, vals, gap2, right, "");
  }

  // ------------------------------------------- what each construct evaluates to

  lemma OperandPrinted(js: Js, vals: Value, e: Tree)
    requires WellFormed(e)
    ensures Resolve(js, vals, Print(e)) == Eval(js, vals, e)
  {
    ResolvePrinted(js, vals, "", e, "");
    assert "" + Print(e) + "" == Print(e);
  }

  lemma OneComparison(js: Js, vals: Value, before: string, e: Tree, after: string, text: string)
    requires WellFormed(e) && e.Equal? && AllSpace(before) && AllSpace(after)
    requires text == before + Print(e.left) + e.gap1 + OpText(e.op) + (e.gap2 + Print(e.right) + after)
    ensures Resolve(js, vals, text) == Compare(js, e.op, Eval(js, vals, e.left), Eval(js, vals, e.right))
  {
    Regroup(before, Print(e.left), e.gap1, OpText(e.op), e.gap2, Print(e.right), after);
    ResolvePrinted(js, vals, before, e, after);
  }

  function OpOf(op: string): EqOp {
    if op == "===" then StrictEq else if op == "!==" then StrictNe else if op == "==" then LooseEq else LooseNe
  }

  /** The four comparisons, over what their operands evaluate to. */
  lemma ComparisonPrinted(js: Js, vals: Value, before: string, left: Tree, gap1: string, op: string,
                          gap2: string, right: Tree, after: string, text: string)
    requires WellFormed(left) && !left.Equal? && WellFormed(right)
    requires AllSpace(before) && AllSpace(gap1) && AllSpace(gap2) && AllSpace(after)
    requires op == "===" || op == "!==" || op == "==" || op == "!="
    requires text == before + Print(left) + gap1 + op + (gap2 + Print(right) + after)
    ensures var l, r := Resolve(js, vals, Print(left)), Resolve(js, vals, Print(right));
            Resolve(js, vals, text) ==
              if op == "===" then js.truth(js.strictEq(l, r))
              else if op == "!==" then js.truth(!js.strictEq(l, r))
              else if op == "==" then js.truth(js.looseEq(l, r))
              else js.truth(!js.looseEq(l, r))
  {
    OneComparison(js, vals, before, Equal(left, gap1, OpOf(op), gap2, right), after, text);
    OperandPrinted(js, vals, left);
    OperandPrinted(js, vals, right);
  }

  lemma Regroup(a: string, b: string, c: string, d: string, e: string, f: string, g: string)
    ensures a + (b + c + d + (e + f)) + g == a + b + c + d + (e + f + g)
  {
  }

  /** A negation gives the opposite truth value. */
  lemma NegationPrinted(js: Js, vals: Value, gap: string, e: Tree)
    requires WellFormed(e) && !e.Equal? && AllSpace(gap)
    ensures Resolve(js, vals, "!" + (gap + Print(e))) == js.truth(!js.truthy(Resolve(js, vals, Print(e))))
  {
    OperandPrinted(js, vals, e);
    OperandPrinted(js, vals, Not(gap, e));
  }

  /** `t` with `more` at its end. */
  function Append(t: Tail, more: Tail): Tail {
    match t
    case End => more
    case Dot(name, rest) => Dot(name, Append(rest, more))
    case Index(pre, key, post, rest) => Index(pre, key, post, Append(rest, more))
  }

  lemma {:induction false} AppendPrinted(js: Js, vals: Value, cur: Value, t: Tail, more: Tail)
    ensures PrintTail(Append(t, more)) == PrintTail(t) + PrintTail(more)
    ensures EvalTail(js, vals, cur, Append(t, more)) == EvalTail(js, vals, EvalTail(js, vals, cur, t), more)
    ensures WellFormedTail(t) && WellFormedTail(more) ==> WellFormedTail(Append(t, more))
    decreases t
  {
    match t
    case End => assert "" + PrintTail(more) == PrintTail(more);
    case Dot(name, rest) =>
      AppendPrinted(js, vals, js.Member(cur, js.text(name)), rest, more);
      assert "." + name + (PrintTail(rest) + PrintTail(more)) == "." + name + PrintTail(rest) + PrintTail(more);
    case Index(pre, key, post, rest) =>
      AppendPrinted(js, vals, js.Member(cur, Eval(js, vals, key)), rest, more);
      var text := "[" + (pre + Print(key) + post) + "]";
      assert text + (PrintTail(rest) + PrintTail(more)) == text + PrintTail(rest) + PrintTail(more);
  }

  /** A member of a value: undefined of null and of undefined, and otherwise what the host gives. */
  ghost predicate IsMember(js: Js, v: Value, base: Value, key: Value) {
    v == if js.nullish(base) then js.undef else js.get(base, key)
  }

  lemma AppendedPath(js: Js, vals: Value, head: string, t: Tail, more: Tail)
    requires WellFormed(Path(head, t)) && WellFormedTail(more) && !IsKeyword(head)
    ensures var longer := Path(head, Append(t, more));
            && WellFormed(longer) && Print(longer) == Print(Path(head, t)) + PrintTail(more)
            && Eval(js, vals, longer) == EvalTail(js, vals, Eval(js, vals, Path(head, t)), more)
  {
    AppendPrinted(js, vals, js.Member(vals, js.text(head)), t, more);
    assert head + (PrintTail(t) + PrintTail(more)) == head + PrintTail(t) + PrintTail(more);
  }

  lemma EvaluatedPrint(js: Js, vals: Value, e: Tree, text: string, v: Value)
    requires WellFormed(e) && text == Print(e) && Eval(js, vals, e) == v
    ensures Resolve(js, vals, text) == v
  {
    OperandPrinted(js, vals, e);
  }

  lemma ExtendedPath(js: Js, vals: Value, head: string, t: Tail, more: Tail, text: string)
    requires WellFormed(Path(head, t)) && WellFormedTail(more) && !IsKeyword(head)
    requires text == Print(Path(head, t)) + PrintTail(more)
    ensures Resolve(js, vals, text) == EvalTail(js, vals, Eval(js, vals, Path(head, t)), more)
  {
    AppendedPath(js, vals, head, t, more);
    EvaluatedPrint(js, vals, Path(head, Append(t, more)), text,
                   EvalTail(js, vals, Eval(js, vals, Path(head, t)), more));
  }

  /** A name is looked up among the values. */
  lemma NamePrinted(js: Js, vals: Value, name: string)
    requires IsIdent(name) && !IsKeyword(name)
    ensures IsMember(js, Resolve(js, vals, name), vals, js.text(name))
  {
    assert name + "" == name;
    OperandPrinted(js, vals, Path(name, End));
  }

  /** A name after a dot is looked up in what is before it. */
  lemma DotPrinted(js: Js, vals: Value, head: string, t: Tail, name: string, text: string)
    requires WellFormed(Path(head, t)) && !IsKeyword(head)
    requires name != "" && (IsIdent(name) || AllDigits(name))
    requires text == Print(Path(head, t)) + ("." + name)
    ensures IsMember(js, Resolve(js, vals, text), Resolve(js, vals, Print(Path(head, t))), js.text(name))
  {
    assert "." + name + "" == "." + name;
    ExtendedPath(js, vals, head, t, Dot(name, End), text);
    OperandPrinted(js, vals, Path(head, t));
  }

  lemma BracketPrinted(js: Js, vals: Value, head: string, t: Tail, pre: string, key: Tree, post: string, text: string)
    requires WellFormed(Path(head, t)) && !IsKeyword(head)
    requires WellFormed(key) && AllSpace(pre) && AllSpace(post)
    requires text == Print(Path(head, t)) + ("[" + (pre + Print(key) + post) + "]")
    ensures IsMember(js, Resolve(js, vals, text), Eval(js, vals, Path(head, t)), Eval(js, vals, key))
  {
    var bracket := "[" + (pre + Print(key) + post) + "]";
    assert bracket + "" == bracket;
    ExtendedPath(js, vals, head, t, Index(pre, key, post, End), text);
  }

  /** What is in brackets is evaluated, and looked up in what is before them. */
  lemma KeyPrinted(js: Js, vals: Value, head: string, t: Tail, pre: string, key: Tree, post: string, text: string)
    requires WellFormed(Path(head, t)) && !IsKeyword(head)
    requires WellFormed(key) && AllSpace(pre) && AllSpace(post)
    requires text == Print(Path(head, t)) + ("[" + (pre + Print(key) + post) + "]")
    ensures IsMember(js, Resolve(js, vals, text), Resolve(js, vals, Print(Path(head, t))),
                     Resolve(js, vals, Print(key)))
  {
    BracketPrinted(js, vals, head, t, pre, key, post, text);
    OperandPrinted(js, vals, Path(head, t));
    OperandPrinted(js, vals, key);
  }

  lemma {:induction false} DigitRunAll(digits: string, rest: string)
    requires AllDigits(digits) && (rest != "" ==> !IsDigit(rest[0]))
    ensures DigitRun(digits + rest) == |digits|
  {
    if digits == "" {
      assert digits + rest == rest;
    } else {
      DigitRunAll(digits[1..], rest);
      assert (digits + rest)[1..] == digits[1..] + rest;
    }
  }

  lemma NumeralsAreNumbers(w: string, f: string)
    requires w != "" && AllDigits(w) && f != "" && AllDigits(f)
    ensures IsNumber(w) && IsNumber("-" + w) && IsNumber(w + "." + f) && IsNumber("-" + (w + "." + f))
  {
    DigitRunAll(w, "");
    assert w + "" == w && ("-" + w)[1..] == w;
    var body := w + "." + f;
    DigitRunAll(w, "." + f);
    assert body == w + ("." + f) && body[|w| + 1..] == f && ("-" + body)[1..] == body;
  }

  /** The four words. */
  lemma WordsPrinted(js: Js, vals: Value, s: string)
    requires s == "true" || s == "false" || s == "null" || s == "undefined"
    ensures Resolve(js, vals, s) ==
            if s == "true" then js.truth(true)
            else if s == "false" then js.truth(false)
            else if s == "null" then js.nul else js.undef
  {
    var k := if s == "true" then True else if s == "false" then False else if s == "null" then Null else Undefined;
    OperandPrinted(js, vals, Word(k));
  }

  /** Numerals of any length and sign, with or without decimals. */
  lemma NumeralsPrinted(js: Js, vals: Value, w: string, f: string, s: string)
    requires w != "" && AllDigits(w) && f != "" && AllDigits(f)
    requires s == w || s == "-" + w || s == w + "." + f || s == "-" + (w + "." + f)
    ensures Resolve(js, vals, s) == js.number(s)
  {
    NumeralsAreNumbers(w, f);
    OperandPrinted(js, vals, Number(s));
  }

  /** Texts without brackets and operator characters, in either quote. */
  lemma TextsPrinted(js: Js, vals: Value, quote: char, body: string, s: string)
    requires quote == '"' || quote == '\''
    requires forall i :: 0 <= i < |body| ==> body[i] !in "=!()[]"
    requires s == [quote] + body + [quote]
    ensures Resolve(js, vals, s) == js.text(body)
  {
    assert AllPlain(body);
    OperandPrinted(js, vals, Quoted(quote, body));
  }

  /** Which texts are names: letters, digits, `_` and `$`, not beginning with a digit. */
  lemma NamesExactly(s: string)
    ensures IsIdent(s) <==>
            && s != "" && !('0' <= s[0] <= '9')
            && forall i :: 0 <= i < |s| ==>
                 'a' <= s[i] <= 'z' || 'A' <= s[i] <= 'Z' || '0' <= s[i] <= '9' || s[i] == '_' || s[i] == '$'
  {
  }

  /**
   Beyond the grammar: a quoted literal reads back as its own text exactly when
   the equality scan finds no operator in it, for any text between the quotes.
   */
  lemma QuotedExactly(js: Js, vals: Value, quote: char, body: string)
    requires quote == '"' || quote == '\''
    requires forall t, b :: js.text(t) != js.truth(b)
    ensures var s := [quote] + body + [quote];
            Resolve(js, vals, s) == js.text(body) <==> FindFrom(s, 0, 0) == NotFound
  {
    var s := [quote] + body + [quote];
    TrimIdentity(s);
    assert s[1..|s| - 1] == body;
    match FindFrom(s, 0, 0)
    case NotFound => QuotedUnsplit(js, vals, s);
    case At(_, _) => SplitIsTruth(js, vals, s);
  }

  lemma SplitIsTruth(js: Js, vals: Value, s: string)
    requires s != "" && s[0] != '(' && FindFrom(s, 0, 0).At?
    ensures exists t :: ResolveTrimmed(js, vals, s) == js.truth(t)
  {
    var At(index, op) := FindFrom(s, 0, 0);
    SplitAtOperator(js, vals, s, index, op);
  }

  lemma QuotedUnsplit(js: Js, vals: Value, s: string)
    requires IsQuoted(s) && FindFrom(s, 0, 0) == NotFound
    ensures ResolveTrimmed(js, vals, s) == js.text(s[1..|s| - 1])
  {
    assert !IsNumber(s) && !IsKeyword(s);
    assert ResolveTrimmed(js, vals, s) == ResolveAtom(js, vals, s);
  }

  /** The literal `'a==b'` is read as a comparison, not as a text. */
  lemma QuotedOperatorIsSplit(js: Js, vals: Value, s: string)
    requires s == "'a" + "==" + "b'"
    ensures Resolve(js, vals, s) == js.truth(js.looseEq(js.undef, js.undef))
  {
    QuotedOperatorFound();
    TrimIdentity(s);
    LoneQuote(js, vals, s[..2]);
    TrailingQuote(js, vals, s[4..]);
    SplitAtOperator(js, vals, s, 2, LooseEq);
  }

  lemma QuotedOperatorFound()
    ensures FindFrom("'a" + "==" + "b'", 0, 0) == At(2, LooseEq)
  {
    CalmPlain("'a", 0);
    BalancedPlain("'a");
    OperatorAfter("'a", LooseEq, "b'");
  }

  lemma SplitAtOperator(js: Js, vals: Value, s: string, i: nat, op: EqOp)
    requires s != "" && s[0] != '(' && FindFrom(s, 0, 0) == At(i, op)
    ensures ResolveTrimmed(js, vals, s)
         == js.truth(Holds(js, op, Resolve(js, vals, s[..i]), Resolve(js, vals, s[i + |OpText(op)|..])))
  {
  }

  lemma LoneQuote(js: Js, vals: Value, s: string)
    requires s == "'a"
    ensures Resolve(js, vals, s) == js.undef
  {
    TrimIdentity(s);
    CalmScan(s);
    assert !IsNumber(s) && !IsQuoted(s) && !IsKeyword(s) && IdentLen(s) == 0;
    assert ResolveTrimmed(js, vals, s) == ResolveAtom(js, vals, s);
  }

  lemma CalmScan(s: string)
    requires |s| == 2 && AllPlain(s)
    ensures FindFrom(s, 0, 0) == NotFound
  {
    assert FindFrom(s, 2, 0) == NotFound;
    assert FindFrom(s, 1, 0) == FindFrom(s, 2, 0);
    assert FindFrom(s, 0, 0) == FindFrom(s, 1, 0);
  }

  lemma TrailingQuote(js: Js, vals: Value, s: string)
    requires s == "b'"
    ensures Resolve(js, vals, s) == js.undef
  {
    TrimIdentity(s);
    CalmScan(s);
    IdentRunStops("b", "'");
    assert "b" + "'" == s;
    assert !IsNumber(s) && !IsQuoted(s) && !IsKeyword(s) && IdentLen(s) == 1;
    assert ResolveTrimmed(js, vals, s) == ResolveAtom(js, vals, s);
    assert AccessAt(s, 1) == Malformed;
    assert ResolvePath(js, vals, s) == ResolveSteps(js, vals, js.Member(vals, js.text(s[..1])), s, 1) == js.undef;
  }
}
