/**
 The template expression evaluator of design-reference/support.js: a scanner
 over the raw string, proved against a direct evaluation of a syntax tree.

 The operators of JavaScript itself (property access, both equalities, truth
 value, numeric conversion) are fields of `Js`: every theorem holds for every
 interpretation of them.
 */
module Expr {
  import opened Text

  /** A JavaScript value. */
  type Value(!new)

  datatype Js = Js(
    undef: Value,
    nul: Value,
    truth: bool -> Value,
    number: string -> Value,
    text: string -> Value,
    truthy: Value -> bool,
    nullish: Value -> bool,
    strictEq: (Value, Value) -> bool,
    looseEq: (Value, Value) -> bool,
    get: (Value, Value) -> Value)
  {
    /** `cur == null ? void 0 : cur[key]` */
    function Member(cur: Value, key: Value): Value {
      if nullish(cur) then undef else get(cur, key)
    }
  }

  datatype EqOp = StrictEq | StrictNe | LooseEq | LooseNe

  function OpText(op: EqOp): string {
    match op
    case StrictEq => "==="
    case StrictNe => "!=="
    case LooseEq => "=="
    case LooseNe => "!="
  }

  predicate Holds(js: Js, op: EqOp, a: Value, b: Value) {
    match op
    case StrictEq => js.strictEq(a, b)
    case StrictNe => !js.strictEq(a, b)
    case LooseEq => js.looseEq(a, b)
    case LooseNe => !js.looseEq(a, b)
  }

  function Compare(js: Js, op: EqOp, a: Value, b: Value): Value {
    js.truth(Holds(js, op, a, b))
  }

  // ------------------------------------------------------ lexical predicates

  predicate IsIdentStart(c: char) {
    'A' <= c <= 'Z' || 'a' <= c <= 'z' || c == '_' || c == '$'
  }

  predicate IsIdentChar(c: char) {
    IsIdentStart(c) || IsDigit(c)
  }

  /** Length of the longest prefix of identifier characters. */
  function IdentRun(s: string): (n: nat)
    ensures n <= |s|
  {
    if s != "" && IsIdentChar(s[0]) then 1 + IdentRun(s[1..]) else 0
  }

  /** Length of the longest prefix of digits. */
  function DigitRun(s: string): (n: nat)
    ensures n <= |s|
  {
    if s != "" && IsDigit(s[0]) then 1 + DigitRun(s[1..]) else 0
  }

  /** Length of the match of `IDENT_RE`, 0 when there is none. */
  function IdentLen(s: string): (n: nat)
    ensures n <= |s|
  {
    if s != "" && IsIdentStart(s[0]) then IdentRun(s) else 0
  }

  /** Length of the name after a dot: an identifier, or else digits; 0 for none. */
  function NameLen(s: string): (n: nat)
    ensures n <= |s|
  {
    if IdentLen(s) > 0 then IdentLen(s) else DigitRun(s)
  }

  /** `NUMBER_RE`: an optional minus, digits, and an optional dot with digits. */
  predicate IsNumber(s: string) {
    var body := if s != "" && s[0] == '-' then s[1..] else s;
    var n := DigitRun(body);
    n > 0 && (n == |body| ||
              (body[n] == '.' && n + 1 < |body| && AllDigits(body[n + 1..])))
  }

  predicate IsQuoted(s: string) {
    |s| >= 2 && (s[0] == '"' || s[0] == '\'') && s[|s| - 1] == s[0]
  }

  // -------------------------------------------------------------- scanners

  datatype Found = NotFound | At(index: nat, op: EqOp)

  predicate EqLead(c: char) {
    c == '=' || c == '!'
  }

  /** The operator that starts at `i`, where `expr[i + 1]` is known to be `=`. */
  function OpAt(expr: string, i: nat): (op: EqOp)
    requires i + 1 < |expr| && EqLead(expr[i]) && expr[i + 1] == '='
    ensures i + |OpText(op)| <= |expr|
  {
    var three := i + 2 < |expr| && expr[i + 2] == '=';
    if expr[i] == '=' then (if three then StrictEq else LooseEq)
    else (if three then StrictNe else LooseNe)
  }

  predicate Opens(kind: Kind, c: char) {
    match kind
    case Round => c == '('
    case Square => c == '['
    case Either => c == '(' || c == '['
  }

  predicate Closes(kind: Kind, c: char) {
    match kind
    case Round => c == ')'
    case Square => c == ']'
    case Either => c == ')' || c == ']'
  }

  datatype Kind = Round | Square | Either

  /** The scan of `findTopLevelEquality` from position `i` at nesting `depth`. */
  function FindFrom(expr: string, i: nat, depth: int): (f: Found)
    ensures f.At? ==> i <= f.index && 0 < f.index && f.index + |OpText(f.op)| <= |expr|
    decreases |expr| - i
  {
    if i >= |expr| then NotFound
    else if Opens(Either, expr[i]) then FindFrom(expr, i + 1, depth + 1)
    else if Closes(Either, expr[i]) then FindFrom(expr, i + 1, depth - 1)
    else if depth == 0 && EqLead(expr[i]) && i + 1 < |expr| && expr[i + 1] == '=' then
      if i > 0 && EqLead(expr[i - 1]) then FindFrom(expr, i + 1, depth)
      else if Trim(expr[..i]) == "" then FindFrom(expr, i + 1, depth)
      else At(i, OpAt(expr, i))
    else FindFrom(expr, i + 1, depth)
  }

  /** The scan of `parensWrapWhole` from position `i` at nesting `depth`. */
  predicate WrapFrom(expr: string, i: nat, depth: int)
    decreases |expr| - i
  {
    if i + 1 >= |expr| then true
    else if expr[i] == '(' then WrapFrom(expr, i + 1, depth + 1)
    else if expr[i] == ')' then depth - 1 != 0 && WrapFrom(expr, i + 1, depth - 1)
    else WrapFrom(expr, i + 1, depth)
  }

  /** Where the bracket that is open at nesting `depth` closes, scanning from `j`. */
  function CloseFrom(expr: string, j: nat, depth: nat): (r: Option<nat>)
    requires depth > 0
    ensures r.Some? ==> j <= r.value < |expr|
    decreases |expr| - j
  {
    if j >= |expr| then None
    else if expr[j] == '[' then CloseFrom(expr, j + 1, depth + 1)
    else if expr[j] == ']' then (if depth == 1 then Some(j) else CloseFrom(expr, j + 1, depth - 1))
    else CloseFrom(expr, j + 1, depth)
  }

  // ------------------------------------------------------------- evaluator

  /** `resolve`; it ends on every string, as each call is on a shorter one. */
  function Resolve(js: Js, vals: Value, src: string): Value
    decreases |src|, 3, 0
  {
    ResolveTrimmed(js, vals, Trim(src))
  }

  function ResolveTrimmed(js: Js, vals: Value, expr: string): Value
    decreases |expr|, 2, 0
  {
    if expr == "" then js.undef
    else if expr[0] == '(' && expr[|expr| - 1] == ')' && WrapFrom(expr, 0, 0) then
      Resolve(js, vals, expr[1..|expr| - 1])
    else
      match FindFrom(expr, 0, 0)
      case At(index, op) =>
        var l := Resolve(js, vals, expr[..index]);
        var r := Resolve(js, vals, expr[index + |OpText(op)|..]);
        Compare(js, op, l, r)
      case NotFound =>
        if expr[0] == '!' then js.truth(!js.truthy(Resolve(js, vals, expr[1..])))
        else ResolveAtom(js, vals, expr)
  }

  function ResolveAtom(js: Js, vals: Value, expr: string): Value
    requires expr != ""
    decreases |expr|, 1, 1
  {
    if expr == "true" then js.truth(true)
    else if expr == "false" then js.truth(false)
    else if expr == "null" then js.nul
    else if expr == "undefined" then js.undef
    else if IsNumber(expr) then js.number(expr)
    else if IsQuoted(expr) then js.text(expr[1..|expr| - 1])
    else ResolvePath(js, vals, expr)
  }

  function ResolvePath(js: Js, vals: Value, expr: string): Value
    decreases |expr|, 1, 0
  {
    var n := IdentLen(expr);
    if n == 0 then js.undef
    else ResolveSteps(js, vals, js.Member(vals, js.text(expr[..n])), expr, n)
  }

  /** One access of a path: a name, or the source text of a bracketed key. */
  datatype Access =
    | Malformed
    | Name(name: string, next: nat)
    | Key(src: string, next: nat)

  /** The access that starts at position `i`. */
  function AccessAt(expr: string, i: nat): (a: Access)
    requires i < |expr|
    ensures !a.Malformed? ==> i < a.next <= |expr|
    ensures a.Key? ==> |a.src| < |expr|
  {
    if expr[i] == '.' then
      var n := NameLen(expr[i + 1..]);
      if n == 0 then Malformed else Name(expr[i + 1..i + 1 + n], i + 1 + n)
    else if expr[i] == '[' then
      match CloseFrom(expr, i + 1, 1)
      case None => Malformed
      case Some(j) => Key(expr[i + 1..j], j + 1)
    else Malformed
  }

  /** The loop of `resolvePath`, entered at position `i` with value `cur`. */
  function ResolveSteps(js: Js, vals: Value, cur: Value, expr: string, i: nat): Value
    requires i <= |expr|
    decreases |expr|, 0, |expr| - i
  {
    if i == |expr| then cur
    else
      match AccessAt(expr, i)
      case Malformed => js.undef
      case Name(name, next) => ResolveSteps(js, vals, js.Member(cur, js.text(name)), expr, next)
      case Key(src, next) =>
        ResolveSteps(js, vals, js.Member(cur, Resolve(js, vals, src)), expr, next)
  }

  // --------------------------------------------------- the loops themselves

  method ParensWrapWhole(expr: string) returns (whole: bool)
    ensures whole == WrapFrom(expr, 0, 0)
  {
    var depth := 0;
    var i := 0;
    while i < |expr| - 1
      invariant 0 <= i && (expr == "" ==> i == 0) && (expr != "" ==> i <= |expr| - 1)
      invariant WrapFrom(expr, 0, 0) == WrapFrom(expr, i, depth)
    {
      if expr[i] == '(' {
        depth := depth + 1;
      } else if expr[i] == ')' {
        depth := depth - 1;
        if depth == 0 {
          return false;
        }
      }
      i := i + 1;
    }
    return true;
  }

  method FindTopLevelEquality(expr: string) returns (found: Found)
    ensures found == FindFrom(expr, 0, 0)
  {
    var depth := 0;
    var i := 0;
    while i < |expr|
      invariant 0 <= i <= |expr|
      invariant FindFrom(expr, 0, 0) == FindFrom(expr, i, depth)
    {
      var c := expr[i];
      if c == '[' || c == '(' {
        depth := depth + 1;
      } else if c == ']' || c == ')' {
        depth := depth - 1;
      } else if depth == 0 && (c == '=' || c == '!') && i + 1 < |expr| && expr[i + 1] == '=' {
        var skip := (i > 0 && (expr[i - 1] == '=' || expr[i - 1] == '!')) || Trim(expr[..i]) == "";
        if !skip {
          return At(i, OpAt(expr, i));
        }
      }
      i := i + 1;
    }
    return NotFound;
  }

  method FindAccess(expr: string, i: nat) returns (a: Access)
    requires i < |expr|
    ensures a == AccessAt(expr, i)
  {
    if expr[i] == '.' {
      var n := NameLen(expr[i + 1..]);
      return if n == 0 then Malformed else Name(expr[i + 1..i + 1 + n], i + 1 + n);
    }
    if expr[i] != '[' {
      return Malformed;
    }
    var depth := 1;
    var j := i + 1;
    while j < |expr| && depth > 0
      invariant i < j <= |expr| && depth >= 1
      invariant CloseFrom(expr, i + 1, 1) == CloseFrom(expr, j, depth)
    {
      if expr[j] == '[' {
        depth := depth + 1;
      } else if expr[j] == ']' {
        depth := depth - 1;
        if depth == 0 {
          return Key(expr[i + 1..j], j + 1);
        }
      }
      j := j + 1;
    }
    return Malformed;
  }

  /** `resolve` in the source's form: recursive, over the scanning loops. */
  method Evaluate(js: Js, vals: Value, src: string) returns (v: Value)
    ensures v == Resolve(js, vals, src)
    decreases |src|, 1
  {
    var expr := Trim(src);
    ghost var goal := ResolveTrimmed(js, vals, expr);
    assert goal == Resolve(js, vals, src);
    if expr == "" {
      return js.undef;
    }
    if expr[0] == '(' && expr[|expr| - 1] == ')' {
      var whole := ParensWrapWhole(expr);
      if whole {
        v := Evaluate(js, vals, expr[1..|expr| - 1]);
        return;
      }
    }
    var eq := FindTopLevelEquality(expr);
    if eq.At? {
      var lv := Evaluate(js, vals, expr[..eq.index]);
      var rv := Evaluate(js, vals, expr[eq.index + |OpText(eq.op)|..]);
      return Compare(js, eq.op, lv, rv);
    }
    if expr[0] == '!' {
      var operand := Evaluate(js, vals, expr[1..]);
      return js.truth(!js.truthy(operand));
    }
    assert goal == ResolveAtom(js, vals, expr);
    if expr == "true" { return js.truth(true); }
    if expr == "false" { return js.truth(false); }
    if expr == "null" { return js.nul; }
    if expr == "undefined" { return js.undef; }
    if IsNumber(expr) { return js.number(expr); }
    if IsQuoted(expr) { return js.text(expr[1..|expr| - 1]); }
    v := EvaluatePath(js, vals, expr);
  }

  method EvaluatePath(js: Js, vals: Value, expr: string) returns (v: Value)
    ensures v == ResolvePath(js, vals, expr)
    decreases |expr|, 0
  {
    var n := IdentLen(expr);
    if n == 0 {
      return js.undef;
    }
    var cur := js.Member(vals, js.text(expr[..n]));
    var i := n;
    ghost var target := ResolveSteps(js, vals, cur, expr, i);
    while i < |expr|
      invariant 0 <= i <= |expr|
      invariant target == ResolveSteps(js, vals, cur, expr, i)
    {
      var access := FindAccess(expr, i);
      match access
      case Malformed =>
        return js.undef;
      case Name(name, next) =>
        cur := js.Member(cur, js.text(name));
        i := next;
      case Key(src, next) =>
        var key := Evaluate(js, vals, src);
        cur := js.Member(cur, key);
        i := next;
    }
    return cur;
  }
}
