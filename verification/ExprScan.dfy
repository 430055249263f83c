/**
 What the scans of the expression evaluator find in any text whatever, well-formed or
 not, and what the evaluator makes of malformed text (design-reference/support.js).

 Brackets are counted here from the text alone, without the scans.
 */
module ExprScan {
  import opened Text
  import opened Expr
  import ExprTree

  /** Brackets of the given shapes that `s` opens, less those it closes. */
  function Open(s: string, opening: string, closing: string): int {
    if s == "" then 0
    else
      var c := s[|s| - 1];
      Open(s[..|s| - 1], opening, closing) + if c in opening then 1 else if c in closing then -1 else 0
  }

  lemma OpenStep(s: string, i: nat, opening: string, closing: string)
    requires i < |s|
    ensures Open(s[..i + 1], opening, closing) ==
            Open(s[..i], opening, closing) + if s[i] in opening then 1 else if s[i] in closing then -1 else 0
  {
    assert s[..i + 1][..i] == s[..i];
  }

  // ------------------------------------------------------------- equalities

  /**
   An equality sign that counts, in `s` at `i`: outside all brackets, the first of its
   run of signs, and with something before it.
   */
  predicate StartsEquality(s: string, i: nat) {
    && i + 1 < |s| && (s[i] == '=' || s[i] == '!') && s[i + 1] == '='
    && Open(s[..i], "([", ")]") == 0 && !AllSpace(s[..i])
    && (i > 0 ==> s[i - 1] != '=' && s[i - 1] != '!')
  }

  predicate FirstEquality(s: string, i: nat) {
    StartsEquality(s, i) && forall j :: 0 <= j < i ==> !StartsEquality(s, j)
  }

  lemma {:induction false} BlankLeft(s: string)
    ensures TrimLeft(s) == "" <==> AllSpace(s)
  {
    if s != "" {
      BlankLeft(s[1..]);
      assert s == [s[0]] + s[1..];
    }
  }

  lemma BlankExactly(s: string)
    ensures Trim(s) == "" <==> AllSpace(s)
  {
    BlankLeft(s);
    if !AllSpace(s) {
      var k :| 0 <= k < |s| && !IsSpace(s[k]);
      TrimNonBlank(s, k);
    }
  }

  lemma ScanStep(s: string, i: nat)
    requires i < |s|
    ensures FindFrom(s, i, Open(s[..i], "([", ")]")) ==
            if StartsEquality(s, i) then At(i, OpAt(s, i)) else FindFrom(s, i + 1, Open(s[..i + 1], "([", ")]"))
  {
    OpenStep(s, i, "([", ")]");
    BlankExactly(s[..i]);
  }

  /** No equality sign that counts from `i` on, or the first of them. */
  predicate IsFirstFrom(s: string, i: nat, found: Found) {
    match found
    case NotFound => forall j :: i <= j < |s| ==> !StartsEquality(s, j)
    case At(k, op) => StartsEquality(s, k) && OpAt(s, k) == op && forall j :: i <= j < k ==> !StartsEquality(s, j)
  }

  lemma {:induction false} FoundFrom(s: string, i: nat)
    requires i <= |s|
    ensures IsFirstFrom(s, i, FindFrom(s, i, Open(s[..i], "([", ")]")))
    decreases |s| - i
  {
    if i < |s| {
      ScanStep(s, i);
      if !StartsEquality(s, i) {
        FoundFrom(s, i + 1);
        FirstEarlier(s, i, FindFrom(s, i + 1, Open(s[..i + 1], "([", ")]")));
      }
    }
  }

  lemma FirstEarlier(s: string, i: nat, found: Found)
    requires !StartsEquality(s, i) && IsFirstFrom(s, i + 1, found)
    ensures IsFirstFrom(s, i, found)
  {
  }

  /** The equality scan finds the first equality sign that counts, in any text. */
  lemma EqualityExactly(s: string)
    ensures FindFrom(s, 0, 0) == NotFound <==> forall j: nat :: !StartsEquality(s, j)
    ensures forall k, op :: FindFrom(s, 0, 0) == At(k, op) ==> FirstEquality(s, k) && OpAt(s, k) == op
  {
    FoundFrom(s, 0);
  }

  /** The sign at `i` is a long one. */
  predicate IsLong(s: string, i: nat) {
    i + 2 < |s| && s[i + 2] == '='
  }

  /** Where the right side begins. */
  function After(s: string, i: nat): nat {
    if IsLong(s, i) then i + 3 else i + 2
  }

  /** What the sign at `i` says of two values. */
  predicate SignHolds(js: Js, s: string, i: nat, l: Value, r: Value)
    requires i < |s|
  {
    var same := if IsLong(s, i) then js.strictEq(l, r) else js.looseEq(l, r);
    if s[i] == '=' then same else !same
  }

  lemma SignLength(s: string, i: nat)
    requires i + 1 < |s| && EqLead(s[i]) && s[i + 1] == '='
    ensures i + |OpText(OpAt(s, i))| == After(s, i)
  {
  }

  lemma SignMeans(js: Js, s: string, i: nat, l: Value, r: Value)
    requires i + 1 < |s| && EqLead(s[i]) && s[i + 1] == '='
    ensures Holds(js, OpAt(s, i), l, r) == SignHolds(js, s, i, l, r)
  {
  }

  /**
   Any text that does not begin with a parenthesis is split at its first equality sign:
   three characters of it when the third is `=`, two otherwise. Both sides are evaluated,
   and compared as the sign says.
   */
  lemma SplitExactly(js: Js, vals: Value, s: string, i: nat)
    requires Trim(s) == s && FirstEquality(s, i) && s[0] != '('
    ensures After(s, i) <= |s|
    ensures Resolve(js, vals, s) ==
            js.truth(SignHolds(js, s, i, Resolve(js, vals, s[..i]), Resolve(js, vals, s[After(s, i)..])))
  {
    FirstIsFound(s, i);
    SplitAtFound(js, vals, s, i);
  }

  lemma FirstIsFound(s: string, i: nat)
    requires FirstEquality(s, i)
    ensures i + 1 < |s| && EqLead(s[i]) && s[i + 1] == '=' && FindFrom(s, 0, 0) == At(i, OpAt(s, i))
  {
    EqualityExactly(s);
    FirstIsOne(s, i, FindFrom(s, 0, 0).index);
  }

  lemma SplitAtFound(js: Js, vals: Value, s: string, i: nat)
    requires i + 1 < |s| && EqLead(s[i]) && s[i + 1] == '=' && FindFrom(s, 0, 0) == At(i, OpAt(s, i))
    requires Trim(s) == s && s[0] != '('
    ensures After(s, i) <= |s|
    ensures Resolve(js, vals, s) ==
            js.truth(SignHolds(js, s, i, Resolve(js, vals, s[..i]), Resolve(js, vals, s[After(s, i)..])))
  {
    SignLength(s, i);
    var l, r := Resolve(js, vals, s[..i]), Resolve(js, vals, s[After(s, i)..]);
    ExprTree.SplitAtOperator(js, vals, s, i, OpAt(s, i));
    SignMeans(js, s, i, l, r);
    Untrimmed(js, vals, s);
  }

  lemma Untrimmed(js: Js, vals: Value, s: string)
    requires Trim(s) == s
    ensures Resolve(js, vals, s) == ResolveTrimmed(js, vals, s)
  {
  }

  lemma FirstIsOne(s: string, i: nat, k: nat)
    requires FirstEquality(s, i) && FirstEquality(s, k)
    ensures i == k
  {
  }

  // --------------------------------------------------- parentheses, brackets

  /** Some parenthesis of `s`, before the last character, closes all that were opened. */
  predicate ClosesEarly(s: string) {
    exists i :: 0 <= i < |s| - 1 && s[i] == ')' && Open(s[..i + 1], "(", ")") == 0
  }

  lemma {:induction false} WrapsFrom(s: string, i: nat)
    requires i <= |s|
    ensures WrapFrom(s, i, Open(s[..i], "(", ")")) <==>
            forall j :: i <= j < |s| - 1 && s[j] == ')' ==> Open(s[..j + 1], "(", ")") != 0
    decreases |s| - i
  {
    if i + 1 < |s| {
      OpenStep(s, i, "(", ")");
      WrapsFrom(s, i + 1);
    }
  }

  /** The parentheses around any text are dropped unless the first one closes before the end. */
  lemma UnwrapExactly(js: Js, vals: Value, m: string)
    ensures WrapFrom("(" + m + ")", 0, 0) <==> !ClosesEarly("(" + m + ")")
    ensures !ClosesEarly("(" + m + ")") ==> Resolve(js, vals, "(" + m + ")") == Resolve(js, vals, m)
  {
    var s := "(" + m + ")";
    WrapsFrom(s, 0);
    TrimIdentity(s);
    assert s[1..|s| - 1] == m;
  }

  /** Position `k` closes the bracket that opens at `i`. */
  predicate ClosesAt(s: string, i: nat, k: nat) {
    i < k < |s| && s[k] == ']' && Open(s[i + 1..k], "[", "]") == 0
  }

  lemma OpenFrom(s: string, i: nat, j: nat)
    requires i < j < |s|
    ensures Open(s[i + 1..j + 1], "[", "]") ==
            Open(s[i + 1..j], "[", "]") + if s[j] == '[' then 1 else if s[j] == ']' then -1 else 0
  {
    var t := s[i + 1..];
    OpenStep(t, j - i - 1, "[", "]");
    assert t[..j - i - 1] == s[i + 1..j] && t[..j - i] == s[i + 1..j + 1];
  }

  lemma {:induction false} ClosedFrom(s: string, i: nat, j: nat)
    requires i < j <= |s| && Open(s[i + 1..j], "[", "]") >= 0
    ensures match CloseFrom(s, j, Open(s[i + 1..j], "[", "]") + 1)
            case None => forall k :: j <= k < |s| ==> !ClosesAt(s, i, k)
            case Some(k) => ClosesAt(s, i, k) && forall m :: j <= m < k ==> !ClosesAt(s, i, m)
    decreases |s| - j
  {
    if j < |s| {
      OpenFrom(s, i, j);
      if !ClosesAt(s, i, j) {
        ClosedFrom(s, i, j + 1);
      }
    }
  }

  /** The key of an access ends at the first bracket that closes it, and there is none exactly when it is malformed. */
  lemma KeyExactly(s: string, i: nat)
    requires i < |s| && s[i] == '['
    ensures AccessAt(s, i) == Malformed <==> forall k: nat :: !ClosesAt(s, i, k)
    ensures forall k: nat :: ClosesAt(s, i, k) && (forall m :: i < m < k ==> !ClosesAt(s, i, m)) ==>
              AccessAt(s, i) == Key(s[i + 1..k], k + 1)
  {
    assert s[i + 1..i + 1] == "";
    ClosedFrom(s, i, i + 1);
  }

  // ---------------------------------------------------------- malformed text

  lemma BlankIsUndefined(js: Js, vals: Value, s: string)
    requires AllSpace(s)
    ensures Resolve(js, vals, s) == js.undef
  {
    BlankExactly(s);
  }

  /** After `n` digits nothing follows, or a point and more digits. */
  predicate EndsNumeral(s: string, n: nat)
    requires n <= |s|
  {
    n == |s| || (s[n] == '.' && n + 1 < |s| && AllDigits(s[n + 1..]))
  }

  predicate IsUnsigned(s: string) {
    exists n :: 0 < n <= |s| && AllDigits(s[..n]) && EndsNumeral(s, n)
  }

  lemma {:induction false} DigitRunIs(s: string)
    ensures AllDigits(s[..DigitRun(s)]) && (DigitRun(s) < |s| ==> !IsDigit(s[DigitRun(s)]))
  {
    if s != "" && IsDigit(s[0]) {
      DigitRunIs(s[1..]);
      var n := DigitRun(s[1..]);
      assert s[..n + 1] == [s[0]] + s[1..][..n];
    }
  }

  lemma {:induction false} RunIsLongest(s: string, k: nat)
    requires k <= |s| && AllDigits(s[..k])
    ensures k <= DigitRun(s)
  {
    if k > 0 {
      assert s[..k][0] == s[0] && s[1..][..k - 1] == s[..k][1..];
      RunIsLongest(s[1..], k - 1);
    }
  }

  lemma UnsignedExactly(s: string)
    ensures IsUnsigned(s) <==> DigitRun(s) > 0 && EndsNumeral(s, DigitRun(s))
  {
    DigitRunIs(s);
    if IsUnsigned(s) {
      var k :| 0 < k <= |s| && AllDigits(s[..k]) && EndsNumeral(s, k);
      RunIsLongest(s, k);
      NumeralEndsOnce(s, k, DigitRun(s));
    }
  }

  lemma NumeralEndsOnce(s: string, k: nat, n: nat)
    requires k <= n <= |s| && AllDigits(s[..n]) && EndsNumeral(s, k)
    ensures k == n
  {
  }

  /** A numeral is an unsigned one, with or without a minus in front. */
  lemma NumbersExactly(s: string)
    ensures IsNumber(s) <==> IsUnsigned(s) || (s != "" && s[0] == '-' && IsUnsigned(s[1..]))
  {
    UnsignedExactly(s);
    if s != "" {
      UnsignedExactly(s[1..]);
    }
  }

  predicate IsLetter(c: char) {
    'a' <= c <= 'z' || 'A' <= c <= 'Z' || c == '_' || c == '$'
  }

  /** Text between two quotes of the same kind. */
  predicate IsQuotation(s: string) {
    |s| >= 2 && (s[0] == '\'' || s[0] == '"') && s[|s| - 1] == s[0]
  }

  /**
   Text that begins with no name and is neither a numeral, a quotation, a negation nor an
   equality is undefined, whatever it contains.
   */
  lemma StrayIsUndefined(js: Js, vals: Value, s: string)
    requires s != "" && Trim(s) == s && forall j: nat :: !StartsEquality(s, j)
    requires !IsLetter(s[0]) && s[0] != '(' && s[0] != '!' && !IsQuotation(s)
    requires !IsUnsigned(s) && (s[0] == '-' ==> !IsUnsigned(s[1..]))
    ensures Resolve(js, vals, s) == js.undef
  {
    EqualityExactly(s);
    NumbersExactly(s);
    if ExprTree.IsKeyword(s) {
      KeywordsBegin(s);
    }
    OnlyAtom(js, vals, s);
  }

  lemma KeywordsBegin(s: string)
    requires s != "" && ExprTree.IsKeyword(s)
    ensures IsLetter(s[0]) && ExprTree.IsIdent(s)
  {
  }

  /** A text that is no equality, negation or word, in no parentheses, is an atom. */
  lemma OnlyAtom(js: Js, vals: Value, s: string)
    requires s != "" && Trim(s) == s && FindFrom(s, 0, 0) == NotFound && s[0] != '(' && s[0] != '!'
    requires !ExprTree.IsKeyword(s) && !IsNumber(s) && !IsQuoted(s)
    ensures Resolve(js, vals, s) == ResolvePath(js, vals, s)
  {
    assert ResolveTrimmed(js, vals, s) == ResolveAtom(js, vals, s);
  }

  /**
   What cannot follow a name: anything but a point and a name or digits, or a bracket
   that is closed.
   */
  ghost predicate Breaks(rest: string) {
    && rest != ""
    && (rest[0] == '.' ==> |rest| == 1 || !(IsLetter(rest[1]) || IsDigit(rest[1])))
    && (rest[0] == '[' ==> forall k: nat :: !ClosesAt(rest, 0, k))
  }

  lemma BreaksAfter(name: string, rest: string)
    requires Breaks(rest)
    ensures AccessAt(name + rest, |name|) == Malformed
  {
    var s, n := name + rest, |name|;
    assert s[n] == rest[0] && s[n + 1..] == rest[1..];
    if rest[0] == '[' {
      forall k: nat | ClosesAt(s, n, k) ensures ClosesAt(rest, 0, k - n) {
        assert s[n + 1..k] == rest[1..k - n];
      }
      KeyExactly(s, n);
    }
  }

  /** A name that is followed by anything else is undefined: a call, a sum, an unfinished access. */
  lemma BrokenPathIsUndefined(js: Js, vals: Value, name: string, rest: string)
    requires ExprTree.IsIdent(name) && Breaks(rest) && !(IsLetter(rest[0]) || IsDigit(rest[0]))
    requires Trim(name + rest) == name + rest && forall j: nat :: !StartsEquality(name + rest, j)
    ensures Resolve(js, vals, name + rest) == js.undef
  {
    var s := name + rest;
    EqualityExactly(s);
    ExprTree.IdentRunStops(name, rest);
    BreaksAfter(name, rest);
    assert s[0] == name[0] && s[|name|] == rest[0];
    if ExprTree.IsKeyword(s) {
      KeywordsBegin(s);
    }
    OnlyAtom(js, vals, s);
    assert IdentLen(s) == |name|;
  }

  /** A quoted literal reads as its own text exactly when it contains no equality sign that counts. */
  lemma QuotationExactly(js: Js, vals: Value, quote: char, body: string)
    requires quote == '"' || quote == '\''
    requires forall t, b :: js.text(t) != js.truth(b)
    ensures var s := [quote] + body + [quote];
            Resolve(js, vals, s) == js.text(body) <==> forall j: nat :: !StartsEquality(s, j)
  {
    EqualityExactly([quote] + body + [quote]);
    ExprTree.QuotedExactly(js, vals, quote, body);
  }
}
