/**
 Money amounts (packages/utils/src/money.ts): whole numbers of a currency's smallest
 unit, the printer and the parser of their displayed form, and rounded percentages.

 Quotients are rounded the way `Math.round` does, half up. Amounts are integers, so that
 only the parser meets fractions: it scales in doubles, and its rounding is a parameter.
 */
module Money {
  import opened Text

  const NBSP := '\U{A0}'
  const MINUS := '\U{2212}'
  const MAX_SAFE := 9007199254740991

  datatype Currency = Currency(decimals: nat, symbol: string)

  datatype Error = UnsafeAmount | UnknownCurrency | BadBasisPoints

  function GetCurrency(code: string): Option<Currency> {
    if code == "XOF" || code == "XAF" then Some(Currency(0, "FCFA"))
    else if code == "GNF" then Some(Currency(0, "GNF"))
    else if code == "NGN" then Some(Currency(2, "\U{20A6}"))
    else if code == "GHS" then Some(Currency(2, "GH\U{20B5}"))
    else None
  }

  predicate IsSafe(n: int) {
    -MAX_SAFE <= n <= MAX_SAFE
  }

  function Abs(n: int): nat {
    if n < 0 then -n else n
  }

  // ------------------------------------------------------------- the printer

  /** A separator before every digit that has a positive multiple of three from it to the end. */
  function Group(digits: string, first: bool): string {
    if digits == "" then "" else Separator(first, |digits|) + [digits[0]] + Group(digits[1..], false)
  }

  function Separator(first: bool, left: nat): string {
    if !first && left % 3 == 0 then [NBSP] else ""
  }

  /** `padStart(2, '0')` on a number below 100. */
  function TwoDigits(n: nat): string
    requires n < 100
  {
    [DigitChar(n / 10), DigitChar(n % 10)]
  }

  function Body(n: nat, decimals: nat): string {
    if decimals == 0 then Group(Decimal(n), true)
    else Group(Decimal(n / 100), true) + "," + TwoDigits(n % 100)
  }

  function FormatAmount(amount: int, code: string): Result<string, Error> {
    if !IsSafe(amount) then Err(UnsafeAmount)
    else match GetCurrency(code)
      case None => Err(UnknownCurrency)
      case Some(currency) =>
        var body := Body(Abs(amount), currency.decimals);
        Ok(if amount < 0 then [MINUS] + body else body)
  }

  function FormatMoney(amount: int, code: string): Result<string, Error> {
    match FormatAmount(amount, code)
    case Err(e) => Err(e)
    case Ok(s) => Ok(s + [NBSP] + GetCurrency(code).value.symbol)
  }

  // -------------------------------------------------------------- the parser

  function Kept(c: char): string {
    if IsSpace(c) then "" else [c]
  }

  function StripSpace(s: string): string {
    if s == "" then "" else Kept(s[0]) + StripSpace(s[1..])
  }

  function Hyphen(c: char): char {
    if c == MINUS || c == '\U{2013}' || c == '\U{2014}' then '-' else c
  }

  function Hyphens(s: string): string {
    if s == "" then "" else [Hyphen(s[0])] + Hyphens(s[1..])
  }

  function Upper(c: char): char {
    if 'a' <= c <= 'z' then (c - 'a') + 'A' else c
  }

  predicate StartsWith(s: string, symbol: string) {
    |symbol| <= |s| && forall i :: 0 <= i < |symbol| ==> Upper(s[i]) == symbol[i]
  }

  const SYMBOLS: seq<string> := ["FCFA", "XOF", "XAF", "GNF", "NGN", "GHS", "GH\U{20B5}", "\U{20A6}"]

  /** How many characters the first of `symbols` that fits takes at the start of `s`. */
  function MatchLength(s: string, symbols: seq<string>): (n: nat)
    ensures n <= |s|
  {
    if symbols == [] then 0
    else if StartsWith(s, symbols[0]) then |symbols[0]| else MatchLength(s, symbols[1..])
  }

  function RemoveSymbols(s: string): string
    decreases |s|
  {
    if s == "" then ""
    else
      var n := MatchLength(s, SYMBOLS);
      if n > 0 then RemoveSymbols(s[n..]) else [s[0]] + RemoveSymbols(s[1..])
  }

  /** The first comma becomes a point. */
  function CommaToPoint(s: string): string {
    if s == "" then "" else if s[0] == ',' then "." + s[1..] else [s[0]] + CommaToPoint(s[1..])
  }

  function Prepare(s: string): string {
    Hyphens(StripSpace(s))
  }

  function Clean(s: string): string {
    Trim(CommaToPoint(RemoveSymbols(Prepare(s))))
  }

  function Power10(n: nat): (p: nat)
    ensures p > 0
  {
    if n == 0 then 1 else 10 * Power10(n - 1)
  }

  /** `Math.round(n / d)`. */
  function RoundDiv(n: int, d: int): int
    requires d > 0
  {
    (2 * n + d) / (2 * d)
  }

  /** A numeral: its sign, its digits before the point, and those after it. */
  datatype Numeral = Numeral(negative: bool, whole: string, fraction: string)

  predicate WellFormed(n: Numeral) {
    n.whole != "" && AllDigits(n.whole) && AllDigits(n.fraction)
  }

  predicate HasMinus(s: string) {
    s != "" && s[0] == '-'
  }

  function Unsigned(s: string): string {
    if HasMinus(s) then s[1..] else s
  }

  function ReadParts(negative: bool, parts: seq<string>): (r: Option<Numeral>)
    requires parts != []
    ensures r.Some? ==> WellFormed(r.value)
  {
    if |parts| > 2 || parts[0] == "" || !AllDigits(parts[0]) then None
    else if |parts| == 1 then Some(Numeral(negative, parts[0], ""))
    else if parts[1] == "" || !AllDigits(parts[1]) then None
    else Some(Numeral(negative, parts[0], parts[1]))
  }

  /** `^-?\d+(\.\d+)?$` */
  function ReadNumeral(s: string): (r: Option<Numeral>)
    ensures r.Some? ==> WellFormed(r.value)
  {
    ReadParts(HasMinus(s), Split(Unsigned(s), '.'))
  }

  // ----------------------------------------------------- how numbers are rounded

  /** Exact arithmetic, or doubles, which round every result. */
  datatype Arithmetic = Exact | Double(round: real -> real)

  function Size(x: real): real {
    if x < 0.0 then -x else x
  }

  /** 2^-53: a double has 53 bits. */
  const UNIT := 1.0 / 9007199254740992.0

  /** 2^-100, more than what underflow can cost. */
  const TINY := 1.0 / 1267650600228229401496703205376.0

  predicate Close(round: real -> real, x: real) {
    Size(round(x) - x) <= Size(x) * UNIT + TINY
  }

  /**
   What IEEE 754 promises of rounding to the nearest double: it is close, and safe
   integers are doubles. A number that overflows is as unsafe as it is.
   */
  ghost predicate IsHost(a: Arithmetic) {
    a.Double? ==>
      && (forall x :: Close(a.round, x))
      && (forall n: int :: IsSafe(n) ==> a.round(n as real) == n as real)
  }

  function Round(a: Arithmetic, x: real): real {
    if a.Exact? then x else a.round(x)
  }

  /** `Math.round` */
  function MathRound(x: real): int {
    (x + 0.5).Floor
  }

  /** The number a numeral denotes. */
  function Value(n: Numeral): real
    requires WellFormed(n)
  {
    var v := NatOf(n.whole + n.fraction) as real / Power10(|n.fraction|) as real;
    if n.negative then -v else v
  }

  /** A number in the currency's smallest units: no currency has other than none or two decimals. */
  function Units(v: real, decimals: nat): real {
    if decimals == 0 then v else v * 100.0
  }

  function ScaledValue(v: real, decimals: nat, a: Arithmetic): int {
    MathRound(Round(a, Units(Round(a, v), decimals)))
  }

  function Scaled(n: Numeral, decimals: nat, a: Arithmetic): int
    requires WellFormed(n)
  {
    ScaledValue(Value(n), decimals, a)
  }

  function ParseAmount(s: string, code: string, a: Arithmetic): Result<Option<int>, Error> {
    match GetCurrency(code)
    case None => Err(UnknownCurrency)
    case Some(currency) =>
      match ReadNumeral(Clean(s))
      case None => Ok(None)
      case Some(n) =>
        var scaled := Scaled(n, currency.decimals, a);
        Ok(if IsSafe(scaled) then Some(scaled) else None)
  }

  /** `2 * UNIT + UNIT * UNIT`, for two roundings. */
  const TWICE := 18014398509481985.0 / 81129638414606681695789005144064.0

  /** How far off a number of size `x` can be that comes from two roundings, with a scaling between them. */
  function Slack(a: Arithmetic, x: real): real {
    if a.Exact? then 0.0 else x * TWICE + 102.0 * TINY
  }

  lemma TwoRoundings(v: real, w: real, p: real, decimals: nat)
    requires Size(w - v) <= Size(v) * UNIT + TINY
    requires Size(p - Units(w, decimals)) <= Size(Units(w, decimals)) * UNIT + TINY
    ensures Size(p - Units(v, decimals)) <= Size(Units(v, decimals)) * TWICE + 102.0 * TINY
  {
  }

  /** `r` is the nearest integer to `x`, the upper one on a tie, by more than `slack`. */
  predicate Nearest(r: int, x: real, slack: real) {
    r as real - 0.5 <= x - slack && x + slack < r as real + 0.5
  }

  lemma MathRoundNearest(x: real, p: real, r: int, slack: real)
    requires Size(p - x) <= slack && Nearest(r, x, slack)
    ensures MathRound(p) == r
  {
  }

  lemma HostRoundsTwice(a: Arithmetic, v: real, decimals: nat)
    requires IsHost(a)
    ensures Size(Round(a, Units(Round(a, v), decimals)) - Units(v, decimals)) <= Slack(a, Size(Units(v, decimals)))
  {
    if a.Double? {
      var w := a.round(v);
      assert Close(a.round, v) && Close(a.round, Units(w, decimals));
      TwoRoundings(v, w, a.round(Units(w, decimals)), decimals);
    }
  }

  /** The number of units is nearest to `r`, and farther from a tie than roundings reach. */
  predicate IsNearest(r: int, v: real, decimals: nat, a: Arithmetic) {
    Nearest(r, Units(v, decimals), Slack(a, Size(Units(v, decimals))))
  }

  lemma ScaledNearest(v: real, decimals: nat, a: Arithmetic, r: int)
    requires IsHost(a) && IsNearest(r, v, decimals, a)
    ensures ScaledValue(v, decimals, a) == r
  {
    var x := Units(v, decimals);
    HostRoundsTwice(a, v, decimals);
    MathRoundNearest(x, Round(a, Units(Round(a, v), decimals)), r, Slack(a, Size(x)));
  }

  lemma HundredOrOne()
    ensures Power10(0) == 1 && Power10(2) == 100
  {
    assert Power10(1) == 10;
  }

  // --------------------------------------------------------------- rounding

  /** Half up: `r` is the one integer within half a unit, the upper one on a tie. */
  lemma RoundDivNearest(n: int, d: int, r: int)
    requires d > 0
    ensures r == RoundDiv(n, d) <==> 2 * d * r - d <= 2 * n < 2 * d * r + d
  {
    FloorUnique(2 * n + d, 2 * d, r);
    assert 2 * d * r + 2 * d - d == 2 * d * r + d;
  }

  lemma FloorUnique(n: int, d: int, r: int)
    requires d > 0
    ensures r == n / d <==> d * r <= n < d * r + d
  {
    var q := n / d;
    assert d * q <= n < d * q + d;
    if d * r <= n < d * r + d {
      if r > q {
        MulMono(d, q + 1, r);
      } else if r < q {
        MulMono(d, r + 1, q);
      }
    }
  }

  lemma MulMono(d: int, a: int, b: int)
    requires d > 0 && a <= b
    ensures d * a <= d * b && d * (a + 1) == d * a + d
  {
  }

  lemma RoundDivExact(n: int, d: int)
    requires d > 0
    ensures RoundDiv(d * n, d) == n
  {
    assert 2 * d * n == 2 * (d * n);
    RoundDivNearest(d * n, d, n);
  }

  // --------------------------------------------------- what the printer prints

  /** `s` three by three; what is left over is dropped. */
  function Chunks(s: string): seq<string> {
    if |s| < 3 then [] else [s[..3]] + Chunks(s[3..])
  }

  function Flat(chunks: seq<string>): string {
    if chunks == [] then "" else [NBSP] + chunks[0] + Flat(chunks[1..])
  }

  lemma {:induction false} SplitFlat(a: string, chunks: seq<string>)
    requires NBSP !in a && forall i :: 0 <= i < |chunks| ==> NBSP !in chunks[i]
    ensures Split(a + Flat(chunks), NBSP) == [a] + chunks
    decreases |chunks|
  {
    if chunks == [] {
      SplitPlain(a, NBSP);
      assert a + "" == a;
    } else {
      var tail := chunks[0] + Flat(chunks[1..]);
      SplitFlat(chunks[0], chunks[1..]);
      SplitAt(a, tail, NBSP);
      FlatStep(chunks[0], chunks[1..]);
      assert [chunks[0]] + chunks[1..] == chunks;
      assert a + [NBSP] + tail == a + Flat(chunks);
    }
  }

  lemma {:induction false} ChunksAreDigits(s: string)
    requires AllDigits(s)
    ensures forall i :: 0 <= i < |Chunks(s)| ==> NBSP !in Chunks(s)[i]
  {
    if |s| >= 3 {
      ChunksAreDigits(s[3..]);
    }
  }

  lemma Glue(a: string, c: char, b: string, d: string)
    ensures a + [c] + (b + d) == a + ([c] + b) + d
  {
  }

  lemma GroupStep(s: string, first: bool)
    requires s != ""
    ensures Group(s, first) == Separator(first, |s|) + [s[0]] + Group(s[1..], false)
  {
  }

  lemma Slices(s: string, m: nat)
    requires 0 < m <= |s|
    ensures s[1..][m - 1..] == s[m..] && s[..m] == [s[0]] + s[1..][..m - 1]
  {
  }

  /** No separator until the digits left are a multiple of three. */
  lemma {:induction false} GroupRun(s: string, m: nat, first: bool)
    requires m <= |s|
    requires if first then 0 < m <= 3 && (|s| - m) % 3 == 0 else |s| % 3 == m
    ensures Group(s, first) == s[..m] + Group(s[m..], false)
    decreases |s|
  {
    if m > 0 {
      GroupRun(s[1..], m - 1, false);
      Slices(s, m);
      GroupStep(s, first);
      Glue("", s[0], s[1..][..m - 1], Group(s[m..], false));
    } else {
      assert s[0..] == s;
    }
  }

  lemma GroupWhole(s: string)
    requires |s| % 3 == 0 && s != ""
    ensures Group(s, false) == [NBSP] + s[..3] + Group(s[3..], false)
  {
    GroupRun(s[1..], 2, false);
    Slices(s, 3);
    GroupStep(s, false);
    Glue([NBSP], s[0], s[1..][..2], Group(s[3..], false));
  }

  lemma FlatStep(c: string, chunks: seq<string>)
    ensures Flat([c] + chunks) == [NBSP] + c + Flat(chunks)
  {
    assert ([c] + chunks)[1..] == chunks;
  }

  lemma {:induction false} GroupIsFlat(s: string, k: nat)
    requires |s| == 3 * k
    ensures Group(s, false) == Flat(Chunks(s))
  {
    if k > 0 {
      GroupWhole(s);
      GroupIsFlat(s[3..], k - 1);
      FlatStep(s[..3], Chunks(s[3..]));
    }
  }

  lemma GroupsAreFlat(head: string, rest: string, k: nat)
    requires 0 < |head| <= 3 && |rest| == 3 * k
    ensures Group(head + rest, true) == head + Flat(Chunks(rest))
  {
    var s := head + rest;
    assert s[..|head|] == head && s[|head|..] == rest;
    GroupRun(s, |head|, true);
    GroupIsFlat(rest, k);
  }

  /** The first one to three digits, then the rest three by three. */
  lemma GroupsOfThree(head: string, rest: string, k: nat)
    requires AllDigits(head) && AllDigits(rest)
    requires 0 < |head| <= 3 && |rest| == 3 * k
    ensures Split(Group(head + rest, true), NBSP) == [head] + Chunks(rest)
  {
    GroupsAreFlat(head, rest, k);
    ChunksAreDigits(rest);
    SplitFlat(head, Chunks(rest));
  }

  /** `n` with its digits three by three. */
  function Grouped(n: nat): string {
    Group(Decimal(n), true)
  }

  /** A typographic minus, the digits, a no-break space and the symbol. */
  predicate IsDisplay(r: Result<string, Error>, negative: bool, body: string, symbol: string) {
    r == Ok((if negative then "\U{2212}" + body else body) + "\U{A0}" + symbol)
  }

  /**
   What is displayed, currency by currency: the grouped whole part, two decimals after a
   comma for the naira and the cedi, none for the francs.
   */
  lemma PrintedExactly(amount: int, code: string)
    requires IsSafe(amount)
    ensures var r, n := FormatMoney(amount, code), Abs(amount);
            var whole, decimals := Grouped(n), Grouped(n / 100) + "," + [DigitChar(n / 10 % 10), DigitChar(n % 10)];
            if code == "XOF" || code == "XAF" then IsDisplay(r, amount < 0, whole, "FCFA")
            else if code == "GNF" then IsDisplay(r, amount < 0, whole, "GNF")
            else if code == "NGN" then IsDisplay(r, amount < 0, decimals, "\U{20A6}")
            else if code == "GHS" then IsDisplay(r, amount < 0, decimals, "GH\U{20B5}")
            else r == Err(UnknownCurrency)
  {
    LastTwo(Abs(amount));
  }

  lemma LastTwo(n: nat)
    ensures TwoDigits(n % 100) == [DigitChar(n / 10 % 10), DigitChar(n % 10)]
  {
    LastTwoDigits(n, n / 100, n % 100 / 10, n % 10);
  }

  lemma LastTwoDigits(n: nat, h: nat, t: nat, u: nat)
    requires n == 100 * h + n % 100 && t == n % 100 / 10 && u == n % 10
    ensures t == n / 10 % 10 && u == n % 100 % 10
  {
    assert n % 100 == 10 * t + n % 100 % 10;
    assert n == 10 * (10 * h + t) + n % 100 % 10;
  }

  // ------------------------------------------------------- parsing it back

  lemma {:induction false} StripConcat(a: string, b: string)
    ensures StripSpace(a + b) == StripSpace(a) + StripSpace(b)
  {
    if a == "" {
      assert a + b == b;
    } else {
      StripConcat(a[1..], b);
      assert (a + b)[1..] == a[1..] + b;
      Associate(Kept(a[0]), StripSpace(a[1..]), StripSpace(b));
    }
  }

  lemma Associate(a: string, b: string, c: string)
    ensures a + (b + c) == (a + b) + c
  {
  }

  lemma {:induction false} HyphensConcat(a: string, b: string)
    ensures Hyphens(a + b) == Hyphens(a) + Hyphens(b)
  {
    if a == "" {
      assert a + b == b;
    } else {
      HyphensConcat(a[1..], b);
      assert (a + b)[1..] == a[1..] + b;
      Associate([Hyphen(a[0])], Hyphens(a[1..]), Hyphens(b));
    }
  }

  lemma PrepareConcat(a: string, b: string)
    ensures Prepare(a + b) == Prepare(a) + Prepare(b)
  {
    StripConcat(a, b);
    HyphensConcat(StripSpace(a), StripSpace(b));
  }

  /** Neither a blank nor a dash to rewrite. */
  predicate Fixed(c: char) {
    !IsSpace(c) && Hyphen(c) == c
  }

  lemma {:induction false} PrepareFixed(s: string)
    requires forall i :: 0 <= i < |s| ==> Fixed(s[i])
    ensures Prepare(s) == s
  {
    if s != "" {
      PrepareFixed(s[1..]);
      PrepareOne(s[0]);
      PrepareConcat([s[0]], s[1..]);
      assert [s[0]] + s[1..] == s;
    }
  }

  lemma PrepareOne(c: char)
    ensures Prepare([c]) == if IsSpace(c) then "" else [Hyphen(c)]
  {
    assert [c][1..] == "";
    assert StripSpace([c]) == Kept(c) + "" == Kept(c);
    assert Hyphens([c]) == [Hyphen(c)] + "" == [Hyphen(c)];
  }

  lemma PrepareSeparator(first: bool, left: nat)
    ensures Prepare(Separator(first, left)) == ""
  {
    PrepareOne(NBSP);
  }

  lemma {:induction false} PrepareGroup(s: string, first: bool)
    requires AllDigits(s)
    ensures Prepare(Group(s, first)) == s
  {
    if s != "" {
      var sep, rest := Separator(first, |s|), Group(s[1..], false);
      PrepareGroup(s[1..], false);
      PrepareThree(sep, s[0], rest);
      PrepareSeparator(first, |s|);
      GroupStep(s, first);
    }
  }

  lemma PrepareThree(sep: string, c: char, rest: string)
    requires Fixed(c)
    ensures Prepare(sep + [c] + rest) == Prepare(sep) + [c] + Prepare(rest)
  {
    PrepareConcat(sep + [c], rest);
    PrepareConcat(sep, [c]);
    PrepareOne(c);
  }

  /** A digit, a minus sign, a comma or a point. */
  predicate PlainChar(c: char) {
    IsDigit(c) || c == '-' || c == ',' || c == '.'
  }

  predicate Plain(s: string) {
    forall i :: 0 <= i < |s| ==> PlainChar(s[i])
  }

  lemma {:induction false} NoMatch(s: string, symbols: seq<string>)
    requires s != "" && PlainChar(s[0])
    requires forall i :: 0 <= i < |symbols| ==> symbols[i] != "" && !PlainChar(symbols[i][0])
    ensures MatchLength(s, symbols) == 0
    decreases |symbols|
  {
    if symbols != [] {
      assert Upper(s[0]) == s[0];
      NoMatch(s, symbols[1..]);
    }
  }

  lemma SymbolsAreNotPlain()
    ensures forall i :: 0 <= i < |SYMBOLS| ==> SYMBOLS[i] != "" && !PlainChar(SYMBOLS[i][0])
  {
  }

  lemma {:induction false} RemovePlain(a: string, b: string)
    requires Plain(a)
    ensures RemoveSymbols(a + b) == a + RemoveSymbols(b)
  {
    if a == "" {
      assert a + b == b;
    } else {
      RemovePlain(a[1..], b);
      assert (a + b)[1..] == a[1..] + b;
      assert (a + b)[0] == a[0];
      SymbolsAreNotPlain();
      NoMatch(a + b, SYMBOLS);
      Associate([a[0]], a[1..], RemoveSymbols(b));
      assert [a[0]] + a[1..] == a;
    }
  }

  lemma {:induction false} MatchAt(s: string, symbols: seq<string>, k: nat)
    requires k < |symbols| && StartsWith(s, symbols[k])
    requires forall i :: 0 <= i < k ==> !StartsWith(s, symbols[i])
    ensures MatchLength(s, symbols) == |symbols[k]|
    decreases k
  {
    if k > 0 {
      MatchAt(s, symbols[1..], k - 1);
    }
  }

  lemma {:induction false} CommaAbsent(s: string)
    requires ',' !in s
    ensures CommaToPoint(s) == s
  {
    if s != "" {
      CommaAbsent(s[1..]);
    }
  }

  lemma {:induction false} CommaFirst(a: string, b: string)
    requires ',' !in a
    ensures CommaToPoint(a + "," + b) == a + "." + b
  {
    if a == "" {
      assert a + "," + b == "," + b;
    } else {
      CommaFirst(a[1..], b);
      assert (a + "," + b)[1..] == a[1..] + "," + b;
    }
  }

  /** The position in `SYMBOLS` of each symbol the printer appends. */
  function SymbolIndex(symbol: string): nat {
    if symbol == "FCFA" then 0 else if symbol == "GNF" then 3 else if symbol == "GH\U{20B5}" then 6 else 7
  }

  predicate IsSymbol(s: string) {
    s == "FCFA" || s == "GNF" || s == "GH\U{20B5}" || s == "\U{20A6}"
  }

  lemma SymbolVanishes(s: string)
    requires IsSymbol(s)
    ensures RemoveSymbols(s) == ""
  {
    var k := SymbolIndex(s);
    assert SYMBOLS[k] == s;
    forall i | 0 <= i < |s| ensures Upper(s[i]) == SYMBOLS[k][i] {
    }
    forall i | 0 <= i < k ensures !StartsWith(s, SYMBOLS[i]) {
      SymbolsDiffer(s, i);
    }
    MatchAt(s, SYMBOLS, k);
    assert s[|s|..] == "";
  }

  lemma SymbolsDiffer(s: string, i: nat)
    requires IsSymbol(s) && i < SymbolIndex(s)
    ensures !StartsWith(s, SYMBOLS[i])
  {
    var t := SYMBOLS[i];
    if |t| <= |s| {
      assert Upper(s[0]) != t[0] || Upper(s[1]) != t[1] || Upper(s[2]) != t[2];
    }
  }

  lemma SymbolIsFixed(s: string)
    requires IsSymbol(s)
    ensures Prepare(s) == s
  {
    forall i | 0 <= i < |s| ensures Fixed(s[i]) {
    }
    PrepareFixed(s);
  }

  function Sign(negative: bool): string {
    if negative then "-" else ""
  }

  lemma ReadInteger(negative: bool, w: string)
    requires w != "" && AllDigits(w)
    ensures ReadNumeral(Trim(CommaToPoint(Sign(negative) + w))) == Some(Numeral(negative, w, ""))
  {
    TrimInteger(negative, w);
    UnsignedOf(negative, w);
    SplitPlain(w, '.');
  }

  lemma UnsignedOf(negative: bool, s: string)
    requires s != "" && IsDigit(s[0])
    ensures HasMinus(Sign(negative) + s) == negative && Unsigned(Sign(negative) + s) == s
  {
    assert !negative ==> Sign(negative) + s == s;
    assert negative ==> (Sign(negative) + s)[1..] == s;
  }

  lemma TrimInteger(negative: bool, w: string)
    requires w != "" && AllDigits(w)
    ensures Trim(CommaToPoint(Sign(negative) + w)) == Sign(negative) + w
  {
    var s := Sign(negative) + w;
    CommaAbsent(s);
    assert s[|s| - 1] == w[|w| - 1];
    TrimIdentity(s);
  }

  lemma DigitsHaveNoComma(negative: bool, w: string)
    requires AllDigits(w)
    ensures ',' !in Sign(negative) + w
  {
  }

  lemma TrimEnds(a: string, b: string)
    requires a != "" && b != "" && !IsSpace(a[0]) && !IsSpace(b[|b| - 1])
    ensures Trim(a + "." + b) == a + "." + b
  {
    var s := a + "." + b;
    assert s[0] == a[0] && s[|s| - 1] == b[|b| - 1];
    TrimIdentity(s);
  }

  lemma TrimDecimal(negative: bool, w: string, f: string)
    requires w != "" && AllDigits(w) && f != "" && AllDigits(f)
    ensures Trim(CommaToPoint(Sign(negative) + w + "," + f)) == Sign(negative) + (w + "." + f)
  {
    DigitsHaveNoComma(negative, w);
    CommaFirst(Sign(negative) + w, f);
    TrimEnds(Sign(negative) + w, f);
    Regroup(Sign(negative), w, ".", f);
  }

  lemma Regroup(a: string, b: string, c: string, d: string)
    ensures a + b + c + d == a + (b + c + d)
  {
  }

  lemma SplitDecimal(w: string, f: string)
    requires AllDigits(w) && AllDigits(f)
    ensures Split(w + "." + f, '.') == [w, f]
  {
    SplitPlain(f, '.');
    SplitAt(w, f, '.');
  }

  lemma ReadTwoParts(negative: bool, w: string, f: string)
    requires w != "" && AllDigits(w) && f != "" && AllDigits(f)
    ensures ReadParts(negative, [w, f]) == Some(Numeral(negative, w, f))
  {
  }

  lemma ReadDecimal(negative: bool, w: string, f: string)
    requires w != "" && AllDigits(w) && f != "" && AllDigits(f)
    ensures ReadNumeral(Trim(CommaToPoint(Sign(negative) + w + "," + f))) == Some(Numeral(negative, w, f))
  {
    TrimDecimal(negative, w, f);
    SplitDecimal(w, f);
    UnsignedOf(negative, w + "." + f);
    ReadTwoParts(negative, w, f);
  }

  /** A printed amount without its separators. */
  function PlainBody(n: nat, decimals: nat): string {
    if decimals == 0 then Decimal(n) else Decimal(n / 100) + "," + TwoDigits(n % 100)
  }

  lemma PrepareBody(n: nat, decimals: nat)
    ensures Prepare(Body(n, decimals)) == PlainBody(n, decimals)
  {
    if decimals == 0 {
      PrepareGroup(Decimal(n), true);
    } else {
      var w, f := Group(Decimal(n / 100), true), "," + TwoDigits(n % 100);
      PrepareGroup(Decimal(n / 100), true);
      PrepareFixed(f);
      PrepareConcat(w, f);
      assert w + "," + TwoDigits(n % 100) == w + f;
      assert Decimal(n / 100) + "," + TwoDigits(n % 100) == Decimal(n / 100) + f;
    }
  }

  lemma PrepareSigned(negative: bool, body: string)
    ensures Prepare((if negative then [MINUS] else "") + body) == Sign(negative) + Prepare(body)
  {
    PrepareConcat(if negative then [MINUS] else "", body);
    PrepareOne(MINUS);
  }

  lemma PrepareFormatted(amount: int, code: string)
    requires FormatAmount(amount, code).Ok?
    ensures Prepare(FormatAmount(amount, code).value) ==
            Sign(amount < 0) + PlainBody(Abs(amount), GetCurrency(code).value.decimals)
  {
    var body := Body(Abs(amount), GetCurrency(code).value.decimals);
    PrepareSigned(amount < 0, body);
    PrepareBody(Abs(amount), GetCurrency(code).value.decimals);
    assert "" + body == body;
  }

  lemma CleanPrepared(s: string, plain: string, symbol: string)
    requires Prepare(s) == plain && Plain(plain) && IsSymbol(symbol)
    ensures Clean(s) == Trim(CommaToPoint(plain))
    ensures Clean(s + [NBSP] + symbol) == Trim(CommaToPoint(plain))
  {
    RemovePlain(plain, "");
    assert plain + "" == plain;
    PrepareConcat(s + [NBSP], symbol);
    PrepareConcat(s, [NBSP]);
    PrepareOne(NBSP);
    SymbolIsFixed(symbol);
    RemovePlain(plain, symbol);
    SymbolVanishes(symbol);
  }

  lemma NatOfTwoDigits(w: string, n: nat)
    requires AllDigits(w) && n < 100
    ensures NatOf(w + TwoDigits(n)) == 100 * NatOf(w) + n
  {
    var one := w + [DigitChar(n / 10)];
    var two := w + TwoDigits(n);
    assert two[..|two| - 1] == one && one[..|one| - 1] == w;
    assert NatOf(two) == 10 * NatOf(one) + n % 10;
    assert NatOf(one) == 10 * NatOf(w) + n / 10;
  }

  lemma IntegerValue(amount: int)
    ensures var n := Numeral(amount < 0, Decimal(Abs(amount)), "");
            WellFormed(n) && Value(n) == amount as real
  {
    var n := Abs(amount);
    NatOfDecimal(n);
    WholeValue(amount < 0, Decimal(n), n);
  }

  lemma WholeValue(negative: bool, w: string, n: nat)
    requires w != "" && AllDigits(w) && NatOf(w) == n
    ensures Value(Numeral(negative, w, "")) == if negative then -(n as real) else n as real
  {
    assert w + "" == w;
    assert Power10(|""|) == 1;
  }

  lemma ScaledInteger(amount: int, a: Arithmetic)
    requires IsHost(a) && IsSafe(amount)
    ensures Scaled(Numeral(amount < 0, Decimal(Abs(amount)), ""), 0, a) == amount
  {
    IntegerValue(amount);
    assert amount as real * 1.0 == amount as real;
    assert (amount as real + 0.5).Floor == amount;
  }

  lemma DecimalValue(amount: int)
    ensures var n := Numeral(amount < 0, Decimal(Abs(amount) / 100), TwoDigits(Abs(amount) % 100));
            WellFormed(n) && Value(n) == amount as real / 100.0
  {
    var n := Abs(amount);
    NatOfTwoDigits(Decimal(n / 100), n % 100);
    NatOfDecimal(n / 100);
    HundredOrOne();
    assert NatOf(Decimal(n / 100) + TwoDigits(n % 100)) == n;
  }

  /** An amount that doubles never blur: of a currency without decimals, or below 2^51. */
  predicate IsSharp(amount: int, decimals: nat) {
    decimals == 0 || Abs(amount) < 2251799813685248
  }

  lemma SharpIsNearest(amount: int, a: Arithmetic)
    requires a.Exact? || IsSharp(amount, 2)
    ensures Nearest(amount, amount as real, Slack(a, Size(amount as real)))
  {
  }

  lemma HundredthIsNearest(amount: int, a: Arithmetic)
    requires a.Exact? || IsSharp(amount, 2)
    ensures IsNearest(amount, amount as real / 100.0, 2, a)
  {
    SharpIsNearest(amount, a);
    assert Units(amount as real / 100.0, 2) == amount as real;
  }

  lemma ScaledDecimal(amount: int, a: Arithmetic)
    requires IsHost(a) && (a.Exact? || IsSharp(amount, 2))
    ensures Scaled(Numeral(amount < 0, Decimal(Abs(amount) / 100), TwoDigits(Abs(amount) % 100)), 2, a) == amount
  {
    DecimalValue(amount);
    HundredthIsNearest(amount, a);
    ScaledNearest(amount as real / 100.0, 2, a, amount);
  }

  lemma ReadPlain(amount: int, decimals: nat, a: Arithmetic)
    requires decimals == 0 || decimals == 2
    requires IsHost(a) && IsSafe(amount) && (a.Exact? || IsSharp(amount, decimals))
    ensures var n := ReadNumeral(Trim(CommaToPoint(Sign(amount < 0) + PlainBody(Abs(amount), decimals))));
            n.Some? && Scaled(n.value, decimals, a) == amount
  {
    var n := Abs(amount);
    if decimals == 0 {
      ReadInteger(amount < 0, Decimal(n));
      ScaledInteger(amount, a);
    } else {
      var w, f := Decimal(n / 100), TwoDigits(n % 100);
      Regroup(Sign(amount < 0), w, ",", f);
      ReadDecimal(amount < 0, w, f);
      ScaledDecimal(amount, a);
    }
  }

  /**
   Parsing undoes printing for every supported currency, with and without its symbol: in
   exact arithmetic for every safe amount, in doubles for every sharp one. The printer
   refuses anything else.
   */
  lemma ParseUndoesFormat(amount: int, code: string, a: Arithmetic)
    requires IsHost(a)
    ensures FormatAmount(amount, code).Ok? <==> IsSafe(amount) && GetCurrency(code).Some?
    ensures FormatMoney(amount, code).Ok? <==> IsSafe(amount) && GetCurrency(code).Some?
    ensures IsSafe(amount) && GetCurrency(code).Some?
            && (a.Exact? || IsSharp(amount, GetCurrency(code).value.decimals)) ==>
              && ParseAmount(FormatAmount(amount, code).value, code, a) == Ok(Some(amount))
              && ParseAmount(FormatMoney(amount, code).value, code, a) == Ok(Some(amount))
  {
    if FormatAmount(amount, code).Ok? && (a.Exact? || IsSharp(amount, GetCurrency(code).value.decimals)) {
      ParsePrinted(amount, code, a);
    }
  }

  lemma CleanFormatted(amount: int, code: string)
    requires FormatAmount(amount, code).Ok?
    ensures var plain := Trim(CommaToPoint(
              Sign(amount < 0) + PlainBody(Abs(amount), GetCurrency(code).value.decimals)));
            Clean(FormatAmount(amount, code).value) == plain == Clean(FormatMoney(amount, code).value)
  {
    var currency := GetCurrency(code).value;
    PrepareFormatted(amount, code);
    CleanPrepared(FormatAmount(amount, code).value,
                  Sign(amount < 0) + PlainBody(Abs(amount), currency.decimals), currency.symbol);
  }

  lemma ParsePrinted(amount: int, code: string, a: Arithmetic)
    requires FormatAmount(amount, code).Ok? && IsHost(a)
    requires a.Exact? || IsSharp(amount, GetCurrency(code).value.decimals)
    ensures ParseAmount(FormatAmount(amount, code).value, code, a) == Ok(Some(amount))
    ensures ParseAmount(FormatMoney(amount, code).value, code, a) == Ok(Some(amount))
  {
    CleanFormatted(amount, code);
    ReadPlain(amount, GetCurrency(code).value.decimals, a);
    ParseCleaned(FormatAmount(amount, code).value, code, amount, a);
    ParseCleaned(FormatMoney(amount, code).value, code, amount, a);
  }

  lemma ParseCleaned(s: string, code: string, amount: int, a: Arithmetic)
    requires GetCurrency(code).Some? && IsSafe(amount)
    requires ReadNumeral(Clean(s)).Some?
    requires Scaled(ReadNumeral(Clean(s)).value, GetCurrency(code).value.decimals, a) == amount
    ensures ParseAmount(s, code, a) == Ok(Some(amount))
  {
  }

  lemma ParseRead(s: string, code: string, n: Numeral, a: Arithmetic)
    requires GetCurrency(code).Some? && ReadNumeral(Clean(s)) == Some(n)
    ensures var r := Scaled(n, GetCurrency(code).value.decimals, a);
            ParseAmount(s, code, a) == Ok(if IsSafe(r) then Some(r) else None)
  {
  }

  /** Two amounts never print alike. */
  lemma FormatIsInjective(a: int, b: int, code: string)
    requires IsSafe(a) && IsSafe(b) && GetCurrency(code).Some?
    ensures FormatAmount(a, code) == FormatAmount(b, code) ==> a == b
    ensures FormatMoney(a, code) == FormatMoney(b, code) ==> a == b
  {
    ParseUndoesFormat(a, code, Exact);
    ParseUndoesFormat(b, code, Exact);
  }

  lemma CleanTyped(negative: bool, w: string, f: string)
    requires w != "" && AllDigits(w) && f != "" && AllDigits(f)
    ensures Clean(Sign(negative) + w + "," + f) == Trim(CommaToPoint(Sign(negative) + w + "," + f))
  {
    var s := Sign(negative) + w + "," + f;
    forall i | 0 <= i < |s| ensures PlainChar(s[i]) && Fixed(s[i]) {
    }
    PrepareFixed(s);
    CleanPrepared(s, s, "GNF");
  }

  lemma TypedNumeral(negative: bool, w: string, f: string)
    requires w != "" && AllDigits(w) && f != "" && AllDigits(f)
    ensures ReadNumeral(Clean(Sign(negative) + w + "," + f)) == Some(Numeral(negative, w, f))
  {
    CleanTyped(negative, w, f);
    ReadDecimal(negative, w, f);
  }

  /**
   A typed decimal, of any number of decimals, is read as the nearest amount, and refused
   exactly when that amount is not a safe integer: whenever it is farther from a tie than
   the host's rounding can reach. In exact arithmetic that is always, the upper amount
   being nearest on a tie.
   */
  lemma ParseRoundsToNearest(negative: bool, w: string, f: string, code: string, a: Arithmetic, r: int)
    requires w != "" && AllDigits(w) && f != "" && AllDigits(f) && GetCurrency(code).Some? && IsHost(a)
    requires IsNearest(r, Value(Numeral(negative, w, f)), GetCurrency(code).value.decimals, a)
    ensures ParseAmount(Sign(negative) + w + "," + f, code, a) == Ok(if IsSafe(r) then Some(r) else None)
  {
    TypedNumeral(negative, w, f);
    ScaledNearest(Value(Numeral(negative, w, f)), GetCurrency(code).value.decimals, a, r);
    ParseRead(Sign(negative) + w + "," + f, code, Numeral(negative, w, f), a);
  }

  // ------------------------------------------------- what may be typed

  /** The text of a numeral. */
  predicate IsNumeral(s: string, n: Numeral) {
    && n.whole != "" && AllDigits(n.whole) && AllDigits(n.fraction)
    && s == (if n.negative then "-" else "") + n.whole + (if n.fraction == "" then "" else "." + n.fraction)
  }

  lemma {:induction false} SplitBack(s: string, c: char)
    ensures var parts := Split(s, c);
            && (|parts| == 1 ==> s == parts[0])
            && (|parts| == 2 ==> s == parts[0] + [c] + parts[1])
  {
    if s != "" {
      SplitBack(s[1..], c);
      assert s == [s[0]] + s[1..];
    }
  }

  lemma ReadIsNumeral(s: string, n: Numeral)
    requires ReadNumeral(s) == Some(n)
    ensures IsNumeral(s, n)
  {
    var u := Unsigned(s);
    SplitBack(u, '.');
    PartsAre(HasMinus(s), Split(u, '.'), n);
    assert s == Sign(HasMinus(s)) + u;
    if n.fraction == "" {
      assert Sign(n.negative) + n.whole + "" == Sign(n.negative) + n.whole;
    } else {
      Glued(Sign(n.negative), n.whole, n.fraction);
    }
  }

  lemma PartsAre(negative: bool, parts: seq<string>, n: Numeral)
    requires parts != [] && ReadParts(negative, parts) == Some(n)
    ensures n.negative == negative && n.whole != "" && AllDigits(n.whole) && AllDigits(n.fraction)
    ensures if n.fraction == "" then |parts| == 1 && parts[0] == n.whole
            else |parts| == 2 && parts[0] == n.whole && parts[1] == n.fraction
  {
  }

  lemma Glued(a: string, b: string, c: string)
    ensures a + b + ("." + c) == a + (b + "." + c) == a + (b + ['.'] + c)
  {
  }

  lemma IntegerIsRead(s: string, negative: bool, w: string)
    requires w != "" && AllDigits(w) && s == Sign(negative) + w
    ensures ReadNumeral(s) == Some(Numeral(negative, w, ""))
  {
    UnsignedOf(negative, w);
    SplitPlain(w, '.');
  }

  lemma DecimalIsRead(s: string, negative: bool, w: string, f: string)
    requires w != "" && AllDigits(w) && f != "" && AllDigits(f) && s == Sign(negative) + (w + "." + f)
    ensures ReadNumeral(s) == Some(Numeral(negative, w, f))
  {
    UnsignedOf(negative, w + "." + f);
    SplitDecimal(w, f);
    ReadTwoParts(negative, w, f);
  }

  lemma NumeralIsRead(s: string, n: Numeral)
    requires IsNumeral(s, n)
    ensures ReadNumeral(s) == Some(n)
  {
    var sign := Sign(n.negative);
    if n.fraction == "" {
      assert sign + n.whole + "" == sign + n.whole;
      IntegerIsRead(s, n.negative, n.whole);
    } else {
      Glued(sign, n.whole, n.fraction);
      DecimalIsRead(s, n.negative, n.whole, n.fraction);
    }
  }

  lemma NumeralExactly(s: string, n: Numeral)
    ensures ReadNumeral(s) == Some(n) <==> IsNumeral(s, n)
  {
    if ReadNumeral(s) == Some(n) {
      ReadIsNumeral(s, n);
    }
    if IsNumeral(s, n) {
      NumeralIsRead(s, n);
    }
  }

  /** What is read is a numeral once blanks, dashes and symbols are out of the way, and makes a safe amount. */
  lemma ParsedExactly(s: string, code: string, a: Arithmetic, r: int)
    requires GetCurrency(code).Some?
    ensures ParseAmount(s, code, a) == Ok(Some(r)) <==>
            IsSafe(r) && exists n :: IsNumeral(Clean(s), n) && Scaled(n, GetCurrency(code).value.decimals, a) == r
    ensures ParseAmount(s, code, a).Ok?
  {
    var read := ReadNumeral(Clean(s));
    if read.Some? {
      NumeralExactly(Clean(s), read.value);
    }
    if n :| IsNumeral(Clean(s), n) && Scaled(n, GetCurrency(code).value.decimals, a) == r {
      NumeralExactly(Clean(s), n);
    }
  }

  /** `s` spells the symbol `t`, in letters of either case. */
  predicate Spells(s: string, t: string) {
    |s| == |t| && forall i :: 0 <= i < |s| ==> s[i] == t[i] || ('a' <= s[i] <= 'z' && s[i] as int - 32 == t[i] as int)
  }

  /** Nothing, or a symbol or code of a currency. */
  predicate IsUnit(s: string) {
    || s == "" || Spells(s, "FCFA") || Spells(s, "XOF") || Spells(s, "XAF") || Spells(s, "GNF")
    || Spells(s, "NGN") || Spells(s, "GHS") || Spells(s, "GH\U{20B5}") || Spells(s, "\U{20A6}")
  }

  lemma UnitIndex(s: string) returns (k: nat)
    requires IsUnit(s) && s != ""
    ensures k < |SYMBOLS| && Spells(s, SYMBOLS[k])
  {
    k := if Spells(s, "FCFA") then 0 else if Spells(s, "XOF") then 1 else if Spells(s, "XAF") then 2
    else if Spells(s, "GNF") then 3 else if Spells(s, "NGN") then 4 else if Spells(s, "GHS") then 5
    else if Spells(s, "GH\U{20B5}") then 6 else 7;
  }

  lemma SpelledStarts(s: string, k: nat, rest: string)
    requires k < |SYMBOLS| && Spells(s, SYMBOLS[k])
    ensures StartsWith(s + rest, SYMBOLS[k])
  {
    forall i | 0 <= i < |s| ensures Upper((s + rest)[i]) == SYMBOLS[k][i] {
      SymbolsHaveNoSmall(k, i);
    }
  }

  lemma SymbolsHaveNoSmall(k: nat, i: nat)
    requires k < |SYMBOLS| && i < |SYMBOLS[k]|
    ensures !('a' <= SYMBOLS[k][i] <= 'z')
  {
  }

  predicate DifferAt(s: string, t: string, i: int) {
    0 <= i < |s| && i < |t| && s[i] != t[i]
  }

  /** No symbol begins with another. */
  lemma SymbolsPart(j: nat, k: nat)
    requires j < k < |SYMBOLS|
    ensures exists i :: DifferAt(SYMBOLS[j], SYMBOLS[k], i)
  {
    var i := if DifferAt(SYMBOLS[j], SYMBOLS[k], 0) then 0 else if DifferAt(SYMBOLS[j], SYMBOLS[k], 1) then 1 else 2;
    assert DifferAt(SYMBOLS[j], SYMBOLS[k], i);
  }

  lemma OneSymbolStarts(s: string, j: nat, k: nat)
    requires j < k < |SYMBOLS| && StartsWith(s, SYMBOLS[k])
    ensures !StartsWith(s, SYMBOLS[j])
  {
    SymbolsPart(j, k);
    var i :| DifferAt(SYMBOLS[j], SYMBOLS[k], i);
    assert Upper(s[i]) == SYMBOLS[k][i];
  }

  lemma UnitVanishes(s: string, rest: string)
    requires IsUnit(s)
    ensures RemoveSymbols(s + rest) == RemoveSymbols(rest)
  {
    if s == "" {
      assert s + rest == rest;
    } else {
      var k := UnitIndex(s);
      SpelledStarts(s, k, rest);
      forall j | 0 <= j < k ensures !StartsWith(s + rest, SYMBOLS[j]) {
        OneSymbolStarts(s + rest, j, k);
      }
      MatchAt(s + rest, SYMBOLS, k);
      assert (s + rest)[|s|..] == rest;
    }
  }

  /** A minus as it is typed or printed, or none. */
  predicate IsDash(s: string) {
    s == "" || s == "-" || s == "\U{2212}" || s == "\U{2013}" || s == "\U{2014}"
  }

  lemma DashIsMinus(s: string)
    requires IsDash(s)
    ensures Hyphens(s) == Sign(s != "")
  {
    if s != "" {
      assert s == [s[0]] && s[1..] == "";
    }
  }

  lemma {:induction false} HyphensFixed(s: string)
    requires forall i :: 0 <= i < |s| ==> Hyphen(s[i]) == s[i]
    ensures Hyphens(s) == s
  {
    if s != "" {
      HyphensFixed(s[1..]);
      assert s == [s[0]] + s[1..];
    }
  }

  /** Digits, and perhaps a comma or a point and more digits. */
  predicate IsTyped(body: string, w: string, f: string) {
    && w != "" && AllDigits(w) && AllDigits(f)
    && (if f == "" then body == w else body == w + "," + f || body == w + "." + f)
  }

  lemma HyphensOfTyped(before: string, dash: string, body: string, after: string)
    requires IsUnit(before) && IsDash(dash) && Plain(body) && IsUnit(after)
    ensures Hyphens(before + dash + body + after) == before + (Sign(dash != "") + body) + after
  {
    HyphensOfFour(before, dash, body, after);
    DashIsMinus(dash);
    UnitIsFixed(before);
    UnitIsFixed(after);
    HyphensFixed(body);
    Associate(before, Sign(dash != ""), body);
  }

  lemma HyphensOfFour(a: string, b: string, c: string, d: string)
    ensures Hyphens(a + b + c + d) == Hyphens(a) + Hyphens(b) + Hyphens(c) + Hyphens(d)
  {
    HyphensConcat(a + b + c, d);
    HyphensConcat(a + b, c);
    HyphensConcat(a, b);
  }

  lemma UnitIsFixed(s: string)
    requires IsUnit(s)
    ensures Hyphens(s) == s
  {
    forall i | 0 <= i < |s| ensures Hyphen(s[i]) == s[i] {
    }
    HyphensFixed(s);
  }

  lemma UnitsVanish(before: string, plain: string, after: string)
    requires IsUnit(before) && Plain(plain) && IsUnit(after)
    ensures RemoveSymbols(before + plain + after) == plain
  {
    assert before + plain + after == before + (plain + after);
    UnitVanishes(before, plain + after);
    RemovePlain(plain, after);
    UnitVanishes(after, "");
    assert after + "" == after && plain + "" == plain;
  }

  lemma PointAtMostOnce(negative: bool, body: string, w: string, f: string)
    requires IsTyped(body, w, f)
    ensures ReadNumeral(Trim(CommaToPoint(Sign(negative) + body))) == Some(Numeral(negative, w, f))
  {
    if f == "" {
      ReadInteger(negative, w);
    } else if body == w + "." + f {
      PointIsKept(negative, w, f);
      DecimalIsRead(Sign(negative) + (w + "." + f), negative, w, f);
    } else {
      ReadDecimal(negative, w, f);
      Regroup(Sign(negative), w, ",", f);
    }
  }

  lemma PointIsKept(negative: bool, w: string, f: string)
    requires w != "" && AllDigits(w) && f != "" && AllDigits(f)
    ensures var s := Sign(negative) + (w + "." + f); Trim(CommaToPoint(s)) == s
  {
    CommaAbsent(Sign(negative) + (w + "." + f));
    Regroup(Sign(negative), w, ".", f);
    TrimEnds(Sign(negative) + w, f);
  }

  lemma TypedIsPlain(negative: bool, body: string, w: string, f: string)
    requires IsTyped(body, w, f)
    ensures Plain(body) && Plain(Sign(negative) + body)
  {
  }

  /**
   However it is typed, a numeral is read as itself: with blanks anywhere, a symbol or code
   of any currency in letters of either case on either side, any of four dashes for a
   minus, and a comma or a point for the decimals.
   */
  lemma SpellingsAreRead(x: string, before: string, dash: string, body: string, after: string, w: string, f: string)
    requires StripSpace(x) == before + dash + body + after
    requires IsUnit(before) && IsDash(dash) && IsTyped(body, w, f) && IsUnit(after)
    ensures ReadNumeral(Clean(x)) == Some(Numeral(dash != "", w, f))
  {
    var plain := Sign(dash != "") + body;
    TypedIsPlain(dash != "", body, w, f);
    HyphensOfTyped(before, dash, body, after);
    UnitsVanish(before, plain, after);
    PointAtMostOnce(dash != "", body, w, f);
  }

  lemma ParseTyped(w: string, f: string, a: Arithmetic, r: int)
    requires w != "" && AllDigits(w) && f != "" && AllDigits(f) && IsSafe(r)
    requires Scaled(Numeral(false, w, f), 2, a) == r
    ensures ParseAmount(w + "," + f, "NGN", a) == Ok(Some(r))
  {
    TypedNumeral(false, w, f);
    assert Sign(false) + w + "," + f == w + "," + f;
    ParseRead(w + "," + f, "NGN", Numeral(false, w, f), a);
  }

  /** A typed decimal, step by step: its value, the value rounded, and that scaled and rounded. */
  lemma ParseSteps(w: string, f: string, a: Arithmetic, v: real, value: real, scaled: real)
    requires w != "" && AllDigits(w) && f != "" && AllDigits(f) && Value(Numeral(false, w, f)) == v
    requires Round(a, v) == value && Round(a, value * 100.0) == scaled && IsSafe(MathRound(scaled))
    ensures ParseAmount(w + "," + f, "NGN", a) == Ok(Some(MathRound(scaled)))
  {
    ParseTyped(w, f, a, MathRound(scaled));
  }

  /**
   Doubles miss a tie: 1.005 is a little less than that as a double, and its hundredfold
   is read as 100, where exact arithmetic reads 101. The two numbers are the doubles
   nearest to 1.005 and to a hundred times the first.
   */
  lemma TiesAreMissed(round: real -> real)
    requires round(1.005) == 1.00499999999999989341858963598497211933135986328125
    requires round(100.499999999999989341858963598497211933135986328125) ==
             100.4999999999999857891452847979962825775146484375
    ensures ParseAmount("1,005", "NGN", Double(round)) == Ok(Some(100))
    ensures ParseAmount("1,005", "NGN", Exact) == Ok(Some(101))
  {
    ThousandAndFive();
    assert "1" + "," + "005" == "1,005";
    ParseSteps("1", "005", Double(round), 1.005, round(1.005), 100.4999999999999857891452847979962825775146484375);
    ParseSteps("1", "005", Exact, 1.005, 1.005, 100.5);
  }

  lemma ThousandAndFive()
    ensures AllDigits("1") && AllDigits("005") && Value(Numeral(false, "1", "005")) == 1.005
  {
    HundredOrOne();
    assert "1" + "005" == "1005";
    assert "1005"[..3] == "100" && "100"[..2] == "10" && "10"[..1] == "1" && "1"[..0] == "";
    assert NatOf("1005") == 1005 by {
      assert NatOf("1") == 1;
      assert NatOf("10") == 10;
      assert NatOf("100") == 100;
    }
    assert Power10(3) == 1000;
  }

  /** Of a large amount with decimals, doubles lose a unit: 86 129 755 951 702,07 is read back as ,06. */
  lemma LargeAmountLosesAUnit(round: real -> real, w: string)
    requires w != "" && AllDigits(w) && NatOf(w) == 86129755951702
    requires round(86129755951702.07) == 86129755951702.0625
    requires round(8612975595170206.25) == 8612975595170206.0
    ensures ParseAmount(w + "," + "07", "NGN", Double(round)) == Ok(Some(8612975595170206))
    ensures ParseAmount(w + "," + "07", "NGN", Exact) == Ok(Some(8612975595170207))
  {
    assert "07" == TwoDigits(7);
    NatOfTwoDigits(w, 7);
    HundredOrOne();
    ParseSteps(w, "07", Double(round), 86129755951702.07, 86129755951702.0625, 8612975595170206.0);
    ParseSteps(w, "07", Exact, 86129755951702.07, 86129755951702.07, 8612975595170207.0);
  }

  // -------------------------------------------------------- amount arithmetic

  function ApplyBasisPoints(amount: int, basisPoints: int): Result<int, Error> {
    if !IsSafe(amount) then Err(UnsafeAmount)
    else if basisPoints < 0 then Err(BadBasisPoints)
    else Ok(RoundDiv(amount * basisPoints, 10000))
  }

  function Max(a: int, b: int): int {
    if a < b then b else a
  }

  function Min(a: int, b: int): int {
    if b < a then b else a
  }

  function ClampAmount(amount: int, min: Option<int>, max: Option<int>): int {
    var low := if min.Some? then Max(amount, min.value) else amount;
    if max.Some? then Min(low, max.value) else low
  }
}
