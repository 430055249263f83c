/**
 Phone numbers (packages/utils/src/phone.ts, packages/utils/src/phone-country.ts): from
 the spellings people type to the international form of ITU-T E.164, section 6.2, and
 to the grouped form that is displayed.
 */
module Phone {
  import opened Text

  /** `legacy` is the length of the old numbering plan and the prefix that migrates it. */
  datatype Rule = Rule(country: string, dial: string, length: nat, legacy: Option<Legacy>)

  datatype Legacy = Legacy(length: nat, prefix: string)

  /** Every country of the registry admits exactly one national length. */
  const RULES: seq<Rule> := [
    Rule("BJ", "229", 10, Some(Legacy(8, "01"))),
    Rule("CI", "225", 10, None),
    Rule("SN", "221", 9, None),
    Rule("TG", "228", 8, None),
    Rule("BF", "226", 8, None),
    Rule("ML", "223", 8, None),
    Rule("NE", "227", 8, None),
    Rule("GN", "224", 9, None),
    Rule("GH", "233", 9, None),
    Rule("NG", "234", 10, None),
    Rule("CM", "237", 9, None)]

  const BENIN := RULES[0]

  datatype Error = Empty | NotNumeric | BadLength | BadCountry | UnknownCountry

  // --------------------------------------------------------------- characters

  function OnlyDigit(c: char): string {
    if IsDigit(c) then [c] else ""
  }

  /** `replace(/\D/g, '')` */
  function Digits(s: string): (r: string)
    ensures AllDigits(r)
  {
    if s == "" then "" else OnlyDigit(s[0]) + Digits(s[1..])
  }

  predicate HasPlus(s: string) {
    s != "" && s[0] == '+'
  }

  /** `^(\+|00)` */
  predicate IsInternational(s: string) {
    HasPlus(s) || "00" <= s
  }

  function DropDoubleZero(s: string): string {
    if "00" <= s then s[2..] else s
  }

  // ------------------------------------------------- the rule of one country

  /** The national digits, once the country's dialling code is taken off. */
  function StripDial(digits: string, hadPlus: bool, dial: string, length: nat): string {
    if "00" + dial <= digits then digits[2 + |dial|..]
    else if dial <= digits && (hadPlus || |digits| > length) then digits[|dial|..]
    else digits
  }

  /** A trunk zero goes when it is exactly what makes the number too long. */
  function StripTrunk(national: string, length: nat): string {
    if "0" <= national && |national| == length + 1 then national[1..] else national
  }

  function Migrate(national: string, legacy: Option<Legacy>): string {
    if legacy.Some? && |national| == legacy.value.length then legacy.value.prefix + national else national
  }

  function NationalOf(digits: string, hadPlus: bool, rule: Rule): string {
    Migrate(StripTrunk(StripDial(digits, hadPlus, rule.dial, rule.length), rule.length), rule.legacy)
  }

  function NormalizeDigits(digits: string, hadPlus: bool, rule: Rule): Result<string, Error> {
    if digits == "" then Err(NotNumeric)
    else
      var national := NationalOf(digits, hadPlus, rule);
      if |national| != rule.length then Err(BadLength) else Ok("+" + rule.dial + national)
  }

  function NormalizeForRule(input: string, rule: Rule): Result<string, Error> {
    var raw := Trim(input);
    if raw == "" then Err(Empty) else NormalizeDigits(Digits(raw), HasPlus(raw), rule)
  }

  /**
   `toUpperCase`, as far as two-letter codes go: besides the small letters, two others
   have a capital among A to Z.
   */
  function Capital(c: char): char {
    if 'a' <= c <= 'z' then (c - 'a') + 'A'
    else if c == '\U{0131}' then 'I'
    else if c == '\U{017F}' then 'S'
    else c
  }

  function Capitals(s: string): string {
    if s == "" then "" else [Capital(s[0])] + Capitals(s[1..])
  }

  function RuleOf(country: string, rules: seq<Rule>): Option<Rule> {
    if rules == [] then None
    else if rules[0].country == country then Some(rules[0]) else RuleOf(country, rules[1..])
  }

  /** `normalizePhoneForCountry` */
  method NormalizePhoneForCountry(input: string, country: string) returns (r: Result<string, Error>)
    ensures r == match RuleOf(Capitals(country), RULES)
                 case None => Err(UnknownCountry)
                 case Some(rule) => NormalizeForRule(input, rule)
  {
    var found := RuleOf(Capitals(country), RULES);
    if found.None? {
      return Err(UnknownCountry);
    }
    var rule := found.value;
    var raw := Trim(input);
    if raw == "" {
      return Err(Empty);
    }
    var hadPlus := HasPlus(raw);
    var national := Digits(raw);
    if national == "" {
      return Err(NotNumeric);
    }
    if "00" + rule.dial <= national {
      national := national[2 + |rule.dial|..];
    } else if rule.dial <= national && (hadPlus || |national| > rule.length) {
      national := national[|rule.dial|..];
    }
    if "0" <= national && |national| != rule.length {
      var trimmed := national[1..];
      if |trimmed| == rule.length {
        national := trimmed;
      }
    }
    if rule.legacy.Some? && |national| == rule.legacy.value.length {
      national := rule.legacy.value.prefix + national;
    }
    if |national| != rule.length {
      return Err(BadLength);
    }
    return Ok("+" + rule.dial + national);
  }

  // ------------------------------------------------------- the default country

  function BeninNational(digits: string, hadPlus: bool): string {
    Migrate(StripDial(digits, hadPlus, "229", 10), Some(Legacy(8, "01")))
  }

  function BeninDigits(digits: string, hadPlus: bool): Result<string, Error> {
    if digits == "" then Err(NotNumeric)
    else
      var national := BeninNational(digits, hadPlus);
      if |national| != 10 then Err(BadLength)
      else if !("01" <= national) then Err(BadCountry)
      else Ok("+229" + national)
  }

  function Normalize(input: string): Result<string, Error> {
    var raw := Trim(input);
    if raw == "" then Err(Empty) else BeninDigits(Digits(raw), HasPlus(raw))
  }

  /** `normalizePhone` */
  method NormalizePhone(input: string) returns (r: Result<string, Error>)
    ensures r == Normalize(input)
  {
    var raw := Trim(input);
    if raw == "" {
      return Err(Empty);
    }
    var hadPlus := HasPlus(raw);
    var national := Digits(raw);
    if national == "" {
      return Err(NotNumeric);
    }
    if "00229" <= national {
      assert "00" + "229" == "00229";
      national := national[5..];
    } else if "229" <= national && (hadPlus || |national| > 10) {
      national := national[3..];
    }
    assert "00" + "229" == "00229";
    if |national| == 8 {
      national := "01" + national;
    }
    if |national| != 10 {
      return Err(BadLength);
    }
    if !("01" <= national) {
      return Err(BadCountry);
    }
    return Ok("+229" + national);
  }

  function ToOption(r: Result<string, Error>): Option<string> {
    match r
    case Ok(s) => Some(s)
    case Err(_) => None
  }

  // --------------------------------------------------------- any country at all

  /** The first rule whose dialling code the digits start with. */
  function FindRule(digits: string, rules: seq<Rule>): (r: Option<Rule>)
    ensures r.Some? ==> r.value in rules && r.value.dial <= digits
  {
    if rules == [] then None
    else if rules[0].dial <= digits then Some(rules[0]) else FindRule(digits, rules[1..])
  }

  /** The part of `tryNormalizeInternationalPhone` for a number that announces its country. */
  function NormalizeAnnounced(digits: string): Option<string> {
    match FindRule(digits, RULES)
    case None => None
    case Some(rule) => ToOption(NormalizeForRule("+" + digits, rule))
  }

  /** `tryNormalizeInternationalPhone`, with `tryNormalizePhone` as its fallback. */
  function TryNormalize(input: string): Option<string> {
    var raw := Trim(input);
    if IsInternational(raw) then NormalizeAnnounced(DropDoubleZero(Digits(raw))) else ToOption(Normalize(raw))
  }

  // ------------------------------------------------------------------- display

  datatype Parts = Parts(dial: string, national: string)

  function SplitE164(e164: string): Option<Parts> {
    match FindRule(Digits(e164), RULES)
    case None => None
    case Some(rule) => Some(Parts(rule.dial, Digits(e164)[|rule.dial|..]))
  }

  function ToNationalDigits(e164: string): Result<string, Error> {
    var digits := Digits(e164);
    var national := if "229" <= digits then digits[3..] else digits;
    if |national| != 10 then Err(BadLength) else Ok(national)
  }

  /** Two by two, separated by spaces. */
  function Pairs(s: string): string {
    if |s| <= 2 then s else s[..2] + " " + Pairs(s[2..])
  }

  function GroupDigits(national: string): string {
    if |national| % 2 == 0 then Pairs(national)
    else if |national| <= 3 then national
    else national[..3] + " " + Pairs(national[3..])
  }

  function FormatPhone(e164: string, international: bool): Result<string, Error> {
    var split := SplitE164(e164);
    if split.Some? && split.value.dial != "229" then
      Ok(Display(split.value.dial, split.value.national, international))
    else match ToNationalDigits(e164)
      case Err(e) => Err(e)
      case Ok(national) => Ok(Display("229", national, international))
  }

  function Display(dial: string, national: string, international: bool): string {
    if international then "+" + dial + " " + GroupDigits(national) else GroupDigits(national)
  }

  // ------------------------------------------------------------ digits of strings

  lemma Associate(a: string, b: string, c: string)
    ensures a + (b + c) == (a + b) + c
  {
  }

  lemma DigitsStep(c: char, s: string)
    ensures Digits([c] + s) == OnlyDigit(c) + Digits(s)
  {
    assert ([c] + s)[1..] == s;
  }

  lemma {:induction false} DigitsConcat(a: string, b: string)
    ensures Digits(a + b) == Digits(a) + Digits(b)
  {
    if a == "" {
      assert a + b == b;
    } else {
      var c, t := a[0], a[1..];
      DigitsConcat(t, b);
      assert a + b == [c] + (t + b);
      DigitsStep(c, t + b);
      Associate(OnlyDigit(c), Digits(t), Digits(b));
    }
  }

  lemma {:induction false} DigitsPlain(s: string)
    requires AllDigits(s)
    ensures Digits(s) == s
  {
    if s != "" {
      DigitsPlain(s[1..]);
    }
  }

  lemma DigitsOne(c: char)
    ensures Digits([c]) == OnlyDigit(c)
  {
    assert [c][1..] == "";
    assert OnlyDigit(c) + "" == OnlyDigit(c);
  }

  lemma {:induction false} DigitsPairs(s: string)
    requires AllDigits(s)
    ensures Digits(Pairs(s)) == s
    ensures s != "" ==> Pairs(s) != "" && IsDigit(Pairs(s)[0]) && IsDigit(Pairs(s)[|Pairs(s)| - 1])
  {
    if |s| <= 2 {
      DigitsPlain(s);
    } else {
      DigitsPairs(s[2..]);
      DigitsGlued(s[..2], Pairs(s[2..]));
      assert s[..2] + s[2..] == s;
    }
  }

  lemma DigitsGlued(a: string, b: string)
    requires AllDigits(a)
    ensures Digits(a + " " + b) == a + Digits(b)
  {
    DigitsConcat(a + " ", b);
    DigitsConcat(a, " ");
    DigitsPlain(a);
    DigitsOne(' ');
    assert a + "" == a;
  }

  lemma DigitsGrouped(s: string)
    requires AllDigits(s) && s != ""
    ensures Digits(GroupDigits(s)) == s
    ensures var g := GroupDigits(s); g != "" && IsDigit(g[0]) && IsDigit(g[|g| - 1])
  {
    if |s| % 2 == 0 {
      DigitsPairs(s);
    } else if |s| <= 3 {
      DigitsPlain(s);
    } else {
      DigitsPairs(s[3..]);
      DigitsGlued(s[..3], Pairs(s[3..]));
      assert s[..3] + s[3..] == s;
    }
  }

  /** The texts of `parts`, end to end. */
  function Flatten(parts: seq<string>): string {
    if parts == [] then "" else parts[0] + Flatten(parts[1..])
  }

  lemma {:induction false} PairsSplit(s: string)
    requires AllDigits(s) && |s| % 2 == 0 && s != ""
    ensures var parts := Split(Pairs(s), ' ');
            && |parts| == |s| / 2 && Flatten(parts) == s
            && forall i :: 0 <= i < |parts| ==> |parts[i]| == 2
  {
    if |s| == 2 {
      SplitPlain(s, ' ');
      assert [s][1..] == [] && s + "" == s;
    } else {
      PairsSplit(s[2..]);
      SplitAt(s[..2], Pairs(s[2..]), ' ');
      FlattenFirst(s[..2], Split(Pairs(s[2..]), ' '));
      assert s[..2] + [' '] + Pairs(s[2..]) == Pairs(s);
      assert s[..2] + s[2..] == s;
    }
  }

  lemma FlattenFirst(part: string, parts: seq<string>)
    ensures Flatten([part] + parts) == part + Flatten(parts)
  {
    assert ([part] + parts)[1..] == parts;
  }

  /**
   A number is displayed in groups of two digits, separated by spaces; one of odd length
   begins with a group of three.
   */
  lemma GroupedExactly(national: string)
    requires AllDigits(national) && |national| >= 2
    ensures var groups := Split(GroupDigits(national), ' ');
            && Flatten(groups) == national
            && |groups[0]| == (if |national| % 2 == 0 then 2 else 3)
            && forall i :: 1 <= i < |groups| ==> |groups[i]| == 2
  {
    if |national| % 2 == 0 {
      PairsSplit(national);
    } else if |national| == 3 {
      SplitPlain(national, ' ');
      assert [national][1..] == [] && national + "" == national;
    } else {
      PairsSplit(national[3..]);
      SplitAt(national[..3], Pairs(national[3..]), ' ');
      FlattenFirst(national[..3], Split(Pairs(national[3..]), ' '));
      assert national[..3] + [' '] + Pairs(national[3..]) == GroupDigits(national);
      assert national[..3] + national[3..] == national;
    }
  }

  // -------------------------------------------------------------- the registry

  lemma RulesAreSane()
    ensures forall i :: 0 <= i < |RULES| ==> SaneRule(RULES[i])
    ensures forall i, j :: 0 <= i < j < |RULES| ==> RULES[i].dial != RULES[j].dial
  {
  }

  /** Three digits, the first not a zero; and an old length that is not the current one. */
  predicate SaneRule(r: Rule) {
    && |r.dial| == 3 && AllDigits(r.dial) && r.dial[0] == '2' && r.length >= 8
    && (r.legacy.Some? ==> r.legacy.value.length != r.length)
  }

  lemma {:induction false} FindRuleAt(rules: seq<Rule>, i: nat, rest: string)
    requires i < |rules|
    requires forall k :: 0 <= k < |rules| ==> |rules[k].dial| == 3
    requires forall k :: 0 <= k < i ==> rules[k].dial != rules[i].dial
    ensures FindRule(rules[i].dial + rest, rules) == Some(rules[i])
    decreases i
  {
    var digits := rules[i].dial + rest;
    assert digits[..3] == rules[i].dial;
    if i > 0 {
      FindRuleAt(rules[1..], i - 1, rest);
    }
  }

  lemma FindRegistered(rule: Rule, rest: string)
    requires rule in RULES
    ensures FindRule(rule.dial + rest, RULES) == Some(rule)
  {
    var i :| 0 <= i < |RULES| && RULES[i] == rule;
    RulesAreSane();
    FindRuleAt(RULES, i, rest);
  }

  // ---------------------------------------------------------- canonical numbers

  /** The international form of a national number of the right length. */
  ghost predicate Canonical(e164: string, rule: Rule, national: string) {
    rule in RULES && AllDigits(national) && |national| == rule.length && e164 == "+" + rule.dial + national
  }

  lemma DigitsOfPlus(digits: string)
    requires AllDigits(digits) && digits != ""
    ensures Digits("+" + digits) == digits && Trim("+" + digits) == "+" + digits && HasPlus("+" + digits)
  {
    DigitsConcat("+", digits);
    DigitsPlain(digits);
    DigitsOne('+');
    assert "" + digits == digits;
    assert ("+" + digits)[|digits|] == digits[|digits| - 1];
    TrimIdentity("+" + digits);
  }

  /** A complete number of a country is left alone by its rule. */
  lemma CompleteNumber(rule: Rule, national: string)
    requires rule in RULES && AllDigits(national) && |national| == rule.length
    ensures NormalizeDigits(rule.dial + national, true, rule) == Ok("+" + rule.dial + national)
  {
    RulesAreSane();
    var digits := rule.dial + national;
    assert SaneRule(rule);
    assert digits[0] == rule.dial[0];
    assert ("00" + rule.dial)[0] == '0';
    assert digits[|rule.dial|..] == national;
  }

  lemma AnnouncedComplete(rule: Rule, national: string)
    requires rule in RULES && AllDigits(national) && |national| == rule.length
    ensures NormalizeAnnounced(rule.dial + national) == Some("+" + rule.dial + national)
  {
    RulesAreSane();
    assert SaneRule(rule);
    FindRegistered(rule, national);
    DigitsOfPlus(rule.dial + national);
    CompleteNumber(rule, national);
  }

  /** Whatever announces a complete number, with separators anywhere, is read as that number. */
  lemma AnnouncedSpelling(x: string, rule: Rule, national: string)
    requires rule in RULES && AllDigits(national) && |national| == rule.length
    requires HasPlus(Trim(x)) && Digits(Trim(x)) == rule.dial + national
    ensures TryNormalize(x) == Some("+" + rule.dial + national)
  {
    RulesAreSane();
    assert SaneRule(rule);
    assert (rule.dial + national)[0] == rule.dial[0];
    AnnouncedComplete(rule, national);
  }

  /** The international form is its own normal form. */
  lemma CanonicalIsFixed(e164: string, rule: Rule, national: string)
    requires Canonical(e164, rule, national)
    ensures TryNormalize(e164) == Some(e164)
  {
    assert e164 == "+" + (rule.dial + national);
    RulesAreSane();
    assert SaneRule(rule);
    DigitsOfPlus(rule.dial + national);
    AnnouncedSpelling(e164, rule, national);
  }

  // --------------------------------------------------- what is accepted is canonical

  lemma MigrateDigits(national: string, legacy: Option<Legacy>)
    requires AllDigits(national) && (legacy.Some? ==> AllDigits(legacy.value.prefix))
    ensures AllDigits(Migrate(national, legacy))
  {
  }

  lemma LegacyIsDigits()
    ensures forall i :: 0 <= i < |RULES| && RULES[i].legacy.Some? ==> AllDigits(RULES[i].legacy.value.prefix)
  {
  }

  lemma NationalIsDigits(digits: string, hadPlus: bool, rule: Rule)
    requires AllDigits(digits) && rule in RULES
    ensures AllDigits(NationalOf(digits, hadPlus, rule))
  {
    LegacyIsDigits();
    MigrateDigits(StripTrunk(StripDial(digits, hadPlus, rule.dial, rule.length), rule.length), rule.legacy);
  }

  lemma BeninIsDigits(digits: string, hadPlus: bool)
    requires AllDigits(digits)
    ensures AllDigits(BeninNational(digits, hadPlus))
  {
    MigrateDigits(StripDial(digits, hadPlus, "229", 10), Some(Legacy(8, "01")));
  }

  lemma NormalizeForRuleIsCanonical(input: string, rule: Rule)
    requires rule in RULES && NormalizeForRule(input, rule).Ok?
    ensures exists national :: Canonical(NormalizeForRule(input, rule).value, rule, national)
  {
    var raw := Trim(input);
    NationalIsDigits(Digits(raw), HasPlus(raw), rule);
    assert Canonical(NormalizeForRule(input, rule).value, rule, NationalOf(Digits(raw), HasPlus(raw), rule));
  }

  lemma NormalizeIsCanonical(input: string)
    requires Normalize(input).Ok?
    ensures exists national :: Canonical(Normalize(input).value, BENIN, national) && "01" <= national
  {
    var raw := Trim(input);
    BeninIsDigits(Digits(raw), HasPlus(raw));
    assert Canonical(Normalize(input).value, BENIN, BeninNational(Digits(raw), HasPlus(raw)));
  }

  /** Everything accepted is a complete number of a registered country. */
  lemma AcceptedIsCanonical(x: string)
    requires TryNormalize(x).Some?
    ensures exists rule, national :: Canonical(TryNormalize(x).value, rule, national)
  {
    var raw := Trim(x);
    if IsInternational(raw) {
      var digits := DropDoubleZero(Digits(raw));
      var rule := FindRule(digits, RULES).value;
      NormalizeForRuleIsCanonical("+" + digits, rule);
      var national :| Canonical(NormalizeForRule("+" + digits, rule).value, rule, national);
      assert Canonical(TryNormalize(x).value, rule, national);
    } else {
      NormalizeIsCanonical(raw);
      var national :| Canonical(Normalize(raw).value, BENIN, national);
      assert Canonical(TryNormalize(x).value, BENIN, national);
    }
  }

  /** Normalising twice changes nothing, on every accepted input. */
  lemma NormalizeIsIdempotent(x: string)
    requires TryNormalize(x).Some?
    ensures TryNormalize(TryNormalize(x).value) == TryNormalize(x)
  {
    AcceptedIsCanonical(x);
    var rule, national :| Canonical(TryNormalize(x).value, rule, national);
    CanonicalIsFixed(TryNormalize(x).value, rule, national);
  }

  /** A number that announces a country is read by that country's rule or refused, never as another's. */
  lemma AnnouncedCountryDecides(x: string, rule: Rule)
    requires rule in RULES && IsInternational(Trim(x))
    requires rule.dial <= DropDoubleZero(Digits(Trim(x)))
    ensures TryNormalize(x) == ToOption(NormalizeForRule("+" + DropDoubleZero(Digits(Trim(x))), rule))
    ensures TryNormalize(x).Some? ==> "+" + rule.dial <= TryNormalize(x).value
  {
    AnnouncedBy(DropDoubleZero(Digits(Trim(x))), rule);
    ReadByRule("+" + DropDoubleZero(Digits(Trim(x))), rule);
  }

  lemma AnnouncedBy(digits: string, rule: Rule)
    requires rule in RULES && rule.dial <= digits
    ensures NormalizeAnnounced(digits) == ToOption(NormalizeForRule("+" + digits, rule))
  {
    var rest := digits[|rule.dial|..];
    FindRegistered(rule, rest);
    assert rule.dial + rest == digits;
  }

  lemma ReadByRule(input: string, rule: Rule)
    requires rule in RULES
    ensures NormalizeForRule(input, rule).Ok? ==> "+" + rule.dial <= NormalizeForRule(input, rule).value
  {
  }

  // ------------------------------------------------------------ display and back

  lemma SplitCanonical(e164: string, rule: Rule, national: string)
    requires Canonical(e164, rule, national)
    ensures SplitE164(e164) == Some(Parts(rule.dial, national))
    ensures Digits(e164) == rule.dial + national
  {
    RulesAreSane();
    assert SaneRule(rule);
    assert e164 == "+" + (rule.dial + national);
    DigitsOfPlus(rule.dial + national);
    FindRegistered(rule, national);
    assert (rule.dial + national)[|rule.dial|..] == national;
  }

  lemma FormatCanonical(e164: string, rule: Rule, national: string, international: bool)
    requires Canonical(e164, rule, national)
    ensures FormatPhone(e164, international) == Ok(Display(rule.dial, national, international))
  {
    SplitCanonical(e164, rule, national);
    if rule.dial == "229" {
      BeninIsTheOnly229(rule);
    }
  }

  lemma BeninIsTheOnly229(rule: Rule)
    requires rule in RULES && rule.dial == "229"
    ensures rule == BENIN
  {
    RulesAreSane();
    var i :| 0 <= i < |RULES| && RULES[i] == rule;
    assert RULES[0].dial == "229";
  }

  lemma DigitsOfDisplay(dial: string, national: string)
    requires AllDigits(dial) && dial != "" && AllDigits(national) && national != ""
    ensures var shown := Display(dial, national, true);
            Trim(shown) == shown && HasPlus(shown) && Digits(shown) == dial + national
  {
    var g := GroupDigits(national);
    var shown := "+" + dial + " " + g;
    DigitsGrouped(national);
    assert shown == "+" + (dial + " " + g);
    DigitsConcat("+", dial + " " + g);
    DigitsOne('+');
    DigitsGlued(dial, g);
    assert shown[|shown| - 1] == g[|g| - 1];
    TrimIdentity(shown);
  }

  /** Normalising undoes the international display, for every number of every registered country. */
  lemma NormalizeUndoesFormat(e164: string, rule: Rule, national: string)
    requires Canonical(e164, rule, national)
    ensures FormatPhone(e164, true).Ok?
    ensures TryNormalize(FormatPhone(e164, true).value) == Some(e164)
  {
    RulesAreSane();
    assert SaneRule(rule);
    FormatCanonical(e164, rule, national, true);
    DigitsOfDisplay(rule.dial, national);
    AnnouncedSpelling(Display(rule.dial, national, true), rule, national);
  }

  /** Whatever was accepted can be displayed, and read back from its display. */
  lemma AcceptedRoundTrips(x: string)
    requires TryNormalize(x).Some?
    ensures FormatPhone(TryNormalize(x).value, true).Ok?
    ensures TryNormalize(FormatPhone(TryNormalize(x).value, true).value) == TryNormalize(x)
  {
    AcceptedIsCanonical(x);
    var rule, national :| Canonical(TryNormalize(x).value, rule, national);
    NormalizeUndoesFormat(TryNormalize(x).value, rule, national);
  }

  /**
   The national display is read back by the country's own rule exactly when the
   national number does not itself begin with `00` and the dialling code.
   */
  lemma NationalDisplayReadBack(e164: string, rule: Rule, national: string)
    requires Canonical(e164, rule, national)
    ensures FormatPhone(e164, false).Ok?
    ensures NormalizeForRule(FormatPhone(e164, false).value, rule) == Ok(e164) <==> !("00" + rule.dial <= national)
  {
    FormatCanonical(e164, rule, national, false);
    NationalGroup(rule, national);
    NationalAlone(rule, national);
  }

  lemma NationalGroup(rule: Rule, national: string)
    requires rule in RULES && AllDigits(national) && |national| == rule.length
    ensures NormalizeForRule(GroupDigits(national), rule) == NormalizeDigits(national, false, rule)
  {
    LengthsAreLong();
    DigitsGrouped(national);
    TrimIdentity(GroupDigits(national));
  }

  lemma NationalAlone(rule: Rule, national: string)
    requires rule in RULES && AllDigits(national) && |national| == rule.length
    ensures NormalizeDigits(national, false, rule) == Ok("+" + rule.dial + national) <==>
            !("00" + rule.dial <= national)
  {
    RulesAreSane();
    assert SaneRule(rule);
    if "00" + rule.dial <= national {
      ShortIsRefused(rule, national[5..]);
      assert 2 + |rule.dial| == 5;
    }
  }

  lemma ShortIsRefused(rule: Rule, rest: string)
    requires rule in RULES && |rest| <= 6
    ensures |Migrate(StripTrunk(rest, rule.length), rule.legacy)| != rule.length
  {
    LengthsAreLong();
  }

  lemma LengthsAreLong()
    ensures forall i :: 0 <= i < |RULES| ==> RULES[i].length >= 8
    ensures forall i :: 0 <= i < |RULES| && RULES[i].legacy.Some? ==> RULES[i].legacy.value.length == 8
  {
  }

  // ----------------------------------------------- the spellings of one number

  /** How a number is typed: whether it starts with `+`, and its digits; separators do not matter. */
  predicate Typed(x: string, plus: bool, digits: string) {
    Trim(x) != "" && HasPlus(Trim(x)) == plus && Digits(Trim(x)) == digits
  }

  /** The digits of a number with its country announced, with or without the trunk zero. */
  predicate Announces(digits: string, rule: Rule, national: string) {
    || digits == rule.dial + national || digits == rule.dial + ("0" + national)
    || digits == "00" + rule.dial + national || digits == "00" + rule.dial + ("0" + national)
  }

  lemma AnnouncedRest(plus: bool, rule: Rule, rest: string)
    requires rule in RULES && |rest| >= rule.length
    ensures StripDial(rule.dial + rest, plus, rule.dial, rule.length) == rest
    ensures StripDial("00" + rule.dial + rest, plus, rule.dial, rule.length) == rest
  {
    RulesAreSane();
    assert SaneRule(rule);
    assert (rule.dial + rest)[0] == '2' && ("00" + rule.dial)[0] == '0';
    assert (rule.dial + rest)[|rule.dial|..] == rest;
    assert ("00" + rule.dial + rest)[2 + |rule.dial|..] == rest;
  }

  lemma NationalOrTrunk(rule: Rule, national: string, rest: string)
    requires rule in RULES && |national| == rule.length && (rest == national || rest == "0" + national)
    ensures Migrate(StripTrunk(rest, rule.length), rule.legacy) == national
  {
    RulesAreSane();
    assert SaneRule(rule);
    assert ("0" + national)[1..] == national;
  }

  lemma AnnouncedDigits(digits: string, plus: bool, rule: Rule, national: string)
    requires rule in RULES && AllDigits(national) && |national| == rule.length && Announces(digits, rule, national)
    ensures NormalizeDigits(digits, plus, rule) == Ok("+" + rule.dial + national)
  {
    var zero := "0" + national;
    AnnouncedRest(plus, rule, national);
    AnnouncedRest(plus, rule, zero);
    NationalOrTrunk(rule, national, national);
    NationalOrTrunk(rule, national, zero);
  }

  lemma TrunkDigits(rule: Rule, national: string)
    requires rule in RULES && AllDigits(national) && |national| == rule.length
    ensures NormalizeDigits("0" + national, false, rule) == Ok("+" + rule.dial + national) <==>
            !("0" + rule.dial <= national)
  {
    RulesAreSane();
    assert SaneRule(rule);
    var digits := "0" + national;
    assert digits[1..] == national && digits[0] == '0';
    assert "00" + rule.dial == "0" + ("0" + rule.dial);
    if "0" + rule.dial <= national {
      assert digits[..5] == "0" + national[..4] == "00" + rule.dial;
      ShortIsRefused(rule, digits[5..]);
    }
  }

  /**
   The spellings that the rule of any country accepts for one complete number, with any
   separators: announced by `+`, by `00` or by the code alone, always, with or without
   the trunk zero; unannounced, exactly unless what is typed begins with `00` and the
   code.
   */
  lemma RegistrySpellings(x: string, plus: bool, rule: Rule, national: string, digits: string)
    requires rule in RULES && AllDigits(national) && |national| == rule.length && Typed(x, plus, digits)
    ensures Announces(digits, rule, national) ==> NormalizeForRule(x, rule) == Ok("+" + rule.dial + national)
    ensures !plus && digits == national ==>
              (NormalizeForRule(x, rule) == Ok("+" + rule.dial + national) <==> !("00" + rule.dial <= national))
    ensures !plus && digits == "0" + national ==>
              (NormalizeForRule(x, rule) == Ok("+" + rule.dial + national) <==> !("0" + rule.dial <= national))
  {
    if Announces(digits, rule, national) {
      AnnouncedDigits(digits, plus, rule, national);
    }
    NationalAlone(rule, national);
    TrunkDigits(rule, national);
  }

  /**
   What a country's rule refuses: a blank text as empty, one without digits as not
   numeric, and, since every country admits one length only, anything else for its length.
   */
  lemma RefusedExactly(x: string, rule: Rule)
    ensures NormalizeForRule(x, rule) == Err(Empty) <==> Trim(x) == ""
    ensures NormalizeForRule(x, rule) == Err(NotNumeric) <==>
            Trim(x) != "" && forall i :: 0 <= i < |Trim(x)| ==> !('0' <= Trim(x)[i] <= '9')
    ensures NormalizeForRule(x, rule).Err? ==> NormalizeForRule(x, rule).error in {Empty, NotNumeric, BadLength}
  {
    NoDigits(Trim(x));
  }

  lemma {:induction false} NoDigits(s: string)
    ensures Digits(s) == "" <==> forall i :: 0 <= i < |s| ==> !('0' <= s[i] <= '9')
  {
    if s != "" {
      NoDigits(s[1..]);
      assert s == [s[0]] + s[1..];
    }
  }

  lemma CountriesDiffer()
    ensures forall i :: 0 <= i < |RULES| ==> IsCode(RULES[i].country)
    ensures forall i, j :: 0 <= i < j < |RULES| ==> RULES[i].country != RULES[j].country
  {
  }

  predicate IsCode(s: string) {
    |s| == 2 && 'A' <= s[0] <= 'Z' && 'A' <= s[1] <= 'Z'
  }

  /** `c` is the capital `big`, or has it as its capital: a dotless i has I, a long s has S. */
  predicate IsLetter(c: char, big: char) {
    || c == big || ('a' <= c <= 'z' && c as int - 32 == big as int)
    || (c == '\U{0131}' && big == 'I') || (c == '\U{017F}' && big == 'S')
  }

  lemma CapitalOf(c: char, big: char)
    requires 'A' <= big <= 'Z'
    ensures Capital(c) == big <==> IsLetter(c, big)
  {
  }

  lemma {:induction false} CapitalsAre(s: string)
    ensures |Capitals(s)| == |s| && forall i :: 0 <= i < |s| ==> Capitals(s)[i] == Capital(s[i])
  {
    if s != "" {
      CapitalsAre(s[1..]);
    }
  }

  lemma SpelledAlike(code: string, country: string)
    requires IsCode(country)
    ensures Capitals(code) == country <==>
            |code| == |country| && forall i :: 0 <= i < |code| ==> IsLetter(code[i], country[i])
  {
    CapitalsAre(code);
    forall i | 0 <= i < |code| && i < |country|
      ensures Capital(code[i]) == country[i] <==> IsLetter(code[i], country[i])
    {
      CapitalOf(code[i], country[i]);
    }
  }

  /** A country's code is found in letters of either case, and no other country is. */
  lemma CodesInAnyCase(rule: Rule, code: string)
    requires rule in RULES
    ensures RuleOf(Capitals(code), RULES) == Some(rule) <==>
            |code| == |rule.country| && forall i :: 0 <= i < |code| ==> IsLetter(code[i], rule.country[i])
  {
    CountriesDiffer();
    var i :| 0 <= i < |RULES| && RULES[i] == rule;
    SpelledAlike(code, rule.country);
    RuleAt(RULES, i);
    FoundCountry(Capitals(code), RULES);
  }

  lemma {:induction false} FoundCountry(country: string, rules: seq<Rule>)
    ensures RuleOf(country, rules).Some? ==>
              RuleOf(country, rules).value in rules && RuleOf(country, rules).value.country == country
  {
    if rules != [] {
      FoundCountry(country, rules[1..]);
    }
  }

  lemma {:induction false} RuleAt(rules: seq<Rule>, i: nat)
    requires i < |rules| && forall k :: 0 <= k < i ==> rules[k].country != rules[i].country
    ensures RuleOf(rules[i].country, rules) == Some(rules[i])
    decreases i
  {
    if i > 0 {
      RuleAt(rules[1..], i - 1);
    }
  }

  /** The countries served: dialling code and national length. */
  predicate IsServed(country: string, dial: string, length: nat) {
    || (country == "BJ" && dial == "229" && length == 10) || (country == "CI" && dial == "225" && length == 10)
    || (country == "NG" && dial == "234" && length == 10) || (country == "SN" && dial == "221" && length == 9)
    || (country == "GN" && dial == "224" && length == 9) || (country == "GH" && dial == "233" && length == 9)
    || (country == "CM" && dial == "237" && length == 9) || (country == "TG" && dial == "228" && length == 8)
    || (country == "BF" && dial == "226" && length == 8) || (country == "ML" && dial == "223" && length == 8)
    || (country == "NE" && dial == "227" && length == 8)
  }

  lemma RegisteredIsServed(i: nat)
    requires i < |RULES|
    ensures IsServed(RULES[i].country, RULES[i].dial, RULES[i].length)
  {
  }

  lemma ServedIsRegistered(country: string, dial: string, length: nat)
    requires IsServed(country, dial, length)
    ensures var rule := RULES[PlaceOf(country)];
            rule.country == country && rule.dial == dial && rule.length == length && rule in RULES
  {
  }

  function PlaceOf(country: string): (k: nat)
    ensures k < 11
  {
    if country == "BJ" then 0 else if country == "CI" then 1 else if country == "SN" then 2
    else if country == "TG" then 3 else if country == "BF" then 4 else if country == "ML" then 5
    else if country == "NE" then 6 else if country == "GN" then 7 else if country == "GH" then 8
    else if country == "NG" then 9 else 10
  }

  /** A complete number of a served country, in its international form. */
  ghost predicate IsNumberOf(country: string, e164: string) {
    exists dial, national ::
      IsServed(country, dial, |national|) && AllDigits(national) && e164 == "+" + dial + national
  }

  /** The international rule accepts exactly the numbers of the countries served, and nothing more comes out of it. */
  lemma AcceptedExactly(e164: string)
    ensures (exists x :: TryNormalize(x) == Some(e164)) <==> exists country :: IsNumberOf(country, e164)
    ensures TryNormalize(e164) == Some(e164) <==> exists country :: IsNumberOf(country, e164)
  {
    if x :| TryNormalize(x) == Some(e164) {
      AcceptedIsCanonical(x);
      var rule, national :| Canonical(e164, rule, national);
      var i :| 0 <= i < |RULES| && RULES[i] == rule;
      RegisteredIsServed(i);
      assert IsNumberOf(rule.country, e164);
    }
    if country :| IsNumberOf(country, e164) {
      var dial, national :| IsServed(country, dial, |national|) && AllDigits(national) && e164 == "+" + dial + national;
      ServedIsRegistered(country, dial, |national|);
      CanonicalIsFixed(e164, RULES[PlaceOf(country)], national);
    }
  }

  /** What is left of the digits once the code is off: after `00`, or when it is announced or makes them too many. */
  predicate IsRest(digits: string, plus: bool, rule: Rule, rest: string) {
    || digits == "00" + rule.dial + rest
    || (digits == rule.dial + rest && (plus || |digits| > rule.length))
    || (digits == rest && !("00" + rule.dial <= rest) && !(rule.dial <= rest && (plus || |rest| > rule.length)))
  }

  lemma RestIs(digits: string, plus: bool, rule: Rule, rest: string)
    requires rule in RULES
    ensures IsRest(digits, plus, rule, rest) <==> StripDial(digits, plus, rule.dial, rule.length) == rest
  {
    RulesAreSane();
    assert SaneRule(rule);
    assert ("00" + rule.dial)[0] == '0';
    var dial := rule.dial;
    if "00" + dial <= digits {
      assert digits == "00" + dial + digits[2 + |dial|..];
      assert ("00" + dial + rest)[2 + |dial|..] == rest;
      assert digits[0] == '0';
    } else if dial <= digits {
      assert digits == dial + digits[|dial|..];
      assert (dial + rest)[|dial|..] == rest;
    }
  }

  /** The national number, or one with the trunk zero; in Benin also the eight digits of the old plan. */
  predicate IsNational(rest: string, rule: Rule, national: string) {
    rest == national || rest == "0" + national || (rule.country == "BJ" && |rest| == 8 && national == "01" + rest)
  }

  lemma NationalIs(rest: string, rule: Rule, national: string)
    requires rule in RULES && |national| == rule.length
    ensures Migrate(StripTrunk(rest, rule.length), rule.legacy) == national <==> IsNational(rest, rule, national)
  {
    RulesAreSane();
    assert SaneRule(rule);
    OnlyBeninMigrates(rule);
    if "0" <= rest {
      assert rest == "0" + rest[1..];
    }
    assert ("0" + national)[1..] == national;
  }

  lemma OnlyBeninMigrates(rule: Rule)
    requires rule in RULES
    ensures rule.legacy == if rule.country == "BJ" then Some(Legacy(8, "01")) else None
    ensures rule.country == "BJ" ==> rule.length == 10
  {
  }

  /**
   Exactly the spellings that a country's rule reads as a given number, with any
   separators: what is left without the dialling code is the national number, or has its
   trunk zero in front, or in Benin is the old number of eight digits.
   */
  lemma SpellingsExactly(x: string, plus: bool, digits: string, rule: Rule, national: string)
    requires rule in RULES && AllDigits(national) && |national| == rule.length && Typed(x, plus, digits)
    ensures NormalizeForRule(x, rule) == Ok("+" + rule.dial + national) <==>
            exists rest :: IsRest(digits, plus, rule, rest) && IsNational(rest, rule, national)
  {
    var rest := StripDial(digits, plus, rule.dial, rule.length);
    RestIs(digits, plus, rule, rest);
    NationalIs(rest, rule, national);
    RulesAreSane();
    assert SaneRule(rule);
    SameNational(rule.dial, NationalOf(digits, plus, rule), national);
    if r :| IsRest(digits, plus, rule, r) && IsNational(r, rule, national) {
      RestIs(digits, plus, rule, r);
    }
    EmptyIsRefused(digits, plus, rule, national);
  }

  lemma SameNational(dial: string, a: string, b: string)
    ensures "+" + dial + a == "+" + dial + b ==> a == b
  {
    assert ("+" + dial + a)[1 + |dial|..] == a && ("+" + dial + b)[1 + |dial|..] == b;
  }

  lemma EmptyIsRefused(digits: string, plus: bool, rule: Rule, national: string)
    requires rule in RULES && |national| == rule.length
    ensures digits == "" ==> NationalOf(digits, plus, rule) != national
  {
    ShortIsRefused(rule, "");
  }

  /**
   The Beninese rule knows no trunk zero, and wants what it reads to begin with `01`: the
   number itself, or the old one of eight digits.
   */
  lemma BeninSpellingsExactly(x: string, plus: bool, digits: string, n: string)
    requires AllDigits(n) && |n| == 10 && Typed(x, plus, digits)
    ensures Normalize(x) == Ok("+229" + n) <==>
            && "01" <= n
            && exists rest :: IsRest(digits, plus, BENIN, rest) && (rest == n || (|rest| == 8 && n == "01" + rest))
  {
    var rest := StripDial(digits, plus, "229", 10);
    RestIs(digits, plus, BENIN, rest);
    SameNational("229", BeninNational(digits, plus), n);
    assert "+" + "229" == "+229";
    if r :| IsRest(digits, plus, BENIN, r) && (r == n || (|r| == 8 && n == "01" + r)) {
      RestIs(digits, plus, BENIN, r);
    }
    EmptyIsRefused(digits, plus, BENIN, n);
  }

  /** A ten-digit Beninese number: `01` and the eight digits of the old plan. */
  predicate IsBenin(n: string) {
    |n| == 10 && AllDigits(n) && n[0] == '0' && n[1] == '1'
  }

  lemma BeninForms(n: string, plus: bool)
    requires IsBenin(n)
    ensures BeninDigits(n, false) == Ok("+229" + n)
    ensures BeninDigits("229" + n, plus) == Ok("+229" + n)
    ensures BeninDigits("00229" + n, plus) == Ok("+229" + n)
  {
    assert "00" + "229" == "00229";
    assert n[..2] == "01" && "01" <= n;
    assert ("229" + n)[3..] == n;
    assert ("00229" + n)[5..] == n;
    assert ("229" + n)[0] == '2';
  }

  lemma RegistryForms(n: string, plus: bool)
    requires IsBenin(n)
    ensures NormalizeDigits(n, false, BENIN) == Ok("+229" + n)
    ensures NormalizeDigits("229" + n, plus, BENIN) == Ok("+229" + n)
    ensures NormalizeDigits("00229" + n, plus, BENIN) == Ok("+229" + n)
  {
    assert "00" + "229" == "00229" && "+" + "229" == "+229";
    assert ("229" + n)[3..] == n;
    assert ("00229" + n)[5..] == n;
    assert ("229" + n)[0] == '2';
  }

  lemma AnnouncedBenin(n: string)
    requires IsBenin(n)
    ensures NormalizeAnnounced("229" + n) == Some("+229" + n)
  {
    assert BENIN in RULES;
    AnnouncedComplete(BENIN, n);
    assert "+" + "229" + n == "+229" + n;
  }

  lemma TrimTwice(x: string)
    ensures Trim(Trim(x)) == Trim(x)
  {
    TrimIdentity(Trim(x));
  }

  lemma {:induction false} TextualZeros(s: string)
    requires "00" <= s
    ensures "00" <= Digits(s)
  {
    assert s[1..][0] == '0';
    assert Digits(s) == "0" + Digits(s[1..]);
    assert Digits(s[1..]) == "0" + Digits(s[1..][1..]);
  }

  /** The documented spellings of a ten-digit number. */
  predicate Spells(x: string, n: string) {
    || Typed(x, false, n)
    || Typed(x, false, "229" + n) || Typed(x, true, "229" + n)
    || Typed(x, false, "00229" + n)
  }

  /**
   All documented spellings of one ten-digit Beninese number, with any separators, have
   the same normal form, under the Beninese rule, the registry's rule and the
   international one.
   */
  lemma SpellingsAgree(x: string, n: string)
    requires IsBenin(n) && Spells(x, n)
    ensures Normalize(x) == Ok("+229" + n)
    ensures NormalizeForRule(x, BENIN) == Ok("+229" + n)
    ensures TryNormalize(x) == Some("+229" + n)
  {
    var raw := Trim(x);
    BeninForms(n, HasPlus(raw));
    RegistryForms(n, HasPlus(raw));
    TrimTwice(x);
    if IsInternational(raw) {
      AnnouncedBenin(n);
      if "00" <= raw {
        TextualZeros(raw);
      }
      DropZeros(n);
    }
  }

  lemma DropZeros(n: string)
    requires IsBenin(n)
    ensures DropDoubleZero("229" + n) == "229" + n && DropDoubleZero("00229" + n) == "229" + n
    ensures !("00" <= n) && !("00" <= "229" + n)
  {
    assert ("00229" + n)[2..] == "229" + n;
    assert ("229" + n)[0] == '2';
  }

  lemma AnnouncedTooShort(digits: string)
    requires AllDigits(digits) && |digits| <= 8
    ensures NormalizeAnnounced(digits).None?
  {
    var found := FindRule(digits, RULES);
    if found.Some? {
      var rule := found.value;
      RulesAreSane();
      assert SaneRule(rule);
      DigitsOfPlus(digits);
      assert digits[0] == rule.dial[0];
      assert ("00" + rule.dial)[0] == '0';
      ShortIsRefused(rule, digits[3..]);
    }
  }

  /**
   An old eight-digit number is migrated by the Beninese rule unless it begins with
   `00229`, and by the international one unless it is typed with `00` in front or
   begins with `00229`: there it is taken for a dialling code.
   */
  lemma LegacySpelling(x: string, m: string)
    requires |m| == 8 && AllDigits(m) && Typed(x, false, m)
    ensures Normalize(x) == Ok("+22901" + m) <==> !("00229" <= m)
    ensures TryNormalize(x) == Some("+22901" + m) <==> !("00" <= Trim(x)) && !("00229" <= m)
  {
    var raw := Trim(x);
    TrimTwice(x);
    LegacyDigits(m);
    if "00" <= raw {
      TextualZeros(raw);
      AnnouncedTooShort(m[2..]);
    }
  }

  lemma LegacyDigits(m: string)
    requires |m| == 8 && AllDigits(m)
    ensures if "00229" <= m then BeninDigits(m, false) == Err(BadLength) else BeninDigits(m, false) == Ok("+22901" + m)
  {
    assert "00" + "229" == "00229";
    assert "+229" + ("01" + m) == "+22901" + m;
    assert ("01" + m)[..2] == "01";
  }
}
