/**
 URL slugs (packages/utils/src/slug.ts), from a text in Unicode decomposed form.
 */
module Slug {
  import opened Text

  const MAX_SLUG_LENGTH := 60

  predicate IsSlugChar(c: char) {
    'a' <= c <= 'z' || IsDigit(c)
  }

  // ------------------------------------------------------------------ the steps

  /** What one character becomes: marks vanish, ligatures open, capitals fall. */
  function Fold(c: char): string {
    if '\U{0300}' <= c <= '\U{036F}' then ""
    else if c == '\U{0153}' || c == '\U{0152}' then "oe"
    else if c == '\U{00E6}' || c == '\U{00C6}' then "ae"
    else if 'A' <= c <= 'Z' then [(c - 'A') + 'a']
    else [c]
  }

  function FoldAll(s: string): string {
    if s == "" then "" else Fold(s[0]) + FoldAll(s[1..])
  }

  /** `replace(/[^a-z0-9]+/g, '-')`; `inRun` while inside a run being replaced. */
  function Collapse(s: string, inRun: bool): string {
    if s == "" then ""
    else if IsSlugChar(s[0]) then [s[0]] + Collapse(s[1..], false)
    else if inRun then Collapse(s[1..], true)
    else "-" + Collapse(s[1..], true)
  }

  function StripLeft(s: string): string {
    if s != "" && s[0] == '-' then StripLeft(s[1..]) else s
  }

  function StripRight(s: string): string {
    if s != "" && s[|s| - 1] == '-' then StripRight(s[..|s| - 1]) else s
  }

  /** The position of the last dash, if there is one. */
  function LastDash(s: string): (r: Option<nat>)
    ensures r.Some? ==> r.value < |s| && s[r.value] == '-' && '-' !in s[r.value + 1..]
    ensures r.None? ==> '-' !in s
  {
    if s == "" then None
    else if s[|s| - 1] == '-' then Some(|s| - 1)
    else
      var r := LastDash(s[..|s| - 1]);
      assert s == s[..|s| - 1] + [s[|s| - 1]];
      r
  }

  function Truncate(slug: string, max: nat): string {
    if |slug| <= max then slug
    else
      var truncated := slug[..max];
      var last := LastDash(truncated);
      if last.Some? && 2 * last.value > max then truncated[..last.value] else truncated
  }

  function FullSlug(s: string): string {
    StripRight(StripLeft(Collapse(FoldAll(s), false)))
  }

  function Slugify(s: string, max: nat): string {
    Truncate(FullSlug(s), max)
  }

  // ------------------------------------------------------------ the slug pattern

  predicate IsWord(w: string) {
    w != "" && forall i :: 0 <= i < |w| ==> IsSlugChar(w[i])
  }

  predicate AreWords(ws: seq<string>) {
    forall i :: 0 <= i < |ws| ==> IsWord(ws[i])
  }

  function Join(ws: seq<string>): string {
    if ws == [] then "" else if |ws| == 1 then ws[0] else ws[0] + "-" + Join(ws[1..])
  }

  /** `^[a-z0-9]+(-[a-z0-9]+)*$` */
  predicate MatchesPattern(s: string) {
    AreWords(Split(s, '-'))
  }

  predicate IsValidSlug(s: string) {
    MatchesPattern(s) && |s| <= MAX_SLUG_LENGTH
  }

  lemma {:induction false} SplitJoin(ws: seq<string>)
    requires ws != [] && AreWords(ws)
    ensures Split(Join(ws), '-') == ws
    decreases |ws|
  {
    NoDashInWord(ws[0]);
    if |ws| == 1 {
      SplitPlain(ws[0], '-');
    } else {
      SplitJoin(ws[1..]);
      SplitAt(ws[0], Join(ws[1..]), '-');
    }
  }

  lemma NoDashInWord(w: string)
    requires IsWord(w)
    ensures '-' !in w && w[|w| - 1] != '-' && w[0] != '-'
  {
  }

  // -------------------------------------------------- what the full slug contains

  /** The maximal runs of letters and digits; `word` is the run being read. */
  function Words(s: string, word: string): seq<string>
    decreases |s|
  {
    if s == "" then (if word == "" then [] else [word])
    else if IsSlugChar(s[0]) then Words(s[1..], word + [s[0]])
    else (if word == "" then [] else [word]) + Words(s[1..], "")
  }

  lemma {:induction false} WordsAreWords(s: string, word: string)
    requires word == "" || IsWord(word)
    ensures AreWords(Words(s, word))
    ensures word != "" ==> Words(s, word) != []
    decreases |s|
  {
    if s != "" {
      if IsSlugChar(s[0]) {
        WordsAreWords(s[1..], word + [s[0]]);
      } else {
        WordsAreWords(s[1..], "");
      }
    }
  }

  lemma {:induction false} StripRightConcat(a: string, b: string)
    ensures StripRight(a + b) == if StripRight(b) == "" then StripRight(a) else a + StripRight(b)
    decreases |b|
  {
    if b == "" {
      assert a + b == a;
    } else {
      assert (a + b)[..|a + b| - 1] == a + b[..|b| - 1];
      if b[|b| - 1] == '-' {
        StripRightConcat(a, b[..|b| - 1]);
      }
    }
  }

  lemma JoinFirst(w: string, ws: seq<string>)
    ensures Join([w] + ws) == if ws == [] then w else w + "-" + Join(ws)
  {
    assert ([w] + ws)[1..] == ws;
  }

  lemma JoinIsEmpty(ws: seq<string>)
    requires AreWords(ws)
    ensures Join(ws) == "" <==> ws == []
  {
  }

  /** After a dash, in a run being replaced. */
  lemma {:induction false} CollapseInRun(s: string)
    ensures StripRight(Collapse(s, true)) == Join(Words(s, ""))
    ensures Collapse(s, true) == "" || Collapse(s, true)[0] != '-'
    decreases |s|, 0
  {
    if s != "" {
      if IsSlugChar(s[0]) {
        CollapseInWord(s[1..], [s[0]]);
        assert "" + [s[0]] == [s[0]];
      } else {
        CollapseInRun(s[1..]);
        assert [] + Words(s[1..], "") == Words(s[1..], "");
      }
    }
  }

  lemma CollapseAfterWord(word: string, rest: string, ws: seq<string>)
    requires IsWord(word) && AreWords(ws) && StripRight(rest) == Join(ws)
    ensures StripRight(word + ("-" + rest)) == Join([word] + ws)
  {
    JoinFirst(word, ws);
    JoinIsEmpty(ws);
    StripRightConcat("-", rest);
    StripRightConcat(word, "-" + rest);
    assert StripRight("-") == "" by {
      assert "-"[..0] == "";
    }
    NoDashInWord(word);
    assert word + ("-" + Join(ws)) == word + "-" + Join(ws);
  }

  /** After the letters of a word. */
  lemma {:induction false} CollapseInWord(s: string, word: string)
    requires IsWord(word)
    ensures StripRight(word + Collapse(s, false)) == Join(Words(s, word))
    decreases |s|, 1
  {
    NoDashInWord(word);
    if s == "" {
      assert word + "" == word;
    } else if IsSlugChar(s[0]) {
      CollapseInWord(s[1..], word + [s[0]]);
      assert word + ([s[0]] + Collapse(s[1..], false)) == word + [s[0]] + Collapse(s[1..], false);
    } else {
      CollapseInRun(s[1..]);
      WordsAreWords(s[1..], "");
      CollapseAfterWord(word, Collapse(s[1..], true), Words(s[1..], ""));
    }
  }

  /** The full slug is the text's runs of letters and digits, in order, joined by dashes. */
  lemma FullSlugIsWords(s: string)
    ensures FullSlug(s) == Join(Words(FoldAll(s), ""))
    ensures AreWords(Words(FoldAll(s), ""))
  {
    var t := FoldAll(s);
    WordsAreWords(t, "");
    if t != "" {
      if IsSlugChar(t[0]) {
        CollapseInWord(t[1..], [t[0]]);
        assert "" + [t[0]] == [t[0]];
      } else {
        CollapseInRun(t[1..]);
        var rest := Collapse(t[1..], true);
        assert ("-" + rest)[1..] == rest;
        assert StripLeft("-" + rest) == StripLeft(rest) == rest;
        assert [] + Words(t[1..], "") == Words(t[1..], "");
      }
    }
  }

  /** The full slug is empty, or matches the pattern. */
  lemma FullSlugMatches(s: string)
    ensures FullSlug(s) == "" || MatchesPattern(FullSlug(s))
  {
    FullSlugIsWords(s);
    var ws := Words(FoldAll(s), "");
    if ws != [] {
      SplitJoin(ws);
    }
  }

  // ------------------------------------------------ what does not change a slug

  lemma Associate(a: string, b: string, c: string)
    ensures a + (b + c) == (a + b) + c
  {
  }

  lemma {:induction false} FoldConcat(a: string, b: string)
    ensures FoldAll(a + b) == FoldAll(a) + FoldAll(b)
  {
    if a == "" {
      assert a + b == b;
    } else {
      FoldConcat(a[1..], b);
      assert (a + b)[1..] == a[1..] + b;
      Associate(Fold(a[0]), FoldAll(a[1..]), FoldAll(b));
    }
  }

  lemma FoldOne(c: char)
    ensures FoldAll([c]) == Fold(c)
  {
    assert [c][1..] == "" && Fold(c) + "" == Fold(c);
  }

  /** Parts that fold alike may stand for each other anywhere. */
  lemma SameFold(a: string, m: string, n: string, b: string, max: nat)
    requires FoldAll(m) == FoldAll(n)
    ensures Slugify(a + m + b, max) == Slugify(a + n + b, max)
  {
    FoldConcat(a + m, b);
    FoldConcat(a, m);
    FoldConcat(a + n, b);
    FoldConcat(a, n);
  }

  /** The small letter of `c`. */
  predicate IsCapitalOf(c: char, small: char) {
    'A' <= c <= 'Z' && c as int + 32 == small as int
  }

  /** An accent counts for nothing, anywhere in a text. */
  lemma AccentsVanish(a: string, c: char, b: string, max: nat)
    requires 0x300 <= c as int <= 0x36F
    ensures Slugify(a + [c] + b, max) == Slugify(a + b, max)
  {
    FoldOne(c);
    SameFold(a, [c], "", b, max);
    assert a + "" + b == a + b;
  }

  /** A capital counts for its small letter, and a ligature for its two letters. */
  lemma SpellingDoesNotMatter(a: string, c: char, letters: string, b: string, max: nat)
    requires || (|letters| == 1 && IsCapitalOf(c, letters[0]))
             || (letters == "oe" && (c == '\U{153}' || c == '\U{152}'))
             || (letters == "ae" && (c == '\U{E6}' || c == '\U{C6}'))
    ensures Slugify(a + [c] + b, max) == Slugify(a + letters + b, max)
  {
    FoldOne(c);
    FoldKeeps(letters);
    SameFold(a, [c], letters, b, max);
  }

  // ---------------------------------------------------------------- truncation

  /** The pattern, read from the left. */
  predicate Shaped(s: string)
    decreases |s|
  {
    && s != "" && IsSlugChar(s[0])
    && (|s| == 1 || if s[1] == '-' then Shaped(s[2..]) else Shaped(s[1..]))
  }

  lemma SplitDash(c: char, u: string)
    requires c != '-'
    ensures Split([c] + ("-" + u), '-') == [[c]] + Split(u, '-')
  {
    assert [c] + ("-" + u) == [c] + ['-'] + u;
    SplitAt([c], u, '-');
  }

  lemma SplitLetter(c: char, t: string)
    requires c != '-'
    ensures Split([c] + t, '-') == [[c] + Split(t, '-')[0]] + Split(t, '-')[1..]
  {
    assert ([c] + t)[1..] == t;
  }

  lemma WordsCons(w: string, ws: seq<string>)
    ensures AreWords([w] + ws) <==> IsWord(w) && AreWords(ws)
  {
    assert ([w] + ws)[0] == w;
    assert forall i :: 0 <= i < |ws| ==> ([w] + ws)[i + 1] == ws[i];
  }

  lemma FirstPart(t: string)
    requires t != "" && t[0] != '-'
    ensures Split(t, '-')[0] != ""
  {
  }

  lemma WordCons(c: char, w: string)
    requires w != ""
    ensures IsWord([c] + w) <==> IsSlugChar(c) && IsWord(w)
  {
    assert ([c] + w)[0] == c;
    assert forall i :: 0 <= i < |w| ==> ([c] + w)[i + 1] == w[i];
  }

  lemma {:induction false} ShapedExactly(s: string)
    ensures MatchesPattern(s) <==> Shaped(s)
    decreases |s|
  {
    if s == "" {
      assert !IsWord(Split(s, '-')[0]);
    } else if s[0] == '-' {
      assert !IsWord(Split(s, '-')[0]);
    } else if |s| == 1 {
      SplitPlain(s, '-');
      assert IsWord(s) <==> IsSlugChar(s[0]);
    } else if s[1] == '-' {
      assert s == [s[0]] + ("-" + s[2..]);
      SplitDash(s[0], s[2..]);
      WordsCons([s[0]], Split(s[2..], '-'));
      ShapedExactly(s[2..]);
      assert IsWord([s[0]]) <==> IsSlugChar(s[0]);
    } else {
      var parts := Split(s[1..], '-');
      assert s == [s[0]] + s[1..];
      SplitLetter(s[0], s[1..]);
      FirstPart(s[1..]);
      WordCons(s[0], parts[0]);
      WordsCons([s[0]] + parts[0], parts[1..]);
      WordsCons(parts[0], parts[1..]);
      assert [parts[0]] + parts[1..] == parts;
      ShapedExactly(s[1..]);
    }
  }

  /** Dashes stand alone, and never first or last. */
  lemma {:induction false} DashesAreSingle(s: string, i: nat)
    requires Shaped(s) && i < |s|
    ensures IsSlugChar(s[i]) || s[i] == '-'
    ensures s[i] == '-' ==> 0 < i < |s| - 1 && s[i - 1] != '-'
    decreases |s|
  {
    if |s| > 1 && i > 0 {
      if s[1] == '-' {
        if i >= 2 {
          DashesAreSingle(s[2..], i - 2);
        } else {
          assert s[2..] != "";
        }
      } else {
        DashesAreSingle(s[1..], i - 1);
      }
    }
  }

  /** A prefix of a slug that does not end with a dash is one. */
  lemma {:induction false} PrefixIsShaped(s: string, n: nat)
    requires Shaped(s) && 0 < n <= |s| && s[n - 1] != '-'
    ensures Shaped(s[..n])
    decreases |s|
  {
    if n > 1 {
      if s[1] == '-' {
        PrefixIsShaped(s[2..], n - 2);
        assert s[2..][..n - 2] == s[..n][2..];
      } else {
        PrefixIsShaped(s[1..], n - 1);
        assert s[1..][..n - 1] == s[..n][1..];
      }
    }
  }

  /** The one way to cut a slug right after a dash. */
  predicate CutsAtDash(slug: string, max: nat) {
    max == 2 && |slug| > 2 && slug[1] == '-'
  }

  lemma TruncateShaped(slug: string, max: nat)
    requires Shaped(slug)
    ensures var t := Truncate(slug, max);
            |t| <= max && t <= slug && (t == "" || Shaped(t) <==> !CutsAtDash(slug, max))
    ensures max > 0 ==> Truncate(slug, max) != ""
  {
    if |slug| > max > 0 {
      var cut := slug[..max];
      var last := LastDash(cut);
      if last.Some? {
        DashesAreSingle(slug, last.value);
        if 2 * last.value > max {
          PrefixIsShaped(slug, last.value);
          assert cut[..last.value] == slug[..last.value];
        } else if last.value < max - 1 {
          assert cut[max - 1] == cut[last.value + 1..][max - last.value - 2];
          PrefixIsShaped(slug, max);
        } else {
          assert cut == [slug[0], '-'];
        }
      } else {
        assert cut[max - 1] in cut;
        PrefixIsShaped(slug, max);
      }
    }
  }

  /**
   A slug is empty or matches the pattern, for every truncation length but two, where
   it ends with a dash exactly when the second of more than two characters is one. Up
   to the maximal length, it is then a valid slug.
   */
  lemma SlugifyIsValid(s: string, max: nat)
    ensures |Slugify(s, max)| <= max
    ensures Slugify(s, max) == "" || MatchesPattern(Slugify(s, max)) <==> !CutsAtDash(FullSlug(s), max)
    ensures max <= MAX_SLUG_LENGTH && max != 2 ==> Slugify(s, max) == "" || IsValidSlug(Slugify(s, max))
    ensures Slugify(s, max) == "" <==> max == 0 || Words(FoldAll(s), "") == []
  {
    FullSlugMatches(s);
    FullSlugIsWords(s);
    JoinIsEmpty(Words(FoldAll(s), ""));
    if FullSlug(s) != "" {
      ShapedExactly(FullSlug(s));
      TruncateShaped(FullSlug(s), max);
      ShapedExactly(Slugify(s, max));
    }
  }

  /** `p` is the last dash of `s` before `max`. */
  predicate IsLastDash(s: string, p: int, max: nat) {
    0 <= p < max && p < |s| && s[p] == '-' && forall i :: p < i < max && i < |s| ==> s[i] != '-'
  }

  /**
   A slug that fits is whole. A longer one is cut before the last dash that fits, when
   that leaves more than half of the length, and otherwise in the middle of a word.
   */
  lemma CutExactly(s: string, max: nat, p: nat)
    ensures |FullSlug(s)| <= max ==> Slugify(s, max) == FullSlug(s)
    ensures |FullSlug(s)| > max && IsLastDash(FullSlug(s), p, max) && 2 * p > max ==>
              Slugify(s, max) == FullSlug(s)[..p]
    ensures |FullSlug(s)| > max && IsLastDash(FullSlug(s), p, max) && 2 * p <= max ==>
              Slugify(s, max) == FullSlug(s)[..max]
    ensures |FullSlug(s)| > max && '-' !in FullSlug(s)[..max] ==> Slugify(s, max) == FullSlug(s)[..max]
  {
    var full := FullSlug(s);
    if |full| > max {
      var cut := full[..max];
      var last := LastDash(cut);
      if last.Some? {
        forall i | last.value < i < max ensures cut[i] != '-' {
          assert cut[last.value + 1..][i - last.value - 1] == cut[i];
        }
        assert cut[last.value] in cut;
        assert cut[..last.value] == full[..last.value];
      }
      if IsLastDash(full, p, max) {
        assert cut[p] == '-' && cut[p] in cut;
      }
    }
  }

  // --------------------------------------------------------------- idempotence

  lemma {:induction false} FoldKeeps(s: string)
    requires forall i :: 0 <= i < |s| ==> IsSlugChar(s[i]) || s[i] == '-'
    ensures FoldAll(s) == s
  {
    if s != "" {
      FoldKeeps(s[1..]);
    }
  }

  lemma {:induction false} CollapseKeeps(s: string, inRun: bool)
    requires Shaped(s)
    ensures Collapse(s, inRun) == s
    decreases |s|
  {
    if |s| == 1 {
      assert Collapse(s[1..], false) == "";
    } else if s[1] == '-' {
      CollapseKeeps(s[2..], true);
      assert s[1..][1..] == s[2..];
      assert Collapse(s[1..], false) == "-" + s[2..] == s[1..];
    } else {
      CollapseKeeps(s[1..], false);
    }
  }

  lemma FullSlugKeeps(s: string)
    requires Shaped(s)
    ensures FullSlug(s) == s
  {
    forall i | 0 <= i < |s| ensures IsSlugChar(s[i]) || s[i] == '-' {
      DashesAreSingle(s, i);
    }
    FoldKeeps(s);
    CollapseKeeps(s, false);
    DashesAreSingle(s, |s| - 1);
  }

  /** Slugging twice changes nothing, except exactly where the first time cut at a dash. */
  lemma SlugifyIsIdempotent(s: string, max: nat)
    ensures Slugify(Slugify(s, max), max) == Slugify(s, max) <==> !CutsAtDash(FullSlug(s), max)
  {
    SlugifyIsValid(s, max);
    var t := Slugify(s, max);
    if CutsAtDash(FullSlug(s), max) {
      FullSlugMatches(s);
      ShapedExactly(FullSlug(s));
      CutTwice(FullSlug(s));
    } else if t != "" {
      ShapedExactly(t);
      FullSlugKeeps(t);
    }
  }

  lemma CutTwice(slug: string)
    requires Shaped(slug) && CutsAtDash(slug, 2)
    ensures Truncate(slug, 2) == [slug[0], '-'] && Slugify([slug[0], '-'], 2) == [slug[0]]
  {
    var t := slug[..2];
    assert t == [slug[0], '-'];
    assert LastDash(t) == Some(1);
    SlugOfDash(t);
  }

  lemma SlugOfDash(t: string)
    requires |t| == 2 && IsSlugChar(t[0]) && t[1] == '-'
    ensures FullSlug(t) == t[..1]
  {
    FoldKeeps(t);
    var dash := t[1..];
    assert dash[1..] == "";
    assert Collapse(dash, false) == "-" + Collapse(dash[1..], true) == dash;
    assert Collapse(t, false) == t[..1] + dash == t;
    assert StripRight(t) == StripRight(t[..1]) == t[..1];
  }

  // --------------------------------------------------------------- uniqueness

  function Candidate(base: string, k: nat): string {
    base + "-" + Decimal(k)
  }

  lemma CandidatesDiffer(base: string, j: nat, k: nat)
    requires Candidate(base, j) == Candidate(base, k)
    ensures j == k
  {
    assert Candidate(base, j)[|base| + 1..] == Decimal(j);
    assert Candidate(base, k)[|base| + 1..] == Decimal(k);
    DecimalInjective(j, k);
  }

  lemma {:induction false} SubsetIsSmaller(a: set<string>, b: set<string>)
    requires a <= b
    ensures |a| <= |b|
    decreases |a|
  {
    if a != {} {
      var x :| x in a;
      SubsetIsSmaller(a - {x}, b - {x});
    }
  }

  /**
   `uniqueSlug`: the base when it is free, else the smallest free suffix from two on; the
   search ends because there are more suffixes than slugs taken.
   */
  method UniqueSlug(base: string, taken: seq<string>) returns (r: string)
    ensures r !in taken
    ensures base !in taken ==> r == base
    ensures base in taken ==>
              exists k :: 2 <= k <= |taken| + 2 && r == Candidate(base, k)
                && forall j :: 2 <= j < k ==> Candidate(base, j) in taken
  {
    if base !in taken {
      return base;
    }
    ghost var all := set x | x in taken;
    ghost var used: set<string> := {};
    SetOfSeq(taken);
    var suffix := 2;
    while Candidate(base, suffix) in taken
      invariant suffix >= 2 && used <= all && |used| == suffix - 2
      invariant forall x :: x in used ==> exists j :: 2 <= j < suffix && x == Candidate(base, j)
      invariant forall j :: 2 <= j < suffix ==> Candidate(base, j) in taken
      invariant |used| <= |taken|
      decreases |all| - |used|
    {
      var next := Candidate(base, suffix);
      if next in used {
        var j :| 2 <= j < suffix && next == Candidate(base, j);
        CandidatesDiffer(base, j, suffix);
      }
      SubsetIsSmaller(used + {next}, all);
      used := used + {next};
      suffix := suffix + 1;
    }
    return Candidate(base, suffix);
  }

  lemma {:induction false} SetOfSeq(s: seq<string>)
    ensures |set x | x in s| <= |s|
  {
    if s != [] {
      var front := s[..|s| - 1];
      SetOfSeq(front);
      assert s == front + [s[|s| - 1]];
      assert (set x | x in s) == (set x | x in front) + {s[|s| - 1]};
    }
  }

  /** A suffix keeps the pattern, and is valid exactly while the whole fits in the limit. */
  lemma CandidateIsValid(base: string, k: nat)
    requires Shaped(base)
    ensures MatchesPattern(Candidate(base, k))
    ensures IsValidSlug(Candidate(base, k)) <==> |base| + 1 + |Decimal(k)| <= 60
  {
    ShapedSuffix(base, Decimal(k));
    ShapedExactly(Candidate(base, k));
  }

  lemma {:induction false} DigitsAreShaped(d: string)
    requires d != "" && AllDigits(d)
    ensures Shaped(d)
  {
    if |d| > 1 {
      DigitsAreShaped(d[1..]);
    }
  }

  lemma {:induction false} ShapedSuffix(base: string, d: string)
    requires Shaped(base) && d != "" && AllDigits(d)
    ensures Shaped(base + "-" + d)
    decreases |base|
  {
    var s := base + "-" + d;
    if |base| == 1 {
      assert s[2..] == d;
      DigitsAreShaped(d);
    } else if base[1] == '-' {
      ShapedSuffix(base[2..], d);
      assert s[2..] == base[2..] + "-" + d;
    } else {
      ShapedSuffix(base[1..], d);
      assert s[1..] == base[1..] + "-" + d;
    }
  }
}
