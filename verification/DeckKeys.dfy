/**
 The keys a deck gives its children (`walkDeckChildren` in design-reference/support.js):
 slides by their identifier, blanks by the slide that follows, the rest by position.
 */
module DeckKeys {
  import opened Text

  datatype Node = Blank(text: string) | Other | Element(tag: string, slideId: Option<string>)

  /** A key is a position or a name; React compares keys as text. */
  datatype Key = Position(j: nat) | Name(name: string)

  function KeyText(k: Key): string {
    match k
    case Position(j) => Decimal(j)
    case Name(s) => s
  }

  predicate IsAux(tag: string) {
    tag == "template" || tag == "script" || tag == "style" || tag == "sc-helmet" || tag == "helmet"
  }

  predicate IsControlFlow(tag: string) {
    tag == "sc-if" || tag == "sc-for" || tag == "sc-else" || tag == "dc-import" || tag == "x-import"
  }

  predicate IsSlide(n: Node) {
    n.Element? && !IsAux(n.tag) && !IsControlFlow(n.tag)
  }

  predicate IsHex(c: char) {
    IsDigit(c) || 'a' <= c <= 'f'
  }

  /** `^[0-9a-f]{8}$` */
  predicate IsSlideId(s: string) {
    |s| == 8 && forall i :: 0 <= i < 8 ==> IsHex(s[i])
  }

  // ------------------------------------------------------------- what a key is

  /** The identifier on the next element from `j` on, when that element is a slide. */
  function NextId(nodes: seq<Node>, j: nat): Option<string>
    requires j <= |nodes|
    decreases |nodes| - j
  {
    if j == |nodes| then None
    else if nodes[j].Element? then (if IsSlide(nodes[j]) then nodes[j].slideId else None)
    else NextId(nodes, j + 1)
  }

  function BaseOf(next: Option<string>): string {
    if next.Some? && next.value != "" then "omid-ws:" + next.value else "omid-ws:aux"
  }

  /** How many texts before `j` have that base. */
  function Repeats(nodes: seq<Node>, j: nat, base: string): nat
    requires j <= |nodes|
  {
    if j == 0 then 0
    else
      Repeats(nodes, j - 1, base) + if nodes[j - 1].Blank? && BaseOf(NextId(nodes, j - 1)) == base then 1 else 0
  }

  function BlankKey(base: string, n: nat): string {
    if n == 0 then base else base + ":" + Decimal(n)
  }

  function KeyAt(nodes: seq<Node>, j: nat): Key
    requires j < |nodes|
  {
    match nodes[j]
    case Blank(_) => var base := BaseOf(NextId(nodes, j)); Name(BlankKey(base, Repeats(nodes, j, base)))
    case Other => Position(j)
    case Element(tag, id) => if IsAux(tag) then Position(j) else Name("omid:" + if id.Some? then id.value else "")
  }

  predicate UsedBefore(nodes: seq<Node>, j: nat, id: string)
    requires j <= |nodes|
  {
    exists i :: 0 <= i < j && IsSlide(nodes[i]) && nodes[i].slideId == Some(id)
  }

  /** A text is blank, nothing is control flow, and a slide has a new, well-formed identifier. */
  predicate Acceptable(nodes: seq<Node>, j: nat)
    requires j < |nodes|
  {
    match nodes[j]
    case Blank(text) => Trim(text) == ""
    case Other => true
    case Element(tag, id) =>
      IsAux(tag) || (!IsControlFlow(tag) && id.Some? && IsSlideId(id.value) && !UsedBefore(nodes, j, id.value))
  }

  predicate AllAcceptable(nodes: seq<Node>) {
    forall j :: 0 <= j < |nodes| ==> Acceptable(nodes, j)
  }

  // --------------------------------------------------------------- computing them

  method NextIds(nodes: seq<Node>) returns (next: seq<Option<string>>)
    ensures |next| == |nodes| && forall j :: 0 <= j < |nodes| ==> next[j] == NextId(nodes, j)
  {
    var nextSlideId := new Option<string>[|nodes|];
    var upcoming: Option<string> := None;
    var j := |nodes|;
    while j > 0
      invariant 0 <= j <= |nodes| && upcoming == NextId(nodes, j)
      invariant forall k :: j <= k < |nodes| ==> nextSlideId[k] == NextId(nodes, k)
    {
      j := j - 1;
      var n := nodes[j];
      if n.Element? {
        upcoming := if !IsAux(n.tag) && !IsControlFlow(n.tag) then n.slideId else None;
      }
      nextSlideId[j] := upcoming;
    }
    next := nextSlideId[..];
  }

  /** `seen` holds the identifiers of the slides before `j`. */
  ghost predicate IsSeen(seen: set<string>, nodes: seq<Node>, j: nat)
    requires j <= |nodes|
  {
    forall id :: id in seen <==> UsedBefore(nodes, j, id)
  }

  /** `wsSeen` counts the blanks before `j` by their base. */
  ghost predicate IsCount(wsSeen: map<string, nat>, nodes: seq<Node>, j: nat)
    requires j <= |nodes|
  {
    forall base :: Repeats(nodes, j, base) == if base in wsSeen then wsSeen[base] else 0
  }

  lemma SeenStep(seen: set<string>, nodes: seq<Node>, j: nat)
    requires j < |nodes| && IsSeen(seen, nodes, j)
    ensures !IsSlide(nodes[j]) ==> IsSeen(seen, nodes, j + 1)
    ensures IsSlide(nodes[j]) && nodes[j].slideId.Some? ==> IsSeen(seen + {nodes[j].slideId.value}, nodes, j + 1)
  {
    forall id
      ensures UsedBefore(nodes, j + 1, id) <==>
              UsedBefore(nodes, j, id) || (IsSlide(nodes[j]) && nodes[j].slideId == Some(id))
    {
    }
  }

  lemma CountStep(wsSeen: map<string, nat>, nodes: seq<Node>, j: nat)
    requires j < |nodes| && IsCount(wsSeen, nodes, j)
    ensures var base := BaseOf(NextId(nodes, j));
            IsCount(if nodes[j].Blank? then wsSeen[base := Repeats(nodes, j, base) + 1] else wsSeen, nodes, j + 1)
  {
  }

  /** The keys of all the children, or none at all. */
  method WalkDeckChildren(nodes: seq<Node>) returns (result: Option<seq<Key>>)
    ensures result.Some? <==> AllAcceptable(nodes)
    ensures result.Some? ==> |result.value| == |nodes|
    ensures result.Some? ==> forall j :: 0 <= j < |nodes| ==> result.value[j] == KeyAt(nodes, j)
  {
    var next := NextIds(nodes);
    var seen: set<string> := {};
    var wsSeen: map<string, nat> := map[];
    var keys: seq<Key> := [];
    for j := 0 to |nodes|
      invariant |keys| == j && forall k :: 0 <= k < j ==> keys[k] == KeyAt(nodes, k)
      invariant forall k :: 0 <= k < j ==> Acceptable(nodes, k)
      invariant IsSeen(seen, nodes, j) && IsCount(wsSeen, nodes, j)
    {
      SeenStep(seen, nodes, j);
      CountStep(wsSeen, nodes, j);
      var key := Position(j);
      match nodes[j] {
        case Blank(text) =>
          if Trim(text) != "" {
            assert !Acceptable(nodes, j);
            return None;
          }
          var base := BaseOf(next[j]);
          var n := if base in wsSeen then wsSeen[base] else 0;
          wsSeen := wsSeen[base := n + 1];
          key := Name(BlankKey(base, n));
        case Other =>
        case Element(tag, id) =>
          if !IsAux(tag) {
            if IsControlFlow(tag) || id.None? || !IsSlideId(id.value) || id.value in seen {
              assert !Acceptable(nodes, j);
              return None;
            }
            seen := seen + {id.value};
            key := Name("omid:" + id.value);
          }
      }
      assert key == KeyAt(nodes, j);
      keys := keys + [key];
    }
    return Some(keys);
  }

  // --------------------------------------------------------- what the keys say

  /** An element that is neither auxiliary nor control flow. */
  predicate IsPlainElement(n: Node) {
    && n.Element?
    && n.tag !in {"template", "script", "style", "sc-helmet", "helmet"}
    && n.tag !in {"sc-if", "sc-for", "sc-else", "dc-import", "x-import"}
  }

  /** `k` is the first element from `j` on. */
  predicate LeadsTo(nodes: seq<Node>, j: int, k: int) {
    0 <= j <= k < |nodes| && nodes[k].Element? && forall i :: j <= i < k ==> !nodes[i].Element?
  }

  /** The blanks that lead to a slide share its identifier; all others are of the deck at large. */
  ghost predicate IsBase(nodes: seq<Node>, j: nat, base: string) {
    if exists k :: LeadsTo(nodes, j, k) && IsPlainElement(nodes[k]) && nodes[k].slideId !in {None, Some("")} then
      exists k :: LeadsTo(nodes, j, k) && IsPlainElement(nodes[k]) && nodes[k].slideId.Some?
                  && base == "omid-ws:" + nodes[k].slideId.value
    else base == "omid-ws:aux"
  }

  lemma {:induction false} NextIdExactly(nodes: seq<Node>, j: nat, k: nat)
    requires LeadsTo(nodes, j, k)
    ensures NextId(nodes, j) == if IsPlainElement(nodes[k]) then nodes[k].slideId else None
    decreases k - j
  {
    if j < k {
      NextIdExactly(nodes, j + 1, k);
    }
  }

  lemma {:induction false} NoNextId(nodes: seq<Node>, j: nat)
    requires j <= |nodes| && forall i :: j <= i < |nodes| ==> !nodes[i].Element?
    ensures NextId(nodes, j) == None
    decreases |nodes| - j
  {
    if j < |nodes| {
      NoNextId(nodes, j + 1);
    }
  }

  lemma {:induction false} FirstElement(nodes: seq<Node>, j: nat)
    requires j <= |nodes|
    ensures (forall i :: j <= i < |nodes| ==> !nodes[i].Element?) || exists k :: LeadsTo(nodes, j, k)
    decreases |nodes| - j
  {
    if j < |nodes| {
      if nodes[j].Element? {
        assert LeadsTo(nodes, j, j);
      } else {
        var next := j + 1;
        FirstElement(nodes, next);
        if k :| LeadsTo(nodes, next, k) {
          assert LeadsTo(nodes, j, k);
        }
      }
    }
  }

  lemma BaseExactly(nodes: seq<Node>, j: nat)
    requires j <= |nodes|
    ensures IsBase(nodes, j, BaseOf(NextId(nodes, j)))
  {
    FirstElement(nodes, j);
    if k :| LeadsTo(nodes, j, k) {
      NextIdExactly(nodes, j, k);
    } else {
      NoNextId(nodes, j);
    }
  }

  /** The blanks before `j` with that base. */
  function Earlier(nodes: seq<Node>, j: nat, base: string): set<nat>
    requires j <= |nodes|
  {
    set i: nat | 0 <= i < j && nodes[i].Blank? && BaseOf(NextId(nodes, i)) == base
  }

  lemma {:induction false} RepeatsAreCounted(nodes: seq<Node>, j: nat, base: string)
    requires j <= |nodes|
    ensures Repeats(nodes, j, base) == |Earlier(nodes, j, base)|
  {
    if j > 0 {
      RepeatsAreCounted(nodes, j - 1, base);
      var counted := nodes[j - 1].Blank? && BaseOf(NextId(nodes, j - 1)) == base;
      assert Earlier(nodes, j, base) == Earlier(nodes, j - 1, base) + if counted then {j - 1} else {};
    }
  }

  /**
   The text of every key: a slide's is its identifier and a position stands for what is
   neither slide nor text; a blank's is that of the slide it leads to, or of the deck,
   numbered from the second on.
   */
  lemma KeysExactly(nodes: seq<Node>, j: nat)
    requires AllAcceptable(nodes) && j < |nodes|
    ensures var key := KeyText(KeyAt(nodes, j));
            && (nodes[j].Other? || (nodes[j].Element? && !IsPlainElement(nodes[j])) ==> key == Decimal(j))
            && (IsPlainElement(nodes[j]) ==> nodes[j].slideId.Some? && key == "omid:" + nodes[j].slideId.value)
            && (nodes[j].Blank? ==>
                  exists base :: IsBase(nodes, j, base)
                    && var n := |Earlier(nodes, j, base)|; key == if n == 0 then base else base + ":" + Decimal(n))
  {
    assert Acceptable(nodes, j);
    if nodes[j].Blank? {
      var base := BaseOf(NextId(nodes, j));
      BaseExactly(nodes, j);
      RepeatsAreCounted(nodes, j, base);
      assert IsBase(nodes, j, base);
    }
  }

  /** What keeps a deck's children from having keys. */
  lemma AcceptableExactly(nodes: seq<Node>, j: nat)
    requires j < |nodes|
    ensures nodes[j].Blank? ==> (Acceptable(nodes, j) <==> forall c :: c in nodes[j].text ==> IsSpace(c))
    ensures nodes[j].Other? ==> Acceptable(nodes, j)
    ensures nodes[j].Element? && nodes[j].tag in {"template", "script", "style", "sc-helmet", "helmet"} ==>
              Acceptable(nodes, j)
    ensures nodes[j].Element? && nodes[j].tag in {"sc-if", "sc-for", "sc-else", "dc-import", "x-import"} ==>
              !Acceptable(nodes, j)
    ensures IsPlainElement(nodes[j]) ==>
              (Acceptable(nodes, j) <==>
                 && nodes[j].slideId.Some? && IsEightHex(nodes[j].slideId.value)
                 && forall i :: 0 <= i < j && IsPlainElement(nodes[i]) ==> nodes[i].slideId != nodes[j].slideId)
  {
    if nodes[j].Blank? {
      BlankExactly(nodes[j].text);
    } else if IsPlainElement(nodes[j]) && nodes[j].slideId.Some? {
      assert IsSlideId(nodes[j].slideId.value) <==> IsEightHex(nodes[j].slideId.value);
    }
  }

  predicate IsEightHex(s: string) {
    |s| == 8 && forall i :: 0 <= i < 8 ==> '0' <= s[i] <= '9' || 'a' <= s[i] <= 'f'
  }

  lemma BlankExactly(s: string)
    ensures Trim(s) == "" <==> forall c :: c in s ==> IsSpace(c)
  {
    if i :| 0 <= i < |s| && !IsSpace(s[i]) {
      TrimNonBlank(s, i);
      assert s[i] in s;
    } else {
      AllBlank(s);
    }
  }

  lemma {:induction false} AllBlank(s: string)
    requires forall i :: 0 <= i < |s| ==> IsSpace(s[i])
    ensures TrimLeft(s) == ""
  {
    if s != "" {
      AllBlank(s[1..]);
    }
  }

  // -------------------------------------------------------------- distinctness

  lemma {:induction false} NextIdIsWellFormed(nodes: seq<Node>, j: nat)
    requires AllAcceptable(nodes) && j <= |nodes|
    ensures NextId(nodes, j).Some? ==> IsSlideId(NextId(nodes, j).value)
    decreases |nodes| - j
  {
    if j < |nodes| {
      assert Acceptable(nodes, j);
      if !nodes[j].Element? {
        NextIdIsWellFormed(nodes, j + 1);
      }
    }
  }

  lemma {:induction false} RepeatsGrow(nodes: seq<Node>, i: nat, j: nat, base: string)
    requires i < j <= |nodes| && nodes[i].Blank? && BaseOf(NextId(nodes, i)) == base
    ensures Repeats(nodes, i, base) < Repeats(nodes, j, base)
    decreases j
  {
    if i + 1 < j {
      RepeatsGrow(nodes, i, j - 1, base);
    }
  }

  /** The part of a blank's key between `omid-ws:` and its number. */
  predicate IsCore(s: string) {
    s == "aux" || IsSlideId(s)
  }

  lemma CoreHasNoColon(s: string)
    requires IsCore(s)
    ensures ':' !in s
  {
  }

  function CoreKey(core: string, n: nat): string {
    if n == 0 then core else core + ":" + Decimal(n)
  }

  lemma DigitsHaveNoColon(n: nat)
    ensures ':' !in Decimal(n)
  {
  }

  lemma SplitCoreKey(core: string, n: nat)
    requires IsCore(core)
    ensures Split(CoreKey(core, n), ':') == if n == 0 then [core] else [core, Decimal(n)]
  {
    CoreHasNoColon(core);
    DigitsHaveNoColon(n);
    if n == 0 {
      SplitPlain(core, ':');
    } else {
      SplitPlain(Decimal(n), ':');
      SplitAt(core, Decimal(n), ':');
    }
  }

  lemma CoreKeysDiffer(a: string, m: nat, b: string, n: nat)
    requires IsCore(a) && IsCore(b) && CoreKey(a, m) == CoreKey(b, n)
    ensures a == b && m == n
  {
    SplitCoreKey(a, m);
    SplitCoreKey(b, n);
    DecimalInjective(m, n);
    if m == 0 || n == 0 {
      assert |Split(CoreKey(a, m), ':')| == |Split(CoreKey(b, n), ':')|;
    } else {
      var parts := Split(CoreKey(a, m), ':');
      assert parts[0] == a && parts[0] == b && parts[1] == Decimal(m) && parts[1] == Decimal(n);
    }
  }

  /** The core of the key of the text at `j`. */
  function CoreAt(nodes: seq<Node>, j: nat): string
    requires j <= |nodes|
  {
    var next := NextId(nodes, j);
    if next.Some? && next.value != "" then next.value else "aux"
  }

  lemma BlankKeyIs(nodes: seq<Node>, j: nat)
    requires AllAcceptable(nodes) && j < |nodes| && nodes[j].Blank?
    ensures IsCore(CoreAt(nodes, j)) && BaseOf(NextId(nodes, j)) == "omid-ws:" + CoreAt(nodes, j)
    ensures KeyText(KeyAt(nodes, j)) ==
            "omid-ws:" + CoreKey(CoreAt(nodes, j), Repeats(nodes, j, BaseOf(NextId(nodes, j))))
  {
    NextIdIsWellFormed(nodes, j);
    var n := Repeats(nodes, j, BaseOf(NextId(nodes, j)));
    assert "omid-ws:" + CoreAt(nodes, j) + ":" + Decimal(n) == "omid-ws:" + (CoreAt(nodes, j) + ":" + Decimal(n));
  }

  lemma SamePrefix(p: string, a: string, b: string)
    requires p + a == p + b
    ensures a == b
  {
    assert (p + a)[|p|..] == a && (p + b)[|p|..] == b;
  }

  lemma BlanksDiffer(nodes: seq<Node>, i: nat, j: nat)
    requires AllAcceptable(nodes) && i < j < |nodes| && nodes[i].Blank? && nodes[j].Blank?
    ensures KeyText(KeyAt(nodes, i)) != KeyText(KeyAt(nodes, j))
  {
    if KeyText(KeyAt(nodes, i)) == KeyText(KeyAt(nodes, j)) {
      var a, b := CoreAt(nodes, i), CoreAt(nodes, j);
      var m := Repeats(nodes, i, BaseOf(NextId(nodes, i)));
      var n := Repeats(nodes, j, BaseOf(NextId(nodes, j)));
      BlankKeyIs(nodes, i);
      BlankKeyIs(nodes, j);
      SamePrefix("omid-ws:", CoreKey(a, m), CoreKey(b, n));
      CoreKeysDiffer(a, m, b, n);
      RepeatsGrow(nodes, i, j, BaseOf(NextId(nodes, j)));
      assert false;
    }
  }

  lemma SlidesDiffer(nodes: seq<Node>, i: nat, j: nat)
    requires AllAcceptable(nodes) && i < j < |nodes| && IsSlide(nodes[i]) && IsSlide(nodes[j])
    ensures KeyText(KeyAt(nodes, i)) != KeyText(KeyAt(nodes, j))
  {
    assert Acceptable(nodes, i) && Acceptable(nodes, j);
    if KeyText(KeyAt(nodes, i)) == KeyText(KeyAt(nodes, j)) {
      SamePrefix("omid:", nodes[i].slideId.value, nodes[j].slideId.value);
      assert false;
    }
  }

  /** Which family a key's text belongs to can be read off its first five characters. */
  datatype Family = Number | Slide | Space

  function FamilyOf(n: Node): Family {
    match n
    case Blank(_) => Space
    case Other => Number
    case Element(tag, _) => if IsAux(tag) then Number else Slide
  }

  predicate InFamily(s: string, f: Family) {
    match f
    case Number => s != "" && IsDigit(s[0])
    case Slide => |s| > 4 && s[0] == 'o' && s[4] == ':'
    case Space => |s| > 4 && s[0] == 'o' && s[4] == '-'
  }

  lemma KeyInFamily(nodes: seq<Node>, j: nat)
    requires AllAcceptable(nodes) && j < |nodes|
    ensures InFamily(KeyText(KeyAt(nodes, j)), FamilyOf(nodes[j]))
  {
    if nodes[j].Blank? {
      BlankKeyIs(nodes, j);
    }
  }

  lemma FamiliesDiffer(s: string, f: Family, g: Family)
    requires InFamily(s, f) && InFamily(s, g)
    ensures f == g
  {
  }

  /** When a deck's children get keys, no two of them are the same text. */
  lemma KeysAreDistinct(nodes: seq<Node>, i: nat, j: nat)
    requires AllAcceptable(nodes) && i < j < |nodes|
    ensures KeyText(KeyAt(nodes, i)) != KeyText(KeyAt(nodes, j))
  {
    if KeyText(KeyAt(nodes, i)) == KeyText(KeyAt(nodes, j)) {
      KeyInFamily(nodes, i);
      KeyInFamily(nodes, j);
      FamiliesDiffer(KeyText(KeyAt(nodes, i)), FamilyOf(nodes[i]), FamilyOf(nodes[j]));
      assert Acceptable(nodes, i) && Acceptable(nodes, j);
      match FamilyOf(nodes[i])
      case Number => DecimalInjective(i, j); assert false;
      case Slide => SlidesDiffer(nodes, i, j); assert false;
      case Space => BlanksDiffer(nodes, i, j); assert false;
    }
  }
}
