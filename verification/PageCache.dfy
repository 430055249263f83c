/**
 The caches of the participant's service worker (apps/web/public/sw.js).

 A cache is the sequence of its keys, oldest entry first, with the response stored
 under each: `put` replaces an entry and moves it to the end, as the Cache API does.
 Fetches, puts and the steps of several trims may interleave in any way.
 */
module PageCache {
  import opened Text

  type Key = string

  const MAX_PAGES := 5

  predicate Distinct(s: seq<Key>) {
    forall i, j :: 0 <= i < j < |s| ==> s[i] != s[j]
  }

  /** `s` without `k`, in order. */
  function Without(s: seq<Key>, k: Key): (r: seq<Key>)
    ensures |r| <= |s|
    ensures forall x :: x in r <==> x in s && x != k
  {
    if s == [] then []
    else
      var rest := Without(s[..|s| - 1], k);
      assert s == s[..|s| - 1] + [s[|s| - 1]];
      if s[|s| - 1] == k then rest else rest + [s[|s| - 1]]
  }

  function WithoutAll(s: seq<Key>, ks: seq<Key>): seq<Key>
    decreases |ks|
  {
    if ks == [] then s else WithoutAll(Without(s, ks[0]), ks[1..])
  }

  function Put(s: seq<Key>, k: Key): seq<Key> {
    Without(s, k) + [k]
  }

  /** The keys a trim deletes: all but the last `max`. */
  function Victims(s: seq<Key>, max: nat): seq<Key> {
    if |s| > max then s[..|s| - max] else []
  }

  /** The last `max` keys. */
  function Latest(s: seq<Key>, max: nat): seq<Key> {
    s[|Victims(s, max)|..]
  }

  // -------------------------------------------------- sequences without keys

  lemma {:induction false} WithoutAbsent(s: seq<Key>, k: Key)
    requires k !in s
    ensures Without(s, k) == s
  {
    if s != [] {
      WithoutAbsent(s[..|s| - 1], k);
      assert s == s[..|s| - 1] + [s[|s| - 1]];
    }
  }

  lemma {:induction false} WithoutConcat(a: seq<Key>, b: seq<Key>, k: Key)
    ensures Without(a + b, k) == Without(a, k) + Without(b, k)
  {
    if b == [] {
      assert a + b == a;
    } else {
      WithoutConcat(a, b[..|b| - 1], k);
      assert (a + b)[..|a + b| - 1] == a + b[..|b| - 1];
    }
  }

  lemma {:induction false} WithoutCommutes(s: seq<Key>, j: Key, k: Key)
    ensures Without(Without(s, j), k) == Without(Without(s, k), j)
  {
    if s != [] {
      var last := [s[|s| - 1]];
      WithoutCommutes(s[..|s| - 1], j, k);
      WithoutConcat(Without(s[..|s| - 1], j), last, k);
      WithoutConcat(Without(s[..|s| - 1], k), last, j);
      WithoutOne(s[|s| - 1], j);
      WithoutOne(s[|s| - 1], k);
    }
  }

  lemma WithoutOne(x: Key, k: Key)
    ensures Without([x], k) == if x == k then [] else [x]
  {
    assert [x][..0] == [];
  }

  lemma {:induction false} WithoutDistinct(s: seq<Key>, k: Key)
    requires Distinct(s)
    ensures Distinct(Without(s, k))
  {
    if s != [] {
      var front := s[..|s| - 1];
      WithoutDistinct(front, k);
      AppendDistinct(Without(front, k), s[|s| - 1]);
    }
  }

  lemma AppendDistinct(s: seq<Key>, k: Key)
    requires Distinct(s) && k !in s
    ensures Distinct(s + [k])
  {
    forall i, j | 0 <= i < j < |s + [k]| ensures (s + [k])[i] != (s + [k])[j] {
      assert (s + [k])[i] == s[i] && s[i] in s;
    }
  }

  lemma {:induction false} DropFirst(s: seq<Key>)
    requires Distinct(s) && s != []
    ensures Without(s, s[0]) == s[1..]
  {
    assert s == [s[0]] + s[1..];
    WithoutConcat([s[0]], s[1..], s[0]);
    WithoutOne(s[0], s[0]);
    assert s[0] !in s[1..];
    WithoutAbsent(s[1..], s[0]);
  }

  lemma {:induction false} DropPrefix(s: seq<Key>, n: nat)
    requires Distinct(s) && n <= |s|
    ensures WithoutAll(s, s[..n]) == s[n..]
  {
    if n > 0 {
      DropFirst(s);
      DropPrefix(s[1..], n - 1);
      assert s[..n][1..] == s[1..][..n - 1] && s[1..][n - 1..] == s[n..];
    }
  }

  lemma {:induction false} WithoutAllShrinks(s: seq<Key>, ks: seq<Key>)
    ensures |WithoutAll(s, ks)| <= |s|
    decreases |ks|
  {
    if ks != [] {
      WithoutAllShrinks(Without(s, ks[0]), ks[1..]);
    }
  }

  lemma {:induction false} WithoutAllConcat(a: seq<Key>, b: seq<Key>, ks: seq<Key>)
    ensures WithoutAll(a + b, ks) == WithoutAll(a, ks) + WithoutAll(b, ks)
    decreases |ks|
  {
    if ks != [] {
      WithoutConcat(a, b, ks[0]);
      WithoutAllConcat(Without(a, ks[0]), Without(b, ks[0]), ks[1..]);
    }
  }

  lemma {:induction false} WithoutAllCommutes(s: seq<Key>, ks: seq<Key>, k: Key)
    ensures WithoutAll(Without(s, k), ks) == Without(WithoutAll(s, ks), k)
    decreases |ks|
  {
    if ks != [] {
      WithoutCommutes(s, k, ks[0]);
      WithoutAllCommutes(Without(s, ks[0]), ks[1..], k);
    }
  }

  // ------------------------------------------------- interleaved page trims

  /**
   The pages cache while trims run: how many of them have yet to list the keys, and,
   for each that has, in the order they did, what it still means to delete.
   */
  datatype Pages = Pages(keys: seq<Key>, waiting: nat, deleting: seq<seq<Key>>)

  datatype Event =
    | PutPage(k: Key)           // a page is stored, and its trim becomes pending
    | Snapshot                  // a waiting trim lists the keys
    | DeleteNext(t: nat)        // trim `t` deletes the next key it listed
    | Finish(t: nat)            // trim `t` has deleted them all

  function Drop<T>(s: seq<T>, i: nat): seq<T>
    requires i < |s|
  {
    s[..i] + s[i + 1..]
  }

  predicate Enabled(p: Pages, e: Event) {
    match e
    case PutPage(_) => true
    case Snapshot => p.waiting > 0
    case DeleteNext(t) => t < |p.deleting| && p.deleting[t] != []
    case Finish(t) => t < |p.deleting| && p.deleting[t] == []
  }

  function Step(p: Pages, e: Event): Pages
    requires Enabled(p, e)
  {
    match e
    case PutPage(k) => p.(keys := Put(p.keys, k), waiting := p.waiting + 1)
    case Snapshot => p.(waiting := p.waiting - 1, deleting := p.deleting + [Victims(p.keys, MAX_PAGES)])
    case DeleteNext(t) =>
      p.(keys := Without(p.keys, p.deleting[t][0]), deleting := p.deleting[t := p.deleting[t][1..]])
    case Finish(t) => p.(deleting := Drop(p.deleting, t))
  }

  function Pending(p: Pages): nat {
    p.waiting + |p.deleting|
  }

  /** Once trim `i` is through, only trims that list the keys after it leave room for more. */
  predicate TrimBounds(p: Pages, i: nat)
    requires i < |p.deleting|
  {
    |WithoutAll(p.keys, p.deleting[i])| < MAX_PAGES + Pending(p) - i
  }

  ghost predicate Inv(p: Pages) {
    && Distinct(p.keys)
    && |p.keys| <= MAX_PAGES + Pending(p)
    && forall i :: 0 <= i < |p.deleting| ==> TrimBounds(p, i)
  }

  lemma PutDistinct(s: seq<Key>, k: Key)
    requires Distinct(s)
    ensures Distinct(Put(s, k))
  {
    WithoutDistinct(s, k);
    AppendDistinct(Without(s, k), k);
  }

  /** Storing a page adds at most one key, whatever is deleted afterwards. */
  lemma PutThenWithoutAll(s: seq<Key>, k: Key, ks: seq<Key>)
    ensures |WithoutAll(Put(s, k), ks)| <= |WithoutAll(s, ks)| + 1
  {
    WithoutAllConcat(Without(s, k), [k], ks);
    WithoutAllCommutes(s, ks, k);
    WithoutAllShrinks([k], ks);
  }

  lemma SnapshotBounds(keys: seq<Key>)
    requires Distinct(keys)
    ensures |WithoutAll(keys, Victims(keys, MAX_PAGES))| <= MAX_PAGES
  {
    if |keys| > MAX_PAGES {
      DropPrefix(keys, |keys| - MAX_PAGES);
    }
  }

  lemma PutKeeps(p: Pages, k: Key)
    requires Inv(p)
    ensures Inv(Step(p, PutPage(k)))
  {
    var p' := Step(p, PutPage(k));
    PutDistinct(p.keys, k);
    forall i | 0 <= i < |p'.deleting| ensures TrimBounds(p', i) {
      assert TrimBounds(p, i);
      PutThenWithoutAll(p.keys, k, p.deleting[i]);
    }
  }

  lemma SnapshotKeeps(p: Pages)
    requires Inv(p) && Enabled(p, Snapshot)
    ensures Inv(Step(p, Snapshot))
  {
    var p' := Step(p, Snapshot);
    SnapshotBounds(p.keys);
    forall i | 0 <= i < |p'.deleting| ensures TrimBounds(p', i) {
      if i < |p.deleting| {
        assert TrimBounds(p, i);
      }
    }
  }

  lemma DeleteKeeps(p: Pages, t: nat)
    requires Inv(p) && Enabled(p, DeleteNext(t))
    ensures Inv(Step(p, DeleteNext(t)))
  {
    var k := p.deleting[t][0];
    var p' := Step(p, DeleteNext(t));
    WithoutDistinct(p.keys, k);
    forall i | 0 <= i < |p'.deleting| ensures TrimBounds(p', i) {
      assert TrimBounds(p, i);
      if i != t {
        WithoutAllCommutes(p.keys, p.deleting[i], k);
      }
    }
  }

  lemma FinishKeeps(p: Pages, t: nat)
    requires Inv(p) && Enabled(p, Finish(t))
    ensures Inv(Step(p, Finish(t)))
  {
    var p' := Step(p, Finish(t));
    assert TrimBounds(p, t);
    forall i | 0 <= i < |p'.deleting| ensures TrimBounds(p', i) {
      if i < t {
        WithoutAllShrinks(p.keys, p'.deleting[i]);
      } else {
        assert TrimBounds(p, i + 1);
      }
    }
  }

  lemma StepKeeps(p: Pages, e: Event)
    requires Inv(p) && Enabled(p, e)
    ensures Inv(Step(p, e))
  {
    match e
    case PutPage(k) => PutKeeps(p, k);
    case Snapshot => SnapshotKeeps(p);
    case DeleteNext(t) => DeleteKeeps(p, t);
    case Finish(t) => FinishKeeps(p, t);
  }

  ghost predicate Run(p: Pages, es: seq<Event>, p': Pages)
    decreases |es|
  {
    if es == [] then p' == p else Enabled(p, es[0]) && Run(Step(p, es[0]), es[1..], p')
  }

  lemma {:induction false} RunKeeps(p: Pages, es: seq<Event>, p': Pages)
    requires Inv(p) && Run(p, es, p')
    ensures Inv(p')
    decreases |es|
  {
    if es != [] {
      StepKeeps(p, es[0]);
      RunKeeps(Step(p, es[0]), es[1..], p');
    }
  }

  /**
   In every interleaving of page puts with the steps of the trims they start, the
   cache exceeds its bound by no more entries than there are trims pending: it is
   within its bound whenever none is.
   */
  lemma BoundedByPendingTrims(keys: seq<Key>, es: seq<Event>, p: Pages)
    requires Distinct(keys) && |keys| <= MAX_PAGES
    requires Run(Pages(keys, 0, []), es, p)
    ensures Distinct(p.keys) && |p.keys| <= MAX_PAGES + Pending(p)
  {
    RunKeeps(Pages(keys, 0, []), es, p);
  }

  /** The steps of one trim, started from its snapshot. */
  function TrimSteps(n: nat): seq<Event> {
    if n == 0 then [Finish(0)] else [DeleteNext(0)] + TrimSteps(n - 1)
  }

  lemma {:induction false} TrimStepsRun(keys: seq<Key>, victims: seq<Key>)
    ensures Run(Pages(keys, 0, [victims]), TrimSteps(|victims|), Pages(WithoutAll(keys, victims), 0, []))
    decreases |victims|
  {
    var p := Pages(keys, 0, [victims]);
    var es := TrimSteps(|victims|);
    if victims == [] {
      assert es[1..] == [];
      assert Step(p, Finish(0)) == Pages(keys, 0, []);
    } else {
      assert es[1..] == TrimSteps(|victims| - 1);
      assert Step(p, es[0]) == Pages(Without(keys, victims[0]), 0, [victims[1..]]);
      TrimStepsRun(Without(keys, victims[0]), victims[1..]);
    }
  }

  /**
   A page stored, and trimmed with nothing in between: the new page is last, before
   it the most recent others, and nothing older.
   */
  lemma PutThenTrim(keys: seq<Key>, k: Key)
    requires Distinct(keys)
    ensures var all := Put(keys, k);
            var es := [PutPage(k), Snapshot] + TrimSteps(|Victims(all, MAX_PAGES)|);
            Run(Pages(keys, 0, []), es, Pages(Latest(all, MAX_PAGES), 0, []))
  {
    var all := Put(keys, k);
    var victims := Victims(all, MAX_PAGES);
    var es := [PutPage(k), Snapshot] + TrimSteps(|victims|);
    PutDistinct(keys, k);
    DropPrefix(all, |victims|);
    assert all[..|victims|] == victims;
    TrimStepsRun(all, victims);
    assert es[1..][1..] == TrimSteps(|victims|);
    assert Step(Pages(keys, 0, []), es[0]) == Pages(all, 1, []);
    assert Step(Pages(all, 1, []), es[1..][0]) == Pages(all, 0, [victims]);
  }

  /**
   Interleaved, a trim can delete a page that was stored anew after its snapshot: the
   bound holds, but "the most recent pages" does not.
   */
  lemma FreshPageCanBeTrimmed(keys: seq<Key>, k: Key)
    requires Distinct(keys) && |keys| == MAX_PAGES && k !in keys
    ensures exists es: seq<Event>, p ::
              Run(Pages(keys, 0, []), es, p) && |es| == 4 && es[2] == PutPage(keys[0]) && keys[0] !in p.keys
  {
    var es := [PutPage(k), Snapshot, PutPage(keys[0]), DeleteNext(0)];
    var p0 := Pages(keys, 0, []);
    WithoutAbsent(keys, k);
    var p1 := Step(p0, es[0]);
    assert p1.keys == keys + [k];
    var p2 := Step(p1, es[1]);
    assert p2.deleting[0] == [keys[0]];
    var p3 := Step(p2, es[2]);
    var p4 := Step(p3, es[3]);
    assert es[1..][1..] == es[2..] && es[2..][1..] == es[3..] && es[3..][1..] == [];
    assert Run(p3, es[3..], p4);
    assert Run(p2, es[2..], p4);
    assert Run(p1, es[1..], p4);
    assert Run(p0, es, p4);
  }

  // ------------------------------------------------------ which pages are kept

  /** The keys of `s` that are in `ks`, in order. */
  function Keep(s: seq<Key>, ks: set<Key>): (r: seq<Key>)
    ensures |r| <= |s|
    ensures forall x :: x in r <==> x in s && x in ks
  {
    if s == [] then []
    else
      var rest := Keep(s[..|s| - 1], ks);
      assert s == s[..|s| - 1] + [s[|s| - 1]];
      if s[|s| - 1] in ks then rest + [s[|s| - 1]] else rest
  }

  function SetOf(s: seq<Key>): set<Key> {
    set x | x in s
  }

  /** `keys` are some of `h`, in `h`'s order. */
  predicate Ordered(keys: seq<Key>, h: seq<Key>) {
    keys == Keep(h, SetOf(keys))
  }

  lemma KeepLast(s: seq<Key>, x: Key, ks: set<Key>)
    ensures Keep(s + [x], ks) == Keep(s, ks) + if x in ks then [x] else []
  {
    assert (s + [x])[..|s|] == s;
  }

  lemma {:induction false} KeepConcat(a: seq<Key>, b: seq<Key>, ks: set<Key>)
    ensures Keep(a + b, ks) == Keep(a, ks) + Keep(b, ks)
  {
    if b == [] {
      assert a + b == a;
    } else {
      var front, x := b[..|b| - 1], b[|b| - 1];
      assert b == front + [x] && a + b == a + front + [x];
      KeepConcat(a, front, ks);
      KeepLast(front, x, ks);
      KeepLast(a + front, x, ks);
    }
  }

  lemma {:induction false} KeepSame(s: seq<Key>, ks: set<Key>, ls: set<Key>)
    requires forall x :: x in s ==> (x in ks <==> x in ls)
    ensures Keep(s, ks) == Keep(s, ls)
  {
    if s != [] {
      var front := s[..|s| - 1];
      assert s == front + [s[|s| - 1]];
      KeepSame(front, ks, ls);
    }
  }

  lemma KeepOne(x: Key, ks: set<Key>)
    ensures Keep([x], ks) == if x in ks then [x] else []
  {
    assert [x][..0] == [];
  }

  lemma {:induction false} KeepAll(s: seq<Key>, ks: set<Key>)
    requires forall x :: x in s ==> x in ks
    ensures Keep(s, ks) == s
  {
    if s != [] {
      var front := s[..|s| - 1];
      assert s == front + [s[|s| - 1]];
      KeepAll(front, ks);
    }
  }

  lemma {:induction false} WithoutOfKeep(s: seq<Key>, ks: set<Key>, k: Key)
    ensures Without(Keep(s, ks), k) == Keep(s, ks - {k})
  {
    if s != [] {
      var front, x := s[..|s| - 1], s[|s| - 1];
      WithoutOfKeep(front, ks, k);
      if x in ks {
        WithoutConcat(Keep(front, ks), [x], k);
        WithoutOne(x, k);
      }
    }
  }

  lemma {:induction false} KeepOfWithout(s: seq<Key>, ks: set<Key>, k: Key)
    ensures Keep(Without(s, k), ks) == Keep(s, ks - {k})
  {
    if s != [] {
      var front, x := s[..|s| - 1], s[|s| - 1];
      KeepOfWithout(front, ks, k);
      if x != k {
        KeepConcat(Without(front, k), [x], ks);
        KeepOne(x, ks);
      }
    }
  }

  lemma OrderedPut(keys: seq<Key>, h: seq<Key>, k: Key)
    requires Ordered(keys, h)
    ensures Ordered(Put(keys, k), Put(h, k))
  {
    var ks := SetOf(Put(keys, k));
    KeepConcat(Without(h, k), [k], ks);
    KeepOne(k, ks);
    KeepSame(Without(h, k), ks, SetOf(keys));
    KeepOfWithout(h, SetOf(keys), k);
    WithoutOfKeep(h, SetOf(keys), k);
  }

  lemma OrderedDelete(keys: seq<Key>, h: seq<Key>, k: Key)
    requires Ordered(keys, h)
    ensures Ordered(Without(keys, k), h)
  {
    WithoutOfKeep(h, SetOf(keys), k);
    KeepSame(h, SetOf(keys) - {k}, SetOf(Without(keys, k)));
  }

  lemma LatestSplits(h: seq<Key>)
    ensures h == Victims(h, MAX_PAGES) + Latest(h, MAX_PAGES) && |Latest(h, MAX_PAGES)| <= MAX_PAGES
  {
  }

  /** What a trim lists is not among the latest pages. */
  lemma VictimsAreOld(keys: seq<Key>, h: seq<Key>, v: Key)
    requires Distinct(h) && Ordered(keys, h) && v in Victims(keys, MAX_PAGES)
    ensures v !in Latest(h, MAX_PAGES)
  {
    var past, latest := Victims(h, MAX_PAGES), Latest(h, MAX_PAGES);
    LatestSplits(h);
    KeepConcat(past, latest, SetOf(keys));
    var n := |keys| - MAX_PAGES;
    assert |Keep(past, SetOf(keys))| >= n;
    var i :| 0 <= i < n && keys[i] == v;
    assert v == Keep(past, SetOf(keys))[i] && v in past;
    DisjointParts(past, latest, v);
  }

  lemma DisjointParts(a: seq<Key>, b: seq<Key>, x: Key)
    requires Distinct(a + b) && x in a
    ensures x !in b
  {
    var i :| 0 <= i < |a| && a[i] == x;
    forall j | 0 <= j < |b| ensures b[j] != x {
      assert (a + b)[i] == x && (a + b)[|a| + j] == b[j];
    }
  }

  lemma {:induction false} WithoutLosesOne(s: seq<Key>, k: Key)
    requires Distinct(s)
    ensures |Without(s, k)| >= |s| - 1
  {
    if s != [] {
      var front := s[..|s| - 1];
      WithoutLosesOne(front, k);
      if s[|s| - 1] == k {
        WithoutAbsent(front, k);
      }
    }
  }

  /** Of `a + b + [k]`, the last entries that fit beside `b` are in `b`. */
  lemma TailOf(a: seq<Key>, b: seq<Key>, k: Key, x: Key)
    requires |b| >= MAX_PAGES - 1 && x != k && x in Latest(a + b + [k], MAX_PAGES)
    ensures x in b
  {
    var all := a + b + [k];
    var n := |Victims(all, MAX_PAGES)|;
    assert n >= |a|;
    var i :| n <= i < |all| && all[i] == x;
    assert b[i - |a|] == x;
  }

  /** Storing a page makes no other page one of the latest. */
  lemma LatestAfterPut(h: seq<Key>, k: Key, x: Key)
    requires Distinct(h) && x != k && x in Latest(Put(h, k), MAX_PAGES)
    ensures x in Latest(h, MAX_PAGES)
  {
    var past, latest := Victims(h, MAX_PAGES), Latest(h, MAX_PAGES);
    LatestSplits(h);
    if past != [] {
      SuffixDistinct(past, latest);
      WithoutLosesOne(latest, k);
      WithoutConcat(past, latest, k);
      TailOf(Without(past, k), Without(latest, k), k, x);
    } else {
      assert x in Put(h, k);
    }
  }

  lemma SuffixDistinct(a: seq<Key>, b: seq<Key>)
    requires Distinct(a + b)
    ensures Distinct(b)
  {
    forall i, j | 0 <= i < j < |b| ensures b[i] != b[j] {
      assert (a + b)[|a| + i] == b[i] && (a + b)[|a| + j] == b[j];
    }
  }

  /**
   A run with its history: the pages in order of their last put, what was stored since
   each trim listed the keys, and the pages a trim deleted that were stored since it did.
   */
  datatype Trace = Trace(p: Pages, h: seq<Key>, restored: seq<set<Key>>, struck: set<Key>)

  predicate Aligned(t: Trace) {
    |t.restored| == |t.p.deleting|
  }

  function Restore(restored: seq<set<Key>>, k: Key): (r: seq<set<Key>>)
    ensures |r| == |restored| && forall i :: 0 <= i < |r| ==> r[i] == restored[i] + {k}
  {
    seq(|restored|, i requires 0 <= i < |restored| => restored[i] + {k})
  }

  function TraceStep(t: Trace, e: Event): (t': Trace)
    requires Enabled(t.p, e) && Aligned(t)
    ensures Aligned(t') && t'.p == Step(t.p, e)
  {
    var p' := Step(t.p, e);
    match e
    case PutPage(k) => Trace(p', Put(t.h, k), Restore(t.restored, k), t.struck - {k})
    case Snapshot => Trace(p', t.h, t.restored + [{}], t.struck)
    case DeleteNext(i) =>
      var v := t.p.deleting[i][0];
      Trace(p', t.h, t.restored, if v in t.restored[i] then t.struck + {v} else t.struck)
    case Finish(i) => Trace(p', t.h, Drop(t.restored, i), t.struck)
  }

  /** What trim `i` still lists and nobody stored since is not among the latest pages. */
  ghost predicate ListsOld(t: Trace, i: nat)
    requires Aligned(t) && i < |t.p.deleting|
  {
    forall v :: v in t.p.deleting[i] && v !in t.restored[i] ==> v !in Latest(t.h, MAX_PAGES)
  }

  ghost predicate TraceInv(t: Trace) {
    && Aligned(t) && Inv(t.p) && Distinct(t.h) && Ordered(t.p.keys, t.h)
    && (forall i :: 0 <= i < |t.p.deleting| ==> ListsOld(t, i))
    && (forall k :: k in t.struck ==> k !in t.p.keys)
    && (forall k :: k in Latest(t.h, MAX_PAGES) ==> k in t.p.keys || k in t.struck)
  }

  lemma TracePut(t: Trace, k: Key)
    requires TraceInv(t)
    ensures TraceInv(TraceStep(t, PutPage(k)))
  {
    var t' := TraceStep(t, PutPage(k));
    PutKeeps(t.p, k);
    PutDistinct(t.h, k);
    OrderedPut(t.p.keys, t.h, k);
    forall i | 0 <= i < |t'.p.deleting| ensures ListsOld(t', i) {
      assert ListsOld(t, i);
      forall v | v in t'.p.deleting[i] && v !in t'.restored[i] ensures v !in Latest(t'.h, MAX_PAGES) {
        if v in Latest(t'.h, MAX_PAGES) {
          LatestAfterPut(t.h, k, v);
        }
      }
    }
    forall x | x in Latest(t'.h, MAX_PAGES) ensures x in t'.p.keys || x in t'.struck {
      if x != k {
        LatestAfterPut(t.h, k, x);
      }
    }
  }

  lemma TraceSnapshot(t: Trace)
    requires TraceInv(t) && Enabled(t.p, Snapshot)
    ensures TraceInv(TraceStep(t, Snapshot))
  {
    var t' := TraceStep(t, Snapshot);
    SnapshotKeeps(t.p);
    forall i | 0 <= i < |t'.p.deleting| ensures ListsOld(t', i) {
      if i < |t.p.deleting| {
        assert ListsOld(t, i);
      } else {
        forall v | v in t'.p.deleting[i] ensures v !in Latest(t'.h, MAX_PAGES) {
          VictimsAreOld(t.p.keys, t.h, v);
        }
      }
    }
  }

  lemma TraceDelete(t: Trace, i: nat)
    requires TraceInv(t) && Enabled(t.p, DeleteNext(i))
    ensures TraceInv(TraceStep(t, DeleteNext(i)))
  {
    var t' := TraceStep(t, DeleteNext(i));
    DeleteKeeps(t.p, i);
    OrderedDelete(t.p.keys, t.h, t.p.deleting[i][0]);
    assert ListsOld(t, i);
    forall j | 0 <= j < |t'.p.deleting| ensures ListsOld(t', j) {
      assert ListsOld(t, j);
    }
  }

  lemma FinishListsOld(t: Trace, i: nat, j: nat)
    requires Aligned(t) && Enabled(t.p, Finish(i)) && j < |t.p.deleting| - 1
    requires ListsOld(t, if j < i then j else j + 1)
    ensures ListsOld(TraceStep(t, Finish(i)), j)
  {
    var l := if j < i then j else j + 1;
    assert Drop(t.p.deleting, i)[j] == t.p.deleting[l] && Drop(t.restored, i)[j] == t.restored[l];
  }

  lemma TraceFinish(t: Trace, i: nat)
    requires TraceInv(t) && Enabled(t.p, Finish(i))
    ensures TraceInv(TraceStep(t, Finish(i)))
  {
    var t' := TraceStep(t, Finish(i));
    FinishKeeps(t.p, i);
    forall j | 0 <= j < |t'.p.deleting| ensures ListsOld(t', j) {
      assert ListsOld(t, if j < i then j else j + 1);
      FinishListsOld(t, i, j);
    }
  }

  lemma TraceKeeps(t: Trace, e: Event)
    requires TraceInv(t) && Enabled(t.p, e)
    ensures TraceInv(TraceStep(t, e))
  {
    match e
    case PutPage(k) => TracePut(t, k);
    case Snapshot => TraceSnapshot(t);
    case DeleteNext(i) => TraceDelete(t, i);
    case Finish(i) => TraceFinish(t, i);
  }

  ghost predicate TraceRun(t: Trace, es: seq<Event>, t': Trace)
    requires Aligned(t)
    decreases |es|
  {
    if es == [] then t' == t else Enabled(t.p, es[0]) && TraceRun(TraceStep(t, es[0]), es[1..], t')
  }

  lemma {:induction false} TraceRunKeeps(t: Trace, es: seq<Event>, t': Trace)
    requires TraceInv(t) && TraceRun(t, es, t')
    ensures TraceInv(t')
    decreases |es|
  {
    if es != [] {
      TraceKeeps(t, es[0]);
      TraceRunKeeps(TraceStep(t, es[0]), es[1..], t');
    }
  }

  function Opened(keys: seq<Key>): Trace {
    Trace(Pages(keys, 0, []), keys, [], {})
  }

  lemma OpenedInv(keys: seq<Key>)
    requires Distinct(keys) && |keys| <= MAX_PAGES
    ensures TraceInv(Opened(keys))
  {
    KeepAll(keys, SetOf(keys));
  }

  /** Every run of the cache is the run of a trace. */
  lemma {:induction false} RunIsTraced(t: Trace, es: seq<Event>, p': Pages)
    requires Aligned(t) && Run(t.p, es, p')
    ensures exists t' :: TraceRun(t, es, t') && t'.p == p'
    decreases |es|
  {
    if es == [] {
      assert TraceRun(t, es, t);
    } else {
      RunIsTraced(TraceStep(t, es[0]), es[1..], p');
      var t' :| TraceRun(TraceStep(t, es[0]), es[1..], t') && t'.p == p';
      assert TraceRun(t, es, t');
    }
  }

  lemma WithinBound(keys: seq<Key>, h: seq<Key>)
    requires Ordered(keys, h) && |keys| <= MAX_PAGES
    requires forall k :: k in Latest(h, MAX_PAGES) ==> k in keys
    ensures keys == Latest(h, MAX_PAGES)
  {
    var past, latest := Victims(h, MAX_PAGES), Latest(h, MAX_PAGES);
    LatestSplits(h);
    KeepConcat(past, latest, SetOf(keys));
    KeepAll(latest, SetOf(keys));
    if past != [] {
      assert |latest| == MAX_PAGES;
      assert Keep(past, SetOf(keys)) == [];
    }
  }

  /**
   In every interleaving: whenever no trim is pending the cache holds exactly the latest
   five pages, in order, unless a trim deleted one of them that was stored anew after the
   trim had listed it, and that is the one way to lose a latest page.
   */
  lemma KeepsLatestExactly(keys: seq<Key>, es: seq<Event>, t: Trace)
    requires Distinct(keys) && |keys| <= MAX_PAGES
    requires TraceRun(Opened(keys), es, t) && Pending(t.p) == 0
    ensures var five := t.h[if |t.h| > 5 then |t.h| - 5 else 0..];
            t.p.keys == five <==> forall k :: k in five ==> k !in t.struck
  {
    OpenedInv(keys);
    TraceRunKeeps(Opened(keys), es, t);
    if forall k :: k in Latest(t.h, MAX_PAGES) ==> k !in t.struck {
      WithinBound(t.p.keys, t.h);
    }
  }

  /** A delete takes one of the latest pages only if it was stored after the trim listed it. */
  lemma LatestLostOnlyIfRestored(keys: seq<Key>, es: seq<Event>, t: Trace, i: nat)
    requires Distinct(keys) && |keys| <= MAX_PAGES
    requires TraceRun(Opened(keys), es, t) && Enabled(t.p, DeleteNext(i))
    requires t.p.deleting[i][0] in Latest(t.h, MAX_PAGES)
    ensures i < |t.restored| && t.p.deleting[i][0] in t.restored[i]
  {
    OpenedInv(keys);
    TraceRunKeeps(Opened(keys), es, t);
    assert ListsOld(t, i);
  }

  /** No page is stored while a pending trim lists it. */
  predicate Fair(p: Pages, e: Event) {
    e.PutPage? ==> forall i :: 0 <= i < |p.deleting| ==> e.k !in p.deleting[i]
  }

  ghost predicate FairRun(t: Trace, es: seq<Event>)
    requires Aligned(t)
    decreases |es|
  {
    es != [] ==> Enabled(t.p, es[0]) && Fair(t.p, es[0]) && FairRun(TraceStep(t, es[0]), es[1..])
  }

  ghost predicate Unstruck(t: Trace)
    requires Aligned(t)
  {
    t.struck == {} && forall i :: 0 <= i < |t.p.deleting| ==> forall v :: v in t.restored[i] ==> v !in t.p.deleting[i]
  }

  lemma FairStep(t: Trace, e: Event)
    requires Aligned(t) && Unstruck(t) && Enabled(t.p, e) && Fair(t.p, e)
    ensures Unstruck(TraceStep(t, e))
  {
    var t' := TraceStep(t, e);
    match e
    case PutPage(_) =>
    case Snapshot =>
    case DeleteNext(i) =>
      assert t.p.deleting[i][0] in t.p.deleting[i];
      assert forall v :: v in t.p.deleting[i][1..] ==> v in t.p.deleting[i];
    case Finish(i) =>
      forall j | 0 <= j < |t'.p.deleting|
        ensures forall v :: v in t'.restored[j] ==> v !in t'.p.deleting[j]
      {
        var l := if j < i then j else j + 1;
        assert t'.restored[j] == t.restored[l] && t'.p.deleting[j] == t.p.deleting[l];
      }
  }

  lemma {:induction false} FairRunKeeps(t: Trace, es: seq<Event>, t': Trace)
    requires Aligned(t) && Unstruck(t) && FairRun(t, es) && TraceRun(t, es, t')
    ensures t'.struck == {}
    decreases |es|
  {
    if es != [] {
      FairStep(t, es[0]);
      FairRunKeeps(TraceStep(t, es[0]), es[1..], t');
    }
  }

  /** Where no page is stored while a pending trim lists it, the latest pages are kept. */
  lemma FairRunsKeepLatest(keys: seq<Key>, es: seq<Event>, t: Trace)
    requires Distinct(keys) && |keys| <= MAX_PAGES
    requires TraceRun(Opened(keys), es, t) && FairRun(Opened(keys), es) && Pending(t.p) == 0
    ensures t.p.keys == Latest(t.h, MAX_PAGES)
  {
    FairRunKeeps(Opened(keys), es, t);
    KeepsLatestExactly(keys, es, t);
  }

  // --------------------------------------------------------- the caches themselves

  datatype Response = Response(ok: bool, body: string)

  datatype Answer = FromCache(r: Response) | FromNetwork(r: Response) | OfflinePage

  /** One named cache: its keys in order of insertion, and what is stored under each. */
  class Cache {
    var keys: seq<Key>
    var stored: map<Key, Response>

    ghost predicate Valid()
      reads this
    {
      Distinct(keys) && forall k :: k in keys <==> k in stored
    }

    constructor ()
      ensures Valid() && keys == [] && stored == map[]
    {
      keys, stored := [], map[];
    }

    method PutEntry(k: Key, r: Response)
      requires Valid()
      modifies this
      ensures Valid() && keys == Put(old(keys), k) && stored == old(stored)[k := r]
    {
      PutDistinct(keys, k);
      keys := Put(keys, k);
      stored := stored[k := r];
    }

    method DeleteEntry(k: Key)
      requires Valid()
      modifies this
      ensures Valid() && keys == Without(old(keys), k) && stored == old(stored) - {k}
    {
      WithoutDistinct(keys, k);
      keys := Without(keys, k);
      stored := stored - {k};
    }

    /** `trimCache`, run alone: exactly the last `max` keys stay, in order. */
    method TrimCache(max: nat)
      requires Valid()
      modifies this
      ensures Valid() && keys == Latest(old(keys), max)
      ensures |keys| <= max && forall k :: k in keys ==> stored[k] == old(stored)[k]
    {
      var listed := keys;
      var victims := Victims(listed, max);
      ghost var was := stored;
      for i := 0 to |victims|
        invariant Valid() && keys == listed[i..]
        invariant forall k :: k in keys ==> k in was && stored[k] == was[k]
      {
        DropFirst(listed[i..]);
        assert victims[i] == listed[i..][0];
        assert listed[i..][1..] == listed[i + 1..];
        DeleteEntry(victims[i]);
      }
    }
  }

  /** The pages cache, with the puts under way and the trims that puts have started. */
  class PagesCache {
    var keys: seq<Key>
    var stored: map<Key, Response>
    var putting: seq<(Key, Response)>
    var waiting: nat
    var deleting: seq<seq<Key>>

    ghost function State(): Pages
      reads this
    {
      Pages(keys, waiting, deleting)
    }

    ghost predicate Valid()
      reads this
    {
      && Inv(State())
      && (forall k :: k in keys <==> k in stored)
      // only good answers are stored
      && (forall k :: k in stored ==> stored[k].ok)
      && (forall i :: 0 <= i < |putting| ==> putting[i].1.ok)
    }

    constructor ()
      ensures Valid() && State() == Pages([], 0, []) && putting == []
    {
      keys, stored, putting, waiting, deleting := [], map[], [], 0, [];
    }

    /**
     `networkFirst`: the answer does not wait for the cache, and a good one starts a put.
     Offline it looks in every cache, in the order they were created: `older` and `newer`
     are what the others hold.
     */
    method NetworkFirst(k: Key, network: Option<Response>, older: Option<Response>, newer: Option<Response>)
      returns (a: Answer)
      requires Valid()
      modifies `putting
      ensures Valid()
      ensures putting == old(putting) + if network.Some? && network.value.ok then [(k, network.value)] else []
      ensures network.Some? ==> a == FromNetwork(network.value)
      ensures network.None? && older.Some? ==> a == FromCache(older.value)
      ensures network.None? && older.None? && k in stored ==> a == FromCache(stored[k])
      ensures network.None? && older.None? && k !in stored && newer.Some? ==> a == FromCache(newer.value)
      ensures a == OfflinePage <==> network.None? && older.None? && k !in stored && newer.None?
    {
      if network.Some? {
        if network.value.ok {
          putting := putting + [(k, network.value)];
        }
        a := FromNetwork(network.value);
      } else if older.Some? {
        a := FromCache(older.value);
      } else if k in stored {
        a := FromCache(stored[k]);
      } else {
        a := if newer.Some? then FromCache(newer.value) else OfflinePage;
      }
    }

    /** Put `i` goes through: its page is stored, and its trim is pending. */
    method OnStored(i: nat)
      requires Valid() && i < |putting|
      modifies this
      ensures Valid() && State() == Step(old(State()), PutPage(old(putting[i].0)))
      ensures stored == old(stored)[old(putting[i].0) := old(putting[i].1)]
      ensures putting == Drop(old(putting), i)
    {
      var (k, r) := putting[i];
      PutKeeps(State(), k);
      keys := Put(keys, k);
      stored := stored[k := r];
      putting := Drop(putting, i);
      waiting := waiting + 1;
    }

    /** Put `i` fails: nothing is stored, and no trim starts. */
    method OnPutFailed(i: nat)
      requires Valid() && i < |putting|
      modifies `putting
      ensures Valid() && putting == Drop(old(putting), i)
    {
      putting := Drop(putting, i);
    }

    /** A trim gets its list of keys. */
    method OnKeys()
      requires Valid() && waiting > 0
      modifies this
      ensures Valid() && State() == Step(old(State()), Snapshot) && stored == old(stored) && putting == old(putting)
    {
      SnapshotKeeps(State());
      waiting := waiting - 1;
      deleting := deleting + [if |keys| > MAX_PAGES then keys[..|keys| - MAX_PAGES] else []];
    }

    /** One turn of a trim's loop. */
    method DeleteNextKey(t: nat)
      requires Valid() && Enabled(State(), DeleteNext(t))
      modifies this
      ensures Valid() && State() == Step(old(State()), DeleteNext(t))
      ensures stored == old(stored) - {old(deleting[t][0])} && putting == old(putting)
    {
      DeleteKeeps(State(), t);
      var k := deleting[t][0];
      keys := Without(keys, k);
      stored := stored - {k};
      deleting := deleting[t := deleting[t][1..]];
    }

    method FinishTrim(t: nat)
      requires Valid() && Enabled(State(), Finish(t))
      modifies this
      ensures Valid() && State() == Step(old(State()), Finish(t)) && stored == old(stored) && putting == old(putting)
    {
      FinishKeeps(State(), t);
      deleting := Drop(deleting, t);
    }
  }
}
