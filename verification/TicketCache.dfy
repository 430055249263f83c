/**
 The caches that answer first and revalidate in the background (apps/web/public/sw.js):
 tickets, and the application's shell.

 Visits overlap: each looks the key up, starts a fetch whatever it finds, and is
 answered at once or when its fetch is over. The `put` that a good answer starts is not
 awaited: it goes through later, or is lost, and puts may overtake one another.
 */
module TicketCache {
  import opened Text
  import P = PageCache

  type Key = P.Key
  type Response = P.Response
  type Answer = P.Answer

  /** One call of `cacheFirst`: its answer, how its fetch ended, and whether a put of it is under way. */
  datatype Visit = Visit(key: Key, answer: Option<Answer>, fetched: Option<Option<Response>>, putting: bool)

  datatype Cache = Cache(stored: map<Key, Response>, visits: seq<Visit>)

  datatype Event =
    | Arrive(k: Key)
    | Network(v: nat, r: Option<Response>)    // the fetch of visit `v` answers, or fails
    | Stored(v: nat)                          // its put goes through
    | Lost(v: nat)                            // its put fails

  predicate Enabled(c: Cache, e: Event) {
    match e
    case Arrive(_) => true
    case Network(v, _) => v < |c.visits| && c.visits[v].fetched.None?
    case Stored(v) => v < |c.visits| && c.visits[v].putting
    case Lost(v) => v < |c.visits| && c.visits[v].putting
  }

  function Get(stored: map<Key, Response>, k: Key): Option<Response> {
    if k in stored then Some(stored[k]) else None
  }

  predicate IsGood(r: Option<Response>) {
    r.Some? && r.value.ok
  }

  /** What a visitor gets who finds nothing stored. */
  function FromFetch(r: Option<Response>): Answer {
    if r.Some? then P.FromNetwork(r.value) else P.OfflinePage
  }

  function Step(c: Cache, e: Event): Cache
    requires Enabled(c, e)
  {
    match e
    case Arrive(k) =>
      var found := Get(c.stored, k);
      c.(visits := c.visits + [Visit(k, if found.Some? then Some(P.FromCache(found.value)) else None, None, false)])
    case Network(v, r) =>
      var visit := c.visits[v];
      var answer := if visit.answer.Some? then visit.answer else Some(FromFetch(r));
      c.(visits := c.visits[v := Visit(visit.key, answer, Some(r), IsGood(r))])
    case Stored(v) =>
      var visit := c.visits[v];
      Cache(if visit.fetched.Some? && visit.fetched.value.Some? then
              c.stored[visit.key := visit.fetched.value.value] else c.stored,
            c.visits[v := visit.(putting := false)])
    case Lost(v) => c.(visits := c.visits[v := c.visits[v].(putting := false)])
  }

  // ------------------------------------------------------------------- runs

  /** The cache after the events `es`, from what was stored at first. */
  function Exec(stored: map<Key, Response>, es: seq<Event>): Cache {
    if es == [] then Cache(stored, [])
    else
      var c := Exec(stored, es[..|es| - 1]);
      if Enabled(c, es[|es| - 1]) then Step(c, es[|es| - 1]) else c
  }

  /** Every event happens when it can. */
  predicate Possible(stored: map<Key, Response>, es: seq<Event>) {
    es == [] ||
    (Possible(stored, es[..|es| - 1]) && Enabled(Exec(stored, es[..|es| - 1]), es[|es| - 1]))
  }

  // ------------------------------------------------- what the history says

  /** The keys that were visited, in order of arrival. */
  function Keys(es: seq<Event>): seq<Key> {
    if es == [] then []
    else
      Keys(es[..|es| - 1]) + if es[|es| - 1].Arrive? then [es[|es| - 1].k] else []
  }

  /** Event `i` is the put of an answer for `k`. */
  predicate PutsAt(es: seq<Event>, i: nat, k: Key)
    requires i < |es|
  {
    es[i].Stored? && es[i].v < |Keys(es)| && Keys(es)[es[i].v] == k
  }

  /** The visit whose answer for `k` was put last. */
  function LastPut(es: seq<Event>, k: Key): Option<nat> {
    if es == [] then None
    else if PutsAt(es, |es| - 1, k) then Some(es[|es| - 1].v)
    else LastPut(es[..|es| - 1], k)
  }

  /** The visits of the cache are those of the history, each with the end of its fetch. */
  ghost predicate Recorded(c: Cache, es: seq<Event>) {
    && |c.visits| == |Keys(es)|
    && (forall v :: 0 <= v < |c.visits| ==> c.visits[v].key == Keys(es)[v])
    && (forall v, r :: 0 <= v < |c.visits| && c.visits[v].fetched == Some(r) ==> Network(v, r) in es)
    && (forall v: nat, r :: Network(v, r) in es ==> v < |c.visits| && c.visits[v].fetched == Some(r))
    && (forall v :: 0 <= v < |c.visits| && c.visits[v].putting ==>
          c.visits[v].fetched.Some? && IsGood(c.visits[v].fetched.value))
  }

  lemma RecordedArrive(c: Cache, es: seq<Event>, k: Key)
    requires Recorded(c, es)
    ensures Recorded(Step(c, Arrive(k)), es + [Arrive(k)])
  {
    var c', all := Step(c, Arrive(k)), es + [Arrive(k)];
    assert all[..|es|] == es;
    assert Keys(all) == Keys(es) + [k];
  }

  lemma RecordedNetwork(c: Cache, es: seq<Event>, v: nat, r: Option<Response>)
    requires Recorded(c, es) && Enabled(c, Network(v, r))
    ensures Recorded(Step(c, Network(v, r)), es + [Network(v, r)])
  {
    var all := es + [Network(v, r)];
    assert all[..|es|] == es;
    assert Keys(all) == Keys(es);
    assert all[|es|] == Network(v, r);
  }

  lemma RecordedPut(c: Cache, es: seq<Event>, v: nat, e: Event)
    requires Recorded(c, es) && Enabled(c, e) && (e == Stored(v) || e == Lost(v))
    ensures Recorded(Step(c, e), es + [e])
  {
    var all := es + [e];
    assert all[..|es|] == es;
    assert Keys(all) == Keys(es);
  }

  lemma {:induction false} RunRecords(stored: map<Key, Response>, es: seq<Event>)
    requires Possible(stored, es)
    ensures Recorded(Exec(stored, es), es)
  {
    if es != [] {
      var front, e := es[..|es| - 1], es[|es| - 1];
      RunRecords(stored, front);
      assert es == front + [e];
      match e
      case Arrive(k) => RecordedArrive(Exec(stored, front), front, k);
      case Network(v, r) => RecordedNetwork(Exec(stored, front), front, v, r);
      case Stored(v) => RecordedPut(Exec(stored, front), front, v, e);
      case Lost(v) => RecordedPut(Exec(stored, front), front, v, e);
    }
  }

  lemma {:induction false} PossiblePrefix(stored: map<Key, Response>, es: seq<Event>, n: nat)
    requires Possible(stored, es) && n <= |es|
    ensures Possible(stored, es[..n])
  {
    if n == |es| {
      assert es[..n] == es;
    } else {
      PossiblePrefix(stored, es[..|es| - 1], n);
      assert es[..|es| - 1][..n] == es[..n];
    }
  }

  // ------------------------------------------------------------ what is stored

  /** `r` is a good answer that the network gave to visit `v`. */
  predicate Answered(es: seq<Event>, v: nat, r: Option<Response>) {
    IsGood(r) && Network(v, r) in es
  }

  /**
   In every run, whatever the visits, the ends of their fetches and the order of their
   puts: what is stored under a key is the good answer put last for it, or what was
   there at first when none was. A failure or a bad answer never replaces an entry.
   */
  lemma {:induction false} StoredIsLastPut(stored: map<Key, Response>, es: seq<Event>, k: Key)
    requires Possible(stored, es)
    ensures match LastPut(es, k)
            case None => Get(Exec(stored, es).stored, k) == Get(stored, k)
            case Some(v) => Answered(es, v, Get(Exec(stored, es).stored, k))
  {
    if es != [] {
      var front, e := es[..|es| - 1], es[|es| - 1];
      StoredIsLastPut(stored, front, k);
      RunRecords(stored, front);
      assert es == front + [e];
    }
  }

  /** A put names a visit that came before it. */
  lemma PutsWereVisits(stored: map<Key, Response>, es: seq<Event>, n: nat, i: nat, k: Key)
    requires Possible(stored, es) && i < n <= |es|
    ensures PutsAt(es[..n], i, k) == PutsAt(es, i, k)
  {
    PossiblePrefix(stored, es, i + 1);
    assert es[..i + 1][..i] == es[..i] && es[..n][..i] == es[..i];
    RunRecords(stored, es[..i]);
    KeysGrow(es[..n], i);
    KeysGrow(es, i);
  }

  lemma {:induction false} KeysGrow(es: seq<Event>, n: nat)
    requires n <= |es|
    ensures Keys(es[..n]) <= Keys(es)
  {
    if n == |es| {
      assert es[..n] == es;
    } else {
      KeysGrow(es[..|es| - 1], n);
      assert es[..|es| - 1][..n] == es[..n];
    }
  }

  lemma PutStores(stored: map<Key, Response>, es: seq<Event>, e: Event, k: Key)
    requires Possible(stored, es) && Enabled(Exec(stored, es), e)
    ensures var c, c' := Exec(stored, es).stored, Step(Exec(stored, es), e).stored;
            if PutsAt(es + [e], |es|, k) then IsGood(Get(c', k)) else Get(c', k) == Get(c, k)
  {
    RunRecords(stored, es);
    assert (es + [e])[..|es|] == es;
  }

  predicate PutBetween(es: seq<Event>, n: nat, k: Key) {
    exists i :: n <= i < |es| && PutsAt(es, i, k)
  }

  /** An entry is never lost: it is the same, or a good answer for its key has been put since. */
  lemma {:induction false} EntryStaysOrImproves(stored: map<Key, Response>, es: seq<Event>, n: nat, k: Key)
    requires Possible(stored, es) && n <= |es| && k in Exec(stored, es[..n]).stored
    ensures k in Exec(stored, es).stored
    ensures || Exec(stored, es).stored[k] == Exec(stored, es[..n]).stored[k]
            || (Exec(stored, es).stored[k].ok && PutBetween(es, n, k))
  {
    if n == |es| {
      assert es[..n] == es;
    } else {
      var front, e := es[..|es| - 1], es[|es| - 1];
      assert front[..n] == es[..n] && es == front + [e];
      EntryStaysOrImproves(stored, front, n, k);
      PutStores(stored, front, e, k);
      if PutBetween(front, n, k) {
        var i :| n <= i < |front| && PutsAt(front, i, k);
        PutsWereVisits(stored, es, |front|, i, k);
      }
    }
  }

  /** The put of visit `v` goes through, or is lost. */
  predicate EndsPut(e: Event, v: nat) {
    e == Stored(v) || e == Lost(v)
  }

  lemma EndedStays(c: Cache, e: Event, v: nat)
    requires Enabled(c, e) && v < |c.visits| && (c.visits[v].fetched.None? ==> !c.visits[v].putting)
    requires EndsPut(e, v) || (c.visits[v].fetched.Some? && !c.visits[v].putting)
    ensures v < |Step(c, e).visits| && Step(c, e).visits[v].fetched.Some? && !Step(c, e).visits[v].putting
  {
  }

  lemma {:induction false} PutHasEnded(stored: map<Key, Response>, es: seq<Event>, i: nat, v: nat)
    requires Possible(stored, es) && i < |es| && EndsPut(es[i], v)
    ensures var visits := Exec(stored, es).visits;
            v < |visits| && visits[v].fetched.Some? && !visits[v].putting
  {
    var front, e := es[..|es| - 1], es[|es| - 1];
    RunRecords(stored, front);
    if i < |front| {
      PutHasEnded(stored, front, i, v);
    }
    EndedStays(Exec(stored, front), e, v);
  }

  /** The put of a visit ends once: one that was lost never goes through later. */
  lemma PutEndsOnce(stored: map<Key, Response>, es: seq<Event>, i: nat, j: nat, v: nat)
    requires Possible(stored, es) && i < j < |es| && EndsPut(es[i], v)
    ensures !EndsPut(es[j], v)
  {
    PossiblePrefix(stored, es, j);
    PossiblePrefix(stored, es, j + 1);
    assert es[..j + 1][..j] == es[..j] && es[..j][i] == es[i];
    PutHasEnded(stored, es[..j], i, v);
  }

  // ---------------------------------------------------------- what visitors get

  /** The number of the visit that event `i` begins. */
  function VisitOf(es: seq<Event>, i: nat): nat
    requires i < |es|
  {
    |Keys(es[..i])|
  }

  lemma {:induction false} AnswerOf(stored: map<Key, Response>, es: seq<Event>, i: nat)
    requires Possible(stored, es) && i < |es| && es[i].Arrive?
    ensures var found := Get(Exec(stored, es[..i]).stored, es[i].k);
            var visits := Exec(stored, es).visits;
            && VisitOf(es, i) < |visits|
            && visits[VisitOf(es, i)].answer ==
               if found.Some? then Some(P.FromCache(found.value))
               else match visits[VisitOf(es, i)].fetched
                 case None => None
                 case Some(r) => Some(FromFetch(r))
  {
    var front, e := es[..|es| - 1], es[|es| - 1];
    RunRecords(stored, front);
    if i < |front| {
      AnswerOf(stored, front, i);
      assert front[..i] == es[..i];
    }
  }

  /** A key is stored exactly when it was at first, or when a put for it has gone through. */
  lemma {:induction false} StoredExactly(stored: map<Key, Response>, es: seq<Event>, k: Key)
    requires Possible(stored, es)
    ensures k in Exec(stored, es).stored <==> k in stored || PutBetween(es, 0, k)
  {
    if es != [] {
      var front, e := es[..|es| - 1], es[|es| - 1];
      assert es == front + [e];
      StoredExactly(stored, front, k);
      PutStores(stored, front, e, k);
      forall i | 0 <= i < |front| ensures PutsAt(front, i, k) == PutsAt(es, i, k) {
        PutsWereVisits(stored, es, |front|, i, k);
      }
      if PutBetween(es, 0, k) {
        var i :| 0 <= i < |es| && PutsAt(es, i, k);
        assert i == |front| || PutsAt(front, i, k);
      }
    }
  }

  /** When event `i` came, `k` was stored at first or an answer for it had been put. */
  predicate Opened(stored: map<Key, Response>, es: seq<Event>, i: nat, k: Key)
    requires i <= |es|
  {
    k in stored || PutBetween(es[..i], 0, k)
  }

  /**
   In every run, for each visit. If its key was stored at first or an answer for it had
   been put, the visitor was served from the cache on arrival, whatever the network did
   afterwards. Otherwise the answer is that of the visit's own fetch, as soon as there is
   one: the offline page exactly when the fetch failed.
   */
  lemma VisitorsAreServed(stored: map<Key, Response>, es: seq<Event>, i: nat)
    requires Possible(stored, es) && i < |es| && es[i].Arrive?
    ensures VisitOf(es, i) < |Exec(stored, es).visits|
    ensures var k, v := es[i].k, VisitOf(es, i);
            var answer := Exec(stored, es).visits[v].answer;
            && (Opened(stored, es, i, k) ==>
                  k in Exec(stored, es[..i]).stored && answer == Some(P.FromCache(Exec(stored, es[..i]).stored[k])))
            && (!Opened(stored, es, i, k) ==>
                  && (forall r :: answer == Some(FromFetch(r)) <==> Network(v, r) in es)
                  && (answer.Some? ==> exists r :: answer == Some(FromFetch(r))))
            && (answer == Some(P.OfflinePage) <==> !Opened(stored, es, i, k) && Network(v, None) in es)
  {
    PossiblePrefix(stored, es, i);
    StoredExactly(stored, es[..i], es[i].k);
    AnswerOf(stored, es, i);
    RunRecords(stored, es);
  }

  /**
   A ticket of which an answer was put, once, opens without the network for ever after,
   with the good answer that was put last.
   */
  lemma OpenedTicketsOpenOffline(stored: map<Key, Response>, es: seq<Event>, j: nat, i: nat)
    requires Possible(stored, es) && j < i < |es| && es[i].Arrive? && PutsAt(es, j, es[i].k)
    ensures VisitOf(es, i) < |Exec(stored, es).visits|
    ensures var k, answer := es[i].k, Exec(stored, es).visits[VisitOf(es, i)].answer;
            && answer.Some? && answer.value.FromCache?
            && LastPut(es[..i], k).Some? && Answered(es[..i], LastPut(es[..i], k).value, Some(answer.value.r))
  {
    var k := es[i].k;
    PutsWereVisits(stored, es, i, j, k);
    VisitorsAreServed(stored, es, i);
    PossiblePrefix(stored, es, i);
    StoredIsLastPut(stored, es[..i], k);
    PutIsSome(stored, es[..i], j, k);
  }

  lemma {:induction false} PutIsSome(stored: map<Key, Response>, es: seq<Event>, j: nat, k: Key)
    requires Possible(stored, es) && j < |es| && PutsAt(es, j, k)
    ensures LastPut(es, k).Some?
  {
    if j < |es| - 1 {
      PutsWereVisits(stored, es, |es| - 1, j, k);
      PutIsSome(stored, es[..|es| - 1], j, k);
    }
  }

  // -------------------------------------------------------------- overtaking

  /** No put for `k` comes after that of a later visit. */
  predicate InOrder(es: seq<Event>, k: Key) {
    forall i, j :: 0 <= i < j < |es| && PutsAt(es, i, k) && PutsAt(es, j, k) ==> es[i].v <= es[j].v
  }

  /** What is stored comes from the latest visit of which an answer was put. */
  predicate HoldsNewest(es: seq<Event>, k: Key) {
    forall i :: 0 <= i < |es| && PutsAt(es, i, k) ==> LastPut(es, k).Some? && es[i].v <= LastPut(es, k).value
  }

  /**
   A key holds at every moment the answer of the latest visit that has been put, exactly
   when its puts go through in the order of the visits.
   */
  lemma {:induction false} NewestIsKeptExactly(stored: map<Key, Response>, es: seq<Event>, k: Key)
    requires Possible(stored, es)
    ensures InOrder(es, k) <==> forall n :: 0 <= n <= |es| ==> HoldsNewest(es[..n], k)
  {
    if forall n :: 0 <= n <= |es| ==> HoldsNewest(es[..n], k) {
      forall i, j | 0 <= i < j < |es| && PutsAt(es, i, k) && PutsAt(es, j, k) ensures es[i].v <= es[j].v {
        PutsWereVisits(stored, es, j + 1, i, k);
        PutsWereVisits(stored, es, j + 1, j, k);
        assert HoldsNewest(es[..j + 1], k);
        assert LastPut(es[..j + 1], k) == Some(es[j].v);
      }
    }
    if InOrder(es, k) {
      forall n | 0 <= n <= |es| ensures HoldsNewest(es[..n], k) {
        InOrderPrefix(stored, es, n, k);
        PossiblePrefix(stored, es, n);
        InOrderHolds(stored, es[..n], k);
      }
    }
  }

  lemma InOrderPrefix(stored: map<Key, Response>, es: seq<Event>, n: nat, k: Key)
    requires Possible(stored, es) && n <= |es| && InOrder(es, k)
    ensures InOrder(es[..n], k)
  {
    forall i, j | 0 <= i < j < n && PutsAt(es[..n], i, k) && PutsAt(es[..n], j, k) ensures es[i].v <= es[j].v {
      PutsWereVisits(stored, es, n, i, k);
      PutsWereVisits(stored, es, n, j, k);
    }
  }

  lemma {:induction false} InOrderHolds(stored: map<Key, Response>, es: seq<Event>, k: Key)
    requires Possible(stored, es) && InOrder(es, k)
    ensures HoldsNewest(es, k)
  {
    if es != [] {
      var front := es[..|es| - 1];
      InOrderPrefix(stored, es, |front|, k);
      InOrderHolds(stored, front, k);
      forall i | 0 <= i < |es| && PutsAt(es, i, k)
        ensures LastPut(es, k).Some? && es[i].v <= LastPut(es, k).value
      {
        if i < |front| {
          PutsWereVisits(stored, es, |front|, i, k);
          assert front[i] == es[i];
        }
      }
    }
  }

  /** Two visits of one key, the answer of the first put after that of the second. */
  function Overtaken(k: Key, older: Response, newer: Response): seq<Event> {
    [Arrive(k), Arrive(k), Network(1, Some(newer)), Stored(1), Network(0, Some(older)), Stored(0)]
  }

  lemma OneMore(stored: map<Key, Response>, es: seq<Event>, e: Event)
    requires Possible(stored, es) && Enabled(Exec(stored, es), e)
    ensures Possible(stored, es + [e]) && Exec(stored, es + [e]) == Step(Exec(stored, es), e)
  {
    assert (es + [e])[..|es|] == es;
  }

  /** Puts are not ordered: the answer of an earlier visit can replace that of a later one. */
  lemma OlderAnswerOverwrites(k: Key, older: Response, newer: Response)
    requires older.ok && newer.ok
    ensures Possible(map[], Overtaken(k, older, newer))
    ensures Exec(map[], Overtaken(k, older, newer)[..4]).stored == map[k := newer]
    ensures Exec(map[], Overtaken(k, older, newer)).stored == map[k := older]
  {
    var es := Overtaken(k, older, newer);
    NewerFirst(k, older, newer);
    OneMore(map[], es[..4], es[4]);
    assert es[..4] + [es[4]] == es[..5];
    OneMore(map[], es[..5], es[5]);
    assert es[..5] + [es[5]] == es;
  }

  /** After the first four of these events. */
  lemma NewerFirst(k: Key, older: Response, newer: Response)
    requires newer.ok
    ensures var es := Overtaken(k, older, newer)[..4];
            && Possible(map[], es)
            && Exec(map[], es) == Cache(map[k := newer], [
                 Visit(k, None, None, false),
                 Visit(k, Some(P.FromNetwork(newer)), Some(Some(newer)), false)])
  {
    var es := Overtaken(k, older, newer);
    var waiting := Visit(k, None, None, false);
    var served := Visit(k, Some(P.FromNetwork(newer)), Some(Some(newer)), true);
    OneMore(map[], [], es[0]);
    assert [] + [es[0]] == es[..1];
    assert Exec(map[], es[..1]) == Cache(map[], [waiting]);
    OneMore(map[], es[..1], es[1]);
    assert es[..1] + [es[1]] == es[..2];
    assert Exec(map[], es[..2]) == Cache(map[], [waiting, waiting]);
    OneMore(map[], es[..2], es[2]);
    assert es[..2] + [es[2]] == es[..3];
    assert Exec(map[], es[..3]) == Cache(map[], [waiting, served]);
    OneMore(map[], es[..3], es[3]);
    assert es[..3] + [es[3]] == es[..4];
  }

  // --------------------------------------------------------- the worker's side

  /** One of the two caches, with the visits it has seen. */
  class FirstCache {
    var stored: map<Key, Response>
    var visits: seq<Visit>

    ghost function State(): Cache
      reads this
    {
      Cache(stored, visits)
    }

    constructor (stored: map<Key, Response>)
      ensures State() == Cache(stored, [])
    {
      this.stored, visits := stored, [];
    }

    /** `cacheFirst`, up to the start of its fetch. */
    method CacheFirst(k: Key) returns (v: nat)
      modifies this
      ensures State() == Step(old(State()), Arrive(k)) && v == old(|visits|)
    {
      v := |visits|;
      var visit := Visit(k, None, None, false);
      if k in stored {
        visit := visit.(answer := Some(P.FromCache(stored[k])));
      }
      visits := visits + [visit];
    }

    /** The fetch is over: a good answer starts a put, and a visitor who still waits is answered. */
    method OnNetwork(v: nat, r: Option<Response>)
      requires Enabled(State(), Network(v, r))
      modifies this
      ensures State() == Step(old(State()), Network(v, r))
    {
      var visit := visits[v].(fetched := Some(r), putting := r.Some? && r.value.ok);
      if visit.answer.None? {
        visit := visit.(answer := Some(if r.Some? then P.FromNetwork(r.value) else P.OfflinePage));
      }
      visits := visits[v := visit];
    }

    method OnStored(v: nat)
      requires Enabled(State(), Stored(v))
      modifies this
      ensures State() == Step(old(State()), Stored(v))
    {
      var visit := visits[v];
      if visit.fetched.Some? && visit.fetched.value.Some? {
        stored := stored[visit.key := visit.fetched.value.value];
      }
      visits := visits[v := visit.(putting := false)];
    }

    method OnPutFailed(v: nat)
      requires Enabled(State(), Lost(v))
      modifies this
      ensures State() == Step(old(State()), Lost(v))
    {
      visits := visits[v := visits[v].(putting := false)];
    }
  }
}
