/**
 What every run of the ledger keeps: the available balance is backed, blocked money is
 never negative, amounts are conserved, and a payout is returned at most once.
 */
module LedgerRuns {
  import opened Text
  import opened Ledger
  import F = Fees
  import M = Money

  // ------------------------------------------------------ relations of measures

  lemma {:induction false} HeldSplit(es: seq<Entry>, events: iset<Option<nat>>, k: Option<nat>, date: Option<int>)
    requires k in events
    ensures Sum(HeldIn(events, date), es) ==
            Sum(HeldIn(iset{k}, date), es) + Sum(HeldIn(events - iset{k}, date), es)
  {
    if es != [] {
      HeldSplit(es[..|es| - 1], events, k, date);
    }
  }

  predicate IsKey(k: Option<nat>) {
    true
  }

  ghost function Everything(): iset<Option<nat>> {
    iset k: Option<nat> | IsKey(k)
  }

  lemma {:induction false} AvailableNext(es: seq<Entry>, t: int)
    ensures Sum(AvailableAt(t + 1), es) == Sum(AvailableAt(t), es) + Sum(HeldIn(Everything(), Some(t + 1)), es)
  {
    if es != [] {
      AvailableNext(es[..|es| - 1], t);
    }
  }

  lemma {:induction false} TotalSplits(es: seq<Entry>, t: int)
    ensures Sum(All, es) == Sum(AvailableAt(t), es) + Sum(PendingAt(t), es)
  {
    if es != [] {
      TotalSplits(es[..|es| - 1], t);
    }
  }

  function Horizon(es: seq<Entry>): int {
    if es == [] then 0
    else
      var h := Horizon(es[..|es| - 1]);
      if es[|es| - 1].availableAt.Some? then M.Max(h, es[|es| - 1].availableAt.value) else h
  }

  lemma {:induction false} PendingFarAway(es: seq<Entry>, t: int)
    requires t >= Horizon(es)
    ensures Sum(PendingAt(t), es) == Sum(HeldIn(Everything(), None), es)
  {
    if es != [] {
      PendingFarAway(es[..|es| - 1], t);
    }
  }

  // ------------------------------------------------------------- the invariant

  /** For no set of events and no date is the blocked amount negative. */
  ghost predicate HeldOk(es: seq<Entry>) {
    forall events: iset<Option<nat>>, date :: Sum(HeldIn(events, date), es) >= 0
  }

  ghost function EscrowOf(es: seq<Entry>): int {
    Sum(HeldIn(iset{None}, None), es)
  }

  function Owed(ps: seq<Payout>, i: nat): int {
    if i < |ps| && !Returned(ps[i].status) then ps[i].gross else 0
  }

  function TimesReturned(ps: seq<Payout>, i: nat): int {
    if i < |ps| && Returned(ps[i].status) then 1 else 0
  }

  ghost predicate PayoutsOk(es: seq<Entry>, ps: seq<Payout>) {
    forall i: nat :: Sum(OfPayout(i), es) == -Owed(ps, i) && Sum(Reversals(i), es) == TimesReturned(ps, i)
  }

  function Outstanding(ps: seq<Payout>): int {
    if ps == [] then 0 else Outstanding(ps[..|ps| - 1]) + Owed(ps, |ps| - 1)
  }

  ghost predicate Inv(b: Books) {
    && HeldOk(b.entries)
    && Sum(Frozen, b.entries) == EscrowOf(b.entries) >= 0
    && Sum(AvailableAt(b.clock), b.entries) + Sum(Frozen, b.entries) >= 0
    && PayoutsOk(b.entries, b.payouts)
    && Sum(All, b.entries) == Sum(Earned, b.entries) - Outstanding(b.payouts)
  }

  /** Available now, with what is frozen added back. */
  ghost function Cover(b: Books): int {
    Sum(AvailableAt(b.clock), b.entries) + Sum(Frozen, b.entries)
  }

  /** What the callers provide: time goes forward, fees and policies are those of the schemas. */
  predicate Plausible(b: Books, e: Event) {
    match e
    case Tick(now) => now >= b.clock
    case RecordSale(s) => s.platformFee >= 0 && s.providerFee >= 0
    case ReleaseHolds(_, _, completed, _) => completed >= 0
    case RequestPayout(_, _, _, policy) => F.ValidPayoutPolicy(policy)
    case _ => true
  }

  /** Nothing follows but a correction by hand: paid, failed and cancelled payouts are final. */
  predicate Concluded(s: Status) {
    Transitions(s) == {}
  }

  /** A payout whose row holds `s` may be written `to`: it stays the same, or moves as allowed. */
  predicate Allowed(s: Status, to: Status) {
    !Returned(s) && (to == s || CanTransition(s, to))
  }

  /** One operation later a payout is the same, or has moved as allowed; its amounts are the same. */
  predicate Follows(p: Payout, q: Payout) {
    q == p || (q == p.(status := q.status) && CanTransition(p.status, q.status))
  }

  predicate PayoutsFollow(ps: seq<Payout>, qs: seq<Payout>) {
    |ps| <= |qs| && forall i :: 0 <= i < |ps| ==> Follows(ps[i], qs[i])
  }

  /** The books, as they are when the operation is written, can bear it. */
  ghost predicate Covered(b: Books, e: Event) {
    match e
    case Tick(_) => true
    case RecordSale(s) => NetOf(s) >= 0 || Cover(b) + NetOf(s) >= 0
    case ReleaseHolds(event, seen, _, _) => seen <= 0 || seen <= Sum(HeldIn(UndatedKey(event), None), b.entries)
    case EarlyRelease(event, date, amount) => amount <= Sum(HeldIn(UndatedKey(event), date), b.entries)
    case RequestPayout(gross, _, _, _) => gross <= Cover(b)
    case MovePayout(id, to, _) => id < |b.payouts| && Allowed(b.payouts[id].status, to)
    case FreezeFunds(_, _) => true
    case UnfreezeFunds(amount, _) => amount <= Sum(Frozen, b.entries)
  }

  /** What a run is assumed to attempt: an operation that is refused, or that the books can bear. */
  ghost predicate Sound(b: Books, e: Event) {
    Plausible(b, e) && (Attempt(b, e).Some? ==> Covered(b, e))
  }

  /** The reading an operation was checked on is that of the books it is written to. */
  ghost predicate Fresh(b: Books, e: Event) {
    match e
    case RecordSale(s) => NetOf(s) >= 0
    case ReleaseHolds(event, seen, _, _) => seen == Sum(HeldIn(UndatedKey(event), None), b.entries)
    case EarlyRelease(event, date, amount) => amount <= Sum(HeldIn(UndatedKey(event), date), b.entries)
    case RequestPayout(_, seen, _, _) => seen == Sum(AvailableAt(b.clock), b.entries)
    case MovePayout(id, _, from) => id < |b.payouts| ==> from == b.payouts[id].status
    case FreezeFunds(_, seen) => seen == Sum(All, b.entries)
    case UnfreezeFunds(_, seen) => seen == Sum(Frozen, b.entries)
    case Tick(_) => true
  }

  // --------------------------------------------------- what an operation appends

  ghost predicate HeldStays(es: seq<Entry>, added: seq<Entry>) {
    forall events: iset<Option<nat>>, date ::
      Sum(HeldIn(events, date), es) + Sum(HeldIn(events, date), added) >= 0
  }

  ghost predicate NoPayout(added: seq<Entry>) {
    forall i: nat :: Sum(OfPayout(i), added) == 0 && Sum(Reversals(i), added) == 0
  }

  /** Appending `added` moves money between pockets, or earns it. */
  ghost predicate Harmless(b: Books, added: seq<Entry>) {
    && HeldStays(b.entries, added)
    && Sum(Frozen, added) == EscrowOf(added)
    && Sum(Frozen, b.entries) + Sum(Frozen, added) >= 0
    && Cover(b) + Sum(AvailableAt(b.clock), added) + Sum(Frozen, added) >= 0
    && NoPayout(added)
    && Sum(All, added) == Sum(Earned, added)
  }

  lemma HarmlessKeeps(b: Books, added: seq<Entry>)
    requires Inv(b) && Harmless(b, added)
    ensures Inv(b.(entries := b.entries + added))
  {
    var es := b.entries + added;
    forall events: iset<Option<nat>>, date ensures Sum(HeldIn(events, date), es) >= 0 {
      SumConcat(HeldIn(events, date), b.entries, added);
    }
    forall i: nat
      ensures Sum(OfPayout(i), es) == -Owed(b.payouts, i) && Sum(Reversals(i), es) == TimesReturned(b.payouts, i)
    {
      SumConcat(OfPayout(i), b.entries, added);
      SumConcat(Reversals(i), b.entries, added);
    }
    SumConcat(Frozen, b.entries, added);
    SumConcat(HeldIn(iset{None}, None), b.entries, added);
    SumConcat(AvailableAt(b.clock), b.entries, added);
    SumConcat(All, b.entries, added);
    SumConcat(Earned, b.entries, added);
  }

  // --------------------------------------------------------------------- sales

  predicate FeesOk(s: SaleInput) {
    s.platformFee >= 0 && s.providerFee >= 0
  }

  lemma SumSale(m: Measure, s: SaleInput)
    ensures var p := PlanOf(s);
            Sum(m, SaleEntries(s)) ==
              Weight(m, SaleEntry(s, p, Sale, s.gross))
              + WeightIf(m, s.platformFee > 0, SaleEntry(s, p, PlatformFee, -s.platformFee))
              + WeightIf(m, s.providerFee > 0, SaleEntry(s, p, ProviderFee, -s.providerFee))
              + WeightIf(m, IsSplit(p), HoldEntry(s.event, -p.held))
              + WeightIf(m, IsSplit(p), DatedRelease(s.event, p.held, p.date))
  {
    var p := PlanOf(s);
    SumFive(m, SaleEntry(s, p, Sale, s.gross),
            s.platformFee > 0, SaleEntry(s, p, PlatformFee, -s.platformFee),
            s.providerFee > 0, SaleEntry(s, p, ProviderFee, -s.providerFee),
            IsSplit(p), HoldEntry(s.event, -p.held), DatedRelease(s.event, p.held, p.date));
  }

  lemma SumFive(m: Measure, e: Entry, c: bool, f: Entry, d: bool, g: Entry, x: bool, h: Entry, i: Entry)
    ensures Sum(m, One(true, e) + One(c, f) + One(d, g) + (One(x, h) + One(x, i))) ==
            Weight(m, e) + WeightIf(m, c, f) + WeightIf(m, d, g) + WeightIf(m, x, h) + WeightIf(m, x, i)
  {
    SumConcat(m, One(true, e) + One(c, f) + One(d, g), One(x, h) + One(x, i));
    SumConcat(m, One(true, e) + One(c, f), One(d, g));
    SumTwo(m, true, e, c, f);
    SumOne(m, d, g);
    SumTwo(m, x, h, x, i);
  }

  /** With a negative net nothing is held, and nothing is released. */
  lemma NegativePlan(s: SaleInput)
    requires NetOf(s) < 0
    ensures !BornPending(PlanOf(s)) && !IsSplit(PlanOf(s))
  {
    TierExactly(s.verified, s.completed);
  }

  lemma SaleHeld(s: SaleInput, events: iset<Option<nat>>, date: Option<int>)
    requires FeesOk(s)
    ensures Sum(HeldIn(events, date), SaleEntries(s)) >= 0
  {
    SumSale(HeldIn(events, date), s);
    if NetOf(s) < 0 {
      NegativePlan(s);
    } else {
      PlanSplitsNet(NetOf(s), s.verified, s.completed, s.endsAt);
    }
  }

  lemma SaleAvailable(s: SaleInput, t: int)
    requires FeesOk(s)
    ensures NetOf(s) >= 0 ==> Sum(AvailableAt(t), SaleEntries(s)) >= 0
    ensures NetOf(s) < 0 ==> Sum(AvailableAt(t), SaleEntries(s)) == NetOf(s)
  {
    SumSale(AvailableAt(t), s);
    if NetOf(s) < 0 {
      NegativePlan(s);
    } else {
      PlanSplitsNet(NetOf(s), s.verified, s.completed, s.endsAt);
    }
  }

  /**
   What a sale makes available at `t`, read off the tiers: nothing for an organization
   that is not verified; else all of the net from 48 hours after the event, and until
   then 60 % of it after three completed events. A negative net is owed at once.
   */
  function SaleDue(s: SaleInput, t: int): int {
    var net := s.gross - s.platformFee - s.providerFee;
    if net < 0 then net
    else if !s.verified || s.completed < 0 then 0
    else if t >= s.endsAt + 172800000 then net
    else if s.completed >= 3 then net * 60 / 100 else 0
  }

  /** The plan of a net that is not negative, tier by tier. */
  lemma PlanIs(s: SaleInput)
    requires NetOf(s) >= 0
    ensures var net, date, p := NetOf(s), Some(s.endsAt + 172800000), PlanOf(s);
            if !s.verified || s.completed < 0 then p == Plan(0, net, None)
            else
              && p.immediate == (if s.completed >= 3 then net * 60 / 100 else 0)
              && p.immediate + p.held == net && p.held >= 0 && p.date == if p.held > 0 then date else None
  {
    TierExactly(s.verified, s.completed);
    PlanSplitsNet(NetOf(s), s.verified, s.completed, s.endsAt);
  }

  /** The entries of a sale, in terms of its plan: the blocked ones come later, or never. */
  lemma SaleByPlan(s: SaleInput, p: Plan, t: int)
    requires FeesOk(s) && p == PlanOf(s) && p.immediate + p.held == NetOf(s) && p.immediate >= 0 && p.held >= 0
    ensures var come := p.date.Some? && p.date.value <= t;
            Sum(AvailableAt(t), SaleEntries(s)) == p.immediate + if come || p.held == 0 then p.held else 0
  {
    SumSale(AvailableAt(t), s);
  }

  lemma SaleIsDue(s: SaleInput, t: int)
    requires FeesOk(s)
    ensures Sum(AvailableAt(t), SaleEntries(s)) == SaleDue(s, t)
  {
    if NetOf(s) < 0 {
      SaleAvailable(s, t);
    } else {
      PlanIs(s);
      SaleByPlan(s, PlanOf(s), t);
    }
  }

  /**
   A sale never lowers the available balance, at any instant and for any tier, exactly
   when its net is not negative; a negative net is taken from it at once.
   */
  lemma SaleAddsExactly(s: SaleInput)
    requires FeesOk(s)
    ensures (forall t :: Sum(AvailableAt(t), SaleEntries(s)) >= 0) <==> NetOf(s) >= 0
    ensures NetOf(s) < 0 ==> forall t :: Sum(AvailableAt(t), SaleEntries(s)) == NetOf(s)
  {
    forall t
      ensures NetOf(s) >= 0 ==> Sum(AvailableAt(t), SaleEntries(s)) >= 0
      ensures NetOf(s) < 0 ==> Sum(AvailableAt(t), SaleEntries(s)) == NetOf(s)
    {
      SaleAvailable(s, t);
    }
    assert NetOf(s) < 0 ==> Sum(AvailableAt(0), SaleEntries(s)) < 0;
  }

  lemma SaleTotals(s: SaleInput)
    requires FeesOk(s)
    ensures Sum(All, SaleEntries(s)) == Sum(Earned, SaleEntries(s)) == NetOf(s)
    ensures Sum(Frozen, SaleEntries(s)) == 0 == EscrowOf(SaleEntries(s))
  {
    SumSale(All, s);
    SumSale(Earned, s);
    SumSale(Frozen, s);
    SumSale(HeldIn(iset{None}, None), s);
  }

  lemma SaleHasNoPayout(s: SaleInput)
    ensures NoPayout(SaleEntries(s))
  {
    forall i: nat ensures Sum(OfPayout(i), SaleEntries(s)) == 0 && Sum(Reversals(i), SaleEntries(s)) == 0 {
      SumSale(OfPayout(i), s);
      SumSale(Reversals(i), s);
    }
  }

  lemma SaleIsHarmless(b: Books, s: SaleInput)
    requires Inv(b) && FeesOk(s) && (NetOf(s) >= 0 || Cover(b) + NetOf(s) >= 0)
    ensures Harmless(b, SaleEntries(s))
  {
    forall events: iset<Option<nat>>, date
      ensures Sum(HeldIn(events, date), b.entries) + Sum(HeldIn(events, date), SaleEntries(s)) >= 0
    {
      SaleHeld(s, events, date);
    }
    SaleAvailable(s, b.clock);
    SaleTotals(s);
    SaleHasNoPayout(s);
  }

  // ------------------------------------------------------------------ releases

  lemma SumHolds(m: Measure, event: nat, net: int, p: Plan)
    ensures Sum(m, HoldEntries(event, net, p)) ==
            Weight(m, UndatedHold(event, -net)) + WeightIf(m, p.immediate > 0, ReleaseNow(event, p.immediate))
            + WeightIf(m, p.held > 0, DatedRelease(event, p.held, p.date))
  {
    SumConcat(m, One(true, UndatedHold(event, -net)),
              One(p.immediate > 0, ReleaseNow(event, p.immediate))
              + One(p.held > 0, DatedRelease(event, p.held, p.date)));
    SumOne(m, true, UndatedHold(event, -net));
    SumTwo(m, p.immediate > 0, ReleaseNow(event, p.immediate), p.held > 0, DatedRelease(event, p.held, p.date));
  }

  lemma TakenFromHeld(es: seq<Entry>, events: iset<Option<nat>>, event: nat, date: Option<int>)
    requires HeldOk(es) && Some(event) in events
    ensures Sum(HeldIn(events, date), es) >= Sum(HeldIn(UndatedKey(event), date), es)
  {
    HeldSplit(es, events, Some(event), date);
    assert Sum(HeldIn(events - iset{Some(event)}, date), es) >= 0;
  }

  lemma HoldsHeld(es: seq<Entry>, event: nat, net: int, p: Plan, events: iset<Option<nat>>, date: Option<int>)
    requires HeldOk(es) && net <= Sum(HeldIn(UndatedKey(event), None), es)
    requires p.held >= 0
    ensures Sum(HeldIn(events, date), es) + Sum(HeldIn(events, date), HoldEntries(event, net, p)) >= 0
  {
    SumHolds(HeldIn(events, date), event, net, p);
    if Some(event) in events {
      TakenFromHeld(es, events, event, date);
    }
  }

  lemma HoldsTotals(event: nat, net: int, p: Plan, t: int)
    requires p.immediate + p.held == net && p.immediate >= 0 && p.held >= 0
    ensures var added := HoldEntries(event, net, p);
            && Sum(All, added) == 0 == Sum(Earned, added)
            && Sum(Frozen, added) == 0 == EscrowOf(added)
            && Sum(AvailableAt(t), added) >= 0
  {
    SumHolds(Frozen, event, net, p);
    SumHolds(HeldIn(iset{None}, None), event, net, p);
    SumHolds(AvailableAt(t), event, net, p);
    SumHolds(All, event, net, p);
    SumHolds(Earned, event, net, p);
  }

  lemma HoldsAreHarmless(b: Books, event: nat, net: int, p: Plan)
    requires Inv(b) && net <= Sum(HeldIn(UndatedKey(event), None), b.entries)
    requires p.immediate + p.held == net && p.immediate >= 0 && p.held >= 0
    ensures Harmless(b, HoldEntries(event, net, p))
  {
    var added := HoldEntries(event, net, p);
    forall events: iset<Option<nat>>, date
      ensures Sum(HeldIn(events, date), b.entries) + Sum(HeldIn(events, date), added) >= 0
    {
      HoldsHeld(b.entries, event, net, p, events, date);
    }
    HoldsTotals(event, net, p, b.clock);
    forall i: nat ensures Sum(OfPayout(i), added) == 0 && Sum(Reversals(i), added) == 0 {
      SumHolds(OfPayout(i), event, net, p);
      SumHolds(Reversals(i), event, net, p);
    }
  }

  /** Two opposite entries that concern neither a sale nor a payout. */
  predicate Transfer(e: Entry, f: Entry) {
    && e.amount + f.amount == 0 && e.payout.None? && f.payout.None?
    && e.kind !in {Sale, PlatformFee, ProviderFee, PayoutReversal}
    && f.kind !in {Sale, PlatformFee, ProviderFee, PayoutReversal}
  }

  lemma TransferTotals(e: Entry, f: Entry)
    requires Transfer(e, f)
    ensures var added := One(true, e) + One(true, f);
            Sum(All, added) == 0 == Sum(Earned, added) && NoPayout(added)
  {
    var added := One(true, e) + One(true, f);
    SumTwo(All, true, e, true, f);
    SumTwo(Earned, true, e, true, f);
    forall i: nat ensures Sum(OfPayout(i), added) == 0 && Sum(Reversals(i), added) == 0 {
      SumTwo(OfPayout(i), true, e, true, f);
      SumTwo(Reversals(i), true, e, true, f);
    }
  }

  /** What is available, frozen and in escrow after a transfer. */
  lemma TransferPockets(e: Entry, f: Entry, t: int)
    ensures var added := One(true, e) + One(true, f);
            && Sum(Frozen, added) == Weight(Frozen, e) + Weight(Frozen, f)
            && EscrowOf(added) == Weight(HeldIn(iset{None}, None), e) + Weight(HeldIn(iset{None}, None), f)
            && Sum(AvailableAt(t), added) == Weight(AvailableAt(t), e) + Weight(AvailableAt(t), f)
  {
    SumTwo(Frozen, true, e, true, f);
    SumTwo(HeldIn(iset{None}, None), true, e, true, f);
    SumTwo(AvailableAt(t), true, e, true, f);
  }

  lemma EarlyHeld(es: seq<Entry>, event: nat, date: Option<int>, amount: int,
                  events: iset<Option<nat>>, d: Option<int>)
    requires HeldOk(es) && 0 < amount <= Sum(HeldIn(UndatedKey(event), date), es)
    ensures Sum(HeldIn(events, d), es) + Sum(HeldIn(events, d), EarlyEntries(event, date, amount)) >= 0
  {
    SumTwo(HeldIn(events, d), true, Entry(Hold, -amount, true, date, Some(event), None),
           true, ReleaseNow(event, amount));
    if Some(event) in events {
      TakenFromHeld(es, events, event, d);
    }
  }

  lemma EarlyStays(es: seq<Entry>, event: nat, date: Option<int>, amount: int)
    requires HeldOk(es) && 0 < amount <= Sum(HeldIn(UndatedKey(event), date), es)
    ensures HeldStays(es, EarlyEntries(event, date, amount))
  {
    forall events: iset<Option<nat>>, d
      ensures Sum(HeldIn(events, d), es) + Sum(HeldIn(events, d), EarlyEntries(event, date, amount)) >= 0
    {
      EarlyHeld(es, event, date, amount, events, d);
    }
  }

  lemma EarlyIsHarmless(b: Books, event: nat, date: Option<int>, amount: int)
    requires HeldOk(b.entries) && Sum(Frozen, b.entries) >= 0
    requires 0 < amount <= Sum(HeldIn(UndatedKey(event), date), b.entries)
    requires Cover(b) >= 0
    ensures Harmless(b, EarlyEntries(event, date, amount))
  {
    var hold, release := Entry(Hold, -amount, true, date, Some(event), None), ReleaseNow(event, amount);
    EarlyStays(b.entries, event, date, amount);
    TransferPockets(hold, release, b.clock);
    TransferTotals(hold, release);
  }

  // ------------------------------------------------------------------- freezes

  lemma FreezeHeld(amount: int, events: iset<Option<nat>>, d: Option<int>)
    requires amount > 0
    ensures Sum(HeldIn(events, d), FreezeEntries(amount)) >= 0
  {
    SumTwo(HeldIn(events, d), true, FreezeEntry(Freeze, -amount), true, Escrow(amount));
  }

  lemma FreezeStays(es: seq<Entry>, amount: int)
    requires HeldOk(es) && amount > 0
    ensures HeldStays(es, FreezeEntries(amount))
  {
    forall events: iset<Option<nat>>, d
      ensures Sum(HeldIn(events, d), es) + Sum(HeldIn(events, d), FreezeEntries(amount)) >= 0
    {
      FreezeHeld(amount, events, d);
    }
  }

  lemma FreezeIsHarmless(b: Books, amount: int)
    requires HeldOk(b.entries) && Sum(Frozen, b.entries) >= 0 && amount > 0
    requires Cover(b) >= 0
    ensures Harmless(b, FreezeEntries(amount))
  {
    FreezeStays(b.entries, amount);
    TransferPockets(FreezeEntry(Freeze, -amount), Escrow(amount), b.clock);
    TransferTotals(FreezeEntry(Freeze, -amount), Escrow(amount));
  }

  lemma UnfreezeHeld(es: seq<Entry>, amount: int, events: iset<Option<nat>>, d: Option<int>)
    requires HeldOk(es) && 0 < amount <= EscrowOf(es)
    ensures Sum(HeldIn(events, d), es) + Sum(HeldIn(events, d), UnfreezeEntries(amount)) >= 0
  {
    SumTwo(HeldIn(events, d), true, Escrow(-amount), true, FreezeEntry(Unfreeze, amount));
    if None in events {
      HeldSplit(es, events, None, d);
      assert Sum(HeldIn(events - iset{None}, d), es) >= 0;
    }
  }

  lemma UnfreezeStays(es: seq<Entry>, amount: int)
    requires HeldOk(es) && 0 < amount <= EscrowOf(es)
    ensures HeldStays(es, UnfreezeEntries(amount))
  {
    forall events: iset<Option<nat>>, d
      ensures Sum(HeldIn(events, d), es) + Sum(HeldIn(events, d), UnfreezeEntries(amount)) >= 0
    {
      UnfreezeHeld(es, amount, events, d);
    }
  }

  lemma UnfreezeIsHarmless(b: Books, amount: int)
    requires HeldOk(b.entries) && 0 < amount <= Sum(Frozen, b.entries) == EscrowOf(b.entries)
    requires Cover(b) >= 0
    ensures Harmless(b, UnfreezeEntries(amount))
  {
    UnfreezeStays(b.entries, amount);
    TransferPockets(Escrow(-amount), FreezeEntry(Unfreeze, amount), b.clock);
    TransferTotals(Escrow(-amount), FreezeEntry(Unfreeze, amount));
  }

  // ------------------------------------------------------------------- payouts

  /** Entries of one payout, all available, that move `amount`. */
  ghost predicate PayoutOnly(added: seq<Entry>, id: nat, amount: int, reversals: int) {
    && (forall events: iset<Option<nat>>, date :: Sum(HeldIn(events, date), added) == 0)
    && (forall t :: Sum(AvailableAt(t), added) == amount)
    && Sum(Frozen, added) == 0 == Sum(Earned, added) && Sum(All, added) == amount
    && (forall i: nat :: Sum(OfPayout(i), added) == (if i == id then amount else 0)
                         && Sum(Reversals(i), added) == if i == id then reversals else 0)
  }

  lemma RequestEntries(id: nat, net: int, fee: int)
    requires net > 0 && fee >= 0
    ensures PayoutOnly(PayoutEntries(id, net, fee), id, -(net + fee), 0)
  {
    var a, c := PayoutEntry(PayoutDebit, -net, id), PayoutEntry(PayoutFee, -fee, id);
    var added := PayoutEntries(id, net, fee);
    forall m: Measure ensures Sum(m, added) == Weight(m, a) + WeightIf(m, fee > 0, c) {
      SumTwo(m, true, a, fee > 0, c);
    }
  }

  lemma ReversalEntry(id: nat, gross: int)
    ensures PayoutOnly([PayoutEntry(PayoutReversal, gross, id)], id, gross, 1)
  {
    var e := PayoutEntry(PayoutReversal, gross, id);
    forall m: Measure ensures Sum(m, [e]) == Weight(m, e) {
      SumOne(m, true, e);
    }
  }

  lemma PayoutOnlyKeeps(b: Books, added: seq<Entry>, id: nat, amount: int, reversals: int, ps: seq<Payout>)
    requires Inv(b) && PayoutOnly(added, id, amount, reversals)
    requires Sum(AvailableAt(b.clock), b.entries) + Sum(Frozen, b.entries) + amount >= 0
    requires Outstanding(ps) == Outstanding(b.payouts) - amount
    requires forall i: nat :: Owed(ps, i) == Owed(b.payouts, i) - if i == id then amount else 0
    requires forall i: nat :: TimesReturned(ps, i) == TimesReturned(b.payouts, i) + if i == id then reversals else 0
    ensures Inv(Books(b.clock, b.entries + added, ps))
  {
    var es := b.entries + added;
    forall events: iset<Option<nat>>, date ensures Sum(HeldIn(events, date), es) >= 0 {
      SumConcat(HeldIn(events, date), b.entries, added);
    }
    forall i: nat ensures Sum(OfPayout(i), es) == -Owed(ps, i) && Sum(Reversals(i), es) == TimesReturned(ps, i) {
      SumConcat(OfPayout(i), b.entries, added);
      SumConcat(Reversals(i), b.entries, added);
    }
    SumConcat(Frozen, b.entries, added);
    SumConcat(HeldIn(iset{None}, None), b.entries, added);
    SumConcat(AvailableAt(b.clock), b.entries, added);
    SumConcat(All, b.entries, added);
    SumConcat(Earned, b.entries, added);
  }

  lemma {:induction false} OutstandingMoved(ps: seq<Payout>, i: nat, p: Payout)
    requires i < |ps|
    ensures Outstanding(ps[i := p]) ==
            Outstanding(ps) - Owed(ps, i) + (if Returned(p.status) then 0 else p.gross)
  {
    var last := |ps| - 1;
    if i < last {
      OutstandingMoved(ps[..last], i, p);
      assert ps[i := p][..last] == ps[..last][i := p];
    } else {
      assert ps[i := p][..last] == ps[..last];
    }
  }

  /** An accepted request debits exactly its gross amount, at every instant. */
  lemma RequestDebits(b: Books, gross: int, seen: int, allowed: bool, policy: F.PayoutPolicy)
    requires Request(b, gross, seen, allowed, policy).Some? && F.ValidPayoutPolicy(policy)
    ensures var b' := Request(b, gross, seen, allowed, policy).value;
            && b'.clock == b.clock && 0 < gross <= seen
            && PayoutOnly(b'.entries[|b.entries|..], |b.payouts|, -gross, 0)
            && b'.entries == b.entries + b'.entries[|b.entries|..]
            && b'.payouts[..|b.payouts|] == b.payouts && |b'.payouts| == |b.payouts| + 1
            && b'.payouts[|b.payouts|].gross == gross && b'.payouts[|b.payouts|].status == Pending
            && forall t :: Sum(AvailableAt(t), b'.entries) == Sum(AvailableAt(t), b.entries) - gross
  {
    var id := |b.payouts|;
    var fee := F.ComputePayoutFee(gross, policy).value;
    var added := PayoutEntries(id, gross - fee, fee);
    assert ValidAmount(added[0].kind, added[0].amount);
    RequestEntries(id, gross - fee, fee);
    var b' := Request(b, gross, seen, allowed, policy).value;
    assert b'.entries[|b.entries|..] == added;
    forall t ensures Sum(AvailableAt(t), b'.entries) == Sum(AvailableAt(t), b.entries) - gross {
      SumConcat(AvailableAt(t), b.entries, added);
    }
  }

  lemma RequestKeeps(b: Books, gross: int, seen: int, allowed: bool, policy: F.PayoutPolicy)
    requires Inv(b) && Request(b, gross, seen, allowed, policy).Some?
    requires F.ValidPayoutPolicy(policy) && gross <= Cover(b)
    ensures Inv(Request(b, gross, seen, allowed, policy).value)
  {
    RequestDebits(b, gross, seen, allowed, policy);
    var b' := Request(b, gross, seen, allowed, policy).value;
    PayoutOnlyKeeps(b, b'.entries[|b.entries|..], |b.payouts|, -gross, 0, b'.payouts);
  }

  lemma ReturnKeeps(b: Books, id: nat, p: Payout)
    requires Inv(b) && id < |b.payouts| && !Returned(b.payouts[id].status)
    requires Returned(p.status) && p.gross == b.payouts[id].gross
    requires p.gross > 0
    ensures Inv(Books(b.clock, b.entries + [PayoutEntry(PayoutReversal, p.gross, id)], b.payouts[id := p]))
  {
    OutstandingMoved(b.payouts, id, p);
    ReversalEntry(id, p.gross);
    PayoutOnlyKeeps(b, [PayoutEntry(PayoutReversal, p.gross, id)], id, p.gross, 1, b.payouts[id := p]);
  }

  lemma AdvanceKeeps(b: Books, id: nat, p: Payout)
    requires Inv(b) && id < |b.payouts| && !Returned(b.payouts[id].status)
    requires !Returned(p.status) && p.gross == b.payouts[id].gross
    ensures Inv(b.(payouts := b.payouts[id := p]))
  {
    var ps := b.payouts[id := p];
    OutstandingMoved(b.payouts, id, p);
    forall i: nat ensures Owed(ps, i) == Owed(b.payouts, i) && TimesReturned(ps, i) == TimesReturned(b.payouts, i) {
    }
  }

  lemma MoveKeeps(b: Books, id: nat, to: Status, from: Status)
    requires Inv(b) && Move(b, id, to, from).Some? && !Returned(b.payouts[id].status)
    ensures Inv(Move(b, id, to, from).value)
  {
    var p := b.payouts[id].(status := to);
    if Returned(to) {
      assert ValidAmount(One(true, PayoutEntry(PayoutReversal, p.gross, id))[0].kind, p.gross);
      ReturnKeeps(b, id, p);
    } else {
      assert b.entries + [] == b.entries;
      AdvanceKeeps(b, id, p);
    }
  }

  /** An accepted move adds one reversal when it returns the amount, and none otherwise. */
  lemma MoveReverses(b: Books, id: nat, to: Status, from: Status)
    requires Move(b, id, to, from).Some?
    ensures var b' := Move(b, id, to, from).value;
            && |b'.payouts| == |b.payouts| && b'.payouts[id].status == to
            && Sum(Reversals(id), b'.entries) == Sum(Reversals(id), b.entries) + if Returned(to) then 1 else 0
  {
    var reversal := PayoutEntry(PayoutReversal, b.payouts[id].gross, id);
    SumOne(Reversals(id), Returned(to), reversal);
    SumConcat(Reversals(id), b.entries, One(Returned(to), reversal));
  }

  /**
   An accepted move leaves one reversal for a returned payout, and none otherwise,
   exactly when the payout was not returned yet.
   */
  lemma MoveReversesOnceExactly(b: Books, id: nat, to: Status, from: Status)
    requires Inv(b) && Move(b, id, to, from).Some?
    ensures var b' := Move(b, id, to, from).value;
            Sum(Reversals(id), b'.entries) == TimesReturned(b'.payouts, id) <==> !Returned(b.payouts[id].status)
  {
    MoveReverses(b, id, to, from);
    assert Sum(Reversals(id), b.entries) == TimesReturned(b.payouts, id);
  }

  /**
   An accepted move follows the documented transitions exactly when what it writes is
   the status of the row, or allowed from there: on a concluded payout exactly when it
   leaves the row as it is.
   */
  lemma MoveFollowsExactly(b: Books, id: nat, to: Status, from: Status)
    requires Move(b, id, to, from).Some?
    ensures var p, b' := b.payouts[id], Move(b, id, to, from).value;
            && (PayoutsFollow(b.payouts, b'.payouts) <==> to == p.status || CanTransition(p.status, to))
            && (Concluded(p.status) ==> (PayoutsFollow(b.payouts, b'.payouts) <==> b'.payouts[id] == p))
  {
    var p, b' := b.payouts[id], Move(b, id, to, from).value;
    assert b'.payouts[id] == p.(status := to);
    if to == p.status || CanTransition(p.status, to) {
      forall i | 0 <= i < |b.payouts| ensures Follows(b.payouts[i], b'.payouts[i]) {
      }
    } else {
      assert !Follows(b.payouts[id], b'.payouts[id]);
    }
  }

  // ---------------------------------------------------------------------- runs

  lemma {:induction false} AvailableGrows(es: seq<Entry>, t: int, u: int)
    requires HeldOk(es) && t <= u
    ensures Sum(AvailableAt(t), es) <= Sum(AvailableAt(u), es)
    decreases u - t
  {
    if t < u {
      AvailableGrows(es, t, u - 1);
      AvailableNext(es, u - 1);
    }
  }

  lemma HoldsKeep(b: Books, event: nat, seen: int, completed: int, endsAt: int)
    requires Inv(b) && Holds(b, event, seen, completed, endsAt).Some?
    requires seen <= 0 || seen <= Sum(HeldIn(UndatedKey(event), None), b.entries)
    ensures Inv(Holds(b, event, seen, completed, endsAt).value)
  {
    if seen > 0 {
      var p := PlanRelease(seen, ResolveHoldTier(true, completed), endsAt);
      PlanSplitsNet(seen, true, completed, endsAt);
      HoldsAreHarmless(b, event, seen, p);
      HarmlessKeeps(b, HoldEntries(event, seen, p));
    }
  }

  lemma CoveredKeeps(b: Books, e: Event)
    requires Inv(b) && Plausible(b, e) && Attempt(b, e).Some? && Covered(b, e)
    ensures Inv(Attempt(b, e).value)
  {
    match e
    case Tick(now) => AvailableGrows(b.entries, b.clock, now);
    case RecordSale(s) =>
      SaleIsHarmless(b, s);
      HarmlessKeeps(b, SaleEntries(s));
    case ReleaseHolds(event, seen, completed, endsAt) => HoldsKeep(b, event, seen, completed, endsAt);
    case EarlyRelease(event, date, amount) =>
      var added := EarlyEntries(event, date, amount);
      assert ValidAmount(added[1].kind, added[1].amount);
      EarlyIsHarmless(b, event, date, amount);
      HarmlessKeeps(b, added);
    case RequestPayout(gross, seen, allowed, policy) => RequestKeeps(b, gross, seen, allowed, policy);
    case MovePayout(id, to, from) => MoveKeeps(b, id, to, from);
    case FreezeFunds(amount, _) =>
      FreezeIsHarmless(b, amount);
      HarmlessKeeps(b, FreezeEntries(amount));
    case UnfreezeFunds(amount, _) =>
      UnfreezeIsHarmless(b, amount);
      HarmlessKeeps(b, UnfreezeEntries(amount));
  }

  lemma UncoveredSale(b: Books, s: SaleInput)
    requires Inv(b) && FeesOk(s) && Cover(b) + NetOf(s) < 0
    ensures !Inv(b.(entries := b.entries + SaleEntries(s)))
  {
    SaleAvailable(s, b.clock);
    SaleTotals(s);
    SumConcat(AvailableAt(b.clock), b.entries, SaleEntries(s));
    SumConcat(Frozen, b.entries, SaleEntries(s));
  }

  lemma UncoveredHold(b: Books, event: nat, seen: int, completed: int, endsAt: int)
    requires Holds(b, event, seen, completed, endsAt).Some? && completed >= 0
    requires seen > 0 && seen > Sum(HeldIn(UndatedKey(event), None), b.entries)
    ensures !Inv(Holds(b, event, seen, completed, endsAt).value)
  {
    var p := PlanRelease(seen, ResolveHoldTier(true, completed), endsAt);
    var m := HeldIn(UndatedKey(event), None);
    TierExactly(true, completed);
    PlanSplitsNet(seen, true, completed, endsAt);
    SumConcat(m, b.entries, HoldEntries(event, seen, p));
    SumHolds(m, event, seen, p);
  }

  lemma UncoveredEarly(b: Books, event: nat, date: Option<int>, amount: int)
    requires amount > Sum(HeldIn(UndatedKey(event), date), b.entries)
    ensures !Inv(b.(entries := b.entries + EarlyEntries(event, date, amount)))
  {
    var m := HeldIn(UndatedKey(event), date);
    SumConcat(m, b.entries, EarlyEntries(event, date, amount));
    SumTwo(m, true, Entry(Hold, -amount, true, date, Some(event), None), true, ReleaseNow(event, amount));
  }

  lemma UncoveredRequest(b: Books, gross: int, seen: int, allowed: bool, policy: F.PayoutPolicy)
    requires Request(b, gross, seen, allowed, policy).Some? && F.ValidPayoutPolicy(policy) && gross > Cover(b)
    ensures !Inv(Request(b, gross, seen, allowed, policy).value)
  {
    RequestDebits(b, gross, seen, allowed, policy);
    var b' := Request(b, gross, seen, allowed, policy).value;
    SumConcat(Frozen, b.entries, b'.entries[|b.entries|..]);
  }

  lemma ReturnedTwice(b: Books, id: nat, to: Status, from: Status)
    requires Inv(b) && Move(b, id, to, from).Some? && Returned(b.payouts[id].status)
    ensures !Inv(Move(b, id, to, from).value)
  {
    MoveReverses(b, id, to, from);
    assert Sum(Reversals(id), b.entries) == TimesReturned(b.payouts, id);
    var b' := Move(b, id, to, from).value;
    assert Sum(Reversals(id), b'.entries) != TimesReturned(b'.payouts, id);
  }

  lemma UncoveredMove(b: Books, id: nat, to: Status, from: Status)
    requires Inv(b) && Move(b, id, to, from).Some? && !Allowed(b.payouts[id].status, to)
    ensures var b' := Move(b, id, to, from).value; !Inv(b') || !PayoutsFollow(b.payouts, b'.payouts)
  {
    if Returned(b.payouts[id].status) {
      ReturnedTwice(b, id, to, from);
    } else {
      MoveFollowsExactly(b, id, to, from);
    }
  }

  lemma UncoveredUnfreeze(b: Books, amount: int)
    requires amount > Sum(Frozen, b.entries)
    ensures !Inv(b.(entries := b.entries + UnfreezeEntries(amount)))
  {
    SumConcat(Frozen, b.entries, UnfreezeEntries(amount));
    TransferPockets(Escrow(-amount), FreezeEntry(Unfreeze, amount), 0);
  }

  lemma UncoveredBreaks(b: Books, e: Event)
    requires Inv(b) && Plausible(b, e) && Attempt(b, e).Some? && !Covered(b, e)
    ensures var b' := Attempt(b, e).value; !Inv(b') || !PayoutsFollow(b.payouts, b'.payouts)
  {
    match e
    case RecordSale(s) => UncoveredSale(b, s);
    case ReleaseHolds(event, seen, completed, endsAt) => UncoveredHold(b, event, seen, completed, endsAt);
    case EarlyRelease(event, date, amount) => UncoveredEarly(b, event, date, amount);
    case RequestPayout(gross, seen, allowed, policy) => UncoveredRequest(b, gross, seen, allowed, policy);
    case MovePayout(id, to, from) => UncoveredMove(b, id, to, from);
    case UnfreezeFunds(amount, _) => UncoveredUnfreeze(b, amount);
  }

  lemma CoveredFollows(b: Books, e: Event)
    requires Attempt(b, e).Some? && Covered(b, e)
    ensures PayoutsFollow(b.payouts, Attempt(b, e).value.payouts)
  {
    match e
    case MovePayout(id, to, from) => MoveFollowsExactly(b, id, to, from);
    case _ =>
  }

  /**
   An accepted operation keeps the books in order, and every payout on its documented
   transitions, exactly when the books could bear it.
   */
  lemma StepKeepsExactly(b: Books, e: Event)
    requires Inv(b) && Plausible(b, e) && Attempt(b, e).Some?
    ensures Inv(Step(b, e)) && PayoutsFollow(b.payouts, Step(b, e).payouts) <==> Covered(b, e)
  {
    if Covered(b, e) {
      CoveredKeeps(b, e);
      CoveredFollows(b, e);
    } else {
      UncoveredBreaks(b, e);
    }
  }

  /** What is accepted on a reading of the books it is written to, they can bear. */
  lemma FreshIsCovered(b: Books, e: Event)
    requires Inv(b) && Plausible(b, e) && Fresh(b, e)
    ensures Sound(b, e)
  {
    match e
    case RequestPayout(gross, seen, allowed, policy) =>
    case MovePayout(id, to, from) =>
    case _ =>
  }

  lemma StepKeeps(b: Books, e: Event)
    requires Inv(b) && Sound(b, e)
    ensures Inv(Step(b, e))
  {
    if Attempt(b, e).Some? {
      CoveredKeeps(b, e);
    }
  }

  ghost predicate Run(b: Books, es: seq<Event>, b': Books)
    decreases |es|
  {
    if es == [] then b' == b else Sound(b, es[0]) && Run(Step(b, es[0]), es[1..], b')
  }

  function Opening(clock: int): Books {
    Books(clock, [], [])
  }

  lemma {:induction false} RunKeeps(b: Books, es: seq<Event>, b': Books)
    requires Inv(b) && Run(b, es, b')
    ensures Inv(b')
    decreases |es|
  {
    if es != [] {
      StepKeeps(b, es[0]);
      RunKeeps(Step(b, es[0]), es[1..], b');
    }
  }

  // ------------------------------------------------------------------ theorems

  /**
   In every run, from now on and for as long as time passes: the total is what is
   available plus what is pending, the available balance falls below zero by no more
   than what was deliberately frozen, and what is pending covers what is frozen. Without
   a freeze the available balance is never negative and never exceeds the total.
   */
  lemma BalanceIsBacked(clock: int, es: seq<Event>, b: Books, t: int)
    requires Run(Opening(clock), es, b) && t >= b.clock
    ensures Sum(All, b.entries) == Sum(AvailableAt(t), b.entries) + Sum(PendingAt(t), b.entries)
    ensures Sum(Frozen, b.entries) >= 0
    ensures Sum(AvailableAt(t), b.entries) >= -Sum(Frozen, b.entries)
    ensures Sum(PendingAt(t), b.entries) >= Sum(Frozen, b.entries)
    ensures Sum(AvailableAt(b.clock), b.entries) <= Sum(AvailableAt(t), b.entries)
  {
    RunKeeps(Opening(clock), es, b);
    TotalSplits(b.entries, t);
    AvailableGrows(b.entries, b.clock, t);
    PendingCoversFrozen(b, t);
  }

  lemma PendingCoversFrozen(b: Books, t: int)
    requires Inv(b)
    ensures Sum(PendingAt(t), b.entries) >= Sum(Frozen, b.entries)
  {
    var far := M.Max(t, Horizon(b.entries));
    TotalSplits(b.entries, t);
    TotalSplits(b.entries, far);
    AvailableGrows(b.entries, t, far);
    PendingFarAway(b.entries, far);
    HeldSplit(b.entries, Everything(), None, None);
    assert Sum(HeldIn(Everything() - iset{None}, None), b.entries) >= 0;
  }

  /** The nets of the sales a run records. */
  ghost function NetsOf(b: Books, es: seq<Event>): int
    decreases |es|
  {
    if es == [] then 0
    else
      (if es[0].RecordSale? && Attempt(b, es[0]).Some? then NetOf(es[0].sale) else 0) + NetsOf(Step(b, es[0]), es[1..])
  }

  lemma AppendsNothingEarned(es: seq<Entry>, added: seq<Entry>)
    requires Sum(Earned, added) == 0
    ensures Sum(Earned, es + added) == Sum(Earned, es)
  {
    SumConcat(Earned, es, added);
  }

  lemma HoldsEarnNothing(b: Books, event: nat, seen: int, completed: int, endsAt: int)
    requires Holds(b, event, seen, completed, endsAt).Some?
    ensures Sum(Earned, Holds(b, event, seen, completed, endsAt).value.entries) == Sum(Earned, b.entries)
  {
    if seen > 0 {
      var p := PlanRelease(seen, ResolveHoldTier(true, completed), endsAt);
      PlanSplitsNet(seen, true, completed, endsAt);
      HoldsTotals(event, seen, p, 0);
      AppendsNothingEarned(b.entries, HoldEntries(event, seen, p));
    }
  }

  lemma RequestEarnsNothing(b: Books, gross: int, seen: int, allowed: bool, policy: F.PayoutPolicy)
    requires Request(b, gross, seen, allowed, policy).Some?
    ensures Sum(Earned, Request(b, gross, seen, allowed, policy).value.entries) == Sum(Earned, b.entries)
  {
    var id, fee := |b.payouts|, F.ComputePayoutFee(gross, policy).value;
    SumTwo(Earned, true, PayoutEntry(PayoutDebit, -(gross - fee), id), fee > 0, PayoutEntry(PayoutFee, -fee, id));
    AppendsNothingEarned(b.entries, PayoutEntries(id, gross - fee, fee));
  }

  lemma MoveEarnsNothing(b: Books, id: nat, to: Status, from: Status)
    requires Move(b, id, to, from).Some?
    ensures Sum(Earned, Move(b, id, to, from).value.entries) == Sum(Earned, b.entries)
  {
    var reversal := PayoutEntry(PayoutReversal, b.payouts[id].gross, id);
    SumOne(Earned, Returned(to), reversal);
    AppendsNothingEarned(b.entries, One(Returned(to), reversal));
  }

  lemma EarlyEarnsNothing(es: seq<Entry>, event: nat, date: Option<int>, amount: int)
    ensures Sum(Earned, es + EarlyEntries(event, date, amount)) == Sum(Earned, es)
  {
    TransferTotals(Entry(Hold, -amount, true, date, Some(event), None), ReleaseNow(event, amount));
    AppendsNothingEarned(es, EarlyEntries(event, date, amount));
  }

  lemma FreezesEarnNothing(es: seq<Entry>, amount: int)
    ensures Sum(Earned, es + FreezeEntries(amount)) == Sum(Earned, es)
    ensures Sum(Earned, es + UnfreezeEntries(amount)) == Sum(Earned, es)
  {
    TransferTotals(FreezeEntry(Freeze, -amount), Escrow(amount));
    TransferTotals(Escrow(-amount), FreezeEntry(Unfreeze, amount));
    AppendsNothingEarned(es, FreezeEntries(amount));
    AppendsNothingEarned(es, UnfreezeEntries(amount));
  }

  lemma NothingEarned(b: Books, e: Event)
    requires Attempt(b, e).Some? && !e.RecordSale?
    ensures Sum(Earned, Attempt(b, e).value.entries) == Sum(Earned, b.entries)
  {
    match e
    case Tick(_) =>
    case ReleaseHolds(event, seen, completed, endsAt) => HoldsEarnNothing(b, event, seen, completed, endsAt);
    case EarlyRelease(event, date, amount) => EarlyEarnsNothing(b.entries, event, date, amount);
    case RequestPayout(gross, seen, allowed, policy) => RequestEarnsNothing(b, gross, seen, allowed, policy);
    case MovePayout(id, to, from) => MoveEarnsNothing(b, id, to, from);
    case FreezeFunds(amount, _) => FreezesEarnNothing(b.entries, amount);
    case UnfreezeFunds(amount, _) => FreezesEarnNothing(b.entries, amount);
  }

  lemma {:induction false} EarnedIsNets(b: Books, es: seq<Event>, b': Books)
    requires Run(b, es, b')
    ensures Sum(Earned, b'.entries) == Sum(Earned, b.entries) + NetsOf(b, es)
    decreases |es|
  {
    if es != [] {
      if Attempt(b, es[0]).Some? {
        if es[0].RecordSale? {
          SaleTotals(es[0].sale);
          SumConcat(Earned, b.entries, SaleEntries(es[0].sale));
        } else {
          NothingEarned(b, es[0]);
        }
      }
      EarnedIsNets(Step(b, es[0]), es[1..], b');
    }
  }

  /** Conservation: the nets of the sales, less the payouts that were not returned. */
  lemma MoneyIsConserved(clock: int, es: seq<Event>, b: Books)
    requires Run(Opening(clock), es, b)
    ensures Sum(All, b.entries) == NetsOf(Opening(clock), es) - Outstanding(b.payouts)
  {
    RunKeeps(Opening(clock), es, b);
    EarnedIsNets(Opening(clock), es, b);
  }

  /**
   Each payout weighs its gross amount until it fails or is cancelled, and nothing
   afterwards: it is reversed then, by one entry, and never again.
   */
  lemma ReversedAtMostOnce(clock: int, es: seq<Event>, b: Books, i: nat)
    requires Run(Opening(clock), es, b) && i < |b.payouts|
    ensures Sum(Reversals(i), b.entries) == if Returned(b.payouts[i].status) then 1 else 0
    ensures Sum(OfPayout(i), b.entries) == if Returned(b.payouts[i].status) then 0 else -b.payouts[i].gross
  {
    RunKeeps(Opening(clock), es, b);
    assert Sum(OfPayout(i), b.entries) == -Owed(b.payouts, i);
  }

  /** What a release of `seen` makes available at `t`, for a verified organization. */
  function HoldsDue(seen: int, completed: int, endsAt: int, t: int): int {
    if seen <= 0 then 0
    else if t >= endsAt + 172800000 then seen
    else if completed >= 3 then seen * 60 / 100 else 0
  }

  /** What an accepted operation adds to the balance available at `t`. */
  function Due(b: Books, e: Event, t: int): int {
    if Attempt(b, e).None? then 0
    else match e
      case Tick(_) => 0
      case RecordSale(s) => SaleDue(s, t)
      case ReleaseHolds(_, seen, completed, endsAt) => HoldsDue(seen, completed, endsAt, t)
      case EarlyRelease(_, date, amount) => if date.Some? && date.value <= t then 0 else amount
      case RequestPayout(gross, _, _, _) => -gross
      case MovePayout(id, to, _) =>
        if id < |b.payouts| && (to == Failed || to == Cancelled) then b.payouts[id].gross else 0
      case FreezeFunds(amount, _) => -amount
      case UnfreezeFunds(amount, _) => amount
  }

  function Dues(b: Books, es: seq<Event>, t: int): int
    decreases |es|
  {
    if es == [] then 0 else Due(b, es[0], t) + Dues(Step(b, es[0]), es[1..], t)
  }

  lemma HoldsAreDue(b: Books, event: nat, seen: int, completed: int, endsAt: int, t: int)
    requires Holds(b, event, seen, completed, endsAt).Some? && completed >= 0
    ensures Sum(AvailableAt(t), Holds(b, event, seen, completed, endsAt).value.entries) ==
            Sum(AvailableAt(t), b.entries) + HoldsDue(seen, completed, endsAt, t)
  {
    if seen > 0 {
      var p := PlanRelease(seen, ResolveHoldTier(true, completed), endsAt);
      TierExactly(true, completed);
      PlanSplitsNet(seen, true, completed, endsAt);
      SumConcat(AvailableAt(t), b.entries, HoldEntries(event, seen, p));
      SumHolds(AvailableAt(t), event, seen, p);
    }
  }

  lemma TransferIsDue(es: seq<Entry>, e: Entry, f: Entry, t: int)
    ensures Sum(AvailableAt(t), es + (One(true, e) + One(true, f))) ==
            Sum(AvailableAt(t), es) + Weight(AvailableAt(t), e) + Weight(AvailableAt(t), f)
  {
    SumConcat(AvailableAt(t), es, One(true, e) + One(true, f));
    TransferPockets(e, f, t);
  }

  lemma MoveIsDue(b: Books, id: nat, to: Status, from: Status, t: int)
    requires Move(b, id, to, from).Some?
    ensures Sum(AvailableAt(t), Move(b, id, to, from).value.entries) ==
            Sum(AvailableAt(t), b.entries) + Due(b, MovePayout(id, to, from), t)
  {
    var reversal := PayoutEntry(PayoutReversal, b.payouts[id].gross, id);
    SumOne(AvailableAt(t), Returned(to), reversal);
    SumConcat(AvailableAt(t), b.entries, One(Returned(to), reversal));
  }

  lemma SaleStepIsDue(es: seq<Entry>, s: SaleInput, t: int)
    requires FeesOk(s)
    ensures Sum(AvailableAt(t), es + SaleEntries(s)) == Sum(AvailableAt(t), es) + SaleDue(s, t)
  {
    SaleIsDue(s, t);
    SumConcat(AvailableAt(t), es, SaleEntries(s));
  }

  lemma EarlyIsDue(es: seq<Entry>, event: nat, date: Option<int>, amount: int, t: int)
    requires AllValid(EarlyEntries(event, date, amount))
    ensures Sum(AvailableAt(t), es + EarlyEntries(event, date, amount)) ==
            Sum(AvailableAt(t), es) + amount + if date.Some? && date.value <= t then -amount else 0
  {
    TransferIsDue(es, Entry(Hold, -amount, true, date, Some(event), None), ReleaseNow(event, amount), t);
  }

  lemma FreezesAreDue(es: seq<Entry>, amount: int, t: int)
    ensures Sum(AvailableAt(t), es + FreezeEntries(amount)) == Sum(AvailableAt(t), es) - amount
    ensures Sum(AvailableAt(t), es + UnfreezeEntries(amount)) == Sum(AvailableAt(t), es) + amount
  {
    TransferIsDue(es, FreezeEntry(Freeze, -amount), Escrow(amount), t);
    TransferIsDue(es, Escrow(-amount), FreezeEntry(Unfreeze, amount), t);
  }

  lemma StepIsDue(b: Books, e: Event, t: int)
    requires Plausible(b, e)
    ensures Sum(AvailableAt(t), Step(b, e).entries) == Sum(AvailableAt(t), b.entries) + Due(b, e, t)
  {
    if Attempt(b, e).Some? {
      match e
      case Tick(_) =>
      case RecordSale(s) => SaleStepIsDue(b.entries, s, t);
      case ReleaseHolds(event, seen, completed, endsAt) => HoldsAreDue(b, event, seen, completed, endsAt, t);
      case EarlyRelease(event, date, amount) => EarlyIsDue(b.entries, event, date, amount, t);
      case RequestPayout(gross, seen, allowed, policy) => RequestDebits(b, gross, seen, allowed, policy);
      case MovePayout(id, to, from) => MoveIsDue(b, id, to, from, t);
      case FreezeFunds(amount, _) => FreezesAreDue(b.entries, amount, t);
      case UnfreezeFunds(amount, _) => FreezesAreDue(b.entries, amount, t);
    }
  }

  lemma {:induction false} RunIsDue(b: Books, es: seq<Event>, b': Books, t: int)
    requires Run(b, es, b')
    ensures Sum(AvailableAt(t), b'.entries) == Sum(AvailableAt(t), b.entries) + Dues(b, es, t)
    decreases |es|
  {
    if es != [] {
      StepIsDue(b, es[0], t);
      RunIsDue(Step(b, es[0]), es[1..], b', t);
    }
  }

  /** In every run, the balance available at any instant, operation by operation. */
  lemma AvailableIsDue(clock: int, es: seq<Event>, b: Books, t: int)
    requires Run(Opening(clock), es, b)
    ensures Sum(AvailableAt(t), b.entries) == Dues(Opening(clock), es, t)
  {
    RunIsDue(Opening(clock), es, b, t);
  }

  /** Money in, money out, or a correction either way; never nothing. */
  predicate IsSigned(e: Entry) {
    && (e.kind in {Sale, Release, RefundFeeReversal, PayoutReversal, Unfreeze} ==> e.amount > 0)
    && (e.kind in {Hold, PlatformFee, ProviderFee, Refund, PayoutDebit, PayoutFee, Freeze} ==> e.amount < 0)
    && (e.kind == Adjustment ==> e.amount != 0)
  }

  predicate AllSigned(es: seq<Entry>) {
    forall i :: 0 <= i < |es| ==> IsSigned(es[i])
  }

  lemma ValidIsSigned(es: seq<Entry>)
    ensures AllValid(es) <==> AllSigned(es)
  {
    forall i | 0 <= i < |es| ensures ValidAmount(es[i].kind, es[i].amount) <==> IsSigned(es[i]) {
    }
  }

  lemma StepKeepsSigns(b: Books, e: Event)
    requires AllSigned(b.entries)
    ensures AllSigned(Step(b, e).entries)
  {
    ValidIsSigned(b.entries);
    ValidIsSigned(Step(b, e).entries);
  }

  /** Whatever is attempted, and on whatever reading, every entry ever written has the sign of its kind. */
  lemma {:induction false} EntriesAreSigned(clock: int, es: seq<Event>)
    ensures AllSigned(Exec(clock, es).entries)
  {
    if es != [] {
      EntriesAreSigned(clock, es[..|es| - 1]);
      StepKeepsSigns(Exec(clock, es[..|es| - 1]), es[|es| - 1]);
    }
  }

  /** The books after any operations, sound or not. */
  function Exec(clock: int, es: seq<Event>): Books {
    if es == [] then Opening(clock) else Step(Exec(clock, es[..|es| - 1]), es[|es| - 1])
  }

  /**
   A request is accepted exactly when it is allowed, at least the minimum, within the
   balance that was read, and more than its fee.
   */
  lemma RequestAcceptedExactly(b: Books, gross: int, seen: int, allowed: bool, policy: F.PayoutPolicy)
    requires F.ValidPayoutPolicy(policy)
    ensures Request(b, gross, seen, allowed, policy).Some? <==>
            && allowed && M.IsSafe(gross) && policy.minAmount <= gross <= seen
            && (M.RoundDiv(gross * policy.feeBps, 10000) < gross || policy.feeMax < gross)
  {
    if gross >= 0 && M.IsSafe(gross) {
      F.PayoutFeeExactly(gross, policy);
      var fee := F.ComputePayoutFee(gross, policy).value;
      ValidIsSigned(PayoutEntries(|b.payouts|, gross - fee, fee));
      var added := PayoutEntries(|b.payouts|, gross - fee, fee);
      assert added[0] == PayoutEntry(PayoutDebit, -(gross - fee), |b.payouts|);
    }
  }

  /** A move is accepted exactly along the four documented transitions from the status that was read. */
  lemma MoveAcceptedExactly(b: Books, id: nat, to: Status, from: Status)
    ensures Move(b, id, to, from).Some? <==>
            && id < |b.payouts|
            && (|| (from == Pending && (to == Processing || to == Cancelled))
                || (from == Processing && (to == Paid || to == Failed)))
            && (to == Cancelled || to == Failed ==> b.payouts[id].gross > 0)
  {
    if id < |b.payouts| {
      ValidIsSigned(One(Returned(to), PayoutEntry(PayoutReversal, b.payouts[id].gross, id)));
      if Returned(to) {
        assert One(Returned(to), PayoutEntry(PayoutReversal, b.payouts[id].gross, id))[0].kind == PayoutReversal;
      }
    }
  }

  /** Zero, one or two allowed transitions lead from `s` to `t`. */
  predicate MayBecome(s: Status, t: Status) {
    s == t || CanTransition(s, t) || exists m :: CanTransition(s, m) && CanTransition(m, t)
  }

  lemma MayBecomeStep(s: Status, m: Status, t: Status)
    requires (s == m || CanTransition(s, m)) && MayBecome(m, t)
    ensures MayBecome(s, t)
  {
  }

  /** Entries are only added, and each payout goes down its documented transitions. */
  lemma StepHistory(b: Books, e: Event)
    requires Sound(b, e)
    ensures b.entries <= Step(b, e).entries && PayoutsFollow(b.payouts, Step(b, e).payouts)
  {
    if Attempt(b, e).Some? {
      CoveredFollows(b, e);
    }
  }

  ghost predicate PayoutsBecome(ps: seq<Payout>, qs: seq<Payout>) {
    && |ps| <= |qs|
    && forall i :: 0 <= i < |ps| ==> qs[i] == ps[i].(status := qs[i].status) && MayBecome(ps[i].status, qs[i].status)
  }

  lemma PayoutsStep(ps: seq<Payout>, ms: seq<Payout>, qs: seq<Payout>)
    requires PayoutsFollow(ps, ms) && PayoutsBecome(ms, qs)
    ensures PayoutsBecome(ps, qs)
  {
    forall i | 0 <= i < |ps|
      ensures qs[i] == ps[i].(status := qs[i].status) && MayBecome(ps[i].status, qs[i].status)
    {
      assert Follows(ps[i], ms[i]);
      MayBecomeStep(ps[i].status, ms[i].status, qs[i].status);
    }
  }

  lemma {:induction false} RunHistory(b: Books, es: seq<Event>, b': Books)
    requires Run(b, es, b')
    ensures b.entries <= b'.entries && PayoutsBecome(b.payouts, b'.payouts)
    decreases |es|
  {
    if es != [] {
      StepHistory(b, es[0]);
      RunHistory(Step(b, es[0]), es[1..], b');
      PayoutsStep(b.payouts, Step(b, es[0]).payouts, b'.payouts);
    }
  }

  /**
   The past is never rewritten: entries stay, a payout keeps its amounts and moves down
   its documented transitions only, one that is paid, failed or cancelled stays the same
   record for ever, and one that is paid is never returned.
   */
  lemma ConcludedIsFinal(clock: int, es: seq<Event>, b: Books, later: seq<Event>, b': Books, i: nat)
    requires Run(Opening(clock), es, b) && Run(b, later, b') && i < |b.payouts|
    ensures b.entries <= b'.entries && i < |b'.payouts|
    ensures var p, q := b.payouts[i], b'.payouts[i];
            && q.gross == p.gross && q.fee == p.fee && MayBecome(p.status, q.status)
            && (Concluded(p.status) ==> q == p)
            && (p.status == Paid ==> Sum(Reversals(i), b'.entries) == 0 && Sum(OfPayout(i), b'.entries) == -p.gross)
  {
    RunKeeps(Opening(clock), es, b);
    RunKeeps(b, later, b');
    RunHistory(b, later, b');
    assert Sum(OfPayout(i), b'.entries) == -Owed(b'.payouts, i);
  }

  /** What an accepted operation can add to the money that is neither frozen nor paid out. */
  function Inflow(b: Books, e: Event): int {
    if Attempt(b, e).None? then 0
    else match e
      case RecordSale(s) => NetOf(s)
      case UnfreezeFunds(amount, _) => amount
      case MovePayout(id, to, _) => if Returned(to) && id < |b.payouts| then b.payouts[id].gross else 0
      case _ => 0
  }

  function Inflows(b: Books, es: seq<Event>): int
    decreases |es|
  {
    if es == [] then 0 else Inflow(b, es[0]) + Inflows(Step(b, es[0]), es[1..])
  }

  /** What is not frozen: the available balance never exceeds it. */
  ghost function Unfrozen(es: seq<Entry>): int {
    Sum(All, es) - Sum(Frozen, es)
  }

  lemma UnfrozenConcat(es: seq<Entry>, added: seq<Entry>)
    ensures Unfrozen(es + added) == Unfrozen(es) + Unfrozen(added)
  {
    SumConcat(All, es, added);
    SumConcat(Frozen, es, added);
  }

  lemma RequestUnfrozen(b: Books, gross: int, seen: int, allowed: bool, policy: F.PayoutPolicy)
    requires Request(b, gross, seen, allowed, policy).Some? && F.ValidPayoutPolicy(policy)
    ensures Unfrozen(Request(b, gross, seen, allowed, policy).value.entries) == Unfrozen(b.entries) - gross
    ensures gross > 0
  {
    RequestDebits(b, gross, seen, allowed, policy);
    var b' := Request(b, gross, seen, allowed, policy).value;
    UnfrozenConcat(b.entries, b'.entries[|b.entries|..]);
  }

  lemma HoldsUnfrozen(b: Books, event: nat, seen: int, completed: int, endsAt: int)
    requires Holds(b, event, seen, completed, endsAt).Some?
    ensures Unfrozen(Holds(b, event, seen, completed, endsAt).value.entries) == Unfrozen(b.entries)
  {
    if seen > 0 {
      var p := PlanRelease(seen, ResolveHoldTier(true, completed), endsAt);
      PlanSplitsNet(seen, true, completed, endsAt);
      HoldsTotals(event, seen, p, 0);
      UnfrozenConcat(b.entries, HoldEntries(event, seen, p));
    }
  }

  lemma TransferUnfrozen(es: seq<Entry>, e: Entry, f: Entry)
    requires Transfer(e, f)
    ensures Unfrozen(es + (One(true, e) + One(true, f))) == Unfrozen(es) - Weight(Frozen, e) - Weight(Frozen, f)
  {
    UnfrozenConcat(es, One(true, e) + One(true, f));
    TransferTotals(e, f);
    TransferPockets(e, f, 0);
  }

  lemma MoveUnfrozen(b: Books, id: nat, to: Status, from: Status)
    requires Move(b, id, to, from).Some?
    ensures Unfrozen(Move(b, id, to, from).value.entries) ==
            Unfrozen(b.entries) + if Returned(to) then b.payouts[id].gross else 0
  {
    var reversal := PayoutEntry(PayoutReversal, b.payouts[id].gross, id);
    SumOne(All, Returned(to), reversal);
    SumOne(Frozen, Returned(to), reversal);
    UnfrozenConcat(b.entries, One(Returned(to), reversal));
  }

  lemma SaleUnfrozen(es: seq<Entry>, s: SaleInput)
    requires FeesOk(s)
    ensures Unfrozen(es + SaleEntries(s)) == Unfrozen(es) + NetOf(s)
  {
    SaleTotals(s);
    UnfrozenConcat(es, SaleEntries(s));
  }

  lemma EarlyUnfrozen(es: seq<Entry>, event: nat, date: Option<int>, amount: int)
    ensures Unfrozen(es + EarlyEntries(event, date, amount)) == Unfrozen(es)
  {
    TransferUnfrozen(es, Entry(Hold, -amount, true, date, Some(event), None), ReleaseNow(event, amount));
  }

  lemma FreezesUnfrozen(es: seq<Entry>, amount: int)
    ensures Unfrozen(es + FreezeEntries(amount)) == Unfrozen(es) - amount
    ensures Unfrozen(es + UnfreezeEntries(amount)) == Unfrozen(es) + amount
  {
    TransferUnfrozen(es, FreezeEntry(Freeze, -amount), Escrow(amount));
    TransferUnfrozen(es, Escrow(-amount), FreezeEntry(Unfreeze, amount));
  }

  lemma StepUnfrozen(b: Books, e: Event)
    requires Plausible(b, e)
    ensures Unfrozen(Step(b, e).entries) <= Unfrozen(b.entries) + Inflow(b, e)
  {
    if Attempt(b, e).Some? {
      match e
      case Tick(_) =>
      case RecordSale(s) => SaleUnfrozen(b.entries, s);
      case ReleaseHolds(event, seen, completed, endsAt) => HoldsUnfrozen(b, event, seen, completed, endsAt);
      case EarlyRelease(event, date, amount) => EarlyUnfrozen(b.entries, event, date, amount);
      case RequestPayout(gross, seen, allowed, policy) => RequestUnfrozen(b, gross, seen, allowed, policy);
      case MovePayout(id, to, from) => MoveUnfrozen(b, id, to, from);
      case FreezeFunds(amount, _) => FreezesUnfrozen(b.entries, amount);
      case UnfreezeFunds(amount, _) => FreezesUnfrozen(b.entries, amount);
    }
  }

  lemma {:induction false} RunUnfrozen(b: Books, es: seq<Event>, b': Books)
    requires Run(b, es, b')
    ensures Unfrozen(b'.entries) <= Unfrozen(b.entries) + Inflows(b, es)
    decreases |es|
  {
    if es != [] {
      StepUnfrozen(b, es[0]);
      RunUnfrozen(Step(b, es[0]), es[1..], b');
    }
  }

  /** At any instant no more is available than what is not frozen. */
  lemma AvailableIsUnfrozen(b: Books, t: int)
    requires Inv(b)
    ensures Sum(AvailableAt(t), b.entries) <= Unfrozen(b.entries)
  {
    TotalSplits(b.entries, t);
    PendingCoversFrozen(b, t);
  }

  lemma FreezingAll(b: Books)
    requires Inv(b) && Sum(All, b.entries) > 0
    ensures var freeze := FreezeFunds(Sum(All, b.entries), Sum(All, b.entries));
            && Inv(Step(b, freeze)) && Unfrozen(Step(b, freeze).entries) <= 0
  {
    var total := Sum(All, b.entries);
    var freeze := FreezeFunds(total, total);
    FreezeIsHarmless(b, total);
    HarmlessKeeps(b, FreezeEntries(total));
    assert AllValid(FreezeEntries(total));
    FreezesUnfrozen(b.entries, total);
  }

  /**
   Freezing everything an organization holds. In every run from there, at every instant,
   no more is available than the nets of the sales recorded since, what was unfrozen
   since and what payouts returned since: whatever the tiers release is absorbed, and
   while there is none of these, no payout is accepted.
   */
  lemma FreezingAllStopsPayouts(clock: int, es: seq<Event>, b: Books, later: seq<Event>, b': Books, t: int,
                                gross: int, allowed: bool, policy: F.PayoutPolicy)
    requires Run(Opening(clock), es, b) && Sum(All, b.entries) > 0
    requires Run(Step(b, FreezeFunds(Sum(All, b.entries), Sum(All, b.entries))), later, b')
    requires F.ValidPayoutPolicy(policy)
    ensures var inflows := Inflows(Step(b, FreezeFunds(Sum(All, b.entries), Sum(All, b.entries))), later);
            && Sum(AvailableAt(t), b'.entries) <= inflows
            && (inflows <= 0 ==> Request(b', gross, Sum(AvailableAt(t), b'.entries), allowed, policy).None?)
  {
    var frozen := Step(b, FreezeFunds(Sum(All, b.entries), Sum(All, b.entries)));
    RunKeeps(Opening(clock), es, b);
    FreezingAll(b);
    RunKeeps(frozen, later, b');
    RunUnfrozen(frozen, later, b');
    AvailableIsUnfrozen(b', t);
    if Sum(AvailableAt(t), b'.entries) <= 0 {
      NoPayoutFromNothing(b', gross, Sum(AvailableAt(t), b'.entries), allowed, policy);
    }
  }

  lemma NoPayoutFromNothing(b: Books, gross: int, seen: int, allowed: bool, policy: F.PayoutPolicy)
    requires F.ValidPayoutPolicy(policy) && seen <= 0
    ensures Request(b, gross, seen, allowed, policy).None?
  {
    if F.ValidatePayoutRequest(gross, seen, policy).None? && F.ComputePayoutFee(gross, policy).Ok? {
      var fee := F.ComputePayoutFee(gross, policy).value;
      var added := PayoutEntries(|b.payouts|, gross - fee, fee);
      assert !ValidAmount(added[0].kind, added[0].amount);
    }
  }

  /** `releaseUnverifiedHolds` on a current reading of what the event has blocked. */
  ghost function Reading(b: Books, event: nat, completed: int, endsAt: int): Event {
    ReleaseHolds(event, Sum(HeldIn(UndatedKey(event), None), b.entries), completed, endsAt)
  }

  /** After a release for one event nothing of it is left without a date; doing it again changes nothing. */
  lemma ReleaseHoldsIsIdempotent(b: Books, event: nat, completed: int, endsAt: int)
    requires completed >= 0
    ensures var b' := Step(b, Reading(b, event, completed, endsAt));
            && Sum(All, b'.entries) == Sum(All, b.entries)
            && Sum(HeldIn(UndatedKey(event), None), b'.entries) <= 0
            && Step(b', Reading(b', event, completed, endsAt)) == b'
  {
    var net := Sum(HeldIn(UndatedKey(event), None), b.entries);
    if net > 0 {
      var p := PlanRelease(net, ResolveHoldTier(true, completed), endsAt);
      PlanSplitsNet(net, true, completed, endsAt);
      TierExactly(true, completed);
      HoldEntriesAreValid(event, net, p);
      HoldsClearUndated(b.entries, event, net, p);
    }
  }

  /** Releasing one event leaves the reading of every other one current. */
  lemma OtherReadingsStay(b: Books, event: nat, seen: int, completed: int, endsAt: int, other: nat)
    requires other != event
    ensures Sum(HeldIn(UndatedKey(other), None), Step(b, ReleaseHolds(event, seen, completed, endsAt)).entries)
         == Sum(HeldIn(UndatedKey(other), None), b.entries)
  {
    if seen > 0 {
      var m := HeldIn(UndatedKey(other), None);
      var p := PlanRelease(seen, ResolveHoldTier(true, completed), endsAt);
      SumConcat(m, b.entries, HoldEntries(event, seen, p));
      SumHolds(m, event, seen, p);
    }
  }

  lemma HoldsClearUndated(es: seq<Entry>, event: nat, net: int, p: Plan)
    requires net == Sum(HeldIn(UndatedKey(event), None), es)
    requires p.immediate + p.held == net && p.immediate >= 0 && p.held >= 0 && (p.held > 0 ==> p.date.Some?)
    ensures Sum(All, es + HoldEntries(event, net, p)) == Sum(All, es)
    ensures Sum(HeldIn(UndatedKey(event), None), es + HoldEntries(event, net, p)) == 0
  {
    SumConcat(All, es, HoldEntries(event, net, p));
    SumHolds(All, event, net, p);
    SumConcat(HeldIn(UndatedKey(event), None), es, HoldEntries(event, net, p));
    SumHolds(HeldIn(UndatedKey(event), None), event, net, p);
  }

  lemma HoldEntriesAreValid(event: nat, net: int, p: Plan)
    requires net > 0
    ensures AllValid(HoldEntries(event, net, p))
  {
  }

  // ----------------------------------------------------------------- witnesses

  /**
   The balance a request is checked against is read before the debit is written: two
   requests that read the same balance both pass, and overdraw it.
   */
  lemma StaleBalanceOverdraws(b: Books, gross: int, policy: F.PayoutPolicy)
    requires Inv(b) && gross == Sum(AvailableAt(b.clock), b.entries) > 0
    requires F.ValidPayoutPolicy(policy) && policy.feeBps == 0 && policy.minAmount <= gross && M.IsSafe(gross)
    ensures var request := RequestPayout(gross, gross, true, policy);
            Sum(AvailableAt(b.clock), Step(Step(b, request), request).entries) == -gross
  {
    var request := RequestPayout(gross, gross, true, policy);
    FullRequest(b, gross, policy);
    FullRequest(Step(b, request), gross, policy);
  }

  lemma FullRequest(b: Books, gross: int, policy: F.PayoutPolicy)
    requires gross > 0 && M.IsSafe(gross)
    requires F.ValidPayoutPolicy(policy) && policy.feeBps == 0 && policy.minAmount <= gross
    ensures var b' := Step(b, RequestPayout(gross, gross, true, policy));
            && b'.clock == b.clock
            && Sum(AvailableAt(b.clock), b'.entries) == Sum(AvailableAt(b.clock), b.entries) - gross
  {
    FreeRequest(b, gross, policy);
    RequestDebits(b, gross, gross, true, policy);
  }

  /** Without a fee, a request for what was read is accepted. */
  lemma FreeRequest(b: Books, gross: int, policy: F.PayoutPolicy)
    requires gross > 0 && M.IsSafe(gross)
    requires F.ValidPayoutPolicy(policy) && policy.feeBps == 0 && policy.minAmount <= gross
    ensures Request(b, gross, gross, true, policy).Some?
  {
    M.RoundDivExact(0, 10000);
    assert gross * policy.feeBps == 0;
  }

  /**
   The status of a payout is read before its return is written: two conclusions that
   read the same status both return the amount.
   */
  lemma StaleStatusReversesTwice(b: Books, id: nat)
    requires Inv(b) && id < |b.payouts| && b.payouts[id].status == Processing && b.payouts[id].gross > 0
    ensures var fail := MovePayout(id, Failed, Processing);
            && Sum(Reversals(id), Step(Step(b, fail), fail).entries) == 2
            && Sum(OfPayout(id), Step(Step(b, fail), fail).entries) == b.payouts[id].gross
  {
    var fail := MovePayout(id, Failed, Processing);
    assert Sum(Reversals(id), b.entries) == TimesReturned(b.payouts, id) == 0;
    assert Sum(OfPayout(id), b.entries) == -Owed(b.payouts, id);
    FailOnce(b, id);
    FailOnce(Step(b, fail), id);
  }

  /**
   Two conclusions read the same status, one pays and the other fails: the payout that
   was paid is failed afterwards, and its amount is back on the balance. The sums stay
   in order, so that nothing but the row's history tells.
   */
  lemma StaleStatusReopensPaid(b: Books, id: nat)
    requires Inv(b) && id < |b.payouts| && b.payouts[id].status == Processing && b.payouts[id].gross > 0
    ensures var b1 := Step(b, MovePayout(id, Paid, Processing));
            var b2 := Step(b1, MovePayout(id, Failed, Processing));
            && b1.payouts[id].status == Paid && b2.payouts[id].status == Failed
            && Sum(OfPayout(id), b1.entries) == -b.payouts[id].gross && Sum(OfPayout(id), b2.entries) == 0
            && Inv(b2) && !Covered(b1, MovePayout(id, Failed, Processing))
  {
    var b1 := Step(b, MovePayout(id, Paid, Processing));
    MoveKeeps(b, id, Paid, Processing);
    assert Sum(OfPayout(id), b1.entries) == -Owed(b1.payouts, id);
    FailOnce(b1, id);
    MoveKeeps(b1, id, Failed, Processing);
  }

  /** A failure written on an earlier reading returns the amount, whatever the row holds. */
  lemma FailOnce(b: Books, id: nat)
    requires id < |b.payouts| && b.payouts[id].gross > 0
    ensures var b' := Step(b, MovePayout(id, Failed, Processing));
            && |b'.payouts| == |b.payouts| && b'.payouts[id].gross == b.payouts[id].gross
            && Sum(Reversals(id), b'.entries) == Sum(Reversals(id), b.entries) + 1
            && Sum(OfPayout(id), b'.entries) == Sum(OfPayout(id), b.entries) + b.payouts[id].gross
  {
    var reversal := PayoutEntry(PayoutReversal, b.payouts[id].gross, id);
    SumOne(OfPayout(id), true, reversal);
    SumOne(Reversals(id), true, reversal);
    SumConcat(OfPayout(id), b.entries, One(true, reversal));
    SumConcat(Reversals(id), b.entries, One(true, reversal));
    assert ValidAmount(reversal.kind, reversal.amount);
  }

  /** The frozen amount is read before it is released: two releases of one reading thaw it twice. */
  lemma StaleFreezeThawsTwice(b: Books, frozen: int)
    requires frozen == Sum(Frozen, b.entries) > 0
    ensures var thaw := UnfreezeFunds(frozen, frozen);
            Sum(Frozen, Step(Step(b, thaw), thaw).entries) == -frozen
  {
    var thaw := UnfreezeFunds(frozen, frozen);
    ThawOnce(b, frozen);
    ThawOnce(Step(b, thaw), frozen);
  }

  lemma ThawOnce(b: Books, amount: int)
    requires amount > 0
    ensures Sum(Frozen, Step(b, UnfreezeFunds(amount, amount)).entries) == Sum(Frozen, b.entries) - amount
  {
    TransferPockets(Escrow(-amount), FreezeEntry(Unfreeze, amount), 0);
    SumConcat(Frozen, b.entries, UnfreezeEntries(amount));
    assert AllValid(UnfreezeEntries(amount));
  }
}
