/**
 The organizer's ledger: entries that are only ever appended, a balance computed from
 them as a function of time, release tiers, and guarded payouts
 (packages/contracts/src/finance.ts, apps/api/src/modules/finance/ledger.service.ts and
 payouts.service.ts, apps/api/src/modules/admin/moderation.service.ts,
 apps/api/src/scripts/check-freeze.ts).

 Instants are whole milliseconds. One ledger is one organization's.
 */
module Ledger {
  import opened Text
  import F = Fees
  import M = Money

  // ------------------------------------------------------------------ entries

  datatype Kind =
    | Sale | Hold | Release | PlatformFee | ProviderFee | Refund | RefundFeeReversal
    | PayoutDebit | PayoutFee | PayoutReversal | Freeze | Unfreeze | Adjustment

  datatype Entry = Entry(
    kind: Kind, amount: int, pending: bool, availableAt: Option<int>, event: Option<nat>, payout: Option<nat>)

  function SignOf(k: Kind): Option<int> {
    match k
    case Sale | Release | RefundFeeReversal | PayoutReversal | Unfreeze => Some(1)
    case Hold | PlatformFee | ProviderFee | Refund | PayoutDebit | PayoutFee | Freeze => Some(-1)
    case Adjustment => None
  }

  /** `isValidLedgerAmount` */
  predicate ValidAmount(k: Kind, amount: int) {
    amount != 0 && (SignOf(k).None? || (amount > 0 <==> SignOf(k).value > 0))
  }

  predicate Unlocked(e: Entry, now: int) {
    !e.pending || (e.availableAt.Some? && e.availableAt.value <= now)
  }

  /** What can be summed over a ledger. */
  datatype Measure =
    | All
    | AvailableAt(now: int)
    | PendingAt(instant: int)
    | HeldIn(events: iset<Option<nat>>, date: Option<int>)  // blocked until `date`, for some events
    | Earned                                                // sales, less commissions and provider fees
    | Frozen
    | OfPayout(id: nat)
    | Reversals(payout: nat)                                // a number of entries, not an amount

  ghost predicate Counts(m: Measure, e: Entry) {
    match m
    case All => true
    case AvailableAt(t) => Unlocked(e, t)
    case PendingAt(t) => !Unlocked(e, t)
    case HeldIn(events, date) => e.pending && e.availableAt == date && e.event in events
    case Earned => e.kind == Sale || e.kind == PlatformFee || e.kind == ProviderFee
    case Frozen => e.kind == Freeze || e.kind == Unfreeze
    case OfPayout(i) => e.payout == Some(i)
    case Reversals(i) => e.kind == PayoutReversal && e.payout == Some(i)
  }

  ghost function Weight(m: Measure, e: Entry): int {
    if !Counts(m, e) then 0
    else if m.Reversals? then 1
    else if m.Frozen? then -e.amount
    else e.amount
  }

  ghost function Sum(m: Measure, es: seq<Entry>): int {
    if es == [] then 0 else Sum(m, es[..|es| - 1]) + Weight(m, es[|es| - 1])
  }

  lemma {:induction false} SumConcat(m: Measure, a: seq<Entry>, b: seq<Entry>)
    ensures Sum(m, a + b) == Sum(m, a) + Sum(m, b)
  {
    if b == [] {
      assert a + b == a;
    } else {
      SumConcat(m, a, b[..|b| - 1]);
      assert (a + b)[..|a + b| - 1] == a + b[..|b| - 1];
    }
  }

  function One(c: bool, e: Entry): seq<Entry> {
    if c then [e] else []
  }

  ghost function WeightIf(m: Measure, c: bool, e: Entry): int {
    if c then Weight(m, e) else 0
  }

  lemma SumOne(m: Measure, c: bool, e: Entry)
    ensures Sum(m, One(c, e)) == WeightIf(m, c, e)
  {
    assert [e][..0] == [];
  }

  lemma SumTwo(m: Measure, c: bool, e: Entry, d: bool, f: Entry)
    ensures Sum(m, One(c, e) + One(d, f)) == WeightIf(m, c, e) + WeightIf(m, d, f)
  {
    SumConcat(m, One(c, e), One(d, f));
    SumOne(m, c, e);
    SumOne(m, d, f);
  }

  // ------------------------------------------------------------- release tiers

  datatype Tier = Tier(id: nat, requiresVerification: bool, minCompleted: int, immediatePercent: nat, holdHours: nat)

  const TIERS: seq<Tier> := [Tier(0, false, 0, 0, 0), Tier(1, true, 0, 0, 48), Tier(2, true, 3, 60, 48)]

  predicate IsEligible(t: Tier, verified: bool, completed: int) {
    (!t.requiresVerification || verified) && completed >= t.minCompleted
  }

  function Eligible(tiers: seq<Tier>, verified: bool, completed: int): seq<Tier> {
    if tiers == [] then []
    else
      (if IsEligible(tiers[0], verified, completed) then [tiers[0]] else []) + Eligible(tiers[1..], verified, completed)
  }

  function ResolveHoldTier(verified: bool, completed: int): Tier {
    var eligible := Eligible(TIERS, verified, completed);
    if eligible == [] then TIERS[0] else eligible[|eligible| - 1]
  }

  datatype Plan = Plan(immediate: int, held: int, date: Option<int>)

  function PlanRelease(net: int, tier: Tier, endsAt: int): Plan {
    if tier.id == 0 then Plan(0, net, None)
    else
      var immediate := net * tier.immediatePercent / 100;
      var held := net - immediate;
      Plan(immediate, held, if held > 0 then Some(endsAt + tier.holdHours * 3600000) else None)
  }

  /** The highest tier whose conditions are all met; the lowest one asks for nothing. */
  lemma TierExactly(verified: bool, completed: int)
    ensures ResolveHoldTier(verified, completed) ==
            if verified && completed >= 3 then TIERS[2]
            else if verified && completed >= 0 then TIERS[1] else TIERS[0]
  {
    var t0, t1, t2 := TIERS[0], TIERS[1], TIERS[2];
    assert TIERS[1..] == [t1, t2] && TIERS[1..][1..] == [t2] && TIERS[1..][1..][1..] == [];
    assert Eligible([t2], verified, completed) == if verified && completed >= 3 then [t2] else [] by {
      assert [t2][1..] == [];
    }
    assert Eligible([t1, t2], verified, completed) ==
           (if verified && completed >= 0 then [t1] else []) + Eligible([t2], verified, completed) by {
      assert [t1, t2][1..] == [t2];
    }
  }

  /** A plan splits the net and nothing else; the indivisible unit stays held. */
  lemma PlanSplitsNet(net: int, verified: bool, completed: int, endsAt: int)
    ensures var tier := ResolveHoldTier(verified, completed);
            var p := PlanRelease(net, tier, endsAt);
            && p.immediate + p.held == net
            && (net >= 0 ==> 0 <= p.immediate <= net && 0 <= p.held)
            && (tier.id == 0 ==> p.date.None? && p.immediate == 0)
            && (tier.id != 0 ==> (p.held > 0 <==> p.date == Some(endsAt + 172800000)))
            && (tier.id == 2 ==> 100 * p.immediate <= 60 * net < 100 * p.immediate + 100)
  {
    TierExactly(verified, completed);
  }

  function ImmediateSum(nets: seq<int>, tier: Tier, endsAt: int): int {
    if nets == [] then 0
    else ImmediateSum(nets[..|nets| - 1], tier, endsAt) + PlanRelease(nets[|nets| - 1], tier, endsAt).immediate
  }

  lemma FloorSum(a: int, b: int, d: int)
    requires d > 0
    ensures a / d + b / d <= (a + b) / d
  {
    M.FloorUnique(a, d, a / d);
    M.FloorUnique(b, d, b / d);
    M.FloorUnique(a + b, d, (a + b) / d);
    FloorsBelow(a, b, d, a / d, b / d, (a + b) / d);
  }

  lemma FloorsBelow(a: int, b: int, d: int, x: int, y: int, z: int)
    requires d > 0 && d * x <= a && d * y <= b && a + b < d * z + d
    ensures x + y <= z
  {
    assert d * (x + y) == d * x + d * y;
    if x + y > z {
      M.MulMono(d, z + 1, x + y);
      M.MulMono(d, z, z);
    }
  }

  lemma {:induction false} ImmediateSumBound(nets: seq<int>, tier: Tier, endsAt: int)
    requires tier.id != 0
    ensures ImmediateSum(nets, tier, endsAt) <= F.Sum(nets) * tier.immediatePercent / 100
  {
    if nets != [] {
      var front, last := nets[..|nets| - 1], nets[|nets| - 1];
      ImmediateSumBound(front, tier, endsAt);
      FloorSum(F.Sum(front) * tier.immediatePercent, last * tier.immediatePercent, 100);
      F.Distribute(F.Sum(front), last, tier.immediatePercent);
    }
  }

  /** Sale by sale, no more is released at once than from their sum. */
  lemma {:induction false} ImmediateReleasesAreCautious(nets: seq<int>, verified: bool, completed: int, endsAt: int)
    ensures var tier := ResolveHoldTier(verified, completed);
            ImmediateSum(nets, tier, endsAt) <= PlanRelease(F.Sum(nets), tier, endsAt).immediate
  {
    var tier := ResolveHoldTier(verified, completed);
    if tier.id == 0 {
      NothingImmediate(nets, tier, endsAt);
    } else {
      ImmediateSumBound(nets, tier, endsAt);
    }
  }

  lemma {:induction false} NothingImmediate(nets: seq<int>, tier: Tier, endsAt: int)
    requires tier.id == 0
    ensures ImmediateSum(nets, tier, endsAt) == 0
  {
    if nets != [] {
      NothingImmediate(nets[..|nets| - 1], tier, endsAt);
    }
  }

  // ------------------------------------------------------------------- payouts

  datatype Status = Pending | Processing | Paid | Failed | Cancelled

  function Transitions(s: Status): set<Status> {
    match s
    case Pending => {Processing, Cancelled}
    case Processing => {Paid, Failed}
    case Paid | Failed | Cancelled => {}
  }

  predicate CanTransition(from: Status, to: Status) {
    to in Transitions(from)
  }

  /** The amount went back to the balance. */
  predicate Returned(s: Status) {
    s == Failed || s == Cancelled
  }

  datatype Payout = Payout(gross: int, fee: int, status: Status)

  datatype Books = Books(clock: int, entries: seq<Entry>, payouts: seq<Payout>)

  // ---------------------------------------------------------------- operations

  datatype SaleInput = SaleInput(
    event: nat, gross: int, platformFee: int, providerFee: int, verified: bool, completed: int, endsAt: int)

  /**
   `seen`, and the status `from`, are what the service read before it opened the
   transaction that writes: the books may have changed since.
   */
  datatype Event =
    | Tick(now: int)
    | RecordSale(sale: SaleInput)
    | ReleaseHolds(event: nat, seen: int, completed: int, endsAt: int)
    | EarlyRelease(event: nat, date: Option<int>, amount: int)
    | RequestPayout(gross: int, seen: int, allowed: bool, policy: F.PayoutPolicy)
    | MovePayout(id: nat, to: Status, from: Status)
    | FreezeFunds(amount: int, seen: int)
    | UnfreezeFunds(amount: int, seen: int)

  function NetOf(s: SaleInput): int {
    s.gross - s.platformFee - s.providerFee
  }

  function PlanOf(s: SaleInput): Plan {
    PlanRelease(NetOf(s), ResolveHoldTier(s.verified, s.completed), s.endsAt)
  }

  /** The three entries of a sale share one fate: blocked when all of the net is. */
  predicate BornPending(p: Plan) {
    p.held > 0 && p.immediate == 0
  }

  predicate IsSplit(p: Plan) {
    p.immediate > 0 && p.held > 0
  }

  function SaleEntry(s: SaleInput, p: Plan, kind: Kind, amount: int): Entry {
    Entry(kind, amount, BornPending(p), if BornPending(p) then p.date else None, Some(s.event), None)
  }

  function HoldEntry(event: nat, amount: int): Entry {
    Entry(Hold, amount, false, None, Some(event), None)
  }

  function DatedRelease(event: nat, amount: int, date: Option<int>): Entry {
    Entry(Release, amount, true, date, Some(event), None)
  }

  /** `recordSale` */
  function SaleEntries(s: SaleInput): seq<Entry> {
    var p := PlanOf(s);
    One(true, SaleEntry(s, p, Sale, s.gross))
    + One(s.platformFee > 0, SaleEntry(s, p, PlatformFee, -s.platformFee))
    + One(s.providerFee > 0, SaleEntry(s, p, ProviderFee, -s.providerFee))
    + (One(IsSplit(p), HoldEntry(s.event, -p.held)) + One(IsSplit(p), DatedRelease(s.event, p.held, p.date)))
  }

  function UndatedHold(event: nat, amount: int): Entry {
    Entry(Hold, amount, true, None, Some(event), None)
  }

  function ReleaseNow(event: nat, amount: int): Entry {
    Entry(Release, amount, false, None, Some(event), None)
  }

  /** `releaseUnverifiedHolds`, for one event with `net` blocked without a date. */
  function HoldEntries(event: nat, net: int, p: Plan): seq<Entry> {
    One(true, UndatedHold(event, -net))
    + (One(p.immediate > 0, ReleaseNow(event, p.immediate)) + One(p.held > 0, DatedRelease(event, p.held, p.date)))
  }

  /** The documented pair of an early release; the `HOLD` carries the date of what it unblocks. */
  function EarlyEntries(event: nat, date: Option<int>, amount: int): seq<Entry> {
    One(true, Entry(Hold, -amount, true, date, Some(event), None)) + One(true, ReleaseNow(event, amount))
  }

  function PayoutEntry(kind: Kind, amount: int, id: nat): Entry {
    Entry(kind, amount, false, None, None, Some(id))
  }

  function PayoutEntries(id: nat, net: int, fee: int): seq<Entry> {
    One(true, PayoutEntry(PayoutDebit, -net, id)) + One(fee > 0, PayoutEntry(PayoutFee, -fee, id))
  }

  function Escrow(amount: int): Entry {
    Entry(Adjustment, amount, true, None, None, None)
  }

  function FreezeEntry(kind: Kind, amount: int): Entry {
    Entry(kind, amount, false, None, None, None)
  }

  function FreezeEntries(amount: int): seq<Entry> {
    One(true, FreezeEntry(Freeze, -amount)) + One(true, Escrow(amount))
  }

  function UnfreezeEntries(amount: int): seq<Entry> {
    One(true, Escrow(-amount)) + One(true, FreezeEntry(Unfreeze, amount))
  }

  predicate AllValid(es: seq<Entry>) {
    forall i :: 0 <= i < |es| ==> ValidAmount(es[i].kind, es[i].amount)
  }

  /** A transaction: every entry is valid, or nothing is written. */
  function Write(b: Books, es: seq<Entry>): Option<Books> {
    if AllValid(es) then Some(b.(entries := b.entries + es)) else None
  }

  ghost function UndatedKey(event: nat): iset<Option<nat>> {
    iset{Some(event)}
  }

  /**
   `request`: `seen` is the available balance the service read, `allowed` that the
   organization is verified, not suspended, and its account open in the right currency.
   */
  function Request(b: Books, gross: int, seen: int, allowed: bool, policy: F.PayoutPolicy): Option<Books> {
    if !allowed || seen < policy.minAmount || F.ValidatePayoutRequest(gross, seen, policy).Some? then None
    else match F.ComputePayoutFee(gross, policy)
      case Err(_) => None
      case Ok(fee) =>
        match Write(b, PayoutEntries(|b.payouts|, gross - fee, fee))
        case None => None
        case Some(b') => Some(b'.(payouts := b.payouts + [Payout(gross, fee, Pending)]))
  }

  /** `transition`, on the status that was read: the row is then updated whatever it holds. */
  function Move(b: Books, id: nat, to: Status, from: Status): Option<Books> {
    if id >= |b.payouts| || !CanTransition(from, to) then None
    else
      var p := b.payouts[id];
      match Write(b, One(Returned(to), PayoutEntry(PayoutReversal, p.gross, id)))
      case None => None
      case Some(b') => Some(b'.(payouts := b.payouts[id := p.(status := to)]))
  }

  /** `releaseUnverifiedHolds`, for one event. */
  function Holds(b: Books, event: nat, seen: int, completed: int, endsAt: int): Option<Books> {
    if seen <= 0 then Some(b)
    else Write(b, HoldEntries(event, seen, PlanRelease(seen, ResolveHoldTier(true, completed), endsAt)))
  }

  /** What an operation does to the books; `None` when it is refused. */
  function Attempt(b: Books, e: Event): Option<Books> {
    match e
    case Tick(now) => Some(b.(clock := now))
    case RecordSale(s) => Write(b, SaleEntries(s))
    case ReleaseHolds(event, seen, completed, endsAt) => Holds(b, event, seen, completed, endsAt)
    case EarlyRelease(event, date, amount) => Write(b, EarlyEntries(event, date, amount))
    case RequestPayout(gross, seen, allowed, policy) => Request(b, gross, seen, allowed, policy)
    case MovePayout(id, to, from) => Move(b, id, to, from)
    case FreezeFunds(amount, seen) => if 0 < amount <= seen then Write(b, FreezeEntries(amount)) else None
    case UnfreezeFunds(amount, seen) => if 0 < amount <= seen then Write(b, UnfreezeEntries(amount)) else None
  }

  function Step(b: Books, e: Event): Books {
    match Attempt(b, e)
    case None => b
    case Some(b') => b'
  }

  // ----------------------------------------------------- the balances, computed

  /** `check-freeze`, for one organization: one pass over its entries. */
  method Balances(entries: seq<Entry>, now: int) returns (total: int, available: int, pending: int, frozen: int)
    ensures total == Sum(All, entries)
    ensures available == Sum(AvailableAt(now), entries)
    ensures pending == Sum(PendingAt(now), entries)
    ensures frozen == Sum(Frozen, entries)
  {
    total, available, pending, frozen := 0, 0, 0, 0;
    for i := 0 to |entries|
      invariant total == Sum(All, entries[..i])
      invariant available == Sum(AvailableAt(now), entries[..i])
      invariant pending == Sum(PendingAt(now), entries[..i])
      invariant frozen == Sum(Frozen, entries[..i])
    {
      var e := entries[i];
      assert entries[..i + 1][..i] == entries[..i];
      total := total + e.amount;
      if Unlocked(e, now) {
        available := available + e.amount;
      } else {
        pending := pending + e.amount;
      }
      if e.kind == Freeze || e.kind == Unfreeze {
        frozen := frozen - e.amount;
      }
    }
    assert entries[..|entries|] == entries;
  }

  /** The grouped sum behind `releaseUnverifiedHolds`, for one event. */
  method UndatedNet(entries: seq<Entry>, event: nat) returns (net: int)
    ensures net == Sum(HeldIn(UndatedKey(event), None), entries)
  {
    net := 0;
    for i := 0 to |entries|
      invariant net == Sum(HeldIn(UndatedKey(event), None), entries[..i])
    {
      assert entries[..i + 1][..i] == entries[..i];
      if entries[i].pending && entries[i].availableAt.None? && entries[i].event == Some(event) {
        net := net + entries[i].amount;
      }
    }
    assert entries[..|entries|] == entries;
  }

  /** What one event has blocked without a date, when it was read, and the end of the event. */
  datatype Group = Group(event: nat, seen: int, endsAt: int)

  function ReleaseAll(b: Books, groups: seq<Group>, completed: int): Books
    decreases |groups|
  {
    if groups == [] then b
    else
      var last := groups[|groups| - 1];
      var before := ReleaseAll(b, groups[..|groups| - 1], completed);
      Step(before, ReleaseHolds(last.event, last.seen, completed, last.endsAt))
  }

  /** The services that write one organization's ledger. */
  class LedgerService {
    var clock: int
    var entries: seq<Entry>
    var payouts: seq<Payout>

    ghost function State(): Books
      reads this
    {
      Books(clock, entries, payouts)
    }

    constructor (now: int)
      ensures State() == Books(now, [], [])
    {
      clock, entries, payouts := now, [], [];
    }

    /** One transaction: entries are written one by one, and a bad one undoes them all. */
    method Commit(added: seq<Entry>) returns (ok: bool)
      modifies `entries
      ensures ok <==> AllValid(added)
      ensures entries == if ok then old(entries) + added else old(entries)
    {
      var written := entries;
      for i := 0 to |added|
        invariant AllValid(added[..i]) && written == entries + added[..i]
        invariant entries == old(entries)
      {
        if !ValidAmount(added[i].kind, added[i].amount) {
          return false;
        }
        written := written + [added[i]];
        assert added[..i + 1] == added[..i] + [added[i]];
      }
      assert added[..|added|] == added;
      entries := written;
      return true;
    }

    method RecordSale(s: SaleInput) returns (ok: bool)
      modifies `entries
      ensures State() == Step(old(State()), Event.RecordSale(s))
      ensures ok <==> Attempt(old(State()), Event.RecordSale(s)).Some?
    {
      var tier := ResolveHoldTier(s.verified, s.completed);
      var plan := PlanRelease(s.gross - s.platformFee - s.providerFee, tier, s.endsAt);
      var pending := plan.held > 0 && plan.immediate == 0;
      var date := if pending then plan.date else None;
      var added := [Entry(Sale, s.gross, pending, date, Some(s.event), None)];
      if s.platformFee > 0 {
        added := added + [Entry(PlatformFee, -s.platformFee, pending, date, Some(s.event), None)];
      }
      if s.providerFee > 0 {
        added := added + [Entry(ProviderFee, -s.providerFee, pending, date, Some(s.event), None)];
      }
      if plan.immediate > 0 && plan.held > 0 {
        added := added + [HoldEntry(s.event, -plan.held), DatedRelease(s.event, plan.held, plan.date)];
      }
      assert added == SaleEntries(s);
      ok := Commit(added);
    }

    /** All the nets are read first; the events come with their ends. */
    method ReleaseUnverifiedHolds(events: seq<(nat, int)>, completed: int) returns (groups: seq<Group>)
      modifies `entries
      ensures |groups| == |events|
      ensures forall i :: 0 <= i < |groups| ==>
                groups[i] == Group(events[i].0, Sum(HeldIn(UndatedKey(events[i].0), None), old(entries)), events[i].1)
      ensures State() == ReleaseAll(old(State()), groups, completed)
    {
      groups := [];
      for i := 0 to |events|
        invariant |groups| == i && entries == old(entries)
        invariant forall j :: 0 <= j < i ==>
                    groups[j] == Group(events[j].0, Sum(HeldIn(UndatedKey(events[j].0), None), entries), events[j].1)
      {
        var net := UndatedNet(entries, events[i].0);
        groups := groups + [Group(events[i].0, net, events[i].1)];
      }
      for i := 0 to |groups|
        invariant State() == ReleaseAll(old(State()), groups[..i], completed)
      {
        assert groups[..i + 1][..i] == groups[..i];
        var net := groups[i].seen;
        if net > 0 {
          var plan := PlanRelease(net, ResolveHoldTier(true, completed), groups[i].endsAt);
          var _ := Commit(HoldEntries(groups[i].event, net, plan));
        }
      }
      assert groups[..|groups|] == groups;
    }

    method RequestPayout(gross: int, seen: int, allowed: bool, policy: F.PayoutPolicy) returns (ok: bool)
      modifies `entries, `payouts
      ensures State() == Step(old(State()), Event.RequestPayout(gross, seen, allowed, policy))
      ensures ok <==> Attempt(old(State()), Event.RequestPayout(gross, seen, allowed, policy)).Some?
    {
      if !allowed || seen < policy.minAmount || F.ValidatePayoutRequest(gross, seen, policy).Some? {
        return false;
      }
      var fee := F.ComputePayoutFee(gross, policy);
      if fee.Err? {
        return false;
      }
      ok := Commit(PayoutEntries(|payouts|, gross - fee.value, fee.value));
      if ok {
        payouts := payouts + [Payout(gross, fee.value, Pending)];
      }
    }

    /** The write of `transition`, after the status `from` was read. */
    method Transition(id: nat, to: Status, from: Status) returns (ok: bool)
      modifies `entries, `payouts
      ensures State() == Step(old(State()), MovePayout(id, to, from))
      ensures ok <==> Attempt(old(State()), MovePayout(id, to, from)).Some?
    {
      if id >= |payouts| || !CanTransition(from, to) {
        return false;
      }
      ok := true;
      if to == Failed || to == Cancelled {
        ok := Commit([PayoutEntry(PayoutReversal, payouts[id].gross, id)]);
      }
      if ok {
        payouts := payouts[id := payouts[id].(status := to)];
      }
    }

    /** `freezeFunds`, for a whole or partial amount, after the total was `seen`. */
    method FreezeFunds(amount: Option<int>, seen: int) returns (ok: bool)
      modifies `entries
      ensures var wanted := if amount.Some? then amount.value else seen;
              && State() == Step(old(State()), Event.FreezeFunds(wanted, seen))
              && (ok <==> 0 < wanted <= seen)
    {
      var wanted := if amount.Some? then amount.value else seen;
      if wanted <= 0 || wanted > seen {
        return false;
      }
      ok := Commit(FreezeEntries(wanted));
    }

    /** `unfreezeFunds`, for a whole or partial amount, after the frozen amount was `seen`. */
    method UnfreezeFunds(amount: Option<int>, seen: int) returns (ok: bool)
      modifies `entries
      ensures var wanted := if amount.Some? then amount.value else seen;
              && State() == Step(old(State()), Event.UnfreezeFunds(wanted, seen))
              && (ok <==> 0 < wanted <= seen)
    {
      var wanted := if amount.Some? then amount.value else seen;
      if wanted <= 0 || wanted > seen {
        return false;
      }
      ok := Commit(UnfreezeEntries(wanted));
    }
  }
}
