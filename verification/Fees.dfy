/**
 Commissions and withdrawal fees (packages/contracts/src/fees.ts).
 */
module Fees {
  import opened Text
  import M = Money

  datatype Policy = Policy(
    percentageBps: int,
    fixedAmountPerTicket: int,
    minFeePerOrder: Option<int>,
    maxFeePerOrder: Option<int>,
    buyerSharePercent: int,
    appliesToFreeTickets: bool,
    payout: PayoutPolicy)

  datatype PayoutPolicy = PayoutPolicy(feeBps: int, feeMax: int, minAmount: int)

  /** What `commissionPolicySchema` accepts. */
  predicate ValidPolicy(p: Policy) {
    && 0 <= p.percentageBps <= 10000
    && 0 <= p.fixedAmountPerTicket
    && (p.minFeePerOrder.Some? ==> 0 <= p.minFeePerOrder.value)
    && (p.maxFeePerOrder.Some? ==> 0 <= p.maxFeePerOrder.value)
    && (p.minFeePerOrder.Some? && p.maxFeePerOrder.Some? ==> p.minFeePerOrder.value <= p.maxFeePerOrder.value)
    && 0 <= p.buyerSharePercent <= 100
    && ValidPayoutPolicy(p.payout)
  }

  predicate ValidPayoutPolicy(p: PayoutPolicy) {
    0 <= p.feeBps <= 10000 && 0 <= p.feeMax && 0 <= p.minAmount
  }

  datatype Line = Line(unitPrice: int, quantity: int)

  predicate ValidLines(lines: seq<Line>) {
    forall i :: 0 <= i < |lines| ==> lines[i].unitPrice >= 0 && lines[i].quantity >= 0
  }

  datatype Breakdown = Breakdown(
    subtotal: int, discount: int, tickets: int,
    platformFee: int, buyerFee: int, organizerFee: int, providerFee: int,
    total: int, organizerNet: int)

  function Subtotal(lines: seq<Line>): int {
    if lines == [] then 0
    else Subtotal(lines[..|lines| - 1]) + lines[|lines| - 1].unitPrice * lines[|lines| - 1].quantity
  }

  function Tickets(lines: seq<Line>): int {
    if lines == [] then 0 else Tickets(lines[..|lines| - 1]) + lines[|lines| - 1].quantity
  }

  function PaidTickets(lines: seq<Line>): int {
    if lines == [] then 0
    else
      PaidTickets(lines[..|lines| - 1]) + if lines[|lines| - 1].unitPrice > 0 then lines[|lines| - 1].quantity else 0
  }

  function BillableTickets(lines: seq<Line>, p: Policy): int {
    if p.appliesToFreeTickets then Tickets(lines) else PaidTickets(lines)
  }

  function PlatformFee(rawPercentage: int, billable: int, p: Policy): int {
    if billable == 0 && !p.appliesToFreeTickets then 0
    else M.ClampAmount(rawPercentage + p.fixedAmountPerTicket * billable, p.minFeePerOrder, p.maxFeePerOrder)
  }

  function BuyerFee(platformFee: int, share: int): int {
    M.RoundDiv(platformFee * share, 100)
  }

  function ComputeFeeBreakdown(
    lines: seq<Line>, discount: int, providerFee: int, p: Policy): Result<Breakdown, M.Error>
  {
    var subtotal := Subtotal(lines);
    var capped := M.Min(discount, subtotal);
    match M.ApplyBasisPoints(subtotal, p.percentageBps)
    case Err(e) => Err(e)
    case Ok(percentage) =>
      var fee := PlatformFee(percentage, BillableTickets(lines, p), p);
      var buyerFee := BuyerFee(fee, p.buyerSharePercent);
      Ok(Breakdown(subtotal, capped, Tickets(lines), fee, buyerFee, fee - buyerFee, providerFee,
                   subtotal - capped + buyerFee, subtotal - capped - (fee - buyerFee) - providerFee))
  }

  // -------------------------------------------------------- the order's shares

  /** The identities the module documents; and the platform's share of a paid order. */
  lemma Identities(lines: seq<Line>, discount: int, providerFee: int, p: Policy)
    requires ComputeFeeBreakdown(lines, discount, providerFee, p).Ok?
    ensures var b := ComputeFeeBreakdown(lines, discount, providerFee, p).value;
            && b.total == b.subtotal - b.discount + b.buyerFee
            && b.organizerNet == b.subtotal - b.discount - b.organizerFee - b.providerFee
            && b.platformFee == b.buyerFee + b.organizerFee
            && b.total == b.organizerNet + b.platformFee + b.providerFee
  {
  }

  lemma {:induction false} SumsAreNonNegative(lines: seq<Line>)
    requires ValidLines(lines)
    ensures Subtotal(lines) >= 0 && 0 <= PaidTickets(lines) <= Tickets(lines)
    ensures PaidTickets(lines) == 0 ==> Subtotal(lines) == 0
  {
    if lines != [] {
      var last := lines[|lines| - 1];
      SumsAreNonNegative(lines[..|lines| - 1]);
      ProductSign(last.unitPrice, last.quantity);
    }
  }

  lemma ProductSign(a: int, b: int)
    requires a >= 0 && b >= 0
    ensures a * b >= 0
    ensures a == 0 || b == 0 ==> a * b == 0
  {
  }

  lemma ProductBound(a: int, b: int, c: int)
    requires a >= 0 && b <= c
    ensures a * b <= a * c
  {
  }

  /** Between nothing and the whole, a rounded share is too. */
  lemma ShareBounds(fee: int, share: int)
    requires fee >= 0 && 0 <= share <= 100
    ensures 0 <= BuyerFee(fee, share) <= fee
    ensures share == 100 ==> BuyerFee(fee, share) == fee
    ensures share == 0 ==> BuyerFee(fee, share) == 0
  {
    ProductSign(fee, share);
    ProductBound(fee, share, 100);
    M.RoundDivNearest(fee * share, 100, BuyerFee(fee, share));
  }

  lemma RoundedPercentageBounds(amount: int, bps: int)
    requires amount >= 0 && 0 <= bps <= 10000
    ensures 0 <= M.RoundDiv(amount * bps, 10000) <= amount
  {
    ProductSign(amount, bps);
    ProductBound(amount, bps, 10000);
    M.RoundDivNearest(amount * bps, 10000, M.RoundDiv(amount * bps, 10000));
  }

  lemma PlatformFeeBounds(percentage: int, billable: int, p: Policy)
    requires ValidPolicy(p) && percentage >= 0 && billable >= 0
    ensures PlatformFee(percentage, billable, p) >= 0
    ensures p.maxFeePerOrder.Some? ==> PlatformFee(percentage, billable, p) <= p.maxFeePerOrder.value
    ensures p.minFeePerOrder.Some? && (billable > 0 || p.appliesToFreeTickets) ==>
              PlatformFee(percentage, billable, p) >= p.minFeePerOrder.value
  {
    ProductSign(p.fixedAmountPerTicket, billable);
  }

  /**
   For every order and every valid policy: both parties bear a share between nothing
   and the whole commission, which respects its floor and its cap; the two extreme
   splits leave one party with none of it; and an order of free tickets bears nothing
   unless the policy says so.
   */
  lemma SharesAreBounded(lines: seq<Line>, discount: int, providerFee: int, p: Policy)
    requires ValidPolicy(p) && ValidLines(lines) && M.IsSafe(Subtotal(lines))
    ensures ComputeFeeBreakdown(lines, discount, providerFee, p).Ok?
    ensures var b := ComputeFeeBreakdown(lines, discount, providerFee, p).value;
            && 0 <= b.buyerFee <= b.platformFee && 0 <= b.organizerFee <= b.platformFee
            && (p.buyerSharePercent == 100 ==> b.organizerFee == 0)
            && (p.buyerSharePercent == 0 ==> b.buyerFee == 0)
            && b.discount <= b.subtotal && b.total >= b.buyerFee
            && (p.maxFeePerOrder.Some? ==> b.platformFee <= p.maxFeePerOrder.value)
            && (b.subtotal > 0 && p.minFeePerOrder.Some? ==> b.platformFee >= p.minFeePerOrder.value)
            && (PaidTickets(lines) == 0 && !p.appliesToFreeTickets ==> b.platformFee == 0)
  {
    var subtotal := Subtotal(lines);
    SumsAreNonNegative(lines);
    RoundedPercentageBounds(subtotal, p.percentageBps);
    var percentage := M.RoundDiv(subtotal * p.percentageBps, 10000);
    PlatformFeeBounds(percentage, BillableTickets(lines, p), p);
    ShareBounds(PlatformFee(percentage, BillableTickets(lines, p), p), p.buyerSharePercent);
  }

  /** Rounded to the nearest unit, the upper one on a tie. */
  predicate IsRounded(r: int, n: int, d: int) {
    2 * d * r - d <= 2 * n < 2 * d * r + d
  }

  /**
   The commission of any order, from what is on it: the percentage of the subtotal,
   rounded, plus the fixed part of every billable ticket, between its floor and its cap.
   Free tickets are billable only when the policy says so, and an order with nothing
   billable then bears nothing. The discount is the smaller of what was asked and the
   subtotal, and the buyer's share is rounded to the nearest unit.
   */
  lemma CommissionExactly(lines: seq<Line>, discount: int, providerFee: int, p: Policy, percentage: int)
    requires ValidPolicy(p) && ValidLines(lines) && M.IsSafe(Subtotal(lines))
    requires IsRounded(percentage, Subtotal(lines) * p.percentageBps, 10000)
    ensures ComputeFeeBreakdown(lines, discount, providerFee, p).Ok?
    ensures var b := ComputeFeeBreakdown(lines, discount, providerFee, p).value;
            var billable := if p.appliesToFreeTickets then Tickets(lines) else PaidTickets(lines);
            var raw := percentage + p.fixedAmountPerTicket * billable;
            && b.subtotal == Subtotal(lines) && b.tickets == Tickets(lines) && b.providerFee == providerFee
            && (if billable == 0 && !p.appliesToFreeTickets then b.platformFee == 0
                else if p.minFeePerOrder.Some? && raw < p.minFeePerOrder.value then
                  b.platformFee == p.minFeePerOrder.value
                else if p.maxFeePerOrder.Some? && raw > p.maxFeePerOrder.value then
                  b.platformFee == p.maxFeePerOrder.value
                else b.platformFee == raw)
            && b.discount <= discount && b.discount <= b.subtotal
            && (b.discount == discount || b.discount == b.subtotal)
            && IsRounded(b.buyerFee, b.platformFee * p.buyerSharePercent, 100)
  {
    M.RoundDivNearest(Subtotal(lines) * p.percentageBps, 10000, percentage);
    var b := ComputeFeeBreakdown(lines, discount, providerFee, p).value;
    M.RoundDivNearest(b.platformFee * p.buyerSharePercent, 100, b.buyerFee);
  }

  /** What is on an order, line by line. */
  lemma AddLine(lines: seq<Line>, l: Line)
    ensures Subtotal([]) == Tickets([]) == PaidTickets([]) == 0
    ensures Subtotal(lines + [l]) == Subtotal(lines) + l.unitPrice * l.quantity
    ensures Tickets(lines + [l]) == Tickets(lines) + l.quantity
    ensures PaidTickets(lines + [l]) == PaidTickets(lines) + if l.unitPrice > 0 then l.quantity else 0
  {
    assert (lines + [l])[..|lines|] == lines;
  }

  /** A discount is the organizer's: it changes neither the commission nor its split. */
  lemma DiscountKeepsCommission(lines: seq<Line>, d1: int, d2: int, providerFee: int, p: Policy)
    requires ComputeFeeBreakdown(lines, d1, providerFee, p).Ok?
    ensures var b1 := ComputeFeeBreakdown(lines, d1, providerFee, p).value;
            ComputeFeeBreakdown(lines, d2, providerFee, p).Ok?
            && var b2 := ComputeFeeBreakdown(lines, d2, providerFee, p).value;
               && b1.platformFee == b2.platformFee && b1.buyerFee == b2.buyerFee
               && b1.organizerNet + b1.discount == b2.organizerNet + b2.discount
               && (d1 <= d2 ==> b1.total >= b2.total)
  {
  }

  // --------------------------------------------------------------- withdrawals

  function ComputePayoutFee(gross: int, p: PayoutPolicy): Result<int, M.Error> {
    match M.ApplyBasisPoints(gross, p.feeBps)
    case Err(e) => Err(e)
    case Ok(fee) => Ok(M.ClampAmount(fee, Some(0), Some(p.feeMax)))
  }

  /** The fee is the rounded percentage, up to its cap; the net is what is left. */
  lemma PayoutFeeExactly(gross: int, p: PayoutPolicy)
    requires ValidPayoutPolicy(p) && gross >= 0 && M.IsSafe(gross)
    ensures ComputePayoutFee(gross, p).Ok? && ComputePayoutNet(gross, p).Ok?
    ensures var percentage := M.RoundDiv(gross * p.feeBps, 10000);
            var fee := ComputePayoutFee(gross, p).value;
            && (percentage <= p.feeMax ==> fee == percentage)
            && (percentage > p.feeMax ==> fee == p.feeMax)
            && ComputePayoutNet(gross, p).value + fee == gross
  {
    RoundedPercentageBounds(gross, p.feeBps);
  }

  function ComputePayoutNet(gross: int, p: PayoutPolicy): Result<int, M.Error> {
    match ComputePayoutFee(gross, p)
    case Err(e) => Err(e)
    case Ok(fee) => Ok(gross - fee)
  }

  datatype Refusal = BelowMinimum | AboveAvailable

  function ValidatePayoutRequest(gross: int, available: int, p: PayoutPolicy): Option<Refusal> {
    if gross < p.minAmount then Some(BelowMinimum)
    else if gross > available then Some(AboveAvailable)
    else None
  }

  /** A request is receivable exactly from the minimum up to the balance; a small one is told so first. */
  lemma ReceivableExactly(gross: int, available: int, p: PayoutPolicy)
    ensures ValidatePayoutRequest(gross, available, p).None? <==> p.minAmount <= gross <= available
    ensures ValidatePayoutRequest(gross, available, p) == Some(AboveAvailable) <==>
            p.minAmount <= gross && available < gross
  {
  }

  /** Asking for one more unit never raises the fee by more than that unit. */
  lemma FeeGrowsSlowly(a: int, b: int, p: PayoutPolicy)
    requires ValidPayoutPolicy(p) && 0 <= a <= b
    ensures M.RoundDiv(a * p.feeBps, 10000) <= M.RoundDiv(b * p.feeBps, 10000)
              <= M.RoundDiv(a * p.feeBps, 10000) + (b - a)
  {
    var x, y := a * p.feeBps, b * p.feeBps;
    assert y - x == (b - a) * p.feeBps by {
      assert (b - a) * p.feeBps == b * p.feeBps - a * p.feeBps;
    }
    ProductSign(b - a, p.feeBps);
    ProductBound(b - a, p.feeBps, 10000);
    M.RoundDivNearest(x, 10000, M.RoundDiv(x, 10000));
    M.RoundDivNearest(y, 10000, M.RoundDiv(y, 10000));
  }

  /**
   Withdrawals: the fee never eats more than the amount, so the net is between zero and
   the amount, and a larger withdrawal never pays out less.
   */
  lemma PayoutNetIsMonotone(a: int, b: int, p: PayoutPolicy)
    requires ValidPayoutPolicy(p) && 0 <= a <= b && M.IsSafe(b)
    ensures ComputePayoutNet(a, p).Ok? && ComputePayoutNet(b, p).Ok?
    ensures 0 <= ComputePayoutNet(a, p).value <= a
    ensures ComputePayoutNet(a, p).value <= ComputePayoutNet(b, p).value
    ensures ComputePayoutFee(a, p).value <= p.feeMax
  {
    RoundedPercentageBounds(a, p.feeBps);
    FeeGrowsSlowly(a, b, p);
  }

  // ----------------------------------------------------- rounding over n orders

  function Sum(s: seq<int>): int {
    if s == [] then 0 else Sum(s[..|s| - 1]) + s[|s| - 1]
  }

  /** The commission of each order of a list of subtotals. */
  function Commissions(subtotals: seq<int>, bps: int): (r: seq<int>)
    ensures |r| == |subtotals|
    ensures forall i :: 0 <= i < |r| ==> r[i] == M.RoundDiv(subtotals[i] * bps, 10000)
  {
    if subtotals == [] then []
    else
      Commissions(subtotals[..|subtotals| - 1], bps) + [M.RoundDiv(subtotals[|subtotals| - 1] * bps, 10000)]
  }

  /** Without a fixed part, a floor or a cap, the commission is the rounded percentage. */
  lemma PlainCommission(lines: seq<Line>, discount: int, providerFee: int, p: Policy)
    requires ValidPolicy(p) && ValidLines(lines) && M.IsSafe(Subtotal(lines))
    requires p.fixedAmountPerTicket == 0 && p.minFeePerOrder.None? && p.maxFeePerOrder.None?
    ensures var b := ComputeFeeBreakdown(lines, discount, providerFee, p);
            b.Ok? && b.value.platformFee == M.RoundDiv(Subtotal(lines) * p.percentageBps, 10000)
  {
    SumsAreNonNegative(lines);
    if BillableTickets(lines, p) == 0 && !p.appliesToFreeTickets {
      M.RoundDivExact(0, 10000);
    }
  }

  lemma SumLast(s: seq<int>, x: int)
    ensures Sum(s + [x]) == Sum(s) + x
  {
    assert (s + [x])[..|s|] == s;
  }

  lemma Distribute(a: int, b: int, c: int)
    ensures (a + b) * c == a * c + b * c
  {
  }

  lemma ErrorsAdd(x: int, y: int, n: nat, c: int, r: int)
    requires x - 5000 * n <= 10000 * c <= x + 5000 * n
    requires 20000 * r - 10000 <= 2 * y < 20000 * r + 10000
    ensures x + y - 5000 * (n + 1) <= 10000 * (c + r) <= x + y + 5000 * (n + 1)
  {
  }

  lemma {:induction false} SummedErrors(subtotals: seq<int>, bps: int)
    ensures Sum(subtotals) * bps - 5000 * |subtotals| <= 10000 * Sum(Commissions(subtotals, bps))
              <= Sum(subtotals) * bps + 5000 * |subtotals|
  {
    if subtotals != [] {
      var front, last := subtotals[..|subtotals| - 1], subtotals[|subtotals| - 1];
      SummedErrors(front, bps);
      var r := M.RoundDiv(last * bps, 10000);
      M.RoundDivNearest(last * bps, 10000, r);
      ErrorsAdd(Sum(front) * bps, last * bps, |front|, Sum(Commissions(front, bps)), r);
      SumLast(Commissions(front, bps), r);
      Distribute(Sum(front), last, bps);
    }
  }

  lemma RoundedOnce(apart: int, exact: int, n: nat)
    requires exact - 5000 * n <= 10000 * apart <= exact + 5000 * n
    ensures -(n + 1) <= 2 * (apart - M.RoundDiv(exact, 10000)) <= n + 1
  {
    M.RoundDivNearest(exact, 10000, M.RoundDiv(exact, 10000));
  }

  function SubtotalsOf(bs: seq<Breakdown>): seq<int> {
    seq(|bs|, i requires 0 <= i < |bs| => bs[i].subtotal)
  }

  function CommissionsOf(bs: seq<Breakdown>): seq<int> {
    seq(|bs|, i requires 0 <= i < |bs| => bs[i].platformFee)
  }

  /**
   Over any n orders, without a fixed part, a floor or a cap, the commissions rounded
   order by order differ from the commission rounded once by at most (n + 1) / 2 units.
   */
  lemma SummedCommissions(orders: seq<seq<Line>>, bs: seq<Breakdown>, p: Policy)
    requires ValidPolicy(p) && p.fixedAmountPerTicket == 0 && p.minFeePerOrder.None? && p.maxFeePerOrder.None?
    requires |orders| == |bs|
    requires forall i :: 0 <= i < |bs| ==>
               && ValidLines(orders[i])
               && ComputeFeeBreakdown(orders[i], bs[i].discount, bs[i].providerFee, p) == Ok(bs[i])
    ensures -(|bs| + 1)
              <= 2 * (Sum(CommissionsOf(bs)) - M.RoundDiv(Sum(SubtotalsOf(bs)) * p.percentageBps, 10000))
              <= |bs| + 1
  {
    var subtotals := SubtotalsOf(bs);
    forall i | 0 <= i < |bs|
      ensures bs[i].platformFee == M.RoundDiv(subtotals[i] * p.percentageBps, 10000)
    {
      PlainCommission(orders[i], bs[i].discount, bs[i].providerFee, p);
    }
    assert CommissionsOf(bs) == Commissions(subtotals, p.percentageBps);
    SummedErrors(subtotals, p.percentageBps);
    RoundedOnce(Sum(CommissionsOf(bs)), Sum(subtotals) * p.percentageBps, |bs|);
  }
}
