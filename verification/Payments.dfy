/**
 The payment state machine under provider notifications that arrive in any order, late
 and repeated (packages/contracts/src/orders.ts).
 */
module Payments {

  datatype Status =
    | Initiated | Pending | Processing | Succeeded | Failed | Expired | Cancelled | Refunded | PartiallyRefunded

  function Transitions(s: Status): set<Status> {
    match s
    case Initiated => {Pending, Processing, Succeeded, Failed, Cancelled}
    case Pending => {Processing, Succeeded, Failed, Expired, Cancelled}
    case Processing => {Succeeded, Failed, Expired}
    case Succeeded => {Refunded, PartiallyRefunded}
    case Failed | Expired | Cancelled => {Succeeded}
    case Refunded => {}
    case PartiallyRefunded => {Refunded}
  }

  predicate CanTransition(from: Status, to: Status) {
    to in Transitions(from)
  }

  predicate IsPending(s: Status) {
    s == Initiated || s == Pending || s == Processing
  }

  /** The money was received, whatever was given back since. */
  predicate IsPaid(s: Status) {
    s == Succeeded || s == Refunded || s == PartiallyRefunded
  }

  predicate IsRefund(s: Status) {
    s == Refunded || s == PartiallyRefunded
  }

  /** A notification the machine does not allow is ignored. */
  function Receive(s: Status, notified: Status): Status {
    if CanTransition(s, notified) then notified else s
  }

  function ReceiveAll(s: Status, stream: seq<Status>): Status {
    if stream == [] then s else Receive(ReceiveAll(s, stream[..|stream| - 1]), stream[|stream| - 1])
  }

  /** How many notifications of a stream change the state, and how many of them to success. */
  function Moves(s: Status, stream: seq<Status>): nat {
    if stream == [] then 0
    else
      var front := stream[..|stream| - 1];
      Moves(s, front) + if CanTransition(ReceiveAll(s, front), stream[|stream| - 1]) then 1 else 0
  }

  function Successes(s: Status, stream: seq<Status>): nat {
    if stream == [] then 0
    else
      var front := stream[..|stream| - 1];
      var last := stream[|stream| - 1];
      Successes(s, front) + if CanTransition(ReceiveAll(s, front), last) && last == Succeeded then 1 else 0
  }

  /** The longest way from a state to an end. */
  function Rank(s: Status): nat {
    match s
    case Initiated => 6
    case Pending => 5
    case Processing => 4
    case Failed | Expired | Cancelled => 3
    case Succeeded => 2
    case PartiallyRefunded => 1
    case Refunded => 0
  }

  lemma {:induction false} PaidExactly(stream: seq<Status>)
    ensures IsPaid(ReceiveAll(Initiated, stream)) <==> Succeeded in stream
  {
    if stream != [] {
      var front := stream[..|stream| - 1];
      PaidExactly(front);
      assert stream == front + [stream[|stream| - 1]];
    }
  }

  lemma {:induction false} NoRefundWithoutRefund(stream: seq<Status>)
    requires forall i :: 0 <= i < |stream| ==> !IsRefund(stream[i])
    ensures !IsRefund(ReceiveAll(Initiated, stream))
  {
    if stream != [] {
      NoRefundWithoutRefund(stream[..|stream| - 1]);
    }
  }

  /**
   Whatever the order and the repetitions, a stream without refunds leaves the payment
   succeeded exactly when it reports success; a failure never hides money received.
   */
  lemma SucceededExactly(stream: seq<Status>)
    requires forall i :: 0 <= i < |stream| ==> !IsRefund(stream[i])
    ensures ReceiveAll(Initiated, stream) == Succeeded <==> Succeeded in stream
  {
    PaidExactly(stream);
    NoRefundWithoutRefund(stream);
  }

  /** Two streams that report the same statuses, in any order, agree on success. */
  lemma OrderDoesNotMatter(a: seq<Status>, b: seq<Status>)
    requires forall s :: s in a <==> s in b
    ensures IsPaid(ReceiveAll(Initiated, a)) == IsPaid(ReceiveAll(Initiated, b))
  {
    PaidExactly(a);
    PaidExactly(b);
  }

  lemma {:induction false} RankBounds(s: Status, stream: seq<Status>)
    ensures Moves(s, stream) + Rank(ReceiveAll(s, stream)) <= Rank(s)
  {
    if stream != [] {
      RankBounds(s, stream[..|stream| - 1]);
    }
  }

  lemma {:induction false} SuccessOnce(s: Status, stream: seq<Status>)
    ensures Successes(s, stream) == if !IsPaid(s) && IsPaid(ReceiveAll(s, stream)) then 1 else 0
    ensures IsPaid(s) ==> IsPaid(ReceiveAll(s, stream))
  {
    if stream != [] {
      SuccessOnce(s, stream[..|stream| - 1]);
    }
  }

  lemma {:induction false} ReceiveConcat(s: Status, a: seq<Status>, b: seq<Status>)
    ensures ReceiveAll(s, a + b) == ReceiveAll(ReceiveAll(s, a), b)
  {
    if b == [] {
      assert a + b == a;
    } else {
      ReceiveConcat(s, a, b[..|b| - 1]);
      assert (a + b)[..|a + b| - 1] == a + b[..|b| - 1];
    }
  }

  /**
   With refunds allowed, every run makes at most six transitions, reaches success at
   most once, and, once paid, stays paid whatever comes next.
   */
  lemma RunsAreShort(stream: seq<Status>, more: seq<Status>)
    ensures Moves(Initiated, stream) <= 6
    ensures Successes(Initiated, stream) <= 1
    ensures Successes(Initiated, stream) == 1 <==> Succeeded in stream
    ensures IsPaid(ReceiveAll(Initiated, stream)) ==> IsPaid(ReceiveAll(Initiated, stream + more))
    ensures !IsPending(ReceiveAll(Initiated, stream)) ==> !IsPending(ReceiveAll(Initiated, stream + more))
  {
    RankBounds(Initiated, stream);
    SuccessOnce(Initiated, stream);
    PaidExactly(stream);
    ReceiveConcat(Initiated, stream, more);
    SuccessOnce(ReceiveAll(Initiated, stream), more);
    if !IsPending(ReceiveAll(Initiated, stream)) {
      NotPendingAgain(ReceiveAll(Initiated, stream), more);
    }
  }

  lemma {:induction false} NotPendingAgain(s: Status, stream: seq<Status>)
    requires !IsPending(s)
    ensures !IsPending(ReceiveAll(s, stream))
  {
    if stream != [] {
      NotPendingAgain(s, stream[..|stream| - 1]);
    }
  }

  // ------------------------------------------------- where a stream ends, exactly

  lemma {:induction false} SinceSuccess(rest: seq<Status>)
    ensures ReceiveAll(Succeeded, rest) ==
            if Refunded in rest then Refunded else if PartiallyRefunded in rest then PartiallyRefunded else Succeeded
  {
    if rest != [] {
      SinceSuccess(rest[..|rest| - 1]);
      assert rest == rest[..|rest| - 1] + [rest[|rest| - 1]];
    }
  }

  /**
   Once money was received, at the first success, nothing counts but what is given back
   afterwards: a full refund for good, a partial one until then.
   */
  lemma PaidStreamEnds(stream: seq<Status>, i: nat)
    requires i < |stream| && stream[i] == Succeeded && Succeeded !in stream[..i]
    ensures var rest := stream[i + 1..];
            ReceiveAll(Initiated, stream) ==
            if Refunded in rest then Refunded else if PartiallyRefunded in rest then PartiallyRefunded else Succeeded
  {
    var before, rest := stream[..i], stream[i + 1..];
    PaidExactly(before);
    assert (before + [Succeeded])[..i] == before;
    assert ReceiveAll(Initiated, before + [Succeeded]) == Succeeded;
    assert stream == before + [Succeeded] + rest;
    ReceiveConcat(Initiated, before + [Succeeded], rest);
    SinceSuccess(rest);
  }

  /**
   Notification `k` is a verdict that counts: a failure always, an expiry once pending, a
   cancellation until it is processed.
   */
  predicate Ends(stream: seq<Status>, k: nat)
    requires k < |stream|
  {
    || stream[k] == Failed
    || (stream[k] == Expired && (Pending in stream[..k] || Processing in stream[..k]))
    || (stream[k] == Cancelled && Processing !in stream[..k])
  }

  /** Where a payment stands that no verdict has ended. */
  function Progress(stream: seq<Status>): Status {
    if Processing in stream then Processing else if Pending in stream then Pending else Initiated
  }

  lemma EndsEarlier(stream: seq<Status>, k: nat)
    requires k < |stream| - 1
    ensures Ends(stream, k) == Ends(stream[..|stream| - 1], k)
  {
    assert stream[..|stream| - 1][..k] == stream[..k];
  }

  lemma {:induction false} StillOpen(stream: seq<Status>)
    requires Succeeded !in stream && forall k :: 0 <= k < |stream| ==> !Ends(stream, k)
    ensures ReceiveAll(Initiated, stream) == Progress(stream)
  {
    if stream != [] {
      var front := stream[..|stream| - 1];
      assert stream == front + [stream[|stream| - 1]];
      forall k | 0 <= k < |front| ensures !Ends(front, k) {
        EndsEarlier(stream, k);
      }
      StillOpen(front);
      assert !Ends(stream, |front|);
    }
  }

  /** Without a success, the first verdict that counts is final; before it a payment only moves forward. */
  lemma {:induction false} UnpaidStreamEnds(stream: seq<Status>, k: nat)
    requires Succeeded !in stream
    ensures (forall i :: 0 <= i < |stream| ==> !Ends(stream, i)) ==> ReceiveAll(Initiated, stream) == Progress(stream)
    ensures k < |stream| && Ends(stream, k) && (forall i :: 0 <= i < k ==> !Ends(stream, i)) ==>
              ReceiveAll(Initiated, stream) == stream[k]
  {
    if forall i :: 0 <= i < |stream| ==> !Ends(stream, i) {
      StillOpen(stream);
    }
    if k < |stream| && Ends(stream, k) && forall i :: 0 <= i < k ==> !Ends(stream, i) {
      var front := stream[..|stream| - 1];
      assert stream == front + [stream[|stream| - 1]];
      forall i | 0 <= i < |front| ensures Ends(front, i) == Ends(stream, i) {
        EndsEarlier(stream, i);
      }
      if k < |front| {
        UnpaidStreamEnds(front, k);
      } else {
        StillOpen(front);
      }
    }
  }

  /** The bound of six is reached. */
  lemma SixTransitions()
    ensures exists stream :: Moves(Initiated, stream) == 6
  {
    var stream := [Pending, Processing, Failed, Succeeded, PartiallyRefunded, Refunded];
    assert stream[..5][..4] == stream[..4] && stream[..4][..3] == stream[..3];
    assert stream[..3][..2] == stream[..2] && stream[..2][..1] == stream[..1] && stream[..1][..0] == [];
    assert ReceiveAll(Initiated, stream[..1]) == Pending && Moves(Initiated, stream[..1]) == 1;
    assert ReceiveAll(Initiated, stream[..2]) == Processing && Moves(Initiated, stream[..2]) == 2;
    assert ReceiveAll(Initiated, stream[..3]) == Failed && Moves(Initiated, stream[..3]) == 3;
    assert ReceiveAll(Initiated, stream[..4]) == Succeeded && Moves(Initiated, stream[..4]) == 4;
    assert ReceiveAll(Initiated, stream[..5]) == PartiallyRefunded && Moves(Initiated, stream[..5]) == 5;
    assert Moves(Initiated, stream) == 6;
  }
}
