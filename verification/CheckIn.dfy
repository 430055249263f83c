/**
 The door verdict (packages/contracts/src/checkin.ts) and the scanning device that
 uses it (apps/web/lib/scan/verify.ts, apps/web/lib/scan/db.ts and the scanner page):
 the carnet of known tickets, and the queue of scans not yet confirmed by the server.
 */
module CheckIn {
  import opened Text
  import opened Base64Url
  import QrToken

  /** Carnet status: `v`, `u` or `x`. */
  datatype Status = Fresh | Used | Cancelled

  datatype Verdict =
    | VALID | VALID_OFF_MANIFEST | ALREADY_USED | CANCELLED
    | INVALID | WRONG_EVENT | EXPIRED | UNREADABLE

  /** `decideCheckIn` */
  function Decide(signature: QrToken.Verdict, entry: Option<Status>, locallyScanned: bool): Verdict {
    match signature
    case Malformed => UNREADABLE
    case BadSignature => INVALID
    case WrongEvent => WRONG_EVENT
    case Expired => EXPIRED
    case Valid =>
      match entry
      case None => VALID_OFF_MANIFEST
      case Some(Cancelled) => CANCELLED
      case Some(Used) => ALREADY_USED
      case Some(Fresh) => if locallyScanned then ALREADY_USED else VALID
  }

  predicate Admits(v: Verdict) {
    v == VALID || v == VALID_OFF_MANIFEST
  }

  /** A verdict admits exactly for an authentic ticket that the carnet does not hold against. */
  lemma AdmitsExactly(signature: QrToken.Verdict, entry: Option<Status>, locallyScanned: bool)
    ensures Admits(Decide(signature, entry, locallyScanned)) <==>
            signature == QrToken.Valid && (entry == None || (entry == Some(Fresh) && !locallyScanned))
    ensures Decide(signature, entry, locallyScanned) == VALID <==>
            signature == QrToken.Valid && entry == Some(Fresh) && !locallyScanned
  {
  }

  /**
   Every verdict, exactly. What the token proves comes first, whatever the carnet says; a
   ticket outside the carnet then passes, a cancelled one does not, and one that was used,
   or scanned on this device, has been in already.
   */
  lemma VerdictsExactly(signature: QrToken.Verdict, entry: Option<Status>, locallyScanned: bool)
    ensures var v := Decide(signature, entry, locallyScanned);
            && (v == UNREADABLE <==> signature == QrToken.Malformed)
            && (v == INVALID <==> signature == QrToken.BadSignature)
            && (v == WRONG_EVENT <==> signature == QrToken.WrongEvent)
            && (v == EXPIRED <==> signature == QrToken.Expired)
            && (v == VALID_OFF_MANIFEST <==> signature == QrToken.Valid && entry == None)
            && (v == CANCELLED <==> signature == QrToken.Valid && entry == Some(Cancelled))
            && (v == ALREADY_USED <==>
                  signature == QrToken.Valid && (entry == Some(Used) || (entry == Some(Fresh) && locallyScanned)))
            && (v == VALID <==> signature == QrToken.Valid && entry == Some(Fresh) && !locallyScanned)
  {
  }

  // ---------------------------------------------------------------- device

  type TicketId = string

  datatype Device = Device(
    carnet: map<TicketId, Status>,
    pending: set<TicketId>,                // tickets with a scan waiting for the server
    log: seq<(TicketId, Verdict)>)         // history of verdicts

  datatype Gate = Gate(verify: (seq<Byte>, seq<Byte>) -> bool, code: string)

  function Lookup(carnet: map<TicketId, Status>, id: TicketId): Option<Status> {
    if id in carnet then Some(carnet[id]) else None
  }

  /** The verdict shown for a code: decided without, then with, the local queue. */
  function VerdictFor(d: Device, signature: QrToken.Verdict, id: TicketId): Verdict {
    var first := Decide(signature, Lookup(d.carnet, id), false);
    if Admits(first) && id in d.pending then Decide(QrToken.Valid, Lookup(d.carnet, id), true) else first
  }

  datatype Event =
    | Scan(token: string, now: QrToken.Instant)
    | Settle(ids: set<TicketId>)                   // the server has confirmed these scans
    | Reload(carnet: map<TicketId, Status>)

  /** `verifyOffline`, up to the carnet: unlike `verifyQrToken` it always compares the code. */
  function VerifyOffline(g: Gate, token: string, now: QrToken.Instant): QrToken.Verification {
    QrToken.VerifyAgainst(token, g.verify, Some(g.code), now)
  }

  function ScanStep(d: Device, signature: QrToken.Verdict, id: TicketId): Device {
    var verdict := VerdictFor(d, signature, id);
    d.(pending := if Admits(verdict) then d.pending + {id} else d.pending, log := d.log + [(id, verdict)])
  }

  function Step(g: Gate, d: Device, e: Event): Device {
    match e
    case Scan(token, now) =>
      var v := VerifyOffline(g, token, now);
      (match v.payload
       case None => d
       case Some(p) => ScanStep(d, v.verdict, p.ticketPublicId))
    case Settle(ids) => d.(pending := d.pending - ids)
    case Reload(carnet) => d.(carnet := carnet)
  }

  function Run(g: Gate, d: Device, es: seq<Event>): Device {
    if es == [] then d else Step(g, Run(g, d, es[..|es| - 1]), es[|es| - 1])
  }

  function ValidCount(log: seq<(TicketId, Verdict)>, id: TicketId): nat {
    if log == [] then 0
    else ValidCount(log[..|log| - 1], id) + (if log[|log| - 1] == (id, VALID) then 1 else 0)
  }

  function SettleCount(es: seq<Event>, id: TicketId): nat {
    if es == [] then 0
    else
      var e := es[|es| - 1];
      SettleCount(es[..|es| - 1], id) + (if e.Settle? && id in e.ids then 1 else 0)
  }

  lemma ScanCounts(d: Device, signature: QrToken.Verdict, id: TicketId, other: TicketId)
    ensures var d' := ScanStep(d, signature, id);
            ValidCount(d'.log, other) == ValidCount(d.log, other) +
              (if other == id && VerdictFor(d, signature, id) == VALID then 1 else 0)
  {
    var d' := ScanStep(d, signature, id);
    assert d'.log[..|d'.log| - 1] == d.log;
  }

  /** A scan that gives VALID puts its ticket in the queue, where it was not. */
  lemma ScanBalance(d: Device, signature: QrToken.Verdict, id: TicketId, other: TicketId)
    ensures var d' := ScanStep(d, signature, id);
            ValidCount(d'.log, other) + (if other in d.pending then 1 else 0) <=
            ValidCount(d.log, other) + (if other in d'.pending then 1 else 0)
  {
    ScanCounts(d, signature, id, other);
  }

  lemma StepCounts(g: Gate, d: Device, e: Event, id: TicketId)
    ensures var d' := Step(g, d, e);
            ValidCount(d'.log, id) + (if id in d.pending then 1 else 0) <=
            ValidCount(d.log, id) + (if id in d'.pending then 1 else 0)
              + (if e.Settle? && id in e.ids then 1 else 0)
  {
    if e.Scan? {
      var v := VerifyOffline(g, e.token, e.now);
      if v.payload.Some? {
        ScanBalance(d, v.verdict, v.payload.value.ticketPublicId, id);
      }
    }
  }

  /**
   Over any sequence of scans, confirmations and new carnets on one device, a ticket
   gets VALID at most once more than the server confirmed its scans.
   */
  lemma {:induction false} ValidPerConfirmation(g: Gate, d: Device, es: seq<Event>, id: TicketId)
    requires d.log == [] && d.pending == {}
    ensures ValidCount(Run(g, d, es).log, id) <=
            SettleCount(es, id) + (if id in Run(g, d, es).pending then 1 else 0)
  {
    if es != [] {
      ValidPerConfirmation(g, d, es[..|es| - 1], id);
      StepCounts(g, Run(g, d, es[..|es| - 1]), es[|es| - 1], id);
    }
  }

  /** While its scan waits in the queue, a ticket gets VALID at most once. */
  lemma ValidAtMostOnce(g: Gate, d: Device, es: seq<Event>, id: TicketId)
    requires d.log == [] && d.pending == {} && SettleCount(es, id) == 0
    ensures ValidCount(Run(g, d, es).log, id) <= 1
  {
    ValidPerConfirmation(g, d, es, id);
  }

  /**
   VALID is given exactly when the token verifies, the carnet lists the ticket as fresh,
   and no scan of it is waiting.
   */
  lemma ValidExactly(g: Gate, d: Device, token: string, now: QrToken.Instant)
    ensures var v := VerifyOffline(g, token, now);
            var d' := Step(g, d, Scan(token, now));
            v.payload.Some? ==>
              var id := v.payload.value.ticketPublicId;
              && d'.log == d.log + [(id, VerdictFor(d, v.verdict, id))]
              && (VerdictFor(d, v.verdict, id) == VALID <==>
                    v.verdict == QrToken.Valid && Lookup(d.carnet, id) == Some(Fresh) && id !in d.pending)
  {
  }

  // ------------------------------------------------- verdicts, from the history

  /** The carnet that was loaded last. */
  function CarnetOf(d: Device, es: seq<Event>): map<TicketId, Status> {
    if es == [] then d.carnet
    else if es[|es| - 1].Reload? then es[|es| - 1].carnet
    else CarnetOf(d, es[..|es| - 1])
  }

  /** Scan `i` let ticket `id` in. */
  predicate AdmittedAt(g: Gate, d: Device, es: seq<Event>, i: nat, id: TicketId)
    requires i < |es|
  {
    && es[i].Scan?
    && var before, v := Run(g, d, es[..i]), VerifyOffline(g, es[i].token, es[i].now);
       && v.payload.Some? && v.payload.value.ticketPublicId == id
       && Admits(VerdictFor(before, v.verdict, id))
  }

  predicate SettledAt(es: seq<Event>, i: nat, id: TicketId)
    requires i < |es|
  {
    es[i].Settle? && id in es[i].ids
  }

  /** Some scan let `id` in, and the server has not confirmed it since. */
  predicate Waits(g: Gate, d: Device, es: seq<Event>, id: TicketId) {
    exists i :: 0 <= i < |es| && AdmittedAt(g, d, es, i, id) && forall j :: i < j < |es| ==> !SettledAt(es, j, id)
  }

  lemma WaitsStep(g: Gate, d: Device, es: seq<Event>, e: Event, id: TicketId)
    ensures Waits(g, d, es + [e], id) <==>
            AdmittedAt(g, d, es + [e], |es|, id) || (Waits(g, d, es, id) && !(e.Settle? && id in e.ids))
  {
    var all := es + [e];
    assert all[..|es|] == es;
    forall i | 0 <= i < |es|
      ensures AdmittedAt(g, d, all, i, id) == AdmittedAt(g, d, es, i, id)
      ensures SettledAt(all, i, id) == SettledAt(es, i, id)
    {
      assert all[..i] == es[..i];
    }
    assert SettledAt(all, |es|, id) == (e.Settle? && id in e.ids);
  }

  lemma StepQueues(g: Gate, d: Device, e: Event, id: TicketId)
    ensures !e.Scan? ==> (id in Step(g, d, e).pending <==> id in d.pending && !(e.Settle? && id in e.ids))
    ensures e.Scan? ==>
              var v := VerifyOffline(g, e.token, e.now);
              (id in Step(g, d, e).pending <==>
                 || id in d.pending
                 || (v.payload.Some? && v.payload.value.ticketPublicId == id && Admits(VerdictFor(d, v.verdict, id))))
  {
  }

  /** What the device knows is what happened: the last carnet, and the scans that still wait. */
  lemma {:induction false} DeviceIsHistory(g: Gate, d: Device, es: seq<Event>, id: TicketId)
    requires d.pending == {}
    ensures Run(g, d, es).carnet == CarnetOf(d, es)
    ensures id in Run(g, d, es).pending <==> Waits(g, d, es, id)
  {
    if es != [] {
      var front, e := es[..|es| - 1], es[|es| - 1];
      assert es == front + [e];
      DeviceIsHistory(g, d, front, id);
      WaitsStep(g, d, front, e, id);
      StepQueues(g, Run(g, d, front), e, id);
    }
  }

  /** The two decisions of the scanner are one, on whether a scan waits. */
  lemma DecidedOnce(d: Device, signature: QrToken.Verdict, id: TicketId)
    ensures VerdictFor(d, signature, id) == Decide(signature, Lookup(d.carnet, id), id in d.pending)
  {
  }

  lemma ScanLogs(g: Gate, d: Device, token: string, now: QrToken.Instant)
    requires VerifyOffline(g, token, now).payload.Some?
    ensures var v := VerifyOffline(g, token, now);
            var id := v.payload.value.ticketPublicId;
            Step(g, d, Scan(token, now)).log == d.log + [(id, VerdictFor(d, v.verdict, id))]
  {
  }

  /**
   The verdict of any scan of any run, from what happened before it: the token, the
   carnet loaded last, and whether a scan of the ticket still waits for the server.
   */
  lemma VerdictByHistory(g: Gate, d: Device, es: seq<Event>, token: string, now: QrToken.Instant)
    requires d.pending == {} && VerifyOffline(g, token, now).payload.Some?
    ensures var v := VerifyOffline(g, token, now);
            var id, carnet := v.payload.value.ticketPublicId, CarnetOf(d, es);
            var entry := if id in carnet then Some(carnet[id]) else None;
            Run(g, d, es + [Scan(token, now)]).log ==
            Run(g, d, es).log + [(id, Decide(v.verdict, entry, Waits(g, d, es, id)))]
  {
    var v, before := VerifyOffline(g, token, now), Run(g, d, es);
    var id := v.payload.value.ticketPublicId;
    assert (es + [Scan(token, now)])[..|es|] == es;
    DeviceIsHistory(g, d, es, id);
    DecidedOnce(before, v.verdict, id);
    ScanLogs(g, before, token, now);
  }

  /** A scan that admits carried a signature over the exact payload bytes of its token. */
  lemma AdmissionIsSigned(g: Gate, d: Device, token: string, now: QrToken.Instant)
    requires Step(g, d, Scan(token, now)).log != d.log
    requires Admits(Step(g, d, Scan(token, now)).log[|d.log|].1)
    ensures QrToken.ParseToken(token).Ok?
    ensures var p := QrToken.ParseToken(token).value;
            && g.verify(p.payloadBytes, p.signatureBytes)
            && !QrToken.Before(p.payload.expiresAt, now)
            && p.payload.eventShortCode == g.code
            && Step(g, d, Scan(token, now)).log[|d.log|].0 == p.payload.ticketPublicId
  {
    var v := VerifyOffline(g, token, now);
    var id := v.payload.value.ticketPublicId;
    AdmitsExactly(v.verdict, Lookup(d.carnet, id), false);
    QrToken.SignedAgainst(token, g.verify, Some(g.code), now);
  }

  /** A ticket outside the carnet is admitted at every scan, however often it was scanned. */
  lemma OffCarnetAlwaysAdmitted(g: Gate, d: Device, token: string, now: QrToken.Instant)
    requires VerifyOffline(g, token, now).verdict == QrToken.Valid
    requires VerifyOffline(g, token, now).payload.value.ticketPublicId !in d.carnet
    ensures var id := VerifyOffline(g, token, now).payload.value.ticketPublicId;
            var once := Step(g, d, Scan(token, now));
            var twice := Step(g, once, Scan(token, now));
            twice.log == d.log + [(id, VALID_OFF_MANIFEST), (id, VALID_OFF_MANIFEST)]
  {
    ScanOffTwice(d, VerifyOffline(g, token, now).payload.value.ticketPublicId);
  }

  lemma ScanOffTwice(d: Device, id: TicketId)
    requires id !in d.carnet
    ensures ScanStep(ScanStep(d, QrToken.Valid, id), QrToken.Valid, id).log
         == d.log + [(id, VALID_OFF_MANIFEST), (id, VALID_OFF_MANIFEST)]
  {
  }

  /** With the carnet unchanged, a fresh ticket gets VALID again once its first scan is confirmed. */
  lemma ConfirmedTicketPassesAgain(g: Gate, d: Device, token: string, now: QrToken.Instant)
    requires VerifyOffline(g, token, now).verdict == QrToken.Valid
    requires var id := VerifyOffline(g, token, now).payload.value.ticketPublicId;
             Lookup(d.carnet, id) == Some(Fresh) && id !in d.pending
    ensures var id := VerifyOffline(g, token, now).payload.value.ticketPublicId;
            var once := Step(g, d, Scan(token, now));
            var settled := Step(g, once, Settle({id}));
            var twice := Step(g, settled, Scan(token, now));
            twice.log == d.log + [(id, VALID), (id, VALID)]
  {
    ScanSettledTwice(d, VerifyOffline(g, token, now).payload.value.ticketPublicId);
  }

  lemma ScanSettledTwice(d: Device, id: TicketId)
    requires Lookup(d.carnet, id) == Some(Fresh) && id !in d.pending
    ensures var once := ScanStep(d, QrToken.Valid, id);
            ScanStep(once.(pending := once.pending - {id}), QrToken.Valid, id).log
            == d.log + [(id, VALID), (id, VALID)]
  {
  }

  /**
   From issue to the door: on a device whose carnet lists it as fresh, an honestly
   signed ticket passes once, and is reported as used at the next scan.
   */
  lemma IssuedTicketPassesOnce(
    g: Gate, d: Device, id: seq<Byte>, end: int, sign: seq<Byte> -> seq<Byte>, now: int, later: int)
    requires |id| == QrToken.PUBLIC_ID_BYTES && |g.code| == QrToken.CODE_LENGTH
    requires QrToken.AllAscii(g.code) && QrToken.InEpoch(end)
    requires forall m :: |sign(m)| == QrToken.SIGNATURE_BYTES && g.verify(m, sign(m))
    requires Lookup(d.carnet, Encode(id)) == Some(Fresh) && Encode(id) !in d.pending
    requires now <= end + 24 * QrToken.HOUR && later <= end + 24 * QrToken.HOUR
    ensures var token := QrToken.Issue(id, g.code, end, sign);
            Step(g, Step(g, d, Scan(token, QrToken.At(now))), Scan(token, QrToken.At(later))).log
            == d.log + [(Encode(id), VALID), (Encode(id), ALREADY_USED)]
  {
    QrToken.IssuedTicketVerdict(id, g.code, end, sign, g.verify, Some(g.code), now);
    QrToken.IssuedTicketVerdict(id, g.code, end, sign, g.verify, Some(g.code), later);
    ScanTwice(d, Encode(id));
  }

  lemma ScanTwice(d: Device, id: TicketId)
    requires Lookup(d.carnet, id) == Some(Fresh) && id !in d.pending
    ensures ScanStep(ScanStep(d, QrToken.Valid, id), QrToken.Valid, id).log
         == d.log + [(id, VALID), (id, ALREADY_USED)]
  {
  }
}
