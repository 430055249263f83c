/**
 The signed ticket token of packages/utils/src/qr.ts: a 27-byte payload, its text
 form `NK1.<payload>.<signature>`, and the verdict on a scanned token.

 An instant is a JavaScript `Date`: milliseconds since the Unix epoch, or invalid
 beyond the range of dates. The signature scheme is a predicate on message and
 signature, for the public key of one event.
 */
module QrToken {
  import opened Text
  import opened Base64Url

  const PREFIX := "NK1"
  const VERSION: Byte := 1
  const PUBLIC_ID_BYTES := 16
  const CODE_LENGTH := 6
  const PAYLOAD_BYTES := 27
  const SIGNATURE_BYTES := 64
  const GRACE_HOURS := 24
  const HOUR := 3_600_000
  const UINT32 := 0x1_0000_0000
  const MAX_DATE := 8_640_000_000_000_000
  const MAX_HOURS := 2_400_000_000

  datatype QrError =
    | NotATicket | BadBase64 | BadSignatureSize | BadPayloadSize | UnknownVersion
    | BadPublicIdSize | BadCodeLength | CodeNotAscii

  /** A `Date`; the time of an invalid one is not a number. */
  datatype Instant = At(ms: int) | Invalid

  predicate IsDate(ms: int) {
    -MAX_DATE <= ms <= MAX_DATE
  }

  /** `new Date(ms)` */
  function MakeDate(ms: int): Instant {
    if IsDate(ms) then At(ms) else Invalid
  }

  /** `a.getTime() < b.getTime()`, false when either is not a number. */
  predicate Before(a: Instant, b: Instant) {
    a.At? && b.At? && a.ms < b.ms
  }

  datatype Payload = Payload(version: nat, ticketPublicId: string, eventShortCode: string, expiresAt: Instant)

  datatype Parsed = Parsed(payloadBytes: seq<Byte>, signatureBytes: seq<Byte>, payload: Payload)

  // ----------------------------------------------------------------- hours

  /** An instant in Unix hours, rounded up. */
  function UnixHours(ms: int): (h: int)
    ensures (h - 1) * HOUR < ms <= h * HOUR
  {
    if ms % HOUR == 0 then ms / HOUR else ms / HOUR + 1
  }

  /** What `setUint32` stores of an instant's hours: modulo 2^32, and 0 for no number. */
  function StoredHours(i: Instant): (h: nat)
    ensures h < UINT32
  {
    if i.At? then UnixHours(i.ms) % UINT32 else 0
  }

  /** The instant, rounded up to the hour. */
  function RoundedUp(i: Instant): Instant {
    if i.At? then MakeDate(UnixHours(i.ms) * HOUR) else Invalid
  }

  function ExpiryFor(eventEndsAt: int): Instant {
    MakeDate(eventEndsAt + GRACE_HOURS * HOUR)
  }

  function BigEndian(n: nat): (b: seq<Byte>)
    requires n < UINT32
    ensures |b| == 4
  {
    [n / 0x100_0000, n / 0x1_0000 % 0x100, n / 0x100 % 0x100, n % 0x100]
  }

  function FromBigEndian(b: seq<Byte>): nat
    requires |b| == 4
  {
    ((b[0] as int * 0x100 + b[1] as int) * 0x100 + b[2] as int) * 0x100 + b[3] as int
  }

  lemma BigEndianBack(n: nat)
    requires n < UINT32
    ensures FromBigEndian(BigEndian(n)) == n
  {
    var a := n / 0x100;
    var b := a / 0x100;
    assert n / 0x1_0000 == b && n / 0x100_0000 == b / 0x100;
  }

  lemma BigEndianForth(b: seq<Byte>)
    requires |b| == 4
    ensures FromBigEndian(b) < UINT32 && BigEndian(FromBigEndian(b)) == b
  {
    var x := b[0] as int * 0x100 + b[1] as int;
    var y := x * 0x100 + b[2] as int;
    var n := y * 0x100 + b[3] as int;
    assert n / 0x100 == y && y / 0x100 == x && x / 0x100 == b[0] as int;
    assert n / 0x1_0000 == x && n / 0x100_0000 == b[0] as int;
  }

  // --------------------------------------------------------------- payload

  predicate IsAscii(c: char) {
    c as int <= 0x7f
  }

  predicate AllAscii(s: string) {
    forall i :: 0 <= i < |s| ==> IsAscii(s[i])
  }

  function CodeBytes(code: string): (b: seq<Byte>)
    requires AllAscii(code)
    ensures |b| == |code| && forall i :: 0 <= i < |code| ==> b[i] == code[i] as int
  {
    seq(|code|, i requires 0 <= i < |code| => code[i] as int)
  }

  function CodeText(b: seq<Byte>): (s: string)
    ensures |s| == |b| && forall i :: 0 <= i < |b| ==> s[i] == b[i] as char
  {
    seq(|b|, i requires 0 <= i < |b| => b[i] as char)
  }

  function PackPayload(id: string, code: string, expiresAt: Instant): (r: Result<seq<Byte>, QrError>)
    ensures r.Ok? ==> |r.value| == PAYLOAD_BYTES
  {
    match Decode(id)
    case None => Err(BadBase64)
    case Some(publicId) =>
      if |publicId| != PUBLIC_ID_BYTES then Err(BadPublicIdSize)
      else if |code| != CODE_LENGTH then Err(BadCodeLength)
      else if !AllAscii(code) then Err(CodeNotAscii)
      else Ok([VERSION] + publicId + CodeBytes(code) + BigEndian(StoredHours(expiresAt)))
  }

  function UnpackPayload(b: seq<Byte>): Result<Payload, QrError> {
    if |b| != PAYLOAD_BYTES then Err(BadPayloadSize)
    else if b[0] != VERSION then Err(UnknownVersion)
    else Ok(Payload(b[0], Encode(b[1..17]), CodeText(b[17..23]), MakeDate(FromBigEndian(b[23..27]) * HOUR)))
  }

  /** The parts of a packed payload sit where unpacking looks for them. */
  lemma PackedParts(v: Byte, id: seq<Byte>, code: seq<Byte>, hours: seq<Byte>)
    requires |id| == 16 && |code| == 6 && |hours| == 4
    ensures var b := [v] + id + code + hours;
            b[0] == v && b[1..17] == id && b[17..23] == code && b[23..27] == hours
  {
  }

  lemma CodeBack(code: string)
    requires AllAscii(code)
    ensures CodeText(CodeBytes(code)) == code
  {
  }

  /**
   Unpacking a packed payload returns the id in its canonical spelling, the code, and
   the date of the stored hours.
   */
  lemma UnpackPacked(id: string, code: string, expiresAt: Instant)
    requires PackPayload(id, code, expiresAt).Ok?
    ensures UnpackPayload(PackPayload(id, code, expiresAt).value)
         == Ok(Payload(1, Encode(Decode(id).value), code, MakeDate(StoredHours(expiresAt) * HOUR)))
  {
    var hours := StoredHours(expiresAt);
    PackedParts(VERSION, Decode(id).value, CodeBytes(code), BigEndian(hours));
    CodeBack(code);
    BigEndianBack(hours);
  }

  /** Four bytes as one number, the first weighing most. */
  function Number(b: seq<Byte>): int
    requires |b| == 4
  {
    b[0] as int * 0x100_0000 + b[1] as int * 0x1_0000 + b[2] as int * 0x100 + b[3] as int
  }

  /**
   Where everything is in a packed payload: the version, the identifier, the code's
   character codes, and the hours as one big-endian number. Packing fails exactly as
   documented, the first fault in this order being reported.
   */
  lemma PayloadLayout(id: string, code: string, expiresAt: Instant)
    ensures var r := PackPayload(id, code, expiresAt);
            && (r == Err(BadBase64) <==> Decode(id) == None)
            && (r == Err(BadPublicIdSize) <==> Decode(id).Some? && |Decode(id).value| != 16)
            && (r == Err(BadCodeLength) <==> Decode(id).Some? && |Decode(id).value| == 16 && |code| != 6)
            && (r == Err(CodeNotAscii) <==>
                  && Decode(id).Some? && |Decode(id).value| == 16 && |code| == 6
                  && exists c :: c in code && c as int > 127)
            && (r.Ok? ==>
                  && |r.value| == 27 && r.value[0] == 1 && Decode(id) == Some(r.value[1..17])
                  && (forall i :: 0 <= i < 6 && i < |code| ==> r.value[17 + i] == code[i] as int)
                  && Number(r.value[23..27])
                     == (if expiresAt.At? then UnixHours(expiresAt.ms) % 0x1_0000_0000 else 0))
  {
    var r := PackPayload(id, code, expiresAt);
    if Decode(id).Some? && |Decode(id).value| == 16 && |code| == 6 {
      if !AllAscii(code) {
        var i :| 0 <= i < |code| && !IsAscii(code[i]);
        assert code[i] in code && code[i] as int > 127;
      }
      if r.Ok? {
        PackedParts(VERSION, Decode(id).value, CodeBytes(code), BigEndian(StoredHours(expiresAt)));
        Layout(r.value, CodeBytes(code), StoredHours(expiresAt));
      }
    }
  }

  lemma Layout(b: seq<Byte>, code: seq<Byte>, hours: nat)
    requires |b| == 27 && |code| == 6 && hours < UINT32 && b[17..23] == code && b[23..27] == BigEndian(hours)
    ensures forall i :: 0 <= i < 6 ==> b[17 + i] == code[i]
    ensures Number(b[23..27]) == hours
  {
    forall i | 0 <= i < 6 ensures b[17 + i] == code[i] {
      assert b[17 + i] == b[17..23][i];
    }
    BigEndianBack(hours);
  }

  lemma UnixHoursOfHours(h: int)
    ensures UnixHours(h * HOUR) == h
  {
  }

  /** Whole hours are dates exactly up to the last hour of the range. */
  lemma HoursAreDates(h: nat)
    ensures IsDate(h * HOUR) <==> h <= MAX_HOURS
  {
  }

  /**
   A payload packs back to the very bytes it was read from exactly when its code is
   ASCII and its hours are a date; without an ASCII code it is refused.
   */
  lemma PackUnpacked(b: seq<Byte>)
    requires UnpackPayload(b).Ok?
    ensures var p := UnpackPayload(b).value;
            var r := PackPayload(p.ticketPublicId, p.eventShortCode, p.expiresAt);
            && (r == Ok(b) <==> AllAscii(p.eventShortCode) && FromBigEndian(b[23..27]) <= MAX_HOURS)
            && (r.Err? <==> !AllAscii(p.eventShortCode)) && (r.Err? ==> r == Err(CodeNotAscii))
  {
    var p := UnpackPayload(b).value;
    DecodeEncode(b[1..17]);
    if AllAscii(p.eventShortCode) {
      assert CodeBytes(p.eventShortCode) == b[17..23];
      var hours := StoredHours(p.expiresAt);
      HoursBack(b[23..27]);
      Reassemble(b);
      PackedParts(VERSION, b[1..17], b[17..23], BigEndian(hours));
    }
  }

  /** Four bytes of hours come back exactly when they are a date. */
  lemma HoursBack(b: seq<Byte>)
    requires |b| == 4
    ensures BigEndian(StoredHours(MakeDate(FromBigEndian(b) * HOUR))) == b <==> FromBigEndian(b) <= MAX_HOURS
  {
    BigEndianForth(b);
    UnixHoursOfHours(FromBigEndian(b));
    HoursAreDates(FromBigEndian(b));
    BigEndianBack(0);
  }

  lemma Reassemble(b: seq<Byte>)
    requires |b| == 27
    ensures [b[0]] + b[1..17] + b[17..23] + b[23..27] == b
  {
  }

  // ----------------------------------------------------------------- token

  function BuildToken(payload: seq<Byte>, signature: seq<Byte>): string {
    PREFIX + "." + Encode(payload) + "." + Encode(signature)
  }

  function ParseToken(token: string): Result<Parsed, QrError> {
    var parts := Split(Trim(token), '.');
    if |parts| != 3 || parts[0] != PREFIX then Err(NotATicket)
    else
      match (Decode(parts[1]), Decode(parts[2]))
      case (Some(payload), Some(signature)) =>
        if |signature| != SIGNATURE_BYTES then Err(BadSignatureSize)
        else
          (match UnpackPayload(payload)
           case Ok(p) => Ok(Parsed(payload, signature, p))
           case Err(e) => Err(e))
      case _ => Err(BadBase64)
  }

  lemma TokenSplits(a: string, b: string)
    requires AllUrl(a) && AllUrl(b) && b != ""
    ensures var t := PREFIX + "." + a + "." + b;
            Trim(t) == t && Split(t, '.') == [PREFIX, a, b]
  {
    var t := PREFIX + "." + a + "." + b;
    assert t[0] == 'N' && t[|t| - 1] == b[|b| - 1];
    TrimIdentity(t);
    assert '.' !in a && '.' !in b && '.' !in PREFIX;
    assert t == PREFIX + ['.'] + (a + ['.'] + b);
    SplitAt(PREFIX, a + ['.'] + b, '.');
    SplitAt(a, b, '.');
    SplitPlain(b, '.');
  }

  /** Parsing a built token returns the payload and signature bytes and the unpacked payload. */
  lemma ParseBuilt(payload: seq<Byte>, signature: seq<Byte>)
    requires |signature| == SIGNATURE_BYTES
    ensures ParseToken(BuildToken(payload, signature))
         == match UnpackPayload(payload)
            case Ok(p) => Ok(Parsed(payload, signature, p))
            case Err(e) => Err(e)
  {
    EncodeShape(payload);
    EncodeShape(signature);
    TokenSplits(Encode(payload), Encode(signature));
    DecodeEncode(payload);
    DecodeEncode(signature);
  }

  /** Every token is 127 characters long. */
  lemma TokenLength(payload: seq<Byte>, signature: seq<Byte>)
    requires |payload| == PAYLOAD_BYTES && |signature| == SIGNATURE_BYTES
    ensures |BuildToken(payload, signature)| == 127
  {
    EncodeShape(payload);
    EncodeShape(signature);
  }

  /** The date of the stored hours is the instant rounded up exactly from the epoch on. */
  lemma HoursFit(i: Instant)
    requires i.At? ==> IsDate(i.ms)
    ensures MakeDate(StoredHours(i) * HOUR) == RoundedUp(i) <==> i.At? && UnixHours(i.ms) >= 0
  {
    if i.At? {
      var h := UnixHours(i.ms);
      assert -MAX_HOURS <= h <= MAX_HOURS;
      if h < 0 {
        assert h % UINT32 == h + UINT32;
      }
    }
  }

  /**
   The full round trip of a ticket: for any date, everything comes back, and the expiry
   is the date rounded up to the hour exactly when that hour is not before the epoch.
   An invalid date comes back as the epoch.
   */
  lemma TicketRoundTrip(id: seq<Byte>, code: string, expiresAt: Instant, signature: seq<Byte>)
    requires |id| == PUBLIC_ID_BYTES && |code| == CODE_LENGTH && AllAscii(code)
    requires |signature| == SIGNATURE_BYTES
    requires expiresAt.At? ==> -8_640_000_000_000_000 <= expiresAt.ms <= 8_640_000_000_000_000
    ensures var packed := PackPayload(Encode(id), code, expiresAt);
            && packed.Ok?
            && var parsed := ParseToken(BuildToken(packed.value, signature));
            && parsed.Ok?
            && var back := parsed.value.payload.expiresAt;
            && parsed == Ok(Parsed(packed.value, signature, Payload(1, Encode(id), code, back)))
            && (back == RoundedUp(expiresAt) <==> expiresAt.At? && UnixHours(expiresAt.ms) >= 0)
            && (expiresAt.Invalid? ==> back == At(0))
  {
    DecodeEncode(id);
    UnpackPacked(Encode(id), code, expiresAt);
    HoursFit(expiresAt);
    ParseBuilt(PackPayload(Encode(id), code, expiresAt).value, signature);
  }

  /** A token is accepted only in the form NK1.a.b, where a and b decode to the parsed bytes. */
  lemma ParsedForm(token: string)
    requires ParseToken(token).Ok?
    ensures var p := ParseToken(token).value;
            var parts := Split(Trim(token), '.');
            && parts == [PREFIX, parts[1], parts[2]]
            && Decode(parts[1]) == Some(p.payloadBytes) && |p.payloadBytes| == PAYLOAD_BYTES
            && Decode(parts[2]) == Some(p.signatureBytes) && |p.signatureBytes| == SIGNATURE_BYTES
            && UnpackPayload(p.payloadBytes) == Ok(p.payload)
  {
  }

  /** The parts of a token, and what the second and third decode to. */
  predicate IsToken(token: string, payload: seq<Byte>, signature: seq<Byte>) {
    var parts := Split(Trim(token), '.');
    && |parts| == 3 && parts[0] == "NK1"
    && Decode(parts[1]) == Some(payload) && Decode(parts[2]) == Some(signature)
  }

  /**
   Exactly what is a ticket: three parts after the prefix, base64url, a signature of 64
   bytes and a payload of 27 that begins with version 1. Each refusal has its own cause,
   the first in this order.
   */
  lemma ParsedExactly(token: string, payload: seq<Byte>, signature: seq<Byte>)
    ensures (exists p :: ParseToken(token) == Ok(Parsed(payload, signature, p))) <==>
            IsToken(token, payload, signature) && |signature| == 64 && |payload| == 27 && payload[0] == 1
    ensures ParseToken(token) == Err(NotATicket) <==>
            var parts := Split(Trim(token), '.'); |parts| != 3 || parts[0] != "NK1"
    ensures ParseToken(token) == Err(BadBase64) <==>
            var parts := Split(Trim(token), '.');
            |parts| == 3 && parts[0] == "NK1" && (Decode(parts[1]) == None || Decode(parts[2]) == None)
    ensures IsToken(token, payload, signature) ==>
            && (ParseToken(token) == Err(BadSignatureSize) <==> |signature| != 64)
            && (ParseToken(token) == Err(BadPayloadSize) <==> |signature| == 64 && |payload| != 27)
            && (ParseToken(token) == Err(UnknownVersion) <==> |signature| == 64 && |payload| == 27 && payload[0] != 1)
  {
  }

  // --------------------------------------------------------------- verdict

  datatype Verdict = Valid | Malformed | BadSignature | Expired | WrongEvent

  datatype Verification = Verification(verdict: Verdict, payload: Option<Payload>)

  /** The verdict on a token, for an event that is expected or not. */
  function VerifyAgainst(
    token: string, verify: (seq<Byte>, seq<Byte>) -> bool, expected: Option<string>, now: Instant): Verification
  {
    match ParseToken(token)
    case Err(_) => Verification(Malformed, None)
    case Ok(p) =>
      if !verify(p.payloadBytes, p.signatureBytes) then Verification(BadSignature, Some(p.payload))
      else if expected.Some? && p.payload.eventShortCode != expected.value then
        Verification(WrongEvent, Some(p.payload))
      else if Before(p.payload.expiresAt, now) then Verification(Expired, Some(p.payload))
      else Verification(Valid, Some(p.payload))
  }

  /** `verifyQrToken`; an empty code stands for none. */
  function VerifyToken(
    token: string, verify: (seq<Byte>, seq<Byte>) -> bool, code: string, now: Instant): Verification
  {
    VerifyAgainst(token, verify, if code == "" then None else Some(code), now)
  }

  lemma SignedAgainst(
    token: string, verify: (seq<Byte>, seq<Byte>) -> bool, expected: Option<string>, now: Instant)
    requires VerifyAgainst(token, verify, expected, now).verdict in {Valid, Expired, WrongEvent}
    ensures ParseToken(token).Ok?
    ensures var p := ParseToken(token).value;
            && verify(p.payloadBytes, p.signatureBytes)
            && VerifyAgainst(token, verify, expected, now).payload == Some(p.payload)
            && (VerifyAgainst(token, verify, expected, now).verdict == Valid ==>
                  !Before(p.payload.expiresAt, now) && (expected.None? || p.payload.eventShortCode == expected.value))
  {
  }

  /**
   `verifyQrToken` gives a verdict on what a token says only if the signature over its very
   payload bytes verifies; a valid one is not past its date, and for the event of the code,
   or for any event when no code is given.
   */
  lemma ValidMeansSigned(token: string, verify: (seq<Byte>, seq<Byte>) -> bool, code: string, now: Instant)
    requires VerifyToken(token, verify, code, now).verdict in {Valid, Expired, WrongEvent}
    ensures ParseToken(token).Ok?
    ensures var p, v := ParseToken(token).value, VerifyToken(token, verify, code, now);
            && verify(p.payloadBytes, p.signatureBytes) && v.payload == Some(p.payload)
            && (v.verdict == WrongEvent <==> code != "" && p.payload.eventShortCode != code)
            && (v.verdict == Valid <==>
                  !Before(p.payload.expiresAt, now) && (code == "" || p.payload.eventShortCode == code))
  {
    SignedAgainst(token, verify, if code == "" then None else Some(code), now);
  }

  /**
   Every verdict of `verifyQrToken`, exactly: a text that is no ticket is malformed, and
   has no payload; the signature comes before what the payload says, the event before the
   date, and what is left is valid.
   */
  lemma VerdictExactly(token: string, verify: (seq<Byte>, seq<Byte>) -> bool, expected: Option<string>, now: Instant)
    ensures var v, parsed := VerifyAgainst(token, verify, expected, now), ParseToken(token);
            if parsed.Err? then v.verdict == Malformed && v.payload == None
            else
              var p := parsed.value;
              && v.payload == Some(p.payload)
              && (v.verdict == BadSignature <==> !verify(p.payloadBytes, p.signatureBytes))
              && (v.verdict == WrongEvent <==>
                    verify(p.payloadBytes, p.signatureBytes)
                    && expected.Some? && expected.value != p.payload.eventShortCode)
              && (v.verdict == Expired <==>
                    verify(p.payloadBytes, p.signatureBytes)
                    && (expected == None || expected == Some(p.payload.eventShortCode))
                    && p.payload.expiresAt.At? && now.At? && p.payload.expiresAt.ms < now.ms)
              && v.verdict != Malformed
  {
  }

  /** The hours written in a payload. */
  function PayloadHours(payloadBytes: seq<Byte>): nat
    requires |payloadBytes| == PAYLOAD_BYTES
  {
    FromBigEndian(payloadBytes[23..27])
  }

  /**
   A signed token for this event is expired exactly when its hours are a date and that
   date has passed: hours beyond the range of dates never expire.
   */
  lemma ExpiredExactly(
    token: string, verify: (seq<Byte>, seq<Byte>) -> bool, expected: Option<string>, now: int)
    requires VerifyAgainst(token, verify, expected, At(now)).verdict in {Valid, Expired}
    ensures ParseToken(token).Ok? && |ParseToken(token).value.payloadBytes| == PAYLOAD_BYTES
    ensures var hours := PayloadHours(ParseToken(token).value.payloadBytes);
            VerifyAgainst(token, verify, expected, At(now)).verdict == Expired <==>
            hours <= MAX_HOURS && hours * HOUR < now
  {
    HoursAreDates(PayloadHours(ParseToken(token).value.payloadBytes));
  }

  /** The token of a ticket for an event that ends at `end`. */
  function Issue(id: seq<Byte>, code: string, end: int, sign: seq<Byte> -> seq<Byte>): string {
    match PackPayload(Encode(id), code, ExpiryFor(end))
    case Ok(payload) => BuildToken(payload, sign(payload))
    case Err(_) => ""
  }

  /** An event whose expiry is a date, and not before the epoch. */
  predicate InEpoch(end: int) {
    ExpiryFor(end).At? && UnixHours(ExpiryFor(end).ms) >= 0
  }

  /**
   An honestly signed ticket is valid up to 24 hours after the event, expired from 25
   hours on, and always for the wrong event under another code, whatever the time.
   */
  lemma IssuedTicketVerdict(
    id: seq<Byte>, code: string, end: int, sign: seq<Byte> -> seq<Byte>,
    verify: (seq<Byte>, seq<Byte>) -> bool, expected: Option<string>, now: int)
    requires |id| == PUBLIC_ID_BYTES && |code| == CODE_LENGTH && AllAscii(code) && InEpoch(end)
    requires forall m :: |sign(m)| == SIGNATURE_BYTES && verify(m, sign(m))
    ensures var v := VerifyAgainst(Issue(id, code, end, sign), verify, expected, At(now));
            && v.payload.Some? && v.payload.value.ticketPublicId == Encode(id)
            && (expected.Some? && expected.value != code ==> v.verdict == WrongEvent)
            && (expected == None || expected == Some(code) ==>
                  && (now <= end + 24 * HOUR ==> v.verdict == Valid)
                  && (now >= end + 25 * HOUR ==> v.verdict == Expired)
                  && v.verdict in {Valid, Expired})
  {
    DecodeEncode(id);
    var payload := PackPayload(Encode(id), code, ExpiryFor(end)).value;
    assert |sign(payload)| == SIGNATURE_BYTES && verify(payload, sign(payload));
    TicketRoundTrip(id, code, ExpiryFor(end), sign(payload));
    ExpiryIsDate(end);
  }

  lemma ExpiryIsDate(end: int)
    requires InEpoch(end)
    ensures RoundedUp(ExpiryFor(end)).At?
    ensures end + 24 * HOUR <= RoundedUp(ExpiryFor(end)).ms < end + 25 * HOUR
  {
    HoursAreDates(UnixHours(ExpiryFor(end).ms));
  }

  // ------------------------------------------------------------- the loops

  /** `packQrPayload`, which fills a 27-byte buffer in place. */
  method PackQrPayload(id: string, code: string, expiresAt: Instant) returns (r: Result<seq<Byte>, QrError>)
    ensures r == PackPayload(id, code, expiresAt)
  {
    var ok, publicId := FromBase64Url(id);
    if !ok {
      return Err(BadBase64);
    }
    if publicId.Length != PUBLIC_ID_BYTES {
      return Err(BadPublicIdSize);
    }
    if |code| != CODE_LENGTH {
      return Err(BadCodeLength);
    }
    var bytes := new Byte[PAYLOAD_BYTES];
    WriteId(bytes, publicId);
    var ascii := WriteCode(bytes, code);
    if !ascii {
      return Err(CodeNotAscii);
    }
    ghost var filled := bytes[..23];
    assert filled == [VERSION] + publicId[..] + CodeBytes(code) by {
      assert filled == bytes[..17] + bytes[17..23];
    }
    SetUint32(bytes, 23, StoredHours(expiresAt));
    assert bytes[..] == filled + bytes[23..27];
    return Ok(bytes[..]);
  }

  /** The version and the identifier. */
  method WriteId(bytes: array<Byte>, publicId: array<Byte>)
    requires bytes.Length == PAYLOAD_BYTES && publicId.Length == PUBLIC_ID_BYTES && bytes != publicId
    modifies bytes
    ensures bytes[..17] == [VERSION] + publicId[..]
  {
    bytes[0] := VERSION;
    forall i | 0 <= i < 16 {
      bytes[1 + i] := publicId[i];
    }
  }

  /** The code, character by character, up to one that is not ASCII. */
  method WriteCode(bytes: array<Byte>, code: string) returns (ok: bool)
    requires bytes.Length == PAYLOAD_BYTES && |code| == CODE_LENGTH
    modifies bytes
    ensures bytes[..17] == old(bytes[..17])
    ensures ok <==> AllAscii(code)
    ensures ok ==> bytes[17..23] == CodeBytes(code)
  {
    for i := 0 to 6
      invariant bytes[..17] == old(bytes[..17])
      invariant forall j :: 0 <= j < i ==> IsAscii(code[j]) && bytes[17 + j] == code[j] as int
    {
      if code[i] as int > 0x7f {
        return false;
      }
      bytes[17 + i] := code[i] as int;
    }
    return true;
  }

  /** `DataView.setUint32`, big-endian. */
  method SetUint32(bytes: array<Byte>, at: nat, n: nat)
    requires at + 4 <= bytes.Length && n < UINT32
    modifies bytes
    ensures bytes[at..at + 4] == BigEndian(n)
    ensures bytes[..at] == old(bytes[..at]) && bytes[at + 4..] == old(bytes[at + 4..])
  {
    bytes[at] := n / 0x100_0000;
    bytes[at + 1] := n / 0x1_0000 % 0x100;
    bytes[at + 2] := n / 0x100 % 0x100;
    bytes[at + 3] := n % 0x100;
  }

  /** `unpackQrPayload`, which reads the event code byte by byte. */
  method UnpackQrPayload(bytes: seq<Byte>) returns (r: Result<Payload, QrError>)
    ensures r == UnpackPayload(bytes)
  {
    if |bytes| != PAYLOAD_BYTES {
      return Err(BadPayloadSize);
    }
    if bytes[0] != VERSION {
      return Err(UnknownVersion);
    }
    var eventShortCode := "";
    for i := 0 to 6
      invariant eventShortCode == CodeText(bytes[17..17 + i])
    {
      eventShortCode := eventShortCode + [bytes[17 + i] as char];
    }
    var expiresAt := MakeDate(FromBigEndian(bytes[23..27]) * HOUR);
    return Ok(Payload(bytes[0], Encode(bytes[1..17]), eventShortCode, expiresAt));
  }
}
