/**
 Base64url without padding (section 5 and section 3.2 of RFC 4648), as
 packages/utils/src/qr.ts builds it on `btoa` and `atob`, and the padding loop of
 apps/web/middleware.ts.
 */
module Base64Url {
  import opened Text

  type Byte = b: int | 0 <= b < 0x100 witness 0

  type Sextet = d: int | 0 <= d < 64 witness 0

  // ------------------------------------------------------- bytes and sextets

  /** The 6-bit groups of `b`; the last one is filled with zero bits. */
  function Pack(b: seq<Byte>): seq<Sextet> {
    if |b| == 0 then []
    else if |b| == 1 then [b[0] / 4, b[0] % 4 * 16]
    else if |b| == 2 then [b[0] / 4, b[0] % 4 * 16 + b[1] / 16, b[1] % 16 * 4]
    else
      [b[0] / 4, b[0] % 4 * 16 + b[1] / 16, b[1] % 16 * 4 + b[2] / 64, b[2] % 64] + Pack(b[3..])
  }

  function Byte0(p: Sextet, q: Sextet): Byte {
    p as int * 4 + q as int / 16
  }

  function Byte1(q: Sextet, r: Sextet): Byte {
    q as int % 16 * 16 + r as int / 4
  }

  function Byte2(r: Sextet, t: Sextet): Byte {
    r as int % 4 * 64 + t as int
  }

  /** The bytes of 6-bit groups, dropping leftover bits; None when a group is left alone. */
  function Unpack(d: seq<Sextet>): Option<seq<Byte>> {
    if |d| == 0 then Some([])
    else if |d| == 1 then None
    else if |d| == 2 then Some([Byte0(d[0], d[1])])
    else if |d| == 3 then Some([Byte0(d[0], d[1]), Byte1(d[1], d[2])])
    else
      match Unpack(d[4..])
      case None => None
      case Some(rest) => Some([Byte0(d[0], d[1]), Byte1(d[1], d[2]), Byte2(d[2], d[3])] + rest)
  }

  lemma Pack16(q: nat, r: nat)
    requires r < 16
    ensures (q * 16 + r) / 16 == q && (q * 16 + r) % 16 == r
  {
  }

  lemma Pack4(q: nat, r: nat)
    requires r < 4
    ensures (q * 4 + r) / 4 == q && (q * 4 + r) % 4 == r
  {
  }

  lemma GroupBack(a: Byte, b: Byte, c: Byte)
    ensures var d1 := a % 4 * 16 + b / 16;
            var d2 := b % 16 * 4 + c / 64;
            Byte0(a / 4, d1) == a && Byte1(d1, d2) == b && Byte2(d2, c % 64) == c
  {
    Pack16(a % 4, b / 16);
    Pack4(b % 16, c / 64);
  }

  lemma OneBack(a: Byte)
    ensures Unpack([a / 4, a % 4 * 16]) == Some([a])
  {
    GroupBack(a, 0, 0);
  }

  lemma TwoBack(a: Byte, b: Byte)
    ensures Unpack([a / 4, a % 4 * 16 + b / 16, b % 16 * 4]) == Some([a, b])
  {
    GroupBack(a, b, 0);
  }

  lemma ThreeBack(a: Byte, b: Byte, c: Byte, rest: seq<Sextet>)
    ensures Unpack([a / 4, a % 4 * 16 + b / 16, b % 16 * 4 + c / 64, c % 64] + rest)
         == if Unpack(rest).None? then None else Some([a, b, c] + Unpack(rest).value)
  {
    GroupBack(a, b, c);
    assert ([a / 4, a % 4 * 16 + b / 16, b % 16 * 4 + c / 64, c % 64] + rest)[4..] == rest;
  }

  lemma {:induction false} UnpackPack(b: seq<Byte>)
    ensures Unpack(Pack(b)) == Some(b)
  {
    if |b| == 1 {
      OneBack(b[0]);
      assert [b[0]] == b;
    } else if |b| == 2 {
      TwoBack(b[0], b[1]);
      assert [b[0], b[1]] == b;
    } else if |b| >= 3 {
      UnpackPack(b[3..]);
      ThreeBack(b[0], b[1], b[2], Pack(b[3..]));
      assert [b[0], b[1], b[2]] + b[3..] == b;
    }
  }

  lemma {:induction false} PackLength(b: seq<Byte>)
    ensures |Pack(b)| == (|b| * 4 + 2) / 3
  {
    if |b| >= 3 {
      PackLength(b[3..]);
    }
  }

  lemma {:induction false} UnpackRefuses(d: seq<Sextet>)
    ensures Unpack(d) == None <==> |d| % 4 == 1
  {
    if |d| >= 4 {
      UnpackRefuses(d[4..]);
    }
  }

  // ------------------------------------------------------------- alphabet

  /** The table of section 4 of RFC 4648. */
  function CharOf(d: Sextet): (c: char)
    ensures IsAlphabet(c) && SextetOf(c) == d
  {
    if d < 26 then 'A' + d as char
    else if d < 52 then 'a' + (d - 26) as char
    else if d < 62 then '0' + (d - 52) as char
    else if d == 62 then '+' else '/'
  }

  predicate IsAlphabet(c: char) {
    'A' <= c <= 'Z' || 'a' <= c <= 'z' || '0' <= c <= '9' || c == '+' || c == '/'
  }

  function SextetOf(c: char): Sextet
    requires IsAlphabet(c)
  {
    if 'A' <= c <= 'Z' then (c - 'A') as int
    else if 'a' <= c <= 'z' then (c - 'a') as int + 26
    else if '0' <= c <= '9' then (c - '0') as int + 52
    else if c == '+' then 62 else 63
  }

  predicate AllAlphabet(s: string) {
    forall i :: 0 <= i < |s| ==> IsAlphabet(s[i])
  }

  function Chars(d: seq<Sextet>): (s: string)
    ensures |s| == |d| && forall i :: 0 <= i < |d| ==> s[i] == CharOf(d[i])
  {
    seq(|d|, i requires 0 <= i < |d| => CharOf(d[i]))
  }

  function Sextets(s: string): (d: seq<Sextet>)
    requires AllAlphabet(s)
    ensures |d| == |s| && forall i :: 0 <= i < |s| ==> d[i] == SextetOf(s[i])
  {
    seq(|s|, i requires 0 <= i < |s| => SextetOf(s[i]))
  }

  // ---------------------------------------------------------- btoa and atob

  function Equals(n: nat): (s: string)
    ensures |s| == n && forall i :: 0 <= i < n ==> s[i] == '='
  {
    seq(n, i => '=')
  }

  /** How many `=` complete `n` characters to a multiple of four. */
  function Missing(n: nat): (m: nat)
    ensures m < 4 && (n + m) % 4 == 0
  {
    (4 - n % 4) % 4
  }

  /** `btoa`, on the bytes of a binary string. */
  function Btoa(b: seq<Byte>): string {
    Chars(Pack(b)) + Equals(Missing(|Pack(b)|))
  }

  predicate IsAsciiSpace(c: char) {
    c == '\t' || c == '\n' || c == '\U{0C}' || c == '\r' || c == ' '
  }

  function StripSpaces(s: string): string {
    if s == "" then ""
    else (if IsAsciiSpace(s[0]) then "" else [s[0]]) + StripSpaces(s[1..])
  }

  predicate EndsWithEquals(t: string, n: nat) {
    |t| >= n && forall i :: |t| - n <= i < |t| ==> t[i] == '='
  }

  /** How `atob` removes padding: up to two `=`, and only at lengths divisible by four. */
  function Unpadded(t: string): string {
    if |t| % 4 != 0 then t
    else if EndsWithEquals(t, 2) then t[..|t| - 2]
    else if EndsWithEquals(t, 1) then t[..|t| - 1]
    else t
  }

  /** `atob`: forgiving decoding, None where it throws. */
  function Atob(s: string): Option<seq<Byte>> {
    var u := Unpadded(StripSpaces(s));
    if AllAlphabet(u) then Unpack(Sextets(u)) else None
  }

  // -------------------------------------------------------------- base64url

  function ToUrl(c: char): char {
    if c == '+' then '-' else if c == '/' then '_' else c
  }

  function FromUrl(c: char): char {
    if c == '-' then '+' else if c == '_' then '/' else c
  }

  function MapToUrl(s: string): (r: string)
    ensures |r| == |s| && forall i :: 0 <= i < |s| ==> r[i] == ToUrl(s[i])
  {
    seq(|s|, i requires 0 <= i < |s| => ToUrl(s[i]))
  }

  function MapFromUrl(s: string): (r: string)
    ensures |r| == |s| && forall i :: 0 <= i < |s| ==> r[i] == FromUrl(s[i])
  {
    seq(|s|, i requires 0 <= i < |s| => FromUrl(s[i]))
  }

  /** `.replace(/=+$/, '')` */
  function DropPadding(s: string): string {
    if s != "" && s[|s| - 1] == '=' then DropPadding(s[..|s| - 1]) else s
  }

  /** `padEnd(Math.ceil(length / 4) * 4, '=')` */
  function Padded(s: string): string {
    s + Equals(Missing(|s|))
  }

  function Encode(b: seq<Byte>): string {
    DropPadding(MapToUrl(Btoa(b)))
  }

  function Decode(s: string): Option<seq<Byte>> {
    Atob(Padded(MapFromUrl(s)))
  }

  predicate IsUrlChar(c: char) {
    'A' <= c <= 'Z' || 'a' <= c <= 'z' || '0' <= c <= '9' || c == '-' || c == '_'
  }

  predicate AllUrl(s: string) {
    forall i :: 0 <= i < |s| ==> IsUrlChar(s[i])
  }

  lemma {:induction false} DropEquals(s: string, n: nat)
    requires s != "" ==> s[|s| - 1] != '='
    ensures DropPadding(s + Equals(n)) == s
  {
    if n == 0 {
      assert s + Equals(0) == s;
    } else {
      assert (s + Equals(n))[..|s| + n - 1] == s + Equals(n - 1);
      DropEquals(s, n - 1);
    }
  }

  /** The chain of replacements yields exactly the url-safe digits of the packed bytes. */
  lemma EncodeDigits(b: seq<Byte>)
    ensures Encode(b) == MapToUrl(Chars(Pack(b)))
  {
    var s := Chars(Pack(b));
    var n := Missing(|Pack(b)|);
    assert MapToUrl(s + Equals(n)) == MapToUrl(s) + Equals(n);
    DropEquals(MapToUrl(s), n);
  }

  /** Encoded text holds url-safe characters only, ceil(4n/3) of them for n bytes. */
  lemma EncodeShape(b: seq<Byte>)
    ensures AllUrl(Encode(b)) && |Encode(b)| == (|b| * 4 + 2) / 3
  {
    EncodeDigits(b);
    PackLength(b);
    var s := Chars(Pack(b));
    forall i | 0 <= i < |s| ensures IsUrlChar(MapToUrl(s)[i]) {
      assert IsAlphabet(s[i]);
    }
  }

  /** Byte `i`, or nothing but zero bits beyond the end. */
  function ByteOr0(b: seq<Byte>, i: nat): int {
    if i < |b| then b[i] else 0
  }

  /** The six bits of `b` from bit `6 * i` on, the highest bit of each byte first. */
  function SixBits(b: seq<Byte>, i: nat): int {
    var two := ByteOr0(b, i * 3 / 4) * 0x100 + ByteOr0(b, i * 3 / 4 + 1);
    match i % 4
    case 0 => two / 1024 % 64
    case 1 => two / 16 % 64
    case 2 => two / 64 % 64
    case _ => two / 256 % 64
  }

  lemma HighSix(a: int, b: int)
    requires 0 <= a < 256 && 0 <= b < 256
    ensures (a * 0x100 + b) / 1024 % 64 == a / 4
  {
    var q, r := a / 4, a % 4;
    assert a * 0x100 + b == 1024 * q + (256 * r + b);
  }

  lemma TwoAndFour(a: int, b: int)
    requires 0 <= a < 256 && 0 <= b < 256
    ensures (a * 0x100 + b) / 16 % 64 == a % 4 * 16 + b / 16
  {
    var q, r, t, u := a / 4, a % 4, b / 16, b % 16;
    assert a * 0x100 + b == 16 * (64 * q + (16 * r + t)) + u;
    assert (a * 0x100 + b) / 16 == 64 * q + (16 * r + t);
  }

  lemma FourAndTwo(a: int, b: int)
    requires 0 <= a < 256 && 0 <= b < 256
    ensures (a * 0x100 + b) / 64 % 64 == a % 16 * 4 + b / 64
  {
    var q, r, t, u := a / 16, a % 16, b / 64, b % 64;
    assert a * 0x100 + b == 64 * (64 * q + (4 * r + t)) + u;
    assert (a * 0x100 + b) / 64 == 64 * q + (4 * r + t);
  }

  lemma LowSix(a: int, b: int)
    requires 0 <= a < 256 && 0 <= b < 256
    ensures (a * 0x100 + b) / 256 % 64 == a % 64
  {
    assert (a * 0x100 + b) / 256 == a;
  }

  /** The groups of the first bytes, for up to four of them. */
  lemma FirstGroups(b: seq<Byte>)
    ensures |b| >= 1 ==> SixBits(b, 0) == b[0] / 4
    ensures |b| >= 1 ==> SixBits(b, 1) == b[0] as int % 4 * 16 + ByteOr0(b, 1) / 16
    ensures |b| >= 2 ==> SixBits(b, 2) == b[1] as int % 16 * 4 + ByteOr0(b, 2) / 64
    ensures |b| >= 3 ==> SixBits(b, 3) == b[2] as int % 64
  {
    HighSix(ByteOr0(b, 0), ByteOr0(b, 1));
    TwoAndFour(ByteOr0(b, 0), ByteOr0(b, 1));
    FourAndTwo(ByteOr0(b, 1), ByteOr0(b, 2));
    LowSix(ByteOr0(b, 2), ByteOr0(b, 3));
  }

  lemma LaterGroups(b: seq<Byte>, i: nat)
    requires |b| >= 3
    ensures SixBits(b, i + 4) == SixBits(b[3..], i)
  {
    assert (i + 4) * 3 / 4 == i * 3 / 4 + 3 && (i + 4) % 4 == i % 4;
    assert ByteOr0(b, i * 3 / 4 + 3) == ByteOr0(b[3..], i * 3 / 4);
    assert ByteOr0(b, i * 3 / 4 + 4) == ByteOr0(b[3..], i * 3 / 4 + 1);
  }

  lemma {:induction false} PackedBits(b: seq<Byte>, i: nat)
    requires i < |Pack(b)|
    ensures Pack(b)[i] == SixBits(b, i)
    decreases |b|
  {
    FirstGroups(b);
    if |b| >= 3 && i >= 4 {
      LaterGroups(b, i - 4);
      PackedBits(b[3..], i - 4);
    }
  }

  /** The url-safe alphabet (table 2 of RFC 4648): capitals, small letters, digits, `-` and `_`. */
  predicate IsEntry(c: char, d: int) {
    && (0 <= d < 26 ==> c as int == 65 + d) && (26 <= d < 52 ==> c as int == 97 + (d - 26))
    && (52 <= d < 62 ==> c as int == 48 + (d - 52)) && (d == 62 ==> c == '-') && (d == 63 ==> c == '_')
  }

  /** Character `i` of an encoding stands for its six bits. */
  lemma EncodedBits(b: seq<Byte>, i: nat)
    requires i < |Encode(b)|
    ensures 0 <= SixBits(b, i) < 64 && IsEntry(Encode(b)[i], SixBits(b, i))
  {
    EncodeDigits(b);
    PackedBits(b, i);
  }

  /** A text with any character beyond the two alphabets, `=` and blanks is refused. */
  lemma ForeignIsRefused(s: string, i: nat)
    requires i < |s| && !IsUrlChar(s[i]) && s[i] !in "+/= \t\n\r" && s[i] != '\U{0C}'
    ensures Decode(s) == None
  {
    var t := Padded(MapFromUrl(s));
    assert t[i] == s[i];
    KeptWithin(t, i);
    var u := StripSpaces(t);
    var j :| 0 <= j < |u| && u[j] == t[i];
    assert j < |Unpadded(u)| && Unpadded(u)[j] == s[i];
  }

  lemma {:induction false} KeptWithin(s: string, i: nat)
    requires i < |s| && !IsAsciiSpace(s[i])
    ensures exists j :: 0 <= j < |StripSpaces(s)| && StripSpaces(s)[j] == s[i]
  {
    if i == 0 {
      assert StripSpaces(s)[0] == s[0];
    } else {
      KeptWithin(s[1..], i - 1);
      var j :| 0 <= j < |StripSpaces(s[1..])| && StripSpaces(s[1..])[j] == s[i];
      assert StripSpaces(s)[if IsAsciiSpace(s[0]) then j else j + 1] == s[i];
    }
  }

  lemma {:induction false} StripConcat(a: string, b: string)
    ensures StripSpaces(a + b) == StripSpaces(a) + StripSpaces(b)
  {
    if a == "" {
      assert a + b == b;
    } else {
      StripConcat(a[1..], b);
      assert (a + b)[1..] == a[1..] + b;
    }
  }

  lemma StripBlank(c: char)
    requires c in " \t\n\r" || c == '\U{0C}'
    ensures StripSpaces([c]) == ""
  {
    assert IsAsciiSpace(c);
    assert [c][1..] == "";
  }

  lemma StripAround(a: string, c: string, b: string)
    requires StripSpaces(c) == ""
    ensures StripSpaces(a + c + b) == StripSpaces(a + b)
  {
    StripConcat(a + c, b);
    StripConcat(a, c);
    StripConcat(a, b);
    assert StripSpaces(a) + "" == StripSpaces(a);
  }

  /** A blank is skipped wherever it stands: a space, a tab, a feed of a line or a form, a return. */
  lemma BlankIsSkipped(a: string, c: char, b: string)
    requires c in " \t\n\r" || c == '\U{0C}'
    ensures Atob(a + [c] + b) == Atob(a + b)
  {
    StripBlank(c);
    StripAround(a, [c], b);
  }

  lemma {:induction false} StripNothing(s: string)
    requires forall i :: 0 <= i < |s| ==> !IsAsciiSpace(s[i])
    ensures StripSpaces(s) == s
  {
    if s != "" {
      StripNothing(s[1..]);
    }
  }

  lemma UnpaddedPadded(s: string)
    requires AllAlphabet(s)
    ensures Unpadded(Padded(s)) == if |s| % 4 == 1 then s + "=" else s
  {
    var t := Padded(s);
    var m := Missing(|s|);
    if m == 0 {
      assert |s| > 0 ==> t[|t| - 1] == s[|s| - 1];
    } else if m == 1 {
      assert t[|t| - 2] == s[|s| - 1];
    } else if m == 3 {
      assert t[..|t| - 2] == s + "=";
    }
  }

  /** Padded text decodes to its bytes, and is refused at lengths that no encoding has. */
  lemma AtobPadded(s: string)
    requires AllAlphabet(s)
    ensures Atob(Padded(s)) == Unpack(Sextets(s))
  {
    UnpaddedPadded(s);
    StripNothing(Padded(s));
    UnpackRefuses(Sextets(s));
    if |s| % 4 == 1 {
      assert !IsAlphabet((s + "=")[|s|]);
    }
  }

  lemma UrlAndBack(d: seq<Sextet>)
    ensures MapFromUrl(MapToUrl(Chars(d))) == Chars(d) && AllAlphabet(Chars(d)) && Sextets(Chars(d)) == d
  {
    var s := Chars(d);
    forall i | 0 <= i < |s| ensures IsAlphabet(s[i]) && FromUrl(ToUrl(s[i])) == s[i] {
      assert s[i] == CharOf(d[i]);
    }
  }

  /** Decoding undoes encoding, for byte strings of any length. */
  lemma DecodeEncode(b: seq<Byte>)
    ensures Decode(Encode(b)) == Some(b)
  {
    EncodeDigits(b);
    UrlAndBack(Pack(b));
    AtobPadded(Chars(Pack(b)));
    UnpackPack(b);
  }

  /** Of the texts over the url-safe alphabet, decoding refuses exactly the lengths 4k + 1. */
  lemma DecodeRefuses(s: string)
    requires AllUrl(s)
    ensures Decode(s) == None <==> |s| % 4 == 1
  {
    var t := MapFromUrl(s);
    forall i | 0 <= i < |t| ensures IsAlphabet(t[i]) {
      assert IsUrlChar(s[i]);
    }
    AtobPadded(t);
    UnpackRefuses(Sextets(t));
  }

  // ------------------------------------------------------------- the loops

  /** `toBase64Url`, which builds its binary string byte by byte. */
  method ToBase64Url(bytes: array<Byte>) returns (s: string)
    ensures s == Encode(bytes[..])
  {
    var binary: seq<Byte> := [];
    for i := 0 to bytes.Length
      invariant binary == bytes[..i]
    {
      binary := binary + [bytes[i]];
    }
    assert bytes[..bytes.Length] == bytes[..];
    s := DropPadding(MapToUrl(Btoa(binary)));
  }

  /** `fromBase64Url`, which copies the decoded string into a fresh buffer. */
  method FromBase64Url(value: string) returns (ok: bool, bytes: array<Byte>)
    ensures ok <==> Decode(value).Some?
    ensures ok ==> bytes[..] == Decode(value).value
    ensures fresh(bytes)
  {
    var decoded := Atob(Padded(MapFromUrl(value)));
    if decoded.None? {
      return false, new Byte[0];
    }
    bytes := CopyOut(decoded.value);
    return true, bytes;
  }

  method CopyOut(binary: seq<Byte>) returns (bytes: array<Byte>)
    ensures fresh(bytes) && bytes[..] == binary
  {
    bytes := new Byte[|binary|];
    for i := 0 to |binary|
      invariant bytes[..i] == binary[..i]
    {
      bytes[i] := binary[i];
    }
    assert bytes[..] == binary;
  }

  /** `base64UrlDecode` of the middleware pads with a loop; the two agree on every text. */
  method PaddingLoop(segment: string) returns (decoded: Option<seq<Byte>>)
    ensures decoded == Decode(segment)
  {
    var plain := MapFromUrl(segment);
    var base64 := plain;
    ghost var n := 0;
    while |base64| % 4 != 0
      invariant n <= Missing(|plain|) && base64 == plain + Equals(n)
      decreases Missing(|plain|) - n
    {
      base64 := base64 + "=";
      n := n + 1;
      assert base64 == plain + Equals(n);
    }
    assert n == Missing(|plain|);
    decoded := Atob(base64);
  }
}
