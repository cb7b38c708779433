/**
 * The user id carried in an activation link (accounts/views.py:28 and :49):
 * the primary key is written as decimal ASCII bytes and those bytes are encoded
 * with the URL- and filename-safe base64 alphabet of section 5 of RFC 4648,
 * with the trailing '=' padding stripped. Decoding re-pads, decodes and reads
 * the bytes back as a decimal integer; every failure yields None.
 */
module Uid {
  import opened Wrappers

  /** An octet. */
  type Byte = b: int | 0 <= b < 256

  // ---------------------------------------------------------------------------
  // The base64url alphabet
  // ---------------------------------------------------------------------------

  /** One of the 64 characters of the base64url alphabet. */
  predicate IsUrlSafeChar(c: char) {
    ('A' <= c <= 'Z') || ('a' <= c <= 'z') || ('0' <= c <= '9') || c == '-' || c == '_'
  }

  predicate AllUrlSafe(s: seq<char>) {
    forall i :: 0 <= i < |s| ==> IsUrlSafeChar(s[i])
  }

  /** The character that stands for the 6-bit value v. */
  function DigitChar(v: nat): (c: char)
    requires v < 64
    ensures IsUrlSafeChar(c)
  {
    if v < 26 then ('A' as int + v) as char
    else if v < 52 then ('a' as int + (v - 26)) as char
    else if v < 62 then ('0' as int + (v - 52)) as char
    else if v == 62 then '-'
    else '_'
  }

  /** The 6-bit value a character of the alphabet stands for; the inverse of DigitChar. */
  function DigitValue(c: char): (v: nat)
    requires IsUrlSafeChar(c)
    ensures v < 64 && DigitChar(v) == c
  {
    if 'A' <= c <= 'Z' then c as int - 'A' as int
    else if 'a' <= c <= 'z' then c as int - 'a' as int + 26
    else if '0' <= c <= '9' then c as int - '0' as int + 52
    else if c == '-' then 62
    else 63
  }

  lemma DigitValueOfChar(v: nat)
    requires v < 64
    ensures DigitValue(DigitChar(v)) == v
  {
  }

  /** A 6-bit value, the content of one base64 character. */
  type Sextet = v: int | 0 <= v < 64

  /** The characters standing for a run of 6-bit values. */
  function Chars(vs: seq<Sextet>): (s: seq<char>)
    ensures |s| == |vs| && AllUrlSafe(s)
  {
    seq(|vs|, i requires 0 <= i < |vs| => DigitChar(vs[i]))
  }

  /** The 6-bit values a run of alphabet characters stands for. */
  function Values(s: seq<char>): (vs: seq<Sextet>)
    requires AllUrlSafe(s)
    ensures |vs| == |s|
  {
    seq(|s|, i requires 0 <= i < |s| => DigitValue(s[i]))
  }

  lemma ValuesOfChars(vs: seq<Sextet>)
    ensures Values(Chars(vs)) == vs
  {
    var s := Chars(vs);
    forall i | 0 <= i < |vs|
      ensures Values(s)[i] == vs[i]
    {
      DigitValueOfChar(vs[i]);
    }
  }

  // ---------------------------------------------------------------------------
  // One group: three bytes, 24 bits, four 6-bit values
  // ---------------------------------------------------------------------------

  /** The four 6-bit values of three bytes, most significant bits first. */
  function Group(b0: Byte, b1: Byte, b2: Byte): (g: seq<Sextet>)
    ensures |g| == 4
  {
    [b0 / 4, b0 % 4 * 16 + b1 / 16, b1 % 16 * 4 + b2 / 64, b2 % 64]
  }

  /** The three bytes four 6-bit values stand for. */
  function Ungroup(g: seq<Sextet>): (b: seq<Byte>)
    requires |g| == 4
    ensures |b| == 3
  {
    [g[0] as int * 4 + g[1] / 16, g[1] as int % 16 * 16 + g[2] / 4, g[2] as int % 4 * 64 + g[3]]
  }

  lemma UngroupGroup(b0: Byte, b1: Byte, b2: Byte)
    ensures Ungroup(Group(b0, b1, b2)) == [b0, b1, b2]
  {
  }

  // ---------------------------------------------------------------------------
  // Encoding without padding
  // ---------------------------------------------------------------------------

  /** Number of characters the unpadded encoding of n bytes has: ceil(4n/3). */
  function EncodedLength(n: nat): nat {
    (4 * n + 2) / 3
  }

  /**
   * The 6-bit values of the encoding: every 3 bytes give 4 values; a final
   * group of 1 or 2 bytes gives the first 2 or 3 values of its group, the
   * missing bytes taken as zero.
   */
  function Sextets(b: seq<Byte>): (vs: seq<Sextet>)
    ensures |vs| == EncodedLength(|b|)
    ensures |vs| % 4 != 1
  {
    if |b| == 0 then []
    else if |b| == 1 then Group(b[0], 0, 0)[..2]
    else if |b| == 2 then Group(b[0], b[1], 0)[..3]
    else Group(b[0], b[1], b[2]) + Sextets(b[3..])
  }

  /** urlsafe_base64_encode: the characters of the encoding, '=' padding stripped. */
  function Encode(b: seq<Byte>): (s: seq<char>)
    ensures |s| == EncodedLength(|b|)
    ensures |s| % 4 != 1
    ensures AllUrlSafe(s)
  {
    Chars(Sextets(b))
  }

  // ---------------------------------------------------------------------------
  // Decoding
  // ---------------------------------------------------------------------------

  /**
   * The bytes a well-formed run of 6-bit values stands for. A final group of
   * 2 or 3 values gives 1 or 2 bytes; the bits left over are ignored, as the
   * non-strict decoder does.
   */
  function BytesOf(vs: seq<Sextet>): (b: seq<Byte>)
    requires |vs| % 4 != 1
    ensures |b| == |vs| * 3 / 4
  {
    if |vs| == 0 then []
    else if |vs| == 2 then Ungroup(vs + [0, 0])[..1]
    else if |vs| == 3 then Ungroup(vs + [0])[..2]
    else Ungroup(vs[..4]) + BytesOf(vs[4..])
  }

  /**
   * urlsafe_base64_decode: None (the ValueError the view catches) when a
   * character is outside the alphabet or when the length leaves a single
   * character in the last group, which no padding can repair.
   */
  function Decode(s: seq<char>): (r: Option<seq<Byte>>)
    ensures r.Some? <==> AllUrlSafe(s) && |s| % 4 != 1
    ensures r.Some? ==> |r.value| == |s| * 3 / 4
  {
    if AllUrlSafe(s) && |s| % 4 != 1 then Some(BytesOf(Values(s))) else None
  }

  /** A final group of one byte round-trips. */
  lemma OneByteRoundTrip(b0: Byte)
    ensures BytesOf(Sextets([b0])) == [b0]
  {
    var g := Group(b0, 0, 0);
    assert Sextets([b0]) + [0, 0] == g;
    UngroupGroup(b0, 0, 0);
  }

  /** A final group of two bytes round-trips. */
  lemma TwoBytesRoundTrip(b0: Byte, b1: Byte)
    ensures BytesOf(Sextets([b0, b1])) == [b0, b1]
  {
    var g := Group(b0, b1, 0);
    assert Sextets([b0, b1]) + [0] == g;
    UngroupGroup(b0, b1, 0);
  }

  /** Decoding the values of an encoding peels off its first three bytes unchanged. */
  lemma BytesOfSextetsStep(b: seq<Byte>)
    requires |b| >= 3
    ensures BytesOf(Sextets(b)) == [b[0], b[1], b[2]] + BytesOf(Sextets(b[3..]))
  {
    var g, rest := Group(b[0], b[1], b[2]), Sextets(b[3..]);
    var vs := Sextets(b);
    assert vs == g + rest;
    assert vs[..4] == g && vs[4..] == rest;
    UngroupGroup(b[0], b[1], b[2]);
  }

  lemma {:induction false} BytesOfSextets(b: seq<Byte>)
    ensures BytesOf(Sextets(b)) == b
  {
    if |b| == 0 {
    } else if |b| == 1 {
      assert b == [b[0]];
      OneByteRoundTrip(b[0]);
    } else if |b| == 2 {
      assert b == [b[0], b[1]];
      TwoBytesRoundTrip(b[0], b[1]);
    } else {
      BytesOfSextetsStep(b);
      BytesOfSextets(b[3..]);
      assert b == [b[0], b[1], b[2]] + b[3..];
    }
  }

  /** Decoding an encoding gives back the original bytes. */
  lemma DecodeEncode(b: seq<Byte>)
    ensures Decode(Encode(b)) == Some(b)
  {
    ValuesOfChars(Sextets(b));
    BytesOfSextets(b);
  }

  // ---------------------------------------------------------------------------
  // The primary key as decimal ASCII bytes
  // ---------------------------------------------------------------------------

  predicate IsDigitByte(x: Byte) {
    '0' as int <= x <= '9' as int
  }

  predicate AllDigits(s: seq<Byte>) {
    forall i :: 0 <= i < |s| ==> IsDigitByte(s[i])
  }

  /** force_bytes(pk): the decimal digits of pk, with no leading zero. */
  function DecimalBytes(n: nat): (s: seq<Byte>)
    ensures |s| > 0 && AllDigits(s)
    ensures s[0] == '0' as int ==> n == 0
  {
    if n < 10 then ['0' as int + n]
    else DecimalBytes(n / 10) + ['0' as int + n % 10]
  }

  /** The value of a string of decimal digits. */
  function DigitsValue(s: seq<Byte>): nat
    requires AllDigits(s)
  {
    if |s| == 0 then 0
    else DigitsValue(s[..|s| - 1]) * 10 + (s[|s| - 1] - '0' as int)
  }

  /**
   * Reading the decoded bytes as the integer primary key: None (the ValueError
   * the view catches) unless the bytes are a non-empty run of ASCII digits.
   */
  function ParseDecimal(s: seq<Byte>): (r: Option<nat>)
    ensures r.Some? <==> |s| > 0 && AllDigits(s)
  {
    if |s| > 0 && AllDigits(s) then Some(DigitsValue(s)) else None
  }

  lemma {:induction false} DigitsValueOfDecimal(n: nat)
    ensures DigitsValue(DecimalBytes(n)) == n
  {
    if n >= 10 {
      var s := DecimalBytes(n);
      assert s[..|s| - 1] == DecimalBytes(n / 10);
      DigitsValueOfDecimal(n / 10);
    }
  }

  lemma ParseDecimalBytes(n: nat)
    ensures ParseDecimal(DecimalBytes(n)) == Some(n)
  {
    DigitsValueOfDecimal(n);
  }

  // ---------------------------------------------------------------------------
  // The uid of an activation link
  // ---------------------------------------------------------------------------

  /** urlsafe_base64_encode(force_bytes(pk)) (accounts/views.py:28 and :100). */
  function EncodeUid(pk: nat): (uid: string)
    ensures |uid| >= 2 && AllUrlSafe(uid)
  {
    Encode(DecimalBytes(pk))
  }

  /** force_str(urlsafe_base64_decode(uidb64)) read as a primary key (accounts/views.py:49-50). */
  function DecodeUid(uidb64: string): (r: Option<nat>)
    ensures r.Some? ==> Decode(uidb64).Some?
  {
    match Decode(uidb64)
    case None => None
    case Some(bytes) => ParseDecimal(bytes)
  }

  /** The uid written into a link names the user it was written for. */
  lemma UidRoundTrip(pk: nat)
    ensures DecodeUid(EncodeUid(pk)) == Some(pk)
  {
    DecodeEncode(DecimalBytes(pk));
    ParseDecimalBytes(pk);
  }

  /** Two users never share a uid: encoding is injective. */
  lemma EncodeUidInjective(p: nat, q: nat)
    ensures EncodeUid(p) == EncodeUid(q) ==> p == q
  {
    UidRoundTrip(p);
    UidRoundTrip(q);
  }
}
