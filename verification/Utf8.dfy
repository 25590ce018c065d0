/**
 UTF-8, the form in which a Rust `String` holds its characters. Field length
 limits, the chunk identity frame and stored config values all work on it.
 */
module Utf8 {
  import opened Wrappers
  import opened Bytes

  function EncodeChar(c: char): (bytes: seq<Byte>)
    ensures 1 <= |bytes| <= 4
  {
    var n := c as int;
    if n < 0x80 then
      [n]
    else if n < 0x800 then
      [0xC0 + n / 64, 0x80 + n % 64]
    else if n < 0x10000 then
      [0xE0 + n / 4096, 0x80 + n / 64 % 64, 0x80 + n % 64]
    else
      [0xF0 + n / 262144, 0x80 + n / 4096 % 64, 0x80 + n / 64 % 64, 0x80 + n % 64]
  }

  function Encode(s: string): seq<Byte> {
    if s == [] then [] else EncodeChar(s[0]) + Encode(s[1..])
  }

  /** Byte length of the character a lead byte announces; 0 for a byte that leads none. */
  function Width(lead: Byte): nat {
    if lead < 0x80 then 1
    else if lead < 0xC0 then 0
    else if lead < 0xE0 then 2
    else if lead < 0xF0 then 3
    else if lead < 0xF8 then 4
    else 0
  }

  /** The scalar value the payload bits of one announced character spell. */
  function Payload(bytes: seq<Byte>): int
    requires |bytes| > 0 && |bytes| == Width(bytes[0])
  {
    var lead: int := bytes[0];
    if |bytes| == 1 then lead
    else if |bytes| == 2 then (lead - 0xC0) * 64 + Tail(bytes[1])
    else if |bytes| == 3 then (lead - 0xE0) * 4096 + Tail(bytes[1]) * 64 + Tail(bytes[2])
    else (lead - 0xF0) * 262144 + Tail(bytes[1]) * 4096 + Tail(bytes[2]) * 64 + Tail(bytes[3])
  }

  function Tail(b: Byte): int {
    b - 0x80
  }

  predicate IsScalar(n: int) {
    0 <= n < 0xD800 || 0xE000 <= n < 0x11_0000
  }

  /** The first character, accepted only in the one form `EncodeChar` gives it. */
  function DecodeChar(bytes: seq<Byte>): (c: Option<char>)
    requires bytes != []
    ensures c.Some? ==> EncodeChar(c.value) <= bytes
  {
    var w := Width(bytes[0]);
    if w == 0 || w > |bytes| then None
    else
      var n := Payload(bytes[..w]);
      if !IsScalar(n) || EncodeChar(n as char) != bytes[..w] then None else Some(n as char)
  }

  /** Strict decoding, as `String::from_utf8` does it. */
  function Decode(bytes: seq<Byte>): (s: Option<string>)
    ensures s.Some? ==> Encode(s.value) == bytes
  {
    hide EncodeChar, DecodeChar;
    if bytes == [] then Some([])
    else
      match DecodeChar(bytes)
      case None => None
      case Some(c) =>
        match Decode(bytes[|EncodeChar(c)|..])
        case None => None
        case Some(rest) =>
          EncodeCons(c, rest, bytes);
          Some([c] + rest)
  }

  lemma EncodeCons(c: char, rest: string, bytes: seq<Byte>)
    requires EncodeChar(c) <= bytes && Encode(rest) == bytes[|EncodeChar(c)|..]
    ensures Encode([c] + rest) == bytes
  {
    hide EncodeChar;
    assert ([c] + rest)[1..] == rest;
    assert bytes == EncodeChar(c) + bytes[|EncodeChar(c)|..];
  }

  lemma CharRoundTrip(c: char)
    ensures var bytes := EncodeChar(c);
            |bytes| == Width(bytes[0]) && Payload(bytes) == c as int && IsScalar(c as int)
  {
    Base64Digits(c as int);
  }

  lemma Base64Digits(n: nat)
    ensures n == n / 64 * 64 + n % 64
    ensures n == n / 4096 * 4096 + n / 64 % 64 * 64 + n % 64
    ensures n == n / 262144 * 262144 + n / 4096 % 64 * 4096 + n / 64 % 64 * 64 + n % 64
  {
    assert n / 64 / 64 == n / 4096;
    assert n / 4096 / 64 == n / 262144;
  }

  lemma DecodeCharOf(c: char, rest: seq<Byte>)
    ensures DecodeChar(EncodeChar(c) + rest) == Some(c)
  {
    CharRoundTrip(c);
    var bytes := EncodeChar(c);
    assert (bytes + rest)[..|bytes|] == bytes;
  }

  lemma {:induction false} DecodeEncode(s: string)
    ensures Decode(Encode(s)) == Some(s)
  {
    if s != [] {
      var head, tail := EncodeChar(s[0]), Encode(s[1..]);
      DecodeCharOf(s[0], tail);
      hide EncodeChar, DecodeChar;
      assert (head + tail)[|head|..] == tail;
      DecodeEncode(s[1..]);
      assert [s[0]] + s[1..] == s;
    }
  }

  lemma EncodeInjective(s: string, t: string)
    requires Encode(s) == Encode(t)
    ensures s == t
  {
    DecodeEncode(s);
    DecodeEncode(t);
  }

  /** How many bytes a scalar value takes, and how its bits are spread over them. */
  lemma EncodedForm(c: char)
    ensures var n, b := c as int, EncodeChar(c);
            if n <= 0x7F then |b| == 1 && n == b[0]
            else if n <= 0x7FF then |b| == 2 && n == Bits(b[0], 0xC0) * 64 + Bits(b[1], 0x80)
            else if n <= 0xFFFF then
              |b| == 3 && n == Bits(b[0], 0xE0) * 4096 + Bits(b[1], 0x80) * 64 + Bits(b[2], 0x80)
            else
              |b| == 4
              && n == Bits(b[0], 0xF0) * 262144 + Bits(b[1], 0x80) * 4096 + Bits(b[2], 0x80) * 64 + Bits(b[3], 0x80)
    ensures WellFormedChar(EncodeChar(c))
  {
    CharRoundTrip(c);
    EncodedIsWellFormed(c);
  }

  /** What a byte carries besides its marker. */
  function Bits(b: Byte, marker: int): int {
    b - marker
  }

  predicate Continues(b: Byte) {
    0x80 <= b <= 0xBF
  }

  /** The rows of table 3-7 of the Unicode standard, for one, two, three and four bytes. */
  predicate WellFormedChar(b: seq<Byte>) {
    || (|b| == 1 && b[0] <= 0x7F)
    || (|b| == 2 && 0xC2 <= b[0] <= 0xDF && Continues(b[1]))
    || (|b| == 3 && 0xE0 <= b[0] <= 0xEF && Continues(b[1]) && Continues(b[2])
        && (b[0] == 0xE0 ==> 0xA0 <= b[1]) && (b[0] == 0xED ==> b[1] <= 0x9F))
    || (|b| == 4 && 0xF0 <= b[0] <= 0xF4 && Continues(b[1]) && Continues(b[2]) && Continues(b[3])
        && (b[0] == 0xF0 ==> 0x90 <= b[1]) && (b[0] == 0xF4 ==> b[1] <= 0x8F))
  }

  predicate WellFormed(bytes: seq<Byte>) {
    bytes == [] ||
    exists n | 1 <= n <= 4 && n <= |bytes| :: WellFormedChar(bytes[..n]) && WellFormed(bytes[n..])
  }

  /** The well-formed sequences are those that encode a character. */
  lemma WellFormedEncodes(b: seq<Byte>)
    requires WellFormedChar(b)
    ensures |b| == Width(b[0]) && IsScalar(Payload(b)) && EncodeChar(Payload(b) as char) == b
  {
    if |b| == 2 {
      TwoBytes(b[0], b[1]);
    } else if |b| == 3 {
      ThreeBytes(b[0], b[1], b[2]);
    } else if |b| == 4 {
      FourBytes(b[0], b[1], b[2], b[3]);
    }
  }

  lemma TwoBytes(b0: int, b1: int)
    requires 0xC2 <= b0 <= 0xDF && 0x80 <= b1 <= 0xBF
    ensures var n := (b0 - 0xC0) * 64 + (b1 - 0x80);
            0x80 <= n < 0x800 && n / 64 == b0 - 0xC0 && n % 64 == b1 - 0x80
  {
  }

  lemma ThreeBytes(b0: int, b1: int, b2: int)
    requires 0xE0 <= b0 <= 0xEF && 0x80 <= b1 <= 0xBF && 0x80 <= b2 <= 0xBF
    requires (b0 == 0xE0 ==> 0xA0 <= b1) && (b0 == 0xED ==> b1 <= 0x9F)
    ensures var n := (b0 - 0xE0) * 4096 + (b1 - 0x80) * 64 + (b2 - 0x80);
            0x800 <= n < 0x10000 && !(0xD800 <= n < 0xE000)
            && n / 4096 == b0 - 0xE0 && n / 64 % 64 == b1 - 0x80 && n % 64 == b2 - 0x80
  {
  }

  lemma FourBytes(b0: int, b1: int, b2: int, b3: int)
    requires 0xF0 <= b0 <= 0xF4 && 0x80 <= b1 <= 0xBF && 0x80 <= b2 <= 0xBF && 0x80 <= b3 <= 0xBF
    requires (b0 == 0xF0 ==> 0x90 <= b1) && (b0 == 0xF4 ==> b1 <= 0x8F)
    ensures var n := (b0 - 0xF0) * 262144 + (b1 - 0x80) * 4096 + (b2 - 0x80) * 64 + (b3 - 0x80);
            0x10000 <= n < 0x11_0000
            && n / 262144 == b0 - 0xF0 && n / 4096 % 64 == b1 - 0x80 && n / 64 % 64 == b2 - 0x80 && n % 64 == b3 - 0x80
  {
    var q1 := b0 - 0xF0;
    var q2 := q1 * 64 + (b1 - 0x80);
    var q3 := q2 * 64 + (b2 - 0x80);
    var n := q3 * 64 + (b3 - 0x80);
    LastDigit(q1, b1 - 0x80);
    LastDigit(q2, b2 - 0x80);
    LastDigit(q3, b3 - 0x80);
    DivTwice(n);
  }

  lemma LastDigit(q: nat, r: nat)
    requires r < 64
    ensures (q * 64 + r) / 64 == q && (q * 64 + r) % 64 == r
  {
  }

  lemma DivTwice(n: nat)
    ensures n / 4096 == n / 64 / 64 && n / 262144 == n / 64 / 64 / 64
  {
  }

  lemma EncodedIsWellFormed(c: char)
    ensures WellFormedChar(EncodeChar(c))
  {
  }

  /** Decoding accepts exactly the well-formed byte sequences. */
  lemma {:induction false} DecodesIffWellFormed(bytes: seq<Byte>)
    ensures Decode(bytes).Some? <==> WellFormed(bytes)
    decreases |bytes|
  {
    if bytes != [] {
      if DecodeChar(bytes).Some? {
        var n := |EncodeChar(DecodeChar(bytes).value)|;
        EncodedIsWellFormed(DecodeChar(bytes).value);
        assert bytes[..n] == EncodeChar(DecodeChar(bytes).value);
        DecodesIffWellFormed(bytes[n..]);
      }
      hide EncodeChar, Payload;
      forall n | 1 <= n <= 4 && n <= |bytes| && WellFormedChar(bytes[..n])
        ensures DecodeChar(bytes).Some? && |EncodeChar(DecodeChar(bytes).value)| == n
      {
        WellFormedEncodes(bytes[..n]);
      }
    }
  }
}
