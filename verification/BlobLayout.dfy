/** Names and paths of blob files (blob.rs) and the raw key literal (sql.rs): all of them lowercase base16. */
module BlobLayout {
  import opened Wrappers
  import opened Bytes

  const SHARD_DEPTH: nat := 3
  const SHARD_LEN: nat := 4
  const ID_LEN: nat := 32

  type BlobId = id: seq<Byte> | |id| == ID_LEN witness seq(ID_LEN, _ => 0)

  /** Components below the database root. */
  type Path = seq<string>

  /** Digit `n` of "0123456789abcdef". */
  function HexChar(n: nat): (c: char)
    requires n < 16
    ensures IsLowerHex(c) && HexValue(c) == n
  {
    if n < 10 then ('0' as int + n) as char else ('a' as int + n - 10) as char
  }

  predicate IsLowerHex(c: char) {
    '0' <= c <= '9' || 'a' <= c <= 'f'
  }

  predicate IsHexDigit(c: char) {
    '0' <= c <= '9' || 'a' <= c <= 'f' || 'A' <= c <= 'F'
  }

  function HexValue(c: char): (n: nat)
    requires IsHexDigit(c)
    ensures n < 16
  {
    if '0' <= c <= '9' then c as int - '0' as int
    else if 'a' <= c <= 'f' then c as int - 'a' as int + 10
    else c as int - 'A' as int + 10
  }

  function HexEncode(bytes: seq<Byte>): (s: string)
    ensures |s| == 2 * |bytes|
    ensures AllLowerHex(s)
  {
    if bytes == [] then []
    else [HexChar(bytes[0] / 16), HexChar(bytes[0] % 16)] + HexEncode(bytes[1..])
  }

  /** Decodes upper and lower case digits alike. */
  function HexDecode(s: string): (bytes: Option<seq<Byte>>)
    ensures bytes.Some? ==> |s| == 2 * |bytes.value|
  {
    if s == [] then Some([])
    else if |s| == 1 || !IsHexDigit(s[0]) || !IsHexDigit(s[1]) then None
    else
      match HexDecode(s[2..])
      case None => None
      case Some(rest) => Some([16 * HexValue(s[0]) + HexValue(s[1])] + rest)
  }

  predicate IsShardName(name: string) {
    |name| == SHARD_LEN && forall i :: 0 <= i < |name| ==> IsHexDigit(name[i])
  }

  function ParseName(name: string): Option<BlobId> {
    if |name| != 2 * ID_LEN then None
    else
      match HexDecode(name)
      case None => None
      case Some(id) => Some(id)
  }

  function IdPath(id: BlobId): Path {
    var hex := HexEncode(id);
    [hex[..SHARD_LEN], hex[SHARD_LEN..SHARD_LEN * 2], hex[SHARD_LEN * 2..SHARD_LEN * 3], hex]
  }

  lemma ByteOfDigits(hi: nat, lo: nat)
    requires hi < 16 && lo < 16
    ensures (16 * hi + lo) / 16 == hi && (16 * hi + lo) % 16 == lo
  {
  }

  lemma DigitsOfByte(b: Byte)
    ensures b / 16 < 16 && b % 16 < 16 && 16 * (b / 16) + b % 16 == b
  {
  }

  lemma {:induction false} HexRoundTrip(bytes: seq<Byte>)
    ensures HexDecode(HexEncode(bytes)) == Some(bytes)
  {
    if bytes != [] {
      hide HexChar, HexValue;
      DigitsOfByte(bytes[0]);
      var hex := HexEncode(bytes);
      assert hex[0] == HexChar(bytes[0] / 16) && hex[1] == HexChar(bytes[0] % 16);
      assert hex[2..] == HexEncode(bytes[1..]);
      HexRoundTrip(bytes[1..]);
      assert HexDecode(hex) == Some([16 * HexValue(hex[0]) + HexValue(hex[1])] + bytes[1..]);
      assert [bytes[0]] + bytes[1..] == bytes;
    }
  }

  predicate AllLowerHex(s: string) {
    forall i :: 0 <= i < |s| ==> IsLowerHex(s[i])
  }

  lemma AllLowerHexSplit(s: string)
    requires |s| >= 2
    ensures AllLowerHex(s) <==> IsLowerHex(s[0]) && IsLowerHex(s[1]) && AllLowerHex(s[2..])
  {
    if IsLowerHex(s[0]) && IsLowerHex(s[1]) && AllLowerHex(s[2..]) {
      forall i | 0 <= i < |s|
        ensures IsLowerHex(s[i])
      {
        assert i < 2 || s[i] == s[2..][i - 2];
      }
    }
  }

  /** Digits of either case decode, but only the lowercase spelling is the encoding of what they decode to. */
  lemma {:induction false} HexDecodeCanonical(s: string)
    requires HexDecode(s).Some?
    ensures HexEncode(HexDecode(s).value) == s <==> AllLowerHex(s)
  {
    if s != [] {
      hide HexChar, HexValue;
      var hi, lo, rest := HexValue(s[0]), HexValue(s[1]), HexDecode(s[2..]).value;
      HexDecodeCanonical(s[2..]);
      AllLowerHexSplit(s);
      LowercaseDigit(s[0]);
      LowercaseDigit(s[1]);
      ByteOfDigits(hi, lo);
      var bytes := HexDecode(s).value;
      assert bytes[0] == 16 * hi + lo && bytes[1..] == rest;
      HexEncodeIs(bytes, hi, lo, s);
    }
  }

  lemma HexEncodeIs(bytes: seq<Byte>, hi: nat, lo: nat, s: string)
    requires bytes != [] && |s| >= 2 && hi < 16 && lo < 16 && bytes[0] / 16 == hi && bytes[0] % 16 == lo
    ensures HexEncode(bytes) == s <==> s[0] == HexChar(hi) && s[1] == HexChar(lo) && s[2..] == HexEncode(bytes[1..])
  {
    hide HexChar;
    var hex := HexEncode(bytes);
    assert hex[0] == HexChar(hi) && hex[1] == HexChar(lo) && hex[2..] == HexEncode(bytes[1..]);
    assert hex == [hex[0], hex[1]] + hex[2..];
    assert s == [s[0], s[1]] + s[2..];
  }

  lemma LowercaseDigit(c: char)
    requires IsHexDigit(c)
    ensures HexChar(HexValue(c)) == c <==> IsLowerHex(c)
  {
  }

  const DIGITS: string := "0123456789abcdef"

  /** `name` is the 64 lowercase digits of the id, high digit first. */
  predicate Spells(id: BlobId, name: string) {
    && |name| == 64
    && forall i :: 0 <= i < 32 ==> name[2 * i] == DIGITS[id[i] / 16] && name[2 * i + 1] == DIGITS[id[i] % 16]
  }

  lemma HexCharIs(n: nat)
    requires n < 16
    ensures HexChar(n) == DIGITS[n]
  {
  }

  /** Where each byte's digits stand. */
  lemma {:induction false} HexEncodeAt(bytes: seq<Byte>, i: nat)
    requires i < |bytes|
    ensures HexEncode(bytes)[2 * i] == DIGITS[bytes[i] / 16] && HexEncode(bytes)[2 * i + 1] == DIGITS[bytes[i] % 16]
  {
    HexCharIs(bytes[0] / 16);
    HexCharIs(bytes[0] % 16);
    if i > 0 {
      HexEncodeAt(bytes[1..], i - 1);
      assert HexEncode(bytes)[2..] == HexEncode(bytes[1..]);
    }
  }

  lemma SpellsIff(id: BlobId, name: string)
    ensures Spells(id, name) <==> name == HexEncode(id)
  {
    forall i | 0 <= i < 32
      ensures HexEncode(id)[2 * i] == DIGITS[id[i] / 16] && HexEncode(id)[2 * i + 1] == DIGITS[id[i] % 16]
    {
      HexEncodeAt(id, i);
    }
    if Spells(id, name) {
      forall k | 0 <= k < 64
        ensures name[k] == HexEncode(id)[k]
      {
        var i := k / 2;
        if k == 2 * i {
          assert name[2 * i] == DIGITS[id[i] / 16];
        } else {
          assert k == 2 * i + 1 && name[2 * i + 1] == DIGITS[id[i] % 16];
        }
      }
    }
  }

  /** The path of a blob: its digits, under directories named by the first twelve of them, four at a time. */
  lemma IdPathInDigits(id: BlobId)
    ensures var path := IdPath(id);
            && |path| == 4 && Spells(id, path[3])
            && path[0] == path[3][0..4] && path[1] == path[3][4..8] && path[2] == path[3][8..12]
  {
    SpellsIff(id, IdPath(id)[3]);
  }

  /** The name of a blob file parses back to its id, and its three parents are shard names. */
  lemma IdPathRoundTrip(id: BlobId)
    ensures var path := IdPath(id);
            && |path| == SHARD_DEPTH + 1
            && ParseName(path[SHARD_DEPTH]) == Some(id)
            && forall i :: 0 <= i < SHARD_DEPTH ==> IsShardName(path[i])
  {
    HexRoundTrip(id);
  }

  lemma IdPathInjective(a: BlobId, b: BlobId)
    requires IdPath(a) == IdPath(b)
    ensures a == b
  {
    IdPathRoundTrip(a);
    IdPathRoundTrip(b);
  }

  /**
   A file whose name parses sits at the path of the id it names exactly when
   the name is lowercase and each parent repeats its four digits of the name.
   */
  lemma AcceptedPathIsCanonical(path: Path)
    requires |path| == SHARD_DEPTH + 1 && ParseName(path[SHARD_DEPTH]).Some?
    ensures var name := path[SHARD_DEPTH];
            IdPath(ParseName(name).value) == path <==>
            && AllLowerHex(name)
            && forall i :: 0 <= i < SHARD_DEPTH ==> path[i] == name[SHARD_LEN * i..SHARD_LEN * (i + 1)]
  {
    var name := path[SHARD_DEPTH];
    HexDecodeCanonical(name);
    var id := ParseName(name).value;
    assert IdPath(id)[SHARD_DEPTH] == HexEncode(id);
    if HexEncode(id) == name {
      assert forall i :: 0 <= i < SHARD_DEPTH ==> IdPath(id)[i] == name[SHARD_LEN * i..SHARD_LEN * (i + 1)];
    }
  }

  /** The literal that selects raw key mode. */
  method KeyLiteral(secret: seq<Byte>) returns (buffer: array<char>)
    requires |secret| == 32
    ensures fresh(buffer) && buffer.Length == 67
    ensures buffer[..] == "x'" + HexEncode(secret) + "'"
  {
    hide HexEncode, HexChar;
    buffer := new char[67](_ => '\0');
    buffer[0] := 'x';
    buffer[1] := '\'';
    buffer[66] := '\'';
    HexEncodeNothing();
    for i := 0 to 32
      invariant buffer[0] == 'x' && buffer[1] == '\'' && buffer[66] == '\''
      invariant buffer[2..2 * i + 2] == HexEncode(secret[..i])
    {
      ghost var done := buffer[2..2 * i + 2];
      buffer[i * 2 + 2] := HexChar(secret[i] / 16);
      buffer[i * 2 + 3] := HexChar(secret[i] % 16);
      assert buffer[2..2 * i + 2] == done;
      assert buffer[2..2 * i + 4] == done + [buffer[i * 2 + 2], buffer[i * 2 + 3]];
      HexEncodeAppend(secret[..i], secret[i]);
      assert secret[..i + 1] == secret[..i] + [secret[i]];
    }
    assert secret[..32] == secret;
    assert buffer[..] == buffer[..2] + buffer[2..66] + buffer[66..];
  }

  lemma HexEncodeNothing()
    ensures HexEncode([]) == []
  {
  }

  /** Sixty-seven characters: the prefix, two lowercase digits for each byte, and the closing quote. */
  lemma KeyLiteralInDigits(secret: BlobId, literal: string)
    requires literal == "x'" + HexEncode(secret) + "'"
    ensures |literal| == 67 && literal[0] == 'x' && literal[1] == '\'' && literal[66] == '\''
    ensures Spells(secret, literal[2..66])
  {
    assert literal[2..66] == HexEncode(secret);
    SpellsIff(secret, literal[2..66]);
  }

  /** A reader of the literal recovers the secret from its digits. */
  lemma KeyLiteralDecodes(secret: seq<Byte>, literal: string)
    requires |secret| == 32 && literal == "x'" + HexEncode(secret) + "'"
    ensures |literal| == 67 && HexDecode(literal[2..66]) == Some(secret)
  {
    HexRoundTrip(secret);
    assert literal[2..66] == HexEncode(secret);
  }

  lemma {:induction false} HexEncodeAppend(bytes: seq<Byte>, b: Byte)
    ensures HexEncode(bytes + [b]) == HexEncode(bytes) + [HexChar(b / 16), HexChar(b % 16)]
  {
    if bytes != [] {
      HexEncodeAppend(bytes[1..], b);
      assert (bytes + [b])[1..] == bytes[1..] + [b];
    }
  }
}
