/** The identity a chunk's blob is bound to, and its length framed encoding (blob.rs). */
module ChunkIdentity {
  import opened Wrappers
  import opened Bytes
  import Utf8

  const HASH_LEN: nat := 32

  datatype ChunkId = ChunkId(class_: string, key: string, idx: i64, hash: seq<Byte>, isFinal: bool)

  /** What the Rust types guarantee: lengths fit a `u64`, the hash is a `[u8; 32]`. */
  predicate Valid(id: ChunkId) {
    && |Utf8.Encode(id.class_)| < TWO_TO_64
    && |Utf8.Encode(id.key)| < TWO_TO_64
    && |id.hash| == HASH_LEN
  }

  function LengthPrefixed(bytes: seq<Byte>): seq<Byte>
    requires |bytes| < TWO_TO_64
  {
    LittleEndian(|bytes|, 8) + bytes
  }

  function Frame(id: ChunkId): seq<Byte>
    requires Valid(id)
  {
    LengthPrefixed(Utf8.Encode(id.class_))
    + LengthPrefixed(Utf8.Encode(id.key))
    + FixedPart(id)
  }

  function FixedPart(id: ChunkId): seq<Byte> {
    LittleEndian(ToUnsigned(id.idx), 8) + id.hash + [if id.isFinal then 1 else 0]
  }

  /** The frame byte by byte: each string behind its length, then index, hash and finality at fixed widths. */
  lemma FrameLayout(id: ChunkId)
    requires Valid(id)
    ensures var class_, key := Utf8.Encode(id.class_), Utf8.Encode(id.key);
            Frame(id) ==
            (WordBytes(|class_|) + class_)
            + (WordBytes(|key|) + key)
            + (WordBytes(if id.idx < 0 then id.idx + 0x1_0000_0000_0000_0000 else id.idx) + id.hash
               + [if id.isFinal then 1 else 0])
  {
    LittleEndianWord(|Utf8.Encode(id.class_)|);
    LittleEndianWord(|Utf8.Encode(id.key)|);
    LittleEndianWord(ToUnsigned(id.idx));
    hide LittleEndian, WordBytes, Utf8.Encode;
  }

  /** Builds the frame by appending to a buffer field by field. */
  method EncodeFrame(id: ChunkId) returns (out: seq<Byte>)
    requires Valid(id)
    ensures out == Frame(id)
  {
    var class_, key := Utf8.Encode(id.class_), Utf8.Encode(id.key);
    out := LittleEndian(|class_|, 8);
    out := out + class_;
    out := out + LittleEndian(|key|, 8);
    out := out + key;
    out := out + LittleEndian(ToUnsigned(id.idx), 8);
    out := out + id.hash;
    out := out + [if id.isFinal then 1 else 0];
  }

  function SplitPrefixed(bytes: seq<Byte>): Option<(seq<Byte>, seq<Byte>)> {
    if |bytes| < 8 then None
    else
      var n := LittleEndianValue(bytes[..8]);
      if |bytes| < 8 + n then None
      else Some((bytes[8..8 + n], bytes[8 + n..]))
  }

  /** Reads one framed identity off the front of a byte stream and returns what follows it. */
  function Unframe(bytes: seq<Byte>): Option<(ChunkId, seq<Byte>)> {
    match SplitPrefixed(bytes)
    case None => None
    case Some((class_, afterClass)) =>
      match SplitPrefixed(afterClass)
      case None => None
      case Some((key, afterKey)) =>
        match (Utf8.Decode(class_), Utf8.Decode(key))
        case (Some(c), Some(k)) => UnframeFixed(c, k, afterKey)
        case _ => None
  }

  /** The part of a frame after the two length prefixed strings is of fixed width. */
  function UnframeFixed(class_: string, key: string, bytes: seq<Byte>): Option<(ChunkId, seq<Byte>)> {
    if |bytes| < 8 + HASH_LEN + 1 then None
    else
      var idx := LittleEndianValue(bytes[..8]);
      if idx >= TWO_TO_64 || bytes[8 + HASH_LEN] > 1 then None
      else
        Some((ChunkId(class_, key, ToSigned(idx), bytes[8..8 + HASH_LEN], bytes[8 + HASH_LEN] == 1),
              bytes[8 + HASH_LEN + 1..]))
  }

  lemma SplitPrefixedInverse(bytes: seq<Byte>, rest: seq<Byte>)
    requires |bytes| < TWO_TO_64
    ensures SplitPrefixed(LengthPrefixed(bytes) + rest) == Some((bytes, rest))
  {
    var all := LengthPrefixed(bytes) + rest;
    WordRoundTrip(|bytes|);
    assert all[..8] == LittleEndian(|bytes|, 8);
    assert all[8..8 + |bytes|] == bytes;
    assert all[8 + |bytes|..] == rest;
  }

  lemma UnframeFixedInverse(id: ChunkId, rest: seq<Byte>)
    requires |id.hash| == HASH_LEN
    ensures UnframeFixed(id.class_, id.key, FixedPart(id) + rest) == Some((id, rest))
  {
    var bytes := FixedPart(id) + rest;
    WordRoundTrip(ToUnsigned(id.idx));
    assert bytes[..8] == LittleEndian(ToUnsigned(id.idx), 8);
    assert bytes[8..8 + HASH_LEN] == id.hash;
    assert bytes[8 + HASH_LEN + 1..] == rest;
  }

  /** `Unframe` undoes `Frame` whatever follows it: the frame says where it ends. */
  lemma UnframeFrame(id: ChunkId, rest: seq<Byte>)
    requires Valid(id)
    ensures Unframe(Frame(id) + rest) == Some((id, rest))
  {
    var class_, key := Utf8.Encode(id.class_), Utf8.Encode(id.key);
    var afterKey := FixedPart(id) + rest;
    var afterClass := LengthPrefixed(key) + afterKey;
    assert Frame(id) + rest == LengthPrefixed(class_) + afterClass;
    SplitPrefixedInverse(class_, afterClass);
    SplitPrefixedInverse(key, afterKey);
    Utf8.DecodeEncode(id.class_);
    Utf8.DecodeEncode(id.key);
    UnframeFixedInverse(id, rest);
  }

  /** Distinct identities never frame to the same bytes, nor one to a prefix of the other. */
  lemma FramePrefixFree(a: ChunkId, b: ChunkId)
    requires Valid(a) && Valid(b)
    requires Frame(a) <= Frame(b)
    ensures a == b
  {
    var rest := Frame(b)[|Frame(a)|..];
    assert Frame(b) + [] == Frame(b) == Frame(a) + rest;
    UnframeFrame(a, rest);
    UnframeFrame(b, []);
  }
}
