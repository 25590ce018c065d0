/**
 Chunk rows, and the cryptography of blob.rs idealised: hashes and derived ids
 are injective, each ciphertext byte is bound to the identity it was made under,
 and a tag opens exactly the ciphertext it was made with.
 */
module Blobs {
  import opened Wrappers
  import opened Bytes
  import opened Entries

  const CHUNK_SIZE: nat := 1024 * 1024 * 5

  datatype ChunkKey = ChunkKey(entry: EntryKey, idx: i64)

  datatype Hash = Sha256(content: seq<Byte>)

  /** The id derived from a chunk's identity: (class, key, idx, hash, is_final). */
  datatype BlobId = BlobId(ck: ChunkKey, hash: Hash, isFinal: bool)

  datatype Cell = Cell(id: BlobId, pos: nat, plain: Byte)

  datatype Tag = Tag(id: BlobId, content: seq<Byte>)

  datatype ChunkRow = ChunkRow(blobId: BlobId, hash: Hash, tag: Tag, size: int, isFinal: bool)

  type Chunks = map<ChunkKey, ChunkRow>

  function GenId(ck: ChunkKey, hash: Hash, isFinal: bool): BlobId {
    BlobId(ck, hash, isFinal)
  }

  function Encrypt(id: BlobId, data: seq<Byte>): (cells: seq<Cell>)
    ensures |cells| == |data|
  {
    seq(|data|, i requires 0 <= i < |data| => Cell(id, i, data[i]))
  }

  /** Everything a blob file may ever hold is a prefix of this. */
  function FullBlob(id: BlobId): seq<Cell> {
    Encrypt(id, id.hash.content)
  }

  function Decrypt(id: BlobId, cells: seq<Cell>, tag: Tag): Option<seq<Byte>> {
    if tag.id == id && cells == Encrypt(id, tag.content) then Some(tag.content) else None
  }

  predicate ValidSize(size: int, isFinal: bool) {
    if isFinal then 0 <= size <= CHUNK_SIZE else size == CHUNK_SIZE
  }

  function RowFor(ck: ChunkKey, data: seq<Byte>, isFinal: bool): ChunkRow {
    var id := GenId(ck, Sha256(data), isFinal);
    ChunkRow(id, Sha256(data), Tag(id, data), |data|, isFinal)
  }

  /** The chunk rows whose entry is in a set of entries. */
  function RowsOf(chunks: Chunks, batch: set<EntryKey>): set<ChunkKey> {
    set ck | ck in chunks && ck.entry in batch
  }

  function WithoutRowsOf(chunks: Chunks, batch: set<EntryKey>): Chunks {
    map ck | ck in chunks && ck.entry !in batch :: chunks[ck]
  }

  /** `ids` are the blob ids of those rows, one for each row. */
  ghost predicate BlobIdsOf(ids: seq<BlobId>, chunks: Chunks, rows: set<ChunkKey>) {
    && rows <= chunks.Keys
    && |ids| == |rows|
    && (forall ck :: ck in rows ==> chunks[ck].blobId in ids)
    && (forall id :: id in ids ==> exists ck :: ck in rows && chunks[ck].blobId == id)
  }

  /** `SELECT COUNT(idx)` over an entry's rows. */
  function CountChunks(chunks: Chunks, k: EntryKey): nat {
    |RowsOf(chunks, {k})|
  }

  /** Decryption gives a content back if and only if tag and ciphertext are those of that content under that identity. */
  lemma DecryptExact(id: BlobId, cells: seq<Cell>, tag: Tag, content: seq<Byte>)
    ensures Decrypt(id, cells, tag) == Some(content) <==> tag == Tag(id, content) && cells == Encrypt(id, content)
  {
  }

  /** A ciphertext tells its identity and its content. */
  lemma EncryptInjective(id1: BlobId, data1: seq<Byte>, id2: BlobId, data2: seq<Byte>)
    requires Encrypt(id1, data1) == Encrypt(id2, data2)
    ensures data1 == data2
    ensures data1 != [] ==> id1 == id2
  {
    assert |data1| == |data2|;
    forall i | 0 <= i < |data1|
      ensures data1[i] == data2[i] && id1 == id2
    {
      assert Encrypt(id1, data1)[i] == Cell(id1, i, data1[i]);
      assert Encrypt(id2, data2)[i] == Cell(id2, i, data2[i]);
    }
    assert data1 == data2;
    if data1 != [] {
      assert Encrypt(id1, data1)[0].id == id1 && Encrypt(id2, data2)[0].id == id2;
    }
  }
}
