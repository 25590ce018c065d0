/**
 The two views of cleanup are one. The walk knows paths and 32-byte ids, the
 database knows rows and the identities that ids are derived from; under a
 naming that keeps the ids in use apart, a faultless walk takes from the tree
 exactly what cleanup takes from the database's disk.
 */
module Reclaim {
  import opened Wrappers
  import opened Blobs
  import opened Protocol
  import opened Store
  import BlobLayout
  import Cleanup

  /** What the key derivation gives for an identity. */
  type Naming = BlobId -> BlobLayout.BlobId

  /** No two of the blobs on disk or in rows have the same name. */
  ghost predicate Distinct(s: State, naming: Naming) {
    forall a, b :: InUse(s, a) && InUse(s, b) && naming(a) == naming(b) ==> a == b
  }

  ghost predicate InUse(s: State, id: BlobId) {
    id in s.disk || Referenced(s, id)
  }

  /** The names for which sql finds a row. */
  function NamesInRows(s: State, naming: Naming): set<BlobLayout.BlobId> {
    set ck | ck in s.chunks :: naming(s.chunks[ck].blobId)
  }

  /** The files at blob paths are those of the disk, under their names and as old. */
  ghost predicate Holds(nodes: Cleanup.Nodes, disk: Disk, naming: Naming) {
    && (forall id :: id in disk ==> Cleanup.BlobPath(naming(id)) in nodes
                                    && nodes[Cleanup.BlobPath(naming(id))] == Cleanup.FileNode(disk[id].mtime))
    && (forall b :: Cleanup.BlobPath(b) in nodes && nodes[Cleanup.BlobPath(b)].FileNode? ==> Named(disk, naming, b))
  }

  ghost predicate Named(disk: Disk, naming: Naming, b: BlobLayout.BlobId) {
    exists id :: id in disk && naming(id) == b
  }

  lemma BlobPathIsItsOwn(b: BlobLayout.BlobId)
    ensures var p := Cleanup.BlobPath(b);
            Cleanup.Below([], p) && Cleanup.IdAt(p) == Some(b)
  {
    BlobLayout.IdPathRoundTrip(b);
    var p := Cleanup.BlobPath(b);
    assert p[|p| - 1] == Cleanup.Text(BlobLayout.IdPath(b)[BlobLayout.SHARD_DEPTH]);
  }

  lemma RowNamesIt(s: State, naming: Naming, id: BlobId)
    requires Distinct(s, naming) && InUse(s, id)
    ensures naming(id) in NamesInRows(s, naming) <==> Referenced(s, id)
  {
    if naming(id) in NamesInRows(s, naming) {
      var ck :| ck in s.chunks && naming(s.chunks[ck].blobId) == naming(id);
      assert Referenced(s, s.chunks[ck].blobId);
    }
  }

  /** For a file of the disk, the walk and the database agree on what is garbage. */
  lemma SameGarbage(s: State, nodes0: Cleanup.Nodes, naming: Naming, id: BlobId)
    requires Distinct(s, naming) && Holds(nodes0, s.disk, naming) && id in s.disk
    ensures Cleanup.Kept(nodes0, Cleanup.BlobPath(naming(id)), s.now - CLEANUP_GRACE, NamesInRows(s, naming))
            <==> !GarbageBlob(s, id)
  {
    BlobPathIsItsOwn(naming(id));
    RowNamesIt(s, naming, id);
  }

  /** A faultless walk over a tree that holds the disk leaves it holding the disk without its garbage. */
  lemma WalkCollects(s: State, nodes0: Cleanup.Nodes, nodes: Cleanup.Nodes, naming: Naming, ids: seq<BlobId>)
    requires Distinct(s, naming) && Holds(nodes0, s.disk, naming) && forall id :: id in s.disk ==> id in ids
    requires var cutoff, refs := s.now - CLEANUP_GRACE, NamesInRows(s, naming);
             forall p :: Cleanup.Below([], p) ==>
               (p in nodes <==> Cleanup.Kept(nodes0, p, cutoff, refs)) && Cleanup.SoundAt(nodes0, nodes, p, cutoff, refs)
    ensures Holds(nodes, Collected(s, ids, _ => true), naming)
  {
    var disk := Collected(s, ids, _ => true);
    forall id | id in s.disk
      ensures id in disk <==> Cleanup.BlobPath(naming(id)) in nodes
      ensures id in disk ==> nodes[Cleanup.BlobPath(naming(id))] == Cleanup.FileNode(disk[id].mtime)
    {
      BlobPathIsItsOwn(naming(id));
      SameGarbage(s, nodes0, naming, id);
    }
    forall b | Cleanup.BlobPath(b) in nodes && nodes[Cleanup.BlobPath(b)].FileNode?
      ensures Named(disk, naming, b)
    {
      BlobPathIsItsOwn(b);
      assert Cleanup.SoundAt(nodes0, nodes, Cleanup.BlobPath(b), s.now - CLEANUP_GRACE, NamesInRows(s, naming));
      assert Named(s.disk, naming, b);
      var id :| id in s.disk && naming(id) == b;
      assert id in disk;
    }
  }
}
