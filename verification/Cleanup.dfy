/** The recursive cleanup of the blob directory (lib.rs), over a file system of paths. */
module Cleanup {
  import opened Wrappers
  import opened Bytes
  import opened BlobLayout
  import Protocol

  /** A directory entry's name; only UTF-8 names are ever looked at. */
  datatype Name = Text(s: string) | NonUtf8(bytes: seq<Byte>)

  /** Path below the database root; the root itself is the empty path. */
  type FilePath = seq<Name>

  datatype Node = FileNode(mtime: int) | DirNode(mtime: int)

  type Nodes = map<FilePath, Node>

  /** Every node hangs in a directory. */
  ghost predicate IsTree(nodes: Nodes) {
    && [] in nodes && nodes[[]].DirNode?
    && forall p :: p in nodes && p != [] ==> p[..|p| - 1] in nodes && nodes[p[..|p| - 1]].DirNode?
  }

  function Texts(path: Path): FilePath {
    seq(|path|, i requires 0 <= i < |path| => Text(path[i]))
  }

  function BlobPath(id: BlobId): FilePath {
    Texts(IdPath(id))
  }

  /** A directory of our own layout: at most three levels of shard names. */
  predicate IsShardPath(p: FilePath) {
    |p| <= SHARD_DEPTH && forall i :: 0 <= i < |p| ==> p[i].Text? && IsShardName(p[i].s)
  }

  function IdAt(p: FilePath): Option<BlobId> {
    if p == [] || !p[|p| - 1].Text? then None
    else
      match ParseName(p[|p| - 1].s)
      case None => None
      case Some(id) => if BlobPath(id) == p then Some(id) else None
  }

  /**
   What the walk may meet besides plain files: entries it cannot read, or whose
   age it cannot tell; directories whose listing fails after some entries; ids it
   cannot look up; and what it cannot remove.
   */
  datatype Faults = Faults(unreadable: FilePath -> bool, ageless: FilePath -> bool, listingFails: FilePath -> Option<nat>,
                           queryFails: BlobId -> bool, irremovable: FilePath -> bool)

  ghost predicate Faultless(faults: Faults) {
    && (forall p :: !faults.unreadable(p) && !faults.ageless(p) && !faults.irremovable(p))
    && (forall p :: faults.listingFails(p).None?)
    && forall id :: !faults.queryFails(id)
  }

  /**
   A file at the path of some id, stale and unreferenced. An id has one path, so
   a walk asks about it at most once: `refs` are the ids whose query, whenever
   it came, found a row.
   */
  predicate Garbage(p: FilePath, node: Node, cutoff: int, refs: set<BlobId>) {
    node.FileNode? && node.mtime <= cutoff && IdAt(p).Some? && IdAt(p).value !in refs
  }

  /**
   What a complete walk leaves: every file that is not garbage, and every directory
   that is not a stale shard directory or still holds something that stays.
   */
  ghost predicate Kept(nodes: Nodes, p: FilePath, cutoff: int, refs: set<BlobId>)
    decreases if IsShardPath(p) then 1 + SHARD_DEPTH - |p| else 0
  {
    p in nodes &&
    if nodes[p].FileNode? then !Garbage(p, nodes[p], cutoff, refs)
    else
      p == [] || !IsShardPath(p) || nodes[p].mtime > cutoff || exists n: Name :: Kept(nodes, p + [n], cutoff, refs)
  }

  /** Nothing but garbage and stale shard directories may be gone, and only the age of a shard directory may change. */
  ghost predicate SoundAt(nodes0: Nodes, nodes: Nodes, p: FilePath, cutoff: int, refs: set<BlobId>) {
    && (p in nodes ==> p in nodes0 && (nodes[p] == nodes0[p] || (nodes[p].DirNode? && nodes0[p].DirNode? && IsShardPath(p))))
    && (p in nodes0 && p !in nodes ==>
          Garbage(p, nodes0[p], cutoff, refs)
          || (nodes0[p].DirNode? && p != [] && IsShardPath(p) && nodes0[p].mtime <= cutoff))
  }

  ghost predicate Same(nodes: Nodes, nodes0: Nodes, p: FilePath) {
    (p in nodes <==> p in nodes0) && (p in nodes ==> nodes[p] == nodes0[p])
  }

  ghost predicate Below(dir: FilePath, p: FilePath) {
    |dir| < |p| && p[..|dir|] == dir
  }

  function Children(nodes: Nodes, dir: FilePath): set<Name> {
    set p | p in nodes && |p| == |dir| + 1 && p[..|dir|] == dir :: p[|dir|]
  }

  /** Untouched nodes outside the layout are ones that stay. */
  lemma OutsideIsKept(nodes: Nodes, p: FilePath, depth: nat, cutoff: int, refs: set<BlobId>)
    requires IsTree(nodes) && p in nodes && depth < |p| && depth <= SHARD_DEPTH
    requires var child := p[..depth + 1];
             || (child in nodes && nodes[child].FileNode? && depth < SHARD_DEPTH)
             || (child in nodes && nodes[child].DirNode? && !IsShardPath(child))
    ensures Kept(nodes, p, cutoff, refs)
  {
    var child := p[..depth + 1];
    if nodes[child].FileNode? {
      FilesAreLeaves(nodes, child, p);
    }
    if p != child && IsShardPath(p) {
      assert IsShardPath(child);
    }
    if IdAt(p).Some? {
      var id := IdAt(p).value;
      IdPathRoundTrip(id);
      assert |p| == SHARD_DEPTH + 1;
      if depth < SHARD_DEPTH {
        forall i | 0 <= i < |child|
          ensures child[i].Text? && IsShardName(child[i].s)
        {
          assert child[i] == p[i] == BlobPath(id)[i];
        }
      }
    }
  }

  lemma {:induction false} FilesAreLeaves(nodes: Nodes, file: FilePath, p: FilePath)
    requires IsTree(nodes) && file in nodes && nodes[file].FileNode?
    requires p in nodes && |file| <= |p| && p[..|file|] == file
    ensures p == file
    decreases |p|
  {
    if |p| > |file| {
      var parent := p[..|p| - 1];
      assert parent[..|file|] == file;
      FilesAreLeaves(nodes, file, parent);
    }
  }

  ghost predicate AtOrBelow(c: FilePath, p: FilePath) {
    |c| <= |p| && p[..|c|] == c
  }

  lemma {:induction false} ChildLeadsTo(nodes: Nodes, dir: FilePath, p: FilePath)
    requires IsTree(nodes) && p in nodes && Below(dir, p)
    ensures dir + [p[|dir|]] in nodes && p[|dir|] in Children(nodes, dir)
    decreases |p|
  {
    var c := dir + [p[|dir|]];
    if |p| == |dir| + 1 {
      assert p == c;
    } else {
      var parent := p[..|p| - 1];
      assert parent in nodes && Below(dir, parent) && parent[|dir|] == p[|dir|];
      ChildLeadsTo(nodes, dir, parent);
    }
    assert c[..|dir|] == dir && c[|dir|] == p[|dir|];
  }

  /** The walk is through with everything at and below one path. */
  ghost predicate Settled(nodes0: Nodes, nodes: Nodes, p: FilePath, cutoff: int, refs: set<BlobId>, faults: Faults) {
    && SoundAt(nodes0, nodes, p, cutoff, refs)
    && (Faultless(faults) ==> (p in nodes <==> Kept(nodes0, p, cutoff, refs)))
  }

  /** What the walk skips, it settles by leaving it alone. */
  lemma SkippedIsSettled(nodes0: Nodes, nodes: Nodes, c: FilePath, cutoff: int, refs: set<BlobId>, faults: Faults)
    requires IsTree(nodes0) && c in nodes0 && 0 < |c| <= SHARD_DEPTH + 1
    requires forall p :: AtOrBelow(c, p) ==> Same(nodes, nodes0, p)
    requires || (nodes0[c].FileNode? && |c| <= SHARD_DEPTH)
             || (nodes0[c].DirNode? && !IsShardPath(c))
             || (nodes0[c].FileNode? && !Garbage(c, nodes0[c], cutoff, refs))
    ensures forall p :: AtOrBelow(c, p) ==> Settled(nodes0, nodes, p, cutoff, refs, faults)
  {
    forall p | AtOrBelow(c, p)
      ensures Settled(nodes0, nodes, p, cutoff, refs, faults)
    {
      assert Same(nodes, nodes0, p);
      if p in nodes0 {
        if nodes0[c].FileNode? && |c| > SHARD_DEPTH {
          FilesAreLeaves(nodes0, c, p);
        } else {
          OutsideIsKept(nodes0, p, |c| - 1, cutoff, refs);
        }
      }
    }
  }

  /** A file that could not be looked at stays, and that is sound. */
  lemma UnreadIsSettled(nodes0: Nodes, nodes: Nodes, c: FilePath, cutoff: int, refs: set<BlobId>, faults: Faults)
    requires forall p :: AtOrBelow(c, p) ==> Same(nodes, nodes0, p)
    requires !Faultless(faults)
    ensures forall p :: AtOrBelow(c, p) ==> Settled(nodes0, nodes, p, cutoff, refs, faults)
  {
    forall p | AtOrBelow(c, p)
      ensures Settled(nodes0, nodes, p, cutoff, refs, faults)
    {
      assert Same(nodes, nodes0, p);
    }
  }

  /** A garbage file that was removed is settled, and so is the nothing below it. */
  lemma GarbageIsSettled(nodes0: Nodes, before: Nodes, dir: FilePath, name: Name, now: int,
                         cutoff: int, refs: set<BlobId>, faults: Faults)
    requires IsTree(nodes0) && dir + [name] in nodes0 && Garbage(dir + [name], nodes0[dir + [name]], cutoff, refs)
    requires forall p :: AtOrBelow(dir + [name], p) ==> Same(before, nodes0, p)
    ensures var after := (before - {dir + [name]})[dir := DirNode(now)];
            forall p :: AtOrBelow(dir + [name], p) ==> Settled(nodes0, after, p, cutoff, refs, faults)
  {
    var c := dir + [name];
    var after := (before - {c})[dir := DirNode(now)];
    forall p | AtOrBelow(c, p)
      ensures Settled(nodes0, after, p, cutoff, refs, faults)
    {
      assert Same(before, nodes0, p) && p != dir;
      if p in nodes0 {
        FilesAreLeaves(nodes0, c, p);
      }
    }
  }

  lemma ListedChild(nodes: Nodes, nodes0: Nodes, dir: FilePath, name: Name)
    requires forall p :: Below(dir, p) ==> Same(nodes, nodes0, p)
    ensures name in Children(nodes, dir) <==> dir + [name] in nodes0
  {
    var c := dir + [name];
    assert Below(dir, c) && c[|dir|] == name;
    if name in Children(nodes, dir) {
      var p :| p in nodes && |p| == |dir| + 1 && p[..|dir|] == dir && p[|dir|] == name;
      assert p == c;
    }
  }

  /** Halfway through a directory: what is still to do is untouched, the rest is settled. */
  ghost predicate Progress(nodes0: Nodes, nodes: Nodes, dir: FilePath, todo: set<Name>,
                           cutoff: int, refs: set<BlobId>, faults: Faults) {
    && dir in nodes && nodes[dir].DirNode?
    && (forall n :: n in todo ==> dir + [n] in nodes)
    && (forall p :: Below(dir, p) && p[|dir|] in todo ==> Same(nodes, nodes0, p))
    && (forall p :: Below(dir, p) && p[|dir|] !in todo ==> Settled(nodes0, nodes, p, cutoff, refs, faults))
  }

  ghost predicate OutsideSame(nodes: Nodes, before: Nodes, dir: FilePath) {
    forall p :: !AtOrBelow(dir, p) ==> Same(nodes, before, p)
  }

  lemma ProgressStart(nodes0: Nodes, nodes: Nodes, dir: FilePath, cutoff: int, refs: set<BlobId>, faults: Faults)
    requires IsTree(nodes0) && dir in nodes && nodes[dir].DirNode?
    requires forall p :: Below(dir, p) ==> Same(nodes, nodes0, p)
    ensures Progress(nodes0, nodes, dir, Children(nodes, dir), cutoff, refs, faults)
  {
    var todo := Children(nodes, dir);
    forall n | n in todo
      ensures dir + [n] in nodes
    {
      ListedChild(nodes, nodes0, dir, n);
      assert Below(dir, dir + [n]);
    }
    forall p | Below(dir, p) && p[|dir|] !in todo
      ensures Settled(nodes0, nodes, p, cutoff, refs, faults)
    {
      if p in nodes0 {
        ChildLeadsTo(nodes0, dir, p);
        ListedChild(nodes, nodes0, dir, p[|dir|]);
      }
    }
  }

  lemma BelowChild(dir: FilePath, name: Name, p: FilePath)
    ensures AtOrBelow(dir + [name], p) <==> Below(dir, p) && p[|dir|] == name
  {
    if |p| > |dir| {
      assert p[..|dir| + 1] == p[..|dir|] + [p[|dir|]];
      if AtOrBelow(dir + [name], p) {
        assert (dir + [name])[..|dir|] == dir && (dir + [name])[|dir|] == name;
      }
    }
  }

  lemma ProgressEntry(nodes0: Nodes, nodes: Nodes, dir: FilePath, todo: set<Name>, name: Name,
                      cutoff: int, refs: set<BlobId>, faults: Faults)
    requires Progress(nodes0, nodes, dir, todo, cutoff, refs, faults) && name in todo
    ensures forall p :: AtOrBelow(dir + [name], p) ==> Same(nodes, nodes0, p)
  {
    forall p | AtOrBelow(dir + [name], p)
      ensures Same(nodes, nodes0, p)
    {
      BelowChild(dir, name, p);
    }
  }

  /** One more entry is settled; the others are as they were. */
  lemma ProgressStep(nodes0: Nodes, before: Nodes, after: Nodes, dir: FilePath, todo: set<Name>, name: Name,
                     cutoff: int, refs: set<BlobId>, faults: Faults)
    requires Progress(nodes0, before, dir, todo, cutoff, refs, faults) && name in todo
    requires forall p :: AtOrBelow(dir + [name], p) ==> Settled(nodes0, after, p, cutoff, refs, faults)
    requires forall p :: !AtOrBelow(dir + [name], p) && p != dir ==> Same(after, before, p)
    requires dir in after && after[dir].DirNode?
    ensures Progress(nodes0, after, dir, todo - {name}, cutoff, refs, faults)
    ensures OutsideSame(after, before, dir)
  {
    forall p
      ensures Below(dir, p) && p[|dir|] in todo - {name} ==> Same(after, nodes0, p)
      ensures Below(dir, p) && p[|dir|] !in todo - {name} ==> Settled(nodes0, after, p, cutoff, refs, faults)
      ensures !AtOrBelow(dir, p) ==> Same(after, before, p)
    {
      BelowChild(dir, name, p);
    }
    forall n | n in todo - {name}
      ensures dir + [n] in after
    {
      BelowChild(dir, name, dir + [n]);
      assert (dir + [n])[|dir|] == n;
    }
  }

  lemma OutsideJoins(first: Nodes, before: Nodes, after: Nodes, dir: FilePath)
    requires OutsideSame(before, first, dir) && OutsideSame(after, before, dir)
    ensures OutsideSame(after, first, dir)
  {
    forall p | !AtOrBelow(dir, p)
      ensures Same(after, first, p)
    {
      assert Same(before, first, p) && Same(after, before, p);
    }
  }

  lemma ProgressIsSound(nodes0: Nodes, nodes: Nodes, dir: FilePath, todo: set<Name>,
                        cutoff: int, refs: set<BlobId>, faults: Faults)
    requires Progress(nodes0, nodes, dir, todo, cutoff, refs, faults)
    ensures forall p :: Below(dir, p) ==> SoundAt(nodes0, nodes, p, cutoff, refs)
    ensures todo == {} && Faultless(faults) ==>
              forall p :: Below(dir, p) ==> (p in nodes <==> Kept(nodes0, p, cutoff, refs))
  {
    forall p | Below(dir, p)
      ensures SoundAt(nodes0, nodes, p, cutoff, refs)
      ensures todo == {} && Faultless(faults) ==> (p in nodes <==> Kept(nodes0, p, cutoff, refs))
    {
      assert p[|dir|] in todo ==> Same(nodes, nodes0, p);
    }
  }

  /** Everything has gone stale, and the files of all rows are there. */
  ghost predicate Quiescent(nodes: Nodes, cutoff: int, refs: set<BlobId>) {
    && (forall p :: p in nodes ==> nodes[p].mtime <= cutoff)
    && forall id :: id in refs ==> BlobPath(id) in nodes && nodes[BlobPath(id)].FileNode?
  }

  /** The blobs on disk are those that rows reference, and no shard directory is empty. */
  ghost predicate Clean(nodes: Nodes, refs: set<BlobId>) {
    && (forall id :: BlobPath(id) in nodes && nodes[BlobPath(id)].FileNode? <==> id in refs)
    && forall p :: p in nodes && p != [] && nodes[p].DirNode? && IsShardPath(p) ==> exists n: Name :: p + [n] in nodes
  }

  /**
   From a state where everything has gone stale, a pass without faults leaves
   exactly the referenced blobs at canonical paths, and no empty shard directory.
   One pass does it, although each removal bumps the parent's mtime: a
   directory's age is read before its contents are cleaned.
   */
  lemma PassCleans(nodes0: Nodes, after: Nodes, cutoff: int, refs: set<BlobId>)
    requires forall p :: Below([], p) ==> (p in after <==> Kept(nodes0, p, cutoff, refs))
    requires forall p :: Below([], p) ==> SoundAt(nodes0, after, p, cutoff, refs)
    requires Quiescent(nodes0, cutoff, refs)
    ensures Clean(after, refs)
  {
    forall id
      ensures BlobPath(id) in after && after[BlobPath(id)].FileNode? <==> id in refs
    {
      var p := BlobPath(id);
      IdPathRoundTrip(id);
      assert Below([], p) && SoundAt(nodes0, after, p, cutoff, refs);
      assert IdAt(p) == Some(id) by { assert p[|p| - 1] == Text(IdPath(id)[SHARD_DEPTH]); }
    }
    forall p | p in after && p != [] && after[p].DirNode? && IsShardPath(p)
      ensures exists n: Name :: p + [n] in after
    {
      assert Below([], p) && Kept(nodes0, p, cutoff, refs) && SoundAt(nodes0, after, p, cutoff, refs);
      var n: Name :| Kept(nodes0, p + [n], cutoff, refs);
      assert Below([], p + [n]);
    }
  }

  lemma ChildOfItsParent(nodes: Nodes, p: FilePath)
    requires p in nodes && p != []
    ensures p[|p| - 1] in Children(nodes, p[..|p| - 1])
  {
  }

  /** Taking away a file, or a directory with nothing in it, leaves no node without its directory. */
  lemma StaysTree(nodes: Nodes, dir: FilePath, name: Name, now: int)
    requires IsTree(nodes) && dir in nodes && nodes[dir].DirNode? && dir + [name] in nodes
    requires nodes[dir + [name]].FileNode? || Children(nodes, dir + [name]) == {}
    ensures IsTree((nodes - {dir + [name]})[dir := DirNode(now)])
  {
    var c := dir + [name];
    var after := (nodes - {c})[dir := DirNode(now)];
    forall p | p in after && p != []
      ensures p[..|p| - 1] in after && after[p[..|p| - 1]].DirNode?
    {
      ChildOfItsParent(nodes, p);
    }
  }

  /** Four base16 digits of either case: the only directory names the walk enters. */
  predicate FourDigits(name: Name) {
    && name.Text? && |name.s| == 4
    && forall i :: 0 <= i < 4 ==> '0' <= name.s[i] <= '9' || 'a' <= name.s[i] <= 'f' || 'A' <= name.s[i] <= 'F'
  }

  /** A path that strays from the layout at one of its first three places. */
  ghost predicate Strays(p: FilePath) {
    exists j :: 0 <= j < 3 && j < |p| && !FourDigits(p[j])
  }

  /** A file four levels down, named by the 64 lowercase digits of `id`, under directories named by the first twelve. */
  ghost predicate NamedBy(p: FilePath, id: BlobId) {
    && |p| == 4 && (forall j :: 0 <= j < 4 ==> p[j].Text?) && Spells(id, p[3].s)
    && p[0].s == p[3].s[0..4] && p[1].s == p[3].s[4..8] && p[2].s == p[3].s[8..12]
  }

  lemma IdAtIff(p: FilePath, id: BlobId)
    ensures IdAt(p) == Some(id) <==> NamedBy(p, id)
    ensures p == BlobPath(id) <==> NamedBy(p, id)
  {
    IdPathInDigits(id);
    IdPathRoundTrip(id);
    var path := IdPath(id);
    if NamedBy(p, id) {
      SpellsIff(id, p[3].s);
      SpellsIff(id, path[3]);
      assert forall j :: 0 <= j < 4 ==> p[j] == Text(path[j]);
      assert p == BlobPath(id);
    }
    if p == BlobPath(id) {
      assert forall j :: 0 <= j < 4 ==> p[j] == Text(path[j]);
      assert IdAt(p) == Some(id);
    }
  }

  lemma ShardPathIff(p: FilePath)
    ensures IsShardPath(p) <==> |p| <= 3 && forall j :: 0 <= j < |p| ==> FourDigits(p[j])
  {
    forall j | 0 <= j < |p|
      ensures FourDigits(p[j]) <==> p[j].Text? && IsShardName(p[j].s)
    {
    }
  }

  /** What a sound walk leaves as it was: everything off the layout, above the blobs, and below them. */
  lemma StraysUntouched(nodes0: Nodes, nodes: Nodes, cutoff: int, refs: set<BlobId>, p: FilePath)
    requires SoundAt(nodes0, nodes, p, cutoff, refs)
    requires Strays(p) || |p| > 4 || (p in nodes0 && nodes0[p].FileNode? && |p| < 4) || (p in nodes0 && nodes0[p].DirNode? && |p| == 4)
    ensures Same(nodes, nodes0, p)
  {
    ShardPathIff(p);
    if IdAt(p).Some? {
      IdAtIff(p, IdAt(p).value);
      IdPathRoundTrip(IdAt(p).value);
      ShardComponents(p, IdAt(p).value);
    }
  }

  lemma AllStraysUntouched(nodes0: Nodes, nodes: Nodes, dir: FilePath, cutoff: int, refs: set<BlobId>)
    requires forall p :: Below(dir, p) ==> SoundAt(nodes0, nodes, p, cutoff, refs)
    ensures forall p :: Below(dir, p) && (Strays(p) || |p| > 4) ==> Same(nodes, nodes0, p)
  {
    forall p | Below(dir, p) && (Strays(p) || |p| > 4)
      ensures Same(nodes, nodes0, p)
    {
      StraysUntouched(nodes0, nodes, cutoff, refs, p);
    }
  }

  lemma ShardComponents(p: FilePath, id: BlobId)
    requires p == BlobPath(id)
    ensures |p| == 4 && forall j :: 0 <= j < 3 ==> FourDigits(p[j])
  {
    IdPathRoundTrip(id);
    forall j | 0 <= j < 3
      ensures FourDigits(p[j])
    {
      assert p[j] == Text(IdPath(id)[j]) && IsShardName(IdPath(id)[j]);
    }
  }

  /** A file a pass may take: stale for five minutes, named by an id, and by none that sql knows. */
  ghost predicate Collectable(p: FilePath, node: Node, now: int, refs: set<BlobId>) {
    && node.FileNode? && node.mtime + 5 * 60 * 1_000_000 <= now
    && (exists id: BlobId :: NamedBy(p, id))
    && forall id: BlobId :: NamedBy(p, id) ==> id !in refs
  }

  lemma GarbageIsCollectable(p: FilePath, node: Node, now: int, refs: set<BlobId>)
    ensures Garbage(p, node, now - Protocol.CLEANUP_GRACE, refs) <==> Collectable(p, node, now, refs)
  {
    if IdAt(p).Some? {
      IdAtIff(p, IdAt(p).value);
    }
    forall id: BlobId
      ensures NamedBy(p, id) <==> IdAt(p) == Some(id)
    {
      IdAtIff(p, id);
    }
  }

  /** A directory a pass may take if it is empty: stale for five minutes, at most three levels down, under digits only. */
  ghost predicate StaleShard(p: FilePath, node: Node, now: int) {
    && node.DirNode? && node.mtime + 5 * 60 * 1_000_000 <= now
    && 1 <= |p| <= 3 && forall j :: 0 <= j < |p| ==> FourDigits(p[j])
  }

  ghost predicate Empty(nodes: Nodes, p: FilePath) {
    forall n: Name :: p + [n] !in nodes
  }

  /** What a pass promises of every path below the root, under any faults. */
  ghost predicate PassPromise(before: Nodes, after: Nodes, now: int, refs: set<BlobId>, p: FilePath) {
    && (Strays(p) || |p| > 4 ==> Same(after, before, p))
    && (p in after ==> p in before && before[p].DirNode? == after[p].DirNode?)
    && (p in before && before[p].FileNode? && p in after ==> after[p] == before[p])
    && (p in before && p !in after ==> Collectable(p, before[p], now, refs) || StaleShard(p, before[p], now))
  }

  /** What it promises besides when nothing fails: garbage goes, and so do stale shard directories that are or become empty. */
  ghost predicate CleanPromise(before: Nodes, after: Nodes, now: int, refs: set<BlobId>, p: FilePath) {
    p in before ==>
      && (Collectable(p, before[p], now, refs) ==> p !in after)
      && (StaleShard(p, before[p], now) && Empty(before, p) ==> p !in after)
      && (StaleShard(p, before[p], now) && p in after ==> !Empty(after, p))
  }

  lemma SoundPromises(before: Nodes, after: Nodes, now: int, refs: set<BlobId>, p: FilePath)
    requires SoundAt(before, after, p, now - Protocol.CLEANUP_GRACE, refs)
    ensures PassPromise(before, after, now, refs, p)
  {
    ShardPathIff(p);
    if Strays(p) || |p| > 4 {
      StraysUntouched(before, after, now - Protocol.CLEANUP_GRACE, refs, p);
    }
    if p in before {
      GarbageIsCollectable(p, before[p], now, refs);
    }
  }

  lemma KeptPromises(before: Nodes, after: Nodes, now: int, refs: set<BlobId>, p: FilePath)
    requires p != [] && SoundAt(before, after, p, now - Protocol.CLEANUP_GRACE, refs)
    requires p in after <==> Kept(before, p, now - Protocol.CLEANUP_GRACE, refs)
    requires forall n: Name :: p + [n] in after <==> Kept(before, p + [n], now - Protocol.CLEANUP_GRACE, refs)
    ensures CleanPromise(before, after, now, refs, p)
  {
    ShardPathIff(p);
    if p in before {
      GarbageIsCollectable(p, before[p], now, refs);
    }
  }

  lemma RootStarts(nodes: Nodes)
    requires IsTree(nodes)
    ensures IsShardPath([]) && [] in nodes && nodes[[]].DirNode? && forall p :: Same(nodes, nodes, p)
  {
  }

  lemma PromisesKept(before: Nodes, after: Nodes, now: int, refs: set<BlobId>, faults: Faults)
    requires forall p :: Below([], p) ==> SoundAt(before, after, p, now - Protocol.CLEANUP_GRACE, refs)
    requires Faultless(faults) ==>
               forall p :: Below([], p) ==> (p in after <==> Kept(before, p, now - Protocol.CLEANUP_GRACE, refs))
    ensures forall p :: p != [] ==> PassPromise(before, after, now, refs, p)
    ensures Faultless(faults) ==> forall p :: p != [] ==> CleanPromise(before, after, now, refs, p)
  {
    hide SoundAt, Kept, PassPromise, CleanPromise, Faultless;
    forall p: FilePath | p != []
      ensures PassPromise(before, after, now, refs, p)
      ensures Faultless(faults) ==> CleanPromise(before, after, now, refs, p)
    {
      assert Below([], p);
      SoundPromises(before, after, now, refs, p);
      if Faultless(faults) {
        forall n: Name
          ensures p + [n] in after <==> Kept(before, p + [n], now - Protocol.CLEANUP_GRACE, refs)
        {
          assert Below([], p + [n]);
        }
        KeptPromises(before, after, now, refs, p);
      }
    }
  }

  class FileSystem {
    var nodes: Nodes
    var now: int

    /** Removing an entry bumps its directory's mtime. */
    method Unlink(dir: FilePath, name: Name)
      requires dir + [name] in nodes && dir in nodes && nodes[dir].DirNode?
      modifies this`nodes
      ensures nodes == (old(nodes) - {dir + [name]})[dir := DirNode(now)]
      ensures IsTree(old(nodes)) && (old(nodes)[dir + [name]].FileNode? || Children(old(nodes), dir + [name]) == {}) ==>
                IsTree(nodes)
    {
      ghost var before := nodes;
      nodes := (nodes - {dir + [name]})[dir := DirNode(now)];
      if IsTree(before) && (before[dir + [name]].FileNode? || Children(before, dir + [name]) == {}) {
        StaysTree(before, dir, name, now);
      }
    }

    /** Descends one directory at depth `|dir|`. A failing lookup or listing aborts the pass. */
    method CleanupDir(dir: FilePath, cutoff: int, refs: set<BlobId>, faults: Faults, ghost nodes0: Nodes)
      returns (ok: bool)
      requires IsTree(nodes)
      requires IsTree(nodes0) && IsShardPath(dir)
      requires dir in nodes && nodes[dir].DirNode?
      requires forall p :: Below(dir, p) ==> Same(nodes, nodes0, p)
      modifies this`nodes
      ensures IsTree(nodes)
      ensures dir in nodes && nodes[dir].DirNode?
      ensures Faultless(faults) ==> ok
      ensures forall p :: Below(dir, p) ==> SoundAt(nodes0, nodes, p, cutoff, refs)
      ensures Faultless(faults) ==>
                forall p :: Below(dir, p) ==> (p in nodes <==> Kept(nodes0, p, cutoff, refs))
      ensures OutsideSame(nodes, old(nodes), dir)
      ensures forall p :: Below(dir, p) && (Strays(p) || |p| > 4) ==> Same(nodes, nodes0, p)
      decreases SHARD_DEPTH - |dir|, 1
    {
      var todo := Children(nodes, dir);
      ProgressStart(nodes0, nodes, dir, cutoff, refs, faults);
      var read := 0;
      ok := faults.listingFails(dir) != Some(read);
      while ok && todo != {}
        invariant Progress(nodes0, nodes, dir, todo, cutoff, refs, faults)
        invariant OutsideSame(nodes, old(nodes), dir) && IsTree(nodes)
        invariant Faultless(faults) ==> ok
        decreases todo
      {
        var name :| name in todo;
        ghost var before := nodes;
        ProgressEntry(nodes0, nodes, dir, todo, name, cutoff, refs, faults);
        ok := CleanupEntry(dir, name, cutoff, refs, faults, nodes0);
        ProgressStep(nodes0, before, nodes, dir, todo, name, cutoff, refs, faults);
        OutsideJoins(old(nodes), before, nodes, dir);
        todo := todo - {name};
        read := read + 1;
        ok := ok && faults.listingFails(dir) != Some(read);
      }
      ProgressIsSound(nodes0, nodes, dir, todo, cutoff, refs, faults);
      AllStraysUntouched(nodes0, nodes, dir, cutoff, refs);
    }

    /** Deals with one entry of a directory. */
    method CleanupEntry(dir: FilePath, name: Name, cutoff: int, refs: set<BlobId>, faults: Faults, ghost nodes0: Nodes)
      returns (ok: bool)
      requires IsTree(nodes)
      requires IsTree(nodes0) && IsShardPath(dir)
      requires dir in nodes && nodes[dir].DirNode? && dir + [name] in nodes
      requires forall p :: AtOrBelow(dir + [name], p) ==> Same(nodes, nodes0, p)
      modifies this`nodes
      ensures IsTree(nodes)
      ensures dir in nodes && nodes[dir].DirNode?
      ensures Faultless(faults) ==> ok
      ensures forall p :: AtOrBelow(dir + [name], p) ==> Settled(nodes0, nodes, p, cutoff, refs, faults)
      ensures forall p :: !AtOrBelow(dir + [name], p) && p != dir ==> Same(nodes, old(nodes), p)
      decreases SHARD_DEPTH - |dir|, 0
    {
      var c := dir + [name];
      assert c[..|dir|] == dir && AtOrBelow(c, c) && Same(nodes, nodes0, c);
      if !name.Text? {
        assert c[|dir|] == name;
        SkippedIsSettled(nodes0, nodes, c, cutoff, refs, faults);
        return true;
      }
      if faults.unreadable(c) {
        UnreadIsSettled(nodes0, nodes, c, cutoff, refs, faults);
        return true;
      }
      var stale := !faults.ageless(c) && nodes[c].mtime <= cutoff;
      if nodes[c].DirNode? {
        if |dir| >= SHARD_DEPTH || !IsShardName(name.s) {
          assert !IsShardPath(c) by { assert c[|dir|] == name; }
          SkippedIsSettled(nodes0, nodes, c, cutoff, refs, faults);
          return true;
        }
        ok := CleanupShard(dir, name, stale, cutoff, refs, faults, nodes0);
      } else if |dir| == SHARD_DEPTH && stale {
        ok := CleanupBlob(dir, name, cutoff, refs, faults, nodes0);
      } else {
        if faults.ageless(c) {
          UnreadIsSettled(nodes0, nodes, c, cutoff, refs, faults);
        } else {
          SkippedIsSettled(nodes0, nodes, c, cutoff, refs, faults);
        }
        ok := true;
      }
    }

    /** A shard directory: first what is in it, then itself if that left it empty. */
    method CleanupShard(dir: FilePath, name: Name, stale: bool, cutoff: int, refs: set<BlobId>, faults: Faults,
                        ghost nodes0: Nodes)
      returns (ok: bool)
      requires IsTree(nodes)
      requires IsTree(nodes0) && IsShardPath(dir) && IsShardPath(dir + [name])
      requires dir in nodes && nodes[dir].DirNode?
      requires dir + [name] in nodes && nodes[dir + [name]].DirNode?
      requires stale == (!faults.ageless(dir + [name]) && nodes[dir + [name]].mtime <= cutoff)
      requires forall p :: AtOrBelow(dir + [name], p) ==> Same(nodes, nodes0, p)
      modifies this`nodes
      ensures IsTree(nodes)
      ensures dir in nodes && nodes[dir].DirNode?
      ensures Faultless(faults) ==> ok
      ensures forall p :: AtOrBelow(dir + [name], p) ==> Settled(nodes0, nodes, p, cutoff, refs, faults)
      ensures forall p :: !AtOrBelow(dir + [name], p) && p != dir ==> Same(nodes, old(nodes), p)
      decreases SHARD_DEPTH - |dir| - 1, 2
    {
      var c := dir + [name];
      assert AtOrBelow(c, c) && Same(nodes, nodes0, c);
      assert !AtOrBelow(c, dir);
      assert forall p :: Below(c, p) ==> AtOrBelow(c, p);
      ok := CleanupDir(c, cutoff, refs, faults, nodes0);
      assert Same(nodes, old(nodes), dir);
      ghost var inner := nodes;
      var removed := false;
      if ok && stale && Children(nodes, c) == {} && !faults.irremovable(c) {
        Unlink(dir, name);
        removed := true;
      }
      ShardSettled(nodes0, inner, nodes, dir, name, stale, removed, cutoff, refs, faults);
    }

    /** A file where blobs live: removed if it is at its own id's path and no row references it. */
    method CleanupBlob(dir: FilePath, name: Name, cutoff: int, refs: set<BlobId>, faults: Faults, ghost nodes0: Nodes)
      returns (ok: bool)
      requires IsTree(nodes)
      requires IsTree(nodes0) && |dir| == SHARD_DEPTH && name.Text?
      requires dir in nodes && nodes[dir].DirNode?
      requires dir + [name] in nodes && nodes[dir + [name]].FileNode? && nodes[dir + [name]].mtime <= cutoff
      requires forall p :: AtOrBelow(dir + [name], p) ==> Same(nodes, nodes0, p)
      modifies this`nodes
      ensures IsTree(nodes)
      ensures dir in nodes && nodes[dir].DirNode?
      ensures Faultless(faults) ==> ok
      ensures forall p :: AtOrBelow(dir + [name], p) ==> Settled(nodes0, nodes, p, cutoff, refs, faults)
      ensures forall p :: !AtOrBelow(dir + [name], p) && p != dir ==> Same(nodes, old(nodes), p)
    {
      hide IsTree, Children, Settled, BlobPath, ParseName;
      var c := dir + [name];
      assert c[|c| - 1] == name && AtOrBelow(c, c) && Same(nodes, nodes0, c);
      var id := ParseName(name.s);
      if id.None? || BlobPath(id.value) != c {
        assert IdAt(c).None?;
        SkippedIsSettled(nodes0, nodes, c, cutoff, refs, faults);
        return true;
      }
      assert IdAt(c) == id;
      if faults.queryFails(id.value) {
        UnreadIsSettled(nodes0, nodes, c, cutoff, refs, faults);
        return false;
      }
      if id.value in refs {
        SkippedIsSettled(nodes0, nodes, c, cutoff, refs, faults);
        return true;
      }
      if faults.irremovable(c) {
        UnreadIsSettled(nodes0, nodes, c, cutoff, refs, faults);
        return true;
      }
      GarbageIsSettled(nodes0, nodes, dir, name, now, cutoff, refs, faults);
      Unlink(dir, name);
      return true;
    }

    /** One round of `cleanup_task`: whatever is younger than the grace period is left alone. */
    method CleanupPass(refs: set<BlobId>, faults: Faults) returns (ok: bool)
      requires IsTree(nodes)
      modifies this`nodes
      ensures IsTree(nodes)
      ensures Faultless(faults) ==> ok
      ensures forall p :: Below([], p) ==> SoundAt(old(nodes), nodes, p, now - Protocol.CLEANUP_GRACE, refs)
      ensures Faultless(faults) ==>
                forall p :: Below([], p) ==> (p in nodes <==> Kept(old(nodes), p, now - Protocol.CLEANUP_GRACE, refs))
      ensures Faultless(faults) && Quiescent(old(nodes), now - Protocol.CLEANUP_GRACE, refs) ==> Clean(nodes, refs)
      ensures forall p :: p != [] ==> PassPromise(old(nodes), nodes, now, refs, p)
      ensures Faultless(faults) ==> forall p :: p != [] ==> CleanPromise(old(nodes), nodes, now, refs, p)
    {
      var cutoff := now - Protocol.CLEANUP_GRACE;
      ghost var nodes0 := nodes;
      RootStarts(nodes);
      hide SoundAt, Kept, Same, Strays, PassPromise, CleanPromise, Quiescent, Clean, IsTree, Faultless;
      ok := CleanupDir([], cutoff, refs, faults, nodes0);
      if Faultless(faults) && Quiescent(nodes0, cutoff, refs) {
        PassCleans(nodes0, nodes, cutoff, refs);
      }
      PromisesKept(nodes0, nodes, now, refs, faults);
    }
  }

  /** After the recursion and perhaps its own removal, a shard directory is settled. */
  lemma ShardSettled(nodes0: Nodes, inner: Nodes, after: Nodes, dir: FilePath, name: Name, stale: bool, removed: bool,
                     cutoff: int, refs: set<BlobId>, faults: Faults)
    requires var c := dir + [name];
             && IsShardPath(c) && c in nodes0 && nodes0[c].DirNode?
             && stale == (!faults.ageless(c) && nodes0[c].mtime <= cutoff)
             && c in inner && inner[c].DirNode?
             && (forall p :: Below(c, p) ==> SoundAt(nodes0, inner, p, cutoff, refs))
             && (Faultless(faults) ==> forall p :: Below(c, p) ==> (p in inner <==> Kept(nodes0, p, cutoff, refs)))
             && (removed ==> stale && Children(inner, c) == {})
             && (Faultless(faults) && stale && Children(inner, c) == {} ==> removed)
             && (forall p :: p != dir ==> (p in after <==> p in inner && (removed ==> p != c)))
             && (forall p :: p != dir && p in after ==> after[p] == inner[p])
    ensures forall p :: AtOrBelow(dir + [name], p) ==> Settled(nodes0, after, p, cutoff, refs, faults)
  {
    var c := dir + [name];
    forall p | AtOrBelow(c, p)
      ensures Settled(nodes0, after, p, cutoff, refs, faults)
    {
      if p == c {
        if Faultless(faults) {
          ShardKeptIff(nodes0, inner, c, cutoff, refs);
        }
      } else {
        assert Below(c, p);
      }
    }
  }

  lemma ShardKeptIff(nodes0: Nodes, inner: Nodes, c: FilePath, cutoff: int, refs: set<BlobId>)
    requires IsShardPath(c) && c != [] && c in nodes0 && nodes0[c].DirNode?
    requires forall p :: Below(c, p) ==> (p in inner <==> Kept(nodes0, p, cutoff, refs))
    ensures Kept(nodes0, c, cutoff, refs) <==> nodes0[c].mtime > cutoff || Children(inner, c) != {}
  {
    forall n: Name
      ensures Kept(nodes0, c + [n], cutoff, refs) <==> n in Children(inner, c)
    {
      var p := c + [n];
      assert Below(c, p) && p[|c|] == n;
      if n in Children(inner, c) {
        var q :| q in inner && |q| == |c| + 1 && q[..|c|] == c && q[|c|] == n;
        assert q == p;
      }
    }
    if n :| n in Children(inner, c) {
      assert Kept(nodes0, c + [n], cutoff, refs);
    }
  }
}
