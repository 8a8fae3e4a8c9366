/** What the file operations do to a volume, as a user sees it, and why they keep its invariant (k64_xfs.c). */
module FileEffects {
  import opened Blocks
  import opened FileSystem
  import opened FileSteps
  import opened Bitmap
  import Paths

  function BlockCount(size: nat): nat { (size + BLOCK_SIZE - 1) / BLOCK_SIZE }

  function ModeBits(kind: Kind, mode: nat): nat { (if kind == Directory then 0x4000 else 0x8000) + mode % 0x1000 }

  /** Block b of a file's data, padded with zeros. */
  function Chunk(data: seq<Byte>, b: nat): Block
    requires b < BlockCount(|data|)
  {
    var off := b * BLOCK_SIZE;
    if off + BLOCK_SIZE <= |data| then data[off..off + BLOCK_SIZE]
    else data[off..] + seq(BLOCK_SIZE - (|data| - off), _ => 0)
  }

  /** The extents of a directory: single blocks in logical order. */
  ghost predicate DirectoryExtents(extents: seq<Extent>) {
    forall e :: 0 <= e < |extents| ==> extents[e] == Extent(e, extents[e].physical, 1)
  }

  lemma {:induction false} DirectoryBlock(extents: seq<Extent>, from: nat, k: nat)
    requires from <= k < |extents| && DirectoryExtents(extents)
    ensures Physical(extents[from..], k) == Some(extents[k].physical)
    decreases k - from
  {
    if from < k {
      DirectoryBlock(extents, from + 1, k);
      assert extents[from..][1..] == extents[from + 1..];
    }
  }

  /** What linking the orphan id under a name did to the volume. */
  ghost predicate NameAdded(v: Volume, w: Volume, dir: int, name: string, id: nat)
    requires Geometry(v)
  {
    && Inv(w) && FilesKept(v, w, 0) && OthersSame(v, w, dir) && NoneLost(v, w)
    && forall x, n :: Find(w, x, n) == if x == dir && n == name then Some(id) else Find(v, x, n)
  }

  ghost predicate OthersSame(v: Volume, w: Volume, dir: int)
    requires Geometry(v) && Geometry(w)
  {
    forall x :: Live(v, x) && x != dir ==> Live(w, x) && Ino(w, x) == Ino(v, x)
  }

  lemma {:induction false} LinkAdds(v: Volume, w: Volume, dir: int, k: int, s: int, e: Dirent)
    requires e.Dirent? && Sound(v, e.id) && SlotSet(v, w, dir, k, s, e) && SlotAt(v, dir, k, s) == Free
    requires Live(v, e.id) && e.id != ROOT && Ino(v, e.id).kind == e.kind && ValidName(e.name)
    ensures Sound(w, 0)
    ensures NamesUnique(v) && Find(v, dir, e.name) == None ==> NameAdded(v, w, dir, e.name, e.id)
    ensures NamesUnique(w) ==> Find(v, dir, e.name) == None
  {
    LinkKeepsSound(v, w, dir, k, s, e);
    SlotSetLosesNone(v, w, dir, k, s, e);
    if NamesUnique(v) && Find(v, dir, e.name) == None {
      assert forall k', s', e' :: At(v, dir, k', s', e') ==> e'.name != e.name;
      SlotSetDiffers(v, w, dir, k, s, e);
      forall x, n ensures Find(w, x, n) == if x == dir && n == e.name then Some(e.id) else Find(v, x, n) {
        LinkNames(v, w, dir, k, s, e, x, n);
      }
    }
  }

  /** w is v with directory dir grown by the block b, whose first slot is e. */
  ghost predicate Appended(v: Volume, w: Volume, dir: Inode, b: nat, e: Dirent)
    requires Geometry(v)
  {
    && Live(v, dir.id) && Ino(v, dir.id) == dir && dir.kind == Directory
    && |dir.extents| < DIRECT_EXTENTS && DATA_START <= b < |v.blocks| && !v.blockBits[b]
    && w == Volume(w.free, v.inodeBits, v.blockBits[b := true], v.inodes[dir.id - 1 := Some(Grown(dir, b))],
                   v.blocks[b := Dir(EmptySlots()[0 := e])])
  }

  lemma {:induction false} AppendIsGrowThenSet(v: Volume, w: Volume, dir: Inode, b: nat, e: Dirent) returns (mid: Volume)
    requires Geometry(v) && Appended(v, w, dir, b, e)
    ensures DirGrown(v, mid, dir.id, b) && mid.free == w.free && mid.blockBits == w.blockBits
    ensures SlotSet(mid, w, dir.id, |dir.extents|, 0, e) && SlotAt(mid, dir.id, |dir.extents|, 0) == Free
  {
    mid := Volume(w.free, v.inodeBits, v.blockBits[b := true],
      v.inodes[dir.id - 1 := Some(Grown(dir, b).(modified := dir.modified))], v.blocks[b := Dir(EmptySlots())]);
    assert w.blocks == mid.blocks[b := Dir(Slots(mid.blocks[b])[0 := e])];
  }

  lemma {:induction false} AppendLinks(v: Volume, w: Volume, dir: Inode, b: nat, e: Dirent)
    requires e.Dirent? && Sound(v, e.id) && Appended(v, w, dir, b, e) && Balanced(w)
    requires Live(v, e.id) && e.id != ROOT && Ino(v, e.id).kind == e.kind && ValidName(e.name)
    ensures Sound(w, 0)
    ensures NamesUnique(v) && Find(v, dir.id, e.name) == None ==> NameAdded(v, w, dir.id, e.name, e.id)
    ensures NamesUnique(w) && NamesUnique(v) ==> Find(v, dir.id, e.name) == None
  {
    var mid := AppendIsGrowThenSet(v, w, dir, b, e);
    GrowKeepsSound(v, mid, dir.id, b, e.id);
    GrowLosesNone(v, mid, dir.id, b);
    LinkAdds(mid, w, dir.id, |dir.extents|, 0, e);
  }

  function Grown(dir: Inode, b: nat): Inode {
    dir.(extents := dir.extents + [Extent(|dir.extents|, b, 1)], size := dir.size + BLOCK_SIZE, modified := dir.modified + 1)
  }

  // ---------------------------------------------------------------------------------------
  // Operations as a user sees them
  // ---------------------------------------------------------------------------------------

  /** What a new inode is asked to be, and the number of the transaction that makes it. */
  datatype Attributes = Attributes(kind: Kind, mode: nat, uid: nat, gid: nat, tick: nat)

  /** A new inode as it was asked for: the bit of its type and twelve bits of mode, its owners, and nothing in it. */
  predicate AsAsked(i: Inode, a: Attributes) {
    && i.kind == a.kind && i.mode == (if a.kind == Directory then 0x4000 else 0x8000) + a.mode % 0x1000
    && i.uid == a.uid && i.gid == a.gid && i.modified == a.tick
    && (a.kind == Regular ==> i.size == 0 && i.extents == []) && (a.kind == Directory ==> i.size == BLOCK_SIZE && |i.extents| == 1)
  }

  /** w is v with one path more, leading to a new inode as asked for; every other path, file and owner is as before. */
  ghost predicate PathAdded(v: Volume, w: Volume, path: seq<string>, a: Attributes)
    requires Geometry(v)
  {
    && Inv(w) && FilesKept(v, w, 0) && NoneLost(v, w)
    && Resolve(v, path) == None && (forall q :: q != path ==> Resolve(w, q) == Resolve(v, q))
    && Resolve(w, path).Some? && var id := Resolve(w, path).value;
       !Live(v, id) && Live(w, id) && AsAsked(Ino(w, id), a)
  }

  lemma {:induction false} PathsAfterLinkBy(f: Finder, g: Finder, dir: nat, leaf: string, id: nat, parent: seq<string>)
    requires OneNameMore(f, g, dir, leaf, id) && ResolveBy(f, parent) == Some(dir)
    requires forall q :: ResolveBy(f, q) == Some(dir) ==> q == parent
    ensures ResolveBy(f, parent + [leaf]) == None
    ensures forall q :: ResolveBy(g, q) == if q == parent + [leaf] then Some(id) else ResolveBy(f, q)
  {
    forall q ensures ResolveBy(g, q) == if q == parent + [leaf] then Some(id) else ResolveBy(f, q) {
      OnePathMore(f, g, dir, leaf, id, parent, q);
    }
    OnePathMore(f, g, dir, leaf, id, parent, parent + [leaf]);
  }

  /** One name more means one path more. */
  lemma {:induction false} PathsAfterLink(v: Volume, w: Volume, dir: nat, leaf: string, id: nat, parent: seq<string>)
    requires Geometry(v) && Geometry(w) && OneNameMore(Names(v), Names(w), dir, leaf, id)
    requires Resolve(v, parent) == Some(dir) && forall q :: Resolve(v, q) == Some(dir) ==> q == parent
    ensures Resolve(v, parent + [leaf]) == None
    ensures forall q :: Resolve(w, q) == if q == parent + [leaf] then Some(id) else Resolve(v, q)
  {
    forall q | ResolveBy(Names(v), q) == Some(dir) ensures q == parent {
      assert Resolve(v, q) == Some(dir);
    }
    PathsAfterLinkBy(Names(v), Names(w), dir, leaf, id, parent);
  }

  lemma {:induction false} CreateAddsPath(v: Volume, v1: Volume, w: Volume, dir: nat, i: Inode, b: nat, parent: seq<string>, leaf: string, a: Attributes)
    requires Inv(v) && Adopted(v, v1, i, b) && SameNames(v, v1) && FilesKept(v, v1, 0)
    requires NameAdded(v1, w, dir, leaf, i.id) && Live(v, dir) && Resolve(v, parent) == Some(dir) && Find(v, dir, leaf) == None
    requires AsAsked(i, a)
    ensures PathAdded(v, w, parent + [leaf], a)
  {
    assert OneNameMore(Names(v), Names(w), dir, leaf, i.id);
    AdoptLosesNone(v, v1, i, b);
    OnlyPath(v, parent, 0);
    PathsAfterLink(v, w, dir, leaf, i.id, parent);
    assert Live(v1, i.id) && Ino(v1, i.id) == i;
  }

  // ---------------------------------------------------------------------------------------
  // When a file or a directory can be made
  // ---------------------------------------------------------------------------------------

  predicate NoInode(v: Volume)
    requires Geometry(v)
  {
    forall i :: 0 < i < MAX_INODES ==> v.inodeBits[i]
  }

  /** Every slot of the directory is in use. */
  predicate DirFull(v: Volume, dir: int)
    requires Geometry(v) && Live(v, dir)
  {
    forall k, s :: 0 <= k < |Ino(v, dir).extents| && 0 <= s < DIRENTS_PER_BLOCK ==> SlotAt(v, dir, k, s) != Free
  }

  /** The blocks for an inode of this kind and its entry are there, and the directory can take the entry. */
  predicate RoomFor(v: Volume, dir: int, kind: Kind)
    requires Geometry(v) && Live(v, dir)
  {
    && (if kind == Directory then 1 else 0) + (if DirFull(v, dir) then 1 else 0) <= v.free
    && (DirFull(v, dir) ==> |Ino(v, dir).extents| < DIRECT_EXTENTS)
  }

  /** The path is missing from a directory that is there. */
  ghost predicate Openable(v: Volume, path: string)
    requires Geometry(v)
  {
    && Paths.WellFormed(path, NAME_MAX)
    && var p := Paths.Components(path);
       var dir := Resolve(v, p[..|p| - 1]);
       Resolve(v, p) == None && dir.Some? && Live(v, dir.value) && Ino(v, dir.value).kind == Directory
  }

  lemma {:induction false} OpenableIs(v: Volume, path: string, dir: seq<string>, leaf: string)
    requires Geometry(v) && Paths.WellFormed(path, NAME_MAX) && Paths.Components(path) == dir + [leaf]
    ensures Openable(v, path) <==>
              && Resolve(v, dir).Some? && Live(v, Resolve(v, dir).value) && Ino(v, Resolve(v, dir).value).kind == Directory
              && Find(v, Resolve(v, dir).value, leaf) == None
  {
    assert (dir + [leaf])[..|dir|] == dir;
    if Resolve(v, dir).Some? {
      LastStep(v, dir, leaf);
    }
  }

  /** All that making an inode at a path takes. */
  ghost predicate Creatable(v: Volume, path: string, kind: Kind)
    requires Geometry(v)
  {
    && Openable(v, path) && !NoInode(v)
    && var p := Paths.Components(path); RoomFor(v, Resolve(v, p[..|p| - 1]).value, kind)
  }

  /** A name that is well formed and directly under the root, which can take one more. */
  ghost predicate RootTakes(v: Volume, path: string)
    requires Geometry(v)
  {
    && Paths.WellFormed(path, NAME_MAX) && |Paths.Components(path)| == 1 && !NoInode(v)
    && Live(v, ROOT) && RoomFor(v, ROOT, Regular)
  }

  /** No n data blocks in a row are clear. */
  ghost predicate NoRun(bits: seq<bool>, n: nat) { forall s :: DATA_START <= s ==> !ClearRun(bits, s, n) }

  lemma {:induction false} NoClearBlock(bits: seq<bool>, lo: nat, hi: nat)
    requires hi <= |bits| && forall s :: lo <= s < hi ==> !ClearRun(bits, s, 1)
    ensures CountClear(bits, lo, hi) == 0
    decreases hi
  {
    if lo < hi {
      NoClearBlock(bits, lo, hi - 1);
      assert !ClearRun(bits, hi - 1, 1);
    }
  }

  lemma {:induction false} NoFreeBlock(v: Volume, w: Volume)
    requires Geometry(v) && Balanced(v) && w == v.(free := w.free)
    ensures NoRun(w.blockBits, 1) ==> v.free == 0
  {
    if NoRun(w.blockBits, 1) {
      NoClearBlock(v.blockBits, DATA_START, |v.blockBits|);
    }
  }

  /** A new inode that is not linked yet leaves the directory as full as it was. */
  lemma {:induction false} AdoptKeepsRoom(v: Volume, w: Volume, i: Inode, b: nat, dir: int)
    requires Inv(v) && Adopted(v, w, i, b) && Live(v, dir) && v.free == w.free + if i.kind == Directory then 1 else 0
    ensures Live(w, dir) && (DirFull(v, dir) <==> DirFull(w, dir)) && (RoomFor(v, dir, i.kind) <==> RoomFor(w, dir, Regular))
  {
    AdoptTouchesNone(v, w, i, b, dir);
    assert GoodInode(v, dir);
    forall k, s | 0 <= k < |Ino(v, dir).extents| && 0 <= s < DIRENTS_PER_BLOCK ensures SlotAt(v, dir, k, s) == SlotAt(w, dir, k, s) {
      assert Owns(v, dir, k, Ino(v, dir).extents[k].physical);
    }
  }

  /** The lowest clear data block. */
  predicate LowestClear(bits: seq<bool>, b: nat) {
    DATA_START <= b && ClearRun(bits, b, 1) && forall s :: DATA_START <= s < b ==> !ClearRun(bits, s, 1)
  }

  /** A new entry in directory dir took the lowest clear block if the directory was full, and no block otherwise. */
  ghost predicate EntryBits(v: Volume, w: Volume, dir: int)
    requires Geometry(v) && Live(v, dir)
  {
    if DirFull(v, dir) then exists b: nat :: LowestClear(v.blockBits, b) && w.blockBits == v.blockBits[b := true]
    else w.blockBits == v.blockBits
  }

  /** The same for the parent of a path. */
  ghost predicate EntryAt(v: Volume, w: Volume, path: string)
    requires Geometry(v) && Creatable(v, path, Regular)
  {
    var p := Paths.Components(path); EntryBits(v, w, Resolve(v, p[..|p| - 1]).value)
  }

  ghost predicate CoveredBelow(extents: seq<Extent>, n: int, b: int) {
    exists e :: 0 <= e < n && e < |extents| && Covers(extents[e], b)
  }

  /** The blocks of v's bitmap without those of the given extents. */
  ghost predicate Released(v: Volume, w: Volume, extents: seq<Extent>, n: int) {
    && Geometry(v) && Geometry(w) && w == v.(free := w.free, blockBits := w.blockBits) && Balanced(w)
    && forall b :: 0 <= b < |v.blocks| ==> w.blockBits[b] == (v.blockBits[b] && !CoveredBelow(extents, n, b))
  }

  lemma {:induction false} ReleaseOne(v: Volume, w: Volume, w': Volume, extents: seq<Extent>, n: nat)
    requires n < |extents| && Released(v, w, extents, n) && Geometry(w') && Balanced(w')
    requires extents[n].physical + extents[n].count <= |v.blocks|
    requires w' == w.(free := w'.free, blockBits := Marked(w.blockBits, extents[n].physical, extents[n].count, false))
    ensures Released(v, w', extents, n + 1)
  {
    forall b | 0 <= b < |v.blocks| ensures CoveredBelow(extents, n + 1, b) <==> CoveredBelow(extents, n, b) || Covers(extents[n], b) {
    }
  }

  predicate OwnedSince(i: Inode, uid: nat, gid: nat, tick: nat) { i.uid == uid && i.gid == gid && i.modified == tick }

  /** Regular file id has these contents and owners now, and its mode as before; every other file and all names are as before. */
  ghost predicate ContentsReplaced(v: Volume, w: Volume, id: int, data: seq<Byte>, uid: nat, gid: nat, tick: nat)
    requires Geometry(v)
  {
    && Sound(w, 0) && FilesKept(v, w, id) && NoneLost(v, w)
    && Live(v, id) && Live(w, id) && Ino(w, id).mode == Ino(v, id).mode && OwnedSince(Ino(w, id), uid, gid, tick)
    && Ino(w, id).kind == Regular && FileBytes(w, Ino(w, id)) == data
    && (NamesUnique(v) <==> NamesUnique(w)) && (NamesUnique(w) ==> SameNames(v, w))
  }

  /** What a successful write of data to a path did: a new file gets mode 0644 octal, an existing one keeps its mode. */
  ghost predicate FileWritten(v: Volume, w: Volume, path: seq<string>, data: seq<Byte>, uid: nat, gid: nat, tick: nat)
    requires Geometry(v)
  {
    && Inv(w) && FileAt(w, path) == Some(data) && NoneLost(v, w)
    && (forall q :: q != path ==> Resolve(w, q) == Resolve(v, q) && FileAt(w, q) == FileAt(v, q))
    && (Resolve(v, path).Some? ==> Resolve(w, path) == Resolve(v, path))
    && Resolve(w, path).Some? && var id := Resolve(w, path).value;
       && Live(w, id) && OwnedSince(Ino(w, id), uid, gid, tick)
       && (Live(v, id) <==> Resolve(v, path).Some?) && Ino(w, id).mode == (if Live(v, id) then Ino(v, id).mode else 0x81A4)
       && OwnersKept(v, w, id)
  }

  /** Every inode but one keeps its kind, mode and owners. */
  ghost predicate OwnersKept(v: Volume, w: Volume, except: int)
    requires Geometry(v) && Geometry(w)
  {
    forall id :: Live(v, id) && id != except ==> Live(w, id) && SameOwner(Ino(v, id), Ino(w, id))
  }

  /** The data blocks [start, start + n) hold the chunks of data. */
  ghost predicate Holds(w: Volume, start: nat, data: seq<Byte>, n: nat) {
    n <= BlockCount(|data|) && start + n <= |w.blocks| && forall b :: start <= b < start + n ==> w.blocks[b] == Data(Chunk(data, b - start))
  }

  lemma {:induction false} ChunkByte(data: seq<Byte>, j: nat)
    requires j < |data|
    ensures j / BLOCK_SIZE < BlockCount(|data|) && Chunk(data, j / BLOCK_SIZE)[j % BLOCK_SIZE] == data[j]
  {
    assert j == (j / BLOCK_SIZE) * BLOCK_SIZE + j % BLOCK_SIZE;
  }

  /** A file takes as many blocks as its bytes need and no more, and past its end the last one holds zeros. */
  lemma {:induction false} ChunksFit(data: seq<Byte>, b: nat, k: nat)
    requires b < BlockCount(|data|) && k < BLOCK_SIZE
    ensures b * 4096 < |data| <= BlockCount(|data|) * 4096
    ensures Chunk(data, b)[k] == if b * 4096 + k < |data| then data[b * 4096 + k] else 0
  {
    assert b * BLOCK_SIZE < |data|;
  }

  /** Reading back a file stored in one extent gives its data. */
  lemma {:induction false} ReadsBack(w: Volume, i: Inode, start: nat, data: seq<Byte>)
    requires Holds(w, start, data, BlockCount(|data|)) && i.size == |data|
    requires i.extents == if BlockCount(|data|) == 0 then [] else [Extent(0, start, BlockCount(|data|))]
    ensures FileBytes(w, i) == data
  {
    forall j | 0 <= j < |data| ensures FileBytes(w, i)[j] == data[j] {
      ByteReadsBack(w, start, data, j);
    }
  }

  lemma {:induction false} ByteReadsBack(w: Volume, start: nat, data: seq<Byte>, j: nat)
    requires j < |data| && Holds(w, start, data, BlockCount(|data|))
    ensures Bytes(LogicalBlock(w, [Extent(0, start, BlockCount(|data|))], j / BLOCK_SIZE))[j % BLOCK_SIZE] == data[j]
  {
    ChunkByte(data, j);
    SingleExtent(start, BlockCount(|data|), j / BLOCK_SIZE);
    assert w.blocks[start + j / BLOCK_SIZE] == Data(Chunk(data, j / BLOCK_SIZE));
  }

  lemma SingleExtent(start: nat, n: nat, b: nat)
    requires b < n
    ensures Physical([Extent(0, start, n)], b) == Some(start + b)
  {
  }

  /** Kept names and files are kept paths and contents. */
  lemma {:induction false} SameNamesSameFiles(v: Volume, w: Volume, except: int, q: seq<string>)
    requires Geometry(v) && Geometry(w) && SameNames(v, w) && FilesKept(v, w, except)
    requires EntriesGood(v, 0) && Live(v, ROOT)
    ensures Resolve(w, q) == Resolve(v, q)
    ensures Resolve(v, q) != Some(except) ==> FileAt(w, q) == FileAt(v, q)
  {
    SameNamesSamePaths(Names(v), Names(w), q);
    ResolvesLive(v, q);
  }

  lemma {:induction false} ResolvesLive(v: Volume, q: seq<string>)
    requires Geometry(v) && EntriesGood(v, 0) && Live(v, ROOT)
    ensures Resolve(v, q).Some? ==> Live(v, Resolve(v, q).value)
  {
    if q != [] && Resolve(v, q).Some? {
      var k, s, e := FindGives(v, Resolve(v, q[..|q| - 1]).value, q[|q| - 1]);
    }
  }

  /** Directory dir can be read block by block. */
  ghost predicate Readable(v: Volume, dir: int) {
    && Geometry(v) && Live(v, dir) && GoodInode(v, dir)
    && (Ino(v, dir).kind == Directory ==>
          DirectoryExtents(Ino(v, dir).extents) && Ino(v, dir).size == BLOCK_SIZE * |Ino(v, dir).extents|)
  }

  /** w is v without one path; every other path and file is as before. */
  ghost predicate PathRemoved(v: Volume, w: Volume, path: seq<string>)
    requires Geometry(v)
  {
    && Inv(w) && Resolve(v, path).Some? && FilesKept(v, w, Resolve(v, path).value) && NoneLost(v, w)
    && Resolve(w, path) == None && (forall q :: q != path ==> Resolve(w, q) == Resolve(v, q))
  }

  /** The path leads to a directory of one block under which nothing resolves. */
  ghost predicate EmptyAt(v: Volume, path: string)
    requires Geometry(v)
  {
    && Paths.WellFormed(path, NAME_MAX)
    && var p := Paths.Components(path);
       && Resolve(v, p).Some? && Live(v, Resolve(v, p).value)
       && Ino(v, Resolve(v, p).value).kind == Directory && Ino(v, Resolve(v, p).value).size == BLOCK_SIZE
       && forall name :: Resolve(v, p + [name]) == None
  }

  /** Bits and blocks of inode i released, its number freed, and its entry taken out, in whatever order. */
  ghost predicate Removed(v: Volume, w: Volume, dir: int, k: int, s: int, i: Inode)
    requires Geometry(v)
  {
    && Geometry(w) && Live(v, dir) && Ino(v, dir).kind == Directory && dir != i.id && 1 < i.id <= MAX_INODES
    && 0 <= k < |Ino(v, dir).extents| && 0 <= s < DIRENTS_PER_BLOCK && Balanced(w)
    && w.inodeBits == v.inodeBits[i.id - 1 := false]
    && w.inodes == v.inodes[dir - 1 := Some(Ino(v, dir).(modified := Ino(v, dir).modified + 1))][i.id - 1 := w.inodes[i.id - 1]]
    && (var b := Ino(v, dir).extents[k].physical; b < |v.blocks| && w.blocks == v.blocks[b := Dir(Slots(v.blocks[b])[s := Free])])
    && forall b :: 0 <= b < |v.blocks| ==> w.blockBits[b] == (v.blockBits[b] && !CoveredBelow(i.extents, |i.extents|, b))
  }

  /** Blocks released and number freed: directory dir still reads as before. */
  lemma {:induction false} FreedReads(v: Volume, freed: Volume, dir: int, i: Inode)
    requires Geometry(v) && Readable(v, dir) && Geometry(freed) && dir != i.id && 1 <= i.id <= MAX_INODES
    requires freed == v.(free := freed.free, blockBits := freed.blockBits, inodeBits := v.inodeBits[i.id - 1 := false])
    ensures Readable(freed, dir) && Ino(freed, dir) == Ino(v, dir)
    ensures forall k, s, e :: At(freed, dir, k, s, e) <==> At(v, dir, k, s, e)
  {
  }

  lemma {:induction false} DiscardRemoves(v: Volume, released: Volume, freed: Volume, w: Volume, dir: int, k: int, s: int, i: Inode)
    requires Released(v, released, i.extents, |i.extents|) && Live(v, dir) && dir != i.id && 1 < i.id <= MAX_INODES
    requires freed == released.(inodeBits := released.inodeBits[i.id - 1 := false]) && Geometry(freed) && SlotSet(freed, w, dir, k, s, Free)
    ensures Removed(v, w, dir, k, s, i) && w.inodes[i.id - 1] == v.inodes[i.id - 1]
  {
  }

  lemma {:induction false} WipedIsRemoved(v: Volume, w: Volume, w': Volume, dir: int, k: int, s: int, i: Inode)
    requires Geometry(v) && Removed(v, w, dir, k, s, i)
    requires w' == w || w' == w.(inodes := w.inodes[i.id - 1 := None])
    ensures Removed(v, w', dir, k, s, i)
  {
  }

  lemma {:induction false} RemovedIsUnlinkThenDrop(v: Volume, w: Volume, dir: int, k: int, s: int, i: Inode) returns (mid: Volume)
    requires Geometry(v) && Live(v, i.id) && Ino(v, i.id) == i && Removed(v, w, dir, k, s, i)
    ensures SlotSet(v, mid, dir, k, s, Free) && Dropped(mid, w, i.id) && Live(mid, i.id) && Ino(mid, i.id) == i
  {
    mid := v.(blocks := w.blocks, inodes := v.inodes[dir - 1 := Some(Ino(v, dir).(modified := Ino(v, dir).modified + 1))]);
    forall b ensures OwnedBy(mid, i.id, b) <==> CoveredBelow(i.extents, |i.extents|, b) {
      if CoveredBelow(i.extents, |i.extents|, b) {
        var e :| 0 <= e < |i.extents| && Covers(i.extents[e], b);
        assert Owns(mid, i.id, e, b);
      }
    }
  }

  lemma {:induction false} RemoveNames(v: Volume, w: Volume, dir: int, k: int, s: int, e: Dirent, i: Inode)
    requires Inv(v) && Live(v, i.id) && Ino(v, i.id) == i && Removed(v, w, dir, k, s, i)
    requires At(v, dir, k, s, e) && e.id == i.id && forall k', s', e' :: !At(v, i.id, k', s', e')
    ensures Inv(w) && FilesKept(v, w, i.id) && OneNameMore(Names(w), Names(v), dir, e.name, i.id) && NoneLost(v, w)
  {
    var mid := RemovedIsUnlinkThenDrop(v, w, dir, k, s, i);
    UnlinkKeepsInv(v, mid, dir, k, s, e);
    SlotSetDiffers(v, mid, dir, k, s, Free);
    DropKeepsInv(mid, w, i.id);
    SlotSetLosesNone(v, mid, dir, k, s, Free);
    DropLosesNone(mid, w, i.id);
    FindIs(v, dir, k, s, e);
  }

  lemma {:induction false} RemovePath(v: Volume, w: Volume, dir: nat, k: int, s: int, e: Dirent, i: Inode, parent: seq<string>)
    requires Inv(v) && Live(v, i.id) && Ino(v, i.id) == i && Removed(v, w, dir, k, s, i)
    requires At(v, dir, k, s, e) && Find(v, dir, e.name) == Some(i.id) && forall k', s', e' :: !At(v, i.id, k', s', e')
    requires Resolve(v, parent) == Some(dir) && Resolve(v, parent + [e.name]) == Some(i.id)
    ensures PathRemoved(v, w, parent + [e.name])
  {
    FindIs(v, dir, k, s, e);
    RemoveNames(v, w, dir, k, s, e, i);
    OnlyPath(v, parent, 0);
    LessPaths(v, w, dir, e.name, i.id, parent);
  }

  lemma {:induction false} LessPaths(v: Volume, w: Volume, dir: nat, leaf: string, id: nat, parent: seq<string>)
    requires Geometry(v) && Geometry(w) && OneNameMore(Names(w), Names(v), dir, leaf, id)
    requires Resolve(v, parent) == Some(dir) && forall q :: Resolve(v, q) == Some(dir) ==> q == parent
    ensures forall q :: Resolve(w, q) == if q == parent + [leaf] then None else Resolve(v, q)
  {
    forall q | ResolveBy(Names(v), q) == Some(dir) ensures q == parent {
      assert Resolve(v, q) == Some(dir);
    }
    forall q ensures Resolve(w, q) == if q == parent + [leaf] then None else Resolve(v, q) {
      OnePathLess(Names(w), Names(v), dir, leaf, id, parent, q);
    }
  }

  /** Inode i is the entry `leaf` of directory `parent`, which is at path dir. */
  ghost predicate Located(v: Volume, dir: seq<string>, leaf: string, parent: Inode, i: Inode)
    requires Geometry(v)
  {
    && Resolve(v, dir) == Some(parent.id) && Resolve(v, dir + [leaf]) == Some(i.id) == Find(v, parent.id, leaf)
    && Live(v, parent.id) && Ino(v, parent.id) == parent && parent.kind == Directory
    && Live(v, i.id) && Ino(v, i.id) == i && i.id > 1 && i.id != parent.id
  }

  /** Nothing that is still listed is lost by freeing other inodes and blocks. */
  lemma {:induction false} StillFound(v: Volume, w: Volume, dir: int, name: string)
    requires Geometry(v) && Geometry(w) && v.inodes == w.inodes && v.blocks == w.blocks && Live(w, dir)
    ensures Find(v, dir, name).Some? ==> Find(w, dir, name).Some?
  {
    if Find(v, dir, name).Some? {
      var k, s, e := FindGives(v, dir, name);
      assert At(w, dir, k, s, e);
    }
  }

  /** The n data blocks from s on are free or belong to file i. */
  ghost predicate Available(v: Volume, i: Inode, s: int, n: nat)
    requires Geometry(v)
  {
    && DATA_START <= s && s + n <= |v.blocks|
    && forall b :: s <= b < s + n ==> !v.blockBits[b] || CoveredBelow(i.extents, |i.extents|, b)
  }

  ghost predicate NoRoom(v: Volume, i: Inode, n: nat)
    requires Geometry(v)
  {
    forall s :: !Available(v, i, s, n)
  }

  lemma {:induction false} StillNoRoom(v: Volume, w: Volume, i: Inode, n: nat)
    requires Released(v, w, i.extents, |i.extents|)
    ensures NoRun(w.blockBits, n) ==> NoRoom(v, i, n)
  {
    forall s | Available(v, i, s, n) ensures ClearRun(w.blockBits, s, n) {
    }
  }

  /** No run of n data blocks is left for a new file, next to the block its entry may take. */
  ghost predicate NoRoomForNew(v: Volume, path: string, n: nat)
    requires Geometry(v) && Creatable(v, path, Regular)
  {
    var p := Paths.Components(path);
    var grow := if DirFull(v, Resolve(v, p[..|p| - 1]).value) then 1 else 0;
    NoRun(v.blockBits, n + grow)
  }

  lemma {:induction false} NewHasNoRoom(v: Volume, w: Volume, path: string, i: Inode, n: nat)
    requires Geometry(v) && Geometry(w) && |v.blocks| == |w.blocks|
    requires Creatable(v, path, Regular) && EntryAt(v, w, path) && i.extents == [] && NoRoom(w, i, n)
    ensures NoRoomForNew(v, path, n)
  {
    var p := Paths.Components(path);
    var full := DirFull(v, Resolve(v, p[..|p| - 1]).value);
    if full {
      var b: nat :| LowestClear(v.blockBits, b) && w.blockBits == v.blockBits[b := true];
      var m := n + 1;
      forall s | DATA_START <= s ensures !ClearRun(v.blockBits, s, m) {
        assert ClearRun(v.blockBits, s, m) ==> ClearRun(v.blockBits, s, 1);
        assert !Available(w, i, s + 1, n);
      }
    } else {
      forall s | DATA_START <= s && ClearRun(v.blockBits, s, n) ensures Available(w, i, s, n) {
      }
    }
  }

  // ---------------------------------------------------------------------------------------
  // Lemmas about whole operations
  // ---------------------------------------------------------------------------------------

  lemma {:induction false} FormattedIsSound(v: Volume, root: Inode)
    requires Geometry(v) && v.free == |v.blocks| - DATA_START - 1
    requires root.id == ROOT && root.kind == Directory && root.size == BLOCK_SIZE && root.extents == [Extent(0, DATA_START, 1)]
    requires forall k :: 0 <= k < MAX_INODES ==> v.inodeBits[k] == (k == 0) && v.inodes[k] == if k == 0 then Some(root) else None
    requires forall b :: 0 <= b < |v.blocks| ==> v.blockBits[b] == (b <= DATA_START)
    requires forall b :: 0 <= b < |v.blocks| ==> if b == DATA_START then v.blocks[b] == Dir(EmptySlots()) else v.blocks[b].Data?
    ensures Inv(v) && forall name :: Find(v, ROOT, name) == None
  {
    assert forall id :: Live(v, id) <==> id == ROOT;
    assert forall i, e, b :: Owns(v, i, e, b) <==> i == ROOT && e == 0 && b == DATA_START;
    assert forall dir, k, s, e :: !At(v, dir, k, s, e);
    FormattedCount(v.blockBits, |v.blocks|);
  }

  function RootInode(): Inode { Inode(ROOT, Directory, 0x41ED, 0, 0, BLOCK_SIZE, 1, [Extent(0, DATA_START, 1)]) }

  /** An empty volume on a device of the given blocks. */
  function Formatted(device: seq<Block>): Volume
    requires DATA_START < |device|
  {
    Volume(|device| - DATA_START - 1,
      seq(MAX_INODES, k => k == 0),
      seq(|device|, b => b <= DATA_START),
      seq(MAX_INODES, k => if k == 0 then Some(RootInode()) else None),
      seq(|device|, b requires 0 <= b < |device| => if b == DATA_START then Dir(EmptySlots()) else Cleaned(device, DATA_START + 1, b)))
  }

  /** Block b of the device once its first n blocks are zero. */
  function Cleaned(device: seq<Block>, n: nat, b: nat): Content
    requires b < |device|
  {
    Data(if b < n then ZeroBlock() else device[b])
  }

  /** A volume with nothing on it, not even a root: what zeroing the metadata leaves. */
  function Blank(blocks: seq<Content>): Volume
    requires DATA_START < |blocks|
  {
    Volume(|blocks| - DATA_START - 1, seq(MAX_INODES, _ => false), seq(|blocks|, _ => false), seq(MAX_INODES, _ => None), blocks)
  }

  /** Writing bitmaps, root inode and root block on a blank volume makes the formatted one. */
  lemma {:induction false} FormatSteps(device: seq<Block>, blank: Volume)
    requires DATA_START < |device| == |blank.blocks| && blank == Blank(blank.blocks)
    requires forall b :: 0 <= b < |device| ==> blank.blocks[b] == Cleaned(device, DATA_START + 1, b)
    ensures Volume(blank.free, blank.inodeBits[0 := true], Marked(blank.blockBits, 0, DATA_START + 1, true),
                   blank.inodes[0 := Some(RootInode())], blank.blocks[DATA_START := Dir(EmptySlots())]) == Formatted(device)
  {
    var v := Formatted(device);
    assert blank.inodeBits[0 := true] == v.inodeBits;
    assert Marked(blank.blockBits, 0, DATA_START + 1, true) == v.blockBits;
    assert blank.inodes[0 := Some(RootInode())] == v.inodes;
    assert blank.blocks[DATA_START := Dir(EmptySlots())] == v.blocks;
  }

  function FileA(): Inode { Inode(2, Regular, 0x81A4, 0, 0, 0, 1, []) }

  /** The volume with an empty file that no directory lists. */
  function OneOrphan(device: seq<Block>): Volume
    requires DATA_START < |device|
  {
    var v := Formatted(device);
    v.(inodeBits := v.inodeBits[1 := true], inodes := v.inodes[1 := Some(FileA())])
  }

  /** The volume with one empty file "a" in it. */
  function OneFile(device: seq<Block>): Volume
    requires DATA_START < |device|
  {
    var v := OneOrphan(device);
    v.(inodes := v.inodes[0 := Some(RootInode().(modified := 2))],
       blocks := v.blocks[DATA_START := Dir(EmptySlots()[0 := Dirent(2, Regular, "a")])])
  }

  lemma {:induction false} FormattedInv(device: seq<Block>)
    requires DATA_START < |device| <= MAX_BLOCKS
    ensures Inv(Formatted(device)) && forall name :: Find(Formatted(device), ROOT, name) == None
    ensures forall b :: !Lost(Formatted(device), b)
  {
    var v := Formatted(device);
    FormattedIsSound(v, RootInode());
    forall b | Lost(v, b) ensures false {
      assert Owns(v, ROOT, 0, b) && OwnedBy(v, ROOT, b);
    }
  }

  lemma {:induction false} OneOrphanInv(device: seq<Block>)
    requires DATA_START < |device| <= MAX_BLOCKS
    ensures InvExcept(OneOrphan(device), 2) && Find(OneOrphan(device), ROOT, "a") == None
  {
    FormattedInv(device);
    AdoptKeepsInv(Formatted(device), OneOrphan(device), FileA(), 0);
  }

  lemma {:induction false} OneFileIsLinked(device: seq<Block>)
    requires DATA_START < |device| <= MAX_BLOCKS
    ensures Geometry(OneOrphan(device)) && Live(OneOrphan(device), 2) && Ino(OneOrphan(device), 2) == FileA()
    ensures SlotSet(OneOrphan(device), OneFile(device), ROOT, 0, 0, Dirent(2, Regular, "a"))
    ensures SlotAt(OneOrphan(device), ROOT, 0, 0) == Free
  {
    var v := OneOrphan(device);
    assert v.inodes[0] == Some(RootInode()) && v.blocks[DATA_START] == Dir(EmptySlots());
  }

  lemma {:induction false} OneFileTakes(device: seq<Block>)
    requires DATA_START < |device| <= MAX_BLOCKS
    ensures Geometry(OneFile(device)) && RootTakes(OneFile(device), "/a")
  {
    var w := OneFile(device);
    Paths.SlashThenToken("a");
    assert ['/'] + "a" == "/a";
    assert !w.inodeBits[2];
    assert w.blocks[DATA_START].slots[1] == Free;
    assert SlotAt(w, ROOT, 0, 1) == Free;
  }

  lemma {:induction false} OneFileInv(device: seq<Block>)
    requires DATA_START < |device| <= MAX_BLOCKS
    ensures Inv(OneFile(device)) && Resolve(OneFile(device), ["a"]) == Some(2)
  {
    OneOrphanInv(device);
    OneFileIsLinked(device);
    LinkAdds(OneOrphan(device), OneFile(device), ROOT, 0, 0, Dirent(2, Regular, "a"));
    LastStep(OneFile(device), [], "a");
    assert [] + ["a"] == ["a"];
  }

  lemma {:induction false} FormattedCount(bits: seq<bool>, hi: nat)
    requires DATA_START < hi <= |bits| && forall b :: 0 <= b < |bits| ==> bits[b] == (b <= DATA_START)
    ensures CountClear(bits, DATA_START, hi) == hi - DATA_START - 1
  {
    if hi > DATA_START + 1 {
      FormattedCount(bits, hi - 1);
    } else {
      assert CountClear(bits, DATA_START, DATA_START) == 0;
    }
  }

  lemma {:induction false} OccupiedDirectory(v: Volume, path: seq<string>, i: Inode, s: nat)
    requires Geometry(v) && Live(v, i.id) && Ino(v, i.id) == i && i.kind == Directory && i.extents != []
    requires Resolve(v, path) == Some(i.id) && s < DIRENTS_PER_BLOCK && SlotAt(v, i.id, 0, s) != Free
    ensures exists name :: Resolve(v, path + [name]).Some?
  {
    var e := SlotAt(v, i.id, 0, s);
    assert At(v, i.id, 0, s, e);
    LastStep(v, path, e.name);
    assert Resolve(v, path + [e.name]).Some?;
  }

  lemma {:induction false} EmptyDirectory(v: Volume, path: seq<string>, i: Inode)
    requires Geometry(v) && Live(v, i.id) && Ino(v, i.id) == i && |i.extents| == 1 && Resolve(v, path) == Some(i.id)
    requires forall s :: 0 <= s < DIRENTS_PER_BLOCK ==> SlotAt(v, i.id, 0, s) == Free
    ensures forall k, s, e :: !At(v, i.id, k, s, e)
    ensures forall name :: Resolve(v, path + [name]) == None
  {
    forall name ensures Resolve(v, path + [name]) == None {
      LastStep(v, path, name);
    }
  }

  /** How much of a file of this size to copy next, with `done` bytes copied and at most max wanted. */
  function Piece(done: nat, size: nat, max: nat): (n: nat)
    requires done < size && done < max
    ensures 0 < n && done + n <= size && done + n <= max && done % BLOCK_SIZE + n <= BLOCK_SIZE
  {
    var n := BLOCK_SIZE - done % BLOCK_SIZE;
    var n' := if n > size - done then size - done else n;
    if n' > max - done then max - done else n'
  }

  /** Part of a file that lies within one block. */
  lemma {:induction false} PieceOfFile(v: Volume, i: Inode, at: nat, n: nat)
    requires at + n <= i.size && at % BLOCK_SIZE + n <= BLOCK_SIZE
    ensures Bytes(LogicalBlock(v, i.extents, at / BLOCK_SIZE))[at % BLOCK_SIZE..at % BLOCK_SIZE + n] == FileBytes(v, i)[at..at + n]
  {
    var c, from := Bytes(LogicalBlock(v, i.extents, at / BLOCK_SIZE)), at % BLOCK_SIZE;
    var piece, f := c[from..from + n], FileBytes(v, i)[at..at + n];
    forall t | 0 <= t < n ensures piece[t] == f[t] {
      assert (at + t) / BLOCK_SIZE == at / BLOCK_SIZE && (at + t) % BLOCK_SIZE == from + t;
    }
  }

  lemma {:induction false} AppendPiece(v: Volume, i: Inode, data: seq<Byte>, n: nat)
    requires |data| + n <= i.size && |data| % BLOCK_SIZE + n <= BLOCK_SIZE && data == FileBytes(v, i)[..|data|]
    ensures data + Bytes(LogicalBlock(v, i.extents, |data| / BLOCK_SIZE))[|data| % BLOCK_SIZE..|data| % BLOCK_SIZE + n]
              == FileBytes(v, i)[..|data| + n]
  {
    PieceOfFile(v, i, |data|, n);
  }

  /** What resolving a path and its parent tells about the two inodes. */
  lemma {:induction false} Target(v: Volume, dir: seq<string>, leaf: string)
    requires Inv(v) && Resolve(v, dir).Some? && Resolve(v, dir + [leaf]).Some?
    ensures Live(v, Resolve(v, dir).value) && Ino(v, Resolve(v, dir).value).kind == Directory
    ensures Resolve(v, dir + [leaf]) == Find(v, Resolve(v, dir).value, leaf)
    ensures Resolve(v, dir + [leaf]) != Resolve(v, dir) && Resolve(v, dir + [leaf]).value > 1
  {
    LastStep(v, dir, leaf);
    var k, s, e := FindGives(v, Resolve(v, dir).value, leaf);
    if Resolve(v, dir + [leaf]) == Resolve(v, dir) {
      PathsUnique(v, dir + [leaf], dir, 0);
    }
  }

  /** A path that was there, or was just added, after its file got new contents. */
  lemma {:induction false} WriteIsWritten(v: Volume, v1: Volume, w: Volume, path: seq<string>, i: Inode, data: seq<Byte>, a: Attributes, tick: nat)
    requires a.kind == Regular && a.mode == 0x1A4
    requires Inv(v) && (v1 == v || PathAdded(v, v1, path, a)) && Inv(v1) && Resolve(v1, path) == Some(i.id)
    requires Inv(w) && FilesKept(v1, w, i.id) && SameNames(v1, w) && Live(v1, i.id) && NoneLost(v1, w)
    requires Live(w, i.id) && Ino(w, i.id).kind == Regular && FileBytes(w, Ino(w, i.id)) == data
    requires Ino(w, i.id).mode == Ino(v1, i.id).mode && OwnedSince(Ino(w, i.id), a.uid, a.gid, tick)
    ensures FileWritten(v, w, path, data, a.uid, a.gid, tick)
  {
    SameNamesSameFiles(v1, w, i.id, path);
    forall q | q != path ensures Resolve(w, q) == Resolve(v, q) && FileAt(w, q) == FileAt(v, q) {
      SameNamesSameFiles(v1, w, i.id, q);
      OtherPathOtherInode(v1, q, path);
      OtherFilesKept(v, v1, path, q, a);
    }
  }

  lemma {:induction false} OtherPathOtherInode(v: Volume, q: seq<string>, path: seq<string>)
    requires Inv(v) && q != path && Resolve(v, path).Some?
    ensures Resolve(v, q) != Resolve(v, path)
  {
    if Resolve(v, q) == Resolve(v, path) {
      PathsUnique(v, q, path, 0);
    }
  }

  lemma {:induction false} OtherFilesKept(v: Volume, w: Volume, path: seq<string>, q: seq<string>, a: Attributes)
    requires Inv(v) && (w == v || PathAdded(v, w, path, a)) && q != path
    ensures Resolve(w, q) == Resolve(v, q) && FileAt(w, q) == FileAt(v, q)
  {
    ResolvesLive(v, q);
  }

  lemma {:induction false} ReplacedIsRewritten(v: Volume, released: Volume, w: Volume, i: Inode, i': Inode, start: nat, n: nat)
    requires Geometry(v) && Live(v, i.id) && Ino(v, i.id) == i && Released(v, released, i.extents, |i.extents|)
    requires i'.id == i.id && i'.kind == Regular && i'.extents == if n == 0 then [] else [Extent(0, start, n)]
    requires n > 0 ==> DATA_START <= start && ClearRun(released.blockBits, start, n)
    requires Geometry(w) && |w.blocks| == |v.blocks| && w.inodeBits == v.inodeBits && w.inodes == v.inodes[i.id - 1 := Some(i')]
    requires w.blockBits == if n == 0 then released.blockBits else Marked(released.blockBits, start, n, true)
    requires forall b :: 0 <= b < |v.blocks| && !InRun(start, n, b) ==> w.blocks[b] == v.blocks[b]
    requires forall b :: 0 <= b < |v.blocks| && InRun(start, n, b) ==> w.blocks[b].Data?
    ensures Rewritten(v, w, i.id, start, n)
  {
    forall b ensures OwnedBy(v, i.id, b) <==> CoveredBelow(i.extents, |i.extents|, b) {
      if CoveredBelow(i.extents, |i.extents|, b) {
        var e :| 0 <= e < |i.extents| && Covers(i.extents[e], b);
        assert Owns(v, i.id, e, b);
      }
    }
  }

  lemma {:induction false} SoundIsReadable(v: Volume, dir: int)
    requires Geometry(v) && InodesGood(v) && ContentsGood(v) && Live(v, dir)
    ensures Readable(v, dir)
  {
    assert GoodInode(v, dir);
  }

  lemma {:induction false} EntryLeads(v: Volume, dir: int, k: int, s: int, e: Dirent)
    requires Geometry(v) && InodesGood(v) && EntriesGood(v, 0) && At(v, dir, k, s, e)
    ensures Live(v, e.id) && Ino(v, e.id).id == e.id
    ensures NamesUnique(v) ==> Find(v, dir, e.name) == Some(e.id)
  {
    assert GoodInode(v, e.id);
    if NamesUnique(v) {
      FindIs(v, dir, k, s, e);
    }
  }

  lemma {:induction false} WalkStep(v: Volume, all: seq<string>, n: nat)
    requires Geometry(v) && n < |all| && FileSystem.Resolve(v, all[..n]).Some?
    ensures FileSystem.Resolve(v, all[..n + 1]) == Find(v, FileSystem.Resolve(v, all[..n]).value, all[n])
    ensures FileSystem.Resolve(v, all[..n + 1]) == None ==> FileSystem.Resolve(v, all) == None
  {
    assert all[..n + 1][..n] == all[..n];
    if FileSystem.Resolve(v, all[..n + 1]) == None {
      MissingPrefix(Names(v), all, n + 1);
    }
  }

  lemma {:induction false} LastStep(v: Volume, dir: seq<string>, leaf: string)
    requires Geometry(v) && FileSystem.Resolve(v, dir).Some?
    ensures FileSystem.Resolve(v, dir + [leaf]) == Find(v, FileSystem.Resolve(v, dir).value, leaf)
  {
    assert (dir + [leaf])[..|dir|] == dir;
  }

  lemma InvalidNamesMissing(v: Volume, dir: int, name: string)
    requires Geometry(v) && EntriesGood(v, 0) && !ValidName(name)
    ensures Find(v, dir, name) == None
  {
  }
}
