/** The image builder: inode numbers, directory entries, blocks, metadata (tools/mk_k64xfs.py:96-276). */
module Builder {
  import opened Bitmap
  import opened Blocks
  import opened FileSystem
  import opened Image

  /** Block o of a directory with these entries. */
  method DirectoryBlock(dents: seq<Dirent>, o: nat) returns (c: Content)
    ensures c.Dir? && |c.slots| == DIRENTS_PER_BLOCK
    ensures forall s :: 0 <= s < DIRENTS_PER_BLOCK ==>
              c.slots[s] == if o * DIRENTS_PER_BLOCK + s < |dents| then dents[o * DIRENTS_PER_BLOCK + s] else Free
  {
    var slots := EmptySlots();
    var s := 0;
    while s < DIRENTS_PER_BLOCK && o * DIRENTS_PER_BLOCK + s < |dents|
      invariant s <= DIRENTS_PER_BLOCK == |slots|
      invariant forall t :: 0 <= t < s ==> o * DIRENTS_PER_BLOCK + t < |dents| && slots[t] == dents[o * DIRENTS_PER_BLOCK + t]
      invariant forall t :: s <= t < DIRENTS_PER_BLOCK ==> slots[t] == Free
    {
      slots := slots[s := dents[o * DIRENTS_PER_BLOCK + s]];
      s := s + 1;
    }
    c := Dir(slots);
  }

  /** Block o of a file, padded with zeros. */
  method FileBlock(data: seq<Byte>, o: nat) returns (c: Content)
    ensures c.Data? && forall j :: 0 <= j < BLOCK_SIZE ==> c.bytes[j] == ByteFor(data, o * BLOCK_SIZE + j)
  {
    var bytes := ZeroBlock();
    var j := 0;
    while j < BLOCK_SIZE && o * BLOCK_SIZE + j < |data|
      invariant j <= BLOCK_SIZE
      invariant forall t :: 0 <= t < j ==> o * BLOCK_SIZE + t < |data| && bytes[t] == data[o * BLOCK_SIZE + t]
      invariant forall t :: j <= t < BLOCK_SIZE ==> bytes[t] == 0
    {
      bytes := bytes[j := data[o * BLOCK_SIZE + j]];
      j := j + 1;
    }
    c := Data(bytes);
  }

  class ImageBuilder {
    const totalBlocks: nat
    var nextInode: nat
    var nextBlock: nat
    var inodeBits: seq<bool>
    var blockBits: seq<bool>
    var pathInode: map<seq<string>, nat>
    var dirEntries: map<nat, seq<Dirent>>
    var inodes: seq<Option<Inode>>
    var blocks: seq<Content>

    ghost function Now(): Volume
      reads this
    {
      Volume(0, inodeBits, blockBits, inodes, blocks)
    }

    ghost predicate Sizes()
      reads this
    {
      |inodeBits| == MAX_INODES == |inodes| && |blockBits| == |blocks| == totalBlocks
    }

    constructor (imageBytes: nat)
      ensures Sizes() && totalBlocks == CeilDiv(imageBytes, BLOCK_SIZE) && nextInode == 1 && nextBlock == DATA_START
      ensures pathInode == map[] && dirEntries == map[]
      ensures (forall i :: 0 <= i < MAX_INODES ==> !inodeBits[i] && inodes[i] == None)
      ensures BitsSet(Now(), DATA_START) && forall b :: 0 <= b < totalBlocks ==> blocks[b] == Data(ZeroBlock())
    {
      totalBlocks := CeilDiv(imageBytes, BLOCK_SIZE);
      nextInode, nextBlock := 1, DATA_START;
      inodeBits, inodes := seq(MAX_INODES, _ => false), seq(MAX_INODES, _ => None);
      blockBits := seq(CeilDiv(imageBytes, BLOCK_SIZE), b => b < DATA_START);
      blocks := seq(CeilDiv(imageBytes, BLOCK_SIZE), _ => Data(ZeroBlock()));
      pathInode, dirEntries := map[], map[];
    }

    method AllocInode() returns (ok: bool, inode: nat)
      requires Sizes() && nextInode >= 1
      modifies this`nextInode, this`inodeBits
      ensures ok <==> old(nextInode) <= MAX_INODES
      ensures !ok ==> nextInode == old(nextInode) && inodeBits == old(inodeBits)
      ensures ok ==> inode == old(nextInode) && nextInode == inode + 1 && inodeBits == old(inodeBits)[inode - 1 := true]
    {
      if nextInode > MAX_INODES {
        return false, 0;
      }
      inode := nextInode;
      nextInode := nextInode + 1;
      inodeBits := inodeBits[inode - 1 := true];
      ok := true;
    }

    method AllocBlocks(count: nat) returns (ok: bool, start: nat)
      requires Sizes()
      modifies this`nextBlock, this`blockBits
      ensures ok <==> count == 0 || old(nextBlock) + count <= totalBlocks
      ensures !ok || count == 0 ==> nextBlock == old(nextBlock) && blockBits == old(blockBits)
      ensures ok && count > 0 ==>
                && start == old(nextBlock) && nextBlock == start + count && |blockBits| == totalBlocks
                && blockBits == Marked(old(blockBits), start, count, true)
    {
      if count == 0 {
        return true, 0;
      }
      if nextBlock + count > totalBlocks {
        return false, 0;
      }
      start := nextBlock;
      blockBits := Mark(blockBits, start, count);
      nextBlock := nextBlock + count;
      ok := true;
    }

    /** Every entry gets an inode number, in order. */
    method NumberEntries(entries: seq<Entry>) returns (ok: bool)
      requires Sizes() && nextInode == 1 && pathInode == map[] && PathsDiffer(entries)
      requires forall i :: 0 <= i < MAX_INODES ==> !inodeBits[i]
      modifies this`nextInode, this`inodeBits, this`pathInode
      ensures ok <==> |entries| <= MAX_INODES
      ensures Sizes()
      ensures ok ==> forall i :: 0 <= i < MAX_INODES ==> (inodeBits[i] <==> i < |entries|)
      ensures ok ==> forall c :: 0 <= c < |entries| ==> entries[c].path in pathInode && pathInode[entries[c].path] == c + 1
    {
      for c := 0 to |entries|
        invariant Sizes() && nextInode == c + 1 && c <= MAX_INODES
        invariant forall i :: 0 <= i < MAX_INODES ==> (inodeBits[i] <==> i < c)
        invariant forall k :: 0 <= k < c ==> entries[k].path in pathInode && pathInode[entries[k].path] == k + 1
      {
        var id;
        ok, id := AllocInode();
        if !ok {
          return;
        }
        forall k | 0 <= k < c ensures entries[k].path != entries[c].path {
          assert SamePathSame(entries, k, c);
        }
        pathInode := pathInode[entries[c].path := id];
      }
      ok := true;
    }

    function Listed(id: nat): seq<Dirent>
      reads this`dirEntries
    {
      if id in dirEntries then dirEntries[id] else []
    }

    method AddDirent(parent: nat, name: string, id: nat, kind: Kind) returns (ok: bool)
      modifies this`dirEntries
      ensures ok <==> 0 < |name| < NAME_MAX
      ensures !ok ==> dirEntries == old(dirEntries)
      ensures ok ==> forall d :: Listed(d) == if d == parent then old(Listed(d)) + [Dirent(id, kind, name)] else old(Listed(d))
    {
      if |name| == 0 || |name| >= NAME_MAX {
        return false;
      }
      dirEntries := dirEntries[parent := Listed(parent) + [Dirent(id, kind, name)]];
      ok := true;
    }

    /** Every entry but the root is listed in its parent. */
    method LinkEntries(entries: seq<Entry>) returns (ok: bool)
      requires Tree(entries) && dirEntries == map[]
      requires forall c :: 0 <= c < |entries| ==> entries[c].path in pathInode && pathInode[entries[c].path] == c + 1
      modifies this`dirEntries
      ensures ok <==> forall c :: 0 <= c < |entries| && entries[c].path != [] ==> 0 < |Name(entries[c].path)| < NAME_MAX
      ensures ok ==> forall id :: 1 <= id <= |entries| ==> Listed(id) == Dents(entries, id - 1, |entries|)
    {
      for c := 0 to |entries|
        invariant forall k :: 0 <= k < c && entries[k].path != [] ==> 0 < |Name(entries[k].path)| < NAME_MAX
        invariant forall id :: 1 <= id <= |entries| ==> Listed(id) == Dents(entries, id - 1, c)
      {
        var path := entries[c].path;
        if path != [] {
          ghost var p := OnlyParent(entries, c);
          ok := AddDirent(pathInode[Parent(path)], Name(path), pathInode[path], entries[c].kind);
          if !ok {
            return;
          }
        }
      }
      ok := true;
    }

    /** The blocks of a directory. */
    method WriteDirectory(entries: seq<Entry>, k: nat, dents: seq<Dirent>, start: nat, count: nat)
      requires k < |entries| && entries[k].kind == Directory && dents == Dents(entries, k, |entries|)
      requires start + count <= |blocks|
      modifies this`blocks
      ensures Written(old(blocks), blocks, entries, k, start, count)
    {
      for o := 0 to count
        invariant Written(old(blocks), blocks, entries, k, start, o)
      {
        var c := DirectoryBlock(dents, o);
        blocks := blocks[start + o := c];
      }
    }

    /** The blocks of a file. */
    method WriteFile(entries: seq<Entry>, k: nat, start: nat, count: nat)
      requires k < |entries| && entries[k].kind == Regular && start + count <= |blocks|
      modifies this`blocks
      ensures Written(old(blocks), blocks, entries, k, start, count)
    {
      for o := 0 to count
        invariant Written(old(blocks), blocks, entries, k, start, o)
      {
        var c := FileBlock(entries[k].data, o);
        blocks := blocks[start + o := c];
      }
    }

    /** Entry k gets its blocks and its inode. */
    method PlaceEntry(entries: seq<Entry>, k: nat) returns (ok: bool)
      requires k < |entries| <= MAX_INODES && Sizes() && nextBlock == Start(entries, k) && Holds(Now(), entries, k)
      requires Listed(k + 1) == Dents(entries, k, |entries|) && (k == 0 ==> entries[0].kind == Directory)
      modifies this`nextBlock, this`blockBits, this`blocks, this`inodes
      ensures ok <==> Start(entries, k + 1) <= totalBlocks && (entries[k].kind == Directory ==> EntryBlocks(entries, k) <= DIRECT_EXTENTS)
      ensures ok ==> Sizes() && nextBlock == Start(entries, k + 1) && Holds(Now(), entries, k + 1)
    {
      ghost var v := Now();
      var e, extents, size, start := entries[k], [], 0, 0;
      if e.kind == Directory {
        var dents := Listed(k + 1);
        var count := CeilDiv(|dents|, DIRENTS_PER_BLOCK);
        if count == 0 {
          count := 1;
        }
        if count > DIRECT_EXTENTS {
          return false;
        }
        ok, start := AllocBlocks(count);
        if !ok {
          return;
        }
        WriteDirectory(entries, k, dents, start, count);
        size := count * BLOCK_SIZE;
        extents := seq(count, i requires 0 <= i => Extent(i, start + i, 1));
      } else {
        var count := CeilDiv(|e.data|, BLOCK_SIZE);
        if count > 0 {
          ok, start := AllocBlocks(count);
          if !ok {
            return;
          }
          WriteFile(entries, k, start, count);
          extents := [Extent(0, start, count)];
        }
        size := |e.data|;
      }
      assert extents == ExtentsFor(entries, k);
      inodes := inodes[k := Some(Inode(k + 1, e.kind, e.mode % 0x1_0000, 0, 0, size, k + 1, extents))];
      ok := true;
      PlacedHolds(v, Now(), entries, k);
    }

    /** The image of a tree; the build fails exactly for trees that break a limit or do not fit (tools/mk_k64xfs.py:187-230). */
    method Build(entries: seq<Entry>) returns (ok: bool, v: Volume)
      requires Tree(entries) && Sizes() && nextInode == 1 && nextBlock == DATA_START && pathInode == map[] && dirEntries == map[]
      requires forall i :: 0 <= i < MAX_INODES ==> !inodeBits[i] && inodes[i] == None
      requires BitsSet(Now(), DATA_START) && forall b :: 0 <= b < totalBlocks ==> blocks[b] == Data(ZeroBlock())
      modifies this
      ensures ok <==> Encodable(entries) && Start(entries, |entries|) <= totalBlocks <= MAX_BLOCKS
      ensures ok ==> Built(v, entries) && |v.blocks| == totalBlocks
    {
      v := Volume(0, inodeBits, blockBits, inodes, blocks);
      ok := NumberEntries(entries);
      if !ok {
        return;
      }
      ok := LinkEntries(entries);
      if !ok {
        return;
      }
      ok := PlaceAll(entries);
      if !ok {
        return;
      }
      // the bitmap has one block of bits, and counting the free ones reads every one of them
      if totalBlocks > MAX_BLOCKS {
        return false, v;
      }
      StartGrows(entries, 0, |entries|);
      var free := 0;
      for b := DATA_START to totalBlocks
        invariant free == CountClear(blockBits, DATA_START, b)
        invariant Sizes() && Holds(Now(), entries, |entries|)
      {
        if !blockBits[b] {
          free := free + 1;
        }
      }
      v := Volume(free, inodeBits, blockBits, inodes, blocks);
      HoldsFree(Now(), v, entries);
      ok := true;
    }

    method PlaceAll(entries: seq<Entry>) returns (ok: bool)
      requires 0 < |entries| <= MAX_INODES && entries[0].kind == Directory && Sizes() && nextBlock == DATA_START && Holds(Now(), entries, 0)
      requires forall id :: 1 <= id <= |entries| ==> Listed(id) == Dents(entries, id - 1, |entries|)
      modifies this`nextBlock, this`blockBits, this`blocks, this`inodes
      ensures ok <==> Start(entries, |entries|) <= totalBlocks && SmallDirectories(entries, |entries|)
      ensures ok ==> Sizes() && Holds(Now(), entries, |entries|)
    {
      for k := 0 to |entries|
        invariant Sizes() && nextBlock == Start(entries, k) && Holds(Now(), entries, k) && SmallDirectories(entries, k)
      {
        ok := PlaceEntry(entries, k);
        StartGrows(entries, k, k + 1);
        if k + 1 < |entries| {
          StartGrows(entries, k + 1, |entries|);
        }
        if !ok {
          return;
        }
      }
      ok := true;
    }
  }

  lemma {:induction false} OnlyParent(entries: seq<Entry>, c: nat) returns (p: nat)
    requires Tree(entries) && c < |entries| && entries[c].path != []
    ensures p < |entries| && Parent(entries[c].path) == entries[p].path
    ensures forall d :: 0 <= d < |entries| ==> (ChildOf(entries, c, d) <==> d == p)
  {
    assert HasParent(entries, c);
    p :| 0 <= p < |entries| && entries[p].kind == Directory && ChildOf(entries, c, p);
    forall d | 0 <= d < |entries| ensures ChildOf(entries, c, d) <==> d == p {
      assert SamePathSame(entries, d, p);
    }
  }

  /** The first n directories have at most eight blocks. */
  ghost predicate SmallDirectories(entries: seq<Entry>, n: nat)
    requires n <= |entries|
  {
    forall d :: 0 <= d < n && entries[d].kind == Directory ==> EntryBlocks(entries, d) <= DIRECT_EXTENTS
  }

  /** The first n blocks of entry k were written from `start` on, and nothing else. */
  ghost predicate Written(before: seq<Content>, after: seq<Content>, entries: seq<Entry>, k: nat, start: nat, n: nat)
    requires k < |entries|
  {
    && start + n <= |before| == |after|
    && (forall b :: start <= b < start + n ==> ContentIs(entries, k, b - start, after[b]))
    && (forall b :: 0 <= b < |before| && !(start <= b < start + n) ==> after[b] == before[b])
  }

  lemma {:induction false} PlacedHolds(v: Volume, v': Volume, entries: seq<Entry>, k: nat)
    requires k < |entries| && Holds(v, entries, k) && v'.inodeBits == v.inodeBits && v'.inodes == v.inodes[k := Some(InodeFor(entries, k))]
    requires EntryBlocks(entries, k) == 0 ==> v'.blockBits == v.blockBits && v'.blocks == v.blocks && k > 0
    requires EntryBlocks(entries, k) > 0 ==>
               && Start(entries, k) + EntryBlocks(entries, k) <= |v.blocks|
               && v'.blockBits == Marked(v.blockBits, Start(entries, k), EntryBlocks(entries, k), true)
               && Written(v.blocks, v'.blocks, entries, k, Start(entries, k), EntryBlocks(entries, k))
    ensures Holds(v', entries, k + 1)
  {
    forall j, o | 0 <= j < k + 1 && 0 <= o < EntryBlocks(entries, j) ensures BlockHolds(v', entries, j, o) {
      if j < k {
        assert BlockHolds(v, entries, j, o);
        StartGrows(entries, j, k);
      }
    }
    if k > 0 {
      StartGrows(entries, 0, k);
    }
  }

  lemma {:induction false} HoldsFree(v: Volume, v': Volume, entries: seq<Entry>)
    requires Holds(v, entries, |entries|) && v' == v.(free := v'.free)
    ensures Holds(v', entries, |entries|)
  {
    forall k, o | 0 <= k < |entries| && 0 <= o < EntryBlocks(entries, k) ensures BlockHolds(v', entries, k, o) {
      assert BlockHolds(v, entries, k, o);
    }
  }
}
