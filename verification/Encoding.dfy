/** The metadata blocks of a volume, and what a list of block writes makes of them (k64_xfs_format.h, k64_xfs.c:91-230). */
module Encoding {
  import opened Blocks
  import opened FileSystem
  import Cache

  const INODE_BITMAP: nat := 1
  const BLOCK_BITMAP: nat := 2
  const JOURNAL_START: nat := 3
  const INODE_TABLE: nat := JOURNAL_START + JOURNAL_BLOCKS
  const INODES_PER_BLOCK: nat := 11

  const WIDTH16: nat := 0x1_0000
  const WIDTH32: nat := 0x1_0000_0000
  const WIDTH64: nat := 0x1_0000_0000_0000_0000

  // ---------------------------------------------------------------------------------------
  // What a record can hold
  // ---------------------------------------------------------------------------------------

  function StoredExtents(x: seq<Extent>): (r: seq<Extent>)
    ensures |r| == if |x| < DIRECT_EXTENTS then |x| else DIRECT_EXTENTS
  {
    seq(if |x| < DIRECT_EXTENTS then |x| else DIRECT_EXTENTS,
        k requires 0 <= k < |x| => Extent(x[k].logical % WIDTH64, x[k].physical % WIDTH64, x[k].count % WIDTH64))
  }

  /** An inode with every field cut to its width on the disk. */
  function Stored(i: Inode): Inode {
    Inode(i.id % WIDTH32, i.kind, i.mode % WIDTH16, i.uid % WIDTH32, i.gid % WIDTH32, i.size % WIDTH64, i.modified % WIDTH64,
          StoredExtents(i.extents))
  }

  function StoredRecord(r: Option<Inode>): Option<Inode> { if r.None? then None else Some(Stored(r.value)) }

  function AllStored(a: seq<Option<Inode>>): (r: seq<Option<Inode>>)
    ensures |r| == |a| && forall k :: 0 <= k < |a| ==> r[k] == StoredRecord(a[k])
  {
    seq(|a|, k requires 0 <= k < |a| => StoredRecord(a[k]))
  }

  /** The fields are within their widths, as the types of the code keep them. */
  predicate FitsRecord(i: Inode) {
    && i.id < WIDTH32 && i.mode < WIDTH16 && i.uid < WIDTH32 && i.gid < WIDTH32 && i.size < WIDTH64 && i.modified < WIDTH64
    && |i.extents| <= DIRECT_EXTENTS
    && forall k :: 0 <= k < |i.extents| ==> i.extents[k].logical < WIDTH64 && i.extents[k].physical < WIDTH64 && i.extents[k].count < WIDTH64
  }

  lemma {:induction false} StoredExactly(i: Inode)
    ensures Stored(i) == i <==> FitsRecord(i)
  {
    if FitsRecord(i) {
      assert StoredExtents(i.extents) == i.extents;
    }
    if Stored(i) == i {
      forall k | 0 <= k < |i.extents|
        ensures i.extents[k].logical < WIDTH64 && i.extents[k].physical < WIDTH64 && i.extents[k].count < WIDTH64
      {
        assert StoredExtents(i.extents)[k] == i.extents[k];
      }
    }
  }

  // ---------------------------------------------------------------------------------------
  // Layouts
  // ---------------------------------------------------------------------------------------

  /**
   * How bitmaps, inodes and the contents of data blocks become blocks and are read back.  The number beside the inodes stands
   * for what their records hold besides the modelled fields.
   */
  datatype Layout = Layout(
    writeBits: seq<bool> -> Block, readBits: Block -> seq<bool>,
    writeInodes: (seq<Option<Inode>>, nat) -> Block, readInodes: Block -> seq<Option<Inode>>,
    writeContent: Content -> Block)

  /** What is written is read back, up to the widths of the fields. */
  ghost predicate Lawful(l: Layout) {
    (forall b :: ReadsWhole(l, b)) && (forall a :: BitsComeBack(l, a)) && (forall a, s :: InodesComeBack(l, a, s))
  }

  predicate ReadsWhole(l: Layout, b: Block) { |l.readBits(b)| == MAX_BLOCKS && |l.readInodes(b)| == INODES_PER_BLOCK }

  predicate BitsComeBack(l: Layout, a: seq<bool>) { |a| <= MAX_BLOCKS ==> ReadsBits(l, l.writeBits(a), a) }

  predicate InodesComeBack(l: Layout, a: seq<Option<Inode>>, s: nat) { |a| <= INODES_PER_BLOCK ==> ReadsInodes(l, l.writeInodes(a, s), a) }

  predicate ReadsBits(l: Layout, block: Block, a: seq<bool>) { |a| <= |l.readBits(block)| && l.readBits(block)[..|a|] == a }

  predicate ReadsInodes(l: Layout, block: Block, a: seq<Option<Inode>>) {
    |a| <= |l.readInodes(block)| && l.readInodes(block)[..|a|] == AllStored(a)
  }

  // ---------------------------------------------------------------------------------------
  // The metadata blocks
  // ---------------------------------------------------------------------------------------

  /** The blocks the journal protects: bitmaps and inode table. */
  predicate Meta(b: int) { b == INODE_BITMAP || b == BLOCK_BITMAP || INODE_TABLE <= b < DATA_START }

  function InodeBlock(id: nat): nat
    requires 1 <= id <= MAX_INODES
  {
    INODE_TABLE + (id - 1) / INODES_PER_BLOCK
  }

  /** The inodes that share block b of the inode table; the last block is not full. */
  function InodesIn(v: Volume, b: int): (a: seq<Option<Inode>>)
    ensures |a| <= INODES_PER_BLOCK
  {
    var lo := (b - INODE_TABLE) * INODES_PER_BLOCK;
    var hi := if lo + INODES_PER_BLOCK < MAX_INODES then lo + INODES_PER_BLOCK else MAX_INODES;
    if 0 <= lo <= hi <= |v.inodes| then v.inodes[lo..hi] else []
  }

  /** The contents of metadata block b of the volume; `s` is as in Layout. */
  function MetaBlock(l: Layout, v: Volume, b: int, s: nat): Block {
    if b == INODE_BITMAP then l.writeBits(v.inodeBits)
    else if b == BLOCK_BITMAP then l.writeBits(v.blockBits)
    else l.writeInodes(InodesIn(v, b), s)
  }

  /** What is read from the block is that part of the volume's metadata. */
  predicate Encodes(l: Layout, v: Volume, b: int, block: Block) {
    if b == INODE_BITMAP then ReadsBits(l, block, v.inodeBits)
    else if b == BLOCK_BITMAP then ReadsBits(l, block, v.blockBits)
    else ReadsInodes(l, block, InodesIn(v, b))
  }

  lemma {:induction false} WrittenEncodes(l: Layout, v: Volume, b: int, s: nat)
    requires Lawful(l) && (b == INODE_BITMAP || b == BLOCK_BITMAP ==> Geometry(v))
    ensures Encodes(l, v, b, MetaBlock(l, v, b, s))
  {
    assert BitsComeBack(l, v.inodeBits) && BitsComeBack(l, v.blockBits) && InodesComeBack(l, InodesIn(v, b), s);
  }

  /** Read from these blocks, the bitmaps and the inode table are those of the volume. */
  ghost predicate ReadsAs(l: Layout, blocks: seq<Block>, v: Volume)
    requires Geometry(v)
  {
    && DATA_START <= |blocks| && ReadsBits(l, blocks[INODE_BITMAP], v.inodeBits) && ReadsBits(l, blocks[BLOCK_BITMAP], v.blockBits)
    && forall k :: 0 <= k < MAX_INODES ==> ReadsInode(l, blocks, v, k)
  }

  ghost predicate ReadsInode(l: Layout, blocks: seq<Block>, v: Volume, k: int)
    requires Geometry(v) && DATA_START <= |blocks| && 0 <= k < MAX_INODES
  {
    var read := l.readInodes(blocks[InodeBlock(k + 1)]);
    k % INODES_PER_BLOCK < |read| && read[k % INODES_PER_BLOCK] == StoredRecord(v.inodes[k])
  }

  lemma {:induction false} EncodedReads(l: Layout, blocks: seq<Block>, v: Volume)
    requires Geometry(v) && DATA_START <= |blocks| && forall b: nat :: Meta(b) ==> Encodes(l, v, b, blocks[b])
    ensures ReadsAs(l, blocks, v)
  {
    assert Encodes(l, v, INODE_BITMAP, blocks[INODE_BITMAP]) && Encodes(l, v, BLOCK_BITMAP, blocks[BLOCK_BITMAP]);
    forall k | 0 <= k < MAX_INODES ensures ReadsInode(l, blocks, v, k) {
      var b := InodeBlock(k + 1);
      assert Encodes(l, v, b, blocks[b]);
      InodePlace(v, k);
      var n := |InodesIn(v, b)|;
      assert l.readInodes(blocks[b])[..n][k % INODES_PER_BLOCK] == AllStored(InodesIn(v, b))[k % INODES_PER_BLOCK];
    }
  }

  lemma {:induction false} InodePlace(v: Volume, k: nat)
    requires |v.inodes| == MAX_INODES && k < MAX_INODES
    ensures k % INODES_PER_BLOCK < |InodesIn(v, InodeBlock(k + 1))|
    ensures InodesIn(v, InodeBlock(k + 1))[k % INODES_PER_BLOCK] == v.inodes[k] && Meta(InodeBlock(k + 1))
  {
    assert k == k / INODES_PER_BLOCK * INODES_PER_BLOCK + k % INODES_PER_BLOCK;
  }

  // ---------------------------------------------------------------------------------------
  // Block writes
  // ---------------------------------------------------------------------------------------

  /** What block b holds after the writes, if it held `before`. */
  function LastWritten(log: seq<Cache.Op>, b: int, before: Block): Block {
    if log == [] then before
    else
      var op := log[|log| - 1];
      if op.WriteOp? && op.b == b then op.data else LastWritten(log[..|log| - 1], b, before)
  }

  /** How many of the writes are to metadata. */
  function MetaWrites(log: seq<Cache.Op>): (n: nat)
    ensures n <= |log|
  {
    if log == [] then 0
    else MetaWrites(log[..|log| - 1]) + if log[|log| - 1].WriteOp? && log[|log| - 1].b < DATA_START then 1 else 0
  }

  /** The writes, n to metadata and p to data, turn blocks that hold the metadata of one volume into blocks that hold the other's. */
  ghost predicate Mirrors(l: Layout, base: Volume, log: seq<Cache.Op>, v: Volume, n: nat, p: nat) {
    forall b :: MirrorsAt(l, base, log, v, n, p, b)
  }

  /** For block b, and for write number b. */
  ghost predicate MirrorsAt(l: Layout, base: Volume, log: seq<Cache.Op>, v: Volume, n: nat, p: nat, b: int) {
    && |v.blocks| == |base.blocks| && MetaWrites(log) == n && |log| == n + p
    && (Meta(b) ==> forall before :: Encodes(l, base, b, before) ==> Encodes(l, v, b, LastWritten(log, b, before)))
    && (0 <= b < |log| ==> Outside(log[b], |v.blocks|))
  }

  /** They stay out of the journal and on the volume. */
  lemma {:induction false} MirrorsOutside(l: Layout, base: Volume, log: seq<Cache.Op>, v: Volume, n: nat, p: nat)
    requires Mirrors(l, base, log, v, n, p)
    ensures |v.blocks| == |base.blocks| && MetaWrites(log) == n && |log| == n + p && forall k :: 0 <= k < |log| ==> Outside(log[k], |v.blocks|)
  {
    assert MirrorsAt(l, base, log, v, n, p, 0);
    forall k | 0 <= k < |log| ensures Outside(log[k], |v.blocks|) {
      assert MirrorsAt(l, base, log, v, n, p, k);
    }
  }

  /** The count of free blocks is in the superblock, which the journal leaves alone. */
  lemma {:induction false} FreeIsOutside(l: Layout, base: Volume, log: seq<Cache.Op>, v: Volume, n: nat, p: nat, free: nat)
    requires Mirrors(l, base, log, v, n, p)
    ensures Mirrors(l, base, log, v.(free := free), n, p)
  {
    forall b ensures MirrorsAt(l, base, log, v.(free := free), n, p, b) {
      assert MirrorsAt(l, base, log, v, n, p, b);
      assert InodesIn(v.(free := free), b) == InodesIn(v, b);
    }
  }

  lemma {:induction false} NothingMirrors(l: Layout, v: Volume)
    ensures Mirrors(l, v, [], v, 0, 0)
  {
  }

  predicate Outside(op: Cache.Op, n: nat) { op.WriteOp? && (Meta(op.b) || DATA_START <= op.b < n) }

  /** v and w agree on all metadata blocks but perhaps b. */
  ghost predicate SameBut(v: Volume, w: Volume, b: int) {
    && |w.blocks| == |v.blocks|
    && (b != INODE_BITMAP ==> w.inodeBits == v.inodeBits)
    && (b != BLOCK_BITMAP ==> w.blockBits == v.blockBits)
    && (forall c :: INODE_TABLE <= c < DATA_START && c != b ==> InodesIn(w, c) == InodesIn(v, c))
  }

  lemma {:induction false} OneWriteMore(l: Layout, base: Volume, log: seq<Cache.Op>, v: Volume, n: nat, p: nat, w: Volume, b: nat, data: Block)
    requires Mirrors(l, base, log, v, n, p) && SameBut(v, w, b) && Outside(Cache.WriteOp(b, data), |v.blocks|)
    requires Meta(b) ==> Encodes(l, w, b, data)
    ensures Meta(b) ==> Mirrors(l, base, log + [Cache.WriteOp(b, data)], w, n + 1, p)
    ensures !Meta(b) ==> Mirrors(l, base, log + [Cache.WriteOp(b, data)], w, n, p + 1)
  {
    var more, n', p' := log + [Cache.WriteOp(b, data)], if Meta(b) then n + 1 else n, if Meta(b) then p else p + 1;
    assert more[..|log|] == log;
    forall c ensures MirrorsAt(l, base, more, w, n', p', c) {
      assert MirrorsAt(l, base, log, v, n, p, c);
    }
  }

  /** An inode changes only its own block of the table. */
  lemma {:induction false} InodeChangesOne(v: Volume, id: nat, i: Option<Inode>)
    requires |v.inodes| == MAX_INODES && 1 <= id <= MAX_INODES
    ensures Meta(InodeBlock(id)) && SameBut(v, v.(inodes := v.inodes[id - 1 := i]), InodeBlock(id))
  {
    var w := v.(inodes := v.inodes[id - 1 := i]);
    forall c | INODE_TABLE <= c < DATA_START && c != InodeBlock(id) ensures InodesIn(w, c) == InodesIn(v, c) {
      var lo := (c - INODE_TABLE) * INODES_PER_BLOCK;
      assert !(lo <= id - 1 < lo + INODES_PER_BLOCK) by {
        InWhichBlock(id - 1, c - INODE_TABLE);
      }
    }
  }

  lemma {:induction false} InWhichBlock(k: nat, c: int)
    ensures c * INODES_PER_BLOCK <= k < c * INODES_PER_BLOCK + INODES_PER_BLOCK ==> k / INODES_PER_BLOCK == c
  {
  }
}
