/**
 * The byte layout of bitmaps and inode records (k64_xfs_format.h:32-60, k64_xfs.c:79-142), for any checksum function: what is
 * written is read back.
 */
module InodeLayout {
  import opened Blocks
  import opened FileSystem
  import opened Encoding
  import opened JournalLayout

  const INODE_MAGIC: nat := 0x58494E4F
  const RECORD: nat := 372

  // ---------------------------------------------------------------------------------------
  // Numbers
  // ---------------------------------------------------------------------------------------

  lemma {:induction false} LittleOne(v: nat, n: nat)
    requires n > 0
    ensures Value(Little(v, n)) == v % 256 + 256 * Value(Little(v / 256, n - 1))
  {
    assert Little(v, n)[1..] == Little(v / 256, n - 1);
  }

  lemma {:induction false} Arith16(v: nat, v1: nat, v2: nat, d0: nat, d1: nat)
    requires v == 256 * v1 + d0 && v1 == 256 * v2 + d1 && d0 < 256 && d1 < 256
    ensures v % WIDTH16 == d0 + 256 * d1
  {
    assert v == v2 * WIDTH16 + (d0 + 256 * d1);
  }

  lemma {:induction false} Arith64(v: nat, v2: nat, v4: nat, v8: nat, w0: nat, w1: nat, x: nat)
    requires v == WIDTH16 * v2 + w0 && v2 == WIDTH16 * v4 + w1 && v4 == WIDTH32 * v8 + x && w0 < WIDTH16 && w1 < WIDTH16 && x < WIDTH32
    ensures v % WIDTH64 == w0 + WIDTH16 * (w1 + WIDTH16 * x)
  {
    assert v == v8 * WIDTH64 + (w0 + WIDTH16 * (w1 + WIDTH16 * x));
  }

  /** A number that is too wide loses its upper bytes. */
  lemma {:induction false} Cut2(v: nat)
    ensures Value(Little(v, 2)) == v % WIDTH16
  {
    LittleOne(v, 2);
    LittleOne(v / 256, 1);
    assert Little(v / 256 / 256, 0) == [];
    Arith16(v, v / 256, v / 256 / 256, v % 256, v / 256 % 256);
  }

  /** The two lowest bytes and the rest. */
  lemma {:induction false} LittleTwo(v: nat, n: nat)
    requires n > 1
    ensures Value(Little(v, n)) == v % WIDTH16 + WIDTH16 * Value(Little(v / WIDTH16, n - 2))
  {
    LittleOne(v, n);
    LittleOne(v / 256, n - 1);
    Arith16(v, v / 256, v / 256 / 256, v % 256, v / 256 % 256);
    assert v / 256 / 256 == v / WIDTH16;
  }

  lemma {:induction false} Cut4(v: nat)
    ensures Value(Little(v, 4)) == v % WIDTH32
  {
    LittleTwo(v, 4);
    Cut2(v / WIDTH16);
    Halves(v, v / WIDTH16, v % WIDTH16);
  }

  lemma {:induction false} Halves(v: nat, u: nat, w: nat)
    requires v == WIDTH16 * u + w && w < WIDTH16
    ensures v % WIDTH32 == w + WIDTH16 * (u % WIDTH16)
  {
    assert v == (u / WIDTH16) * WIDTH32 + (w + WIDTH16 * (u % WIDTH16));
  }

  lemma {:induction false} Cut8(v: nat)
    ensures Value(Little(v, 8)) == v % WIDTH64
  {
    var u := v / WIDTH16;
    LittleTwo(v, 8);
    LittleTwo(u, 6);
    Cut4(u / WIDTH16);
    Arith64(v, u, u / WIDTH16, u / WIDTH16 / WIDTH32, v % WIDTH16, u % WIDTH16, u / WIDTH16 % WIDTH32);
  }

  lemma {:induction false} TwoBytes(b: seq<Byte>, v: nat)
    requires b == Little(v, 2)
    ensures Value(b) == v % WIDTH16
  {
    Cut2(v);
  }

  lemma {:induction false} FourBytes(b: seq<Byte>, v: nat)
    requires b == Little(v, 4)
    ensures Value(b) == v % WIDTH32
  {
    Cut4(v);
  }

  lemma {:induction false} EightBytes(b: seq<Byte>, v: nat)
    requires b == Little(v, 8)
    ensures Value(b) == v % WIDTH64
  {
    Cut8(v);
  }

  lemma SliceLeft(a: seq<Byte>, b: seq<Byte>, i: nat, j: nat)
    requires i <= j <= |a|
    ensures (a + b)[i..j] == a[i..j]
  {
  }

  lemma SliceRight(a: seq<Byte>, b: seq<Byte>, i: nat, j: nat)
    requires i == |a| && j == i + |b|
    ensures (a + b)[i..j] == b
  {
  }

  // ---------------------------------------------------------------------------------------
  // Extents
  // ---------------------------------------------------------------------------------------

  function ExtentBytes(x: Extent): (b: seq<Byte>)
    ensures |b| == 32
  {
    Little(x.logical, 8) + Little(x.physical, 8) + Little(x.count, 8) + Little(0, 8)
  }

  lemma Pieces(a: seq<Byte>, b: seq<Byte>, c: seq<Byte>, d: seq<Byte>)
    ensures var s := a + b + c + d;
            s[0..|a|] == a && s[|a|..|a| + |b|] == b && s[|a| + |b|..|a| + |b| + |c|] == c && s[|a| + |b| + |c|..] == d
  {
  }

  function ReadExtent(b: seq<Byte>): Extent
    requires |b| == 32
  {
    Extent(Value(b[0..8]), Value(b[8..16]), Value(b[16..24]))
  }

  lemma {:induction false} ExtentRoundTrip(x: Extent)
    ensures ReadExtent(ExtentBytes(x)) == Extent(x.logical % WIDTH64, x.physical % WIDTH64, x.count % WIDTH64)
  {
    Pieces(Little(x.logical, 8), Little(x.physical, 8), Little(x.count, 8), Little(0, 8));
    var b := ExtentBytes(x);
    EightBytes(b[0..8], x.logical);
    EightBytes(b[8..16], x.physical);
    EightBytes(b[16..24], x.count);
  }

  /** The first n of eight extent slots; those behind the list are zero. */
  function ExtentSlots(x: seq<Extent>, n: nat): (b: seq<Byte>)
    ensures |b| == 32 * n
  {
    if n == 0 then [] else ExtentSlots(x, n - 1) + ExtentBytes(if n <= |x| then x[n - 1] else Extent(0, 0, 0))
  }

  lemma {:induction false} SlotBytes(x: seq<Extent>, n: nat, k: nat)
    requires k < n && k < |x|
    ensures ExtentSlots(x, n)[32 * k..32 * k + 32] == ExtentBytes(x[k])
    decreases n
  {
    var b, last := ExtentSlots(x, n - 1), ExtentBytes(if n <= |x| then x[n - 1] else Extent(0, 0, 0));
    assert ExtentSlots(x, n) == b + last && |b| == 32 * (n - 1);
    if k < n - 1 {
      SlotBytes(x, n - 1, k);
      SliceLeft(b, last, 32 * k, 32 * k + 32);
    } else {
      SliceRight(b, last, 32 * k, 32 * k + 32);
    }
  }

  function ReadExtents(b: seq<Byte>, n: nat): (x: seq<Extent>)
    requires |b| == 256
    ensures |x| == if n < DIRECT_EXTENTS then n else DIRECT_EXTENTS
  {
    seq(if n < DIRECT_EXTENTS then n else DIRECT_EXTENTS, k requires 0 <= k < DIRECT_EXTENTS => ReadExtent(b[32 * k..32 * k + 32]))
  }

  lemma {:induction false} ExtentsRoundTrip(x: seq<Extent>)
    ensures ReadExtents(ExtentSlots(x, DIRECT_EXTENTS), |StoredExtents(x)|) == StoredExtents(x)
  {
    forall k | 0 <= k < |StoredExtents(x)|
      ensures ReadExtents(ExtentSlots(x, DIRECT_EXTENTS), |StoredExtents(x)|)[k] == StoredExtents(x)[k]
    {
      SlotBytes(x, DIRECT_EXTENTS, k);
      ExtentRoundTrip(x[k]);
    }
  }

  // ---------------------------------------------------------------------------------------
  // Inode records
  // ---------------------------------------------------------------------------------------

  function TypeOf(kind: Kind): nat { if kind == Regular then 1 else 2 }

  /** The first 28 bytes: magic, number, type, mode, owners, size. */
  function Front(i: Inode): (b: seq<Byte>)
    ensures |b| == 28
  {
    Little(INODE_MAGIC, 4) + Little(i.id, 4) + Little(TypeOf(i.kind), 2) + Little(i.mode, 2) + Little(i.uid, 4) + Little(i.gid, 4) + Little(i.size, 8)
  }

  /** Links, flags, the four ticks, the number of extents; s gives the ones that are not modelled. */
  function Middle(i: Inode, s: nat): (b: seq<Byte>)
    ensures |b| == 48
  {
    Little(1, 4) + Little(0, 4) + Little(s, 8) + Little(i.modified, 8) + Little(s, 8) + Little(s, 8) + Little(|StoredExtents(i.extents)|, 4) + Little(0, 4)
  }

  /** All before the checksum. */
  function Body(i: Inode, s: nat): (b: seq<Byte>)
    ensures |b| == 340
  {
    Front(i) + Middle(i, s) + ExtentSlots(i.extents, DIRECT_EXTENTS) + Little(0, 8)
  }

  function Zeros(n: nat): (b: seq<Byte>)
    ensures |b| == n
  {
    seq(n, _ => 0)
  }

  /** An unreadable record is written as zeros. */
  function RecordBytes(crc: Crc, r: Option<Inode>, s: nat): (b: seq<Byte>)
    ensures |b| == RECORD
  {
    if r.None? then Zeros(RECORD)
    else Body(r.value, s) + Little(crc(Body(r.value, s) + Zeros(32)), 4) + Zeros(28)
  }

  datatype FrontFields = FrontFields(magic: nat, id: nat, kind: nat, mode: nat, uid: nat, gid: nat, size: nat)

  function ReadFront(b: seq<Byte>): FrontFields
    requires |b| == 28
  {
    FrontFields(Value(b[0..4]), Value(b[4..8]), Value(b[8..10]), Value(b[10..12]), Value(b[12..16]), Value(b[16..20]), Value(b[20..28]))
  }

  datatype MiddleFields = MiddleFields(modified: nat, extents: nat)

  function ReadMiddle(b: seq<Byte>): MiddleFields
    requires |b| == 48
  {
    MiddleFields(Value(b[16..24]), Value(b[40..44]))
  }

  /** A record whose magic and checksum are right and whose type is one of the two that are modelled. */
  function ReadRecord(crc: Crc, b: seq<Byte>): Option<Inode>
    requires |b| == RECORD
  {
    var f, m := ReadFront(b[..28]), ReadMiddle(b[28..76]);
    if f.magic != INODE_MAGIC || Value(b[340..344]) != crc(b[..340] + Zeros(4) + b[344..]) || (f.kind != 1 && f.kind != 2) then None
    else Some(Inode(f.id, if f.kind == 1 then Regular else Directory, f.mode, f.uid, f.gid, f.size, m.modified, ReadExtents(b[76..332], m.extents)))
  }

  lemma {:induction false} FrontParts(i: Inode)
    ensures var b := Front(i);
            && b[0..4] == Little(INODE_MAGIC, 4) && b[4..8] == Little(i.id, 4) && b[8..10] == Little(TypeOf(i.kind), 2) && b[10..12] == Little(i.mode, 2)
            && b[12..16] == Little(i.uid, 4) && b[16..20] == Little(i.gid, 4) && b[20..28] == Little(i.size, 8)
  {
    var p := Little(INODE_MAGIC, 4) + Little(i.id, 4) + Little(TypeOf(i.kind), 2) + Little(i.mode, 2);
    var q := Little(i.uid, 4) + Little(i.gid, 4) + Little(i.size, 8);
    assert Front(i) == p + q;
    Pieces(Little(INODE_MAGIC, 4), Little(i.id, 4), Little(TypeOf(i.kind), 2), Little(i.mode, 2));
    Pieces(p, Little(i.uid, 4), Little(i.gid, 4), Little(i.size, 8));
    SliceLeft(p, q, 0, 4);
    SliceLeft(p, q, 4, 8);
    SliceLeft(p, q, 8, 10);
    SliceLeft(p, q, 10, 12);
  }

  lemma {:induction false} FrontRoundTrip(i: Inode)
    ensures ReadFront(Front(i)) ==
              FrontFields(INODE_MAGIC, i.id % WIDTH32, TypeOf(i.kind), i.mode % WIDTH16, i.uid % WIDTH32, i.gid % WIDTH32, i.size % WIDTH64)
  {
    FrontParts(i);
    MagicFrom(Front(i), i.id);
    NumbersFrom(Front(i), TypeOf(i.kind), i.mode);
    OwnersFrom(Front(i), i.uid, i.gid, i.size);
  }

  lemma {:induction false} MagicFrom(b: seq<Byte>, id: nat)
    requires |b| == 28 && b[0..4] == Little(INODE_MAGIC, 4) && b[4..8] == Little(id, 4)
    ensures ReadFront(b).magic == INODE_MAGIC && ReadFront(b).id == id % WIDTH32
  {
    FourBytes(b[0..4], INODE_MAGIC);
    FourBytes(b[4..8], id);
  }

  lemma {:induction false} NumbersFrom(b: seq<Byte>, kind: nat, mode: nat)
    requires |b| == 28 && b[8..10] == Little(kind, 2) && b[10..12] == Little(mode, 2) && kind < WIDTH16
    ensures ReadFront(b).kind == kind && ReadFront(b).mode == mode % WIDTH16
  {
    TwoBytes(b[8..10], kind);
    TwoBytes(b[10..12], mode);
  }

  lemma {:induction false} OwnersFrom(b: seq<Byte>, uid: nat, gid: nat, size: nat)
    requires |b| == 28 && b[12..16] == Little(uid, 4) && b[16..20] == Little(gid, 4) && b[20..28] == Little(size, 8)
    ensures var f := ReadFront(b); f.uid == uid % WIDTH32 && f.gid == gid % WIDTH32 && f.size == size % WIDTH64
  {
    FourBytes(b[12..16], uid);
    FourBytes(b[16..20], gid);
    EightBytes(b[20..28], size);
  }

  lemma {:induction false} MiddleParts(i: Inode, s: nat)
    ensures Middle(i, s)[16..24] == Little(i.modified, 8) && Middle(i, s)[40..44] == Little(|StoredExtents(i.extents)|, 4)
  {
    var p, q := Little(1, 4) + Little(0, 4) + Little(s, 8), Little(s, 8) + Little(s, 8);
    var m, n, z := Little(i.modified, 8), Little(|StoredExtents(i.extents)|, 4), Little(0, 4);
    assert Middle(i, s) == (p + m + q + n) + z;
    Pieces(p, m, q, n);
    SliceLeft(p + m + q + n, z, 16, 24);
    SliceLeft(p + m + q + n, z, 40, 44);
  }

  lemma {:induction false} MiddleRoundTrip(i: Inode, s: nat)
    ensures ReadMiddle(Middle(i, s)) == MiddleFields(i.modified % WIDTH64, |StoredExtents(i.extents)|)
  {
    MiddleParts(i, s);
    EightBytes(Middle(i, s)[16..24], i.modified);
    FourBytes(Middle(i, s)[40..44], |StoredExtents(i.extents)|);
  }

  lemma {:induction false} RecordParts(crc: Crc, i: Inode, s: nat)
    ensures var b := RecordBytes(crc, Some(i), s);
            && b[..28] == Front(i) && b[28..76] == Middle(i, s) && b[76..332] == ExtentSlots(i.extents, DIRECT_EXTENTS)
            && b[..340] + Zeros(4) + b[344..] == Body(i, s) + Zeros(32) && b[340..344] == Little(crc(Body(i, s) + Zeros(32)), 4)
  {
    var b, body, sum := RecordBytes(crc, Some(i), s), Body(i, s), Little(crc(Body(i, s) + Zeros(32)), 4);
    Pieces(body, sum, Zeros(28), []);
    assert b == body + sum + Zeros(28) + [];
    assert b[..340] == body && b[344..] == Zeros(28) && body + Zeros(4) + Zeros(28) == body + Zeros(32);
    Pieces(Front(i), Middle(i, s), ExtentSlots(i.extents, DIRECT_EXTENTS), Little(0, 8));
    assert b == body + (sum + Zeros(28));
    SliceLeft(body, sum + Zeros(28), 0, 28);
    SliceLeft(body, sum + Zeros(28), 28, 76);
    SliceLeft(body, sum + Zeros(28), 76, 332);
  }

  /** A record reads back as written, whatever the fields that are not modelled. */
  lemma {:induction false} RecordRoundTrip(crc: Crc, r: Option<Inode>, s: nat)
    ensures ReadRecord(crc, RecordBytes(crc, r, s)) == StoredRecord(r)
  {
    if r.None? {
      ZeroRecord(crc);
    } else {
      var b, i := RecordBytes(crc, r, s), r.value;
      RecordParts(crc, i, s);
      ChecksumHolds(crc, i, s);
      FrontRoundTrip(i);
      MiddleRoundTrip(i, s);
      ExtentsRoundTrip(i.extents);
      ReadFromParts(crc, b, ReadFront(Front(i)), ReadMiddle(Middle(i, s)), StoredExtents(i.extents));
    }
  }

  lemma {:induction false} ChecksumHolds(crc: Crc, i: Inode, s: nat)
    ensures var b := RecordBytes(crc, Some(i), s); Value(b[340..344]) == crc(b[..340] + Zeros(4) + b[344..])
  {
    var whole := Body(i, s) + Zeros(32);
    RecordParts(crc, i, s);
    SumRoundTrip(crc, whole);
  }

  lemma {:induction false} SumRoundTrip(crc: Crc, whole: seq<Byte>)
    ensures Value(Little(crc(whole), 4)) == crc(whole)
  {
    Cut4(crc(whole));
  }

  lemma {:induction false} ReadFromParts(crc: Crc, b: seq<Byte>, f: FrontFields, m: MiddleFields, x: seq<Extent>)
    requires |b| == RECORD && ReadFront(b[..28]) == f && ReadMiddle(b[28..76]) == m && ReadExtents(b[76..332], m.extents) == x
    requires f.magic == INODE_MAGIC && (f.kind == 1 || f.kind == 2) && Value(b[340..344]) == crc(b[..340] + Zeros(4) + b[344..])
    ensures ReadRecord(crc, b) == Some(Inode(f.id, if f.kind == 1 then Regular else Directory, f.mode, f.uid, f.gid, f.size, m.modified, x))
  {
  }

  lemma {:induction false} ZeroRecord(crc: Crc)
    ensures ReadRecord(crc, Zeros(RECORD)) == None
  {
    assert Zeros(RECORD)[..28][0..4] == [0, 0, 0, 0];
    assert Value([0, 0, 0, 0]) == 0 by {
      assert [0, 0, 0, 0][1..] == [0, 0, 0] && [0, 0, 0][1..] == [0, 0] && [0, 0][1..] == [0] && [0][1..] == [];
    }
  }

  // ---------------------------------------------------------------------------------------
  // Blocks of the inode table
  // ---------------------------------------------------------------------------------------

  /** The first n records of a block. */
  function Records(crc: Crc, a: seq<Option<Inode>>, s: nat, n: nat): (b: seq<Byte>)
    ensures |b| == RECORD * n
  {
    if n == 0 then [] else Records(crc, a, s, n - 1) + RecordBytes(crc, if n <= |a| then a[n - 1] else None, s)
  }

  function WriteInodes(crc: Crc, a: seq<Option<Inode>>, s: nat): Block { Records(crc, a, s, INODES_PER_BLOCK) + Zeros(4) }

  function ReadInodes(crc: Crc, b: Block): (a: seq<Option<Inode>>)
    ensures |a| == INODES_PER_BLOCK
  {
    seq(INODES_PER_BLOCK, k requires 0 <= k < INODES_PER_BLOCK => ReadRecord(crc, b[RECORD * k..RECORD * k + RECORD]))
  }

  lemma {:induction false} RecordAt(crc: Crc, a: seq<Option<Inode>>, s: nat, n: nat, k: nat)
    requires k < n && k < |a|
    ensures Records(crc, a, s, n)[RECORD * k..RECORD * k + RECORD] == RecordBytes(crc, a[k], s)
    decreases n
  {
    var b, last := Records(crc, a, s, n - 1), RecordBytes(crc, if n <= |a| then a[n - 1] else None, s);
    assert Records(crc, a, s, n) == b + last && |b| == RECORD * (n - 1);
    if k < n - 1 {
      RecordAt(crc, a, s, n - 1, k);
      SliceLeft(b, last, RECORD * k, RECORD * k + RECORD);
    } else {
      SliceRight(b, last, RECORD * k, RECORD * k + RECORD);
    }
  }

  lemma {:induction false} InodesRoundTrip(crc: Crc, a: seq<Option<Inode>>, s: nat)
    requires |a| <= INODES_PER_BLOCK
    ensures ReadInodes(crc, WriteInodes(crc, a, s))[..|a|] == AllStored(a)
  {
    var read := ReadInodes(crc, WriteInodes(crc, a, s));
    forall k | 0 <= k < |a| ensures read[k] == StoredRecord(a[k]) {
      InodeRoundTrip(crc, a, s, k);
    }
  }

  lemma {:induction false} InodeRoundTrip(crc: Crc, a: seq<Option<Inode>>, s: nat, k: nat)
    requires k < |a| <= INODES_PER_BLOCK
    ensures ReadInodes(crc, WriteInodes(crc, a, s))[k] == StoredRecord(a[k])
  {
    var block, records := WriteInodes(crc, a, s), Records(crc, a, s, INODES_PER_BLOCK);
    RecordAt(crc, a, s, INODES_PER_BLOCK, k);
    SliceLeft(records, Zeros(4), RECORD * k, RECORD * k + RECORD);
    RecordRoundTrip(crc, a[k], s);
  }

  // ---------------------------------------------------------------------------------------
  // Bitmaps
  // ---------------------------------------------------------------------------------------

  /** Bit number k counts from the lowest of byte k / 8; bits behind the end are clear. */
  function BitAt(a: seq<bool>, k: nat): nat { if k < |a| && a[k] then 1 else 0 }

  function Pow2(n: nat): nat { if n == 0 then 1 else 2 * Pow2(n - 1) }

  /** The n bits from number k on as a number, the first one lowest. */
  function BitsFrom(a: seq<bool>, k: nat, n: nat): (v: nat)
    ensures v < Pow2(n)
    decreases n
  {
    if n == 0 then 0 else BitAt(a, k) + 2 * BitsFrom(a, k + 1, n - 1)
  }

  function GetBit(v: nat, j: nat): bool { if j == 0 then v % 2 == 1 else GetBit(v / 2, j - 1) }

  lemma {:induction false} GetBitOf(a: seq<bool>, k: nat, n: nat, j: nat)
    requires j < n
    ensures GetBit(BitsFrom(a, k, n), j) <==> BitAt(a, k + j) == 1
    decreases n
  {
    if j > 0 {
      GetBitOf(a, k + 1, n - 1, j - 1);
    }
  }

  function ByteAt(a: seq<bool>, k: nat): Byte {
    assert Pow2(8) == 256 by {
      assert Pow2(4) == 16;
    }
    BitsFrom(a, k, 8)
  }

  function WriteBits(a: seq<bool>): Block { seq(BLOCK_SIZE, k requires 0 <= k => ByteAt(a, 8 * k)) }

  function ReadBits(b: Block): (a: seq<bool>)
    ensures |a| == MAX_BLOCKS
  {
    seq(MAX_BLOCKS, k requires 0 <= k < MAX_BLOCKS => GetBit(b[k / 8], k % 8))
  }

  lemma {:induction false} BitsRoundTrip(a: seq<bool>)
    requires |a| <= MAX_BLOCKS
    ensures ReadBits(WriteBits(a))[..|a|] == a
  {
    forall k | 0 <= k < |a| ensures ReadBits(WriteBits(a))[k] == a[k] {
      assert 8 * (k / 8) + k % 8 == k;
      GetBitOf(a, 8 * (k / 8), 8, k % 8);
    }
  }

  /** The layout of the disk, with any checksum, is one the guarantees about metadata hold for. */
  function DiskLayout(crc: Crc, content: Content -> Block): Layout {
    Layout((a: seq<bool>) => WriteBits(a), (b: Block) => ReadBits(b),
           (a: seq<Option<Inode>>, s: nat) => WriteInodes(crc, a, s), (b: Block) => ReadInodes(crc, b), content)
  }

  lemma {:induction false} DiskLayoutIsLawful(crc: Crc, content: Content -> Block)
    ensures Encoding.Lawful(DiskLayout(crc, content))
  {
    var l := DiskLayout(crc, content);
    forall a ensures BitsComeBack(l, a) {
      if |a| <= MAX_BLOCKS {
        BitsRoundTrip(a);
      }
    }
    forall a, s ensures InodesComeBack(l, a, s) {
      if |a| <= INODES_PER_BLOCK {
        InodesRoundTrip(crc, a, s);
      }
    }
  }
}
