/** The consistency check of a volume (k64_xfs.c:1002-1105). */
module Check {
  import opened Bitmap
  import opened Blocks
  import FS = FileSystem

  const TYPE_REGULAR: nat := 1
  const TYPE_DIRECTORY: nat := 2
  const TYPE_PIPE: nat := 5

  datatype Super = Super(magicOk: bool, blockSize: nat, rootInode: nat, dataStart: nat, totalBlocks: nat, freeBlocks: nat)

  /** An inode record as it lies on the disk; only its magic, number and checksum are known to be right. */
  datatype Raw = Raw(kind: nat, extentCount: nat, extents: seq<FS.Extent>)

  /** What the check can see: the mounted superblock, the bitmaps (if they read), the inodes (those that read). */
  datatype Disk = Disk(sb: Super, inodeBits: Option<seq<bool>>, blockBits: Option<seq<bool>>, inodes: seq<Option<Raw>>)

  datatype Report = Report(ok: bool, errors: nat, usedInodes: nat, usedBlocks: nat, freeBlocks: nat)

  predicate Shape(d: Disk) {
    && |d.inodes| == FS.MAX_INODES && (d.inodeBits.Some? ==> |d.inodeBits.value| == FS.MAX_INODES)
    && (d.blockBits.Some? ==> |d.blockBits.value| == FS.MAX_BLOCKS) && d.sb.totalBlocks <= FS.MAX_BLOCKS
    && forall i :: 0 <= i < FS.MAX_INODES && d.inodes[i].Some? ==> |d.inodes[i].value.extents| == FS.DIRECT_EXTENTS
  }

  predicate SuperGood(s: Super) { s.magicOk && s.blockSize == BLOCK_SIZE && s.rootInode == 1 && s.dataStart < s.totalBlocks }

  predicate Readable(d: Disk) { Shape(d) && d.inodeBits.Some? && d.blockBits.Some? }

  predicate RootGood(d: Disk)
    requires Shape(d)
  {
    d.inodes[0].Some? && d.inodes[0].value.kind == TYPE_DIRECTORY
  }

  predicate Used(d: Disk, i: nat)
    requires Readable(d) && i < FS.MAX_INODES
  {
    d.inodeBits.value[i]
  }

  predicate FieldsGood(r: Raw) { TYPE_REGULAR <= r.kind <= TYPE_PIPE && r.extentCount <= FS.DIRECT_EXTENTS }

  predicate InodeGood(d: Disk, i: nat)
    requires Readable(d)
  {
    i < FS.MAX_INODES && Used(d, i) ==> d.inodes[i].Some? && FieldsGood(d.inodes[i].value)
  }

  // ---------------------------------------------------------------------------------------
  // Extents, numbered over the whole inode table: extent e of inode i at 8 * i + e
  // ---------------------------------------------------------------------------------------

  function Extents(r: Raw): nat { if r.extentCount < FS.DIRECT_EXTENTS then r.extentCount else FS.DIRECT_EXTENTS }

  function ExtentAt(d: Disk, p: nat): Option<FS.Extent>
    requires Readable(d)
  {
    var i, e := p / 8, p % 8;
    if i < FS.MAX_INODES && Used(d, i) && d.inodes[i].Some? && e < Extents(d.inodes[i].value) then Some(d.inodes[i].value.extents[e])
    else None
  }

  /** The superblock, the block bitmap and the extents of the table in order. */
  datatype View = View(sb: Super, bits: seq<bool>, extents: seq<Option<FS.Extent>>)

  function At(w: View, p: nat): Option<FS.Extent> { if p < |w.extents| then w.extents[p] else None }

  ghost function ViewOf(d: Disk): (w: View)
    requires Readable(d)
    ensures |w.extents| == 8 * FS.MAX_INODES && forall p :: 0 <= p < 8 * FS.MAX_INODES ==> At(w, p) == ExtentAt(d, p)
  {
    View(d.sb, d.blockBits.value, seq(8 * FS.MAX_INODES, p requires 0 <= p < 8 * FS.MAX_INODES => ExtentAt(d, p)))
  }

  predicate InRange(s: Super, x: FS.Extent) {
    x.count > 0 && s.dataStart <= x.physical && x.physical + x.count <= s.totalBlocks
  }

  predicate MarkedAll(bits: seq<bool>, x: FS.Extent) {
    forall b :: x.physical <= b < x.physical + x.count && b < |bits| ==> bits[b]
  }

  predicate ExtentGood(w: View, p: nat) {
    var x := At(w, p);
    x.Some? ==> InRange(w.sb, x.value) && MarkedAll(w.bits, x.value)
  }

  predicate Disjoint(x: FS.Extent, y: FS.Extent) { x.physical + x.count <= y.physical || y.physical + y.count <= x.physical }

  predicate Apart(w: View, p: nat, q: nat) {
    var x, y := At(w, p), At(w, q);
    x.Some? && y.Some? ==> Disjoint(x.value, y.value)
  }

  ghost predicate GoodUpTo(w: View, n: nat) {
    && (forall p :: 0 <= p < n ==> ExtentGood(w, p))
    && (forall p, q :: 0 <= p < q < n ==> Apart(w, p, q))
  }

  /** What the check promises about a volume it passes. */
  ghost predicate Healthy(d: Disk) {
    && SuperGood(d.sb) && Readable(d) && RootGood(d)
    && GoodInodes(d, FS.MAX_INODES) && GoodUpTo(ViewOf(d), 8 * FS.MAX_INODES)
    && d.sb.dataStart <= FS.MAX_BLOCKS
    && d.sb.freeBlocks == CountClear(d.blockBits.value, d.sb.dataStart, d.sb.totalBlocks)
  }

  // ---------------------------------------------------------------------------------------
  // The loops
  // ---------------------------------------------------------------------------------------

  /** Block b lies in an in-range extent before position n. */
  ghost predicate SeenBy(w: View, n: nat, b: nat) {
    exists p :: 0 <= p < n && At(w, p).Some? && InRange(w.sb, At(w, p).value) && FS.Covers(At(w, p).value, b)
  }

  ghost predicate SeenIs(w: View, n: nat, seen: seq<bool>) {
    |seen| == FS.MAX_BLOCKS && forall b :: 0 <= b < |seen| ==> (seen[b] <==> SeenBy(w, n, b))
  }

  /** One extent against the bitmap and the blocks seen so far. */
  method CheckBlocks(bits: seq<bool>, seen0: seq<bool>, x: FS.Extent) returns (seen: seq<bool>, errors: nat)
    requires |bits| == |seen0| && x.physical + x.count <= |bits|
    ensures seen == Marked(seen0, x.physical, x.count, true)
    ensures errors == 0 <==> MarkedAll(bits, x) && ClearRun(seen0, x.physical, x.count)
    ensures errors <= x.count
  {
    seen, errors := seen0, 0;
    for i := 0 to x.count
      invariant seen == Marked(seen0, x.physical, i, true) && errors <= i
      invariant errors == 0 <==> forall b :: x.physical <= b < x.physical + i ==> bits[b] && !seen0[b]
    {
      var b := x.physical + i;
      if !bits[b] {
        errors := errors + 1;
      } else if seen[b] {
        errors := errors + 1;
      }
      seen := seen[b := true];
    }
  }

  /** Seeing one more extent. */
  lemma {:induction false} SeenMore(w: View, n: nat, seen: seq<bool>)
    requires ViewFits(w) && SeenIs(w, n, seen)
    ensures var x := At(w, n);
            SeenIs(w, n + 1, if x.Some? && InRange(w.sb, x.value) then Marked(seen, x.value.physical, x.value.count, true) else seen)
  {
    var x := At(w, n);
    var seen' := if x.Some? && InRange(w.sb, x.value) then Marked(seen, x.value.physical, x.value.count, true) else seen;
    forall b | 0 <= b < |seen'| ensures seen'[b] <==> SeenBy(w, n + 1, b) {
      if SeenBy(w, n, b) {
        var p :| 0 <= p < n && At(w, p).Some? && InRange(w.sb, At(w, p).value) && FS.Covers(At(w, p).value, b);
        assert SeenBy(w, n + 1, b);
      }
      if x.Some? && InRange(w.sb, x.value) && FS.Covers(x.value, b) {
        assert SeenBy(w, n + 1, b);
      }
      if SeenBy(w, n + 1, b) && !SeenBy(w, n, b) {
        var p :| 0 <= p < n + 1 && At(w, p).Some? && InRange(w.sb, At(w, p).value) && FS.Covers(At(w, p).value, b);
        assert p == n;
      }
    }
  }

  /** The extent at n is good after the ones before it exactly when it is in range, marked and unseen. */
  lemma {:induction false} GoodMore(w: View, n: nat, seen: seq<bool>)
    requires ViewFits(w) && SeenIs(w, n, seen) && GoodUpTo(w, n) && At(w, n).Some?
    ensures var x := At(w, n).value;
            GoodUpTo(w, n + 1) <==> InRange(w.sb, x) && MarkedAll(w.bits, x) && ClearRun(seen, x.physical, x.count)
  {
    var x := At(w, n).value;
    if GoodUpTo(w, n + 1) {
      assert ExtentGood(w, n);
      forall p, b | 0 <= p < n && At(w, p).Some? && FS.Covers(x, b) ensures !FS.Covers(At(w, p).value, b) {
        assert Apart(w, p, n);
      }
      forall b | x.physical <= b < x.physical + x.count ensures !seen[b] {
        assert FS.Covers(x, b);
      }
    }
    if InRange(w.sb, x) && MarkedAll(w.bits, x) && ClearRun(seen, x.physical, x.count) {
      forall p | 0 <= p < n ensures Apart(w, p, n) {
        if At(w, p).Some? {
          var y := At(w, p).value;
          assert ExtentGood(w, p);
          var b := if y.physical < x.physical then x.physical else y.physical;
          assert FS.Covers(y, b) && FS.Covers(x, b) ==> SeenBy(w, n, b);
        }
      }
    }
  }

  lemma {:induction false} GoodSkip(w: View, n: nat, m: nat)
    requires n <= m && forall p :: n <= p < m ==> At(w, p) == None
    ensures GoodUpTo(w, m) <==> GoodUpTo(w, n)
    ensures forall seen :: SeenIs(w, n, seen) ==> SeenIs(w, m, seen)
  {
    forall p, q | 0 <= p < q < m && q >= n ensures Apart(w, p, q) {
      assert At(w, q) == None;
    }
    forall seen | SeenIs(w, n, seen) ensures SeenIs(w, m, seen) {
      forall b: nat ensures SeenBy(w, m, b) <==> SeenBy(w, n, b) {
        if SeenBy(w, n, b) {
          var p :| 0 <= p < n && At(w, p).Some? && InRange(w.sb, At(w, p).value) && FS.Covers(At(w, p).value, b);
          assert SeenBy(w, m, b);
        }
      }
    }
  }

  /** Blocks of the in-range extents before position n, counted with repetition. */
  function BlocksUpTo(w: View, n: nat): nat {
    if n == 0 then 0
    else
      var x := At(w, n - 1);
      BlocksUpTo(w, n - 1) + if x.Some? && InRange(w.sb, x.value) then x.value.count else 0
  }

  lemma {:induction false} BlocksSkip(w: View, n: nat, m: nat)
    requires n <= m && forall p :: n <= p < m ==> At(w, p) == None
    ensures BlocksUpTo(w, m) == BlocksUpTo(w, n)
  {
    if n < m {
      BlocksSkip(w, n, m - 1);
    }
  }

  ghost predicate ViewFits(w: View) { |w.bits| == FS.MAX_BLOCKS && w.sb.totalBlocks <= FS.MAX_BLOCKS }

  /** The extent at one position. */
  method CheckExtent(sb: Super, bits: seq<bool>, ghost w: View, ghost n: nat, x: FS.Extent, seen0: seq<bool>, blocks0: nat)
    returns (seen: seq<bool>, errors: nat, blocks: nat)
    requires w.sb == sb && w.bits == bits && ViewFits(w)
    requires At(w, n) == Some(x) && SeenIs(w, n, seen0) && blocks0 == BlocksUpTo(w, n)
    ensures SeenIs(w, n + 1, seen) && errors <= 32768 && blocks == BlocksUpTo(w, n + 1)
    ensures GoodUpTo(w, n) ==> (errors == 0 <==> GoodUpTo(w, n + 1))
    ensures GoodUpTo(w, n + 1) ==> GoodUpTo(w, n)
  {
    SeenMore(w, n, seen0);
    if GoodUpTo(w, n) {
      GoodMore(w, n, seen0);
    }
    if x.count == 0 || x.physical < sb.dataStart || x.physical + x.count > sb.totalBlocks {
      seen, errors, blocks := seen0, 1, blocks0;
    } else {
      seen, errors := CheckBlocks(bits, seen0, x);
      blocks := blocks0 + x.count;
    }
  }

  /** The extents of an inode whose first is at position `start`. */
  method CheckExtents(sb: Super, bits: seq<bool>, ghost w: View, ghost start: nat, extents: seq<FS.Extent>, seen0: seq<bool>, blocks0: nat)
    returns (seen: seq<bool>, errors: nat, blocks: nat)
    requires w.sb == sb && w.bits == bits && ViewFits(w) && |extents| <= 8
    requires forall p :: start <= p < start + |extents| ==> At(w, p) == Some(extents[p - start])
    requires forall p :: start + |extents| <= p < start + 8 ==> At(w, p) == None
    requires SeenIs(w, start, seen0) && blocks0 == BlocksUpTo(w, start)
    ensures SeenIs(w, start + 8, seen) && errors <= 262144 && blocks == BlocksUpTo(w, start + 8)
    ensures GoodUpTo(w, start) ==> (errors == 0 <==> GoodUpTo(w, start + 8))
  {
    seen, errors, blocks := seen0, 0, blocks0;
    for e := 0 to |extents|
      invariant SeenIs(w, start + e, seen) && errors <= e * 32768 && blocks == BlocksUpTo(w, start + e)
      invariant GoodUpTo(w, start) ==> (errors == 0 <==> GoodUpTo(w, start + e))
    {
      var more;
      seen, more, blocks := CheckExtent(sb, bits, w, start + e, extents[e], seen, blocks);
      errors := errors + more;
    }
    GoodSkip(w, start + |extents|, start + 8);
    BlocksSkip(w, start + |extents|, start + 8);
  }

  /** The positions of inode i. */
  lemma {:induction false} ExtentsHere(d: Disk, i: nat, p: nat)
    requires Readable(d) && i < FS.MAX_INODES && 8 * i <= p < 8 * i + 8
    ensures At(ViewOf(d), p) ==
              if Used(d, i) && d.inodes[i].Some? && p - 8 * i < Extents(d.inodes[i].value) then Some(d.inodes[i].value.extents[p - 8 * i])
              else None
  {
    assert p / 8 == i && p % 8 == p - 8 * i;
  }

  /** An inode that is unused or unreadable has no extents. */
  lemma {:induction false} SkipInode(d: Disk, i: nat)
    requires Readable(d) && i < FS.MAX_INODES && (!Used(d, i) || d.inodes[i].None?)
    ensures GoodUpTo(ViewOf(d), 8 * i + 8) <==> GoodUpTo(ViewOf(d), 8 * i)
    ensures forall seen :: SeenIs(ViewOf(d), 8 * i, seen) ==> SeenIs(ViewOf(d), 8 * i + 8, seen)
    ensures BlocksUpTo(ViewOf(d), 8 * i + 8) == BlocksUpTo(ViewOf(d), 8 * i)
  {
    var w, n := ViewOf(d), 8 * i;
    forall p | n <= p < n + 8 ensures At(w, p) == None {
      ExtentsHere(d, i, p);
    }
    GoodSkip(w, n, n + 8);
    BlocksSkip(w, n, n + 8);
  }

  lemma {:induction false} UsedInode(d: Disk, i: nat)
    requires Readable(d) && i < FS.MAX_INODES && Used(d, i) && d.inodes[i].Some?
    ensures var w, start, r := ViewOf(d), 8 * i, d.inodes[i].value;
            && (forall p :: start <= p < start + Extents(r) ==> At(w, p) == Some(r.extents[p - start]))
            && (forall p :: start + Extents(r) <= p < start + 8 ==> At(w, p) == None)
  {
    var w, start, r := ViewOf(d), 8 * i, d.inodes[i].value;
    forall p | start <= p < start + 8 ensures At(w, p) == if p - start < Extents(r) then Some(r.extents[p - start]) else None {
      ExtentsHere(d, i, p);
    }
  }

  ghost predicate GoodInodes(d: Disk, n: nat)
    requires Readable(d)
  {
    forall i :: 0 <= i < n ==> InodeGood(d, i)
  }

  /** One inode of the table. */
  method CheckInode(d: Disk, i: nat, seen0: seq<bool>, blocks0: nat) returns (seen: seq<bool>, errors: nat, blocks: nat)
    requires Readable(d) && i < FS.MAX_INODES && SeenIs(ViewOf(d), 8 * i, seen0) && blocks0 == BlocksUpTo(ViewOf(d), 8 * i)
    ensures SeenIs(ViewOf(d), 8 * (i + 1), seen) && errors <= 262145 && blocks == BlocksUpTo(ViewOf(d), 8 * (i + 1))
    ensures GoodUpTo(ViewOf(d), 8 * i) ==> (errors == 0 <==> InodeGood(d, i) && GoodUpTo(ViewOf(d), 8 * (i + 1)))
  {
    assert 8 * (i + 1) == 8 * i + 8;
    ghost var w := ViewOf(d);
    if !Used(d, i) || d.inodes[i].None? {
      SkipInode(d, i);
      return seen0, if Used(d, i) then 1 else 0, blocks0;
    }
    UsedInode(d, i);
    var r := d.inodes[i].value;
    seen, errors, blocks := CheckExtents(d.sb, d.blockBits.value, w, 8 * i, r.extents[..Extents(r)], seen0, blocks0);
    if r.kind < TYPE_REGULAR || r.kind > TYPE_PIPE || r.extentCount > FS.DIRECT_EXTENTS {
      errors := errors + 1;
    }
  }

  /** The errors counted over the first n inodes, of which each adds at most one per block and one of its own. */
  ghost predicate CheckedUpTo(d: Disk, n: nat, errors: nat)
    requires Readable(d)
  {
    errors <= n * 262145 && (errors == 0 <==> GoodInodes(d, n) && GoodUpTo(ViewOf(d), 8 * n))
  }

  lemma {:induction false} CheckedMore(d: Disk, i: nat, errors: nat, more: nat)
    requires Readable(d) && CheckedUpTo(d, i, errors) && more <= 262145
    requires GoodUpTo(ViewOf(d), 8 * i) ==> (more == 0 <==> InodeGood(d, i) && GoodUpTo(ViewOf(d), 8 * (i + 1)))
    ensures CheckedUpTo(d, i + 1, errors + more)
  {
    assert GoodInodes(d, i + 1) <==> GoodInodes(d, i) && InodeGood(d, i);
    assert GoodUpTo(ViewOf(d), 8 * (i + 1)) ==> GoodUpTo(ViewOf(d), 8 * i);
  }

  method CountFree(bits: seq<bool>, lo: nat, hi: nat) returns (free: nat)
    requires lo <= hi <= |bits|
    ensures free == CountClear(bits, lo, hi)
  {
    free := 0;
    for b := lo to hi
      invariant free == CountClear(bits, lo, b)
    {
      if !bits[b] {
        free := free + 1;
      }
    }
  }

  /** All inodes of the table. */
  method CheckInodes(d: Disk) returns (errors: nat, usedInodes: nat, usedBlocks: nat)
    requires Readable(d)
    ensures errors == 0 <==> GoodInodes(d, FS.MAX_INODES) && GoodUpTo(ViewOf(d), 8 * FS.MAX_INODES)
    ensures errors <= FS.MAX_INODES * 262145
    ensures usedInodes == FS.MAX_INODES - CountClear(d.inodeBits.value, 0, FS.MAX_INODES)
    ensures usedBlocks == BlocksUpTo(ViewOf(d), 8 * FS.MAX_INODES)
  {
    errors, usedInodes, usedBlocks := 0, 0, 0;
    var seen := seq(FS.MAX_BLOCKS, _ => false);
    for i := 0 to FS.MAX_INODES
      invariant CheckedUpTo(d, i, errors) && SeenIs(ViewOf(d), 8 * i, seen)
      invariant usedInodes == i - CountClear(d.inodeBits.value, 0, i) && usedBlocks == BlocksUpTo(ViewOf(d), 8 * i)
    {
      var more;
      seen, more, usedBlocks := CheckInode(d, i, seen, usedBlocks);
      CheckedMore(d, i, errors, more);
      errors := errors + more;
      if Used(d, i) {
        usedInodes := usedInodes + 1;
      }
    }
  }

  /** The check passes exactly the healthy volumes, and its 32-bit error count cannot wrap round to zero. */
  method CheckVolume(d: Disk) returns (r: Report)
    requires Shape(d)
    ensures r.ok <==> Healthy(d)
    ensures r.ok <==> r.errors == 0
    ensures r.errors < 0x1_0000_0000
    ensures r.ok ==> r.usedInodes == FS.MAX_INODES - CountClear(d.inodeBits.value, 0, FS.MAX_INODES)
    ensures r.ok ==> r.usedBlocks == BlocksUpTo(ViewOf(d), 8 * FS.MAX_INODES) && r.freeBlocks == d.sb.freeBlocks
  {
    if !d.sb.magicOk || d.sb.blockSize != BLOCK_SIZE || d.sb.rootInode != 1 || d.sb.dataStart >= d.sb.totalBlocks {
      return Report(false, 1, 0, 0, 0);
    }
    if d.inodeBits.None? || d.blockBits.None? {
      return Report(false, 1, 0, 0, 0);
    }
    var rootError: nat := if d.inodes[0].None? || d.inodes[0].value.kind != TYPE_DIRECTORY then 1 else 0;
    var errors, usedInodes, usedBlocks := CheckInodes(d);
    errors := errors + rootError;
    var free := CountFree(d.blockBits.value, d.sb.dataStart, d.sb.totalBlocks);
    if free != d.sb.freeBlocks {
      errors := errors + 1;
    }
    return Report(errors == 0, errors, usedInodes, usedBlocks, free);
  }

  // ---------------------------------------------------------------------------------------
  // Volumes that satisfy the structural invariant pass
  // ---------------------------------------------------------------------------------------

  const NO_EXTENT: FS.Extent := FS.Extent(0, 0, 0)

  /** An inode as its record on the disk: eight extent slots, the unused ones zero. */
  function RawInode(i: FS.Inode): (r: Raw)
    ensures |r.extents| == FS.DIRECT_EXTENTS && r.extentCount == |i.extents|
    ensures forall e :: 0 <= e < FS.DIRECT_EXTENTS && e < |i.extents| ==> r.extents[e] == i.extents[e]
  {
    Raw(if i.kind == FS.Regular then TYPE_REGULAR else TYPE_DIRECTORY, |i.extents|,
        seq(FS.DIRECT_EXTENTS, e requires 0 <= e => if e < |i.extents| then i.extents[e] else NO_EXTENT))
  }

  /** The bitmap block: the bits of the volume and clear bits after them. */
  function Padded(bits: seq<bool>): (r: seq<bool>)
    requires |bits| <= FS.MAX_BLOCKS
    ensures |r| == FS.MAX_BLOCKS && forall b :: 0 <= b < |bits| ==> r[b] == bits[b]
  {
    bits + seq(FS.MAX_BLOCKS - |bits|, _ => false)
  }

  /** The volume as the check sees it. */
  function DiskOf(v: FS.Volume): Disk
    requires FS.Geometry(v)
  {
    Disk(Super(true, BLOCK_SIZE, FS.ROOT, FS.DATA_START, |v.blocks|, v.free), Some(v.inodeBits), Some(Padded(v.blockBits)),
         seq(FS.MAX_INODES, i requires 0 <= i < FS.MAX_INODES => if v.inodes[i].Some? then Some(RawInode(v.inodes[i].value)) else None))
  }

  /** What an extent position of the volume holds. */
  lemma {:induction false} VolumeExtent(v: FS.Volume, p: nat)
    requires FS.Geometry(v) && FS.InodesGood(v) && p < 8 * FS.MAX_INODES && ExtentAt(DiskOf(v), p).Some?
    ensures var id := p / 8 + 1;
            FS.Live(v, id) && p % 8 < |FS.Ino(v, id).extents| && FS.Ino(v, id).extents[p % 8] == ExtentAt(DiskOf(v), p).value
  {
    var id := p / 8 + 1;
    assert FS.Live(v, id) && FS.GoodInode(v, id);
  }

  lemma {:induction false} VolumeExtentGood(v: FS.Volume, p: nat)
    requires FS.Geometry(v) && FS.InodesGood(v) && FS.OwnershipGood(v) && p < 8 * FS.MAX_INODES
    ensures ExtentGood(ViewOf(DiskOf(v)), p)
  {
    var w := ViewOf(DiskOf(v));
    if At(w, p).Some? {
      VolumeExtent(v, p);
      var id, x := p / 8 + 1, At(w, p).value;
      assert FS.GoodInode(v, id);
      forall b | x.physical <= b < x.physical + x.count ensures w.bits[b] {
        assert FS.Owns(v, id, p % 8, b);
      }
    }
  }

  lemma {:induction false} VolumeExtentsApart(v: FS.Volume, p: nat, q: nat)
    requires FS.Geometry(v) && FS.InodesGood(v) && FS.OwnershipGood(v) && p < q < 8 * FS.MAX_INODES
    ensures Apart(ViewOf(DiskOf(v)), p, q)
  {
    var w := ViewOf(DiskOf(v));
    if At(w, p).Some? && At(w, q).Some? {
      VolumeExtent(v, p);
      VolumeExtent(v, q);
      var x, y := At(w, p).value, At(w, q).value;
      var i, j, b := p / 8 + 1, q / 8 + 1, if x.physical < y.physical then y.physical else x.physical;
      assert FS.GoodInode(v, i) && FS.GoodInode(v, j);
      assert FS.Covers(x, b) && FS.Covers(y, b) ==> FS.Owns(v, i, p % 8, b) && FS.Owns(v, j, q % 8, b);
      assert p / 8 == q / 8 && p % 8 == q % 8 ==> p == q;
    }
  }

  /** Every volume the file operations leave behind passes the check. */
  lemma {:induction false} InvariantIsHealthy(v: FS.Volume)
    requires FS.Inv(v)
    ensures Shape(DiskOf(v)) && Healthy(DiskOf(v))
  {
    var d := DiskOf(v);
    var w := ViewOf(d);
    forall i | 0 <= i < FS.MAX_INODES ensures InodeGood(d, i) {
      if Used(d, i) {
        assert FS.Live(v, i + 1) && FS.GoodInode(v, i + 1);
      }
    }
    assert FS.Live(v, FS.ROOT);
    forall p | 0 <= p < 8 * FS.MAX_INODES ensures ExtentGood(w, p) {
      VolumeExtentGood(v, p);
    }
    forall p, q | 0 <= p < q < 8 * FS.MAX_INODES ensures Apart(w, p, q) {
      VolumeExtentsApart(v, p, q);
    }
    CountSame(v.blockBits, d.blockBits.value, FS.DATA_START, |v.blocks|);
  }
}
