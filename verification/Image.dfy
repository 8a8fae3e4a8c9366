/** What the image builder is asked to lay out and what a finished image looks like (tools/mk_k64xfs.py). */
module Image {
  import opened Bitmap
  import opened Blocks
  import opened FileSystem

  /** A file or directory of the tree, under the components of its path. */
  datatype Entry = Entry(path: seq<string>, kind: Kind, data: seq<Byte>, mode: nat)

  function Parent(path: seq<string>): seq<string>
    requires path != []
  {
    path[..|path| - 1]
  }

  function Name(path: seq<string>): string
    requires path != []
  {
    path[|path| - 1]
  }

  predicate ChildOf(entries: seq<Entry>, c: nat, d: nat)
    requires c < |entries| && d < |entries|
  {
    entries[c].path != [] && Parent(entries[c].path) == entries[d].path
  }

  ghost predicate HasParent(entries: seq<Entry>, c: nat)
    requires c < |entries|
  {
    exists d :: 0 <= d < |entries| && entries[d].kind == Directory && ChildOf(entries, c, d)
  }

  /** A tree as collected from a directory: the root first, every path once and below a directory. */
  ghost predicate Tree(entries: seq<Entry>) {
    && entries != [] && entries[0].path == [] && entries[0].kind == Directory
    && ParentsThere(entries) && PathsDiffer(entries)
    && (forall c :: 0 < c < |entries| && entries[c].path != [] ==> Name(entries[c].path) != "." && Name(entries[c].path) != "..")
  }

  ghost predicate ParentsThere(entries: seq<Entry>) {
    forall c :: 0 < c < |entries| ==> HasParent(entries, c)
  }

  ghost predicate PathsDiffer(entries: seq<Entry>) {
    forall c, d :: 0 <= c < |entries| && 0 <= d < |entries| ==> SamePathSame(entries, c, d)
  }

  ghost predicate SamePathSame(entries: seq<Entry>, c: nat, d: nat)
    requires c < |entries| && d < |entries|
  {
    entries[c].path == entries[d].path ==> c == d
  }

  /** What the builder refuses: too many entries, a bad name, a directory of more than eight blocks. */
  ghost predicate Encodable(entries: seq<Entry>) {
    && |entries| <= MAX_INODES
    && (forall c :: 0 <= c < |entries| && entries[c].path != [] ==> 0 < |Name(entries[c].path)| < NAME_MAX)
    && (forall d :: 0 <= d < |entries| && entries[d].kind == Directory ==> EntryBlocks(entries, d) <= DIRECT_EXTENTS)
  }

  // ---------------------------------------------------------------------------------------
  // Directory entries
  // ---------------------------------------------------------------------------------------

  /** The entries of directory d among the first n, in order; entry c has inode c + 1. */
  function Dents(entries: seq<Entry>, d: nat, n: nat): seq<Dirent>
    requires d < |entries| && n <= |entries|
  {
    if n == 0 then []
    else
      var r := Dents(entries, d, n - 1);
      if ChildOf(entries, n - 1, d) then r + [Dirent(n, entries[n - 1].kind, Name(entries[n - 1].path))] else r
  }

  /** Each is the entry of a child, and they come in the order of the tree. */
  lemma {:induction false} DentsAre(entries: seq<Entry>, d: nat, n: nat, x: nat)
    requires d < |entries| && n <= |entries| && x < |Dents(entries, d, n)|
    ensures var e := Dents(entries, d, n)[x];
            && e.Dirent? && 1 <= e.id <= n && ChildOf(entries, e.id - 1, d)
            && e == Dirent(e.id, entries[e.id - 1].kind, Name(entries[e.id - 1].path))
    ensures forall y :: 0 <= y < x ==> Dents(entries, d, n)[y].Dirent? && Dents(entries, d, n)[y].id < Dents(entries, d, n)[x].id
  {
    var r := Dents(entries, d, n - 1);
    if x < |r| {
      DentsAre(entries, d, n - 1, x);
    } else {
      forall y | 0 <= y < x ensures r[y].Dirent? && r[y].id < n {
        DentsAre(entries, d, n - 1, y);
      }
    }
  }

  lemma {:induction false} DentsHave(entries: seq<Entry>, d: nat, n: nat, c: nat) returns (x: nat)
    requires d < |entries| && c < n <= |entries| && ChildOf(entries, c, d)
    ensures x < |Dents(entries, d, n)| && Dents(entries, d, n)[x] == Dirent(c + 1, entries[c].kind, Name(entries[c].path))
  {
    if c == n - 1 {
      x := |Dents(entries, d, n - 1)|;
    } else {
      x := DentsHave(entries, d, n - 1, c);
    }
  }

  // ---------------------------------------------------------------------------------------
  // The layout
  // ---------------------------------------------------------------------------------------

  function CeilDiv(a: nat, b: nat): nat
    requires b > 0
  {
    (a + b - 1) / b
  }

  function EntryBlocks(entries: seq<Entry>, k: nat): nat
    requires k < |entries|
  {
    if entries[k].kind == Directory then
      var n := CeilDiv(|Dents(entries, k, |entries|)|, DIRENTS_PER_BLOCK); if n == 0 then 1 else n
    else CeilDiv(|entries[k].data|, BLOCK_SIZE)
  }

  /** The first block of entry k: one entry after the other from the start of the data area. */
  function Start(entries: seq<Entry>, k: nat): nat
    requires k <= |entries|
  {
    if k == 0 then DATA_START else Start(entries, k - 1) + EntryBlocks(entries, k - 1)
  }

  lemma {:induction false} StartGrows(entries: seq<Entry>, j: nat, k: nat)
    requires j < k <= |entries|
    ensures DATA_START <= Start(entries, j) && Start(entries, j) + EntryBlocks(entries, j) <= Start(entries, k)
  {
    if j + 1 < k {
      StartGrows(entries, j, k - 1);
    } else if j > 0 {
      StartGrows(entries, j - 1, j);
    }
  }

  /** An entry takes as many blocks as its bytes or its children need, a directory at least one, and no more. */
  lemma {:induction false} NothingWasted(entries: seq<Entry>, k: nat)
    requires k < |entries|
    ensures var n := EntryBlocks(entries, k);
            if entries[k].kind == Regular then |entries[k].data| <= n * 4096 && (n > 0 ==> (n - 1) * 4096 < |entries[k].data|)
            else n >= 1 && |Dents(entries, k, |entries|)| <= n * DIRENTS_PER_BLOCK && (n > 1 ==> (n - 1) * DIRENTS_PER_BLOCK < |Dents(entries, k, |entries|)|)
  {
    CeilDivIs(|entries[k].data|, BLOCK_SIZE);
    CeilDivIs(|Dents(entries, k, |entries|)|, DIRENTS_PER_BLOCK);
  }

  lemma {:induction false} CeilDivIs(a: nat, b: nat)
    requires b > 0
    ensures a <= CeilDiv(a, b) * b && (a > 0 ==> CeilDiv(a, b) > 0) && (CeilDiv(a, b) > 0 ==> (CeilDiv(a, b) - 1) * b < a)
  {
    var n := a + b - 1;
    var q, r := n / b, n % b;
    assert n == q * b + r && 0 <= r < b;
    assert (q - 1) * b == q * b - b;
    if q == 0 {
      assert q * b == 0;
    }
  }

  /** Slot s of block o of a directory. */
  function SlotFor(entries: seq<Entry>, d: nat, o: nat, s: nat): Dirent
    requires d < |entries|
  {
    var dents := Dents(entries, d, |entries|);
    if o * DIRENTS_PER_BLOCK + s < |dents| then dents[o * DIRENTS_PER_BLOCK + s] else Free
  }

  function ByteFor(data: seq<Byte>, j: int): Byte { if 0 <= j < |data| then data[j] else 0 }

  /** Block o of entry k. */
  predicate ContentIs(entries: seq<Entry>, k: nat, o: nat, c: Content)
    requires k < |entries|
  {
    if entries[k].kind == Directory then
      c.Dir? && |c.slots| == DIRENTS_PER_BLOCK && forall s :: 0 <= s < DIRENTS_PER_BLOCK ==> c.slots[s] == SlotFor(entries, k, o, s)
    else c.Data? && forall j :: 0 <= j < BLOCK_SIZE ==> c.bytes[j] == ByteFor(entries[k].data, o * BLOCK_SIZE + j)
  }

  function ExtentsFor(entries: seq<Entry>, k: nat): (x: seq<Extent>)
    requires k < |entries|
    ensures entries[k].kind == Directory ==> |x| == EntryBlocks(entries, k)
    ensures entries[k].kind == Directory ==> forall e :: 0 <= e < |x| ==> x[e] == Extent(e, Start(entries, k) + e, 1)
  {
    var start, n := Start(entries, k), EntryBlocks(entries, k);
    if entries[k].kind == Directory then seq(n, e requires 0 <= e => Extent(e, start + e, 1))
    else if n == 0 then [] else [Extent(0, start, n)]
  }

  function InodeFor(entries: seq<Entry>, k: nat): Inode
    requires k < |entries|
  {
    var e := entries[k];
    Inode(k + 1, e.kind, e.mode % 0x1_0000, 0, 0, if e.kind == Directory then EntryBlocks(entries, k) * BLOCK_SIZE else |e.data|,
          k + 1, ExtentsFor(entries, k))
  }

  /** A volume that holds the first n entries of the tree; the inode bits are set for all. */
  ghost predicate Holds(v: Volume, entries: seq<Entry>, n: nat)
    requires n <= |entries|
  {
    && |entries| <= MAX_INODES == |v.inodeBits| == |v.inodes| && |v.blockBits| == |v.blocks|
    && (n > 0 ==> Start(entries, n) <= |v.blocks|)
    && (forall i :: 0 <= i < MAX_INODES ==> (v.inodeBits[i] <==> i < |entries|))
    && (forall i :: 0 <= i < MAX_INODES ==> v.inodes[i] == if i < n then Some(InodeFor(entries, i)) else None)
    && BitsSet(v, Start(entries, n)) && RestEmpty(v, Start(entries, n)) && BlocksHold(v, entries, n)
  }

  ghost predicate BitsSet(v: Volume, end: nat) {
    |v.blockBits| == |v.blocks| && forall b :: 0 <= b < |v.blocks| ==> (v.blockBits[b] <==> b < end)
  }

  ghost predicate RestEmpty(v: Volume, end: nat) {
    forall b :: 0 <= b < |v.blocks| && (b < DATA_START || b >= end) ==> v.blocks[b] == Data(ZeroBlock())
  }

  ghost predicate BlocksHold(v: Volume, entries: seq<Entry>, n: nat)
    requires n <= |entries|
  {
    forall k, o :: 0 <= k < n && 0 <= o < EntryBlocks(entries, k) ==> BlockHolds(v, entries, k, o)
  }

  /** Exactly the inodes of the entries are in use. */
  ghost predicate InodesAre(v: Volume, entries: seq<Entry>) {
    && Geometry(v) && (forall id :: Live(v, id) ==> 1 <= id <= |entries| && Ino(v, id) == InodeFor(entries, id - 1))
    && (forall id :: 1 <= id <= |entries| ==> Live(v, id))
  }

  ghost predicate BlockHolds(v: Volume, entries: seq<Entry>, k: nat, o: nat)
    requires k < |entries|
  {
    Start(entries, k) + o < |v.blocks| && ContentIs(entries, k, o, v.blocks[Start(entries, k) + o])
  }

  /** The finished volume. */
  ghost predicate Built(v: Volume, entries: seq<Entry>) {
    && Tree(entries) && Encodable(entries) && Holds(v, entries, |entries|) && |v.blocks| <= MAX_BLOCKS
    && v.free == CountClear(v.blockBits, DATA_START, |v.blockBits|)
  }

  // ---------------------------------------------------------------------------------------
  // A finished volume satisfies the structural invariant
  // ---------------------------------------------------------------------------------------

  lemma {:induction false} BuiltGeometry(v: Volume, entries: seq<Entry>)
    requires Built(v, entries)
    ensures InodesAre(v, entries)
  {
    StartGrows(entries, 0, |entries|);
    assert EntryBlocks(entries, 0) >= 1;
    forall id | 1 <= id <= |entries| ensures Live(v, id) && Ino(v, id) == InodeFor(entries, id - 1) {
      assert v.inodeBits[id - 1] && v.inodes[id - 1] == Some(InodeFor(entries, id - 1));
    }
  }

  /** The blocks of an entry's extents are those of its run. */
  lemma {:induction false} ExtentsCover(entries: seq<Entry>, k: nat, e: nat, b: int)
    requires k < |entries| && e < |ExtentsFor(entries, k)| && Covers(ExtentsFor(entries, k)[e], b)
    ensures Start(entries, k) <= b < Start(entries, k) + EntryBlocks(entries, k)
    ensures entries[k].kind == Directory ==> b == Start(entries, k) + e
    ensures entries[k].kind == Regular ==> e == 0
  {
  }

  lemma {:induction false} BuiltInodes(v: Volume, entries: seq<Entry>)
    requires InodesAre(v, entries) && Start(entries, |entries|) <= |v.blocks| && |entries| > 0 && entries[0].kind == Directory
    requires forall i :: 0 <= i < MAX_INODES && v.inodeBits[i] ==> i < |entries|
    requires forall d :: 0 <= d < |entries| && entries[d].kind == Directory ==> EntryBlocks(entries, d) <= DIRECT_EXTENTS
    ensures InodesGood(v)
  {
    forall id | Live(v, id) ensures GoodInode(v, id) {
      StartGrows(entries, id - 1, |entries|);
    }
    assert Live(v, ROOT);
  }

  lemma {:induction false} OwnedRange(v: Volume, entries: seq<Entry>, i: int, e: int, b: int)
    requires InodesAre(v, entries) && Owns(v, i, e, b)
    ensures 1 <= i <= |entries| && 0 <= e < |ExtentsFor(entries, i - 1)| && Covers(ExtentsFor(entries, i - 1)[e], b)
    ensures Start(entries, i - 1) <= b < Start(entries, i - 1) + EntryBlocks(entries, i - 1) <= Start(entries, |entries|)
    ensures e == if entries[i - 1].kind == Directory then b - Start(entries, i - 1) else 0
  {
    ExtentsCover(entries, i - 1, e, b);
    StartGrows(entries, i - 1, |entries|);
  }

  lemma {:induction false} BuiltOwnership(v: Volume, entries: seq<Entry>)
    requires InodesAre(v, entries) && BitsSet(v, Start(entries, |entries|))
    ensures OwnershipGood(v)
  {
    forall i, e, b | Owns(v, i, e, b) && 0 <= b < |v.blocks| ensures v.blockBits[b] {
      OwnedRange(v, entries, i, e, b);
    }
    forall i, e, j, f, b | Owns(v, i, e, b) && Owns(v, j, f, b) ensures i == j && e == f {
      OwnersEqual(v, entries, i, e, j, f, b);
    }
  }

  lemma {:induction false} OwnersEqual(v: Volume, entries: seq<Entry>, i: int, e: int, j: int, f: int, b: int)
    requires InodesAre(v, entries) && Owns(v, i, e, b) && Owns(v, j, f, b)
    ensures i == j && e == f
  {
    OwnedRange(v, entries, i, e, b);
    OwnedRange(v, entries, j, f, b);
    OneOwner(entries, i - 1, j - 1, b);
  }

  lemma {:induction false} OneOwner(entries: seq<Entry>, i: nat, j: nat, b: int)
    requires i < |entries| && j < |entries|
    requires Start(entries, i) <= b < Start(entries, i) + EntryBlocks(entries, i)
    requires Start(entries, j) <= b < Start(entries, j) + EntryBlocks(entries, j)
    ensures i == j
  {
    if i < j {
      StartGrows(entries, i, j);
    } else if j < i {
      StartGrows(entries, j, i);
    }
  }

  lemma {:induction false} BuiltBlock(v: Volume, entries: seq<Entry>, k: nat, b: int)
    requires BlocksHold(v, entries, |entries|) && k < |entries| && Start(entries, k) <= b < Start(entries, k) + EntryBlocks(entries, k)
    ensures 0 <= b < |v.blocks| && ContentIs(entries, k, b - Start(entries, k), v.blocks[b])
  {
    assert BlockHolds(v, entries, k, b - Start(entries, k));
  }

  /** Every data block in use belongs to some entry. */
  lemma {:induction false} EntryOf(entries: seq<Entry>, n: nat, b: nat) returns (k: nat)
    requires n <= |entries| && DATA_START <= b < Start(entries, n)
    ensures k < n && Start(entries, k) <= b < Start(entries, k) + EntryBlocks(entries, k)
  {
    if b >= Start(entries, n - 1) {
      k := n - 1;
    } else {
      k := EntryOf(entries, n - 1, b);
    }
  }

  lemma {:induction false} BuiltContents(v: Volume, entries: seq<Entry>)
    requires InodesAre(v, entries) && BlocksHold(v, entries, |entries|) && RestEmpty(v, Start(entries, |entries|))
    ensures ContentsGood(v)
  {
    forall id, e, b | Owns(v, id, e, b) && 0 <= b < |v.blocks| ensures v.blocks[b].Dir? == (Ino(v, id).kind == Directory) {
      OwnedRange(v, entries, id, e, b);
      BuiltBlock(v, entries, id - 1, b);
    }
    forall b | 0 <= b < |v.blocks| && v.blocks[b].Dir? ensures |v.blocks[b].slots| == DIRENTS_PER_BLOCK {
      if DATA_START <= b < Start(entries, |entries|) {
        var k := EntryOf(entries, |entries|, b);
        BuiltBlock(v, entries, k, b);
      }
    }
  }

  /** Block k of directory `dir` holds the entries from 25 * k on. */
  lemma {:induction false} SlotIs(v: Volume, entries: seq<Entry>, dir: int, k: int, s: int)
    requires InodesAre(v, entries) && BlocksHold(v, entries, |entries|) && 1 <= dir <= |entries| && entries[dir - 1].kind == Directory
    requires 0 <= k < EntryBlocks(entries, dir - 1) && 0 <= s < DIRENTS_PER_BLOCK
    ensures Live(v, dir) && k < |Ino(v, dir).extents| && SlotAt(v, dir, k, s) == SlotFor(entries, dir - 1, k, s)
  {
    assert Live(v, dir);
    BuiltBlock(v, entries, dir - 1, Start(entries, dir - 1) + k);
  }

  /** An entry of a directory is the entry of a child, at a place its number determines. */
  lemma {:induction false} AtIsDent(v: Volume, entries: seq<Entry>, dir: int, k: int, s: int, e: Dirent)
    requires InodesAre(v, entries) && BlocksHold(v, entries, |entries|) && At(v, dir, k, s, e)
    ensures 1 <= dir <= |entries| && entries[dir - 1].kind == Directory
    ensures var dents, x := Dents(entries, dir - 1, |entries|), k * DIRENTS_PER_BLOCK + s;
            && x < |dents| && dents[x] == e && 1 <= e.id <= |entries| && ChildOf(entries, e.id - 1, dir - 1)
            && e == Dirent(e.id, entries[e.id - 1].kind, Name(entries[e.id - 1].path))
  {
    SlotIs(v, entries, dir, k, s);
    DentsAre(entries, dir - 1, |entries|, k * DIRENTS_PER_BLOCK + s);
  }

  /** Every child has its entry. */
  lemma {:induction false} DentIsAt(v: Volume, entries: seq<Entry>, d: nat, c: nat) returns (k: nat, s: nat)
    requires InodesAre(v, entries) && BlocksHold(v, entries, |entries|)
    requires d < |entries| && c < |entries| && entries[d].kind == Directory && ChildOf(entries, c, d)
    ensures At(v, d + 1, k, s, Dirent(c + 1, entries[c].kind, Name(entries[c].path)))
  {
    var x := DentsHave(entries, d, |entries|, c);
    k, s := x / DIRENTS_PER_BLOCK, x % DIRENTS_PER_BLOCK;
    assert x == k * DIRENTS_PER_BLOCK + s;
    assert k < CeilDiv(|Dents(entries, d, |entries|)|, DIRENTS_PER_BLOCK);
    SlotIs(v, entries, d + 1, k, s);
  }

  lemma {:induction false} SamePlace(entries: seq<Entry>, d: nat, x: nat, y: nat)
    requires d < |entries| && x < |Dents(entries, d, |entries|)| && y < |Dents(entries, d, |entries|)|
    requires Dents(entries, d, |entries|)[x] == Dents(entries, d, |entries|)[y]
    ensures x == y
  {
    DentsAre(entries, d, |entries|, x);
    DentsAre(entries, d, |entries|, y);
  }

  lemma {:induction false} SameChild(entries: seq<Entry>, a: nat, b: nat, d: nat)
    requires PathsDiffer(entries) && a < |entries| && b < |entries| && d < |entries| && ChildOf(entries, a, d) && ChildOf(entries, b, d)
    requires Name(entries[a].path) == Name(entries[b].path)
    ensures a == b
  {
    assert entries[a].path == Parent(entries[a].path) + [Name(entries[a].path)];
    assert entries[b].path == Parent(entries[b].path) + [Name(entries[b].path)];
    assert SamePathSame(entries, a, b);
  }

  lemma {:induction false} PlaceDigits(k: int, s: int, k': int, s': int)
    requires 0 <= s < DIRENTS_PER_BLOCK && 0 <= s' < DIRENTS_PER_BLOCK && k * DIRENTS_PER_BLOCK + s == k' * DIRENTS_PER_BLOCK + s'
    ensures k == k' && s == s'
  {
  }

  lemma {:induction false} OnePlace(v: Volume, entries: seq<Entry>, dir: int, k: int, s: int, e: Dirent, k': int, s': int, e': Dirent)
    requires InodesAre(v, entries) && BlocksHold(v, entries, |entries|) && PathsDiffer(entries)
    requires At(v, dir, k, s, e) && At(v, dir, k', s', e') && (e.name == e'.name || e.id == e'.id)
    ensures k == k' && s == s'
  {
    AtIsDent(v, entries, dir, k, s, e);
    AtIsDent(v, entries, dir, k', s', e');
    if e.name == e'.name {
      SameChild(entries, e.id - 1, e'.id - 1, dir - 1);
    }
    SamePlace(entries, dir - 1, k * DIRENTS_PER_BLOCK + s, k' * DIRENTS_PER_BLOCK + s');
    PlaceDigits(k, s, k', s');
  }

  lemma {:induction false} OneDirectory(v: Volume, entries: seq<Entry>, dir: int, k: int, s: int, e: Dirent, dir': int, k': int, s': int, e': Dirent)
    requires InodesAre(v, entries) && BlocksHold(v, entries, |entries|) && PathsDiffer(entries)
    requires At(v, dir, k, s, e) && At(v, dir', k', s', e') && e.id == e'.id
    ensures dir == dir'
  {
    AtIsDent(v, entries, dir, k, s, e);
    AtIsDent(v, entries, dir', k', s', e');
    assert SamePathSame(entries, dir - 1, dir' - 1);
  }

  lemma {:induction false} BuiltNames(v: Volume, entries: seq<Entry>)
    requires PathsDiffer(entries) && InodesAre(v, entries) && BlocksHold(v, entries, |entries|)
    ensures NamesUnique(v)
  {
    forall dir, k, s, e, k', s', e' | At(v, dir, k, s, e) && At(v, dir, k', s', e') && e.name == e'.name ensures k == k' && s == s' {
      OnePlace(v, entries, dir, k, s, e, k', s', e');
    }
  }

  lemma {:induction false} BuiltLinks(v: Volume, entries: seq<Entry>)
    requires PathsDiffer(entries) && InodesAre(v, entries) && BlocksHold(v, entries, |entries|)
    ensures LinksUnique(v)
  {
    forall dir, k, s, e, dir', k', s', e' | At(v, dir, k, s, e) && At(v, dir', k', s', e') && e.id == e'.id
      ensures dir == dir' && k == k' && s == s'
    {
      OneDirectory(v, entries, dir, k, s, e, dir', k', s', e');
      OnePlace(v, entries, dir, k, s, e, k', s', e');
    }
  }

  lemma {:induction false} BuiltEntries(v: Volume, entries: seq<Entry>)
    requires Tree(entries) && Encodable(entries) && InodesAre(v, entries) && BlocksHold(v, entries, |entries|)
    ensures EntriesGood(v, 0)
  {
    forall dir, k, s, e | At(v, dir, k, s, e)
      ensures Live(v, e.id) && e.id != ROOT && e.id != 0 && e.kind == Ino(v, e.id).kind && ValidName(e.name)
    {
      AtIsDent(v, entries, dir, k, s, e);
    }
  }

  lemma {:induction false} BuiltLinked(v: Volume, entries: seq<Entry>)
    requires ParentsThere(entries) && InodesAre(v, entries) && BlocksHold(v, entries, |entries|)
    ensures AllLinked(v, 0)
  {
    forall id | Live(v, id) && id != ROOT ensures Linked(v, id) {
      var c := id - 1;
      assert HasParent(entries, c);
      var d :| 0 <= d < |entries| && entries[d].kind == Directory && ChildOf(entries, c, d);
      var k, s := DentIsAt(v, entries, d, c);
    }
  }

  /** The image of every tree that fits satisfies the structural invariant. */
  lemma {:induction false} BuiltInv(v: Volume, entries: seq<Entry>)
    requires Built(v, entries)
    ensures Inv(v)
  {
    BuiltGeometry(v, entries);
    BuiltInodes(v, entries);
    BuiltOwnership(v, entries);
    BuiltContents(v, entries);
    BuiltNames(v, entries);
    BuiltLinks(v, entries);
    BuiltEntries(v, entries);
    BuiltLinked(v, entries);
  }

  // ---------------------------------------------------------------------------------------
  // ... and reads back as the tree
  // ---------------------------------------------------------------------------------------

  lemma {:induction false} ChildFound(v: Volume, entries: seq<Entry>, d: nat, c: nat)
    requires PathsDiffer(entries) && InodesAre(v, entries) && BlocksHold(v, entries, |entries|)
    requires d < |entries| && c < |entries| && entries[d].kind == Directory && ChildOf(entries, c, d)
    ensures Find(v, d + 1, Name(entries[c].path)) == Some(c + 1)
  {
    BuiltNames(v, entries);
    var k, s := DentIsAt(v, entries, d, c);
    FindIs(v, d + 1, k, s, Dirent(c + 1, entries[c].kind, Name(entries[c].path)));
  }

  /** The kernel's lookup takes the path of every entry to its inode ... */
  lemma {:induction false} PathResolves(v: Volume, entries: seq<Entry>, c: nat)
    requires ParentsThere(entries) && PathsDiffer(entries) && InodesAre(v, entries) && BlocksHold(v, entries, |entries|)
    requires c < |entries| && entries[0].path == []
    ensures Resolve(v, entries[c].path) == Some(c + 1)
    decreases |entries[c].path|
  {
    if c > 0 {
      assert HasParent(entries, c);
      var d :| 0 <= d < |entries| && entries[d].kind == Directory && ChildOf(entries, c, d);
      PathResolves(v, entries, d);
      ChildFound(v, entries, d, c);
    }
  }

  lemma {:induction false} FoundIsChild(v: Volume, entries: seq<Entry>, dir: nat, name: string)
    requires InodesAre(v, entries) && BlocksHold(v, entries, |entries|) && Find(v, dir, name).Some?
    ensures var id := Find(v, dir, name).value;
            1 <= dir <= |entries| && 1 <= id <= |entries| && entries[id - 1].path == entries[dir - 1].path + [name]
  {
    var k, s, e := FindGives(v, dir, name);
    AtIsDent(v, entries, dir, k, s, e);
    var p := entries[e.id - 1].path;
    assert p == Parent(p) + [Name(p)];
  }

  /** Every name a directory of the tree lists is that of a child. */
  ghost predicate FindsChildren(find: Finder, entries: seq<Entry>) {
    forall dir, name | 1 <= dir <= |entries| && find(dir, name).Some? ::
      1 <= find(dir, name).value <= |entries| && entries[find(dir, name).value - 1].path == entries[dir - 1].path + [name]
  }

  lemma {:induction false} OnlyTreePaths(find: Finder, entries: seq<Entry>, path: seq<string>)
    requires FindsChildren(find, entries) && entries != [] && entries[0].path == [] && ResolveBy(find, path).Some?
    ensures var id := ResolveBy(find, path).value; 1 <= id <= |entries| && entries[id - 1].path == path
    decreases |path|
  {
    if path != [] {
      OnlyTreePaths(find, entries, path[..|path| - 1]);
      assert path == path[..|path| - 1] + [path[|path| - 1]];
    }
  }

  lemma {:induction false} NamesAreChildren(v: Volume, entries: seq<Entry>)
    requires InodesAre(v, entries) && BlocksHold(v, entries, |entries|)
    ensures FindsChildren(Names(v), entries)
  {
    var find := Names(v);
    forall dir, name | 1 <= dir <= |entries| && find(dir, name).Some?
      ensures var id := find(dir, name).value; 1 <= id <= |entries| && entries[id - 1].path == entries[dir - 1].path + [name]
    {
      FoundIsChild(v, entries, dir, name);
    }
  }

  /** ... and no other path anywhere. */
  lemma {:induction false} OnlyPathsResolve(v: Volume, entries: seq<Entry>, path: seq<string>)
    requires InodesAre(v, entries) && BlocksHold(v, entries, |entries|) && entries != [] && entries[0].path == [] && Resolve(v, path).Some?
    ensures var id := Resolve(v, path).value; 1 <= id <= |entries| && entries[id - 1].path == path
  {
    NamesAreChildren(v, entries);
    OnlyTreePaths(Names(v), entries, path);
  }

  lemma {:induction false} FileReadsBack(v: Volume, entries: seq<Entry>, c: nat)
    requires InodesAre(v, entries) && BlocksHold(v, entries, |entries|) && c < |entries| && entries[c].kind == Regular
    ensures FileBytes(v, InodeFor(entries, c)) == entries[c].data
  {
    var i, data := InodeFor(entries, c), entries[c].data;
    var n, start := EntryBlocks(entries, c), Start(entries, c);
    forall j | 0 <= j < |data| ensures FileBytes(v, i)[j] == data[j] {
      var l := j / BLOCK_SIZE;
      assert l < n;
      assert i.extents == [Extent(0, start, n)];
      assert Physical(i.extents, l) == Some(start + l);
      BuiltBlock(v, entries, c, start + l);
      assert l * BLOCK_SIZE + j % BLOCK_SIZE == j;
    }
  }

  lemma {:induction false} EntryReads(v: Volume, entries: seq<Entry>, c: nat)
    requires ParentsThere(entries) && PathsDiffer(entries) && InodesAre(v, entries) && BlocksHold(v, entries, |entries|)
    requires c < |entries| && entries[0].path == []
    ensures Resolve(v, entries[c].path) == Some(c + 1) && Live(v, c + 1) && Ino(v, c + 1).kind == entries[c].kind
    ensures entries[c].kind == Regular ==> FileAt(v, entries[c].path) == Some(entries[c].data)
  {
    PathResolves(v, entries, c);
    assert Live(v, c + 1);
    if entries[c].kind == Regular {
      FileReadsBack(v, entries, c);
    }
  }

  ghost predicate InTree(entries: seq<Entry>, path: seq<string>) { exists k :: 0 <= k < |entries| && entries[k].path == path }

  /**
   * The finished image, read with the kernel's lookup and read-back: the tree that went in, and nothing else.
   */
  lemma {:induction false} ImageIsTree(v: Volume, entries: seq<Entry>, c: nat)
    requires Built(v, entries) && c < |entries|
    ensures Inv(v) && Resolve(v, entries[c].path) == Some(c + 1) && Live(v, c + 1) && Ino(v, c + 1).kind == entries[c].kind
    ensures entries[c].kind == Regular ==> FileAt(v, entries[c].path) == Some(entries[c].data)
    ensures var i := Ino(v, c + 1); i.mode == entries[c].mode % 0x1_0000 && i.uid == 0 && i.gid == 0
    ensures forall path :: Resolve(v, path).Some? ==> InTree(entries, path)
  {
    BuiltInv(v, entries);
    BuiltGeometry(v, entries);
    EntryReads(v, entries, c);
    forall path | Resolve(v, path).Some? ensures InTree(entries, path) {
      OnlyPathsResolve(v, entries, path);
    }
  }
}
