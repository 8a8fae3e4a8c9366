/** The decoded contents of a K64XFS volume and its structural invariant (k64_xfs_format.h, k64_xfs.c). */
module FileSystem {
  import opened Bitmap
  import opened Blocks

  const MAX_INODES: nat := 512
  const DIRECT_EXTENTS: nat := 8
  const DIRENTS_PER_BLOCK: nat := 25
  const NAME_MAX: nat := 128
  const ROOT: nat := 1
  // superblock, two bitmaps, journal, and 512 inodes of 372 bytes, eleven to a block
  const DATA_START: nat := 3 + JOURNAL_BLOCKS + 47
  const MAX_BLOCKS: nat := 8 * BLOCK_SIZE  // what one bitmap block covers

  datatype Kind = Regular | Directory
  datatype Extent = Extent(logical: nat, physical: nat, count: nat)

  /** An inode; `extents` is the used part of its eight extent slots. */
  datatype Inode = Inode(id: nat, kind: Kind, mode: nat, uid: nat, gid: nat, size: nat, modified: nat, extents: seq<Extent>)

  datatype Dirent = Free | Dirent(id: nat, kind: Kind, name: string)

  /** A data block holds file bytes or a directory's entries. */
  datatype Content = Data(bytes: Block) | Dir(slots: seq<Dirent>)

  /** The free-block count of the superblock, the two bitmaps, the inode table and the data blocks. */
  datatype Volume = Volume(free: nat, inodeBits: seq<bool>, blockBits: seq<bool>, inodes: seq<Option<Inode>>, blocks: seq<Content>)

  function EmptySlots(): seq<Dirent> { seq(DIRENTS_PER_BLOCK, _ => Free) }

  function Slots(c: Content): (s: seq<Dirent>)
    ensures |s| == DIRENTS_PER_BLOCK
  {
    if c.Dir? && |c.slots| == DIRENTS_PER_BLOCK then c.slots else EmptySlots()
  }

  function Bytes(c: Content): Block {
    if c.Data? then c.bytes else ZeroBlock()
  }

  predicate Geometry(v: Volume) {
    && |v.inodeBits| == MAX_INODES == |v.inodes|
    && |v.blockBits| == |v.blocks|
    && DATA_START < |v.blocks| <= MAX_BLOCKS
  }

  /** Inode number id is in use and its record is readable. */
  predicate Live(v: Volume, id: int)
    requires Geometry(v)
  {
    1 <= id <= MAX_INODES && v.inodeBits[id - 1] && v.inodes[id - 1].Some?
  }

  function Ino(v: Volume, id: int): Inode
    requires Geometry(v) && Live(v, id)
  {
    v.inodes[id - 1].value
  }

  // ---------------------------------------------------------------------------------------
  // Block ownership
  // ---------------------------------------------------------------------------------------

  predicate Covers(x: Extent, b: int) { x.physical <= b < x.physical + x.count }

  predicate Owns(v: Volume, id: int, e: int, b: int)
    requires Geometry(v)
  {
    Live(v, id) && 0 <= e < |Ino(v, id).extents| && Covers(Ino(v, id).extents[e], b)
  }

  ghost predicate GoodInode(v: Volume, id: int)
    requires Geometry(v) && Live(v, id)
  {
    var i := Ino(v, id);
    && i.id == id && |i.extents| <= DIRECT_EXTENTS
    && forall e :: 0 <= e < |i.extents| ==>
         DATA_START <= i.extents[e].physical && 0 < i.extents[e].count && i.extents[e].physical + i.extents[e].count <= |v.blocks|
  }

  ghost predicate InodesGood(v: Volume)
    requires Geometry(v)
  {
    && (forall id :: 1 <= id <= MAX_INODES && v.inodeBits[id - 1] ==> Live(v, id))
    && (forall id :: Live(v, id) ==> GoodInode(v, id))
    && Live(v, ROOT) && Ino(v, ROOT).kind == Directory
  }

  /** No block belongs to two extents, and every owned block is marked in the bitmap. */
  ghost predicate OwnershipGood(v: Volume)
    requires Geometry(v)
  {
    && (forall i, e, j, f, b :: Owns(v, i, e, b) && Owns(v, j, f, b) ==> i == j && e == f)
    && (forall i, e, b :: Owns(v, i, e, b) && 0 <= b < |v.blocks| ==> v.blockBits[b])
  }

  /** Directories are one-block extents in logical order holding entries; files hold bytes. */
  ghost predicate ContentsGood(v: Volume)
    requires Geometry(v)
  {
    && (forall id :: Live(v, id) && Ino(v, id).kind == Directory ==>
          Ino(v, id).extents != [] && Ino(v, id).size == BLOCK_SIZE * |Ino(v, id).extents|)
    && (forall id, e :: Live(v, id) && Ino(v, id).kind == Directory && 0 <= e < |Ino(v, id).extents| ==>
          Ino(v, id).extents[e] == Extent(e, Ino(v, id).extents[e].physical, 1))
    && (forall id, e, b :: Owns(v, id, e, b) && 0 <= b < |v.blocks| ==> v.blocks[b].Dir? == (Ino(v, id).kind == Directory))
    && (forall b :: 0 <= b < |v.blocks| && v.blocks[b].Dir? ==> |v.blocks[b].slots| == DIRENTS_PER_BLOCK)
  }

  // ---------------------------------------------------------------------------------------
  // Directory entries
  // ---------------------------------------------------------------------------------------

  function SlotAt(v: Volume, dir: int, k: int, s: int): Dirent
    requires Geometry(v) && Live(v, dir) && 0 <= k < |Ino(v, dir).extents| && 0 <= s < DIRENTS_PER_BLOCK
  {
    var b := Ino(v, dir).extents[k].physical;
    if b < |v.blocks| then Slots(v.blocks[b])[s] else Free
  }

  /** Slot s of block k of directory dir holds the entry e. */
  predicate At(v: Volume, dir: int, k: int, s: int, e: Dirent)
    requires Geometry(v)
  {
    && Live(v, dir) && Ino(v, dir).kind == Directory
    && 0 <= k < |Ino(v, dir).extents| && 0 <= s < DIRENTS_PER_BLOCK
    && e.Dirent? && SlotAt(v, dir, k, s) == e
  }

  predicate ValidName(name: string) { 0 < |name| < NAME_MAX && name != "." && name != ".." }

  /** Every entry leads to a live inode of its kind, other than the root and the orphan. */
  ghost predicate EntriesGood(v: Volume, orphan: int)
    requires Geometry(v)
  {
    forall dir, k, s, e :: At(v, dir, k, s, e) ==>
      && Live(v, e.id) && e.id != ROOT && e.id != orphan && e.kind == Ino(v, e.id).kind && ValidName(e.name)
  }

  ghost predicate NamesUnique(v: Volume)
    requires Geometry(v)
  {
    forall dir, k, s, e, k', s', e' :: At(v, dir, k, s, e) && At(v, dir, k', s', e') && e.name == e'.name ==> k == k' && s == s'
  }

  /** No inode has two entries. */
  ghost predicate LinksUnique(v: Volume)
    requires Geometry(v)
  {
    forall dir, k, s, e, dir', k', s', e' :: At(v, dir, k, s, e) && At(v, dir', k', s', e') && e.id == e'.id ==>
      dir == dir' && k == k' && s == s'
  }

  /** The inode has an entry. */
  ghost predicate Linked(v: Volume, id: int)
    requires Geometry(v)
  {
    exists dir, k, s, e :: At(v, dir, k, s, e) && e.id == id
  }

  ghost predicate AllLinked(v: Volume, orphan: int)
    requires Geometry(v)
  {
    forall id {:trigger Linked(v, id)} :: Live(v, id) && id != ROOT && id != orphan ==> Linked(v, id)
  }

  // ---------------------------------------------------------------------------------------
  // The invariant
  // ---------------------------------------------------------------------------------------

  ghost predicate Balanced(v: Volume)
    requires Geometry(v)
  {
    v.free == CountClear(v.blockBits, DATA_START, |v.blockBits|)
  }

  /** All of the structural invariant but the uniqueness of names, where the inode `orphan` (if not 0) has no entry. */
  ghost predicate Sound(v: Volume, orphan: int) {
    && Geometry(v) && InodesGood(v) && OwnershipGood(v) && ContentsGood(v)
    && EntriesGood(v, orphan) && LinksUnique(v) && AllLinked(v, orphan)
    && Balanced(v)
  }

  ghost predicate InvExcept(v: Volume, orphan: int) { Sound(v, orphan) && NamesUnique(v) }

  /** The structural invariant of a volume. */
  ghost predicate Inv(v: Volume) { InvExcept(v, 0) }

  // ---------------------------------------------------------------------------------------
  // What a volume means: names and file contents
  // ---------------------------------------------------------------------------------------

  /** The inode that directory dir lists under this name. */
  ghost function Find(v: Volume, dir: int, name: string): Option<nat>
    requires Geometry(v)
  {
    if exists k, s, e :: At(v, dir, k, s, e) && e.name == name then
      var k, s, e :| At(v, dir, k, s, e) && e.name == name;
      Some(e.id)
    else None
  }

  ghost function Names(v: Volume): (int, string) -> Option<nat>
    requires Geometry(v)
  {
    (dir, name) => Find(v, dir, name)
  }

  /** The inode a list of path components leads to from the root, looking names up with `find`. */
  ghost function ResolveBy(find: (int, string) -> Option<nat>, path: seq<string>): Option<nat> {
    if path == [] then Some(ROOT) else
    match ResolveBy(find, path[..|path| - 1])
    case None => None
    case Some(dir) => find(dir, path[|path| - 1])
  }

  ghost function Resolve(v: Volume, path: seq<string>): Option<nat>
    requires Geometry(v)
  {
    ResolveBy(Names(v), path)
  }

  /** Where logical block l lives: in the first extent that covers it. */
  function Physical(extents: seq<Extent>, l: nat): (r: Option<nat>)
    ensures r.Some? ==> exists e :: 0 <= e < |extents| && Covers(extents[e], r.value)
  {
    if extents == [] then None
    else if extents[0].logical <= l < extents[0].logical + extents[0].count then
      assert Covers(extents[0], extents[0].physical + (l - extents[0].logical));
      Some(extents[0].physical + (l - extents[0].logical))
    else
      var r := Physical(extents[1..], l);
      assert r.Some? ==> forall e :: 0 <= e < |extents[1..]| ==> extents[1..][e] == extents[e + 1];
      r
  }

  /** The content of logical block l; holes read as zeros. */
  function LogicalBlock(v: Volume, extents: seq<Extent>, l: nat): Content {
    match Physical(extents, l)
    case None => Data(ZeroBlock())
    case Some(b) => if b < |v.blocks| then v.blocks[b] else Data(ZeroBlock())
  }

  function FileBytes(v: Volume, i: Inode): (s: seq<Byte>)
    ensures |s| == i.size
  {
    seq(i.size, j requires 0 <= j < i.size => Bytes(LogicalBlock(v, i.extents, j / BLOCK_SIZE))[j % BLOCK_SIZE])
  }

  /** The contents of the regular file at a path. */
  ghost function FileAt(v: Volume, path: seq<string>): Option<seq<Byte>>
    requires Geometry(v)
  {
    match Resolve(v, path)
    case None => None
    case Some(id) => if Live(v, id) && Ino(v, id).kind == Regular then Some(FileBytes(v, Ino(v, id))) else None
  }

  // ---------------------------------------------------------------------------------------
  // Names
  // ---------------------------------------------------------------------------------------

  lemma FindIs(v: Volume, dir: int, k: int, s: int, e: Dirent)
    requires Geometry(v) && NamesUnique(v) && At(v, dir, k, s, e)
    ensures Find(v, dir, e.name) == Some(e.id)
  {
  }

  lemma {:induction false} FindGives(v: Volume, dir: int, name: string) returns (k: int, s: int, e: Dirent)
    requires Geometry(v) && Find(v, dir, name).Some?
    ensures At(v, dir, k, s, e) && e.name == name && Find(v, dir, name) == Some(e.id)
  {
    k, s, e :| At(v, dir, k, s, e) && e.name == name && Find(v, dir, name) == Some(e.id);
  }

  /** Directories that agree entry by entry list the same names. */
  lemma {:induction false} SameEntriesSameNames(v: Volume, w: Volume, dir: int, name: string)
    requires Geometry(v) && Geometry(w) && NamesUnique(v) && NamesUnique(w)
    requires forall k, s, e: Dirent :: e.Dirent? && e.name == name ==> (At(v, dir, k, s, e) <==> At(w, dir, k, s, e))
    ensures Find(v, dir, name) == Find(w, dir, name)
  {
    if Find(v, dir, name).Some? {
      var k, s, e := FindGives(v, dir, name);
      assert At(w, dir, k, s, e);
      FindIs(w, dir, k, s, e);
    } else if Find(w, dir, name).Some? {
      var k, s, e := FindGives(w, dir, name);
      assert At(v, dir, k, s, e);
      FindIs(v, dir, k, s, e);
    }
  }

  /** An inode has one path. */
  lemma {:induction false} PathsUnique(v: Volume, a: seq<string>, b: seq<string>, orphan: int)
    requires Geometry(v) && EntriesGood(v, orphan) && LinksUnique(v)
    requires Resolve(v, a).Some? && Resolve(v, a) == Resolve(v, b)
    ensures a == b
    decreases |a|
  {
    if a != [] && b != [] {
      var dirA, dirB := Resolve(v, a[..|a| - 1]).value, Resolve(v, b[..|b| - 1]).value;
      var k, s, e := FindGives(v, dirA, a[|a| - 1]);
      var k', s', e' := FindGives(v, dirB, b[|b| - 1]);
      PathsUnique(v, a[..|a| - 1], b[..|b| - 1], orphan);
      assert a == a[..|a| - 1] + [a[|a| - 1]] && b == b[..|b| - 1] + [b[|b| - 1]];
    } else if a != [] {
      var k, s, e := FindGives(v, Resolve(v, a[..|a| - 1]).value, a[|a| - 1]);
      assert false;
    } else if b != [] {
      var k, s, e := FindGives(v, Resolve(v, b[..|b| - 1]).value, b[|b| - 1]);
      assert false;
    }
  }

  type Finder = (int, string) -> Option<nat>

  /** g finds everything f finds and, in directory dir, one more name, which leads to an inode without entries. */
  ghost predicate OneNameMore(f: Finder, g: Finder, dir: nat, name: string, id: nat) {
    && f(dir, name) == None
    && (forall x, n :: g(x, n) == if x == dir && n == name then Some(id) else f(x, n))
    && (forall n :: g(id, n) == None)
  }

  /** One name more is one path more, and no other path changes. */
  lemma {:induction false} OnePathMore(f: Finder, g: Finder, dir: nat, name: string, id: nat, parent: seq<string>, path: seq<string>)
    requires OneNameMore(f, g, dir, name, id) && ResolveBy(f, parent) == Some(dir)
    requires forall q :: ResolveBy(f, q) == Some(dir) ==> q == parent
    ensures ResolveBy(f, parent + [name]) == None
    ensures ResolveBy(g, path) == if path == parent + [name] then Some(id) else ResolveBy(f, path)
    decreases |path|
  {
    var p := parent + [name];
    assert p[..|p| - 1] == parent;
    if path != [] {
      var q, n := path[..|path| - 1], path[|path| - 1];
      assert path == q + [n];
      OnePathMore(f, g, dir, name, id, parent, q);
    }
  }

  /** The converse: one name less is one path less. */
  lemma {:induction false} OnePathLess(f: Finder, g: Finder, dir: nat, name: string, id: nat, parent: seq<string>, path: seq<string>)
    requires OneNameMore(f, g, dir, name, id) && forall q :: ResolveBy(g, q) == Some(dir) ==> q == parent
    requires ResolveBy(g, parent) == Some(dir)
    ensures ResolveBy(f, path) == if path == parent + [name] then None else ResolveBy(g, path)
    decreases |path|
  {
    if path != [] {
      var q, n := path[..|path| - 1], path[|path| - 1];
      assert path == q + [n];
      OnePathLess(f, g, dir, name, id, parent, q);
      var p := parent + [name];
      assert p[..|p| - 1] == parent;
    }
  }

  lemma {:induction false} SameNamesSamePaths(f: Finder, g: Finder, path: seq<string>)
    requires forall x, n :: f(x, n) == g(x, n)
    ensures ResolveBy(f, path) == ResolveBy(g, path)
  {
    if path != [] {
      SameNamesSamePaths(f, g, path[..|path| - 1]);
    }
  }

  /** A path through a missing name leads nowhere. */
  lemma {:induction false} MissingPrefix(find: Finder, path: seq<string>, n: nat)
    requires n <= |path| && ResolveBy(find, path[..n]) == None
    ensures ResolveBy(find, path) == None
    decreases |path| - n
  {
    if n == |path| {
      assert path[..n] == path;
    } else {
      assert path[..n + 1][..n] == path[..n];
      MissingPrefix(find, path, n + 1);
    }
  }

  lemma {:induction false} OnlyPath(v: Volume, parent: seq<string>, orphan: int)
    requires Geometry(v) && EntriesGood(v, orphan) && LinksUnique(v) && Resolve(v, parent).Some?
    ensures forall q :: Resolve(v, q) == Resolve(v, parent) ==> q == parent
  {
    forall q | Resolve(v, q) == Resolve(v, parent) ensures q == parent {
      PathsUnique(v, q, parent, orphan);
    }
  }
}
