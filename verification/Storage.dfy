/** File operations over the journalled block layer: what a crash leaves of them (k64_xfs.c, k64_xfs_journal.c). */
module Storage {
  import opened Blocks
  import opened FileSystem
  import opened FileEffects
  import opened Encoding
  import opened Files
  import Cache
  import Journal
  import Mount
  import Paths

  /** The mount is of a volume with this layout of metadata. */
  ghost predicate OnVolume(m: Mount.JournalledMount) { m.journalStart == JOURNAL_START && m.dataStart == DATA_START }

  /** The cache shows the metadata of the volume. */
  ghost predicate ShowsMeta(m: Mount.JournalledMount, l: Layout, v: Volume)
    requires m.JournalValid() && OnVolume(m)
    reads m, m.cache, m.cache.entries, m.cache.dev
  {
    forall b: nat :: Meta(b) ==> Encodes(l, v, b, m.cache.Contents(b))
  }

  /** A crash now, and recovery: read from the device, the bitmaps and the inode table are those of the volume. */
  ghost predicate Survives(m: Mount.JournalledMount, l: Layout, v: Volume)
    requires m.JournalValid() && OnVolume(m) && Geometry(v)
    reads m, m.cache, m.cache.dev
  {
    var r := Journal.Recovered(m.codec, m.cache.dev.blocks, m.journalStart);
    r.Some? && ReadsAs(l, r.value, v)
  }

  lemma {:induction false} LastWrittenIs(blocks: seq<Block>, log: seq<Cache.Op>, b: nat, n: nat)
    requires b < |blocks| && forall k :: 0 <= k < |log| ==> Outside(log[k], n)
    ensures Mount.AfterOps(blocks, log)[b] == LastWritten(log, b, blocks[b])
  {
    if log != [] {
      LastWrittenIs(blocks, log[..|log| - 1], b, n);
    }
  }

  lemma {:induction false} RecordsAreMetaWrites(log: seq<Cache.Op>)
    ensures |Mount.RecordsOf(log, DATA_START)| == MetaWrites(log)
  {
    if log != [] {
      RecordsAreMetaWrites(log[..|log| - 1]);
    }
  }

  /** The device serves every request, the cache has room for the writes and the journal for their records. */
  ghost predicate HasRoom(m: Mount.JournalledMount, log: seq<Cache.Op>)
    reads m.cache
  {
    m.cache.dev.Reliable() && |m.cache.history| + |log| <= Cache.CACHE_BLOCKS && MetaWrites(log) < Journal.MAX_RECORDS
  }

  lemma {:induction false} RoomIsLight(m: Mount.JournalledMount, log: seq<Cache.Op>, n: nat)
    requires m.JournalValid() && OnVolume(m) && HasRoom(m, log) && n <= m.totalBlocks && forall k :: 0 <= k < |log| ==> Outside(log[k], n)
    ensures m.Light(log)
  {
    RecordsAreMetaWrites(log);
    forall k | 0 <= k < |log| ensures !log[k].FlushOp? && log[k].b < m.totalBlocks {
      assert Outside(log[k], n);
    }
  }

  /** The block writes of a file operation as one transaction of the block layer. */
  method Persist(m: Mount.JournalledMount, l: Layout, ghost base: Volume, log: seq<Cache.Op>, ghost v: Volume, ghost n: nat, ghost p: nat) returns (ok: bool)
    requires m.Valid() && !m.journalActive && m.txId + 1 < Journal.U64_LIMIT && OnVolume(m) && m.MetadataClean() && Geometry(v)
    requires Encoding.Lawful(l) && ShowsMeta(m, l, base) && Mirrors(l, base, log, v, n, p) && |v.blocks| <= m.totalBlocks
    modifies m, m.cache, m.cache.entries, m.cache.dev
    ensures m.Valid()
    ensures ok ==> !m.journalActive && ShowsMeta(m, l, v) && Survives(m, l, v)
    ensures old(HasRoom(m, log)) ==> ok
  {
    ghost var shown := m.cache.ContentsAll();
    MirrorsOutside(l, base, log, v, n, p);
    if HasRoom(m, log) {
      RoomIsLight(m, log, |v.blocks|);
    }
    ok := m.Transaction(log);
    if ok {
      forall b: nat | Meta(b) ensures Encodes(l, v, b, m.cache.Contents(b)) {
        LastWrittenIs(shown, log, b, |v.blocks|);
        assert MirrorsAt(l, base, log, v, n, p, b) && Encodes(l, base, b, shown[b]);
      }
      ShownSurvives(m, l, v);
    }
  }

  lemma {:induction false} ShownSurvives(m: Mount.JournalledMount, l: Layout, v: Volume)
    requires m.JournalValid() && OnVolume(m) && Geometry(v) && m.Durable() && ShowsMeta(m, l, v)
    ensures Survives(m, l, v)
  {
    var blocks := Journal.Recovered(m.codec, m.cache.dev.blocks, m.journalStart).value;
    forall b: nat | Meta(b) ensures Encodes(l, v, b, blocks[b]) {
      assert m.Metadata(b);
    }
    EncodedReads(l, blocks, v);
  }

  /** The operations that are one transaction. */
  datatype FileOp =
    | Make(path: string, mode: nat, uid: nat, gid: nat)
    | MakeDirectory(path: string, mode: nat, uid: nat, gid: nat)
    | Overwrite(path: string, data: seq<Byte>, uid: nat, gid: nat)
    | Delete(path: string)
    | DeleteDirectory(path: string)

  /** What a user sees of a successful operation. */
  ghost predicate Effect(v: Volume, w: Volume, op: FileOp, tick: nat)
    requires Geometry(v)
  {
    match op
    case Make(path, mode, uid, gid) =>
      PathAdded(v, w, Paths.Components(path), Attributes(Regular, if mode == 0 then 0x1A4 else mode, uid, gid, tick))
    case MakeDirectory(path, mode, uid, gid) =>
      PathAdded(v, w, Paths.Components(path), Attributes(Directory, if mode == 0 then 0x1ED else mode, uid, gid, tick))
    case Overwrite(path, data, uid, gid) => FileWritten(v, w, Paths.Components(path), data, uid, gid, tick)
    case Delete(path) => PathRemoved(v, w, Paths.Components(path))
    case DeleteDirectory(path) => PathRemoved(v, w, Paths.Components(path))
  }

  /** The only reasons for which an operation is refused. */
  ghost predicate Refused(v: Volume, op: FileOp)
    requires Geometry(v)
  {
    match op
    case Make(path, _, _, _) => !Creatable(v, path, Regular)
    case MakeDirectory(path, _, _, _) => !Creatable(v, path, Directory)
    case Overwrite(path, data, _, _) =>
      var p := Paths.Components(path);
      path == "" || path[0] != '/' || FileAt(v, p).None? || NoRoom(v, Ino(v, Resolve(v, p).value), BlockCount(|data|))
    case Delete(path) => !Paths.WellFormed(path, NAME_MAX) || FileAt(v, Paths.Components(path)).None?
    case DeleteDirectory(path) => !EmptyAt(v, path)
  }

  /** At most this many blocks are written by the operation. */
  function Cost(op: FileOp): nat { if op.Overwrite? then 10 + BlockCount(|op.data|) else 12 }

  method Do(x: Xfs, op: FileOp) returns (ok: bool)
    requires Inv(x.fs) && !x.journalActive && forall n :: !x.fails(n)
    requires op.Overwrite? ==> Resolve(x.fs, Paths.Components(op.path)).Some?
    modifies x
    ensures ok ==> Inv(x.fs) && !x.journalActive && x.base == old(x.fs) && x.Mirrored() && x.written <= DIRECT_EXTENTS + 3 && x.written + x.puts <= Cost(op)
    ensures if ok then Effect(old(x.fs), x.fs, op, x.generation) else Refused(old(x.fs), op)
  {
    ghost var r := x.requests;
    match op {
      case Make(path, mode, uid, gid) => ok := x.Create(path, mode, uid, gid);
      case MakeDirectory(path, mode, uid, gid) => ok := x.Mkdir(path, mode, uid, gid);
      case Overwrite(path, data, uid, gid) => ok := x.WriteFile(path, data, uid, gid);
      case Delete(path) => ok := x.Remove(path);
      case DeleteDirectory(path) => ok := x.Rmdir(path);
    }
    x.FailedBetween(r, x.requests);
  }

  /**
   * A file operation on a volume whose metadata is clean in the cache, carried out by the block layer: once it has
   * committed, a crash and recovery give the bitmaps and the inode table of its result.  It is refused only for a reason of
   * its own, and on a reliable device with room in the cache it commits.
   */
  method OperationSurvives(x: Xfs, m: Mount.JournalledMount, op: FileOp) returns (made: bool, ok: bool)
    requires Inv(x.fs) && !x.journalActive && (forall n :: !x.fails(n)) && Encoding.Lawful(x.layout)
    requires op.Overwrite? ==> Resolve(x.fs, Paths.Components(op.path)).Some?
    requires m.Valid() && !m.journalActive && m.txId + 1 < Journal.U64_LIMIT && OnVolume(m) && m.MetadataClean()
    requires ShowsMeta(m, x.layout, x.fs) && |x.fs.blocks| <= m.totalBlocks
    modifies x, m, m.cache, m.cache.entries, m.cache.dev
    ensures m.Valid()
    ensures if made then Effect(old(x.fs), x.fs, op, x.generation) && Inv(x.fs) else Refused(old(x.fs), op)
    ensures ok ==> made && !m.journalActive && ShowsMeta(m, x.layout, x.fs) && Survives(m, x.layout, x.fs)
    ensures made && m.cache.dev.Reliable() && |old(m.cache.history)| + Cost(op) <= Cache.CACHE_BLOCKS ==> ok
  {
    made := Do(x, op);
    ok := made;
    if made {
      MirrorsOutside(x.layout, x.base, x.log, x.fs, x.written, x.puts);
      ok := Persist(m, x.layout, x.base, x.log, x.fs, x.written, x.puts);
    }
  }

  // ---------------------------------------------------------------------------------------
  // On a new volume
  // ---------------------------------------------------------------------------------------

  /** A device with the metadata of the volume on it and zeros elsewhere. */
  function DeviceOf(l: Layout, v: Volume): (blocks: seq<Block>)
    ensures |blocks| == |v.blocks| && forall b :: 0 <= b < |blocks| ==> blocks[b] == if Meta(b) then MetaBlock(l, v, b, 0) else ZeroBlock()
  {
    seq(|v.blocks|, b => if Meta(b) then MetaBlock(l, v, b, 0) else ZeroBlock())
  }

  lemma {:induction false} NewTakesFile(device: seq<Block>)
    requires DATA_START < |device| <= MAX_BLOCKS
    ensures Inv(Formatted(device)) && Creatable(Formatted(device), "/a", Regular)
  {
    var v := Formatted(device);
    FormattedInv(device);
    Paths.SlashThenToken("a");
    assert ['/'] + "a" == "/a" && [] + ["a"] == ["a"];
    OpenableIs(v, "/a", [], "a");
    assert !v.inodeBits[1] && ["a"][..0] == [];
    assert v.inodes[0] == Some(RootInode()) && v.blocks[DATA_START] == Dir(EmptySlots());
    assert Ino(v, ROOT).extents[0].physical == DATA_START && EmptySlots()[0] == Free;
    assert SlotAt(v, ROOT, 0, 0) == Free;
  }

  /** The first mount of a volume whose metadata is on a reliable device, over an empty cache and a cleared journal. */
  method MountNew(codec: Journal.Codec, l: Layout, v: Volume) returns (m: Mount.JournalledMount)
    requires Journal.Lawful(codec) && Encoding.Lawful(l) && Geometry(v)
    ensures fresh(m) && fresh(m.cache) && fresh(m.cache.entries) && fresh(m.cache.dev)
    ensures m.Valid() && OnVolume(m) && !m.journalActive && m.txId == 0 && m.MetadataClean() && m.totalBlocks == |v.blocks|
    ensures m.cache.dev.Reliable() && m.cache.history == [] && ShowsMeta(m, l, v)
  {
    var dev := new Device(DeviceOf(l, v), _ => false);
    var cache := new Cache.BlockCache(dev);
    assert Journal.Area(dev.blocks, JOURNAL_START) == Journal.Initial().area;
    m := new Mount.JournalledMount(codec, cache, JOURNAL_START, DATA_START, |v.blocks|);
    forall b: nat | Meta(b) ensures Encodes(l, v, b, m.cache.Contents(b)) {
      WrittenEncodes(l, v, b, 0);
    }
  }

  /** From a new volume on a reliable device, with any lawful layout: a file is made, committed, and survives. */
  method FirstFileSurvives(codec: Journal.Codec, l: Layout) returns (x: Xfs, m: Mount.JournalledMount)
    requires Journal.Lawful(codec) && Encoding.Lawful(l)
    ensures x.layout == l && Inv(x.fs) && FileAt(x.fs, ["a"]) == Some([])
    ensures var i := Ino(x.fs, Resolve(x.fs, ["a"]).value); i.mode == 0x81A4 && i.uid == 1000 && i.gid == 100
    ensures m.Valid() && OnVolume(m) && Survives(m, l, x.fs)
  {
    var device := seq(100, _ => ZeroBlock());
    NewTakesFile(device);
    x := new Xfs(_ => false, Formatted(device), l);
    m := MountNew(codec, l, x.fs);
    var made, ok := OperationSurvives(x, m, Make("/a", 0, 1000, 100));
    NewFileIsEmpty(Formatted(device), x.fs, x.generation);
  }

  lemma {:induction false} NewFileIsEmpty(v: Volume, w: Volume, tick: nat)
    requires Geometry(v) && Effect(v, w, Make("/a", 0, 1000, 100), tick)
    ensures FileAt(w, ["a"]) == Some([])
    ensures var i := Ino(w, Resolve(w, ["a"]).value); i.mode == 0x81A4 && i.uid == 1000 && i.gid == 100
  {
    Paths.SlashThenToken("a");
    assert ['/'] + "a" == "/a";
    assert FileAt(w, ["a"]).Some?;
  }
}
