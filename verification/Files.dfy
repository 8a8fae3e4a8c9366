/** The file operations of K64XFS (k64_xfs.c), over the volume the block layer shows. */
module Files {
  import opened Blocks
  import opened FileSystem
  import opened FileSteps
  import opened Bitmap
  import opened FileEffects
  import opened Encoding
  import Cache
  import Paths

  class Xfs {
    const fails: nat -> bool  // which block requests of the run fail
    const layout: Layout
    var fs: Volume
    var log: seq<Cache.Op>  // the block writes since the transaction began
    ghost var base: Volume  // and the volume then
    ghost var written: nat  // how many of the writes are to metadata
    ghost var puts: nat     // and how many to data blocks
    var requests: nat
    var faults: nat
    var journalActive: bool
    var journalRecords: nat
    var generation: nat

    constructor (fails: nat -> bool, fs: Volume, layout: Layout)
      ensures this.fails == fails && this.fs == fs && this.layout == layout && requests == faults == 0 && !journalActive
    {
      this.fails, this.fs, this.layout, this.log, this.base := fails, fs, layout, [], fs;
      written, puts := 0, 0;
      requests, faults, journalActive, journalRecords, generation := 0, 0, false, 0, 1;
    }

    /** The writes of the transaction account for what has become of the metadata since it began, and have their records. */
    ghost predicate Mirrored()
      reads this
    {
      && (Encoding.Lawful(layout) ==> Mirrors(layout, base, log, fs, written, puts))
      && (journalActive ==> written <= journalRecords)
    }

    // -------------------------------------------------------------------------------------
    // Block requests
    // -------------------------------------------------------------------------------------

    function Fault(n: nat): nat { if fails(n) then 1 else 0 }

    /** How many of the first n requests fail. */
    ghost function Failed(n: nat): nat { if n == 0 then 0 else Failed(n - 1) + Fault(n - 1) }

    /** Since request r, when f faults had been seen, every failed request has been counted and nothing else. */
    ghost predicate Counted(r: nat, f: nat)
      reads this
    {
      r <= requests && f <= faults && faults - f == Failed(requests) - Failed(r)
    }

    method Request() returns (ok: bool)
      modifies this`requests, this`faults
      ensures ok == !fails(old(requests)) && requests == old(requests) + 1
      ensures faults == old(faults) + Fault(old(requests)) && Counted(old(requests), old(faults))
    {
      ok := !fails(requests);
      requests := requests + 1;
      if !ok {
        faults := faults + 1;
      }
    }

    /** A metadata block write: header and payload to the journal if a transaction is open, then the block. */
    method MetadataRequest() returns (ok: bool)
      modifies this`requests, this`faults, this`journalRecords
      ensures Counted(old(requests), old(faults)) && (ok ==> faults == old(faults))
      ensures old(journalRecords) <= journalRecords <= old(journalRecords) + if journalActive then 1 else 0
      ensures !ok ==> faults > old(faults) || (journalActive && 2 * journalRecords + 1 >= JOURNAL_BLOCKS)
      ensures requests <= old(requests) + 3 && (ok ==> requests == old(requests) + if journalActive then 3 else 1)
      ensures ok ==> journalRecords == old(journalRecords) + if journalActive then 1 else 0
    {
      if journalActive {
        if 2 * journalRecords + 1 >= JOURNAL_BLOCKS {
          return false;
        }
        ok := Request();
        if ok {
          ok := Request();
        }
        if !ok {
          return;
        }
        journalRecords := journalRecords + 1;
      }
      ok := Request();
    }

    /** Block b of the metadata written, which turns the volume into v. */
    method WriteMeta(b: nat, v: Volume) returns (ok: bool)
      requires Meta(b) && SameBut(fs, v, b) && (b == INODE_BITMAP || b == BLOCK_BITMAP ==> Geometry(v))
      modifies this`requests, this`faults, this`journalRecords, this`fs, this`log, this`written
      ensures old(Mirrored()) ==> Mirrored()
      ensures Counted(old(requests), old(faults)) && (ok ==> faults == old(faults))
      ensures old(journalRecords) <= journalRecords <= old(journalRecords) + if journalActive then 1 else 0
      ensures !ok ==> faults > old(faults) || (journalActive && 2 * journalRecords + 1 >= JOURNAL_BLOCKS)
      ensures requests <= old(requests) + 3 && (ok ==> requests == old(requests) + if journalActive then 3 else 1)
      ensures fs == if ok then v else old(fs)
    {
      ok := MetadataRequest();
      if ok {
        // the number of the request stands for the ticks and other fields of a record that are not modelled
        var data := MetaBlock(layout, v, b, requests);
        ghost var log0, fs0 := log, fs;
        log := log + [Cache.WriteOp(b, data)];
        fs := v;
        if Encoding.Lawful(layout) && Mirrors(layout, base, log0, fs0, written, puts) {
          WrittenEncodes(layout, v, b, requests);
          OneWriteMore(layout, base, log0, fs0, written, puts, v, b, data);
        }
        written := written + 1;
      }
    }

    method SetFree(n: nat)
      modifies this`fs
      ensures old(Mirrored()) ==> Mirrored()
      ensures fs == old(fs).(free := n)
    {
      if Mirrors(layout, base, log, fs, written, puts) {
        FreeIsOutside(layout, base, log, fs, written, puts, n);
      }
      fs := fs.(free := n);
    }

    /** Data block b after a successful write. */
    method PutBlock(b: nat, c: Content)
      requires DATA_START <= b < |fs.blocks| <= MAX_BLOCKS
      modifies this`fs, this`log, this`puts
      ensures old(Mirrored()) ==> Mirrored()
      ensures puts == old(puts) + 1
      ensures fs == old(fs).(blocks := old(fs).blocks[b := c])
    {
      ghost var log0, fs0 := log, fs;
      fs := fs.(blocks := fs.blocks[b := c]);
      log := log + [Cache.WriteOp(b, layout.writeContent(c))];
      if Encoding.Lawful(layout) && Mirrors(layout, base, log0, fs0, written, puts) {
        OneWriteMore(layout, base, log0, fs0, written, puts, fs, b, layout.writeContent(c));
      }
      puts := puts + 1;
    }

    method Begin()
      modifies this`journalActive, this`journalRecords, this`log, this`base, this`written, this`puts
      ensures journalActive
      ensures journalRecords == if old(journalActive) then old(journalRecords) else 0
      ensures if old(journalActive) then log == old(log) && base == old(base) && written == old(written) && puts == old(puts) else base == fs && puts == 0 && Mirrored()
    {
      if !journalActive {
        log, base, written, puts := [], fs, 0, 0;
        NothingMirrors(layout, fs);
        journalRecords := 0;
        journalActive := true;
      }
    }

    /** Commits the transaction and writes the superblock back. */
    method Finish() returns (ok: bool)
      modifies this`requests, this`faults, this`journalActive, this`journalRecords, this`generation
      ensures Counted(old(requests), old(faults))
      ensures ok ==> !journalActive && faults == old(faults) && generation == old(generation) + if old(journalActive) then 1 else 0
      ensures ok && old(Mirrored()) ==> Mirrored() && (old(journalActive) ==> written <= old(journalRecords))
      ensures !ok ==> faults > old(faults) || 2 * old(journalRecords) >= JOURNAL_BLOCKS
    {
      if journalActive {
        if 2 * journalRecords >= JOURNAL_BLOCKS {
          return false;
        }
        ok := Request();
        if !ok {
          return;
        }
        generation := generation + 1;
        journalActive := false;
        journalRecords := 0;
      }
      ok := MetadataRequest();
    }

    // -------------------------------------------------------------------------------------
    // Inodes
    // -------------------------------------------------------------------------------------

    method ReadInode(id: nat) returns (ok: bool, i: Inode)
      requires Geometry(fs)
      modifies this`requests, this`faults
      ensures Counted(old(requests), old(faults)) && (ok ==> faults == old(faults))
      ensures ok ==> 1 <= id <= MAX_INODES && fs.inodes[id - 1] == Some(i)
      ensures !ok ==> faults > old(faults) || !(1 <= id <= MAX_INODES) || fs.inodes[id - 1] == None
      ensures 1 <= id <= MAX_INODES ==> requests == old(requests) + 1
    {
      i := Inode(0, Regular, 0, 0, 0, 0, 0, []);
      if id == 0 || id > MAX_INODES {
        return false, i;
      }
      ok := Request();
      if ok {
        if fs.inodes[id - 1].None? {
          return false, i;
        }
        i := fs.inodes[id - 1].value;
      }
    }

    method WriteInode(i: Inode) returns (ok: bool)
      requires |fs.inodes| == MAX_INODES && 1 <= i.id <= MAX_INODES
      modifies this`requests, this`faults, this`journalRecords, this`fs, this`log, this`written
      ensures old(Mirrored()) ==> Mirrored()
      ensures old(Geometry(fs)) ==> Geometry(fs)
      ensures Counted(old(requests), old(faults)) && (ok ==> faults == old(faults))
      ensures old(journalRecords) <= journalRecords <= old(journalRecords) + 1
      ensures !ok ==> faults > old(faults) || (journalActive && 2 * journalRecords + 1 >= JOURNAL_BLOCKS)
      ensures fs == if ok then old(fs).(inodes := old(fs).inodes[i.id - 1 := Some(i)]) else old(fs)
      ensures requests <= old(requests) + 4 && (ok && journalActive ==> requests == old(requests) + 4)
    {
      ok := Request();
      if ok {
        InodeChangesOne(fs, i.id, Some(i));
        ok := WriteMeta(InodeBlock(i.id), fs.(inodes := fs.inodes[i.id - 1 := Some(i)]));
      }
    }

    method AllocInode() returns (ok: bool, id: nat)
      requires Geometry(fs)
      modifies this`requests, this`faults, this`journalRecords, this`fs, this`log, this`written
      ensures old(Mirrored()) ==> Mirrored()
      ensures Geometry(fs)
      ensures Counted(old(requests), old(faults)) && (ok ==> faults == old(faults))
      ensures old(journalRecords) <= journalRecords <= old(journalRecords) + 1
      ensures ok ==> 1 < id <= MAX_INODES && !old(fs).inodeBits[id - 1] &&
                     fs == old(fs).(inodeBits := old(fs).inodeBits[id - 1 := true])
      ensures !ok ==> fs == old(fs)
      ensures !ok ==> faults > old(faults) || 2 * journalRecords + 1 >= JOURNAL_BLOCKS || NoInode(fs)
      ensures requests <= old(requests) + 4 && (ok && journalActive ==> requests == old(requests) + 4)
    {
      id := 0;
      ok := Request();
      if !ok {
        return;
      }
      for i := 1 to MAX_INODES
        invariant forall k :: 0 < k < i ==> fs.inodeBits[k]
        invariant Counted(old(requests), old(faults))
        invariant fs == old(fs) && faults == old(faults) && journalRecords == old(journalRecords) && log == old(log)
        invariant requests == old(requests) + 1
      {
        if !fs.inodeBits[i] {
          ok := WriteMeta(INODE_BITMAP, fs.(inodeBits := fs.inodeBits[i := true]));
          if ok {
            id := i + 1;
          }
          return;
        }
      }
      ok := false;
    }

    method FreeInode(id: nat) returns (ok: bool)
      requires Geometry(fs) && 1 <= id <= MAX_INODES
      modifies this`requests, this`faults, this`journalRecords, this`fs, this`log, this`written
      ensures old(Mirrored()) ==> Mirrored()
      ensures Geometry(fs)
      ensures Counted(old(requests), old(faults)) && (ok ==> faults == old(faults))
      ensures old(journalRecords) <= journalRecords <= old(journalRecords) + 1
      ensures fs == if ok then old(fs).(inodeBits := old(fs).inodeBits[id - 1 := false]) else old(fs)
      ensures !ok ==> faults > old(faults) || 2 * journalRecords + 1 >= JOURNAL_BLOCKS
    {
      ok := Request();
      if ok {
        ok := WriteMeta(INODE_BITMAP, fs.(inodeBits := fs.inodeBits[id - 1 := false]));
      }
    }

    // -------------------------------------------------------------------------------------
    // Extents
    // -------------------------------------------------------------------------------------

    method AllocExtent(n: nat) returns (ok: bool, start: nat)
      requires Geometry(fs) && Balanced(fs)
      modifies this`requests, this`faults, this`journalRecords, this`fs, this`log, this`written
      ensures old(Mirrored()) ==> Mirrored()
      ensures Geometry(fs)
      ensures Counted(old(requests), old(faults)) && (ok ==> faults == old(faults))
      ensures old(journalRecords) <= journalRecords <= old(journalRecords) + 1
      ensures ok ==> n > 0 && DATA_START <= start && ClearRun(old(fs).blockBits, start, n) && Balanced(fs) &&
                     fs == old(fs).(free := fs.free, blockBits := Marked(old(fs).blockBits, start, n, true))
      ensures ok ==> old(fs).free == fs.free + n && forall s :: DATA_START <= s < start ==> !ClearRun(old(fs).blockBits, s, n)
      ensures !ok ==> fs == old(fs).(free := fs.free)
      ensures !ok ==> faults > old(faults) || 2 * journalRecords + 1 >= JOURNAL_BLOCKS || n == 0 || NoRun(fs.blockBits, n)
    {
      start := 0;
      if n == 0 {
        return false, 0;
      }
      ok := Request();
      if !ok {
        return;
      }
      ok, start := FindRun(fs.blockBits, DATA_START, n);
      if !ok {
        return;
      }
      var bits := Mark(fs.blockBits, start, n);
      ClearRunCounts(fs.blockBits, DATA_START, start, n);
      if fs.free < n {
        return false, 0;
      }
      SetFree(fs.free - n);
      ok := WriteMeta(BLOCK_BITMAP, fs.(blockBits := bits));
    }

    method FreeExtent(start: nat, n: nat) returns (ok: bool)
      requires Geometry(fs) && Balanced(fs)
      modifies this`requests, this`faults, this`journalRecords, this`fs, this`log, this`written
      ensures old(Mirrored()) ==> Mirrored()
      ensures Geometry(fs)
      ensures Counted(old(requests), old(faults)) && (ok ==> faults == old(faults))
      ensures old(journalRecords) <= journalRecords <= old(journalRecords) + 1
      ensures ok ==> n > 0 && DATA_START <= start && start + n <= |old(fs).blockBits| && Balanced(fs) &&
                     fs == old(fs).(free := fs.free, blockBits := Marked(old(fs).blockBits, start, n, false))
      ensures !ok ==> fs == old(fs).(free := fs.free)
      ensures !ok ==> faults > old(faults) || 2 * journalRecords + 1 >= JOURNAL_BLOCKS ||
                      n == 0 || start < DATA_START || start + n > |fs.blocks|
    {
      if n == 0 || start < DATA_START || start + n > |fs.blocks| {
        return false;
      }
      ok := Request();
      if !ok {
        return;
      }
      var bits, freed := Unmark(fs.blockBits, DATA_START, start, n);
      SetFree(fs.free + freed);
      ok := WriteMeta(BLOCK_BITMAP, fs.(blockBits := bits));
    }

    // -------------------------------------------------------------------------------------
    // Data blocks
    // -------------------------------------------------------------------------------------

    method ReadDataBlock(i: Inode, logical: nat) returns (ok: bool, c: Content)
      requires forall e :: 0 <= e < |i.extents| ==> i.extents[e].physical + i.extents[e].count <= |fs.blocks|
      modifies this`requests, this`faults
      ensures Counted(old(requests), old(faults)) && (ok <==> faults == old(faults))
      ensures ok ==> c == LogicalBlock(fs, i.extents, logical)
      ensures Physical(i.extents, logical).Some? ==> requests == old(requests) + 1
    {
      for e := 0 to |i.extents|
        invariant requests == old(requests)
        invariant Counted(old(requests), old(faults))
        invariant faults == old(faults)
        invariant Physical(i.extents, logical) == Physical(i.extents[e..], logical)
      {
        var x := i.extents[e];
        if x.logical <= logical < x.logical + x.count {
          ok := Request();
          c := fs.blocks[x.physical + (logical - x.logical)];
          return;
        }
        assert i.extents[e..][1..] == i.extents[e + 1..];
      }
      ok, c := true, Data(ZeroBlock());
    }

    method WriteDataBlock(i: Inode, logical: nat, c: Content) returns (ok: bool)
      requires |fs.blocks| <= MAX_BLOCKS
      requires forall e :: 0 <= e < |i.extents| ==> DATA_START <= i.extents[e].physical && i.extents[e].physical + i.extents[e].count <= |fs.blocks|
      modifies this`requests, this`faults, this`fs, this`log, this`written, this`puts
      ensures old(puts) <= puts <= old(puts) + 1
      ensures old(Mirrored()) ==> Mirrored()
      ensures Counted(old(requests), old(faults)) && (ok ==> faults == old(faults))
      ensures ok ==> Physical(i.extents, logical).Some? && Physical(i.extents, logical).value < |old(fs).blocks| &&
                     fs == old(fs).(blocks := old(fs).blocks[Physical(i.extents, logical).value := c])
      ensures !ok ==> fs == old(fs) && (faults > old(faults) || Physical(i.extents, logical) == None)
    {
      for e := 0 to |i.extents|
        invariant Counted(old(requests), old(faults))
        invariant fs == old(fs) && faults == old(faults) && log == old(log)
        invariant Physical(i.extents, logical) == Physical(i.extents[e..], logical)
      {
        var x := i.extents[e];
        if x.logical <= logical < x.logical + x.count {
          ok := Request();
          if ok {
            PutBlock(x.physical + (logical - x.logical), c);
          }
          return;
        }
        assert i.extents[e..][1..] == i.extents[e + 1..];
      }
      ok := false;
    }

    // -------------------------------------------------------------------------------------
    // Directories
    // -------------------------------------------------------------------------------------

    /** Block k of a directory, as an array of entries. */
    method ReadDirectoryBlock(dir: Inode, k: nat) returns (ok: bool, slots: seq<Dirent>)
      requires Readable(fs, dir.id) && Ino(fs, dir.id) == dir && dir.kind == Directory && k < |dir.extents|
      modifies this`requests, this`faults
      ensures Counted(old(requests), old(faults)) && (ok <==> faults == old(faults))
      ensures ok ==> |slots| == DIRENTS_PER_BLOCK && forall s :: 0 <= s < |slots| ==> slots[s] == SlotAt(fs, dir.id, k, s)
      ensures requests == old(requests) + 1
    {
      assert GoodInode(fs, dir.id);
      var c;
      ok, c := ReadDataBlock(dir, k);
      slots := Slots(c);
      DirectoryBlock(dir.extents, 0, k);
      assert dir.extents[0..] == dir.extents;
    }

    method DirFind(dir: Inode, name: string) returns (ok: bool, k: nat, s: nat, e: Dirent)
      requires Readable(fs, dir.id) && Ino(fs, dir.id) == dir
      modifies this`requests, this`faults
      ensures Counted(old(requests), old(faults)) && (ok ==> faults == old(faults))
      ensures ok ==> At(fs, dir.id, k, s, e) && e.name == name
      ensures !ok ==> faults > old(faults) || name == "" || Find(fs, dir.id, name) == None
      ensures dir.kind == Directory && dir.extents != [] && fails(old(requests)) ==>
                !ok && requests == old(requests) + 1 && faults == old(faults) + 1
    {
      ok, k, s, e := false, 0, 0, Free;
      if dir.kind != Directory {
        return;
      }
      while k < BlockCount(dir.size)
        invariant Counted(old(requests), old(faults))
        invariant k <= |dir.extents| == BlockCount(dir.size) && faults == old(faults)
        invariant name != "" ==> forall k', s', e' :: At(fs, dir.id, k', s', e') && k' < k ==> e'.name != name
        invariant if k == 0 then requests == old(requests) else !fails(old(requests))
      {
        var read, slots := ReadDirectoryBlock(dir, k);
        if !read {
          return;
        }
        s := 0;
        while s < DIRENTS_PER_BLOCK
          invariant Counted(old(requests), old(faults))
          invariant s <= DIRENTS_PER_BLOCK && faults == old(faults)
          invariant name != "" ==> forall s', e' :: At(fs, dir.id, k, s', e') && s' < s ==> e'.name != name
          invariant !fails(old(requests))
        {
          e := slots[s];
          if e.Dirent? && e.name != "" && e.name == name {
            assert At(fs, dir.id, k, s, e);
            return true, k, s, e;
          }
          assert forall e' :: At(fs, dir.id, k, s, e') ==> e' == e;
          s := s + 1;
        }
        k := k + 1;
      }
      k, s := 0, 0;
    }

    /** The first free slot of a directory, if it has one. */
    method FreeSlot(dir: Inode) returns (ok: bool, found: bool, k: nat, s: nat, slots: seq<Dirent>)
      requires Readable(fs, dir.id) && Ino(fs, dir.id) == dir && dir.kind == Directory
      modifies this`requests, this`faults
      ensures Counted(old(requests), old(faults)) && (ok <==> faults == old(faults))
      ensures ok && found ==> k < |dir.extents| && s < DIRENTS_PER_BLOCK && SlotAt(fs, dir.id, k, s) == Free &&
                              |slots| == DIRENTS_PER_BLOCK && forall s' :: 0 <= s' < |slots| ==> slots[s'] == SlotAt(fs, dir.id, k, s')
      ensures ok && !found ==> forall k', s' :: 0 <= k' < |dir.extents| && 0 <= s' < DIRENTS_PER_BLOCK ==> SlotAt(fs, dir.id, k', s') != Free
    {
      ok, found, k, s, slots := true, false, 0, 0, [];
      while k < BlockCount(dir.size)
        invariant Counted(old(requests), old(faults))
        invariant k <= |dir.extents| == BlockCount(dir.size) && faults == old(faults)
        invariant forall k', s' :: 0 <= k' < k && 0 <= s' < DIRENTS_PER_BLOCK ==> SlotAt(fs, dir.id, k', s') != Free
      {
        ok, slots := ReadDirectoryBlock(dir, k);
        if !ok {
          return;
        }
        s := 0;
        while s < DIRENTS_PER_BLOCK
          invariant Counted(old(requests), old(faults))
          invariant s <= DIRENTS_PER_BLOCK && faults == old(faults)
          invariant forall s' :: 0 <= s' < s ==> SlotAt(fs, dir.id, k, s') != Free
        {
          if slots[s].Free? {
            found := true;
            return;
          }
          s := s + 1;
        }
        k := k + 1;
      }
    }

    /** Writes block k of a directory back with slot s changed, and stamps the directory. */
    method SetSlot(dir: Inode, k: nat, s: nat, slots: seq<Dirent>, e: Dirent) returns (ok: bool)
      requires Readable(fs, dir.id) && Ino(fs, dir.id) == dir && dir.kind == Directory
      requires k < |dir.extents| && s < DIRENTS_PER_BLOCK
      requires |slots| == DIRENTS_PER_BLOCK && forall s' :: 0 <= s' < |slots| ==> slots[s'] == SlotAt(fs, dir.id, k, s')
      modifies this`requests, this`faults, this`journalRecords, this`fs, this`log, this`written, this`puts
      ensures old(puts) <= puts <= old(puts) + 1
      ensures old(Mirrored()) ==> Mirrored()
      ensures Counted(old(requests), old(faults)) && (ok ==> faults == old(faults))
      ensures old(journalRecords) <= journalRecords <= old(journalRecords) + 1
      ensures !ok ==> faults > old(faults) || 2 * journalRecords + 1 >= JOURNAL_BLOCKS
      ensures ok ==> SlotSet(old(fs), fs, dir.id, k, s, e)
    {
      assert GoodInode(fs, dir.id);
      DirectoryBlock(dir.extents, 0, k);
      assert dir.extents[0..] == dir.extents;
      assert slots == Slots(fs.blocks[dir.extents[k].physical]);
      ok := WriteDataBlock(dir, k, Dir(slots[s := e]));
      if ok {
        ok := WriteInode(dir.(modified := dir.modified + 1));
      }
    }

    /**
     * Adds an entry for the orphan inode id.  A failed block read while looking for the name counts
     * as "not there" (k64_xfs.c:279-281, 314), so the invariant survives exactly if the name was free.
     */
    method DirAdd(dir: Inode, name: string, id: nat, kind: Kind) returns (ok: bool)
      requires Sound(fs, id) && Live(fs, dir.id) && Ino(fs, dir.id) == dir && dir.kind == Directory
      requires Live(fs, id) && id != ROOT && Ino(fs, id).kind == kind
      modifies this`requests, this`faults, this`journalRecords, this`fs, this`log, this`written, this`puts
      ensures old(puts) <= puts <= old(puts) + 1
      ensures old(Mirrored()) ==> Mirrored()
      ensures Counted(old(requests), old(faults))
      ensures old(journalRecords) <= journalRecords <= old(journalRecords) + 2
      ensures ok ==> RoomFor(old(fs), dir.id, Regular) && EntryBits(old(fs), fs, dir.id)
      // a failed first read hides the name; without other faults the name, the room or the journal is the reason
      ensures !ok && faults <= old(faults) + Fault(old(requests)) ==>
                || !ValidName(name) || !RoomFor(old(fs), dir.id, Regular) || 2 * journalRecords + 1 >= JOURNAL_BLOCKS
                || (!fails(old(requests)) && Find(old(fs), dir.id, name).Some?)
      ensures fails(old(requests)) && ValidName(name) ==> requests > old(requests)
      ensures ok ==> Sound(fs, 0)
      ensures ok && NamesUnique(old(fs)) ==> (Find(old(fs), dir.id, name) == None <==> NamesUnique(fs))
      ensures ok && NamesUnique(old(fs)) && NamesUnique(fs) ==> NameAdded(old(fs), fs, dir.id, name, id)
      ensures ok && faults == old(faults) ==> Find(old(fs), dir.id, name) == None
    {
      if !ValidName(name) {
        return false;
      }
      SoundIsReadable(fs, dir.id);
      var present, k, s, e := DirFind(dir, name);
      if present {
        return false;
      }
      e := Dirent(id, kind, name);
      var found, slots;
      ok, found, k, s, slots := FreeSlot(dir);
      if !ok {
        return;
      }
      if found {
        ok := SetSlot(dir, k, s, slots, e);
        if ok {
          LinkAdds(old(fs), fs, dir.id, k, s, e);
        }
      } else {
        ok := AppendBlock(dir, e);
      }
    }

    /** Grows a directory by a block whose first slot is e. */
    method AppendBlock(dir: Inode, e: Dirent) returns (ok: bool)
      requires e.Dirent? && Sound(fs, e.id) && Live(fs, dir.id) && Ino(fs, dir.id) == dir && dir.kind == Directory
      requires Live(fs, e.id) && e.id != ROOT && Ino(fs, e.id).kind == e.kind && ValidName(e.name)
      modifies this`requests, this`faults, this`journalRecords, this`fs, this`log, this`written, this`puts
      ensures old(puts) <= puts <= old(puts) + 1
      ensures old(Mirrored()) ==> Mirrored()
      ensures Counted(old(requests), old(faults)) && (ok ==> faults == old(faults))
      ensures old(journalRecords) <= journalRecords <= old(journalRecords) + 2
      ensures ok ==> |dir.extents| < DIRECT_EXTENTS && old(fs).free > 0
      ensures ok ==> exists b: nat :: LowestClear(old(fs).blockBits, b) && fs.blockBits == old(fs).blockBits[b := true]
      ensures !ok ==> faults > old(faults) || |dir.extents| >= DIRECT_EXTENTS || old(fs).free == 0 || 2 * journalRecords + 1 >= JOURNAL_BLOCKS
      ensures ok ==> Sound(fs, 0)
      ensures ok && NamesUnique(old(fs)) ==> (Find(old(fs), dir.id, e.name) == None <==> NamesUnique(fs))
      ensures ok && NamesUnique(old(fs)) && NamesUnique(fs) ==> NameAdded(old(fs), fs, dir.id, e.name, e.id)
    {
      var b;
      ok, b := AllocExtent(1);
      if !ok {
        NoFreeBlock(old(fs), fs);
        return;
      }
      assert LowestClear(old(fs).blockBits, b);
      ok := Request();
      if !ok {
        return;
      }
      PutBlock(b, Dir(EmptySlots()[0 := e]));
      if |dir.extents| >= DIRECT_EXTENTS {
        var _ := FreeExtent(b, 1);
        return false;
      }
      ok := WriteInode(Grown(dir, b));
      if ok {
        assert fs.blockBits == old(fs).blockBits[b := true];
        AppendLinks(old(fs), fs, dir, b, e);
      }
    }

    // -------------------------------------------------------------------------------------
    // Paths
    // -------------------------------------------------------------------------------------

    /** One step of a path walk. */
    method Descend(dir: Inode, name: string) returns (ok: bool, i: Inode)
      requires Sound(fs, 0) && Live(fs, dir.id) && Ino(fs, dir.id) == dir
      modifies this`requests, this`faults
      ensures Counted(old(requests), old(faults)) && (ok ==> faults == old(faults))
      ensures ok ==> Live(fs, i.id) && Ino(fs, i.id) == i
      ensures ok && NamesUnique(fs) ==> Find(fs, dir.id, name) == Some(i.id)
      ensures !ok ==> faults > old(faults) || Find(fs, dir.id, name) == None
    {
      i := dir;
      SoundIsReadable(fs, dir.id);
      var k, s, e;
      ok, k, s, e := DirFind(dir, name);
      if !ok {
        if name == "" {
          InvalidNamesMissing(fs, dir.id, name);
        }
        return;
      }
      ok, i := OpenEntry(dir, k, s, e);
    }

    /** The inode an entry leads to. */
    method OpenEntry(dir: Inode, ghost k: nat, ghost s: nat, e: Dirent) returns (ok: bool, i: Inode)
      requires Sound(fs, 0) && At(fs, dir.id, k, s, e)
      modifies this`requests, this`faults
      ensures Counted(old(requests), old(faults)) && (ok <==> faults == old(faults))
      ensures ok ==> Live(fs, i.id) && Ino(fs, i.id) == i
      ensures ok && NamesUnique(fs) ==> Find(fs, dir.id, e.name) == Some(i.id)
    {
      EntryLeads(fs, dir.id, k, s, e);
      ok, i := ReadInode(e.id);
    }

    /** Walks a path from the root. */
    method Resolve(path: string) returns (ok: bool, i: Inode)
      requires Sound(fs, 0)
      modifies this`requests, this`faults
      ensures Counted(old(requests), old(faults)) && (ok ==> faults == old(faults))
      ensures ok ==> path != "" && path[0] == '/' && Live(fs, i.id) && Ino(fs, i.id) == i
      ensures ok && NamesUnique(fs) ==> FileSystem.Resolve(fs, Paths.Components(path)) == Some(i.id)
      ensures !ok && NamesUnique(fs) && faults == old(faults) && path != "" && path[0] == '/' ==>
                FileSystem.Resolve(fs, Paths.Components(path)) == None
      ensures path != "" && path[0] == '/' && Paths.Components(path) == [] && !fails(old(requests)) ==>
                ok && i == Ino(fs, ROOT) && requests == old(requests) + 1
    {
      i := Inode(0, Regular, 0, 0, 0, 0, 0, []);
      if path == "" || path[0] != '/' {
        return false, i;
      }
      ok, i := ReadInode(ROOT);
      if !ok {
        return;
      }
      assert GoodInode(fs, ROOT);
      var tokens := Paths.Tokenize(path);
      ok, i := Walk(tokens, i);
    }

    method Walk(path: seq<string>, root: Inode) returns (ok: bool, i: Inode)
      requires Sound(fs, 0) && root.id == ROOT && Ino(fs, ROOT) == root
      modifies this`requests, this`faults
      ensures Counted(old(requests), old(faults)) && (ok ==> faults == old(faults))
      ensures ok ==> Live(fs, i.id) && Ino(fs, i.id) == i
      ensures ok && NamesUnique(fs) ==> FileSystem.Resolve(fs, path) == Some(i.id)
      ensures !ok && NamesUnique(fs) ==> faults > old(faults) || FileSystem.Resolve(fs, path) == None
      ensures path == [] ==> ok && i == root && requests == old(requests)
    {
      ok, i := true, root;
      for n := 0 to |path|
        invariant Counted(old(requests), old(faults))
        invariant ok && faults == old(faults)
        invariant Live(fs, i.id) && Ino(fs, i.id) == i
        invariant n == 0 ==> i == root && requests == old(requests)
        invariant NamesUnique(fs) ==> FileSystem.Resolve(fs, path[..n]) == Some(i.id)
      {
        if NamesUnique(fs) {
          WalkStep(fs, path, n);
        }
        if |path[n]| >= NAME_MAX {
          InvalidNamesMissing(fs, i.id, path[n]);
          return false, i;
        }
        ok, i := Descend(i, path[n]);
        if !ok {
          return;
        }
      }
      assert path[..|path|] == path;
    }

    // -------------------------------------------------------------------------------------
    // Creating files and directories
    // -------------------------------------------------------------------------------------

    /** A new inode; a directory gets one empty block. */
    method NewInode(kind: Kind, mode: nat, uid: nat, gid: nat) returns (ok: bool, i: Inode, ghost b: nat)
      requires Inv(fs)
      modifies this`requests, this`faults, this`journalRecords, this`fs, this`log, this`written, this`puts
      ensures old(puts) <= puts <= old(puts) + 1
      ensures old(Mirrored()) ==> Mirrored()
      ensures Counted(old(requests), old(faults)) && (ok ==> faults == old(faults))
      ensures old(journalRecords) <= journalRecords <= old(journalRecords) + 4
      ensures ok ==> Adopted(old(fs), fs, i, b) && Balanced(fs) && AsAsked(i, Attributes(kind, mode, uid, gid, generation + 1))
      ensures ok ==> !NoInode(old(fs)) && old(fs).free == fs.free + if kind == Directory then 1 else 0
      ensures !ok ==> faults > old(faults) || 2 * old(journalRecords) + 9 >= JOURNAL_BLOCKS || NoInode(old(fs)) ||
                      (kind == Directory && old(fs).free == 0)
      ensures kind == Regular ==> requests <= old(requests) + 8 && (ok && journalActive ==> requests == old(requests) + 8)
    {
      b := 0;
      var id;
      i := Inode(0, kind, ModeBits(kind, mode), uid, gid, 0, generation + 1, []);
      ok, id := AllocInode();
      if !ok {
        return;
      }
      i := i.(id := id);
      ok := WriteInode(i);
      if !ok || kind == Regular {
        return;
      }
      ok, i, b := FirstBlock(i);
    }

    /** Gives a new directory its first, empty block, or its number back. */
    method FirstBlock(i: Inode) returns (ok: bool, i': Inode, ghost b: nat)
      requires Geometry(fs) && Balanced(fs) && 1 <= i.id <= MAX_INODES
      modifies this`requests, this`faults, this`journalRecords, this`fs, this`log, this`written, this`puts
      ensures old(puts) <= puts <= old(puts) + 1
      ensures old(Mirrored()) ==> Mirrored()
      ensures Counted(old(requests), old(faults)) && (ok ==> faults == old(faults))
      ensures old(journalRecords) <= journalRecords <= old(journalRecords) + 2
      ensures ok ==> old(fs).free > 0 && DATA_START <= b < |old(fs).blocks| && !old(fs).blockBits[b] &&
                     i' == i.(size := BLOCK_SIZE, extents := [Extent(0, b, 1)]) && Geometry(fs) && Balanced(fs) &&
                     fs == Volume(old(fs).free - 1, old(fs).inodeBits, old(fs).blockBits[b := true],
                                  old(fs).inodes[i.id - 1 := Some(i')], old(fs).blocks[b := Dir(EmptySlots())])
      ensures !ok ==> faults > old(faults) || 2 * old(journalRecords) + 5 >= JOURNAL_BLOCKS || old(fs).free == 0
    {
      i', b := i, 0;
      var start;
      ok, start := AllocExtent(1);
      if !ok {
        NoFreeBlock(old(fs), fs);
        var freed := FreeInode(i.id);
        return;
      }
      assert fs.blockBits == old(fs).blockBits[start := true];
      ok := Request();
      if !ok {
        return;
      }
      PutBlock(start, Dir(EmptySlots()));
      i', b := i.(size := BLOCK_SIZE, extents := [Extent(0, start, 1)]), start;
      ok := WriteInode(i');
    }

    /** The directory a new path goes into; a failed read passes for the name being free. */
    method OpenParent(path: string) returns (ok: bool, parent: Inode, leaf: string, ghost dir: seq<string>)
      requires Inv(fs)
      modifies this`requests, this`faults
      ensures Counted(old(requests), old(faults))
      ensures ok ==> Paths.WellFormed(path, NAME_MAX) && Paths.Components(path) == dir + [leaf] && ValidName(leaf)
      ensures ok ==> FileSystem.Resolve(fs, dir) == Some(parent.id) && Live(fs, parent.id) && Ino(fs, parent.id) == parent &&
                     parent.kind == Directory
      ensures faults == old(faults) ==> (ok <==> Openable(fs, path))
      ensures HiddenFrom(old(requests)) && Paths.WellFormed(path, NAME_MAX) && |Paths.Components(path)| == 1 ==>
                ok && requests == old(requests) + 2
    {
      parent, dir := Inode(0, Regular, 0, 0, 0, 0, 0, []), [];
      var parentPath;
      ok, parentPath, leaf := Paths.SplitParent(path, NAME_MAX);
      if !ok {
        return;
      }
      dir := Paths.Components(parentPath);
      OpenableIs(fs, path, dir, leaf);
      ok, parent := Resolve(parentPath);
      if !ok || parent.kind != Directory {
        return false, parent, leaf, dir;
      }
      SoundIsReadable(fs, parent.id);
      var present, k, s, e := DirFind(parent, leaf);
      ok := !present;
    }

    /** Of all requests only r + 1 and r + 10 fail: the two reads that look for the name in the root directory. */
    ghost predicate HiddenFrom(r: nat) { forall n :: fails(n) <==> n == r + 1 || n == r + 10 }

    /** From request r on, only request r + k fails. */
    ghost predicate OnlyFailure(r: nat, k: nat) { forall n :: r <= n ==> (fails(n) <==> n == r + k) }

    lemma {:induction false} FailedBetween(a: nat, b: nat)
      requires a <= b && forall n :: a <= n < b ==> !fails(n)
      ensures Failed(a) == Failed(b)
      decreases b - a
    {
      if a < b {
        FailedBetween(a, b - 1);
      }
    }

    lemma {:induction false} OnlyOneFails(r: nat, k: nat, n: nat)
      requires r <= n
      ensures OnlyFailure(r, k) ==> Failed(n) == Failed(r) + (if n > r + k then 1 else 0) && Fault(r + k) == 1
    {
      if OnlyFailure(r, k) {
        if n <= r + k {
          FailedBetween(r, n);
        } else {
          FailedBetween(r, r + k);
          FailedBetween(r + k + 1, n);
        }
      }
    }

    /**
     * Creates a file or a directory.  Where a failed read hid that the path was there, it is there twice afterwards,
     * and two failed reads are enough for that.
     */
    method CreateAt(path: string, kind: Kind, mode: nat, uid: nat, gid: nat) returns (ok: bool)
      requires Inv(fs)
      modifies this`requests, this`faults, this`journalRecords, this`fs, this`log, this`written, this`puts
      ensures old(puts) <= puts <= old(puts) + 2
      ensures old(Mirrored()) ==> Mirrored()
      ensures Counted(old(requests), old(faults))
      ensures old(journalRecords) <= journalRecords <= old(journalRecords) + 6
      ensures ok ==> Sound(fs, 0) && (FileSystem.Resolve(old(fs), Paths.Components(path)) == None <==> NamesUnique(fs))
      ensures ok && FileSystem.Resolve(old(fs), Paths.Components(path)) == None ==>
                PathAdded(old(fs), fs, Paths.Components(path), Attributes(kind, mode, uid, gid, generation + 1))
      ensures faults == old(faults) && old(journalRecords) == 0 ==> (ok <==> Creatable(old(fs), path, kind))
      ensures ok && faults == old(faults) ==> Creatable(old(fs), path, kind)
      ensures ok && Creatable(old(fs), path, Regular) && kind == Regular ==> EntryAt(old(fs), fs, path)
      ensures journalActive && old(journalRecords) == 0 && HiddenFrom(old(requests)) && kind == Regular && RootTakes(old(fs), path) ==>
                ok && requests > old(requests) + 10
    {
      var parent, leaf;
      ghost var dir;
      ok, parent, leaf, dir := OpenParent(path);
      if ok {
        assert Paths.Components(path)[..|dir|] == dir;
        ok := MakeIn(parent, leaf, dir, kind, mode, uid, gid, Attributes(kind, mode, uid, gid, generation + 1));
      }
    }

    /** Makes an inode and enters it in a directory. */
    method MakeIn(parent: Inode, leaf: string, ghost dir: seq<string>, kind: Kind, mode: nat, uid: nat, gid: nat, ghost a: Attributes) returns (ok: bool)
      requires a == Attributes(kind, mode, uid, gid, generation + 1)
      requires Inv(fs) && ValidName(leaf) && FileSystem.Resolve(fs, dir) == Some(parent.id)
      requires Live(fs, parent.id) && Ino(fs, parent.id) == parent && parent.kind == Directory
      modifies this`requests, this`faults, this`journalRecords, this`fs, this`log, this`written, this`puts
      ensures old(puts) <= puts <= old(puts) + 2
      ensures old(Mirrored()) ==> Mirrored()
      ensures Counted(old(requests), old(faults))
      ensures old(journalRecords) <= journalRecords <= old(journalRecords) + 6
      ensures ok ==> Sound(fs, 0) && (FileSystem.Resolve(old(fs), dir + [leaf]) == None <==> NamesUnique(fs))
      ensures ok && FileSystem.Resolve(old(fs), dir + [leaf]) == None ==> PathAdded(old(fs), fs, dir + [leaf], a)
      ensures ok && faults == old(faults) ==> FileSystem.Resolve(old(fs), dir + [leaf]) == None
      ensures ok ==> !NoInode(old(fs)) && RoomFor(old(fs), parent.id, kind) && (kind == Regular ==> EntryBits(old(fs), fs, parent.id))
      ensures !ok && faults == old(faults) && old(journalRecords) == 0 ==>
                NoInode(old(fs)) || !RoomFor(old(fs), parent.id, kind) || FileSystem.Resolve(old(fs), dir + [leaf]).Some?
      ensures journalActive && old(journalRecords) == 0 && OnlyFailure(old(requests), 8) && kind == Regular &&
              !NoInode(old(fs)) && RoomFor(old(fs), parent.id, kind) ==>
                ok && requests > old(requests) + 8
    {
      ghost var v, r := fs, requests;
      var i;
      ghost var b;
      ok, i, b := NewInode(kind, mode, uid, gid);
      OnlyOneFails(r, 8, requests);
      if ok {
        ok := LinkNew(parent, leaf, i, b, dir, v, a);
        OnlyOneFails(r, 8, requests);
      }
    }

    /** Enters a new inode in its directory. */
    method LinkNew(parent: Inode, leaf: string, i: Inode, ghost b: nat, ghost dirPath: seq<string>, ghost v: Volume, ghost a: Attributes) returns (ok: bool)
      requires Inv(v) && Adopted(v, fs, i, b) && Balanced(fs) && AsAsked(i, a)
      requires v.free == fs.free + if i.kind == Directory then 1 else 0
      requires Live(v, parent.id) && Ino(v, parent.id) == parent && parent.kind == Directory && ValidName(leaf)
      requires FileSystem.Resolve(v, dirPath) == Some(parent.id)
      modifies this`requests, this`faults, this`journalRecords, this`fs, this`log, this`written, this`puts
      ensures old(puts) <= puts <= old(puts) + 1
      ensures old(Mirrored()) ==> Mirrored()
      ensures Counted(old(requests), old(faults))
      ensures old(journalRecords) <= journalRecords <= old(journalRecords) + 2
      ensures ok ==> Sound(fs, 0) && (FileSystem.Resolve(v, dirPath + [leaf]) == None <==> NamesUnique(fs))
      ensures ok && FileSystem.Resolve(v, dirPath + [leaf]) == None ==> PathAdded(v, fs, dirPath + [leaf], a)
      ensures ok && faults == old(faults) ==> FileSystem.Resolve(v, dirPath + [leaf]) == None
      ensures ok ==> RoomFor(v, parent.id, i.kind) && (i.kind == Regular ==> EntryBits(v, fs, parent.id))
      ensures !ok && faults <= old(faults) + Fault(old(requests)) ==>
                || !RoomFor(v, parent.id, i.kind) || 2 * journalRecords + 1 >= JOURNAL_BLOCKS
                || (!fails(old(requests)) && FileSystem.Resolve(v, dirPath + [leaf]).Some?)
      ensures fails(old(requests)) ==> requests > old(requests)
    {
      ghost var v1 := fs;
      AdoptKeepsInv(v, v1, i, b);
      AdoptTouchesNone(v, v1, i, b, parent.id);
      AdoptKeepsRoom(v, v1, i, b, parent.id);
      LastStep(v, dirPath, leaf);
      ok := DirAdd(parent, leaf, i.id, i.kind);
      if ok && Find(v, parent.id, leaf) == None {
        CreateAddsPath(v, v1, fs, parent.id, i, b, dirPath, leaf, a);
      }
    }

    method Create(path: string, mode: nat, uid: nat, gid: nat) returns (ok: bool)
      requires Inv(fs)
      modifies this
      ensures ok && !old(journalActive) ==> base == old(fs) && Mirrored() && written <= 6 && puts <= 2
      ensures Counted(old(requests), old(faults))
      ensures ok ==> Sound(fs, 0) && !journalActive && (Inv(fs) <==> FileSystem.Resolve(old(fs), Paths.Components(path)) == None)
      ensures ok && Inv(fs) ==>
                PathAdded(old(fs), fs, Paths.Components(path), Attributes(Regular, if mode == 0 then 0x1A4 else mode, uid, gid, generation))
      ensures ok ==> generation == old(generation) + 1
      ensures ok && faults == old(faults) ==> Inv(fs)
      ensures faults == old(faults) && !old(journalActive) ==> (ok <==> Creatable(old(fs), path, Regular))
      ensures ok && Creatable(old(fs), path, Regular) ==> EntryAt(old(fs), fs, path)
      ensures !old(journalActive) && HiddenFrom(old(requests)) && RootTakes(old(fs), path) ==> ok
    {
      Begin();
      ok := CreateAndFinish(path, Regular, if mode == 0 then 0x1A4 else mode, uid, gid);
    }

    method CreateAndFinish(path: string, kind: Kind, mode: nat, uid: nat, gid: nat) returns (ok: bool)
      requires Inv(fs) && journalActive
      modifies this`requests, this`faults, this`journalActive, this`journalRecords, this`generation, this`fs, this`log, this`written, this`puts
      ensures old(puts) <= puts <= old(puts) + 2
      ensures ok && old(Mirrored()) ==> Mirrored() && written <= old(journalRecords) + 6
      ensures Counted(old(requests), old(faults))
      ensures ok ==> Sound(fs, 0) && !journalActive && (FileSystem.Resolve(old(fs), Paths.Components(path)) == None <==> NamesUnique(fs))
      ensures ok && FileSystem.Resolve(old(fs), Paths.Components(path)) == None ==>
                PathAdded(old(fs), fs, Paths.Components(path), Attributes(kind, mode, uid, gid, generation))
      ensures ok ==> generation == old(generation) + 1
      ensures ok && faults == old(faults) ==> Creatable(old(fs), path, kind)
      ensures !ok && faults == old(faults) && old(journalRecords) == 0 ==> !Creatable(old(fs), path, kind)
      ensures ok && Creatable(old(fs), path, Regular) && kind == Regular ==> EntryAt(old(fs), fs, path)
      ensures old(journalRecords) == 0 && HiddenFrom(old(requests)) && kind == Regular && RootTakes(old(fs), path) ==> ok
    {
      ok := CreateAt(path, kind, mode, uid, gid);
      if ok {
        ghost var r := requests;
        ok := Finish();
        if HiddenFrom(old(requests)) && r > old(requests) + 10 {
          FailedBetween(r, requests);
        }
      }
    }

    method Mkdir(path: string, mode: nat, uid: nat, gid: nat) returns (ok: bool)
      requires Inv(fs)
      modifies this
      ensures ok && !old(journalActive) ==> base == old(fs) && Mirrored() && written <= 6 && puts <= 2
      ensures Counted(old(requests), old(faults))
      ensures ok ==> Sound(fs, 0) && !journalActive && (Inv(fs) <==> FileSystem.Resolve(old(fs), Paths.Components(path)) == None)
      ensures ok && Inv(fs) ==>
                PathAdded(old(fs), fs, Paths.Components(path), Attributes(Directory, if mode == 0 then 0x1ED else mode, uid, gid, generation))
      ensures ok ==> generation == old(generation) + 1
      ensures ok && faults == old(faults) ==> Inv(fs)
      ensures faults == old(faults) && !old(journalActive) ==> (ok <==> Creatable(old(fs), path, Directory))
    {
      Begin();
      ok := CreateAndFinish(path, Directory, if mode == 0 then 0x1ED else mode, uid, gid);
    }

    // -------------------------------------------------------------------------------------
    // Writing and reading files
    // -------------------------------------------------------------------------------------

    method FreeFileExtents(i: Inode) returns (ok: bool)
      requires Sound(fs, 0) && Live(fs, i.id) && Ino(fs, i.id) == i
      modifies this`requests, this`faults, this`journalRecords, this`fs, this`log, this`written
      ensures old(Mirrored()) ==> Mirrored()
      ensures Counted(old(requests), old(faults)) && (ok ==> faults == old(faults))
      ensures old(journalRecords) <= journalRecords <= old(journalRecords) + |i.extents|
      ensures ok ==> Released(old(fs), fs, i.extents, |i.extents|)
      ensures !ok ==> faults > old(faults) || 2 * journalRecords + 1 >= JOURNAL_BLOCKS
    {
      assert GoodInode(fs, i.id);
      for e := 0 to |i.extents|
        invariant Counted(old(requests), old(faults))
        invariant faults == old(faults)
        invariant old(journalRecords) <= journalRecords <= old(journalRecords) + e
        invariant old(Mirrored()) ==> Mirrored()
        invariant Released(old(fs), fs, i.extents, e)
      {
        var x := i.extents[e];
        if x.count > 0 {
          ghost var before := fs;
          ok := FreeExtent(x.physical, x.count);
          if !ok {
            return;
          }
          ReleaseOne(old(fs), before, fs, i.extents, e);
        }
      }
      ok := true;
    }

    /** Writes the chunks of data to consecutive blocks. */
    method WriteChunks(start: nat, data: seq<Byte>) returns (ok: bool)
      requires DATA_START <= start && start + BlockCount(|data|) <= |fs.blocks| <= MAX_BLOCKS
      modifies this`requests, this`faults, this`fs, this`log, this`written, this`puts
      ensures old(puts) <= puts <= old(puts) + BlockCount(|data|)
      ensures old(Mirrored()) ==> Mirrored()
      ensures Counted(old(requests), old(faults)) && (ok <==> faults == old(faults))
      ensures fs == old(fs).(blocks := fs.blocks) && |fs.blocks| == |old(fs).blocks|
      ensures ok ==> Holds(fs, start, data, BlockCount(|data|))
      ensures forall b :: 0 <= b < |fs.blocks| && !InRun(start, BlockCount(|data|), b) ==> fs.blocks[b] == old(fs).blocks[b]
    {
      ok := true;
      for b := 0 to BlockCount(|data|)
        invariant Counted(old(requests), old(faults))
        invariant ok && faults == old(faults)
        invariant fs == old(fs).(blocks := fs.blocks) && |fs.blocks| == |old(fs).blocks| && Holds(fs, start, data, b)
        invariant puts == old(puts) + b
        invariant old(Mirrored()) ==> Mirrored()
        invariant forall x :: 0 <= x < |fs.blocks| && !InRun(start, BlockCount(|data|), x) ==> fs.blocks[x] == old(fs).blocks[x]
      {
        ok := Request();
        if !ok {
          return;
        }
        PutBlock(start + b, Data(Chunk(data, b)));
      }
    }

    /** Replaces the contents of a regular file. */
    method ReplaceContents(i: Inode, data: seq<Byte>, uid: nat, gid: nat) returns (ok: bool)
      requires Sound(fs, 0) && Live(fs, i.id) && Ino(fs, i.id) == i && i.kind == Regular
      modifies this`requests, this`faults, this`journalRecords, this`fs, this`log, this`written, this`puts
      ensures old(puts) <= puts <= old(puts) + BlockCount(|data|)
      ensures old(Mirrored()) ==> Mirrored()
      ensures Counted(old(requests), old(faults)) && (ok ==> faults == old(faults))
      ensures old(journalRecords) <= journalRecords <= old(journalRecords) + DIRECT_EXTENTS + 2
      ensures ok ==> ContentsReplaced(old(fs), fs, i.id, data, uid, gid, generation + 1)
      ensures !ok ==> faults > old(faults) || 2 * journalRecords + 1 >= JOURNAL_BLOCKS || NoRoom(old(fs), i, BlockCount(|data|))
    {
      assert GoodInode(fs, i.id);
      ghost var v := fs;
      var n := BlockCount(|data|);
      ok := FreeFileExtents(i);
      if !ok {
        return;
      }
      ghost var released := fs;
      var start := 0;
      if n > 0 {
        ok, start := AllocExtent(n);
        if !ok {
          StillNoRoom(v, released, i, n);
          return;
        }
        ok := WriteChunks(start, data);
        if !ok {
          return;
        }
      }
      var i' := i.(extents := if n == 0 then [] else [Extent(0, start, n)], size := |data|, uid := uid, gid := gid,
                   modified := generation + 1);
      ok := WriteInode(i');
      if ok {
        ReplacedIsRewritten(v, released, fs, i, i', start, n);
        RewriteKeepsInv(v, fs, i.id, start, n);
        RewriteLosesNone(v, fs, i.id, start, n);
        ReadsBack(fs, i', start, data);
      }
    }

    /** Replaces the contents of a regular file in a transaction. */
    method Rewrite(i: Inode, data: seq<Byte>, uid: nat, gid: nat) returns (ok: bool)
      requires Sound(fs, 0) && Live(fs, i.id) && Ino(fs, i.id) == i && i.kind == Regular
      modifies this
      ensures ok && !old(journalActive) ==> base == old(fs) && Mirrored() && written <= DIRECT_EXTENTS + 2 && puts <= BlockCount(|data|)
      ensures Counted(old(requests), old(faults))
      ensures ok ==> faults == old(faults) && !journalActive && ContentsReplaced(old(fs), fs, i.id, data, uid, gid, generation)
      ensures !ok && !old(journalActive) ==> faults > old(faults) || NoRoom(old(fs), i, BlockCount(|data|))
    {
      assert GoodInode(fs, i.id);
      Begin();
      ok := RewriteAndFinish(i, data, uid, gid);
    }

    method RewriteAndFinish(i: Inode, data: seq<Byte>, uid: nat, gid: nat) returns (ok: bool)
      requires Sound(fs, 0) && Live(fs, i.id) && Ino(fs, i.id) == i && i.kind == Regular && journalActive
      modifies this`requests, this`faults, this`journalActive, this`journalRecords, this`generation, this`fs, this`log, this`written, this`puts
      ensures old(puts) <= puts <= old(puts) + BlockCount(|data|)
      ensures ok && old(Mirrored()) ==> Mirrored() && written <= old(journalRecords) + DIRECT_EXTENTS + 2
      ensures Counted(old(requests), old(faults))
      ensures ok ==> faults == old(faults) && !journalActive && ContentsReplaced(old(fs), fs, i.id, data, uid, gid, generation)
      ensures !ok && old(journalRecords) == 0 ==> faults > old(faults) || NoRoom(old(fs), i, BlockCount(|data|))
    {
      ok := ReplaceContents(i, data, uid, gid);
      if ok {
        ghost var w := fs;
        ok := Finish();
        assert fs == w;
      }
    }

    /** The inode at a path, which is made if it does not seem to be there. */
    method OpenOrCreate(path: string, uid: nat, gid: nat) returns (ok: bool, i: Inode)
      requires Inv(fs)
      modifies this
      ensures Counted(old(requests), old(faults))
      ensures ok ==> Sound(fs, 0) && Live(fs, i.id) && Ino(fs, i.id) == i && (!old(journalActive) ==> !journalActive)
      ensures ok ==> (Inv(fs) <==> faults == old(faults) || FileSystem.Resolve(old(fs), Paths.Components(path)) == None)
      ensures ok && Inv(fs) ==> FileSystem.Resolve(fs, Paths.Components(path)) == Some(i.id) &&
                                (fs == old(fs) || PathAdded(old(fs), fs, Paths.Components(path), Attributes(Regular, 0x1A4, uid, gid, generation)))
      ensures faults == old(faults) && path != "" && path[0] == '/' && FileSystem.Resolve(old(fs), Paths.Components(path)).Some? ==>
                ok && fs == old(fs)
      ensures !ok && faults == old(faults) && !old(journalActive) ==> !Creatable(old(fs), path, Regular)
      ensures ok && faults == old(faults) && Creatable(old(fs), path, Regular) ==>
                EntryAt(old(fs), fs, path) && i.kind == Regular && i.extents == []
    {
      ok, i := Resolve(path);
      if !ok {
        ok := Create(path, 0x1A4, uid, gid);
        if !ok {
          return;
        }
        ok, i := Resolve(path);
      }
    }

    /**
     * Writes a whole file, creating it if needed.  The path then reads as exactly these bytes and nothing else on the
     * volume has changed its name or contents, unless failed reads hid a file that was there and it was made again.
     */
    method WriteFile(path: string, data: seq<Byte>, uid: nat, gid: nat) returns (ok: bool)
      requires Inv(fs)
      modifies this
      ensures ok && !old(journalActive) ==> Mirrored() && written <= DIRECT_EXTENTS + 2 && puts <= BlockCount(|data|)
      ensures ok && !old(journalActive) && faults == old(faults) && FileSystem.Resolve(old(fs), Paths.Components(path)).Some? ==> base == old(fs)
      ensures Counted(old(requests), old(faults))
      ensures ok ==> Sound(fs, 0) && !journalActive && (Inv(fs) ==> FileWritten(old(fs), fs, Paths.Components(path), data, uid, gid, generation))
      ensures ok ==> (Inv(fs) <==> faults == old(faults) || FileSystem.Resolve(old(fs), Paths.Components(path)) == None)
      // an existing file can only be refused for lack of room: the journal always has space for the records
      ensures !ok && faults == old(faults) && !old(journalActive) && FileAt(old(fs), Paths.Components(path)).Some? &&
              path != "" && path[0] == '/' ==>
                NoRoom(old(fs), Ino(old(fs), FileSystem.Resolve(old(fs), Paths.Components(path)).value), BlockCount(|data|))
      // and a new one only because it cannot be made or finds no room
      ensures !ok && faults == old(faults) && !old(journalActive) && Creatable(old(fs), path, Regular) ==>
                NoRoomForNew(old(fs), path, BlockCount(|data|))
    {
      ghost var v, p := fs, Paths.Components(path);
      var i;
      ok, i := OpenOrCreate(path, uid, gid);
      if !ok {
        return;
      }
      ghost var v1, a := fs, Attributes(Regular, 0x1A4, uid, gid, generation);
      if i.kind != Regular || BlockCount(|data|) >= 0x1_0000_0000 {
        return false;
      }
      ok := Rewrite(i, data, uid, gid);
      if ok && Inv(fs) {
        WriteIsWritten(v, v1, fs, p, i, data, a, generation);
      } else if !ok && faults == old(faults) && !old(journalActive) && Creatable(v, path, Regular) {
        NewHasNoRoom(v, v1, path, i, BlockCount(|data|));
      }
    }

    /** Reads up to max bytes of a file. */
    method ReadFile(path: string, max: nat) returns (ok: bool, data: seq<Byte>)
      requires Inv(fs)
      modifies this`requests, this`faults
      ensures Counted(old(requests), old(faults)) && (ok ==> faults == old(faults))
      ensures ok ==> FileAt(fs, Paths.Components(path)).Some?
      ensures ok ==> var f := FileAt(fs, Paths.Components(path)).value; data == if |f| <= max then f else f[..max]
      ensures !ok && faults == old(faults) && path != "" && path[0] == '/' ==> FileAt(fs, Paths.Components(path)) == None
    {
      var i;
      ok, i := Resolve(path);
      if !ok || i.kind != Regular {
        return false, [];
      }
      assert GoodInode(fs, i.id);
      ok, data := ReadBytes(i, max);
    }

    method ReadBytes(i: Inode, max: nat) returns (ok: bool, data: seq<Byte>)
      requires forall e :: 0 <= e < |i.extents| ==> i.extents[e].physical + i.extents[e].count <= |fs.blocks|
      modifies this`requests, this`faults
      ensures Counted(old(requests), old(faults)) && (ok <==> faults == old(faults))
      ensures ok ==> data == if i.size <= max then FileBytes(fs, i) else FileBytes(fs, i)[..max]
    {
      data := [];
      ghost var f := FileBytes(fs, i);
      while |data| < i.size && |data| < max
        invariant Counted(old(requests), old(faults))
        invariant |data| <= i.size && |data| <= max && data == f[..|data|] && faults == old(faults)
      {
        var read, piece := ReadPiece(i, |data|, max);
        if !read {
          return false, data;
        }
        data := data + piece;
      }
      ok := true;
    }

    /** The next part of a file that lies in one block. */
    method ReadPiece(i: Inode, done: nat, max: nat) returns (ok: bool, piece: seq<Byte>)
      requires forall e :: 0 <= e < |i.extents| ==> i.extents[e].physical + i.extents[e].count <= |fs.blocks|
      requires done < i.size && done < max
      modifies this`requests, this`faults
      ensures Counted(old(requests), old(faults)) && (ok <==> faults == old(faults))
      ensures ok ==> 0 < |piece| && done + |piece| <= i.size && done + |piece| <= max
      ensures ok ==> FileBytes(fs, i)[..done] + piece == FileBytes(fs, i)[..done + |piece|]
    {
      var c;
      ok, c := ReadDataBlock(i, done / BLOCK_SIZE);
      piece := [];
      if ok {
        var from, n := done % BLOCK_SIZE, Piece(done, i.size, max);
        AppendPiece(fs, i, FileBytes(fs, i)[..done], n);
        piece := Bytes(c)[from..from + n];
      }
    }

    /** Takes the entry for a name out of a directory. */
    method DirRemove(dir: Inode, name: string) returns (ok: bool, ghost k: nat, ghost s: nat, ghost e: Dirent)
      requires Readable(fs, dir.id) && Ino(fs, dir.id) == dir && dir.kind == Directory
      modifies this`requests, this`faults, this`journalRecords, this`fs, this`log, this`written, this`puts
      ensures old(puts) <= puts <= old(puts) + 1
      ensures old(Mirrored()) ==> Mirrored()
      ensures Counted(old(requests), old(faults)) && (ok ==> faults == old(faults))
      ensures old(journalRecords) <= journalRecords <= old(journalRecords) + 1
      ensures ok ==> At(old(fs), dir.id, k, s, e) && e.name == name && SlotSet(old(fs), fs, dir.id, k, s, Free)
      ensures !ok ==> faults > old(faults) || 2 * journalRecords + 1 >= JOURNAL_BLOCKS || name == "" || Find(old(fs), dir.id, name) == None
    {
      var k', s', e' := 0, 0, Free;
      k, s, e := 0, 0, Free;
      ok, k', s', e' := DirFind(dir, name);
      if !ok {
        return;
      }
      k, s, e := k', s', e';
      var slots;
      ok, slots := ReadDirectoryBlock(dir, k');
      if ok {
        ok := SetSlot(dir, k', s', slots, Free);
      }
    }

    /** Releases the blocks and the number of an inode and takes its entry out of its directory. */
    method Discard(i: Inode, parent: Inode, leaf: string) returns (ok: bool, ghost k: nat, ghost s: nat, ghost e: Dirent)
      requires Inv(fs) && Live(fs, i.id) && Ino(fs, i.id) == i && i.id > 1
      requires Live(fs, parent.id) && Ino(fs, parent.id) == parent && parent.kind == Directory && parent.id != i.id
      modifies this`requests, this`faults, this`journalRecords, this`fs, this`log, this`written, this`puts
      ensures old(puts) <= puts <= old(puts) + 1
      ensures old(Mirrored()) ==> Mirrored()
      ensures Counted(old(requests), old(faults)) && (ok ==> faults == old(faults))
      ensures ok ==> Removed(old(fs), fs, parent.id, k, s, i) && At(old(fs), parent.id, k, s, e) && e.name == leaf
      ensures ok ==> fs.inodes[i.id - 1] == old(fs).inodes[i.id - 1]
      ensures old(journalRecords) <= journalRecords <= old(journalRecords) + DIRECT_EXTENTS + 2
      ensures !ok ==> faults > old(faults) || 2 * journalRecords + 1 >= JOURNAL_BLOCKS || leaf == "" || Find(old(fs), parent.id, leaf) == None
    {
      assert GoodInode(fs, i.id);
      k, s, e := 0, 0, Free;
      ghost var v := fs;
      SoundIsReadable(fs, parent.id);
      ok := FreeFileExtents(i);
      if !ok {
        return;
      }
      ghost var released := fs;
      ok := FreeInode(i.id);
      if !ok {
        return;
      }
      ghost var freed := fs;
      FreedReads(v, fs, parent.id, i);
      StillFound(v, fs, parent.id, leaf);
      ok, k, s, e := DirRemove(parent, leaf);
      if ok {
        DiscardRemoves(v, released, freed, fs, parent.id, k, s, i);
      }
    }

    /** Clears the record of an inode, if the requests for that succeed. */
    method Wipe(id: nat)
      requires Geometry(fs) && 1 <= id <= MAX_INODES
      modifies this`requests, this`faults, this`journalRecords, this`fs, this`log, this`written
      ensures old(Mirrored()) ==> Mirrored()
      ensures Counted(old(requests), old(faults))
      ensures old(journalRecords) <= journalRecords <= old(journalRecords) + 1
      ensures fs == old(fs) || fs == old(fs).(inodes := old(fs).inodes[id - 1 := None])
      ensures faults == old(faults) && 2 * journalRecords + 1 < JOURNAL_BLOCKS ==> fs != old(fs) || old(fs).inodes[id - 1] == None
    {
      var ok := Request();
      if ok {
        InodeChangesOne(fs, id, None);
        ok := WriteMeta(InodeBlock(id), fs.(inodes := fs.inodes[id - 1 := None]));
        assert ok ==> fs.inodes[id - 1] == None;
      }
    }

    /** Unlinks an inode that lists no entries; `wipe` also clears its record, if that write succeeds. */
    method DiscardPath(i: Inode, parent: Inode, leaf: string, wipe: bool, ghost dir: seq<string>) returns (ok: bool)
      requires Inv(fs) && Located(fs, dir, leaf, parent, i) && forall k, s, e :: !At(fs, i.id, k, s, e)
      modifies this`requests, this`faults, this`journalRecords, this`fs, this`log, this`written, this`puts
      ensures old(puts) <= puts <= old(puts) + 1
      ensures old(Mirrored()) ==> Mirrored()
      ensures Counted(old(requests), old(faults))
      ensures ok ==> PathRemoved(old(fs), fs, dir + [leaf])
      ensures old(journalRecords) <= journalRecords <= old(journalRecords) + DIRECT_EXTENTS + 3
      ensures !ok ==> faults > old(faults) || 2 * journalRecords + 1 >= JOURNAL_BLOCKS
    {
      if leaf == "" {
        InvalidNamesMissing(fs, parent.id, leaf);
      }
      ghost var v := fs;
      ghost var k, s, e;
      ok, k, s, e := Discard(i, parent, leaf);
      if !ok {
        return;
      }
      ghost var w := fs;
      if wipe {
        Wipe(i.id);
      }
      WipedIsRemoved(v, w, fs, parent.id, k, s, i);
      RemovePath(v, fs, parent.id, k, s, e, i, dir);
    }

    /** The inode at a path, its directory, and its name there. */
    method Locate(path: string) returns (ok: bool, parent: Inode, leaf: string, i: Inode, ghost dir: seq<string>)
      requires Inv(fs)
      modifies this`requests, this`faults
      ensures Counted(old(requests), old(faults)) && (ok ==> faults == old(faults))
      ensures ok ==> Paths.WellFormed(path, NAME_MAX)
      ensures ok ==> Paths.Components(path) == dir + [leaf] && Located(fs, dir, leaf, parent, i)
      ensures !ok && faults == old(faults) ==> !Paths.WellFormed(path, NAME_MAX) || FileSystem.Resolve(fs, Paths.Components(path)) == None
    {
      parent := Inode(0, Regular, 0, 0, 0, 0, 0, []);
      i, dir := parent, [];
      var parentPath;
      ok, parentPath, leaf := Paths.SplitParent(path, NAME_MAX);
      if !ok {
        return;
      }
      dir := Paths.Components(parentPath);
      ok, parent := Resolve(parentPath);
      if !ok {
        assert Paths.Components(path)[..|dir|] == dir;
        return;
      }
      ok, i := Resolve(path);
      if ok {
        Target(fs, dir, leaf);
      }
    }

    method Remove(path: string) returns (ok: bool)
      requires Inv(fs)
      modifies this
      ensures ok && !old(journalActive) ==> base == old(fs) && Mirrored() && written <= DIRECT_EXTENTS + 3 && puts <= 1
      ensures Counted(old(requests), old(faults))
      ensures ok ==> PathRemoved(old(fs), fs, Paths.Components(path)) && FileAt(old(fs), Paths.Components(path)).Some? && !journalActive
      ensures ok ==> Paths.WellFormed(path, NAME_MAX)
      ensures !ok && faults == old(faults) && !old(journalActive) && Paths.WellFormed(path, NAME_MAX) ==>
                FileAt(old(fs), Paths.Components(path)) == None
    {
      var parent, leaf, i;
      ghost var dir;
      ok, parent, leaf, i, dir := Locate(path);
      if !ok || i.kind != Regular {
        return false;
      }
      ok := Unlink(i, parent, leaf, true, dir);
    }

    /** Removes a directory of one block that holds no entry. */
    method Rmdir(path: string) returns (ok: bool)
      requires Inv(fs)
      modifies this
      ensures ok && !old(journalActive) ==> base == old(fs) && Mirrored() && written <= DIRECT_EXTENTS + 3 && puts <= 1
      ensures Counted(old(requests), old(faults))
      ensures ok ==> PathRemoved(old(fs), fs, Paths.Components(path))
      ensures ok ==> EmptyAt(old(fs), path) && !journalActive
      ensures !ok && faults == old(faults) && !old(journalActive) ==> !EmptyAt(old(fs), path)
    {
      var parent, leaf, i;
      ghost var dir;
      ok, parent, leaf, i, dir := Locate(path);
      if !ok || i.kind != Directory || i.size != BLOCK_SIZE {
        return false;
      }
      ok := NoEntries(i, dir + [leaf]);
      if ok {
        ok := Unlink(i, parent, leaf, false, dir);
      }
    }

    /** Looks for an entry in a directory of one block. */
    method NoEntries(i: Inode, ghost path: seq<string>) returns (ok: bool)
      requires Inv(fs) && Live(fs, i.id) && Ino(fs, i.id) == i && i.kind == Directory && i.size == BLOCK_SIZE
      requires FileSystem.Resolve(fs, path) == Some(i.id)
      modifies this`requests, this`faults
      ensures Counted(old(requests), old(faults)) && (ok ==> faults == old(faults))
      ensures ok ==> (forall name :: FileSystem.Resolve(fs, path + [name]) == None) && forall k, s, e :: !At(fs, i.id, k, s, e)
      ensures !ok ==> faults > old(faults) || exists name :: FileSystem.Resolve(fs, path + [name]).Some?
    {
      SoundIsReadable(fs, i.id);
      var slots;
      ok, slots := ReadDirectoryBlock(i, 0);
      if !ok {
        return;
      }
      for s := 0 to DIRENTS_PER_BLOCK
        invariant forall s' :: 0 <= s' < s ==> slots[s'] == Free
      {
        if slots[s] != Free {
          OccupiedDirectory(fs, path, i, s);
          return false;
        }
      }
      EmptyDirectory(fs, path, i);
    }

    /** Takes an inode without entries off the volume, in a transaction. */
    method Unlink(i: Inode, parent: Inode, leaf: string, wipe: bool, ghost dir: seq<string>) returns (ok: bool)
      requires Inv(fs) && Located(fs, dir, leaf, parent, i) && forall k, s, e :: !At(fs, i.id, k, s, e)
      modifies this
      ensures ok && !old(journalActive) ==> base == old(fs) && Mirrored() && written <= DIRECT_EXTENTS + 3 && puts <= 1
      ensures Counted(old(requests), old(faults))
      ensures ok ==> PathRemoved(old(fs), fs, dir + [leaf]) && !journalActive
      ensures !ok && !old(journalActive) ==> faults > old(faults)
    {
      Begin();
      ok := DiscardPath(i, parent, leaf, wipe, dir);
      if ok {
        ok := Finish();
      }
    }

    /** Makes an empty volume on a device, block by block; one bitmap block serves devices of up to MAX_BLOCKS. */
    method Format(device: seq<Block>) returns (ok: bool)
      modifies this
      ensures Counted(old(requests), old(faults))
      ensures ok ==> DATA_START + 1 < |device| < 0x1_0000_0000 && fs == Formatted(device)
      ensures ok ==> fs.inodes[0] == Some(Inode(1, Directory, 0x41ED, 0, 0, 4096, 1, [Extent(0, DATA_START, 1)]))
      ensures ok && |device| <= MAX_BLOCKS ==> Inv(fs) && |fs.blocks| == |device| && (forall name :: Find(fs, ROOT, name) == None) && forall b :: !Lost(fs, b)
      ensures !ok ==> faults > old(faults) || |device| <= DATA_START + 1 || |device| >= 0x1_0000_0000
    {
      if DATA_START + 1 >= |device| || |device| >= 0x1_0000_0000 {
        return false;
      }
      journalActive, journalRecords := false, 0;
      ok := ZeroMetadata(device);
      if !ok {
        return;
      }
      ghost var blank := fs;
      ok := WriteRoot();
      if !ok {
        return;
      }
      FormatSteps(device, blank);
      if |device| <= MAX_BLOCKS {
        FormattedInv(device);
      }
      ok := Request();  // the superblock
      if ok {
        ok := Request();  // the flush
      }
    }

    method ZeroMetadata(device: seq<Block>) returns (ok: bool)
      requires DATA_START < |device|
      modifies this`requests, this`faults, this`fs
      ensures Counted(old(requests), old(faults)) && (ok <==> faults == old(faults))
      ensures ok ==> |fs.blocks| == |device| && fs == Blank(fs.blocks)
      ensures ok ==> forall b :: 0 <= b < |device| ==> fs.blocks[b] == Cleaned(device, DATA_START + 1, b)
    {
      ok := true;
      var blocks := seq(|device|, b requires 0 <= b < |device| => Data(device[b]));
      for b := 0 to DATA_START + 1
        invariant Counted(old(requests), old(faults)) && faults == old(faults) && |blocks| == |device|
        invariant forall x :: 0 <= x < |device| ==> blocks[x] == Cleaned(device, b, x)
      {
        ok := Request();
        if !ok {
          return;
        }
        blocks := blocks[b := Data(ZeroBlock())];
      }
      ok, fs := true, Blank(blocks);
    }

    /** The two bitmaps, the root inode and the root block. */
    method WriteRoot() returns (ok: bool)
      requires DATA_START < |fs.blocks| == |fs.blockBits| && |fs.inodeBits| == MAX_INODES == |fs.inodes| && !journalActive
      modifies this`requests, this`faults, this`journalRecords, this`fs, this`log, this`written
      ensures Counted(old(requests), old(faults)) && (ok <==> faults == old(faults))
      ensures ok ==> fs == Volume(old(fs).free, old(fs).inodeBits[0 := true], Marked(old(fs).blockBits, 0, DATA_START + 1, true),
                                  old(fs).inodes[0 := Some(RootInode())], old(fs).blocks[DATA_START := Dir(EmptySlots())])
    {
      ok := Request();
      if !ok {
        return;
      }
      fs := fs.(inodeBits := fs.inodeBits[0 := true]);
      var bits := Mark(fs.blockBits, 0, DATA_START + 1);
      ok := Request();
      if !ok {
        return;
      }
      fs := fs.(blockBits := bits);
      ok := WriteInode(RootInode());
      if !ok {
        return;
      }
      ok := Request();
      if ok {
        fs := fs.(blocks := fs.blocks[DATA_START := Dir(EmptySlots())]);
      }
    }
  }

  /** Two failed reads are enough: making a file that is there already succeeds and leaves its name twice. */
  method MadeTwice(device: seq<Block>, layout: Layout) returns (x: Xfs, before: Volume, ok: bool)
    requires DATA_START < |device| <= MAX_BLOCKS
    ensures Inv(before) && FileSystem.Resolve(before, ["a"]) == Some(2)
    ensures forall n :: x.fails(n) <==> n == 1 || n == 10
    ensures ok && Sound(x.fs, 0) && !Inv(x.fs)
  {
    before := OneFile(device);
    OneFileInv(device);
    OneFileTakes(device);
    x := new Xfs(n => n == 1 || n == 10, before, layout);
    assert Paths.Components("/a") == ["a"] by {
      Paths.SlashThenToken("a");
      assert ['/'] + "a" == "/a";
    }
    assert x.HiddenFrom(0);
    ok := x.Create("/a", 0, 0, 0);
  }
}
