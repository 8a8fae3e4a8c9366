/** The journalled block layer of a mounted K64XFS: journal writes go straight to the device, file-system
    blocks go through the write-back cache (k64_xfs.c:61-77, k64_xfs_journal.c). */
module Mount {
  import opened Blocks
  import opened Cache
  import opened Journal

  /** The records an operation makes, and a sequence of them. */
  function RecordOf(op: Op, dataStart: nat): seq<Journal.Record> {
    if op.WriteOp? && op.b < dataStart && op.b < U64_LIMIT then [Journal.Record(op.b, op.data)] else []
  }

  function RecordsOf(ops: seq<Op>, dataStart: nat): seq<Journal.Record> {
    if ops == [] then [] else RecordsOf(ops[..|ops| - 1], dataStart) + RecordOf(ops[|ops| - 1], dataStart)
  }

  /** The blocks after the operations. */
  function AfterOps(blocks: seq<Block>, ops: seq<Op>): (after: seq<Block>)
    ensures |after| == |blocks|
  {
    if ops == [] then blocks else ArrayStep(AfterOps(blocks, ops[..|ops| - 1]), ops[|ops| - 1], Done)
  }

  predicate Writes(ops: seq<Op>, b: nat) { exists k :: 0 <= k < |ops| && ops[k].WriteOp? && ops[k].b == b }

  /** The last record of a block is what was last written to it. */
  lemma {:induction false} LastRecordIs(ops: seq<Op>, dataStart: nat, b: nat, blocks: seq<Block>)
    requires b < dataStart < U64_LIMIT && b < |blocks|
    ensures match LastRecord(RecordsOf(ops, dataStart), b)
            case None => !Writes(ops, b) && AfterOps(blocks, ops)[b] == blocks[b]
            case Some(p) => Writes(ops, b) && AfterOps(blocks, ops)[b] == p
  {
    if ops != [] {
      var n := |ops| - 1;
      LastRecordIs(ops[..n], dataStart, b, blocks);
      var recs, more := RecordsOf(ops[..n], dataStart), RecordOf(ops[n], dataStart);
      assert more != [] ==> (recs + more)[..|recs| + 1 - 1] == recs;
      assert more == [] ==> recs + more == recs;
      if Writes(ops[..n], b) {
        var k :| 0 <= k < n && ops[..n][k].WriteOp? && ops[..n][k].b == b;
        assert ops[k].WriteOp? && ops[k].b == b;
      }
      if Writes(ops, b) {
        var k :| 0 <= k < |ops| && ops[k].WriteOp? && ops[k].b == b;
        assert k < n ==> ops[..n][k] == ops[k];
      }
    }
  }

  lemma {:induction false} OneMoreOp(ops: seq<Op>, k: nat, dataStart: nat, blocks: seq<Block>)
    requires k < |ops|
    ensures RecordsOf(ops[..k + 1], dataStart) == RecordsOf(ops[..k], dataStart) + RecordOf(ops[k], dataStart)
    ensures AfterOps(blocks, ops[..k + 1]) == ArrayStep(AfterOps(blocks, ops[..k]), ops[k], Done)
  {
    assert ops[..k + 1][..k] == ops[..k];
  }

  lemma {:induction false} AfterOne(blocks: seq<Block>, op: Op)
    ensures AfterOps(blocks, [op]) == ArrayStep(blocks, op, Done)
  {
    assert [op][..0] == [];
  }

  lemma {:induction false} RecordsGrow(ops: seq<Op>, k: nat, dataStart: nat)
    requires k <= |ops|
    ensures |RecordsOf(ops[..k], dataStart)| <= |RecordsOf(ops, dataStart)|
    decreases |ops|
  {
    if k == |ops| {
      assert ops[..k] == ops;
    } else {
      RecordsGrow(ops[..|ops| - 1], k, dataStart);
      assert ops[..|ops| - 1][..k] == ops[..k];
    }
  }

  /** What happens to one block depends on that block alone. */
  lemma {:induction false} SameBlockAfter(s: seq<Block>, t: seq<Block>, ops: seq<Op>, b: nat)
    requires |s| == |t| && b < |s| && s[b] == t[b]
    ensures AfterOps(s, ops)[b] == AfterOps(t, ops)[b]
  {
    if ops != [] {
      SameBlockAfter(s, t, ops[..|ops| - 1], b);
    }
  }

  class JournalledMount {
    const codec: Codec
    const cache: BlockCache
    const journalStart: nat
    const dataStart: nat
    const totalBlocks: nat
    var txId: U64
    var journalRecords: nat
    var journalActive: bool
    ghost var events: seq<Event>  // every journal write of this mount, in order

    ghost predicate InJournal(b: int) { journalStart <= b < journalStart + JOURNAL_BLOCKS }

    /** The blocks whose contents the journal protects: all metadata but the superblock and the journal. */
    ghost predicate Metadata(b: int) { 0 < b < dataStart && !InJournal(b) }

    ghost function JournalState(): Model
      requires Legal(codec, Initial(), events)
      reads this
    {
      Execute(codec, Initial(), events)
    }

    /** The device's journal blocks and the mount's fields are those of the journal state machine. */
    ghost predicate JournalValid()
      reads this, cache, cache.dev
    {
      && 0 < journalStart && journalStart + JOURNAL_BLOCKS <= dataStart <= totalBlocks <= |cache.dev.blocks|
      && totalBlocks < U64_LIMIT
      && Lawful(codec) && Legal(codec, Initial(), events)
      && var m := JournalState();
         && m.area == Area(cache.dev.blocks, journalStart)
         && m.tx == txId && m.active == journalActive
         && (journalActive ==> |m.recs| == journalRecords && Home(m.recs, journalStart, totalBlocks))
         && (m.last.Some? ==> Home(m.last.value.1, journalStart, totalBlocks))
    }

    ghost predicate Valid()
      reads this, cache, cache.entries, cache.dev
    {
      && cache.Valid() && JournalValid()
      && forall b :: InJournal(b) ==> !Resident(cache.entries[..], b)
    }

    /** No cached metadata block differs from the device. */
    ghost predicate Synced()
      requires JournalValid()
      reads this, cache, cache.entries, cache.dev
    {
      forall b :: Metadata(b) ==> cache.Contents(b) == cache.dev.blocks[b]
    }

    /** While a transaction is open, the cache is in step with its records. */
    ghost predicate Protected()
      requires JournalValid()
      reads this, cache, cache.entries, cache.dev
    {
      journalActive ==> InStep(JournalState().recs)
    }

    /** The cache shows the last of these records of a block, or else what the device holds. */
    ghost predicate InStep(recs: seq<Journal.Record>)
      requires JournalValid()
      reads this, cache, cache.entries, cache.dev
    {
      forall b :: Metadata(b) ==>
        cache.Contents(b) == match LastRecord(recs, b)
                             case None => cache.dev.blocks[b]
                             case Some(p) => p
    }

    /** The blocks with a record show it. */
    ghost predicate RecordsShown(recs: seq<Journal.Record>)
      requires JournalValid()
      reads this, cache, cache.entries, cache.dev
    {
      forall b :: Metadata(b) && LastRecord(recs, b).Some? ==> cache.Contents(b) == LastRecord(recs, b).value
    }

    /** Metadata blocks without a record do not differ from the device. */
    ghost predicate RestSynced(recs: seq<Journal.Record>)
      requires JournalValid()
      reads this, cache, cache.entries, cache.dev
    {
      forall b :: Metadata(b) && LastRecord(recs, b).None? ==> cache.Contents(b) == cache.dev.blocks[b]
    }

    /** Every dirty cache entry is of a data block or of the superblock. */
    ghost predicate MetadataClean()
      reads this, cache, cache.entries
    {
      forall i :: 0 <= i < cache.entries.Length && cache.entries[i].valid && cache.entries[i].dirty ==>
        !Metadata(cache.entries[i].blockNo)
    }

    /** A crash now loses no metadata: recovery restores what the cache shows. */
    ghost predicate Durable()
      requires JournalValid()
      reads this, cache, cache.entries, cache.dev
    {
      var r := Recovered(codec, cache.dev.blocks, journalStart);
      r.Some? && forall b :: Metadata(b) ==> r.value[b] == cache.Contents(b)
    }

    constructor (codec: Codec, cache: BlockCache, journalStart: nat, dataStart: nat, totalBlocks: nat)
      requires Lawful(codec) && cache.Valid()
      requires 0 < journalStart && journalStart + JOURNAL_BLOCKS <= dataStart <= totalBlocks <= |cache.dev.blocks|
      requires totalBlocks < U64_LIMIT
      requires Area(cache.dev.blocks, journalStart) == Initial().area
      requires forall b :: journalStart <= b < journalStart + JOURNAL_BLOCKS ==> !Resident(cache.entries[..], b)
      ensures Valid() && events == [] && this.codec == codec && this.cache == cache && txId == 0 && !journalActive
      ensures this.journalStart == journalStart && this.dataStart == dataStart && this.totalBlocks == totalBlocks
    {
      this.codec, this.cache := codec, cache;
      this.journalStart, this.dataStart, this.totalBlocks := journalStart, dataStart, totalBlocks;
      txId, journalRecords, journalActive, events := 0, 0, false, [];
    }

    method Begin() returns (ok: bool)
      requires Valid() && txId + 1 < U64_LIMIT
      modifies this
      ensures Valid() && ok && journalActive
      ensures events == old(events) + if old(journalActive) then [] else [Event.Begin]
      ensures old(journalActive) ==> txId == old(txId) && journalRecords == old(journalRecords)
      ensures !old(journalActive) ==> txId == old(txId) + 1 && journalRecords == 0
      ensures !old(journalActive) && Synced() ==> Protected()
    {
      ok := true;
      if journalActive {
        return;
      }
      ExtendRun(codec, Initial(), events, Event.Begin);
      events := events + [Event.Begin];
      txId := txId + 1;
      journalRecords := 0;
      journalActive := true;
    }

    /** One journal block written straight to the device. */
    method JournalWrite(off: nat, data: Block, ghost e: Event) returns (ok: bool)
      requires Valid() && off < JOURNAL_BLOCKS && Enabled(codec, JournalState(), e)
      requires Apply(codec, JournalState(), e).area == JournalState().area[off := data]
      modifies cache.dev, this`events
      ensures cache.Valid() && |cache.dev.blocks| == |old(cache.dev.blocks)|
      ensures Legal(codec, Initial(), events) && JournalState().area == Area(cache.dev.blocks, journalStart)
      ensures ok ==> events == old(events) + [e] && JournalState() == Apply(codec, old(JournalState()), e)
      ensures !ok ==> events == old(events) && cache.dev.blocks == old(cache.dev.blocks)
      ensures forall b :: 0 <= b < |cache.dev.blocks| && !InJournal(b) ==> cache.dev.blocks[b] == old(cache.dev.blocks[b])
      ensures forall b :: 0 <= b < |cache.dev.blocks| && !InJournal(b) ==> cache.Contents(b) == old(cache.Contents(b))
      ensures cache.dev.failures == old(cache.dev.failures) + if ok then 0 else 1
      ensures cache.dev.Reliable() ==> ok
    {
      ghost var es, disk := cache.entries[..], cache.dev.blocks;
      ok := cache.dev.Write(journalStart + off, data);
      assert cache.entries[..] == es;
      assert forall i :: 0 <= i < |es| && es[i].valid ==> Holds(es[i], es[i].blockNo);
      if ok {
        ExtendRun(codec, Initial(), events, e);
        events := events + [e];
        assert Area(cache.dev.blocks, journalStart) == Area(disk, journalStart)[off := data];
      }
    }

    /** Appends a metadata block to the open transaction: its header, then its contents. */
    method Record(b: nat, data: Block) returns (ok: bool)
      requires Valid() && !InJournal(b)
      modifies this, cache.dev
      ensures Valid() && txId == old(txId) && journalActive == old(journalActive)
      ensures |cache.dev.blocks| == |old(cache.dev.blocks)|
      ensures ok ==> journalActive && b < totalBlocks && journalRecords == old(journalRecords) + 1 &&
                     JournalState().recs == old(JournalState().recs) + [Journal.Record(b, data)] &&
                     events == old(events) + [HeaderWrite(Journal.Record(b, data)), PayloadWrite(Journal.Record(b, data))]
      ensures !ok ==> journalRecords == old(journalRecords) && JournalState().recs == old(JournalState().recs) && old(events) <= events
      ensures !ok ==> !journalActive || b >= totalBlocks || 2 * journalRecords + 1 >= JOURNAL_BLOCKS ||
                      cache.dev.failures > old(cache.dev.failures)
      ensures cache.dev.Reliable() ==> cache.dev.failures == old(cache.dev.failures)
      ensures forall x :: 0 <= x < |cache.dev.blocks| && !InJournal(x) ==>
                cache.dev.blocks[x] == old(cache.dev.blocks[x]) && cache.Contents(x) == old(cache.Contents(x))
    {
      if !journalActive || b >= totalBlocks {
        return false;
      }
      if 2 * journalRecords + 1 >= JOURNAL_BLOCKS {
        return false;
      }
      var r := Journal.Record(b, data);
      var header := codec.encode(MetadataHeader(codec, txId, r));
      ok := JournalWrite(2 * journalRecords, header, HeaderWrite(r));
      if ok {
        ok := JournalWrite(2 * journalRecords + 1, data, PayloadWrite(r));
        if ok {
          journalRecords := journalRecords + 1;
        }
      }
    }

    method Commit() returns (ok: bool)
      requires Valid()
      modifies this, cache.dev
      ensures Valid() && txId == old(txId) && |cache.dev.blocks| == |old(cache.dev.blocks)|
      ensures !old(journalActive) ==> ok && events == old(events) && !journalActive && cache.dev.blocks == old(cache.dev.blocks)
      ensures ok && old(journalActive) ==>
                events == old(events) + [CommitWrite] && !journalActive && journalRecords == 0 &&
                JournalState().last == Some((txId, old(JournalState().recs)))
      ensures !ok ==> events == old(events) && journalActive && cache.dev.blocks == old(cache.dev.blocks)
      ensures !ok ==> 2 * journalRecords >= JOURNAL_BLOCKS || cache.dev.failures > old(cache.dev.failures)
      ensures cache.dev.Reliable() ==> cache.dev.failures == old(cache.dev.failures)
      ensures forall x :: 0 <= x < |cache.dev.blocks| && !InJournal(x) ==>
                cache.dev.blocks[x] == old(cache.dev.blocks[x]) && cache.Contents(x) == old(cache.Contents(x))
      // what the cache shows survives a crash from here on exactly if it was in step with the records
      ensures ok && old(journalActive) ==> (Durable() <==> old(Protected()))
      ensures ok && old(journalActive) && old(RecordsShown(JournalState().recs)) ==> RecordsShown(old(JournalState().recs))
    {
      if !journalActive {
        return true;
      }
      if 2 * journalRecords >= JOURNAL_BLOCKS {
        return false;
      }
      ok := JournalWrite(2 * journalRecords, codec.encode(CommitHeader(txId)), CommitWrite);
      if !ok {
        return;
      }
      journalActive := false;
      journalRecords := 0;
      CommitIsDurable(old(JournalState().recs));
    }

    lemma {:induction false} CommitIsDurable(recs: seq<Journal.Record>)
      requires Valid() && !journalActive && JournalState().last == Some((txId, recs))
      ensures Durable() <==> InStep(recs)
    {
      var disk := cache.dev.blocks;
      RunKeepsInv(codec, Initial(), events);
      RecoveredImage(codec, JournalState(), disk, journalStart);
      forall b | Metadata(b)
        ensures ApplyRecords(disk, recs)[b] == match LastRecord(recs, b) case None => disk[b] case Some(p) => p
      {
        LastRecordWins(disk, recs, b);
      }
    }

    /** Blocks written home early do not change what recovery restores. */
    lemma {:induction false} WritingHomeKeepsDurable(m: Model, disk: seq<Block>, disk': seq<Block>, b: nat, shown: Block)
      requires Lawful(codec) && Inv(codec, m) && |disk| == |disk'| && journalStart + JOURNAL_BLOCKS <= |disk|
      requires m.area == Area(disk, journalStart) == Area(disk', journalStart)
      requires m.last.Some? ==> Home(m.last.value.1, journalStart, |disk|)
      requires b < |disk| && (disk'[b] == disk[b] || disk'[b] == shown)
      ensures Recovered(codec, disk, journalStart).Some? && Recovered(codec, disk', journalStart).Some?
      ensures Recovered(codec, disk, journalStart).value[b] == shown ==> Recovered(codec, disk', journalStart).value[b] == shown
    {
      RecoveredImage(codec, m, disk, journalStart);
      RecoveredImage(codec, m, disk', journalStart);
      if m.last.Some? {
        LastRecordWins(disk, m.last.value.1, b);
        LastRecordWins(disk', m.last.value.1, b);
      }
    }

    /** Cache traffic outside the journal that may evict blocks: what it does to the journal's guarantees. */
    twostate lemma EvictionsKeepGuarantees(wrote: int)
      requires old(Valid()) && JournalValid() && events == old(events) && journalActive == old(journalActive)
      requires |cache.dev.blocks| == |old(cache.dev.blocks)|
      requires forall x :: 0 <= x < |cache.dev.blocks| && x != wrote ==> cache.Contents(x) == old(cache.Contents(x))
      requires forall x :: 0 <= x < |cache.dev.blocks| ==>
                 cache.dev.blocks[x] == old(cache.dev.blocks[x]) || cache.dev.blocks[x] == old(cache.Contents(x))
      requires !Metadata(wrote)
      ensures old(Protected()) ==> Protected()
      ensures old(Durable()) ==> Durable()
    {
      if old(Durable()) {
        RunKeepsInv(codec, Initial(), events);
        forall b | Metadata(b)
          ensures Recovered(codec, cache.dev.blocks, journalStart).Some? &&
                  Recovered(codec, cache.dev.blocks, journalStart).value[b] == cache.Contents(b)
        {
          WritingHomeKeepsDurable(JournalState(), old(cache.dev.blocks), cache.dev.blocks, b, cache.Contents(b));
        }
        RecoveredImage(codec, JournalState(), cache.dev.blocks, journalStart);
      }
    }

    method BlockRead(b: nat) returns (ok: bool, out: Block)
      requires Valid() && !InJournal(b)
      modifies cache, cache.entries, cache.dev
      ensures Valid() && |cache.dev.blocks| == |old(cache.dev.blocks)|
      ensures ok && b < |cache.dev.blocks| ==> out == old(cache.Contents(b))
      ensures forall x :: 0 <= x < |cache.dev.blocks| ==> cache.Contents(x) == old(cache.Contents(x))
      ensures old(Protected()) ==> Protected()
      ensures old(Durable()) ==> Durable()
      ensures old(RecordsShown(JournalState().recs)) ==> RecordsShown(JournalState().recs)
      ensures |cache.history| <= |old(cache.history)| + 1
      ensures |old(cache.history)| < CACHE_BLOCKS ==> cache.dev.blocks == old(cache.dev.blocks)
      ensures |old(cache.history)| < CACHE_BLOCKS && cache.dev.Reliable() && b < totalBlocks ==> ok && |cache.history| == |old(cache.history)| + 1
    {
      ok, out := cache.Read(b);
      assert Area(cache.dev.blocks, journalStart) == old(Area(cache.dev.blocks, journalStart));
      EvictionsKeepGuarantees(-1);
    }

    /** A block write of the file system: metadata is journalled first while a transaction is open. */
    method BlockWrite(b: nat, data: Block) returns (ok: bool)
      requires Valid() && !InJournal(b)
      modifies this, cache, cache.entries, cache.dev
      ensures Valid() && |cache.dev.blocks| == |old(cache.dev.blocks)| && journalActive == old(journalActive) && txId == old(txId)
      ensures |cache.history| <= |old(cache.history)| + 1 && journalRecords <= old(journalRecords) + 1
      ensures forall x :: 0 <= x < |cache.dev.blocks| && !InJournal(x) ==>
                cache.Contents(x) == if ok && x == b then data else old(cache.Contents(x))
      ensures ok && journalActive && b < dataStart ==>
                JournalState().recs == old(JournalState().recs) + [Journal.Record(b, data)]
      ensures !journalActive || b >= dataStart ==> events == old(events)
      ensures ok && old(Protected()) ==> Protected()
      ensures !journalActive && !Metadata(b) && old(Durable()) ==> Durable()
      ensures ok && journalActive && old(RecordsShown(JournalState().recs)) ==> RecordsShown(JournalState().recs)
      ensures |old(cache.history)| < CACHE_BLOCKS ==>
                forall x :: 0 <= x < |cache.dev.blocks| && !InJournal(x) ==> cache.dev.blocks[x] == old(cache.dev.blocks[x])
      ensures |old(cache.history)| < CACHE_BLOCKS && cache.dev.Reliable() && b < totalBlocks && 2 * old(journalRecords) + 1 < JOURNAL_BLOCKS ==>
                ok && |cache.history| == |old(cache.history)| + 1
    {
      if journalActive && b < dataStart {
        ok := Record(b, data);
        if !ok {
          return;
        }
      }
      ok := CachedWrite(b, data);
    }

    /** The cache's part of a block write. */
    method CachedWrite(b: nat, data: Block) returns (ok: bool)
      requires Valid() && !InJournal(b)
      modifies cache, cache.entries, cache.dev
      ensures Valid() && |cache.dev.blocks| == |old(cache.dev.blocks)| && |cache.history| <= |old(cache.history)| + 1
      ensures forall x :: 0 <= x < |cache.dev.blocks| ==> cache.Contents(x) == if ok && x == b then data else old(cache.Contents(x))
      ensures forall x :: 0 <= x < |cache.dev.blocks| ==>
                cache.dev.blocks[x] == old(cache.dev.blocks[x]) || cache.dev.blocks[x] == old(cache.Contents(x))
      ensures |old(cache.history)| < CACHE_BLOCKS ==> ok && cache.dev.blocks == old(cache.dev.blocks) && |cache.history| == |old(cache.history)| + 1
      ensures !Metadata(b) ==> (old(Protected()) ==> Protected()) && (old(Durable()) ==> Durable())
    {
      ok := cache.Write(b, data);
      assert Area(cache.dev.blocks, journalStart) == old(Area(cache.dev.blocks, journalStart));
      if !Metadata(b) {
        EvictionsKeepGuarantees(b);
      }
    }

    /** Clean cached metadata is in step with the device. */
    lemma {:induction false} CleanIsSynced()
      requires Valid() && MetadataClean()
      ensures Synced()
    {
      forall b | Metadata(b) ensures cache.Contents(b) == cache.dev.blocks[b] {
        if Resident(cache.entries[..], b) {
          var i :| 0 <= i < cache.entries.Length && Holds(cache.entries[i], b);
          ViewOfResident(cache.entries[..], cache.dev.blocks, i);
        }
      }
    }

    /** Writes every dirty block home. */
    method FlushAll() returns (ok: bool)
      requires Valid()
      modifies cache.entries, cache.dev
      ensures Valid() && |cache.dev.blocks| == |old(cache.dev.blocks)|
      ensures forall x :: 0 <= x < |cache.dev.blocks| ==> cache.Contents(x) == old(cache.Contents(x))
      ensures ok ==> Synced()
      ensures old(Protected()) ==> Protected()
      ensures old(Durable()) ==> Durable()
      ensures old(RecordsShown(JournalState().recs)) ==> RecordsShown(JournalState().recs)
    {
      ok := cache.Flush();
      assert Area(cache.dev.blocks, journalStart) == old(Area(cache.dev.blocks, journalStart));
      EvictionsKeepGuarantees(-1);
    }

    /** Outside the journal the device holds these blocks. */
    ghost predicate HomeIs(disk: seq<Block>)
      reads cache.dev
    {
      |cache.dev.blocks| == |disk| && forall x :: 0 <= x < |disk| && !InJournal(x) ==> cache.dev.blocks[x] == disk[x]
    }

    /** Outside the journal the cache shows these blocks. */
    ghost predicate Shows(blocks: seq<Block>)
      reads cache, cache.entries, cache.dev
    {
      |cache.dev.blocks| == |blocks| && forall x :: 0 <= x < |blocks| && !InJournal(x) ==> cache.Contents(x) == blocks[x]
    }

    /** The operations fit the cache and the journal as they are, stay on the volume, and no request will fail. */
    ghost predicate Light(ops: seq<Op>)
      reads cache
    {
      && cache.dev.Reliable() && |cache.history| + |ops| <= CACHE_BLOCKS && |RecordsOf(ops, dataStart)| < MAX_RECORDS
      && forall k :: 0 <= k < |ops| ==> !ops[k].FlushOp? && ops[k].b < totalBlocks
    }

    /** How far a transaction has come with its operations. */
    ghost predicate DoneSoFar(ops: seq<Op>, shown: seq<Block>)
      requires JournalValid()
      reads this, cache, cache.entries, cache.dev
    {
      JournalState().recs == RecordsOf(ops, dataStart) && Shows(AfterOps(shown, ops))
    }

    /** As long as the operations are light, this many uses, and nothing written home. */
    ghost predicate StillLight(uses: nat, k: nat, disk: seq<Block>)
      reads this, cache, cache.dev
    {
      |cache.history| == uses + k && HomeIs(disk)
    }

    /** The operations between begin and commit. */
    method RunOps(ops: seq<Op>, ghost shown: seq<Block>, ghost disk: seq<Block>) returns (ok: bool)
      requires Valid() && journalActive && journalRecords == 0 && DoneSoFar([], shown) && HomeIs(disk)
      requires forall k :: 0 <= k < |ops| && !ops[k].FlushOp? ==> !InJournal(ops[k].b)
      modifies this, cache, cache.entries, cache.dev
      ensures Valid() && journalActive && txId == old(txId) && |cache.dev.blocks| == |disk|
      ensures ok ==> DoneSoFar(ops, shown) && (old(Protected()) ==> Protected())
      ensures old(Light(ops)) ==> ok && StillLight(|old(cache.history)|, |ops|, disk) && 2 * journalRecords < JOURNAL_BLOCKS
    {
      ok := true;
      ghost var light, uses, done := Light(ops), |cache.history|, [];
      for k := 0 to |ops|
        invariant Valid() && journalActive && ok && txId == old(txId) && |cache.dev.blocks| == |disk|
        invariant done == ops[..k] && DoneSoFar(done, shown) && (old(Protected()) ==> Protected())
        invariant light ==> StillLight(uses, k, disk)
      {
        RecordsGrow(ops, k, dataStart);
        ok := NextOp(ops, k, shown, disk, uses);
        if !ok {
          return;
        }
        done := ops[..k + 1];
      }
      assert done == ops;
    }

    method NextOp(ops: seq<Op>, k: nat, ghost shown: seq<Block>, ghost disk: seq<Block>, ghost uses: nat) returns (ok: bool)
      requires Valid() && journalActive && k < |ops| && (!ops[k].FlushOp? ==> !InJournal(ops[k].b)) && DoneSoFar(ops[..k], shown)
      modifies this, cache, cache.entries, cache.dev
      ensures Valid() && journalActive && txId == old(txId) && |cache.dev.blocks| == |old(cache.dev.blocks)|
      ensures ok ==> DoneSoFar(ops[..k + 1], shown) && (old(Protected()) ==> Protected())
      ensures cache.dev.Reliable() && !ops[k].FlushOp? && ops[k].b < totalBlocks && uses + k < CACHE_BLOCKS && |RecordsOf(ops[..k], dataStart)| < MAX_RECORDS &&
              old(StillLight(uses, k, disk)) ==>
                ok && StillLight(uses, k + 1, disk)
    {
      OneMoreOp(ops, k, dataStart, shown);
      ok := Perform(ops[k], AfterOps(shown, ops[..k]), disk);
    }

    /** One operation inside a transaction. */
    method Perform(op: Op, ghost shown: seq<Block>, ghost disk: seq<Block>) returns (ok: bool)
      requires Valid() && journalActive && (!op.FlushOp? ==> !InJournal(op.b)) && Shows(shown)
      modifies this, cache, cache.entries, cache.dev
      ensures Valid() && journalActive && txId == old(txId) && |cache.dev.blocks| == |old(cache.dev.blocks)|
      ensures ok && old(Protected()) ==> Protected()
      ensures ok ==> JournalState().recs == old(JournalState().recs) + RecordOf(op, dataStart)
      ensures ok ==> Shows(ArrayStep(shown, op, Done))
      ensures |cache.history| <= |old(cache.history)| + 1 && journalRecords <= old(journalRecords) + 1
      ensures !op.FlushOp? && |old(cache.history)| < CACHE_BLOCKS && old(HomeIs(disk)) ==> HomeIs(disk)
      ensures !op.FlushOp? && |old(cache.history)| < CACHE_BLOCKS && cache.dev.Reliable() && op.b < totalBlocks &&
              2 * old(journalRecords) + 1 < JOURNAL_BLOCKS ==>
                ok && |cache.history| == |old(cache.history)| + 1
    {
      match op {
        case ReadOp(b) =>
          var out;
          ok, out := BlockRead(b);
        case WriteOp(b, data) =>
          ok := BlockWrite(b, data);
        case FlushOp =>
          ok := FlushAll();
      }
    }

    /**
     * A whole operation: begin, any block reads, writes and flushes, commit. Afterwards a crash loses no metadata
     * exactly if the blocks the transaction did not record were in step with the device; clean metadata at begin is.
     */
    method Transaction(ops: seq<Op>) returns (ok: bool)
      requires Valid() && !journalActive && txId + 1 < U64_LIMIT
      requires forall k :: 0 <= k < |ops| && !ops[k].FlushOp? ==> !InJournal(ops[k].b)
      modifies this, cache, cache.entries, cache.dev
      ensures Valid() && txId == old(txId) + 1 && |cache.dev.blocks| == |old(cache.dev.blocks)|
      ensures ok ==> !journalActive && JournalState().last == Some((txId, RecordsOf(ops, dataStart)))
      ensures ok ==> Shows(AfterOps(old(cache.ContentsAll()), ops))
      ensures ok ==> (Durable() <==> RestSynced(RecordsOf(ops, dataStart)))
      ensures ok && old(MetadataClean()) ==> Durable()
      // no operation writes home what it leaves in the cache
      ensures old(Light(ops)) ==> ok && |cache.history| == |old(cache.history)| + |ops| && HomeIs(old(cache.dev.blocks))
    {
      if MetadataClean() {
        CleanIsSynced();
      }
      ok := Begin();
      ok := RunOps(ops, old(cache.ContentsAll()), old(cache.dev.blocks));
      if !ok {
        return;
      }
      ok := CommitOps(ops, old(cache.ContentsAll()), old(cache.dev.blocks));
    }

    /** The commit of a transaction that made the records of these operations. */
    method CommitOps(ops: seq<Op>, ghost shown: seq<Block>, ghost disk: seq<Block>) returns (ok: bool)
      requires Valid() && journalActive && JournalState().recs == RecordsOf(ops, dataStart) && Shows(AfterOps(shown, ops))
      modifies this, cache.dev
      ensures Valid() && txId == old(txId) && |cache.dev.blocks| == |old(cache.dev.blocks)|
      ensures ok ==> !journalActive && JournalState().last == Some((txId, RecordsOf(ops, dataStart))) && Shows(AfterOps(shown, ops))
      ensures ok ==> (Durable() <==> RestSynced(RecordsOf(ops, dataStart))) && (old(Protected()) ==> Durable())
      ensures old(HomeIs(disk)) ==> HomeIs(disk)
      ensures cache.dev.Reliable() && 2 * old(journalRecords) < JOURNAL_BLOCKS ==> ok
    {
      ok := Commit();
      if ok {
        CommittedOps(ops, shown);
      }
    }

    lemma {:induction false} CommittedOps(ops: seq<Op>, shown: seq<Block>)
      requires Valid() && !journalActive && JournalState().last == Some((txId, RecordsOf(ops, dataStart))) && Shows(AfterOps(shown, ops))
      ensures Durable() <==> RestSynced(RecordsOf(ops, dataStart))
    {
      CommitIsDurable(RecordsOf(ops, dataStart));
      forall b: nat | Metadata(b) && LastRecord(RecordsOf(ops, dataStart), b).Some?
        ensures cache.Contents(b) == LastRecord(RecordsOf(ops, dataStart), b).value
      {
        LastRecordIs(ops, dataStart, b, shown);
      }
    }

    /**
     * Two operations in a row, without a flush between them and without a fault.  The first is safe once it has
     * committed; after the second a crash keeps it exactly if the second wrote all the metadata that the first changed.
     */
    method TwoTransactions(first: seq<Op>, second: seq<Op>) returns (ghost safe: bool)
      requires Valid() && !journalActive && txId + 2 < U64_LIMIT && MetadataClean()
      requires Light(first) && Light(second) && |cache.history| + |first| + |second| <= CACHE_BLOCKS
      requires forall k :: 0 <= k < |first| ==> first[k].FlushOp? || !InJournal(first[k].b)
      requires forall k :: 0 <= k < |second| ==> second[k].FlushOp? || !InJournal(second[k].b)
      modifies this, cache, cache.entries, cache.dev
      ensures Valid() && !journalActive && safe && |cache.dev.blocks| == |old(cache.dev.blocks)|
      ensures Shows(AfterOps(AfterOps(old(cache.ContentsAll()), first), second))
      ensures Durable() <==>
                forall b: nat :: Metadata(b) && !Writes(second, b) ==> AfterOps(old(cache.ContentsAll()), first)[b] == old(cache.dev.blocks)[b]
    {
      CleanIsSynced();
      var ok := Transaction(first);
      safe := Durable();
      ghost var shown, between := AfterOps(old(cache.ContentsAll()), first), cache.ContentsAll();
      ok := Transaction(second);
      forall b: nat | b < |shown| && !InJournal(b) ensures AfterOps(shown, second)[b] == AfterOps(between, second)[b] {
        SameBlockAfter(shown, between, second, b);
      }
      forall b: nat | Metadata(b)
        ensures LastRecord(RecordsOf(second, dataStart), b).None? <==> !Writes(second, b)
        ensures !Writes(second, b) ==> AfterOps(between, second)[b] == shown[b]
      {
        LastRecordIs(second, dataStart, b, between);
      }
    }
  }

  /**
   * The shortest such run: on a fresh volume one operation changes metadata block 1, the next one block 2.  Both commit and no
   * request fails, but a crash now loses the first.
   */
  method FirstOperationLost(codec: Codec, x: Block, y: Block) returns (m: JournalledMount)
    requires Lawful(codec) && x != ZeroBlock()
    ensures m.Valid() && !m.journalActive && m.cache.dev.Reliable() && |m.cache.dev.blocks| == 100 && m.Metadata(1)
    ensures m.cache.Contents(1) == x && m.cache.Contents(2) == y && !m.Durable()
  {
    var dev := new Device(seq(100, _ => ZeroBlock()), _ => false);
    var cache := new BlockCache(dev);
    assert Area(dev.blocks, 3) == Initial().area;
    m := new JournalledMount(codec, cache, 3, 82, 100);
    ghost var zero := cache.ContentsAll();
    ghost var safe := m.TwoTransactions([WriteOp(1, x)], [WriteOp(2, y)]);
    AfterOne(zero, WriteOp(1, x));
    AfterOne(AfterOps(zero, [WriteOp(1, x)]), WriteOp(2, y));
    assert !Writes([WriteOp(2, y)], 1) && m.Metadata(1);
  }
}
