/** Journal recovery as the kernel runs it, block by block (k64_xfs_journal.c:57-113). */
module Recovery {
  import opened Blocks
  import opened Journal

  function Cleared(disk: seq<Block>, start: nat, n: nat): (disk': seq<Block>)
    requires start + n <= |disk|
    ensures |disk'| == |disk|
  {
    disk[..start] + seq(n, _ => ZeroBlock()) + disk[start + n..]
  }

  lemma {:induction false} ClearedMore(disk: seq<Block>, start: nat, n: nat)
    requires start + n < |disk|
    ensures Cleared(disk, start, n)[start + n := ZeroBlock()] == Cleared(disk, start, n + 1)
  {
    var a, b := Cleared(disk, start, n)[start + n := ZeroBlock()], Cleared(disk, start, n + 1);
    forall i | 0 <= i < |disk| ensures a[i] == b[i] {
    }
  }

  /** The scan for a committed transaction.  An unreadable header block ends it like an invalid one. */
  method FindCommitted(c: Codec, dev: Device, start: nat) returns (committed: bool, records: seq<Header>)
    requires start + JOURNAL_BLOCKS <= |dev.blocks|
    modifies dev`requests, dev`failures
    ensures dev.failures >= old(dev.failures)
    ensures dev.failures == old(dev.failures) ==>
              Committed(c, Area(dev.blocks, start)) == if committed then Some(records) else None
    ensures dev.failures > old(dev.failures) ==> !committed
    ensures |records| <= MAX_RECORDS
    ensures committed ==> forall n :: old(dev.requests) <= n <= old(dev.requests) + |records| ==> !dev.fails(n)
    ensures dev.failures > old(dev.failures) ==> dev.requests > old(dev.requests) && dev.fails(dev.requests - 1)
  {
    var off := 0;
    var tx: U64 := 0;
    committed, records := false, [];
    ghost var area := Area(dev.blocks, start);
    while off < JOURNAL_BLOCKS
      invariant |records| <= MAX_RECORDS && !committed && dev.failures == old(dev.failures)
      invariant off == 2 * |records| && dev.requests == old(dev.requests) + |records|
      invariant forall n :: old(dev.requests) <= n < dev.requests ==> !dev.fails(n)
      invariant Committed(c, area) == Scan(c, area, off, tx, records)
      decreases JOURNAL_BLOCKS - off
    {
      var ok, block := dev.Read(start + off);
      if !ok {
        return;
      }
      assert block == area[off];
      var entry := c.decode(block);
      if entry.None? {
        return;
      }
      var h := entry.value;
      if tx == 0 {
        tx := h.txId;
      }
      if h.txId != tx {
        return;
      }
      if h.kind == COMMIT {
        committed := true;
        return;
      }
      if h.kind != METADATA_BLOCK || h.payloadSize != BLOCK_SIZE || off + 1 >= JOURNAL_BLOCKS || |records| >= MAX_RECORDS {
        return;
      }
      records := records + [h];
      off := off + 2;
    }
  }

  /** The image once the payloads of the first n records are home. */
  function ReplayedSome(disk: seq<Block>, start: nat, hs: seq<Header>, n: nat): (disk': seq<Block>)
    requires n <= |hs| <= MAX_RECORDS && start + JOURNAL_BLOCKS <= |disk|
    ensures |disk'| == |disk|
  {
    if n == 0 then disk else
    var d := ReplayedSome(disk, start, hs, n - 1);
    if hs[n - 1].target < |d| then d[hs[n - 1].target := d[start + 2 * n - 1]] else d
  }

  /** The headers of the committed transaction, if there is one. */
  function Found(c: Codec, disk: seq<Block>, start: nat): (hs: seq<Header>)
    requires start + JOURNAL_BLOCKS <= |disk|
    ensures |hs| <= MAX_RECORDS
  {
    match Committed(c, Area(disk, start)) case None => [] case Some(hs) => hs
  }

  /** What a recovery that stops half-way leaves: some records replayed, or all (or none) of them and part of the journal cleared. */
  ghost predicate Interrupted(c: Codec, disk: seq<Block>, start: nat, disk': seq<Block>)
    requires start + JOURNAL_BLOCKS <= |disk|
  {
    var hs := Found(c, disk, start);
    exists n, k :: 0 <= n <= |hs| && 0 <= k <= JOURNAL_BLOCKS && (k > 0 ==> n == 0 || n == |hs|) &&
      disk' == Cleared(ReplayedSome(disk, start, hs, n), start, k)
  }

  lemma {:induction false} NothingCleared(disk: seq<Block>, start: nat)
    requires start <= |disk|
    ensures Cleared(disk, start, 0) == disk
  {
  }

  /** Writes payloads home until one is bad or a request fails. */
  method Replay(c: Codec, dev: Device, start: nat, records: seq<Header>) returns (ok: bool, ghost n: nat)
    requires start + JOURNAL_BLOCKS <= |dev.blocks| && |records| <= MAX_RECORDS
    modifies dev
    ensures n <= |records| && (ok ==> n == |records|) && dev.blocks == ReplayedSome(old(dev.blocks), start, records, n)
    ensures dev.failures >= old(dev.failures) && (ok ==> dev.failures == old(dev.failures))
    ensures ok ==> ReplayFrom(c, old(dev.blocks), start, records, 0) == Some(dev.blocks)
    ensures !ok ==> dev.failures > old(dev.failures) || ReplayFrom(c, old(dev.blocks), start, records, 0) == None
  {
    n := 0;
    for i := 0 to |records|
      invariant n == i && dev.failures == old(dev.failures) && dev.blocks == ReplayedSome(old(dev.blocks), start, records, i)
      invariant ReplayFrom(c, old(dev.blocks), start, records, 0) == ReplayFrom(c, dev.blocks, start, records, i)
    {
      var read, payload := dev.Read(start + 2 * i + 1);
      if !read || c.crc(payload) != records[i].payloadCrc {
        return false, n;
      }
      var written := dev.Write(records[i].target, payload);
      if !written {
        return false, n;
      }
      n := n + 1;
    }
    ok := true;
  }

  method ClearJournal(dev: Device, start: nat) returns (ok: bool, ghost k: nat)
    requires start + JOURNAL_BLOCKS <= |dev.blocks|
    modifies dev
    ensures k <= JOURNAL_BLOCKS && dev.blocks == Cleared(old(dev.blocks), start, k)
    ensures if ok then k == JOURNAL_BLOCKS && dev.failures == old(dev.failures) else dev.failures > old(dev.failures)
    ensures (forall n :: old(dev.requests) <= n ==> !dev.fails(n)) ==> ok
  {
    k := 0;
    NothingCleared(dev.blocks, start);
    ghost var home := dev.blocks;
    for off := 0 to JOURNAL_BLOCKS
      invariant dev.requests >= old(dev.requests)
      invariant k == off && dev.failures == old(dev.failures) && dev.blocks == Cleared(home, start, off)
    {
      ClearedMore(home, start, off);
      var written := dev.Write(start + off, ZeroBlock());
      if !written {
        return false, k;
      }
      k := k + 1;
    }
    ok := true;
  }

  /** Looking for a committed transaction that is there takes one read for each record and one for the commit. */
  predicate HeaderRead(c: Codec, disk: seq<Block>, start: nat, j: int)
    requires start + JOURNAL_BLOCKS <= |disk|
  {
    Committed(c, Area(disk, start)).Some? && 0 <= j <= |Found(c, disk, start)|
  }

  ghost predicate FailsOnlyAt(dev: Device, n: nat) { forall k :: dev.fails(k) <==> k == n }

  /** Writes the payloads home and clears the journal. */
  method Recover(c: Codec, dev: Device, start: nat) returns (ok: bool)
    requires start + JOURNAL_BLOCKS <= |dev.blocks|
    modifies dev
    ensures |dev.blocks| == |old(dev.blocks)|
    ensures ok && dev.failures == old(dev.failures) ==>
              Recovered(c, old(dev.blocks), start).Some? &&
              dev.blocks == Cleared(Recovered(c, old(dev.blocks), start).value, start, JOURNAL_BLOCKS)
    // a header the device could not read ends the scan: nothing is replayed
    ensures ok && dev.failures > old(dev.failures) ==> dev.blocks == Cleared(old(dev.blocks), start, JOURNAL_BLOCKS)
    ensures !ok ==> dev.failures > old(dev.failures) || Recovered(c, old(dev.blocks), start) == None
    ensures !ok ==> Interrupted(c, old(dev.blocks), start, dev.blocks)
    // one failed read among those of the headers, and a committed transaction is dropped without a trace
    ensures forall n: nat :: FailsOnlyAt(dev, n) && HeaderRead(c, old(dev.blocks), start, n - old(dev.requests)) ==>
              ok && dev.blocks == Cleared(old(dev.blocks), start, JOURNAL_BLOCKS)
  {
    var committed, records := FindCommitted(c, dev, start);
    ghost var n, k, r := 0, 0, dev.requests;
    assert forall x: nat :: FailsOnlyAt(dev, x) && HeaderRead(c, old(dev.blocks), start, x - old(dev.requests)) ==> !committed && x == r - 1 by {
      forall x: nat | FailsOnlyAt(dev, x) && HeaderRead(c, old(dev.blocks), start, x - old(dev.requests)) ensures !committed && x == r - 1 {
        assert dev.fails(x);
      }
    }
    ok := true;
    if committed {
      ok, n := Replay(c, dev, start, records);
      NothingCleared(dev.blocks, start);
    }
    if ok {
      ok, k := ClearJournal(dev, start);
    }
    ghost var hs := Found(c, old(dev.blocks), start);
    assert dev.blocks == Cleared(ReplayedSome(old(dev.blocks), start, hs, n), start, k);
  }

  /**
   * That failure at a device whose journal holds a committed transaction: read without the fault, its records would be
   * home; after it, no home block has changed, recovery has succeeded, and the next one finds nothing either.
   */
  method CommitDropped(c: Codec, disk: seq<Block>, start: nat, tx: U64, recs: seq<Record>, j: nat) returns (dev: Device, ok: bool)
    requires Lawful(c) && start + JOURNAL_BLOCKS <= |disk| && Home(recs, start, |disk|) && j <= |recs|
    requires Describes(c, Area(disk, start), Some((tx, recs)))
    ensures FailsOnlyAt(dev, j) && Recovered(c, disk, start) == Some(ApplyRecords(disk, recs))
    ensures ok && |dev.blocks| == |disk| && Recovered(c, dev.blocks, start) == Some(dev.blocks)
    ensures forall b :: 0 <= b < |disk| && !(start <= b < start + JOURNAL_BLOCKS) ==> dev.blocks[b] == disk[b]
  {
    dev := new Device(disk, n => n == j);
    DescribedIsFound(c, disk, start, tx, recs);
    assert FailsOnlyAt(dev, j) && HeaderRead(c, disk, start, j);
    ok := Recover(c, dev, start);
    assert dev.blocks == Cleared(disk, start, JOURNAL_BLOCKS);
    ClearedKeepsHome(disk, start);
    ClearedJournalIsInert(c, dev.blocks, start);
  }

  lemma {:induction false} DescribedIsFound(c: Codec, disk: seq<Block>, start: nat, tx: U64, recs: seq<Record>)
    requires Lawful(c) && start + JOURNAL_BLOCKS <= |disk| && Home(recs, start, |disk|)
    requires Describes(c, Area(disk, start), Some((tx, recs)))
    ensures Committed(c, Area(disk, start)) == Some(Headers(c, tx, recs)) && |Found(c, disk, start)| == |recs|
    ensures Recovered(c, disk, start) == Some(ApplyRecords(disk, recs))
  {
    assert recs[..0] == [];
    ScanFindsLast(c, Area(disk, start), tx, recs, 0, 0);
    ReplayAppliesRecords(c, disk, start, tx, recs, 0);
  }

  lemma {:induction false} ClearedKeepsHome(disk: seq<Block>, start: nat)
    requires start + JOURNAL_BLOCKS <= |disk|
    ensures var d := Cleared(disk, start, JOURNAL_BLOCKS);
            d[start] == ZeroBlock() && forall b :: 0 <= b < |disk| && !(start <= b < start + JOURNAL_BLOCKS) ==> d[b] == disk[b]
  {
  }
}
