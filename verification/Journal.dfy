/** The metadata journal of K64XFS (k64_xfs_journal.c) as a state machine over single block writes. */
module Journal {
  import opened Blocks

  const U32_LIMIT: nat := 0x1_0000_0000
  const U64_LIMIT: nat := 0x1_0000_0000_0000_0000
  type U32 = x: nat | x < U32_LIMIT
  type U64 = x: nat | x < U64_LIMIT

  const MAX_RECORDS: nat := JOURNAL_BLOCKS / 2
  const COMMIT: U32 := 1
  const METADATA_BLOCK: U32 := 2

  /** A journal header; the magic number and the header checksum belong to its encoding. */
  datatype Header = Header(txId: U64, kind: U32, target: U64, payloadSize: U32, payloadCrc: U32)

  /** How headers are laid out in a block, and the payload checksum. */
  datatype Codec = Codec(encode: Header -> Block, decode: Block -> Option<Header>, crc: Block -> U32)

  ghost predicate Lawful(c: Codec) {
    && (forall h :: c.decode(c.encode(h)) == Some(h))
    && c.decode(ZeroBlock()) == None
  }

  datatype Record = Record(target: U64, payload: Block)

  function MetadataHeader(c: Codec, tx: U64, r: Record): Header {
    Header(tx, METADATA_BLOCK, r.target, BLOCK_SIZE, c.crc(r.payload))
  }

  function CommitHeader(tx: U64): Header {
    Header(tx, COMMIT, 0, 0, 0)
  }

  // ---------------------------------------------------------------------------------------
  // What recovery finds in a journal area
  // ---------------------------------------------------------------------------------------

  /** The headers of the committed transaction that starts at `off`, if the scan meets its commit. */
  function Scan(c: Codec, area: seq<Block>, off: nat, tx: U64, found: seq<Header>): (r: Option<seq<Header>>)
    ensures r.Some? && |found| <= MAX_RECORDS ==> |r.value| <= MAX_RECORDS
    decreases |area| - off
  {
    if off >= |area| then None else
    match c.decode(area[off])
    case None => None
    case Some(h) =>
      var tx' := if tx == 0 then h.txId else tx;
      if h.txId != tx' then None
      else if h.kind == COMMIT then Some(found)
      else if h.kind != METADATA_BLOCK || h.payloadSize != BLOCK_SIZE || off + 1 >= |area| || |found| >= MAX_RECORDS then None
      else Scan(c, area, off + 2, tx', found + [h])
  }

  function Committed(c: Codec, area: seq<Block>): Option<seq<Header>> {
    Scan(c, area, 0, 0, [])
  }

  // ---------------------------------------------------------------------------------------
  // The journal as a state machine
  // ---------------------------------------------------------------------------------------

  /**
   * `area`, `tx` and `active` are the device blocks and the mount fields.  The rest is
   * bookkeeping for the proofs: the records of the open transaction, whether it has reached
   * the device, and the transaction committed last.
   */
  datatype Model = Model(
    area: seq<Block>, tx: U64, active: bool,
    recs: seq<Record>, touched: bool, last: Option<(U64, seq<Record>)>)

  datatype Event = Begin | HeaderWrite(r: Record) | PayloadWrite(r: Record) | CommitWrite

  function Initial(): Model {
    Model(seq(JOURNAL_BLOCKS, _ => ZeroBlock()), 0, false, [], false, None)
  }

  predicate Enabled(c: Codec, m: Model, e: Event) {
    && |m.area| == JOURNAL_BLOCKS
    && match e
       case Begin => !m.active && m.tx + 1 < U64_LIMIT
       case HeaderWrite(r) => m.active && 2 * |m.recs| + 1 < JOURNAL_BLOCKS
       case PayloadWrite(r) =>
         m.active && 2 * |m.recs| + 1 < JOURNAL_BLOCKS && m.touched &&
         m.area[2 * |m.recs|] == c.encode(MetadataHeader(c, m.tx, r))
       case CommitWrite => m.active && 2 * |m.recs| < JOURNAL_BLOCKS
  }

  /** One device write of the journal (or the field updates of begin). */
  function Apply(c: Codec, m: Model, e: Event): Model
    requires Enabled(c, m, e)
  {
    var n := 2 * |m.recs|;
    match e
    case Begin => m.(tx := m.tx + 1, active := true, recs := [], touched := false)
    case HeaderWrite(r) => m.(area := m.area[n := c.encode(MetadataHeader(c, m.tx, r))], touched := true)
    case PayloadWrite(r) => m.(area := m.area[n + 1 := r.payload], recs := m.recs + [r])
    case CommitWrite =>
      m.(area := m.area[n := c.encode(CommitHeader(m.tx))], active := false, last := Some((m.tx, m.recs)))
  }

  ghost predicate Legal(c: Codec, m: Model, events: seq<Event>)
    decreases |events|
  {
    events == [] || (Enabled(c, m, events[0]) && Legal(c, Apply(c, m, events[0]), events[1..]))
  }

  ghost function Execute(c: Codec, m: Model, events: seq<Event>): Model
    requires Legal(c, m, events)
    decreases |events|
  {
    if events == [] then m else Execute(c, Apply(c, m, events[0]), events[1..])
  }

  // ---------------------------------------------------------------------------------------
  // The invariant
  // ---------------------------------------------------------------------------------------

  /** The area starts with these records of transaction tx, header and payload side by side. */
  ghost predicate Written(c: Codec, area: seq<Block>, tx: U64, recs: seq<Record>) {
    && 2 * |recs| <= |area|
    && forall k :: 0 <= k < |recs| ==>
         area[2 * k] == c.encode(MetadataHeader(c, tx, recs[k])) && area[2 * k + 1] == recs[k].payload
  }

  ghost predicate Describes(c: Codec, area: seq<Block>, last: Option<(U64, seq<Record>)>)
    requires |area| == JOURNAL_BLOCKS
  {
    match last
    case None => c.decode(area[0]) == None
    case Some((tx, recs)) =>
      tx > 0 && 2 * |recs| < |area| && Written(c, area, tx, recs) && area[2 * |recs|] == c.encode(CommitHeader(tx))
  }

  /** No header slot holds a header of a transaction that has not begun. */
  ghost predicate TxBounded(c: Codec, m: Model)
    requires |m.area| == JOURNAL_BLOCKS
  {
    forall k :: 0 <= k < MAX_RECORDS && c.decode(m.area[2 * k]).Some? ==>
      c.decode(m.area[2 * k]).value.txId < m.tx + (if m.active && !m.touched then 0 else 1)
  }

  /** Every header of transaction tx in the area is a metadata header. */
  ghost predicate Uncommitted(c: Codec, area: seq<Block>, tx: U64)
    requires |area| == JOURNAL_BLOCKS
  {
    forall k :: 0 <= k < MAX_RECORDS ==>
      match c.decode(area[2 * k])
      case None => true
      case Some(h) => h.txId == tx ==> h.kind == METADATA_BLOCK
  }

  ghost predicate OpenTransaction(c: Codec, m: Model)
    requires |m.area| == JOURNAL_BLOCKS
  {
    && m.tx > 0
    && Written(c, m.area, m.tx, m.recs)
    && (m.recs != [] ==> m.touched)
    && (m.touched ==> c.decode(m.area[0]).Some? && c.decode(m.area[0]).value.txId == m.tx)
    && Uncommitted(c, m.area, m.tx)
  }

  ghost predicate Inv(c: Codec, m: Model) {
    && |m.area| == JOURNAL_BLOCKS
    && TxBounded(c, m)
    && (m.active ==> OpenTransaction(c, m))
    && ((m.active && m.touched) || Describes(c, m.area, m.last))
  }

  lemma {:induction false} StepKeepsInv(c: Codec, m: Model, e: Event)
    requires Lawful(c) && Inv(c, m) && Enabled(c, m, e)
    ensures Inv(c, Apply(c, m, e))
  {
    var n := 2 * |m.recs|;
    var m' := Apply(c, m, e);
    match e
    case Begin =>
      assert m'.area == m.area;
    case HeaderWrite(r) =>
      assert forall k :: 0 <= k < MAX_RECORDS && 2 * k != n ==> m'.area[2 * k] == m.area[2 * k];
    case PayloadWrite(r) =>
      assert forall k :: 0 <= k < MAX_RECORDS ==> m'.area[2 * k] == m.area[2 * k];
    case CommitWrite =>
      assert forall k :: 0 <= k < MAX_RECORDS && 2 * k != n ==> m'.area[2 * k] == m.area[2 * k];
  }

  lemma {:induction false} RunKeepsInv(c: Codec, m: Model, events: seq<Event>)
    requires Lawful(c) && Inv(c, m) && Legal(c, m, events)
    ensures Inv(c, Execute(c, m, events))
    decreases |events|
  {
    if events != [] {
      StepKeepsInv(c, m, events[0]);
      RunKeepsInv(c, Apply(c, m, events[0]), events[1..]);
    }
  }

  // ---------------------------------------------------------------------------------------
  // What the scan returns in every reachable state
  // ---------------------------------------------------------------------------------------

  function Headers(c: Codec, tx: U64, recs: seq<Record>): (hs: seq<Header>)
    ensures |hs| == |recs|
    ensures forall k :: 0 <= k < |recs| ==> hs[k] == MetadataHeader(c, tx, recs[k])
  {
    if recs == [] then [] else
    Headers(c, tx, recs[..|recs| - 1]) + [MetadataHeader(c, tx, recs[|recs| - 1])]
  }

  /** Header slot k holds a commit header of transaction tx. */
  predicate CommitAt(c: Codec, area: seq<Block>, tx: U64, k: nat)
    requires 2 * k < |area|
  {
    c.decode(area[2 * k]).Some? && c.decode(area[2 * k]).value.txId == tx && c.decode(area[2 * k]).value.kind == COMMIT
  }

  /** Records of a transaction up to a commit header of it are found in full, from any point of the scan. */
  lemma {:induction false} ScanFindsLast(c: Codec, area: seq<Block>, tx: U64, recs: seq<Record>, i: nat, from: U64)
    requires Lawful(c) && |area| == JOURNAL_BLOCKS && i <= |recs| && 2 * |recs| < |area| && (from == 0 || from == tx)
    requires tx > 0 && Written(c, area, tx, recs) && CommitAt(c, area, tx, |recs|)
    ensures Scan(c, area, 2 * i, from, Headers(c, tx, recs[..i])) == Some(Headers(c, tx, recs))
    decreases |recs| - i
  {
    if i == |recs| {
      assert recs[..i] == recs;
      ScanEnds(c, area, i, from, tx, Headers(c, tx, recs));
    } else {
      var h := MetadataHeader(c, tx, recs[i]);
      assert c.decode(area[2 * i]) == Some(h);
      ScanStep(c, area, 2 * i, from, Headers(c, tx, recs[..i]), h);
      HeadersMore(c, tx, recs, i);
      ScanFindsLast(c, area, tx, recs, i + 1, tx);
    }
  }

  lemma {:induction false} ScanEnds(c: Codec, area: seq<Block>, k: nat, from: U64, tx: U64, found: seq<Header>)
    requires 2 * k < |area| && CommitAt(c, area, tx, k) && (from == 0 || from == tx)
    ensures Scan(c, area, 2 * k, from, found) == Some(found)
  {
  }

  lemma {:induction false} ScanStep(c: Codec, area: seq<Block>, off: nat, from: U64, found: seq<Header>, h: Header)
    requires off + 1 < |area| && c.decode(area[off]) == Some(h) && (from == 0 || from == h.txId) && |found| < MAX_RECORDS
    requires h.kind == METADATA_BLOCK && h.payloadSize == BLOCK_SIZE
    ensures Scan(c, area, off, from, found) == Scan(c, area, off + 2, h.txId, found + [h])
  {
  }

  lemma {:induction false} HeadersMore(c: Codec, tx: U64, recs: seq<Record>, i: nat)
    requires i < |recs|
    ensures Headers(c, tx, recs[..i + 1]) == Headers(c, tx, recs[..i]) + [MetadataHeader(c, tx, recs[i])]
  {
    assert recs[..i + 1][..i] == recs[..i];
  }

  /** Without a commit header of its transaction a scan finds nothing. */
  lemma {:induction false} ScanFindsNothing(c: Codec, area: seq<Block>, tx: U64, off: nat, found: seq<Header>)
    requires |area| == JOURNAL_BLOCKS && off % 2 == 0 && tx > 0
    requires Uncommitted(c, area, tx)
    ensures Scan(c, area, off, tx, found) == None
    decreases |area| - off
  {
    if off < |area| {
      assert off == 2 * (off / 2);
      var d := c.decode(area[off]);
      if d.Some? && off + 1 < |area| {
        ScanFindsNothing(c, area, tx, off + 2, found + [d.value]);
      }
    }
  }

  lemma {:induction false} CommittedIsLast(c: Codec, m: Model)
    requires Lawful(c) && Inv(c, m)
    ensures Committed(c, m.area) ==
              if (m.active && m.touched) || m.last.None? then None else Some(Headers(c, m.last.value.0, m.last.value.1))
  {
    if m.active && m.touched {
      ScanFindsNothing(c, m.area, m.tx, 0, []);
    } else if m.last.Some? {
      var (tx, recs) := m.last.value;
      ScanFindsLast(c, m.area, tx, recs, 0, 0);
      assert recs[..0] == [];
    }
  }

  // ---------------------------------------------------------------------------------------
  // What recovery does to the device
  // ---------------------------------------------------------------------------------------

  /** The journal blocks of a device image. */
  function Area(disk: seq<Block>, start: nat): seq<Block>
    requires start + JOURNAL_BLOCKS <= |disk|
  {
    disk[start..start + JOURNAL_BLOCKS]
  }

  /** Replays header i and the following ones; fails on a bad payload checksum or target. */
  function ReplayFrom(c: Codec, disk: seq<Block>, start: nat, hs: seq<Header>, i: nat): (r: Option<seq<Block>>)
    requires start + JOURNAL_BLOCKS <= |disk| && |hs| <= MAX_RECORDS && i <= |hs|
    ensures r.Some? ==> |r.value| == |disk|
    decreases |hs| - i
  {
    if i == |hs| then Some(disk) else
    var payload := disk[start + 2 * i + 1];
    if c.crc(payload) != hs[i].payloadCrc || hs[i].target >= |disk| then None
    else ReplayFrom(c, disk[hs[i].target := payload], start, hs, i + 1)
  }

  /** The image recovery leaves outside the journal area, which it then clears. */
  function Recovered(c: Codec, disk: seq<Block>, start: nat): (r: Option<seq<Block>>)
    requires start + JOURNAL_BLOCKS <= |disk|
    ensures r.Some? ==> |r.value| == |disk|
  {
    match Committed(c, Area(disk, start))
    case None => Some(disk)
    case Some(hs) => ReplayFrom(c, disk, start, hs, 0)
  }

  function ApplyRecords(disk: seq<Block>, recs: seq<Record>): (disk': seq<Block>)
    requires forall k :: 0 <= k < |recs| ==> recs[k].target < |disk|
    ensures |disk'| == |disk|
  {
    if recs == [] then disk else
    var r := recs[|recs| - 1];
    ApplyRecords(disk, recs[..|recs| - 1])[r.target := r.payload]
  }

  /** The payload of the last record for block b. */
  function LastRecord(recs: seq<Record>, b: nat): Option<Block> {
    if recs == [] then None
    else if recs[|recs| - 1].target == b then Some(recs[|recs| - 1].payload)
    else LastRecord(recs[..|recs| - 1], b)
  }

  /** The last record of a block wins; blocks without a record keep their contents. */
  lemma {:induction false} LastRecordWins(disk: seq<Block>, recs: seq<Record>, b: nat)
    requires (forall k :: 0 <= k < |recs| ==> recs[k].target < |disk|) && b < |disk|
    ensures ApplyRecords(disk, recs)[b] == match LastRecord(recs, b) case None => disk[b] case Some(p) => p
  {
    if recs != [] {
      LastRecordWins(disk, recs[..|recs| - 1], b);
    }
  }

  ghost predicate Home(recs: seq<Record>, start: nat, size: nat) {
    forall k :: 0 <= k < |recs| ==>
      recs[k].target < size && !(start <= recs[k].target < start + JOURNAL_BLOCKS)
  }

  lemma {:induction false} ApplyKeepsJournal(disk: seq<Block>, recs: seq<Record>, start: nat)
    requires start + JOURNAL_BLOCKS <= |disk| && Home(recs, start, |disk|)
    ensures Area(ApplyRecords(disk, recs), start) == Area(disk, start)
  {
    if recs != [] {
      ApplyKeepsJournal(disk, recs[..|recs| - 1], start);
    }
  }

  lemma {:induction false} ReplayAppliesRecords(c: Codec, disk: seq<Block>, start: nat, tx: U64, recs: seq<Record>, i: nat)
    requires start + JOURNAL_BLOCKS <= |disk| && |recs| <= MAX_RECORDS && i <= |recs| && Home(recs, start, |disk|)
    requires Written(c, Area(disk, start), tx, recs)
    ensures ReplayFrom(c, ApplyRecords(disk, recs[..i]), start, Headers(c, tx, recs), i) == Some(ApplyRecords(disk, recs))
    decreases |recs| - i
  {
    if i == |recs| {
      assert recs[..i] == recs;
    } else {
      var d := ApplyRecords(disk, recs[..i]);
      ApplyKeepsJournal(disk, recs[..i], start);
      assert d[start + 2 * i + 1] == Area(d, start)[2 * i + 1] == recs[i].payload;
      assert recs[..i + 1][..i] == recs[..i];
      ReplayAppliesRecords(c, disk, start, tx, recs, i + 1);
    }
  }

  /**
   * Crash safety.  After any legal run of single block writes from a cleared journal (so for
   * a crash between any two of them), recovery writes home nothing at all or exactly the
   * records of the transaction committed last.
   */
  lemma {:induction false} CrashRecovery(c: Codec, events: seq<Event>, disk: seq<Block>, start: nat)
    requires Lawful(c) && Legal(c, Initial(), events) && start + JOURNAL_BLOCKS <= |disk|
    requires var m := Execute(c, Initial(), events);
             Area(disk, start) == m.area && (m.last.Some? ==> Home(m.last.value.1, start, |disk|))
    ensures var m := Execute(c, Initial(), events);
            Recovered(c, disk, start) ==
              Some(if (m.active && m.touched) || m.last.None? then disk else ApplyRecords(disk, m.last.value.1))
  {
    var m := Execute(c, Initial(), events);
    RunKeepsInv(c, Initial(), events);
    RecoveredImage(c, m, disk, start);
  }

  lemma {:induction false} RecoveredImage(c: Codec, m: Model, disk: seq<Block>, start: nat)
    requires Lawful(c) && Inv(c, m) && start + JOURNAL_BLOCKS <= |disk| && Area(disk, start) == m.area
    requires m.last.Some? ==> Home(m.last.value.1, start, |disk|)
    ensures Recovered(c, disk, start) ==
              Some(if (m.active && m.touched) || m.last.None? then disk else ApplyRecords(disk, m.last.value.1))
  {
    CommittedIsLast(c, m);
    if !(m.active && m.touched) && m.last.Some? {
      var (tx, recs) := m.last.value;
      ReplayAppliesRecords(c, disk, start, tx, recs, 0);
      assert recs[..0] == [];
    }
  }

  /** Replaying some records and then all of them is replaying all of them. */
  lemma {:induction false} ReplayTwice(disk: seq<Block>, recs: seq<Record>, i: nat)
    requires i <= |recs| && forall k :: 0 <= k < |recs| ==> recs[k].target < |disk|
    ensures ApplyRecords(ApplyRecords(disk, recs[..i]), recs) == ApplyRecords(disk, recs)
  {
    var d := ApplyRecords(disk, recs[..i]);
    forall b | 0 <= b < |disk| ensures ApplyRecords(d, recs)[b] == ApplyRecords(disk, recs)[b] {
      LastRecordWins(d, recs, b);
      LastRecordWins(disk, recs, b);
      LastRecordWins(disk, recs[..i], b);
      NoRecordInPrefix(recs, i, b);
    }
  }

  lemma {:induction false} NoRecordInPrefix(recs: seq<Record>, i: nat, b: nat)
    requires i <= |recs|
    ensures LastRecord(recs, b) == None ==> LastRecord(recs[..i], b) == None
    decreases |recs| - i
  {
    if i < |recs| {
      NoRecordInPrefix(recs, i + 1, b);
      assert recs[..i + 1][..i] == recs[..i];
    } else {
      assert recs[..i] == recs;
    }
  }

  /** A crash while recovery replays is harmless: recovering again ends in the same image. */
  lemma {:induction false} RecoveryRestarts(c: Codec, m: Model, disk: seq<Block>, start: nat, i: nat)
    requires Lawful(c) && Inv(c, m) && start + JOURNAL_BLOCKS <= |disk| && Area(disk, start) == m.area
    requires !(m.active && m.touched) && m.last.Some? && Home(m.last.value.1, start, |disk|) && i <= |m.last.value.1|
    ensures Recovered(c, ApplyRecords(disk, m.last.value.1[..i]), start) == Recovered(c, disk, start)
  {
    var recs := m.last.value.1;
    ApplyKeepsJournal(disk, recs[..i], start);
    RecoveredImage(c, m, disk, start);
    RecoveredImage(c, m, ApplyRecords(disk, recs[..i]), start);
    ReplayTwice(disk, recs, i);
  }

  /** A crash once recovery has begun to clear the journal is harmless too: nothing is replayed. */
  lemma {:induction false} ClearedJournalIsInert(c: Codec, disk: seq<Block>, start: nat)
    requires Lawful(c) && start + JOURNAL_BLOCKS <= |disk| && disk[start] == ZeroBlock()
    ensures Recovered(c, disk, start) == Some(disk)
  {
    assert Area(disk, start)[0] == ZeroBlock();
  }

  lemma {:induction false} ExtendRun(c: Codec, m: Model, events: seq<Event>, e: Event)
    requires Legal(c, m, events) && Enabled(c, Execute(c, m, events), e)
    ensures Legal(c, m, events + [e]) && Execute(c, m, events + [e]) == Apply(c, Execute(c, m, events), e)
    decreases |events|
  {
    var es := events + [e];
    if events == [] {
      assert es[1..] == [];
    } else {
      ExtendRun(c, Apply(c, m, events[0]), events[1..], e);
      assert es[1..] == events[1..] + [e];
    }
  }
}
