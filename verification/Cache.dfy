/** The 64-entry write-back block cache of K64XFS (k64_xfs_cache.c). */
module Cache {
  import opened Blocks

  const CACHE_BLOCKS: nat := 64

  datatype Entry = Entry(valid: bool, dirty: bool, blockNo: nat, tick: nat, data: Block)

  // ---------------------------------------------------------------------------------------
  // What a cache array means, as predicates on values
  // ---------------------------------------------------------------------------------------

  predicate Holds(e: Entry, b: nat) { e.valid && e.blockNo == b }

  predicate Resident(es: seq<Entry>, b: nat) {
    exists i :: 0 <= i < |es| && Holds(es[i], b)
  }

  /** The contents the file system sees for block b: the cached copy if there is one. */
  ghost function View(es: seq<Entry>, disk: seq<Block>, b: nat): Block
    requires b < |disk|
  {
    if Resident(es, b) then var i :| 0 <= i < |es| && Holds(es[i], b); es[i].data else disk[b]
  }

  ghost predicate Unique(es: seq<Entry>) {
    forall i, j :: 0 <= i < |es| && 0 <= j < |es| && es[i].valid && Holds(es[j], es[i].blockNo) ==> i == j
  }

  /** A clean cached copy is what the device holds. */
  ghost predicate Coherent(es: seq<Entry>, disk: seq<Block>) {
    forall i :: 0 <= i < |es| && es[i].valid && !es[i].dirty ==>
      es[i].blockNo < |disk| && es[i].data == disk[es[i].blockNo]
  }

  /** Position t (counting from 1) is the last use of block b. */
  ghost predicate LastUse(history: seq<nat>, b: nat, t: nat) {
    1 <= t <= |history| && history[t - 1] == b && forall k :: t <= k < |history| ==> history[k] != b
  }

  ghost predicate Ticked(es: seq<Entry>, history: seq<nat>) {
    forall i :: 0 <= i < |es| && es[i].valid ==> LastUse(history, es[i].blockNo, es[i].tick)
  }

  /** Least recently used: whatever is not resident was used before everything that is. */
  ghost predicate MostRecent(es: seq<Entry>, history: seq<nat>) {
    forall k, i :: 0 <= k < |history| && 0 <= i < |es| && es[i].valid && !Resident(es, history[k]) ==>
      k < es[i].tick - 1
  }

  /** Nothing was thrown out while there was room. */
  ghost predicate Packed(es: seq<Entry>, history: seq<nat>) {
    (forall i :: 0 <= i < |es| ==> es[i].valid) || (forall k :: 0 <= k < |history| ==> Resident(es, history[k]))
  }

  ghost predicate Consistent(es: seq<Entry>, disk: seq<Block>, history: seq<nat>) {
    Unique(es) && Coherent(es, disk) && Ticked(es, history) && MostRecent(es, history)
  }

  // ---------------------------------------------------------------------------------------
  // Lemmas about single entry updates
  // ---------------------------------------------------------------------------------------

  lemma {:induction false} ViewOfResident(es: seq<Entry>, disk: seq<Block>, i: nat)
    requires Unique(es) && i < |es| && es[i].valid && es[i].blockNo < |disk|
    ensures View(es, disk, es[i].blockNo) == es[i].data
  {
    assert Holds(es[i], es[i].blockNo);
  }

  /** Dropping an entry whose copy the device has changes no contents. */
  lemma {:induction false} DropKeepsView(es: seq<Entry>, disk: seq<Block>, i: nat, e: Entry, b: nat)
    requires Unique(es) && i < |es| && !e.valid && b < |disk|
    requires es[i].valid && es[i].blockNo < |disk| ==> es[i].data == disk[es[i].blockNo]
    ensures View(es[i := e], disk, b) == View(es, disk, b)
  {
    var fs := es[i := e];
    if Resident(es, b) {
      var j :| 0 <= j < |es| && Holds(es[j], b);
      ViewOfResident(es, disk, j);
      if j != i {
        assert Holds(fs[j], b);
        ViewOfResident(fs, disk, j);
      } else {
        assert forall k :: 0 <= k < |fs| && k != i ==> fs[k] == es[k];
        assert !Resident(fs, b);
      }
    } else {
      assert forall k :: 0 <= k < |fs| && k != i ==> fs[k] == es[k];
      assert !Resident(fs, b);
    }
  }

  lemma {:induction false} DropResident(es: seq<Entry>, i: nat, e: Entry)
    requires i < |es| && !e.valid
    ensures forall b :: Resident(es[i := e], b) ==> Resident(es, b)
  {
    forall b | Resident(es[i := e], b) ensures Resident(es, b) {
      var j :| 0 <= j < |es| && Holds(es[i := e][j], b);
      assert Holds(es[j], b);
    }
  }

  /** Writing the cached copy home changes no contents. */
  lemma {:induction false} WriteHomeKeepsView(es: seq<Entry>, disk: seq<Block>, i: nat, b: nat)
    requires Unique(es) && i < |es| && es[i].valid && es[i].blockNo < |disk| && b < |disk|
    ensures View(es, disk[es[i].blockNo := es[i].data], b) == View(es, disk, b)
  {
    if b == es[i].blockNo {
      ViewOfResident(es, disk, i);
      ViewOfResident(es, disk[b := es[i].data], i);
    }
  }

  /** Filling slot i with an entry for block b sets the contents of b and of nothing else. */
  lemma {:induction false} FillSetsView(es: seq<Entry>, disk: seq<Block>, i: nat, e: Entry, b: nat)
    requires Unique(es) && i < |es| && e.valid && b < |disk|
    requires es[i].valid ==> es[i].blockNo == e.blockNo
    requires !es[i].valid ==> !Resident(es, e.blockNo)
    ensures View(es[i := e], disk, b) == if b == e.blockNo then e.data else View(es, disk, b)
  {
    var fs := es[i := e];
    assert forall k :: 0 <= k < |fs| && k != i ==> fs[k] == es[k];
    assert Unique(fs);
    if b == e.blockNo {
      ViewOfResident(fs, disk, i);
    } else if Resident(es, b) {
      var j :| 0 <= j < |es| && Holds(es[j], b);
      ViewOfResident(es, disk, j);
      assert Holds(fs[j], b);
      ViewOfResident(fs, disk, j);
    } else {
      assert !Resident(fs, b);
    }
  }

  /** Evicting the entry with the oldest use keeps the cache consistent. */
  lemma {:induction false} EvictKeepsConsistent(es: seq<Entry>, disk: seq<Block>, history: seq<nat>, i: nat, e: Entry)
    requires Consistent(es, disk, history) && i < |es| && es[i].valid && !e.valid
    requires forall j :: 0 <= j < |es| && es[j].valid ==> es[i].tick <= es[j].tick
    ensures Consistent(es[i := e], disk, history)
  {
    var fs := es[i := e];
    assert forall k :: 0 <= k < |fs| && k != i ==> fs[k] == es[k];
    forall k, j | 0 <= k < |history| && 0 <= j < |fs| && fs[j].valid && !Resident(fs, history[k])
      ensures k < fs[j].tick - 1
    {
      if Resident(es, history[k]) {
        var m :| 0 <= m < |es| && Holds(es[m], history[k]);
        assert !Holds(fs[m], history[k]) && m == i;
        assert LastUse(history, es[i].blockNo, es[i].tick);
        assert LastUse(history, es[j].blockNo, es[j].tick);
        assert !Holds(es[j], es[i].blockNo);
      }
    }
  }

  /** Entry e for a block just used can go to slot i, which holds that block already or is free. */
  ghost predicate Placeable(es: seq<Entry>, history: seq<nat>, i: nat, e: Entry) {
    && i < |es| && e.valid && e.tick == |history| + 1
    && if es[i].valid then es[i].blockNo == e.blockNo else !Resident(es, e.blockNo)
  }

  lemma {:induction false} TouchResident(es: seq<Entry>, history: seq<nat>, i: nat, e: Entry, b: nat)
    requires Placeable(es, history, i, e)
    ensures Resident(es[i := e], b) <==> b == e.blockNo || Resident(es, b)
  {
    var fs := es[i := e];
    assert Holds(fs[i], e.blockNo);
    if Resident(es, b) {
      var m :| 0 <= m < |es| && Holds(es[m], b);
      assert m != i ==> Holds(fs[m], b);
    }
    if Resident(fs, b) {
      var m :| 0 <= m < |fs| && Holds(fs[m], b);
      assert m != i ==> Holds(es[m], b);
    }
  }

  lemma {:induction false} TouchKeepsUnique(es: seq<Entry>, history: seq<nat>, i: nat, e: Entry)
    requires Unique(es) && Ticked(es, history) && Placeable(es, history, i, e)
    ensures Unique(es[i := e]) && Ticked(es[i := e], history + [e.blockNo])
  {
    var fs, h := es[i := e], history + [e.blockNo];
    forall j | 0 <= j < |es| && j != i && es[j].valid
      ensures es[j].blockNo != e.blockNo && LastUse(h, es[j].blockNo, es[j].tick)
    {
      assert !Holds(es[j], e.blockNo);
      assert LastUse(history, es[j].blockNo, es[j].tick);
    }
  }

  lemma {:induction false} TouchKeepsRecent(es: seq<Entry>, history: seq<nat>, i: nat, e: Entry)
    requires MostRecent(es, history) && Placeable(es, history, i, e)
    ensures MostRecent(es[i := e], history + [e.blockNo])
  {
    var fs, h := es[i := e], history + [e.blockNo];
    forall k, j | 0 <= k < |h| && 0 <= j < |fs| && fs[j].valid && !Resident(fs, h[k])
      ensures k < fs[j].tick - 1
    {
      TouchResident(es, history, i, e, h[k]);
      assert h[k] == history[k] && !Resident(es, history[k]);
    }
  }

  lemma {:induction false} TouchKeepsPacked(es: seq<Entry>, history: seq<nat>, i: nat, e: Entry)
    requires Placeable(es, history, i, e)
    requires Packed(es, history) || (forall j :: 0 <= j < |es| && j != i ==> es[j].valid)
    ensures Packed(es[i := e], history + [e.blockNo])
  {
    var fs, h := es[i := e], history + [e.blockNo];
    if !(forall j :: 0 <= j < |fs| ==> fs[j].valid) {
      forall k | 0 <= k < |h| ensures Resident(fs, h[k]) {
        TouchResident(es, history, i, e, h[k]);
        if k < |history| {
          assert h[k] == history[k];
        }
      }
    }
  }

  /** Using a block, cached already or freshly placed in a free slot, keeps the cache consistent. */
  lemma {:induction false} TouchKeepsConsistent(es: seq<Entry>, disk: seq<Block>, history: seq<nat>, i: nat, e: Entry)
    requires Consistent(es, disk, history) && Placeable(es, history, i, e)
    requires !e.dirty ==> e.blockNo < |disk| && e.data == disk[e.blockNo]
    ensures Consistent(es[i := e], disk, history + [e.blockNo])
  {
    TouchKeepsUnique(es, history, i, e);
    TouchKeepsRecent(es, history, i, e);
  }

  /** Marking an entry clean once the device has its data keeps the cache consistent. */
  lemma {:induction false} CleanKeepsConsistent(es: seq<Entry>, disk: seq<Block>, history: seq<nat>, i: nat)
    requires Consistent(es, disk, history) && i < |es| && es[i].valid && es[i].blockNo < |disk|
    ensures Consistent(es, disk[es[i].blockNo := es[i].data], history)
    ensures Consistent(es[i := es[i].(dirty := false)], disk[es[i].blockNo := es[i].data], history)
  {
    var d := disk[es[i].blockNo := es[i].data];
    var fs := es[i := es[i].(dirty := false)];
    assert forall k, b :: 0 <= k < |fs| ==> Holds(fs[k], b) == Holds(es[k], b);
    assert forall b :: Resident(fs, b) == Resident(es, b);
    assert forall k :: 0 <= k < |es| && es[k].valid && k != i ==> es[k].blockNo != es[i].blockNo by {
      forall k | 0 <= k < |es| && es[k].valid && k != i ensures es[k].blockNo != es[i].blockNo {
        assert !Holds(es[k], es[i].blockNo);
      }
    }
  }

  lemma {:induction false} CleanKeepsView(es: seq<Entry>, disk: seq<Block>, i: nat, b: nat)
    requires Unique(es) && i < |es| && es[i].valid && b < |disk|
    ensures View(es[i := es[i].(dirty := false)], disk, b) == View(es, disk, b)
  {
    FillSetsView(es, disk, i, es[i].(dirty := false), b);
    if b == es[i].blockNo { ViewOfResident(es, disk, i); }
  }

  /** The first free slot, or the one used longest ago if none is free. */
  predicate IsVictim(es: seq<Entry>, i: nat) {
    && i < |es|
    && if es[i].valid then forall j :: 0 <= j < |es| ==> es[j].valid && es[i].tick <= es[j].tick
       else forall j :: 0 <= j < i ==> es[j].valid
  }

  /** Different blocks were last used at different times, so the uses bound the entries. */
  lemma {:induction false} RoomLeft(es: seq<Entry>, history: seq<nat>)
    requires Unique(es) && Ticked(es, history) && |history| < |es|
    ensures exists i :: 0 <= i < |es| && !es[i].valid
  {
    if forall i :: 0 <= i < |es| ==> es[i].valid {
      var ticks := seq(|es|, i requires 0 <= i < |es| => es[i].tick);
      forall i, j | 0 <= i < j < |es| ensures ticks[i] != ticks[j] {
        assert LastUse(history, es[i].blockNo, es[i].tick) && LastUse(history, es[j].blockNo, es[j].tick);
        assert Holds(es[i], es[i].blockNo) && Holds(es[j], es[j].blockNo);
      }
      forall i | 0 <= i < |es| ensures 1 <= ticks[i] <= |history| {
        assert LastUse(history, es[i].blockNo, es[i].tick);
      }
      Pigeonhole(ticks, |history|);
    }
  }

  lemma {:induction false} Pigeonhole(s: seq<nat>, n: nat)
    requires (forall i, j :: 0 <= i < j < |s| ==> s[i] != s[j]) && forall i :: 0 <= i < |s| ==> 1 <= s[i] <= n
    ensures |s| <= n
    decreases n
  {
    if |s| > 0 {
      assert 1 <= s[0] <= n;
      if k :| 0 <= k < |s| && s[k] == n {
        var t := s[..k] + s[k + 1..];
        forall i | 0 <= i < |t| ensures t[i] == s[if i < k then i else i + 1] {
        }
        Pigeonhole(t, n - 1);
      } else {
        Pigeonhole(s, n - 1);
      }
    }
  }

  // ---------------------------------------------------------------------------------------
  // The plain block array the cache stands for
  // ---------------------------------------------------------------------------------------

  datatype Op = ReadOp(b: nat) | WriteOp(b: nat, data: Block) | FlushOp
  datatype Outcome = Failed | Done | Got(data: Block)

  function ArrayStep(disk: seq<Block>, op: Op, out: Outcome): (disk': seq<Block>)
    ensures |disk'| == |disk|
  {
    if op.WriteOp? && out.Done? && op.b < |disk| then disk[op.b := op.data] else disk
  }

  /** The array after the given requests, of which the failed ones count for nothing. */
  function ArrayAfter(disk: seq<Block>, ops: seq<Op>, outs: seq<Outcome>): (disk': seq<Block>)
    requires |ops| == |outs|
    ensures |disk'| == |disk|
  {
    if ops == [] then disk else
    var n := |ops| - 1;
    ArrayStep(ArrayAfter(disk, ops[..n], outs[..n]), ops[n], outs[n])
  }

  /** Request k, if it is a successful read, gave what the array held at that point. */
  predicate ReadsAs(disk: seq<Block>, ops: seq<Op>, outs: seq<Outcome>, k: nat)
    requires k < |outs| <= |ops|
  {
    ops[k].ReadOp? && outs[k].Got? && ops[k].b < |disk| ==> outs[k].data == ArrayAfter(disk, ops[..k], outs[..k])[ops[k].b]
  }

  lemma {:induction false} OneMore(disk: seq<Block>, ops: seq<Op>, outs: seq<Outcome>, out: Outcome)
    requires |outs| < |ops|
    ensures ArrayAfter(disk, ops[..|outs| + 1], outs + [out]) == ArrayStep(ArrayAfter(disk, ops[..|outs|], outs), ops[|outs|], out)
    ensures forall k :: 0 <= k < |outs| ==> (ReadsAs(disk, ops, outs + [out], k) <==> ReadsAs(disk, ops, outs, k))
    ensures (outs + [out])[..|outs|] == outs
  {
    var k := |outs|;
    assert ops[..k + 1][..k] == ops[..k] && (outs + [out])[..k] == outs;
    forall j | 0 <= j < k ensures (outs + [out])[..j] == outs[..j] {
    }
  }

  // ---------------------------------------------------------------------------------------
  // The cache object
  // ---------------------------------------------------------------------------------------

  class BlockCache {
    const dev: Device
    const entries: array<Entry>
    var clock: nat
    ghost var history: seq<nat>  // the blocks successfully read or written, in order

    ghost predicate Valid()
      reads this, entries, dev
    {
      && entries.Length == CACHE_BLOCKS
      && clock == |history|
      && Consistent(entries[..], dev.blocks, history)
      && (dev.failures == 0 ==> Packed(entries[..], history))
    }

    /** The file system's view of block b. */
    ghost function Contents(b: nat): Block
      requires b < |dev.blocks|
      reads this, entries, dev
    {
      View(entries[..], dev.blocks, b)
    }

    constructor (dev: Device)
      ensures Valid() && this.dev == dev && fresh(entries) && history == []
      ensures forall i :: 0 <= i < entries.Length ==> !entries[i].valid
      ensures forall b :: 0 <= b < |dev.blocks| ==> Contents(b) == dev.blocks[b]
    {
      this.dev := dev;
      entries := new Entry[CACHE_BLOCKS](_ => Entry(false, false, 0, 0, ZeroBlock()));
      clock, history := 0, [];
    }

    method Find(b: nat) returns (i: int)
      requires Valid()
      ensures -1 <= i < entries.Length
      ensures i >= 0 ==> Holds(entries[i], b)
      ensures i < 0 ==> !Resident(entries[..], b)
    {
      i := 0;
      while i < entries.Length
        invariant 0 <= i <= entries.Length
        invariant forall j :: 0 <= j < i ==> !Holds(entries[j], b)
      {
        if entries[i].valid && entries[i].blockNo == b {
          return;
        }
        i := i + 1;
      }
      i := -1;
    }

    /** The slot k64_xfs_cache.c:50-58 settles on: the first free one, or else the one used longest ago. */
    method Candidate() returns (i: nat)
      requires Valid()
      ensures IsVictim(entries[..], i)
    {
      i := 0;
      var oldest := 0;
      var k := 0;
      while k < entries.Length
        invariant 0 <= k <= entries.Length && i < entries.Length
        invariant k > 0 ==> oldest == entries[i].tick
        invariant forall j :: 0 <= j < k ==> entries[j].valid && oldest <= entries[j].tick
      {
        if !entries[k].valid {
          return k;
        }
        if k == 0 || entries[k].tick < oldest {
          oldest, i := entries[k].tick, k;
        }
        k := k + 1;
      }
    }

    /** Frees a slot, writing the evicted block home if it is dirty. */
    method Victim() returns (ok: bool, i: nat)
      requires Valid()
      modifies entries, dev
      ensures entries.Length == CACHE_BLOCKS && IsVictim(old(entries[..]), i)
      ensures entries[..] == if ok then old(entries[..])[i := entries[i]] else old(entries[..])
      ensures dev.failures >= old(dev.failures) && |dev.blocks| == |old(dev.blocks)|
      ensures ok ==> !entries[i].valid && Consistent(entries[..], dev.blocks, history)
      ensures ok ==> dev.failures == old(dev.failures)
      ensures !old(entries[..])[i].valid ==> ok && dev.blocks == old(dev.blocks) && dev.requests == old(dev.requests)
      ensures ok && old(dev.failures) == 0 ==>
                Packed(entries[..], history) || forall j :: 0 <= j < entries.Length && j != i ==> entries[j].valid
      ensures !ok ==> Valid() && dev.failures > old(dev.failures)
      ensures forall b :: Resident(entries[..], b) ==> old(Resident(entries[..], b))
      ensures forall b :: 0 <= b < |dev.blocks| ==> Contents(b) == old(Contents(b))
      ensures forall b :: 0 <= b < |dev.blocks| ==>
                dev.blocks[b] == old(dev.blocks[b]) || (old(Resident(entries[..], b)) && dev.blocks[b] == old(Contents(b)))
    {
      i := Candidate();
      if !entries[i].valid {
        assert entries[..] == entries[..][i := entries[i]];
        return true, i;
      }
      ghost var es, disk := entries[..], dev.blocks;
      var e := entries[i];
      assert Holds(es[i], e.blockNo);
      if e.dirty {
        ok := dev.Write(e.blockNo, e.data);
        if !ok {
          return;
        }
        CleanKeepsConsistent(es, disk, history, i);
        forall b | 0 <= b < |disk| ensures View(es, dev.blocks, b) == View(es, disk, b) {
          WriteHomeKeepsView(es, disk, i, b);
        }
      }
      entries[i] := e.(valid := false, dirty := false);
      ok := true;
      assert entries[..] == es[i := entries[i]];
      EvictKeepsConsistent(es, dev.blocks, history, i, entries[i]);
      forall b | 0 <= b < |disk| ensures View(entries[..], dev.blocks, b) == View(es, dev.blocks, b) {
        DropKeepsView(es, dev.blocks, i, entries[i], b);
      }
      DropResident(es, i, entries[i]);
    }

    method Read(b: nat) returns (ok: bool, out: Block)
      requires Valid()
      modifies this, entries, dev
      ensures Valid() && |dev.blocks| == |old(dev.blocks)|
      ensures ok && b < |dev.blocks| ==> out == old(Contents(b))
      ensures forall x :: 0 <= x < |dev.blocks| ==> Contents(x) == old(Contents(x))
      ensures forall x :: 0 <= x < |dev.blocks| ==>
                dev.blocks[x] == old(dev.blocks[x]) || (old(Resident(entries[..], x)) && dev.blocks[x] == old(Contents(x)))
      ensures forall x :: Resident(entries[..], x) ==> x == b || old(Resident(entries[..], x))
      ensures ok ==> history == old(history) + [b] && dev.failures == old(dev.failures)
      ensures !ok ==> history == old(history) && dev.failures > old(dev.failures)
      // until the cache has had time to fill up nothing is written home
      ensures |old(history)| < CACHE_BLOCKS ==> dev.blocks == old(dev.blocks)
      ensures |old(history)| < CACHE_BLOCKS && dev.Reliable() && b < |dev.blocks| ==> ok
    {
      var i := Find(b);
      if i < 0 {
        if |history| < CACHE_BLOCKS {
          RoomLeft(entries[..], history);
        }
        ok, i := Victim();
        if !ok {
          return false, ZeroBlock();
        }
        assert !Resident(entries[..], b);
        var data;
        ghost var es, disk := entries[..], dev.blocks;
        assert forall x :: 0 <= x < |disk| ==> Contents(x) == View(es, disk, x);
        ok, data := dev.Read(b);
        assert entries[..] == es && dev.blocks == disk;
        if !ok {
          return false, ZeroBlock();
        }
        Place(b, i, Entry(true, false, b, clock + 1, data));
        out := data;
      } else {
        ok, out := true, entries[i].data;
        if b < |dev.blocks| {
          ViewOfResident(entries[..], dev.blocks, i);
        }
        Place(b, i, entries[i].(tick := clock + 1));
      }
    }

    method Write(b: nat, data: Block) returns (ok: bool)
      requires Valid()
      modifies this, entries, dev
      ensures Valid() && |dev.blocks| == |old(dev.blocks)|
      ensures forall x :: 0 <= x < |dev.blocks| ==>
                Contents(x) == if ok && x == b then data else old(Contents(x))
      ensures forall x :: 0 <= x < |dev.blocks| ==>
                dev.blocks[x] == old(dev.blocks[x]) || (old(Resident(entries[..], x)) && dev.blocks[x] == old(Contents(x)))
      ensures forall x :: Resident(entries[..], x) ==> x == b || old(Resident(entries[..], x))
      ensures ok ==> history == old(history) + [b] && dev.failures == old(dev.failures)
      ensures !ok ==> history == old(history) && dev.failures > old(dev.failures)
      ensures |old(history)| < CACHE_BLOCKS ==> ok && dev.blocks == old(dev.blocks)
    {
      var i := Find(b);
      if i < 0 {
        if |history| < CACHE_BLOCKS {
          RoomLeft(entries[..], history);
        }
        ok, i := Victim();
        if !ok {
          return false;
        }
        assert !Resident(entries[..], b);
      }
      ok := true;
      Place(b, i, Entry(true, true, b, clock + 1, data));
    }

    /** Stores an entry for block b in slot i and advances the clock. */
    method Place(b: nat, i: nat, e: Entry)
      requires entries.Length == CACHE_BLOCKS && clock == |history|
      requires Consistent(entries[..], dev.blocks, history)
      requires i < entries.Length && e.valid && e.blockNo == b && e.tick == clock + 1
      requires if entries[i].valid then entries[i].blockNo == b else !Resident(entries[..], b)
      requires !e.dirty ==> b < |dev.blocks| && e.data == dev.blocks[b]
      requires dev.failures == 0 ==>
                 Packed(entries[..], history) || forall j :: 0 <= j < entries.Length && j != i ==> entries[j].valid
      modifies this, entries
      ensures Valid() && history == old(history) + [b]
      ensures forall x :: 0 <= x < |dev.blocks| ==>
                Contents(x) == if x == b then e.data else old(Contents(x))
      ensures forall x :: Resident(entries[..], x) ==> x == b || old(Resident(entries[..], x))
    {
      ghost var es := entries[..];
      entries[i] := e;
      clock := clock + 1;
      assert entries[..] == es[i := e];
      TouchKeepsConsistent(es, dev.blocks, history, i, e);
      if dev.failures == 0 {
        TouchKeepsPacked(es, history, i, e);
      }
      history := history + [b];
      forall x | 0 <= x < |dev.blocks|
        ensures Contents(x) == if x == b then e.data else View(es, dev.blocks, x)
      {
        FillSetsView(es, dev.blocks, i, e, x);
      }
      forall x | Resident(entries[..], x) ensures x == b || Resident(es, x) {
        var j :| 0 <= j < entries.Length && Holds(entries[j], x);
        assert j != i ==> Holds(es[j], x);
      }
    }

    /** Writes every dirty block home; on success the device is what the file system sees. */
    method Flush() returns (ok: bool)
      requires Valid()
      modifies entries, dev
      ensures Valid() && |dev.blocks| == |old(dev.blocks)|
      ensures forall x :: 0 <= x < |dev.blocks| ==> Contents(x) == old(Contents(x))
      ensures forall x :: 0 <= x < |dev.blocks| ==>
                dev.blocks[x] == old(dev.blocks[x]) || (old(Resident(entries[..], x)) && dev.blocks[x] == old(Contents(x)))
      ensures forall x :: Resident(entries[..], x) <==> old(Resident(entries[..], x))
      ensures ok ==> forall x :: 0 <= x < |dev.blocks| ==> dev.blocks[x] == Contents(x)
      ensures ok ==> forall k :: 0 <= k < entries.Length ==> !(entries[k].valid && entries[k].dirty)
      ensures dev.failures == old(dev.failures) + if ok then 0 else 1
    {
      var i := 0;
      while i < entries.Length
        invariant 0 <= i <= entries.Length && Valid() && |dev.blocks| == |old(dev.blocks)|
        invariant forall x :: 0 <= x < |dev.blocks| ==> Contents(x) == old(Contents(x))
        invariant forall x :: 0 <= x < |dev.blocks| ==>
                dev.blocks[x] == old(dev.blocks[x]) || (old(Resident(entries[..], x)) && dev.blocks[x] == old(Contents(x)))
        invariant forall x :: Resident(entries[..], x) <==> old(Resident(entries[..], x))
        invariant forall k :: 0 <= k < i ==> !(entries[k].valid && entries[k].dirty)
        invariant dev.failures == old(dev.failures)
      {
        if entries[i].valid && entries[i].dirty {
          ok := FlushOne(i);
          if !ok {
            return;
          }
        }
        i := i + 1;
      }
      ok := true;
      forall x | 0 <= x < |dev.blocks| ensures dev.blocks[x] == Contents(x) {
        if Resident(entries[..], x) {
          var j :| 0 <= j < entries.Length && Holds(entries[j], x);
          ViewOfResident(entries[..], dev.blocks, j);
        }
      }
    }

    method FlushOne(i: nat) returns (ok: bool)
      requires Valid() && i < entries.Length && entries[i].valid && entries[i].dirty
      modifies entries, dev
      ensures Valid() && |dev.blocks| == |old(dev.blocks)|
      ensures forall x :: 0 <= x < |dev.blocks| ==> Contents(x) == old(Contents(x))
      ensures forall x :: 0 <= x < |dev.blocks| ==>
                dev.blocks[x] == old(dev.blocks[x]) || (old(Resident(entries[..], x)) && dev.blocks[x] == old(Contents(x)))
      ensures forall x :: Resident(entries[..], x) <==> old(Resident(entries[..], x))
      ensures entries[..] == old(entries[..])[i := old(entries[i]).(dirty := !ok)]
      ensures dev.failures == old(dev.failures) + if ok then 0 else 1
    {
      ghost var es, disk := entries[..], dev.blocks;
      var e := entries[i];
      assert Holds(es[i], e.blockNo);
      ok := dev.Write(e.blockNo, e.data);
      if !ok {
        return;
      }
      entries[i] := e.(dirty := false);
      var fs := entries[..];
      assert fs == es[i := es[i].(dirty := false)];
      CleanKeepsConsistent(es, disk, history, i);
      assert forall k, b :: 0 <= k < |fs| ==> Holds(fs[k], b) == Holds(es[k], b);
      assert forall b :: Resident(fs, b) == Resident(es, b);
      forall x | 0 <= x < |disk| ensures Contents(x) == View(es, disk, x) {
        WriteHomeKeepsView(es, disk, i, x);
        CleanKeepsView(es, dev.blocks, i, x);
      }
      ViewOfResident(es, disk, i);
    }

    ghost function ContentsAll(): (disk: seq<Block>)
      reads this, entries, dev
      ensures |disk| == |dev.blocks|
      ensures forall x :: 0 <= x < |dev.blocks| ==> disk[x] == Contents(x)
    {
      seq(|dev.blocks|, x requires 0 <= x < |dev.blocks| reads this, entries, dev => Contents(x))
    }

    /** One request does what it would do to a plain block array, or fails and does nothing. */
    method Do(op: Op) returns (out: Outcome)
      requires Valid()
      modifies this, entries, dev
      ensures Valid() && |dev.blocks| == |old(dev.blocks)| && ContentsAll() == ArrayStep(old(ContentsAll()), op, out)
      ensures op.ReadOp? && out.Got? && op.b < |old(dev.blocks)| ==> out.data == old(ContentsAll())[op.b]
      ensures dev.failures >= old(dev.failures) && (out.Failed? ==> dev.failures > old(dev.failures))
    {
      match op
      case ReadOp(b) =>
        var ok, data := Read(b);
        out := if ok then Got(data) else Failed;
      case WriteOp(b, data) =>
        var ok := Write(b, data);
        out := if ok then Done else Failed;
      case FlushOp =>
        var ok := Flush();
        out := if ok then Done else Failed;
    }

    /** Every run of requests reads what a plain block array would have given. */
    method Run(ops: seq<Op>) returns (outs: seq<Outcome>)
      requires Valid()
      modifies this, entries, dev
      ensures Valid() && |outs| == |ops|
      ensures ContentsAll() == ArrayAfter(old(ContentsAll()), ops, outs)
      ensures forall k :: 0 <= k < |ops| ==> ReadsAs(old(ContentsAll()), ops, outs, k)
      ensures dev.failures == old(dev.failures) ==> Failed !in outs
    {
      outs := [];
      ghost var start := ContentsAll();
      while |outs| < |ops|
        invariant |outs| <= |ops| && Valid() && |dev.blocks| == |start|
        invariant ContentsAll() == ArrayAfter(start, ops[..|outs|], outs)
        invariant forall k :: 0 <= k < |outs| ==> ReadsAs(start, ops, outs, k)
        invariant dev.failures >= old(dev.failures)
        invariant dev.failures == old(dev.failures) ==> Failed !in outs
      {
        var out := Do(ops[|outs|]);
        OneMore(start, ops, outs, out);
        outs := outs + [out];
      }
      assert ops[..|ops|] == ops;
    }
  }
}
