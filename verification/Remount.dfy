/**
 * The journal of a mount that starts on what an earlier mount left there.  A volume that was unmounted cleanly is
 * mounted without recovery (k64_xfs.c:677-680), so old headers stay, while transaction numbers start over
 * (k64_xfs.c:659, k64_xfs_journal.c:122).
 */
module Remount {
  import opened Blocks
  import opened Journal

  /** A mount that finds this journal area. */
  function Mounted(area: seq<Block>): Model { Model(area, 0, false, [], false, None) }

  /** Behind the first header slot lies no old commit header that one of the first n transactions could be taken for. */
  ghost predicate NoStaleCommit(c: Codec, area: seq<Block>, n: U64)
    requires |area| == JOURNAL_BLOCKS
  {
    forall k, tx: U64 :: 1 <= k < MAX_RECORDS && 0 < tx <= n ==> !CommitAt(c, area, tx, k)
  }

  /**
   * Recovery finds the transaction committed last, and nothing while another one is under way; before the mount
   * has written to the journal it finds what was there.
   */
  predicate Faithful(c: Codec, area: seq<Block>, m: Model) {
    Committed(c, m.area) ==
      if m.active && m.touched then None
      else if m.last.None? then Committed(c, area)
      else Some(Headers(c, m.last.value.0, m.last.value.1))
  }

  ghost predicate FaithfulRun(c: Codec, area: seq<Block>, n: U64, events: seq<Event>) {
    Legal(c, Mounted(area), events) && Execute(c, Mounted(area), events).tx <= n ==>
      Faithful(c, area, Execute(c, Mounted(area), events))
  }

  // ---------------------------------------------------------------------------------------
  // Without stale commits
  // ---------------------------------------------------------------------------------------

  /** Header slot k is as the mount found it, or holds a header of a transaction of this mount. */
  ghost predicate OldOrOwn(c: Codec, area: seq<Block>, m: Model, k: nat)
    requires |m.area| == JOURNAL_BLOCKS == |area| && k < MAX_RECORDS
  {
    || m.area[2 * k] == area[2 * k]
    || (c.decode(m.area[2 * k]).Some? && c.decode(m.area[2 * k]).value.txId < m.tx + if m.active && !m.touched then 0 else 1)
  }

  ghost predicate Open(c: Codec, m: Model)
    requires |m.area| == JOURNAL_BLOCKS
  {
    && m.tx > 0 && Written(c, m.area, m.tx, m.recs) && (m.recs != [] ==> m.touched)
    && (m.touched ==> c.decode(m.area[0]).Some? && c.decode(m.area[0]).value.txId == m.tx)
    && (m.touched ==> !CommitAt(c, m.area, m.tx, 0))
    && forall k :: 1 <= k < MAX_RECORDS ==> !CommitAt(c, m.area, m.tx, k)
  }

  ghost predicate InvFrom(c: Codec, area: seq<Block>, n: U64, m: Model)
    requires |area| == JOURNAL_BLOCKS
  {
    && |m.area| == JOURNAL_BLOCKS
    && (m.tx <= n ==>
          && (forall k :: 0 <= k < MAX_RECORDS ==> OldOrOwn(c, area, m, k))
          && (m.active ==> Open(c, m))
          && ((m.active && m.touched) || if m.last.None? then m.area == area else Describes(c, m.area, m.last)))
  }

  lemma {:induction false} BeginKeeps(c: Codec, area: seq<Block>, n: U64, m: Model)
    requires Lawful(c) && |area| == JOURNAL_BLOCKS && NoStaleCommit(c, area, n) && InvFrom(c, area, n, m) && Enabled(c, m, Begin)
    ensures InvFrom(c, area, n, Apply(c, m, Begin))
  {
    var m' := Apply(c, m, Begin);
    if m'.tx <= n {
      forall k | 0 <= k < MAX_RECORDS ensures OldOrOwn(c, area, m', k) && (k >= 1 ==> !CommitAt(c, m'.area, m'.tx, k)) {
        assert OldOrOwn(c, area, m, k);
        assert k >= 1 ==> !CommitAt(c, area, m'.tx, k);
      }
    }
  }

  lemma {:induction false} WriteKeeps(c: Codec, area: seq<Block>, n: U64, m: Model, e: Event)
    requires Lawful(c) && |area| == JOURNAL_BLOCKS && InvFrom(c, area, n, m) && Enabled(c, m, e) && !e.Begin?
    ensures InvFrom(c, area, n, Apply(c, m, e))
  {
    var m', at := Apply(c, m, e), 2 * |m.recs|;
    if m'.tx <= n {
      forall k | 0 <= k < MAX_RECORDS ensures OldOrOwn(c, area, m', k) {
        assert OldOrOwn(c, area, m, k);
        assert e.PayloadWrite? || 2 * k != at ==> m'.area[2 * k] == m.area[2 * k];
      }
      if !e.CommitWrite? {
        forall k | 0 <= k < MAX_RECORDS && (k >= 1 || m'.touched) ensures !CommitAt(c, m'.area, m'.tx, k) {
          if e.PayloadWrite? || 2 * k != at {
            assert m'.area[2 * k] == m.area[2 * k];
            assert k == 0 ==> m.touched;
            assert !CommitAt(c, m.area, m.tx, k);
          } else {
            assert c.decode(m'.area[2 * k]) == Some(MetadataHeader(c, m.tx, e.r));
          }
        }
      }
    }
  }

  lemma {:induction false} RunKeepsFrom(c: Codec, area: seq<Block>, n: U64, m: Model, events: seq<Event>)
    requires Lawful(c) && |area| == JOURNAL_BLOCKS && NoStaleCommit(c, area, n) && InvFrom(c, area, n, m) && Legal(c, m, events)
    ensures InvFrom(c, area, n, Execute(c, m, events))
    decreases |events|
  {
    if events != [] {
      if events[0].Begin? {
        BeginKeeps(c, area, n, m);
      } else {
        WriteKeeps(c, area, n, m, events[0]);
      }
      RunKeepsFrom(c, area, n, Apply(c, m, events[0]), events[1..]);
    }
  }

  /** Without a commit header of its transaction from here on, a scan finds nothing. */
  lemma {:induction false} NothingBehind(c: Codec, area: seq<Block>, tx: U64, k: nat, found: seq<Header>)
    requires |area| == JOURNAL_BLOCKS && tx > 0 && forall j :: k <= j < MAX_RECORDS ==> !CommitAt(c, area, tx, j)
    ensures Scan(c, area, 2 * k, tx, found) == None
    decreases |area| - k
  {
    if 2 * k < |area| && c.decode(area[2 * k]).Some? {
      assert !CommitAt(c, area, tx, k);
      NothingBehind(c, area, tx, k + 1, found + [c.decode(area[2 * k]).value]);
    }
  }

  lemma {:induction false} InvIsFaithful(c: Codec, area: seq<Block>, n: U64, m: Model)
    requires Lawful(c) && |area| == JOURNAL_BLOCKS && InvFrom(c, area, n, m) && m.tx <= n
    ensures Faithful(c, area, m)
  {
    if m.active && m.touched {
      NothingBehind(c, m.area, m.tx, 0, []);
    } else if m.last.Some? {
      var (tx, recs) := m.last.value;
      ScanFindsLast(c, m.area, tx, recs, 0, 0);
      assert recs[..0] == [];
    }
  }

  // ---------------------------------------------------------------------------------------
  // With one
  // ---------------------------------------------------------------------------------------

  /** t empty transactions. */
  function Empties(t: nat): seq<Event> { if t == 0 then [] else Empties(t - 1) + [Begin] + [CommitWrite] }

  /** t - 1 empty transactions, then one with these records and no commit. */
  function Attempt(t: nat, recs: seq<Record>): seq<Event>
    requires t > 0
  {
    if recs == [] then Empties(t - 1) + [Begin]
    else
      var r := recs[|recs| - 1];
      Attempt(t, recs[..|recs| - 1]) + [HeaderWrite(r)] + [PayloadWrite(r)]
  }

  /** Empty transactions write only the first slot. */
  lemma {:induction false} EmptiesRun(c: Codec, area: seq<Block>, t: U64)
    requires |area| == JOURNAL_BLOCKS
    ensures Legal(c, Mounted(area), Empties(t))
    ensures var m := Execute(c, Mounted(area), Empties(t));
            m.tx == t && !m.active && |m.area| == JOURNAL_BLOCKS && (forall k :: 1 <= k < |area| ==> m.area[k] == area[k]) &&
            (t == 0 ==> m.last.None?)
    decreases t
  {
    if t > 0 {
      EmptiesRun(c, area, t - 1);
      ExtendRun(c, Mounted(area), Empties(t - 1), Begin);
      ExtendRun(c, Mounted(area), Empties(t - 1) + [Begin], CommitWrite);
    }
  }

  ghost predicate Attempted(c: Codec, area: seq<Block>, t: U64, recs: seq<Record>, m: Model)
    requires |area| == JOURNAL_BLOCKS
  {
    && m.tx == t && m.active && m.recs == recs && (recs != [] ==> m.touched) && |m.area| == JOURNAL_BLOCKS
    && (t == 1 ==> m.last.None?) && Written(c, m.area, t, recs)
    && forall k :: 1 <= k < |area| && 2 * |recs| <= k ==> m.area[k] == area[k]
  }

  lemma {:induction false} AttemptRuns(c: Codec, area: seq<Block>, t: U64, recs: seq<Record>)
    requires |area| == JOURNAL_BLOCKS && t > 0 && |recs| < MAX_RECORDS
    ensures Legal(c, Mounted(area), Attempt(t, recs)) && Attempted(c, area, t, recs, Execute(c, Mounted(area), Attempt(t, recs)))
    decreases |recs|
  {
    if recs == [] {
      EmptiesRun(c, area, t - 1);
      ExtendRun(c, Mounted(area), Empties(t - 1), Begin);
    } else {
      var n := |recs| - 1;
      var before, r := Attempt(t, recs[..n]), recs[n];
      AttemptRuns(c, area, t, recs[..n]);
      ExtendRun(c, Mounted(area), before, HeaderWrite(r));
      ExtendRun(c, Mounted(area), before + [HeaderWrite(r)], PayloadWrite(r));
      RecordKeepsAttempt(c, area, t, recs[..n], r, Execute(c, Mounted(area), before));
      assert recs[..n] + [r] == recs;
    }
  }

  lemma {:induction false} RecordKeepsAttempt(c: Codec, area: seq<Block>, t: U64, recs: seq<Record>, r: Record, m: Model)
    requires |area| == JOURNAL_BLOCKS && Attempted(c, area, t, recs, m) && |recs| + 1 < MAX_RECORDS
    ensures Enabled(c, m, HeaderWrite(r)) && Enabled(c, Apply(c, m, HeaderWrite(r)), PayloadWrite(r))
    ensures Attempted(c, area, t, recs + [r], Apply(c, Apply(c, m, HeaderWrite(r)), PayloadWrite(r)))
  {
  }

  /** A stale commit of transaction tx in slot k completes k records of the new transaction tx. */
  lemma {:induction false} StaleCommitCompletes(c: Codec, area: seq<Block>, n: U64, k: nat, tx: U64)
    requires Lawful(c) && |area| == JOURNAL_BLOCKS && 1 <= k < MAX_RECORDS && 0 < tx <= n && CommitAt(c, area, tx, k)
    ensures exists events :: !FaithfulRun(c, area, n, events)
  {
    var recs := seq(k, _ => Record(0, ZeroBlock()));
    AttemptRuns(c, area, tx, recs);
    var m := Execute(c, Mounted(area), Attempt(tx, recs));
    assert m.area[2 * k] == area[2 * k];
    ScanFindsLast(c, m.area, tx, recs, 0, 0);
    assert recs[..0] == [];
    assert !FaithfulRun(c, area, n, Attempt(tx, recs));
  }

  /**
   * Exactly when the journal keeps its promise over the first n transactions of a mount: in every run, at every
   * crash point, if and only if no old commit header of a number up to n lies behind the first slot.
   */
  lemma {:induction false} FaithfulIff(c: Codec, area: seq<Block>, n: U64)
    requires Lawful(c) && |area| == JOURNAL_BLOCKS
    ensures (forall events :: FaithfulRun(c, area, n, events)) <==> NoStaleCommit(c, area, n)
  {
    if NoStaleCommit(c, area, n) {
      forall events ensures FaithfulRun(c, area, n, events) {
        if Legal(c, Mounted(area), events) && Execute(c, Mounted(area), events).tx <= n {
          RunKeepsFrom(c, area, n, Mounted(area), events);
          InvIsFaithful(c, area, n, Execute(c, Mounted(area), events));
        }
      }
    } else {
      var k, tx: U64 :| 1 <= k < MAX_RECORDS && 0 < tx <= n && CommitAt(c, area, tx, k);
      StaleCommitCompletes(c, area, n, k, tx);
    }
  }

  /** What recovery then does to the device, for every crash point of such a mount. */
  lemma {:induction false} RemountRecovery(c: Codec, area: seq<Block>, n: U64, events: seq<Event>, disk: seq<Block>, start: nat)
    requires Lawful(c) && |area| == JOURNAL_BLOCKS && NoStaleCommit(c, area, n) && Legal(c, Mounted(area), events)
    requires start + JOURNAL_BLOCKS <= |disk|
    requires var m := Execute(c, Mounted(area), events);
             m.tx <= n && Area(disk, start) == m.area && (m.last.Some? ==> Home(m.last.value.1, start, |disk|))
    ensures var m := Execute(c, Mounted(area), events);
            if m.active && m.touched then Recovered(c, disk, start) == Some(disk)
            else if m.last.None? then Area(disk, start) == area
            else Recovered(c, disk, start) == Some(ApplyRecords(disk, m.last.value.1))
  {
    var m := Execute(c, Mounted(area), events);
    RunKeepsFrom(c, area, n, Mounted(area), events);
    InvIsFaithful(c, area, n, m);
    if !(m.active && m.touched) && m.last.Some? {
      var (tx, recs) := m.last.value;
      ReplayAppliesRecords(c, disk, start, tx, recs, 0);
      assert recs[..0] == [];
    }
  }

  /**
   * The case at hand after every clean unmount: the first transaction of the earlier mount is the last one in the
   * journal, and the new mount is cut off after as many records of its own first transaction, before its commit.
   * Recovery takes the old commit for the new one and replays them.
   */
  lemma {:induction false} UncommittedIsReplayed(c: Codec, area: seq<Block>, before: seq<Record>, recs: seq<Record>, disk: seq<Block>, start: nat)
    requires Lawful(c) && |area| == JOURNAL_BLOCKS && Describes(c, area, Some((1, before))) && 0 < |before| == |recs| < MAX_RECORDS
    requires start + JOURNAL_BLOCKS <= |disk| && Home(recs, start, |disk|)
    requires Legal(c, Mounted(area), Attempt(1, recs)) ==> Area(disk, start) == Execute(c, Mounted(area), Attempt(1, recs)).area
    ensures Legal(c, Mounted(area), Attempt(1, recs)) && Execute(c, Mounted(area), Attempt(1, recs)).last == None
    ensures Recovered(c, disk, start) == Some(ApplyRecords(disk, recs))
  {
    AttemptRuns(c, area, 1, recs);
    var m := Execute(c, Mounted(area), Attempt(1, recs));
    assert m.area[2 * |recs|] == area[2 * |recs|];
    ScanFindsLast(c, m.area, 1, recs, 0, 0);
    assert recs[..0] == [];
    ReplayAppliesRecords(c, disk, start, 1, recs, 0);
  }
}
