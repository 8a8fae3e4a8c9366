/** Exactly when a range, a space or a program can be mapped, in terms of the tables and frames there are before (k64_vmm.c:156-294, 376-434). */
module Provisions {
  import opened Blocks
  import opened PageTables
  import opened AddressSpaces
  import opened TableNeeds
  import opened Worlds
  import opened UserMemory
  import opened SpaceRuns

  /** The pages [first, last). */
  function Pages(first: nat, last: nat): (ps: seq<Page>)
    ensures |ps| == (if first <= last then last - first else 0) && forall i :: 0 <= i < |ps| ==> ps[i] == PageOf(first + i)
  {
    seq(if first <= last then last - first else 0, i requires 0 <= i => PageOf(first + i))
  }

  lemma {:induction false} PagesMore(first: nat, v: nat)
    requires first <= v
    ensures Pages(first, v + 1) == Pages(first, v) + [PageOf(v)]
  {
  }

  lemma {:induction false} PagesSplit(first: nat, v: nat, last: nat)
    requires first <= v <= last
    ensures Pages(first, last) == Pages(first, v) + Pages(v, last)
  {
  }

  ghost predicate NoneBlocked(t: Tables, root: nat, ps: seq<Page>) { forall i :: 0 <= i < |ps| ==> !Blocked(t, root, ps[i]) }

  /** What it takes to give each of the pages a frame of its own below this root. */
  ghost predicate CanMap(t: Tables, root: nat, ps: seq<Page>, s: Supply) {
    (ps != [] ==> root != 0) && NoneBlocked(t, root, ps) && Suffices(s, Needed(t, root, ps), |ps|)
  }

  /**
   * Space h was given frames for the pages exactly if that can be done; what was spent, and what is reached now. It is
   * said for every z, so that it is taken apart only where it is asked for.
   */
  ghost predicate Provided(w: World, w': World, h: nat, ps: seq<Page>, s: Supply, s': Supply, ok: bool) {
    forall z :: ProvidedIs(w, w', h, ps, s, s', ok, z)
  }

  ghost predicate ProvidedIs(w: World, w': World, h: nat, ps: seq<Page>, s: Supply, s': Supply, ok: bool, z: bool) {
    && h in w.spaces && h in w'.spaces && w'.spaces[h].root == w.spaces[h].root
    && var t, root := w.tables, w.spaces[h].root;
       && (ok <==> CanMap(t, root, ps, s))
       && (ok ==> Spends(s, s', Needed(t, root, ps), |ps|) && Covers(t, root, w'.tables, root, ps) && SameBlocks(t, root, w'.tables, root))
  }

  lemma {:induction false} ProvidedNothing(w: World, h: nat, s: Supply)
    requires h in w.spaces
    ensures Provided(w, w, h, [], s, s, true)
    ensures forall v :: Pages(v, v) == []
  {
    CoversNothing(w.tables, w.spaces[h].root);
    assert ProvidedIs(w, w, h, [], s, s, true, true);
  }

  /** A frame, and then its page. */
  lemma {:induction false} FreshProvided(w: World, w1: World, w': World, h: nat, p: Page, s: Supply, s1: Supply, s': Supply, taken: bool, ok: bool)
    requires h in w.spaces && h in w1.spaces && h in w'.spaces && ValidPage(p) && w1.tables == w.tables
    requires w1.spaces[h].root == w.spaces[h].root == w'.spaces[h].root
    requires (taken <==> Suffices(s, 0, 1)) && (taken ==> Spends(s, s1, 0, 1)) && (!taken ==> !ok)
    requires taken && w.spaces[h].root == 0 ==> !ok
    requires taken && w.spaces[h].root != 0 ==> Served(w1, w', h, w.spaces[h].root, p, Budget(s1), ok)
    requires taken && ok ==> Spends(s1, s', |w'.spaces[h].tables| - |w1.spaces[h].tables|, 0)
    ensures Provided(w, w', h, [p], s, s', ok)
  {
    NeededOne(w.tables, w.spaces[h].root, p);
    assert taken && w.spaces[h].root != 0 ==> ServedIs(w1, w', h, w.spaces[h].root, p, Budget(s1), ok, true);
    var one := [p];
    assert one[0] == p;
    assert ProvidedIs(w, w', h, [p], s, s', ok, true);
  }

  lemma {:induction false} BlockedMore(t: Tables, t': Tables, root: nat, ps: seq<Page>, qs: seq<Page>)
    requires SameBlocks(t, root, t', root) && AllValid(qs)
    ensures NoneBlocked(t, root, ps + qs) <==> NoneBlocked(t, root, ps) && NoneBlocked(t', root, qs)
  {
    var all := ps + qs;
    if NoneBlocked(t, root, all) {
      forall i | 0 <= i < |ps| ensures !Blocked(t, root, ps[i]) {
        assert !Blocked(t, root, all[i]);
      }
      forall i | 0 <= i < |qs| ensures !Blocked(t', root, qs[i]) {
        assert !Blocked(t, root, all[|ps| + i]) && ValidPage(qs[i]);
      }
    } else {
      var i :| 0 <= i < |all| && Blocked(t, root, all[i]);
      if i >= |ps| {
        assert qs[i - |ps|] == all[i] && ValidPage(qs[i - |ps|]);
      } else {
        assert ps[i] == all[i];
      }
    }
  }

  lemma {:induction false} SameBlocksTwice(t: Tables, x: nat, t': Tables, t'': Tables)
    requires SameBlocks(t, x, t', x) && SameBlocks(t', x, t'', x)
    ensures SameBlocks(t, x, t'', x)
  {
    forall q | ValidPage(q) ensures Blocked(t'', x, q) <==> Blocked(t, x, q) {
      assert Blocked(t', x, q) <==> Blocked(t, x, q);
    }
  }

  /** Some pages, and then some more. */
  lemma {:induction false} ProvidedMore(w: World, w1: World, w': World, h: nat, ps: seq<Page>, qs: seq<Page>, s: Supply, s1: Supply, s': Supply, ok: bool)
    requires Provided(w, w1, h, ps, s, s1, true) && Provided(w1, w', h, qs, s1, s', ok) && AllValid(qs) && qs != []
    ensures Provided(w, w', h, ps + qs, s, s', ok)
  {
    assert ProvidedIs(w, w1, h, ps, s, s1, true, true) && ProvidedIs(w1, w', h, qs, s1, s', ok, true);
    var root := w.spaces[h].root;
    NeededJoin(w.tables, root, w1.tables, root, ps, qs);
    BlockedMore(w.tables, w1.tables, root, ps, qs);
    if ok {
      CoversJoin(w.tables, root, w1.tables, root, w'.tables, root, ps, qs);
      SameBlocksTwice(w.tables, root, w1.tables, w'.tables);
    }
    assert ProvidedIs(w, w', h, ps + qs, s, s', ok, true);
  }

  /** What cannot be done for some pages cannot be done for more. */
  lemma {:induction false} CannotMapMore(t: Tables, root: nat, ps: seq<Page>, qs: seq<Page>, s: Supply)
    requires !CanMap(t, root, ps, s)
    ensures !CanMap(t, root, ps + qs, s)
  {
    NeededPrefix(t, root, ps, qs);
    var all := ps + qs;
    if !NoneBlocked(t, root, ps) {
      var i :| 0 <= i < |ps| && Blocked(t, root, ps[i]);
      assert Blocked(t, root, all[i]);
    }
  }

  /** A page that could not be given a frame, and the rest of the range. */
  lemma {:induction false} ProvidedFailed(w: World, w': World, h: nat, first: nat, v: nat, last: nat, s: Supply, s': Supply)
    requires first <= v <= last && Provided(w, w', h, Pages(first, v), s, s', false)
    ensures Provided(w, w', h, Pages(first, last), s, s', false)
  {
    assert ProvidedIs(w, w', h, Pages(first, v), s, s', false, true);
    PagesSplit(first, v, last);
    CannotMapMore(w.tables, w.spaces[h].root, Pages(first, v), Pages(v, last), s);
    assert ProvidedIs(w, w', h, Pages(first, last), s, s', false, true);
  }

  /** A range to be mapped from page `first` on, filled with the data at virt; `private` says that all its pages are free for the space. */
  datatype Job = Job(h: nat, first: nat, virt: nat, data: Option<seq<Byte>>, size: nat, private: bool, user: bool)

  /** The pages up to v hold what belongs there, for the kernel and, where the space is a user's, for the user. */
  ghost predicate LaidOut(w: World, w': World, memory: map<nat, Block>, j: Job, v: nat) {
    && j.h in w.spaces && j.h in w'.spaces
    && Laid(w'.tables, memory, w.spaces[j.h].root, w'.spaces[j.h].frames, |w.spaces[j.h].frames|, j.first, v, j.virt, j.data, j.size, false)
    && (j.user && j.private && Isolation(w) && UserSpace(w, j.h) ==>
          Laid(w'.tables, memory, w.spaces[j.h].root, w'.spaces[j.h].frames, |w.spaces[j.h].frames|, j.first, v, j.virt, j.data, j.size, true))
  }

  /** What mapping the pages up to v has come to. */
  ghost predicate Mapping(w: World, w': World, memory: map<nat, Block>, j: Job, v: nat, s: Supply, s': Supply, ok: bool) {
    forall z :: MappingIs(w, w', memory, j, v, s, s', ok, z)
  }

  ghost predicate MappingIs(w: World, w': World, memory: map<nat, Block>, j: Job, v: nat, s: Supply, s': Supply, ok: bool, z: bool) {
    && j.h in w.spaces && j.h in w'.spaces && Structured(w')
    && Progress(w, w', j.h, j.private, j.user) && Provided(w, w', j.h, Pages(j.first, v), s, s', ok)
    && (ok ==> LaidOut(w, w', memory, j, v))
  }

  lemma {:induction false} StartMapping(w: World, memory: map<nat, Block>, j: Job, s: Supply)
    requires Structured(w) && j.h in w.spaces
    ensures Mapping(w, w, memory, j, j.first, s, s, true)
  {
    SteppedNot(w, j.h, j.user);
    SteppedProgress(w, w, j.h, j.private, j.user);
    ProvidedNothing(w, j.h, s);
    assert MappingIs(w, w, memory, j, j.first, s, s, true, true);
  }

  lemma {:induction false} MappingFailed(w: World, w': World, memory: map<nat, Block>, j: Job, v: nat, last: nat, s: Supply, s': Supply)
    requires j.first <= v <= last && Mapping(w, w', memory, j, v, s, s', false)
    ensures Mapping(w, w', memory, j, last, s, s', false)
  {
    assert MappingIs(w, w', memory, j, v, s, s', false, true);
    ProvidedFailed(w, w', j.h, j.first, v, last, s, s');
    assert MappingIs(w, w', memory, j, last, s, s', false, true);
  }

  /** What there is to it. */
  lemma {:induction false} MappingGives(w: World, w': World, memory: map<nat, Block>, j: Job, v: nat, s: Supply, s': Supply, ok: bool)
    requires Mapping(w, w', memory, j, v, s, s', ok)
    ensures Structured(w') && Progress(w, w', j.h, j.private, j.user) && Provided(w, w', j.h, Pages(j.first, v), s, s', ok)
    ensures ok ==> LaidOut(w, w', memory, j, v)
  {
    assert MappingIs(w, w', memory, j, v, s, s', ok, true);
  }

  /** One page more. */
  lemma {:induction false} MappingMore(w: World, w1: World, w': World, memory: map<nat, Block>, memory': map<nat, Block>, j: Job, v: nat, frame: nat, flags: Flags, s: Supply, s1: Supply, s': Supply, ok: bool)
    requires Recorded(w1.spaces, w1.place) && Mapping(w, w1, memory, j, v, s, s1, true) && j.first <= v && (j.private ==> FreePage(w, j.h, PageOf(v)))
    requires flags.user == j.user && InCapacity(w1.spaces, j.h) && (ok ==> memory' == memory[frame := PageContent(j.virt, j.data, j.size, v)])
    requires Progress(w1, w', j.h, FreePage(w1, j.h, PageOf(v)), flags.user) && Provided(w1, w', j.h, [PageOf(v)], s1, s', ok)
    requires ok ==> w1.spaces[j.h].root != 0 && w'.spaces[j.h].frames == w1.spaces[j.h].frames + [frame] && frame !in w1.place
    requires ok ==> Maps(w1.tables, w'.tables, w1.spaces[j.h].root, PageOf(v), frame, flags)
    ensures Mapping(w, w', memory', j, v + 1, s, s', ok)
  {
    assert MappingIs(w, w1, memory, j, v, s, s1, true, true) && ProvidedIs(w1, w', j.h, [PageOf(v)], s1, s', ok, true);
    PagesMore(j.first, v);
    ProvidedMore(w, w1, w', j.h, Pages(j.first, v), [PageOf(v)], s, s1, s', ok);
    ProgressNext(w, w1, w', j.h, PageOf(v), j.private, j.user);
    if ok {
      var n, root := |w.spaces[j.h].frames|, w.spaces[j.h].root;
      FreshNotListed(w1.spaces, w1.place, j.h, frame);
      LaidMore(w1.tables, w'.tables, memory, root, w1.spaces[j.h].frames, n, j.first, v, j.virt, j.data, j.size, false, frame, flags);
      if j.user && j.private && Isolation(w) && UserSpace(w, j.h) {
        OpenPage(w, w1, j.h, PageOf(v));
        LaidMore(w1.tables, w'.tables, memory, root, w1.spaces[j.h].frames, n, j.first, v, j.virt, j.data, j.size, true, frame, flags);
      }
    }
    assert MappingIs(w, w', memory', j, v + 1, s, s', ok, true);
  }

  // ---------------------------------------------------------------------------------------
  // A new space
  // ---------------------------------------------------------------------------------------

  /** The first free window at or after the one the pid asks for, going round. */
  ghost predicate NextSlot(used: seq<bool>, pid: nat, slot: nat) {
    && |used| == SLOTS && slot < SLOTS && !used[slot]
    && forall k :: 0 <= k < SLOTS && Ahead(pid % SLOTS, k) < Ahead(pid % SLOTS, slot) ==> used[k]
  }

  lemma {:induction false} NextSlotUnique(used: seq<bool>, pid: nat, a: nat, b: nat)
    requires NextSlot(used, pid, a) && NextSlot(used, pid, b)
    ensures a == b
  {
    assert Ahead(pid % SLOTS, a) == Ahead(pid % SLOTS, b);
  }

  function StackPages(slot: nat): (ps: seq<Page>)
    ensures |ps| == 64
  {
    Pages(StackPage(slot), StackPage(slot) + 64)
  }

  /** The sixty-four pages of a stack lie under one last table, in the first entry of the root. */
  lemma {:induction false} StackTogether(slot: nat)
    requires slot < SLOTS
    ensures forall i :: 0 <= i < 64 ==> SameAbove(StackPages(slot)[0], StackPages(slot)[i], 1) && StackPages(slot)[i].i4 == 0
  {
    StackRow(slot, 0);
    forall i | 0 <= i < 64 ensures SameAbove(StackPages(slot)[0], StackPages(slot)[i], 1) && StackPages(slot)[i].i4 == 0 {
      StackRow(slot, i);
    }
  }

  lemma {:induction false} StackRow(slot: nat, i: nat)
    requires slot < SLOTS && i < 64
    ensures (StackPage(slot) + i) / 512 == 8 * (257 + slot) - 1 && (8 * (257 + slot) - 1) / 512 / 512 == 0
  {
    assert StackPage(slot) + i == (8 * (257 + slot) - 1) * 512 + (448 + i);
  }

  /** A copy of the kernel's root reaches what the kernel's root reaches, and blocks what it blocks but for the first entry. */
  lemma {:induction false} CloneCovers(w: World, w': World, h: nat, r: nat, d: nat)
    requires Structured(w) && NewRoot(w, w', h, r, d)
    ensures Covers(w.tables, w.kernel, w'.tables, r, []) && NewBlocks(w.tables, w.kernel, w'.tables, r)
  {
    var t, k := w.tables, w.kernel;
    assert GoodEntry(t, t[k].entries[0], 4);
    forall q, l ensures CoversAt(t, k, w'.tables, r, [], q, l) {
      if ValidPage(q) && 1 <= l <= 3 {
        CloneNew(t, k, r, d, w.spaces[h].userMode, q, l);
      }
    }
    forall q | ValidPage(q) ensures Blocked(w'.tables, r, q) <==> q.i4 != 0 && Blocked(t, k, q) {
      assert w'.tables[r].entries[q.i4] == if q.i4 == 0 then Entry(d, PointerFlags(w.spaces[h].userMode)) else t[k].entries[q.i4];
    }
  }

  ghost predicate NewBlocks(t: Tables, kernel: nat, t': Tables, root: nat) {
    forall q :: ValidPage(q) ==> (Blocked(t', root, q) <==> q.i4 != 0 && Blocked(t, kernel, q))
  }

  /**
   * A space in this window, with its root, its directory and its stack, and these pages besides: the kernel's root has
   * a first directory to copy, no large root entry is in the way, and there are frames for all of it.
   */
  ghost predicate CanMake(t: Tables, kernel: nat, slot: nat, ps: seq<Page>, free: nat) {
    && HasDirectory(t, kernel)
    && (forall i :: 0 <= i < |ps| && ps[i].i4 != 0 ==> !Blocked(t, kernel, ps[i]))
    && Suffices(Supply(free, TABLE_CAPACITY, FRAME_CAPACITY), 2 + Needed(t, kernel, StackPages(slot) + ps), 64 + |ps|)
  }

  ghost predicate HasDirectory(t: Tables, kernel: nat) {
    kernel != 0 && kernel in t && |t[kernel].entries| == ENTRIES && t[kernel].entries[0].flags.present
  }

  /** There is a window for the pid, and a space with these pages can be made in it. */
  ghost predicate CanHost(t: Tables, kernel: nat, used: seq<bool>, pid: nat, ps: seq<Page>, free: nat) {
    exists slot :: NextSlot(used, pid, slot) && CanMake(t, kernel, slot, ps, free)
  }

  /** A space made in this window: what was spent on it and what its root reaches. */
  ghost predicate Equipped(w: World, w': World, h: nat, slot: nat, free: nat, s': Supply) {
    && h in w'.spaces && var t, root := w.tables, w'.spaces[h].root;
       && Spends(Supply(free, TABLE_CAPACITY, FRAME_CAPACITY), s', 2 + Needed(t, w.kernel, StackPages(slot)), 64)
       && Covers(t, w.kernel, w'.tables, root, StackPages(slot)) && NewBlocks(t, w.kernel, w'.tables, root)
  }

  /** A space with a root of its own, in its window, with a zeroed stack; `open` says that the stack is the user's as well. */
  ghost predicate Furnished(w: World, w': World, memory: map<nat, Block>, h: nat, slot: nat, free: nat, s': Supply, open: bool) {
    && Equipped(w, w', h, slot, free, s') && var n := w'.spaces[h];
       && n.root != 0 && n.root != w.kernel && n.base == Base(slot)
       && Laid(w'.tables, memory, n.root, n.frames, 0, StackPage(slot), StackPage(slot) + 64, 0, None, 0, false)
       && (open ==> Laid(w'.tables, memory, n.root, n.frames, 0, StackPage(slot), StackPage(slot) + 64, 0, None, 0, true))
  }

  /** A laid out stack, in terms of its space alone. */
  lemma {:induction false} StackLaid(w: World, w': World, memory: map<nat, Block>, h: nat, slot: nat, j: Job)
    requires LaidOut(w, w', memory, j, StackPage(slot) + 64) && j == Job(h, StackPage(slot), 0, None, 0, j.private, j.user)
    requires w.spaces[h].frames == [] && w'.spaces[h].root == w.spaces[h].root
    ensures var n := w'.spaces[h];
            && Laid(w'.tables, memory, n.root, n.frames, 0, StackPage(slot), StackPage(slot) + 64, 0, None, 0, false)
            && (j.user && j.private && Isolation(w) && UserSpace(w, h) ==>
                  Laid(w'.tables, memory, n.root, n.frames, 0, StackPage(slot), StackPage(slot) + 64, 0, None, 0, true))
  {
  }

  /** Only a stack: sixty-four frames for it, two tables for the root, and the tables the kernel's walk lacks. */
  lemma {:induction false} StackNeeds(t: Tables, kernel: nat, slot: nat, free: nat)
    requires slot < SLOTS
    ensures Needed(t, kernel, StackPages(slot)) == Missing(t, kernel, 4, PageOf(StackPage(slot)))
    ensures CanMake(t, kernel, slot, [], free) <==> HasDirectory(t, kernel) && 66 + Missing(t, kernel, 4, PageOf(StackPage(slot))) <= free
  {
    StackTogether(slot);
    NeededTogether(t, kernel, StackPages(slot));
    assert StackPages(slot) + [] == StackPages(slot);
  }

  /** On the copied root the stack takes what it would take on the kernel's, and nothing blocks it. */
  lemma {:induction false} StackCan(w: World, w1: World, h: nat, slot: nat, r: nat, d: nat)
    requires Structured(w) && NewRoot(w, w1, h, r, d) && slot < SLOTS
    ensures Needed(w1.tables, r, StackPages(slot)) == Needed(w.tables, w.kernel, StackPages(slot)) && NoneBlocked(w1.tables, r, StackPages(slot))
  {
    var ps := StackPages(slot);
    CloneCovers(w, w1, h, r, d);
    NeededJoin(w.tables, w.kernel, w1.tables, r, [], ps);
    assert [] + ps == ps;
    StackTogether(slot);
    forall i | 0 <= i < |ps| ensures !Blocked(w1.tables, r, ps[i]) {
      assert ValidPage(ps[i]);
    }
  }

  /** What the root of the new space reaches then. */
  lemma {:induction false} StackReaches(w: World, w1: World, t': Tables, h: nat, slot: nat, r: nat, d: nat)
    requires Structured(w) && NewRoot(w, w1, h, r, d) && slot < SLOTS
    requires Covers(w1.tables, r, t', r, StackPages(slot)) && SameBlocks(w1.tables, r, t', r)
    ensures Covers(w.tables, w.kernel, t', r, StackPages(slot)) && NewBlocks(w.tables, w.kernel, t', r)
  {
    CloneCovers(w, w1, h, r, d);
    CoversJoin(w.tables, w.kernel, w1.tables, r, t', r, [], StackPages(slot));
    assert [] + StackPages(slot) == StackPages(slot);
    forall q | ValidPage(q) ensures Blocked(t', r, q) <==> q.i4 != 0 && Blocked(w.tables, w.kernel, q) {
      assert Blocked(t', r, q) <==> Blocked(w1.tables, r, q);
    }
  }

  /** Root and directory copied, and then the stack. */
  lemma {:induction false} StackProvided(w: World, w1: World, w': World, h: nat, slot: nat, r: nat, d: nat, s: Supply, s1: Supply, s': Supply, ok: bool)
    requires Structured(w) && NewRoot(w, w1, h, r, d) && slot < SLOTS && HasDirectory(w.tables, w.kernel)
    requires s.tables == TABLE_CAPACITY && s.frames == FRAME_CAPACITY && Spends(s, s1, 2, 0)
    requires Provided(w1, w', h, StackPages(slot), s1, s', ok)
    ensures ok <==> CanMake(w.tables, w.kernel, slot, [], s.free)
    ensures ok ==> Equipped(w, w', h, slot, s.free, s')
  {
    assert ProvidedIs(w1, w', h, StackPages(slot), s1, s', ok, true);
    StackCan(w, w1, h, slot, r, d);
    assert StackPages(slot) + [] == StackPages(slot);
    if ok {
      StackReaches(w, w1, w'.tables, h, slot, r, d);
    }
  }

  /** The stack of a new space laid out. */
  lemma {:induction false} StackFurnished(w: World, w1: World, w': World, memory: map<nat, Block>, h: nat, slot: nat, r: nat, d: nat, j: Job, s: Supply, s1: Supply, s': Supply, open: bool, ok: bool)
    requires Structured(w) && NewRoot(w, w1, h, r, d) && slot < SLOTS && HasDirectory(w.tables, w.kernel)
    requires open ==> j.user && j.private && Isolation(w1) && UserSpace(w1, h)
    requires w1.spaces[h].frames == [] && w1.spaces[h].base == Base(slot)
    requires s.tables == TABLE_CAPACITY && s.frames == FRAME_CAPACITY && Spends(s, s1, 2, 0)
    requires j == Job(h, StackPage(slot), 0, None, 0, j.private, j.user) && Mapping(w1, w', memory, j, StackPage(slot) + 64, s1, s', ok)
    ensures ok <==> CanMake(w.tables, w.kernel, slot, [], s.free)
    ensures ok ==> Furnished(w, w', memory, h, slot, s.free, s', open)
  {
    MappingGives(w1, w', memory, j, StackPage(slot) + 64, s1, s', ok);
    StackProvided(w, w1, w', h, slot, r, d, s, s1, s', ok);
    if ok {
      StackKept(w1, w', h, StackPages(slot), s1, s');
      StackLaid(w1, w', memory, h, slot, j);
    }
  }

  lemma {:induction false} StackKept(w: World, w': World, h: nat, ps: seq<Page>, s: Supply, s': Supply)
    requires Provided(w, w', h, ps, s, s', true)
    ensures h in w.spaces && h in w'.spaces && w'.spaces[h].root == w.spaces[h].root
  {
    assert ProvidedIs(w, w', h, ps, s, s', true, true);
  }

  /** The stack mapped in a space that was just given its root. */
  lemma {:induction false} StackMade(w: World, w1: World, w2: World, w': World, memory: map<nat, Block>, h: nat, slot: nat, d: nat, j: Job,
                                     s: Supply, s2: Supply, s': Supply, private: bool, user: bool, ok: bool)
    requires h in w2.spaces && slot < SLOTS && w2.spaces[h].frames == [] && w2.spaces[h].base == Base(slot)
    requires Structured(w1) && NewRoot(w1, w2, h, w2.spaces[h].root, d) && HasDirectory(w1.tables, w1.kernel)
    requires s.tables == TABLE_CAPACITY && s.frames == FRAME_CAPACITY && Spends(s, s2, 2, 0)
    requires Made(w, w2, h, true, user) && (private ==> WindowsPrivate(w)) && (user ==> j.user)
    requires j == Job(h, StackPage(slot), 0, None, 0, private && Isolation(w), j.user)
    requires Mapping(w2, w', memory, j, StackPage(slot) + 64, s2, s', ok)
    ensures Made(w, w', h, private, user)
    ensures ok <==> CanMake(w1.tables, w1.kernel, slot, [], s.free)
    ensures ok ==> Furnished(w1, w', memory, h, slot, s.free, s', private && user && Isolation(w))
  {
    MappingGives(w2, w', memory, j, StackPage(slot) + 64, s2, s', ok);
    StackFurnished(w1, w2, w', memory, h, slot, w2.spaces[h].root, d, j, s, s2, s', private && user && Isolation(w), ok);
    MadeMore(w, w2, w', h, private, j.private, user);
  }

  /** A space, and then the pages of a program. */
  lemma {:induction false} ImageProvided(w: World, w1: World, w': World, h: nat, slot: nat, ps: seq<Page>, free: nat, s1: Supply, s': Supply, ok: bool)
    requires Equipped(w, w1, h, slot, free, s1) && CanMake(w.tables, w.kernel, slot, [], free) && AllValid(ps)
    requires w1.spaces[h].root != 0 && Provided(w1, w', h, ps, s1, s', ok)
    ensures ok <==> CanMake(w.tables, w.kernel, slot, ps, free)
  {
    assert ProvidedIs(w1, w', h, ps, s1, s', ok, true);
    var t, k, root := w.tables, w.kernel, w1.spaces[h].root;
    NeededJoin(t, k, w1.tables, root, StackPages(slot), ps);
    assert NoneBlocked(w1.tables, root, ps) <==> forall i :: 0 <= i < |ps| && ps[i].i4 != 0 ==> !Blocked(t, k, ps[i]) by {
      forall i | 0 <= i < |ps| ensures Blocked(w1.tables, root, ps[i]) <==> ps[i].i4 != 0 && Blocked(t, k, ps[i]) {
        assert ValidPage(ps[i]);
      }
    }
  }

  /** A program that no space can be made for cannot be loaded either. */
  lemma {:induction false} CannotMakeMore(t: Tables, kernel: nat, slot: nat, ps: seq<Page>, free: nat)
    requires !CanMake(t, kernel, slot, [], free)
    ensures !CanMake(t, kernel, slot, ps, free)
  {
    assert StackPages(slot) + [] == StackPages(slot);
    NeededPrefix(t, kernel, StackPages(slot), ps);
  }

  /** The one window in which a space could be made. */
  lemma {:induction false} SlotChosen(w: World, used: seq<bool>, pid: nat, free: nat) returns (slot: nat)
    requires CanHost(w.tables, w.kernel, used, pid, [], free)
    ensures NextSlot(used, pid, slot) && CanMake(w.tables, w.kernel, slot, [], free)
    ensures forall k :: NextSlot(used, pid, k) ==> k == slot
  {
    slot :| NextSlot(used, pid, slot) && CanMake(w.tables, w.kernel, slot, [], free);
    forall k | NextSlot(used, pid, k) ensures k == slot {
      NextSlotUnique(used, pid, k, slot);
    }
  }

  // ---------------------------------------------------------------------------------------
  // After booting
  // ---------------------------------------------------------------------------------------

  /** A small program fits where two hundred frames are free and its pages lie below the first root entry. */
  lemma {:induction false} SmallFits(t: Tables, kernel: nat, slot: nat, ps: seq<Page>, free: nat)
    requires slot < SLOTS && HasDirectory(t, kernel) && |ps| <= 16 && free >= 200 && forall i :: 0 <= i < |ps| ==> ps[i].i4 == 0
    ensures CanMake(t, kernel, slot, ps, free)
  {
    StackNeeds(t, kernel, slot, free);
    NeededAtMost(t, kernel, StackPages(slot), ps);
  }

  /** The boot tables, with no space yet. */
  function BootWorld(): World { ZeroWorld().(spaces := map[]) }

  lemma {:induction false} BootHealthy()
    ensures Healthy(BootWorld()) && HasDirectory(BootWorld().tables, 1)
    ensures forall f :: f in BootWorld().tables ==> f in BootWorld().reserved
  {
    var w := BootWorld();
    ZeroStructured();
    forall f ensures TableHeld(w, f) && RootGood(w, f) && OwnRoot(w, f) {
      assert TableHeld(ZeroWorld(), f);
    }
    forall f, i | f in w.tables && 0 <= i < ENTRIES ensures GoodEdge(w, f, i) {
    }
    WindowsPrivateIff(w);
  }

  /** The pages of a program of up to 64 KiB at the start of window 7. */
  lemma {:induction false} ProgramPages(size: nat)
    requires 0 < size <= 0x1_0000
    ensures var first, last := Base(7) / PAGE, LastPage(Base(7), size);
            && first < last <= first + 16 && Base(0) / PAGE <= first && last <= Base(SLOTS) / PAGE && first * PAGE == Base(7)
            && last * PAGE >= Base(7) + size
            && forall v :: first <= v < last ==> PageOf(v).i4 == 0
  {
    var first, last := Base(7) / PAGE, LastPage(Base(7), size);
    assert last == first + (size + PAGE - 1) / PAGE;
  }
}
