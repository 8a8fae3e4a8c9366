/** All spaces together: what mapping, releasing and making a space keep (k64_vmm.c). */
module Worlds {
  import opened Blocks
  import opened PageTables
  import opened AddressSpaces
  import opened TableNeeds

  // ---------------------------------------------------------------------------------------
  // The whole picture
  // ---------------------------------------------------------------------------------------

  /** A root of a space: the kernel's, or its own, whose first entry leads to a directory. */
  ghost predicate RootGood(w: World, h: nat) {
    h in w.spaces && w.spaces[h].root != 0 ==>
      var t, r := w.tables, w.spaces[h].root;
      && Unaliased(t, r)
      && (r == w.kernel || (Owner(w.place, r) == Some(h) && |t[r].entries| == ENTRIES
            && Points(t[r].entries[0], 4) && !t[r].entries[0].flags.large))
  }

  ghost predicate TableHeld(w: World, f: nat) {
    f in w.tables ==> f in w.reserved || (f in w.place && w.place[f].table)
  }

  ghost predicate Structured(w: World) {
    && Typed(w.tables)
    && (forall f :: TableHeld(w, f))
    && (w.kernel != 0 ==> Unaliased(w.tables, w.kernel) && Owner(w.place, w.kernel) == None)
    && (forall h :: RootGood(w, h))
  }

  /** The kernel's root and first directory are as they were. */
  ghost predicate KernelSame(w: World, w': World) {
    && KernelReady(w) && KernelReady(w') && w'.kernel == w.kernel && w'.tables[w.kernel] == w.tables[w.kernel]
    && KernelPdpt(w) in w.tables && KernelPdpt(w) in w'.tables && w'.tables[KernelPdpt(w)] == w.tables[KernelPdpt(w)]
  }

  /** Pages that were free for the space to map alone still are. */
  ghost predicate FreeKept(w: World, w': World, h: nat) { forall q :: FreePage(w, h, q) ==> FreePage(w', h, q) }

  ghost predicate UserSpace(w: World, h: nat) { UserClean(w.tables, w.place, h) }

  /** No root of another owner sees a difference. */
  ghost predicate OthersSame(w: World, w': World, h: nat) {
    forall x, q, user :: x in w.tables && Owner(w.place, x) != Some(h) ==>
      Walk(w'.tables, x, w.tables[x].level, q, user) == Walk(w.tables, x, w.tables[x].level, q, user)
  }

  /** Space h took some more frames; nothing else about any space changed. */
  ghost predicate OnlyLists(spaces: Spaces, spaces': Spaces, h: nat) {
    && h in spaces && h in spaces' && spaces' == spaces[h := spaces'[h]]
    && spaces'[h] == spaces[h].(tables := spaces'[h].tables, frames := spaces'[h].frames)
  }

  ghost predicate MoreHeld(w: World, w': World, h: nat) {
    && OnlyLists(w.spaces, w'.spaces, h) && w'.reserved == w.reserved && w'.kernel == w.kernel
    && forall f :: HeldKept(w, w', h, f)
  }

  /** A held frame stays where it is listed; one that was not held is the space's now, and was no table. */
  ghost predicate HeldKept(w: World, w': World, h: nat, f: nat) {
    && (f in w.place ==> f in w'.place && w'.place[f] == w.place[f])
    && (f in w'.place && f !in w.place ==> f !in w.tables && w'.place[f].space == h)
  }

  lemma {:induction false} HeldTwice(w: World, w': World, w'': World, h: nat)
    requires MoreHeld(w, w', h) && MoreHeld(w', w'', h) && (forall f :: f in w.tables ==> f in w'.tables)
    ensures MoreHeld(w, w'', h)
  {
    forall f ensures HeldKept(w, w'', h, f) {
      assert HeldKept(w, w', h, f) && HeldKept(w', w'', h, f);
    }
  }

  lemma {:induction false} TablesKeepOwners(w: World, w': World, h: nat)
    requires MoreHeld(w, w', h)
    ensures forall f :: f in w.tables ==> Owner(w'.place, f) == Owner(w.place, f)
  {
    forall f | f in w.tables ensures Owner(w'.place, f) == Owner(w.place, f) {
      assert HeldKept(w, w', h, f);
    }
  }

  /** Space h took frames and has not used them yet. */
  ghost predicate MoreListed(w: World, w': World, h: nat) {
    && OnlyLists(w.spaces, w'.spaces, h) && w'.reserved == w.reserved && w'.kernel == w.kernel && w'.tables == w.tables
    && w'.spaces[h].frames == w.spaces[h].frames
    && (forall f :: f in w.place ==> f in w'.place && w'.place[f] == w.place[f])
    && (forall f :: f in w'.place && f !in w.place ==> f !in w.reserved && w'.place[f].space == h && f != 0)
  }

  /** Steps towards the last table: no translation changes, and what the space's own tables keep. */
  ghost predicate Stepped(w: World, w': World, h: nat, own: bool, user: bool) {
    && Structured(w') && Grown(w.tables, w'.tables) && MoreHeld(w, w', h)
    && (own && Isolation(w) ==> Isolation(w') && KernelSame(w, w') && FreeKept(w, w', h))
    && (user && UserSpace(w, h) ==> UserSpace(w', h))
    && (user ==> forall x, p :: x in w.tables ==>
          UserReady(w'.tables, x, w.tables[x].level, p) == UserReady(w.tables, x, w.tables[x].level, p))
  }

  /** Tables above this level stay as they are. */
  ghost predicate KeptAbove(t: Tables, t': Tables, level: nat) {
    forall f :: KeptTable(t, t', level, f)
  }

  ghost predicate KeptTable(t: Tables, t': Tables, level: nat, f: nat) {
    f in t && t[f].level > level ==> f in t' && t'[f] == t[f]
  }

  lemma {:induction false} SteppedNot(w: World, h: nat, user: bool)
    requires Structured(w) && h in w.spaces
    ensures Stepped(w, w, h, true, user) && forall level :: KeptAbove(w.tables, w.tables, level)
  {
    if Isolation(w) {
      KernelDirectory(w);
    }
  }

  lemma {:induction false} SteppedTwice(w: World, w': World, w'': World, h: nat, a: bool, b: bool, user: bool)
    requires Stepped(w, w', h, a, user) && Stepped(w', w'', h, b, user)
    ensures Stepped(w, w'', h, a && b, user)
  {
    GrownTwice(w.tables, w'.tables, w''.tables);
    HeldTwice(w, w', w'', h);
  }

  /** w with frame n taken as the table below entry i of table f. */
  ghost predicate NewTable(w: World, w': World, h: nat, f: nat, i: nat, n: nat, flags: Flags) {
    && Extends(w.tables, w'.tables, f, i, n, flags) && n != 0
    && n !in w.place && n !in w.reserved && n in w'.place && w'.place[n].table && w'.place[n].space == h
    && w'.place == w.place[n := w'.place[n]]
    && OnlyLists(w.spaces, w'.spaces, h) && w'.reserved == w.reserved && w'.kernel == w.kernel
  }

  lemma {:induction false} NotATable(w: World, n: nat)
    requires Structured(w) && n !in w.place && n !in w.reserved
    ensures n !in w.tables
  {
    assert TableHeld(w, n);
  }

  lemma {:induction false} NewTableStructured(w: World, w': World, h: nat, f: nat, i: nat, n: nat, flags: Flags)
    requires Structured(w) && NewTable(w, w', h, f, i, n, flags) && Grown(w.tables, w'.tables)
    ensures Structured(w')
  {
    assert forall x :: x in w.tables ==> Owner(w'.place, x) == Owner(w.place, x);
    forall x ensures TableHeld(w', x) {
      assert TableHeld(w, x);
    }
    forall g ensures RootGood(w', g) {
      assert RootGood(w, g);
      if g in w.spaces && w.spaces[g].root != 0 && w.spaces[g].root != w.kernel {
        var r := w.spaces[g].root;
        assert w'.tables[r].entries[0] == w.tables[r].entries[0];
      }
    }
  }

  lemma {:induction false} ExtendKeepsUserClean(t: Tables, t': Tables, place: Places, place': Places, h: nat, f: nat, i: nat, n: nat, flags: Flags)
    requires Typed(t) && UserClean(t, place, h) && Extends(t, t', f, i, n, flags) && flags.user
    requires n !in place && n in place' && place' == place[n := place'[n]]
    ensures UserClean(t', place', h)
  {
    forall x, k | x in t' && 0 <= k < |t'[x].entries| && Owner(place', x) == Some(h) &&
                  Points(t'[x].entries[k], t'[x].level) && Owner(place', t'[x].entries[k].frame) == Some(h)
      ensures t'[x].entries[k].flags.user
    {
      if x == n {
        NewEntries(t, t', f, i, n, flags, k);
      } else if x != f || k != i {
        assert t'[x].entries[k] == t[x].entries[k];
        assert GoodEntry(t, t[x].entries[k], t[x].level);
      }
    }
  }

  /** A new table under a table of its own space. */
  lemma {:induction false} NewTableIsolated(w: World, w': World, h: nat, f: nat, i: nat, n: nat, flags: Flags)
    requires Structured(w) && Isolation(w) && NewTable(w, w', h, f, i, n, flags) && Owner(w.place, f) == Some(h)
    ensures Isolation(w') && KernelSame(w, w')
  {
    var t, t' := w.tables, w'.tables;
    KernelDirectory(w);
    ExtendKeepsTyped(t, t', f, i, n, flags);
    forall x, k | x in t' && 0 <= k < ENTRIES ensures GoodEdge(w', x, k) {
      if x == n {
        NewEntries(t, t', f, i, n, flags, k);
      } else if x == f && k == i {
        assert t'[f].entries[i].frame == n;
      } else {
        assert t'[x].entries[k] == t[x].entries[k];
        assert GoodEdge(w, x, k) && GoodEntry(t, t[x].entries[k], t[x].level);
        if FirstDirectory(w, x) {
          NewTableKeepsFirst(w, w', h, f, i, n, flags, x);
        }
      }
    }
  }

  lemma {:induction false} NewTableKeepsFirst(w: World, w': World, h: nat, f: nat, i: nat, n: nat, flags: Flags, x: nat)
    requires Structured(w) && NewTable(w, w', h, f, i, n, flags) && FirstDirectory(w, x) && x in w.tables
    requires Owner(w.place, f) == Some(h) && Owner(w.place, w.kernel) == None
    ensures FirstDirectory(w', x)
  {
    var g := w.place[x].space;
    assert RootGood(w, g);
    var r := w.spaces[g].root;
    assert w'.tables[r].entries[0] == w.tables[r].entries[0];
  }

  /** Free pages stay free when the space gets a table under one of its own. */
  lemma {:induction false} NewTableKeepsFree(w: World, w': World, h: nat, f: nat, i: nat, n: nat, flags: Flags, q: Page)
    requires Structured(w) && NewTable(w, w', h, f, i, n, flags) && FreePage(w, h, q)
    ensures FreePage(w', h, q)
  {
    var root := w.spaces[h].root;
    RootOwned(w, h);
    forall l | 1 <= l <= 4 && TableOn(w'.tables, root, 4, q, l).Some?
      ensures Owner(w'.place, TableOn(w'.tables, root, 4, q, l).value) == Some(h)
    {
      ExtendTableOn(w.tables, w'.tables, f, i, n, flags, root, q, l);
    }
  }

  lemma {:induction false} SteppedNew(w: World, w': World, h: nat, f: nat, i: nat, n: nat, flags: Flags)
    requires Structured(w) && NewTable(w, w', h, f, i, n, flags)
    ensures Stepped(w, w', h, Owner(w.place, f) == Some(h), flags.user)
    ensures KeptAbove(w.tables, w'.tables, w.tables[f].level)
    ensures |w'.tables[f].entries| > i && Points(w'.tables[f].entries[i], w.tables[f].level) && w'.tables[f].entries[i].frame == n
  {
    var t, t' := w.tables, w'.tables;
    ExtendGrows(t, t', f, i, n, flags);
    NewTableStructured(w, w', h, f, i, n, flags);
    if Isolation(w) && Owner(w.place, f) == Some(h) {
      NewTableIsolated(w, w', h, f, i, n, flags);
      forall q | FreePage(w, h, q) ensures FreePage(w', h, q) {
        NewTableKeepsFree(w, w', h, f, i, n, flags, q);
      }
    }
    if flags.user {
      if UserSpace(w, h) {
        ExtendKeepsUserClean(t, t', w.place, w'.place, h, f, i, n, flags);
      }
      forall x, p | x in t ensures UserReady(t', x, t[x].level, p) == UserReady(t, x, t[x].level, p) {
        ExtendUserReady(t, t', f, i, n, flags, x, p);
      }
    }
  }

  lemma {:induction false} LeafMaps(w: World, t: Tables, root: nat, p: Page, frame: nat, flags: Flags, pt: nat)
    requires Typed(t) && Unaliased(t, root) && SameWalks(w.tables, t) && root in w.tables && w.tables[root].level == 4
    requires ValidPage(p) && pt in t && t[pt].level == 1 && TableOn(t, root, 4, p, 1) == Some(pt)
    requires flags.user ==> UserReady(t, root, 4, p) == UserReady(w.tables, root, 4, p)
    ensures Maps(w.tables, LeafSet(t, pt, p.i1, Entry(frame, flags.(present := true))), root, p, frame, flags)
  {
    var e := Entry(frame, flags.(present := true));
    LeafWalk(t, pt, p.i1, e, root, p, false);
    LeafWalk(t, pt, p.i1, e, root, p, true);
    LeafKeepsPaths(t, pt, p.i1, e, root, p, 1);
    forall q, user | ValidPage(q) && q != p
      ensures Walk(LeafSet(t, pt, p.i1, e), root, 4, q, user) == Walk(w.tables, root, 4, q, user)
    {
      LeafWalk(t, pt, p.i1, e, root, q, user);
    }
  }

  lemma {:induction false} LeafKeepsStructured(w: World, pt: nat, i: nat, e: Entry)
    requires Structured(w) && pt in w.tables && w.tables[pt].level == 1 && i < ENTRIES
    ensures Structured(w.(tables := LeafSet(w.tables, pt, i, e)))
  {
    var w' := w.(tables := LeafSet(w.tables, pt, i, e));
    LeafKeepsTyped(w.tables, pt, i, e);
    forall root | Unaliased(w.tables, root) ensures Unaliased(w'.tables, root) {
      LeafKeepsUnaliased(w.tables, pt, i, e, root);
    }
    forall x ensures TableHeld(w', x) {
      assert TableHeld(w, x);
    }
    forall g ensures RootGood(w', g) {
      assert RootGood(w, g);
    }
  }

  lemma {:induction false} LeafKeepsUnaliased(t: Tables, pt: nat, i: nat, e: Entry, root: nat)
    requires Typed(t) && Unaliased(t, root) && pt in t && t[pt].level == 1 && i < ENTRIES
    ensures Unaliased(LeafSet(t, pt, i, e), root)
  {
    var t' := LeafSet(t, pt, i, e);
    forall p, q, l | ValidPage(p) && ValidPage(q) && 1 <= l <= 3 && TableOn(t', root, 4, p, l).Some? &&
                     TableOn(t', root, 4, p, l) == TableOn(t', root, 4, q, l)
      ensures SameAbove(p, q, l)
    {
      LeafKeepsPaths(t, pt, i, e, root, p, l);
      LeafKeepsPaths(t, pt, i, e, root, q, l);
    }
  }

  lemma LeafKeepsUserClean(t: Tables, place: Places, h: nat, pt: nat, i: nat, e: Entry)
    requires UserClean(t, place, h) && pt in t && t[pt].level == 1 && i < |t[pt].entries|
    ensures UserClean(LeafSet(t, pt, i, e), place, h)
  {
  }

  lemma {:induction false} LeafIsolation(w: World, w1: World, w': World, h: nat, pt: nat, i: nat, e: Entry)
    requires Isolation(w1) && Grown(w.tables, w1.tables) && MoreHeld(w, w1, h)
    requires pt in w1.tables && w1.tables[pt].level == 1 && i < ENTRIES && Owner(w1.place, pt) == Some(h)
    requires w' == w1.(tables := LeafSet(w1.tables, pt, i, e))
    ensures Isolation(w') && KernelSame(w1, w') && OthersSame(w, w', h)
  {
    KernelDirectory(w1);
    LeafKeepsIsolated(w1, pt, i, e);
    TablesKeepOwners(w, w1, h);
    forall x, q, user | x in w.tables && Owner(w.place, x) != Some(h)
      ensures Walk(w'.tables, x, w.tables[x].level, q, user) == Walk(w.tables, x, w.tables[x].level, q, user)
    {
      assert Owner(w1.place, x) == Owner(w.place, x);
      LeafElsewhere(w1, pt, i, e, x, q, user);
    }
  }

  lemma {:induction false} LeafKeepsFree(w: World, pt: nat, i: nat, e: Entry, h: nat, q: Page)
    requires Structured(w) && pt in w.tables && w.tables[pt].level == 1 && i < ENTRIES && FreePage(w, h, q)
    ensures FreePage(w.(tables := LeafSet(w.tables, pt, i, e)), h, q)
  {
    var root, t' := w.spaces[h].root, LeafSet(w.tables, pt, i, e);
    RootOwned(w, h);
    forall l | 1 <= l <= 4 && TableOn(t', root, 4, q, l).Some? ensures Owner(w.place, TableOn(t', root, 4, q, l).value) == Some(h) {
      LeafKeepsPaths(w.tables, pt, i, e, root, q, l);
    }
  }

  lemma {:induction false} RootOwned(w: World, h: nat)
    requires Structured(w) && h in w.spaces && w.spaces[h].root != 0
    ensures w.spaces[h].root in w.tables && w.tables[w.spaces[h].root].level == 4 && Unaliased(w.tables, w.spaces[h].root)
    ensures w.spaces[h].root != w.kernel ==> Owner(w.place, w.spaces[h].root) == Some(h)
  {
    assert RootGood(w, h);
  }

  /** One step down the walk of a page that is free below table f. */
  lemma {:induction false} FreeNext(w: World, w': World, h: nat, f: nat, level: nat, p: Page, n: nat, flags: Flags)
    requires Structured(w) && ValidPage(p) && f in w.tables && w.tables[f].level == level >= 2 && FreeBelow(w, f, level, p, h)
    requires w' == w || NewTable(w, w', h, f, Index(p, level), n, flags)
    requires |w'.tables[f].entries| == ENTRIES && Points(w'.tables[f].entries[Index(p, level)], level)
    ensures FreeBelow(w', w'.tables[f].entries[Index(p, level)].frame, level - 1, p, h)
  {
    if w' == w {
      FreeStep(w, f, p, h);
    } else {
      var below := level - 1;
      forall l | 1 <= l <= below && TableOn(w'.tables, n, below, p, l).Some?
        ensures Owner(w'.place, TableOn(w'.tables, n, below, p, l).value) == Some(h)
      {
        NewEntries(w.tables, w'.tables, f, Index(p, level), n, flags, Index(p, below));
      }
    }
  }

  // ---------------------------------------------------------------------------------------
  // Walks that come together
  // ---------------------------------------------------------------------------------------

  /** At level l the walk of p from root x goes through the same table as the walk from table f. */
  ghost predicate Joined(t: Tables, x: nat, f: nat, level: nat, p: Page, l: nat) {
    && x in t && t[x].level == 4 && 1 <= l <= level
    && TableOn(t, f, level, p, l).Some? && TableOn(t, x, 4, p, l) == TableOn(t, f, level, p, l)
  }

  /** Walks that come together end in the same last table, also once it has been made. */
  lemma {:induction false} JoinedReach(t: Tables, t': Tables, x: nat, root: nat, p: Page, l: nat, pt: nat)
    requires Grown(t, t') && ValidPage(p) && root in t && t[root].level == 4 && Joined(t, x, root, 4, p, l)
    requires TableOn(t', root, 4, p, 1) == Some(pt)
    ensures x in t' && TableOn(t', x, 4, p, 1) == Some(pt)
  {
    TableOnFrom(t', root, 4, p, l, 1);
    TableOnFrom(t', x, 4, p, l, 1);
  }

  // ---------------------------------------------------------------------------------------
  // What any amount of mapping keeps
  // ---------------------------------------------------------------------------------------

  /** Space h was mapped into; `private` says that only pages free for it were. */
  ghost predicate Progress(w: World, w': World, h: nat, private: bool, user: bool) {
    && Structured(w') && MoreHeld(w, w', h)
    && (forall f :: f in w.tables ==> f in w'.tables && w'.tables[f].level == w.tables[f].level)
    && (private && Isolation(w) ==> Separated(w, w', h))
    && (user && UserSpace(w, h) ==> UserSpace(w', h))
  }

  /** The space's changes are its own: no one else translates differently. */
  ghost predicate Separated(w: World, w': World, h: nat) {
    Isolation(w') && KernelSame(w, w') && FreeKept(w, w', h) && OthersSame(w, w', h)
  }

  lemma SteppedProgress(w: World, w': World, h: nat, private: bool, user: bool)
    requires Stepped(w, w', h, private, user)
    ensures Progress(w, w', h, private, user)
  {
  }

  /** Space h holds more frames, and no table changed. */
  lemma {:induction false} SameTablesSeparated(w: World, w': World, h: nat)
    requires Isolation(w) && w'.tables == w.tables && w'.kernel == w.kernel && OnlyLists(w.spaces, w'.spaces, h)
    requires forall f :: f in w.place ==> f in w'.place && w'.place[f] == w.place[f]
    requires forall f :: f in w'.place && f !in w.place ==> f !in w.tables
    ensures Separated(w, w', h)
  {
    KernelDirectory(w);
    forall f | f in w.tables ensures Owner(w'.place, f) == Owner(w.place, f) && (FirstDirectory(w, f) ==> FirstDirectory(w', f)) {
    }
    forall f, i | f in w'.tables && 0 <= i < ENTRIES ensures GoodEdge(w', f, i) {
      assert GoodEdge(w, f, i) && GoodEntry(w.tables, w.tables[f].entries[i], w.tables[f].level);
    }
    forall q | FreePage(w, h, q) ensures FreePage(w', h, q) {
      SameTablesFree(w, w', h, q);
    }
  }

  lemma {:induction false} SameTablesFree(w: World, w': World, h: nat, q: Page)
    requires FreePage(w, h, q) && w'.tables == w.tables && OnlyLists(w.spaces, w'.spaces, h)
    requires forall f :: f in w.place ==> f in w'.place && w'.place[f] == w.place[f]
    ensures FreePage(w', h, q)
  {
    var root := w.spaces[h].root;
    forall l | 1 <= l <= 4 && TableOn(w.tables, root, 4, q, l).Some?
      ensures Owner(w'.place, TableOn(w.tables, root, 4, q, l).value) == Some(h)
    {
      assert Owner(w.place, TableOn(w.tables, root, 4, q, l).value) == Some(h);
    }
  }

  /** The last entry written, after the steps that made its table. */
  lemma {:induction false} LeafStep(w: World, w1: World, w': World, h: nat, root: nat, p: Page, frame: nat, flags: Flags, own: bool, pt: nat)
    requires Structured(w) && Stepped(w, w1, h, own, flags.user) && Unaliased(w.tables, root) && ValidPage(p)
    requires pt in w1.tables && w1.tables[pt].level == 1 && TableOn(w1.tables, root, 4, p, 1) == Some(pt)
    requires own && Isolation(w) ==> Owner(w1.place, pt) == Some(h)
    requires w' == w1.(tables := LeafSet(w1.tables, pt, p.i1, Entry(frame, flags.(present := true))))
    ensures Maps(w.tables, w'.tables, root, p, frame, flags) && Progress(w, w', h, own, flags.user)
  {
    var e := Entry(frame, flags.(present := true));
    forall f ensures HeldKept(w, w', h, f) {
      assert HeldKept(w, w1, h, f);
    }
    LeafMaps(w, w1.tables, root, p, frame, flags, pt);
    LeafKeepsStructured(w1, pt, p.i1, e);
    if flags.user && UserSpace(w, h) {
      LeafKeepsUserClean(w1.tables, w1.place, h, pt, p.i1, e);
    }
    if own && Isolation(w) {
      LeafIsolation(w, w1, w', h, pt, p.i1, e);
      forall q | FreePage(w, h, q) ensures FreePage(w', h, q) {
        LeafKeepsFree(w1, pt, p.i1, e, h, q);
      }
    }
  }

  lemma {:induction false} ProgressTwice(w: World, w': World, w'': World, h: nat, private: bool, user: bool)
    requires Progress(w, w', h, private, user) && Progress(w', w'', h, private, user)
    ensures Progress(w, w'', h, private, user)
  {
    HeldTwice(w, w', w'', h);
    TablesKeepOwners(w, w', h);
    if private && Isolation(w) {
      forall x, q, u | x in w.tables && Owner(w.place, x) != Some(h)
        ensures Walk(w''.tables, x, w.tables[x].level, q, u) == Walk(w.tables, x, w.tables[x].level, q, u)
      {
        assert Owner(w'.place, x) == Owner(w.place, x);
      }
    }
  }

  // ---------------------------------------------------------------------------------------
  // Release
  // ---------------------------------------------------------------------------------------

  /** w without space h and everything it holds. */
  function Released(w: World, h: nat): World {
    w.(tables := Without(w.tables, w.place, h), spaces := w.spaces - {h},
       place := map f | f in w.place && w.place[f].space != h :: w.place[f])
  }

  lemma {:induction false} ReleasedRecorded(w: World, h: nat)
    requires Recorded(w.spaces, w.place) && h in w.spaces && AllInCapacity(w.spaces)
    ensures Recorded(Released(w, h).spaces, Released(w, h).place) && AllInCapacity(Released(w, h).spaces)
  {
    var w' := Released(w, h);
    forall g ensures InCapacity(w'.spaces, g) {
      assert InCapacity(w.spaces, g);
    }
    forall f: nat, at: Place | ListedAt(w'.spaces, f, at) ensures f in w'.place && w'.place[f] == at {
      assert ListedAt(w.spaces, f, at);
    }
    forall f ensures PlacedWell(w'.spaces, w'.place, f) {
      assert PlacedWell(w.spaces, w.place, f);
    }
  }

  /** The frames of a space are the ones in its two lists, each once. */
  lemma {:induction false} HeldIsListed(w: World, h: nat, f: nat)
    requires Recorded(w.spaces, w.place) && h in w.spaces
    ensures Owner(w.place, f) == Some(h) <==> f in w.spaces[h].tables || f in w.spaces[h].frames
    ensures !(f in w.spaces[h].tables && f in w.spaces[h].frames)
  {
    var s := w.spaces[h];
    assert PlacedWell(w.spaces, w.place, f);
    if f in s.tables {
      var k :| 0 <= k < |s.tables| && s.tables[k] == f;
      assert ListedAt(w.spaces, f, Place(h, true, k));
    }
    if f in s.frames {
      var k :| 0 <= k < |s.frames| && s.frames[k] == f;
      assert ListedAt(w.spaces, f, Place(h, false, k));
    }
  }

  /** A list that can be freed: frames in use, each named once. */
  ghost predicate Freeable(bits: seq<bool>, list: seq<nat>) {
    && (forall i :: 0 <= i < |list| ==> 0 < list[i] < |bits| && bits[list[i]])
    && (forall i, j :: 0 <= i < j < |list| ==> list[i] != list[j])
  }

  lemma {:induction false} ListFreeable(spaces: Spaces, place: Places, bits: seq<bool>, reserved: set<nat>, h: nat, table: bool)
    requires Recorded(spaces, place) && Accounted(bits, reserved, place) && h in spaces
    ensures Freeable(bits, Listed(spaces[h], table))
  {
    var list := Listed(spaces[h], table);
    forall i | 0 <= i < |list| ensures list[i] in place && place[list[i]] == Place(h, table, i) {
      assert ListedAt(spaces, list[i], Place(h, table, i));
    }
    forall i | 0 <= i < |list| ensures 0 < list[i] < |bits| && bits[list[i]] {
      assert AccountedFrame(bits, reserved, place, list[i]) && AccountedFrame(bits, reserved, place, 0);
    }
  }

  /** Releasing a space leaves every pointer leading to a table exactly when nobody else's table points into it. */
  lemma {:induction false} ReleaseKeepsTypedIff(w: World, h: nat)
    requires Typed(w.tables)
    ensures Typed(Released(w, h).tables) <==> !Hooked(w, h)
  {
    var t' := Released(w, h).tables;
    if Hooked(w, h) {
      var f, i :| f in w.tables && 0 <= i < |w.tables[f].entries| && Owner(w.place, f) != Some(h) &&
        Points(w.tables[f].entries[i], w.tables[f].level) && Owner(w.place, w.tables[f].entries[i].frame) == Some(h);
      assert t'[f].entries[i].frame !in t';
      assert !GoodEntry(t', t'[f].entries[i], t'[f].level);
    } else {
      forall f, i | f in t' && 0 <= i < ENTRIES ensures GoodEntry(t', t'[f].entries[i], t'[f].level) {
        assert GoodEntry(w.tables, w.tables[f].entries[i], w.tables[f].level);
      }
    }
  }

  lemma {:induction false} ReleasedIsolated(w: World, h: nat)
    requires Structured(w) && Isolation(w) && h in w.spaces
    ensures Isolation(Released(w, h)) && KernelSame(w, Released(w, h)) && !Hooked(w, h)
  {
    var w' := Released(w, h);
    KernelDirectory(w);
    forall f, i | f in w.tables && 0 <= i < |w.tables[f].entries| && Owner(w.place, f) != Some(h) && Points(w.tables[f].entries[i], w.tables[f].level)
      ensures Owner(w.place, w.tables[f].entries[i].frame) != Some(h)
    {
      assert GoodEdge(w, f, i);
    }
    ReleaseKeepsTypedIff(w, h);
    forall f, i | f in w'.tables && 0 <= i < ENTRIES ensures GoodEdge(w', f, i) {
      assert GoodEdge(w, f, i) && GoodEntry(w.tables, w.tables[f].entries[i], w.tables[f].level);
      if FirstDirectory(w, f) {
        ReleasedKeepsFirst(w, h, f);
      }
    }
  }

  lemma {:induction false} ReleasedKeepsFirst(w: World, h: nat, f: nat)
    requires Structured(w) && FirstDirectory(w, f) && Owner(w.place, f) != Some(h)
    requires Owner(w.place, w.kernel) == None
    ensures FirstDirectory(Released(w, h), f)
  {
    assert RootGood(w, w.place[f].space);
  }

  /** Releasing a space nobody points into: everyone else translates as before. */
  lemma {:induction false} ReleasedStructured(w: World, h: nat)
    requires Structured(w) && h in w.spaces && !Hooked(w, h)
    ensures Structured(Released(w, h)) && OthersSame(w, Released(w, h), h)
  {
    var w' := Released(w, h);
    ReleaseKeepsTypedIff(w, h);
    if w.kernel != 0 {
      WithoutKeepsUnaliased(w, h, w.kernel);
    }
    forall x ensures TableHeld(w', x) {
      assert TableHeld(w, x);
    }
    forall g ensures RootGood(w', g) {
      assert RootGood(w, g);
      if g in w'.spaces && w.spaces[g].root != 0 && w.spaces[g].root != w.kernel {
        WithoutKeepsUnaliased(w, h, w.spaces[g].root);
      }
    }
    forall x, q, user | x in w.tables && Owner(w.place, x) != Some(h)
      ensures Walk(w'.tables, x, w.tables[x].level, q, user) == Walk(w.tables, x, w.tables[x].level, q, user)
    {
      WithoutSpace(w, w'.tables, h, x, q, user);
    }
  }

  /** A release leaves the tables sound or leaves a pointer behind. */
  lemma {:induction false} ReleaseOrDangle(w: World, h: nat)
    requires Structured(w) && h in w.spaces
    ensures if Hooked(w, h) then !Typed(Released(w, h).tables) else Structured(Released(w, h)) && OthersSame(w, Released(w, h), h)
  {
    ReleaseKeepsTypedIff(w, h);
    if !Hooked(w, h) {
      ReleasedStructured(w, h);
    }
  }

  lemma {:induction false} ReleasedAccounted(w: World, bits: seq<bool>, bits': seq<bool>, h: nat)
    requires Accounted(bits, w.reserved, w.place) && |bits'| == |bits|
    requires forall f :: 0 <= f < |bits| ==> bits'[f] == (bits[f] && Owner(w.place, f) != Some(h))
    ensures Accounted(bits', w.reserved, Released(w, h).place)
  {
    forall f ensures AccountedFrame(bits', w.reserved, Released(w, h).place, f) {
      assert AccountedFrame(bits, w.reserved, w.place, f);
    }
  }

  /** The window a space has, if it has one. */
  lemma {:induction false} SlotOf(slotUsed: seq<bool>, spaces: Spaces, holders: map<nat, nat>, h: nat)
    requires SlotsGood(slotUsed, spaces, holders) && h in spaces
    ensures spaces[h].base != 0 ==>
              && spaces[h].base >= VM_BASE && Slot(spaces[h].base) < SLOTS && Slot(spaces[h].base) in holders
              && holders[Slot(spaces[h].base)] == h
  {
    assert WindowGood(spaces, holders, h);
    if spaces[h].base != 0 {
      assert SlotGood(slotUsed, spaces, holders, Slot(spaces[h].base));
    }
  }

  lemma {:induction false} ReleasedSlots(slotUsed: seq<bool>, spaces: Spaces, holders: map<nat, nat>, h: nat)
    requires SlotsGood(slotUsed, spaces, holders) && h in spaces && spaces[h].base != 0
    requires spaces[h].base >= VM_BASE && Slot(spaces[h].base) < SLOTS
    ensures SlotsGood(slotUsed[Slot(spaces[h].base) := false], spaces - {h}, holders - {Slot(spaces[h].base)})
  {
    var k := Slot(spaces[h].base);
    SlotOf(slotUsed, spaces, holders, h);
    assert SlotGood(slotUsed, spaces, holders, k);
    var slotUsed', spaces', holders' := slotUsed[k := false], spaces - {h}, holders - {k};
    forall j ensures SlotGood(slotUsed', spaces', holders', j) {
      assert SlotGood(slotUsed, spaces, holders, j);
    }
    forall g ensures WindowGood(spaces', holders', g) {
      assert WindowGood(spaces, holders, g);
    }
  }

  lemma {:induction false} ReleasedNoSlot(slotUsed: seq<bool>, spaces: Spaces, holders: map<nat, nat>, h: nat)
    requires SlotsGood(slotUsed, spaces, holders) && h in spaces && spaces[h].base == 0
    ensures SlotsGood(slotUsed, spaces - {h}, holders)
  {
    var spaces' := spaces - {h};
    forall j ensures SlotGood(slotUsed, spaces', holders, j) {
      assert SlotGood(slotUsed, spaces, holders, j);
    }
    forall g ensures WindowGood(spaces', holders, g) {
      assert WindowGood(spaces, holders, g);
    }
  }

  function Minus(t: Tables, s: Space): Tables {
    map f | f in t && f !in s.tables && f !in s.frames :: t[f]
  }

  lemma {:induction false} MinusIsWithout(w: World, h: nat)
    requires Recorded(w.spaces, w.place) && h in w.spaces
    ensures Minus(w.tables, w.spaces[h]) == Without(w.tables, w.place, h)
  {
    forall f | f in w.tables ensures f in Minus(w.tables, w.spaces[h]) <==> f in Without(w.tables, w.place, h) {
      HeldIsListed(w, h, f);
    }
  }

  /** Table x belongs to the kernel or to none of these spaces. */
  predicate Foreign(w: World, x: nat, touched: set<nat>) {
    x in w.tables && (Owner(w.place, x) == None || Owner(w.place, x).value !in touched)
  }

  /** Tables of the kernel and of other spaces stay theirs and translate as before; the kernel's first two are untouched. */
  ghost predicate Undisturbed(w: World, w': World, touched: set<nat>) {
    (forall x :: Foreign(w, x, touched) ==> Untouched(w, w', x)) && KernelSame(w, w')
  }

  ghost predicate Untouched(w: World, w': World, x: nat)
    requires x in w.tables
  {
    && x in w'.tables && w'.tables[x].level == w.tables[x].level && Owner(w'.place, x) == Owner(w.place, x)
    && forall q, user :: Walk(w'.tables, x, w.tables[x].level, q, user) == Walk(w.tables, x, w.tables[x].level, q, user)
  }

  // ---------------------------------------------------------------------------------------
  // A space being made
  // ---------------------------------------------------------------------------------------

  /** w' is w with the new space h in it. */
  ghost predicate Made(w: World, w': World, h: nat, private: bool, user: bool) {
    && Structured(w') && h !in w.spaces && h in w'.spaces && w'.spaces == w.spaces[h := w'.spaces[h]]
    && w'.reserved == w.reserved && w'.kernel == w.kernel
    && (forall f :: HeldKept(w, w', h, f))
    && (forall f :: f in w.tables ==> f in w'.tables && w'.tables[f].level == w.tables[f].level)
    && (private && Isolation(w) ==> Separated(w, w', h))
    && (user ==> UserSpace(w', h))
  }

  lemma {:induction false} MadeMore(w: World, w': World, w'': World, h: nat, private: bool, inside: bool, user: bool)
    requires Made(w, w', h, private, user) && Progress(w', w'', h, inside, user)
    requires private && Isolation(w) ==> inside
    ensures Made(w, w'', h, private, user)
  {
    forall f ensures HeldKept(w, w'', h, f) {
      assert HeldKept(w, w', h, f) && HeldKept(w', w'', h, f);
    }
    if private && Isolation(w) {
      forall x, q, u | x in w.tables && Owner(w.place, x) != Some(h)
        ensures Walk(w''.tables, x, w.tables[x].level, q, u) == Walk(w.tables, x, w.tables[x].level, q, u)
      {
        assert HeldKept(w, w', h, x);
      }
    }
  }

  /** Making a space and releasing it leaves every other space as it was, and the same frames held. */
  lemma {:induction false} Unmade(w: World, w': World, h: nat, private: bool, user: bool)
    requires Made(w, w', h, private, user) && Recorded(w.spaces, w.place)
    ensures Released(w', h).spaces == w.spaces && Released(w', h).place == w.place
    ensures private && Isolation(w) ==>
              Structured(Released(w', h)) && Isolation(Released(w', h)) && Undisturbed(w, Released(w', h), {})
  {
    forall f | f in w.place ensures w.place[f].space != h {
      assert PlacedWell(w.spaces, w.place, f);
    }
    forall f ensures (f in w.place ==> f in w'.place && w'.place[f] == w.place[f]) && (f in w'.place && f !in w.place ==> w'.place[f].space == h) {
      assert HeldKept(w, w', h, f);
    }
    if private && Isolation(w) {
      ReleasedIsolated(w', h);
      ReleasedStructured(w', h);
      forall x | Foreign(w, x, {}) ensures Untouched(w, Released(w', h), x) {
        assert HeldKept(w, w', h, x);
        assert Owner(w'.place, x) == Owner(w.place, x) && Owner(w.place, x) != Some(h);
      }
    }
  }

  lemma {:induction false} SameHeldSameBits(bits: seq<bool>, bits': seq<bool>, reserved: set<nat>, place: Places)
    requires |bits| == |bits'| && Accounted(bits, reserved, place) && Accounted(bits', reserved, place)
    ensures bits' == bits
  {
    forall f | 0 <= f < |bits| ensures bits'[f] == bits[f] {
      assert AccountedFrame(bits, reserved, place, f) && AccountedFrame(bits', reserved, place, f);
    }
  }

  lemma {:induction false} SameSpacesSameSlots(a: seq<bool>, b: seq<bool>, spaces: Spaces, ha: map<nat, nat>, hb: map<nat, nat>)
    requires SlotsGood(a, spaces, ha) && SlotsGood(b, spaces, hb)
    ensures a == b
  {
    forall k | 0 <= k < SLOTS ensures a[k] == b[k] {
      assert SlotGood(a, spaces, ha, k) && SlotGood(b, spaces, hb, k);
      if k in ha {
        SlotOf(b, spaces, hb, ha[k]);
      }
      if k in hb {
        SlotOf(a, spaces, ha, hb[k]);
      }
    }
  }

  /** Setting a root touches no list and no window. */
  lemma {:induction false} RootKeepsRecords(slotUsed: seq<bool>, spaces: Spaces, place: Places, holders: map<nat, nat>, h: nat, r: nat)
    requires h in spaces && Recorded(spaces, place) && SlotsGood(slotUsed, spaces, holders) && AllInCapacity(spaces)
    ensures var spaces' := spaces[h := spaces[h].(root := r)];
            Recorded(spaces', place) && SlotsGood(slotUsed, spaces', holders) && AllInCapacity(spaces')
  {
    var spaces' := spaces[h := spaces[h].(root := r)];
    SameBasesSlotsGood(slotUsed, spaces, spaces', holders);
    forall g ensures InCapacity(spaces', g) {
      assert InCapacity(spaces, g);
    }
    forall f: nat, at: Place | ListedAt(spaces', f, at) ensures f in place && place[f] == at {
      assert ListedAt(spaces, f, at);
    }
    forall f ensures PlacedWell(spaces', place, f) {
      assert PlacedWell(spaces, place, f);
    }
  }

  /** Space h, still without a root, gets the tables r and d. */
  ghost predicate NewRoot(w: World, w': World, h: nat, r: nat, d: nat) {
    && CanClone(w.tables, w.kernel, r, d) && r != 0 && r != w.kernel && w.kernel != 0
    && w.tables[w.kernel].entries[0].frame in w.tables && h in w.spaces && w.spaces[h].root == 0
    && r !in w.place && d !in w.place
    && w'.tables == Cloned(w.tables, w.kernel, r, d, w.spaces[h].userMode)
    && (forall f :: f in w.place ==> f in w'.place && w'.place[f] == w.place[f])
    && (forall f :: f in w'.place && f !in w.place ==> f == r || f == d)
    && r in w'.place && d in w'.place && w'.place[r].space == h && w'.place[d].space == h && w'.place[r].table && w'.place[d].table
    && w'.reserved == w.reserved && w'.kernel == w.kernel
    && h in w'.spaces && w'.spaces == w.spaces[h := w'.spaces[h]] && w'.spaces[h].root == r
  }

  lemma {:induction false} NewRootStructured(w: World, w': World, h: nat, r: nat, d: nat)
    requires Structured(w) && NewRoot(w, w', h, r, d)
    ensures Structured(w')
  {
    var user := w.spaces[h].userMode;
    CloneKeepsTyped(w.tables, w.kernel, r, d, user);
    CloneUnaliased(w.tables, w.kernel, r, d, user);
    CloneKeepsUnaliased(w.tables, w.kernel, r, d, user, w.kernel);
    forall x ensures TableHeld(w', x) {
      assert TableHeld(w, x);
    }
    forall g ensures RootGood(w', g) {
      if g != h {
        assert RootGood(w, g);
        if g in w.spaces && w.spaces[g].root != 0 {
          CloneKeepsUnaliased(w.tables, w.kernel, r, d, user, w.spaces[g].root);
        }
      }
    }
  }

  lemma {:induction false} NewRootIsolated(w: World, w': World, h: nat, r: nat, d: nat)
    requires Structured(w) && NewRoot(w, w', h, r, d) && Isolation(w)
    ensures Isolation(w') && KernelSame(w, w')
  {
    CloneKeepsTyped(w.tables, w.kernel, r, d, w.spaces[h].userMode);
    KernelDirectory(w);
    forall x, k | x in w'.tables && 0 <= k < ENTRIES ensures GoodEdge(w', x, k) {
      var y := if x == r then w.kernel else if x == d then KernelPdpt(w) else x;
      assert GoodEdge(w, y, k) && GoodEntry(w.tables, w.tables[y].entries[k], w.tables[y].level);
      if x == d {
        assert FirstDirectory(w', d);
      } else if x != r && FirstDirectory(w, x) {
        assert FirstDirectory(w', x);
      }
    }
  }

  lemma {:induction false} NewRootSeparated(w: World, w': World, h: nat, r: nat, d: nat)
    requires Structured(w) && NewRoot(w, w', h, r, d) && Isolation(w)
    ensures Separated(w, w', h)
  {
    var user := w.spaces[h].userMode;
    CloneKeepsTyped(w.tables, w.kernel, r, d, user);
    NewRootIsolated(w, w', h, r, d);
    forall x, q, u | x in w.tables && Owner(w.place, x) != Some(h)
      ensures Walk(w'.tables, x, w.tables[x].level, q, u) == Walk(w.tables, x, w.tables[x].level, q, u)
    {
      CloneOld(w.tables, w.kernel, r, d, user, x, q, u, 1);
    }
  }

  /** The one pointer between its own tables admits the user exactly in a user space. */
  lemma {:induction false} NewRootUser(w: World, w': World, h: nat, r: nat, d: nat)
    requires Structured(w) && NewRoot(w, w', h, r, d) && w.spaces[h].userMode
    requires forall f :: f in w.place ==> w.place[f].space != h
    ensures UserSpace(w', h)
  {
    var t := w.tables;
    forall f, i | f in w'.tables && 0 <= i < |w'.tables[f].entries| && Owner(w'.place, f) == Some(h) &&
                  Points(w'.tables[f].entries[i], w'.tables[f].level) && Owner(w'.place, w'.tables[f].entries[i].frame) == Some(h)
      ensures w'.tables[f].entries[i].flags.user
    {
      assert f == r || f == d;
      var y := if f == r then w.kernel else t[w.kernel].entries[0].frame;
      assert GoodEntry(t, t[w.kernel].entries[0], 4);
      assert GoodEntry(t, t[y].entries[i], t[y].level);
    }
  }

  // ---------------------------------------------------------------------------------------
  // Which pages are free
  // ---------------------------------------------------------------------------------------

  /** A space with a root of its own may map a page alone wherever the kernel keeps no table. */
  lemma {:induction false} PrivateIsFree(w: World, h: nat, p: Page)
    requires Structured(w) && Isolation(w) && h in w.spaces && w.spaces[h].root != 0 && w.spaces[h].root != w.kernel && Private(w, p)
    ensures FreePage(w, h, p)
  {
    var t, r := w.tables, w.spaces[h].root;
    RootOwned(w, h);
    assert GoodEdge(w, r, p.i4) && GoodEntry(t, t[r].entries[p.i4], 4);
    if Points(t[r].entries[p.i4], 4) {
      var d := t[r].entries[p.i4].frame;
      assert Owner(w.place, d) == Some(h);
      assert GoodEdge(w, d, p.i3) && GoodEntry(t, t[d].entries[p.i3], 3);
      OnlyFirst(w, h, p, d);
      if Points(t[d].entries[p.i3], 3) {
        var e := t[d].entries[p.i3].frame;
        assert Owner(w.place, e) == Some(h);
        assert GoodEdge(w, e, p.i2) && GoodEntry(t, t[e].entries[p.i2], 2);
      }
    }
  }

  /** The first directory is on the walk of pages of root entry 0 only. */
  lemma {:induction false} OnlyFirst(w: World, h: nat, p: Page, d: nat)
    requires Structured(w) && h in w.spaces && w.spaces[h].root != 0 && w.spaces[h].root != w.kernel && ValidPage(p)
    requires w.spaces[h].root in w.tables && TableOn(w.tables, w.spaces[h].root, 4, p, 3) == Some(d) && Owner(w.place, d) == Some(h)
    ensures FirstDirectory(w, d) ==> p.i4 == 0
  {
    assert RootGood(w, h);
    var q := p.(i4 := 0);
    if FirstDirectory(w, d) {
      assert TableOn(w.tables, w.spaces[h].root, 4, q, 3) == Some(d);
      assert SameAbove(p, q, 3);
    }
  }

  /** A table on the walk that is not the space's own is on the kernel's walk of that page too. */
  lemma {:induction false} KernelShares(w: World, h: nat, p: Page, l: nat)
    requires Structured(w) && Isolation(w) && h in w.spaces && w.spaces[h].root != 0 && w.spaces[h].root != w.kernel && ValidPage(p)
    requires 1 <= l <= 4 && TableOn(w.tables, w.spaces[h].root, 4, p, l).Some?
    requires Owner(w.place, TableOn(w.tables, w.spaces[h].root, 4, p, l).value) != Some(h)
    ensures Joined(w.tables, w.kernel, w.spaces[h].root, 4, p, l)
  {
    var t, r := w.tables, w.spaces[h].root;
    RootOwned(w, h);
    KernelDirectory(w);
    assert GoodEdge(w, r, p.i4) && GoodEntry(t, t[r].entries[p.i4], 4);
    var d := t[r].entries[p.i4].frame;
    if Owner(w.place, d) == Some(h) {
      assert GoodEdge(w, d, p.i3) && GoodEntry(t, t[d].entries[p.i3], 3);
      OnlyFirst(w, h, p, d);
      assert l < 3 ==> GoodEdge(w, t[d].entries[p.i3].frame, p.i2) && GoodEntry(t, t[t[d].entries[p.i3].frame].entries[p.i2], 2);
    }
  }

  /** The last table on the walk of a page is the space's own exactly if all of them are. */
  lemma {:induction false} BottomOwner(w: World, h: nat, p: Page)
    requires Structured(w) && Isolation(w) && h in w.spaces && w.spaces[h].root != 0 && ValidPage(p)
    ensures Owner(w.place, Bottom(w.tables, w.spaces[h].root, 4, p)) == Some(h) <==> FreePage(w, h, p)
  {
    var t, r := w.tables, w.spaces[h].root;
    RootOwned(w, h);
    if FreePage(w, h, p) {
      var l := BottomOn(t, r, 4, p);
    } else {
      var l :| 1 <= l <= 4 && TableOn(t, r, 4, p, l).Some? && Owner(w.place, TableOn(t, r, 4, p, l).value) != Some(h);
      var c := TableOn(t, r, 4, p, l).value;
      TableOnTyped(t, r, p, l);
      BottomFrom(t, r, 4, p, l);
      StaysInside(w, r, p, l);
      var b := BottomOn(t, c, l, p);
      StaysInside(w, c, p, b);
    }
  }

  /** Where the space's walk of p meets the kernel's, if it does. */
  lemma {:induction false} SharedLevel(w: World, h: nat, p: Page) returns (l: nat)
    requires Structured(w) && h in w.spaces && w.spaces[h].root != 0 && ValidPage(p)
    ensures Isolation(w) && !FreePage(w, h, p) ==> Joined(w.tables, w.kernel, w.spaces[h].root, 4, p, l)
  {
    l := 4;
    RootOwned(w, h);
    if Isolation(w) && !FreePage(w, h, p) && w.spaces[h].root != w.kernel {
      l :| 1 <= l <= 4 && TableOn(w.tables, w.spaces[h].root, 4, p, l).Some? &&
        Owner(w.place, TableOn(w.tables, w.spaces[h].root, 4, p, l).value) != Some(h);
      KernelShares(w, h, p, l);
    }
  }

  /** After one step of the walk: the next table and its owner. */
  lemma {:induction false} NextReady(w: World, w': World, h: nat, f: nat, level: nat, p: Page, n: nat, flags: Flags, own: bool)
    requires Structured(w) && Typed(w'.tables) && ValidPage(p) && f in w.tables && f in w'.tables && w.tables[f].level == level >= 2
    requires w'.tables[f].level == level && (w' == w || NewTable(w, w', h, f, Index(p, level), n, flags))
    requires Points(w'.tables[f].entries[Index(p, level)], level) && (own ==> FreeBelow(w, f, level, p, h))
    ensures var c := w'.tables[f].entries[Index(p, level)].frame;
            c in w'.tables && w'.tables[c].level == level - 1 && (own ==> FreeBelow(w', c, level - 1, p, h))
  {
    assert GoodEntry(w'.tables, w'.tables[f].entries[Index(p, level)], level);
    if own {
      FreeNext(w, w', h, f, level, p, n, flags);
    }
  }

  /** A step down and the rest of the way. */
  lemma {:induction false} SteppedDown(w: World, w': World, w'': World, h: nat, f: nat, level: nat, p: Page, own: bool, user: bool)
    requires level >= 2 && Stepped(w, w', h, own, user) && KeptAbove(w.tables, w'.tables, level)
    requires Stepped(w', w'', h, own, user) && KeptAbove(w'.tables, w''.tables, level - 1)
    requires ValidPage(p) && f in w.tables && w.tables[f].level == level && Typed(w'.tables)
    requires f in w'.tables && Points(w'.tables[f].entries[Index(p, level)], level)
    ensures Stepped(w, w'', h, own, user) && KeptAbove(w.tables, w''.tables, level)
    ensures TableOn(w''.tables, f, level, p, 1) == TableOn(w''.tables, w'.tables[f].entries[Index(p, level)].frame, level - 1, p, 1)
  {
    SteppedTwice(w, w', w'', h, own, own, user);
    assert KeptTable(w'.tables, w''.tables, level - 1, f);
    forall g ensures KeptTable(w.tables, w''.tables, level, g) {
      assert KeptTable(w.tables, w'.tables, level, g) && KeptTable(w'.tables, w''.tables, level - 1, g);
    }
  }

  lemma {:induction false} LastOwner(w: World, h: nat, pt: nat, p: Page, own: bool)
    requires Typed(w.tables) && ValidPage(p) && pt in w.tables && w.tables[pt].level == 1 && (own ==> FreeBelow(w, pt, 1, p, h))
    ensures own ==> Owner(w.place, pt) == Some(h)
  {
    if own {
      FreeStep(w, pt, p, h);
    }
  }

  // ---------------------------------------------------------------------------------------
  // What is left behind
  // ---------------------------------------------------------------------------------------

  /** Entry i of table f, which was there before, points to a table that space h took since. */
  ghost predicate HookAt(w: World, w': World, h: nat, f: nat, i: nat) {
    && f in w.tables && f in w'.tables && i < |w'.tables[f].entries| && Points(w'.tables[f].entries[i], w'.tables[f].level)
    && w'.tables[f].entries[i].frame !in w.place && Owner(w'.place, w'.tables[f].entries[i].frame) == Some(h)
  }

  /** Table f has no pointer that it did not have before. */
  ghost predicate PointersKept(w: World, w': World, f: nat)
    requires f in w.tables
  {
    f in w'.tables && forall i :: 0 <= i < |w'.tables[f].entries| && Points(w'.tables[f].entries[i], w'.tables[f].level) ==>
      i < |w.tables[f].entries| && Points(w.tables[f].entries[i], w.tables[f].level) && w.tables[f].entries[i].frame == w'.tables[f].entries[i].frame
  }

  ghost predicate MoreTables(w: World, w': World, h: nat) {
    h in w.spaces && h in w'.spaces && |w.spaces[h].tables| < |w'.spaces[h].tables|
  }

  /** All new tables are the space's, and if there are any they hang together from table f. */
  ghost predicate Attached(w: World, w': World, h: nat, f: nat) {
    && h in w.spaces && h in w'.spaces && |w.spaces[h].tables| <= |w'.spaces[h].tables|
    && (forall x :: x in w'.tables && x !in w.tables ==> Owner(w'.place, x) == Some(h))
    && (forall x :: x in w.tables ==> x in w'.tables && (PointersKept(w, w', x) || (x == f && MoreTables(w, w', h))))
    && (MoreTables(w, w', h) ==> exists i :: HookAt(w, w', h, f, i))
  }

  lemma {:induction false} AttachedNone(w: World, h: nat, f: nat)
    requires h in w.spaces
    ensures Attached(w, w, h, f)
  {
  }

  lemma {:induction false} AttachedNew(w: World, w': World, h: nat, f: nat, i: nat, n: nat, flags: Flags)
    requires Typed(w.tables) && NewTable(w, w', h, f, i, n, flags) && |w'.spaces[h].tables| == |w.spaces[h].tables| + 1
    ensures Attached(w, w', h, f) && HookAt(w, w', h, f, i)
  {
    assert Points(w'.tables[f].entries[i], w'.tables[f].level) && w'.tables[f].entries[i].frame == n;
    assert HookAt(w, w', h, f, i);
    forall x | x in w.tables && x != f ensures PointersKept(w, w', x) {
      assert w'.tables[x] == w.tables[x];
    }
  }

  /** One new table, and more below it. */
  lemma {:induction false} AttachedDown(w: World, w': World, w'': World, h: nat, f: nat, level: nat, i: nat, n: nat, flags: Flags)
    requires Typed(w.tables) && NewTable(w, w', h, f, i, n, flags) && |w'.spaces[h].tables| == |w.spaces[h].tables| + 1
    requires Attached(w', w'', h, n) && MoreHeld(w', w'', h) && level >= 2 && w'.tables[f].level == level && KeptAbove(w'.tables, w''.tables, level - 1)
    requires n !in w.tables
    ensures Attached(w, w'', h, f)
  {
    AttachedNew(w, w', h, f, i, n, flags);
    assert KeptTable(w'.tables, w''.tables, level - 1, f) && HeldKept(w', w'', h, n);
    assert HookAt(w, w'', h, f, i);
    TablesKeepOwners(w', w'', h);
    forall x | x in w.tables && x != f ensures PointersKept(w, w'', x) {
      assert PointersKept(w, w', x) && PointersKept(w', w'', x);
    }
  }

  lemma {:induction false} AttachedLeaf(w: World, w': World, h: nat, f: nat, pt: nat, i: nat, e: Entry)
    requires Attached(w, w', h, f) && pt in w'.tables && w'.tables[pt].level == 1 && i < |w'.tables[pt].entries|
    ensures Attached(w, w'.(tables := LeafSet(w'.tables, pt, i, e)), h, f)
  {
    var w'' := w'.(tables := LeafSet(w'.tables, pt, i, e));
    if MoreTables(w, w', h) {
      var k :| HookAt(w, w', h, f, k);
      assert HookAt(w, w'', h, f, k);
    }
    forall x | x in w.tables && PointersKept(w, w', x) ensures PointersKept(w, w'', x) {
    }
  }

  /** The code makes a table below such an entry; it gives up at a large entry of the root. */
  predicate NeedsTable(e: Entry, level: nat) { !e.flags.present || (e.flags.large && level != 4) }

  /** Somewhere on the walk of p a table is to be made. */
  predicate NeedsTables(t: Tables, f: nat, level: nat, p: Page) {
    && TableOn(t, f, level, p, 1).None?
    && !(level == 4 && f in t && |t[f].entries| == ENTRIES && ValidPage(p) && t[f].entries[p.i4].flags.present && t[f].entries[p.i4].flags.large)
  }

  /** The first step towards the last table: where the walk ends, what is missing, and what a new table changes about that. */
  lemma {:induction false} BottomStep(w: World, w': World, h: nat, f: nat, level: nat, p: Page, n: nat, flags: Flags)
    requires Typed(w.tables) && ValidPage(p) && f in w.tables && w.tables[f].level == level && 2 <= level <= 4 && h in w.spaces
    requires w' == w || (NewTable(w, w', h, f, Index(p, level), n, flags) && |w'.spaces[h].tables| == |w.spaces[h].tables| + 1)
    ensures var e := w.tables[f].entries[Index(p, level)];
            && (w' == w ==> Attached(w, w', h, Bottom(w.tables, f, level, p)))
            && (w' != w ==> Attached(w, w', h, f) && MoreTables(w, w', h) && Bottom(w'.tables, n, level - 1, p) == n &&
                            (NeedsTable(e, level) ==> Bottom(w.tables, f, level, p) == f))
            && (NeedsTable(e, level) ==> NeedsTables(w.tables, f, level, p))
            && (e.flags.present && !e.flags.large ==>
                  && Bottom(w.tables, f, level, p) == Bottom(w.tables, e.frame, level - 1, p)
                  && (NeedsTables(w.tables, f, level, p) <==> NeedsTables(w.tables, e.frame, level - 1, p)))
            && (!NeedsTable(e, level) && !(e.flags.present && !e.flags.large) ==> !NeedsTables(w.tables, f, level, p))
  {
    var e := w.tables[f].entries[Index(p, level)];
    if w' == w {
      AttachedNone(w, h, Bottom(w.tables, f, level, p));
    } else {
      AttachedNew(w, w', h, f, Index(p, level), n, flags);
      NewEntries(w.tables, w'.tables, f, Index(p, level), n, flags, Index(p, level - 1));
    }
  }

  /** One step down the walk of p from table f; `budget` is the number of tables that could be had. */
  ghost predicate OneStep(w: World, w': World, h: nat, f: nat, level: nat, p: Page, n: nat, flags: Flags, own: bool, budget: nat, ok: bool)
    requires ValidPage(p) && f in w.tables && |w.tables[f].entries| == ENTRIES
  {
    var e := w.tables[f].entries[Index(p, level)];
    && Stepped(w, w', h, own, flags.user) && KeptAbove(w.tables, w'.tables, level)
    && (w' == w || (ok && NewTable(w, w', h, f, Index(p, level), n, flags) && |w'.spaces[h].tables| == |w.spaces[h].tables| + 1))
    && (MoreTables(w, w', h) <==> NeedsTable(e, level) && budget > 0)
    && (w' == w ==> (ok <==> e.flags.present && !e.flags.large))
    && (ok ==> f in w'.tables && |w'.tables[f].entries| == ENTRIES && Points(w'.tables[f].entries[Index(p, level)], level) && w'.tables[f].entries[Index(p, level)].frame == n)
  }

  /** How much more a list takes. */
  function Room(capacity: nat, n: nat): nat { if n <= capacity then capacity - n else 0 }

  /** The frames that space h lists more are those that are gone from the supply. */
  ghost predicate Drawn(spaces: Spaces, spaces': Spaces, h: nat, s: Supply, s': Supply) {
    && h in spaces && h in spaces'
    && Spends(s, s', |spaces'[h].tables| - |spaces[h].tables|, |spaces'[h].frames| - |spaces[h].frames|)
  }

  /**
   * The way to the last table is made exactly if nothing blocks it and the tables it lacks can be had; no other is taken.
   * It is said for every z, so that it is taken apart only where it is asked for.
   */
  ghost predicate WayMade(w: World, w': World, h: nat, f: nat, level: nat, p: Page, budget: nat, ok: bool) {
    forall z :: WayMadeIs(w, w', h, f, level, p, budget, ok, z)
  }

  ghost predicate WayMadeIs(w: World, w': World, h: nat, f: nat, level: nat, p: Page, budget: nat, ok: bool, z: bool) {
    && (ok <==> !(level == 4 && Blocked(w.tables, f, p)) && Missing(w.tables, f, level, p) <= budget)
    && (ok ==> h in w.spaces && h in w'.spaces && |w'.spaces[h].tables| == |w.spaces[h].tables| + Missing(w.tables, f, level, p))
    && (forall root :: OnWalk(w.tables, root, p, f, level) ==> Along(w.tables, w'.tables, root, p))
  }

  /** The way down from table f: what it keeps, where new tables hang, and exactly when there are any. */
  ghost predicate WentDown(w: World, w': World, h: nat, f: nat, level: nat, p: Page, own: bool, user: bool, budget: nat, ok: bool) {
    forall z :: WentDownIs(w, w', h, f, level, p, own, user, budget, ok, z)
  }

  ghost predicate WentDownIs(w: World, w': World, h: nat, f: nat, level: nat, p: Page, own: bool, user: bool, budget: nat, ok: bool, z: bool) {
    && Stepped(w, w', h, own, user) && KeptAbove(w.tables, w'.tables, level)
    && Attached(w, w', h, Bottom(w.tables, f, level, p))
    && (MoreTables(w, w', h) <==> NeedsTables(w.tables, f, level, p) && budget > 0)
    && WayMade(w, w', h, f, level, p, budget, ok)
  }

  /** The next table on a walk. */
  lemma {:induction false} NextOnWalk(t: Tables, t': Tables, root: nat, p: Page, f: nat, level: nat, n: nat)
    requires Grown(t, t') && OnWalk(t, root, p, f, level) && 2 <= level <= 4 && ValidPage(p)
    requires Leads(t', f, level, p) && t'[f].entries[Index(p, level)].frame == n
    ensures OnWalk(t', root, p, n, level - 1)
  {
    assert TableOn(t', root, 4, p, level) == Some(f);
    TableOnFrom(t', root, 4, p, level, level - 1);
  }

  /** A new table below f, and the tables missing below that. */
  lemma {:induction false} MissingBelowNew(w: World, w': World, h: nat, f: nat, level: nat, p: Page, n: nat, flags: Flags)
    requires Typed(w.tables) && ValidPage(p) && f in w.tables && w.tables[f].level == level && 2 <= level <= 4
    requires NewTable(w, w', h, f, Index(p, level), n, flags)
    ensures Missing(w.tables, f, level, p) == level - 1 && Missing(w'.tables, n, level - 1, p) == level - 2
    ensures !(level == 4 && Blocked(w.tables, f, p))
  {
    NewEntries(w.tables, w'.tables, f, Index(p, level), n, flags, Index(p, level - 1));
  }

  /** A table that is there on the way down, or none that can be had. */
  lemma {:induction false} WayThere(w: World, w'': World, h: nat, f: nat, level: nat, p: Page, n: nat, budget: nat, stepped: bool, ok: bool)
    requires Typed(w.tables) && ValidPage(p) && f in w.tables && w.tables[f].level == level && 2 <= level <= 4 && h in w.spaces
    requires var e := w.tables[f].entries[Index(p, level)];
             (stepped <==> e.flags.present && !e.flags.large) && (stepped ==> e.frame == n) && !(NeedsTable(e, level) && budget > 0)
    requires if stepped && level > 2 then WayMade(w, w'', h, n, level - 1, p, budget, ok) else w'' == w && ok == stepped
    requires Grown(w.tables, w.tables)
    ensures WayMade(w, w'', h, f, level, p, budget, ok)
  {
    assert stepped && level > 2 ==> WayMadeIs(w, w'', h, n, level - 1, p, budget, ok, true);
    forall root | OnWalk(w.tables, root, p, f, level) ensures Along(w.tables, w''.tables, root, p) {
      if stepped && level > 2 {
        NextOnWalk(w.tables, w.tables, root, p, f, level, n);
      } else {
        AlongSame(w.tables, root, p);
      }
    }
    assert WayMadeIs(w, w'', h, f, level, p, budget, ok, true);
  }

  /** A table that was made on the way down. */
  lemma {:induction false} WayNew(w: World, w': World, w'': World, h: nat, f: nat, level: nat, p: Page, n: nat, flags: Flags, budget: nat, ok: bool)
    requires Structured(w) && ValidPage(p) && f in w.tables && w.tables[f].level == level && 2 <= level <= 4 && h in w.spaces
    requires NewTable(w, w', h, f, Index(p, level), n, flags) && |w'.spaces[h].tables| == |w.spaces[h].tables| + 1 && Grown(w.tables, w'.tables)
    requires budget > 0
    requires if level > 2 then WayMade(w', w'', h, n, level - 1, p, budget - 1, ok) else w'' == w' && ok
    ensures WayMade(w, w'', h, f, level, p, budget, ok)
  {
    MissingBelowNew(w, w', h, f, level, p, n, flags);
    assert level > 2 ==> WayMadeIs(w', w'', h, n, level - 1, p, budget - 1, ok, true);
    forall root | OnWalk(w.tables, root, p, f, level) ensures Along(w.tables, w''.tables, root, p) {
      ExtendAlong(w.tables, w'.tables, f, n, flags, root, p);
      if level > 2 {
        NextOnWalk(w.tables, w'.tables, root, p, f, level, n);
        AlongTwice(w.tables, w'.tables, w''.tables, root, p);
      }
    }
    assert WayMadeIs(w, w'', h, f, level, p, budget, ok, true);
  }

  /** One step, and the rest of the way if there is one. */
  lemma {:induction false} DownAll(w: World, w': World, w'': World, h: nat, f: nat, level: nat, p: Page, n: nat, flags: Flags, own: bool, budget: nat, budget': nat, stepped: bool, ok: bool)
    requires Structured(w) && ValidPage(p) && f in w.tables && w.tables[f].level == level && 2 <= level <= 4 && h in w.spaces
    requires OneStep(w, w', h, f, level, p, n, flags, own, budget, stepped)
    requires if stepped && level > 2 then WentDown(w', w'', h, n, level - 1, p, own, flags.user, budget', ok) else w'' == w' && ok == stepped
    requires budget' == if w' == w then budget else budget - 1
    ensures WentDown(w, w'', h, f, level, p, own, flags.user, budget, ok) && Typed(w''.tables)
    ensures stepped ==> TableOn(w''.tables, f, level, p, 1) == TableOn(w''.tables, n, level - 1, p, 1)
  {
    BottomStep(w, w', h, f, level, p, n, flags);
    assert stepped && level > 2 ==> WentDownIs(w', w'', h, n, level - 1, p, own, flags.user, budget', ok, true);
    if stepped && level > 2 {
      SteppedDown(w, w', w'', h, f, level, p, own, flags.user);
      if w' != w {
        NotATable(w, n);
        AttachedDown(w, w', w'', h, f, level, Index(p, level), n, flags);
      }
    }
    if w' == w {
      WayThere(w, w'', h, f, level, p, n, budget, stepped, ok);
    } else {
      WayNew(w, w', w'', h, f, level, p, n, flags, budget, ok);
    }
    assert WentDownIs(w, w'', h, f, level, p, own, flags.user, budget, ok, true);
  }

  /**
   * Mapping page p succeeds exactly if no large root entry is in the way and the tables its walk lacks can be had. Then
   * it takes these tables and its walk, with what it shares with others, is all that is added.
   */
  ghost predicate Served(w: World, w': World, h: nat, root: nat, p: Page, budget: nat, ok: bool) {
    forall z :: ServedIs(w, w', h, root, p, budget, ok, z)
  }

  ghost predicate ServedIs(w: World, w': World, h: nat, root: nat, p: Page, budget: nat, ok: bool, z: bool) {
    && (ok <==> !Blocked(w.tables, root, p) && Missing(w.tables, root, 4, p) <= budget)
    && (ok ==>
      && h in w.spaces && h in w'.spaces && |w'.spaces[h].tables| == |w.spaces[h].tables| + Missing(w.tables, root, 4, p)
      && Covers(w.tables, root, w'.tables, root, [p]) && SameBlocks(w.tables, root, w'.tables, root))
  }

  /** Page p mapped below this root: what changed, where new tables hang, and exactly when there are any. */
  ghost predicate MappedUnder(w: World, w': World, h: nat, root: nat, p: Page, own: bool, user: bool, budget: nat, ok: bool) {
    && Progress(w, w', h, own, user) && Attached(w, w', h, Bottom(w.tables, root, 4, p))
    && (MoreTables(w, w', h) <==> NeedsTables(w.tables, root, 4, p) && budget > 0)
    && Served(w, w', h, root, p, budget, ok)
  }

  lemma {:induction false} LeafServed(w: World, w1: World, w': World, h: nat, root: nat, p: Page, pt: nat, e: Entry, budget: nat)
    requires WayMade(w, w1, h, root, 4, p, budget, true) && Grown(w.tables, w1.tables) && Unaliased(w.tables, root) && ValidPage(p)
    requires pt in w1.tables && w1.tables[pt].level == 1 && TableOn(w1.tables, root, 4, p, 1) == Some(pt)
    requires w' == w1.(tables := LeafSet(w1.tables, pt, p.i1, e))
    ensures Served(w, w', h, root, p, budget, true)
  {
    assert OnWalk(w.tables, root, p, root, 4) && WayMadeIs(w, w1, h, root, 4, p, budget, true, true);
    LeafAlong(w1.tables, pt, p.i1, e, root, p);
    AlongTwice(w.tables, w1.tables, w'.tables, root, p);
    AlongBlocks(w.tables, w'.tables, root, p);
    assert PathsKept(w.tables, w'.tables) by {
      forall x, q, to | x in w.tables && ValidPage(q) && 1 <= to <= w.tables[x].level && TableOn(w.tables, x, w.tables[x].level, q, to).Some?
        ensures TableOn(w'.tables, x, w.tables[x].level, q, to) == TableOn(w.tables, x, w.tables[x].level, q, to)
      {
        LeafKeepsPaths(w1.tables, pt, p.i1, e, x, q, to);
      }
    }
    LeafKeepsPaths(w1.tables, pt, p.i1, e, root, p, 1);
    AlongCovers(w.tables, w'.tables, root, p);
    assert ServedIs(w, w', h, root, p, budget, true, true);
  }

  /** The way could not be made: nobody translates differently. */
  lemma {:induction false} NotServed(w: World, w': World, h: nat, root: nat, p: Page, own: bool, user: bool, budget: nat)
    requires WentDown(w, w', h, root, 4, p, own, user, budget, false)
    ensures MappedUnder(w, w', h, root, p, own, user, budget, false) && SameWalks(w.tables, w'.tables)
  {
    assert WentDownIs(w, w', h, root, 4, p, own, user, budget, false, true);
    SteppedProgress(w, w', h, own, user);
    assert WayMadeIs(w, w', h, root, 4, p, budget, false, true);
    assert ServedIs(w, w', h, root, p, budget, false, true);
  }

  /** The last entry written after the way down. */
  lemma {:induction false} DownLeaf(w: World, w1: World, w': World, h: nat, root: nat, p: Page, frame: nat, flags: Flags, own: bool, budget: nat, pt: nat, x: nat, l: nat)
    requires Structured(w) && WentDown(w, w1, h, root, 4, p, own, flags.user, budget, true) && Unaliased(w.tables, root) && ValidPage(p)
    requires Typed(w1.tables) && pt in w1.tables && w1.tables[pt].level == 1 && TableOn(w1.tables, root, 4, p, 1) == Some(pt)
    requires own && Isolation(w) ==> Owner(w1.place, pt) == Some(h)
    requires w' == w1.(tables := LeafSet(w1.tables, pt, p.i1, Entry(frame, flags.(present := true))))
    ensures Maps(w.tables, w'.tables, root, p, frame, flags) && MappedUnder(w, w', h, root, p, own, flags.user, budget, true)
    ensures Joined(w.tables, x, root, 4, p, l) ==> Walk(w'.tables, x, 4, p, false) == Some(frame)
  {
    assert WentDownIs(w, w1, h, root, 4, p, own, flags.user, budget, true, true);
    if Joined(w.tables, x, root, 4, p, l) {
      JoinedReach(w.tables, w1.tables, x, root, p, l, pt);
      LeafWalk(w1.tables, pt, p.i1, Entry(frame, flags.(present := true)), x, p, false);
    }
    LeafServed(w, w1, w', h, root, p, pt, Entry(frame, flags.(present := true)), budget);
    LeafStep(w, w1, w', h, root, p, frame, flags, own, pt);
    AttachedLeaf(w, w1, h, Bottom(w.tables, root, 4, p), pt, p.i1, Entry(frame, flags.(present := true)));
  }

  /** A mapping hooks the space into others' tables exactly if its new tables hang from one of those. */
  lemma {:induction false} HookedIff(w: World, w': World, h: nat, f: nat)
    requires Typed(w.tables) && Attached(w, w', h, f) && MoreHeld(w, w', h) && !Hooked(w, h)
    ensures Hooked(w', h) <==> MoreTables(w, w', h) && Owner(w.place, f) != Some(h)
  {
    TablesKeepOwners(w, w', h);
    if MoreTables(w, w', h) && Owner(w.place, f) != Some(h) {
      var i :| HookAt(w, w', h, f, i);
    } else {
      forall x, i | x in w'.tables && 0 <= i < |w'.tables[x].entries| && Owner(w'.place, x) != Some(h) &&
                    Points(w'.tables[x].entries[i], w'.tables[x].level)
        ensures Owner(w'.place, w'.tables[x].entries[i].frame) != Some(h)
      {
        assert x in w.tables && PointersKept(w, w', x);
        assert GoodEntry(w.tables, w.tables[x].entries[i], w.tables[x].level);
      }
    }
  }

  /** A mapping and the release of its space: exactly when every pointer still leads to a table. */
  lemma {:induction false} RoundIff(w: World, w': World, h: nat, p: Page)
    requires Structured(w) && Structured(w') && h in w.spaces && !Hooked(w, h) && ValidPage(p) && MoreHeld(w, w', h)
    requires Attached(w, w', h, Bottom(w.tables, w.spaces[h].root, 4, p))
    ensures Typed(Released(w', h).tables) <==> !MoreTables(w, w', h) || Owner(w.place, Bottom(w.tables, w.spaces[h].root, 4, p)) == Some(h)
    ensures Isolation(w) && w.spaces[h].root != 0 ==> (Typed(Released(w', h).tables) <==> !MoreTables(w, w', h) || FreePage(w, h, p))
    ensures Typed(Released(w', h).tables) ==> Structured(Released(w', h))
  {
    if Isolation(w) && w.spaces[h].root != 0 {
      BottomOwner(w, h, p);
    }
    HookedIff(w, w', h, Bottom(w.tables, w.spaces[h].root, 4, p));
    ReleaseOrDangle(w', h);
  }
}
