/** Address spaces made, mapped, released and copied through (k64_vmm.c:71-434, 551-605). */
module Vmm {
  import opened Blocks
  import opened Bitmap
  import opened Pmm
  import opened PageTables
  import opened AddressSpaces
  import opened TableNeeds
  import opened Worlds
  import opened UserMemory
  import opened SpaceRuns
  import opened Provisions

  datatype Op =
    | Create(h: nat, pid: nat, userMode: bool)
    | Map(h: nat, virt: nat, data: Option<seq<Byte>>, fileSize: nat, memSize: nat, user: bool)
    | Destroy(h: nat)

  /** What every operation does to the bitmap and the lists, one frame at a time. */
  datatype FrameOp = Open(h: nat, pid: nat, userMode: bool) | TakeFrame(h: nat, table: bool) | Drop(h: nat)

  /** Spaces with a pid, and ranges the kernel keeps no table for. */
  ghost predicate Fits(w: World, op: Op)
    requires KernelReady(w)
  {
    match op
    case Create(_, pid, _) => pid != 0
    case Map(_, virt, data, fileSize, memSize, _) =>
      && (data.Some? ==> fileSize <= |data.value|)
      && forall v :: virt / PAGE <= v < LastPage(virt, memSize) ==> Private(w, PageOf(v))
    case Destroy(_) => true
  }

  class AddressSpacePool {
    const pmm: FrameAllocator
    const kernelRoot: nat
    var tables: Tables
    var memory: map<nat, Block>
    var slotUsed: seq<bool>
    var spaces: Spaces
    ghost var place: Places
    ghost var holders: map<nat, nat>
    ghost var reserved: set<nat>   // taken by the rest of the kernel

    /** The frames: every set bit is accounted for, once. */
    ghost predicate Accounting()
      reads this`spaces, this`place, this`slotUsed, this`holders, this`reserved, pmm
    {
      && pmm.Valid() && Recorded(spaces, place) && Accounted(pmm.bits, reserved, place)
      && SlotsGood(slotUsed, spaces, holders)
      && AllInCapacity(spaces)
    }

    ghost function Now(): World
      reads this
    {
      World(tables, spaces, place, reserved, kernelRoot)
    }

    /** Booting: no space yet, the boot tables in reserved frames. */
    constructor (pmm: FrameAllocator, kernelRoot: nat, tables: Tables, memory: map<nat, Block>, ghost reserved: set<nat>)
      requires pmm.Valid() && Accounted(pmm.bits, reserved, map[])
      requires Typed(tables) && (forall f :: f in tables ==> f in reserved)
      requires kernelRoot != 0 ==> Unaliased(tables, kernelRoot)
      ensures Accounting() && Structured(Now()) && spaces == map[]
      ensures KernelReady(Now()) ==> Isolation(Now())
      ensures this.pmm == pmm && this.kernelRoot == kernelRoot && this.tables == tables && this.memory == memory
      ensures Now() == World(tables, map[], map[], reserved, kernelRoot) && slotUsed == seq(SLOTS, _ => false)
    {
      this.pmm, this.kernelRoot, this.tables, this.memory := pmm, kernelRoot, tables, memory;
      slotUsed, spaces := seq(SLOTS, _ => false), map[];
      place, holders, this.reserved := map[], map[], reserved;
      new;
      if KernelReady(Now()) {
        assert GoodEntry(tables, tables[kernelRoot].entries[0], 4);
      }
    }

    /** The free frames, and the room in the lists of space h. */
    ghost function SupplyOf(h: nat): Supply
      requires h in spaces && pmm.Valid()
      reads this`spaces, pmm
    {
      Supply(pmm.FreeFrames(), Room(TABLE_CAPACITY, |spaces[h].tables|), Room(FRAME_CAPACITY, |spaces[h].frames|))
    }

    /** How many tables space h can have. */
    ghost function BudgetOf(h: nat): nat
      requires h in spaces && pmm.Valid()
      reads this`spaces, pmm
    {
      Budget(SupplyOf(h))
    }

    /** What was taken from the supply since then is what space h lists more. */
    ghost predicate DrawnSince(was: Spaces, h: nat, s: Supply)
      requires h in spaces && pmm.Valid()
      reads this`spaces, pmm
    {
      Drawn(was, spaces, h, s, SupplyOf(h))
    }

    /** Takes a frame for space h and lists it; gives it back when the list is full. */
    method Take(h: nat, table: bool) returns (ok: bool, n: nat)
      requires Accounting() && h in spaces
      modifies this`spaces, this`place, pmm`bits, pmm`usedFrames
      ensures Accounting() && pmm.Balance() == old(pmm.Balance())
      ensures ok <==> old(Suffices(SupplyOf(h), if table then 1 else 0, if table then 0 else 1))
      ensures h in spaces && DrawnSince(old(spaces), h, old(SupplyOf(h)))
      ensures !ok ==> spaces == old(spaces) && place == old(place) && pmm.bits == old(pmm.bits)
      ensures ok ==> n != 0 && n !in old(place) && n !in reserved && OnlyLists(old(spaces), spaces, h)
      ensures ok ==> place == old(place)[n := Place(h, table, |Listed(old(spaces)[h], table)|)]
      ensures ok ==> spaces[h].tables == old(spaces)[h].tables + (if table then [n] else [])
      ensures ok ==> spaces[h].frames == old(spaces)[h].frames + (if table then [] else [n])
    {
      var list := Listed(spaces[h], table);
      ghost var bits, at := pmm.bits, Place(h, table, |list|);
      assert AccountedFrame(bits, reserved, place, 0);
      ok, n := pmm.Alloc();
      if !ok || n == 0 {
        return false, 0;
      }
      OneMoreAccounted(bits, reserved, place, n, at);
      if |list| >= (if table then TABLE_CAPACITY else FRAME_CAPACITY) {
        pmm.Free(n);
        assert pmm.bits == bits;
        assert SupplyOf(h) == old(SupplyOf(h));
        return false, 0;
      }
      OneMoreRecorded(spaces, place, h, table, n);
      place := place[n := at];
      spaces := spaces[h := WithFrame(spaces[h], table, n)];
      SameBasesSlotsGood(slotUsed, old(spaces), spaces, holders);
      forall g ensures InCapacity(spaces, g) {
        assert InCapacity(old(spaces), g);
      }
    }

    /** A new table below entry i of table f: empty for an absent entry, its pieces for a large page (k64_vmm.c:98-135). */
    method AddTable(h: nat, f: nat, i: nat, flags: Flags, level: nat) returns (ok: bool, next: nat)
      requires Accounting() && h in spaces && Structured(Now())
      requires f in tables && tables[f].level == level >= 2 && i < |tables[f].entries|
      requires tables[f].entries[i].flags.present ==> IsLarge(tables[f].entries[i], level)
      modifies this`tables, this`spaces, this`place, pmm`bits, pmm`usedFrames
      ensures Accounting() && pmm.Balance() == old(pmm.Balance())
      ensures ok <==> old(BudgetOf(h)) > 0
      ensures h in spaces && DrawnSince(old(spaces), h, old(SupplyOf(h)))
      ensures ok ==> NewTable(old(Now()), Now(), h, f, i, next, flags)
      ensures !ok ==> Now() == old(Now()) && pmm.bits == old(pmm.bits)
      ensures h in spaces && spaces[h].frames == old(spaces)[h].frames && |spaces[h].tables| == |old(spaces)[h].tables| + if ok then 1 else 0
    {
      ok, next := Take(h, true);
      if ok {
        NotATable(old(Now()), next);
        var e := tables[f].entries[i];
        var entries := if e.flags.present then Children(e, level) else EmptyTable();
        tables := Inserted(tables, f, i, next, entries, (e.flags.present && e.flags.user) || flags.user);
      }
    }

    /** The table below entry i of table f, made or split when it is not there (k64_vmm.c:137-154). */
    method NextTable(h: nat, f: nat, i: nat, flags: Flags, level: nat) returns (ok: bool, next: nat)
      requires Accounting() && Structured(Now()) && h in spaces
      requires f in tables && tables[f].level == level >= 2 && i < ENTRIES
      modifies this`tables, this`spaces, this`place, pmm`bits, pmm`usedFrames
      ensures Accounting() && pmm.Balance() == old(pmm.Balance())
      ensures Stepped(old(Now()), Now(), h, Owner(old(place), f) == Some(h), flags.user)
      ensures ok ==> Points(tables[f].entries[i], level) && next == tables[f].entries[i].frame
      ensures KeptAbove(old(tables), tables, level)
      ensures Now() == old(Now()) || (ok && NewTable(old(Now()), Now(), h, f, i, next, flags) && |spaces[h].tables| == |old(spaces)[h].tables| + 1)
      ensures h in spaces && spaces[h].frames == old(spaces)[h].frames
      ensures DrawnSince(old(spaces), h, old(SupplyOf(h)))
      ensures MoreTables(old(Now()), Now(), h) <==> old(NeedsTable(tables[f].entries[i], level) && BudgetOf(h) > 0)
      ensures Now() == old(Now()) ==> pmm.bits == old(pmm.bits) && (ok <==> old(tables[f].entries[i].flags.present && !tables[f].entries[i].flags.large))
    {
      ghost var w := Now();
      var e := tables[f].entries[i];
      SteppedNot(w, h, flags.user);
      if e.flags.present && !e.flags.large {
        return true, e.frame;
      }
      if e.flags.present && level == 4 {
        return false, 0;
      }
      ok, next := AddTable(h, f, i, flags, level);
      if ok {
        SteppedNew(w, Now(), h, f, i, next, flags);
      }
    }

    /** One step down the walk of p. */
    method StepDown(h: nat, f: nat, level: nat, p: Page, flags: Flags, ghost own: bool) returns (ok: bool, next: nat)
      requires Accounting() && Structured(Now()) && h in spaces && ValidPage(p)
      requires f in tables && tables[f].level == level && 2 <= level
      requires own ==> Isolation(Now()) && FreeBelow(Now(), f, level, p, h)
      modifies this`tables, this`spaces, this`place, pmm`bits, pmm`usedFrames
      ensures Accounting() && pmm.Balance() == old(pmm.Balance())
      ensures OneStep(old(Now()), Now(), h, f, level, p, next, flags, own, old(BudgetOf(h)), ok)
      ensures ok ==> next in tables && tables[next].level == level - 1
      ensures ok && own ==> FreeBelow(Now(), next, level - 1, p, h)
      ensures h in spaces && spaces[h].frames == old(spaces)[h].frames && DrawnSince(old(spaces), h, old(SupplyOf(h)))
      ensures Now() == old(Now()) ==> pmm.bits == old(pmm.bits)
    {
      ghost var w := Now();
      if own {
        FreeStep(w, f, p, h);
      }
      ok, next := NextTable(h, f, Index(p, level), flags, level);
      if ok {
        NextReady(w, Now(), h, f, level, p, next, flags, own);
      }
    }

    /**
     * The level-1 table of page p, going down from table f (k64_vmm.c:172-187).
     */
    method ReachTable(h: nat, f: nat, level: nat, p: Page, flags: Flags, ghost own: bool) returns (ok: bool, pt: nat)
      requires Accounting() && Structured(Now()) && h in spaces && ValidPage(p)
      requires f in tables && tables[f].level == level && 2 <= level
      requires own ==> Isolation(Now()) && FreeBelow(Now(), f, level, p, h)
      modifies this`tables, this`spaces, this`place, pmm`bits, pmm`usedFrames
      ensures Accounting() && pmm.Balance() == old(pmm.Balance())
      ensures WentDown(old(Now()), Now(), h, f, level, p, own, flags.user, old(BudgetOf(h)), ok) && Typed(tables)
      ensures ok ==> pt in tables && tables[pt].level == 1 && TableOn(tables, f, level, p, 1) == Some(pt)
      ensures ok && own ==> Owner(place, pt) == Some(h)
      ensures h in spaces && spaces[h].frames == old(spaces)[h].frames && DrawnSince(old(spaces), h, old(SupplyOf(h)))
      decreases level, 0
    {
      ghost var w, s := Now(), SupplyOf(h);
      var stepped, next := StepDown(h, f, level, p, flags, own);
      ok, pt := ReachFrom(w, h, f, level, p, flags, own, s, stepped, next);
    }

    /** The rest of the way, after the step from table f to the next one. */
    method ReachFrom(ghost w: World, h: nat, ghost f: nat, level: nat, p: Page, flags: Flags, ghost own: bool, ghost s: Supply, stepped: bool, next: nat)
      returns (ok: bool, pt: nat)
      requires Accounting() && h in spaces && h in w.spaces && ValidPage(p) && Structured(w)
      requires f in w.tables && w.tables[f].level == level && 2 <= level && OneStep(w, Now(), h, f, level, p, next, flags, own, Budget(s), stepped)
      requires DrawnSince(w.spaces, h, s) && w.spaces[h].frames == spaces[h].frames
      requires stepped ==> next in tables && tables[next].level == level - 1
      requires own ==> Isolation(w) && (stepped ==> FreeBelow(Now(), next, level - 1, p, h))
      modifies this`tables, this`spaces, this`place, pmm`bits, pmm`usedFrames
      ensures Accounting() && pmm.Balance() == old(pmm.Balance())
      ensures WentDown(w, Now(), h, f, level, p, own, flags.user, Budget(s), ok) && Typed(tables)
      ensures ok ==> pt in tables && tables[pt].level == 1 && TableOn(tables, f, level, p, 1) == Some(pt)
      ensures ok && own ==> Owner(place, pt) == Some(h)
      ensures h in spaces && spaces[h].frames == old(spaces)[h].frames && DrawnSince(w.spaces, h, s)
      decreases level - 1, 2
    {
      ghost var w1, budget := Now(), BudgetOf(h);
      ok, pt := ReachOrStay(h, next, level - 1, p, flags, own, stepped);
      DownAll(w, w1, Now(), h, f, level, p, next, flags, own, Budget(s), budget, stepped, ok);
    }

    /** Table f itself at level 1, or the one it leads to; nothing if the step to f failed. */
    method ReachOrStay(h: nat, f: nat, level: nat, p: Page, flags: Flags, ghost own: bool, stepped: bool) returns (ok: bool, pt: nat)
      requires Accounting() && Structured(Now()) && h in spaces && ValidPage(p)
      requires stepped ==> f in tables && tables[f].level == level && 1 <= level
      requires own && stepped ==> Isolation(Now()) && FreeBelow(Now(), f, level, p, h)
      modifies this`tables, this`spaces, this`place, pmm`bits, pmm`usedFrames
      ensures Accounting() && pmm.Balance() == old(pmm.Balance())
      ensures if stepped && level > 1 then WentDown(old(Now()), Now(), h, f, level, p, own, flags.user, old(BudgetOf(h)), ok)
              else Now() == old(Now()) && ok == stepped
      ensures ok ==> stepped && pt in tables && tables[pt].level == 1 && TableOn(tables, f, level, p, 1) == Some(pt)
      ensures ok && own ==> Owner(place, pt) == Some(h)
      ensures h in spaces && spaces[h].frames == old(spaces)[h].frames && DrawnSince(old(spaces), h, old(SupplyOf(h)))
      decreases level, 1
    {
      ok, pt := stepped, f;
      if stepped && level == 1 {
        LastOwner(Now(), h, f, p, own);
      } else if stepped {
        ok, pt := ReachTable(h, f, level, p, flags, own);
      }
    }

    /** Mapping page p takes a table: its walk does not reach a last table yet, and one can be had. */
    ghost predicate MakesTable(h: nat, p: Page)
      requires h in spaces && pmm.Valid()
      reads this`spaces, this`tables, pmm
    {
      spaces[h].root != 0 && NeedsTables(tables, spaces[h].root, 4, p) && BudgetOf(h) > 0
    }

    /**
     * Maps page p of space h to a frame. On success that page, and no other page of the space, changes its
     * translation; on failure no translation of anyone does. Where every table on the walk is the space's own, nobody
     * else sees a difference; where one is not, the kernel sees the new frame. It succeeds exactly if the space has a
     * root, no large root entry is in the way, and as many tables as the walk lacks can be had.
     */
    method MapPage(h: nat, p: Page, frame: nat, flags: Flags) returns (ok: bool)
      requires Accounting() && Structured(Now()) && ValidPage(p)
      modifies this`tables, this`spaces, this`place, pmm`bits, pmm`usedFrames
      ensures Accounting() && pmm.Balance() == old(pmm.Balance())
      ensures ok ==> h in old(spaces) && old(spaces)[h].root != 0
      ensures ok ==> Maps(old(tables), tables, old(spaces)[h].root, p, frame, flags)
      ensures !ok ==> SameWalks(old(tables), tables)
      ensures h in old(spaces) ==> Progress(old(Now()), Now(), h, old(FreePage(Now(), h, p)), flags.user)
      ensures ok && old(Isolation(Now()) && !FreePage(Now(), h, p)) ==> Walk(tables, kernelRoot, 4, p, false) == Some(frame)
      ensures h in old(spaces) ==> h in spaces && spaces[h].frames == old(spaces)[h].frames
      ensures h in old(spaces) ==> Attached(old(Now()), Now(), h, Bottom(old(tables), old(spaces)[h].root, 4, p))
      ensures h in old(spaces) ==> (MoreTables(old(Now()), Now(), h) <==> old(MakesTable(h, p)))
      ensures h !in old(spaces) ==> Now() == old(Now())
      ensures h in old(spaces) && old(spaces)[h].root != 0 ==> Served(old(Now()), Now(), h, old(spaces)[h].root, p, old(BudgetOf(h)), ok)
      ensures h in old(spaces) ==> DrawnSince(old(spaces), h, old(SupplyOf(h)))
    {
      ghost var w := Now();
      if h !in spaces {
        return false;
      }
      if spaces[h].root == 0 {
        AttachedNone(w, h, Bottom(tables, 0, 4, p));
        SteppedNot(w, h, flags.user);
        SteppedProgress(w, w, h, true, flags.user);
        return false;
      }
      RootOwned(w, h);
      ghost var l := SharedLevel(w, h, p);
      ok := MapUnder(h, spaces[h].root, p, frame, flags, Isolation(w) && FreePage(w, h, p), kernelRoot, l);
    }

    method MapUnder(h: nat, root: nat, p: Page, frame: nat, flags: Flags, ghost own: bool, ghost x: nat, ghost l: nat) returns (ok: bool)
      requires Accounting() && Structured(Now()) && h in spaces && ValidPage(p)
      requires root in tables && tables[root].level == 4 && Unaliased(tables, root)
      requires own ==> Isolation(Now()) && FreeBelow(Now(), root, 4, p, h)
      modifies this`tables, this`spaces, this`place, pmm`bits, pmm`usedFrames
      ensures Accounting() && pmm.Balance() == old(pmm.Balance())
      ensures ok ==> Maps(old(tables), tables, root, p, frame, flags)
      ensures !ok ==> SameWalks(old(tables), tables)
      ensures MappedUnder(old(Now()), Now(), h, root, p, own, flags.user, old(BudgetOf(h)), ok)
      ensures ok && Joined(old(tables), x, root, 4, p, l) ==> Walk(tables, x, 4, p, false) == Some(frame)
      ensures h in spaces && spaces[h].frames == old(spaces)[h].frames && DrawnSince(old(spaces), h, old(SupplyOf(h)))
    {
      ghost var w, budget := Now(), BudgetOf(h);
      var pt;
      ok, pt := ReachTable(h, root, 4, p, flags, own);
      SetLast(w, h, root, p, frame, flags, own, budget, ok, pt, x, l);
    }

    /** The entry of the page in its last table, if there is one. */
    method SetLast(ghost w: World, h: nat, ghost root: nat, p: Page, frame: nat, flags: Flags, ghost own: bool, ghost budget: nat, ok: bool, pt: nat, ghost x: nat, ghost l: nat)
      requires Structured(w) && WentDown(w, Now(), h, root, 4, p, own, flags.user, budget, ok) && Unaliased(w.tables, root) && ValidPage(p)
      requires ok ==> Typed(tables) && pt in tables && tables[pt].level == 1 && TableOn(tables, root, 4, p, 1) == Some(pt)
      requires ok && own && Isolation(w) ==> Owner(place, pt) == Some(h)
      modifies this`tables
      ensures MappedUnder(w, Now(), h, root, p, own, flags.user, budget, ok)
      ensures if ok then Maps(w.tables, tables, root, p, frame, flags) else SameWalks(w.tables, tables)
      ensures ok && Joined(w.tables, x, root, 4, p, l) ==> Walk(tables, x, 4, p, false) == Some(frame)
    {
      ghost var w1 := Now();
      if ok {
        tables := LeafSet(tables, pt, p.i1, Entry(frame, flags.(present := true)));
        DownLeaf(w, w1, Now(), h, root, p, frame, flags, own, budget, pt, x, l);
      } else {
        NotServed(w, w1, h, root, p, own, flags.user, budget);
      }
    }

    method FreeAll(list: seq<nat>)
      requires pmm.Valid() && Freeable(pmm.bits, list)
      modifies pmm`bits, pmm`usedFrames
      ensures pmm.Valid() && pmm.Balance() == old(pmm.Balance()) && pmm.usedFrames == old(pmm.usedFrames) - |list|
      ensures forall f :: 0 <= f < |pmm.bits| ==> pmm.bits[f] == (old(pmm.bits)[f] && f !in list)
    {
      for i := 0 to |list|
        invariant pmm.Valid() && pmm.Balance() == old(pmm.Balance()) && pmm.usedFrames == old(pmm.usedFrames) - i
        invariant forall f :: 0 <= f < |pmm.bits| ==> pmm.bits[f] == (old(pmm.bits)[f] && f !in list[..i])
      {
        assert list[..i + 1] == list[..i] + [list[i]];
        if list[i] != 0 {
          pmm.Free(list[i]);
        }
      }
    }

    method FreeHeld(h: nat)
      requires pmm.Valid() && Recorded(spaces, place) && Accounted(pmm.bits, reserved, place) && h in spaces
      modifies pmm`bits, pmm`usedFrames
      ensures pmm.Valid() && pmm.Balance() == old(pmm.Balance())
      ensures pmm.usedFrames == old(pmm.usedFrames) - |spaces[h].frames| - |spaces[h].tables|
      ensures Accounted(pmm.bits, reserved, Released(Now(), h).place)
    {
      var s := spaces[h];
      ghost var bits := pmm.bits;
      ListFreeable(spaces, place, bits, reserved, h, false);
      ListFreeable(spaces, place, bits, reserved, h, true);
      FreeAll(s.frames);
      forall i | 0 <= i < |s.tables| ensures s.tables[i] !in s.frames {
        HeldIsListed(Now(), h, s.tables[i]);
      }
      FreeAll(s.tables);
      forall f | 0 <= f < |bits| ensures pmm.bits[f] == (bits[f] && Owner(place, f) != Some(h)) {
        HeldIsListed(Now(), h, f);
      }
      ReleasedAccounted(Now(), bits, pmm.bits, h);
    }

    method FreeSlot(h: nat)
      requires h in spaces && SlotsGood(slotUsed, spaces, holders)
      modifies this`slotUsed, this`holders
      ensures SlotsGood(slotUsed, spaces - {h}, holders)
    {
      SlotOf(slotUsed, spaces, holders, h);
      if spaces[h].base >= VM_BASE {
        ReleasedSlots(slotUsed, spaces, holders, h);
        var slot := Slot(spaces[h].base);
        if slot < SLOTS {
          slotUsed := slotUsed[slot := false];
          holders := holders - {slot};
        }
      } else {
        ReleasedNoSlot(slotUsed, spaces, holders, h);
      }
    }

    /** Gives back every frame of the space, each once, and its window (k64_vmm.c:347-373). */
    method Release(h: nat)
      requires Accounting()
      modifies this`tables, this`spaces, this`place, this`slotUsed, this`holders, pmm`bits, pmm`usedFrames
      ensures Accounting() && pmm.Balance() == old(pmm.Balance())
      ensures h !in old(spaces) ==> Now() == old(Now())
      ensures h in old(spaces) ==> Now() == Released(old(Now()), h)
      ensures h in old(spaces) ==>
                pmm.usedFrames == old(pmm.usedFrames) - |old(spaces)[h].frames| - |old(spaces)[h].tables|
    {
      if h !in spaces {
        return;
      }
      ghost var w := Now();
      ReleasedRecorded(w, h);
      MinusIsWithout(w, h);
      FreeHeld(h);
      FreeSlot(h);
      tables, spaces := Minus(tables, spaces[h]), spaces - {h};
      place := Released(w, h).place;
    }

    method TakeTwo(h: nat) returns (ok: bool, r: nat, d: nat)
      requires Accounting() && h in spaces
      modifies this`spaces, this`place, pmm`bits, pmm`usedFrames
      ensures Accounting() && pmm.Balance() == old(pmm.Balance()) && MoreListed(old(Now()), Now(), h)
      ensures ok ==> r != 0 && r != d && r !in old(place) && d !in old(place) && r !in reserved && d !in reserved
      ensures ok ==> Owner(place, r) == Some(h) && Owner(place, d) == Some(h) && place[r].table && place[d].table
      ensures ok ==> forall f :: f in place && f !in old(place) ==> f == r || f == d
      ensures (ok <==> old(Suffices(SupplyOf(h), 2, 0))) && DrawnSince(old(spaces), h, old(SupplyOf(h)))
      ensures ok ==> |spaces[h].tables| == |old(spaces)[h].tables| + 2
    {
      var ok1, ok2;
      ok1, r := Take(h, true);
      ok2, d := Take(h, true);
      ok := ok1 && ok2;
    }

    /** Copies the kernel's root and first directory for space h (k64_vmm.c:193-223). */
    method CloneKernelRoot(h: nat) returns (ok: bool)
      requires Accounting() && Structured(Now()) && h in spaces && spaces[h].root == 0
      modifies this`tables, this`spaces, this`place, pmm`bits, pmm`usedFrames
      ensures Accounting() && pmm.Balance() == old(pmm.Balance()) && h in spaces
      ensures ok ==> exists d :: NewRoot(old(Now()), Now(), h, spaces[h].root, d)
      ensures ok ==> spaces[h].base == old(spaces)[h].base && spaces[h].frames == old(spaces)[h].frames && spaces[h].userMode == old(spaces)[h].userMode
      ensures !ok ==> tables == old(tables) && MoreListed(old(Now()), Now(), h)
      ensures ok <==> HasDirectory(old(tables), kernelRoot) && old(Suffices(SupplyOf(h), 2, 0))
      ensures ok ==> Spends(old(SupplyOf(h)), SupplyOf(h), 2, 0)
    {
      if kernelRoot == 0 || !tables[kernelRoot].entries[0].flags.present {
        return false;
      }
      ghost var w := Now();
      assert GoodEntry(tables, tables[kernelRoot].entries[0], 4);
      var r, d;
      ok, r, d := TakeTwo(h);
      if ok {
        NotATable(w, r);
        NotATable(w, d);
        RootKeepsRecords(slotUsed, spaces, place, holders, h, r);
        tables := Cloned(tables, kernelRoot, r, d, spaces[h].userMode);
        spaces := spaces[h := spaces[h].(root := r)];
        assert NewRoot(w, Now(), h, r, d);
      }
    }

    /** Takes a frame for space h and fills it. */
    method TakeData(h: nat, content: Block, ghost user: bool) returns (ok: bool, frame: nat)
      requires Accounting() && Structured(Now()) && h in spaces
      modifies this`memory, this`spaces, this`place, pmm`bits, pmm`usedFrames
      ensures Accounting() && pmm.Balance() == old(pmm.Balance()) && Progress(old(Now()), Now(), h, true, user)
      ensures (ok <==> old(Suffices(SupplyOf(h), 0, 1))) && (ok ==> Spends(old(SupplyOf(h)), SupplyOf(h), 0, 1))
      ensures spaces[h].root == old(spaces)[h].root
      ensures !ok ==> memory == old(memory)
      ensures ok ==> frame !in old(place) && spaces[h].frames == old(spaces)[h].frames + [frame] && memory == old(memory)[frame := content]
    {
      ghost var w := Now();
      ok, frame := Take(h, false);
      if ok {
        DataFrameProgress(w, Now(), h, frame, user);
        memory := memory[frame := content];
      } else {
        SteppedNot(w, h, user);
        SteppedProgress(w, w, h, true, user);
      }
    }

    /** Takes a frame with these contents and maps page p to it. */
    method MapFresh(h: nat, p: Page, content: Block, flags: Flags) returns (ok: bool, frame: nat)
      requires Accounting() && Structured(Now()) && h in spaces && ValidPage(p)
      modifies this`tables, this`memory, this`spaces, this`place, pmm`bits, pmm`usedFrames
      ensures Accounting() && pmm.Balance() == old(pmm.Balance())
      ensures Progress(old(Now()), Now(), h, old(FreePage(Now(), h, p)), flags.user)
      ensures memory == old(memory) || (frame !in old(place) && memory == old(memory)[frame := content])
      ensures ok ==> old(spaces)[h].root != 0 && spaces[h].frames == old(spaces)[h].frames + [frame]
      ensures ok ==> frame !in old(place) && memory == old(memory)[frame := content]
      ensures ok ==> Maps(old(tables), tables, old(spaces)[h].root, p, frame, flags)
      ensures Provided(old(Now()), Now(), h, [p], old(SupplyOf(h)), SupplyOf(h), ok)
    {
      ghost var w, s := Now(), SupplyOf(h);
      var taken;
      taken, frame := TakeData(h, content, flags.user);
      ghost var w1, s1 := Now(), SupplyOf(h);
      ok := taken;
      if taken {
        ok := MapPage(h, p, frame, flags);
        ProgressNext(w, w1, Now(), h, p, FreePage(w, h, p), flags.user);
      }
      FreshProvided(w, w1, Now(), h, p, s, s1, SupplyOf(h), taken, ok);
    }

    /** The contents of page v: zeros, and the part of the data that falls into it (k64_vmm.c:408-426). */
    method FillPage(virt: nat, data: Option<seq<Byte>>, size: nat, v: nat) returns (page: Block)
      requires data.Some? ==> size <= |data.value|
      ensures page == PageContent(virt, data, size, v)
    {
      page := ZeroBlock();
      var start, stop, end := if v * PAGE < virt then virt - v * PAGE else 0, PAGE, (virt + size) % WORD;
      if v * PAGE + stop > end {
        stop := if end <= v * PAGE then start else end - v * PAGE;
      }
      if stop > start && data.Some? {
        for i := 0 to stop - start
          invariant forall k :: 0 <= k < PAGE ==>
                      page[k] == if start <= k < start + i then FileByte(virt, data, size, v * PAGE + k) else 0
        {
          page := page[start + i := data.value[v * PAGE + start + i - virt]];
        }
      }
      assert forall k :: 0 <= k < PAGE ==> page[k] == FileByte(virt, data, size, v * PAGE + k);
    }

    /** Fills a frame for page v of the range and maps it. */
    method MapNext(ghost w: World, ghost j: Job, h: nat, virt: nat, data: Option<seq<Byte>>, size: nat, v: nat, flags: Flags, ghost s: Supply)
      returns (ok: bool)
      requires Accounting() && h in spaces && j == Job(h, j.first, virt, data, size, j.private, flags.user) && j.first <= v
      requires Mapping(w, Now(), memory, j, v, s, SupplyOf(h), true)
      requires data.Some? ==> size <= |data.value|
      requires j.private ==> FreePage(w, h, PageOf(v))
      modifies this`tables, this`memory, this`spaces, this`place, pmm`bits, pmm`usedFrames
      ensures Accounting() && pmm.Balance() == old(pmm.Balance())
      ensures h in spaces && Mapping(w, Now(), memory, j, v + 1, s, SupplyOf(h), ok)
    {
      ghost var w1, memory1, s1 := Now(), memory, SupplyOf(h);
      var page := FillPage(virt, data, size, v);
      MappingGives(w, w1, memory1, j, v, s, s1, true);
      assert InCapacity(spaces, h);
      var frame;
      ok, frame := MapFresh(h, PageOf(v), page, flags);
      MappingMore(w, w1, Now(), memory1, memory, j, v, frame, flags, s, s1, SupplyOf(h), ok);
    }

    /** Gives the pages [first, last) frames of their own, filled with the data that belongs there. */
    method MapPages(h: nat, virt: nat, data: Option<seq<Byte>>, size: nat, first: nat, last: nat, flags: Flags, ghost private: bool) returns (ok: bool)
      requires Accounting() && Structured(Now()) && h in spaces && first <= last && (private ==> AllFree(Now(), h, first, last))
      requires data.Some? ==> size <= |data.value|
      modifies this`tables, this`memory, this`spaces, this`place, pmm`bits, pmm`usedFrames
      ensures Accounting() && pmm.Balance() == old(pmm.Balance()) && h in spaces
      ensures Mapping(old(Now()), Now(), memory, Job(h, first, virt, data, size, private, flags.user),
                      last, old(SupplyOf(h)), SupplyOf(h), ok)
    {
      ghost var w, s, j := Now(), SupplyOf(h), Job(h, first, virt, data, size, private, flags.user);
      StartMapping(w, memory, j, s);
      var v := first;
      while v < last
        invariant first <= v <= last && Accounting() && pmm.Balance() == old(pmm.Balance())
        invariant h in spaces && Mapping(w, Now(), memory, j, v, s, SupplyOf(h), true)
      {
        ok := MapNext(w, j, h, virt, data, size, v, flags, s);
        if !ok {
          MappingFailed(w, Now(), memory, j, v + 1, last, s, SupplyOf(h));
          return;
        }
        v := v + 1;
      }
      ok := true;
    }

    /**
     * Maps a range filled with data. When the space is a user's, the user then reads at every address of the
     * rounded range the byte of the file, and zero where there is none. A range whose end wraps maps nothing. It
     * succeeds exactly if there are frames for the pages and for the tables their walks lack, each counted once.
     */
    method MapRange(h: nat, virt: nat, data: Option<seq<Byte>>, fileSize: nat, memSize: nat, flags: Flags) returns (ok: bool)
      requires Accounting() && Structured(Now())
      requires data.Some? ==> fileSize <= |data.value|
      modifies this`tables, this`memory, this`spaces, this`place, pmm`bits, pmm`usedFrames
      ensures Accounting() && pmm.Balance() == old(pmm.Balance()) && Structured(Now())
      ensures ok ==> h in old(spaces) && memSize > 0
      ensures h !in old(spaces) || memSize == 0 || LastPage(virt, memSize) <= virt / PAGE ==> Now() == old(Now())
      ensures h in old(spaces) && memSize > 0 && LastPage(virt, memSize) <= virt / PAGE ==> ok
      ensures h in old(spaces) ==>
                Progress(old(Now()), Now(), h, old(AllFree(Now(), h, virt / PAGE, LastPage(virt, memSize))), flags.user)
      ensures ok && flags.user && old(Isolation(Now()) && UserSpace(Now(), h) && AllFree(Now(), h, virt / PAGE, LastPage(virt, memSize))) ==>
                forall a :: virt / PAGE <= a / PAGE < LastPage(virt, memSize) ==>
                  Load(UserView(tables, spaces[h].root), memory, a) == Some(FileByte(virt, data, fileSize, a))
      ensures h in old(spaces) && memSize > 0 ==>
                h in spaces && Provided(old(Now()), Now(), h, Pages(virt / PAGE, LastPage(virt, memSize)), old(SupplyOf(h)), SupplyOf(h), ok)
    {
      if h !in spaces || memSize == 0 {
        if h in spaces {
          SteppedNot(Now(), h, flags.user);
          SteppedProgress(Now(), Now(), h, true, flags.user);
        }
        return false;
      }
      var first, last := virt / PAGE, LastPage(virt, memSize);
      if last <= first {
        SteppedNot(Now(), h, flags.user);
        SteppedProgress(Now(), Now(), h, true, flags.user);
        ProvidedNothing(Now(), h, SupplyOf(h));
        assert Pages(first, last) == [];
        return true;
      }
      ghost var w, s, j := Now(), SupplyOf(h), Job(h, first, virt, data, fileSize, AllFree(Now(), h, first, last), flags.user);
      ok := MapPages(h, virt, data, fileSize, first, last, flags, j.private);
      MappingGives(w, Now(), memory, j, last, s, SupplyOf(h), ok);
      if ok && flags.user && Isolation(w) && UserSpace(w, h) && AllFree(w, h, first, last) {
        forall a: nat | first <= a / PAGE < last
          ensures Load(UserView(tables, spaces[h].root), memory, a) == Some(FileByte(virt, data, fileSize, a))
        {
          LaidLoads(tables, memory, spaces[h].root, spaces[h].frames, |w.spaces[h].frames|, first, last, virt, data, fileSize, a);
        }
      }
    }

    /** What user translation says in space h; a space that is not there translates nothing. */
    function ViewOf(h: nat): View
      reads this`spaces, this`tables
    {
      if h !in spaces || spaces[h].root == 0 then v => None else UserView(tables, spaces[h].root)
    }

    /** Copies from the user: all of it, or a failure exactly when some byte is not the user's to read (k64_vmm.c:551-577). */
    method ReadUser(h: nat, virt: nat, size: nat) returns (ok: bool, out: seq<Byte>)
      requires virt < WORD
      ensures ok <==> virt + size <= WORD && forall a :: virt <= a < virt + size ==> Load(ViewOf(h), memory, a).Some?
      ensures ok ==> |out| == size && forall a :: virt <= a < virt + size ==> Load(ViewOf(h), memory, a) == Some(out[a - virt])
    {
      out := [];
      if size != 0 && virt + size - 1 >= WORD {
        return false, out;
      }
      var view := ViewOf(h);
      while |out| < size
        invariant |out| <= size && forall a :: virt <= a < virt + |out| ==> Load(view, memory, a) == Some(out[a - virt])
      {
        ghost var done := |out|;
        var off := (virt + |out|) % PAGE;
        var chunk := if PAGE - off > size - |out| then size - |out| else PAGE - off;
        var frame := view((virt + |out|) / PAGE);
        if frame.None? {
          assert Load(view, memory, virt + |out|).None?;
          return false, out;
        }
        out := out + Bytes(memory, frame.value)[off..off + chunk];
        forall a | virt + done <= a < virt + |out| ensures Load(view, memory, a) == Some(out[a - virt]) {
          InChunk(virt + done, a - virt - done);
        }
      }
      ok := true;
    }

    /** Copies to the user, page by page, up to the first page that is not the user's (k64_vmm.c:579-605). */
    method WriteUser(h: nat, virt: nat, data: seq<Byte>) returns (ok: bool)
      requires virt < WORD
      modifies this`memory
      ensures virt + |data| > WORD ==> !ok && memory == old(memory)
      ensures virt + |data| <= WORD ==> (ok, memory) == Stored(ViewOf(h), old(memory), virt / PAGE, virt % PAGE, data)
      ensures ok <==> virt + |data| <= WORD && forall a :: virt <= a < virt + |data| ==> Load(ViewOf(h), old(memory), a).Some?
    {
      StoredIff(ViewOf(h), memory, virt / PAGE, virt % PAGE, data, 0);
      TouchedBytes(virt, |data|, ViewOf(h), memory);
      if |data| != 0 && virt + |data| - 1 >= WORD {
        return false;
      }
      ok, memory := StoreAll(ViewOf(h), memory, virt, data);
    }

    static method StoreAll(view: View, start: map<nat, Block>, virt: nat, data: seq<Byte>) returns (ok: bool, memory: map<nat, Block>)
      ensures (ok, memory) == Stored(view, start, virt / PAGE, virt % PAGE, data)
    {
      memory := start;
      var next := 0;
      assert data[0..] == data;
      while next < |data|
        invariant next <= |data|
        invariant StoredFrom(view, memory, virt + next, data[next..]) == StoredFrom(view, start, virt, data)
      {
        var n;
        ok, memory, n := StoreChunk(view, memory, virt + next, data[next..]);
        if !ok {
          return;
        }
        assert data[next..][n..] == data[next + n..];
        next := next + n;
      }
      ok := true;
    }

    /** The part of the data that goes to one page. */
    static method StoreChunk(view: View, start: map<nat, Block>, a: nat, data: seq<Byte>) returns (ok: bool, memory: map<nat, Block>, n: nat)
      requires data != []
      ensures 0 < n <= |data|
      ensures StoredFrom(view, start, a, data) == if ok then StoredFrom(view, memory, a + n, data[n..]) else (false, memory)
    {
      var off, frame := a % PAGE, view(a / PAGE);
      n := ChunkAt(a, |data|);
      StoreStep(view, start, a, data);
      if frame.None? {
        return false, start, n;
      }
      var page := CopyChunk(Bytes(start, frame.value), off, data, n);
      ok, memory := true, start[frame.value := page];
    }

    static method CopyChunk(page: Block, off: nat, data: seq<Byte>, n: nat) returns (result: Block)
      requires off + n <= PAGE && n <= |data|
      ensures result == Spliced(page, off, data[..n])
    {
      result := page;
      for i := 0 to n
        invariant result == Spliced(page, off, data[..i])
      {
        result := result[off + i := data[i]];
        assert data[..i + 1] == data[..i] + [data[i]];
        assert result == Spliced(page, off, data[..i + 1]);
      }
    }

    /** The first free window at or after the one the pid asks for, going round (k64_vmm.c:262-269). */
    method FindSlot(pid: nat) returns (ok: bool, slot: nat)
      requires |slotUsed| == SLOTS
      ensures ok ==> slot < SLOTS && !slotUsed[slot]
      ensures ok ==> forall k :: 0 <= k < SLOTS && Ahead(pid % SLOTS, k) < Ahead(pid % SLOTS, slot) ==> slotUsed[k]
      ensures !ok ==> forall k :: 0 <= k < SLOTS ==> slotUsed[k]
    {
      var start := pid % SLOTS;
      slot := start;
      while slotUsed[slot]
        invariant slot < SLOTS && forall k :: 0 <= k < SLOTS && Ahead(start, k) < Ahead(start, slot) ==> slotUsed[k]
        decreases SLOTS - Ahead(start, slot)
      {
        slot := (slot + 1) % SLOTS;
        if slot == start {
          return false, slot;
        }
      }
      ok := true;
    }

    /** Undoes a half-made space: all frames and the window go back. */
    method Abandon(ghost w: World, ghost bits: seq<bool>, ghost used: seq<bool>, ghost windows: map<nat, nat>, h: nat, ghost private: bool, ghost user: bool)
      requires Accounting() && Made(w, Now(), h, private, user) && Recorded(w.spaces, w.place)
      requires |bits| == |pmm.bits| && Accounted(bits, w.reserved, w.place) && SlotsGood(used, w.spaces, windows)
      modifies this`tables, this`spaces, this`place, this`slotUsed, this`holders, pmm`bits, pmm`usedFrames
      ensures Accounting() && pmm.Balance() == old(pmm.Balance())
      ensures spaces == w.spaces && place == w.place && pmm.bits == bits && slotUsed == used
      ensures private && Isolation(w) ==> Structured(Now()) && Isolation(Now()) && Undisturbed(w, Now(), {})
      ensures Typed(tables) ==> Structured(Now())
    {
      Unmade(w, Now(), h, private, user);
      ReleaseOrDangle(Now(), h);
      Release(h);
      SameHeldSameBits(bits, pmm.bits, reserved, place);
      SameSpacesSameSlots(used, slotUsed, spaces, windows, holders);
    }

    /** Enters the space with no frame yet, in its window if it has one. */
    method Register(h: nat, s: Space, slot: nat)
      requires Accounting() && h !in spaces && s.tables == [] && s.frames == []
      requires s.base == 0 || (slot < SLOTS && !slotUsed[slot] && s.base == Base(slot))
      modifies this`spaces, this`slotUsed, this`holders
      ensures Accounting() && spaces == old(spaces)[h := s]
    {
      NewSpaceRecords(slotUsed, spaces, place, holders, h, s, slot);
      spaces := spaces[h := s];
      if s.base != 0 {
        slotUsed := slotUsed[slot := true];
        holders := holders[slot := h];
      }
    }

    method Enter(h: nat, s: Space, slot: nat)
      requires Accounting() && Structured(Now()) && h !in spaces && s.tables == [] && s.frames == []
      requires s.base == 0 || (slot < SLOTS && !slotUsed[slot] && s.base == Base(slot))
      requires s.root == 0 || s.root == kernelRoot
      modifies this`spaces, this`slotUsed, this`holders
      ensures Accounting() && spaces == old(spaces)[h := s] && Made(old(Now()), Now(), h, true, true)
    {
      MadeEmpty(Now(), Now().(spaces := spaces[h := s]), h, s);
      Register(h, s, slot);
    }

    /** The root of a space that was just entered. */
    method GiveRoot(ghost w: World, h: nat, slot: nat, ghost user: bool) returns (ok: bool, ghost d: nat)
      requires Accounting() && slot < SLOTS && h in spaces && Recorded(w.spaces, w.place)
      requires Made(w, Now(), h, true, true) && Now() == w.(spaces := spaces) && spaces[h] == FreshSpace(slot, spaces[h].userMode)
      requires user ==> spaces[h].userMode
      modifies this`tables, this`memory, this`spaces, this`place, pmm`bits, pmm`usedFrames
      ensures Accounting() && pmm.Balance() == old(pmm.Balance()) && Made(w, Now(), h, true, user)
      ensures ok <==> HasDirectory(w.tables, kernelRoot) && old(pmm.FreeFrames()) >= 2
      ensures ok ==> NewRoot(old(Now()), Now(), h, spaces[h].root, d) && Spends(old(SupplyOf(h)), SupplyOf(h), 2, 0)
      ensures ok ==> spaces[h].base == Base(slot) && spaces[h].frames == []
    {
      ghost var w1 := Now();
      forall f | f in place ensures place[f].space != h {
        assert PlacedWell(w.spaces, w.place, f);
      }
      ok := CloneKernelRoot(h);
      d := 0;
      if ok {
        d :| NewRoot(w1, Now(), h, spaces[h].root, d);
        MadeRoot(w, w1, Now(), h, spaces[h].root, d, user);
      } else {
        ListedProgress(w1, Now(), h);
        MadeMore(w, w1, Now(), h, true, true, true);
      }
    }

    /** The zeroed stack of a space that has just been given its root. */
    method MapStack(ghost w: World, ghost w1: World, h: nat, slot: nat, flags: Flags, ghost private: bool, ghost user: bool, ghost d: nat, ghost s: Supply)
      returns (ok: bool)
      requires Accounting() && h in spaces && slot < SLOTS && spaces[h].frames == [] && spaces[h].base == Base(slot)
      requires Structured(w1) && NewRoot(w1, Now(), h, spaces[h].root, d) && HasDirectory(w1.tables, w1.kernel)
      requires s.tables == TABLE_CAPACITY && s.frames == FRAME_CAPACITY && Spends(s, SupplyOf(h), 2, 0)
      requires Made(w, Now(), h, true, user) && (private ==> WindowsPrivate(w)) && (user ==> flags.user)
      modifies this`tables, this`memory, this`spaces, this`place, pmm`bits, pmm`usedFrames
      ensures Accounting() && pmm.Balance() == old(pmm.Balance()) && Made(w, Now(), h, private, user)
      ensures ok <==> CanMake(w1.tables, w1.kernel, slot, [], s.free)
      ensures ok ==> Furnished(w1, Now(), memory, h, slot, s.free, SupplyOf(h), private && user && Isolation(w))
    {
      ghost var w2, s2 := Now(), SupplyOf(h);
      ghost var j := Job(h, StackPage(slot), 0, None, 0, private && Isolation(w), flags.user);
      if j.private {
        StackPrivate(w, w2, h, slot);
      }
      ok := MapPages(h, 0, None, 0, StackPage(slot), StackPage(slot) + 64, flags, j.private);
      StackMade(w, w1, w2, Now(), memory, h, slot, d, j, s, s2, SupplyOf(h), private, user, ok);
    }

    /** Fills the window of a space that was just entered: root, then stack. */
    method Furnish(ghost w: World, h: nat, slot: nat, flags: Flags, ghost private: bool) returns (ok: bool)
      requires Accounting() && slot < SLOTS && h in spaces && Recorded(w.spaces, w.place)
      requires Made(w, Now(), h, true, true) && Now() == w.(spaces := spaces) && spaces[h] == FreshSpace(slot, spaces[h].userMode)
      requires private ==> WindowsPrivate(w)
      modifies this`tables, this`memory, this`spaces, this`place, pmm`bits, pmm`usedFrames
      ensures Accounting() && pmm.Balance() == old(pmm.Balance()) && h in spaces
      ensures Made(w, Now(), h, private, flags.user && old(spaces)[h].userMode)
      ensures ok <==> CanMake(w.tables, kernelRoot, slot, [], old(pmm.FreeFrames()))
      ensures ok ==> Furnished(w, Now(), memory, h, slot, old(pmm.FreeFrames()), SupplyOf(h),
                               private && flags.user && old(spaces)[h].userMode && Isolation(w))
    {
      ghost var w1, s, user := Now(), SupplyOf(h), flags.user && spaces[h].userMode;
      StackNeeds(w.tables, kernelRoot, slot, s.free);
      ghost var d;
      ok, d := GiveRoot(w, h, slot, user);
      if ok {
        ok := MapStack(w, w1, h, slot, flags, private, user, d, s);
        assert ok ==> Furnished(w, Now(), memory, h, slot, s.free, SupplyOf(h), private && user && Isolation(w));
      }
    }

    method MakeSpace(h: nat, slot: nat, flags: Flags, userMode: bool) returns (ok: bool)
      requires Accounting() && Structured(Now()) && h !in spaces && slot < SLOTS && !slotUsed[slot]
      modifies this`tables, this`memory, this`spaces, this`place, this`slotUsed, this`holders, pmm`bits, pmm`usedFrames
      ensures Accounting() && pmm.Balance() == old(pmm.Balance())
      ensures ok ==> Made(old(Now()), Now(), h, old(WindowsPrivate(Now())), userMode && flags.user)
      ensures !ok ==> spaces == old(spaces) && place == old(place) && pmm.bits == old(pmm.bits) && slotUsed == old(slotUsed)
      ensures !ok && old(Isolation(Now()) && WindowsPrivate(Now())) ==>
                Structured(Now()) && Isolation(Now()) && Undisturbed(old(Now()), Now(), {})
      ensures !ok && Typed(tables) ==> Structured(Now())
      ensures ok <==> CanMake(old(tables), kernelRoot, slot, [], old(pmm.FreeFrames()))
      ensures ok ==> h in spaces && Furnished(old(Now()), Now(), memory, h, slot, old(pmm.FreeFrames()), SupplyOf(h),
                                              flags.user && userMode && old(Isolation(Now()) && WindowsPrivate(Now())))
    {
      ghost var w := Now();
      Enter(h, FreshSpace(slot, userMode), slot);
      ok := Furnish(w, h, slot, flags, WindowsPrivate(w));
      if !ok {
        Abandon(w, old(pmm.bits), old(slotUsed), old(holders), h, WindowsPrivate(w), flags.user && userMode);
      }
    }

    /**
     * Makes a space for pid (k64_vmm.c:243-294). Whatever step fails, every frame and the window taken for it go
     * back and the other spaces are as before; a space that is made has a window of its own and a zeroed stack. It is
     * made exactly if a window is free and the frames for root, directory, stack and the tables it lacks are there.
     */
    method AllocSpace(h: nat, pid: nat, flags: Flags, userMode: bool) returns (ok: bool)
      requires Accounting() && Structured(Now()) && h !in spaces
      modifies this`tables, this`memory, this`spaces, this`place, this`slotUsed, this`holders, pmm`bits, pmm`usedFrames
      ensures Accounting() && pmm.Balance() == old(pmm.Balance())
      ensures ok ==> Made(old(Now()), Now(), h, old(WindowsPrivate(Now())), pid != 0 && userMode && flags.user)
      ensures ok && pid == 0 ==> spaces[h] == Space(false, kernelRoot, 0, [], []) && tables == old(tables)
      ensures !ok ==> spaces == old(spaces) && place == old(place) && pmm.bits == old(pmm.bits) && slotUsed == old(slotUsed)
      ensures !ok && old(Isolation(Now()) && WindowsPrivate(Now())) ==>
                Structured(Now()) && Isolation(Now()) && Undisturbed(old(Now()), Now(), {})
      ensures !ok ==> pid != 0 && (Typed(tables) ==> Structured(Now()))
      ensures ok <==> pid == 0 || CanHost(old(tables), kernelRoot, old(slotUsed), pid, [], old(pmm.FreeFrames()))
      ensures ok && pid != 0 ==> h in spaces && forall slot :: NextSlot(old(slotUsed), pid, slot) ==>
                Furnished(old(Now()), Now(), memory, h, slot, old(pmm.FreeFrames()), SupplyOf(h),
                          flags.user && userMode && old(Isolation(Now()) && WindowsPrivate(Now())))
    {
      ghost var w := Now();
      if pid == 0 {
        Enter(h, Space(false, kernelRoot, 0, [], []), 0);
        return true;
      }
      var slot;
      ok, slot := FindSlot(pid);
      if !ok {
        return;
      }
      SlotBase(slot);
      assert NextSlot(slotUsed, pid, slot);
      forall k | NextSlot(slotUsed, pid, k) ensures k == slot {
        NextSlotUnique(slotUsed, pid, k, slot);
      }
      ok := MakeSpace(h, slot, flags, userMode);
    }

    /** A new user space with a program in it: the user reads the file at its addresses and zeros around it. */
    method MakeUserImage(h: nat, pid: nat, virt: nat, data: Option<seq<Byte>>, fileSize: nat, memSize: nat) returns (ok: bool)
      requires Accounting() && Healthy(Now()) && h !in spaces && pid != 0
      requires Fits(Now(), Map(h, virt, data, fileSize, memSize, true))
      modifies this`tables, this`memory, this`spaces, this`place, this`slotUsed, this`holders, pmm`bits, pmm`usedFrames
      ensures Accounting() && pmm.Balance() == old(pmm.Balance()) && Healthy(Now()) && Undisturbed(old(Now()), Now(), {h})
      ensures ok ==> h in spaces && forall a :: virt / PAGE <= a / PAGE < LastPage(virt, memSize) ==>
                Load(UserView(tables, spaces[h].root), memory, a) == Some(FileByte(virt, data, fileSize, a))
      ensures ok <==>
                memSize > 0 && CanHost(old(tables), kernelRoot, old(slotUsed), pid, Pages(virt / PAGE, LastPage(virt, memSize)), old(pmm.FreeFrames()))
    {
      ghost var w, used, free, ps := Now(), slotUsed, pmm.FreeFrames(), Pages(virt / PAGE, LastPage(virt, memSize));
      ok := AllocSpace(h, pid, Flags(true, true, true, false, 0), true);
      ghost var w1 := Now();
      if !ok {
        forall slot | NextSlot(used, pid, slot) ensures !CanMake(w.tables, kernelRoot, slot, ps, free) {
          CannotMakeMore(w.tables, kernelRoot, slot, ps, free);
        }
        UnmadeHealthy(w, w1);
        UndisturbedMore(w, w1, h);
        return;
      }
      MadeHealthy(w, w1, h, true);
      FitsStill(w, w1, {h}, Map(h, virt, data, fileSize, memSize, true));
      FitsFree(w1, h, Map(h, virt, data, fileSize, memSize, true));
      ghost var s := SupplyOf(h);
      ghost var slot := SlotChosen(w, used, pid, free);
      ok := MapRange(h, virt, data, fileSize, memSize, Flags(true, true, true, false, 0));
      if memSize > 0 {
        ImageProvided(w, w1, Now(), h, slot, ps, free, s, SupplyOf(h), ok);
      }
      ProgressHealthy(w1, Now(), h, true);
      UndisturbedTwice(w, w1, Now(), {h}, {h});
      assert {h} + {h} == {h};
    }

    /**
     * One mapping in a space that nobody points into, and its release. No pointer is left behind exactly if the mapping
     * takes no table or the last table there was on the walk is the space's own; otherwise a table of the kernel, or of
     * another space, points to a frame that was given back.
     */
    method MapAndRelease(h: nat, p: Page, frame: nat, flags: Flags)
      requires Accounting() && Structured(Now()) && h in spaces && !Hooked(Now(), h) && ValidPage(p)
      modifies this`tables, this`spaces, this`place, this`slotUsed, this`holders, pmm`bits, pmm`usedFrames
      ensures Accounting() && pmm.Balance() == old(pmm.Balance()) && spaces == old(spaces) - {h}
      ensures Typed(tables) <==> !old(MakesTable(h, p)) || Owner(old(place), Bottom(old(tables), old(spaces)[h].root, 4, p)) == Some(h)
      ensures old(Isolation(Now()) && spaces[h].root != 0) ==> (Typed(tables) <==> !old(MakesTable(h, p)) || old(FreePage(Now(), h, p)))
      ensures Typed(tables) ==> Structured(Now())
    {
      ghost var w := Now();
      var _ := MapPage(h, p, frame, flags);
      RoundIff(w, Now(), h, p);
      Release(h);
    }

    /**
     * A space of pid 0 shares the kernel's root. Mapped into once and released, it leaves the kernel's tables intact
     * exactly if the kernel's walk of the page already reaches a last table, or none can be had.
     */
    method PidZeroRound(h: nat, p: Page, frame: nat, flags: Flags)
      requires Accounting() && Structured(Now()) && h !in spaces && ValidPage(p)
      modifies this`tables, this`spaces, this`place, this`slotUsed, this`holders, pmm`bits, pmm`usedFrames
      ensures Accounting() && pmm.Balance() == old(pmm.Balance()) && spaces == old(spaces)
      ensures Typed(tables) <==>
                kernelRoot == 0 || !NeedsTables(old(tables), kernelRoot, 4, p) || forall f :: 0 <= f < pmm.Limit() ==> old(pmm.bits)[f]
    {
      JoinStructured(Now(), h, Space(false, kernelRoot, 0, [], []));
      CountZero(pmm.bits, 0, pmm.Limit());
      Register(h, Space(false, kernelRoot, 0, [], []), 0);
      NothingHeld(h);
      NothingHooked(h);
      MapAndRelease(h, p, frame, flags);
      assert spaces == old(spaces);
    }

    lemma {:induction false} NothingHeld(h: nat)
      requires Accounting() && h in spaces && spaces[h].tables == [] && spaces[h].frames == []
      ensures forall f :: f in place ==> place[f].space != h
    {
      forall f | f in place ensures place[f].space != h {
        assert PlacedWell(spaces, place, f);
      }
    }

    lemma {:induction false} NothingHooked(h: nat)
      requires forall f :: f in place ==> place[f].space != h
      ensures !Hooked(Now(), h) && forall f :: Owner(place, f) != Some(h)
    {
    }

    /**
     * The frames alone: spaces are entered, take frames for tables and data, and are released, in any order, whatever
     * the tables say, for pid 0 and any address. Every set bit stays accounted for.
     */
    method RunFrames(ops: seq<FrameOp>)
      requires Accounting()
      modifies this`tables, this`spaces, this`place, this`slotUsed, this`holders, pmm`bits, pmm`usedFrames
      ensures Accounting() && pmm.Balance() == old(pmm.Balance())
    {
      for i := 0 to |ops|
        invariant Accounting() && pmm.Balance() == old(pmm.Balance())
      {
        match ops[i]
        case Open(h, pid, userMode) =>
          if h !in spaces {
            if pid == 0 {
              Register(h, Space(false, kernelRoot, 0, [], []), 0);
            } else {
              var ok, slot := FindSlot(pid);
              if ok {
                SlotBase(slot);
                Register(h, FreshSpace(slot, userMode), slot);
              }
            }
          }
        case TakeFrame(h, table) =>
          if h in spaces {
            var _, _ := Take(h, table);
          }
        case Drop(h) => Release(h);
      }
    }

    /** Any operation, for any pid and any range. */
    method PerformAny(op: Op)
      requires Accounting() && Structured(Now()) && (op.Map? && op.data.Some? ==> op.fileSize <= |op.data.value|)
      modifies this`tables, this`memory, this`spaces, this`place, this`slotUsed, this`holders, pmm`bits, pmm`usedFrames
      ensures Accounting() && pmm.Balance() == old(pmm.Balance())
      ensures Typed(tables) ==> Structured(Now())
      ensures !Typed(tables) ==> !op.Map? && (op.Destroy? ==> Hooked(old(Now()), op.h) && Now() == Released(old(Now()), op.h))
    {
      match op
      case Create(h, pid, userMode) =>
        if h !in spaces {
          var _ := AllocSpace(h, pid, Flags(true, true, userMode, false, 0), userMode);
        }
      case Map(h, virt, data, fileSize, memSize, user) =>
        var _ := MapRange(h, virt, data, fileSize, memSize, Flags(true, true, user, false, 0));
      case Destroy(h) =>
        if h in spaces {
          ReleaseOrDangle(Now(), h);
        }
        Release(h);
    }

    /**
     * Any sequence of making, mapping and releasing spaces, for every pid and every range, up to the first operation that
     * leaves a pointer to a frame that was given back. Until then the tables stay sound; throughout, every frame is
     * accounted for. Only a release can leave one, on its own or after a space could not be made.
     */
    method RunAny(ops: seq<Op>) returns (done: nat, ghost before: World)
      requires Accounting() && Structured(Now())
      requires forall i :: 0 <= i < |ops| && ops[i].Map? && ops[i].data.Some? ==> ops[i].fileSize <= |ops[i].data.value|
      modifies this`tables, this`memory, this`spaces, this`place, this`slotUsed, this`holders, pmm`bits, pmm`usedFrames
      ensures Accounting() && pmm.Balance() == old(pmm.Balance()) && done <= |ops|
      ensures done == |ops| ==> Structured(Now())
      ensures done < |ops| ==> !Typed(tables) && !ops[done].Map? && Structured(before)
      ensures done < |ops| && ops[done].Destroy? ==> Hooked(before, ops[done].h) && Now() == Released(before, ops[done].h)
    {
      before := Now();
      for i := 0 to |ops|
        invariant Accounting() && pmm.Balance() == old(pmm.Balance()) && Structured(Now())
      {
        before := Now();
        PerformAny(ops[i]);
        if !Typed(tables) {
          return i, before;
        }
      }
      done := |ops|;
    }

    /** One operation of a run; a space is made only under a name that is not in use. */
    method Perform(op: Op)
      requires Accounting() && Healthy(Now()) && Fits(Now(), op)
      modifies this`tables, this`memory, this`spaces, this`place, this`slotUsed, this`holders, pmm`bits, pmm`usedFrames
      ensures Accounting() && pmm.Balance() == old(pmm.Balance())
      ensures Healthy(Now()) && Undisturbed(old(Now()), Now(), {op.h})
    {
      ghost var w := Now();
      var ok;
      match op
      case Create(h, pid, userMode) =>
        if h !in spaces {
          ok := AllocSpace(h, pid, Flags(true, true, userMode, false, 0), userMode);
          if ok {
            MadeHealthy(w, Now(), h, userMode);
          } else {
            UnmadeHealthy(w, Now());
            UndisturbedMore(w, Now(), h);
          }
        }
      case Map(h, virt, data, fileSize, memSize, user) =>
        if h in spaces {
          FitsFree(w, h, op);
        }
        ok := MapRange(h, virt, data, fileSize, memSize, Flags(true, true, user, false, 0));
        if h in w.spaces {
          ProgressHealthy(w, Now(), h, user);
        }
      case Destroy(h) =>
        if h in spaces {
          ReleasedHealthy(w, h);
        }
        Release(h);
    }

    /**
     * Any sequence of making, mapping and releasing spaces, with any failures on the way: the frames are accounted
     * for, and no table of the kernel or of a space the sequence does not name changes its translation.
     */
    method Run(ops: seq<Op>)
      requires Accounting() && Healthy(Now()) && forall i :: 0 <= i < |ops| ==> Fits(Now(), ops[i])
      modifies this`tables, this`memory, this`spaces, this`place, this`slotUsed, this`holders, pmm`bits, pmm`usedFrames
      ensures Accounting() && pmm.Balance() == old(pmm.Balance())
      ensures Healthy(Now()) && Undisturbed(old(Now()), Now(), set i | 0 <= i < |ops| :: ops[i].h)
    {
      ghost var w := Now();
      ghost var touched: set<nat> := {};
      for i := 0 to |ops|
        invariant Accounting() && pmm.Balance() == old(pmm.Balance())
        invariant Healthy(Now()) && Undisturbed(w, Now(), touched) && touched == set k | 0 <= k < i :: ops[k].h
      {
        ghost var w1 := Now();
        FitsStill(w, w1, touched, ops[i]);
        Perform(ops[i]);
        UndisturbedTwice(w, w1, Now(), touched, {ops[i].h});
        touched := touched + {ops[i].h};
      }
    }
  }

  /** Ranges where the kernel keeps no table are free for every space with a root of its own. */
  lemma {:induction false} FitsFree(w: World, h: nat, op: Op)
    requires Healthy(w) && h in w.spaces && op.Map? && Fits(w, op)
    ensures AllFree(w, h, op.virt / PAGE, LastPage(op.virt, op.memSize))
  {
    assert OwnRoot(w, h);
    forall v | op.virt / PAGE <= v < LastPage(op.virt, op.memSize) ensures FreePage(w, h, PageOf(v)) {
      assert Private(w, PageOf(v));
      PrivateIsFree(w, h, PageOf(v));
    }
  }

  lemma FitsStill(w: World, w': World, touched: set<nat>, op: Op)
    requires Undisturbed(w, w', touched) && Fits(w, op)
    ensures Fits(w', op)
  {
  }

  /** When no space is left, exactly the frames of the rest of the kernel are taken. */
  lemma {:induction false} NothingLeft(spaces: Spaces, place: Places, bits: seq<bool>, reserved: set<nat>, f: nat)
    requires Recorded(spaces, place) && Accounted(bits, reserved, place) && spaces == map[] && f < |bits|
    ensures bits[f] <==> f in reserved
  {
    assert AccountedFrame(bits, reserved, place, f) && PlacedWell(spaces, place, f);
  }

  lemma {:induction false} BootFrames(bits: seq<bool>, n: nat)
    requires 3 <= n <= |bits| && forall f :: 0 <= f < |bits| ==> bits[f] == (f < 3)
    ensures CountClear(bits, 0, n) == n - 3
  {
    if n > 3 {
      BootFrames(bits, n - 1);
    } else {
      assert CountClear(bits, 0, 2) == CountClear(bits, 0, 1) == CountClear(bits, 0, 0) == 0;
    }
  }

  /** A machine with 4 MiB of memory after booting. */
  method Boot() returns (pool: AddressSpacePool)
    ensures fresh(pool) && fresh(pool.pmm) && pool.Accounting() && pool.Now() == BootWorld()
    ensures pool.slotUsed == seq(SLOTS, _ => false) && pool.pmm.FreeFrames() == 1021
  {
    var bits := seq(MAX_FRAMES, f => f < 3);
    var pmm := new FrameAllocator(bits, 1024, 3);
    BootFrames(bits, 1024);
    BootHealthy();
    assert Accounted(bits, BootWorld().reserved, map[]) by {
      forall f ensures AccountedFrame(bits, BootWorld().reserved, map[], f) {
      }
    }
    pool := new AddressSpacePool(pmm, 1, ZeroWorld().tables, map[], BootWorld().reserved);
  }

  lemma {:induction false} ProgramFits(used: seq<bool>, data: seq<Byte>)
    requires 0 < |data| <= 0x1_0000 && used == seq(SLOTS, _ => false)
    ensures Healthy(BootWorld()) && Fits(BootWorld(), Map(5, Base(7), Some(data), |data|, |data|, true))
    ensures CanHost(BootWorld().tables, 1, used, 7, Pages(Base(7) / PAGE, LastPage(Base(7), |data|)), 1021)
  {
    BootHealthy();
    ProgramPages(|data|);
    assert NextSlot(used, 7, 7);
    SmallFits(BootWorld().tables, 1, 7, Pages(Base(7) / PAGE, LastPage(Base(7), |data|)), 1021);
  }

  /** With 4 MiB of memory the first program loads, and the user reads it byte for byte. */
  method FirstProgram(data: seq<Byte>) returns (pool: AddressSpacePool, ok: bool)
    requires 0 < |data| <= 0x1_0000
    ensures ok && 5 in pool.spaces
    ensures forall a :: Base(7) <= a < Base(7) + |data| ==>
              Load(UserView(pool.tables, pool.spaces[5].root), pool.memory, a) == Some(data[a - Base(7)])
  {
    pool := Boot();
    ProgramFits(pool.slotUsed, data);
    ok := pool.MakeUserImage(5, 7, Base(7), Some(data), |data|, |data|);
    ProgramReads(UserView(pool.tables, pool.spaces[5].root), pool.memory, data);
  }

  lemma {:induction false} ProgramReads(view: View, memory: map<nat, Block>, data: seq<Byte>)
    requires 0 < |data| <= 0x1_0000
    requires forall a :: Base(7) / PAGE <= a / PAGE < LastPage(Base(7), |data|) ==>
               Load(view, memory, a) == Some(FileByte(Base(7), Some(data), |data|, a))
    ensures forall a :: Base(7) <= a < Base(7) + |data| ==> Load(view, memory, a) == Some(data[a - Base(7)])
  {
    ProgramPages(|data|);
    forall a | Base(7) <= a < Base(7) + |data| ensures Load(view, memory, a) == Some(data[a - Base(7)]) {
      assert Base(7) / PAGE <= a / PAGE < LastPage(Base(7), |data|);
    }
  }
}
