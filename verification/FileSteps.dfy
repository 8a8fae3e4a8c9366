/** How the elementary changes to a volume act on its invariant, its names and its files. */
module FileSteps {
  import opened Blocks
  import opened FileSystem

  // ---------------------------------------------------------------------------------------
  // Inodes a change does not touch
  // ---------------------------------------------------------------------------------------

  /** Inode id and every block it owns are the same in v and w. */
  ghost predicate Untouched(v: Volume, w: Volume, id: int)
    requires Geometry(v) && Geometry(w)
  {
    && |v.blocks| == |w.blocks| && Live(v, id) && Live(w, id) && Ino(w, id) == Ino(v, id)
    && forall e, b :: Owns(v, id, e, b) && 0 <= b < |v.blocks| ==> w.blocks[b] == v.blocks[b]
  }

  /** The same kind of inode, with the same permissions and owners. */
  predicate SameOwner(i: Inode, j: Inode) { i.kind == j.kind && i.mode == j.mode && i.uid == j.uid && i.gid == j.gid }

  /** Inodes other than `except` stay live, with kind, mode and owners, and regular files among them keep their bytes. */
  ghost predicate FilesKept(v: Volume, w: Volume, except: int)
    requires Geometry(v) && Geometry(w)
  {
    forall id :: Live(v, id) && id != except ==>
      && Live(w, id) && SameOwner(Ino(v, id), Ino(w, id))
      && (Ino(v, id).kind == Regular ==> Ino(w, id) == Ino(v, id) && FileBytes(w, Ino(w, id)) == FileBytes(v, Ino(v, id)))
  }

  lemma {:induction false} UntouchedEntries(v: Volume, w: Volume, dir: int, k: int, s: int, e: Dirent)
    requires Geometry(v) && Geometry(w) && Untouched(v, w, dir) && GoodInode(v, dir)
    ensures At(v, dir, k, s, e) <==> At(w, dir, k, s, e)
  {
    if 0 <= k < |Ino(v, dir).extents| {
      assert Owns(v, dir, k, Ino(v, dir).extents[k].physical);
    }
  }

  lemma {:induction false} UntouchedBytes(v: Volume, w: Volume, id: int)
    requires Geometry(v) && Geometry(w) && Untouched(v, w, id)
    ensures FileBytes(w, Ino(w, id)) == FileBytes(v, Ino(v, id))
  {
    var i := Ino(v, id);
    forall e, b | 0 <= e < |i.extents| && Covers(i.extents[e], b) && 0 <= b < |v.blocks| ensures w.blocks[b] == v.blocks[b] {
      assert Owns(v, id, e, b);
    }
    forall j | 0 <= j < i.size ensures FileBytes(w, i)[j] == FileBytes(v, i)[j] {
      assert LogicalBlock(v, i.extents, j / BLOCK_SIZE) == LogicalBlock(w, i.extents, j / BLOCK_SIZE);
    }
  }

  lemma {:induction false} UntouchedFiles(v: Volume, w: Volume, except: int)
    requires Geometry(v) && Geometry(w)
    requires forall id :: Live(v, id) && id != except ==> Live(w, id) && SameOwner(Ino(v, id), Ino(w, id))
    requires forall id :: Live(v, id) && Ino(v, id).kind == Regular && id != except ==> Untouched(v, w, id)
    ensures FilesKept(v, w, except)
  {
    forall id | Live(v, id) && Ino(v, id).kind == Regular && id != except
      ensures FileBytes(w, Ino(w, id)) == FileBytes(v, Ino(v, id))
    {
      UntouchedBytes(v, w, id);
    }
  }

  /** All entries are the same. */
  ghost predicate SameEntries(v: Volume, w: Volume)
    requires Geometry(v) && Geometry(w)
  {
    forall dir, k, s, e :: At(v, dir, k, s, e) <==> At(w, dir, k, s, e)
  }

  ghost predicate SameNames(v: Volume, w: Volume)
    requires Geometry(v) && Geometry(w)
  {
    forall dir, name :: Find(v, dir, name) == Find(w, dir, name)
  }

  lemma {:induction false} SameEntriesKeepDirectories(v: Volume, w: Volume)
    requires Geometry(v) && Geometry(w) && SameEntries(v, w) && LinksUnique(v)
    ensures LinksUnique(w) && (NamesUnique(v) <==> NamesUnique(w))
    ensures NamesUnique(v) ==> SameNames(v, w)
    ensures forall id :: Linked(v, id) ==> Linked(w, id)
  {
    if NamesUnique(v) {
      forall dir, name ensures Find(v, dir, name) == Find(w, dir, name) {
        SameEntriesSameNames(v, w, dir, name);
      }
    }
    forall id | Linked(v, id) ensures Linked(w, id) {
      var dir, k, s, e :| At(v, dir, k, s, e) && e.id == id;
      assert At(w, dir, k, s, e);
    }
  }

  /** If only files change their inodes and blocks, all entries stay. */
  lemma {:induction false} DirectoriesUntouched(v: Volume, w: Volume)
    requires Geometry(v) && Geometry(w) && InodesGood(v)
    requires forall id :: Live(v, id) && Ino(v, id).kind == Directory ==> Untouched(v, w, id)
    requires forall id :: Live(w, id) && Ino(w, id).kind == Directory ==> Live(v, id) && Ino(v, id).kind == Directory
    ensures SameEntries(v, w)
  {
    forall dir, k, s, e ensures At(v, dir, k, s, e) <==> At(w, dir, k, s, e) {
      if At(v, dir, k, s, e) || At(w, dir, k, s, e) {
        UntouchedEntries(v, w, dir, k, s, e);
      }
    }
  }

  // ---------------------------------------------------------------------------------------
  // Giving a regular file new contents
  // ---------------------------------------------------------------------------------------

  ghost predicate OwnedBy(v: Volume, id: int, b: int)
    requires Geometry(v)
  {
    exists e :: Owns(v, id, e, b)
  }

  predicate InRun(start: nat, n: nat, b: int) { start <= b < start + n }

  /** w is v with file id moved to the blocks [start, start + n), taken from the ones free once its own are. */
  ghost predicate Rewritten(v: Volume, w: Volume, id: int, start: nat, n: nat)
    requires Geometry(v) && Live(v, id)
  {
    && Geometry(w) && |w.blocks| == |v.blocks|
    && w.inodeBits == v.inodeBits
    && w.inodes[id - 1].Some? && w.inodes == v.inodes[id - 1 := w.inodes[id - 1]]
    && Ino(w, id).id == id && Ino(w, id).kind == Regular
    && Ino(w, id).extents == (if n == 0 then [] else [Extent(0, start, n)])
    && (n > 0 ==> DATA_START <= start && start + n <= |v.blocks|)
    && (forall b :: 0 <= b < |v.blocks| ==> (w.blockBits[b] <==> InRun(start, n, b) || (v.blockBits[b] && !OwnedBy(v, id, b))))
    && (forall b :: 0 <= b < |v.blocks| && InRun(start, n, b) ==> v.blockBits[b] ==> OwnedBy(v, id, b))
    && (forall b :: 0 <= b < |v.blocks| && !InRun(start, n, b) ==> w.blocks[b] == v.blocks[b])
    && (forall b :: 0 <= b < |v.blocks| && InRun(start, n, b) ==> w.blocks[b].Data?)
  }

  lemma {:induction false} RewriteTouchesOne(v: Volume, w: Volume, id: int, start: nat, n: nat, x: int)
    requires Sound(v, 0) && Live(v, id) && Ino(v, id).kind == Regular && Rewritten(v, w, id, start, n)
    requires Live(v, x) && x != id
    ensures Untouched(v, w, x)
  {
    forall e, b | Owns(v, x, e, b) && 0 <= b < |v.blocks| ensures w.blocks[b] == v.blocks[b] {
      assert !OwnedBy(v, id, b);
    }
  }

  lemma {:induction false} RewriteKeepsOwnership(v: Volume, w: Volume, id: int, start: nat, n: nat)
    requires Sound(v, 0) && Live(v, id) && Ino(v, id).kind == Regular && Rewritten(v, w, id, start, n)
    ensures OwnershipGood(w)
  {
    forall i, e, b | Owns(w, i, e, b) && i != id ensures Owns(v, i, e, b) && !InRun(start, n, b) && !OwnedBy(v, id, b) {
      assert Owns(v, i, e, b);
      assert GoodInode(v, i);
      assert v.blockBits[b];
    }
    assert forall e, b :: Owns(w, id, e, b) ==> e == 0 && InRun(start, n, b);
  }

  lemma {:induction false} RewriteKeepsContents(v: Volume, w: Volume, id: int, start: nat, n: nat)
    requires Sound(v, 0) && Live(v, id) && Ino(v, id).kind == Regular && Rewritten(v, w, id, start, n)
    ensures ContentsGood(w)
  {
    assert forall x :: Live(w, x) && Ino(w, x).kind == Directory ==> x != id && Live(v, x) && Ino(v, x) == Ino(w, x);
    forall i, e, b | Owns(w, i, e, b) && 0 <= b < |w.blocks|
      ensures w.blocks[b].Dir? == (Ino(w, i).kind == Directory)
    {
      if i == id {
        assert InRun(start, n, b);
      } else {
        assert Owns(v, i, e, b);
        RewriteTouchesOne(v, w, id, start, n, i);
      }
    }
  }

  lemma {:induction false} RewriteKeepsInodes(v: Volume, w: Volume, id: int, start: nat, n: nat)
    requires Sound(v, 0) && Live(v, id) && Ino(v, id).kind == Regular && Rewritten(v, w, id, start, n)
    ensures InodesGood(w) && SameEntries(v, w)
  {
    forall x | 1 <= x <= MAX_INODES && w.inodeBits[x - 1] ensures Live(w, x) {
      assert Live(v, x);
    }
    forall x | Live(w, x) ensures GoodInode(w, x) {
      assert GoodInode(v, x);
    }
    forall x | Live(v, x) && x != id ensures Untouched(v, w, x) {
      RewriteTouchesOne(v, w, id, start, n, x);
    }
    DirectoriesUntouched(v, w);
  }

  /** New contents for one file keep the invariant, every name, and every other file. */
  lemma {:induction false} RewriteKeepsInv(v: Volume, w: Volume, id: int, start: nat, n: nat)
    requires Sound(v, 0) && Live(v, id) && Ino(v, id).kind == Regular && Rewritten(v, w, id, start, n) && Balanced(w)
    ensures Sound(w, 0) && FilesKept(v, w, id)
    ensures (NamesUnique(v) <==> NamesUnique(w)) && (NamesUnique(v) ==> SameNames(v, w))
  {
    forall x | Live(v, x) && x != id ensures Untouched(v, w, x) {
      RewriteTouchesOne(v, w, id, start, n, x);
    }
    RewriteKeepsOwnership(v, w, id, start, n);
    RewriteKeepsContents(v, w, id, start, n);
    RewriteKeepsInodes(v, w, id, start, n);
    SameEntriesKeepDirectories(v, w);
    UntouchedFiles(v, w, id);
  }

  // ---------------------------------------------------------------------------------------
  // A new inode without an entry, and the end of one
  // ---------------------------------------------------------------------------------------

  /** w is v with the unused inode number of i taken: an empty file, or a directory with the empty block b. */
  ghost predicate Adopted(v: Volume, w: Volume, i: Inode, b: nat)
    requires Geometry(v)
  {
    && Geometry(w) && 1 < i.id <= MAX_INODES && !v.inodeBits[i.id - 1]
    && w.inodeBits == v.inodeBits[i.id - 1 := true] && w.inodes == v.inodes[i.id - 1 := Some(i)]
    && match i.kind
       case Regular => i.extents == [] && w.blockBits == v.blockBits && w.blocks == v.blocks
       case Directory =>
         && DATA_START <= b < |v.blocks| && !v.blockBits[b]
         && i.extents == [Extent(0, b, 1)] && i.size == BLOCK_SIZE
         && w.blockBits == v.blockBits[b := true] && w.blocks == v.blocks[b := Dir(EmptySlots())]
  }

  lemma AdoptTouchesNone(v: Volume, w: Volume, i: Inode, b: nat, x: int)
    requires Inv(v) && Adopted(v, w, i, b) && Live(v, x)
    ensures Untouched(v, w, x) && x != i.id
  {
  }

  lemma {:induction false} AdoptKeepsInodes(v: Volume, w: Volume, i: Inode, b: nat)
    requires Inv(v) && Adopted(v, w, i, b)
    ensures InodesGood(w)
    ensures Live(w, i.id) && Ino(w, i.id) == i
    ensures forall x :: Live(w, x) && x != i.id ==> Live(v, x) && Ino(v, x) == Ino(w, x)
  {
    forall x | 1 <= x <= MAX_INODES && w.inodeBits[x - 1] ensures Live(w, x) {
      assert x != i.id ==> Live(v, x);
    }
    forall x | Live(w, x) && x != i.id ensures Live(v, x) && GoodInode(w, x) {
      assert GoodInode(v, x);
    }
  }

  lemma {:induction false} AdoptKeepsBlocks(v: Volume, w: Volume, i: Inode, b: nat)
    requires Inv(v) && Adopted(v, w, i, b)
    ensures OwnershipGood(w) && ContentsGood(w)
  {
    AdoptKeepsInodes(v, w, i, b);
    assert forall x, e, c :: Owns(w, x, e, c) && x != i.id ==> Owns(v, x, e, c);
    assert forall e, c :: Owns(w, i.id, e, c) ==> e == 0 && c == b && i.kind == Directory;
    if i.kind == Directory {
      assert forall x, e :: !Owns(v, x, e, b);
    }
  }

  lemma {:induction false} AdoptKeepsEntries(v: Volume, w: Volume, i: Inode, b: nat)
    requires Inv(v) && Adopted(v, w, i, b)
    ensures SameEntries(v, w)
  {
    forall dir, k, s, e ensures At(v, dir, k, s, e) <==> At(w, dir, k, s, e) {
      if Live(v, dir) {
        AdoptTouchesNone(v, w, i, b, dir);
        UntouchedEntries(v, w, dir, k, s, e);
      }
    }
  }

  lemma {:induction false} AdoptKeepsInv(v: Volume, w: Volume, i: Inode, b: nat)
    requires Inv(v) && Adopted(v, w, i, b) && Balanced(w)
    ensures InvExcept(w, i.id) && SameNames(v, w) && FilesKept(v, w, 0)
    ensures forall k, s, e :: !At(w, i.id, k, s, e)
  {
    AdoptKeepsInodes(v, w, i, b);
    AdoptKeepsBlocks(v, w, i, b);
    AdoptKeepsEntries(v, w, i, b);
    SameEntriesKeepDirectories(v, w);
    forall x | Live(v, x) ensures Untouched(v, w, x) {
      AdoptTouchesNone(v, w, i, b, x);
    }
    UntouchedFiles(v, w, 0);
  }

  /** w is v without the inode id and without its blocks. */
  ghost predicate Dropped(v: Volume, w: Volume, id: int)
    requires Geometry(v)
  {
    && Geometry(w) && 1 < id <= MAX_INODES
    && w.inodeBits == v.inodeBits[id - 1 := false] && w.inodes == v.inodes[id - 1 := w.inodes[id - 1]]
    && w.blocks == v.blocks
    && forall b :: 0 <= b < |v.blocks| ==> w.blockBits[b] == (v.blockBits[b] && !OwnedBy(v, id, b))
  }

  lemma {:induction false} DropKeepsBlocks(v: Volume, w: Volume, id: int)
    requires InvExcept(v, id) && Dropped(v, w, id) && Live(v, id)
    ensures InodesGood(w) && OwnershipGood(w) && ContentsGood(w)
    ensures forall x :: Live(w, x) <==> Live(v, x) && x != id
    ensures forall x :: Live(w, x) ==> Untouched(v, w, x)
  {
    assert forall x :: Live(w, x) <==> Live(v, x) && x != id;
    assert forall x :: Live(w, x) ==> Ino(v, x) == Ino(w, x) && GoodInode(v, x);
    assert forall x, e, c :: Owns(w, x, e, c) ==> Owns(v, x, e, c) && x != id;
  }

  /** Dropping an inode that has no entry and lists none keeps the invariant and every name. */
  lemma {:induction false} DropKeepsInv(v: Volume, w: Volume, id: int)
    requires InvExcept(v, id) && Dropped(v, w, id) && Live(v, id) && Balanced(w)
    requires forall k, s, e :: !At(v, id, k, s, e)
    ensures Inv(w) && SameNames(v, w) && FilesKept(v, w, id)
  {
    DropKeepsBlocks(v, w, id);
    forall dir, k, s, e ensures At(v, dir, k, s, e) <==> At(w, dir, k, s, e) {
      if Live(w, dir) {
        UntouchedEntries(v, w, dir, k, s, e);
      }
    }
    SameEntriesKeepDirectories(v, w);
    UntouchedFiles(v, w, id);
  }

  // ---------------------------------------------------------------------------------------
  // Directory entries: one more, one less
  // ---------------------------------------------------------------------------------------

  /** w is v with slot s of block k of directory dir set to e (and a new modification stamp). */
  ghost predicate SlotSet(v: Volume, w: Volume, dir: int, k: int, s: int, e: Dirent)
    requires Geometry(v)
  {
    && Geometry(w) && Live(v, dir) && Ino(v, dir).kind == Directory
    && 0 <= k < |Ino(v, dir).extents| && 0 <= s < DIRENTS_PER_BLOCK
    && w.inodeBits == v.inodeBits && w.blockBits == v.blockBits && w.free == v.free
    && w.inodes == v.inodes[dir - 1 := Some(Ino(v, dir).(modified := Ino(v, dir).modified + 1))]
    && var b := Ino(v, dir).extents[k].physical;
       b < |v.blocks| && w.blocks == v.blocks[b := Dir(Slots(v.blocks[b])[s := e])]
  }

  /** Setting a slot changes that entry and no other. */
  lemma {:induction false} SlotSetEntries(v: Volume, w: Volume, dir: int, k: int, s: int, e: Dirent, dir': int, k': int, s': int, e': Dirent)
    requires Geometry(v) && InodesGood(v) && OwnershipGood(v) && ContentsGood(v) && SlotSet(v, w, dir, k, s, e)
    ensures At(w, dir', k', s', e') <==>
              if (dir', k', s') == (dir, k, s) then e'.Dirent? && e' == e else At(v, dir', k', s', e')
  {
    var b := Ino(v, dir).extents[k].physical;
    assert GoodInode(v, dir) && Owns(v, dir, k, b);
    if Live(v, dir') && 0 <= k' < |Ino(v, dir').extents| {
      assert GoodInode(v, dir') && Owns(v, dir', k', Ino(v, dir').extents[k'].physical);
    }
  }

  lemma {:induction false} SlotSetKeepsBlocks(v: Volume, w: Volume, dir: int, k: int, s: int, e: Dirent)
    requires Geometry(v) && InodesGood(v) && OwnershipGood(v) && ContentsGood(v) && SlotSet(v, w, dir, k, s, e)
    ensures InodesGood(w) && OwnershipGood(w) && ContentsGood(w)
    ensures FilesKept(v, w, 0)
  {
    assert GoodInode(v, dir) && Owns(v, dir, k, Ino(v, dir).extents[k].physical);
    assert forall x :: Live(w, x) <==> Live(v, x);
    assert forall x :: Live(v, x) ==> SameOwner(Ino(v, x), Ino(w, x)) && Ino(w, x).extents == Ino(v, x).extents &&
                                      Ino(w, x).size == Ino(v, x).size && Ino(w, x).id == Ino(v, x).id && GoodInode(v, x);
    assert forall x, f, c :: Owns(w, x, f, c) <==> Owns(v, x, f, c);
    forall x | Live(v, x) && Ino(v, x).kind == Regular ensures Untouched(v, w, x) {
    }
    UntouchedFiles(v, w, 0);
  }

  /** What one changed slot does to all entries, as a formula. */
  ghost predicate OneSlotDiffers(v: Volume, w: Volume, dir: int, k: int, s: int, e: Dirent)
    requires Geometry(v) && Geometry(w)
  {
    forall dir', k', s', e' :: At(w, dir', k', s', e') <==>
      if (dir', k', s') == (dir, k, s) then e'.Dirent? && e' == e else At(v, dir', k', s', e')
  }

  lemma {:induction false} SlotSetDiffers(v: Volume, w: Volume, dir: int, k: int, s: int, e: Dirent)
    requires Geometry(v) && InodesGood(v) && OwnershipGood(v) && ContentsGood(v) && SlotSet(v, w, dir, k, s, e)
    ensures OneSlotDiffers(v, w, dir, k, s, e)
    ensures forall x :: Live(w, x) <==> Live(v, x)
    ensures forall x :: Live(v, x) ==> Ino(w, x).kind == Ino(v, x).kind
  {
    forall dir', k', s', e'
      ensures At(w, dir', k', s', e') <==>
                if (dir', k', s') == (dir, k, s) then e'.Dirent? && e' == e else At(v, dir', k', s', e')
    {
      SlotSetEntries(v, w, dir, k, s, e, dir', k', s', e');
    }
  }

  /** A changed slot keeps links unique if it leads to a new inode, and names if its name is new. */
  lemma SlotSetKeepsUnique(v: Volume, w: Volume, dir: int, k: int, s: int, e: Dirent)
    requires Geometry(v) && Geometry(w) && OneSlotDiffers(v, w, dir, k, s, e) && LinksUnique(v)
    requires e.Dirent? ==> forall dir', k', s', e' :: At(v, dir', k', s', e') ==> e'.id != e.id
    ensures LinksUnique(w)
    ensures NamesUnique(v) && (e.Dirent? ==> forall k', s', e' :: At(v, dir, k', s', e') ==> e'.name != e.name) ==> NamesUnique(w)
  {
  }

  lemma {:induction false} LinkKeepsDirectories(v: Volume, w: Volume, dir: int, k: int, s: int, e: Dirent)
    requires Geometry(v) && Geometry(w) && OneSlotDiffers(v, w, dir, k, s, e) && e.Dirent?
    requires EntriesGood(v, e.id) && AllLinked(v, e.id)
    requires forall x :: Live(w, x) <==> Live(v, x)
    requires forall x :: Live(v, x) ==> Ino(w, x).kind == Ino(v, x).kind
    requires forall e' :: !At(v, dir, k, s, e')
    requires Live(v, e.id) && e.id != ROOT && e.kind == Ino(v, e.id).kind && ValidName(e.name)
    requires At(w, dir, k, s, e)
    ensures EntriesGood(w, 0) && AllLinked(w, 0)
  {
    forall id | Live(w, id) && id != ROOT ensures Linked(w, id) {
      if id != e.id {
        assert Linked(v, id);
        var dir', k', s', e' :| At(v, dir', k', s', e') && e'.id == id;
        assert At(w, dir', k', s', e');
      }
    }
  }

  lemma {:induction false} UnlinkKeepsDirectories(v: Volume, w: Volume, dir: int, k: int, s: int, e: Dirent)
    requires Geometry(v) && Geometry(w) && OneSlotDiffers(v, w, dir, k, s, Free) && At(v, dir, k, s, e)
    requires EntriesGood(v, 0) && LinksUnique(v) && AllLinked(v, 0)
    requires forall x :: Live(w, x) <==> Live(v, x)
    requires forall x :: Live(v, x) ==> Ino(w, x).kind == Ino(v, x).kind
    ensures EntriesGood(w, e.id) && AllLinked(w, e.id)
  {
    forall id | Live(w, id) && id != ROOT && id != e.id ensures Linked(w, id) {
      assert Linked(v, id);
      var dir', k', s', e' :| At(v, dir', k', s', e') && e'.id == id;
      assert At(w, dir', k', s', e');
    }
  }

  /** Linking the orphan completes the volume; names stay unique exactly if the name was free. */
  lemma {:induction false} LinkKeepsSound(v: Volume, w: Volume, dir: int, k: int, s: int, e: Dirent)
    requires e.Dirent? && Sound(v, e.id) && SlotSet(v, w, dir, k, s, e) && SlotAt(v, dir, k, s) == Free
    requires Live(v, e.id) && e.id != ROOT && e.kind == Ino(v, e.id).kind && ValidName(e.name)
    ensures Sound(w, 0) && FilesKept(v, w, 0)
    ensures NamesUnique(w) ==> forall k', s', e' :: At(v, dir, k', s', e') ==> e'.name != e.name
    ensures NamesUnique(v) && (forall k', s', e' :: At(v, dir, k', s', e') ==> e'.name != e.name) ==> NamesUnique(w)
  {
    SlotSetKeepsBlocks(v, w, dir, k, s, e);
    SlotSetDiffers(v, w, dir, k, s, e);
    assert At(w, dir, k, s, e);
    SlotSetKeepsUnique(v, w, dir, k, s, e);
    LinkKeepsDirectories(v, w, dir, k, s, e);
    if NamesUnique(w) {
      forall k', s', e' | At(v, dir, k', s', e') ensures e'.name != e.name {
        assert At(w, dir, k', s', e');
      }
    }
  }

  lemma {:induction false} LinkNames(v: Volume, w: Volume, dir: int, k: int, s: int, e: Dirent, x: int, n: string)
    requires e.Dirent? && Geometry(v) && Geometry(w) && NamesUnique(v) && NamesUnique(w)
    requires OneSlotDiffers(v, w, dir, k, s, e) && At(w, dir, k, s, e) && forall e' :: !At(v, dir, k, s, e')
    ensures Find(w, x, n) == if x == dir && n == e.name then Some(e.id) else Find(v, x, n)
  {
    if x == dir && n == e.name {
      FindIs(w, dir, k, s, e);
    } else {
      SameEntriesSameNames(v, w, x, n);
    }
  }

  /** Taking an entry out leaves its inode an orphan. */
  lemma {:induction false} UnlinkKeepsInv(v: Volume, w: Volume, dir: int, k: int, s: int, e: Dirent)
    requires Inv(v) && At(v, dir, k, s, e) && SlotSet(v, w, dir, k, s, Free)
    ensures InvExcept(w, e.id) && FilesKept(v, w, 0)
    ensures forall x, n :: Find(w, x, n) == if x == dir && n == e.name then None else Find(v, x, n)
  {
    SlotSetKeepsBlocks(v, w, dir, k, s, Free);
    SlotSetDiffers(v, w, dir, k, s, Free);
    SlotSetKeepsUnique(v, w, dir, k, s, Free);
    UnlinkKeepsDirectories(v, w, dir, k, s, e);
    forall x, n ensures Find(w, x, n) == if x == dir && n == e.name then None else Find(v, x, n) {
      if !(x == dir && n == e.name) {
        SameEntriesSameNames(v, w, x, n);
      }
    }
  }

  /** w is v with the empty block b appended to directory dir. */
  ghost predicate DirGrown(v: Volume, w: Volume, dir: int, b: nat)
    requires Geometry(v)
  {
    && Geometry(w) && Live(v, dir) && Ino(v, dir).kind == Directory && |Ino(v, dir).extents| < DIRECT_EXTENTS
    && DATA_START <= b < |v.blocks| && !v.blockBits[b]
    && w.inodeBits == v.inodeBits && w.blockBits == v.blockBits[b := true] && w.blocks == v.blocks[b := Dir(EmptySlots())]
    && var i := Ino(v, dir);
       w.inodes == v.inodes[dir - 1 := Some(i.(extents := i.extents + [Extent(|i.extents|, b, 1)], size := i.size + BLOCK_SIZE))]
  }

  /** The grown directory owns one block more, which nobody owned. */
  ghost predicate OwnsMore(v: Volume, w: Volume, dir: int, n: int, b: int)
    requires Geometry(v) && Geometry(w)
  {
    && (forall x, f, c :: Owns(w, x, f, c) <==> Owns(v, x, f, c) || (x == dir && f == n && c == b))
    && (forall x, f :: !Owns(v, x, f, b))
  }

  lemma {:induction false} GrowOwns(v: Volume, w: Volume, dir: int, b: nat)
    requires Geometry(v) && InodesGood(v) && OwnershipGood(v) && DirGrown(v, w, dir, b)
    ensures OwnsMore(v, w, dir, |Ino(v, dir).extents|, b)
    ensures forall x :: Live(w, x) <==> Live(v, x)
    ensures forall x :: Live(v, x) && x != dir ==> Ino(w, x) == Ino(v, x)
  {
    assert forall x :: Live(w, x) <==> Live(v, x);
    assert forall x :: Live(v, x) && x != dir ==> Ino(w, x) == Ino(v, x);
  }

  lemma {:induction false} GrowKeepsInodes(v: Volume, w: Volume, dir: int, b: nat)
    requires Geometry(v) && InodesGood(v) && OwnershipGood(v) && DirGrown(v, w, dir, b)
    ensures InodesGood(w) && OwnershipGood(w)
  {
    GrowOwns(v, w, dir, b);
    forall x | Live(w, x) ensures GoodInode(w, x) {
      assert GoodInode(v, x);
    }
    forall x | 1 <= x <= MAX_INODES && w.inodeBits[x - 1] ensures Live(w, x) {
      assert Live(v, x);
    }
  }

  lemma {:induction false} GrowKeepsBlocks(v: Volume, w: Volume, dir: int, b: nat)
    requires Geometry(v) && InodesGood(v) && OwnershipGood(v) && ContentsGood(v) && DirGrown(v, w, dir, b)
    ensures InodesGood(w) && OwnershipGood(w) && ContentsGood(w)
    ensures forall x :: Live(v, x) && x != dir ==> Untouched(v, w, x)
  {
    GrowKeepsInodes(v, w, dir, b);
    GrowOwns(v, w, dir, b);
    forall x, e, c | Owns(w, x, e, c) && 0 <= c < |w.blocks| ensures w.blocks[c].Dir? == (Ino(w, x).kind == Directory) {
      if c != b {
        assert Owns(v, x, e, c);
      }
    }
  }

  lemma {:induction false} GrowKeepsEntries(v: Volume, w: Volume, dir: int, b: nat)
    requires Geometry(v) && InodesGood(v) && OwnershipGood(v) && ContentsGood(v) && DirGrown(v, w, dir, b)
    ensures SameEntries(v, w)
  {
    forall x, k, s, e ensures At(v, x, k, s, e) <==> At(w, x, k, s, e) {
      if x == dir && 0 <= k < |Ino(v, dir).extents| {
        assert GoodInode(v, dir) && Owns(v, dir, k, Ino(v, dir).extents[k].physical);
      } else if Live(v, x) && x != dir {
        GrowKeepsBlocks(v, w, dir, b);
        UntouchedEntries(v, w, x, k, s, e);
      }
    }
  }

  lemma {:induction false} GrowKeepsSound(v: Volume, w: Volume, dir: int, b: nat, orphan: int)
    requires Sound(v, orphan) && DirGrown(v, w, dir, b) && Balanced(w)
    ensures Sound(w, orphan) && SameEntries(v, w) && FilesKept(v, w, 0)
    ensures NamesUnique(v) ==> NamesUnique(w) && SameNames(v, w)
  {
    GrowKeepsBlocks(v, w, dir, b);
    GrowKeepsEntries(v, w, dir, b);
    SameEntriesKeepDirectories(v, w);
    UntouchedFiles(v, w, 0);
  }

  // ---------------------------------------------------------------------------------------
  // No block is lost
  // ---------------------------------------------------------------------------------------

  ghost predicate OwnedBySome(v: Volume, b: int)
    requires Geometry(v)
  {
    exists id :: OwnedBy(v, id, b)
  }

  /** A data block that is marked and belongs to nobody. */
  ghost predicate Lost(v: Volume, b: int)
    requires Geometry(v)
  {
    DATA_START <= b < |v.blocks| && v.blockBits[b] && !OwnedBySome(v, b)
  }

  /** Every block that is lost now was lost before. */
  ghost predicate NoneLost(v: Volume, w: Volume)
    requires Geometry(v) && Geometry(w)
  {
    forall b :: Lost(w, b) ==> Lost(v, b)
  }

  /** Blocks stay with an inode whose extents stay. */
  lemma {:induction false} StillOwned(v: Volume, w: Volume, id: int, b: int)
    requires Geometry(v) && Geometry(w) && OwnedBy(v, id, b) && Live(w, id) && Ino(v, id).extents <= Ino(w, id).extents
    ensures OwnedBySome(w, b)
  {
    var e :| Owns(v, id, e, b);
    assert Owns(w, id, e, b) && OwnedBy(w, id, b);
  }

  lemma {:induction false} ExtendsLoseNone(v: Volume, w: Volume, taken: set<int>)
    requires Geometry(v) && Geometry(w) && |v.blocks| == |w.blocks|
    requires forall id :: Live(v, id) ==> Live(w, id) && Ino(v, id).extents <= Ino(w, id).extents
    requires forall b :: 0 <= b < |v.blocks| && w.blockBits[b] ==> v.blockBits[b] || b in taken
    requires forall b :: b in taken ==> OwnedBySome(w, b)
    ensures NoneLost(v, w)
  {
    forall b | Lost(w, b) ensures Lost(v, b) {
      if OwnedBySome(v, b) {
        var id :| OwnedBy(v, id, b);
        StillOwned(v, w, id, b);
      }
    }
  }

  lemma {:induction false} AdoptLosesNone(v: Volume, w: Volume, i: Inode, b: nat)
    requires Inv(v) && Adopted(v, w, i, b)
    ensures NoneLost(v, w)
  {
    AdoptKeepsInodes(v, w, i, b);
    if i.kind == Directory {
      assert Owns(w, i.id, 0, b) && OwnedBy(w, i.id, b);
    }
    forall x | Live(v, x) ensures Live(w, x) && Ino(v, x).extents <= Ino(w, x).extents {
      AdoptTouchesNone(v, w, i, b, x);
    }
    ExtendsLoseNone(v, w, if i.kind == Directory then {b as int} else {});
  }

  lemma {:induction false} SlotSetLosesNone(v: Volume, w: Volume, dir: int, k: int, s: int, e: Dirent)
    requires Geometry(v) && SlotSet(v, w, dir, k, s, e)
    ensures NoneLost(v, w)
  {
    ExtendsLoseNone(v, w, {});
  }

  lemma {:induction false} GrowLosesNone(v: Volume, w: Volume, dir: int, b: nat)
    requires Geometry(v) && DirGrown(v, w, dir, b)
    ensures NoneLost(v, w)
  {
    var n := |Ino(v, dir).extents|;
    assert Ino(w, dir).extents[n] == Extent(n, b, 1);
    assert Owns(w, dir, n, b) && OwnedBy(w, dir, b);
    ExtendsLoseNone(v, w, {b as int});
  }

  lemma {:induction false} RewriteLosesNone(v: Volume, w: Volume, id: int, start: nat, n: nat)
    requires Geometry(v) && Live(v, id) && Rewritten(v, w, id, start, n)
    ensures NoneLost(v, w)
  {
    forall b | Lost(w, b) ensures Lost(v, b) {
      if InRun(start, n, b) {
        assert Owns(w, id, 0, b) && OwnedBy(w, id, b);
        assert OwnedBySome(w, b);
      } else if OwnedBySome(v, b) {
        var x :| OwnedBy(v, x, b);
        StillOwned(v, w, x, b);
      }
    }
  }

  lemma {:induction false} DropLosesNone(v: Volume, w: Volume, id: int)
    requires Geometry(v) && Dropped(v, w, id)
    ensures NoneLost(v, w)
  {
    forall b | Lost(w, b) ensures Lost(v, b) {
      if OwnedBySome(v, b) {
        var x :| OwnedBy(v, x, b);
        StillOwned(v, w, x, b);
      }
    }
  }
}
