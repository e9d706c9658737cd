/**
 * What the namespace operations promise, stated over the model in
 * `Namespace` for stores that satisfy `NamespaceInvariants.Valid`: what
 * creation allocates and writes, when removal and `forget` delete an inode,
 * what a rename moves, the error guards, and the statistics `statfs`
 * reports. The deviations of the source are shown next to the corrected
 * behaviour.
 */
module NamespaceLemmas {
  import opened Common
  import opened Strings
  import opened Inodes
  import opened MetaStores
  import opened SuperBlocks
  import opened Namespace
  import opened NamespaceInvariants

  /** The block size `getattr` reads is present and usable. */
  ghost predicate HasBlockSize(c: Config, m: Meta)
  {
    c.keys.blockSize in m.sb && m.sb[c.keys.blockSize] != 0
  }

  /** Under the invariant, `getattr` of a record succeeds exactly when the block size is usable. */
  lemma GetattrSpec(c: Config, m: Meta, id: nat)
    requires Valid(c, m)
    ensures Getattr(c, m, id).Ok? <==> id in m.records && HasBlockSize(c, m)
    ensures Getattr(c, m, id).Ok? ==>
      var a := Getattr(c, m, id).value;
      var r := m.records[id];
      && a.ino == id && a.mode == r.mode && a.size == r.size && a.nlink == r.nlink
      && a.blksize == m.sb[c.keys.blockSize]
      && (a.blksize > 0 ==> (a.blocks - 1) * a.blksize < a.size <= a.blocks * a.blksize)
  {
  }

  // ---------------------------------------------------------------------------
  // Creation

  /**
   * `_create`: a name already indexed is refused with EEXIST; any failure
   * leaves every store as it was; a success allocates the id one above the
   * superblock's free id, which no record held, stores the new record (one
   * link, size 0, the lookup count 1 and, for a regular file, the open count
   * 1) under it, indexes the name to it, appends it to the parent's list and,
   * for a directory, gives it `.` and `..`; nothing else changes and no list
   * loses an entry. When nothing stops it (a free name, a linked parent, a
   * usable block size and room for another inode) it succeeds.
   */
  lemma CreateSpec(c: Config, fs: Fs, parent: nat, name: string, mode: nat, target: Option<string>, now: int)
    requires Valid(c, fs.meta)
    ensures var (r, fs') := CreateEntry(c, fs, parent, name, mode, target, now);
      var m := fs.meta;
      var m' := fs'.meta;
      var k := c.keys;
      && (m.InodeId(parent, name).Some? ==> r == Err(Fuse(EEXIST)))
      && (r.Err? ==> fs' == fs)
      && (r.Ok? ==>
            var id := r.value.ino;
            && id == m.sb[k.freeInodeId] + 1 && id !in m.records
            && m'.sb[k.freeInodeId] == id
            && m'.records == m.records[id := NewInode(c.fsName, id, mode, Some(name), parent, 0, c.uid, c.gid,
                                                      target, 0, 1, now).(openCount := if IsReg(mode) then 1 else 0,
                                                                          lookupCount := 1)]
            && m'.index == m.index[(parent, name) := id]
            && ReverseKey(id, name) in m'.List(parent)
            && (IsDir(mode) ==> m'.List(id)[|m'.List(id)| - 2..] == [ReverseKey(id, "."), ReverseKey(parent, "..")])
            && ListsGrow(m, m')
            && r.value.mode == mode && r.value.nlink == 1 && r.value.size == 0
            && r.value.uid == c.uid && r.value.gid == c.gid
            && HasBlockSize(c, m') && fs'.bucket == fs.bucket && fs'.cache == fs.cache)
      && ((m.InodeId(parent, name).None? && parent in m.records && m.records[parent].nlink != 0
           && HasBlockSize(c, m) && k.IncrInodeCounter(m).0.Done?) ==> r.Ok?)
  {
    var m := fs.meta;
    var k := c.keys;
    if m.InodeId(parent, name).Some? {
      assert m.index[(parent, name)] in m.records;
      return;
    }
    if Getattr(c, m, parent).Err? || Getattr(c, m, parent).value.nlink == 0 {
      return;
    }
    var (got, m1) := k.FetchFreeInodeId(m);
    FetchFreeInodeIdIncreases(k, m);
    if got.Err? {
      return;
    }
    var id: nat := m.sb[k.freeInodeId] + 1;
    assert got.value == Some(id);
    assert m1.records == m.records && m1.index == m.index && m1.lists == m.lists;
    assert m1.sb[k.blockSize] == m.sb[k.blockSize] by {
      assert k.List()[2] != k.List()[1] && k.List()[2] != k.List()[3];
    }
    InsertSpec(c, m1, parent, name, id, mode, target, now);
  }

  /** After a successful `_create`, looking the name up in the parent finds the new inode. */
  lemma LookupAfterCreate(c: Config, fs: Fs, parent: nat, name: string, mode: nat, target: Option<string>, now: int,
                          fx: Fixes)
    requires Valid(c, fs.meta) && name != "." && name != ".."
    requires CreateEntry(c, fs, parent, name, mode, target, now).0.Ok?
    ensures var (r, fs') := CreateEntry(c, fs, parent, name, mode, target, now);
      var (l, _) := Lookup(c, fs', parent, name, fx);
      l.Ok? && l.value.ino == r.value.ino
  {
    CreateSpec(c, fs, parent, name, mode, target, now);
    CreateEntryValid(c, fs, parent, name, mode, target, now);
    LookupIndexed(c, CreateEntry(c, fs, parent, name, mode, target, now).1, parent, name, fx);
  }

  /** Looking up a name the parent indexes, other than `.` and `..`, finds the indexed inode. */
  lemma LookupIndexed(c: Config, fs: Fs, parent: nat, name: string, fx: Fixes)
    requires Valid(c, fs.meta) && HasBlockSize(c, fs.meta) && name != "." && name != ".."
    requires (parent, name) in fs.meta.index
    ensures Lookup(c, fs, parent, name, fx).0.Ok?
    ensures Lookup(c, fs, parent, name, fx).0.value.ino == fs.meta.index[(parent, name)]
  {
    var m := fs.meta;
    var id := m.index[(parent, name)];
    var r := m.records[id];
    assert r.id == id && m.Record(id) == Some(r);
    CountedValid(c, m, m.UpdateInode(r.(lookupCount := r.lookupCount + 1)), id);
    GetattrSpec(c, m.UpdateInode(r.(lookupCount := r.lookupCount + 1)), id);
  }

  /** `mkdir` refuses a name longer than 255 before it touches anything. */
  lemma MkdirNameTooLong(c: Config, fs: Fs, parent: nat, name: string, mode: nat, now: int)
    requires |name| > NameLimit
    ensures Mkdir(c, fs, parent, name, mode, now) == (Err(Fuse(ENAMETOOLONG)), fs)
  {
  }

  // ---------------------------------------------------------------------------
  // Removal

  lemma UnlinkedShape(m: Meta, parent: nat, name: string, id: nat)
    requires Keyed(m) && id in m.records
    ensures var m' := Unlinked(m, parent, name, id);
      && m'.records == m.records[id := m.records[id].(nlink := m.records[id].nlink - 1)]
      && m'.index == m.index - {(parent, name)}
      && m'.sb == m.sb
  {
  }

  /** `_remove` once the emptiness check has passed. */
  lemma RemoveShape(c: Config, fs: Fs, parent: nat, name: string, e: Attr, fx: Fixes)
    requires Keyed(fs.meta) && e.ino in fs.meta.records && |fs.meta.List(e.ino)| <= 2
    ensures var m2 := Unlinked(fs.meta, parent, name, e.ino);
      var ino := m2.records[e.ino];
      Remove(c, fs, parent, name, e, fx)
        == if e.nlink == 1 && ino.lookupCount == 0 then
             (Done, fs.(meta := c.keys.DecrInodeCounter(c.keys.DecrUsedSize(DeleteRecord(m2, e.ino, fx).value, ino.size)),
                        bucket := if IsReg(ino.mode) then fs.bucket.Delete(NatToString(e.ino)) else fs.bucket,
                        cache := if IsReg(ino.mode) then fs.cache.Remove(e.ino, 0) else fs.cache))
           else (Done, fs.(meta := m2))
  {
  }

  lemma DeletedShape(m: Meta, id: nat, fx: Fixes)
    requires id in m.records
    ensures var m' := DeleteRecord(m, id, fx).value;
      && m'.records == m.records - {id}
      && (forall key :: key in m'.index ==> key in m.index && m'.index[key] == m.index[key])
      && m'.sb == m.sb
  {
  }

  /** The superblock updates of a deletion change only the counter and the used size. */
  lemma ReleasedShape(k: SbKeys, m: Meta, v: int)
    requires k.Distinct() && k.inodeCounter in m.sb && k.freeInodeId in m.sb
    ensures var m' := k.DecrInodeCounter(k.DecrUsedSize(m, v));
      && m'.records == m.records && m'.index == m.index && m'.lists == m.lists
      && k.UsedSize(m') == k.UsedSize(m) - v
      && m'.sb[k.inodeCounter] == m.sb[k.inodeCounter] - 1
      && m'.sb[k.freeInodeId] == m.sb[k.freeInodeId]
  {
    assert k.List()[3] != k.List()[5] && k.List()[3] != k.List()[1] && k.List()[1] != k.List()[5];
  }

  /**
   * `_remove` of the entry `_get_entry` found: a list of more than two
   * entries is refused with ENOTEMPTY and nothing changes; otherwise the name
   * leaves the index (which only shrinks), and the inode is deleted exactly
   * when it had one link and no lookups, taking one from the inode counter,
   * its size from the used size and, for a regular file, its object and its
   * cached block 0 with it; otherwise it keeps its record with one link
   * fewer. Other records are untouched.
   */
  lemma RemoveSpec(c: Config, fs: Fs, parent: nat, name: string, e: Attr, fx: Fixes)
    requires Valid(c, fs.meta) && GetEntry(c, fs.meta, parent, name) == Ok(e)
    ensures e.ino in fs.meta.records
    ensures var (o, fs') := Remove(c, fs, parent, name, e, fx);
      var m := fs.meta;
      var m' := fs'.meta;
      var k := c.keys;
      var id := e.ino;
      var r := m.records[id];
      && (|m.List(id)| > 2 ==> o == Fail(Fuse(ENOTEMPTY)) && fs' == fs)
      && (|m.List(id)| <= 2 ==>
            && o == Done
            && (parent, name) !in m'.index
            && (forall key :: key in m'.index ==> key in m.index && m'.index[key] == m.index[key])
            && (id in m'.records <==> !(r.nlink == 1 && r.lookupCount == 0))
            && (id in m'.records ==> m'.records[id] == r.(nlink := r.nlink - 1) && m'.sb == m.sb)
            && (forall x :: x != id && x in m.records ==> x in m'.records && m'.records[x] == m.records[x])
            && (id !in m'.records ==>
                  && k.UsedSize(m') == k.UsedSize(m) - r.size
                  && k.inodeCounter in m'.sb && k.freeInodeId in m'.sb
                  && m'.sb[k.inodeCounter] == m.sb[k.inodeCounter] - 1
                  && m'.sb[k.freeInodeId] == m.sb[k.freeInodeId])
            && (id !in m'.records && IsReg(r.mode) ==>
                  NatToString(id) !in fs'.bucket.objects && !fs'.cache.Exists(id, 0)))
  {
    var m := fs.meta;
    if |m.List(e.ino)| <= 2 {
      var id := m.index[(parent, name)];
      assert e.ino == id && e.nlink == m.records[id].nlink;
      RemoveShape(c, fs, parent, name, e, fx);
      RemoveDone(c, fs, Remove(c, fs, parent, name, e, fx).1, parent, name, e, fx);
    }
  }

  /** The stores left by the two outcomes `RemoveShape` describes, once the name is unlisted. */
  lemma RemoveDone(c: Config, fs: Fs, fs': Fs, parent: nat, name: string, e: Attr, fx: Fixes)
    requires Keyed(fs.meta) && c.keys.Distinct() && c.keys.inodeCounter in fs.meta.sb && c.keys.freeInodeId in fs.meta.sb
    requires (parent, name) in fs.meta.index && fs.meta.index[(parent, name)] == e.ino
    requires e.ino in fs.meta.records && e.nlink == fs.meta.records[e.ino].nlink
    requires var m2 := Unlinked(fs.meta, parent, name, e.ino);
      var ino := m2.records[e.ino];
      fs' == if e.nlink == 1 && ino.lookupCount == 0 then
               fs.(meta := c.keys.DecrInodeCounter(c.keys.DecrUsedSize(DeleteRecord(m2, e.ino, fx).value, ino.size)),
                   bucket := if IsReg(ino.mode) then fs.bucket.Delete(NatToString(e.ino)) else fs.bucket,
                   cache := if IsReg(ino.mode) then fs.cache.Remove(e.ino, 0) else fs.cache)
             else fs.(meta := m2)
    ensures var m := fs.meta;
      var m' := fs'.meta;
      var k := c.keys;
      var id := e.ino;
      var r := m.records[id];
      && (parent, name) !in m'.index
      && (forall key :: key in m'.index ==> key in m.index && m'.index[key] == m.index[key])
      && (id in m'.records <==> !(r.nlink == 1 && r.lookupCount == 0))
      && (id in m'.records ==> m'.records[id] == r.(nlink := r.nlink - 1) && m'.sb == m.sb)
      && (forall x :: x != id && x in m.records ==> x in m'.records && m'.records[x] == m.records[x])
      && (id !in m'.records ==>
            && k.UsedSize(m') == k.UsedSize(m) - r.size
            && k.inodeCounter in m'.sb && k.freeInodeId in m'.sb
            && m'.sb[k.inodeCounter] == m.sb[k.inodeCounter] - 1
            && m'.sb[k.freeInodeId] == m.sb[k.freeInodeId])
      && (id !in m'.records && IsReg(r.mode) ==>
            NatToString(id) !in fs'.bucket.objects && !fs'.cache.Exists(id, 0))
  {
    var m := fs.meta;
    var id := e.ino;
    var m2 := Unlinked(m, parent, name, id);
    UnlinkedShape(m, parent, name, id);
    var ino := m2.records[id];
    if e.nlink == 1 && ino.lookupCount == 0 {
      DeletedShape(m2, id, fx);
      ReleasedShape(c.keys, DeleteRecord(m2, id, fx).value, ino.size);
    }
  }

  /**
   * The guards of `rmdir` and `unlink`, given a usable block size: a name
   * that is not indexed fails with ENOENT; `rmdir` refuses a non-directory
   * with ENOTDIR and `unlink` a directory with EISDIR; a failed guard
   * changes nothing.
   */
  lemma RemovalGuards(c: Config, fs: Fs, parent: nat, name: string, fx: Fixes)
    requires Valid(c, fs.meta) && HasBlockSize(c, fs.meta)
    ensures var m := fs.meta;
      && (Rmdir(c, fs, parent, name, fx).0 == Fail(Fuse(ENOENT)) <==> (parent, name) !in m.index)
      && (Unlink(c, fs, parent, name, fx).0 == Fail(Fuse(ENOENT)) <==> (parent, name) !in m.index)
      && (Rmdir(c, fs, parent, name, fx).0 == Fail(Fuse(ENOTDIR)) <==>
            (parent, name) in m.index && |name| <= NameLimit && !IsDir(m.records[m.index[(parent, name)]].mode))
      && (Unlink(c, fs, parent, name, fx).0 == Fail(Fuse(EISDIR)) <==>
            (parent, name) in m.index && IsDir(m.records[m.index[(parent, name)]].mode))
      && ((parent, name) !in m.index ==> Rmdir(c, fs, parent, name, fx).1 == fs && Unlink(c, fs, parent, name, fx).1 == fs)
  {
    var m := fs.meta;
    if (parent, name) in m.index {
      var id := m.index[(parent, name)];
      GetattrSpec(c, m, id);
      var e := GetEntry(c, m, parent, name).value;
      RemoveSpec(c, fs, parent, name, e, fx);
    }
  }

  // ---------------------------------------------------------------------------
  // Forget

  /**
   * One `forget` pair: without a record it fails; an inode is deleted
   * exactly when it has no links and its lookup count equals `n`, losing its
   * record and, for a regular file, its object and its cached blocks below
   * `size // DATA_BLOCK_SIZE` (with the tail fix, below the ceiling), while
   * later blocks and every other inode's blocks stay; otherwise nothing
   * changes, except that with the count fix the lookup count drops by `n`.
   */
  lemma ForgetOneSpec(c: Config, fs: Fs, id: nat, n: int, fx: Fixes)
    requires Valid(c, fs.meta)
    ensures var (o, fs') := ForgetOne(c, fs, id, n, fx);
      var m := fs.meta;
      && (id !in m.records ==> o == Fail(Crash(NoneValue)) && fs' == fs)
      && (id in m.records && !(m.records[id].nlink == 0 && m.records[id].lookupCount == n) ==>
            && o == Done
            && fs' == (if fx.forgetLowersCount
                       then fs.(meta := m.(records := m.records[id := m.records[id].(lookupCount := m.records[id].lookupCount - n)]))
                       else fs))
      && (id in m.records && m.records[id].nlink == 0 && m.records[id].lookupCount == n ==>
            var r := m.records[id];
            var kept := if fx.forgetDropsLastBlock then CeilDiv(r.size, c.dataBlockSize) else r.size / c.dataBlockSize;
            && o == Done && id !in fs'.meta.records
            && (forall x :: x != id && x in m.records ==> x in fs'.meta.records && fs'.meta.records[x] == m.records[x])
            && (IsReg(r.mode) ==>
                  && NatToString(id) !in fs'.bucket.objects
                  && (forall b: nat :: b < kept ==> !fs'.cache.Exists(id, b))
                  && (forall b: nat :: b >= kept ==> fs'.cache.Get(id, b) == fs.cache.Get(id, b)))
            && (forall i: nat, b: nat :: i != id ==> fs'.cache.Get(i, b) == fs.cache.Get(i, b)))
  {
    var m := fs.meta;
    if id in m.records {
      var r := m.records[id];
      if r.nlink == 0 && r.lookupCount == n {
        ForgetDeletes(c, fs, id, n, fx);
      } else {
        ForgetKeeps(c, fs, id, n, fx);
      }
    }
  }

  /** The case of one `forget` pair that keeps the inode. */
  lemma ForgetKeeps(c: Config, fs: Fs, id: nat, n: int, fx: Fixes)
    requires Keyed(fs.meta) && id in fs.meta.records
    requires !(fs.meta.records[id].nlink == 0 && fs.meta.records[id].lookupCount == n)
    ensures var m := fs.meta;
      ForgetOne(c, fs, id, n, fx)
        == (Done, if fx.forgetLowersCount
                  then fs.(meta := m.(records := m.records[id := m.records[id].(lookupCount := m.records[id].lookupCount - n)]))
                  else fs)
  {
    var r := fs.meta.records[id];
    assert r.id == id && fs.meta.Record(id) == Some(r);
  }

  /** The deleting case of one `forget` pair. */
  lemma ForgetDeletes(c: Config, fs: Fs, id: nat, n: int, fx: Fixes)
    requires Valid(c, fs.meta)
    requires id in fs.meta.records && fs.meta.records[id].nlink == 0 && fs.meta.records[id].lookupCount == n
    ensures var (o, fs') := ForgetOne(c, fs, id, n, fx);
      var m := fs.meta;
      var r := m.records[id];
      var kept := if fx.forgetDropsLastBlock then CeilDiv(r.size, c.dataBlockSize) else r.size / c.dataBlockSize;
      && o == Done && id !in fs'.meta.records
      && (forall x :: x != id && x in m.records ==> x in fs'.meta.records && fs'.meta.records[x] == m.records[x])
      && (IsReg(r.mode) ==>
            && NatToString(id) !in fs'.bucket.objects
            && (forall b: nat :: b < kept ==> !fs'.cache.Exists(id, b))
            && (forall b: nat :: b >= kept ==> fs'.cache.Get(id, b) == fs.cache.Get(id, b)))
      && (forall i: nat, b: nat :: i != id ==> fs'.cache.Get(i, b) == fs.cache.Get(i, b))
  {
    var r := fs.meta.records[id];
    assert r.id == id && fs.meta.Record(id) == Some(r);
    ForgottenSpec(c, fs, r, fx);
    assert ForgetOne(c, fs, id, n, fx) == Forgotten(c, fs, r, fx);
  }

  /** Deleting the inode whose record is `r`, when that record is stored under its own id. */
  lemma ForgottenSpec(c: Config, fs: Fs, r: InodeRecord, fx: Fixes)
    requires r.id in fs.meta.records
    ensures var (o, fs') := Forgotten(c, fs, r, fx);
      var m := fs.meta;
      var id := r.id;
      var kept := if fx.forgetDropsLastBlock then CeilDiv(r.size, c.dataBlockSize) else r.size / c.dataBlockSize;
      && o == Done && id !in fs'.meta.records
      && (forall x :: x != id && x in m.records ==> x in fs'.meta.records && fs'.meta.records[x] == m.records[x])
      && (IsReg(r.mode) ==>
            && NatToString(id) !in fs'.bucket.objects
            && (forall b: nat :: b < kept ==> !fs'.cache.Exists(id, b))
            && (forall b: nat :: b >= kept ==> fs'.cache.Get(id, b) == fs.cache.Get(id, b)))
      && (forall i: nat, b: nat :: i != id ==> fs'.cache.Get(i, b) == fs.cache.Get(i, b))
  {
    var id := r.id;
    assert FloorDiv(r.size, c.dataBlockSize) == r.size / c.dataBlockSize;
    var kept := if fx.forgetDropsLastBlock then CeilDiv(r.size, c.dataBlockSize) else r.size / c.dataBlockSize;
    var m1 := DeleteRecord(fs.meta, id, fx).value;
    DeletedShape(fs.meta, id, fx);
    ReleaseKeepsRecords(c.keys, m1, r.size);
    DropBlocksSpec(fs.cache, id, kept);
  }

  /** The superblock updates of a deletion leave the records alone. */
  lemma ReleaseKeepsRecords(k: SbKeys, m: Meta, v: int)
    ensures k.DecrInodeCounter(k.DecrUsedSize(m, v)).records == m.records
  {
  }

  /** Dropping an inode's blocks below `n` removes exactly those and keeps every other block. */
  lemma DropBlocksSpec(cache: CacheStores.Blocks, inode: nat, n: int)
    ensures forall b: nat :: b < n ==> !DropBlocks(cache, inode, n).Exists(inode, b)
    ensures forall b: nat :: b >= n ==> DropBlocks(cache, inode, n).Get(inode, b) == cache.Get(inode, b)
    ensures forall i: nat, b: nat :: i != inode ==> DropBlocks(cache, inode, n).Get(i, b) == cache.Get(i, b)
  {
  }

  // ---------------------------------------------------------------------------
  // Renames

  /**
   * The rename of an entry to a free name: the new key names the inode and
   * the old one is gone, the inode takes the new name (and, with the fix,
   * the new parent), its list entry leaves the old parent's list (first
   * match) and goes to the end of the new parent's, and nothing else
   * changes.
   */
  lemma MoveEntrySpec(c: Config, fs: Fs, oldParent: nat, oldName: string, newParent: nat, newName: string,
                      oe: Attr, fx: Fixes)
    requires Valid(c, fs.meta) && GetEntry(c, fs.meta, oldParent, oldName) == Ok(oe)
    ensures oe.ino in fs.meta.records
    ensures var (o, fs') := MoveEntry(fs, oldParent, oldName, newParent, newName, oe, fx);
      var m := fs.meta;
      var m' := fs'.meta;
      var id := oe.ino;
      var r := m.records[id];
      var dropped := RemoveFirst(m.List(oldParent), ReverseKey(id, oldName));
      && o == Done
      && m'.index == (m.index - {(oldParent, oldName)})[(newParent, newName) := id]
      && m'.records == m.records[id := r.(name := Some(newName),
                                          parentInodeId := if fx.renameMovesParent then newParent else r.parentInodeId)]
      && m'.List(newParent) == (if newParent == oldParent then dropped else m.List(newParent)) + [ReverseKey(id, newName)]
      && (newParent != oldParent ==> m'.List(oldParent) == dropped)
      && (forall d :: d != oldParent && d != newParent ==> m'.List(d) == m.List(d))
      && m'.sb == m.sb && fs'.bucket == fs.bucket && fs'.cache == fs.cache
  {
    var m := fs.meta;
    assert m.index[(oldParent, oldName)] == oe.ino && oe.ino in m.records;
    MoveEntryMeta(fs, oldParent, oldName, newParent, newName, oe, fx);
    MovedSpec(m, MoveEntry(fs, oldParent, oldName, newParent, newName, oe, fx).1.meta, oldParent, oldName, newParent,
              newName, oe.ino, fx);
  }

  /** The metadata of a move: the index, the record and the two lists, as `MoveEntrySpec` states them. */
  lemma MovedSpec(m: Meta, m': Meta, oldParent: nat, oldName: string, newParent: nat, newName: string, id: nat,
                  fx: Fixes)
    requires Keyed(m) && id in m.records
    requires m' == Moved(m, oldParent, oldName, newParent, newName, id, fx)
    ensures var r := m.records[id];
      var dropped := RemoveFirst(m.List(oldParent), ReverseKey(id, oldName));
      && m'.index == (m.index - {(oldParent, oldName)})[(newParent, newName) := id]
      && m'.records == m.records[id := r.(name := Some(newName),
                                          parentInodeId := if fx.renameMovesParent then newParent else r.parentInodeId)]
      && m'.List(newParent) == (if newParent == oldParent then dropped else m.List(newParent)) + [ReverseKey(id, newName)]
      && (newParent != oldParent ==> m'.List(oldParent) == dropped)
      && (forall d :: d != oldParent && d != newParent ==> m'.List(d) == m.List(d))
      && m'.sb == m.sb
  {
    MovedShape(m, oldParent, oldName, newParent, newName, id, fx);
  }

  /**
   * `_replace` onto the entry of another inode: a target with a non-empty
   * list is refused and nothing changes; otherwise the target loses a link,
   * its cached block 0 and both index keys are gone, and the source is
   * indexed and listed in the new parent under the kept name, which as
   * written is its OLD name.
   */
  lemma ReplaceSpec(c: Config, fs: Fs, oldParent: nat, oldName: string, newParent: nat, newName: string,
                    oe: Attr, ne: Attr, fx: Fixes)
    requires Valid(c, fs.meta)
    requires GetEntry(c, fs.meta, oldParent, oldName) == Ok(oe) && GetEntry(c, fs.meta, newParent, newName) == Ok(ne)
    requires oe.ino != ne.ino
    ensures oe.ino in fs.meta.records && ne.ino in fs.meta.records
    ensures var (o, fs') := Replace(fs, oldParent, oldName, newParent, newName, oe, ne, fx);
      var m := fs.meta;
      var m' := fs'.meta;
      var kept := if fx.replaceUsesNewName then newName else oldName;
      var t := m.records[ne.ino];
      && (|m.List(ne.ino)| > 0 ==> o.Fail? && fs' == fs)
      && (|m.List(ne.ino)| == 0 ==>
            && o == Done
            && m'.index == (m.index - {(newParent, newName)} - {(oldParent, oldName)})[(newParent, kept) := oe.ino]
            && m'.records[ne.ino] == t.(nlink := t.nlink - 1)
            && ReverseKey(oe.ino, kept) in m'.List(newParent)
            && !fs'.cache.Exists(ne.ino, 0)
            && (fx.replaceUsesNewName ==>
                  m'.records[oe.ino].name == Some(newName)
                  && m'.records[oe.ino].parentInodeId
                     == (if fx.renameMovesParent then newParent else m.records[oe.ino].parentInodeId))
            && (!fx.replaceUsesNewName ==> m'.records[oe.ino] == m.records[oe.ino]))
  {
    var m := fs.meta;
    assert m.index[(oldParent, oldName)] == oe.ino && m.index[(newParent, newName)] == ne.ino;
    if |m.List(ne.ino)| == 0 {
      ReplaceMeta(fs, oldParent, oldName, newParent, newName, oe, ne, fx);
      ReplacedRenamedShape(m, Replace(fs, oldParent, oldName, newParent, newName, oe, ne, fx).1.meta,
                           oldParent, oldName, newParent, newName, oe.ino, ne.ino, fx);
    }
  }

  /** The metadata of a replacement: both keys gone, the kept name indexed and listed, the target one link down. */
  lemma ReplacedRenamedShape(m: Meta, m': Meta, oldParent: nat, oldName: string, newParent: nat, newName: string,
                             id: nat, tid: nat, fx: Fixes)
    requires Keyed(m) && id in m.records && tid in m.records && id != tid
    requires m' == Renamed(Replaced(m, oldParent, oldName, newParent, newName, id, tid,
                                    if fx.replaceUsesNewName then newName else oldName), id, newParent, newName, fx)
    ensures var kept := if fx.replaceUsesNewName then newName else oldName;
      var t := m.records[tid];
      && m'.index == (m.index - {(newParent, newName)} - {(oldParent, oldName)})[(newParent, kept) := id]
      && m'.records[tid] == t.(nlink := t.nlink - 1)
      && ReverseKey(id, kept) in m'.List(newParent)
      && (fx.replaceUsesNewName ==>
            m'.records[id].name == Some(newName)
            && m'.records[id].parentInodeId == (if fx.renameMovesParent then newParent else m.records[id].parentInodeId))
      && (!fx.replaceUsesNewName ==> m'.records[id] == m.records[id])
  {
    var kept := if fx.replaceUsesNewName then newName else oldName;
    ReplacedShape(m, oldParent, oldName, newParent, newName, id, tid, kept);
    var t := m.records[tid];
    var a := m.UpdateInode(t.(nlink := t.nlink - 1));
    var b := a.RemoveFromList(oldParent, id, oldName);
    var d := b.RemoveFromList(newParent, tid, newName);
    AddToListGrows(d, newParent, id, kept);
  }

  /**
   * Finding, as written: renaming `oldName` onto an existing `newName` of
   * another inode (an empty target) leaves `newName` unindexed and indexes
   * the source as `oldName` in the new parent, so the new name no longer
   * resolves and the old name does.
   */
  lemma ReplaceKeepsOldName(c: Config, fs: Fs, oldParent: nat, oldName: string, newParent: nat, newName: string)
    requires Valid(c, fs.meta) && HasBlockSize(c, fs.meta)
    requires (oldParent, oldName) in fs.meta.index && (newParent, newName) in fs.meta.index
    requires fs.meta.index[(oldParent, oldName)] != fs.meta.index[(newParent, newName)]
    requires |fs.meta.List(fs.meta.index[(newParent, newName)])| == 0 && oldName != newName
    ensures var (o, fs') := Rename(c, fs, oldParent, oldName, newParent, newName, AsWritten);
      && o == Done
      && fs'.meta.InodeId(newParent, newName) == None
      && fs'.meta.InodeId(newParent, oldName) == Some(fs.meta.index[(oldParent, oldName)])
  {
    var m := fs.meta;
    GetattrSpec(c, m, m.index[(oldParent, oldName)]);
    GetattrSpec(c, m, m.index[(newParent, newName)]);
    var oe := GetEntry(c, m, oldParent, oldName).value;
    var ne := GetEntry(c, m, newParent, newName).value;
    ReplaceSpec(c, fs, oldParent, oldName, newParent, newName, oe, ne, AsWritten);
  }

  /**
   * Finding, corrected: the source takes the target's place under the new
   * name and parent, and the old name is free unless it is the same key.
   */
  lemma CorrectedReplaceTakesNewName(c: Config, fs: Fs, oldParent: nat, oldName: string, newParent: nat,
                                     newName: string)
    requires Valid(c, fs.meta) && HasBlockSize(c, fs.meta)
    requires (oldParent, oldName) in fs.meta.index && (newParent, newName) in fs.meta.index
    requires fs.meta.index[(oldParent, oldName)] != fs.meta.index[(newParent, newName)]
    requires |fs.meta.List(fs.meta.index[(newParent, newName)])| == 0
    ensures var (o, fs') := Rename(c, fs, oldParent, oldName, newParent, newName, Corrected);
      var id := fs.meta.index[(oldParent, oldName)];
      && o == Done
      && fs'.meta.InodeId(newParent, newName) == Some(id)
      && fs'.meta.InodeId(oldParent, oldName) == None
      && fs'.meta.records[id].name == Some(newName) && fs'.meta.records[id].parentInodeId == newParent
  {
    var m := fs.meta;
    GetattrSpec(c, m, m.index[(oldParent, oldName)]);
    GetattrSpec(c, m, m.index[(newParent, newName)]);
    var oe := GetEntry(c, m, oldParent, oldName).value;
    var ne := GetEntry(c, m, newParent, newName).value;
    ReplaceSpec(c, fs, oldParent, oldName, newParent, newName, oe, ne, Corrected);
  }

  // ---------------------------------------------------------------------------
  // Lookup of `..`

  /**
   * Finding, as written: in a directory just made by `mkdir`, looking up
   * `..` answers with the directory itself, not with its parent.
   */
  lemma DotDotIsSelf(c: Config, fs: Fs, parent: nat, name: string, mode: nat, now: int)
    requires Valid(c, fs.meta) && Mkdir(c, fs, parent, name, mode, now).0.Ok?
    ensures var (r, fs1) := Mkdir(c, fs, parent, name, mode, now);
      var (l, _) := Lookup(c, fs1, r.value.ino, "..", AsWritten);
      l.Ok? && l.value.ino == r.value.ino && r.value.ino != parent
  {
    MkdirShape(c, fs, parent, name, mode, now);
    var (r, fs1) := Mkdir(c, fs, parent, name, mode, now);
    GetattrSpec(c, fs1.meta, r.value.ino);
  }


  /** Finding, corrected: `..` of the new directory is its parent. */
  lemma CorrectedDotDotIsParent(c: Config, fs: Fs, parent: nat, name: string, mode: nat, now: int)
    requires Valid(c, fs.meta) && Mkdir(c, fs, parent, name, mode, now).0.Ok?
    ensures var (r, fs1) := Mkdir(c, fs, parent, name, mode, now);
      var (l, _) := Lookup(c, fs1, r.value.ino, "..", Corrected);
      l.Ok? && l.value.ino == parent
  {
    MkdirShape(c, fs, parent, name, mode, now);
    var (r, fs1) := Mkdir(c, fs, parent, name, mode, now);
    GetattrSpec(c, fs1.meta, parent);
  }

  /** A made directory is a new record, distinct from its parent, naming that parent, in a valid store with a block size. */
  lemma MkdirShape(c: Config, fs: Fs, parent: nat, name: string, mode: nat, now: int)
    requires Valid(c, fs.meta) && Mkdir(c, fs, parent, name, mode, now).0.Ok?
    ensures var (r, fs1) := Mkdir(c, fs, parent, name, mode, now);
      var id := r.value.ino;
      && Valid(c, fs1.meta) && HasBlockSize(c, fs1.meta)
      && id in fs1.meta.records && id != parent && parent in fs1.meta.records
      && fs1.meta.records[id].id == id && fs1.meta.records[id].parentInodeId == parent
  {
    CreateSpec(c, fs, parent, name, mode, None, now);
    CreateEntryValid(c, fs, parent, name, mode, None, now);
    var (r, fs1) := Mkdir(c, fs, parent, name, mode, now);
    GetattrSpec(c, fs.meta, parent);
  }


  // ---------------------------------------------------------------------------
  // rmdir of a long name

  /**
   * Finding, as written: `create` accepts a name longer than 255, and then
   * `rmdir` of that name returns the ENAMETOOLONG error object instead of
   * raising it, so it reports success and removes nothing.
   */
  lemma RmdirLongNameIsNoOp(c: Config, fs: Fs, parent: nat, name: string, mode: nat, now: int)
    requires Valid(c, fs.meta) && |name| > NameLimit && Create(c, fs, parent, name, mode, now).0.Ok?
    ensures var (_, fs1) := Create(c, fs, parent, name, mode, now);
      fs1.meta.InodeId(parent, name).Some? && Rmdir(c, fs1, parent, name, AsWritten) == (Done, fs1)
  {
    CreateSpec(c, fs, parent, name, mode, None, now);
    CreateEntryValid(c, fs, parent, name, mode, None, now);
    var (r, fs1) := CreateEntry(c, fs, parent, name, mode, None, now);
    GetattrSpec(c, fs1.meta, r.value.ino);
  }

  /** Finding, corrected: the same `rmdir` fails with ENAMETOOLONG. */
  lemma CorrectedRmdirLongNameFails(c: Config, fs: Fs, parent: nat, name: string, mode: nat, now: int)
    requires Valid(c, fs.meta) && |name| > NameLimit && Create(c, fs, parent, name, mode, now).0.Ok?
    ensures var (_, fs1) := Create(c, fs, parent, name, mode, now);
      Rmdir(c, fs1, parent, name, Corrected) == (Fail(Fuse(ENAMETOOLONG)), fs1)
  {
    CreateSpec(c, fs, parent, name, mode, None, now);
    CreateEntryValid(c, fs, parent, name, mode, None, now);
    var (r, fs1) := CreateEntry(c, fs, parent, name, mode, None, now);
    GetattrSpec(c, fs1.meta, r.value.ino);
  }

  // ---------------------------------------------------------------------------
  // link into an unlinked directory

  /**
   * Finding, as written: `link` into a directory whose link count is 0
   * fails formatting a name `link` does not define, instead of with EINVAL;
   * nothing changes either way.
   */
  lemma LinkUnlinkedParentCrashes(c: Config, fs: Fs, id: nat, newParent: nat, newName: string)
    requires Valid(c, fs.meta) && HasBlockSize(c, fs.meta)
    requires newParent in fs.meta.records && fs.meta.records[newParent].nlink == 0
    ensures Link(c, fs, id, newParent, newName, AsWritten) == (Err(Crash(Undefined)), fs)
  {
    GetattrSpec(c, fs.meta, newParent);
  }

  /** Finding, corrected: the same `link` fails with EINVAL. */
  lemma CorrectedLinkUnlinkedParentFails(c: Config, fs: Fs, id: nat, newParent: nat, newName: string)
    requires Valid(c, fs.meta) && HasBlockSize(c, fs.meta)
    requires newParent in fs.meta.records && fs.meta.records[newParent].nlink == 0
    ensures Link(c, fs, id, newParent, newName, Corrected) == (Err(Fuse(EINVAL)), fs)
  {
    GetattrSpec(c, fs.meta, newParent);
  }

  // ---------------------------------------------------------------------------
  // The root's index entry

  /** A store ready for `setup_root_inode`: empty, with a usable superblock whose free id is 1. */
  ghost predicate Fresh(c: Config, m: Meta)
  {
    && c.keys.Distinct() && c.keys.Bounded(m) && HasBlockSize(c, m)
    && m.records == map[] && m.index == map[] && m.lists == map[]
    && c.keys.freeInodeId in m.sb && m.sb[c.keys.freeInodeId] == 1
  }

  /**
   * Finding, as written: `put_inode` indexes the nameless root under the
   * name "None" in itself, so in a fresh filesystem `rmdir` of "None" in the
   * root succeeds and deletes the root's record, and "None" cannot be
   * created there.
   */
  lemma RootNamedNone(c: Config, fs: Fs, now: int, mode: nat, target: Option<string>, fx: Fixes)
    requires Fresh(c, fs.meta)
    ensures var fs0 := fs.(meta := SetupRoot(c, fs.meta, now));
      && Rmdir(c, fs0, RootInode, "None", fx).0 == Done
      && RootInode !in Rmdir(c, fs0, RootInode, "None", fx).1.meta.records
      && CreateEntry(c, fs0, RootInode, "None", mode, target, now).0 == Err(Fuse(EEXIST))
  {
    var m0 := SetupRoot(c, fs.meta, now);
    var fs0 := fs.(meta := m0);
    SetupRootValid(c, fs.meta, now);
    assert m0.index == map[(RootInode, "None") := RootInode];
    GetattrSpec(c, m0, RootInode);
    var e := GetEntry(c, m0, RootInode, "None").value;
    assert m0.List(RootInode) == [ReverseKey(RootInode, ".."), ReverseKey(RootInode, ".")];
    assert IsDir(e.mode);
    RemoveSpec(c, fs0, RootInode, "None", e, fx);
    assert Rmdir(c, fs0, RootInode, "None", fx) == Remove(c, fs0, RootInode, "None", e, fx);
  }

  /** Finding, corrected: without that entry the root is valid and no name in it reaches the root itself. */
  lemma CorrectedRootUnnamed(c: Config, fs: Fs, now: int, name: string, fx: Fixes)
    requires Fresh(c, fs.meta)
    ensures var fs0 := fs.(meta := CorrectedSetupRoot(c, fs.meta, now));
      && Valid(c, fs0.meta) && RootInode in fs0.meta.records
      && Rmdir(c, fs0, RootInode, name, fx) == (Fail(Fuse(ENOENT)), fs0)
      && Unlink(c, fs0, RootInode, name, fx) == (Fail(Fuse(ENOENT)), fs0)
  {
  }

  // ---------------------------------------------------------------------------
  // forget

  ghost function Total(items: seq<(nat, int)>): int
  {
    if |items| == 0 then 0 else items[0].1 + Total(items[1..])
  }

  /**
   * Finding, as written: `forget` compares `lookup_count - n` with 0 but never
   * stores the lowered count, so an unlinked inode looked up twice and
   * forgotten one lookup at a time is never deleted.
   */
  lemma ForgetInStepsKeepsInode(c: Config, fs: Fs, id: nat)
    requires Valid(c, fs.meta) && id in fs.meta.records
    requires fs.meta.records[id].nlink == 0 && fs.meta.records[id].lookupCount == 2
    ensures Forget(c, fs, [(id, 1), (id, 1)], AsWritten) == (Done, fs)
  {
    ForgetOneSpec(c, fs, id, 1, AsWritten);
    var items := [(id, 1), (id, 1)];
    assert ForgetOne(c, fs, id, 1, AsWritten) == (Done, fs);
    assert items[1..] == [(id, 1)];
    assert Forget(c, fs, [(id, 1)], AsWritten) == Forget(c, fs, [], AsWritten) by {
      assert [(id, 1)][1..] == [];
    }
  }

  /**
   * Finding, corrected: with the lowered count stored, forgetting an
   * unlinked inode's lookups in any number of positive steps that add up to
   * its lookup count deletes it.
   */
  lemma {:induction false} CorrectedForgetInSteps(c: Config, fs: Fs, id: nat, items: seq<(nat, int)>)
    requires Valid(c, fs.meta) && id in fs.meta.records && fs.meta.records[id].nlink == 0
    requires |items| > 0 && Total(items) == fs.meta.records[id].lookupCount
    requires forall i :: 0 <= i < |items| ==> items[i].0 == id && items[i].1 > 0
    ensures Forget(c, fs, items, Corrected).0 == Done
    ensures id !in Forget(c, fs, items, Corrected).1.meta.records
    decreases |items|
  {
    var r := fs.meta.records[id];
    var n := items[0].1;
    var (o, fs1) := ForgetOne(c, fs, id, n, Corrected);
    ForgetOneSpec(c, fs, id, n, Corrected);
    if r.lookupCount - n == 0 {
      if |items| > 1 {
        TotalPositive(items[1..]);
      }
      assert items[1..] == [];
    } else {
      ForgetOneValid(c, fs, id, n, Corrected);
      assert fs1.meta.records[id] == r.(lookupCount := r.lookupCount - n);
      CorrectedForgetInSteps(c, fs1, id, items[1..]);
    }
  }

  lemma {:induction false} TotalPositive(items: seq<(nat, int)>)
    requires |items| > 0 && forall i :: 0 <= i < |items| ==> items[i].1 > 0
    ensures Total(items) > 0
    decreases |items|
  {
    if |items| > 1 {
      TotalPositive(items[1..]);
    }
  }

  /**
   * Finding, as written: `forget` drops the cached blocks below
   * `size // B`, so the block holding a file's partial last block (for a
   * file shorter than one block, its only block) stays in the cache after
   * the file is deleted.
   */
  lemma ForgetKeepsTailBlock(c: Config, fs: Fs, id: nat, n: int)
    requires Valid(c, fs.meta) && c.dataBlockSize > 0 && id in fs.meta.records
    requires var r := fs.meta.records[id];
      r.nlink == 0 && r.lookupCount == n && IsReg(r.mode) && r.size % c.dataBlockSize != 0
      && fs.cache.Exists(id, r.size / c.dataBlockSize)
    ensures var (o, fs') := ForgetOne(c, fs, id, n, AsWritten);
      var r := fs.meta.records[id];
      o == Done && id !in fs'.meta.records
      && r.size / c.dataBlockSize * c.dataBlockSize < r.size
      && fs'.cache.Exists(id, r.size / c.dataBlockSize)
  {
    ForgetOneSpec(c, fs, id, n, AsWritten);
  }

  /** Finding, corrected: every cached block that holds a byte of the deleted file is dropped. */
  lemma CorrectedForgetDropsAllBlocks(c: Config, fs: Fs, id: nat, n: int)
    requires Valid(c, fs.meta) && c.dataBlockSize > 0 && id in fs.meta.records
    requires var r := fs.meta.records[id];
      r.nlink == 0 && r.lookupCount == n && IsReg(r.mode)
    ensures var (o, fs') := ForgetOne(c, fs, id, n, Corrected);
      var r := fs.meta.records[id];
      o == Done && id !in fs'.meta.records
      && forall b: nat :: b * c.dataBlockSize < r.size ==> !fs'.cache.Exists(id, b)
  {
    var r := fs.meta.records[id];
    var q := CeilDiv(r.size, c.dataBlockSize);
    ForgetOneSpec(c, fs, id, n, Corrected);
    forall b: nat | b * c.dataBlockSize < r.size
      ensures b < q
    {
      BelowCeil(b, r.size, c.dataBlockSize, q);
    }
  }

  /** A block starting below `a` has an index below the block count `q`, where `q * k` reaches `a`. */
  lemma BelowCeil(b: int, a: int, k: nat, q: int)
    requires k > 0 && b * k < a <= q * k
    ensures b < q
  {
    assert (q - b) * k == q * k - b * k;
    PositiveFactor(q - b, k);
  }

  lemma PositiveFactor(x: int, k: nat)
    requires k > 0 && x * k > 0
    ensures x > 0
  {
  }

  // ---------------------------------------------------------------------------
  // statfs and readdir

  /**
   * `statfs` over a valid superblock: it answers exactly when the block size
   * is set and non-zero; the file counts are the limit and what the counter
   * leaves of it, never negative; with a positive block size the block
   * counts are the total and the unused size rounded down to whole blocks.
   */
  lemma StatfsSpec(c: Config, m: Meta)
    requires Valid(c, m)
    ensures Statfs(c, m).Ok? <==> HasBlockSize(c, m)
    ensures Statfs(c, m).Ok? ==>
      var st := Statfs(c, m).value;
      var k := c.keys;
      && st.bsize == m.sb[k.blockSize] && st.frsize == st.bsize
      && st.files == m.sb[k.maxInodes] && st.ffree == st.favail == m.sb[k.maxInodes] - m.sb[k.inodeCounter]
      && st.ffree >= 0 && st.bavail == st.bfree
      && (st.bsize > 0 ==>
            && st.blocks * st.bsize <= k.TotalSize(m) < (st.blocks + 1) * st.bsize
            && st.bfree * st.bsize <= k.TotalSize(m) - k.UsedSize(m) < (st.bfree + 1) * st.bsize
            && st.bfree >= 0)
  {
    var k := c.keys;
    if HasBlockSize(c, m) {
      var b := m.sb[k.blockSize];
      var st := Statfs(c, m).value;
      if b > 0 {
        assert st.bfree * b <= k.TotalSize(m) - k.UsedSize(m) < (st.bfree + 1) * b;
      }
    }
  }

  /**
   * `readdir(id, off)` over a valid state: the listing answers exactly when
   * the block size is set, every entry from position `off` on decodes and
   * names an inode that exists; the `i`-th entry then carries the name and
   * inode of the `(off + i)`-th list entry, that inode's attributes and the
   * position after it.
   */
  lemma ReaddirSpec(c: Config, m: Meta, id: nat, off: nat)
    requires Valid(c, m)
    ensures var l := m.List(id);
      var from := Min(off, |l|);
      && (Readdir(c, m, id, off).Ok? <==>
            (from == |l| || HasBlockSize(c, m))
            && forall i :: from <= i < |l| ==>
                 DecodeEntry(l[i]).Some? && DecodeEntry(l[i]).value.0 in m.records)
      && (Readdir(c, m, id, off).Ok? ==>
            var ds := Readdir(c, m, id, off).value;
            && |ds| == |l| - from
            && forall i :: 0 <= i < |ds| ==>
                 && DecodeEntry(l[from + i]) == Some((ds[i].attr.ino, ds[i].name))
                 && ds[i].attr == Getattr(c, m, ds[i].attr.ino).value
                 && ds[i].next == off + i + 1)
  {
    var l := m.List(id);
    var from := Min(off, |l|);
    var s := l[from..];
    var (es, stopped) := DecodeEntries(s);
    var r := DirEntries(c, m, es, off);
    forall i | 0 <= i < |es|
      ensures Getattr(c, m, es[i].0).Ok? <==> es[i].0 in m.records && HasBlockSize(c, m)
      ensures Getattr(c, m, es[i].0).Ok? ==> Getattr(c, m, es[i].0).value.ino == es[i].0
    {
      GetattrSpec(c, m, es[i].0);
    }
    if Readdir(c, m, id, off).Ok? {
      assert !stopped && |es| == |s|;
      forall i | from <= i < |l|
        ensures DecodeEntry(l[i]).Some? && DecodeEntry(l[i]).value.0 in m.records
      {
        assert s[i - from] == l[i];
      }
    }
    if (from == |l| || HasBlockSize(c, m))
       && forall i :: from <= i < |l| ==> DecodeEntry(l[i]).Some? && DecodeEntry(l[i]).value.0 in m.records {
      forall i | 0 <= i < |es|
        ensures Getattr(c, m, es[i].0).Ok?
      {
        assert s[i] == l[from + i];
      }
    }
  }
}
