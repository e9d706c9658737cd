/**
 * The namespace operations of `ObjectFsOperations`
 * (objectfs/core/objectfs_operations.py): attributes, lookup, creation,
 * removal, links, renames, directory listing, filesystem statistics and
 * `forget`, each as a function from the stores' contents before the call to
 * the result and the contents after it. A failure raised part-way leaves the
 * changes made before it in place, as the source does.
 */
module Namespace {
  import opened Common
  import opened Strings
  import opened Inodes
  import opened MetaStores
  import opened SuperBlocks
  import Objects
  import CacheStores
  import FragmentMaps
  import BlockSets
  import MergeQueues

  /** `DIR_MODE`: a directory readable, writable and searchable by everyone. */
  const DirMode: nat := IfDir + 0x1FF
  /** The mode `symlink` gives a link: `S_IFLNK` and all nine permission bits. */
  const LinkMode: nat := IfLnk + 0x1FF
  /** `FS_FILE_NAME_LENGTH`. */
  const NameLimit: nat := 255

  /**
   * What an operation object is built with: the filesystem's name, its
   * superblock keys, `DATA_BLOCK_SIZE`, and the uid and gid of the mounting
   * process (the defaults `Inode` takes from `os.getuid()`/`os.getgid()`).
   */
  datatype Config = Config(fsName: string, keys: SbKeys, dataBlockSize: BlockSize, uid: int, gid: int)

  /**
   * Everything the operations read or change: the metadata store, the
   * bucket, the block cache, the fragment index, the dirty and clean block
   * sets, the merge queue, and the multipart mode's in-process maps of
   * dirty blocks and written fragments per inode.
   */
  datatype Fs = Fs(
    meta: Meta,
    bucket: Objects.Bucket,
    cache: CacheStores.Blocks,
    fragments: FragmentMaps.Index,
    dirty: BlockSets.Sets,
    clean: BlockSets.Sets,
    queue: MergeQueues.Queues,
    localDirty: map<nat, set<nat>>,
    localFragments: map<nat, seq<(nat, nat, int)>>)

  /** The `llfuse.EntryAttributes` `getattr` fills in (the fixed timeouts and generation are left out). */
  datatype Attr = Attr(
    ino: nat, mode: nat, gid: int, uid: int, size: int,
    atime: int, ctime: int, mtime: int, rdev: int, nlink: int,
    blksize: int, blocks: int)

  /** The `llfuse.StatvfsData` `statfs` fills in. */
  datatype StatFs = StatFs(bsize: int, frsize: int, blocks: int, bfree: int, bavail: int,
                           files: int, ffree: int, favail: int)

  /** One entry `readdir` yields: the name, the child's attributes and the offset of the next entry. */
  datatype DirEntry = DirEntry(name: string, attr: Attr, next: nat)

  /** The `setattr` request: a value for each field whose `update_*` flag is set. */
  datatype SetAttrs = SetAttrs(mode: Option<nat>, uid: Option<int>, gid: Option<int>,
                               atime: Option<int>, mtime: Option<int>)

  /**
   * Deviations from the source that the model can switch on one by one; the
   * operations as written run with every switch off.
   */
  datatype Fixes = Fixes(
    dotDotIsParent: bool,     // `lookup('..')` resolves the parent's parent
    renameMovesParent: bool,  // a rename records the new parent in the inode
    replaceUsesNewName: bool, // a rename over an existing entry keeps the new name
    rmdirRaises: bool,        // `rmdir` raises ENAMETOOLONG instead of returning it
    linkRaisesEinval: bool,   // `link` to an unlinked parent reaches its EINVAL
    forgetLowersCount: bool,  // `forget` stores the lowered lookup count
    forgetDropsLastBlock: bool, // `forget` also drops the cached block holding the file's tail
    deleteChecksIndex: bool)  // `delete_inode` cleans its stored key only while it names the inode

  const AsWritten: Fixes := Fixes(false, false, false, false, false, false, false, false)
  const Corrected: Fixes := Fixes(true, true, true, true, true, true, true, true)

  /** `delete_inode`, as written or with the index check. */
  function DeleteRecord(m: Meta, id: nat, fx: Fixes): Option<Meta>
  {
    if fx.deleteChecksIndex then m.CorrectedDeleteInode(id) else m.DeleteInode(id)
  }

  function Opt<T>(o: Option<T>, d: T): T
  {
    if o.Some? then o.value else d
  }

  // ---------------------------------------------------------------------------
  // Attributes

  /**
   * `getattr`: the record's fields; the block size is the superblock's, and
   * the block count is `ceil(size / block size)`. A missing record or block
   * size fails on None; a block size of 0 divides by zero.
   */
  function Getattr(c: Config, m: Meta, id: nat): Result<Attr>
  {
    match m.Record(id)
    case None => Err(Crash(NoneValue))
    case Some(r) =>
      match m.SbGet(c.keys.blockSize)
      case None => Err(Crash(NoneValue))
      case Some(b) =>
        if b == 0 then Err(Crash(DivisionByZero))
        else Ok(Attr(r.id, r.mode, r.gid, r.uid, r.size, r.atime, r.ctime, r.mtime, r.rdev, r.nlink,
                     b, CeilDiv(r.size, b)))
  }

  /** The record after `setattr`'s assignments: each flagged field, then the change time. */
  function Updated(r: InodeRecord, a: SetAttrs, now: int): InodeRecord
  {
    r.(mode := Opt(a.mode, r.mode), uid := Opt(a.uid, r.uid), gid := Opt(a.gid, r.gid),
       atime := Opt(a.atime, r.atime), mtime := Opt(a.mtime, r.mtime), ctime := now)
  }

  /** `setattr`: assign the flagged fields and the change time, then `getattr`. */
  function Setattr(c: Config, fs: Fs, id: nat, a: SetAttrs, now: int): (Result<Attr>, Fs)
  {
    match fs.meta.Record(id)
    case None => (Err(Crash(NoneValue)), fs)
    case Some(r) =>
      var m := fs.meta.UpdateInode(Updated(r, a, now));
      (Getattr(c, m, r.id), fs.(meta := m))
  }

  // ---------------------------------------------------------------------------
  // Lookup and open

  /**
   * `lookup`: `.` is the directory itself; `..` is, as written, the
   * directory's own id again; any other name must be indexed, and then its
   * lookup count goes up by one.
   */
  function Lookup(c: Config, fs: Fs, parent: nat, name: string, fx: Fixes): (Result<Attr>, Fs)
  {
    var m := fs.meta;
    if name == "." then (Getattr(c, m, parent), fs)
    else if name == ".." then
      match m.Record(parent)
      case None => (Err(Crash(NoneValue)), fs)
      case Some(p) => (Getattr(c, m, if fx.dotDotIsParent then p.parentInodeId else p.id), fs)
    else
      match m.InodeId(parent, name)
      case None => (Err(Fuse(ENOENT)), fs)
      case Some(id) =>
        match m.Record(id)
        case None => (Err(Crash(NoneValue)), fs)
        case Some(r) =>
          var m1 := m.UpdateInode(r.(lookupCount := r.lookupCount + 1));
          (Getattr(c, m1, id), fs.(meta := m1))
  }

  /** `open`: the open count goes up by one; the file handle is the inode id. */
  function Open(fs: Fs, id: nat): (Result<nat>, Fs)
  {
    match fs.meta.Record(id)
    case None => (Err(Crash(NoneValue)), fs)
    case Some(r) => (Ok(id), fs.(meta := fs.meta.UpdateInode(r.(openCount := r.openCount + 1))))
  }

  // ---------------------------------------------------------------------------
  // Creation

  /**
   * `_create`: refuse a name already indexed to a non-zero id (EEXIST) and
   * an unlinked parent (EINVAL); take a fresh id from the superblock; store
   * the new record with its index entry and append it to the parent's
   * list; a regular file starts open, a directory gets its `.` and `..`
   * entries; the lookup count becomes one. `mknod`'s device number is not
   * passed on, so every new inode has rdev 0.
   */
  function CreateEntry(c: Config, fs: Fs, parent: nat, name: string, mode: nat, target: Option<string>,
                       now: int): (Result<Attr>, Fs)
  {
    var m := fs.meta;
    if m.InodeId(parent, name).Some? && m.InodeId(parent, name).value != 0 then (Err(Fuse(EEXIST)), fs)
    else
      match Getattr(c, m, parent)
      case Err(f) => (Err(f), fs)
      case Ok(p) =>
        if p.nlink == 0 then (Err(Fuse(EINVAL)), fs)
        else
          var (got, m1) := c.keys.FetchFreeInodeId(m);
          if got.Err? then (Err(got.failure), fs.(meta := m1))
          // `_create` would go on with an id of None and fail further on; both cases are
          // ruled out while the free id stays positive (`BelowFree`), and are cut short here
          else if got.value.None? || got.value.value < 0 then (Err(Crash(NoneValue)), fs.(meta := m1))
          else
            var id: nat := got.value.value;
            var m2 := Insert(c, m1, parent, name, id, mode, target, now);
            (Getattr(c, m2, id), fs.(meta := m2))
  }

  /**
   * The stores `_create` writes once it has the id: the record with its
   * index entry, the parent's list entry, the open count of a regular file,
   * a directory's `.` and `..`, and the lookup count.
   */
  function Insert(c: Config, m: Meta, parent: nat, name: string, id: nat, mode: nat, target: Option<string>,
                  now: int): Meta
  {
    var rec := NewInode(c.fsName, id, mode, Some(name), parent, 0, c.uid, c.gid, target, 0, 1, now);
    var m1 := m.PutInode(rec).AddToList(parent, id, name);
    var m2 := if IsReg(mode) then m1.UpdateInode(m1.records[id].(openCount := m1.records[id].openCount + 1))
              else m1;
    var m3 := if IsDir(mode) then m2.AddToList(id, id, ".").AddToList(id, parent, "..") else m2;
    m3.UpdateInode(m3.records[id].(lookupCount := m3.records[id].lookupCount + 1))
  }

  /** `create`: the new entry with its inode id as the file handle. */
  function Create(c: Config, fs: Fs, parent: nat, name: string, mode: nat, now: int): (Result<(nat, Attr)>, Fs)
  {
    var (r, fs') := CreateEntry(c, fs, parent, name, mode, None, now);
    (if r.Ok? then Ok((r.value.ino, r.value)) else Err(r.failure), fs')
  }

  function Symlink(c: Config, fs: Fs, parent: nat, name: string, target: string, now: int): (Result<Attr>, Fs)
  {
    CreateEntry(c, fs, parent, name, LinkMode, Some(target), now)
  }

  function Mknod(c: Config, fs: Fs, parent: nat, name: string, mode: nat, rdev: int, now: int): (Result<Attr>, Fs)
  {
    CreateEntry(c, fs, parent, name, mode, None, now)
  }

  /** `mkdir`: names longer than 255 are refused before anything else. */
  function Mkdir(c: Config, fs: Fs, parent: nat, name: string, mode: nat, now: int): (Result<Attr>, Fs)
  {
    if |name| > NameLimit then (Err(Fuse(ENAMETOOLONG)), fs)
    else CreateEntry(c, fs, parent, name, mode, None, now)
  }

  /** `setup_root_inode`: the root's `..` and `.` entries (both itself), then its record under the name None. */
  function SetupRoot(c: Config, m: Meta, now: int): Meta
  {
    var root := NewInode(c.fsName, RootInode, DirMode, None, RootInode, 0, c.uid, c.gid, None, 0, 1, now);
    m.AddToList(RootInode, RootInode, "..").AddToList(RootInode, RootInode, ".").PutInode(root)
  }

  /** The root set up without the index entry `put_inode` gives it under the name None. */
  function CorrectedSetupRoot(c: Config, m: Meta, now: int): Meta
  {
    var root := NewInode(c.fsName, RootInode, DirMode, None, RootInode, 0, c.uid, c.gid, None, 0, 1, now);
    m.AddToList(RootInode, RootInode, "..").AddToList(RootInode, RootInode, ".").UpdateInode(root)
  }

  // ---------------------------------------------------------------------------
  // Listing

  /** The entries `readdir` yields for decoded list entries starting at list position `off`. */
  function DirEntries(c: Config, m: Meta, es: seq<(nat, string)>, off: nat): (r: Result<seq<DirEntry>>)
    ensures r.Ok? <==> forall i :: 0 <= i < |es| ==> Getattr(c, m, es[i].0).Ok?
    ensures r.Ok? ==> |r.value| == |es|
    ensures r.Ok? ==> forall i :: 0 <= i < |es| ==>
      r.value[i] == DirEntry(es[i].1, Getattr(c, m, es[i].0).value, off + i + 1)
    decreases |es|
  {
    if |es| == 0 then Ok([])
    else match Getattr(c, m, es[0].0)
      case Err(f) => Err(f)
      case Ok(a) =>
        match DirEntries(c, m, es[1..], off + 1)
        case Err(f) => Err(f)
        case Ok(rest) => Ok([DirEntry(es[0].1, a, off + 1)] + rest)
  }

  /**
   * `readdir(id, off)`: the directory's entries from position `off` on,
   * each with its child's attributes and the position after it. A child
   * whose attributes cannot be read, or a malformed entry, ends the listing
   * with that failure.
   */
  function Readdir(c: Config, m: Meta, id: nat, off: nat): Result<seq<DirEntry>>
  {
    var l := m.List(id);
    var (es, stopped) := DecodeEntries(l[Min(off, |l|)..]);
    match DirEntries(c, m, es, off)
    case Err(f) => Err(f)
    case Ok(ds) => if stopped then Err(Crash(Malformed)) else Ok(ds)
  }

  // ---------------------------------------------------------------------------
  // Removal

  /** `_get_entry`: the attributes of the inode the name is indexed to. */
  function GetEntry(c: Config, m: Meta, parent: nat, name: string): Result<Attr>
  {
    match m.InodeId(parent, name)
    case None => Err(Fuse(ENOENT))
    case Some(id) => Getattr(c, m, id)
  }

  /**
   * `_remove`: refuse a list of more than two entries (ENOTEMPTY); drop the
   * name from the parent's list and the index and lower the link count; when
   * the link count read before was 1 and the inode has no lookups left, also
   * delete its object and cached block 0 (regular files), its record, and
   * its share of the used size and of the inode counter.
   */
  function Remove(c: Config, fs: Fs, parent: nat, name: string, e: Attr, fx: Fixes): (Outcome, Fs)
  {
    var m := fs.meta;
    if |m.List(e.ino)| > 2 then (Fail(Fuse(ENOTEMPTY)), fs)
    else
      var m1 := m.RemoveFromList(parent, e.ino, name).CleanIndex(parent, name);
      match m1.Record(e.ino)
      case None => (Fail(Crash(NoneValue)), fs.(meta := m1))
      case Some(r) =>
        var m2 := m1.UpdateInode(r.(nlink := r.nlink - 1));
        assert e.ino in m2.records;
        var ino := m2.records[e.ino];
        if e.nlink == 1 && ino.lookupCount == 0 then (Done, Deleted(c, fs.(meta := m2), e.ino, ino, fx))
        else (Done, fs.(meta := m2))
  }

  /** The stores once `_remove` has deleted the unlinked inode stored under `key`, whose record was `r`. */
  function Deleted(c: Config, fs: Fs, key: nat, r: InodeRecord, fx: Fixes): Fs
    requires key in fs.meta.records
  {
    var reg := IsReg(r.mode);
    fs.(meta := c.keys.DecrInodeCounter(c.keys.DecrUsedSize(DeleteRecord(fs.meta, key, fx).value, r.size)),
        bucket := if reg then fs.bucket.Delete(NatToString(r.id)) else fs.bucket,
        cache := if reg then fs.cache.Remove(r.id, 0) else fs.cache)
  }

  /**
   * `rmdir`: the entry must exist; a name longer than 255 is then answered,
   * as written, by RETURNING an ENAMETOOLONG error object, which the kernel
   * sees as success; a non-directory is refused with ENOTDIR.
   */
  function Rmdir(c: Config, fs: Fs, parent: nat, name: string, fx: Fixes): (Outcome, Fs)
  {
    match GetEntry(c, fs.meta, parent, name)
    case Err(f) => (Fail(f), fs)
    case Ok(e) =>
      if |name| > NameLimit then (if fx.rmdirRaises then Fail(Fuse(ENAMETOOLONG)) else Done, fs)
      else if !IsDir(e.mode) then (Fail(Fuse(ENOTDIR)), fs)
      else Remove(c, fs, parent, name, e, fx)
  }

  /** `unlink`: the entry must exist and must not be a directory (EISDIR). */
  function Unlink(c: Config, fs: Fs, parent: nat, name: string, fx: Fixes): (Outcome, Fs)
  {
    match GetEntry(c, fs.meta, parent, name)
    case Err(f) => (Fail(f), fs)
    case Ok(e) =>
      if IsDir(e.mode) then (Fail(Fuse(EISDIR)), fs)
      else Remove(c, fs, parent, name, e, fx)
  }

  /** `readlink`: the stored target (None for an inode that is not a link). */
  function Readlink(fs: Fs, id: nat): Result<Option<string>>
  {
    match fs.meta.Record(id)
    case None => Err(Crash(NoneValue))
    case Some(r) => Ok(r.target)
  }

  // ---------------------------------------------------------------------------
  // Links and renames

  /**
   * `link`: the new parent must be linked; the new name is indexed and
   * listed, then the link count and the lookup count each go up by one. As
   * written, the check for an unlinked parent formats a name that `link`
   * does not have, so it raises NameError instead of EINVAL. Whether the
   * new name is free is left to the kernel.
   */
  function Link(c: Config, fs: Fs, id: nat, newParent: nat, newName: string, fx: Fixes): (Result<Attr>, Fs)
  {
    var m := fs.meta;
    match Getattr(c, m, newParent)
    case Err(f) => (Err(f), fs)
    case Ok(p) =>
      if p.nlink == 0 then (Err(if fx.linkRaisesEinval then Fuse(EINVAL) else Crash(Undefined)), fs)
      else
        var m1 := m.BuildIndex(newParent, id, newName).AddToList(newParent, id, newName);
        match m1.Record(id)
        case None => (Err(Crash(NoneValue)), fs.(meta := m1))
        case Some(r) =>
          var m2 := m1.UpdateInode(r.(nlink := r.nlink + 1));
          assert id in m2.records;
          var m3 := m2.UpdateInode(m2.records[id].(lookupCount := m2.records[id].lookupCount + 1));
          (Getattr(c, m3, id), fs.(meta := m3))
  }

  /**
   * The rename of an entry to a free name: the list entry moves to the new
   * parent, the inode takes the new name, and the index moves from the old
   * key to the new one. As written the inode keeps its old parent.
   */
  function MoveEntry(fs: Fs, oldParent: nat, oldName: string, newParent: nat, newName: string, oe: Attr,
                     fx: Fixes): (Outcome, Fs)
  {
    var m1 := fs.meta.RemoveFromList(oldParent, oe.ino, oldName).AddToList(newParent, oe.ino, newName);
    match m1.Record(oe.ino)
    case None => (Fail(Crash(NoneValue)), fs.(meta := m1))
    case Some(r) =>
      var r' := if fx.renameMovesParent then r.(name := Some(newName), parentInodeId := newParent)
                else r.(name := Some(newName));
      var m2 := m1.UpdateInode(r').CleanIndex(oldParent, oldName).BuildIndex(newParent, oe.ino, newName);
      (Done, fs.(meta := m2))
  }

  /**
   * `_replace`: the rename of an entry onto an existing one. A target whose
   * list is not empty is refused (ENOTEMPTY; a malformed first entry fails
   * decoding); the target loses a link, both list entries and both index
   * keys go, the target's cached block 0 is dropped, and the source is
   * listed and indexed in the new parent. As written it is listed and
   * indexed under its OLD name, and its record is not touched.
   */
  function Replace(fs: Fs, oldParent: nat, oldName: string, newParent: nat, newName: string, oe: Attr, ne: Attr,
                   fx: Fixes): (Outcome, Fs)
  {
    var m := fs.meta;
    var l := m.List(ne.ino);
    if |l| > 0 then (if DecodeEntry(l[0]).None? then Fail(Crash(Malformed)) else Fail(Fuse(ENOTEMPTY)), fs)
    else
      match m.Record(ne.ino)
      case None => (Fail(Crash(NoneValue)), fs)
      case Some(t) =>
        (Done, fs.(meta := ReplacedMeta(m, t, oldParent, oldName, newParent, newName, oe.ino, ne.ino, fx),
                   cache := fs.cache.Remove(t.id, 0)))
  }

  /** The metadata `_replace` leaves behind, from the target's record `t` as read before the update. */
  function ReplacedMeta(m: Meta, t: InodeRecord, oldParent: nat, oldName: string, newParent: nat,
                        newName: string, oldIno: nat, newIno: nat, fx: Fixes): Meta
  {
    var kept := if fx.replaceUsesNewName then newName else oldName;
    var m1 := m.UpdateInode(t.(nlink := t.nlink - 1))
               .RemoveFromList(oldParent, oldIno, oldName)
               .RemoveFromList(newParent, newIno, newName)
               .AddToList(newParent, oldIno, kept)
               .CleanIndex(newParent, newName)
               .CleanIndex(oldParent, oldName);
    var m2 := m1.BuildIndex(newParent, oldIno, kept);
    if fx.replaceUsesNewName && oldIno in m2.records
    then m2.UpdateInode(m2.records[oldIno].(name := Some(newName),
                          parentInodeId := if fx.renameMovesParent then newParent else m2.records[oldIno].parentInodeId))
    else m2
  }

  /** `rename`: the source must exist; a missing target (ENOENT) is a move, an existing one a replacement. */
  function Rename(c: Config, fs: Fs, oldParent: nat, oldName: string, newParent: nat, newName: string,
                  fx: Fixes): (Outcome, Fs)
  {
    match GetEntry(c, fs.meta, oldParent, oldName)
    case Err(f) => (Fail(f), fs)
    case Ok(oe) =>
      match GetEntry(c, fs.meta, newParent, newName)
      case Err(Fuse(ENOENT)) => MoveEntry(fs, oldParent, oldName, newParent, newName, oe, fx)
      case Err(f) => (Fail(f), fs)
      case Ok(ne) => Replace(fs, oldParent, oldName, newParent, newName, oe, ne, fx)
  }

  // ---------------------------------------------------------------------------
  // Statistics and forget

  /**
   * `statfs`: block counts in units of the superblock's block size (floor
   * division); inode counts from the limit and the live-inode counter. A
   * missing block size, limit or counter fails on None; a zero block size
   * divides by zero.
   */
  function Statfs(c: Config, m: Meta): Result<StatFs>
  {
    var k := c.keys;
    match m.SbGet(k.blockSize)
    case None => Err(Crash(NoneValue))
    case Some(b) =>
      if b == 0 then Err(Crash(DivisionByZero))
      else
        var total := k.TotalSize(m);
        var used := k.UsedSize(m);
        match m.SbGet(k.maxInodes)
        case None => Err(Crash(NoneValue))
        case Some(files) =>
          match m.SbGet(k.inodeCounter)
          case None => Err(Crash(NoneValue))
          case Some(count) =>
            var bfree := FloorDiv(total - used, b);
            Ok(StatFs(b, b, FloorDiv(total, b), bfree, bfree, files, files - count, files - count))
  }

  /** The cache without blocks `0 .. n-1` of the inode (`range(n)`; nothing for n <= 0). */
  function DropBlocks(cache: CacheStores.Blocks, inode: nat, n: int): CacheStores.Blocks
  {
    CacheStores.Blocks(cache.data - set b: nat | b < n :: (inode, b))
  }

  /**
   * One `(inode, n)` pair of `forget`: an inode without links whose lookup
   * count is exactly `n` is deleted with its object, its cached blocks
   * below `size // DATA_BLOCK_SIZE`, its used size and its place in the
   * inode counter. As written the lookup count itself is never lowered.
   */
  function ForgetOne(c: Config, fs: Fs, id: nat, n: int, fx: Fixes): (Outcome, Fs)
  {
    match fs.meta.Record(id)
    case None => (Fail(Crash(NoneValue)), fs)
    case Some(r) =>
      if r.nlink == 0 && r.lookupCount - n == 0 then Forgotten(c, fs, r, fx)
      else if fx.forgetLowersCount then (Done, fs.(meta := fs.meta.UpdateInode(r.(lookupCount := r.lookupCount - n))))
      else (Done, fs)
  }

  /**
   * The deletion branch of `forget` for the inode whose record is `r`: a
   * regular file's object and cached blocks, then the record (keyed by the
   * record's own id) and the counters.
   */
  function Forgotten(c: Config, fs: Fs, r: InodeRecord, fx: Fixes): (Outcome, Fs)
  {
    var reg := IsReg(r.mode);
    var kept := if fx.forgetDropsLastBlock then CeilDiv(r.size, c.dataBlockSize)
                else FloorDiv(r.size, c.dataBlockSize);
    var bucket := if reg then fs.bucket.Delete(NatToString(r.id)) else fs.bucket;
    var cache := if reg then DropBlocks(fs.cache, r.id, kept) else fs.cache;
    match DeleteRecord(fs.meta, r.id, fx)
    case None => (Fail(Crash(NoneValue)), fs.(bucket := bucket, cache := cache))
    case Some(m1) =>
      (Done, fs.(meta := c.keys.DecrInodeCounter(c.keys.DecrUsedSize(m1, r.size)), bucket := bucket, cache := cache))
  }

  /** `forget`: each pair in turn; a failure ends the loop with the earlier pairs' changes kept. */
  function Forget(c: Config, fs: Fs, items: seq<(nat, int)>, fx: Fixes): (Outcome, Fs)
    decreases |items|
  {
    if |items| == 0 then (Done, fs)
    else
      var (o, fs1) := ForgetOne(c, fs, items[0].0, items[0].1, fx);
      if o.Fail? then (o, fs1) else Forget(c, fs1, items[1..], fx)
  }
}
