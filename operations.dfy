/**
 * The operation objects of objectfs/core/objectfs_operations.py as one class
 * over the store clients: each method makes the source's calls on the
 * stores in the source's order, and is proved to leave the stores exactly as
 * the matching function of `Namespace` or `DataPath` says. The base class's
 * namespace operations keep their names; the operations the `NoCache`,
 * `Cache` and `Multipart` subclasses override carry the mode as a prefix.
 * The switches in `fixes` and `dataFixes` choose, deviation by deviation,
 * between the code as written and the corrected behaviour.
 */
module Operations {
  import opened Common
  import opened Strings
  import opened Inodes
  import opened MetaStores
  import opened SuperBlocks
  import opened Objects
  import opened CacheStores
  import opened Namespace
  import opened DataPath
  import FragmentMaps
  import BlockSets
  import MergeQueues
  import ObjectStores
  import BlockTasks

  /** Storing a record twice under the same id keeps only the second. */
  lemma UpdateInodeTwice(m: Meta, a: InodeRecord, b: InodeRecord)
    requires a.id == b.id
    ensures m.UpdateInode(a).UpdateInode(b) == m.UpdateInode(b)
  {
  }

  /** The decoded entries are determined by the stored list: the first malformed entry ends them. */
  lemma {:induction false} DecodedUnique(ss: seq<string>, entries: seq<(nat, string)>, stopped: bool)
    requires |entries| <= |ss|
    requires forall i :: 0 <= i < |entries| ==> DecodeEntry(ss[i]) == Some(entries[i])
    requires stopped <==> |entries| < |ss|
    requires stopped ==> DecodeEntry(ss[|entries|]).None?
    ensures DecodeEntries(ss) == (entries, stopped)
    decreases |ss|
  {
    if |ss| > 0 && |entries| > 0 {
      assert DecodeEntry(ss[0]) == Some(entries[0]);
      assert forall i :: 0 <= i < |entries[1..]| ==> DecodeEntry(ss[1..][i]) == Some(entries[1..][i]) by {
        forall i | 0 <= i < |entries[1..]| ensures DecodeEntry(ss[1..][i]) == Some(entries[1..][i]) {
          assert ss[1..][i] == ss[i + 1] && entries[1..][i] == entries[i + 1];
        }
      }
      if stopped {
        assert ss[1..][|entries[1..]|] == ss[|entries|];
      }
      DecodedUnique(ss[1..], entries[1..], stopped);
      assert entries == [entries[0]] + entries[1..];
    }
  }

  /** A listing fails with the failure of the first child whose attributes cannot be read. */
  lemma {:induction false} DirEntriesFirstFailure(c: Config, m: Meta, es: seq<(nat, string)>, off: nat, k: nat)
    requires k < |es|
    requires forall j :: 0 <= j < k ==> Namespace.Getattr(c, m, es[j].0).Ok?
    requires Namespace.Getattr(c, m, es[k].0).Err?
    ensures DirEntries(c, m, es, off) == Err(Namespace.Getattr(c, m, es[k].0).failure)
    decreases k
  {
    if k > 0 {
      assert Namespace.Getattr(c, m, es[0].0).Ok?;
      DirEntriesFirstFailure(c, m, es[1..], off + 1, k - 1);
    }
  }

  /** Dropping the blocks below a bound of at most 0 drops nothing. */
  lemma DropNothing(c: Blocks, inode: nat, n: int)
    requires n <= 0
    ensures DropBlocks(c, inode, n) == c
  {
    assert (set b: nat | b < n :: (inode, b)) == {};
  }

  /** Dropping one more block: the blocks below `b`, then block `b`. */
  lemma DropOneMore(c: Blocks, inode: nat, b: nat)
    ensures DropBlocks(c, inode, b).Remove(inode, b) == DropBlocks(c, inode, b + 1)
  {
    assert (set k: nat | k < b + 1 :: (inode, k)) == (set k: nat | k < b :: (inode, k)) + {(inode, b)};
  }

  /** The upload results already collected in front of the uploads of the rest. */
  function Prefixed(done: seq<Option<(string, int)>>, rest: (seq<Option<(string, int)>>, Bucket, Blocks))
    : (seq<Option<(string, int)>>, Bucket, Blocks)
  {
    (done + rest.0, rest.1, rest.2)
  }

  lemma PrefixedOne(done: seq<Option<(string, int)>>, r: Option<(string, int)>,
                    rest: (seq<Option<(string, int)>>, Bucket, Blocks))
    ensures Prefixed(done, ([r] + rest.0, rest.1, rest.2)) == Prefixed(done + [r], rest)
  {
    assert done + ([r] + rest.0) == (done + [r]) + rest.0;
  }

  class ObjectFsOperations {
    const config: Config
    const fixes: Fixes
    const dataFixes: DataFixes
    const metaStore: RedisMetaStore
    const superBlock: SuperBlock
    const dataStore: ObjectStores.ObjectStore
    const cacheStore: RedisCacheStore
    const fragmentMap: FragmentMaps.FragmentMap
    const dirtySet: BlockSets.BlockSet
    const cleanSet: BlockSets.BlockSet
    const mergeQueue: MergeQueues.MergeQueue
    /** `_local_dirty_set` of the multipart mode: the blocks written since the last flush, per inode. */
    var localDirty: map<nat, set<nat>>
    /** `_local_fragment_map`: the writes recorded per inode. */
    var localFragments: map<nat, seq<(nat, nat, int)>>

    /** The store clients are the ones the configuration names, and the two block sets are distinct. */
    predicate Linked()
    {
      superBlock.meta == metaStore && superBlock.keys == config.keys
      && dataStore.blockSize == config.dataBlockSize
      && fragmentMap.fsName == config.fsName && dirtySet != cleanSet
    }

    /** What the stores and the in-process maps hold. */
    function State(): Fs
      reads this, metaStore, dataStore.bucket, cacheStore, fragmentMap, dirtySet, cleanSet, mergeQueue
    {
      Fs(metaStore.State(), dataStore.bucket.State(), cacheStore.State(), fragmentMap.State(),
         dirtySet.State(), cleanSet.State(), mergeQueue.State(), localDirty, localFragments)
    }

    /** `__init__`: the clients of the stores the filesystem is kept in; the multipart maps start empty. */
    constructor (config: Config, fixes: Fixes, dataFixes: DataFixes, metaStore: RedisMetaStore,
                 superBlock: SuperBlock, dataStore: ObjectStores.ObjectStore, cacheStore: RedisCacheStore,
                 fragmentMap: FragmentMaps.FragmentMap, dirtySet: BlockSets.BlockSet, cleanSet: BlockSets.BlockSet,
                 mergeQueue: MergeQueues.MergeQueue)
      requires superBlock.meta == metaStore && superBlock.keys == config.keys
      requires dataStore.blockSize == config.dataBlockSize
      requires fragmentMap.fsName == config.fsName && dirtySet != cleanSet
      ensures Linked() && this.config == config && this.fixes == fixes && this.dataFixes == dataFixes
      ensures State() == Fs(metaStore.State(), dataStore.bucket.State(), cacheStore.State(), fragmentMap.State(),
                            dirtySet.State(), cleanSet.State(), mergeQueue.State(), map[], map[])
    {
      this.config, this.fixes, this.dataFixes := config, fixes, dataFixes;
      this.metaStore, this.superBlock, this.dataStore, this.cacheStore := metaStore, superBlock, dataStore, cacheStore;
      this.fragmentMap, this.dirtySet, this.cleanSet, this.mergeQueue := fragmentMap, dirtySet, cleanSet, mergeQueue;
      localDirty, localFragments := map[], map[];
    }

    // -------------------------------------------------------------------------
    // Attributes

    method Getattr(id: nat) returns (r: Result<Attr>)
      requires Linked()
      ensures r == Namespace.Getattr(config, metaStore.State(), id)
    {
      var inode := metaStore.GetInode(id);
      if inode == null {
        return Err(Crash(NoneValue));
      }
      var blksize := superBlock.BlockSize();
      if blksize.None? {
        return Err(Crash(NoneValue));
      }
      if blksize.value == 0 {
        return Err(Crash(DivisionByZero));
      }
      r := Ok(Attr(inode.id, inode.mode, inode.gid, inode.uid, inode.size, inode.atime, inode.ctime, inode.mtime,
                   inode.rdev, inode.nlink, blksize.value, CeilDiv(inode.size, blksize.value)));
    }

    method Setattr(id: nat, attr: SetAttrs, now: int) returns (r: Result<Attr>)
      requires Linked()
      modifies metaStore
      ensures (r, State()) == Namespace.Setattr(config, old(State()), id, attr, now)
    {
      var inode := metaStore.GetInode(id);
      if inode == null {
        return Err(Crash(NoneValue));
      }
      ghost var m0, r0 := metaStore.State(), inode.Record();
      AssignFlagged(inode, attr);
      ghost var flagged := inode.Record();
      inode.SetCtime(now);
      UpdateInodeTwice(m0, flagged, inode.Record());
      assert inode.Record() == Updated(r0, attr, now);
      assert metaStore.State() == m0.UpdateInode(Updated(r0, attr, now));
      r := Getattr(inode.id);
    }

    /** The `update_*` branches of `setattr`: each flagged field is assigned, and each assignment stores the record. */
    method AssignFlagged(inode: Inode, attr: SetAttrs)
      requires inode.meta == metaStore
      modifies inode, metaStore
      ensures inode.Record() == old(inode.Record()).(mode := Opt(attr.mode, old(inode.mode)),
        uid := Opt(attr.uid, old(inode.uid)), gid := Opt(attr.gid, old(inode.gid)),
        atime := Opt(attr.atime, old(inode.atime)), mtime := Opt(attr.mtime, old(inode.mtime)))
      ensures metaStore.State() == old(metaStore.State())
           || metaStore.State() == old(metaStore.State()).UpdateInode(inode.Record())
    {
      ghost var m0 := metaStore.State();
      ghost var touched := false;
      if attr.mode.Some? {
        inode.SetMode(attr.mode.value);
        touched := true;
      }
      assert metaStore.State() == if touched then m0.UpdateInode(inode.Record()) else m0;
      if attr.uid.Some? {
        ghost var prev := inode.Record();
        inode.SetUid(attr.uid.value);
        UpdateInodeTwice(m0, prev, inode.Record());
        touched := true;
      }
      assert metaStore.State() == if touched then m0.UpdateInode(inode.Record()) else m0;
      if attr.gid.Some? {
        ghost var prev := inode.Record();
        inode.SetGid(attr.gid.value);
        UpdateInodeTwice(m0, prev, inode.Record());
        touched := true;
      }
      assert metaStore.State() == if touched then m0.UpdateInode(inode.Record()) else m0;
      if attr.atime.Some? {
        ghost var prev := inode.Record();
        inode.SetAtime(attr.atime.value);
        UpdateInodeTwice(m0, prev, inode.Record());
        touched := true;
      }
      assert metaStore.State() == if touched then m0.UpdateInode(inode.Record()) else m0;
      if attr.mtime.Some? {
        ghost var prev := inode.Record();
        inode.SetMtime(attr.mtime.value);
        UpdateInodeTwice(m0, prev, inode.Record());
        touched := true;
      }
    }

    // -------------------------------------------------------------------------
    // Lookup and open

    method Lookup(parent: nat, name: string) returns (r: Result<Attr>)
      requires Linked()
      modifies metaStore
      ensures (r, State()) == Namespace.Lookup(config, old(State()), parent, name, fixes)
    {
      var id: nat;
      if name == "." {
        id := parent;
      } else if name == ".." {
        var p := metaStore.GetInode(parent);
        if p == null {
          return Err(Crash(NoneValue));
        }
        id := if fixes.dotDotIsParent then p.parentInodeId else p.id;
      } else {
        var found := metaStore.GetInodeId(parent, name);
        if found.None? {
          return Err(Fuse(ENOENT));
        }
        id := found.value;
        var inode := metaStore.GetInode(id);
        if inode == null {
          return Err(Crash(NoneValue));
        }
        inode.SetLookupCount(inode.lookupCount + 1);
      }
      r := Getattr(id);
    }

    method Open(id: nat) returns (r: Result<nat>)
      modifies metaStore
      ensures (r, State()) == Namespace.Open(old(State()), id)
    {
      var inode := metaStore.GetInode(id);
      if inode == null {
        return Err(Crash(NoneValue));
      }
      inode.SetOpenCount(inode.openCount + 1);
      r := Ok(id);
    }

    method Readlink(id: nat) returns (r: Result<Option<string>>)
      ensures r == Namespace.Readlink(State(), id)
    {
      var inode := metaStore.GetInode(id);
      if inode == null {
        return Err(Crash(NoneValue));
      }
      r := Ok(inode.target);
    }

    // -------------------------------------------------------------------------
    // Creation

    /** `_create`. */
    method CreateEntry(parent: nat, name: string, mode: nat, target: Option<string>, now: int) returns (r: Result<Attr>)
      requires Linked()
      modifies metaStore
      ensures (r, State()) == Namespace.CreateEntry(config, old(State()), parent, name, mode, target, now)
    {
      var existing := metaStore.GetInodeId(parent, name);
      if existing.Some? && existing.value != 0 {
        return Err(Fuse(EEXIST));
      }
      var parentEntry := Getattr(parent);
      if parentEntry.Err? {
        return Err(parentEntry.failure);
      }
      if parentEntry.value.nlink == 0 {
        return Err(Fuse(EINVAL));
      }
      var got := superBlock.FetchFreeInodeId();
      if got.Err? {
        return Err(got.failure);
      }
      if got.value.None? || got.value.value < 0 {
        return Err(Crash(NoneValue));
      }
      var id: nat := got.value.value;
      InsertInode(parent, name, id, mode, target, now);
      r := Getattr(id);
    }

    /** The stores `_create` writes once it has the new id. */
    method InsertInode(parent: nat, name: string, id: nat, mode: nat, target: Option<string>, now: int)
      modifies metaStore
      ensures metaStore.State() == Namespace.Insert(config, old(metaStore.State()), parent, name, id, mode, target, now)
    {
      StoreNewInode(parent, name, id, mode, target, now);
      CountOpen(id, mode);
      if IsDir(mode) {
        metaStore.AddInodeIdToList(id, id, ".");
        metaStore.AddInodeIdToList(id, parent, "..");
      }
      CountLookup(id);
    }

    /** The new inode stored and listed under its parent. */
    method StoreNewInode(parent: nat, name: string, id: nat, mode: nat, target: Option<string>, now: int)
      modifies metaStore
      ensures metaStore.State() == old(metaStore.State())
        .PutInode(NewInode(config.fsName, id, mode, Some(name), parent, 0, config.uid, config.gid, target, 0, 1, now))
        .AddToList(parent, id, name)
      ensures id in metaStore.records
    {
      var newInode := new Inode(metaStore, config.fsName, id, mode, Some(name), parent, 0, config.uid, config.gid,
                                None, None, None, target, 0, 1, now);
      metaStore.PutInode(newInode);
      metaStore.AddInodeIdToList(parent, newInode.id, name);
    }

    /** A regular file is created open. */
    method CountOpen(id: nat, mode: nat)
      requires id in metaStore.records
      modifies metaStore
      ensures var m := old(metaStore.State());
        metaStore.State() == if IsReg(mode) then m.UpdateInode(m.records[id].(openCount := m.records[id].openCount + 1))
                             else m
      ensures id in metaStore.records
    {
      if IsReg(mode) {
        var created := metaStore.GetInode(id);
        created.SetOpenCount(created.openCount + 1);
      }
    }

    /** The new entry counts one lookup. */
    method CountLookup(id: nat)
      requires id in metaStore.records
      modifies metaStore
      ensures var m := old(metaStore.State());
        metaStore.State() == m.UpdateInode(m.records[id].(lookupCount := m.records[id].lookupCount + 1))
    {
      var created := metaStore.GetInode(id);
      created.SetLookupCount(created.lookupCount + 1);
    }

    method Create(parent: nat, name: string, mode: nat, now: int) returns (r: Result<(nat, Attr)>)
      requires Linked()
      modifies metaStore
      ensures (r, State()) == Namespace.Create(config, old(State()), parent, name, mode, now)
    {
      var entry := CreateEntry(parent, name, mode, None, now);
      r := if entry.Ok? then Ok((entry.value.ino, entry.value)) else Err(entry.failure);
    }

    method Symlink(parent: nat, name: string, target: string, now: int) returns (r: Result<Attr>)
      requires Linked()
      modifies metaStore
      ensures (r, State()) == Namespace.Symlink(config, old(State()), parent, name, target, now)
    {
      r := CreateEntry(parent, name, LinkMode, Some(target), now);
    }

    method Mknod(parent: nat, name: string, mode: nat, rdev: int, now: int) returns (r: Result<Attr>)
      requires Linked()
      modifies metaStore
      ensures (r, State()) == Namespace.Mknod(config, old(State()), parent, name, mode, rdev, now)
    {
      r := CreateEntry(parent, name, mode, None, now);
    }

    method Mkdir(parent: nat, name: string, mode: nat, now: int) returns (r: Result<Attr>)
      requires Linked()
      modifies metaStore
      ensures (r, State()) == Namespace.Mkdir(config, old(State()), parent, name, mode, now)
    {
      if |name| > NameLimit {
        return Err(Fuse(ENAMETOOLONG));
      }
      r := CreateEntry(parent, name, mode, None, now);
    }

    /** `setup_root_inode`. */
    method SetupRootInode(now: int)
      modifies metaStore
      ensures State() == old(State()).(meta := Namespace.SetupRoot(config, old(metaStore.State()), now))
    {
      var root := new Inode(metaStore, config.fsName, RootInode, DirMode, None, RootInode, 0, config.uid, config.gid,
                            None, None, None, None, 0, 1, now);
      metaStore.AddInodeIdToList(RootInode, RootInode, "..");
      metaStore.AddInodeIdToList(RootInode, RootInode, ".");
      metaStore.PutInode(root);
    }

    // -------------------------------------------------------------------------
    // Listing

    /** `readdir(id, off)`: the generator's entries, collected; a failure ends the listing. */
    method Readdir(id: nat, off: nat) returns (r: Result<seq<DirEntry>>)
      requires Linked()
      ensures r == Namespace.Readdir(config, metaStore.State(), id, off)
    {
      var entries, stopped := metaStore.GetInodeIdList(id, off);
      ghost var l := metaStore.State().List(id);
      DecodedUnique(l[Min(off, |l|)..], entries, stopped);
      r := ListEntries(entries, off);
      if r.Ok? && stopped {
        r := Err(Crash(Malformed));
      }
    }

    /** The loop of `readdir` over the decoded entries: each child's attributes and the position after it. */
    method ListEntries(entries: seq<(nat, string)>, off: nat) returns (r: Result<seq<DirEntry>>)
      requires Linked()
      ensures r == DirEntries(config, metaStore.State(), entries, off)
    {
      ghost var m := metaStore.State();
      var listed: seq<DirEntry> := [];
      var i := 0;
      while i < |entries|
        invariant 0 <= i <= |entries| && |listed| == i
        invariant forall k :: 0 <= k < i ==>
          Namespace.Getattr(config, m, entries[k].0).Ok?
          && listed[k] == DirEntry(entries[k].1, Namespace.Getattr(config, m, entries[k].0).value, off + k + 1)
      {
        var attr := Getattr(entries[i].0);
        if attr.Err? {
          DirEntriesFirstFailure(config, m, entries, off, i);
          return Err(attr.failure);
        }
        listed := listed + [DirEntry(entries[i].1, attr.value, off + i + 1)];
        i := i + 1;
      }
      assert DirEntries(config, m, entries, off).Ok?;
      assert DirEntries(config, m, entries, off).value == listed;
      r := Ok(listed);
    }

    // -------------------------------------------------------------------------
    // Removal

    /** `_get_entry`. */
    method GetEntry(parent: nat, name: string) returns (r: Result<Attr>)
      requires Linked()
      ensures r == Namespace.GetEntry(config, metaStore.State(), parent, name)
    {
      var id := metaStore.GetInodeId(parent, name);
      if id.None? {
        return Err(Fuse(ENOENT));
      }
      r := Getattr(id.value);
    }

    /** `_remove`. */
    method Remove(parent: nat, name: string, entry: Attr) returns (r: Outcome)
      requires Linked()
      modifies metaStore, dataStore.bucket, cacheStore
      ensures (r, State()) == Namespace.Remove(config, old(State()), parent, name, entry, fixes)
    {
      var n := metaStore.LengthInodeIdList(entry.ino);
      if n > 2 {
        return Fail(Fuse(ENOTEMPTY));
      }
      UnlistName(parent, name, entry.ino);
      var found := DropLink(entry.ino);
      if !found {
        return Fail(Crash(NoneValue));
      }
      var inode := metaStore.GetInode(entry.ino);
      if entry.nlink == 1 && inode.lookupCount == 0 {
        DeleteUnlinked(entry.ino, inode);
      }
      r := Done;
    }

    /** One link fewer on the stored inode `id`, if there is one. */
    method DropLink(id: nat) returns (found: bool)
      modifies metaStore
      ensures var m := old(metaStore.State());
        && found == (id in m.records)
        && metaStore.State() == match m.Record(id)
                               case None => m
                               case Some(r) => m.UpdateInode(r.(nlink := r.nlink - 1))
    {
      var linked := metaStore.GetInode(id);
      found := linked != null;
      if found {
        linked.SetNlink(linked.nlink - 1);
      }
    }

    /** The name leaves its parent's list and the index. */
    method UnlistName(parent: nat, name: string, id: nat)
      modifies metaStore
      ensures metaStore.State() == old(metaStore.State()).RemoveFromList(parent, id, name).CleanIndex(parent, name)
    {
      metaStore.RemoveInodeIdFromList(parent, id, name);
      metaStore.CleanIndex(parent, name);
    }

    /** The deletion branch of `_remove`: a regular file's object and first cached block, the record, the counters. */
    method DeleteUnlinked(key: nat, inode: Inode)
      requires Linked() && key in metaStore.records
      modifies metaStore, dataStore.bucket, cacheStore
      ensures State() == Deleted(config, old(State()), key, inode.Record(), fixes)
    {
      if IsReg(inode.mode) {
        DropData(inode.id);
      }
      var _ := DeleteRecord(key);
      superBlock.DecrUsedSize(inode.size);
      superBlock.DecrInodeCounter();
    }

    /** `delete_inode`, as written or with the index check. */
    method DeleteRecord(id: nat) returns (r: Outcome)
      modifies metaStore
      ensures r == if id in old(metaStore.records) then Done else Fail(Crash(NoneValue))
      ensures metaStore.State() == if id in old(metaStore.records)
                                   then Namespace.DeleteRecord(old(metaStore.State()), id, fixes).value
                                   else old(metaStore.State())
    {
      if fixes.deleteChecksIndex {
        r := metaStore.CorrectedDeleteInode(id);
      } else {
        r := metaStore.DeleteInode(id);
      }
    }

    /** `delete_dnode` and `remove_inode(id, 0)` of a regular file. */
    method DropData(id: nat)
      modifies dataStore.bucket, cacheStore
      ensures dataStore.bucket.State() == old(dataStore.bucket.State()).Delete(NatToString(id))
      ensures cacheStore.State() == old(cacheStore.State()).Remove(id, 0)
    {
      dataStore.DeleteDnode(id, None);
      var _ := cacheStore.RemoveInode(id, 0);
    }

    method Rmdir(parent: nat, name: string) returns (r: Outcome)
      requires Linked()
      modifies metaStore, dataStore.bucket, cacheStore
      ensures (r, State()) == Namespace.Rmdir(config, old(State()), parent, name, fixes)
    {
      var entry := GetEntry(parent, name);
      if entry.Err? {
        return Fail(entry.failure);
      }
      if |name| > NameLimit {
        return if fixes.rmdirRaises then Fail(Fuse(ENAMETOOLONG)) else Done;
      }
      if !IsDir(entry.value.mode) {
        return Fail(Fuse(ENOTDIR));
      }
      r := Remove(parent, name, entry.value);
    }

    method Unlink(parent: nat, name: string) returns (r: Outcome)
      requires Linked()
      modifies metaStore, dataStore.bucket, cacheStore
      ensures (r, State()) == Namespace.Unlink(config, old(State()), parent, name, fixes)
    {
      var entry := GetEntry(parent, name);
      if entry.Err? {
        return Fail(entry.failure);
      }
      if IsDir(entry.value.mode) {
        return Fail(Fuse(EISDIR));
      }
      r := Remove(parent, name, entry.value);
    }

    // -------------------------------------------------------------------------
    // Links and renames

    method Link(id: nat, newParent: nat, newName: string) returns (r: Result<Attr>)
      requires Linked()
      modifies metaStore
      ensures (r, State()) == Namespace.Link(config, old(State()), id, newParent, newName, fixes)
    {
      var parentEntry := Getattr(newParent);
      if parentEntry.Err? {
        return Err(parentEntry.failure);
      }
      if parentEntry.value.nlink == 0 {
        return Err(if fixes.linkRaisesEinval then Fuse(EINVAL) else Crash(Undefined));
      }
      ListName(newParent, newName, id);
      var counted := CountLink(id);
      if !counted {
        return Err(Crash(NoneValue));
      }
      r := Getattr(id);
    }

    /** The new name enters the index and its parent's list. */
    method ListName(parent: nat, name: string, id: nat)
      modifies metaStore
      ensures metaStore.State() == old(metaStore.State()).BuildIndex(parent, id, name).AddToList(parent, id, name)
    {
      metaStore.BuildIndex(parent, id, name);
      metaStore.AddInodeIdToList(parent, id, name);
    }

    /** The link count and then the lookup count of the linked inode, each one up. */
    method CountLink(id: nat) returns (ok: bool)
      modifies metaStore
      ensures ok <==> id in old(metaStore.records)
      ensures !ok ==> metaStore.State() == old(metaStore.State())
      ensures ok ==> var m1 := old(metaStore.State());
        var m2 := m1.UpdateInode(m1.records[id].(nlink := m1.records[id].nlink + 1));
        id in m2.records && metaStore.State() == m2.UpdateInode(m2.records[id].(lookupCount := m2.records[id].lookupCount + 1))
    {
      var inode := metaStore.GetInode(id);
      if inode == null {
        return false;
      }
      inode.SetNlink(inode.nlink + 1);
      var again := metaStore.GetInode(id);
      again.SetLookupCount(again.lookupCount + 1);
      ok := true;
    }

    method Rename(oldParent: nat, oldName: string, newParent: nat, newName: string) returns (r: Outcome)
      requires Linked()
      modifies metaStore, cacheStore
      ensures (r, State()) == Namespace.Rename(config, old(State()), oldParent, oldName, newParent, newName, fixes)
    {
      var oldEntry := GetEntry(oldParent, oldName);
      if oldEntry.Err? {
        return Fail(oldEntry.failure);
      }
      var newEntry := GetEntry(newParent, newName);
      if newEntry.Err? {
        if newEntry.failure == Fuse(ENOENT) {
          r := MoveEntry(oldParent, oldName, newParent, newName, oldEntry.value);
        } else {
          r := Fail(newEntry.failure);
        }
        return;
      }
      r := Replace(oldParent, oldName, newParent, newName, oldEntry.value, newEntry.value);
    }

    /** The branch of `rename` for a free target name. */
    method MoveEntry(oldParent: nat, oldName: string, newParent: nat, newName: string, oldEntry: Attr)
      returns (r: Outcome)
      modifies metaStore
      ensures (r, State()) == Namespace.MoveEntry(old(State()), oldParent, oldName, newParent, newName, oldEntry, fixes)
    {
      metaStore.RemoveInodeIdFromList(oldParent, oldEntry.ino, oldName);
      metaStore.AddInodeIdToList(newParent, oldEntry.ino, newName);
      var inode := metaStore.GetInode(oldEntry.ino);
      if inode == null {
        return Fail(Crash(NoneValue));
      }
      ghost var m1 := metaStore.State();
      inode.SetName(Some(newName));
      if fixes.renameMovesParent {
        ghost var named := inode.Record();
        inode.SetParentInodeId(newParent);
        UpdateInodeTwice(m1, named, inode.Record());
      }
      metaStore.CleanIndex(oldParent, oldName);
      metaStore.BuildIndex(newParent, oldEntry.ino, newName);
      r := Done;
    }

    /** `_replace`. */
    method Replace(oldParent: nat, oldName: string, newParent: nat, newName: string, oldEntry: Attr, newEntry: Attr)
      returns (r: Outcome)
      modifies metaStore, cacheStore
      ensures (r, State()) == Namespace.Replace(old(State()), oldParent, oldName, newParent, newName, oldEntry, newEntry,
                                                fixes)
    {
      var empty := CheckEmpty(newEntry.ino);
      if empty.Fail? {
        return empty;
      }
      var target := metaStore.GetInode(newEntry.ino);
      if target == null {
        return Fail(Crash(NoneValue));
      }
      ReplaceInMeta(target, oldParent, oldName, newParent, newName, oldEntry.ino, newEntry.ino);
      var _ := cacheStore.RemoveInode(target.id, 0);
      r := Done;
    }

    /** The metadata writes of `_replace`: one link off the target, the list and index moves, the renamed record. */
    method ReplaceInMeta(target: Inode, oldParent: nat, oldName: string, newParent: nat, newName: string,
                         oldIno: nat, newIno: nat)
      requires target.meta == metaStore
      modifies metaStore, target
      ensures metaStore.State()
           == ReplacedMeta(old(metaStore.State()), old(target.Record()), oldParent, oldName, newParent, newName,
                           oldIno, newIno, fixes)
    {
      target.SetNlink(target.nlink - 1);
      var kept := if fixes.replaceUsesNewName then newName else oldName;
      MoveListing(oldParent, oldName, newParent, newName, oldIno, newIno, kept);
      metaStore.BuildIndex(newParent, oldIno, kept);
      if fixes.replaceUsesNewName {
        RenameMoved(oldIno, newName, newParent);
      }
    }

    /** `next(get_inode_id_list(id), None)`: refuse a directory with a first entry (a malformed one fails decoding). */
    method CheckEmpty(id: nat) returns (r: Outcome)
      ensures var l := metaStore.State().List(id);
        r == if |l| > 0 then (if DecodeEntry(l[0]).None? then Fail(Crash(Malformed)) else Fail(Fuse(ENOTEMPTY)))
             else Done
    {
      var children, stopped := metaStore.GetInodeIdList(id, 0);
      ghost var l := metaStore.State().List(id);
      assert l[Min(0, |l|)..] == l;
      if |children| > 0 {
        return Fail(Fuse(ENOTEMPTY));
      }
      r := if stopped then Fail(Crash(Malformed)) else Done;
    }

    /** The list and index changes of `_replace` before the new index entry. */
    method MoveListing(oldParent: nat, oldName: string, newParent: nat, newName: string, oldIno: nat, newIno: nat,
                       kept: string)
      modifies metaStore
      ensures metaStore.State() == old(metaStore.State())
                .RemoveFromList(oldParent, oldIno, oldName)
                .RemoveFromList(newParent, newIno, newName)
                .AddToList(newParent, oldIno, kept)
                .CleanIndex(newParent, newName)
                .CleanIndex(oldParent, oldName)
    {
      metaStore.RemoveInodeIdFromList(oldParent, oldIno, oldName);
      metaStore.RemoveInodeIdFromList(newParent, newIno, newName);
      metaStore.AddInodeIdToList(newParent, oldIno, kept);
      metaStore.CleanIndex(newParent, newName);
      metaStore.CleanIndex(oldParent, oldName);
    }

    /** The corrected `_replace` also stores the new name, and the new parent when that switch is on, in the record. */
    method RenameMoved(ino: nat, newName: string, newParent: nat)
      modifies metaStore
      ensures var m := old(metaStore.State());
        metaStore.State()
        == if ino in m.records
           then m.UpdateInode(m.records[ino].(name := Some(newName),
                                parentInodeId := if fixes.renameMovesParent then newParent else m.records[ino].parentInodeId))
           else m
    {
      var moved := metaStore.GetInode(ino);
      if moved != null {
        ghost var m2 := metaStore.State();
        moved.SetName(Some(newName));
        if fixes.renameMovesParent {
          ghost var named := moved.Record();
          moved.SetParentInodeId(newParent);
          UpdateInodeTwice(m2, named, moved.Record());
        }
      }
    }

    // -------------------------------------------------------------------------
    // Forget

    method Forget(items: seq<(nat, int)>) returns (r: Outcome)
      requires Linked()
      modifies metaStore, dataStore.bucket, cacheStore
      ensures (r, State()) == Namespace.Forget(config, old(State()), items, fixes)
    {
      var i := 0;
      while i < |items|
        invariant 0 <= i <= |items|
        invariant Namespace.Forget(config, old(State()), items, fixes) == Namespace.Forget(config, State(), items[i..], fixes)
      {
        assert items[i..][0] == items[i] && items[i..][1..] == items[i + 1..];
        r := ForgetOne(items[i].0, items[i].1);
        if r.Fail? {
          return;
        }
        i := i + 1;
      }
      r := Done;
    }

    /** One pass of `forget`'s loop. */
    method ForgetOne(id: nat, n: int) returns (r: Outcome)
      requires Linked()
      modifies metaStore, dataStore.bucket, cacheStore
      ensures (r, State()) == Namespace.ForgetOne(config, old(State()), id, n, fixes)
    {
      var inode := metaStore.GetInode(id);
      if inode == null {
        return Fail(Crash(NoneValue));
      }
      if inode.nlink == 0 && inode.lookupCount - n == 0 {
        r := DeleteForgotten(inode);
      } else {
        if fixes.forgetLowersCount {
          inode.SetLookupCount(inode.lookupCount - n);
        }
        r := Done;
      }
    }

    /** The deletion branch of `forget`. */
    method DeleteForgotten(inode: Inode) returns (r: Outcome)
      requires Linked()
      modifies metaStore, dataStore.bucket, cacheStore
      ensures (r, State()) == Forgotten(config, old(State()), inode.Record(), fixes)
    {
      if IsReg(inode.mode) {
        dataStore.DeleteDnode(inode.id, None);
        var kept := if fixes.forgetDropsLastBlock then CeilDiv(inode.size, config.dataBlockSize)
                    else FloorDiv(inode.size, config.dataBlockSize);
        DropCachedBlocks(inode.id, kept);
      }
      r := DeleteRecord(inode.id);
      if r.Fail? {
        return;
      }
      superBlock.DecrUsedSize(inode.size);
      superBlock.DecrInodeCounter();
    }

    /** `for object_block_id in range(n): remove_inode(id, object_block_id)`. */
    method DropCachedBlocks(inode: nat, n: int)
      modifies cacheStore
      ensures cacheStore.State() == DropBlocks(old(cacheStore.State()), inode, n)
    {
      DropNothing(cacheStore.State(), inode, 0);
      var b := 0;
      while b < n
        invariant 0 <= b <= if n < 0 then 0 else n
        invariant cacheStore.State() == DropBlocks(old(cacheStore.State()), inode, b)
      {
        var _ := cacheStore.RemoveInode(inode, b);
        DropOneMore(old(cacheStore.State()), inode, b);
        b := b + 1;
      }
      if n < 0 {
        DropNothing(old(cacheStore.State()), inode, 0);
        DropNothing(old(cacheStore.State()), inode, n);
      }
    }

    // -------------------------------------------------------------------------
    // NoCache

    /** `get_dnode(id)`, with the empty file the callers' `is None` checks expect when that switch is on. */
    method FetchObject(id: nat) returns (r: Result<Bytes>)
      requires Linked()
      ensures r == DataPath.FetchObject(dataStore.bucket.State(), id, dataFixes)
    {
      r := dataStore.GetDnode(id, None, None);
      if r.Err? && dataFixes.absentIsEmpty {
        r := Ok([]);
      }
    }

    method NoCacheRead(id: nat, off: nat, size: nat) returns (r: Result<Bytes>)
      requires Linked()
      ensures r == DataPath.NoCacheRead(State(), id, off, size, dataFixes)
    {
      var data := FetchObject(id);
      if data.Err? {
        return Err(data.failure);
      }
      r := Ok(Slice(data.value, off, off + size));
    }

    method NoCacheWrite(id: nat, off: nat, buf: Bytes) returns (r: Result<nat>)
      requires Linked()
      modifies metaStore, dataStore.bucket
      ensures (r, State()) == DataPath.NoCacheWrite(config, old(State()), id, off, buf, dataFixes)
    {
      var inode := metaStore.GetInode(id);
      var data := FetchObject(id);
      if data.Err? {
        return Err(data.failure);
      }
      var spliced := Splice(data.value, off, buf);
      dataStore.PutDnode(id, spliced, None);
      if inode == null {
        return Err(Crash(NoneValue));
      }
      var charged := ChargeResize(inode, |spliced|);
      if charged.Fail? {
        return Err(charged.failure);
      }
      r := Ok(|buf|);
    }

    /** `incr_used_size` for a file's size change, then on success the new size on the inode. */
    method ChargeResize(inode: Inode, size: nat) returns (charged: Outcome)
      requires Linked() && inode.meta == metaStore
      modifies metaStore, inode
      ensures var (o, m1) := config.keys.IncrUsedSize(old(metaStore.State()), size - old(inode.Record()).size);
        && charged == o
        && metaStore.State() == if o.Fail? then m1 else m1.UpdateInode(old(inode.Record()).(size := size))
    {
      charged := superBlock.IncrUsedSize(size - inode.size);
      if charged.Done? {
        inode.SetSize(size);
      }
    }

    /** The new size on the inode, then `incr_used_size` for the change. */
    method ResizeCharge(inode: Inode, size: nat) returns (charged: Outcome)
      requires Linked() && inode.meta == metaStore
      modifies metaStore, inode
      ensures (charged, metaStore.State())
           == config.keys.IncrUsedSize(old(metaStore.State()).UpdateInode(old(inode.Record()).(size := size)),
                                       size - old(inode.Record()).size)
    {
      var before := inode.size;
      inode.SetSize(size);
      charged := superBlock.IncrUsedSize(size - before);
    }

    // -------------------------------------------------------------------------
    // Cache

    method CacheOpen(id: nat) returns (r: Result<nat>)
      requires Linked()
      modifies metaStore, cacheStore
      ensures (r, State()) == DataPath.CacheOpen(old(State()), id, dataFixes)
    {
      var cached := cacheStore.ExistsInode(id, 0);
      if !cached {
        var data := FetchObject(id);
        if data.Err? {
          return Err(data.failure);
        }
        cacheStore.PutInode(id, data.value, 0);
      }
      r := Open(id);
    }

    method CacheRead(id: nat, off: nat, size: nat) returns (r: Bytes)
      ensures r == DataPath.CacheRead(State(), id, off, size)
    {
      r := cacheStore.ReadInode(id, off, off + size - 1, 0);
    }

    method CacheWrite(id: nat, off: nat, buf: Bytes) returns (r: Result<nat>)
      requires Linked()
      modifies metaStore, cacheStore
      ensures (r, State()) == DataPath.CacheWrite(config, old(State()), id, off, buf)
    {
      var inode := metaStore.GetInode(id);
      if inode == null {
        return Err(Crash(NoneValue));
      }
      var _ := cacheStore.WriteInode(id, off, buf, 0);
      var charged := ResizeCharge(inode, Max(inode.size, |buf| + off));
      if charged.Fail? {
        return Err(charged.failure);
      }
      r := Ok(|buf|);
    }

    method CacheRelease(id: nat) returns (r: Outcome)
      requires Linked()
      modifies metaStore, dataStore.bucket
      ensures (r, State()) == DataPath.CacheRelease(old(State()), id, dataFixes)
    {
      var inode := metaStore.GetInode(id);
      if inode == null {
        return Fail(Crash(NoneValue));
      }
      inode.SetOpenCount(inode.openCount - 1);
      if inode.openCount != 0 {
        return Done;
      }
      var data := cacheStore.GetInode(id, 0);
      if data.None? {
        if dataFixes.releaseStoresEmpty {
          dataStore.PutDnode(id, [], None);
          return Done;
        }
        return Fail(Crash(NoneValue));
      }
      dataStore.PutDnode(id, data.value, None);
      r := Done;
    }

    // -------------------------------------------------------------------------
    // Multipart

    /**
     * `read(id, off, size)`; `jobs` are the blocks handed to `map_async` for
     * prefetching.
     */
    method MultipartRead(id: nat, off: nat, size: nat) returns (r: Result<Bytes>, jobs: seq<nat>)
      requires Linked()
      modifies cacheStore
      ensures (r, jobs, State()) == DataPath.MultipartRead(config, old(State()), id, off, size, dataFixes)
    {
      jobs := [];
      var inode := metaStore.GetInode(id);
      if inode == null {
        return Err(Crash(NoneValue)), [];
      }
      if off >= inode.size {
        return Ok([]), [];
      }
      var block := off / config.dataBlockSize;
      var inner := off - block * config.dataBlockSize;
      var cached := cacheStore.ExistsInode(id, block);
      if cached {
        var data := ReadCached(id, block, inner, size);
        return Ok(data), [];
      }
      if block == 0 {
        jobs := PrefetchList(block + 1, inode.size / config.dataBlockSize);
      }
      r := LoadBlock(id, block, inner, size);
    }

    /** A read served from a cached block. */
    method ReadCached(id: nat, block: nat, inner: nat, size: nat) returns (data: Bytes)
      requires cacheStore.State().Exists(id, block)
      ensures data == if dataFixes.readUsesLength then Slice(cacheStore.State().Value(id, block), inner, inner + size)
                      else cacheStore.State().Read(id, inner, size, block)
    {
      if dataFixes.readUsesLength {
        var whole := cacheStore.GetInode(id, block);
        data := Slice(whole.value, inner, inner + size);
      } else {
        data := cacheStore.ReadInode(id, inner, size, block);
      }
    }

    /** A read of a block not cached: fetched from the object's byte range, cached, then sliced. */
    method LoadBlock(id: nat, block: nat, inner: nat, size: nat) returns (r: Result<Bytes>)
      requires Linked()
      modifies cacheStore
      ensures match dataStore.bucket.State().Get(ObjectName(id), Some(BlockRange(block, config.dataBlockSize)))
              case Err(f) => r == Err(f) && cacheStore.State() == old(cacheStore.State())
              case Ok(d) =>
                && r == Ok(if dataFixes.readUsesLength then Slice(d, inner, inner + size) else Slice(d, inner, size))
                && cacheStore.State() == old(cacheStore.State()).Put(id, block, d)
    {
      var fetched := dataStore.GetDnode(id, Some(block), None);
      if fetched.Err? {
        return Err(fetched.failure);
      }
      cacheStore.PutInode(id, fetched.value, block);
      r := Ok(if dataFixes.readUsesLength then Slice(fetched.value, inner, inner + size)
              else Slice(fetched.value, inner, size));
    }

    /** The loop building `prefetch_list`: one job per block in `range(lo, hi)`. */
    method PrefetchList(lo: nat, hi: int) returns (jobs: seq<nat>)
      ensures jobs == Range(lo, hi)
    {
      jobs := [];
      var k := lo;
      while k < hi
        invariant lo <= k <= (if hi < lo then lo else hi) && |jobs| == k - lo
        invariant forall i :: 0 <= i < |jobs| ==> jobs[i] == lo + i
      {
        jobs := jobs + [k];
        k := k + 1;
      }
    }

    method MultipartWrite(id: nat, off: nat, buf: Bytes, now: int) returns (r: Result<nat>)
      requires Linked()
      modifies this, cacheStore
      ensures (r, State()) == DataPath.MultipartWrite(config, old(State()), id, off, buf, now)
    {
      var inode := metaStore.GetInode(id);
      if inode == null {
        return Err(Crash(NoneValue));
      }
      var block := off / config.dataBlockSize;
      var inner := off - block * config.dataBlockSize;
      var _ := cacheStore.WriteInode(id, inner, buf, block);
      var written := if id in localFragments then localFragments[id] else [];
      localFragments := localFragments[id := written + [(id, block, now)]];
      var dirty := if id in localDirty then localDirty[id] else {};
      localDirty := localDirty[id := dirty + {block}];
      r := Ok(|buf|);
    }

    method MultipartRelease(id: nat) returns (r: Outcome)
      modifies metaStore
      ensures (r, State()) == DataPath.MultipartRelease(old(State()), id)
    {
      var inode := metaStore.GetInode(id);
      if inode == null {
        return Fail(Crash(NoneValue));
      }
      inode.SetOpenCount(inode.openCount - 1);
      r := Done;
    }

    /** `fsync`. */
    method Fsync(id: nat, now: nat) returns (r: Outcome)
      requires Linked()
      modifies this, dataStore.bucket, cacheStore, fragmentMap, mergeQueue, dirtySet, cleanSet
      ensures (r, State()) == DataPath.Sync(config, old(State()), id, now, dataFixes)
    {
      r := Sync(id, now);
    }

    /**
     * `_sync(id)`: the dirty blocks in ascending order (the copy of the
     * in-process set followed by `sort`), the log object's multipart upload,
     * and the flush when there is a block.
     */
    method Sync(id: nat, now: nat) returns (r: Outcome)
      requires Linked()
      modifies this, dataStore.bucket, cacheStore, fragmentMap, mergeQueue, dirtySet, cleanSet
      ensures (r, State()) == DataPath.Sync(config, old(State()), id, now, dataFixes)
    {
      var inode := metaStore.GetInode(id);
      var blocks := SortedElements(if id in localDirty then localDirty[id] else {});
      var log := FragmentMaps.LogKey(id, blocks, now);
      var logObject := dataStore.Object(log);
      var upload := logObject.InitiateMultipartUpload();
      if |blocks| == 0 {
        return Done;
      }
      if inode == null {
        return Fail(Crash(NoneValue));
      }
      r := Flush(id, inode.id, blocks, upload, log, now);
    }

    /** The uploads, the completion list, the completion and the bookkeeping of `_sync`. */
    method Flush(id: nat, inode: nat, blocks: seq<nat>, upload: nat, log: string, now: nat) returns (r: Outcome)
      requires Linked() && |blocks| > 0 && log == FragmentMaps.LogKey(id, blocks, now)
      modifies this, dataStore.bucket, cacheStore, fragmentMap, mergeQueue, dirtySet, cleanSet
      ensures (r, State()) == DataPath.Flush(config, old(State()), id, inode, blocks, upload, log, now, dataFixes)
    {
      var results := UploadBlocks(inode, blocks, upload, log);
      ghost var fs2 := State();
      var parts := PartEntries(results);
      if parts.None? {
        return Fail(Crash(NoneValue));
      }
      var logObject := dataStore.Object(log);
      var _ := logObject.CompleteMultipartUpload(upload, parts.value);
      assert State() == fs2.(bucket := CompleteFlush(fs2.bucket, log, upload, results));
      RecordFlush(id, blocks, now);
      r := Done;
    }

    /** The bookkeeping `_sync` does once the log object is complete. */
    method RecordFlush(id: nat, blocks: seq<nat>, now: nat)
      requires Linked() && |blocks| > 0
      modifies this, fragmentMap, mergeQueue, dirtySet, cleanSet
      ensures State() == Record(config, old(State()), id, blocks, FragmentMaps.LogKey(id, blocks, now), now, dataFixes)
    {
      ghost var fs := State();
      var index := FragmentMaps.LogKey(id, blocks, now);
      IndexFlush(id, blocks, now);
      mergeQueue.Insert(id, index);
      MoveToClean(id, blocks);
      if dataFixes.syncClearsDirty {
        localDirty := localDirty[id := {}];
      }
      assert metaStore.State() == fs.meta && dataStore.bucket.State() == fs.bucket && cacheStore.State() == fs.cache;
    }

    /** `add_log_fragment` then `remove_cache_fragment` of the flushed blocks. */
    method IndexFlush(id: nat, blocks: seq<nat>, now: nat)
      requires Linked()
      modifies fragmentMap
      ensures fragmentMap.State()
           == old(fragmentMap.State()).AddAll(id, blocks, FragmentMaps.LogKey(id, blocks, now), now)
                .RemoveAll(config.fsName, FragmentMaps.CacheFragment, id, blocks, now)
    {
      fragmentMap.AddLogFragment(id, blocks, now);
      fragmentMap.RemoveCacheFragment(id, blocks, now);
    }

    /** The flushed blocks leave the dirty set and join the clean set. */
    method MoveToClean(id: nat, blocks: seq<nat>)
      requires Linked() && |blocks| > 0
      modifies dirtySet, cleanSet
      ensures dirtySet.State() == old(dirtySet.State()).Remove(id, blocks)
      ensures cleanSet.State() == old(cleanSet.State()).Add(id, blocks)
    {
      var _ := dirtySet.Remove(id, blocks);
      var _ := cleanSet.Add(id, blocks);
    }

    /** `pool.map(multipart_upload_object_block, args_list)`: the uploads in list order. */
    method UploadBlocks(inode: nat, blocks: seq<nat>, upload: nat, log: string)
      returns (results: seq<Option<(string, int)>>)
      requires Linked()
      modifies dataStore.bucket, cacheStore
      ensures (results, dataStore.bucket.State(), cacheStore.State())
           == UploadAll(old(dataStore.bucket.State()), old(cacheStore.State()), inode, blocks, upload, log,
                        config.dataBlockSize)
    {
      results := [];
      var i := 0;
      assert blocks[i..] == blocks;
      ghost var all := UploadAll(dataStore.bucket.State(), cacheStore.State(), inode, blocks, upload, log,
                                 config.dataBlockSize);
      assert [] + all.0 == all.0;
      while i < |blocks|
        invariant 0 <= i <= |blocks|
        invariant UploadAll(old(dataStore.bucket.State()), old(cacheStore.State()), inode, blocks, upload, log,
                            config.dataBlockSize)
               == Prefixed(results, UploadAll(dataStore.bucket.State(), cacheStore.State(), inode, blocks[i..], upload,
                                              log, config.dataBlockSize))
      {
        assert blocks[i..][0] == blocks[i] && blocks[i..][1..] == blocks[i + 1..];
        var res := BlockTasks.MultipartUploadObjectBlock(dataStore, cacheStore, inode, blocks[i], upload, Some(log));
        PrefixedOne(results, res, UploadAll(dataStore.bucket.State(), cacheStore.State(), inode, blocks[i + 1..],
                                            upload, log, config.dataBlockSize));
        results := results + [res];
        i := i + 1;
      }
      assert blocks[i..] == [] && results + [] == results;
    }

    /** The loop collecting `{'ETag': .., 'PartNumber': ..}` from each result; a failed upload gives None, which it cannot index. */
    method PartEntries(results: seq<Option<(string, int)>>) returns (parts: Option<seq<PartEntry>>)
      ensures parts.Some? <==> AllUploaded(results)
      ensures parts.Some? ==> parts.value == PartList(results)
    {
      var list: seq<PartEntry> := [];
      var i := 0;
      while i < |results|
        invariant 0 <= i <= |results| && |list| == i
        invariant forall k :: 0 <= k < i ==> results[k].Some? && list[k] == PartEntry(results[k].value.0, results[k].value.1)
      {
        if results[i].None? {
          return None;
        }
        list := list + [PartEntry(results[i].value.0, results[i].value.1)];
        i := i + 1;
      }
      assert AllUploaded(results);
      assert list == PartList(results);
      parts := Some(list);
    }

    // -------------------------------------------------------------------------
    // Statistics

    method Statfs() returns (r: Result<StatFs>)
      requires Linked()
      ensures r == Namespace.Statfs(config, metaStore.State())
    {
      var bsize := superBlock.BlockSize();
      if bsize.None? {
        return Err(Crash(NoneValue));
      }
      if bsize.value == 0 {
        return Err(Crash(DivisionByZero));
      }
      var total := superBlock.TotalSize();
      var used := superBlock.UsedSize();
      var blocks := FloorDiv(total, bsize.value);
      var bfree := FloorDiv(total - used, bsize.value);
      var files := superBlock.MaxInodes();
      if files.None? {
        return Err(Crash(NoneValue));
      }
      var counter := superBlock.InodeCounter();
      if counter.None? {
        return Err(Crash(NoneValue));
      }
      var ffree := files.value - counter.value;
      r := Ok(StatFs(bsize.value, bsize.value, blocks, bfree, bfree, files.value, ffree, ffree));
    }
  }
}
