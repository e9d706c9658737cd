/**
 * The data path of the three operation modes (objectfs/core/objectfs_operations.py):
 *
 *  - `NoCache` keeps a file's bytes in its bucket object only: `read` slices
 *    the object, `write` splices into it and stores it back.
 *  - `Cache` keeps an open file's bytes in cache block 0: `open` loads the
 *    object into the block, `read` and `write` use the block, and the last
 *    `release` stores the block back into the object.
 *  - `Multipart` writes into cache blocks of `DATA_BLOCK_SIZE` bytes and
 *    remembers them in an in-process dirty set; `_sync` flushes the dirty
 *    blocks as the parts of one log object and records the log in the
 *    fragment index and the merge queue; `read` serves one block, from the
 *    cache or from a ranged read of the base object.
 *
 * Each operation is a function from the stores' contents before the call to
 * its result and the contents after it.
 */
module DataPath {
  import opened Common
  import opened Strings
  import opened Inodes
  import opened MetaStores
  import opened SuperBlocks
  import opened Objects
  import opened CacheStores
  import opened Namespace
  import FragmentMaps
  import BlockSets
  import MergeQueues
  import ObjectStores
  import BlockTasks

  /**
   * Deviations from the source that the model can switch on one by one; the
   * operations as written run with every switch off.
   */
  datatype DataFixes = DataFixes(
    absentIsEmpty: bool,   // a file without a bucket object reads as empty, as the `is None` checks expect
    readUsesLength: bool,  // multipart `read` takes `size` as a length, not as an end index
    releaseStoresEmpty: bool, // the last `release` stores an empty object for a file never cached
    syncClearsDirty: bool) // `_sync` forgets the blocks it has flushed

  const DataAsWritten: DataFixes := DataFixes(false, false, false, false)
  const DataCorrected: DataFixes := DataFixes(true, true, true, true)

  /** `ObjectFsOperationsFactory.create_operations`: the three modes it knows. */
  datatype Mode = CacheMode | NoCacheMode | MultipartMode

  function CreateOperations(mode: string): (r: Result<Mode>)
    ensures r.Ok? <==> mode in {"Cache", "NoCache", "Multipart"}
    ensures r.Ok? ==> (r.value == CacheMode <==> mode == "Cache") && (r.value == NoCacheMode <==> mode == "NoCache")
  {
    if mode == "Cache" then Ok(CacheMode)
    else if mode == "NoCache" then Ok(NoCacheMode)
    else if mode == "Multipart" then Ok(MultipartMode)
    else Err(Crash(Unsupported))
  }

  /** The name of an inode's base object. */
  function ObjectName(id: nat): string
  {
    ObjectStores.Target(id, None)
  }

  /**
   * `get_dnode(id)`: the whole base object. A missing object makes S3 raise;
   * the switch instead gives the empty file the callers' `is None` checks
   * provide for.
   */
  function FetchObject(bk: Bucket, id: nat, fx: DataFixes): Result<Bytes>
  {
    match bk.Get(ObjectName(id), None)
    case Err(f) => if fx.absentIsEmpty then Ok([]) else Err(f)
    case Ok(d) => Ok(d)
  }

  // ---------------------------------------------------------------------------
  // NoCache

  /** `read(id, off, size)`: the object's bytes `off .. off+size-1`, as far as they go. */
  function NoCacheRead(fs: Fs, id: nat, off: nat, size: nat, fx: DataFixes): Result<Bytes>
  {
    match FetchObject(fs.bucket, id, fx)
    case Err(f) => Err(f)
    case Ok(d) => Ok(Slice(d, off, off + size))
  }

  /**
   * `write(id, off, buf)`: splice `buf` into the object at `off` and store
   * it; then charge the growth against the used size (ENOSPC after the
   * object is stored) and set the inode's size to the object's length.
   */
  function NoCacheWrite(c: Config, fs: Fs, id: nat, off: nat, buf: Bytes, fx: DataFixes): (Result<nat>, Fs)
  {
    var rec := fs.meta.Record(id);
    match FetchObject(fs.bucket, id, fx)
    case Err(f) => (Err(f), fs)
    case Ok(d) =>
      var data := Splice(d, off, buf);
      var fs1 := fs.(bucket := fs.bucket.Put(ObjectName(id), data));
      match rec
      case None => (Err(Crash(NoneValue)), fs1)
      case Some(r) =>
        var (o, m1) := c.keys.IncrUsedSize(fs.meta, |data| - r.size);
        if o.Fail? then (Err(o.failure), fs1)
        else (Ok(|buf|), fs1.(meta := m1.UpdateInode(r.(size := |data|))))
  }

  // ---------------------------------------------------------------------------
  // Cache

  /** `open`: load the object into cache block 0 unless the block is cached, then count the open. */
  function CacheOpen(fs: Fs, id: nat, fx: DataFixes): (Result<nat>, Fs)
  {
    if fs.cache.Exists(id, 0) then Open(fs, id)
    else match FetchObject(fs.bucket, id, fx)
      case Err(f) => (Err(f), fs)
      case Ok(d) => Open(fs.(cache := fs.cache.Put(id, 0, d)), id)
  }

  /** `read(id, off, size)`: `GETRANGE off off+size-1` of cache block 0. */
  function CacheRead(fs: Fs, id: nat, off: nat, size: nat): Bytes
  {
    fs.cache.Read(id, off, off + size - 1, 0)
  }

  /**
   * `write(id, off, buf)`: `SETRANGE` into cache block 0, grow the size to
   * cover the write, then charge the growth against the used size (ENOSPC
   * after the size is stored).
   */
  function CacheWrite(c: Config, fs: Fs, id: nat, off: nat, buf: Bytes): (Result<nat>, Fs)
  {
    match fs.meta.Record(id)
    case None => (Err(Crash(NoneValue)), fs)
    case Some(r) =>
      var size := Max(r.size, |buf| + off);
      var m1 := fs.meta.UpdateInode(r.(size := size));
      var fs1 := fs.(cache := fs.cache.Write(id, off, buf, 0), meta := m1);
      var (o, m2) := c.keys.IncrUsedSize(m1, size - r.size);
      if o.Fail? then (Err(o.failure), fs1) else (Ok(|buf|), fs1.(meta := m2))
  }

  /**
   * `release(id)`: count the close; the last close stores cache block 0 as
   * the object. For a block never cached `get_inode` gives None, which the
   * upload cannot read.
   */
  function CacheRelease(fs: Fs, id: nat, fx: DataFixes): (Outcome, Fs)
  {
    match fs.meta.Record(id)
    case None => (Fail(Crash(NoneValue)), fs)
    case Some(r) =>
      var fs1 := fs.(meta := fs.meta.UpdateInode(r.(openCount := r.openCount - 1)));
      if r.openCount - 1 != 0 then (Done, fs1)
      else match fs.cache.Get(id, 0)
        case None =>
          if fx.releaseStoresEmpty then (Done, fs1.(bucket := fs.bucket.Put(ObjectName(id), [])))
          else (Fail(Crash(NoneValue)), fs1)
        case Some(d) => (Done, fs1.(bucket := fs.bucket.Put(ObjectName(id), d)))
  }

  // ---------------------------------------------------------------------------
  // Multipart

  /** `range(lo, hi)`. */
  function Range(lo: nat, hi: int): (r: seq<nat>)
    ensures |r| == if hi <= lo then 0 else hi - lo
    ensures forall i :: 0 <= i < |r| ==> r[i] == lo + i
    decreases hi - lo
  {
    if hi <= lo then [] else [lo] + Range(lo + 1, hi)
  }

  /**
   * `read(id, off, size)`: nothing at or past the end of the file; else the
   * block holding `off`, from the cache when it is there, otherwise by a
   * ranged read of the base object, which is then cached. A read of block 0
   * that misses the cache also starts prefetching blocks `1 .. size//B - 1`
   * in the background; the second result lists them. As written the cached
   * read asks `GETRANGE` for bytes `off mod B` through `size`, and the
   * fetched read slices `[off mod B : size]`, both taking `size` as an end
   * position within the block.
   */
  function MultipartRead(c: Config, fs: Fs, id: nat, off: nat, size: nat, fx: DataFixes): (Result<Bytes>, seq<nat>, Fs)
  {
    match fs.meta.Record(id)
    case None => (Err(Crash(NoneValue)), [], fs)
    case Some(r) =>
      if off >= r.size then (Ok([]), [], fs)
      else
        var b := c.dataBlockSize;
        var block := off / b;
        var inner := off - block * b;
        if fs.cache.Exists(id, block) then
          var data := if fx.readUsesLength then Slice(fs.cache.Value(id, block), inner, inner + size)
                      else fs.cache.Read(id, inner, size, block);
          (Ok(data), [], fs)
        else
          var jobs := if block == 0 then Range(block + 1, r.size / b) else [];
          match fs.bucket.Get(ObjectName(id), Some(BlockRange(block, b)))
          case Err(f) => (Err(f), jobs, fs)
          case Ok(d) =>
            var data := if fx.readUsesLength then Slice(d, inner, inner + size) else Slice(d, inner, size);
            (Ok(data), jobs, fs.(cache := fs.cache.Put(id, block, d)))
  }

  function DirtyOf(fs: Fs, id: nat): set<nat>
  {
    if id in fs.localDirty then fs.localDirty[id] else {}
  }

  function FragmentsOf(fs: Fs, id: nat): seq<(nat, nat, int)>
  {
    if id in fs.localFragments then fs.localFragments[id] else []
  }

  /**
   * `write(id, off, buf)`: `SETRANGE` into the block holding `off`, at
   * `off mod B`; record the write in the in-process fragment list and the
   * block in the in-process dirty set. The inode's size is left as it was.
   */
  function MultipartWrite(c: Config, fs: Fs, id: nat, off: nat, buf: Bytes, now: int): (Result<nat>, Fs)
  {
    match fs.meta.Record(id)
    case None => (Err(Crash(NoneValue)), fs)
    case Some(_) =>
      var block := off / c.dataBlockSize;
      var inner := off - block * c.dataBlockSize;
      (Ok(|buf|), fs.(cache := fs.cache.Write(id, inner, buf, block),
                      localFragments := fs.localFragments[id := FragmentsOf(fs, id) + [(id, block, now)]],
                      localDirty := fs.localDirty[id := DirtyOf(fs, id) + {block}]))
  }

  /** `release(id)` of the multipart mode: count the close, nothing more. */
  function MultipartRelease(fs: Fs, id: nat): (Outcome, Fs)
  {
    match fs.meta.Record(id)
    case None => (Fail(Crash(NoneValue)), fs)
    case Some(r) => (Done, fs.(meta := fs.meta.UpdateInode(r.(openCount := r.openCount - 1))))
  }

  /** `pool.map(multipart_upload_object_block, args)`: the block uploads, one after the other, in list order. */
  function UploadAll(bk: Bucket, cache: Blocks, inode: nat, blocks: seq<nat>, id: nat, log: string, bs: BlockSize)
    : (seq<Option<(string, int)>>, Bucket, Blocks)
    decreases |blocks|
  {
    if |blocks| == 0 then ([], bk, cache)
    else
      var (r, bk1, c1) := BlockTasks.UploadFromCache(bk, cache, inode, blocks[0], id, Some(log), bs);
      var (rs, bk2, c2) := UploadAll(bk1, c1, inode, blocks[1..], id, log, bs);
      ([r] + rs, bk2, c2)
  }

  predicate AllUploaded(rs: seq<Option<(string, int)>>)
  {
    forall i :: 0 <= i < |rs| ==> rs[i].Some?
  }

  /** The completion list built from the upload results. */
  function PartList(rs: seq<Option<(string, int)>>): (list: seq<PartEntry>)
    requires AllUploaded(rs)
    ensures |list| == |rs| && forall i :: 0 <= i < |rs| ==> list[i] == PartEntry(rs[i].value.0, rs[i].value.1)
  {
    if |rs| == 0 then [] else [PartEntry(rs[0].value.0, rs[0].value.1)] + PartList(rs[1..])
  }

  /** `complete_multipart_upload` of a flush; a refusal is ignored. */
  function CompleteFlush(bk: Bucket, log: string, upload: nat, rs: seq<Option<(string, int)>>): Bucket
    requires AllUploaded(rs)
  {
    match bk.Complete(log, upload, PartList(rs))
    case Ok(b) => b
    case Err(_) => bk
  }

  /**
   * `_sync(id)`: the dirty blocks in ascending order name a log object,
   * on which a multipart upload is opened; with no dirty block that is all.
   * Each block's first B cached bytes are uploaded as part `block + 1` and
   * the cached block dropped; an upload that failed stops the flush when
   * the results are collected. The upload is completed (a refusal is
   * ignored), the log is indexed under each block with the flush time as
   * its score, queued for merging, the blocks' cache fragments are
   * removed, and the blocks move from the dirty to the clean set. As
   * written the in-process dirty set keeps the blocks.
   */
  function Sync(c: Config, fs: Fs, id: nat, now: nat, fx: DataFixes): (Outcome, Fs)
  {
    var blocks := SortedElements(DirtyOf(fs, id));
    var log := FragmentMaps.LogKey(id, blocks, now);
    var (upload, bk1) := fs.bucket.Initiate(log);
    if |blocks| == 0 then (Done, fs.(bucket := bk1))
    else match fs.meta.Record(id)
      case None => (Fail(Crash(NoneValue)), fs.(bucket := bk1))
      case Some(r) => Flush(c, fs.(bucket := bk1), id, r.id, blocks, upload, log, now, fx)
  }

  /** The uploads and the completion of a flush, on the bucket with the upload open. */
  function Flush(c: Config, fs: Fs, id: nat, inode: nat, blocks: seq<nat>, upload: nat, log: string,
                 now: nat, fx: DataFixes): (Outcome, Fs)
  {
    var (rs, bk2, cache2) := UploadAll(fs.bucket, fs.cache, inode, blocks, upload, log, c.dataBlockSize);
    var fs2 := fs.(bucket := bk2, cache := cache2);
    if !AllUploaded(rs) then (Fail(Crash(NoneValue)), fs2)
    else (Done, Record(c, fs2.(bucket := CompleteFlush(bk2, log, upload, rs)), id, blocks, log, now, fx))
  }

  /** The bookkeeping of a completed flush: fragment index, merge queue, dirty and clean sets. */
  function Record(c: Config, fs: Fs, id: nat, blocks: seq<nat>, log: string, now: nat, fx: DataFixes): Fs
  {
    fs.(fragments := fs.fragments.AddAll(id, blocks, log, now)
                       .RemoveAll(c.fsName, FragmentMaps.CacheFragment, id, blocks, now),
        queue := fs.queue.Insert(id, log),
        dirty := fs.dirty.Remove(id, blocks),
        clean := fs.clean.Add(id, blocks),
        localDirty := if fx.syncClearsDirty then fs.localDirty[id := {}] else fs.localDirty)
  }
}
