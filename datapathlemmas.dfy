/**
 * What the data path promises: the bytes a write leaves and a read returns,
 * the size and used-size bookkeeping, what a flush uploads and records, and
 * that every data operation keeps the namespace invariant `Valid`.
 */
module DataPathLemmas {
  import opened Common
  import opened Strings
  import opened Inodes
  import opened MetaStores
  import opened SuperBlocks
  import opened Objects
  import opened CacheStores
  import opened Namespace
  import opened NamespaceInvariants
  import opened NamespaceLemmas
  import opened DataPath
  import FragmentMaps
  import ObjectStores
  import BlockTasks
  import BlockSets
  import MergeQueues

  // ---------------------------------------------------------------------------
  // NoCache

  /**
   * `write` of the NoCache mode: a missing object fails first and changes
   * nothing. Otherwise the stored object is `buf` spliced in at `off`: as
   * long as the old object or the write reaches, with the old bytes kept
   * around the write and a zero-filled gap. It is stored even when the space
   * check then fails; the write succeeds exactly when the inode exists and
   * the growth fits the capacity, and then the size is the object's length
   * and the used size grows by the difference.
   */
  lemma NoCacheWriteSpec(c: Config, fs: Fs, id: nat, off: nat, buf: Bytes, fx: DataFixes)
    requires Valid(c, fs.meta)
    ensures var (r, fs') := NoCacheWrite(c, fs, id, off, buf, fx);
      var k := c.keys;
      && (FetchObject(fs.bucket, id, fx).Err? ==> r.Err? && fs' == fs)
      && (FetchObject(fs.bucket, id, fx).Ok? ==>
            var d := FetchObject(fs.bucket, id, fx).value;
            var data := fs'.bucket.objects[ObjectName(id)];
            && fs'.bucket == fs.bucket.Put(ObjectName(id), data)
            && |data| == Max(|d|, off + |buf|)
            && (forall i :: 0 <= i < |data| ==>
                  data[i] == if off <= i < off + |buf| then buf[i - off] else if i < |d| then d[i] else 0)
            && fs'.cache == fs.cache
            && (r.Ok? <==> id in fs.meta.records && k.UsedSize(fs.meta) + |data| - fs.meta.records[id].size <= k.TotalSize(fs.meta))
            && (r.Ok? ==>
                  && r.value == |buf|
                  && fs'.meta.records == fs.meta.records[id := fs.meta.records[id].(size := |data|)]
                  && k.UsedSize(fs'.meta) == k.UsedSize(fs.meta) + |data| - fs.meta.records[id].size)
            && (r.Err? ==> fs'.meta == fs.meta))
  {
  }

  /** The metadata a NoCache `write` leaves: unchanged on failure, else the charge and the new size. */
  lemma NoCacheWriteMeta(c: Config, fs: Fs, id: nat, off: nat, buf: Bytes, fx: DataFixes)
    ensures var (r, fs') := NoCacheWrite(c, fs, id, off, buf, fx);
      r.Ok? ==>
        && id in fs.meta.records && FetchObject(fs.bucket, id, fx).Ok?
        && var data := Splice(FetchObject(fs.bucket, id, fx).value, off, buf);
           var rec := fs.meta.records[id];
           fs'.meta == c.keys.IncrUsedSize(fs.meta, |data| - rec.size).1.UpdateInode(rec.(size := |data|))
    ensures var (r, fs') := NoCacheWrite(c, fs, id, off, buf, fx);
      r.Err? ==> fs'.meta == fs.meta
  {
  }

  /** NoCache `write` keeps the namespace invariant. */
  lemma NoCacheWriteValid(c: Config, fs: Fs, id: nat, off: nat, buf: Bytes, fx: DataFixes)
    requires Valid(c, fs.meta)
    ensures Valid(c, NoCacheWrite(c, fs, id, off, buf, fx).1.meta)
  {
    NoCacheWriteMeta(c, fs, id, off, buf, fx);
    var (r, fs') := NoCacheWrite(c, fs, id, off, buf, fx);
    if r.Ok? {
      ChargedResizeValid(c, fs.meta, fs'.meta, id, |Splice(FetchObject(fs.bucket, id, fx).value, off, buf)|);
    }
  }

  /** Charging a file's size change and then recording the new size keeps the invariant. */
  lemma ChargedResizeValid(c: Config, m: Meta, m': Meta, id: nat, size: nat)
    requires Valid(c, m) && id in m.records
    requires m' == c.keys.IncrUsedSize(m, size - m.records[id].size).1.UpdateInode(m.records[id].(size := size))
    ensures Valid(c, m')
  {
    ChargeValid(c, m, size - m.records[id].size);
    assert c.keys.IncrUsedSize(m, size - m.records[id].size).1.records == m.records;
    UpdateValid(c, c.keys.IncrUsedSize(m, size - m.records[id].size).1, m.records[id].(size := size));
  }

  /**
   * The bytes a NoCache `write` stores read back: reading `|buf|` bytes at
   * `off` returns `buf`, also when the write itself failed for lack of space.
   */
  lemma NoCacheWriteThenRead(c: Config, fs: Fs, id: nat, off: nat, buf: Bytes, fx: DataFixes)
    requires Valid(c, fs.meta) && FetchObject(fs.bucket, id, fx).Ok?
    ensures var (r, fs') := NoCacheWrite(c, fs, id, off, buf, fx);
      (r.Ok? || r == Err(Fuse(ENOSPC))) ==> NoCacheRead(fs', id, off, |buf|, fx) == Ok(buf)
  {
    var (r, fs') := NoCacheWrite(c, fs, id, off, buf, fx);
    NoCacheWriteSpec(c, fs, id, off, buf, fx);
    var data := fs'.bucket.objects[ObjectName(id)];
    assert FetchObject(fs'.bucket, id, fx) == Ok(data);
    assert Slice(data, off, off + |buf|) == buf;
  }

  /**
   * Finding, as written: a file `create` has just made has no bucket object,
   * so in the NoCache mode its first `write` fails on S3's missing-key error
   * and changes nothing, and so does every `read` of it.
   */
  lemma NewFileWriteFails(c: Config, fs: Fs, parent: nat, name: string, mode: nat, now: int,
                          off: nat, buf: Bytes, size: nat)
    requires Valid(c, fs.meta) && Create(c, fs, parent, name, mode, now).0.Ok?
    requires ObjectName(Create(c, fs, parent, name, mode, now).0.value.0) !in fs.bucket.objects
    ensures var (a, fs1) := Create(c, fs, parent, name, mode, now);
      && NoCacheWrite(c, fs1, a.value.0, off, buf, DataAsWritten) == (Err(Crash(BackendError)), fs1)
      && NoCacheRead(fs1, a.value.0, off, size, DataAsWritten) == Err(Crash(BackendError))
  {
    CreateSpec(c, fs, parent, name, mode, None, now);
  }

  /**
   * Finding, corrected: with a missing object read as empty, the first write
   * to the new file stores `buf` after `off` zero bytes, and the file's size
   * becomes that length, whenever the capacity allows it.
   */
  lemma CorrectedNewFileWrite(c: Config, fs: Fs, parent: nat, name: string, mode: nat, now: int,
                              off: nat, buf: Bytes)
    requires Valid(c, fs.meta) && Create(c, fs, parent, name, mode, now).0.Ok?
    requires ObjectName(Create(c, fs, parent, name, mode, now).0.value.0) !in fs.bucket.objects
    requires c.keys.UsedSize(fs.meta) + off + |buf| <= c.keys.TotalSize(fs.meta)
    ensures var (a, fs1) := Create(c, fs, parent, name, mode, now);
      var (r, fs2) := NoCacheWrite(c, fs1, a.value.0, off, buf, DataCorrected);
      && r == Ok(|buf|)
      && fs2.bucket.objects[ObjectName(a.value.0)] == Zeros(off) + buf
      && fs2.meta.records[a.value.0].size == off + |buf|
  {
    CreateSpec(c, fs, parent, name, mode, None, now);
    CreateEntryValid(c, fs, parent, name, mode, None, now);
    CreateKeepsSizes(c, fs, parent, name, mode, now);
    var (a, fs1) := Create(c, fs, parent, name, mode, now);
    FirstWrite(c, fs1, a.value.0, off, buf);
  }

  /** The first corrected write to an empty file without an object. */
  lemma FirstWrite(c: Config, fs: Fs, id: nat, off: nat, buf: Bytes)
    requires Valid(c, fs.meta) && id in fs.meta.records && fs.meta.records[id].size == 0
    requires ObjectName(id) !in fs.bucket.objects
    requires c.keys.UsedSize(fs.meta) + off + |buf| <= c.keys.TotalSize(fs.meta)
    ensures var (r, fs2) := NoCacheWrite(c, fs, id, off, buf, DataCorrected);
      && r == Ok(|buf|)
      && fs2.bucket.objects[ObjectName(id)] == Zeros(off) + buf
      && fs2.meta.records[id].size == off + |buf|
  {
    assert FetchObject(fs.bucket, id, DataCorrected) == Ok([]);
    SpliceIntoEmpty(off, buf);
    var rec := fs.meta.records[id];
    assert rec.id == id;
    var (o, m1) := c.keys.IncrUsedSize(fs.meta, off + |buf|);
    assert o == Done;
  }

  lemma SpliceIntoEmpty(off: nat, buf: Bytes)
    ensures Splice([], off, buf) == Zeros(off) + buf
  {
    if off == 0 {
      assert Zeros(0) == [];
    }
  }

  /** `create` leaves the total and the used size as they were. */
  lemma CreateKeepsSizes(c: Config, fs: Fs, parent: nat, name: string, mode: nat, now: int)
    requires c.keys.Distinct()
    ensures var fs1 := Create(c, fs, parent, name, mode, now).1;
      c.keys.UsedSize(fs1.meta) == c.keys.UsedSize(fs.meta) && c.keys.TotalSize(fs1.meta) == c.keys.TotalSize(fs.meta)
  {
    var k := c.keys;
    var m := fs.meta;
    var (got, m1) := k.FetchFreeInodeId(m);
    assert k.List()[1] != k.List()[4] && k.List()[1] != k.List()[5];
    assert k.List()[3] != k.List()[4] && k.List()[3] != k.List()[5];
    assert k.UsedSize(m1) == k.UsedSize(m) && k.TotalSize(m1) == k.TotalSize(m);
    if got.Ok? && got.value.Some? && got.value.value >= 0 {
      InsertKeepsSuperblock(c, m1, parent, name, got.value.value, mode, None, now);
    }
    CreateEntryMeta(c, fs, parent, name, mode, None, now);
  }

  lemma InsertKeepsSuperblock(c: Config, m: Meta, parent: nat, name: string, id: nat, mode: nat,
                              target: Option<string>, now: int)
    ensures Insert(c, m, parent, name, id, mode, target, now).sb == m.sb
  {
  }

  /** Charging the used size keeps the invariant: the space check guards the bound. */
  lemma ChargeValid(c: Config, m: Meta, v: int)
    requires Valid(c, m)
    ensures Valid(c, c.keys.IncrUsedSize(m, v).1)
  {
    var k := c.keys;
    OperationsKeepBounds(k, m, v);
    assert k.List()[3] != k.List()[5];
  }

  // ---------------------------------------------------------------------------
  // Cache

  /**
   * `write` of the Cache mode: the written bytes read back from cache block
   * 0, and no other cached block changes. The size grows to cover the write
   * even when the space check then fails; the write succeeds exactly when
   * the growth fits the capacity, and only then is the used size charged.
   */
  lemma CacheWriteSpec(c: Config, fs: Fs, id: nat, off: nat, buf: Bytes)
    requires Valid(c, fs.meta)
    ensures var (r, fs') := CacheWrite(c, fs, id, off, buf);
      var k := c.keys;
      && (id !in fs.meta.records ==> r == Err(Crash(NoneValue)) && fs' == fs)
      && (id in fs.meta.records ==>
            var rec := fs.meta.records[id];
            var size := Max(rec.size, off + |buf|);
            && (buf != [] ==> CacheRead(fs', id, off, |buf|) == buf)
            && (forall i: nat, b: nat :: (i, b) != (id, 0) ==> fs'.cache.Get(i, b) == fs.cache.Get(i, b))
            && fs'.meta.records == fs.meta.records[id := rec.(size := size)]
            && fs'.bucket == fs.bucket
            && (r.Ok? <==> k.UsedSize(fs.meta) + size - rec.size <= k.TotalSize(fs.meta))
            && (r.Ok? ==> r.value == |buf| && k.UsedSize(fs'.meta) == k.UsedSize(fs.meta) + size - rec.size)
            && (r.Err? ==> r == Err(Fuse(ENOSPC)) && k.UsedSize(fs'.meta) == k.UsedSize(fs.meta)))
  {
    if id in fs.meta.records {
      var (r, fs') := CacheWrite(c, fs, id, off, buf);
      if buf != [] {
        WriteThenRead(fs.cache, id, off, buf, 0);
      }
      forall i: nat, b: nat | (i, b) != (id, 0)
        ensures fs'.cache.Get(i, b) == fs.cache.Get(i, b)
      {
        if buf != [] {
          WriteSpec(fs.cache, id, off, buf, 0, i, b);
        }
      }
    }
  }

  /** The metadata a Cache `write` leaves. */
  lemma CacheWriteMeta(c: Config, fs: Fs, id: nat, off: nat, buf: Bytes)
    ensures var (r, fs') := CacheWrite(c, fs, id, off, buf);
      id in fs.meta.records ==>
        var rec := fs.meta.records[id];
        var size := Max(rec.size, off + |buf|);
        var m1 := fs.meta.UpdateInode(rec.(size := size));
        fs'.meta == if r.Ok? then c.keys.IncrUsedSize(m1, size - rec.size).1 else m1
    ensures id !in fs.meta.records ==> CacheWrite(c, fs, id, off, buf).1 == fs
  {
  }

  /** Cache `write` keeps the namespace invariant. */
  lemma CacheWriteValid(c: Config, fs: Fs, id: nat, off: nat, buf: Bytes)
    requires Valid(c, fs.meta)
    ensures Valid(c, CacheWrite(c, fs, id, off, buf).1.meta)
  {
    CacheWriteMeta(c, fs, id, off, buf);
    if id in fs.meta.records {
      var rec := fs.meta.records[id];
      var size := Max(rec.size, off + |buf|);
      UpdateValid(c, fs.meta, rec.(size := size));
      ChargeValid(c, fs.meta.UpdateInode(rec.(size := size)), size - rec.size);
    }
  }

  /**
   * `open` of the Cache mode: it fails, changing nothing, on a missing
   * inode or a missing object it would have to load; otherwise cache block
   * 0 holds the object (or kept what it held) and the open count is one up.
   */
  lemma CacheOpenSpec(c: Config, fs: Fs, id: nat, fx: DataFixes)
    requires Valid(c, fs.meta)
    ensures var (r, fs') := CacheOpen(fs, id, fx);
      && (r.Ok? <==> id in fs.meta.records && (fs.cache.Exists(id, 0) || FetchObject(fs.bucket, id, fx).Ok?))
      && (r.Ok? ==>
            && r.value == id
            && fs'.meta.records == fs.meta.records[id := fs.meta.records[id].(openCount := fs.meta.records[id].openCount + 1)]
            && fs'.cache.Value(id, 0) == (if fs.cache.Exists(id, 0) then fs.cache.Value(id, 0) else FetchObject(fs.bucket, id, fx).value)
            && fs'.bucket == fs.bucket)
      && (r.Err? ==> fs'.meta == fs.meta)
  {
    if fs.cache.Exists(id, 0) {
      OpenSpec(fs, id);
    } else if FetchObject(fs.bucket, id, fx).Ok? {
      OpenSpec(fs.(cache := fs.cache.Put(id, 0, FetchObject(fs.bucket, id, fx).value)), id);
    }
  }

  /** `open` succeeds exactly on a stored inode, whose open count it raises, and touches nothing but the metadata. */
  lemma OpenSpec(fs: Fs, id: nat)
    requires Keyed(fs.meta)
    ensures var (r, fs') := Open(fs, id);
      && (r.Ok? <==> id in fs.meta.records)
      && (r.Ok? ==>
            && r.value == id
            && fs'.meta.records == fs.meta.records[id := fs.meta.records[id].(openCount := fs.meta.records[id].openCount + 1)])
      && (r.Err? ==> fs'.meta == fs.meta)
      && fs' == fs.(meta := fs'.meta)
  {
  }

  /** Cache `open` keeps the namespace invariant. */
  lemma CacheOpenValid(c: Config, fs: Fs, id: nat, fx: DataFixes)
    requires Valid(c, fs.meta)
    ensures Valid(c, CacheOpen(fs, id, fx).1.meta)
  {
    if fs.cache.Exists(id, 0) {
      OpenValid(c, fs, id);
    } else if FetchObject(fs.bucket, id, fx).Ok? {
      OpenValid(c, fs.(cache := fs.cache.Put(id, 0, FetchObject(fs.bucket, id, fx).value)), id);
    }
  }

  /**
   * After `open` has loaded an object, the Cache mode's `read` returns what
   * the NoCache mode's `read` of the object returns, for every read of at
   * least one byte.
   */
  lemma CacheReadMatchesObject(c: Config, fs: Fs, id: nat, off: nat, size: nat, fx: DataFixes)
    requires Valid(c, fs.meta) && !fs.cache.Exists(id, 0) && size > 0
    requires CacheOpen(fs, id, fx).0.Ok?
    ensures Ok(CacheRead(CacheOpen(fs, id, fx).1, id, off, size)) == NoCacheRead(fs, id, off, size, fx)
  {
    CacheOpenSpec(c, fs, id, fx);
    var fs' := CacheOpen(fs, id, fx).1;
    GetRangeNonNegative(fs'.cache.Value(id, 0), off, off + size - 1);
  }

  /**
   * `release` of the Cache mode: one close fewer; the last close stores
   * cache block 0 as the object. It fails on a missing inode and, as
   * written, on a last close of a file whose block 0 was never cached.
   */
  lemma CacheReleaseSpec(c: Config, fs: Fs, id: nat, fx: DataFixes)
    requires Valid(c, fs.meta)
    ensures var (r, fs') := CacheRelease(fs, id, fx);
      && (id !in fs.meta.records ==> r.Fail? && fs' == fs)
      && (id in fs.meta.records ==>
            var rec := fs.meta.records[id];
            && fs'.meta.records == fs.meta.records[id := rec.(openCount := rec.openCount - 1)]
            && (r.Done? <==> rec.openCount != 1 || fs.cache.Exists(id, 0) || fx.releaseStoresEmpty)
            && (rec.openCount != 1 ==> fs'.bucket == fs.bucket)
            && (rec.openCount == 1 && r.Done? ==>
                  fs'.bucket == fs.bucket.Put(ObjectName(id), fs.cache.Value(id, 0)))
            && fs'.cache == fs.cache)
  {
  }

  /** Cache `release` keeps the namespace invariant. */
  lemma CacheReleaseValid(c: Config, fs: Fs, id: nat, fx: DataFixes)
    requires Valid(c, fs.meta)
    ensures Valid(c, CacheRelease(fs, id, fx).1.meta)
  {
    if id in fs.meta.records {
      var rec := fs.meta.records[id];
      UpdateValid(c, fs.meta, rec.(openCount := rec.openCount - 1));
    }
  }

  /**
   * A Cache-mode write followed by the last close reaches the object: the
   * NoCache view of the object then reads the written bytes back.
   */
  lemma CacheWriteThenRelease(c: Config, fs: Fs, id: nat, off: nat, buf: Bytes, fx: DataFixes)
    requires Valid(c, fs.meta) && id in fs.meta.records && fs.meta.records[id].openCount == 1 && buf != []
    requires CacheWrite(c, fs, id, off, buf).0.Ok?
    ensures var fs1 := CacheWrite(c, fs, id, off, buf).1;
      var (o, fs2) := CacheRelease(fs1, id, fx);
      o == Done && NoCacheRead(fs2, id, off, |buf|, fx) == Ok(buf)
  {
    CacheWriteSpec(c, fs, id, off, buf);
    CacheWriteValid(c, fs, id, off, buf);
    var fs1 := CacheWrite(c, fs, id, off, buf).1;
    WriteSpec(fs.cache, id, off, buf, 0, id, 0);
    assert fs1.cache.Exists(id, 0);
    CacheReleaseSpec(c, fs1, id, fx);
    var (o, fs2) := CacheRelease(fs1, id, fx);
    var v := fs1.cache.Value(id, 0);
    assert FetchObject(fs2.bucket, id, fx) == Ok(v);
    GetRangeNonNegative(v, off, off + |buf| - 1);
  }

  /**
   * Finding, as written: in the Cache mode a file `create` has made and
   * that is closed without a write has no cache block 0, so its last
   * `release` hands None to the upload and fails.
   */
  lemma ReleaseUnwrittenFails(c: Config, fs: Fs, parent: nat, name: string, mode: nat, now: int)
    requires Valid(c, fs.meta) && IsReg(mode) && Create(c, fs, parent, name, mode, now).0.Ok?
    requires !fs.cache.Exists(Create(c, fs, parent, name, mode, now).0.value.0, 0)
    ensures var (a, fs1) := Create(c, fs, parent, name, mode, now);
      CacheRelease(fs1, a.value.0, DataAsWritten).0 == Fail(Crash(NoneValue))
  {
    CreateSpec(c, fs, parent, name, mode, None, now);
    CreateEntryValid(c, fs, parent, name, mode, None, now);
    var (a, fs1) := Create(c, fs, parent, name, mode, now);
    CacheReleaseSpec(c, fs1, a.value.0, DataAsWritten);
  }

  /** Finding, corrected: that close stores the empty file as the object. */
  lemma CorrectedReleaseUnwritten(c: Config, fs: Fs, parent: nat, name: string, mode: nat, now: int)
    requires Valid(c, fs.meta) && IsReg(mode) && Create(c, fs, parent, name, mode, now).0.Ok?
    requires !fs.cache.Exists(Create(c, fs, parent, name, mode, now).0.value.0, 0)
    ensures var (a, fs1) := Create(c, fs, parent, name, mode, now);
      var (o, fs2) := CacheRelease(fs1, a.value.0, DataCorrected);
      o == Done && fs2.bucket.objects[ObjectName(a.value.0)] == []
  {
    CreateSpec(c, fs, parent, name, mode, None, now);
    CreateEntryValid(c, fs, parent, name, mode, None, now);
    var (a, fs1) := Create(c, fs, parent, name, mode, now);
    CacheReleaseSpec(c, fs1, a.value.0, DataCorrected);
  }

  // ---------------------------------------------------------------------------
  // Multipart

  /**
   * `write` of the multipart mode: the bytes go into the cached block holding
   * `off`, at `off mod B`; no other cached block changes; the block joins the
   * in-process dirty set and the write its fragment list; the inode's record,
   * its size included, and the bucket are left alone.
   */
  lemma MultipartWriteSpec(c: Config, fs: Fs, id: nat, off: nat, buf: Bytes, now: int)
    ensures var (r, fs') := MultipartWrite(c, fs, id, off, buf, now);
      var block := off / c.dataBlockSize;
      var inner := off % c.dataBlockSize;
      && (id !in fs.meta.records ==> r == Err(Crash(NoneValue)) && fs' == fs)
      && (id in fs.meta.records ==>
            && r == Ok(|buf|)
            && fs'.meta == fs.meta && fs'.bucket == fs.bucket
            && (buf != [] ==> fs'.cache.Exists(id, block)
                              && fs'.cache.Read(id, inner, inner + |buf| - 1, block) == buf)
            && (forall i: nat, b: nat :: (i, b) != (id, block) ==> fs'.cache.Get(i, b) == fs.cache.Get(i, b))
            && DirtyOf(fs', id) == DirtyOf(fs, id) + {block}
            && FragmentsOf(fs', id) == FragmentsOf(fs, id) + [(id, block, now)]
            && (forall j :: j != id ==> DirtyOf(fs', j) == DirtyOf(fs, j)))
  {
    if id in fs.meta.records {
      var b := c.dataBlockSize;
      assert off - off / b * b == off % b;
      WriteBlockSpec(fs.cache, id, off % b, buf, off / b);
    }
  }

  /** Writing `buf` at `inner` in one cached block: the block reads it back, and no other block changes. */
  lemma WriteBlockSpec(cache: Blocks, id: nat, inner: nat, buf: Bytes, block: nat)
    ensures var w := cache.Write(id, inner, buf, block);
      && (buf != [] ==> w.Exists(id, block) && w.Read(id, inner, inner + |buf| - 1, block) == buf)
      && (forall i: nat, b: nat :: (i, b) != (id, block) ==> w.Get(i, b) == cache.Get(i, b))
  {
    if buf != [] {
      WriteThenRead(cache, id, inner, buf, block);
    }
    forall i: nat, b: nat | (i, b) != (id, block)
      ensures cache.Write(id, inner, buf, block).Get(i, b) == cache.Get(i, b)
    {
      if buf != [] {
        WriteSpec(cache, id, inner, buf, block, i, b);
      }
    }
  }

  /** Multipart `write` leaves the metadata, so the namespace invariant, as it was. */
  lemma MultipartWriteValid(c: Config, fs: Fs, id: nat, off: nat, buf: Bytes, now: int)
    requires Valid(c, fs.meta)
    ensures Valid(c, MultipartWrite(c, fs, id, off, buf, now).1.meta)
  {
    MultipartWriteSpec(c, fs, id, off, buf, now);
  }

  /**
   * `read` of the multipart mode. Past the end it returns nothing. A cached
   * block is read from the cache and nothing changes; as written the read
   * ends at position `size + 1` of the block, `GETRANGE` being inclusive.
   * Otherwise the ranged `GET` of the block must succeed, the block is
   * cached as fetched, and, for block 0 only, blocks 1 to `size div B - 1`
   * are handed to the prefetch pool.
   */
  lemma MultipartReadSpec(c: Config, fs: Fs, id: nat, off: nat, size: nat, fx: DataFixes)
    ensures var (r, jobs, fs') := MultipartRead(c, fs, id, off, size, fx);
      var b := c.dataBlockSize;
      var block := off / b;
      var inner := off % b;
      && (id !in fs.meta.records ==> r == Err(Crash(NoneValue)) && jobs == [] && fs' == fs)
      && (id in fs.meta.records && off >= fs.meta.records[id].size ==> r == Ok([]) && jobs == [] && fs' == fs)
      && (id in fs.meta.records && off < fs.meta.records[id].size ==>
            && fs'.meta == fs.meta && fs'.bucket == fs.bucket
            && (fs.cache.Exists(id, block) ==>
                  && jobs == [] && fs' == fs
                  && r == Ok(Slice(fs.cache.Value(id, block), inner, if fx.readUsesLength then inner + size else size + 1)))
            && (!fs.cache.Exists(id, block) ==>
                  var name := ObjectName(id);
                  && (r.Ok? <==> name in fs.bucket.objects && block * b < |fs.bucket.objects[name]|)
                  && (forall k :: 0 <= k < |jobs| ==> jobs[k] == k + 1)
                  && |jobs| == (if block == 0 && fs.meta.records[id].size / b > 1 then fs.meta.records[id].size / b - 1 else 0)
                  && (r.Ok? ==>
                        var o := fs.bucket.objects[name];
                        var d := o[block * b..Min((block + 1) * b + 1, |o|)];
                        && fs'.cache.Value(id, block) == d
                        && r.value == Slice(d, inner, if fx.readUsesLength then inner + size else size))
                  && (r.Err? ==> fs' == fs)))
  {
    var b := c.dataBlockSize;
    var block := off / b;
    assert off - block * b == off % b;
    if id in fs.meta.records && off < fs.meta.records[id].size && fs.cache.Exists(id, block) {
      GetRangeNonNegative(fs.cache.Value(id, block), off % b, size);
    }
  }

  /** Multipart `read` leaves the metadata, so the namespace invariant, as it was. */
  lemma MultipartReadValid(c: Config, fs: Fs, id: nat, off: nat, size: nat, fx: DataFixes)
    requires Valid(c, fs.meta)
    ensures Valid(c, MultipartRead(c, fs, id, off, size, fx).2.meta)
  {
    MultipartReadSpec(c, fs, id, off, size, fx);
  }

  /**
   * The multipart mode never grows a file: after `create` and a `write`
   * of any bytes anywhere, every `read` of the new file returns nothing.
   */
  lemma NewFileReadsEmpty(c: Config, fs: Fs, parent: nat, name: string, mode: nat, now: int,
                          off: nat, buf: Bytes, roff: nat, size: nat, fx: DataFixes)
    requires Valid(c, fs.meta) && Create(c, fs, parent, name, mode, now).0.Ok?
    ensures var (a, fs1) := Create(c, fs, parent, name, mode, now);
      var id := a.value.0;
      var fs2 := MultipartWrite(c, fs1, id, off, buf, now).1;
      MultipartRead(c, fs2, id, roff, size, fx).0 == Ok([])
  {
    CreateSpec(c, fs, parent, name, mode, None, now);
    var (a, fs1) := Create(c, fs, parent, name, mode, now);
    MultipartWriteSpec(c, fs1, a.value.0, off, buf, now);
  }

  /**
   * Finding, as written: a read of a cached block that starts further into
   * the block than it is long returns nothing, though the bytes are there;
   * here right after they were written.
   */
  lemma ReadSizeAsEnd(c: Config, fs: Fs, id: nat, off: nat, buf: Bytes, now: int)
    requires id in fs.meta.records && off < fs.meta.records[id].size
    requires buf != [] && |buf| < off % c.dataBlockSize
    ensures var fs1 := MultipartWrite(c, fs, id, off, buf, now).1;
      MultipartRead(c, fs1, id, off, |buf|, DataAsWritten).0 == Ok([])
  {
    MultipartWriteSpec(c, fs, id, off, buf, now);
    var fs1 := MultipartWrite(c, fs, id, off, buf, now).1;
    MultipartReadSpec(c, fs1, id, off, |buf|, DataAsWritten);
  }

  /** Finding, corrected: reading what was just written gives it back. */
  lemma CorrectedWriteThenRead(c: Config, fs: Fs, id: nat, off: nat, buf: Bytes, now: int)
    requires id in fs.meta.records && off < fs.meta.records[id].size && buf != []
    ensures var fs1 := MultipartWrite(c, fs, id, off, buf, now).1;
      MultipartRead(c, fs1, id, off, |buf|, DataCorrected) == (Ok(buf), [], fs1)
  {
    MultipartWriteSpec(c, fs, id, off, buf, now);
    var fs1 := MultipartWrite(c, fs, id, off, buf, now).1;
    MultipartReadSpec(c, fs1, id, off, |buf|, DataCorrected);
    var b := c.dataBlockSize;
    var v := fs1.cache.Value(id, off / b);
    GetRangeNonNegative(v, off % b, off % b + |buf| - 1);
  }

  /** `release` of the multipart mode: one close fewer and nothing else; the invariant is kept. */
  lemma MultipartReleaseSpec(c: Config, fs: Fs, id: nat)
    requires Valid(c, fs.meta)
    ensures var (r, fs') := MultipartRelease(fs, id);
      && (r.Done? <==> id in fs.meta.records)
      && (id in fs.meta.records ==>
            var rec := fs.meta.records[id];
            fs' == fs.(meta := fs'.meta)
            && fs'.meta.records == fs.meta.records[id := rec.(openCount := rec.openCount - 1)])
      && (id !in fs.meta.records ==> fs' == fs)
      && Valid(c, fs'.meta)
  {
    if id in fs.meta.records {
      var rec := fs.meta.records[id];
      UpdateValid(c, fs.meta, rec.(openCount := rec.openCount - 1));
    }
  }

  // ---------------------------------------------------------------------------
  // Sync

  /** The upload result `r` names part `block + 1` of `u`, holding `d`. */
  ghost predicate Uploaded(u: Upload, r: (string, int), block: nat, d: Bytes)
  {
    r.1 == block + 1 && r.1 in u.parts && Strip(r.0, Quote) == u.parts[r.1].etag && u.parts[r.1].data == d
  }

  /** An open upload on the log object. */
  ghost predicate OpenOn(bk: Bucket, id: nat, inode: nat, log: string)
  {
    id in bk.uploads && bk.uploads[id].key == ObjectStores.Target(inode, Some(log))
  }

  /**
   * One block upload of a flush into an open upload: it succeeds exactly
   * when `block + 1` is a valid part number, and then stores the block's
   * first B cached bytes as that part, leaving the other parts; the block
   * leaves the cache either way.
   */
  lemma UploadStep(bk: Bucket, cache: Blocks, inode: nat, block: nat, id: nat, log: string, bs: BlockSize)
    requires OpenOn(bk, id, inode, log)
    ensures var (r, bk1, c1) := BlockTasks.UploadFromCache(bk, cache, inode, block, id, Some(log), bs);
      && c1 == cache.Remove(inode, block)
      && bk1.objects == bk.objects && OpenOn(bk1, id, inode, log) && bk1.uploads.Keys == bk.uploads.Keys
      && (r.Some? <==> block < MaxPartNumber)
      && (r.Some? ==> Uploaded(bk1.uploads[id], r.value, block, Slice(cache.Value(inode, block), 0, bs)))
      && (forall n :: n in bk.uploads[id].parts && n != block + 1 ==>
            n in bk1.uploads[id].parts && bk1.uploads[id].parts[n] == bk.uploads[id].parts[n])
  {
    var name := ObjectStores.Target(inode, Some(log));
    var d := Slice(cache.Value(inode, block), 0, bs);
    GetRangeNonNegative(cache.Value(inode, block), 0, bs - 1);
    UploadBlockSpec(bk, name, block, id, d);
    if bk.CanUpload(name, id, block + 1) {
      UploadBlockListed(bk, name, block, id, d);
    }
  }

  /**
   * The block uploads of a flush leave the objects and the open upload
   * where they were; every listed block leaves the cache, whatever the
   * upload answered, and no other cached block changes.
   */
  lemma {:induction false} UploadAllShape(bk: Bucket, cache: Blocks, inode: nat, blocks: seq<nat>, id: nat, log: string, bs: BlockSize)
    requires OpenOn(bk, id, inode, log)
    ensures var (rs, bk', c') := UploadAll(bk, cache, inode, blocks, id, log, bs);
      && |rs| == |blocks|
      && bk'.objects == bk.objects && OpenOn(bk', id, inode, log) && bk'.uploads.Keys == bk.uploads.Keys
      && (forall b :: b in blocks ==> !c'.Exists(inode, b))
      && (forall i: nat, b: nat :: (i != inode || b !in blocks) ==> c'.Get(i, b) == cache.Get(i, b))
    decreases |blocks|
  {
    if |blocks| > 0 {
      UploadStep(bk, cache, inode, blocks[0], id, log, bs);
      var (r, bk1, c1) := BlockTasks.UploadFromCache(bk, cache, inode, blocks[0], id, Some(log), bs);
      UploadAllShape(bk1, c1, inode, blocks[1..], id, log, bs);
      var c2 := UploadAll(bk1, c1, inode, blocks[1..], id, log, bs).2;
      assert forall b :: b in blocks ==> b == blocks[0] || b in blocks[1..];
      assert c2.Get(inode, blocks[0]) == None by {
        if blocks[0] !in blocks[1..] {
          assert c2.Get(inode, blocks[0]) == c1.Get(inode, blocks[0]);
        }
      }
    }
  }

  /** All the block uploads of a flush succeed exactly when every part number `block + 1` is valid. */
  lemma {:induction false} UploadAllSucceeds(bk: Bucket, cache: Blocks, inode: nat, blocks: seq<nat>, id: nat, log: string, bs: BlockSize)
    requires OpenOn(bk, id, inode, log)
    ensures AllUploaded(UploadAll(bk, cache, inode, blocks, id, log, bs).0) <==> forall i :: 0 <= i < |blocks| ==> blocks[i] < MaxPartNumber
    decreases |blocks|
  {
    if |blocks| > 0 {
      UploadStep(bk, cache, inode, blocks[0], id, log, bs);
      var (r, bk1, c1) := BlockTasks.UploadFromCache(bk, cache, inode, blocks[0], id, Some(log), bs);
      UploadAllSucceeds(bk1, c1, inode, blocks[1..], id, log, bs);
      var rs := UploadAll(bk1, c1, inode, blocks[1..], id, log, bs).0;
      var all := [r] + rs;
      assert UploadAll(bk, cache, inode, blocks, id, log, bs).0 == all;
      assert AllUploaded(all) <==> r.Some? && AllUploaded(rs) by {
        if AllUploaded(all) {
          assert all[0] == r;
          forall i | 0 <= i < |rs| ensures rs[i].Some? { assert all[i + 1] == rs[i]; }
        }
      }
      if AllUploaded(all) {
        forall i | 0 <= i < |blocks| ensures blocks[i] < MaxPartNumber {
          if i > 0 { assert blocks[i] == blocks[1..][i - 1]; }
        }
      }
    }
  }

  /**
   * For strictly ascending blocks, each block upload of a flush that
   * succeeded stored the block's first B cached bytes as part `block + 1`
   * of the open upload, and parts numbered below the first block's are kept.
   */
  lemma {:induction false} UploadAllParts(bk: Bucket, cache: Blocks, inode: nat, blocks: seq<nat>, id: nat, log: string, bs: BlockSize)
    requires OpenOn(bk, id, inode, log)
    requires forall i, j :: 0 <= i < j < |blocks| ==> blocks[i] < blocks[j]
    ensures var (rs, bk', c') := UploadAll(bk, cache, inode, blocks, id, log, bs);
      && |rs| == |blocks| && OpenOn(bk', id, inode, log)
      && (forall i :: 0 <= i < |blocks| && rs[i].Some? ==>
            Uploaded(bk'.uploads[id], rs[i].value, blocks[i], Slice(cache.Value(inode, blocks[i]), 0, bs)))
      && (forall n :: n in bk.uploads[id].parts && (|blocks| == 0 || n <= blocks[0]) ==>
            n in bk'.uploads[id].parts && bk'.uploads[id].parts[n] == bk.uploads[id].parts[n])
    decreases |blocks|
  {
    if |blocks| > 0 {
      var b0 := blocks[0];
      UploadStep(bk, cache, inode, b0, id, log, bs);
      var (r, bk1, c1) := BlockTasks.UploadFromCache(bk, cache, inode, b0, id, Some(log), bs);
      var tail := blocks[1..];
      UploadAllShape(bk1, c1, inode, tail, id, log, bs);
      UploadAllParts(bk1, c1, inode, tail, id, log, bs);
      var (rs, bk2, c2) := UploadAll(bk1, c1, inode, tail, id, log, bs);
      var all := [r] + rs;
      forall i | 0 <= i < |blocks| && all[i].Some?
        ensures Uploaded(bk2.uploads[id], all[i].value, blocks[i], Slice(cache.Value(inode, blocks[i]), 0, bs))
      {
        if i == 0 {
          assert |tail| == 0 || b0 + 1 <= tail[0];
        } else {
          assert all[i] == rs[i - 1] && blocks[i] == tail[i - 1];
          assert c1.Value(inode, blocks[i]) == cache.Value(inode, blocks[i]);
        }
      }
    }
  }

  /** What a flush of `blocks` uploads: each block's first B cached bytes, in order. */
  ghost function Flushed(cache: Blocks, inode: nat, blocks: seq<nat>, bs: BlockSize): (ds: seq<Bytes>)
    ensures |ds| == |blocks|
  {
    seq(|blocks|, i requires 0 <= i < |blocks| => Slice(cache.Value(inode, blocks[i]), 0, bs))
  }

  /**
   * Strictly ascending blocks, all uploaded into a fresh upload: the
   * completion list is accepted exactly when every flushed part but the
   * last is at least 5 MiB, and then the completed object is the flushed
   * bytes in block order; a refusal leaves the objects as they were.
   */
  lemma FlushCompletes(bk: Bucket, cache: Blocks, inode: nat, blocks: seq<nat>, id: nat, log: string, bs: BlockSize)
    requires OpenOn(bk, id, inode, log) && bk.uploads[id].parts == map[] && |blocks| > 0
    requires forall i, j :: 0 <= i < j < |blocks| ==> blocks[i] < blocks[j]
    requires AllUploaded(UploadAll(bk, cache, inode, blocks, id, log, bs).0)
    ensures var (rs, bk', c') := UploadAll(bk, cache, inode, blocks, id, log, bs);
      var name := ObjectStores.Target(inode, Some(log));
      && (bk'.Complete(name, id, PartList(rs)).Ok? <==> LargeEnough(Flushed(cache, inode, blocks, bs)))
      && CompleteFlush(bk', name, id, rs).objects
         == if LargeEnough(Flushed(cache, inode, blocks, bs)) then bk.objects[name := Concat(Flushed(cache, inode, blocks, bs))]
            else bk.objects
  {
    var name := ObjectStores.Target(inode, Some(log));
    UploadAllShape(bk, cache, inode, blocks, id, log, bs);
    UploadAllParts(bk, cache, inode, blocks, id, log, bs);
    var (rs, bk', c') := UploadAll(bk, cache, inode, blocks, id, log, bs);
    var list := PartList(rs);
    var u := bk'.uploads[id];
    assert forall i :: 0 <= i < |list| ==> list[i].partNumber == blocks[i] + 1;
    assert Listed(u, list);
    assert Ascending(list);
    assert PartData(u, list) == Flushed(cache, inode, blocks, bs);
  }

  /**
   * The uploads and completion of a flush of strictly ascending blocks into
   * a fresh upload on the log object: every listed block leaves the cache
   * and no other cached block changes; the flush succeeds exactly when
   * every block has a valid part number. The object named `log` then
   * becomes the blocks' first B cached bytes, in block order, when every
   * flushed part but the last is at least 5 MiB; otherwise the store
   * refuses the completion, which the flush ignores, and no object
   * changes. The metadata is not touched.
   */
  lemma FlushSpec(c: Config, fs: Fs, id: nat, inode: nat, blocks: seq<nat>, upload: nat, log: string,
                  now: nat, fx: DataFixes)
    requires log != [] && OpenOn(fs.bucket, upload, inode, log) && fs.bucket.uploads[upload].parts == map[] && |blocks| > 0
    requires forall i, j :: 0 <= i < j < |blocks| ==> blocks[i] < blocks[j]
    ensures var (r, fs') := Flush(c, fs, id, inode, blocks, upload, log, now, fx);
      && fs'.meta == fs.meta
      && (r.Done? <==> forall i :: 0 <= i < |blocks| ==> blocks[i] < MaxPartNumber)
      && (forall b :: b in blocks ==> !fs'.cache.Exists(inode, b))
      && (forall i: nat, b: nat :: (i != inode || b !in blocks) ==> fs'.cache.Get(i, b) == fs.cache.Get(i, b))
      && (r.Done? && LargeEnough(Flushed(fs.cache, inode, blocks, c.dataBlockSize)) ==>
            fs'.bucket.objects == fs.bucket.objects[log := Concat(Flushed(fs.cache, inode, blocks, c.dataBlockSize))])
      && (r.Fail? || !LargeEnough(Flushed(fs.cache, inode, blocks, c.dataBlockSize)) ==> fs'.bucket.objects == fs.bucket.objects)
  {
    assert ObjectStores.Target(inode, Some(log)) == log;
    var bs := c.dataBlockSize;
    UploadAllShape(fs.bucket, fs.cache, inode, blocks, upload, log, bs);
    UploadAllSucceeds(fs.bucket, fs.cache, inode, blocks, upload, log, bs);
    var rs := UploadAll(fs.bucket, fs.cache, inode, blocks, upload, log, bs).0;
    if AllUploaded(rs) {
      FlushCompletes(fs.bucket, fs.cache, inode, blocks, upload, log, bs);
    }
  }

  /** A flush never touches the metadata, so it keeps the namespace invariant. */
  lemma SyncKeepsMeta(c: Config, fs: Fs, id: nat, now: nat, fx: DataFixes)
    ensures Sync(c, fs, id, now, fx).1.meta == fs.meta
  {
    var blocks := SortedElements(DirtyOf(fs, id));
    var log := FragmentMaps.LogKey(id, blocks, now);
    var (up, bk1) := fs.bucket.Initiate(log);
    if |blocks| > 0 && id in fs.meta.records {
      assert fs.meta.Record(id) == Some(fs.meta.records[id]);
      FlushKeepsMeta(c, fs.(bucket := bk1), id, fs.meta.records[id].id, blocks, up, log, now, fx);
    }
  }

  lemma FlushKeepsMeta(c: Config, fs: Fs, id: nat, inode: nat, blocks: seq<nat>, upload: nat, log: string,
                       now: nat, fx: DataFixes)
    ensures Flush(c, fs, id, inode, blocks, upload, log, now, fx).1.meta == fs.meta
  {
  }

  /**
   * `fsync` (`_sync`) with no dirty block: nothing is uploaded, but a
   * fresh upload is left open on the log name.
   */
  lemma SyncNothingDirty(c: Config, fs: Fs, id: nat, now: nat, fx: DataFixes)
    requires DirtyOf(fs, id) == {}
    ensures Sync(c, fs, id, now, fx) == (Done, fs.(bucket := fs.bucket.Initiate(FragmentMaps.LogKey(id, [], now)).1))
  {
  }

  /** `fsync` of dirty blocks of a missing inode fails before any block is uploaded. */
  lemma SyncMissingInode(c: Config, fs: Fs, id: nat, now: nat, fx: DataFixes)
    requires DirtyOf(fs, id) != {} && id !in fs.meta.records
    ensures var (r, fs') := Sync(c, fs, id, now, fx);
      r == Fail(Crash(NoneValue)) && fs'.cache == fs.cache && fs'.bucket.objects == fs.bucket.objects
  {
    var b :| b in DirtyOf(fs, id);
    assert b in SortedElements(DirtyOf(fs, id));
  }

  /** With dirty blocks and a record, `_sync` is the flush of the sorted blocks into a fresh upload. */
  lemma SyncIsFlush(c: Config, fs: Fs, id: nat, now: nat, fx: DataFixes)
    requires Keyed(fs.meta) && id in fs.meta.records && DirtyOf(fs, id) != {}
    ensures var blocks := SortedElements(DirtyOf(fs, id));
      var log := FragmentMaps.LogKey(id, blocks, now);
      var (up, bk1) := fs.bucket.Initiate(log);
      && |blocks| > 0 && log != []
      && OpenOn(bk1, up, id, log) && bk1.uploads[up].parts == map[]
      && Sync(c, fs, id, now, fx) == Flush(c, fs.(bucket := bk1), id, id, blocks, up, log, now, fx)
  {
    var blocks := SortedElements(DirtyOf(fs, id));
    SyncOpens(fs, id, now);
    assert fs.meta.records[id].id == id;
    assert fs.meta.Record(id) == Some(fs.meta.records[id]);
  }

  /** The upload `_sync` opens for dirty blocks is empty and targets the log name. */
  lemma SyncOpens(fs: Fs, id: nat, now: nat)
    requires DirtyOf(fs, id) != {}
    ensures var blocks := SortedElements(DirtyOf(fs, id));
      var log := FragmentMaps.LogKey(id, blocks, now);
      var (up, bk1) := fs.bucket.Initiate(log);
      && |blocks| > 0 && log != []
      && OpenOn(bk1, up, id, log) && bk1.uploads[up].parts == map[]
  {
    var blocks := SortedElements(DirtyOf(fs, id));
    var log := FragmentMaps.LogKey(id, blocks, now);
    assert ObjectStores.Target(id, Some(log)) == log;
  }

  /** Every element of a set is below `k` exactly when every element of its sorted list is. */
  lemma SortedBound(s: set<nat>, k: nat)
    ensures (forall i :: 0 <= i < |SortedElements(s)| ==> SortedElements(s)[i] < k) <==> (forall b :: b in s ==> b < k)
  {
    var l := SortedElements(s);
    if forall i :: 0 <= i < |l| ==> l[i] < k {
      forall b | b in s ensures b < k {
        assert b in l;
      }
    }
  }

  /**
   * `fsync` (`_sync`) of an inode with dirty blocks: every dirty block
   * leaves the cache and no other cached block changes; the flush succeeds
   * exactly when every dirty block has a valid part number. The log object
   * then becomes the dirty blocks' first B bytes, in ascending block
   * order, when every part but the last is at least 5 MiB; otherwise no
   * object changes.
   */
  lemma SyncSpec(c: Config, fs: Fs, id: nat, now: nat, fx: DataFixes)
    requires Keyed(fs.meta) && id in fs.meta.records && DirtyOf(fs, id) != {}
    ensures var (r, fs') := Sync(c, fs, id, now, fx);
      var dirty := DirtyOf(fs, id);
      var blocks := SortedElements(dirty);
      var log := FragmentMaps.LogKey(id, blocks, now);
      && (r.Done? <==> forall b :: b in dirty ==> b < MaxPartNumber)
      && (forall b :: b in dirty ==> !fs'.cache.Exists(id, b))
      && (forall i: nat, b: nat :: (i != id || b !in dirty) ==> fs'.cache.Get(i, b) == fs.cache.Get(i, b))
      && (r.Done? && LargeEnough(Flushed(fs.cache, id, blocks, c.dataBlockSize)) ==>
            fs'.bucket.objects == fs.bucket.objects[log := Concat(Flushed(fs.cache, id, blocks, c.dataBlockSize))])
      && (r.Fail? || !LargeEnough(Flushed(fs.cache, id, blocks, c.dataBlockSize)) ==> fs'.bucket.objects == fs.bucket.objects)
  {
    var dirty := DirtyOf(fs, id);
    var blocks := SortedElements(dirty);
    var log := FragmentMaps.LogKey(id, blocks, now);
    var (up, bk1) := fs.bucket.Initiate(log);
    SyncOpens(fs, id, now);
    FlushSpec(c, fs.(bucket := bk1), id, id, blocks, up, log, now, fx);
    SortedBound(dirty, MaxPartNumber);
    SyncIsFlush(c, fs, id, now, fx);
  }

  /**
   * The bookkeeping of a completed flush: the log is queued for merging
   * after what the inode had queued; the blocks move from the dirty to the
   * clean set; as written the in-process dirty set keeps them. Bucket,
   * cache and metadata are left alone.
   */
  lemma RecordSpec(c: Config, fs: Fs, id: nat, blocks: seq<nat>, log: string, now: nat, fx: DataFixes)
    ensures var fs' := Record(c, fs, id, blocks, log, now, fx);
      && fs'.meta == fs.meta && fs'.bucket == fs.bucket && fs'.cache == fs.cache
      && fs'.queue.Items(id) == fs.queue.Items(id) + [log]
      && (forall j :: j != id ==> fs'.queue.Items(j) == fs.queue.Items(j))
      && (forall b :: b in fs'.dirty.Members(id) <==> b in fs.dirty.Members(id) && b !in blocks)
      && (forall b :: b in fs'.clean.Members(id) <==> b in fs.clean.Members(id) || b in blocks)
      && DirtyOf(fs', id) == (if fx.syncClearsDirty then {} else DirtyOf(fs, id))
  {
    var other := if id == 0 then 1 else 0;
    BlockSets.AddSpec(fs.clean, id, blocks, other);
    BlockSets.RemoveSpec(fs.dirty, id, blocks, other);
  }

  /**
   * The fragment index after a completed flush: in each flushed block's
   * set the log enters with the flush time as score (replacing an older
   * score of the same log) and the block's own cache fragment, if it is no
   * newer, leaves; the sets of other blocks are untouched.
   */
  lemma RecordFragments(c: Config, fs: Fs, id: nat, blocks: seq<nat>, log: string, now: nat, fx: DataFixes)
    requires fs.fragments.Valid()
    ensures var fs' := Record(c, fs, id, blocks, log, now, fx);
      && fs'.fragments.Valid()
      && (forall b: nat, x :: b in blocks ==>
            (x in fs'.fragments.Fragments(id, b) <==>
               (x == (log, now as int) || (x in fs.fragments.Fragments(id, b) && x.0 != log))
               && !(x.0 == FragmentMaps.BlockKey(c.fsName, id, b) && x.1 <= now)))
      && (forall i: nat, b: nat :: (i != id || b !in blocks) ==> fs'.fragments.Fragments(i, b) == fs.fragments.Fragments(i, b))
  {
    var ix := fs.fragments;
    var ix1 := ix.AddAll(id, blocks, log, now);
    FragmentMaps.AddAllSpec(ix, id, blocks, log, now);
    FragmentMaps.RemoveAllSpec(ix1, c.fsName, FragmentMaps.CacheFragment, id, blocks, now);
    forall b: nat, x | b in blocks
      ensures x in ix1.Fragments(id, b) <==> x == (log, now as int) || (x in ix.Fragments(id, b) && x.0 != log)
    {
      FragmentMaps.ZAddSpec(ix.Fragments(id, b), log, now);
    }
  }

  /**
   * The bookkeeping of a successful `fsync` of an inode with dirty blocks:
   * what `RecordSpec` states, for the dirty blocks and the log the flush
   * named.
   */
  lemma SyncBookkeeping(c: Config, fs: Fs, id: nat, now: nat, fx: DataFixes)
    requires Keyed(fs.meta) && id in fs.meta.records && DirtyOf(fs, id) != {}
    requires Sync(c, fs, id, now, fx).0 == Done
    ensures var fs' := Sync(c, fs, id, now, fx).1;
      var blocks := SortedElements(DirtyOf(fs, id));
      var log := FragmentMaps.LogKey(id, blocks, now);
      var X := fs.(bucket := fs'.bucket, cache := fs'.cache);
      fs' == Record(c, X, id, blocks, log, now, fx)
  {
    SyncIsFlush(c, fs, id, now, fx);
  }

  /**
   * Blocks that are not cached flush as empty parts: the parts concatenate
   * to nothing, and the store accepts them only when there is just one.
   */
  lemma FlushedAbsent(cache: Blocks, inode: nat, blocks: seq<nat>, bs: BlockSize)
    requires forall b :: b in blocks ==> !cache.Exists(inode, b)
    ensures Concat(Flushed(cache, inode, blocks, bs)) == []
    ensures LargeEnough(Flushed(cache, inode, blocks, bs)) <==> |blocks| <= 1
  {
    var ds := Flushed(cache, inode, blocks, bs);
    forall i | 0 <= i < |ds| ensures ds[i] == [] {
      assert blocks[i] in blocks;
    }
    ConcatEmpty(ds);
    if |blocks| > 1 {
      assert |ds[0]| < MinPartSize;
    }
  }

  lemma {:induction false} ConcatEmpty(ds: seq<Bytes>)
    requires forall i :: 0 <= i < |ds| ==> ds[i] == []
    ensures Concat(ds) == []
    decreases |ds|
  {
    if |ds| > 0 {
      ConcatEmpty(ds[1..]);
    }
  }

  /**
   * A successful `fsync` that keeps the in-process dirty set, as written:
   * the same blocks are dirty afterwards, none of them is cached, and the
   * metadata and index stay valid.
   */
  lemma SyncKeepsDirty(c: Config, fs: Fs, id: nat, now: nat)
    requires Keyed(fs.meta) && fs.fragments.Valid() && id in fs.meta.records && DirtyOf(fs, id) != {}
    requires forall b :: b in DirtyOf(fs, id) ==> b < MaxPartNumber
    ensures var (r, fs') := Sync(c, fs, id, now, DataAsWritten);
      && r == Done && fs'.meta == fs.meta && fs'.fragments.Valid()
      && DirtyOf(fs', id) == DirtyOf(fs, id)
      && (forall b :: b in DirtyOf(fs, id) ==> !fs'.cache.Exists(id, b))
  {
    var blocks := SortedElements(DirtyOf(fs, id));
    SyncSpec(c, fs, id, now, DataAsWritten);
    SyncBookkeeping(c, fs, id, now, DataAsWritten);
    var fs' := Sync(c, fs, id, now, DataAsWritten).1;
    var X := fs.(bucket := fs'.bucket, cache := fs'.cache);
    RecordSpec(c, X, id, blocks, FragmentMaps.LogKey(id, blocks, now), now, DataAsWritten);
    RecordFragments(c, X, id, blocks, FragmentMaps.LogKey(id, blocks, now), now, DataAsWritten);
  }

  /**
   * An `fsync` of dirty blocks none of which is cached succeeds, queues a
   * log for merging and indexes it as a fragment of every dirty block.
   * With one dirty block the log object is written empty; with more, the
   * empty parts are below the 5 MiB minimum, the store refuses the
   * completion and no object changes, yet the log is queued and indexed
   * all the same.
   */
  lemma SyncUncached(c: Config, fs: Fs, id: nat, now: nat, fx: DataFixes)
    requires Keyed(fs.meta) && fs.fragments.Valid() && id in fs.meta.records && DirtyOf(fs, id) != {}
    requires forall b :: b in DirtyOf(fs, id) ==> b < MaxPartNumber && !fs.cache.Exists(id, b)
    ensures var (r, fs') := Sync(c, fs, id, now, fx);
      var log := FragmentMaps.LogKey(id, SortedElements(DirtyOf(fs, id)), now);
      && r == Done
      && (|DirtyOf(fs, id)| == 1 ==> log in fs'.bucket.objects && fs'.bucket.objects[log] == [])
      && (|DirtyOf(fs, id)| > 1 ==> fs'.bucket.objects == fs.bucket.objects)
      && fs'.queue.Items(id) == fs.queue.Items(id) + [log]
      && (forall b: nat :: b in DirtyOf(fs, id) ==> (log, now as int) in fs'.fragments.Fragments(id, b))
  {
    SyncUncachedLog(c, fs, id, now, fx);
    SyncRecorded(c, fs, id, now, fx);
  }

  /**
   * The objects after an `fsync` of uncached dirty blocks: an empty log
   * object for one block, no change for more.
   */
  lemma SyncUncachedLog(c: Config, fs: Fs, id: nat, now: nat, fx: DataFixes)
    requires Keyed(fs.meta) && id in fs.meta.records && DirtyOf(fs, id) != {}
    requires forall b :: b in DirtyOf(fs, id) ==> b < MaxPartNumber && !fs.cache.Exists(id, b)
    ensures var (r, fs') := Sync(c, fs, id, now, fx);
      var log := FragmentMaps.LogKey(id, SortedElements(DirtyOf(fs, id)), now);
      && r == Done
      && (|DirtyOf(fs, id)| == 1 ==> log in fs'.bucket.objects && fs'.bucket.objects[log] == [])
      && (|DirtyOf(fs, id)| > 1 ==> fs'.bucket.objects == fs.bucket.objects)
  {
    var blocks := SortedElements(DirtyOf(fs, id));
    SortedElementsLength(DirtyOf(fs, id));
    SyncSpec(c, fs, id, now, fx);
    FlushedAbsent(fs.cache, id, blocks, c.dataBlockSize);
  }

  /**
   * A successful `fsync` of an inode with dirty blocks queues its log for
   * merging after what the inode had queued, and indexes the log, with the
   * flush time as score, as a fragment of every dirty block.
   */
  lemma SyncRecorded(c: Config, fs: Fs, id: nat, now: nat, fx: DataFixes)
    requires Keyed(fs.meta) && fs.fragments.Valid() && id in fs.meta.records && DirtyOf(fs, id) != {}
    requires Sync(c, fs, id, now, fx).0 == Done
    ensures var fs' := Sync(c, fs, id, now, fx).1;
      var log := FragmentMaps.LogKey(id, SortedElements(DirtyOf(fs, id)), now);
      && fs'.queue.Items(id) == fs.queue.Items(id) + [log]
      && (forall b: nat :: b in DirtyOf(fs, id) ==> (log, now as int) in fs'.fragments.Fragments(id, b))
  {
    var blocks := SortedElements(DirtyOf(fs, id));
    var log := FragmentMaps.LogKey(id, blocks, now);
    SyncBookkeeping(c, fs, id, now, fx);
    var fs' := Sync(c, fs, id, now, fx).1;
    RecordQueuesAndIndexes(c, fs, fs', id, blocks, log, now, fx);
  }

  /**
   * An `fsync` whose completion the store refuses, because a part before
   * the last is under 5 MiB, still reports success: no object changes,
   * yet the log is queued for merging and indexed as a fragment of every
   * dirty block, so later reads and merges look for an object that was
   * never written.
   */
  lemma SyncRefusedStillRecords(c: Config, fs: Fs, id: nat, now: nat, fx: DataFixes)
    requires Keyed(fs.meta) && fs.fragments.Valid() && id in fs.meta.records && DirtyOf(fs, id) != {}
    requires forall b :: b in DirtyOf(fs, id) ==> b < MaxPartNumber
    requires !LargeEnough(Flushed(fs.cache, id, SortedElements(DirtyOf(fs, id)), c.dataBlockSize))
    ensures var (r, fs') := Sync(c, fs, id, now, fx);
      var log := FragmentMaps.LogKey(id, SortedElements(DirtyOf(fs, id)), now);
      && r == Done
      && fs'.bucket.objects == fs.bucket.objects
      && fs'.queue.Items(id) == fs.queue.Items(id) + [log]
      && (forall b: nat :: b in DirtyOf(fs, id) ==> (log, now as int) in fs'.fragments.Fragments(id, b))
  {
    SyncSpec(c, fs, id, now, fx);
    SyncRecorded(c, fs, id, now, fx);
  }

  /** The bookkeeping of a flush queues the log and indexes it as a fragment of every flushed block. */
  lemma RecordQueuesAndIndexes(c: Config, fs: Fs, fs': Fs, id: nat, blocks: seq<nat>, log: string, now: nat,
                               fx: DataFixes)
    requires fs.fragments.Valid() && log != [] && log == FragmentMaps.LogKey(id, blocks, now)
    requires fs' == Record(c, fs.(bucket := fs'.bucket, cache := fs'.cache), id, blocks, log, now, fx)
    ensures fs'.queue.Items(id) == fs.queue.Items(id) + [log]
    ensures forall b: nat :: b in blocks ==> (log, now as int) in fs'.fragments.Fragments(id, b)
  {
    var Y := fs.(bucket := fs'.bucket, cache := fs'.cache);
    RecordSpec(c, Y, id, blocks, log, now, fx);
    RecordFragments(c, Y, id, blocks, log, now, fx);
    forall b: nat | b in blocks ensures (log, now as int) in fs'.fragments.Fragments(id, b) {
      FragmentMaps.LogKeyIsNotBlockKey(c.fsName, id, blocks, now, id, b);
    }
  }

  /**
   * Finding, as written: `_sync` never empties the in-process dirty set,
   * while the first flush dropped the blocks from the cache. A second
   * `fsync` therefore flushes the same blocks again as empty parts: it
   * succeeds, queues the new log for merging and indexes it as a fragment
   * of every block, though the log object is empty (one block) or, the
   * empty parts being refused, never written (more blocks).
   */
  lemma SecondSyncFlushesNothing(c: Config, fs: Fs, id: nat, now1: nat, now2: nat)
    requires Keyed(fs.meta) && fs.fragments.Valid() && id in fs.meta.records && DirtyOf(fs, id) != {}
    requires forall b :: b in DirtyOf(fs, id) ==> b < MaxPartNumber
    ensures var (r1, fs1) := Sync(c, fs, id, now1, DataAsWritten);
      var (r2, fs2) := Sync(c, fs1, id, now2, DataAsWritten);
      var log2 := FragmentMaps.LogKey(id, SortedElements(DirtyOf(fs, id)), now2);
      && r1 == Done && r2 == Done
      && DirtyOf(fs1, id) == DirtyOf(fs, id)
      && (|DirtyOf(fs, id)| == 1 ==> log2 in fs2.bucket.objects && fs2.bucket.objects[log2] == [])
      && (|DirtyOf(fs, id)| > 1 ==> fs2.bucket.objects == fs1.bucket.objects)
      && fs2.queue.Items(id) == fs1.queue.Items(id) + [log2]
      && (forall b: nat :: b in DirtyOf(fs, id) ==> (log2, now2 as int) in fs2.fragments.Fragments(id, b))
  {
    SyncKeepsDirty(c, fs, id, now1);
    SyncUncached(c, Sync(c, fs, id, now1, DataAsWritten).1, id, now2, DataAsWritten);
  }

  /**
   * Finding, corrected: a successful `fsync` empties the in-process dirty
   * set, so a second one uploads nothing and changes no object.
   */
  lemma CorrectedSecondSync(c: Config, fs: Fs, id: nat, now1: nat, now2: nat)
    requires Keyed(fs.meta) && fs.fragments.Valid() && id in fs.meta.records && DirtyOf(fs, id) != {}
    requires forall b :: b in DirtyOf(fs, id) ==> b < MaxPartNumber
    ensures var (r1, fs1) := Sync(c, fs, id, now1, DataCorrected);
      var (r2, fs2) := Sync(c, fs1, id, now2, DataCorrected);
      && r1 == Done && r2 == Done
      && DirtyOf(fs1, id) == {}
      && fs2.bucket.objects == fs1.bucket.objects && fs2.cache == fs1.cache
  {
    var dirty := DirtyOf(fs, id);
    var blocks := SortedElements(dirty);
    SyncSpec(c, fs, id, now1, DataCorrected);
    SyncBookkeeping(c, fs, id, now1, DataCorrected);
    var (r1, fs1) := Sync(c, fs, id, now1, DataCorrected);
    var X := fs.(bucket := fs1.bucket, cache := fs1.cache);
    RecordSpec(c, X, id, blocks, FragmentMaps.LogKey(id, blocks, now1), now1, DataCorrected);
    SyncNothingDirty(c, fs1, id, now2, DataCorrected);
  }
}
