/**
 * The single-block tasks of the cache (objectfs/core/cache/cachetask.py):
 * `prefetch_object_block` copies one block of an inode's base object into the
 * Redis cache; `multipart_upload_object_block` moves one cached block into a
 * part of an open multipart upload.
 */
module BlockTasks {
  import opened Common
  import opened Objects
  import opened ObjectStores
  import opened CacheStores
  import opened Strings

  /** `prefetch_object_block`: a ranged read of the block from the base object, stored whole in the cache. */
  function Prefetch(bk: Bucket, c: Blocks, inode: nat, block: nat, bs: BlockSize): (Outcome, Blocks)
  {
    match bk.Get(Target(inode, None), Some(BlockRange(block, bs)))
    case Err(f) => (Fail(f), c)
    case Ok(d) => (Done, c.Put(inode, block, d))
  }

  /**
   * A prefetch succeeds exactly when the base object exists and reaches the
   * block; the block then caches the bytes from the block's first byte up to
   * and including the first byte of the next block; no other block changes,
   * and a failed prefetch changes nothing.
   */
  lemma PrefetchSpec(bk: Bucket, c: Blocks, inode: nat, block: nat, bs: BlockSize, i: nat, b: nat)
    ensures var (r, c') := Prefetch(bk, c, inode, block, bs);
      var name := NatToString(inode);
      (r.Done? <==> name in bk.objects && block * bs < |bk.objects[name]|)
      && (r.Done? ==>
            c'.Get(inode, block) == Some(bk.objects[name][block * bs..Min((block + 1) * bs + 1, |bk.objects[name]|)]))
      && (r.Fail? ==> c' == c)
      && ((i, b) != (inode, block) ==> c'.Get(i, b) == c.Get(i, b))
  {
    assert (block + 1) * bs == block * bs + bs;
  }

  /** `multipart_upload_object_block`: read cache bytes 0..B-1, drop the cached block, then upload what was read. */
  function UploadFromCache(bk: Bucket, c: Blocks, inode: nat, block: nat, id: nat, log: Option<string>, bs: BlockSize)
    : (Option<(string, int)>, Bucket, Blocks)
  {
    var d := c.Read(inode, 0, bs - 1, block);
    var (r, bk') := UploadBlock(bk, Target(inode, log), block, id, d);
    (r, bk', c.Remove(inode, block))
  }

  /**
   * The upload stores, as part `block + 1`, the first `B` bytes of the cached
   * block (all of it when shorter; nothing for an absent block). The cached
   * block is gone afterwards whether or not the upload was accepted, so an
   * upload that is refused loses the block, and no other cached block changes.
   */
  lemma UploadFromCacheSpec(bk: Bucket, c: Blocks, inode: nat, block: nat, id: nat, log: Option<string>,
                            bs: BlockSize, i: nat, b: nat)
    ensures var (r, bk', c') := UploadFromCache(bk, c, inode, block, id, log, bs);
      var name := Target(inode, log);
      (r.Some? <==> bk.CanUpload(name, id, block + 1))
      && (r.Some? ==>
            && r.value.1 == block + 1
            && bk'.uploads[id].parts[block + 1].data == Slice(c.Value(inode, block), 0, bs)
            && bk'.objects == bk.objects)
      && (r.None? ==> bk' == bk)
      && !c'.Exists(inode, block)
      && ((i, b) != (inode, block) ==> c'.Get(i, b) == c.Get(i, b))
  {
    var d := c.Read(inode, 0, bs - 1, block);
    GetRangeNonNegative(c.Value(inode, block), 0, bs - 1);
    UploadBlockSpec(bk, Target(inode, log), block, id, d);
  }

  /**
   * Prefetching a block of a base object that extends past it and then
   * uploading it from the cache stores exactly the block's `B` bytes: the one
   * byte too many the ranged read brings in is cut off again by the cache read.
   */
  lemma PrefetchThenUpload(bk: Bucket, c: Blocks, inode: nat, block: nat, id: nat, bs: BlockSize)
    requires NatToString(inode) in bk.objects && |bk.objects[NatToString(inode)]| > (block + 1) * bs
    requires bk.CanUpload(NatToString(inode), id, block + 1)
    ensures var (r, c1) := Prefetch(bk, c, inode, block, bs);
      var (u, bk', c2) := UploadFromCache(bk, c1, inode, block, id, None, bs);
      var s := bk.objects[NatToString(inode)];
      r.Done? && u == Some((u.value.0, block + 1))
      && bk'.uploads[id].parts[block + 1].data == s[block * bs..(block + 1) * bs]
      && !c2.Exists(inode, block)
  {
    var s := bk.objects[NatToString(inode)];
    var (r, c1) := Prefetch(bk, c, inode, block, bs);
    PrefetchSpec(bk, c, inode, block, bs, inode, block);
    assert (block + 1) * bs == block * bs + bs;
    var cached := s[block * bs..(block + 1) * bs + 1];
    assert c1.Value(inode, block) == cached;
    UploadFromCacheSpec(bk, c1, inode, block, id, None, bs, inode, block);
    assert Slice(cached, 0, bs) == s[block * bs..(block + 1) * bs];
  }

  /** `prefetch_object_block((fs, inode, block))`. */
  method PrefetchObjectBlock(store: ObjectStore, cache: RedisCacheStore, inode: nat, block: nat) returns (r: Outcome)
    modifies cache
    ensures (r, cache.State()) == Prefetch(store.bucket.State(), old(cache.State()), inode, block, store.blockSize)
  {
    var data := store.GetDnode(inode, Some(block), None);
    if data.Err? {
      return Fail(data.failure);
    }
    cache.PutInode(inode, data.value, block);
    r := Done;
  }

  /** `multipart_upload_object_block((fs, inode, block, id, log))`. */
  method MultipartUploadObjectBlock(store: ObjectStore, cache: RedisCacheStore, inode: nat, block: nat, id: nat,
                                    log: Option<string>)
    returns (r: Option<(string, int)>)
    modifies cache, store.bucket
    ensures (r, store.bucket.State(), cache.State())
         == UploadFromCache(old(store.bucket.State()), old(cache.State()), inode, block, id, log, store.blockSize)
  {
    var data := cache.ReadInode(inode, 0, store.blockSize - 1, block);
    var _ := cache.RemoveInode(inode, block);
    r := store.MultipartUploadDnode(inode, block, id, data, log);
  }
}
