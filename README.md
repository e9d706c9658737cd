# ObjectFS in Dafny

ObjectFS is a FUSE filesystem that stores file data in an object store
(S3 or Swift) and all metadata in Redis. This project models its core in
Dafny and proves properties of that model. The core is the metadata and
namespace engine, the data path of its three operation modes, and the
log-structured flush and merge of the multipart mode.

## What is modelled

- **Backends as values.** Each Redis key family and each bucket is a Dafny
  `map` or `seq`, held by a class whose methods update it in place.
  - `CacheStores`, `BlockSets`, `MergeQueues`, `FragmentMaps`, `MetaStores`,
    `Objects` and `ObjectStores` are the store clients.
  - Every key builder is a pure function, proved injective and, where several
    families share a Redis keyspace, proved disjoint from the others. So a model
    key never collides with another model key.
  - Each client exposes `State()`. Each of its methods is proved to leave
    `State()` equal to a pure function of the old state.
  - `Objects` follows S3's multipart rules: a completion is refused unless
    its part list is non-empty, ascending and names uploaded parts, and every
    part but the last holds at least 5 MiB (`MinPartSize`).
- **Metadata.**
  - `SuperBlocks`: the guarded counters, namely the inode limit, used size
    against total size, and the free inode id, which only ever grows.
  - `Inodes`: the inode record, its defaults and its serialised form.
  - `MetaStores`: the inode records, the name index `(parent, name) → id`, the
    per-directory entry lists, and the write-through `Inode` object.
- **Namespace operations.**
  - `Namespace` defines each operation of `ObjectFsOperations` as a function
    from the stores before the call to its result and the stores after it.
    The operations are `getattr`, `setattr`, `lookup`, `open`, `create`,
    `mkdir`, `mknod`, `symlink`, `readdir`, `rmdir`, `unlink`, `link`,
    `rename`, `statfs`, `forget` and `readlink`.
  - A failure in the middle of an operation keeps the writes made before it,
    as Python does.
  - `NamespaceInvariants` defines the invariant `Valid` on the metadata store
    and proves that every operation keeps it. `Valid` says that every indexed
    name is listed in its directory, not the converse.
  - `NamespaceConsistency` adds the converse, `ListedIndexed`: every name a
    directory lists is indexed to the listed inode, and listed once. As
    written, `delete_inode` cleans the stored name of the inode it deletes
    even when that name now belongs to another inode, so `forget` can leave
    a listed name without its index key. With the corrected delete, every
    operation keeps the converse as well.
  - `NamespaceLemmas` proves what each operation does.
- **Data path.**
  - `DataPath` defines the NoCache, Cache and Multipart `read`, `write`,
    `open` and `release`, and `_sync` with its flush of dirty blocks into a
    log object.
  - `DataPathLemmas` proves what bytes a read returns after a write, the
    size and used-size bookkeeping, and what a flush uploads and records.
- **Background tasks.**
  - `BlockTasks` models the single-block prefetch and part upload.
  - `CacheTasks` models `merge_log_objects` and the planning of
    `merge_log_objects_parallel`, as a plan followed by an executor.
  - `CacheTaskLemmas` proves properties of the merge as a whole.
- **Operations.** `Operations.ObjectFsOperations` is one class over the store
  clients.
  - Each of its methods makes the source's store calls in the source's order.
  - Each method is proved to compute exactly the matching `Namespace` or
    `DataPath` function.

Time, the clock and the process pool are not modelled directly:

- Timestamps are parameters.
- A pool `map_async` of prefetch jobs is modelled as the returned list of
  job arguments.
- A pool `map` of part uploads is modelled as a loop over the same arguments.

Python failures that are not `FUSEError` are modelled as
`Crash(cause)`. Examples are `None.attr`, a `NameError` and a swallowed
backend error.

Each deviation of the source from its evident intent is switchable. The
switches are the records `Namespace.Fixes`, `DataPath.DataFixes` and
`CacheTasks.Rules`, each with an as-written value and a corrected value.

- The operations class takes its switches as constructor arguments, and
  `CacheTasks.MergeLogObjects` runs the merge with the as-written rules.
- The "## Findings" table pairs each deviation with a lemma about each
  choice.

## Model

| member | source | states |
|---|---|---|
| Common.Zeros | objectfs/core/objectfs_operations.py:527 | the padding `b'\x00' * n` is `n` zero bytes |
| Common.Slice | objectfs/core/objectfs_operations.py:517 | Python's `data[lo:hi]`: both bounds clamp to the length, and the result is the elements from `lo` on |
| Common.FloorDiv | objectfs/core/objectfs_operations.py:655 | Python's `//` rounds toward minus infinity, for either sign of divisor |
| Common.CeilDiv | objectfs/core/objectfs_operations.py:106 | `math.ceil(a / b)` is the least integer whose multiple reaches `a` |
| Common.Splice | objectfs/core/objectfs_operations.py:526-529 | writing `buf` at `off` into `data` gives a buffer reaching the longer end, holding `buf` at its offsets, the old bytes elsewhere and zeros in any gap |
| Common.RemoveFirst | objectfs/core/metadata/metastore.py:264-272 | Redis `LREM key 1 value` drops exactly the first occurrence and leaves a list without it unchanged |
| Common.RemoveFirstAppended | objectfs/core/metadata/metastore.py:253-272 | removing a value just appended to a list without it gives the list back |
| Common.LRange | objectfs/core/common/mergequeue.py:48-54 | Redis `LRANGE` returns a part of the list, never longer than it |
| Common.SortedElements | objectfs/core/objectfs_operations.py:732-736 | the block list `_sync` builds and sorts holds exactly the dirty block ids, in strictly increasing order |
| Strings.NatToString | objectfs/core/common/fragmentmap.py:46-48 | `str(n)` of a natural number is a non-empty run of decimal digits |
| Strings.ParseNat | objectfs/core/metadata/metastore.py:247-248 | `int(s)` on the decimal text the stores write: it succeeds exactly on a non-empty run of decimal digits and gives their value |
| Strings.ParseNatToString | objectfs/core/metadata/metastore.py:247-248 | `int(str(n)) == n` |
| Strings.NatToStringInjective | objectfs/core/metadata/metastore.py:150-152 | two ids give the same decimal text exactly when they are equal, so keys built from different ids differ |
| Strings.Split | objectfs/core/common/fragmentmap.py:50-53 | `str.split(d)` returns at least one part |
| Strings.SplitJoin | objectfs/core/common/fragmentmap.py:46-53 | splitting `d.join(parts)` at `d` gives the parts back when none contains `d` |
| Strings.StripQuoted | objectfs/core/data/object.py:218 | `'"t"'.strip('"')` is `t` when `t` holds no quote |
| BlockSets.SetKeyInjective | objectfs/core/common/blockset.py:39-41 | two set keys of one filesystem are equal exactly when inode and kind are |
| BlockSets.DirtyCleanDistinct | objectfs/core/common/blockset.py:74-83 | a DIRTY set key never equals a CLEAN set key, so the two sets never share storage |
| BlockSets.AddSpec | objectfs/core/common/blockset.py:50-55 | after `sadd` the members are the old ones plus the given ids, other inodes' sets are unchanged, and adding twice is adding once |
| BlockSets.RemoveSpec | objectfs/core/common/blockset.py:66-71 | after `srem` the members are the old ones minus the given ids, other inodes are unchanged, and removing absent ids changes nothing |
| BlockSets.AddThenRemove | objectfs/core/common/blockset.py:50-71 | adding ids that were not members and then removing them restores the set |
| BlockSets.DeleteOnlyThat | objectfs/core/common/blockset.py:43-48 | deleting a set empties it and leaves every other inode's set alone |
| BlockSets.BlockSet.constructor | objectfs/core/common/blockset.py:29-36 | a set client for one filesystem and kind over given contents |
| BlockSets.BlockSet.DeleteSet | objectfs/core/common/blockset.py:43-48 | the store afterwards is the old one with that inode's set deleted |
| BlockSets.BlockSet.Add | objectfs/core/common/blockset.py:50-55 | an empty id list is refused by Redis (an error, nothing changed); otherwise the ids are added |
| BlockSets.BlockSet.Remove | objectfs/core/common/blockset.py:66-71 | an empty id list is refused by Redis (an error, nothing changed); otherwise the ids are removed |
| BlockSets.BlockSet.Get | objectfs/core/common/blockset.py:57-64 | yields exactly the members of the inode's set, each once |
| MergeQueues.QueueKeyInjective | objectfs/core/common/mergequeue.py:39-40 | two queue keys of one filesystem are equal exactly when the inodes are |
| MergeQueues.InsertAllAppends | objectfs/core/common/mergequeue.py:42-46 | pushing names one by one appends them, in order, to that inode's queue only |
| MergeQueues.FetchRange | objectfs/core/common/mergequeue.py:48-54 | `lrange(start, end)` with the end inclusive: empty when start is past end or past the queue, else the slice clipped to the queue |
| MergeQueues.FetchDefault | objectfs/core/common/mergequeue.py:48-54 | the default fetch returns the first six log objects, never more |
| MergeQueues.RemoveHead | objectfs/core/common/mergequeue.py:56-60 | removing the name at the head of the queue leaves the rest |
| MergeQueues.RemoveSpec | objectfs/core/common/mergequeue.py:56-60 | `lrem` with count 1 drops the first occurrence only, changes nothing when the name is absent, and leaves other queues alone |
| MergeQueues.RemovePrefix | objectfs/core/common/mergequeue.py:56-60 | removing each fetched name in turn from a queue that starts with them leaves what followed them |
| MergeQueues.RemoveEachOthers | objectfs/core/common/mergequeue.py:56-60 | removing names from one queue leaves other inodes' queues unchanged |
| MergeQueues.DeleteOnlyThat | objectfs/core/common/mergequeue.py:35-37 | deleting a queue empties it and leaves the others alone |
| MergeQueues.MergeQueue.constructor | objectfs/core/common/mergequeue.py:27-33 | a queue client for one filesystem over given contents |
| MergeQueues.MergeQueue.DeleteQueue | objectfs/core/common/mergequeue.py:35-37 | the store afterwards is the old one with that queue deleted |
| MergeQueues.MergeQueue.Insert | objectfs/core/common/mergequeue.py:42-46 | the store afterwards has the name pushed at the tail of that queue |
| MergeQueues.MergeQueue.Fetch | objectfs/core/common/mergequeue.py:48-54 | the names returned are the inclusive range of the queue, each a member of it |
| MergeQueues.MergeQueue.Remove | objectfs/core/common/mergequeue.py:56-60 | the store afterwards has the first occurrence of the name removed |
| BlockTasks.PrefetchSpec | objectfs/core/cache/cachetask.py:52-67 | prefetch succeeds exactly when the base object exists and reaches the block; then the cached block is the object's bytes from `block*B` to `(block+1)*B` inclusive of one extra byte (the ranged GET's inclusive end); on failure the cache is unchanged; other blocks are untouched |
| BlockTasks.UploadFromCacheSpec | objectfs/core/cache/cachetask.py:69-80 | the upload returns a result exactly when the bucket accepts part `block+1` of the upload; that part holds the first B cached bytes; on failure the bucket is unchanged; the cached block is dropped either way and no other block is touched |
| BlockTasks.PrefetchThenUpload | objectfs/core/cache/cachetask.py:52-80 | prefetching a block that lies inside the object and then uploading it yields part `block+1` holding exactly that block's B bytes |
| BlockTasks.PrefetchObjectBlock | objectfs/core/cache/cachetask.py:52-67 | the new cache state and outcome are those the prefetch specification gives |
| BlockTasks.MultipartUploadObjectBlock | objectfs/core/cache/cachetask.py:69-80 | the result, new bucket and new cache are those the upload specification gives |
| CacheStores.CacheKeyInjective | objectfs/core/cache/cachestore.py:84-85 | two cache keys of one filesystem are equal exactly when inode and block are |
| CacheStores.GetRange | objectfs/core/cache/cachestore.py:97-105 | Redis `GETRANGE` never returns more bytes than the value holds |
| CacheStores.GetRangeNonNegative | objectfs/core/cache/cachestore.py:97-105 | with non-negative bounds `GETRANGE start end` is the slice from start to end inclusive |
| CacheStores.PutThenGet | objectfs/core/cache/cachestore.py:107-126 | after `set` the block reads back as the data and exists; no other block changes |
| CacheStores.RemoveSpec | objectfs/core/cache/cachestore.py:127-135 | after `delete` the block does not exist, deleting an absent block changes nothing, other blocks are untouched |
| CacheStores.WriteSpec | objectfs/core/cache/cachestore.py:87-95 | `SETRANGE` grows the value to cover the write, zero-fills any gap, puts the buffer at the offset and keeps the other bytes; other blocks are untouched |
| CacheStores.WriteThenRead | objectfs/core/cache/cachestore.py:87-105 | reading back the written range returns the buffer |
| CacheStores.WriteReadFromStart | objectfs/core/cache/cachestore.py:87-105 | a write at 0 into an absent block reads back whole |
| CacheStores.RedisCacheStore.constructor | objectfs/core/cache/cachestore.py:74-82 | a cache client for one filesystem over given contents |
| CacheStores.RedisCacheStore.WriteInode | objectfs/core/cache/cachestore.py:87-95 | the store afterwards is the old one with the range written; returns the new length, as `SETRANGE` does |
| CacheStores.RedisCacheStore.ReadInode | objectfs/core/cache/cachestore.py:97-105 | returns the `GETRANGE` of the block, which for non-negative bounds is the inclusive slice |
| CacheStores.RedisCacheStore.PutInode | objectfs/core/cache/cachestore.py:107-115 | the store afterwards holds the data under that block |
| CacheStores.RedisCacheStore.GetInode | objectfs/core/cache/cachestore.py:117-125 | returns the block's bytes, present exactly when the block exists |
| CacheStores.RedisCacheStore.RemoveInode | objectfs/core/cache/cachestore.py:127-135 | the store afterwards lacks that block; returns 1 when it existed and 0 otherwise |
| CacheStores.RedisCacheStore.ExistsInode | objectfs/core/cache/cachestore.py:137-145 | true exactly when the block is cached |
| Objects.PartData | objectfs/core/data/object.py:222-234 | the data of the listed parts, in list order |
| Objects.UploadBlockSpec | objectfs/core/data/object.py:210-220 | an upload of block `b` succeeds exactly when the upload is open on that object and `b+1` is a valid part number; it then returns part number `b+1` and records that part only; a failure (swallowed by the except) returns None and changes nothing |
| Objects.UploadBlockListed | objectfs/core/data/object.py:210-220 | a successful part upload's (ETag, PartNumber) names the part holding the data |
| Objects.CompleteSpec | objectfs/core/data/object.py:222-234 | completion succeeds exactly when the upload is open on that object and the part list is non-empty, ascending, names uploaded parts and every part but the last holds at least 5 MiB (`MinPartSize`); the object then is the concatenation of the listed parts, the upload is closed and no other object appears or disappears |
| Objects.CompleteRefusesSmallPart | objectfs/core/data/object.py:222-234 | a listed part under 5 MiB anywhere but last makes S3 refuse the completion |
| Objects.CompleteNeedsParts | objectfs/core/data/object.py:222-234 | an empty part list is refused |
| Objects.GetWhole | objectfs/core/data/object.py:235-246 | a GET with no block of an existing object returns all of it |
| Objects.PutDeleteHead | objectfs/core/data/object.py:176-192 | after a put the object exists and reads back as the data; after a delete it does not exist; deleting an absent object changes nothing |
| Objects.RangedGetSpansExtraByte | objectfs/core/data/object.py:238-240 | the ranged GET `bytes=b*B-(b+1)*B` is inclusive, so for a block inside the object it returns B+1 bytes, the last being the next block's first |
| Objects.RangedGetExample | objectfs/core/data/object.py:238-240 | on a 4-byte object with B = 2, block 0 as written returns 3 bytes, the corrected range 2 |
| Objects.ConcatBlock | objectfs/core/data/object.py:222-234 | in a concatenation of full-size parts, part k sits at offset k*B |
| Objects.CorrectedGetReadsBlock | objectfs/core/data/object.py:238-240 | with the range ending at `(b+1)*B - 1`, a ranged GET of an object built from blocks returns exactly block b |
| Objects.ConcatLength | objectfs/core/data/object.py:222-234 | a concatenation of full-size parts and a last one has length `(n-1)*B` plus the last part's |
| Objects.S3Bucket.constructor | objectfs/core/data/object.py:170-174 | a bucket over given contents |
| Objects.S3Bucket.SetState | objectfs/core/data/object.py:170-174 | the bucket afterwards holds the given contents |
| Objects.S3Object.constructor | objectfs/core/data/object.py:172-174 | an object handle on a bucket, a name and the block size |
| Objects.S3Object.Put | objectfs/core/data/object.py:176-192 | the bucket afterwards holds the contents under the object's name |
| Objects.S3Object.InitiateMultipartUpload | objectfs/core/data/object.py:201-208 | returns the new upload's id and the bucket with that upload open |
| Objects.S3Object.UploadPart | objectfs/core/data/object.py:210-220 | result and new bucket are those of the part-upload specification |
| Objects.S3Object.CompleteMultipartUpload | objectfs/core/data/object.py:222-234 | reports whether completion was accepted; accepted, the bucket is the completed one, refused (the except swallows it), unchanged |
| Objects.S3Object.Get | objectfs/core/data/object.py:235-246 | returns the object, or the inclusive block range of it, as the bucket holds it; the whole object when no block is given |
| Objects.S3Object.Delete | objectfs/core/data/object.py:252-259 | the bucket afterwards lacks the object |
| Objects.S3Object.Head | objectfs/core/data/object.py:261-271 | true exactly when the object exists |
| Objects.SwiftDeleteSpec | objectfs/core/data/object.py:131-139 | deleting checks existence first, so deleting an absent object changes nothing; afterwards the object is gone and no other object changes |
| Objects.SwiftMoveSpec | objectfs/core/data/object.py:155-164 | moving copies the contents to the new name and deletes the old object; no other object changes |
| Objects.SwiftMoveOntoItself | objectfs/core/data/object.py:155-164 | moving an object onto its own name copies it and then deletes it, so it is lost |
| Objects.SwiftContainer.constructor | objectfs/core/data/object.py:95-98 | a container over given contents |
| Objects.SwiftObject.constructor | objectfs/core/data/object.py:97-98 | an object handle on a container and a name |
| Objects.SwiftObject.Put | objectfs/core/data/object.py:112-119 | the container afterwards holds the contents under the name |
| Objects.SwiftObject.Get | objectfs/core/data/object.py:121-129 | the object's contents, or a client error when it is absent |
| Objects.SwiftObject.Head | objectfs/core/data/object.py:141-153 | true exactly when the object exists |
| Objects.SwiftObject.Delete | objectfs/core/data/object.py:131-139 | the container afterwards lacks the object |
| Objects.SwiftObject.Move | objectfs/core/data/object.py:155-164 | succeeds with the moved container when the copy is possible, otherwise fails and changes nothing |
| ObjectStores.CreateStore | objectfs/core/data/objectstore.py:124-140 | a store is created exactly for the kinds S3, Swift and Google; any other kind raises NotImplementedError |
| ObjectStores.Target | objectfs/core/data/objectstore.py:34-40 | a non-empty log object name is used as the object's name; otherwise the inode id's decimal string |
| ObjectStores.LogsAndBaseObjectsDisjoint | objectfs/core/data/objectstore.py:34-40 | a log object's name is never the name of any inode's base object |
| ObjectStores.BaseObjectsDistinct | objectfs/core/data/objectstore.py:34-40 | two inodes' base objects have the same name exactly when the inodes are the same |
| ObjectStores.ObjectStore.constructor | objectfs/core/data/objectstore.py:27-28 | a store over a bucket with the configured block size |
| ObjectStores.ObjectStore.Object | objectfs/core/data/objectstore.py:89-91 | a fresh handle on the named object of this store's bucket |
| ObjectStores.ObjectStore.GetDnode | objectfs/core/data/objectstore.py:34-40 | the GET of the log object or base object, whole or one block |
| ObjectStores.ObjectStore.PutDnode | objectfs/core/data/objectstore.py:42-48 | the bucket afterwards holds the data under the log or base object's name |
| ObjectStores.ObjectStore.DnodeSize | objectfs/core/data/objectstore.py:50-55 | the object's length when it exists, else an error |
| ObjectStores.ObjectStore.DeleteDnode | objectfs/core/data/objectstore.py:57-63 | the bucket afterwards lacks the log or base object |
| ObjectStores.ObjectStore.MultipartUploadDnode | objectfs/core/data/objectstore.py:65-71 | uploads the block as a part of the named object's upload, as the part-upload specification says |
| ObjectStores.ObjectStore.MultipartUploadInitiate | objectfs/core/data/objectstore.py:73-79 | always raises: its log line names `multipart_id`, which is not defined there |
| ObjectStores.ObjectStore.CorrectedMultipartUploadInitiate | objectfs/core/data/objectstore.py:73-79 | without the undefined name, opens an upload on the inode's base object (both branches use the inode) |
| ObjectStores.ObjectStore.MultipartUploadComplete | objectfs/core/data/objectstore.py:81-87 | completes the named object's upload; a refusal leaves the bucket unchanged |
| FragmentMaps.Decimals | objectfs/core/common/fragmentmap.py:48 | the decimal strings of the block ids, one per block, in order |
| FragmentMaps.BlockKeyInjective | objectfs/core/common/fragmentmap.py:39-40 | two block keys of one filesystem are equal exactly when inode and block are |
| FragmentMaps.DecodeLogKeyRoundTrip | objectfs/core/common/fragmentmap.py:46-53 | decoding a log key gives back the decimal block ids it was built from, in order |
| FragmentMaps.LogKeyIsNotBlockKey | objectfs/core/common/fragmentmap.py:39-48 | a log key holds no `%`, so it is never a block key |
| FragmentMaps.LogKeyIsNotDecimal | objectfs/core/common/fragmentmap.py:46-48 | a log key is never an inode's decimal name, so log objects never overwrite base objects |
| FragmentMaps.BeforeTransitive | objectfs/core/common/fragmentmap.py:118-124 | the sorted-set order (score, then member) is transitive |
| FragmentMaps.BeforeTotal | objectfs/core/common/fragmentmap.py:118-124 | any two distinct members are ordered one way or the other |
| FragmentMaps.Insert | objectfs/core/common/fragmentmap.py:72-76 | inserting into a sorted set adds exactly that entry |
| FragmentMaps.InsertValid | objectfs/core/common/fragmentmap.py:72-76 | inserting a new member keeps the set sorted with unique members |
| FragmentMaps.FilterInsert | objectfs/core/common/fragmentmap.py:126-133 | filtering out an inserted entry the filter drops gives the old filtered set |
| FragmentMaps.ZValidFilter | objectfs/core/common/fragmentmap.py:126-133 | removing members keeps the set sorted with unique members |
| FragmentMaps.ZAddSpec | objectfs/core/common/fragmentmap.py:72-76 | `ZADD` keeps the set well-formed; afterwards the set holds the member with the new score and all other members as before |
| FragmentMaps.ZAddTwice | objectfs/core/common/fragmentmap.py:72-76 | adding the same member with the same score twice is adding it once |
| FragmentMaps.SelectedMembers | objectfs/core/common/fragmentmap.py:85-90 | the removal list holds exactly the fetched members the pass selects |
| FragmentMaps.StoreSpec | objectfs/core/common/fragmentmap.py:72-133 | storing a well-formed set under one block keeps the index well-formed and changes that block only |
| FragmentMaps.AddFragmentSpec | objectfs/core/common/fragmentmap.py:72-80 | adding a fragment keeps the index well-formed and changes only that block's set, by one `ZADD` |
| FragmentMaps.AddAllSpec | objectfs/core/common/fragmentmap.py:96-103 | indexing a log fragment under each block `ZADD`s it to exactly those blocks' sets |
| FragmentMaps.GetFragmentSpec | objectfs/core/common/fragmentmap.py:118-124 | `ZREVRANGEBYSCORE` returns exactly the entries whose score lies in range, highest score first |
| FragmentMaps.RemoveStepSpec | objectfs/core/common/fragmentmap.py:85-91 | one block's removal pass keeps the index well-formed and keeps exactly the entries it does not select or that are newer than the flush time |
| FragmentMaps.FilterAll | objectfs/core/common/fragmentmap.py:126-133 | a filter that keeps everything is the identity |
| FragmentMaps.RemoveAllSpec | objectfs/core/common/fragmentmap.py:82-116 | the removal pass over a block list applies the one-block pass to exactly those blocks |
| FragmentMaps.RemoveLogFragmentTakesCacheFragment | objectfs/core/common/fragmentmap.py:105-116 | as written, `remove_log_fragment` on a filesystem named "test_fs" removes the block's cache fragment, because the cache key contains `_` |
| FragmentMaps.RemoveLogFragmentKeepsCacheFragment | objectfs/core/common/fragmentmap.py:105-116 | selecting every member but the block's cache key removes exactly the log fragments flushed by the time and always keeps the cache fragment |
| FragmentMaps.CacheFragmentUnique | objectfs/core/common/fragmentmap.py:72-80 | a block's cache fragment appears at most once in its set |
| FragmentMaps.SelectMembers | objectfs/core/common/fragmentmap.py:87-90 | the loop's removal list is the selected members of the fetched fragments |
| FragmentMaps.FragmentMap.constructor | objectfs/core/common/fragmentmap.py:31-37 | a fragment-map client for one filesystem over given contents |
| FragmentMaps.FragmentMap.AddFragment | objectfs/core/common/fragmentmap.py:72-76 | the index afterwards has the fragment added to that block |
| FragmentMaps.FragmentMap.AddCacheFragment | objectfs/core/common/fragmentmap.py:78-80 | the index afterwards has the block's own key added with the given time |
| FragmentMaps.FragmentMap.AddLogFragment | objectfs/core/common/fragmentmap.py:96-103 | the index afterwards has the log key added to every listed block with the flush time |
| FragmentMaps.FragmentMap.GetFragment | objectfs/core/common/fragmentmap.py:118-124 | the entries in score range, as the index gives them |
| FragmentMaps.FragmentMap.RemoveFragments | objectfs/core/common/fragmentmap.py:126-133 | the index afterwards lacks the listed members; an empty list changes nothing |
| FragmentMaps.FragmentMap.RemoveSelected | objectfs/core/common/fragmentmap.py:85-91 | the index afterwards is the one-block removal pass applied |
| FragmentMaps.FragmentMap.RemoveCacheFragment | objectfs/core/common/fragmentmap.py:82-93 | the index afterwards has each listed block's cache fragment removed if flushed by the time |
| FragmentMaps.FragmentMap.RemoveLogFragment | objectfs/core/common/fragmentmap.py:105-116 | the index afterwards has each listed block's members with a `_` removed if flushed by the time |
| FragmentMaps.FragmentMap.RemoveEach | objectfs/core/common/fragmentmap.py:85-91 | the loop over the block list applies the one-block pass to each block |
| FragmentMaps.FragmentMap.RemoveFragmentMap | objectfs/core/common/fragmentmap.py:62-70 | an empty block list is refused by Redis; otherwise every listed block's set is deleted and nothing else |
| FragmentMaps.FragmentMap.RemoveBlock | objectfs/core/common/fragmentmap.py:55-60 | the index afterwards lacks that block's set |
| SuperBlocks.WrapInjective | objectfs/core/metadata/superblock.py:51-52 | two wrapped keys of one filesystem are equal exactly when the setting names are |
| SuperBlocks.KeysDistinct | objectfs/core/metadata/superblock.py:34-39 | distinct setting names give six distinct superblock keys |
| SuperBlocks.WrapSeparatesFilesystems | objectfs/core/metadata/superblock.py:51-52 | two filesystems whose names hold no `%` never share a superblock key |
| SuperBlocks.IncrInodeCounterSpec | objectfs/core/metadata/superblock.py:105-111 | the counter goes up by one exactly when both keys are set and it is below the limit; a missing counter is a TypeError, a full one ENOSPC, and a failure changes nothing |
| SuperBlocks.OperationsKeepBounds | objectfs/core/metadata/superblock.py:91-156 | the counter stays within the inode limit and the used size within the total size under every counter and size operation |
| SuperBlocks.FetchFreeInodeIdIncreases | objectfs/core/metadata/superblock.py:91-95 | each successful fetch returns one more than the last free id and stores it; a refused fetch changes nothing |
| SuperBlocks.InodeLimitScenario | objectfs/tests/test_superblock.py:64-80 | on a fresh superblock with room for five inodes the counter rises to 5 and the next increment is ENOSPC |
| SuperBlocks.FreeIdScenario | objectfs/tests/test_superblock.py:82-86 | on a fresh superblock the free ids handed out are 2, 3 and 4 |
| SuperBlocks.SuperBlock.constructor | objectfs/core/metadata/superblock.py:30-39 | the six keys are the wrapped setting names of this filesystem |
| SuperBlocks.SuperBlock.InitSuperblock | objectfs/core/metadata/superblock.py:41-49 | used size, free id, inode counter and block size are set to the given values |
| SuperBlocks.SuperBlock.DeleteSuperblock | objectfs/core/metadata/superblock.py:57-58 | all six keys are deleted and nothing else |
| SuperBlocks.SuperBlock.Exists | objectfs/core/metadata/superblock.py:60-67 | true exactly when all six keys are set |
| SuperBlocks.SuperBlock.MaxInodes | objectfs/core/metadata/superblock.py:73-75 | the stored limit, None when unset |
| SuperBlocks.SuperBlock.SetMaxInodes | objectfs/core/metadata/superblock.py:77-80 | only the limit key changes, to the value |
| SuperBlocks.SuperBlock.FreeInodeId | objectfs/core/metadata/superblock.py:82-84 | the stored free id, None when unset |
| SuperBlocks.SuperBlock.SetFreeInodeId | objectfs/core/metadata/superblock.py:86-89 | only the free-id key changes, to the value |
| SuperBlocks.SuperBlock.InodeCounter | objectfs/core/metadata/superblock.py:97-99 | the stored counter, None when unset |
| SuperBlocks.SuperBlock.SetInodeCounter | objectfs/core/metadata/superblock.py:101-103 | only the counter key changes, to the value |
| SuperBlocks.SuperBlock.BlockSize | objectfs/core/metadata/superblock.py:117-119 | the stored block size, None when unset |
| SuperBlocks.SuperBlock.SetBlockSize | objectfs/core/metadata/superblock.py:121-124 | only the block-size key changes, to the value |
| SuperBlocks.SuperBlock.TotalSize | objectfs/core/metadata/superblock.py:126-129 | the stored total size, 0 when unset or 0 |
| SuperBlocks.SuperBlock.SetTotalSize | objectfs/core/metadata/superblock.py:131-134 | only the total-size key changes, to the value |
| SuperBlocks.SuperBlock.UsedSize | objectfs/core/metadata/superblock.py:136-139 | the stored used size, 0 when unset or 0 |
| SuperBlocks.SuperBlock.SetUsedSize | objectfs/core/metadata/superblock.py:141-144 | only the used-size key changes, to the value |
| SuperBlocks.SuperBlock.IncrInodeCounter | objectfs/core/metadata/superblock.py:105-111 | outcome and new store are those the counter specification gives |
| SuperBlocks.SuperBlock.FetchFreeInodeId | objectfs/core/metadata/superblock.py:91-95 | outcome and new store are those the fetch specification gives |
| SuperBlocks.SuperBlock.DecrInodeCounter | objectfs/core/metadata/superblock.py:113-115 | the counter goes down by one |
| SuperBlocks.SuperBlock.IncrUsedSize | objectfs/core/metadata/superblock.py:146-152 | the used size grows by the value when it stays within the total size, otherwise ENOSPC and nothing changes |
| SuperBlocks.SuperBlock.DecrUsedSize | objectfs/core/metadata/superblock.py:154-156 | the used size shrinks by the value |
| Inodes.FileType | objectfs/core/objectfs_operations.py:193-201 | `mode & S_IFMT`: a multiple of 0o10000 no larger than the mode |
| Inodes.CharCodes | objectfs/core/metadata/inode.py:52-54 | a string's serialised characters: one code per character, each a valid code point |
| Inodes.CodesToCharsRoundTrip | objectfs/core/metadata/inode.py:47-54 | the codes of a string decode to that string |
| Inodes.CodesToCharsCanonical | objectfs/core/metadata/inode.py:47-54 | codes that decode to a string are that string's codes |
| Inodes.DecodeTextRoundTrip | objectfs/core/metadata/inode.py:47-54 | an encoded string decodes back, leaving what followed it |
| Inodes.DecodeTextCanonical | objectfs/core/metadata/inode.py:47-54 | what decodes as a string is its encoding followed by the rest |
| Inodes.DecodeOptTextRoundTrip | objectfs/core/metadata/inode.py:47-54 | an encoded optional string decodes back, leaving what followed it |
| Inodes.DecodeOptTextCanonical | objectfs/core/metadata/inode.py:47-54 | what decodes as an optional string is its encoding followed by the rest |
| Inodes.FromToString | objectfs/core/metadata/inode.py:47-54 | loading a stored record gives the record back |
| Inodes.DecodeNumbersCanonical | objectfs/core/metadata/inode.py:47-54 | what decodes as the record's tail is the record's numbers, target and link count |
| Inodes.ToFromString | objectfs/core/metadata/inode.py:47-54 | only the serialised form of a record loads: storing what was loaded gives the same tokens |
| MetaStores.WrapFsInjective | objectfs/core/metadata/metastore.py:150-152 | two keys prefixed with one filesystem's name are equal exactly when the keys are |
| MetaStores.RecordKeyInjective | objectfs/core/metadata/metastore.py:150-163 | two inode record keys are equal exactly when the ids are |
| MetaStores.IndexKeyInjective | objectfs/core/metadata/metastore.py:238-239 | two index keys are equal exactly when parent and name are |
| MetaStores.ListKeyInjective | objectfs/core/metadata/metastore.py:235-236 | two directory list keys are equal exactly when the ids are |
| MetaStores.KeyFamiliesDisjoint | objectfs/core/metadata/metastore.py:150-239 | record, index and list keys never collide with each other |
| MetaStores.SplitWithDelimiter | objectfs/core/metadata/metastore.py:247 | splitting on a character the string holds yields two pieces or more |
| MetaStores.DecodeEntryRoundTrip | objectfs/core/metadata/metastore.py:238-248 | a listed `id#name` entry decodes back to the id and the name, unless the name holds `#`, in which case the two-way unpacking fails |
| MetaStores.DecodeEntries | objectfs/core/metadata/metastore.py:241-251 | the generator yields the decoded entries in list order, up to and not including the first one that does not decode, and reports whether it stopped there |
| MetaStores.PutInodeThenGet | objectfs/core/metadata/metastore.py:168-177 | after `put_inode` the record reads back and the name is indexed under its parent; no other record and no list or superblock key changes |
| MetaStores.AddThenRemoveEntry | objectfs/core/metadata/metastore.py:253-272 | appending an entry to a directory list and then removing it restores the list |
| MetaStores.RedisMetaStore.constructor | objectfs/core/metadata/metastore.py:58-68 | a metadata store client for one filesystem over given contents |
| MetaStores.RedisMetaStore.SetSuperblockKey | objectfs/core/metadata/metastore.py:81-89 | only that superblock key changes, to the value |
| MetaStores.RedisMetaStore.GetSuperblockKey | objectfs/core/metadata/metastore.py:91-102 | the stored value, None exactly when the key is unset |
| MetaStores.RedisMetaStore.IncrSuperblockKey | objectfs/core/metadata/metastore.py:104-115 | the key is increased by the value (from 0 when unset); the new value is returned, None when it is 0 |
| MetaStores.RedisMetaStore.DecrSuperblockKey | objectfs/core/metadata/metastore.py:117-128 | the key is decreased by the value; the new value is returned, None when it is 0 |
| MetaStores.RedisMetaStore.DeleteSuperblockKey | objectfs/core/metadata/metastore.py:130-138 | an empty key list is refused by Redis; otherwise exactly the listed keys are deleted |
| MetaStores.RedisMetaStore.Exists | objectfs/core/metadata/metastore.py:140-148 | true exactly when the key is set |
| MetaStores.RedisMetaStore.GetInode | objectfs/core/metadata/metastore.py:154-166 | None exactly when no record is stored; otherwise a fresh inode object loaded from the stored record |
| MetaStores.RedisMetaStore.PutInode | objectfs/core/metadata/metastore.py:168-177 | the record is stored and its name indexed under its parent |
| MetaStores.RedisMetaStore.UpdateInode | objectfs/core/metadata/metastore.py:179-187 | only the record is stored, with no index change |
| MetaStores.RedisMetaStore.GetInodeId | objectfs/core/metadata/metastore.py:189-200 | the id indexed under parent and name, None exactly when there is none |
| MetaStores.RedisMetaStore.DeleteInode | objectfs/core/metadata/metastore.py:202-213 | a missing record raises (`None.parent_inode_id`) and changes nothing; otherwise the record, its index key and its directory list are deleted |
| MetaStores.RedisMetaStore.CorrectedDeleteInode | objectfs/core/metadata/metastore.py:202-213 | a missing record raises and changes nothing; otherwise the record and its directory list are deleted, and its stored index key only while that key still names the inode |
| MetaStores.RedisMetaStore.BuildIndex | objectfs/core/metadata/metastore.py:215-223 | the index maps parent and name to the id afterwards |
| MetaStores.RedisMetaStore.CleanIndex | objectfs/core/metadata/metastore.py:225-233 | the index key of parent and name is deleted |
| MetaStores.RedisMetaStore.GetInodeIdList | objectfs/core/metadata/metastore.py:241-251 | the decoded entries of the list from the offset on, in order, stopping at the first that does not decode, with a flag saying whether it stopped |
| MetaStores.RedisMetaStore.AddInodeIdToList | objectfs/core/metadata/metastore.py:253-262 | the entry `id#name` is appended to the directory's list |
| MetaStores.RedisMetaStore.RemoveInodeIdFromList | objectfs/core/metadata/metastore.py:264-272 | the first occurrence of the entry is removed from the directory's list |
| MetaStores.RedisMetaStore.DeleteInodeIdList | objectfs/core/metadata/metastore.py:274-281 | the directory's list is deleted |
| MetaStores.RedisMetaStore.LengthInodeIdList | objectfs/core/metadata/metastore.py:283-294 | the length of the directory's list, 0 exactly when it is missing or empty |
| MetaStores.Inode.constructor | objectfs/core/metadata/inode.py:27-44 | a new inode of the given attributes, with open and lookup counts 0 and all three times the creation time |
| MetaStores.Inode.Load | objectfs/core/metadata/inode.py:47-49 | an inode object holding a stored record |
| MetaStores.Inode.Update | objectfs/core/metadata/inode.py:237-240 | the record is saved with `update_inode` |
| MetaStores.Inode.SetMode | objectfs/core/metadata/inode.py:80-84 | the mode changes and the record is saved, nothing else |
| MetaStores.Inode.SetName | objectfs/core/metadata/inode.py:90-94 | the name changes and the record is saved, nothing else |
| MetaStores.Inode.SetParentInodeId | objectfs/core/metadata/inode.py:100-104 | the parent changes and the record is saved, nothing else |
| MetaStores.Inode.SetSize | objectfs/core/metadata/inode.py:110-114 | the size changes and the record is saved, nothing else |
| MetaStores.Inode.SetOpenCount | objectfs/core/metadata/inode.py:120-124 | the open count changes and the record is saved, nothing else |
| MetaStores.Inode.SetLookupCount | objectfs/core/metadata/inode.py:130-134 | the lookup count changes and the record is saved, nothing else |
| MetaStores.Inode.SetUid | objectfs/core/metadata/inode.py:140-144 | the owner changes and the record is saved, nothing else |
| MetaStores.Inode.SetGid | objectfs/core/metadata/inode.py:150-154 | the group changes and the record is saved, nothing else |
| MetaStores.Inode.SetAtime | objectfs/core/metadata/inode.py:160-164 | the access time changes and the record is saved, nothing else |
| MetaStores.Inode.SetMtime | objectfs/core/metadata/inode.py:170-174 | the modification time changes and the record is saved, nothing else |
| MetaStores.Inode.SetCtime | objectfs/core/metadata/inode.py:180-184 | the change time changes and the record is saved, nothing else |
| MetaStores.Inode.SetTarget | objectfs/core/metadata/inode.py:190-193 | the link target changes and the record is saved, nothing else |
| MetaStores.Inode.SetRdev | objectfs/core/metadata/inode.py:199-202 | the device number changes and the record is saved, nothing else |
| MetaStores.Inode.SetNlink | objectfs/core/metadata/inode.py:208-211 | the link count changes and the record is saved, nothing else |
| CacheTasks.LessIrreflexive | objectfs/core/cache/cachetask.py:123 | no completion entry sorts before itself, under either order |
| CacheTasks.LessTransitive | objectfs/core/cache/cachetask.py:123 | the sort orders on completion entries are transitive |
| CacheTasks.InsertPart | objectfs/core/cache/cachetask.py:123 | inserting an entry into a list adds exactly that entry |
| CacheTasks.SortParts | objectfs/core/cache/cachetask.py:123 | sorting keeps the length and is a permutation |
| CacheTasks.InsertPartSorted | objectfs/core/cache/cachetask.py:123 | inserting into a sorted list keeps it sorted |
| CacheTasks.SortPartsSorted | objectfs/core/cache/cachetask.py:123 | the sorted list is ordered and a permutation of the input |
| CacheTasks.InsertPartAscending | objectfs/core/cache/cachetask.py:192-194 | inserting a new part number into a list ascending by part number keeps it ascending |
| CacheTasks.SortByPartAscending | objectfs/core/cache/cachetask.py:192-194 | sorting by `PartNumber` entries with distinct part numbers yields strictly ascending part numbers, as S3 requires |
| CacheTasks.Blocks | objectfs/core/cache/cachetask.py:98-121 | the blocks a plan uploads, one per step, in order |
| CacheTasks.LogSteps | objectfs/core/cache/cachetask.py:103-105 | one step per block still to take from a log, read at the block's position in the log's name |
| CacheTasks.BaseSteps | objectfs/core/cache/cachetask.py:115-117 | one step per block still to take from the base object, read at its own position |
| CacheTasks.Below | objectfs/core/cache/cachetask.py:115 | `range(n)` as a set: exactly the blocks below n |
| CacheTasks.BaseBlocks | objectfs/core/cache/cachetask.py:115-116 | the blocks re-read from the base object: those below the block count not taken from a log, plus, with the symmetric difference as written, the logged blocks at or past the count |
| CacheTasks.FirstWith | objectfs/core/cache/cachetask.py:98-112 | the first log naming a block; it exists exactly when some log names the block |
| CacheTasks.LastWith | objectfs/core/cache/cachetask.py:98-112 | the last log naming a block; none after it names the block |
| CacheTasks.ParseAll | objectfs/core/cache/cachetask.py:100 | `map(int, ...)` succeeds exactly when every piece is a decimal number, and then gives each piece's value |
| CacheTasks.DecodeLogName | objectfs/core/cache/cachetask.py:99-100 | a log name decodes to the block ids it was built from |
| CacheTasks.ExecSteps | objectfs/core/cache/cachetask.py:103-110 | the loop reading and uploading each planned block leaves the accumulator and bucket the specification gives |
| CacheTasks.MergeLogs | objectfs/core/cache/cachetask.py:98-112 | the loop over the fetched logs uploads what the log phase of the specification gives and collects the same claimed blocks |
| CacheTasks.DeleteAndDequeue | objectfs/core/cache/cachetask.py:129-131 | every fetched log's object is deleted and its first queue entry removed, in turn |
| CacheTasks.MergeLogObjects | objectfs/core/cache/cachetask.py:83-131 | `merge_log_objects` as written: outcome, bucket and queues are those of the merge specification |
| CacheTasks.ExecFailed | objectfs/core/cache/cachetask.py:103-121 | once an upload has failed the remaining steps do nothing |
| CacheTasks.LogPhaseFailed | objectfs/core/cache/cachetask.py:98-112 | once an upload has failed the remaining logs do nothing |
| CacheTasks.ExecAppend | objectfs/core/cache/cachetask.py:98-121 | executing two step lists one after the other is executing their concatenation |
| CacheTasks.LogPhaseIsPlan | objectfs/core/cache/cachetask.py:98-112 | the interleaved loop over logs is the execution of a plan computed up front from the decoded names, which is how the parallel variant works |
| CacheTasks.DecodesReversed | objectfs/core/cache/cachetask.py:98-100 | reversing the logs reverses their decodings |
| CacheTasks.NewStepsSpec | objectfs/core/cache/cachetask.py:101-105 | from one log the plan takes each block of its name not yet claimed, exactly once, from that log and at the block's position in the name |
| CacheTasks.LogPlanBlocks | objectfs/core/cache/cachetask.py:98-112 | the log plan takes every block any log names and not already claimed, each once |
| CacheTasks.LogPlanFirstWins | objectfs/core/cache/cachetask.py:98-112 | every block of the log plan is taken from the first log, in queue order, that names it |
| CacheTasks.FirstLastReverse | objectfs/core/cache/cachetask.py:98-112 | the first log naming a block in the reversed order is the last one in queue order |
| CacheTasks.NewestPlan | objectfs/core/cache/cachetask.py:98-112 | planning over the logs newest first takes every logged block, each once, from the newest log naming it |
| CacheTasks.PlanWithBase | objectfs/core/cache/cachetask.py:114-117 | appending the base steps for blocks not in the log plan gives a plan with distinct blocks covering both |
| CacheTasks.CorrectedPlanCovers | objectfs/core/cache/cachetask.py:98-121 | the corrected plan (newest log first, base blocks by difference) uploads each block once: every logged block and every block of the base object |
| CacheTasks.AsWrittenPlanCovers | objectfs/core/cache/cachetask.py:98-121 | as written, when every logged block lies inside the base object, each block of the base object is uploaded exactly once |
| CacheTasks.SymmetricDifferenceRereads | objectfs/core/cache/cachetask.py:115-117 | as written the symmetric difference puts a logged block past the base object's end in the base phase too, so it is planned twice |
| CacheTasks.OldestLogWins | objectfs/core/cache/cachetask.py:98-112 | as written, a block in two queued logs is taken from the older one; newest first it comes from the newer |
| CacheTasks.ArgsOf | objectfs/core/cache/cachetask.py:175-182 | the worker arguments, one per step, in order |
| CacheTasks.ArgsOfAppend | objectfs/core/cache/cachetask.py:175-182 | the arguments of two plans concatenated are the concatenation of their arguments |
| CacheTasks.ClaimedAppend | objectfs/core/cache/cachetask.py:112 | the blocks claimed after one more log are the old ones plus that log's |
| CacheTasks.StepsAssoc | objectfs/core/cache/cachetask.py:175-182 | concatenating step lists is associative |
| CacheTasks.LogPlanAppend | objectfs/core/cache/cachetask.py:166-177 | planning one more log appends that log's new steps to the plan |
| CacheTasks.PlanParallelMerge | objectfs/core/cache/cachetask.py:149-182 | `args_list` is built exactly when every log name decodes, and is the arguments of the log plan followed by the base steps |
| CacheTasks.LogsJobs | objectfs/core/cache/cachetask.py:166-177 | the loop over logs builds arguments exactly when every name decodes; they are the log plan's, and the claimed set is the union of the names' blocks |
| CacheTasks.JobsStep | objectfs/core/cache/cachetask.py:166-177 | one more decoded log extends the decoding, the arguments and the claimed set as the plan says |
| CacheTasks.DecodesToUnique | objectfs/core/cache/cachetask.py:167-168 | the decoding of a list of log names is unique |
| CacheTasks.LogJobs | objectfs/core/cache/cachetask.py:172-175 | the inner loop builds one worker argument per block still to take from the log |
| CacheTasks.BaseJobs | objectfs/core/cache/cachetask.py:181-182 | the loop builds one worker argument per base block |
| CacheTasks.ParallelListAscending | objectfs/core/cache/cachetask.py:187-194 | when each worker returns part `block + 1` for distinct blocks, the list sorted by `PartNumber` is ascending and a permutation of the results |
| CacheTaskLemmas.ExecStepOpen | objectfs/core/cache/cachetask.py:105-110 | one step leaves the objects as they are and, when it does not fail, extends the list by an entry for part `block + 1` holding the bytes read, keeping the upload open |
| CacheTaskLemmas.ExecOpen | objectfs/core/cache/cachetask.py:98-121 | executing steps with distinct new blocks keeps the upload open and the objects as they are; without failure the list gains one entry per step, in order |
| CacheTaskLemmas.ListedReordered | objectfs/core/cache/cachetask.py:123 | a reordered completion list still names only uploaded parts |
| CacheTaskLemmas.DeleteLogsSpec | objectfs/core/cache/cachetask.py:129-131 | deleting and dequeuing removes exactly the logs' objects and each log's first queue entry |
| CacheTaskLemmas.FinishSpec | objectfs/core/cache/cachetask.py:123-131 | the merge finishes exactly when S3 accepts the sorted list or the rules delete logs regardless; a refusal under the corrected rules leaves the objects and queues as the uploads left them, with the upload still open; a finish dequeues and deletes the fetched logs and, when S3 accepted, replaces the base object by the listed parts and closes the upload |
| CacheTaskLemmas.ExecSucceeds | objectfs/core/cache/cachetask.py:98-121 | uploading distinct, not yet listed blocks fails in no step when every read succeeds and every block gives a legal part number |
| CacheTaskLemmas.ExecParts | objectfs/core/cache/cachetask.py:98-121 | after a failure-free run each step's block `b` is part `b + 1` of the upload holding exactly the bytes the step read, and every part no step names is kept |
| CacheTaskLemmas.ExecCompletes | objectfs/core/cache/cachetask.py:98-127 | after uploading a plan of distinct blocks, the list sorted by part number is ascending, names uploaded parts, has one entry per step, and S3 accepts it exactly when every part but the last holds at least 5 MiB |
| CacheTaskLemmas.MergeConsumesFetched | objectfs/core/cache/cachetask.py:83-131 | a failed merge leaves every queue and every object as it was; a finished one has consumed exactly the (at most six) oldest queued logs and their objects, touching no other queue |
| CacheTaskLemmas.CorrectedMergeCommits | objectfs/core/cache/cachetask.py:83-131 | the corrected merge, when it finishes, has completed and closed the upload it opened and the base object exists |
| CacheTaskLemmas.CorrectedPlanReads | objectfs/core/cache/cachetask.py:98-121 | the corrected plan of a mergeable inode uploads each block of the base object exactly once, and each step reads its block from the newest log listing it, else from the base object |
| CacheTaskLemmas.MergedBlockSource | objectfs/core/cache/cachetask.py:98-121 | the merged block `k` is block `k`'s slot in the last fetched log that lists `k`, or the base object's block `k` when no log lists it |
| CacheTaskLemmas.CorrectedMergeReachesFinish | objectfs/core/cache/cachetask.py:83-127 | the corrected merge of a mergeable inode uploads every block without failure and reaches the completion with an ascending list of uploaded parts whose data are the merged blocks `0 .. n-1`, each a full block, with no object changed yet |
| CacheTaskLemmas.CorrectedMergeContents | objectfs/core/cache/cachetask.py:83-131 | for a mergeable inode (every fetched log decodes and its object holds a full block for each block its name lists, every logged block lies below the base object's full-block count, and the base object exists with 1 to 10000 full blocks) and blocks of at least 5 MiB, the corrected merge finishes, closes its upload, dequeues and deletes exactly the fetched logs and sets the base object to the concatenated merged blocks; no other object changes |
| CacheTaskLemmas.CorrectedMergeBlocks | objectfs/core/cache/cachetask.py:83-131 | for a mergeable inode (as in the row above) and blocks of at least 5 MiB, after the corrected merge the base object's block `k` is, for every `k` below the block count, the newest fetched log's copy of `k` when a log lists it, else the old base block `k` |
| CacheTaskLemmas.CorrectedMergeRefusesSmall | objectfs/core/cache/cachetask.py:123-131 | with blocks under 5 MiB and at least two of them, S3 refuses the corrected completion and the merge fails leaving every object and every queue as it was, so the logs wait for the next try |
| CacheTaskLemmas.ExampleSetup | objectfs/core/cache/cachetask.py:83-99 | in the example (base object `7` of two blocks of B bytes, one queued log holding a newer block 1), the log names block 1, differs from the base object and is fetched |
| CacheTaskLemmas.ExampleLogPhase | objectfs/core/cache/cachetask.py:98-112 | for any block size and either range, the example's log phase uploads the log's block 1 as part 2 and claims block 1 |
| CacheTaskLemmas.ExampleBaseBlocks | objectfs/core/cache/cachetask.py:115-116 | the example's base phase re-reads block 0 alone |
| CacheTaskLemmas.ExampleBaseStep | objectfs/core/cache/cachetask.py:116-121 | the base block read is B+1 bytes with the inclusive range, B with the corrected one, and is uploaded as part 1 |
| CacheTaskLemmas.ExampleBasePhase | objectfs/core/cache/cachetask.py:114-123 | the example's base phase uploads block 0 as part 1 and goes on to the completion with both parts |
| CacheTaskLemmas.ExampleReachesFinish | objectfs/core/cache/cachetask.py:83-121 | for any block size, both merges of the example reach the completion with both parts uploaded |
| CacheTaskLemmas.ExampleDeleteLog | objectfs/core/cache/cachetask.py:129-131 | the example's log is deleted and dequeued |
| CacheTaskLemmas.ExampleSorts | objectfs/core/cache/cachetask.py:123 | Python 2's `sort` orders the example's entries by ETag, keeping part 2 first; by part number they swap |
| CacheTaskLemmas.ExampleFinishAsWritten | objectfs/core/cache/cachetask.py:123-131 | as written the merge finishes although the completion is refused, and the log is deleted all the same |
| CacheTaskLemmas.ExampleCommittedObjects | objectfs/core/cache/cachetask.py:129-131 | committing the merged blocks and deleting the log leaves only the base object `[1]*B + [9]*B` |
| CacheTaskLemmas.MergeLosesLog | objectfs/core/cache/cachetask.py:83-131 | with the model's upload-counter ETags (the log's part 2 tagged `"0"`, the base's part 1 `"1"`), for every block size, as written the example merge reports success while the base object keeps its old bytes, the upload stays open and the log, the only copy of the newer block, is deleted and dequeued |
| CacheTaskLemmas.SmallPartsLoseLog | objectfs/core/cache/cachetask.py:123-131 | for any ETags of the two parts and blocks under 5 MiB less one byte, whichever order the ETag sort gives, S3 refuses the example's completion, and the as-written merge still reports success, keeps the old base object and the open upload, and deletes and dequeues the log |
| CacheTaskLemmas.ExampleMergeable | objectfs/core/cache/cachetask.py:83-121 | the example inode is mergeable with its log decoding to block 1, and its base object has two blocks |
| CacheTaskLemmas.ExampleMerged | objectfs/core/cache/cachetask.py:98-121 | the example's merged blocks are the base object's block 0 and the log's block 1 |
| CacheTaskLemmas.CorrectedMergeKeepsLog | objectfs/core/cache/cachetask.py:83-131 | with blocks of at least 5 MiB the corrected merge of the example commits the newer block into the base object `[1]*B + [9]*B`, closes the upload and empties the queue |
| CacheTaskLemmas.CorrectedMergeWaits | objectfs/core/cache/cachetask.py:123-131 | with blocks under 5 MiB the corrected merge of the example fails, keeping the base object and the queued log |
| NamespaceInvariants.NamesClean | objectfs/core/metadata/metastore.py:225-233 | cleaning an index key takes exactly that key from the names of an inode |
| NamespaceInvariants.NamesBuild | objectfs/core/metadata/metastore.py:215-223 | building an index key moves that key to the names of the inode it now points at |
| NamespaceInvariants.ReverseKeyInjective | objectfs/core/metadata/metastore.py:238-239 | two directory entries `id#name` are equal only when id and name are |
| NamespaceInvariants.RemoveFirstKeeps | objectfs/core/metadata/metastore.py:264-272 | `lrem` of one entry keeps every other entry |
| NamespaceInvariants.RemoveFromListKeeps | objectfs/core/metadata/metastore.py:264-272 | removing one directory entry keeps every other directory's and every other name's entries |
| NamespaceInvariants.UpdateValid | objectfs/core/metadata/metastore.py:179-187 | storing a live record again with no fewer links and a non-negative size keeps the namespace invariant |
| NamespaceInvariants.SetattrValid | objectfs/core/objectfs_operations.py:116-139 | `setattr` keeps the namespace invariant |
| NamespaceInvariants.LookupValid | objectfs/core/objectfs_operations.py:141-155 | `lookup` keeps the namespace invariant |
| NamespaceInvariants.OpenValid | objectfs/core/objectfs_operations.py:161-168 | `open` keeps the namespace invariant |
| NamespaceInvariants.AddToListGrows | objectfs/core/metadata/metastore.py:253-262 | appending a directory entry changes only that list, by one entry at the end |
| NamespaceInvariants.InsertSpec | objectfs/core/objectfs_operations.py:176-207 | the inode `_create` stores is a fresh record with the caller's attributes, indexed under the parent and listed at the end of the parent's list, with the free id and counter advanced |
| NamespaceInvariants.AddRecordLinks | objectfs/core/objectfs_operations.py:176-207 | adding a fresh record under one new name keeps every inode's names within its links |
| NamespaceInvariants.AddRecordListed | objectfs/core/objectfs_operations.py:176-207 | adding a fresh record listed under its parent keeps every indexed name listed |
| NamespaceInvariants.AddRecordValid | objectfs/core/objectfs_operations.py:176-207 | adding a fresh record under a live parent keeps the namespace invariant |
| NamespaceInvariants.CreateEntryValid | objectfs/core/objectfs_operations.py:176-207 | `_create`, and so `create`, `mkdir`, `mknod` and `symlink`, keeps the namespace invariant |
| NamespaceInvariants.SetupRootValid | objectfs/core/objectfs_operations.py:72-78 | setting up the root on an empty store with the free id at 1 establishes the namespace invariant |
| NamespaceInvariants.DeleteUnnamedValid | objectfs/core/metadata/metastore.py:202-213 | deleting an inode no name points at keeps the namespace invariant |
| NamespaceInvariants.ReleaseValid | objectfs/core/objectfs_operations.py:271-275 | returning a deleted inode's size and counter to the superblock keeps the namespace invariant |
| NamespaceInvariants.UnlinkNameListed | objectfs/core/objectfs_operations.py:254-256 | removing a name from its directory's list and cleaning its index key keeps every remaining name listed |
| NamespaceInvariants.UnlinkedLinks | objectfs/core/objectfs_operations.py:254-257 | dropping one name and one link keeps every inode's names within its links |
| NamespaceInvariants.UnlinkedValid | objectfs/core/objectfs_operations.py:242-275 | unlinking an indexed name keeps the namespace invariant, and an inode whose last link goes has no name left |
| NamespaceInvariants.RemoveValid | objectfs/core/objectfs_operations.py:242-275 | `_remove` keeps the namespace invariant (every indexed name listed; the converse is NamespaceConsistency.RemoveConsistent) |
| NamespaceInvariants.RmdirValid | objectfs/core/objectfs_operations.py:231-240 | `rmdir` keeps the namespace invariant (every indexed name listed; the converse is NamespaceConsistency.RmdirConsistent) |
| NamespaceInvariants.UnlinkValid | objectfs/core/objectfs_operations.py:317-323 | `unlink` keeps the namespace invariant (every indexed name listed; the converse is NamespaceConsistency.UnlinkConsistent) |
| NamespaceInvariants.SameRecordsValid | objectfs/core/objectfs_operations.py:333-392 | a store with the same records, sizes and superblock whose names are counted and listed keeps the namespace invariant |
| NamespaceInvariants.LinkedShape | objectfs/core/objectfs_operations.py:303-315 | `link` adds one link to the inode, indexes the new name and appends it to the new parent's list |
| NamespaceInvariants.LinkedLinks | objectfs/core/objectfs_operations.py:303-315 | a new name with a new link keeps every inode's names within its links |
| NamespaceInvariants.LinkedListed | objectfs/core/objectfs_operations.py:303-315 | the new name is listed in its parent |
| NamespaceInvariants.LinkedValid | objectfs/core/objectfs_operations.py:303-315 | linking a live inode into a live directory keeps the namespace invariant |
| NamespaceInvariants.LinkValid | objectfs/core/objectfs_operations.py:303-315 | `link` of a live inode keeps the namespace invariant |
| NamespaceInvariants.LinkMeta | objectfs/core/objectfs_operations.py:303-315 | when the new parent is live, `link` changes the store exactly as the link step says |
| NamespaceInvariants.MovedShape | objectfs/core/objectfs_operations.py:348-359 | moving an entry keeps the records' ids and sizes and changes only the moved inode |
| NamespaceInvariants.MovedLinks | objectfs/core/objectfs_operations.py:348-359 | moving a name onto a free name keeps every inode's names within its links |
| NamespaceInvariants.MovedListed | objectfs/core/objectfs_operations.py:348-359 | after a move every indexed name is listed in its parent |
| NamespaceInvariants.MovedValid | objectfs/core/objectfs_operations.py:348-359 | moving an indexed name onto a free name in a live directory keeps the namespace invariant |
| NamespaceInvariants.MoveEntryMeta | objectfs/core/objectfs_operations.py:348-359 | the store after the move branch of `rename` is the move step |
| NamespaceInvariants.MoveEntryValid | objectfs/core/objectfs_operations.py:348-359 | the move branch of `rename` keeps the namespace invariant |
| NamespaceInvariants.ReplacedShape | objectfs/core/objectfs_operations.py:361-392 | replacing an entry drops one link from the replaced inode and changes the index and lists only at the two names |
| NamespaceInvariants.ReplacedNames | objectfs/core/objectfs_operations.py:361-392 | the replacement does not give any inode more names than it had |
| NamespaceInvariants.ReplacedLinks | objectfs/core/objectfs_operations.py:361-392 | the replacement keeps every inode's names within its links |
| NamespaceInvariants.ReplacedListed | objectfs/core/objectfs_operations.py:361-392 | after the replacement every indexed name is listed in its parent |
| NamespaceInvariants.ReplacedValid | objectfs/core/objectfs_operations.py:361-392 | replacing one indexed name by another of a different inode keeps the namespace invariant |
| NamespaceInvariants.ReplaceMeta | objectfs/core/objectfs_operations.py:361-392 | the store after `_replace` of an empty target is the replacement step followed, under `replaceUsesNewName`, by the rename of the moved inode; as written the moved inode keeps its old name |
| NamespaceInvariants.ReplaceValid | objectfs/core/objectfs_operations.py:361-392 | `_replace` keeps the namespace invariant (every indexed name listed; the converse is NamespaceConsistency.ReplaceConsistent) |
| NamespaceInvariants.RenameValid | objectfs/core/objectfs_operations.py:333-359 | `rename` into a live directory, where old and new names are not the same inode, keeps the namespace invariant (every indexed name listed; the converse is NamespaceConsistency.RenameConsistent) |
| NamespaceInvariants.ForgetOneValid | objectfs/core/objectfs_operations.py:425-445 | forgetting one inode keeps the namespace invariant (every indexed name listed; the converse is NamespaceConsistency.ForgetOneConsistent) |
| NamespaceInvariants.ForgetValid | objectfs/core/objectfs_operations.py:425-445 | `forget` over any list keeps the namespace invariant (every indexed name listed; the converse is NamespaceConsistency.ForgetConsistent) |
| NamespaceConsistency.SameNamesConsistent | objectfs/core/objectfs_operations.py:116-168 | a step that changes neither the index nor the lists keeps every listed name indexed |
| NamespaceConsistency.IndexGrowsConsistent | objectfs/core/objectfs_operations.py:72-78 | a step that only adds index keys keeps every listed name indexed |
| NamespaceConsistency.AddNameConsistent | objectfs/core/objectfs_operations.py:188-191 | indexing a free name and appending it to its directory's list keeps every listed name indexed |
| NamespaceConsistency.AddDotConsistent | objectfs/core/objectfs_operations.py:201-203 | listing `.` or `..` keeps every listed name indexed |
| NamespaceConsistency.RemoveNameConsistent | objectfs/core/objectfs_operations.py:254-256 | removing an indexed name from its directory's list and cleaning its key keeps every listed name indexed |
| NamespaceConsistency.DropListConsistent | objectfs/core/metadata/metastore.py:202-213 | deleting an inode's own list keeps every listed name indexed |
| NamespaceConsistency.CorrectedDeleteKeepsIndex | objectfs/core/metadata/metastore.py:202-213 | with the index check, deleting an inode no name points at leaves the index alone and drops only its list |
| NamespaceConsistency.DeleteUnnamedConsistent | objectfs/core/metadata/metastore.py:202-213 | with the index check, deleting an unnamed inode and returning its size and counter keeps every listed name indexed |
| NamespaceConsistency.SetupRootConsistent | objectfs/core/objectfs_operations.py:72-78 | setting up the root on an empty store establishes both directions |
| NamespaceConsistency.SetattrConsistent | objectfs/core/objectfs_operations.py:116-139 | `setattr` keeps both directions |
| NamespaceConsistency.LookupKeepsNames | objectfs/core/objectfs_operations.py:141-155 | `lookup` changes neither the index nor the lists |
| NamespaceConsistency.LookupConsistent | objectfs/core/objectfs_operations.py:141-155 | `lookup` keeps both directions |
| NamespaceConsistency.OpenConsistent | objectfs/core/objectfs_operations.py:161-168 | `open` keeps both directions |
| NamespaceConsistency.InsertConsistent | objectfs/core/objectfs_operations.py:188-204 | the writes of `_create` under a free name keep every listed name indexed |
| NamespaceConsistency.CreateEntryConsistent | objectfs/core/objectfs_operations.py:176-207 | `_create` keeps both directions |
| NamespaceConsistency.RemoveConsistent | objectfs/core/objectfs_operations.py:242-275 | with the corrected delete, `_remove` keeps both directions |
| NamespaceConsistency.RmdirConsistent | objectfs/core/objectfs_operations.py:231-240 | with the corrected delete, `rmdir` keeps both directions |
| NamespaceConsistency.UnlinkConsistent | objectfs/core/objectfs_operations.py:317-323 | with the corrected delete, `unlink` keeps both directions |
| NamespaceConsistency.LinkedConsistent | objectfs/core/objectfs_operations.py:303-315 | the link step under a free name keeps every listed name indexed |
| NamespaceConsistency.LinkConsistent | objectfs/core/objectfs_operations.py:303-315 | `link` of a live inode to a free name keeps both directions |
| NamespaceConsistency.MovedConsistent | objectfs/core/objectfs_operations.py:348-359 | the move step onto a free name keeps every listed name indexed |
| NamespaceConsistency.MoveEntryConsistent | objectfs/core/objectfs_operations.py:348-359 | the move branch of `rename` keeps both directions |
| NamespaceConsistency.ReplacedConsistent | objectfs/core/objectfs_operations.py:361-392 | the replacement step that files the moved inode under the new name keeps every listed name indexed |
| NamespaceConsistency.ReplaceConsistent | objectfs/core/objectfs_operations.py:361-392 | with `replaceUsesNewName`, `_replace` keeps both directions |
| NamespaceConsistency.RenameConsistent | objectfs/core/objectfs_operations.py:333-359 | with `replaceUsesNewName`, `rename` into a live directory keeps both directions |
| NamespaceConsistency.ForgetOneConsistent | objectfs/core/objectfs_operations.py:425-445 | with the corrected delete, forgetting one inode keeps both directions |
| NamespaceConsistency.ForgetConsistent | objectfs/core/objectfs_operations.py:425-445 | with the corrected delete, `forget` over any list keeps both directions |
| NamespaceConsistency.LinkAdds | objectfs/core/objectfs_operations.py:303-315 | `link` into a live directory succeeds and is the link step |
| NamespaceConsistency.UnlinkKept | objectfs/core/objectfs_operations.py:317-323 | `unlink` of a non-directory that keeps its record succeeds and drops the name and one link |
| NamespaceConsistency.RenameMoves | objectfs/core/objectfs_operations.py:333-359 | `rename` of an indexed name onto a free name in an existing directory succeeds and is the move step |
| NamespaceConsistency.MovedKeepsOthers | objectfs/core/objectfs_operations.py:348-359 | a move lists the moved inode under its new name and leaves other inodes' records and lists alone |
| NamespaceConsistency.LinkStep | objectfs/core/objectfs_operations.py:303-315 | in the sequence, `link` of `x` as `q/n` succeeds with two links and one more lookup |
| NamespaceConsistency.UnlinkStep | objectfs/core/objectfs_operations.py:317-323 | in the sequence, `unlink` of `p/a` succeeds, frees `p/a` and leaves `x` one link under its stored key `(p, a)` |
| NamespaceConsistency.MoveStep | objectfs/core/objectfs_operations.py:333-359 | in the sequence, `rename` of `q/b` onto `p/a` succeeds and `p/a` then names and lists `y` |
| NamespaceConsistency.LastUnlinkStep | objectfs/core/objectfs_operations.py:317-323 | in the sequence, `unlink` of `q/n` succeeds and leaves `x` without links, looked up, with its stored key naming `y` |
| NamespaceConsistency.RelinkedSpec | objectfs/core/objectfs_operations.py:303-359 | `link`, `unlink`, `rename` onto the freed name and `unlink` all succeed and leave that stale state, whatever the switches |
| NamespaceConsistency.RelinkedConsistent | objectfs/core/objectfs_operations.py:303-359 | with the corrected delete, the four steps keep both directions |
| NamespaceConsistency.RelinkedMoveConsistent | objectfs/core/objectfs_operations.py:333-359 | `rename` of an indexed name onto a free name in a live directory keeps both directions |
| NamespaceConsistency.ForgetDeletes | objectfs/core/objectfs_operations.py:425-445 | `forget` of an inode without links whose lookups are all forgotten deletes it and returns its size and counter |
| NamespaceConsistency.StaleForget | objectfs/core/metadata/metastore.py:202-213 | as written, `forget` of the stale inode cleans the key of the name that now belongs to `y`: `y` stays listed but is no longer indexed, and `lookup` and `unlink` of it fail with ENOENT |
| NamespaceConsistency.ForgetOrphansName | objectfs/core/metadata/metastore.py:202-213 | as written, the whole sequence followed by `forget` leaves `p/a` listed and unindexed |
| NamespaceConsistency.StaleForgetCorrected | objectfs/core/metadata/metastore.py:202-213 | with the corrected delete, `forget` of the stale inode keeps `p/a` indexed to `y`, `lookup` finds it, and both directions hold |
| NamespaceConsistency.CorrectedForgetKeepsName | objectfs/core/metadata/metastore.py:202-213 | with the corrected delete, the whole sequence followed by `forget` keeps `p/a` naming `y` and both directions |
| NamespaceLemmas.GetattrSpec | objectfs/core/objectfs_operations.py:89-114 | `getattr` succeeds exactly for a stored inode when the block size is set, copies its id, mode, size and links, and counts the blocks as the ceiling of size over block size |
| NamespaceLemmas.CreateSpec | objectfs/core/objectfs_operations.py:176-207 | an existing name fails with EEXIST, any failure changes nothing, and a success allocates the next free id, stores a fresh record with one link, indexes and lists the name under the parent, gives a directory its `.` and `..` entries and counts one more inode |
| NamespaceLemmas.LookupAfterCreate | objectfs/core/objectfs_operations.py:141-155 | after a successful create, looking the name up under the same parent finds the created inode |
| NamespaceLemmas.LookupIndexed | objectfs/core/objectfs_operations.py:141-155 | under the invariant and a usable block size, looking up any indexed name other than `.` and `..` succeeds and returns the inode the index maps the name to |
| NamespaceLemmas.MkdirNameTooLong | objectfs/core/objectfs_operations.py:227-228 | `mkdir` of a name longer than the limit fails with ENAMETOOLONG and changes nothing |
| NamespaceLemmas.UnlinkedShape | objectfs/core/objectfs_operations.py:254-257 | unlinking a name drops its index key and one link of its inode and leaves the superblock alone |
| NamespaceLemmas.RemoveShape | objectfs/core/objectfs_operations.py:242-275 | `_remove` of a directory with at most its two entries deletes the inode, its data object and its cached block exactly when it had one link and no lookups, and otherwise only unlinks |
| NamespaceLemmas.DeletedShape | objectfs/core/metadata/metastore.py:202-213 | deleting an inode removes its record and leaves no new index key and the superblock unchanged |
| NamespaceLemmas.ReleasedShape | objectfs/core/objectfs_operations.py:271-275 | giving back a deleted inode lowers the used size by its size and the inode counter by one and changes nothing else |
| NamespaceLemmas.RemoveSpec | objectfs/core/objectfs_operations.py:242-275 | a directory with more than two entries fails with ENOTEMPTY and nothing changes; otherwise the name goes from the index, and the inode stays exactly unless it had one link and no lookups, in which case the size and counter go back to the superblock |
| NamespaceLemmas.RemovalGuards | objectfs/core/objectfs_operations.py:231-240 | `rmdir` and `unlink` fail with ENOENT exactly for a missing name, `rmdir` with ENOTDIR exactly for a non-directory of a legal name, and `unlink` with EISDIR exactly for a directory |
| NamespaceLemmas.ForgetOneSpec | objectfs/core/objectfs_operations.py:425-445 | forgetting an unknown inode crashes and changes nothing; an inode with links or other lookups stays; one with no links whose count is used up is deleted with its object, its cached blocks and its superblock share |
| NamespaceLemmas.ForgetKeeps | objectfs/core/objectfs_operations.py:427-430 | an item of `forget` whose inode still has links, or whose count is not used up, keeps the inode and only lowers its lookup count when the count is lowered at all |
| NamespaceLemmas.MoveEntrySpec | objectfs/core/objectfs_operations.py:348-359 | the move branch of `rename` re-keys the name from the old to the new parent, moves the list entry and renames the inode |
| NamespaceLemmas.ReplaceSpec | objectfs/core/objectfs_operations.py:361-392 | a non-empty target fails with ENOTEMPTY and nothing changes; otherwise the target loses a link and its names, and the moved inode is indexed under the new parent by the kept name |
| NamespaceLemmas.ReplaceKeepsOldName | objectfs/core/objectfs_operations.py:379-392 | as written, a rename over an existing name leaves the new name unbound and files the moved inode under its old name in the new directory |
| NamespaceLemmas.CorrectedReplaceTakesNewName | objectfs/core/objectfs_operations.py:361-392 | with the fix, a rename over an existing name binds the new name to the moved inode |
| NamespaceLemmas.DotDotIsSelf | objectfs/core/objectfs_operations.py:146-147 | as written, looking up `..` in a new directory returns the directory itself, not its parent |
| NamespaceLemmas.CorrectedDotDotIsParent | objectfs/core/objectfs_operations.py:146-147 | with the fix, `..` in a new directory is its parent |
| NamespaceLemmas.RmdirLongNameIsNoOp | objectfs/core/objectfs_operations.py:235-237 | as written, `rmdir` of an existing over-long name returns the error instead of raising it, so the call reports success and changes nothing |
| NamespaceLemmas.CorrectedRmdirLongNameFails | objectfs/core/objectfs_operations.py:235-237 | with the fix, that call fails with ENAMETOOLONG |
| NamespaceLemmas.LinkUnlinkedParentCrashes | objectfs/core/objectfs_operations.py:305-308 | as written, linking into a parent with no links crashes on an undefined name before raising EINVAL |
| NamespaceLemmas.CorrectedLinkUnlinkedParentFails | objectfs/core/objectfs_operations.py:305-308 | with the fix, that link fails with EINVAL and changes nothing |
| NamespaceLemmas.RootNamedNone | objectfs/core/objectfs_operations.py:72-78 | as written, the root is indexed under itself by the name `"None"`, so creating `"None"` in the root fails and `rmdir` of it deletes the root |
| NamespaceLemmas.CorrectedRootUnnamed | objectfs/core/objectfs_operations.py:72-78 | a root stored without an index key satisfies the namespace invariant and no name in it removes anything before it is created |
| NamespaceLemmas.ForgetInStepsKeepsInode | objectfs/core/objectfs_operations.py:427-430 | as written, forgetting an unlinked inode's two lookups in two steps of one deletes nothing, since the lowered count is never stored |
| NamespaceLemmas.CorrectedForgetInSteps | objectfs/core/objectfs_operations.py:425-445 | with the count stored, forgetting an unlinked inode's lookups in any positive steps that add up to its count deletes it |
| NamespaceLemmas.ForgetKeepsTailBlock | objectfs/core/objectfs_operations.py:437-439 | as written, deleting a file whose size is not a multiple of the block size leaves its last cached block behind |
| NamespaceLemmas.CorrectedForgetDropsAllBlocks | objectfs/core/objectfs_operations.py:437-439 | with the fix, deleting a file drops every cached block that holds part of its size |
| NamespaceLemmas.StatfsSpec | objectfs/core/objectfs_operations.py:394-420 | `statfs` succeeds exactly when the block size is set, reports total and free blocks as the floors of total and free bytes over the block size, and free inodes as the maximum less the counter, never negative |
| NamespaceLemmas.ReaddirSpec | objectfs/core/objectfs_operations.py:216-222 | `readdir` from an offset returns one entry per remaining list item, each with its name, its inode's `getattr` and the next offset, and fails exactly when an item does not decode to a stored inode |
| Namespace.DirEntries | objectfs/core/objectfs_operations.py:220-222 | the listing succeeds exactly when every child's `getattr` does, with one entry per child in order carrying its name, attributes and the next offset |
| DataPath.CreateOperations | objectfs/core/objectfs_operations.py:802-817 | the factory accepts exactly the modes `Cache`, `NoCache` and `Multipart` and picks the matching class |
| DataPath.Range | objectfs/core/objectfs_operations.py:665-666 | `range(lo, hi)` is the consecutive ids from `lo` up to but not including `hi`, empty when `hi <= lo` |
| DataPath.PartList | objectfs/core/objectfs_operations.py:752-753 | the completion list holds one `{ETag, PartNumber}` entry per upload result, in the order of the results |
| DataPathLemmas.NoCacheWriteSpec | objectfs/core/objectfs_operations.py:519-535 | a NoCache `write` whose object cannot be fetched fails and changes nothing; otherwise it stores the spliced object: `buf` at the offset, the old bytes elsewhere, zeros in any gap |
| DataPathLemmas.NoCacheWriteMeta | objectfs/core/objectfs_operations.py:531-534 | a successful NoCache `write` charges the growth to the used size and sets the inode size to the object length; a failed one leaves the metadata |
| DataPathLemmas.NoCacheWriteValid | objectfs/core/objectfs_operations.py:519-535 | NoCache `write` keeps the namespace invariant |
| DataPathLemmas.NoCacheWriteThenRead | objectfs/core/objectfs_operations.py:511-535 | after a NoCache `write` that stored its data, reading the same range returns the written bytes |
| DataPathLemmas.NewFileWriteFails | objectfs/core/objectfs_operations.py:522-525 | as written, the first `write` to, or `read` of, a newly created file fails, since no object exists and the missing-object case is never reached |
| DataPathLemmas.CorrectedNewFileWrite | objectfs/core/objectfs_operations.py:523-535 | treating a missing object as empty, the first `write` to a new file succeeds, stores zeros up to the offset followed by the buffer, and sets the size to their total |
| DataPathLemmas.FirstWrite | objectfs/core/objectfs_operations.py:523-535 | with a missing object read as empty, a write into an empty file with room succeeds and stores zeros up to the offset followed by `buf` |
| DataPathLemmas.SpliceIntoEmpty | objectfs/core/objectfs_operations.py:526-527 | splicing into no data gives zeros up to the offset followed by the buffer |
| DataPathLemmas.CreateKeepsSizes | objectfs/core/objectfs_operations.py:176-207 | creating an entry leaves the used and total sizes alone |
| DataPathLemmas.InsertKeepsSuperblock | objectfs/core/objectfs_operations.py:188-191 | storing the new inode and its name does not touch the superblock |
| DataPathLemmas.ChargeValid | objectfs/core/objectfs_operations.py:532 | charging any amount to the used size keeps the namespace invariant |
| DataPathLemmas.CacheWriteSpec | objectfs/core/objectfs_operations.py:576-584 | a Cache `write` of an unknown inode crashes and changes nothing; otherwise only cache block 0 changes, reading it back returns `buf`, the size becomes the larger end, and the used size grows by the growth or the write fails with ENOSPC |
| DataPathLemmas.CacheWriteMeta | objectfs/core/objectfs_operations.py:579-583 | a Cache `write` stores the grown size first, then charges the growth when there is room |
| DataPathLemmas.CacheWriteValid | objectfs/core/objectfs_operations.py:576-584 | Cache `write` keeps the namespace invariant |
| DataPathLemmas.OpenSpec | objectfs/core/objectfs_operations.py:161-168 | `open` succeeds exactly for a stored inode, returns its id as the handle, raises only that record's open count, and changes nothing but the metadata |
| DataPathLemmas.CacheOpenSpec | objectfs/core/objectfs_operations.py:560-565 | Cache `open` succeeds exactly for a stored inode whose block is cached or whose object can be fetched, loads the object into block 0 when it was not cached, and counts one more open |
| DataPathLemmas.CacheOpenValid | objectfs/core/objectfs_operations.py:560-565 | Cache `open` keeps the namespace invariant |
| DataPathLemmas.CacheReadMatchesObject | objectfs/core/objectfs_operations.py:560-574 | right after a Cache `open` loads the object, a Cache `read` returns what a NoCache read of the object would |
| DataPathLemmas.CacheReleaseSpec | objectfs/core/objectfs_operations.py:586-595 | Cache `release` counts one open less; the last release stores block 0 back as the object, and fails as written when block 0 was never cached |
| DataPathLemmas.CacheReleaseValid | objectfs/core/objectfs_operations.py:586-595 | Cache `release` keeps the namespace invariant |
| DataPathLemmas.CacheWriteThenRelease | objectfs/core/objectfs_operations.py:576-595 | after a Cache `write` and the last `release`, a read of the object returns the written bytes |
| DataPathLemmas.ReleaseUnwrittenFails | objectfs/core/objectfs_operations.py:593-595 | as written, the last `release` of a created file that was never written fails fetching block 0 |
| DataPathLemmas.CorrectedReleaseUnwritten | objectfs/core/objectfs_operations.py:593-595 | storing an absent block as empty, that release succeeds and leaves an empty object |
| DataPathLemmas.MultipartWriteSpec | objectfs/core/objectfs_operations.py:693-712 | a Multipart `write` of an unknown inode crashes and changes nothing; otherwise it returns the length, writes `buf` into block `off // B` at `off % B`, changes no other block, and leaves metadata and bucket as they were |
| DataPathLemmas.MultipartWriteValid | objectfs/core/objectfs_operations.py:693-712 | Multipart `write` keeps the namespace invariant |
| DataPathLemmas.MultipartReadSpec | objectfs/core/objectfs_operations.py:647-691 | a read at or past the size returns nothing; a cached block is sliced in place; an uncached block is fetched by a ranged read (failing when the object is missing or too short), cached and sliced, and from block 0 the later blocks are queued for prefetch |
| DataPathLemmas.MultipartReadValid | objectfs/core/objectfs_operations.py:647-691 | Multipart `read` keeps the namespace invariant |
| DataPathLemmas.NewFileReadsEmpty | objectfs/core/objectfs_operations.py:652-653 | since Multipart `write` never grows the size, a file created and then written reads back empty at every offset |
| DataPathLemmas.ReadSizeAsEnd | objectfs/core/objectfs_operations.py:659 | as written, a cached-block read passes the size where the end is meant, so a short read at a larger in-block offset returns nothing even after a write there |
| DataPathLemmas.CorrectedWriteThenRead | objectfs/core/objectfs_operations.py:658-659 | with the end computed from the offset, reading what a Multipart `write` just wrote returns it from the cache |
| DataPathLemmas.MultipartReleaseSpec | objectfs/core/objectfs_operations.py:791-796 | Multipart `release` succeeds exactly for a stored inode, counts one open less, changes nothing else and keeps the namespace invariant |
| DataPathLemmas.UploadStep | objectfs/core/cache/cachetask.py:69-80 | one part upload takes the cached block out of the cache, keeps the upload open and answers exactly for a part number S3 accepts, recording the block's bytes under that part |
| DataPathLemmas.UploadAllShape | objectfs/core/objectfs_operations.py:743-749 | uploading a block list gives one result per block, leaves the objects and open uploads as they were and drops exactly those cached blocks |
| DataPathLemmas.UploadAllSucceeds | objectfs/core/objectfs_operations.py:748-753 | every part upload answers exactly when every block id maps to a part number S3 accepts |
| DataPathLemmas.UploadAllParts | objectfs/core/objectfs_operations.py:748-753 | for a sorted block list each answered part holds its block's bytes under its own part number |
| DataPathLemmas.FlushCompletes | objectfs/core/objectfs_operations.py:755-756 | S3 accepts the collected list exactly when every flushed block but the last holds at least 5 MiB; the completion then stores the log as the concatenated block data in block order, and otherwise changes no object |
| DataPathLemmas.FlushSpec | objectfs/core/objectfs_operations.py:748-766 | the flush leaves metadata alone, succeeds exactly when all part numbers are legal, drops the flushed cached blocks and only those, and stores the concatenated block data as the log exactly when it succeeds and S3 accepts the part sizes; otherwise no object changes |
| DataPathLemmas.SyncKeepsMeta | objectfs/core/objectfs_operations.py:718-766 | `_sync` never changes the inode metadata |
| DataPathLemmas.SyncNothingDirty | objectfs/core/objectfs_operations.py:740-747 | with no dirty blocks `_sync` still opens a multipart upload, then returns without completing it |
| DataPathLemmas.SyncMissingInode | objectfs/core/objectfs_operations.py:720 | `_sync` of an unknown inode with dirty blocks crashes before it writes anything |
| DataPathLemmas.SyncIsFlush | objectfs/core/objectfs_operations.py:729-749 | with dirty blocks, `_sync` sorts them, names the log from them and the time, opens an empty upload under that name and flushes |
| DataPathLemmas.SyncSpec | objectfs/core/objectfs_operations.py:718-766 | `_sync` succeeds exactly when every dirty block id is a legal part and drops exactly the dirty cached blocks; it stores the log object as their concatenated data when it succeeds and every block but the last holds at least 5 MiB, and otherwise changes no object |
| DataPathLemmas.SyncRefusedStillRecords | objectfs/core/objectfs_operations.py:748-766 | when S3 refuses the flushed parts as too small, `_sync` still succeeds, stores no object, and queues and indexes the log name as if it had been written |
| DataPathLemmas.RecordSpec | objectfs/core/objectfs_operations.py:757-766 | recording a flush queues the log behind the inode's earlier logs, moves the blocks from the dirty to the clean set and, as written, keeps the in-process dirty set |
| DataPathLemmas.RecordFragments | objectfs/core/objectfs_operations.py:758-763 | after recording, each flushed block's fragments are the new log fragment plus the older ones, minus its cache fragments no newer than the flush |
| DataPathLemmas.SyncBookkeeping | objectfs/core/objectfs_operations.py:757-766 | a successful `_sync` ends with exactly the bookkeeping of a recorded flush |
| DataPathLemmas.SyncKeepsDirty | objectfs/core/objectfs_operations.py:732-766 | as written, a successful `_sync` leaves the in-process dirty set as it was although its blocks are flushed and gone from the cache |
| DataPathLemmas.SyncUncached | objectfs/core/objectfs_operations.py:718-766 | a `_sync` of dirty blocks that are no longer cached still succeeds, queues the log and indexes it for those blocks; for one block it writes an empty log object, for more S3 refuses the empty parts and no object changes |
| DataPathLemmas.SyncUncachedLog | objectfs/core/objectfs_operations.py:743-756 | the objects after a `_sync` of uncached dirty blocks: an empty log object for one block, no change for more |
| DataPathLemmas.FlushedAbsent | objectfs/core/objectfs_operations.py:743-756 | blocks no longer cached flush as empty parts, which S3 accepts only when there is at most one |
| DataPathLemmas.SecondSyncFlushesNothing | objectfs/core/objectfs_operations.py:732-733 | as written, a second `_sync` re-flushes the same dirty blocks, already gone from the cache: it queues and indexes a second log, written as an empty object for one block and refused by S3 for more |
| DataPathLemmas.CorrectedSecondSync | objectfs/core/objectfs_operations.py:732-766 | clearing the in-process dirty set, a second `_sync` finds nothing to flush and changes no object and no cached block |
| Operations.DirEntriesFirstFailure | objectfs/core/objectfs_operations.py:220-222 | the listing fails with the failure of the first child whose `getattr` fails |
| Operations.ObjectFsOperations.constructor | objectfs/core/objectfs_operations.py:50-65 | the operations object holds the given store clients and starts with empty in-process dirty set and fragment map |
| Operations.ObjectFsOperations.Getattr | objectfs/core/objectfs_operations.py:89-114 | returns exactly `Namespace.Getattr` of the metadata store, whose meaning NamespaceLemmas.GetattrSpec states |
| Operations.ObjectFsOperations.Setattr | objectfs/core/objectfs_operations.py:116-139 | updates the flagged attributes and the change time in the metadata store, then returns the attributes, as `Namespace.Setattr` |
| Operations.ObjectFsOperations.AssignFlagged | objectfs/core/objectfs_operations.py:121-134 | the inode gets each flagged attribute from the request and keeps each unflagged one |
| Operations.ObjectFsOperations.Lookup | objectfs/core/objectfs_operations.py:141-155 | resolves `.`, `..` or an indexed name and counts the lookup, leaving the stores as `Namespace.Lookup` says |
| Operations.ObjectFsOperations.Open | objectfs/core/objectfs_operations.py:161-168 | counts one more open of the inode, as `Namespace.Open` |
| Operations.ObjectFsOperations.Readlink | objectfs/core/objectfs_operations.py:285-287 | returns the stored target of the inode |
| Operations.ObjectFsOperations.CreateEntry | objectfs/core/objectfs_operations.py:176-207 | performs the checks and writes of `_create` against the stores, ending in the state `Namespace.CreateEntry` gives, whose meaning NamespaceLemmas.CreateSpec states |
| Operations.ObjectFsOperations.InsertInode | objectfs/core/objectfs_operations.py:188-206 | stores the new inode, lists it under its parent, adds a directory's `.` and `..` and counts the open and the lookup, as `Namespace.Insert` |
| Operations.ObjectFsOperations.Create | objectfs/core/objectfs_operations.py:170-174 | `create` returns the new inode id with its attributes, as `Namespace.Create` |
| Operations.ObjectFsOperations.Symlink | objectfs/core/objectfs_operations.py:209-214 | `symlink` creates an inode of mode `S_IFLNK` with all permission bits and the target, as `Namespace.Symlink` |
| Operations.ObjectFsOperations.Mknod | objectfs/core/objectfs_operations.py:451-453 | `mknod` creates an inode of the given mode, as `Namespace.Mknod` |
| Operations.ObjectFsOperations.Mkdir | objectfs/core/objectfs_operations.py:224-229 | `mkdir` refuses an over-long name and otherwise creates a directory, as `Namespace.Mkdir` |
| Operations.ObjectFsOperations.SetupRootInode | objectfs/core/objectfs_operations.py:72-78 | lists `..` and `.` under the root and stores the root inode, as `Namespace.SetupRoot` |
| Operations.ObjectFsOperations.Readdir | objectfs/core/objectfs_operations.py:216-222 | returns the directory's entries from the offset on, as `Namespace.Readdir`, whose meaning NamespaceLemmas.ReaddirSpec states |
| Operations.ObjectFsOperations.ListEntries | objectfs/core/objectfs_operations.py:220-222 | the loop over the decoded entries yields exactly `Namespace.DirEntries` |
| Operations.ObjectFsOperations.GetEntry | objectfs/core/objectfs_operations.py:325-331 | `_get_entry` fails with ENOENT for an unindexed name and otherwise returns the child's attributes |
| Operations.ObjectFsOperations.Remove | objectfs/core/objectfs_operations.py:242-275 | `_remove` against the stores ends in the state `Namespace.Remove` gives, whose meaning NamespaceLemmas.RemoveSpec states |
| Operations.ObjectFsOperations.DeleteRecord | objectfs/core/metadata/metastore.py:202-213 | deletes the record with `delete_inode` as written or with the index check, as `Namespace.DeleteRecord` |
| Operations.ObjectFsOperations.Rmdir | objectfs/core/objectfs_operations.py:231-240 | `rmdir` checks the name, its length and its type and then removes, as `Namespace.Rmdir` |
| Operations.ObjectFsOperations.Unlink | objectfs/core/objectfs_operations.py:317-323 | `unlink` refuses a directory with EISDIR and otherwise removes, as `Namespace.Unlink` |
| Operations.ObjectFsOperations.Link | objectfs/core/objectfs_operations.py:303-315 | `link` refuses an unlinked parent and otherwise indexes and lists the new name and counts a link and a lookup, as `Namespace.Link` |
| Operations.ObjectFsOperations.CountLink | objectfs/core/objectfs_operations.py:312-314 | an existing inode gets one more link and one more lookup; a missing one changes nothing |
| Operations.ObjectFsOperations.Rename | objectfs/core/objectfs_operations.py:333-359 | `rename` replaces an existing target or moves the entry, as `Namespace.Rename` |
| Operations.ObjectFsOperations.MoveEntry | objectfs/core/objectfs_operations.py:348-359 | the move branch re-lists, renames and re-indexes the inode, as `Namespace.MoveEntry`, whose meaning NamespaceLemmas.MoveEntrySpec states |
| Operations.ObjectFsOperations.Replace | objectfs/core/objectfs_operations.py:361-392 | `_replace` refuses a non-empty target and otherwise drops its link and names and files the moved inode, as `Namespace.Replace`, whose meaning NamespaceLemmas.ReplaceSpec states |
| Operations.ObjectFsOperations.CheckEmpty | objectfs/core/objectfs_operations.py:364-366 | the target is empty exactly when its list has no entry; a first entry gives ENOTEMPTY, or a crash when it does not decode |
| Operations.ObjectFsOperations.MoveListing | objectfs/core/objectfs_operations.py:375-383 | the lists lose the two old entries and gain the moved one, and the two index keys go |
| Operations.ObjectFsOperations.RenameMoved | objectfs/core/objectfs_operations.py:354-355 | the moved inode takes the new name; a missing inode changes nothing |
| Operations.ObjectFsOperations.Forget | objectfs/core/objectfs_operations.py:425-445 | `forget` handles its items in order and stops at the first failure, as `Namespace.Forget` |
| Operations.ObjectFsOperations.ForgetOne | objectfs/core/objectfs_operations.py:429-445 | one item of `forget` deletes an unlinked inode whose count is used up, as `Namespace.ForgetOne`, whose meaning NamespaceLemmas.ForgetOneSpec states |
| Operations.ObjectFsOperations.DropCachedBlocks | objectfs/core/objectfs_operations.py:438-439 | drops the inode's cached blocks below `size // B`, as `Namespace.DropBlocks` |
| Operations.ObjectFsOperations.Statfs | objectfs/core/objectfs_operations.py:394-420 | returns the statistics of `Namespace.Statfs`, whose meaning NamespaceLemmas.StatfsSpec states |
| Operations.ObjectFsOperations.FetchObject | objectfs/core/data/objectstore.py:34-40 | returns the inode's whole object, or the failure of fetching it, as `DataPath.FetchObject` |
| Operations.ObjectFsOperations.NoCacheRead | objectfs/core/objectfs_operations.py:511-517 | returns the requested slice of the object, as `DataPath.NoCacheRead` |
| Operations.ObjectFsOperations.NoCacheWrite | objectfs/core/objectfs_operations.py:519-535 | splices the buffer into the object and charges the growth, as `DataPath.NoCacheWrite`, whose meaning DataPathLemmas.NoCacheWriteSpec states |
| Operations.ObjectFsOperations.CacheOpen | objectfs/core/objectfs_operations.py:560-565 | loads the object into the cache when absent, then opens, as `DataPath.CacheOpen` |
| Operations.ObjectFsOperations.CacheRead | objectfs/core/objectfs_operations.py:567-574 | returns the requested range of cache block 0, as `DataPath.CacheRead` |
| Operations.ObjectFsOperations.CacheWrite | objectfs/core/objectfs_operations.py:576-584 | writes into cache block 0, grows the size and charges the growth, as `DataPath.CacheWrite`, whose meaning DataPathLemmas.CacheWriteSpec states |
| Operations.ObjectFsOperations.CacheRelease | objectfs/core/objectfs_operations.py:586-595 | counts one open less and stores block 0 back on the last release, as `DataPath.CacheRelease` |
| Operations.ObjectFsOperations.MultipartRead | objectfs/core/objectfs_operations.py:647-691 | serves one block from the cache or a ranged read and lists the prefetch jobs, as `DataPath.MultipartRead`, whose meaning DataPathLemmas.MultipartReadSpec states |
| Operations.ObjectFsOperations.PrefetchList | objectfs/core/objectfs_operations.py:665-666 | the prefetch jobs are the block ids from `lo` up to `hi` |
| Operations.ObjectFsOperations.MultipartWrite | objectfs/core/objectfs_operations.py:693-712 | writes into the block the offset falls in and notes it as dirty with a cache fragment, as `DataPath.MultipartWrite` |
| Operations.ObjectFsOperations.MultipartRelease | objectfs/core/objectfs_operations.py:791-796 | counts one open less, as `DataPath.MultipartRelease` |
| Operations.ObjectFsOperations.Fsync | objectfs/core/objectfs_operations.py:714-716 | `fsync` is `_sync` |
| Operations.ObjectFsOperations.Sync | objectfs/core/objectfs_operations.py:718-766 | `_sync` against the stores ends in the state `DataPath.Sync` gives, whose meaning DataPathLemmas.SyncSpec states |
| Operations.ObjectFsOperations.Flush | objectfs/core/objectfs_operations.py:748-766 | uploads the parts, completes the log object and records it, as `DataPath.Flush` |
| Operations.ObjectFsOperations.RecordFlush | objectfs/core/objectfs_operations.py:757-766 | indexes the log fragments, drops the cache fragments, queues the log and moves the blocks from dirty to clean, as `DataPath.Record` |
| Operations.ObjectFsOperations.UploadBlocks | objectfs/core/objectfs_operations.py:743-749 | the loop over the blocks uploads each as the next part and collects the answers, as `DataPath.UploadAll` |
| Operations.ObjectFsOperations.PartEntries | objectfs/core/objectfs_operations.py:752-753 | the completion list exists exactly when every part answered, and then holds the answers in order |

## Left out

- Concurrency: the process pool of `_sync` and of the read prefetch, and the `rq` jobs, are modelled as sequential loops over the same job arguments.
- Clocks: `time()` and `_get_time()` are parameters of the operations that read them.
- `pickle`: an inode record is serialised as a sequence of integer tokens, and its round trip is proved. The byte layout of `pickle` is not modelled.
- Store construction: the store clients are passed to the operations constructor. The settings module and the connection, container and Redis-pool helpers are not part of this model.
- `FileCacheStore`, the worker daemon, SNS notification and `MetaStoreFactory` are not used by the modelled Redis and S3 configuration.
- `opendir` and `access` return their argument or `True` and touch no store.
- `destroy`, and the base-class `read`, `write` and `release`, only log.
- The `CacheQueue` built in `__init__` is only used by commented-out code.
- The NoCache `setattr` size branch refers to an undefined `inode`, so it raises `NameError` before it stores the resized data. It is not modelled; NoCache `setattr` is modelled as the base `setattr`.
- Line 789 of `objectfs_operations.py` is wrongly indented, so the module cannot be imported. It is not modelled; the model's `_sync` ends after the clean-set update.
- `statfs` fields are unbounded integers. The conversion to `llfuse`'s unsigned fields, which would reject a negative free count, is not modelled.
- `download_object_block` in `cache/cachetask.py` is only reached from commented-out code, and it calls `put_inode` with an `offset` argument that does not exist.
- `merge_log_objects_parallel` stops at a `pdb.set_trace()` breakpoint before it plans any job. The model plans the jobs as if the breakpoint were absent.
- `merge_log_object_parallel_worker` calls `int(None)` on its base-object branch and calls `multipart_copy_dnode`, which `ObjectStore` does not define. Only the job planning and the completion order of `merge_log_objects_parallel` are modelled.
- Inode's `inode_id_list`, `add_id_to_list` and `remove_id_from_list` import a name the metastore module does not define, and call the store with the wrong arity. They are not modelled.
- `_clean_store` deletes every key of the Redis database. It is a test helper that no operation calls.
- `content_length`: `dnode_size` calls a method the object classes do not define. The model's `DnodeSize` returns the stored object's length.
- S3 `move` refers to `self._inode`, which the class never sets. Only the Swift `move` is modelled.
- `_sync` copies the local dirty set with `list(...)` and then sorts the block ids. This is modelled as the sorted elements of the set.
- `setup_root_inode` is modelled as written. The corrected root, without an index key, is `Namespace.CorrectedSetupRoot`.
- NamespaceInvariants.RemoveValid: `Valid` states only that every indexed name is listed. The converse, that every listed name is indexed, holds only with the corrected `delete_inode` (NamespaceConsistency.RemoveConsistent); see the `metastore.py:202-213` finding.
- NamespaceInvariants.RmdirValid: states only indexed names listed. The converse needs the corrected delete (NamespaceConsistency.RmdirConsistent).
- NamespaceInvariants.UnlinkValid: states only indexed names listed. The converse needs the corrected delete (NamespaceConsistency.UnlinkConsistent).
- NamespaceInvariants.ForgetOneValid: states only indexed names listed. As written the converse fails (NamespaceConsistency.StaleForget); with the corrected delete it holds (NamespaceConsistency.ForgetOneConsistent).
- NamespaceInvariants.ForgetValid: states only indexed names listed. As written the converse fails (NamespaceConsistency.ForgetOrphansName); with the corrected delete it holds (NamespaceConsistency.ForgetConsistent).
- NamespaceInvariants.ReplaceValid: states only indexed names listed. The converse is proved only with `replaceUsesNewName` (NamespaceConsistency.ReplaceConsistent). As written the moved inode is filed in the new directory under its old name, and that key may already name another inode listed there; the converse is not proved for that case.
- NamespaceInvariants.RenameValid: states only indexed names listed. The converse is proved only with `replaceUsesNewName` (NamespaceConsistency.RenameConsistent).
- NamespaceConsistency.LinkConsistent: requires the new name to be free. `link` itself does not check it; the kernel sends `link` only for a name that does not exist.
- NamespaceConsistency.RemoveConsistent, NamespaceConsistency.RmdirConsistent, NamespaceConsistency.UnlinkConsistent, NamespaceConsistency.ForgetOneConsistent, NamespaceConsistency.ForgetConsistent: proved only with the corrected delete, because as written the converse fails (the `metastore.py:202-213` finding).
- NamespaceConsistency.ReplaceConsistent, NamespaceConsistency.RenameConsistent: proved only with `replaceUsesNewName`. As written a rename over an existing name files the moved inode under its old name (the `objectfs_operations.py:379-392` finding), and the converse is not proved for it.
- Common.CeilDiv: `st_blocks` is computed exactly over unbounded integers. The source divides as floats (`from __future__ import division`, `objectfs_operations.py:16`, used at line 106), so for sizes above 2^53 its result may differ from the exact ceiling.
- Namespace.CreateEntry: a fetched free id of None or below 0 ends the operation with a crash. The source would carry on with that id and fail later. Both cases are impossible while `NamespaceInvariants.BelowFree` holds.
- NamespaceInvariants.LinkValid: requires the linked inode to exist. As written, `link` of a missing inode stores a name for it before it crashes.
- NamespaceInvariants.RenameValid: requires the new parent to exist, and requires that an existing target is not the renamed inode itself. The kernel does not send a rename of a name onto itself.
- NamespaceInvariants.MoveEntryValid: requires the new parent to exist.
- NamespaceInvariants.ReplaceValid: requires that the replaced inode differs from the moved one.
- Strings.ParseNat: refuses a sign and surrounding whitespace, which Python's `int` accepts. Every string the model parses was written by `str` of a natural number (list entries and log names), so such text never reaches it.
- Common.LRange: its own contract states only the length bound. The clamped inclusive range that `fetch` returns is stated by MergeQueues.FetchRange.
- CacheTaskLemmas.MergeLosesLog: holds for every block size only because the model's ETags are an upload-order counter (`Objects.Bucket.nextTag`, handed out by `Objects.Bucket.UploadPart`), not the MD5 digests of the part bodies S3 returns. With real ETags and blocks of 5 MiB or more, the sort may put part 1 first, and S3 then accepts the completion. CacheTaskLemmas.SmallPartsLoseLog states the loss for any ETags when blocks are under 5 MiB.
- CacheTasks.NewSteps, CacheTasks.BaseBlocks: Python 2 iterates a `Set` in hash-table order. The model takes it as ascending (`Common.SortedElements`), which Python 2 gives for small block ids but not in general. The order decides the part upload order and so the model's ETags.
- CacheTaskLemmas.CorrectedMergeContents: this lemma and CacheTaskLemmas.CorrectedMergeBlocks are proved only for a mergeable inode. They say nothing about several cases:
  - a log or base object whose last block is short (a file size that is not a multiple of the block size);
  - a log listing a block at or past the base object's full-block count, that is an append such as block 3 of a 2-block base (the input of the `cachetask.py:115-117` finding);
  - an inode without a base object, such as the first merge of a file written only in Multipart mode, where even the corrected merge stops in `CacheTasks.BasePhase` with a backend error;
  - the partial last block of the old base object, which `range(size // B)` leaves out: the merged base object is `BaseCount * bs` bytes and that tail is dropped.

## Findings

| source | as written | input that shows it | evidently intended | confidence | as-written member | corrected member |
|---|---|---|---|---|---|---|
| objectfs/core/objectfs_operations.py:146-147 | `lookup('..')` returns the inode of the directory itself | `mkdir` a directory, then look up `..` in it | the parent directory | not executed | NamespaceLemmas.DotDotIsSelf | NamespaceLemmas.CorrectedDotDotIsParent |
| objectfs/core/objectfs_operations.py:235-237 | `rmdir` returns the ENAMETOOLONG error instead of raising it | `rmdir` of an existing name longer than 255 characters | fail with ENAMETOOLONG | not executed | NamespaceLemmas.RmdirLongNameIsNoOp | NamespaceLemmas.CorrectedRmdirLongNameFails |
| objectfs/core/objectfs_operations.py:305-308 | the error path of `link` logs an undefined `parent_inode_id` | `link` into a directory whose link count is 0 | fail with EINVAL | not executed | NamespaceLemmas.LinkUnlinkedParentCrashes | NamespaceLemmas.CorrectedLinkUnlinkedParentFails |
| objectfs/core/objectfs_operations.py:72-78 | the root inode has no name, and `put_inode` indexes it under `(1, "None")` | `rmdir("None")` in the root of a new filesystem | the root is not a child of itself | not executed | NamespaceLemmas.RootNamedNone | NamespaceLemmas.CorrectedRootUnnamed |
| objectfs/core/objectfs_operations.py:379-392 | rename over an existing name files the moved inode under its old name | rename `a` onto an existing empty `b` | the inode is reachable as `b` | not executed | NamespaceLemmas.ReplaceKeepsOldName | NamespaceLemmas.CorrectedReplaceTakesNewName |
| objectfs/core/objectfs_operations.py:427-430 | `forget` compares `lookup_count - n` with 0 but never stores the lowered count | forget `[(id, 1), (id, 1)]` for an unlinked inode with 2 lookups | the inode is deleted once all lookups are forgotten | not executed | NamespaceLemmas.ForgetInStepsKeepsInode | NamespaceLemmas.CorrectedForgetInSteps |
| objectfs/core/objectfs_operations.py:437-439 | `forget` drops cached blocks `0 .. size // B - 1` only | a deleted file of size `B + 1` keeps its cached block 1 | every block holding file data is dropped | not executed | NamespaceLemmas.ForgetKeepsTailBlock | NamespaceLemmas.CorrectedForgetDropsAllBlocks |
| objectfs/core/metadata/metastore.py:202-213 | `delete_inode` cleans the stored key `(parent, name)` of the deleted inode even when that key now names another inode | create `p/a` as `x`, link `x` as `q/n`, unlink `p/a`, rename `q/b` (inode `y`) to `p/a`, unlink `q/n`, forget `x` | clean only a key that still names the deleted inode | not executed | NamespaceConsistency.ForgetOrphansName | NamespaceConsistency.CorrectedForgetKeepsName |
| objectfs/core/objectfs_operations.py:522-525 | NoCache `write` expects `get_dnode` to return `None` for a missing object, but the getter raises | the first `write` to a newly created file | a missing object reads as empty | not executed | DataPathLemmas.NewFileWriteFails | DataPathLemmas.CorrectedNewFileWrite |
| objectfs/core/objectfs_operations.py:593-595 | the last Cache `release` stores the cache block, which is `None` for a file never written | create, then release, a regular file | store an empty object | not executed | DataPathLemmas.ReleaseUnwrittenFails | DataPathLemmas.CorrectedReleaseUnwritten |
| objectfs/core/objectfs_operations.py:659 | Multipart `read` passes `size` where the inclusive end offset is meant | in a file larger than the offset, write 1 byte at in-block offset 5, then read 1 byte there | return the written byte | not executed | DataPathLemmas.ReadSizeAsEnd | DataPathLemmas.CorrectedWriteThenRead |
| objectfs/core/objectfs_operations.py:732-766 | `_sync` never clears the in-process dirty set | `fsync` twice after one write | the second `fsync` flushes nothing | not executed | DataPathLemmas.SecondSyncFlushesNothing | DataPathLemmas.CorrectedSecondSync |
| objectfs/core/data/object.py:238-240 | the ranged GET `bytes=bB-(b+1)B` is inclusive and spans B+1 bytes | a 4-byte object with B = 2, block 0 | exactly the B bytes of block b | not executed | Objects.RangedGetSpansExtraByte | Objects.CorrectedGetReadsBlock |
| objectfs/core/data/objectstore.py:73-79 | `multipart_upload_initiate` logs an undefined `multipart_id` | any call | open an upload on the inode's object | not executed | ObjectStores.ObjectStore.MultipartUploadInitiate | ObjectStores.ObjectStore.CorrectedMultipartUploadInitiate |
| objectfs/core/common/fragmentmap.py:105-116 | `remove_log_fragment` removes every member containing `_`, including a cache key whose filesystem name has one | filesystem `test_fs`, block with a cache fragment | remove only log fragments | not executed | FragmentMaps.RemoveLogFragmentTakesCacheFragment | FragmentMaps.RemoveLogFragmentKeepsCacheFragment |
| objectfs/core/cache/cachetask.py:123-131 | `merge_log_objects` sorts the completion list as dicts, so parts are ordered by ETag; S3 refuses the list, the error is swallowed, and the logs are deleted anyway | two blocks whose ETags sort opposite to their part numbers | complete with parts in part-number order, and delete logs only after completion | not executed | CacheTaskLemmas.MergeLosesLog | CacheTaskLemmas.CorrectedMergeKeepsLog |
| objectfs/core/cache/cachetask.py:115-117 | base blocks are the symmetric difference of `range(size // B)` and the logged blocks | a log holding block 3 of a 2-block base object | the blocks of the base object not in any log | not executed | CacheTasks.SymmetricDifferenceRereads | CacheTasks.CorrectedPlanCovers |
| objectfs/core/cache/cachetask.py:98-112 | the first queued log, the oldest, claims a block | block 0 written in two queued logs | the newest version of the block wins | not executed | CacheTasks.OldestLogWins | CacheTasks.NewestPlan |
