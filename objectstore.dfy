/**
 * The object store (objectfs/core/data/objectstore.py): the data of an inode
 * lives in the bucket object named by the inode id, and a flushed log in the
 * object named by the log's name. Every call picks one of the two names and
 * forwards the rest of its arguments to that object unchanged.
 */
module ObjectStores {
  import opened Common
  import opened Strings
  import opened Objects
  import FragmentMaps

  /** The backends `ObjectStoreFactory` knows. */
  datatype StoreKind = S3Store | SwiftStore | GoogleStore

  /** `ObjectStoreFactory.create_store`. */
  function CreateStore(kind: string): (r: Result<StoreKind>)
    ensures r.Ok? <==> kind in {"S3", "Swift", "Google"}
    ensures r == Err(Crash(Unsupported)) <==> kind !in {"S3", "Swift", "Google"}
  {
    if kind == "S3" then Ok(S3Store)
    else if kind == "Swift" then Ok(SwiftStore)
    else if kind == "Google" then Ok(GoogleStore)
    else Err(Crash(Unsupported))
  }

  /** The object a call addresses: the log name when one is given and non-empty, else the inode id. */
  function Target(inode: nat, log: Option<string>): (name: string)
    ensures log.Some? && log.value != [] ==> name == log.value
    ensures log.None? || log.value == [] ==> name == NatToString(inode)
  {
    if log.Some? && log.value != [] then log.value else NatToString(inode)
  }

  /** A log object's name is never an inode's object name, so logs and base objects never overwrite each other. */
  lemma LogsAndBaseObjectsDisjoint(inode: nat, blocks: seq<nat>, t: nat, other: nat)
    ensures Target(inode, Some(FragmentMaps.LogKey(inode, blocks, t))) != Target(other, None)
  {
    FragmentMaps.LogKeyIsNotDecimal(inode, blocks, t, other);
  }

  /** Distinct inodes have distinct base objects. */
  lemma BaseObjectsDistinct(a: nat, b: nat)
    ensures Target(a, None) == Target(b, None) <==> a == b
  {
    NatToStringInjective(a, b);
  }

  /** An `ObjectStore` over S3: its container is the filesystem's bucket. */
  class ObjectStore {
    const bucket: S3Bucket
    const blockSize: BlockSize

    constructor (bucket: S3Bucket, blockSize: BlockSize)
      ensures this.bucket == bucket && this.blockSize == blockSize
    {
      this.bucket := bucket;
      this.blockSize := blockSize;
    }

    /** `container.object(name)`. */
    method Object(name: string) returns (o: S3Object)
      ensures fresh(o) && o.bucket == bucket && o.name == name && o.blockSize == blockSize
    {
      o := new S3Object(bucket, name, blockSize);
    }

    method GetDnode(inode: nat, block: Option<nat>, log: Option<string>) returns (r: Result<Bytes>)
      ensures r == bucket.State().Get(Target(inode, log),
                                       if block.None? then None else Some(BlockRange(block.value, blockSize)))
    {
      var o := Object(Target(inode, log));
      r := o.Get(block);
    }

    method PutDnode(inode: nat, data: Bytes, log: Option<string>)
      modifies bucket
      ensures bucket.State() == old(bucket.State()).Put(Target(inode, log), data)
    {
      var o := Object(Target(inode, log));
      o.Put(data);
    }

    /**
     * `dnode_size`: the length of the addressed object; a missing object is
     * an error. The source calls a `content_length` the object class does not
     * define; the model takes the length it evidently means.
     */
    method DnodeSize(inode: nat, log: Option<string>) returns (r: Result<nat>)
      ensures var name := Target(inode, log);
        r == if name in bucket.objects then Ok(|bucket.objects[name]|) else Err(Crash(BackendError))
    {
      var name := Target(inode, log);
      r := if name in bucket.objects then Ok(|bucket.objects[name]|) else Err(Crash(BackendError));
    }

    method DeleteDnode(inode: nat, log: Option<string>)
      modifies bucket
      ensures bucket.State() == old(bucket.State()).Delete(Target(inode, log))
    {
      var o := Object(Target(inode, log));
      o.Delete();
    }

    method MultipartUploadDnode(inode: nat, block: nat, id: nat, data: Bytes, log: Option<string>)
      returns (r: Option<(string, int)>)
      modifies bucket
      ensures (r, bucket.State()) == UploadBlock(old(bucket.State()), Target(inode, log), block, id, data)
    {
      var o := Object(Target(inode, log));
      r := o.UploadPart(block, id, data);
    }

    /**
     * `multipart_upload_initiate` as written: its debug line formats
     * `multipart_id`, a name defined nowhere, so every call raises NameError
     * before anything is sent.
     */
    method MultipartUploadInitiate(inode: nat, log: Option<string>) returns (r: Result<nat>)
      ensures r == Err(Crash(Undefined))
    {
      r := Err(Crash(Undefined));
    }

    /**
     * `multipart_upload_initiate` without the failing debug line: both
     * branches open the upload on the inode's object, whatever the log name.
     */
    method CorrectedMultipartUploadInitiate(inode: nat, log: Option<string>) returns (id: nat)
      modifies bucket
      ensures (id, bucket.State()) == old(bucket.State()).Initiate(Target(inode, None))
      ensures bucket.uploads[id] == Upload(NatToString(inode), map[])
    {
      var o := Object(Target(inode, None));
      id := o.InitiateMultipartUpload();
    }

    method MultipartUploadComplete(inode: nat, id: nat, list: seq<PartEntry>, log: Option<string>) returns (ok: bool)
      modifies bucket
      ensures ok == old(bucket.State()).Completes(Target(inode, log), id, list)
      ensures bucket.State() == match old(bucket.State()).Complete(Target(inode, log), id, list)
        case Ok(b) => b
        case Err(_) => old(bucket.State())
    {
      var o := Object(Target(inode, log));
      ok := o.CompleteMultipartUpload(id, list);
    }
  }
}
