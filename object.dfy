/**
 * Data objects (objectfs/core/data/object.py): an object of an S3 bucket, with
 * multipart uploads and ranged reads, and an object of a Swift container. The
 * remote store is a map from object names to byte strings; an S3 bucket also
 * keeps its open multipart uploads and the uploaded parts of each.
 */
module Objects {
  import opened Common
  import opened Strings

  /** S3 numbers the parts of an upload from 1 to 10000. */
  const MaxPartNumber: int := 10000

  const Quote: char := '"'

  /** The ETag S3 returns: a token in double quotes. */
  function QuotedTag(n: nat): string
  {
    [Quote] + NatToString(n) + [Quote]
  }

  /** An uploaded part: its (unquoted) ETag and its bytes. */
  datatype Part = Part(etag: string, data: Bytes)

  /** A multipart upload that has been initiated and not completed. */
  datatype Upload = Upload(key: string, parts: map<int, Part>)

  /** One `{'ETag': …, 'PartNumber': …}` entry of a completion list. */
  datatype PartEntry = PartEntry(etag: string, partNumber: int)

  /** A completion list S3 accepts: part numbers strictly ascending. */
  predicate Ascending(list: seq<PartEntry>)
  {
    forall i, j :: 0 <= i < j < |list| ==> list[i].partNumber < list[j].partNumber
  }

  /** S3 refuses to complete an upload in which a part other than the last is under 5 MiB (`EntityTooSmall`). */
  const MinPartSize: nat := 5 * 1024 * 1024

  /** Every part but the last is at least `MinPartSize` bytes long. */
  predicate LargeEnough(ds: seq<Bytes>)
  {
    forall i :: 0 <= i < |ds| - 1 ==> |ds[i]| >= MinPartSize
  }

  /** Every listed part was uploaded and is named by its ETag. */
  predicate Listed(u: Upload, list: seq<PartEntry>)
  {
    forall i :: 0 <= i < |list| ==>
      list[i].partNumber in u.parts && Strip(list[i].etag, Quote) == u.parts[list[i].partNumber].etag
  }

  /** `b1 + b2 + ...`. */
  function Concat(ds: seq<Bytes>): (r: Bytes)
  {
    if |ds| == 0 then [] else ds[0] + Concat(ds[1..])
  }

  /** The bytes of the listed parts, in list order. */
  function PartData(u: Upload, list: seq<PartEntry>): (ds: seq<Bytes>)
    requires Listed(u, list)
    ensures |ds| == |list| && forall i :: 0 <= i < |list| ==> ds[i] == u.parts[list[i].partNumber].data
  {
    if |list| == 0 then [] else [u.parts[list[0].partNumber].data] + PartData(u, list[1..])
  }

  /** The bucket. `nextId` and `nextTag` stand for the fresh upload ids and ETags S3 invents. */
  datatype Bucket = Bucket(objects: map<string, Bytes>, uploads: map<nat, Upload>, nextId: nat, nextTag: nat)
  {
    function Put(name: string, d: Bytes): Bucket
    {
      this.(objects := objects[name := d])
    }

    /** `initiate_multipart_upload`: a fresh upload id. */
    function Initiate(name: string): (nat, Bucket)
    {
      (nextId, this.(uploads := uploads[nextId := Upload(name, map[])], nextId := nextId + 1))
    }

    predicate CanUpload(name: string, id: nat, n: int)
    {
      id in uploads && uploads[id].key == name && 1 <= n <= MaxPartNumber
    }

    /** `Part(n).upload(Body = d)`: the part stored (or replaced) under a fresh ETag, returned quoted. */
    function UploadPart(name: string, id: nat, n: int, d: Bytes): Result<(string, Bucket)>
    {
      if !CanUpload(name, id, n) then Err(Crash(BackendError))
      else
        var u := uploads[id];
        Ok((QuotedTag(nextTag),
            this.(uploads := uploads[id := u.(parts := u.parts[n := Part(NatToString(nextTag), d)])],
                  nextTag := nextTag + 1)))
    }

    predicate Completes(name: string, id: nat, list: seq<PartEntry>)
    {
      && id in uploads && uploads[id].key == name && |list| > 0 && Ascending(list) && Listed(uploads[id], list)
      && LargeEnough(PartData(uploads[id], list))
    }

    /** `complete(MultipartUpload = {'Parts': list})`: the object becomes the listed parts, in order. */
    function Complete(name: string, id: nat, list: seq<PartEntry>): Result<Bucket>
    {
      if !Completes(name, id, list) then Err(Crash(BackendError))
      else Ok(this.(objects := objects[name := Concat(PartData(uploads[id], list))], uploads := uploads - {id}))
    }

    /**
     * `get()`, or `get(Range = 'bytes=first-last')`: both ends inclusive, the
     * end clamped; a first byte past the object is refused (416, section 4.4
     * of RFC 7233), and so is a missing object.
     */
    function Get(name: string, range: Option<(nat, nat)>): Result<Bytes>
    {
      if name !in objects then Err(Crash(BackendError))
      else
        var s := objects[name];
        match range
        case None => Ok(s)
        case Some((first, last)) =>
          if first >= |s| || first > last then Err(Crash(BackendError))
          else Ok(s[first..Min(last + 1, |s|)])
    }

    /** `delete`: S3 accepts deleting an absent object. */
    function Delete(name: string): Bucket
    {
      this.(objects := objects - {name})
    }

    function Head(name: string): bool
    {
      name in objects
    }
  }

  /** The range `S3Object.get(b)` asks for: bytes `b*B` through `(b+1)*B`, both included. */
  function BlockRange(block: nat, bs: BlockSize): (nat, nat)
  {
    (block * bs, (block + 1) * bs)
  }

  /** The range block `b` occupies: bytes `b*B` through `(b+1)*B - 1`. */
  function CorrectedBlockRange(block: nat, bs: BlockSize): (nat, nat)
  {
    (block * bs, (block + 1) * bs - 1)
  }

  /** `upload_part(b, id, d)`: part `b + 1`, and the ETag without its quotes; None on any error. */
  function UploadBlock(bk: Bucket, name: string, block: nat, id: nat, d: Bytes): (Option<(string, int)>, Bucket)
  {
    match bk.UploadPart(name, id, block + 1, d)
    case Err(_) => (None, bk)
    case Ok((etag, bk')) => (Some((Strip(etag, Quote), block + 1)), bk')
  }

  /** `upload_part` succeeds exactly when the upload is open on this object and `b + 1` is a valid part number. */
  lemma UploadBlockSpec(bk: Bucket, name: string, block: nat, id: nat, d: Bytes)
    ensures var (r, bk') := UploadBlock(bk, name, block, id, d);
      (r.Some? <==> bk.CanUpload(name, id, block + 1))
      && (r.None? ==> bk' == bk)
      && (r.Some? ==>
            r.value.1 == block + 1
            && bk'.uploads[id].parts == bk.uploads[id].parts[block + 1 := Part(r.value.0, d)]
            && bk'.uploads[id].key == bk.uploads[id].key
            && bk'.objects == bk.objects
            && bk'.uploads.Keys == bk.uploads.Keys)
  {
    DigitsHaveNo(bk.nextTag, Quote);
    StripQuoted(NatToString(bk.nextTag), Quote);
  }

  /** The entry `upload_part` returns names the part it stored, as a completion list needs. */
  lemma UploadBlockListed(bk: Bucket, name: string, block: nat, id: nat, d: Bytes)
    requires bk.CanUpload(name, id, block + 1)
    ensures var (r, bk') := UploadBlock(bk, name, block, id, d);
      r.Some? && Listed(bk'.uploads[id], [PartEntry(r.value.0, r.value.1)])
      && bk'.uploads[id].parts[block + 1].data == d
  {
    UploadBlockSpec(bk, name, block, id, d);
    StripQuoted(NatToString(bk.nextTag), Quote);
    DigitsHaveNo(bk.nextTag, Quote);
    var (r, bk') := UploadBlock(bk, name, block, id, d);
    assert Strip(r.value.0, Quote) == r.value.0;
  }

  /**
   * Completion is accepted exactly for an open upload on this object and a
   * non-empty list of uploaded parts in ascending part-number order whose
   * parts, but the last, are at least 5 MiB. The completed object is the
   * concatenation of the listed parts; the upload is closed.
   */
  lemma CompleteSpec(bk: Bucket, name: string, id: nat, list: seq<PartEntry>)
    ensures bk.Complete(name, id, list).Ok? <==>
      && id in bk.uploads && bk.uploads[id].key == name && |list| > 0 && Ascending(list)
      && Listed(bk.uploads[id], list)
      && forall i :: 0 <= i < |list| - 1 ==> |bk.uploads[id].parts[list[i].partNumber].data| >= MinPartSize
    ensures bk.Complete(name, id, list).Ok? ==>
      var bk' := bk.Complete(name, id, list).value;
      bk'.objects[name] == Concat(PartData(bk.uploads[id], list)) && id !in bk'.uploads
      && (forall o :: o != name ==> (o in bk'.objects <==> o in bk.objects))
  {
  }

  /** A part under 5 MiB anywhere but last makes S3 refuse the completion, and the bucket is left as it was. */
  lemma CompleteRefusesSmallPart(bk: Bucket, name: string, id: nat, list: seq<PartEntry>, i: nat)
    requires id in bk.uploads && Listed(bk.uploads[id], list)
    requires i < |list| - 1 && |bk.uploads[id].parts[list[i].partNumber].data| < MinPartSize
    ensures bk.Complete(name, id, list).Err?
  {
    assert PartData(bk.uploads[id], list)[i] == bk.uploads[id].parts[list[i].partNumber].data;
  }

  /** An empty completion list is refused. */
  lemma CompleteNeedsParts(bk: Bucket, name: string, id: nat)
    ensures bk.Complete(name, id, []).Err?
  {
  }

  /** `get()` with no block gives the whole object. */
  lemma GetWhole(bk: Bucket, name: string)
    requires bk.Head(name)
    ensures bk.Get(name, None) == Ok(bk.objects[name])
  {
  }

  /** `head` is true after `put` and false after `delete`; deleting an absent object changes nothing. */
  lemma PutDeleteHead(bk: Bucket, name: string, d: Bytes)
    ensures bk.Put(name, d).Head(name) && bk.Put(name, d).Get(name, None) == Ok(d)
    ensures !bk.Delete(name).Head(name)
    ensures !bk.Head(name) ==> bk.Delete(name) == bk
  {
  }

  /**
   * As written, a ranged read of block `b` of an object that extends past the
   * block yields `B + 1` bytes: the block and the first byte of block `b + 1`.
   */
  lemma RangedGetSpansExtraByte(bk: Bucket, name: string, block: nat, bs: BlockSize)
    requires bk.Head(name) && |bk.objects[name]| > (block + 1) * bs
    ensures bk.Get(name, Some(BlockRange(block, bs))).Ok?
    ensures var r := bk.Get(name, Some(BlockRange(block, bs))).value;
      |r| == bs + 1 && r[bs] == bk.objects[name][(block + 1) * bs]
  {
  }

  /** The same read with the range it evidently means, on a two-block object, from the test inputs. */
  lemma RangedGetExample()
    ensures var bk := Bucket(map["1" := [1, 2, 3, 4]], map[], 0, 0);
      bk.Get("1", Some(BlockRange(0, 2))) == Ok([1, 2, 3])
      && bk.Get("1", Some(CorrectedBlockRange(0, 2))) == Ok([1, 2])
  {
    var s: Bytes := [1, 2, 3, 4];
    assert s[0..3] == [1, 2, 3];
    assert s[0..2] == [1, 2];
  }

  /** Block `k` of a concatenation of full blocks is the `k`th block. */
  lemma {:induction false} ConcatBlock(ds: seq<Bytes>, k: nat, bs: BlockSize)
    requires k < |ds|
    requires forall i :: 0 <= i < |ds| - 1 ==> |ds[i]| == bs
    ensures |Concat(ds)| >= k * bs + |ds[k]|
    ensures Concat(ds)[k * bs..k * bs + |ds[k]|] == ds[k]
  {
    if k == 0 {
      assert Concat(ds) == ds[0] + Concat(ds[1..]);
    } else {
      ConcatBlock(ds[1..], k - 1, bs);
      assert Concat(ds) == ds[0] + Concat(ds[1..]);
      assert |ds[0]| == bs;
      assert (k - 1) * bs + bs == k * bs;
      assert Concat(ds)[k * bs..k * bs + |ds[k]|] == Concat(ds[1..])[(k - 1) * bs..(k - 1) * bs + |ds[k]|];
    }
  }

  /**
   * With the corrected range, reading block `k` of an object assembled from
   * blocks of `B` bytes (the last one possibly shorter) gives block `k` back.
   */
  lemma CorrectedGetReadsBlock(bk: Bucket, name: string, ds: seq<Bytes>, k: nat, bs: BlockSize)
    requires bk.Head(name) && bk.objects[name] == Concat(ds)
    requires k < |ds| && ds[k] != []
    requires forall i :: 0 <= i < |ds| - 1 ==> |ds[i]| == bs
    requires |ds[k]| <= bs
    ensures bk.Get(name, Some(CorrectedBlockRange(k, bs))) == Ok(ds[k])
  {
    ConcatBlock(ds, k, bs);
    var s := Concat(ds);
    if k < |ds| - 1 {
      assert |ds[k]| == bs;
    } else {
      ConcatLength(ds, bs);
    }
  }

  lemma {:induction false} ConcatLength(ds: seq<Bytes>, bs: BlockSize)
    requires |ds| > 0
    requires forall i :: 0 <= i < |ds| - 1 ==> |ds[i]| == bs
    ensures |Concat(ds)| == (|ds| - 1) * bs + |ds[|ds| - 1]|
  {
    if |ds| > 1 {
      ConcatLength(ds[1..], bs);
      assert |Concat(ds)| == bs + |Concat(ds[1..])|;
    }
  }

  // ---------------------------------------------------------------------------
  // S3

  /** The S3 bucket an object store's container talks to. */
  class S3Bucket {
    var objects: map<string, Bytes>
    var uploads: map<nat, Upload>
    var nextId: nat
    var nextTag: nat

    function State(): Bucket
      reads this
    {
      Bucket(objects, uploads, nextId, nextTag)
    }

    constructor (contents: Bucket)
      ensures State() == contents
    {
      objects, uploads, nextId, nextTag := contents.objects, contents.uploads, contents.nextId, contents.nextTag;
    }

    method SetState(b: Bucket)
      modifies this
      ensures State() == b
    {
      objects, uploads, nextId, nextTag := b.objects, b.uploads, b.nextId, b.nextTag;
    }
  }

  /** `S3Object`: the object named `name` (`str(object_name)`) of a bucket. */
  class S3Object {
    const bucket: S3Bucket
    const name: string
    const blockSize: BlockSize

    constructor (bucket: S3Bucket, name: string, blockSize: BlockSize)
      ensures this.bucket == bucket && this.name == name && this.blockSize == blockSize
    {
      this.bucket := bucket;
      this.name := name;
      this.blockSize := blockSize;
    }

    method Put(d: Bytes)
      modifies bucket
      ensures bucket.State() == old(bucket.State()).Put(name, d)
    {
      bucket.SetState(bucket.State().Put(name, d));
    }

    method InitiateMultipartUpload() returns (id: nat)
      modifies bucket
      ensures (id, bucket.State()) == old(bucket.State()).Initiate(name)
    {
      var (i, b) := bucket.State().Initiate(name);
      id := i;
      bucket.SetState(b);
    }

    /** `upload_part`: backend errors are swallowed and give None. */
    method UploadPart(block: nat, id: nat, d: Bytes) returns (r: Option<(string, int)>)
      modifies bucket
      ensures (r, bucket.State()) == UploadBlock(old(bucket.State()), name, block, id, d)
    {
      var (res, b) := UploadBlock(bucket.State(), name, block, id, d);
      r := res;
      bucket.SetState(b);
    }

    /** `complete_multipart_upload`: backend errors are swallowed; `ok` says whether S3 accepted. */
    method CompleteMultipartUpload(id: nat, list: seq<PartEntry>) returns (ok: bool)
      modifies bucket
      ensures ok == old(bucket.State()).Completes(name, id, list)
      ensures bucket.State() == match old(bucket.State()).Complete(name, id, list)
        case Ok(b) => b
        case Err(_) => old(bucket.State())
    {
      var res := bucket.State().Complete(name, id, list);
      ok := res.Ok?;
      if res.Ok? {
        bucket.SetState(res.value);
      }
    }

    /** `get(object_block_id)`. */
    method Get(block: Option<nat>) returns (r: Result<Bytes>)
      ensures r == bucket.State().Get(name, if block.None? then None else Some(BlockRange(block.value, blockSize)))
      ensures block.None? && name in bucket.objects ==> r == Ok(bucket.objects[name])
    {
      r := bucket.State().Get(name, if block.None? then None else Some(BlockRange(block.value, blockSize)));
    }

    method Delete()
      modifies bucket
      ensures bucket.State() == old(bucket.State()).Delete(name)
    {
      bucket.SetState(bucket.State().Delete(name));
    }

    /** `head`: True when the object is present, False on 404. */
    method Head() returns (b: bool)
      ensures b <==> name in bucket.objects
    {
      b := bucket.State().Head(name);
    }
  }

  // ---------------------------------------------------------------------------
  // Swift

  /** A Swift container: names to contents. Every error is raised as a ClientException. */
  datatype Container = Container(objects: map<string, Bytes>)
  {
    function Head(name: string): bool { name in objects }

    /** `SwiftObject.delete`: asks the backend only when `head` is true. */
    function Delete(name: string): Container
    {
      if Head(name) then Container(objects - {name}) else this
    }

    /** `SwiftObject.move`: copy to the new name, then delete the source. */
    function Move(name: string, newName: string): Result<Container>
    {
      if name !in objects then Err(Crash(BackendError))
      else Ok(Container(objects[newName := objects[name]]).Delete(name))
    }
  }

  /** Deleting an absent object is a no-op; a present one is gone afterwards and nothing else changes. */
  lemma SwiftDeleteSpec(c: Container, name: string)
    ensures !c.Head(name) ==> c.Delete(name) == c
    ensures !c.Delete(name).Head(name)
    ensures forall o :: o != name ==> (o in c.Delete(name).objects <==> o in c.objects)
  {
  }

  /** Moving to a new name leaves the contents under that name and nothing under the old one. */
  lemma SwiftMoveSpec(c: Container, name: string, newName: string)
    requires c.Head(name) && name != newName
    ensures c.Move(name, newName).Ok?
    ensures var c' := c.Move(name, newName).value;
      c'.objects[newName] == c.objects[name] && !c'.Head(name)
      && forall o :: o != name && o != newName ==> (o in c'.objects <==> o in c.objects)
  {
  }

  /** Moving an object onto its own name deletes it: the copy lands on the source, which is then deleted. */
  lemma SwiftMoveOntoItself(c: Container, name: string)
    requires c.Head(name)
    ensures c.Move(name, name).Ok? && !c.Move(name, name).value.Head(name)
  {
  }

  class SwiftContainer {
    var objects: map<string, Bytes>

    function State(): Container
      reads this
    {
      Container(objects)
    }

    constructor (contents: Container)
      ensures State() == contents
    {
      objects := contents.objects;
    }
  }

  /** `SwiftObject`. */
  class SwiftObject {
    const container: SwiftContainer
    const name: string

    constructor (container: SwiftContainer, name: string)
      ensures this.container == container && this.name == name
    {
      this.container := container;
      this.name := name;
    }

    method Put(d: Bytes)
      modifies container
      ensures container.objects == old(container.objects)[name := d]
    {
      container.objects := container.objects[name := d];
    }

    method Get() returns (r: Result<Bytes>)
      ensures r == if name in container.objects then Ok(container.objects[name]) else Err(Crash(BackendError))
    {
      r := if name in container.objects then Ok(container.objects[name]) else Err(Crash(BackendError));
    }

    method Head() returns (b: bool)
      ensures b == container.State().Head(name)
    {
      b := name in container.objects;
    }

    method Delete()
      modifies container
      ensures container.State() == old(container.State()).Delete(name)
    {
      var present := Head();
      if present {
        container.objects := container.objects - {name};
      }
    }

    method Move(newName: string) returns (r: Outcome)
      modifies container
      ensures r == if old(container.State()).Move(name, newName).Ok? then Done else Fail(Crash(BackendError))
      ensures container.State() == match old(container.State()).Move(name, newName)
        case Ok(c) => c
        case Err(_) => old(container.State())
    {
      if name !in container.objects {
        return Fail(Crash(BackendError));
      }
      container.objects := container.objects[newName := container.objects[name]];
      Delete();
      r := Done;
    }
  }
}
