/**
 * The background tasks of the cache (objectfs/core/cache/cachetask.py), over
 * the S3 object store, the Redis cache store and the merge queue.
 *
 * The merge folds the log objects queued for an inode into the inode's base
 * object: it fetches the oldest queued logs, opens a multipart upload on the
 * base object, uploads as part `b + 1` each block `b` a log holds, then each
 * remaining block of the base object, completes the upload with the list of
 * parts, and finally deletes every fetched log object and removes it from the
 * queue.
 *
 * The merge is written once, as `Merge`, for four choices (`Rules`): the
 * choices the source makes and the ones the design evidently intends. The
 * method `MergeLogObjects` runs the merge as written. Its steps decompose into
 * a plan (which block comes from where, `LogPlan` and `BaseSteps`) and an
 * executor (`Exec`), so the properties of the plan are stated on their own.
 */
module CacheTasks {
  import opened Common
  import opened Strings
  import opened Objects
  import opened MergeQueues
  import FragmentMaps
  import ObjectStores
  import CacheStores

  /** What a merge reads and changes: the bucket and the merge queues. */
  datatype World = World(bucket: Bucket, queues: Queues)

  /**
   * The five choices in which the merge as written and the corrected merge
   * differ: which log's copy of a block wins, which base blocks are re-read,
   * how the completion list is sorted, which byte range a block read asks
   * for, and whether a refused completion stops the merge before any log is
   * deleted.
   */
  datatype Rules = Rules(newestWins: bool, byDifference: bool, sortByPart: bool, exactRange: bool, commitFirst: bool)

  const AsWritten: Rules := Rules(false, false, false, false, false)
  const Corrected: Rules := Rules(true, true, true, true, true)

  // ---------------------------------------------------------------------------
  // Sorting the completion list

  /**
   * `ByDictOrder` is how Python 2's `list.sort()` orders the
   * `{'ETag': …, 'PartNumber': …}` dicts: by the smallest key whose values
   * differ, so by ETag first and by part number only between equal ETags.
   * `ByPartNumber` is `sorted(…, key=itemgetter('PartNumber'))`.
   */
  datatype Order = ByDictOrder | ByPartNumber

  predicate Less(o: Order, a: PartEntry, b: PartEntry)
  {
    match o
    case ByPartNumber => a.partNumber < b.partNumber
    case ByDictOrder => StrLt(a.etag, b.etag) || (a.etag == b.etag && a.partNumber < b.partNumber)
  }

  lemma LessIrreflexive(o: Order, a: PartEntry)
    ensures !Less(o, a, a)
  {
    StrLtIrreflexive(a.etag);
  }

  lemma LessTransitive(o: Order, a: PartEntry, b: PartEntry, c: PartEntry)
    requires Less(o, a, b) && Less(o, b, c)
    ensures Less(o, a, c)
  {
    if o.ByDictOrder? && StrLt(a.etag, b.etag) && StrLt(b.etag, c.etag) {
      StrLtTransitive(a.etag, b.etag, c.etag);
    }
  }

  predicate SortedBy(o: Order, s: seq<PartEntry>)
  {
    forall i, j :: 0 <= i < j < |s| ==> !Less(o, s[j], s[i])
  }

  predicate DistinctParts(s: seq<PartEntry>)
  {
    forall i, j :: 0 <= i < j < |s| ==> s[i].partNumber != s[j].partNumber
  }

  /** `x` placed after every element it does not precede, so equal elements keep their order. */
  function InsertPart(o: Order, x: PartEntry, s: seq<PartEntry>): (r: seq<PartEntry>)
    ensures |r| == |s| + 1 && multiset(r) == multiset(s) + multiset{x}
  {
    if |s| == 0 then [x]
    else if Less(o, x, s[0]) then [x] + s
    else
      assert s == [s[0]] + s[1..];
      [s[0]] + InsertPart(o, x, s[1..])
  }

  /** A stable sort of a completion list. */
  function SortParts(o: Order, s: seq<PartEntry>): (r: seq<PartEntry>)
    ensures |r| == |s| && multiset(r) == multiset(s)
  {
    if |s| == 0 then []
    else
      assert s == s[..|s| - 1] + [s[|s| - 1]];
      InsertPart(o, s[|s| - 1], SortParts(o, s[..|s| - 1]))
  }

  lemma {:induction false} InsertPartSorted(o: Order, x: PartEntry, s: seq<PartEntry>)
    requires SortedBy(o, s)
    ensures SortedBy(o, InsertPart(o, x, s))
  {
    if |s| > 0 {
      if Less(o, x, s[0]) {
        forall j | 0 <= j < |s| ensures !Less(o, s[j], x) {
          if Less(o, s[j], x) {
            LessTransitive(o, s[j], x, s[0]);
            if j == 0 { LessIrreflexive(o, s[0]); }
          }
        }
        SortedCons(o, x, s);
      } else {
        InsertPartSorted(o, x, s[1..]);
        var t := InsertPart(o, x, s[1..]);
        forall j | 0 <= j < |t| ensures !Less(o, t[j], s[0]) {
          assert t[j] in multiset(t);
          if t[j] != x {
            assert t[j] in multiset(s[1..]);
            var k :| 0 <= k < |s[1..]| && s[1..][k] == t[j];
            assert s[k + 1] == t[j];
          }
        }
        SortedCons(o, s[0], t);
      }
    }
  }

  /** A sorted list stays sorted under a new head that no element precedes. */
  lemma SortedCons(o: Order, y: PartEntry, t: seq<PartEntry>)
    requires SortedBy(o, t) && forall j :: 0 <= j < |t| ==> !Less(o, t[j], y)
    ensures SortedBy(o, [y] + t)
  {
    var r := [y] + t;
    forall i, j | 0 <= i < j < |r| ensures !Less(o, r[j], r[i]) {
      assert r[j] == t[j - 1];
      if i > 0 { assert r[i] == t[i - 1]; }
    }
  }

  /** The sort orders the list and is a permutation of it. */
  lemma {:induction false} SortPartsSorted(o: Order, s: seq<PartEntry>)
    ensures SortedBy(o, SortParts(o, s)) && multiset(SortParts(o, s)) == multiset(s)
  {
    if |s| > 0 {
      SortPartsSorted(o, s[..|s| - 1]);
      InsertPartSorted(o, s[|s| - 1], SortParts(o, s[..|s| - 1]));
    }
  }

  lemma {:induction false} InsertPartAscending(x: PartEntry, s: seq<PartEntry>)
    requires Ascending(s)
    requires forall e :: e in s ==> e.partNumber != x.partNumber
    ensures Ascending(InsertPart(ByPartNumber, x, s))
  {
    if |s| > 0 && !Less(ByPartNumber, x, s[0]) {
      InsertPartAscending(x, s[1..]);
      var t := InsertPart(ByPartNumber, x, s[1..]);
      forall j | 0 <= j < |t| ensures s[0].partNumber < t[j].partNumber {
        assert t[j] in multiset(t);
        if t[j] != x {
          assert t[j] in multiset(s[1..]);
          var k :| 0 <= k < |s[1..]| && s[1..][k] == t[j];
          assert s[k + 1] == t[j];
        }
      }
    }
  }

  /** Sorted by part number, a list whose part numbers are distinct is strictly ascending, as S3 demands. */
  lemma {:induction false} SortByPartAscending(s: seq<PartEntry>)
    requires DistinctParts(s)
    ensures Ascending(SortParts(ByPartNumber, s))
  {
    if |s| > 0 {
      var p := s[..|s| - 1];
      var x := s[|s| - 1];
      SortByPartAscending(p);
      forall e | e in SortParts(ByPartNumber, p) ensures e.partNumber != x.partNumber {
        assert e in multiset(SortParts(ByPartNumber, p));
        assert e in p;
        var k :| 0 <= k < |p| && p[k] == e;
        assert s[k] == e;
      }
      InsertPartAscending(x, SortParts(ByPartNumber, p));
    }
  }

  // ---------------------------------------------------------------------------
  // The plan: which block comes from where

  /** One part to upload: block `block`, read at block position `index` of the log `log`, or of the base object when `log` is None. */
  datatype Step = Step(block: nat, log: Option<string>, index: nat)

  function Elements(blocks: seq<nat>): set<nat>
  {
    set b | b in blocks
  }

  /** The blocks of a plan, in plan order. */
  function Blocks(steps: seq<Step>): (r: seq<nat>)
    ensures |r| == |steps| && forall i :: 0 <= i < |steps| ==> r[i] == steps[i].block
  {
    if |steps| == 0 then [] else [steps[0].block] + Blocks(steps[1..])
  }

  predicate DistinctBlocks(steps: seq<Step>)
  {
    forall i, j :: 0 <= i < j < |steps| ==> steps[i].block != steps[j].block
  }

  /** Each block of `todo` read from `log`, at the position of its first occurrence in the log's block list (`block_id_list.index`). */
  function LogSteps(log: string, blocks: seq<nat>, todo: seq<nat>): (r: seq<Step>)
    ensures |r| == |todo|
    ensures forall i :: 0 <= i < |todo| ==> r[i] == Step(todo[i], Some(log), IndexOf(blocks, todo[i]))
  {
    if |todo| == 0 then [] else [Step(todo[0], Some(log), IndexOf(blocks, todo[0]))] + LogSteps(log, blocks, todo[1..])
  }

  /** Each block of `todo` read from the base object at its own position. */
  function BaseSteps(todo: seq<nat>): (r: seq<Step>)
    ensures |r| == |todo| && forall i :: 0 <= i < |todo| ==> r[i] == Step(todo[i], None, todo[i])
  {
    if |todo| == 0 then [] else [Step(todo[0], None, todo[0])] + BaseSteps(todo[1..])
  }

  /** The parts one log contributes: its blocks that no log before it claimed, in ascending order. */
  function NewSteps(log: string, blocks: seq<nat>, claimed: set<nat>): seq<Step>
  {
    LogSteps(log, blocks, SortedElements(Elements(blocks) - claimed))
  }

  /** The blocks the logs hold between them. */
  function Claimed(decoded: seq<seq<nat>>): set<nat>
  {
    if |decoded| == 0 then {} else Elements(decoded[0]) + Claimed(decoded[1..])
  }

  /** The parts of the logs, in the order the logs are visited. */
  function LogPlan(logs: seq<string>, decoded: seq<seq<nat>>, claimed: set<nat>): seq<Step>
    requires |logs| == |decoded|
    decreases |logs|
  {
    if |logs| == 0 then []
    else NewSteps(logs[0], decoded[0], claimed) + LogPlan(logs[1..], decoded[1..], claimed + Elements(decoded[0]))
  }

  /** `Set(range(n))`. */
  function Below(n: nat): (r: set<nat>)
    ensures forall b: nat :: b in r <==> b < n
  {
    if n == 0 then {} else Below(n - 1) + {n - 1}
  }

  /** The base blocks re-read: `range(n)` against the claimed blocks, by difference or (as written) symmetric difference. */
  function BaseBlocks(n: nat, claimed: set<nat>, byDifference: bool): (r: set<nat>)
    ensures forall b: nat :: b in r <==> (b < n && b !in claimed) || (!byDifference && b >= n && b in claimed)
  {
    var base := Below(n);
    if byDifference then base - claimed else (base - claimed) + (claimed - base)
  }

  /** The first log whose block list holds `b`; `|decoded|` when none does. */
  function FirstWith(decoded: seq<seq<nat>>, b: nat): (k: nat)
    ensures k <= |decoded| && (forall j :: 0 <= j < k ==> b !in decoded[j])
    ensures k < |decoded| ==> b in decoded[k]
    ensures k < |decoded| <==> b in Claimed(decoded)
    decreases |decoded|
  {
    if |decoded| == 0 then 0 else if b in decoded[0] then 0 else 1 + FirstWith(decoded[1..], b)
  }

  /** The last log whose block list holds `b`; `|decoded|` when none does. */
  function LastWith(decoded: seq<seq<nat>>, b: nat): (k: nat)
    ensures k <= |decoded| && (forall j :: k < j < |decoded| ==> b !in decoded[j])
    ensures k < |decoded| ==> b in decoded[k]
    ensures k == |decoded| ==> forall j :: 0 <= j < |decoded| ==> b !in decoded[j]
    decreases |decoded|
  {
    if |decoded| == 0 then 0
    else if b in decoded[|decoded| - 1] then |decoded| - 1
    else
      var k := LastWith(decoded[..|decoded| - 1], b);
      if k < |decoded| - 1 then k else |decoded|
  }

  // ---------------------------------------------------------------------------
  // Decoding log names

  /** Python's `int` on each piece, for the digit strings log names are made of. */
  function ParseAll(ss: seq<string>): (r: Option<seq<nat>>)
    ensures r.Some? <==> forall i :: 0 <= i < |ss| ==> ParseNat(ss[i]).Some?
    ensures r.Some? ==> |r.value| == |ss| && forall i :: 0 <= i < |ss| ==> ParseNat(ss[i]) == Some(r.value[i])
  {
    if |ss| == 0 then Some([])
    else match (ParseNat(ss[0]), ParseAll(ss[1..]))
      case (Some(n), Some(ns)) => Some([n] + ns)
      case _ => None
  }

  /** `map(int, fragment_map._decode_log_key(inode, log))`: None where `int` raises ValueError. */
  function DecodeBlocks(log: string): Option<seq<nat>>
  {
    ParseAll(FragmentMaps.DecodeLogKey(log))
  }

  /** A log name made by `_log_key` decodes to the blocks it was made of. */
  lemma DecodeLogName(inode: nat, blocks: seq<nat>, t: nat)
    ensures DecodeBlocks(FragmentMaps.LogKey(inode, blocks, t)) == Some(blocks)
  {
    FragmentMaps.DecodeLogKeyRoundTrip(inode, blocks, t);
    var ss := FragmentMaps.Decimals(blocks);
    forall i | 0 <= i < |ss| ensures ParseNat(ss[i]) == Some(blocks[i]) {
      ParseNatToString(blocks[i]);
    }
    assert ParseAll(ss).value == blocks;
  }

  /** Every log name decodes, to the block list at the same position. */
  predicate DecodesTo(logs: seq<string>, decoded: seq<seq<nat>>)
  {
    |logs| == |decoded| && forall i :: 0 <= i < |logs| ==> DecodeBlocks(logs[i]) == Some(decoded[i])
  }

  // ---------------------------------------------------------------------------
  // Executing a plan

  /** The bucket so far, the completion list so far, and the error that stopped the merge, if any. */
  datatype Acc = Acc(bk: Bucket, parts: seq<PartEntry>, failed: Option<Failure>)

  function Failed(acc: Acc, f: Failure): Acc
  {
    if acc.failed.Some? then acc else acc.(failed := Some(f))
  }

  function ReadRange(index: nat, bs: BlockSize, exact: bool): (nat, nat)
  {
    if exact then CorrectedBlockRange(index, bs) else BlockRange(index, bs)
  }

  /**
   * `get_dnode` of the step's block, then `multipart_upload_dnode` of it as
   * part `block + 1` of the base object's upload. A refused read raises; a
   * refused upload returns None, and `job_result[0]` then raises TypeError.
   */
  function ExecStep(acc: Acc, inode: nat, id: nat, bs: BlockSize, exact: bool, st: Step): Acc
  {
    if acc.failed.Some? then acc
    else match acc.bk.Get(ObjectStores.Target(inode, st.log), Some(ReadRange(st.index, bs, exact)))
      case Err(f) => acc.(failed := Some(f))
      case Ok(data) =>
        var (r, bk') := UploadBlock(acc.bk, ObjectStores.Target(inode, None), st.block, id, data);
        if r.None? then Acc(bk', acc.parts, Some(Crash(NoneValue)))
        else Acc(bk', acc.parts + [PartEntry(r.value.0, r.value.1)], None)
  }

  function Exec(acc: Acc, inode: nat, id: nat, bs: BlockSize, exact: bool, steps: seq<Step>): Acc
    decreases |steps|
  {
    if |steps| == 0 then acc else Exec(ExecStep(acc, inode, id, bs, exact, steps[0]), inode, id, bs, exact, steps[1..])
  }

  /**
   * The loop over the logs: decode a log's name (ValueError stops the merge),
   * upload its unclaimed blocks, and add its blocks to the claimed set.
   */
  function LogPhase(acc: Acc, inode: nat, id: nat, bs: BlockSize, exact: bool, logs: seq<string>, claimed: set<nat>)
    : (Acc, set<nat>)
    decreases |logs|
  {
    if |logs| == 0 then (acc, claimed)
    else match DecodeBlocks(logs[0])
      case None => (Failed(acc, Crash(Malformed)), claimed)
      case Some(blocks) =>
        LogPhase(Exec(acc, inode, id, bs, exact, NewSteps(logs[0], blocks, claimed)), inode, id, bs, exact,
                 logs[1..], claimed + Elements(blocks))
  }

  /** `delete_dnode` and `merge_queue.remove` of each log in turn. */
  function DeleteLogs(bk: Bucket, q: Queues, inode: nat, logs: seq<string>): (Bucket, Queues)
    decreases |logs|
  {
    if |logs| == 0 then (bk, q)
    else DeleteLogs(bk.Delete(ObjectStores.Target(inode, Some(logs[0]))), q.Remove(inode, logs[0]), inode, logs[1..])
  }

  /** The logs a merge works on: `merge_queue.fetch(inode)`. */
  function Fetched(w: World, inode: nat): seq<string>
  {
    w.queues.Fetch(inode, DefaultStart, DefaultEnd)
  }

  /** The order the logs are visited in: as fetched, oldest first, or newest first. */
  function Visit(logs: seq<string>, rules: Rules): seq<string>
  {
    if rules.newestWins then Reverse(logs) else logs
  }

  /**
   * `merge_log_objects(fs, inode)` under `rules`. The completion's own error
   * is swallowed by `complete_multipart_upload`; every other error stops the
   * task with the bucket as it then is and the queue untouched.
   */
  function Merge(w: World, inode: nat, bs: BlockSize, rules: Rules): (Outcome, World)
  {
    var logs := Fetched(w, inode);
    var (id, bk0) := w.bucket.Initiate(ObjectStores.Target(inode, None));
    var (acc1, claimed) := LogPhase(Acc(bk0, [], None), inode, id, bs, rules.exactRange, Visit(logs, rules), {});
    if acc1.failed.Some? then (Fail(acc1.failed.value), World(acc1.bk, w.queues))
    else BasePhase(w.queues, inode, bs, rules, id, logs, acc1, claimed)
  }

  /** The blocks of the base object no log supplies (`dnode_size` of a missing object raises). */
  function BasePhase(q: Queues, inode: nat, bs: BlockSize, rules: Rules, id: nat, logs: seq<string>, acc1: Acc,
                     claimed: set<nat>): (Outcome, World)
  {
    var base := ObjectStores.Target(inode, None);
    if base !in acc1.bk.objects then (Fail(Crash(BackendError)), World(acc1.bk, q))
    else
      var todo := SortedElements(BaseBlocks(|acc1.bk.objects[base]| / bs, claimed, rules.byDifference));
      var acc2 := Exec(acc1, inode, id, bs, rules.exactRange, BaseSteps(todo));
      if acc2.failed.Some? then (Fail(acc2.failed.value), World(acc2.bk, q))
      else Finish(q, inode, rules, id, logs, acc2)
  }

  /**
   * Sort the list, complete the upload, then delete and dequeue every
   * fetched log. As written a refusal is swallowed and the logs go all the
   * same; with `commitFirst` a refusal stops the merge with the logs kept.
   */
  function Finish(q: Queues, inode: nat, rules: Rules, id: nat, logs: seq<string>, acc2: Acc): (Outcome, World)
  {
    var list := SortParts(if rules.sortByPart then ByPartNumber else ByDictOrder, acc2.parts);
    match acc2.bk.Complete(ObjectStores.Target(inode, None), id, list)
    case Err(f) =>
      if rules.commitFirst then (Fail(f), World(acc2.bk, q))
      else var (bk4, q4) := DeleteLogs(acc2.bk, q, inode, logs); (Done, World(bk4, q4))
    case Ok(bk3) =>
      var (bk4, q4) := DeleteLogs(bk3, q, inode, logs);
      (Done, World(bk4, q4))
  }

  // ---------------------------------------------------------------------------
  // The merge as a method

  /** The inner loops of `merge_log_objects`: read and upload each step in turn. */
  method ExecSteps(store: ObjectStores.ObjectStore, inode: nat, id: nat, steps: seq<Step>, parts0: seq<PartEntry>)
    returns (acc: Acc)
    modifies store.bucket
    ensures acc == Exec(Acc(old(store.bucket.State()), parts0, None), inode, id, store.blockSize, false, steps)
    ensures store.bucket.State() == acc.bk
  {
    ghost var goal := Exec(Acc(store.bucket.State(), parts0, None), inode, id, store.blockSize, false, steps);
    acc := Acc(store.bucket.State(), parts0, None);
    var j := 0;
    while j < |steps|
      invariant 0 <= j <= |steps|
      invariant acc.failed.None? && acc.bk == store.bucket.State()
      invariant Exec(acc, inode, id, store.blockSize, false, steps[j..]) == goal
    {
      assert steps[j..][1..] == steps[j + 1..];
      var st := steps[j];
      var data := store.GetDnode(inode, Some(st.index), st.log);
      if data.Err? {
        acc := acc.(failed := Some(data.failure));
        ExecFailed(acc, inode, id, store.blockSize, false, steps[j + 1..]);
        return;
      }
      var res := store.MultipartUploadDnode(inode, st.block, id, data.value, None);
      if res.None? {
        acc := Acc(store.bucket.State(), acc.parts, Some(Crash(NoneValue)));
        ExecFailed(acc, inode, id, store.blockSize, false, steps[j + 1..]);
        return;
      }
      acc := Acc(store.bucket.State(), acc.parts + [PartEntry(res.value.0, res.value.1)], None);
      j := j + 1;
    }
  }

  /** The loop of `merge_log_objects` over the fetched logs, as `LogPhase` states it. */
  method MergeLogs(store: ObjectStores.ObjectStore, inode: nat, id: nat, logs: seq<string>)
    returns (acc: Acc, claimed: set<nat>)
    modifies store.bucket
    ensures var (acc', claimed') := LogPhase(Acc(old(store.bucket.State()), [], None), inode, id, store.blockSize, false, logs, {});
      acc == acc' && (acc.failed.None? ==> claimed == claimed')
    ensures store.bucket.State() == acc.bk
  {
    acc := Acc(store.bucket.State(), [], None);
    ghost var acc0 := acc;
    claimed := {};
    var i := 0;
    while i < |logs|
      invariant 0 <= i <= |logs|
      invariant acc.failed.None? && acc.bk == store.bucket.State()
      invariant LogPhase(acc, inode, id, store.blockSize, false, logs[i..], claimed)
             == LogPhase(acc0, inode, id, store.blockSize, false, logs, {})
    {
      assert logs[i..][1..] == logs[i + 1..];
      var d := DecodeBlocks(logs[i]);
      if d.None? {
        acc := acc.(failed := Some(Crash(Malformed)));
        return;
      }
      acc := ExecSteps(store, inode, id, NewSteps(logs[i], d.value, claimed), acc.parts);
      claimed := claimed + Elements(d.value);
      if acc.failed.Some? {
        LogPhaseFailed(acc, inode, id, store.blockSize, false, logs[i + 1..], claimed);
        return;
      }
      i := i + 1;
    }
  }

  /** The last loop of `merge_log_objects`: each log object deleted and dequeued. */
  method DeleteAndDequeue(store: ObjectStores.ObjectStore, queue: MergeQueue, inode: nat, logs: seq<string>)
    modifies store.bucket, queue
    ensures (store.bucket.State(), queue.State()) == DeleteLogs(old(store.bucket.State()), old(queue.State()), inode, logs)
  {
    ghost var goal := DeleteLogs(store.bucket.State(), queue.State(), inode, logs);
    var j := 0;
    while j < |logs|
      invariant 0 <= j <= |logs|
      invariant DeleteLogs(store.bucket.State(), queue.State(), inode, logs[j..]) == goal
    {
      assert logs[j..][1..] == logs[j + 1..];
      store.DeleteDnode(inode, Some(logs[j]));
      queue.Remove(inode, logs[j]);
      j := j + 1;
    }
  }

  /** `merge_log_objects(fs, inode)`, sequential, as written. */
  method MergeLogObjects(store: ObjectStores.ObjectStore, queue: MergeQueue, inode: nat) returns (r: Outcome)
    modifies store.bucket, queue
    ensures (r, World(store.bucket.State(), queue.State()))
         == Merge(World(old(store.bucket.State()), old(queue.State())), inode, store.blockSize, AsWritten)
  {
    ghost var w := World(store.bucket.State(), queue.State());
    var logs := queue.Fetch(inode, DefaultStart, DefaultEnd);
    assert logs == Fetched(w, inode);
    var baseObj := store.Object(ObjectStores.Target(inode, None));
    var id := baseObj.InitiateMultipartUpload();
    ghost var bk0 := store.bucket.State();
    assert (id, bk0) == w.bucket.Initiate(ObjectStores.Target(inode, None));
    var acc, claimed := MergeLogs(store, inode, id, logs);
    assert Visit(logs, AsWritten) == logs;
    if acc.failed.Some? {
      return Fail(acc.failed.value);
    }
    ghost var acc1 := acc;
    assert Merge(w, inode, store.blockSize, AsWritten)
        == BasePhase(w.queues, inode, store.blockSize, AsWritten, id, logs, acc1, claimed);
    var size := store.DnodeSize(inode, None);
    if size.Err? {
      return Fail(size.failure);
    }
    var todo := SortedElements(BaseBlocks(size.value / store.blockSize, claimed, false));
    acc := ExecSteps(store, inode, id, BaseSteps(todo), acc.parts);
    if acc.failed.Some? {
      return Fail(acc.failed.value);
    }
    var list := SortParts(ByDictOrder, acc.parts);
    var completer := store.Object(ObjectStores.Target(inode, None));
    var accepted := completer.CompleteMultipartUpload(id, list);
    DeleteAndDequeue(store, queue, inode, logs);
    r := Done;
  }

  lemma {:induction false} ExecFailed(acc: Acc, inode: nat, id: nat, bs: BlockSize, exact: bool, steps: seq<Step>)
    requires acc.failed.Some?
    ensures Exec(acc, inode, id, bs, exact, steps) == acc
    decreases |steps|
  {
    if |steps| > 0 {
      ExecFailed(ExecStep(acc, inode, id, bs, exact, steps[0]), inode, id, bs, exact, steps[1..]);
    }
  }

  lemma {:induction false} LogPhaseFailed(acc: Acc, inode: nat, id: nat, bs: BlockSize, exact: bool, logs: seq<string>,
                                          claimed: set<nat>)
    requires acc.failed.Some?
    ensures LogPhase(acc, inode, id, bs, exact, logs, claimed).0 == acc
    decreases |logs|
  {
    if |logs| > 0 {
      match DecodeBlocks(logs[0])
      case None =>
      case Some(blocks) =>
        var steps := NewSteps(logs[0], blocks, claimed);
        ExecFailed(acc, inode, id, bs, exact, steps);
        LogPhaseFailed(acc, inode, id, bs, exact, logs[1..], claimed + Elements(blocks));
    }
  }

  // ---------------------------------------------------------------------------
  // The log loop is the plan, executed

  lemma {:induction false} ExecAppend(acc: Acc, inode: nat, id: nat, bs: BlockSize, exact: bool, a: seq<Step>, b: seq<Step>)
    ensures Exec(acc, inode, id, bs, exact, a + b) == Exec(Exec(acc, inode, id, bs, exact, a), inode, id, bs, exact, b)
    decreases |a|
  {
    if |a| == 0 {
      assert a + b == b;
    } else {
      assert (a + b)[0] == a[0] && (a + b)[1..] == a[1..] + b;
      ExecAppend(ExecStep(acc, inode, id, bs, exact, a[0]), inode, id, bs, exact, a[1..], b);
    }
  }

  /**
   * When every log name decodes, the loop over the logs uploads exactly the
   * plan's steps, in plan order, and claims every block the logs hold.
   */
  lemma {:induction false} LogPhaseIsPlan(acc: Acc, inode: nat, id: nat, bs: BlockSize, exact: bool, logs: seq<string>,
                                          decoded: seq<seq<nat>>, claimed: set<nat>)
    requires DecodesTo(logs, decoded)
    ensures LogPhase(acc, inode, id, bs, exact, logs, claimed)
         == (Exec(acc, inode, id, bs, exact, LogPlan(logs, decoded, claimed)), claimed + Claimed(decoded))
    decreases |logs|
  {
    if |logs| == 0 {
      assert decoded == [] && Claimed(decoded) == {};
      assert claimed + Claimed(decoded) == claimed;
    } else {
      var blocks := decoded[0];
      assert DecodeBlocks(logs[0]) == Some(blocks);
      forall i | 0 <= i < |logs[1..]| ensures DecodeBlocks(logs[1..][i]) == Some(decoded[1..][i]) {
        assert logs[1..][i] == logs[i + 1];
      }
      var steps := NewSteps(logs[0], blocks, claimed);
      var claimed' := claimed + Elements(blocks);
      LogPhaseIsPlan(Exec(acc, inode, id, bs, exact, steps), inode, id, bs, exact, logs[1..], decoded[1..], claimed');
      ExecAppend(acc, inode, id, bs, exact, steps, LogPlan(logs[1..], decoded[1..], claimed'));
      assert LogPlan(logs, decoded, claimed) == steps + LogPlan(logs[1..], decoded[1..], claimed');
      assert LogPhase(acc, inode, id, bs, exact, logs, claimed)
          == LogPhase(Exec(acc, inode, id, bs, exact, steps), inode, id, bs, exact, logs[1..], claimed');
      assert Claimed(decoded) == Elements(blocks) + Claimed(decoded[1..]);
      assert claimed + Claimed(decoded) == claimed' + Claimed(decoded[1..]);
    }
  }

  lemma DecodesReversed(logs: seq<string>, decoded: seq<seq<nat>>)
    requires DecodesTo(logs, decoded)
    ensures DecodesTo(Reverse(logs), Reverse(decoded))
  {
    var r := Reverse(logs);
    var rd := Reverse(decoded);
    forall i | 0 <= i < |r| ensures DecodeBlocks(r[i]) == Some(rd[i]) {
      assert r[i] == logs[|logs| - 1 - i];
      assert rd[i] == decoded[|logs| - 1 - i];
    }
  }

  // ---------------------------------------------------------------------------
  // Properties of the plan

  lemma NewStepsSpec(log: string, blocks: seq<nat>, claimed: set<nat>)
    ensures var a := NewSteps(log, blocks, claimed);
      && DistinctBlocks(a)
      && (forall b :: b in Blocks(a) <==> b in blocks && b !in claimed)
      && (forall i :: 0 <= i < |a| ==>
            a[i].block in blocks && a[i].block !in claimed && a[i].log == Some(log) && a[i].index == IndexOf(blocks, a[i].block))
  {
    var todo := SortedElements(Elements(blocks) - claimed);
    var a := NewSteps(log, blocks, claimed);
    assert Blocks(a) == todo;
    forall i | 0 <= i < |a| ensures a[i].block in blocks && a[i].block !in claimed {
      assert todo[i] in todo;
    }
  }

  /** Two plans with distinct blocks and no block in common concatenate into one with distinct blocks. */
  lemma DistinctConcat(a: seq<Step>, b: seq<Step>)
    requires DistinctBlocks(a) && DistinctBlocks(b)
    requires forall i, j :: 0 <= i < |a| && 0 <= j < |b| ==> a[i].block != b[j].block
    ensures DistinctBlocks(a + b) && Blocks(a + b) == Blocks(a) + Blocks(b)
  {
    var p := a + b;
    forall i, j | 0 <= i < j < |p| ensures p[i].block != p[j].block {
      if j < |a| {
        assert p[i] == a[i] && p[j] == a[j];
      } else if i < |a| {
        assert p[i] == a[i] && p[j] == b[j - |a|];
      } else {
        assert p[i] == b[i - |a|] && p[j] == b[j - |a|];
      }
    }
  }

  /** As written, the logs' plan uploads every block the logs hold, except those already claimed, exactly once. */
  lemma {:induction false} LogPlanBlocks(logs: seq<string>, decoded: seq<seq<nat>>, claimed: set<nat>)
    requires |logs| == |decoded|
    ensures var p := LogPlan(logs, decoded, claimed);
      && DistinctBlocks(p)
      && (forall b :: b in Blocks(p) <==> b in Claimed(decoded) && b !in claimed)
    decreases |logs|
  {
    if |logs| > 0 {
      var claimed' := claimed + Elements(decoded[0]);
      var a := NewSteps(logs[0], decoded[0], claimed);
      var rest := LogPlan(logs[1..], decoded[1..], claimed');
      NewStepsSpec(logs[0], decoded[0], claimed);
      LogPlanBlocks(logs[1..], decoded[1..], claimed');
      assert LogPlan(logs, decoded, claimed) == a + rest;
      forall i, j | 0 <= i < |a| && 0 <= j < |rest| ensures a[i].block != rest[j].block {
        assert rest[j].block in Blocks(rest);
      }
      DistinctConcat(a, rest);
      assert Claimed(decoded) == Elements(decoded[0]) + Claimed(decoded[1..]);
    }
  }

  /** Step `st` reads its block from the first of the logs that lists it, at the block's first position there. */
  predicate FromFirst(logs: seq<string>, decoded: seq<seq<nat>>, claimed: set<nat>, st: Step)
    requires |logs| == |decoded|
  {
    && st.block !in claimed
    && FirstWith(decoded, st.block) < |logs|
    && st.log == Some(logs[FirstWith(decoded, st.block)])
    && st.index == IndexOf(decoded[FirstWith(decoded, st.block)], st.block)
  }

  /**
   * As written, each block is taken from the first (oldest) fetched log that
   * lists it, at the position of its first occurrence in that log's name.
   */
  lemma {:induction false} LogPlanFirstWins(logs: seq<string>, decoded: seq<seq<nat>>, claimed: set<nat>)
    requires |logs| == |decoded|
    ensures forall i :: 0 <= i < |LogPlan(logs, decoded, claimed)| ==>
      FromFirst(logs, decoded, claimed, LogPlan(logs, decoded, claimed)[i])
    decreases |logs|
  {
    if |logs| > 0 {
      var claimed' := claimed + Elements(decoded[0]);
      var a := NewSteps(logs[0], decoded[0], claimed);
      var rest := LogPlan(logs[1..], decoded[1..], claimed');
      NewStepsSpec(logs[0], decoded[0], claimed);
      LogPlanFirstWins(logs[1..], decoded[1..], claimed');
      var p := a + rest;
      assert LogPlan(logs, decoded, claimed) == p;
      forall i | 0 <= i < |p| ensures FromFirst(logs, decoded, claimed, p[i]) {
        if i < |a| {
          assert p[i] == a[i];
          assert FirstWith(decoded, p[i].block) == 0;
        } else {
          var k := i - |a|;
          assert 0 <= k < |rest|;
          var st := rest[k];
          assert p[i] == st;
          assert FromFirst(logs[1..], decoded[1..], claimed', st);
          var b := st.block;
          assert b !in decoded[0];
          assert FirstWith(decoded, b) == 1 + FirstWith(decoded[1..], b);
          assert logs[1..][FirstWith(decoded[1..], b)] == logs[FirstWith(decoded, b)];
          assert decoded[1..][FirstWith(decoded[1..], b)] == decoded[FirstWith(decoded, b)];
        }
      }
    }
  }

  /** The first log of the reversed list that holds `b` is the last log of the list that does. */
  lemma FirstLastReverse(d: seq<seq<nat>>, b: nat)
    ensures var f := FirstWith(Reverse(d), b);
      var l := LastWith(d, b);
      (f < |d| <==> l < |d|) && (f < |d| ==> l == |d| - 1 - f)
  {
    var r := Reverse(d);
    var f := FirstWith(r, b);
    var l := LastWith(d, b);
    if f < |d| {
      assert r[f] == d[|d| - 1 - f];
      forall j | |d| - 1 - f < j < |d| ensures b !in d[j] {
        assert r[|d| - 1 - j] == d[j];
      }
    } else {
      forall j | 0 <= j < |d| ensures b !in d[j] {
        assert r[|d| - 1 - j] == d[j];
      }
    }
  }

  /**
   * Visiting the logs newest first, each block is taken from the last (newest)
   * fetched log that lists it, and every block the logs hold is uploaded once.
   */
  lemma NewestPlan(logs: seq<string>, decoded: seq<seq<nat>>)
    requires |logs| == |decoded|
    ensures var p := LogPlan(Reverse(logs), Reverse(decoded), {});
      && DistinctBlocks(p)
      && Claimed(Reverse(decoded)) == Claimed(decoded)
      && (forall b :: b in Blocks(p) <==> b in Claimed(decoded))
      && (forall i :: 0 <= i < |p| ==>
            && LastWith(decoded, p[i].block) < |logs|
            && p[i].log == Some(logs[LastWith(decoded, p[i].block)])
            && p[i].index == IndexOf(decoded[LastWith(decoded, p[i].block)], p[i].block))
  {
    var rl := Reverse(logs);
    var rd := Reverse(decoded);
    LogPlanBlocks(rl, rd, {});
    LogPlanFirstWins(rl, rd, {});
    var p := LogPlan(rl, rd, {});
    ClaimedReversed(decoded);
    assert forall b :: b in Claimed(rd) <==> b in Claimed(decoded);
    forall i | 0 <= i < |p|
      ensures && LastWith(decoded, p[i].block) < |logs|
              && p[i].log == Some(logs[LastWith(decoded, p[i].block)])
              && p[i].index == IndexOf(decoded[LastWith(decoded, p[i].block)], p[i].block)
    {
      var b := p[i].block;
      assert FromFirst(rl, rd, {}, p[i]);
      var f := FirstWith(rd, b);
      FirstLastReverse(decoded, b);
      assert rl[f] == logs[|logs| - 1 - f];
      assert rd[f] == decoded[|decoded| - 1 - f];
    }
  }

  /** The logs newest first list the same blocks between them. */
  lemma ClaimedReversed(decoded: seq<seq<nat>>)
    ensures Claimed(Reverse(decoded)) == Claimed(decoded)
  {
    forall b: nat ensures b in Claimed(Reverse(decoded)) <==> b in Claimed(decoded) {
      FirstLastReverse(decoded, b);
      var f := FirstWith(decoded, b);
      var l := LastWith(decoded, b);
      if l < |decoded| {
        assert b in decoded[l];
      }
    }
  }

  /** Base steps for blocks no earlier step holds keep the blocks of a plan distinct. */
  lemma PlanWithBase(a: seq<Step>, todo: seq<nat>)
    requires DistinctBlocks(a)
    requires forall i, j :: 0 <= i < j < |todo| ==> todo[i] < todo[j]
    requires forall b :: b in Blocks(a) ==> b !in todo
    ensures var p := a + BaseSteps(todo);
      DistinctBlocks(p) && forall b :: b in Blocks(p) <==> b in Blocks(a) || b in todo
  {
    var c := BaseSteps(todo);
    var p := a + c;
    assert Blocks(c) == todo;
    assert Blocks(p) == Blocks(a) + Blocks(c);
    forall i, j | 0 <= i < j < |p| ensures p[i].block != p[j].block {
      if j < |a| {
        assert p[i] == a[i] && p[j] == a[j];
      } else if i < |a| {
        assert p[i] == a[i] && p[i].block in Blocks(a);
        assert p[j] == c[j - |a|] && todo[j - |a|] in todo;
      } else {
        assert p[i] == c[i - |a|] && p[j] == c[j - |a|];
      }
    }
  }

  /**
   * Corrected plan: logs newest first, then the base blocks no log holds.
   * Every block of `range(n)` and every block a log holds is uploaded exactly once.
   */
  lemma CorrectedPlanCovers(logs: seq<string>, decoded: seq<seq<nat>>, n: nat)
    requires |logs| == |decoded|
    ensures var claimed := Claimed(Reverse(decoded));
      var p := LogPlan(Reverse(logs), Reverse(decoded), {}) + BaseSteps(SortedElements(BaseBlocks(n, claimed, true)));
      DistinctBlocks(p) && forall b: nat :: b in Blocks(p) <==> b in Claimed(decoded) || b < n
  {
    NewestPlan(logs, decoded);
    PlanWithBase(LogPlan(Reverse(logs), Reverse(decoded), {}), SortedElements(BaseBlocks(n, Claimed(Reverse(decoded)), true)));
  }

  /**
   * As written, when every block the logs hold lies below `n = size // B`,
   * the plan uploads each block of `range(n)` exactly once and nothing else.
   */
  lemma AsWrittenPlanCovers(logs: seq<string>, decoded: seq<seq<nat>>, n: nat)
    requires |logs| == |decoded|
    requires forall b :: b in Claimed(decoded) ==> b < n
    ensures var p := LogPlan(logs, decoded, {}) + BaseSteps(SortedElements(BaseBlocks(n, Claimed(decoded), false)));
      DistinctBlocks(p) && forall b: nat :: b in Blocks(p) <==> b < n
  {
    LogPlanBlocks(logs, decoded, {});
    PlanWithBase(LogPlan(logs, decoded, {}), SortedElements(BaseBlocks(n, Claimed(decoded), false)));
  }

  /**
   * As written, a block a log holds at or past `size // B` is in the symmetric
   * difference too, so the plan uploads it twice: from the log, and later from
   * the base object, whose part replaces the log's newer data (or, when the
   * block lies past the end of the base object, whose read fails the merge).
   */
  lemma SymmetricDifferenceRereads(logs: seq<string>, decoded: seq<seq<nat>>, n: nat, b: nat)
    requires |logs| == |decoded|
    requires b in Claimed(decoded) && b >= n
    ensures b in Blocks(LogPlan(logs, decoded, {}))
    ensures Step(b, None, b) in BaseSteps(SortedElements(BaseBlocks(n, Claimed(decoded), false)))
  {
    LogPlanBlocks(logs, decoded, {});
    var todo := SortedElements(BaseBlocks(n, Claimed(decoded), false));
    var k :| 0 <= k < |todo| && todo[k] == b;
    assert BaseSteps(todo)[k] == Step(b, None, b);
  }

  /** As written, of two logs that both hold block 1 the older one supplies it; visiting newest first, the newer one does. */
  lemma OldestLogWins()
    ensures LogPlan(["A", "B"], [[1], [1]], {}) == [Step(1, Some("A"), 0)]
    ensures LogPlan(Reverse(["A", "B"]), Reverse([[1], [1]]), {}) == [Step(1, Some("B"), 0)]
  {
    assert Elements([1]) == {1};
    assert SetMin({1}) == 1 && {1} - {1} == {};
    assert SortedElements({1}) == [1];
    assert Elements([1]) - {} == {1} && Elements([1]) - {1} == {};
    assert SortedElements({}) == [];
    assert IndexOf([1], 1) == 0;
    assert NewSteps("A", [1], {}) == [Step(1, Some("A"), 0)];
    assert NewSteps("B", [1], {1}) == [];
    assert LogPlan(["B"], [[1]], {1}) == [];
    assert Reverse(["A", "B"]) == ["B", "A"];
    assert Reverse([[1], [1]]) == [[1], [1]];
    assert NewSteps("B", [1], {}) == [Step(1, Some("B"), 0)];
    assert NewSteps("A", [1], {1}) == [];
    assert LogPlan(["A"], [[1]], {1}) == [];
  }

  // ---------------------------------------------------------------------------
  // The parallel merge: its plan and its completion order

  /**
   * The job tuple of `merge_log_object_parallel_worker`, without the
   * filesystem, inode and upload id every job shares: the block's position in
   * its log (None for a base block), the block, and the log (None for the base).
   */
  datatype WorkerArgs = WorkerArgs(index: Option<nat>, block: nat, log: Option<string>)

  /** The job of a step. */
  function StepArgs(st: Step): WorkerArgs
  {
    WorkerArgs(if st.log.Some? then Some(st.index) else None, st.block, st.log)
  }

  function ArgsOf(steps: seq<Step>): (r: seq<WorkerArgs>)
    ensures |r| == |steps| && forall i :: 0 <= i < |steps| ==> r[i] == StepArgs(steps[i])
  {
    if |steps| == 0 then [] else [StepArgs(steps[0])] + ArgsOf(steps[1..])
  }

  lemma ArgsOfAppend(a: seq<Step>, b: seq<Step>)
    ensures ArgsOf(a + b) == ArgsOf(a) + ArgsOf(b)
  {
    assert forall i :: 0 <= i < |a| ==> (a + b)[i] == a[i];
    assert forall i :: |a| <= i < |a| + |b| ==> (a + b)[i] == b[i - |a|];
  }

  lemma {:induction false} ClaimedAppend(d: seq<seq<nat>>, x: seq<nat>)
    ensures Claimed(d + [x]) == Claimed(d) + Elements(x)
    decreases |d|
  {
    if |d| == 0 {
      assert Claimed([x]) == Elements(x) + Claimed([]);
    } else {
      assert (d + [x])[0] == d[0] && (d + [x])[1..] == d[1..] + [x];
      ClaimedAppend(d[1..], x);
    }
  }

  lemma StepsAssoc(a: seq<Step>, b: seq<Step>, c: seq<Step>)
    ensures a + (b + c) == (a + b) + c
  {
  }

  /** The plan of one more log is the plan so far followed by that log's unclaimed blocks. */
  lemma {:induction false} LogPlanAppend(logs: seq<string>, decoded: seq<seq<nat>>, claimed: set<nat>, l: string, x: seq<nat>)
    requires |logs| == |decoded|
    ensures LogPlan(logs + [l], decoded + [x], claimed)
         == LogPlan(logs, decoded, claimed) + NewSteps(l, x, claimed + Claimed(decoded))
    decreases |logs|
  {
    var ls := logs + [l];
    var ds := decoded + [x];
    if |logs| == 0 {
      assert ls == [l] && ds == [x] && ls[1..] == [] && ds[1..] == [];
      assert LogPlan(ls, ds, claimed) == NewSteps(l, x, claimed) + LogPlan([], [], claimed + Elements(x));
      assert Claimed(decoded) == {};
      assert claimed + Claimed(decoded) == claimed;
    } else {
      var c' := claimed + Elements(decoded[0]);
      var head := NewSteps(logs[0], decoded[0], claimed);
      assert ls[0] == logs[0] && ls[1..] == logs[1..] + [l];
      assert ds[0] == decoded[0] && ds[1..] == decoded[1..] + [x];
      assert LogPlan(ls, ds, claimed) == head + LogPlan(logs[1..] + [l], decoded[1..] + [x], c');
      LogPlanAppend(logs[1..], decoded[1..], c', l, x);
      assert LogPlan(logs, decoded, claimed) == head + LogPlan(logs[1..], decoded[1..], c');
      assert Claimed(decoded) == Elements(decoded[0]) + Claimed(decoded[1..]);
      assert c' + Claimed(decoded[1..]) == claimed + Claimed(decoded);
      var mid := LogPlan(logs[1..], decoded[1..], c');
      var tail := NewSteps(l, x, claimed + Claimed(decoded));
      assert NewSteps(l, x, c' + Claimed(decoded[1..])) == tail;
      StepsAssoc(head, mid, tail);
    }
  }

  /**
   * The planning of `merge_log_objects_parallel`: one job per block a log
   * holds that no earlier log holds, in log order, then one per base block
   * of the symmetric difference. `baseSize` is `dnode_size(inode)`. The jobs
   * are exactly those of the sequential merge's plan, and a log name that
   * does not decode stops the planning.
   */
  method PlanParallelMerge(logs: seq<string>, baseSize: nat, bs: BlockSize) returns (r: Option<seq<WorkerArgs>>)
    ensures r.Some? <==> forall i :: 0 <= i < |logs| ==> DecodeBlocks(logs[i]).Some?
    ensures forall decoded :: DecodesTo(logs, decoded) ==>
      r == Some(ArgsOf(LogPlan(logs, decoded, {}) + BaseSteps(SortedElements(BaseBlocks(baseSize / bs, Claimed(decoded), false)))))
  {
    var fromLogs := LogsJobs(logs);
    if fromLogs.None? {
      return None;
    }
    var (args, claimed) := fromLogs.value;
    var todo := SortedElements(BaseBlocks(baseSize / bs, claimed, false));
    var b := BaseJobs(todo);
    r := Some(args + b);
    forall decoded | DecodesTo(logs, decoded)
      ensures r == Some(ArgsOf(LogPlan(logs, decoded, {}) + BaseSteps(SortedElements(BaseBlocks(baseSize / bs, Claimed(decoded), false)))))
    {
      ArgsOfAppend(LogPlan(logs, decoded, {}), BaseSteps(todo));
    }
  }

  /** The loop of `merge_log_objects_parallel` over the logs: the jobs of each log in turn, and the blocks the logs hold. */
  method LogsJobs(logs: seq<string>) returns (r: Option<(seq<WorkerArgs>, set<nat>)>)
    ensures r.Some? <==> forall i :: 0 <= i < |logs| ==> DecodeBlocks(logs[i]).Some?
    ensures forall decoded :: DecodesTo(logs, decoded) ==> r == Some((ArgsOf(LogPlan(logs, decoded, {})), Claimed(decoded)))
  {
    var args: seq<WorkerArgs> := [];
    var claimed: set<nat> := {};
    ghost var dec: seq<seq<nat>> := [];
    var i := 0;
    while i < |logs|
      invariant 0 <= i <= |logs|
      invariant DecodesTo(logs[..i], dec)
      invariant claimed == Claimed(dec)
      invariant args == ArgsOf(LogPlan(logs[..i], dec, {}))
    {
      var d := DecodeBlocks(logs[i]);
      if d.None? {
        return None;
      }
      var a := LogJobs(logs[i], d.value, SortedElements(Elements(d.value) - claimed));
      JobsStep(logs, i, dec, d.value);
      args := args + a;
      claimed := claimed + Elements(d.value);
      dec := dec + [d.value];
      i := i + 1;
    }
    assert logs[..i] == logs;
    r := Some((args, claimed));
    forall decoded | DecodesTo(logs, decoded) ensures decoded == dec {
      DecodesToUnique(logs, decoded, dec);
    }
  }

  /** One turn of the loop over the logs extends the decoded prefix, the claimed blocks and the plan by the next log. */
  lemma JobsStep(logs: seq<string>, i: nat, dec: seq<seq<nat>>, x: seq<nat>)
    requires i < |logs| && DecodesTo(logs[..i], dec) && DecodeBlocks(logs[i]) == Some(x)
    ensures DecodesTo(logs[..i + 1], dec + [x])
    ensures ArgsOf(LogPlan(logs[..i + 1], dec + [x], {}))
         == ArgsOf(LogPlan(logs[..i], dec, {})) + ArgsOf(LogSteps(logs[i], x, SortedElements(Elements(x) - Claimed(dec))))
    ensures Claimed(dec + [x]) == Claimed(dec) + Elements(x)
  {
    LogPlanAppend(logs[..i], dec, {}, logs[i], x);
    assert logs[..i + 1] == logs[..i] + [logs[i]];
    assert {} + Claimed(dec) == Claimed(dec);
    ArgsOfAppend(LogPlan(logs[..i], dec, {}), NewSteps(logs[i], x, Claimed(dec)));
    ClaimedAppend(dec, x);
  }

  /** The blocks a list of logs names are determined by the logs. */
  lemma DecodesToUnique(logs: seq<string>, d1: seq<seq<nat>>, d2: seq<seq<nat>>)
    requires DecodesTo(logs, d1) && DecodesTo(logs, d2)
    ensures d1 == d2
  {
    assert forall k :: 0 <= k < |logs| ==> d1[k] == d2[k];
  }

  /** The jobs of one log for the blocks `todo`, each with its first position in the log. */
  method LogJobs(log: string, blocks: seq<nat>, todo: seq<nat>) returns (a: seq<WorkerArgs>)
    ensures a == ArgsOf(LogSteps(log, blocks, todo))
  {
    ghost var goal := ArgsOf(LogSteps(log, blocks, todo));
    a := [];
    var j := 0;
    while j < |todo|
      invariant 0 <= j <= |todo|
      invariant a == goal[..j]
    {
      a := a + [WorkerArgs(Some(IndexOf(blocks, todo[j])), todo[j], Some(log))];
      assert goal[..j + 1] == goal[..j] + [goal[j]];
      j := j + 1;
    }
    assert goal[..j] == goal;
  }

  /** The jobs of the base blocks, in the given order. */
  method BaseJobs(todo: seq<nat>) returns (b: seq<WorkerArgs>)
    ensures b == ArgsOf(BaseSteps(todo))
  {
    ghost var goal := ArgsOf(BaseSteps(todo));
    b := [];
    var j := 0;
    while j < |todo|
      invariant 0 <= j <= |todo|
      invariant b == goal[..j]
    {
      b := b + [WorkerArgs(None, todo[j], None)];
      assert goal[..j + 1] == goal[..j] + [goal[j]];
      j := j + 1;
    }
    assert goal[..j] == goal;
  }

  /**
   * The completion list of the parallel merge, sorted by part number, is
   * strictly ascending, as S3 demands, when every job returned the part
   * number `block + 1` of its own block and the jobs' blocks are distinct:
   * by `AsWrittenPlanCovers`, whenever every block the logs hold lies below
   * `size // B`.
   */
  lemma ParallelListAscending(args: seq<WorkerArgs>, results: seq<PartEntry>)
    requires |results| == |args|
    requires forall i :: 0 <= i < |args| ==> results[i].partNumber == args[i].block + 1
    requires forall i, j :: 0 <= i < j < |args| ==> args[i].block != args[j].block
    ensures Ascending(SortParts(ByPartNumber, results))
    ensures multiset(SortParts(ByPartNumber, results)) == multiset(results)
  {
    assert DistinctParts(results);
    SortByPartAscending(results);
  }
}
