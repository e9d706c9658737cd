/**
 * Properties of the merge as a whole (objectfs/core/cache/cachetask.py,
 * `merge_log_objects`): what the executed plan leaves in the upload, that the
 * queue is consumed only by a finished merge, and that the corrected merge
 * commits the upload it opened.
 */
module CacheTaskLemmas {
  import opened Common
  import opened Strings
  import opened Objects
  import opened MergeQueues
  import opened CacheTasks
  import ObjectStores

  /** Upload `id` is open on `base`, and `parts` names distinct uploaded parts of it. */
  predicate Open(bk: Bucket, id: nat, base: string, parts: seq<PartEntry>)
  {
    id in bk.uploads && bk.uploads[id].key == base && Listed(bk.uploads[id], parts) && DistinctParts(parts)
  }

  /** No entry of `parts` is numbered `n`. */
  predicate Unlisted(parts: seq<PartEntry>, n: int)
  {
    forall j :: 0 <= j < |parts| ==> parts[j].partNumber != n
  }

  /** No step's part is among `parts` yet. */
  predicate AllUnlisted(parts: seq<PartEntry>, steps: seq<Step>)
  {
    forall i :: 0 <= i < |steps| ==> Unlisted(parts, steps[i].block + 1)
  }

  /** `parts2` is `parts` followed by one entry per step, in step order, numbered `block + 1`. */
  predicate NumberedAfter(parts: seq<PartEntry>, parts2: seq<PartEntry>, steps: seq<Step>)
  {
    && |parts2| == |parts| + |steps| && parts2[..|parts|] == parts
    && forall i :: 0 <= i < |steps| ==> parts2[|parts| + i].partNumber == steps[i].block + 1
  }

  /**
   * One step reads a block and uploads it as part `block + 1`: the objects
   * stay as they are; a successful read of a block with a valid part number
   * does not fail; and a step that does not fail extends the list by an
   * entry for that part, stores the bytes read there and keeps every other part.
   */
  lemma ExecStepOpen(acc: Acc, inode: nat, id: nat, bs: BlockSize, exact: bool, st: Step)
    requires acc.failed.None?
    requires Open(acc.bk, id, ObjectStores.Target(inode, None), acc.parts)
    requires Unlisted(acc.parts, st.block + 1)
    ensures var r := ExecStep(acc, inode, id, bs, exact, st);
      && r.bk.objects == acc.bk.objects
      && r.bk.uploads.Keys == acc.bk.uploads.Keys
      && ((acc.bk.Get(ObjectStores.Target(inode, st.log), Some(ReadRange(st.index, bs, exact))).Ok? && st.block < MaxPartNumber)
          ==> r.failed.None?)
      && (r.failed.None? ==>
            && Open(r.bk, id, ObjectStores.Target(inode, None), r.parts)
            && |r.parts| == |acc.parts| + 1 && r.parts[..|acc.parts|] == acc.parts
            && r.parts[|acc.parts|].partNumber == st.block + 1
            && acc.bk.Get(ObjectStores.Target(inode, st.log), Some(ReadRange(st.index, bs, exact))).Ok?
            && r.bk.uploads[id].parts[st.block + 1].data
               == acc.bk.Get(ObjectStores.Target(inode, st.log), Some(ReadRange(st.index, bs, exact))).value
            && (forall n :: n in acc.bk.uploads[id].parts && n != st.block + 1 ==>
                  n in r.bk.uploads[id].parts && r.bk.uploads[id].parts[n] == acc.bk.uploads[id].parts[n]))
  {
    var base := ObjectStores.Target(inode, None);
    var g := acc.bk.Get(ObjectStores.Target(inode, st.log), Some(ReadRange(st.index, bs, exact)));
    if g.Ok? {
      var data := g.value;
      UploadBlockSpec(acc.bk, base, st.block, id, data);
      var (res, bk') := UploadBlock(acc.bk, base, st.block, id, data);
      if res.Some? {
        UploadBlockListed(acc.bk, base, st.block, id, data);
        var e := PartEntry(res.value.0, res.value.1);
        var parts' := acc.parts + [e];
        assert ExecStep(acc, inode, id, bs, exact, st) == Acc(bk', parts', None);
        forall i | 0 <= i < |parts'|
          ensures parts'[i].partNumber in bk'.uploads[id].parts
          ensures Strip(parts'[i].etag, Quote) == bk'.uploads[id].parts[parts'[i].partNumber].etag
        {
          if i == |acc.parts| {
            assert parts'[i] == e;
          } else {
            assert parts'[i] == acc.parts[i];
          }
        }
        assert parts'[..|acc.parts|] == acc.parts;
      }
    }
  }

  /** The part of `ExecStepOpen` that the induction over the steps needs. */
  lemma StepKeepsOpen(acc: Acc, inode: nat, id: nat, bs: BlockSize, exact: bool, st: Step)
    requires acc.failed.None?
    requires Open(acc.bk, id, ObjectStores.Target(inode, None), acc.parts)
    requires Unlisted(acc.parts, st.block + 1)
    ensures var r := ExecStep(acc, inode, id, bs, exact, st);
      && r.bk.objects == acc.bk.objects
      && r.bk.uploads.Keys == acc.bk.uploads.Keys
      && (r.failed.None? ==>
            && Open(r.bk, id, ObjectStores.Target(inode, None), r.parts)
            && |r.parts| == |acc.parts| + 1 && r.parts[..|acc.parts|] == acc.parts
            && r.parts[|acc.parts|].partNumber == st.block + 1)
  {
    ExecStepOpen(acc, inode, id, bs, exact, st);
  }

  /**
   * Executing steps with distinct blocks, none of them already listed, keeps
   * the upload open and the objects as they are; when nothing fails, the list
   * gains one entry per step, in step order, numbered `block + 1`.
   */
  lemma {:induction false} ExecOpen(acc: Acc, inode: nat, id: nat, bs: BlockSize, exact: bool, steps: seq<Step>)
    requires acc.failed.None?
    requires Open(acc.bk, id, ObjectStores.Target(inode, None), acc.parts)
    requires DistinctBlocks(steps)
    requires AllUnlisted(acc.parts, steps)
    ensures var r := Exec(acc, inode, id, bs, exact, steps);
      && r.bk.objects == acc.bk.objects
      && r.bk.uploads.Keys == acc.bk.uploads.Keys
      && (r.failed.None? ==>
            Open(r.bk, id, ObjectStores.Target(inode, None), r.parts) && NumberedAfter(acc.parts, r.parts, steps))
    decreases |steps|
  {
    if |steps| > 0 {
      var a1 := ExecStep(acc, inode, id, bs, exact, steps[0]);
      StepKeepsOpen(acc, inode, id, bs, exact, steps[0]);
      assert Exec(acc, inode, id, bs, exact, steps) == Exec(a1, inode, id, bs, exact, steps[1..]);
      if a1.failed.Some? {
        ExecFailed(a1, inode, id, bs, exact, steps[1..]);
      } else {
        UnlistedRest(acc.parts, a1.parts, steps);
        ExecOpen(a1, inode, id, bs, exact, steps[1..]);
        var r := Exec(a1, inode, id, bs, exact, steps[1..]);
        if r.failed.None? {
          PartsAppended(acc.parts, a1.parts, r.parts, steps);
        }
      }
    }
  }

  /** After the first step adds its part, the remaining steps' parts are still unlisted. */
  lemma UnlistedRest(parts: seq<PartEntry>, parts1: seq<PartEntry>, steps: seq<Step>)
    requires |steps| > 0 && DistinctBlocks(steps)
    requires AllUnlisted(parts, steps)
    requires |parts1| == |parts| + 1 && parts1[..|parts|] == parts
    requires parts1[|parts|].partNumber == steps[0].block + 1
    ensures DistinctBlocks(steps[1..])
    ensures AllUnlisted(parts1, steps[1..])
  {
    forall i | 0 <= i < |steps[1..]| ensures Unlisted(parts1, steps[1..][i].block + 1) {
      assert steps[1..][i] == steps[i + 1];
      forall j | 0 <= j < |parts1| ensures parts1[j].partNumber != steps[i + 1].block + 1 {
        if j < |parts| {
          assert parts1[j] == parts[j];
        }
      }
    }
  }

  /** The parts of the first step and of the rest, in step order. */
  lemma PartsAppended(parts: seq<PartEntry>, parts1: seq<PartEntry>, parts2: seq<PartEntry>, steps: seq<Step>)
    requires |steps| > 0
    requires |parts1| == |parts| + 1 && parts1[..|parts|] == parts
    requires parts1[|parts|].partNumber == steps[0].block + 1
    requires NumberedAfter(parts1, parts2, steps[1..])
    ensures NumberedAfter(parts, parts2, steps)
  {
    assert parts2[..|parts|] == parts2[..|parts1|][..|parts|];
    forall i | 0 <= i < |steps| ensures parts2[|parts| + i].partNumber == steps[i].block + 1 {
      if i == 0 {
        assert parts2[|parts|] == parts2[..|parts1|][|parts|];
      } else {
        assert steps[1..][i - 1] == steps[i];
      }
    }
  }

  /** Every entry of a reordered list is listed when every entry of the original is. */
  lemma ListedReordered(u: Upload, parts: seq<PartEntry>, list: seq<PartEntry>)
    requires Listed(u, parts) && multiset(list) == multiset(parts)
    ensures Listed(u, list)
  {
    forall i | 0 <= i < |list|
      ensures list[i].partNumber in u.parts && Strip(list[i].etag, Quote) == u.parts[list[i].partNumber].etag
    {
      assert list[i] in multiset(parts);
      var k :| 0 <= k < |parts| && parts[k] == list[i];
    }
  }

  /** The names `delete_dnode` removes for the given logs. */
  function LogObjects(inode: nat, logs: seq<string>): set<string>
  {
    set l | l in logs :: ObjectStores.Target(inode, Some(l))
  }

  /**
   * Deleting and dequeuing the logs removes exactly their objects, touches no
   * upload, and removes each log's first occurrence from the queue in turn.
   */
  lemma {:induction false} DeleteLogsSpec(bk: Bucket, q: Queues, inode: nat, logs: seq<string>)
    ensures DeleteLogs(bk, q, inode, logs) == (bk.(objects := bk.objects - LogObjects(inode, logs)), RemoveEach(q, inode, logs))
    decreases |logs|
  {
    if |logs| == 0 {
      assert bk.objects - LogObjects(inode, logs) == bk.objects;
    } else {
      var t := ObjectStores.Target(inode, Some(logs[0]));
      DeleteLogsSpec(bk.Delete(t), q.Remove(inode, logs[0]), inode, logs[1..]);
      assert LogObjects(inode, logs) == {t} + LogObjects(inode, logs[1..]) by {
        forall o ensures o in LogObjects(inode, logs) <==> o in {t} + LogObjects(inode, logs[1..]) {
          if o in LogObjects(inode, logs) {
            var l :| l in logs && ObjectStores.Target(inode, Some(l)) == o;
            if l != logs[0] {
              assert l in logs[1..];
            }
          }
          if o in LogObjects(inode, logs[1..]) {
            var l :| l in logs[1..] && ObjectStores.Target(inode, Some(l)) == o;
            assert l in logs;
          }
        }
      }
      assert (bk.objects - {t}) - LogObjects(inode, logs[1..]) == bk.objects - LogObjects(inode, logs);
    }
  }

  /** Executing a plan uploads parts and never changes an object. */
  lemma {:induction false} ExecKeepsObjects(acc: Acc, inode: nat, id: nat, bs: BlockSize, exact: bool, steps: seq<Step>)
    ensures Exec(acc, inode, id, bs, exact, steps).bk.objects == acc.bk.objects
    decreases |steps|
  {
    if |steps| > 0 {
      var st := steps[0];
      if acc.failed.None? && acc.bk.Get(ObjectStores.Target(inode, st.log), Some(ReadRange(st.index, bs, exact))).Ok? {
        UploadBlockSpec(acc.bk, ObjectStores.Target(inode, None), st.block, id,
                        acc.bk.Get(ObjectStores.Target(inode, st.log), Some(ReadRange(st.index, bs, exact))).value);
      }
      ExecKeepsObjects(ExecStep(acc, inode, id, bs, exact, st), inode, id, bs, exact, steps[1..]);
    }
  }

  /** The loop over the logs never changes an object either. */
  lemma {:induction false} LogPhaseKeepsObjects(acc: Acc, inode: nat, id: nat, bs: BlockSize, exact: bool,
                                                logs: seq<string>, claimed: set<nat>)
    ensures LogPhase(acc, inode, id, bs, exact, logs, claimed).0.bk.objects == acc.bk.objects
    decreases |logs|
  {
    if |logs| > 0 {
      match DecodeBlocks(logs[0])
      case None =>
      case Some(blocks) =>
        var steps := NewSteps(logs[0], blocks, claimed);
        ExecKeepsObjects(acc, inode, id, bs, exact, steps);
        LogPhaseKeepsObjects(Exec(acc, inode, id, bs, exact, steps), inode, id, bs, exact, logs[1..], claimed + Elements(blocks));
    }
  }

  /**
   * The end of a merge: sort, complete, then delete and dequeue the logs.
   * With `commitFirst` the merge finishes exactly when S3 accepts the
   * completion, and a refusal fails it with the bucket and the queues as
   * they were: no log is deleted or dequeued. Without it (as written) the
   * merge always finishes and the logs go whether or not the upload was
   * committed. A finished merge removes the logs' objects and their first
   * queue entries, and an accepted completion replaces the base object by
   * the listed parts and closes the upload.
   */
  lemma FinishSpec(q: Queues, inode: nat, rules: Rules, id: nat, logs: seq<string>, acc2: Acc)
    ensures var (r, w') := Finish(q, inode, rules, id, logs, acc2);
      var base := ObjectStores.Target(inode, None);
      var list := SortParts(if rules.sortByPart then ByPartNumber else ByDictOrder, acc2.parts);
      var ok := acc2.bk.Completes(base, id, list);
      && (r.Done? <==> ok || !rules.commitFirst)
      && (r.Fail? ==> w' == World(acc2.bk, q))
      && (r.Done? ==>
            && w'.queues == RemoveEach(q, inode, logs)
            && w'.bucket.uploads == (if ok then acc2.bk.uploads - {id} else acc2.bk.uploads)
            && w'.bucket.objects
               == (if ok then acc2.bk.objects[base := Concat(PartData(acc2.bk.uploads[id], list))] else acc2.bk.objects)
                  - LogObjects(inode, logs))
  {
    var base := ObjectStores.Target(inode, None);
    var list := SortParts(if rules.sortByPart then ByPartNumber else ByDictOrder, acc2.parts);
    match acc2.bk.Complete(base, id, list)
    case Err(_) =>
      DeleteLogsSpec(acc2.bk, q, inode, logs);
    case Ok(bk3) =>
      DeleteLogsSpec(bk3, q, inode, logs);
  }

  /**
   * Under any rules, a merge that fails leaves every queue and every object as
   * it was, and a merge that finishes has consumed exactly the (at most six)
   * oldest queued logs: they are off the queue and their objects are gone,
   * while every other inode's queue is untouched.
   */
  lemma MergeConsumesFetched(w: World, inode: nat, bs: BlockSize, rules: Rules)
    ensures var (r, w') := Merge(w, inode, bs, rules);
      var logs := Fetched(w, inode);
      && |logs| <= 6
      && (r.Fail? ==> w'.queues == w.queues && w'.bucket.objects == w.bucket.objects)
      && (r.Done? ==>
            && logs == w.queues.Items(inode)[..|logs|]
            && w'.queues.Items(inode) == w.queues.Items(inode)[|logs|..]
            && (forall other :: other != inode ==> w'.queues.Items(other) == w.queues.Items(other))
            && (forall l :: l in logs ==> ObjectStores.Target(inode, Some(l)) !in w'.bucket.objects))
  {
    var logs := Fetched(w, inode);
    FetchDefault(w.queues, inode);
    var s := w.queues.Items(inode);
    assert logs == s[..|logs|];
    var (id, bk0) := w.bucket.Initiate(ObjectStores.Target(inode, None));
    var (acc1, claimed) := LogPhase(Acc(bk0, [], None), inode, id, bs, rules.exactRange, Visit(logs, rules), {});
    LogPhaseKeepsObjects(Acc(bk0, [], None), inode, id, bs, rules.exactRange, Visit(logs, rules), {});
    if acc1.failed.None? {
      assert Merge(w, inode, bs, rules) == BasePhase(w.queues, inode, bs, rules, id, logs, acc1, claimed);
      var base := ObjectStores.Target(inode, None);
      if base in acc1.bk.objects {
        var todo := SortedElements(BaseBlocks(|acc1.bk.objects[base]| / bs, claimed, rules.byDifference));
        var acc2 := Exec(acc1, inode, id, bs, rules.exactRange, BaseSteps(todo));
        ExecKeepsObjects(acc1, inode, id, bs, rules.exactRange, BaseSteps(todo));
        if acc2.failed.None? {
          assert Merge(w, inode, bs, rules) == Finish(w.queues, inode, rules, id, logs, acc2);
          FinishSpec(w.queues, inode, rules, id, logs, acc2);
          if Merge(w, inode, bs, rules).0.Done? {
            assert s == logs + s[|logs|..];
            RemovePrefix(w.queues, inode, logs, s[|logs|..]);
            forall other | other != inode
              ensures Merge(w, inode, bs, rules).1.queues.Items(other) == w.queues.Items(other)
            {
              RemoveEachOthers(w.queues, inode, logs, other);
            }
            forall l | l in logs ensures ObjectStores.Target(inode, Some(l)) !in Merge(w, inode, bs, rules).1.bucket.objects {
              assert ObjectStores.Target(inode, Some(l)) in LogObjects(inode, logs);
            }
          }
        }
      }
    }
  }

  /**
   * Uploading the blocks of a plan with distinct blocks into a fresh upload
   * leaves a part list that, sorted by part number, names uploaded parts in
   * ascending order; S3 accepts it exactly when every part but the last is
   * at least 5 MiB.
   */
  lemma ExecCompletes(acc0: Acc, inode: nat, id: nat, bs: BlockSize, p: seq<Step>)
    requires acc0.failed.None? && acc0.parts == []
    requires Open(acc0.bk, id, ObjectStores.Target(inode, None), [])
    requires DistinctBlocks(p) && |p| > 0
    requires Exec(acc0, inode, id, bs, true, p).failed.None?
    ensures var acc2 := Exec(acc0, inode, id, bs, true, p);
      var list := SortParts(ByPartNumber, acc2.parts);
      && Open(acc2.bk, id, ObjectStores.Target(inode, None), acc2.parts)
      && |list| == |p| && Ascending(list) && Listed(acc2.bk.uploads[id], list)
      && (acc2.bk.Completes(ObjectStores.Target(inode, None), id, list) <==> LargeEnough(PartData(acc2.bk.uploads[id], list)))
  {
    assert AllUnlisted(acc0.parts, p);
    ExecOpen(acc0, inode, id, bs, true, p);
    var acc2 := Exec(acc0, inode, id, bs, true, p);
    var list := SortParts(ByPartNumber, acc2.parts);
    SortByPartAscending(acc2.parts);
    ListedReordered(acc2.bk.uploads[id], acc2.parts, list);
  }

  /**
   * The corrected merge commits what it uploads: when no fetched log is
   * named like the base object, a finished merge has completed (and so
   * closed) the upload it opened, and the base object is there.
   */
  lemma CorrectedMergeCommits(w: World, inode: nat, bs: BlockSize)
    requires forall i :: 0 <= i < |Fetched(w, inode)| ==>
      ObjectStores.Target(inode, Some(Fetched(w, inode)[i])) != ObjectStores.Target(inode, None)
    ensures var (r, w') := Merge(w, inode, bs, Corrected);
      r.Done? ==> w.bucket.nextId !in w'.bucket.uploads && ObjectStores.Target(inode, None) in w'.bucket.objects
  {
    var logs := Fetched(w, inode);
    var base := ObjectStores.Target(inode, None);
    var (id, bk0) := w.bucket.Initiate(base);
    var (acc1, claimed) := LogPhase(Acc(bk0, [], None), inode, id, bs, true, Visit(logs, Corrected), {});
    if acc1.failed.None? {
      assert Merge(w, inode, bs, Corrected) == BasePhase(w.queues, inode, bs, Corrected, id, logs, acc1, claimed);
      if base in acc1.bk.objects {
        var todo := SortedElements(BaseBlocks(|acc1.bk.objects[base]| / bs, claimed, true));
        var acc2 := Exec(acc1, inode, id, bs, true, BaseSteps(todo));
        if acc2.failed.None? {
          assert Merge(w, inode, bs, Corrected) == Finish(w.queues, inode, Corrected, id, logs, acc2);
          FinishCommitted(w.queues, inode, id, logs, acc2);
        }
      }
    }
  }

  /** With the corrected rules, a finished end of the merge has committed the upload and kept the base object. */
  lemma FinishCommitted(q: Queues, inode: nat, id: nat, logs: seq<string>, acc2: Acc)
    requires forall i :: 0 <= i < |logs| ==> ObjectStores.Target(inode, Some(logs[i])) != ObjectStores.Target(inode, None)
    ensures var (r, w') := Finish(q, inode, Corrected, id, logs, acc2);
      r.Done? ==> id !in w'.bucket.uploads && ObjectStores.Target(inode, None) in w'.bucket.objects
  {
    FinishSpec(q, inode, Corrected, id, logs, acc2);
    assert ObjectStores.Target(inode, None) !in LogObjects(inode, logs);
  }

  // ---------------------------------------------------------------------------
  // What the corrected merge writes

  /** The bytes a step reads: block `index` of its log, or of the base object. */
  function StepRead(bk: Bucket, inode: nat, bs: BlockSize, exact: bool, st: Step): Result<Bytes>
  {
    bk.Get(ObjectStores.Target(inode, st.log), Some(ReadRange(st.index, bs, exact)))
  }

  /** Two buckets with the same objects read the same bytes. */
  lemma SameReads(bk1: Bucket, bk2: Bucket, inode: nat, bs: BlockSize, exact: bool, steps: seq<Step>)
    requires bk1.objects == bk2.objects
    ensures forall i :: 0 <= i < |steps| ==> StepRead(bk1, inode, bs, exact, steps[i]) == StepRead(bk2, inode, bs, exact, steps[i])
  {
  }

  /**
   * Executing steps with distinct blocks, none of them already listed, does
   * not fail when every step's read succeeds and names a valid part number.
   */
  lemma {:induction false} ExecSucceeds(acc: Acc, inode: nat, id: nat, bs: BlockSize, exact: bool, steps: seq<Step>)
    requires acc.failed.None?
    requires Open(acc.bk, id, ObjectStores.Target(inode, None), acc.parts)
    requires DistinctBlocks(steps) && AllUnlisted(acc.parts, steps)
    requires forall i :: 0 <= i < |steps| ==> StepRead(acc.bk, inode, bs, exact, steps[i]).Ok? && steps[i].block < MaxPartNumber
    ensures Exec(acc, inode, id, bs, exact, steps).failed.None?
    decreases |steps|
  {
    if |steps| > 0 {
      var a1 := ExecStep(acc, inode, id, bs, exact, steps[0]);
      ExecStepOpen(acc, inode, id, bs, exact, steps[0]);
      assert Exec(acc, inode, id, bs, exact, steps) == Exec(a1, inode, id, bs, exact, steps[1..]);
      UnlistedRest(acc.parts, a1.parts, steps);
      SameReads(a1.bk, acc.bk, inode, bs, exact, steps);
      assert forall i :: 0 <= i < |steps[1..]| ==> steps[1..][i] == steps[i + 1];
      ExecSucceeds(a1, inode, id, bs, exact, steps[1..]);
    }
  }

  /**
   * Executing steps with distinct blocks, none of them already listed: when
   * nothing fails, each step's block `b` sits in the upload as part `b + 1`
   * holding exactly the bytes that step read, and every part no step names
   * is kept.
   */
  lemma {:induction false} ExecParts(acc: Acc, inode: nat, id: nat, bs: BlockSize, exact: bool, steps: seq<Step>)
    requires acc.failed.None?
    requires Open(acc.bk, id, ObjectStores.Target(inode, None), acc.parts)
    requires DistinctBlocks(steps) && AllUnlisted(acc.parts, steps)
    requires Exec(acc, inode, id, bs, exact, steps).failed.None?
    ensures var r := Exec(acc, inode, id, bs, exact, steps);
      && id in r.bk.uploads
      && (forall i :: 0 <= i < |steps| ==> StepPart(acc.bk, r.bk, inode, id, bs, exact, steps[i]))
      && (forall n :: n in acc.bk.uploads[id].parts && Untouched(steps, n) ==>
            n in r.bk.uploads[id].parts && r.bk.uploads[id].parts[n] == acc.bk.uploads[id].parts[n])
    decreases |steps|
  {
    var r := Exec(acc, inode, id, bs, exact, steps);
    if |steps| == 0 {
      assert r == acc;
    } else {
      var st := steps[0];
      var a1 := ExecStep(acc, inode, id, bs, exact, st);
      ExecStepOpen(acc, inode, id, bs, exact, st);
      assert r == Exec(a1, inode, id, bs, exact, steps[1..]);
      if a1.failed.Some? {
        ExecFailed(a1, inode, id, bs, exact, steps[1..]);
      } else {
        UnlistedRest(acc.parts, a1.parts, steps);
        ExecParts(a1, inode, id, bs, exact, steps[1..]);
        FirstUntouched(steps);
        assert StepPart(acc.bk, r.bk, inode, id, bs, exact, st);
        StepPartsCons(acc.bk, a1.bk, r.bk, inode, id, bs, exact, steps);
        KeptCons(acc.bk.uploads[id].parts, a1.bk.uploads[id].parts, r.bk.uploads[id].parts, steps);
      }
    }
  }

  /** With distinct blocks, the first step's part number is untouched by the others. */
  lemma FirstUntouched(steps: seq<Step>)
    requires |steps| > 0 && DistinctBlocks(steps)
    ensures Untouched(steps[1..], steps[0].block + 1)
  {
    forall i | 0 <= i < |steps[1..]| ensures steps[1..][i].block + 1 != steps[0].block + 1 {
      assert steps[1..][i] == steps[i + 1];
    }
  }

  /**
   * The first step's part in `bk2`, and the other steps' parts read from
   * `bk1`, which holds the same objects as `bk0`: every step's part, read from `bk0`.
   */
  lemma StepPartsCons(bk0: Bucket, bk1: Bucket, bk2: Bucket, inode: nat, id: nat, bs: BlockSize, exact: bool, steps: seq<Step>)
    requires |steps| > 0 && bk1.objects == bk0.objects
    requires StepPart(bk0, bk2, inode, id, bs, exact, steps[0])
    requires forall i :: 0 <= i < |steps[1..]| ==> StepPart(bk1, bk2, inode, id, bs, exact, steps[1..][i])
    ensures forall i :: 0 <= i < |steps| ==> StepPart(bk0, bk2, inode, id, bs, exact, steps[i])
  {
    SameReads(bk1, bk0, inode, bs, exact, steps);
    forall i | 0 <= i < |steps| ensures StepPart(bk0, bk2, inode, id, bs, exact, steps[i]) {
      if i > 0 {
        assert steps[1..][i - 1] == steps[i];
      }
    }
  }

  /**
   * A first step that keeps every part but its own, then steps that keep
   * every part they do not name: every part no step names is kept.
   */
  lemma KeptCons(p0: map<int, Part>, p1: map<int, Part>, p2: map<int, Part>, steps: seq<Step>)
    requires |steps| > 0
    requires forall n :: n in p0 && n != steps[0].block + 1 ==> n in p1 && p1[n] == p0[n]
    requires forall n :: n in p1 && Untouched(steps[1..], n) ==> n in p2 && p2[n] == p1[n]
    ensures forall n :: n in p0 && Untouched(steps, n) ==> n in p2 && p2[n] == p0[n]
  {
    forall n | n in p0 && Untouched(steps, n) ensures n in p2 && p2[n] == p0[n] {
      assert n != steps[0].block + 1;
      assert Untouched(steps[1..], n) by {
        forall i | 0 <= i < |steps[1..]| ensures steps[1..][i].block + 1 != n {
          assert steps[1..][i] == steps[i + 1];
        }
      }
    }
  }

  /** The step's read succeeded, and its bytes are part `block + 1` of upload `id` in `bk'`. */
  predicate StepPart(bk: Bucket, bk': Bucket, inode: nat, id: nat, bs: BlockSize, exact: bool, st: Step)
  {
    && StepRead(bk, inode, bs, exact, st).Ok?
    && id in bk'.uploads && st.block + 1 in bk'.uploads[id].parts
    && bk'.uploads[id].parts[st.block + 1].data == StepRead(bk, inode, bs, exact, st).value
  }

  /** No step of `steps` uploads part `n`. */
  predicate Untouched(steps: seq<Step>, n: int)
  {
    forall i :: 0 <= i < |steps| ==> steps[i].block + 1 != n
  }
  /**
   * Block `k` as the corrected merge should leave it: the block at `k`'s
   * position in the name of the newest fetched log whose name lists `k`,
   * read from that log, or else the base object's own block `k`.
   */
  function MergedBlock(w: World, inode: nat, bs: BlockSize, decoded: seq<seq<nat>>, k: nat): Bytes
    requires |decoded| == |Fetched(w, inode)|
  {
    var logs := Fetched(w, inode);
    var j := LastWith(decoded, k);
    var name := if j < |logs| then ObjectStores.Target(inode, Some(logs[j])) else ObjectStores.Target(inode, None);
    var at := if j < |logs| then IndexOf(decoded[j], k) else k;
    Slice(if name in w.bucket.objects then w.bucket.objects[name] else [], at * bs, (at + 1) * bs)
  }

  /** Blocks `0` to `n - 1` as the corrected merge should leave them. */
  function MergedBlocks(w: World, inode: nat, bs: BlockSize, decoded: seq<seq<nat>>, n: nat): (ds: seq<Bytes>)
    requires |decoded| == |Fetched(w, inode)|
    ensures |ds| == n && forall k :: 0 <= k < n ==> ds[k] == MergedBlock(w, inode, bs, decoded, k)
  {
    if n == 0 then [] else MergedBlocks(w, inode, bs, decoded, n - 1) + [MergedBlock(w, inode, bs, decoded, n - 1)]
  }

  /**
   * A merge the store can carry out: the fetched log names decode to
   * `decoded`; the base object holds `n > 0` full blocks, no more than S3
   * has part numbers for, and every block a log lists is one of them; every
   * log is stored, is not named like the base object, and holds a full
   * block for each block its name lists.
   */
  predicate Mergeable(w: World, inode: nat, bs: BlockSize, decoded: seq<seq<nat>>)
  {
    var logs := Fetched(w, inode);
    var base := ObjectStores.Target(inode, None);
    && DecodesTo(logs, decoded)
    && base in w.bucket.objects
    && 0 < |w.bucket.objects[base]| / bs <= MaxPartNumber
    && (forall b :: b in Claimed(decoded) ==> b < |w.bucket.objects[base]| / bs)
    && (forall i :: 0 <= i < |logs| ==>
          && ObjectStores.Target(inode, Some(logs[i])) != base
          && ObjectStores.Target(inode, Some(logs[i])) in w.bucket.objects
          && |w.bucket.objects[ObjectStores.Target(inode, Some(logs[i]))]| >= |decoded[i]| * bs)
  }

  /** The number of full blocks of the base object. */
  function BaseCount(w: World, inode: nat, bs: BlockSize): nat
  {
    var base := ObjectStores.Target(inode, None);
    if base in w.bucket.objects then |w.bucket.objects[base]| / bs else 0
  }

  /** The corrected plan: the logs newest first, then the base blocks no log lists. */
  function CorrectedPlan(w: World, inode: nat, bs: BlockSize, decoded: seq<seq<nat>>): seq<Step>
    requires |decoded| == |Fetched(w, inode)|
  {
    var logs := Fetched(w, inode);
    LogPlan(Reverse(logs), Reverse(decoded), {})
      + BaseSteps(SortedElements(BaseBlocks(BaseCount(w, inode, bs), Claimed(Reverse(decoded)), true)))
  }

  /** What the corrected merge has uploaded when it reaches the completion. */
  function CorrectedAcc(w: World, inode: nat, bs: BlockSize, decoded: seq<seq<nat>>): Acc
    requires |decoded| == |Fetched(w, inode)|
  {
    var (id, bk0) := w.bucket.Initiate(ObjectStores.Target(inode, None));
    Exec(Acc(bk0, [], None), inode, id, bs, true, CorrectedPlan(w, inode, bs, decoded))
  }

  /** Block `at` of `count` full blocks lies inside an object of at least `count * bs` bytes. */
  lemma BlockWithin(at: nat, count: nat, bs: BlockSize, len: nat)
    requires at < count && count * bs <= len
    ensures at * bs < len && (at + 1) * bs <= len
  {
    assert count * bs == (at + 1) * bs + (count - at - 1) * bs;
  }

  /** The base object holds at least its full blocks. */
  lemma FullBlocks(len: nat, bs: BlockSize)
    ensures (len / bs) * bs <= len
  {
  }

  /** The corrected range reads block `at` of an object whole when the object holds it. */
  lemma CorrectedReadIsSlice(bk: Bucket, name: string, at: nat, bs: BlockSize)
    requires name in bk.objects && (at + 1) * bs <= |bk.objects[name]|
    ensures bk.Get(name, Some(CorrectedBlockRange(at, bs))) == Ok(Slice(bk.objects[name], at * bs, (at + 1) * bs))
    ensures |Slice(bk.objects[name], at * bs, (at + 1) * bs)| == bs
  {
    assert (at + 1) * bs == at * bs + bs;
  }

  /** A block no log lists is read from the base object. */
  lemma UnclaimedFromBase(decoded: seq<seq<nat>>, b: nat)
    requires b !in Claimed(decoded)
    ensures LastWith(decoded, b) == |decoded|
  {
    var f := FirstWith(decoded, b);
  }

  /**
   * A block some log lists is below `n`; read from the newest such log at
   * its position there, it is the merged block, and it is a full block.
   */
  lemma LogStepReads(w: World, inode: nat, bs: BlockSize, decoded: seq<seq<nat>>, b: nat)
    requires Mergeable(w, inode, bs, decoded)
    requires LastWith(decoded, b) < |decoded|
    ensures var logs := Fetched(w, inode);
      var j := LastWith(decoded, b);
      && b < BaseCount(w, inode, bs)
      && StepRead(w.bucket, inode, bs, true, Step(b, Some(logs[j]), IndexOf(decoded[j], b)))
         == Ok(MergedBlock(w, inode, bs, decoded, b))
      && |MergedBlock(w, inode, bs, decoded, b)| == bs
  {
    var logs := Fetched(w, inode);
    var j := LastWith(decoded, b);
    ListedClaimed(decoded, j, b);
    var name := ObjectStores.Target(inode, Some(logs[j]));
    assert name in w.bucket.objects && |w.bucket.objects[name]| >= |decoded[j]| * bs;
    LogReadMerged(w, inode, bs, decoded, b, j);
  }

  /** Read at its position in log `j`, the last listing it, block `b` is the merged block, a full one. */
  lemma LogReadMerged(w: World, inode: nat, bs: BlockSize, decoded: seq<seq<nat>>, b: nat, j: nat)
    requires |decoded| == |Fetched(w, inode)|
    requires j == LastWith(decoded, b) && j < |decoded|
    requires ObjectStores.Target(inode, Some(Fetched(w, inode)[j])) in w.bucket.objects
    requires |w.bucket.objects[ObjectStores.Target(inode, Some(Fetched(w, inode)[j]))]| >= |decoded[j]| * bs
    ensures StepRead(w.bucket, inode, bs, true, Step(b, Some(Fetched(w, inode)[j]), IndexOf(decoded[j], b)))
         == Ok(MergedBlock(w, inode, bs, decoded, b))
    ensures |MergedBlock(w, inode, bs, decoded, b)| == bs
  {
    LogSlotRead(w.bucket, inode, bs, Fetched(w, inode)[j], decoded[j], b);
    MergedBlockSource(w, inode, bs, decoded, b, j);
  }

  /** A block some log lists is claimed. */
  lemma ListedClaimed(decoded: seq<seq<nat>>, j: nat, b: nat)
    requires j < |decoded| && b in decoded[j]
    ensures b in Claimed(decoded)
  {
    var f := FirstWith(decoded, b);
  }

  /** Block `b`, listed in a log's name, read at its position there from a log holding a full block per name entry. */
  lemma LogSlotRead(bk: Bucket, inode: nat, bs: BlockSize, log: string, d: seq<nat>, b: nat)
    requires ObjectStores.Target(inode, Some(log)) in bk.objects
    requires |bk.objects[ObjectStores.Target(inode, Some(log))]| >= |d| * bs && b in d
    ensures var obj := bk.objects[ObjectStores.Target(inode, Some(log))];
      var at := IndexOf(d, b);
      && StepRead(bk, inode, bs, true, Step(b, Some(log), at)) == Ok(Slice(obj, at * bs, (at + 1) * bs))
      && |Slice(obj, at * bs, (at + 1) * bs)| == bs
  {
    var name := ObjectStores.Target(inode, Some(log));
    var at := IndexOf(d, b);
    BlockWithin(at, |d|, bs, |bk.objects[name]|);
    CorrectedReadIsSlice(bk, name, at, bs);
  }

  /** A block below `n` that no log lists, read from the base object, is the merged block, and a full one. */
  lemma BaseStepReads(w: World, inode: nat, bs: BlockSize, decoded: seq<seq<nat>>, b: nat)
    requires Mergeable(w, inode, bs, decoded)
    requires b < BaseCount(w, inode, bs) && b !in Claimed(decoded)
    ensures StepRead(w.bucket, inode, bs, true, Step(b, None, b)) == Ok(MergedBlock(w, inode, bs, decoded, b))
    ensures |MergedBlock(w, inode, bs, decoded, b)| == bs
  {
    var base := ObjectStores.Target(inode, None);
    UnclaimedFromBase(decoded, b);
    FullBlocks(|w.bucket.objects[base]|, bs);
    BlockWithin(b, BaseCount(w, inode, bs), bs, |w.bucket.objects[base]|);
    CorrectedReadIsSlice(w.bucket, base, b, bs);
  }

  /** Step `st` reads a block below `n`, and what it reads is that block as the merge should leave it, a full block. */
  predicate ReadsMerged(w: World, inode: nat, bs: BlockSize, decoded: seq<seq<nat>>, st: Step)
    requires |decoded| == |Fetched(w, inode)|
  {
    && st.block < BaseCount(w, inode, bs)
    && StepRead(w.bucket, inode, bs, true, st) == Ok(MergedBlock(w, inode, bs, decoded, st.block))
    && |MergedBlock(w, inode, bs, decoded, st.block)| == bs
  }

  /** Step `i` of the logs' part of the corrected plan reads its merged block. */
  lemma {:induction false} LogPlanStepReads(w: World, inode: nat, bs: BlockSize, decoded: seq<seq<nat>>, i: nat)
    requires Mergeable(w, inode, bs, decoded)
    requires i < |LogPlan(Reverse(Fetched(w, inode)), Reverse(decoded), {})|
    ensures ReadsMerged(w, inode, bs, decoded, LogPlan(Reverse(Fetched(w, inode)), Reverse(decoded), {})[i])
  {
    NewestPlan(Fetched(w, inode), decoded);
    LogStepReads(w, inode, bs, decoded, LogPlan(Reverse(Fetched(w, inode)), Reverse(decoded), {})[i].block);
  }

  /** Base step `k` of the corrected plan reads its merged block. */
  lemma {:induction false} BaseBlockReads(w: World, inode: nat, bs: BlockSize, decoded: seq<seq<nat>>, k: nat)
    requires Mergeable(w, inode, bs, decoded)
    requires k < |SortedElements(BaseBlocks(BaseCount(w, inode, bs), Claimed(Reverse(decoded)), true))|
    ensures var todo := SortedElements(BaseBlocks(BaseCount(w, inode, bs), Claimed(Reverse(decoded)), true));
      ReadsMerged(w, inode, bs, decoded, BaseSteps(todo)[k])
  {
    var todo := SortedElements(BaseBlocks(BaseCount(w, inode, bs), Claimed(Reverse(decoded)), true));
    assert todo[k] in todo;
    ClaimedReversed(decoded);
    BaseStepReads(w, inode, bs, decoded, todo[k]);
  }

  /** Step `i` of the corrected plan, one of the logs' steps, reads its merged block. */
  lemma {:induction false} PlanLogStepReads(w: World, inode: nat, bs: BlockSize, decoded: seq<seq<nat>>, i: nat)
    requires Mergeable(w, inode, bs, decoded)
    requires i < |LogPlan(Reverse(Fetched(w, inode)), Reverse(decoded), {})|
    ensures i < |CorrectedPlan(w, inode, bs, decoded)|
    ensures ReadsMerged(w, inode, bs, decoded, CorrectedPlan(w, inode, bs, decoded)[i])
  {
    var pl := LogPlan(Reverse(Fetched(w, inode)), Reverse(decoded), {});
    var todo := SortedElements(BaseBlocks(BaseCount(w, inode, bs), Claimed(Reverse(decoded)), true));
    var p := CorrectedPlan(w, inode, bs, decoded);
    assert p == pl + BaseSteps(todo);
    assert p[i] == pl[i];
    LogPlanStepReads(w, inode, bs, decoded, i);
  }

  /** Step `i` of the corrected plan, one of the base steps, reads its merged block. */
  lemma {:induction false} PlanBaseStepReads(w: World, inode: nat, bs: BlockSize, decoded: seq<seq<nat>>, i: nat)
    requires Mergeable(w, inode, bs, decoded)
    requires |LogPlan(Reverse(Fetched(w, inode)), Reverse(decoded), {})| <= i < |CorrectedPlan(w, inode, bs, decoded)|
    ensures ReadsMerged(w, inode, bs, decoded, CorrectedPlan(w, inode, bs, decoded)[i])
  {
    var pl := LogPlan(Reverse(Fetched(w, inode)), Reverse(decoded), {});
    var todo := SortedElements(BaseBlocks(BaseCount(w, inode, bs), Claimed(Reverse(decoded)), true));
    var p := CorrectedPlan(w, inode, bs, decoded);
    assert p == pl + BaseSteps(todo);
    var k := i - |pl|;
    BaseBlockReads(w, inode, bs, decoded, k);
    var st := BaseSteps(todo)[k];
    assert p[i] == st;
  }

  /**
   * The corrected plan of a mergeable inode uploads each block below `n`
   * exactly once, and every step reads its block as the merge should leave it.
   */
  lemma CorrectedPlanReads(w: World, inode: nat, bs: BlockSize, decoded: seq<seq<nat>>)
    requires Mergeable(w, inode, bs, decoded)
    ensures var p := CorrectedPlan(w, inode, bs, decoded);
      && DistinctBlocks(p)
      && (forall b: nat :: b in Blocks(p) <==> b < BaseCount(w, inode, bs))
      && forall i :: 0 <= i < |p| ==> ReadsMerged(w, inode, bs, decoded, p[i])
  {
    var p := CorrectedPlan(w, inode, bs, decoded);
    CorrectedPlanCovers(Fetched(w, inode), decoded, BaseCount(w, inode, bs));
    forall i | 0 <= i < |p| ensures ReadsMerged(w, inode, bs, decoded, p[i]) {
      if i < |LogPlan(Reverse(Fetched(w, inode)), Reverse(decoded), {})| {
        PlanLogStepReads(w, inode, bs, decoded, i);
      } else {
        PlanBaseStepReads(w, inode, bs, decoded, i);
      }
    }
  }

  /** In a strictly ascending list of positive part numbers, position `j` holds a number of at least `j + 1`. */
  lemma {:induction false} AscendingLower(list: seq<PartEntry>, j: nat)
    requires Ascending(list) && j < |list|
    requires forall i :: 0 <= i < |list| ==> 1 <= list[i].partNumber
    ensures list[j].partNumber >= j + 1
    decreases j
  {
    if j > 0 {
      AscendingLower(list, j - 1);
    }
  }

  /** Some entry of `list` is numbered `m`. */
  predicate HasPart(list: seq<PartEntry>, m: int)
  {
    exists i :: 0 <= i < |list| && list[i].partNumber == m
  }

  /** A strictly ascending list whose part numbers are exactly 1 to `n` holds part `k + 1` at position `k`. */
  lemma {:induction false} AscendingExact(list: seq<PartEntry>, n: nat, k: nat)
    requires Ascending(list)
    requires forall i :: 0 <= i < |list| ==> 1 <= list[i].partNumber <= n
    requires forall m :: 1 <= m <= n ==> HasPart(list, m)
    requires k < n
    ensures k < |list| && list[k].partNumber == k + 1
    decreases k
  {
    assert HasPart(list, k + 1);
    var i :| 0 <= i < |list| && list[i].partNumber == k + 1;
    if i < k {
      AscendingExact(list, n, i);
    } else if i > k {
      AscendingLower(list, k);
    }
  }

  /** Parts numbered after steps from an empty list number entry `t` by step `t`'s block. */
  lemma NumberedFromStart(parts: seq<PartEntry>, p: seq<Step>)
    requires NumberedAfter([], parts, p)
    ensures |parts| == |p| && forall t :: 0 <= t < |p| ==> parts[t].partNumber == p[t].block + 1
  {
    var none: seq<PartEntry> := [];
    forall t | 0 <= t < |p| ensures parts[t].partNumber == p[t].block + 1 {
      assert parts[|none| + t] == parts[t];
    }
  }

  /** Sorting parts numbered after steps whose blocks are below `n` keeps every number in `1` to `n`. */
  lemma SortedPartsBounded(parts: seq<PartEntry>, p: seq<Step>, n: nat)
    requires NumberedAfter([], parts, p)
    requires forall b: nat :: b in Blocks(p) ==> b < n
    ensures forall i :: 0 <= i < |SortParts(ByPartNumber, parts)| ==> 1 <= SortParts(ByPartNumber, parts)[i].partNumber <= n
  {
    NumberedFromStart(parts, p);
    PermutedBounded(parts, SortParts(ByPartNumber, parts), p, n);
  }

  /** A reordering of parts numbered one past blocks below `n` has every number in `1` to `n`. */
  lemma {:induction false} PermutedBounded(parts: seq<PartEntry>, list: seq<PartEntry>, p: seq<Step>, n: nat)
    requires multiset(list) == multiset(parts)
    requires |parts| == |p| && forall t :: 0 <= t < |p| ==> parts[t].partNumber == p[t].block + 1
    requires forall b: nat :: b in Blocks(p) ==> b < n
    ensures forall i :: 0 <= i < |list| ==> 1 <= list[i].partNumber <= n
  {
    forall i | 0 <= i < |list| ensures 1 <= list[i].partNumber <= n {
      assert list[i] in multiset(parts);
      var t :| 0 <= t < |parts| && parts[t] == list[i];
      assert p[t].block in Blocks(p);
    }
  }

  /** Sorting parts numbered after steps that cover blocks `0` to `n - 1` keeps a part numbered each of `1` to `n`. */
  lemma SortedPartsCover(parts: seq<PartEntry>, p: seq<Step>, n: nat)
    requires NumberedAfter([], parts, p)
    requires forall b: nat :: b < n ==> b in Blocks(p)
    ensures forall m :: 1 <= m <= n ==> HasPart(SortParts(ByPartNumber, parts), m)
  {
    NumberedFromStart(parts, p);
    PermutedCover(parts, SortParts(ByPartNumber, parts), p, n);
  }

  /** A reordering of parts numbered one past blocks covering `0` to `n - 1` has a part numbered each of `1` to `n`. */
  lemma {:induction false} PermutedCover(parts: seq<PartEntry>, list: seq<PartEntry>, p: seq<Step>, n: nat)
    requires multiset(list) == multiset(parts)
    requires |parts| == |p| && forall t :: 0 <= t < |p| ==> parts[t].partNumber == p[t].block + 1
    requires forall b: nat :: b < n ==> b in Blocks(p)
    ensures forall m :: 1 <= m <= n ==> HasPart(list, m)
  {
    forall m | 1 <= m <= n ensures HasPart(list, m) {
      assert (m - 1) in Blocks(p);
      var t :| 0 <= t < |p| && Blocks(p)[t] == m - 1;
      assert parts[t] in multiset(list);
      var i :| 0 <= i < |list| && list[i] == parts[t];
      assert list[i].partNumber == m;
    }
  }

  /**
   * Parts numbered one past the blocks of steps that cover blocks `0` to
   * `n - 1`, `n > 0`, sorted ascending, are numbered `1` to `n` in order.
   */
  lemma SortedPartsExact(parts: seq<PartEntry>, p: seq<Step>, n: nat)
    requires n > 0 && NumberedAfter([], parts, p)
    requires forall b: nat :: b in Blocks(p) <==> b < n
    requires Ascending(SortParts(ByPartNumber, parts))
    ensures var list := SortParts(ByPartNumber, parts);
      |list| == n && forall k :: 0 <= k < n ==> list[k].partNumber == k + 1
  {
    SortedPartsBounded(parts, p, n);
    SortedPartsCover(parts, p, n);
    ListExact(SortParts(ByPartNumber, parts), n);
  }

  /** A strictly ascending list whose part numbers are exactly `1` to `n`, `n > 0`, is `1` to `n` in order. */
  lemma ListExact(list: seq<PartEntry>, n: nat)
    requires n > 0 && Ascending(list)
    requires forall i :: 0 <= i < |list| ==> 1 <= list[i].partNumber <= n
    requires forall m :: 1 <= m <= n ==> HasPart(list, m)
    ensures |list| == n && forall k :: 0 <= k < n ==> list[k].partNumber == k + 1
  {
    AscendingExact(list, n, n - 1);
    AscendingLower(list, |list| - 1);
    forall k | 0 <= k < n ensures list[k].partNumber == k + 1 {
      AscendingExact(list, n, k);
    }
  }

  /**
   * The corrected plan of a mergeable inode runs without failing, leaves the
   * objects alone and numbers each step's block `b` as part `b + 1` holding
   * what that step read.
   */
  lemma CorrectedExec(w: World, inode: nat, bs: BlockSize, decoded: seq<seq<nat>>)
    requires Mergeable(w, inode, bs, decoded)
    ensures var acc2 := CorrectedAcc(w, inode, bs, decoded);
      var id := w.bucket.nextId;
      var p := CorrectedPlan(w, inode, bs, decoded);
      && acc2.failed.None?
      && acc2.bk.objects == w.bucket.objects
      && Open(acc2.bk, id, ObjectStores.Target(inode, None), acc2.parts)
      && NumberedAfter([], acc2.parts, p)
      && forall i :: 0 <= i < |p| ==> StepPart(w.bucket, acc2.bk, inode, id, bs, true, p[i])
  {
    var (id, bk0) := w.bucket.Initiate(ObjectStores.Target(inode, None));
    var acc0 := Acc(bk0, [], None);
    var p := CorrectedPlan(w, inode, bs, decoded);
    var acc2 := CorrectedAcc(w, inode, bs, decoded);
    CorrectedPlanReads(w, inode, bs, decoded);
    SameReads(bk0, w.bucket, inode, bs, true, p);
    assert AllUnlisted([], p);
    ExecSucceeds(acc0, inode, id, bs, true, p);
    ExecParts(acc0, inode, id, bs, true, p);
    ExecOpen(acc0, inode, id, bs, true, p);
    forall i | 0 <= i < |p| ensures StepPart(w.bucket, acc2.bk, inode, id, bs, true, p[i]) {
      assert StepPart(bk0, acc2.bk, inode, id, bs, true, p[i]);
    }
  }

  /** The logs' part of the corrected plan of a mergeable inode runs without failing and leaves the objects alone. */
  lemma CorrectedLogSteps(w: World, inode: nat, bs: BlockSize, decoded: seq<seq<nat>>)
    requires Mergeable(w, inode, bs, decoded)
    ensures var acc1 := Exec(Acc(w.bucket.Initiate(ObjectStores.Target(inode, None)).1, [], None), inode, w.bucket.nextId,
                             bs, true, LogPlan(Reverse(Fetched(w, inode)), Reverse(decoded), {}));
      acc1.failed.None? && acc1.bk.objects == w.bucket.objects
  {
    var (id, bk0) := w.bucket.Initiate(ObjectStores.Target(inode, None));
    var acc0 := Acc(bk0, [], None);
    var pl := LogPlan(Reverse(Fetched(w, inode)), Reverse(decoded), {});
    var bsteps := BaseSteps(SortedElements(BaseBlocks(BaseCount(w, inode, bs), Claimed(Reverse(decoded)), true)));
    assert CorrectedPlan(w, inode, bs, decoded) == pl + bsteps;
    CorrectedExec(w, inode, bs, decoded);
    ExecAppend(acc0, inode, id, bs, true, pl, bsteps);
    var acc1 := Exec(acc0, inode, id, bs, true, pl);
    if acc1.failed.Some? {
      ExecFailed(acc1, inode, id, bs, true, bsteps);
    }
    ExecKeepsObjects(acc0, inode, id, bs, true, pl);
  }

  /** The corrected merge of a mergeable inode runs the logs' part of the corrected plan and goes on to the base blocks. */
  lemma CorrectedLogPhase(w: World, inode: nat, bs: BlockSize, decoded: seq<seq<nat>>)
    requires Mergeable(w, inode, bs, decoded)
    ensures var (id, bk0) := w.bucket.Initiate(ObjectStores.Target(inode, None));
      var acc1 := Exec(Acc(bk0, [], None), inode, id, bs, true, LogPlan(Reverse(Fetched(w, inode)), Reverse(decoded), {}));
      Merge(w, inode, bs, Corrected)
        == BasePhase(w.queues, inode, bs, Corrected, id, Fetched(w, inode), acc1, Claimed(Reverse(decoded)))
  {
    var logs := Fetched(w, inode);
    var (id, bk0) := w.bucket.Initiate(ObjectStores.Target(inode, None));
    var acc0 := Acc(bk0, [], None);
    CorrectedLogSteps(w, inode, bs, decoded);
    DecodesReversed(logs, decoded);
    LogPhaseIsPlan(acc0, inode, id, bs, true, Reverse(logs), Reverse(decoded), {});
    assert {} + Claimed(Reverse(decoded)) == Claimed(Reverse(decoded));
  }

  /** The corrected merge of a mergeable inode runs the corrected plan and hands its result to the completion. */
  lemma CorrectedRun(w: World, inode: nat, bs: BlockSize, decoded: seq<seq<nat>>)
    requires Mergeable(w, inode, bs, decoded)
    ensures Merge(w, inode, bs, Corrected)
      == Finish(w.queues, inode, Corrected, w.bucket.nextId, Fetched(w, inode), CorrectedAcc(w, inode, bs, decoded))
  {
    var base := ObjectStores.Target(inode, None);
    var (id, bk0) := w.bucket.Initiate(base);
    var acc0 := Acc(bk0, [], None);
    var pl := LogPlan(Reverse(Fetched(w, inode)), Reverse(decoded), {});
    var claimed := Claimed(Reverse(decoded));
    var todo := SortedElements(BaseBlocks(BaseCount(w, inode, bs), claimed, true));
    assert CorrectedPlan(w, inode, bs, decoded) == pl + BaseSteps(todo);
    var acc1 := Exec(acc0, inode, id, bs, true, pl);
    CorrectedExec(w, inode, bs, decoded);
    CorrectedLogSteps(w, inode, bs, decoded);
    CorrectedLogPhase(w, inode, bs, decoded);
    ExecAppend(acc0, inode, id, bs, true, pl, BaseSteps(todo));
    assert base in acc1.bk.objects && |acc1.bk.objects[base]| / bs == BaseCount(w, inode, bs);
    assert Exec(acc1, inode, id, bs, true, BaseSteps(todo)) == CorrectedAcc(w, inode, bs, decoded);
  }

  /**
   * The list the corrected merge of a mergeable inode completes with has a
   * part for each step, is ascending and names uploaded parts, the upload is
   * open on the base object, and S3 accepts it exactly when its parts are
   * large enough.
   */
  lemma CorrectedCompletion(w: World, inode: nat, bs: BlockSize, decoded: seq<seq<nat>>)
    requires Mergeable(w, inode, bs, decoded)
    ensures var acc2 := CorrectedAcc(w, inode, bs, decoded);
      var id := w.bucket.nextId;
      var list := SortParts(ByPartNumber, acc2.parts);
      && Open(acc2.bk, id, ObjectStores.Target(inode, None), acc2.parts)
      && |list| == |CorrectedPlan(w, inode, bs, decoded)| && Ascending(list) && Listed(acc2.bk.uploads[id], list)
      && (acc2.bk.Completes(ObjectStores.Target(inode, None), id, list) <==> LargeEnough(PartData(acc2.bk.uploads[id], list)))
  {
    var id := w.bucket.nextId;
    var p := CorrectedPlan(w, inode, bs, decoded);
    CorrectedExec(w, inode, bs, decoded);
    CorrectedPlanReads(w, inode, bs, decoded);
    var (_, bk0) := w.bucket.Initiate(ObjectStores.Target(inode, None));
    assert 0 in Blocks(p);
    ExecCompletes(Acc(bk0, [], None), inode, id, bs, p);
  }

  /** The list the corrected merge of a mergeable inode completes with holds parts `1` to `n` in order. */
  lemma CorrectedNumbering(w: World, inode: nat, bs: BlockSize, decoded: seq<seq<nat>>)
    requires Mergeable(w, inode, bs, decoded)
    ensures |SortParts(ByPartNumber, CorrectedAcc(w, inode, bs, decoded).parts)| == BaseCount(w, inode, bs)
    ensures forall k :: 0 <= k < BaseCount(w, inode, bs) ==>
      SortParts(ByPartNumber, CorrectedAcc(w, inode, bs, decoded).parts)[k].partNumber == k + 1
  {
    CorrectedNumberedAfter(w, inode, bs, decoded);
    CorrectedPlanBlocks(w, inode, bs, decoded);
    CorrectedAscending(w, inode, bs, decoded);
    SortedPartsExact(CorrectedAcc(w, inode, bs, decoded).parts, CorrectedPlan(w, inode, bs, decoded), BaseCount(w, inode, bs));
  }

  /** The corrected merge's parts are numbered one past its plan's blocks, in plan order. */
  lemma CorrectedNumberedAfter(w: World, inode: nat, bs: BlockSize, decoded: seq<seq<nat>>)
    requires Mergeable(w, inode, bs, decoded)
    ensures NumberedAfter([], CorrectedAcc(w, inode, bs, decoded).parts, CorrectedPlan(w, inode, bs, decoded))
  {
    CorrectedExec(w, inode, bs, decoded);
  }

  /** The corrected plan's blocks are exactly those below `n`. */
  lemma CorrectedPlanBlocks(w: World, inode: nat, bs: BlockSize, decoded: seq<seq<nat>>)
    requires Mergeable(w, inode, bs, decoded)
    ensures forall b: nat :: b in Blocks(CorrectedPlan(w, inode, bs, decoded)) <==> b < BaseCount(w, inode, bs)
  {
    CorrectedPlanReads(w, inode, bs, decoded);
  }

  /** The corrected merge's list, sorted by part number, is ascending. */
  lemma CorrectedAscending(w: World, inode: nat, bs: BlockSize, decoded: seq<seq<nat>>)
    requires Mergeable(w, inode, bs, decoded)
    ensures Ascending(SortParts(ByPartNumber, CorrectedAcc(w, inode, bs, decoded).parts))
  {
    CorrectedCompletion(w, inode, bs, decoded);
  }

  /** Every block below `n` is the block of some step of the corrected plan. */
  lemma CorrectedCovers(w: World, inode: nat, bs: BlockSize, decoded: seq<seq<nat>>, k: nat)
    requires Mergeable(w, inode, bs, decoded)
    requires k < BaseCount(w, inode, bs)
    ensures k in Blocks(CorrectedPlan(w, inode, bs, decoded))
  {
    CorrectedPlanReads(w, inode, bs, decoded);
  }

  /** Step `t` of the corrected plan uploads what it reads as its part. */
  lemma CorrectedStepPart(w: World, inode: nat, bs: BlockSize, decoded: seq<seq<nat>>, t: nat)
    requires Mergeable(w, inode, bs, decoded)
    requires t < |CorrectedPlan(w, inode, bs, decoded)|
    ensures StepPart(w.bucket, CorrectedAcc(w, inode, bs, decoded).bk, inode, w.bucket.nextId, bs, true,
                     CorrectedPlan(w, inode, bs, decoded)[t])
  {
    CorrectedExec(w, inode, bs, decoded);
  }

  /** Step `t` of the corrected plan reads its merged block. */
  lemma CorrectedStepReads(w: World, inode: nat, bs: BlockSize, decoded: seq<seq<nat>>, t: nat)
    requires Mergeable(w, inode, bs, decoded)
    requires t < |CorrectedPlan(w, inode, bs, decoded)|
    ensures ReadsMerged(w, inode, bs, decoded, CorrectedPlan(w, inode, bs, decoded)[t])
  {
    CorrectedPlanReads(w, inode, bs, decoded);
  }

  /** A step for block `k` that uploaded what it read left it as part `k + 1`. */
  lemma StepPartAt(bk: Bucket, bk2: Bucket, inode: nat, id: nat, bs: BlockSize, exact: bool, st: Step, k: nat)
    requires StepPart(bk, bk2, inode, id, bs, exact, st) && st.block == k
    ensures id in bk2.uploads && k + 1 in bk2.uploads[id].parts
    ensures bk2.uploads[id].parts[k + 1].data == StepRead(bk, inode, bs, exact, st).value
  {
  }

  /** A step for block `k` that reads its merged block reads merged block `k`. */
  lemma ReadsMergedAt(w: World, inode: nat, bs: BlockSize, decoded: seq<seq<nat>>, st: Step, k: nat)
    requires |decoded| == |Fetched(w, inode)|
    requires ReadsMerged(w, inode, bs, decoded, st) && st.block == k
    ensures StepRead(w.bucket, inode, bs, true, st) == Ok(MergedBlock(w, inode, bs, decoded, k))
    ensures |MergedBlock(w, inode, bs, decoded, k)| == bs
  {
  }

  /** Part `k + 1` of upload `id` in `bk` holds `d`. */
  predicate HoldsBlock(bk: Bucket, id: nat, k: nat, d: Bytes)
  {
    id in bk.uploads && k + 1 in bk.uploads[id].parts && bk.uploads[id].parts[k + 1].data == d
  }

  /** Part `k + 1` of the corrected merge's upload holds merged block `k`, a full block. */
  lemma CorrectedPart(w: World, inode: nat, bs: BlockSize, decoded: seq<seq<nat>>, k: nat)
    requires Mergeable(w, inode, bs, decoded)
    requires k < BaseCount(w, inode, bs)
    ensures HoldsBlock(CorrectedAcc(w, inode, bs, decoded).bk, w.bucket.nextId, k, MergedBlock(w, inode, bs, decoded, k))
    ensures |MergedBlock(w, inode, bs, decoded, k)| == bs
  {
    var p := CorrectedPlan(w, inode, bs, decoded);
    CorrectedCovers(w, inode, bs, decoded, k);
    var t :| 0 <= t < |p| && Blocks(p)[t] == k;
    CorrectedStepPart(w, inode, bs, decoded, t);
    CorrectedStepReads(w, inode, bs, decoded, t);
    StepPartAt(w.bucket, CorrectedAcc(w, inode, bs, decoded).bk, inode, w.bucket.nextId, bs, true, p[t], k);
    ReadsMergedAt(w, inode, bs, decoded, p[t], k);
  }

  /**
   * The corrected merge of a mergeable inode uploads every block without
   * failing and reaches the completion with a list S3 can check: open on the
   * base object, ascending, naming uploaded parts, and whose parts are the
   * merged blocks `0` to `n - 1`, each a full block, in order.
   */
  lemma CorrectedMergeReachesFinish(w: World, inode: nat, bs: BlockSize, decoded: seq<seq<nat>>)
    requires Mergeable(w, inode, bs, decoded)
    ensures var acc2 := CorrectedAcc(w, inode, bs, decoded);
      var id := w.bucket.nextId;
      var base := ObjectStores.Target(inode, None);
      var list := SortParts(ByPartNumber, acc2.parts);
      var n := BaseCount(w, inode, bs);
      && acc2.failed.None?
      && Merge(w, inode, bs, Corrected) == Finish(w.queues, inode, Corrected, id, Fetched(w, inode), acc2)
      && acc2.bk.objects == w.bucket.objects
      && id in acc2.bk.uploads && acc2.bk.uploads[id].key == base
      && |list| == n && Ascending(list) && Listed(acc2.bk.uploads[id], list)
      && PartData(acc2.bk.uploads[id], list) == MergedBlocks(w, inode, bs, decoded, n)
      && (forall k :: 0 <= k < n ==> |MergedBlock(w, inode, bs, decoded, k)| == bs)
  {
    CorrectedUploadOpen(w, inode, bs, decoded);
    CorrectedRun(w, inode, bs, decoded);
    CorrectedNumbering(w, inode, bs, decoded);
    CorrectedAscending(w, inode, bs, decoded);
    CorrectedListed(w, inode, bs, decoded);
    CorrectedPartData(w, inode, bs, decoded);
    CorrectedFullBlocks(w, inode, bs, decoded);
  }

  /** The corrected merge uploads without failing, on the upload it opened on the base object, changing no object. */
  lemma CorrectedUploadOpen(w: World, inode: nat, bs: BlockSize, decoded: seq<seq<nat>>)
    requires Mergeable(w, inode, bs, decoded)
    ensures var acc2 := CorrectedAcc(w, inode, bs, decoded);
      && acc2.failed.None? && acc2.bk.objects == w.bucket.objects
      && w.bucket.nextId in acc2.bk.uploads && acc2.bk.uploads[w.bucket.nextId].key == ObjectStores.Target(inode, None)
  {
    CorrectedExec(w, inode, bs, decoded);
  }

  /** The corrected merge's sorted list names uploaded parts. */
  lemma CorrectedListed(w: World, inode: nat, bs: BlockSize, decoded: seq<seq<nat>>)
    requires Mergeable(w, inode, bs, decoded)
    ensures var acc2 := CorrectedAcc(w, inode, bs, decoded);
      w.bucket.nextId in acc2.bk.uploads && Listed(acc2.bk.uploads[w.bucket.nextId], SortParts(ByPartNumber, acc2.parts))
  {
    CorrectedCompletion(w, inode, bs, decoded);
  }

  /** The parts of the corrected merge's sorted list are the merged blocks `0` to `n - 1`. */
  lemma CorrectedPartData(w: World, inode: nat, bs: BlockSize, decoded: seq<seq<nat>>)
    requires Mergeable(w, inode, bs, decoded)
    ensures var acc2 := CorrectedAcc(w, inode, bs, decoded);
      && w.bucket.nextId in acc2.bk.uploads
      && Listed(acc2.bk.uploads[w.bucket.nextId], SortParts(ByPartNumber, acc2.parts))
      && PartData(acc2.bk.uploads[w.bucket.nextId], SortParts(ByPartNumber, acc2.parts))
         == MergedBlocks(w, inode, bs, decoded, BaseCount(w, inode, bs))
  {
    CorrectedListed(w, inode, bs, decoded);
    CorrectedNumbering(w, inode, bs, decoded);
    CorrectedParts(w, inode, bs, decoded);
    var acc2 := CorrectedAcc(w, inode, bs, decoded);
    PartsAreMerged(w, inode, bs, decoded, acc2.bk, w.bucket.nextId, SortParts(ByPartNumber, acc2.parts), BaseCount(w, inode, bs));
  }

  /** Every merged block below `n` is a full block. */
  lemma CorrectedFullBlocks(w: World, inode: nat, bs: BlockSize, decoded: seq<seq<nat>>)
    requires Mergeable(w, inode, bs, decoded)
    ensures forall k :: 0 <= k < BaseCount(w, inode, bs) ==> |MergedBlock(w, inode, bs, decoded, k)| == bs
  {
    forall k | 0 <= k < BaseCount(w, inode, bs) ensures |MergedBlock(w, inode, bs, decoded, k)| == bs {
      CorrectedPart(w, inode, bs, decoded, k);
    }
  }

  /** Part `k + 1` of the corrected merge's upload holds merged block `k`, for every `k` below `n`. */
  lemma CorrectedParts(w: World, inode: nat, bs: BlockSize, decoded: seq<seq<nat>>)
    requires Mergeable(w, inode, bs, decoded)
    ensures forall k: nat :: k < BaseCount(w, inode, bs) ==>
      HoldsBlock(CorrectedAcc(w, inode, bs, decoded).bk, w.bucket.nextId, k, MergedBlock(w, inode, bs, decoded, k))
  {
    forall k: nat | k < BaseCount(w, inode, bs) {
      CorrectedPart(w, inode, bs, decoded, k);
    }
  }

  /** A list numbering parts `1` to `n` in order, part `k + 1` holding merged block `k`, has the merged blocks as its data. */
  lemma PartsAreMerged(w: World, inode: nat, bs: BlockSize, decoded: seq<seq<nat>>, bk: Bucket, id: nat, list: seq<PartEntry>, n: nat)
    requires |decoded| == |Fetched(w, inode)|
    requires id in bk.uploads && Listed(bk.uploads[id], list) && |list| == n
    requires forall k :: 0 <= k < n ==> list[k].partNumber == k + 1
    requires forall k: nat :: k < n ==> HoldsBlock(bk, id, k, MergedBlock(w, inode, bs, decoded, k))
    ensures PartData(bk.uploads[id], list) == MergedBlocks(w, inode, bs, decoded, n)
  {
    assert forall k :: 0 <= k < n ==> bk.uploads[id].parts[list[k].partNumber].data == MergedBlock(w, inode, bs, decoded, k);
  }

  /**
   * Merged block `k`, described without `LastWith`: when log `j` lists `k`
   * and no later fetched log does, it is block `k`'s slot in log `j`; when
   * no log lists `k`, it is the base object's own block `k`.
   */
  lemma MergedBlockSource(w: World, inode: nat, bs: BlockSize, decoded: seq<seq<nat>>, k: nat, j: nat)
    requires |decoded| == |Fetched(w, inode)|
    requires j <= |decoded|
    requires j < |decoded| ==> k in decoded[j]
    requires forall i :: j < i < |decoded| ==> k !in decoded[i]
    requires j == |decoded| ==> forall i :: 0 <= i < |decoded| ==> k !in decoded[i]
    ensures var logs := Fetched(w, inode);
      var name := if j < |logs| then ObjectStores.Target(inode, Some(logs[j])) else ObjectStores.Target(inode, None);
      var at := if j < |logs| then IndexOf(decoded[j], k) else k;
      MergedBlock(w, inode, bs, decoded, k) == Slice(if name in w.bucket.objects then w.bucket.objects[name] else [], at * bs, (at + 1) * bs)
  {
    LastWithIs(decoded, k, j);
  }

  /** `j` is the last log listing `k`, or `|decoded|` when none does. */
  lemma LastWithIs(decoded: seq<seq<nat>>, k: nat, j: nat)
    requires j <= |decoded|
    requires j < |decoded| ==> k in decoded[j]
    requires forall i :: j < i < |decoded| ==> k !in decoded[i]
    requires j == |decoded| ==> forall i :: 0 <= i < |decoded| ==> k !in decoded[i]
    ensures LastWith(decoded, k) == j
  {
    var last := LastWith(decoded, k);
  }

  /** The base object of a mergeable inode is none of its logs' objects. */
  lemma BaseIsNoLog(w: World, inode: nat, bs: BlockSize, decoded: seq<seq<nat>>)
    requires Mergeable(w, inode, bs, decoded)
    ensures ObjectStores.Target(inode, None) !in LogObjects(inode, Fetched(w, inode))
  {
    var logs := Fetched(w, inode);
    forall l | l in logs ensures ObjectStores.Target(inode, Some(l)) != ObjectStores.Target(inode, None) {
      var i :| 0 <= i < |logs| && logs[i] == l;
    }
  }

  /** Merged blocks that are all full blocks of at least `MinPartSize` bytes are large enough to complete. */
  lemma MergedLargeEnough(w: World, inode: nat, bs: BlockSize, decoded: seq<seq<nat>>, n: nat)
    requires |decoded| == |Fetched(w, inode)| && bs >= MinPartSize
    requires forall k :: 0 <= k < n ==> |MergedBlock(w, inode, bs, decoded, k)| == bs
    ensures LargeEnough(MergedBlocks(w, inode, bs, decoded, n))
  {
  }

  /**
   * With blocks of at least `MinPartSize` bytes, the corrected merge of a
   * mergeable inode finishes: the upload is committed and closed, the base
   * object becomes the merged blocks `0` to `n - 1` in order, and the
   * fetched logs are deleted and dequeued; nothing else changes.
   */
  lemma CorrectedMergeContents(w: World, inode: nat, bs: BlockSize, decoded: seq<seq<nat>>)
    requires Mergeable(w, inode, bs, decoded) && bs >= MinPartSize
    ensures var (r, w') := Merge(w, inode, bs, Corrected);
      var base := ObjectStores.Target(inode, None);
      && r == Done
      && w'.queues == RemoveEach(w.queues, inode, Fetched(w, inode))
      && w.bucket.nextId !in w'.bucket.uploads
      && w'.bucket.objects
         == w.bucket.objects[base := Concat(MergedBlocks(w, inode, bs, decoded, BaseCount(w, inode, bs)))]
            - LogObjects(inode, Fetched(w, inode))
      && base in w'.bucket.objects
      && w'.bucket.objects[base] == Concat(MergedBlocks(w, inode, bs, decoded, BaseCount(w, inode, bs)))
  {
    var acc2 := CorrectedAcc(w, inode, bs, decoded);
    BaseIsNoLog(w, inode, bs, decoded);
    CorrectedMergeReachesFinish(w, inode, bs, decoded);
    CorrectedCompletion(w, inode, bs, decoded);
    MergedLargeEnough(w, inode, bs, decoded, BaseCount(w, inode, bs));
    FinishSpec(w.queues, inode, Corrected, w.bucket.nextId, Fetched(w, inode), acc2);
  }

  /** `obj` is the blocks `ds`, `bs` bytes each, one after the other: its block `k` is `ds[k]`. */
  predicate Blockwise(obj: Bytes, ds: seq<Bytes>, bs: BlockSize)
  {
    && |obj| == |ds| * bs
    && forall k :: 0 <= k < |ds| ==> k * bs + bs <= |obj| && obj[k * bs..k * bs + bs] == ds[k]
  }

  /** A concatenation of full blocks is those blocks one after the other. */
  lemma ConcatFullBlocks(ds: seq<Bytes>, bs: BlockSize)
    requires forall i :: 0 <= i < |ds| ==> |ds[i]| == bs
    ensures Blockwise(Concat(ds), ds, bs)
  {
    if |ds| > 0 {
      ConcatLength(ds, bs);
      assert (|ds| - 1) * bs + bs == |ds| * bs;
    }
    forall k | 0 <= k < |ds| ensures k * bs + bs <= |Concat(ds)| && Concat(ds)[k * bs..k * bs + bs] == ds[k] {
      FullBlockAt(ds, k, bs);
    }
  }

  /** Block `k` of a concatenation of full blocks is the `k`th block. */
  lemma FullBlockAt(ds: seq<Bytes>, k: nat, bs: BlockSize)
    requires forall i :: 0 <= i < |ds| ==> |ds[i]| == bs
    requires k < |ds|
    ensures k * bs + bs <= |Concat(ds)| && Concat(ds)[k * bs..k * bs + bs] == ds[k]
  {
    ConcatBlock(ds, k, bs);
  }

  /** Every merged block of a mergeable inode is a full block. */
  lemma MergedBlocksFull(w: World, inode: nat, bs: BlockSize, decoded: seq<seq<nat>>)
    requires Mergeable(w, inode, bs, decoded)
    ensures forall i :: 0 <= i < BaseCount(w, inode, bs) ==> |MergedBlocks(w, inode, bs, decoded, BaseCount(w, inode, bs))[i]| == bs
  {
    var ds := MergedBlocks(w, inode, bs, decoded, BaseCount(w, inode, bs));
    forall i | 0 <= i < |ds| ensures |ds[i]| == bs {
      CorrectedPart(w, inode, bs, decoded, i);
    }
  }

  /**
   * After the corrected merge of a mergeable inode with blocks of at least
   * `MinPartSize` bytes, the base object is the merged blocks `0` to `n - 1`,
   * one full block each: its block `k` is the newest fetched log's copy of
   * `k` when a log lists `k`, else the old base object's block `k`.
   */
  lemma CorrectedMergeBlocks(w: World, inode: nat, bs: BlockSize, decoded: seq<seq<nat>>)
    requires Mergeable(w, inode, bs, decoded) && bs >= MinPartSize
    ensures var w' := Merge(w, inode, bs, Corrected).1;
      var base := ObjectStores.Target(inode, None);
      && base in w'.bucket.objects
      && Blockwise(w'.bucket.objects[base], MergedBlocks(w, inode, bs, decoded, BaseCount(w, inode, bs)), bs)
  {
    CorrectedMergeContents(w, inode, bs, decoded);
    MergedBlocksFull(w, inode, bs, decoded);
    ConcatFullBlocks(MergedBlocks(w, inode, bs, decoded, BaseCount(w, inode, bs)), bs);
  }

  /**
   * With blocks under `MinPartSize` bytes and at least two of them, S3
   * refuses the corrected merge's completion, and the merge fails with every
   * object and every queue as it was: the logs are kept for the next try.
   */
  lemma CorrectedMergeRefusesSmall(w: World, inode: nat, bs: BlockSize, decoded: seq<seq<nat>>)
    requires Mergeable(w, inode, bs, decoded) && bs < MinPartSize && BaseCount(w, inode, bs) >= 2
    ensures var (r, w') := Merge(w, inode, bs, Corrected);
      && r == Fail(Crash(BackendError))
      && w'.queues == w.queues
      && w'.bucket.objects == w.bucket.objects
  {
    var acc2 := CorrectedAcc(w, inode, bs, decoded);
    var ds := MergedBlocks(w, inode, bs, decoded, BaseCount(w, inode, bs));
    CorrectedMergeReachesFinish(w, inode, bs, decoded);
    CorrectedCompletion(w, inode, bs, decoded);
    assert |ds[0]| == bs;
    assert !LargeEnough(ds);
  }

  // ---------------------------------------------------------------------------
  // One merge, as written and corrected

  /** A log of inode 7 holding block 1, written at time 5. */
  function ExampleLog(): string
  {
    FragmentMaps.LogKey(7, [1], 5)
  }

  /** `n` bytes of value `v`. */
  function Fill(n: nat, v: Byte): (r: Bytes)
    ensures |r| == n && forall i :: 0 <= i < n ==> r[i] == v
  {
    seq(n, _ => v)
  }

  /**
   * Inode 7 has a base object of two blocks of `bs` bytes (ones, then twos)
   * and one queued log holding a newer block 1 (nines).
   */
  function ExampleWorld(bs: BlockSize): World
  {
    World(Bucket(map["7" := Fill(bs, 1) + Fill(bs, 2), ExampleLog() := Fill(bs, 9)], map[], 0, 0),
          Queues(map[7 := [ExampleLog()]]))
  }

  /** What every merge of the example sees before its first upload. */
  lemma ExampleSetup(bs: BlockSize)
    ensures DecodeBlocks(ExampleLog()) == Some([1])
    ensures ExampleLog() != "7" && ObjectStores.Target(7, None) == "7"
    ensures ObjectStores.Target(7, Some(ExampleLog())) == ExampleLog()
    ensures Fetched(ExampleWorld(bs), 7) == [ExampleLog()]
    ensures NewSteps(ExampleLog(), [1], {}) == [Step(1, Some(ExampleLog()), 0)]
    ensures NatToString(0) == "0" && NatToString(1) == "1"
    ensures Strip(QuotedTag(0), Quote) == "0" && Strip(QuotedTag(1), Quote) == "1"
  {
    ExampleTags();
    DecodeLogName(7, [1], 5);
    FragmentMaps.LogKeyIsNotDecimal(7, [1], 5, 7);
    FetchDefault(ExampleWorld(bs).queues, 7);
    assert Elements([1]) - {} == {1};
    assert SetMin({1}) == 1 && {1} - {1} == {};
    assert SortedElements({1}) == [1];
  }

  /** The example's names and what its merge fetches. */
  lemma ExampleFetched(bs: BlockSize)
    ensures ExampleLog() != "7" && ObjectStores.Target(7, None) == "7"
    ensures ObjectStores.Target(7, Some(ExampleLog())) == ExampleLog()
    ensures Fetched(ExampleWorld(bs), 7) == [ExampleLog()]
  {
    ExampleLogIsNotBase();
    FetchDefault(ExampleWorld(bs).queues, 7);
  }

  /** The example's log is not named like the base object. */
  lemma ExampleLogIsNotBase()
    ensures ExampleLog() != "7"
  {
    FragmentMaps.LogKeyIsNotDecimal(7, [1], 5, 7);
  }

  /** The example's two ETags, as S3 returns them quoted and as the merge strips them. */
  lemma ExampleTags()
    ensures NatToString(0) == "0" && NatToString(1) == "1"
    ensures Strip(QuotedTag(0), Quote) == "0" && Strip(QuotedTag(1), Quote) == "1"
  {
    assert DigitChar(0) == '0' && DigitChar(1) == '1';
    StripQuoted("0", Quote);
    StripQuoted("1", Quote);
  }

  /** Two blocks of `bs` bytes are two blocks. */
  lemma TwoBlocks(bs: BlockSize)
    ensures (bs + bs) / bs == 2
  {
  }

  /** The example's base object holds two blocks, before and after the log's block is uploaded. */
  lemma ExampleTwoBlocks(bs: BlockSize)
    ensures "7" in ExampleWorld(bs).bucket.objects && |ExampleWorld(bs).bucket.objects["7"]| / bs == 2
    ensures ExampleAfterLog(bs).objects == ExampleWorld(bs).bucket.objects
  {
    TwoBlocks(bs);
    assert |ExampleWorld(bs).bucket.objects["7"]| == bs + bs;
  }

  /** The bucket once the example merge has opened its upload, as upload 0. */
  function ExampleOpened(bs: BlockSize): Bucket
  {
    ExampleWorld(bs).bucket.Initiate("7").1
  }

  /** The bucket once the log's block 1 is uploaded as part 2, under ETag `"0"`. */
  function ExampleAfterLog(bs: BlockSize): Bucket
  {
    ExampleOpened(bs).(uploads := map[0 := Upload("7", map[2 := Part("0", Fill(bs, 9))])], nextTag := 1)
  }

  /** The bucket once the base object's block 0, read as `d`, is uploaded as part 1, under ETag `"1"`. */
  function ExampleAfterBase(bs: BlockSize, d: Bytes): Bucket
  {
    ExampleAfterLog(bs).(uploads := map[0 := Upload("7", map[2 := Part("0", Fill(bs, 9)), 1 := Part("1", d)])], nextTag := 2)
  }

  /** The example's log block uploaded as part 2 under ETag `"0"`. */
  lemma ExampleLogUpload(bs: BlockSize)
    ensures UploadBlock(ExampleOpened(bs), "7", 1, 0, Fill(bs, 9)) == (Some(("0", 2)), ExampleAfterLog(bs))
  {
    ExampleTags();
    var bk0 := ExampleOpened(bs);
    var bk1 := ExampleAfterLog(bs);
    assert bk0.uploads == map[0 := Upload("7", map[])] && bk0.nextTag == 0;
    assert bk0.uploads[0 := Upload("7", map[][2 := Part(NatToString(0), Fill(bs, 9))])] == bk1.uploads;
    assert bk0.UploadPart("7", 0, 2, Fill(bs, 9)) == Ok((QuotedTag(0), bk1));
  }

  /** The example's log holds block 1 alone, and reading it, with either range, yields the whole block. */
  lemma ExampleLogRead(bs: BlockSize, exact: bool)
    ensures ExampleOpened(bs).Get(ObjectStores.Target(7, Some(ExampleLog())), Some(ReadRange(0, bs, exact))) == Ok(Fill(bs, 9))
  {
    ExampleSetup(bs);
    var bk0 := ExampleOpened(bs);
    assert bk0.objects[ExampleLog()] == Fill(bs, 9) && Fill(bs, 9)[0..bs] == Fill(bs, 9);
  }

  /** The example's loop over its one log, with either byte range. */
  lemma ExampleLogPhase(bs: BlockSize, exact: bool)
    ensures LogPhase(Acc(ExampleOpened(bs), [], None), 7, 0, bs, exact, [ExampleLog()], {})
         == (Acc(ExampleAfterLog(bs), [PartEntry("0", 2)], None), {1})
  {
    ExampleLogRead(bs, exact);
    ExampleLogUpload(bs);
    var log := ExampleLog();
    var acc0 := Acc(ExampleOpened(bs), [], None);
    var acc1 := Acc(ExampleAfterLog(bs), [PartEntry("0", 2)], None);
    assert ExecStep(acc0, 7, 0, bs, exact, Step(1, Some(log), 0)) == acc1 by {
      assert ObjectStores.Target(7, None) == "7" by { ExampleSetup(bs); }
    }
    assert Exec(acc0, 7, 0, bs, exact, [Step(1, Some(log), 0)]) == acc1;
    assert {} + Elements([1]) == {1};
    ExampleSetup(bs);
  }

  /** The example's base phase re-reads block 0 alone, under either rule for the base blocks. */
  lemma ExampleBaseBlocks(byDifference: bool)
    ensures SortedElements(BaseBlocks(2, {1}, byDifference)) == [0]
  {
    assert BaseBlocks(2, {1}, byDifference) == {0};
    assert SetMin({0}) == 0 && {0} - {0} == {};
  }

  /** What the example reads as block 0 of the base object: one byte too many with the `B + 1` range, the block with the corrected one. */
  function ExampleBaseBlock(bs: BlockSize, exact: bool): Bytes
  {
    if exact then Fill(bs, 1) else Fill(bs, 1) + [2]
  }

  /** Block 0 of the base object, read with either range. */
  lemma ExampleBaseRead(bs: BlockSize, exact: bool)
    ensures ExampleAfterLog(bs).Get("7", Some(ReadRange(0, bs, exact))) == Ok(ExampleBaseBlock(bs, exact))
  {
    var s := ExampleAfterLog(bs).objects["7"];
    assert s == Fill(bs, 1) + Fill(bs, 2);
    if exact {
      assert s[0..bs] == Fill(bs, 1);
    } else {
      assert s[0..bs + 1] == Fill(bs, 1) + [2];
    }
  }

  /** The bytes read from block 0, uploaded as part 1 under ETag `"1"`. */
  lemma ExampleBaseUpload(bs: BlockSize, d: Bytes)
    ensures UploadBlock(ExampleAfterLog(bs), "7", 0, 0, d) == (Some(("1", 1)), ExampleAfterBase(bs, d))
  {
    ExampleTags();
    var bk1 := ExampleAfterLog(bs);
    var bk2 := ExampleAfterBase(bs, d);
    assert bk1.uploads[0 := Upload("7", map[2 := Part("0", Fill(bs, 9))][1 := Part(NatToString(1), d)])] == bk2.uploads;
    assert bk1.UploadPart("7", 0, 1, d) == Ok((QuotedTag(1), bk2));
  }

  /** The upload of base block 0 under either byte range. */
  lemma ExampleBaseStep(bs: BlockSize, exact: bool)
    ensures Exec(Acc(ExampleAfterLog(bs), [PartEntry("0", 2)], None), 7, 0, bs, exact, BaseSteps([0]))
         == Acc(ExampleAfterBase(bs, ExampleBaseBlock(bs, exact)), ExampleParts, None)
  {
    var d := ExampleBaseBlock(bs, exact);
    ExampleBaseRead(bs, exact);
    ExampleBaseUpload(bs, d);
    var acc1 := Acc(ExampleAfterLog(bs), [PartEntry("0", 2)], None);
    assert BaseSteps([0]) == [Step(0, None, 0)];
    assert ExecStep(acc1, 7, 0, bs, exact, Step(0, None, 0)) == Acc(ExampleAfterBase(bs, d), ExampleParts, None);
  }

  /** The parts the example uploads, in upload order: the log's block 1, then the base object's block 0. */
  const ExampleParts: seq<PartEntry> := [PartEntry("0", 2), PartEntry("1", 1)]

  /** The example's base phase uploads block 0 and goes on to the completion. */
  lemma ExampleBasePhase(bs: BlockSize, rules: Rules)
    ensures BasePhase(ExampleWorld(bs).queues, 7, bs, rules, 0, [ExampleLog()],
                      Acc(ExampleAfterLog(bs), [PartEntry("0", 2)], None), {1})
         == Finish(ExampleWorld(bs).queues, 7, rules, 0, [ExampleLog()],
                   Acc(ExampleAfterBase(bs, ExampleBaseBlock(bs, rules.exactRange)), ExampleParts, None))
  {
    ExampleSetup(bs);
    ExampleBaseBlocks(rules.byDifference);
    ExampleBaseStep(bs, rules.exactRange);
    ExampleTwoBlocks(bs);
  }

  /** Both merges of the example reach the completion, with both parts uploaded. */
  lemma ExampleReachesFinish(bs: BlockSize, rules: Rules)
    requires rules == AsWritten || rules == Corrected
    ensures Merge(ExampleWorld(bs), 7, bs, rules)
         == Finish(ExampleWorld(bs).queues, 7, rules, 0, [ExampleLog()],
                   Acc(ExampleAfterBase(bs, ExampleBaseBlock(bs, rules.exactRange)), ExampleParts, None))
  {
    ExampleSetup(bs);
    ExampleLogPhase(bs, rules.exactRange);
    ExampleBasePhase(bs, rules);
    var w := ExampleWorld(bs);
    var log := ExampleLog();
    assert w.bucket.Initiate("7") == (0, ExampleOpened(bs));
    assert Visit([log], rules) == [log];
  }

  /** Deleting and dequeuing the example's log. */
  lemma ExampleDeleteLog(bs: BlockSize, bk: Bucket)
    ensures DeleteLogs(bk, ExampleWorld(bs).queues, 7, [ExampleLog()]) == (bk.Delete(ExampleLog()), Queues(map[]))
  {
    ExampleSetup(bs);
    var log := ExampleLog();
    var q := ExampleWorld(bs).queues;
    assert q.Items(7) == [log];
    assert RemoveFirst([log], log) == [];
    assert q.Remove(7, log) == Queues(map[]);
  }

  /** Python 2 sorts the example's list by ETag, keeping part 2 first; sorting by part number swaps the two. */
  lemma ExampleSorts()
    ensures SortParts(ByDictOrder, ExampleParts) == ExampleParts
    ensures SortParts(ByPartNumber, ExampleParts) == [PartEntry("1", 1), PartEntry("0", 2)]
  {
    assert StrLt("0", "1") && !StrLt("1", "0");
    assert ExampleParts[..1] == [PartEntry("0", 2)];
    assert SortParts(ByDictOrder, [PartEntry("0", 2)]) == [PartEntry("0", 2)];
    assert SortParts(ByPartNumber, [PartEntry("0", 2)]) == [PartEntry("0", 2)];
  }

  /** As written, the completion is refused, whatever the block size, and the log is deleted all the same. */
  lemma ExampleFinishAsWritten(bs: BlockSize)
    ensures var bk2 := ExampleAfterBase(bs, ExampleBaseBlock(bs, false));
      Finish(ExampleWorld(bs).queues, 7, AsWritten, 0, [ExampleLog()], Acc(bk2, ExampleParts, None))
        == (Done, World(bk2.Delete(ExampleLog()), Queues(map[])))
  {
    ExampleSorts();
    var bk2 := ExampleAfterBase(bs, ExampleBaseBlock(bs, false));
    ExampleDeleteLog(bs, bk2);
    assert !Ascending(ExampleParts);
    assert bk2.Complete("7", 0, ExampleParts).Err?;
  }

  /** Deleting the log from the uncommitted bucket leaves only the old base object. */
  lemma ExampleUncommittedObjects(bs: BlockSize)
    ensures ExampleAfterBase(bs, ExampleBaseBlock(bs, false)).Delete(ExampleLog()).objects == map["7" := Fill(bs, 1) + Fill(bs, 2)]
  {
    ExampleLogIsNotBase();
    var log := ExampleLog();
    var m := ExampleAfterBase(bs, ExampleBaseBlock(bs, false)).objects;
    assert m == map["7" := Fill(bs, 1) + Fill(bs, 2), log := Fill(bs, 9)];
    assert m.Keys == {"7", log};
  }

  /**
   * As written, the example merge finishes, yet its completion list is in
   * ETag order and S3 refuses it: the upload stays open, the base object
   * keeps its old bytes, and the log, whose bytes were the only copy of the
   * newer block 1, is deleted and dequeued. The model's ETags count uploads,
   * so the log's part 2 is tagged `"0"`, the base's part 1 `"1"`, and the
   * sort keeps part 2 first for every block size; `SmallPartsLoseLog` states
   * the loss for any ETags.
   */
  lemma MergeLosesLog(bs: BlockSize)
    ensures var (r, w') := Merge(ExampleWorld(bs), 7, bs, AsWritten);
      && r == Done
      && w'.bucket.objects == map["7" := Fill(bs, 1) + Fill(bs, 2)]
      && 0 in w'.bucket.uploads
      && w'.queues.Items(7) == []
  {
    ExampleReachesFinish(bs, AsWritten);
    ExampleFinishAsWritten(bs);
    ExampleUncommittedObjects(bs);
    assert Queues(map[]).Items(7) == [];
  }

  /** The example's bucket at the completion, its two parts tagged `e1` and `e2` instead of by the upload counter. */
  function ExampleTagged(bs: BlockSize, e1: string, e2: string): Bucket
  {
    ExampleAfterBase(bs, ExampleBaseBlock(bs, false))
      .(uploads := map[0 := Upload("7", map[2 := Part(e2, Fill(bs, 9)), 1 := Part(e1, ExampleBaseBlock(bs, false))])])
  }

  /**
   * Whatever ETags S3 gives the two parts, and so whichever order the sort
   * by ETag leaves them in, S3 refuses the example's completion when a block
   * is under 5 MiB: part 2 first is out of order, and part 1 first is a
   * non-last part of `bs + 1` bytes. The as-written merge deletes and
   * dequeues the log all the same, and the base object keeps its old bytes.
   */
  lemma SmallPartsLoseLog(bs: BlockSize, e1: string, e2: string, t1: string, t2: string)
    requires bs + 1 < MinPartSize
    ensures var (r, w') := Finish(ExampleWorld(bs).queues, 7, AsWritten, 0, [ExampleLog()],
                                  Acc(ExampleTagged(bs, e1, e2), [PartEntry(t2, 2), PartEntry(t1, 1)], None));
      && r == Done
      && w'.bucket.objects == map["7" := Fill(bs, 1) + Fill(bs, 2)]
      && 0 in w'.bucket.uploads
      && w'.queues.Items(7) == []
  {
    var bk := ExampleTagged(bs, e1, e2);
    var parts := [PartEntry(t2, 2), PartEntry(t1, 1)];
    var list := SortParts(ByDictOrder, parts);
    assert bk.uploads[0].parts[1].data == ExampleBaseBlock(bs, false);
    TwoPartsRefused(bk, "7", 0, parts[0], parts[1], list);
    ExampleSetup(bs);
    assert bk.Complete("7", 0, list).Err?;
    ExampleDeleteLog(bs, bk);
    ExampleUncommittedObjects(bs);
    assert bk.Delete(ExampleLog()).objects == ExampleAfterBase(bs, ExampleBaseBlock(bs, false)).Delete(ExampleLog()).objects;
    assert Queues(map[]).Items(7) == [];
  }

  /** Two parts whose lower-numbered one is under 5 MiB cannot be completed, in either order. */
  lemma TwoPartsRefused(bk: Bucket, name: string, id: nat, a: PartEntry, b: PartEntry, list: seq<PartEntry>)
    requires id in bk.uploads && b.partNumber < a.partNumber
    requires b.partNumber in bk.uploads[id].parts && |bk.uploads[id].parts[b.partNumber].data| < MinPartSize
    requires |list| == 2 && multiset(list) == multiset([a, b])
    ensures !bk.Completes(name, id, list)
  {
    assert list[0] in multiset(list) && list[1] in multiset(list);
    if Ascending(list) && Listed(bk.uploads[id], list) {
      assert list[0] == b;
      assert !LargeEnough(PartData(bk.uploads[id], list));
    }
  }

  /** The example can be merged: its log decodes to block 1, and the base object holds two full blocks. */
  lemma ExampleMergeable(bs: BlockSize)
    ensures Mergeable(ExampleWorld(bs), 7, bs, [[1]])
    ensures BaseCount(ExampleWorld(bs), 7, bs) == 2
  {
    var w := ExampleWorld(bs);
    var log := ExampleLog();
    ExampleSetup(bs);
    ExampleTwoBlocks(bs);
    assert DecodesTo([log], [[1]]);
    assert Claimed([[1]]) == {1} by {
      assert Claimed([[1]][1..]) == {};
    }
    assert |w.bucket.objects[log]| >= |[1]| * bs;
  }

  /** The example's merged blocks: the base object's block 0, then the log's block 1. */
  lemma ExampleMerged(bs: BlockSize)
    ensures MergedBlocks(ExampleWorld(bs), 7, bs, [[1]], 2) == [Fill(bs, 1), Fill(bs, 9)]
  {
    ExampleBaseMerged(bs);
    ExampleLogMerged(bs);
    var ds := MergedBlocks(ExampleWorld(bs), 7, bs, [[1]], 2);
    assert ds[0] == Fill(bs, 1) && ds[1] == Fill(bs, 9);
  }

  /** Block 0, which the log does not list, merges to the base object's block 0. */
  lemma ExampleBaseMerged(bs: BlockSize)
    ensures |[[1]]| == |Fetched(ExampleWorld(bs), 7)|
    ensures MergedBlock(ExampleWorld(bs), 7, bs, [[1]], 0) == Fill(bs, 1)
  {
    ExampleFetched(bs);
    MergedBlockSource(ExampleWorld(bs), 7, bs, [[1]], 0, 1);
    ExampleSlices(bs);
  }

  /** Block 1 merges to the log's only block. */
  lemma ExampleLogMerged(bs: BlockSize)
    ensures |[[1]]| == |Fetched(ExampleWorld(bs), 7)|
    ensures MergedBlock(ExampleWorld(bs), 7, bs, [[1]], 1) == Fill(bs, 9)
  {
    ExampleFetched(bs);
    MergedBlockSource(ExampleWorld(bs), 7, bs, [[1]], 1, 0);
    assert IndexOf([1], 1) == 0;
    ExampleSlices(bs);
  }

  /** The first block of the example's base object and of its log. */
  lemma ExampleSlices(bs: BlockSize)
    ensures Slice(Fill(bs, 1) + Fill(bs, 2), 0 * bs, (0 + 1) * bs) == Fill(bs, 1)
    ensures Slice(Fill(bs, 9), 0 * bs, (0 + 1) * bs) == Fill(bs, 9)
  {
  }

  /**
   * The corrected merge of the same example, with blocks S3 accepts, commits
   * the upload: the base object becomes its block 0 followed by the log's
   * block 1, and the log is deleted and dequeued.
   */
  lemma CorrectedMergeKeepsLog(bs: BlockSize)
    requires bs >= MinPartSize
    ensures var (r, w') := Merge(ExampleWorld(bs), 7, bs, Corrected);
      && r == Done
      && w'.bucket.objects == map["7" := Fill(bs, 1) + Fill(bs, 9)]
      && 0 !in w'.bucket.uploads
      && w'.queues.Items(7) == []
  {
    var w := ExampleWorld(bs);
    ExampleMergeable(bs);
    ExampleMerged(bs);
    CorrectedMergeContents(w, 7, bs, [[1]]);
    ExampleSetup(bs);
    ExampleCommittedObjects(bs);
    ExampleDequeued(bs);
  }

  /** Committing the merged blocks and deleting the log leaves the merged base object alone. */
  lemma ExampleCommittedObjects(bs: BlockSize)
    ensures ExampleWorld(bs).bucket.objects["7" := Concat([Fill(bs, 1), Fill(bs, 9)])] - LogObjects(7, [ExampleLog()])
         == map["7" := Fill(bs, 1) + Fill(bs, 9)]
  {
    var log := ExampleLog();
    ExampleLogIsNotBase();
    assert LogObjects(7, [log]) == {log} by {
      ExampleSetup(bs);
    }
    assert Concat([Fill(bs, 1), Fill(bs, 9)]) == Fill(bs, 1) + Fill(bs, 9) by {
      assert Concat([Fill(bs, 9)]) == Fill(bs, 9) + Concat([]);
    }
    var m := ExampleWorld(bs).bucket.objects["7" := Fill(bs, 1) + Fill(bs, 9)];
    assert m.Keys == {"7", log};
  }

  /** Dequeuing the example's log empties inode 7's queue. */
  lemma ExampleDequeued(bs: BlockSize)
    ensures RemoveEach(ExampleWorld(bs).queues, 7, [ExampleLog()]).Items(7) == []
  {
    ExampleDeleteLog(bs, ExampleWorld(bs).bucket);
    assert Queues(map[]).Items(7) == [];
  }

  /**
   * With blocks under S3's minimum, the corrected merge of the example fails
   * at the completion and keeps the log: it is still stored and still queued.
   */
  lemma CorrectedMergeWaits(bs: BlockSize)
    requires bs < MinPartSize
    ensures var (r, w') := Merge(ExampleWorld(bs), 7, bs, Corrected);
      && r.Fail?
      && w'.bucket.objects == ExampleWorld(bs).bucket.objects
      && w'.queues.Items(7) == [ExampleLog()]
  {
    ExampleMergeable(bs);
    CorrectedMergeRefusesSmall(ExampleWorld(bs), 7, bs, [[1]]);
    ExampleSetup(bs);
  }
}
