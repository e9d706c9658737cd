/**
 * The merge queue (objectfs/core/common/mergequeue.py): one Redis list per
 * inode, under `<fs>%<inode>@MERGE`, holding the names of the log objects that
 * still have to be merged into the inode's base object, oldest first.
 */
module MergeQueues {
  import opened Common
  import opened Strings

  const FsDelimiter: char := '%'
  const NameDelimiter: char := '@'
  const QueueName: string := "MERGE"

  /** The default range of `fetch`. */
  const DefaultStart: int := 0
  const DefaultEnd: int := 5

  /** `_queue_key`. */
  function QueueKey(fs: string, inode: nat): string
  {
    fs + [FsDelimiter] + NatToString(inode) + [NameDelimiter] + QueueName
  }

  lemma QueueKeyInjective(fs: string, a: nat, b: nat)
    ensures QueueKey(fs, a) == QueueKey(fs, b) <==> a == b
  {
    if QueueKey(fs, a) == QueueKey(fs, b) {
      var x := NatToString(a) + [NameDelimiter] + QueueName;
      var y := NatToString(b) + [NameDelimiter] + QueueName;
      assert x == QueueKey(fs, a)[|fs| + 1..];
      assert y == QueueKey(fs, b)[|fs| + 1..];
      DigitsHaveNo(a, NameDelimiter);
      DigitsHaveNo(b, NameDelimiter);
      Unsplit(NatToString(a), QueueName, NatToString(b), QueueName, NameDelimiter);
      NatToStringInjective(a, b);
    }
  }

  /** The queues of one filesystem; Redis drops a list when it empties, so no stored list is empty. */
  datatype Queues = Queues(lists: map<nat, seq<string>>)
  {
    function Items(inode: nat): seq<string>
    {
      if inode in lists then lists[inode] else []
    }

    function Store(inode: nat, s: seq<string>): Queues
    {
      if s == [] then Queues(lists - {inode}) else Queues(lists[inode := s])
    }

    /** `insert`: `RPUSH`. */
    function Insert(inode: nat, name: string): Queues
    {
      Store(inode, Items(inode) + [name])
    }

    /** `fetch(inode, start, end)`: `LRANGE`. */
    function Fetch(inode: nat, start: int, end: int): seq<string>
    {
      LRange(Items(inode), start, end)
    }

    /** `remove(inode, name)` with its default count of one: `LREM key 1 name`. */
    function Remove(inode: nat, name: string): Queues
    {
      Store(inode, RemoveFirst(Items(inode), name))
    }

    /** `delete_queue`: `DEL`. */
    function Delete(inode: nat): Queues
    {
      Queues(lists - {inode})
    }

    /** `insert` of each name in turn. */
    function InsertAll(inode: nat, names: seq<string>): Queues
      decreases |names|
    {
      if |names| == 0 then this else Insert(inode, names[0]).InsertAll(inode, names[1..])
    }
  }

  /** Inserting names in turn appends them in that order: the queue is first in, first out. */
  lemma {:induction false} InsertAllAppends(q: Queues, inode: nat, names: seq<string>, other: nat)
    ensures q.InsertAll(inode, names).Items(inode) == q.Items(inode) + names
    ensures other != inode ==> q.InsertAll(inode, names).Items(other) == q.Items(other)
    decreases |names|
  {
    if |names| > 0 {
      InsertAllAppends(q.Insert(inode, names[0]), inode, names[1..], other);
      assert q.Items(inode) + [names[0]] + names[1..] == q.Items(inode) + names;
    }
  }

  /** `fetch(start, end)` with non-negative bounds lists positions `start` to `end` inclusive, clamped to the queue. */
  lemma FetchRange(q: Queues, inode: nat, start: nat, end: nat)
    ensures var s := q.Items(inode);
      q.Fetch(inode, start, end) == if start > end || start >= |s| then [] else s[start..Min(end + 1, |s|)]
  {
  }

  /** The default `fetch` lists the oldest six names at most, in queue order. */
  lemma FetchDefault(q: Queues, inode: nat)
    ensures q.Fetch(inode, DefaultStart, DefaultEnd) == q.Items(inode)[..Min(6, |q.Items(inode)|)]
    ensures |q.Fetch(inode, DefaultStart, DefaultEnd)| <= 6
  {
    FetchRange(q, inode, 0, 5);
  }

  /** Removing the oldest name pops it, whatever else the queue holds. */
  lemma RemoveHead(q: Queues, inode: nat, name: string, rest: seq<string>)
    requires q.Items(inode) == [name] + rest
    ensures q.Remove(inode, name).Items(inode) == rest
  {
  }

  /** Removing only drops the first occurrence, keeps the rest in order, and a name not queued is a no-op. */
  lemma RemoveSpec(q: Queues, inode: nat, name: string, other: nat)
    ensures var s := q.Items(inode);
      var k := IndexOf(s, name);
      q.Remove(inode, name).Items(inode) == (if k < |s| then s[..k] + s[k + 1..] else s)
    ensures name !in q.Items(inode) ==> q.Remove(inode, name).Items(inode) == q.Items(inode)
    ensures other != inode ==> q.Remove(inode, name).Items(other) == q.Items(other)
  {
  }

  /** Removing each fetched name in turn, starting from the oldest, empties exactly that prefix of the queue. */
  lemma {:induction false} RemovePrefix(q: Queues, inode: nat, fetched: seq<string>, rest: seq<string>)
    requires q.Items(inode) == fetched + rest
    ensures RemoveEach(q, inode, fetched).Items(inode) == rest
    decreases |fetched|
  {
    if |fetched| > 0 {
      assert q.Items(inode) == [fetched[0]] + (fetched[1..] + rest);
      RemoveHead(q, inode, fetched[0], fetched[1..] + rest);
      RemovePrefix(q.Remove(inode, fetched[0]), inode, fetched[1..], rest);
    }
  }

  function RemoveEach(q: Queues, inode: nat, names: seq<string>): Queues
    decreases |names|
  {
    if |names| == 0 then q else RemoveEach(q.Remove(inode, names[0]), inode, names[1..])
  }

  /** Removing names from one inode's queue leaves every other queue as it was. */
  lemma {:induction false} RemoveEachOthers(q: Queues, inode: nat, names: seq<string>, other: nat)
    requires other != inode
    ensures RemoveEach(q, inode, names).Items(other) == q.Items(other)
    decreases |names|
  {
    if |names| > 0 {
      RemoveSpec(q, inode, names[0], other);
      RemoveEachOthers(q.Remove(inode, names[0]), inode, names[1..], other);
    }
  }

  /** `delete_queue` empties that inode's queue and no other. */
  lemma DeleteOnlyThat(q: Queues, inode: nat, other: nat)
    ensures q.Delete(inode).Items(inode) == []
    ensures other != inode ==> q.Delete(inode).Items(other) == q.Items(other)
  {
  }

  class MergeQueue {
    const fsName: string
    var lists: map<nat, seq<string>>

    function State(): Queues
      reads this
    {
      Queues(lists)
    }

    constructor (fsName: string, contents: Queues)
      ensures this.fsName == fsName && State() == contents
    {
      this.fsName := fsName;
      lists := contents.lists;
    }

    method DeleteQueue(inode: nat)
      modifies this
      ensures State() == old(State()).Delete(inode)
    {
      lists := lists - {inode};
    }

    method Insert(inode: nat, name: string)
      modifies this
      ensures State() == old(State()).Insert(inode, name)
    {
      lists := lists[inode := State().Items(inode) + [name]];
    }

    method Fetch(inode: nat, start: int, end: int) returns (names: seq<string>)
      ensures names == State().Fetch(inode, start, end)
      ensures forall i :: 0 <= i < |names| ==> names[i] in State().Items(inode)
    {
      names := LRange(State().Items(inode), start, end);
    }

    method Remove(inode: nat, name: string)
      modifies this
      ensures State() == old(State()).Remove(inode, name)
    {
      lists := State().Store(inode, RemoveFirst(State().Items(inode), name)).lists;
    }
  }
}
