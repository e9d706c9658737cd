/**
 * The fragment map (objectfs/core/common/fragmentmap.py): for every block of a
 * file, a Redis sorted set of the fragments that hold a version of the block,
 * each scored by the time it was written. A fragment is either the block's
 * cache copy, named by the block's own key `<fs>%<inode>@<block>`, or a log
 * object, named `<time>_<b1>_..._<bn>@<inode>`.
 */
module FragmentMaps {
  import opened Common
  import opened Strings

  const FsDelimiter: char := '%'
  const NameDelimiter: char := '@'
  const LogDelimiter: char := '_'

  // ---------------------------------------------------------------------------
  // Names

  /** `_block_key`, which is also `_cache_key`: the sorted set's key and the cache fragment's name. */
  function BlockKey(fs: string, inode: nat, block: nat): string
  {
    fs + [FsDelimiter] + NatToString(inode) + [NameDelimiter] + NatToString(block)
  }

  /** `map(str, ns)`. */
  function Decimals(ns: seq<nat>): (r: seq<string>)
    ensures |r| == |ns| && forall i :: 0 <= i < |ns| ==> r[i] == NatToString(ns[i])
  {
    if |ns| == 0 then [] else [NatToString(ns[0])] + Decimals(ns[1..])
  }

  /** `_log_key`: the flush time and the block ids joined by `_`, then `@` and the inode. */
  function LogKey(inode: nat, blocks: seq<nat>, t: nat): (k: string)
    ensures k != []
  {
    Join(Decimals([t] + blocks), LogDelimiter) + [NameDelimiter] + NatToString(inode)
  }

  /** `_decode_log_key`: the block ids of a log name, as the strings they were written as. */
  function DecodeLogKey(name: string): seq<string>
  {
    Split(Split(name, NameDelimiter)[0], LogDelimiter)[1..]
  }

  lemma BlockKeyInjective(fs: string, i: nat, b: nat, j: nat, c: nat)
    ensures BlockKey(fs, i, b) == BlockKey(fs, j, c) <==> i == j && b == c
  {
    if BlockKey(fs, i, b) == BlockKey(fs, j, c) {
      var x := NatToString(i) + [NameDelimiter] + NatToString(b);
      var y := NatToString(j) + [NameDelimiter] + NatToString(c);
      assert x == BlockKey(fs, i, b)[|fs| + 1..];
      assert y == BlockKey(fs, j, c)[|fs| + 1..];
      DigitsHaveNo(i, NameDelimiter);
      DigitsHaveNo(j, NameDelimiter);
      Unsplit(NatToString(i), NatToString(b), NatToString(j), NatToString(c), NameDelimiter);
      NatToStringInjective(i, j);
      NatToStringInjective(b, c);
    }
  }

  /** Decoding a log name gives back its block ids, in order. */
  lemma DecodeLogKeyRoundTrip(inode: nat, blocks: seq<nat>, t: nat)
    ensures DecodeLogKey(LogKey(inode, blocks, t)) == Decimals(blocks)
  {
    var parts := Decimals([t] + blocks);
    forall i | 0 <= i < |parts|
      ensures NameDelimiter !in parts[i] && LogDelimiter !in parts[i]
    {
      DigitsHaveNo(([t] + blocks)[i], NameDelimiter);
      DigitsHaveNo(([t] + blocks)[i], LogDelimiter);
    }
    JoinWithout(parts, LogDelimiter, NameDelimiter);
    SplitAfterPrefix(Join(parts, LogDelimiter), NameDelimiter, NatToString(inode));
    SplitJoin(parts, LogDelimiter);
    assert parts[1..] == Decimals(blocks);
  }

  /** A log name never contains `%`, so it is never a block's cache fragment name. */
  lemma LogKeyIsNotBlockKey(fs: string, inode: nat, blocks: seq<nat>, t: nat, i: nat, b: nat)
    ensures FsDelimiter !in LogKey(inode, blocks, t)
    ensures LogKey(inode, blocks, t) != BlockKey(fs, i, b)
  {
    var parts := Decimals([t] + blocks);
    forall k | 0 <= k < |parts|
      ensures FsDelimiter !in parts[k]
    {
      DigitsHaveNo(([t] + blocks)[k], FsDelimiter);
    }
    JoinWithout(parts, LogDelimiter, FsDelimiter);
    DigitsHaveNo(inode, FsDelimiter);
    assert BlockKey(fs, i, b)[|fs|] == FsDelimiter;
  }

  /** A log name contains `@`, so it is never the decimal name of an inode's base object. */
  lemma LogKeyIsNotDecimal(inode: nat, blocks: seq<nat>, t: nat, n: nat)
    ensures LogKey(inode, blocks, t) != NatToString(n)
  {
    var j := Join(Decimals([t] + blocks), LogDelimiter);
    assert LogKey(inode, blocks, t)[|j|] == NameDelimiter;
    DigitsHaveNo(n, NameDelimiter);
  }

  // ---------------------------------------------------------------------------
  // Sorted sets, as `ZREVRANGEBYSCORE` sees them

  /** A member of a sorted set and its score. */
  type Entry = (string, int)

  /**
   * The order `ZREVRANGEBYSCORE` lists members in: higher score first, and
   * among equal scores the member that sorts later first.
   */
  predicate Before(a: Entry, b: Entry)
  {
    a.1 > b.1 || (a.1 == b.1 && StrLt(b.0, a.0))
  }

  /** A sorted set: each member once, listed in `Before` order. */
  predicate ZValid(z: seq<Entry>)
  {
    (forall i, j :: 0 <= i < j < |z| ==> Before(z[i], z[j]))
    && (forall i, j :: 0 <= i < j < |z| ==> z[i].0 != z[j].0)
  }

  lemma BeforeTransitive(a: Entry, b: Entry, c: Entry)
    requires Before(a, b) && Before(b, c)
    ensures Before(a, c)
  {
    if a.1 == b.1 == c.1 {
      StrLtTransitive(c.0, b.0, a.0);
    }
  }

  lemma BeforeTotal(a: Entry, b: Entry)
    requires a.0 != b.0
    ensures Before(a, b) || Before(b, a)
  {
    StrLtTotal(a.0, b.0);
  }

  /** The entry placed where the order puts it. */
  function Insert(z: seq<Entry>, e: Entry): (r: seq<Entry>)
    ensures |r| == |z| + 1
    ensures forall x :: x in r <==> x == e || x in z
  {
    if |z| == 0 then [e]
    else if Before(e, z[0]) then [e] + z
    else
      assert z == [z[0]] + z[1..];
      [z[0]] + Insert(z[1..], e)
  }

  lemma {:induction false} InsertValid(z: seq<Entry>, e: Entry)
    requires ZValid(z)
    requires forall x :: x in z ==> x.0 != e.0
    ensures ZValid(Insert(z, e))
  {
    if |z| > 0 {
      if Before(e, z[0]) {
        forall k | 0 < k < |z|
          ensures Before(e, z[k])
        {
          BeforeTransitive(e, z[0], z[k]);
        }
        assert Insert(z, e) == [e] + z;
      } else {
        assert z[0] in z;
        BeforeTotal(e, z[0]);
        var rest := Insert(z[1..], e);
        InsertValid(z[1..], e);
        forall x | x in rest
          ensures Before(z[0], x) && z[0].0 != x.0
        {
          if x != e {
            var k :| 0 <= k < |z| - 1 && z[1..][k] == x;
            assert z[k + 1] == x;
          }
        }
        var r := Insert(z, e);
        assert r == [z[0]] + rest;
        forall i, j | 0 <= i < j < |r|
          ensures Before(r[i], r[j]) && r[i].0 != r[j].0
        {
          assert r[j] == rest[j - 1];
          if i > 0 {
            assert r[i] == rest[i - 1];
          } else {
            assert rest[j - 1] in rest;
          }
        }
      }
    }
  }

  /** Removing an entry that the test drops undoes inserting it. */
  lemma {:induction false} FilterInsert(z: seq<Entry>, e: Entry, p: Entry -> bool)
    requires !p(e)
    ensures Filter(Insert(z, e), p) == Filter(z, p)
  {
    if |z| > 0 && !Before(e, z[0]) {
      FilterInsert(z[1..], e, p);
      var r := Insert(z, e);
      assert r[0] == z[0] && r[1..] == Insert(z[1..], e);
    } else if |z| > 0 {
      assert Insert(z, e)[1..] == z;
    }
  }

  lemma ZValidFilter(z: seq<Entry>, p: Entry -> bool)
    requires ZValid(z)
    ensures ZValid(Filter(z, p))
  {
    FilterPairwise(z, p, (a: Entry, b: Entry) => Before(a, b));
    FilterPairwise(z, p, (a: Entry, b: Entry) => a.0 != b.0);
  }

  /** `ZREM key m1 m2 ...`. */
  function ZRem(z: seq<Entry>, ms: seq<string>): seq<Entry>
  {
    Filter(z, (e: Entry) => e.0 !in ms)
  }

  /** `ZADD key score member`: the member is added, or its score replaced. */
  function ZAdd(z: seq<Entry>, m: string, score: int): seq<Entry>
  {
    Insert(ZRem(z, [m]), (m, score))
  }

  /** `ZREVRANGEBYSCORE key max min`, each bound optional (`+inf`, `-inf`), both inclusive. */
  function RangeByScore(z: seq<Entry>, hi: Option<int>, lo: Option<int>): seq<Entry>
  {
    Filter(z, (e: Entry) => InRange(e.1, hi, lo))
  }

  predicate InRange(score: int, hi: Option<int>, lo: Option<int>)
  {
    (hi.None? || score <= hi.value) && (lo.None? || lo.value <= score)
  }

  /** Adding keeps the set well formed, holds the member with its new score, and keeps every other member. */
  lemma ZAddSpec(z: seq<Entry>, m: string, score: int)
    requires ZValid(z)
    ensures ZValid(ZAdd(z, m, score))
    ensures forall x :: x in ZAdd(z, m, score) <==> x == (m, score) || (x in z && x.0 != m)
  {
    ZValidFilter(z, (e: Entry) => e.0 !in [m]);
    InsertValid(ZRem(z, [m]), (m, score));
  }

  /** Adding the same member with the same score twice is adding it once. */
  lemma ZAddTwice(z: seq<Entry>, m: string, score: int)
    ensures ZAdd(ZAdd(z, m, score), m, score) == ZAdd(z, m, score)
  {
    var p := (e: Entry) => e.0 !in [m];
    FilterInsert(ZRem(z, [m]), (m, score), p);
    FilterTwice(z, p);
  }

  // ---------------------------------------------------------------------------
  // The index

  /** Which members a removal pass over a block's set selects. */
  datatype FragmentKind =
    | CacheFragment      // the block's own cache key (`remove_cache_fragment`)
    | HasLogDelimiter    // any member with a `_` in it (`remove_log_fragment` as written)
    | LogFragment        // any member other than the block's cache key

  predicate Selected(fs: string, kind: FragmentKind, inode: nat, block: nat, member: string)
  {
    match kind
    case CacheFragment => member == BlockKey(fs, inode, block)
    case HasLogDelimiter => LogDelimiter in member
    case LogFragment => member != BlockKey(fs, inode, block)
  }

  /** The members of `frags` that the pass selects, in order. */
  function SelectedMembers(frags: seq<Entry>, fs: string, kind: FragmentKind, inode: nat, block: nat): (ms: seq<string>)
    ensures forall m :: m in ms <==> (exists e :: e in frags && e.0 == m && Selected(fs, kind, inode, block, m))
  {
    if |frags| == 0 then []
    else
      var last := frags[|frags| - 1];
      assert frags == frags[..|frags| - 1] + [last];
      SelectedMembers(frags[..|frags| - 1], fs, kind, inode, block)
        + (if Selected(fs, kind, inode, block, last.0) then [last.0] else [])
  }

  /** What a removal pass keeps of a block's set: every entry it does not select or that is newer than `t`. */
  function Kept(z: seq<Entry>, fs: string, kind: FragmentKind, inode: nat, block: nat, t: int): seq<Entry>
  {
    Filter(z, (e: Entry) => !(Selected(fs, kind, inode, block, e.0) && e.1 <= t))
  }

  /** The sorted sets of one filesystem: a missing key is the empty set, and Redis drops a set when it empties. */
  datatype Index = Index(zsets: map<(nat, nat), seq<Entry>>)
  {
    ghost predicate Valid()
    {
      forall k :: k in zsets ==> ZValid(zsets[k]) && zsets[k] != []
    }

    function Fragments(inode: nat, block: nat): seq<Entry>
    {
      if (inode, block) in zsets then zsets[(inode, block)] else []
    }

    function Store(k: (nat, nat), z: seq<Entry>): Index
    {
      if z == [] then Index(zsets - {k}) else Index(zsets[k := z])
    }

    /** `_add_fragment`. */
    function AddFragment(inode: nat, block: nat, t: int, v: string): Index
    {
      Store((inode, block), ZAdd(Fragments(inode, block), v, t))
    }

    /** `_add_fragment` for each block of the list in turn. */
    function AddAll(inode: nat, blocks: seq<nat>, v: string, t: int): Index
      decreases |blocks|
    {
      if |blocks| == 0 then this else AddFragment(inode, blocks[0], t, v).AddAll(inode, blocks[1..], v, t)
    }

    /** `get_fragment`. */
    function GetFragment(inode: nat, block: nat, hi: Option<int>, lo: Option<int>): seq<Entry>
    {
      RangeByScore(Fragments(inode, block), hi, lo)
    }

    /** `_remove_fragments`: nothing at all for an empty list. */
    function RemoveFragments(inode: nat, block: nat, ms: seq<string>): Index
    {
      if ms == [] then this else Store((inode, block), ZRem(Fragments(inode, block), ms))
    }

    /** One block of `remove_cache_fragment` / `remove_log_fragment`. */
    function RemoveStep(fs: string, kind: FragmentKind, inode: nat, block: nat, t: int): Index
    {
      RemoveFragments(inode, block, SelectedMembers(GetFragment(inode, block, Some(t), None), fs, kind, inode, block))
    }

    function RemoveAll(fs: string, kind: FragmentKind, inode: nat, blocks: seq<nat>, t: int): Index
      decreases |blocks|
    {
      if |blocks| == 0 then this
      else RemoveStep(fs, kind, inode, blocks[0], t).RemoveAll(fs, kind, inode, blocks[1..], t)
    }
  }

  lemma StoreSpec(ix: Index, k: (nat, nat), z: seq<Entry>)
    requires ix.Valid() && ZValid(z)
    ensures ix.Store(k, z).Valid()
    ensures forall i: nat, b: nat :: ix.Store(k, z).Fragments(i, b) == if (i, b) == k then z else ix.Fragments(i, b)
  {
  }

  lemma AddFragmentSpec(ix: Index, inode: nat, block: nat, t: int, v: string)
    requires ix.Valid()
    ensures ix.AddFragment(inode, block, t, v).Valid()
    ensures forall i: nat, b: nat ::
      (ix.AddFragment(inode, block, t, v).Fragments(i, b)
       == if i == inode && b == block then ZAdd(ix.Fragments(i, b), v, t) else ix.Fragments(i, b))
  {
    ZAddSpec(ix.Fragments(inode, block), v, t);
    StoreSpec(ix, (inode, block), ZAdd(ix.Fragments(inode, block), v, t));
  }

  /** `add_log_fragment` indexes the log under every listed block, with the flush time as score, and touches nothing else. */
  lemma {:induction false} AddAllSpec(ix: Index, inode: nat, blocks: seq<nat>, v: string, t: int)
    requires ix.Valid()
    ensures ix.AddAll(inode, blocks, v, t).Valid()
    ensures forall i: nat, b: nat ::
      (ix.AddAll(inode, blocks, v, t).Fragments(i, b)
       == if i == inode && b in blocks then ZAdd(ix.Fragments(i, b), v, t) else ix.Fragments(i, b))
    decreases |blocks|
  {
    if |blocks| > 0 {
      var ix1 := ix.AddFragment(inode, blocks[0], t, v);
      AddFragmentSpec(ix, inode, blocks[0], t, v);
      AddAllSpec(ix1, inode, blocks[1..], v, t);
      forall i: nat, b: nat
        ensures ix.AddAll(inode, blocks, v, t).Fragments(i, b)
          == if i == inode && b in blocks then ZAdd(ix.Fragments(i, b), v, t) else ix.Fragments(i, b)
      {
        assert blocks == [blocks[0]] + blocks[1..];
        if i == inode && b == blocks[0] {
          ZAddTwice(ix.Fragments(i, b), v, t);
        }
      }
    }
  }

  /** `get_fragment` lists exactly the entries scored within the bounds, highest score first. */
  lemma GetFragmentSpec(ix: Index, inode: nat, block: nat, hi: Option<int>, lo: Option<int>)
    requires ix.Valid()
    ensures var r := ix.GetFragment(inode, block, hi, lo);
      (forall x :: x in r <==> x in ix.Fragments(inode, block) && InRange(x.1, hi, lo))
      && ZValid(r)
      && (forall i, j :: 0 <= i < j < |r| ==> r[i].1 >= r[j].1)
  {
    ZValidFilter(ix.Fragments(inode, block), (e: Entry) => InRange(e.1, hi, lo));
  }

  lemma RemoveStepSpec(ix: Index, fs: string, kind: FragmentKind, inode: nat, block: nat, t: int)
    requires ix.Valid()
    ensures ix.RemoveStep(fs, kind, inode, block, t).Valid()
    ensures forall i: nat, b: nat ::
      (ix.RemoveStep(fs, kind, inode, block, t).Fragments(i, b)
       == if i == inode && b == block then Kept(ix.Fragments(i, b), fs, kind, inode, block, t) else ix.Fragments(i, b))
  {
    var z := ix.Fragments(inode, block);
    var ms := SelectedMembers(ix.GetFragment(inode, block, Some(t), None), fs, kind, inode, block);
    assert ZValid(z);
    RemovedIsKept(z, fs, kind, inode, block, t);
    if ms != [] {
      ZValidFilter(z, (e: Entry) => !(Selected(fs, kind, inode, block, e.0) && e.1 <= t));
      StoreSpec(ix, (inode, block), Kept(z, fs, kind, inode, block, t));
    }
  }

  /** `ZREM` of the members selected among those scored up to `t` keeps what `Kept` keeps; with none selected, everything. */
  lemma RemovedIsKept(z: seq<Entry>, fs: string, kind: FragmentKind, inode: nat, block: nat, t: int)
    requires ZValid(z)
    ensures var ms := SelectedMembers(RangeByScore(z, Some(t), None), fs, kind, inode, block);
      && ZRem(z, ms) == Kept(z, fs, kind, inode, block, t)
      && (ms == [] ==> Kept(z, fs, kind, inode, block, t) == z)
  {
    var ms := SelectedMembers(RangeByScore(z, Some(t), None), fs, kind, inode, block);
    var p := (e: Entry) => e.0 !in ms;
    var q := (e: Entry) => !(Selected(fs, kind, inode, block, e.0) && e.1 <= t);
    forall k | 0 <= k < |z|
      ensures p(z[k]) == q(z[k])
    {
      if z[k].0 in ms {
        var e :| e in RangeByScore(z, Some(t), None) && e.0 == z[k].0 && Selected(fs, kind, inode, block, e.0);
        var k' :| 0 <= k' < |z| && z[k'] == e;
        assert k' == k;
      }
    }
    FilterSame(z, p, q);
    if ms == [] {
      FilterSame(z, q, (e: Entry) => true);
      FilterAll(z);
    }
  }

  lemma {:induction false} FilterAll(z: seq<Entry>)
    ensures Filter(z, (e: Entry) => true) == z
  {
    if |z| > 0 {
      FilterAll(z[1..]);
      assert [z[0]] + z[1..] == z;
    }
  }

  /** A removal pass over `blocks` keeps, in each listed block, exactly what `Kept` keeps, and touches nothing else. */
  lemma {:induction false} RemoveAllSpec(ix: Index, fs: string, kind: FragmentKind, inode: nat, blocks: seq<nat>, t: int)
    requires ix.Valid()
    ensures ix.RemoveAll(fs, kind, inode, blocks, t).Valid()
    ensures forall i: nat, b: nat ::
      (ix.RemoveAll(fs, kind, inode, blocks, t).Fragments(i, b)
       == if i == inode && b in blocks then Kept(ix.Fragments(i, b), fs, kind, inode, b, t) else ix.Fragments(i, b))
    decreases |blocks|
  {
    if |blocks| > 0 {
      var ix1 := ix.RemoveStep(fs, kind, inode, blocks[0], t);
      RemoveStepSpec(ix, fs, kind, inode, blocks[0], t);
      RemoveAllSpec(ix1, fs, kind, inode, blocks[1..], t);
      forall i: nat, b: nat
        ensures ix.RemoveAll(fs, kind, inode, blocks, t).Fragments(i, b)
          == if i == inode && b in blocks then Kept(ix.Fragments(i, b), fs, kind, inode, b, t) else ix.Fragments(i, b)
      {
        assert blocks == [blocks[0]] + blocks[1..];
        if i == inode && b == blocks[0] {
          FilterTwice(ix.Fragments(i, b), (e: Entry) => !(Selected(fs, kind, inode, b, e.0) && e.1 <= t));
        }
      }
    }
  }

  /**
   * `remove_log_fragment` as written selects every member with a `_`. On a
   * filesystem whose name has one, such as the tests' "test_fs", it removes
   * the block's cache fragment too.
   */
  lemma RemoveLogFragmentTakesCacheFragment()
    ensures var fs := "test_fs";
      var ix := Index(map[]).AddFragment(1, 10, 5, BlockKey(fs, 1, 10));
      ix.Fragments(1, 10) == [(BlockKey(fs, 1, 10), 5)]
      && ix.RemoveAll(fs, HasLogDelimiter, 1, [10], 5).Fragments(1, 10) == []
  {
    var fs := "test_fs";
    var key := BlockKey(fs, 1, 10);
    assert key[4] == '_';
    var ix := Index(map[]).AddFragment(1, 10, 5, key);
    assert ZRem([], [key]) == [];
    assert ix.Fragments(1, 10) == [(key, 5)];
    var ms := SelectedMembers(ix.GetFragment(1, 10, Some(5), None), fs, HasLogDelimiter, 1, 10);
    assert (key, 5) in ix.GetFragment(1, 10, Some(5), None);
    assert key in ms;
    var after := ix.RemoveStep(fs, HasLogDelimiter, 1, 10, 5);
    assert after == ix.RemoveFragments(1, 10, ms);
    assert (key, 5) !in after.Fragments(1, 10);
    assert after.Fragments(1, 10) == [];
    assert ix.RemoveAll(fs, HasLogDelimiter, 1, [10], 5) == after.RemoveAll(fs, HasLogDelimiter, 1, [], 5);
  }

  /**
   * Selecting the members other than the block's cache key removes every log
   * fragment flushed by `t` and always keeps the cache fragment.
   */
  lemma RemoveLogFragmentKeepsCacheFragment(ix: Index, fs: string, inode: nat, blocks: seq<nat>, t: nat, b: nat)
    requires ix.Valid() && b in blocks
    ensures var after := ix.RemoveAll(fs, LogFragment, inode, blocks, t).Fragments(inode, b);
      forall x :: x in after <==> x in ix.Fragments(inode, b) && (x.0 == BlockKey(fs, inode, b) || x.1 > t)
  {
    RemoveAllSpec(ix, fs, LogFragment, inode, blocks, t);
  }

  /** Among the entries of a block, the cache fragment appears at most once. */
  lemma CacheFragmentUnique(ix: Index, fs: string, inode: nat, block: nat, i: nat, j: nat)
    requires ix.Valid()
    requires i < |ix.Fragments(inode, block)| && j < |ix.Fragments(inode, block)|
    requires ix.Fragments(inode, block)[i].0 == BlockKey(fs, inode, block) == ix.Fragments(inode, block)[j].0
    ensures i == j
  {
  }

  // ---------------------------------------------------------------------------
  // The Redis client

  /** The inner loop of the removal passes: the selected members, in the order listed. */
  method SelectMembers(frags: seq<Entry>, fs: string, kind: FragmentKind, inode: nat, block: nat)
    returns (removal: seq<string>)
    ensures removal == SelectedMembers(frags, fs, kind, inode, block)
  {
    removal := [];
    var j := 0;
    while j < |frags|
      invariant 0 <= j <= |frags|
      invariant removal == SelectedMembers(frags[..j], fs, kind, inode, block)
    {
      assert frags[..j + 1][..j] == frags[..j];
      if Selected(fs, kind, inode, block, frags[j].0) {
        removal := removal + [frags[j].0];
      }
      j := j + 1;
    }
    assert frags[..|frags|] == frags;
  }

  class FragmentMap {
    const fsName: string
    var zsets: map<(nat, nat), seq<Entry>>

    function State(): Index
      reads this
    {
      Index(zsets)
    }

    constructor (fsName: string, contents: Index)
      ensures this.fsName == fsName && State() == contents
    {
      this.fsName := fsName;
      zsets := contents.zsets;
    }

    /** `_add_fragment`. */
    method AddFragment(inode: nat, block: nat, t: int, v: string)
      modifies this
      ensures State() == old(State()).AddFragment(inode, block, t, v)
    {
      zsets := State().AddFragment(inode, block, t, v).zsets;
    }

    /** `add_cache_fragment`: the block's own key, scored with the write time. */
    method AddCacheFragment(inode: nat, block: nat, t: nat)
      modifies this
      ensures State() == old(State()).AddFragment(inode, block, t, BlockKey(fsName, inode, block))
    {
      AddFragment(inode, block, t, BlockKey(fsName, inode, block));
    }

    method AddLogFragment(inode: nat, blocks: seq<nat>, t: nat)
      modifies this
      ensures State() == old(State()).AddAll(inode, blocks, LogKey(inode, blocks, t), t)
    {
      var key := LogKey(inode, blocks, t);
      var i := 0;
      while i < |blocks|
        invariant 0 <= i <= |blocks|
        invariant State().AddAll(inode, blocks[i..], key, t) == old(State()).AddAll(inode, blocks, key, t)
      {
        assert blocks[i..][1..] == blocks[i + 1..];
        AddFragment(inode, blocks[i], t, key);
        i := i + 1;
      }
    }

    method GetFragment(inode: nat, block: nat, hi: Option<int>, lo: Option<int>) returns (r: seq<Entry>)
      ensures r == State().GetFragment(inode, block, hi, lo)
    {
      r := RangeByScore(State().Fragments(inode, block), hi, lo);
    }

    method RemoveFragments(inode: nat, block: nat, ms: seq<string>)
      modifies this
      ensures State() == old(State()).RemoveFragments(inode, block, ms)
    {
      if ms == [] {
        return;
      }
      zsets := State().Store((inode, block), ZRem(State().Fragments(inode, block), ms)).zsets;
    }

    /** The loop body of `remove_cache_fragment` and `remove_log_fragment`. */
    method RemoveSelected(kind: FragmentKind, inode: nat, block: nat, t: int)
      modifies this
      ensures State() == old(State()).RemoveStep(fsName, kind, inode, block, t)
    {
      var frags := GetFragment(inode, block, Some(t), None);
      var removal := SelectMembers(frags, fsName, kind, inode, block);
      RemoveFragments(inode, block, removal);
    }

    method RemoveCacheFragment(inode: nat, blocks: seq<nat>, t: nat)
      modifies this
      ensures State() == old(State()).RemoveAll(fsName, CacheFragment, inode, blocks, t)
    {
      RemoveEach(CacheFragment, inode, blocks, t);
    }

    method RemoveLogFragment(inode: nat, blocks: seq<nat>, t: nat)
      modifies this
      ensures State() == old(State()).RemoveAll(fsName, HasLogDelimiter, inode, blocks, t)
    {
      RemoveEach(HasLogDelimiter, inode, blocks, t);
    }

    method RemoveEach(kind: FragmentKind, inode: nat, blocks: seq<nat>, t: nat)
      modifies this
      ensures State() == old(State()).RemoveAll(fsName, kind, inode, blocks, t)
    {
      var i := 0;
      while i < |blocks|
        invariant 0 <= i <= |blocks|
        invariant State().RemoveAll(fsName, kind, inode, blocks[i..], t) == old(State()).RemoveAll(fsName, kind, inode, blocks, t)
      {
        assert blocks[i..][1..] == blocks[i + 1..];
        RemoveSelected(kind, inode, blocks[i], t);
        i := i + 1;
      }
    }

    /** `remove_fragment_map`: `DEL` of every listed block's set; Redis refuses `DEL` of no keys. */
    method RemoveFragmentMap(inode: nat, blocks: seq<nat>) returns (r: Outcome)
      modifies this
      ensures r == if |blocks| == 0 then Fail(Crash(BackendError)) else Done
      ensures zsets == if |blocks| == 0 then old(zsets) else old(zsets) - set b | b in blocks :: (inode, b)
    {
      if |blocks| == 0 {
        return Fail(Crash(BackendError));
      }
      zsets := zsets - set b | b in blocks :: (inode, b);
      r := Done;
    }

    /** `_remove_block`. */
    method RemoveBlock(inode: nat, block: nat)
      modifies this
      ensures zsets == old(zsets) - {(inode, block)}
    {
      zsets := zsets - {(inode, block)};
    }
  }
}
