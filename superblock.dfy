/**
 * The superblock (objectfs/core/metadata/superblock.py): six counters of one
 * filesystem kept in the metadata store under `%<fs>%<setting>%` — the inode
 * limit, the live inode count, the block size, the last inode id handed out,
 * the capacity in bytes and the bytes in use.
 */
module SuperBlocks {
  import opened Common
  import opened MetaStores
  import Strings

  const Delimiter: char := '%'

  /** The six key names the settings file supplies (`SB_MAX_INODES` and the rest). */
  datatype SbConfig = SbConfig(
    maxInodes: string, inodeCounter: string, blockSize: string,
    freeInodeId: string, totalSize: string, usedSize: string)
  {
    predicate Distinct()
    {
      var l := [maxInodes, inodeCounter, blockSize, freeInodeId, totalSize, usedSize];
      forall i, j :: 0 <= i < j < 6 ==> l[i] != l[j]
    }
  }

  /** `_wrap_with_delimiter`. */
  function Wrap(fs: string, key: string): string
  {
    [Delimiter] + fs + [Delimiter] + key + [Delimiter]
  }

  lemma WrapInjective(fs: string, a: string, b: string)
    ensures Wrap(fs, a) == Wrap(fs, b) <==> a == b
  {
    if Wrap(fs, a) == Wrap(fs, b) {
      assert a == Wrap(fs, a)[|fs| + 2..|Wrap(fs, a)| - 1];
      assert b == Wrap(fs, b)[|fs| + 2..|Wrap(fs, b)| - 1];
    }
  }

  /**
   * The six wrapped keys of one filesystem and the superblock's operations on
   * the store's superblock map, as functions of the store's contents.
   */
  datatype SbKeys = SbKeys(
    maxInodes: string, inodeCounter: string, blockSize: string,
    freeInodeId: string, totalSize: string, usedSize: string)
  {
    /** `_generate_key_list`. */
    function List(): seq<string>
    {
      [maxInodes, inodeCounter, blockSize, freeInodeId, totalSize, usedSize]
    }

    predicate Distinct()
    {
      var l := List();
      forall i, j :: 0 <= i < j < 6 ==> l[i] != l[j]
    }

    /** `exists`: every key is present. */
    predicate Present(m: Meta)
    {
      forall k :: k in List() ==> k in m.sb
    }

    /** The `total_size` property: a missing or zero value reads as 0. */
    function TotalSize(m: Meta): int
    {
      if totalSize in m.sb then m.sb[totalSize] else 0
    }

    /** The `used_size` property, read the same way. */
    function UsedSize(m: Meta): int
    {
      if usedSize in m.sb then m.sb[usedSize] else 0
    }

    /** `init_superblock`. */
    function Init(m: Meta, used: int, free: int, counter: int, block: int): Meta
    {
      m.(sb := m.sb[usedSize := used][freeInodeId := free][inodeCounter := counter][blockSize := block])
    }

    /**
     * `incr_inode_counter`: a missing counter fails adding 1 to None; in
     * Python 2 a number is never `<=` None, so a missing limit means no space.
     */
    function IncrInodeCounter(m: Meta): (Outcome, Meta)
    {
      match m.SbGet(inodeCounter)
      case None => (Fail(Crash(NoneValue)), m)
      case Some(c) =>
        match m.SbGet(maxInodes)
        case None => (Fail(Fuse(ENOSPC)), m)
        case Some(mx) =>
          if c + 1 <= mx then (Done, m.IncrBy(inodeCounter, 1)) else (Fail(Fuse(ENOSPC)), m)
    }

    /** `fetch_free_inode_id`: the new free id, None when `INCRBY` gave 0. */
    function FetchFreeInodeId(m: Meta): (Result<Option<int>>, Meta)
    {
      var (o, m1) := IncrInodeCounter(m);
      if o.Fail? then (Err(o.failure), m1)
      else
        var m2 := m1.IncrBy(freeInodeId, 1);
        (Ok(if m2.sb[freeInodeId] == 0 then None else Some(m2.sb[freeInodeId])), m2)
    }

    function DecrInodeCounter(m: Meta): Meta
    {
      m.IncrBy(inodeCounter, -1)
    }

    /** `incr_used_size`. */
    function IncrUsedSize(m: Meta, v: int): (Outcome, Meta)
    {
      if UsedSize(m) + v <= TotalSize(m) then (Done, m.IncrBy(usedSize, v))
      else (Fail(Fuse(ENOSPC)), m)
    }

    function DecrUsedSize(m: Meta, v: int): Meta
    {
      m.IncrBy(usedSize, -v)
    }

    /** The bounds the superblock maintains: live inodes within the limit, bytes within the capacity. */
    predicate Bounded(m: Meta)
    {
      inodeCounter in m.sb && maxInodes in m.sb && m.sb[inodeCounter] <= m.sb[maxInodes]
      && UsedSize(m) <= TotalSize(m)
    }
  }

  function Keys(fs: string, c: SbConfig): SbKeys
  {
    SbKeys(Wrap(fs, c.maxInodes), Wrap(fs, c.inodeCounter), Wrap(fs, c.blockSize),
           Wrap(fs, c.freeInodeId), Wrap(fs, c.totalSize), Wrap(fs, c.usedSize))
  }

  /** Distinct setting names give distinct keys. */
  lemma KeysDistinct(fs: string, c: SbConfig)
    requires c.Distinct()
    ensures Keys(fs, c).Distinct()
  {
    var l := [c.maxInodes, c.inodeCounter, c.blockSize, c.freeInodeId, c.totalSize, c.usedSize];
    var k := Keys(fs, c);
    forall i, j | 0 <= i < j < 6
      ensures k.List()[i] != k.List()[j]
    {
      assert k.List()[i] == Wrap(fs, l[i]) && k.List()[j] == Wrap(fs, l[j]);
      WrapInjective(fs, l[i], l[j]);
    }
  }

  /** Two filesystems whose names hold no `%` never share a superblock key. */
  lemma WrapSeparatesFilesystems(fs1: string, fs2: string, a: string, b: string)
    requires Delimiter !in fs1 && Delimiter !in fs2 && fs1 != fs2
    ensures Wrap(fs1, a) != Wrap(fs2, b)
  {
    var w1, w2 := Wrap(fs1, a), Wrap(fs2, b);
    if w1 == w2 {
      assert w1[1..] == fs1 + [Delimiter] + (a + [Delimiter]);
      assert w2[1..] == fs2 + [Delimiter] + (b + [Delimiter]);
      Strings.Unsplit(fs1, a + [Delimiter], fs2, b + [Delimiter], Delimiter);
    }
  }

  /** `incr_inode_counter` succeeds exactly when both keys are set and the limit leaves room, and then adds one. */
  lemma IncrInodeCounterSpec(k: SbKeys, m: Meta)
    ensures var (o, m') := k.IncrInodeCounter(m);
      (o == Done <==> k.inodeCounter in m.sb && k.maxInodes in m.sb && m.sb[k.inodeCounter] < m.sb[k.maxInodes])
      && (o == Fail(Crash(NoneValue)) <==> k.inodeCounter !in m.sb)
      && (o.Fail? ==> m' == m)
      && (o == Done ==> m' == m.(sb := m.sb[k.inodeCounter := m.sb[k.inodeCounter] + 1]))
  {
  }

  /** Every operation that can fail for lack of space keeps the bounds. */
  lemma OperationsKeepBounds(k: SbKeys, m: Meta, v: int)
    requires k.Distinct() && k.Bounded(m)
    ensures k.Bounded(k.IncrInodeCounter(m).1)
    ensures k.Bounded(k.FetchFreeInodeId(m).1)
    ensures k.Bounded(k.DecrInodeCounter(m))
    ensures k.Bounded(k.IncrUsedSize(m, v).1)
    ensures v >= 0 ==> k.Bounded(k.DecrUsedSize(m, v))
  {
    assert k.List()[1] != k.List()[3] && k.List()[0] != k.List()[3];
    assert k.List()[4] != k.List()[3] && k.List()[5] != k.List()[3];
    assert k.List()[1] != k.List()[5] && k.List()[0] != k.List()[5] && k.List()[4] != k.List()[5];
    assert k.List()[1] != k.List()[4] && k.List()[0] != k.List()[1];
  }

  /** The free id only grows: each fetch hands out one more than the last. */
  lemma FetchFreeInodeIdIncreases(k: SbKeys, m: Meta)
    requires k.Distinct() && k.freeInodeId in m.sb && m.sb[k.freeInodeId] >= 0
    ensures var (r, m') := k.FetchFreeInodeId(m);
      r.Ok? ==> r.value == Some(m.sb[k.freeInodeId] + 1) && m'.sb[k.freeInodeId] == m.sb[k.freeInodeId] + 1
    ensures var (r, m') := k.FetchFreeInodeId(m); r.Err? ==> m' == m
    ensures var m' := k.FetchFreeInodeId(m).1; m'.records == m.records && m'.index == m.index && m'.lists == m.lists
  {
    assert k.List()[1] != k.List()[3];
  }

  /**
   * A freshly initialised superblock with room for five inodes: the counter
   * rises 2, 3, 4, 5 and the fifth increment reports no space.
   */
  lemma {:induction false} InodeLimitScenario(k: SbKeys, m: Meta)
    requires k.Distinct() && k.maxInodes in m.sb && m.sb[k.maxInodes] == 5
    ensures var m0 := k.Init(m, 0, 1, 1, 0);
      var m1 := k.IncrInodeCounter(m0).1;
      var m2 := k.IncrInodeCounter(m1).1;
      var m3 := k.IncrInodeCounter(m2).1;
      var m4 := k.IncrInodeCounter(m3).1;
      m4.sb[k.inodeCounter] == 5 && k.IncrInodeCounter(m4) == (Fail(Fuse(ENOSPC)), m4)
  {
    assert k.List()[0] != k.List()[1] && k.List()[0] != k.List()[2];
    assert k.List()[0] != k.List()[3] && k.List()[0] != k.List()[5];
    var m0 := k.Init(m, 0, 1, 1, 0);
    assert m0.sb[k.inodeCounter] == 1 && m0.sb[k.maxInodes] == 5;
    var m1 := k.IncrInodeCounter(m0).1;
    assert m1.sb[k.inodeCounter] == 2 && m1.sb[k.maxInodes] == 5;
    var m2 := k.IncrInodeCounter(m1).1;
    assert m2.sb[k.inodeCounter] == 3 && m2.sb[k.maxInodes] == 5;
    var m3 := k.IncrInodeCounter(m2).1;
    assert m3.sb[k.inodeCounter] == 4 && m3.sb[k.maxInodes] == 5;
    var m4 := k.IncrInodeCounter(m3).1;
    assert m4.sb[k.inodeCounter] == 5 && m4.sb[k.maxInodes] == 5;
  }

  /** After `init_superblock` the free ids handed out are 2, 3, 4 while the limit allows. */
  lemma FreeIdScenario(k: SbKeys, m: Meta)
    requires k.Distinct() && k.maxInodes in m.sb && m.sb[k.maxInodes] >= 4
    ensures var m0 := k.Init(m, 0, 1, 1, 0);
      var (r1, m1) := k.FetchFreeInodeId(m0);
      var (r2, m2) := k.FetchFreeInodeId(m1);
      var (r3, _) := k.FetchFreeInodeId(m2);
      r1 == Ok(Some(2)) && r2 == Ok(Some(3)) && r3 == Ok(Some(4))
  {
    assert k.List()[0] != k.List()[1] && k.List()[0] != k.List()[3];
    assert k.List()[1] != k.List()[3] && k.List()[0] != k.List()[5] && k.List()[0] != k.List()[2];
  }

  /** A `SuperBlock` object of one filesystem, working on that filesystem's metadata store. */
  class SuperBlock {
    const name: string
    const keys: SbKeys
    const meta: RedisMetaStore

    constructor (name: string, config: SbConfig, meta: RedisMetaStore)
      ensures this.name == name && this.meta == meta && keys == Keys(name, config)
    {
      this.name := name;
      this.meta := meta;
      keys := Keys(name, config);
    }

    /** `init_superblock`; the source's defaults are used=0, free=1, counter=1, block=0. */
    method InitSuperblock(used: int, free: int, counter: int, block: int)
      modifies meta
      ensures meta.State() == keys.Init(old(meta.State()), used, free, counter, block)
    {
      meta.SetSuperblockKey(keys.usedSize, used);
      meta.SetSuperblockKey(keys.freeInodeId, free);
      meta.SetSuperblockKey(keys.inodeCounter, counter);
      meta.SetSuperblockKey(keys.blockSize, block);
    }

    method DeleteSuperblock()
      modifies meta
      ensures meta.State() == old(meta.State()).(sb := old(meta.sb) - set key | key in keys.List())
    {
      var _ := meta.DeleteSuperblockKey(keys.List());
    }

    /** `exists`: stops at the first missing key. */
    method Exists() returns (b: bool)
      ensures b <==> keys.Present(meta.State())
    {
      var l := keys.List();
      var i := 0;
      while i < |l|
        invariant 0 <= i <= |l|
        invariant forall j :: 0 <= j < i ==> l[j] in meta.sb
      {
        var e := meta.Exists(l[i]);
        if !e {
          return false;
        }
        i := i + 1;
      }
      b := true;
    }

    method MaxInodes() returns (r: Option<int>)
      ensures r == meta.State().SbGet(keys.maxInodes)
    {
      r := meta.GetSuperblockKey(keys.maxInodes);
    }

    method SetMaxInodes(v: int)
      modifies meta
      ensures meta.State() == old(meta.State()).(sb := old(meta.sb)[keys.maxInodes := v])
    {
      meta.SetSuperblockKey(keys.maxInodes, v);
    }

    method FreeInodeId() returns (r: Option<int>)
      ensures r == meta.State().SbGet(keys.freeInodeId)
    {
      r := meta.GetSuperblockKey(keys.freeInodeId);
    }

    method SetFreeInodeId(v: int)
      modifies meta
      ensures meta.State() == old(meta.State()).(sb := old(meta.sb)[keys.freeInodeId := v])
    {
      meta.SetSuperblockKey(keys.freeInodeId, v);
    }

    method InodeCounter() returns (r: Option<int>)
      ensures r == meta.State().SbGet(keys.inodeCounter)
    {
      r := meta.GetSuperblockKey(keys.inodeCounter);
    }

    method SetInodeCounter(v: int)
      modifies meta
      ensures meta.State() == old(meta.State()).(sb := old(meta.sb)[keys.inodeCounter := v])
    {
      meta.SetSuperblockKey(keys.inodeCounter, v);
    }

    method BlockSize() returns (r: Option<int>)
      ensures r == meta.State().SbGet(keys.blockSize)
    {
      r := meta.GetSuperblockKey(keys.blockSize);
    }

    method SetBlockSize(v: int)
      modifies meta
      ensures meta.State() == old(meta.State()).(sb := old(meta.sb)[keys.blockSize := v])
    {
      meta.SetSuperblockKey(keys.blockSize, v);
    }

    method TotalSize() returns (r: int)
      ensures r == keys.TotalSize(meta.State())
    {
      var v := meta.GetSuperblockKey(keys.totalSize);
      r := if v.Some? then v.value else 0;
    }

    method SetTotalSize(v: int)
      modifies meta
      ensures meta.State() == old(meta.State()).(sb := old(meta.sb)[keys.totalSize := v])
    {
      meta.SetSuperblockKey(keys.totalSize, v);
    }

    method UsedSize() returns (r: int)
      ensures r == keys.UsedSize(meta.State())
    {
      var v := meta.GetSuperblockKey(keys.usedSize);
      r := if v.Some? then v.value else 0;
    }

    method SetUsedSize(v: int)
      modifies meta
      ensures meta.State() == old(meta.State()).(sb := old(meta.sb)[keys.usedSize := v])
    {
      meta.SetSuperblockKey(keys.usedSize, v);
    }

    method IncrInodeCounter() returns (r: Outcome)
      modifies meta
      ensures (r, meta.State()) == keys.IncrInodeCounter(old(meta.State()))
    {
      var c := InodeCounter();
      if c.None? {
        return Fail(Crash(NoneValue));
      }
      var mx := MaxInodes();
      if mx.Some? && c.value + 1 <= mx.value {
        var _ := meta.IncrSuperblockKey(keys.inodeCounter, 1);
        r := Done;
      } else {
        r := Fail(Fuse(ENOSPC));
      }
    }

    method FetchFreeInodeId() returns (r: Result<Option<int>>)
      modifies meta
      ensures (r, meta.State()) == keys.FetchFreeInodeId(old(meta.State()))
    {
      var o := IncrInodeCounter();
      if o.Fail? {
        return Err(o.failure);
      }
      var id := meta.IncrSuperblockKey(keys.freeInodeId, 1);
      r := Ok(id);
    }

    method DecrInodeCounter()
      modifies meta
      ensures meta.State() == keys.DecrInodeCounter(old(meta.State()))
    {
      var _ := meta.DecrSuperblockKey(keys.inodeCounter, 1);
    }

    method IncrUsedSize(v: int) returns (r: Outcome)
      modifies meta
      ensures (r, meta.State()) == keys.IncrUsedSize(old(meta.State()), v)
    {
      var used := UsedSize();
      var total := TotalSize();
      if used + v <= total {
        var _ := meta.IncrSuperblockKey(keys.usedSize, v);
        r := Done;
      } else {
        r := Fail(Fuse(ENOSPC));
      }
    }

    method DecrUsedSize(v: int)
      modifies meta
      ensures meta.State() == keys.DecrUsedSize(old(meta.State()), v)
    {
      var _ := meta.DecrSuperblockKey(keys.usedSize, v);
    }
  }
}
