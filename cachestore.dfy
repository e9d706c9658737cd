/**
 * The Redis cache store (objectfs/core/cache/cachestore.py, `RedisCacheStore`):
 * one Redis string per block of a file, under `<fs>%data%<inode>%<block>`,
 * patched with `SETRANGE` and read with `GETRANGE`.
 */
module CacheStores {
  import opened Common
  import opened Strings

  const FsDelimiter: char := '%'

  /** `_cache_key`. */
  function CacheKey(fs: string, inode: nat, block: nat): string
  {
    fs + [FsDelimiter] + "data" + [FsDelimiter] + NatToString(inode) + [FsDelimiter] + NatToString(block)
  }

  /** Distinct (inode, block) pairs have distinct keys, so each block is independent of every other. */
  lemma CacheKeyInjective(fs: string, i: nat, b: nat, j: nat, c: nat)
    ensures CacheKey(fs, i, b) == CacheKey(fs, j, c) <==> i == j && b == c
  {
    if CacheKey(fs, i, b) == CacheKey(fs, j, c) {
      var n := |fs| + 6;
      var x := NatToString(i) + [FsDelimiter] + NatToString(b);
      var y := NatToString(j) + [FsDelimiter] + NatToString(c);
      assert x == CacheKey(fs, i, b)[n..];
      assert y == CacheKey(fs, j, c)[n..];
      DigitsHaveNo(i, FsDelimiter);
      DigitsHaveNo(j, FsDelimiter);
      Unsplit(NatToString(i), NatToString(b), NatToString(j), NatToString(c), FsDelimiter);
      NatToStringInjective(i, j);
      NatToStringInjective(b, c);
    }
  }

  /**
   * Redis `SETRANGE key off buf` on the value `data` (empty when the key is
   * absent): the bytes from `off` replaced, a gap zero-filled. An empty `buf`
   * changes nothing (and does not create the key).
   */
  function SetRange(data: Bytes, off: nat, buf: Bytes): Bytes
  {
    if buf == [] then data else Splice(data, off, buf)
  }

  /**
   * Redis `GETRANGE key start end`: both ends inclusive, a negative index
   * counts from the end, and the range is clamped to the value.
   */
  function GetRange(s: Bytes, start: int, end: int): (r: Bytes)
    ensures |r| <= |s|
  {
    if start < 0 && end < 0 && start > end then []
    else
      var lo := Max(if start < 0 then |s| + start else start, 0);
      var hi0 := Max(if end < 0 then |s| + end else end, 0);
      var hi := if hi0 >= |s| then |s| - 1 else hi0;
      if lo > hi || |s| == 0 then [] else s[lo..hi + 1]
  }

  /** With non-negative bounds, `GETRANGE start end` is the Python slice `s[start:end + 1]`. */
  lemma GetRangeNonNegative(s: Bytes, start: nat, end: nat)
    ensures GetRange(s, start, end) == Slice(s, start, end + 1)
  {
  }

  /** The cached blocks of one filesystem. */
  datatype Blocks = Blocks(data: map<(nat, nat), Bytes>)
  {
    function Exists(inode: nat, block: nat): bool
    {
      (inode, block) in data
    }

    /** `get_inode`: None (Python's `None`) for an absent block. */
    function Get(inode: nat, block: nat): Option<Bytes>
    {
      if (inode, block) in data then Some(data[(inode, block)]) else None
    }

    /** What `GETRANGE` and `SETRANGE` see: an absent block reads as empty. */
    function Value(inode: nat, block: nat): Bytes
    {
      if (inode, block) in data then data[(inode, block)] else []
    }

    /** `put_inode`: `SET`. */
    function Put(inode: nat, block: nat, d: Bytes): Blocks
    {
      Blocks(data[(inode, block) := d])
    }

    /** `remove_inode`: `DEL`; an absent block is no error. */
    function Remove(inode: nat, block: nat): Blocks
    {
      Blocks(data - {(inode, block)})
    }

    /** `write_inode`: `SETRANGE`. */
    function Write(inode: nat, off: nat, buf: Bytes, block: nat): Blocks
    {
      if buf == [] then this else Blocks(data[(inode, block) := SetRange(Value(inode, block), off, buf)])
    }

    /** `read_inode`: `GETRANGE`. */
    function Read(inode: nat, start: int, end: int, block: nat): Bytes
    {
      GetRange(Value(inode, block), start, end)
    }
  }

  /** `put_inode` then `get_inode` gives the data back and `exists_inode` is true; no other block changes. */
  lemma PutThenGet(c: Blocks, inode: nat, block: nat, d: Bytes, i: nat, b: nat)
    ensures c.Put(inode, block, d).Get(inode, block) == Some(d)
    ensures c.Put(inode, block, d).Exists(inode, block)
    ensures (i, b) != (inode, block) ==> c.Put(inode, block, d).Get(i, b) == c.Get(i, b)
  {
  }

  /** After `remove_inode` the block does not exist; removing an absent block changes nothing. */
  lemma RemoveSpec(c: Blocks, inode: nat, block: nat, i: nat, b: nat)
    ensures !c.Remove(inode, block).Exists(inode, block)
    ensures !c.Exists(inode, block) ==> c.Remove(inode, block) == c
    ensures (i, b) != (inode, block) ==> c.Remove(inode, block).Get(i, b) == c.Get(i, b)
  {
  }

  /**
   * `write_inode` overwrites bytes [off, off + |buf|) of the block, zero-fills
   * up to `off`, keeps every other byte, and touches no other block.
   */
  lemma WriteSpec(c: Blocks, inode: nat, off: nat, buf: Bytes, block: nat, i: nat, b: nat)
    requires buf != []
    ensures var old_ := c.Value(inode, block);
      var new_ := c.Write(inode, off, buf, block).Value(inode, block);
      |new_| == Max(|old_|, off + |buf|)
      && (forall k :: 0 <= k < |new_| ==>
            new_[k] == if off <= k < off + |buf| then buf[k - off] else if k < |old_| then old_[k] else 0)
    ensures (i, b) != (inode, block) ==> c.Write(inode, off, buf, block).Get(i, b) == c.Get(i, b)
  {
  }

  /** Reading back the range just written gives what was written. */
  lemma WriteThenRead(c: Blocks, inode: nat, off: nat, buf: Bytes, block: nat)
    requires buf != []
    ensures c.Write(inode, off, buf, block).Read(inode, off, off + |buf| - 1, block) == buf
  {
    var new_ := c.Write(inode, off, buf, block).Value(inode, block);
    GetRangeNonNegative(new_, off, off + |buf| - 1);
    assert new_[off..off + |buf|] == buf;
  }

  /** Writing at 0 into an absent block and reading `(0, len)` gives the written string back. */
  lemma WriteReadFromStart(c: Blocks, inode: nat, s: Bytes, block: nat)
    requires !c.Exists(inode, block)
    ensures c.Write(inode, 0, s, block).Read(inode, 0, |s|, block) == s
  {
    if s != [] {
      var new_ := c.Write(inode, 0, s, block).Value(inode, block);
      assert new_ == s;
      GetRangeNonNegative(new_, 0, |s|);
    }
  }

  class RedisCacheStore {
    const fsName: string
    var data: map<(nat, nat), Bytes>

    function State(): Blocks
      reads this
    {
      Blocks(data)
    }

    constructor (fsName: string, contents: Blocks)
      ensures this.fsName == fsName && State() == contents
    {
      this.fsName := fsName;
      data := contents.data;
    }

    /** Returns the value's new length, as `SETRANGE` does. */
    method WriteInode(inode: nat, off: nat, buf: Bytes, block: nat) returns (n: nat)
      modifies this
      ensures State() == old(State()).Write(inode, off, buf, block)
      ensures n == |State().Value(inode, block)|
    {
      data := State().Write(inode, off, buf, block).data;
      n := |State().Value(inode, block)|;
    }

    method ReadInode(inode: nat, start: int, end: int, block: nat) returns (r: Bytes)
      ensures r == State().Read(inode, start, end, block)
      ensures start >= 0 && end >= 0 ==> r == Slice(State().Value(inode, block), start, end + 1)
    {
      r := GetRange(State().Value(inode, block), start, end);
      if start >= 0 && end >= 0 {
        GetRangeNonNegative(State().Value(inode, block), start, end);
      }
    }

    method PutInode(inode: nat, d: Bytes, block: nat)
      modifies this
      ensures State() == old(State()).Put(inode, block, d)
    {
      data := data[(inode, block) := d];
    }

    method GetInode(inode: nat, block: nat) returns (r: Option<Bytes>)
      ensures r == State().Get(inode, block)
      ensures r.Some? <==> State().Exists(inode, block)
    {
      r := if (inode, block) in data then Some(data[(inode, block)]) else None;
    }

    /** Returns the number of keys removed, as `DEL` does. */
    method RemoveInode(inode: nat, block: nat) returns (n: nat)
      modifies this
      ensures State() == old(State()).Remove(inode, block)
      ensures n == if old(State()).Exists(inode, block) then 1 else 0
    {
      n := if (inode, block) in data then 1 else 0;
      data := data - {(inode, block)};
    }

    method ExistsInode(inode: nat, block: nat) returns (b: bool)
      ensures b == State().Exists(inode, block)
      ensures b <==> State().Get(inode, block).Some?
    {
      b := (inode, block) in data;
    }
  }
}
