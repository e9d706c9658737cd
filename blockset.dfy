/**
 * The dirty and clean block sets (objectfs/core/common/blockset.py): one Redis
 * set per inode and kind, under `<fs>%<inode>@DIRTY` or `<fs>%<inode>@CLEAN`,
 * holding the ids of the inode's blocks. Redis stores each id as its decimal
 * string and `get` converts it back with `int`; `ParseNatToString` shows the
 * conversion gives the id back, so the model stores the ids themselves.
 */
module BlockSets {
  import opened Common
  import opened Strings

  const FsDelimiter: char := '%'
  const NameDelimiter: char := '@'

  /** The kinds `DirtySet` and `CleanSet` fix. */
  const Dirty: string := "DIRTY"
  const Clean: string := "CLEAN"

  /** `_set_key`. */
  function SetKey(fs: string, inode: nat, kind: string): string
  {
    fs + [FsDelimiter] + NatToString(inode) + [NameDelimiter] + kind
  }

  /** Different inodes or different kinds never share a set. */
  lemma SetKeyInjective(fs: string, a: nat, k: string, b: nat, l: string)
    ensures SetKey(fs, a, k) == SetKey(fs, b, l) <==> a == b && k == l
  {
    if SetKey(fs, a, k) == SetKey(fs, b, l) {
      var x := NatToString(a) + [NameDelimiter] + k;
      var y := NatToString(b) + [NameDelimiter] + l;
      assert x == SetKey(fs, a, k)[|fs| + 1..];
      assert y == SetKey(fs, b, l)[|fs| + 1..];
      DigitsHaveNo(a, NameDelimiter);
      DigitsHaveNo(b, NameDelimiter);
      Unsplit(NatToString(a), k, NatToString(b), l, NameDelimiter);
      NatToStringInjective(a, b);
    }
  }

  /** The dirty set and the clean set of an inode are different keys, and neither is another inode's. */
  lemma DirtyCleanDistinct(fs: string, a: nat, b: nat)
    ensures SetKey(fs, a, Dirty) != SetKey(fs, b, Clean)
  {
    SetKeyInjective(fs, a, Dirty, b, Clean);
  }

  /** The sets of one kind; Redis drops a set when its last member goes. */
  datatype Sets = Sets(members: map<nat, set<nat>>)
  {
    function Members(inode: nat): set<nat>
    {
      if inode in members then members[inode] else {}
    }

    function Store(inode: nat, s: set<nat>): Sets
    {
      if s == {} then Sets(members - {inode}) else Sets(members[inode := s])
    }

    /** `add`: `SADD key b1 b2 ...`. */
    function Add(inode: nat, ids: seq<nat>): Sets
    {
      Store(inode, Members(inode) + set b | b in ids)
    }

    /** `remove`: `SREM key b1 b2 ...`. */
    function Remove(inode: nat, ids: seq<nat>): Sets
    {
      Store(inode, Members(inode) - set b | b in ids)
    }

    /** `delete_set`: `DEL`. */
    function Delete(inode: nat): Sets
    {
      Sets(members - {inode})
    }
  }

  /** `add` makes the set the union and leaves other inodes alone; re-adding changes nothing. */
  lemma AddSpec(s: Sets, inode: nat, ids: seq<nat>, other: nat)
    ensures forall b :: b in s.Add(inode, ids).Members(inode) <==> b in s.Members(inode) || b in ids
    ensures other != inode ==> s.Add(inode, ids).Members(other) == s.Members(other)
    ensures s.Add(inode, ids).Add(inode, ids) == s.Add(inode, ids)
  {
  }

  /** `remove` makes the set the difference; ids that are not members are ignored. */
  lemma RemoveSpec(s: Sets, inode: nat, ids: seq<nat>, other: nat)
    ensures forall b :: b in s.Remove(inode, ids).Members(inode) <==> b in s.Members(inode) && b !in ids
    ensures other != inode ==> s.Remove(inode, ids).Members(other) == s.Members(other)
    ensures (forall b :: b in ids ==> b !in s.Members(inode)) ==> s.Remove(inode, ids).Members(inode) == s.Members(inode)
  {
  }

  /** Removing ids that were just added, when none was a member before, restores the set. */
  lemma AddThenRemove(s: Sets, inode: nat, ids: seq<nat>)
    requires forall b :: b in ids ==> b !in s.Members(inode)
    ensures s.Add(inode, ids).Remove(inode, ids).Members(inode) == s.Members(inode)
  {
  }

  /** `delete_set` empties that inode's set and no other. */
  lemma DeleteOnlyThat(s: Sets, inode: nat, other: nat)
    ensures s.Delete(inode).Members(inode) == {}
    ensures other != inode ==> s.Delete(inode).Members(other) == s.Members(other)
  {
  }

  /** A `BlockSet`; `DirtySet` and `CleanSet` are this class with `kind` fixed. */
  class BlockSet {
    const fsName: string
    const kind: string
    var members: map<nat, set<nat>>

    function State(): Sets
      reads this
    {
      Sets(members)
    }

    constructor (fsName: string, kind: string, contents: Sets)
      ensures this.fsName == fsName && this.kind == kind && State() == contents
    {
      this.fsName := fsName;
      this.kind := kind;
      members := contents.members;
    }

    method DeleteSet(inode: nat)
      modifies this
      ensures State() == old(State()).Delete(inode)
    {
      members := members - {inode};
    }

    /** Redis refuses `SADD` with no members. */
    method Add(inode: nat, ids: seq<nat>) returns (r: Outcome)
      modifies this
      ensures r == if |ids| == 0 then Fail(Crash(BackendError)) else Done
      ensures State() == if |ids| == 0 then old(State()) else old(State()).Add(inode, ids)
    {
      if |ids| == 0 {
        return Fail(Crash(BackendError));
      }
      members := State().Add(inode, ids).members;
      r := Done;
    }

    /** Redis refuses `SREM` with no members. */
    method Remove(inode: nat, ids: seq<nat>) returns (r: Outcome)
      modifies this
      ensures r == if |ids| == 0 then Fail(Crash(BackendError)) else Done
      ensures State() == if |ids| == 0 then old(State()) else old(State()).Remove(inode, ids)
    {
      if |ids| == 0 {
        return Fail(Crash(BackendError));
      }
      members := State().Remove(inode, ids).members;
      r := Done;
    }

    /** `get`: every member exactly once, in an order Redis does not promise. */
    method Get(inode: nat) returns (ids: seq<nat>)
      ensures forall b :: b in ids <==> b in State().Members(inode)
      ensures forall i, j :: 0 <= i < j < |ids| ==> ids[i] != ids[j]
    {
      var all := State().Members(inode);
      var rest := all;
      ids := [];
      while rest != {}
        invariant rest <= all
        invariant forall b :: b in ids <==> b in all && b !in rest
        invariant forall i, j :: 0 <= i < j < |ids| ==> ids[i] != ids[j]
        decreases rest
      {
        var b :| b in rest;
        ids := ids + [b];
        rest := rest - {b};
      }
    }
  }
}
