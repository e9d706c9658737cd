/**
 * The metadata store (objectfs/core/metadata/metastore.py) and the write-through
 * inode object (objectfs/core/metadata/inode.py). Redis holds, per filesystem:
 * the serialised inode records under `<fs>%<id>`, the name index under
 * `<fs>%<parent>#<name>`, each directory's entry list under `<fs>%<id>&list`,
 * and the superblock counters. The model keeps each key family as a map keyed
 * by the parts the key is built from; the key builders below are proved
 * injective and the three families disjoint, so no two model keys share a
 * Redis key.
 */
module MetaStores {
  import opened Common
  import opened Strings
  import opened Inodes

  const FsDelimiter: char := '%'
  const NameDelimiter: char := '#'
  const ListDelimiter: char := '&'

  // ---------------------------------------------------------------------------
  // Keys

  /** `_wrap_fs_delimiter`. */
  function WrapFs(fs: string, key: string): string { fs + [FsDelimiter] + key }

  function RecordKey(fs: string, id: nat): string { WrapFs(fs, NatToString(id)) }

  /** `_inode_reverse_key`: also the form of one entry of a directory list. */
  function ReverseKey(id: nat, name: string): string { NatToString(id) + [NameDelimiter] + name }

  function IndexKey(fs: string, parent: nat, name: string): string { WrapFs(fs, ReverseKey(parent, name)) }

  /** `_inode_list_key`. */
  function ListKey(fs: string, id: nat): string { WrapFs(fs, NatToString(id) + [ListDelimiter] + "list") }

  /** `'{}'.format(name)`: the index key of an inode stored without a name says "None". */
  function FormatName(name: Option<string>): string
  {
    match name
    case None => "None"
    case Some(s) => s
  }

  lemma WrapFsInjective(fs: string, x: string, y: string)
    ensures WrapFs(fs, x) == WrapFs(fs, y) <==> x == y
  {
    if WrapFs(fs, x) == WrapFs(fs, y) {
      assert x == WrapFs(fs, x)[|fs| + 1..];
      assert y == WrapFs(fs, y)[|fs| + 1..];
    }
  }

  lemma RecordKeyInjective(fs: string, a: nat, b: nat)
    ensures RecordKey(fs, a) == RecordKey(fs, b) <==> a == b
  {
    WrapFsInjective(fs, NatToString(a), NatToString(b));
    NatToStringInjective(a, b);
  }

  lemma IndexKeyInjective(fs: string, p: nat, n: string, q: nat, m: string)
    ensures IndexKey(fs, p, n) == IndexKey(fs, q, m) <==> p == q && n == m
  {
    WrapFsInjective(fs, ReverseKey(p, n), ReverseKey(q, m));
    if ReverseKey(p, n) == ReverseKey(q, m) {
      DigitsHaveNo(p, NameDelimiter);
      DigitsHaveNo(q, NameDelimiter);
      Unsplit(NatToString(p), n, NatToString(q), m, NameDelimiter);
      NatToStringInjective(p, q);
    }
  }

  lemma ListKeyInjective(fs: string, a: nat, b: nat)
    ensures ListKey(fs, a) == ListKey(fs, b) <==> a == b
  {
    var x, y := NatToString(a) + [ListDelimiter] + "list", NatToString(b) + [ListDelimiter] + "list";
    WrapFsInjective(fs, x, y);
    if x == y {
      DigitsHaveNo(a, ListDelimiter);
      DigitsHaveNo(b, ListDelimiter);
      Unsplit(NatToString(a), "list", NatToString(b), "list", ListDelimiter);
      NatToStringInjective(a, b);
    }
  }

  /** A record key, an index key and a list key of one filesystem are never the same key. */
  lemma KeyFamiliesDisjoint(fs: string, a: nat, p: nat, n: string, b: nat)
    ensures RecordKey(fs, a) != IndexKey(fs, p, n)
    ensures RecordKey(fs, a) != ListKey(fs, b)
    ensures IndexKey(fs, p, n) != ListKey(fs, b)
  {
    var r, i, l := NatToString(a), ReverseKey(p, n), NatToString(b) + [ListDelimiter] + "list";
    DigitsHaveNo(a, NameDelimiter);
    DigitsHaveNo(a, ListDelimiter);
    DigitsHaveNo(b, NameDelimiter);
    assert i[|NatToString(p)|] == NameDelimiter;
    assert l[|NatToString(b)|] == ListDelimiter;
    assert NameDelimiter !in l;
    WrapFsInjective(fs, r, i);
    WrapFsInjective(fs, r, l);
    WrapFsInjective(fs, i, l);
  }

  // ---------------------------------------------------------------------------
  // Directory list entries `<id>#<name>`

  /** One step of `get_inode_id_list`: `split('#')` must give two parts and the first must be a number. */
  function DecodeEntry(s: string): Option<(nat, string)>
  {
    var parts := Split(s, NameDelimiter);
    if |parts| != 2 then None
    else match ParseNat(parts[0])
      case None => None
      case Some(id) => Some((id, parts[1]))
  }

  lemma {:induction false} SplitWithDelimiter(s: string, d: char)
    requires d in s
    ensures |Split(s, d)| >= 2
  {
    if s[0] != d {
      SplitWithDelimiter(s[1..], d);
    }
  }

  /** An entry reads back as written exactly when the name has no `#`. */
  lemma DecodeEntryRoundTrip(id: nat, name: string)
    ensures DecodeEntry(ReverseKey(id, name)) == (if NameDelimiter in name then None else Some((id, name)))
  {
    DigitsHaveNo(id, NameDelimiter);
    SplitAfterPrefix(NatToString(id), NameDelimiter, name);
    if NameDelimiter in name {
      SplitWithDelimiter(name, NameDelimiter);
    } else {
      SplitNoDelimiter(name, NameDelimiter);
      ParseNatToString(id);
    }
  }

  /**
   * The pairs `get_inode_id_list` yields from the stored entries. The generator
   * stops with ValueError at the first malformed entry; `stopped` says it did.
   */
  function DecodeEntries(ss: seq<string>): (r: (seq<(nat, string)>, bool))
    ensures |r.0| <= |ss|
    ensures forall i :: 0 <= i < |r.0| ==> DecodeEntry(ss[i]) == Some(r.0[i])
    ensures r.1 <==> |r.0| < |ss|
    ensures r.1 ==> DecodeEntry(ss[|r.0|]).None?
  {
    if |ss| == 0 then ([], false)
    else match DecodeEntry(ss[0])
      case None => ([], true)
      case Some(e) =>
        var rest := DecodeEntries(ss[1..]);
        ([e] + rest.0, rest.1)
  }

  // ---------------------------------------------------------------------------
  // The store's contents

  /**
   * What Redis holds for one filesystem: the inode records, the name index,
   * the directory lists and the superblock keys. A missing list reads as the
   * empty list, as it does in Redis.
   */
  datatype Meta = Meta(
    records: map<nat, InodeRecord>,
    index: map<(nat, string), nat>,
    lists: map<nat, seq<string>>,
    sb: map<string, int>)
  {
    function Record(id: nat): Option<InodeRecord>
    {
      if id in records then Some(records[id]) else None
    }

    function InodeId(parent: nat, name: string): Option<nat>
    {
      if (parent, name) in index then Some(index[(parent, name)]) else None
    }

    function List(id: nat): seq<string>
    {
      if id in lists then lists[id] else []
    }

    /** `put_inode`: the record, and the index entry under its parent and formatted name. */
    function PutInode(r: InodeRecord): Meta
    {
      this.(records := records[r.id := r]).BuildIndex(r.parentInodeId, r.id, FormatName(r.name))
    }

    function UpdateInode(r: InodeRecord): Meta
    {
      this.(records := records[r.id := r])
    }

    function BuildIndex(parent: nat, id: nat, name: string): Meta
    {
      this.(index := index[(parent, name) := id])
    }

    function CleanIndex(parent: nat, name: string): Meta
    {
      this.(index := index - {(parent, name)})
    }

    function AddToList(dir: nat, id: nat, name: string): Meta
    {
      this.(lists := lists[dir := List(dir) + [ReverseKey(id, name)]])
    }

    function RemoveFromList(dir: nat, id: nat, name: string): Meta
    {
      if dir in lists then this.(lists := lists[dir := RemoveFirst(lists[dir], ReverseKey(id, name))])
      else this
    }

    function DeleteList(id: nat): Meta
    {
      this.(lists := lists - {id})
    }

    /**
     * `delete_inode`: the record, the index entry under the STORED parent and
     * name, and the inode's own list. None when there is no record (the source
     * then fails reading an attribute of None).
     */
    function DeleteInode(id: nat): Option<Meta>
    {
      if id !in records then None
      else
        var r := records[id];
        Some(this.(records := records - {id}).CleanIndex(r.parentInodeId, FormatName(r.name)).DeleteList(id))
    }

    /**
     * `delete_inode` as evidently intended: the stored key is cleaned only
     * while it still names the inode, so a name that has since passed to
     * another inode stays indexed.
     */
    function CorrectedDeleteInode(id: nat): Option<Meta>
    {
      if id !in records then None
      else
        var r := records[id];
        var m1 := this.(records := records - {id});
        var key := (r.parentInodeId, FormatName(r.name));
        var m2 := if key in index && index[key] == id then m1.CleanIndex(key.0, key.1) else m1;
        Some(m2.DeleteList(id))
    }

    function SbGet(key: string): Option<int>
    {
      if key in sb then Some(sb[key]) else None
    }

    /** `INCRBY`: an absent key counts as zero. */
    function IncrBy(key: string, v: int): Meta
    {
      this.(sb := sb[key := (if key in sb then sb[key] else 0) + v])
    }

    /** Every record is stored under its own id. */
    ghost predicate RecordsKeyed()
    {
      forall id :: id in records ==> records[id].id == id
    }
  }

  lemma PutInodeThenGet(m: Meta, r: InodeRecord)
    ensures m.PutInode(r).Record(r.id) == Some(r)
    ensures m.PutInode(r).InodeId(r.parentInodeId, FormatName(r.name)) == Some(r.id)
    ensures forall id :: id != r.id ==> m.PutInode(r).Record(id) == m.Record(id)
    ensures m.PutInode(r).lists == m.lists && m.PutInode(r).sb == m.sb
  {
  }

  /** Adding an entry and removing it again leaves the list as it was. */
  lemma AddThenRemoveEntry(m: Meta, dir: nat, id: nat, name: string)
    requires ReverseKey(id, name) !in m.List(dir)
    ensures m.AddToList(dir, id, name).RemoveFromList(dir, id, name).List(dir) == m.List(dir)
  {
    RemoveFirstAppended(m.List(dir), ReverseKey(id, name));
  }

  // ---------------------------------------------------------------------------
  // The Redis client

  class RedisMetaStore {
    const fsName: string
    var records: map<nat, InodeRecord>
    var index: map<(nat, string), nat>
    var lists: map<nat, seq<string>>
    var sb: map<string, int>

    function State(): Meta
      reads this
    {
      Meta(records, index, lists, sb)
    }

    /** A client of the Redis server that currently holds `contents`. */
    constructor (fsName: string, contents: Meta)
      ensures this.fsName == fsName && State() == contents
    {
      this.fsName := fsName;
      records, index, lists, sb := contents.records, contents.index, contents.lists, contents.sb;
    }

    method SetSuperblockKey(key: string, value: int)
      modifies this
      ensures State() == old(State()).(sb := old(sb)[key := value])
    {
      sb := sb[key := value];
    }

    /** `get_superblock_key`: None for a missing key. */
    method GetSuperblockKey(key: string) returns (r: Option<int>)
      ensures r.Some? <==> key in sb
      ensures r.Some? ==> r.value == sb[key]
    {
      r := if key in sb then Some(sb[key]) else None;
    }

    /** `incr_superblock_key`: the new value, or None when the new value is 0. */
    method IncrSuperblockKey(key: string, value: int) returns (r: Option<int>)
      modifies this
      ensures State() == old(State()).IncrBy(key, value)
      ensures r == if sb[key] == 0 then None else Some(sb[key])
    {
      sb := State().IncrBy(key, value).sb;
      r := if sb[key] == 0 then None else Some(sb[key]);
    }

    /** `decr_superblock_key` (redis-py's `decr(key, amount)`). */
    method DecrSuperblockKey(key: string, value: int) returns (r: Option<int>)
      modifies this
      ensures State() == old(State()).IncrBy(key, -value)
      ensures r == if sb[key] == 0 then None else Some(sb[key])
    {
      sb := State().IncrBy(key, -value).sb;
      r := if sb[key] == 0 then None else Some(sb[key]);
    }

    /** `delete_superblock_key`: `DEL` of no keys at all is refused by Redis. */
    method DeleteSuperblockKey(keys: seq<string>) returns (r: Outcome)
      modifies this
      ensures r == if |keys| == 0 then Fail(Crash(BackendError)) else Done
      ensures State() == old(State()).(sb := old(sb) - set k | k in keys)
    {
      if |keys| == 0 {
        return Fail(Crash(BackendError));
      }
      sb := sb - set k | k in keys;
      r := Done;
    }

    method Exists(key: string) returns (b: bool)
      ensures b <==> key in sb
    {
      b := key in sb;
    }

    /** `get_inode`: a new object loaded from the stored record, or null when there is none. */
    method GetInode(id: nat) returns (ino: Inode?)
      ensures ino == null <==> id !in records
      ensures ino != null ==> fresh(ino) && ino.meta == this && ino.Record() == records[id]
    {
      if id !in records {
        return null;
      }
      ino := new Inode.Load(this, records[id]);
    }

    method PutInode(ino: Inode)
      modifies this
      ensures State() == old(State()).PutInode(ino.Record())
    {
      records := records[ino.id := ino.Record()];
      BuildIndex(ino.parentInodeId, ino.id, FormatName(ino.name));
    }

    method UpdateInode(ino: Inode)
      modifies this
      ensures State() == old(State()).UpdateInode(ino.Record())
    {
      records := records[ino.id := ino.Record()];
    }

    /** `get_inode_id`: the id indexed under the parent and name, or None. */
    method GetInodeId(parent: nat, name: string) returns (r: Option<nat>)
      ensures r.Some? <==> (parent, name) in index
      ensures r.Some? ==> r.value == index[(parent, name)]
    {
      r := if (parent, name) in index then Some(index[(parent, name)]) else None;
    }

    method DeleteInode(id: nat) returns (r: Outcome)
      modifies this
      ensures r == if id in old(records) then Done else Fail(Crash(NoneValue))
      ensures State() == if id in old(records) then old(State()).DeleteInode(id).value else old(State())
    {
      var ino := GetInode(id);
      records := records - {id};
      if ino == null {
        return Fail(Crash(NoneValue));
      }
      CleanIndex(ino.parentInodeId, FormatName(ino.name));
      DeleteInodeIdList(id);
      r := Done;
    }

    /** `delete_inode` with the stored key cleaned only while it is still indexed to the inode. */
    method CorrectedDeleteInode(id: nat) returns (r: Outcome)
      modifies this
      ensures r == if id in old(records) then Done else Fail(Crash(NoneValue))
      ensures State() == if id in old(records) then old(State()).CorrectedDeleteInode(id).value else old(State())
    {
      var ino := GetInode(id);
      records := records - {id};
      if ino == null {
        return Fail(Crash(NoneValue));
      }
      var named := GetInodeId(ino.parentInodeId, FormatName(ino.name));
      if named == Some(id) {
        CleanIndex(ino.parentInodeId, FormatName(ino.name));
      }
      DeleteInodeIdList(id);
      r := Done;
    }

    method BuildIndex(parent: nat, id: nat, name: string)
      modifies this
      ensures State() == old(State()).BuildIndex(parent, id, name)
    {
      index := index[(parent, name) := id];
    }

    method CleanIndex(parent: nat, name: string)
      modifies this
      ensures State() == old(State()).CleanIndex(parent, name)
    {
      index := index - {(parent, name)};
    }

    /**
     * `get_inode_id_list(id, offset)`: `LRANGE offset -1` decoded entry by
     * entry; `stopped` when a malformed entry raised ValueError.
     */
    method GetInodeIdList(id: nat, offset: nat) returns (entries: seq<(nat, string)>, stopped: bool)
      ensures var s := State().List(id)[Min(offset, |State().List(id)|)..];
        |entries| <= |s| &&
        (forall i :: 0 <= i < |entries| ==> DecodeEntry(s[i]) == Some(entries[i])) &&
        (stopped <==> |entries| < |s|) &&
        (stopped ==> DecodeEntry(s[|entries|]).None?)
    {
      var all := State().List(id);
      var s := all[Min(offset, |all|)..];
      entries := [];
      stopped := false;
      var i := 0;
      while i < |s|
        invariant 0 <= i <= |s| && |entries| == i
        invariant forall j :: 0 <= j < i ==> DecodeEntry(s[j]) == Some(entries[j])
      {
        var e := DecodeEntry(s[i]);
        if e.None? {
          stopped := true;
          return;
        }
        entries := entries + [e.value];
        i := i + 1;
      }
    }

    /** `add_inode_id_to_list`: `RPUSH` of the entry `<id>#<name>`. */
    method AddInodeIdToList(dir: nat, id: nat, name: string)
      modifies this
      ensures State() == old(State()).AddToList(dir, id, name)
    {
      lists := lists[dir := State().List(dir) + [ReverseKey(id, name)]];
    }

    /** `remove_inode_id_from_list`: `LREM` of the first matching entry. */
    method RemoveInodeIdFromList(dir: nat, id: nat, name: string)
      modifies this
      ensures State() == old(State()).RemoveFromList(dir, id, name)
    {
      if dir in lists {
        lists := lists[dir := RemoveFirst(lists[dir], ReverseKey(id, name))];
      }
    }

    method DeleteInodeIdList(id: nat)
      modifies this
      ensures State() == old(State()).DeleteList(id)
    {
      lists := lists - {id};
    }

    /** `length_inode_id_list`: `LLEN`, zero for a missing list. */
    method LengthInodeIdList(id: nat) returns (n: nat)
      ensures n == |State().List(id)|
      ensures n == 0 <==> id !in lists || lists[id] == []
    {
      n := if id in lists then |lists[id]| else 0;
    }
  }

  /**
   * An `Inode` object. Every attribute assignment writes the whole record
   * back to the store it was loaded from (`Inode.update`).
   */
  class Inode {
    const meta: RedisMetaStore
    const id: nat
    const fsName: string
    var mode: nat
    var name: Option<string>
    var parentInodeId: nat
    var size: int
    var openCount: int
    var lookupCount: int
    var uid: int
    var gid: int
    var atime: int
    var mtime: int
    var ctime: int
    var rdev: int
    var target: Option<string>
    var nlink: int

    function Record(): InodeRecord
      reads this
    {
      InodeRecord(id, mode, fsName, name, parentInodeId, size, openCount, lookupCount,
                  uid, gid, atime, mtime, ctime, rdev, target, nlink)
    }

    /** `Inode.__init__`; the three times given are ignored in favour of the clock reading `now`. */
    constructor (meta: RedisMetaStore, fsName: string, nodeId: nat, mode: nat, objectName: Option<string>,
                 parentInodeId: nat, size: int, uid: int, gid: int,
                 atime: Option<int>, mtime: Option<int>, ctime: Option<int>,
                 target: Option<string>, rdev: int, nlink: int, now: int)
      ensures this.meta == meta
      ensures Record() == NewInode(fsName, nodeId, mode, objectName, parentInodeId, size, uid, gid, target, rdev, nlink, now)
      ensures Record().openCount == 0 && Record().lookupCount == 0
      ensures Record().atime == now && Record().mtime == now && Record().ctime == now
    {
      this.meta := meta;
      this.id := nodeId;
      this.fsName := fsName;
      this.mode := mode;
      this.name := objectName;
      this.parentInodeId := parentInodeId;
      this.size := size;
      this.openCount := 0;
      this.lookupCount := 0;
      this.uid := uid;
      this.gid := gid;
      this.atime := now;
      this.mtime := now;
      this.ctime := now;
      this.rdev := rdev;
      this.target := target;
      this.nlink := nlink;
    }

    /** `Inode.from_string`: an object with the stored attributes. */
    constructor Load(meta: RedisMetaStore, r: InodeRecord)
      ensures this.meta == meta && Record() == r
    {
      this.meta := meta;
      id, fsName := r.id, r.fsName;
      mode, name, parentInodeId, size := r.mode, r.name, r.parentInodeId, r.size;
      openCount, lookupCount, uid, gid := r.openCount, r.lookupCount, r.uid, r.gid;
      atime, mtime, ctime, rdev, target, nlink := r.atime, r.mtime, r.ctime, r.rdev, r.target, r.nlink;
    }

    /** `Inode.update`. */
    method Update()
      modifies meta
      ensures meta.State() == old(meta.State()).UpdateInode(Record())
    {
      meta.UpdateInode(this);
    }

    method SetMode(v: nat)
      modifies this, meta
      ensures Record() == old(Record()).(mode := v)
      ensures meta.State() == old(meta.State()).UpdateInode(Record())
    {
      mode := v;
      Update();
    }

    method SetName(v: Option<string>)
      modifies this, meta
      ensures Record() == old(Record()).(name := v)
      ensures meta.State() == old(meta.State()).UpdateInode(Record())
    {
      name := v;
      Update();
    }

    method SetParentInodeId(v: nat)
      modifies this, meta
      ensures Record() == old(Record()).(parentInodeId := v)
      ensures meta.State() == old(meta.State()).UpdateInode(Record())
    {
      parentInodeId := v;
      Update();
    }

    method SetSize(v: int)
      modifies this, meta
      ensures Record() == old(Record()).(size := v)
      ensures meta.State() == old(meta.State()).UpdateInode(Record())
    {
      size := v;
      Update();
    }

    method SetOpenCount(v: int)
      modifies this, meta
      ensures Record() == old(Record()).(openCount := v)
      ensures meta.State() == old(meta.State()).UpdateInode(Record())
    {
      openCount := v;
      Update();
    }

    method SetLookupCount(v: int)
      modifies this, meta
      ensures Record() == old(Record()).(lookupCount := v)
      ensures meta.State() == old(meta.State()).UpdateInode(Record())
    {
      lookupCount := v;
      Update();
    }

    method SetUid(v: int)
      modifies this, meta
      ensures Record() == old(Record()).(uid := v)
      ensures meta.State() == old(meta.State()).UpdateInode(Record())
    {
      uid := v;
      Update();
    }

    method SetGid(v: int)
      modifies this, meta
      ensures Record() == old(Record()).(gid := v)
      ensures meta.State() == old(meta.State()).UpdateInode(Record())
    {
      gid := v;
      Update();
    }

    method SetAtime(v: int)
      modifies this, meta
      ensures Record() == old(Record()).(atime := v)
      ensures meta.State() == old(meta.State()).UpdateInode(Record())
    {
      atime := v;
      Update();
    }

    method SetMtime(v: int)
      modifies this, meta
      ensures Record() == old(Record()).(mtime := v)
      ensures meta.State() == old(meta.State()).UpdateInode(Record())
    {
      mtime := v;
      Update();
    }

    method SetCtime(v: int)
      modifies this, meta
      ensures Record() == old(Record()).(ctime := v)
      ensures meta.State() == old(meta.State()).UpdateInode(Record())
    {
      ctime := v;
      Update();
    }

    method SetTarget(v: Option<string>)
      modifies this, meta
      ensures Record() == old(Record()).(target := v)
      ensures meta.State() == old(meta.State()).UpdateInode(Record())
    {
      target := v;
      Update();
    }

    method SetRdev(v: int)
      modifies this, meta
      ensures Record() == old(Record()).(rdev := v)
      ensures meta.State() == old(meta.State()).UpdateInode(Record())
    {
      rdev := v;
      Update();
    }

    method SetNlink(v: int)
      modifies this, meta
      ensures Record() == old(Record()).(nlink := v)
      ensures meta.State() == old(meta.State()).UpdateInode(Record())
    {
      nlink := v;
      Update();
    }
  }
}
