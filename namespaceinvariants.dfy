/**
 * The invariant the namespace operations keep on the metadata store: records
 * sit under their own ids, every id and every index parent is at most the
 * superblock's free id (so a fresh id is never in use), the index points at
 * records, each indexed name appears in its parent's list, an inode has no
 * more names than links, sizes are not negative, and the superblock's bounds
 * hold.
 */
module NamespaceInvariants {
  import opened Common
  import opened Inodes
  import opened MetaStores
  import opened SuperBlocks
  import opened Namespace

  /** The index keys that name `id`. */
  ghost function Names(index: map<(nat, string), nat>, id: nat): set<(nat, string)>
  {
    set k | k in index && index[k] == id
  }

  ghost predicate Keyed(m: Meta)
  {
    forall id :: id in m.records ==> m.records[id].id == id
  }

  ghost predicate BelowFree(k: SbKeys, m: Meta)
  {
    && k.freeInodeId in m.sb && m.sb[k.freeInodeId] >= 1
    && (forall id :: id in m.records ==> 1 <= id <= m.sb[k.freeInodeId])
    && (forall key :: key in m.index ==> key.0 <= m.sb[k.freeInodeId])
  }

  ghost predicate IndexTargets(m: Meta)
  {
    forall key :: key in m.index ==> m.index[key] in m.records
  }

  /**
   * Each name indexed in a live directory is in that directory's list. The
   * root is exempt: `put_inode` indexes it under its parent (itself) and the
   * name "None", which no list holds.
   */
  ghost predicate IndexListed(m: Meta)
  {
    forall key :: key in m.index && key.0 in m.records && m.index[key] != RootInode ==>
      ReverseKey(m.index[key], key.1) in m.List(key.0)
  }

  ghost predicate LinksCounted(m: Meta)
  {
    forall id :: id in m.records ==> |Names(m.index, id)| <= m.records[id].nlink
  }

  ghost predicate SizesNonNegative(m: Meta)
  {
    forall id :: id in m.records ==> m.records[id].size >= 0
  }

  ghost predicate Valid(c: Config, m: Meta)
  {
    && c.keys.Distinct()
    && Keyed(m)
    && BelowFree(c.keys, m)
    && IndexTargets(m)
    && IndexListed(m)
    && LinksCounted(m)
    && SizesNonNegative(m)
    && c.keys.Bounded(m)
  }

  // ---------------------------------------------------------------------------
  // Facts about the primitives

  lemma NamesClean(index: map<(nat, string), nat>, k: (nat, string), id: nat)
    ensures Names(index - {k}, id) == Names(index, id) - {k}
  {
  }

  lemma NamesBuild(index: map<(nat, string), nat>, k: (nat, string), v: nat, id: nat)
    ensures Names(index[k := v], id) == (Names(index, id) - {k}) + (if v == id then {k} else {})
  {
  }

  lemma {:induction false} SubsetCard<T>(a: set<T>, b: set<T>)
    requires a <= b
    ensures |a| <= |b|
    decreases |b|
  {
    if a != {} {
      var x :| x in a;
      SubsetCard(a - {x}, b - {x});
    }
  }

  /** Dropping a member lowers the size by one. */
  lemma RemoveCard<T>(a: set<T>, x: T)
    requires x in a
    ensures |a - {x}| == |a| - 1
  {
  }

  lemma ReverseKeyInjective(a: nat, n: string, b: nat, n2: string)
    ensures ReverseKey(a, n) == ReverseKey(b, n2) ==> a == b && n == n2
  {
    IndexKeyInjective("", a, n, b, n2);
  }

  /** An entry other than the one removed survives `LREM`. */
  lemma RemoveFirstKeeps<T>(s: seq<T>, y: T, x: T)
    requires x in s && x != y
    ensures x in RemoveFirst(s, y)
  {
    if y in s {
      var k := IndexOf(s, y);
      var a, b := s[..k], s[k + 1..];
      assert RemoveFirst(s, y) == a + b;
      var i :| 0 <= i < |s| && s[i] == x;
      if i < k {
        assert a[i] == x;
        assert x in a;
      } else {
        assert i != k;
        assert b[i - k - 1] == x;
        assert x in b;
      }
    }
  }

  /** Removing `<id>#<name>` from a list keeps every entry of every other (parent, name). */
  lemma RemoveFromListKeeps(m: Meta, dir: nat, id: nat, name: string, d: nat, x: nat, n: string)
    requires ReverseKey(x, n) in m.List(d)
    requires d != dir || n != name
    ensures ReverseKey(x, n) in m.RemoveFromList(dir, id, name).List(d)
  {
    ReverseKeyInjective(x, n, id, name);
    if d == dir && dir in m.lists {
      RemoveFirstKeeps(m.lists[dir], ReverseKey(id, name), ReverseKey(x, n));
    }
  }

  /** Updating a record under its own id without changing its id, links or size keeps the invariant. */
  lemma UpdateValid(c: Config, m: Meta, r: InodeRecord)
    requires Valid(c, m)
    requires r.id in m.records && r.nlink >= m.records[r.id].nlink && r.size >= 0
    ensures Valid(c, m.UpdateInode(r))
  {
    var m' := m.UpdateInode(r);
    forall id | id in m'.records
      ensures |Names(m'.index, id)| <= m'.records[id].nlink
    {
    }
  }

  // ---------------------------------------------------------------------------
  // The operations keep the invariant

  lemma SetattrValid(c: Config, fs: Fs, id: nat, a: SetAttrs, now: int)
    requires Valid(c, fs.meta)
    ensures Valid(c, Setattr(c, fs, id, a, now).1.meta)
  {
    if id in fs.meta.records {
      UpdateValid(c, fs.meta, Updated(fs.meta.records[id], a, now));
    }
  }

  lemma LookupValid(c: Config, fs: Fs, parent: nat, name: string, fx: Fixes)
    requires Valid(c, fs.meta)
    ensures Valid(c, Lookup(c, fs, parent, name, fx).1.meta)
  {
    var m := fs.meta;
    if name != "." && name != ".." && m.InodeId(parent, name).Some? {
      var id := m.InodeId(parent, name).value;
      if id in m.records {
        assert m.Record(id) == Some(m.records[id]);
        CountedValid(c, m, Lookup(c, fs, parent, name, fx).1.meta, id);
      }
    }
  }

  /** Raising the lookup count of a stored inode keeps the invariant. */
  lemma CountedValid(c: Config, m: Meta, m': Meta, id: nat)
    requires Valid(c, m) && id in m.records
    requires m' == m.UpdateInode(m.records[id].(lookupCount := m.records[id].lookupCount + 1))
    ensures Valid(c, m')
  {
    UpdateValid(c, m, m.records[id].(lookupCount := m.records[id].lookupCount + 1));
  }

  lemma OpenValid(c: Config, fs: Fs, id: nat)
    requires Valid(c, fs.meta)
    ensures Valid(c, Open(fs, id).1.meta)
  {
    if id in fs.meta.records {
      assert fs.meta.Record(id) == Some(fs.meta.records[id]);
      OpenedValid(c, fs.meta, Open(fs, id).1.meta, id);
    }
  }

  /** Raising the open count of a stored inode keeps the invariant. */
  lemma OpenedValid(c: Config, m: Meta, m': Meta, id: nat)
    requires Valid(c, m) && id in m.records
    requires m' == m.UpdateInode(m.records[id].(openCount := m.records[id].openCount + 1))
    ensures Valid(c, m')
  {
    UpdateValid(c, m, m.records[id].(openCount := m.records[id].openCount + 1));
  }

  /** No list of `m` loses an entry in `m'`. */
  ghost predicate ListsGrow(m: Meta, m': Meta)
  {
    forall d, e :: e in m.List(d) ==> e in m'.List(d)
  }

  lemma AddToListGrows(m: Meta, dir: nat, id: nat, name: string)
    ensures var m' := m.AddToList(dir, id, name);
      && m'.records == m.records && m'.index == m.index && m'.sb == m.sb
      && m'.List(dir) == m.List(dir) + [ReverseKey(id, name)]
      && ListsGrow(m, m')
  {
  }

  lemma ListsGrowTrans(m1: Meta, m2: Meta, m3: Meta)
    requires ListsGrow(m1, m2) && ListsGrow(m2, m3)
    ensures ListsGrow(m1, m3)
  {
  }

  /**
   * What `_create` writes once it has an id: the new record under that id,
   * the new index key, the parent's list entry (plus `.` and `..` at the end
   * of a directory's list), and nothing else: every other record and key is
   * as before and no list loses an entry.
   */
  lemma InsertSpec(c: Config, m: Meta, parent: nat, name: string, id: nat, mode: nat, target: Option<string>,
                   now: int)
    ensures var m' := Insert(c, m, parent, name, id, mode, target, now);
      && m'.records == m.records[id := NewInode(c.fsName, id, mode, Some(name), parent, 0, c.uid, c.gid, target,
                                                 0, 1, now).(openCount := if IsReg(mode) then 1 else 0,
                                                             lookupCount := 1)]
      && m'.index == m.index[(parent, name) := id]
      && m'.sb == m.sb
      && ReverseKey(id, name) in m'.List(parent)
      && (IsDir(mode) ==> m'.List(id)[|m'.List(id)| - 2..] == [ReverseKey(id, "."), ReverseKey(parent, "..")])
      && ListsGrow(m, m')
  {
    InsertRecords(c, m, parent, name, id, mode, target, now);
    InsertLists(c, m, parent, name, id, mode, target, now);
  }

  /** The records, index and superblock `_create` leaves. */
  lemma InsertRecords(c: Config, m: Meta, parent: nat, name: string, id: nat, mode: nat, target: Option<string>,
                      now: int)
    ensures var m' := Insert(c, m, parent, name, id, mode, target, now);
      && m'.records == m.records[id := NewInode(c.fsName, id, mode, Some(name), parent, 0, c.uid, c.gid, target,
                                                 0, 1, now).(openCount := if IsReg(mode) then 1 else 0,
                                                             lookupCount := 1)]
      && m'.index == m.index[(parent, name) := id]
      && m'.sb == m.sb
  {
    var rec := NewInode(c.fsName, id, mode, Some(name), parent, 0, c.uid, c.gid, target, 0, 1, now);
    var m1 := m.PutInode(rec).AddToList(parent, id, name);
    assert m1.records == m.records[id := rec] && m1.index == m.index[(parent, name) := id] && m1.sb == m.sb;
    var m2 := if IsReg(mode) then m1.UpdateInode(m1.records[id].(openCount := m1.records[id].openCount + 1))
              else m1;
    assert m2.records == m.records[id := rec.(openCount := if IsReg(mode) then 1 else 0)];
    assert m2.index == m1.index && m2.sb == m.sb;
    var m3 := if IsDir(mode) then m2.AddToList(id, id, ".").AddToList(id, parent, "..") else m2;
    assert m3.records == m2.records && m3.index == m2.index && m3.sb == m2.sb;
  }

  /** The lists `_create` leaves: the new name in its parent, a directory's `.` and `..`, and nothing lost. */
  lemma InsertLists(c: Config, m: Meta, parent: nat, name: string, id: nat, mode: nat, target: Option<string>,
                    now: int)
    ensures var m' := Insert(c, m, parent, name, id, mode, target, now);
      && ReverseKey(id, name) in m'.List(parent)
      && (IsDir(mode) ==> m'.List(id)[|m'.List(id)| - 2..] == [ReverseKey(id, "."), ReverseKey(parent, "..")])
      && ListsGrow(m, m')
  {
    InsertListsAre(c, m, parent, name, id, mode, target, now);
    DirListsGrow(m, parent, name, id, IsDir(mode));
    SameListsGrow(m, WithEntries(m, parent, name, id, IsDir(mode)), Insert(c, m, parent, name, id, mode, target, now));
  }

  /** The lists after the parent's entry for the new inode and, for a directory, its `.` and `..`. */
  ghost function WithEntries(m: Meta, parent: nat, name: string, id: nat, dir: bool): Meta
  {
    var a := m.AddToList(parent, id, name);
    if dir then a.AddToList(id, id, ".").AddToList(id, parent, "..") else a
  }

  lemma InsertListsAre(c: Config, m: Meta, parent: nat, name: string, id: nat, mode: nat, target: Option<string>,
                       now: int)
    ensures Insert(c, m, parent, name, id, mode, target, now).lists == WithEntries(m, parent, name, id, IsDir(mode)).lists
  {
    var rec := NewInode(c.fsName, id, mode, Some(name), parent, 0, c.uid, c.gid, target, 0, 1, now);
    var m1 := m.PutInode(rec).AddToList(parent, id, name);
    var m2 := if IsReg(mode) then m1.UpdateInode(m1.records[id].(openCount := m1.records[id].openCount + 1))
              else m1;
    assert m1.lists == m.AddToList(parent, id, name).lists && m2.lists == m1.lists;
  }

  lemma SameListsGrow(m: Meta, b: Meta, m': Meta)
    requires ListsGrow(m, b) && m'.lists == b.lists
    ensures ListsGrow(m, m') && forall d :: m'.List(d) == b.List(d)
  {
  }

  lemma DirListsGrow(m: Meta, parent: nat, name: string, id: nat, dir: bool)
    ensures var b := WithEntries(m, parent, name, id, dir);
      && ReverseKey(id, name) in b.List(parent)
      && (dir ==> b.List(id)[|b.List(id)| - 2..] == [ReverseKey(id, "."), ReverseKey(parent, "..")])
      && ListsGrow(m, b)
  {
    var a := m.AddToList(parent, id, name);
    AddToListGrows(m, parent, id, name);
    if dir {
      var x := a.AddToList(id, id, ".");
      AddToListGrows(a, id, id, ".");
      AddToListGrows(x, id, parent, "..");
      ListsGrowTrans(a, x, x.AddToList(id, parent, ".."));
      ListsGrowTrans(m, a, x.AddToList(id, parent, ".."));
    }
  }

  lemma AddRecordLinks(m: Meta, m': Meta, parent: nat, name: string, id: nat)
    requires LinksCounted(m) && IndexTargets(m) && id !in m.records && (parent, name) !in m.index
    requires m'.records.Keys == m.records.Keys + {id}
    requires forall x :: x in m.records ==> m'.records[x] == m.records[x]
    requires m'.records[id].nlink == 1
    requires m'.index == m.index[(parent, name) := id]
    ensures LinksCounted(m')
  {
    assert Names(m.index, id) == {} by {
      forall key | key in m.index ensures m.index[key] != id {
      }
    }
    forall x | x in m'.records
      ensures |Names(m'.index, x)| <= m'.records[x].nlink
    {
      NamesBuild(m.index, (parent, name), id, x);
      if x == id {
        assert Names(m'.index, x) == {(parent, name)};
      } else {
        assert Names(m'.index, x) == Names(m.index, x);
        assert x in m.records;
      }
    }
  }

  lemma AddRecordListed(m: Meta, m': Meta, parent: nat, name: string, id: nat)
    requires IndexListed(m)
    requires forall key :: key in m.index ==> key.0 < id
    requires m'.records.Keys == m.records.Keys + {id}
    requires m'.index == m.index[(parent, name) := id]
    requires ReverseKey(id, name) in m'.List(parent)
    requires ListsGrow(m, m')
    ensures IndexListed(m')
  {
    forall key | key in m'.index && key.0 in m'.records && m'.index[key] != RootInode
      ensures ReverseKey(m'.index[key], key.1) in m'.List(key.0)
    {
      if key != (parent, name) {
        assert key in m.index && key.0 < id;
        assert ReverseKey(m.index[key], key.1) in m.List(key.0);
      }
    }
  }

  /** Adding a record under an unused id, with one fresh index key, keeps the invariant. */
  lemma AddRecordValid(c: Config, m: Meta, m': Meta, parent: nat, name: string, id: nat)
    requires Valid(c, m)
    requires id !in m.records && parent in m.records && (parent, name) !in m.index
    requires forall key :: key in m.index ==> key.0 < id
    requires forall x :: x in m.records ==> x < id
    requires m'.records.Keys == m.records.Keys + {id}
    requires forall x :: x in m.records ==> m'.records[x] == m.records[x]
    requires m'.records[id].id == id && m'.records[id].nlink == 1 && m'.records[id].size == 0
    requires m'.index == m.index[(parent, name) := id]
    requires ReverseKey(id, name) in m'.List(parent)
    requires ListsGrow(m, m')
    requires c.keys.freeInodeId in m'.sb && m'.sb[c.keys.freeInodeId] == id && c.keys.Bounded(m')
    ensures Valid(c, m')
  {
    AddRecordLinks(m, m', parent, name, id);
    AddRecordListed(m, m', parent, name, id);
  }

  /**
   * Creation keeps the invariant: the fresh id is above every id in use and
   * no index key names it, and the new name was not indexed before.
   */
  lemma CreateEntryValid(c: Config, fs: Fs, parent: nat, name: string, mode: nat, target: Option<string>, now: int)
    requires Valid(c, fs.meta)
    ensures Valid(c, CreateEntry(c, fs, parent, name, mode, target, now).1.meta)
  {
    CreateEntryMeta(c, fs, parent, name, mode, target, now);
    CreateOutcomeValid(c, fs.meta, CreateEntry(c, fs, parent, name, mode, target, now).1.meta, parent, name, mode,
                       target, now);
  }

  /** Each of the three outcomes `CreateEntryMeta` describes keeps the invariant. */
  lemma CreateOutcomeValid(c: Config, m: Meta, m': Meta, parent: nat, name: string, mode: nat, target: Option<string>,
                           now: int)
    requires Valid(c, m)
    requires var (got, m1) := c.keys.FetchFreeInodeId(m);
      && (!CreateAllowed(c, m, parent, name) ==> m' == m)
      && (CreateAllowed(c, m, parent, name) && !(got.Ok? && got.value.Some? && got.value.value >= 0) ==> m' == m1)
      && (CreateAllowed(c, m, parent, name) && got.Ok? && got.value.Some? && got.value.value >= 0 ==>
            m' == Insert(c, m1, parent, name, got.value.value, mode, target, now))
    ensures Valid(c, m')
  {
    FetchFreeInodeIdIncreases(c.keys, m);
    var got := c.keys.FetchFreeInodeId(m).0;
    if !CreateAllowed(c, m, parent, name) || got.Err? {
      assert m' == m;
    } else {
      FreshInsertValid(c, m, m', parent, name, got.value.value, mode, target, now);
    }
  }

  /** Inserting under the id just fetched, at a name not yet taken, keeps the invariant. */
  lemma FreshInsertValid(c: Config, m: Meta, m': Meta, parent: nat, name: string, id: nat, mode: nat,
                         target: Option<string>, now: int)
    requires Valid(c, m) && CreateAllowed(c, m, parent, name) && c.keys.FetchFreeInodeId(m).0.Ok?
    requires id == m.sb[c.keys.freeInodeId] + 1
    requires m' == Insert(c, c.keys.FetchFreeInodeId(m).1, parent, name, id, mode, target, now)
    ensures Valid(c, m')
  {
    FetchFreeInodeIdIncreases(c.keys, m);
    OperationsKeepBounds(c.keys, m, 0);
    assert (parent, name) !in m.index;
    var m1 := c.keys.FetchFreeInodeId(m).1;
    InsertSpec(c, m1, parent, name, id, mode, target, now);
    AddRecordValid(c, m, m', parent, name, id);
  }

  /** `_create` goes past its checks: the name is not taken and the parent has links. */
  ghost predicate CreateAllowed(c: Config, m: Meta, parent: nat, name: string)
  {
    && !(m.InodeId(parent, name).Some? && m.InodeId(parent, name).value != 0)
    && Getattr(c, m, parent).Ok? && Getattr(c, m, parent).value.nlink != 0
  }

  /** The metadata `_create` leaves: untouched when a check refuses, the counters alone when no id comes back, else the insertion. */
  lemma CreateEntryMeta(c: Config, fs: Fs, parent: nat, name: string, mode: nat, target: Option<string>, now: int)
    ensures var m := fs.meta;
      var (got, m1) := c.keys.FetchFreeInodeId(m);
      var m' := CreateEntry(c, fs, parent, name, mode, target, now).1.meta;
      && (!CreateAllowed(c, m, parent, name) ==> m' == m)
      && (CreateAllowed(c, m, parent, name) && !(got.Ok? && got.value.Some? && got.value.value >= 0) ==> m' == m1)
      && (CreateAllowed(c, m, parent, name) && got.Ok? && got.value.Some? && got.value.value >= 0 ==>
            m' == Insert(c, m1, parent, name, got.value.value, mode, target, now))
  {
  }

  /** Setting up the root in an empty store with an initialised superblock gives a valid store. */
  lemma SetupRootValid(c: Config, m: Meta, now: int)
    requires c.keys.Distinct() && c.keys.Bounded(m)
    requires m.records == map[] && m.index == map[] && m.lists == map[]
    requires c.keys.freeInodeId in m.sb && m.sb[c.keys.freeInodeId] == 1
    ensures Valid(c, SetupRoot(c, m, now))
  {
    var m' := SetupRoot(c, m, now);
    assert m'.index == map[(RootInode, "None") := RootInode];
    assert Names(m'.index, RootInode) == {(RootInode, "None")};
  }

  /** The index after `_remove` or `forget` deletes an inode whose last name is gone. */
  lemma DeleteUnnamedValid(c: Config, m: Meta, id: nat, fx: Fixes)
    requires Valid(c, m) && id in m.records && Names(m.index, id) == {}
    ensures Valid(c, DeleteRecord(m, id, fx).value)
  {
    var r := m.records[id];
    var key := (r.parentInodeId, FormatName(r.name));
    var m' := DeleteRecord(m, id, fx).value;
    assert key in m.index && m.index[key] == id ==> key in Names(m.index, id);
    assert m'.index == m.index - {key} || m'.index == m.index;
    forall k | k in m'.index
      ensures m'.index[k] in m'.records
    {
      assert k in m.index && m'.index[k] == m.index[k] && k !in Names(m.index, id);
    }
    forall x | x in m'.records
      ensures |Names(m'.index, x)| <= m'.records[x].nlink
    {
      NamesClean(m.index, key, x);
      SubsetCard(Names(m'.index, x), Names(m.index, x));
    }
    forall key | key in m'.index && key.0 in m'.records && m'.index[key] != RootInode
      ensures ReverseKey(m'.index[key], key.1) in m'.List(key.0)
    {
      assert key in m.index;
      assert m'.List(key.0) == m.List(key.0);
    }
  }

  /** The superblock updates of a deletion keep the invariant. */
  lemma ReleaseValid(c: Config, m: Meta, size: int)
    requires Valid(c, m) && size >= 0
    ensures Valid(c, c.keys.DecrInodeCounter(c.keys.DecrUsedSize(m, size)))
  {
    var k := c.keys;
    OperationsKeepBounds(k, m, size);
    OperationsKeepBounds(k, k.DecrUsedSize(m, size), 0);
    assert k.List()[3] != k.List()[5] && k.List()[3] != k.List()[1];
  }

  /** Dropping a name from a directory: the list entry and the index key go, every other key stays listed. */
  lemma UnlinkNameListed(m: Meta, parent: nat, name: string, id: nat)
    requires IndexListed(m)
    ensures IndexListed(m.RemoveFromList(parent, id, name).CleanIndex(parent, name))
  {
    var m' := m.RemoveFromList(parent, id, name).CleanIndex(parent, name);
    forall key | key in m'.index && key.0 in m'.records && m'.index[key] != RootInode
      ensures ReverseKey(m'.index[key], key.1) in m'.List(key.0)
    {
      RemoveFromListKeeps(m, parent, id, name, key.0, m.index[key], key.1);
    }
  }

  /** The metadata once `_remove` has dropped a name and lowered the link count. */
  ghost function Unlinked(m: Meta, parent: nat, name: string, id: nat): Meta
    requires id in m.records
  {
    var m1 := m.RemoveFromList(parent, id, name).CleanIndex(parent, name);
    m1.UpdateInode(m1.records[id].(nlink := m1.records[id].nlink - 1))
  }

  lemma UnlinkedLinks(m: Meta, parent: nat, name: string, id: nat)
    requires LinksCounted(m) && Keyed(m)
    requires (parent, name) in m.index && m.index[(parent, name)] == id && id in m.records
    ensures LinksCounted(Unlinked(m, parent, name, id))
  {
    var m2 := Unlinked(m, parent, name, id);
    assert m2.index == m.index - {(parent, name)};
    assert m2.records == m.records[id := m.records[id].(nlink := m.records[id].nlink - 1)];
    assert (parent, name) in Names(m.index, id);
    forall x | x in m2.records
      ensures |Names(m2.index, x)| <= m2.records[x].nlink
    {
      NamesClean(m.index, (parent, name), x);
      if x == id {
        RemoveCard(Names(m.index, x), (parent, name));
      } else {
        SubsetCard(Names(m2.index, x), Names(m.index, x));
      }
    }
  }

  /**
   * Dropping one of an inode's names and one of its links keeps the
   * invariant; when the inode had a single link it has no name left.
   */
  lemma UnlinkedValid(c: Config, m: Meta, parent: nat, name: string, id: nat)
    requires Valid(c, m) && (parent, name) in m.index && m.index[(parent, name)] == id
    ensures id in m.records
    ensures Valid(c, Unlinked(m, parent, name, id))
    ensures m.records[id].nlink == 1 ==> Names(Unlinked(m, parent, name, id).index, id) == {}
  {
    UnlinkNameListed(m, parent, name, id);
    UnlinkedLinks(m, parent, name, id);
  }

  /**
   * `_remove` keeps the invariant when it is given the entry `_get_entry`
   * found (as `rmdir` and `unlink` do): the name it drops is one of the
   * inode's, so the link count still covers the rest, and an inode deleted
   * with its last link has no name left in the index.
   */
  lemma RemoveValid(c: Config, fs: Fs, parent: nat, name: string, e: Attr, fx: Fixes)
    requires Valid(c, fs.meta) && GetEntry(c, fs.meta, parent, name) == Ok(e)
    ensures Valid(c, Remove(c, fs, parent, name, e, fx).1.meta)
  {
    var m := fs.meta;
    if |m.List(e.ino)| <= 2 {
      RemoveMeta(c, fs, parent, name, e, fx);
      var id := e.ino;
      UnlinkedValid(c, m, parent, name, id);
      var m2 := Unlinked(m, parent, name, id);
      var ino := m2.records[id];
      if e.nlink == 1 && ino.lookupCount == 0 {
        DeleteUnnamedValid(c, m2, id, fx);
        ReleaseValid(c, DeleteRecord(m2, id, fx).value, ino.size);
      }
    }
  }

  /** What `_remove` leaves in the metadata store, given the entry `_get_entry` found. */
  lemma RemoveMeta(c: Config, fs: Fs, parent: nat, name: string, e: Attr, fx: Fixes)
    requires Valid(c, fs.meta) && GetEntry(c, fs.meta, parent, name) == Ok(e)
    requires |fs.meta.List(e.ino)| <= 2
    ensures (parent, name) in fs.meta.index && fs.meta.index[(parent, name)] == e.ino && e.ino in fs.meta.records
    ensures e.nlink == fs.meta.records[e.ino].nlink
    ensures var m2 := Unlinked(fs.meta, parent, name, e.ino);
      var ino := m2.records[e.ino];
      Remove(c, fs, parent, name, e, fx).1.meta
        == if e.nlink == 1 && ino.lookupCount == 0
           then c.keys.DecrInodeCounter(c.keys.DecrUsedSize(DeleteRecord(m2, e.ino, fx).value, ino.size))
           else m2
  {
    EntryFound(c, fs.meta, parent, name, e);
  }

  /** The entry `_get_entry` finds is the indexed inode's own record. */
  lemma EntryFound(c: Config, m: Meta, parent: nat, name: string, e: Attr)
    requires Valid(c, m) && GetEntry(c, m, parent, name) == Ok(e)
    ensures (parent, name) in m.index && m.index[(parent, name)] == e.ino && e.ino in m.records
    ensures e.nlink == m.records[e.ino].nlink && e.mode == m.records[e.ino].mode
  {
    var id := m.index[(parent, name)];
    assert e.ino == id && id in m.records && e.nlink == m.records[id].nlink;
  }


  lemma RmdirValid(c: Config, fs: Fs, parent: nat, name: string, fx: Fixes)
    requires Valid(c, fs.meta)
    ensures Valid(c, Rmdir(c, fs, parent, name, fx).1.meta)
  {
    var g := GetEntry(c, fs.meta, parent, name);
    if g.Ok? && |name| <= NameLimit && IsDir(g.value.mode) {
      RemoveValid(c, fs, parent, name, g.value, fx);
    }
  }

  lemma UnlinkValid(c: Config, fs: Fs, parent: nat, name: string, fx: Fixes)
    requires Valid(c, fs.meta)
    ensures Valid(c, Unlink(c, fs, parent, name, fx).1.meta)
  {
    var g := GetEntry(c, fs.meta, parent, name);
    if g.Ok? && !IsDir(g.value.mode) {
      RemoveValid(c, fs, parent, name, g.value, fx);
    }
  }

  // ---------------------------------------------------------------------------
  // Links, renames and forget

  /**
   * A change that keeps the same records (same ids and sizes) and the
   * superblock, keeps the invariant once its link counts and listings are
   * shown to hold and its index keys stay below the free id and point at
   * records.
   */
  lemma SameRecordsValid(c: Config, m: Meta, m': Meta)
    requires Valid(c, m) && LinksCounted(m') && IndexListed(m') && m'.sb == m.sb
    requires m'.records.Keys == m.records.Keys
    requires forall x :: x in m.records ==> m'.records[x].id == x && m'.records[x].size == m.records[x].size
    requires forall key :: key in m'.index ==> key.0 <= m.sb[c.keys.freeInodeId] && m'.index[key] in m.records
    ensures Valid(c, m')
  {
    assert c.keys.UsedSize(m') == c.keys.UsedSize(m) && c.keys.TotalSize(m') == c.keys.TotalSize(m);
  }

  lemma LinkedShape(m: Meta, id: nat, newParent: nat, newName: string)
    requires Keyed(m) && id in m.records
    ensures var m' := Linked(m, id, newParent, newName);
      && m'.records == m.records[id := m.records[id].(nlink := m.records[id].nlink + 1,
                                                       lookupCount := m.records[id].lookupCount + 1)]
      && m'.index == m.index[(newParent, newName) := id]
      && m'.sb == m.sb
  {
  }

  /** Replacing one member of a set by another never makes it larger. */
  lemma SwapCard<T>(a: set<T>, x: T, y: T, z: T)
    requires x in a
    ensures |(a - {x} - {y}) + {z}| <= |a|
  {
    SubsetCard(a - {x} - {y}, a - {x});
  }

  /** The metadata once `link` has added the name, the link and the lookup it counts. */
  ghost function Linked(m: Meta, id: nat, newParent: nat, newName: string): Meta
    requires id in m.records
  {
    var m1 := m.BuildIndex(newParent, id, newName).AddToList(newParent, id, newName);
    var r := m1.records[id];
    m1.UpdateInode(r.(nlink := r.nlink + 1, lookupCount := r.lookupCount + 1))
  }

  lemma LinkedLinks(m: Meta, id: nat, newParent: nat, newName: string)
    requires LinksCounted(m) && Keyed(m) && id in m.records
    ensures LinksCounted(Linked(m, id, newParent, newName))
  {
    var k := (newParent, newName);
    var m2 := Linked(m, id, newParent, newName);
    assert m2.index == m.index[k := id];
    forall x | x in m2.records
      ensures |Names(m2.index, x)| <= m2.records[x].nlink
    {
      NamesBuild(m.index, k, id, x);
      SubsetCard(Names(m.index, x) - {k}, Names(m.index, x));
    }
  }

  lemma LinkedListed(m: Meta, id: nat, newParent: nat, newName: string)
    requires IndexListed(m) && Keyed(m) && id in m.records
    ensures IndexListed(Linked(m, id, newParent, newName))
  {
    var k := (newParent, newName);
    var m0 := m.BuildIndex(newParent, id, newName);
    AddToListGrows(m0, newParent, id, newName);
    var m2 := Linked(m, id, newParent, newName);
    assert ListsGrow(m, m2);
    forall key | key in m2.index && key.0 in m2.records && m2.index[key] != RootInode
      ensures ReverseKey(m2.index[key], key.1) in m2.List(key.0)
    {
      if key != k {
        assert ReverseKey(m.index[key], key.1) in m.List(key.0);
      }
    }
  }

  lemma LinkedValid(c: Config, m: Meta, id: nat, newParent: nat, newName: string)
    requires Valid(c, m) && id in m.records && newParent in m.records
    ensures Valid(c, Linked(m, id, newParent, newName))
  {
    LinkedLinks(m, id, newParent, newName);
    LinkedListed(m, id, newParent, newName);
    LinkedShape(m, id, newParent, newName);
    SameRecordsValid(c, m, Linked(m, id, newParent, newName));
  }

  /** `link` keeps the invariant for an inode that exists (the kernel links only existing inodes). */
  lemma LinkValid(c: Config, fs: Fs, id: nat, newParent: nat, newName: string, fx: Fixes)
    requires Valid(c, fs.meta) && id in fs.meta.records
    ensures Valid(c, Link(c, fs, id, newParent, newName, fx).1.meta)
  {
    var m := fs.meta;
    if Getattr(c, m, newParent).Err? || Getattr(c, m, newParent).value.nlink == 0 {
      assert Link(c, fs, id, newParent, newName, fx).1.meta == m;
    } else {
      LinkMeta(c, fs, id, newParent, newName, fx);
      LinkedValid(c, m, id, newParent, newName);
    }
  }

  lemma LinkMeta(c: Config, fs: Fs, id: nat, newParent: nat, newName: string, fx: Fixes)
    requires Keyed(fs.meta) && id in fs.meta.records
    requires Getattr(c, fs.meta, newParent).Ok? && Getattr(c, fs.meta, newParent).value.nlink != 0
    ensures newParent in fs.meta.records
    ensures Link(c, fs, id, newParent, newName, fx).1.meta == Linked(fs.meta, id, newParent, newName)
  {
    var m1 := fs.meta.BuildIndex(newParent, id, newName).AddToList(newParent, id, newName);
    var r := m1.records[id];
    assert r.id == id && m1.Record(id) == Some(r);
    var m2 := m1.UpdateInode(r.(nlink := r.nlink + 1));
    var m3 := m2.UpdateInode(m2.records[id].(lookupCount := m2.records[id].lookupCount + 1));
    assert Link(c, fs, id, newParent, newName, fx).1.meta == m3;
    assert m3.records == m1.records[id := r.(nlink := r.nlink + 1, lookupCount := r.lookupCount + 1)];
  }

  /** The metadata after a rename to a free name. */
  ghost function Moved(m: Meta, oldParent: nat, oldName: string, newParent: nat, newName: string, id: nat,
                       fx: Fixes): Meta
    requires id in m.records
  {
    var m1 := m.RemoveFromList(oldParent, id, oldName).AddToList(newParent, id, newName);
    var r := m1.records[id];
    var r' := if fx.renameMovesParent then r.(name := Some(newName), parentInodeId := newParent)
              else r.(name := Some(newName));
    m1.UpdateInode(r').CleanIndex(oldParent, oldName).BuildIndex(newParent, id, newName)
  }

  lemma MovedShape(m: Meta, oldParent: nat, oldName: string, newParent: nat, newName: string, id: nat, fx: Fixes)
    requires Keyed(m) && id in m.records
    ensures var m' := Moved(m, oldParent, oldName, newParent, newName, id, fx);
      && m'.records.Keys == m.records.Keys
      && (forall x :: x in m.records ==> m'.records[x].id == x && m'.records[x].size == m.records[x].size)
      && (forall x :: x in m.records && x != id ==> m'.records[x] == m.records[x])
      && m'.records[id].nlink == m.records[id].nlink
      && m'.index == (m.index - {(oldParent, oldName)})[(newParent, newName) := id]
      && m'.sb == m.sb
  {
  }

  lemma MovedLinks(m: Meta, oldParent: nat, oldName: string, newParent: nat, newName: string, id: nat, fx: Fixes)
    requires LinksCounted(m) && Keyed(m) && id in m.records
    requires (oldParent, oldName) in m.index && m.index[(oldParent, oldName)] == id
    requires (newParent, newName) !in m.index
    ensures LinksCounted(Moved(m, oldParent, oldName, newParent, newName, id, fx))
  {
    var ko := (oldParent, oldName);
    var kn := (newParent, newName);
    var m2 := Moved(m, oldParent, oldName, newParent, newName, id, fx);
    MovedShape(m, oldParent, oldName, newParent, newName, id, fx);
    forall x | x in m2.records
      ensures |Names(m2.index, x)| <= m2.records[x].nlink
    {
      NamesClean(m.index, ko, x);
      NamesBuild(m.index - {ko}, kn, id, x);
      if x == id {
        SwapCard(Names(m.index, x), ko, ko, kn);
      } else {
        SubsetCard(Names(m2.index, x), Names(m.index, x));
      }
    }
  }

  lemma MovedListed(m: Meta, oldParent: nat, oldName: string, newParent: nat, newName: string, id: nat, fx: Fixes)
    requires IndexListed(m) && Keyed(m) && id in m.records
    ensures IndexListed(Moved(m, oldParent, oldName, newParent, newName, id, fx))
  {
    var kn := (newParent, newName);
    var m0 := m.RemoveFromList(oldParent, id, oldName);
    AddToListGrows(m0, newParent, id, newName);
    var m2 := Moved(m, oldParent, oldName, newParent, newName, id, fx);
    assert ListsGrow(m0, m2);
    forall key | key in m2.index && key.0 in m2.records && m2.index[key] != RootInode
      ensures ReverseKey(m2.index[key], key.1) in m2.List(key.0)
    {
      if key != kn {
        RemoveFromListKeeps(m, oldParent, id, oldName, key.0, m.index[key], key.1);
      }
    }
  }

  lemma MovedValid(c: Config, m: Meta, oldParent: nat, oldName: string, newParent: nat, newName: string, id: nat,
                   fx: Fixes)
    requires Valid(c, m) && id in m.records && newParent in m.records
    requires (oldParent, oldName) in m.index && m.index[(oldParent, oldName)] == id
    requires (newParent, newName) !in m.index
    ensures Valid(c, Moved(m, oldParent, oldName, newParent, newName, id, fx))
  {
    MovedLinks(m, oldParent, oldName, newParent, newName, id, fx);
    MovedListed(m, oldParent, oldName, newParent, newName, id, fx);
    MovedShape(m, oldParent, oldName, newParent, newName, id, fx);
    SameRecordsValid(c, m, Moved(m, oldParent, oldName, newParent, newName, id, fx));
  }

  lemma MoveEntryMeta(fs: Fs, oldParent: nat, oldName: string, newParent: nat, newName: string, oe: Attr, fx: Fixes)
    requires oe.ino in fs.meta.records
    ensures MoveEntry(fs, oldParent, oldName, newParent, newName, oe, fx).1.meta
         == Moved(fs.meta, oldParent, oldName, newParent, newName, oe.ino, fx)
  {
  }

  /**
   * A rename to a free name keeps the invariant: the inode trades one name
   * for another, and the new name is listed in the new parent, which must
   * exist.
   */
  lemma MoveEntryValid(c: Config, fs: Fs, oldParent: nat, oldName: string, newParent: nat, newName: string,
                       oe: Attr, fx: Fixes)
    requires Valid(c, fs.meta) && GetEntry(c, fs.meta, oldParent, oldName) == Ok(oe)
    requires (newParent, newName) !in fs.meta.index && newParent in fs.meta.records
    ensures Valid(c, MoveEntry(fs, oldParent, oldName, newParent, newName, oe, fx).1.meta)
  {
    var m := fs.meta;
    assert m.index[(oldParent, oldName)] == oe.ino && oe.ino in m.records;
    MovedValid(c, m, oldParent, oldName, newParent, newName, oe.ino, fx);
    MoveEntryMeta(fs, oldParent, oldName, newParent, newName, oe, fx);
  }

  /** The metadata after a rename onto the entry of inode `tid`, before the optional record update. */
  ghost function Replaced(m: Meta, oldParent: nat, oldName: string, newParent: nat, newName: string, id: nat,
                          tid: nat, kept: string): Meta
    requires tid in m.records
  {
    var t := m.records[tid];
    m.UpdateInode(t.(nlink := t.nlink - 1))
     .RemoveFromList(oldParent, id, oldName)
     .RemoveFromList(newParent, tid, newName)
     .AddToList(newParent, id, kept)
     .CleanIndex(newParent, newName)
     .CleanIndex(oldParent, oldName)
     .BuildIndex(newParent, id, kept)
  }

  lemma ReplacedShape(m: Meta, oldParent: nat, oldName: string, newParent: nat, newName: string, id: nat,
                      tid: nat, kept: string)
    requires Keyed(m) && tid in m.records
    ensures var m' := Replaced(m, oldParent, oldName, newParent, newName, id, tid, kept);
      && m'.records == m.records[tid := m.records[tid].(nlink := m.records[tid].nlink - 1)]
      && m'.index == (m.index - {(newParent, newName)} - {(oldParent, oldName)})[(newParent, kept) := id]
      && m'.sb == m.sb
  {
  }

  /** How many names one inode has after the index changes of `_replace`. */
  lemma ReplacedNames(index: map<(nat, string), nat>, ko: (nat, string), kn: (nat, string), kk: (nat, string),
                      id: nat, tid: nat, x: nat)
    requires ko in index && index[ko] == id && kn in index && index[kn] == tid && id != tid
    ensures |Names((index - {kn} - {ko})[kk := id], x)| <= |Names(index, x)| - (if x == tid then 1 else 0)
  {
    var i' := (index - {kn} - {ko})[kk := id];
    NamesClean(index, kn, x);
    NamesClean(index - {kn}, ko, x);
    NamesBuild(index - {kn} - {ko}, kk, id, x);
    if x == id {
      SwapCard(Names(index, x), ko, kn, kk);
    } else if x == tid {
      assert Names(i', x) <= Names(index, x) - {kn};
      SubsetCard(Names(i', x), Names(index, x) - {kn});
      RemoveCard(Names(index, x), kn);
    } else {
      SubsetCard(Names(i', x), Names(index, x));
    }
  }

  lemma ReplacedLinks(m: Meta, oldParent: nat, oldName: string, newParent: nat, newName: string, id: nat,
                      tid: nat, kept: string)
    requires LinksCounted(m) && Keyed(m) && tid in m.records && id != tid
    requires (oldParent, oldName) in m.index && m.index[(oldParent, oldName)] == id
    requires (newParent, newName) in m.index && m.index[(newParent, newName)] == tid
    ensures LinksCounted(Replaced(m, oldParent, oldName, newParent, newName, id, tid, kept))
  {
    var m2 := Replaced(m, oldParent, oldName, newParent, newName, id, tid, kept);
    ReplacedShape(m, oldParent, oldName, newParent, newName, id, tid, kept);
    forall x | x in m2.records
      ensures |Names(m2.index, x)| <= m2.records[x].nlink
    {
      ReplacedNames(m.index, (oldParent, oldName), (newParent, newName), (newParent, kept), id, tid, x);
    }
  }

  lemma ReplacedListed(m: Meta, oldParent: nat, oldName: string, newParent: nat, newName: string, id: nat,
                       tid: nat, kept: string)
    requires IndexListed(m) && Keyed(m) && tid in m.records
    ensures IndexListed(Replaced(m, oldParent, oldName, newParent, newName, id, tid, kept))
  {
    var kk := (newParent, kept);
    var t := m.records[tid];
    var a := m.UpdateInode(t.(nlink := t.nlink - 1));
    var b := a.RemoveFromList(oldParent, id, oldName);
    var d := b.RemoveFromList(newParent, tid, newName);
    AddToListGrows(d, newParent, id, kept);
    var m2 := Replaced(m, oldParent, oldName, newParent, newName, id, tid, kept);
    assert ListsGrow(d, m2);
    forall key | key in m2.index && key.0 in m2.records && m2.index[key] != RootInode
      ensures ReverseKey(m2.index[key], key.1) in m2.List(key.0)
    {
      if key != kk {
        RemoveFromListKeeps(a, oldParent, id, oldName, key.0, m.index[key], key.1);
        RemoveFromListKeeps(b, newParent, tid, newName, key.0, m.index[key], key.1);
      }
    }
  }

  lemma ReplacedValid(c: Config, m: Meta, oldParent: nat, oldName: string, newParent: nat, newName: string,
                      id: nat, tid: nat, kept: string)
    requires Valid(c, m) && tid in m.records && id != tid
    requires (oldParent, oldName) in m.index && m.index[(oldParent, oldName)] == id
    requires (newParent, newName) in m.index && m.index[(newParent, newName)] == tid
    ensures Valid(c, Replaced(m, oldParent, oldName, newParent, newName, id, tid, kept))
  {
    ReplacedLinks(m, oldParent, oldName, newParent, newName, id, tid, kept);
    ReplacedListed(m, oldParent, oldName, newParent, newName, id, tid, kept);
    ReplacedShape(m, oldParent, oldName, newParent, newName, id, tid, kept);
    SameRecordsValid(c, m, Replaced(m, oldParent, oldName, newParent, newName, id, tid, kept));
  }

  /** The record update a corrected `_replace` makes after listing the source under its new name. */
  ghost function Renamed(m: Meta, id: nat, newParent: nat, newName: string, fx: Fixes): Meta
  {
    if fx.replaceUsesNewName && id in m.records
    then m.UpdateInode(m.records[id].(name := Some(newName),
                                      parentInodeId := if fx.renameMovesParent then newParent
                                                       else m.records[id].parentInodeId))
    else m
  }

  lemma ReplaceMeta(fs: Fs, oldParent: nat, oldName: string, newParent: nat, newName: string, oe: Attr, ne: Attr,
                    fx: Fixes)
    requires ne.ino in fs.meta.records && |fs.meta.List(ne.ino)| == 0
    ensures Replace(fs, oldParent, oldName, newParent, newName, oe, ne, fx).1.meta
         == Renamed(Replaced(fs.meta, oldParent, oldName, newParent, newName, oe.ino, ne.ino,
                             if fx.replaceUsesNewName then newName else oldName), oe.ino, newParent, newName, fx)
  {
  }

  /**
   * A rename onto an existing entry of another inode keeps the invariant:
   * the target loses a name and a link, and the source trades its old name
   * for the one it is indexed and listed under in the new parent.
   */
  lemma ReplaceValid(c: Config, fs: Fs, oldParent: nat, oldName: string, newParent: nat, newName: string,
                     oe: Attr, ne: Attr, fx: Fixes)
    requires Valid(c, fs.meta)
    requires GetEntry(c, fs.meta, oldParent, oldName) == Ok(oe) && GetEntry(c, fs.meta, newParent, newName) == Ok(ne)
    requires oe.ino != ne.ino
    ensures Valid(c, Replace(fs, oldParent, oldName, newParent, newName, oe, ne, fx).1.meta)
  {
    var m := fs.meta;
    if |m.List(ne.ino)| > 0 {
      return;
    }
    assert m.index[(oldParent, oldName)] == oe.ino && m.index[(newParent, newName)] == ne.ino;
    var kept := if fx.replaceUsesNewName then newName else oldName;
    var m2 := Replaced(m, oldParent, oldName, newParent, newName, oe.ino, ne.ino, kept);
    ReplacedValid(c, m, oldParent, oldName, newParent, newName, oe.ino, ne.ino, kept);
    if fx.replaceUsesNewName && oe.ino in m2.records {
      UpdateValid(c, m2, m2.records[oe.ino].(name := Some(newName),
                                             parentInodeId := if fx.renameMovesParent then newParent
                                                              else m2.records[oe.ino].parentInodeId));
    }
    ReplaceMeta(fs, oldParent, oldName, newParent, newName, oe, ne, fx);
  }

  /**
   * `rename` keeps the invariant when the new parent exists and, should the
   * new name be taken, it names a different inode (the kernel turns a
   * rename of an inode onto itself into a no-op before it reaches the
   * filesystem).
   */
  lemma RenameValid(c: Config, fs: Fs, oldParent: nat, oldName: string, newParent: nat, newName: string,
                    fx: Fixes)
    requires Valid(c, fs.meta) && newParent in fs.meta.records
    requires fs.meta.InodeId(newParent, newName).Some? ==>
               fs.meta.InodeId(oldParent, oldName) != fs.meta.InodeId(newParent, newName)
    ensures Valid(c, Rename(c, fs, oldParent, oldName, newParent, newName, fx).1.meta)
  {
    var m := fs.meta;
    var go := GetEntry(c, m, oldParent, oldName);
    var gn := GetEntry(c, m, newParent, newName);
    if go.Ok? {
      if gn == Err(Fuse(ENOENT)) {
        MoveEntryValid(c, fs, oldParent, oldName, newParent, newName, go.value, fx);
      } else if gn.Ok? {
        ReplaceValid(c, fs, oldParent, oldName, newParent, newName, go.value, gn.value, fx);
      }
    }
  }

  /** One `forget` pair keeps the invariant: an inode deleted without links has no names. */
  lemma ForgetOneValid(c: Config, fs: Fs, id: nat, n: int, fx: Fixes)
    requires Valid(c, fs.meta)
    ensures Valid(c, ForgetOne(c, fs, id, n, fx).1.meta)
  {
    var m := fs.meta;
    if id in m.records {
      ForgetMeta(c, fs, id, n, fx);
      var r := m.records[id];
      var m' := ForgetOne(c, fs, id, n, fx).1.meta;
      if r.nlink == 0 && r.lookupCount - n == 0 {
        DeleteUnlinkedValid(c, m, id, fx);
        assert m' == c.keys.DecrInodeCounter(c.keys.DecrUsedSize(DeleteRecord(m, id, fx).value, r.size));
      } else if fx.forgetLowersCount {
        UpdateValid(c, m, r.(lookupCount := r.lookupCount - n));
        assert m' == m.UpdateInode(r.(lookupCount := r.lookupCount - n));
      } else {
        assert m' == m;
      }
    }
  }

  /** Deleting an inode without links, with its used size and its place in the counter, keeps the invariant. */
  lemma DeleteUnlinkedValid(c: Config, m: Meta, id: nat, fx: Fixes)
    requires Valid(c, m) && id in m.records && m.records[id].nlink == 0
    ensures Valid(c, c.keys.DecrInodeCounter(c.keys.DecrUsedSize(DeleteRecord(m, id, fx).value, m.records[id].size)))
  {
    assert |Names(m.index, id)| <= 0;
    DeleteUnnamedValid(c, m, id, fx);
    ReleaseValid(c, DeleteRecord(m, id, fx).value, m.records[id].size);
  }

  /** What one `forget` pair leaves in the metadata store. */
  lemma ForgetMeta(c: Config, fs: Fs, id: nat, n: int, fx: Fixes)
    requires Valid(c, fs.meta) && id in fs.meta.records
    ensures var m := fs.meta;
      var r := m.records[id];
      ForgetOne(c, fs, id, n, fx).1.meta
        == if r.nlink == 0 && r.lookupCount - n == 0 then c.keys.DecrInodeCounter(c.keys.DecrUsedSize(DeleteRecord(m, id, fx).value, r.size))
           else if fx.forgetLowersCount then m.UpdateInode(r.(lookupCount := r.lookupCount - n))
           else m
  {
    assert fs.meta.records[id].id == id;
  }


  lemma {:induction false} ForgetValid(c: Config, fs: Fs, items: seq<(nat, int)>, fx: Fixes)
    requires Valid(c, fs.meta)
    ensures Valid(c, Forget(c, fs, items, fx).1.meta)
    decreases |items|
  {
    if |items| > 0 {
      ForgetOneValid(c, fs, items[0].0, items[0].1, fx);
      var (o, fs1) := ForgetOne(c, fs, items[0].0, items[0].1, fx);
      if o.Done? {
        ForgetValid(c, fs1, items[1..], fx);
      }
    }
  }
}
