/**
 * The converse of `NamespaceInvariants.IndexListed`: every entry of a
 * directory's list other than `.` and `..` names the inode the index gives
 * that name, and appears once, so `readdir` shows no name that `lookup`
 * cannot find. The operations keep it once `delete_inode` cleans its stored
 * index key only while that key still names the inode (and `_replace` keeps
 * the new name); as written, `forget` and `_remove` can clean a name that
 * has passed to another inode, and the other inode's entry is left listed
 * but unindexed.
 */
module NamespaceConsistency {
  import opened Common
  import opened Inodes
  import opened MetaStores
  import opened SuperBlocks
  import opened Namespace
  import opened NamespaceInvariants
  import opened NamespaceLemmas

  /** The entry of inode `x` under name `n` in directory `d` is indexed there and listed once. */
  ghost predicate EntryIndexed(m: Meta, d: nat, x: nat, n: string)
  {
    || n == "." || n == ".."
    || ((d, n) in m.index && m.index[(d, n)] == x && multiset(m.List(d))[ReverseKey(x, n)] == 1)
  }

  ghost predicate ListedIndexed(m: Meta)
  {
    forall d: nat, x: nat, n: string :: ReverseKey(x, n) in m.List(d) ==> EntryIndexed(m, d, x, n)
  }

  /** The invariant together with its converse. */
  ghost predicate Consistent(c: Config, m: Meta)
  {
    Valid(c, m) && ListedIndexed(m)
  }

  // ---------------------------------------------------------------------------
  // Facts about the primitives

  /** `LREM` of one occurrence takes exactly that occurrence out. */
  lemma {:induction false} RemoveFirstMultiset<T>(s: seq<T>, y: T)
    ensures multiset(RemoveFirst(s, y)) == multiset(s) - multiset{y}
  {
    if y in s {
      var k := IndexOf(s, y);
      var a, b := s[..k], s[k + 1..];
      assert s == a + [y] + b;
      assert multiset(s) == multiset(a) + multiset{y} + multiset(b);
      assert multiset(RemoveFirst(s, y)) == multiset(a) + multiset(b);
    } else {
      assert multiset(s)[y] == 0;
    }
  }

  /** Changes that keep the index and the lists keep the converse. */
  lemma SameNamesConsistent(m: Meta, m': Meta)
    requires ListedIndexed(m) && m'.index == m.index && m'.lists == m.lists
    ensures ListedIndexed(m')
  {
    forall d: nat, x: nat, n: string | ReverseKey(x, n) in m'.List(d)
      ensures EntryIndexed(m', d, x, n)
    {
      assert m'.List(d) == m.List(d) && EntryIndexed(m, d, x, n);
    }
  }

  /** A key added to the index, with the lists unchanged, keeps the converse. */
  lemma IndexGrowsConsistent(m: Meta, m': Meta)
    requires ListedIndexed(m) && m'.lists == m.lists
    requires forall key :: key in m.index ==> key in m'.index && m'.index[key] == m.index[key]
    ensures ListedIndexed(m')
  {
    forall d: nat, x: nat, n: string | ReverseKey(x, n) in m'.List(d)
      ensures EntryIndexed(m', d, x, n)
    {
      assert m'.List(d) == m.List(d) && EntryIndexed(m, d, x, n);
    }
  }

  /** Indexing a free name and appending its entry to the directory's list keeps the converse. */
  lemma AddNameConsistent(m: Meta, m': Meta, d: nat, x: nat, n: string)
    requires ListedIndexed(m) && (d, n) !in m.index
    requires m'.index == m.index[(d, n) := x] && m'.lists == m.AddToList(d, x, n).lists
    ensures ListedIndexed(m')
  {
    forall d': nat, x': nat, n': string | ReverseKey(x', n') in m'.List(d')
      ensures EntryIndexed(m', d', x', n')
    {
      if n' != "." && n' != ".." {
        if d' == d {
          assert m'.List(d) == m.List(d) + [ReverseKey(x, n)];
          ReverseKeyInjective(x', n', x, n);
          if ReverseKey(x', n') == ReverseKey(x, n) {
            assert ReverseKey(x, n) !in m.List(d);
          } else {
            assert EntryIndexed(m, d, x', n');
          }
        } else {
          assert m'.List(d') == m.List(d') && EntryIndexed(m, d', x', n');
        }
      }
    }
  }

  /** Appending a `.` or `..` entry keeps the converse. */
  lemma AddDotConsistent(m: Meta, m': Meta, d: nat, x: nat, n: string)
    requires ListedIndexed(m) && (n == "." || n == "..")
    requires m'.index == m.index && m'.lists == m.AddToList(d, x, n).lists
    ensures ListedIndexed(m')
  {
    forall d': nat, x': nat, n': string | ReverseKey(x', n') in m'.List(d')
      ensures EntryIndexed(m', d', x', n')
    {
      if n' != "." && n' != ".." {
        ReverseKeyInjective(x', n', x, n);
        if d' == d {
          assert m'.List(d) == m.List(d) + [ReverseKey(x, n)];
        } else {
          assert m'.List(d') == m.List(d');
        }
        assert EntryIndexed(m, d', x', n');
      }
    }
  }

  /** Dropping an indexed name from the index and its entry from the list keeps the converse. */
  lemma RemoveNameConsistent(m: Meta, m': Meta, d: nat, x: nat, n: string)
    requires ListedIndexed(m) && (d, n) in m.index && m.index[(d, n)] == x
    requires m'.index == m.index - {(d, n)} && m'.lists == m.RemoveFromList(d, x, n).lists
    ensures ListedIndexed(m')
  {
    forall d': nat, x': nat, n': string | ReverseKey(x', n') in m'.List(d')
      ensures EntryIndexed(m', d', x', n')
    {
      if n' != "." && n' != ".." {
        if d' == d && d in m.lists {
          var e := ReverseKey(x', n');
          assert m'.List(d) == RemoveFirst(m.List(d), ReverseKey(x, n));
          RemoveFirstMultiset(m.List(d), ReverseKey(x, n));
          assert e in m.List(d) by {
            assert multiset(m'.List(d))[e] > 0;
          }
          assert EntryIndexed(m, d, x', n');
          ReverseKeyInjective(x', n', x, n);
        } else {
          assert m'.List(d') == m.List(d') && EntryIndexed(m, d', x', n');
        }
      }
    }
  }

  /** Dropping a list keeps the converse. */
  lemma DropListConsistent(m: Meta, m': Meta, id: nat)
    requires ListedIndexed(m) && m'.index == m.index && m'.lists == m.lists - {id}
    ensures ListedIndexed(m')
  {
    forall d: nat, x: nat, n: string | ReverseKey(x, n) in m'.List(d)
      ensures EntryIndexed(m', d, x, n)
    {
      assert d != id && m'.List(d) == m.List(d) && EntryIndexed(m, d, x, n);
    }
  }

  // ---------------------------------------------------------------------------
  // Deletion

  /**
   * The corrected `delete_inode` of an inode that no indexed name reaches
   * leaves the index as it is and drops only the inode's list; as written
   * it cleans the stored key whatever that key now names.
   */
  lemma CorrectedDeleteKeepsIndex(m: Meta, id: nat, fx: Fixes)
    requires fx.deleteChecksIndex && id in m.records && Names(m.index, id) == {}
    ensures DeleteRecord(m, id, fx).value.index == m.index
    ensures DeleteRecord(m, id, fx).value.lists == m.lists - {id}
  {
    var r := m.records[id];
    var key := (r.parentInodeId, FormatName(r.name));
    assert key in m.index && m.index[key] == id ==> key in Names(m.index, id);
  }

  /** The corrected deletion of an unnamed inode, with its superblock updates, keeps the converse. */
  lemma DeleteUnnamedConsistent(c: Config, m: Meta, id: nat, v: int, fx: Fixes)
    requires ListedIndexed(m) && fx.deleteChecksIndex && id in m.records && Names(m.index, id) == {}
    ensures ListedIndexed(c.keys.DecrInodeCounter(c.keys.DecrUsedSize(DeleteRecord(m, id, fx).value, v)))
  {
    var m1 := DeleteRecord(m, id, fx).value;
    CorrectedDeleteKeepsIndex(m, id, fx);
    DropListConsistent(m, m1, id);
    SameNamesConsistent(m1, c.keys.DecrInodeCounter(c.keys.DecrUsedSize(m1, v)));
  }

  // ---------------------------------------------------------------------------
  // The operations keep the converse

  lemma SetupRootConsistent(c: Config, m: Meta, now: int)
    requires c.keys.Distinct() && c.keys.Bounded(m)
    requires m.records == map[] && m.index == map[] && m.lists == map[]
    requires c.keys.freeInodeId in m.sb && m.sb[c.keys.freeInodeId] == 1
    ensures Consistent(c, SetupRoot(c, m, now))
  {
    SetupRootValid(c, m, now);
    var a := m.AddToList(RootInode, RootInode, "..");
    var b := a.AddToList(RootInode, RootInode, ".");
    AddDotConsistent(m, a, RootInode, RootInode, "..");
    AddDotConsistent(a, b, RootInode, RootInode, ".");
    IndexGrowsConsistent(b, SetupRoot(c, m, now));
  }

  lemma SetattrConsistent(c: Config, fs: Fs, id: nat, a: SetAttrs, now: int)
    requires Consistent(c, fs.meta)
    ensures Consistent(c, Setattr(c, fs, id, a, now).1.meta)
  {
    SetattrValid(c, fs, id, a, now);
    SameNamesConsistent(fs.meta, Setattr(c, fs, id, a, now).1.meta);
  }

  lemma LookupConsistent(c: Config, fs: Fs, parent: nat, name: string, fx: Fixes)
    requires Consistent(c, fs.meta)
    ensures Consistent(c, Lookup(c, fs, parent, name, fx).1.meta)
  {
    LookupValid(c, fs, parent, name, fx);
    LookupKeepsNames(c, fs, parent, name, fx);
    SameNamesConsistent(fs.meta, Lookup(c, fs, parent, name, fx).1.meta);
  }

  /** `lookup` changes at most a lookup count. */
  lemma LookupKeepsNames(c: Config, fs: Fs, parent: nat, name: string, fx: Fixes)
    ensures Lookup(c, fs, parent, name, fx).1.meta.index == fs.meta.index
    ensures Lookup(c, fs, parent, name, fx).1.meta.lists == fs.meta.lists
  {
  }

  lemma OpenConsistent(c: Config, fs: Fs, id: nat)
    requires Consistent(c, fs.meta)
    ensures Consistent(c, Open(fs, id).1.meta)
  {
    OpenValid(c, fs, id);
    SameNamesConsistent(fs.meta, Open(fs, id).1.meta);
  }

  /** Creation lists the new name once, where the index puts it, plus a directory's own `.` and `..`. */
  lemma CreateEntryConsistent(c: Config, fs: Fs, parent: nat, name: string, mode: nat, target: Option<string>,
                              now: int)
    requires Consistent(c, fs.meta)
    ensures Consistent(c, CreateEntry(c, fs, parent, name, mode, target, now).1.meta)
  {
    var m := fs.meta;
    CreateEntryValid(c, fs, parent, name, mode, target, now);
    CreateEntryMeta(c, fs, parent, name, mode, target, now);
    FetchFreeInodeIdIncreases(c.keys, m);
    var (got, m1) := c.keys.FetchFreeInodeId(m);
    SameNamesConsistent(m, m1);
    if CreateAllowed(c, m, parent, name) && got.Ok? && got.value.Some? && got.value.value >= 0 {
      assert (parent, name) !in m.index;
      InsertConsistent(c, m1, parent, name, got.value.value, mode, target, now);
    }
  }

  lemma InsertConsistent(c: Config, m: Meta, parent: nat, name: string, id: nat, mode: nat, target: Option<string>,
                         now: int)
    requires ListedIndexed(m) && (parent, name) !in m.index
    ensures ListedIndexed(Insert(c, m, parent, name, id, mode, target, now))
  {
    var m' := Insert(c, m, parent, name, id, mode, target, now);
    InsertRecords(c, m, parent, name, id, mode, target, now);
    InsertListsAre(c, m, parent, name, id, mode, target, now);
    var a := m.BuildIndex(parent, id, name).AddToList(parent, id, name);
    AddNameConsistent(m, a, parent, id, name);
    if IsDir(mode) {
      var b := a.AddToList(id, id, ".");
      AddDotConsistent(a, b, id, id, ".");
      var d := b.AddToList(id, parent, "..");
      AddDotConsistent(b, d, id, parent, "..");
      SameNamesConsistent(d, m');
    } else {
      SameNamesConsistent(a, m');
    }
  }

  /**
   * `_remove` with the corrected `delete_inode` keeps the converse: the
   * name leaves the index and the list together, and a deleted inode, which
   * has no name left, takes no other inode's index key with it.
   */
  lemma RemoveConsistent(c: Config, fs: Fs, parent: nat, name: string, e: Attr, fx: Fixes)
    requires Consistent(c, fs.meta) && GetEntry(c, fs.meta, parent, name) == Ok(e) && fx.deleteChecksIndex
    ensures Consistent(c, Remove(c, fs, parent, name, e, fx).1.meta)
  {
    var m := fs.meta;
    RemoveValid(c, fs, parent, name, e, fx);
    if |m.List(e.ino)| <= 2 {
      RemoveMeta(c, fs, parent, name, e, fx);
      var id := e.ino;
      UnlinkedValid(c, m, parent, name, id);
      UnlinkedShape(m, parent, name, id);
      var m2 := Unlinked(m, parent, name, id);
      RemoveNameConsistent(m, m2, parent, id, name);
      var ino := m2.records[id];
      if e.nlink == 1 && ino.lookupCount == 0 {
        DeleteUnnamedConsistent(c, m2, id, ino.size, fx);
      }
    }
  }

  lemma RmdirConsistent(c: Config, fs: Fs, parent: nat, name: string, fx: Fixes)
    requires Consistent(c, fs.meta) && fx.deleteChecksIndex
    ensures Consistent(c, Rmdir(c, fs, parent, name, fx).1.meta)
  {
    var g := GetEntry(c, fs.meta, parent, name);
    if g.Ok? && |name| <= NameLimit && IsDir(g.value.mode) {
      RemoveConsistent(c, fs, parent, name, g.value, fx);
    }
  }

  lemma UnlinkConsistent(c: Config, fs: Fs, parent: nat, name: string, fx: Fixes)
    requires Consistent(c, fs.meta) && fx.deleteChecksIndex
    ensures Consistent(c, Unlink(c, fs, parent, name, fx).1.meta)
  {
    var g := GetEntry(c, fs.meta, parent, name);
    if g.Ok? && !IsDir(g.value.mode) {
      RemoveConsistent(c, fs, parent, name, g.value, fx);
    }
  }

  /** `link` to a free name (the kernel never links onto a taken one) keeps the converse. */
  lemma LinkConsistent(c: Config, fs: Fs, id: nat, newParent: nat, newName: string, fx: Fixes)
    requires Consistent(c, fs.meta) && id in fs.meta.records && (newParent, newName) !in fs.meta.index
    ensures Consistent(c, Link(c, fs, id, newParent, newName, fx).1.meta)
  {
    var m := fs.meta;
    LinkValid(c, fs, id, newParent, newName, fx);
    if Getattr(c, m, newParent).Ok? && Getattr(c, m, newParent).value.nlink != 0 {
      LinkMeta(c, fs, id, newParent, newName, fx);
      LinkedConsistent(m, id, newParent, newName);
    } else {
      SameNamesConsistent(m, Link(c, fs, id, newParent, newName, fx).1.meta);
    }
  }

  lemma LinkedConsistent(m: Meta, id: nat, newParent: nat, newName: string)
    requires ListedIndexed(m) && Keyed(m) && id in m.records && (newParent, newName) !in m.index
    ensures ListedIndexed(Linked(m, id, newParent, newName))
  {
    LinkedShape(m, id, newParent, newName);
    AddNameConsistent(m, Linked(m, id, newParent, newName), newParent, id, newName);
  }

  /** A rename to a free name moves the list entry and the index key together. */
  lemma MoveEntryConsistent(c: Config, fs: Fs, oldParent: nat, oldName: string, newParent: nat, newName: string,
                            oe: Attr, fx: Fixes)
    requires Consistent(c, fs.meta) && GetEntry(c, fs.meta, oldParent, oldName) == Ok(oe)
    requires (newParent, newName) !in fs.meta.index && newParent in fs.meta.records
    ensures Consistent(c, MoveEntry(fs, oldParent, oldName, newParent, newName, oe, fx).1.meta)
  {
    var m := fs.meta;
    var id := oe.ino;
    MoveEntryValid(c, fs, oldParent, oldName, newParent, newName, oe, fx);
    EntryFound(c, m, oldParent, oldName, oe);
    MoveEntryMeta(fs, oldParent, oldName, newParent, newName, oe, fx);
    MovedConsistent(m, oldParent, oldName, newParent, newName, id, fx);
  }

  lemma MovedConsistent(m: Meta, oldParent: nat, oldName: string, newParent: nat, newName: string, id: nat,
                        fx: Fixes)
    requires ListedIndexed(m) && Keyed(m) && id in m.records
    requires (oldParent, oldName) in m.index && m.index[(oldParent, oldName)] == id
    requires (newParent, newName) !in m.index
    ensures ListedIndexed(Moved(m, oldParent, oldName, newParent, newName, id, fx))
  {
    MovedShape(m, oldParent, oldName, newParent, newName, id, fx);
    var mid := m.RemoveFromList(oldParent, id, oldName).CleanIndex(oldParent, oldName);
    RemoveNameConsistent(m, mid, oldParent, id, oldName);
    AddNameConsistent(mid, Moved(m, oldParent, oldName, newParent, newName, id, fx), newParent, id, newName);
  }

  /**
   * A rename onto another inode's entry keeps the converse once `_replace`
   * lists and indexes the source under the NEW name; as written it indexes
   * the old name in the new parent, which can take a third inode's key.
   */
  lemma ReplaceConsistent(c: Config, fs: Fs, oldParent: nat, oldName: string, newParent: nat, newName: string,
                          oe: Attr, ne: Attr, fx: Fixes)
    requires Consistent(c, fs.meta) && fx.replaceUsesNewName
    requires GetEntry(c, fs.meta, oldParent, oldName) == Ok(oe) && GetEntry(c, fs.meta, newParent, newName) == Ok(ne)
    requires oe.ino != ne.ino
    ensures Consistent(c, Replace(fs, oldParent, oldName, newParent, newName, oe, ne, fx).1.meta)
  {
    var m := fs.meta;
    ReplaceValid(c, fs, oldParent, oldName, newParent, newName, oe, ne, fx);
    if |m.List(ne.ino)| == 0 {
      var id, tid := oe.ino, ne.ino;
      EntryFound(c, m, oldParent, oldName, oe);
      EntryFound(c, m, newParent, newName, ne);
      ReplaceMeta(fs, oldParent, oldName, newParent, newName, oe, ne, fx);
      var r := Replaced(m, oldParent, oldName, newParent, newName, id, tid, newName);
      ReplacedConsistent(m, oldParent, oldName, newParent, newName, id, tid);
      SameNamesConsistent(r, Renamed(r, id, newParent, newName, fx));
    }
  }

  lemma ReplacedConsistent(m: Meta, oldParent: nat, oldName: string, newParent: nat, newName: string, id: nat,
                           tid: nat)
    requires ListedIndexed(m) && Keyed(m) && tid in m.records && id != tid
    requires (oldParent, oldName) in m.index && m.index[(oldParent, oldName)] == id
    requires (newParent, newName) in m.index && m.index[(newParent, newName)] == tid
    ensures ListedIndexed(Replaced(m, oldParent, oldName, newParent, newName, id, tid, newName))
  {
    ReplacedShape(m, oldParent, oldName, newParent, newName, id, tid, newName);
    var m1 := m.RemoveFromList(oldParent, id, oldName).CleanIndex(oldParent, oldName);
    RemoveNameConsistent(m, m1, oldParent, id, oldName);
    var m2 := m1.RemoveFromList(newParent, tid, newName).CleanIndex(newParent, newName);
    RemoveNameConsistent(m1, m2, newParent, tid, newName);
    var r := Replaced(m, oldParent, oldName, newParent, newName, id, tid, newName);
    assert r.index == m2.index[(newParent, newName) := id];
    AddNameConsistent(m2, r, newParent, id, newName);
  }

  lemma RenameConsistent(c: Config, fs: Fs, oldParent: nat, oldName: string, newParent: nat, newName: string,
                         fx: Fixes)
    requires Consistent(c, fs.meta) && newParent in fs.meta.records && fx.replaceUsesNewName
    requires fs.meta.InodeId(newParent, newName).Some? ==>
               fs.meta.InodeId(oldParent, oldName) != fs.meta.InodeId(newParent, newName)
    ensures Consistent(c, Rename(c, fs, oldParent, oldName, newParent, newName, fx).1.meta)
  {
    var m := fs.meta;
    var go := GetEntry(c, m, oldParent, oldName);
    var gn := GetEntry(c, m, newParent, newName);
    if go.Ok? {
      if gn == Err(Fuse(ENOENT)) {
        MoveEntryConsistent(c, fs, oldParent, oldName, newParent, newName, go.value, fx);
      } else if gn.Ok? {
        ReplaceConsistent(c, fs, oldParent, oldName, newParent, newName, go.value, gn.value, fx);
      }
    }
  }

  /** One `forget` pair with the corrected `delete_inode`: an inode deleted without links has no names. */
  lemma ForgetOneConsistent(c: Config, fs: Fs, id: nat, n: int, fx: Fixes)
    requires Consistent(c, fs.meta) && fx.deleteChecksIndex
    ensures Consistent(c, ForgetOne(c, fs, id, n, fx).1.meta)
  {
    var m := fs.meta;
    ForgetOneValid(c, fs, id, n, fx);
    if id in m.records {
      ForgetMeta(c, fs, id, n, fx);
      var r := m.records[id];
      if r.nlink == 0 && r.lookupCount - n == 0 {
        assert |Names(m.index, id)| <= 0;
        DeleteUnnamedConsistent(c, m, id, r.size, fx);
      } else {
        SameNamesConsistent(m, ForgetOne(c, fs, id, n, fx).1.meta);
      }
    } else {
      assert ForgetOne(c, fs, id, n, fx).1 == fs;
    }
  }

  lemma {:induction false} ForgetConsistent(c: Config, fs: Fs, items: seq<(nat, int)>, fx: Fixes)
    requires Consistent(c, fs.meta) && fx.deleteChecksIndex
    ensures Consistent(c, Forget(c, fs, items, fx).1.meta)
    decreases |items|
  {
    if |items| > 0 {
      ForgetOneConsistent(c, fs, items[0].0, items[0].1, fx);
      var (o, fs1) := ForgetOne(c, fs, items[0].0, items[0].1, fx);
      if o.Done? {
        ForgetConsistent(c, fs1, items[1..], fx);
      }
    }
  }

  // ---------------------------------------------------------------------------
  // Finding: `delete_inode` cleans the stored key whatever it names now

  /**
   * The start of the sequence below: file `x` is named `a` in directory `p`,
   * which is also the key stored in its record, and has one link; `y` is
   * named `b` in the linked directory `q`, where the name `n` is free.
   */
  ghost predicate TraceStart(c: Config, m: Meta, x: nat, y: nat, p: nat, a: string, q: nat, b: string, n: string)
  {
    && Consistent(c, m) && HasBlockSize(c, m)
    && (p, a) in m.index && m.index[(p, a)] == x
    && (q, b) in m.index && m.index[(q, b)] == y
    && (q, n) !in m.index
    && x in m.records && m.records[x].name == Some(a) && m.records[x].parentInodeId == p
    && m.records[x].nlink == 1 && m.records[x].lookupCount >= 0 && !IsDir(m.records[x].mode) && |m.List(x)| <= 2
    && p in m.records && q in m.records && m.records[q].nlink != 0
    && x != y && p != q && p != x && q != x
    && a != "." && a != ".."
  }

  /**
   * The stores after `link` of `x` as `q/n`, `unlink` of `p/a`, `rename` of
   * `q/b` to the now free `p/a`, and `unlink` of `q/n`.
   */
  ghost function Relinked(c: Config, fs: Fs, x: nat, p: nat, a: string, q: nat, b: string, n: string, fx: Fixes): Fs
  {
    var fs1 := Link(c, fs, x, q, n, fx).1;
    var fs2 := Unlink(c, fs1, p, a, fx).1;
    var fs3 := Rename(c, fs2, q, b, p, a, fx).1;
    Unlink(c, fs3, q, n, fx).1
  }

  /**
   * File `x` has no links left and `k` lookups, and its stored key `(p, a)`
   * names `y` instead, which `p` lists as `a`.
   */
  ghost predicate Stale(c: Config, m: Meta, x: nat, y: nat, p: nat, a: string, k: int)
  {
    && Valid(c, m) && HasBlockSize(c, m)
    && x in m.records && m.records[x].nlink == 0 && m.records[x].lookupCount == k
    && m.records[x].parentInodeId == p && m.records[x].name == Some(a)
    && (p, a) in m.index && m.index[(p, a)] == y && y in m.records
    && ReverseKey(y, a) in m.List(p) && p != x && a != "." && a != ".."
  }

  /** `link` into a linked directory that exists: the result is the linked inode's attributes. */
  lemma LinkAdds(c: Config, fs: Fs, id: nat, newParent: nat, newName: string, fx: Fixes)
    requires Valid(c, fs.meta) && HasBlockSize(c, fs.meta) && id in fs.meta.records
    requires newParent in fs.meta.records && fs.meta.records[newParent].nlink != 0
    ensures Link(c, fs, id, newParent, newName, fx).0.Ok?
    ensures Link(c, fs, id, newParent, newName, fx).1 == fs.(meta := Linked(fs.meta, id, newParent, newName))
    ensures Valid(c, Linked(fs.meta, id, newParent, newName))
  {
    GetattrSpec(c, fs.meta, newParent);
    LinkMeta(c, fs, id, newParent, newName, fx);
    LinkedValid(c, fs.meta, id, newParent, newName);
    LinkedShape(fs.meta, id, newParent, newName);
    GetattrSpec(c, Linked(fs.meta, id, newParent, newName), id);
  }

  /** `unlink` of a name of a non-directory that keeps its record: the name and one link go. */
  lemma UnlinkKept(c: Config, fs: Fs, parent: nat, name: string, id: nat, fx: Fixes)
    requires Valid(c, fs.meta) && HasBlockSize(c, fs.meta)
    requires (parent, name) in fs.meta.index && fs.meta.index[(parent, name)] == id && id in fs.meta.records
    requires !IsDir(fs.meta.records[id].mode) && |fs.meta.List(id)| <= 2
    requires fs.meta.records[id].nlink != 1 || fs.meta.records[id].lookupCount != 0
    ensures Unlink(c, fs, parent, name, fx) == (Done, fs.(meta := Unlinked(fs.meta, parent, name, id)))
    ensures Valid(c, Unlinked(fs.meta, parent, name, id))
  {
    GetattrSpec(c, fs.meta, id);
    var e := GetEntry(c, fs.meta, parent, name).value;
    RemoveShape(c, fs, parent, name, e, fx);
    UnlinkedShape(fs.meta, parent, name, id);
    UnlinkedValid(c, fs.meta, parent, name, id);
  }

  /** `rename` of an indexed name to a free one in an existing directory is a move. */
  lemma RenameMoves(c: Config, fs: Fs, oldParent: nat, oldName: string, newParent: nat, newName: string, id: nat,
                    fx: Fixes)
    requires Valid(c, fs.meta) && HasBlockSize(c, fs.meta) && newParent in fs.meta.records
    requires (oldParent, oldName) in fs.meta.index && fs.meta.index[(oldParent, oldName)] == id
    requires (newParent, newName) !in fs.meta.index
    ensures id in fs.meta.records
    ensures Rename(c, fs, oldParent, oldName, newParent, newName, fx)
         == (Done, fs.(meta := Moved(fs.meta, oldParent, oldName, newParent, newName, id, fx)))
    ensures Valid(c, Moved(fs.meta, oldParent, oldName, newParent, newName, id, fx))
  {
    GetattrSpec(c, fs.meta, id);
    var oe := GetEntry(c, fs.meta, oldParent, oldName).value;
    MoveEntryMeta(fs, oldParent, oldName, newParent, newName, oe, fx);
    MovedValid(c, fs.meta, oldParent, oldName, newParent, newName, id, fx);
  }

  /** After the `link`: `x` has the second name `q/n`, two links and one lookup more. */
  ghost predicate AfterLink(c: Config, m: Meta, x: nat, y: nat, p: nat, a: string, q: nat, b: string, n: string,
                            k: int)
  {
    && Valid(c, m) && HasBlockSize(c, m)
    && (p, a) in m.index && m.index[(p, a)] == x
    && (q, b) in m.index && m.index[(q, b)] == y
    && (q, n) in m.index && m.index[(q, n)] == x
    && x in m.records && m.records[x].name == Some(a) && m.records[x].parentInodeId == p
    && m.records[x].nlink == 2 && m.records[x].lookupCount == k && !IsDir(m.records[x].mode) && |m.List(x)| <= 2
    && p in m.records && x != y && p != q && p != x && q != x && a != "." && a != ".."
  }

  /** After the first `unlink`: `p/a` is free and `x` has one link, still under its stored key `(p, a)`. */
  ghost predicate AfterUnlink(c: Config, m: Meta, x: nat, y: nat, p: nat, a: string, q: nat, b: string, n: string,
                              k: int)
  {
    && Valid(c, m) && HasBlockSize(c, m)
    && (p, a) !in m.index
    && (q, b) in m.index && m.index[(q, b)] == y
    && (q, n) in m.index && m.index[(q, n)] == x
    && x in m.records && m.records[x].name == Some(a) && m.records[x].parentInodeId == p
    && m.records[x].nlink == 1 && m.records[x].lookupCount == k && !IsDir(m.records[x].mode) && |m.List(x)| <= 2
    && p in m.records && x != y && p != q && p != x && q != x && a != "." && a != ".."
  }

  /** After the `rename`: `p/a` names `y` and is listed in `p`. */
  ghost predicate AfterMove(c: Config, m: Meta, x: nat, y: nat, p: nat, a: string, q: nat, n: string, k: int)
  {
    && Valid(c, m) && HasBlockSize(c, m)
    && (p, a) in m.index && m.index[(p, a)] == y && y in m.records && ReverseKey(y, a) in m.List(p)
    && (q, n) in m.index && m.index[(q, n)] == x
    && x in m.records && m.records[x].name == Some(a) && m.records[x].parentInodeId == p
    && m.records[x].nlink == 1 && m.records[x].lookupCount == k && !IsDir(m.records[x].mode) && |m.List(x)| <= 2
    && p != q && p != x && q != x && a != "." && a != ".."
  }

  lemma LinkStep(c: Config, fs: Fs, x: nat, y: nat, p: nat, a: string, q: nat, b: string, n: string, fx: Fixes)
    requires TraceStart(c, fs.meta, x, y, p, a, q, b, n)
    ensures Link(c, fs, x, q, n, fx).0.Ok?
    ensures AfterLink(c, Link(c, fs, x, q, n, fx).1.meta, x, y, p, a, q, b, n, fs.meta.records[x].lookupCount + 1)
  {
    LinkAdds(c, fs, x, q, n, fx);
    LinkedShape(fs.meta, x, q, n);
    assert Linked(fs.meta, x, q, n).List(x) == fs.meta.List(x);
  }

  lemma UnlinkStep(c: Config, fs: Fs, x: nat, y: nat, p: nat, a: string, q: nat, b: string, n: string, k: int,
                   fx: Fixes)
    requires AfterLink(c, fs.meta, x, y, p, a, q, b, n, k)
    ensures Unlink(c, fs, p, a, fx).0 == Done
    ensures AfterUnlink(c, Unlink(c, fs, p, a, fx).1.meta, x, y, p, a, q, b, n, k)
  {
    UnlinkKept(c, fs, p, a, x, fx);
    UnlinkedShape(fs.meta, p, a, x);
    assert Unlinked(fs.meta, p, a, x).List(x) == fs.meta.List(x);
  }

  /** A move of `y` to `p/a` lists it there and leaves every other inode's record and list alone. */
  lemma MovedKeepsOthers(m: Meta, q: nat, b: string, p: nat, a: string, y: nat, x: nat, fx: Fixes)
    requires Keyed(m) && y in m.records && x in m.records && x != y && x != p && x != q
    ensures var m' := Moved(m, q, b, p, a, y, fx);
      && ReverseKey(y, a) in m'.List(p) && m'.List(x) == m.List(x)
      && m'.records[x] == m.records[x] && m'.sb == m.sb
  {
    MovedShape(m, q, b, p, a, y, fx);
    var m0 := m.RemoveFromList(q, y, b);
    AddToListGrows(m0, p, y, a);
    var m3 := Moved(m, q, b, p, a, y, fx);
    assert m3.List(p) == m0.AddToList(p, y, a).List(p);
    assert m3.List(x) == m0.AddToList(p, y, a).List(x) == m0.List(x);
  }

  lemma MoveStep(c: Config, fs: Fs, x: nat, y: nat, p: nat, a: string, q: nat, b: string, n: string, k: int,
                 fx: Fixes)
    requires AfterUnlink(c, fs.meta, x, y, p, a, q, b, n, k)
    ensures Rename(c, fs, q, b, p, a, fx).0 == Done
    ensures AfterMove(c, Rename(c, fs, q, b, p, a, fx).1.meta, x, y, p, a, q, n, k)
  {
    RenameMoves(c, fs, q, b, p, a, y, fx);
    MovedKeepsOthers(fs.meta, q, b, p, a, y, x, fx);
    MovedShape(fs.meta, q, b, p, a, y, fx);
  }

  lemma LastUnlinkStep(c: Config, fs: Fs, x: nat, y: nat, p: nat, a: string, q: nat, n: string, k: int, fx: Fixes)
    requires AfterMove(c, fs.meta, x, y, p, a, q, n, k) && k != 0
    ensures Unlink(c, fs, q, n, fx).0 == Done
    ensures Stale(c, Unlink(c, fs, q, n, fx).1.meta, x, y, p, a, k)
  {
    UnlinkKept(c, fs, q, n, x, fx);
    UnlinkedShape(fs.meta, q, n, x);
    RemoveFromListKeeps(fs.meta, q, x, n, p, y, a);
  }

  /**
   * The four steps all succeed, and leave `x` without links but still
   * looked up, with its stored key now naming `y`, whatever the switches.
   */
  lemma RelinkedSpec(c: Config, fs: Fs, x: nat, y: nat, p: nat, a: string, q: nat, b: string, n: string, fx: Fixes)
    requires TraceStart(c, fs.meta, x, y, p, a, q, b, n)
    ensures var fs1 := Link(c, fs, x, q, n, fx).1;
      var fs2 := Unlink(c, fs1, p, a, fx).1;
      var fs3 := Rename(c, fs2, q, b, p, a, fx).1;
      && Link(c, fs, x, q, n, fx).0.Ok?
      && Unlink(c, fs1, p, a, fx).0 == Done
      && Rename(c, fs2, q, b, p, a, fx).0 == Done
      && Unlink(c, fs3, q, n, fx).0 == Done
    ensures Stale(c, Relinked(c, fs, x, p, a, q, b, n, fx).meta, x, y, p, a, fs.meta.records[x].lookupCount + 1)
  {
    var k := fs.meta.records[x].lookupCount + 1;
    LinkStep(c, fs, x, y, p, a, q, b, n, fx);
    var fs1 := Link(c, fs, x, q, n, fx).1;
    UnlinkStep(c, fs1, x, y, p, a, q, b, n, k, fx);
    var fs2 := Unlink(c, fs1, p, a, fx).1;
    MoveStep(c, fs2, x, y, p, a, q, b, n, k, fx);
    var fs3 := Rename(c, fs2, q, b, p, a, fx).1;
    LastUnlinkStep(c, fs3, x, y, p, a, q, n, k, fx);
  }

  /** With the corrected `delete_inode`, each of the four steps keeps the converse. */
  lemma RelinkedConsistent(c: Config, fs: Fs, x: nat, y: nat, p: nat, a: string, q: nat, b: string, n: string,
                           fx: Fixes)
    requires TraceStart(c, fs.meta, x, y, p, a, q, b, n) && fx.deleteChecksIndex
    ensures Consistent(c, Relinked(c, fs, x, p, a, q, b, n, fx).meta)
  {
    var k := fs.meta.records[x].lookupCount + 1;
    LinkStep(c, fs, x, y, p, a, q, b, n, fx);
    LinkConsistent(c, fs, x, q, n, fx);
    var fs1 := Link(c, fs, x, q, n, fx).1;
    UnlinkStep(c, fs1, x, y, p, a, q, b, n, k, fx);
    UnlinkConsistent(c, fs1, p, a, fx);
    var fs2 := Unlink(c, fs1, p, a, fx).1;
    RelinkedMoveConsistent(c, fs2, q, b, p, a, fx);
    var fs3 := Rename(c, fs2, q, b, p, a, fx).1;
    UnlinkConsistent(c, fs3, q, n, fx);
  }

  /** `forget` of a single inode with no links and exactly `k` lookups deletes it. */
  lemma ForgetDeletes(c: Config, fs: Fs, id: nat, k: int, fx: Fixes)
    requires Keyed(fs.meta) && id in fs.meta.records
    requires fs.meta.records[id].nlink == 0 && fs.meta.records[id].lookupCount == k
    ensures Forget(c, fs, [(id, k)], fx).0 == Done
    ensures Forget(c, fs, [(id, k)], fx).1.meta
         == c.keys.DecrInodeCounter(c.keys.DecrUsedSize(DeleteRecord(fs.meta, id, fx).value, fs.meta.records[id].size))
  {
    var r := fs.meta.records[id];
    assert r.id == id && fs.meta.Record(id) == Some(r);
    assert ForgetOne(c, fs, id, k, fx) == Forgotten(c, fs, r, fx);
    assert Forget(c, fs, [(id, k)], fx) == ForgetOne(c, fs, id, k, fx);
  }

  /**
   * Finding, as written: `forget` of the file then deletes it and cleans its
   * stored key `(p, a)`, which names `y`; `y` keeps its record and stays
   * listed in `p`, so `readdir` shows `a` while `lookup` and `unlink` of it
   * fail with ENOENT, and the listing no longer matches the index.
   */
  lemma ForgetOrphansName(c: Config, fs: Fs, x: nat, y: nat, p: nat, a: string, q: nat, b: string, n: string,
                          fx: Fixes)
    requires TraceStart(c, fs.meta, x, y, p, a, q, b, n) && !fx.deleteChecksIndex
    ensures var fs4 := Relinked(c, fs, x, p, a, q, b, n, fx);
      var (o, fs5) := Forget(c, fs4, [(x, fs.meta.records[x].lookupCount + 1)], fx);
      && o == Done && x !in fs5.meta.records && y in fs5.meta.records
      && ReverseKey(y, a) in fs5.meta.List(p) && (p, a) !in fs5.meta.index
      && !ListedIndexed(fs5.meta)
      && Lookup(c, fs5, p, a, fx).0 == Err(Fuse(ENOENT))
      && Unlink(c, fs5, p, a, fx) == (Fail(Fuse(ENOENT)), fs5)
  {
    RelinkedSpec(c, fs, x, y, p, a, q, b, n, fx);
    StaleForget(c, Relinked(c, fs, x, p, a, q, b, n, fx), x, y, p, a, fs.meta.records[x].lookupCount + 1, fx);
  }

  /** The last step of `ForgetOrphansName`, from any store in that state. */
  lemma StaleForget(c: Config, fs: Fs, x: nat, y: nat, p: nat, a: string, k: int, fx: Fixes)
    requires Stale(c, fs.meta, x, y, p, a, k) && !fx.deleteChecksIndex
    ensures var (o, fs') := Forget(c, fs, [(x, k)], fx);
      && o == Done && x !in fs'.meta.records && y in fs'.meta.records
      && ReverseKey(y, a) in fs'.meta.List(p) && (p, a) !in fs'.meta.index
      && !ListedIndexed(fs'.meta)
      && Lookup(c, fs', p, a, fx).0 == Err(Fuse(ENOENT))
      && Unlink(c, fs', p, a, fx) == (Fail(Fuse(ENOENT)), fs')
  {
    var m := fs.meta;
    assert (p, a) in Names(m.index, y);
    assert x != y by {
      assert |Names(m.index, x)| <= 0;
    }
    ForgetDeletes(c, fs, x, k, fx);
    var fs' := Forget(c, fs, [(x, k)], fx).1;
    assert fs'.meta.index == m.index - {(p, a)} && fs'.meta.lists == m.lists - {x};
    assert !EntryIndexed(fs'.meta, p, y, a);
  }

  /**
   * Finding, corrected: with `delete_inode` checking the stored key first,
   * the same sequence keeps the listing and the index consistent, and `y`
   * is still found under `p/a`.
   */
  lemma CorrectedForgetKeepsName(c: Config, fs: Fs, x: nat, y: nat, p: nat, a: string, q: nat, b: string,
                                 n: string, fx: Fixes)
    requires TraceStart(c, fs.meta, x, y, p, a, q, b, n) && fx.deleteChecksIndex
    ensures var fs4 := Relinked(c, fs, x, p, a, q, b, n, fx);
      var (o, fs5) := Forget(c, fs4, [(x, fs.meta.records[x].lookupCount + 1)], fx);
      && o == Done && x !in fs5.meta.records
      && Consistent(c, fs5.meta)
      && fs5.meta.InodeId(p, a) == Some(y)
      && Lookup(c, fs5, p, a, fx).0.Ok? && Lookup(c, fs5, p, a, fx).0.value.ino == y
  {
    RelinkedSpec(c, fs, x, y, p, a, q, b, n, fx);
    RelinkedConsistent(c, fs, x, y, p, a, q, b, n, fx);
    StaleForgetCorrected(c, Relinked(c, fs, x, p, a, q, b, n, fx), x, y, p, a, fs.meta.records[x].lookupCount + 1, fx);
  }

  /** The rename step of the sequence keeps the converse. */
  lemma RelinkedMoveConsistent(c: Config, fs: Fs, q: nat, b: string, p: nat, a: string, fx: Fixes)
    requires Consistent(c, fs.meta) && HasBlockSize(c, fs.meta) && p in fs.meta.records
    requires (q, b) in fs.meta.index && (p, a) !in fs.meta.index
    ensures Consistent(c, Rename(c, fs, q, b, p, a, fx).1.meta)
  {
    var y := fs.meta.index[(q, b)];
    GetattrSpec(c, fs.meta, y);
    MoveEntryConsistent(c, fs, q, b, p, a, GetEntry(c, fs.meta, q, b).value, fx);
  }

  /** The last step of `CorrectedForgetKeepsName`, from any consistent store in that state. */
  lemma StaleForgetCorrected(c: Config, fs: Fs, x: nat, y: nat, p: nat, a: string, k: int, fx: Fixes)
    requires Stale(c, fs.meta, x, y, p, a, k) && ListedIndexed(fs.meta) && fx.deleteChecksIndex
    ensures var (o, fs') := Forget(c, fs, [(x, k)], fx);
      && o == Done && x !in fs'.meta.records
      && Consistent(c, fs'.meta)
      && fs'.meta.InodeId(p, a) == Some(y)
      && Lookup(c, fs', p, a, fx).0.Ok? && Lookup(c, fs', p, a, fx).0.value.ino == y
  {
    var m := fs.meta;
    assert |Names(m.index, x)| <= 0;
    ForgetDeletes(c, fs, x, k, fx);
    ForgetConsistent(c, fs, [(x, k)], fx);
    var fs' := Forget(c, fs, [(x, k)], fx).1;
    CorrectedDeleteKeepsIndex(m, x, fx);
    assert fs'.meta.index == m.index;
    var ks := c.keys.List();
    assert ks[2] != ks[5] && ks[2] != ks[1];
    assert HasBlockSize(c, fs'.meta);
    LookupIndexed(c, fs', p, a, fx);
  }
}
