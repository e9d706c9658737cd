/**
 * The inode record (objectfs/core/metadata/inode.py): the attributes one file,
 * directory or symbolic link carries, the values a new inode starts with, the
 * file-type tests on its mode, and its serialised form.
 */
module Inodes {
  import opened Common

  /** `llfuse.ROOT_INODE`. */
  const RootInode: nat := 1

  const IfMt: nat := 0xF000
  const IfDir: nat := 0x4000
  const IfReg: nat := 0x8000
  const IfLnk: nat := 0xA000

  /** `mode & stat.S_IFMT`. */
  function FileType(mode: nat): (t: nat)
    ensures t <= mode && t % 0x1000 == 0 && t < 0x10000
  {
    (mode / 0x1000 % 16) * 0x1000
  }

  predicate IsDir(mode: nat) { FileType(mode) == IfDir }
  predicate IsReg(mode: nat) { FileType(mode) == IfReg }
  predicate IsLnk(mode: nat) { FileType(mode) == IfLnk }

  /**
   * The pickled attributes of an `Inode` object. `name` and `target` are None
   * where Python holds `None` (the root has no name; only links have a target).
   * Times are nanoseconds since the epoch.
   */
  datatype InodeRecord = InodeRecord(
    id: nat,
    mode: nat,
    fsName: string,
    name: Option<string>,
    parentInodeId: nat,
    size: int,
    openCount: int,
    lookupCount: int,
    uid: int,
    gid: int,
    atime: int,
    mtime: int,
    ctime: int,
    rdev: int,
    target: Option<string>,
    nlink: int)

  /**
   * The attributes `Inode.__init__` gives a new inode: both counters start at
   * zero and all three times are the clock reading `now`, whatever times the
   * caller passed.
   */
  function NewInode(fsName: string, id: nat, mode: nat, name: Option<string>, parentInodeId: nat,
                    size: int, uid: int, gid: int, target: Option<string>, rdev: int, nlink: int,
                    now: int): InodeRecord
  {
    InodeRecord(id, mode, fsName, name, parentInodeId, size, 0, 0, uid, gid, now, now, now, rdev, target, nlink)
  }

  // ---------------------------------------------------------------------------
  // Serialised form. The source pickles the object; the model uses a
  // sequence of integer tokens: numbers are one token each, a string is its
  // length followed by its character codes, an optional string is a tag token
  // (0 for None, 1 for a value) followed by the string.

  predicate IsCharCode(x: int) { 0 <= x < 0xD800 || 0xE000 <= x < 0x11_0000 }

  function CharCodes(s: string): (t: seq<int>)
    ensures |t| == |s| && forall i :: 0 <= i < |s| ==> t[i] == s[i] as int && IsCharCode(t[i])
  {
    if |s| == 0 then [] else [s[0] as int] + CharCodes(s[1..])
  }

  function CodesToChars(t: seq<int>): Option<string>
  {
    if |t| == 0 then Some([])
    else if !IsCharCode(t[0]) then None
    else match CodesToChars(t[1..])
      case None => None
      case Some(rest) => Some([t[0] as char] + rest)
  }

  function EncodeText(s: string): seq<int> { [|s|] + CharCodes(s) }

  function DecodeText(t: seq<int>): Option<(string, seq<int>)>
  {
    if |t| == 0 || t[0] < 0 || t[0] > |t| - 1 then None
    else match CodesToChars(t[1..1 + t[0]])
      case None => None
      case Some(s) => Some((s, t[1 + t[0]..]))
  }

  function EncodeOptText(o: Option<string>): seq<int>
  {
    match o
    case None => [0]
    case Some(s) => [1] + EncodeText(s)
  }

  function DecodeOptText(t: seq<int>): Option<(Option<string>, seq<int>)>
  {
    if |t| == 0 then None
    else if t[0] == 0 then Some((None, t[1..]))
    else if t[0] == 1 then
      match DecodeText(t[1..])
      case None => None
      case Some((s, rest)) => Some((Some(s), rest))
    else None
  }

  /** `Inode.to_string`. */
  function ToString(r: InodeRecord): seq<int>
  {
    [r.id as int] + ([r.mode as int] + (EncodeText(r.fsName) + (EncodeOptText(r.name) + (
      [r.parentInodeId as int, r.size, r.openCount, r.lookupCount, r.uid, r.gid,
       r.atime, r.mtime, r.ctime, r.rdev] + (EncodeOptText(r.target) + [r.nlink])))))
  }

  /** `Inode.from_string`: None when the tokens are not the form of a record. */
  function FromString(t: seq<int>): Option<InodeRecord>
  {
    if |t| < 2 || t[0] < 0 || t[1] < 0 then None
    else match DecodeText(t[2..])
      case None => None
      case Some((fs, t1)) =>
        match DecodeOptText(t1)
        case None => None
        case Some((name, t2)) => DecodeNumbers(t[0], t[1], fs, name, t2)
  }

  /** The part of `FromString` after the name: ten numbers, the target and the link count. */
  function DecodeNumbers(id: nat, mode: nat, fs: string, name: Option<string>, t: seq<int>): Option<InodeRecord>
  {
    if |t| < 10 || t[0] < 0 then None
    else match DecodeOptText(t[10..])
      case None => None
      case Some((target, rest)) =>
        if |rest| != 1 then None
        else Some(InodeRecord(id, mode, fs, name, t[0], t[1], t[2], t[3], t[4], t[5],
                              t[6], t[7], t[8], t[9], target, rest[0]))
  }

  lemma {:induction false} CodesToCharsRoundTrip(s: string)
    ensures CodesToChars(CharCodes(s)) == Some(s)
  {
    if |s| > 0 {
      assert CharCodes(s)[1..] == CharCodes(s[1..]);
      CodesToCharsRoundTrip(s[1..]);
      assert [s[0]] + s[1..] == s;
    }
  }

  lemma {:induction false} CodesToCharsCanonical(t: seq<int>, s: string)
    requires CodesToChars(t) == Some(s)
    ensures CharCodes(s) == t
  {
    if |t| > 0 {
      var rest :| CodesToChars(t[1..]) == Some(rest) && s == [t[0] as char] + rest;
      CodesToCharsCanonical(t[1..], rest);
      assert s[1..] == rest;
      assert [t[0]] + t[1..] == t;
    }
  }

  lemma DecodeTextRoundTrip(s: string, rest: seq<int>)
    ensures DecodeText(EncodeText(s) + rest) == Some((s, rest))
  {
    var t := EncodeText(s) + rest;
    assert t[1..1 + |s|] == CharCodes(s);
    assert t[1 + |s|..] == rest;
    CodesToCharsRoundTrip(s);
  }

  lemma DecodeTextCanonical(t: seq<int>, s: string, rest: seq<int>)
    requires DecodeText(t) == Some((s, rest))
    ensures t == EncodeText(s) + rest
  {
    CodesToCharsCanonical(t[1..1 + t[0]], s);
    assert t == [t[0]] + t[1..1 + t[0]] + t[1 + t[0]..];
  }

  lemma DecodeOptTextRoundTrip(o: Option<string>, rest: seq<int>)
    ensures DecodeOptText(EncodeOptText(o) + rest) == Some((o, rest))
  {
    match o
    case None =>
      assert (EncodeOptText(o) + rest)[1..] == rest;
    case Some(s) =>
      assert (EncodeOptText(o) + rest)[1..] == EncodeText(s) + rest;
      DecodeTextRoundTrip(s, rest);
  }

  lemma DecodeOptTextCanonical(t: seq<int>, o: Option<string>, rest: seq<int>)
    requires DecodeOptText(t) == Some((o, rest))
    ensures t == EncodeOptText(o) + rest
  {
    if t[0] == 0 {
      assert t == [0] + t[1..];
    } else {
      DecodeTextCanonical(t[1..], o.value, rest);
      assert t == [1] + t[1..];
    }
  }

  /** Loading what was stored gives the record back. */
  lemma FromToString(r: InodeRecord)
    ensures FromString(ToString(r)) == Some(r)
  {
    var t := ToString(r);
    var tail := [r.parentInodeId as int, r.size, r.openCount, r.lookupCount, r.uid, r.gid,
                 r.atime, r.mtime, r.ctime, r.rdev] + (EncodeOptText(r.target) + [r.nlink]);
    var t1 := EncodeOptText(r.name) + tail;
    assert t[2..] == EncodeText(r.fsName) + t1;
    DecodeTextRoundTrip(r.fsName, t1);
    DecodeOptTextRoundTrip(r.name, tail);
    assert tail[10..] == EncodeOptText(r.target) + [r.nlink];
    DecodeOptTextRoundTrip(r.target, [r.nlink]);
  }

  lemma DecodeNumbersCanonical(id: nat, mode: nat, fs: string, name: Option<string>, t: seq<int>, r: InodeRecord)
    requires DecodeNumbers(id, mode, fs, name, t) == Some(r)
    ensures t == [r.parentInodeId as int, r.size, r.openCount, r.lookupCount, r.uid, r.gid,
                  r.atime, r.mtime, r.ctime, r.rdev] + (EncodeOptText(r.target) + [r.nlink])
  {
    var (target, rest) := DecodeOptText(t[10..]).value;
    DecodeOptTextCanonical(t[10..], target, rest);
    assert rest == [r.nlink];
    assert t == t[..10] + t[10..];
  }

  /** Only the serialised form of a record loads: serialisation is a bijection onto what loads. */
  lemma ToFromString(t: seq<int>, r: InodeRecord)
    requires FromString(t) == Some(r)
    ensures ToString(r) == t
  {
    var (fs, t1) := DecodeText(t[2..]).value;
    var (name, t2) := DecodeOptText(t1).value;
    DecodeTextCanonical(t[2..], fs, t1);
    DecodeOptTextCanonical(t1, name, t2);
    DecodeNumbersCanonical(t[0], t[1], fs, name, t2, r);
    assert t == [r.id as int] + ([r.mode as int] + t[2..]);
  }
}
