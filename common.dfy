/**
 * Values shared by every part of the model: optional values, results, the
 * failures an operation can end with, and byte strings.
 */
module Common {

  datatype Option<T> = None | Some(value: T)

  /** The errno values that the filesystem raises as `llfuse.FUSEError(errno)`. */
  datatype Errno = ENOENT | EEXIST | EINVAL | ENOSPC | ENOTEMPTY | ENOTDIR | EISDIR | ENAMETOOLONG

  /**
   * Why a Python exception other than a FUSE error left an operation: an
   * attribute read or arithmetic on `None` (AttributeError, TypeError), a
   * division by zero, a malformed stored string (ValueError), an error
   * returned by Redis or by the object store, a name the code uses but
   * never defines (NameError), or a configuration a factory does not
   * support (NotImplementedError).
   */
  datatype Cause = NoneValue | DivisionByZero | Malformed | BackendError | Undefined | Unsupported

  datatype Failure =
    | Fuse(errno: Errno)
    | Crash(cause: Cause)

  datatype Result<T> = Ok(value: T) | Err(failure: Failure)

  /** The result of an operation that returns nothing of interest. */
  datatype Outcome = Done | Fail(failure: Failure)

  /** The configured `DATA_BLOCK_SIZE`: the size of one object block, in bytes. */
  type BlockSize = b: nat | b > 0 witness 1

  /** A Python 2 `str` holds bytes. */
  type Byte = b: int | 0 <= b < 256
  type Bytes = seq<Byte>

  function Zeros(n: nat): (z: Bytes)
    ensures |z| == n && forall i :: 0 <= i < n ==> z[i] == 0
  {
    if n == 0 then [] else Zeros(n - 1) + [0]
  }

  function Min(a: int, b: int): int { if a <= b then a else b }
  function Max(a: int, b: int): int { if a >= b then a else b }

  /** Python's `s[lo:hi]` for non-negative bounds: both bounds are clamped to the length. */
  function Slice<T>(s: seq<T>, lo: nat, hi: nat): (r: seq<T>)
    ensures |r| == if Min(hi, |s|) <= lo then 0 else Min(hi, |s|) - lo
    ensures forall i :: 0 <= i < |r| ==> r[i] == s[lo + i]
  {
    if Min(hi, |s|) <= lo then [] else s[lo..Min(hi, |s|)]
  }

  /** Python's floor division `a // b` (Dafny's `/` is Euclidean). */
  function FloorDiv(a: int, b: int): (q: int)
    requires b != 0
    ensures b > 0 ==> q * b <= a < q * b + b
    ensures b < 0 ==> q * b >= a > q * b + b
  {
    if b > 0 then a / b else (-a) / (-b)
  }

  /** `math.ceil(a / b)` for integers, computed without floating point. */
  function CeilDiv(a: int, b: int): (q: int)
    requires b != 0
    ensures b > 0 ==> (q - 1) * b < a <= q * b
    ensures b < 0 ==> (q - 1) * b > a >= q * b
  {
    -FloorDiv(-a, b)
  }

  /**
   * Writing `buf` at `off` into `data` the way a Python byte string is patched:
   * a gap before `off` is filled with zeros, bytes past the written range stay.
   */
  function Splice(data: Bytes, off: nat, buf: Bytes): (r: Bytes)
    ensures |r| == Max(|data|, off + |buf|)
    ensures forall i :: 0 <= i < |r| ==>
      r[i] == (if off <= i < off + |buf| then buf[i - off] else if i < |data| then data[i] else 0)
  {
    if |data| < off then data + Zeros(off - |data|) + buf
    else data[..off] + buf + Slice(data, off + |buf|, |data|)
  }
  /** The elements of `s` that satisfy `p`, in their order in `s`. */
  function Filter<T(!new)>(s: seq<T>, p: T -> bool): (r: seq<T>)
    ensures |r| <= |s|
    ensures forall x :: x in r <==> x in s && p(x)
  {
    if |s| == 0 then [] else (if p(s[0]) then [s[0]] else []) + Filter(s[1..], p)
  }

  /** Filtering keeps every pairwise relation the sequence had. */
  lemma {:induction false} FilterPairwise<T(!new)>(s: seq<T>, p: T -> bool, rel: (T, T) -> bool)
    requires forall i, j :: 0 <= i < j < |s| ==> rel(s[i], s[j])
    ensures forall i, j :: 0 <= i < j < |Filter(s, p)| ==> rel(Filter(s, p)[i], Filter(s, p)[j])
  {
    if |s| > 0 {
      var rest := Filter(s[1..], p);
      FilterPairwise(s[1..], p, rel);
      assert forall i, j :: 0 <= i < j < |rest| ==> rel(rest[i], rest[j]);
      forall j | 0 <= j < |rest|
        ensures rel(s[0], rest[j])
      {
        assert rest[j] in s[1..];
        var k :| 0 <= k < |s| - 1 && s[1..][k] == rest[j];
        assert s[k + 1] == rest[j];
      }
      var r := Filter(s, p);
      if p(s[0]) {
        assert r == [s[0]] + rest;
        forall i, j | 0 <= i < j < |r|
          ensures rel(r[i], r[j])
        {
          assert r[j] == rest[j - 1];
          if i > 0 {
            assert r[i] == rest[i - 1];
          }
        }
      } else {
        assert r == rest;
      }
    }
  }

  /** Two tests that agree on the elements of `s` filter it the same way. */
  lemma {:induction false} FilterSame<T(!new)>(s: seq<T>, p: T -> bool, q: T -> bool)
    requires forall i :: 0 <= i < |s| ==> p(s[i]) == q(s[i])
    ensures Filter(s, p) == Filter(s, q)
  {
    if |s| > 0 {
      FilterSame(s[1..], p, q);
    }
  }

  lemma {:induction false} FilterTwice<T(!new)>(s: seq<T>, p: T -> bool)
    ensures Filter(Filter(s, p), p) == Filter(s, p)
  {
    if |s| > 0 {
      FilterTwice(s[1..], p);
      var r := Filter(s, p);
      if p(s[0]) {
        assert r == [s[0]] + Filter(s[1..], p);
        assert r[0] == s[0] && r[1..] == Filter(s[1..], p);
      } else {
        assert r == Filter(s[1..], p);
      }
    }
  }

  /** The position of the first `x` in `s`, or `|s|` when there is none. */
  function IndexOf<T(==)>(s: seq<T>, x: T): (k: nat)
    ensures k <= |s| && x !in s[..k]
    ensures k < |s| <==> x in s
    ensures k < |s| ==> s[k] == x
  {
    if |s| == 0 then 0 else if s[0] == x then 0 else
      assert s[..1 + IndexOf(s[1..], x)] == [s[0]] + s[1..][..IndexOf(s[1..], x)];
      1 + IndexOf(s[1..], x)
  }

  /** Redis `LREM key 1 x`: the first occurrence of `x` removed, the rest kept in order. */
  function RemoveFirst<T(==)>(s: seq<T>, x: T): (r: seq<T>)
    ensures x in s ==> r == s[..IndexOf(s, x)] + s[IndexOf(s, x) + 1..]
    ensures x !in s ==> r == s
  {
    if |s| == 0 then s
    else if s[0] == x then s[1..]
    else
      var t := s[1..];
      var k := IndexOf(t, x);
      assert IndexOf(s, x) == 1 + k;
      assert x in s <==> x in t;
      assert x in t ==>
        s[..1 + k] + s[k + 2..] == [s[0]] + (t[..k] + t[k + 1..]) by {
        if x in t {
          assert s[..1 + k] == [s[0]] + t[..k];
          assert s[k + 2..] == t[k + 1..];
        }
      }
      assert x !in t ==> s == [s[0]] + t;
      [s[0]] + RemoveFirst(t, x)
  }

  /** Removing what was just appended, when it was not there before, undoes the append. */
  lemma RemoveFirstAppended<T>(s: seq<T>, e: T)
    requires e !in s
    ensures RemoveFirst(s + [e], e) == s
  {
    assert (s + [e])[..|s|] == s;
  }

  /**
   * Redis `LRANGE key start end`: both ends inclusive, a negative index counts
   * from the tail, and the range is clamped to the list.
   */
  function LRange<T>(s: seq<T>, start: int, end: int): (r: seq<T>)
    ensures |r| <= |s|
  {
    var lo := if start < 0 then Max(|s| + start, 0) else start;
    var hi := if end < 0 then |s| + end else end;
    if lo > hi || lo >= |s| then [] else s[lo..Min(hi, |s| - 1) + 1]
  }

  lemma {:induction false} HasMin(s: set<nat>)
    requires s != {}
    ensures exists m :: IsMinOf(m, s)
    decreases |s|
  {
    var y :| y in s;
    if s == {y} {
      forall x | x in s ensures y <= x {
        assert x == y;
      }
      assert IsMinOf(y, s);
    } else {
      var r := s - {y};
      assert |r| < |s|;
      HasMin(r);
      var m :| IsMinOf(m, r);
      var k := if y < m then y else m;
      forall x | x in s ensures k <= x {
        if x != y { assert x in r; }
      }
      assert IsMinOf(k, s);
    }
  }

  /** `m` is an element of `s` no greater than any other. */
  predicate IsMinOf(m: nat, s: set<nat>)
  {
    m in s && forall x :: x in s ==> m <= x
  }

  function SetMin(s: set<nat>): (m: nat)
    requires s != {}
    ensures m in s && forall x :: x in s ==> m <= x
  {
    HasMin(s);
    var m :| IsMinOf(m, s);
    m
  }

  /** The members of a set of block ids in ascending order, as `block_list.sort()` leaves them. */
  function SortedElements(s: set<nat>): (r: seq<nat>)
    ensures forall x :: x in r <==> x in s
    ensures forall i, j :: 0 <= i < j < |r| ==> r[i] < r[j]
    ensures s != {} ==> r != []
    decreases |s|
  {
    if s == {} then []
    else
      var m := SetMin(s);
      [m] + SortedElements(s - {m})
  }
  /** Listing a set's members lists each once. */
  lemma {:induction false} SortedElementsLength(s: set<nat>)
    ensures |SortedElements(s)| == |s|
    decreases |s|
  {
    if s != {} {
      SortedElementsLength(s - {SetMin(s)});
    }
  }

  function Reverse<T>(s: seq<T>): (r: seq<T>)
    ensures |r| == |s| && forall i :: 0 <= i < |s| ==> r[i] == s[|s| - 1 - i]
  {
    if |s| == 0 then [] else Reverse(s[1..]) + [s[0]]
  }
}
