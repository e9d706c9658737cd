/**
 * The string operations the Redis and S3 key formats are built from: decimal
 * rendering and parsing of numbers (`str(n)`, `int(s)`), `str.split`, `str.join`,
 * `str.strip`, and Python 2's lexicographic string order.
 */
module Strings {
  import opened Common

  predicate IsDigit(c: char) { '0' <= c <= '9' }

  predicate AllDigits(s: string) { forall i :: 0 <= i < |s| ==> IsDigit(s[i]) }

  function DigitChar(d: nat): (c: char)
    requires d < 10
    ensures IsDigit(c) && (c as int) - ('0' as int) == d
  {
    (('0' as int) + d) as char
  }

  /** `str(n)` for a non-negative integer. */
  function NatToString(n: nat): (s: string)
    ensures |s| >= 1 && AllDigits(s)
  {
    if n < 10 then [DigitChar(n)] else NatToString(n / 10) + [DigitChar(n % 10)]
  }

  function DigitsValue(s: string): nat
    requires AllDigits(s)
  {
    if |s| == 0 then 0 else 10 * DigitsValue(s[..|s| - 1]) + ((s[|s| - 1] as int) - ('0' as int))
  }

  /**
   * `int(s)` on the strings the model produces: a non-empty run of decimal
   * digits; anything else raises ValueError, modelled as None.
   */
  function ParseNat(s: string): (r: Option<nat>)
    ensures r.Some? <==> |s| >= 1 && AllDigits(s)
  {
    if |s| >= 1 && AllDigits(s) then Some(DigitsValue(s)) else None
  }

  lemma {:induction false} ParseNatToString(n: nat)
    ensures ParseNat(NatToString(n)) == Some(n)
  {
    if n >= 10 {
      var s := NatToString(n);
      assert s[..|s| - 1] == NatToString(n / 10);
      assert s[|s| - 1] == DigitChar(n % 10);
      ParseNatToString(n / 10);
      assert DigitsValue(s) == 10 * (n / 10) + n % 10;
    }
  }

  /** A decimal rendering holds no character other than digits. */
  lemma DigitsHaveNo(n: nat, c: char)
    requires !IsDigit(c)
    ensures c !in NatToString(n)
  {
  }

  lemma NatToStringInjective(a: nat, b: nat)
    ensures NatToString(a) == NatToString(b) <==> a == b
  {
    ParseNatToString(a);
    ParseNatToString(b);
  }

  /** Python's `s.split(d)`: the pieces between occurrences of `d`; always at least one. */
  function Split(s: string, d: char): (parts: seq<string>)
    ensures |parts| >= 1
  {
    if |s| == 0 then [""]
    else
      var rest := Split(s[1..], d);
      if s[0] == d then [""] + rest else [[s[0]] + rest[0]] + rest[1..]
  }

  /** Python's `d.join(parts)`. */
  function Join(parts: seq<string>, d: char): string
  {
    if |parts| == 0 then "" else if |parts| == 1 then parts[0] else parts[0] + [d] + Join(parts[1..], d)
  }

  lemma {:induction false} SplitNoDelimiter(s: string, d: char)
    requires d !in s
    ensures Split(s, d) == [s]
  {
    if |s| > 0 {
      SplitNoDelimiter(s[1..], d);
      assert [s[0]] + s[1..] == s;
    }
  }

  lemma {:induction false} SplitAfterPrefix(a: string, d: char, b: string)
    requires d !in a
    ensures Split(a + [d] + b, d) == [a] + Split(b, d)
  {
    if |a| == 0 {
      assert (a + [d] + b)[1..] == b;
    } else {
      assert (a + [d] + b)[1..] == a[1..] + [d] + b;
      SplitAfterPrefix(a[1..], d, b);
      assert [a[0]] + a[1..] == a;
    }
  }

  /** Splitting a join gives the parts back when no part contains the separator. */
  lemma {:induction false} SplitJoin(parts: seq<string>, d: char)
    requires |parts| >= 1
    requires forall i :: 0 <= i < |parts| ==> d !in parts[i]
    ensures Split(Join(parts, d), d) == parts
  {
    if |parts| == 1 {
      SplitNoDelimiter(parts[0], d);
    } else {
      SplitJoin(parts[1..], d);
      SplitAfterPrefix(parts[0], d, Join(parts[1..], d));
      assert [parts[0]] + parts[1..] == parts;
    }
  }

  lemma {:induction false} JoinWithout(parts: seq<string>, d: char, c: char)
    requires c != d
    requires forall i :: 0 <= i < |parts| ==> c !in parts[i]
    ensures c !in Join(parts, d)
  {
    if |parts| > 1 {
      JoinWithout(parts[1..], d, c);
    }
  }

  /** The index of the first `d` in `s`, or `|s|` when there is none (`str.find` without the -1). */
  function Find(s: string, d: char): nat
  {
    if |s| == 0 then 0 else if s[0] == d then 0 else 1 + Find(s[1..], d)
  }

  lemma {:induction false} FindAfterPrefix(a: string, d: char, b: string)
    requires d !in a
    ensures Find(a + [d] + b, d) == |a|
  {
    if |a| > 0 {
      assert (a + [d] + b)[1..] == a[1..] + [d] + b;
      FindAfterPrefix(a[1..], d, b);
    }
  }

  /** A separator that occurs in neither left part fixes where the two strings split. */
  lemma Unsplit(a: string, b: string, c: string, e: string, d: char)
    requires d !in a && d !in c
    requires a + [d] + b == c + [d] + e
    ensures a == c && b == e
  {
    FindAfterPrefix(a, d, b);
    FindAfterPrefix(c, d, e);
    assert a == (a + [d] + b)[..|a|];
    assert c == (c + [d] + e)[..|c|];
    assert b == (a + [d] + b)[|a| + 1..];
    assert e == (c + [d] + e)[|c| + 1..];
  }

  /** Python's `s.strip(c)`: every leading and trailing `c` removed. */
  function Strip(s: string, c: char): string
  {
    RStrip(LStrip(s, c), c)
  }

  function LStrip(s: string, c: char): string
  {
    if |s| > 0 && s[0] == c then LStrip(s[1..], c) else s
  }

  function RStrip(s: string, c: char): string
  {
    if |s| > 0 && s[|s| - 1] == c then RStrip(s[..|s| - 1], c) else s
  }

  lemma StripQuoted(t: string, c: char)
    requires c !in t
    ensures Strip([c] + t + [c], c) == t
  {
    assert ([c] + t + [c])[1..] == t + [c];
    if |t| > 0 {
      assert LStrip(t + [c], c) == t + [c];
    } else {
      assert LStrip([c], c) == LStrip([], c);
    }
    assert (t + [c])[..|t|] == t;
    assert RStrip(t, c) == t;
  }

  /** Python 2 string comparison `a < b`: lexicographic, a proper prefix first. */
  predicate StrLt(a: string, b: string)
  {
    if |a| == 0 then |b| > 0
    else if |b| == 0 then false
    else a[0] < b[0] || (a[0] == b[0] && StrLt(a[1..], b[1..]))
  }

  lemma {:induction false} StrLtIrreflexive(a: string)
    ensures !StrLt(a, a)
  {
    if |a| > 0 { StrLtIrreflexive(a[1..]); }
  }

  lemma {:induction false} StrLtTransitive(a: string, b: string, e: string)
    requires StrLt(a, b) && StrLt(b, e)
    ensures StrLt(a, e)
  {
    if |a| > 0 && a[0] == b[0] && b[0] == e[0] {
      StrLtTransitive(a[1..], b[1..], e[1..]);
    }
  }

  lemma {:induction false} StrLtTotal(a: string, b: string)
    ensures a == b || StrLt(a, b) || StrLt(b, a)
  {
    if |a| > 0 && |b| > 0 && a[0] == b[0] {
      StrLtTotal(a[1..], b[1..]);
      if a[1..] == b[1..] {
        assert a == [a[0]] + a[1..] && b == [b[0]] + b[1..];
      }
    }
  }
}
