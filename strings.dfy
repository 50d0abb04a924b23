/** The Python string operations the modelled code relies on: substring search,
    `str.split(sep, 1)`, `str.partition`, `"".join`, `str.ljust` and `str()` of a
    non-negative integer. Strings are sequences of characters. */
module Strings {
  import opened Wrappers

  /** `pat` occurs in `s` starting at index `i`. */
  predicate OccursAt(s: string, pat: string, i: int)
  {
    0 <= i && i + |pat| <= |s| && s[i..i + |pat|] == pat
  }

  /** `i` is the index of the first occurrence of `pat` in `s`. */
  predicate FirstAt(s: string, pat: string, i: int)
  {
    OccursAt(s, pat, i) && forall j :: 0 <= j < i ==> !OccursAt(s, pat, j)
  }

  /** `pat` occurs nowhere in `s`. */
  predicate Absent(s: string, pat: string)
  {
    forall j :: 0 <= j <= |s| ==> !OccursAt(s, pat, j)
  }

  /** The first occurrence of `pat` in `s` at or after `from`. */
  function FindFrom(s: string, pat: string, from: nat): (r: Option<nat>)
    requires from <= |s|
    ensures r.Some? ==> from <= r.value && OccursAt(s, pat, r.value)
    ensures r.Some? ==> forall j :: from <= j < r.value ==> !OccursAt(s, pat, j)
    ensures r.None? ==> forall j :: from <= j <= |s| ==> !OccursAt(s, pat, j)
    decreases |s| - from
  {
    if OccursAt(s, pat, from) then Some(from)
    else if from == |s| then None
    else FindFrom(s, pat, from + 1)
  }

  /** `str.find`: the first occurrence of `pat` in `s`, if any. */
  function Find(s: string, pat: string): (r: Option<nat>)
    ensures r.Some? ==> FirstAt(s, pat, r.value)
    ensures r.None? ==> Absent(s, pat)
  {
    FindFrom(s, pat, 0)
  }

  lemma FirstAtUnique(s: string, pat: string, i: int, j: int)
    requires FirstAt(s, pat, i) && FirstAt(s, pat, j)
    ensures i == j
  {
  }

  /** Two strings that agree on their first `n` characters have the same
      occurrences of `pat` inside that stretch. */
  lemma OccursAtCommonPrefix(s: string, t: string, n: nat, pat: string, j: int)
    requires n <= |s| && n <= |t| && s[..n] == t[..n]
    requires 0 <= j && j + |pat| <= n
    ensures OccursAt(s, pat, j) <==> OccursAt(t, pat, j)
  {
    assert s[j..j + |pat|] == s[..n][j..j + |pat|];
    assert t[j..j + |pat|] == t[..n][j..j + |pat|];
  }

  /** A first occurrence is still the first in any string that agrees up to its end. */
  lemma FirstAtCommonPrefix(s: string, t: string, pat: string, i: nat)
    requires FirstAt(s, pat, i)
    requires i + |pat| <= |t| && s[..i + |pat|] == t[..i + |pat|]
    ensures FirstAt(t, pat, i)
  {
    OccursAtCommonPrefix(s, t, i + |pat|, pat, i);
    forall j | 0 <= j < i ensures !OccursAt(t, pat, j) {
      OccursAtCommonPrefix(s, t, i + |pat|, pat, j);
    }
  }

  /** `s.split(sep, 1)` for a non-empty separator (Python rejects an empty one):
      the whole string when `sep` does not occur, otherwise the text before and
      the text after its first occurrence. */
  function SplitOnce(s: string, sep: string): (parts: seq<string>)
    requires sep != []
    ensures 1 <= |parts| <= 2
    ensures |parts| == 1 <==> Absent(s, sep)
    ensures |parts| == 1 ==> parts[0] == s
    ensures |parts| == 2 ==> s == parts[0] + sep + parts[1] && FirstAt(s, sep, |parts[0]|)
  {
    match Find(s, sep)
    case None => [s]
    case Some(i) =>
      assert s == s[..i] + sep + s[i + |sep|..];
      [s[..i], s[i + |sep|..]]
  }

  /** Splitting at a known first occurrence. */
  lemma SplitOnceAt(s: string, sep: string, i: nat)
    requires sep != [] && FirstAt(s, sep, i)
    ensures SplitOnce(s, sep) == [s[..i], s[i + |sep|..]]
  {
    var parts := SplitOnce(s, sep);
    FirstAtUnique(s, sep, i, |parts[0]|);
    assert parts[0] == (parts[0] + sep + parts[1])[..i];
    assert parts[1] == (parts[0] + sep + parts[1])[i + |sep|..];
  }

  /** `s.partition(sep)[0]`: the text before the first `sep`, or all of `s`. */
  function Before(s: string, sep: string): (r: string)
    requires sep != []
    ensures r <= s
    ensures Absent(s, sep) ==> r == s
    ensures !Absent(s, sep) ==> FirstAt(s, sep, |r|)
    ensures Absent(r, sep)
  {
    match Find(s, sep)
    case None => s
    case Some(i) =>
      assert forall j :: 0 <= j <= i ==> !OccursAt(s[..i], sep, j) by {
        forall j | 0 <= j <= i
          ensures !OccursAt(s[..i], sep, j)
        {
          if OccursAt(s[..i], sep, j) {
            OccursAtCommonPrefix(s[..i], s, i, sep, j);
          }
        }
      }
      s[..i]
  }

  /** `"".join(parts)`, folding from the left as the accumulating loops do. */
  function Concat(parts: seq<string>): string
  {
    if parts == [] then [] else Concat(parts[..|parts| - 1]) + parts[|parts| - 1]
  }

  lemma {:induction false} ConcatAppend(a: seq<string>, b: seq<string>)
    ensures Concat(a + b) == Concat(a) + Concat(b)
    decreases |b|
  {
    if b == [] {
      assert a + b == a;
    } else {
      var b', last := b[..|b| - 1], b[|b| - 1];
      calc {
        Concat(a + b);
        == { assert (a + b)[..|a + b| - 1] == a + b' && (a + b)[|a + b| - 1] == last; }
        Concat(a + b') + last;
        == { ConcatAppend(a, b'); }
        Concat(a) + Concat(b') + last;
        == { assert Concat(a) + Concat(b') + last == Concat(a) + (Concat(b') + last); }
        Concat(a) + Concat(b);
      }
    }
  }

  lemma ConcatSingle(a: string)
    ensures Concat([a]) == a
  {
    assert [a][..0] == [];
  }

  lemma ConcatPairThen(a: string, b: string, rest: seq<string>)
    ensures Concat([a, b] + rest) == a + b + Concat(rest)
  {
    ConcatAppend([a, b], rest);
    assert [a, b][..1] == [a];
    ConcatSingle(a);
  }

  /** `c * n` in Python: `n` copies of one character. */
  function Repeat(c: char, n: nat): (r: string)
    ensures |r| == n && forall k :: 0 <= k < n ==> r[k] == c
  {
    seq(n, _ => c)
  }

  /** `s.ljust(width)`: `s` followed by as many spaces as bring it to `width`. */
  function PadRight(s: string, width: nat): (r: string)
    ensures |r| == if |s| < width then width else |s|
    ensures s <= r
    ensures forall k :: |s| <= k < |r| ==> r[k] == ' '
  {
    if |s| < width then s + Repeat(' ', width - |s|) else s
  }

  function DigitChar(d: nat): char
    requires d < 10
  {
    "0123456789"[d]
  }

  function DigitValue(c: char): nat
  {
    if '0' <= c <= '9' then (c - '0') as nat else 0
  }

  predicate IsDigit(c: char)
  {
    '0' <= c <= '9'
  }

  /** `str(n)` for a non-negative integer: its decimal digits, no leading zero. */
  function NatToString(n: nat): (r: string)
    ensures |r| >= 1
    ensures forall k :: 0 <= k < |r| ==> IsDigit(r[k])
    ensures |r| > 1 ==> r[0] != '0'
  {
    if n < 10 then [DigitChar(n)] else NatToString(n / 10) + [DigitChar(n % 10)]
  }

  /** The number a string of decimal digits denotes. */
  function DecimalValue(s: string): nat
  {
    if s == [] then 0 else DecimalValue(s[..|s| - 1]) * 10 + DigitValue(s[|s| - 1])
  }

  lemma {:induction false} NatToStringRoundTrip(n: nat)
    ensures DecimalValue(NatToString(n)) == n
  {
    var r := NatToString(n);
    if n < 10 {
      assert r[..|r| - 1] == [];
    } else {
      NatToStringRoundTrip(n / 10);
      assert r[..|r| - 1] == NatToString(n / 10);
    }
  }
}
