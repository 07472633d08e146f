/** Python string and list primitives the finder relies on: slicing with clipping,
    `find`, non-overlapping `count`, substring `in`, `str()` of an integer, and `upper`. */
module Text {

  /** Python's normalisation of one slice bound `i` for a sequence of length `n`:
      a negative bound counts from the end, and the result is clipped to `[0, n]`. */
  function SliceBound(i: int, n: nat): (k: nat)
    ensures k <= n
    ensures 0 <= i <= n ==> k == i
    ensures i > n ==> k == n
  {
    var j := if i < 0 then i + n else i;
    if j < 0 then 0 else if j > n then n else j
  }

  /** `s[i:j]` in Python: never fails, clips out-of-range bounds. */
  function Slice<T>(s: seq<T>, i: int, j: int): (r: seq<T>)
    ensures |r| <= |s|
    ensures 0 <= i <= j <= |s| ==> r == s[i..j]
  {
    var a := SliceBound(i, |s|);
    var b := SliceBound(j, |s|);
    if a <= b then s[a..b] else []
  }

  /** Python's `min` and `max` of two integers. */
  function Min(a: int, b: int): int { if a <= b then a else b }
  function Max(a: int, b: int): int { if a <= b then b else a }

  /** A window of a window is a window of the whole. */
  lemma SliceOfSlice<T>(s: seq<T>, a: int, b: int, x: int, y: int)
    requires 0 <= a <= b <= |s| && 0 <= x <= y <= b - a
    ensures s[a..b][x..y] == s[a + x..a + y]
  {
    forall k | 0 <= k < y - x ensures s[a..b][x..y][k] == s[a + x..a + y][k] {
      assert s[a..b][x..y][k] == s[a + x + k];
    }
  }

  /** `s[:k]` for a non-negative `k`. */
  function Take<T>(s: seq<T>, k: nat): (r: seq<T>)
    ensures |r| <= k && |r| <= |s|
    ensures |r| == k || r == s
    ensures r <= s
  {
    if k <= |s| then s[..k] else s
  }

  /** `pat` occurs in `s` starting at index `p`. */
  predicate OccursAt<T(==)>(s: seq<T>, pat: seq<T>, p: int)
  {
    0 <= p && p + |pat| <= |s| && s[p..p + |pat|] == pat
  }

  lemma OccursAtShift<T>(s: seq<T>, pat: seq<T>, i: nat, p: int)
    requires i <= |s| && 0 <= p
    ensures OccursAt(s[i..], pat, p) <==> OccursAt(s, pat, i + p)
  {
    if 0 <= p && p + |pat| <= |s| - i {
      assert s[i..][p..p + |pat|] == s[i + p..i + p + |pat|];
    }
  }

  /** `s.find(pat)`: the least index at which `pat` occurs, or -1 when it occurs nowhere. */
  function Find<T(==)>(s: seq<T>, pat: seq<T>): (r: int)
    ensures -1 <= r <= |s|
    ensures r == -1 <==> forall p :: 0 <= p <= |s| ==> !OccursAt(s, pat, p)
    ensures r >= 0 ==> OccursAt(s, pat, r) && forall p :: 0 <= p < r ==> !OccursAt(s, pat, p)
    decreases |s|
  {
    if |pat| <= |s| && s[..|pat|] == pat then
      assert OccursAt(s, pat, 0);
      0
    else if |s| == 0 then
      -1
    else
      var r := Find(s[1..], pat);
      forall p | 1 <= p <= |s| ensures OccursAt(s, pat, p) <==> OccursAt(s[1..], pat, p - 1) {
        OccursAtShift(s, pat, 1, p - 1);
      }
      assert !OccursAt(s, pat, 0);
      assert r >= 0 ==> OccursAt(s, pat, r + 1);
      if r == -1 then -1 else r + 1
  }

  /** `h.count(n)`: occurrences of `n` in `h` found by a left-to-right scan that skips past
      each match (so overlapping matches count once); an empty `n` counts `|h| + 1`. */
  function CountNonOverlapping<T(==)>(h: seq<T>, n: seq<T>): nat
    decreases |h|
  {
    if |n| == 0 then |h| + 1
    else if |h| < |n| then 0
    else if h[..|n|] == n then 1 + CountNonOverlapping(h[|n|..], n)
    else CountNonOverlapping(h[1..], n)
  }

  /** A non-empty needle is counted at least once exactly when it occurs somewhere. */
  lemma {:induction false} CountPositiveIffOccurs<T>(h: seq<T>, n: seq<T>)
    requires |n| > 0
    ensures CountNonOverlapping(h, n) > 0 <==> exists p :: OccursAt(h, n, p)
    decreases |h|
  {
    if |h| < |n| {
      forall p ensures !OccursAt(h, n, p) { }
    } else if h[..|n|] == n {
      assert OccursAt(h, n, 0);
    } else {
      CountPositiveIffOccurs(h[1..], n);
      if exists p :: OccursAt(h, n, p) {
        var p :| OccursAt(h, n, p);
        assert p != 0;
        OccursAtShift(h, n, 1, p - 1);
      }
      if exists p :: OccursAt(h[1..], n, p) {
        var p :| OccursAt(h[1..], n, p);
        OccursAtShift(h, n, 1, p);
      }
    }
  }

  /** Two occurrences that do not overlap are both counted: a count of one rules them out. */
  lemma {:induction false} DisjointOccurrencesCountTwice<T>(h: seq<T>, n: seq<T>, p: int, q: int)
    requires |n| > 0
    requires OccursAt(h, n, p) && OccursAt(h, n, q) && p + |n| <= q
    ensures CountNonOverlapping(h, n) >= 2
    decreases |h|
  {
    if h[..|n|] == n {
      OccursAtShift(h, n, |n|, q - |n|);
      CountPositiveIffOccurs(h[|n|..], n);
    } else {
      assert p != 0;
      OccursAtShift(h, n, 1, p - 1);
      OccursAtShift(h, n, 1, q - 1);
      DisjointOccurrencesCountTwice(h[1..], n, p - 1, q - 1);
    }
  }

  /** Python's substring test `t in s`. */
  ghost predicate Contains<T>(s: seq<T>, t: seq<T>)
  {
    exists p :: OccursAt(s, t, p)
  }

  function DigitChar(d: nat): (ch: char)
    requires d < 10
    ensures '0' <= ch <= '9'
  {
    "0123456789"[d]
  }

  predicate IsDigit(ch: char)
  {
    '0' <= ch <= '9'
  }

  /** `str(n)` for a non-negative integer: its decimal digits, most significant first. */
  function NatToString(n: nat): (s: string)
    ensures |s| >= 1
    ensures forall i :: 0 <= i < |s| ==> IsDigit(s[i])
    ensures n < 10 ==> |s| == 1
    decreases n
  {
    if n < 10 then [DigitChar(n)] else NatToString(n / 10) + [DigitChar(n % 10)]
  }

  /** `str(i)` for any integer. */
  function IntToString(i: int): (s: string)
    ensures |s| >= 1
    ensures (s[0] == '-') <==> i < 0
  {
    if i < 0 then "-" + NatToString(-i) else NatToString(i)
  }

  /** The decimal value of a string of digits. */
  function DigitsValue(s: string): nat
    requires forall i :: 0 <= i < |s| ==> IsDigit(s[i])
  {
    if s == [] then 0
    else
      assert IsDigit(s[|s| - 1]);
      DigitsValue(s[..|s| - 1]) * 10 + (s[|s| - 1] as int - '0' as int)
  }

  /** Reading back the digits of `str(n)` gives `n`. */
  lemma {:induction false} NatToStringRoundTrip(n: nat)
    ensures DigitsValue(NatToString(n)) == n
    decreases n
  {
    if n >= 10 {
      NatToStringRoundTrip(n / 10);
      var s := NatToString(n);
      assert s[..|s| - 1] == NatToString(n / 10);
    }
  }

  function UpperChar(ch: char): char
  {
    if 'a' <= ch <= 'z' then (ch as int - 32) as char else ch
  }

  /** `s.upper()` on ASCII letters. */
  function Upper(s: string): (r: string)
    ensures |r| == |s|
  {
    seq(|s|, i requires 0 <= i < |s| => UpperChar(s[i]))
  }
}
