/** Nucleotide strings: complement, reverse complement and GC content. */
module Dna {

  /** The base-pairing partner of one IUPAC DNA code, case preserved; any other
      character is left as it is. */
  function Complement(b: char): char
  {
    match b
    case 'A' => 'T' case 'T' => 'A' case 'C' => 'G' case 'G' => 'C'
    case 'a' => 't' case 't' => 'a' case 'c' => 'g' case 'g' => 'c'
    case 'R' => 'Y' case 'Y' => 'R' case 'K' => 'M' case 'M' => 'K'
    case 'r' => 'y' case 'y' => 'r' case 'k' => 'm' case 'm' => 'k'
    case 'B' => 'V' case 'V' => 'B' case 'D' => 'H' case 'H' => 'D'
    case 'b' => 'v' case 'v' => 'b' case 'd' => 'h' case 'h' => 'd'
    case _ => b
  }

  lemma ComplementInvolution(b: char)
    ensures Complement(Complement(b)) == b
  {
  }

  /** The reverse complement: the other strand read in its own 5' to 3' direction. */
  function RevComp(s: string): (r: string)
    ensures |r| == |s|
  {
    seq(|s|, i requires 0 <= i < |s| => Complement(s[|s| - 1 - i]))
  }

  /** Reverse-complementing twice gives back the original strand. */
  lemma RevCompInvolution(s: string)
    ensures RevComp(RevComp(s)) == s
  {
    forall i | 0 <= i < |s| ensures RevComp(RevComp(s))[i] == s[i] {
      ComplementInvolution(s[i]);
    }
  }

  /** A window `[x, y)` of a reverse complement is the reverse complement of the mirrored
      window of the original. */
  lemma RevCompSlice(s: string, x: int, y: int)
    requires 0 <= x <= y <= |s|
    ensures RevComp(s)[x..y] == RevComp(s[|s| - y..|s| - x])
  {
    var t := s[|s| - y..|s| - x];
    forall k | 0 <= k < y - x ensures RevComp(s)[x..y][k] == RevComp(t)[k] {
      assert t[|t| - 1 - k] == s[|s| - 1 - (x + k)];
    }
  }

  /** Reverse complement turns a concatenation around. */
  lemma RevCompAppend(a: string, b: string)
    ensures RevComp(a + b) == RevComp(b) + RevComp(a)
  {
  }

  /** The bases Biopython's `GC` counts: G, C and S (strong, G or C), in either case. */
  predicate IsGcBase(b: char)
  {
    b == 'G' || b == 'C' || b == 'S' || b == 'g' || b == 'c' || b == 's'
  }

  function GcCount(s: string): (n: nat)
    ensures n <= |s|
  {
    if s == [] then 0 else (if IsGcBase(s[0]) then 1 else 0) + GcCount(s[1..])
  }

  /** `lo <= GC(s) <= hi`, where `GC(s)` is the percentage `100 * GcCount(s) / |s|` (0 for
      an empty string), compared by cross-multiplication instead of in floating point. */
  predicate GcWithin(s: string, lo: int, hi: int)
  {
    if |s| == 0 then lo <= 0 <= hi else lo * |s| <= 100 * GcCount(s) <= hi * |s|
  }

  /** A window of bounds `[0, 100]` admits every sequence. */
  lemma {:induction false} GcWithinFullRange(s: string)
    ensures GcWithin(s, 0, 100)
  {
    if |s| > 0 {
      assert 100 * GcCount(s) <= 100 * |s|;
    }
  }

  /** Reverse complement keeps the GC count, so both strands pass the gate alike. */
  lemma {:induction false} GcCountRevComp(s: string)
    ensures GcCount(RevComp(s)) == GcCount(s)
    decreases |s|
  {
    if s != [] {
      var t := s[1..];
      assert s == [s[0]] + t;
      RevCompAppend([s[0]], t);
      GcCountRevComp(t);
      GcCountAppend(RevComp(t), RevComp([s[0]]));
      assert RevComp([s[0]]) == [Complement(s[0])];
      assert IsGcBase(Complement(s[0])) == IsGcBase(s[0]);
    }
  }

  lemma {:induction false} GcCountAppend(a: string, b: string)
    ensures GcCount(a + b) == GcCount(a) + GcCount(b)
    decreases |a|
  {
    if a == [] {
      assert a + b == b;
    } else {
      assert (a + b)[0] == a[0];
      assert (a + b)[1..] == a[1..] + b;
      GcCountAppend(a[1..], b);
    }
  }
}
