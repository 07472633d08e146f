/** Turning a percentage window along a gene into absolute coordinates. */
module Window {
  import opened Types

  /** Python's `int(a / 100)`: the quotient truncated toward zero. */
  function TruncDiv100(a: int): (q: int)
    ensures a >= 0 ==> 0 <= q * 100 <= a < q * 100 + 100
    ensures a < 0 ==> q * 100 - 100 < a <= q * 100 <= 0
  {
    if a >= 0 then a / 100 else -((-a) / 100)
  }

  /** `[start_mark, end_mark]` for the part of `gene` from `startPct` to `endPct` percent of
      its length, measured from the N-terminal end: from `start` on a forward gene, and
      mirrored on a reverse gene. */
  function TargetRegion(gene: Gene, startPct: int, endPct: int): (int, int)
  {
    var len := gene.end - gene.start;
    if gene.direction == Fw then
      (gene.start + TruncDiv100(len * startPct), gene.start + TruncDiv100(len * endPct))
    else
      (gene.start + TruncDiv100(len * (100 - endPct)), gene.start + TruncDiv100(len * (100 - startPct)))
  }

  /** The whole gene, 0% to 100%, is `[start, end]` on either strand. */
  lemma {:induction false} WholeGeneWindow(gene: Gene)
    ensures TargetRegion(gene, 0, 100) == (gene.start, gene.end)
  {
    var len := gene.end - gene.start;
    assert TruncDiv100(len * 100) == len;
    assert TruncDiv100(len * 0) == 0;
  }

  /** A reverse gene measures the window from its other end: `(s, e)` on a reverse gene gives
      the marks of `(100 - e, 100 - s)` on the same span read forward. */
  lemma ReverseGeneMirrorsWindow(gene: Gene, startPct: int, endPct: int)
    requires gene.direction == Rv
    ensures TargetRegion(gene, startPct, endPct) == TargetRegion(gene.(direction := Fw), 100 - endPct, 100 - startPct)
  {
  }

  lemma {:induction false} ScaledMarkMonotone(len: nat, p: int, q: int)
    requires 0 <= p <= q
    ensures 0 <= TruncDiv100(len * p) <= TruncDiv100(len * q)
  {
    MulMonotone(len, p, q);
    TruncDiv100Monotone(len * p, len * q);
  }

  lemma MulMonotone(len: nat, p: int, q: int)
    requires 0 <= p <= q
    ensures 0 <= len * p <= len * q
  {
    assert len * q == len * p + len * (q - p);
  }

  lemma TruncDiv100Monotone(x: int, y: int)
    requires 0 <= x <= y
    ensures 0 <= TruncDiv100(x) <= TruncDiv100(y)
  {
  }

  lemma {:induction false} ScaledMarkAtMost(len: nat, p: int)
    requires 0 <= p <= 100
    ensures TruncDiv100(len * p) <= len
  {
    ScaledMarkMonotone(len, p, 100);
    assert TruncDiv100(len * 100) == len;
  }

  /** With `0 <= s <= e <= 100` on a gene with `start <= end`, the window lies inside the gene
      and is not inverted. */
  lemma {:induction false} WindowInsideGene(gene: Gene, startPct: int, endPct: int)
    requires gene.start <= gene.end
    requires 0 <= startPct <= endPct <= 100
    ensures var (sm, em) := TargetRegion(gene, startPct, endPct);
            gene.start <= sm <= em <= gene.end
  {
    var len := gene.end - gene.start;
    if gene.direction == Fw {
      ScaledMarkMonotone(len, startPct, endPct);
      ScaledMarkAtMost(len, endPct);
    } else {
      ScaledMarkMonotone(len, 100 - endPct, 100 - startPct);
      ScaledMarkAtMost(len, 100 - startPct);
    }
  }

  /** Percentages given the wrong way round are not rejected: on a gene of at least 100
      bases they give an inverted window `start_mark > end_mark`. */
  lemma {:induction false} InvertedPercentagesInvertWindow(gene: Gene, startPct: int, endPct: int)
    requires gene.start + 100 <= gene.end
    requires 0 <= endPct < startPct <= 100
    ensures var (sm, em) := TargetRegion(gene, startPct, endPct);
            sm > em
  {
    var len := gene.end - gene.start;
    var lo, hi := if gene.direction == Fw then endPct else 100 - startPct, if gene.direction == Fw then startPct else 100 - endPct;
    MulGap(len, lo, hi);
    var a, b := TruncDiv100(len * lo), TruncDiv100(len * hi);
    assert a < b;
  }

  lemma MulGap(len: nat, lo: int, hi: int)
    requires 0 <= lo < hi
    ensures 0 <= len * lo && len * lo + len <= len * hi
  {
    assert len * hi == len * lo + len * (hi - lo);
    assert len * (hi - lo) == len + len * (hi - lo - 1);
  }
}
