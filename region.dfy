/** Region assembly: scan both strands around a target window, place every candidate in
    genome coordinates, attach the fingerprint at its predicted insertion site, and keep only
    the spacers that occur exactly once in the genome read both ways. */
module Region {
  import opened Types
  import opened Text
  import opened Dna
  import opened Scanner

  /** How far the search windows reach beyond the target window: PAM and spacer, plus the
      integration distance when the offset is in use. */
  function SearchOffset(cfg: Config): int
  {
    if cfg.useOffset then |cfg.pam| + cfg.spacerLength + cfg.integrationSiteDistance
    else |cfg.pam| + cfg.spacerLength
  }

  /** The forward search window: its start is clipped at 0, its end as Python clips it. */
  function FwSearchSeq(cfg: Config, genome: string, startMark: int, endMark: int): string
  {
    var so := SearchOffset(cfg);
    Slice(genome, Max(0, startMark - so), endMark - so + |cfg.pam| + cfg.spacerLength)
  }

  /** The reverse search window, read on the other strand. */
  function RvSearchSeq(cfg: Config, genome: string, startMark: int, endMark: int): string
  {
    RevComp(Slice(genome, startMark + cfg.integrationSiteDistance, endMark + SearchOffset(cfg)))
  }

  /** Genome location of a forward spacer found at `local` in the forward window. */
  function FwLocation(cfg: Config, startMark: int, local: int): int
  {
    startMark - SearchOffset(cfg) + local + 1
  }

  /** Genome location of a reverse spacer found at `local` in the reverse window. */
  function RvLocation(cfg: Config, endMark: int, local: int): int
  {
    endMark + SearchOffset(cfg) - local + 1
  }

  /** The 20 bases at the predicted insertion site, in insertion-site orientation: downstream
      of a forward spacer, upstream of a reverse one and reverse-complemented. */
  function Fingerprint(cfg: Config, genome: string, strand: Strand, loc: int): string
  {
    var d := cfg.spacerLength + cfg.integrationSiteDistance;
    if strand == Fw then Slice(genome, loc + d - 20, loc + d)
    else RevComp(Slice(genome, loc - d, loc - d + 20))
  }

  function ShiftFw(cfg: Config, startMark: int, cs: seq<Candidate>): seq<Candidate>
  {
    seq(|cs|, j requires 0 <= j < |cs| => cs[j].(location := FwLocation(cfg, startMark, cs[j].location)))
  }

  function ShiftRv(cfg: Config, endMark: int, cs: seq<Candidate>): seq<Candidate>
  {
    seq(|cs|, j requires 0 <= j < |cs| => cs[j].(location := RvLocation(cfg, endMark, cs[j].location)))
  }

  function WithFingerprints(cfg: Config, genome: string, cs: seq<Candidate>): seq<Candidate>
  {
    seq(|cs|, j requires 0 <= j < |cs| => cs[j].(fingerprint := Fingerprint(cfg, genome, cs[j].strand, cs[j].location)))
  }

  /** Both strands of the genome, upper-cased, one after the other. */
  function BothWays(genome: string): string
  {
    Upper(genome) + Upper(RevComp(genome))
  }

  /** The spacer occurs exactly once in `both`, counted as Python's `count` does. */
  predicate Unique(both: string, c: Candidate)
  {
    CountNonOverlapping(both, c.spacer) == 1
  }

  /** The candidates whose spacer is unique, in their original order. */
  function UniqueOnly(both: string, cs: seq<Candidate>): (r: seq<Candidate>)
  {
    if cs == [] then []
    else (if Unique(both, cs[0]) then [cs[0]] else []) + UniqueOnly(both, cs[1..])
  }

  /** The forward candidates of a region, in genome coordinates, before fingerprints. */
  function FwCandidates(cfg: Config, genome: string, startMark: int, endMark: int, name: string, gc: (int, int))
    : seq<Candidate>
  {
    ShiftFw(cfg, startMark, ScanFrom(cfg, FwSearchSeq(cfg, genome, startMark, endMark), name + "--fw", Fw, gc, 0))
  }

  /** The reverse candidates of a region, in genome coordinates, before fingerprints. */
  function RvCandidates(cfg: Config, genome: string, startMark: int, endMark: int, name: string, gc: (int, int))
    : seq<Candidate>
  {
    ShiftRv(cfg, endMark, ScanFrom(cfg, RvSearchSeq(cfg, genome, startMark, endMark), name + "--rv", Rv, gc, 0))
  }

  /** What `get_candidates_for_region` returns. */
  function RegionCandidates(cfg: Config, genome: string, startMark: int, endMark: int, name: string, gc: (int, int))
    : seq<Candidate>
  {
    UniqueOnly(BothWays(genome),
               WithFingerprints(cfg, genome, FwCandidates(cfg, genome, startMark, endMark, name, gc)
                                             + RvCandidates(cfg, genome, startMark, endMark, name, gc)))
  }

  /** `get_candidates_for_region`: scan the forward window, move its candidates to genome
      coordinates, scan the reverse window and move those, attach every fingerprint, and keep
      the spacers unique in the genome read both ways. */
  method GetCandidatesForRegion(cfg: Config, genome: string, startMark: int, endMark: int, name: string, gc: (int, int))
    returns (unique: seq<Candidate>)
    ensures unique == RegionCandidates(cfg, genome, startMark, endMark, name, gc)
  {
    var fwSearch := FwSearchSeq(cfg, genome, startMark, endMark);
    var rvSearch := RvSearchSeq(cfg, genome, startMark, endMark);
    var candidates := CandidatesForSeq(cfg, fwSearch, name + "--fw", Fw, gc);
    ghost var fw0 := candidates;
    for k := 0 to |candidates|
      invariant |candidates| == |fw0|
      invariant forall j :: 0 <= j < k ==> candidates[j] == fw0[j].(location := FwLocation(cfg, startMark, fw0[j].location))
      invariant forall j :: k <= j < |fw0| ==> candidates[j] == fw0[j]
    {
      var c := candidates[k];
      candidates := candidates[k := c.(location := startMark - SearchOffset(cfg) + c.location + 1)];
    }
    var rvCandidates := CandidatesForSeq(cfg, rvSearch, name + "--rv", Rv, gc);
    ghost var rv0 := rvCandidates;
    for k := 0 to |rvCandidates|
      invariant |rvCandidates| == |rv0|
      invariant forall j :: 0 <= j < k ==> rvCandidates[j] == rv0[j].(location := RvLocation(cfg, endMark, rv0[j].location))
      invariant forall j :: k <= j < |rv0| ==> rvCandidates[j] == rv0[j]
    {
      var c := rvCandidates[k];
      rvCandidates := rvCandidates[k := c.(location := endMark + SearchOffset(cfg) - c.location + 1)];
    }
    assert candidates == ShiftFw(cfg, startMark, fw0);
    assert rvCandidates == ShiftRv(cfg, endMark, rv0);
    ghost var placed := candidates + rvCandidates;
    candidates := candidates + rvCandidates;
    for k := 0 to |candidates|
      invariant |candidates| == |placed|
      invariant forall j :: 0 <= j < k ==>
                  candidates[j] == placed[j].(fingerprint := Fingerprint(cfg, genome, placed[j].strand, placed[j].location))
      invariant forall j :: k <= j < |placed| ==> candidates[j] == placed[j]
    {
      var c := candidates[k];
      candidates := candidates[k := c.(fingerprint := Fingerprint(cfg, genome, c.strand, c.location))];
    }
    assert candidates == WithFingerprints(cfg, genome, placed);
    unique := UniqueOnly(BothWays(genome), candidates);
  }

  // ---------------------------------------------------------------------------------------
  // The uniqueness filter

  /** The filter splits over a concatenation: the survivors of `a` come before those of `b`. */
  lemma {:induction false} UniqueOnlyAppend(both: string, a: seq<Candidate>, b: seq<Candidate>)
    ensures UniqueOnly(both, a + b) == UniqueOnly(both, a) + UniqueOnly(both, b)
    decreases |a|
  {
    if a == [] {
      assert a + b == b;
    } else {
      assert (a + b)[0] == a[0];
      assert (a + b)[1..] == a[1..] + b;
      UniqueOnlyAppend(both, a[1..], b);
    }
  }

  /** The filter keeps exactly the candidates whose spacer is unique, and never grows. */
  lemma {:induction false} UniqueOnlyMembers(both: string, a: seq<Candidate>)
    ensures forall c :: c in UniqueOnly(both, a) <==> c in a && Unique(both, c)
    ensures |UniqueOnly(both, a)| <= |a|
    decreases |a|
  {
    if a != [] {
      UniqueOnlyMembers(both, a[1..]);
      assert forall c :: c in a <==> c == a[0] || c in a[1..];
    }
  }

  /** A spacer kept by the filter occurs in the genome read both ways and has no second copy
      there that does not overlap the first. */
  lemma UniqueSpacerHasOneCopy(both: string, c: Candidate)
    requires Unique(both, c) && |c.spacer| > 0
    ensures exists p :: OccursAt(both, c.spacer, p)
    ensures forall p, q :: OccursAt(both, c.spacer, p) && OccursAt(both, c.spacer, q) && p < q ==> q < p + |c.spacer|
  {
    CountPositiveIffOccurs(both, c.spacer);
    forall p, q | OccursAt(both, c.spacer, p) && OccursAt(both, c.spacer, q) && p < q
      ensures q < p + |c.spacer|
    {
      if p + |c.spacer| <= q {
        DisjointOccurrencesCountTwice(both, c.spacer, p, q);
      }
    }
  }

  lemma WithFingerprintsAppend(cfg: Config, genome: string, a: seq<Candidate>, b: seq<Candidate>)
    ensures WithFingerprints(cfg, genome, a + b) == WithFingerprints(cfg, genome, a) + WithFingerprints(cfg, genome, b)
  {
    var l, r := WithFingerprints(cfg, genome, a + b), WithFingerprints(cfg, genome, a) + WithFingerprints(cfg, genome, b);
    forall k | 0 <= k < |l| ensures l[k] == r[k] {
      if k < |a| { assert (a + b)[k] == a[k]; } else { assert (a + b)[k] == b[k - |a|]; }
    }
  }

  /** The forward candidates of a region with their fingerprints, before the filter. */
  function FwPool(cfg: Config, genome: string, startMark: int, endMark: int, name: string, gc: (int, int)): seq<Candidate>
  {
    WithFingerprints(cfg, genome, FwCandidates(cfg, genome, startMark, endMark, name, gc))
  }

  /** The reverse candidates of a region with their fingerprints, before the filter. */
  function RvPool(cfg: Config, genome: string, startMark: int, endMark: int, name: string, gc: (int, int)): seq<Candidate>
  {
    WithFingerprints(cfg, genome, RvCandidates(cfg, genome, startMark, endMark, name, gc))
  }

  /** The region's candidates are the unique ones among the forward candidates followed by
      the unique ones among the reverse candidates: an order-preserving filter. */
  lemma RegionFilterOrder(cfg: Config, genome: string, startMark: int, endMark: int, name: string, gc: (int, int))
    ensures RegionCandidates(cfg, genome, startMark, endMark, name, gc)
            == UniqueOnly(BothWays(genome), FwPool(cfg, genome, startMark, endMark, name, gc))
               + UniqueOnly(BothWays(genome), RvPool(cfg, genome, startMark, endMark, name, gc))
  {
    WithFingerprintsAppend(cfg, genome, FwCandidates(cfg, genome, startMark, endMark, name, gc),
                           RvCandidates(cfg, genome, startMark, endMark, name, gc));
    UniqueOnlyAppend(BothWays(genome), FwPool(cfg, genome, startMark, endMark, name, gc),
                     RvPool(cfg, genome, startMark, endMark, name, gc));
  }

  /** A candidate is kept exactly when it is one of the region's forward or reverse candidates
      and its spacer occurs exactly once in the genome read both ways. */
  lemma RegionFilterMembers(cfg: Config, genome: string, startMark: int, endMark: int, name: string, gc: (int, int), c: Candidate)
    ensures c in RegionCandidates(cfg, genome, startMark, endMark, name, gc) <==>
            (c in FwPool(cfg, genome, startMark, endMark, name, gc) || c in RvPool(cfg, genome, startMark, endMark, name, gc))
            && CountNonOverlapping(BothWays(genome), c.spacer) == 1
  {
    var fw, rv := FwPool(cfg, genome, startMark, endMark, name, gc), RvPool(cfg, genome, startMark, endMark, name, gc);
    WithFingerprintsAppend(cfg, genome, FwCandidates(cfg, genome, startMark, endMark, name, gc),
                           RvCandidates(cfg, genome, startMark, endMark, name, gc));
    UniqueOnlyMembers(BothWays(genome), fw + rv);
    assert c in fw + rv <==> c in fw || c in rv;
  }

  // ---------------------------------------------------------------------------------------
  // Coordinates and fingerprints

  /** The forward window is taken whole: neither end is clipped. */
  predicate FwWindowInBounds(cfg: Config, genome: string, startMark: int, endMark: int)
  {
    var so := SearchOffset(cfg);
    0 <= startMark - so <= endMark - so + |cfg.pam| + cfg.spacerLength <= |genome|
  }

  /** The reverse window is taken whole: neither end is clipped. */
  predicate RvWindowInBounds(cfg: Config, genome: string, startMark: int, endMark: int)
  {
    0 <= startMark + cfg.integrationSiteDistance <= endMark + SearchOffset(cfg) <= |genome|
  }

  /** An unclipped forward window is exactly the slice its bounds name. */
  lemma FwWindowExact(cfg: Config, genome: string, startMark: int, endMark: int)
    requires FwWindowInBounds(cfg, genome, startMark, endMark)
    ensures var so := SearchOffset(cfg);
            FwSearchSeq(cfg, genome, startMark, endMark)
            == genome[startMark - so..endMark - so + |cfg.pam| + cfg.spacerLength]
  {
  }

  /** An unclipped reverse window is exactly the reverse complement of the slice its bounds name. */
  lemma RvWindowExact(cfg: Config, genome: string, startMark: int, endMark: int)
    requires RvWindowInBounds(cfg, genome, startMark, endMark)
    ensures RvSearchSeq(cfg, genome, startMark, endMark)
            == RevComp(genome[startMark + cfg.integrationSiteDistance..endMark + SearchOffset(cfg)])
  {
    var a, b := startMark + cfg.integrationSiteDistance, endMark + SearchOffset(cfg);
    assert Slice(genome, a, b) == genome[a..b];
  }

  /** Every region candidate carries the fingerprint at its own predicted insertion site. */
  lemma RegionFingerprints(cfg: Config, genome: string, startMark: int, endMark: int, name: string, gc: (int, int), c: Candidate)
    requires c in RegionCandidates(cfg, genome, startMark, endMark, name, gc)
    ensures c.fingerprint == Fingerprint(cfg, genome, c.strand, c.location)
  {
    RegionFilterMembers(cfg, genome, startMark, endMark, name, gc, c);
  }

  /** Inside the genome, a fingerprint is the 20 bases ending at the insertion site
      `loc + spacerLength + integrationSiteDistance` of a forward spacer, and the reverse
      complement of the 20 bases starting at `loc - spacerLength - integrationSiteDistance`
      for a reverse one: both read towards the insertion site. */
  lemma FingerprintInBounds(cfg: Config, genome: string, strand: Strand, loc: int)
    ensures var d := cfg.spacerLength + cfg.integrationSiteDistance;
            strand == Fw && 0 <= loc + d - 20 && loc + d <= |genome| ==>
              |Fingerprint(cfg, genome, strand, loc)| == 20 &&
              Fingerprint(cfg, genome, strand, loc) == genome[loc + d - 20..loc + d]
    ensures var d := cfg.spacerLength + cfg.integrationSiteDistance;
            strand == Rv && 0 <= loc - d && loc - d + 20 <= |genome| ==>
              |Fingerprint(cfg, genome, strand, loc)| == 20 &&
              RevComp(Fingerprint(cfg, genome, strand, loc)) == genome[loc - d..loc - d + 20]
  {
    var d := cfg.spacerLength + cfg.integrationSiteDistance;
    if strand == Rv && 0 <= loc - d && loc - d + 20 <= |genome| {
      RevCompInvolution(genome[loc - d..loc - d + 20]);
    }
  }

  /** In `s`, the PAM ends at `e` and `spacer` starts there. */
  predicate PamSpacerAt(cfg: Config, s: string, e: int, spacer: string)
  {
    |cfg.pam| <= e && e + cfg.spacerLength <= |s|
    && s[e - |cfg.pam|..e] == cfg.pam && s[e..e + cfg.spacerLength] == spacer
  }

  /** In `s` read on the other strand, `spacer` ends at `e` and the PAM starts there. */
  predicate RvPamSpacerAt(cfg: Config, s: string, e: int, spacer: string)
  {
    cfg.spacerLength <= e && e + |cfg.pam| <= |s|
    && RevComp(s[e..e + |cfg.pam|]) == cfg.pam && RevComp(s[e - cfg.spacerLength..e]) == spacer
  }

  /** A spacer at `l` in the window `genome[a..b]` starts at `e = a + l` in the genome, right
      after its PAM. */
  lemma FwPlaced(cfg: Config, genome: string, a: int, b: int, w: string, l: int, e: int, spacer: string)
    requires 0 <= a <= b <= |genome| && w == genome[a..b]
    requires PamSpacerAt(cfg, w, l, spacer) && e == a + l
    ensures PamSpacerAt(cfg, genome, e, spacer)
  {
    SliceOfSlice(genome, a, b, l - |cfg.pam|, l);
    SliceOfSlice(genome, a, b, l, l + cfg.spacerLength);
  }

  /** A spacer at `l` in the reverse complement of `genome[a..b]` is the reverse complement of
      the bases ending at `e = b - l`, and its PAM of the bases starting there. */
  lemma RvPlaced(cfg: Config, genome: string, a: int, b: int, w: string, l: int, e: int, spacer: string)
    requires 0 <= a <= b <= |genome| && w == RevComp(genome[a..b])
    requires PamSpacerAt(cfg, w, l, spacer) && e == b - l
    ensures RvPamSpacerAt(cfg, genome, e, spacer)
  {
    RvPlacedWindow(genome, a, b, l - |cfg.pam|, l, e, e + |cfg.pam|);
    RvPlacedWindow(genome, a, b, l, l + cfg.spacerLength, e - cfg.spacerLength, e);
  }

  /** Bases `[x, y)` of the reverse complement of `genome[a..b]` are the reverse complement of
      the mirrored bases `[f, g) = [b - y, b - x)`. */
  lemma RvPlacedWindow(genome: string, a: int, b: int, x: int, y: int, f: int, g: int)
    requires 0 <= a <= b <= |genome| && 0 <= x <= y <= b - a && f == b - y && g == b - x
    ensures RevComp(genome[a..b])[x..y] == RevComp(genome[f..g])
  {
    var w := genome[a..b];
    var n := |w|;
    RevCompSlice(w, x, y);
    SliceOfSlice(genome, a, b, n - y, n - x);
    assert w[n - y..n - x] == genome[f..g];
  }

  /** A forward candidate of an unclipped forward window sits in the genome at
      `location - 1`: the PAM ends there and the spacer starts there. */
  lemma FwCandidateInGenome(cfg: Config, genome: string, startMark: int, endMark: int, name: string, gc: (int, int), c: Candidate)
    requires FwWindowInBounds(cfg, genome, startMark, endMark)
    requires c in FwCandidates(cfg, genome, startMark, endMark, name, gc)
    ensures c.strand == Fw && |c.spacer| == cfg.spacerLength && GcWithin(c.spacer, gc.0, gc.1)
    ensures PamSpacerAt(cfg, genome, c.location - 1, c.spacer)
  {
    var so := SearchOffset(cfg);
    var a, b := startMark - so, endMark - so + |cfg.pam| + cfg.spacerLength;
    var w := FwSearchSeq(cfg, genome, startMark, endMark);
    assert w == genome[a..b] by { FwWindowExact(cfg, genome, startMark, endMark); }
    var l := FwOrigin(cfg, w, startMark, name + "--fw", gc, c);
    FwPlaced(cfg, genome, a, b, w, l, c.location - 1, c.spacer);
  }

  /** Where a forward candidate was found in its window `w`, and what the scan saw there. */
  lemma FwOrigin(cfg: Config, w: string, mark: int, descriptor: string, gc: (int, int), c: Candidate)
    returns (l: int)
    requires c in ShiftFw(cfg, mark, ScanFrom(cfg, w, descriptor, Fw, gc, 0))
    ensures PamSpacerAt(cfg, w, l, c.spacer) && c.location == FwLocation(cfg, mark, l)
    ensures c.strand == Fw && |c.spacer| == cfg.spacerLength && GcWithin(c.spacer, gc.0, gc.1)
  {
    var scanned := ScanFrom(cfg, w, descriptor, Fw, gc, 0);
    var j :| 0 <= j < |scanned| && c == ShiftFw(cfg, mark, scanned)[j];
    ScanShape(cfg, w, descriptor, Fw, gc, scanned[j]);
    l := scanned[j].location;
  }

  /** A reverse candidate of an unclipped reverse window sits in the genome with its spacer
      ending at `location - 1`, read on the other strand, and its PAM starting there. */
  lemma RvCandidateInGenome(cfg: Config, genome: string, startMark: int, endMark: int, name: string, gc: (int, int), c: Candidate)
    requires RvWindowInBounds(cfg, genome, startMark, endMark)
    requires c in RvCandidates(cfg, genome, startMark, endMark, name, gc)
    ensures c.strand == Rv && |c.spacer| == cfg.spacerLength && GcWithin(c.spacer, gc.0, gc.1)
    ensures RvPamSpacerAt(cfg, genome, c.location - 1, c.spacer)
  {
    var a, b := startMark + cfg.integrationSiteDistance, endMark + SearchOffset(cfg);
    var w := RvSearchSeq(cfg, genome, startMark, endMark);
    assert w == RevComp(genome[a..b]) by { RvWindowExact(cfg, genome, startMark, endMark); }
    var l := RvOrigin(cfg, w, endMark, name + "--rv", gc, c);
    RvPlaced(cfg, genome, a, b, w, l, c.location - 1, c.spacer);
  }

  /** Where a reverse candidate was found in its window `w`, and what the scan saw there. */
  lemma RvOrigin(cfg: Config, w: string, mark: int, descriptor: string, gc: (int, int), c: Candidate)
    returns (l: int)
    requires c in ShiftRv(cfg, mark, ScanFrom(cfg, w, descriptor, Rv, gc, 0))
    ensures PamSpacerAt(cfg, w, l, c.spacer) && c.location == RvLocation(cfg, mark, l)
    ensures c.strand == Rv && |c.spacer| == cfg.spacerLength && GcWithin(c.spacer, gc.0, gc.1)
  {
    var scanned := ScanFrom(cfg, w, descriptor, Rv, gc, 0);
    var j :| 0 <= j < |scanned| && c == ShiftRv(cfg, mark, scanned)[j];
    ScanShape(cfg, w, descriptor, Rv, gc, scanned[j]);
    l := scanned[j].location;
  }

  // ---------------------------------------------------------------------------------------
  // Strand from the name

  /** The strand as the source tells it, by the substring test `'fw' in name`. */
  function StrandByName(name: string): Strand
  {
    if exists p :: 0 <= p < |name| - 1 && name[p] == 'f' && name[p + 1] == 'w' then Fw else Rv
  }

  /** The name test agrees with the strand tag for every candidate of a gene whose name does
      not contain "fw". */
  lemma StrandByNameAgrees(gene: string, strand: Strand, loc: nat)
    requires forall p :: 0 <= p < |gene| - 1 ==> !(gene[p] == 'f' && gene[p + 1] == 'w')
    ensures StrandByName(gene + (if strand == Fw then "--fw" else "--rv") + NatToString(loc)) == strand
  {
    var tag := if strand == Fw then "--fw" else "--rv";
    var digits := NatToString(loc);
    var n := gene + tag + digits;
    if strand == Fw {
      assert n[|gene| + 2] == 'f' && n[|gene| + 3] == 'w';
    } else {
      forall p | 0 <= p < |n| - 1 ensures !(n[p] == 'f' && n[p + 1] == 'w') {
        if p < |gene| - 1 {
          assert n[p] == gene[p] && n[p + 1] == gene[p + 1];
        } else if p >= |gene| + 4 {
          assert IsDigit(n[p]);
        } else if p >= |gene| {
          assert n[p] == tag[p - |gene|];
        }
      }
    }
  }

  /** The name test misreads the reverse candidates of a gene named, say, "fwdA": they are
      taken as forward ones, so their fingerprint and sort key would be read on the wrong side. */
  lemma StrandByNameMisreadsFwGene()
    ensures StrandByName("fwdA" + "--rv" + NatToString(7)) == Fw
  {
    var n := "fwdA" + "--rv" + NatToString(7);
    assert n[0] == 'f' && n[1] == 'w';
  }
}
