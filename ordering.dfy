/** Ordering a region's candidates by the position of their predicted insertion site. */
module Ordering {
  import opened Types

  /** The insertion site a candidate targets: `integrationSiteDistance` past its location on
      the forward strand, before it on the reverse strand. */
  function EditSite(cfg: Config, c: Candidate): int
  {
    if c.strand == Fw then c.location + cfg.integrationSiteDistance
    else c.location - cfg.integrationSiteDistance
  }

  /** The walk goes up the genome exactly for an N-to-C walk along a forward gene or a
      C-to-N walk along a reverse gene; any other pair, an unknown preference included,
      walks down. */
  predicate Ascending(traversal: string, geneDirection: Strand)
  {
    (traversal == "N_to_C" && geneDirection == Fw) || (traversal == "C_to_N" && geneDirection == Rv)
  }

  /** `a` may stay ahead of `b` in the walk's order. */
  predicate InOrder(cfg: Config, up: bool, a: Candidate, b: Candidate)
  {
    if up then EditSite(cfg, a) <= EditSite(cfg, b) else EditSite(cfg, a) >= EditSite(cfg, b)
  }

  predicate Sorted(cfg: Config, up: bool, cs: seq<Candidate>)
  {
    forall i, j :: 0 <= i < j < |cs| ==> InOrder(cfg, up, cs[i], cs[j])
  }

  /** Places `x` in front of the first element it may precede. `InOrder` holds on equal keys,
      so `x` goes ahead of the ones with the same key; `SortBy` inserts from the back, which
      keeps ties in input order. */
  function Insert(cfg: Config, up: bool, x: Candidate, cs: seq<Candidate>): seq<Candidate>
  {
    if cs == [] then [x]
    else if InOrder(cfg, up, x, cs[0]) then [x] + cs
    else [cs[0]] + Insert(cfg, up, x, cs[1..])
  }

  /** A stable sort by insertion; Python's `sorted` with `reverse=True` is stable as well. */
  function SortBy(cfg: Config, up: bool, cs: seq<Candidate>): seq<Candidate>
  {
    if cs == [] then [] else Insert(cfg, up, cs[0], SortBy(cfg, up, cs[1..]))
  }

  /** `order_candidates_for_region`. */
  function OrderCandidates(cfg: Config, cs: seq<Candidate>, gene: Gene, traversal: string): seq<Candidate>
  {
    SortBy(cfg, Ascending(traversal, gene.direction), cs)
  }

  /** The candidates whose insertion site is `site`, in their order. */
  function AtSite(cfg: Config, site: int, cs: seq<Candidate>): seq<Candidate>
  {
    if cs == [] then []
    else (if EditSite(cfg, cs[0]) == site then [cs[0]] else []) + AtSite(cfg, site, cs[1..])
  }

  // ---------------------------------------------------------------------------------------
  // Insertion

  lemma {:induction false} InsertPermutes(cfg: Config, up: bool, x: Candidate, cs: seq<Candidate>)
    ensures multiset(Insert(cfg, up, x, cs)) == multiset(cs) + multiset{x}
  {
    if cs != [] && !InOrder(cfg, up, x, cs[0]) {
      InsertPermutes(cfg, up, x, cs[1..]);
      assert cs == [cs[0]] + cs[1..];
    }
  }

  lemma {:induction false} InsertMembers(cfg: Config, up: bool, x: Candidate, cs: seq<Candidate>)
    ensures forall y :: y in Insert(cfg, up, x, cs) <==> y == x || y in cs
  {
    if cs != [] && !InOrder(cfg, up, x, cs[0]) {
      InsertMembers(cfg, up, x, cs[1..]);
      assert forall y :: y in cs <==> y == cs[0] || y in cs[1..];
    }
  }

  lemma {:induction false} InsertSorted(cfg: Config, up: bool, x: Candidate, cs: seq<Candidate>)
    requires Sorted(cfg, up, cs)
    ensures Sorted(cfg, up, Insert(cfg, up, x, cs))
  {
    if cs != [] {
      if InOrder(cfg, up, x, cs[0]) {
        InsertAhead(cfg, up, x, cs);
      } else {
        InsertSorted(cfg, up, x, cs[1..]);
        InsertBehind(cfg, up, x, cs);
      }
    }
  }

  lemma InsertAhead(cfg: Config, up: bool, x: Candidate, cs: seq<Candidate>)
    requires Sorted(cfg, up, cs) && cs != [] && InOrder(cfg, up, x, cs[0])
    ensures Sorted(cfg, up, [x] + cs)
  {
    var r := [x] + cs;
    forall i, j | 0 <= i < j < |r| ensures InOrder(cfg, up, r[i], r[j]) {
      assert r[j] == cs[j - 1];
      if i > 0 { assert r[i] == cs[i - 1]; }
      else if j > 1 { assert InOrder(cfg, up, cs[0], cs[j - 1]); }
    }
  }

  lemma InsertBehind(cfg: Config, up: bool, x: Candidate, cs: seq<Candidate>)
    requires Sorted(cfg, up, cs) && cs != [] && !InOrder(cfg, up, x, cs[0])
    requires Sorted(cfg, up, Insert(cfg, up, x, cs[1..]))
    ensures Sorted(cfg, up, [cs[0]] + Insert(cfg, up, x, cs[1..]))
  {
    var rest := Insert(cfg, up, x, cs[1..]);
    var r := [cs[0]] + rest;
    InsertMembers(cfg, up, x, cs[1..]);
    assert forall k :: 0 <= k < |cs[1..]| ==> InOrder(cfg, up, cs[0], cs[1..][k]) by {
      forall k | 0 <= k < |cs[1..]| ensures InOrder(cfg, up, cs[0], cs[1..][k]) {
        assert cs[1..][k] == cs[k + 1];
      }
    }
    forall i, j | 0 <= i < j < |r| ensures InOrder(cfg, up, r[i], r[j]) {
      assert r[j] == rest[j - 1] && r[j] in rest;
      if i > 0 { assert r[i] == rest[i - 1]; }
    }
  }

  /** Inserting `x` puts it ahead of every element that shares its key and changes nothing
      among the others: the heart of stability. */
  lemma {:induction false} InsertAtSite(cfg: Config, up: bool, site: int, x: Candidate, cs: seq<Candidate>)
    ensures AtSite(cfg, site, Insert(cfg, up, x, cs))
            == (if EditSite(cfg, x) == site then [x] else []) + AtSite(cfg, site, cs)
  {
    if cs != [] {
      if InOrder(cfg, up, x, cs[0]) {
        assert ([x] + cs)[1..] == cs;
      } else {
        InsertAtSite(cfg, up, site, x, cs[1..]);
        assert ([cs[0]] + Insert(cfg, up, x, cs[1..]))[1..] == Insert(cfg, up, x, cs[1..]);
      }
    }
  }

  // ---------------------------------------------------------------------------------------
  // The order

  /** The result is a rearrangement of the input. */
  lemma {:induction false} SortPermutes(cfg: Config, up: bool, cs: seq<Candidate>)
    ensures multiset(SortBy(cfg, up, cs)) == multiset(cs)
  {
    if cs != [] {
      SortPermutes(cfg, up, cs[1..]);
      InsertPermutes(cfg, up, cs[0], SortBy(cfg, up, cs[1..]));
      assert cs == [cs[0]] + cs[1..];
    }
  }

  /** The result runs in the requested direction. */
  lemma {:induction false} SortSorts(cfg: Config, up: bool, cs: seq<Candidate>)
    ensures Sorted(cfg, up, SortBy(cfg, up, cs))
  {
    if cs != [] {
      SortSorts(cfg, up, cs[1..]);
      InsertSorted(cfg, up, cs[0], SortBy(cfg, up, cs[1..]));
    }
  }

  /** The sort is stable in both directions: candidates aiming at the same insertion site keep
      their input order. */
  lemma {:induction false} SortStable(cfg: Config, up: bool, site: int, cs: seq<Candidate>)
    ensures AtSite(cfg, site, SortBy(cfg, up, cs)) == AtSite(cfg, site, cs)
  {
    if cs != [] {
      SortStable(cfg, up, site, cs[1..]);
      InsertAtSite(cfg, up, site, cs[0], SortBy(cfg, up, cs[1..]));
    }
  }

  /** `order_candidates_for_region` rearranges the candidates so that their insertion sites
      rise along an N-to-C walk of a forward gene or a C-to-N walk of a reverse gene, and fall
      otherwise, keeping ties in input order. */
  lemma OrderCandidatesSpec(cfg: Config, cs: seq<Candidate>, gene: Gene, traversal: string)
    ensures multiset(OrderCandidates(cfg, cs, gene, traversal)) == multiset(cs)
    ensures |OrderCandidates(cfg, cs, gene, traversal)| == |cs|
    ensures Ascending(traversal, gene.direction) ==>
              forall i, j :: 0 <= i < j < |OrderCandidates(cfg, cs, gene, traversal)| ==>
                EditSite(cfg, OrderCandidates(cfg, cs, gene, traversal)[i])
                <= EditSite(cfg, OrderCandidates(cfg, cs, gene, traversal)[j])
    ensures !Ascending(traversal, gene.direction) ==>
              forall i, j :: 0 <= i < j < |OrderCandidates(cfg, cs, gene, traversal)| ==>
                EditSite(cfg, OrderCandidates(cfg, cs, gene, traversal)[i])
                >= EditSite(cfg, OrderCandidates(cfg, cs, gene, traversal)[j])
    ensures forall site :: AtSite(cfg, site, OrderCandidates(cfg, cs, gene, traversal)) == AtSite(cfg, site, cs)
  {
    var up := Ascending(traversal, gene.direction);
    SortPermutes(cfg, up, cs);
    SortSorts(cfg, up, cs);
    assert |SortBy(cfg, up, cs)| == |cs| by {
      assert |multiset(SortBy(cfg, up, cs))| == |multiset(cs)|;
    }
    forall site | true ensures AtSite(cfg, site, SortBy(cfg, up, cs)) == AtSite(cfg, site, cs) {
      SortStable(cfg, up, site, cs);
    }
  }
}
