/** The PAM scanner: every spacer that follows a PAM motif in a window and passes the GC gate. */
module Scanner {
  import opened Types
  import opened Text
  import opened Dna

  /** A PAM starts at `p` and a whole spacer follows it inside `s`. */
  predicate SpacerFits(cfg: Config, s: string, p: int)
  {
    OccursAt(s, cfg.pam, p) && p + |cfg.pam| + cfg.spacerLength <= |s|
  }

  /** The spacer that follows the PAM at `p`. */
  function SpacerAfter(cfg: Config, s: string, p: int): string
    requires SpacerFits(cfg, s, p)
  {
    s[p + |cfg.pam|..p + |cfg.pam| + cfg.spacerLength]
  }

  /** The PAM at `p` yields a candidate: its spacer fits and its GC percentage lies in `[lo, hi]`. */
  predicate Qualifies(cfg: Config, s: string, gc: (int, int), p: int)
  {
    SpacerFits(cfg, s, p) && GcWithin(SpacerAfter(cfg, s, p), gc.0, gc.1)
  }

  /** `c` is the candidate recorded for a qualifying PAM: located at the first base of its
      spacer and named by the descriptor followed by that offset. */
  predicate ScannedAt(cfg: Config, s: string, descriptor: string, strand: Strand, gc: (int, int), c: Candidate)
  {
    var p := c.location - |cfg.pam|;
    && Qualifies(cfg, s, gc, p)
    && c == Candidate(descriptor + NatToString(c.location), strand, c.location, SpacerAfter(cfg, s, p), [])
  }

  /** The candidates for the qualifying PAM sites at positions `p` and later, left to right. */
  function ScanFrom(cfg: Config, s: string, descriptor: string, strand: Strand, gc: (int, int), p: nat)
    : seq<Candidate>
    decreases |s| - p
  {
    if p >= |s| then []
    else SiteCandidates(cfg, s, descriptor, strand, gc, p) + ScanFrom(cfg, s, descriptor, strand, gc, p + 1)
  }

  /** Every candidate of the scan from `p` lies past the PAM at `p`. */
  lemma {:induction false} ScanFromAfter(cfg: Config, s: string, descriptor: string, strand: Strand, gc: (int, int), p: nat)
    ensures forall i :: 0 <= i < |ScanFrom(cfg, s, descriptor, strand, gc, p)| ==>
              p + |cfg.pam| <= ScanFrom(cfg, s, descriptor, strand, gc, p)[i].location
    decreases |s| - p
  {
    if p < |s| {
      var cs := ScanFrom(cfg, s, descriptor, strand, gc, p);
      var head := SiteCandidates(cfg, s, descriptor, strand, gc, p);
      var rest := ScanFrom(cfg, s, descriptor, strand, gc, p + 1);
      assert cs == head + rest;
      ScanFromAfter(cfg, s, descriptor, strand, gc, p + 1);
      forall i | 0 <= i < |cs| ensures p + |cfg.pam| <= cs[i].location {
        if i >= |head| { assert cs[i] == rest[i - |head|]; }
      }
    }
  }

  /** The scan lists its candidates in strictly increasing location: one candidate per PAM
      site, overlapping sites included. */
  lemma {:induction false} ScanFromOrdered(cfg: Config, s: string, descriptor: string, strand: Strand, gc: (int, int), p: nat)
    ensures forall i, j :: 0 <= i < j < |ScanFrom(cfg, s, descriptor, strand, gc, p)| ==>
              ScanFrom(cfg, s, descriptor, strand, gc, p)[i].location < ScanFrom(cfg, s, descriptor, strand, gc, p)[j].location
    decreases |s| - p
  {
    if p < |s| {
      var cs := ScanFrom(cfg, s, descriptor, strand, gc, p);
      var head := SiteCandidates(cfg, s, descriptor, strand, gc, p);
      var rest := ScanFrom(cfg, s, descriptor, strand, gc, p + 1);
      assert cs == head + rest;
      ScanFromAfter(cfg, s, descriptor, strand, gc, p + 1);
      ScanFromOrdered(cfg, s, descriptor, strand, gc, p + 1);
      forall i, j | 0 <= i < j < |cs| ensures cs[i].location < cs[j].location {
        if j >= |head| {
          assert cs[j] == rest[j - |head|];
          if i >= |head| { assert cs[i] == rest[i - |head|]; }
        }
      }
    }
  }

  /** What the PAM position `p` contributes: its candidate if it qualifies, else nothing. */
  function SiteCandidates(cfg: Config, s: string, descriptor: string, strand: Strand, gc: (int, int), p: nat)
    : seq<Candidate>
  {
    if Qualifies(cfg, s, gc, p) then
      var loc := p + |cfg.pam|;
      [Candidate(descriptor + NatToString(loc), strand, loc, SpacerAfter(cfg, s, p), [])]
    else []
  }

  /** What a PAM position contributes is at most its own candidate, recorded as a scanned one. */
  lemma SiteCandidatesSound(cfg: Config, s: string, descriptor: string, strand: Strand, gc: (int, int), p: nat)
    ensures |SiteCandidates(cfg, s, descriptor, strand, gc, p)| <= 1
    ensures forall k :: 0 <= k < |SiteCandidates(cfg, s, descriptor, strand, gc, p)| ==>
              && SiteCandidates(cfg, s, descriptor, strand, gc, p)[k].location == p + |cfg.pam|
              && ScannedAt(cfg, s, descriptor, strand, gc, SiteCandidates(cfg, s, descriptor, strand, gc, p)[k])
  {
  }

  /** The scan's output is sound: every candidate belongs to a qualifying PAM site and carries
      that site's spacer and name. */
  lemma {:induction false} ScanFromSound(cfg: Config, s: string, descriptor: string, strand: Strand, gc: (int, int), p: nat)
    ensures forall i :: 0 <= i < |ScanFrom(cfg, s, descriptor, strand, gc, p)| ==>
              ScannedAt(cfg, s, descriptor, strand, gc, ScanFrom(cfg, s, descriptor, strand, gc, p)[i])
    decreases |s| - p
  {
    if p < |s| {
      var cs := ScanFrom(cfg, s, descriptor, strand, gc, p);
      var head := SiteCandidates(cfg, s, descriptor, strand, gc, p);
      var rest := ScanFrom(cfg, s, descriptor, strand, gc, p + 1);
      assert cs == head + rest;
      SiteCandidatesSound(cfg, s, descriptor, strand, gc, p);
      ScanFromSound(cfg, s, descriptor, strand, gc, p + 1);
      forall i | 0 <= i < |cs| ensures ScannedAt(cfg, s, descriptor, strand, gc, cs[i]) {
        if i < |head| { assert cs[i] == head[i]; } else { assert cs[i] == rest[i - |head|]; }
      }
    }
  }

  /** The shape of every scanned candidate at location `L`: the PAM ends at `L`, a whole
      spacer `s[L..L + spacerLength]` follows it and is the candidate's sequence, it passes
      the GC gate, and it carries the scan's strand and no fingerprint yet. */
  lemma ScanShape(cfg: Config, s: string, descriptor: string, strand: Strand, gc: (int, int), c: Candidate)
    requires c in ScanFrom(cfg, s, descriptor, strand, gc, 0)
    ensures |cfg.pam| <= c.location && c.location + cfg.spacerLength <= |s|
    ensures s[c.location - |cfg.pam|..c.location] == cfg.pam
    ensures c.spacer == s[c.location..c.location + cfg.spacerLength]
    ensures |c.spacer| == cfg.spacerLength && GcWithin(c.spacer, gc.0, gc.1)
    ensures c.strand == strand && c.fingerprint == []
  {
    ScanFromSound(cfg, s, descriptor, strand, gc, 0);
    var i :| 0 <= i < |ScanFrom(cfg, s, descriptor, strand, gc, 0)| && ScanFrom(cfg, s, descriptor, strand, gc, 0)[i] == c;
    assert ScannedAt(cfg, s, descriptor, strand, gc, c);
  }

  /** The scan's output is complete: a PAM position yields a candidate exactly when it qualifies. */
  lemma ScanFromComplete(cfg: Config, s: string, descriptor: string, strand: Strand, gc: (int, int), p: nat)
    ensures forall q :: p <= q < |s| ==>
              (Qualifies(cfg, s, gc, q) <==>
               exists i :: 0 <= i < |ScanFrom(cfg, s, descriptor, strand, gc, p)| &&
                           ScanFrom(cfg, s, descriptor, strand, gc, p)[i].location == q + |cfg.pam|)
  {
    forall q | p <= q < |s|
      ensures Qualifies(cfg, s, gc, q) <==>
              exists i :: 0 <= i < |ScanFrom(cfg, s, descriptor, strand, gc, p)| &&
                          ScanFrom(cfg, s, descriptor, strand, gc, p)[i].location == q + |cfg.pam|
    {
      if Qualifies(cfg, s, gc, q) {
        var k := ScanFromFindsSite(cfg, s, descriptor, strand, gc, p, q);
      } else {
        ScanFromOnlySites(cfg, s, descriptor, strand, gc, p, q);
      }
    }
  }

  /** A position that does not qualify has no candidate in the scan. */
  lemma ScanFromOnlySites(cfg: Config, s: string, descriptor: string, strand: Strand, gc: (int, int), p: nat, q: int)
    requires !Qualifies(cfg, s, gc, q)
    ensures forall i :: 0 <= i < |ScanFrom(cfg, s, descriptor, strand, gc, p)| ==>
              ScanFrom(cfg, s, descriptor, strand, gc, p)[i].location != q + |cfg.pam|
  {
    ScanFromSound(cfg, s, descriptor, strand, gc, p);
  }

  /** A qualifying position `q` at or after `p` has its candidate at index `k` of the scan. */
  lemma {:induction false} ScanFromFindsSite(cfg: Config, s: string, descriptor: string, strand: Strand, gc: (int, int), p: nat, q: nat)
    returns (k: nat)
    requires p <= q < |s| && Qualifies(cfg, s, gc, q)
    ensures k < |ScanFrom(cfg, s, descriptor, strand, gc, p)|
    ensures ScanFrom(cfg, s, descriptor, strand, gc, p)[k].location == q + |cfg.pam|
    decreases q - p
  {
    var cs := ScanFrom(cfg, s, descriptor, strand, gc, p);
    var head := SiteCandidates(cfg, s, descriptor, strand, gc, p);
    var rest := ScanFrom(cfg, s, descriptor, strand, gc, p + 1);
    assert cs == head + rest;
    if q == p {
      assert |head| == 1 && head[0].location == q + |cfg.pam|;
      k := 0;
      assert cs[0] == head[0];
    } else {
      var r := ScanFromFindsSite(cfg, s, descriptor, strand, gc, p + 1, q);
      k := |head| + r;
      assert cs[k] == rest[r];
    }
  }

  /** The cursor stops at `i` when no PAM lies ahead, or when the first one ahead, at
      `i + next`, leaves no room for a spacer: no later PAM has room either. */
  lemma ScanEnd(cfg: Config, s: string, descriptor: string, strand: Strand, gc: (int, int), i: nat, next: int)
    requires i < |s| && -1 <= next
    requires forall q :: i <= q < (if next == -1 then |s| + 1 else i + next) ==> !OccursAt(s, cfg.pam, q)
    requires next == -1 || i + next + |cfg.pam| + cfg.spacerLength > |s|
    ensures ScanFrom(cfg, s, descriptor, strand, gc, i) == []
  {
    forall q | i <= q < |s| ensures !Qualifies(cfg, s, gc, q) {
      if next >= 0 && q >= i + next {
        assert q + |cfg.pam| + cfg.spacerLength > |s|;
      }
    }
    ScanFromSkip(cfg, s, descriptor, strand, gc, i, |s|);
    assert ScanFrom(cfg, s, descriptor, strand, gc, |s|) == [];
  }

  /** The cursor step: from `i`, the scan reaches the first PAM at `i + next`, records that
      site's candidate if any, and resumes one base further on. */
  lemma ScanStep(cfg: Config, s: string, descriptor: string, strand: Strand, gc: (int, int), i: nat, next: nat)
    requires i + next < |s| && i + next + |cfg.pam| + cfg.spacerLength <= |s|
    requires forall q :: i <= q < i + next ==> !OccursAt(s, cfg.pam, q)
    requires OccursAt(s, cfg.pam, i + next)
    ensures SpacerFits(cfg, s, i + next)
    ensures ScanFrom(cfg, s, descriptor, strand, gc, i)
            == SiteCandidates(cfg, s, descriptor, strand, gc, i + next)
               + ScanFrom(cfg, s, descriptor, strand, gc, i + next + 1)
  {
    forall q | i <= q < i + next ensures !Qualifies(cfg, s, gc, q) {
    }
    ScanFromSkip(cfg, s, descriptor, strand, gc, i, i + next);
    assert ScanFrom(cfg, s, descriptor, strand, gc, i + next)
           == SiteCandidates(cfg, s, descriptor, strand, gc, i + next)
              + ScanFrom(cfg, s, descriptor, strand, gc, i + next + 1);
  }

  /** Positions without a qualifying PAM contribute nothing. */
  lemma {:induction false} ScanFromSkip(cfg: Config, s: string, descriptor: string, strand: Strand, gc: (int, int), i: nat, j: nat)
    requires i <= j
    requires forall q :: i <= q < j ==> !Qualifies(cfg, s, gc, q)
    ensures ScanFrom(cfg, s, descriptor, strand, gc, i) == ScanFrom(cfg, s, descriptor, strand, gc, j)
    decreases j - i
  {
    if i < j && i < |s| {
      ScanFromSkip(cfg, s, descriptor, strand, gc, i + 1, j);
    }
  }

  /** No PAM occurs in `[i, i + next)` when `next` is `s[i:].find(pam)`. */
  lemma NoPamBefore(cfg: Config, s: string, i: nat, next: int)
    requires i <= |s| && next == Find(s[i..], cfg.pam)
    ensures forall q :: i <= q < (if next == -1 then |s| + 1 else i + next) ==> !OccursAt(s, cfg.pam, q)
    ensures next >= 0 ==> OccursAt(s, cfg.pam, i + next)
    ensures |cfg.pam| == 0 && i < |s| ==> next == 0
  {
    if |cfg.pam| == 0 && i < |s| {
      assert OccursAt(s[i..], cfg.pam, 0);
    }
    forall q | i <= q <= |s| ensures OccursAt(s[i..], cfg.pam, q - i) <==> OccursAt(s, cfg.pam, q) {
      OccursAtShift(s, cfg.pam, i, q - i);
    }
  }

  /** A PAM site whose spacer fits contributes its candidate exactly when the spacer passes
      the GC gate. */
  lemma SiteCandidatesAt(cfg: Config, s: string, descriptor: string, strand: Strand, gc: (int, int), p: nat)
    requires SpacerFits(cfg, s, p)
    ensures GcWithin(s[p + |cfg.pam|..p + |cfg.pam| + cfg.spacerLength], gc.0, gc.1) ==>
              SiteCandidates(cfg, s, descriptor, strand, gc, p)
              == [Candidate(descriptor + NatToString(p + |cfg.pam|), strand, p + |cfg.pam|,
                            s[p + |cfg.pam|..p + |cfg.pam| + cfg.spacerLength], [])]
    ensures !GcWithin(s[p + |cfg.pam|..p + |cfg.pam| + cfg.spacerLength], gc.0, gc.1) ==>
              SiteCandidates(cfg, s, descriptor, strand, gc, p) == []
  {
  }

  lemma AppendShift<T>(done: seq<T>, site: seq<T>, rest: seq<T>, todo: seq<T>, total: seq<T>)
    requires done + todo == total && todo == site + rest
    ensures (done + site) + rest == total
  {
  }

  /** `s[i:].find(pam)`, with what the scan needs to know about the PAM it finds. */
  method NextPam(cfg: Config, s: string, descriptor: string, strand: Strand, gc: (int, int), i: nat)
    returns (next: int)
    requires i < |s|
    ensures -1 <= next
    ensures next == -1 || i + next + |cfg.pam| + cfg.spacerLength > |s| ==>
              ScanFrom(cfg, s, descriptor, strand, gc, i) == []
    ensures next >= 0 && i + next + |cfg.pam| + cfg.spacerLength <= |s| ==>
              && i + next < |s| && SpacerFits(cfg, s, i + next)
              && ScanFrom(cfg, s, descriptor, strand, gc, i)
                 == SiteCandidates(cfg, s, descriptor, strand, gc, i + next)
                    + ScanFrom(cfg, s, descriptor, strand, gc, i + next + 1)
  {
    next := Find(s[i..], cfg.pam);
    NoPamBefore(cfg, s, i, next);
    if next == -1 || i + next + |cfg.pam| + cfg.spacerLength > |s| {
      ScanEnd(cfg, s, descriptor, strand, gc, i, next);
    } else {
      ScanStep(cfg, s, descriptor, strand, gc, i, next);
    }
  }

  /** One turn of the scan's cursor from `i`: `s[i:].find(pam)` gives the next PAM; when there
      is none, or its spacer would run past the end, the scan is over (`found` is false);
      otherwise `site` is what that PAM contributes and the cursor moves to `j`, one base past
      the PAM's start. */
  method NextSite(cfg: Config, s: string, descriptor: string, strand: Strand, gc: (int, int), i: nat)
    returns (found: bool, site: seq<Candidate>, j: nat)
    requires i < |s|
    ensures !found ==> ScanFrom(cfg, s, descriptor, strand, gc, i) == []
    ensures found ==> i < j <= |s| && ScanFrom(cfg, s, descriptor, strand, gc, i) == site + ScanFrom(cfg, s, descriptor, strand, gc, j)
  {
    var next := NextPam(cfg, s, descriptor, strand, gc, i);
    if next == -1 || i + next + |cfg.pam| + cfg.spacerLength > |s| {
      return false, [], i;
    }
    site := SiteCandidate(cfg, s, descriptor, strand, gc, i + next);
    found, j := true, i + next + 1;
  }

  /** The candidate of the PAM site at `p`, whose spacer fits: the spacer after the PAM, named
      by the descriptor and the spacer's offset, kept only when it passes the GC gate. */
  method SiteCandidate(cfg: Config, s: string, descriptor: string, strand: Strand, gc: (int, int), p: nat)
    returns (site: seq<Candidate>)
    requires SpacerFits(cfg, s, p)
    ensures site == SiteCandidates(cfg, s, descriptor, strand, gc, p)
  {
    var loc := p + |cfg.pam|;
    var target := s[loc..loc + cfg.spacerLength];
    if GcWithin(target, gc.0, gc.1) {
      site := [Candidate(descriptor + NatToString(loc), strand, loc, target, [])];
    } else {
      site := [];
    }
  }

  /** `candidates_for_seq`: a cursor finds each PAM with `find`, stops as soon as a spacer no
      longer fits, keeps the spacers that pass the GC gate, and advances one base past the PAM's
      start so that overlapping PAM sites are all visited. */
  method CandidatesForSeq(cfg: Config, s: string, descriptor: string, strand: Strand, gc: (int, int))
    returns (cs: seq<Candidate>)
    ensures cs == ScanFrom(cfg, s, descriptor, strand, gc, 0)
  {
    ghost var total := ScanFrom(cfg, s, descriptor, strand, gc, 0);
    cs := [];
    var i := 0;
    assert cs + ScanFrom(cfg, s, descriptor, strand, gc, i) == total;
    while i < |s|
      invariant 0 <= i <= |s|
      invariant cs + ScanFrom(cfg, s, descriptor, strand, gc, i) == total
      decreases |s| - i
    {
      var found, site, j := NextSite(cfg, s, descriptor, strand, gc, i);
      if !found {
        break;
      }
      AppendShift(cs, site, ScanFrom(cfg, s, descriptor, strand, gc, j), ScanFrom(cfg, s, descriptor, strand, gc, i), total);
      cs := cs + site;
      i := j;
    }
    assert cs + [] == cs;
  }
}
