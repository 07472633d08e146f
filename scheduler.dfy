/** Choosing the next batch of candidates for the off-target search, preferring candidates
    whose spans overlap neither the accepted candidates nor each other. */
module Scheduler {
  import opened Types
  import opened Text

  /** The bases `[location, location + spacerLength]` a candidate's spacer covers. */
  function SpanOf(cfg: Config, c: Candidate): (int, int)
  {
    (c.location, c.location + cfg.spacerLength)
  }

  function Spans(cfg: Config, cs: seq<Candidate>): (r: seq<(int, int)>)
    ensures |r| == |cs|
  {
    seq(|cs|, i requires 0 <= i < |cs| => SpanOf(cfg, cs[i]))
  }

  /** `candidate_overlaps`: the spacer's first or last point lies strictly inside one of the
      regions. */
  predicate CandidateOverlaps(cfg: Config, c: Candidate, regions: seq<(int, int)>)
  {
    || (exists m :: m in regions && m.0 < c.location < m.1)
    || (exists m :: m in regions && m.0 < c.location + cfg.spacerLength < m.1)
  }

  /** Tier 1: walks the candidates in order and takes each one that overlaps neither the
      accepted spans `existing` nor the span of an earlier pick. */
  function Tier1(cfg: Config, rest: seq<Candidate>, existing: seq<(int, int)>, picks: seq<Candidate>): seq<Candidate>
    decreases |rest|
  {
    if rest == [] then picks
    else if !CandidateOverlaps(cfg, rest[0], existing + Spans(cfg, picks)) then
      Tier1(cfg, rest[1..], existing, picks + [rest[0]])
    else Tier1(cfg, rest[1..], existing, picks)
  }

  /** Tier 2: walks the candidates again and adds each one not taken yet that overlaps the
      final regions. */
  function Tier2(cfg: Config, rest: seq<Candidate>, regions: seq<(int, int)>, acc: seq<Candidate>): seq<Candidate>
    decreases |rest|
  {
    if rest == [] then acc
    else if rest[0] !in acc && CandidateOverlaps(cfg, rest[0], regions) then
      Tier2(cfg, rest[1..], regions, acc + [rest[0]])
    else Tier2(cfg, rest[1..], regions, acc)
  }

  /** The candidates of `rest` not in `taken`, in order. */
  function Leftovers(rest: seq<Candidate>, taken: seq<Candidate>): seq<Candidate>
  {
    if rest == [] then []
    else (if rest[0] !in taken then [rest[0]] else []) + Leftovers(rest[1..], taken)
  }

  /** The tier-1 picks for `remaining` against the spans of `matches`. */
  function Picks(cfg: Config, remaining: seq<Candidate>, matches: seq<Candidate>): seq<Candidate>
  {
    Tier1(cfg, remaining, Spans(cfg, matches), [])
  }

  /** The list tier 2 leaves behind. */
  function Tiers(cfg: Config, remaining: seq<Candidate>, matches: seq<Candidate>): seq<Candidate>
  {
    var picks := Picks(cfg, remaining, matches);
    Tier2(cfg, remaining, Spans(cfg, matches) + Spans(cfg, picks), picks)
  }

  /** What `choose_next_offtarget_batch` returns. */
  function Batch(cfg: Config, remaining: seq<Candidate>, matches: seq<Candidate>, policy: string, batchSize: nat)
    : seq<Candidate>
  {
    if policy == "allowed" then Take(remaining, batchSize)
    else
      var t2 := Tiers(cfg, remaining, matches);
      Take(if |t2| < batchSize && policy != "forbidden" then t2 + Leftovers(remaining, t2) else t2, batchSize)
  }

  /** `choose_next_offtarget_batch`. */
  method ChooseNextBatch(cfg: Config, remaining: seq<Candidate>, matches: seq<Candidate>, policy: string, batchSize: nat)
    returns (batch: seq<Candidate>)
    ensures batch == Batch(cfg, remaining, matches, policy, batchSize)
  {
    if policy == "allowed" {
      return Take(remaining, batchSize);
    }
    var existing := Spans(cfg, matches);
    ghost var picks := Picks(cfg, remaining, matches);
    ghost var t2 := Tiers(cfg, remaining, matches);
    Tier2Extends(cfg, remaining, existing + Spans(cfg, picks), picks);
    var toCheck: seq<Candidate> := [];
    var avoid: seq<(int, int)> := [];
    for i := 0 to |remaining|
      invariant avoid == Spans(cfg, toCheck)
      invariant Tier1(cfg, remaining[i..], existing, toCheck) == picks
    {
      var c := remaining[i];
      assert remaining[i..][1..] == remaining[i + 1..];
      var overlaps := CandidateOverlaps(cfg, c, existing + avoid);
      if !overlaps {
        toCheck := toCheck + [c];
        avoid := avoid + [SpanOf(cfg, c)];
      }
      if |toCheck| >= batchSize {
        Tier1Extends(cfg, remaining[i + 1..], existing, toCheck);
        TakeOfLonger(toCheck, Batch(cfg, remaining, matches, policy, batchSize), t2, policy != "forbidden",
                     remaining, batchSize);
        return Take(toCheck, batchSize);
      }
    }
    assert toCheck == picks;
    for i := 0 to |remaining|
      invariant Tier2(cfg, remaining[i..], existing + avoid, toCheck) == t2
    {
      var c := remaining[i];
      assert remaining[i..][1..] == remaining[i + 1..];
      if c !in toCheck {
        var overlaps := CandidateOverlaps(cfg, c, existing + avoid);
        if overlaps {
          toCheck := toCheck + [c];
        }
        if |toCheck| >= batchSize {
          Tier2Extends(cfg, remaining[i + 1..], existing + avoid, toCheck);
          TakeOfLonger(toCheck, Batch(cfg, remaining, matches, policy, batchSize), t2, policy != "forbidden",
                       remaining, batchSize);
          return Take(toCheck, batchSize);
        }
      }
    }
    if |toCheck| < batchSize && policy != "forbidden" {
      toCheck := toCheck + Leftovers(remaining, toCheck);
    }
    batch := Take(toCheck, batchSize);
  }

  /** An early return gives what the full walk would: `short` is a prefix of `t2`, which is
      a prefix of what the batch is cut from, and already has `batchSize` elements. */
  lemma TakeOfLonger(short: seq<Candidate>, batch: seq<Candidate>, t2: seq<Candidate>, widen: bool,
                     remaining: seq<Candidate>, batchSize: nat)
    requires short <= t2 && |short| >= batchSize
    requires batch == Take(if |t2| < batchSize && widen then t2 + Leftovers(remaining, t2) else t2, batchSize)
    ensures batch == Take(short, batchSize)
  {
    assert short[..batchSize] == t2[..batchSize];
  }

  // ---------------------------------------------------------------------------------------
  // The overlap test

  /** Two spacers of the same length overlap exactly when their starts differ by more than
      nothing and less than the spacer length: the test is symmetric, a candidate never
      overlaps its own span, and spans that only touch do not overlap. */
  lemma OverlapDistance(cfg: Config, a: Candidate, b: Candidate)
    ensures CandidateOverlaps(cfg, a, [SpanOf(cfg, b)]) <==>
            (b.location < a.location < b.location + cfg.spacerLength ||
             a.location < b.location < a.location + cfg.spacerLength)
  {
    var m := SpanOf(cfg, b);
    if b.location < a.location < b.location + cfg.spacerLength {
      assert m in [m] && m.0 < a.location < m.1;
    }
    if a.location < b.location < a.location + cfg.spacerLength {
      assert m in [m] && m.0 < a.location + cfg.spacerLength < m.1;
    }
  }

  /** More regions can only add overlaps. */
  lemma OverlapsGrow(cfg: Config, c: Candidate, r: seq<(int, int)>, more: seq<(int, int)>)
    requires CandidateOverlaps(cfg, c, r)
    requires forall m :: m in r ==> m in more
    ensures CandidateOverlaps(cfg, c, more)
  {
  }

  // ---------------------------------------------------------------------------------------
  // The tiers

  lemma {:induction false} Tier1Extends(cfg: Config, rest: seq<Candidate>, existing: seq<(int, int)>, picks: seq<Candidate>)
    ensures picks <= Tier1(cfg, rest, existing, picks)
    ensures multiset(Tier1(cfg, rest, existing, picks)) <= multiset(picks) + multiset(rest)
    decreases |rest|
  {
    if rest != [] {
      assert rest == [rest[0]] + rest[1..];
      if !CandidateOverlaps(cfg, rest[0], existing + Spans(cfg, picks)) {
        Tier1Extends(cfg, rest[1..], existing, picks + [rest[0]]);
      } else {
        Tier1Extends(cfg, rest[1..], existing, picks);
      }
    }
  }

  lemma SpansPrefix(cfg: Config, a: seq<Candidate>, b: seq<Candidate>)
    requires a <= b
    ensures forall m :: m in Spans(cfg, a) ==> m in Spans(cfg, b)
  {
    forall m | m in Spans(cfg, a) ensures m in Spans(cfg, b) {
      var k :| 0 <= k < |a| && Spans(cfg, a)[k] == m;
      assert Spans(cfg, b)[k] == m;
    }
  }

  /** Every tier-1 pick clears the accepted spans and the spans of the picks before it. */
  lemma {:induction false} Tier1Clear(cfg: Config, rest: seq<Candidate>, existing: seq<(int, int)>, picks: seq<Candidate>)
    requires forall j :: 0 <= j < |picks| ==> !CandidateOverlaps(cfg, picks[j], existing + Spans(cfg, picks[..j]))
    ensures forall j :: 0 <= j < |Tier1(cfg, rest, existing, picks)| ==>
              !CandidateOverlaps(cfg, Tier1(cfg, rest, existing, picks)[j],
                                 existing + Spans(cfg, Tier1(cfg, rest, existing, picks)[..j]))
    decreases |rest|
  {
    if rest != [] {
      if !CandidateOverlaps(cfg, rest[0], existing + Spans(cfg, picks)) {
        var p := picks + [rest[0]];
        forall j | 0 <= j < |p| ensures !CandidateOverlaps(cfg, p[j], existing + Spans(cfg, p[..j])) {
          if j < |picks| { assert p[..j] == picks[..j] && p[j] == picks[j]; }
          else { assert p[..j] == picks; }
        }
        Tier1Clear(cfg, rest[1..], existing, p);
      } else {
        Tier1Clear(cfg, rest[1..], existing, picks);
      }
    }
  }

  /** A candidate tier 1 leaves out overlaps the final regions, since regions only grow. */
  lemma {:induction false} Tier1Rejects(cfg: Config, rest: seq<Candidate>, existing: seq<(int, int)>, picks: seq<Candidate>)
    ensures forall c :: c in rest ==>
              c in Tier1(cfg, rest, existing, picks)
              || CandidateOverlaps(cfg, c, existing + Spans(cfg, Tier1(cfg, rest, existing, picks)))
    decreases |rest|
  {
    if rest != [] {
      var r := Tier1(cfg, rest, existing, picks);
      var c := rest[0];
      var next := if !CandidateOverlaps(cfg, c, existing + Spans(cfg, picks)) then picks + [c] else picks;
      assert r == Tier1(cfg, rest[1..], existing, next);
      Tier1Rejects(cfg, rest[1..], existing, next);
      Tier1Extends(cfg, rest[1..], existing, next);
      if next == picks {
        SpansPrefix(cfg, picks, r);
        OverlapsGrow(cfg, c, existing + Spans(cfg, picks), existing + Spans(cfg, r));
      } else {
        assert c in next;
      }
      assert forall y :: y in rest ==> y == c || y in rest[1..];
    }
  }

  lemma {:induction false} Tier2Extends(cfg: Config, rest: seq<Candidate>, regions: seq<(int, int)>, acc: seq<Candidate>)
    ensures acc <= Tier2(cfg, rest, regions, acc)
    decreases |rest|
  {
    if rest != [] {
      if rest[0] !in acc && CandidateOverlaps(cfg, rest[0], regions) {
        Tier2Extends(cfg, rest[1..], regions, acc + [rest[0]]);
      } else {
        Tier2Extends(cfg, rest[1..], regions, acc);
      }
    }
  }

  /** Tier 2 keeps what it was given and adds every candidate that overlaps the regions. */
  lemma {:induction false} Tier2Covers(cfg: Config, rest: seq<Candidate>, regions: seq<(int, int)>, acc: seq<Candidate>)
    ensures forall c :: c in acc ==> c in Tier2(cfg, rest, regions, acc)
    ensures forall c :: c in rest && CandidateOverlaps(cfg, c, regions) ==> c in Tier2(cfg, rest, regions, acc)
    decreases |rest|
  {
    if rest != [] {
      var next := if rest[0] !in acc && CandidateOverlaps(cfg, rest[0], regions) then acc + [rest[0]] else acc;
      Tier2Covers(cfg, rest[1..], regions, next);
      assert forall y :: y in rest ==> y == rest[0] || y in rest[1..];
    }
  }

  /** Tier 2 adds each value at most once, and only values it meets and has not taken yet. */
  lemma {:induction false} Tier2Counts(cfg: Config, rest: seq<Candidate>, regions: seq<(int, int)>, acc: seq<Candidate>, v: Candidate)
    ensures multiset(Tier2(cfg, rest, regions, acc))[v] <= multiset(acc)[v] + (if v !in acc && v in rest then 1 else 0)
    decreases |rest|
  {
    if rest != [] {
      var c := rest[0];
      assert forall y :: y in rest[1..] ==> y in rest;
      if c !in acc && CandidateOverlaps(cfg, c, regions) {
        Tier2Counts(cfg, rest[1..], regions, acc + [c], v);
      } else {
        Tier2Counts(cfg, rest[1..], regions, acc, v);
      }
    }
  }

  /** After tier 2 every candidate has been taken: tier 3 finds no leftovers. */
  lemma TiersTakeAll(cfg: Config, remaining: seq<Candidate>, matches: seq<Candidate>)
    ensures forall c :: c in remaining ==> c in Tiers(cfg, remaining, matches)
  {
    var picks := Picks(cfg, remaining, matches);
    Tier1Rejects(cfg, remaining, Spans(cfg, matches), []);
    Tier2Covers(cfg, remaining, Spans(cfg, matches) + Spans(cfg, picks), picks);
  }

  lemma {:induction false} NoLeftovers(rest: seq<Candidate>, taken: seq<Candidate>)
    requires forall c :: c in rest ==> c in taken
    ensures Leftovers(rest, taken) == []
  {
    if rest != [] {
      NoLeftovers(rest[1..], taken);
    }
  }

  /** Tiers 1 and 2 never take more copies of a candidate than `remaining` holds. */
  lemma TiersFromRemaining(cfg: Config, remaining: seq<Candidate>, matches: seq<Candidate>)
    ensures multiset(Tiers(cfg, remaining, matches)) <= multiset(remaining)
  {
    var picks := Picks(cfg, remaining, matches);
    Tier1Extends(cfg, remaining, Spans(cfg, matches), []);
    assert multiset(picks) <= multiset(remaining);
    forall v | true ensures multiset(Tiers(cfg, remaining, matches))[v] <= multiset(remaining)[v] {
      Tier2Counts(cfg, remaining, Spans(cfg, matches) + Spans(cfg, picks), picks, v);
      if v !in picks && v in remaining {
        assert multiset(remaining)[v] >= 1;
      }
    }
  }

  // ---------------------------------------------------------------------------------------
  // Properties of the batch

  /** Under `"forbidden"` the batch is the same as under any other policy but `"allowed"`:
      the third tier never finds anything to add, so forbidding it changes nothing. */
  lemma ForbiddenSameAsAvoid(cfg: Config, remaining: seq<Candidate>, matches: seq<Candidate>, policy: string, batchSize: nat)
    requires policy != "allowed"
    ensures Batch(cfg, remaining, matches, "forbidden", batchSize) == Batch(cfg, remaining, matches, policy, batchSize)
    ensures Batch(cfg, remaining, matches, policy, batchSize) == Take(Tiers(cfg, remaining, matches), batchSize)
  {
    var t2 := Tiers(cfg, remaining, matches);
    TiersTakeAll(cfg, remaining, matches);
    NoLeftovers(remaining, t2);
    assert t2 + [] == t2;
  }

  /** The batch is at most `batchSize` long and takes no candidate more often than
      `remaining` holds it. */
  lemma BatchFromRemaining(cfg: Config, remaining: seq<Candidate>, matches: seq<Candidate>, policy: string, batchSize: nat)
    ensures |Batch(cfg, remaining, matches, policy, batchSize)| <= batchSize
    ensures multiset(Batch(cfg, remaining, matches, policy, batchSize)) <= multiset(remaining)
  {
    var b := Batch(cfg, remaining, matches, policy, batchSize);
    if policy == "allowed" {
      TakeSub(remaining, batchSize);
    } else {
      ForbiddenSameAsAvoid(cfg, remaining, matches, policy, batchSize);
      TiersFromRemaining(cfg, remaining, matches);
      TakeSub(Tiers(cfg, remaining, matches), batchSize);
    }
  }

  /** Some candidate always remains to be tested: a positive batch size over a non-empty
      list gives a non-empty batch, under every policy. */
  lemma BatchNonEmpty(cfg: Config, remaining: seq<Candidate>, matches: seq<Candidate>, policy: string, batchSize: nat)
    requires remaining != [] && batchSize >= 1
    ensures Batch(cfg, remaining, matches, policy, batchSize) != []
  {
    if policy != "allowed" {
      ForbiddenSameAsAvoid(cfg, remaining, matches, policy, batchSize);
      TiersTakeAll(cfg, remaining, matches);
      assert remaining[0] in Tiers(cfg, remaining, matches);
    }
  }

  lemma TakeSub(s: seq<Candidate>, k: nat)
    ensures multiset(Take(s, k)) <= multiset(s)
  {
    if k <= |s| {
      assert s == s[..k] + s[k..];
    }
  }

  /** The batch is full: it holds `batchSize` candidates, or all of them when fewer remain. */
  lemma BatchIsFull(cfg: Config, remaining: seq<Candidate>, matches: seq<Candidate>, policy: string, batchSize: nat)
    requires Distinct(remaining)
    ensures |Batch(cfg, remaining, matches, policy, batchSize)| == Min(batchSize, |remaining|)
  {
    if policy != "allowed" {
      var t2 := Tiers(cfg, remaining, matches);
      ForbiddenSameAsAvoid(cfg, remaining, matches, policy, batchSize);
      TiersTakeAll(cfg, remaining, matches);
      TiersFromRemaining(cfg, remaining, matches);
      assert multiset(t2) == multiset(remaining) by {
        forall v | true ensures multiset(t2)[v] == multiset(remaining)[v] {
          DistinctCount(remaining, v);
        }
      }
      assert |t2| == |multiset(t2)| == |multiset(remaining)| == |remaining|;
    }
  }

  /** A candidate occurs at most once in a sequence without repeats. */
  lemma {:induction false} DistinctCount(s: seq<Candidate>, v: Candidate)
    requires Distinct(s)
    ensures multiset(s)[v] == if v in s then 1 else 0
  {
    if s != [] {
      assert s == [s[0]] + s[1..];
      assert Distinct(s[1..]) by {
        forall i, j | 0 <= i < j < |s[1..]| ensures s[1..][i] != s[1..][j] {
          assert s[1..][i] == s[i + 1] && s[1..][j] == s[j + 1];
        }
      }
      DistinctCount(s[1..], v);
      if v == s[0] {
        assert v !in s[1..] by {
          forall k | 0 <= k < |s[1..]| ensures s[1..][k] != v {
            assert s[1..][k] == s[k + 1];
          }
        }
      }
    }
  }

  /** A sequence that holds no value twice has no repeats. */
  lemma CountsAtMostOne(s: seq<Candidate>)
    requires forall v :: multiset(s)[v] <= 1
    ensures Distinct(s)
  {
    forall i, j | 0 <= i < j < |s| ensures s[i] != s[j] {
      TwoCopies(s, i, j);
    }
  }

  /** Two positions holding the same value make it occur at least twice. */
  lemma TwoCopies(s: seq<Candidate>, i: int, j: int)
    requires 0 <= i < j < |s|
    ensures s[i] == s[j] ==> multiset(s)[s[i]] >= 2
  {
    assert s == s[..i] + [s[i]] + s[i + 1..j] + [s[j]] + s[j + 1..];
  }

  /** A batch drawn from candidates without repeats has no repeats. */
  lemma BatchDistinct(cfg: Config, remaining: seq<Candidate>, matches: seq<Candidate>, policy: string, batchSize: nat)
    requires Distinct(remaining)
    ensures Distinct(Batch(cfg, remaining, matches, policy, batchSize))
  {
    var b := Batch(cfg, remaining, matches, policy, batchSize);
    BatchFromRemaining(cfg, remaining, matches, policy, batchSize);
    forall v | true ensures multiset(b)[v] <= 1 {
      DistinctCount(remaining, v);
    }
    CountsAtMostOne(b);
  }

  /** Unless overlaps are allowed, the batch opens with the tier-1 picks. */
  lemma BatchOpensWithPicks(cfg: Config, remaining: seq<Candidate>, matches: seq<Candidate>, policy: string, batchSize: nat)
    requires policy != "allowed"
    ensures Take(Picks(cfg, remaining, matches), batchSize) <= Batch(cfg, remaining, matches, policy, batchSize)
  {
    var picks := Picks(cfg, remaining, matches);
    var t2 := Tiers(cfg, remaining, matches);
    ForbiddenSameAsAvoid(cfg, remaining, matches, policy, batchSize);
    Tier2Extends(cfg, remaining, Spans(cfg, matches) + Spans(cfg, picks), picks);
    if batchSize <= |picks| {
      assert picks[..batchSize] == t2[..batchSize];
    }
  }

  /** Each tier-1 pick clears the spans of `matches` and of the picks before it. */
  lemma PicksClear(cfg: Config, remaining: seq<Candidate>, matches: seq<Candidate>)
    ensures forall j :: 0 <= j < |Picks(cfg, remaining, matches)| ==>
              !CandidateOverlaps(cfg, Picks(cfg, remaining, matches)[j],
                                 Spans(cfg, matches) + Spans(cfg, Picks(cfg, remaining, matches)[..j]))
  {
    Tier1Clear(cfg, remaining, Spans(cfg, matches), []);
  }

  /** Two spacers whose starts differ by nothing or by at least the spacer length. */
  predicate Apart(cfg: Config, a: Candidate, b: Candidate)
  {
    !(b.location < a.location < b.location + cfg.spacerLength) &&
    !(a.location < b.location < a.location + cfg.spacerLength)
  }

  /** The tier-1 picks are pairwise apart, and apart from every accepted candidate. */
  lemma PicksApart(cfg: Config, remaining: seq<Candidate>, matches: seq<Candidate>)
    ensures forall i, j :: 0 <= i < j < |Picks(cfg, remaining, matches)| ==>
              Apart(cfg, Picks(cfg, remaining, matches)[i], Picks(cfg, remaining, matches)[j])
    ensures forall j, m :: 0 <= j < |Picks(cfg, remaining, matches)| && m in matches ==>
              Apart(cfg, Picks(cfg, remaining, matches)[j], m)
  {
    var p := Picks(cfg, remaining, matches);
    PicksClear(cfg, remaining, matches);
    forall i, j | 0 <= i < j < |p| ensures Apart(cfg, p[i], p[j]) {
      var all := Spans(cfg, matches) + Spans(cfg, p[..j]);
      assert Spans(cfg, p[..j])[i] == SpanOf(cfg, p[i]);
      assert SpanOf(cfg, p[i]) in all;
      OverlapDistance(cfg, p[j], p[i]);
      if CandidateOverlaps(cfg, p[j], [SpanOf(cfg, p[i])]) {
        OverlapsGrow(cfg, p[j], [SpanOf(cfg, p[i])], all);
      }
    }
    forall j, m | 0 <= j < |p| && m in matches ensures Apart(cfg, p[j], m) {
      var all := Spans(cfg, matches) + Spans(cfg, p[..j]);
      var k :| 0 <= k < |matches| && matches[k] == m;
      assert Spans(cfg, matches)[k] == SpanOf(cfg, m);
      assert SpanOf(cfg, m) in all;
      OverlapDistance(cfg, p[j], m);
      if CandidateOverlaps(cfg, p[j], [SpanOf(cfg, m)]) {
        OverlapsGrow(cfg, p[j], [SpanOf(cfg, m)], all);
      }
    }
  }

  /** Overlapping candidates can still share a batch under `"forbidden"`: with nothing
      accepted yet, a candidate that overlaps the first pick is taken by tier 2. */
  lemma ForbiddenBatchCanOverlap()
    ensures var a := Candidate("g--fw10", Fw, 10, [], []);
            var b := Candidate("g--fw12", Fw, 12, [], []);
            var cfg := Defaults;
            Batch(cfg, [a, b], [], "forbidden", 10) == [a, b] && CandidateOverlaps(cfg, b, [SpanOf(cfg, a)])
  {
    var a := Candidate("g--fw10", Fw, 10, [], []);
    var b := Candidate("g--fw12", Fw, 12, [], []);
    var cfg := Defaults;
    var none := Spans(cfg, []);
    assert [a, b][1..] == [b] && [b][1..] == [] && none == [] && [] + [a] == [a];
    assert Spans(cfg, [a]) == [SpanOf(cfg, a)];
    assert !CandidateOverlaps(cfg, a, none + Spans(cfg, []));
    assert SpanOf(cfg, a) in none + Spans(cfg, [a]);
    assert CandidateOverlaps(cfg, b, none + Spans(cfg, [a]));
    assert Tier1(cfg, [b], none, [a]) == [a];
    assert Picks(cfg, [a, b], []) == [a];
    assert Tier2(cfg, [a, b], none + Spans(cfg, [a]), [a]) == Tier2(cfg, [b], none + Spans(cfg, [a]), [a]);
    assert Tier2(cfg, [b], none + Spans(cfg, [a]), [a]) == [a, b];
    assert Tiers(cfg, [a, b], []) == [a, b];
  }
}
