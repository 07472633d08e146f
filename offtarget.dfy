/** The off-target filter: candidates are sent in batches to a genome-wide aligner, and a
    candidate is kept when the aligner reports at most one hit for it (its own site). */
module Offtarget {
  import opened Types
  import opened Text
  import opened Scheduler

  /** The aligner, seen from the filter: the number of alignment records it reports for the
      query sent under a candidate's name. */
  type ReadCount = (string, string) -> nat

  // ---------------------------------------------------------------------------------------
  // The flexible query

  /** The rewrite is defined: Python's `range` refuses a step of zero. */
  predicate FlexReady(cfg: Config)
  {
    cfg.flexBase ==> cfg.flexSpacing >= 1
  }

  /** `q[:i] + 'N' + q[i+1:]`: overwrites position `i`, or appends an `N` past the end. */
  function PutN(q: string, i: nat): (r: string)
    ensures i < |q| ==> r == q[i := 'N']
    ensures i >= |q| ==> r == q + "N"
  {
    Slice(q, 0, i) + "N" + Slice(q, i + 1, |q|)
  }

  /** The rewrite from position `i` on, stepping by `flexSpacing` while below `spacerLength`;
      each step is `PutN`. */
  function FlexFrom(cfg: Config, q: string, i: nat): string
    requires cfg.flexSpacing >= 1
    decreases cfg.spacerLength - i
  {
    if i >= cfg.spacerLength then q
    else FlexFrom(cfg, if i < |q| then q[i := 'N'] else q + "N", i + cfg.flexSpacing)
  }

  /** The flexible query: every `flexSpacing`-th base of the spacer becomes `N`. */
  function Flexible(cfg: Config, q: string): string
    requires cfg.flexSpacing >= 1
  {
    FlexFrom(cfg, q, cfg.flexSpacing - 1)
  }

  /** Position `j` (0-based) is one the rewrite turns into `N`. */
  predicate FlexPosition(cfg: Config, j: int)
    requires cfg.flexSpacing >= 1
  {
    0 <= j < cfg.spacerLength && (j + 1) % cfg.flexSpacing == 0
  }

  /** The rewrite loop of `remove_offtarget_matches`, for one query. */
  method FlexQuery(cfg: Config, q: string) returns (r: string)
    requires cfg.flexSpacing >= 1
    ensures r == Flexible(cfg, q)
  {
    r := q;
    var i: nat := cfg.flexSpacing - 1;
    while i < cfg.spacerLength
      invariant FlexFrom(cfg, r, i) == Flexible(cfg, q)
      decreases cfg.spacerLength - i
    {
      r := PutN(r, i);
      i := i + cfg.flexSpacing;
    }
  }

  /** On a query at least a spacer long the rewrite keeps the length and puts `N` exactly at
      the positions `j < spacerLength` with `j + 1` a multiple of `flexSpacing`. */
  lemma FlexibleMarks(cfg: Config, q: string)
    requires cfg.flexSpacing >= 1 && |q| >= cfg.spacerLength
    ensures |Flexible(cfg, q)| == |q|
    ensures forall j :: 0 <= j < |q| ==>
              Flexible(cfg, q)[j] == if FlexPosition(cfg, j) then 'N' else q[j]
  {
    var n := cfg.flexSpacing;
    DivUnique(n, n, 1, 0);
    forall j | 0 <= j < n - 1 ensures !FlexPosition(cfg, j) {
      DivUnique(j + 1, n, 0, j + 1);
    }
    assert MarkedBefore(cfg, q, q, n - 1);
    FlexFromMarks(cfg, q, q, n - 1);
  }

  /** `q` is `q0` with `N` written at every rewritten position before `i`. */
  predicate MarkedBefore(cfg: Config, q0: string, q: string, i: int)
    requires cfg.flexSpacing >= 1
  {
    |q| == |q0| && forall j :: 0 <= j < |q| ==> q[j] == if j < i && FlexPosition(cfg, j) then 'N' else q0[j]
  }

  lemma {:induction false} FlexFromMarks(cfg: Config, q0: string, q: string, i: nat)
    requires cfg.flexSpacing >= 1 && |q0| >= cfg.spacerLength
    requires (i + 1) % cfg.flexSpacing == 0 && MarkedBefore(cfg, q0, q, i)
    ensures MarkedBefore(cfg, q0, FlexFrom(cfg, q, i), cfg.spacerLength)
    decreases cfg.spacerLength - i
  {
    if i < cfg.spacerLength {
      var q' := q[i := 'N'];
      MarkStep(cfg, q0, q, i);
      assert FlexFrom(cfg, q, i) == FlexFrom(cfg, q', i + cfg.flexSpacing);
      FlexFromMarks(cfg, q0, q', i + cfg.flexSpacing);
    } else {
      MarkedPastEnd(cfg, q0, q, i);
    }
  }

  /** Past the spacer there is nothing more to mark. */
  lemma MarkedPastEnd(cfg: Config, q0: string, q: string, i: int)
    requires cfg.flexSpacing >= 1 && i >= cfg.spacerLength && MarkedBefore(cfg, q0, q, i)
    ensures MarkedBefore(cfg, q0, q, cfg.spacerLength)
  {
  }

  /** Writing `N` at the rewritten position `i` marks every position before the next one. */
  lemma MarkStep(cfg: Config, q0: string, q: string, i: nat)
    requires cfg.flexSpacing >= 1 && i < cfg.spacerLength <= |q0|
    requires (i + 1) % cfg.flexSpacing == 0 && MarkedBefore(cfg, q0, q, i)
    ensures (i + cfg.flexSpacing + 1) % cfg.flexSpacing == 0
    ensures MarkedBefore(cfg, q0, q[i := 'N'], i + cfg.flexSpacing)
  {
    NextMultiple(cfg, i);
    assert FlexPosition(cfg, i);
    var q' := q[i := 'N'];
    forall j | 0 <= j < |q'|
      ensures q'[j] == if j < i + cfg.flexSpacing && FlexPosition(cfg, j) then 'N' else q0[j]
    {
      if j != i {
        assert q'[j] == q[j];
      }
    }
  }

  /** From one rewritten position to the next: `i + flexSpacing` is the next candidate, and
      none lies in between. */
  lemma NextMultiple(cfg: Config, i: int)
    requires cfg.flexSpacing >= 1 && (i + 1) % cfg.flexSpacing == 0
    ensures (i + cfg.flexSpacing + 1) % cfg.flexSpacing == 0
    ensures forall j :: i < j < i + cfg.flexSpacing ==> !FlexPosition(cfg, j)
  {
    var n := cfg.flexSpacing;
    forall j | i < j < i + n ensures !FlexPosition(cfg, j) {
      ModStep(i + 1, n, j - i);
    }
    DivUnique(i + 1 + n, n, (i + 1) / n + 1, 0);
  }

  lemma MulAtLeast(n: int, d: int)
    requires n >= 1 && d >= 1
    ensures n * d >= n
  {
    assert n * d == n + n * (d - 1);
    if d > 1 { MulAtLeast(n, d - 1); }
  }

  /** Euclidean division is unique: `x == n * q + r` with `0 <= r < n` fixes the remainder. */
  lemma DivUnique(x: int, n: int, q: int, r: int)
    requires n >= 1 && 0 <= r < n && x == n * q + r
    ensures x % n == r
  {
    var d := q - x / n;
    assert n * d == x % n - r;
    if d >= 1 { MulAtLeast(n, d); }
    else if d <= -1 { MulAtLeast(n, -d); }
  }

  lemma ModStep(x: int, n: int, d: int)
    requires n >= 1 && x % n == 0 && 0 <= d < n
    ensures (x + d) % n == d
  {
    DivUnique(x + d, n, x / n, d);
  }

  /** The query sent for a candidate: its spacer upper-cased, then made flexible when
      `flexBase` is on. */
  function Query(cfg: Config, c: Candidate): string
    requires FlexReady(cfg)
  {
    if cfg.flexBase then Flexible(cfg, Upper(c.spacer)) else Upper(c.spacer)
  }

  /** A candidate passes when the aligner finds at most one site for it. */
  predicate Clean(cfg: Config, hits: ReadCount, c: Candidate)
    requires FlexReady(cfg)
  {
    hits(c.name, Query(cfg, c)) <= 1
  }

  /** The candidates that pass, in order. */
  function CleanOf(cfg: Config, hits: ReadCount, cs: seq<Candidate>): seq<Candidate>
    requires FlexReady(cfg)
  {
    if cs == [] then []
    else (if Clean(cfg, hits, cs[0]) then [cs[0]] else []) + CleanOf(cfg, hits, cs[1..])
  }

  /** The filter keeps every clean candidate as often as it occurs, and nothing else. */
  lemma {:induction false} CleanOfCounts(cfg: Config, hits: ReadCount, cs: seq<Candidate>, v: Candidate)
    requires FlexReady(cfg)
    ensures multiset(CleanOf(cfg, hits, cs))[v] == if Clean(cfg, hits, v) then multiset(cs)[v] else 0
  {
    if cs != [] {
      CleanOfCounts(cfg, hits, cs[1..], v);
      assert cs == [cs[0]] + cs[1..];
    }
  }

  lemma CleanOfAppend(cfg: Config, hits: ReadCount, cs: seq<Candidate>, c: Candidate)
    requires FlexReady(cfg)
    ensures CleanOf(cfg, hits, cs + [c]) == CleanOf(cfg, hits, cs) + (if Clean(cfg, hits, c) then [c] else [])
  {
    CleanOfConcat(cfg, hits, cs, [c]);
    assert [c][1..] == [];
  }

  /** The clean list grows by the tested candidate when it passes. */
  lemma CleanPrefixStep(cfg: Config, hits: ReadCount, batch: seq<Candidate>, j: nat,
                        base: seq<Candidate>, acc: seq<Candidate>, acc': seq<Candidate>)
    requires FlexReady(cfg) && j < |batch|
    requires acc == base + CleanOf(cfg, hits, batch[..j])
    requires acc' == acc + (if Clean(cfg, hits, batch[j]) then [batch[j]] else [])
    ensures acc' == base + CleanOf(cfg, hits, batch[..j + 1])
  {
    assert batch[..j + 1] == batch[..j] + [batch[j]];
    CleanOfAppend(cfg, hits, batch[..j], batch[j]);
  }

  /** Filtering respects sub-multisets. */
  lemma CleanOfSub(cfg: Config, hits: ReadCount, a: seq<Candidate>, b: seq<Candidate>)
    requires FlexReady(cfg) && multiset(a) <= multiset(b)
    ensures multiset(CleanOf(cfg, hits, a)) <= multiset(CleanOf(cfg, hits, b))
  {
    forall v | true ensures multiset(CleanOf(cfg, hits, a))[v] <= multiset(CleanOf(cfg, hits, b))[v] {
      CleanOfCounts(cfg, hits, a, v);
      CleanOfCounts(cfg, hits, b, v);
    }
  }

  // ---------------------------------------------------------------------------------------
  // list.remove

  /** The index of the first occurrence of `x`. */
  function IndexOf(s: seq<Candidate>, x: Candidate): (i: nat)
    requires x in s
    ensures i < |s| && s[i] == x && x !in s[..i]
  {
    if s[0] == x then 0
    else
      var k := IndexOf(s[1..], x);
      assert s[..k + 1] == [s[0]] + s[1..][..k];
      k + 1
  }

  /** Python's `list.remove`: drops the first occurrence of `x`, which must be there. */
  function RemoveFirst(s: seq<Candidate>, x: Candidate): (r: seq<Candidate>)
    requires x in s
    ensures multiset(r) == multiset(s) - multiset{x}
    ensures |r| == |s| - 1
  {
    var i := IndexOf(s, x);
    assert s == s[..i] + [x] + s[i + 1..];
    s[..i] + s[i + 1..]
  }

  // ---------------------------------------------------------------------------------------
  // The filter loop

  /** Builds a candidate's query and asks the aligner about it. */
  method TestCandidate(cfg: Config, hits: ReadCount, c: Candidate) returns (ok: bool)
    requires FlexReady(cfg)
    ensures ok <==> hits(c.name, Query(cfg, c)) <= 1
  {
    var query := Upper(c.spacer);
    if cfg.flexBase {
      query := FlexQuery(cfg, query);
    }
    ok := hits(c.name, query) <= 1;
  }

  /** Tests one candidate of the batch: appends it to `noOff` when clean, and removes it
      from `untested` either way. */
  method TestOneOf(cfg: Config, hits: ReadCount, c: Candidate, untested: seq<Candidate>, noOff: seq<Candidate>)
    returns (untested': seq<Candidate>, noOff': seq<Candidate>)
    requires FlexReady(cfg) && c in untested
    ensures multiset(untested') + multiset{c} == multiset(untested)
    ensures |untested'| == |untested| - 1
    ensures noOff' == noOff + (if Clean(cfg, hits, c) then [c] else [])
  {
    var ok := TestCandidate(cfg, hits, c);
    noOff' := if ok then noOff + [c] else noOff;
    untested' := RemoveFirst(untested, c);
  }

  /** One pass of the inner loop: every candidate of the batch is tested, the clean ones are
      appended in batch order, and each is removed once from `untested`. */
  method TestBatch(cfg: Config, hits: ReadCount, batch: seq<Candidate>, untested: seq<Candidate>,
                   noOff: seq<Candidate>)
    returns (untested': seq<Candidate>, noOff': seq<Candidate>)
    requires FlexReady(cfg)
    requires multiset(batch) <= multiset(untested)
    ensures multiset(untested') + multiset(batch) == multiset(untested)
    ensures |untested'| == |untested| - |batch|
    ensures noOff' == noOff + CleanOf(cfg, hits, batch)
  {
    untested', noOff' := untested, noOff;
    assert batch[..0] == [] && batch[0..] == batch;
    for j := 0 to |batch|
      invariant multiset(batch[j..]) <= multiset(untested')
      invariant multiset(untested') + multiset(batch[..j]) == multiset(untested)
      invariant noOff' == noOff + CleanOf(cfg, hits, batch[..j])
      invariant |untested'| + j == |untested|
    {
      ghost var u, n := untested', noOff';
      CountStep(batch, j, u);
      untested', noOff' := TestOneOf(cfg, hits, batch[j], untested', noOff');
      CountStepAfter(batch, j, u, untested', untested);
      CleanPrefixStep(cfg, hits, batch, j, noOff, n, noOff');
    }
    assert batch[..|batch|] == batch;
  }

  lemma CountStep(batch: seq<Candidate>, j: nat, u: seq<Candidate>)
    requires j < |batch| && multiset(batch[j..]) <= multiset(u)
    ensures batch[j] in u
  {
    assert batch[j..] == [batch[j]] + batch[j + 1..];
    assert batch[j] in multiset(u);
  }

  lemma CountStepAfter(batch: seq<Candidate>, j: nat, u: seq<Candidate>, u': seq<Candidate>, whole: seq<Candidate>)
    requires j < |batch| && multiset(batch[j..]) <= multiset(u)
    requires multiset(u) + multiset(batch[..j]) == multiset(whole)
    requires multiset(u') + multiset{batch[j]} == multiset(u)
    ensures multiset(batch[j + 1..]) <= multiset(u')
    ensures multiset(u') + multiset(batch[..j + 1]) == multiset(whole)
  {
    assert batch[j..] == [batch[j]] + batch[j + 1..];
    assert batch[..j + 1] == batch[..j] + [batch[j]];
    forall v | true ensures multiset(batch[j + 1..])[v] <= multiset(u')[v] {
      assert multiset(batch[j..])[v] == multiset(batch[j + 1..])[v] + multiset{batch[j]}[v];
    }
  }

  lemma {:induction false} CleanOfConcat(cfg: Config, hits: ReadCount, a: seq<Candidate>, b: seq<Candidate>)
    requires FlexReady(cfg)
    ensures CleanOf(cfg, hits, a + b) == CleanOf(cfg, hits, a) + CleanOf(cfg, hits, b)
  {
    if a != [] {
      assert (a + b)[0] == a[0] && (a + b)[1..] == a[1..] + b;
      CleanOfConcat(cfg, hits, a[1..], b);
    } else {
      assert a + b == b;
    }
  }

  /** The batch the loop tests next: never empty while candidates remain, and drawn from
      them. */
  method NextBatch(cfg: Config, untested: seq<Candidate>, noOff: seq<Candidate>, policy: string, size: nat)
    returns (batch: seq<Candidate>)
    requires untested != [] && size >= 1
    ensures batch == Batch(cfg, untested, noOff, policy, size)
    ensures batch != [] && multiset(batch) <= multiset(untested)
    ensures Distinct(untested) ==> |batch| == Min(size, |untested|)
  {
    batch := ChooseNextBatch(cfg, untested, noOff, policy, size);
    BatchFromRemaining(cfg, untested, noOff, policy, size);
    BatchNonEmpty(cfg, untested, noOff, policy, size);
    if Distinct(untested) {
      BatchIsFull(cfg, untested, noOff, policy, size);
    }
  }

  /** The loop's bookkeeping: every candidate is either untested or tested, and the clean
      list holds exactly the tested candidates that passed, in test order. */
  predicate Progress(cfg: Config, hits: ReadCount, candidates: seq<Candidate>, untested: seq<Candidate>,
                     tested: seq<Candidate>, noOff: seq<Candidate>)
    requires FlexReady(cfg)
  {
    multiset(untested) + multiset(tested) == multiset(candidates) && noOff == CleanOf(cfg, hits, tested)
  }

  /** Testing a batch drawn from the untested candidates keeps the bookkeeping. */
  lemma ProgressStep(cfg: Config, hits: ReadCount, candidates: seq<Candidate>, untested: seq<Candidate>,
                     tested: seq<Candidate>, noOff: seq<Candidate>, batch: seq<Candidate>,
                     untested': seq<Candidate>, noOff': seq<Candidate>)
    requires FlexReady(cfg) && Progress(cfg, hits, candidates, untested, tested, noOff)
    requires multiset(untested') + multiset(batch) == multiset(untested)
    requires noOff' == noOff + CleanOf(cfg, hits, batch)
    ensures Progress(cfg, hits, candidates, untested', tested + batch, noOff')
  {
    CleanOfConcat(cfg, hits, tested, batch);
  }

  /** The clean list only ever holds clean candidates, and once nothing is untested it holds
      all of them. */
  lemma ProgressSound(cfg: Config, hits: ReadCount, candidates: seq<Candidate>, untested: seq<Candidate>,
                      tested: seq<Candidate>, noOff: seq<Candidate>)
    requires FlexReady(cfg) && Progress(cfg, hits, candidates, untested, tested, noOff)
    ensures multiset(noOff) <= multiset(CleanOf(cfg, hits, candidates))
    ensures untested == [] ==> multiset(noOff) == multiset(CleanOf(cfg, hits, candidates))
  {
    CleanOfSub(cfg, hits, tested, candidates);
    if untested == [] {
      CleanOfSub(cfg, hits, candidates, tested);
    }
  }

  /** `remove_offtarget_matches`: tests batches until `minMatches` clean candidates are found
      or none remains untested. Without `checkAll` at most `minMatches` are returned; the
      result falls short of `minMatches` only when every candidate was tested, and then it
      holds every clean one. With `checkAll` the first batch holds every candidate, so a
      repeat-free list yields all its clean candidates; a non-positive `minMatches` tests
      nothing. */
  method RemoveOfftargetMatches(cfg: Config, hits: ReadCount, candidates: seq<Candidate>, minMatches: int,
                                policy: string, checkAll: bool)
    returns (clean: seq<Candidate>)
    requires FlexReady(cfg)
    ensures multiset(clean) <= multiset(CleanOf(cfg, hits, candidates))
    ensures !checkAll ==> |clean| <= Max(minMatches, 0)
    ensures |clean| >= minMatches || multiset(clean) == multiset(CleanOf(cfg, hits, candidates))
    ensures checkAll && Distinct(candidates) && minMatches > 0 ==>
              multiset(clean) == multiset(CleanOf(cfg, hits, candidates))
    ensures minMatches <= 0 ==> clean == []
  {
    var noOff: seq<Candidate> := [];
    var untested := candidates;
    ghost var tested: seq<Candidate> := [];
    while |noOff| < minMatches && |untested| > 0
      invariant Progress(cfg, hits, candidates, untested, tested, noOff)
      invariant !checkAll ==> |noOff| <= Max(minMatches, 0)
      invariant checkAll && Distinct(candidates) ==> (untested == candidates && noOff == []) || untested == []
      invariant minMatches <= 0 ==> noOff == []
      decreases |untested|
    {
      var batch := NextBatch(cfg, untested, noOff, policy, if checkAll then |untested| else 10);
      var untested', noOff' := TestBatch(cfg, hits, batch, untested, noOff);
      ProgressStep(cfg, hits, candidates, untested, tested, noOff, batch, untested', noOff');
      if checkAll && Distinct(candidates) && untested == candidates {
        assert untested' == [] by { assert |batch| == |untested|; }
      }
      untested, noOff, tested := untested', noOff', tested + batch;
      if |noOff| >= minMatches && !checkAll {
        ProgressSound(cfg, hits, candidates, untested, tested, noOff);
        TakeSub(noOff, minMatches);
        return noOff[..minMatches];
      }
    }
    ProgressSound(cfg, hits, candidates, untested, tested, noOff);
    clean := noOff;
  }
}
