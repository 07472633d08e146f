# Guide-RNA candidate engine, modelled in Dafny

This project models the core of a CRISPR-associated transposase guide designer. Given a
genome and a gene, the designer does the following:

- works out a target window from a percentage range along the gene;
- scans both strands around that window for PAM motifs followed by a spacer of fixed length
  that passes a GC gate;
- places every spacer in genome coordinates and attaches a 20-base fingerprint at its
  predicted insertion site;
- drops spacers that occur more than once in the genome read both ways;
- orders the survivors by insertion site, in the direction the user walks the gene;
- sends them in batches to an off-target aligner, and keeps those with at most one hit.

The gene records come from GenBank feature tables, normalised so that
`start <= end` and the strand is explicit.

Modules, one file each:

| file | module | models |
|---|---|---|
| `types.dfy` | `Types` | the configuration constants (PAM, spacer length, insertion-site distance, offset switch, flexible-base switch and spacing; defaults `"CC"`, 32, 49, on, on, 6), candidates, genes, the strand tag |
| `text.dfy` | `Text` | the Python primitives the finder relies on: clipping slices, `find`, non-overlapping `count`, `str()` of an integer, `upper` |
| `dna.dfy` | `Dna` | complement and reverse complement (IUPAC codes, case kept), Biopython's GC percentage as integer cross-multiplication |
| `genbank.dfy` | `GenBank` | `basic_gene_info`, `get_genes` |
| `window.dfy` | `Window` | `get_target_region_for_gene` |
| `scanner.dfy` | `Scanner` | `candidates_for_seq`: a cursor method proved equal to a recursive scan, with the scan's soundness, completeness and order |
| `region.dfy` | `Region` | `get_candidates_for_region`: windows, coordinate maps, fingerprints, the uniqueness filter |
| `ordering.dfy` | `Ordering` | `order_candidates_for_region` as a stable insertion sort |
| `scheduler.dfy` | `Scheduler` | `candidate_overlaps`, `choose_next_offtarget_batch` |
| `offtarget.dfy` | `Offtarget` | `remove_offtarget_matches`, the flexible-base rewrite, `list.remove` |

The loops of the source stay loops:

- `CandidatesForSeq`, `GetCandidatesForRegion`, `ChooseNextBatch`, `FlexQuery` and
  `RemoveOfftargetMatches` are methods with invariants.
- Each such method is proved equal to a specification function (`ScanFrom`,
  `RegionCandidates`, `Batch`, `Flexible`) or against its own contract.
- The properties the code promises are lemmas about those functions.

Candidate dictionaries become the value type `Candidate`, and `in` and `list.remove` compare
candidates by value. In the source a candidate holds Biopython `SeqRecord` objects (the
spacer at src/finder.py:34-35, the fingerprint at src/finder.py:86), which do not compare by
value. Two candidates with different names therefore never compare equal in either reading.
Names are distinct within a region, since each is the gene name, the strand tag and a
location that strictly increases along the scan.

Three behaviours of the code that a reader might not expect:

- `get_target_region_for_gene` raises no error for `end_pct < start_pct`. It returns an
  inverted window (`Window.InvertedPercentagesInvertWindow`).
- The uniqueness filter counts the spacer as it was scanned, not upper-cased. This happens
  in the upper-cased genome read both ways (`Region.Unique`). The comparison is therefore
  not case-insensitive: a lower-case spacer never matches.
- Under the `"forbidden"` overlap policy a batch can still hold overlapping candidates
  (`Scheduler.ForbiddenBatchCanOverlap`). Tier 2 already admits every candidate tier 1
  rejected, so tier 3 never adds anything (`Scheduler.ForbiddenSameAsAvoid`).

Candidate locations follow the source's maps, `start_mark - offset + local + 1` forward
and `end_mark + offset - local + 1` reverse. The recorded location is therefore one past
the 0-based index at which the PAM ends (`Region.FwCandidateInGenome`,
`Region.RvCandidateInGenome`).

## Model

| member | source | states |
|---|---|---|
| Scanner.CandidatesForSeq | src/finder.py:18-38 | the `find`-driven cursor loop returns exactly the recursive scan of all qualifying PAM positions from 0 |
| Scanner.NextSite | src/finder.py:21-37 | one cursor turn: either nothing qualifies from `i` on and the loop stops, or the scan from `i` is this site's candidates followed by the scan from a later cursor `j` |
| Scanner.NextPam | src/finder.py:22-25 | the `find` result either stops the scan (no PAM ahead, or its spacer would run past the end) or lands on a PAM whose spacer fits |
| Scanner.SiteCandidate | src/finder.py:27-36 | the candidate built at a fitting PAM site: named by descriptor and location, the spacer after the PAM, kept only when it passes the GC gate |
| Scanner.ScanShape | src/finder.py:22-35 | every scanned candidate at location L has the PAM ending at L, `L + spacerLength <= |seq|`, spacer `seq[L..L+spacerLength]` of full length within the GC bounds |
| Scanner.ScanFromComplete | src/finder.py:21-37 | a position yields a candidate exactly when a PAM starts there, its spacer fits and passes the GC gate; overlapping PAMs included |
| Scanner.ScanFromOrdered | src/finder.py:30-37 | candidates come out in strictly increasing location, one per PAM position |
| Scanner.ScanFromSound | src/finder.py:21-37 | every candidate belongs to a qualifying PAM site and carries its name, strand, location and spacer |
| Scanner.ScanFromAfter | src/finder.py:32-37 | a scan started at p only reports locations past the PAM at p |
| Scanner.ScanFromOnlySites | src/finder.py:21-37 | a position that does not qualify contributes no candidate |
| Scanner.ScanFromFindsSite | src/finder.py:21-37 | a qualifying position has its candidate at some index of the scan |
| Scanner.SiteCandidatesSound | src/finder.py:27-36 | a PAM position contributes at most one candidate, which is the one scanned there |
| Scanner.SiteCandidatesAt | src/finder.py:28-31 | a fitting site contributes its candidate iff its spacer passes the GC gate |
| Scanner.ScanEnd | src/finder.py:23-25 | when no PAM lies ahead or the next spacer runs past the end, nothing further qualifies |
| Scanner.ScanStep | src/finder.py:22-37 | jumping to the next PAM skips only non-qualifying positions |
| Scanner.ScanFromSkip | src/finder.py:30-31 | positions that do not qualify contribute nothing |
| Scanner.NoPamBefore | src/finder.py:22 | `s[i:].find(pam)` names the first PAM at or after `i`, with none before it |
| Text.Find | src/finder.py:22 | `find` returns the least index of an occurrence, or -1 exactly when there is none |
| Text.Slice | src/finder.py:61-62 | Python slicing clips its bounds and equals the Dafny slice when in bounds |
| Text.Take | src/finder.py:112 | `s[:k]` is a prefix of `s` of length `k`, or all of `s` when shorter |
| Text.NatToString | src/finder.py:32 | `str()` of a location is a non-empty run of decimal digits |
| Text.NatToStringRoundTrip | src/finder.py:32 | the decimal digits of `str(n)` read back as `n` |
| Text.CountPositiveIffOccurs | src/finder.py:88 | `count` is positive exactly when the spacer occurs somewhere |
| Text.DisjointOccurrencesCountTwice | src/finder.py:88 | two non-overlapping occurrences give a count of at least two |
| Text.Upper | src/finder.py:87 | upper-casing keeps the length |
| Dna.RevComp | src/finder.py:62 | the reverse complement has the length of its input |
| Dna.RevCompInvolution | src/finder.py:62 | reverse-complementing twice gives the strand back |
| Dna.RevCompSlice | src/finder.py:84 | a window of a reverse complement is the reverse complement of the mirrored window |
| Dna.GcCount | src/finder.py:28 | the GC count never exceeds the length |
| Dna.GcWithinFullRange | src/finder.py:18 | the default bounds `[0, 100]` admit every spacer |
| Dna.GcCountRevComp | src/finder.py:28 | the GC count is the same on both strands |
| Window.WholeGeneWindow | src/finder.py:40-51 | `(0, 100)` gives `[start, end]` on either strand |
| Window.ReverseGeneMirrorsWindow | src/finder.py:45-50 | on a reverse gene `(s, e)` gives the marks of `(100 - e, 100 - s)` read forward |
| Window.WindowInsideGene | src/finder.py:42-51 | with `0 <= s <= e <= 100` and `start <= end`, `start <= start_mark <= end_mark <= end` |
| Window.InvertedPercentagesInvertWindow | src/finder.py:42-51 | `e < s` is not rejected: on a gene of at least 100 bases the window comes out inverted |
| Window.TruncDiv100 | src/finder.py:46-50 | `int(x / 100)` truncates toward zero on both signs |
| Window.ScaledMarkMonotone | src/finder.py:46-50 | a larger percentage never gives an earlier mark |
| Window.ScaledMarkAtMost | src/finder.py:46-50 | a percentage of at most 100 never passes the gene's length |
| Region.GetCandidatesForRegion | src/finder.py:53-89 | the three loops (relocate forward, relocate reverse, fingerprint) and the filter return exactly `RegionCandidates` |
| Region.RegionFilterOrder | src/finder.py:63-88 | the result is the unique forward candidates, in scan order, followed by the unique reverse candidates |
| Region.RegionFilterMembers | src/finder.py:87-88 | a candidate is kept iff it is a forward or reverse candidate of the region and its spacer counts exactly once in the genome read both ways |
| Region.UniqueOnlyMembers | src/finder.py:88 | the filter keeps exactly the candidates with a unique spacer, and never grows |
| Region.UniqueOnlyAppend | src/finder.py:88 | the filter preserves order across a concatenation |
| Region.UniqueSpacerHasOneCopy | src/finder.py:87-88 | a kept spacer occurs in the genome read both ways, and any two occurrences overlap |
| Region.RegionFingerprints | src/finder.py:74-86 | every kept candidate carries the fingerprint at its own insertion site, chosen by its strand |
| Region.FingerprintInBounds | src/finder.py:74-84 | in bounds, a forward fingerprint is the 20 bases ending `spacerLength + distance` past the location; a reverse one is the reverse complement of the 20 bases starting that far before it |
| Region.FwCandidateInGenome | src/finder.py:61-67 | with an unclipped window, a forward candidate's spacer follows a PAM in the genome at the mapped location |
| Region.RvCandidateInGenome | src/finder.py:62-71 | with an unclipped window, a reverse candidate's spacer is, on the other strand, next to a PAM at the mapped location |
| Region.FwOrigin | src/finder.py:63-67 | each forward candidate comes from a PAM-spacer site of the window, at the local offset the forward map moves |
| Region.RvOrigin | src/finder.py:68-71 | each reverse candidate comes from a PAM-spacer site of the reverse window, at the local offset the reverse map moves |
| Region.FwWindowExact | src/finder.py:61 | an unclipped forward window is exactly the slice its bounds name |
| Region.RvWindowExact | src/finder.py:62 | an unclipped reverse window is exactly the reverse complement of its slice |
| Region.FwPlaced | src/finder.py:67 | a site at `l` in the forward window sits at `window start + l` in the genome |
| Region.RvPlaced | src/finder.py:71 | a site at `l` in the reverse window sits, reverse-complemented, at `window end - l` in the genome |
| Region.WithFingerprintsAppend | src/finder.py:74-86 | the fingerprint loop works candidate by candidate across a concatenation |
| Region.StrandByNameAgrees | src/finder.py:75 | the name test `'fw' in name` gives the true strand whenever the gene name has no "fw" in it |
| Region.StrandByNameMisreadsFwGene | src/finder.py:75 | a reverse candidate of gene "fwdA" is read as forward by the name test |
| Ordering.OrderCandidatesSpec | src/finder.py:92-101 | the result is a permutation of the input, non-decreasing in insertion site for (N_to_C, fw) and (C_to_N, rv), non-increasing otherwise, with ties kept in input order |
| Ordering.SortPermutes | src/finder.py:101 | sorting rearranges without adding or losing candidates |
| Ordering.SortSorts | src/finder.py:101 | the sort output is ordered in the requested direction |
| Ordering.SortStable | src/finder.py:101 | candidates with the same insertion site keep their input order |
| Ordering.InsertSorted | src/finder.py:101 | inserting into an ordered list keeps it ordered |
| Ordering.InsertAtSite | src/finder.py:101 | an inserted candidate goes ahead of the ones sharing its key and leaves the others' order alone |
| Ordering.InsertPermutes | src/finder.py:101 | insertion adds exactly one copy of the candidate |
| Scheduler.ChooseNextBatch | src/finder.py:110-143 | the two tier loops with their early returns give exactly `Batch` |
| Scheduler.OverlapDistance | src/finder.py:103-108 | a candidate overlaps another's span iff their starts differ by strictly between 0 and the spacer length; identical or touching spans do not overlap |
| Scheduler.OverlapsGrow | src/finder.py:103-108 | adding regions never removes an overlap |
| Scheduler.Tier1Clear | src/finder.py:120-127 | each tier-1 pick clears the accepted spans and the spans of earlier picks |
| Scheduler.Tier1Rejects | src/finder.py:120-127 | a candidate tier 1 leaves out overlaps the final avoid-list |
| Scheduler.Tier1Extends | src/finder.py:120-127 | tier 1 only appends, and only candidates it walks |
| Scheduler.Tier2Covers | src/finder.py:131-137 | tier 2 keeps the picks and adds every overlapping candidate |
| Scheduler.Tier2Counts | src/finder.py:131-137 | tier 2 adds a candidate at most once, and only one not taken yet |
| Scheduler.Tier2Extends | src/finder.py:131-137 | tier 2 only appends |
| Scheduler.TiersTakeAll | src/finder.py:120-137 | after tier 2 every remaining candidate has been taken |
| Scheduler.NoLeftovers | src/finder.py:140-141 | with everything taken, tier 3 adds nothing |
| Scheduler.TiersFromRemaining | src/finder.py:120-137 | tiers 1 and 2 take no candidate more often than it remains |
| Scheduler.ForbiddenSameAsAvoid | src/finder.py:140-143 | every policy other than "allowed" gives the same batch, the first `batch_size` of tiers 1 and 2 |
| Scheduler.ForbiddenBatchCanOverlap | src/finder.py:110-143 | under "forbidden", two candidates two bases apart share a batch |
| Scheduler.BatchFromRemaining | src/finder.py:110-143 | a batch holds at most `batch_size` candidates, all drawn from `remaining` |
| Scheduler.BatchNonEmpty | src/finder.py:110-143 | a positive batch size over a non-empty list gives a non-empty batch |
| Scheduler.BatchIsFull | src/finder.py:110-143 | without repeats in `remaining`, the batch holds `min(batch_size, |remaining|)` candidates |
| Scheduler.BatchDistinct | src/finder.py:110-143 | without repeats in `remaining`, the batch has none |
| Scheduler.BatchOpensWithPicks | src/finder.py:119-127 | unless overlaps are allowed, the batch opens with the tier-1 picks |
| Scheduler.PicksClear | src/finder.py:119-127 | each tier-1 pick clears the accepted candidates' spans and the earlier picks' spans |
| Scheduler.PicksApart | src/finder.py:103-127 | no two tier-1 picks overlap, and no pick overlaps an accepted candidate: their starts differ by nothing or by at least the spacer length |
| Scheduler.TakeOfLonger | src/finder.py:126-127 | an early return gives what the full walk would |
| Offtarget.RemoveOfftargetMatches | src/finder.py:146-192 | the loop terminates; the result holds only clean candidates, drawn from the input; without `check_all` it holds at most `minMatches`; it falls short of `minMatches` only when it holds every clean candidate; with `check_all`, a positive `minMatches` and no repeated candidate, the first batch covers every candidate and the result holds every clean one; a non-positive `minMatches` returns nothing |
| Offtarget.FlexQuery | src/finder.py:156-161 | the rewrite loop computes `Flexible` |
| Offtarget.FlexibleMarks | src/finder.py:159-160 | on a full-length query the rewrite keeps the length, puts `N` exactly at indices `k * flexSpacing - 1 < spacerLength` and leaves every other base alone |
| Offtarget.FlexFromMarks | src/finder.py:159-160 | from each rewritten index on, the rewrite marks exactly the remaining positions |
| Offtarget.PutN | src/finder.py:160 | `q[:i] + 'N' + q[i+1:]` overwrites index `i`, or appends an `N` past the end |
| Offtarget.TestCandidate | src/finder.py:155-183 | a candidate is accepted iff the aligner reports at most one record for its upper-cased, flexible query |
| Offtarget.TestOneOf | src/finder.py:181-184 | a tested candidate is appended iff clean, and removed once from `untested` |
| Offtarget.TestBatch | src/finder.py:181-184 | the batch loop appends exactly the batch's clean candidates in order and removes each batch member once |
| Offtarget.NextBatch | src/finder.py:153 | while candidates remain, the batch is non-empty and drawn from them; without repeats it holds `min(size, len(untested))` of them, so `len(untested)` takes them all |
| Offtarget.ProgressStep | src/finder.py:148-184 | every candidate is untested or tested, and the clean list holds exactly the tested ones that passed, across a batch |
| Offtarget.ProgressSound | src/finder.py:186-192 | the clean list only holds clean candidates, and all of them once nothing is untested |
| Offtarget.RemoveFirst | src/finder.py:184 | `list.remove` drops exactly one copy of the candidate |
| Offtarget.IndexOf | src/finder.py:184 | the index found is the first occurrence |
| Offtarget.CleanOfCounts | src/finder.py:181-183 | the clean filter keeps each clean candidate as often as it occurs, and nothing else |
| Offtarget.CleanOfSub | src/finder.py:181-183 | the clean filter respects sub-multisets |
| Offtarget.CleanOfConcat | src/finder.py:181-183 | the clean filter works batch by batch |
| GenBank.BasicGeneInfo | src/genbank.py:61-76 | `start = min(from, to)`, `end = max(from, to)`, so `start <= end`; direction is fw iff `from < to`; the name is the first "gene" qualifier's value, else `Unknown_Name_` and the smaller coordinate |
| GenBank.GeneQualifierValue | src/genbank.py:68-70 | the lookup succeeds iff the first qualifier named "gene" is reached and has a value, and then returns that value |
| GenBank.SwappedIntervalFlipsDirection | src/genbank.py:64-74 | reading the interval the other way round keeps name and span and flips the direction |
| GenBank.GetGenes | src/genbank.py:78-80 | every gene record comes from a feature keyed "gene" and has `start <= end` |
| GenBank.GetGenesAppend | src/genbank.py:78-80 | the genes of a concatenated table are the genes of its parts, in order |
| GenBank.GetGenesSingle | src/genbank.py:78-80 | a gene feature yields exactly its own record; any other feature yields none |

## Left out

- The aligner is not part of this model. The FASTA write, the `find_offtargets` call, the
  SAM parse and the file removals (src/finder.py:163-188) become a read-count function
  `(name, query) -> nat`, passed in as a parameter. The model assumes records are counted per
  name for each candidate alone, so two batch members with the same name do not share records.
- Progress printing, timing, the network fetch and the cache (src/genbank.py:13-59) are not
  part of this model. Neither is the driver in src/main.py, the option parser in
  src/commandLine.py (only its defaults are used) or spacer_eval.py.
- Biopython types are not modelled. `SeqRecord`/`Seq` become strings, `reverse_complement` is
  `Dna.RevComp`, and `SeqUtils.GC`'s floating-point percentage is compared exactly by
  cross-multiplication.
- Window.TruncDiv100: `int(length * pct / 100)` is computed exactly; floating-point rounding
  on very large coordinates is not modelled.
- GenBank interval endpoints arrive already parsed as integers. A non-numeric endpoint, which
  makes `int()` raise, is not modelled. `GetGenes` requires that every gene feature has an
  interval, since the source fails with an index error otherwise.
- Scheduler.ChooseNextBatch: `batch_size` is a natural number. Python's negative slice bounds
  on `to_check[:batch_size]` are not modelled, because the off-target loop passes 10 or the
  number of untested candidates.
- Scheduler.BatchDistinct: stated only for candidate lists without repeats. Identical
  candidates do not overlap each other, so tier 1 can pick both copies.
- Offtarget.FlexibleMarks: the closed form is stated for queries at least a spacer long, the
  only ones the scanner produces. On a shorter query the rewrite appends `N`s, which
  `Offtarget.PutN` and `Offtarget.FlexFrom` model but no lemma characterises.
- Offtarget.RemoveOfftargetMatches: it requires a non-zero flexible spacing when the rewrite is
  on, since Python's `range` with step 0 raises. The contract states the result's content as a
  multiset of the clean candidates, not the order in which batches were tested. Its `check_all`
  clause is stated for candidate lists without repeats: a repeated candidate that tier 1
  rejects enters tier 2 only once, since `c not in to_check` skips its second copy, so one
  batch need not cover the list.
- Region.GetCandidatesForRegion, Ordering.OrderCandidatesSpec: both read a candidate's strand
  from the strand it was scanned on, where the source tests `'fw' in name`
  (src/finder.py:75 and src/finder.py:101). They match the source only when the gene name
  contains no "fw" (`Region.StrandByNameAgrees`); the Findings row records the other case.
- Candidate equality: `in` and `list.remove` compare candidates by value. The source compares
  the `SeqRecord` objects inside them, which differ from value equality only for distinct
  candidates that share a name. The model assumes names are distinct, as they are within one
  region.
- Region lemmas about placement and fingerprints assume unclipped windows. Near the genome
  ends, Python clips the slices; `Text.Slice` models that, but the mapped locations are then
  not characterised.

## Findings

| source | as written | input that shows it | evidently intended | confidence | as-written member | corrected member |
|---|---|---|---|---|---|---|
| src/finder.py:75 | the strand of a candidate is read from its name by the substring test `'fw' in name` | a reverse candidate of a gene named `fwdA`, whose name is `fwdA--rv7` | the strand the candidate was scanned on, so its fingerprint is taken upstream and reverse-complemented | not executed; the same test keys the sort at src/finder.py:101 | Region.StrandByNameMisreadsFwGene | Region.RegionFingerprints |
