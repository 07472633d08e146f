/** Normalising GenBank gene features into gene records. */
module GenBank {
  import opened Types
  import opened Text

  /** One location interval of a feature, with the endpoints already read as integers. */
  datatype Interval = Interval(from: int, to: int)

  /** A feature qualifier; either key may be missing from the record. */
  datatype Qualifier = Qualifier(name: Option<string>, value: Option<string>)

  /** A feature-table entry; `quals` is `None` when the record has no qualifier list. */
  datatype Feature = Feature(key: string, intervals: seq<Interval>, quals: Option<seq<Qualifier>>)

  /** `i` is the first qualifier named "gene", and every qualifier before it has a name. */
  ghost predicate FirstGeneQualifierAt(qs: seq<Qualifier>, i: int)
  {
    && 0 <= i < |qs|
    && qs[i].name == Some("gene")
    && forall j :: 0 <= j < i ==> qs[j].name.Some? && qs[j].name.value != "gene"
  }

  /** The value of the first qualifier named "gene", or `None` when the lookup fails: no such
      qualifier, a qualifier without a name reached first, or the match has no value. */
  function GeneQualifierValue(qs: seq<Qualifier>): (r: Option<string>)
    ensures r.Some? <==> exists i :: FirstGeneQualifierAt(qs, i) && qs[i].value.Some?
    ensures forall i :: FirstGeneQualifierAt(qs, i) ==> r == qs[i].value
    decreases |qs|
  {
    if qs == [] then None
    else if qs[0].name.None? then None
    else if qs[0].name.value == "gene" then
      assert FirstGeneQualifierAt(qs, 0);
      qs[0].value
    else
      FirstGeneQualifierShift(qs);
      GeneQualifierValue(qs[1..])
  }

  lemma FirstGeneQualifierShift(qs: seq<Qualifier>)
    requires qs != [] && qs[0].name.Some? && qs[0].name.value != "gene"
    ensures forall i :: FirstGeneQualifierAt(qs, i) <==> i > 0 && FirstGeneQualifierAt(qs[1..], i - 1)
  {
    forall i ensures FirstGeneQualifierAt(qs, i) <==> i > 0 && FirstGeneQualifierAt(qs[1..], i - 1) {
      if i > 0 && FirstGeneQualifierAt(qs[1..], i - 1) {
        forall j | 0 <= j < i ensures qs[j].name.Some? && qs[j].name.value != "gene" {
          if j > 0 { assert qs[j] == qs[1..][j - 1]; }
        }
      }
    }
  }

  /** The name given to a gene without a usable "gene" qualifier. */
  function UnknownName(from: int, to: int): string
  {
    "Unknown_Name_" + IntToString(Min(from, to))
  }

  /** A feature normalised to `{name, start <= end, direction}` from its first interval. */
  function BasicGeneInfo(f: Feature): (g: Gene)
    requires |f.intervals| > 0
    ensures g.start <= g.end
    ensures g.start == Min(f.intervals[0].from, f.intervals[0].to)
    ensures g.end == Max(f.intervals[0].from, f.intervals[0].to)
    ensures g.direction == Fw <==> f.intervals[0].from < f.intervals[0].to
    ensures f.quals.Some? && GeneQualifierValue(f.quals.value).Some? ==>
              g.name == GeneQualifierValue(f.quals.value).value
    ensures f.quals.None? || GeneQualifierValue(f.quals.value).None? ==>
              g.name == UnknownName(f.intervals[0].from, f.intervals[0].to)
  {
    var from := f.intervals[0].from;
    var to := f.intervals[0].to;
    var name :=
      match f.quals
      case Some(qs) =>
        (match GeneQualifierValue(qs)
         case Some(v) => v
         case None => UnknownName(from, to))
      case None => UnknownName(from, to);
    Gene(name, Min(from, to), Max(from, to), if from < to then Fw else Rv)
  }

  /** Reading an interval the other way round keeps the name and the coordinates and flips
      the direction, unless both ends coincide. */
  lemma SwappedIntervalFlipsDirection(f: Feature)
    requires |f.intervals| > 0 && f.intervals[0].from != f.intervals[0].to
    ensures var f' := f.(intervals := [Interval(f.intervals[0].to, f.intervals[0].from)] + f.intervals[1..]);
            && BasicGeneInfo(f').name == BasicGeneInfo(f).name
            && BasicGeneInfo(f').start == BasicGeneInfo(f).start
            && BasicGeneInfo(f').end == BasicGeneInfo(f).end
            && BasicGeneInfo(f').direction != BasicGeneInfo(f).direction
  {
  }

  /** Every feature keyed "gene" has at least one interval. */
  predicate GeneFeaturesHaveIntervals(fs: seq<Feature>)
  {
    forall i :: 0 <= i < |fs| && fs[i].key == "gene" ==> |fs[i].intervals| > 0
  }

  /** The features keyed "gene", normalised, in feature-table order. */
  function GetGenes(fs: seq<Feature>): (genes: seq<Gene>)
    requires GeneFeaturesHaveIntervals(fs)
    ensures |genes| <= |fs|
    ensures forall g :: g in genes ==> g.start <= g.end
    ensures forall g :: g in genes ==> exists f :: f in fs && f.key == "gene" && |f.intervals| > 0 && g == BasicGeneInfo(f)
    decreases |fs|
  {
    if fs == [] then []
    else
      var rest := GetGenes(fs[1..]);
      assert forall f :: f in fs[1..] ==> f in fs;
      (if fs[0].key == "gene" then [BasicGeneInfo(fs[0])] else []) + rest
  }

  /** `GetGenes` works feature by feature: the genes of a concatenated table are the genes
      of its parts, in order. */
  lemma {:induction false} GetGenesAppend(a: seq<Feature>, b: seq<Feature>)
    requires GeneFeaturesHaveIntervals(a) && GeneFeaturesHaveIntervals(b)
    ensures GeneFeaturesHaveIntervals(a + b)
    ensures GetGenes(a + b) == GetGenes(a) + GetGenes(b)
    decreases |a|
  {
    IntervalsAppend(a, b);
    if a == [] {
      assert a + b == b;
    } else {
      assert (a + b)[0] == a[0];
      assert (a + b)[1..] == a[1..] + b;
      IntervalsAppend(a[1..], b);
      GetGenesAppend(a[1..], b);
      var head := if a[0].key == "gene" then [BasicGeneInfo(a[0])] else [];
      assert GetGenes(a + b) == head + GetGenes(a[1..] + b);
      assert GetGenes(a) == head + GetGenes(a[1..]);
    }
  }

  lemma IntervalsAppend(a: seq<Feature>, b: seq<Feature>)
    requires GeneFeaturesHaveIntervals(a) && GeneFeaturesHaveIntervals(b)
    ensures GeneFeaturesHaveIntervals(a + b)
  {
    forall i | 0 <= i < |a + b| && (a + b)[i].key == "gene" ensures |(a + b)[i].intervals| > 0 {
      if i >= |a| { assert (a + b)[i] == b[i - |a|]; }
    }
  }

  /** A gene feature yields exactly its own record; any other feature yields none. */
  lemma GetGenesSingle(f: Feature)
    requires f.key == "gene" ==> |f.intervals| > 0
    ensures GeneFeaturesHaveIntervals([f])
    ensures GetGenes([f]) == if f.key == "gene" then [BasicGeneInfo(f)] else []
  {
  }
}
