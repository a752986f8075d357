/** The per-scaffold tests of `Outliers.identify` and `Outliers.compatible`: the four signals a scaffold
    is compared on against a genome (GC, tetranucleotide distance, coverage correlation and the mean
    percent error of coverage), the bounds looked up in the reference distributions, the flags each
    test raises and the rule deciding whether a scaffold is reported. */
module Classify {
  import opened Common

  /** Genome coverage below this value is left out of the percent error (`self.min_required_coverage`). */
  const MinRequiredCoverage: real := 0.01

  /** The distributions a scaffold differs in (`identify`) or agrees with (`compatible`). */
  datatype Flag = GC | TD | CovCorr | CovPerc

  /** The position of a flag in the report: GC, TD, COV_CORR, COV_PERC. */
  function Rank(f: Flag): nat
  {
    match f
    case GC => 0
    case TD => 1
    case CovCorr => 2
    case CovPerc => 3
  }

  /** The flags appear in report order, each at most once. */
  predicate InOrder(flags: seq<Flag>)
  {
    forall i, j :: 0 <= i < j < |flags| ==> Rank(flags[i]) < Rank(flags[j])
  }

  /** A scaffold is reported with report type "any" when it has a flag, with "all" when it has at least
      three; with any other report type it is never reported. */
  predicate Reported(reportType: string, count: nat)
  {
    (reportType == "any" && count >= 1) || (reportType == "all" && count >= 3)
  }

  /** The report rule: "all" reports only scaffolds "any" reports, and two flags are not enough for it. */
  lemma ReportRule(reportType: string, count: nat)
    ensures reportType != "any" && reportType != "all" ==> !Reported(reportType, count)
    ensures Reported("all", count) ==> Reported("any", count)
    ensures !Reported("all", 2) && Reported("any", 2)
    ensures count == 0 ==> !Reported(reportType, count)
  {
  }

  /** The statistics of a scaffold: its length, its GC content in percent, its tetranucleotide signature
      and its coverage in each sample. */
  datatype ScaffoldStats = ScaffoldStats(length: int, gc: real, signature: seq<real>, coverage: seq<real>)

  /** The statistics of a genome: mean GC in percent, mean tetranucleotide distance, mean signature and
      mean coverage in each sample. */
  datatype GenomeStats = GenomeStats(meanGc: real, meanTd: real, meanSignature: seq<real>, meanCoverage: seq<real>)

  /** The functions the tests call into: `find_nearest` (the key of a table closest to a value),
      `GenomicSignature.manhattan` and the coefficient `scipy.stats.pearsonr` returns. */
  datatype Numerics = Numerics(nearest: (seq<real>, real) -> real,
                               manhattan: (seq<real>, seq<real>) -> real,
                               pearson: (seq<real>, seq<real>) -> real)

  /** The reference distributions: GC critical values by mean GC, then scaffold length, then percentile;
      tetranucleotide critical values by scaffold length, then percentile. */
  datatype Tables = Tables(gc: Dict<real, Dict<real, Dict<real, real>>>, td: Dict<real, Dict<real, real>>)

  /** The percentiles, the coverage thresholds and the report type the user chose. */
  datatype Thresholds = Thresholds(gcPer: real, tdPer: real, covCorr: real, covPerc: real, reportType: string)

  /** The Python exceptions a lookup can raise: `KeyError` for a missing key, `IndexError` for `keys()[0]`
      of an empty table. */
  datatype LookupError = KeyError | IndexError

  /** The keys computed once per genome: the GC table of the mean GC closest to the genome's, the
      percentile keys of the two GC bounds and the percentile key of the TD bound. */
  datatype GenomeKeys = GenomeKeys(byLength: Dict<real, Dict<real, real>>, lowerKey: real, upperKey: real, tdKey: real)

  /** The critical values a scaffold is compared with. */
  datatype Bounds = Bounds(gcLower: real, gcUpper: real, tdBound: real)

  /** The keys of the distributions for a genome. The percentile keys are taken from the table of the first
      scaffold length of the closest mean GC, and from the table of the first length of the TD distribution. */
  function LookupGenomeKeys(num: Numerics, tables: Tables, gs: GenomeStats, t: Thresholds): Result<GenomeKeys, LookupError>
  {
    match Get(tables.gc, num.nearest(Keys(tables.gc), gs.meanGc / 100.0))
    case None => Err(KeyError)
    case Some(byLength) =>
      if |byLength| == 0 || |tables.td| == 0 then Err(IndexError)
      else
        // `gc_dist[closest_gc][sample_seq_len]` for the first key is the value stored with it.
        var d := byLength[0].1;
        var lowerKey := num.nearest(Keys(d), (100.0 - t.gcPer) / 2.0);
        var upperKey := num.nearest(Keys(d), (100.0 + t.gcPer) / 2.0);
        var tdKey := num.nearest(Keys(tables.td[0].1), t.tdPer);
        Ok(GenomeKeys(byLength, lowerKey, upperKey, tdKey))
  }

  /** The genome's lengths table is the one stored under the mean GC closest to the genome's, and a missing
      key is a `KeyError`, an empty table an `IndexError`; the percentile keys are the closest ones to
      (100 - gc_per) / 2, (100 + gc_per) / 2 and td_per. */
  lemma LookupGenomeKeysCases(num: Numerics, tables: Tables, gs: GenomeStats, t: Thresholds)
    ensures var r := LookupGenomeKeys(num, tables, gs, t);
            var closest := Get(tables.gc, num.nearest(Keys(tables.gc), gs.meanGc / 100.0));
            && (r == Err(KeyError) <==> closest.None?)
            && (r == Err(IndexError) <==> closest.Some? && (|closest.value| == 0 || |tables.td| == 0))
            && (r.Ok? ==> closest == Some(r.value.byLength) && |r.value.byLength| > 0 && |tables.td| > 0
                          && r.value.lowerKey == num.nearest(Keys(r.value.byLength[0].1), (100.0 - t.gcPer) / 2.0)
                          && r.value.upperKey == num.nearest(Keys(r.value.byLength[0].1), (100.0 + t.gcPer) / 2.0)
                          && r.value.tdKey == num.nearest(Keys(tables.td[0].1), t.tdPer))
  {
  }

  /** The bounds for a scaffold of the given length: the critical values at the genome's percentile keys in
      the tables of the scaffold length closest to it. */
  function LookupBounds(num: Numerics, tables: Tables, keys: GenomeKeys, length: int): Result<Bounds, LookupError>
  {
    match Get(keys.byLength, num.nearest(Keys(keys.byLength), length as real))
    case None => Err(KeyError)
    case Some(gcTable) =>
      match (Get(gcTable, keys.lowerKey), Get(gcTable, keys.upperKey))
      case (Some(lower), Some(upper)) =>
        (match Get(tables.td, num.nearest(Keys(tables.td), length as real))
         case None => Err(KeyError)
         case Some(tdTable) =>
           match Get(tdTable, keys.tdKey)
           case None => Err(KeyError)
           case Some(tdBound) => Ok(Bounds(lower, upper, tdBound)))
      case _ => Err(KeyError)
  }

  /** Each bound is a critical value stored in the genome's tables under its percentile key, and the only
      error a scaffold's lookup raises is a `KeyError`. */
  lemma LookupBoundsFound(num: Numerics, tables: Tables, keys: GenomeKeys, length: int)
    ensures var r := LookupBounds(num, tables, keys, length);
            && (r.Ok? ==> exists i, j :: 0 <= i < |keys.byLength| && 0 <= j < |keys.byLength[i].1|
                                         && keys.byLength[i].1[j] == (keys.lowerKey, r.value.gcLower))
            && (r.Ok? ==> exists i, j :: 0 <= i < |keys.byLength| && 0 <= j < |keys.byLength[i].1|
                                         && keys.byLength[i].1[j] == (keys.upperKey, r.value.gcUpper))
            && (r.Ok? ==> exists i, j :: 0 <= i < |tables.td| && 0 <= j < |tables.td[i].1|
                                         && tables.td[i].1[j] == (keys.tdKey, r.value.tdBound))
            && (r.Err? ==> r.error == KeyError)
  {
  }

  /** The absolute percent errors of the scaffold's coverage against the genome's over the first `n`
      paired samples, leaving out samples where the genome's coverage is below the minimum. */
  function PercentErrorsUpTo(genome: seq<real>, scaffold: seq<real>, n: nat): seq<real>
    requires n <= |genome| && n <= |scaffold|
  {
    if n == 0 then []
    else
      var g := genome[n - 1];
      PercentErrorsUpTo(genome, scaffold, n - 1)
      + (if g >= MinRequiredCoverage then [Abs(scaffold[n - 1] - g) * 100.0 / g] else [])
  }

  /** The percent errors over the samples `itertools.izip` pairs up: as many as the shorter list holds. */
  function PercentErrors(genome: seq<real>, scaffold: seq<real>): seq<real>
  {
    PercentErrorsUpTo(genome, scaffold, Min(|genome|, |scaffold|))
  }

  /** Every percent error is non-negative. */
  lemma {:induction false} PercentErrorsNonNegative(genome: seq<real>, scaffold: seq<real>, n: nat)
    requires n <= |genome| && n <= |scaffold|
    ensures forall i :: 0 <= i < |PercentErrorsUpTo(genome, scaffold, n)| ==> PercentErrorsUpTo(genome, scaffold, n)[i] >= 0.0
  {
    if n > 0 {
      PercentErrorsNonNegative(genome, scaffold, n - 1);
      var g := genome[n - 1];
      if g >= MinRequiredCoverage {
        PercentErrorNonNegative(scaffold[n - 1], g);
      }
    }
  }

  /** There is at most one percent error per sample, and there are none exactly when no paired sample of
      the genome reaches the minimum coverage. */
  lemma {:induction false} PercentErrorsNone(genome: seq<real>, scaffold: seq<real>, n: nat)
    requires n <= |genome| && n <= |scaffold|
    ensures |PercentErrorsUpTo(genome, scaffold, n)| <= n
    ensures |PercentErrorsUpTo(genome, scaffold, n)| == 0 <==> forall i :: 0 <= i < n ==> genome[i] < MinRequiredCoverage
  {
    if n > 0 {
      PercentErrorsNone(genome, scaffold, n - 1);
    }
  }

  lemma PercentErrorNonNegative(s: real, g: real)
    requires g >= MinRequiredCoverage
    ensures Abs(s - g) * 100.0 / g >= 0.0
  {
    var x := Abs(s - g) * 100.0;
    assert x >= 0.0;
    assert x / g * g == x;
  }

  /** The loop of `identify` and `compatible` over `izip(gs.mean_coverage, stats.coverage)`. */
  method CoverageErrors(genome: seq<real>, scaffold: seq<real>) returns (errors: seq<real>)
    ensures errors == PercentErrors(genome, scaffold)
  {
    var n := Min(|genome|, |scaffold|);
    errors := [];
    var i := 0;
    while i < n
      invariant 0 <= i <= n
      invariant errors == PercentErrorsUpTo(genome, scaffold, i)
    {
      var g := genome[i];
      if g >= MinRequiredCoverage {
        errors := errors + [Abs(scaffold[i] - g) * 100.0 / g];
      }
      i := i + 1;
    }
  }

  /** The signals of a scaffold against a genome: the GC difference as a fraction, the tetranucleotide
      distance, the coverage correlation (computed only with more than one sample) and the percent errors. */
  datatype Signals = Signals(deltaGc: real, deltaTd: real, corr: Option<real>, errors: seq<real>)

  function Measure(num: Numerics, ss: ScaffoldStats, gs: GenomeStats): (s: Signals)
    ensures s.corr.Some? <==> |gs.meanCoverage| > 1
    ensures s.errors == PercentErrors(gs.meanCoverage, ss.coverage)
  {
    Signals((ss.gc - gs.meanGc) / 100.0,
            num.manhattan(ss.signature, gs.meanSignature),
            if |gs.meanCoverage| > 1 then Some(num.pearson(gs.meanCoverage, ss.coverage)) else None,
            PercentErrors(gs.meanCoverage, ss.coverage))
  }

  /** The mean percent error `compatible` and `identify` compare with `cov_perc`; None when no sample
      qualifies. */
  function MeanError(s: Signals): Option<real>
  {
    Mean(s.errors)
  }

  /** The flags whose tests are set, in report order. */
  function FlagsOf(gc: bool, td: bool, corr: bool, perc: bool): seq<Flag>
  {
    Prepend(gc, GC, Prepend(td, TD, Prepend(corr, CovCorr, Prepend(perc, CovPerc, []))))
  }

  /** `f` in front of `rest` when its test is set. */
  function Prepend(test: bool, f: Flag, rest: seq<Flag>): seq<Flag>
  {
    if test then [f] + rest else rest
  }

  /** Putting a flag of lower rank in front keeps the list in report order. */
  lemma PrependFacts(test: bool, f: Flag, rest: seq<Flag>)
    requires InOrder(rest) && forall i :: 0 <= i < |rest| ==> Rank(f) < Rank(rest[i])
    ensures forall x {:trigger x in Prepend(test, f, rest)} :: x in Prepend(test, f, rest) <==> (test && x == f) || x in rest
    ensures InOrder(Prepend(test, f, rest))
    ensures forall i :: 0 <= i < |Prepend(test, f, rest)| ==> Rank(f) <= Rank(Prepend(test, f, rest)[i])
    ensures |Prepend(test, f, rest)| == |rest| + (if test then 1 else 0)
  {
    var r := Prepend(test, f, rest);
    if test {
      forall i, j | 0 <= i < j < |r|
        ensures Rank(r[i]) < Rank(r[j])
      {
        assert r[j] == rest[j - 1];
        if i > 0 {
          assert r[i] == rest[i - 1];
        }
      }
      forall i | 0 <= i < |r|
        ensures Rank(f) <= Rank(r[i])
      {
        if i > 0 {
          assert r[i] == rest[i - 1];
        }
      }
    }
  }

  /** A flag is listed exactly when its test is set, and the list is in report order. */
  lemma FlagsOfExact(gc: bool, td: bool, corr: bool, perc: bool)
    ensures var flags := FlagsOf(gc, td, corr, perc);
            && (GC in flags <==> gc) && (TD in flags <==> td) && (CovCorr in flags <==> corr) && (CovPerc in flags <==> perc)
            && InOrder(flags)
            && |flags| == (if gc then 1 else 0) + (if td then 1 else 0) + (if corr then 1 else 0) + (if perc then 1 else 0)
  {
    var d := Prepend(perc, CovPerc, []);
    var c := Prepend(corr, CovCorr, d);
    var b := Prepend(td, TD, c);
    FlagsOfLevels(td, corr, perc);
    PrependFacts(gc, GC, b);
    assert Prepend(gc, GC, b) == FlagsOf(gc, td, corr, perc);
  }

  /** The last three levels: TD, COV_CORR and COV_PERC whose tests are set, in order. */
  lemma FlagsOfLevels(td: bool, corr: bool, perc: bool)
    ensures var b := Prepend(td, TD, Prepend(corr, CovCorr, Prepend(perc, CovPerc, [])));
            && (forall x {:trigger x in b} :: x in b <==> (td && x == TD) || (corr && x == CovCorr) || (perc && x == CovPerc))
            && InOrder(b) && (forall i :: 0 <= i < |b| ==> Rank(GC) < Rank(b[i]))
            && |b| == (if td then 1 else 0) + (if corr then 1 else 0) + (if perc then 1 else 0)
  {
    var d := Prepend(perc, CovPerc, []);
    PrependFacts(perc, CovPerc, []);
    var c := Prepend(corr, CovCorr, d);
    PrependFacts(corr, CovCorr, d);
    PrependFacts(td, TD, c);
  }

  /** The flags `identify` raises, in report order. Without a qualifying sample COV_PERC is raised whatever
      the threshold. */
  function OutlierFlags(s: Signals, b: Bounds, t: Thresholds): seq<Flag>
  {
    FlagsOf(s.deltaGc < b.gcLower || s.deltaGc > b.gcUpper,
            s.deltaTd > b.tdBound,
            s.corr.Some? && s.corr.value < t.covCorr,
            MeanError(s).None? || MeanError(s).value > t.covPerc)
  }

  /** The flags `compatible` raises, in report order. Without a qualifying sample the mean is undefined
      (NaN in the source), so COV_PERC is not raised. */
  function CompatibleFlags(s: Signals, b: Bounds, t: Thresholds): seq<Flag>
  {
    FlagsOf(b.gcLower <= s.deltaGc <= b.gcUpper,
            s.deltaTd <= b.tdBound,
            s.corr.Some? && s.corr.value >= t.covCorr,
            MeanError(s).Some? && MeanError(s).value <= t.covPerc)
  }

  /** Each `identify` flag is raised exactly when its test fails, and the flags come in report order. */
  lemma OutlierFlagsExact(s: Signals, b: Bounds, t: Thresholds)
    ensures var flags := OutlierFlags(s, b, t);
            && (GC in flags <==> s.deltaGc < b.gcLower || s.deltaGc > b.gcUpper)
            && (TD in flags <==> s.deltaTd > b.tdBound)
            && (CovCorr in flags <==> s.corr.Some? && s.corr.value < t.covCorr)
            && (CovPerc in flags <==> |s.errors| == 0 || Sum(s.errors) / (|s.errors| as real) > t.covPerc)
            && InOrder(flags)
  {
    FlagsOfExact(s.deltaGc < b.gcLower || s.deltaGc > b.gcUpper,
                 s.deltaTd > b.tdBound,
                 s.corr.Some? && s.corr.value < t.covCorr,
                 MeanError(s).None? || MeanError(s).value > t.covPerc);
  }

  /** Each `compatible` flag is raised exactly when its test passes, and the flags come in report order. */
  lemma CompatibleFlagsExact(s: Signals, b: Bounds, t: Thresholds)
    ensures var flags := CompatibleFlags(s, b, t);
            && (GC in flags <==> b.gcLower <= s.deltaGc <= b.gcUpper)
            && (TD in flags <==> s.deltaTd <= b.tdBound)
            && (CovCorr in flags <==> s.corr.Some? && s.corr.value >= t.covCorr)
            && (CovPerc in flags <==> |s.errors| > 0 && Sum(s.errors) / (|s.errors| as real) <= t.covPerc)
            && InOrder(flags)
  {
    FlagsOfExact(b.gcLower <= s.deltaGc <= b.gcUpper,
                 s.deltaTd <= b.tdBound,
                 s.corr.Some? && s.corr.value >= t.covCorr,
                 MeanError(s).Some? && MeanError(s).value <= t.covPerc);
  }

  /** `compatible` is the mirror of `identify`: each test is negated, except that neither raises COV_CORR
      without a correlation, and without a qualifying sample `identify` raises COV_PERC and `compatible`
      does not. */
  lemma FlagsMirror(s: Signals, b: Bounds, t: Thresholds, f: Flag)
    ensures f == GC || f == TD ==> (f in CompatibleFlags(s, b, t) <==> f !in OutlierFlags(s, b, t))
    ensures f == CovCorr && s.corr.Some? ==> (f in CompatibleFlags(s, b, t) <==> f !in OutlierFlags(s, b, t))
    ensures f == CovCorr && s.corr.None? ==> f !in CompatibleFlags(s, b, t) && f !in OutlierFlags(s, b, t)
    ensures f == CovPerc && |s.errors| > 0 ==> (f in CompatibleFlags(s, b, t) <==> f !in OutlierFlags(s, b, t))
    ensures f == CovPerc && |s.errors| == 0 ==> f !in CompatibleFlags(s, b, t) && f in OutlierFlags(s, b, t)
  {
    OutlierFlagsExact(s, b, t);
    CompatibleFlagsExact(s, b, t);
  }

  /** A scaffold with a single coverage sample is never flagged on correlation, whatever the threshold. */
  lemma SingleSampleNoCorrelation(num: Numerics, ss: ScaffoldStats, gs: GenomeStats, b: Bounds, t: Thresholds)
    requires |gs.meanCoverage| <= 1
    ensures CovCorr !in OutlierFlags(Measure(num, ss, gs), b, t)
    ensures CovCorr !in CompatibleFlags(Measure(num, ss, gs), b, t)
  {
    OutlierFlagsExact(Measure(num, ss, gs), b, t);
    CompatibleFlagsExact(Measure(num, ss, gs), b, t);
  }

  /** A genome without a sample of at least the minimum coverage makes every scaffold a COV_PERC outlier
      and no scaffold COV_PERC compatible. */
  lemma UncoveredGenome(num: Numerics, ss: ScaffoldStats, gs: GenomeStats, b: Bounds, t: Thresholds)
    requires forall i :: 0 <= i < |gs.meanCoverage| ==> gs.meanCoverage[i] < MinRequiredCoverage
    ensures CovPerc in OutlierFlags(Measure(num, ss, gs), b, t)
    ensures CovPerc !in CompatibleFlags(Measure(num, ss, gs), b, t)
  {
    var n := Min(|gs.meanCoverage|, |ss.coverage|);
    PercentErrorsNone(gs.meanCoverage, ss.coverage, n);
    OutlierFlagsExact(Measure(num, ss, gs), b, t);
    CompatibleFlagsExact(Measure(num, ss, gs), b, t);
  }
}
