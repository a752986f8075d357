/** The two reports of `Outliers`: `identify` lists the scaffolds of each genome that diverge from it,
    `compatible` lists the pairs of a scaffold of interest and a genome it agrees with. Both evaluate the
    tests of `Classify` on every pair they visit and write a row for a pair the report rule accepts; a
    failing table lookup raises and ends the report. */
module Outliers {
  import opened Common
  import opened Classify

  /** One row of a report: the scaffold, the genome, the scaffold's length, the flags, and the values
      printed beside them (GC and its bounds in percent, the TD distance and its bound, the mean
      coverages, the correlation and the mean percent error); `compatible` adds the scaffold's gene
      count and percentage of genes with homology. A mean of nothing (NaN in the source) is None. */
  datatype Row = Row(scaffoldId: string, genomeId: string, length: int, flags: seq<Flag>,
                     scaffoldGc: real, genomeGc: real, gcLower: real, gcUpper: real,
                     deltaTd: real, genomeTd: real, tdBound: real,
                     scaffoldCoverage: Option<real>, genomeCoverage: Option<real>, corr: real,
                     meanError: Option<real>, genes: Option<(int, real)>)

  /** What every pair is evaluated with: the numerical functions, the reference distributions and the
      user's thresholds. */
  datatype Inputs = Inputs(num: Numerics, tables: Tables, t: Thresholds)

  /** The row written for a scaffold and a genome. */
  function ReportRow(sid: string, gid: string, ss: ScaffoldStats, gs: GenomeStats, b: Bounds, s: Signals,
                     flags: seq<Flag>, meanError: Option<real>, genes: Option<(int, real)>): Row
  {
    Row(sid, gid, ss.length, flags, ss.gc, gs.meanGc, gs.meanGc + b.gcLower * 100.0, gs.meanGc + b.gcUpper * 100.0,
        s.deltaTd, gs.meanTd, b.tdBound, Mean(ss.coverage), Mean(gs.meanCoverage),
        if s.corr.Some? then s.corr.value else 1.0, meanError, genes)
  }

  /** The value of an option as a list of zero or one elements. */
  function Listed(o: Option<Row>): seq<Row>
  {
    if o.Some? then [o.value] else []
  }

  /** The rows one pair contributes: its row if written, or the error its lookups raised. */
  function AsRows(o: Result<Option<Row>, LookupError>): (r: Result<seq<Row>, LookupError>)
    ensures r.Err? <==> o.Err?
  {
    match o
    case Err(e) => Err(e)
    case Ok(x) => Ok(Listed(x))
  }

  /** A pair contributes the row `row` exactly when it writes it. */
  lemma AsRowsExact(o: Result<Option<Row>, LookupError>, row: Row)
    ensures AsRows(o).Ok? && row in AsRows(o).value <==> o == Ok(Some(row))
  {
  }

  // ---------------------------------------------------------------------------------------------------
  // identify

  /** `identify` on scaffold `sid` of genome `gid`: its stats are looked up, then its bounds; the row is
      written when the report rule accepts its flags. With no qualifying sample the mean error is -1. */
  function PairOutlier(ctx: Inputs, gid: string, gs: GenomeStats, keys: GenomeKeys, sid: string,
                       stats: Dict<string, ScaffoldStats>): Result<Option<Row>, LookupError>
  {
    match Get(stats, sid)
    case None => Err(KeyError)
    case Some(ss) =>
      match LookupBounds(ctx.num, ctx.tables, keys, ss.length)
      case Err(e) => Err(e)
      case Ok(b) =>
        var s := Measure(ctx.num, ss, gs);
        var flags := OutlierFlags(s, b, ctx.t);
        if Reported(ctx.t.reportType, |flags|) then
          Ok(Some(ReportRow(sid, gid, ss, gs, b, s, flags, if |s.errors| == 0 then Some(-1.0) else MeanError(s), None)))
        else Ok(None)
  }

  /** What each scaffold of a genome contributes to `identify`, in the order of the genome's scaffold list. */
  function ScaffoldParts(ctx: Inputs, gid: string, gs: GenomeStats, keys: GenomeKeys, sids: seq<string>,
                         stats: Dict<string, ScaffoldStats>): (parts: seq<Result<seq<Row>, LookupError>>)
    ensures |parts| == |sids|
  {
    seq(|sids|, i requires 0 <= i < |sids| => AsRows(PairOutlier(ctx, gid, gs, keys, sids[i], stats)))
  }

  /** The rows for one genome: its stats and its distribution keys are looked up first, even when it has
      no scaffolds; then the rows of its scaffolds in order, or the first error. */
  function GenomeOutliers(ctx: Inputs, gid: string, sids: seq<string>, stats: Dict<string, ScaffoldStats>,
                          genomes: Dict<string, GenomeStats>): Result<seq<Row>, LookupError>
  {
    match Get(genomes, gid)
    case None => Err(KeyError)
    case Some(gs) =>
      match LookupGenomeKeys(ctx.num, ctx.tables, gs, ctx.t)
      case Err(e) => Err(e)
      case Ok(keys) => Flatten(ScaffoldParts(ctx, gid, gs, keys, sids, stats), |sids|)
  }

  /** What each genome of `scaffolds_in_genome` contributes to `identify`, in its order. */
  function GenomeParts(ctx: Inputs, sig: Dict<string, seq<string>>, stats: Dict<string, ScaffoldStats>,
                       genomes: Dict<string, GenomeStats>): (parts: seq<Result<seq<Row>, LookupError>>)
    ensures |parts| == |sig|
  {
    seq(|sig|, g requires 0 <= g < |sig| => GenomeOutliers(ctx, sig[g].0, sig[g].1, stats, genomes))
  }

  /** The report of `identify`: the rows of every genome in turn, or the first error raised. */
  function OutlierReport(ctx: Inputs, sig: Dict<string, seq<string>>, stats: Dict<string, ScaffoldStats>,
                         genomes: Dict<string, GenomeStats>): Result<seq<Row>, LookupError>
  {
    Flatten(GenomeParts(ctx, sig, stats, genomes), |sig|)
  }

  /** `identify`: the outlier rows of every genome in turn. */
  method Identify(ctx: Inputs, sig: Dict<string, seq<string>>, stats: Dict<string, ScaffoldStats>,
                  genomes: Dict<string, GenomeStats>)
    returns (r: Result<seq<Row>, LookupError>)
    ensures r == OutlierReport(ctx, sig, stats, genomes)
  {
    ghost var parts := GenomeParts(ctx, sig, stats, genomes);
    r := IdentifyGenomes(ctx, sig, stats, genomes, parts);
  }

  /** Part `i` of a loop's parts, named so that the facts about each part are looked up only where a step
      asks for them. */
  function PartAt(parts: seq<Result<seq<Row>, LookupError>>, i: int): Result<seq<Row>, LookupError>
    requires 0 <= i < |parts|
  {
    parts[i]
  }

  /** `parts` lists what each genome of `scaffolds_in_genome` contributes to `identify`. */
  ghost predicate GenomePartsAre(parts: seq<Result<seq<Row>, LookupError>>, ctx: Inputs, sig: Dict<string, seq<string>>,
                                 stats: Dict<string, ScaffoldStats>, genomes: Dict<string, GenomeStats>)
  {
    |parts| == |sig| && forall g {:trigger PartAt(parts, g)} :: 0 <= g < |sig| ==> PartAt(parts, g) == GenomeOutliers(ctx, sig[g].0, sig[g].1, stats, genomes)
  }

  /** The genome loop of `identify`; once a lookup has raised nothing more is computed. */
  method IdentifyGenomes(ctx: Inputs, sig: Dict<string, seq<string>>, stats: Dict<string, ScaffoldStats>,
                         genomes: Dict<string, GenomeStats>, ghost parts: seq<Result<seq<Row>, LookupError>>)
    returns (r: Result<seq<Row>, LookupError>)
    requires GenomePartsAre(parts, ctx, sig, stats, genomes)
    ensures r == Flatten(parts, |sig|)
  {
    r := Ok([]);
    var g := 0;
    while g < |sig|
      invariant 0 <= g <= |sig|
      invariant Flatten(parts, g) == r
    {
      r := IdentifyStep(ctx, sig, stats, genomes, parts, g, r);
      g := g + 1;
    }
  }

  /** One pass of the genome loop of `identify`: the rows of genome `g` follow those before it. */
  method IdentifyStep(ctx: Inputs, sig: Dict<string, seq<string>>, stats: Dict<string, ScaffoldStats>,
                      genomes: Dict<string, GenomeStats>, ghost parts: seq<Result<seq<Row>, LookupError>>, g: nat,
                      prev: Result<seq<Row>, LookupError>)
    returns (r: Result<seq<Row>, LookupError>)
    requires GenomePartsAre(parts, ctx, sig, stats, genomes)
    requires g < |sig| && Flatten(parts, g) == prev
    ensures r == Flatten(parts, g + 1)
  {
    if prev.Err? {
      return prev;
    }
    var more := IdentifyGenome(ctx, sig[g].0, sig[g].1, stats, genomes);
    assert more == PartAt(parts, g);
    if more.Err? {
      return Err(more.error);
    }
    return Ok(prev.value + more.value);
  }

  /** The rows `identify` writes for one genome. */
  method IdentifyGenome(ctx: Inputs, gid: string, sids: seq<string>, stats: Dict<string, ScaffoldStats>,
                        genomes: Dict<string, GenomeStats>)
    returns (r: Result<seq<Row>, LookupError>)
    ensures r == GenomeOutliers(ctx, gid, sids, stats, genomes)
  {
    var gs := Get(genomes, gid);
    if gs.None? {
      return Err(KeyError);
    }
    var keys := LookupGenomeKeys(ctx.num, ctx.tables, gs.value, ctx.t);
    if keys.Err? {
      return Err(keys.error);
    }
    ghost var parts := ScaffoldParts(ctx, gid, gs.value, keys.value, sids, stats);
    r := IdentifyScaffolds(ctx, gid, gs.value, keys.value, sids, stats, parts);
  }

  /** `parts` lists what each scaffold of a genome contributes to `identify`. */
  ghost predicate ScaffoldPartsAre(parts: seq<Result<seq<Row>, LookupError>>, ctx: Inputs, gid: string, gs: GenomeStats,
                                   keys: GenomeKeys, sids: seq<string>, stats: Dict<string, ScaffoldStats>)
  {
    |parts| == |sids| && forall i {:trigger PartAt(parts, i)} :: 0 <= i < |sids| ==> PartAt(parts, i) == AsRows(PairOutlier(ctx, gid, gs, keys, sids[i], stats))
  }

  /** The scaffold loop of `identify` for one genome; once a lookup has raised nothing more is computed. */
  method IdentifyScaffolds(ctx: Inputs, gid: string, gs: GenomeStats, keys: GenomeKeys, sids: seq<string>,
                           stats: Dict<string, ScaffoldStats>, ghost parts: seq<Result<seq<Row>, LookupError>>)
    returns (r: Result<seq<Row>, LookupError>)
    requires ScaffoldPartsAre(parts, ctx, gid, gs, keys, sids, stats)
    ensures r == Flatten(parts, |sids|)
  {
    r := Ok([]);
    var k := 0;
    while k < |sids|
      invariant 0 <= k <= |sids|
      invariant Flatten(parts, k) == r
    {
      r := IdentifyScaffoldStep(ctx, gid, gs, keys, sids, stats, parts, k, r);
      k := k + 1;
    }
  }

  /** One pass of the scaffold loop of `identify`: the row of scaffold `k`, if written, follows those before it. */
  method IdentifyScaffoldStep(ctx: Inputs, gid: string, gs: GenomeStats, keys: GenomeKeys, sids: seq<string>,
                              stats: Dict<string, ScaffoldStats>, ghost parts: seq<Result<seq<Row>, LookupError>>,
                              k: nat, prev: Result<seq<Row>, LookupError>)
    returns (r: Result<seq<Row>, LookupError>)
    requires ScaffoldPartsAre(parts, ctx, gid, gs, keys, sids, stats)
    requires k < |sids| && Flatten(parts, k) == prev
    ensures r == Flatten(parts, k + 1)
  {
    if prev.Err? {
      return prev;
    }
    var o := AssessOutlier(ctx, gid, gs, keys, sids[k], stats);
    assert AsRows(o) == PartAt(parts, k);
    if o.Err? {
      return Err(o.error);
    }
    return Ok(prev.value + Listed(o.value));
  }

  /** The body of the scaffold loop of `identify`: the lookups, the tests, then the report rule. */
  method AssessOutlier(ctx: Inputs, gid: string, gs: GenomeStats, keys: GenomeKeys, sid: string,
                       stats: Dict<string, ScaffoldStats>)
    returns (r: Result<Option<Row>, LookupError>)
    ensures r == PairOutlier(ctx, gid, gs, keys, sid, stats)
  {
    var found := Get(stats, sid);
    if found.None? {
      return Err(KeyError);
    }
    var ss := found.value;
    var bounds := LookupBounds(ctx.num, ctx.tables, keys, ss.length);
    if bounds.Err? {
      return Err(bounds.error);
    }
    var b := bounds.value;
    var s, flags, meanError := OutlierTests(ctx, ss, gs, b);
    if Reported(ctx.t.reportType, |flags|) {
      r := Ok(Some(ReportRow(sid, gid, ss, gs, b, s, flags, meanError, None)));
    } else {
      r := Ok(None);
    }
  }

  /** The four tests of `identify`, each appending its flag when the scaffold fails it; with no
      qualifying sample the mean error is -1 and COV_PERC is appended. */
  method OutlierTests(ctx: Inputs, ss: ScaffoldStats, gs: GenomeStats, b: Bounds)
    returns (s: Signals, flags: seq<Flag>, meanError: Option<real>)
    ensures s == Measure(ctx.num, ss, gs)
    ensures flags == OutlierFlags(s, b, ctx.t)
    ensures meanError == if |s.errors| == 0 then Some(-1.0) else MeanError(s)
  {
    s := MeasureSignals(ctx.num, ss, gs);
    var gcOut := s.deltaGc < b.gcLower || s.deltaGc > b.gcUpper;
    var tdOut := s.deltaTd > b.tdBound;
    var corrOut := s.corr.Some? && s.corr.value < ctx.t.covCorr;
    var percOut: bool;
    if |s.errors| == 0 {
      meanError, percOut := Some(-1.0), true;
    } else {
      meanError := Mean(s.errors);
      percOut := meanError.value > ctx.t.covPerc;
    }
    flags := AppendFlags(gcOut, tdOut, corrOut, percOut);
  }

  /** The flags of the tests that are set, appended one after another in report order. */
  method AppendFlags(gc: bool, td: bool, corr: bool, perc: bool) returns (flags: seq<Flag>)
    ensures flags == FlagsOf(gc, td, corr, perc)
  {
    flags := [];
    if gc {
      flags := flags + [GC];
    }
    if td {
      flags := flags + [TD];
    }
    if corr {
      flags := flags + [CovCorr];
    }
    if perc {
      flags := flags + [CovPerc];
    }
    FlagsOfAppend(gc, td, corr, perc);
  }

  /** The signals both reports compute: the GC difference, the tetranucleotide distance, the correlation when
      there is more than one sample, and the percent errors. */
  method MeasureSignals(num: Numerics, ss: ScaffoldStats, gs: GenomeStats) returns (s: Signals)
    ensures s == Measure(num, ss, gs)
  {
    var deltaGc := (ss.gc - gs.meanGc) / 100.0;
    var deltaTd := num.manhattan(ss.signature, gs.meanSignature);
    var corr: Option<real> := None;
    if |gs.meanCoverage| > 1 {
      corr := Some(num.pearson(gs.meanCoverage, ss.coverage));
    }
    var errors := CoverageErrors(gs.meanCoverage, ss.coverage);
    s := Signals(deltaGc, deltaTd, corr, errors);
  }

  /** The flags built by appending one test after another are those of `FlagsOf`. */
  lemma FlagsOfAppend(gc: bool, td: bool, corr: bool, perc: bool)
    ensures FlagsOf(gc, td, corr, perc)
            == [] + (if gc then [GC] else []) + (if td then [TD] else []) + (if corr then [CovCorr] else [])
               + (if perc then [CovPerc] else [])
  {
  }

  // ---------------------------------------------------------------------------------------------------
  // compatible

  /** `compatible` on scaffold `sid` and genome `gid`: the genome's keys and the scaffold's bounds are looked
      up for every pair; the row, carrying the scaffold's gene counts, is written when the report rule
      accepts the distributions the scaffold agrees with. */
  function PairCompatible(ctx: Inputs, sid: string, ss: ScaffoldStats, genes: (int, real), gid: string,
                          gs: GenomeStats): Result<Option<Row>, LookupError>
  {
    match LookupGenomeKeys(ctx.num, ctx.tables, gs, ctx.t)
    case Err(e) => Err(e)
    case Ok(keys) =>
      match LookupBounds(ctx.num, ctx.tables, keys, ss.length)
      case Err(e) => Err(e)
      case Ok(b) =>
        var s := Measure(ctx.num, ss, gs);
        var flags := CompatibleFlags(s, b, ctx.t);
        if Reported(ctx.t.reportType, |flags|) then
          Ok(Some(ReportRow(sid, gid, ss, gs, b, s, flags, MeanError(s), Some(genes))))
        else Ok(None)
  }

  /** What each genome contributes to the rows of one scaffold of interest, in the order of the genomes. */
  function GenomeCompatibleParts(ctx: Inputs, sid: string, ss: ScaffoldStats, genes: (int, real),
                                 genomes: Dict<string, GenomeStats>): (parts: seq<Result<seq<Row>, LookupError>>)
    ensures |parts| == |genomes|
  {
    seq(|genomes|, j requires 0 <= j < |genomes| => AsRows(PairCompatible(ctx, sid, ss, genes, genomes[j].0, genomes[j].1)))
  }

  /** The rows of one scaffold: none unless it is a scaffold of interest, else the rows of the genomes in
      order, or the first error. */
  function ScaffoldCompatible(ctx: Inputs, interest: Dict<string, (int, real)>, genomes: Dict<string, GenomeStats>,
                              sid: string, ss: ScaffoldStats): Result<seq<Row>, LookupError>
  {
    match Get(interest, sid)
    case None => Ok([])
    case Some(genes) => Flatten(GenomeCompatibleParts(ctx, sid, ss, genes, genomes), |genomes|)
  }

  /** What each scaffold of the scaffold statistics contributes to `compatible`, in their order. */
  function CompatibleParts(ctx: Inputs, interest: Dict<string, (int, real)>, stats: Dict<string, ScaffoldStats>,
                           genomes: Dict<string, GenomeStats>): (parts: seq<Result<seq<Row>, LookupError>>)
    ensures |parts| == |stats|
  {
    seq(|stats|, i requires 0 <= i < |stats| => ScaffoldCompatible(ctx, interest, genomes, stats[i].0, stats[i].1))
  }

  /** The report of `compatible`: the rows of every scaffold in turn, or the first error raised. */
  function CompatibleReport(ctx: Inputs, interest: Dict<string, (int, real)>, stats: Dict<string, ScaffoldStats>,
                            genomes: Dict<string, GenomeStats>): Result<seq<Row>, LookupError>
  {
    Flatten(CompatibleParts(ctx, interest, stats, genomes), |stats|)
  }

  /** `compatible`: the rows of every scaffold of interest in turn. */
  method Compatible(ctx: Inputs, interest: Dict<string, (int, real)>, stats: Dict<string, ScaffoldStats>,
                    genomes: Dict<string, GenomeStats>)
    returns (r: Result<seq<Row>, LookupError>)
    ensures r == CompatibleReport(ctx, interest, stats, genomes)
  {
    ghost var parts := CompatibleParts(ctx, interest, stats, genomes);
    r := CompatibleScaffolds(ctx, interest, stats, genomes, parts);
  }

  /** `parts` lists what each scaffold of the scaffold statistics contributes to `compatible`. */
  ghost predicate CompatiblePartsAre(parts: seq<Result<seq<Row>, LookupError>>, ctx: Inputs, interest: Dict<string, (int, real)>,
                                     stats: Dict<string, ScaffoldStats>, genomes: Dict<string, GenomeStats>)
  {
    |parts| == |stats| && forall i {:trigger PartAt(parts, i)} :: 0 <= i < |stats| ==> PartAt(parts, i) == ScaffoldCompatible(ctx, interest, genomes, stats[i].0, stats[i].1)
  }

  /** The scaffold loop of `compatible`; once a lookup has raised nothing more is computed. */
  method CompatibleScaffolds(ctx: Inputs, interest: Dict<string, (int, real)>, stats: Dict<string, ScaffoldStats>,
                             genomes: Dict<string, GenomeStats>, ghost parts: seq<Result<seq<Row>, LookupError>>)
    returns (r: Result<seq<Row>, LookupError>)
    requires CompatiblePartsAre(parts, ctx, interest, stats, genomes)
    ensures r == Flatten(parts, |stats|)
  {
    r := Ok([]);
    var n := 0;
    while n < |stats|
      invariant 0 <= n <= |stats|
      invariant Flatten(parts, n) == r
    {
      r := CompatibleStep(ctx, interest, stats, genomes, parts, n, r);
      n := n + 1;
    }
  }

  /** One pass of the scaffold loop of `compatible`. */
  method CompatibleStep(ctx: Inputs, interest: Dict<string, (int, real)>, stats: Dict<string, ScaffoldStats>,
                        genomes: Dict<string, GenomeStats>, ghost parts: seq<Result<seq<Row>, LookupError>>, n: nat,
                        prev: Result<seq<Row>, LookupError>)
    returns (r: Result<seq<Row>, LookupError>)
    requires CompatiblePartsAre(parts, ctx, interest, stats, genomes)
    requires n < |stats| && Flatten(parts, n) == prev
    ensures r == Flatten(parts, n + 1)
  {
    if prev.Err? {
      return prev;
    }
    var more := CompatibleScaffold(ctx, interest, genomes, stats[n].0, stats[n].1);
    assert more == PartAt(parts, n);
    if more.Err? {
      return Err(more.error);
    }
    return Ok(prev.value + more.value);
  }

  /** The rows `compatible` writes for one scaffold: a scaffold that is not of interest is skipped. */
  method CompatibleScaffold(ctx: Inputs, interest: Dict<string, (int, real)>, genomes: Dict<string, GenomeStats>,
                            sid: string, ss: ScaffoldStats)
    returns (r: Result<seq<Row>, LookupError>)
    ensures r == ScaffoldCompatible(ctx, interest, genomes, sid, ss)
  {
    var genes := Get(interest, sid);
    if genes.None? {
      return Ok([]);
    }
    ghost var parts := GenomeCompatibleParts(ctx, sid, ss, genes.value, genomes);
    r := CompatibleGenomes(ctx, sid, ss, genes.value, genomes, parts);
  }

  /** `parts` lists what each genome contributes to the rows of one scaffold of interest. */
  ghost predicate GenomeCompatiblePartsAre(parts: seq<Result<seq<Row>, LookupError>>, ctx: Inputs, sid: string, ss: ScaffoldStats,
                                           genes: (int, real), genomes: Dict<string, GenomeStats>)
  {
    |parts| == |genomes| && forall j {:trigger PartAt(parts, j)} :: 0 <= j < |genomes| ==> PartAt(parts, j) == AsRows(PairCompatible(ctx, sid, ss, genes, genomes[j].0, genomes[j].1))
  }

  /** The genome loop of `compatible` for one scaffold of interest. */
  method CompatibleGenomes(ctx: Inputs, sid: string, ss: ScaffoldStats, genes: (int, real),
                           genomes: Dict<string, GenomeStats>, ghost parts: seq<Result<seq<Row>, LookupError>>)
    returns (r: Result<seq<Row>, LookupError>)
    requires GenomeCompatiblePartsAre(parts, ctx, sid, ss, genes, genomes)
    ensures r == Flatten(parts, |genomes|)
  {
    r := Ok([]);
    var n := 0;
    while n < |genomes|
      invariant 0 <= n <= |genomes|
      invariant Flatten(parts, n) == r
    {
      r := CompatibleGenomeStep(ctx, sid, ss, genes, genomes, parts, n, r);
      n := n + 1;
    }
  }

  /** One pass of the genome loop of `compatible`. */
  method CompatibleGenomeStep(ctx: Inputs, sid: string, ss: ScaffoldStats, genes: (int, real),
                              genomes: Dict<string, GenomeStats>, ghost parts: seq<Result<seq<Row>, LookupError>>,
                              n: nat, prev: Result<seq<Row>, LookupError>)
    returns (r: Result<seq<Row>, LookupError>)
    requires GenomeCompatiblePartsAre(parts, ctx, sid, ss, genes, genomes)
    requires n < |genomes| && Flatten(parts, n) == prev
    ensures r == Flatten(parts, n + 1)
  {
    if prev.Err? {
      return prev;
    }
    var o := AssessCompatible(ctx, sid, ss, genes, genomes[n].0, genomes[n].1);
    assert AsRows(o) == PartAt(parts, n);
    if o.Err? {
      return Err(o.error);
    }
    return Ok(prev.value + Listed(o.value));
  }

  /** The body of the genome loop of `compatible`: the lookups, the tests, then the report rule. */
  method AssessCompatible(ctx: Inputs, sid: string, ss: ScaffoldStats, genes: (int, real), gid: string,
                          gs: GenomeStats)
    returns (r: Result<Option<Row>, LookupError>)
    ensures r == PairCompatible(ctx, sid, ss, genes, gid, gs)
  {
    var keys := LookupGenomeKeys(ctx.num, ctx.tables, gs, ctx.t);
    if keys.Err? {
      return Err(keys.error);
    }
    var bounds := LookupBounds(ctx.num, ctx.tables, keys.value, ss.length);
    if bounds.Err? {
      return Err(bounds.error);
    }
    var b := bounds.value;
    var s, flags, meanError := CompatibleTests(ctx, ss, gs, b);
    if Reported(ctx.t.reportType, |flags|) {
      r := Ok(Some(ReportRow(sid, gid, ss, gs, b, s, flags, meanError, Some(genes))));
    } else {
      r := Ok(None);
    }
  }

  /** The four tests of `compatible`, each appending its flag when the scaffold passes it; with no
      qualifying sample the mean error is undefined and COV_PERC is not appended. */
  method CompatibleTests(ctx: Inputs, ss: ScaffoldStats, gs: GenomeStats, b: Bounds)
    returns (s: Signals, flags: seq<Flag>, meanError: Option<real>)
    ensures s == Measure(ctx.num, ss, gs)
    ensures flags == CompatibleFlags(s, b, ctx.t)
    ensures meanError == MeanError(s)
  {
    s := MeasureSignals(ctx.num, ss, gs);
    var gcIn := b.gcLower <= s.deltaGc && s.deltaGc <= b.gcUpper;
    var tdIn := s.deltaTd <= b.tdBound;
    var corrIn := s.corr.Some? && s.corr.value >= ctx.t.covCorr;
    meanError := Mean(s.errors);
    var percIn := meanError.Some? && meanError.value <= ctx.t.covPerc;
    flags := AppendFlags(gcIn, tdIn, corrIn, percIn);
  }

  // ---------------------------------------------------------------------------------------------------
  // What a row says

  /** GC difference and printed bounds: the fraction `delta_gc` lies below the lower critical value
      exactly when the scaffold's GC lies below the printed lower bound, and likewise above. */
  lemma PrintedGcBounds(gc: real, meanGc: real, b: Bounds)
    ensures (gc - meanGc) / 100.0 < b.gcLower <==> gc < meanGc + b.gcLower * 100.0
    ensures (gc - meanGc) / 100.0 > b.gcUpper <==> gc > meanGc + b.gcUpper * 100.0
  {
  }

  /** With at least one qualifying sample the mean percent error is non-negative, so it is never the -1
      `identify` prints for none. */
  lemma MeanErrorNonNegative(s: Signals)
    requires |s.errors| > 0 && forall i :: 0 <= i < |s.errors| ==> s.errors[i] >= 0.0
    ensures MeanError(s).Some? && MeanError(s).value >= 0.0
  {
    SumNonNegative(s.errors);
    var n := |s.errors| as real;
    var m := Sum(s.errors) / n;
    assert m * n == Sum(s.errors);
  }

  /** The percent errors of a scaffold are non-negative, and there are none exactly when no paired sample
      of the genome reaches the minimum coverage. */
  lemma ErrorsFacts(num: Numerics, ss: ScaffoldStats, gs: GenomeStats)
    ensures var errors := Measure(num, ss, gs).errors;
            && (forall i :: 0 <= i < |errors| ==> errors[i] >= 0.0)
            && (|errors| == 0 <==> forall i :: 0 <= i < |gs.meanCoverage| && i < |ss.coverage| ==> gs.meanCoverage[i] < MinRequiredCoverage)
  {
    var n := Min(|gs.meanCoverage|, |ss.coverage|);
    PercentErrorsNonNegative(gs.meanCoverage, ss.coverage, n);
    PercentErrorsNone(gs.meanCoverage, ss.coverage, n);
  }

  /** An `identify` row is for the pair it was computed for, passes the report rule, and explains its flags
      by the values printed beside them: a flag is listed exactly when the printed value is outside its
      printed bound. The mean error is -1 exactly when no sample reaches the minimum coverage. */
  lemma OutlierRowExplained(ctx: Inputs, gid: string, gs: GenomeStats, keys: GenomeKeys, sid: string,
                            stats: Dict<string, ScaffoldStats>, row: Row)
    requires PairOutlier(ctx, gid, gs, keys, sid, stats) == Ok(Some(row))
    ensures row.scaffoldId == sid && row.genomeId == gid && row.genes.None?
    ensures Reported(ctx.t.reportType, |row.flags|) && InOrder(row.flags)
    ensures GC in row.flags <==> row.scaffoldGc < row.gcLower || row.scaffoldGc > row.gcUpper
    ensures TD in row.flags <==> row.deltaTd > row.tdBound
    ensures CovCorr in row.flags <==> |gs.meanCoverage| > 1 && row.corr < ctx.t.covCorr
    ensures row.meanError.Some?
    ensures CovPerc in row.flags <==> row.meanError.value == -1.0 || row.meanError.value > ctx.t.covPerc
    ensures row.meanError.value == -1.0 <==>
              forall i :: 0 <= i < |gs.meanCoverage| && i < |Get(stats, sid).value.coverage| ==> gs.meanCoverage[i] < MinRequiredCoverage
  {
    var ss := Get(stats, sid).value;
    var b := LookupBounds(ctx.num, ctx.tables, keys, ss.length).value;
    var s := Measure(ctx.num, ss, gs);
    OutlierFlagsExact(s, b, ctx.t);
    PrintedGcBounds(ss.gc, gs.meanGc, b);
    ErrorsFacts(ctx.num, ss, gs);
    if |s.errors| > 0 {
      MeanErrorNonNegative(s);
    }
  }

  /** A `compatible` row is for the pair it was computed for and carries the scaffold's gene counts, passes
      the report rule, and explains its flags by the values printed beside them: a flag is listed exactly
      when the printed value is within its printed bound. The mean error is undefined exactly when no sample
      reaches the minimum coverage. */
  lemma CompatibleRowExplained(ctx: Inputs, sid: string, ss: ScaffoldStats, genes: (int, real), gid: string,
                               gs: GenomeStats, row: Row)
    requires PairCompatible(ctx, sid, ss, genes, gid, gs) == Ok(Some(row))
    ensures row.scaffoldId == sid && row.genomeId == gid && row.genes == Some(genes)
    ensures Reported(ctx.t.reportType, |row.flags|) && InOrder(row.flags)
    ensures GC in row.flags <==> row.gcLower <= row.scaffoldGc <= row.gcUpper
    ensures TD in row.flags <==> row.deltaTd <= row.tdBound
    ensures CovCorr in row.flags <==> |gs.meanCoverage| > 1 && row.corr >= ctx.t.covCorr
    ensures CovPerc in row.flags <==> row.meanError.Some? && row.meanError.value <= ctx.t.covPerc
    ensures row.meanError.None? <==>
              forall i :: 0 <= i < |gs.meanCoverage| && i < |ss.coverage| ==> gs.meanCoverage[i] < MinRequiredCoverage
  {
    var keys := LookupGenomeKeys(ctx.num, ctx.tables, gs, ctx.t).value;
    var b := LookupBounds(ctx.num, ctx.tables, keys, ss.length).value;
    var s := Measure(ctx.num, ss, gs);
    CompatibleFlagsExact(s, b, ctx.t);
    PrintedGcBounds(ss.gc, gs.meanGc, b);
    ErrorsFacts(ctx.num, ss, gs);
  }

  // ---------------------------------------------------------------------------------------------------
  // identify: which rows the report holds, and which error it raises

  /** Row `row` is the one `identify` writes for scaffold `i` of genome `g` of `scaffolds_in_genome`. */
  ghost predicate OutlierAt(ctx: Inputs, sig: Dict<string, seq<string>>, stats: Dict<string, ScaffoldStats>,
                            genomes: Dict<string, GenomeStats>, g: int, i: int, row: Row)
  {
    && 0 <= g < |sig| && 0 <= i < |sig[g].1|
    && Get(genomes, sig[g].0).Some?
    && LookupGenomeKeys(ctx.num, ctx.tables, Get(genomes, sig[g].0).value, ctx.t).Ok?
    && PairOutlier(ctx, sig[g].0, Get(genomes, sig[g].0).value,
                   LookupGenomeKeys(ctx.num, ctx.tables, Get(genomes, sig[g].0).value, ctx.t).value,
                   sig[g].1[i], stats) == Ok(Some(row))
  }

  /** The completed scaffold loop of one genome holds exactly the rows written for its scaffolds. */
  lemma ScaffoldRowsOf(ctx: Inputs, gid: string, gs: GenomeStats, keys: GenomeKeys, sids: seq<string>,
                       stats: Dict<string, ScaffoldStats>, parts: seq<Result<seq<Row>, LookupError>>, row: Row)
    requires ScaffoldPartsAre(parts, ctx, gid, gs, keys, sids, stats) && Flatten(parts, |sids|).Ok?
    ensures row in Flatten(parts, |sids|).value <==>
              exists i :: 0 <= i < |sids| && PairOutlier(ctx, gid, gs, keys, sids[i], stats) == Ok(Some(row))
  {
    FlattenExact(parts, |sids|, row);
    forall i | 0 <= i < |sids|
      ensures (parts[i].Ok? && row in parts[i].value) <==> PairOutlier(ctx, gid, gs, keys, sids[i], stats) == Ok(Some(row))
    {
      assert PartAt(parts, i) == AsRows(PairOutlier(ctx, gid, gs, keys, sids[i], stats));
      AsRowsExact(PairOutlier(ctx, gid, gs, keys, sids[i], stats), row);
    }
  }

  /** The rows a completed genome contributes are exactly those written for its scaffolds. */
  lemma GenomeRowsExact(ctx: Inputs, sig: Dict<string, seq<string>>, stats: Dict<string, ScaffoldStats>,
                        genomes: Dict<string, GenomeStats>, g: int, row: Row)
    requires 0 <= g < |sig| && GenomeOutliers(ctx, sig[g].0, sig[g].1, stats, genomes).Ok?
    ensures row in GenomeOutliers(ctx, sig[g].0, sig[g].1, stats, genomes).value <==>
              exists i :: OutlierAt(ctx, sig, stats, genomes, g, i, row)
  {
    var gs := Get(genomes, sig[g].0).value;
    var keys := LookupGenomeKeys(ctx.num, ctx.tables, gs, ctx.t).value;
    var parts := ScaffoldParts(ctx, sig[g].0, gs, keys, sig[g].1, stats);
    assert ScaffoldPartsAre(parts, ctx, sig[g].0, gs, keys, sig[g].1, stats);
    assert GenomeOutliers(ctx, sig[g].0, sig[g].1, stats, genomes) == Flatten(parts, |sig[g].1|);
    ScaffoldRowsOf(ctx, sig[g].0, gs, keys, sig[g].1, stats, parts, row);
    if row in Flatten(parts, |sig[g].1|).value {
      var i :| 0 <= i < |sig[g].1| && PairOutlier(ctx, sig[g].0, gs, keys, sig[g].1[i], stats) == Ok(Some(row));
      assert OutlierAt(ctx, sig, stats, genomes, g, i, row);
    }
    if exists i :: OutlierAt(ctx, sig, stats, genomes, g, i, row) {
      var i :| OutlierAt(ctx, sig, stats, genomes, g, i, row);
      assert PairOutlier(ctx, sig[g].0, gs, keys, sig[g].1[i], stats) == Ok(Some(row));
    }
  }

  /** The completed genome loop holds exactly the rows written for the scaffolds of each genome. */
  lemma GenomeRowsOf(ctx: Inputs, sig: Dict<string, seq<string>>, stats: Dict<string, ScaffoldStats>,
                     genomes: Dict<string, GenomeStats>, parts: seq<Result<seq<Row>, LookupError>>, row: Row)
    requires GenomePartsAre(parts, ctx, sig, stats, genomes) && Flatten(parts, |sig|).Ok?
    ensures row in Flatten(parts, |sig|).value <==> exists g, i :: OutlierAt(ctx, sig, stats, genomes, g, i, row)
  {
    FlattenExact(parts, |sig|, row);
    FlattenOk(parts, |sig|);
    if row in Flatten(parts, |sig|).value {
      var g :| 0 <= g < |sig| && parts[g].Ok? && row in parts[g].value;
      assert PartAt(parts, g) == GenomeOutliers(ctx, sig[g].0, sig[g].1, stats, genomes);
      GenomeRowsExact(ctx, sig, stats, genomes, g, row);
    }
    if exists g, i :: OutlierAt(ctx, sig, stats, genomes, g, i, row) {
      var g, i :| OutlierAt(ctx, sig, stats, genomes, g, i, row);
      assert PartAt(parts, g) == GenomeOutliers(ctx, sig[g].0, sig[g].1, stats, genomes);
      GenomeRowsExact(ctx, sig, stats, genomes, g, row);
    }
  }

  /** When `identify` completes, its report holds exactly the rows written for the scaffolds of each genome:
      every scaffold of every genome is assessed, and nothing else is reported. */
  lemma IdentifyRowsExact(ctx: Inputs, sig: Dict<string, seq<string>>, stats: Dict<string, ScaffoldStats>,
                          genomes: Dict<string, GenomeStats>, row: Row)
    requires OutlierReport(ctx, sig, stats, genomes).Ok?
    ensures row in OutlierReport(ctx, sig, stats, genomes).value <==> exists g, i :: OutlierAt(ctx, sig, stats, genomes, g, i, row)
  {
    var parts := GenomeParts(ctx, sig, stats, genomes);
    assert GenomePartsAre(parts, ctx, sig, stats, genomes);
    GenomeRowsOf(ctx, sig, stats, genomes, parts, row);
  }

  /** Every `identify` row names a genome of `scaffolds_in_genome` and one of that genome's scaffolds, and
      passes the report rule; with a report type other than "any" and "all" the report is empty. */
  lemma IdentifyRowsSound(ctx: Inputs, sig: Dict<string, seq<string>>, stats: Dict<string, ScaffoldStats>,
                          genomes: Dict<string, GenomeStats>, row: Row)
    requires OutlierReport(ctx, sig, stats, genomes).Ok? && row in OutlierReport(ctx, sig, stats, genomes).value
    ensures exists g :: 0 <= g < |sig| && sig[g].0 == row.genomeId && row.scaffoldId in sig[g].1
    ensures Reported(ctx.t.reportType, |row.flags|) && InOrder(row.flags)
    ensures ctx.t.reportType == "any" || ctx.t.reportType == "all"
  {
    IdentifyRowsExact(ctx, sig, stats, genomes, row);
    var g, i :| OutlierAt(ctx, sig, stats, genomes, g, i, row);
    var gs := Get(genomes, sig[g].0).value;
    OutlierRowExplained(ctx, sig[g].0, gs, LookupGenomeKeys(ctx.num, ctx.tables, gs, ctx.t).value, sig[g].1[i], stats, row);
    ReportRule(ctx.t.reportType, |row.flags|);
  }

  /** The genome loop raises exactly the error of the first genome that raises. */
  lemma GenomeErrorOf(ctx: Inputs, sig: Dict<string, seq<string>>, stats: Dict<string, ScaffoldStats>,
                      genomes: Dict<string, GenomeStats>, parts: seq<Result<seq<Row>, LookupError>>, e: LookupError)
    requires GenomePartsAre(parts, ctx, sig, stats, genomes)
    ensures Flatten(parts, |sig|) == Err(e) <==>
              exists g :: 0 <= g < |sig| && GenomeOutliers(ctx, sig[g].0, sig[g].1, stats, genomes) == Err(e)
                          && forall h :: 0 <= h < g ==> GenomeOutliers(ctx, sig[h].0, sig[h].1, stats, genomes).Ok?
  {
    FlattenError(parts, |sig|, e);
    forall g | 0 <= g < |sig|
      ensures parts[g] == GenomeOutliers(ctx, sig[g].0, sig[g].1, stats, genomes)
    {
      assert PartAt(parts, g) == GenomeOutliers(ctx, sig[g].0, sig[g].1, stats, genomes);
    }
  }

  /** `identify` raises exactly the error of the first genome whose lookups raise. */
  lemma IdentifyError(ctx: Inputs, sig: Dict<string, seq<string>>, stats: Dict<string, ScaffoldStats>,
                      genomes: Dict<string, GenomeStats>, e: LookupError)
    ensures OutlierReport(ctx, sig, stats, genomes) == Err(e) <==>
              exists g :: 0 <= g < |sig| && GenomeOutliers(ctx, sig[g].0, sig[g].1, stats, genomes) == Err(e)
                          && forall h :: 0 <= h < g ==> GenomeOutliers(ctx, sig[h].0, sig[h].1, stats, genomes).Ok?
  {
    var parts := GenomeParts(ctx, sig, stats, genomes);
    assert GenomePartsAre(parts, ctx, sig, stats, genomes);
    GenomeErrorOf(ctx, sig, stats, genomes, parts, e);
  }

  /** The scaffold loop of one genome raises exactly the error of its first scaffold that raises. */
  lemma ScaffoldErrorOf(ctx: Inputs, gid: string, gs: GenomeStats, keys: GenomeKeys, sids: seq<string>,
                        stats: Dict<string, ScaffoldStats>, parts: seq<Result<seq<Row>, LookupError>>, e: LookupError)
    requires ScaffoldPartsAre(parts, ctx, gid, gs, keys, sids, stats)
    ensures Flatten(parts, |sids|) == Err(e) <==>
              exists i :: 0 <= i < |sids| && PairOutlier(ctx, gid, gs, keys, sids[i], stats) == Err(e)
                          && forall j :: 0 <= j < i ==> PairOutlier(ctx, gid, gs, keys, sids[j], stats).Ok?
  {
    FlattenError(parts, |sids|, e);
    forall i | 0 <= i < |sids|
      ensures parts[i] == Err(e) <==> PairOutlier(ctx, gid, gs, keys, sids[i], stats) == Err(e)
      ensures parts[i].Ok? <==> PairOutlier(ctx, gid, gs, keys, sids[i], stats).Ok?
    {
      assert PartAt(parts, i) == AsRows(PairOutlier(ctx, gid, gs, keys, sids[i], stats));
    }
  }

  /** A genome raises `KeyError` when it has no stats, the error of its key lookups when they raise, and
      otherwise the error of its first scaffold whose lookups raise. */
  lemma GenomeOutliersError(ctx: Inputs, gid: string, sids: seq<string>, stats: Dict<string, ScaffoldStats>,
                            genomes: Dict<string, GenomeStats>, e: LookupError)
    ensures Get(genomes, gid).None? ==> GenomeOutliers(ctx, gid, sids, stats, genomes) == Err(KeyError)
    ensures Get(genomes, gid).Some? && LookupGenomeKeys(ctx.num, ctx.tables, Get(genomes, gid).value, ctx.t).Err? ==>
              GenomeOutliers(ctx, gid, sids, stats, genomes) == Err(LookupGenomeKeys(ctx.num, ctx.tables, Get(genomes, gid).value, ctx.t).error)
    ensures Get(genomes, gid).Some? && LookupGenomeKeys(ctx.num, ctx.tables, Get(genomes, gid).value, ctx.t).Ok? ==>
              var gs := Get(genomes, gid).value;
              var keys := LookupGenomeKeys(ctx.num, ctx.tables, gs, ctx.t).value;
              (GenomeOutliers(ctx, gid, sids, stats, genomes) == Err(e) <==>
                 exists i :: 0 <= i < |sids| && PairOutlier(ctx, gid, gs, keys, sids[i], stats) == Err(e)
                             && forall j :: 0 <= j < i ==> PairOutlier(ctx, gid, gs, keys, sids[j], stats).Ok?)
  {
    if Get(genomes, gid).Some? && LookupGenomeKeys(ctx.num, ctx.tables, Get(genomes, gid).value, ctx.t).Ok? {
      var gs := Get(genomes, gid).value;
      var keys := LookupGenomeKeys(ctx.num, ctx.tables, gs, ctx.t).value;
      var parts := ScaffoldParts(ctx, gid, gs, keys, sids, stats);
      assert ScaffoldPartsAre(parts, ctx, gid, gs, keys, sids, stats);
      ScaffoldErrorOf(ctx, gid, gs, keys, sids, stats, parts, e);
    }
  }

  /** A scaffold raises only `KeyError`: when it has no stats, or when its length or a percentile key is
      missing from the distributions. */
  lemma PairOutlierError(ctx: Inputs, gid: string, gs: GenomeStats, keys: GenomeKeys, sid: string,
                         stats: Dict<string, ScaffoldStats>)
    ensures PairOutlier(ctx, gid, gs, keys, sid, stats).Err? <==>
              Get(stats, sid).None? || LookupBounds(ctx.num, ctx.tables, keys, Get(stats, sid).value.length).Err?
    ensures PairOutlier(ctx, gid, gs, keys, sid, stats).Err? ==> PairOutlier(ctx, gid, gs, keys, sid, stats).error == KeyError
  {
    if Get(stats, sid).Some? {
      LookupBoundsFound(ctx.num, ctx.tables, keys, Get(stats, sid).value.length);
    }
  }

  // ---------------------------------------------------------------------------------------------------
  // compatible: which rows the report holds, and which error it raises

  /** Row `row` is the one `compatible` writes for scaffold `i` of the scaffold statistics, a scaffold of
      interest, and genome `j`. */
  ghost predicate CompatibleAt(ctx: Inputs, interest: Dict<string, (int, real)>, stats: Dict<string, ScaffoldStats>,
                               genomes: Dict<string, GenomeStats>, i: int, j: int, row: Row)
  {
    && 0 <= i < |stats| && 0 <= j < |genomes|
    && Get(interest, stats[i].0).Some?
    && PairCompatible(ctx, stats[i].0, stats[i].1, Get(interest, stats[i].0).value, genomes[j].0, genomes[j].1) == Ok(Some(row))
  }

  /** The completed genome loop of one scaffold of interest holds exactly the rows written for it. */
  lemma GenomeCompatibleRowsOf(ctx: Inputs, sid: string, ss: ScaffoldStats, genes: (int, real),
                               genomes: Dict<string, GenomeStats>, parts: seq<Result<seq<Row>, LookupError>>, row: Row)
    requires GenomeCompatiblePartsAre(parts, ctx, sid, ss, genes, genomes) && Flatten(parts, |genomes|).Ok?
    ensures row in Flatten(parts, |genomes|).value <==>
              exists j :: 0 <= j < |genomes| && PairCompatible(ctx, sid, ss, genes, genomes[j].0, genomes[j].1) == Ok(Some(row))
  {
    FlattenExact(parts, |genomes|, row);
    forall j | 0 <= j < |genomes|
      ensures (parts[j].Ok? && row in parts[j].value) <==> PairCompatible(ctx, sid, ss, genes, genomes[j].0, genomes[j].1) == Ok(Some(row))
    {
      assert PartAt(parts, j) == AsRows(PairCompatible(ctx, sid, ss, genes, genomes[j].0, genomes[j].1));
      AsRowsExact(PairCompatible(ctx, sid, ss, genes, genomes[j].0, genomes[j].1), row);
    }
  }

  /** The rows a completed scaffold contributes are exactly those written for it against each genome; a
      scaffold not of interest contributes none. */
  lemma ScaffoldRowsExact(ctx: Inputs, interest: Dict<string, (int, real)>, stats: Dict<string, ScaffoldStats>,
                          genomes: Dict<string, GenomeStats>, i: int, row: Row)
    requires 0 <= i < |stats| && ScaffoldCompatible(ctx, interest, genomes, stats[i].0, stats[i].1).Ok?
    ensures row in ScaffoldCompatible(ctx, interest, genomes, stats[i].0, stats[i].1).value <==>
              exists j :: CompatibleAt(ctx, interest, stats, genomes, i, j, row)
  {
    if Get(interest, stats[i].0).Some? {
      var genes := Get(interest, stats[i].0).value;
      var parts := GenomeCompatibleParts(ctx, stats[i].0, stats[i].1, genes, genomes);
      assert GenomeCompatiblePartsAre(parts, ctx, stats[i].0, stats[i].1, genes, genomes);
      assert ScaffoldCompatible(ctx, interest, genomes, stats[i].0, stats[i].1) == Flatten(parts, |genomes|);
      GenomeCompatibleRowsOf(ctx, stats[i].0, stats[i].1, genes, genomes, parts, row);
      if row in Flatten(parts, |genomes|).value {
        var j :| 0 <= j < |genomes| && PairCompatible(ctx, stats[i].0, stats[i].1, genes, genomes[j].0, genomes[j].1) == Ok(Some(row));
        assert CompatibleAt(ctx, interest, stats, genomes, i, j, row);
      }
      if exists j :: CompatibleAt(ctx, interest, stats, genomes, i, j, row) {
        var j :| CompatibleAt(ctx, interest, stats, genomes, i, j, row);
        assert PairCompatible(ctx, stats[i].0, stats[i].1, genes, genomes[j].0, genomes[j].1) == Ok(Some(row));
      }
    }
  }

  /** The completed scaffold loop of `compatible` holds exactly the rows written for each scaffold of
      interest against each genome. */
  lemma CompatibleRowsOf(ctx: Inputs, interest: Dict<string, (int, real)>, stats: Dict<string, ScaffoldStats>,
                         genomes: Dict<string, GenomeStats>, parts: seq<Result<seq<Row>, LookupError>>, row: Row)
    requires CompatiblePartsAre(parts, ctx, interest, stats, genomes) && Flatten(parts, |stats|).Ok?
    ensures row in Flatten(parts, |stats|).value <==> exists i, j :: CompatibleAt(ctx, interest, stats, genomes, i, j, row)
  {
    FlattenExact(parts, |stats|, row);
    FlattenOk(parts, |stats|);
    if row in Flatten(parts, |stats|).value {
      var i :| 0 <= i < |stats| && parts[i].Ok? && row in parts[i].value;
      assert PartAt(parts, i) == ScaffoldCompatible(ctx, interest, genomes, stats[i].0, stats[i].1);
      ScaffoldRowsExact(ctx, interest, stats, genomes, i, row);
    }
    if exists i, j :: CompatibleAt(ctx, interest, stats, genomes, i, j, row) {
      var i, j :| CompatibleAt(ctx, interest, stats, genomes, i, j, row);
      assert PartAt(parts, i) == ScaffoldCompatible(ctx, interest, genomes, stats[i].0, stats[i].1);
      ScaffoldRowsExact(ctx, interest, stats, genomes, i, row);
    }
  }

  /** When `compatible` completes, its report holds exactly the rows written for each scaffold of interest
      against each genome: every such pair is assessed, and nothing else is reported. */
  lemma CompatibleRowsExact(ctx: Inputs, interest: Dict<string, (int, real)>, stats: Dict<string, ScaffoldStats>,
                            genomes: Dict<string, GenomeStats>, row: Row)
    requires CompatibleReport(ctx, interest, stats, genomes).Ok?
    ensures row in CompatibleReport(ctx, interest, stats, genomes).value <==>
              exists i, j :: CompatibleAt(ctx, interest, stats, genomes, i, j, row)
  {
    var parts := CompatibleParts(ctx, interest, stats, genomes);
    assert CompatiblePartsAre(parts, ctx, interest, stats, genomes);
    CompatibleRowsOf(ctx, interest, stats, genomes, parts, row);
  }

  /** Every `compatible` row is for a scaffold of interest, carries that scaffold's gene counts, names a
      genome of the genome statistics, and passes the report rule. */
  lemma CompatibleRowsSound(ctx: Inputs, interest: Dict<string, (int, real)>, stats: Dict<string, ScaffoldStats>,
                            genomes: Dict<string, GenomeStats>, row: Row)
    requires CompatibleReport(ctx, interest, stats, genomes).Ok? && row in CompatibleReport(ctx, interest, stats, genomes).value
    ensures row.genes.Some? && Get(interest, row.scaffoldId) == row.genes
    ensures row.scaffoldId in Keys(stats) && row.genomeId in Keys(genomes)
    ensures Reported(ctx.t.reportType, |row.flags|) && InOrder(row.flags)
  {
    CompatibleRowsExact(ctx, interest, stats, genomes, row);
    var i, j :| CompatibleAt(ctx, interest, stats, genomes, i, j, row);
    CompatibleRowExplained(ctx, stats[i].0, stats[i].1, Get(interest, stats[i].0).value, genomes[j].0, genomes[j].1, row);
    assert Keys(stats)[i] == row.scaffoldId;
    assert Keys(genomes)[j] == row.genomeId;
  }

  /** The scaffold loop of `compatible` raises exactly the error of the first scaffold that raises. */
  lemma CompatibleErrorOf(ctx: Inputs, interest: Dict<string, (int, real)>, stats: Dict<string, ScaffoldStats>,
                          genomes: Dict<string, GenomeStats>, parts: seq<Result<seq<Row>, LookupError>>, e: LookupError)
    requires CompatiblePartsAre(parts, ctx, interest, stats, genomes)
    ensures Flatten(parts, |stats|) == Err(e) <==>
              exists i :: 0 <= i < |stats| && ScaffoldCompatible(ctx, interest, genomes, stats[i].0, stats[i].1) == Err(e)
                          && forall h :: 0 <= h < i ==> ScaffoldCompatible(ctx, interest, genomes, stats[h].0, stats[h].1).Ok?
  {
    FlattenError(parts, |stats|, e);
    forall i | 0 <= i < |stats|
      ensures parts[i] == ScaffoldCompatible(ctx, interest, genomes, stats[i].0, stats[i].1)
    {
      assert PartAt(parts, i) == ScaffoldCompatible(ctx, interest, genomes, stats[i].0, stats[i].1);
    }
  }

  /** `compatible` raises exactly the error of the first scaffold that raises; a scaffold not of interest
      never raises and contributes nothing. */
  lemma CompatibleError(ctx: Inputs, interest: Dict<string, (int, real)>, stats: Dict<string, ScaffoldStats>,
                        genomes: Dict<string, GenomeStats>, e: LookupError)
    ensures CompatibleReport(ctx, interest, stats, genomes) == Err(e) <==>
              exists i :: 0 <= i < |stats| && ScaffoldCompatible(ctx, interest, genomes, stats[i].0, stats[i].1) == Err(e)
                          && forall h :: 0 <= h < i ==> ScaffoldCompatible(ctx, interest, genomes, stats[h].0, stats[h].1).Ok?
    ensures forall i :: 0 <= i < |stats| && Get(interest, stats[i].0).None? ==>
              ScaffoldCompatible(ctx, interest, genomes, stats[i].0, stats[i].1) == Ok([])
  {
    var parts := CompatibleParts(ctx, interest, stats, genomes);
    assert CompatiblePartsAre(parts, ctx, interest, stats, genomes);
    CompatibleErrorOf(ctx, interest, stats, genomes, parts, e);
  }

  /** A scaffold of interest raises exactly the error of its first genome whose lookups raise. */
  lemma ScaffoldCompatibleError(ctx: Inputs, interest: Dict<string, (int, real)>, genomes: Dict<string, GenomeStats>,
                                sid: string, ss: ScaffoldStats, e: LookupError)
    requires Get(interest, sid).Some?
    ensures ScaffoldCompatible(ctx, interest, genomes, sid, ss) == Err(e) <==>
              exists j :: 0 <= j < |genomes| && PairCompatible(ctx, sid, ss, Get(interest, sid).value, genomes[j].0, genomes[j].1) == Err(e)
                          && forall h :: 0 <= h < j ==> PairCompatible(ctx, sid, ss, Get(interest, sid).value, genomes[h].0, genomes[h].1).Ok?
  {
    var genes := Get(interest, sid).value;
    var parts := GenomeCompatibleParts(ctx, sid, ss, genes, genomes);
    FlattenError(parts, |genomes|, e);
    forall j | 0 <= j < |genomes|
      ensures parts[j] == Err(e) <==> PairCompatible(ctx, sid, ss, genes, genomes[j].0, genomes[j].1) == Err(e)
      ensures parts[j].Ok? <==> PairCompatible(ctx, sid, ss, genes, genomes[j].0, genomes[j].1).Ok?
    {
    }
  }
}
