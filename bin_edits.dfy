/** The three bin edits of `Outliers`: removing the scaffolds an outlier report lists
    (`remove_outliers`), and adding the scaffolds a compatibility report assigns to
    this bin alone (`add_compatible_unique`) or places closest to this bin in GC,
    tetranucleotide and coverage space at once (`add_compatible_closest`). A bin is
    the dictionary sequence id -> sequence that `seq_io.read` returns. */
module BinEdits {
  import opened Common
  import opened Text

  /** A bin: sequence id -> nucleotide sequence. */
  type Bin = map<string, string>

  /** The lines the row loop of a report reads: all but the header line that `f.readline()` consumes. */
  function DataRows(lines: seq<string>): (rows: seq<string>)
    ensures |lines| > 0 ==> lines == [lines[0]] + rows
    ensures |lines| == 0 ==> rows == []
  {
    if |lines| == 0 then [] else lines[1..]
  }

  /** `line.split('\t')[0]`: the scaffold id of a report row. */
  function FirstField(line: string): string
  {
    Split(line, '\t')[0]
  }

  /** The first fields of the rows. */
  function FirstFields(rows: seq<string>): set<string>
  {
    set r | r in rows :: FirstField(r)
  }

  // ---------------------------------------------------------------------------------------------------
  // remove_outliers

  /** `remove_outliers`: every data row's scaffold id is popped from the bin (`pop(id, None)`, so an id
      not in the bin is ignored). */
  method RemoveOutliers(genome: Bin, lines: seq<string>) returns (out: Bin)
    ensures out == genome - FirstFields(DataRows(lines))
  {
    var rows := DataRows(lines);
    out := genome;
    var i := 0;
    while i < |rows|
      invariant 0 <= i <= |rows|
      invariant out == genome - FirstFields(rows[..i])
    {
      var scaffoldId := FirstField(rows[i]);
      out := out - {scaffoldId};
      assert rows[..i + 1] == rows[..i] + [rows[i]];
      assert FirstFields(rows[..i + 1]) == FirstFields(rows[..i]) + {scaffoldId};
      i := i + 1;
    }
    assert rows[..i] == rows;
  }

  /** After `remove_outliers` a sequence is in the bin exactly when it was before and no data row names it;
      the header line is never read as a row, and the sequences kept are unchanged. */
  lemma RemovedExactly(genome: Bin, lines: seq<string>, k: string)
    ensures k in genome - FirstFields(DataRows(lines)) <==>
              k in genome && forall i :: 1 <= i < |lines| ==> FirstField(lines[i]) != k
    ensures k in genome - FirstFields(DataRows(lines)) ==> (genome - FirstFields(DataRows(lines)))[k] == genome[k]
  {
    var rows := DataRows(lines);
    if k in FirstFields(rows) {
      var r :| r in rows && FirstField(r) == k;
      var i :| 0 <= i < |rows| && rows[i] == r;
      assert lines[i + 1] == r;
    }
    if exists i :: 1 <= i < |lines| && FirstField(lines[i]) == k {
      var i :| 1 <= i < |lines| && FirstField(lines[i]) == k;
      assert rows[i - 1] == lines[i];
    }
  }

  // ---------------------------------------------------------------------------------------------------
  // Adding sequences to a bin

  /** `for seq_id, seq in read_seq(scaffold_file): if seq_id in compatible: genome_seqs[seq_id] = seq`. */
  function Admit(genome: Bin, scaffolds: seq<(string, string)>, compatible: set<string>): Bin
  {
    if |scaffolds| == 0 then genome
    else
      var before := Admit(genome, scaffolds[..|scaffolds| - 1], compatible);
      var last := scaffolds[|scaffolds| - 1];
      if last.0 in compatible then before[last.0 := last.1] else before
  }

  /** The loop that adds the compatible sequences of the scaffold file to the bin. */
  method AddSequences(genome: Bin, scaffolds: seq<(string, string)>, compatible: set<string>) returns (out: Bin)
    ensures out == Admit(genome, scaffolds, compatible)
  {
    out := genome;
    var i := 0;
    while i < |scaffolds|
      invariant 0 <= i <= |scaffolds|
      invariant out == Admit(genome, scaffolds[..i], compatible)
    {
      var (seqId, sequence) := scaffolds[i];
      if seqId in compatible {
        out := out[seqId := sequence];
      }
      assert scaffolds[..i + 1][..i] == scaffolds[..i];
      i := i + 1;
    }
    assert scaffolds[..i] == scaffolds;
  }

  /** A sequence is in the edited bin exactly when it was in the bin or is a compatible sequence of the
      scaffold file; a sequence that is not both is untouched; an added sequence is the last one the
      scaffold file gives for its id. */
  lemma {:induction false} AdmitExact(genome: Bin, scaffolds: seq<(string, string)>, compatible: set<string>, k: string)
    ensures k in Admit(genome, scaffolds, compatible) <==>
              k in genome || (k in compatible && exists i :: 0 <= i < |scaffolds| && scaffolds[i].0 == k)
    ensures (k !in compatible || forall i :: 0 <= i < |scaffolds| ==> scaffolds[i].0 != k) ==>
              (k in Admit(genome, scaffolds, compatible) <==> k in genome)
              && (k in genome ==> Admit(genome, scaffolds, compatible)[k] == genome[k])
    ensures k in compatible && (exists i :: 0 <= i < |scaffolds| && scaffolds[i].0 == k) ==>
              exists i :: 0 <= i < |scaffolds| && scaffolds[i] == (k, Admit(genome, scaffolds, compatible)[k])
                          && forall j :: i < j < |scaffolds| ==> scaffolds[j].0 != k
  {
    if |scaffolds| > 0 {
      var n := |scaffolds|;
      var prefix := scaffolds[..n - 1];
      AdmitExact(genome, prefix, compatible, k);
      assert forall i :: 0 <= i < n - 1 ==> prefix[i] == scaffolds[i];
      if scaffolds[n - 1].0 == k && k in compatible {
        assert scaffolds[n - 1] == (k, Admit(genome, scaffolds, compatible)[k]);
      } else if k in compatible && exists i :: 0 <= i < n && scaffolds[i].0 == k {
        var i :| 0 <= i < n - 1 && prefix[i] == (k, Admit(genome, prefix, compatible)[k])
                 && forall j :: i < j < n - 1 ==> prefix[j].0 != k;
        assert scaffolds[i] == (k, Admit(genome, scaffolds, compatible)[k]);
      }
    }
  }

  // ---------------------------------------------------------------------------------------------------
  // add_compatible_unique

  /** The exceptions reading a compatibility report raises: IndexError for a row with too few fields,
      ValueError for a missing column name or a value `float()` rejects. */
  datatype ReadError = IndexError | ValueError

  /** The scaffold id and the stripped bin id of a compatibility row; None where `line_split[1]` raises
      IndexError because the row has no tab. */
  function ParseRow(line: string): Option<(string, string)>
  {
    var fields := Split(line, '\t');
    if |fields| < 2 then None else Some((fields[0], Strip(fields[1])))
  }

  /** A row fails to parse exactly when it has no tab. */
  lemma ParseRowCases(line: string)
    ensures ParseRow(line).Some? <==> '\t' in line
  {
    if '\t' in line {
      SplitSeparated(line, '\t');
    } else {
      SplitWithoutSeparator(line, '\t');
    }
  }

  /** The (scaffold id, bin id) entries of the rows, or None when one of them has no second column. */
  function Parsed(rows: seq<string>): Option<seq<(string, string)>>
  {
    if |rows| == 0 then Some([])
    else
      match Parsed(rows[..|rows| - 1])
      case None => None
      case Some(entries) =>
        match ParseRow(rows[|rows| - 1])
        case None => None
        case Some(entry) => Some(entries + [entry])
  }

  /** The rows parse exactly when each has a tab. */
  lemma {:induction false} ParsedSome(rows: seq<string>)
    ensures Parsed(rows).Some? <==> forall i :: 0 <= i < |rows| ==> '\t' in rows[i]
  {
    if |rows| > 0 {
      var prefix := rows[..|rows| - 1];
      ParsedSome(prefix);
      ParseRowCases(rows[|rows| - 1]);
      assert forall i :: 0 <= i < |prefix| ==> prefix[i] == rows[i];
    }
  }

  /** Entry `i` of parsed rows is row `i` parsed. */
  lemma {:induction false} ParsedEntries(rows: seq<string>)
    requires Parsed(rows).Some?
    ensures |Parsed(rows).value| == |rows|
    ensures forall i :: 0 <= i < |rows| ==> ParseRow(rows[i]) == Some(Parsed(rows).value[i])
  {
    if |rows| > 0 {
      var prefix := rows[..|rows| - 1];
      ParsedEntries(prefix);
      assert forall i :: 0 <= i < |prefix| ==> prefix[i] == rows[i];
    }
  }

  /** One more row that parses extends the entries by its entry. */
  lemma ParsedStep(rows: seq<string>, i: nat, entries: seq<(string, string)>)
    requires i < |rows| && Parsed(rows[..i]) == Some(entries) && ParseRow(rows[i]).Some?
    ensures Parsed(rows[..i + 1]) == Some(entries + [ParseRow(rows[i]).value])
  {
    assert rows[..i + 1][..i] == rows[..i];
  }

  /** The rows do not parse once one of them does not. */
  lemma ParsedFails(rows: seq<string>, i: nat)
    requires i < |rows| && ParseRow(rows[i]).None?
    ensures Parsed(rows).None?
  {
    ParseRowCases(rows[i]);
    ParsedSome(rows);
  }

  /** `scaffold_ids`: the id of every row, repetitions included. */
  function Ids(entries: seq<(string, string)>): (ids: seq<string>)
    ensures |ids| == |entries|
  {
    seq(|entries|, i requires 0 <= i < |entries| => entries[i].0)
  }

  /** `bin_ids`: the bin of each scaffold, a later row overwriting an earlier one. */
  function BinIds(entries: seq<(string, string)>): map<string, string>
  {
    if |entries| == 0 then map[]
    else
      var last := entries[|entries| - 1];
      BinIds(entries[..|entries| - 1])[last.0 := last.1]
  }

  /** Building `bin_ids` is adding every row's entry to an empty bin. */
  lemma {:induction false} BinIdsAdmit(entries: seq<(string, string)>, keep: set<string>)
    requires forall i :: 0 <= i < |entries| ==> entries[i].0 in keep
    ensures BinIds(entries) == Admit(map[], entries, keep)
  {
    if |entries| > 0 {
      BinIdsAdmit(entries[..|entries| - 1], keep);
    }
  }

  /** The scaffolds `add_compatible_unique` admits: those named by exactly one row whose bin is this one. */
  function UniqueCompatible(entries: seq<(string, string)>, cur: string): set<string>
  {
    set id | id in BinIds(entries) && Count(Ids(entries), id) == 1 && BinIds(entries)[id] == cur
  }

  /** A scaffold is admitted exactly when one row names it, and that row puts it in this bin. */
  lemma UniqueAdmission(entries: seq<(string, string)>, cur: string, id: string)
    ensures id in UniqueCompatible(entries, cur) <==>
              Count(Ids(entries), id) == 1 && exists i :: 0 <= i < |entries| && entries[i] == (id, cur)
  {
    var keep := set i | 0 <= i < |entries| :: entries[i].0;
    BinIdsAdmit(entries, keep);
    AdmitExact(map[], entries, keep, id);
    if Count(Ids(entries), id) == 1 && exists i :: 0 <= i < |entries| && entries[i] == (id, cur) {
      var i :| 0 <= i < |entries| && entries[i] == (id, cur);
      assert id in keep;
      var last :| 0 <= last < |entries| && entries[last] == (id, BinIds(entries)[id]);
      assert Ids(entries)[i] == id && Ids(entries)[last] == id;
      CountOnce(Ids(entries), id, i, last);
    }
  }

  /** One more entry extends the ids and sets the bin of its scaffold. */
  lemma EntriesStep(entries: seq<(string, string)>, entry: (string, string))
    ensures Ids(entries + [entry]) == Ids(entries) + [entry.0]
    ensures BinIds(entries + [entry]) == BinIds(entries)[entry.0 := entry.1]
  {
    assert (entries + [entry])[..|entries|] == entries;
  }

  /** The row loop of `add_compatible_unique`: the scaffold ids in row order and the bin of each, or the
      IndexError of the first row without a second column. */
  method ReadCompatible(rows: seq<string>) returns (r: Result<(seq<string>, map<string, string>), ReadError>)
    ensures Parsed(rows).None? <==> r == Err(IndexError)
    ensures Parsed(rows).Some? ==> r == Ok((Ids(Parsed(rows).value), BinIds(Parsed(rows).value)))
  {
    var scaffoldIds: seq<string> := [];
    var binIds: map<string, string> := map[];
    ghost var entries: seq<(string, string)> := [];
    var i := 0;
    while i < |rows|
      invariant 0 <= i <= |rows|
      invariant Parsed(rows[..i]) == Some(entries)
      invariant scaffoldIds == Ids(entries)
      invariant binIds == BinIds(entries)
    {
      var row := ParseRow(rows[i]);
      if row.None? {
        ParsedFails(rows, i);
        return Err(IndexError);
      }
      var (scaffoldId, binId) := row.value;
      ParsedStep(rows, i, entries);
      EntriesStep(entries, row.value);
      scaffoldIds := scaffoldIds + [scaffoldId];
      binIds := binIds[scaffoldId := binId];
      entries := entries + [row.value];
      i := i + 1;
    }
    assert rows[..i] == rows;
    return Ok((scaffoldIds, binIds));
  }

  /** The loop over `bin_ids.iteritems()` collecting the scaffolds of this bin named by one row only. */
  method UniqueSet(scaffoldIds: seq<string>, binIds: map<string, string>, cur: string) returns (compatible: set<string>)
    ensures compatible == set id | id in binIds && Count(scaffoldIds, id) == 1 && binIds[id] == cur
  {
    compatible := {};
    var remaining := binIds.Keys;
    while remaining != {}
      invariant remaining <= binIds.Keys
      invariant compatible == set id | id in binIds && id !in remaining && Count(scaffoldIds, id) == 1 && binIds[id] == cur
      decreases |remaining|
    {
      var scaffoldId :| scaffoldId in remaining;
      if Count(scaffoldIds, scaffoldId) == 1 && binIds[scaffoldId] == cur {
        compatible := compatible + {scaffoldId};
      }
      remaining := remaining - {scaffoldId};
    }
  }

  /** `add_compatible_unique` for the bin `cur` (the bin file's name without extension): the IndexError of
      a row without a second column, or the bin with the uniquely compatible scaffolds added. */
  method AddCompatibleUnique(cur: string, scaffolds: seq<(string, string)>, genome: Bin, lines: seq<string>)
    returns (r: Result<Bin, ReadError>)
    ensures Parsed(DataRows(lines)).None? <==> r == Err(IndexError)
    ensures Parsed(DataRows(lines)).Some? ==>
              r == Ok(Admit(genome, scaffolds, UniqueCompatible(Parsed(DataRows(lines)).value, cur)))
  {
    var read := ReadCompatible(DataRows(lines));
    if read.Err? {
      return Err(read.error);
    }
    var (scaffoldIds, binIds) := read.value;
    var compatible := UniqueSet(scaffoldIds, binIds, cur);
    assert compatible == UniqueCompatible(Parsed(DataRows(lines)).value, cur);
    var out := AddSequences(genome, scaffolds, compatible);
    return Ok(out);
  }

  // ---------------------------------------------------------------------------------------------------
  // add_compatible_closest

  /** The values `add_compatible_closest` reads from one row of the compatibility report. */
  datatype Candidate = Candidate(scaffoldGc: real, genomeGc: real, td: real, scaffoldCoverage: real, genomeCoverage: real)

  datatype Metric = GcDistance | TdDistance | CoverageDistance

  /** The distance of a scaffold to a bin in one metric. */
  function Distance(c: Candidate, m: Metric): real
  {
    match m
    case GcDistance => Abs(c.scaffoldGc - c.genomeGc)
    case TdDistance => c.td
    case CoverageDistance => Abs(c.scaffoldCoverage - c.genomeCoverage)
  }

  /** The value each running best starts from. */
  const Unbeaten: real := 1000000000.0

  /** A running best: its distance, and the bin it was seen in (None until one beats the start). */
  datatype Best = Best(value: real, bin: Option<string>)

  /** The running best of one metric over the first `n` bins, replaced only by a strictly smaller distance. */
  function RunningBest(bins: Dict<string, Candidate>, m: Metric, n: nat): Best
    requires n <= |bins|
  {
    if n == 0 then Best(Unbeaten, None)
    else
      var best := RunningBest(bins, m, n - 1);
      var d := Distance(bins[n - 1].1, m);
      if d < best.value then Best(d, Some(bins[n - 1].0)) else best
  }

  /** Bin `w` is the first of the first `n` bins with the smallest distance, and beats the start value. */
  predicate FirstMinimum(bins: Dict<string, Candidate>, m: Metric, n: nat, w: int)
    requires n <= |bins|
  {
    && 0 <= w < n
    && Distance(bins[w].1, m) < Unbeaten
    && (forall j :: 0 <= j < w ==> Distance(bins[j].1, m) > Distance(bins[w].1, m))
    && (forall j :: w < j < n ==> Distance(bins[j].1, m) >= Distance(bins[w].1, m))
  }

  /** The running best is the minimum seen so far (or the start value); it has no bin exactly when no
      distance beats the start value, and otherwise its bin is a first minimum. */
  lemma {:induction false} RunningBestCases(bins: Dict<string, Candidate>, m: Metric, n: nat)
    requires n <= |bins|
    ensures RunningBest(bins, m, n).value <= Unbeaten
    ensures RunningBest(bins, m, n).bin.None? ==> RunningBest(bins, m, n).value == Unbeaten
    ensures forall j :: 0 <= j < n ==> Distance(bins[j].1, m) >= RunningBest(bins, m, n).value
    ensures RunningBest(bins, m, n).bin.None? <==> forall j :: 0 <= j < n ==> Distance(bins[j].1, m) >= Unbeaten
    ensures RunningBest(bins, m, n).bin.Some? ==>
              exists w :: FirstMinimum(bins, m, n, w) && bins[w].0 == RunningBest(bins, m, n).bin.value
                          && RunningBest(bins, m, n).value == Distance(bins[w].1, m)
  {
    if n > 0 {
      RunningBestCases(bins, m, n - 1);
      var best := RunningBest(bins, m, n - 1);
      if Distance(bins[n - 1].1, m) < best.value {
        assert FirstMinimum(bins, m, n, n - 1);
      } else if best.bin.Some? {
        var w :| FirstMinimum(bins, m, n - 1, w) && bins[w].0 == best.bin.value && best.value == Distance(bins[w].1, m);
        assert FirstMinimum(bins, m, n, w);
        assert Distance(bins[w].1, m) < Unbeaten;
      }
    }
  }

  /** There is at most one first minimum. */
  lemma FirstMinimumUnique(bins: Dict<string, Candidate>, m: Metric, n: nat, w: int, w': int)
    requires n <= |bins| && FirstMinimum(bins, m, n, w) && FirstMinimum(bins, m, n, w')
    ensures w == w'
  {
  }

  /** The winner of a metric is exactly the bin of its first minimum below the start value. */
  lemma ClosestWinner(bins: Dict<string, Candidate>, m: Metric, b: string)
    ensures RunningBest(bins, m, |bins|).bin == Some(b) <==> exists w :: FirstMinimum(bins, m, |bins|, w) && bins[w].0 == b
  {
    RunningBestCases(bins, m, |bins|);
    if exists w :: FirstMinimum(bins, m, |bins|, w) && bins[w].0 == b {
      var w :| FirstMinimum(bins, m, |bins|, w) && bins[w].0 == b;
      var w' :| FirstMinimum(bins, m, |bins|, w') && bins[w'].0 == RunningBest(bins, m, |bins|).bin.value;
      FirstMinimumUnique(bins, m, |bins|, w, w');
    }
  }

  /** A scaffold is closest to `cur` when the GC, TD and coverage winners are all `cur`. */
  predicate ClosestAdmits(bins: Dict<string, Candidate>, cur: string)
  {
    var gc := RunningBest(bins, GcDistance, |bins|).bin;
    var td := RunningBest(bins, TdDistance, |bins|).bin;
    var cov := RunningBest(bins, CoverageDistance, |bins|).bin;
    gc == td && td == cov && gc == Some(cur)
  }

  /** A scaffold is closest to `cur` exactly when `cur` is the first minimum of all three metrics. */
  lemma ClosestAdmitsExact(bins: Dict<string, Candidate>, cur: string)
    ensures ClosestAdmits(bins, cur) <==>
              && (exists w :: FirstMinimum(bins, GcDistance, |bins|, w) && bins[w].0 == cur)
              && (exists w :: FirstMinimum(bins, TdDistance, |bins|, w) && bins[w].0 == cur)
              && (exists w :: FirstMinimum(bins, CoverageDistance, |bins|, w) && bins[w].0 == cur)
  {
    ClosestWinner(bins, GcDistance, cur);
    ClosestWinner(bins, TdDistance, cur);
    ClosestWinner(bins, CoverageDistance, cur);
  }

  /** A scaffold is closest to one bin at most, and to none when its GC winner or its TD winner differs
      from its coverage winner. */
  lemma ClosestAdmitsOnce(bins: Dict<string, Candidate>, cur: string, other: string)
    ensures ClosestAdmits(bins, cur) && ClosestAdmits(bins, other) ==> cur == other
    ensures RunningBest(bins, GcDistance, |bins|).bin != RunningBest(bins, CoverageDistance, |bins|).bin ==> !ClosestAdmits(bins, cur)
    ensures RunningBest(bins, TdDistance, |bins|).bin != RunningBest(bins, CoverageDistance, |bins|).bin ==> !ClosestAdmits(bins, cur)
  {
  }

  /** The scaffolds `add_compatible_closest` admits to `cur`. */
  function ClosestCompatible(table: Table, cur: string): set<string>
  {
    set i | 0 <= i < |table| && ClosestAdmits(table[i].1, cur) :: table[i].0
  }

  /** The inner loop of `add_compatible_closest`: the three running bests over the bins of one scaffold. */
  method ClosestBins(bins: Dict<string, Candidate>) returns (bestGc: Best, bestTd: Best, bestCov: Best)
    ensures bestGc == RunningBest(bins, GcDistance, |bins|)
    ensures bestTd == RunningBest(bins, TdDistance, |bins|)
    ensures bestCov == RunningBest(bins, CoverageDistance, |bins|)
  {
    bestGc, bestTd, bestCov := Best(Unbeaten, None), Best(Unbeaten, None), Best(Unbeaten, None);
    var i := 0;
    while i < |bins|
      invariant 0 <= i <= |bins|
      invariant bestGc == RunningBest(bins, GcDistance, i)
      invariant bestTd == RunningBest(bins, TdDistance, i)
      invariant bestCov == RunningBest(bins, CoverageDistance, i)
    {
      var (binId, stats) := bins[i];
      var gc, td, cov := Abs(stats.scaffoldGc - stats.genomeGc), stats.td, Abs(stats.scaffoldCoverage - stats.genomeCoverage);
      if gc < bestGc.value {
        bestGc := Best(gc, Some(binId));
      }
      if td < bestTd.value {
        bestTd := Best(td, Some(binId));
      }
      if cov < bestCov.value {
        bestCov := Best(cov, Some(binId));
      }
      i := i + 1;
    }
  }

  /** The outer loop of `add_compatible_closest`: the scaffolds whose three winners are all `cur`. */
  method ClosestSet(table: Table, cur: string) returns (compatible: set<string>)
    ensures compatible == ClosestCompatible(table, cur)
  {
    compatible := {};
    var i := 0;
    while i < |table|
      invariant 0 <= i <= |table|
      invariant compatible == set k | 0 <= k < i && ClosestAdmits(table[k].1, cur) :: table[k].0
    {
      var (scaffoldId, bins) := table[i];
      var bestGc, bestTd, bestCov := ClosestBins(bins);
      if bestGc.bin == bestTd.bin && bestTd.bin == bestCov.bin && bestGc.bin == Some(cur) {
        compatible := compatible + {scaffoldId};
      }
      i := i + 1;
    }
  }

  // ---------------------------------------------------------------------------------------------------
  // add_compatible_closest: reading the compatibility report

  /** `headers.index(x)`: the first position holding `x`, or None where Python raises ValueError. */
  function IndexOf(xs: seq<string>, x: string): (r: Option<nat>)
    ensures r.None? <==> x !in xs
    ensures r.Some? ==> r.value < |xs| && xs[r.value] == x && forall j :: 0 <= j < r.value ==> xs[j] != x
  {
    if |xs| == 0 then None
    else if xs[0] == x then Some(0)
    else
      var r := IndexOf(xs[1..], x);
      assert x in xs <==> x in xs[1..] by {
        assert xs == [xs[0]] + xs[1..];
      }
      match r
      case None => None
      case Some(i) => Some(i + 1)
  }

  /** `[x.strip() for x in f.readline().split('\t')]`: the stripped column names of the header line
      (of an empty header where the file is empty). */
  function Headers(lines: seq<string>): (names: seq<string>)
    ensures |names| >= 1
  {
    var fields := Split(if |lines| == 0 then "" else lines[0], '\t');
    seq(|fields|, i requires 0 <= i < |fields| => Strip(fields[i]))
  }

  /** The positions of the five columns `add_compatible_closest` reads. */
  datatype Columns = Columns(scaffoldGc: nat, genomeGc: nat, td: nat, scaffoldCoverage: nat, genomeCoverage: nat)

  /** Position `k` is the first one holding `name`. */
  predicate FirstAt(headers: seq<string>, k: nat, name: string)
  {
    k < |headers| && headers[k] == name && forall j :: 0 <= j < k ==> headers[j] != name
  }

  /** The five `headers.index` calls: the first position of each column name, or ValueError when one is missing. */
  function FindColumns(headers: seq<string>): (r: Result<Columns, ReadError>)
    ensures r.Err? <==> "Scaffold GC" !in headers || "Mean genome GC" !in headers || "Scaffold TD" !in headers
                        || "Mean scaffold coverage" !in headers || "Mean genome coverage" !in headers
    ensures r.Err? ==> r.error == ValueError
    ensures r.Ok? ==> && FirstAt(headers, r.value.scaffoldGc, "Scaffold GC")
                      && FirstAt(headers, r.value.genomeGc, "Mean genome GC")
                      && FirstAt(headers, r.value.td, "Scaffold TD")
                      && FirstAt(headers, r.value.scaffoldCoverage, "Mean scaffold coverage")
                      && FirstAt(headers, r.value.genomeCoverage, "Mean genome coverage")
  {
    match (IndexOf(headers, "Scaffold GC"), IndexOf(headers, "Mean genome GC"), IndexOf(headers, "Scaffold TD"),
           IndexOf(headers, "Mean scaffold coverage"), IndexOf(headers, "Mean genome coverage"))
    case (Some(a), Some(b), Some(c), Some(d), Some(e)) => Ok(Columns(a, b, c, d, e))
    case _ => Err(ValueError)
  }

  /** `float(line_split[k])`: IndexError for a row with no field `k`, ValueError for a field `float()` rejects. */
  function FloatField(fields: seq<string>, k: nat, parseFloat: string -> Option<real>): Result<real, ReadError>
  {
    if k >= |fields| then Err(IndexError)
    else
      match parseFloat(fields[k])
      case None => Err(ValueError)
      case Some(x) => Ok(x)
  }

  /** One row of the report: its scaffold id, its stripped bin id and the five values, read in the order
      the source reads them, or the exception the first failing read raises. */
  function ParseCandidate(line: string, cols: Columns, parseFloat: string -> Option<real>)
    : Result<(string, string, Candidate), ReadError>
  {
    var fields := Split(line, '\t');
    if |fields| < 2 then Err(IndexError)
    else
      match FloatField(fields, cols.scaffoldGc, parseFloat)
      case Err(e) => Err(e)
      case Ok(scaffoldGc) =>
        match FloatField(fields, cols.genomeGc, parseFloat)
        case Err(e) => Err(e)
        case Ok(genomeGc) =>
          match FloatField(fields, cols.td, parseFloat)
          case Err(e) => Err(e)
          case Ok(td) =>
            match FloatField(fields, cols.scaffoldCoverage, parseFloat)
            case Err(e) => Err(e)
            case Ok(scaffoldCoverage) =>
              match FloatField(fields, cols.genomeCoverage, parseFloat)
              case Err(e) => Err(e)
              case Ok(genomeCoverage) =>
                Ok((fields[0], Strip(fields[1]), Candidate(scaffoldGc, genomeGc, td, scaffoldCoverage, genomeCoverage)))
  }

  /** Whether field `k` of a row reads as a float. */
  predicate Readable(fields: seq<string>, k: nat, parseFloat: string -> Option<real>)
  {
    k < |fields| && parseFloat(fields[k]).Some?
  }

  /** A row reads exactly when it has a tab and each of the five fields exists and reads as a float; it then
      gives the first field, the stripped second field and the five values. An IndexError comes from a field
      that is missing, a ValueError from one `float()` rejects. */
  lemma ParseCandidateCases(line: string, cols: Columns, parseFloat: string -> Option<real>)
    ensures var fields := Split(line, '\t');
            var r := ParseCandidate(line, cols, parseFloat);
            && (r.Ok? <==> '\t' in line && Readable(fields, cols.scaffoldGc, parseFloat) && Readable(fields, cols.genomeGc, parseFloat)
                           && Readable(fields, cols.td, parseFloat) && Readable(fields, cols.scaffoldCoverage, parseFloat)
                           && Readable(fields, cols.genomeCoverage, parseFloat))
            && (r.Ok? ==> r.value == (fields[0], Strip(fields[1]),
                                      Candidate(parseFloat(fields[cols.scaffoldGc]).value, parseFloat(fields[cols.genomeGc]).value,
                                                parseFloat(fields[cols.td]).value, parseFloat(fields[cols.scaffoldCoverage]).value,
                                                parseFloat(fields[cols.genomeCoverage]).value)))
            && (r == Err(IndexError) ==> |fields| < 2 || cols.scaffoldGc >= |fields| || cols.genomeGc >= |fields|
                                          || cols.td >= |fields| || cols.scaffoldCoverage >= |fields| || cols.genomeCoverage >= |fields|)
            && (r == Err(ValueError) ==> exists k :: k in [cols.scaffoldGc, cols.genomeGc, cols.td, cols.scaffoldCoverage, cols.genomeCoverage]
                                                     && k < |fields| && parseFloat(fields[k]).None?)
  {
    if '\t' in line {
      SplitSeparated(line, '\t');
    } else {
      SplitWithoutSeparator(line, '\t');
    }
  }

  /** The candidates of every scaffold: scaffold id -> (bin id -> values). */
  type Table = Dict<string, Dict<string, Candidate>>

  /** `scaffold_ids[scaffold_id][bin_id] = stats` on a `defaultdict(dict)`. */
  function Record(table: Table, sid: string, bid: string, c: Candidate): Table
  {
    var bins := match Get(table, sid) case Some(b) => b case None => [];
    Put(table, sid, Put(bins, bid, c))
  }

  /** `scaffold_ids[sid][bid]`, or None where either key is missing. */
  function Lookup(table: Table, sid: string, bid: string): Option<Candidate>
  {
    match Get(table, sid)
    case None => None
    case Some(bins) => Get(bins, bid)
  }

  /** Recording sets the one entry and leaves every other scaffold and bin as it was. */
  lemma RecordLookup(table: Table, sid: string, bid: string, c: Candidate)
    ensures Lookup(Record(table, sid, bid, c), sid, bid) == Some(c)
    ensures forall s, b :: (s != sid || b != bid) ==> Lookup(Record(table, sid, bid, c), s, b) == Lookup(table, s, b)
  {
    var bins := match Get(table, sid) case Some(b) => b case None => [];
    PutGet(table, sid, Put(bins, bid, c));
    PutGet(bins, bid, c);
  }

  /** What one row gives: the scaffold id, the bin id and the values. */
  type Entry = (string, string, Candidate)

  /** Each data row read on its own. */
  function ParseRows(rows: seq<string>, cols: Columns, parseFloat: string -> Option<real>): (parsed: seq<Result<Entry, ReadError>>)
    ensures |parsed| == |rows|
    ensures forall i :: 0 <= i < |rows| ==> parsed[i] == ParseCandidate(rows[i], cols, parseFloat)
  {
    seq(|rows|, i requires 0 <= i < |rows| => ParseCandidate(rows[i], cols, parseFloat))
  }

  /** The table the row loop builds from the rows read, or the exception of the first row that fails. */
  function Gather(parsed: seq<Result<Entry, ReadError>>): Result<Table, ReadError>
  {
    if |parsed| == 0 then Ok([])
    else
      match Gather(parsed[..|parsed| - 1])
      case Err(e) => Err(e)
      case Ok(table) =>
        match parsed[|parsed| - 1]
        case Err(e) => Err(e)
        case Ok(entry) => Ok(Record(table, entry.0, entry.1, entry.2))
  }

  /** What `add_compatible_closest` reads from the report: the column positions from the header, then the table. */
  function ClosestTable(lines: seq<string>, parseFloat: string -> Option<real>): Result<Table, ReadError>
  {
    match FindColumns(Headers(lines))
    case Err(e) => Err(e)
    case Ok(cols) => Gather(ParseRows(DataRows(lines), cols, parseFloat))
  }

  /** Row `i` is the last row for scaffold `s` and bin `b`, and holds the values `c`. */
  ghost predicate LastRowFor(parsed: seq<Result<Entry, ReadError>>, i: int, s: string, b: string, c: Candidate)
  {
    && 0 <= i < |parsed|
    && parsed[i] == Ok((s, b, c))
    && forall j :: i < j < |parsed| ==> parsed[j].Ok? && (parsed[j].value.0 != s || parsed[j].value.1 != b)
  }

  /** When the last row names `s` and `b`, it is the last row for them, with its own values. */
  lemma LastRowNew(parsed: seq<Result<Entry, ReadError>>, s: string, b: string, c: Candidate)
    requires |parsed| > 0 && parsed[|parsed| - 1].Ok?
    requires parsed[|parsed| - 1].value.0 == s && parsed[|parsed| - 1].value.1 == b
    ensures (exists i :: LastRowFor(parsed, i, s, b, c)) <==> c == parsed[|parsed| - 1].value.2
  {
    var n := |parsed|;
    if c == parsed[n - 1].value.2 {
      assert LastRowFor(parsed, n - 1, s, b, c);
    }
  }

  /** When the last row names another scaffold or bin, the last row for `s` and `b` is one of the earlier rows. */
  lemma LastRowOld(parsed: seq<Result<Entry, ReadError>>, prev: seq<Result<Entry, ReadError>>, s: string, b: string, c: Candidate)
    requires |parsed| > 0 && prev == parsed[..|parsed| - 1] && parsed[|parsed| - 1].Ok?
    requires parsed[|parsed| - 1].value.0 != s || parsed[|parsed| - 1].value.1 != b
    ensures (exists i :: LastRowFor(parsed, i, s, b, c)) <==> (exists i :: LastRowFor(prev, i, s, b, c))
  {
    if exists i :: LastRowFor(parsed, i, s, b, c) {
      var i :| LastRowFor(parsed, i, s, b, c);
      assert LastRowFor(prev, i, s, b, c);
    }
    if exists i :: LastRowFor(prev, i, s, b, c) {
      var i :| LastRowFor(prev, i, s, b, c);
      assert LastRowFor(parsed, i, s, b, c);
    }
  }

  /** The table keeps, for each scaffold and bin, the values of the last row naming them, and nothing else. */
  lemma {:induction false} GatherLast(parsed: seq<Result<Entry, ReadError>>, s: string, b: string, c: Candidate)
    requires Gather(parsed).Ok?
    ensures Lookup(Gather(parsed).value, s, b) == Some(c) <==> exists i :: LastRowFor(parsed, i, s, b, c)
  {
    if |parsed| > 0 {
      var prev := parsed[..|parsed| - 1];
      var entry := parsed[|parsed| - 1].value;
      RecordLookup(Gather(prev).value, entry.0, entry.1, entry.2);
      if s == entry.0 && b == entry.1 {
        LastRowNew(parsed, s, b, c);
      } else {
        GatherLast(prev, s, b, c);
        LastRowOld(parsed, prev, s, b, c);
      }
    }
  }

  /** The rows read exactly when every one of them does; otherwise the exception is that of the first row
      that fails. */
  lemma {:induction false} GatherError(parsed: seq<Result<Entry, ReadError>>, e: ReadError)
    ensures Gather(parsed).Ok? <==> forall i :: 0 <= i < |parsed| ==> parsed[i].Ok?
    ensures Gather(parsed) == Err(e) <==>
              exists i :: 0 <= i < |parsed| && parsed[i] == Err(e) && forall j :: 0 <= j < i ==> parsed[j].Ok?
  {
    if |parsed| > 0 {
      var prev := parsed[..|parsed| - 1];
      GatherError(prev, e);
      assert forall i :: 0 <= i < |prev| ==> prev[i] == parsed[i];
    }
  }

  /** The report is read exactly when it names the five columns and every data row reads; the exception is
      otherwise the ValueError of a missing column or that of the first data row that fails. */
  lemma ClosestTableError(lines: seq<string>, parseFloat: string -> Option<real>, e: ReadError)
    ensures var cols := FindColumns(Headers(lines));
            && (cols.Err? ==> ClosestTable(lines, parseFloat) == Err(ValueError))
            && (cols.Ok? ==> (ClosestTable(lines, parseFloat).Ok? <==>
                               forall i :: 0 <= i < |DataRows(lines)| ==> ParseCandidate(DataRows(lines)[i], cols.value, parseFloat).Ok?))
            && (cols.Ok? ==> (ClosestTable(lines, parseFloat) == Err(e) <==>
                               exists i :: 0 <= i < |DataRows(lines)| && ParseCandidate(DataRows(lines)[i], cols.value, parseFloat) == Err(e)
                                           && forall j :: 0 <= j < i ==> ParseCandidate(DataRows(lines)[j], cols.value, parseFloat).Ok?))
  {
    var cols := FindColumns(Headers(lines));
    if cols.Ok? {
      GatherError(ParseRows(DataRows(lines), cols.value, parseFloat), e);
    }
  }

  /** What a report that reads holds: bin `b` of scaffold `s` has the values of the last data row naming both. */
  lemma ClosestTableLast(lines: seq<string>, parseFloat: string -> Option<real>, s: string, b: string, c: Candidate)
    requires ClosestTable(lines, parseFloat).Ok?
    ensures var cols := FindColumns(Headers(lines)).value;
            Lookup(ClosestTable(lines, parseFloat).value, s, b) == Some(c) <==>
              exists i :: LastRowFor(ParseRows(DataRows(lines), cols, parseFloat), i, s, b, c)
  {
    GatherLast(ParseRows(DataRows(lines), FindColumns(Headers(lines)).value, parseFloat), s, b, c);
  }

  /** One pass of the row loop records the row's values. */
  lemma GatherStep(parsed: seq<Result<Entry, ReadError>>, i: nat, table: Table)
    requires i < |parsed| && Gather(parsed[..i]) == Ok(table) && parsed[i].Ok?
    ensures Gather(parsed[..i + 1]) == Ok(Record(table, parsed[i].value.0, parsed[i].value.1, parsed[i].value.2))
  {
    assert parsed[..i + 1][..i] == parsed[..i];
  }

  /** A row that fails ends the loop with its exception. */
  lemma GatherFails(parsed: seq<Result<Entry, ReadError>>, i: nat)
    requires i < |parsed| && Gather(parsed[..i]).Ok? && parsed[i].Err?
    ensures Gather(parsed) == Err(parsed[i].error)
  {
    GatherError(parsed[..i], parsed[i].error);
    GatherError(parsed, parsed[i].error);
    assert forall j :: 0 <= j < i ==> parsed[..i][j] == parsed[j];
  }

  /** The reading part of `add_compatible_closest`: the header's column positions, then the row loop. */
  method ReadClosest(lines: seq<string>, parseFloat: string -> Option<real>) returns (r: Result<Table, ReadError>)
    ensures r == ClosestTable(lines, parseFloat)
  {
    var cols := FindColumns(Headers(lines));
    if cols.Err? {
      return Err(cols.error);
    }
    var rows := DataRows(lines);
    ghost var parsed := ParseRows(rows, cols.value, parseFloat);
    var table: Table := [];
    var i := 0;
    while i < |rows|
      invariant 0 <= i <= |rows|
      invariant Gather(parsed[..i]) == Ok(table)
    {
      var entry := ParseCandidate(rows[i], cols.value, parseFloat);
      assert parsed[i] == entry;
      if entry.Err? {
        GatherFails(parsed, i);
        return Err(entry.error);
      }
      GatherStep(parsed, i, table);
      table := Record(table, entry.value.0, entry.value.1, entry.value.2);
      i := i + 1;
    }
    assert parsed[..i] == parsed;
    return Ok(table);
  }

  /** `add_compatible_closest` for the bin `cur`: the exception reading the report raises, or the bin with the
      scaffolds closest to it added. */
  method AddCompatibleClosest(cur: string, scaffolds: seq<(string, string)>, genome: Bin, lines: seq<string>,
                              parseFloat: string -> Option<real>) returns (r: Result<Bin, ReadError>)
    ensures ClosestTable(lines, parseFloat).Err? ==> r == Err(ClosestTable(lines, parseFloat).error)
    ensures ClosestTable(lines, parseFloat).Ok? ==>
              r == Ok(Admit(genome, scaffolds, ClosestCompatible(ClosestTable(lines, parseFloat).value, cur)))
  {
    var table := ReadClosest(lines, parseFloat);
    if table.Err? {
      return Err(table.error);
    }
    var compatible := ClosestSet(table.value, cur);
    var out := AddSequences(genome, scaffolds, compatible);
    return Ok(out);
  }
}
