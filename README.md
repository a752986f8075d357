# RefineM: outlier identification, bin editing and genome windowing

This project is a Dafny model of two parts of RefineM, a tool that refines metagenome-assembled genomes ("bins").

**Outlier identification** (`refinem/outliers.py`) contains:

- `identify`: reports the scaffolds of a genome whose GC content, tetranucleotide signature or coverage profile lies outside the genome's reference distribution.
- `compatible`: reports the scaffolds of interest that fall inside a genome's distribution on enough of those tests.
- `remove_outliers`: deletes the reported scaffolds from a bin.
- `add_compatible_unique` / `add_compatible_closest`: add reported scaffolds to a bin. The first adds a scaffold reported for this bin alone. The second adds a scaffold that is closest to this bin on GC, tetranucleotide and coverage distance alike.

**Windowing** (`WindowGen` in `refinem/singlegenome.py`) contains:

- `make_windows` and `type_convert`: cut one scaffold into windows of a given size and gap. A size or gap is either a number of bases or a proportion of the scaffold's length.
- `write_windows`: cuts every scaffold of a file into windows and names the window file.
- `write_links` / `tryopen`: append one link line per pair of consecutive windows of a scaffold to the links file.

The modules follow the program:

| module | file | contents |
|---|---|---|
| `Common` | `common.dfy` | `Option`, `Result`, Python dicts kept in iteration order (`Dict`, a sequence of pairs), `numpy.mean`, `list.count`, and `Flatten`, the "extend the rows, stop at the first exception" loop shape |
| `Text` | `text.dfy` | `str.split`, `str.strip`, `int(s)`, `str(n)`, `"".join`, `os.path.split` / `os.path.join` |
| `Classify` | `classify.dfy` | the per-pair tests shared by `identify` and `compatible`: the reference-table lookups, the coverage errors, the flags and the report rule |
| `Outliers` | `outliers.dfy` | the `identify` and `compatible` loops as methods, each proved equal to a specification function, plus lemmas about the report as a whole |
| `BinEdits` | `bin_edits.dfy` | `remove_outliers`, `add_compatible_unique` and `add_compatible_closest` over a bin held as a map from scaffold id to sequence |
| `Windows` | `windows.dfy` | `type_convert`, `make_windows` and `write_windows` |
| `Links` | `links.dfy` | `write_links` and `tryopen`, with the links file as the class `LinksFile`, whose content the methods append to |

Some of the source's behaviour is supplied from outside the model:

- **Numerical routines.** `find_nearest`, `genomic_signature.manhattan` and `scipy.stats.pearsonr` are function-valued fields of `Classify.Numerics`. Nothing is assumed about them.
- **Float parsing.** Python's `float(s)` is a parameter `parseFloat` of `type_convert`, `make_windows` and `add_compatible_closest`.
- **Files.** Files are values: a FASTA file is a sequence of (id, sequence) pairs, and a text file is a sequence of lines. Each line is what Python's iteration over a file yields, so it keeps its trailing `"\n"`; the `.strip()` calls of the source remove it.
- **Dict order.** Python 2 dict iteration order is taken to be the order of those sequences.

Arithmetic is on Dafny's `real`, without rounding. Where Python raises, the model returns `Err`. Where Python keeps executing with a special value, the model does the same: `-1` for `identify`'s mean coverage error when no sample is covered, and `None` for NumPy's `NaN`.

## Model

| member | source | states |
|---|---|---|
| Classify.ReportRule | refinem/outliers.py:310 | A row is printed only for report type `any` (one flag or more) or `all` (three or more flags). Any other report type prints nothing. `all` implies `any`, and no flag never prints. |
| Classify.LookupGenomeKeysCases | refinem/outliers.py:256-263 | The genome-level lookups raise KeyError exactly when the GC table has no entry at the nearest GC key. They raise IndexError exactly when a table indexed with `[0]` is empty. Otherwise the lower, upper and TD percentile keys are the nearest keys to (100 - gc_per)/2, (100 + gc_per)/2 and td_per. |
| Classify.LookupBoundsFound | refinem/outliers.py:266-274 | Each bound of a scaffold is a critical value stored under its percentile key in the genome's tables. The only error of the scaffold-level lookups is KeyError. |
| Classify.PercentErrorsNonNegative | refinem/outliers.py:294-297 | Every absolute percent coverage error is non-negative. |
| Classify.PercentErrorsNone | refinem/outliers.py:294-299 | At most one error per sample. There are none exactly when every sample of the genome has coverage below `min_required_coverage`. |
| Classify.CoverageErrors | refinem/outliers.py:294-297 | The `izip` loop collects exactly the percent errors of the samples whose genome coverage is at least 0.01, in sample order. |
| Classify.Measure | refinem/outliers.py:277-297 | A correlation is computed exactly when the genome has more than one coverage sample. The errors are those of `CoverageErrors`. |
| Classify.FlagsOfExact | refinem/outliers.py:281-307 | The flag list holds exactly the flags whose test holds, each once, always in the order GC, TD, COV_CORR, COV_PERC. Its length is the number of tests that hold. |
| Classify.OutlierFlagsExact | refinem/outliers.py:281-307 | `identify`'s flags: GC when delta_gc is outside [lower, upper], and TD when delta_td > td_bound. COV_CORR when there are at least two samples and r < cov_corr. COV_PERC when no sample is covered or when the mean error exceeds cov_perc. |
| Classify.CompatibleFlagsExact | refinem/outliers.py:408-428 | `compatible`'s flags: GC when delta_gc is inside [lower, upper], and TD when delta_td <= td_bound. COV_CORR when there are at least two samples and r >= cov_corr. COV_PERC when some sample is covered and the mean error is <= cov_perc. |
| Classify.FlagsMirror | refinem/outliers.py:408-428 | `compatible` flags exactly the GC and TD tests `identify` does not flag. It does the same for COV_CORR when a correlation is computed. It does the same for COV_PERC when some sample is covered. With no covered sample, `identify` flags COV_PERC and `compatible` does not. |
| Classify.SingleSampleNoCorrelation | refinem/outliers.py:288-292 | With one coverage sample or none, neither report carries COV_CORR. |
| Classify.UncoveredGenome | refinem/outliers.py:299-303 | When no sample of the genome reaches 0.01 coverage, `identify` flags COV_PERC and `compatible` does not. |
| Outliers.AsRowsExact | refinem/outliers.py:310-315 | A pair contributes a row to the report exactly when its assessment reports that row. |
| Outliers.Identify | refinem/outliers.py:245-315 | The genome loop of `identify` returns the specification report `OutlierReport`: the rows of every genome in order, or the first exception raised. |
| Outliers.IdentifyGenomes | refinem/outliers.py:245-315 | The genome loop extends the rows genome by genome and stops at the first genome that raises. |
| Outliers.IdentifyStep | refinem/outliers.py:245-315 | One pass of the genome loop adds that genome's rows, or its exception, to the result of the earlier passes. |
| Outliers.IdentifyGenome | refinem/outliers.py:256-315 | One genome's rows: KeyError for a genome without statistics, the genome-level lookup error, or the rows of its scaffolds in order. |
| Outliers.IdentifyScaffolds | refinem/outliers.py:265-315 | The scaffold loop of one genome extends the rows scaffold by scaffold and stops at the first scaffold that raises. |
| Outliers.IdentifyScaffoldStep | refinem/outliers.py:265-315 | One pass of the scaffold loop adds that scaffold's row, if any, or its exception. |
| Outliers.AssessOutlier | refinem/outliers.py:266-315 | A scaffold is assessed against its genome: a KeyError for missing statistics or bounds; otherwise the row with its flags when the report rule holds, and no row when it does not. |
| Outliers.OutlierTests | refinem/outliers.py:277-307 | The four tests compute `identify`'s flags, and the mean coverage error is -1 when no sample is covered. |
| Outliers.AppendFlags | refinem/outliers.py:281-307 | Appending the flag names test by test builds `FlagsOf` of the four outcomes. |
| Outliers.MeasureSignals | refinem/outliers.py:277-297 | The deltas, the correlation and the coverage errors are those of `Classify.Measure`. |
| Outliers.FlagsOfAppend | refinem/outliers.py:281-307 | Appending in test order builds the same list as the nested definition of `FlagsOf`. |
| Outliers.Compatible | refinem/outliers.py:373-437 | The scaffold loop of `compatible` returns the specification report `CompatibleReport`: for every scaffold of interest, its rows against every genome, or the first exception raised. |
| Outliers.CompatibleScaffolds | refinem/outliers.py:373-437 | The scaffold loop of `compatible` extends the rows scaffold by scaffold and stops at the first scaffold that raises. |
| Outliers.CompatibleStep | refinem/outliers.py:373-437 | One pass of the scaffold loop adds that scaffold's rows, or its exception. |
| Outliers.CompatibleScaffold | refinem/outliers.py:380-437 | A scaffold that is not of interest adds nothing. Any other scaffold adds its rows against each genome in order. |
| Outliers.CompatibleGenomes | refinem/outliers.py:383-437 | The genome loop of one scaffold of interest extends the rows genome by genome and stops at the first exception. |
| Outliers.CompatibleGenomeStep | refinem/outliers.py:383-437 | One pass of that genome loop adds the pair's row, if any, or its exception. |
| Outliers.AssessCompatible | refinem/outliers.py:387-437 | A scaffold of interest is assessed against a genome: a lookup error, a row carrying the scaffold's number of genes and its percentage of genes with homology when the report rule holds, or no row. |
| Outliers.CompatibleTests | refinem/outliers.py:404-428 | The four tests compute `compatible`'s flags, and the mean coverage error is the NumPy mean, `None` for no covered sample. |
| Outliers.PrintedGcBounds | refinem/outliers.py:282-283 | Test delta_gc = (gc - mean_gc)/100 against a table bound, or test gc against the printed bound mean_gc + bound*100: the outcome is the same. |
| Outliers.MeanErrorNonNegative | refinem/outliers.py:305 | The mean of covered-sample errors exists and is non-negative. |
| Outliers.ErrorsFacts | refinem/outliers.py:294-299 | The errors of a pair are non-negative. There are none exactly when no genome sample reaches 0.01 coverage. |
| Outliers.OutlierRowExplained | refinem/outliers.py:277-315 | Every `identify` row names its pair and passes the report rule, with its flags in order. GC is flagged iff the scaffold GC is outside the printed bounds, and TD iff the distance exceeds its bound. COV_CORR is flagged iff there are two samples or more and r is below cov_corr. COV_PERC is flagged iff the printed error is -1 or exceeds cov_perc, and -1 is printed iff no sample is covered. |
| Outliers.CompatibleRowExplained | refinem/outliers.py:404-437 | Every `compatible` row names its pair and carries the scaffold's genes, and it passes the report rule with flags in order. GC is flagged iff the scaffold GC is within the printed bounds, and TD iff the distance is within its bound. COV_CORR is flagged iff r >= cov_corr with two samples or more, and COV_PERC iff an error mean exists and is <= cov_perc. |
| Outliers.ScaffoldRowsOf | refinem/outliers.py:265-315 | A completed scaffold loop holds exactly the rows its scaffolds' assessments report. |
| Outliers.GenomeRowsExact | refinem/outliers.py:256-315 | A genome whose rows complete holds exactly the rows reported for one of its scaffolds. |
| Outliers.GenomeRowsOf | refinem/outliers.py:245-315 | A completed genome loop holds exactly the rows reported for some genome and one of its scaffolds. |
| Outliers.IdentifyRowsExact | refinem/outliers.py:245-315 | An `identify` report that completes holds a row exactly when some scaffold of some genome is assessed with that row. |
| Outliers.IdentifyRowsSound | refinem/outliers.py:245-315 | Every reported row names a genome of the input together with one of that genome's scaffolds. It passes the report rule with flags in order, and a report with rows has report type `any` or `all`. |
| Outliers.GenomeErrorOf | refinem/outliers.py:245-263 | The genome loop raises exactly the exception of the first genome that raises. |
| Outliers.IdentifyError | refinem/outliers.py:245-263 | `identify` raises an exception exactly when some genome raises it and every earlier genome completes. |
| Outliers.ScaffoldErrorOf | refinem/outliers.py:265-274 | The scaffold loop raises exactly the exception of the first scaffold that raises. |
| Outliers.GenomeOutliersError | refinem/outliers.py:256-274 | A genome without statistics raises KeyError, and a failed genome-level lookup raises its own error. Otherwise the genome raises exactly the first scaffold's error. |
| Outliers.PairOutlierError | refinem/outliers.py:266-274 | A pair raises exactly when the scaffold has no statistics or its bounds are missing, and it always raises KeyError. |
| Outliers.GenomeCompatibleRowsOf | refinem/outliers.py:383-437 | A completed genome loop for one scaffold holds exactly the rows its pairs' assessments report. |
| Outliers.ScaffoldRowsExact | refinem/outliers.py:380-437 | A scaffold whose rows complete holds exactly the rows reported for it and some genome. A scaffold not of interest holds none. |
| Outliers.CompatibleRowsOf | refinem/outliers.py:373-437 | A completed scaffold loop holds exactly the rows reported for some scaffold and some genome. |
| Outliers.CompatibleRowsExact | refinem/outliers.py:373-437 | A `compatible` report that completes holds a row exactly when some scaffold of interest is assessed against some genome with that row. |
| Outliers.CompatibleRowsSound | refinem/outliers.py:380-437 | Every reported row is for a scaffold of interest and carries that scaffold's genes. The scaffold and the genome both have statistics. It passes the report rule with flags in order. |
| Outliers.CompatibleErrorOf | refinem/outliers.py:373-401 | The scaffold loop raises exactly the exception of the first scaffold that raises. |
| Outliers.CompatibleError | refinem/outliers.py:373-401 | `compatible` raises an exception exactly when some scaffold raises it and every earlier one completes. A scaffold not of interest never raises. |
| Outliers.ScaffoldCompatibleError | refinem/outliers.py:383-401 | A scaffold of interest raises exactly the exception of its first genome that raises. |
| BinEdits.DataRows | refinem/outliers.py:63-66 | The rows read after `f.readline()` are the file's lines without the header. |
| BinEdits.RemoveOutliers | refinem/outliers.py:62-69 | After the loop, the bin is the original bin minus every first field of a data row. `pop(id, None)` ignores ids that are not in the bin. |
| BinEdits.RemovedExactly | refinem/outliers.py:62-69 | A scaffold stays in the bin exactly when it was there and no data row names it. A kept scaffold keeps its sequence. |
| BinEdits.AddSequences | refinem/outliers.py:114-117 | The addition loop builds `Admit` of the bin, the scaffold file and the compatible set. |
| BinEdits.AdmitExact | refinem/outliers.py:114-117 | After adding, a scaffold is in the bin exactly when it was there already or is compatible and in the scaffold file. Other entries are untouched. An added scaffold holds the sequence of its last record in the file. |
| BinEdits.ParseRowCases | refinem/outliers.py:101-103 | Indexing the split row at 1 raises IndexError exactly when the row has no tab. |
| BinEdits.ParsedSome | refinem/outliers.py:100-103 | Reading the compatibility file completes exactly when every data row has a tab. |
| BinEdits.ParsedEntries | refinem/outliers.py:100-106 | A completed read has one entry per row: the first field and the stripped second field. |
| BinEdits.BinIdsAdmit | refinem/outliers.py:106 | Filling `bin_ids` row by row keeps the last bin named for each scaffold, as adding every entry in order does. |
| BinEdits.UniqueAdmission | refinem/outliers.py:108-111 | A scaffold is compatible exactly when it occurs in exactly one row and that row names the current bin. |
| BinEdits.ReadCompatible | refinem/outliers.py:97-106 | The read loop stops with IndexError exactly when some row has no tab. Otherwise it returns the list of scaffold ids and the `bin_ids` dict of the rows. |
| BinEdits.UniqueSet | refinem/outliers.py:108-111 | The selection loop returns exactly the ids counted once in `scaffold_ids` whose bin is the current bin. |
| BinEdits.AddCompatibleUnique | refinem/outliers.py:92-117 | The edit fails with IndexError exactly when a data row has no tab. Otherwise the new bin is the old one with the scaffolds uniquely compatible with it added. |
| BinEdits.RunningBestCases | refinem/outliers.py:174-184 | Each running best starts at 1e9 and never lies above any distance seen. It stays without a bin exactly when no distance is below 1e9. Otherwise its bin and value are those of the first bin at which the distance is minimal. |
| BinEdits.ClosestWinner | refinem/outliers.py:174-184 | A metric's winner is bin b exactly when b is at the first minimum of that metric. |
| BinEdits.ClosestAdmitsExact | refinem/outliers.py:187-188 | A scaffold is compatible with the current bin exactly when that bin is at the first minimum of GC, TD and coverage distance alike. |
| BinEdits.ClosestAdmitsOnce | refinem/outliers.py:187-188 | A scaffold is admitted to at most one bin, and to none when its GC or TD winner differs from its coverage winner. |
| BinEdits.ClosestBins | refinem/outliers.py:174-184 | The inner loop computes the three running bests over all of a scaffold's bins. |
| BinEdits.ClosestSet | refinem/outliers.py:172-188 | The outer loop collects exactly the scaffolds whose three winners are all the current bin. |
| BinEdits.IndexOf | refinem/outliers.py:147-151 | `headers.index(x)` is the first position of x, and it fails exactly when x is not a column name. |
| BinEdits.FindColumns | refinem/outliers.py:146-151 | The five column positions are the first positions of "Scaffold GC", "Mean genome GC", "Scaffold TD", "Mean scaffold coverage" and "Mean genome coverage" in the stripped header. ValueError is raised exactly when one name is missing. |
| BinEdits.ParseCandidateCases | refinem/outliers.py:154-166 | A row reads exactly when it has a tab and each of the five fields exists and is a float. The result is then the scaffold id, the stripped bin id and the five values. IndexError comes from a missing field, ValueError from a rejected float. |
| BinEdits.RecordLookup | refinem/outliers.py:168 | `scaffold_ids[s][b] = stats` on the `defaultdict` sets that entry and leaves every other (scaffold, bin) entry as it was. |
| BinEdits.GatherLast | refinem/outliers.py:153-168 | After the row loop, bin b of scaffold s holds values c exactly when the last row naming s and b holds c. |
| BinEdits.GatherError | refinem/outliers.py:153-168 | The row loop completes exactly when every row reads. Otherwise it raises the exception of the first row that fails. |
| BinEdits.ClosestTableError | refinem/outliers.py:145-168 | Reading the report raises ValueError when a column name is missing, and otherwise exactly the exception of the first data row that fails. |
| BinEdits.ClosestTableLast | refinem/outliers.py:145-168 | A report that reads gives, for each scaffold and bin, the values of the last data row naming both. |
| BinEdits.ReadClosest | refinem/outliers.py:145-168 | The header lookup and the row loop compute `ClosestTable`, stopping at the first row that raises. |
| BinEdits.AddCompatibleClosest | refinem/outliers.py:141-194 | `add_compatible_closest` raises exactly the exception reading the report raises. Otherwise the new bin is the old one with the scaffolds closest to it on all three distances added. |
| Windows.TypeConvertCases | refinem/singlegenome.py:159-164 | `type_convert` gives an integer of bases exactly for a string that Python 2's `int` reads in base 10, and then that integer. It gives a proportion for any other float literal. A string that is neither raises ValueError. |
| Windows.TypeConvertSpacedSign | refinem/singlegenome.py:159-162 | A sign followed by whitespace and decimal digits converts to the signed value of the digits, as Python 2's `int` reads it: `"+ 100"` is 100 and `"- 5"` is -5. |
| Windows.TypeConvertIntString | refinem/singlegenome.py:159-162 | A decimal integer converts back to that number of bases. |
| Windows.ToParamCases | refinem/singlegenome.py:123-131 | TypeError is raised exactly for a size or gap that is neither an `int`, a float nor a string, and so for an integer beyond the 64-bit `int` range, which Python 2 holds as a `long`. An `int` is a number of bases, a float a proportion, and a failing string raises ValueError. |
| Windows.Truncate | refinem/singlegenome.py:139-146 | Python's `int()` on a float truncates toward zero. |
| Windows.Layout | refinem/singlegenome.py:133-150 | The stride is window size + gap. A zero stride is `range`'s ValueError. Otherwise the result is the window length and the stride. |
| Windows.Clamp | refinem/singlegenome.py:151 | A slice bound ends up within the sequence. |
| Windows.WindowIdRoundTrip | refinem/singlegenome.py:152 | A window id reads back as its parent id, start and end, whatever characters the parent id has. |
| Windows.ParseComposedId | refinem/singlegenome.py:152 | An id with digit offsets that read back as numbers parses to those numbers. |
| Windows.Slide | refinem/singlegenome.py:149-154 | The two lists `make_windows` returns have the same length. |
| Windows.MakeWindows | refinem/singlegenome.py:119-157 | `make_windows` returns the `Windowing` specification: the type checks and string conversions first, then the `try` block's type tests, which reject a `long`, then the windows. |
| Windows.CutWindows | refinem/singlegenome.py:133-154 | The `try` block raises TypeError for a size or gap that is a `long`, converts proportions against the sequence length and slides the windows. |
| Windows.SlideWindowsLoop | refinem/singlegenome.py:149-154 | The loop over `range(0, len, stride)` returns the windows at the kept starts. |
| Windows.SlideStep | refinem/singlegenome.py:150-153 | One pass keeps start i exactly when the window from i has at least 100 bases. |
| Windows.KeptStartsExact | refinem/singlegenome.py:150-151 | A start is kept exactly when it lies on the stride's grid below the length and its slice has at least 100 bases. |
| Windows.OnGridModulo | refinem/singlegenome.py:150 | A point is reached by `range(i, len, stride)` exactly when it is at or after i and the stride divides its distance from i. |
| Windows.KeptStartsIncreasing | refinem/singlegenome.py:150 | The kept starts increase strictly. |
| Windows.SlideNegativeLength | refinem/singlegenome.py:150-153 | With a negative window size ws, Python's negative slice bound counts from the end. A window is kept only from a start below -ws. It runs from that start to len + start + ws, and its id ends on the negative offset start + ws. |
| Windows.SliceFromStart | refinem/singlegenome.py:151-153 | A window is the sequence from its start to min(start + size, len), and it is never longer than the size. |
| Windows.SlideWindowSequence | refinem/singlegenome.py:150-153 | Every window starts on the grid inside the sequence, is that slice, and has between 100 and size bases. |
| Windows.SlideWindowId | refinem/singlegenome.py:152 | Every window id reads back as the parent id, the start and the clamped end. |
| Windows.SlideParents | refinem/singlegenome.py:152 | Every window id names its scaffold. |
| Windows.WindowingParents | refinem/singlegenome.py:119-157 | Every window id of a successful `make_windows` names its scaffold. |
| Windows.WindowingErrors | refinem/singlegenome.py:123-150 | A window size of another type, or a `long` one, is TypeError, checked before anything else. A `long` that a string converted to is TypeError once both arguments are converted. With `int`s and floats, `make_windows` fails exactly when size plus gap is zero bases. The parse error `ValueError`, as opposed to `range`'s error `ZeroStride`, only comes from a string argument. |
| Windows.LongLiteralSize | refinem/singlegenome.py:123-162 | A size string holding a decimal integer beyond `sys.maxint` converts to a `long`, and the `try` block raises TypeError for it. |
| Windows.ProportionalSize | refinem/singlegenome.py:142-146 | A proportion f of a scaffold of len bases gives n bases: for f >= 0, n is the whole part of f * len, so 0 <= n <= f * len < n + 1, and n <= len when f <= 1. For f < 0, n is f * len truncated toward zero, so n <= 0. |
| Windows.ProportionalSizeExamples | refinem/singlegenome.py:142-146 | Half of 1000 bases is 500, half of 2000 is 1000, and -0.25 of 10 is -2. |
| Windows.HundredBaseStarts | refinem/singlegenome.py:150-151 | With 100-base windows and no gap, there are len/100 windows of 100 bases each. The short tail is dropped. |
| Windows.FixedHundredBaseWindows | refinem/singlegenome.py:119-154 | `make_windows(.., 100, 0)` succeeds with len/100 windows of exactly 100 bases. |
| Windows.WindowFileNameWithExtension | refinem/singlegenome.py:55-58 | The window file keeps the extension and joins the stem's dot-separated parts before "windows.". |
| Windows.WindowFileNameWithoutDot | refinem/singlegenome.py:55-58 | A name without a dot becomes "windows." + name. |
| Windows.AddWindowsKeys | refinem/singlegenome.py:51-52 | Storing a scaffold's windows adds exactly their ids and keeps every other entry. |
| Windows.AddWindowsStored | refinem/singlegenome.py:51-52 | Each id stored holds the sequence of the last window with that id, as repeated assignments to `window_dict[id]` leave it. |
| Windows.AddWindowsDistinct | refinem/singlegenome.py:51-52 | With distinct ids, each window is stored under its own id. |
| Windows.SlideIdsDistinct | refinem/singlegenome.py:149-154 | The window ids of one scaffold are distinct. |
| Windows.WindowIdsDistinct | refinem/singlegenome.py:152 | Ids made at increasing starts are distinct. |
| Windows.WindowIdsParse | refinem/singlegenome.py:152 | The k-th id reads back as the parent, the k-th start and its clamped end. |
| Windows.StoreWindows | refinem/singlegenome.py:51-52 | The storing loop builds `AddWindows`. |
| Windows.MadeWindowsAt | refinem/singlegenome.py:48-49 | The result kept for each scaffold is `make_windows` on it. |
| Windows.MadeWindowsShaped | refinem/singlegenome.py:48-49 | Every successful result has as many sequences as ids. |
| Windows.MadeWindowsParented | refinem/singlegenome.py:48-49 | Every id of a successful result names its scaffold. |
| Windows.CollectWindows | refinem/singlegenome.py:48-52 | The scaffold loop builds the `Collected` specification. |
| Windows.GatherWindows | refinem/singlegenome.py:48-52 | The scaffold loop returns the dicts gathered from the results of `make_windows`, scaffold by scaffold, or the first exception raised. |
| Windows.CollectStep | refinem/singlegenome.py:48-52 | One pass adds a scaffold's window list under its id and stores its windows, or stops at its exception. |
| Windows.GatherErrorSticks | refinem/singlegenome.py:48-49 | Once a scaffold raises, the whole loop ends with that exception. |
| Windows.GatherErrors | refinem/singlegenome.py:48-49 | The loop fails exactly when some scaffold's `make_windows` fails. |
| Windows.GatherFirstError | refinem/singlegenome.py:48-49 | The loop's exception is that of a scaffold. |
| Windows.GatherAllOk | refinem/singlegenome.py:48-52 | A completed loop had every scaffold succeed. |
| Windows.GatherContents | refinem/singlegenome.py:48-52 | A completed loop holds one window list per distinct scaffold id, and every window stored comes from some scaffold. Every window id made for any scaffold is stored, including those of an earlier record whose scaffold id repeats, since the window dict is never cleared. |
| Windows.CollectedContents | refinem/singlegenome.py:48-52 | The same, stated about the scaffolds of the input file. |
| Windows.LinkedWindowsShareParent | refinem/singlegenome.py:48-69 | Two linked windows are consecutive windows of one scaffold. Both are stored and both ids name that scaffold. |
| Windows.WriteWindows | refinem/singlegenome.py:34-70 | `write_windows` raises exactly the first scaffold's exception and then leaves the links file untouched. Otherwise it returns the window file path (in the output directory) and the links file path `output_dir/links_file.tsv`. The model also returns the records written to the window file, as a map from window id to window sequence. The links file then holds its old text (or nothing, for a new file) followed by the link lines. |
| Links.LinkPairsCount | refinem/singlegenome.py:193-195 | A scaffold with k windows contributes max(0, k - 1) links. |
| Links.LinkPairsExact | refinem/singlegenome.py:193-195 | Every link joins two consecutive windows of one scaffold, and every two consecutive windows are linked. |
| Links.LinkPairsSound | refinem/singlegenome.py:193-195 | Every link line joins windows i and i + 1 of some scaffold. |
| Links.LinkPairsComplete | refinem/singlegenome.py:193-195 | Windows i and i + 1 of every scaffold are linked. |
| Links.RenderAppend | refinem/singlegenome.py:195 | The text of two runs of lines is the text of the first followed by that of the second. |
| Links.RenderNextScaffold | refinem/singlegenome.py:193-195 | One more scaffold appends that scaffold's link text. |
| Links.RenderConsecutiveStep | refinem/singlegenome.py:194-195 | One more pair appends one `"{0}\t{1}\n"` line. |
| Links.LinksFile.constructor | refinem/singlegenome.py:214-215 | A file that does not exist has no content. |
| Links.LinksFile.TryOpen | refinem/singlegenome.py:214-220 | `tryopen` creates a missing file empty and keeps an existing file's content. |
| Links.LinksFile.AppendConsecutive | refinem/singlegenome.py:194-195 | The inner loop appends one line per consecutive pair of a scaffold's windows. |
| Links.LinksFile.AppendScaffold | refinem/singlegenome.py:193-195 | One outer pass appends the links of one more scaffold. |
| Links.LinksFile.WriteLinks | refinem/singlegenome.py:189-197 | `write_links` returns True, and the file holds its old content (empty if it was new) followed by every link line, in dict order. An existing file's content is a prefix of the new one. |

## Left out

- File and FASTA input and output (`seq_io.read`, `read_seq`, `write_fasta`, `open`), the report header lines, and the `%.2f` / `%.3f` formatting of numbers. Files are values and reports are rows of numbers.
- Progress messages, `print` and logging: they have no effect on results.
- Floating point. Arithmetic is exact on `real`, so rounding, overflow, infinities and NaN are not modelled.
- `compatible`'s NumPy `NaN` for a pair with no covered sample: it is `None`, and `None <= cov_perc` is false, as NaN comparisons are.
- `find_nearest`, `genomic_signature.manhattan` and `pearsonr`: these are computed elsewhere and are parameters of the model. Nothing is assumed about them.
- Python's `float(s)`: a parameter of `type_convert` and `add_compatible_closest`. `int(s)` is modelled as Python 2 reads a string in base 10: surrounding whitespace, an optional sign, optional whitespace after the sign, and decimal digits.
- `remove_extension`: the current bin id `cur` is a parameter of `add_compatible_unique` and `add_compatible_closest`.
- Python 2 dict iteration order is not known. It is taken to be the order of the input sequences, and insertion order for the dicts the source builds. Bins and the window dict are maps, so the order of the written FASTA records is not modelled.
- `tryopen`'s IOError and its bare `except`, and the write errors of `write_links`: the file system is assumed to accept every write.
- `create_html_index`, `_read_distribution`, the command-line front end and the rest of the repository: they are not part of this model.
- Exceptions end the loop that raised them. The model returns the first `Err` and does not track partially written output.
- Python 2's `int` range is taken to be that of a 64-bit build (`sys.maxint` is 2^63 - 1); on a 32-bit build the `long` boundary is lower.
- `print len(window_dict)` and the unused local `names`/`formats`/`index` variables of `write_windows` and `write_links`.
