# Yearly aggregation of NSIDC sea-ice observations: the refresh rule

This project models the yearly aggregation script of the ESIO / SIPN2
sea-ice tooling (`notebooks/Agg_NSIDC_Obs.py`). The script walks the
products `NSIDC_0081`, `NSIDC_0079` and `NSIDC_0051`, in that order. For
each product it walks the years from 1979 to the current year. For every
(product, year) pair it either leaves the yearly file
`<data_dir>/<product>/sipn_nc_yearly/<year>.nc` alone or rebuilds it from
the source files that match `<sipn_nc>/*_<year>*.nc`.

What is modelled:

- `Calendar`: the run date and the `firstfive` grace flag (January, day before the 6th).
- `Refresh`: the per-pair decision. A `Decision` is `SkipDone`, `SkipNotGrace`,
  `SkipNoFiles` or `Aggregate(sources)`. The two existence guards are taken
  in the script's order, then the empty-listing check.
- `Decimal`: `str(year)`, and its inverse for the round trip.
- `Paths`: POSIX `os.path.join`, the yearly directory, the yearly file path
  and the glob pattern, all as string operations.
- `Aggregator`: the configuration (data directory, product to source
  directory), the filesystem as two sets of paths (directories, yearly
  files), and the two nested loops as recursive functions. The loops thread
  the filesystem through the visiting order. A file written for one pair is
  therefore seen by every later pair, as in the script.
- `RunProofs` and `Guarantees`: what a run guarantees. The results in
  `RunProofs`, and `FinalOutputs`, `FinalFilesKept` and `Rerun`, hold for
  any product list and year list. The results about visiting order and
  about decisions taken against the starting files (`VisitOrder`,
  `OneStepPerFile`, `RunYearsAgainstStart`, `DecidedAgainstStart`) need
  distinct products that are single path components, and strictly
  ascending years. A list that names a product twice would see its own
  write the second time. `ProductListWellFormed` and `YearsOfRun` show that
  the script's own product list and year range meet these conditions, so
  the `Script…` lemmas hold for every configuration that gives the three
  products a source directory.

Inputs that the script obtains from its environment are parameters here:

- the date (`datetime.now()`);
- the configuration (`EsioData.load()`);
- the glob listing: a function from pattern to the sorted list of matching files;
- the set of existing directories and yearly files.

Two details of the script that the model keeps:

- The yearly directory is created for every visited year before any guard
  runs (lines 79-81). So a pair with no source files still causes
  `sipn_nc_yearly` to exist. Only the yearly file is never created for it.
- The grace flag is computed once per run from the run date (lines 46-53),
  and every pair is decided with that one value.

## Model

| member | source | states |
|---|---|---|
| Calendar.FirstFive | notebooks/Agg_NSIDC_Obs.py:51-53 | the grace flag of a date; no ensures of its own, stated by Calendar.FirstFiveOnValidDates and Calendar.GraceWindowIsFiveDays |
| Calendar.FirstFiveOnValidDates | notebooks/Agg_NSIDC_Obs.py:46-53 | on any real date the grace flag holds exactly on January 1 to 5; January 6 does not raise it |
| Calendar.GraceWindowIsFiveDays | notebooks/Agg_NSIDC_Obs.py:51-53 | in every year 1..9999 the set of dates raising the flag is exactly January 1-5, five dates |
| Refresh.Decide | notebooks/Agg_NSIDC_Obs.py:84-96 | an existing file of a year before the previous one is skipped whatever the date or files; the previous year's existing file is skipped outside the grace window and goes on inside it; a missing file or the current year only waits for source files; closed form: aggregated iff some file matches and the output is missing, or the year is current, or it is the previous year inside the grace window; no files never aggregates |
| Refresh.BoundaryScenarios | notebooks/Agg_NSIDC_Obs.py:84-96 | Jan 3 and Jan 5 rebuild last year's existing file, Jan 6 and Jan 10 keep it; years two or five back are kept on any date; the current year is rebuilt; an empty listing never aggregates |
| Decimal.DecimalString | notebooks/Agg_NSIDC_Obs.py:77 | the rendering of a year is a non-empty digit string with no leading zero, one digit exactly for values below ten |
| Decimal.DecimalRoundTrip | notebooks/Agg_NSIDC_Obs.py:77 | reading back the rendering of a year gives the year |
| Decimal.DecimalParseRoundTrip | notebooks/Agg_NSIDC_Obs.py:77 | rendering the value of a canonical numeral gives the numeral back |
| Decimal.DecimalStringInjective | notebooks/Agg_NSIDC_Obs.py:77 | two years render to the same string iff they are equal |
| Paths.Join | notebooks/Agg_NSIDC_Obs.py:79-83 | two-part `os.path.join`; no ensures of its own, stated by Paths.JoinSemantics |
| Paths.OutDir | notebooks/Agg_NSIDC_Obs.py:79 | the product's yearly directory; no ensures of its own, stated by Paths.OutDirLayout |
| Paths.OutputPath | notebooks/Agg_NSIDC_Obs.py:83 | the yearly file of a pair; no ensures of its own, stated by Paths.OutputPathInOutDir, Paths.OutputPathLayout and Paths.OutputPathInjective |
| Paths.SourcePattern | notebooks/Agg_NSIDC_Obs.py:93 | the glob pattern of a year; no ensures of its own, stated by Paths.SourcePatternInjective |
| Paths.JoinSemantics | notebooks/Agg_NSIDC_Obs.py:79 | join keeps an absolute second part alone, otherwise starts with the first part, ends with the second and puts exactly one separator between them (none after an empty or separator-ended first part) |
| Paths.OutDirLayout | notebooks/Agg_NSIDC_Obs.py:79 | for a plain product name the yearly directory is the data directory, the product and `sipn_nc_yearly`, separator-joined |
| Paths.OutputPathInOutDir | notebooks/Agg_NSIDC_Obs.py:79-83 | every yearly file lies directly in its product's yearly directory and is named `<year>.nc` |
| Paths.OutputPathLayout | notebooks/Agg_NSIDC_Obs.py:79-83 | for a plain product name the yearly file is `<data_dir>/<product>/sipn_nc_yearly/<year>.nc` |
| Paths.OutputPathYearInjective | notebooks/Agg_NSIDC_Obs.py:83 | within a product, two years share a yearly file iff they are equal |
| Paths.OutputPathInjective | notebooks/Agg_NSIDC_Obs.py:79-83 | for plain product names, two (product, year) pairs share a yearly file iff they are the same pair |
| Paths.SourcePatternInjective | notebooks/Agg_NSIDC_Obs.py:93 | for one source directory, two years query the same glob pattern iff they are equal |
| Aggregator.Range | notebooks/Agg_NSIDC_Obs.py:74 | the year range holds `hi - lo + 1` years (none when `hi < lo`), the i-th being `lo + i` |
| Aggregator.Years | notebooks/Agg_NSIDC_Obs.py:74 | the years of a run, 1979 to the current year; no ensures of its own, stated by Guarantees.YearsOfRun |
| Aggregator.ProductList | notebooks/Agg_NSIDC_Obs.py:68 | the three products in script order; stated by Guarantees.ProductListWellFormed |
| Aggregator.Files | notebooks/Agg_NSIDC_Obs.py:93 | the sorted listing of a pair's pattern; no ensures of its own, its use stated by RunProofs.RunProductsFromRule |
| Aggregator.Visit | notebooks/Agg_NSIDC_Obs.py:79-96 | one pair decided against a set of yearly files; no ensures of its own, stated by RunProofs.RunYearsSeesExisting and Guarantees.DecidedAgainstStart |
| Aggregator.Apply | notebooks/Agg_NSIDC_Obs.py:97-101 | an aggregated pair's yearly file exists afterwards; no ensures of its own, stated by RunProofs.RunYearsEffects |
| Aggregator.RunYears | notebooks/Agg_NSIDC_Obs.py:74-102 | the inner loop; no ensures of its own, stated by the RunProofs.RunYears… lemmas and Guarantees.RunYearsAgainstStart |
| Aggregator.RunProducts | notebooks/Agg_NSIDC_Obs.py:71-106 | the outer loop; no ensures of its own, stated by the RunProofs.RunProducts… lemmas, Guarantees.FinalOutputs, Guarantees.DecidedAgainstStart and Guarantees.Rerun |
| Aggregator.Run | notebooks/Agg_NSIDC_Obs.py:46-106 | one script run; no ensures of its own, stated by the Guarantees.Script… lemmas |
| RunProofs.RunYearsShape | notebooks/Agg_NSIDC_Obs.py:74-83 | the inner loop takes one step per year, in the given order, each naming its own yearly file |
| RunProofs.RunYearsEffects | notebooks/Agg_NSIDC_Obs.py:79-101 | the inner loop adds exactly the files of its aggregated steps and, when it visits a year, the product's yearly directory |
| RunProofs.RunYearsSeesExisting | notebooks/Agg_NSIDC_Obs.py:84-90 | a yearly file existing before the inner loop is decided as existing |
| RunProofs.RunYearsCovers | notebooks/Agg_NSIDC_Obs.py:84-101 | after the inner loop every visited year with source files has its yearly file |
| RunProofs.RunProductsLength | notebooks/Agg_NSIDC_Obs.py:68-74 | a run takes `|products| * |years|` steps |
| RunProofs.RunProductsSteps | notebooks/Agg_NSIDC_Obs.py:71-83 | every step's product and year come from the lists, and it names that pair's yearly file |
| RunProofs.RunProductsFromRule | notebooks/Agg_NSIDC_Obs.py:84-96 | every step's decision is the refresh rule applied to its own pair and its own source listing |
| RunProofs.RunProductsCoversGrid | notebooks/Agg_NSIDC_Obs.py:68-74 | the pairs visited are exactly the product list crossed with the year list |
| RunProofs.RunProductsEffects | notebooks/Agg_NSIDC_Obs.py:97-101 | the files after a run are the files before plus those of the aggregated steps |
| RunProofs.RunProductsDirs | notebooks/Agg_NSIDC_Obs.py:79-81 | a run adds the yearly directory of every product, unless there is no year to visit |
| RunProofs.RunProductsSeesExisting | notebooks/Agg_NSIDC_Obs.py:84-90 | a yearly file existing before the run is decided as existing by every step naming it |
| RunProofs.RunProductsCovers | notebooks/Agg_NSIDC_Obs.py:84-101 | after a run every visited pair with source files has its yearly file |
| Guarantees.FinalOutputs | notebooks/Agg_NSIDC_Obs.py:84-101 | the files after a run are exactly the files before plus the file of every pair with at least one source file: nothing for pairs without files, nothing deleted |
| Guarantees.FinalFilesKept | notebooks/Agg_NSIDC_Obs.py:84-90 | an existing file of a year before the previous one is skipped as done, and the previous year's is skipped outside the grace window, whatever else the run writes |
| Guarantees.VisitOrder | notebooks/Agg_NSIDC_Obs.py:68-74 | with distinct products and ascending years, any earlier step has an earlier product or the same product and an earlier year |
| Guarantees.OneStepPerFile | notebooks/Agg_NSIDC_Obs.py:79-101 | with distinct plain products and ascending years, no pair is visited twice and no two steps target the same yearly file |
| Guarantees.RunYearsAgainstStart | notebooks/Agg_NSIDC_Obs.py:74-101 | within a product, for strictly ascending years, every year is decided as against the files before the loop |
| Guarantees.DecidedAgainstStart | notebooks/Agg_NSIDC_Obs.py:71-101 | with distinct plain products and ascending years, writes made by the run never change a later decision: each step equals the decision taken against the files at the start |
| Guarantees.Rerun | notebooks/Agg_NSIDC_Obs.py:84-101 | a second run with the same date and listings leaves the same directories and files, and rewrites only the current year, plus the previous year inside the grace window |
| Guarantees.ProductListWellFormed | notebooks/Agg_NSIDC_Obs.py:68 | the script's three products are distinct single path components |
| Guarantees.YearsOfRun | notebooks/Agg_NSIDC_Obs.py:74 | the year loop is strictly ascending and holds exactly the years 1979 to the current year |
| Guarantees.ScriptVisitsEveryPair | notebooks/Agg_NSIDC_Obs.py:68-74 | one script run takes three steps per year and visits exactly the pairs of its products with 1979..current year |
| Guarantees.ScriptVisitOrder | notebooks/Agg_NSIDC_Obs.py:68-74 | one script run visits products in list order, years ascending within a product |
| Guarantees.ScriptOneStepPerFile | notebooks/Agg_NSIDC_Obs.py:79-83 | no two steps of one script run target the same yearly file |
| Guarantees.ScriptDecidesAgainstStart | notebooks/Agg_NSIDC_Obs.py:84-96 | every decision of one script run is the one taken against the files that existed at its start |
| Guarantees.ScriptEffects | notebooks/Agg_NSIDC_Obs.py:79-101 | one script run leaves the files it found plus one per pair with source files, and the three yearly directories when a year is visited |

## Left out

- Reading the matched files, concatenating them along `time` and writing NetCDF (`xr.open_mfdataset`, `to_netcdf`, lines 97-101) are external library calls. They are the opaque `Aggregate` decision. Its only modelled effect is that the yearly file exists afterwards.
- Parallel reads through dask (lines 31, 98) happen inside the reading library.
- Glob matching and `sorted` (line 93) are filesystem queries. The listing is a parameter: a function from a pattern to the sorted list of matches. It is one fixed function for the whole run. That is sound for the run's own writes. A yearly file is named `<year>.nc` and has no underscore, so it never matches `*_<year>*.nc`. So no write of the run changes a listing. Source files that arrive while the script runs are not modelled.
- `EsioData.load()`, `obs_dir` and `obs[product]['sipn_nc']` (lines 61-62, 93) are external configuration. They are a `Config` value. A product missing from it would raise `KeyError` after the existence guards. The precondition `Configured` excludes that case.
- `datetime.now()` (line 46) is the `now` parameter.
- The model assumes every read or write succeeds. In the script, a failure aborts the whole run; that is not modelled.
- `os.makedirs` also creates missing parent directories. The model records only the yearly directory itself.
- Progress `print`s, the unused `UpdateAll` flag (line 65) and `ds_year = None` (line 112) have no effect on the outcome.
- Guarantees.Rerun: states that the set of directories and yearly files is unchanged after a second run, not that file contents are byte-identical, because file contents are not modelled.
- Concurrent runs of the script against the same directories are not modelled.
