/**
 The refresh rule for one (product, year) pair: whether its yearly file is
 left alone or rebuilt from the matching source files. A yearly file that
 exists is final once its year is older than the previous year, and the
 previous year's file is final once the January grace window has passed;
 the current year's file is never final. A pair with no source files is
 never written.
 */
module Refresh {
  import opened Calendar

  datatype Decision =
    /** The yearly file exists and its year is older than the previous year. */
    | SkipDone
    /** The previous year's file exists and the grace window is over. */
    | SkipNotGrace
    /** No source file matches the year's pattern. */
    | SkipNoFiles
    /** Concatenate `sources` along time and write (or overwrite) the yearly file. */
    | Aggregate(sources: seq<string>)

  /**
   The decision for a pair whose yearly file is `present` or missing, for
   `year` in a run whose current year is `cy`, given the grace flag and the
   sorted list of matching source files. The guards are taken
   in the order the script takes them: the two existence guards first, then
   the empty-listing check.
   */
  function Decide(present: bool, year: int, cy: int, firstfive: bool, files: seq<string>): (r: Decision)
    // a year older than the previous one is final once written, whatever the date or the files
    ensures present && year < cy - 1 ==> r == SkipDone
    // the previous year is final once written, except inside the grace window
    ensures present && year == cy - 1 && !firstfive ==> r == SkipNotGrace
    ensures present && year == cy - 1 && firstfive ==> r != SkipNotGrace && r != SkipDone
    // a missing yearly file, or the current year, only waits for source files
    ensures !present || year >= cy ==> r == (if |files| == 0 then SkipNoFiles else Aggregate(files))
    // closed form of the rule: rebuilt exactly when files match and the output is not final
    ensures r.Aggregate? <==> |files| > 0 && (!present || year >= cy || (year == cy - 1 && firstfive))
    ensures r.Aggregate? ==> r.sources == files
    ensures r == SkipNoFiles <==> |files| == 0 && (!present || year >= cy || (year == cy - 1 && firstfive))
  {
    if present && year < cy - 1 then SkipDone
    else if present && year == cy - 1 && !firstfive then SkipNotGrace
    else if |files| == 0 then SkipNoFiles
    else Aggregate(files)
  }

  /**
   The four boundary scenarios of the rule, with the grace flag computed
   from the run date: January 3 rebuilds last year's existing file, January
   10 keeps it, a year five back is kept on any date, and a year with no
   source files is never written.
   */
  lemma BoundaryScenarios(cy: int, now: Date, files: seq<string>)
    requires 1 <= cy <= 9999
    requires |files| > 0
    ensures Decide(true, cy - 1, cy, FirstFive(Date(cy, 1, 3)), files) == Aggregate(files)
    ensures Decide(true, cy - 1, cy, FirstFive(Date(cy, 1, 10)), files) == SkipNotGrace
    ensures Decide(true, cy - 1, cy, FirstFive(Date(cy, 1, 5)), files) == Aggregate(files)
    ensures Decide(true, cy - 1, cy, FirstFive(Date(cy, 1, 6)), files) == SkipNotGrace
    ensures Decide(true, cy - 5, cy, FirstFive(now), files) == SkipDone
    ensures Decide(true, cy - 2, cy, FirstFive(now), files) == SkipDone
    ensures Decide(true, cy, cy, FirstFive(now), files) == Aggregate(files)
    ensures forall e: bool, y: int :: !Decide(e, y, cy, FirstFive(now), []).Aggregate?
  {
  }
}
