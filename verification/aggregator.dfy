/**
 The yearly aggregation run: for every product of the list, in list order,
 and every year from 1979 to the current year, ascending, make sure the
 product's yearly directory exists, decide the pair with the refresh rule,
 and, when the decision is to aggregate, write the yearly file.

 The filesystem is reduced to two sets of paths: the directories and the
 yearly files that exist. Reading and concatenating the source files is
 the opaque `Aggregate` decision; its only effect modelled here is that the
 yearly file exists afterwards. The state is threaded through the loop in
 visiting order, so a file written for one pair is seen by every later pair.
 */
module Aggregator {
  import opened Calendar
  import opened Paths
  import opened Refresh

  /** First year of the satellite record; the year loop starts here. */
  const FirstYear: nat := 1979

  /** The products the script aggregates, in the order it visits them. */
  const ProductList: seq<string> := ["NSIDC_0081", "NSIDC_0079", "NSIDC_0051"]

  /**
   The configuration the run reads once: the base observation directory,
   and for each product the directory that holds its source files.
   */
  datatype Config = Config(dataDir: string, sources: map<string, string>)

  datatype FileSystem = FileSystem(dirs: set<string>, outputs: set<string>)

  /** One visited (product, year) pair, its yearly file and what was decided for it. */
  datatype Step = Step(product: string, year: nat, output: string, decision: Decision)

  /** The steps of a run in visiting order, and the filesystem it leaves. */
  datatype Trace = Trace(steps: seq<Step>, fs: FileSystem)

  /** The sorted listing of the files a glob pattern matches, at the time of the run. */
  type Glob = string -> seq<string>

  /** Every product to visit has a source directory in the configuration. */
  predicate Configured(cfg: Config, products: seq<string>) {
    forall p :: p in products ==> p in cfg.sources
  }

  /** The years `lo`, `lo + 1`, ..., `hi`, ascending; empty when `hi < lo`. */
  function Range(lo: nat, hi: int): (ys: seq<nat>)
    ensures |ys| == if hi < lo then 0 else hi - lo + 1
    ensures forall i :: 0 <= i < |ys| ==> ys[i] == lo + i
    decreases hi - lo
  {
    if hi < lo then [] else [lo] + Range(lo + 1, hi)
  }

  /** The years visited in a run whose current year is `cy`. */
  function Years(cy: int): seq<nat> {
    Range(FirstYear, cy)
  }

  /** The source files of a pair: the listing of its glob pattern. */
  function Files(cfg: Config, glob: Glob, product: string, year: nat): seq<string>
    requires product in cfg.sources
  {
    glob(SourcePattern(cfg.sources[product], year))
  }

  /** Decide one pair against the yearly files in `outputs`. */
  function Visit(cfg: Config, now: Date, glob: Glob, product: string, year: nat, outputs: set<string>): Step
    requires product in cfg.sources
  {
    var out := OutputPath(cfg.dataDir, product, year);
    Step(product, year, out, Decide(out in outputs, year, now.year, FirstFive(now), Files(cfg, glob, product, year)))
  }

  /** The effect of a step: an aggregated pair's yearly file exists afterwards. */
  function Apply(fs: FileSystem, s: Step): FileSystem {
    if s.decision.Aggregate? then fs.(outputs := fs.outputs + {s.output}) else fs
  }

  /** The inner loop: one product over `years`, in order. */
  function RunYears(cfg: Config, now: Date, glob: Glob, product: string, years: seq<nat>, fs: FileSystem): Trace
    requires product in cfg.sources
    decreases |years|
  {
    if |years| == 0 then Trace([], fs)
    else
      var fs1 := fs.(dirs := fs.dirs + {OutDir(cfg.dataDir, product)});
      var s := Visit(cfg, now, glob, product, years[0], fs1.outputs);
      var rest := RunYears(cfg, now, glob, product, years[1..], Apply(fs1, s));
      Trace([s] + rest.steps, rest.fs)
  }

  /** The outer loop: each product in list order, each over all of `years`. */
  function RunProducts(cfg: Config, now: Date, glob: Glob, products: seq<string>, years: seq<nat>, fs: FileSystem): Trace
    requires Configured(cfg, products)
    decreases |products|
  {
    if |products| == 0 then Trace([], fs)
    else
      var t := RunYears(cfg, now, glob, products[0], years, fs);
      var rest := RunProducts(cfg, now, glob, products[1..], years, t.fs);
      Trace(t.steps + rest.steps, rest.fs)
  }

  /** One run of the script on date `now`. */
  function Run(cfg: Config, now: Date, glob: Glob, fs: FileSystem): Trace
    requires Configured(cfg, ProductList)
  {
    RunProducts(cfg, now, glob, ProductList, Years(now.year), fs)
  }
}
