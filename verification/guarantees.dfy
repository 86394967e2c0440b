/**
 What a run guarantees: the yearly files afterwards are exactly the ones
 that existed plus one for every pair with source files; a final yearly
 file is never rewritten; and running again changes no set of files and
 rewrites only the recent years. These hold for any product list and year
 list. For distinct single-component products and strictly ascending
 years, moreover, every pair is visited once, in product-list order and
 ascending years, and each decision is the one taken against the
 filesystem as it was when the run started. The script's own products and
 years meet those conditions, so the last group of lemmas states every
 guarantee for one run of the script.
 */
module Guarantees {
  import opened Calendar
  import opened Decimal
  import opened Paths
  import opened Refresh
  import opened Aggregator
  import opened RunProofs

  /**
   After a run the yearly files are exactly the ones that existed before,
   plus the yearly file of every pair that has at least one source file:
   nothing is written for a pair without source files, and nothing is
   ever deleted.
   */
  lemma FinalOutputs(cfg: Config, now: Date, glob: Glob, products: seq<string>, years: seq<nat>, fs: FileSystem)
    requires Configured(cfg, products)
    ensures RunProducts(cfg, now, glob, products, years, fs).fs.outputs
            == fs.outputs + Matched(cfg, glob, products, years)
  {
    var t := RunProducts(cfg, now, glob, products, years, fs);
    RunProductsEffects(cfg, now, glob, products, years, fs);
    RunProductsSteps(cfg, now, glob, products, years, fs);
    RunProductsFromRule(cfg, now, glob, products, years, fs);
    RunProductsCovers(cfg, now, glob, products, years, fs);
    RunProductsCoversGrid(cfg, now, glob, products, years, fs);
    forall o | o in Written(t.steps)
      ensures o in Matched(cfg, glob, products, years)
    {
      var s :| s in t.steps && s.decision.Aggregate? && s.output == o;
      assert FromRule(cfg, now, glob, s);
    }
    forall o | o in Matched(cfg, glob, products, years)
      ensures o in t.fs.outputs
    {
      var p, y :| p in products && y in years && |Files(cfg, glob, p, y)| > 0 && o == OutputPath(cfg.dataDir, p, y);
      assert (p, y) in Grid(products, years);
      var s :| s in t.steps && (s.product, s.year) == (p, y);
    }
  }

  /**
   A yearly file that existed before the run and counts as final is never
   rewritten: a year older than the previous one is skipped as done,
   whatever its source files, and the previous year is skipped once the
   grace window is over.
   */
  lemma FinalFilesKept(cfg: Config, now: Date, glob: Glob, products: seq<string>, years: seq<nat>, fs: FileSystem)
    requires Configured(cfg, products)
    ensures var t := RunProducts(cfg, now, glob, products, years, fs);
      forall s :: s in t.steps && s.output in fs.outputs ==>
        && (s.year < now.year - 1 ==> s.decision == SkipDone)
        && (s.year == now.year - 1 && !FirstFive(now) ==> s.decision == SkipNotGrace)
  {
    RunProductsSeesExisting(cfg, now, glob, products, years, fs);
  }

  /**
   With a list of distinct products and ascending years, the run visits the
   pairs product by product in list order, and within a product by
   ascending year; in particular no pair is visited twice.
   */
  lemma {:induction false} VisitOrder(cfg: Config, now: Date, glob: Glob, products: seq<string>, years: seq<nat>, fs: FileSystem)
    requires Configured(cfg, products)
    requires Distinct(products)
    requires StrictlyIncreasing(years)
    ensures var t := RunProducts(cfg, now, glob, products, years, fs);
      && (forall s :: s in t.steps ==> s.product in products)
      && (forall i, j :: 0 <= i < j < |t.steps| ==> Precedes(products, t.steps[i], t.steps[j]))
    decreases |products|
  {
    var all := RunProducts(cfg, now, glob, products, years, fs);
    RunProductsSteps(cfg, now, glob, products, years, fs);
    if |products| > 0 {
      var p := products[0];
      var t := RunYears(cfg, now, glob, p, years, fs);
      var rest := RunProducts(cfg, now, glob, products[1..], years, t.fs);
      RunYearsShape(cfg, now, glob, p, years, fs);
      RunProductsSteps(cfg, now, glob, products[1..], years, t.fs);
      VisitOrder(cfg, now, glob, products[1..], years, t.fs);
      assert all.steps == t.steps + rest.steps;
      assert IndexOf(products, p) == 0;
      forall q | q in products[1..]
        ensures q != p && IndexOf(products, q) == 1 + IndexOf(products[1..], q)
      {
        var k :| 0 <= k < |products[1..]| && products[1..][k] == q;
        assert products[k + 1] == q;
      }
      forall i, j | 0 <= i < j < |all.steps|
        ensures Precedes(products, all.steps[i], all.steps[j])
      {
        if j < |years| {
          assert all.steps[i] == t.steps[i] && all.steps[j] == t.steps[j];
        } else if i < |years| {
          assert all.steps[i] == t.steps[i];
          assert all.steps[j] == rest.steps[j - |years|];
          assert rest.steps[j - |years|] in rest.steps;
        } else {
          assert all.steps[i] == rest.steps[i - |years|];
          assert all.steps[j] == rest.steps[j - |years|];
          assert rest.steps[i - |years|] in rest.steps;
          assert rest.steps[j - |years|] in rest.steps;
          assert Precedes(products[1..], rest.steps[i - |years|], rest.steps[j - |years|]);
        }
      }
    }
  }

  /**
   With distinct, plain product names and ascending years, no two steps of
   a run name the same yearly file, so at most one write targets each path.
   */
  lemma OneStepPerFile(cfg: Config, now: Date, glob: Glob, products: seq<string>, years: seq<nat>, fs: FileSystem)
    requires Configured(cfg, products)
    requires Distinct(products) && forall p :: p in products ==> PlainName(p)
    requires StrictlyIncreasing(years)
    ensures var t := RunProducts(cfg, now, glob, products, years, fs);
      && (forall i, j :: 0 <= i < j < |t.steps| ==>
            (t.steps[i].product, t.steps[i].year) != (t.steps[j].product, t.steps[j].year))
      && DistinctOutputs(t.steps)
  {
    var t := RunProducts(cfg, now, glob, products, years, fs);
    VisitOrder(cfg, now, glob, products, years, fs);
    RunProductsSteps(cfg, now, glob, products, years, fs);
    forall i, j | 0 <= i < j < |t.steps|
      ensures (t.steps[i].product, t.steps[i].year) != (t.steps[j].product, t.steps[j].year)
      ensures t.steps[i].output != t.steps[j].output
    {
      assert t.steps[i] in t.steps && t.steps[j] in t.steps;
      EarlierStepWritesElsewhere(cfg.dataDir, products, t.steps[i], t.steps[j]);
    }
  }

  /** A step visited before another names a different pair, hence (for plain names) a different file. */
  lemma EarlierStepWritesElsewhere(dataDir: string, products: seq<string>, a: Step, b: Step)
    requires a.product in products && b.product in products
    requires PlainName(a.product) && PlainName(b.product)
    requires a.output == OutputPath(dataDir, a.product, a.year)
    requires b.output == OutputPath(dataDir, b.product, b.year)
    requires Precedes(products, a, b)
    ensures (a.product, a.year) != (b.product, b.year)
    ensures a.output != b.output
  {
    OutputPathInjective(dataDir, a.product, a.year, b.product, b.year);
  }

  /** Adding yearly files for other paths does not change how a pair is decided. */
  lemma VisitFrame(cfg: Config, now: Date, glob: Glob, product: string, year: nat, a: set<string>, b: set<string>)
    requires product in cfg.sources
    requires OutputPath(cfg.dataDir, product, year) !in b
    ensures Visit(cfg, now, glob, product, year, a + b) == Visit(cfg, now, glob, product, year, a)
  {
  }

  /** Writing one year's file does not change how another year of the same product is decided. */
  lemma VisitAfterOtherYear(cfg: Config, now: Date, glob: Glob, product: string, y0: nat, y: nat, outputs: set<string>)
    requires product in cfg.sources
    requires y0 != y
    ensures var s0 := Visit(cfg, now, glob, product, y0, outputs);
      Visit(cfg, now, glob, product, y, outputs + (if s0.decision.Aggregate? then {s0.output} else {}))
      == Visit(cfg, now, glob, product, y, outputs)
  {
    OutputPathYearInjective(cfg.dataDir, product, y0, y);
  }

  /** Within one product, each step is decided as if against the filesystem before the loop. */
  lemma {:induction false} RunYearsAgainstStart(cfg: Config, now: Date, glob: Glob, product: string, years: seq<nat>, fs: FileSystem)
    requires product in cfg.sources
    requires StrictlyIncreasing(years)
    ensures forall s :: s in RunYears(cfg, now, glob, product, years, fs).steps ==>
      s == Visit(cfg, now, glob, product, s.year, fs.outputs)
    decreases |years|
  {
    if |years| > 0 {
      var fs1 := fs.(dirs := fs.dirs + {OutDir(cfg.dataDir, product)});
      var s0 := Visit(cfg, now, glob, product, years[0], fs1.outputs);
      var fs2 := Apply(fs1, s0);
      var rest := RunYears(cfg, now, glob, product, years[1..], fs2);
      RunYearsAgainstStart(cfg, now, glob, product, years[1..], fs2);
      RunYearsShape(cfg, now, glob, product, years[1..], fs2);
      assert fs2.outputs == fs.outputs + (if s0.decision.Aggregate? then {s0.output} else {});
      forall s | s in rest.steps
        ensures s == Visit(cfg, now, glob, product, s.year, fs.outputs)
      {
        var k :| 0 <= k < |rest.steps| && rest.steps[k] == s;
        assert s.year == years[k + 1] && years[0] < years[k + 1];
        VisitAfterOtherYear(cfg, now, glob, product, years[0], s.year, fs.outputs);
      }
    }
  }

  /**
   With distinct, plain product names and ascending years, every decision of
   the run is the one taken against the yearly files that existed when the
   run started: what the run itself writes never changes a later decision.
   */
  lemma {:induction false} DecidedAgainstStart(cfg: Config, now: Date, glob: Glob, products: seq<string>, years: seq<nat>, fs: FileSystem)
    requires Configured(cfg, products)
    requires Distinct(products) && forall p :: p in products ==> PlainName(p)
    requires StrictlyIncreasing(years)
    ensures forall s :: s in RunProducts(cfg, now, glob, products, years, fs).steps ==>
      s.product in cfg.sources && s == Visit(cfg, now, glob, s.product, s.year, fs.outputs)
    decreases |products|
  {
    RunProductsSteps(cfg, now, glob, products, years, fs);
    if |products| > 0 {
      var p := products[0];
      var t := RunYears(cfg, now, glob, p, years, fs);
      var rest := RunProducts(cfg, now, glob, products[1..], years, t.fs);
      assert Distinct(products[1..]);
      RunYearsAgainstStart(cfg, now, glob, p, years, fs);
      RunYearsShape(cfg, now, glob, p, years, fs);
      RunYearsEffects(cfg, now, glob, p, years, fs);
      DecidedAgainstStart(cfg, now, glob, products[1..], years, t.fs);
      RunProductsSteps(cfg, now, glob, products[1..], years, t.fs);
      forall s | s in rest.steps
        ensures s == Visit(cfg, now, glob, s.product, s.year, fs.outputs)
      {
        assert s.product in products[1..];
        var k :| 1 <= k < |products| && products[k] == s.product;
        assert s.product != p;
        forall o | o in Written(t.steps)
          ensures o != OutputPath(cfg.dataDir, s.product, s.year)
        {
          var w :| w in t.steps && w.decision.Aggregate? && w.output == o;
          var i :| 0 <= i < |t.steps| && t.steps[i] == w;
          OutputPathInjective(cfg.dataDir, p, w.year, s.product, s.year);
        }
        VisitFrame(cfg, now, glob, s.product, s.year, fs.outputs, Written(t.steps));
      }
    }
  }

  /**
   Running again with the same date and the same source files leaves the
   same directories and yearly files, and rewrites only the current year
   (and the previous year inside the grace window).
   */
  lemma Rerun(cfg: Config, now: Date, glob: Glob, products: seq<string>, years: seq<nat>, fs: FileSystem)
    requires Configured(cfg, products)
    ensures var t1 := RunProducts(cfg, now, glob, products, years, fs);
      var t2 := RunProducts(cfg, now, glob, products, years, t1.fs);
      && t2.fs == t1.fs
      && forall s :: s in t2.steps && s.decision.Aggregate? ==>
           s.year >= now.year || (s.year == now.year - 1 && FirstFive(now))
  {
    var t1 := RunProducts(cfg, now, glob, products, years, fs);
    var t2 := RunProducts(cfg, now, glob, products, years, t1.fs);
    FinalOutputs(cfg, now, glob, products, years, fs);
    FinalOutputs(cfg, now, glob, products, years, t1.fs);
    RunProductsDirs(cfg, now, glob, products, years, fs);
    RunProductsDirs(cfg, now, glob, products, years, t1.fs);
    RunProductsSteps(cfg, now, glob, products, years, t1.fs);
    RunProductsFromRule(cfg, now, glob, products, years, t1.fs);
    RunProductsSeesExisting(cfg, now, glob, products, years, t1.fs);
    forall s | s in t2.steps && s.decision.Aggregate?
      ensures s.year >= now.year || (s.year == now.year - 1 && FirstFive(now))
    {
      assert FromRule(cfg, now, glob, s);
      assert |Files(cfg, glob, s.product, s.year)| > 0;
      assert s.output in Matched(cfg, glob, products, years);
    }
  }

  /** The script's product list names three distinct directories. */
  lemma ProductListWellFormed()
    ensures Distinct(ProductList)
    ensures forall p :: p in ProductList ==> PlainName(p)
  {
  }

  /** The year loop runs from 1979 up to the current year, ascending. */
  lemma YearsOfRun(cy: int)
    ensures StrictlyIncreasing(Years(cy))
    ensures forall y :: y in Years(cy) <==> FirstYear <= y <= cy
  {
    var ys := Years(cy);
    forall y | FirstYear <= y <= cy
      ensures y in ys
    {
      assert ys[y - FirstYear] == y;
    }
  }

  /**
   One run of the script visits every product of the list with every year
   from 1979 to the current year, and nothing else: three steps per year.
   */
  lemma ScriptVisitsEveryPair(cfg: Config, now: Date, glob: Glob, fs: FileSystem)
    requires Configured(cfg, ProductList)
    ensures var t := Run(cfg, now, glob, fs);
      && |t.steps| == |ProductList| * (if now.year < FirstYear then 0 else now.year - FirstYear + 1)
      && forall p, y :: (p, y) in PairsOf(t.steps) <==> p in ProductList && FirstYear <= y <= now.year
  {
    var ys := Years(now.year);
    var t := RunProducts(cfg, now, glob, ProductList, ys, fs);
    assert Run(cfg, now, glob, fs) == t;
    YearsOfRun(now.year);
    RunProductsLength(cfg, now, glob, ProductList, ys, fs);
    RunProductsCoversGrid(cfg, now, glob, ProductList, ys, fs);
    forall p, y
      ensures (p, y) in PairsOf(t.steps) <==> p in ProductList && FirstYear <= y <= now.year
    {
      assert (p, y) in Grid(ProductList, ys) <==> p in ProductList && y in ys;
    }
  }

  /** One run of the script visits the pairs in list order and, within a product, by ascending year. */
  lemma ScriptVisitOrder(cfg: Config, now: Date, glob: Glob, fs: FileSystem)
    requires Configured(cfg, ProductList)
    ensures var t := Run(cfg, now, glob, fs);
      && (forall s :: s in t.steps ==> s.product in ProductList)
      && (forall i, j :: 0 <= i < j < |t.steps| ==> Precedes(ProductList, t.steps[i], t.steps[j]))
  {
    var ys := Years(now.year);
    var t := RunProducts(cfg, now, glob, ProductList, ys, fs);
    assert Run(cfg, now, glob, fs) == t;
    ProductListWellFormed();
    YearsOfRun(now.year);
    VisitOrder(cfg, now, glob, ProductList, ys, fs);
    forall i, j | 0 <= i < j < |t.steps|
      ensures Precedes(ProductList, t.steps[i], t.steps[j])
    {
    }
  }

  /** No two steps of one run of the script name the same yearly file. */
  lemma ScriptOneStepPerFile(cfg: Config, now: Date, glob: Glob, fs: FileSystem)
    requires Configured(cfg, ProductList)
    ensures DistinctOutputs(Run(cfg, now, glob, fs).steps)
  {
    var ys := Years(now.year);
    var t := RunProducts(cfg, now, glob, ProductList, ys, fs);
    assert Run(cfg, now, glob, fs) == t;
    ProductListWellFormed();
    YearsOfRun(now.year);
    OneStepPerFile(cfg, now, glob, ProductList, ys, fs);
  }

  /** Every decision of one run of the script is taken against the yearly files that existed at its start. */
  lemma ScriptDecidesAgainstStart(cfg: Config, now: Date, glob: Glob, fs: FileSystem)
    requires Configured(cfg, ProductList)
    ensures var t := Run(cfg, now, glob, fs);
      forall s :: s in t.steps ==> s.product in cfg.sources && s == Visit(cfg, now, glob, s.product, s.year, fs.outputs)
  {
    var ys := Years(now.year);
    var t := RunProducts(cfg, now, glob, ProductList, ys, fs);
    assert Run(cfg, now, glob, fs) == t;
    ProductListWellFormed();
    YearsOfRun(now.year);
    DecidedAgainstStart(cfg, now, glob, ProductList, ys, fs);
  }

  /**
   What one run of the script leaves behind: the yearly files that existed
   plus one for every pair with source files, and the yearly directory of
   every product when at least one year is visited.
   */
  lemma ScriptEffects(cfg: Config, now: Date, glob: Glob, fs: FileSystem)
    requires Configured(cfg, ProductList)
    ensures var t := Run(cfg, now, glob, fs);
      && t.fs.outputs == fs.outputs + Matched(cfg, glob, ProductList, Years(now.year))
      && t.fs.dirs == fs.dirs + (if now.year < FirstYear then {} else set p | p in ProductList :: OutDir(cfg.dataDir, p))
  {
    var ys := Years(now.year);
    var t := RunProducts(cfg, now, glob, ProductList, ys, fs);
    assert Run(cfg, now, glob, fs) == t;
    FinalOutputs(cfg, now, glob, ProductList, ys, fs);
    RunProductsDirs(cfg, now, glob, ProductList, ys, fs);
  }
}
