/**
 The shape and effects of the two loops, for any product list and year
 list: one step per (product, year) pair of the grid, each naming its own
 yearly file and decided by the refresh rule on its own listing; the
 yearly files afterwards are the ones that existed plus those of the
 aggregated steps; the yearly directories are added; and a yearly file
 that existed before is seen as existing by every step naming it. None of
 these lemmas assumes anything about the lists. The module also defines
 the list conditions (distinct products, strictly ascending years) and the
 visiting order that the guarantees about order and about decisions taken
 against the starting files are stated with.
 */
module RunProofs {
  import opened Calendar
  import opened Paths
  import opened Refresh
  import opened Aggregator

  /** The products are pairwise different. */
  predicate Distinct(ps: seq<string>) {
    forall i, j :: 0 <= i < j < |ps| ==> ps[i] != ps[j]
  }

  /** The years ascend strictly. */
  predicate StrictlyIncreasing(ys: seq<nat>) {
    forall i, j :: 0 <= i < j < |ys| ==> ys[i] < ys[j]
  }

  /** Position of the first occurrence of `p` in `ps`. */
  function IndexOf(ps: seq<string>, p: string): (k: nat)
    requires p in ps
    ensures k < |ps| && ps[k] == p
    ensures forall j :: 0 <= j < k ==> ps[j] != p
  {
    if ps[0] == p then 0 else 1 + IndexOf(ps[1..], p)
  }

  /** `a` is visited before `b`: an earlier product, or the same product and an earlier year. */
  predicate Precedes(ps: seq<string>, a: Step, b: Step)
    requires a.product in ps && b.product in ps
  {
    IndexOf(ps, a.product) < IndexOf(ps, b.product) || (a.product == b.product && a.year < b.year)
  }

  /** No two steps name the same yearly file. */
  predicate DistinctOutputs(steps: seq<Step>) {
    forall i, j :: 0 <= i < j < |steps| ==> steps[i].output != steps[j].output
  }

  /** The step's decision is the refresh rule applied to its pair, with the yearly file present or not. */
  predicate FromRule(cfg: Config, now: Date, glob: Glob, s: Step) {
    && s.product in cfg.sources
    && (|| s.decision == Decide(true, s.year, now.year, FirstFive(now), Files(cfg, glob, s.product, s.year))
        || s.decision == Decide(false, s.year, now.year, FirstFive(now), Files(cfg, glob, s.product, s.year)))
  }

  ghost function Written(steps: seq<Step>): set<string> {
    set s | s in steps && s.decision.Aggregate? :: s.output
  }

  ghost function PairsOf(steps: seq<Step>): set<(string, nat)> {
    set s | s in steps :: (s.product, s.year)
  }

  ghost function Grid(products: seq<string>, years: seq<nat>): set<(string, nat)> {
    set p, y | p in products && y in years :: (p, y)
  }

  /** The yearly files of every pair of the grid that has at least one source file. */
  ghost function Matched(cfg: Config, glob: Glob, products: seq<string>, years: seq<nat>): set<string>
    requires Configured(cfg, products)
  {
    set p, y | p in products && y in years && |Files(cfg, glob, p, y)| > 0 :: OutputPath(cfg.dataDir, p, y)
  }

  ghost function OutDirs(cfg: Config, products: seq<string>, years: seq<nat>): set<string> {
    if |years| == 0 then {} else set p | p in products :: OutDir(cfg.dataDir, p)
  }

  lemma WrittenConcat(a: seq<Step>, b: seq<Step>)
    ensures Written(a + b) == Written(a) + Written(b)
  {
  }

  // ---------------------------------------------------------------------
  // The inner loop
  // ---------------------------------------------------------------------

  /** The inner loop takes one step per year. */
  lemma {:induction false} RunYearsLength(cfg: Config, now: Date, glob: Glob, product: string, years: seq<nat>, fs: FileSystem)
    requires product in cfg.sources
    ensures |RunYears(cfg, now, glob, product, years, fs).steps| == |years|
    decreases |years|
  {
    if |years| > 0 {
      var fs1 := fs.(dirs := fs.dirs + {OutDir(cfg.dataDir, product)});
      var s := Visit(cfg, now, glob, product, years[0], fs1.outputs);
      RunYearsLength(cfg, now, glob, product, years[1..], Apply(fs1, s));
    }
  }

  /** The inner loop visits `years` in order, each step naming its own yearly file. */
  lemma {:induction false} RunYearsShape(cfg: Config, now: Date, glob: Glob, product: string, years: seq<nat>, fs: FileSystem)
    requires product in cfg.sources
    ensures var t := RunYears(cfg, now, glob, product, years, fs);
      && |t.steps| == |years|
      && forall i :: 0 <= i < |years| ==>
           && t.steps[i].product == product
           && t.steps[i].year == years[i]
           && t.steps[i].output == OutputPath(cfg.dataDir, product, years[i])
    decreases |years|
  {
    if |years| > 0 {
      var fs1 := fs.(dirs := fs.dirs + {OutDir(cfg.dataDir, product)});
      var s := Visit(cfg, now, glob, product, years[0], fs1.outputs);
      RunYearsShape(cfg, now, glob, product, years[1..], Apply(fs1, s));
    }
  }

  /** Every step of the inner loop applies the refresh rule to its own pair. */
  lemma {:induction false} RunYearsFromRule(cfg: Config, now: Date, glob: Glob, product: string, years: seq<nat>, fs: FileSystem)
    requires product in cfg.sources
    ensures forall s :: s in RunYears(cfg, now, glob, product, years, fs).steps ==> FromRule(cfg, now, glob, s)
    decreases |years|
  {
    if |years| > 0 {
      var fs1 := fs.(dirs := fs.dirs + {OutDir(cfg.dataDir, product)});
      var s := Visit(cfg, now, glob, product, years[0], fs1.outputs);
      RunYearsFromRule(cfg, now, glob, product, years[1..], Apply(fs1, s));
    }
  }

  /** The inner loop creates the product's yearly directory and writes exactly its aggregated files. */
  lemma {:induction false} RunYearsEffects(cfg: Config, now: Date, glob: Glob, product: string, years: seq<nat>, fs: FileSystem)
    requires product in cfg.sources
    ensures var t := RunYears(cfg, now, glob, product, years, fs);
      && t.fs.outputs == fs.outputs + Written(t.steps)
      && t.fs.dirs == fs.dirs + (if |years| == 0 then {} else {OutDir(cfg.dataDir, product)})
    decreases |years|
  {
    if |years| > 0 {
      var fs1 := fs.(dirs := fs.dirs + {OutDir(cfg.dataDir, product)});
      var s := Visit(cfg, now, glob, product, years[0], fs1.outputs);
      var rest := RunYears(cfg, now, glob, product, years[1..], Apply(fs1, s));
      RunYearsEffects(cfg, now, glob, product, years[1..], Apply(fs1, s));
      WrittenConcat([s], rest.steps);
    }
  }

  /** A yearly file that existed before the inner loop is seen as existing by its step. */
  lemma {:induction false} RunYearsSeesExisting(cfg: Config, now: Date, glob: Glob, product: string, years: seq<nat>, fs: FileSystem)
    requires product in cfg.sources
    ensures var t := RunYears(cfg, now, glob, product, years, fs);
      forall s :: s in t.steps && s.output in fs.outputs ==>
        s.decision == Decide(true, s.year, now.year, FirstFive(now), Files(cfg, glob, product, s.year))
    decreases |years|
  {
    if |years| > 0 {
      var fs1 := fs.(dirs := fs.dirs + {OutDir(cfg.dataDir, product)});
      var s := Visit(cfg, now, glob, product, years[0], fs1.outputs);
      RunYearsSeesExisting(cfg, now, glob, product, years[1..], Apply(fs1, s));
      RunYearsShape(cfg, now, glob, product, years, fs);
    }
  }

  /** After the inner loop, every visited pair with source files has its yearly file. */
  lemma {:induction false} RunYearsCovers(cfg: Config, now: Date, glob: Glob, product: string, years: seq<nat>, fs: FileSystem)
    requires product in cfg.sources
    ensures var t := RunYears(cfg, now, glob, product, years, fs);
      forall s :: s in t.steps && |Files(cfg, glob, product, s.year)| > 0 ==> s.output in t.fs.outputs
    decreases |years|
  {
    if |years| > 0 {
      var fs1 := fs.(dirs := fs.dirs + {OutDir(cfg.dataDir, product)});
      var s := Visit(cfg, now, glob, product, years[0], fs1.outputs);
      var rest := RunYears(cfg, now, glob, product, years[1..], Apply(fs1, s));
      RunYearsCovers(cfg, now, glob, product, years[1..], Apply(fs1, s));
      RunYearsEffects(cfg, now, glob, product, years[1..], Apply(fs1, s));
      assert fs1.outputs <= Apply(fs1, s).outputs <= rest.fs.outputs;
      if |Files(cfg, glob, product, s.year)| > 0 {
        // either the step writes its file, or the file already counts as final
        assert s.output in Apply(fs1, s).outputs;
      }
    }
  }

  // ---------------------------------------------------------------------
  // The outer loop
  // ---------------------------------------------------------------------

  /** The run takes one step per pair of the product list and the year list. */
  lemma {:induction false} RunProductsLength(cfg: Config, now: Date, glob: Glob, products: seq<string>, years: seq<nat>, fs: FileSystem)
    requires Configured(cfg, products)
    ensures |RunProducts(cfg, now, glob, products, years, fs).steps| == |products| * |years|
    decreases |products|
  {
    if |products| > 0 {
      var t := RunYears(cfg, now, glob, products[0], years, fs);
      var rest := RunProducts(cfg, now, glob, products[1..], years, t.fs);
      assert RunProducts(cfg, now, glob, products, years, fs).steps == t.steps + rest.steps;
      RunYearsLength(cfg, now, glob, products[0], years, fs);
      RunProductsLength(cfg, now, glob, products[1..], years, t.fs);
      MulSucc(|products| - 1, |years|);
    }
  }

  /** Every step is a pair of the grid and names that pair's yearly file. */
  lemma {:induction false} RunProductsSteps(cfg: Config, now: Date, glob: Glob, products: seq<string>, years: seq<nat>, fs: FileSystem)
    requires Configured(cfg, products)
    ensures forall s :: s in RunProducts(cfg, now, glob, products, years, fs).steps ==>
      && s.product in products
      && s.year in years
      && s.output == OutputPath(cfg.dataDir, s.product, s.year)
    decreases |products|
  {
    if |products| > 0 {
      var p := products[0];
      var t := RunYears(cfg, now, glob, p, years, fs);
      RunYearsShape(cfg, now, glob, p, years, fs);
      RunProductsSteps(cfg, now, glob, products[1..], years, t.fs);
      forall s | s in t.steps
        ensures s.product == p && s.year in years
      {
        var i :| 0 <= i < |t.steps| && t.steps[i] == s;
      }
    }
  }

  /** Every step of the run applies the refresh rule to its own pair. */
  lemma {:induction false} RunProductsFromRule(cfg: Config, now: Date, glob: Glob, products: seq<string>, years: seq<nat>, fs: FileSystem)
    requires Configured(cfg, products)
    ensures forall s :: s in RunProducts(cfg, now, glob, products, years, fs).steps ==> FromRule(cfg, now, glob, s)
    decreases |products|
  {
    if |products| > 0 {
      var t := RunYears(cfg, now, glob, products[0], years, fs);
      RunYearsFromRule(cfg, now, glob, products[0], years, fs);
      RunProductsFromRule(cfg, now, glob, products[1..], years, t.fs);
    }
  }

  /** The run visits every (product, year) pair of the grid and nothing else. */
  lemma {:induction false} RunProductsCoversGrid(cfg: Config, now: Date, glob: Glob, products: seq<string>, years: seq<nat>, fs: FileSystem)
    requires Configured(cfg, products)
    ensures PairsOf(RunProducts(cfg, now, glob, products, years, fs).steps) == Grid(products, years)
    decreases |products|
  {
    var all := RunProducts(cfg, now, glob, products, years, fs);
    RunProductsSteps(cfg, now, glob, products, years, fs);
    if |products| > 0 {
      var p := products[0];
      var t := RunYears(cfg, now, glob, p, years, fs);
      var rest := RunProducts(cfg, now, glob, products[1..], years, t.fs);
      RunYearsShape(cfg, now, glob, p, years, fs);
      RunProductsCoversGrid(cfg, now, glob, products[1..], years, t.fs);
      assert all.steps == t.steps + rest.steps;
      forall q | q in Grid(products, years)
        ensures q in PairsOf(all.steps)
      {
        var pp, y :| pp in products && y in years && q == (pp, y);
        if pp == p {
          var i :| 0 <= i < |years| && years[i] == y;
          assert t.steps[i] in all.steps;
        } else {
          assert pp in products[1..];
          assert q in Grid(products[1..], years);
          assert q in PairsOf(rest.steps);
        }
      }
    } else {
      assert Grid(products, years) == {};
    }
  }

  lemma MulSucc(a: nat, b: nat)
    ensures (a + 1) * b == b + a * b
  {
  }

  /** The run writes exactly the yearly files of its aggregated steps. */
  lemma {:induction false} RunProductsEffects(cfg: Config, now: Date, glob: Glob, products: seq<string>, years: seq<nat>, fs: FileSystem)
    requires Configured(cfg, products)
    ensures var t := RunProducts(cfg, now, glob, products, years, fs);
      t.fs.outputs == fs.outputs + Written(t.steps)
    decreases |products|
  {
    if |products| > 0 {
      var p := products[0];
      var t := RunYears(cfg, now, glob, p, years, fs);
      var rest := RunProducts(cfg, now, glob, products[1..], years, t.fs);
      RunYearsEffects(cfg, now, glob, p, years, fs);
      RunProductsEffects(cfg, now, glob, products[1..], years, t.fs);
      WrittenConcat(t.steps, rest.steps);
    }
  }

  /** The run creates the yearly directory of every product, unless there is no year to visit. */
  lemma {:induction false} RunProductsDirs(cfg: Config, now: Date, glob: Glob, products: seq<string>, years: seq<nat>, fs: FileSystem)
    requires Configured(cfg, products)
    ensures var t := RunProducts(cfg, now, glob, products, years, fs);
      t.fs.dirs == fs.dirs + OutDirs(cfg, products, years)
    decreases |products|
  {
    if |products| > 0 {
      var p := products[0];
      var t := RunYears(cfg, now, glob, p, years, fs);
      RunYearsEffects(cfg, now, glob, p, years, fs);
      RunProductsDirs(cfg, now, glob, products[1..], years, t.fs);
      if |years| > 0 {
        assert OutDirs(cfg, products, years) == {OutDir(cfg.dataDir, p)} + OutDirs(cfg, products[1..], years);
      }
    }
  }

  /** A yearly file that existed before the run is seen as existing by every step that names it. */
  lemma {:induction false} RunProductsSeesExisting(cfg: Config, now: Date, glob: Glob, products: seq<string>, years: seq<nat>, fs: FileSystem)
    requires Configured(cfg, products)
    ensures var t := RunProducts(cfg, now, glob, products, years, fs);
      forall s :: s in t.steps && s.output in fs.outputs ==>
        s.product in cfg.sources &&
        s.decision == Decide(true, s.year, now.year, FirstFive(now), Files(cfg, glob, s.product, s.year))
    decreases |products|
  {
    if |products| > 0 {
      var p := products[0];
      var t := RunYears(cfg, now, glob, p, years, fs);
      RunYearsShape(cfg, now, glob, p, years, fs);
      RunYearsEffects(cfg, now, glob, p, years, fs);
      RunYearsSeesExisting(cfg, now, glob, p, years, fs);
      RunProductsSeesExisting(cfg, now, glob, products[1..], years, t.fs);
      RunProductsSteps(cfg, now, glob, products[1..], years, t.fs);
      forall s | s in t.steps
        ensures s.product == p
      {
        var i :| 0 <= i < |t.steps| && t.steps[i] == s;
      }
    }
  }

  /** After the run, every visited pair with source files has its yearly file. */
  lemma {:induction false} RunProductsCovers(cfg: Config, now: Date, glob: Glob, products: seq<string>, years: seq<nat>, fs: FileSystem)
    requires Configured(cfg, products)
    ensures var t := RunProducts(cfg, now, glob, products, years, fs);
      forall s :: s in t.steps ==>
        s.product in cfg.sources &&
        (|Files(cfg, glob, s.product, s.year)| > 0 ==> s.output in t.fs.outputs)
    decreases |products|
  {
    if |products| > 0 {
      var p := products[0];
      var t := RunYears(cfg, now, glob, p, years, fs);
      var rest := RunProducts(cfg, now, glob, products[1..], years, t.fs);
      RunYearsShape(cfg, now, glob, p, years, fs);
      RunYearsCovers(cfg, now, glob, p, years, fs);
      RunProductsCovers(cfg, now, glob, products[1..], years, t.fs);
      RunProductsEffects(cfg, now, glob, products[1..], years, t.fs);
      RunProductsSteps(cfg, now, glob, products[1..], years, t.fs);
      forall s | s in t.steps
        ensures s.product == p
      {
        var i :| 0 <= i < |t.steps| && t.steps[i] == s;
      }
    }
  }
}
