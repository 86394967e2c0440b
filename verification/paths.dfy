/**
 The two strings the aggregator builds for each (product, year) pair: the
 yearly output file `<data_dir>/<product>/sipn_nc_yearly/<year>.nc`, put
 together with POSIX `os.path.join`, and the source glob pattern (the
 product's source directory, a separator, then the file-name pattern
 star, underscore, year, star, `.nc`), put together by plain concatenation.
 */
module Paths {
  import opened Decimal

  const Sep: char := '/'

  /** Name of the per-product directory that holds the yearly files. */
  const YearlyDir: string := "sipn_nc_yearly"

  const OutputSuffix: string := ".nc"

  predicate StartsWithSep(s: string) {
    |s| > 0 && s[0] == Sep
  }

  predicate EndsWithSep(s: string) {
    |s| > 0 && s[|s| - 1] == Sep
  }

  /** A single path component: non-empty and free of separators. */
  predicate PlainName(s: string) {
    |s| > 0 && Sep !in s
  }

  /** What `os.path.join(a, ...)` puts in front of a relative component. */
  function DirPrefix(a: string): string {
    if a == [] || EndsWithSep(a) then a else a + [Sep]
  }

  /** POSIX `os.path.join(a, b)` for two components. */
  function Join(a: string, b: string): string {
    if StartsWithSep(b) then b
    else if a == [] || EndsWithSep(a) then a + b
    else a + [Sep] + b
  }

  /**
   What joining means: an absolute `b` discards `a`; otherwise the result
   starts with `a`, ends with `b`, and has exactly one separator between
   them, none when `a` is empty or already ends in a separator.
   */
  lemma JoinSemantics(a: string, b: string)
    ensures var r := Join(a, b);
      && |r| >= |b| && r[|r| - |b|..] == b
      && (StartsWithSep(b) ==> r == b)
      && (!StartsWithSep(b) ==> |r| >= |a| && r[..|a|] == a)
      && (!StartsWithSep(b) ==> |r| == |a| + |b| + (if a == [] || EndsWithSep(a) then 0 else 1))
      && (!StartsWithSep(b) && a != [] ==> r[|r| - |b| - 1] == Sep)
  {
  }

  /** `os.path.join(data_dir, product, 'sipn_nc_yearly')`. */
  function OutDir(dataDir: string, product: string): string {
    Join(Join(dataDir, product), YearlyDir)
  }

  /** `os.path.join(out_dir, str(year) + '.nc')`. */
  function OutputPath(dataDir: string, product: string, year: nat): string {
    Join(OutDir(dataDir, product), DecimalString(year) + OutputSuffix)
  }

  /** The glob pattern: the source directory, then the year between wildcards. */
  function SourcePattern(sourceDir: string, year: nat): string {
    sourceDir + "/*_" + DecimalString(year) + "*.nc"
  }

  /** Every yearly file sits directly inside its product's yearly directory. */
  lemma OutputPathInOutDir(dataDir: string, product: string, year: nat)
    ensures OutputPath(dataDir, product, year)
            == OutDir(dataDir, product) + [Sep] + DecimalString(year) + OutputSuffix
  {
    var d := Join(dataDir, product);
    var o := OutDir(dataDir, product);
    assert o[|o| - |YearlyDir|..] == YearlyDir;
    assert o != [] && !EndsWithSep(o);
    var name := DecimalString(year) + OutputSuffix;
    assert name[0] == DecimalString(year)[0];
  }

  /** The part of an output path after the product component. */
  function YearlyFile(year: nat): string {
    YearlyDir + [Sep] + DecimalString(year) + OutputSuffix
  }

  /** Joining a plain name onto a directory gives a path that does not end in a separator. */
  lemma JoinPlainName(a: string, name: string)
    requires PlainName(name)
    ensures Join(a, name) == DirPrefix(a) + name
    ensures !EndsWithSep(Join(a, name))
  {
    var d := Join(a, name);
    assert d[|d| - 1] == name[|name| - 1];
    assert name[|name| - 1] in name;
  }

  /** For a plain product name, the yearly directory is `<data_dir>/<product>/sipn_nc_yearly`. */
  lemma OutDirLayout(dataDir: string, product: string)
    requires PlainName(product)
    ensures OutDir(dataDir, product) == DirPrefix(dataDir) + product + [Sep] + YearlyDir
  {
    JoinPlainName(dataDir, product);
    assert Join(dataDir, product) != [];
  }

  /** For a plain product name, the output path is the documented layout under the data directory. */
  lemma OutputPathLayout(dataDir: string, product: string, year: nat)
    requires PlainName(product)
    ensures OutputPath(dataDir, product, year)
            == DirPrefix(dataDir) + (product + [Sep] + YearlyFile(year))
  {
    var pre := DirPrefix(dataDir);
    var ds := DecimalString(year);
    OutDirLayout(dataDir, product);
    OutputPathInOutDir(dataDir, product, year);
    Regroup(pre, product, YearlyDir, ds, OutputSuffix);
  }

  lemma Regroup(pre: string, product: string, dir: string, name: string, suffix: string)
    ensures pre + product + [Sep] + dir + [Sep] + name + suffix
            == pre + (product + [Sep] + (dir + [Sep] + name + suffix))
  {
  }

  /** Stripping a common suffix. */
  lemma SuffixCancel(x: string, y: string, suffix: string)
    requires x + suffix == y + suffix
    ensures x == y
  {
    assert |x| == |y|;
    assert x == (x + suffix)[..|x|];
    assert y == (y + suffix)[..|y|];
  }

  /** Stripping a common prefix. */
  lemma PrefixCancel(prefix: string, x: string, y: string)
    requires prefix + x == prefix + y
    ensures x == y
  {
    assert x == (prefix + x)[|prefix|..];
    assert y == (prefix + y)[|prefix|..];
  }

  /** A separator-free leading component is determined by the path it starts. */
  lemma FirstComponentUnique(a: string, b: string, ra: string, rb: string)
    requires Sep !in a && Sep !in b
    requires a + [Sep] + ra == b + [Sep] + rb
    ensures a == b && ra == rb
  {
    var s := a + [Sep] + ra;
    assert s[|a|] == Sep;
    assert s[|b|] == Sep;
    assert a == s[..|a|];
    assert b == s[..|b|];
    assert ra == s[|a| + 1..];
    assert rb == s[|b| + 1..];
  }

  /** Within one product, different years write to different files. */
  lemma OutputPathYearInjective(dataDir: string, product: string, y1: nat, y2: nat)
    ensures OutputPath(dataDir, product, y1) == OutputPath(dataDir, product, y2) <==> y1 == y2
  {
    if OutputPath(dataDir, product, y1) == OutputPath(dataDir, product, y2) {
      OutputPathInOutDir(dataDir, product, y1);
      OutputPathInOutDir(dataDir, product, y2);
      var p := OutDir(dataDir, product) + [Sep];
      PrefixCancel(p, DecimalString(y1) + OutputSuffix, DecimalString(y2) + OutputSuffix);
      SuffixCancel(DecimalString(y1), DecimalString(y2), OutputSuffix);
      DecimalStringInjective(y1, y2);
    }
  }

  /**
   With plain product names, distinct (product, year) pairs write to distinct
   files under the same data directory.
   */
  lemma OutputPathInjective(dataDir: string, p1: string, y1: nat, p2: string, y2: nat)
    requires PlainName(p1) && PlainName(p2)
    ensures OutputPath(dataDir, p1, y1) == OutputPath(dataDir, p2, y2) <==> p1 == p2 && y1 == y2
  {
    var o1 := OutputPath(dataDir, p1, y1);
    var o2 := OutputPath(dataDir, p2, y2);
    if o1 == o2 {
      var pre := DirPrefix(dataDir);
      OutputPathLayout(dataDir, p1, y1);
      OutputPathLayout(dataDir, p2, y2);
      PrefixCancel(pre, p1 + [Sep] + YearlyFile(y1), p2 + [Sep] + YearlyFile(y2));
      FirstComponentUnique(p1, p2, YearlyFile(y1), YearlyFile(y2));
      YearlyFileInjective(y1, y2);
    }
  }

  lemma YearlyFileInjective(y1: nat, y2: nat)
    requires YearlyFile(y1) == YearlyFile(y2)
    ensures y1 == y2
  {
    var p := YearlyDir + [Sep];
    SuffixCancel(p + DecimalString(y1), p + DecimalString(y2), OutputSuffix);
    PrefixCancel(p, DecimalString(y1), DecimalString(y2));
    DecimalStringInjective(y1, y2);
  }

  /** For one source directory, different years query different patterns. */
  lemma SourcePatternInjective(sourceDir: string, y1: nat, y2: nat)
    ensures SourcePattern(sourceDir, y1) == SourcePattern(sourceDir, y2) <==> y1 == y2
  {
    if SourcePattern(sourceDir, y1) == SourcePattern(sourceDir, y2) {
      var p := sourceDir + "/*_";
      SuffixCancel(p + DecimalString(y1), p + DecimalString(y2), "*.nc");
      PrefixCancel(p, DecimalString(y1), DecimalString(y2));
      DecimalStringInjective(y1, y2);
    }
  }
}
