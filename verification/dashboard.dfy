/** The whole data pipeline under the dashboard's rendering calls: load both
    years, resolve ISO codes, add the self-rows, then derive the summary figures
    and the comparison table's country column (app.py lines 61-65, 177-187, 260-262). */
module Dashboard {
  import opened Wrappers
  import opened Loader
  import CountryCodes
  import opened SelfRows
  import opened Summary
  import opened StringOrder

  /** The per-year figures shown as metrics and in the pie chart. */
  datatype YearSummary = YearSummary(usTotal: real, chinaTotal: real,
                                     usDominant: nat, chinaDominant: nat, rows: nat)

  /** What the pipeline hands to the rendering layer. */
  datatype Report = Report(t2000: seq<Record>, t2024: seq<Record>,
                           s2000: YearSummary, s2024: YearSummary, keys: seq<string>)

  /** A year's figures: the two label counts, which together cover every row, and the two
      totals in billions, where a missing volume counts as zero. */
  function Summarize(t: seq<Record>): (s: YearSummary)
    ensures s.rows == |t|
    ensures s.usDominant == CountDominance(t, US) && s.chinaDominant == CountDominance(t, China)
    ensures s.usDominant + s.chinaDominant == |t|
    ensures s.usTotal == Sum(ZeroFilled(UsVolumes(t))) / 1000.0
    ensures s.chinaTotal == Sum(ZeroFilled(ChinaVolumes(t))) / 1000.0
  {
    CountPartition(t);
    SumPresentIsZeroFilledSum(UsVolumes(t));
    SumPresentIsZeroFilledSum(ChinaVolumes(t));
    YearSummary(TotalBillions(UsVolumes(t)), TotalBillions(ChinaVolumes(t)),
                CountDominance(t, US), CountDominance(t, China), |t|)
  }

  /** The cleaned US volumes of one year, in source order. */
  function UsColumn(csv: seq<CsvRow>, y: Year): (vs: seq<Option<real>>)
    ensures |vs| == |csv|
  {
    seq(|csv|, i requires 0 <= i < |csv| => CleanField(UsCellOf(csv[i], y)))
  }

  /** The cleaned China volumes of one year, in source order. */
  function ChinaColumn(csv: seq<CsvRow>, y: Year): (vs: seq<Option<real>>)
    ensures |vs| == |csv|
  {
    seq(|csv|, i requires 0 <= i < |csv| => CleanField(ChinaCellOf(csv[i], y)))
  }

  /** Some source line names `name` as its country for year `y`. */
  predicate SourceHas(csv: seq<CsvRow>, y: Year, name: string) {
    exists i :: 0 <= i < |csv| && CountryOf(csv[i], y) == Some(name)
  }

  /** The self-rows a year needs: the US row when no source line names the United States,
      then the China row when none names China. */
  function MissingSelfRows(csv: seq<CsvRow>, y: Year): (a: seq<Record>)
    ensures |a| <= 2
  {
    (if SourceHas(csv, y, USSelf.name) then [] else [Synthetic(USSelf, y.Number())])
    + (if SourceHas(csv, y, ChinaSelf.name) then [] else [Synthetic(ChinaSelf, y.Number())])
  }

  /** A year table built from `csv`: its first `|csv|` rows are the source lines in order,
      with the country, the cleaned volumes and the year as read; each of them that is not
      a self-row carries the code resolved for its name; after them come exactly the
      self-rows of the countries the source does not name, US first. */
  predicate FollowsSource(csv: seq<CsvRow>, y: Year, lookup: string -> CountryCodes.LookupOutcome,
                          t: seq<Record>) {
    && |csv| <= |t|
    && (forall i :: 0 <= i < |csv| ==>
          && t[i].country == CountryOf(csv[i], y)
          && t[i].us == CleanField(UsCellOf(csv[i], y))
          && t[i].china == CleanField(ChinaCellOf(csv[i], y))
          && t[i].year == y.Number())
    && (forall i :: 0 <= i < |csv| && t[i].country != Some(USSelf.name) && t[i].country != Some(ChinaSelf.name) ==>
          t[i].iso == CountryCodes.GetIso3(lookup, t[i].country))
    && t[|csv|..] == MissingSelfRows(csv, y)
  }

  /** One year: clean, resolve codes, add the self-rows. */
  function BuildYear(csv: seq<CsvRow>, y: Year, lookup: string -> CountryCodes.LookupOutcome): (t: seq<Record>) {
    InjectSelfRows(Resolve(lookup, LoadYear(csv, y)), y.Number())
  }

  predicate SelfRowsInPlace(t: seq<Record>) {
    && HasCountry(t, USSelf.name) && Labelled(t, USSelf)
    && HasCountry(t, ChinaSelf.name) && Labelled(t, ChinaSelf)
  }

  /** Every row that is not a self-row follows the dominance rule on its stored volumes. */
  predicate RuleHoldsOffSelfRows(t: seq<Record>) {
    forall i :: 0 <= i < |t| && t[i].country != Some(USSelf.name) && t[i].country != Some(ChinaSelf.name) ==>
      FollowsRule(t[i])
  }

  lemma BuildYearSpec(csv: seq<CsvRow>, y: Year, lookup: string -> CountryCodes.LookupOutcome)
    ensures var t := BuildYear(csv, y, lookup);
      && FollowsSource(csv, y, lookup, t)
      && SelfRowsInPlace(t) && RuleHoldsOffSelfRows(t)
      && |csv| <= |t| <= |csv| + 2
      && CountDominance(t, US) >= 1 && CountDominance(t, China) >= 1
  {
    var resolved := Resolve(lookup, LoadYear(csv, y));
    InjectSelfRowsSpec(resolved, y.Number());
    InjectionCountsPositive(resolved, y.Number());
    BuildYearFollowsSource(csv, y, lookup);
    BuildYearRule(csv, y, lookup);
  }

  /** The dominance rule on one record's stored volumes. */
  predicate FollowsRule(rec: Record) {
    rec.dominance == China <==> OrZero(rec.china) > OrZero(rec.us)
  }

  /** Adding the self-rows keeps the rule on every row that is not a self-row. */
  lemma InjectionKeepsRule(t: seq<Record>, year: int)
    requires forall i :: 0 <= i < |t| ==> FollowsRule(t[i])
    ensures RuleHoldsOffSelfRows(InjectSelfRows(t, year))
  {
    var r := InjectSelfRows(t, year);
    InjectSelfRowsSpec(t, year);
    var tail := Appended(t, year);
    forall i | |t| <= i < |r|
      ensures r[i].country == Some(USSelf.name) || r[i].country == Some(ChinaSelf.name)
    {
      assert r[i] == tail[i - |t|];
    }
    forall i | 0 <= i < |t| && r[i].country != Some(USSelf.name) && r[i].country != Some(ChinaSelf.name)
      ensures FollowsRule(r[i])
    {
      assert r[i] == t[i];
    }
  }

  /** Rows other than the self-rows keep the label the loader computed from their volumes. */
  lemma BuildYearRule(csv: seq<CsvRow>, y: Year, lookup: string -> CountryCodes.LookupOutcome)
    ensures RuleHoldsOffSelfRows(BuildYear(csv, y, lookup))
  {
    var loaded := LoadYear(csv, y);
    var resolved := Resolve(lookup, loaded);
    forall i | 0 <= i < |resolved|
      ensures FollowsRule(resolved[i])
    {
      assert resolved[i].dominance == loaded[i].dominance;
    }
    InjectionKeepsRule(resolved, y.Number());
  }

  /** The rows of a finished year table come from the source lines, then the self-rows. */
  lemma BuildYearFollowsSource(csv: seq<CsvRow>, y: Year, lookup: string -> CountryCodes.LookupOutcome)
    ensures FollowsSource(csv, y, lookup, BuildYear(csv, y, lookup))
  {
    var resolved := Resolve(lookup, LoadYear(csv, y));
    var u := EnsureSelfRow(resolved, USSelf, y.Number());
    var t := EnsureSelfRow(u, ChinaSelf, y.Number());
    InjectSelfRowsSpec(resolved, y.Number());
    EnsureSelfRowFrame(resolved, USSelf, y.Number());
    EnsureSelfRowFrame(u, ChinaSelf, y.Number());
    forall i | 0 <= i < |csv|
      ensures t[i].country == CountryOf(csv[i], y)
      ensures t[i].us == CleanField(UsCellOf(csv[i], y))
      ensures t[i].china == CleanField(ChinaCellOf(csv[i], y))
      ensures t[i].year == y.Number()
    {
      assert SameData(t[i], resolved[i]);
    }
    ResolvedHas(csv, y, lookup, USSelf.name);
    ResolvedHas(csv, y, lookup, ChinaSelf.name);
    assert Appended(resolved, y.Number()) == MissingSelfRows(csv, y);
  }

  /** Loading and resolving keep the country of every line, so the resolved table names a
      country exactly when a source line does. */
  lemma ResolvedHas(csv: seq<CsvRow>, y: Year, lookup: string -> CountryCodes.LookupOutcome, name: string)
    ensures HasCountry(Resolve(lookup, LoadYear(csv, y)), name) <==> SourceHas(csv, y, name)
  {
    var resolved := Resolve(lookup, LoadYear(csv, y));
    if HasCountry(resolved, name) {
      var k :| 0 <= k < |resolved| && resolved[k].country == Some(name);
      assert CountryOf(csv[k], y) == Some(name);
    }
    if SourceHas(csv, y, name) {
      var k :| 0 <= k < |csv| && CountryOf(csv[k], y) == Some(name);
      assert resolved[k].country == Some(name);
    }
  }

  /** A year's totals are those of the cleaned source columns: the self-rows add nothing. */
  lemma BuildYearTotals(csv: seq<CsvRow>, y: Year, lookup: string -> CountryCodes.LookupOutcome)
    ensures var s := Summarize(BuildYear(csv, y, lookup));
      && s.usTotal == Sum(ZeroFilled(UsColumn(csv, y))) / 1000.0
      && s.chinaTotal == Sum(ZeroFilled(ChinaColumn(csv, y))) / 1000.0
  {
    var resolved := Resolve(lookup, LoadYear(csv, y));
    var t := BuildYear(csv, y, lookup);
    InjectionKeepsTotals(resolved, y.Number());
    assert UsVolumes(resolved) == UsColumn(csv, y);
    assert ChinaVolumes(resolved) == ChinaColumn(csv, y);
    SumPresentIsZeroFilledSum(UsColumn(csv, y));
    SumPresentIsZeroFilledSum(ChinaColumn(csv, y));
  }

  /** The pipeline: both year tables carry their self-rows with the forced labels, every
      other row follows the dominance rule, and each year's two counts cover its rows with
      neither label absent. */
  function Run(csv: seq<CsvRow>, lookup: string -> CountryCodes.LookupOutcome): (r: Report)
    ensures FollowsSource(csv, Y2000, lookup, r.t2000) && FollowsSource(csv, Y2024, lookup, r.t2024)
    ensures SelfRowsInPlace(r.t2000) && SelfRowsInPlace(r.t2024)
    ensures RuleHoldsOffSelfRows(r.t2000) && RuleHoldsOffSelfRows(r.t2024)
    ensures |csv| <= |r.t2000| <= |csv| + 2 && |csv| <= |r.t2024| <= |csv| + 2
    ensures r.s2000.usDominant + r.s2000.chinaDominant == |r.t2000|
    ensures r.s2024.usDominant + r.s2024.chinaDominant == |r.t2024|
    ensures r.s2000.usDominant >= 1 && r.s2000.chinaDominant >= 1
    ensures r.s2024.usDominant >= 1 && r.s2024.chinaDominant >= 1
    ensures r.s2000.usDominant == CountDominance(r.t2000, US) && r.s2000.chinaDominant == CountDominance(r.t2000, China)
    ensures r.s2024.usDominant == CountDominance(r.t2024, US) && r.s2024.chinaDominant == CountDominance(r.t2024, China)
    ensures r.s2000.usTotal == Sum(ZeroFilled(UsColumn(csv, Y2000))) / 1000.0
    ensures r.s2000.chinaTotal == Sum(ZeroFilled(ChinaColumn(csv, Y2000))) / 1000.0
    ensures r.s2024.usTotal == Sum(ZeroFilled(UsColumn(csv, Y2024))) / 1000.0
    ensures r.s2024.chinaTotal == Sum(ZeroFilled(ChinaColumn(csv, Y2024))) / 1000.0
  {
    var t2000 := BuildYear(csv, Y2000, lookup);
    var t2024 := BuildYear(csv, Y2024, lookup);
    BuildYearSpec(csv, Y2000, lookup);
    BuildYearSpec(csv, Y2024, lookup);
    BuildYearTotals(csv, Y2000, lookup);
    BuildYearTotals(csv, Y2024, lookup);
    Report(t2000, t2024, Summarize(t2000), Summarize(t2024), ComparisonKeys(t2000, t2024))
  }

  /** The comparison table lists each present name of either year once, in sorted order,
      and always includes the two self-rows' countries. */
  lemma RunKeys(csv: seq<CsvRow>, lookup: string -> CountryCodes.LookupOutcome)
    ensures var r := Run(csv, lookup);
      && StrictlySorted(r.keys)
      && USSelf.name in r.keys && ChinaSelf.name in r.keys
      && forall n :: n in r.keys <==> n in Names(r.t2000) || n in Names(r.t2024)
  {
    var r := Run(csv, lookup);
    assert HasCountry(r.t2000, USSelf.name) && HasCountry(r.t2000, ChinaSelf.name);
  }

  /** The comparison keys are exactly `sorted(set(names_2000 + names_2024))`: the one strictly
      sorted list holding the present names of both years. */
  lemma KeysAreSortedNameSet(csv: seq<CsvRow>, lookup: string -> CountryCodes.LookupOutcome, other: seq<string>)
    requires StrictlySorted(other)
    requires forall n :: n in other <==> n in Names(Run(csv, lookup).t2000) || n in Names(Run(csv, lookup).t2024)
    ensures other == Run(csv, lookup).keys
  {
    var r := Run(csv, lookup);
    SortedUnique(other, r.keys);
  }
}
