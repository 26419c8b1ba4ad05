/** The figures the dashboard derives from the two finished year tables
    (app.py lines 177-187 and 260-262): dominance counts, volume totals and the
    sorted list of country names for the comparison table. */
module Summary {
  import opened Wrappers
  import opened Loader
  import opened SelfRows
  import opened StringOrder

  /** How many rows of the table carry the label `d`. */
  function CountDominance(t: seq<Record>, d: Dominance): (n: nat)
    ensures n <= |t|
    decreases |t|
  {
    if |t| == 0 then 0
    else CountDominance(t[..|t| - 1], d) + (if t[|t| - 1].dominance == d then 1 else 0)
  }

  /** Every row is counted exactly once: the label only ever takes the two values. */
  lemma {:induction false} CountPartition(t: seq<Record>)
    ensures CountDominance(t, US) + CountDominance(t, China) == |t|
    decreases |t|
  {
    if |t| > 0 {
      CountPartition(t[..|t| - 1]);
    }
  }

  /** A table with a row of label `d` counts at least one such row. */
  lemma {:induction false} CountPositive(t: seq<Record>, d: Dominance, k: nat)
    requires k < |t| && t[k].dominance == d
    ensures CountDominance(t, d) >= 1
    decreases |t|
  {
    if k < |t| - 1 {
      CountPositive(t[..|t| - 1], d, k);
    }
  }

  /** pandas' `Series.sum()`: missing values are skipped. */
  function SumPresent(vs: seq<Option<real>>): (total: real)
    decreases |vs|
  {
    if |vs| == 0 then 0.0
    else
      var rest := SumPresent(vs[..|vs| - 1]);
      match vs[|vs| - 1]
      case None => rest
      case Some(v) => rest + v
  }

  function Sum(xs: seq<real>): (total: real)
    decreases |xs|
  {
    if |xs| == 0 then 0.0 else Sum(xs[..|xs| - 1]) + xs[|xs| - 1]
  }

  /** The missing-as-zero reading of a column. */
  function ZeroFilled(vs: seq<Option<real>>): (xs: seq<real>)
    ensures |xs| == |vs|
  {
    seq(|vs|, i requires 0 <= i < |vs| => OrZero(vs[i]))
  }

  /** Skipping missing values and reading them as zero give the same total. */
  lemma {:induction false} SumPresentIsZeroFilledSum(vs: seq<Option<real>>)
    ensures SumPresent(vs) == Sum(ZeroFilled(vs))
    decreases |vs|
  {
    if |vs| > 0 {
      SumPresentIsZeroFilledSum(vs[..|vs| - 1]);
      assert ZeroFilled(vs)[..|vs| - 1] == ZeroFilled(vs[..|vs| - 1]);
    }
  }

  lemma SumPresentAppend(vs: seq<Option<real>>, v: Option<real>)
    ensures SumPresent(vs + [v]) == SumPresent(vs) + OrZero(v)
  {
    assert (vs + [v])[..|vs|] == vs;
  }

  function UsVolumes(t: seq<Record>): (vs: seq<Option<real>>)
    ensures |vs| == |t|
  {
    seq(|t|, i requires 0 <= i < |t| => t[i].us)
  }

  function ChinaVolumes(t: seq<Record>): (vs: seq<Option<real>>)
    ensures |vs| == |t|
  {
    seq(|t|, i requires 0 <= i < |t| => t[i].china)
  }

  /** Total volume of a column in billions: the source figures are in millions. */
  function TotalBillions(vs: seq<Option<real>>): (billions: real) {
    SumPresent(vs) / 1000.0
  }

  /** One self-row step leaves both totals as they were: a forced row keeps its volumes,
      and an appended row holds only a missing volume and a zero. */
  lemma EnsureSelfRowKeepsTotals(t: seq<Record>, s: SelfRow, year: int)
    requires OrZero(s.us) == 0.0 && OrZero(s.china) == 0.0
    ensures SumPresent(UsVolumes(EnsureSelfRow(t, s, year))) == SumPresent(UsVolumes(t))
    ensures SumPresent(ChinaVolumes(EnsureSelfRow(t, s, year))) == SumPresent(ChinaVolumes(t))
  {
    var r := EnsureSelfRow(t, s, year);
    EnsureSelfRowFrame(t, s, year);
    if !HasCountry(t, s.name) {
      assert UsVolumes(r) == UsVolumes(t) + [s.us];
      assert ChinaVolumes(r) == ChinaVolumes(t) + [s.china];
      SumPresentAppend(UsVolumes(t), s.us);
      SumPresentAppend(ChinaVolumes(t), s.china);
    } else {
      assert UsVolumes(r) == UsVolumes(t);
      assert ChinaVolumes(r) == ChinaVolumes(t);
    }
  }

  /** The self-rows add nothing to a year's US or China total. */
  lemma InjectionKeepsTotals(t: seq<Record>, year: int)
    ensures TotalBillions(UsVolumes(InjectSelfRows(t, year))) == TotalBillions(UsVolumes(t))
    ensures TotalBillions(ChinaVolumes(InjectSelfRows(t, year))) == TotalBillions(ChinaVolumes(t))
  {
    EnsureSelfRowKeepsTotals(t, USSelf, year);
    EnsureSelfRowKeepsTotals(EnsureSelfRow(t, USSelf, year), ChinaSelf, year);
  }

  /** After the self-rows are in, each label is held by at least one row. */
  lemma InjectionCountsPositive(t: seq<Record>, year: int)
    ensures CountDominance(InjectSelfRows(t, year), US) >= 1
    ensures CountDominance(InjectSelfRows(t, year), China) >= 1
  {
    var r := InjectSelfRows(t, year);
    InjectSelfRowsSpec(t, year);
    var u :| 0 <= u < |r| && r[u].country == Some(USSelf.name);
    CountPositive(r, US, u);
    var c :| 0 <= c < |r| && r[c].country == Some(ChinaSelf.name);
    CountPositive(r, China, c);
  }

  /** The country names of the table in row order, skipping rows whose name is missing. */
  function Names(t: seq<Record>): (ns: seq<string>)
    ensures forall n :: n in ns <==> exists i :: 0 <= i < |t| && t[i].country == Some(n)
    decreases |t|
  {
    if |t| == 0 then []
    else
      var init := t[..|t| - 1];
      var ns := Names(init) + (match t[|t| - 1].country
                               case Some(n) => [n]
                               case None => []);
      assert forall i :: 0 <= i < |t| - 1 ==> init[i] == t[i];
      ns
  }

  lemma SortedCons(h: string, s: seq<string>)
    requires StrictlySorted(s)
    requires forall y :: y in s ==> Less(h, y)
    ensures StrictlySorted([h] + s)
  {
    var r := [h] + s;
    forall i, j | 0 <= i < j < |r|
      ensures Less(r[i], r[j])
    {
      if i == 0 {
        assert r[j] == s[j - 1];
      } else {
        assert r[i] == s[i - 1] && r[j] == s[j - 1];
      }
    }
  }

  lemma LessThanSorted(x: string, s: seq<string>)
    requires StrictlySorted(s) && |s| > 0 && Less(x, s[0])
    ensures forall y :: y in s ==> Less(x, y)
  {
    forall y | y in s
      ensures Less(x, y)
    {
      var j :| 0 <= j < |s| && s[j] == y;
      if j > 0 {
        LessTransitive(x, s[0], y);
      }
    }
  }

  /** Puts `x` into a strictly sorted list, unless it is already there. */
  function Insert(x: string, s: seq<string>): (r: seq<string>)
    requires StrictlySorted(s)
    ensures StrictlySorted(r)
    ensures forall y :: y in r <==> y == x || y in s
    decreases |s|
  {
    if |s| == 0 then [x]
    else if x == s[0] then s
    else if Less(x, s[0]) then
      LessThanSorted(x, s);
      SortedCons(x, s);
      [x] + s
    else
      var rest := Insert(x, s[1..]);
      LessTotal(x, s[0]);
      assert forall y :: y in s[1..] ==> Less(s[0], y);
      SortedCons(s[0], rest);
      [s[0]] + rest
  }

  /** The distinct elements of `xs` in increasing order. */
  function SortedKeys(xs: seq<string>): (r: seq<string>)
    ensures StrictlySorted(r)
    ensures forall y :: y in r <==> y in xs
    decreases |xs|
  {
    if |xs| == 0 then []
    else
      var init := xs[..|xs| - 1];
      assert forall y :: y in xs <==> y in init || y == xs[|xs| - 1];
      Insert(xs[|xs| - 1], SortedKeys(init))
  }

  lemma SameElementsBothEmpty(a: seq<string>, b: seq<string>)
    requires forall y :: y in a <==> y in b
    ensures |a| == 0 <==> |b| == 0
  {
    if |a| > 0 {
      assert a[0] in b;
    }
    if |b| > 0 {
      assert b[0] in a;
    }
  }

  /** A strictly sorted list is determined by its elements, so `SortedKeys` is the only
      strictly sorted list of the distinct names. */
  lemma {:induction false} SortedUnique(a: seq<string>, b: seq<string>)
    requires StrictlySorted(a) && StrictlySorted(b)
    requires forall y :: y in a <==> y in b
    ensures a == b
    decreases |a|
  {
    SameElementsBothEmpty(a, b);
    if |a| > 0 {
      if a[0] != b[0] {
        assert a[0] in b && b[0] in a;
        var ka :| 0 <= ka < |b| && b[ka] == a[0];
        var kb :| 0 <= kb < |a| && a[kb] == b[0];
        assert Less(b[0], a[0]) && Less(a[0], b[0]);
        LessTransitive(a[0], b[0], a[0]);
        LessIrreflexive(a[0]);
        assert false;
      }
      StrictlySortedNoDuplicates(a);
      StrictlySortedNoDuplicates(b);
      forall y
        ensures y in a[1..] <==> y in b[1..]
      {
        if y in a[1..] {
          var i :| 1 <= i < |a| && a[i] == y;
          assert y in b;
          var k :| 0 <= k < |b| && b[k] == y;
          assert k != 0;
          assert b[1..][k - 1] == y;
        }
        if y in b[1..] {
          var i :| 1 <= i < |b| && b[i] == y;
          assert y in a;
          var k :| 0 <= k < |a| && a[k] == y;
          assert k != 0;
          assert a[1..][k - 1] == y;
        }
      }
      SortedUnique(a[1..], b[1..]);
      assert a == [a[0]] + a[1..] && b == [b[0]] + b[1..];
    }
  }

  /** The country column of the comparison table. */
  function ComparisonKeys(t2000: seq<Record>, t2024: seq<Record>): (keys: seq<string>)
    ensures StrictlySorted(keys)
    ensures forall n :: n in keys <==>
              (exists i :: 0 <= i < |t2000| && t2000[i].country == Some(n)) ||
              (exists i :: 0 <= i < |t2024| && t2024[i].country == Some(n))
  {
    SortedKeys(Names(t2000) + Names(t2024))
  }
}
