/** ISO code resolution of each row and the US / China self-rows
    (app.py lines 63-125). A country does not trade with itself, so each year
    table gets a "United States" and a "China" row with fixed labels. */
module SelfRows {
  import opened Wrappers
  import opened Loader
  import CountryCodes

  /** A row of a year table once its ISO code is known (`iso_alpha`). */
  datatype Record = Record(country: Option<string>, us: Option<real>, china: Option<real>,
                           year: int, dominance: Dominance, iso: Option<string>)

  /** Code resolution over a whole table: every row keeps its fields and gains the ISO
      code that `CountryCodes.GetIso3` gives for its country name. */
  function Resolve(lookup: string -> CountryCodes.LookupOutcome, t: seq<Row>): (r: seq<Record>)
    ensures |r| == |t|
    ensures forall i :: 0 <= i < |t| ==>
              r[i] == Record(t[i].country, t[i].us, t[i].china, t[i].year, t[i].dominance,
                             CountryCodes.GetIso3(lookup, t[i].country))
  {
    seq(|t|, i requires 0 <= i < |t| =>
      Record(t[i].country, t[i].us, t[i].china, t[i].year, t[i].dominance,
             CountryCodes.GetIso3(lookup, t[i].country)))
  }

  /** What one self-row step enforces: the country it is about, the label and code forced
      on that country's rows, and the volumes of the row appended when there is none. */
  datatype SelfRow = SelfRow(name: string, dominance: Dominance, iso: string,
                             us: Option<real>, china: Option<real>)

  /** The US row: no US volume (no trade with itself), China volume 0, label US, code USA. */
  const USSelf := SelfRow("United States", US, "USA", None, Some(0.0))

  /** The China row: US volume 0, no China volume, label China, code CHN. */
  const ChinaSelf := SelfRow("China", China, "CHN", Some(0.0), None)

  function Synthetic(s: SelfRow, year: int): (rec: Record) {
    Record(Some(s.name), s.us, s.china, year, s.dominance, Some(s.iso))
  }

  /** Some row of the table carries `name` as its country. */
  predicate HasCountry(t: seq<Record>, name: string) {
    exists i :: 0 <= i < |t| && t[i].country == Some(name)
  }

  /** Every row named `s.name` carries the forced label and code. */
  predicate Labelled(t: seq<Record>, s: SelfRow) {
    forall i :: 0 <= i < |t| && t[i].country == Some(s.name) ==>
      t[i].dominance == s.dominance && t[i].iso == Some(s.iso)
  }

  function Relabel(rec: Record, s: SelfRow): (r: Record) {
    if rec.country == Some(s.name) then rec.(dominance := s.dominance, iso := Some(s.iso)) else rec
  }

  /** Overwrites label and code on every row of the named country, leaving the rest alone. */
  function ForceLabels(t: seq<Record>, s: SelfRow): (r: seq<Record>)
    ensures |r| == |t|
    ensures forall i :: 0 <= i < |t| ==> r[i] == Relabel(t[i], s)
  {
    seq(|t|, i requires 0 <= i < |t| => Relabel(t[i], s))
  }

  /** One self-row step: append the synthetic row when the country is absent,
      otherwise force the label and code on every row of that country. */
  function EnsureSelfRow(t: seq<Record>, s: SelfRow, year: int): (r: seq<Record>) {
    if !HasCountry(t, s.name) then t + [Synthetic(s, year)] else ForceLabels(t, s)
  }

  /** Both steps, the US one first. */
  function InjectSelfRows(t: seq<Record>, year: int): (r: seq<Record>) {
    EnsureSelfRow(EnsureSelfRow(t, USSelf, year), ChinaSelf, year)
  }

  /** The rows the two steps append after the table: the US row when the table has no
      "United States" row, then the China row when it has no "China" row. */
  function Appended(t: seq<Record>, year: int): (a: seq<Record>)
    ensures |a| <= 2
  {
    (if HasCountry(t, USSelf.name) then [] else [Synthetic(USSelf, year)])
    + (if HasCountry(t, ChinaSelf.name) then [] else [Synthetic(ChinaSelf, year)])
  }

  /** Two records agree on everything but the two forced fields (label and code). */
  predicate SameData(a: Record, b: Record) {
    a.country == b.country && a.us == b.us && a.china == b.china && a.year == b.year
  }

  /** One step: when the country is absent, exactly one row (the synthetic one) is appended
      after the unchanged table; when present, the table keeps its length, each of that
      country's rows gets the forced label and code with its volumes kept, and every
      other row is unchanged. Either way the country is then present and labelled. */
  lemma EnsureSelfRowSpec(t: seq<Record>, s: SelfRow, year: int)
    ensures var r := EnsureSelfRow(t, s, year);
      && HasCountry(r, s.name) && Labelled(r, s)
      && (!HasCountry(t, s.name) ==> |r| == |t| + 1 && r[..|t|] == t && r[|t|] == Synthetic(s, year))
      && (HasCountry(t, s.name) ==>
            && |r| == |t|
            && (forall i :: 0 <= i < |t| ==>
                  && SameData(r[i], t[i])
                  && (t[i].country == Some(s.name) ==> r[i].dominance == s.dominance && r[i].iso == Some(s.iso))
                  && (t[i].country != Some(s.name) ==> r[i] == t[i])))
  {
    var r := EnsureSelfRow(t, s, year);
    if !HasCountry(t, s.name) {
      assert r[|t|].country == Some(s.name);
    } else {
      var k :| 0 <= k < |t| && t[k].country == Some(s.name);
      assert r[k].country == Some(s.name);
    }
  }

  /** A step never changes the data of an existing row, and only touches rows of its own country. */
  lemma EnsureSelfRowFrame(t: seq<Record>, s: SelfRow, year: int)
    ensures var r := EnsureSelfRow(t, s, year);
      && |t| <= |r| <= |t| + 1
      && (forall i :: 0 <= i < |t| ==> SameData(r[i], t[i]))
      && (forall i :: 0 <= i < |t| && t[i].country != Some(s.name) ==> r[i] == t[i])
      && (forall i :: |t| <= i < |r| ==> r[i] == Synthetic(s, year))
  {
    EnsureSelfRowSpec(t, s, year);
  }

  /** A step for one country keeps another country's labels. */
  lemma EnsureSelfRowKeepsLabels(t: seq<Record>, s: SelfRow, other: SelfRow, year: int)
    requires other.name != s.name && Labelled(t, other)
    ensures Labelled(EnsureSelfRow(t, s, year), other)
    ensures HasCountry(t, other.name) ==> HasCountry(EnsureSelfRow(t, s, year), other.name)
  {
    var r := EnsureSelfRow(t, s, year);
    EnsureSelfRowFrame(t, s, year);
    if HasCountry(t, other.name) {
      var k :| 0 <= k < |t| && t[k].country == Some(other.name);
      assert r[k].country == Some(other.name);
    }
  }

  /** The US step keeps every country of the table and adds at most "United States", so
      the China step sees "China" exactly when the original table has it. */
  lemma USStepKeepsChina(t: seq<Record>, year: int)
    ensures HasCountry(EnsureSelfRow(t, USSelf, year), ChinaSelf.name) <==> HasCountry(t, ChinaSelf.name)
  {
    var u := EnsureSelfRow(t, USSelf, year);
    EnsureSelfRowFrame(t, USSelf, year);
    if HasCountry(u, ChinaSelf.name) {
      var k :| 0 <= k < |u| && u[k].country == Some(ChinaSelf.name);
      assert k < |t|;
      assert t[k].country == Some(ChinaSelf.name);
    }
    if HasCountry(t, ChinaSelf.name) {
      var k :| 0 <= k < |t| && t[k].country == Some(ChinaSelf.name);
      assert u[k].country == Some(ChinaSelf.name);
    }
  }

  /** After both steps each year table has a "United States" row and a "China" row, every
      such row carries its forced label and code, no existing row lost its data, rows of
      other countries are untouched, and the rows after the original ones are exactly the
      self-rows of the absent countries, US first. */
  lemma InjectSelfRowsSpec(t: seq<Record>, year: int)
    ensures var r := InjectSelfRows(t, year);
      && HasCountry(r, USSelf.name) && Labelled(r, USSelf)
      && HasCountry(r, ChinaSelf.name) && Labelled(r, ChinaSelf)
      && |t| <= |r| <= |t| + 2
      && (forall i :: 0 <= i < |t| ==> SameData(r[i], t[i]))
      && (forall i :: 0 <= i < |t| && t[i].country != Some(USSelf.name) && t[i].country != Some(ChinaSelf.name)
            ==> r[i] == t[i])
      && r[|t|..] == Appended(t, year)
  {
    var u := EnsureSelfRow(t, USSelf, year);
    var r := EnsureSelfRow(u, ChinaSelf, year);
    EnsureSelfRowSpec(t, USSelf, year);
    EnsureSelfRowFrame(t, USSelf, year);
    EnsureSelfRowSpec(u, ChinaSelf, year);
    EnsureSelfRowFrame(u, ChinaSelf, year);
    EnsureSelfRowKeepsLabels(u, ChinaSelf, USSelf, year);
    USStepKeepsChina(t, year);
    assert u[|t|..] == (if HasCountry(t, USSelf.name) then [] else [Synthetic(USSelf, year)]);
    assert r[|t|..|u|] == u[|t|..];
    assert r[|t|..] == r[|t|..|u|] + r[|u|..];
  }

  /** Relabelling a table whose rows already carry the forced values changes nothing. */
  lemma ForceLabelsIdentity(t: seq<Record>, s: SelfRow)
    requires Labelled(t, s)
    ensures ForceLabels(t, s) == t
  {
    var r := ForceLabels(t, s);
    forall i | 0 <= i < |t|
      ensures r[i] == t[i]
    {
      if t[i].country == Some(s.name) {
        assert r[i] == t[i].(dominance := s.dominance, iso := Some(s.iso));
      }
    }
  }

  /** Running the injection again on its own output changes nothing. */
  lemma InjectSelfRowsIdempotent(t: seq<Record>, year: int)
    ensures InjectSelfRows(InjectSelfRows(t, year), year) == InjectSelfRows(t, year)
  {
    var r := InjectSelfRows(t, year);
    InjectSelfRowsSpec(t, year);
    assert EnsureSelfRow(r, USSelf, year) == r by {
      ForceLabelsIdentity(r, USSelf);
    }
    assert EnsureSelfRow(r, ChinaSelf, year) == r by {
      ForceLabelsIdentity(r, ChinaSelf);
    }
  }

  /** The appended US row happens to agree with the loader's rule (a 0-0 tie goes to the US);
      the appended China row does not (its 0-0 tie is labelled China by fiat). */
  lemma SyntheticRowsAndRule(year: int)
    ensures var u := Synthetic(USSelf, year);
            u.dominance == Classify(u.us, u.china)
    ensures var c := Synthetic(ChinaSelf, year);
            c.dominance != Classify(c.us, c.china)
  {
  }
}
