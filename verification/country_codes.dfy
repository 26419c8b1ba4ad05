/** `get_iso3` (app.py lines 43-59): country name to ISO 3166-1 alpha-3 code.
    The country database is not part of this model; it is the parameter `lookup`. */
module CountryCodes {
  import opened Wrappers

  /** What the country database does with one name: returns a record carrying an
      alpha-3 code, returns nothing, or raises. */
  datatype LookupOutcome = Found(alpha3: string) | NotFound | Raised

  /** Names the database does not know, with the code the dashboard uses for each. */
  const Overrides: map<string, string> := map[
    "Russia" := "RUS", "Burma" := "MMR", "Vietnam" := "VNM", "Brunei Darussalam" := "BRN",
    "Congo (Kinshasa)" := "COD", "Congo (Brazzaville)" := "COG", "South Korea" := "KOR",
    "North Korea" := "PRK", "Taiwan" := "TWN", "Côte d'Ivoire" := "CIV", "Myanmar" := "MMR",
    "Palestine" := "PSE", "Bolivia" := "BOL", "Venezuela" := "VEN", "Tanzania" := "TZA",
    "Eswatini" := "SWZ", "Kosovo" := "XKX", "United States" := "USA", "The Bahamas" := "BHS",
    "Laos" := "LAO", "Syria" := "SYR", "Iran" := "IRN"
  ]

  /** The code for a country name: the database's answer when it has one, else the
      override entry, else none. A database that raises gives none, and so does a
      missing (NaN) name, which the database refuses. */
  function GetIso3(lookup: string -> LookupOutcome, name: Option<string>): (r: Option<string>)
    ensures r.Some? ==> name.Some? && !lookup(name.value).Raised?
  {
    match name
    case None => None
    case Some(n) =>
      match lookup(n)
      case Raised => None
      case Found(code) => Some(code)
      case NotFound => if n in Overrides then Some(Overrides[n]) else None
  }

  /** The three outcomes, in both directions: a code comes either from the database or,
      only when the database has no entry, from the override table. */
  lemma GetIso3Cases(lookup: string -> LookupOutcome, n: string, code: string)
    ensures GetIso3(lookup, Some(n)) == Some(code) <==>
              (lookup(n) == Found(code) ||
               (lookup(n) == NotFound && n in Overrides && Overrides[n] == code))
    ensures GetIso3(lookup, Some(n)) == None <==>
              (lookup(n) == Raised || (lookup(n) == NotFound && n !in Overrides))
  {
  }

  /** The database takes precedence: an override never replaces a code it returns. */
  lemma LookupWins(lookup: string -> LookupOutcome, n: string)
    requires n in Overrides && lookup(n).Found?
    ensures GetIso3(lookup, Some(n)) == Some(lookup(n).alpha3)
  {
  }

  /** A raising database masks the override table: even a listed name gets no code. */
  lemma RaiseMasksOverrides(lookup: string -> LookupOutcome, n: string)
    requires lookup(n) == Raised
    ensures GetIso3(lookup, Some(n)) == None
  {
  }

  /** Worked examples of the fallback: Burma and Myanmar share MMR; Taiwan is TWN. */
  lemma OverrideExamples(lookup: string -> LookupOutcome)
    requires lookup("Burma") == NotFound && lookup("Myanmar") == NotFound && lookup("Taiwan") == NotFound
    ensures GetIso3(lookup, Some("Burma")) == Some("MMR")
    ensures GetIso3(lookup, Some("Myanmar")) == Some("MMR")
    ensures GetIso3(lookup, Some("Taiwan")) == Some("TWN")
  {
  }

  predicate IsAlpha3(code: string) {
    |code| == 3 && forall i :: 0 <= i < 3 ==> 'A' <= code[i] <= 'Z'
  }

  /** Every override is three upper-case letters. */
  lemma OverridesWellFormed()
    ensures forall c :: c in Overrides.Values ==> IsAlpha3(c)
  {
  }
}
