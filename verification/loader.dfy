/** `load_data` (app.py lines 11-41): the wide source table is split into one
    table per year, the two volume columns are cleaned, and each row is labelled
    with its dominant trading partner. */
module Loader {
  import opened Wrappers
  import Numeric

  datatype Dominance = US | China

  datatype Year = Y2000 | Y2024 {
    function Number(): (n: int) {
      match this
      case Y2000 => 2000
      case Y2024 => 2024
    }
  }

  /** A volume field as the CSV reader hands it over: its text, or `None` for an empty
      field, which pandas holds as NaN. */
  type Cell = Option<string>

  /** One line of the source table: a country and its two volumes, once per year. */
  datatype CsvRow = CsvRow(
    country2000: Option<string>, us2000: Cell, china2000: Cell,
    country2024: Option<string>, us2024: Cell, china2024: Cell)

  /** One row of a cleaned per-year table; `None` volumes are NaN. */
  datatype Row = Row(country: Option<string>, us: Option<real>, china: Option<real>,
                     year: int, dominance: Dominance)

  function CountryOf(r: CsvRow, y: Year): (name: Option<string>) {
    match y
    case Y2000 => r.country2000
    case Y2024 => r.country2024
  }

  function UsCellOf(r: CsvRow, y: Year): (c: Cell) {
    match y
    case Y2000 => r.us2000
    case Y2024 => r.us2024
  }

  function ChinaCellOf(r: CsvRow, y: Year): (c: Cell) {
    match y
    case Y2000 => r.china2000
    case Y2024 => r.china2024
  }

  /** `astype(str)`: an empty field (NaN) becomes the text "nan". */
  function CellText(c: Cell): (text: string) {
    match c
    case None => "nan"
    case Some(s) => s
  }

  function CleanField(c: Cell): (v: Option<real>) {
    Numeric.CleanCell(CellText(c))
  }

  /** `fillna(0)`: a missing volume reads as zero, for comparison only. */
  function OrZero(v: Option<real>): (x: real) {
    v.GetOr(0.0)
  }

  /** Every row starts as US-dominant and is relabelled China when China's volume
      is strictly the larger one. */
  function Classify(us: Option<real>, china: Option<real>): (d: Dominance)
    ensures d == China <==> OrZero(china) > OrZero(us)
  {
    if OrZero(china) > OrZero(us) then China else US
  }

  function LoadRow(r: CsvRow, y: Year): (row: Row) {
    var us := CleanField(UsCellOf(r, y));
    var china := CleanField(ChinaCellOf(r, y));
    Row(CountryOf(r, y), us, china, y.Number(), Classify(us, china))
  }

  /** The cleaned table of one year: one row per source line, in source order. */
  function LoadYear(csv: seq<CsvRow>, y: Year): (t: seq<Row>)
    ensures |t| == |csv|
    ensures forall i :: 0 <= i < |t| ==>
              && t[i].country == CountryOf(csv[i], y)
              && t[i].us == CleanField(UsCellOf(csv[i], y))
              && t[i].china == CleanField(ChinaCellOf(csv[i], y))
              && t[i].year == y.Number()
  {
    seq(|csv|, i requires 0 <= i < |csv| => LoadRow(csv[i], y))
  }

  /** Both cleaned tables. */
  function Load(csv: seq<CsvRow>): (tables: (seq<Row>, seq<Row>)) {
    (LoadYear(csv, Y2000), LoadYear(csv, Y2024))
  }

  /** Every row of a table follows the dominance rule on its own stored volumes. */
  predicate DominanceConsistent(t: seq<Row>) {
    forall i :: 0 <= i < |t| ==> (t[i].dominance == China <==> OrZero(t[i].china) > OrZero(t[i].us))
  }

  /** Both loaded tables follow the dominance rule, and their volumes are the cleaned cells
      themselves, in all four volume columns: a missing volume stays missing, it is never
      stored as zero. */
  lemma LoadDominanceRule(csv: seq<CsvRow>)
    ensures DominanceConsistent(Load(csv).0) && DominanceConsistent(Load(csv).1)
    ensures |Load(csv).0| == |csv| && |Load(csv).1| == |csv|
    ensures forall i :: 0 <= i < |csv| ==>
              && Load(csv).0[i].us == CleanField(csv[i].us2000)
              && Load(csv).0[i].china == CleanField(csv[i].china2000)
              && Load(csv).1[i].us == CleanField(csv[i].us2024)
              && Load(csv).1[i].china == CleanField(csv[i].china2024)
  {
  }

  /** Ties go to the US, including the case where both volumes are missing; a missing
      volume compares exactly like a zero one. */
  lemma ClassifyTies(us: Option<real>, china: Option<real>, v: real)
    ensures OrZero(us) == OrZero(china) ==> Classify(us, china) == US
    ensures Classify(None, None) == US
    ensures Classify(None, Some(v)) == Classify(Some(0.0), Some(v))
    ensures Classify(Some(v), None) == Classify(Some(v), Some(0.0))
  {
  }

  /** Swapping two different volumes swaps the label: the rule favours neither side
      except on a tie. */
  lemma ClassifySwap(a: Option<real>, b: Option<real>)
    requires OrZero(a) != OrZero(b)
    ensures Classify(a, b) != Classify(b, a)
  {
  }

  /** An empty CSV field becomes the text "nan", which is not a decimal: it is missing. */
  lemma NanNormalized()
    ensures Numeric.Normalize("nan") == "nan"
  {
    Numeric.NoQuotesOrSeparators("nan");
  }

  lemma NanRejected()
    ensures Numeric.ParseDecimal("nan") == None
  {
    assert Numeric.DotIndex("nan") == 3;
    assert !Numeric.AllDigits("nan");
  }

  lemma BlankFieldMissing()
    ensures CleanField(None) == None
  {
    NanNormalized();
    NanRejected();
    Numeric.MarkerCheckRedundant("nan");
  }

  /** A field holding a grouped natural number cleans to that number. */
  lemma CleanGroupedField(n: nat, text: string)
    requires Numeric.Grouped(n) == text
    ensures CleanField(Some(text)) == Some(n as real)
  {
    Numeric.CleanGrouped(n);
  }

  lemma CleanHundredThousand()
    ensures CleanField(Some("100,000")) == Some(100000.0)
  {
    assert Numeric.NatDigits(100000) == "100000";
    assert Numeric.Group("100000") == "100,000";
    CleanGroupedField(100000, "100,000");
  }

  lemma CleanFiftyThousand()
    ensures CleanField(Some("50,000")) == Some(50000.0)
  {
    assert Numeric.NatDigits(50000) == "50000";
    assert Numeric.Group("50000") == "50,000";
    CleanGroupedField(50000, "50,000");
  }

  lemma CleanTwentyThousand()
    ensures CleanField(Some("20,000")) == Some(20000.0)
  {
    assert Numeric.NatDigits(20000) == "20000";
    assert Numeric.Group("20000") == "20,000";
    CleanGroupedField(20000, "20,000");
  }

  /** Worked example: Germany in 2000 with US 100,000 and China 50,000 is US-dominant. */
  lemma GermanyScenario(r: CsvRow)
    requires r.country2000 == Some("Germany") && r.us2000 == Some("100,000") && r.china2000 == Some("50,000")
    ensures LoadRow(r, Y2000) == Row(Some("Germany"), Some(100000.0), Some(50000.0), 2000, US)
  {
    CleanHundredThousand();
    CleanFiftyThousand();
  }

  /** Worked example: Brazil in 2024 with US "-" and China 20,000 is China-dominant;
      the US volume stays missing. */
  lemma BrazilScenario(r: CsvRow)
    requires r.country2024 == Some("Brazil") && r.us2024 == Some("-") && r.china2024 == Some("20,000")
    ensures LoadRow(r, Y2024) == Row(Some("Brazil"), None, Some(20000.0), 2024, China)
  {
    CleanTwentyThousand();
    assert CleanField(Some("-")) == None;
  }
}
