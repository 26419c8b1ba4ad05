/** The numeric-cell cleaner of the loader (app.py lines 28-34) and the
    plain decimal grammar that stands in for `pd.to_numeric(..., errors='coerce')`. */
module Numeric {
  import opened Wrappers
  import Text

  predicate IsDigit(c: char) {
    '0' <= c <= '9'
  }

  predicate AllDigits(s: string) {
    forall i :: 0 <= i < |s| ==> IsDigit(s[i])
  }

  function DigitValue(c: char): (d: nat)
    requires IsDigit(c)
  {
    (c as int) - ('0' as int)
  }

  function DigitChar(d: nat): (c: char)
    requires d < 10
    ensures IsDigit(c) && DigitValue(c) == d
  {
    (('0' as int) + d) as char
  }

  /** The natural number a string of decimal digits denotes (most significant first). */
  function DigitsValue(s: string): (n: nat)
    requires AllDigits(s)
    decreases |s|
  {
    if |s| == 0 then 0 else 10 * DigitsValue(s[..|s| - 1]) + DigitValue(s[|s| - 1])
  }

  function Pow10(n: nat): (r: nat)
    ensures r > 0
  {
    if n == 0 then 1 else 10 * Pow10(n - 1)
  }

  /** Position of the first '.' in `s`, or `|s|` when there is none. */
  function DotIndex(s: string): (k: nat)
    ensures k <= |s|
    ensures forall i :: 0 <= i < k ==> s[i] != '.'
    ensures k < |s| ==> s[k] == '.'
  {
    if |s| == 0 || s[0] == '.' then 0 else 1 + DotIndex(s[1..])
  }

  /** The value of `whole.frac`, both digit strings. */
  function Magnitude(whole: string, frac: string): (m: real)
    requires AllDigits(whole) && AllDigits(frac)
    ensures m >= 0.0
  {
    var num := DigitsValue(whole) * Pow10(|frac|) + DigitsValue(frac);
    num as real / Pow10(|frac|) as real
  }

  lemma MagnitudeWhole(whole: string)
    requires AllDigits(whole)
    ensures Magnitude(whole, "") == DigitsValue(whole) as real
  {
    assert Pow10(0) == 1 && DigitsValue("") == 0;
    assert DigitsValue(whole) * Pow10(0) + DigitsValue("") == DigitsValue(whole);
  }

  predicate IsSign(c: char) {
    c == '+' || c == '-'
  }

  /** Digits with an optional fraction and at least one digit overall:
      `12`, `12.`, `12.5`, `.5`. */
  function ParseUnsigned(s: string): (r: Option<real>)
    ensures r.Some? ==> r.value >= 0.0
  {
    var k := DotIndex(s);
    var whole := s[..k];
    var frac := if k < |s| then s[k + 1..] else "";
    if |whole| + |frac| > 0 && AllDigits(whole) && AllDigits(frac)
       && (k < |s| || |whole| > 0)
    then Some(Magnitude(whole, frac))
    else None
  }

  /** An optional `+` or `-` followed by an unsigned decimal. Anything else is `None`. */
  function ParseDecimal(s: string): (r: Option<real>) {
    if |s| > 0 && IsSign(s[0]) then
      match ParseUnsigned(s[1..])
      case None => None
      case Some(v) => Some(if s[0] == '-' then -v else v)
    else ParseUnsigned(s)
  }

  /** A decimal literal in pieces: sign ("", "+" or "-"), integer digits,
      whether a point is written, fraction digits. */
  datatype Literal = Literal(sign: string, whole: string, dot: bool, frac: string)

  predicate WellFormed(l: Literal) {
    && (l.sign == "" || l.sign == "+" || l.sign == "-")
    && AllDigits(l.whole) && AllDigits(l.frac)
    && (!l.dot ==> l.frac == "")
    && |l.whole| + |l.frac| > 0
  }

  function Render(l: Literal): (s: string) {
    l.sign + l.whole + (if l.dot then "." else "") + l.frac
  }

  function Value(l: Literal): (v: real)
    requires WellFormed(l)
  {
    var m := Magnitude(l.whole, l.frac);
    if l.sign == "-" then -m else m
  }

  lemma DotIndexOfDigits(s: string, t: string)
    requires AllDigits(s)
    ensures DotIndex(s + t) == |s| + DotIndex(t)
    decreases |s|
  {
    if |s| > 0 {
      assert (s + t)[1..] == s[1..] + t;
      DotIndexOfDigits(s[1..], t);
    } else {
      assert s + t == t;
    }
  }

  lemma ParseUnsignedRender(whole: string, dot: bool, frac: string)
    requires AllDigits(whole) && AllDigits(frac) && (!dot ==> frac == "") && |whole| + |frac| > 0
    ensures ParseUnsigned(whole + (if dot then "." else "") + frac)
         == Some(Magnitude(whole, frac))
  {
    var s := whole + (if dot then "." else "") + frac;
    if dot {
      assert s == whole + ("." + frac);
      DotIndexOfDigits(whole, "." + frac);
      assert s[..|whole|] == whole;
      assert s[|whole| + 1..] == frac;
    } else {
      assert s == whole + "";
      DotIndexOfDigits(whole, "");
      assert s[..|whole|] == whole;
    }
  }

  /** The unsigned part of a literal: integer digits, optional point, fraction digits. */
  function Body(l: Literal): (s: string) {
    l.whole + (if l.dot then "." else "") + l.frac
  }

  lemma RenderSplit(l: Literal)
    ensures Render(l) == l.sign + Body(l)
  {
  }

  lemma ParseSigned(c: char, u: string)
    requires IsSign(c)
    ensures ParseDecimal([c] + u) == match ParseUnsigned(u)
                                     case None => None
                                     case Some(v) => Some(if c == '-' then -v else v)
  {
    assert ([c] + u)[1..] == u;
  }

  lemma BodyStartsUnsigned(l: Literal)
    requires WellFormed(l)
    ensures |Body(l)| > 0 && !IsSign(Body(l)[0])
  {
    if |l.whole| > 0 {
      assert Body(l)[0] == l.whole[0];
    } else {
      assert l.dot;
      assert Body(l) == "." + l.frac;
    }
  }

  lemma ParseRenderUnsigned(l: Literal)
    requires WellFormed(l) && l.sign == ""
    ensures ParseDecimal(Render(l)) == Some(Magnitude(l.whole, l.frac))
  {
    assert Render(l) == Body(l);
    BodyStartsUnsigned(l);
    ParseUnsignedRender(l.whole, l.dot, l.frac);
  }

  lemma ParseRenderSigned(l: Literal)
    requires WellFormed(l) && l.sign != ""
    ensures ParseDecimal(Render(l)) == Some(if l.sign == "-" then -Magnitude(l.whole, l.frac)
                                            else Magnitude(l.whole, l.frac))
  {
    var c := l.sign[0];
    assert l.sign == [c];
    RenderSplit(l);
    ParseSigned(c, Body(l));
    ParseUnsignedRender(l.whole, l.dot, l.frac);
  }

  /** Every well-formed literal is read back as the number it denotes. */
  lemma ParseRender(l: Literal)
    requires WellFormed(l)
    ensures ParseDecimal(Render(l)) == Some(Value(l))
  {
    if l.sign == "" {
      ParseRenderUnsigned(l);
    } else {
      ParseRenderSigned(l);
    }
  }

  /** Splits the unsigned part of a text the grammar accepts into a literal without sign. */
  lemma ParseUnsignedSound(u: string) returns (l: Literal)
    requires ParseUnsigned(u).Some?
    ensures WellFormed(l) && l.sign == "" && Body(l) == u
    ensures Magnitude(l.whole, l.frac) == ParseUnsigned(u).value
  {
    var k := DotIndex(u);
    var whole := u[..k];
    var frac := if k < |u| then u[k + 1..] else "";
    l := Literal("", whole, k < |u|, frac);
    if k < |u| {
      assert u == whole + "." + frac;
    } else {
      assert u == whole + "";
    }
  }

  lemma SignedWitness(s: string) returns (l: Literal)
    requires |s| > 0 && IsSign(s[0]) && ParseDecimal(s).Some?
    ensures WellFormed(l) && Render(l) == s && Value(l) == ParseDecimal(s).value
  {
    var c := s[0];
    var u := s[1..];
    assert s == [c] + u;
    ParseSigned(c, u);
    var b := ParseUnsignedSound(u);
    l := Literal([c], b.whole, b.dot, b.frac);
    assert l.sign == "+" || l.sign == "-" by {
      assert c == '+' || c == '-';
    }
    assert l.sign == "-" <==> c == '-';
    assert Body(l) == Body(b);
    RenderSplit(l);
  }

  lemma UnsignedWitness(s: string) returns (l: Literal)
    requires !(|s| > 0 && IsSign(s[0])) && ParseDecimal(s).Some?
    ensures WellFormed(l) && Render(l) == s && Value(l) == ParseDecimal(s).value
  {
    l := ParseUnsignedSound(s);
    assert Render(l) == "" + Body(l);
  }

  /** Conversely, whatever `ParseDecimal` accepts is the rendering of a well-formed
      literal, and the number returned is that literal's value. */
  lemma ParseSound(s: string)
    ensures ParseDecimal(s).Some? ==>
              exists l :: WellFormed(l) && Render(l) == s && Value(l) == ParseDecimal(s).value
  {
    if ParseDecimal(s).Some? {
      var l;
      if |s| > 0 && IsSign(s[0]) {
        l := SignedWitness(s);
      } else {
        l := UnsignedWitness(s);
      }
    }
  }

  /** The cells the loader turns into NaN before any other step. */
  predicate IsMissingMarker(raw: string) {
    raw == "-" || raw == "" || raw == " "
  }

  /** Quote marks removed, then thousands separators, then surrounding whitespace. */
  function Normalize(raw: string): (r: string)
    ensures Text.Trimmed(r) && |r| <= |raw|
  {
    Text.Strip(Text.Delete(Text.Delete(raw, '"'), ','))
  }

  /** One numeric cell of the loader: missing markers give `None`, otherwise the
      normalized text is parsed and anything unparseable gives `None` as well. */
  function CleanCell(raw: string): (r: Option<real>)
    ensures IsMissingMarker(raw) ==> r == None
  {
    if IsMissingMarker(raw) then None else ParseDecimal(Normalize(raw))
  }

  /** A present value is always the value of a well-formed literal: the whole normalized
      cell was read, with no characters skipped or guessed. */
  lemma CleanSound(raw: string)
    ensures CleanCell(raw).Some? ==>
              exists l :: WellFormed(l) && Render(l) == Normalize(raw) && Value(l) == CleanCell(raw).value
  {
    ParseSound(Normalize(raw));
  }

  lemma NormalizeDash()
    ensures Normalize("-") == "-" && ParseDecimal("-") == None
  {
    Text.DeleteAbsent("-", '"');
    Text.DeleteAbsent("-", ',');
    Text.StripExact("", "-", "");
    assert "" + "-" + "" == "-";
    ParseSigned('-', "");
    assert ['-'] + "" == "-";
    assert ParseUnsigned("") == None;
  }

  lemma NormalizeBlank(raw: string)
    requires raw == "" || raw == " "
    ensures Normalize(raw) == "" && ParseDecimal("") == None
  {
    Text.DeleteAbsent(raw, '"');
    Text.DeleteAbsent(raw, ',');
    Text.StripExact(raw, "", "");
    assert raw + "" + "" == raw;
    assert ParseUnsigned("") == None;
  }

  /** Text that is already clean is left as it is. */
  lemma NoQuotesOrSeparators(s: string)
    requires '"' !in s && ',' !in s && Text.Trimmed(s)
    ensures Normalize(s) == s
  {
    assert Text.Delete(Text.Delete(s, '"'), ',') == s by {
      Text.DeleteAbsent(s, '"');
      Text.DeleteAbsent(s, ',');
    }
    assert Text.Strip(s) == s by {
      Text.StripExact([], s, []);
      assert [] + s + [] == s;
    }
  }

  /** The marker test changes nothing: each marker normalizes to text the grammar rejects,
      so cleaning is exactly parse-after-normalize. */
  lemma MarkerCheckRedundant(raw: string)
    ensures CleanCell(raw) == ParseDecimal(Normalize(raw))
  {
    if raw == "-" {
      NormalizeDash();
    } else if raw == "" || raw == " " {
      NormalizeBlank(raw);
    }
  }

  /** Decimal digits of `n`, most significant first, without leading zeros. */
  function NatDigits(n: nat): (s: string)
    ensures |s| > 0 && AllDigits(s) && DigitsValue(s) == n
  {
    if n < 10 then [DigitChar(n)]
    else
      var s := NatDigits(n / 10) + [DigitChar(n % 10)];
      assert s[..|s| - 1] == NatDigits(n / 10);
      s
  }

  /** Thousands grouping of a digit string, as written by `f"{n:,}"`. */
  function Group(ds: string): (r: string)
    requires AllDigits(ds)
    ensures |ds| > 0 ==> |r| > 0 && IsDigit(r[0]) && IsDigit(r[|r| - 1])
    ensures forall i :: 0 <= i < |r| ==> IsDigit(r[i]) || r[i] == ','
    decreases |ds|
  {
    if |ds| <= 3 then ds
    else Group(ds[..|ds| - 3]) + "," + ds[|ds| - 3..]
  }

  lemma {:induction false} DeleteGroup(ds: string)
    requires AllDigits(ds)
    ensures Text.Delete(Group(ds), ',') == ds
    decreases |ds|
  {
    if |ds| <= 3 {
      assert ',' !in ds;
      Text.DeleteAbsent(ds, ',');
    } else {
      var hi := ds[..|ds| - 3];
      var lo := ds[|ds| - 3..];
      assert hi + lo == ds;
      var g := Group(hi);
      assert Group(ds) == (g + ",") + lo;
      assert Text.Delete(g + ",", ',') == hi by {
        DeleteGroup(hi);
        Text.DeleteAppend(g, ",", ',');
        assert Text.Delete(",", ',') == [];
      }
      assert Text.Delete(lo, ',') == lo by {
        assert ',' !in lo;
        Text.DeleteAbsent(lo, ',');
      }
      Text.DeleteAppend(g + ",", lo, ',');
    }
  }

  /** A natural number as it appears in the source table, thousands-grouped. */
  function Grouped(n: nat): (s: string) {
    Group(NatDigits(n))
  }

  function Quote(quoted: bool): (s: string) {
    if quoted then "\"" else ""
  }

  lemma DeleteQuote(quoted: bool)
    ensures Text.Delete(Quote(quoted), '"') == []
  {
    if quoted {
      assert Quote(quoted) == ['"'] + [];
    }
  }

  lemma DeleteQuotes(pre: string, g: string, post: string, quoted: bool)
    requires '"' !in pre && '"' !in g && '"' !in post
    ensures Text.Delete(pre + Quote(quoted) + g + Quote(quoted) + post, '"') == pre + g + post
  {
    var q := Quote(quoted);
    var c := pre + q;
    var b := c + g;
    var a := b + q;
    assert Text.Delete(c, '"') == pre by {
      Text.DeleteAppend(pre, q, '"');
      Text.DeleteAbsent(pre, '"');
      DeleteQuote(quoted);
    }
    assert Text.Delete(b, '"') == pre + g by {
      Text.DeleteAppend(c, g, '"');
      Text.DeleteAbsent(g, '"');
    }
    assert Text.Delete(a, '"') == pre + g by {
      Text.DeleteAppend(b, q, '"');
      DeleteQuote(quoted);
    }
    assert Text.Delete(a + post, '"') == pre + g + post by {
      Text.DeleteAppend(a, post, '"');
      Text.DeleteAbsent(post, '"');
    }
  }

  lemma DeleteSeparators(pre: string, ds: string, post: string)
    requires ',' !in pre && ',' !in post && AllDigits(ds)
    ensures Text.Delete(pre + Group(ds) + post, ',') == pre + ds + post
  {
    Text.DeleteAbsent(pre, ',');
    Text.DeleteAbsent(post, ',');
    Text.DeleteAppend(pre + Group(ds), post, ',');
    Text.DeleteAppend(pre, Group(ds), ',');
    DeleteGroup(ds);
  }

  lemma ParseNatDigits(n: nat)
    ensures ParseDecimal(NatDigits(n)) == Some(n as real)
  {
    var l := Literal("", NatDigits(n), false, "");
    ParseRender(l);
    assert Render(l) == NatDigits(n);
    MagnitudeWhole(NatDigits(n));
  }

  /** Digit strings start and end with a non-space, and grouping adds no quote mark. */
  lemma DigitsShape(ds: string)
    requires |ds| > 0 && AllDigits(ds)
    ensures Text.Trimmed(ds) && '"' !in Group(ds)
  {
    assert IsDigit(ds[0]) && IsDigit(ds[|ds| - 1]);
  }

  /** Whitespace holds neither a quote mark nor a thousands separator. */
  lemma SpaceShape(s: string)
    requires Text.AllSpace(s)
    ensures '"' !in s && ',' !in s
  {
  }

  /** Cleaning reads back every thousands-grouped natural number, whether or not it is
      wrapped in quote marks and padded with whitespace. */
  lemma CleanGroupedRoundTrip(n: nat, pre: string, post: string, quoted: bool)
    requires Text.AllSpace(pre) && Text.AllSpace(post)
    ensures CleanCell(pre + Quote(quoted) + Grouped(n) + Quote(quoted) + post) == Some(n as real)
  {
    var ds := NatDigits(n);
    var g := Grouped(n);
    var raw := pre + Quote(quoted) + g + Quote(quoted) + post;
    SpaceShape(pre);
    SpaceShape(post);
    DigitsShape(ds);
    assert Text.Delete(raw, '"') == pre + g + post by {
      DeleteQuotes(pre, g, post, quoted);
    }
    assert Text.Delete(pre + g + post, ',') == pre + ds + post by {
      DeleteSeparators(pre, ds, post);
    }
    assert Normalize(raw) == ds by {
      Text.StripExact(pre, ds, post);
    }
    assert CleanCell(raw) == ParseDecimal(ds) by {
      MarkerCheckRedundant(raw);
    }
    ParseNatDigits(n);
  }

  lemma Unpadded(g: string)
    ensures [] + Quote(false) + g + Quote(false) + [] == g
  {
  }

  /** An unpadded, unquoted grouped number cleans to itself. */
  lemma CleanGrouped(n: nat)
    ensures CleanCell(Grouped(n)) == Some(n as real)
  {
    CleanGroupedRoundTrip(n, [], [], false);
    Unpadded(Grouped(n));
  }

  lemma CleanThousand()
    ensures CleanCell("1,234") == Some(1234.0)
  {
    assert Grouped(1234) == "1,234" by {
      assert NatDigits(1234) == "1234";
    }
    CleanGrouped(1234);
  }

  /** Worked examples: "1,234" is 1234 and the three markers are missing. A padded cell
      such as "  5,000  " is the instance pre = post = "  " of `CleanGroupedRoundTrip`. */
  lemma CleanExamples()
    ensures CleanCell("1,234") == Some(1234.0)
    ensures CleanCell("-") == None && CleanCell("") == None && CleanCell(" ") == None
  {
    CleanThousand();
  }
}
