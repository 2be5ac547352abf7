/**
 * The fixed schema of the compensation sheet: the header mapping from the
 * sheet's labels to canonical column names, and the lists of columns the
 * loader cleans as numbers and as strings (dashboard.py lines 29-47, 66).
 */
module Schema {
  import opened Text

  const CeoName: string := "CEO_Name"
  const Company: string := "Company"
  const Ticker: string := "Ticker"
  const Industry: string := "Industry"
  const Salary: string := "Salary"
  const PayRatio: string := "Pay_Ratio"
  const MedianPay: string := "Median_Worker_Pay"
  const MarketCap: string := "Market_Cap_Billions"
  const Tenure: string := "CEO_Tenure_Years"
  const Employees: string := "Employees"
  const PayLevelColumn: string := "Pay_Level"

  /** Sheet label to canonical column name. */
  const Mapping: map<string, string> := map[
    "CEO Name" := CeoName,
    "Company" := Company,
    "Ticker" := Ticker,
    "Industry" := Industry,
    "Salary" := Salary,
    "Pay Ratio" := PayRatio,
    "Median Worker Pay" := MedianPay,
    "Market Cap (Billions)" := MarketCap,
    "CEO Tenure (Years)" := Tenure,
    "Employees" := Employees,
    "Pay Level" := PayLevelColumn
  ]

  /** The columns coerced to numbers, in the order the loader visits them. */
  const NumericColumns: seq<string> := [Salary, PayRatio, MarketCap, Tenure, Employees, MedianPay]

  /** The numeric columns that also lose their dollar signs. */
  const CurrencyColumns: seq<string> := [Salary, MedianPay]

  /** The columns stripped of surrounding whitespace, in the order the loader visits them. */
  const StringColumns: seq<string> := [CeoName, Company, Industry, PayLevelColumn]

  /** Every column the loader rewrites, in the order it rewrites them. */
  const ProcessedColumns: seq<string> := NumericColumns + StringColumns

  /** The columns a row may not be missing (the `dropna` subset). */
  const RequiredColumns: seq<string> := [CeoName, Salary]

  /** No column is cleaned both as a string and as a number. */
  lemma StringNotNumeric(col: string)
    requires col in StringColumns
    ensures col !in NumericColumns
  {
    if col == PayLevelColumn {
      assert col[4] != PayRatio[4] && col[0] != Employees[0];
    }
  }

  /** The currency columns are numeric columns other than the pay ratio. */
  lemma CurrencyNotRatio(col: string)
    requires col in CurrencyColumns
    ensures col in NumericColumns && col != PayRatio
  {
  }

  /** The pay-level column is a string column. */
  lemma PayLevelIsString()
    ensures PayLevelColumn in StringColumns && PayLevelColumn !in NumericColumns
  {
    StringNotNumeric(PayLevelColumn);
  }

  /** A header after the rename step: mapped labels become canonical, others stay. */
  function Rename(h: string): (r: string)
    ensures h !in Mapping ==> r == h
    ensures h in Mapping ==> r in Mapping.Values
  {
    if h in Mapping then Mapping[h] else h
  }

  /**
   * A header as the loader leaves it: trimmed, then renamed. The result is
   * a canonical name or the trimmed label, and has no surrounding whitespace.
   */
  function Normalise(h: string): (r: string)
    ensures r in Mapping.Values || r == Strip(h)
    ensures r == [] || (!IsSpace(r[0]) && !IsSpace(r[|r| - 1]))
  {
    var t := Strip(h);
    if t in Mapping then CanonicalTrimmed(Mapping[t]); Rename(t) else Rename(t)
  }

  function NormaliseHeader(hs: seq<string>): (r: seq<string>)
    ensures |r| == |hs|
    ensures forall i :: 0 <= i < |hs| ==> r[i] == Normalise(hs[i])
  {
    seq(|hs|, i requires 0 <= i < |hs| => Normalise(hs[i]))
  }

  /** No canonical name starts or ends with whitespace. */
  lemma CanonicalTrimmed(name: string)
    requires name in Mapping.Values
    ensures !IsSpace(name[0]) && !IsSpace(name[|name| - 1])
  {
  }

  /**
   * A header's trimmed label decides its name: one of the eleven labels
   * becomes its canonical name, anything else keeps its trimmed text. Either
   * way the result carries no surrounding whitespace.
   */
  lemma NormaliseCases(h: string)
    ensures Strip(h) in Mapping ==> Normalise(h) == Mapping[Strip(h)] && Normalise(h) in Mapping.Values
    ensures Strip(h) !in Mapping ==> Normalise(h) == Strip(h)
    ensures Strip(Normalise(h)) == Normalise(h)
  {
    if Strip(h) in Mapping {
      CanonicalTrimmed(Mapping[Strip(h)]);
      StripUntrimmed(Normalise(h));
    } else {
      StripIdempotent(h);
    }
  }

  /** A canonical name is renamed to itself, or is not a label at all. */
  lemma RenameCanonical(name: string)
    requires name in Mapping.Values
    ensures Rename(name) == name
  {
    if name in Mapping {
      assert name in {Company, Ticker, Industry, Salary, Employees};
    }
  }

  /** Normalising a normalised header changes nothing. */
  lemma NormaliseIdempotent(h: string)
    ensures Normalise(Normalise(h)) == Normalise(h)
  {
    NormaliseCases(h);
    if Strip(h) in Mapping {
      RenameCanonical(Normalise(h));
    }
  }

  /**
   * No two of the eleven mapped labels share a canonical name. (A sheet
   * holding both a label and its canonical name, such as "CEO Name" and
   * "CEO_Name", still ends up with that name twice.)
   */
  lemma MappingInjective(a: string, b: string)
    requires a in Mapping && b in Mapping && a != b
    ensures Mapping[a] != Mapping[b]
  {
  }

  /** Whitespace around one of the eleven labels does not stop its rename. */
  lemma NormalisePaddedLabel(pre: string, lbl: string, post: string)
    requires AllSpace(pre) && AllSpace(post) && lbl in Mapping
    ensures Normalise(pre + lbl + post) == Mapping[lbl]
  {
    assert !IsSpace(lbl[0]) && !IsSpace(lbl[|lbl| - 1]);
    StripPadded(pre, lbl, post);
  }
}
