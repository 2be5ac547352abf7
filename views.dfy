/**
 * What the tabs compute from the filtered table: the salaries, the pay-ratio
 * spread, the top earners overall and within an industry, the per-industry
 * table, and the rows the correlation matrix is built from
 * (dashboard.py lines 148-230, 292-318, 382-392, 471-486).
 */
module Views {
  import opened Wrappers
  import opened Frame
  import opened Schema
  import opened Loader
  import opened Filters
  import opened Reductions
  import opened Ranking

  // ---------------------------------------------------------------------
  // Salaries
  // ---------------------------------------------------------------------

  /** The salary of a row of a loaded table; every such row has one. */
  function PayOf(t: Table, row: Row): real
    requires Loaded(t) && row in t.rows
  {
    var j := IndexOf(t.header, Salary).value;
    assert Salary in NumericColumns;
    assert CellFits(t.header[j], row[j]);
    row[j].x
  }

  /** The salary of row i. */
  function SalaryAt(t: Table, i: nat): real
    requires Loaded(t) && i < |t.rows|
  {
    assert t.rows[i] in t.rows;
    PayOf(t, t.rows[i])
  }

  /** `df['Salary']`: the salaries top to bottom, one per row. */
  function Salaries(t: Table): (r: seq<real>)
    requires Loaded(t)
    ensures |r| == |t.rows|
    ensures forall i :: 0 <= i < |t.rows| ==> t.rows[i][IndexOf(t.header, Salary).value] == Number(r[i])
  {
    var j := IndexOf(t.header, Salary).value;
    seq(|t.rows|, i requires 0 <= i < |t.rows| => SalaryAt(t, i))
  }

  // ---------------------------------------------------------------------
  // The pay-ratio spread (lines 155-165)
  // ---------------------------------------------------------------------

  /** The largest and smallest ratio and their zero-guarded gap. */
  datatype Spread = Spread(largest: real, smallest: real, gap: real)

  /**
   * The ratio spread over the ratios present (`dropna`): all zero when the
   * column is absent or holds no ratio; otherwise the largest and smallest
   * present ratio and the same gap rule as the pay gap.
   */
  function RatioSpread(t: Table): (r: Spread)
    requires WellFormed(t)
    ensures PayRatio !in t.header ==> r == Spread(0.0, 0.0, 0.0)
    ensures PayRatio in t.header ==>
              var present := Numbers(Column(t, PayRatio).value);
              && (present == [] ==> r == Spread(0.0, 0.0, 0.0))
              && (present != [] ==>
                    && r.largest in present && r.smallest in present
                    && (forall x :: x in present ==> r.smallest <= x <= r.largest)
                    && r.gap == Gap(r.largest, r.smallest))
  {
    match Column(t, PayRatio)
    case None => Spread(0.0, 0.0, 0.0)
    case Some(cells) =>
      var present := Numbers(cells);
      if present == [] then Spread(0.0, 0.0, 0.0)
      else Spread(Max(present), Min(present), Gap(Max(present), Min(present)))
  }

  // ---------------------------------------------------------------------
  // Top earners (lines 204, 229-230, 389)
  // ---------------------------------------------------------------------

  /** `nlargest(n, 'Salary')`: the rows of the n largest salaries, largest first. */
  function TopPaid(t: Table, n: nat): (r: seq<Row>)
    requires Loaded(t)
    ensures |r| == Smaller(n, |t.rows|)
    ensures |r| <= n
  {
    var idx := TopIndices(Salaries(t), n);
    seq(|idx|, k requires 0 <= k < |idx| => t.rows[idx[k]])
  }

  /**
   * The chart's rows are rows of the table at distinct positions, their
   * salaries do not increase, and no row left out earns more than a row
   * shown; a left-out row earning the same comes later in the table.
   */
  lemma TopPaidFacts(t: Table, n: nat)
    requires Loaded(t)
    ensures var idx, s := TopIndices(Salaries(t), n), Salaries(t);
            && (forall k :: 0 <= k < |idx| ==> idx[k] < |t.rows| && TopPaid(t, n)[k] == t.rows[idx[k]])
            && (forall a, b :: 0 <= a < b < |idx| ==> idx[a] != idx[b] && s[idx[a]] >= s[idx[b]])
            && (forall i, k :: 0 <= i < |t.rows| && i !in idx && 0 <= k < |idx| ==>
                  s[i] <= s[idx[k]] && (s[i] == s[idx[k]] ==> idx[k] < i))
  {
    TopOrdered(Salaries(t), n);
    TopExcluded(Salaries(t), n);
  }

  /** `df.loc[df['Salary'].idxmax()]`: the first row with the largest salary. */
  function HighestPaid(t: Table): (r: Option<nat>)
    requires Loaded(t)
    ensures r.None? <==> t.rows == []
    ensures r.Some? ==> r.value < |t.rows| && Salaries(t)[r.value] == Max(Salaries(t))
    ensures r.Some? ==> forall i :: 0 <= i < r.value ==> Salaries(t)[i] < Salaries(t)[r.value]
  {
    if t.rows == [] then None else Some(ArgMax(Salaries(t)))
  }

  /** `df.loc[df['Salary'].idxmin()]`: the first row with the smallest salary. */
  function LowestPaid(t: Table): (r: Option<nat>)
    requires Loaded(t)
    ensures r.None? <==> t.rows == []
    ensures r.Some? ==> r.value < |t.rows| && Salaries(t)[r.value] == Min(Salaries(t))
    ensures r.Some? ==> forall i :: 0 <= i < r.value ==> Salaries(t)[r.value] < Salaries(t)[i]
  {
    if t.rows == [] then None else Some(ArgMin(Salaries(t)))
  }

  /** `df[df['Industry'] == ind]` selects rows whose industry cell is exactly ind. */
  function IndustryIs(j: nat, ind: string): Row -> bool {
    (row: Row) => j < |row| && row[j] == Text(ind)
  }

  /** The rows of one industry, in order: a row is selected exactly when it has that industry. */
  function IndustryRows(t: Table, ind: string): (r: Table)
    requires Industry in t.header
    ensures r.header == t.header
    ensures |r.rows| <= |t.rows|
    ensures forall row :: row in r.rows <==> row in t.rows && IndustryIs(IndexOf(t.header, Industry).value, ind)(row)
  {
    var p := IndustryIs(IndexOf(t.header, Industry).value, ind);
    forall row ensures row in Keep(t.rows, p) <==> row in t.rows && p(row) {
      KeepMember(t.rows, p, row);
    }
    Table(t.header, Keep(t.rows, p))
  }

  /**
   * `df[df['Industry'] == ind]` is an order-preserving subsequence: its rows
   * are the table's rows at increasing positions, and a position is taken
   * exactly when its industry cell is that industry. So `len(ind_data)`
   * counts the rows of the industry.
   */
  lemma IndustryRowsOrder(t: Table, ind: string)
    requires Industry in t.header
    ensures var r, j := IndustryRows(t, ind), IndexOf(t.header, Industry).value;
            var idx := KeptIndices(t.rows, IndustryIs(j, ind));
            && |idx| == |r.rows|
            && (forall k :: 0 <= k < |idx| ==> idx[k] < |t.rows| && r.rows[k] == t.rows[idx[k]])
            && (forall k, l :: 0 <= k < l < |idx| ==> idx[k] < idx[l])
            && (forall i :: 0 <= i < |t.rows| ==> (i in idx <==> IndustryIs(j, ind)(t.rows[i])))
  {
    var p := IndustryIs(IndexOf(t.header, Industry).value, ind);
    KeptIndicesSelect(t.rows, p);
    KeptIndicesIncrease(t.rows, p);
    KeptIndicesComplete(t.rows, p);
  }

  /** The rows of one industry of a loaded table form a loaded table. */
  lemma IndustryRowsLoaded(t: Table, ind: string)
    requires Loaded(t) && Industry in t.header
    ensures Loaded(IndustryRows(t, ind))
  {
  }

  /** An industry some row has selects at least that row. */
  lemma IndustryRowsNonEmpty(t: Table, ind: string)
    requires WellFormed(t) && Industry in t.header && Text(ind) in Column(t, Industry).value
    ensures Loaded(t) ==> Loaded(IndustryRows(t, ind))
    ensures |IndustryRows(t, ind).rows| > 0
  {
    var j := IndexOf(t.header, Industry).value;
    var cells := Column(t, Industry).value;
    var i :| 0 <= i < |cells| && cells[i] == Text(ind);
    KeepMember(t.rows, IndustryIs(j, ind), t.rows[i]);
  }

  /**
   * The industry tab's top ten (line 389): ten rows of that industry, or all
   * of them when it has fewer. IndustryTopFacts states their order.
   */
  function IndustryTop(t: Table, ind: string): (r: seq<Row>)
    requires Loaded(t) && Industry in t.header
    ensures |r| == Smaller(10, |IndustryRows(t, ind).rows|) && |r| <= 10
    ensures forall row :: row in r ==> row in t.rows && IndustryIs(IndexOf(t.header, Industry).value, ind)(row)
  {
    var sub := IndustryRows(t, ind);
    var top := TopPaid(sub, 10);
    assert forall k :: 0 <= k < |top| ==> top[k] in sub.rows by {
      TopPaidFacts(sub, 10);
    }
    top
  }

  /** The positions, among the industry's rows, that its top ten takes. */
  function IndustryRanks(t: Table, ind: string): (r: seq<nat>)
    requires Loaded(t) && Industry in t.header
    ensures |r| == |IndustryTop(t, ind)|
  {
    IndustryRowsLoaded(t, ind);
    TopIndices(Salaries(IndustryRows(t, ind)), 10)
  }

  /** Each row of the top ten is the industry's row at its rank, with that row's salary. */
  lemma IndustryTopAt(t: Table, ind: string)
    requires Loaded(t) && Industry in t.header
    ensures var top, sub, idx := IndustryTop(t, ind), IndustryRows(t, ind), IndustryRanks(t, ind);
            && Loaded(sub)
            && forall k :: 0 <= k < |top| ==>
                 idx[k] < |sub.rows| && top[k] == sub.rows[idx[k]] && PayOf(t, top[k]) == Salaries(sub)[idx[k]]
  {
    var sub := IndustryRows(t, ind);
    IndustryRowsLoaded(t, ind);
    TopPaidFacts(sub, 10);
    var top, idx := IndustryTop(t, ind), IndustryRanks(t, ind);
    forall k | 0 <= k < |top| ensures PayOf(t, top[k]) == Salaries(sub)[idx[k]] {
      SubPay(t, sub, idx[k]);
    }
  }

  /** A row of an industry's rows has the salary Salaries gives for its position there. */
  lemma SubPay(t: Table, sub: Table, i: nat)
    requires Loaded(t) && Loaded(sub) && sub.header == t.header && i < |sub.rows| && sub.rows[i] in t.rows
    ensures PayOf(t, sub.rows[i]) == Salaries(sub)[i]
  {
    assert sub.rows[i][IndexOf(sub.header, Salary).value] == Number(Salaries(sub)[i]);
  }

  /** Salaries do not increase down an industry's top ten. */
  lemma IndustryTopDescending(t: Table, ind: string)
    requires Loaded(t) && Industry in t.header
    ensures var top := IndustryTop(t, ind);
            forall a, b :: 0 <= a < b < |top| ==> PayOf(t, top[a]) >= PayOf(t, top[b])
  {
    IndustryTopAt(t, ind);
    IndustryRowsLoaded(t, ind);
    TopPaidFacts(IndustryRows(t, ind), 10);
  }

  /**
   * The top ten lists distinct rows of the industry, and rows earning the
   * same in the order they have among the industry's rows (IndustryRowsOrder
   * ties that order to the sheet's).
   */
  lemma IndustryTopStable(t: Table, ind: string)
    requires Loaded(t) && Industry in t.header
    ensures var top, idx := IndustryTop(t, ind), IndustryRanks(t, ind);
            && (forall a, b :: 0 <= a < b < |top| ==> idx[a] != idx[b])
            && (forall a, b :: 0 <= a < b < |top| && PayOf(t, top[a]) == PayOf(t, top[b]) ==> idx[a] < idx[b])
  {
    IndustryTopAt(t, ind);
    IndustryRowsLoaded(t, ind);
    TopOrdered(Salaries(IndustryRows(t, ind)), 10);
  }

  /** No row of the industry left out of its top ten earns more than a row in it. */
  lemma IndustryTopExcluded(t: Table, ind: string)
    requires Loaded(t) && Industry in t.header
    ensures var top, j := IndustryTop(t, ind), IndexOf(t.header, Industry).value;
            forall row, k :: row in t.rows && IndustryIs(j, ind)(row) && row !in top && 0 <= k < |top| ==>
              PayOf(t, row) <= PayOf(t, top[k])
  {
    var top, j := IndustryTop(t, ind), IndexOf(t.header, Industry).value;
    forall row, k | row in t.rows && IndustryIs(j, ind)(row) && row !in top && 0 <= k < |top|
      ensures PayOf(t, row) <= PayOf(t, top[k])
    {
      ExcludedRow(t, ind, row, k);
    }
  }

  /** One row of the industry left out of the top ten, against one row in it. */
  lemma ExcludedRow(t: Table, ind: string, row: Row, k: nat)
    requires Loaded(t) && Industry in t.header
    requires row in IndustryRows(t, ind).rows && row !in IndustryTop(t, ind) && k < |IndustryTop(t, ind)|
    ensures PayOf(t, row) <= PayOf(t, IndustryTop(t, ind)[k])
  {
    var sub, top, idx := IndustryRows(t, ind), IndustryTop(t, ind), IndustryRanks(t, ind);
    IndustryTopAt(t, ind);
    var i :| 0 <= i < |sub.rows| && sub.rows[i] == row;
    NotRanked(top, sub.rows, idx, i);
    TopExcluded(Salaries(sub), 10);
    SubPay(t, sub, i);
  }

  /** A row missing from a selection read at positions idx is not at any of those positions. */
  lemma NotRanked(top: seq<Row>, rows: seq<Row>, idx: seq<nat>, i: nat)
    requires |top| == |idx| && i < |rows| && rows[i] !in top
    requires forall k :: 0 <= k < |idx| ==> idx[k] < |rows| && top[k] == rows[idx[k]]
    ensures i !in idx
  {
    forall k | 0 <= k < |idx| ensures idx[k] != i {
      assert top[k] in top;
    }
  }

  // ---------------------------------------------------------------------
  // The per-industry table (lines 292-318)
  // ---------------------------------------------------------------------

  /** One line of the industry table: the mean columns are not modelled. */
  datatype IndustryLine = IndustryLine(industry: string, count: nat, maxPay: real, minPay: real, maxRatio: Option<real>)

  /** The largest ratio present, if the column exists and holds one. */
  function MaxRatio(t: Table): (r: Option<real>)
    requires WellFormed(t)
    ensures r.None? <==> PayRatio !in t.header || Numbers(Column(t, PayRatio).value) == []
    ensures r.Some? ==> r.value in Numbers(Column(t, PayRatio).value)
    ensures r.Some? ==> forall x :: x in Numbers(Column(t, PayRatio).value) ==> x <= r.value
  {
    match Column(t, PayRatio)
    case None => None
    case Some(cells) => if Numbers(cells) == [] then None else Some(Max(Numbers(cells)))
  }

  /**
   * The line for an industry. The loop only asks for industries some row
   * has (LineFacts); any other name would select no rows and get an empty line.
   */
  function Line(t: Table, ind: string): (r: IndustryLine)
    requires Loaded(t) && Industry in t.header
    ensures r.industry == ind && r.count == |IndustryRows(t, ind).rows|
  {
    IndustryRowsLoaded(t, ind);
    var sub := IndustryRows(t, ind);
    if sub.rows == [] then IndustryLine(ind, 0, 0.0, 0.0, None) else Summary(ind, sub)
  }

  /** The line summarising the rows of one industry. */
  function Summary(ind: string, sub: Table): (r: IndustryLine)
    requires Loaded(sub) && |sub.rows| > 0
    ensures r.industry == ind && r.count == |sub.rows|
    ensures r.maxPay in Salaries(sub) && r.minPay in Salaries(sub)
    ensures forall x :: x in Salaries(sub) ==> r.minPay <= x <= r.maxPay
    ensures r.maxRatio == MaxRatio(sub)
  {
    var s := Salaries(sub);
    IndustryLine(ind, |sub.rows|, Max(s), Min(s), MaxRatio(sub))
  }

  /**
   * An industry's line counts the rows that have it, gives the largest and
   * smallest salary among them, both salaries of such rows, and the
   * largest ratio among them when any is present.
   */
  lemma LineFacts(t: Table, ind: string)
    requires Loaded(t) && Industry in t.header && Text(ind) in Column(t, Industry).value
    ensures var r, sub := Line(t, ind), IndustryRows(t, ind);
            && Loaded(sub)
            && r.industry == ind && r.count == |sub.rows| && r.count >= 1
            && r.minPay <= r.maxPay
            && r.maxPay in Salaries(sub) && r.minPay in Salaries(sub)
            && (forall x :: x in Salaries(sub) ==> r.minPay <= x <= r.maxPay)
            && r.maxRatio == MaxRatio(sub)
  {
    IndustryRowsNonEmpty(t, ind);
    var s := Salaries(IndustryRows(t, ind));
    assert Min(s) in s;
  }

  /**
   * The industries the table lists: the known ones among the distinct
   * cells, each once, in the order they first appear in the column.
   */
  function ListedIndustries(t: Table): (r: seq<string>)
    requires WellFormed(t) && Industry in t.header
    ensures forall x :: x in r <==> KnownIndustry(x) && Text(x) in Column(t, Industry).value
    ensures forall a, b :: 0 <= a < b < |r| ==> r[a] != r[b]
    ensures forall a, b :: 0 <= a < b < |r| ==>
              IndexOf(Column(t, Industry).value, Text(r[a])).value < IndexOf(Column(t, Industry).value, Text(r[b])).value
  {
    var cells := Column(t, Industry).value;
    KnownTextsDistinct(Distinct(cells));
    KnownTextsOrder(Distinct(cells), cells);
    KnownTexts(Distinct(cells))
  }

  /** Cells listed in order of first appearance keep that order among their known texts. */
  lemma KnownTextsOrder(u: seq<Cell>, cells: seq<Cell>)
    requires forall x :: x in u ==> x in cells
    requires forall a, b :: 0 <= a < b < |u| ==> IndexOf(cells, u[a]).value < IndexOf(cells, u[b]).value
    ensures forall a, b :: 0 <= a < b < |KnownTexts(u)| ==>
              IndexOf(cells, Text(KnownTexts(u)[a])).value < IndexOf(cells, Text(KnownTexts(u)[b])).value
  {
    var kt := KnownTexts(u);
    var pos := KnownTextsPositions(u);
    forall a, b | 0 <= a < b < |kt|
      ensures IndexOf(cells, Text(kt[a])).value < IndexOf(cells, Text(kt[b])).value
    {
      assert u[pos[a]] == Text(kt[a]) && u[pos[b]] == Text(kt[b]);
    }
  }

  /** The positions in u that the known texts come from, increasing. */
  lemma {:induction false} KnownTextsPositions(u: seq<Cell>) returns (pos: seq<nat>)
    ensures |pos| == |KnownTexts(u)|
    ensures forall a :: 0 <= a < |pos| ==> pos[a] < |u| && u[pos[a]] == Text(KnownTexts(u)[a])
    ensures forall a, b :: 0 <= a < b < |pos| ==> pos[a] < pos[b]
  {
    if u == [] {
      pos := [];
    } else {
      var n := |u| - 1;
      var init := u[..n];
      var prev := KnownTextsPositions(init);
      KnownTextsStep(u, n);
      assert u[..n + 1] == u;
      forall a | 0 <= a < |prev| ensures u[prev[a]] == init[prev[a]] {
      }
      if u[n].Text? && KnownIndustry(u[n].s) {
        assert KnownTexts(u) == KnownTexts(init) + [u[n].s];
        pos := prev + [n];
      } else {
        assert KnownTexts(u) == KnownTexts(init);
        pos := prev;
      }
    }
  }

  /** The industry table for a list of industry names: one line each, in that order. */
  function Lines(t: Table, names: seq<string>): (r: seq<IndustryLine>)
    requires Loaded(t) && Industry in t.header
    ensures |r| == |names|
    ensures forall k :: 0 <= k < |r| ==> r[k].industry == names[k] && r[k].count == |IndustryRows(t, names[k]).rows|
  {
    seq(|names|, k requires 0 <= k < |names| => Line(t, names[k]))
  }

  lemma LinesAppend(t: Table, names: seq<string>, x: string)
    requires Loaded(t) && Industry in t.header
    ensures Lines(t, names + [x]) == Lines(t, names) + [Line(t, x)]
  {
    var all := names + [x];
    var a, b := Lines(t, all), Lines(t, names) + [Line(t, x)];
    assert |a| == |b|;
    forall k | 0 <= k < |a| ensures a[k] == b[k] {
      if k < |names| {
        assert all[k] == names[k];
      } else {
        assert all[k] == x;
      }
    }
  }

  lemma KnownTextsStep(u: seq<Cell>, k: nat)
    requires k < |u|
    ensures KnownTexts(u[..k + 1]) == KnownTexts(u[..k]) + (if u[k].Text? && KnownIndustry(u[k].s) then [u[k].s] else [])
  {
    assert u[..k + 1][..k] == u[..k];
  }

  /** The known texts of distinct cells are distinct. */
  lemma {:induction false} KnownTextsDistinct(cells: seq<Cell>)
    requires forall a, b :: 0 <= a < b < |cells| ==> cells[a] != cells[b]
    ensures forall a, b :: 0 <= a < b < |KnownTexts(cells)| ==> KnownTexts(cells)[a] != KnownTexts(cells)[b]
  {
    if cells != [] {
      var init := cells[..|cells| - 1];
      var last := cells[|cells| - 1];
      assert forall a :: 0 <= a < |init| ==> init[a] == cells[a];
      KnownTextsDistinct(init);
      assert cells == init + [last];
      if last.Text? && KnownIndustry(last.s) {
        assert last !in init;
        assert last.s !in KnownTexts(init);
      }
    }
  }

  /**
   * The per-industry loop: one line per distinct known industry, in order of
   * first appearance, appended as the loop meets each; no table when the
   * Industry column is absent.
   */
  method IndustryStats(t: Table) returns (lines: seq<IndustryLine>)
    requires Loaded(t)
    ensures Industry !in t.header ==> lines == []
    ensures Industry in t.header ==> lines == Lines(t, ListedIndustries(t))
  {
    lines := [];
    if Industry !in t.header {
      return;
    }
    var cells := Column(t, Industry).value;
    var uniques := Distinct(cells);
    ghost var names: seq<string> := [];
    for k := 0 to |uniques|
      invariant names == KnownTexts(uniques[..k])
      invariant lines == Lines(t, names)
    {
      var c := uniques[k];
      KnownTextsStep(uniques, k);
      if c.Text? && KnownIndustry(c.s) {
        LinesAppend(t, names, c.s);
        lines := lines + [Line(t, c.s)];
        names := names + [c.s];
      }
    }
    assert uniques[..|uniques|] == uniques;
  }

  /** Each line names its industry and counts at least one row. */
  lemma LinesNamed(t: Table, names: seq<string>)
    requires Loaded(t) && Industry in t.header
    requires forall x :: x in names ==> Text(x) in Column(t, Industry).value
    ensures forall k :: 0 <= k < |names| ==> Lines(t, names)[k].industry == names[k] && Lines(t, names)[k].count >= 1
  {
    forall k | 0 <= k < |names| ensures Lines(t, names)[k].industry == names[k] && Lines(t, names)[k].count >= 1 {
      assert names[k] in names;
      LineFacts(t, names[k]);
    }
  }

  /** The industry table names each industry at most once, and every line counts at least one row. */
  lemma IndustryTableDistinct(t: Table)
    requires Loaded(t) && Industry in t.header
    ensures var lines := Lines(t, ListedIndustries(t));
            && (forall a, b :: 0 <= a < b < |lines| ==> lines[a].industry != lines[b].industry)
            && (forall k :: 0 <= k < |lines| ==> lines[k].count >= 1)
  {
    var names := ListedIndustries(t);
    LinesNamed(t, names);
  }

  /** The industry table has a line for every known industry some row has, and for nothing else. */
  lemma IndustryTableCovers(t: Table)
    requires Loaded(t) && Industry in t.header
    ensures var lines := Lines(t, ListedIndustries(t));
            forall x :: (KnownIndustry(x) && Text(x) in Column(t, Industry).value) <==>
              exists k :: 0 <= k < |lines| && lines[k].industry == x
  {
    var names := ListedIndustries(t);
    var lines := Lines(t, names);
    LinesNamed(t, names);
    forall x | KnownIndustry(x) && Text(x) in Column(t, Industry).value
      ensures exists k :: 0 <= k < |lines| && lines[k].industry == x
    {
      var k :| 0 <= k < |names| && names[k] == x;
      assert lines[k].industry == x;
    }
  }

  // ---------------------------------------------------------------------
  // The correlation rows (lines 473-486)
  // ---------------------------------------------------------------------

  /** The columns of the correlation matrix: Salary, then those of the four others the table has. */
  function CorrelationColumns(h: seq<string>): (r: seq<string>)
    ensures |r| >= 1 && r[0] == Salary
    ensures forall x :: x in r <==> x == Salary || (x in [MarketCap, Employees, Tenure, PayRatio] && x in h)
  {
    [Salary]
    + (if MarketCap in h then [MarketCap] else [])
    + (if Employees in h then [Employees] else [])
    + (if Tenure in h then [Tenure] else [])
    + (if PayRatio in h then [PayRatio] else [])
  }

  /** A row with a number in every correlation column. */
  function CompleteIn(h: seq<string>, cols: seq<string>): Row -> bool {
    (row: Row) => forall c :: 0 <= c < |row| && c < |h| && h[c] in cols ==> row[c].Number?
  }

  /** `df[numeric_cols].dropna()`: the rows with every correlation column present, in order. */
  function CompleteCases(t: Table): (r: seq<Row>)
    ensures forall row :: row in r <==> row in t.rows && CompleteIn(t.header, CorrelationColumns(t.header))(row)
  {
    var p := CompleteIn(t.header, CorrelationColumns(t.header));
    forall row ensures row in Keep(t.rows, p) <==> row in t.rows && p(row) {
      KeepMember(t.rows, p, row);
    }
    Keep(t.rows, p)
  }

  /**
   * The matrix is drawn only when the table has one of the four other
   * columns besides Salary and at least two complete rows remain.
   */
  function CorrelationShown(t: Table): (r: bool)
    ensures r <==> (MarketCap in t.header || Employees in t.header || Tenure in t.header || PayRatio in t.header)
                   && |CompleteCases(t)| > 1
  {
    |CorrelationColumns(t.header)| > 1 && |CompleteCases(t)| > 1
  }
}
