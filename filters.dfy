/**
 * The sidebar filters (dashboard.py lines 100-124): the industry options
 * offered, the industry selection, and the pay-level selection applied to
 * what the industry filter left. An empty selection filters nothing.
 */
module Filters {
  import opened Text
  import opened Levels
  import opened Frame
  import opened Schema
  import opened Loader

  // ---------------------------------------------------------------------
  // The industry options (lines 101, 384)
  // ---------------------------------------------------------------------

  /** An industry worth offering: neither empty nor the text of a missing value. */
  predicate KnownIndustry(s: string) {
    s != "" && s != "nan"
  }

  predicate StrictlySorted(s: seq<string>) {
    forall i, j :: 0 <= i < j < |s| ==> Below(s[i], s[j])
  }

  /** x added to a sorted list of distinct strings, if it is not there already. */
  function Insert(s: seq<string>, x: string): (r: seq<string>)
    ensures forall y :: y in r <==> y in s || y == x
  {
    if s == [] then [x]
    else if x == s[0] then s
    else if Below(x, s[0]) then [x] + s
    else [s[0]] + Insert(s[1..], x)
  }

  lemma {:induction false} InsertSorted(s: seq<string>, x: string)
    requires StrictlySorted(s)
    ensures StrictlySorted(Insert(s, x))
  {
    if s != [] && x != s[0] {
      if Below(x, s[0]) {
        forall j | 1 <= j < |s| + 1 ensures Below(([x] + s)[0], ([x] + s)[j]) {
          if j > 1 {
            BelowTransitive(x, s[0], s[j - 1]);
          }
        }
      } else {
        BelowTotal(x, s[0]);
        InsertSorted(s[1..], x);
        var r' := Insert(s[1..], x);
        forall j | 0 <= j < |r'| ensures Below(s[0], r'[j]) {
          if r'[j] != x {
            assert r'[j] in s[1..];
            var k :| 0 <= k < |s[1..]| && s[1..][k] == r'[j];
            assert s[k + 1] == r'[j];
          }
        }
      }
    }
  }

  /** Python's `sorted(set(xs))`: the distinct strings of xs in increasing order. */
  function SortedUnique(xs: seq<string>): (r: seq<string>)
    ensures StrictlySorted(r)
    ensures forall y :: y in r <==> y in xs
  {
    if xs == [] then []
    else
      var init := xs[..|xs| - 1];
      var prev := SortedUnique(init);
      assert xs == init + [xs[|xs| - 1]];
      InsertSorted(prev, xs[|xs| - 1]);
      Insert(prev, xs[|xs| - 1])
  }

  /** The known industries of a column's cells, in order. */
  function KnownTexts(cells: seq<Cell>): (r: seq<string>)
    ensures forall x :: x in r <==> Text(x) in cells && KnownIndustry(x)
  {
    if cells == [] then []
    else
      var init := cells[..|cells| - 1];
      var last := cells[|cells| - 1];
      assert cells == init + [last];
      KnownTexts(init) + (if last.Text? && KnownIndustry(last.s) then [last.s] else [])
  }

  /**
   * The industry options, sorted and without duplicates: every known
   * industry some row has, and nothing else. A table without an Industry
   * column offers none.
   */
  function IndustryOptions(t: Table): (r: seq<string>)
    requires WellFormed(t)
    ensures StrictlySorted(r)
    ensures Industry !in t.header ==> r == []
    ensures Industry in t.header ==>
              forall x :: x in r <==> KnownIndustry(x) && Text(x) in Column(t, Industry).value
  {
    match Column(t, Industry)
    case None => []
    case Some(cells) => SortedUnique(KnownTexts(cells))
  }

  /** Sorted strictly means no industry is offered twice. */
  lemma StrictlySortedDistinct(s: seq<string>)
    requires StrictlySorted(s)
    ensures forall i, j :: 0 <= i < j < |s| ==> s[i] != s[j]
  {
    forall i, j | 0 <= i < j < |s| ensures s[i] != s[j] {
      if s[i] == s[j] {
        BelowIrreflexive(s[i]);
      }
    }
  }

  // ---------------------------------------------------------------------
  // The two filters (lines 100-124)
  // ---------------------------------------------------------------------

  /** `isin` on the industry column at j: a stripped text among the selected ones. */
  function IndustryIn(j: nat, sel: seq<string>): Row -> bool {
    (row: Row) => j < |row| && row[j].Text? && row[j].s in sel
  }

  /** `isin` on the pay-level column at j: a category among the selected ones; a missing level never matches. */
  function LevelIn(j: nat, sel: seq<PayLevel>): Row -> bool {
    (row: Row) => j < |row| && row[j].Level? && row[j].level in sel
  }

  /** The industry filter: active only when something is selected and the column exists. */
  function IndustryFilter(t: Table, sel: seq<string>): (r: Table)
    ensures r.header == t.header && |r.rows| <= |t.rows|
    ensures forall row :: row in r.rows ==> row in t.rows
    ensures Industry !in t.header || sel == [] ==> r == t
  {
    match IndexOf(t.header, Industry)
    case Some(j) => if sel == [] then t else Table(t.header, Keep(t.rows, IndustryIn(j, sel)))
    case None => t
  }

  /** The pay-level filter: active only when something is selected and the column exists. */
  function PayLevelFilter(t: Table, sel: seq<PayLevel>): (r: Table)
    ensures r.header == t.header && |r.rows| <= |t.rows|
    ensures forall row :: row in r.rows ==> row in t.rows
    ensures PayLevelColumn !in t.header || sel == [] ==> r == t
  {
    match IndexOf(t.header, PayLevelColumn)
    case Some(j) => if sel == [] then t else Table(t.header, Keep(t.rows, LevelIn(j, sel)))
    case None => t
  }

  /** The sidebar: the industry filter, then the pay-level filter on its result. */
  function ApplyFilters(t: Table, industries: seq<string>, levels: seq<PayLevel>): (r: Table)
    ensures r.header == t.header && |r.rows| <= |t.rows|
    ensures forall row :: row in r.rows ==> row in t.rows
  {
    PayLevelFilter(IndustryFilter(t, industries), levels)
  }

  /** The pay-level options, in the category order: all five whenever the column exists (line 117). */
  function PayLevelOptions(t: Table): (r: seq<PayLevel>)
    ensures PayLevelColumn in t.header ==> forall l: PayLevel :: l in r
    ensures PayLevelColumn !in t.header ==> r == []
  {
    CategoriesSorted();
    if PayLevelColumn in t.header then Categories else []
  }

  /** Whether a row passes the industry selection, active or not. */
  function IndustryPass(h: seq<string>, sel: seq<string>): Row -> bool {
    match IndexOf(h, Industry)
    case Some(j) => if sel == [] then _ => true else IndustryIn(j, sel)
    case None => _ => true
  }

  /** Whether a row passes the pay-level selection, active or not. */
  function LevelPass(h: seq<string>, sel: seq<PayLevel>): Row -> bool {
    match IndexOf(h, PayLevelColumn)
    case Some(j) => if sel == [] then _ => true else LevelIn(j, sel)
    case None => _ => true
  }

  /** Whether a row passes both selections. */
  function Selected(h: seq<string>, industries: seq<string>, levels: seq<PayLevel>): Row -> bool {
    row => IndustryPass(h, industries)(row) && LevelPass(h, levels)(row)
  }

  lemma IndustryFilterKeeps(t: Table, sel: seq<string>)
    ensures IndustryFilter(t, sel) == Table(t.header, Keep(t.rows, IndustryPass(t.header, sel)))
  {
    if IndexOf(t.header, Industry).None? || sel == [] {
      KeepAll(t.rows, IndustryPass(t.header, sel));
    }
  }

  lemma PayLevelFilterKeeps(t: Table, sel: seq<PayLevel>)
    ensures PayLevelFilter(t, sel) == Table(t.header, Keep(t.rows, LevelPass(t.header, sel)))
  {
    if IndexOf(t.header, PayLevelColumn).None? || sel == [] {
      KeepAll(t.rows, LevelPass(t.header, sel));
    }
  }

  /** The two filters intersect: the result keeps, in order, exactly the rows that pass both selections. */
  lemma FiltersIntersect(t: Table, industries: seq<string>, levels: seq<PayLevel>)
    ensures ApplyFilters(t, industries, levels) == Table(t.header, Keep(t.rows, Selected(t.header, industries, levels)))
  {
    IndustryFilterKeeps(t, industries);
    PayLevelFilterKeeps(IndustryFilter(t, industries), levels);
    KeepKeep(t.rows, IndustryPass(t.header, industries), LevelPass(t.header, levels), Selected(t.header, industries, levels));
  }

  /**
   * The filtered table is an order-preserving subsequence of the table:
   * its rows are the table's rows at increasing positions, a row is kept
   * exactly when it passes both selections, and the header is unchanged.
   */
  lemma FilterSubsequence(t: Table, industries: seq<string>, levels: seq<PayLevel>)
    ensures var r := ApplyFilters(t, industries, levels);
            var idx := KeptIndices(t.rows, Selected(t.header, industries, levels));
            && r.header == t.header
            && |idx| == |r.rows|
            && (forall k :: 0 <= k < |idx| ==> idx[k] < |t.rows| && r.rows[k] == t.rows[idx[k]])
            && (forall k, l :: 0 <= k < l < |idx| ==> idx[k] < idx[l])
            && (forall i :: 0 <= i < |t.rows| ==>
                  (i in idx <==> IndustryPass(t.header, industries)(t.rows[i]) && LevelPass(t.header, levels)(t.rows[i])))
  {
    var p := Selected(t.header, industries, levels);
    FiltersIntersect(t, industries, levels);
    KeptIndicesSelect(t.rows, p);
    KeptIndicesIncrease(t.rows, p);
    KeptIndicesComplete(t.rows, p);
  }

  /** With nothing selected in either box, the table is shown as it is. */
  lemma EmptySelections(t: Table)
    ensures ApplyFilters(t, [], []) == t
  {
    FiltersIntersect(t, [], []);
    KeepAll(t.rows, Selected(t.header, [], []));
  }

  /** Filtering a loaded table gives a loaded table. */
  lemma FilterLoaded(t: Table, industries: seq<string>, levels: seq<PayLevel>)
    requires Loaded(t)
    ensures Loaded(ApplyFilters(t, industries, levels))
  {
    FiltersIntersect(t, industries, levels);
  }

  /** Filtering twice with the same selections is filtering once. */
  lemma FilterIdempotent(t: Table, industries: seq<string>, levels: seq<PayLevel>)
    ensures ApplyFilters(ApplyFilters(t, industries, levels), industries, levels) == ApplyFilters(t, industries, levels)
  {
    var p := Selected(t.header, industries, levels);
    var once := ApplyFilters(t, industries, levels);
    FiltersIntersect(t, industries, levels);
    FiltersIntersect(once, industries, levels);
    KeepAll(once.rows, p);
  }

  // ---------------------------------------------------------------------
  // The default selection
  // ---------------------------------------------------------------------

  /**
   * Whether a row survives the default selection (every option selected):
   * its industry cell holds a known industry, unless no row has one and the
   * industry filter is off, and its pay level is present.
   */
  predicate DefaultKept(t: Table, row: Row)
    requires WellFormed(t) && Industry in t.header && PayLevelColumn in t.header
  {
    var j, l := IndexOf(t.header, Industry).value, IndexOf(t.header, PayLevelColumn).value;
    && (IndustryOptions(t) != [] ==> j < |row| && row[j].Text? && KnownIndustry(row[j].s))
    && l < |row| && row[l].Level?
  }

  lemma IndustryDefault(t: Table, i: nat)
    requires WellFormed(t) && Industry in t.header && i < |t.rows|
    ensures var j, row := IndexOf(t.header, Industry).value, t.rows[i];
            IndustryPass(t.header, IndustryOptions(t))(row)
            <==> (IndustryOptions(t) != [] ==> j < |row| && row[j].Text? && KnownIndustry(row[j].s))
  {
    var row := t.rows[i];
    var j := IndexOf(t.header, Industry).value;
    var opts := IndustryOptions(t);
    assert Column(t, Industry).value[i] == row[j];
    if opts != [] && row[j].Text? && KnownIndustry(row[j].s) {
      assert row[j].s in opts;
    }
  }

  lemma LevelDefault(h: seq<string>, row: Row)
    requires PayLevelColumn in h
    ensures var l := IndexOf(h, PayLevelColumn).value;
            LevelPass(h, Categories)(row) <==> l < |row| && row[l].Level?
  {
    CategoriesSorted();
  }

  /** A row of the table passes the default selection exactly when DefaultKept says. */
  lemma DefaultRow(t: Table, i: nat)
    requires WellFormed(t) && Industry in t.header && PayLevelColumn in t.header && i < |t.rows|
    ensures Selected(t.header, IndustryOptions(t), PayLevelOptions(t))(t.rows[i]) <==> DefaultKept(t, t.rows[i])
  {
    IndustryDefault(t, i);
    LevelDefault(t.header, t.rows[i]);
  }

  /**
   * Selecting every option in both boxes keeps exactly the rows with a
   * known industry and a present pay level, so rows with an empty or
   * missing industry, or a level outside the five, disappear from the
   * default view.
   */
  lemma DefaultSelection(t: Table, row: Row)
    requires WellFormed(t) && Industry in t.header && PayLevelColumn in t.header
    ensures row in ApplyFilters(t, IndustryOptions(t), PayLevelOptions(t)).rows <==> row in t.rows && DefaultKept(t, row)
  {
    var p := Selected(t.header, IndustryOptions(t), PayLevelOptions(t));
    FiltersIntersect(t, IndustryOptions(t), PayLevelOptions(t));
    KeepMember(t.rows, p, row);
    if row in t.rows {
      var i :| 0 <= i < |t.rows| && t.rows[i] == row;
      DefaultRow(t, i);
    }
  }

  /** The default selection shows the whole table exactly when every row survives it. */
  lemma DefaultShowsAll(t: Table)
    requires WellFormed(t) && Industry in t.header && PayLevelColumn in t.header
    ensures ApplyFilters(t, IndustryOptions(t), PayLevelOptions(t)) == t
            <==> forall row :: row in t.rows ==> DefaultKept(t, row)
  {
    var p := Selected(t.header, IndustryOptions(t), PayLevelOptions(t));
    FiltersIntersect(t, IndustryOptions(t), PayLevelOptions(t));
    KeepAll(t.rows, p);
    forall i | 0 <= i < |t.rows| ensures p(t.rows[i]) <==> DefaultKept(t, t.rows[i]) {
      DefaultRow(t, i);
    }
  }
}
