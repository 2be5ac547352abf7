/**
 * The pay-level category: the five values the loader casts the "Pay_Level"
 * column to, as an ordered categorical (Minimal < Low < Medium < High < Extreme).
 */
module Levels {
  import opened Wrappers

  datatype PayLevel = Minimal | Low | Medium | High | Extreme

  /** The categories in their declared order (dashboard.py line 74). */
  const Categories: seq<PayLevel> := [Minimal, Low, Medium, High, Extreme]

  /** The position of a level in the declared order. */
  function Rank(l: PayLevel): (r: nat)
    ensures r < |Categories| && Categories[r] == l
  {
    match l
    case Minimal => 0
    case Low => 1
    case Medium => 2
    case High => 3
    case Extreme => 4
  }

  /** The order of the ordered categorical: l comes no later than m. */
  predicate AtMost(l: PayLevel, m: PayLevel) {
    Rank(l) <= Rank(m)
  }

  /** The category label as it appears in the sheet. */
  function Name(l: PayLevel): string {
    match l
    case Minimal => "Minimal"
    case Low => "Low"
    case Medium => "Medium"
    case High => "High"
    case Extreme => "Extreme"
  }

  /**
   * The category a label denotes; None for any label outside the five, which
   * `pd.Categorical` turns into a missing value.
   */
  function Parse(s: string): (r: Option<PayLevel>)
    ensures r.Some? ==> Name(r.value) == s
  {
    if s == "Minimal" then Some(Minimal)
    else if s == "Low" then Some(Low)
    else if s == "Medium" then Some(Medium)
    else if s == "High" then Some(High)
    else if s == "Extreme" then Some(Extreme)
    else None
  }

  /** Every category's label parses back to it, so Parse succeeds exactly on the five labels. */
  lemma ParseName(l: PayLevel)
    ensures Parse(Name(l)) == Some(l)
  {
  }

  /** Different categories have different labels. */
  lemma NameInjective(l: PayLevel, m: PayLevel)
    ensures Name(l) == Name(m) <==> l == m
  {
    ParseName(l);
    ParseName(m);
  }

  /** Parse succeeds exactly on the labels of the five categories. */
  lemma ParseDomain(s: string)
    ensures Parse(s).Some? <==> exists l: PayLevel :: Name(l) == s
  {
    if exists l: PayLevel :: Name(l) == s {
      var l: PayLevel :| Name(l) == s;
      ParseName(l);
    }
  }

  /** The category order is a total order on the five values. */
  lemma AtMostTotalOrder(l: PayLevel, m: PayLevel, n: PayLevel)
    ensures AtMost(l, l)
    ensures AtMost(l, m) && AtMost(m, l) ==> l == m
    ensures AtMost(l, m) && AtMost(m, n) ==> AtMost(l, n)
    ensures AtMost(l, m) || AtMost(m, l)
  {
  }

  /** The declared list is strictly increasing in that order and holds every category. */
  lemma CategoriesSorted()
    ensures forall i, j :: 0 <= i < j < |Categories| ==> Rank(Categories[i]) < Rank(Categories[j])
    ensures forall l: PayLevel :: l in Categories
  {
    forall l: PayLevel ensures l in Categories {
      assert Categories[Rank(l)] == l;
    }
  }
}
