/**
 * The reductions the dashboard shows over a list of amounts: largest and
 * smallest with their first positions (`max`, `min`, `idxmax`, `idxmin`),
 * the total, the gap and the savings formulas (dashboard.py lines 150-165,
 * 229-230, 504-509).
 */
module Reductions {
  import opened Wrappers

  function Max(s: seq<real>): (m: real)
    requires |s| > 0
    ensures m in s && forall x :: x in s ==> x <= m
  {
    if |s| == 1 then s[0]
    else
      var m := Max(s[1..]);
      assert forall x :: x in s ==> x == s[0] || x in s[1..];
      if s[0] >= m then s[0] else m
  }

  function Min(s: seq<real>): (m: real)
    requires |s| > 0
    ensures m in s && forall x :: x in s ==> m <= x
  {
    if |s| == 1 then s[0]
    else
      var m := Min(s[1..]);
      assert forall x :: x in s ==> x == s[0] || x in s[1..];
      if s[0] <= m then s[0] else m
  }

  /** `idxmax`: the first position holding the largest amount. */
  function ArgMax(s: seq<real>): (k: nat)
    requires |s| > 0
    ensures k < |s| && s[k] == Max(s)
    ensures forall i :: 0 <= i < k ==> s[i] < s[k]
  {
    if s[0] == Max(s) then 0
    else
      assert Max(s) in s[1..];
      assert Max(s[1..]) == Max(s) by {
        assert forall x :: x in s[1..] ==> x in s;
      }
      1 + ArgMax(s[1..])
  }

  /** `idxmin`: the first position holding the smallest amount. */
  function ArgMin(s: seq<real>): (k: nat)
    requires |s| > 0
    ensures k < |s| && s[k] == Min(s)
    ensures forall i :: 0 <= i < k ==> s[k] < s[i]
  {
    if s[0] == Min(s) then 0
    else
      assert Min(s) in s[1..];
      assert Min(s[1..]) == Min(s) by {
        assert forall x :: x in s[1..] ==> x in s;
      }
      1 + ArgMin(s[1..])
  }

  function Sum(s: seq<real>): real {
    if s == [] then 0.0 else Sum(s[..|s| - 1]) + s[|s| - 1]
  }

  /** The zero-guarded quotient of the largest by the smallest amount (lines 152, 160). */
  function Gap(largest: real, smallest: real): (r: real)
    ensures smallest > 0.0 ==> r * smallest == largest
    ensures smallest <= 0.0 ==> r == 0.0
  {
    if smallest > 0.0 then largest / smallest else 0.0
  }

  /**
   * The executive summary's pay gap: nothing when there are no amounts
   * (the tab shows a warning instead), otherwise the gap of the largest
   * over the smallest.
   */
  function PayGap(s: seq<real>): (r: Option<real>)
    ensures r.None? <==> s == []
  {
    if s == [] then None else Some(Gap(Max(s), Min(s)))
  }

  /**
   * The zero guard: with a positive smallest amount the gap is the factor
   * that takes the smallest to the largest, and is at least 1; otherwise it
   * is 0. So the gap is 0 exactly when the smallest amount is not positive.
   */
  lemma PayGapCases(s: seq<real>)
    requires s != []
    ensures Min(s) > 0.0 ==> PayGap(s).value * Min(s) == Max(s) && PayGap(s).value >= 1.0
    ensures PayGap(s).value == 0.0 <==> Min(s) <= 0.0
  {
    var mx, mn := Max(s), Min(s);
    if mn > 0.0 {
      assert mn <= mx by { assert mx in s; }
      GapAtLeastOne(mx, mn);
    }
  }

  lemma GapAtLeastOne(mx: real, mn: real)
    requires 0.0 < mn <= mx
    ensures Gap(mx, mn) * mn == mx && Gap(mx, mn) >= 1.0
  {
  }

  /** With a positive smallest amount, the gap is 1 exactly when every amount is the same. */
  lemma PayGapOne(s: seq<real>)
    requires s != [] && Min(s) > 0.0
    ensures PayGap(s).value == 1.0 <==> forall i, j :: 0 <= i < |s| && 0 <= j < |s| ==> s[i] == s[j]
  {
    var mx, mn := Max(s), Min(s);
    PayGapCases(s);
    assert PayGap(s).value == 1.0 <==> mx == mn by {
      GapOne(mx, mn);
    }
    var a := ArgMax(s);
    var b := ArgMin(s);
    if mx == mn {
      forall i, j | 0 <= i < |s| && 0 <= j < |s| ensures s[i] == s[j] {
        assert s[i] in s && s[j] in s;
      }
    }
  }

  lemma GapOne(mx: real, mn: real)
    requires mn > 0.0
    ensures Gap(mx, mn) == 1.0 <==> mx == mn
  {
    assert Gap(mx, mn) == mx / mn;
    if mx == mn {
      assert mn / mn == 1.0;
    }
  }

  // ---------------------------------------------------------------------
  // Savings (lines 504-509)
  // ---------------------------------------------------------------------

  /**
   * "Pay everyone the lowest" savings: the total less what the same number
   * of people would cost at the salary of the first lowest-paid row;
   * nothing when there are no amounts.
   */
  function Savings(s: seq<real>): (r: Option<real>)
    ensures r.None? <==> s == []
  {
    if s == [] then None else Some(Shortfall(s, s[ArgMin(s)]))
  }

  /** The total of the amounts less what as many people would cost at m each. */
  function Shortfall(s: seq<real>, m: real): real {
    Sum(s) - m * (|s| as real)
  }

  /** What each amount exceeds m by, added up. */
  function Excess(s: seq<real>, m: real): real {
    if s == [] then 0.0 else Excess(s[..|s| - 1], m) + (s[|s| - 1] - m)
  }

  lemma {:induction false} ExcessIsSum(s: seq<real>, m: real)
    ensures Excess(s, m) == Shortfall(s, m)
  {
    if s != [] {
      ExcessIsSum(s[..|s| - 1], m);
    }
  }

  /** The excess over a lower bound is never negative, and is zero exactly when every amount equals the bound. */
  lemma {:induction false} ExcessNonNegative(s: seq<real>, m: real)
    requires forall i :: 0 <= i < |s| ==> m <= s[i]
    ensures Excess(s, m) >= 0.0
    ensures Excess(s, m) == 0.0 <==> forall i :: 0 <= i < |s| ==> s[i] == m
  {
    if s != [] {
      var init := s[..|s| - 1];
      ExcessNonNegative(init, m);
      assert forall i :: 0 <= i < |init| ==> init[i] == s[i];
    }
  }

  /** The savings are the amounts' excess over the lowest one. */
  lemma SavingsExcess(s: seq<real>)
    requires s != []
    ensures Savings(s).value == Excess(s, Min(s))
  {
    ExcessIsSum(s, Min(s));
  }

  /** The savings are never negative, and are zero exactly when everybody is paid the same. */
  lemma SavingsNonNegative(s: seq<real>)
    requires s != []
    ensures Savings(s).value >= 0.0
    ensures Savings(s).value == 0.0 <==> forall i :: 0 <= i < |s| ==> s[i] == Min(s)
  {
    SavingsExcess(s);
    assert forall i :: 0 <= i < |s| ==> Min(s) <= s[i] by {
      forall i | 0 <= i < |s| ensures Min(s) <= s[i] {
        assert s[i] in s;
      }
    }
    ExcessNonNegative(s, Min(s));
  }

  /** Salaries of 10, 20 and 30 save 30 when paid 10 each. */
  lemma SavingsExample()
    ensures Savings([10.0, 20.0, 30.0]) == Some(30.0)
  {
    var s := [10.0, 20.0, 30.0];
    assert s[0] in s && s[1] in s && s[2] in s;
    assert Min(s) == 10.0;
    assert s[..2] == [10.0, 20.0];
    assert s[..2][..1] == [10.0];
    assert Sum([10.0]) == 10.0 by {
      assert [10.0][..0] == [];
    }
    assert Sum(s) == 60.0;
  }
}
