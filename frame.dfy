/**
 * The data frame: a header row of column names and rows of cells, the
 * column lookups pandas does by name, and order-preserving row selection
 * (boolean-mask indexing, `dropna`).
 */
module Frame {
  import opened Wrappers
  import opened Levels

  /** One cell of the frame: missing (NaN), a string, a number, or a pay-level category. */
  datatype Cell = Nan | Text(s: string) | Number(x: real) | Level(level: PayLevel)

  type Row = seq<Cell>

  datatype Table = Table(header: seq<string>, rows: seq<Row>)

  /** Every row has one cell per column. */
  predicate WellFormed(t: Table) {
    forall row :: row in t.rows ==> |row| == |t.header|
  }

  // ---------------------------------------------------------------------
  // Columns by name
  // ---------------------------------------------------------------------

  /** The position of the first column called name (or first element equal to name), if there is one. */
  function IndexOf<T(==)>(h: seq<T>, name: T): (r: Option<nat>)
    ensures r.None? <==> name !in h
    ensures r.Some? ==> r.value < |h| && h[r.value] == name
    ensures r.Some? ==> forall c :: 0 <= c < r.value ==> h[c] != name
  {
    if h == [] then None
    else if h[0] == name then Some(0)
    else match IndexOf(h[1..], name)
      case None => None
      case Some(j) => Some(j + 1)
  }

  /** How many columns are called name. */
  function Occurrences(h: seq<string>, name: string): nat {
    if h == [] then 0 else (if h[0] == name then 1 else 0) + Occurrences(h[1..], name)
  }

  /** A name that occurs at all occurs at least once, and one that never occurs, zero times. */
  lemma {:induction false} OccurrencesIn(h: seq<string>, name: string)
    ensures name in h <==> Occurrences(h, name) > 0
  {
    if h != [] {
      OccurrencesIn(h[1..], name);
    }
  }

  /** Two different positions holding name make it occur at least twice. */
  lemma {:induction false} TwoOccurrences(h: seq<string>, name: string, j: nat, c: nat)
    requires j < c < |h| && h[j] == name && h[c] == name
    ensures Occurrences(h, name) >= 2
  {
    if j > 0 {
      TwoOccurrences(h[1..], name, j - 1, c - 1);
    } else {
      assert h[1..][c - 1] == name;
      OccurrencesIn(h[1..], name);
    }
  }

  /** A name that occurs at most once names one position only. */
  lemma OccursOnce(h: seq<string>, name: string, j: nat, c: nat)
    requires Occurrences(h, name) <= 1
    requires j < |h| && c < |h| && h[j] == name && h[c] == name
    ensures j == c
  {
    if j < c {
      TwoOccurrences(h, name, j, c);
    } else if c < j {
      TwoOccurrences(h, name, c, j);
    }
  }

  /** The cells of a column, top to bottom; None when the frame has no such column. */
  function Column(t: Table, name: string): (r: Option<seq<Cell>>)
    requires WellFormed(t)
    ensures r.None? <==> name !in t.header
    ensures r.Some? ==> |r.value| == |t.rows|
    ensures r.Some? ==> forall i :: 0 <= i < |t.rows| ==> r.value[i] == t.rows[i][IndexOf(t.header, name).value]
  {
    match IndexOf(t.header, name)
    case None => None
    case Some(j) =>
      Some(seq(|t.rows|, i requires 0 <= i < |t.rows| => assert t.rows[i] in t.rows; t.rows[i][j]))
  }

  /** The numbers of a column, dropping the missing cells (`Series.dropna()`), in order. */
  function Numbers(cells: seq<Cell>): (r: seq<real>)
    ensures |r| <= |cells|
    ensures forall x :: x in r <==> Number(x) in cells
  {
    if cells == [] then []
    else
      var init := cells[..|cells| - 1];
      var last := cells[|cells| - 1];
      assert cells == init + [last];
      Numbers(init) + (if last.Number? then [last.x] else [])
  }

  // ---------------------------------------------------------------------
  // Order-preserving selection
  // ---------------------------------------------------------------------

  /** The elements of s that satisfy p, in their order in s. */
  function Keep<T>(s: seq<T>, p: T -> bool): (r: seq<T>)
    ensures |r| <= |s|
    ensures forall x :: x in r ==> x in s && p(x)
  {
    if s == [] then []
    else
      var init := s[..|s| - 1];
      var last := s[|s| - 1];
      assert s == init + [last];
      Keep(init, p) + (if p(last) then [last] else [])
  }

  /** The positions in s of the elements Keep(s, p) retains. */
  function KeptIndices<T>(s: seq<T>, p: T -> bool): (r: seq<nat>)
    ensures |r| == |Keep(s, p)|
    ensures forall k :: 0 <= k < |r| ==> r[k] < |s|
  {
    if s == [] then []
    else
      var n := |s| - 1;
      var r' := KeptIndices(s[..n], p);
      r' + (if p(s[n]) then [n] else [])
  }

  /** Keep(s, p) is s read at the kept positions. */
  lemma {:induction false} KeptIndicesSelect<T>(s: seq<T>, p: T -> bool)
    ensures forall k :: 0 <= k < |KeptIndices(s, p)| ==> Keep(s, p)[k] == s[KeptIndices(s, p)[k]]
  {
    if s != [] {
      var n := |s| - 1;
      KeptIndicesSelect(s[..n], p);
      assert Keep(s, p) == Keep(s[..n], p) + (if p(s[n]) then [s[n]] else []);
    }
  }

  /** The kept positions increase: the order of s is preserved. */
  lemma {:induction false} KeptIndicesIncrease<T>(s: seq<T>, p: T -> bool)
    ensures forall k, l :: 0 <= k < l < |KeptIndices(s, p)| ==> KeptIndices(s, p)[k] < KeptIndices(s, p)[l]
  {
    if s != [] {
      var n := |s| - 1;
      KeptIndicesIncrease(s[..n], p);
    }
  }

  /** The kept positions are exactly those whose element satisfies p. */
  lemma {:induction false} KeptIndicesComplete<T>(s: seq<T>, p: T -> bool)
    ensures forall i :: 0 <= i < |s| ==> (i in KeptIndices(s, p) <==> p(s[i]))
  {
    if s != [] {
      var n := |s| - 1;
      var init := s[..n];
      KeptIndicesComplete(init, p);
      KeptIndicesLast(s, p);
      forall i | 0 <= i < n ensures i in KeptIndices(s, p) <==> p(s[i]) {
        assert init[i] == s[i];
        assert i in KeptIndices(init, p) <==> p(init[i]);
      }
    }
  }

  /** The last position is kept when its element passes; the earlier ones as in the prefix. */
  lemma KeptIndicesLast<T>(s: seq<T>, p: T -> bool)
    requires s != []
    ensures |s| - 1 in KeptIndices(s, p) <==> p(s[|s| - 1])
    ensures forall i :: 0 <= i < |s| - 1 ==> (i in KeptIndices(s, p) <==> i in KeptIndices(s[..|s| - 1], p))
  {
    var n := |s| - 1;
    var r' := KeptIndices(s[..n], p);
    assert KeptIndices(s, p) == r' + (if p(s[n]) then [n] else []);
    assert n !in r' by {
      assert forall k :: 0 <= k < |r'| ==> r'[k] < n;
    }
  }

  /** An element is kept exactly when it occurs in s and satisfies p. */
  lemma {:induction false} KeepMember<T>(s: seq<T>, p: T -> bool, x: T)
    ensures x in Keep(s, p) <==> x in s && p(x)
  {
    if s != [] {
      var init := s[..|s| - 1];
      assert s == init + [s[|s| - 1]];
      KeepMember(init, p, x);
    }
  }

  /** Keep changes nothing exactly when every element satisfies p. */
  lemma {:induction false} KeepAll<T>(s: seq<T>, p: T -> bool)
    ensures Keep(s, p) == s <==> forall x :: x in s ==> p(x)
  {
    if s != [] {
      var init := s[..|s| - 1];
      assert s == init + [s[|s| - 1]];
      KeepAll(init, p);
    }
  }

  /** Two predicates that agree on s keep the same elements. */
  lemma {:induction false} KeepCongruent<T>(s: seq<T>, p: T -> bool, q: T -> bool)
    requires forall x :: x in s ==> p(x) == q(x)
    ensures Keep(s, p) == Keep(s, q)
  {
    if s != [] {
      var init := s[..|s| - 1];
      assert s == init + [s[|s| - 1]];
      KeepCongruent(init, p, q);
    }
  }

  /** Selecting twice is selecting once by both conditions. */
  lemma {:induction false} KeepKeep<T>(s: seq<T>, p: T -> bool, q: T -> bool, both: T -> bool)
    requires forall x :: both(x) == (p(x) && q(x))
    ensures Keep(Keep(s, p), q) == Keep(s, both)
  {
    if s != [] {
      var init := s[..|s| - 1];
      var last := s[|s| - 1];
      assert s == init + [last];
      KeepKeep(init, p, q, both);
      var kp := Keep(init, p) + (if p(last) then [last] else []);
      if p(last) {
        assert kp[..|kp| - 1] == Keep(init, p);
      } else {
        assert kp == Keep(init, p);
      }
    }
  }

  /** Appending to a sequence moves no first position, and a new element is first found at the end. */
  lemma {:induction false} IndexOfExtend<T>(h: seq<T>, y: T, x: T)
    ensures x in h ==> IndexOf(h + [y], x) == IndexOf(h, x)
    ensures x !in h && x == y ==> IndexOf(h + [y], x) == Some(|h|)
  {
    if h != [] && h[0] != x {
      assert (h + [y])[1..] == h[1..] + [y];
      IndexOfExtend(h[1..], y, x);
    }
  }

  /**
   * `unique()`: the distinct elements of s, in the order they first appear
   * (their first positions in s increase).
   */
  function Distinct(s: seq<Cell>): (r: seq<Cell>)
    ensures forall x :: x in r <==> x in s
    ensures forall a, b :: 0 <= a < b < |r| ==> r[a] != r[b]
    ensures forall a, b :: 0 <= a < b < |r| ==> IndexOf(s, r[a]).value < IndexOf(s, r[b]).value
  {
    if s == [] then []
    else
      var init := s[..|s| - 1];
      var last := s[|s| - 1];
      assert s == init + [last];
      var prev := Distinct(init);
      forall x | x in init ensures IndexOf(s, x) == IndexOf(init, x) {
        IndexOfExtend(init, last, x);
      }
      if last in prev then prev
      else
        IndexOfExtend(init, last, last);
        var r := prev + [last];
        assert forall a :: 0 <= a < |prev| ==> r[a] == prev[a] && prev[a] in init;
        r
  }
}
