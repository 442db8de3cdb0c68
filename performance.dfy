/**
 * The performance history's numeric helpers (amphetype/Performance.py):
 * the moving average that damps the graph, the age shown in the "When"
 * column, and the x/y series handed to the plotter.  Values are `real`;
 * the "%.1f" rendering is not modelled, so an age is a value and a unit.
 */
module Performance {

  import opened Wrappers

  const ZERO_DIVISION: string := "ZeroDivisionError"

  /** Python's `sum`, adding from the left. */
  function Sum(w: seq<real>): real
  {
    if w == [] then 0.0 else Sum(w[..|w| - 1]) + w[|w| - 1]
  }

  /** The average of a non-empty window. */
  function Mean(w: seq<real>): real
    requires w != []
  {
    Sum(w) / |w| as real
  }

  /**
   * Reference definition of the damped series: output k is the mean of the
   * `n` values starting at position k, for every window that ends strictly
   * before the end of the input.  The window that ends at `len(x)` is not
   * part of it, because the loop appends before it slides.
   */
  function Damped(x: seq<real>, n: nat): (r: seq<real>)
    requires n > 0
    ensures |r| == if |x| > n then |x| - n else 0
  {
    seq(if |x| > n then |x| - n else 0, k requires 0 <= k < |x| - n => Mean(x[k..k + n]))
  }

  lemma {:induction false} SumFront(w: seq<real>)
    requires w != []
    ensures Sum(w) == w[0] + Sum(w[1..])
  {
    if |w| > 1 {
      SumFront(w[..|w| - 1]);
      assert w[..|w| - 1][1..] == w[1..][..|w[1..]| - 1];
      assert w[..|w| - 1][0] == w[0];
    }
  }

  /** Sliding the window one step: add the value that enters, drop the one that leaves. */
  lemma SumSlide(x: seq<real>, lo: nat, hi: nat)
    requires lo < hi < |x|
    ensures Sum(x[lo + 1..hi + 1]) == Sum(x[lo..hi]) + x[hi] - x[lo]
  {
    assert x[lo..hi + 1][..hi - lo] == x[lo..hi];
    SumFront(x[lo..hi + 1]);
    assert x[lo..hi + 1][1..] == x[lo + 1..hi + 1];
  }

  lemma {:induction false} SumBounds(w: seq<real>, lo: real, hi: real)
    requires forall i :: 0 <= i < |w| ==> lo <= w[i] <= hi
    ensures |w| as real * lo <= Sum(w) <= |w| as real * hi
  {
    if w != [] {
      SumBounds(w[..|w| - 1], lo, hi);
    }
  }

  lemma MeanBounds(w: seq<real>, lo: real, hi: real)
    requires w != []
    requires forall i :: 0 <= i < |w| ==> lo <= w[i] <= hi
    ensures lo <= Mean(w) <= hi
  {
    SumBounds(w, lo, hi);
    var m := |w| as real;
    var s := Sum(w);
    assert m * lo <= s <= m * hi;
    assert s / m >= lo by { DivideBounds(s, m, lo); }
    assert s / m <= hi by { DivideBounds(-s, m, -hi); }
  }

  lemma DivideBounds(s: real, m: real, lo: real)
    requires m > 0.0 && m * lo <= s
    ensures s / m >= lo
  {
  }

  /** A damped series stays within the bounds of its input. */
  lemma DampedBounded(x: seq<real>, n: nat, lo: real, hi: real)
    requires n > 0
    requires forall i :: 0 <= i < |x| ==> lo <= x[i] <= hi
    ensures forall k :: 0 <= k < |Damped(x, n)| ==> lo <= Damped(x, n)[k] <= hi
  {
    forall k | 0 <= k < |Damped(x, n)|
      ensures lo <= Damped(x, n)[k] <= hi
    {
      var w := x[k..k + n];
      assert forall i :: 0 <= i < |w| ==> w[i] == x[k + i];
      MeanBounds(w, lo, hi);
    }
  }

  /** Damping a constant series gives the same constant. */
  lemma DampedConstant(x: seq<real>, n: nat, c: real)
    requires n > 0
    requires forall i :: 0 <= i < |x| ==> x[i] == c
    ensures forall k :: 0 <= k < |Damped(x, n)| ==> Damped(x, n)[k] == c
  {
    DampedBounded(x, n, c, c);
  }

  /** A series no longer than the window damps to nothing. */
  lemma DampedShort(x: seq<real>, n: nat)
    requires n > 0 && |x| <= n
    ensures Damped(x, n) == []
  {
  }

  /** Multiplying by `q = 1 / n`, as the loop does, divides by the window's length. */
  lemma ScaledSumIsMean(w: seq<real>, s: real, q: real)
    requires w != [] && s == Sum(w) && q == 1.0 / |w| as real
    ensures s * q == Mean(w)
  {
  }

  /**
   * `dampen(x, n)`: the running-sum loop.  `n == 0` divides by zero in
   * `1 / n`; a negative window is not modelled.
   */
  method Dampen(x: seq<real>, n: nat) returns (r: Result<seq<real>>)
    ensures n == 0 ==> r == Failure(ZERO_DIVISION)
    ensures n > 0 ==> r == Success(Damped(x, n))
  {
    if n == 0 {
      return Failure(ZERO_DIVISION);
    }
    var ret: seq<real> := [];
    var s := Sum(x[..if n < |x| then n else |x|]);
    var q := 1.0 / n as real;
    var i := n;
    while i < |x|
      invariant n <= i && (i <= |x| || i == n)
      invariant |ret| == i - n
      invariant i <= |x| ==> s == Sum(x[i - n..i])
      invariant forall k :: 0 <= k < |ret| ==> ret[k] == Mean(x[k..k + n])
    {
      ScaledSumIsMean(x[i - n..i], s, q);
      ret := ret + [s * q];
      SumSlide(x, i - n, i);
      s := s + x[i] - x[i - n];
      i := i + 1;
    }
    assert |ret| == |Damped(x, n)|;
    forall k | 0 <= k < |ret|
      ensures ret[k] == Damped(x, n)[k]
    {
      assert Damped(x, n)[k] == Mean(x[k..k + n]);
    }
    assert ret == Damped(x, n);
    return Success(ret);
  }

  /** The unit an age is shown in. */
  datatype Unit = Second | Minute | Hour | Day | Week | Year
  {
    /** The letter after the value. */
    function Suffix(): char
    {
      match this
      case Second => 's'
      case Minute => 'm'
      case Hour => 'h'
      case Day => 'd'
      case Week => 'w'
      case Year => 'y'
    }

    /** How many seconds one of this unit is; a year is 52 weeks. */
    function Seconds(): real
    {
      match this
      case Second => 1.0
      case Minute => 60.0
      case Hour => 3600.0
      case Day => 86400.0
      case Week => 604800.0
      case Year => 31449600.0
    }

    /** How many of this unit make the next one. */
    function Limit(): real
    {
      match this
      case Second => 60.0
      case Minute => 60.0
      case Hour => 24.0
      case Day => 7.0
      case Week => 52.0
      case Year => 0.0
    }

    function Rank(): nat
    {
      match this
      case Second => 0
      case Minute => 1
      case Hour => 2
      case Day => 3
      case Week => 4
      case Year => 5
    }
  }

  /** Reference choice of a unit, by the age in seconds. */
  function UnitFor(age: real): Unit
  {
    if age < 60.0 then Second
    else if age < 3600.0 then Minute
    else if age < 86400.0 then Hour
    else if age < 604800.0 then Day
    else if age < 31449600.0 then Week
    else Year
  }

  /**
   * `formatWhen(w)` with the clock reading `now` as a parameter: the age is
   * divided down the ladder of units until it is under the next unit's
   * size.
   */
  method FormatWhen(now: real, w: real) returns (value: real, unit: Unit)
    ensures unit == UnitFor(now - w)
    ensures value == (now - w) / unit.Seconds()
  {
    var d := now - w;
    if d < 60.0 {
      return d, Second;
    }
    d := d / 60.0;
    if d < 60.0 {
      return d, Minute;
    }
    d := d / 60.0;
    if d < 24.0 {
      return d, Hour;
    }
    d := d / 24.0;
    if d < 7.0 {
      return d, Day;
    }
    d := d / 7.0;
    if d < 52.0 {
      return d, Week;
    }
    d := d / 52.0;
    return d, Year;
  }

  /**
   * The shown value is below the size of the next unit, and at least one
   * unit except when shown in seconds.
   */
  lemma UnitForRange(age: real)
    ensures UnitFor(age) != Year ==> age / UnitFor(age).Seconds() < UnitFor(age).Limit()
    ensures UnitFor(age) != Second ==> age / UnitFor(age).Seconds() >= 1.0
  {
  }

  /** An older age is never shown in a smaller unit. */
  lemma UnitForMonotone(a: real, b: real)
    requires a <= b
    ensures UnitFor(a).Rank() <= UnitFor(b).Rank()
  {
  }

  /** The columns of a result row (`text_id, w, name, wpm, accuracy, viscosity`). */
  datatype ResultRow = ResultRow(textId: string, when: real, source: string, wpm: real, accuracy: real, viscosity: real)

  /** `x[pc]` for the plottable columns that the "Plot" setting offers: 3, 4 and 5. */
  function Column(row: ResultRow, pc: nat): real
    requires 3 <= pc <= 5
  {
    if pc == 3 then row.wpm else if pc == 4 then row.accuracy else row.viscosity
  }

  function Values(rows: seq<ResultRow>, pc: nat): (y: seq<real>)
    requires 3 <= pc <= 5
    ensures |y| == |rows| && forall i :: 0 <= i < |rows| ==> y[i] == Column(rows[i], pc)
  {
    seq(|rows|, i requires 0 <= i < |rows| => Column(rows[i], pc))
  }

  function Whens(rows: seq<ResultRow>): (x: seq<real>)
    ensures |x| == |rows| && forall i :: 0 <= i < |rows| ==> x[i] == rows[i].when
  {
    seq(|rows|, i requires 0 <= i < |rows| => rows[i].when)
  }

  /** `list(range(m))`. */
  function Range(m: nat): (x: seq<real>)
    ensures |x| == m && forall i :: 0 <= i < m ==> x[i] == i as real
  {
    seq(m, i requires 0 <= i < m => i as real)
  }

  /** `list.reverse()`. */
  function Reversed(s: seq<real>): (r: seq<real>)
    ensures |r| == |s|
    ensures s != [] ==> r[0] == s[|s| - 1] && r[|s| - 1] == s[0]
  {
    if s == [] then [] else Reversed(s[1..]) + [s[0]]
  }

  lemma {:induction false} ReversedIndex(s: seq<real>)
    ensures |Reversed(s)| == |s|
    ensures forall i :: 0 <= i < |s| ==> Reversed(s)[i] == s[|s| - 1 - i]
  {
    if s != [] {
      ReversedIndex(s[1..]);
    }
  }

  /** The x-axis without time scaling counts down: the newest row, first in the list, is rightmost. */
  lemma ReversedRange(m: nat)
    ensures |Reversed(Range(m))| == m
    ensures forall i :: 0 <= i < m ==> Reversed(Range(m))[i] == (m - 1 - i) as real
  {
    ReversedIndex(Range(m));
  }

  /** The x values before damping. */
  function XAxis(rows: seq<ResultRow>, chrono: bool): (x: seq<real>)
    ensures |x| == |rows|
    ensures chrono ==> forall i :: 0 <= i < |rows| ==> x[i] == rows[i].when
    ensures !chrono ==> forall i :: 0 <= i < |rows| ==> x[i] == (|rows| - 1 - i) as real
  {
    ReversedRange(|rows|);
    if chrono then Whens(rows) else Reversed(Range(|rows|))
  }

  datatype Plot = Plot(x: seq<real>, y: seq<real>)

  /**
   * The series of `updateGraph`, from the model's rows and the settings
   * `graph_what`, `chrono_x`, `dampen_graph` and `dampen_average`.
   */
  method UpdateGraph(rows: seq<ResultRow>, graphWhat: nat, chrono: bool, damp: bool, average: nat)
    returns (plot: Result<Plot>)
    requires 3 <= graphWhat <= 5
    ensures !damp ==> plot == Success(Plot(XAxis(rows, chrono), Values(rows, graphWhat)))
    ensures !damp ==> (plot.Success? && |plot.value.y| == |rows| &&
                       forall i :: 0 <= i < |rows| ==> plot.value.y[i] == Column(rows[i], graphWhat))
    ensures damp && average == 0 ==> plot == Failure(ZERO_DIVISION)
    ensures damp && average > 0 ==>
      plot == Success(Plot(Damped(XAxis(rows, chrono), average), Damped(Values(rows, graphWhat), average)))
    ensures plot.Success? ==> |plot.value.x| == |plot.value.y|
  {
    var y := Values(rows, graphWhat);
    var x: seq<real>;
    if chrono {
      x := Whens(rows);
    } else {
      x := Range(|y|);
      x := Reversed(x);
    }
    assert x == XAxis(rows, chrono);
    if damp {
      var dy := Dampen(y, average);
      if dy.Failure? {
        return Failure(dy.error);
      }
      var dx := Dampen(x, average);
      return Success(Plot(dx.value, dy.value));
    }
    return Success(Plot(x, y));
  }
}
