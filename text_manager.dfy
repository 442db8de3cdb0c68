/**
 * How the text manager of amphetype/TextManager.py picks the next lesson
 * text: the difficulty evaluator installed for the selection method (a
 * constant, or a words-per-minute estimate from the user's trigram times),
 * and the choice among a random sample or the next text in database order.
 * The database's answers are inputs: the trigram medians, the random sample
 * of enabled texts, the text table and the id of the last typed text.
 */
module TextManagement {

  import opened Wrappers

  /** A text as the queries return it: `(id, source, text)`. */
  datatype TextRow = TextRow(id: string, source: int, text: string)

  /** A row of the text table, with its `rowid` and whether it is disabled. */
  datatype TextEntry = TextEntry(rowid: int, row: TextRow, disabled: bool)

  /** What the database answers the text manager. */
  datatype Db = Db(
    trigrams: seq<(string, real)>,   // (trigram, median time) of the recent history
    sample: seq<TextRow>,            // the random sample of enabled texts
    texts: seq<TextEntry>,           // the text table
    lastTyped: Option<string>)       // text id of the newest counted result

  const WELCOME_TEXT: string := "Welcome to Amphetype!\nAmphetype is a layout-agnostic typing program that measures your speed and progress while identifying typing problems. This is just a default text since your database is empty. Go to the \"Sources\" tab and try importing a text. Several whole novels already come packaged with Amphetype! Later on you can generate highly customizable lessons directly from your statistics!\nGood luck!"

  /** `TextManager.defaultText`, used whenever no text is found. */
  const DEFAULT_ROW: TextRow := TextRow("", 0, WELCOME_TEXT)

  const ZERO_DIVISION: string := "ZeroDivisionError"

  /** The selection methods of the settings combo box. */
  const RANDOM: int := 0
  const IN_ORDER: int := 1
  const DIFFICULT: int := 2
  const EASY: int := 3

  // -----------------------------------------------------------------------
  // The trigram history.

  /**
   * `dict(rows)` as its items in iteration order: a repeated key keeps the
   * place of its first occurrence and takes the last value.
   */
  function DictItems(rows: seq<(string, real)>): (items: seq<(string, real)>)
    ensures |items| <= |rows|
    ensures forall i, j :: 0 <= i < j < |items| ==> items[i].0 != items[j].0
    ensures forall i :: 0 <= i < |items| ==> items[i].0 in Dict(rows) && Dict(rows)[items[i].0] == items[i].1
    ensures forall key :: key in Dict(rows) ==> exists i :: 0 <= i < |items| && items[i].0 == key
  {
    if rows == [] then []
    else
      var init := rows[..|rows| - 1];
      var items := DictItems(init);
      var (k, x) := rows[|rows| - 1];
      DictSnoc(rows);
      var j := KeyIndex(items, k);
      ItemsStep(items, Dict(init), k, x, j);
      if j < |items| then items[j := (k, x)] else items + [(k, x)]
  }

  /** Where key `k` first sits among the items, or `|items|` when it is absent. */
  function KeyIndex(items: seq<(string, real)>, k: string): (j: nat)
    ensures j <= |items|
    ensures j < |items| ==> items[j].0 == k
    ensures forall i :: 0 <= i < j ==> items[i].0 != k
  {
    if items == [] then 0
    else if items[0].0 == k then 0
    else 1 + KeyIndex(items[1..], k)
  }

  /** Adding a row to `dict` overwrites, or adds, the entry of its key. */
  lemma DictSnoc(rows: seq<(string, real)>)
    requires rows != []
    ensures Dict(rows) == Dict(rows[..|rows| - 1])[rows[|rows| - 1].0 := rows[|rows| - 1].1]
  {
  }

  /** The items list `items` has distinct keys and lists exactly the entries of `m`. */
  ghost predicate ItemsOf(items: seq<(string, real)>, m: map<string, real>) {
    && (forall i, j :: 0 <= i < j < |items| ==> items[i].0 != items[j].0)
    && (forall i :: 0 <= i < |items| ==> items[i].0 in m && m[items[i].0] == items[i].1)
    && (forall key :: key in m ==> exists i :: 0 <= i < |items| && items[i].0 == key)
  }

  /** One more row `(k, x)`: its key's item is overwritten in place (`j`), or appended (`j == |items|`). */
  lemma ItemsStep(items: seq<(string, real)>, m: map<string, real>, k: string, x: real, j: nat)
    requires ItemsOf(items, m)
    requires j < |items| ==> items[j].0 == k
    requires j == |items| ==> forall i :: 0 <= i < |items| ==> items[i].0 != k
    requires j <= |items|
    ensures ItemsOf(if j < |items| then items[j := (k, x)] else items + [(k, x)], m[k := x])
  {
    var r := if j < |items| then items[j := (k, x)] else items + [(k, x)];
    var m' := m[k := x];
    assert r[j] == (k, x);
    forall key | key in m'
      ensures exists i :: 0 <= i < |r| && r[i].0 == key
    {
      if key != k {
        var i :| 0 <= i < |items| && items[i].0 == key;
        assert r[i].0 == key;
      }
    }
  }

  /** `dict(rows)` as a lookup: every key of the rows, with the value of its last row. */
  function Dict(rows: seq<(string, real)>): (m: map<string, real>)
    ensures forall j :: 0 <= j < |rows| ==> rows[j].0 in m
    ensures forall key :: key in m ==> exists j :: 0 <= j < |rows| && rows[j].0 == key
    ensures forall j :: 0 <= j < |rows| && LastOf(rows, j) ==> m[rows[j].0] == rows[j].1
  {
    if rows == [] then map[]
    else
      var init := rows[..|rows| - 1];
      var m := Dict(init);
      var m' := m[rows[|rows| - 1].0 := rows[|rows| - 1].1];
      DictStepKeys(rows, init, m, m');
      DictStepCover(rows, init, m, m');
      DictStepLast(rows, init, m, m');
      m'
  }

  /** Every row's key is in `Dict` once the last row is added. */
  lemma DictStepKeys(rows: seq<(string, real)>, init: seq<(string, real)>, m: map<string, real>, m': map<string, real>)
    requires rows != [] && init == rows[..|rows| - 1] && m' == m[rows[|rows| - 1].0 := rows[|rows| - 1].1]
    requires forall j :: 0 <= j < |init| ==> init[j].0 in m
    ensures forall j :: 0 <= j < |rows| ==> rows[j].0 in m'
  {
    forall j | 0 <= j < |rows| - 1
      ensures rows[j].0 in m
    {
      assert init[j] == rows[j];
    }
  }

  /** Every key of `Dict` still comes from a row once the last row is added. */
  lemma DictStepCover(rows: seq<(string, real)>, init: seq<(string, real)>, m: map<string, real>, m': map<string, real>)
    requires rows != [] && init == rows[..|rows| - 1] && m' == m[rows[|rows| - 1].0 := rows[|rows| - 1].1]
    requires forall key :: key in m ==> exists j :: 0 <= j < |init| && init[j].0 == key
    ensures forall key :: key in m' ==> exists j :: 0 <= j < |rows| && rows[j].0 == key
  {
    var n := |rows| - 1;
    forall key | key in m'
      ensures exists j :: 0 <= j < |rows| && rows[j].0 == key
    {
      if key != rows[n].0 {
        var j :| 0 <= j < |init| && init[j].0 == key;
        assert rows[j] == init[j];
      }
    }
  }

  /** The last row with a key still gives that key's value once the last row is added. */
  lemma DictStepLast(rows: seq<(string, real)>, init: seq<(string, real)>, m: map<string, real>, m': map<string, real>)
    requires rows != [] && init == rows[..|rows| - 1] && m' == m[rows[|rows| - 1].0 := rows[|rows| - 1].1]
    requires forall j :: 0 <= j < |init| ==> init[j].0 in m
    requires forall j :: 0 <= j < |init| && LastOf(init, j) ==> m[init[j].0] == init[j].1
    ensures forall j :: 0 <= j < |rows| && LastOf(rows, j) ==> rows[j].0 in m' && m'[rows[j].0] == rows[j].1
  {
    var n := |rows| - 1;
    forall j | 0 <= j < |rows| && LastOf(rows, j)
      ensures rows[j].0 in m' && m'[rows[j].0] == rows[j].1
    {
      if j < n {
        assert rows[n].0 != rows[j].0;
        forall j' | j < j' < n
          ensures init[j'].0 != init[j].0
        {
          assert init[j'] == rows[j'] && init[j] == rows[j];
        }
        assert LastOf(init, j);
        assert init[j] == rows[j];
      }
    }
  }

  /** No later row has the key of row `j`: its value is the one `dict` keeps. */
  predicate LastOf(rows: seq<(string, real)>, j: nat)
    requires j < |rows|
  {
    forall j' :: j < j' < |rows| ==> rows[j'].0 != rows[j].0
  }

  /** `list(tri.values())`: one value per distinct trigram, the one `dict(rows)` maps it to. */
  function DictValues(rows: seq<(string, real)>): (g: seq<real>)
    ensures |g| == |DictItems(rows)|
    ensures forall i :: 0 <= i < |g| ==> DictItems(rows)[i].0 in Dict(rows) && g[i] == Dict(rows)[DictItems(rows)[i].0]
  {
    var items := DictItems(rows);
    seq(|items|, i requires 0 <= i < |items| => items[i].1)
  }

  lemma {:induction false} DictValuesEmpty(rows: seq<(string, real)>)
    ensures DictValues(rows) == [] <==> rows == []
  {
    if rows != [] {
      var items := DictItems(rows[..|rows| - 1]);
      var k := rows[|rows| - 1].0;
      if !exists j :: 0 <= j < |items| && items[j].0 == k {
        assert |DictItems(rows)| == |items| + 1;
      } else {
        var j :| 0 <= j < |items| && items[j].0 == k;
        assert |DictItems(rows)| == |items|;
      }
    }
  }

  // -----------------------------------------------------------------------
  // The expected cost of an unseen trigram.

  predicate SortedDesc(s: seq<real>) {
    forall i, j :: 0 <= i < j < |s| ==> s[i] >= s[j]
  }

  /** Puts `x` into the descending sequence `s`. */
  function InsertDesc(x: real, s: seq<real>): (r: seq<real>)
    requires SortedDesc(s)
    ensures SortedDesc(r) && |r| == |s| + 1
    ensures r[0] == if s == [] || x >= s[0] then x else s[0]
  {
    if s == [] || x >= s[0] then [x] + s
    else [s[0]] + InsertDesc(x, s[1..])
  }

  /** `g.sort(reverse=True)`. */
  function SortDesc(g: seq<real>): (s: seq<real>)
    ensures SortedDesc(s) && |s| == |g|
  {
    if g == [] then [] else InsertDesc(g[|g| - 1], SortDesc(g[..|g| - 1]))
  }

  lemma {:induction false} InsertDescPermutes(x: real, s: seq<real>)
    requires SortedDesc(s)
    ensures multiset(InsertDesc(x, s)) == multiset(s) + multiset{x}
  {
    if s != [] && x < s[0] {
      InsertDescPermutes(x, s[1..]);
      assert s == [s[0]] + s[1..];
    }
  }

  /** Sorting keeps the costs: the result is a permutation. */
  lemma {:induction false} SortDescPermutes(g: seq<real>)
    ensures multiset(SortDesc(g)) == multiset(g)
  {
    if g != [] {
      SortDescPermutes(g[..|g| - 1]);
      InsertDescPermutes(g[|g| - 1], SortDesc(g[..|g| - 1]));
      assert g == g[..|g| - 1] + [g[|g| - 1]];
    }
  }

  /** The number of costs strictly above `x`. */
  function CountAbove(s: seq<real>, x: real): nat
  {
    if s == [] then 0 else (if s[0] > x then 1 else 0) + CountAbove(s[1..], x)
  }

  /** The number of costs at or above `x`. */
  function CountAtLeast(s: seq<real>, x: real): nat
  {
    if s == [] then 0 else (if s[0] >= x then 1 else 0) + CountAtLeast(s[1..], x)
  }

  lemma {:induction false} CountsOfAppend(s: seq<real>, t: seq<real>, x: real)
    ensures CountAbove(s + t, x) == CountAbove(s, x) + CountAbove(t, x)
    ensures CountAtLeast(s + t, x) == CountAtLeast(s, x) + CountAtLeast(t, x)
  {
    if s == [] {
      assert s + t == t;
    } else {
      assert (s + t)[1..] == s[1..] + t;
      CountsOfAppend(s[1..], t, x);
    }
  }

  lemma {:induction false} CountsOfInsert(y: real, s: seq<real>, x: real)
    requires SortedDesc(s)
    ensures CountAbove(InsertDesc(y, s), x) == CountAbove(s, x) + (if y > x then 1 else 0)
    ensures CountAtLeast(InsertDesc(y, s), x) == CountAtLeast(s, x) + (if y >= x then 1 else 0)
  {
    if s == [] || y >= s[0] {
    } else {
      CountsOfInsert(y, s[1..], x);
    }
  }

  /** Sorting does not change how many costs lie above a bound. */
  lemma {:induction false} CountsOfSort(g: seq<real>, x: real)
    ensures CountAbove(SortDesc(g), x) == CountAbove(g, x)
    ensures CountAtLeast(SortDesc(g), x) == CountAtLeast(g, x)
  {
    if g != [] {
      var init, last := g[..|g| - 1], g[|g| - 1];
      CountsOfSort(init, x);
      CountsOfInsert(last, SortDesc(init), x);
      CountsOfAppend(init, [last], x);
      assert g == init + [last];
      assert [last][1..] == [];
      assert CountAbove([last], x) == if last > x then 1 else 0;
      assert CountAtLeast([last], x) == if last >= x then 1 else 0;
    }
  }

  /** In a descending sequence, what lies above `s[k]` comes before `k`; `s[..k+1]` is at or above it. */
  lemma {:induction false} CountsInSorted(s: seq<real>, k: nat)
    requires SortedDesc(s) && k < |s|
    ensures CountAbove(s, s[k]) <= k
    ensures CountAtLeast(s, s[k]) >= k + 1
  {
    CountsBelowPrefix(s, k, s[k]);
  }

  lemma {:induction false} CountsBelowPrefix(s: seq<real>, k: nat, x: real)
    requires SortedDesc(s) && k < |s| && s[k] == x
    ensures CountAbove(s, x) <= k
    ensures CountAtLeast(s, x) >= k + 1
  {
    if k > 0 {
      assert SortedDesc(s[1..]) by {
        forall i, j | 0 <= i < j < |s[1..]| ensures s[1..][i] >= s[1..][j] {
          assert s[1..][i] == s[i + 1] && s[1..][j] == s[j + 1];
        }
      }
      CountsBelowPrefix(s[1..], k - 1, x);
    } else {
      NoneAboveFirst(s, x);
    }
  }

  lemma {:induction false} NoneAboveFirst(s: seq<real>, x: real)
    requires SortedDesc(s) && s != [] && s[0] <= x
    ensures CountAbove(s, x) == 0
  {
    if |s| > 1 {
      assert SortedDesc(s[1..]) by {
        forall i, j | 0 <= i < j < |s[1..]| ensures s[1..][i] >= s[1..][j] {
          assert s[1..][i] == s[i + 1] && s[1..][j] == s[j + 1];
        }
      }
      NoneAboveFirst(s[1..], x);
    }
  }

  /** `expect = g[len(g) // 4]` after sorting `g` in descending order. */
  function Expect(g: seq<real>): (expected: real)
    requires g != []
    ensures expected in g
  {
    SortDescPermutes(g);
    assert SortDesc(g)[|g| / 4] in multiset(SortDesc(g));
    SortDesc(g)[|g| / 4]
  }

  /**
   * The expected cost is one of the costs; at most a quarter of them (rounded
   * down) lie strictly above it, and more than a quarter lie at or above it.
   */
  lemma ExpectIsUpperQuartile(g: seq<real>)
    requires g != []
    ensures Expect(g) in g
    ensures CountAbove(g, Expect(g)) <= |g| / 4
    ensures CountAtLeast(g, Expect(g)) >= |g| / 4 + 1
  {
    var s := SortDesc(g);
    SortDescPermutes(g);
    assert s[|g| / 4] in multiset(s);
    CountsInSorted(s, |g| / 4);
    CountsOfSort(g, Expect(g));
  }

  // -----------------------------------------------------------------------
  // The difficulty evaluators.

  /** `diff_eval`: `lambda x: 1`, or the trigram estimate `_func` over the history and the expected cost. */
  datatype Evaluator = Constant | Trigram(tri: map<string, real>, expected: real)

  /** The cost of one trigram: its median time, or the expected cost if unseen. */
  function WindowCost(tri: map<string, real>, expected: real, t: string): real
  {
    if t in tri then tri[t] else expected
  }

  /** `text[i:i+3]`, the trigram window at `i`. */
  function Window(text: string, i: nat): string
    requires i + 3 <= |text|
  {
    text[i..i + 3]
  }

  /** The summed cost of the first `n` trigram windows of `text`. */
  function CostSum(tri: map<string, real>, expected: real, text: string, n: nat): real
    requires n == 0 || n + 2 <= |text|
  {
    if n == 0 then 0.0 else CostSum(tri, expected, text, n - 1) + WindowCost(tri, expected, Window(text, n - 1))
  }

  /**
   * The estimate of `_func`: 12 over the mean window cost.  Python's float
   * division raises on a zero divisor, which happens for a text of fewer than
   * three characters (no windows) and for a zero cost sum.
   */
  function PredictedWpm(tri: map<string, real>, expected: real, text: string): (r: Result<real>)
    ensures r.Failure? ==> r.error == ZERO_DIVISION
    ensures r.Success? ==> |text| >= 3 && r.value != 0.0
  {
    if |text| < 3 then Failure(ZERO_DIVISION)
    else
      var n := |text| - 2;
      var s := CostSum(tri, expected, text, n);
      if s == 0.0 then Failure(ZERO_DIVISION) else Success(12.0 / (s / n as real))
  }

  /** `diff_eval(v)`. */
  function Eval(e: Evaluator, v: TextRow): (r: Result<real>)
    ensures r.Failure? ==> e.Trigram? && r.error == ZERO_DIVISION
  {
    match e
    case Constant => Success(1.0)
    case Trigram(tri, expected) => PredictedWpm(tri, expected, v.text)
  }

  lemma {:induction false} CostSumUniform(tri: map<string, real>, expected: real, text: string, n: nat, c: real)
    requires n == 0 || n + 2 <= |text|
    requires forall i :: 0 <= i < n ==> WindowCost(tri, expected, Window(text, i)) == c
    ensures CostSum(tri, expected, text, n) == n as real * c
  {
    if n > 0 {
      CostSumUniform(tri, expected, text, n - 1, c);
      assert WindowCost(tri, expected, Window(text, n - 1)) == c;
      assert n as real * c == (n - 1) as real * c + c;
    }
  }

  /** The estimate fails exactly for a text shorter than three characters or a zero cost sum. */
  lemma EstimateFails(tri: map<string, real>, expected: real, text: string)
    ensures PredictedWpm(tri, expected, text).Failure? <==>
      |text| < 3 || CostSum(tri, expected, text, |text| - 2) == 0.0
  {
  }

  /** When every window costs the same `c`, the estimate is `12 / c` (or fails for `c == 0`). */
  lemma UniformCostEstimate(tri: map<string, real>, expected: real, text: string, c: real)
    requires |text| >= 3
    requires forall i :: 0 <= i < |text| - 2 ==> WindowCost(tri, expected, Window(text, i)) == c
    ensures c != 0.0 ==> PredictedWpm(tri, expected, text) == Success(12.0 / c)
    ensures c == 0.0 ==> PredictedWpm(tri, expected, text) == Failure(ZERO_DIVISION)
  {
    var n := |text| - 2;
    var m := n as real;
    CostSumUniform(tri, expected, text, n, c);
    MeanOfUniform(m, c);
    var sum := CostSum(tri, expected, text, n);
    assert sum == m * c;
    assert PredictedWpm(tri, expected, text) ==
      if sum == 0.0 then Failure(ZERO_DIVISION) else Success(12.0 / (sum / m));
    assert sum / m == c;
  }

  lemma MeanOfUniform(n: real, c: real)
    requires n > 0.0
    ensures (n * c) / n == c
    ensures n * c == 0.0 <==> c == 0.0
  {
    if c != 0.0 {
      assert (n * c) / n == c;
    }
  }

  /** A text none of whose trigrams has a history is estimated at `12 / expected`. */
  lemma AllUnseenEstimate(tri: map<string, real>, expected: real, text: string)
    requires |text| >= 3 && expected != 0.0
    requires forall i :: 0 <= i < |text| - 2 ==> Window(text, i) !in tri
    ensures PredictedWpm(tri, expected, text) == Success(12.0 / expected)
  {
    UniformCostEstimate(tri, expected, text, expected);
  }

  /** Window by window, cheaper costs add up to a cheaper, and positive costs to a positive, sum. */
  lemma {:induction false} CostSumMonotone(tri: map<string, real>, expected: real, tri': map<string, real>, expected': real, text: string, n: nat)
    requires n == 0 || n + 2 <= |text|
    requires forall i :: 0 <= i < n ==> 0.0 < WindowCost(tri, expected, Window(text, i)) <= WindowCost(tri', expected', Window(text, i))
    ensures CostSum(tri, expected, text, n) <= CostSum(tri', expected', text, n)
    ensures n > 0 ==> CostSum(tri, expected, text, n) > 0.0
  {
    if n > 0 {
      CostSumMonotone(tri, expected, tri', expected', text, n - 1);
    }
  }

  /**
   * A text whose trigrams all take longer under one history than under
   * another is estimated as slower to type: the estimate falls as the
   * costs rise, and neither estimate raises.
   */
  lemma EstimateFallsAsCostsRise(tri: map<string, real>, expected: real, tri': map<string, real>, expected': real, text: string)
    requires |text| >= 3
    requires forall i :: 0 <= i < |text| - 2 ==> 0.0 < WindowCost(tri, expected, Window(text, i)) <= WindowCost(tri', expected', Window(text, i))
    ensures PredictedWpm(tri, expected, text).Success? && PredictedWpm(tri', expected', text).Success?
    ensures PredictedWpm(tri', expected', text).value <= PredictedWpm(tri, expected, text).value
  {
    var n := |text| - 2;
    CostSumMonotone(tri, expected, tri', expected', text, n);
    var a := CostSum(tri, expected, text, n) / n as real;
    var b := CostSum(tri', expected', text, n) / n as real;
    assert 0.0 < a <= b;
    ReciprocalAntitone(a, b);
  }

  lemma ReciprocalAntitone(a: real, b: real)
    requires 0.0 < a <= b
    ensures 12.0 / b <= 12.0 / a
  {
    assert 12.0 / a - 12.0 / b == 12.0 * (b - a) / (a * b);
  }

  /** `_func(v)`: the loop over the trigram windows of the text. */
  method Estimate(e: Evaluator, v: TextRow) returns (r: Result<real>)
    ensures r == Eval(e, v)
  {
    if e.Constant? {
      return Success(1.0);
    }
    var text := v.text;
    var n := |text| - 2;
    var s := 0.0;
    var i := 0;
    while i < n
      invariant 0 <= i && (n > 0 ==> i <= n) && (n <= 0 ==> i == 0)
      invariant s == CostSum(e.tri, e.expected, text, i)
    {
      var t := Window(text, i);
      if t in e.tri {
        s := s + e.tri[t];
      } else {
        s := s + e.expected;
      }
      i := i + 1;
    }
    if n == 0 {
      return Failure(ZERO_DIVISION);
    }
    // With no window at all the sum is 0.0, so a negative count gives a zero mean.
    var avg := s / n as real;
    if avg == 0.0 {
      return Failure(ZERO_DIVISION);
    }
    return Success(12.0 / avg);
  }

  /** The evaluator `setSelect(v)` installs; `None` where it returns before installing one. */
  function SelectEvaluator(v: int, trigrams: seq<(string, real)>): (e: Option<Evaluator>)
    ensures e.Some? && e.value.Trigram? ==> e.value.tri == Dict(trigrams) && e.value.expected in DictValues(trigrams)
  {
    if v == RANDOM || v == IN_ORDER then Some(Constant)
    else
      var g := DictValues(trigrams);
      if |g| == 0 then None else Some(Trigram(Dict(trigrams), Expect(g)))
  }

  /** Methods 0 and 1 use the constant evaluator; the others need a trigram history. */
  lemma SelectEvaluatorCases(v: int, trigrams: seq<(string, real)>)
    ensures v == RANDOM || v == IN_ORDER ==> SelectEvaluator(v, trigrams) == Some(Constant)
    ensures v != RANDOM && v != IN_ORDER ==> (SelectEvaluator(v, trigrams).None? <==> trigrams == [])
    ensures SelectEvaluator(v, trigrams).Some? && SelectEvaluator(v, trigrams).value.Trigram? ==>
      var g := DictValues(trigrams);
      var expected := SelectEvaluator(v, trigrams).value.expected;
      expected in g && CountAbove(g, expected) <= |g| / 4
  {
    DictValuesEmpty(trigrams);
    if v != RANDOM && v != IN_ORDER && trigrams != [] {
      ExpectIsUpperQuartile(DictValues(trigrams));
    }
  }

  // -----------------------------------------------------------------------
  // Choosing the next text.

  /** The evaluator's keys for the sample, or the first exception raised computing one. */
  function Keys(e: Evaluator, v: seq<TextRow>): (r: Result<seq<real>>)
    ensures r.Success? ==> |r.value| == |v| && forall i :: 0 <= i < |v| ==> Eval(e, v[i]) == Success(r.value[i])
    ensures r.Failure? ==> exists i :: 0 <= i < |v| && Eval(e, v[i]).Failure?
    ensures r.Failure? ==> e.Trigram? && r.error == ZERO_DIVISION
  {
    if v == [] then Success([])
    else
      match Eval(e, v[0])
      case Failure(err) => Failure(err)
      case Success(k) =>
        match Keys(e, v[1..])
        case Failure(err) => Failure(err)
        case Success(ks) => Success([k] + ks)
  }

  /** `min`'s choice: the first position of a least key. */
  function FirstMin(keys: seq<real>): (i: nat)
    requires keys != []
    ensures i < |keys|
    ensures forall j :: 0 <= j < |keys| ==> keys[i] <= keys[j]
    ensures forall j :: 0 <= j < i ==> keys[j] > keys[i]
  {
    if |keys| == 1 then 0
    else
      var j := FirstMin(keys[..|keys| - 1]);
      if keys[|keys| - 1] < keys[j] then |keys| - 1 else j
  }

  /** `max`'s choice: the first position of a greatest key. */
  function FirstMax(keys: seq<real>): (i: nat)
    requires keys != []
    ensures i < |keys|
    ensures forall j :: 0 <= j < |keys| ==> keys[i] >= keys[j]
    ensures forall j :: 0 <= j < i ==> keys[j] < keys[i]
  {
    if |keys| == 1 then 0
    else
      var j := FirstMax(keys[..|keys| - 1]);
      if keys[|keys| - 1] > keys[j] then |keys| - 1 else j
  }

  /** The choice among the random sample; `None` for an empty sample. */
  function FromSample(e: Evaluator, selection: int, v: seq<TextRow>): (r: Result<Option<TextRow>>)
    ensures r.Success? ==> (r.value.None? <==> v == [])
    ensures r.Success? && r.value.Some? ==> r.value.value in v
    ensures r.Failure? ==> (selection == DIFFICULT || selection == EASY) && e.Trigram? && r.error == ZERO_DIVISION
  {
    if v == [] then Success(None)
    else if selection == DIFFICULT then
      match Keys(e, v)
      case Failure(err) => Failure(err)
      case Success(keys) => Success(Some(v[FirstMin(keys)]))
    else if selection == EASY then
      match Keys(e, v)
      case Failure(err) => Failure(err)
      case Success(keys) => Success(Some(v[FirstMax(keys)]))
    else Success(Some(v[0]))
  }

  /** `select rowid from text where id = ?`, falling back to `(0,)`. */
  function RowidOf(texts: seq<TextEntry>, id: string): (rowid: int)
    ensures (forall i :: 0 <= i < |texts| ==> texts[i].row.id != id) ==> rowid == 0
    ensures forall i :: 0 <= i < |texts| && texts[i].row.id == id && NoEarlierId(texts, i, id) ==> rowid == texts[i].rowid
  {
    if texts == [] then 0
    else if texts[0].row.id == id then texts[0].rowid
    else
      assert forall i :: 1 <= i < |texts| ==> texts[i] == texts[1..][i - 1];
      assert forall i :: 1 <= i < |texts| && NoEarlierId(texts, i, id) ==> NoEarlierId(texts[1..], i - 1, id);
      RowidOf(texts[1..], id)
  }

  /** No text before position `i` has the id: position `i` holds its first match. */
  predicate NoEarlierId(texts: seq<TextEntry>, i: nat, id: string)
    requires i <= |texts|
  {
    forall j :: 0 <= j < i ==> texts[j].row.id != id
  }

  /** The rowid after which the in-order mode looks: that of the last typed text, or 0. */
  function LastRowid(db: Db): int
  {
    if db.lastTyped.Some? then RowidOf(db.texts, db.lastTyped.value) else 0
  }

  predicate Follows(t: TextEntry, lastid: int) {
    !t.disabled && t.rowid > lastid
  }

  /** `... where rowid > ? and disabled is null order by rowid asc limit 1`. */
  function NextInOrder(texts: seq<TextEntry>, lastid: int): (r: Option<TextEntry>)
    ensures r.None? <==> forall i :: 0 <= i < |texts| ==> !Follows(texts[i], lastid)
    ensures r.Some? ==> r.value in texts && Follows(r.value, lastid)
    ensures r.Some? ==> forall i :: 0 <= i < |texts| && Follows(texts[i], lastid) ==> r.value.rowid <= texts[i].rowid
  {
    if texts == [] then None
    else
      var rest := NextInOrder(texts[1..], lastid);
      assert forall i :: 1 <= i < |texts| ==> texts[i] == texts[1..][i - 1];
      if !Follows(texts[0], lastid) then rest
      else if rest.None? || texts[0].rowid <= rest.value.rowid then Some(texts[0])
      else rest
  }

  /** `nextText()` under selection method `method`: the text it emits, or the exception it raises. */
  function NextTextChoice(e: Evaluator, selection: int, db: Db): (r: Result<TextRow>)
    ensures selection != IN_ORDER && r.Success? ==> r.value == DEFAULT_ROW || r.value in db.sample
    ensures selection == IN_ORDER ==> r.Success? && (r.value == DEFAULT_ROW || exists t :: t in db.texts && t.row == r.value)
    ensures r.Failure? ==> (selection == DIFFICULT || selection == EASY) && r.error == ZERO_DIVISION
  {
    if selection != IN_ORDER then
      match FromSample(e, selection, db.sample)
      case Failure(err) => Failure(err)
      case Success(None) => Success(DEFAULT_ROW)
      case Success(Some(t)) => Success(t)
    else
      match NextInOrder(db.texts, LastRowid(db))
      case None => Success(DEFAULT_ROW)
      case Some(t) => Success(t.row)
  }

  /** Outside the in-order mode an empty sample gives the default text, and the random mode the first text. */
  lemma SampleChoice(e: Evaluator, selection: int, db: Db)
    requires selection != IN_ORDER
    ensures db.sample == [] ==> NextTextChoice(e, selection, db) == Success(DEFAULT_ROW)
    ensures db.sample != [] && selection != DIFFICULT && selection != EASY ==>
      NextTextChoice(e, selection, db) == Success(db.sample[0])
  {
  }

  /**
   * The difficult mode takes the first text of least estimate; it raises
   * exactly when estimating some text of the sample raises.
   */
  lemma DifficultChoice(e: Evaluator, db: Db)
    requires db.sample != []
    ensures NextTextChoice(e, DIFFICULT, db).Failure? ==> exists j :: 0 <= j < |db.sample| && Eval(e, db.sample[j]).Failure?
    ensures NextTextChoice(e, DIFFICULT, db).Success? ==>
      exists k :: 0 <= k < |db.sample| && NextTextChoice(e, DIFFICULT, db).value == db.sample[k] &&
        (forall j :: 0 <= j < |db.sample| ==> Eval(e, db.sample[j]).Success? && Eval(e, db.sample[k]).value <= Eval(e, db.sample[j]).value) &&
        (forall j :: 0 <= j < k ==> Eval(e, db.sample[j]).value > Eval(e, db.sample[k]).value)
  {
    if Keys(e, db.sample).Success? {
      var k := FirstMin(Keys(e, db.sample).value);
      assert FromSample(e, DIFFICULT, db.sample) == Success(Some(db.sample[k]));
      assert NextTextChoice(e, DIFFICULT, db).value == db.sample[k];
    }
  }

  /**
   * The easy mode takes the first text of greatest estimate; it raises
   * exactly when estimating some text of the sample raises.
   */
  lemma EasyChoice(e: Evaluator, db: Db)
    requires db.sample != []
    ensures NextTextChoice(e, EASY, db).Failure? ==> exists j :: 0 <= j < |db.sample| && Eval(e, db.sample[j]).Failure?
    ensures NextTextChoice(e, EASY, db).Success? ==>
      exists k :: 0 <= k < |db.sample| && NextTextChoice(e, EASY, db).value == db.sample[k] &&
        (forall j :: 0 <= j < |db.sample| ==> Eval(e, db.sample[j]).Success? && Eval(e, db.sample[k]).value >= Eval(e, db.sample[j]).value) &&
        (forall j :: 0 <= j < k ==> Eval(e, db.sample[j]).value < Eval(e, db.sample[k]).value)
  {
    if Keys(e, db.sample).Success? {
      var k := FirstMax(Keys(e, db.sample).value);
      assert FromSample(e, EASY, db.sample) == Success(Some(db.sample[k]));
      assert NextTextChoice(e, EASY, db).value == db.sample[k];
    }
  }

  /**
   * The in-order mode emits the enabled text with the least rowid above that
   * of the last typed text (0 if none), and the default text when there is
   * no such text: it does not wrap around.
   */
  lemma InOrderChoice(e: Evaluator, db: Db)
    ensures var t := NextTextChoice(e, IN_ORDER, db);
      && t.Success?
      && ((forall i :: 0 <= i < |db.texts| ==> !Follows(db.texts[i], LastRowid(db))) ==> t.value == DEFAULT_ROW)
      && (forall i :: 0 <= i < |db.texts| && Follows(db.texts[i], LastRowid(db)) ==>
            exists k :: 0 <= k < |db.texts| && Follows(db.texts[k], LastRowid(db)) && t.value == db.texts[k].row &&
              db.texts[k].rowid <= db.texts[i].rowid)
    ensures db.lastTyped.None? ==> LastRowid(db) == 0
  {
    var r := NextInOrder(db.texts, LastRowid(db));
    if r.Some? {
      var k :| 0 <= k < |db.texts| && db.texts[k] == r.value;
    }
  }

  /** The widget: its evaluator and the texts it has emitted with `setText`. */
  class TextManager {
    var diffEval: Evaluator
    var emitted: seq<TextRow>

    /** `__init__`: the constant evaluator, then `setSelect` with the configured method. */
    constructor (selectMethod: int, db: Db)
      ensures SelectEvaluator(selectMethod, db.trigrams).None? ==> diffEval == Constant && emitted == []
      ensures SelectEvaluator(selectMethod, db.trigrams).Some? ==>
        diffEval == SelectEvaluator(selectMethod, db.trigrams).value &&
        emitted == Emitted([], NextTextChoice(diffEval, selectMethod, db))
    {
      diffEval := Constant;
      emitted := [];
      new;
      SetSelect(selectMethod, db);
    }

    /** `nextText()`, under the configured method `selectMethod`. */
    method NextText(selectMethod: int, db: Db) returns (r: Result<TextRow>)
      modifies this`emitted
      ensures r == NextTextChoice(diffEval, selectMethod, db)
      ensures emitted == Emitted(old(emitted), r)
    {
      var v: Option<TextRow>;
      if selectMethod != IN_ORDER {
        var chosen := FromSample(diffEval, selectMethod, db.sample);
        if chosen.Failure? {
          return Failure(chosen.error);
        }
        v := chosen.value;
      } else {
        var next := NextInOrder(db.texts, LastRowid(db));
        v := if next.Some? then Some(next.value.row) else None;
      }
      var t := if v.None? then DEFAULT_ROW else v.value;
      emitted := emitted + [t];
      return Success(t);
    }

    /**
     * `setSelect(v)`, where the setting now holds `v`: installs the
     * evaluator for the method and picks a new text, or returns early
     * (keeping the evaluator) when a trigram method finds no history.
     */
    method SetSelect(v: int, db: Db)
      modifies this
      ensures SelectEvaluator(v, db.trigrams).None? ==> diffEval == old(diffEval) && emitted == old(emitted)
      ensures SelectEvaluator(v, db.trigrams).Some? ==>
        diffEval == SelectEvaluator(v, db.trigrams).value &&
        emitted == Emitted(old(emitted), NextTextChoice(diffEval, v, db))
    {
      if v == RANDOM || v == IN_ORDER {
        diffEval := Constant;
        var chosen := NextText(v, db);
        return;
      }
      var g := DictValues(db.trigrams);
      if |g| == 0 {
        return;
      }
      g := SortDesc(g);
      var expected := g[|g| / 4];
      diffEval := Trigram(Dict(db.trigrams), expected);
      var chosen := NextText(v, db);
    }
  }

  /** The emitted texts after one `nextText`: one more on success, the same on an exception. */
  function Emitted(before: seq<TextRow>, r: Result<TextRow>): seq<TextRow>
  {
    if r.Success? then before + [r.value] else before
  }
}
