/**
 * The tree model shared by the text and result lists (amphetype/QtUtil.py).
 * Rows are lists of cells.  The children of a row are fetched on demand and
 * kept as one extra cell appended to the row, at position `cols + hidden`.
 * A Qt model index is a datatype here, and its internal pointer is the path
 * of row numbers from the root to the list that holds the row.
 */
module QtUtil {

  import opened Wrappers

  /** A value in a row: SQL NULL, a number, a string, or the row's child list. */
  datatype Cell = Null | Num(n: real) | Str(s: string) | Sub(rows: seq<seq<Cell>>)

  type Row = seq<Cell>

  /** Python's `<` on strings: code point by code point, a proper prefix first. */
  predicate StrLess(a: string, b: string)
  {
    if a == [] then b != []
    else if b == [] then false
    else if a[0] != b[0] then a[0] < b[0]
    else StrLess(a[1..], b[1..])
  }

  /** Python's `<` on two non-None cells; None when it raises TypeError. */
  function Less(a: Cell, b: Cell): Option<bool>
  {
    match (a, b)
    case (Num(x), Num(y)) => Some(x < y)
    case (Str(x), Str(y)) => Some(StrLess(x, y))
    case _ => None
  }

  /**
   * `maybe_cmp_func(f)(a, b)` on the keys `f(a)` and `f(b)`: equal keys give 0,
   * a None key comes first, otherwise `<` decides.  None stands for the
   * TypeError of comparing a number with a string.
   */
  function MaybeCmp(a: Cell, b: Cell): (c: Option<int>)
    ensures c == Some(0) <==> a == b
  {
    if a == b then Some(0)
    else if a.Null? then Some(-1)
    else if b.Null? then Some(1)
    else match Less(a, b)
      case None => None
      case Some(lt) => Some(if lt then -1 else 1)
  }

  lemma {:induction false} StrLessTotal(a: string, b: string)
    ensures !StrLess(a, a)
    ensures a != b ==> (StrLess(a, b) <==> !StrLess(b, a))
  {
    if a != [] {
      StrLessTotal(a[1..], a[1..]);
      if b != [] && a[0] == b[0] {
        StrLessTotal(a[1..], b[1..]);
        if a[1..] == b[1..] {
          assert a == [a[0]] + a[1..] && b == [b[0]] + b[1..];
        }
      }
    }
  }

  lemma {:induction false} StrLessTransitive(a: string, b: string, c: string)
    requires StrLess(a, b) && StrLess(b, c)
    ensures StrLess(a, c)
  {
    if a != [] && b != [] && c != [] && a[0] == b[0] && b[0] == c[0] {
      StrLessTransitive(a[1..], b[1..], c[1..]);
    }
  }

  /** The comparator is a key comparison: every result is -1, 0 or 1, and 0 exactly for equal keys. */
  lemma MaybeCmpSign(a: Cell, b: Cell)
    ensures MaybeCmp(a, b).Some? ==> MaybeCmp(a, b).value in {-1, 0, 1}
    ensures MaybeCmp(a, b) == Some(0) <==> a == b
    ensures a.Null? != b.Null? ==> MaybeCmp(a, b) == Some(if a.Null? then -1 else 1)
    ensures MaybeCmp(a, b).None? <==> a != b && !a.Null? && !b.Null? && !(a.Num? && b.Num?) && !(a.Str? && b.Str?)
  {
    if a.Str? && b.Str? {
      StrLessTotal(a.s, b.s);
    }
  }

  /** Swapping the keys negates the result, and comparability is symmetric. */
  lemma MaybeCmpAntisymmetric(a: Cell, b: Cell)
    ensures MaybeCmp(a, b).Some? <==> MaybeCmp(b, a).Some?
    ensures MaybeCmp(a, b).Some? ==> MaybeCmp(b, a).value == -MaybeCmp(a, b).value
  {
    if a.Str? && b.Str? {
      StrLessTotal(a.s, b.s);
    }
  }

  /** On keys that compare, "not after" is transitive, so the comparator is a total preorder. */
  lemma MaybeCmpTransitive(a: Cell, b: Cell, c: Cell)
    requires MaybeCmp(a, b).Some? && MaybeCmp(b, c).Some? && MaybeCmp(a, c).Some?
    requires MaybeCmp(a, b).value <= 0 && MaybeCmp(b, c).value <= 0
    ensures MaybeCmp(a, c).value <= 0
  {
    if a != b && b != c && !a.Null? && !b.Null? && !c.Null? && a.Str? {
      StrLessTransitive(a.s, b.s, c.s);
    }
  }

  /** `a` may stand before `b` in the sorted list: not after it, or not before it when descending. */
  predicate Before(a: Cell, b: Cell, descending: bool)
  {
    MaybeCmp(a, b).Some? && if descending then MaybeCmp(a, b).value >= 0 else MaybeCmp(a, b).value <= 0
  }

  /** Both rows have a key at `k`, and the keys compare without raising. */
  predicate Comparable(a: Row, b: Row, k: nat)
  {
    k < |a| && k < |b| && MaybeCmp(a[k], b[k]).Some?
  }

  predicate InOrder(a: Row, b: Row, k: nat, descending: bool)
  {
    k < |a| && k < |b| && Before(a[k], b[k], descending)
  }

  predicate Sorted(t: seq<Row>, k: nat, descending: bool)
  {
    forall i :: 0 < i < |t| ==> InOrder(t[i - 1], t[i], k, descending)
  }

  /** Every two rows have keys at `k` that compare without raising. */
  predicate Sortable(t: seq<Row>, k: nat)
  {
    forall a, b :: a in t && b in t ==> Comparable(a, b, k)
  }

  /** Puts `x` before the first row it may precede, so a row goes before the equal rows that came after it. */
  function InsertRow(x: Row, t: seq<Row>, k: nat, descending: bool): (r: seq<Row>)
    requires k < |x| && Sortable(t, k) && Sorted(t, k, descending)
    requires forall b :: b in t ==> Comparable(x, b, k)
    ensures Sorted(r, k, descending)
    ensures |r| == |t| + 1
    ensures r[0] == x || (t != [] && r[0] == t[0])
    ensures forall a :: a in r ==> a == x || a in t
  {
    if t == [] then [x]
    else
      assert t[0] in t;
      if Before(x[k], t[0][k], descending) then [x] + t
      else
        MaybeCmpAntisymmetric(x[k], t[0][k]);
        assert Comparable(x, t[0], k);
        assert InOrder(t[0], x, k, descending);
        var rest := InsertRow(x, t[1..], k, descending);
        assert |t| > 1 ==> InOrder(t[0], t[1], k, descending);
        [t[0]] + rest
  }

  lemma {:induction false} InsertRowPermutes(x: Row, t: seq<Row>, k: nat, descending: bool)
    requires k < |x| && Sortable(t, k) && Sorted(t, k, descending)
    requires forall b :: b in t ==> Comparable(x, b, k)
    ensures multiset(InsertRow(x, t, k, descending)) == multiset(t) + multiset{x}
  {
    if t != [] && (assert t[0] in t; !Before(x[k], t[0][k], descending)) {
      InsertRowPermutes(x, t[1..], k, descending);
      assert t == [t[0]] + t[1..];
    }
  }

  /** The list after `rows.sort(key=cmp_to_key(maybe_cmp_func(...)), reverse=descending)`. */
  function SortRows(t: seq<Row>, k: nat, descending: bool): (r: seq<Row>)
    requires Sortable(t, k)
    ensures Sorted(r, k, descending)
    ensures |r| == |t|
    ensures forall a :: a in r ==> a in t
  {
    if t == [] then []
    else
      var rest := SortRows(t[1..], k, descending);
      assert t[0] in t;
      InsertRow(t[0], rest, k, descending)
  }

  /** Sorting only reorders the rows. */
  lemma {:induction false} SortRowsPermutes(t: seq<Row>, k: nat, descending: bool)
    requires Sortable(t, k)
    ensures multiset(SortRows(t, k, descending)) == multiset(t)
  {
    if t != [] {
      SortableSubset(t, t[1..], k);
      SortRowsPermutes(t[1..], k, descending);
      var rest := SortRows(t[1..], k, descending);
      SortableSubset(t, rest, k);
      assert t[0] in t;
      InsertRowPermutes(t[0], rest, k, descending);
      assert t == [t[0]] + t[1..];
    }
  }

  lemma SortableSubset(t: seq<Row>, u: seq<Row>, k: nat)
    requires Sortable(t, k) && forall a :: a in u ==> a in t
    ensures Sortable(u, k)
    ensures t != [] ==> forall b :: b in u ==> Comparable(t[0], b, k)
  {
    if t != [] {
      assert t[0] in t;
    }
  }

  /** A Qt model index: invalid (the root), or a row and column with the path of its list. */
  datatype ModelIndex = Invalid | Index(row: nat, column: nat, path: seq<nat>)

  const DISPLAY_ROLE: int := 0
  const USER_ROLE: int := 0x0100

  /** What `data` hands to the view; the column's format is not modelled. */
  datatype Variant = Empty | Shown(column: nat, value: Cell) | WholeRow(row: Row)

  /** `indexList(index)`: the path that names the list of `index`'s children. */
  function IndexList(index: ModelIndex): (p: seq<nat>)
    ensures |p| == Depth(index)
    ensures index.Index? ==> p[..|index.path|] == index.path && p[|index.path|] == index.row
  {
    if index.Invalid? then [] else index.path + [index.row]
  }

  /** `parent(index)`: the index of the row that holds `index`'s list. */
  function Parent(index: ModelIndex): (r: ModelIndex)
    ensures Depth(r) == if index.Invalid? then 0 else Depth(index) - 1
    ensures r.Index? ==> r.column == 0
  {
    if index.Invalid? || index.path == [] then Invalid
    else Index(index.path[|index.path| - 1], 0, index.path[..|index.path| - 1])
  }

  function Depth(index: ModelIndex): nat
  {
    if index.Invalid? then 0 else |index.path| + 1
  }

  /** The child list of `index`'s parent is the list `index` lives in. */
  lemma IndexListOfParent(index: ModelIndex)
    requires index.Index?
    ensures IndexList(Parent(index)) == index.path
    ensures Depth(Parent(index)) < Depth(index)
  {
    if index.path != [] {
      assert index.path == index.path[..|index.path| - 1] + [index.path[|index.path| - 1]];
    }
  }

  /** The parent of a child of `p` is `p` itself, taken at column 0. */
  lemma ParentOfChild(p: ModelIndex, row: nat, column: nat)
    ensures Parent(Index(row, column, IndexList(p))) == if p.Invalid? then Invalid else Index(p.row, 0, p.path)
  {
    if p.Index? {
      assert (p.path + [p.row])[..|p.path|] == p.path;
    }
  }

  /** The list at `path`, following child lists that are already populated. */
  function ListAt(t: seq<Row>, path: seq<nat>, k: nat): Option<seq<Row>>
    decreases |path|
  {
    if path == [] then Some(t)
    else if path[0] < |t| && k < |t[path[0]]| && t[path[0]][k].Sub? then ListAt(t[path[0]][k].rows, path[1..], k)
    else None
  }

  /** Replaces the list at `path`, writing it back through every row on the way. */
  function SetListAt(t: seq<Row>, path: seq<nat>, k: nat, list: seq<Row>): (r: seq<Row>)
    requires ListAt(t, path, k).Some?
    ensures ListAt(r, path, k) == Some(list)
    decreases |path|
  {
    if path == [] then list
    else
      var row := t[path[0]];
      var r := t[path[0] := row[k := Sub(SetListAt(row[k].rows, path[1..], k, list))]];
      assert r[path[0]][k].rows == SetListAt(row[k].rows, path[1..], k, list);
      r
  }

  /** Writing the list at `path` changes only row `path[0]`, and of that row only its cell `k`. */
  lemma SetListAtFrame(t: seq<Row>, path: seq<nat>, k: nat, list: seq<Row>)
    requires ListAt(t, path, k).Some? && path != []
    ensures var r := SetListAt(t, path, k, list);
      && |r| == |t| && (forall i :: 0 <= i < |t| && i != path[0] ==> r[i] == t[i])
      && |r[path[0]]| == |t[path[0]]|
      && (forall c :: 0 <= c < |t[path[0]]| && c != k ==> r[path[0]][c] == t[path[0]][c])
  {
  }

  /** Neither path extends the other: they part at some step. */
  predicate Diverges(q: seq<nat>, p: seq<nat>)
  {
    q != [] && p != [] && (q[0] != p[0] || Diverges(q[1..], p[1..]))
  }

  /** Writing the list at `path` leaves every list at a path that parts from `path` as it was. */
  lemma {:induction false} SetListAtElsewhere(t: seq<Row>, path: seq<nat>, k: nat, list: seq<Row>, q: seq<nat>)
    requires ListAt(t, path, k).Some? && Diverges(q, path)
    ensures ListAt(SetListAt(t, path, k, list), q, k) == ListAt(t, q, k)
    decreases |path|
  {
    if q[0] == path[0] {
      SetListAtElsewhere(t[path[0]][k].rows, path[1..], k, list, q[1..]);
    }
  }

  /** One step further down: the child list of row `i` of the list at `q`. */
  lemma {:induction false} ListAtSnoc(t: seq<Row>, q: seq<nat>, i: nat, k: nat)
    ensures ListAt(t, q + [i], k) ==
      match ListAt(t, q, k)
      case None => None
      case Some(u) => if i < |u| && k < |u[i]| && u[i][k].Sub? then Some(u[i][k].rows) else None
    decreases |q|
  {
    if q != [] {
      assert (q + [i])[0] == q[0] && (q + [i])[1..] == q[1..] + [i];
      if q[0] < |t| && k < |t[q[0]]| && t[q[0]][k].Sub? {
        ListAtSnoc(t[q[0]][k].rows, q[1..], i, k);
      }
    }
  }

  /**
   * `findList(parent)` on values: the rows after the call and the list found
   * (None where the source raises).  The root is populated while `rows` is
   * None; a row whose child slot `k` is missing gets `populate(path)` appended,
   * and since the row is shared with the tree that append changes the tree.
   */
  function Find(rows: Option<seq<Row>>, parent: ModelIndex, k: nat, populate: seq<nat> -> seq<Row>)
    : (res: (seq<Row>, Option<seq<Row>>))
    ensures res.1.Some? ==> ListAt(res.0, IndexList(parent), k) == res.1
    ensures rows.Some? && parent.Invalid? ==> res == (rows.value, rows)
    decreases Depth(parent)
  {
    if parent.Invalid? then
      var t := if rows.Some? then rows.value else populate([]);
      (t, Some(t))
    else
      IndexListOfParent(parent);
      var prev := Find(rows, Parent(parent), k, populate);
      FindStep(prev.0, prev.1, parent, k, populate)
  }

  /** The step of `findList(parent)` below the root, from what `findList(parent.parent())` gave. */
  function FindStep(t: seq<Row>, up: Option<seq<Row>>, parent: ModelIndex, k: nat, populate: seq<nat> -> seq<Row>)
    : (res: (seq<Row>, Option<seq<Row>>))
    requires parent.Index?
    requires up.Some? ==> ListAt(t, parent.path, k) == up
    ensures res.1.Some? ==> ListAt(res.0, parent.path + [parent.row], k) == res.1
  {
    if up.None? || parent.row >= |up.value| then (t, None)
    else
      var i := parent.row;
      var tab := up.value;
      var r := if |tab[i]| <= k then tab[i] + [Sub(populate(IndexList(parent)))] else tab[i];
      var t' := if |tab[i]| <= k then SetListAt(t, parent.path, k, tab[i := r]) else t;
      ListAtSnoc(t', parent.path, i, k);
      if k < |r| && r[k].Sub? then (t', Some(r[k].rows)) else (t', None)
  }

  /** Along an already populated path `findList` changes nothing and returns the stored list. */
  lemma {:induction false} FindReadOnly(t: seq<Row>, parent: ModelIndex, k: nat, populate: seq<nat> -> seq<Row>)
    requires ListAt(t, IndexList(parent), k).Some?
    ensures Find(Some(t), parent, k, populate) == (t, ListAt(t, IndexList(parent), k))
    decreases Depth(parent)
  {
    if parent.Index? {
      IndexListOfParent(parent);
      ListAtSnoc(t, parent.path, parent.row, k);
      FindReadOnly(t, Parent(parent), k, populate);
    }
  }

  /** A successful `findList` populates each list once: calling it again changes nothing. */
  lemma FindIdempotent(rows: Option<seq<Row>>, parent: ModelIndex, k: nat, populate: seq<nat> -> seq<Row>)
    requires Find(rows, parent, k, populate).1.Some?
    ensures Find(Some(Find(rows, parent, k, populate).0), parent, k, populate) == Find(rows, parent, k, populate)
  {
    var res := Find(rows, parent, k, populate);
    FindReadOnly(res.0, parent, k, populate);
  }

  /** The first visit to a top-level row with exactly `k` cells appends its children at position `k`. */
  lemma FindAppendsChildren(t: seq<Row>, i: nat, column: nat, k: nat, populate: seq<nat> -> seq<Row>)
    requires i < |t| && |t[i]| == k
    ensures Find(Some(t), Index(i, column, []), k, populate) ==
      (t[i := t[i] + [Sub(populate([i]))]], Some(populate([i])))
  {
    assert IndexList(Index(i, column, [])) == [i];
  }

  /** The tree model: its column count, hidden leading columns, depth, rows and interned paths. */
  class AmphModel {
    const hidden: nat
    const levels: nat
    const cols: nat
    var rows: Option<seq<Row>>
    var idxs: map<seq<nat>, seq<nat>>

    /** Every interned path is mapped to itself. */
    ghost predicate Valid()
      reads this
    {
      forall v :: v in idxs ==> idxs[v] == v
    }

    /** `__init__`, with the column count and `hidden` that `signature()` supplies. */
    constructor (columns: nat, hiddenColumns: nat)
      ensures hidden == hiddenColumns && levels == 2 && cols == columns
      ensures rows == None && idxs == map[]
      ensures Valid()
    {
      hidden, levels, cols := hiddenColumns, 2, columns;
      rows := None;
      idxs := map[];
    }

    /** `hasChildren(parent)`. */
    function HasChildren(parent: ModelIndex): (r: bool)
      ensures parent.Invalid? ==> r
      ensures parent.Index? ==> (r <==> Depth(parent) < levels)
    {
      parent.Invalid? || |parent.path| + 1 < levels
    }

    /** `findList(parent)`: looks up, and populates on first use, the child list of `parent`. */
    method FindList(parent: ModelIndex, populate: seq<nat> -> seq<Row>) returns (tab: Option<seq<Row>>)
      modifies this`rows
      ensures rows == Some(Find(old(rows), parent, cols + hidden, populate).0)
      ensures tab == Find(old(rows), parent, cols + hidden, populate).1
      decreases Depth(parent)
    {
      if parent.Invalid? {
        if rows.None? {
          rows := Some(populate([]));
        }
        return rows;
      }
      IndexListOfParent(parent);
      var k := cols + hidden;
      var up := FindList(Parent(parent), populate);
      if up.None? || parent.row >= |up.value| {
        return None;
      }
      var r := up.value[parent.row];
      if |r| <= k {
        r := r + [Sub(populate(IndexList(parent)))];
        rows := Some(SetListAt(rows.value, parent.path, k, up.value[parent.row := r]));
      }
      if k < |r| && r[k].Sub? {
        return Some(r[k].rows);
      }
      return None;
    }

    /**
     * `index(row, column, parent)`: an invalid index out of range, otherwise
     * the index whose path is `indexList(parent)`, interned in `idxs`.
     * None where counting the rows raises.
     */
    method Index(row: int, column: int, parent: ModelIndex, populate: seq<nat> -> seq<Row>)
      returns (r: Option<ModelIndex>)
      requires Valid()
      modifies this`rows, this`idxs
      ensures row < 0 || column < 0 ==> r == Some(Invalid) && rows == old(rows) && idxs == old(idxs)
      ensures row >= 0 && column >= 0 ==> rows == Some(Find(old(rows), parent, cols + hidden, populate).0)
      ensures row >= 0 && column >= 0 && Find(old(rows), parent, cols + hidden, populate).1.None? ==>
        r == None && idxs == old(idxs)
      ensures (row >= 0 && column >= 0 && Find(old(rows), parent, cols + hidden, populate).1.Some? &&
               (row >= |Find(old(rows), parent, cols + hidden, populate).1.value| || column >= cols))
        ==> r == Some(Invalid) && idxs == old(idxs)
      ensures (row >= 0 && column >= 0 && Find(old(rows), parent, cols + hidden, populate).1.Some? &&
               row < |Find(old(rows), parent, cols + hidden, populate).1.value| && column < cols)
        ==> (r == Some(ModelIndex.Index(row, column, IndexList(parent))) &&
             idxs == old(idxs)[IndexList(parent) := IndexList(parent)])
      ensures Valid()
    {
      if row < 0 || column < 0 {
        return Some(Invalid);
      }
      var tab := FindList(parent, populate);
      if tab.None? {
        return None;
      }
      if row >= |tab.value| || column >= cols {
        return Some(Invalid);
      }
      var v := IndexList(parent);
      if v !in idxs {
        idxs := idxs[v := v];
      }
      return Some(ModelIndex.Index(row, column, idxs[v]));
    }

    /**
     * `data(index, role)`: the whole row for the user role, the cell under
     * the column for the display role (nothing for None), nothing for an
     * invalid index or another role.  None where the source raises.
     */
    method Data(index: ModelIndex, role: int, populate: seq<nat> -> seq<Row>) returns (r: Option<Variant>)
      modifies this`rows
      ensures index.Invalid? || (role != DISPLAY_ROLE && role != USER_ROLE) ==> r == Some(Empty) && rows == old(rows)
      ensures index.Index? && (role == DISPLAY_ROLE || role == USER_ROLE) ==>
        var (t, tab) := Find(old(rows), Parent(index), cols + hidden, populate);
        rows == Some(t) && r == DataOf(tab, index, role, cols, hidden)
    {
      if index.Invalid? {
        return Some(Empty);
      }
      if role != DISPLAY_ROLE && role != USER_ROLE {
        return Some(Empty);
      }
      var tab := FindList(Parent(index), populate);
      if tab.None? {
        return None;
      }
      var t := tab.value;
      var row, col := index.row, index.column;
      if role == USER_ROLE {
        if row < |t| {
          return Some(WholeRow(t[row]));
        }
        return None;
      }
      if !(row < |t|) || !(col < cols) {
        return Some(Empty);
      }
      if col + hidden >= |t[row]| {
        return None;
      }
      var data := t[row][col + hidden];
      if data.Null? {
        return Some(Empty);
      }
      return Some(Shown(col, data));
    }

    /**
     * `sort(col, order)`: sorts the rows by the key under column `col` with
     * the None-aware comparator, reversed for descending order, and forgets
     * the interned paths.  False where the source raises: no rows yet, or
     * (with two rows or more) a missing key or two keys that do not compare.
     */
    method Sort(col: nat, descending: bool) returns (ok: bool)
      requires Valid()
      modifies this`rows, this`idxs
      ensures old(rows).None? ==> !ok && rows == old(rows) && idxs == old(idxs)
      ensures old(rows).Some? && |old(rows).value| >= 2 && !Sortable(old(rows).value, col + hidden) ==>
        !ok && rows == old(rows) && idxs == old(idxs)
      ensures old(rows).Some? && |old(rows).value| < 2 ==> ok && rows == old(rows) && idxs == map[]
      ensures old(rows).Some? && |old(rows).value| >= 2 && Sortable(old(rows).value, col + hidden) ==>
        ok && rows == Some(SortRows(old(rows).value, col + hidden, descending)) && idxs == map[]
      ensures Valid()
    {
      if rows.None? {
        return false;
      }
      var t := rows.value;
      if |t| >= 2 {
        if !Sortable(t, col + hidden) {
          return false;
        }
        rows := Some(SortRows(t, col + hidden, descending));
      }
      idxs := map[];
      return true;
    }

    /** `reset()`: repopulates the root and forgets the interned paths. */
    method Reset(populate: seq<nat> -> seq<Row>)
      modifies this`rows, this`idxs
      ensures rows == Some(populate([])) && idxs == map[]
      ensures Valid()
    {
      rows := Some(populate([]));
      idxs := map[];
    }
  }

  /** What `data` returns once the list `tab` holding the row has been found. */
  function DataOf(tab: Option<seq<Row>>, index: ModelIndex, role: int, cols: nat, hidden: nat): Option<Variant>
    requires index.Index?
  {
    if tab.None? then None
    else if role == USER_ROLE then
      if index.row < |tab.value| then Some(WholeRow(tab.value[index.row])) else None
    else if !(index.row < |tab.value|) || !(index.column < cols) then Some(Empty)
    else if index.column + hidden >= |tab.value[index.row]| then None
    else if tab.value[index.row][index.column + hidden].Null? then Some(Empty)
    else Some(Shown(index.column, tab.value[index.row][index.column + hidden]))
  }

  /**
   * On a row whose list is already populated, `data` changes nothing: the
   * user role gives the row, the display role the cell at `column + hidden`,
   * with None shown as nothing.
   */
  lemma DataOfPopulated(t: seq<Row>, index: ModelIndex, cols: nat, hidden: nat, populate: seq<nat> -> seq<Row>)
    requires index.Index? && ListAt(t, index.path, cols + hidden).Some?
    requires index.row < |ListAt(t, index.path, cols + hidden).value|
    ensures Find(Some(t), Parent(index), cols + hidden, populate).0 == t
    ensures DataOf(Find(Some(t), Parent(index), cols + hidden, populate).1, index, USER_ROLE, cols, hidden) ==
      Some(WholeRow(ListAt(t, index.path, cols + hidden).value[index.row]))
    ensures var row := ListAt(t, index.path, cols + hidden).value[index.row];
      index.column < cols && index.column + hidden < |row| ==>
        DataOf(Find(Some(t), Parent(index), cols + hidden, populate).1, index, DISPLAY_ROLE, cols, hidden) ==
        Some(if row[index.column + hidden].Null? then Empty else Shown(index.column, row[index.column + hidden]))
  {
    IndexListOfParent(index);
    FindReadOnly(t, Parent(index), cols + hidden, populate);
  }

  /** With two levels only top-level rows have children, so the child of a top-level row is a leaf. */
  lemma HasChildrenTwoLevels(m: AmphModel, parent: ModelIndex, row: nat, column: nat)
    requires m.levels == 2
    ensures m.HasChildren(parent) <==> parent.Invalid? || parent.path == []
    ensures parent.Index? && parent.path == [] ==> !m.HasChildren(Index(row, column, IndexList(parent)))
  {
  }
}
