/** Groups of rows with equal keys, and what is computed of a group. */
module RowGrouping {
  import opened SelectTypes
  import opened RowOrder

  // ---------------------------------------------------------------- equal keys

  /** Two cells of one type. */
  predicate OneType(a: Cell, b: Cell) {
    match (a, b)
    case (IntCell(m), IntCell(n)) => -TWO31 <= m < TWO31 && -TWO31 <= n < TWO31
    case (TextCell(s), TextCell(t)) => NoTerminator(s) && NoTerminator(t)
    case _ => false
  }

  predicate HasColumns(columns: seq<nat>, row: Row) {
    forall i :: 0 <= i < |columns| ==> columns[i] < |row|
  }

  predicate OneTyped(columns: seq<nat>, rows: seq<Row>) {
    && (forall i :: 0 <= i < |rows| ==> HasColumns(columns, rows[i]))
    && (forall i, j, k :: 0 <= i < |rows| && 0 <= j < |rows| && 0 <= k < |columns| ==>
          OneType(rows[i][columns[k]], rows[j][columns[k]]))
  }

  function GroupKey(columns: seq<nat>, row: Row): seq<Cell>
    requires HasColumns(columns, row)
  {
    seq(|columns|, i requires 0 <= i < |columns| => row[columns[i]])
  }

  lemma CompareEqual(a: Cell, b: Cell)
    requires OneType(a, b)
    ensures Compare(a, b) == 0 <==> a == b
  {
    match (a, b)
    case (IntCell(m), IntCell(n)) => IntCompareExact(m, n);
    case (TextCell(s), TextCell(t)) => StrCmpZero(s, t);
  }

  method TupleCompare(columns: seq<nat>, l: Row, r: Row) returns (same: bool)
    requires HasColumns(columns, l) && HasColumns(columns, r)
    requires forall k :: 0 <= k < |columns| ==> OneType(l[columns[k]], r[columns[k]])
    ensures same <==> GroupKey(columns, l) == GroupKey(columns, r)
  {
    ghost var x, y := GroupKey(columns, l), GroupKey(columns, r);
    for i := 0 to |columns|
      invariant x[..i] == y[..i]
    {
      CompareEqual(l[columns[i]], r[columns[i]]);
      if Compare(l[columns[i]], r[columns[i]]) != 0 {
        assert x[i] != y[i];
        return false;
      }
    }
    assert x[..|columns|] == x && y[..|columns|] == y;
    return true;
  }

  // ---------------------------------------------------------------- group numbers

  /** Group `g` first appears at place `i`, after all the groups of smaller numbers. */
  predicate FirstOf(ids: seq<nat>, g: nat, i: nat) {
    i < |ids| && ids[i] == g && forall j :: 0 <= j < i ==> ids[j] < g
  }

  /** Equal keys, and only they, share a number; the numbers are given in the order of first appearance. */
  ghost predicate Grouped(ks: seq<seq<Cell>>, ids: seq<nat>, count: nat) {
    && |ids| == |ks|
    && (forall i :: 0 <= i < |ids| ==> ids[i] < count)
    && (forall i, j :: 0 <= i < |ids| && 0 <= j < |ids| ==> (ids[i] == ids[j] <==> ks[i] == ks[j]))
    && (forall g :: 0 <= g < count ==> Appears(ids, g))
  }

  ghost predicate Appears(ids: seq<nat>, g: nat) {
    exists i :: FirstOf(ids, g, i)
  }

  lemma GroupedSame(ks: seq<seq<Cell>>, ids: seq<nat>, count: nat, k: seq<Cell>, j: nat)
    requires Grouped(ks, ids, count) && j < |ks| && ks[j] == k
    ensures Grouped(ks + [k], ids + [ids[j]], count)
  {
    forall g | 0 <= g < count ensures Appears(ids + [ids[j]], g) {
      assert Appears(ids, g);
      var i: nat :| FirstOf(ids, g, i);
      assert FirstOf(ids + [ids[j]], g, i);
    }
  }

  lemma GroupedNew(ks: seq<seq<Cell>>, ids: seq<nat>, count: nat, k: seq<Cell>)
    requires Grouped(ks, ids, count) && k !in ks
    ensures Grouped(ks + [k], ids + [count], count + 1)
  {
    forall g | 0 <= g < count + 1 ensures Appears(ids + [count], g) {
      if g < count {
        assert Appears(ids, g);
        var i: nat :| FirstOf(ids, g, i);
        assert FirstOf(ids + [count], g, i);
      } else {
        assert FirstOf(ids + [count], g, |ids|);
      }
    }
  }

  function GroupKeys(columns: seq<nat>, rows: seq<Row>): (ks: seq<seq<Cell>>)
    requires forall i :: 0 <= i < |rows| ==> HasColumns(columns, rows[i])
    ensures |ks| == |rows|
  {
    seq(|rows|, i requires 0 <= i < |rows| => GroupKey(columns, rows[i]))
  }

  lemma NothingGrouped(ks: seq<seq<Cell>>, ids: seq<nat>)
    requires ks == [] && ids == []
    ensures Grouped(ks, ids, 0)
  {
  }

  method MakeGroups(columns: seq<nat>, rows: seq<Row>) returns (groupId: array<nat>, groupCount: nat)
    requires OneTyped(columns, rows)
    ensures fresh(groupId) && groupId.Length == |rows| && Grouped(GroupKeys(columns, rows), groupId[..], groupCount)
  {
    hide Grouped, OneType, GroupKey;
    groupId := new nat[|rows|];
    groupCount := 0;
    ghost var ks := GroupKeys(columns, rows);
    NothingGrouped(ks[..0], groupId[..0]);
    for i := 0 to |rows|
      invariant Grouped(ks[..i], groupId[..i], groupCount)
    {
      ghost var ids := groupId[..i];
      var newGroup := true;
      for j := 0 to i
        invariant newGroup && groupId[..i] == ids
        invariant forall k :: 0 <= k < j ==> ks[k] != ks[i]
      {
        var same := TupleCompare(columns, rows[i], rows[j]);
        if same {
          newGroup := false;
          assert ks[..i][j] == ks[i];
          GroupedSame(ks[..i], ids, groupCount, ks[i], j);
          assert ids[j] == groupId[j];
          groupId[i] := groupId[j];
          break;
        }
      }
      if newGroup {
        GroupedNew(ks[..i], ids, groupCount, ks[i]);
        groupId[i] := groupCount;
        groupCount := groupCount + 1;
      }
      assert ks[..i + 1] == ks[..i] + [ks[i]];
      assert groupId[..i + 1] == ids + [groupId[i]];
    }
    assert ks[..|rows|] == ks && groupId[..|rows|] == groupId[..];
  }

  /** A key that is new gets the smallest number not given yet. */
  lemma NewNumber(ks: seq<seq<Cell>>, ids: seq<nat>, count: nat, i: nat, g: nat)
    requires Grouped(ks, ids, count) && i < |ks| && ks[i] !in ks[..i]
    ensures g < ids[i] ==> g in ids[..i]
    ensures g >= ids[i] ==> g !in ids[..i]
  {
    assert Appears(ids, ids[i]);
    var a: nat :| FirstOf(ids, ids[i], a);
    assert ks[a] == ks[i];
    forall j | 0 <= j < i ensures ks[j] != ks[i] {
      assert ks[..i][j] == ks[j];
    }
    assert a == i;
    if g < ids[i] {
      assert Appears(ids, g);
      var b: nat :| FirstOf(ids, g, b);
      assert b < i && ids[..i][b] == g;
    }
  }

  lemma {:induction false} NumbersSame(ks: seq<seq<Cell>>, ids: seq<nat>, count: nat, others: seq<nat>, more: nat, i: nat)
    requires Grouped(ks, ids, count) && Grouped(ks, others, more) && i <= |ks|
    ensures ids[..i] == others[..i]
  {
    if i > 0 {
      var n := i - 1;
      NumbersSame(ks, ids, count, others, more, n);
      if ks[n] in ks[..n] {
        var j: nat :| j < n && ks[j] == ks[n];
        assert ids[..n][j] == others[..n][j];
        assert ids[n] == ids[j] && others[n] == others[j];
      } else {
        NewNumber(ks, ids, count, n, ids[n]);
        NewNumber(ks, ids, count, n, others[n]);
        NewNumber(ks, others, more, n, ids[n]);
        NewNumber(ks, others, more, n, others[n]);
      }
      assert ids[..i] == ids[..n] + [ids[n]] && others[..i] == others[..n] + [others[n]];
    }
  }

  lemma NoMoreGroups(ks: seq<seq<Cell>>, ids: seq<nat>, count: nat, more: nat)
    requires Grouped(ks, ids, count) && Grouped(ks, ids, more)
    ensures more <= count
  {
    if more > 0 {
      assert Appears(ids, more - 1);
    }
  }

  /** The keys determine the groups and their numbers. */
  lemma GroupedUnique(ks: seq<seq<Cell>>, ids: seq<nat>, count: nat, others: seq<nat>, more: nat)
    requires Grouped(ks, ids, count) && Grouped(ks, others, more)
    ensures ids == others && count == more
  {
    NumbersSame(ks, ids, count, others, more, |ks|);
    assert ids[..|ks|] == ids && others[..|ks|] == others;
    NoMoreGroups(ks, ids, count, more);
    NoMoreGroups(ks, ids, more, count);
  }

  // ---------------------------------------------------------------- aggregates

  datatype Agg = Plain | Count | Max | Min

  predicate Wide(rows: seq<Row>, column: nat) {
    forall r :: r in rows ==> column < |r|
  }

  /** The rows of group `g`, in their order. */
  function Members(rows: seq<Row>, ids: seq<nat>, g: nat): (m: seq<Row>)
    requires |ids| == |rows|
    ensures forall r :: r in m ==> r in rows
  {
    if rows == [] then []
    else
      var n := |rows| - 1;
      Members(rows[..n], ids[..n], g) + if ids[n] == g then [rows[n]] else []
  }

  /** How many rows have a cell that is not null. */
  function NonNulls(rows: seq<Row>, column: nat): nat
    requires Wide(rows, column)
  {
    if rows == [] then 0
    else NonNulls(rows[..|rows| - 1], column) + if IsNull(rows[|rows| - 1][column]) then 0 else 1
  }

  lemma NonNullsAppend(rows: seq<Row>, row: Row, column: nat)
    requires Wide(rows, column) && column < |row|
    ensures NonNulls(rows + [row], column) == NonNulls(rows, column) + if IsNull(row[column]) then 0 else 1
  {
    assert (rows + [row])[..|rows|] == rows;
  }

  function Total(rows: seq<Row>, ids: seq<nat>, column: nat, count: nat): nat
    requires |ids| == |rows| && Wide(rows, column)
  {
    if count == 0 then 0
    else Total(rows, ids, column, count - 1) + NonNulls(Members(rows, ids, count - 1), column)
  }

  lemma {:induction false} TotalStep(rows: seq<Row>, ids: seq<nat>, row: Row, id: nat, column: nat, count: nat)
    requires |ids| == |rows| && Wide(rows, column) && column < |row|
    ensures Total(rows + [row], ids + [id], column, count)
            == Total(rows, ids, column, count) + if id < count && !IsNull(row[column]) then 1 else 0
  {
    hide Members, NonNulls;
    if count > 0 {
      TotalStep(rows, ids, row, id, column, count - 1);
      MembersAppend(rows, ids, row, id, count - 1);
      var m := Members(rows, ids, count - 1);
      NonNullsAppend(m, row, column);
      assert m + [] == m;
    }
  }

  lemma MembersAppend(rows: seq<Row>, ids: seq<nat>, row: Row, id: nat, g: nat)
    requires |ids| == |rows|
    ensures Members(rows + [row], ids + [id], g) == Members(rows, ids, g) + if id == g then [row] else []
  {
    assert (rows + [row])[..|rows|] == rows && (ids + [id])[..|ids|] == ids;
  }

  /** The counts of all the groups add up to the cells that are not null. */
  lemma {:induction false} CountsAddUp(rows: seq<Row>, ids: seq<nat>, column: nat, count: nat)
    requires |ids| == |rows| && Wide(rows, column)
    requires forall i :: 0 <= i < |ids| ==> ids[i] < count
    ensures Total(rows, ids, column, count) == NonNulls(rows, column)
  {
    hide Members, Total, NonNulls;
    if rows == [] {
      NothingTotal(ids, column, count);
      AllNull(rows, column);
    } else {
      var n := |rows| - 1;
      CountsAddUp(rows[..n], ids[..n], column, count);
      TotalStep(rows[..n], ids[..n], rows[n], ids[n], column, count);
      NonNullsAppend(rows[..n], rows[n], column);
      assert rows == rows[..n] + [rows[n]] && ids == ids[..n] + [ids[n]];
    }
  }

  lemma {:induction false} NothingTotal(ids: seq<nat>, column: nat, count: nat)
    requires ids == []
    ensures Total([], ids, column, count) == 0
  {
    if count > 0 {
      NothingTotal(ids, column, count - 1);
    }
  }

  /** Cell `c` is beyond cell `d`, upwards for a maximum and downwards for a minimum. */
  ghost predicate Beyond(kind: Agg, c: Cell, d: Cell) {
    if kind == Max then CellLess(d, c) else CellLess(c, d)
  }

  /** Cell `c` is one of the column's cells that are not null. */
  predicate Attained(rows: seq<Row>, column: nat, c: Cell)
    requires Wide(rows, column)
  {
    !IsNull(c) && exists r :: r in rows && r[column] == c
  }

  /** Cell `c` is one of the column's cells that are not null, and none of them is beyond it. */
  ghost predicate Extreme(rows: seq<Row>, column: nat, kind: Agg, c: Cell)
    requires Wide(rows, column)
  {
    && Attained(rows, column, c)
    && (forall r :: r in rows && !IsNull(r[column]) ==> !Beyond(kind, r[column], c))
  }

  predicate ColumnComparable(rows: seq<Row>, column: nat)
    requires Wide(rows, column)
  {
    forall r, t :: r in rows && t in rows && !IsNull(r[column]) && !IsNull(t[column]) ==> Comparable(r[column], t[column])
  }

  /** Which of two cells a maximum or minimum goes on with. */
  function Better(kind: Agg, best: Cell, c: Cell): Cell {
    if kind == Max then (if Compare(best, c) < 0 then c else best)
    else if Compare(best, c) > 0 then c
    else best
  }

  /** The maximum or minimum computed cell by cell, nulls left out; a null if there are no others. */
  function Best(rows: seq<Row>, column: nat, kind: Agg): Cell
    requires Wide(rows, column)
  {
    if rows == [] then TextCell("NULL")
    else
      var n := |rows| - 1;
      var b, c := Best(rows[..n], column, kind), rows[n][column];
      if IsNull(c) then b else if NonNulls(rows[..n], column) == 0 then c else Better(kind, b, c)
  }

  /** The meaning of an aggregate of a group. A maximum or minimum bounds the cells if they compare rightly. */
  ghost predicate Aggregates(rows: seq<Row>, column: nat, kind: Agg, c: Cell)
    requires rows != [] && Wide(rows, column)
  {
    match kind
    case Plain => c == rows[0][column]
    case Count => c == IntCell(NonNulls(rows, column))
    case _ =>
      if NonNulls(rows, column) == 0 then c == TextCell("NULL")
      else c == Best(rows, column, kind) && Attained(rows, column, c) && (ColumnComparable(rows, column) ==> Extreme(rows, column, kind, c))
  }

  lemma {:induction false} AllNull(rows: seq<Row>, column: nat)
    requires Wide(rows, column)
    ensures NonNulls(rows, column) == 0 <==> forall r :: r in rows ==> IsNull(r[column])
  {
    if rows != [] {
      var n := |rows| - 1;
      AllNull(rows[..n], column);
      assert rows == rows[..n] + [rows[n]];
    }
  }

  lemma FirstExtreme(rows: seq<Row>, row: Row, column: nat, kind: Agg)
    requires Wide(rows, column) && column < |row| && !IsNull(row[column])
    requires NonNulls(rows, column) == 0
    ensures Extreme(rows + [row], column, kind, row[column])
  {
    AllNull(rows, column);
    BeyondSelf(kind, row[column]);
    assert row in rows + [row];
  }

  lemma BeyondSelf(kind: Agg, c: Cell)
    ensures !Beyond(kind, c, c)
  {
    NotLess(c);
  }

  /** A new cell that is beyond the extreme one replaces it. */
  lemma NextExtreme(rows: seq<Row>, row: Row, column: nat, kind: Agg, c: Cell)
    requires Wide(rows, column) && column < |row| && !IsNull(row[column]) && Extreme(rows, column, kind, c)
    requires ColumnComparable(rows + [row], column) && (kind == Max || kind == Min)
    ensures Comparable(c, row[column])
    ensures Extreme(rows + [row], column, kind, if Beyond(kind, row[column], c) then row[column] else c)
  {
    var all, v := rows + [row], row[column];
    var s :| s in rows && s[column] == c;
    assert s in all && row in all;
    var e := if Beyond(kind, v, c) then v else c;
    forall r | r in all && !IsNull(r[column]) ensures !Beyond(kind, r[column], e) {
      if r in rows {
        if e == v && Beyond(kind, r[column], v) {
          BeyondTransitive(kind, r[column], v, c);
        }
      } else {
        BeyondSelf(kind, v);
      }
    }
  }

  lemma BeyondTransitive(kind: Agg, a: Cell, b: Cell, c: Cell)
    requires Beyond(kind, a, b) && Beyond(kind, b, c)
    ensures Beyond(kind, a, c)
  {
    if kind == Max {
      CellLessTransitive(c, b, a);
    } else {
      CellLessTransitive(a, b, c);
    }
  }

  lemma SameExtreme(rows: seq<Row>, row: Row, column: nat, kind: Agg, c: Cell)
    requires Wide(rows, column) && column < |row| && IsNull(row[column]) && Extreme(rows, column, kind, c)
    ensures Extreme(rows + [row], column, kind, c)
  {
    var s :| s in rows && s[column] == c;
    assert s in rows + [row];
  }

  lemma StillAttained(rows: seq<Row>, row: Row, column: nat, c: Cell)
    requires Wide(rows, column) && column < |row|
    ensures Attained(rows, column, c) ==> Attained(rows + [row], column, c)
    ensures !IsNull(row[column]) ==> Attained(rows + [row], column, row[column])
  {
    assert forall r :: r in rows ==> r in rows + [row];
    assert row in rows + [row];
  }

  lemma BestAppend(rows: seq<Row>, row: Row, column: nat, kind: Agg)
    requires Wide(rows, column) && column < |row|
    ensures var c := row[column];
            Best(rows + [row], column, kind)
            == if IsNull(c) then Best(rows, column, kind) else if NonNulls(rows, column) == 0 then c else Better(kind, Best(rows, column, kind), c)
  {
    assert (rows + [row])[..|rows|] == rows;
  }

  lemma {:induction false} BestAttained(rows: seq<Row>, column: nat, kind: Agg)
    requires Wide(rows, column)
    ensures NonNulls(rows, column) == 0 ==> Best(rows, column, kind) == TextCell("NULL")
    ensures NonNulls(rows, column) > 0 ==> Attained(rows, column, Best(rows, column, kind))
  {
    hide Attained, Compare, IsNull;
    if rows != [] {
      var n := |rows| - 1;
      BestAttained(rows[..n], column, kind);
      StillAttained(rows[..n], rows[n], column, Best(rows[..n], column, kind));
      assert rows == rows[..n] + [rows[n]];
    }
  }

  lemma BetterIsBeyond(kind: Agg, best: Cell, c: Cell)
    requires Comparable(best, c) && (kind == Max || kind == Min)
    ensures Better(kind, best, c) == if Beyond(kind, c, best) then c else best
  {
    CompareIsOrder(best, c);
  }

  /** Cells that compare rightly have the right maximum and minimum. */
  lemma {:induction false} BestExtreme(rows: seq<Row>, column: nat, kind: Agg)
    requires Wide(rows, column) && ColumnComparable(rows, column) && NonNulls(rows, column) > 0 && (kind == Max || kind == Min)
    ensures Extreme(rows, column, kind, Best(rows, column, kind))
  {
    hide Extreme, Compare, IsNull, Comparable, CellLess;
    var n := |rows| - 1;
    var most, row := rows[..n], rows[n];
    assert rows == most + [row];
    BestAppend(most, row, column, kind);
    NonNullsAppend(most, row, column);
    if NonNulls(most, column) == 0 {
      FirstExtreme(most, row, column, kind);
    } else {
      BestExtreme(most, column, kind);
      var b := Best(most, column, kind);
      if IsNull(row[column]) {
        SameExtreme(most, row, column, kind, b);
      } else {
        NextExtreme(most, row, column, kind, b);
        BetterIsBeyond(kind, b, row[column]);
      }
    }
  }

  lemma NoNulls(column: nat)
    ensures NonNulls([], column) == 0
  {
  }

  /** What is computed of one group. */
  method Aggregate(rows: seq<Row>, column: nat, kind: Agg) returns (c: Cell)
    requires rows != [] && Wide(rows, column)
    ensures Aggregates(rows, column, kind, c)
  {
    hide Extreme, Attained, NonNulls, Best, CellLess, Compare, IsNull, Comparable, ColumnComparable;
    if kind == Plain {
      return rows[0][column];
    }
    NoNulls(column);
    var count, found, best := 0, false, TextCell("NULL");
    for k := 0 to |rows|
      invariant count == NonNulls(rows[..k], column) && (found <==> count > 0 && kind != Count)
      invariant found ==> best == Best(rows[..k], column, kind)
      invariant !found ==> best == TextCell("NULL")
    {
      var v := rows[k][column];
      assert rows[..k + 1] == rows[..k] + [rows[k]];
      NonNullsAppend(rows[..k], rows[k], column);
      BestAppend(rows[..k], rows[k], column, kind);
      if IsNull(v) {
        continue;
      }
      count := count + 1;
      if kind == Count {
      } else if !found {
        best, found := v, true;
      } else if kind == Max {
        if Compare(best, v) < 0 {
          best := v;
        }
      } else if Compare(best, v) > 0 {
        best := v;
      }
    }
    assert rows[..|rows|] == rows;
    if found {
      BestAttained(rows, column, kind);
      if ColumnComparable(rows, column) {
        BestExtreme(rows, column, kind);
      }
    }
    return if kind == Count then IntCell(count) else best;
  }
}
