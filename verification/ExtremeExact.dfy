/** Which cells a maximum or minimum by 32-bit differences is right for however the rows are arranged. */
module ExtremeExact {
  import opened SelectTypes
  import opened RowOrder
  import opened RowGrouping
  import opened RowParts

  /** The cells of the column that are not null are of one type. */
  predicate ColumnTyped(rows: seq<Row>, column: nat)
    requires Wide(rows, column)
  {
    forall r, t :: r in rows && t in rows && !IsNull(r[column]) && !IsNull(t[column]) ==> OneType(r[column], t[column])
  }

  /** However the rows are arranged, the cell computed is extreme. */
  ghost predicate AlwaysExtreme(rows: seq<Row>, column: nat, kind: Agg) {
    forall t :: multiset(t) == multiset(rows) ==> Wide(t, column) && Extreme(t, column, kind, Best(t, column, kind))
  }

  /** The rows whose cell is not null. */
  function Given(rows: seq<Row>, column: nat): (t: seq<Row>)
    requires Wide(rows, column)
    ensures forall r :: r in t <==> r in rows && !IsNull(r[column])
  {
    Only(rows, set r | r in rows && !IsNull(r[column]))
  }

  lemma SomeGiven(rows: seq<Row>, column: nat, r: Row)
    requires Wide(rows, column) && r in rows && !IsNull(r[column])
    ensures NonNulls(rows, column) > 0
  {
    AllNull(rows, column);
  }

  // ---------------------------------------------------------------- a maximum that goes wrong

  /** The smallest integer at the end takes the place of the largest. */
  lemma MaxWrong(rows: seq<Row>, column: nat, e: Row, o: Row)
    requires Wide(rows, column) && Integers(Given(rows, column), column) && Outer(Given(rows, column), column, false, e)
    requires o in Given(rows, column) && e[column].v - o[column].v >= TWO31
    ensures !AlwaysExtreme(rows, column, Max)
  {
    hide Compare, IsNull, Best, NonNulls;
    var k :| 0 <= k < |rows| && rows[k] == o;
    var rest := Without(rows, k);
    var t := rest + [o];
    OneOut(rows, k);
    SameRows(t, rows);
    assert e in rest by {
      assert e in t;
    }
    SomeGiven(rest, column, e);
    BestAttained(rest, column, Max);
    BestAppend(rest, o, column, Max);
    FarCompare(e[column].v, o[column].v);
    NotTheBest(rows, t, column, Max, e);
  }

  /** Of rows the same as `rows`, a cell other than that of the outermost row is not extreme. */
  lemma NotTheBest(rows: seq<Row>, t: seq<Row>, column: nat, kind: Agg, e: Row)
    requires Wide(rows, column) && Wide(t, column) && multiset(t) == multiset(rows) && (kind == Max || kind == Min)
    requires Integers(Given(rows, column), column) && Outer(Given(rows, column), column, kind == Min, e)
    requires Best(t, column, kind) != e[column]
    ensures !AlwaysExtreme(rows, column, kind)
  {
    hide Compare, IsNull, Best, NonNulls;
    SameRows(t, rows);
    assert e in t && (forall r :: r in t && !IsNull(r[column]) ==> r in Given(rows, column));
    assert !Extreme(t, column, kind, Best(t, column, kind));
  }

  // ---------------------------------------------------------------- a minimum that goes wrong

  /** While the smallest integers are looked at, the largest one stands before them. */
  lemma {:induction false} MinAlong(t: seq<Row>, column: nat, e: Row, n: nat, i: nat)
    requires Wide(t, column) && 0 < i <= |t| && n < |t| && column < |e|
    requires t[0][column].IntCell? && t[0][column] != e[column] && Compare(t[0][column], e[column]) <= 0
    requires forall j :: 1 <= j <= n ==> t[j][column] == e[column]
    requires forall j :: n < j < |t| ==> t[j][column] != e[column]
    ensures NonNulls(t[..i], column) > 0 && Best(t[..i], column, Min) != e[column]
    ensures i <= n + 1 ==> Best(t[..i], column, Min) == t[0][column]
  {
    hide Compare, Best, NonNulls;
    var most, row := t[..i - 1], t[i - 1];
    assert t[..i] == most + [row];
    NonNullsAppend(most, row, column);
    BestAppend(most, row, column, Min);
    if i == 1 {
      NoNulls(column);
    } else {
      MinAlong(t, column, e, n, i - 1);
    }
  }

  lemma MinWrong(rows: seq<Row>, column: nat, e: Row, o: Row)
    requires Wide(rows, column) && Integers(Given(rows, column), column) && Outer(Given(rows, column), column, true, e)
    requires o in Given(rows, column) && o[column].v - e[column].v >= TWO31
    ensures !AlwaysExtreme(rows, column, Min)
  {
    hide Compare, IsNull, Best, NonNulls, Fronted;
    var k :| 0 <= k < |rows| && rows[k] == o;
    var like := set x | x in rows && x[column] == e[column];
    var t, n := Fronted(rows, k, like), |Only(Without(rows, k), like)|;
    FrontedRows(rows, k, like);
    FrontedSame(rows, k, like);
    SameRows(t, rows);
    forall j | n < j < |t| ensures t[j][column] != e[column] {
      assert t[j] in rows;
    }
    FarCompare(o[column].v, e[column].v);
    MinAlong(t, column, e, n, |t|);
    assert t[..|t|] == t;
    NotTheBest(rows, t, column, Min, e);
  }

  lemma ComparableAnyhow(rows: seq<Row>, t: seq<Row>, column: nat)
    requires multiset(t) == multiset(rows) && Wide(rows, column) && ColumnComparable(rows, column)
    ensures Wide(t, column) && ColumnComparable(t, column)
  {
    hide Comparable, IsNull;
    SameRows(t, rows);
  }

  /**
   The exact condition for MAX and MIN: the cell computed is the largest or smallest however the rows are arranged
   iff no two of the cells that are not null are too far apart.
   */
  lemma ExtremeExactly(rows: seq<Row>, column: nat, kind: Agg)
    requires Wide(rows, column) && ColumnTyped(rows, column) && NonNulls(rows, column) > 0 && (kind == Max || kind == Min)
    ensures AlwaysExtreme(rows, column, kind) <==> ColumnComparable(rows, column)
  {
    hide Extreme, Best, IsNull, NonNulls;
    if ColumnComparable(rows, column) {
      forall t | multiset(t) == multiset(rows) ensures Wide(t, column) && Extreme(t, column, kind, Best(t, column, kind)) {
        ComparableAnyhow(rows, t, column);
        AllNull(rows, column);
        AllNull(t, column);
        SameRows(t, rows);
        BestExtreme(t, column, kind);
      }
    } else {
      var l: Row, r: Row :| l in rows && r in rows && !IsNull(l[column]) && !IsNull(r[column]) && !Comparable(l[column], r[column]);
      var c := Given(rows, column);
      assert OneType(l[column], r[column]);
      assert Integers(c, column) by {
        forall x: Row | x in c ensures column < |x| && x[column].IntCell? && -TWO31 <= x[column].v < TWO31 {
          assert OneType(x[column], l[column]);
        }
      }
      var e := Outermost(c, column, kind == Min);
      var o := if (kind == Min) == (l[column].v < r[column].v) then r else l;
      if kind == Max {
        MaxWrong(rows, column, e, o);
      } else {
        MinWrong(rows, column, e, o);
      }
    }
  }
}
