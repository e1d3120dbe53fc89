/** The select list of a join: which columns of the joined rows are shown, and what they hold. */
module SelectList {
  import opened SelectTypes
  import opened SelectPlan
  import opened SelectJoin
  import opened SelectMeaning

  /** The attributes that an item stands for. */
  function Expanded(tables: seq<Table>, it: Item): seq<Attr> {
    match it
    case Star => AllOf(tables)
    case TableStar(n) => if TableNo(tables, n) < |tables| then AllColumns(tables[TableNo(tables, n)]) else []
    case Field(a) => [a]
  }

  function AllOf(tables: seq<Table>): seq<Attr> {
    if tables == [] then [] else AllOf(tables[..|tables| - 1]) + AllColumns(tables[|tables| - 1])
  }

  function ExpandedList(tables: seq<Table>, items: seq<Item>): seq<Attr> {
    if items == [] then [] else ExpandedList(tables, items[..|items| - 1]) + Expanded(tables, items[|items| - 1])
  }

  function NumbersOf(s: Schema, attrs: seq<Attr>): (r: seq<nat>)
    ensures |r| == |attrs| && forall i :: 0 <= i < |r| ==> r[i] == Column(s, attrs[i])
  {
    seq(|attrs|, i requires 0 <= i < |attrs| => Column(s, attrs[i]))
  }

  lemma NumbersAppend(s: Schema, a: seq<Attr>, b: seq<Attr>)
    ensures NumbersOf(s, a + b) == NumbersOf(s, a) + NumbersOf(s, b)
  {
  }

  /** The number of one column. */
  method FieldToNumber(s: Schema, a: Attr) returns (i: nat)
    requires a in s
    ensures i == Column(s, a)
  {
    hide Column;
    i := 0;
    while s[i] != a
      invariant i <= Column(s, a)
      decreases |s| - i
    {
      ColumnBefore(s, a, i);
      i := i + 1;
    }
    ColumnBefore(s, a, i);
  }

  lemma {:induction false} ColumnBefore(s: Schema, a: Attr, i: nat)
    requires i <= Column(s, a) && i < |s| && a in s
    ensures s[i] == a <==> i == Column(s, a)
  {
    if s[0] != a && i > 0 {
      ColumnBefore(s[1..], a, i - 1);
    }
  }

  method TableToNumbers(s: Schema, t: Table) returns (numbers: seq<nat>)
    requires Covers(s, AllColumns(t))
    ensures numbers == NumbersOf(s, AllColumns(t))
  {
    numbers := [];
    for j := 0 to |t.fields|
      invariant numbers == NumbersOf(s, AllColumns(t)[..j])
    {
      assert AllColumns(t)[j] == Attr(t.name, t.fields[j]);
      var i := FieldToNumber(s, Attr(t.name, t.fields[j]));
      numbers := numbers + [i];
    }
    assert AllColumns(t)[..|t.fields|] == AllColumns(t);
  }

  predicate Covers(s: Schema, attrs: seq<Attr>) {
    forall a :: a in attrs ==> a in s
  }

  /** The columns that an item of the select list stands for. */
  method AttrToNumber(s: Schema, it: Item, tables: seq<Table>) returns (numbers: seq<nat>)
    requires it.TableStar? ==> TableNo(tables, it.table) < |tables|
    requires Covers(s, Expanded(tables, it))
    ensures numbers == NumbersOf(s, Expanded(tables, it))
  {
    match it
    case Star =>
      numbers := [];
      for i := 0 to |tables|
        invariant numbers == NumbersOf(s, AllOf(tables[..i]))
      {
        assert tables[..i + 1][..i] == tables[..i];
        AllOfHas(tables, i);
        var more := TableToNumbers(s, tables[i]);
        NumbersAppend(s, AllOf(tables[..i]), AllColumns(tables[i]));
        numbers := numbers + more;
      }
      assert tables[..|tables|] == tables;
    case TableStar(n) =>
      var i := 0;
      while tables[i].name != n
        invariant i <= TableNo(tables, n)
        decreases |tables| - i
      {
        i := i + 1;
      }
      numbers := TableToNumbers(s, tables[i]);
    case Field(a) =>
      assert a == Expanded(tables, it)[0];
      var i := FieldToNumber(s, a);
      numbers := [i];
  }

  lemma {:induction false} AllOfHas(tables: seq<Table>, i: nat)
    requires i < |tables|
    ensures forall a :: a in AllColumns(tables[i]) ==> a in AllOf(tables)
  {
    var n := |tables| - 1;
    if i < n {
      AllOfHas(tables[..n], i);
    }
  }

  // ---------------------------------------------------------------- the rows shown

  function Shown(row: Row, numbers: seq<nat>): Row {
    seq(|numbers|, i requires 0 <= i < |numbers| => if numbers[i] < |row| then row[numbers[i]] else TextCell(""))
  }

  function ShownRows(rows: seq<Row>, numbers: seq<nat>): seq<Row> {
    if rows == [] then [] else [Shown(rows[0], numbers)] + ShownRows(rows[1..], numbers)
  }

  predicate StarsOk(q: Query) {
    forall i :: 0 <= i < |q.selected| ==> StarOk(q.tables, q.selected[i])
  }

  predicate StarOk(tables: seq<Table>, it: Item) {
    it.TableStar? ==> TableNo(tables, it.table) < |tables|
  }

  /**
   The select list of a query: the rows of the join, reduced to the columns that the list names, in its order;
   these are the values selected from the combinations that satisfy the condition.
   */
  method SelectShown(q: Query) returns (shown: seq<Row>, headers: Schema)
    requires |q.tables| > 1 && Resolved(q) && StarsOk(q)
    ensures shown == ShownAnswer(q, headers, Combos(q.tables, |q.tables|))
    ensures headers == ExpandedList(q.tables, q.selected)
  {
    hide Joined, Columns, Expanded, Resolved, ShownAnswer;
    var rows, columns := SelectRows(q);
    var numbers: seq<nat> := [];
    for i := 0 to |q.selected|
      invariant numbers == NumbersOf(columns, ExpandedList(q.tables, q.selected[..i]))
    {
      assert q.selected[..i + 1][..i] == q.selected[..i];
      ItemCovered(q, i);
      assert StarOk(q.tables, q.selected[i]);
      var more := AttrToNumber(columns, q.selected[i], q.tables);
      NumbersAppend(columns, ExpandedList(q.tables, q.selected[..i]), Expanded(q.tables, q.selected[i]));
      numbers := numbers + more;
    }
    assert q.selected[..|q.selected|] == q.selected;
    ListCovered(q, |q.selected|);
    ghost var attrs := ExpandedList(q.tables, q.selected);
    headers := [];
    for i := 0 to |numbers|
      invariant headers == attrs[..i]
    {
      assert attrs[i] in columns;
      headers := headers + [columns[numbers[i]]];
    }
    assert attrs[..|numbers|] == attrs;
    ShownIsSelected(q);
    shown := [];
    for i := 0 to |rows|
      invariant shown + ShownRows(rows[i..], numbers) == ShownRows(rows, numbers)
    {
      assert rows[i..][1..] == rows[i + 1..];
      shown := shown + [Shown(rows[i], numbers)];
    }
  }

  /** A starred table has all its columns among those of its plan. */
  lemma {:induction false} SchemaHasAll(t: Table, items: seq<Item>, k: nat)
    requires k < |items| && (items[k] == Star || items[k] == TableStar(t.name))
    ensures forall a :: a in AllColumns(t) ==> a in SchemaFor(t, items)
  {
    var n := |items| - 1;
    if k < n {
      SchemaHasAll(t, items[..n], k);
    }
  }

  lemma {:induction false} ColumnsHasPlan(q: Query, k: nat, j: nat, a: Attr)
    requires j < k <= |q.tables| && a in SchemaFor(q.tables[j], Items(q))
    ensures a in Columns(q, k)
  {
    if j < k - 1 {
      ColumnsHasPlan(q, k - 1, j, a);
    }
  }

  lemma {:induction false} AllOfFrom(tables: seq<Table>, a: Attr) returns (j: nat)
    requires a in AllOf(tables)
    ensures j < |tables| && a in AllColumns(tables[j])
  {
    var n := |tables| - 1;
    if a in AllColumns(tables[n]) {
      j := n;
    } else {
      j := AllOfFrom(tables[..n], a);
    }
  }

  /** Everything an item of the select list stands for is among the columns of the join. */
  lemma ItemCovered(q: Query, i: nat)
    requires Resolved(q) && i < |q.selected| && StarOk(q.tables, q.selected[i])
    ensures Covers(Columns(q, |q.tables|), Expanded(q.tables, q.selected[i]))
  {
    hide SchemaFor, Columns, Items;
    var it, n := q.selected[i], |q.tables|;
    ItemsStart(q, i);
    forall a | a in Expanded(q.tables, it) ensures a in Columns(q, n) {
      var j: nat;
      match it {
        case Star =>
          j := AllOfFrom(q.tables, a);
          SchemaHasAll(q.tables[j], Items(q), i);
        case TableStar(m) =>
          j := TableNo(q.tables, m);
          SchemaHasAll(q.tables[j], Items(q), i);
        case Field(b) =>
          assert ItemOk(q.tables, it);
          j :| 0 <= j < |q.tables| && q.tables[j].name == b.table && b.field in q.tables[j].fields;
          SchemaHas(q.tables[j], Items(q), a);
      }
      ColumnsHasPlan(q, n, j, a);
    }
  }

  lemma ItemsStart(q: Query, i: nat)
    requires i < |q.selected|
    ensures i < |Items(q)| && Items(q)[i] == q.selected[i] && q.selected[i] in Items(q)
  {
  }

  lemma {:induction false} ListCovered(q: Query, n: nat)
    requires Resolved(q) && StarsOk(q) && n <= |q.selected|
    ensures Covers(Columns(q, |q.tables|), ExpandedList(q.tables, q.selected[..n]))
  {
    hide Columns, Expanded, Resolved;
    if n > 0 {
      ListCovered(q, n - 1);
      assert StarOk(q.tables, q.selected[n - 1]);
      ItemCovered(q, n - 1);
      assert q.selected[..n][..n - 1] == q.selected[..n - 1];
    }
  }

  // ---------------------------------------------------------------- meaning

  /** The values of attributes for a combination of records. */
  function ValuesOf(q: Query, combo: Combo, attrs: seq<Attr>): Row {
    seq(|attrs|, i requires 0 <= i < |attrs| => ValueIn(q, combo, Col(attrs[i])))
  }

  /** What the query shows: for every combination that satisfies the condition, the values selected. */
  function ShownAnswer(q: Query, attrs: seq<Attr>, cs: seq<Combo>): seq<Row> {
    if cs == [] then []
    else (if Where(q, cs[0]) then [ValuesOf(q, cs[0], attrs)] else []) + ShownAnswer(q, attrs, cs[1..])
  }

  lemma ShownIsValues(q: Query, combo: Combo, attrs: seq<Attr>)
    requires Resolved(q) && |combo| == |q.tables| && Covers(Columns(q, |q.tables|), attrs)
    ensures Shown(Flat(q, combo), NumbersOf(Columns(q, |q.tables|), attrs)) == ValuesOf(q, combo, attrs)
  {
    hide Flat, Columns, ValueIn, Column, Resolved;
    var s := Columns(q, |q.tables|);
    forall i | 0 <= i < |attrs|
      ensures Column(s, attrs[i]) < |Flat(q, combo)| && Flat(q, combo)[Column(s, attrs[i])] == ValueIn(q, combo, Col(attrs[i]))
    {
      ColumnValue(q, combo, attrs[i]);
    }
  }

  lemma {:induction false} ShownAnswerIs(q: Query, attrs: seq<Attr>, cs: seq<Combo>)
    requires Resolved(q) && Covers(Columns(q, |q.tables|), attrs) && forall i :: 0 <= i < |cs| ==> |cs[i]| == |q.tables|
    ensures ShownRows(Answer(q, cs), NumbersOf(Columns(q, |q.tables|), attrs)) == ShownAnswer(q, attrs, cs)
  {
    hide Flat, Columns, Shown, ValuesOf, NumbersOf, Where, Resolved, Covers;
    if cs != [] {
      ShownAnswerIs(q, attrs, cs[1..]);
      if Where(q, cs[0]) {
        ShownIsValues(q, cs[0], attrs);
        assert Answer(q, cs)[1..] == Answer(q, cs[1..]);
      } else {
        assert Answer(q, cs) == Answer(q, cs[1..]);
      }
    }
  }

  /**
   The join with its select list, end to end: every combination of records that satisfies the whole
   condition yields the values of the selected attributes, in the order of the nested loops.
   */
  lemma ShownIsSelected(q: Query)
    requires Resolved(q) && StarsOk(q) && |q.tables| > 0
    ensures var attrs := ExpandedList(q.tables, q.selected);
            ShownRows(Joined(q, |q.tables|), NumbersOf(Columns(q, |q.tables|), attrs)) == ShownAnswer(q, attrs, Combos(q.tables, |q.tables|))
  {
    SelectIsFilteredProduct(q);
    ListCovered(q, |q.selected|);
    assert q.selected[..|q.selected|] == q.selected;
    ShownAnswerIs(q, ExpandedList(q.tables, q.selected), Combos(q.tables, |q.tables|));
  }
}
