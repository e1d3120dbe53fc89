/** A query from the tables to the rows shown: join, select list, ORDER BY and GROUP BY. */
module SelectQuery {
  import opened SelectTypes
  import opened SelectPlan
  import opened SelectJoin
  import opened SelectMeaning
  import opened SelectList
  import opened RowOrder
  import opened RowSorting
  import opened RowGrouping
  import opened TupleSets

  /** The item of the select list as far as columns are concerned. */
  function ItemOf(it: SelectItem): Item {
    if it.field == "*" then (if it.table.Of? then TableStar(it.table.table) else Star)
    else Field(Attr(if it.table.Of? then it.table.table else "", it.field))
  }

  /** A query and what is made of its rows. */
  datatype Statement = Statement(tables: seq<Table>, conds: seq<Condition>, items: seq<SelectItem>, order: seq<OrderAttr>, group: seq<Attr>)

  function QueryOf(t: Statement): Query {
    Query(t.tables, t.conds, seq(|t.items|, i requires 0 <= i < |t.items| => ItemOf(t.items[i])))
  }

  /** The columns and rows before they are sorted. A single table also shows the columns its conditions need. */
  function RawSchema(q: Query): Schema {
    if |q.tables| > 1 then ExpandedList(q.tables, q.selected) else Columns(q, |q.tables|)
  }

  function RawRows(q: Query): seq<Row> {
    CombosSizes(q.tables, |q.tables|);
    var cs := Combos(q.tables, |q.tables|);
    if |q.tables| > 1 then ShownAnswer(q, RawSchema(q), cs) else Answer(q, cs)
  }

  lemma {:induction false} ShownSquare(q: Query, attrs: seq<Attr>, cs: seq<Combo>)
    ensures Square(attrs, ShownAnswer(q, attrs, cs))
  {
    if cs != [] {
      ShownSquare(q, attrs, cs[1..]);
    }
  }

  lemma {:induction false} AnswerSquare(q: Query, cs: seq<Combo>)
    requires forall i :: 0 <= i < |cs| ==> |cs[i]| == |q.tables|
    ensures Square(Columns(q, |q.tables|), Answer(q, cs))
  {
    if cs != [] {
      FlatSize(q, cs[0]);
      AnswerSquare(q, cs[1..]);
    }
  }

  lemma RawSquare(q: Query)
    ensures Square(RawSchema(q), RawRows(q))
  {
    CombosSizes(q.tables, |q.tables|);
    var cs := Combos(q.tables, |q.tables|);
    ShownSquare(q, RawSchema(q), cs);
    AnswerSquare(q, cs);
  }

  /** The rows of a query before they are sorted. */
  method RawSet(q: Query) returns (rows: seq<Row>, columns: Schema)
    requires |q.tables| > 0 && SelectMeaning.Resolved(q) && StarsOk(q)
    ensures rows == RawRows(q) && columns == RawSchema(q)
  {
    hide Joined, Columns, Combos, SelectMeaning.Resolved, ShownAnswer, Answer;
    if |q.tables| > 1 {
      rows, columns := SelectShown(q);
    } else {
      rows, columns := SelectRows(q);
      SelectIsFilteredProduct(q);
    }
  }

  lemma {:induction false} ExpandedHas(tables: seq<Table>, items: seq<Item>, i: nat, a: Attr)
    requires i < |items| && a in Expanded(tables, items[i])
    ensures a in ExpandedList(tables, items)
  {
    var n := |items| - 1;
    if i < n {
      ExpandedHas(tables, items[..n], i, a);
    }
  }

  /** Every attribute that an item of the select list stands for is among the columns that are sorted and grouped. */
  lemma RawHas(q: Query, i: nat, a: Attr)
    requires |q.tables| > 0 && SelectMeaning.Resolved(q) && StarsOk(q) && i < |q.selected| && a in Expanded(q.tables, q.selected[i])
    ensures a in RawSchema(q)
  {
    hide Expanded, Columns, SelectMeaning.Resolved, ExpandedList;
    if |q.tables| > 1 {
      ExpandedHas(q.tables, q.selected, i, a);
    } else {
      ItemCovered(q, i);
    }
  }

  /** A table is not created without fields. */
  predicate HaveFields(tables: seq<Table>) {
    forall i :: 0 <= i < |tables| ==> tables[i].fields != []
  }

  lemma FoundLocation(schema: Schema, item: SelectItem, a: Attr)
    requires a in schema && Matches(item, a)
    ensures Location(schema, item) < |schema|
  {
    var j :| 0 <= j < |schema| && schema[j] == a;
  }

  /** Some attribute that an item stands for fits it. */
  lemma ItemStandsFor(tables: seq<Table>, item: SelectItem) returns (a: Attr)
    requires |tables| > 0 && HaveFields(tables) && StarOk(tables, ItemOf(item))
    ensures a in Expanded(tables, ItemOf(item)) && Matches(item, a)
  {
    if item.field == "*" {
      var t := if item.table.Of? then tables[TableNo(tables, item.table.table)] else tables[0];
      a := Attr(t.name, t.fields[0]);
      assert AllColumns(t)[0] == a;
      AllOfHas(tables, 0);
    } else {
      a := Attr(if item.table.Of? then item.table.table else "", item.field);
    }
  }

  /** In a query that is resolved every item is found among the columns. */
  lemma ItemsFindable(t: Statement)
    requires |t.tables| > 0 && HaveFields(t.tables) && SelectMeaning.Resolved(QueryOf(t)) && StarsOk(QueryOf(t))
    ensures Findable(RawSchema(QueryOf(t)), t.items)
  {
    hide SelectMeaning.Resolved, RawSchema, Location, Expanded, HaveFields;
    var q := QueryOf(t);
    forall i | 0 <= i < |t.items| ensures Location(RawSchema(q), t.items[i]) < |RawSchema(q)| {
      assert q.selected[i] == ItemOf(t.items[i]) && StarOk(q.tables, q.selected[i]);
      var a := ItemStandsFor(t.tables, t.items[i]);
      RawHas(q, i, a);
      FoundLocation(RawSchema(q), t.items[i], a);
    }
  }

  lemma OneTypedKept(columns: seq<nat>, was: seq<Row>, p: seq<nat>, s: seq<Row>)
    requires Rearranged(was, p, s) && OneTyped(columns, was)
    ensures OneTyped(columns, s)
  {
    hide HasColumns, OneType;
  }

  lemma SquareKept(schema: Schema, was: seq<Row>, p: seq<nat>, s: seq<Row>)
    requires Rearranged(was, p, s) && Square(schema, was)
    ensures Square(schema, s)
  {
    forall r | r in s ensures |r| == |schema| {
      var i :| 0 <= i < |s| && s[i] == r;
      assert was[p[i]] in was;
    }
  }

  /** What ORDER BY makes of the rows: an attribute that is not shown is not complained about, and nothing is sorted. */
  ghost predicate Ordered(schema: Schema, order: seq<OrderAttr>, was: seq<Row>, p: seq<nat>, s: seq<Row>) {
    if order != [] && TupleSets.Resolved(schema, order) then Sorted(OrderKeys(schema, order), was, p, s) else s == was
  }

  /** What GROUP BY makes of the rows; `ids` are the numbers of their groups. */
  ghost predicate Regrouped(schema: Schema, t: Statement, was: seq<Row>, ids: seq<nat>, s: seq<Row>)
    requires Square(schema, was) && Findable(schema, t.items) && OneTyped(GroupColumns(schema, t.group), was)
  {
    if forall i :: 0 <= i < |t.items| ==> t.items[i].agg == Plain then s == was
    else |ids| == |was| && Grouped(GroupKeys(GroupColumns(schema, t.group), was), ids, |s|) && GroupRows(schema, t.items, was, ids, s, |s|)
  }

  /**
   A whole query. The rows shown are those of the join or the single table, sorted and then grouped; `mid` are
   the sorted ones. It fails exactly when a star is asked for its maximum or minimum.
   */
  method DoSelect(t: Statement) returns (ok: bool, tuples: TupleSet, ghost p: seq<nat>, ghost mid: seq<Row>, ghost ids: seq<nat>)
    requires |t.tables| > 0 && SelectMeaning.Resolved(QueryOf(t)) && StarsOk(QueryOf(t))
    requires HaveFields(t.tables) && forall i :: 0 <= i < |t.group| ==> t.group[i] in RawSchema(QueryOf(t))
    requires OneTyped(GroupColumns(RawSchema(QueryOf(t)), t.group), RawRows(QueryOf(t)))
    ensures Findable(RawSchema(QueryOf(t)), t.items) && Ordered(RawSchema(QueryOf(t)), t.order, RawRows(QueryOf(t)), p, mid)
    ensures ok <==> forall i :: 0 <= i < |t.items| && StarMisused(t.items[i]) ==> forall j :: 0 <= j < |t.items| ==> t.items[j].agg == Plain
    ensures Square(RawSchema(QueryOf(t)), mid) && OneTyped(GroupColumns(RawSchema(QueryOf(t)), t.group), mid)
    ensures ok ==> Regrouped(RawSchema(QueryOf(t)), t, mid, ids, tuples.tuples)
  {
    hide RawRows, RawSchema, SelectMeaning.Resolved, Sorted, OneTyped, Square, GroupRows, Findable, StarMisused;
    var q := QueryOf(t);
    var rows, columns := RawSet(q);
    RawSquare(q);
    ItemsFindable(t);
    tuples := new TupleSet(columns);
    tuples.tuples := rows;
    p := [];
    if t.order != [] {
      var found;
      found, p := tuples.OrderBy(t.order);
      if found {
        SortedRearranged(OrderKeys(columns, t.order), rows, p, tuples.tuples);
        OneTypedKept(GroupColumns(columns, t.group), rows, p, tuples.tuples);
        SquareKept(columns, rows, p, tuples.tuples);
      }
    }
    mid := tuples.tuples;
    ok, ids := tuples.GroupBy(t.items, t.group, t.tables[0].name);
  }

  /** The count of one column, grouped by another: the code looks for the other among the columns shown, where it is not. */
  lemma GroupNotShown(table: Name, a: Name, b: Name, rows: seq<Row>)
    requires a != "*" && a != b
    ensures var t := Statement([Table(table, [a, b], rows)], [], [SelectItem(Count, Of(table), a)], [], [Attr(table, b)]);
            HaveFields(t.tables) && SelectMeaning.Resolved(QueryOf(t)) && StarsOk(QueryOf(t)) && t.group[0] !in RawSchema(QueryOf(t))
  {
    var t := Statement([Table(table, [a, b], rows)], [], [SelectItem(Count, Of(table), a)], [], [Attr(table, b)]);
    var q := QueryOf(t);
    assert Items(q) == [Field(Attr(table, a))];
    assert t.tables[0].fields[0] == a;
    assert SchemaFor(t.tables[0], Items(q)) == [Attr(table, a)];
    assert Columns(q, 0) == [];
    assert Columns(q, 1) == Columns(q, 0) + SchemaFor(q.tables[0], Items(q));
  }

  lemma SortedRearranged(keys: seq<Key>, was: seq<Row>, p: seq<nat>, s: seq<Row>)
    requires Sorted(keys, was, p, s)
    ensures Rearranged(was, p, s)
  {
  }
}
