/** ORDER BY and GROUP BY on a set of rows. */
module TupleSets {
  import opened SelectTypes
  import opened SelectPlan
  import opened RowOrder
  import opened RowSorting
  import opened RowGrouping

  datatype OrderAttr = OrderAttr(attr: Attr, desc: bool)

  /** The table that an attribute of the query names, if it names one. */
  datatype Qualifier = AnyTable | Of(table: Name)

  datatype SelectItem = SelectItem(agg: Agg, table: Qualifier, field: Name)

  // ---------------------------------------------------------------- columns meant

  predicate Resolved(schema: Schema, attrs: seq<OrderAttr>) {
    forall i :: 0 <= i < |attrs| ==> attrs[i].attr in schema
  }

  function OrderKeys(schema: Schema, attrs: seq<OrderAttr>): (keys: seq<Key>)
    requires Resolved(schema, attrs)
    ensures |keys| == |attrs|
  {
    seq(|attrs|, i requires 0 <= i < |attrs| => Key(Column(schema, attrs[i].attr), attrs[i].desc))
  }

  predicate Square(schema: Schema, rows: seq<Row>) {
    forall r :: r in rows ==> |r| == |schema|
  }

  lemma OrderKeysFit(schema: Schema, attrs: seq<OrderAttr>, rows: seq<Row>)
    requires Resolved(schema, attrs) && Square(schema, rows)
    ensures AllHaveKeys(OrderKeys(schema, attrs), rows)
  {
    var keys := OrderKeys(schema, attrs);
    forall i | 0 <= i < |rows| ensures HasKeys(keys, rows[i]) {
      assert rows[i] in rows;
      forall k | 0 <= k < |keys| ensures keys[k].column < |rows[i]| {
        assert attrs[k].attr in schema;
      }
    }
  }

  predicate Matches(item: SelectItem, a: Attr) {
    (item.field == "*" || item.field == a.field) && (item.table == AnyTable || item.table == Of(a.table))
  }

  /** The first column that an item of the select list fits. */
  function Location(schema: Schema, item: SelectItem): (i: nat)
    ensures i <= |schema| && (i < |schema| ==> Matches(item, schema[i]))
    ensures forall j :: 0 <= j < i ==> !Matches(item, schema[j])
  {
    if schema == [] || Matches(item, schema[0]) then 0
    else
      assert forall j :: 1 <= j < |schema| ==> schema[1..][j - 1] == schema[j];
      1 + Location(schema[1..], item)
  }

  /** A star may be plain or counted. */
  predicate StarMisused(item: SelectItem) {
    item.field == "*" && item.agg != Plain && item.agg != Count
  }

  function Header(schema: Schema, item: SelectItem, firstTable: Name): Attr
    requires Location(schema, item) < |schema|
  {
    if item.agg == Plain then schema[Location(schema, item)]
    else Attr(if item.table == AnyTable then firstTable else item.table.table, item.field)
  }

  function GroupColumns(schema: Schema, attrs: seq<Attr>): (columns: seq<nat>)
    ensures |columns| == |attrs|
  {
    seq(|attrs|, i requires 0 <= i < |attrs| => Column(schema, attrs[i]))
  }

  lemma {:induction false} MemberOf(rows: seq<Row>, ids: seq<nat>, g: nat, i: nat)
    requires |ids| == |rows| && i < |ids| && ids[i] == g
    ensures rows[i] in Members(rows, ids, g)
  {
    var n := |rows| - 1;
    if i < n {
      MemberOf(rows[..n], ids[..n], g, i);
    }
  }

  /** Every group has a row. */
  lemma GroupHasRow(ks: seq<seq<Cell>>, rows: seq<Row>, ids: seq<nat>, count: nat, g: nat)
    requires Grouped(ks, ids, count) && |rows| == |ks| && g < count
    ensures Members(rows, ids, g) != []
  {
    assert Appears(ids, g);
    var i: nat :| FirstOf(ids, g, i);
    MemberOf(rows, ids, g, i);
  }

  /** Row `t` holds what the items ask of the rows of a group. */
  ghost predicate GroupRow(schema: Schema, items: seq<SelectItem>, members: seq<Row>, t: Row)
    requires members != [] && Square(schema, members)
    requires Findable(schema, items)
  {
    && |t| == |items|
    && forall i :: 0 <= i < |items| ==> Aggregates(members, Location(schema, items[i]), items[i].agg, t[i])
  }

  /** What ORDER BY does to the rows: the bubble sort, stable, and in order if the keys compare rightly. */
  ghost predicate Sorted(keys: seq<Key>, was: seq<Row>, p: seq<nat>, s: seq<Row>) {
    && AllHaveKeys(keys, was)
    && Sorting(keys, was, p, s)
    && s == Bubbled(keys, was, 0)
    && (AllComparable(keys, was) ==> InOrder(keys, s))
  }

  /** What GROUP BY makes of the rows: row `g` of the result is made of the rows with number `g`. */
  ghost predicate GroupRows(schema: Schema, items: seq<SelectItem>, was: seq<Row>, ids: seq<nat>, s: seq<Row>, count: nat)
    requires |ids| == |was| && Square(schema, was) && count <= |s|
    requires Findable(schema, items)
  {
    forall g :: 0 <= g < count ==> Members(was, ids, g) != [] && GroupRow(schema, items, Members(was, ids, g), s[g])
  }

  predicate Findable(schema: Schema, items: seq<SelectItem>) {
    forall i :: 0 <= i < |items| ==> Location(schema, items[i]) < |schema|
  }

  class TupleSet {
    var schema: Schema
    var tuples: seq<Row>

    constructor (s: Schema)
      ensures schema == s && tuples == []
    {
      schema := s;
      tuples := [];
    }

    /**
     Sorts the rows by the attributes. The result is a rearrangement that moves a row past another only
     where the keys demand it, and it is in order whenever the comparison is right on the keys.
     */
    method OrderBy(attrs: seq<OrderAttr>) returns (ok: bool, ghost p: seq<nat>)
      requires Square(schema, tuples)
      modifies this
      ensures schema == old(schema)
      ensures ok <==> Resolved(schema, attrs)
      ensures !ok ==> tuples == old(tuples)
      ensures ok ==> Sorted(OrderKeys(schema, attrs), old(tuples), p, tuples)
    {
      hide AllHaveKeys, Sorting, AllComparable, InOrder, Bubbled;
      p := [];
      var keys: seq<Key> := [];
      for i := 0 to |attrs|
        invariant |keys| == i && schema == old(schema) && tuples == old(tuples)
        invariant forall k :: 0 <= k < i ==> attrs[k].attr in schema && keys[k] == Key(Column(schema, attrs[k].attr), attrs[k].desc)
      {
        var j := FieldIndex(attrs[i].attr);
        if j == -1 {
          assert attrs[i].attr !in schema;
          return false, p;
        }
        keys := keys + [Key(j, attrs[i].desc)];
      }
      assert keys == OrderKeys(schema, attrs);
      OrderKeysFit(schema, attrs, tuples);
      var rows := tuples;
      var a := new Row[|rows|](i requires 0 <= i < |rows| => rows[i]);
      assert a[..] == rows;
      p := BubbleSort(keys, a);
      tuples := a[..];
      return true, p;
    }

    /** The search for a column, from the first on. */
    method FieldIndex(attr: Attr) returns (j: int)
      ensures j == if attr in schema then Column(schema, attr) else -1
    {
      for k := 0 to |schema|
        invariant forall m :: 0 <= m < k ==> schema[m] != attr
      {
        if schema[k] == attr {
          ColumnFirst(schema, attr, k);
          return k;
        }
      }
      return -1;
    }

    /** The first column that an item fits. */
    method LocationIndex(item: SelectItem) returns (j: nat)
      requires Location(schema, item) < |schema|
      ensures j == Location(schema, item)
    {
      j := 0;
      while !Matches(item, schema[j])
        invariant j <= Location(schema, item)
        decreases |schema| - j
      {
        j := j + 1;
      }
    }

    /** The first pass: where the items are, and the columns of the result. */
    method MakeHeaders(items: seq<SelectItem>, firstTable: Name) returns (ok: bool, loc: seq<nat>, headers: Schema)
      requires Findable(schema, items)
      ensures ok <==> forall i :: 0 <= i < |items| ==> !StarMisused(items[i])
      ensures ok ==> |loc| == |items| == |headers|
      ensures ok ==> forall i :: 0 <= i < |items| ==> loc[i] == Location(schema, items[i])
      ensures ok ==> forall i :: 0 <= i < |items| ==> headers[i] == Header(schema, items[i], firstTable)
    {
      hide Location;
      loc, headers := [], [];
      for i := 0 to |items|
        invariant |loc| == i == |headers|
        invariant forall k :: 0 <= k < i ==> !StarMisused(items[k])
        invariant forall k :: 0 <= k < i ==> loc[k] == Location(schema, items[k])
        invariant forall k :: 0 <= k < i ==> headers[k] == Header(schema, items[k], firstTable)
      {
        var item := items[i];
        if StarMisused(item) {
          return false, loc, headers;
        }
        var j := LocationIndex(item);
        loc := loc + [j];
        headers := headers + [if item.agg == Plain then schema[j] else Attr(if item.table == AnyTable then firstTable else item.table.table, item.field)];
      }
      return true, loc, headers;
    }

    /**
     Makes one row of every group of rows with equal keys. A query without aggregates is left as it is,
     whatever it is to be grouped by.
     */
    method GroupBy(items: seq<SelectItem>, groupAttrs: seq<Attr>, firstTable: Name) returns (ok: bool, ghost ids: seq<nat>)
      requires Square(schema, tuples) && OneTyped(GroupColumns(schema, groupAttrs), tuples)
      requires forall i :: 0 <= i < |groupAttrs| ==> groupAttrs[i] in schema
      requires Findable(schema, items)
      modifies this
      ensures (forall i :: 0 <= i < |items| ==> items[i].agg == Plain) ==> ok && schema == old(schema) && tuples == old(tuples)
      ensures !ok <==> exists i :: 0 <= i < |items| && StarMisused(items[i])
      ensures !ok ==> schema == old(schema) && tuples == old(tuples)
      ensures ok && (exists i :: 0 <= i < |items| && items[i].agg != Plain) ==>
                && |schema| == |items|
                && (forall i :: 0 <= i < |items| ==> schema[i] == Header(old(schema), items[i], firstTable))
                && Grouped(GroupKeys(GroupColumns(old(schema), groupAttrs), old(tuples)), ids, |tuples|)
                && GroupRows(old(schema), items, old(tuples), ids, tuples, |tuples|)
    {
      hide Location, Column, Grouped, GroupKeys, GroupRows, OneTyped, StarMisused, Header;
      ids := [];
      var i := 0;
      while i < |items| && items[i].agg == Plain
        invariant 0 <= i <= |items| && forall k :: 0 <= k < i ==> items[k].agg == Plain
      {
        i := i + 1;
      }
      if i == |items| {
        PlainStars(items);
        return true, ids;
      }
      assert items[i].agg != Plain;
      var loc, headers;
      ok, loc, headers := MakeHeaders(items, firstTable);
      if !ok {
        return false, ids;
      }
      var rows;
      rows, ids := MakeGroupRows(items, loc, groupAttrs);
      schema := headers;
      tuples := rows;
      return true, ids;
    }

    /** The second pass, which finds the groups, and the third. */
    method MakeGroupRows(items: seq<SelectItem>, loc: seq<nat>, groupAttrs: seq<Attr>) returns (rows: seq<Row>, ghost ids: seq<nat>)
      requires Square(schema, tuples) && OneTyped(GroupColumns(schema, groupAttrs), tuples)
      requires forall i :: 0 <= i < |groupAttrs| ==> groupAttrs[i] in schema
      requires Findable(schema, items)
      requires |loc| == |items| && forall i :: 0 <= i < |items| ==> loc[i] == Location(schema, items[i])
      ensures Grouped(GroupKeys(GroupColumns(schema, groupAttrs), tuples), ids, |rows|)
      ensures |ids| == |tuples| && GroupRows(schema, items, tuples, ids, rows, |rows|)
    {
      hide Location, Column, Grouped, GroupKeys, GroupRows, Findable, Square;
      var columns: seq<nat> := [];
      for k := 0 to |groupAttrs|
        invariant columns == GroupColumns(schema, groupAttrs)[..k]
      {
        var j := FieldIndex(groupAttrs[k]);
        columns := columns + [j];
      }
      assert columns == GroupColumns(schema, groupAttrs);
      var groupId, groupCount := MakeGroups(columns, tuples);
      ids := groupId[..];
      rows := MakeRows(items, loc, groupId, groupCount, GroupKeys(columns, tuples));
    }

    /** The third pass: one row of each group. */
    method MakeRows(items: seq<SelectItem>, loc: seq<nat>, groupId: array<nat>, groupCount: nat, ghost ks: seq<seq<Cell>>)
      returns (rows: seq<Row>)
      requires Square(schema, tuples) && Findable(schema, items)
      requires |loc| == |items| && forall i :: 0 <= i < |items| ==> loc[i] == Location(schema, items[i])
      requires groupId.Length == |tuples| == |ks| && Grouped(ks, groupId[..], groupCount)
      ensures |rows| == groupCount && GroupRows(schema, items, tuples, groupId[..], rows, groupCount)
    {
      hide Location, Grouped, Members, GroupRow;
      rows := [];
      for g := 0 to groupCount
        invariant |rows| == g && GroupRows(schema, items, tuples, groupId[..], rows, g)
      {
        var members := MembersOf(groupId, g);
        GroupHasRow(ks, tuples, groupId[..], groupCount, g);
        var row := MakeRow(items, loc, members);
        rows := rows + [row];
      }
    }

    method MembersOf(groupId: array<nat>, g: nat) returns (members: seq<Row>)
      requires groupId.Length == |tuples|
      ensures members == Members(tuples, groupId[..], g)
    {
      members := [];
      for j := 0 to |tuples|
        invariant members == Members(tuples[..j], groupId[..j], g)
      {
        MembersAppend(tuples[..j], groupId[..j], tuples[j], groupId[j], g);
        assert tuples[..j + 1] == tuples[..j] + [tuples[j]] && groupId[..j + 1] == groupId[..j] + [groupId[j]];
        if groupId[j] == g {
          members := members + [tuples[j]];
        }
      }
      assert tuples[..|tuples|] == tuples && groupId[..|tuples|] == groupId[..];
    }

    method MakeRow(items: seq<SelectItem>, loc: seq<nat>, members: seq<Row>) returns (row: Row)
      requires members != [] && Square(schema, members) && Findable(schema, items)
      requires |loc| == |items| && forall i :: 0 <= i < |items| ==> loc[i] == Location(schema, items[i])
      ensures GroupRow(schema, items, members, row)
    {
      hide Location, Aggregates, ColumnComparable;
      row := [];
      for j := 0 to |items|
        invariant |row| == j && forall k :: 0 <= k < j ==> Aggregates(members, Location(schema, items[k]), items[k].agg, row[k])
      {
        var c := Aggregate(members, loc[j], items[j].agg);
        row := row + [c];
      }
    }
  }

  lemma PlainStars(items: seq<SelectItem>)
    requires forall i :: 0 <= i < |items| ==> items[i].agg == Plain
    ensures forall i :: 0 <= i < |items| ==> !StarMisused(items[i])
  {
  }

  lemma {:induction false} ColumnFirst(s: Schema, a: Attr, k: nat)
    requires k < |s| && s[k] == a && forall m :: 0 <= m < k ==> s[m] != a
    ensures Column(s, a) == k
  {
    if k > 0 {
      ColumnFirst(s[1..], a, k - 1);
    }
  }
}
