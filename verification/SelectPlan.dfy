/** What the executor asks of each table: which columns, which conditions. */
module SelectPlan {
  import opened SelectTypes

  /** Number of the first field called `f`. */
  function FieldNo(fields: seq<Name>, f: Name): (i: nat)
    ensures i <= |fields|
    ensures f in fields <==> i < |fields|
    ensures i < |fields| ==> fields[i] == f
  {
    if fields == [] || fields[0] == f then 0 else 1 + FieldNo(fields[1..], f)
  }

  /** Number of the first column called `a`. */
  function Column(s: Schema, a: Attr): (i: nat)
    ensures i <= |s|
    ensures a in s <==> i < |s|
    ensures i < |s| ==> s[i] == a
  {
    if s == [] || s[0] == a then 0 else 1 + Column(s[1..], a)
  }

  /** Appending columns does not move the ones that were there. */
  lemma {:induction false} ColumnAppend(s: Schema, t: Schema, a: Attr)
    ensures Column(s + t, a) == if a in s then Column(s, a) else |s| + Column(t, a)
  {
    if s == [] {
      assert s + t == t;
    } else if s[0] != a {
      assert (s + t)[1..] == s[1..] + t;
      ColumnAppend(s[1..], t, a);
    }
  }

  // ---------------------------------------------------------------- columns of one table

  function AddIfNotExists(s: Schema, a: Attr): Schema {
    if a in s then s else s + [a]
  }

  function AllColumns(t: Table): (s: Schema)
    ensures |s| == |t.fields| && forall i :: 0 <= i < |s| ==> s[i] == Attr(t.name, t.fields[i])
  {
    seq(|t.fields|, i requires 0 <= i < |t.fields| => Attr(t.name, t.fields[i]))
  }

  /** The columns that the items ask of table `t`, in the order in which they are asked for. */
  function SchemaFor(t: Table, items: seq<Item>): Schema {
    if items == [] then []
    else
      var s := SchemaFor(t, items[..|items| - 1]);
      match items[|items| - 1]
      case Star => s + AllColumns(t)
      case TableStar(n) => if n == t.name then s + AllColumns(t) else s
      case Field(a) => if a.table == t.name then AddIfNotExists(s, a) else s
  }

  /** Every attribute asked of the table gets a column. */
  lemma {:induction false} SchemaHas(t: Table, items: seq<Item>, a: Attr)
    requires Field(a) in items && a.table == t.name
    ensures a in SchemaFor(t, items)
  {
    var n := |items| - 1;
    if items[n] != Field(a) {
      SchemaHas(t, items[..n], a);
    }
  }

  /** An item that can be answered. */
  predicate ItemOk(tables: seq<Table>, it: Item) {
    it.Field? ==> exists j :: 0 <= j < |tables| && tables[j].name == it.attr.table && it.attr.field in tables[j].fields
  }

  predicate DistinctNames(tables: seq<Table>) {
    forall i, j :: 0 <= i < j < |tables| ==> tables[i].name != tables[j].name
  }

  /** All columns of the plan for `t` are fields of `t`. */
  lemma {:induction false} SchemaOwn(tables: seq<Table>, j: nat, items: seq<Item>)
    requires j < |tables| && DistinctNames(tables) && forall i :: 0 <= i < |items| ==> ItemOk(tables, items[i])
    ensures forall a :: a in SchemaFor(tables[j], items) ==> a.table == tables[j].name && a.field in tables[j].fields
  {
    if items != [] {
      var n := |items| - 1;
      SchemaOwn(tables, j, items[..n]);
      assert ItemOk(tables, items[n]);
      if items[n].Field? && items[n].attr.table == tables[j].name {
        var i :| 0 <= i < |tables| && tables[i].name == items[n].attr.table && items[n].attr.field in tables[i].fields;
        assert i == j;
      }
    }
  }

  // ---------------------------------------------------------------- conditions of one table

  predicate OfTable(o: Operand, n: Name) {
    o.Imm? || o.attr.table == n
  }

  /** The condition can be decided on table `n` alone. */
  predicate LocalTo(c: Condition, n: Name) {
    OfTable(c.left, n) && OfTable(c.right, n)
  }

  /** The condition needs two tables. */
  predicate Crosses(c: Condition) {
    c.left.Col? && c.right.Col? && c.left.attr.table != c.right.attr.table
  }

  /** The conditions that are local to table `n`, in order. */
  function LocalConds(conds: seq<Condition>, n: Name): seq<Condition> {
    if conds == [] then []
    else LocalConds(conds[..|conds| - 1], n) + (if LocalTo(conds[|conds| - 1], n) then [conds[|conds| - 1]] else [])
  }

  function CrossConds(conds: seq<Condition>): seq<Condition> {
    if conds == [] then []
    else CrossConds(conds[..|conds| - 1]) + (if Crosses(conds[|conds| - 1]) then [conds[|conds| - 1]] else [])
  }

  lemma {:induction false} LocalCondsHas(conds: seq<Condition>, n: Name, c: Condition)
    ensures c in LocalConds(conds, n) <==> c in conds && LocalTo(c, n)
  {
    if conds != [] {
      LocalCondsHas(conds[..|conds| - 1], n, c);
      assert conds == conds[..|conds| - 1] + [conds[|conds| - 1]];
    }
  }

  lemma {:induction false} CrossCondsHas(conds: seq<Condition>, c: Condition)
    ensures c in CrossConds(conds) <==> c in conds && Crosses(c)
  {
    if conds != [] {
      CrossCondsHas(conds[..|conds| - 1], c);
      assert conds == conds[..|conds| - 1] + [conds[|conds| - 1]];
    }
  }

  /** Plans the scan of one table: its columns and its filters; conditions used as filters are marked. */
  method CreateSelectTableExecutor(t: Table, items: seq<Item>, conds: seq<Condition>, used: array<bool>) returns (schema: Schema, filters: seq<Condition>)
    requires used.Length == |conds|
    modifies used
    ensures schema == SchemaFor(t, items) && filters == LocalConds(conds, t.name)
    ensures forall i :: 0 <= i < |conds| ==> used[i] == (old(used[i]) || LocalTo(conds[i], t.name))
  {
    schema := [];
    for k := 0 to |items|
      invariant schema == SchemaFor(t, items[..k])
    {
      assert items[..k + 1][..k] == items[..k];
      match items[k]
      case Star => schema := schema + AllColumns(t);
      case TableStar(n) =>
        if n == t.name {
          schema := schema + AllColumns(t);
        }
      case Field(a) =>
        if a.table == t.name {
          schema := AddIfNotExists(schema, a);
        }
    }
    assert items[..|items|] == items;
    filters := [];
    for k := 0 to |conds|
      invariant filters == LocalConds(conds[..k], t.name)
      invariant forall i :: 0 <= i < |conds| ==> used[i] == (old(used[i]) || (i < k && LocalTo(conds[i], t.name)))
    {
      assert conds[..k + 1][..k] == conds[..k];
      if LocalTo(conds[k], t.name) {
        used[k] := true;
        filters := filters + [conds[k]];
      }
    }
    assert conds[..|conds|] == conds;
  }

  // ---------------------------------------------------------------- scanning one table

  function OperandIn(t: Table, r: Row, o: Operand): Cell {
    match o
    case Imm(c) => c
    case Col(a) => if FieldNo(t.fields, a.field) < |r| then r[FieldNo(t.fields, a.field)] else TextCell("")
  }

  predicate FilterOk(t: Table, r: Row, c: Condition) {
    FilterHolds(c.comp, OperandIn(t, r, c.left), OperandIn(t, r, c.right))
  }

  /** The record satisfies every filter. */
  predicate Passes(t: Table, r: Row, filters: seq<Condition>) {
    forall i :: 0 <= i < |filters| ==> FilterOk(t, r, filters[i])
  }

  method Filter(t: Table, r: Row, filters: seq<Condition>) returns (ok: bool)
    ensures ok == Passes(t, r, filters)
  {
    for i := 0 to |filters|
      invariant forall k :: 0 <= k < i ==> FilterOk(t, r, filters[k])
    {
      if !FilterOk(t, r, filters[i]) {
        return false;
      }
    }
    return true;
  }

  /** The cells of a record that the schema asks for. */
  function Project(t: Table, schema: Schema, r: Row): (p: Row)
    ensures |p| == |schema|
    ensures forall i :: 0 <= i < |p| ==> p[i] == OperandIn(t, r, Col(schema[i]))
  {
    seq(|schema|, i requires 0 <= i < |schema| => OperandIn(t, r, Col(schema[i])))
  }

  function Scan(t: Table, schema: Schema, filters: seq<Condition>, records: seq<Row>): seq<Row> {
    if records == [] then []
    else (if Passes(t, records[0], filters) then [Project(t, schema, records[0])] else []) + Scan(t, schema, filters, records[1..])
  }

  /** Executes the scan of one table. */
  method Execute(t: Table, schema: Schema, filters: seq<Condition>) returns (tuples: seq<Row>)
    ensures tuples == Scan(t, schema, filters, t.records)
  {
    hide Passes, Project;
    tuples := [];
    var i := 0;
    while i < |t.records|
      invariant i <= |t.records|
      invariant tuples + Scan(t, schema, filters, t.records[i..]) == Scan(t, schema, filters, t.records)
    {
      var ok := Filter(t, t.records[i], filters);
      assert t.records[i..][1..] == t.records[i + 1..];
      if ok {
        tuples := tuples + [Project(t, schema, t.records[i])];
      }
      i := i + 1;
    }
  }
}
