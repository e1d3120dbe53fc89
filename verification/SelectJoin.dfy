/** The chain of two-way joins, with conditions that wait until both of their columns are in scope. */
module SelectJoin {
  import opened SelectTypes
  import opened SelectPlan

  /** A condition over column numbers: -1 is a column not in scope, -2 an immediate value. */
  datatype Arbiter = Arbiter(valid: bool, lhs: int, rhs: int, ltv: Cell, rtv: Cell, comp: Comp)

  const MISSING := -1
  const VALUE := -2

  function Side(s: Schema, o: Operand): int {
    match o
    case Imm(_) => VALUE
    case Col(a) => if a in s then Column(s, a) else MISSING
  }

  function Immediate(o: Operand): Cell {
    if o.Imm? then o.cell else TextCell("")
  }

  function ArbiterOf(c: Condition, s: Schema): Arbiter {
    var l, r := Side(s, c.left), Side(s, c.right);
    Arbiter(l != MISSING && r != MISSING, l, r, Immediate(c.left), Immediate(c.right), c.comp)
  }

  /** Looks both sides of a condition up among the columns. */
  method MakeArbiter(c: Condition, s: Schema) returns (a: Arbiter)
    ensures a == ArbiterOf(c, s)
  {
    var lhs, rhs := if c.left.Imm? then VALUE else MISSING, if c.right.Imm? then VALUE else MISSING;
    var i := 0;
    while i < |s|
      invariant i <= |s|
      invariant lhs == Side(s[..i], c.left) && rhs == Side(s[..i], c.right)
    {
      assert s[..i + 1] == s[..i] + [s[i]];
      if c.left.Col? {
        ColumnAppend(s[..i], [s[i]], c.left.attr);
      }
      if c.right.Col? {
        ColumnAppend(s[..i], [s[i]], c.right.attr);
      }
      if lhs == MISSING && c.left == Col(s[i]) {
        lhs := i;
      }
      if rhs == MISSING && c.right == Col(s[i]) {
        rhs := i;
      }
      i := i + 1;
    }
    assert s[..|s|] == s;
    return Arbiter(lhs != MISSING && rhs != MISSING, lhs, rhs, Immediate(c.left), Immediate(c.right), c.comp);
  }

  function Fetch(t: Row, n: int, v: Cell): Cell {
    if 0 <= n < |t| then t[n] else v
  }

  /** An arbiter that misses a column accepts everything. */
  predicate Judge(a: Arbiter, t: Row) {
    !a.valid || JudgeHolds(a.comp, Fetch(t, a.lhs, a.ltv), Fetch(t, a.rhs, a.rtv))
  }

  predicate Accepts(arbiters: seq<Arbiter>, t: Row) {
    forall i :: 0 <= i < |arbiters| ==> Judge(arbiters[i], t)
  }

  function ArbitersFor(conds: seq<Condition>, s: Schema): (r: seq<Arbiter>)
    ensures |r| == |conds| && forall i :: 0 <= i < |r| ==> r[i] == ArbiterOf(conds[i], s)
  {
    seq(|conds|, i requires 0 <= i < |conds| => ArbiterOf(conds[i], s))
  }

  // ---------------------------------------------------------------- the nested loops

  /** The tuple under construction and the tuples found, both changed in place. */
  class TupleBuffer {
    var values: Row

    constructor ()
      ensures values == []
    {
      values := [];
    }

    method Add(c: Cell)
      modifies this
      ensures values == old(values) + [c]
    {
      values := values + [c];
    }

    method PopBack()
      requires values != []
      modifies this
      ensures values == old(values)[..|old(values)| - 1]
    {
      values := values[..|values| - 1];
    }
  }

  class TupleList {
    var rows: seq<Row>

    constructor ()
      ensures rows == []
    {
      rows := [];
    }

    method Add(t: Row)
      modifies this
      ensures rows == old(rows) + [t]
    {
      rows := rows + [t];
    }
  }

  /** What the recursion finds below a partial tuple. */
  function Found(ts: seq<seq<Row>>, depth: nat, arbiters: seq<Arbiter>, prefix: Row): seq<Row>
    requires depth <= |ts|
    decreases |ts| - depth, 0
  {
    if depth == |ts| then (if Accepts(arbiters, prefix) then [prefix] else [])
    else FoundIn(ts, depth, arbiters, prefix, |ts[depth]|)
  }

  /** The same for the first `n` tuples of the set at this depth. */
  function FoundIn(ts: seq<seq<Row>>, depth: nat, arbiters: seq<Arbiter>, prefix: Row, n: nat): seq<Row>
    requires depth < |ts| && n <= |ts[depth]|
    decreases |ts| - depth - 1, 1, n
  {
    if n == 0 then [] else FoundIn(ts, depth, arbiters, prefix, n - 1) + Found(ts, depth + 1, arbiters, prefix + ts[depth][n - 1])
  }

  /** Extends the current tuple in all ways, tests complete tuples, and leaves the current tuple as it was. */
  method DfsCartesian(ts: seq<seq<Row>>, depth: nat, current: TupleBuffer, arbiters: seq<Arbiter>, output: TupleList)
    requires depth <= |ts|
    modifies current, output
    ensures current.values == old(current.values)
    ensures output.rows == old(output.rows) + Found(ts, depth, arbiters, old(current.values))
    decreases |ts| - depth
  {
    ghost var prefix, before := current.values, output.rows;
    if depth == |ts| {
      for i := 0 to |arbiters|
        invariant current.values == prefix && output.rows == before
        invariant forall k :: 0 <= k < i ==> Judge(arbiters[k], prefix)
      {
        if !Judge(arbiters[i], current.values) {
          return;
        }
      }
      output.Add(current.values);
      return;
    }
    for n := 0 to |ts[depth]|
      invariant current.values == prefix && output.rows == before + FoundIn(ts, depth, arbiters, prefix, n)
    {
      var it := ts[depth][n];
      for k := 0 to |it|
        invariant current.values == prefix + it[..k] && output.rows == before + FoundIn(ts, depth, arbiters, prefix, n)
      {
        current.Add(it[k]);
        assert it[..k + 1] == it[..k] + [it[k]];
      }
      assert it[..|it|] == it;
      DfsCartesian(ts, depth + 1, current, arbiters, output);
      for k := 0 to |it|
        invariant current.values == (prefix + it)[..|prefix| + |it| - k]
        invariant output.rows == before + FoundIn(ts, depth, arbiters, prefix, n + 1)
      {
        current.PopBack();
      }
    }
  }

  // ---------------------------------------------------------------- two tables at a time

  /** All concatenations of a row of `a` and a row of `b`, the rows of `a` in the outer loop. */
  function Pairs(a: seq<Row>, b: seq<Row>): seq<Row> {
    if a == [] then [] else Behind(a[0], b) + Pairs(a[1..], b)
  }

  function Behind(x: Row, b: seq<Row>): seq<Row> {
    if b == [] then [] else [x + b[0]] + Behind(x, b[1..])
  }

  function Keep(s: seq<Row>, arbiters: seq<Arbiter>): seq<Row> {
    if s == [] then [] else (if Accepts(arbiters, s[0]) then [s[0]] else []) + Keep(s[1..], arbiters)
  }

  lemma {:induction false} KeepConcat(s: seq<Row>, t: seq<Row>, arbiters: seq<Arbiter>)
    ensures Keep(s + t, arbiters) == Keep(s, arbiters) + Keep(t, arbiters)
  {
    if s == [] {
      assert s + t == t;
    } else {
      assert (s + t)[1..] == s[1..] + t;
      KeepConcat(s[1..], t, arbiters);
    }
  }

  /** For two sets the recursion is the two nested loops with a test inside. */
  lemma FoundPairs(a: seq<Row>, b: seq<Row>, arbiters: seq<Arbiter>)
    ensures Found([a, b], 0, arbiters, []) == Keep(Pairs(a, b), arbiters)
  {
    FoundOuter(a, b, arbiters, |a|);
    assert a[..|a|] == a;
  }

  lemma {:induction false} FoundOuter(a: seq<Row>, b: seq<Row>, arbiters: seq<Arbiter>, n: nat)
    requires n <= |a|
    ensures FoundIn([a, b], 0, arbiters, [], n) == Keep(Pairs(a[..n], b), arbiters)
  {
    hide Behind, Accepts;
    if n > 0 {
      FoundOuter(a, b, arbiters, n - 1);
      FoundInner(a, b, arbiters, [] + a[n - 1], |b|);
      assert [] + a[n - 1] == a[n - 1] && b[..|b|] == b;
      assert a[..n] == a[..n - 1] + [a[n - 1]];
      PairsSnoc(a[..n - 1], a[n - 1], b);
      KeepConcat(Pairs(a[..n - 1], b), Behind(a[n - 1], b), arbiters);
    }
  }

  lemma {:induction false} FoundInner(a: seq<Row>, b: seq<Row>, arbiters: seq<Arbiter>, x: Row, n: nat)
    requires n <= |b|
    ensures FoundIn([a, b], 1, arbiters, x, n) == Keep(Behind(x, b[..n]), arbiters)
  {
    if n > 0 {
      FoundInner(a, b, arbiters, x, n - 1);
      assert b[..n] == b[..n - 1] + [b[n - 1]];
      BehindSnoc(x, b[..n - 1], b[n - 1]);
      KeepConcat(Behind(x, b[..n - 1]), [x + b[n - 1]], arbiters);
      KeepOne(x + b[n - 1], arbiters);
    }
  }

  lemma KeepOne(x: Row, arbiters: seq<Arbiter>)
    ensures Keep([x], arbiters) == if Accepts(arbiters, x) then [x] else []
  {
    assert [x][1..] == [];
  }

  lemma {:induction false} BehindSnoc(x: Row, b: seq<Row>, y: Row)
    ensures Behind(x, b + [y]) == Behind(x, b) + [x + y]
  {
    if b == [] {
      assert b + [y] == [y] && [y][1..] == [];
    } else {
      assert (b + [y])[1..] == b[1..] + [y];
      BehindSnoc(x, b[1..], y);
    }
  }

  lemma {:induction false} PairsSnoc(a: seq<Row>, x: Row, b: seq<Row>)
    ensures Pairs(a + [x], b) == Pairs(a, b) + Behind(x, b)
  {
    if a == [] {
      assert a + [x] == [x] && [x][1..] == [];
    } else {
      assert (a + [x])[1..] == a[1..] + [x];
      PairsSnoc(a[1..], x, b);
      assert Behind(a[0], b) + (Pairs(a[1..], b) + Behind(x, b)) == (Behind(a[0], b) + Pairs(a[1..], b)) + Behind(x, b);
    }
  }

  // ---------------------------------------------------------------- the whole chain

  /** Columns of the first `k` tables. */
  function Columns(q: Query, k: nat): Schema
    requires k <= |q.tables|
  {
    if k == 0 then [] else Columns(q, k - 1) + SchemaFor(q.tables[k - 1], Items(q))
  }

  /** What the executor collects columns for: the select list and then the attributes of the conditions. */
  function Items(q: Query): seq<Item> {
    q.selected + CondItems(q.conds)
  }

  function CondItems(conds: seq<Condition>): seq<Item> {
    if conds == [] then [] else CondItems(conds[..|conds| - 1]) + OperandItem(conds[|conds| - 1].left) + OperandItem(conds[|conds| - 1].right)
  }

  function OperandItem(o: Operand): seq<Item> {
    if o.Col? then [Field(o.attr)] else []
  }

  /** The scanned rows of table `j`. */
  function TableRows(q: Query, j: nat): seq<Row>
    requires j < |q.tables|
  {
    var t := q.tables[j];
    Scan(t, SchemaFor(t, Items(q)), LocalConds(q.conds, t.name), t.records)
  }

  /** The rows after joining the first `k` tables. */
  function Joined(q: Query, k: nat): seq<Row>
    requires 1 <= k <= |q.tables|
  {
    if k == 1 then TableRows(q, 0)
    else Keep(Pairs(Joined(q, k - 1), TableRows(q, k - 1)), ArbitersFor(Unused(q), Columns(q, k)))
  }

  /** The conditions that no table took as a filter. */
  function Unused(q: Query): seq<Condition> {
    UnusedOf(q.conds, q.tables)
  }

  predicate Taken(c: Condition, tables: seq<Table>) {
    exists j :: 0 <= j < |tables| && LocalTo(c, tables[j].name)
  }

  function UnusedOf(conds: seq<Condition>, tables: seq<Table>): seq<Condition> {
    if conds == [] then [] else UnusedOf(conds[..|conds| - 1], tables) + (if Taken(conds[|conds| - 1], tables) then [] else [conds[|conds| - 1]])
  }

  /** Plans and scans every table; conditions that serve as filters of some table are marked. */
  method ScanTables(q: Query, used: array<bool>) returns (sets: seq<seq<Row>>, schemas: seq<Schema>)
    requires used.Length == |q.conds| && forall i :: 0 <= i < |q.conds| ==> !used[i]
    modifies used
    ensures |sets| == |schemas| == |q.tables|
    ensures forall i :: 0 <= i < |q.tables| ==> sets[i] == TableRows(q, i) && schemas[i] == SchemaFor(q.tables[i], Items(q))
    ensures forall i :: 0 <= i < |q.conds| ==> used[i] == Taken(q.conds[i], q.tables)
  {
    hide TableRows, SchemaFor, Items, Taken, LocalTo;
    sets, schemas := [], [];
    NoneTaken(q);
    for j := 0 to |q.tables|
      invariant |sets| == |schemas| == j
      invariant forall i :: 0 <= i < j ==> sets[i] == TableRows(q, i) && schemas[i] == SchemaFor(q.tables[i], Items(q))
      invariant forall i :: 0 <= i < |q.conds| ==> used[i] == Taken(q.conds[i], q.tables[..j])
    {
      var schema, filters := CreateSelectTableExecutor(q.tables[j], Items(q), q.conds, used);
      forall i | 0 <= i < |q.conds| ensures used[i] == Taken(q.conds[i], q.tables[..j + 1]) {
        TakenMore(q.conds[i], q.tables, j);
      }
      TableRowsAre(q, j);
      var found := Execute(q.tables[j], schema, filters);
      sets, schemas := sets + [found], schemas + [schema];
    }
    assert q.tables[..|q.tables|] == q.tables;
  }

  lemma NoneTaken(q: Query)
    ensures forall i :: 0 <= i < |q.conds| ==> !Taken(q.conds[i], q.tables[..0])
  {
  }

  lemma TableRowsAre(q: Query, j: nat)
    requires j < |q.tables|
    ensures TableRows(q, j) == Scan(q.tables[j], SchemaFor(q.tables[j], Items(q)), LocalConds(q.conds, q.tables[j].name), q.tables[j].records)
  {
  }

  /** Plans and scans every table, then joins them two at a time from the left. */
  method SelectRows(q: Query) returns (rows: seq<Row>, columns: Schema)
    requires |q.tables| > 0
    ensures rows == Joined(q, |q.tables|) && columns == Columns(q, |q.tables|)
  {
    hide TableRows, SchemaFor, Items, Taken, Found, Pairs, Keep, ArbitersFor;
    var used := new bool[|q.conds|](i => false);
    var sets, schemas := ScanTables(q, used);
    rows, columns := sets[0], schemas[0];
    assert Columns(q, 1) == Columns(q, 0) + schemas[0];
    for k := 1 to |q.tables|
      invariant rows == Joined(q, k) && columns == Columns(q, k)
      invariant forall i :: 0 <= i < |q.conds| ==> used[i] == Taken(q.conds[i], q.tables)
    {
      columns := columns + schemas[k];
      var arbiters := CollectArbiters(q, used, columns);
      var current := new TupleBuffer();
      var output := new TupleList();
      DfsCartesian([rows, sets[k]], 0, current, arbiters, output);
      FoundPairs(rows, sets[k], arbiters);
      rows := output.rows;
    }
  }

  lemma TakenMore(c: Condition, tables: seq<Table>, j: nat)
    requires j < |tables|
    ensures Taken(c, tables[..j + 1]) <==> Taken(c, tables[..j]) || LocalTo(c, tables[j].name)
  {
    var a, b := tables[..j], tables[..j + 1];
    if Taken(c, a) {
      var i :| 0 <= i < |a| && LocalTo(c, a[i].name);
      assert LocalTo(c, b[i].name);
    }
    if LocalTo(c, tables[j].name) {
      assert LocalTo(c, b[j].name);
    }
    if Taken(c, b) && !LocalTo(c, tables[j].name) {
      var i :| 0 <= i < |b| && LocalTo(c, b[i].name);
      assert LocalTo(c, a[i].name);
    }
  }

  /** The arbiters of the conditions not marked, for the columns in scope. */
  method CollectArbiters(q: Query, used: array<bool>, columns: Schema) returns (arbiters: seq<Arbiter>)
    requires used.Length == |q.conds| && forall i :: 0 <= i < |q.conds| ==> used[i] == Taken(q.conds[i], q.tables)
    ensures arbiters == ArbitersFor(Unused(q), columns)
  {
    arbiters := [];
    for i := 0 to |q.conds|
      invariant arbiters == ArbitersFor(UnusedOf(q.conds[..i], q.tables), columns)
    {
      assert q.conds[..i + 1][..i] == q.conds[..i];
      if !used[i] {
        var a := MakeArbiter(q.conds[i], columns);
        arbiters := arbiters + [a];
      }
    }
    assert q.conds[..|q.conds|] == q.conds;
  }
}
