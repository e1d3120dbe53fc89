/** The join computes what the query says: the cross product of the tables, filtered by the whole condition. */
module SelectMeaning {
  import opened SelectTypes
  import opened SelectPlan
  import opened SelectJoin

  /** One record of each of the first tables. */
  type Combo = seq<Row>

  /** All combinations of records of the first `k` tables, the first table in the outermost loop. */
  function Combos(tables: seq<Table>, k: nat): seq<Combo>
    requires k <= |tables|
  {
    if k == 0 then [[]] else Extend(Combos(tables, k - 1), tables[k - 1].records)
  }

  function Extend(cs: seq<Combo>, rs: seq<Row>): seq<Combo> {
    if cs == [] then [] else ExtendOne(cs[0], rs) + Extend(cs[1..], rs)
  }

  function ExtendOne(c: Combo, rs: seq<Row>): seq<Combo> {
    if rs == [] then [] else [c + [rs[0]]] + ExtendOne(c, rs[1..])
  }

  /** Number of the table called `n`. */
  function TableNo(tables: seq<Table>, n: Name): (i: nat)
    ensures i <= |tables|
    ensures forall j :: 0 <= j < i ==> tables[j].name != n
    ensures i < |tables| ==> tables[i].name == n
  {
    if tables == [] || tables[0].name == n then 0 else 1 + TableNo(tables[1..], n)
  }

  /** The value of one side of a condition for a combination of records. */
  function ValueIn(q: Query, combo: Combo, o: Operand): Cell {
    match o
    case Imm(c) => c
    case Col(a) =>
      var j := TableNo(q.tables, a.table);
      if j < |combo| && j < |q.tables| then OperandIn(q.tables[j], combo[j], o) else TextCell("")
  }

  /** A condition on one table is evaluated by the filter of that table, one across tables by an arbiter. */
  predicate CondHolds(q: Query, combo: Combo, c: Condition) {
    if Crosses(c) then JudgeHolds(c.comp, ValueIn(q, combo, c.left), ValueIn(q, combo, c.right))
    else FilterHolds(c.comp, ValueIn(q, combo, c.left), ValueIn(q, combo, c.right))
  }

  /** The whole WHERE conjunction. */
  predicate Where(q: Query, combo: Combo) {
    forall i :: 0 <= i < |q.conds| ==> CondHolds(q, combo, q.conds[i])
  }

  /** The columns of the first tables for a combination of records. */
  function Flat(q: Query, combo: Combo): Row
    requires |combo| <= |q.tables|
  {
    if combo == [] then []
    else
      var k := |combo| - 1;
      Flat(q, combo[..k]) + Project(q.tables[k], SchemaFor(q.tables[k], Items(q)), combo[k])
  }

  /** What the query asks for. */
  function Answer(q: Query, cs: seq<Combo>): seq<Row>
    requires forall i :: 0 <= i < |cs| ==> |cs[i]| == |q.tables|
  {
    if cs == [] then [] else (if Where(q, cs[0]) then [Flat(q, cs[0])] else []) + Answer(q, cs[1..])
  }

  // ---------------------------------------------------------------- what a prefix of the tables decides

  /** Distinct tables, and every attribute belongs to one of them. */
  predicate Resolved(q: Query) {
    && DistinctNames(q.tables)
    && forall i :: 0 <= i < |Items(q)| ==> ItemOk(q.tables, Items(q)[i])
  }

  predicate InScope(q: Query, k: nat, c: Condition)
    requires k <= |q.tables|
  {
    c.left.Col? && c.right.Col? && c.left.attr in Columns(q, k) && c.right.attr in Columns(q, k)
  }

  /** The conditions that the first `k` tables decide, all of them met. */
  predicate WhereUpTo(q: Query, k: nat, combo: Combo)
    requires k <= |q.tables| && |combo| == k
  {
    && (forall j :: 0 <= j < k ==> Passes(q.tables[j], combo[j], LocalConds(q.conds, q.tables[j].name)))
    && (forall c :: c in Unused(q) && InScope(q, k, c) ==> JudgeHolds(c.comp, ValueIn(q, combo, c.left), ValueIn(q, combo, c.right)))
  }

  function AnswerUpTo(q: Query, k: nat, cs: seq<Combo>): seq<Row>
    requires k <= |q.tables| && forall i :: 0 <= i < |cs| ==> |cs[i]| == k
  {
    if cs == [] then [] else (if WhereUpTo(q, k, cs[0]) then [Flat(q, cs[0])] else []) + AnswerUpTo(q, k, cs[1..])
  }

  lemma {:induction false} ExtendSizes(cs: seq<Combo>, rs: seq<Row>, k: nat)
    requires forall i :: 0 <= i < |cs| ==> |cs[i]| == k
    ensures forall i :: 0 <= i < |Extend(cs, rs)| ==> |Extend(cs, rs)[i]| == k + 1
  {
    if cs != [] {
      ExtendOneSizes(cs[0], rs);
      ExtendSizes(cs[1..], rs, k);
    }
  }

  lemma {:induction false} ExtendOneSizes(c: Combo, rs: seq<Row>)
    ensures forall i :: 0 <= i < |ExtendOne(c, rs)| ==> |ExtendOne(c, rs)[i]| == |c| + 1
  {
    if rs != [] {
      ExtendOneSizes(c, rs[1..]);
    }
  }

  lemma {:induction false} CombosSizes(tables: seq<Table>, k: nat)
    requires k <= |tables|
    ensures forall i :: 0 <= i < |Combos(tables, k)| ==> |Combos(tables, k)[i]| == k
  {
    if k > 0 {
      CombosSizes(tables, k - 1);
      ExtendSizes(Combos(tables, k - 1), tables[k - 1].records, k - 1);
    }
  }

  // ---------------------------------------------------------------- columns and values

  lemma {:induction false} FlatSize(q: Query, combo: Combo)
    requires |combo| <= |q.tables|
    ensures |Flat(q, combo)| == |Columns(q, |combo|)|
  {
    if combo != [] {
      FlatSize(q, combo[..|combo| - 1]);
    }
  }

  lemma {:induction false} TableNoOf(tables: seq<Table>, j: nat)
    requires DistinctNames(tables) && j < |tables|
    ensures TableNo(tables, tables[j].name) == j
  {
    if j > 0 {
      assert tables[0].name != tables[j].name;
      TableNoOf(tables[1..], j - 1);
    }
  }

  /** Columns in scope belong to the tables joined so far. */
  lemma {:induction false} ColumnsOwn(q: Query, k: nat, a: Attr)
    requires Resolved(q) && k <= |q.tables| && a in Columns(q, k)
    ensures TableNo(q.tables, a.table) < k
  {
    var t := q.tables[k - 1];
    if a in Columns(q, k - 1) {
      ColumnsOwn(q, k - 1, a);
    } else {
      SchemaOwn(q.tables, k - 1, Items(q));
      assert a in SchemaFor(t, Items(q));
      TableNoOf(q.tables, k - 1);
    }
  }

  /** The column found for an attribute holds the attribute's value. */
  lemma {:induction false} ColumnValue(q: Query, combo: Combo, a: Attr)
    requires Resolved(q) && |combo| <= |q.tables| && a in Columns(q, |combo|)
    ensures Column(Columns(q, |combo|), a) < |Flat(q, combo)|
    ensures Flat(q, combo)[Column(Columns(q, |combo|), a)] == ValueIn(q, combo, Col(a))
  {
    FlatSize(q, combo);
    var k := |combo| - 1;
    var s, t := Columns(q, k), SchemaFor(q.tables[k], Items(q));
    ColumnAppend(s, t, a);
    FlatSize(q, combo[..k]);
    if a in s {
      ColumnValue(q, combo[..k], a);
      ColumnsOwn(q, k, a);
    } else {
      SchemaOwn(q.tables, k, Items(q));
      assert a in t;
      TableNoOf(q.tables, k);
    }
  }

  lemma {:induction false} UnusedHas(conds: seq<Condition>, tables: seq<Table>, c: Condition)
    ensures c in UnusedOf(conds, tables) <==> c in conds && !Taken(c, tables)
  {
    if conds != [] {
      UnusedHas(conds[..|conds| - 1], tables, c);
      assert conds == conds[..|conds| - 1] + [conds[|conds| - 1]];
    }
  }

  /** What an arbiter does in the round that joins table `k`. */
  lemma ArbiterMeans(q: Query, combo: Combo, c: Condition)
    requires Resolved(q) && 0 < |combo| <= |q.tables| && c in Unused(q)
    ensures var k := |combo|;
            Judge(ArbiterOf(c, Columns(q, k)), Flat(q, combo))
            <==> (InScope(q, k, c) ==> JudgeHolds(c.comp, ValueIn(q, combo, c.left), ValueIn(q, combo, c.right)))
  {
    UnusedHas(q.conds, q.tables, c);
    BothColumns(q, c);
    var k := |combo|;
    if InScope(q, k, c) {
      ColumnValue(q, combo, c.left.attr);
      ColumnValue(q, combo, c.right.attr);
    }
  }

  /** Every attribute of a condition is among the items. */
  lemma {:induction false} CondItemsHave(conds: seq<Condition>, i: nat)
    requires i < |conds|
    ensures conds[i].left.Col? ==> Field(conds[i].left.attr) in CondItems(conds)
    ensures conds[i].right.Col? ==> Field(conds[i].right.attr) in CondItems(conds)
  {
    if i < |conds| - 1 {
      CondItemsHave(conds[..|conds| - 1], i);
    }
  }

  /** Where an attribute of a condition lives. */
  lemma Home(q: Query, i: nat, a: Attr) returns (j: nat)
    requires Resolved(q) && i < |q.conds| && (q.conds[i].left == Col(a) || q.conds[i].right == Col(a))
    ensures j < |q.tables| && q.tables[j].name == a.table && Field(a) in Items(q)
  {
    CondItemsHave(q.conds, i);
    assert Field(a) in Items(q);
    var n :| 0 <= n < |Items(q)| && Items(q)[n] == Field(a);
    assert ItemOk(q.tables, Items(q)[n]);
    j :| 0 <= j < |q.tables| && q.tables[j].name == a.table && a.field in q.tables[j].fields;
  }

  /** A condition that no table takes compares columns of two tables. */
  lemma BothColumns(q: Query, c: Condition)
    requires Resolved(q) && c in q.conds && !Taken(c, q.tables) && |q.tables| > 0
    ensures Crosses(c)
  {
    var i :| 0 <= i < |q.conds| && q.conds[i] == c;
    if c.left.Col? {
      var j := Home(q, i, c.left.attr);
      assert !LocalTo(c, q.tables[j].name);
    }
    if c.right.Col? {
      var j := Home(q, i, c.right.attr);
      assert !LocalTo(c, q.tables[j].name);
    }
    assert !LocalTo(c, q.tables[0].name);
  }

  // ---------------------------------------------------------------- one more table

  lemma ColumnsGrow(q: Query, k: nat, c: Condition)
    requires k < |q.tables| && InScope(q, k, c)
    ensures InScope(q, k + 1, c)
  {
  }

  /** Values of attributes in scope do not depend on the record that is added. */
  lemma ValueKept(q: Query, combo: Combo, r: Row, a: Attr)
    requires Resolved(q) && |combo| < |q.tables| && a in Columns(q, |combo|)
    ensures ValueIn(q, combo + [r], Col(a)) == ValueIn(q, combo, Col(a))
  {
    ColumnsOwn(q, |combo|, a);
  }

  lemma WhereShrinks(q: Query, combo: Combo, r: Row)
    requires Resolved(q) && |combo| < |q.tables| && WhereUpTo(q, |combo| + 1, combo + [r])
    ensures WhereUpTo(q, |combo|, combo) && Passes(q.tables[|combo|], r, LocalConds(q.conds, q.tables[|combo|].name))
  {
    hide Passes, Judge, JudgeHolds, ValueIn, InScope;
    var k, more := |combo|, combo + [r];
    forall j | 0 <= j < k ensures Passes(q.tables[j], combo[j], LocalConds(q.conds, q.tables[j].name)) {
      assert more[j] == combo[j];
    }
    assert more[k] == r;
    forall c | c in Unused(q) && InScope(q, k, c) ensures JudgeHolds(c.comp, ValueIn(q, combo, c.left), ValueIn(q, combo, c.right)) {
      ScopeKept(q, combo, r, c);
    }
  }

  lemma ScopeKept(q: Query, combo: Combo, r: Row, c: Condition)
    requires Resolved(q) && |combo| < |q.tables| && InScope(q, |combo|, c)
    ensures InScope(q, |combo| + 1, c)
    ensures ValueIn(q, combo + [r], c.left) == ValueIn(q, combo, c.left) && ValueIn(q, combo + [r], c.right) == ValueIn(q, combo, c.right)
  {
    ColumnsGrow(q, |combo|, c);
    ValueKept(q, combo, r, c.left.attr);
    ValueKept(q, combo, r, c.right.attr);
  }

  /** The arbiters of a round, given that the table's own filters have been applied. */
  lemma RoundMeans(q: Query, combo: Combo)
    requires Resolved(q) && 0 < |combo| <= |q.tables|
    requires forall j :: 0 <= j < |combo| ==> Passes(q.tables[j], combo[j], LocalConds(q.conds, q.tables[j].name))
    ensures Accepts(ArbitersFor(Unused(q), Columns(q, |combo|)), Flat(q, combo)) <==> WhereUpTo(q, |combo|, combo)
  {
    hide Passes, Judge, JudgeHolds, ValueIn, InScope, Flat, Columns, ArbiterOf;
    var k, u := |combo|, Unused(q);
    var aa := ArbitersFor(u, Columns(q, k));
    forall i | 0 <= i < |u|
      ensures Judge(aa[i], Flat(q, combo)) <==> (InScope(q, k, u[i]) ==> JudgeHolds(u[i].comp, ValueIn(q, combo, u[i].left), ValueIn(q, combo, u[i].right)))
    {
      ArbiterMeans(q, combo, u[i]);
    }
    if Accepts(aa, Flat(q, combo)) {
      forall c | c in u && InScope(q, k, c) ensures JudgeHolds(c.comp, ValueIn(q, combo, c.left), ValueIn(q, combo, c.right)) {
        var i :| 0 <= i < |u| && u[i] == c;
        assert Judge(aa[i], Flat(q, combo));
      }
    }
  }

  lemma FlatMore(q: Query, combo: Combo, r: Row)
    requires |combo| < |q.tables|
    ensures Flat(q, combo + [r]) == Flat(q, combo) + Project(q.tables[|combo|], SchemaFor(q.tables[|combo|], Items(q)), r)
  {
    assert (combo + [r])[..|combo|] == combo;
  }

  /** One record more for a combination that is still in: it stays in iff the record passes and the arbiters accept. */
  lemma OneRecord(q: Query, combo: Combo, r: Row)
    requires Resolved(q) && |combo| < |q.tables| && WhereUpTo(q, |combo|, combo)
    ensures WhereUpTo(q, |combo| + 1, combo + [r]) <==>
              && Passes(q.tables[|combo|], r, LocalConds(q.conds, q.tables[|combo|].name))
              && Accepts(ArbitersFor(Unused(q), Columns(q, |combo| + 1)), Flat(q, combo + [r]))
  {
    hide Judge, JudgeHolds, ValueIn, InScope, Flat, Columns, Passes, Accepts;
    var k, more := |combo|, combo + [r];
    if WhereUpTo(q, k + 1, more) {
      WhereShrinks(q, combo, r);
      RoundMeans(q, more);
    }
    if Passes(q.tables[k], r, LocalConds(q.conds, q.tables[k].name)) {
      forall j | 0 <= j < k + 1 ensures Passes(q.tables[j], more[j], LocalConds(q.conds, q.tables[j].name)) {
        assert j < k ==> more[j] == combo[j];
      }
      RoundMeans(q, more);
    }
  }

  lemma {:induction false} AnswerConcat(q: Query, k: nat, cs: seq<Combo>, ds: seq<Combo>)
    requires k <= |q.tables| && (forall i :: 0 <= i < |cs| ==> |cs[i]| == k) && (forall i :: 0 <= i < |ds| ==> |ds[i]| == k)
    ensures AnswerUpTo(q, k, cs + ds) == AnswerUpTo(q, k, cs) + AnswerUpTo(q, k, ds)
  {
    hide WhereUpTo, Flat;
    if cs == [] {
      assert cs + ds == ds;
    } else {
      assert (cs + ds)[1..] == cs[1..] + ds;
      AnswerConcat(q, k, cs[1..], ds);
      var h := if WhereUpTo(q, k, cs[0]) then [Flat(q, cs[0])] else [];
      assert h + (AnswerUpTo(q, k, cs[1..]) + AnswerUpTo(q, k, ds)) == (h + AnswerUpTo(q, k, cs[1..])) + AnswerUpTo(q, k, ds);
    }
  }

  /** What a round keeps of one row. */
  function RoundOf(q: Query, k: nat, x: Row, rows: seq<Row>): seq<Row>
    requires k <= |q.tables|
  {
    Keep(Behind(x, rows), ArbitersFor(Unused(q), Columns(q, k)))
  }

  /** The inner loop of a round. */
  lemma {:induction false} InnerRound(q: Query, combo: Combo, rs: seq<Row>)
    requires Resolved(q) && |combo| < |q.tables|
    ensures forall i :: 0 <= i < |ExtendOne(combo, rs)| ==> |ExtendOne(combo, rs)[i]| == |combo| + 1
    ensures var k := |combo|; var t := q.tables[k];
            AnswerUpTo(q, k + 1, ExtendOne(combo, rs))
            == if WhereUpTo(q, k, combo) then RoundOf(q, k + 1, Flat(q, combo), Scan(t, SchemaFor(t, Items(q)), LocalConds(q.conds, t.name), rs)) else []
  {
    hide WhereUpTo, Flat, Passes, Accepts, SchemaFor, Items, LocalConds, ArbitersFor, Columns, Unused;
    ExtendOneSizes(combo, rs);
    if rs != [] {
      var k, t := |combo|, q.tables[|combo|];
      var more := combo + [rs[0]];
      InnerRound(q, combo, rs[1..]);
      FlatMore(q, combo, rs[0]);
      assert ExtendOne(combo, rs) == [more] + ExtendOne(combo, rs[1..]) && ExtendOne(combo, rs)[1..] == ExtendOne(combo, rs[1..]);
      if WhereUpTo(q, k, combo) {
        OneRecord(q, combo, rs[0]);
        if Passes(t, rs[0], LocalConds(q.conds, t.name)) {
          BehindFirst(Flat(q, combo), Project(t, SchemaFor(t, Items(q)), rs[0]), Scan(t, SchemaFor(t, Items(q)), LocalConds(q.conds, t.name), rs[1..]),
                      ArbitersFor(Unused(q), Columns(q, k + 1)));
        } else {
          assert Scan(t, SchemaFor(t, Items(q)), LocalConds(q.conds, t.name), rs) == Scan(t, SchemaFor(t, Items(q)), LocalConds(q.conds, t.name), rs[1..]);
        }
      } else if WhereUpTo(q, k + 1, more) {
        WhereShrinks(q, combo, rs[0]);
      }
    }
  }

  lemma BehindFirst(x: Row, y: Row, rows: seq<Row>, aa: seq<Arbiter>)
    ensures Keep(Behind(x, [y] + rows), aa) == (if Accepts(aa, x + y) then [x + y] else []) + Keep(Behind(x, rows), aa)
  {
    assert ([y] + rows)[1..] == rows;
    assert ([x + y] + Behind(x, rows))[1..] == Behind(x, rows);
  }

  /** A whole round. */
  lemma {:induction false} OuterRound(q: Query, k: nat, cs: seq<Combo>)
    requires Resolved(q) && k < |q.tables| && forall i :: 0 <= i < |cs| ==> |cs[i]| == k
    ensures forall i :: 0 <= i < |Extend(cs, q.tables[k].records)| ==> |Extend(cs, q.tables[k].records)[i]| == k + 1
    ensures Keep(Pairs(AnswerUpTo(q, k, cs), TableRows(q, k)), ArbitersFor(Unused(q), Columns(q, k + 1)))
            == AnswerUpTo(q, k + 1, Extend(cs, q.tables[k].records))
  {
    hide WhereUpTo, Flat, Accepts, ArbitersFor, Columns, Unused, Scan, SchemaFor;
    var rs := q.tables[k].records;
    ExtendSizes(cs, rs, k);
    if cs != [] {
      OuterRound(q, k, cs[1..]);
      InnerRound(q, cs[0], rs);
      ExtendSizes(cs[1..], rs, k);
      AnswerConcat(q, k + 1, ExtendOne(cs[0], rs), Extend(cs[1..], rs));
      if WhereUpTo(q, k, cs[0]) {
        var x, rest := Flat(q, cs[0]), AnswerUpTo(q, k, cs[1..]);
        assert AnswerUpTo(q, k, cs) == [x] + rest;
        PairsFirst(x, rest, TableRows(q, k), ArbitersFor(Unused(q), Columns(q, k + 1)));
      } else {
        assert AnswerUpTo(q, k, cs) == AnswerUpTo(q, k, cs[1..]);
      }
    }
  }

  lemma PairsFirst(x: Row, rest: seq<Row>, b: seq<Row>, aa: seq<Arbiter>)
    ensures Keep(Pairs([x] + rest, b), aa) == Keep(Behind(x, b), aa) + Keep(Pairs(rest, b), aa)
  {
    assert ([x] + rest)[1..] == rest;
    KeepConcat(Behind(x, b), Pairs(rest, b), aa);
  }

  // ---------------------------------------------------------------- the first table and all tables

  /** One table alone decides no condition that needs two. */
  lemma NothingInScope(q: Query, c: Condition)
    requires Resolved(q) && |q.tables| > 0 && c in Unused(q)
    ensures !InScope(q, 1, c)
  {
    UnusedHas(q.conds, q.tables, c);
    BothColumns(q, c);
    if InScope(q, 1, c) {
      ColumnsOwn(q, 1, c.left.attr);
      ColumnsOwn(q, 1, c.right.attr);
    }
  }

  lemma {:induction false} FirstTable(q: Query, rs: seq<Row>)
    requires Resolved(q) && |q.tables| > 0
    ensures forall i :: 0 <= i < |ExtendOne([], rs)| ==> |ExtendOne([], rs)[i]| == 1
    ensures var t := q.tables[0]; AnswerUpTo(q, 1, ExtendOne([], rs)) == Scan(t, SchemaFor(t, Items(q)), LocalConds(q.conds, t.name), rs)
  {
    hide Passes, SchemaFor, Items, LocalConds, JudgeHolds, ValueIn, InScope;
    ExtendOneSizes([], rs);
    if rs != [] {
      FirstTable(q, rs[1..]);
      var more: Combo := [] + [rs[0]];
      assert ExtendOne([], rs)[1..] == ExtendOne([], rs[1..]);
      FlatMore(q, [], rs[0]);
      assert Flat(q, more) == [] + Project(q.tables[0], SchemaFor(q.tables[0], Items(q)), rs[0]);
      forall c | c in Unused(q) ensures !InScope(q, 1, c) {
        NothingInScope(q, c);
      }
      assert WhereUpTo(q, 1, more) <==> Passes(q.tables[0], rs[0], LocalConds(q.conds, q.tables[0].name));
      assert [] + Project(q.tables[0], SchemaFor(q.tables[0], Items(q)), rs[0]) == Project(q.tables[0], SchemaFor(q.tables[0], Items(q)), rs[0]);
      assert ExtendOne([], rs)[0] == more;
      assert AnswerUpTo(q, 1, ExtendOne([], rs)) == (if WhereUpTo(q, 1, more) then [Flat(q, more)] else []) + AnswerUpTo(q, 1, ExtendOne([], rs[1..]));
    }
  }

  lemma {:induction false} JoinedIsAnswer(q: Query, k: nat)
    requires Resolved(q) && 1 <= k <= |q.tables|
    ensures forall i :: 0 <= i < |Combos(q.tables, k)| ==> |Combos(q.tables, k)[i]| == k
    ensures Joined(q, k) == AnswerUpTo(q, k, Combos(q.tables, k))
  {
    hide AnswerUpTo, Scan, ArbitersFor, Keep, Pairs, Resolved, SchemaFor, Items, LocalConds, Columns, Unused, Extend;
    CombosSizes(q.tables, k);
    if k == 1 {
      FirstTable(q, q.tables[0].records);
      FirstCombos(q.tables);
    } else {
      CombosSizes(q.tables, k - 1);
      JoinedIsAnswer(q, k - 1);
      OuterRound(q, k - 1, Combos(q.tables, k - 1));
    }
  }

  lemma FirstCombos(tables: seq<Table>)
    requires |tables| > 0
    ensures Combos(tables, 1) == ExtendOne([], tables[0].records)
  {
    assert Combos(tables, 0) == [[]];
    assert Extend([[]], tables[0].records) == ExtendOne([], tables[0].records) + Extend([[]][1..], tables[0].records);
  }

  lemma {:induction false} ColumnsHave(q: Query, k: nat, j: nat, a: Attr)
    requires j < k <= |q.tables| && a.table == q.tables[j].name && Field(a) in Items(q)
    ensures a in Columns(q, k)
  {
    if j < k - 1 {
      ColumnsHave(q, k - 1, j, a);
    } else {
      SchemaHas(q.tables[j], Items(q), a);
    }
  }

  /** In the end every condition is decided: taken by a table, or both of its columns in scope. */
  lemma AllDecided(q: Query, i: nat)
    requires Resolved(q) && |q.tables| > 0 && i < |q.conds|
    ensures var c := q.conds[i];
            if Taken(c, q.tables) then !Crosses(c) else Crosses(c) && c in Unused(q) && InScope(q, |q.tables|, c)
  {
    var c := q.conds[i];
    UnusedHas(q.conds, q.tables, c);
    if !Taken(c, q.tables) {
      BothColumns(q, c);
      var j := Home(q, i, c.left.attr);
      var l := Home(q, i, c.right.attr);
      ColumnsHave(q, |q.tables|, j, c.left.attr);
      ColumnsHave(q, |q.tables|, l, c.right.attr);
    }
  }

  /** A table's own condition means the same for the combination. */
  lemma OwnCondition(q: Query, combo: Combo, j: nat, c: Condition)
    requires Resolved(q) && |combo| == |q.tables| && j < |q.tables| && LocalTo(c, q.tables[j].name)
    ensures FilterOk(q.tables[j], combo[j], c) <==> CondHolds(q, combo, c)
  {
    TableNoOf(q.tables, j);
  }

  lemma WhereAll(q: Query, combo: Combo)
    requires Resolved(q) && 0 < |combo| == |q.tables|
    ensures WhereUpTo(q, |combo|, combo) <==> Where(q, combo)
  {
    hide JudgeHolds, FilterOk, CondHolds, ValueIn, LocalTo, Crosses, InScope, Taken;
    if WhereUpTo(q, |combo|, combo) {
      forall i | 0 <= i < |q.conds| ensures CondHolds(q, combo, q.conds[i]) {
        WhereOne(q, combo, i);
      }
    }
    if Where(q, combo) {
      forall j | 0 <= j < |combo| ensures Passes(q.tables[j], combo[j], LocalConds(q.conds, q.tables[j].name)) {
        WhereLocal(q, combo, j);
      }
      forall c | c in Unused(q) ensures JudgeHolds(c.comp, ValueIn(q, combo, c.left), ValueIn(q, combo, c.right)) {
        WhereCross(q, combo, c);
      }
    }
  }

  lemma WhereOne(q: Query, combo: Combo, i: nat)
    requires Resolved(q) && 0 < |combo| == |q.tables| && WhereUpTo(q, |combo|, combo) && i < |q.conds|
    ensures CondHolds(q, combo, q.conds[i])
  {
    hide JudgeHolds, FilterHolds, ValueIn, InScope;
    var c := q.conds[i];
    AllDecided(q, i);
    if Taken(c, q.tables) {
      var j :| 0 <= j < |q.tables| && LocalTo(c, q.tables[j].name);
      LocalCondsHas(q.conds, q.tables[j].name, c);
      var ls := LocalConds(q.conds, q.tables[j].name);
      var n :| 0 <= n < |ls| && ls[n] == c;
      assert Passes(q.tables[j], combo[j], ls) && FilterOk(q.tables[j], combo[j], ls[n]);
      OwnCondition(q, combo, j, c);
    }
  }

  lemma WhereLocal(q: Query, combo: Combo, j: nat)
    requires Resolved(q) && |combo| == |q.tables| && Where(q, combo) && j < |q.tables|
    ensures Passes(q.tables[j], combo[j], LocalConds(q.conds, q.tables[j].name))
  {
    hide CondHolds, FilterOk;
    var ls := LocalConds(q.conds, q.tables[j].name);
    forall n | 0 <= n < |ls| ensures FilterOk(q.tables[j], combo[j], ls[n]) {
      LocalCondsHas(q.conds, q.tables[j].name, ls[n]);
      var i :| 0 <= i < |q.conds| && q.conds[i] == ls[n];
      assert CondHolds(q, combo, q.conds[i]);
      OwnCondition(q, combo, j, ls[n]);
    }
  }

  lemma WhereCross(q: Query, combo: Combo, c: Condition)
    requires Resolved(q) && 0 < |combo| == |q.tables| && Where(q, combo) && c in Unused(q)
    ensures JudgeHolds(c.comp, ValueIn(q, combo, c.left), ValueIn(q, combo, c.right))
  {
    UnusedHas(q.conds, q.tables, c);
    BothColumns(q, c);
    var i :| 0 <= i < |q.conds| && q.conds[i] == c;
    assert CondHolds(q, combo, q.conds[i]);
  }

  lemma {:induction false} SameAnswer(q: Query, cs: seq<Combo>)
    requires Resolved(q) && |q.tables| > 0 && forall i :: 0 <= i < |cs| ==> |cs[i]| == |q.tables|
    ensures AnswerUpTo(q, |q.tables|, cs) == Answer(q, cs)
  {
    hide Where, WhereUpTo, Flat;
    if cs != [] {
      WhereAll(q, cs[0]);
      SameAnswer(q, cs[1..]);
    }
  }

  /**
   For distinct tables and resolved attributes, the chain of joins with pushed-down filters and waiting
   conditions is the nested-loop cross product of all records, filtered by the whole condition.
   */
  lemma SelectIsFilteredProduct(q: Query)
    requires Resolved(q) && |q.tables| > 0
    ensures forall i :: 0 <= i < |Combos(q.tables, |q.tables|)| ==> |Combos(q.tables, |q.tables|)[i]| == |q.tables|
    ensures Joined(q, |q.tables|) == Answer(q, Combos(q.tables, |q.tables|))
  {
    JoinedIsAnswer(q, |q.tables|);
    SameAnswer(q, Combos(q.tables, |q.tables|));
  }
}
