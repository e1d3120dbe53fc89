/** Which rows a bubble sort with 32-bit differences brings into order however they are arranged. */
module SortExact {
  import opened SelectTypes
  import opened RowOrder
  import opened RowParts
  import opened RowSorting
  import opened RowGrouping
  import opened SortSpans

  // ---------------------------------------------------------------- comparing with some of the keys

  predicate TypedRows(keys: seq<Key>, l: Row, r: Row) {
    && HasKeys(keys, l) && HasKeys(keys, r)
    && (forall i :: 0 <= i < |keys| ==> OneType(l[keys[i].column], r[keys[i].column]))
  }

  lemma KeysSplit(keys: seq<Key>, n: nat, l: Row)
    requires HasKeys(keys, l) && n <= |keys|
    ensures HasKeys(keys[..n], l) && HasKeys(keys[n..], l)
  {
  }

  /** The keys after the first `n` matter only if the first `n` cells agree. */
  lemma {:induction false} SwapSplit(keys: seq<Key>, n: nat, l: Row, r: Row)
    requires TypedRows(keys, l, r) && n <= |keys|
    ensures HasKeys(keys[..n], l) && HasKeys(keys[..n], r) && HasKeys(keys[n..], l) && HasKeys(keys[n..], r)
    ensures Swap(keys, l, r) == if AgreeTo(keys, n, l, r) then Swap(keys[n..], l, r) else Swap(keys[..n], l, r)
  {
    hide OneType, Compare;
    KeysSplit(keys, n, l);
    KeysSplit(keys, n, r);
    if n == 0 {
      assert keys[0..] == keys;
    } else {
      var rest := keys[1..];
      CompareEqual(l[keys[0].column], r[keys[0].column]);
      if l[keys[0].column] == r[keys[0].column] {
        SwapSplit(rest, n - 1, l, r);
        assert keys[..n][1..] == rest[..n - 1] && keys[n..] == rest[n - 1..];
        AgreeRest(keys, n, l, r);
      }
    }
  }

  lemma AgreeRest(keys: seq<Key>, n: nat, l: Row, r: Row)
    requires HasKeys(keys, l) && HasKeys(keys, r) && 0 < n <= |keys| && l[keys[0].column] == r[keys[0].column]
    ensures HasKeys(keys[1..], l) && HasKeys(keys[1..], r)
    ensures AgreeTo(keys, n, l, r) <==> AgreeTo(keys[1..], n - 1, l, r)
  {
    var rest := keys[1..];
    if AgreeTo(rest, n - 1, l, r) {
      forall i | 0 <= i < n ensures l[keys[i].column] == r[keys[i].column] {
        if i > 0 {
          assert rest[i - 1] == keys[i];
        }
      }
    }
  }

  /** Rows that agree on all keys are compared alike, and need not be swapped. */
  lemma {:induction false} SwapSame(keys: seq<Key>, x: Row, y: Row, r: Row)
    requires HasKeys(keys, x) && HasKeys(keys, y) && HasKeys(keys, r) && AgreeTo(keys, |keys|, x, y)
    ensures Swap(keys, x, r) == Swap(keys, y, r) && Swap(keys, r, x) == Swap(keys, r, y)
  {
    hide Compare;
    if keys != [] {
      AgreeRest(keys, |keys|, x, y);
      SwapSame(keys[1..], x, y, r);
    }
  }

  // ---------------------------------------------------------------- rows that compare rightly on the first keys

  predicate RightTo(keys: seq<Key>, n: nat, l: Row, r: Row)
    requires n <= |keys|
  {
    && TypedRows(keys, l, r)
    && forall i :: 0 <= i < n && AgreeTo(keys, i, l, r) ==> Comparable(l[keys[i].column], r[keys[i].column])
  }

  lemma PrefixComparable(keys: seq<Key>, n: nat, l: Row, r: Row)
    requires n <= |keys| && RightTo(keys, n, l, r)
    ensures HasKeys(keys[..n], l) && HasKeys(keys[..n], r) && ComparableRows(keys[..n], l, r)
    ensures AgreeTo(keys, n, l, r) <==> AgreeTo(keys[..n], n, l, r)
  {
    hide Comparable, OneType;
    KeysSplit(keys, n, l);
    KeysSplit(keys, n, r);
    var p := keys[..n];
    forall i | 0 <= i < n && AgreeTo(p, i, l, r) ensures Comparable(l[p[i].column], r[p[i].column]) {
      assert forall j :: 0 <= j < i ==> p[j] == keys[j];
      assert AgreeTo(keys, i, l, r);
    }
    assert forall j :: 0 <= j < n ==> p[j] == keys[j];
  }

  /** Row `x` comes before the rows that agree with `l` on the first `n` keys. */
  predicate Precedes(keys: seq<Key>, n: nat, x: Row, l: Row) {
    n <= |keys| && RightTo(keys, n, x, l) && !AgreeTo(keys, n, x, l) && HasKeys(keys[..n], x) && HasKeys(keys[..n], l) && !Swap(keys[..n], x, l)
  }

  /** Row `x` comes after them. */
  predicate Follows(keys: seq<Key>, n: nat, x: Row, l: Row) {
    n <= |keys| && RightTo(keys, n, x, l) && !AgreeTo(keys, n, x, l) && HasKeys(keys[..n], x) && HasKeys(keys[..n], l) && Swap(keys[..n], x, l)
  }

  predicate Fellow(keys: seq<Key>, n: nat, x: Row, l: Row) {
    n <= |keys| && RightTo(keys, n, x, l) && AgreeTo(keys, n, x, l)
  }

  lemma FollowsFellow(keys: seq<Key>, n: nat, a: Row, x: Row, l: Row)
    requires Follows(keys, n, a, l) && Fellow(keys, n, x, l) && RightTo(keys, n, a, x)
    ensures Swap(keys, a, x)
  {
    hide Comparable, OneType, Swap;
    PrefixComparable(keys, n, x, l);
    PrefixComparable(keys, n, a, x);
    SwapSame(keys[..n], x, l, a);
    SwapSplit(keys, n, a, x);
  }

  lemma PrecedesFellow(keys: seq<Key>, n: nat, b: Row, x: Row, l: Row)
    requires Precedes(keys, n, b, l) && Fellow(keys, n, x, l) && RightTo(keys, n, b, x)
    ensures !Swap(keys, b, x)
  {
    hide Comparable, OneType, Swap;
    PrefixComparable(keys, n, x, l);
    PrefixComparable(keys, n, b, x);
    SwapSame(keys[..n], x, l, b);
    SwapSplit(keys, n, b, x);
  }

  lemma FollowsPrecedes(keys: seq<Key>, n: nat, a: Row, b: Row, l: Row)
    requires Follows(keys, n, a, l) && Precedes(keys, n, b, l) && RightTo(keys, n, a, b)
    ensures Swap(keys, a, b)
  {
    hide Comparable, OneType, Swap;
    PrefixComparable(keys, n, a, l);
    PrefixComparable(keys, n, b, l);
    PrefixComparable(keys, n, a, b);
    if !Swap(keys[..n], a, b) {
      InOrderTransitive(keys[..n], a, b, l);
    }
    if AgreeTo(keys, n, a, b) {
      SwapSame(keys[..n], a, b, l);
    }
    SwapSplit(keys, n, a, b);
  }

  /** Fellows that differ on key `n` are compared by it. */
  lemma SwapFellows(keys: seq<Key>, n: nat, x: Row, y: Row)
    requires n < |keys| && TypedRows(keys, x, y) && AgreeTo(keys, n, x, y) && x[keys[n].column] != y[keys[n].column]
    ensures Swap(keys, x, y) <==> (Compare(x[keys[n].column], y[keys[n].column]) > 0) != keys[n].desc
  {
    hide Compare, OneType;
    SwapSplit(keys, n, x, y);
    CompareEqual(x[keys[n].column], y[keys[n].column]);
    assert keys[n..][0] == keys[n];
  }

  // ---------------------------------------------------------------- an arrangement that goes wrong

  /** The first key on which some rows that agreed so far do not compare rightly. */
  predicate Apart(keys: seq<Key>, n: nat, l: Row, r: Row) {
    && n < |keys| && TypedRows(keys, l, r) && AgreeTo(keys, n, l, r)
    && !Comparable(l[keys[n].column], r[keys[n].column])
  }

  lemma {:induction false} LeastApart(keys: seq<Key>, s: seq<Row>, n: nat, x: Row, y: Row) returns (m: nat, l: Row, r: Row)
    requires x in s && y in s && Apart(keys, n, x, y)
    requires forall u, v :: u in s && v in s ==> TypedRows(keys, u, v)
    ensures l in s && r in s && Apart(keys, m, l, r)
    ensures forall u, v :: u in s && v in s ==> RightTo(keys, m, u, v)
    decreases n
  {
    hide OneType, Comparable, AgreeTo;
    if forall u, v :: u in s && v in s ==> RightTo(keys, n, u, v) {
      m, l, r := n, x, y;
    } else {
      var u, v :| u in s && v in s && !RightTo(keys, n, u, v);
      var i :| 0 <= i < n && AgreeTo(keys, i, u, v) && !Comparable(u[keys[i].column], v[keys[i].column]);
      m, l, r := LeastApart(keys, s, i, u, v);
    }
  }

  /** Integer `e` belongs after `o`, and the difference does not fit. */
  predicate Far(desc: bool, e: int, o: int) {
    if desc then o - e >= TWO31 else e - o >= TWO31
  }

  lemma FarFellows(keys: seq<Key>, n: nat, e: Row, o: Row)
    requires n < |keys| && TypedRows(keys, e, o) && TypedRows(keys, o, e) && AgreeTo(keys, n, e, o)
    requires Integers([e, o], keys[n].column) && Far(keys[n].desc, e[keys[n].column].v, o[keys[n].column].v)
    ensures if keys[n].desc then Swap(keys, o, e) else !Swap(keys, e, o)
  {
    hide Compare, TypedRows;
    assert e in [e, o] && o in [e, o];
    var a, b := e[keys[n].column], o[keys[n].column];
    if keys[n].desc {
      FarCompare(b.v, a.v);
      SwapFellows(keys, n, o, e);
    } else {
      FarCompare(a.v, b.v);
      SwapFellows(keys, n, e, o);
    }
  }

  ghost predicate Fellows(keys: seq<Key>, n: nat, c: seq<Row>) {
    && n < |keys|
    && (forall x, y :: x in c && y in c ==> TypedRows(keys, x, y) && AgreeTo(keys, n, x, y))
    && Integers(c, keys[n].column)
  }

  /** Ascending, the row `o` goes to the end. */
  lemma RisingFellows(keys: seq<Key>, n: nat, c: seq<Row>, e: Row, k: nat)
    requires Fellows(keys, n, c) && !keys[n].desc && e in c && k < |c|
    requires Far(false, e[keys[n].column].v, c[k][keys[n].column].v)
    ensures var w := Without(c, k) + [c[k]]; AllHaveKeys(keys, w) && multiset(w) == multiset(c) && Rising(keys, w, Alike(c, keys[n].column, e))
  {
    hide Swap, OneType;
    var rest, o := Without(c, k), c[k];
    var w, col := rest + [o], keys[n].column;
    OneOut(c, k);
    SameRows(w, c);
    forall i | 0 <= i < |w| ensures HasKeys(keys, w[i]) {
      assert w[i] in c && TypedRows(keys, w[i], w[i]);
    }
    forall i | 0 <= i < |w| && w[i] in Alike(c, col, e) ensures !Swap(keys, w[i], o) {
      FarFellows(keys, n, w[i], o);
    }
    assert w[|w| - 1] == o;
  }

  /** Descending, the row `o` goes to the front, and those that belong last follow. */
  lemma FallingFellows(keys: seq<Key>, n: nat, c: seq<Row>, e: Row, k: nat)
    requires Fellows(keys, n, c) && keys[n].desc && e in c && k < |c|
    requires Far(true, e[keys[n].column].v, c[k][keys[n].column].v)
    ensures var like := Alike(c, keys[n].column, e);
            var w := Fronted(c, k, like);
            AllHaveKeys(keys, w) && multiset(w) == multiset(c) && Falling(keys, w, like, |Only(Without(c, k), like)|)
  {
    hide Swap, OneType, Fronted, AgreeTo, HasKeys;
    var o, like := c[k], Alike(c, keys[n].column, e);
    var w, m := Fronted(c, k, like), |Only(Without(c, k), like)|;
    FrontedRows(c, k, like);
    FrontedSame(c, k, like);
    SameRows(w, c);
    forall i | 0 <= i < |w| ensures HasKeys(keys, w[i]) {
      assert w[i] in c && TypedRows(keys, w[i], w[i]);
    }
    forall i | 1 <= i <= m ensures Swap(keys, o, w[i]) {
      FarFellows(keys, n, w[i], o);
    }
  }

  lemma WrongFellows(keys: seq<Key>, n: nat, c: seq<Row>, e: Row, o: Row) returns (w: seq<Row>, q: nat)
    requires Fellows(keys, n, c) && e in c && o in c && Far(keys[n].desc, e[keys[n].column].v, o[keys[n].column].v)
    ensures AllHaveKeys(keys, w) && multiset(w) == multiset(c)
    ensures var like := Alike(c, keys[n].column, e); Rising(keys, w, like) || Falling(keys, w, like, q)
  {
    hide Swap, TypedRows, Rising, Falling, HasKeys, AgreeTo;
    var k :| 0 <= k < |c| && c[k] == o;
    if keys[n].desc {
      FallingFellows(keys, n, c, e, k);
      var like := Alike(c, keys[n].column, e);
      w, q := Fronted(c, k, like), |Only(Without(c, k), like)|;
    } else {
      RisingFellows(keys, n, c, e, k);
      w, q := Without(c, k) + [o], 0;
    }
  }

  /** The rows before the fellows of `l`, those after them, and the fellows. */
  lemma Layers(keys: seq<Key>, s: seq<Row>, n: nat, l: Row) returns (a: seq<Row>, b: seq<Row>, c: seq<Row>)
    requires l in s && n <= |keys| && forall u, v :: u in s && v in s ==> RightTo(keys, n, u, v)
    ensures multiset(a) + multiset(b) + multiset(c) == multiset(s)
    ensures forall x :: x in a ==> x in s && Follows(keys, n, x, l)
    ensures forall x :: x in b ==> x in s && Precedes(keys, n, x, l)
    ensures forall x :: x in s ==> (x in c <==> Fellow(keys, n, x, l))
    ensures forall x :: x in c ==> x in s
  {
    hide RightTo, Follows, Precedes, Fellow;
    var after, before := set x | x in s && Follows(keys, n, x, l), set x | x in s && Precedes(keys, n, x, l);
    a := Only(s, after);
    var r := Except(s, after);
    BothParts(s, after);
    b, c := Only(r, before), Except(r, before);
    BothParts(r, before);
    forall x | x in s ensures x in c <==> Fellow(keys, n, x, l) {
      OneLayer(keys, n, x, l);
    }
  }

  lemma OneLayer(keys: seq<Key>, n: nat, x: Row, l: Row)
    requires n <= |keys| && RightTo(keys, n, x, l)
    ensures Fellow(keys, n, x, l) <==> !Follows(keys, n, x, l) && !Precedes(keys, n, x, l)
  {
    KeysSplit(keys, n, x);
    KeysSplit(keys, n, l);
  }

  lemma LayersSwap(keys: seq<Key>, s: seq<Row>, n: nat, l: Row, a: seq<Row>, q: seq<Row>)
    requires n <= |keys| && forall u, v :: u in s && v in s ==> RightTo(keys, n, u, v)
    requires forall x :: x in a ==> x in s && Follows(keys, n, x, l)
    requires forall x :: x in q ==> x in s && (Precedes(keys, n, x, l) || Fellow(keys, n, x, l))
    ensures AllHaveKeys(keys, a) && AllHaveKeys(keys, q) && EachSwaps(keys, a, q)
  {
    hide AgreeTo, Swap, HasKeys, OneType, Comparable, Follows, Precedes, Fellow;
    forall i | 0 <= i < |a| ensures HasKeys(keys, a[i]) {
      assert RightTo(keys, n, a[i], a[i]);
    }
    forall i | 0 <= i < |q| ensures HasKeys(keys, q[i]) {
      assert RightTo(keys, n, q[i], q[i]);
    }
    forall i, j | 0 <= i < |a| && 0 <= j < |q| ensures Swap(keys, a[i], q[j]) {
      var x, y := a[i], q[j];
      assert x in a && y in q && RightTo(keys, n, x, y);
      if Fellow(keys, n, y, l) {
        FollowsFellow(keys, n, x, y, l);
      } else {
        FollowsPrecedes(keys, n, x, y, l);
      }
    }
  }

  lemma LayersStay(keys: seq<Key>, s: seq<Row>, n: nat, l: Row, b: seq<Row>, c: seq<Row>)
    requires n <= |keys| && forall u, v :: u in s && v in s ==> RightTo(keys, n, u, v)
    requires forall x :: x in b ==> x in s && Precedes(keys, n, x, l)
    requires forall x :: x in c ==> x in s && Fellow(keys, n, x, l)
    ensures AllHaveKeys(keys, b) && AllHaveKeys(keys, c) && NoneSwaps(keys, b, c)
  {
    hide AgreeTo, Swap, HasKeys, OneType, Comparable, Precedes, Fellow;
    forall i | 0 <= i < |b| ensures HasKeys(keys, b[i]) {
      assert RightTo(keys, n, b[i], b[i]);
    }
    forall i | 0 <= i < |c| ensures HasKeys(keys, c[i]) {
      assert RightTo(keys, n, c[i], c[i]);
    }
    forall i, j | 0 <= i < |b| && 0 <= j < |c| ensures !Swap(keys, b[i], c[j]) {
      var x, y := b[i], c[j];
      assert x in b && y in c && RightTo(keys, n, x, y);
      PrecedesFellow(keys, n, x, y, l);
    }
  }

  /** Rows that agree up to key `n`, in the wrong order on it, are in the wrong order. */
  lemma OutOfOrder(keys: seq<Key>, t: seq<Row>, n: nat, i: nat, j: nat)
    requires AllHaveKeys(keys, t) && i < j < |t| && n < |keys| && AgreeTo(keys, n, t[j], t[i])
    requires var a, b := t[j][keys[n].column], t[i][keys[n].column]; if keys[n].desc then CellLess(b, a) else CellLess(a, b)
    ensures !InOrder(keys, t)
  {
    assert BeforeAt(keys, t[j], t[i], n);
    assert RowBefore(keys, t[j], t[i]);
  }

  /** After a row that is not alike no row alike comes, so one comes before it. */
  lemma EarlierAlike(t: seq<Row>, m: nat, e: Row, a: seq<Row>, f: Row) returns (i: nat)
    requires m < |t| && t[m] == f != e && e in t && e !in a
    requires forall k :: m < k < |t| ==> t[k] in a
    ensures i < m && t[i] == e
  {
    i :| 0 <= i < |t| && t[i] == e;
  }

  lemma FellowsOf(keys: seq<Key>, s: seq<Row>, n: nat, l: Row, r: Row, c: seq<Row>)
    requires l in s && r in s && Apart(keys, n, l, r) && forall u, v :: u in s && v in s ==> RightTo(keys, n, u, v)
    requires forall x :: x in s ==> (x in c <==> Fellow(keys, n, x, l))
    requires forall x :: x in c ==> x in s
    ensures Fellows(keys, n, c) && l in c && r in c
    ensures var a, b := l[keys[n].column].v, r[keys[n].column].v; a - b >= TWO31 || b - a >= TWO31
  {
    assert RightTo(keys, n, l, l) && RightTo(keys, n, r, l);
    forall x, y | x in c && y in c ensures TypedRows(keys, x, y) && AgreeTo(keys, n, x, y) {
      assert RightTo(keys, n, x, y);
    }
    forall x: Row | x in c ensures keys[n].column < |x| && x[keys[n].column].IntCell? && -TWO31 <= x[keys[n].column].v < TWO31 {
      assert TypedRows(keys, x, l) && TypedRows(keys, l, x);
    }
  }

  predicate KeysTyped(keys: seq<Key>, s: seq<Row>) {
    forall u, v :: u in s && v in s ==> TypedRows(keys, u, v)
  }

  /** However the rows are arranged, they come out in order. */
  ghost predicate AlwaysInOrder(keys: seq<Key>, s: seq<Row>) {
    forall t :: multiset(t) == multiset(s) ==> AllHaveKeys(keys, t) && InOrder(keys, Bubbled(keys, t, 0))
  }

  /** The arrangement: a row that is not alike comes out after all those that are. */
  lemma Arranged(keys: seq<Key>, s: seq<Row>, n: nat, l: Row, a: seq<Row>, b: seq<Row>, c: seq<Row>, e: Row, o: Row) returns (t: seq<Row>, m: nat)
    requires n < |keys| && forall u, v :: u in s && v in s ==> RightTo(keys, n, u, v)
    requires multiset(a) + multiset(b) + multiset(c) == multiset(s)
    requires forall x :: x in a ==> x in s && Follows(keys, n, x, l)
    requires forall x :: x in b ==> x in s && Precedes(keys, n, x, l)
    requires forall x :: x in c ==> x in s && Fellow(keys, n, x, l)
    requires Fellows(keys, n, c) && e in c && o in c && Far(keys[n].desc, e[keys[n].column].v, o[keys[n].column].v)
    ensures multiset(t) == multiset(s) && AllHaveKeys(keys, t) && m < |t|
    ensures var u := Bubbled(keys, t, 0);
            && multiset(u) == multiset(s) && u[m] in c && u[m] !in Alike(c, keys[n].column, e)
            && (forall i :: m < i < |u| ==> u[i] in a)
  {
    hide Swap, HasKeys, AgreeTo, RightTo, TypedRows, Follows, Precedes, Fellow, Rising, Falling, EachSwaps, NoneSwaps, Bubbled;
    var w, q := WrongFellows(keys, n, c, e, o);
    SameRows(w, c);
    LayersSwap(keys, s, n, l, a, b + w);
    LayersStay(keys, s, n, l, b, w);
    m := WrongPlace(keys, a, b, w, Alike(c, keys[n].column, e), q);
    t := a + (b + w);
  }

  /** Two rows that are too far apart on the first key on which they differ spoil some arrangement of all the rows. */
  lemma SomeWrong(keys: seq<Key>, s: seq<Row>, n: nat, l: Row, r: Row)
    requires l in s && r in s && Apart(keys, n, l, r) && forall u, v :: u in s && v in s ==> RightTo(keys, n, u, v)
    ensures !AlwaysInOrder(keys, s)
  {
    hide Swap, HasKeys, AgreeTo, RightTo, TypedRows, InOrder, Bubbled, Comparable;
    var a, b, c := Layers(keys, s, n, l);
    FellowsOf(keys, s, n, l, r, c);
    var col, desc := keys[n].column, keys[n].desc;
    var e := Outermost(c, col, desc);
    var o := if desc == (l[col].v < r[col].v) then r else l;
    var t, m := Arranged(keys, s, n, l, a, b, c, e, o);
    var u := Bubbled(keys, t, 0);
    SameRows(u, s);
    OneLayer(keys, n, e, l);
    var i := EarlierAlike(u, m, e, a, u[m]);
    OutOfOrder(keys, u, n, i, m);
  }

  /**
   The exact condition for ORDER BY: the rows come out in order however they are arranged iff no two of them
   are too far apart on the first key on which they differ.
   */
  lemma SortExactly(keys: seq<Key>, s: seq<Row>)
    requires KeysTyped(keys, s)
    ensures AllHaveKeys(keys, s) && (AlwaysInOrder(keys, s) <==> AllComparable(keys, s))
  {
    hide Swap, AgreeTo, InOrder, Bubbled, OneType, Comparable;
    forall i | 0 <= i < |s| ensures HasKeys(keys, s[i]) {
      assert TypedRows(keys, s[i], s[i]);
    }
    if AllComparable(keys, s) {
      forall t | multiset(t) == multiset(s) ensures AllHaveKeys(keys, t) && InOrder(keys, Bubbled(keys, t, 0)) {
        ComparableRearranged(keys, s, t);
        BubbledInOrder(keys, t);
      }
    } else {
      var i, j :| 0 <= i < |s| && 0 <= j < |s| && !ComparableRows(keys, s[i], s[j]);
      var k :| 0 <= k < |keys| && AgreeTo(keys, k, s[i], s[j]) && !Comparable(s[i][keys[k].column], s[j][keys[k].column]);
      assert Apart(keys, k, s[i], s[j]);
      var m, l, r := LeastApart(keys, s, k, s[i], s[j]);
      SomeWrong(keys, s, m, l, r);
    }
  }

  lemma ComparableRearranged(keys: seq<Key>, s: seq<Row>, t: seq<Row>)
    requires multiset(t) == multiset(s) && AllHaveKeys(keys, s) && AllComparable(keys, s)
    ensures AllHaveKeys(keys, t) && AllComparable(keys, t)
  {
    hide HasKeys, ComparableRows;
    SameRows(s, t);
    forall i | 0 <= i < |t| ensures HasKeys(keys, t[i]) {
      assert t[i] in s;
    }
    forall i, j | 0 <= i < |t| && 0 <= j < |t| ensures ComparableRows(keys, t[i], t[j]) {
      assert t[i] in s && t[j] in s;
    }
  }

  /** With one integer key: the largest minus the smallest has to fit. */
  lemma OneKeyExact(column: nat, desc: bool, s: seq<Row>)
    requires Integers(s, column)
    ensures AlwaysInOrder([Key(column, desc)], s) <==> forall l: Row, r: Row :: l in s && r in s ==> l[column].v - r[column].v < TWO31
  {
    hide InOrder, Bubbled, AlwaysInOrder;
    var keys := [Key(column, desc)];
    SortExactly(keys, s);
    forall l: Row, r: Row | l in s && r in s ensures ComparableRows(keys, l, r) <==> -TWO31 < l[column].v - r[column].v < TWO31 {
      assert AgreeTo(keys, 0, l, r);
    }
  }
}
