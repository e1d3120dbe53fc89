/** The order of cells and rows that ORDER BY means, and the comparison it is decided with. */
module RowOrder {
  import opened SelectTypes

  // ---------------------------------------------------------------- cells

  /** Two cells of one type, of a size that their comparison gets right. */
  predicate Comparable(a: Cell, b: Cell) {
    match (a, b)
    case (IntCell(m), IntCell(n)) => -TWO31 <= m < TWO31 && -TWO31 <= n < TWO31 && -TWO31 < m - n < TWO31
    case (TextCell(s), TextCell(t)) => NoTerminator(s) && NoTerminator(t)
    case _ => false
  }

  predicate NoTerminator(s: string) {
    forall i :: 0 <= i < |s| ==> s[i] != 0 as char
  }

  /** A proper beginning, or smaller at the first place where they differ. */
  ghost predicate TextLess(s: string, t: string) {
    exists n :: TextLessAt(s, t, n)
  }

  predicate TextLessAt(s: string, t: string, n: nat) {
    n <= |s| && n < |t| && s[..n] == t[..n] && (n == |s| || s[n] < t[n])
  }

  ghost predicate CellLess(a: Cell, b: Cell) {
    match (a, b)
    case (IntCell(m), IntCell(n)) => m < n
    case (TextCell(s), TextCell(t)) => TextLess(s, t)
    case _ => false
  }

  lemma {:induction false} StrCmpFlips(s: string, t: string)
    ensures StrCmp(s, t) == -StrCmp(t, s)
  {
    if s != [] && t != [] && s[0] == t[0] {
      StrCmpFlips(s[1..], t[1..]);
    }
  }

  lemma TextLessRest(s: string, t: string)
    requires s != [] && t != [] && s[0] == t[0]
    ensures TextLess(s, t) <==> TextLess(s[1..], t[1..])
  {
    assert s == [s[0]] + s[1..] && t == [t[0]] + t[1..];
    if TextLess(s, t) {
      var n: nat :| TextLessAt(s, t, n);
      assert n > 0;
      assert s[..n][1..] == s[1..][..n - 1] && t[..n][1..] == t[1..][..n - 1];
      assert TextLessAt(s[1..], t[1..], n - 1);
    }
    if TextLess(s[1..], t[1..]) {
      var n: nat :| TextLessAt(s[1..], t[1..], n);
      assert s[..n + 1] == [s[0]] + s[1..][..n] && t[..n + 1] == [t[0]] + t[1..][..n];
      assert TextLessAt(s, t, n + 1);
    }
  }

  lemma TextLessFirst(s: string, t: string)
    requires s != [] && t != [] && s[0] != t[0]
    ensures TextLess(s, t) <==> s[0] < t[0]
  {
    if s[0] < t[0] {
      assert TextLessAt(s, t, 0);
    }
    forall n: nat ensures TextLessAt(s, t, n) ==> n == 0 {
      assert 0 < n <= |s| && n < |t| ==> s[..n][0] == s[0] && t[..n][0] == t[0];
    }
  }

  lemma {:induction false} StrCmpLess(s: string, t: string)
    requires NoTerminator(s) && NoTerminator(t)
    ensures StrCmp(s, t) < 0 <==> TextLess(s, t)
  {
    if t == [] {
    } else if s == [] {
      assert TextLessAt(s, t, 0);
    } else if s[0] != t[0] {
      TextLessFirst(s, t);
    } else {
      StrCmpLess(s[1..], t[1..]);
      TextLessRest(s, t);
    }
  }

  /** The comparison of two cells is their order, in all three outcomes. */
  lemma CompareIsOrder(a: Cell, b: Cell)
    requires Comparable(a, b)
    ensures Compare(a, b) < 0 <==> CellLess(a, b)
    ensures Compare(a, b) > 0 <==> CellLess(b, a)
    ensures Compare(a, b) == 0 <==> a == b
  {
    match (a, b)
    case (IntCell(m), IntCell(n)) =>
    case (TextCell(s), TextCell(t)) =>
      StrCmpLess(s, t);
      StrCmpLess(t, s);
      StrCmpFlips(s, t);
      StrCmpZero(s, t);
  }

  lemma TextLessTransitive(s: string, t: string, u: string)
    requires TextLess(s, t) && TextLess(t, u)
    ensures TextLess(s, u)
  {
    var n: nat :| TextLessAt(s, t, n);
    var m: nat :| TextLessAt(t, u, m);
    var k := if n <= m then n else m;
    assert s[..k] == s[..n][..k] && t[..k] == t[..n][..k] && t[..k] == t[..m][..k] && u[..k] == u[..m][..k];
    assert n < m ==> t[..m][n] == u[..m][n];
    assert m < n ==> s[..n][m] == t[..n][m];
    assert TextLessAt(s, u, k);
  }

  lemma CellLessTransitive(a: Cell, b: Cell, c: Cell)
    requires CellLess(a, b) && CellLess(b, c)
    ensures CellLess(a, c)
  {
    if a.TextCell? {
      TextLessTransitive(a.s, b.s, c.s);
    }
  }

  // ---------------------------------------------------------------- rows

  datatype Key = Key(column: nat, desc: bool)

  predicate HasKeys(keys: seq<Key>, row: Row) {
    forall i :: 0 <= i < |keys| ==> keys[i].column < |row|
  }

  /** Two rows agree on the first `n` keys. */
  predicate AgreeTo(keys: seq<Key>, n: nat, l: Row, r: Row)
    requires HasKeys(keys, l) && HasKeys(keys, r) && n <= |keys|
  {
    forall i :: 0 <= i < n ==> l[keys[i].column] == r[keys[i].column]
  }

  /** On every key up to the first one on which they differ, two rows have cells that compare rightly. */
  predicate ComparableRows(keys: seq<Key>, l: Row, r: Row)
    requires HasKeys(keys, l) && HasKeys(keys, r)
  {
    forall i :: 0 <= i < |keys| && AgreeTo(keys, i, l, r) ==> Comparable(l[keys[i].column], r[keys[i].column])
  }

  lemma FirstComparable(keys: seq<Key>, l: Row, r: Row)
    requires keys != [] && HasKeys(keys, l) && HasKeys(keys, r) && ComparableRows(keys, l, r)
    ensures Comparable(l[keys[0].column], r[keys[0].column])
    ensures l[keys[0].column] == r[keys[0].column] ==>
              HasKeys(keys[1..], l) && HasKeys(keys[1..], r) && ComparableRows(keys[1..], l, r)
  {
    hide Comparable;
    assert AgreeTo(keys, 0, l, r);
    if l[keys[0].column] == r[keys[0].column] {
      var rest := keys[1..];
      forall i | 0 <= i < |rest| && AgreeTo(rest, i, l, r) ensures Comparable(l[rest[i].column], r[rest[i].column]) {
        forall j | 0 <= j < i + 1 ensures l[keys[j].column] == r[keys[j].column] {
          if j > 0 {
            assert keys[j] == rest[j - 1];
          }
        }
        assert AgreeTo(keys, i + 1, l, r) && keys[i + 1] == rest[i];
      }
    }
  }

  /** Row `l` comes strictly before row `r`: the first key on which they differ says so, in its direction. */
  ghost predicate RowBefore(keys: seq<Key>, l: Row, r: Row)
    requires HasKeys(keys, l) && HasKeys(keys, r)
  {
    exists i :: BeforeAt(keys, l, r, i)
  }

  ghost predicate BeforeAt(keys: seq<Key>, l: Row, r: Row, i: nat)
    requires HasKeys(keys, l) && HasKeys(keys, r)
  {
    && i < |keys| && AgreeTo(keys, i, l, r)
    && var a, b := l[keys[i].column], r[keys[i].column]; if keys[i].desc then CellLess(b, a) else CellLess(a, b)
  }

  /** The two rows are to be swapped. */
  predicate Swap(keys: seq<Key>, l: Row, r: Row)
    requires HasKeys(keys, l) && HasKeys(keys, r)
  {
    keys != [] &&
    var c := Compare(l[keys[0].column], r[keys[0].column]);
    if c == 0 then Swap(keys[1..], l, r) else (c > 0) != keys[0].desc
  }

  method TupleCmp(keys: seq<Key>, l: Row, r: Row) returns (swap: bool)
    requires HasKeys(keys, l) && HasKeys(keys, r)
    ensures swap <==> Swap(keys, l, r)
  {
    for i := 0 to |keys|
      invariant Swap(keys, l, r) <==> Swap(keys[i..], l, r)
    {
      assert keys[i..][1..] == keys[i + 1..];
      var c := Compare(l[keys[i].column], r[keys[i].column]);
      if c == 0 {
        continue;
      }
      return (c > 0) != keys[i].desc;
    }
    return false;
  }

  lemma BeforeRest(keys: seq<Key>, l: Row, r: Row)
    requires keys != [] && HasKeys(keys, l) && HasKeys(keys, r) && l[keys[0].column] == r[keys[0].column]
    ensures HasKeys(keys[1..], l) && HasKeys(keys[1..], r)
    ensures !BeforeAt(keys, l, r, 0) ==> (RowBefore(keys, l, r) <==> RowBefore(keys[1..], l, r))
  {
    var rest := keys[1..];
    forall i | 0 <= i < |rest| ensures rest[i] == keys[i + 1] {
    }
    if !BeforeAt(keys, l, r, 0) && RowBefore(keys, l, r) {
      var i: nat :| BeforeAt(keys, l, r, i);
      assert BeforeAt(rest, l, r, i - 1);
    }
    if RowBefore(rest, l, r) {
      var i: nat :| BeforeAt(rest, l, r, i);
      forall j | 0 <= j < i + 1 ensures l[keys[j].column] == r[keys[j].column] {
        if j > 0 {
          assert keys[j] == rest[j - 1];
        }
      }
      assert BeforeAt(keys, l, r, i + 1);
    }
  }

  /** Rows are swapped iff the right one belongs strictly before the left one. */
  lemma {:induction false} SwapIsOrder(keys: seq<Key>, l: Row, r: Row)
    requires HasKeys(keys, l) && HasKeys(keys, r) && ComparableRows(keys, l, r)
    ensures Swap(keys, l, r) <==> RowBefore(keys, r, l)
  {
    if keys != [] {
      var a, b := l[keys[0].column], r[keys[0].column];
      FirstComparable(keys, l, r);
      CompareIsOrder(a, b);
      if a == b {
        NotLess(a);
        BeforeRest(keys, r, l);
        SwapIsOrder(keys[1..], l, r);
      } else if (Compare(a, b) > 0) != keys[0].desc {
        assert BeforeAt(keys, r, l, 0);
      } else {
        OnlyFirst(keys, r, l);
      }
    }
  }

  lemma NotLess(a: Cell)
    ensures !CellLess(a, a)
  {
  }

  lemma OnlyFirst(keys: seq<Key>, l: Row, r: Row)
    requires keys != [] && HasKeys(keys, l) && HasKeys(keys, r) && l[keys[0].column] != r[keys[0].column]
    ensures RowBefore(keys, l, r) ==> BeforeAt(keys, l, r, 0)
  {
    forall i: nat ensures BeforeAt(keys, l, r, i) ==> i == 0 {
    }
  }

  lemma {:induction false} SwapNotBoth(keys: seq<Key>, l: Row, r: Row)
    requires HasKeys(keys, l) && HasKeys(keys, r) && ComparableRows(keys, l, r) && ComparableRows(keys, r, l)
    ensures !(Swap(keys, l, r) && Swap(keys, r, l))
  {
    hide ComparableRows, Comparable, Compare;
    if keys != [] {
      FirstComparable(keys, l, r);
      FirstComparable(keys, r, l);
      CompareIsOrder(l[keys[0].column], r[keys[0].column]);
      CompareIsOrder(r[keys[0].column], l[keys[0].column]);
      if l[keys[0].column] == r[keys[0].column] {
        SwapNotBoth(keys[1..], l, r);
      }
    }
  }

  /** Rows that need no swapping: the relation is transitive. */
  lemma {:induction false} InOrderTransitive(keys: seq<Key>, l: Row, m: Row, r: Row)
    requires HasKeys(keys, l) && HasKeys(keys, m) && HasKeys(keys, r)
    requires ComparableRows(keys, l, m) && ComparableRows(keys, m, r) && ComparableRows(keys, l, r)
    requires !Swap(keys, l, m) && !Swap(keys, m, r)
    ensures !Swap(keys, l, r)
  {
    hide ComparableRows, Comparable, Compare, CellLess;
    if keys != [] {
      var a, b, c := l[keys[0].column], m[keys[0].column], r[keys[0].column];
      FirstComparable(keys, l, m);
      FirstComparable(keys, m, r);
      FirstComparable(keys, l, r);
      CompareIsOrder(a, b);
      CompareIsOrder(b, c);
      CompareIsOrder(a, c);
      if a == b == c {
        InOrderTransitive(keys[1..], l, m, r);
      } else if CellLess(a, b) && CellLess(b, c) {
        CellLessTransitive(a, b, c);
      } else if CellLess(b, a) && CellLess(c, b) {
        CellLessTransitive(c, b, a);
      }
    }
  }
}
