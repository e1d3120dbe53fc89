/** Parts of the rows and what the passes of the bubble sort do to them. */
module SortSpans {
  import opened SelectTypes
  import opened RowOrder
  import opened RowParts
  import opened RowSorting

  /** No rows get lost. */
  lemma {:induction false} PassRows(keys: seq<Key>, s: seq<Row>, j: nat, end: nat)
    requires AllHaveKeys(keys, s) && 1 <= j && end <= |s|
    ensures multiset(Pass(keys, s, j, end)) == multiset(s)
    ensures forall i :: end <= i < |s| ==> Pass(keys, s, j, end)[i] == s[i]
    decreases end - j
  {
    hide Swap, HasKeys, AllHaveKeys;
    if j < end {
      SwapRows(s, j - 1);
      PassRows(keys, Compared(keys, s, j - 1), j + 1, end);
    }
  }

  lemma SwapRows(s: seq<Row>, k: nat)
    requires k + 1 < |s|
    ensures multiset(SwapAt(s, k)) == multiset(s)
  {
    assert s == s[..k] + [s[k]] + [s[k + 1]] + s[k + 2..];
    assert SwapAt(s, k) == s[..k] + [s[k + 1]] + [s[k]] + s[k + 2..];
  }

  lemma {:induction false} BubbledRows(keys: seq<Key>, s: seq<Row>, i: nat)
    requires AllHaveKeys(keys, s) && i <= |s|
    ensures multiset(Bubbled(keys, s, i)) == multiset(s)
    ensures forall m :: |s| - i <= m < |s| ==> Bubbled(keys, s, i)[m] == s[m]
    decreases |s| - i
  {
    hide AllHaveKeys, Pass;
    if i < |s| {
      PassRows(keys, s, 1, |s| - i);
      BubbledRows(keys, Pass(keys, s, 1, |s| - i), i + 1);
    }
  }

  predicate EachSwaps(keys: seq<Key>, a: seq<Row>, q: seq<Row>)
    requires AllHaveKeys(keys, a) && AllHaveKeys(keys, q)
  {
    forall i, j :: 0 <= i < |a| && 0 <= j < |q| ==> Swap(keys, a[i], q[j])
  }

  predicate NoneSwaps(keys: seq<Key>, a: seq<Row>, q: seq<Row>)
    requires AllHaveKeys(keys, a) && AllHaveKeys(keys, q)
  {
    forall i, j :: 0 <= i < |a| && 0 <= j < |q| ==> !Swap(keys, a[i], q[j])
  }

  lemma ComparedWithin(keys: seq<Key>, p: seq<Row>, x: seq<Row>, r: seq<Row>, k: nat) returns (y: seq<Row>)
    requires AllHaveKeys(keys, p + x + r) && k + 1 < |x|
    ensures multiset(y) == multiset(x) && |y| == |x|
    ensures Compared(keys, p + x + r, |p| + k) == p + y + r
  {
    hide Swap, HasKeys;
    var s := p + x + r;
    assert s[|p| + k] == x[k] && s[|p| + k + 1] == x[k + 1];
    SwapRows(x, k);
    y := if Swap(keys, x[k], x[k + 1]) then SwapAt(x, k) else x;
  }

  /** Inside a part `x` of the rows, a pass only changes the order of these. */
  lemma {:induction false} PassWithin(keys: seq<Key>, p: seq<Row>, x: seq<Row>, r: seq<Row>, j: nat, end: nat) returns (y: seq<Row>)
    requires AllHaveKeys(keys, p + x + r) && |p| < j <= |p| + |x| <= end <= |p| + |x| + |r|
    ensures multiset(y) == multiset(x) && |y| == |x| && AllHaveKeys(keys, p + y + r)
    ensures Pass(keys, p + x + r, j, end) == Pass(keys, p + y + r, |p| + |x|, end)
    decreases |p| + |x| - j
  {
    hide Compared, HasKeys, AllHaveKeys;
    y := x;
    if j < |p| + |x| {
      y := ComparedWithin(keys, p, x, r, j - 1 - |p|);
      y := PassWithin(keys, p, y, r, j + 1, end);
    }
  }

  lemma ComparedCarries(keys: seq<Key>, p: seq<Row>, z: Row, q: seq<Row>, r: seq<Row>)
    requires q != [] && AllHaveKeys(keys, p + [z] + q + r) && AllHaveKeys(keys, [z]) && AllHaveKeys(keys, q) && EachSwaps(keys, [z], q)
    ensures Compared(keys, p + [z] + q + r, |p|) == (p + [q[0]]) + [z] + q[1..] + r
  {
    hide Swap, HasKeys;
    var s := p + [z] + q + r;
    assert s[|p|] == [z][0] && s[|p| + 1] == q[0];
  }

  /** A row that has to be swapped with all of `q` is carried past them. */
  lemma {:induction false} PassCarries(keys: seq<Key>, p: seq<Row>, z: Row, q: seq<Row>, r: seq<Row>, end: nat)
    requires AllHaveKeys(keys, p + [z] + q + r) && |p| + 1 + |q| <= end <= |p| + 1 + |q| + |r|
    requires AllHaveKeys(keys, [z]) && AllHaveKeys(keys, q) && EachSwaps(keys, [z], q)
    ensures AllHaveKeys(keys, p + q + [z] + r)
    ensures Pass(keys, p + [z] + q + r, |p| + 1, end) == Pass(keys, p + q + [z] + r, |p| + 1 + |q|, end)
    decreases |q|
  {
    hide Swap, HasKeys, Compared;
    if q == [] {
      assert p + q + [z] + r == p + [z] + q + r;
    } else {
      ComparedCarries(keys, p, z, q, r);
      var t := p + [q[0]];
      PassCarries(keys, t, z, q[1..], r, end);
      assert t + q[1..] == p + q;
    }
  }

  lemma HaveKeysParts(keys: seq<Key>, a: seq<Row>, q: seq<Row>)
    ensures AllHaveKeys(keys, a + q) <==> AllHaveKeys(keys, a) && AllHaveKeys(keys, q)
  {
    hide HasKeys;
    if AllHaveKeys(keys, a + q) {
      forall i | 0 <= i < |a| ensures HasKeys(keys, a[i]) {
        assert (a + q)[i] == a[i];
      }
      forall i | 0 <= i < |q| ensures HasKeys(keys, q[i]) {
        assert (a + q)[|a| + i] == q[i];
      }
    }
  }

  /** Rows that belong after all of `q` are at the end after as many passes. */
  lemma {:induction false} Settle(keys: seq<Key>, a: seq<Row>, q: seq<Row>, d: seq<Row>) returns (c: seq<Row>)
    requires AllHaveKeys(keys, a) && AllHaveKeys(keys, q) && AllHaveKeys(keys, d) && EachSwaps(keys, a, q)
    ensures multiset(c) == multiset(a) + multiset(d) && |c| == |a| + |d|
    ensures AllHaveKeys(keys, a + q + d) && AllHaveKeys(keys, q + c)
    ensures Bubbled(keys, a + q + d, |d|) == Bubbled(keys, q + c, |c|)
    decreases |a|
  {
    hide Swap, HasKeys, Bubbled;
    if a == [] {
      c := d;
      assert a + q + d == q + c;
    } else {
      var n := |a| - 1;
      var y := SettleOne(keys, a, q, d);
      c := Settle(keys, y[..n], q, [y[n]] + d);
      assert y == y[..n] + [y[n]];
      assert y[..n] + q + ([y[n]] + d) == y[..n] + q + [y[n]] + d;
      BubbledStep(keys, a + q + d, |d|);
    }
  }

  lemma BubbledStep(keys: seq<Key>, s: seq<Row>, i: nat)
    requires AllHaveKeys(keys, s) && i < |s|
    ensures Bubbled(keys, s, i) == Bubbled(keys, Pass(keys, s, 1, |s| - i), i + 1)
  {
  }

  lemma SettleOne(keys: seq<Key>, a: seq<Row>, q: seq<Row>, d: seq<Row>) returns (y: seq<Row>)
    requires a != [] && AllHaveKeys(keys, a) && AllHaveKeys(keys, q) && AllHaveKeys(keys, d) && EachSwaps(keys, a, q)
    ensures multiset(y) == multiset(a) && |y| == |a| && AllHaveKeys(keys, y) && AllHaveKeys(keys, a + q + d)
    ensures EachSwaps(keys, y[..|y| - 1], q)
    ensures Pass(keys, a + q + d, 1, |a| + |q|) == y[..|y| - 1] + q + [y[|y| - 1]] + d
  {
    hide Swap, HasKeys, Pass;
    var n := |a| - 1;
    assert [] + a + (q + d) == a + q + d;
    y := PassWithin(keys, [], a, q + d, 1, |a| + |q|);
    assert [] + y + (q + d) == y[..n] + [y[n]] + q + d;
    SameRows(y, a);
    forall i | 0 <= i < |y| ensures HasKeys(keys, y[i]) && forall k :: 0 <= k < |q| ==> Swap(keys, y[i], q[k]) {
      assert y[i] in a;
    }
    assert AllHaveKeys(keys, [y[n]]) && EachSwaps(keys, [y[n]], q);
    PassCarries(keys, y[..n], y[n], q, d, |a| + |q|);
    PassEnds(keys, y[..n] + q + [y[n]] + d, |a| + |q|);
  }

  lemma PassEnds(keys: seq<Key>, s: seq<Row>, end: nat)
    requires AllHaveKeys(keys, s) && 1 <= end <= |s|
    ensures Pass(keys, s, end, end) == s
  {
  }

  lemma NotCompared(keys: seq<Key>, b: seq<Row>, y: seq<Row>, w: seq<Row>, d: seq<Row>)
    requires w != [] && y != [] && AllHaveKeys(keys, y + w + d) && (forall r :: r in y ==> r in b)
    requires AllHaveKeys(keys, b) && AllHaveKeys(keys, w) && NoneSwaps(keys, b, w)
    ensures Compared(keys, y + w + d, |y| - 1) == y + w + d
  {
    hide Swap, HasKeys;
    var s := y + w + d;
    assert s[|y| - 1] in b && s[|y|] == w[0];
  }

  /** Rows that belong before all of `w` are passed and leave them alone. */
  lemma PassOver(keys: seq<Key>, b: seq<Row>, w: seq<Row>, d: seq<Row>) returns (y: seq<Row>)
    requires w != [] && AllHaveKeys(keys, b) && AllHaveKeys(keys, w) && AllHaveKeys(keys, d) && NoneSwaps(keys, b, w)
    ensures multiset(y) == multiset(b) && |y| == |b| && AllHaveKeys(keys, b + w + d) && AllHaveKeys(keys, y + w + d)
    ensures Pass(keys, b + w + d, 1, |b| + |w|) == Pass(keys, y + w + d, |b| + 1, |b| + |w|)
  {
    hide Swap, HasKeys, Compared;
    if b == [] {
      y := b;
    } else {
      assert [] + b + (w + d) == b + w + d;
      y := PassWithin(keys, [], b, w + d, 1, |b| + |w|);
      assert [] + y + (w + d) == y + w + d;
      SameRows(y, b);
      NotCompared(keys, b, y, w, d);
    }
  }

  /** The last row need not be swapped with any of the rows `e`, and is none of them. */
  predicate Rising(keys: seq<Key>, w: seq<Row>, e: set<Row>)
    requires AllHaveKeys(keys, w)
  {
    |w| > 1 && w[|w| - 1] !in e && forall i :: 0 <= i < |w| && w[i] in e ==> !Swap(keys, w[i], w[|w| - 1])
  }

  /** The first row is swapped with the `n` rows that follow; neither it nor the others are rows `e`. */
  predicate Falling(keys: seq<Key>, w: seq<Row>, e: set<Row>, n: nat)
    requires AllHaveKeys(keys, w)
  {
    && n < |w| && w[0] !in e
    && (forall i :: 1 <= i <= n ==> Swap(keys, w[0], w[i]))
    && (forall i :: n < i < |w| ==> w[i] !in e)
  }

  lemma LastRising(keys: seq<Key>, p: seq<Row>, w: seq<Row>, d: seq<Row>, e: set<Row>)
    requires AllHaveKeys(keys, p + w + d) && AllHaveKeys(keys, w) && Rising(keys, w, e)
    ensures var r := Pass(keys, p + w + d, |p| + 1, |p| + |w|)[|p| + |w| - 1]; r in w && r !in e
  {
    hide Swap, HasKeys;
    var x, o := w[..|w| - 1], w[|w| - 1];
    assert p + w + d == p + x + ([o] + d);
    var y := PassWithin(keys, p, x, [o] + d, |p| + 1, |p| + |x| + 1);
    SameRows(y, x);
    var s, k := p + y + ([o] + d), |p| + |x| - 1;
    assert s[k] in x && s[k + 1] == o;
    PassEnds(keys, Compared(keys, s, k), k + 2);
  }

  lemma FallingSplit(keys: seq<Key>, w: seq<Row>, e: set<Row>, n: nat)
    requires AllHaveKeys(keys, w) && Falling(keys, w, e, n)
    ensures n < |w| && AllHaveKeys(keys, [w[0]]) && AllHaveKeys(keys, w[1..n + 1]) && EachSwaps(keys, [w[0]], w[1..n + 1])
  {
    hide Swap, HasKeys;
  }

  lemma LastFalling(keys: seq<Key>, p: seq<Row>, w: seq<Row>, d: seq<Row>, e: set<Row>, n: nat)
    requires AllHaveKeys(keys, p + w + d) && AllHaveKeys(keys, w) && Falling(keys, w, e, n)
    ensures var r := Pass(keys, p + w + d, |p| + 1, |p| + |w|)[|p| + |w| - 1]; r in w && r !in e
  {
    hide Swap, HasKeys, Pass, Falling;
    FallingSplit(keys, w, e, n);
    var o, q, x, end := w[0], w[1..n + 1], w[n + 1..], |p| + |w|;
    assert p + w + d == p + [o] + q + (x + d);
    PassCarries(keys, p, o, q, x + d, end);
    assert p + q + [o] + (x + d) == (p + q) + ([o] + x) + d;
    var y := PassWithin(keys, p + q, [o] + x, d, |p| + 1 + |q|, end);
    PassEnds(keys, (p + q) + y + d, end);
    SameRows(y, [o] + x);
    assert ((p + q) + y + d)[end - 1] == y[|y| - 1];
    FallingRest(keys, w, e, n, y[|y| - 1]);
  }

  lemma FallingRest(keys: seq<Key>, w: seq<Row>, e: set<Row>, n: nat, r: Row)
    requires AllHaveKeys(keys, w) && Falling(keys, w, e, n) && r in [w[0]] + w[n + 1..]
    ensures r in w && r !in e
  {
    hide Swap, HasKeys;
    if r != w[0] {
      var i :| 0 <= i < |w| - n - 1 && w[n + 1..][i] == r;
      assert w[n + 1 + i] == r;
    }
  }

  /** One pass over the rows `b`, which belong first, and `w` puts a row that is not of `e` at their end. */
  lemma PassWrong(keys: seq<Key>, b: seq<Row>, w: seq<Row>, c: seq<Row>, e: set<Row>, n: nat)
    requires AllHaveKeys(keys, b) && AllHaveKeys(keys, w) && AllHaveKeys(keys, c) && w != [] && NoneSwaps(keys, b, w)
    requires Rising(keys, w, e) || Falling(keys, w, e, n)
    ensures AllHaveKeys(keys, b + w + c)
    ensures var t, m := Pass(keys, b + w + c, 1, |b| + |w|), |b| + |w| - 1;
            t[m] in w && t[m] !in e && forall i :: m < i < |t| ==> t[i] in c
  {
    hide Swap, HasKeys, Pass, NoneSwaps, Rising, Falling;
    var y := PassOver(keys, b, w, c);
    if Rising(keys, w, e) {
      LastRising(keys, y, w, c, e);
    } else {
      LastFalling(keys, y, w, c, e, n);
    }
    PassRows(keys, b + w + c, 1, |b| + |w|);
  }

  /** Rows `a`, which belong last, then `b`, which belong first, then `w`: a row that is not of `e` comes after all that are. */
  lemma WrongPlace(keys: seq<Key>, a: seq<Row>, b: seq<Row>, w: seq<Row>, e: set<Row>, n: nat) returns (m: nat)
    requires AllHaveKeys(keys, a) && AllHaveKeys(keys, b) && AllHaveKeys(keys, w) && AllHaveKeys(keys, b + w)
    requires EachSwaps(keys, a, b + w) && NoneSwaps(keys, b, w) && w != [] && (Rising(keys, w, e) || Falling(keys, w, e, n))
    ensures AllHaveKeys(keys, a + (b + w)) && m < |a + (b + w)|
    ensures var t := Bubbled(keys, a + (b + w), 0);
            && multiset(t) == multiset(a + (b + w)) && t[m] in w && t[m] !in e
            && (forall i :: m < i < |t| ==> t[i] in a)
  {
    hide Swap, HasKeys, Bubbled, Pass, EachSwaps, NoneSwaps, Rising, Falling;
    m := |b| + |w| - 1;
    assert a + (b + w) + [] == a + (b + w);
    BubbledRows(keys, a + (b + w), 0);
    var c := Settle(keys, a, b + w, []);
    SameRows(c, a);
    HaveKeysParts(keys, b + w, c);
    PassWrong(keys, b, w, c, e, n);
    BubbledStep(keys, b + w + c, |c|);
    BubbledRows(keys, Pass(keys, b + w + c, 1, m + 1), |c| + 1);
  }
}
