/** What the bubble sort of ORDER BY keeps from swap to swap. */
module RowSorting {
  import opened SelectTypes
  import opened RowOrder

  predicate AllHaveKeys(keys: seq<Key>, s: seq<Row>) {
    forall i :: 0 <= i < |s| ==> HasKeys(keys, s[i])
  }

  predicate AllComparable(keys: seq<Key>, s: seq<Row>)
    requires AllHaveKeys(keys, s)
  {
    forall i, j :: 0 <= i < |s| && 0 <= j < |s| ==> ComparableRows(keys, s[i], s[j])
  }

  /** Sequence `s` is `was` with the rows in the order of the numbers `p`. */
  predicate Rearranged(was: seq<Row>, p: seq<nat>, s: seq<Row>) {
    && |p| == |was| == |s|
    && (forall i :: 0 <= i < |p| ==> p[i] < |was| && s[i] == was[p[i]])
    && (forall i, j :: 0 <= i < j < |p| ==> p[i] != p[j])
  }

  /** Only rows that had to be swapped have changed their order. */
  predicate Stable(keys: seq<Key>, p: seq<nat>, s: seq<Row>)
    requires |p| == |s| && AllHaveKeys(keys, s)
  {
    forall i, j :: 0 <= i < j < |s| ==> p[i] < p[j] || Swap(keys, s[j], s[i])
  }

  /** The rows from `from` on are in order, and come after all the others. */
  predicate TailDone(keys: seq<Key>, s: seq<Row>, from: int)
    requires AllHaveKeys(keys, s)
  {
    forall i, j :: 0 <= i < j < |s| && from <= j ==> !Swap(keys, s[i], s[j])
  }

  /** No row before `at` belongs after the row there. */
  predicate LargestAt(keys: seq<Key>, s: seq<Row>, at: nat)
    requires at < |s| && AllHaveKeys(keys, s)
  {
    forall i :: 0 <= i < at ==> !Swap(keys, s[i], s[at])
  }

  function SwapAt<T>(s: seq<T>, k: nat): seq<T>
    requires k + 1 < |s|
  {
    s[k := s[k + 1]][k + 1 := s[k]]
  }

  lemma SwapRearranged(was: seq<Row>, p: seq<nat>, s: seq<Row>, k: nat)
    requires Rearranged(was, p, s) && k + 1 < |s|
    ensures Rearranged(was, SwapAt(p, k), SwapAt(s, k))
  {
  }

  lemma SwapStable(keys: seq<Key>, p: seq<nat>, s: seq<Row>, k: nat)
    requires |p| == |s| && AllHaveKeys(keys, s) && Stable(keys, p, s) && k + 1 < |s| && Swap(keys, s[k], s[k + 1])
    ensures AllHaveKeys(keys, SwapAt(s, k)) && Stable(keys, SwapAt(p, k), SwapAt(s, k))
  {
    hide Swap, HasKeys;
    var q, t := SwapAt(p, k), SwapAt(s, k);
    forall i, j | 0 <= i < j < |t| ensures q[i] < q[j] || Swap(keys, t[j], t[i]) {
      var x := if i == k then k + 1 else if i == k + 1 then k else i;
      var y := if j == k then k + 1 else if j == k + 1 then k else j;
      assert t[i] == s[x] && q[i] == p[x] && t[j] == s[y] && q[j] == p[y];
    }
  }

  lemma SwapTail(keys: seq<Key>, s: seq<Row>, k: nat, from: int)
    requires AllHaveKeys(keys, s) && TailDone(keys, s, from) && k + 1 < |s| && k + 1 < from
    ensures AllHaveKeys(keys, SwapAt(s, k)) && TailDone(keys, SwapAt(s, k), from)
  {
    hide Swap, HasKeys;
    var t := SwapAt(s, k);
    forall i, j | 0 <= i < j < |t| && from <= j ensures !Swap(keys, t[i], t[j]) {
      var x := if i == k then k + 1 else if i == k + 1 then k else i;
      assert t[i] == s[x] && t[j] == s[j];
    }
  }

  /** The larger of the two rows compared is the largest so far. */
  lemma NextLargest(keys: seq<Key>, s: seq<Row>, k: nat)
    requires AllHaveKeys(keys, s) && AllComparable(keys, s) && k + 1 < |s| && LargestAt(keys, s, k)
    ensures !Swap(keys, s[k], s[k + 1]) ==> LargestAt(keys, s, k + 1)
    ensures Swap(keys, s[k], s[k + 1]) ==> AllHaveKeys(keys, SwapAt(s, k)) && LargestAt(keys, SwapAt(s, k), k + 1)
  {
    hide Swap, HasKeys, ComparableRows;
    if Swap(keys, s[k], s[k + 1]) {
      SwapNotBoth(keys, s[k], s[k + 1]);
    } else {
      forall i | 0 <= i < k + 1 ensures !Swap(keys, s[i], s[k + 1]) {
        if i < k {
          InOrderTransitive(keys, s[i], s[k], s[k + 1]);
        }
      }
    }
  }

  /** The rows in the order that the keys ask for. */
  ghost predicate InOrder(keys: seq<Key>, s: seq<Row>)
    requires AllHaveKeys(keys, s)
  {
    forall i, j :: 0 <= i < j < |s| ==> !RowBefore(keys, s[j], s[i])
  }

  lemma DoneInOrder(keys: seq<Key>, s: seq<Row>)
    requires AllHaveKeys(keys, s) && AllComparable(keys, s) && TailDone(keys, s, 0)
    ensures InOrder(keys, s)
  {
    hide Swap, HasKeys, ComparableRows, RowBefore;
    forall i, j | 0 <= i < j < |s| ensures !RowBefore(keys, s[j], s[i]) {
      SwapIsOrder(keys, s[i], s[j]);
    }
  }

  lemma TailGrows(keys: seq<Key>, s: seq<Row>, at: nat)
    requires at < |s| && AllHaveKeys(keys, s) && TailDone(keys, s, at + 1) && LargestAt(keys, s, at)
    ensures TailDone(keys, s, at)
  {
  }

  /** What holds all along. */
  predicate Sorting(keys: seq<Key>, was: seq<Row>, p: seq<nat>, s: seq<Row>) {
    Rearranged(was, p, s) && AllHaveKeys(keys, s) && Stable(keys, p, s)
  }

  lemma SwapSorting(keys: seq<Key>, was: seq<Row>, p: seq<nat>, s: seq<Row>, k: nat)
    requires Sorting(keys, was, p, s) && k + 1 < |s| && Swap(keys, s[k], s[k + 1])
    ensures Sorting(keys, was, SwapAt(p, k), SwapAt(s, k))
  {
    hide Swap, HasKeys, Stable;
    SwapRearranged(was, p, s, k);
    SwapStable(keys, p, s, k);
  }

  // ---------------------------------------------------------------- the sort, whatever the comparison says

  /** The rows after rows `k` and `k + 1` were compared. */
  function Compared(keys: seq<Key>, s: seq<Row>, k: nat): (t: seq<Row>)
    requires AllHaveKeys(keys, s) && k + 1 < |s|
    ensures |t| == |s| && AllHaveKeys(keys, t)
  {
    if Swap(keys, s[k], s[k + 1]) then SwapAt(s, k) else s
  }

  /** The rows after the comparisons of `j - 1` with `j`, and of the following, up to `end`. */
  function Pass(keys: seq<Key>, s: seq<Row>, j: nat, end: nat): (t: seq<Row>)
    requires AllHaveKeys(keys, s) && 1 <= j && end <= |s|
    ensures |t| == |s| && AllHaveKeys(keys, t)
    decreases end - j
  {
    if j >= end then s else Pass(keys, Compared(keys, s, j - 1), j + 1, end)
  }

  /** The rows after the passes from pass `i` on, each one row shorter than the one before. */
  function Bubbled(keys: seq<Key>, s: seq<Row>, i: nat): (t: seq<Row>)
    requires AllHaveKeys(keys, s) && i <= |s|
    ensures |t| == |s| && AllHaveKeys(keys, t)
    decreases |s| - i
  {
    if i == |s| then s else Bubbled(keys, Pass(keys, s, 1, |s| - i), i + 1)
  }

  /** A pass over comparable rows brings the largest of them to the end. */
  lemma {:induction false} PassInOrder(keys: seq<Key>, s: seq<Row>, j: nat, end: nat)
    requires AllHaveKeys(keys, s) && AllComparable(keys, s) && 1 <= j <= end <= |s|
    requires TailDone(keys, s, end) && LargestAt(keys, s, j - 1)
    ensures AllComparable(keys, Pass(keys, s, j, end)) && TailDone(keys, Pass(keys, s, j, end), end - 1)
    decreases end - j
  {
    hide Swap, HasKeys, ComparableRows, AllComparable, TailDone, LargestAt;
    if j == end {
      TailGrows(keys, s, j - 1);
    } else {
      NextLargest(keys, s, j - 1);
      if Swap(keys, s[j - 1], s[j]) {
        SwapTail(keys, s, j - 1, end);
        SwapComparable(keys, s, j - 1);
      }
      PassInOrder(keys, Compared(keys, s, j - 1), j + 1, end);
    }
  }

  lemma SwapComparable(keys: seq<Key>, s: seq<Row>, k: nat)
    requires AllHaveKeys(keys, s) && AllComparable(keys, s) && k + 1 < |s|
    ensures AllHaveKeys(keys, SwapAt(s, k)) && AllComparable(keys, SwapAt(s, k))
  {
    hide HasKeys, ComparableRows;
  }

  lemma {:induction false} PassesInOrder(keys: seq<Key>, s: seq<Row>, i: nat)
    requires AllHaveKeys(keys, s) && AllComparable(keys, s) && i <= |s| && TailDone(keys, s, |s| - i)
    ensures InOrder(keys, Bubbled(keys, s, i))
    decreases |s| - i
  {
    hide Swap, HasKeys, AllHaveKeys, AllComparable, InOrder, TailDone, LargestAt, Pass;
    if i == |s| {
      DoneInOrder(keys, s);
    } else {
      FirstLargest(keys, s);
      PassInOrder(keys, s, 1, |s| - i);
      PassesInOrder(keys, Pass(keys, s, 1, |s| - i), i + 1);
    }
  }

  /** Comparable rows come out in the order of their keys. */
  lemma BubbledInOrder(keys: seq<Key>, s: seq<Row>)
    requires AllHaveKeys(keys, s) && AllComparable(keys, s)
    ensures InOrder(keys, Bubbled(keys, s, 0))
  {
    hide Bubbled, InOrder, AllHaveKeys, AllComparable;
    PassesInOrder(keys, s, 0);
  }

  /** One comparison of the bubble sort, of the rows `k` and `k + 1`. */
  method CompareAndSwap(keys: seq<Key>, a: array<Row>, k: nat, ghost was: seq<Row>, ghost p: seq<nat>) returns (ghost q: seq<nat>)
    requires Sorting(keys, was, p, a[..]) && k + 1 < a.Length
    modifies a
    ensures Sorting(keys, was, q, a[..]) && a[..] == Compared(keys, old(a[..]), k)
  {
    hide Swap, HasKeys, Stable;
    ghost var s := a[..];
    var l, r := a[k], a[k + 1];
    q := p;
    var swap := TupleCmp(keys, l, r);
    if swap {
      SwapSorting(keys, was, p, s, k);
      a[k] := r;
      a[k + 1] := l;
      q := SwapAt(p, k);
      assert a[..] == SwapAt(s, k);
    }
  }

  /** The bubble sort; `p` says where each row comes from. */
  method BubbleSort(keys: seq<Key>, a: array<Row>) returns (ghost p: seq<nat>)
    requires AllHaveKeys(keys, a[..])
    modifies a
    ensures Sorting(keys, old(a[..]), p, a[..]) && a[..] == Bubbled(keys, old(a[..]), 0)
    ensures AllComparable(keys, old(a[..])) ==> InOrder(keys, a[..])
  {
    hide Swap, HasKeys, AllHaveKeys, AllComparable, InOrder, Stable, Rearranged, Compared;
    ghost var was := a[..];
    var n := a.Length;
    p := seq(n, i => i);
    Untouched(keys, was, p);
    for i := 0 to n
      invariant Sorting(keys, was, p, a[..]) && Bubbled(keys, a[..], i) == Bubbled(keys, was, 0)
    {
      ghost var s := a[..];
      for j := 1 to n - i
        invariant Sorting(keys, was, p, a[..]) && Pass(keys, a[..], j, n - i) == Pass(keys, s, 1, n - i)
      {
        p := CompareAndSwap(keys, a, j - 1, was, p);
      }
    }
    if AllComparable(keys, was) {
      BubbledInOrder(keys, was);
    }
  }

  /** Two rows of one integer come out in order exactly when the difference of the integers fits into 32 bits. */
  lemma TwoRowsExact(a: int, b: int)
    requires -TWO31 <= a < TWO31 && -TWO31 <= b < TWO31
    ensures var keys, s := [Key(0, false)], [[IntCell(a)], [IntCell(b)]];
            AllHaveKeys(keys, s) && (InOrder(keys, Bubbled(keys, s, 0)) <==> -TWO31 <= a - b < TWO31)
  {
    var keys, s := [Key(0, false)], [[IntCell(a)], [IntCell(b)]];
    hide RowBefore, Swap, Compare;
    TwoRowsBubbled(keys, s);
    OneKeySwap(a, b);
    OneKeyBefore(a, b);
    OneKeyBefore(b, a);
    IntCompareExact(a, b);
    WrapNotZero(a, b);
    var t := Bubbled(keys, s, 0);
    assert InOrder(keys, t) <==> !RowBefore(keys, t[1], t[0]);
  }

  lemma WrapNotZero(a: int, b: int)
    requires -TWO31 <= a < TWO31 && -TWO31 <= b < TWO31
    ensures Compare(IntCell(a), IntCell(b)) > 0 <==> (a > b && a - b < TWO31) || a - b < -TWO31
  {
  }

  lemma TwoRowsBubbled(keys: seq<Key>, s: seq<Row>)
    requires AllHaveKeys(keys, s) && |s| == 2
    ensures Bubbled(keys, s, 0) == Compared(keys, s, 0)
  {
    hide Compared, AllHaveKeys;
    var t := Compared(keys, s, 0);
    assert Pass(keys, t, 2, 2) == t;
    assert Pass(keys, s, 1, 2) == t;
    assert Pass(keys, t, 1, 1) == t;
    assert Bubbled(keys, t, 2) == t;
    assert Bubbled(keys, t, 1) == t;
  }

  lemma OneKeySwap(a: int, b: int)
    ensures var keys := [Key(0, false)];
            HasKeys(keys, [IntCell(a)]) && HasKeys(keys, [IntCell(b)])
            && (Swap(keys, [IntCell(a)], [IntCell(b)]) <==> Compare(IntCell(a), IntCell(b)) > 0)
  {
    assert [Key(0, false)][1..] == [];
  }

  lemma OneKeyBefore(a: int, b: int)
    ensures var keys := [Key(0, false)];
            HasKeys(keys, [IntCell(a)]) && HasKeys(keys, [IntCell(b)])
            && (RowBefore(keys, [IntCell(a)], [IntCell(b)]) <==> a < b)
  {
    var keys, l, r := [Key(0, false)], [IntCell(a)], [IntCell(b)];
    assert BeforeAt(keys, l, r, 0) <==> a < b;
    assert forall i: nat :: BeforeAt(keys, l, r, i) ==> i == 0;
  }

  lemma FirstLargest(keys: seq<Key>, s: seq<Row>)
    requires s != [] && AllHaveKeys(keys, s)
    ensures LargestAt(keys, s, 0)
  {
  }

  lemma Untouched(keys: seq<Key>, was: seq<Row>, p: seq<nat>)
    requires AllHaveKeys(keys, was) && |p| == |was| && forall i :: 0 <= i < |p| ==> p[i] == i
    ensures Rearranged(was, p, was) && Stable(keys, p, was)
  {
  }

  // ---------------------------------------------------------------- there is one such order only

  /** Row number `i` goes before row number `j`: by the keys, or where they say nothing, by its number. */
  predicate Earlier(keys: seq<Key>, was: seq<Row>, i: nat, j: nat)
    requires AllHaveKeys(keys, was) && i < |was| && j < |was|
  {
    Swap(keys, was[j], was[i]) || (!Swap(keys, was[i], was[j]) && i < j)
  }

  lemma SortedEarlier(keys: seq<Key>, was: seq<Row>, p: seq<nat>, s: seq<Row>, i: nat, j: nat)
    requires AllHaveKeys(keys, was) && AllComparable(keys, was)
    requires Sorting(keys, was, p, s) && InOrder(keys, s) && i < |s| && j < |s|
    ensures Earlier(keys, was, p[i], p[j]) <==> i < j
  {
    hide Swap, HasKeys, ComparableRows, RowBefore;
    SwapIsOrder(keys, s[i], s[j]);
    SwapIsOrder(keys, s[j], s[i]);
    SwapNotBoth(keys, s[i], s[j]);
  }

  function Elements(p: seq<nat>, k: nat): set<nat>
    requires k <= |p|
  {
    set i | 0 <= i < k :: p[i]
  }

  lemma {:induction false} ElementsSize(p: seq<nat>, k: nat)
    requires k <= |p| && forall i, j :: 0 <= i < j < |p| ==> p[i] != p[j]
    ensures |Elements(p, k)| == k
  {
    if k > 0 {
      ElementsSize(p, k - 1);
      assert Elements(p, k) == Elements(p, k - 1) + {p[k - 1]};
    }
  }

  lemma {:induction false} BelowSize(s: set<nat>, n: nat)
    requires forall x :: x in s ==> x < n
    ensures |s| <= n
    ensures |s| == n ==> forall x :: 0 <= x < n ==> x in s
  {
    if n > 0 {
      BelowSize(s - {n - 1}, n - 1);
    }
  }

  /** Every row has a place. */
  lemma Placed(was: seq<Row>, p: seq<nat>, s: seq<Row>, x: nat) returns (i: nat)
    requires Rearranged(was, p, s) && x < |was|
    ensures i < |p| && p[i] == x
  {
    ElementsSize(p, |p|);
    BelowSize(Elements(p, |p|), |p|);
    assert x in Elements(p, |p|);
    i :| 0 <= i < |p| && p[i] == x;
  }

  /** The place of a row is the number of rows that go before it. */
  lemma PlaceIsRank(keys: seq<Key>, was: seq<Row>, p: seq<nat>, s: seq<Row>, i: nat)
    requires AllHaveKeys(keys, was) && AllComparable(keys, was)
    requires Sorting(keys, was, p, s) && InOrder(keys, s) && i < |s|
    ensures i == |set x: nat | x < |was| && Earlier(keys, was, x, p[i])|
  {
    hide Swap, HasKeys, ComparableRows, RowBefore, Earlier, Stable, AllComparable;
    var before := set x: nat | x < |was| && Earlier(keys, was, x, p[i]);
    forall x: nat | x < |was| ensures x in before <==> x in Elements(p, i) {
      var k := Placed(was, p, s, x);
      SortedEarlier(keys, was, p, s, k, i);
      if x in Elements(p, i) {
        var j: nat :| j < i && p[j] == x;
        assert j == k;
      }
    }
    assert before == Elements(p, i);
    ElementsSize(p, i);
  }

  /** The order asked for, with equal rows left in their old order, is one order only. */
  lemma StableUnique(keys: seq<Key>, was: seq<Row>, p: seq<nat>, s: seq<Row>, q: seq<nat>, t: seq<Row>)
    requires AllHaveKeys(keys, was) && AllComparable(keys, was)
    requires Sorting(keys, was, p, s) && InOrder(keys, s)
    requires Sorting(keys, was, q, t) && InOrder(keys, t)
    ensures s == t && p == q
  {
    hide Swap, HasKeys, ComparableRows, RowBefore, Earlier, Stable, AllComparable, InOrder;
    forall i | 0 <= i < |p| ensures p[i] == q[i] {
      var j := Placed(was, q, t, p[i]);
      PlaceIsRank(keys, was, p, s, i);
      PlaceIsRank(keys, was, q, t, j);
    }
  }
}
