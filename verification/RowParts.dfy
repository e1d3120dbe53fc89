/** Rows picked out of others, and the integers in a column. */
module RowParts {
  import opened SelectTypes

  function Only(s: seq<Row>, p: set<Row>): (t: seq<Row>)
    ensures forall r :: r in t <==> r in s && r in p
  {
    if s == [] then [] else (if s[0] in p then [s[0]] else []) + Only(s[1..], p)
  }

  function Except(s: seq<Row>, p: set<Row>): (t: seq<Row>)
    ensures forall r :: r in t <==> r in s && r !in p
  {
    if s == [] then [] else (if s[0] in p then [] else [s[0]]) + Except(s[1..], p)
  }

  lemma {:induction false} BothParts(s: seq<Row>, p: set<Row>)
    ensures multiset(Only(s, p)) + multiset(Except(s, p)) == multiset(s)
  {
    if s != [] {
      BothParts(s[1..], p);
      assert s == [s[0]] + s[1..];
    }
  }

  function Without(s: seq<Row>, k: nat): seq<Row>
    requires k < |s|
  {
    s[..k] + s[k + 1..]
  }

  lemma OneOut(s: seq<Row>, k: nat)
    requires k < |s|
    ensures multiset(Without(s, k)) + multiset{s[k]} == multiset(s)
  {
    assert s == s[..k] + [s[k]] + s[k + 1..];
  }

  lemma SameRows(s: seq<Row>, t: seq<Row>)
    requires multiset(s) == multiset(t)
    ensures |s| == |t| && forall r :: r in s <==> r in t
  {
    assert |multiset(s)| == |multiset(t)|;
    assert forall r :: r in s <==> r in multiset(s);
    assert forall r :: r in t <==> r in multiset(t);
  }

  /** Row `k` to the front, then the rows of `like`, then the others. */
  function Fronted(c: seq<Row>, k: nat, like: set<Row>): seq<Row>
    requires k < |c|
  {
    [c[k]] + Only(Without(c, k), like) + Except(Without(c, k), like)
  }

  lemma FrontedSame(c: seq<Row>, k: nat, like: set<Row>)
    requires k < |c|
    ensures multiset(Fronted(c, k, like)) == multiset(c)
  {
    hide Only, Except, Without;
    var q, x := Only(Without(c, k), like), Except(Without(c, k), like);
    OneOut(c, k);
    BothParts(Without(c, k), like);
    assert multiset([c[k]] + q + x) == multiset{c[k]} + multiset(q) + multiset(x);
  }

  lemma FrontedRows(c: seq<Row>, k: nat, like: set<Row>)
    requires k < |c|
    ensures var w, n := Fronted(c, k, like), |Only(Without(c, k), like)|;
            && n < |w| && w[0] == c[k]
            && (forall i :: 1 <= i <= n ==> w[i] in like)
            && (forall i :: n < i < |w| ==> w[i] !in like)
  {
    hide Only, Except, Without;
    var q, x, w := Only(Without(c, k), like), Except(Without(c, k), like), Fronted(c, k, like);
    forall i | 1 <= i <= |q| ensures w[i] in like {
      assert w[i] == q[i - 1] && w[i] in q;
    }
    forall i | |q| < i < |w| ensures w[i] !in like {
      assert w[i] == x[i - |q| - 1] && w[i] in x;
    }
  }

  // ---------------------------------------------------------------- integers in a column

  predicate Integers(c: seq<Row>, column: nat) {
    forall r: Row :: r in c ==> column < |r| && r[column].IntCell? && -TWO31 <= r[column].v < TWO31
  }

  /** Row `r` holds the integer that belongs last. */
  predicate Outer(c: seq<Row>, column: nat, desc: bool, e: Row)
    requires Integers(c, column)
  {
    e in c && forall r: Row :: r in c ==> if desc then e[column].v <= r[column].v else r[column].v <= e[column].v
  }

  lemma {:induction false} Outermost(c: seq<Row>, column: nat, desc: bool) returns (e: Row)
    requires c != [] && Integers(c, column)
    ensures Outer(c, column, desc, e)
  {
    e := c[0];
    if |c| > 1 {
      var rest := c[1..];
      var d := Outermost(rest, column, desc);
      if desc == (d[column].v < e[column].v) {
        e := d;
      }
      assert forall r :: r in c ==> r == c[0] || r in rest;
    }
  }

  /** Integers too far apart compare the wrong way round. */
  lemma FarCompare(a: int, b: int)
    requires -TWO31 <= a < TWO31 && -TWO31 <= b < TWO31 && a - b >= TWO31
    ensures Compare(IntCell(a), IntCell(b)) < 0
  {
  }

  function Alike(c: seq<Row>, column: nat, e: Row): set<Row>
    requires Integers(c, column) && column < |e|
  {
    set x | x in c && x[column] == e[column]
  }
}
