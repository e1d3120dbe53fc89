/** The leaf chain is the tree read from left to right, and the separators separate it. */
module PageOrder {
  import opened IndexKeys
  import opened PageTree

  /** The leaves below a page, by descending into its children from left to right. */
  ghost function LeavesBelow(v: Pages, at: map<PageNum, Info>, p: PageNum): seq<PageNum>
    requires Nodes(v, at) && Edges(v, at) && p in v
    decreases at[p].height, 1, 0
  {
    if v[p].Leaf? then [p] else LeavesOfKids(v, at, p, |v[p].kids|)
  }

  /** The leaves below the first `n` children. */
  ghost function LeavesOfKids(v: Pages, at: map<PageNum, Info>, p: PageNum, n: nat): seq<PageNum>
    requires Nodes(v, at) && Edges(v, at) && p in v && v[p].Inner? && n <= |v[p].kids|
    decreases at[p].height, 0, n
  {
    if n == 0 then []
    else
      assert EdgeOk(v, at, p, n - 1);
      LeavesOfKids(v, at, p, n - 1) + LeavesBelow(v, at, v[p].kids[n - 1])
  }

  /** Leaves with adjacent intervals that together cover the interval from `lo` to `hi`. */
  ghost predicate Segment(v: Pages, at: map<PageNum, Info>, s: seq<PageNum>, lo: Bound, hi: Bound) {
    && |s| > 0
    && (forall i :: 0 <= i < |s| ==> s[i] in v && v[s[i]].Leaf? && s[i] in at)
    && at[s[0]].lo == lo
    && at[s[|s| - 1]].hi == hi
    && (forall i, j :: 0 <= i && j == i + 1 && j < |s| ==> at[s[i]].hi == at[s[j]].lo)
  }

  lemma SegmentJoin(v: Pages, at: map<PageNum, Info>, s: seq<PageNum>, t: seq<PageNum>, lo: Bound, mid: Bound, hi: Bound)
    requires Segment(v, at, s, lo, mid) && Segment(v, at, t, mid, hi)
    ensures Segment(v, at, s + t, lo, hi)
  {
    var r := s + t;
    forall i, j | 0 <= i && j == i + 1 && j < |r| ensures at[r[i]].hi == at[r[j]].lo {
      if j < |s| {
        assert r[i] == s[i] && r[j] == s[j];
      } else if i >= |s| {
        assert r[i] == t[i - |s|] && r[j] == t[j - |s|];
      }
    }
    assert r[0] == s[0] && r[|r| - 1] == t[|t| - 1];
  }

  lemma {:induction false} BelowIsSegment(v: Pages, at: map<PageNum, Info>, p: PageNum)
    requires Nodes(v, at) && Edges(v, at) && p in v
    ensures Segment(v, at, LeavesBelow(v, at, p), at[p].lo, at[p].hi)
    decreases at[p].height, 1, 0
  {
    if v[p].Inner? {
      assert NodeOk(v[p], at[p]);
      KidsAreSegment(v, at, p, |v[p].kids|);
    }
  }

  lemma {:induction false} KidsAreSegment(v: Pages, at: map<PageNum, Info>, p: PageNum, n: nat)
    requires Nodes(v, at) && Edges(v, at) && p in v && v[p].Inner? && 0 < n <= |v[p].kids| == |v[p].keys| + 1
    ensures Segment(v, at, LeavesOfKids(v, at, p, n), at[p].lo, KidHi(v[p], at[p], n - 1))
    decreases at[p].height, 0, n
  {
    hide Segment, NodeOk;
    assert EdgeOk(v, at, p, n - 1);
    var c := v[p].kids[n - 1];
    BelowIsSegment(v, at, c);
    if n == 1 {
      assert LeavesOfKids(v, at, p, 0) == [];
      assert [] + LeavesBelow(v, at, c) == LeavesBelow(v, at, c);
    } else {
      KidsAreSegment(v, at, p, n - 1);
      SegmentJoin(v, at, LeavesOfKids(v, at, p, n - 1), LeavesBelow(v, at, c), at[p].lo, at[c].lo, at[c].hi);
    }
  }

  /** A leaf is where the chain has one that starts at the same key. */
  lemma SameStart(v: Pages, sh: Shape, p: PageNum, i: nat)
    requires Nodes(v, sh.at) && Chain(v, sh) && p in v && v[p].Leaf? && i < |sh.leaves|
    requires sh.at[p].lo == sh.at[sh.leaves[i]].lo
    ensures p == sh.leaves[i]
  {
    var j :| 0 <= j < |sh.leaves| && sh.leaves[j] == p;
    if j < i {
      ChainAscends(v, sh, j, i);
    } else if i < j {
      ChainAscends(v, sh, i, j);
    }
  }

  lemma {:induction false} SegmentOnChain(v: Pages, sh: Shape, s: seq<PageNum>, i: nat)
    requires Nodes(v, sh.at) && Chain(v, sh) && Segment(v, sh.at, s, NegInf, PosInf) && i < |s|
    ensures i < |sh.leaves| && s[i] == sh.leaves[i]
  {
    if i == 0 {
      SameStart(v, sh, s[0], 0);
    } else {
      SegmentOnChain(v, sh, s, i - 1);
      var p := s[i];
      assert p in v && NodeOk(v[p], sh.at[p]);
      SameStart(v, sh, s[i], i);
    }
  }

  lemma NotTheLast(v: Pages, sh: Shape, i: nat)
    requires Nodes(v, sh.at) && Chain(v, sh) && i + 1 < |sh.leaves|
    ensures sh.at[sh.leaves[i]].hi != PosInf
  {
    var p, q := sh.leaves[i], sh.leaves[i + 1];
    assert q in v && NodeOk(v[q], sh.at[q]);
    assert sh.at[p].hi == sh.at[q].lo;
  }

  /** The leaf chain is the in-order list of the leaves: following it is traversing the tree. */
  lemma ChainIsInOrder(v: Pages, root: PageNum, sh: Shape)
    requires Tree(v, root, sh)
    ensures LeavesBelow(v, sh.at, root) == sh.leaves
  {
    hide LeavesBelow;
    var s := LeavesBelow(v, sh.at, root);
    BelowIsSegment(v, sh.at, root);
    forall i | 0 <= i < |s| ensures i < |sh.leaves| && s[i] == sh.leaves[i] {
      SegmentOnChain(v, sh, s, i);
    }
    if |s| < |sh.leaves| {
      NotTheLast(v, sh, |s| - 1);
    }
  }

  lemma SegmentInside(v: Pages, at: map<PageNum, Info>, s: seq<PageNum>, lo: Bound, hi: Bound, i: nat)
    requires Nodes(v, at) && Segment(v, at, s, lo, hi) && i < |s|
    ensures i > 0 ==> at[s[i]].lo.At? && BoundLess(lo, at[s[i]].lo)
    ensures i + 1 < |s| ==> at[s[i]].hi.At? && BoundLess(at[s[i]].hi, hi)
  {
    SegmentFrom(v, at, s, lo, hi, i);
    SegmentUpTo(v, at, s, lo, hi, i);
  }

  lemma {:induction false} SegmentFrom(v: Pages, at: map<PageNum, Info>, s: seq<PageNum>, lo: Bound, hi: Bound, i: nat)
    requires Nodes(v, at) && Segment(v, at, s, lo, hi) && i < |s|
    ensures i > 0 ==> at[s[i]].lo.At? && BoundLess(lo, at[s[i]].lo)
  {
    if i > 0 {
      SegmentFrom(v, at, s, lo, hi, i - 1);
      var p, q := s[i - 1], s[i];
      assert p in v && q in v && NodeOk(v[p], at[p]) && NodeOk(v[q], at[q]);
      assert at[p].hi == at[q].lo;
    }
  }

  lemma {:induction false} SegmentUpTo(v: Pages, at: map<PageNum, Info>, s: seq<PageNum>, lo: Bound, hi: Bound, i: nat)
    requires Nodes(v, at) && Segment(v, at, s, lo, hi) && i < |s|
    ensures i + 1 < |s| ==> at[s[i]].hi.At? && BoundLess(at[s[i]].hi, hi)
    decreases |s| - i
  {
    if i + 1 < |s| {
      SegmentUpTo(v, at, s, lo, hi, i + 1);
      var p, q := s[i], s[i + 1];
      assert p in v && q in v && NodeOk(v[p], at[p]) && NodeOk(v[q], at[q]);
      assert at[p].hi == at[q].lo;
    }
  }

  /** Every key stored below a page lies in the page's interval. */
  lemma KeysBelow(v: Pages, at: map<PageNum, Info>, p: PageNum, l: PageNum, k: Key)
    requires Nodes(v, at) && Edges(v, at) && p in v && l in LeavesBelow(v, at, p) && l in v && k in v[l].keys
    ensures AtOrBelow(at[p].lo, k) && Above(at[p].hi, k)
  {
    hide LeavesBelow;
    var s := LeavesBelow(v, at, p);
    BelowIsSegment(v, at, p);
    var i :| 0 <= i < |s| && s[i] == l;
    assert l in v && NodeOk(v[l], at[l]);
    SegmentInside(v, at, s, at[p].lo, at[p].hi, i);
  }

  /** A separator is above every key stored to its left, and no key stored to its right is below it. */
  lemma SeparatorsSeparate(v: Pages, at: map<PageNum, Info>, p: PageNum, i: nat, l: PageNum, k: Key)
    requires Nodes(v, at) && Edges(v, at) && p in v && v[p].Inner? && i < |v[p].keys| && |v[p].kids| == |v[p].keys| + 1
    requires v[p].kids[i] in v && v[p].kids[i + 1] in v && l in v && k in v[l].keys
    ensures l in LeavesBelow(v, at, v[p].kids[i]) ==> Less(k, v[p].keys[i])
    ensures l in LeavesBelow(v, at, v[p].kids[i + 1]) ==> !Less(k, v[p].keys[i])
  {
    hide LeavesBelow, NodeOk;
    assert EdgeOk(v, at, p, i) && EdgeOk(v, at, p, i + 1);
    if l in LeavesBelow(v, at, v[p].kids[i]) {
      KeysBelow(v, at, v[p].kids[i], l, k);
    }
    if l in LeavesBelow(v, at, v[p].kids[i + 1]) {
      KeysBelow(v, at, v[p].kids[i + 1], l, k);
    }
  }

  lemma OneMoreKid(v: Pages, at: map<PageNum, Info>, q: PageNum)
    requires Nodes(v, at) && q in v && v[q].Inner?
    ensures |v[q].kids| == |v[q].keys| + 1
  {
    assert NodeOk(v[q], at[q]);
  }

  /** Every separator is the lower end of the interval of a leaf: the first one to its right. */
  lemma SeparatorStartsLeaf(v: Pages, root: PageNum, sh: Shape, q: PageNum, i: nat) returns (l: PageNum)
    requires Tree(v, root, sh) && q in v && v[q].Inner? && i < |v[q].keys|
    ensures l in v && l in sh.at && v[l].Leaf? && sh.at[l].lo == At(v[q].keys[i])
  {
    hide LeavesBelow, NodeOk, Chain, Rooted;
    OneMoreKid(v, sh.at, q);
    assert EdgeOk(v, sh.at, q, i + 1);
    var c := v[q].kids[i + 1];
    BelowIsSegment(v, sh.at, c);
    l := LeavesBelow(v, sh.at, c)[0];
  }

  /** A key lies in the interval of one leaf only. */
  lemma OneLeaf(v: Pages, root: PageNum, sh: Shape, p: PageNum, l: PageNum, k: Key)
    requires Tree(v, root, sh) && p in v && v[p].Leaf? && p in sh.at && l in v && v[l].Leaf? && l in sh.at
    requires AtOrBelow(sh.at[p].lo, k) && Above(sh.at[p].hi, k) && AtOrBelow(sh.at[l].lo, k) && Above(sh.at[l].hi, k)
    ensures p == l
  {
    var i :| 0 <= i < |sh.leaves| && sh.leaves[i] == p;
    var j :| 0 <= j < |sh.leaves| && sh.leaves[j] == l;
    LeafUnique(v, sh, i, j, k);
  }
}
