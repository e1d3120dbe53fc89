/** Merging two neighbouring pages: the right one moves into the left one, and their separator leaves the parent. */
module PageMerge {
  import opened IndexKeys
  import opened PageTree
  import opened PageSplit

  ghost function MergeNode(l: Node, r: Node, k: Key): Node {
    match (l, r)
    case (Leaf(parent, keys, rids, _), Leaf(_, keys', rids', next)) => Leaf(parent, keys + keys', rids + rids', next)
    case (Inner(parent, keys, kids), Inner(_, keys', kids')) => Inner(parent, keys + [k] + keys', kids + kids')
    case _ => l
  }

  /** An inner page without separator `d` and the child right of it. */
  ghost function Detach(n: Node, d: nat): Node
    requires n.Inner? && |n.kids| == |n.keys| + 1 && d < |n.keys|
  {
    Inner(n.parent, n.keys[..d] + n.keys[d + 1..], n.kids[..d + 1] + n.kids[d + 2..])
  }

  /** Page `q` has children `d` and `d + 1`. */
  ghost predicate HasPair(v: Pages, q: PageNum, d: nat) {
    && q in v && v[q].Inner? && |v[q].kids| == |v[q].keys| + 1 && d < |v[q].keys|
    && v[q].kids[d] in v && v[q].kids[d + 1] in v
  }

  ghost function MergePages(v: Pages, q: PageNum, d: nat): Pages
    requires HasPair(v, q, d)
  {
    var l, r := v[q].kids[d], v[q].kids[d + 1];
    (Reparent(v, KidsOf(v[r]), l) - {r})[l := MergeNode(v[l], v[r], v[q].keys[d])][q := Detach(v[q], d)]
  }

  ghost function MergeAt(at: map<PageNum, Info>, l: PageNum, r: PageNum): map<PageNum, Info>
    requires l in at && r in at
  {
    (at - {r})[l := at[l].(hi := at[r].hi)]
  }

  ghost function RemovePage(s: seq<PageNum>, p: PageNum): seq<PageNum> {
    if s == [] then [] else if s[0] == p then s[1..] else [s[0]] + RemovePage(s[1..], p)
  }

  ghost function MergeShape(v: Pages, sh: Shape, q: PageNum, d: nat): Shape
    requires HasPair(v, q, d) && v[q].kids[d] in sh.at && v[q].kids[d + 1] in sh.at
  {
    var l, r := v[q].kids[d], v[q].kids[d + 1];
    Shape(MergeAt(sh.at, l, r), RemovePage(sh.leaves, r))
  }

  ghost predicate CanMerge(v: Pages, root: PageNum, sh: Shape, q: PageNum, d: nat) {
    Tree(v, root, sh) && q in v && v[q].Inner? && d < |v[q].keys|
  }

  // ---------------------------------------------------------------- one page

  lemma MergeNodeOk(l: Node, r: Node, k: Key, a: Info, b: Info)
    requires NodeOk(l, a) && NodeOk(r, b) && a.hi == At(k) && b.lo == At(k) && a.height == b.height
    requires l.Inner? && r.Inner? ==> forall c :: c in l.kids ==> c !in r.kids
    ensures NodeOk(MergeNode(l, r, k), a.(hi := b.hi))
    ensures l.Leaf? == r.Leaf?
  {
    var w := MergeNode(l, r, k);
    assert Above(b.hi, k);
    assert BoundLess(a.lo, At(k));
    forall x | 0 <= x < |l.keys| ensures Less(l.keys[x], k) {
      assert Above(a.hi, l.keys[x]);
    }
    if l.Leaf? {
      forall x, y | 0 <= x < y < |w.keys| ensures Less(w.keys[x], w.keys[y]) {
        assert y >= |l.keys| ==> AtOrBelow(b.lo, r.keys[y - |l.keys|]);
      }
    } else {
      forall x, y | 0 <= x < y < |w.keys| ensures Less(w.keys[x], w.keys[y]) {
        assert y > |l.keys| ==> BoundLess(b.lo, At(r.keys[y - |l.keys| - 1]));
      }
      forall x, y | 0 <= x < y < |w.kids| ensures w.kids[x] != w.kids[y] {
        if x < |l.kids| {
          var c := l.kids[x];
          assert c in l.kids;
        }
        assert y >= |l.kids| ==> r.kids[y - |l.kids|] == w.kids[y];
      }
    }
  }

  lemma DetachOk(n: Node, info: Info, d: nat)
    requires NodeOk(n, info) && n.Inner? && d < |n.keys|
    ensures NodeOk(Detach(n, d), info)
  {
    var w := Detach(n, d);
    assert forall x :: 0 <= x < |w.keys| ==> w.keys[x] == n.keys[if x < d then x else x + 1];
    assert forall x :: 0 <= x < |w.kids| ==> w.kids[x] == n.kids[if x <= d then x else x + 1];
  }

  lemma DetachKids(n: Node, info: Info, d: nat, j: nat)
    requires n.Inner? && |n.kids| == |n.keys| + 1 && d < |n.keys| && j < |n.keys|
    ensures var w := Detach(n, d);
            && w.Inner? && |w.kids| == |w.keys| + 1 == |n.keys|
            && w.kids[j] == n.kids[if j <= d then j else j + 1]
            && KidLo(w, info, j) == KidLo(n, info, if j <= d then j else j + 1)
            && KidHi(w, info, j) == KidHi(n, info, if j < d then j else j + 1)
  {
  }

  lemma MergeNodeKids(l: Node, r: Node, k: Key, a: Info, b: Info, j: nat)
    requires l.Inner? && r.Inner? && |l.kids| == |l.keys| + 1 && |r.kids| == |r.keys| + 1
    requires a.hi == At(k) && b.lo == At(k) && j < |l.kids| + |r.kids|
    ensures var w, c := MergeNode(l, r, k), a.(hi := b.hi);
            && w.Inner? && |w.kids| == |w.keys| + 1 == |l.kids| + |r.kids|
            && w.kids[j] == (if j < |l.kids| then l.kids[j] else r.kids[j - |l.kids|])
            && KidLo(w, c, j) == (if j < |l.kids| then KidLo(l, a, j) else KidLo(r, b, j - |l.kids|))
            && KidHi(w, c, j) == (if j < |l.kids| then KidHi(l, a, j) else KidHi(r, b, j - |l.kids|))
  {
  }

  // ---------------------------------------------------------------- the page map

  lemma MergeBasics(v: Pages, root: PageNum, sh: Shape, q: PageNum, d: nat)
    requires CanMerge(v, root, sh, q, d)
    ensures HasPair(v, q, d) && q in sh.at && NodeOk(v[q], sh.at[q])
    ensures EdgeOk(v, sh.at, q, d) && EdgeOk(v, sh.at, q, d + 1)
    ensures var l, r := v[q].kids[d], v[q].kids[d + 1];
            && l != r && l != q && r != q
            && NodeOk(v[l], sh.at[l]) && NodeOk(v[r], sh.at[r])
            && sh.at[l].hi == At(v[q].keys[d]) == sh.at[r].lo && sh.at[l].height == sh.at[r].height
  {
    assert NodeOk(v[q], sh.at[q]);
    var l, r := v[q].kids[d], v[q].kids[d + 1];
    assert EdgeOk(v, sh.at, q, d) && EdgeOk(v, sh.at, q, d + 1);
    assert l in v && NodeOk(v[l], sh.at[l]);
    assert r in v && NodeOk(v[r], sh.at[r]);
  }

  lemma MergeNodes(v: Pages, root: PageNum, sh: Shape, q: PageNum, d: nat)
    requires CanMerge(v, root, sh, q, d)
    ensures HasPair(v, q, d) && v[q].kids[d] in sh.at && v[q].kids[d + 1] in sh.at
    ensures Nodes(MergePages(v, q, d), MergeAt(sh.at, v[q].kids[d], v[q].kids[d + 1]))
  {
    hide Edges, Rooted, Chain;
    MergeBasics(v, root, sh, q, d);
    var l, r := v[q].kids[d], v[q].kids[d + 1];
    KidsLower(v, sh.at, l);
    KidsLower(v, sh.at, r);
    MergeNodeOk(v[l], v[r], v[q].keys[d], sh.at[l], sh.at[r]);
    DetachOk(v[q], sh.at[q], d);
    var w, at2 := MergePages(v, q, d), MergeAt(sh.at, l, r);
    assert at2.Keys == w.Keys;
    forall x | x in w ensures x > 0 && NodeOk(w[x], at2[x]) {
      SameNodeOk(v, sh.at, x, v[x].(parent := w[x].parent));
    }
  }

  /** Parents and intervals after the merge. */
  lemma MergeLook(v: Pages, root: PageNum, sh: Shape, q: PageNum, d: nat, c: PageNum)
    requires CanMerge(v, root, sh, q, d)
    requires c in v
    ensures HasPair(v, q, d) && v[q].kids[d] in sh.at && v[q].kids[d + 1] in sh.at && c in sh.at
    ensures var l, r := v[q].kids[d], v[q].kids[d + 1];
            var w, at2 := MergePages(v, q, d), MergeAt(sh.at, l, r);
            c != r ==>
              && c in w && c in at2
              && w[c].parent == (if c in KidsOf(v[r]) then l else v[c].parent)
              && at2[c] == (if c == l then sh.at[l].(hi := sh.at[r].hi) else sh.at[c])
  {
    hide Edges, Rooted, Chain;
    MergeBasics(v, root, sh, q, d);
    KidsLower(v, sh.at, v[q].kids[d + 1]);
  }

  lemma MergeMoves(v: Pages, root: PageNum, sh: Shape, q: PageNum, d: nat, x: PageNum, j: nat)
    requires CanMerge(v, root, sh, q, d)
    requires x in v && v[x].Inner? && j < |v[x].kids|
    ensures HasPair(v, q, d)
    ensures v[x].kids[j] in KidsOf(v[v[q].kids[d + 1]]) <==> x == v[q].kids[d + 1]
    ensures v[x].kids[j] == v[q].kids[d] <==> x == q && j == d
    ensures v[x].kids[j] == v[q].kids[d + 1] <==> x == q && j == d + 1
  {
    hide Rooted, Chain;
    MergeBasics(v, root, sh, q, d);
    var l, r := v[q].kids[d], v[q].kids[d + 1];
    var c := v[x].kids[j];
    if x != r && c in KidsOf(v[r]) {
      var a :| 0 <= a < |v[r].kids| && v[r].kids[a] == c;
      KidUnique(v, sh.at, x, j, r, a);
    }
    if c == l {
      KidUnique(v, sh.at, x, j, q, d);
    }
    if c == r {
      KidUnique(v, sh.at, x, j, q, d + 1);
    }
  }

  lemma MergeEdgesParent(v: Pages, root: PageNum, sh: Shape, q: PageNum, d: nat, j: nat)
    requires CanMerge(v, root, sh, q, d) && j < |v[q].keys|
    ensures HasPair(v, q, d) && v[q].kids[d] in sh.at && v[q].kids[d + 1] in sh.at
    ensures var w, at2 := MergePages(v, q, d), MergeAt(sh.at, v[q].kids[d], v[q].kids[d + 1]);
            q in w && w[q].Inner? && j < |w[q].kids| == |w[q].keys| + 1 == |v[q].keys| && q in at2 && EdgeOk(w, at2, q, j)
  {
    MergeBasics(v, root, sh, q, d);
    var b := if j <= d then j else j + 1;
    assert EdgeOk(v, sh.at, q, b);
    hide Tree;
    DetachKids(v[q], sh.at[q], d, j);
    MergeMoves(v, root, sh, q, d, q, b);
    MergeLook(v, root, sh, q, d, v[q].kids[b]);
  }

  lemma MergeEdgesLeft(v: Pages, root: PageNum, sh: Shape, q: PageNum, d: nat, j: nat)
    requires CanMerge(v, root, sh, q, d) && HasPair(v, q, d) && v[v[q].kids[d]].Inner?
    ensures v[q].kids[d] in sh.at && v[q].kids[d + 1] in sh.at && v[v[q].kids[d + 1]].Inner?
    ensures var l, r := v[q].kids[d], v[q].kids[d + 1];
            var w, at2 := MergePages(v, q, d), MergeAt(sh.at, l, r);
            l in w && w[l].Inner? && |w[l].kids| == |w[l].keys| + 1 == |v[l].kids| + |v[r].kids| && l in at2
            && (j < |w[l].kids| ==> EdgeOk(w, at2, l, j))
  {
    hide Chain, Rooted, Nodes, Strict, MergeNode, Less, AtOrBelow, KidLo, KidHi;
    MergeBasics(v, root, sh, q, d);
    var l, r := v[q].kids[d], v[q].kids[d + 1];
    if j < |v[l].kids| + |v[r].kids| {
      MergeNodeKids(v[l], v[r], v[q].keys[d], sh.at[l], sh.at[r], j);
      var x, b := if j < |v[l].kids| then l else r, if j < |v[l].kids| then j else j - |v[l].kids|;
      assert x in v && EdgeOk(v, sh.at, x, b);
      hide Tree;
      MergeMoves(v, root, sh, q, d, x, b);
      MergeLook(v, root, sh, q, d, v[x].kids[b]);
    } else {
      MergeNodeKids(v[l], v[r], v[q].keys[d], sh.at[l], sh.at[r], 0);
    }
  }

  lemma MergeEdgesOther(v: Pages, root: PageNum, sh: Shape, q: PageNum, d: nat, x: PageNum, j: nat)
    requires CanMerge(v, root, sh, q, d) && HasPair(v, q, d)
    requires x in v && v[x].Inner? && x != q && x != v[q].kids[d] && x != v[q].kids[d + 1] && j < |v[x].kids|
    ensures v[q].kids[d] in sh.at && v[q].kids[d + 1] in sh.at
    ensures var w, at2 := MergePages(v, q, d), MergeAt(sh.at, v[q].kids[d], v[q].kids[d + 1]);
            x in w && w[x].Inner? && w[x].kids == v[x].kids && w[x].keys == v[x].keys && |w[x].kids| == |w[x].keys| + 1
            && x in at2 && EdgeOk(w, at2, x, j)
  {
    MergeBasics(v, root, sh, q, d);
    assert NodeOk(v[x], sh.at[x]);
    assert EdgeOk(v, sh.at, x, j);
    hide Tree;
    MergeMoves(v, root, sh, q, d, x, j);
    MergeLook(v, root, sh, q, d, v[x].kids[j]);
  }

  lemma MergeEdges(v: Pages, root: PageNum, sh: Shape, q: PageNum, d: nat)
    requires CanMerge(v, root, sh, q, d) && HasPair(v, q, d) && v[q].kids[d] in sh.at && v[q].kids[d + 1] in sh.at
    requires Nodes(MergePages(v, q, d), MergeAt(sh.at, v[q].kids[d], v[q].kids[d + 1]))
    ensures Edges(MergePages(v, q, d), MergeAt(sh.at, v[q].kids[d], v[q].kids[d + 1]))
  {
    MergeBasics(v, root, sh, q, d);
    hide Tree;
    var l, r := v[q].kids[d], v[q].kids[d + 1];
    var w, at2 := MergePages(v, q, d), MergeAt(sh.at, l, r);
    forall x, j | x in w && w[x].Inner? && 0 <= j < |w[x].kids|
      ensures |w[x].kids| == |w[x].keys| + 1 && x in at2 && EdgeOk(w, at2, x, j)
    {
      if x == q {
        MergeEdgesParent(v, root, sh, q, d, j);
      } else if x == l {
        MergeEdgesLeft(v, root, sh, q, d, j);
      } else {
        MergeEdgesOther(v, root, sh, q, d, x, j);
      }
    }
  }

  lemma MergedTwo(v: Pages, q: PageNum, d: nat)
    requires HasPair(v, q, d) && v[q].kids[d] != q
    ensures var w, l := MergePages(v, q, d), v[q].kids[d];
            q in w && w[q] == Detach(v[q], d) && l in w && w[l] == MergeNode(v[l], v[v[q].kids[d + 1]], v[q].keys[d])
            && forall x :: x in v && x != v[q].kids[d + 1] ==> x in w && (x != q && x != l ==> w[x] == v[x].(parent := w[x].parent))
  {
  }

  lemma MergeHangs(v: Pages, root: PageNum, sh: Shape, q: PageNum, d: nat, x: PageNum)
    requires CanMerge(v, root, sh, q, d) && HasPair(v, q, d)
    requires x in v && x != root && x != v[q].kids[d + 1]
    ensures var w := MergePages(v, q, d); x in w && Hangs(w, x)
  {
    hide Tree, MergePages, NodeOk, MergeNode, Detach;
    MergeBasics(v, root, sh, q, d);
    MergedTwo(v, q, d);
    NotRootHangs(v, root, sh, x);
    var l, r := v[q].kids[d], v[q].kids[d + 1];
    var w := MergePages(v, q, d);
    var y := v[x].parent;
    var j :| 0 <= j < |v[y].kids| && v[y].kids[j] == x;
    MergeMoves(v, root, sh, q, d, y, j);
    if y == q {
      var b := if j <= d then j else j - 1;
      DetachKids(v[q], sh.at[q], d, b);
      MergeEdgesParent(v, root, sh, q, d, b);
      assert w[q].kids[b] == x;
    } else if y == l || y == r {
      var b := if y == l then j else |v[l].kids| + j;
      MergeEdgesLeft(v, root, sh, q, d, b);
      MergeNodeKids(v[l], v[r], v[q].keys[d], sh.at[l], sh.at[r], b);
      assert w[l].kids[b] == x;
    } else {
      MergeEdgesOther(v, root, sh, q, d, y, j);
    }
  }

  lemma MergeRooted(v: Pages, root: PageNum, sh: Shape, q: PageNum, d: nat)
    requires CanMerge(v, root, sh, q, d) && HasPair(v, q, d) && v[q].kids[d] in sh.at && v[q].kids[d + 1] in sh.at
    ensures Rooted(MergePages(v, q, d), MergeAt(sh.at, v[q].kids[d], v[q].kids[d + 1]), root)
  {
    hide Chain, NodeOk, EdgeOk, Hangs, Detach;
    MergeBasics(v, root, sh, q, d);
    var r := v[q].kids[d + 1];
    RootIsNoKid(v, root, sh, q);
    RootIsNoKid(v, root, sh, r);
    MergeLook(v, root, sh, q, d, root);
    var w := MergePages(v, q, d);
    assert w.Keys == v.Keys - {r};
    forall x | x in w && x != root ensures Hangs(w, x) {
      MergeHangs(v, root, sh, q, d, x);
    }
  }

  // ---------------------------------------------------------------- the chain

  lemma {:induction false} RemovePageAt(s: seq<PageNum>, p: PageNum, j: nat)
    requires DistinctPages(s) && j < |s| && s[j] == p
    ensures RemovePage(s, p) == s[..j] + s[j + 1..]
  {
    if j > 0 {
      RemovePageAt(s[1..], p, j - 1);
      assert [s[0]] + (s[1..][..j - 1] + s[1..][j..]) == s[..j] + s[j + 1..];
    }
  }

  lemma {:induction false} RemoveAbsent(s: seq<PageNum>, p: PageNum)
    requires p !in s
    ensures RemovePage(s, p) == s
  {
    if s != [] {
      RemoveAbsent(s[1..], p);
    }
  }

  /** The right one of two leaves under neighbouring separators follows the left one in the chain. */
  lemma PairInChain(v: Pages, root: PageNum, sh: Shape, q: PageNum, d: nat) returns (j: nat)
    requires CanMerge(v, root, sh, q, d) && HasPair(v, q, d) && v[v[q].kids[d]].Leaf?
    ensures v[v[q].kids[d + 1]].Leaf?
    ensures j + 1 < |sh.leaves| && sh.leaves[j] == v[q].kids[d] && sh.leaves[j + 1] == v[q].kids[d + 1]
    ensures DistinctPages(sh.leaves)
  {
    MergeBasics(v, root, sh, q, d);
    hide Edges, Rooted;
    var l, r, s, k := v[q].kids[d], v[q].kids[d + 1], sh.leaves, v[q].keys[d];
    j :| 0 <= j < |s| && s[j] == l;
    var b: nat :| b < |s| && s[b] == r;
    assert j + 1 < |s|;
    var x := s[j + 1];
    assert sh.at[l].hi == sh.at[x].lo;
    assert x in v && NodeOk(v[x], sh.at[x]);
    ChainDistinct(v, sh);
    LeafUnique(v, sh, j + 1, b, k);
  }

  /** Links and intervals of the leaves when leaf `p` took over its successor `c`. */
  ghost predicate ChainLost(v: Pages, sh: Shape, w: Pages, sh2: Shape, j: nat) {
    && j + 1 < |sh.leaves|
    && sh2.leaves == sh.leaves[..j + 1] + sh.leaves[j + 2..]
    && (forall a :: 0 <= a < |sh.leaves| && a != j + 1 ==>
          var x := sh.leaves[a];
          && x in v && x in w && w[x].Leaf? && x in sh.at && x in sh2.at
          && sh2.at[x].lo == sh.at[x].lo
          && (if a == j then var c := sh.leaves[j + 1]; c in v && v[c].Leaf? && c in sh.at && w[x].next == v[c].next && sh2.at[x].hi == sh.at[c].hi
              else v[x].Leaf? && w[x].next == v[x].next && sh2.at[x].hi == sh.at[x].hi))
  }

  lemma ChainLostAt(v: Pages, sh: Shape, w: Pages, sh2: Shape, j: nat, a: nat)
    requires ChainLost(v, sh, w, sh2, j) && a < |sh2.leaves|
    ensures var x, y := sh2.leaves[a], sh.leaves[if a < j then a else a + 1];
            && x in w && w[x].Leaf? && x in sh2.at && y in v && v[y].Leaf? && y in sh.at
            && w[x].next == v[y].next
            && x == sh.leaves[if a <= j then a else a + 1]
            && sh2.at[x].lo == sh.at[sh.leaves[if a <= j then a else a + 1]].lo
            && sh2.at[x].hi == sh.at[y].hi
  {
    assert sh2.leaves[a] == sh.leaves[if a <= j then a else a + 1];
  }

  lemma ChainLostLink(v: Pages, sh: Shape, w: Pages, sh2: Shape, j: nat, a: nat)
    requires Chain(v, sh) && ChainLost(v, sh, w, sh2, j) && a + 1 < |sh2.leaves|
    ensures var x, y := sh2.leaves[a], sh2.leaves[a + 1];
            x in w && w[x].Leaf? && x in sh2.at && y in sh2.at && sh2.at[x].hi == sh2.at[y].lo && w[x].next == y
  {
    ChainLostAt(v, sh, w, sh2, j, a);
    ChainLostAt(v, sh, w, sh2, j, a + 1);
    hide ChainLost;
    var c := if a < j then a else a + 1;
    var e := c + 1;
    assert e < |sh.leaves| && sh.at[sh.leaves[c]].hi == sh.at[sh.leaves[e]].lo && v[sh.leaves[c]].next == sh.leaves[e];
  }

  lemma ChainLostEnds(v: Pages, sh: Shape, w: Pages, sh2: Shape, j: nat)
    requires Chain(v, sh) && ChainLost(v, sh, w, sh2, j)
    ensures var t := sh2.leaves;
            |t| > 0 && t[0] in sh2.at && t[|t| - 1] in sh2.at && t[|t| - 1] in w && w[t[|t| - 1]].Leaf?
            && sh2.at[t[0]].lo == NegInf && sh2.at[t[|t| - 1]].hi == PosInf && w[t[|t| - 1]].next == NO_NEXT
  {
    ChainLostAt(v, sh, w, sh2, j, 0);
    ChainLostAt(v, sh, w, sh2, j, |sh2.leaves| - 1);
  }

  lemma ChainRemove(v: Pages, sh: Shape, w: Pages, sh2: Shape, j: nat)
    requires Chain(v, sh) && ChainLost(v, sh, w, sh2, j)
    requires forall x :: x in w && w[x].Leaf? ==> x in sh2.leaves
    ensures Chain(w, sh2)
  {
    hide ChainLost, Chain;
    var t := sh2.leaves;
    ChainLostEnds(v, sh, w, sh2, j);
    forall a | 0 <= a < |t| ensures t[a] in w && w[t[a]].Leaf? && t[a] in sh2.at {
      ChainLostAt(v, sh, w, sh2, j, a);
    }
    forall a, b | 0 <= a && b == a + 1 && b < |t| ensures sh2.at[t[a]].hi == sh2.at[t[b]].lo && w[t[a]].next == t[b] {
      ChainLostLink(v, sh, w, sh2, j, a);
    }
    ChainIntro(w, sh2);
  }

  lemma ChainIntro(v: Pages, sh: Shape)
    requires |sh.leaves| > 0
    requires forall i :: 0 <= i < |sh.leaves| ==> sh.leaves[i] in v && v[sh.leaves[i]].Leaf? && sh.leaves[i] in sh.at
    requires sh.at[sh.leaves[0]].lo == NegInf && sh.at[sh.leaves[|sh.leaves| - 1]].hi == PosInf
    requires v[sh.leaves[|sh.leaves| - 1]].next == NO_NEXT
    requires forall i, j :: 0 <= i && j == i + 1 && j < |sh.leaves| ==> sh.at[sh.leaves[i]].hi == sh.at[sh.leaves[j]].lo && v[sh.leaves[i]].next == sh.leaves[j]
    requires forall p :: p in v && v[p].Leaf? ==> p in sh.leaves
    ensures Chain(v, sh)
  {
  }

  /** What the merge does to one leaf other than the absorbed one. */
  lemma MergeLeafAt(v: Pages, root: PageNum, sh: Shape, q: PageNum, d: nat, x: PageNum)
    requires CanMerge(v, root, sh, q, d) && HasPair(v, q, d) && v[v[q].kids[d]].Leaf?
    requires x in v && v[x].Leaf? && x != v[q].kids[d + 1]
    ensures v[q].kids[d] in sh.at && v[q].kids[d + 1] in sh.at && x in sh.at
    ensures var w, at2 := MergePages(v, q, d), MergeShape(v, sh, q, d).at;
            var l, r := v[q].kids[d], v[q].kids[d + 1];
            && x in w && w[x].Leaf? && x in at2 && at2[x].lo == sh.at[x].lo
            && v[r].Leaf? && w[x].next == (if x == l then v[r].next else v[x].next)
            && at2[x].hi == (if x == l then sh.at[r].hi else sh.at[x].hi)
  {
    hide Chain, Rooted, NodeOk, EdgeOk;
    MergeBasics(v, root, sh, q, d);
    hide Edges, Rooted, Chain, NodeOk;
  }

  lemma MergeLeafLost(v: Pages, root: PageNum, sh: Shape, q: PageNum, d: nat, j: nat)
    requires CanMerge(v, root, sh, q, d) && HasPair(v, q, d) && v[v[q].kids[d]].Leaf?
    requires v[q].kids[d] in sh.at && v[q].kids[d + 1] in sh.at
    requires j + 1 < |sh.leaves| && sh.leaves[j] == v[q].kids[d] && sh.leaves[j + 1] == v[q].kids[d + 1]
    requires DistinctPages(sh.leaves)
    ensures ChainLost(v, sh, MergePages(v, q, d), MergeShape(v, sh, q, d), j)
  {
    hide Nodes, Edges, Rooted, MergePages, MergeAt;
    var l, r, s := v[q].kids[d], v[q].kids[d + 1], sh.leaves;
    RemovePageAt(s, r, j + 1);
    forall a | 0 <= a < |s| && a != j + 1 ensures var x := s[a]; x in v && v[x].Leaf? && x != r && (x == l <==> a == j) {
      var x := s[a];
      assert x in v;
    }
    hide Tree;
    forall a | 0 <= a < |s| && a != j + 1
      ensures var x := s[a]; var w, sh2 := MergePages(v, q, d), MergeShape(v, sh, q, d);
              && x in w && w[x].Leaf? && x in sh.at && x in sh2.at && sh2.at[x].lo == sh.at[x].lo
              && v[r].Leaf? && w[x].next == (if a == j then v[r].next else v[x].next)
              && sh2.at[x].hi == (if a == j then sh.at[r].hi else sh.at[x].hi)
    {
      MergeLeafAt(v, root, sh, q, d, s[a]);
    }
  }

  lemma MergeLeavesOld(v: Pages, root: PageNum, sh: Shape, q: PageNum, d: nat, x: PageNum)
    requires CanMerge(v, root, sh, q, d) && HasPair(v, q, d)
    requires var w := MergePages(v, q, d); x in w && w[x].Leaf?
    ensures x in v && v[x].Leaf? && x != v[q].kids[d + 1]
  {
    MergeBasics(v, root, sh, q, d);
    hide Tree, NodeOk;
  }

  lemma MergeLeafChain(v: Pages, root: PageNum, sh: Shape, q: PageNum, d: nat)
    requires CanMerge(v, root, sh, q, d) && HasPair(v, q, d) && v[v[q].kids[d]].Leaf?
    requires v[q].kids[d] in sh.at && v[q].kids[d + 1] in sh.at
    ensures Chain(MergePages(v, q, d), MergeShape(v, sh, q, d))
  {
    hide Nodes, Edges, Rooted, MergePages, MergeAt, ChainLost, DistinctPages;
    var w, sh2 := MergePages(v, q, d), MergeShape(v, sh, q, d);
    var s := sh.leaves;
    var j := PairInChain(v, root, sh, q, d);
    MergeLeafLost(v, root, sh, q, d, j);
    RemovePageAt(s, v[q].kids[d + 1], j + 1);
    forall x | x in w && w[x].Leaf? ensures x in sh2.leaves {
      MergeLeavesOld(v, root, sh, q, d, x);
      var a :| 0 <= a < |s| && s[a] == x;
      assert sh2.leaves[if a <= j then a else a - 1] == x;
    }
    hide Chain;
    ChainRemove(v, sh, w, sh2, j);
  }

  lemma MergeInnerChain(v: Pages, root: PageNum, sh: Shape, q: PageNum, d: nat)
    requires CanMerge(v, root, sh, q, d) && HasPair(v, q, d) && v[v[q].kids[d]].Inner? && v[v[q].kids[d + 1]].Inner?
    requires v[q].kids[d] in sh.at && v[q].kids[d + 1] in sh.at
    ensures Chain(MergePages(v, q, d), MergeShape(v, sh, q, d))
  {
    hide Nodes, Edges, Rooted, Chain;
    InnerNotInChain(v, sh, v[q].kids[d + 1]);
    RemoveAbsent(sh.leaves, v[q].kids[d + 1]);
    hide Chain;
    var w := MergePages(v, q, d);
    forall x | x in v && v[x].Leaf? ensures x in w && w[x].Leaf? && w[x].next == v[x].next {
    }
    forall x | x in w && w[x].Leaf? ensures x in v && v[x].Leaf? {
      MergeLeavesOld(v, root, sh, q, d, x);
    }
    hide MergePages;
    ChainSame(v, sh, w, MergeShape(v, sh, q, d));
  }

  lemma MergeChain(v: Pages, root: PageNum, sh: Shape, q: PageNum, d: nat)
    requires CanMerge(v, root, sh, q, d) && HasPair(v, q, d)
    requires v[q].kids[d] in sh.at && v[q].kids[d + 1] in sh.at
    ensures Chain(MergePages(v, q, d), MergeShape(v, sh, q, d))
  {
    MergeBasics(v, root, sh, q, d);
    hide Tree, MergePages, MergeShape, Chain;
    if v[v[q].kids[d]].Leaf? {
      MergeLeafChain(v, root, sh, q, d);
    } else {
      MergeInnerChain(v, root, sh, q, d);
    }
  }

  lemma InnerNotInChain(v: Pages, sh: Shape, p: PageNum)
    requires Chain(v, sh) && p in v && v[p].Inner?
    ensures p !in sh.leaves
  {
    forall a | 0 <= a < |sh.leaves| ensures sh.leaves[a] != p {
      var x := sh.leaves[a];
      assert x in v && v[x].Leaf?;
    }
  }

  /** Merging keeps the tree. */
  lemma MergeTree(v: Pages, root: PageNum, sh: Shape, q: PageNum, d: nat)
    requires CanMerge(v, root, sh, q, d)
    ensures HasPair(v, q, d) && v[q].kids[d] in sh.at && v[q].kids[d + 1] in sh.at
    ensures Tree(MergePages(v, q, d), root, MergeShape(v, sh, q, d))
  {
    MergeBasics(v, root, sh, q, d);
    hide Nodes, Edges, Rooted, Chain, CanMerge, MergePages, MergeAt;
    MergeNodes(v, root, sh, q, d);
    MergeEdges(v, root, sh, q, d);
    MergeRooted(v, root, sh, q, d);
    MergeChain(v, root, sh, q, d);
  }

  lemma {:induction false} FlattenRemove(v: Pages, w: Pages, s: seq<PageNum>, p: PageNum, c: PageNum, j: nat)
    requires DistinctPages(s) && j + 1 < |s| && s[j] == p && s[j + 1] == c
    requires p in v && c in v && p in w && w[p].keys == v[p].keys + v[c].keys
    requires forall i :: 0 <= i < |s| && s[i] != p && s[i] != c ==> s[i] in v && s[i] in w && v[s[i]].keys == w[s[i]].keys
    ensures Flatten(w, RemovePage(s, c)) == Flatten(v, s)
  {
    var r := s[1..];
    if j == 0 {
      assert RemovePage(r, c) == r[1..];
      assert ([p] + r[1..])[1..] == r[1..];
      FlattenSame(v, w, r[1..]);
    } else {
      var t := RemovePage(r, c);
      assert ([s[0]] + t)[1..] == t;
      FlattenRemove(v, w, r, p, c, j - 1);
    }
  }

  lemma MergeLeafKeys(v: Pages, root: PageNum, sh: Shape, q: PageNum, d: nat, a: nat)
    requires CanMerge(v, root, sh, q, d) && HasPair(v, q, d) && a < |sh.leaves|
    ensures var w, x, l, r := MergePages(v, q, d), sh.leaves[a], v[q].kids[d], v[q].kids[d + 1];
            x in v && v[x].Leaf? && (x != r && x != l ==> x in w && w[x].keys == v[x].keys)
  {
    hide Nodes, Edges, Rooted;
    var x := sh.leaves[a];
    assert x in v && v[x].Leaf?;
  }

  /** Merging keeps the sequence of leaf keys. */
  lemma MergeContent(v: Pages, root: PageNum, sh: Shape, q: PageNum, d: nat)
    requires CanMerge(v, root, sh, q, d)
    ensures HasPair(v, q, d) && v[q].kids[d] in sh.at && v[q].kids[d + 1] in sh.at
    ensures Content(MergePages(v, q, d), MergeShape(v, sh, q, d)) == Content(v, sh)
  {
    hide Chain, Rooted, NodeOk, EdgeOk, Nodes, KidsOf;
    MergeBasics(v, root, sh, q, d);
    hide Nodes, Edges, Rooted, Chain;
    var l, r, s := v[q].kids[d], v[q].kids[d + 1], sh.leaves;
    var w := MergePages(v, q, d);
    assert v[l].Leaf? ==> w[l].keys == v[l].keys + v[r].keys;
    forall a | 0 <= a < |s| ensures s[a] in v && v[s[a]].Leaf? && (s[a] != l && s[a] != r ==> s[a] in w && v[s[a]].keys == w[s[a]].keys) {
      MergeLeafKeys(v, root, sh, q, d, a);
    }
    if v[l].Leaf? {
      var j := PairInChain(v, root, sh, q, d);
      FlattenRemove(v, w, s, l, r, j);
    } else {
      InnerNotInChain(v, sh, r);
      RemoveAbsent(s, r);
      FlattenSame(v, w, s);
    }
  }
}
