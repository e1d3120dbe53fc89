/** Splitting a page: half of it moves to a new right sibling, and a separator goes up into the parent. */
module PageSplit {
  import opened IndexKeys
  import opened PageTree

  /** Where a page can be cut so that both halves are legal pages. */
  ghost predicate CutOk(n: Node, m: nat) {
    0 < m < |n.keys| && (match n case Leaf(_, _, rids, _) => |rids| == |n.keys| case Inner(_, _, kids) => |kids| == |n.keys| + 1)
  }

  ghost function LeftHalf(n: Node, m: nat, np: PageNum): Node
    requires CutOk(n, m)
  {
    match n
    case Leaf(parent, keys, rids, _) => Leaf(parent, keys[..m], rids[..m], np)
    case Inner(parent, keys, kids) => Inner(parent, keys[..m], kids[..m + 1])
  }

  /** A leaf keeps the separator as the first key of its right half; an inner page gives it away. */
  ghost function RightHalf(n: Node, m: nat): Node
    requires CutOk(n, m)
  {
    match n
    case Leaf(parent, keys, rids, next) => Leaf(parent, keys[m..], rids[m..], next)
    case Inner(parent, keys, kids) => Inner(parent, keys[m + 1..], kids[m + 1..])
  }

  /** An inner page with one more separator and, right of it, one more child. */
  ghost function Attach(n: Node, i: nat, k: Key, c: PageNum): Node
    requires n.Inner? && i < |n.kids| == |n.keys| + 1
  {
    Inner(n.parent, n.keys[..i] + [k] + n.keys[i..], n.kids[..i + 1] + [c] + n.kids[i + 1..])
  }

  /** The pages in `ks` now name `q` as their parent. */
  ghost function Reparent(v: Pages, ks: seq<PageNum>, q: PageNum): (w: Pages)
    ensures w.Keys == v.Keys
  {
    map x | x in v :: if x in ks then v[x].(parent := q) else v[x]
  }

  ghost function KidsOf(n: Node): seq<PageNum> {
    if n.Inner? then n.kids else []
  }

  /** Page `p` is child `i` of the page it names as its parent. */
  ghost predicate HangsAt(v: Pages, p: PageNum, i: nat) {
    p in v && v[p].parent in v && var q := v[p].parent;
    v[q].Inner? && i < |v[q].kids| == |v[q].keys| + 1 && v[q].kids[i] == p
  }

  ghost function SplitPages(v: Pages, p: PageNum, i: nat, m: nat, np: PageNum): Pages
    requires HangsAt(v, p, i) && CutOk(v[p], m)
  {
    var n := v[p];
    var q := n.parent;
    Reparent(v, KidsOf(RightHalf(n, m)), np)
      [p := LeftHalf(n, m, np)][np := RightHalf(n, m)][q := Attach(v[q], i, n.keys[m], np)]
  }

  ghost function SplitAt(at: map<PageNum, Info>, p: PageNum, k: Key, np: PageNum): map<PageNum, Info>
    requires p in at
  {
    at[p := at[p].(hi := At(k))][np := at[p].(lo := At(k))]
  }

  ghost function SplitShape(v: Pages, sh: Shape, p: PageNum, m: nat, np: PageNum): Shape
    requires p in v && p in sh.at && CutOk(v[p], m)
  {
    Shape(SplitAt(sh.at, p, v[p].keys[m], np), if v[p].Leaf? then InsertAfter(sh.leaves, p, np) else sh.leaves)
  }

  /** `s` with `c` put right after the first `p`. */
  ghost function InsertAfter(s: seq<PageNum>, p: PageNum, c: PageNum): seq<PageNum> {
    if s == [] then [] else if s[0] == p then [p, c] + s[1..] else [s[0]] + InsertAfter(s[1..], p, c)
  }

  ghost predicate CanSplit(v: Pages, root: PageNum, sh: Shape, p: PageNum, i: nat, m: nat, np: PageNum) {
    Tree(v, root, sh) && HangsAt(v, p, i) && p != root && CutOk(v[p], m) && np > 0 && np !in v
  }

  // ---------------------------------------------------------------- one page

  lemma LeftHalfOk(n: Node, info: Info, m: nat, np: PageNum)
    requires NodeOk(n, info) && CutOk(n, m)
    ensures NodeOk(LeftHalf(n, m, np), info.(hi := At(n.keys[m])))
    ensures BoundLess(info.lo, At(n.keys[m])) && Above(info.hi, n.keys[m])
  {
    var k := n.keys[m];
    assert Less(n.keys[0], k);
    assert BoundLess(info.lo, At(k));
    var w := LeftHalf(n, m, np);
    assert forall a :: 0 <= a < m ==> w.keys[a] == n.keys[a] && Less(n.keys[a], k);
  }

  lemma RightHalfOk(n: Node, info: Info, m: nat)
    requires NodeOk(n, info) && CutOk(n, m)
    ensures NodeOk(RightHalf(n, m), info.(lo := At(n.keys[m])))
  {
    var k := n.keys[m];
    var w := RightHalf(n, m);
    var d := if n.Leaf? then m else m + 1;
    assert forall a :: 0 <= a < |w.keys| ==> w.keys[a] == n.keys[a + d];
    assert forall a :: m < a < |n.keys| ==> Less(k, n.keys[a]);
    assert Above(info.hi, k);
  }

  lemma AttachOk(n: Node, info: Info, i: nat, k: Key, c: PageNum)
    requires NodeOk(n, info) && n.Inner? && i < |n.kids|
    requires BoundLess(KidLo(n, info, i), At(k)) && Above(KidHi(n, info, i), k)
    requires c !in n.kids
    ensures NodeOk(Attach(n, i, k, c), info)
  {
    StrictInsert(n.keys, i, k);
    var w := Attach(n, i, k, c);
    assert i > 0 ==> BoundLess(info.lo, At(n.keys[i - 1]));
    assert BoundLess(info.lo, At(k));
    assert i < |n.keys| ==> Above(info.hi, n.keys[i]);
    assert Above(info.hi, k);
    AttachDistinct(n.kids, i, c);
  }

  lemma AttachDistinct(s: seq<PageNum>, i: nat, c: PageNum)
    requires DistinctPages(s) && i < |s| && c !in s
    ensures DistinctPages(s[..i + 1] + [c] + s[i + 1..])
  {
    var t := s[..i + 1] + [c] + s[i + 1..];
    forall a, b | 0 <= a < b < |t| ensures t[a] != t[b] {
      assert a != i + 1 ==> t[a] == s[if a <= i then a else a - 1];
      assert b != i + 1 ==> t[b] == s[if b <= i then b else b - 1];
    }
  }

  /** Children and intervals of a page that gained separator `k` and child `c`. */
  lemma AttachKids(n: Node, info: Info, i: nat, k: Key, c: PageNum, j: nat)
    requires n.Inner? && i < |n.kids| == |n.keys| + 1 && j <= |n.kids|
    ensures var w := Attach(n, i, k, c);
            && w.Inner? && |w.kids| == |w.keys| + 1 == |n.kids| + 1
            && w.kids[j] == (if j <= i then n.kids[j] else if j == i + 1 then c else n.kids[j - 1])
            && KidLo(w, info, j) == (if j <= i then KidLo(n, info, j) else if j == i + 1 then At(k) else KidLo(n, info, j - 1))
            && KidHi(w, info, j) == (if j < i then KidHi(n, info, j) else if j == i then At(k) else KidHi(n, info, j - 1))
  {
  }

  lemma LeftHalfKids(n: Node, info: Info, m: nat, np: PageNum, j: nat)
    requires n.Inner? && CutOk(n, m) && j <= m
    ensures var w, k := LeftHalf(n, m, np), At(n.keys[m]);
            && w.Inner? && |w.keys| == m && |w.kids| == m + 1 && w.kids[j] == n.kids[j]
            && KidLo(w, info.(hi := k), j) == KidLo(n, info, j)
            && KidHi(w, info.(hi := k), j) == KidHi(n, info, j)
  {
  }

  lemma RightHalfKids(n: Node, info: Info, m: nat, j: nat)
    requires n.Inner? && CutOk(n, m) && m + 1 + j < |n.kids|
    ensures var w, k := RightHalf(n, m), At(n.keys[m]);
            && w.Inner? && |w.kids| == |w.keys| + 1 == |n.kids| - m - 1 && w.kids[j] == n.kids[m + 1 + j]
            && KidLo(w, info.(lo := k), j) == KidLo(n, info, m + 1 + j)
            && KidHi(w, info.(lo := k), j) == KidHi(n, info, m + 1 + j)
  {
  }

  // ---------------------------------------------------------------- the page map

  lemma SplitBasics(v: Pages, root: PageNum, sh: Shape, p: PageNum, i: nat, m: nat, np: PageNum)
    requires CanSplit(v, root, sh, p, i, m, np)
    ensures p in sh.at && v[p].parent in sh.at && EdgeOk(v, sh.at, v[p].parent, i)
    ensures NodeOk(v[p], sh.at[p]) && NodeOk(v[v[p].parent], sh.at[v[p].parent])
    ensures p != v[p].parent
  {
    var q := v[p].parent;
    assert q in v && NodeOk(v[q], sh.at[q]);
    assert p in v && NodeOk(v[p], sh.at[p]);
    assert EdgeOk(v, sh.at, q, i);
  }

  /** All children of `p` are one level lower; none is a given page that is not. */
  lemma KidsLower(v: Pages, at: map<PageNum, Info>, p: PageNum)
    requires Nodes(v, at) && Edges(v, at) && p in v
    ensures forall c :: c in KidsOf(v[p]) ==> c in v && c in at && v[c].parent == p && at[c].height < at[p].height
  {
    forall c | c in KidsOf(v[p]) ensures c in v && c in at && v[c].parent == p && at[c].height < at[p].height {
      var j :| 0 <= j < |v[p].kids| && v[p].kids[j] == c;
      assert p in v && v[p].Inner? && EdgeOk(v, at, p, j);
    }
  }

  lemma SplitNodes(v: Pages, root: PageNum, sh: Shape, p: PageNum, i: nat, m: nat, np: PageNum)
    requires CanSplit(v, root, sh, p, i, m, np)
    ensures p in sh.at && Nodes(SplitPages(v, p, i, m, np), SplitAt(sh.at, p, v[p].keys[m], np))
  {
    SplitBasics(v, root, sh, p, i, m, np);
    var n := v[p];
    var q := n.parent;
    LeftHalfOk(n, sh.at[p], m, np);
    RightHalfOk(n, sh.at[p], m);
    KidsLower(v, sh.at, q);
    AttachOk(v[q], sh.at[q], i, n.keys[m], np);
    var w, at2 := SplitPages(v, p, i, m, np), SplitAt(sh.at, p, n.keys[m], np);
    assert at2.Keys == w.Keys;
    forall x | x in w ensures x > 0 && NodeOk(w[x], at2[x]) {
      if x != p && x != np && x != q {
        SameNodeOk(v, sh.at, x, w[x]);
      }
    }
  }

  lemma SameNodeOk(v: Pages, at: map<PageNum, Info>, x: PageNum, n: Node)
    requires Nodes(v, at) && x in v && n == v[x].(parent := n.parent)
    ensures x > 0 && x in at && NodeOk(n, at[x])
  {
    assert NodeOk(v[x], at[x]);
  }

  /** Parents and intervals after the split. */
  lemma SplitLook(v: Pages, root: PageNum, sh: Shape, p: PageNum, i: nat, m: nat, np: PageNum, c: PageNum)
    requires CanSplit(v, root, sh, p, i, m, np)
    requires c in v
    ensures p in sh.at && c in sh.at
    ensures var w, at2 := SplitPages(v, p, i, m, np), SplitAt(sh.at, p, v[p].keys[m], np);
            && c in w && c in at2
            && w[c].parent == (if c in KidsOf(RightHalf(v[p], m)) then np else v[c].parent)
            && at2[c] == (if c == p then sh.at[p].(hi := At(v[p].keys[m])) else sh.at[c])
  {
    SplitBasics(v, root, sh, p, i, m, np);
    KidsLower(v, sh.at, p);
    var q := v[p].parent;
    assert forall x :: x in KidsOf(RightHalf(v[p], m)) ==> x in KidsOf(v[p]);
  }

  /** Which child of `p` moves. */
  lemma SplitMoves(v: Pages, root: PageNum, sh: Shape, p: PageNum, i: nat, m: nat, np: PageNum, x: PageNum, j: nat)
    requires CanSplit(v, root, sh, p, i, m, np)
    requires x in v && v[x].Inner? && j < |v[x].kids|
    ensures v[x].kids[j] in KidsOf(RightHalf(v[p], m)) <==> x == p && j > m
  {
    hide Chain, Rooted, NodeOk, EdgeOk, Nodes, Edges;
    var c := v[x].kids[j];
    var right := KidsOf(RightHalf(v[p], m));
    if x == p && j > m {
      assert right[j - m - 1] == c;
    } else if c in right {
      var a :| 0 <= a < |right| && right[a] == c;
      KidUnique(v, sh.at, x, j, p, m + 1 + a);
    }
  }

  lemma SplitEdgesParent(v: Pages, root: PageNum, sh: Shape, p: PageNum, i: nat, m: nat, np: PageNum, j: nat)
    requires CanSplit(v, root, sh, p, i, m, np) && p in sh.at
    requires j <= |v[v[p].parent].kids|
    ensures var q := v[p].parent;
            var w, at2 := SplitPages(v, p, i, m, np), SplitAt(sh.at, p, v[p].keys[m], np);
            q in w && w[q].Inner? && |w[q].kids| == |w[q].keys| + 1 && q in at2 && j < |w[q].kids| && EdgeOk(w, at2, q, j)
  {
    SplitBasics(v, root, sh, p, i, m, np);
    var q := v[p].parent;
    AttachKids(v[q], sh.at[q], i, v[p].keys[m], np, j);
    if j != i + 1 {
      var b := if j <= i then j else j - 1;
      var c := v[q].kids[b];
      assert EdgeOk(v, sh.at, q, b);
      SplitMoves(v, root, sh, p, i, m, np, q, b);
      SplitLook(v, root, sh, p, i, m, np, c);
      if c == p {
        KidUnique(v, sh.at, q, b, q, i);
      }
    }
  }

  lemma SplitEdgesLeft(v: Pages, root: PageNum, sh: Shape, p: PageNum, i: nat, m: nat, np: PageNum, j: nat)
    requires CanSplit(v, root, sh, p, i, m, np) && p in sh.at && v[p].Inner? && j <= m
    ensures var w, at2 := SplitPages(v, p, i, m, np), SplitAt(sh.at, p, v[p].keys[m], np);
            p in w && w[p].Inner? && |w[p].kids| == |w[p].keys| + 1 == m + 1 && p in at2 && EdgeOk(w, at2, p, j)
  {
    SplitBasics(v, root, sh, p, i, m, np);
    LeftHalfKids(v[p], sh.at[p], m, np, j);
    assert EdgeOk(v, sh.at, p, j);
    SplitMoves(v, root, sh, p, i, m, np, p, j);
    SplitLook(v, root, sh, p, i, m, np, v[p].kids[j]);
  }

  lemma SplitEdgesRight(v: Pages, root: PageNum, sh: Shape, p: PageNum, i: nat, m: nat, np: PageNum, j: nat)
    requires CanSplit(v, root, sh, p, i, m, np) && p in sh.at && v[p].Inner? && m + 1 + j < |v[p].kids|
    ensures var w, at2 := SplitPages(v, p, i, m, np), SplitAt(sh.at, p, v[p].keys[m], np);
            np in w && w[np].Inner? && |w[np].kids| == |w[np].keys| + 1 == |v[p].kids| - m - 1 && np in at2 && EdgeOk(w, at2, np, j)
  {
    SplitBasics(v, root, sh, p, i, m, np);
    RightHalfKids(v[p], sh.at[p], m, j);
    assert EdgeOk(v, sh.at, p, m + 1 + j);
    SplitMoves(v, root, sh, p, i, m, np, p, m + 1 + j);
    SplitLook(v, root, sh, p, i, m, np, v[p].kids[m + 1 + j]);
  }

  lemma SplitEdgesOther(v: Pages, root: PageNum, sh: Shape, p: PageNum, i: nat, m: nat, np: PageNum, x: PageNum, j: nat)
    requires CanSplit(v, root, sh, p, i, m, np) && p in sh.at
    requires x in v && v[x].Inner? && x != p && x != v[p].parent && j < |v[x].kids|
    ensures var w, at2 := SplitPages(v, p, i, m, np), SplitAt(sh.at, p, v[p].keys[m], np);
            x in w && w[x].Inner? && j < |w[x].kids| == |w[x].keys| + 1 && x in at2 && EdgeOk(w, at2, x, j)
  {
    hide Chain, Rooted, CutOk, BoundLess;
    SplitBasics(v, root, sh, p, i, m, np);
    assert NodeOk(v[x], sh.at[x]);
    assert EdgeOk(v, sh.at, x, j);
    var c := v[x].kids[j];
    SplitMoves(v, root, sh, p, i, m, np, x, j);
    SplitLook(v, root, sh, p, i, m, np, c);
  }

  lemma SplitEdges(v: Pages, root: PageNum, sh: Shape, p: PageNum, i: nat, m: nat, np: PageNum)
    requires CanSplit(v, root, sh, p, i, m, np) && p in sh.at
    requires Nodes(SplitPages(v, p, i, m, np), SplitAt(sh.at, p, v[p].keys[m], np))
    ensures Edges(SplitPages(v, p, i, m, np), SplitAt(sh.at, p, v[p].keys[m], np))
  {
    hide Chain, Rooted, NodeOk, EdgeOk, Nodes, KidsOf;
    var w, at2 := SplitPages(v, p, i, m, np), SplitAt(sh.at, p, v[p].keys[m], np);
    var q := v[p].parent;
    forall x, j | x in w && w[x].Inner? && 0 <= j < |w[x].kids|
      ensures |w[x].kids| == |w[x].keys| + 1 && x in at2 && EdgeOk(w, at2, x, j)
    {
      if x == q {
        SplitEdgesParent(v, root, sh, p, i, m, np, j);
      } else if x == p {
        SplitEdgesLeft(v, root, sh, p, i, m, np, j);
      } else if x == np {
        SplitEdgesRight(v, root, sh, p, i, m, np, j);
      } else {
        SplitEdgesOther(v, root, sh, p, i, m, np, x, j);
      }
    }
  }

  lemma SplitRooted(v: Pages, root: PageNum, sh: Shape, p: PageNum, i: nat, m: nat, np: PageNum)
    requires CanSplit(v, root, sh, p, i, m, np) && p in sh.at
    ensures Rooted(SplitPages(v, p, i, m, np), SplitAt(sh.at, p, v[p].keys[m], np), root)
  {
    SplitBasics(v, root, sh, p, i, m, np);
    var q := v[p].parent;
    var w, at2 := SplitPages(v, p, i, m, np), SplitAt(sh.at, p, v[p].keys[m], np);
    SplitLook(v, root, sh, p, i, m, np, root);
    SplitLook(v, root, sh, p, i, m, np, q);
    RootIsNoKid(v, root, sh, p);
    assert forall y :: y in KidsOf(RightHalf(v[p], m)) ==> y in KidsOf(v[p]);
    forall x | x in w && x != root ensures Hangs(w, x) {
      SplitHangs(v, root, sh, p, i, m, np, x);
    }
  }

  lemma RootIsNoKid(v: Pages, root: PageNum, sh: Shape, p: PageNum)
    requires Nodes(v, sh.at) && Edges(v, sh.at) && Rooted(v, sh.at, root) && p in v
    ensures root !in KidsOf(v[p])
  {
    KidsLower(v, sh.at, p);
    assert p > 0;
  }

  lemma SplitHangsParent(v: Pages, root: PageNum, sh: Shape, p: PageNum, i: nat, m: nat, np: PageNum, j: nat)
    requires CanSplit(v, root, sh, p, i, m, np) && p in sh.at
    requires j <= |v[v[p].parent].kids|
    ensures var w, n := SplitPages(v, p, i, m, np), Attach(v[v[p].parent], i, v[p].keys[m], np);
            n.Inner? && j < |n.kids| && n.kids[j] in w && Hangs(w, n.kids[j])
  {
    SplitBasics(v, root, sh, p, i, m, np);
    SplitEdgesParent(v, root, sh, p, i, m, np, j);
    AttachKids(v[v[p].parent], sh.at[p], i, v[p].keys[m], np, j);
  }

  lemma SplitHangsChild(v: Pages, root: PageNum, sh: Shape, p: PageNum, i: nat, m: nat, np: PageNum, j: nat)
    requires CanSplit(v, root, sh, p, i, m, np) && p in sh.at && v[p].Inner?
    requires j < |v[p].kids|
    ensures var w, x := SplitPages(v, p, i, m, np), v[p].kids[j]; x in w && Hangs(w, x)
  {
    hide Tree, SplitAt;
    SplitBasics(v, root, sh, p, i, m, np);
    if j <= m {
      SplitEdgesLeft(v, root, sh, p, i, m, np, j);
      LeftHalfKids(v[p], sh.at[p], m, np, j);
    } else {
      SplitEdgesRight(v, root, sh, p, i, m, np, j - m - 1);
      RightHalfKids(v[p], sh.at[p], m, j - m - 1);
    }
  }

  lemma NotRootHangs(v: Pages, root: PageNum, sh: Shape, x: PageNum)
    requires Tree(v, root, sh) && x in v && x != root
    ensures Hangs(v, x)
  {
  }

  lemma SplitHangsSibling(v: Pages, root: PageNum, sh: Shape, p: PageNum, i: nat, m: nat, np: PageNum, j: nat)
    requires CanSplit(v, root, sh, p, i, m, np) && p in sh.at && v[p].parent in v
    requires v[v[p].parent].Inner? && j < |v[v[p].parent].kids|
    ensures var w, x := SplitPages(v, p, i, m, np), v[v[p].parent].kids[j]; x in w && Hangs(w, x)
  {
    hide Tree, SplitAt, EdgeOk, NodeOk, Edges, RightHalf, LeftHalf, Reparent;
    SplitBasics(v, root, sh, p, i, m, np);
    var q := v[p].parent;
    var b := if j <= i then j else j + 1;
    SplitHangsParent(v, root, sh, p, i, m, np, b);
    assert Attach(v[q], i, v[p].keys[m], np).kids[b] == v[q].kids[j];
  }

  lemma SplitHangsOther(v: Pages, root: PageNum, sh: Shape, p: PageNum, i: nat, m: nat, np: PageNum, y: PageNum, j: nat)
    requires CanSplit(v, root, sh, p, i, m, np) && p in sh.at
    requires y in v && v[y].Inner? && y != p && y != v[p].parent && j < |v[y].kids|
    ensures var w, x := SplitPages(v, p, i, m, np), v[y].kids[j]; x in w && Hangs(w, x)
  {
    hide Tree, SplitAt, NodeOk, Edges, RightHalf, LeftHalf;
    SplitBasics(v, root, sh, p, i, m, np);
    SplitEdgesOther(v, root, sh, p, i, m, np, y, j);
    assert SplitPages(v, p, i, m, np)[y].kids == v[y].kids;
  }

  lemma SplitHangs(v: Pages, root: PageNum, sh: Shape, p: PageNum, i: nat, m: nat, np: PageNum, x: PageNum)
    requires CanSplit(v, root, sh, p, i, m, np) && p in sh.at
    requires x in v || x == np
    requires x != root
    ensures var w := SplitPages(v, p, i, m, np); x in w && Hangs(w, x)
  {
    hide Tree, SplitAt, EdgeOk, NodeOk, Edges, RightHalf, LeftHalf, Reparent;
    SplitBasics(v, root, sh, p, i, m, np);
    var q := v[p].parent;
    if x == np {
      SplitHangsParent(v, root, sh, p, i, m, np, i + 1);
    } else {
      NotRootHangs(v, root, sh, x);
      var y := v[x].parent;
      var j :| 0 <= j < |v[y].kids| && v[y].kids[j] == x;
      if y == q {
        SplitHangsSibling(v, root, sh, p, i, m, np, j);
      } else if y == p {
        SplitHangsChild(v, root, sh, p, i, m, np, j);
      } else {
        SplitHangsOther(v, root, sh, p, i, m, np, y, j);
      }
    }
  }

  // ---------------------------------------------------------------- the chain

  lemma {:induction false} InsertAfterSplits(s: seq<PageNum>, p: PageNum, c: PageNum, j: nat)
    requires DistinctPages(s) && j < |s| && s[j] == p
    ensures InsertAfter(s, p, c) == s[..j + 1] + [c] + s[j + 1..]
  {
    if j == 0 {
      assert [p, c] + s[1..] == s[..1] + [c] + s[1..];
    } else {
      InsertAfterSplits(s[1..], p, c, j - 1);
      assert [s[0]] + (s[1..][..j] + [c] + s[1..][j..]) == s[..j + 1] + [c] + s[j + 1..];
    }
  }

  /** A page map whose leaves kept their links and intervals has the same chain. */
  lemma ChainSame(v: Pages, sh: Shape, w: Pages, sh2: Shape)
    requires Chain(v, sh) && sh2.leaves == sh.leaves
    requires forall x :: x in v && x in sh.at && v[x].Leaf? ==> x in w && x in sh2.at && w[x].Leaf? && w[x].next == v[x].next && sh2.at[x] == sh.at[x]
    requires forall x :: x in w && w[x].Leaf? ==> x in v && v[x].Leaf?
    ensures Chain(w, sh2)
  {
    var s := sh.leaves;
    forall a | 0 <= a < |s| ensures s[a] in w && w[s[a]].Leaf? && s[a] in sh2.at && w[s[a]].next == v[s[a]].next && sh2.at[s[a]] == sh.at[s[a]] {
      var x := s[a];
      assert x in v;
    }
  }

  /** Links and intervals of the leaves when leaf `p` handed its upper part to the new leaf `c`. */
  ghost predicate LeafGained(v: Pages, at: map<PageNum, Info>, w: Pages, at2: map<PageNum, Info>, p: PageNum, c: PageNum, x: PageNum) {
    && x in v && x in at && x in w && x in at2 && c in w && c in at2
    && v[x].Leaf? && w[x].Leaf? && w[c].Leaf?
    && at2[x].lo == at[x].lo
    && (if x == p then w[x].next == c && at2[x].hi == at2[c].lo && at2[c].hi == at[x].hi && w[c].next == v[x].next
        else w[x].next == v[x].next && at2[x].hi == at[x].hi)
  }

  ghost predicate ChainGained(v: Pages, sh: Shape, w: Pages, sh2: Shape, j: nat, c: PageNum) {
    && j < |sh.leaves|
    && sh2.leaves == sh.leaves[..j + 1] + [c] + sh.leaves[j + 1..]
    && (forall a :: 0 <= a < |sh.leaves| ==> LeafGained(v, sh.at, w, sh2.at, sh.leaves[j], c, sh.leaves[a]))
  }

  lemma ChainGainedAt(v: Pages, sh: Shape, w: Pages, sh2: Shape, j: nat, c: PageNum, a: nat)
    requires DistinctPages(sh.leaves) && ChainGained(v, sh, w, sh2, j, c)
    requires a < |sh2.leaves|
    ensures var x, s := sh2.leaves[a], sh.leaves;
            && x in w && w[x].Leaf? && x in sh2.at
            && w[x].next == (if a == j then c else v[s[if a < j then a else a - 1]].next)
            && sh2.at[x].lo == (if a <= j then sh.at[s[a]].lo else if a == j + 1 then sh2.at[c].lo else sh.at[s[a - 1]].lo)
            && sh2.at[x].hi == (if a < j then sh.at[s[a]].hi else if a == j then sh2.at[c].lo else sh.at[s[a - 1]].hi)
            && (a == j + 1 ==> x == c) && (a <= j ==> x == s[a]) && (a > j + 1 ==> x == s[a - 1])
  {
    var s := sh.leaves;
    assert LeafGained(v, sh.at, w, sh2.at, s[j], c, s[j]);
    if a <= j {
      assert LeafGained(v, sh.at, w, sh2.at, s[j], c, s[a]);
    } else if a > j + 1 {
      assert LeafGained(v, sh.at, w, sh2.at, s[j], c, s[a - 1]);
    }
  }

  lemma ChainInsert(v: Pages, sh: Shape, w: Pages, sh2: Shape, j: nat, c: PageNum)
    requires Chain(v, sh) && DistinctPages(sh.leaves) && ChainGained(v, sh, w, sh2, j, c)
    requires forall x :: x in w && w[x].Leaf? ==> x in sh2.leaves
    ensures Chain(w, sh2)
  {
    var t := sh2.leaves;
    forall a | 0 <= a < |t| ensures t[a] in w && w[t[a]].Leaf? && t[a] in sh2.at {
      ChainGainedAt(v, sh, w, sh2, j, c, a);
    }
    ChainGainedAt(v, sh, w, sh2, j, c, 0);
    ChainGainedAt(v, sh, w, sh2, j, c, |t| - 1);
    forall a, b | 0 <= a && b == a + 1 && b < |t| ensures sh2.at[t[a]].hi == sh2.at[t[b]].lo && w[t[a]].next == t[b] {
      ChainGainedAt(v, sh, w, sh2, j, c, a);
      ChainGainedAt(v, sh, w, sh2, j, c, b);
    }
  }

  lemma SplitChain(v: Pages, root: PageNum, sh: Shape, p: PageNum, i: nat, m: nat, np: PageNum)
    requires CanSplit(v, root, sh, p, i, m, np) && p in sh.at
    ensures Chain(SplitPages(v, p, i, m, np), SplitShape(v, sh, p, m, np))
  {
    hide Nodes, Edges, Rooted, Chain, EdgeOk, BoundLess;
    SplitBasics(v, root, sh, p, i, m, np);
    var w, sh2 := SplitPages(v, p, i, m, np), SplitShape(v, sh, p, m, np);
    if v[p].Leaf? {
      SplitLeafChain(v, root, sh, p, i, m, np);
    } else {
      ChainSame(v, sh, w, sh2);
    }
  }

  lemma SplitLeafGained(v: Pages, root: PageNum, sh: Shape, p: PageNum, i: nat, m: nat, np: PageNum, x: PageNum)
    requires CanSplit(v, root, sh, p, i, m, np) && p in sh.at && v[p].Leaf? && x in sh.leaves
    ensures LeafGained(v, sh.at, SplitPages(v, p, i, m, np), SplitAt(sh.at, p, v[p].keys[m], np), p, np, x)
  {
    hide Nodes, Edges, Rooted, NodeOk, EdgeOk, DistinctPages;
    SplitBasics(v, root, sh, p, i, m, np);
    var a :| 0 <= a < |sh.leaves| && sh.leaves[a] == x;
    assert x in v && x in sh.at && v[x].Leaf?;
  }

  lemma SplitLeafListed(v: Pages, root: PageNum, sh: Shape, p: PageNum, i: nat, m: nat, np: PageNum, x: PageNum)
    requires CanSplit(v, root, sh, p, i, m, np) && p in sh.at && v[p].Leaf?
    requires var w := SplitPages(v, p, i, m, np); x in w && w[x].Leaf?
    ensures x == np || x in sh.leaves
  {
    hide Nodes, Edges, Rooted, NodeOk, EdgeOk, DistinctPages;
    SplitBasics(v, root, sh, p, i, m, np);
    if x != np {
      assert x in v && v[x].Leaf?;
    }
  }

  lemma InsertAfterHas(s: seq<PageNum>, p: PageNum, c: PageNum, j: nat, x: PageNum)
    requires DistinctPages(s) && j < |s| && s[j] == p && (x == c || x in s)
    ensures x in InsertAfter(s, p, c)
  {
    InsertAfterSplits(s, p, c, j);
    var t := InsertAfter(s, p, c);
    assert t[j + 1] == c;
    if x != c {
      var a :| 0 <= a < |s| && s[a] == x;
      assert t[if a <= j then a else a + 1] == x;
    }
  }

  lemma SplitLeafChainAt(v: Pages, root: PageNum, sh: Shape, p: PageNum, i: nat, m: nat, np: PageNum, j: nat)
    requires CanSplit(v, root, sh, p, i, m, np) && p in sh.at && v[p].Leaf?
    requires DistinctPages(sh.leaves) && j < |sh.leaves| && sh.leaves[j] == p
    ensures Chain(SplitPages(v, p, i, m, np), SplitShape(v, sh, p, m, np))
  {
    hide Nodes, Edges, Rooted, Chain, NodeOk, EdgeOk, SplitPages, SplitAt, LeafGained, DistinctPages;
    var w, sh2 := SplitPages(v, p, i, m, np), SplitShape(v, sh, p, m, np);
    var s := sh.leaves;
    InsertAfterSplits(s, p, np, j);
    forall a | 0 <= a < |s| ensures LeafGained(v, sh.at, w, sh2.at, s[j], np, s[a]) {
      SplitLeafGained(v, root, sh, p, i, m, np, s[a]);
    }
    forall x | x in w && w[x].Leaf? ensures x in sh2.leaves {
      SplitLeafListed(v, root, sh, p, i, m, np, x);
      InsertAfterHas(s, p, np, j, x);
    }
    ChainInsert(v, sh, w, sh2, j, np);
  }

  lemma SplitLeafChain(v: Pages, root: PageNum, sh: Shape, p: PageNum, i: nat, m: nat, np: PageNum)
    requires CanSplit(v, root, sh, p, i, m, np) && p in sh.at && v[p].Leaf?
    ensures Chain(SplitPages(v, p, i, m, np), SplitShape(v, sh, p, m, np))
  {
    hide Nodes, Edges, Rooted, NodeOk, EdgeOk, SplitPages, SplitAt, SplitShape, DistinctPages;
    ChainDistinct(v, sh);
    assert p in sh.leaves;
    var j :| 0 <= j < |sh.leaves| && sh.leaves[j] == p;
    SplitLeafChainAt(v, root, sh, p, i, m, np, j);
  }

  /** Splitting keeps the tree. */
  lemma SplitTree(v: Pages, root: PageNum, sh: Shape, p: PageNum, i: nat, m: nat, np: PageNum)
    requires CanSplit(v, root, sh, p, i, m, np)
    ensures p in sh.at && Tree(SplitPages(v, p, i, m, np), root, SplitShape(v, sh, p, m, np))
  {
    SplitBasics(v, root, sh, p, i, m, np);
    hide Nodes, Edges, Rooted, Chain, CanSplit, SplitPages, SplitAt;
    SplitNodes(v, root, sh, p, i, m, np);
    SplitEdges(v, root, sh, p, i, m, np);
    SplitRooted(v, root, sh, p, i, m, np);
    SplitChain(v, root, sh, p, i, m, np);
  }

  // ---------------------------------------------------------------- the content

  lemma FlattenTwo(w: Pages, p: PageNum, c: PageNum, r: seq<PageNum>)
    requires p in w && c in w
    ensures Flatten(w, [p, c] + r) == w[p].keys + (w[c].keys + Flatten(w, r))
  {
    assert ([p, c] + r)[1..] == [c] + r && ([c] + r)[1..] == r;
  }

  lemma {:induction false} FlattenInsertAfter(v: Pages, w: Pages, s: seq<PageNum>, p: PageNum, c: PageNum)
    requires DistinctPages(s)
    requires p in v && p in w && c in w && w[p].keys + w[c].keys == v[p].keys
    requires forall i :: 0 <= i < |s| && s[i] != p ==> s[i] in v && s[i] in w && v[s[i]].keys == w[s[i]].keys
    ensures Flatten(w, InsertAfter(s, p, c)) == Flatten(v, s)
  {
    if s != [] {
      var r := s[1..];
      if s[0] == p {
        FlattenSame(v, w, r);
        FlattenTwo(w, p, c, r);
        assert w[p].keys + (w[c].keys + Flatten(w, r)) == v[p].keys + Flatten(v, r);
      } else {
        var t := InsertAfter(r, p, c);
        assert InsertAfter(s, p, c) == [s[0]] + t && ([s[0]] + t)[1..] == t;
        FlattenInsertAfter(v, w, r, p, c);
      }
    }
  }

  lemma SplitLeafKeys(v: Pages, root: PageNum, sh: Shape, p: PageNum, i: nat, m: nat, np: PageNum, a: nat)
    requires CanSplit(v, root, sh, p, i, m, np) && a < |sh.leaves|
    ensures var w, x := SplitPages(v, p, i, m, np), sh.leaves[a];
            x in v && v[x].Leaf? && x in w && (x != p ==> w[x].keys == v[x].keys)
  {
    hide Nodes, Edges, Rooted;
    var x := sh.leaves[a];
    assert x in v && v[x].Leaf?;
  }

  /** Splitting moves keys between pages but keeps the sequence of leaf keys. */
  lemma SplitContent(v: Pages, root: PageNum, sh: Shape, p: PageNum, i: nat, m: nat, np: PageNum)
    requires CanSplit(v, root, sh, p, i, m, np) && p in sh.at
    ensures Content(SplitPages(v, p, i, m, np), SplitShape(v, sh, p, m, np)) == Content(v, sh)
  {
    hide Nodes, Edges, Rooted, Chain;
    var w, s := SplitPages(v, p, i, m, np), sh.leaves;
    assert v[p].Leaf? ==> w[p].keys + w[np].keys == v[p].keys;
    ChainDistinct(v, sh);
    hide CanSplit, SplitPages;
    forall a | 0 <= a < |s| ensures s[a] in v && v[s[a]].Leaf? && s[a] in w && (s[a] != p ==> v[s[a]].keys == w[s[a]].keys) {
      SplitLeafKeys(v, root, sh, p, i, m, np, a);
    }
    if v[p].Leaf? {
      FlattenInsertAfter(v, w, s, p, np);
    } else {
      FlattenSame(v, w, s);
    }
  }
}
