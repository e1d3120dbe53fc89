/**
 Deletion on the page map. A page that lost a key may borrow one from a sibling, which is a merge
 followed by a split, or be merged with it, which takes a key out of the parent. Which of this
 happens, level by level, and whether the code does it right, can be read off the pages before the
 deletion: `Safe` says so.
 */
module PageDelete {
  import opened IndexKeys
  import opened PageTree
  import opened PageSplit
  import opened PageMerge
  import opened IndexNodes
  import opened PageInsert

  /** As many record identifiers as keys, or one child more. */
  ghost predicate Shaped(n: Node) {
    match n
    case Leaf(_, keys, rids, _) => |rids| == |keys|
    case Inner(_, keys, kids) => |kids| == |keys| + 1
  }

  /** A page without key `i`; an inner page also loses the child right of it. */
  ghost function Removed(n: Node, i: nat): Node
    requires Shaped(n) && i < |n.keys|
  {
    match n
    case Leaf(parent, keys, rids, next) => Leaf(parent, Cut(keys, i), Cut(rids, i), next)
    case Inner(_, _, _) => Detach(n, i)
  }

  /** The pool holds the tree `w`, only page `p` still has key `i` and what goes with it. */
  ghost predicate Deleting(order: nat, pool: Pages, w: Pages, root: PageNum, sh: Shape, p: PageNum, i: nat) {
    && order >= 3 && Tree(w, root, sh) && Sized(order, w, root, p)
    && p in w && p in pool && pool == w[p := pool[p]]
    && Shaped(pool[p]) && Strict(pool[p].keys) && i < |pool[p].keys| && SizeOk(order, pool[p], p == root)
    && w[p] == Removed(pool[p], i)
    && (pool[p].Inner? ==> pool[p].kids[i + 1] !in w)
  }

  // ---------------------------------------------------------------- borrowing

  /** Children `d` and `d + 1` of `q` share their keys anew: the left one gets the first `m`. */
  ghost function BorrowPages(v: Pages, q: PageNum, d: nat, m: nat): Pages
    requires HasPair(v, q, d) && CutOk(MergeNode(v[v[q].kids[d]], v[v[q].kids[d + 1]], v[q].keys[d]), m)
  {
    var l, r := v[q].kids[d], v[q].kids[d + 1];
    var n := MergeNode(v[l], v[r], v[q].keys[d]);
    Reparent(Reparent(v, KidsOf(v[r]), l), KidsOf(RightHalf(n, m)), r)
      [l := LeftHalf(n, m, r)][r := RightHalf(n, m)][q := Inner(v[q].parent, v[q].keys[d := n.keys[m]], v[q].kids)]
  }

  lemma BorrowIsMergeSplit(v: Pages, root: PageNum, sh: Shape, q: PageNum, d: nat, m: nat)
    requires CanMerge(v, root, sh, q, d)
    requires HasPair(v, q, d) && CutOk(MergeNode(v[v[q].kids[d]], v[v[q].kids[d + 1]], v[q].keys[d]), m)
    ensures var l, r := v[q].kids[d], v[q].kids[d + 1];
            var w := MergePages(v, q, d);
            && HangsAt(w, l, d) && CutOk(w[l], m) && r > 0 && r !in w && l != root
            && SplitPages(w, l, d, m, r) == BorrowPages(v, q, d, m)
  {
    MergeBasics(v, root, sh, q, d);
    var l, r := v[q].kids[d], v[q].kids[d + 1];
    RootIsNoKid(v, root, sh, q);
    KidsLower(v, sh.at, r);
    KidsLower(v, sh.at, l);
    assert r > 0 && l in KidsOf(v[q]);
    hide Tree, NodeOk, Reparent, MergeNode;
    BorrowMaps(v, q, d, m);
  }

  lemma BorrowMaps(v: Pages, q: PageNum, d: nat, m: nat)
    requires HasPair(v, q, d) && CutOk(MergeNode(v[v[q].kids[d]], v[v[q].kids[d + 1]], v[q].keys[d]), m)
    requires var l, r := v[q].kids[d], v[q].kids[d + 1];
             && l != r && l != q && r != q && v[l].parent == q && v[l].Leaf? == v[r].Leaf?
             && q !in KidsOf(v[l]) && q !in KidsOf(v[r]) && l !in KidsOf(v[l]) && l !in KidsOf(v[r]) && r !in KidsOf(v[l]) && r !in KidsOf(v[r])
    ensures var l, r := v[q].kids[d], v[q].kids[d + 1];
            var w := MergePages(v, q, d);
            HangsAt(w, l, d) && CutOk(w[l], m) && SplitPages(w, l, d, m, r) == BorrowPages(v, q, d, m)
  {
    var l, r := v[q].kids[d], v[q].kids[d + 1];
    var w, n := MergePages(v, q, d), MergeNode(v[l], v[r], v[q].keys[d]);
    assert w[l] == n && n.parent == q;
    assert Attach(w[q], d, n.keys[m], r) == Inner(v[q].parent, v[q].keys[d := n.keys[m]], v[q].kids);
    assert forall x :: x in KidsOf(RightHalf(n, m)) ==> x in KidsOf(v[l]) || x in KidsOf(v[r]);
  }

  /** Borrowing keeps the tree and its entries. */
  lemma BorrowTree(v: Pages, root: PageNum, sh: Shape, q: PageNum, d: nat, m: nat) returns (sh': Shape)
    requires CanMerge(v, root, sh, q, d)
    requires HasPair(v, q, d) && CutOk(MergeNode(v[v[q].kids[d]], v[v[q].kids[d + 1]], v[q].keys[d]), m)
    ensures Tree(BorrowPages(v, q, d, m), root, sh') && Content(BorrowPages(v, q, d, m), sh') == Content(v, sh)
  {
    hide Tree, BorrowPages, MergePages, SplitPages, MergeShape, SplitShape, Content;
    MergeTree(v, root, sh, q, d);
    MergeContent(v, root, sh, q, d);
    BorrowIsMergeSplit(v, root, sh, q, d, m);
    var l, r := v[q].kids[d], v[q].kids[d + 1];
    var w, sh1 := MergePages(v, q, d), MergeShape(v, sh, q, d);
    SplitTree(w, root, sh1, l, d, m, r);
    SplitContent(w, root, sh1, l, d, m, r);
    sh' := SplitShape(w, sh1, l, m, r);
  }

  // ---------------------------------------------------------------- sizes

  lemma BorrowSized(order: nat, v: Pages, root: PageNum, sh: Shape, q: PageNum, d: nat, m: nat)
    requires CanMerge(v, root, sh, q, d)
    requires HasPair(v, q, d) && CutOk(MergeNode(v[v[q].kids[d]], v[v[q].kids[d + 1]], v[q].keys[d]), m)
    requires order >= 3 && (Sized(order, v, root, v[q].kids[d]) || Sized(order, v, root, v[q].kids[d + 1]))
    requires var n := MergeNode(v[v[q].kids[d]], v[v[q].kids[d + 1]], v[q].keys[d]);
             && MinKeys(order, n) <= m < order
             && MinKeys(order, n) <= |n.keys| - m - (if n.Leaf? then 0 else 1) < order
    ensures Sized(order, BorrowPages(v, q, d, m), root, NO_PARENT)
  {
    var l, r := v[q].kids[d], v[q].kids[d + 1];
    MergeBasics(v, root, sh, q, d);
    RootIsNoKid(v, root, sh, q);
    assert l in KidsOf(v[q]) && r in KidsOf(v[q]);
    var w := BorrowPages(v, q, d, m);
    hide Tree, NodeOk, EdgeOk, SizeOk, MergeNode, CutOk, BorrowPages;
    forall x | x in w && x != NO_PARENT ensures SizeOk(order, w[x], x == root) {
      BorrowSizeAt(order, v, root, q, d, m, x);
    }
  }

  lemma BorrowSizeAt(order: nat, v: Pages, root: PageNum, q: PageNum, d: nat, m: nat, x: PageNum)
    requires HasPair(v, q, d) && CutOk(MergeNode(v[v[q].kids[d]], v[v[q].kids[d + 1]], v[q].keys[d]), m)
    requires var n := MergeNode(v[v[q].kids[d]], v[v[q].kids[d + 1]], v[q].keys[d]);
             && MinKeys(order, n) <= m < order
             && MinKeys(order, n) <= |n.keys| - m - (if n.Leaf? then 0 else 1) < order
    requires v[q].kids[d] != root && v[q].kids[d + 1] != root && v[q].kids[d] != q && v[q].kids[d + 1] != q
    requires x in v && (x != v[q].kids[d] && x != v[q].kids[d + 1] ==> SizeOk(order, v[x], x == root))
    ensures SizeOk(order, BorrowPages(v, q, d, m)[x], x == root)
  {
    var l, r := v[q].kids[d], v[q].kids[d + 1];
    var w, n := BorrowPages(v, q, d, m), MergeNode(v[l], v[r], v[q].keys[d]);
    BorrowHalves(order, n, m, r);
    hide SizeOk, LeftHalf, RightHalf, MergeNode, CutOk;
    if x != l && x != r {
      SameSize(order, v[x], w[x], x == root);
    }
  }

  lemma BorrowHalves(order: nat, n: Node, m: nat, np: PageNum)
    requires CutOk(n, m) && MinKeys(order, n) <= m < order
    requires MinKeys(order, n) <= |n.keys| - m - (if n.Leaf? then 0 else 1) < order
    ensures SizeOk(order, LeftHalf(n, m, np), false) && SizeOk(order, RightHalf(n, m), false)
  {
  }

  lemma MergeSized(order: nat, v: Pages, root: PageNum, sh: Shape, q: PageNum, d: nat)
    requires CanMerge(v, root, sh, q, d) && HasPair(v, q, d)
    requires order >= 3 && (Sized(order, v, root, v[q].kids[d]) || Sized(order, v, root, v[q].kids[d + 1]))
    requires var n := MergeNode(v[v[q].kids[d]], v[v[q].kids[d + 1]], v[q].keys[d]);
             MinKeys(order, n) <= |n.keys| < order
    ensures Sized(order, MergePages(v, q, d), root, q)
  {
    var l, r := v[q].kids[d], v[q].kids[d + 1];
    MergeBasics(v, root, sh, q, d);
    RootIsNoKid(v, root, sh, q);
    assert l in KidsOf(v[q]) && r in KidsOf(v[q]);
    hide Tree, NodeOk, EdgeOk;
    var w := MergePages(v, q, d);
    forall x | x in w && x != q ensures SizeOk(order, w[x], x == root) {
      if x != l {
        assert SizeOk(order, v[x], x == root);
      }
    }
  }

  // ---------------------------------------------------------------- which cascades are safe

  /** Child `i` and the sibling the code turns to are the children `PairOf(i)` and `PairOf(i) + 1`. */
  ghost function PairOf(i: nat): nat {
    if i == 0 then 0 else i - 1
  }

  lemma ParentHigher(v: Pages, root: PageNum, sh: Shape, p: PageNum)
    requires Tree(v, root, sh) && p in v && p != root
    ensures var q := v[p].parent;
            && q in v && v[q].Inner? && |v[q].kids| == |v[q].keys| + 1 && KidIndex(v[q].kids, p) < |v[q].kids|
            && p in sh.at && q in sh.at && Higher(sh, q) < Higher(sh, p) && sh.at[q].height == sh.at[p].height + 1
            && v[p].parent != NO_PARENT
    ensures forall j :: 0 <= j < |v[v[p].parent].kids| ==> v[v[p].parent].kids[j] in v
  {
    var i := HangsSomewhere(v, root, sh, p);
    var q := v[p].parent;
    assert EdgeOk(v, sh.at, q, i);
    assert q in Higher(sh, p) && q !in Higher(sh, q);
    assert p in v[q].kids;
    KidIndexIn(v[q].kids, p);
    forall j | 0 <= j < |v[q].kids| ensures v[q].kids[j] in v {
      assert EdgeOk(v, sh.at, q, j);
    }
  }

  lemma {:induction false} KidIndexIn(kids: seq<PageNum>, c: PageNum)
    requires c in kids
    ensures KidIndex(kids, c) < |kids|
  {
    if kids[0] != c {
      KidIndexIn(kids[1..], c);
    }
  }

  /**
   What happens when page `p` is left with `n` keys, `last` telling whether an inner page lost its
   last child: nothing, if `n` is enough; the page borrows, if the sibling can spare a key, which goes
   well for leaves, never for an inner page that borrows from its right sibling, and from the left
   sibling only if the page did not lose its last child; otherwise the page is merged with the sibling
   and the parent is left with one key less.
   */
  ghost predicate Safe(order: nat, v: Pages, root: PageNum, sh: Shape, p: PageNum, n: int, last: bool)
    requires Tree(v, root, sh) && p in v
    decreases if p in sh.at then Higher(sh, p) else {}
  {
    p == root || n >= MinKeys(order, v[p]) || (
      ParentHigher(v, root, sh, p);
      var q := v[p].parent;
      var i := KidIndex(v[q].kids, p);
      var d := PairOf(i);
      |v[q].keys| > 0 ==>
        if |v[v[q].kids[if i == 0 then 1 else d]].keys| > MinKeys(order, v[p]) then v[p].Leaf? || (i > 0 && !last)
        else Safe(order, v, root, sh, q, |v[q].keys| - 1, d + 1 == |v[q].keys|)
    )
  }

  /** Page `p` kept its place, and the other pages of its level and above are the same. */
  ghost predicate SameAbove(v: Pages, sh: Shape, w: Pages, p: PageNum) {
    && p in v && p in w && v[p].parent == w[p].parent && v[p].Leaf? == w[p].Leaf? && p in sh.at
    && forall x :: x in v && x in sh.at && x != p && sh.at[x].height >= sh.at[p].height ==> x in w && w[x] == v[x]
  }

  /** `Safe` looks only at the levels from `p` upwards. */
  lemma {:induction false} SafeSame(order: nat, v: Pages, sh: Shape, w: Pages, sh': Shape, root: PageNum, p: PageNum, n: int, last: bool)
    requires Tree(v, root, sh) && Tree(w, root, sh') && SameAbove(v, sh, w, p)
    ensures Safe(order, v, root, sh, p, n, last) == Safe(order, w, root, sh', p, n, last)
    decreases Higher(sh, p)
  {
    hide Chain, Rooted, NodeOk, Nodes, Edges;
    if p != root && n < MinKeys(order, v[p]) {
      ParentHigher(v, root, sh, p);
      ParentHigher(w, root, sh', p);
      var q := v[p].parent;
      var i := KidIndex(v[q].kids, p);
      if |v[q].keys| > 0 {
        var j := if i == 0 then 1 else i - 1;
        var s := v[q].kids[j];
        SiblingLevel(v, root, sh, q, i, j);
        assert w[s] == v[s];
        hide Tree;
        SafeSame(order, v, sh, w, sh', root, q, |v[q].keys| - 1, PairOf(i) + 1 == |v[q].keys|);
      }
    }
  }

  lemma SiblingLevel(v: Pages, root: PageNum, sh: Shape, q: PageNum, i: nat, j: nat)
    requires Tree(v, root, sh) && q in v && v[q].Inner? && i < |v[q].kids| && j < |v[q].kids| && i != j
    ensures var p, s := v[q].kids[i], v[q].kids[j];
            && p in sh.at && s in v && s in sh.at && s != p && sh.at[s].height == sh.at[p].height
            && v[s].parent == q && v[s].Leaf? == (sh.at[p].height == 0)
  {
    assert NodeOk(v[q], sh.at[q]) && EdgeOk(v, sh.at, q, i) && EdgeOk(v, sh.at, q, j);
    var s := v[q].kids[j];
    assert s in v && NodeOk(v[s], sh.at[s]);
  }

  /** After the merge the parent's level and those above are as before, but for the parent itself. */
  lemma MergeSameAbove(v: Pages, root: PageNum, sh: Shape, q: PageNum, d: nat)
    requires CanMerge(v, root, sh, q, d) && HasPair(v, q, d)
    ensures SameAbove(v, sh, MergePages(v, q, d), q)
  {
    MergeBasics(v, root, sh, q, d);
    var l, r := v[q].kids[d], v[q].kids[d + 1];
    KidsLower(v, sh.at, r);
    hide Tree, NodeOk;
  }

  lemma RemovedSameAbove(v: Pages, root: PageNum, sh: Shape, p: PageNum, n: Node)
    requires Tree(v, root, sh) && p in v && n.parent == v[p].parent && n.Leaf? == v[p].Leaf?
    ensures SameAbove(v, sh, v[p := n], p)
  {
  }
}
