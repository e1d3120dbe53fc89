/**
 What borrowing a key from a sibling does to the pages, slot for slot. Among leaves the keys end up
 right. An inner page that borrows from its right sibling always loses a child; one that borrows from
 its left sibling keeps all children only if the slot behind its last child still holds that child.
 */
module PageBorrow {
  import opened IndexKeys
  import opened PageTree
  import opened PageSplit
  import opened PageMerge
  import opened PageSteps
  import opened IndexNodes
  import opened PageDelete

  ghost function SetKey(n: Node, d: nat, k: Key): Node
    requires n.Inner? && d < |n.keys|
  {
    Inner(n.parent, n.keys[d := k], n.kids)
  }

  /** Children `d` and `d + 1` of `q` are two pages of the same kind, the one at `more` with keys to spare. */
  ghost predicate Pair(v: Pages, q: PageNum, d: nat) {
    HasPair(v, q, d) && Shaped(v[v[q].kids[d]]) && Shaped(v[v[q].kids[d + 1]]) && v[v[q].kids[d]].Leaf? == v[v[q].kids[d + 1]].Leaf?
  }

  ghost function LeafTakesRight(v: Pages, q: PageNum, d: nat): Pages
    requires Pair(v, q, d) && v[v[q].kids[d]].Leaf? && |v[v[q].kids[d + 1]].keys| > 1
  {
    var l, r := v[q].kids[d], v[q].kids[d + 1];
    v[l := Leaf(v[l].parent, v[l].keys + [v[r].keys[0]], v[l].rids + [v[r].rids[0]], v[l].next)]
     [r := Leaf(v[r].parent, v[r].keys[1..], v[r].rids[1..], v[r].next)]
     [q := SetKey(v[q], d, v[r].keys[1])]
  }

  /** The record identifier that should move stays behind: `first` is what the first slot held. */
  ghost function LeafTakesLeft(v: Pages, q: PageNum, d: nat, first: Rid): Pages
    requires Pair(v, q, d) && v[v[q].kids[d]].Leaf? && |v[v[q].kids[d]].keys| > 0
  {
    var l, r := v[q].kids[d], v[q].kids[d + 1];
    var n := |v[l].keys| - 1;
    v[l := Leaf(v[l].parent, v[l].keys[..n], v[l].rids[..n], v[l].next)]
     [r := Leaf(v[r].parent, [v[l].keys[n]] + v[r].keys, [first] + v[r].rids, v[r].next)]
     [q := SetKey(v[q], d, v[l].keys[n])]
  }

  /** The right page forgets its last child and lists the one before it twice. */
  ghost function InnerTakesRight(v: Pages, q: PageNum, d: nat): Pages
    requires Pair(v, q, d) && v[v[q].kids[d]].Inner? && |v[v[q].kids[d + 1]].keys| > 0 && v[v[q].kids[d + 1]].kids[0] in v
  {
    var l, r := v[q].kids[d], v[q].kids[d + 1];
    var n, c := |v[r].keys|, v[r].kids[0];
    var w := v[l := Inner(v[l].parent, v[l].keys + [v[q].keys[d]], v[l].kids + [c])]
              [r := Inner(v[r].parent, v[r].keys[1..], v[r].kids[1..n] + [v[r].kids[n - 1]])]
              [q := SetKey(v[q], d, v[r].keys[0])];
    w[c := w[c].(parent := l)]
  }

  /** The last child of the right page is replaced by `spare`, what the slot behind it held. */
  ghost function InnerTakesLeft(v: Pages, q: PageNum, d: nat, spare: PageNum): Pages
    requires Pair(v, q, d) && v[v[q].kids[d]].Inner? && |v[v[q].kids[d]].keys| > 0 && v[v[q].kids[d]].kids[|v[v[q].kids[d]].keys|] in v
  {
    var l, r := v[q].kids[d], v[q].kids[d + 1];
    var n := |v[l].keys| - 1;
    var c := v[l].kids[n + 1];
    var w := v[l := Inner(v[l].parent, v[l].keys[..n], v[l].kids[..n + 1])]
              [r := Inner(v[r].parent, [v[q].keys[d]] + v[r].keys, [c] + v[r].kids[..|v[r].keys|] + [spare])]
              [q := SetKey(v[q], d, v[l].keys[n])];
    w[c := w[c].(parent := r)]
  }

  // ---------------------------------------------------------------- the good cases are proper borrowing

  lemma PairBasics(v: Pages, root: PageNum, sh: Shape, q: PageNum, d: nat)
    requires CanMerge(v, root, sh, q, d)
    ensures Pair(v, q, d)
    ensures var l, r := v[q].kids[d], v[q].kids[d + 1];
            && l != r && l != q && r != q && v[l].parent == q && v[r].parent == q
            && forall c :: c in KidsOf(v[l]) || c in KidsOf(v[r]) ==> c in v && c != l && c != r && c != q
  {
    MergeBasics(v, root, sh, q, d);
    KidsLower(v, sh.at, v[q].kids[d]);
    KidsLower(v, sh.at, v[q].kids[d + 1]);
  }

  lemma LeafLinked(v: Pages, root: PageNum, sh: Shape, q: PageNum, d: nat)
    requires CanMerge(v, root, sh, q, d) && HasPair(v, q, d) && v[v[q].kids[d]].Leaf?
    ensures v[v[q].kids[d]].next == v[q].kids[d + 1]
  {
    var j := PairInChain(v, root, sh, q, d);
  }

  lemma LeafTakesRightOk(v: Pages, root: PageNum, sh: Shape, q: PageNum, d: nat)
    requires CanMerge(v, root, sh, q, d) && Pair(v, q, d) && v[v[q].kids[d]].Leaf? && |v[v[q].kids[d + 1]].keys| > 1
    ensures var l, r := v[q].kids[d], v[q].kids[d + 1];
            var m := |v[l].keys| + 1;
            CutOk(MergeNode(v[l], v[r], v[q].keys[d]), m) && LeafTakesRight(v, q, d) == BorrowPages(v, q, d, m)
  {
    hide CanMerge, LeftHalf, RightHalf, MergeNode, CutOk;
    PairBasics(v, root, sh, q, d);
    LeafLinked(v, root, sh, q, d);
    var l, r := v[q].kids[d], v[q].kids[d + 1];
    LeafRightHalves(v[l], v[r], v[q].keys[d], r);
    assert Reparent(Reparent(v, [], l), [], r) == v;
  }

  lemma LeafRightHalves(l: Node, r: Node, k: Key, np: PageNum)
    requires l.Leaf? && r.Leaf? && Shaped(l) && Shaped(r) && |r.keys| > 1
    ensures var m, n := |l.keys| + 1, MergeNode(l, r, k);
            && CutOk(n, m) && n.keys[m] == r.keys[1]
            && LeftHalf(n, m, np) == Leaf(l.parent, l.keys + [r.keys[0]], l.rids + [r.rids[0]], np)
            && RightHalf(n, m) == Leaf(l.parent, r.keys[1..], r.rids[1..], r.next)
  {
    var m, n := |l.keys| + 1, MergeNode(l, r, k);
    assert n.keys[..m] == l.keys + [r.keys[0]] && n.keys[m..] == r.keys[1..];
    assert n.rids[..m] == l.rids + [r.rids[0]] && n.rids[m..] == r.rids[1..];
  }

  lemma LeafLeftHalves(l: Node, r: Node, k: Key, np: PageNum)
    requires l.Leaf? && r.Leaf? && Shaped(l) && Shaped(r) && |l.keys| > 1
    ensures var m, n := |l.keys| - 1, MergeNode(l, r, k);
            && CutOk(n, m) && n.keys[m] == l.keys[m]
            && LeftHalf(n, m, np) == Leaf(l.parent, l.keys[..m], l.rids[..m], np)
            && RightHalf(n, m) == Leaf(l.parent, [l.keys[m]] + r.keys, [l.rids[m]] + r.rids, r.next)
  {
    var m, n := |l.keys| - 1, MergeNode(l, r, k);
    assert n.keys[..m] == l.keys[..m] && n.keys[m..] == [l.keys[m]] + r.keys;
    assert n.rids[..m] == l.rids[..m] && n.rids[m..] == [l.rids[m]] + r.rids;
  }

  lemma LeafTakesLeftOk(v: Pages, root: PageNum, sh: Shape, q: PageNum, d: nat, first: Rid)
    requires CanMerge(v, root, sh, q, d) && Pair(v, q, d) && v[v[q].kids[d]].Leaf? && |v[v[q].kids[d]].keys| > 1
    ensures var l, r := v[q].kids[d], v[q].kids[d + 1];
            var m := |v[l].keys| - 1;
            && CutOk(MergeNode(v[l], v[r], v[q].keys[d]), m)
            && var b := BorrowPages(v, q, d, m);
               r in b && b[r].Leaf? && LeafTakesLeft(v, q, d, first) == SetLeaf(b, r, b[r].keys, [first] + v[r].rids)
  {
    hide CanMerge, LeftHalf, RightHalf, MergeNode, CutOk;
    PairBasics(v, root, sh, q, d);
    LeafLinked(v, root, sh, q, d);
    var l, r := v[q].kids[d], v[q].kids[d + 1];
    LeafLeftHalves(v[l], v[r], v[q].keys[d], r);
    assert Reparent(Reparent(v, [], l), [], r) == v;
  }

  lemma InnerTakesLeftOk(v: Pages, root: PageNum, sh: Shape, q: PageNum, d: nat)
    requires CanMerge(v, root, sh, q, d) && Pair(v, q, d) && v[v[q].kids[d]].Inner? && |v[v[q].kids[d]].keys| > 1
    ensures var l, r := v[q].kids[d], v[q].kids[d + 1];
            var m := |v[l].keys| - 1;
            && CutOk(MergeNode(v[l], v[r], v[q].keys[d]), m) && v[l].kids[m + 1] in v
            && InnerTakesLeft(v, q, d, v[r].kids[|v[r].keys|]) == BorrowPages(v, q, d, m)
  {
    PairBasics(v, root, sh, q, d);
    var l, r := v[q].kids[d], v[q].kids[d + 1];
    KidsLower(v, sh.at, l);
    KidsLower(v, sh.at, r);
    var m := |v[l].keys| - 1;
    var c, e := v[l].kids[m + 1], SetKey(v[q], d, v[l].keys[m]);
    assert c in KidsOf(v[l]);
    LastApart(c, v[r].kids);
    InnerHalves(v[l], v[r], v[q].keys[d], r);
    InnerMoves(v, q, d, c);
    var a, b := Inner(q, v[l].keys[..m], v[l].kids[..m + 1]), Inner(q, [v[q].keys[d]] + v[r].keys, [c] + v[r].kids);
    hide CanMerge, MergeNode, LeftHalf, RightHalf, CutOk, Reparent;
    UpdatesCommute(v, (l, a), (r, b), (q, e), c, r);
    assert BorrowPages(v, q, d, m) == v[c := v[c].(parent := r)][l := a][r := b][q := e];
  }

  lemma LastApart(c: PageNum, s: seq<PageNum>)
    requires |s| > 0
    ensures [c] + s[..|s| - 1] + [s[|s| - 1]] == [c] + s
  {
  }

  lemma UpdatesCommute(v: Pages, x: (PageNum, Node), y: (PageNum, Node), z: (PageNum, Node), c: PageNum, p: PageNum)
    requires c in v && c != x.0 && c != y.0 && c != z.0
    ensures var w := v[x.0 := x.1][y.0 := y.1][z.0 := z.1];
            c in w && w[c := w[c].(parent := p)] == v[c := v[c].(parent := p)][x.0 := x.1][y.0 := y.1][z.0 := z.1]
  {
  }

  lemma InnerHalves(l: Node, r: Node, k: Key, np: PageNum)
    requires l.Inner? && r.Inner? && Shaped(l) && Shaped(r) && |l.keys| > 1
    ensures var m, n := |l.keys| - 1, MergeNode(l, r, k);
            && CutOk(n, m) && n.keys[m] == l.keys[m]
            && LeftHalf(n, m, np) == Inner(l.parent, l.keys[..m], l.kids[..m + 1])
            && RightHalf(n, m) == Inner(l.parent, [k] + r.keys, [l.kids[m + 1]] + r.kids)
  {
    var m, n := |l.keys| - 1, MergeNode(l, r, k);
    assert n.keys[..m] == l.keys[..m] && n.keys[m + 1..] == [k] + r.keys;
    assert n.kids[..m + 1] == l.kids[..m + 1] && n.kids[m + 1..] == [l.kids[m + 1]] + r.kids;
  }

  /** Of the children that the borrowing visits only `c` changes its parent. */
  lemma InnerMoves(v: Pages, q: PageNum, d: nat, c: PageNum)
    requires Pair(v, q, d) && v[v[q].kids[d]].Inner? && c in v
    requires var r := v[q].kids[d + 1]; forall x :: x in v[r].kids ==> x in v && v[x].parent == r
    ensures var l, r := v[q].kids[d], v[q].kids[d + 1];
            Reparent(Reparent(v, v[r].kids, l), [c] + v[r].kids, r) == v[c := v[c].(parent := r)]
  {
    var l, r := v[q].kids[d], v[q].kids[d + 1];
    var a, b := Reparent(Reparent(v, v[r].kids, l), [c] + v[r].kids, r), v[c := v[c].(parent := r)];
    forall x | x in v ensures a[x] == b[x] {
    }
  }

  // ---------------------------------------------------------------- the others leave no tree

  lemma DoubleKid(v: Pages, root: PageNum, sh: Shape, p: PageNum, i: nat, j: nat)
    requires p in v && v[p].Inner? && i < j < |v[p].kids| && v[p].kids[i] == v[p].kids[j]
    ensures !Tree(v, root, sh)
  {
  }

  lemma KidStored(v: Pages, root: PageNum, sh: Shape, p: PageNum, i: nat)
    requires Tree(v, root, sh) && p in v && v[p].Inner? && i < |v[p].kids|
    ensures v[p].kids[i] in v
  {
    assert NodeOk(v[p], sh.at[p]) && EdgeOk(v, sh.at, p, i);
  }

  lemma LostKid(v: Pages, root: PageNum, sh: Shape, p: PageNum, i: nat)
    requires p in v && v[p].Inner? && i < |v[p].kids| && v[p].kids[i] !in v
    ensures !Tree(v, root, sh)
  {
    if Tree(v, root, sh) {
      KidStored(v, root, sh, p, i);
    }
  }

  lemma InnerTakesRightBreaks(v: Pages, root: PageNum, sh: Shape, q: PageNum, d: nat)
    requires CanMerge(v, root, sh, q, d) && Pair(v, q, d) && v[v[q].kids[d]].Inner? && |v[v[q].kids[d + 1]].keys| > 1
    ensures v[v[q].kids[d + 1]].kids[0] in v
    ensures forall r, s :: !Tree(InnerTakesRight(v, q, d), r, s)
  {
    hide Chain, Rooted, EdgeOk, Edges, BoundLess, Above;
    PairBasics(v, root, sh, q, d);
    var r := v[q].kids[d + 1];
    assert v[r].kids[0] in KidsOf(v[r]);
    var w, n := InnerTakesRight(v, q, d), |v[r].keys|;
    assert w[r].kids == v[r].kids[1..n] + [v[r].kids[n - 1]];
    forall r', s ensures !Tree(w, r', s) {
      DoubleKid(w, r', s, r, n - 2, n - 1);
    }
  }

  lemma InnerTakesLeftBreaks(v: Pages, root: PageNum, sh: Shape, q: PageNum, d: nat, spare: PageNum)
    requires CanMerge(v, root, sh, q, d) && Pair(v, q, d) && v[v[q].kids[d]].Inner? && |v[v[q].kids[d]].keys| > 0
    requires spare !in v
    ensures v[v[q].kids[d]].kids[|v[v[q].kids[d]].keys|] in v
    ensures forall r, s :: !Tree(InnerTakesLeft(v, q, d, spare), r, s)
  {
    PairBasics(v, root, sh, q, d);
    var l, r := v[q].kids[d], v[q].kids[d + 1];
    var c := v[l].kids[|v[l].keys|];
    assert c in KidsOf(v[l]);
    var w, n := InnerTakesLeft(v, q, d, spare), |v[r].keys|;
    assert w[r].kids == [c] + v[r].kids[..n] + [spare];
    forall r', s ensures !Tree(w, r', s) {
      LostKid(w, r', s, r, n + 1);
    }
  }
}
