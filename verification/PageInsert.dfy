/**
 Insertion climbs the tree. Between two levels the page map is described through a page that is one
 key too full: `v` is a tree in which only `p` has `order` keys, and the pool holds `v` with `p` cut in two.
 */
module PageInsert {
  import opened IndexKeys
  import opened PageTree
  import opened PageSplit
  import opened PageSteps

  /** Where a page of `order` keys is cut. */
  ghost function CutPoint(order: nat, n: Node): nat
    requires order > 0
  {
    if n.Leaf? then order / 2 else (order + 1) / 2 - 1
  }

  /** `v` is a B+ tree but for page `p`, which has one key more than it may keep. */
  ghost predicate Overfull(order: nat, v: Pages, root: PageNum, sh: Shape, p: PageNum) {
    Tree(v, root, sh) && p in v && |v[p].keys| == order && Sized(order, v, root, p)
  }

  /** Page `p` cut in two; the parent does not know yet. */
  ghost function Halved(v: Pages, p: PageNum, m: nat, np: PageNum): Pages
    requires p in v && CutOk(v[p], m)
  {
    Reparent(v, KidsOf(RightHalf(v[p], m)), np)[p := LeftHalf(v[p], m, np)][np := RightHalf(v[p], m)]
  }

  /**
   The moved children may as well learn their parent after both halves were written, and it does not
   matter what the new page held when the pool handed it out.
   */
  lemma HalvedFrom(v: Pages, v1: Pages, p: PageNum, n: Node, m: nat, np: PageNum)
    requires p in v && np !in v && np in v1 && v1 == v[np := v1[np]] && CutOk(n, m)
    requires p !in KidsOf(RightHalf(n, m)) && np !in KidsOf(RightHalf(n, m))
    ensures var r := KidsOf(RightHalf(n, m));
            Reparent(v1[p := LeftHalf(n, m, np)][np := RightHalf(n, m)], r[0..], np) == Halved(v[p := n], p, m, np)
  {
    var r := KidsOf(RightHalf(n, m));
    assert r[0..] == r;
  }

  lemma HalvedHas(v: Pages, p: PageNum, m: nat, np: PageNum)
    requires p in v && CutOk(v[p], m) && np !in v
    ensures Halved(v, p, m, np).Keys == v.Keys + {np}
  {
  }

  /** The pages strictly higher than `p`. */
  ghost function Higher(sh: Shape, p: PageNum): set<PageNum>
    requires p in sh.at
  {
    set x | x in sh.at && sh.at[x].height > sh.at[p].height
  }

  lemma OverfullCut(order: nat, v: Pages, root: PageNum, sh: Shape, p: PageNum)
    requires order >= 3 && Overfull(order, v, root, sh, p)
    ensures CutOk(v[p], CutPoint(order, v[p]))
  {
    assert NodeOk(v[p], sh.at[p]);
  }

  /** Page `p` sits at one position below its parent unless it is the root. */
  lemma HangsSomewhere(v: Pages, root: PageNum, sh: Shape, p: PageNum) returns (i: nat)
    requires Tree(v, root, sh) && p in v && p != root
    ensures HangsAt(v, p, i) && v[p].parent > 0
  {
    assert Hangs(v, p);
    var q := v[p].parent;
    assert q in v && NodeOk(v[q], sh.at[q]);
    i :| 0 <= i < |v[q].kids| && v[q].kids[i] == p;
  }

  /** The root has no parent and every other page has one. */
  lemma ParentTells(v: Pages, root: PageNum, sh: Shape, p: PageNum)
    requires Tree(v, root, sh) && p in v
    ensures v[p].parent == NO_PARENT <==> p == root
  {
    if p != root {
      var i := HangsSomewhere(v, root, sh, p);
    }
  }

  /** The parent page is not touched by the cut, and putting the new child into it completes the split. */
  lemma HalvedThenAttached(v: Pages, root: PageNum, sh: Shape, p: PageNum, i: nat, m: nat, np: PageNum)
    requires CanSplit(v, root, sh, p, i, m, np)
    ensures var q := v[p].parent; var h := Halved(v, p, m, np);
            && q in h && h[q] == v[q]
            && SplitPages(v, p, i, m, np) == h[q := Attach(v[q], i, v[p].keys[m], np)]
  {
    SplitBasics(v, root, sh, p, i, m, np);
    hide Tree;
    var q := v[p].parent;
    assert forall x :: x in KidsOf(RightHalf(v[p], m)) ==> x in KidsOf(v[p]);
    ParentNotKid(v, root, sh, p);
  }

  lemma ParentNotKid(v: Pages, root: PageNum, sh: Shape, p: PageNum)
    requires Tree(v, root, sh) && p in v && v[p].parent in v
    ensures v[p].parent !in KidsOf(v[p])
  {
    if p != root {
      var i := HangsSomewhere(v, root, sh, p);
      assert EdgeOk(v, sh.at, v[p].parent, i);
      KidsLower(v, sh.at, p);
    }
  }

  /** After the split only the parent may be too full, by one key. */
  lemma SplitSized(order: nat, v: Pages, root: PageNum, sh: Shape, p: PageNum, i: nat, np: PageNum)
    requires order >= 3 && Overfull(order, v, root, sh, p)
    requires CanSplit(v, root, sh, p, i, CutPoint(order, v[p]), np)
    ensures var q, w := v[p].parent, SplitPages(v, p, i, CutPoint(order, v[p]), np);
            && q in w && |w[q].keys| == |v[q].keys| + 1 <= order
            && Sized(order, w, root, q)
            && (|w[q].keys| < order ==> Sized(order, w, root, NO_PARENT))
  {
    var m := CutPoint(order, v[p]);
    SplitBasics(v, root, sh, p, i, m, np);
    hide Tree, NodeOk;
    var q, w := v[p].parent, SplitPages(v, p, i, m, np);
    assert SizeOk(order, v[q], q == root);
    forall x | x in w && x != q ensures SizeOk(order, w[x], x == root) {
      SplitSizeAt(order, v, root, sh, p, i, np, x);
    }
  }

  lemma HalfSizes(order: nat, n: Node, np: PageNum)
    requires order >= 3 && |n.keys| == order && CutOk(n, CutPoint(order, n))
    ensures SizeOk(order, LeftHalf(n, CutPoint(order, n), np), false)
    ensures SizeOk(order, RightHalf(n, CutPoint(order, n)), false)
  {
  }

  lemma SameSize(order: nat, n: Node, n': Node, isRoot: bool)
    requires SizeOk(order, n, isRoot) && |n'.keys| == |n.keys| && n'.Leaf? == n.Leaf?
    ensures SizeOk(order, n', isRoot)
  {
  }

  lemma SplitSizeAt(order: nat, v: Pages, root: PageNum, sh: Shape, p: PageNum, i: nat, np: PageNum, x: PageNum)
    requires order >= 3 && Overfull(order, v, root, sh, p)
    requires CanSplit(v, root, sh, p, i, CutPoint(order, v[p]), np)
    requires (x in v || x == np) && x != v[p].parent
    ensures var w := SplitPages(v, p, i, CutPoint(order, v[p]), np); x in w && SizeOk(order, w[x], x == root)
  {
    hide NodeOk, Nodes, Hangs, KidsOf, LeftHalf, RightHalf;
    var m := CutPoint(order, v[p]);
    SplitBasics(v, root, sh, p, i, m, np);
    HalfSizes(order, v[p], np);
    assert root in v && (x != p && x != np ==> SizeOk(order, v[x], x == root));
    hide Tree, NodeOk, EdgeOk, Sized, LeftHalf, SizeOk;
    var w := SplitPages(v, p, i, m, np);
    if x != p && x != np {
      SameSize(order, v[x], w[x], x == root);
    } else {
      assert w[x] == if x == p then LeftHalf(v[p], m, np) else RightHalf(v[p], m);
      assert x != root;
    }
  }

  lemma HigherShrinks(v: Pages, root: PageNum, sh: Shape, p: PageNum, i: nat, m: nat, np: PageNum)
    requires CanSplit(v, root, sh, p, i, m, np) && p in sh.at
    ensures v[p].parent in SplitShape(v, sh, p, m, np).at
    ensures Higher(SplitShape(v, sh, p, m, np), v[p].parent) < Higher(sh, p)
  {
    SplitBasics(v, root, sh, p, i, m, np);
    hide Tree;
    var q, sh2 := v[p].parent, SplitShape(v, sh, p, m, np);
    assert sh.at[q].height == sh.at[p].height + 1;
    assert forall x :: x in Higher(sh2, q) ==> x in Higher(sh, p);
    assert q in Higher(sh, p) && q !in Higher(sh2, q);
  }

  /** Putting an absent key into the leaf that must hold it. */
  lemma LeafInsertTree(v: Pages, root: PageNum, sh: Shape, p: PageNum, i: nat, k: Key, rids: seq<Rid>)
    requires Tree(v, root, sh) && p in v && v[p].Leaf? && p in sh.at
    requires AtOrBelow(sh.at[p].lo, k) && Above(sh.at[p].hi, k)
    requires i <= |v[p].keys| && k !in v[p].keys
    requires forall j :: 0 <= j < i ==> !Less(k, v[p].keys[j])
    requires i < |v[p].keys| ==> Less(k, v[p].keys[i])
    requires |rids| == |v[p].keys| + 1
    ensures var w := SetLeaf(v, p, v[p].keys[..i] + [k] + v[p].keys[i..], rids);
            Tree(w, root, sh) && Inserted(Content(v, sh), k, Content(w, sh))
  {
    var ks := v[p].keys;
    assert NodeOk(v[p], sh.at[p]);
    assert i > 0 ==> ks[i - 1] in ks && Less(ks[i - 1], k);
    StrictInsert(ks, i, k);
    var w := SetLeaf(v, p, ks[..i] + [k] + ks[i..], rids);
    SetLeafTree(v, root, sh, p, ks[..i] + [k] + ks[i..], rids);
    hide Tree;
    ContentInserted(v, root, sh, w, p, k);
  }

  lemma LeafInsertSized(order: nat, v: Pages, root: PageNum, p: PageNum, keys: seq<Key>, rids: seq<Rid>)
    requires p in v && v[p].Leaf? && Sized(order, v, root, NO_PARENT) && NO_PARENT !in v
    requires |keys| == |v[p].keys| + 1
    ensures Sized(order, SetLeaf(v, p, keys, rids), root, p)
    ensures |keys| < order ==> Sized(order, SetLeaf(v, p, keys, rids), root, NO_PARENT)
  {
    var w := SetLeaf(v, p, keys, rids);
    assert SizeOk(order, v[p], p == root);
    forall x | x in w && x != p && x != NO_PARENT ensures SizeOk(order, w[x], x == root) {
      assert SizeOk(order, v[x], x == root);
    }
  }

  /** The page map after a new root was put over the cut old root `root`. */
  ghost function NewRootPages(h: Pages, root: PageNum, np: PageNum, nr: PageNum, k: Key): Pages
    requires root in h && np in h
  {
    h[nr := Inner(NO_PARENT, [k], [root, np])][root := h[root].(parent := nr)][np := h[np].(parent := nr)]
  }

  /** The whole map with a new root over the cut old root. */
  lemma NewRoot(order: nat, v: Pages, root: PageNum, sh: Shape, np: PageNum, nr: PageNum)
    requires order >= 3 && Overfull(order, v, root, sh, root)
    requires np > 0 && np !in v && nr > 0 && nr !in v && nr != np
    ensures root in sh.at && CutOk(v[root], CutPoint(order, v[root]))
    ensures var m := CutPoint(order, v[root]);
            var w, gsh := GrowPages(v, root, nr), GrowShape(sh, root, nr);
            var h := Halved(v, root, m, np);
            var z := NewRootPages(h, root, np, nr, v[root].keys[m]);
            && CutOk(w[root], m)
            && WellFormed(order, z, nr, SplitShape(w, gsh, root, m, np))
            && Content(z, SplitShape(w, gsh, root, m, np)) == Content(v, sh)
  {
    OverfullCut(order, v, root, sh, root);
    GrowTree(v, root, sh, nr);
    var m := CutPoint(order, v[root]);
    var w, gsh := GrowPages(v, root, nr), GrowShape(sh, root, nr);
    assert HangsAt(w, root, 0);
    RootIsNoKid(v, root, sh, root);
    GrowThenSplit(order, v, root, np, nr);
    NewRootSized(order, v, root, np, nr);
    hide Tree;
    SplitTree(w, nr, gsh, root, 0, m, np);
    SplitContent(w, nr, gsh, root, 0, m, np);
  }

  lemma GrowThenSplit(order: nat, v: Pages, root: PageNum, np: PageNum, nr: PageNum)
    requires order >= 3 && root in v && root !in KidsOf(v[root]) && np !in v && nr !in v && nr != np
    requires CutOk(v[root], CutPoint(order, v[root]))
    ensures var m := CutPoint(order, v[root]);
            var w := GrowPages(v, root, nr);
            var h := Halved(v, root, m, np);
            var z := NewRootPages(h, root, np, nr, v[root].keys[m]);
            HangsAt(w, root, 0) && CutOk(w[root], m) && z == SplitPages(w, root, 0, m, np)
  {
    var m := CutPoint(order, v[root]);
    var w := GrowPages(v, root, nr);
    assert KidsOf(RightHalf(v[root], m)) == KidsOf(RightHalf(w[root], m));
    assert forall x :: x in KidsOf(RightHalf(v[root], m)) ==> x in KidsOf(v[root]);
    var z := SplitPages(w, root, 0, m, np);
    assert z[nr] == Attach(w[nr], 0, v[root].keys[m], np) == Inner(NO_PARENT, [v[root].keys[m]], [root, np]);
  }

  lemma NewRootSized(order: nat, v: Pages, root: PageNum, np: PageNum, nr: PageNum)
    requires order >= 3 && root in v && |v[root].keys| == order && Sized(order, v, root, root)
    requires np !in v && nr !in v && nr != np
    requires CutOk(v[root], CutPoint(order, v[root]))
    ensures var m := CutPoint(order, v[root]);
            var h := Halved(v, root, m, np);
            var z := NewRootPages(h, root, np, nr, v[root].keys[m]);
            Sized(order, z, nr, NO_PARENT)
  {
    var m := CutPoint(order, v[root]);
    var h := Halved(v, root, m, np);
    var z := NewRootPages(h, root, np, nr, v[root].keys[m]);
    forall x | x in z && x != NO_PARENT ensures SizeOk(order, z[x], x == nr) {
      if x != root && x != np && x != nr {
        assert SizeOk(order, v[x], false);
      }
    }
  }
}
