/**
 Renaming keys. Climbing an insertion never compares keys, so what it does to a page map it does to
 every renamed page map. This is used to follow the code on inputs that break the order of keys.
 */
module KeyLabels {
  import opened IndexKeys
  import opened PageTree
  import opened PageSplit
  import opened PageSteps
  import opened PageInsert
  import opened IndexNodes

  ghost function MapSeq(s: seq<Key>, f: Key -> Key): (r: seq<Key>)
    ensures |r| == |s| && forall i :: 0 <= i < |s| ==> r[i] == f(s[i])
  {
    seq(|s|, i requires 0 <= i < |s| => f(s[i]))
  }

  ghost function MapNode(n: Node, f: Key -> Key): Node {
    match n
    case Leaf(parent, keys, rids, next) => Leaf(parent, MapSeq(keys, f), rids, next)
    case Inner(parent, keys, kids) => Inner(parent, MapSeq(keys, f), kids)
  }

  ghost function MapKeys(v: Pages, f: Key -> Key): (w: Pages)
    ensures w.Keys == v.Keys
    ensures forall p :: p in v ==> w[p] == MapNode(v[p], f)
  {
    map p | p in v :: MapNode(v[p], f)
  }

  ghost function Same(): (f: Key -> Key)
    ensures forall k :: f(k) == k
  {
    k => k
  }

  lemma MapSame(v: Pages, f: Key -> Key)
    requires forall k :: f(k) == k
    ensures MapKeys(v, f) == v
  {
    forall p | p in v ensures MapNode(v[p], f) == v[p] {
      assert MapSeq(v[p].keys, f) == v[p].keys;
    }
  }

  lemma MapAttach(n: Node, i: nat, k: Key, c: PageNum, f: Key -> Key)
    requires n.Inner? && i < |n.kids| == |n.keys| + 1
    ensures MapNode(Attach(n, i, k, c), f) == Attach(MapNode(n, f), i, f(k), c)
  {
    assert MapSeq(n.keys[..i] + [k] + n.keys[i..], f) == MapSeq(n.keys, f)[..i] + [f(k)] + MapSeq(n.keys, f)[i..];
  }

  lemma MapHalves(n: Node, m: nat, np: PageNum, f: Key -> Key)
    requires CutOk(n, m)
    ensures CutOk(MapNode(n, f), m)
    ensures MapNode(LeftHalf(n, m, np), f) == LeftHalf(MapNode(n, f), m, np)
    ensures MapNode(RightHalf(n, m), f) == RightHalf(MapNode(n, f), m)
  {
    assert MapSeq(n.keys[..m], f) == MapSeq(n.keys, f)[..m];
    assert MapSeq(n.keys[m..], f) == MapSeq(n.keys, f)[m..];
    assert MapSeq(n.keys[m + 1..], f) == MapSeq(n.keys, f)[m + 1..];
  }

  lemma MapPut(v: Pages, p: PageNum, n: Node, f: Key -> Key)
    ensures MapKeys(v[p := n], f) == MapKeys(v, f)[p := MapNode(n, f)]
  {
  }

  lemma MapReparent(v: Pages, ks: seq<PageNum>, q: PageNum, f: Key -> Key)
    ensures MapKeys(Reparent(v, ks, q), f) == Reparent(MapKeys(v, f), ks, q)
  {
    var a, b := MapKeys(Reparent(v, ks, q), f), Reparent(MapKeys(v, f), ks, q);
    forall p | p in v ensures a[p] == b[p] {
    }
  }

  lemma MapHalved(v: Pages, p: PageNum, m: nat, np: PageNum, f: Key -> Key)
    requires p in v && CutOk(v[p], m)
    ensures CutOk(MapKeys(v, f)[p], m)
    ensures MapKeys(Halved(v, p, m, np), f) == Halved(MapKeys(v, f), p, m, np)
  {
    var n, r := v[p], KidsOf(RightHalf(v[p], m));
    MapHalves(n, m, np, f);
    hide MapKeys, LeftHalf, RightHalf, MapNode;
    MapReparent(v, r, np, f);
    var w := Reparent(v, r, np);
    MapPut(w, p, LeftHalf(n, m, np), f);
    MapPut(w[p := LeftHalf(n, m, np)], np, RightHalf(n, m), f);
    KidsOfMapped(RightHalf(n, m), f);
  }

  lemma KidsOfMapped(n: Node, f: Key -> Key)
    ensures KidsOf(MapNode(n, f)) == KidsOf(n)
  {
  }

  // ---------------------------------------------------------------- the climb

  /** Separators are copies of stored keys. */
  ghost predicate Anchored(v: Pages, s: seq<Key>) {
    forall p, i :: p in v && v[p].Inner? && 0 <= i < |v[p].keys| ==> v[p].keys[i] in s
  }

  /** A leaf slot holds the record identifier that is part of its key. */
  ghost predicate Aligned(v: Pages) {
    forall p, i :: p in v && v[p].Leaf? && 0 <= i < |v[p].keys| && i < |v[p].rids| ==> v[p].rids[i] == v[p].keys[i].rid
  }

  /** What climbing one level, or all of them, does not disturb. */
  ghost predicate Kept(v: Pages, sh: Shape, v': Pages, sh': Shape) {
    && Content(v', sh') == Content(v, sh)
    && (Anchored(v, Content(v, sh)) ==> Anchored(v', Content(v, sh)))
    && (Aligned(v) ==> Aligned(v'))
  }

  /** The pool `w` holds the (renamed) tree `v` with its overfull page `p` cut, `np` being the upper half. */
  ghost predicate Climbing(order: nat, w: Pages, v: Pages, root: PageNum, sh: Shape, p: PageNum, np: PageNum, f: Key -> Key) {
    && order >= 3
    && Overfull(order, v, root, sh, p)
    && np > 0 && np !in v
    && CutOk(v[p], CutPoint(order, v[p]))
    && w == MapKeys(Halved(v, p, CutPoint(order, v[p]), np), f)
  }

  lemma SplitKept(order: nat, v: Pages, root: PageNum, sh: Shape, p: PageNum, i: nat, m: nat, np: PageNum)
    requires CanSplit(v, root, sh, p, i, m, np) && p in sh.at
    ensures Kept(v, sh, SplitPages(v, p, i, m, np), SplitShape(v, sh, p, m, np))
  {
    SplitContent(v, root, sh, p, i, m, np);
    SplitBasics(v, root, sh, p, i, m, np);
    if Anchored(v, Content(v, sh)) {
      SplitAnchored(v, root, sh, p, i, m, np);
    }
    if Aligned(v) {
      SplitAligned(v, root, sh, p, i, m, np);
    }
  }

  lemma SplitAligned(v: Pages, root: PageNum, sh: Shape, p: PageNum, i: nat, m: nat, np: PageNum)
    requires CanSplit(v, root, sh, p, i, m, np) && Aligned(v)
    ensures Aligned(SplitPages(v, p, i, m, np))
  {
    hide Tree;
    var w := SplitPages(v, p, i, m, np);
    forall x, j | x in w && w[x].Leaf? && 0 <= j < |w[x].keys| && j < |w[x].rids| ensures w[x].rids[j] == w[x].keys[j].rid {
      if x == np {
        assert v[p].rids[m + j] == v[p].keys[m + j].rid;
      } else if x == p {
        assert v[p].rids[j] == v[p].keys[j].rid;
      }
    }
  }

  lemma SplitAnchored(v: Pages, root: PageNum, sh: Shape, p: PageNum, i: nat, m: nat, np: PageNum)
    requires CanSplit(v, root, sh, p, i, m, np) && Anchored(v, Content(v, sh))
    ensures Anchored(SplitPages(v, p, i, m, np), Content(v, sh))
  {
    hide NodeOk, EdgeOk, Hangs, Content, KidsOf, DistinctPages, KidHi, Tree;
    var c := Content(v, sh);
    SplitBasics(v, root, sh, p, i, m, np);
    if v[p].Leaf? {
      LeafKeyStored(v, root, sh, p, m);
    }
    hide Tree, Content;
    var w, q := SplitPages(v, p, i, m, np), v[p].parent;
    forall x, j | x in w && w[x].Inner? && 0 <= j < |w[x].keys| ensures w[x].keys[j] in c {
      if x == np {
        assert v[p].keys[m + 1 + j] in c;
      } else if x == p {
        assert v[p].keys[j] in c;
      } else if x == q {
        assert j < i ==> w[x].keys[j] == v[q].keys[j];
        assert j > i ==> w[x].keys[j] == v[q].keys[j - 1];
      }
    }
  }

  lemma LeafKeyStored(v: Pages, root: PageNum, sh: Shape, p: PageNum, i: nat)
    requires Tree(v, root, sh) && p in v && v[p].Leaf? && i < |v[p].keys|
    ensures v[p].keys[i] in Content(v, sh)
  {
    hide Nodes, Edges, Rooted;
    var s := sh.leaves;
    FlattenHas(v, s, v[p].keys[i]);
    var j :| 0 <= j < |s| && s[j] == p;
    assert s[j] in v && v[p].keys[i] in v[s[j]].keys;
  }

  /** One level up: after the parent took the new child, either all is well or the parent is the overfull page. */
  lemma ClimbTree(order: nat, v: Pages, root: PageNum, sh: Shape, p: PageNum, i: nat, np: PageNum)
    requires order >= 3 && Overfull(order, v, root, sh, p) && CanSplit(v, root, sh, p, i, CutPoint(order, v[p]), np)
    ensures var m, q := CutPoint(order, v[p]), v[p].parent;
            p in sh.at &&
            var v', sh' := SplitPages(v, p, i, m, np), SplitShape(v, sh, p, m, np);
            && Tree(v', root, sh') && Kept(v, sh, v', sh')
            && q in v' && |v'[q].keys| == |v[q].keys| + 1 <= order && v'[q].Inner?
            && (|v'[q].keys| < order ==> WellFormed(order, v', root, sh'))
            && (|v'[q].keys| == order ==> Overfull(order, v', root, sh', q))
            && q in sh'.at && Higher(sh', q) < Higher(sh, p)
  {
    var m := CutPoint(order, v[p]);
    SplitBasics(v, root, sh, p, i, m, np);
    SplitSized(order, v, root, sh, p, i, np);
    hide Tree, NodeOk, EdgeOk, Kept;
    SplitTree(v, root, sh, p, i, m, np);
    SplitKept(order, v, root, sh, p, i, m, np);
    HigherShrinks(v, root, sh, p, i, m, np);
    hide SplitShape, Sized, SplitAt;
  }

  /** The same step seen through the renaming. */
  lemma ClimbView(order: nat, w: Pages, v: Pages, root: PageNum, sh: Shape, p: PageNum, i: nat, np: PageNum, f: Key -> Key)
    requires Climbing(order, w, v, root, sh, p, np, f) && p != root && CanSplit(v, root, sh, p, i, CutPoint(order, v[p]), np)
    ensures var m, q := CutPoint(order, v[p]), v[p].parent;
            && q in w && w[q] == MapNode(v[q], f) && q != p && q != np
            && w[q := Attach(w[q], i, f(v[p].keys[m]), np)] == MapKeys(SplitPages(v, p, i, m, np), f)
  {
    var m, q := CutPoint(order, v[p]), v[p].parent;
    SplitBasics(v, root, sh, p, i, m, np);
    hide Tree, NodeOk, EdgeOk, Halved, SplitPages;
    HalvedThenAttached(v, root, sh, p, i, m, np);
    MapAttach(v[q], i, v[p].keys[m], np, f);
    MapPut(Halved(v, p, m, np), q, Attach(v[q], i, v[p].keys[m], np), f);
  }

  /** The cut parent is the overfull page of the next level. */
  lemma ClimbAgain(order: nat, v: Pages, root: PageNum, sh: Shape, p: PageNum, np: PageNum, f: Key -> Key)
    requires order >= 3 && Overfull(order, v, root, sh, p) && np > 0 && np !in v && v[p].Inner?
    ensures var m := (order + 1) / 2 - 1; var n := MapNode(v[p], f);
            && m == CutPoint(order, v[p]) && CutOk(v[p], m) && CutOk(n, m) && n.keys[m] == f(v[p].keys[m])
            && (MapKeys(v, f)[p] == n)
            && Climbing(order, Halved(MapKeys(v, f), p, m, np), v, root, sh, p, np, f)
            && p in Halved(MapKeys(v, f), p, m, np) && Halved(MapKeys(v, f), p, m, np)[p].parent == v[p].parent
  {
    OverfullCut(order, v, root, sh, p);
    hide Tree;
    MapHalved(v, p, CutPoint(order, v[p]), np, f);
  }

  /** What the parent of the cut page knows of its children. */
  lemma ClimbKids(order: nat, w: Pages, v: Pages, root: PageNum, sh: Shape, p: PageNum, i: nat, np: PageNum, f: Key -> Key)
    requires Climbing(order, w, v, root, sh, p, np, f) && p != root && CanSplit(v, root, sh, p, i, CutPoint(order, v[p]), np)
    ensures var q := v[p].parent;
            && np in w && np != q && q in w && w[q].Inner? && w[q].kids == v[q].kids && p in w[q].kids
            && forall c :: c in w[q].kids ==> c in w && c != q
  {
    ClimbView(order, w, v, root, sh, p, i, np, f);
    KidsLower(v, sh.at, v[p].parent);
    hide Tree, Halved, SplitPages;
    HalvedHas(v, p, CutPoint(order, v[p]), np);
  }

  /** Where the parent of a cut page finds it. */
  lemma ClimbPosition(order: nat, v: Pages, root: PageNum, sh: Shape, p: PageNum, np: PageNum) returns (i: nat)
    requires order >= 3 && Overfull(order, v, root, sh, p) && p != root && np > 0 && np !in v && CutOk(v[p], CutPoint(order, v[p]))
    ensures CanSplit(v, root, sh, p, i, CutPoint(order, v[p]), np)
    ensures i == KidIndex(v[v[p].parent].kids, p)
  {
    i := HangsSomewhere(v, root, sh, p);
    SplitBasics(v, root, sh, p, i, CutPoint(order, v[p]), np);
    hide Tree, EdgeOk;
    var kids := v[v[p].parent].kids;
    assert forall j :: 0 <= j < i ==> kids[j] != kids[i];
    KidIndexIs(kids, p, i);
  }

  lemma KeptTrans(v: Pages, sh: Shape, v1: Pages, sh1: Shape, v2: Pages, sh2: Shape)
    requires Kept(v, sh, v1, sh1) && Kept(v1, sh1, v2, sh2)
    ensures Kept(v, sh, v2, sh2)
  {
  }

  lemma KeptContent(v: Pages, sh: Shape, v': Pages, sh': Shape)
    requires Kept(v, sh, v', sh')
    ensures Content(v', sh') == Content(v, sh)
  {
  }

  lemma NewRootView(h: Pages, root: PageNum, np: PageNum, nr: PageNum, k: Key, f: Key -> Key)
    requires root in h && np in h && root != np && nr !in h
    ensures NewRootPages(MapKeys(h, f), root, np, nr, f(k)) == MapKeys(NewRootPages(h, root, np, nr, k), f)
  {
    assert MapSeq([k], f) == [f(k)];
  }

  lemma NewRootTree(order: nat, v: Pages, root: PageNum, sh: Shape, np: PageNum, nr: PageNum) returns (sh': Shape)
    requires order >= 3 && Overfull(order, v, root, sh, root)
    requires np > 0 && np !in v && nr > 0 && nr !in v && nr != np
    ensures CutOk(v[root], CutPoint(order, v[root]))
    ensures var m := CutPoint(order, v[root]);
            var z := NewRootPages(Halved(v, root, m, np), root, np, nr, v[root].keys[m]);
            WellFormed(order, z, nr, sh') && Kept(v, sh, z, sh')
  {
    OverfullCut(order, v, root, sh, root);
    RootIsNoKid(v, root, sh, root);
    hide Tree, Kept, GrowPages, GrowShape, SplitShape, SplitPages, Halved, NewRootPages, Sized, Content;
    sh' := NewRootKept(order, v, root, sh, CutPoint(order, v[root]), np, nr);
    NewRoot(order, v, root, sh, np, nr);
    GrowThenSplit(order, v, root, np, nr);
  }

  lemma NewRootKept(order: nat, v: Pages, root: PageNum, sh: Shape, m: nat, np: PageNum, nr: PageNum) returns (sh': Shape)
    requires Tree(v, root, sh) && CutOk(v[root], m)
    requires np > 0 && np !in v && nr > 0 && nr !in v && nr != np
    ensures var w := GrowPages(v, root, nr);
            && root in sh.at && HangsAt(w, root, 0) && CutOk(w[root], m)
            && sh' == SplitShape(w, GrowShape(sh, root, nr), root, m, np)
            && Kept(v, sh, SplitPages(w, root, 0, m, np), sh')
  {
    GrowTree(v, root, sh, nr);
    var w, gsh := GrowPages(v, root, nr), GrowShape(sh, root, nr);
    assert HangsAt(w, root, 0) && CutOk(w[root], m);
    sh' := SplitShape(w, gsh, root, m, np);
    GrowKept(v, root, sh, nr);
    hide Tree, Kept, GrowShape, SplitShape, SplitPages;
    SplitKept(order, w, nr, gsh, root, 0, m, np);
    KeptTrans(v, sh, w, gsh, SplitPages(w, root, 0, m, np), sh');
  }

  lemma GrowKept(v: Pages, root: PageNum, sh: Shape, nr: PageNum)
    requires Tree(v, root, sh) && nr > 0 && nr !in v
    ensures root in sh.at && Kept(v, sh, GrowPages(v, root, nr), GrowShape(sh, root, nr))
  {
    hide Chain, Rooted, NodeOk, EdgeOk, Content;
    GrowTree(v, root, sh, nr);
    hide Tree, Content;
    var w := GrowPages(v, root, nr);
    if Anchored(v, Content(v, sh)) {
      forall p, i | p in w && w[p].Inner? && 0 <= i < |w[p].keys| ensures w[p].keys[i] in Content(v, sh) {
        assert p in v && w[p].keys == v[p].keys;
      }
    }
  }

  /** Everything one level of the climb needs to know. */
  lemma ClimbStep(order: nat, w: Pages, v: Pages, root: PageNum, sh: Shape, p: PageNum, np: PageNum, f: Key -> Key)
    returns (v': Pages, sh': Shape)
    requires Climbing(order, w, v, root, sh, p, np, f) && p != root
    ensures var q := v[p].parent;
            && np in w && np != q && q in w && w[q].Inner? && p in w[q].kids
            && (forall c :: c in w[q].kids ==> c in w && c != q)
            && |w[q].kids| == |w[q].keys| + 1 && KidIndex(w[q].kids, p) < |w[q].kids|
            && w[q := Attach(w[q], KidIndex(w[q].kids, p), f(v[p].keys[CutPoint(order, v[p])]), np)] == MapKeys(v', f)
            && q in v' && v'[q].Inner? && Kept(v, sh, v', sh')
            && (|w[q].keys| < order - 1 ==> WellFormed(order, v', root, sh'))
            && (|w[q].keys| == order - 1 ==> Overfull(order, v', root, sh', q))
            && p in sh.at && q in sh'.at && Higher(sh', q) < Higher(sh, p)
  {
    var m := CutPoint(order, v[p]);
    var i := ClimbPosition(order, v, root, sh, p, np);
    ClimbView(order, w, v, root, sh, p, i, np, f);
    ClimbTree(order, v, root, sh, p, i, np);
    ClimbKids(order, w, v, root, sh, p, i, np, f);
    v', sh' := SplitPages(v, p, i, m, np), SplitShape(v, sh, p, m, np);
    hide Tree, Sized, Kept, Halved, SplitPages, SplitShape, Attach, MapKeys, Higher, Overfull, WellFormed;
  }

  /** The cut leaf starts the climb. */
  lemma LeafClimb(order: nat, v0: Pages, w: Pages, v: Pages, root: PageNum, sh: Shape, p: PageNum, np: PageNum, f: Key -> Key)
    requires order >= 3 && Overfull(order, v, root, sh, p) && v[p].Leaf? && CutOk(v[p], order / 2) && p in v0 && v0[p].Leaf?
    requires MapKeys(v, f) == SetLeaf(v0, p, MapNode(v[p], f).keys, v[p].rids) && np !in v0 && np > 0
    requires np in w && w == v0[np := w[np]][p := LeftHalf(MapNode(v[p], f), order / 2, np)][np := RightHalf(MapNode(v[p], f), order / 2)]
    ensures Climbing(order, w, v, root, sh, p, np, f)
    ensures p in w && w[p].parent == v[p].parent
    ensures |w[np].keys| > 0 && w[np].keys[0] == f(v[p].keys[order / 2])
  {
    hide Tree, Sized;
    var n, m := v[p], order / 2;
    var x := MapNode(n, f);
    MapHalves(n, m, np, f);
    MapHalved(v, p, m, np, f);
    assert MapKeys(v, f)[p] == x;
    NothingMoves(MapKeys(v, f), RightHalf(x, m), np);
    assert w == MapKeys(v, f)[p := LeftHalf(x, m, np)][np := RightHalf(x, m)];
  }

  lemma NothingMoves(v: Pages, n: Node, q: PageNum)
    requires n.Leaf?
    ensures Reparent(v, KidsOf(n), q) == v
  {
  }
}
