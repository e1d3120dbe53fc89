/** Small trees on which the operations of the index fail, one for each condition under which they do. */
module PageFailures {
  import opened IndexKeys
  import opened PageTree
  import opened IndexNodes
  import opened KeyLabels
  import opened PageSearch
  import opened PageDelete
  import opened PageCascade

  function K(n: nat): Key {
    Key(n, Rid(1, n))
  }

  // ---------------------------------------------------------------- a full leaf

  const FULL_LEAF: Pages := map[1 := Leaf(NO_PARENT, [K(1), K(2)], [K(1).rid, K(2).rid], NO_NEXT)]

  const ONE_LEAF := Shape(map[1 := Info(0, NegInf, PosInf)], [1])

  /** Inserting key 1 once more is not noticed here. */
  lemma TwinAccepted()
    ensures WellFormed(3, FULL_LEAF, 1, ONE_LEAF)
    ensures K(1) in Content(FULL_LEAF, ONE_LEAF) && HomeFullIn(3, FULL_LEAF, ONE_LEAF, K(1))
  {
    var v := FULL_LEAF;
    assert Flatten(v, [1]) == v[1].keys + Flatten(v, []) by {
      assert [1][1..] == [];
    }
    assert NodeOk(v[1], Info(0, NegInf, PosInf));
    assert Owns(v, ONE_LEAF, 1, K(1));
  }

  // ---------------------------------------------------------------- two leaves

  function TwoLeaves(sep: Key, l: Node, r: Node): Pages {
    map[1 := Inner(NO_PARENT, [sep], [2, 3]), 2 := l, 3 := r]
  }

  function TwoShape(sep: Key): Shape {
    Shape(map[1 := Info(1, NegInf, PosInf), 2 := Info(0, NegInf, At(sep)), 3 := Info(0, At(sep), PosInf)], [2, 3])
  }

  /** Two leaves left and right of a separator make a tree. */
  lemma TwoLeavesOk(sep: Key, l: Node, r: Node)
    requires l.Leaf? && r.Leaf? && l.parent == r.parent == 1 && l.next == 3 && r.next == NO_NEXT
    requires NodeOk(l, Info(0, NegInf, At(sep))) && NodeOk(r, Info(0, At(sep), PosInf))
    requires 1 <= |l.keys| <= 2 && 1 <= |r.keys| <= 2
    ensures WellFormed(3, TwoLeaves(sep, l, r), 1, TwoShape(sep))
    ensures Content(TwoLeaves(sep, l, r), TwoShape(sep)) == l.keys + r.keys
  {
    TwoLeavesTree(sep, l, r);
    TwoLeavesContent(sep, l, r);
  }

  lemma TwoLeavesTree(sep: Key, l: Node, r: Node)
    requires l.Leaf? && r.Leaf? && l.parent == r.parent == 1 && l.next == 3 && r.next == NO_NEXT
    requires NodeOk(l, Info(0, NegInf, At(sep))) && NodeOk(r, Info(0, At(sep), PosInf))
    ensures Tree(TwoLeaves(sep, l, r), 1, TwoShape(sep))
  {
    hide Strict;
    var v, at := TwoLeaves(sep, l, r), TwoShape(sep).at;
    OneKeyStrict(sep);
    assert NodeOk(v[1], at[1]);
    assert EdgeOk(v, at, 1, 0) && EdgeOk(v, at, 1, 1);
    assert v[1].kids[0] == 2 && v[1].kids[1] == 3;
    assert Hangs(v, 2) && Hangs(v, 3);
  }

  lemma OneKeyStrict(k: Key)
    ensures Strict([k])
  {
  }

  lemma TwoLeavesContent(sep: Key, l: Node, r: Node)
    ensures Content(TwoLeaves(sep, l, r), TwoShape(sep)) == l.keys + r.keys
  {
    var v := TwoLeaves(sep, l, r);
    assert Flatten(v, [2, 3]) == l.keys + Flatten(v, [3]) by {
      assert [2, 3][1..] == [3];
    }
    assert Flatten(v, [3]) == r.keys + Flatten(v, []);
  }

  function LeafOf(parent: PageNum, keys: seq<Key>, next: PageNum): Node {
    Leaf(parent, keys, seq(|keys|, i requires 0 <= i < |keys| => keys[i].rid), next)
  }

  lemma LeafOfAligned(sep: Key, l: Node, r: Node)
    requires l.Leaf? && r.Leaf? && l == LeafOf(1, l.keys, l.next) && r == LeafOf(1, r.keys, r.next)
    ensures Aligned(TwoLeaves(sep, l, r))
  {
  }

  const FULL_AND_SHORT: Pages := TwoLeaves(K(3), LeafOf(1, [K(1), K(2)], 3), LeafOf(1, [K(3)], NO_NEXT))

  /** Deleting key 3 is right as far as the keys go, but puts key 2 beside the record identifier of key 3. */
  lemma RidMislaid()
    ensures WellFormed(3, FULL_AND_SHORT, 1, TwoShape(K(3))) && Aligned(FULL_AND_SHORT)
    ensures K(3) in Content(FULL_AND_SHORT, TwoShape(K(3)))
    ensures SafeKey(3, FULL_AND_SHORT, 1, TwoShape(K(3)), K(3)) && MislaysKey(3, FULL_AND_SHORT, 1, TwoShape(K(3)), K(3))
  {
    var v := FULL_AND_SHORT;
    TwoLeavesOk(K(3), v[2], v[3]);
    LeafOfAligned(K(3), v[2], v[3]);
    KidIndexIs([2, 3], 3, 1);
    assert Owns(v, TwoShape(K(3)), 3, K(3));
    assert Safe(3, v, 1, TwoShape(K(3)), 3, 0, false);
    assert LosesRid(3, v, 1, 3, 0);
  }

  const BEFORE_STALE: Pages := TwoLeaves(K(2), LeafOf(1, [K(1)], 3), LeafOf(1, [K(2), K(3)], NO_NEXT))

  const STALE: Pages := TwoLeaves(K(2), LeafOf(1, [K(1)], 3), LeafOf(1, [K(3)], NO_NEXT))

  /**
   Deleting key 2 from a tree all of whose separators are stored keys leaves a separator that is none: a unique
   insertion of attribute 2 is then refused although the attribute is not stored.
   */
  lemma SeparatorStale()
    ensures WellFormed(3, BEFORE_STALE, 1, TwoShape(K(2))) && Anchored(BEFORE_STALE, Content(BEFORE_STALE, TwoShape(K(2))))
    ensures Shaped(BEFORE_STALE[3]) && BEFORE_STALE[3].keys[0] == K(2) && STALE == BEFORE_STALE[3 := Removed(BEFORE_STALE[3], 0)]
    ensures WellFormed(3, STALE, 1, TwoShape(K(2)))
    ensures HasSeparator(STALE, 2) && !HasAttr(Content(STALE, TwoShape(K(2))), 2)
  {
    hide WellFormed, Content;
    var v, w := BEFORE_STALE, STALE;
    TwoLeavesOk(K(2), v[2], v[3]);
    TwoLeavesOk(K(2), w[2], w[3]);
    AnchoredTwo(K(2), v[2], v[3]);
    StaleRemoved();
    assert w[1].keys[0].attr == 2;
    assert Content(w, TwoShape(K(2))) == [K(1), K(3)];
  }

  lemma AnchoredTwo(sep: Key, l: Node, r: Node)
    requires l.Leaf? && r.Leaf? && sep in r.keys
    ensures Anchored(TwoLeaves(sep, l, r), l.keys + r.keys)
  {
  }

  lemma StaleRemoved()
    ensures STALE == BEFORE_STALE[3 := Removed(BEFORE_STALE[3], 0)]
  {
    assert STALE[3] == Removed(BEFORE_STALE[3], 0);
  }

  // ---------------------------------------------------------------- three levels

  const THREE_LEVELS: Pages := map[
    1 := Inner(NO_PARENT, [K(3)], [2, 3]),
    2 := Inner(1, [K(2)], [4, 5]),
    3 := Inner(1, [K(4), K(5)], [6, 7, 8]),
    4 := LeafOf(2, [K(1)], 5),
    5 := LeafOf(2, [K(2)], 6),
    6 := LeafOf(3, [K(3)], 7),
    7 := LeafOf(3, [K(4)], 8),
    8 := LeafOf(3, [K(5)], NO_NEXT)]

  const LEVELS := Shape(map[
    1 := Info(2, NegInf, PosInf),
    2 := Info(1, NegInf, At(K(3))),
    3 := Info(1, At(K(3)), PosInf),
    4 := Info(0, NegInf, At(K(2))),
    5 := Info(0, At(K(2)), At(K(3))),
    6 := Info(0, At(K(3)), At(K(4))),
    7 := Info(0, At(K(4)), At(K(5))),
    8 := Info(0, At(K(5)), PosInf)], [4, 5, 6, 7, 8])

  lemma OneKeyLeaf(parent: PageNum, k: Key, next: PageNum, info: Info)
    requires info.height == 0 && BoundLess(info.lo, info.hi) && AtOrBelow(info.lo, k) && Above(info.hi, k)
    ensures NodeOk(LeafOf(parent, [k], next), info)
  {
  }

  lemma LevelsInner()
    ensures forall p :: 1 <= p <= 3 ==> NodeOk(THREE_LEVELS[p], LEVELS.at[p]) && SizeOk(3, THREE_LEVELS[p], p == 1)
  {
    hide LeafOf;
    OneKeyStrict(K(3));
    OneKeyStrict(K(2));
    assert DistinctPages([2, 3]) && DistinctPages([4, 5]) && DistinctPages([6, 7, 8]);
  }

  lemma LevelsLeaves()
    ensures forall p :: 4 <= p <= 8 ==> NodeOk(THREE_LEVELS[p], LEVELS.at[p]) && SizeOk(3, THREE_LEVELS[p], p == 1)
  {
    hide NodeOk, Strict;
    OneKeyLeaf(2, K(1), 5, LEVELS.at[4]);
    OneKeyLeaf(2, K(2), 6, LEVELS.at[5]);
    OneKeyLeaf(3, K(3), 7, LEVELS.at[6]);
    OneKeyLeaf(3, K(4), 8, LEVELS.at[7]);
    OneKeyLeaf(3, K(5), NO_NEXT, LEVELS.at[8]);
  }

  lemma LevelsNodes()
    ensures Nodes(THREE_LEVELS, LEVELS.at) && Sized(3, THREE_LEVELS, 1, NO_PARENT)
  {
    hide NodeOk, SizeOk, LeafOf;
    LevelsInner();
    LevelsLeaves();
    forall p | p in THREE_LEVELS ensures 1 <= p <= 8 {
    }
  }

  lemma LevelsEdges()
    ensures Nodes(THREE_LEVELS, LEVELS.at) && Edges(THREE_LEVELS, LEVELS.at)
  {
    var v, at := THREE_LEVELS, LEVELS.at;
    LevelsNodes();
    hide Nodes, NodeOk;
    forall p, i | p in v && v[p].Inner? && 0 <= i < |v[p].kids| ensures EdgeOk(v, at, p, i) {
    }
  }

  lemma LevelsRooted()
    ensures Rooted(THREE_LEVELS, LEVELS.at, 1)
  {
    var v := THREE_LEVELS;
    forall p | p in v && p != 1 ensures Hangs(v, p) {
      assert v[1].kids[0] == 2 && v[1].kids[1] == 3 && v[2].kids[0] == 4 && v[2].kids[1] == 5;
      assert v[3].kids[0] == 6 && v[3].kids[1] == 7 && v[3].kids[2] == 8;
    }
  }

  lemma LevelsChain()
    ensures Chain(THREE_LEVELS, LEVELS)
  {
    var v, s := THREE_LEVELS, LEVELS.leaves;
    assert s[0] == 4 && s[1] == 5 && s[2] == 6 && s[3] == 7 && s[4] == 8;
  }

  /** Deleting key 1 empties its leaf, the leaf is merged, and page 2 borrows from its right sibling: a child is lost. */
  lemma ChildLost()
    ensures WellFormed(3, THREE_LEVELS, 1, LEVELS)
    ensures K(1) in Content(THREE_LEVELS, LEVELS) && !SafeKey(3, THREE_LEVELS, 1, LEVELS, K(1))
  {
    var v := THREE_LEVELS;
    LevelsNodes();
    LevelsEdges();
    LevelsRooted();
    LevelsChain();
    hide Nodes, Edges, Rooted, Chain, Sized;
    assert Content(v, LEVELS)[0] == K(1);
    assert Owns(v, LEVELS, 4, K(1));
    KidIndexIs([4, 5], 4, 0);
    KidIndexIs([2, 3], 2, 0);
    assert !Safe(3, v, 1, LEVELS, 2, 0, true);
    assert !Safe(3, v, 1, LEVELS, 4, 0, false);
    forall p | Owns(v, LEVELS, p, K(1)) && v[p].Leaf? ensures p == 4 {
    }
  }
}
