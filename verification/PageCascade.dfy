/** One level of a deletion: what the code does with a page that is short of keys, and what comes of it. */
module PageCascade {
  import opened IndexKeys
  import opened PageTree
  import opened PageSplit
  import opened PageMerge
  import opened PageSteps
  import opened IndexNodes
  import opened PageInsert
  import opened KeyLabels
  import opened PageDelete
  import opened PageBorrow
  import opened PageSearch

  /** From the tree `w` the pool came to `z`: a B+ tree of the same entries if `safe`, otherwise no tree at all. */
  ghost predicate Outcome(order: nat, z: Pages, root': PageNum, sh': Shape, w: Pages, sh: Shape, safe: bool) {
    if safe then WellFormed(order, z, root', sh') && Content(z, sh') == Content(w, sh) else forall r, s :: !Tree(z, r, s)
  }

  /** Page `p` is a leaf whose removal of entry `i` leaves it short, and its left sibling lends a key, without the record identifier. */
  ghost predicate LosesRid(order: nat, pool: Pages, root: PageNum, p: PageNum, i: nat) {
    && p != root && p in pool && pool[p].Leaf? && i < |pool[p].rids| && |pool[p].keys| <= order / 2
    && var q := pool[p].parent;
    && q in pool && pool[q].Inner?
    && var j := KidIndex(pool[q].kids, p);
    && 0 < j < |pool[q].kids|
    && var l := pool[q].kids[j - 1];
    && l in pool && |pool[l].keys| > order / 2
    && pool[l].keys[|pool[l].keys| - 1].rid != FirstAfter(pool[p].rids, i)
  }

  /** What the first slot holds once slot `i` is closed. */
  ghost function FirstAfter(rids: seq<Rid>, i: nat): Rid
    requires i < |rids|
  {
    if i == 0 && |rids| > 1 then rids[1] else rids[0]
  }

  /** The leaf that holds `k` can spare it, or what follows up the tree goes well. */
  ghost predicate SafeKey(order: nat, v: Pages, root: PageNum, sh: Shape, k: Key)
    requires Tree(v, root, sh)
  {
    exists p :: Owns(v, sh, p, k) && v[p].Leaf? && Safe(order, v, root, sh, p, |v[p].keys| - 1, false)
  }

  /** Deleting `k` makes its leaf borrow from the left a key whose record identifier is not the one left in the first slot. */
  ghost predicate MislaysKey(order: nat, v: Pages, root: PageNum, sh: Shape, k: Key) {
    exists p, i :: Owns(v, sh, p, k) && v[p].Leaf? && 0 <= i < |v[p].keys| && v[p].keys[i] == k && LosesRid(order, v, root, p, i)
  }

  /** How the deletion of entry `i` of page `p` ends: also, record identifiers stay with their keys unless one is left behind. */
  ghost predicate Ended(order: nat, z: Pages, root': PageNum, sh': Shape, pool: Pages, w: Pages, root: PageNum, sh: Shape, p: PageNum, i: nat, safe: bool) {
    && Outcome(order, z, root', sh', w, sh, safe)
    && (safe && Aligned(w) ==> (Aligned(z) <==> !LosesRid(order, pool, root, p, i)))
  }

  ghost predicate Short(order: nat, pool: Pages, w: Pages, root: PageNum, sh: Shape, p: PageNum, i: nat) {
    Deleting(order, pool, w, root, sh, p, i) && p != root && |w[p].keys| < MinKeys(order, w[p])
  }

  /** What removing key `i` left in the slots of page `p` that are not in use, or were not. */
  ghost predicate Residue(order: nat, slots: seq<Rid>, n: Node, i: nat) {
    && Shaped(n) && i < |n.keys| < order == |slots|
    && (n.Leaf? ==> slots[0] == FirstAfter(n.rids, i))
    && (n.Inner? ==> slots[|n.keys|].page == n.kids[|n.keys|])
  }

  /** The sibling the code turns to. */
  ghost function SiblingAt(j: nat): nat {
    if j == 0 then 1 else j - 1
  }

  /** Page `p` is child `j` of `q`; it and the sibling the code turns to are one key under, and at least at, the minimum. */
  ghost predicate Placed(order: nat, pool: Pages, w: Pages, p: PageNum, q: PageNum, j: nat) {
    && p in w && p in pool && q in w && q in pool && q == w[p].parent == pool[p].parent && q != p && q != NO_PARENT
    && w[q].Inner? && |w[q].kids| == |w[q].keys| + 1 && |w[q].keys| > 0
    && j == KidIndex(w[q].kids, p) && j < |w[q].kids| && w[q].kids[j] == p
    && Pair(w, q, PairOf(j)) && pool[q] == w[q]
    && var s := w[q].kids[SiblingAt(j)];
    && s in w && s in pool && pool[s] == w[s] && s != p && s != q && w[s].parent == q
    && w[s].Leaf? == w[p].Leaf? == pool[p].Leaf?
    && MinKeys(order, w[p]) <= |w[s].keys| < order && |w[p].keys| == MinKeys(order, w[p]) - 1
  }

  lemma ShortBasics(order: nat, pool: Pages, w: Pages, root: PageNum, sh: Shape, p: PageNum, i: nat) returns (q: PageNum, j: nat)
    requires Short(order, pool, w, root, sh, p, i)
    ensures Placed(order, pool, w, p, q, j) && CanMerge(w, root, sh, q, PairOf(j))
  {
    hide Tree, Sized, KidIndex, Higher, Pair, Shaped, Removed, Strict;
    RemovedOne(pool[p], i);
    ParentHigher(w, root, sh, p);
    q := w[p].parent;
    j := KidIndex(w[q].kids, p);
    SizedAt(order, w, root, p, q);
    SiblingLevel(w, root, sh, q, j, SiblingAt(j));
    var s := w[q].kids[SiblingAt(j)];
    SizedAt(order, w, root, p, s);
    RootNoKid(w, root, sh, q, SiblingAt(j));
    PairBasics(w, root, sh, q, PairOf(j));
    SameMin(order, pool[p], w[p], w[s]);
  }

  lemma SameMin(order: nat, a: Node, b: Node, c: Node)
    requires a.Leaf? == b.Leaf? == c.Leaf?
    ensures MinKeys(order, a) == MinKeys(order, b) == MinKeys(order, c)
  {
  }

  lemma RemovedOne(n: Node, i: nat)
    requires Shaped(n) && i < |n.keys|
    ensures var r := Removed(n, i); |r.keys| == |n.keys| - 1 && r.Leaf? == n.Leaf? && r.parent == n.parent
  {
  }

  lemma SizedAt(order: nat, w: Pages, root: PageNum, except: PageNum, x: PageNum)
    requires Sized(order, w, root, except) && x in w && x != except
    ensures SizeOk(order, w[x], x == root)
  {
  }

  lemma RootNoKid(w: Pages, root: PageNum, sh: Shape, q: PageNum, j: nat)
    requires Tree(w, root, sh) && q in w && w[q].Inner? && j < |w[q].kids|
    ensures w[q].kids[j] != root
  {
    RootIsNoKid(w, root, sh, q);
    assert w[q].kids[j] in KidsOf(w[q]);
  }

  /** Page `p`, child `j` of `q`, is short of a key and its sibling has one to spare. */
  ghost predicate CanBorrow(order: nat, pool: Pages, w: Pages, root: PageNum, sh: Shape, p: PageNum, i: nat, q: PageNum, j: nat) {
    && Short(order, pool, w, root, sh, p, i) && Placed(order, pool, w, p, q, j) && CanMerge(w, root, sh, q, PairOf(j))
    && |w[w[q].kids[SiblingAt(j)]].keys| > MinKeys(order, w[p])
  }

  /** The two pages that share their keys, as the code finds them. */
  lemma ShortPair(order: nat, pool: Pages, w: Pages, root: PageNum, sh: Shape, p: PageNum, i: nat, q: PageNum, j: nat)
    requires CanBorrow(order, pool, w, root, sh, p, i, q, j)
    ensures Pair(w, q, PairOf(j)) && p in pool && j < |w[q].kids| && p == w[q].kids[j]
    ensures var d := PairOf(j); var l, r := w[q].kids[d], w[q].kids[d + 1];
            && l != r && q != l && q != r && w[l].parent == q && KidIndex(w[q].kids, l) == d < |w[q].keys|
            && |pool[p].keys| == |w[p].keys| + 1 && pool[p].Leaf? == w[p].Leaf? && order >= 3
            && (if j == 0 then p == l && |w[l].keys| < MinKeys(order, w[l]) && |w[r].keys| > 1
                else p == r && |w[l].keys| > MinKeys(order, w[l]) && |w[r].keys| < MinKeys(order, w[l]) <= order - 1)
  {
    var d := PairOf(j);
    PairBasics(w, root, sh, q, d);
    assert NodeOk(w[q], sh.at[q]);
    KidIndexIs(w[q].kids, w[q].kids[d], d);
  }

  /** `Safe` decided at a page that is short. */
  lemma SafeNow(order: nat, pool: Pages, w: Pages, root: PageNum, sh: Shape, p: PageNum, i: nat, last: bool, q: PageNum, j: nat)
    requires Short(order, pool, w, root, sh, p, i) && Placed(order, pool, w, p, q, j)
    ensures Safe(order, w, root, sh, p, |w[p].keys|, last)
            == if |w[w[q].kids[SiblingAt(j)]].keys| > MinKeys(order, w[p]) then w[p].Leaf? || (j > 0 && !last)
               else Safe(order, w, root, sh, q, |w[q].keys| - 1, PairOf(j) + 1 == |w[q].keys|)
  {
    hide Tree, Deleting, Pair, Sized;
  }

  // ---------------------------------------------------------------- borrowing among leaves

  lemma BorrowOutcome(order: nat, w: Pages, root: PageNum, sh: Shape, p: PageNum, q: PageNum, d: nat, m: nat) returns (sh': Shape)
    requires order >= 3 && CanMerge(w, root, sh, q, d) && Pair(w, q, d) && Sized(order, w, root, p)
    requires p == w[q].kids[d] || p == w[q].kids[d + 1]
    requires var l, r := w[q].kids[d], w[q].kids[d + 1];
             && CutOk(MergeNode(w[l], w[r], w[q].keys[d]), m)
             && MinKeys(order, w[l]) <= m < order && MinKeys(order, w[l]) <= |w[l].keys| + |w[r].keys| - m < order
    ensures Outcome(order, BorrowPages(w, q, d, m), root, sh', w, sh, true)
  {
    var l, r := w[q].kids[d], w[q].kids[d + 1];
    var n := MergeNode(w[l], w[r], w[q].keys[d]);
    assert |n.keys| == |w[l].keys| + |w[r].keys| + (if n.Leaf? then 0 else 1) && MinKeys(order, n) == MinKeys(order, w[l]);
    hide Tree, BorrowPages, MergeNode, CutOk, Content, Sized, MinKeys;
    sh' := BorrowTree(w, root, sh, q, d, m);
    BorrowSized(order, w, root, sh, q, d, m);
  }

  lemma LeafRightOutcome(order: nat, pool: Pages, w: Pages, root: PageNum, sh: Shape, p: PageNum, i: nat, q: PageNum) returns (sh': Shape)
    requires CanBorrow(order, pool, w, root, sh, p, i, q, 0) && w[p].Leaf?
    ensures |w[w[q].kids[1]].keys| > 1 && Ended(order, LeafTakesRight(w, q, 0), root, sh', pool, w, root, sh, p, i, true)
  {
    hide Tree, Aligned, Sized;
    LeafTakesRightOk(w, root, sh, q, 0);
    hide LeafTakesRight, BorrowPages, CutOk, MergeNode, CanMerge;
    sh' := BorrowOutcome(order, w, root, sh, p, q, 0, |w[p].keys| + 1);
    hide Outcome, Deleting;
    if Aligned(w) {
      LeafTakesRightAligned(w, q, 0);
    }
  }

  lemma LeafTakesRightAligned(w: Pages, q: PageNum, d: nat)
    requires Pair(w, q, d) && w[w[q].kids[d]].Leaf? && |w[w[q].kids[d + 1]].keys| > 1 && Aligned(w)
    ensures Aligned(LeafTakesRight(w, q, d))
  {
    var z, l, r := LeafTakesRight(w, q, d), w[q].kids[d], w[q].kids[d + 1];
    forall x, a | x in z && z[x].Leaf? && 0 <= a < |z[x].keys| && a < |z[x].rids| ensures z[x].rids[a] == z[x].keys[a].rid {
      if x == r {
        assert w[r].rids[a + 1] == w[r].keys[a + 1].rid;
      } else if x == l && a == |w[l].keys| {
        assert w[r].rids[0] == w[r].keys[0].rid;
      }
    }
  }

  lemma LeafTakesLeftAligned(w: Pages, q: PageNum, d: nat, first: Rid)
    requires Pair(w, q, d) && w[w[q].kids[d]].Leaf? && |w[w[q].kids[d]].keys| > 0 && Aligned(w)
    requires w[q].kids[d] != w[q].kids[d + 1] && q != w[q].kids[d] && q != w[q].kids[d + 1]
    ensures Aligned(LeafTakesLeft(w, q, d, first)) <==> first == w[w[q].kids[d]].keys[|w[w[q].kids[d]].keys| - 1].rid
  {
    var z, l, r := LeafTakesLeft(w, q, d, first), w[q].kids[d], w[q].kids[d + 1];
    assert z[r].rids[0] == first && z[r].keys[0] == w[l].keys[|w[l].keys| - 1];
    if first == z[r].keys[0].rid {
      forall x, a | x in z && z[x].Leaf? && 0 <= a < |z[x].keys| && a < |z[x].rids| ensures z[x].rids[a] == z[x].keys[a].rid {
        if x == r && a > 0 {
          assert w[r].rids[a - 1] == w[r].keys[a - 1].rid;
        }
      }
    }
  }

  lemma LeafLeftOutcome(order: nat, pool: Pages, w: Pages, root: PageNum, sh: Shape, p: PageNum, i: nat, q: PageNum, j: nat, first: Rid)
    returns (sh': Shape)
    requires CanBorrow(order, pool, w, root, sh, p, i, q, j) && j > 0 && w[p].Leaf?
    requires i < |pool[p].rids| && first == FirstAfter(pool[p].rids, i)
    ensures Ended(order, LeafTakesLeft(w, q, j - 1, first), root, sh', pool, w, root, sh, p, i, true)
  {
    hide Tree, Aligned, Sized, LosesRid, Strict, Removed, SizeOk, KidIndex;
    LeafLeftAligned(order, pool, w, root, sh, p, i, q, j, first);
    var d := j - 1;
    var l := w[q].kids[d];
    LeafTakesLeftOk(w, root, sh, q, d, first);
    assert |w[p].rids| == |w[p].keys|;
    hide LeafTakesLeft, CutOk, MergeNode, CanMerge;
    var b := BorrowPages(w, q, d, |w[l].keys| - 1);
    assert |b[p].keys| == |w[p].keys| + 1 by {
      assert LeafTakesLeft(w, q, d, first)[p].keys == b[p].keys;
      LeafTakesLeftKeys(w, q, d, first);
    }
    hide BorrowPages;
    sh' := BorrowOutcome(order, w, root, sh, p, q, d, |w[l].keys| - 1);
    hide Deleting, Outcome;
    OtherRids(order, b, root, sh', p, [first] + w[p].rids, w, sh);
  }

  lemma LeafTakesLeftKeys(w: Pages, q: PageNum, d: nat, first: Rid)
    requires Pair(w, q, d) && w[w[q].kids[d]].Leaf? && |w[w[q].kids[d]].keys| > 0 && q != w[q].kids[d + 1]
    ensures |LeafTakesLeft(w, q, d, first)[w[q].kids[d + 1]].keys| == |w[w[q].kids[d + 1]].keys| + 1
  {
  }

  lemma LeafLeftAligned(order: nat, pool: Pages, w: Pages, root: PageNum, sh: Shape, p: PageNum, i: nat, q: PageNum, j: nat, first: Rid)
    requires Short(order, pool, w, root, sh, p, i) && Placed(order, pool, w, p, q, j) && j > 0
    requires w[p].Leaf? && |w[w[q].kids[j - 1]].keys| > MinKeys(order, w[p])
    requires i < |pool[p].rids| && first == FirstAfter(pool[p].rids, i)
    ensures Aligned(w) ==> (Aligned(LeafTakesLeft(w, q, j - 1, first)) <==> !LosesRid(order, pool, root, p, i))
  {
    hide Tree, Sized, Aligned, KidIndex, Strict, Removed, SizeOk, LeafTakesLeft;
    RemovedOne(pool[p], i);
    if Aligned(w) {
      LeafTakesLeftAligned(w, q, j - 1, first);
    }
  }

  /** A leaf may hold any record identifiers as far as the tree is concerned. */
  lemma OtherRids(order: nat, b: Pages, root: PageNum, sh': Shape, p: PageNum, rids: seq<Rid>, w: Pages, sh: Shape)
    requires Outcome(order, b, root, sh', w, sh, true) && p in b && b[p].Leaf? && |rids| == |b[p].keys|
    ensures Outcome(order, SetLeaf(b, p, b[p].keys, rids), root, sh', w, sh, true)
  {
    hide Rooted, Flatten, BoundLess;
    var z := SetLeaf(b, p, b[p].keys, rids);
    assert NodeOk(b[p], sh'.at[p]);
    SetLeafTree(b, root, sh', p, b[p].keys, rids);
    forall x | x in z && x != NO_PARENT ensures SizeOk(order, z[x], x == root) {
      assert SizeOk(order, b[x], x == root);
    }
    hide Nodes, Edges, Rooted, Sized;
    forall a | 0 <= a < |sh'.leaves| ensures sh'.leaves[a] in b && sh'.leaves[a] in z && b[sh'.leaves[a]].keys == z[sh'.leaves[a]].keys {
      var x := sh'.leaves[a];
      assert x in b;
    }
    FlattenSame(b, z, sh'.leaves);
  }

  // ---------------------------------------------------------------- borrowing among inner pages

  lemma InnerRightOutcome(order: nat, pool: Pages, w: Pages, root: PageNum, sh: Shape, p: PageNum, i: nat, q: PageNum, sh': Shape)
    requires CanBorrow(order, pool, w, root, sh, p, i, q, 0) && w[p].Inner?
    ensures w[w[q].kids[1]].kids[0] in w
    ensures Ended(order, InnerTakesRight(w, q, 0), root, sh', pool, w, root, sh, p, i, false)
  {
    hide Tree, Sized, InnerTakesRight;
    InnerTakesRightBreaks(w, root, sh, q, 0);
  }

  lemma InnerLeftOutcome(order: nat, pool: Pages, w: Pages, root: PageNum, sh: Shape, p: PageNum, i: nat, q: PageNum, j: nat) returns (sh': Shape)
    requires CanBorrow(order, pool, w, root, sh, p, i, q, j) && j > 0 && w[p].Inner?
    ensures pool[p].Inner? && |pool[p].kids| > 0
    ensures var d := j - 1; var l := w[q].kids[d]; var spare := pool[p].kids[|pool[p].kids| - 1];
            && |w[l].keys| > 0 && w[l].kids[|w[l].keys|] in w
            && Ended(order, InnerTakesLeft(w, q, d, spare), root, sh', pool, w, root, sh, p, i, i + 1 != |pool[p].keys|)
  {
    assert !LosesRid(order, pool, root, p, i);
    hide LosesRid;
    ShortSized(order, pool, w, root, sh, p, i);
    assert pool[p].Inner? && |pool[p].kids| > 0;
    var l, spare := w[q].kids[j - 1], pool[p].kids[|pool[p].kids| - 1];
    if i + 1 == |pool[p].keys| {
      assert spare !in w;
      sh' := sh;
      hide Tree, Sized, Outcome, Aligned, Deleting, InnerTakesLeft;
      InnerLeftBreaks(order, w, root, sh, q, j - 1, spare, sh');
    } else {
      assert spare == w[p].kids[|w[p].keys|];
      hide Tree, Sized, Outcome, Aligned, Deleting, InnerTakesLeft;
      sh' := InnerLeftFine(order, w, root, sh, p, q, j);
    }
  }

  lemma InnerLeftFine(order: nat, w: Pages, root: PageNum, sh: Shape, p: PageNum, q: PageNum, j: nat) returns (sh': Shape)
    requires order >= 3 && Sized(order, w, root, p) && 0 < j && CanMerge(w, root, sh, q, j - 1) && Pair(w, q, j - 1) && p == w[q].kids[j]
    requires w[p].Inner? && MinKeys(order, w[p]) < |w[w[q].kids[j - 1]].keys| < order && |w[p].keys| == MinKeys(order, w[p]) - 1
    ensures var d := j - 1; var l := w[q].kids[d]; var spare := w[p].kids[|w[p].keys|];
            && |w[l].keys| > 0 && w[l].kids[|w[l].keys|] in w
            && Outcome(order, InnerTakesLeft(w, q, d, spare), root, sh', w, sh, true)
            && (Aligned(w) ==> Aligned(InnerTakesLeft(w, q, d, spare)))
  {
    hide Tree, Sized, Outcome, Aligned;
    InnerTakesLeftOk(w, root, sh, q, j - 1);
    InnerTakesLeftAligned(w, q, j - 1, w[p].kids[|w[p].keys|]);
    hide InnerTakesLeft, BorrowPages, CutOk, MergeNode, CanMerge;
    sh' := BorrowOutcome(order, w, root, sh, p, q, j - 1, |w[w[q].kids[j - 1]].keys| - 1);
  }

  lemma ShortSized(order: nat, pool: Pages, w: Pages, root: PageNum, sh: Shape, p: PageNum, i: nat)
    requires Short(order, pool, w, root, sh, p, i)
    ensures order >= 3 && Sized(order, w, root, p)
  {
  }

  lemma InnerLeftBreaks(order: nat, w: Pages, root: PageNum, sh: Shape, q: PageNum, d: nat, spare: PageNum, sh': Shape)
    requires CanMerge(w, root, sh, q, d) && Pair(w, q, d) && w[w[q].kids[d]].Inner? && |w[w[q].kids[d]].keys| > 0 && spare !in w
    ensures w[w[q].kids[d]].kids[|w[w[q].kids[d]].keys|] in w
    ensures Outcome(order, InnerTakesLeft(w, q, d, spare), root, sh', w, sh, false)
  {
    hide CanMerge, InnerTakesLeft;
    InnerTakesLeftBreaks(w, root, sh, q, d, spare);
  }

  lemma InnerTakesLeftAligned(w: Pages, q: PageNum, d: nat, spare: PageNum)
    requires Pair(w, q, d) && w[w[q].kids[d]].Inner? && |w[w[q].kids[d]].keys| > 0 && w[w[q].kids[d]].kids[|w[w[q].kids[d]].keys|] in w
    ensures Aligned(w) ==> Aligned(InnerTakesLeft(w, q, d, spare))
  {
  }

  // ---------------------------------------------------------------- merging

  /** The two pages became one; the parent still lists both. */
  ghost function Merged(v: Pages, q: PageNum, d: nat): Pages
    requires HasPair(v, q, d)
  {
    var l, r := v[q].kids[d], v[q].kids[d + 1];
    (Reparent(v, KidsOf(v[r]), l) - {r})[l := MergeNode(v[l], v[r], v[q].keys[d])]
  }

  lemma MergedFrom(v: Pages, q: PageNum, d: nat)
    requires Pair(v, q, d)
    requires var l, r := v[q].kids[d], v[q].kids[d + 1]; l != r && l !in KidsOf(v[r]) && q != l && q != r
    ensures var l, r := v[q].kids[d], v[q].kids[d + 1]; var n := MergeNode(v[l], v[r], v[q].keys[d]);
            && n.Leaf? == v[l].Leaf?
            && (v[l].Leaf? ==> v[l := n] - {r} == Merged(v, q, d))
            && (v[l].Inner? ==> n.Inner? && |v[l].kids| <= |n.kids| == |n.keys| + 1 && Reparent(v[l := n], n.kids[|v[l].kids|..], l) - {r} == Merged(v, q, d))
  {
    var l, r := v[q].kids[d], v[q].kids[d + 1];
    var n := MergeNode(v[l], v[r], v[q].keys[d]);
    if v[l].Inner? {
      assert n.kids[|v[l].kids|..] == v[r].kids;
    } else {
      assert Reparent(v, [], l) == v;
    }
  }

  /** The pages of a merge, as the code finds them. */
  lemma MergePair(order: nat, pool: Pages, w: Pages, root: PageNum, sh: Shape, p: PageNum, i: nat, q: PageNum, j: nat)
    requires CanJoin(order, pool, w, root, sh, p, i, q, j)
    ensures Tree(w, root, sh) && p in w
    ensures Pair(w, q, PairOf(j)) && p in pool && j < |w[q].kids| && p == w[q].kids[j]
    ensures var d := PairOf(j); var l, r := w[q].kids[d], w[q].kids[d + 1]; var n := MergeNode(w[l], w[r], w[q].keys[d]);
            && l != r && q != l && q != r && w[l].parent == q && KidIndex(w[q].kids, l) == d < |w[q].keys|
            && |w[l].keys| + |w[r].keys| + (if w[l].Leaf? then 0 else 1) < order
            && l !in KidsOf(w[r])
            && (w[l].Inner? ==> forall c :: c in n.kids ==> c in w && c != l && c != r)
  {
    var d := PairOf(j);
    PairBasics(w, root, sh, q, d);
    assert NodeOk(w[q], sh.at[q]);
    KidIndexIs(w[q].kids, w[q].kids[d], d);
    hide Tree, NodeOk;
    MergeNodeSize(order, w, p, q, j);
  }

  /** Page `p`, child `j` of `q`, is short of a key and its sibling has none to spare. */
  ghost predicate CanJoin(order: nat, pool: Pages, w: Pages, root: PageNum, sh: Shape, p: PageNum, i: nat, q: PageNum, j: nat) {
    && Short(order, pool, w, root, sh, p, i) && Placed(order, pool, w, p, q, j) && CanMerge(w, root, sh, q, PairOf(j))
    && |w[w[q].kids[SiblingAt(j)]].keys| <= MinKeys(order, w[p])
  }

  /** After a merge the parent is the page that has to lose a key. */
  lemma MergeStep(order: nat, pool: Pages, w: Pages, root: PageNum, sh: Shape, p: PageNum, i: nat, q: PageNum, j: nat) returns (sh': Shape)
    requires CanJoin(order, pool, w, root, sh, p, i, q, j)
    ensures Pair(w, q, PairOf(j))
    ensures var d := PairOf(j);
            && q in Merged(w, q, d) && Merged(w, q, d)[q] == w[q]
            && var w' := MergePages(w, q, d);
            && Deleting(order, Merged(w, q, d), w', root, sh', q, d)
            && Content(w', sh') == Content(w, sh)
            && (Aligned(w) ==> Aligned(w'))
            && |w'[q].keys| == |w[q].keys| - 1
            && p in w && p in pool
            && Safe(order, w', root, sh', q, |w'[q].keys|, d + 1 == |w[q].keys|) == Safe(order, w, root, sh, p, |w[p].keys|, i + 1 == |pool[p].keys|)
            && p in sh.at && q in sh'.at && Higher(sh', q) < Higher(sh, p)
  {
    hide Tree, Sized, Deleting, Content, Aligned, MergePages, Merged, MergeShape, SizeOk, MergeNode, Safe, Higher, KidIndex, HangsAt;
    var d := PairOf(j);
    SafeNow(order, pool, w, root, sh, p, i, i + 1 == |pool[p].keys|, q, j);
    ShortSized(order, pool, w, root, sh, p, i);
    ParentHigher(w, root, sh, p);
    SizedAt(order, w, root, p, q);
    MergeNodeSize(order, w, p, q, j);
    MergeTree(w, root, sh, q, d);
    MergeContent(w, root, sh, q, d);
    sh' := MergeShape(w, sh, q, d);
    MergeHigher(w, root, sh, q, d, p);
    MergeSafe(order, w, root, sh, q, d);
    MergeAligned(w, q, d);
    MergeSized(order, w, root, sh, q, d);
    MergedDeleting(order, w, root, sh, q, d, sh');
    MergeParentSize(w, root, sh, q, d);
  }

  lemma MergeParentSize(w: Pages, root: PageNum, sh: Shape, q: PageNum, d: nat)
    requires CanMerge(w, root, sh, q, d) && HasPair(w, q, d)
    ensures q in MergePages(w, q, d) && |MergePages(w, q, d)[q].keys| == |w[q].keys| - 1
  {
    hide Tree;
  }

  lemma MergeSafe(order: nat, w: Pages, root: PageNum, sh: Shape, q: PageNum, d: nat)
    requires CanMerge(w, root, sh, q, d) && HasPair(w, q, d)
    ensures w[q].kids[d] in sh.at && w[q].kids[d + 1] in sh.at
    ensures var w', sh' := MergePages(w, q, d), MergeShape(w, sh, q, d);
            && Tree(w', root, sh') && q in w'
            && Safe(order, w', root, sh', q, |w[q].keys| - 1, d + 1 == |w[q].keys|) == Safe(order, w, root, sh, q, |w[q].keys| - 1, d + 1 == |w[q].keys|)
  {
    hide Tree, MergePages, MergeShape, Safe;
    MergeTree(w, root, sh, q, d);
    MergeSameAbove(w, root, sh, q, d);
    SafeSame(order, w, sh, MergePages(w, q, d), MergeShape(w, sh, q, d), root, q, |w[q].keys| - 1, d + 1 == |w[q].keys|);
  }

  lemma MergeNodeSize(order: nat, w: Pages, p: PageNum, q: PageNum, j: nat)
    requires order >= 3 && Pair(w, q, PairOf(j)) && j < |w[q].kids| && w[q].kids[j] == p && w[w[q].kids[SiblingAt(j)]].Leaf? == w[p].Leaf?
    requires |w[w[q].kids[SiblingAt(j)]].keys| == MinKeys(order, w[p]) == |w[p].keys| + 1
    ensures var d := PairOf(j); var n := MergeNode(w[w[q].kids[d]], w[w[q].kids[d + 1]], w[q].keys[d]);
            MinKeys(order, n) <= |n.keys| < order
  {
  }

  lemma MergeHigher(w: Pages, root: PageNum, sh: Shape, q: PageNum, d: nat, p: PageNum)
    requires CanMerge(w, root, sh, q, d) && HasPair(w, q, d) && p in sh.at && q in sh.at && Higher(sh, q) < Higher(sh, p)
    ensures w[q].kids[d] in sh.at && w[q].kids[d + 1] in sh.at
    ensures var sh' := MergeShape(w, sh, q, d); q in sh'.at && Higher(sh', q) < Higher(sh, p)
  {
    MergeBasics(w, root, sh, q, d);
    hide Tree, NodeOk;
    var sh' := MergeShape(w, sh, q, d);
    assert forall x :: x in Higher(sh', q) ==> x in Higher(sh, q);
  }

  lemma MergedDeleting(order: nat, w: Pages, root: PageNum, sh: Shape, q: PageNum, d: nat, sh': Shape)
    requires order >= 3 && CanMerge(w, root, sh, q, d) && HasPair(w, q, d) && SizeOk(order, w[q], q == root)
    requires Tree(MergePages(w, q, d), root, sh') && Sized(order, MergePages(w, q, d), root, q)
    ensures q in Merged(w, q, d) && Merged(w, q, d)[q] == w[q]
    ensures Deleting(order, Merged(w, q, d), MergePages(w, q, d), root, sh', q, d)
  {
    MergeBasics(w, root, sh, q, d);
    KidsLower(w, sh.at, w[q].kids[d + 1]);
    hide Tree, Sized, NodeOk, EdgeOk, SizeOk;
    MergedParent(w, q, d);
  }

  lemma MergedParent(w: Pages, q: PageNum, d: nat)
    requires HasPair(w, q, d) && q !in KidsOf(w[w[q].kids[d + 1]]) && q != w[q].kids[d] && q != w[q].kids[d + 1]
    ensures q in Merged(w, q, d) && Merged(w, q, d)[q] == w[q] && q in MergePages(w, q, d)
    ensures Merged(w, q, d) == MergePages(w, q, d)[q := w[q]] && MergePages(w, q, d)[q] == Detach(w[q], d)
  {
  }

  lemma MergeAligned(w: Pages, q: PageNum, d: nat)
    requires Pair(w, q, d)
    ensures Aligned(w) ==> Aligned(MergePages(w, q, d))
  {
    if Aligned(w) {
      var z, l, r := MergePages(w, q, d), w[q].kids[d], w[q].kids[d + 1];
      forall x, a | x in z && z[x].Leaf? && 0 <= a < |z[x].keys| && a < |z[x].rids| ensures z[x].rids[a] == z[x].keys[a].rid {
        if x == l && a >= |w[l].keys| {
          assert w[r].rids[a - |w[l].keys|] == w[r].keys[a - |w[l].keys|].rid;
        }
      }
    }
  }

  /** What comes of the merge is what comes of the deletion in the parent. */
  lemma MergeEnds(order: nat, pool: Pages, w: Pages, root: PageNum, sh: Shape, p: PageNum, i: nat, q: PageNum, j: nat,
                  pool1: Pages, w1: Pages, sh1: Shape, d: nat, z: Pages, root': PageNum, sh': Shape, safe: bool)
    requires CanJoin(order, pool, w, root, sh, p, i, q, j)
    requires q in pool1 && pool1[q].Inner? && Content(w1, sh1) == Content(w, sh) && (Aligned(w) ==> Aligned(w1))
    requires Ended(order, z, root', sh', pool1, w1, root, sh1, q, d, safe)
    ensures Ended(order, z, root', sh', pool, w, root, sh, p, i, safe)
  {
    hide Short, CanMerge, WellFormed, Tree, Content, Aligned, Pair, KidIndex;
  }

  // ---------------------------------------------------------------- the ends of a cascade

  /** The removed slot is the intended one. */
  lemma DeletedSlot(order: nat, pool: Pages, w: Pages, root: PageNum, sh: Shape, p: PageNum, i: nat, at: nat)
    requires Deleting(order, pool, w, root, sh, p, i) && at < |pool[p].keys| && pool[p].keys[at] == pool[p].keys[i]
    ensures at == i && p in w && pool[p := w[p]] == w && w[p] == Removed(pool[p], i) && order >= 3 && |w[p].keys| == |pool[p].keys| - 1
  {
    hide Tree, Sized, SizeOk;
  }

  /** All a page needs to know to decide what becomes of it. */
  lemma CascadeCases(order: nat, pool: Pages, w: Pages, root: PageNum, sh: Shape, p: PageNum, i: nat) returns (q: PageNum, j: nat)
    requires Deleting(order, pool, w, root, sh, p, i)
    ensures p in w && p in pool && (w[p].parent == NO_PARENT <==> p == root)
    ensures p == root || |w[p].keys| >= MinKeys(order, w[p]) ==> Safe(order, w, root, sh, p, |w[p].keys|, i + 1 == |pool[p].keys|)
    ensures p != root && |w[p].keys| < MinKeys(order, w[p]) ==>
              && Placed(order, pool, w, p, q, j)
              && if |w[w[q].kids[SiblingAt(j)]].keys| > MinKeys(order, w[p])
                 then CanBorrow(order, pool, w, root, sh, p, i, q, j)
                      && Safe(order, w, root, sh, p, |w[p].keys|, i + 1 == |pool[p].keys|) == (w[p].Leaf? || (j > 0 && i + 1 != |pool[p].keys|))
                 else CanJoin(order, pool, w, root, sh, p, i, q, j)
  {
    ParentTells(w, root, sh, p);
    if p != root && |w[p].keys| < MinKeys(order, w[p]) {
      hide Tree, Deleting, Sized, Placed, CanMerge, Safe, MinKeys;
      q, j := ShortBasics(order, pool, w, root, sh, p, i);
      SafeNow(order, pool, w, root, sh, p, i, i + 1 == |pool[p].keys|, q, j);
    } else {
      q, j := p, 0;
    }
  }

  lemma EnoughOutcome(order: nat, pool: Pages, w: Pages, root: PageNum, sh: Shape, p: PageNum, i: nat)
    requires Deleting(order, pool, w, root, sh, p, i)
    requires if p == root then w[p].Inner? ==> |w[p].keys| > 0 else |w[p].keys| >= MinKeys(order, w[p])
    ensures Ended(order, w, root, sh, pool, w, root, sh, p, i, true)
  {
    hide Tree, Content;
    forall x | x in w && x != NO_PARENT ensures SizeOk(order, w[x], x == root) {
    }
  }

  lemma RootOutcome(order: nat, pool: Pages, w: Pages, root: PageNum, sh: Shape, i: nat) returns (sh': Shape)
    requires Deleting(order, pool, w, root, sh, root, i) && w[root].Inner? && |w[root].keys| == 0
    ensures |w[root].kids| == 1 && w[root].kids[0] in w && w[root].kids[0] != root
    ensures Ended(order, ShrinkPages(w, root), w[root].kids[0], sh', pool, w, root, sh, root, i, true)
  {
    hide Tree, Content, Sized, ShrinkPages, ShrinkShape, SizeOk, Deleting, Aligned;
    DeletingTree(order, pool, w, root, sh, root, i);
    ShrinkTree(w, root, sh);
    sh' := ShrinkShape(sh, root);
    ShrinkKept(order, w, root, sh);
  }

  lemma DeletingTree(order: nat, pool: Pages, w: Pages, root: PageNum, sh: Shape, p: PageNum, i: nat)
    requires Deleting(order, pool, w, root, sh, p, i)
    ensures order >= 3 && Tree(w, root, sh) && Sized(order, w, root, p) && p in w
  {
  }

  lemma ShrinkKept(order: nat, w: Pages, root: PageNum, sh: Shape)
    requires order >= 3 && Tree(w, root, sh) && Sized(order, w, root, root) && root in w && w[root].Inner? && |w[root].kids| == 1 && w[root].kids[0] in w && w[root].kids[0] != root
    ensures Sized(order, ShrinkPages(w, root), w[root].kids[0], NO_PARENT)
    ensures Aligned(w) ==> Aligned(ShrinkPages(w, root))
  {
    hide Tree;
    var c, z := w[root].kids[0], ShrinkPages(w, root);
    forall x | x in z && x != NO_PARENT ensures SizeOk(order, z[x], x == c) {
      assert SizeOk(order, w[x], false);
      InnerHasKeys(order, w[x]);
    }
  }

  lemma InnerHasKeys(order: nat, n: Node)
    requires order >= 3 && SizeOk(order, n, false)
    ensures SizeOk(order, n, true)
  {
  }

  // ---------------------------------------------------------------- the start, in a leaf

  lemma LeafWithoutKey(v: Pages, root: PageNum, sh: Shape, p: PageNum, i: nat)
    requires Tree(v, root, sh) && p in v && v[p].Leaf? && i < |v[p].keys|
    ensures Shaped(v[p]) && Strict(v[p].keys)
    ensures var w := v[p := Removed(v[p], i)]; Tree(w, root, sh) && Inserted(Content(w, sh), v[p].keys[i], Content(v, sh))
  {
    hide Tree, Content, Inserted;
    LeafCut(v, root, sh, p, i);
    var n := Removed(v[p], i);
    SetLeafTree(v, root, sh, p, n.keys, n.rids);
    ContentInsertedBack(v, root, sh, v[p := n], p, v[p].keys[i]);
  }

  lemma LeafCut(v: Pages, root: PageNum, sh: Shape, p: PageNum, i: nat)
    requires Tree(v, root, sh) && p in v && v[p].Leaf? && i < |v[p].keys|
    ensures Shaped(v[p]) && Strict(v[p].keys) && p in sh.at
    ensures var n := Removed(v[p], i);
            && SetLeaf(v, p, n.keys, n.rids) == v[p := n] && |n.keys| == |n.rids| && Strict(n.keys)
            && (forall j :: 0 <= j < |n.keys| ==> AtOrBelow(sh.at[p].lo, n.keys[j]) && Above(sh.at[p].hi, n.keys[j]))
            && Inserted(n.keys, v[p].keys[i], v[p].keys)
  {
    hide Tree;
    LeafFacts(v, root, sh, p);
    NodeCut(v[p], sh.at[p], i);
  }

  lemma LeafFacts(v: Pages, root: PageNum, sh: Shape, p: PageNum)
    requires Tree(v, root, sh) && p in v
    ensures p in sh.at && NodeOk(v[p], sh.at[p])
  {
  }

  lemma CutAt(ks: seq<Key>, i: nat, j: nat)
    requires i < |ks| && j < |ks| - 1
    ensures |Cut(ks, i)| == |ks| - 1 && Cut(ks, i)[j] == ks[if j < i then j else j + 1]
  {
  }

  lemma CutStrict(ks: seq<Key>, i: nat)
    requires Strict(ks) && i < |ks|
    ensures Strict(Cut(ks, i))
  {
    hide Less;
    var r := Cut(ks, i);
    forall a, b | 0 <= a < b < |r| ensures Less(r[a], r[b]) {
      CutAt(ks, i, a);
      CutAt(ks, i, b);
    }
  }

  lemma CutInserted(ks: seq<Key>, i: nat)
    requires i < |ks|
    ensures Inserted(Cut(ks, i), ks[i], ks)
  {
    var r := Cut(ks, i);
    assert ks == r[..i] + [ks[i]] + r[i..];
  }

  lemma NodeCut(n: Node, info: Info, i: nat)
    requires NodeOk(n, info) && n.Leaf? && i < |n.keys|
    ensures var r := Removed(n, i);
            && Strict(r.keys) && Inserted(r.keys, n.keys[i], n.keys)
            && (forall j :: 0 <= j < |r.keys| ==> AtOrBelow(info.lo, r.keys[j]) && Above(info.hi, r.keys[j]))
  {
    hide Strict, Inserted, Cut, Less;
    var ks := n.keys;
    CutStrict(ks, i);
    CutInserted(ks, i);
    forall j | 0 <= j < |Cut(ks, i)| ensures AtOrBelow(info.lo, Cut(ks, i)[j]) && Above(info.hi, Cut(ks, i)[j]) {
      CutAt(ks, i, j);
    }
  }

  lemma LeafWithoutKeySized(order: nat, v: Pages, root: PageNum, p: PageNum, n: Node)
    requires Sized(order, v, root, NO_PARENT) && p in v && p != NO_PARENT && NO_PARENT !in v
    ensures Sized(order, v[p := n], root, p) && SizeOk(order, v[p], p == root)
  {
    var w := v[p := n];
    forall x | x in w && x != p ensures SizeOk(order, w[x], x == root) {
      assert SizeOk(order, v[x], x == root);
    }
  }

  lemma LeafWithoutKeyAligned(v: Pages, p: PageNum, i: nat)
    requires p in v && v[p].Leaf? && Shaped(v[p]) && i < |v[p].keys| && Aligned(v)
    ensures Aligned(v[p := Removed(v[p], i)])
  {
    var w := v[p := Removed(v[p], i)];
    forall x, a | x in w && w[x].Leaf? && 0 <= a < |w[x].keys| && a < |w[x].rids| ensures w[x].rids[a] == w[x].keys[a].rid {
      if x == p {
        var b := if a < i then a else a + 1;
        assert v[p].rids[b] == v[p].keys[b].rid;
      }
    }
  }

  /** The tree the deletion of entry `i` of leaf `p` is to end with, and whether it will, as seen from the pages before. */
  lemma DeletePlan(order: nat, v: Pages, root: PageNum, sh: Shape, p: PageNum, i: nat) returns (w: Pages)
    requires order >= 3 && WellFormed(order, v, root, sh) && p in v && v[p].Leaf? && i < |v[p].keys|
    ensures Deleting(order, v, w, root, sh, p, i) && p in w
    ensures Inserted(Content(w, sh), v[p].keys[i], Content(v, sh)) && (Aligned(v) ==> Aligned(w))
    ensures Safe(order, w, root, sh, p, |w[p].keys|, i + 1 == |v[p].keys|) == Safe(order, v, root, sh, p, |v[p].keys| - 1, false)
  {
    hide Tree, Sized, SizeOk, Safe, Inserted, Content, Aligned, SameAbove;
    LeafWithoutKey(v, root, sh, p, i);
    w := v[p := Removed(v[p], i)];
    if Aligned(v) {
      LeafWithoutKeyAligned(v, p, i);
    }
    NoParentPage(v, root, sh);
    LeafWithoutKeySized(order, v, root, p, w[p]);
    RemovedSameAbove(v, root, sh, p, w[p]);
    SafeSame(order, v, sh, w, sh, root, p, |w[p].keys|, i + 1 == |v[p].keys|);
    SafeLeaf(order, v, root, sh, p, |w[p].keys|, i + 1 == |v[p].keys|, false);
  }

  /** Only inner pages ask which child was lost. */
  lemma SafeLeaf(order: nat, v: Pages, root: PageNum, sh: Shape, p: PageNum, n: int, a: bool, b: bool)
    requires Tree(v, root, sh) && p in v && v[p].Leaf?
    ensures Safe(order, v, root, sh, p, n, a) == Safe(order, v, root, sh, p, n, b)
  {
  }
}
