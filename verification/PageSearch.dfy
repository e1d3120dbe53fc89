/** Searching from the root: each step keeps the searched key inside the interval of the page. */
module PageSearch {
  import opened IndexKeys
  import opened PageTree
  import opened PageSteps
  import opened IndexNodes
  import opened PageInsert
  import opened KeyLabels

  /** Page `p` is responsible for key `k`. */
  ghost predicate Owns(v: Pages, sh: Shape, p: PageNum, k: Key) {
    p in v && p in sh.at && AtOrBelow(sh.at[p].lo, k) && Above(sh.at[p].hi, k)
  }

  /** `rid` is what the slot beside key `k` holds. */
  ghost predicate Beside(v: Pages, k: Key, rid: Rid) {
    exists p, i :: p in v && v[p].Leaf? && 0 <= i < |v[p].keys| && i < |v[p].rids| && v[p].keys[i] == k && v[p].rids[i] == rid
  }

  /** Whether the leaf that would take `k` is full; a caller can find out by looking for the leaf. */
  ghost predicate HomeFullIn(order: nat, v: Pages, sh: Shape, k: Key) {
    exists p :: Owns(v, sh, p, k) && v[p].Leaf? && |v[p].keys| == order - 1
  }

  lemma RootOwns(v: Pages, root: PageNum, sh: Shape, k: Key)
    requires Tree(v, root, sh)
    ensures Owns(v, sh, root, k)
  {
  }

  lemma Descend(v: Pages, root: PageNum, sh: Shape, p: PageNum, k: Key, i: nat)
    requires Tree(v, root, sh) && Owns(v, sh, p, k) && v[p].Inner?
    requires i == Rank(v[p].keys, k)
    ensures |v[p].kids| == |v[p].keys| + 1 && Owns(v, sh, v[p].kids[i], k) && sh.at[v[p].kids[i]].height < sh.at[p].height
  {
    assert NodeOk(v[p], sh.at[p]);
    assert EdgeOk(v, sh.at, p, i);
  }

  /** The first leaf is reached through first children. */
  lemma DescendFirst(v: Pages, root: PageNum, sh: Shape, p: PageNum)
    requires Tree(v, root, sh) && p in v && v[p].Inner? && p in sh.at && sh.at[p].lo == NegInf
    ensures |v[p].kids| > 0 && v[p].kids[0] in v && v[p].kids[0] in sh.at
    ensures sh.at[v[p].kids[0]].lo == NegInf && sh.at[v[p].kids[0]].height < sh.at[p].height
  {
    assert NodeOk(v[p], sh.at[p]);
    assert EdgeOk(v, sh.at, p, 0);
  }

  lemma FirstLeaf(v: Pages, root: PageNum, sh: Shape, p: PageNum)
    requires Tree(v, root, sh) && p in v && v[p].Leaf? && p in sh.at && sh.at[p].lo == NegInf
    ensures p == sh.leaves[0]
  {
    var j :| 0 <= j < |sh.leaves| && sh.leaves[j] == p;
    if j > 0 {
      ChainAscends(v, sh, 0, j);
    }
  }

  // ---------------------------------------------------------------- attributes

  /** No key at either end of the interval has attribute `a`, and `a` lies between them. */
  ghost predicate AttrInside(info: Info, a: int) {
    && (info.lo.NegInf? || (info.lo.At? && info.lo.key.attr < a))
    && (info.hi.PosInf? || (info.hi.At? && a < info.hi.key.attr))
  }

  lemma RootInside(v: Pages, root: PageNum, sh: Shape, a: int)
    requires Tree(v, root, sh)
    ensures root in sh.at && AttrInside(sh.at[root], a)
  {
  }

  ghost predicate HasAttr(s: seq<Key>, a: int) {
    exists i :: 0 <= i < |s| && s[i].attr == a
  }

  /** Between two separators of other attributes. */
  lemma DescendUnique(v: Pages, root: PageNum, sh: Shape, p: PageNum, k: Key, i: nat)
    requires Tree(v, root, sh) && p in v && p in sh.at && v[p].Inner? && AttrInside(sh.at[p], k.attr)
    requires i <= |v[p].keys|
    requires forall j :: 0 <= j < i ==> v[p].keys[j].attr < k.attr
    requires i < |v[p].keys| ==> k.attr < v[p].keys[i].attr
    ensures |v[p].kids| == |v[p].keys| + 1
    ensures i == Rank(v[p].keys, k)
    ensures var c := v[p].kids[i]; c in v && c in sh.at && AttrInside(sh.at[c], k.attr) && sh.at[c].height < sh.at[p].height
  {
    assert NodeOk(v[p], sh.at[p]);
    assert EdgeOk(v, sh.at, p, i);
    RankIs(v[p].keys, k, i);
  }

  /** If the leaf reached between other attributes lacks the attribute, the whole index does. */
  lemma UniqueAbsent(v: Pages, root: PageNum, sh: Shape, p: PageNum, a: int)
    requires Tree(v, root, sh) && p in v && p in sh.at && v[p].Leaf? && AttrInside(sh.at[p], a)
    ensures HasAttr(Content(v, sh), a) <==> HasAttr(v[p].keys, a)
  {
    var c := Content(v, sh);
    if HasAttr(c, a) {
      var i :| 0 <= i < |c| && c[i].attr == a;
      assert c[i] in c;
      LeafDecides(v, root, sh, p, c[i]);
      var j :| 0 <= j < |v[p].keys| && v[p].keys[j] == c[i];
    }
    if HasAttr(v[p].keys, a) {
      var i :| 0 <= i < |v[p].keys| && v[p].keys[i].attr == a;
      assert v[p].keys[i] in v[p].keys;
      LeafDecides(v, root, sh, p, v[p].keys[i]);
    }
  }

  /** A separator that is a copy of a stored key speaks for a stored attribute. */
  lemma SeparatorAttr(s: seq<Key>, k: Key)
    requires k in s
    ensures HasAttr(s, k.attr)
  {
  }

  lemma AttrOf(s: seq<Key>, k: Key)
    requires !HasAttr(s, k.attr)
    ensures k !in s
  {
  }

  /** No attribute is stored twice. */
  ghost predicate DistinctAttrs(s: seq<Key>) {
    forall i, j :: 0 <= i < j < |s| ==> s[i].attr != s[j].attr
  }

  lemma UniqueKept(before: seq<Key>, k: Key, after: seq<Key>)
    requires DistinctAttrs(before) && !HasAttr(before, k.attr) && Inserted(before, k, after)
    ensures DistinctAttrs(after)
  {
    var i :| 0 <= i <= |before| && after == before[..i] + [k] + before[i..];
    forall a, b | 0 <= a < b < |after| ensures after[a].attr != after[b].attr {
      assert a != i ==> after[a] == before[if a < i then a else a - 1];
      assert b != i ==> after[b] == before[if b < i then b else b - 1];
    }
  }

  /** Some separator has attribute `a`. */
  ghost predicate HasSeparator(v: Pages, a: int) {
    exists q, i :: q in v && v[q].Inner? && 0 <= i < |v[q].keys| && v[q].keys[i].attr == a
  }

  /** While separators are copies of stored keys they cannot lead to a false rejection. */
  lemma AnchoredAttrs(v: Pages, s: seq<Key>, a: int)
    requires Anchored(v, s) && HasSeparator(v, a)
    ensures HasAttr(s, a)
  {
    var q, i :| q in v && v[q].Inner? && 0 <= i < |v[q].keys| && v[q].keys[i].attr == a;
    SeparatorAttr(s, v[q].keys[i]);
  }

  /** The single empty leaf an index starts with. */
  lemma EmptyTree(order: nat, p: PageNum)
    requires p > 0
    ensures var v, sh := map[p := Leaf(NO_PARENT, [], [], NO_NEXT)], Shape(map[p := Info(0, NegInf, PosInf)], [p]);
            (order > 0 ==> WellFormed(order, v, p, sh)) && Content(v, sh) == [] && Anchored(v, []) && Aligned(v)
  {
    var v, sh := map[p := Leaf(NO_PARENT, [], [], NO_NEXT)], Shape(map[p := Info(0, NegInf, PosInf)], [p]);
    assert Flatten(v, sh.leaves) == v[p].keys + Flatten(v, sh.leaves[1..]);
    assert NodeOk(v[p], sh.at[p]);
  }

  lemma LeafSorted(v: Pages, root: PageNum, sh: Shape, p: PageNum)
    requires Tree(v, root, sh) && p in v && v[p].Leaf?
    ensures Strict(v[p].keys) && |v[p].rids| == |v[p].keys|
  {
    assert NodeOk(v[p], sh.at[p]);
  }

  /** The responsible leaf is one page. */
  lemma HomeIs(v: Pages, root: PageNum, sh: Shape, p: PageNum, k: Key)
    requires Tree(v, root, sh) && Owns(v, sh, p, k) && v[p].Leaf?
    ensures forall q :: Owns(v, sh, q, k) && v[q].Leaf? ==> q == p
  {
    hide Edges, Rooted;
    var s := sh.leaves;
    var i :| 0 <= i < |s| && s[i] == p;
    forall q | Owns(v, sh, q, k) && v[q].Leaf? ensures q == p {
      var j :| 0 <= j < |s| && s[j] == q;
      LeafUnique(v, sh, i, j, k);
    }
  }

  // ---------------------------------------------------------------- one more key in its leaf

  /** The leaf `p` with `k` put in its place. */
  ghost function WithKey(v: Pages, p: PageNum, k: Key): Pages
    requires p in v && v[p].Leaf? && |v[p].rids| == |v[p].keys|
  {
    SetLeaf(v, p, Put(v[p].keys, Rank(v[p].keys, k), k), Put(v[p].rids, Rank(v[p].keys, k), k.rid))
  }

  /** What an insertion of `k` may not disturb. */
  ghost predicate Gained(v: Pages, sh: Shape, k: Key, w: Pages, sh': Shape) {
    && Inserted(Content(v, sh), k, Content(w, sh'))
    && (Anchored(v, Content(v, sh)) ==> Anchored(w, Content(w, sh')))
    && (Aligned(v) ==> Aligned(w))
  }

  lemma WithKeyTree(order: nat, v: Pages, root: PageNum, sh: Shape, p: PageNum, k: Key)
    requires order >= 3 && WellFormed(order, v, root, sh) && Owns(v, sh, p, k) && v[p].Leaf?
    requires k !in v[p].keys
    ensures |v[p].rids| == |v[p].keys|
    ensures var w := WithKey(v, p, k);
            && Gained(v, sh, k, w, sh)
            && (|v[p].keys| < order - 1 ==> WellFormed(order, w, root, sh))
            && (|v[p].keys| == order - 1 ==> Overfull(order, w, root, sh, p))
  {
    assert NodeOk(v[p], sh.at[p]);
    NoParentPage(v, root, sh);
    hide Tree, NodeOk, Sized, Inserted, Content;
    var i := Rank(v[p].keys, k);
    LeafInsertTree(v, root, sh, p, i, k, Put(v[p].rids, i, k.rid));
    LeafInsertSized(order, v, root, p, Put(v[p].keys, i, k), Put(v[p].rids, i, k.rid));
    WithKeyGained(v, p, k, Content(v, sh), Content(WithKey(v, p, k), sh));
  }

  lemma NoParentPage(v: Pages, root: PageNum, sh: Shape)
    requires Tree(v, root, sh)
    ensures NO_PARENT !in v
  {
  }

  lemma WithKeyGained(v: Pages, p: PageNum, k: Key, c: seq<Key>, c': seq<Key>)
    requires p in v && v[p].Leaf? && |v[p].rids| == |v[p].keys| && Inserted(c, k, c')
    ensures Anchored(v, c) ==> Anchored(WithKey(v, p, k), c')
    ensures Aligned(v) ==> Aligned(WithKey(v, p, k))
  {
    var w, r := WithKey(v, p, k), Rank(v[p].keys, k);
    InsertedKeeps(c, k, c');
    if Anchored(v, c) {
      hide Rank;
      forall x, i | x in w && w[x].Inner? && 0 <= i < |w[x].keys| ensures w[x].keys[i] in c' {
        assert x in v && v[x].keys[i] in c;
      }
    }
    if Aligned(v) {
      forall x, i | x in w && w[x].Leaf? && 0 <= i < |w[x].keys| && i < |w[x].rids| ensures w[x].rids[i] == w[x].keys[i].rid {
        if x == p && i != r {
          var j := if i < r then i else i - 1;
          assert w[x].keys[i] == v[x].keys[j] && w[x].rids[i] == v[x].rids[j];
        }
      }
    }
  }

  lemma InsertedKeeps(c: seq<Key>, k: Key, c': seq<Key>)
    requires Inserted(c, k, c')
    ensures forall x :: x in c' <==> x == k || x in c
  {
    var i :| 0 <= i <= |c| && c' == c[..i] + [k] + c[i..];
    forall x | x in c ensures x in c' {
      var a :| 0 <= a < |c| && c[a] == x;
      assert c'[if a < i then a else a + 1] == x;
    }
    assert c'[i] == k;
  }

  lemma GainedUnique(v: Pages, sh: Shape, k: Key, w: Pages, sh': Shape)
    requires Gained(v, sh, k, w, sh') && DistinctAttrs(Content(v, sh)) && !HasAttr(Content(v, sh), k.attr)
    ensures DistinctAttrs(Content(w, sh'))
  {
    UniqueKept(Content(v, sh), k, Content(w, sh'));
  }

  lemma GainedKept(v: Pages, sh: Shape, k: Key, w: Pages, sh1: Shape, u: Pages, sh2: Shape)
    requires Gained(v, sh, k, w, sh1) && Kept(w, sh1, u, sh2)
    ensures Gained(v, sh, k, u, sh2)
  {
  }
}
