/**
 The page map of the index read as a B+ tree.

 A page is a leaf (keys, their record identifiers and the next leaf) or an inner node (separators
 and one more child than separators), and it names its parent page. What makes a page map a tree is
 said locally: a ghost `Shape` gives every page its height and the key interval it is responsible
 for, and lists the leaves from left to right.
 */
module PageTree {
  import opened IndexKeys

  const NO_PARENT: PageNum := -1
  const NO_NEXT: PageNum := 0

  datatype Node =
    | Leaf(parent: PageNum, keys: seq<Key>, rids: seq<Rid>, next: PageNum)
    | Inner(parent: PageNum, keys: seq<Key>, kids: seq<PageNum>)

  type Pages = map<PageNum, Node>

  datatype Info = Info(height: nat, lo: Bound, hi: Bound)

  datatype Shape = Shape(at: map<PageNum, Info>, leaves: seq<PageNum>)

  ghost predicate DistinctPages(s: seq<PageNum>) {
    forall i, j :: 0 <= i < j < |s| ==> s[i] != s[j]
  }

  /** One page against its interval: sorted keys, all inside the interval. */
  ghost predicate NodeOk(n: Node, info: Info) {
    && Strict(n.keys)
    && BoundLess(info.lo, info.hi)
    && match n
       case Leaf(_, keys, rids, _) =>
         && info.height == 0
         && |rids| == |keys|
         && forall i :: 0 <= i < |keys| ==> AtOrBelow(info.lo, keys[i]) && Above(info.hi, keys[i])
       case Inner(_, keys, kids) =>
         && info.height > 0
         && |kids| == |keys| + 1
         && DistinctPages(kids)
         && forall i :: 0 <= i < |keys| ==> BoundLess(info.lo, At(keys[i])) && Above(info.hi, keys[i])
  }

  ghost function KidLo(n: Node, info: Info, i: nat): Bound
    requires n.Inner? && i <= |n.keys|
  {
    if i == 0 then info.lo else At(n.keys[i - 1])
  }

  ghost function KidHi(n: Node, info: Info, i: nat): Bound
    requires n.Inner? && i <= |n.keys|
  {
    if i == |n.keys| then info.hi else At(n.keys[i])
  }

  /** Child `i` of page `p` points back to `p`, is one level lower, and owns the interval between its separators. */
  ghost predicate EdgeOk(v: Pages, at: map<PageNum, Info>, p: PageNum, i: nat)
    requires p in v && v[p].Inner? && i < |v[p].kids| == |v[p].keys| + 1 && p in at
  {
    var c := v[p].kids[i];
    && c in v && c in at
    && v[c].parent == p
    && at[c].height + 1 == at[p].height
    && at[c].lo == KidLo(v[p], at[p], i)
    && at[c].hi == KidHi(v[p], at[p], i)
  }

  ghost predicate Nodes(v: Pages, at: map<PageNum, Info>) {
    && at.Keys == v.Keys
    && forall p :: p in v ==> p > 0 && NodeOk(v[p], at[p])
  }

  ghost predicate Edges(v: Pages, at: map<PageNum, Info>)
    requires Nodes(v, at)
  {
    forall p, i :: p in v && v[p].Inner? && 0 <= i < |v[p].kids| ==> EdgeOk(v, at, p, i)
  }

  /** Page `p` hangs below the page it names as its parent. */
  ghost predicate Hangs(v: Pages, p: PageNum)
    requires p in v
  {
    var q := v[p].parent;
    q in v && v[q].Inner? && p in v[q].kids
  }

  ghost predicate Rooted(v: Pages, at: map<PageNum, Info>, root: PageNum) {
    && root in v && root in at
    && v[root].parent == NO_PARENT
    && at[root].lo == NegInf && at[root].hi == PosInf
    && forall p :: p in v && p != root ==> Hangs(v, p)
  }

  /** The leaves from left to right: adjacent intervals, linked by their next pointers, none forgotten. */
  ghost predicate Chain(v: Pages, sh: Shape) {
    var s := sh.leaves;
    && |s| > 0
    && (forall i :: 0 <= i < |s| ==> s[i] in v && v[s[i]].Leaf? && s[i] in sh.at)
    && sh.at[s[0]].lo == NegInf
    && sh.at[s[|s| - 1]].hi == PosInf
    && v[s[|s| - 1]].next == NO_NEXT
    && (forall i, j :: 0 <= i && j == i + 1 && j < |s| ==> sh.at[s[i]].hi == sh.at[s[j]].lo && v[s[i]].next == s[j])
    && (forall p :: p in v && v[p].Leaf? ==> p in s)
  }

  /** `v` with root page `root` is a search tree of shape `sh`. Says nothing about page occupancy. */
  ghost predicate Tree(v: Pages, root: PageNum, sh: Shape) {
    && Nodes(v, sh.at)
    && Edges(v, sh.at)
    && Rooted(v, sh.at, root)
    && Chain(v, sh)
  }

  function MinKeys(order: nat, n: Node): nat {
    if n.Leaf? then order / 2 else if order < 1 then 0 else (order + 1) / 2 - 1
  }

  ghost predicate SizeOk(order: nat, n: Node, isRoot: bool) {
    && |n.keys| < order
    && (if isRoot then n.Inner? ==> |n.keys| >= 1 else |n.keys| >= MinKeys(order, n))
  }

  /** Every page but `except` holds between the minimum and `order - 1` keys; the root only needs two children or to be a leaf. */
  ghost predicate Sized(order: nat, v: Pages, root: PageNum, except: PageNum) {
    forall p :: p in v && p != except ==> SizeOk(order, v[p], p == root)
  }

  /** A B+ tree of the given order. */
  ghost predicate WellFormed(order: nat, v: Pages, root: PageNum, sh: Shape) {
    Tree(v, root, sh) && Sized(order, v, root, NO_PARENT)
  }

  /** The keys stored in a list of leaves, left to right. */
  ghost function Flatten(v: Pages, s: seq<PageNum>): seq<Key> {
    if s == [] then [] else (if s[0] in v then v[s[0]].keys else []) + Flatten(v, s[1..])
  }

  /** The abstract value of an index. */
  ghost function Content(v: Pages, sh: Shape): seq<Key> {
    Flatten(v, sh.leaves)
  }

  // ---------------------------------------------------------------- basic facts

  lemma {:induction false} FlattenConcat(v: Pages, s: seq<PageNum>, t: seq<PageNum>)
    ensures Flatten(v, s + t) == Flatten(v, s) + Flatten(v, t)
  {
    if s == [] {
      assert s + t == t;
    } else {
      assert (s + t)[1..] == s[1..] + t;
      FlattenConcat(v, s[1..], t);
    }
  }

  lemma {:induction false} FlattenSame(v: Pages, w: Pages, s: seq<PageNum>)
    requires forall i :: 0 <= i < |s| ==> s[i] in v && s[i] in w && v[s[i]].keys == w[s[i]].keys
    ensures Flatten(v, s) == Flatten(w, s)
  {
    if s != [] {
      assert s[0] in v;
      FlattenSame(v, w, s[1..]);
    }
  }

  /** A page has one parent and one position below it. */
  lemma KidUnique(v: Pages, at: map<PageNum, Info>, p: PageNum, i: nat, q: PageNum, j: nat)
    requires Nodes(v, at) && Edges(v, at)
    requires p in v && v[p].Inner? && i < |v[p].kids|
    requires q in v && v[q].Inner? && j < |v[q].kids|
    requires v[p].kids[i] == v[q].kids[j]
    ensures p == q && i == j
  {
    assert EdgeOk(v, at, p, i) && EdgeOk(v, at, q, j);
    assert p in v && NodeOk(v[p], at[p]);
    assert DistinctPages(v[p].kids);
  }

  /** Intervals of leaves ascend along the chain. */
  lemma {:induction false} ChainAscends(v: Pages, sh: Shape, i: nat, j: nat)
    requires Nodes(v, sh.at) && Chain(v, sh)
    requires i < j < |sh.leaves|
    ensures sh.at[sh.leaves[j]].lo.At?
    ensures sh.at[sh.leaves[i]].hi == sh.at[sh.leaves[j]].lo || BoundLess(sh.at[sh.leaves[i]].hi, sh.at[sh.leaves[j]].lo)
    ensures BoundLess(sh.at[sh.leaves[i]].lo, sh.at[sh.leaves[j]].lo)
    decreases j
  {
    var s := sh.leaves;
    var p, q, r := s[i], s[j - 1], s[j];
    assert p in v && NodeOk(v[p], sh.at[p]);
    assert q in v && NodeOk(v[q], sh.at[q]);
    assert r in v && NodeOk(v[r], sh.at[r]);
    assert sh.at[q].hi == sh.at[r].lo;
    if i < j - 1 {
      ChainAscends(v, sh, i, j - 1);
    }
  }

  lemma ChainDistinct(v: Pages, sh: Shape)
    requires Nodes(v, sh.at) && Chain(v, sh)
    ensures DistinctPages(sh.leaves)
  {
    forall i, j | 0 <= i < j < |sh.leaves| ensures sh.leaves[i] != sh.leaves[j] {
      ChainAscends(v, sh, i, j);
    }
  }

  /** At most one leaf interval holds a given key. */
  lemma LeafUnique(v: Pages, sh: Shape, i: nat, j: nat, k: Key)
    requires Nodes(v, sh.at) && Chain(v, sh)
    requires i < |sh.leaves| && j < |sh.leaves|
    requires AtOrBelow(sh.at[sh.leaves[i]].lo, k) && Above(sh.at[sh.leaves[i]].hi, k)
    requires AtOrBelow(sh.at[sh.leaves[j]].lo, k) && Above(sh.at[sh.leaves[j]].hi, k)
    ensures i == j
  {
    if i < j {
      ChainAscends(v, sh, i, j);
    } else if j < i {
      ChainAscends(v, sh, j, i);
    }
  }
}
