/** The remaining elementary changes of the page map: one leaf's contents, a new root, a root given up. */
module PageSteps {
  import opened IndexKeys
  import opened PageTree
  import opened PageSplit

  /** `after` is `before` with `k` put in somewhere. */
  ghost predicate Inserted(before: seq<Key>, k: Key, after: seq<Key>) {
    exists i :: 0 <= i <= |before| && after == before[..i] + [k] + before[i..]
  }

  // ---------------------------------------------------------------- one leaf

  ghost function SetLeaf(v: Pages, p: PageNum, keys: seq<Key>, rids: seq<Rid>): Pages
    requires p in v && v[p].Leaf?
  {
    v[p := Leaf(v[p].parent, keys, rids, v[p].next)]
  }

  /** A leaf may hold any sorted keys of its interval. */
  lemma SetLeafTree(v: Pages, root: PageNum, sh: Shape, p: PageNum, keys: seq<Key>, rids: seq<Rid>)
    requires Tree(v, root, sh) && p in v && v[p].Leaf? && p in sh.at
    requires |keys| == |rids| && Strict(keys)
    requires forall i :: 0 <= i < |keys| ==> AtOrBelow(sh.at[p].lo, keys[i]) && Above(sh.at[p].hi, keys[i])
    ensures Tree(SetLeaf(v, p, keys, rids), root, sh)
  {
    var w := SetLeaf(v, p, keys, rids);
    SetLeafNodes(v, sh, p, keys, rids);
    SetLeafEdges(v, sh.at, p, keys, rids);
    SetLeafRooted(v, root, sh, p, keys, rids);
    hide Nodes, Edges, Rooted;
    ChainSame(v, sh, w, sh);
  }

  lemma SetLeafNodes(v: Pages, sh: Shape, p: PageNum, keys: seq<Key>, rids: seq<Rid>)
    requires Nodes(v, sh.at) && p in v && v[p].Leaf? && p in sh.at
    requires |keys| == |rids| && Strict(keys)
    requires forall i :: 0 <= i < |keys| ==> AtOrBelow(sh.at[p].lo, keys[i]) && Above(sh.at[p].hi, keys[i])
    ensures Nodes(SetLeaf(v, p, keys, rids), sh.at)
  {
    assert NodeOk(v[p], sh.at[p]);
  }

  lemma SetLeafEdges(v: Pages, at: map<PageNum, Info>, p: PageNum, keys: seq<Key>, rids: seq<Rid>)
    requires Nodes(v, at) && Edges(v, at) && p in v && v[p].Leaf?
    requires Nodes(SetLeaf(v, p, keys, rids), at)
    ensures Edges(SetLeaf(v, p, keys, rids), at)
  {
    var w := SetLeaf(v, p, keys, rids);
    forall x, i | x in w && w[x].Inner? && 0 <= i < |w[x].kids| ensures EdgeOk(w, at, x, i) {
      assert x in v && EdgeOk(v, at, x, i);
    }
  }

  lemma SetLeafRooted(v: Pages, root: PageNum, sh: Shape, p: PageNum, keys: seq<Key>, rids: seq<Rid>)
    requires Rooted(v, sh.at, root) && p in v && v[p].Leaf?
    ensures Rooted(SetLeaf(v, p, keys, rids), sh.at, root)
  {
    var w := SetLeaf(v, p, keys, rids);
    forall x | x in w && x != root ensures Hangs(w, x) {
      assert Hangs(v, x);
    }
  }

  lemma InsertedAfter(a: seq<Key>, before: seq<Key>, k: Key, after: seq<Key>)
    requires Inserted(before, k, after)
    ensures Inserted(a + before, k, a + after)
  {
    var i :| 0 <= i <= |before| && after == before[..i] + [k] + before[i..];
    var c, j := a + before, |a| + i;
    assert c[..j] == a + before[..i] && c[j..] == before[i..];
    assert a + after == c[..j] + [k] + c[j..];
  }

  lemma InsertedBefore(before: seq<Key>, k: Key, after: seq<Key>, b: seq<Key>)
    requires Inserted(before, k, after)
    ensures Inserted(before + b, k, after + b)
  {
    var i :| 0 <= i <= |before| && after == before[..i] + [k] + before[i..];
    var c := before + b;
    assert c[..i] == before[..i] && c[i..] == before[i..] + b;
    assert after + b == c[..i] + [k] + c[i..];
  }

  /** Putting a key into one leaf of a list puts it into the sequence of all their keys. */
  lemma {:induction false} FlattenInserted(v: Pages, w: Pages, s: seq<PageNum>, j: nat, k: Key)
    requires j < |s| && s[j] in v && s[j] in w && Inserted(v[s[j]].keys, k, w[s[j]].keys)
    requires forall i :: 0 <= i < |s| && i != j ==> s[i] in v && s[i] in w && v[s[i]].keys == w[s[i]].keys
    ensures Inserted(Flatten(v, s), k, Flatten(w, s))
  {
    hide Inserted;
    var r := s[1..];
    if j == 0 {
      FlattenSame(v, w, r);
      InsertedBefore(v[s[0]].keys, k, w[s[0]].keys, Flatten(v, r));
    } else {
      FlattenInserted(v, w, r, j - 1, k);
      InsertedAfter(v[s[0]].keys, Flatten(v, r), k, Flatten(w, r));
    }
  }

  /** Two page maps that differ in one leaf, by one key. */
  lemma ContentInserted(v: Pages, root: PageNum, sh: Shape, w: Pages, p: PageNum, k: Key)
    requires Tree(v, root, sh) && p in v && v[p].Leaf?
    requires p in w && Inserted(v[p].keys, k, w[p].keys)
    requires forall x :: x in v && v[x].Leaf? && x != p ==> x in w && w[x].keys == v[x].keys
    ensures Inserted(Content(v, sh), k, Content(w, sh))
  {
    hide Edges, Rooted;
    var s := sh.leaves;
    ChainDistinct(v, sh);
    var j :| 0 <= j < |s| && s[j] == p;
    forall i | 0 <= i < |s| && i != j ensures s[i] in v && s[i] in w && v[s[i]].keys == w[s[i]].keys {
      var x := s[i];
      assert x in v;
    }
    FlattenInserted(v, w, s, j, k);
  }

  lemma ContentInsertedBack(v: Pages, root: PageNum, sh: Shape, w: Pages, p: PageNum, k: Key)
    requires Tree(v, root, sh) && p in v && v[p].Leaf?
    requires p in w && Inserted(w[p].keys, k, v[p].keys)
    requires forall x :: x in v && v[x].Leaf? && x != p ==> x in w && w[x].keys == v[x].keys
    ensures Inserted(Content(w, sh), k, Content(v, sh))
  {
    hide Edges, Rooted;
    var s := sh.leaves;
    ChainDistinct(v, sh);
    var j :| 0 <= j < |s| && s[j] == p;
    forall i | 0 <= i < |s| && i != j ensures s[i] in v && s[i] in w && v[s[i]].keys == w[s[i]].keys {
      var x := s[i];
      assert x in v;
    }
    FlattenInserted(w, v, s, j, k);
  }

  // ---------------------------------------------------------------- reading the content

  /** A key is in the content iff some leaf of the list holds it. */
  lemma {:induction false} FlattenHas(v: Pages, s: seq<PageNum>, k: Key)
    ensures k in Flatten(v, s) <==> exists j :: 0 <= j < |s| && s[j] in v && k in v[s[j]].keys
  {
    if s != [] {
      FlattenHas(v, s[1..], k);
      if k in Flatten(v, s[1..]) {
        var j :| 0 <= j < |s[1..]| && s[1..][j] in v && k in v[s[1..][j]].keys;
        assert s[j + 1] in v && k in v[s[j + 1]].keys;
      }
      if exists j :: 0 <= j < |s| && s[j] in v && k in v[s[j]].keys {
        var j :| 0 <= j < |s| && s[j] in v && k in v[s[j]].keys;
        assert j > 0 ==> s[1..][j - 1] in v && k in v[s[1..][j - 1]].keys;
      }
    }
  }

  /** The leaf whose interval admits a key is the only place to look for it. */
  lemma LeafDecides(v: Pages, root: PageNum, sh: Shape, p: PageNum, k: Key)
    requires Tree(v, root, sh) && p in v && v[p].Leaf? && p in sh.at
    requires AtOrBelow(sh.at[p].lo, k) && Above(sh.at[p].hi, k)
    ensures k in Content(v, sh) <==> k in v[p].keys
  {
    hide Edges, Rooted;
    var s := sh.leaves;
    FlattenHas(v, s, k);
    var i :| 0 <= i < |s| && s[i] == p;
    if k in Content(v, sh) {
      var j :| 0 <= j < |s| && s[j] in v && k in v[s[j]].keys;
      var q := s[j];
      assert q in v && NodeOk(v[q], sh.at[q]);
      LeafUnique(v, sh, i, j, k);
    }
  }

  lemma {:induction false} FlattenStrict(v: Pages, sh: Shape, j: nat)
    requires Nodes(v, sh.at) && Chain(v, sh) && j <= |sh.leaves|
    ensures Strict(Flatten(v, sh.leaves[j..]))
    ensures forall k :: k in Flatten(v, sh.leaves[j..]) ==> j < |sh.leaves| && AtOrBelow(sh.at[sh.leaves[j]].lo, k)
    decreases |sh.leaves| - j
  {
    var s := sh.leaves;
    if j < |s| {
      FlattenStrict(v, sh, j + 1);
      var p := s[j];
      assert p in v && NodeOk(v[p], sh.at[p]);
      var a, b := v[p].keys, Flatten(v, s[j + 1..]);
      assert s[j..][1..] == s[j + 1..];
      if j + 1 < |s| {
        var q := s[j + 1];
        assert sh.at[p].hi == sh.at[q].lo;
        assert q in v && NodeOk(v[q], sh.at[q]);
        forall x, y | 0 <= x < |a| && 0 <= y < |b| ensures Less(a[x], b[y]) {
          assert b[y] in b && AtOrBelow(sh.at[q].lo, b[y]) && Above(sh.at[p].hi, a[x]);
        }
      }
      assert forall k :: k in b ==> AtOrBelow(sh.at[p].lo, k);
    }
  }

  /** The abstract value of a tree is strictly sorted; in particular no key occurs twice. */
  lemma ContentStrict(v: Pages, root: PageNum, sh: Shape)
    requires Tree(v, root, sh)
    ensures Strict(Content(v, sh))
  {
    hide Edges, Rooted;
    FlattenStrict(v, sh, 0);
    assert sh.leaves[0..] == sh.leaves;
  }

  // ---------------------------------------------------------------- the root

  /** A page above the old root, so far with a single child. */
  ghost function GrowPages(v: Pages, root: PageNum, nr: PageNum): Pages
    requires root in v
  {
    v[root := v[root].(parent := nr)][nr := Inner(NO_PARENT, [], [root])]
  }

  ghost function GrowShape(sh: Shape, root: PageNum, nr: PageNum): Shape
    requires root in sh.at
  {
    Shape(sh.at[nr := Info(sh.at[root].height + 1, NegInf, PosInf)], sh.leaves)
  }

  lemma GrowTree(v: Pages, root: PageNum, sh: Shape, nr: PageNum)
    requires Tree(v, root, sh) && nr > 0 && nr !in v
    ensures root in sh.at && Tree(GrowPages(v, root, nr), nr, GrowShape(sh, root, nr))
    ensures Content(GrowPages(v, root, nr), GrowShape(sh, root, nr)) == Content(v, sh)
  {
    var w, sh2 := GrowPages(v, root, nr), GrowShape(sh, root, nr);
    GrowNodes(v, root, sh, nr);
    GrowEdges(v, root, sh, nr);
    forall x | x in w && x != nr ensures Hangs(w, x) {
      if x == root {
        assert w[nr].kids[0] == root;
      } else {
        assert Hangs(v, x);
      }
    }
    hide Nodes, Edges;
    ChainSame(v, sh, w, sh2);
    GrowContent(v, root, sh, nr);
  }

  lemma GrowNodes(v: Pages, root: PageNum, sh: Shape, nr: PageNum)
    requires Tree(v, root, sh) && nr > 0 && nr !in v
    ensures Nodes(GrowPages(v, root, nr), GrowShape(sh, root, nr).at)
  {
    hide Edges, Chain;
    var w, at2 := GrowPages(v, root, nr), GrowShape(sh, root, nr).at;
    forall x | x in w ensures x > 0 && NodeOk(w[x], at2[x]) {
      if x != nr {
        SameNodeOk(v, sh.at, x, w[x]);
      }
    }
  }

  lemma GrowEdges(v: Pages, root: PageNum, sh: Shape, nr: PageNum)
    requires Tree(v, root, sh) && nr > 0 && nr !in v
    requires Nodes(GrowPages(v, root, nr), GrowShape(sh, root, nr).at)
    ensures Edges(GrowPages(v, root, nr), GrowShape(sh, root, nr).at)
  {
    hide Chain;
    var w, at2 := GrowPages(v, root, nr), GrowShape(sh, root, nr).at;
    forall x, i | x in w && w[x].Inner? && 0 <= i < |w[x].kids| ensures EdgeOk(w, at2, x, i) {
      if x != nr {
        assert x in v && EdgeOk(v, sh.at, x, i);
        RootIsNoKid(v, root, sh, x);
      }
    }
  }

  lemma GrowContent(v: Pages, root: PageNum, sh: Shape, nr: PageNum)
    requires Tree(v, root, sh) && nr > 0 && nr !in v
    ensures Content(GrowPages(v, root, nr), GrowShape(sh, root, nr)) == Content(v, sh)
  {
    hide Nodes, Edges;
    var w, s := GrowPages(v, root, nr), sh.leaves;
    forall i | 0 <= i < |s| ensures s[i] in v && s[i] in w && v[s[i]].keys == w[s[i]].keys {
      var x := s[i];
      assert x in v;
    }
    FlattenSame(v, w, s);
  }

  /** The only child of a root without separators becomes the root. */
  ghost function ShrinkPages(v: Pages, root: PageNum): Pages
    requires root in v && v[root].Inner? && |v[root].kids| == 1 && v[root].kids[0] in v
  {
    var c := v[root].kids[0];
    (v - {root})[c := v[c].(parent := NO_PARENT)]
  }

  ghost function ShrinkShape(sh: Shape, root: PageNum): Shape {
    Shape(sh.at - {root}, sh.leaves)
  }

  lemma ShrinkTree(v: Pages, root: PageNum, sh: Shape)
    requires Tree(v, root, sh) && v[root].Inner? && |v[root].keys| == 0
    ensures |v[root].kids| == 1 && v[root].kids[0] in v && v[root].kids[0] != root
    ensures Tree(ShrinkPages(v, root), v[root].kids[0], ShrinkShape(sh, root))
    ensures Content(ShrinkPages(v, root), ShrinkShape(sh, root)) == Content(v, sh)
  {
    assert NodeOk(v[root], sh.at[root]);
    assert EdgeOk(v, sh.at, root, 0);
    var c := v[root].kids[0];
    var w, sh2 := ShrinkPages(v, root), ShrinkShape(sh, root);
    ShrinkNodes(v, root, sh);
    ShrinkEdges(v, root, sh);
    ShrinkRooted(v, root, sh);
    hide Nodes, Edges, Rooted;
    ChainSame(v, sh, w, sh2);
    ShrinkContent(v, root, sh);
  }

  lemma ShrinkNodes(v: Pages, root: PageNum, sh: Shape)
    requires Tree(v, root, sh) && root in v && v[root].Inner? && |v[root].kids| == 1 && v[root].kids[0] in v
    ensures Nodes(ShrinkPages(v, root), ShrinkShape(sh, root).at)
  {
    hide Edges, Rooted, Chain;
    var w, at2 := ShrinkPages(v, root), ShrinkShape(sh, root).at;
    assert v[root].kids[0] != root by {
      RootIsNoKid(v, root, sh, root);
      assert v[root].kids[0] in v[root].kids;
    }
    assert w.Keys == v.Keys - {root} == at2.Keys;
    forall x | x in w ensures x > 0 && NodeOk(w[x], at2[x]) {
      SameNodeOk(v, sh.at, x, w[x]);
    }
  }

  lemma ShrinkEdges(v: Pages, root: PageNum, sh: Shape)
    requires Tree(v, root, sh) && root in v && v[root].Inner? && |v[root].kids| == 1 && v[root].kids[0] in v
    requires Nodes(ShrinkPages(v, root), ShrinkShape(sh, root).at)
    ensures Edges(ShrinkPages(v, root), ShrinkShape(sh, root).at)
  {
    hide Chain;
    var w, at2 := ShrinkPages(v, root), ShrinkShape(sh, root).at;
    forall x, i | x in w && w[x].Inner? && 0 <= i < |w[x].kids| ensures EdgeOk(w, at2, x, i) {
      assert x in v && EdgeOk(v, sh.at, x, i);
      RootIsNoKid(v, root, sh, x);
      if v[x].kids[i] == v[root].kids[0] {
        KidUnique(v, sh.at, x, i, root, 0);
      }
    }
  }

  lemma ShrinkRooted(v: Pages, root: PageNum, sh: Shape)
    requires Tree(v, root, sh) && root in v && v[root].Inner? && |v[root].keys| == 0 && |v[root].kids| == 1
    requires v[root].kids[0] in v && v[root].kids[0] != root
    ensures Rooted(ShrinkPages(v, root), ShrinkShape(sh, root).at, v[root].kids[0])
  {
    hide Chain, NodeOk;
    var c := v[root].kids[0];
    var w := ShrinkPages(v, root);
    assert root in v && NodeOk(v[root], sh.at[root]) && EdgeOk(v, sh.at, root, 0);
    forall x | x in w && x != c ensures Hangs(w, x) {
      assert Hangs(v, x);
      assert x !in v[root].kids;
    }
  }

  lemma ShrinkContent(v: Pages, root: PageNum, sh: Shape)
    requires Tree(v, root, sh) && root in v && v[root].Inner? && |v[root].kids| == 1 && v[root].kids[0] in v
    ensures Content(ShrinkPages(v, root), ShrinkShape(sh, root)) == Content(v, sh)
  {
    hide Nodes, Edges, Rooted;
    var w, s := ShrinkPages(v, root), sh.leaves;
    forall i | 0 <= i < |s| ensures s[i] in v && s[i] in w && v[s[i]].keys == w[s[i]].keys {
      var x := s[i];
      assert x in v && v[x].Leaf?;
    }
    FlattenSame(v, w, s);
  }
}
