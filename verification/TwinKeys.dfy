/**
 What becomes of a key that is inserted a second time into a full leaf. The leaf is split without
 looking for the key, so the index ends up holding it twice, and then it is no search tree whatever
 shape one tries to read into it. To follow the split the two copies are told apart by doubling all
 slot numbers: the old copy becomes even, the new one odd.
 */
module TwinKeys {
  import opened IndexKeys
  import opened PageTree
  import opened PageSteps
  import opened IndexNodes
  import opened PageInsert
  import opened KeyLabels
  import opened PageSearch

  ghost function Double(k: Key): Key {
    Key(k.attr, Rid(k.rid.page, 2 * k.rid.slot))
  }

  ghost function Odd(k: Key): Key {
    Key(k.attr, Rid(k.rid.page, 2 * k.rid.slot + 1))
  }

  ghost function Halve(k: Key): Key {
    Key(k.attr, Rid(k.rid.page, k.rid.slot / 2))
  }

  ghost function DoubleBound(b: Bound): Bound {
    if b.At? then At(Double(b.key)) else b
  }

  ghost function DoubleInfo(i: Info): Info {
    Info(i.height, DoubleBound(i.lo), DoubleBound(i.hi))
  }

  ghost function DoubleShape(sh: Shape): (r: Shape)
    ensures r.at.Keys == sh.at.Keys && forall p :: p in sh.at ==> r.at[p] == DoubleInfo(sh.at[p])
  {
    Shape(map p | p in sh.at :: DoubleInfo(sh.at[p]), sh.leaves)
  }

  lemma DoubleOrder(a: Key, b: Key)
    ensures Less(Double(a), Double(b)) <==> Less(a, b)
    ensures Less(Double(a), Odd(b)) <==> !Less(b, a)
    ensures Less(Odd(a), Double(b)) <==> Less(a, b)
    ensures Halve(Double(a)) == a == Halve(Odd(a)) && Double(a) != Odd(b)
  {
  }

  lemma DoubleNode(n: Node, info: Info)
    requires NodeOk(n, info)
    ensures NodeOk(MapNode(n, Double), DoubleInfo(info))
  {
    var w := MapNode(n, Double);
    forall i, j | 0 <= i < j < |w.keys| ensures Less(w.keys[i], w.keys[j]) {
      DoubleOrder(n.keys[i], n.keys[j]);
    }
    forall i | 0 <= i < |w.keys|
      ensures AtOrBelow(info.lo, n.keys[i]) ==> AtOrBelow(DoubleBound(info.lo), w.keys[i])
      ensures BoundLess(info.lo, At(n.keys[i])) ==> BoundLess(DoubleBound(info.lo), At(w.keys[i]))
      ensures Above(info.hi, n.keys[i]) ==> Above(DoubleBound(info.hi), w.keys[i])
    {
    }
  }

  lemma DoubleTree(v: Pages, root: PageNum, sh: Shape)
    requires Tree(v, root, sh)
    ensures Tree(MapKeys(v, Double), root, DoubleShape(sh))
  {
    hide Nodes, Edges, Rooted, Chain, MapKeys;
    DoubleNodes(v, sh);
    DoubleEdges(v, sh);
    DoubleRooted(v, root, sh);
    DoubleChain(v, sh);
  }

  lemma DoubleNodes(v: Pages, sh: Shape)
    requires Nodes(v, sh.at)
    ensures Nodes(MapKeys(v, Double), DoubleShape(sh).at)
  {
    var w, sh2 := MapKeys(v, Double), DoubleShape(sh);
    forall p | p in w ensures p > 0 && NodeOk(w[p], sh2.at[p]) {
      assert NodeOk(v[p], sh.at[p]);
      DoubleNode(v[p], sh.at[p]);
    }
  }

  lemma DoubleRooted(v: Pages, root: PageNum, sh: Shape)
    requires Rooted(v, sh.at, root)
    ensures Rooted(MapKeys(v, Double), DoubleShape(sh).at, root)
  {
    var w := MapKeys(v, Double);
    forall p | p in w && p != root ensures Hangs(w, p) {
      assert Hangs(v, p);
    }
  }

  lemma DoubleEdges(v: Pages, sh: Shape)
    requires Nodes(v, sh.at) && Edges(v, sh.at) && Nodes(MapKeys(v, Double), DoubleShape(sh).at)
    ensures Edges(MapKeys(v, Double), DoubleShape(sh).at)
  {
    var w, at2 := MapKeys(v, Double), DoubleShape(sh).at;
    forall p, i | p in w && w[p].Inner? && 0 <= i < |w[p].kids| ensures EdgeOk(w, at2, p, i) {
      assert p in v && EdgeOk(v, sh.at, p, i);
    }
  }

  lemma DoubleChain(v: Pages, sh: Shape)
    requires Chain(v, sh)
    ensures Chain(MapKeys(v, Double), DoubleShape(sh))
  {
    var s := sh.leaves;
    forall a | 0 <= a < |s| ensures s[a] in v && s[a] in sh.at && DoubleShape(sh).at[s[a]] == DoubleInfo(sh.at[s[a]]) {
      var x := s[a];
      assert x in v;
    }
  }

  lemma DoubleSized(order: nat, v: Pages, root: PageNum, p: PageNum)
    requires Sized(order, v, root, p)
    ensures Sized(order, MapKeys(v, Double), root, p)
  {
    var w := MapKeys(v, Double);
    forall x | x in w && x != p ensures SizeOk(order, w[x], x == root) {
      assert SizeOk(order, v[x], x == root);
    }
  }

  /** The overfull tree that the second insertion of `k` really works on. */
  lemma TwinTree(order: nat, v: Pages, root: PageNum, sh: Shape, p: PageNum, k: Key, rids: seq<Rid>) returns (v0: Pages, sh0: Shape)
    requires order >= 3 && WellFormed(order, v, root, sh) && Owns(v, sh, p, k) && v[p].Leaf? && k in v[p].keys
    requires |v[p].keys| == order - 1 && |rids| == order
    ensures Overfull(order, v0, root, sh0, p)
    ensures MapKeys(v0, Halve) == SetLeaf(v, p, Put(v[p].keys, Rank(v[p].keys, k), k), rids)
    ensures Double(k) in Content(v0, sh0) && Odd(k) in Content(v0, sh0)
  {
    hide Tree, Sized, Inserted, Content, MapKeys, EdgeOk;
    DoubleTree(v, root, sh);
    DoubleSized(order, v, root, NO_PARENT);
    var w, i := MapKeys(v, Double), Rank(v[p].keys, k);
    sh0 := DoubleShape(sh);
    var ks := w[p].keys;
    forall j | 0 <= j < |ks| ensures (j < i ==> !Less(Odd(k), ks[j])) && (j == i ==> Less(Odd(k), ks[j])) && ks[j] != Odd(k) {
      DoubleOrder(k, v[p].keys[j]);
    }
    assert Odd(k) !in ks;
    assert AtOrBelow(sh0.at[p].lo, Odd(k)) && Above(sh0.at[p].hi, Odd(k));
    LeafInsertTree(w, root, sh0, p, i, Odd(k), rids);
    v0 := SetLeaf(w, p, Put(ks, i, Odd(k)), rids);
    TwinContent(w, root, sh0, v0, p, k, v[p].keys);
    NoParentPage(w, root, sh0);
    LeafInsertSized(order, w, root, p, Put(ks, i, Odd(k)), rids);
    TwinHalves(v, p, i, k, rids);
  }

  lemma InsertedHas(c: seq<Key>, x: Key, y: Key, c': seq<Key>)
    requires Inserted(c, x, c') && y in c
    ensures x in c' && y in c'
  {
    var i :| 0 <= i <= |c| && c' == c[..i] + [x] + c[i..];
    assert c'[i] == x;
    var a :| 0 <= a < |c| && c[a] == y;
    assert c'[if a < i then a else a + 1] == y;
  }

  lemma TwinContent(w: Pages, root: PageNum, sh: Shape, v0: Pages, p: PageNum, k: Key, keys: seq<Key>)
    requires Tree(w, root, sh) && p in w && w[p].Leaf? && w[p].keys == MapSeq(keys, Double) && k in keys
    requires Inserted(Content(w, sh), Odd(k), Content(v0, sh))
    ensures Double(k) in Content(v0, sh) && Odd(k) in Content(v0, sh)
  {
    hide Tree, Inserted, Content;
    var j :| 0 <= j < |keys| && keys[j] == k;
    LeafKeyStored(w, root, sh, p, j);
    InsertedHas(Content(w, sh), Odd(k), Double(k), Content(v0, sh));
  }

  lemma TwinHalves(v: Pages, p: PageNum, i: nat, k: Key, rids: seq<Rid>)
    requires p in v && v[p].Leaf? && i <= |v[p].keys|
    ensures MapKeys(SetLeaf(MapKeys(v, Double), p, Put(MapSeq(v[p].keys, Double), i, Odd(k)), rids), Halve) == SetLeaf(v, p, Put(v[p].keys, i, k), rids)
  {
    var a := MapKeys(SetLeaf(MapKeys(v, Double), p, Put(MapSeq(v[p].keys, Double), i, Odd(k)), rids), Halve);
    var b := SetLeaf(v, p, Put(v[p].keys, i, k), rids);
    DoubleOrder(k, k);
    forall x | x in v ensures a[x] == b[x] {
      assert MapSeq(MapSeq(v[x].keys, Double), Halve) == v[x].keys;
      if x == p {
        assert a[p].keys == b[p].keys;
      }
    }
  }

  /** One key in two places rules out every shape. */
  lemma NoTreeWithTwin(v: Pages, root: PageNum, sh: Shape, p: PageNum, i: nat, q: PageNum, j: nat)
    requires p in v && v[p].Leaf? && i < |v[p].keys|
    requires q in v && v[q].Leaf? && j < |v[q].keys|
    requires v[p].keys[i] == v[q].keys[j] && (p != q || i != j)
    ensures !Tree(v, root, sh)
  {
    if Tree(v, root, sh) {
      var s, k := sh.leaves, v[p].keys[i];
      assert NodeOk(v[p], sh.at[p]) && NodeOk(v[q], sh.at[q]);
      var a: nat :| a < |s| && s[a] == p;
      var b: nat :| b < |s| && s[b] == q;
      hide Edges, Rooted, Chain, Nodes;
      assert AtOrBelow(sh.at[p].lo, k) && Above(sh.at[p].hi, k);
      assert AtOrBelow(sh.at[q].lo, k) && Above(sh.at[q].hi, k);
      LeafUnique(v, sh, a, b, k);
    }
  }

  /** Two different keys that read the same make the renamed tree no tree. */
  lemma TwinsBreak(v: Pages, root: PageNum, sh: Shape, k: Key)
    requires Tree(v, root, sh) && Double(k) in Content(v, sh) && Odd(k) in Content(v, sh)
    ensures forall r, sh' :: !Tree(MapKeys(v, Halve), r, sh')
  {
    hide Tree;
    var w := MapKeys(v, Halve);
    DoubleOrder(k, k);
    var p, i := WhereStored(v, root, sh, Double(k));
    var q, j := WhereStored(v, root, sh, Odd(k));
    forall r, sh' ensures !Tree(w, r, sh') {
      NoTreeWithTwin(w, r, sh', p, i, q, j);
    }
  }

  lemma WhereStored(v: Pages, root: PageNum, sh: Shape, k: Key) returns (p: PageNum, i: nat)
    requires Tree(v, root, sh) && k in Content(v, sh)
    ensures p in v && v[p].Leaf? && i < |v[p].keys| && v[p].keys[i] == k
  {
    hide Nodes, Edges, Rooted;
    FlattenHas(v, sh.leaves, k);
    var j :| 0 <= j < |sh.leaves| && sh.leaves[j] in v && k in v[sh.leaves[j]].keys;
    p := sh.leaves[j];
    assert p in v && v[p].Leaf?;
    i :| 0 <= i < |v[p].keys| && v[p].keys[i] == k;
  }
}
