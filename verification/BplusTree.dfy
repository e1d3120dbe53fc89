/** The index handler: a pool of pages and the page number of the root. */
module BplusTree {
  import opened IndexKeys
  import opened PageTree
  import opened PageSplit
  import opened PageMerge
  import opened PageSteps
  import opened IndexNodes
  import opened PageInsert
  import opened KeyLabels
  import opened PageSearch
  import opened TwinKeys
  import opened PageDelete
  import opened PageBorrow
  import opened PageCascade
  import opened PageScan
  import opened PageUnique

  datatype RC = SUCCESS | RECORD_DUPLICATE_KEY | RECORD_INVALID_KEY | INVALID_ARGUMENT | RECORD_EOF | RECORD_NO_MORE_IDX_IN_MEM
    | RECORD_OPENNED | RECORD_CLOSED | RECORD_SCANCLOSED

  /** How a pool chooses the number of a new page: any number that is not in use. */
  type Allocator = f: set<PageNum> -> PageNum | forall s :: f(s) > 0 && f(s) !in s
    ghost witness s => Beyond(s)

  ghost function Beyond(s: set<PageNum>): (p: PageNum)
    ensures p > 0 && forall x :: x in s ==> x < p
  {
    if x :| x in s then
      var rest := s - {x};
      assert forall y :: y in s ==> y == x || y in rest;
      var q := Beyond(rest);
      if x < q then q else x + 1
    else 1
  }

  class BplusTreeHandler {
    const order: nat
    const allocate: Allocator
    var pages: map<PageNum, IndexNode>
    var rootPage: PageNum
    ghost var shape: Shape  // which tree the pages form

    ghost function Footprint(): set<object>
      reads this
    {
      (set p | p in pages :: pages[p] as object)
      + (set p | p in pages :: pages[p].keys as object)
      + (set p | p in pages :: pages[p].rids as object)
    }

    /** Every page has its own node object and its own slot arrays. */
    ghost predicate Pool()
      reads this, Footprint()
    {
      && order >= 3
      && (forall p :: p in pages ==> p > 0 && pages[p].Ok(order))
      && (forall p, q :: p in pages && q in pages && p != q ==>
            pages[p] != pages[q] && pages[p].keys != pages[q].keys && pages[p].rids != pages[q].rids)
    }

    /** The pages as values. */
    ghost function View(): Pages
      reads this, Footprint()
      requires Pool()
    {
      map p | p in pages :: pages[p].Val(order)
    }

    ghost predicate Valid()
      reads this, Footprint()
    {
      Pool() && WellFormed(order, View(), rootPage, shape)
    }

    /** The stored keys in order. */
    ghost function Entries(): seq<Key>
      reads this, Footprint()
      requires Pool()
    {
      Content(View(), shape)
    }

    /** The record identifier slots of every page, those in use and those behind them. */
    ghost function Slots(): (s: map<PageNum, seq<Rid>>)
      reads this, Footprint()
      requires Pool()
      ensures s.Keys == View().Keys && forall p :: p in s ==> |s[p]| == order
    {
      map p | p in pages :: pages[p].rids[..]
    }

    /** A new index: one empty leaf. */
    constructor (k: nat, choose: Allocator)
      requires k >= 3
      ensures Valid() && fresh(Footprint()) && order == k && allocate == choose
      ensures Entries() == [] && Anchored(View(), Entries()) && Aligned(View())
    {
      hide PagesOf, Tree, WellFormed, Content, Anchored, Aligned;
      order, allocate := k, choose;
      var node := new IndexNode(k);
      var p := choose({});
      pages, rootPage := map[p := node], p;
      shape := Shape(map[p := Info(0, NegInf, PosInf)], [p]);
      new;
      node.isLeaf := true;
      node.keyNum := 0;
      node.parent := NO_PARENT;
      node.rids[order - 1] := Rid(NO_NEXT, 0);
      assert View() == map[p := Leaf(NO_PARENT, [], [], NO_NEXT)];
      EmptyTree(order, p);
    }

    // -------------------------------------------------------------- frames

    /** The objects that make up page `p`. */
    ghost function Parts(p: PageNum): set<object>
      requires p in pages
      reads this
    {
      {pages[p], pages[p].keys, pages[p].rids}
    }

    /** A page of the view is a page object of its own. */
    lemma PageIs(p: PageNum)
      requires Pool() && p in View()
      ensures order >= 3 && p in pages && pages[p].Ok(order) && Parts(p) <= Footprint()
      ensures View()[p] == pages[p].Val(order) && Slots()[p] == pages[p].rids[..]
    {
    }

    lemma PagesApart(p: PageNum, r: PageNum)
      requires Pool() && p in View() && r in View() && p != r
      ensures p in pages && r in pages && Parts(p) !! Parts(r)
    {
    }

    twostate lemma WereApart(t: (PageNum, PageNum))
      requires old(Pool()) && pages == old(pages) && t.0 in pages && t.1 in pages && t.0 != t.1
      ensures Parts(t.0) !! Parts(t.1) && Parts(t.1) <= old(Footprint())
    {
    }

    twostate lemma UntouchedPage(p: PageNum)
      requires old(Pool()) && pages == old(pages) && p in pages
      requires forall o :: o in Parts(p) ==> unchanged(o)
      ensures pages[p].Ok(order) && pages[p].Val(order) == old(pages[p].Val(order))
    {
      assert pages[p] in Parts(p) && pages[p].keys in Parts(p) && pages[p].rids in Parts(p);
    }

    /** Only page `p` was edited. */
    twostate lemma OnePageEdited(p: PageNum)
      requires old(Pool()) && pages == old(pages) && p in pages && pages[p].Ok(order)
      requires forall o :: o in old(Footprint()) && old(allocated(o)) && o !in Parts(p) ==> unchanged(o)
      ensures Pool() && Footprint() == old(Footprint()) && View() == old(View())[p := pages[p].Val(order)]
      ensures Slots()[p] == pages[p].rids[..]
    {
      forall q | q in pages && q != p ensures pages[q].Ok(order) && pages[q].Val(order) == old(pages[q].Val(order)) {
        WereApart((p, q));
        UntouchedPage(q);
      }
    }

    /** Only the two pages of `t` were edited. */
    twostate lemma TwoPagesEdited(t: (PageNum, PageNum))
      requires old(Pool()) && pages == old(pages) && t.0 in pages && t.1 in pages
      requires pages[t.0].Ok(order) && pages[t.1].Ok(order)
      requires forall o :: o in old(Footprint()) && old(allocated(o)) && o !in Parts(t.0) && o !in Parts(t.1) ==> unchanged(o)
      ensures Pool() && Footprint() == old(Footprint())
      ensures View() == old(View())[t.0 := pages[t.0].Val(order)][t.1 := pages[t.1].Val(order)]
      ensures Slots()[t.0] == pages[t.0].rids[..] && Slots()[t.1] == pages[t.1].rids[..]
    {
      forall q | q in pages && q != t.0 && q != t.1 ensures pages[q].Ok(order) && pages[q].Val(order) == old(pages[q].Val(order)) {
        WereApart((t.0, q));
        WereApart((t.1, q));
        UntouchedPage(q);
      }
    }

    /** A page was added to the pool and nothing else happened. */
    twostate lemma OnePageAdded(p: PageNum)
      requires old(Pool()) && Pool() && p !in old(pages) && p in pages && pages == old(pages)[p := pages[p]]
      requires forall q :: q in old(pages) ==> unchanged(pages[q]) && unchanged(pages[q].keys) && unchanged(pages[q].rids)
      ensures View() == old(View())[p := pages[p].Val(order)]
    {
      forall q | q in old(pages) ensures View()[q] == old(View())[q] {
      }
    }

    // -------------------------------------------------------------- reading one page

    predicate IsLeaf(p: PageNum)
      requires Pool() && p in View()
      reads this, Footprint()
      ensures IsLeaf(p) == View()[p].Leaf?
    {
      pages[p].isLeaf
    }

    function KeyNum(p: PageNum): (n: nat)
      requires Pool() && p in View()
      reads this, Footprint()
      ensures n == |View()[p].keys| < order
    {
      pages[p].keyNum
    }

    function ParentOf(p: PageNum): (q: PageNum)
      requires Pool() && p in View()
      reads this, Footprint()
      ensures q == View()[p].parent
    {
      pages[p].parent
    }

    function KeyAt(p: PageNum, i: nat): (k: Key)
      requires Pool() && p in View() && i < |View()[p].keys|
      reads this, Footprint()
      ensures k == View()[p].keys[i]
    {
      pages[p].keys[i]
    }

    function RidAt(p: PageNum, i: nat): (r: Rid)
      requires Pool() && p in View() && View()[p].Leaf? && i < |View()[p].keys|
      reads this, Footprint()
      ensures |View()[p].rids| == |View()[p].keys| && r == View()[p].rids[i]
    {
      pages[p].rids[i]
    }

    function NextOf(p: PageNum): (q: PageNum)
      requires Pool() && p in View() && View()[p].Leaf?
      reads this, Footprint()
      ensures q == View()[p].next
    {
      pages[p].rids[order - 1].page
    }

    function KidAt(p: PageNum, i: nat): (c: PageNum)
      requires Pool() && p in View() && View()[p].Inner? && i <= |View()[p].keys|
      reads this, Footprint()
      ensures |View()[p].kids| == |View()[p].keys| + 1 && c == View()[p].kids[i]
    {
      pages[p].rids[i].page
    }

    /** First slot whose key is greater, unless the key itself is met before. */
    method FindSlot(p: PageNum, k: Key) returns (pos: nat, found: bool)
      requires Pool() && p in View() && Strict(View()[p].keys)
      ensures Pool() && View() == old(View()) && Footprint() == old(Footprint())
      ensures found == (k in View()[p].keys)
      ensures !found ==> pos == Rank(View()[p].keys, k)
    {
      hide Pool, View, Footprint;
      ghost var ks := View()[p].keys;
      pos := 0;
      while pos < KeyNum(p)
        invariant pos <= |ks|
        invariant forall j :: 0 <= j < pos ==> Less(ks[j], k)
      {
        var tmp := CmpKey(k, KeyAt(p, pos));
        if tmp == 0 {
          return pos, true;
        }
        if tmp < 0 {
          break;
        }
        pos := pos + 1;
      }
      RankIs(ks, k, pos);
      return pos, false;
    }

    /** First slot whose key is greater. */
    method FindUpperSlot(p: PageNum, k: Key) returns (pos: nat)
      requires Pool() && p in View()
      ensures Pool() && View() == old(View()) && Footprint() == old(Footprint())
      ensures pos == Rank(View()[p].keys, k)
    {
      hide Pool, View, Footprint;
      ghost var ks := View()[p].keys;
      pos := 0;
      while pos < KeyNum(p)
        invariant pos <= |ks|
        invariant forall j :: 0 <= j < pos ==> !Less(k, ks[j])
      {
        var tmp := CmpKey(k, KeyAt(p, pos));
        if tmp < 0 {
          break;
        }
        pos := pos + 1;
      }
      RankIs(ks, k, pos);
    }

    /** Position of the child `c`. */
    method FindKid(p: PageNum, c: PageNum) returns (pos: nat)
      requires Pool() && p in View() && View()[p].Inner? && c in View()[p].kids
      ensures Pool() && View() == old(View()) && Footprint() == old(Footprint()) && Slots() == old(Slots())
      ensures pos == KidIndex(View()[p].kids, c) && pos <= |View()[p].keys|
    {
      hide Pool, View, Footprint;
      ghost var ks := View()[p].kids;
      ghost var e :| 0 <= e < |ks| && ks[e] == c;
      var first := KidAt(p, 0);
      pos := 0;
      while pos <= KeyNum(p) && KidAt(p, pos) != c
        invariant pos <= e
        invariant forall j :: 0 <= j < pos ==> ks[j] != c
      {
        pos := pos + 1;
      }
      KidIndexIs(ks, c, pos);
    }

    // -------------------------------------------------------------- writing pages

    /** The pool hands out a page number that is not in use; nothing is known of the page. */
    method AllocatePage() returns (np: PageNum)
      requires Pool()
      modifies this`pages
      ensures Pool() && np > 0 && np !in old(View()) && np in View()
      ensures View() == old(View())[np := View()[np]]
      ensures fresh(Footprint() - old(Footprint()))
    {
      hide PagesOf;
      np := allocate(pages.Keys);
      var node := new IndexNode(order);
      pages := pages[np := node];
      OnePageAdded(np);
    }

    method InsertLeafEntry(p: PageNum, pos: nat, k: Key, rid: Rid)
      requires Pool() && p in View() && View()[p].Leaf? && |View()[p].keys| < order - 1 && pos <= |View()[p].keys|
      modifies Footprint()
      ensures Footprint() == old(Footprint()) && rootPage == old(rootPage) && shape == old(shape)
      ensures Pool()
      ensures var n := old(View())[p]; |n.rids| == |n.keys| && View() == SetLeaf(old(View()), p, Put(n.keys, pos, k), Put(n.rids, pos, rid))
    {
      hide Pool, View, Footprint;
      PageIs(p);
      pages[p].InsertEntry(order, pos, k, rid);
      OnePageEdited(p);
    }

    method AttachKid(p: PageNum, pos: nat, k: Key, rightPage: PageNum)
      requires Pool() && p in View() && View()[p].Inner? && |View()[p].keys| < order - 1 && pos <= |View()[p].keys|
      modifies Footprint()
      ensures Footprint() == old(Footprint()) && rootPage == old(rootPage) && shape == old(shape)
      ensures Pool()
      ensures var n := old(View())[p]; |n.kids| == |n.keys| + 1 && View() == old(View())[p := Attach(n, pos, k, rightPage)]
    {
      hide Pool, View, Footprint;
      PageIs(p);
      pages[p].InsertKid(order, pos, k, rightPage);
      OnePageEdited(p);
    }

    /** A full leaf takes one more entry and hands its upper half to page `np`. */
    method CutLeaf(p: PageNum, pos: nat, k: Key, rid: Rid, np: PageNum)
      requires Pool() && p in View() && np in View() && np != p
      requires View()[p].Leaf? && |View()[p].keys| == order - 1 && pos < order
      modifies Footprint()
      ensures Footprint() == old(Footprint()) && rootPage == old(rootPage) && shape == old(shape)
      ensures Pool()
      ensures var n := old(View())[p];
              |n.rids| == |n.keys| &&
              var a := Leaf(n.parent, Put(n.keys, pos, k), Put(n.rids, pos, rid), n.next);
              CutOk(a, order / 2) && View() == old(View())[p := LeftHalf(a, order / 2, np)][np := RightHalf(a, order / 2)]
    {
      hide Pool, View, Footprint;
      PageIs(p);
      PageIs(np);
      PagesApart(p, np);
      var node, right := pages[p], pages[np];
      node.SplitLeaf(order, pos, k, rid, right, np);
      TwoPagesEdited((p, np));
    }

    /** A full inner page takes one more child and hands its upper half to page `np`. */
    method CutInner(p: PageNum, pos: nat, k: Key, rightPage: PageNum, np: PageNum) returns (middle: Key)
      requires Pool() && p in View() && np in View() && np != p
      requires View()[p].Inner? && |View()[p].keys| == order - 1 && pos < order
      modifies Footprint()
      ensures Footprint() == old(Footprint()) && rootPage == old(rootPage) && shape == old(shape)
      ensures Pool()
      ensures var n := old(View())[p];
              |n.kids| == |n.keys| + 1 &&
              var a := Attach(n, pos, k, rightPage);
              var m := (order + 1) / 2 - 1;
              CutOk(a, m) && middle == a.keys[m]
              && View() == old(View())[p := LeftHalf(a, m, np)][np := RightHalf(a, m)]
    {
      hide Pool, View, Footprint, Attach, LeftHalf, RightHalf, CutOk, Put, PagesOf;
      PageIs(p);
      PageIs(np);
      PagesApart(p, np);
      AttachIsPut(View()[p], pos, k, rightPage);
      var node, right := pages[p], pages[np];
      middle := node.SplitInner(order, pos, k, rightPage, right);
      LeftHalfInner(Attach(old(View())[p], pos, k, rightPage), (order + 1) / 2 - 1, 0, np);
      TwoPagesEdited((p, np));
    }

    method SetParent(c: PageNum, q: PageNum)
      requires Pool() && c in View()
      modifies Footprint()
      ensures Footprint() == old(Footprint()) && rootPage == old(rootPage) && shape == old(shape)
      ensures Pool() && View() == old(View())[c := old(View())[c].(parent := q)]
    {
      hide Pool, View, Footprint;
      PageIs(c);
      pages[c].parent := q;
      OnePageEdited(c);
    }

    /** The children from position `from` on change their parent to `q`, one page at a time. */
    method ReparentKids(node: PageNum, q: PageNum, from: nat)
      requires Pool() && node in View() && View()[node].Inner?
      requires forall c :: c in View()[node].kids ==> c in View() && c != node
      requires from <= |View()[node].kids| == |View()[node].keys| + 1
      modifies Footprint()
      ensures Footprint() == old(Footprint()) && rootPage == old(rootPage) && shape == old(shape)
      ensures Pool() && View() == Reparent(old(View()), old(View())[node].kids[from..], q)
    {
      hide Pool, View, Footprint, Reparent;
      ghost var v, ks := View(), View()[node].kids[from..];
      var i := from;
      ReparentNone(v, q);
      assert ks[..0] == [];
      while i <= KeyNum(node)
        invariant from <= i <= |v[node].kids|
        invariant Footprint() == old(Footprint()) && rootPage == old(rootPage) && shape == old(shape) && Pool() && View() == Reparent(v, ks[..i - from], q)
        invariant node in View() && View()[node] == v[node]
      {
        var c := KidAt(node, i);
        assert c == ks[i - from] && c in v[node].kids;
        SetParent(c, q);
        ReparentMore(v, ks, i - from, q);
        i := i + 1;
      }
      assert ks[..|ks|] == ks;
    }

    /** A page becomes an inner page over two children. */
    method MakeRoot(nr: PageNum, leftPage: PageNum, k: Key, rightPage: PageNum)
      requires Pool() && nr in View()
      modifies Footprint()
      ensures Footprint() == old(Footprint()) && rootPage == old(rootPage) && shape == old(shape)
      ensures Pool() && View() == old(View())[nr := Inner(NO_PARENT, [k], [leftPage, rightPage])]
    {
      hide Pool, View, Footprint, PagesOf;
      PageIs(nr);
      var root := pages[nr];
      root.isLeaf := false;
      root.keyNum := 1;
      root.parent := NO_PARENT;
      root.keys[0] := k;
      root.rids[0] := Rid(leftPage, -1);
      root.rids[1] := Rid(rightPage, -1);
      assert root.keys[..1] == [k] && root.Kids(order) == [leftPage, rightPage];
      OnePageEdited(nr);
    }

    // -------------------------------------------------------------- insertion climbs the tree

    method InsertInternNode(parentPage: PageNum, leftPage: PageNum, rightPage: PageNum, k: Key)
      requires Pool() && parentPage in View() && View()[parentPage].Inner? && |View()[parentPage].keys| < order - 1
      requires leftPage in View()[parentPage].kids
      modifies Footprint()
      ensures Footprint() == old(Footprint()) && rootPage == old(rootPage) && shape == old(shape)
      ensures Pool()
      ensures var n := old(View())[parentPage];
              |n.kids| == |n.keys| + 1 && KidIndex(n.kids, leftPage) < |n.kids|
              && View() == old(View())[parentPage := Attach(n, KidIndex(n.kids, leftPage), k, rightPage)]
    {
      hide Pool, View, Footprint, Attach;
      var pos := FindKid(parentPage, leftPage);
      AttachKid(parentPage, pos, k, rightPage);
    }

    /** The page work of an inner split: a new right sibling, and parent pointers of the children that move. */
    method SplitInternNode(page: PageNum, leftPage: PageNum, rightPage: PageNum, k: Key) returns (np: PageNum, middle: Key)
      requires Pool() && page in View() && View()[page].Inner? && |View()[page].keys| == order - 1
      requires leftPage in View()[page].kids
      requires rightPage in View() && rightPage != page
      requires forall c :: c in View()[page].kids ==> c in View() && c != page
      modifies this`pages, Footprint()
      ensures Pool() && np > 0 && np !in old(View()) && fresh(Footprint() - old(Footprint())) && rootPage == old(rootPage)
      ensures var n := old(View())[page];
              var i := KidIndex(n.kids, leftPage);
              |n.kids| == |n.keys| + 1 && i < |n.kids| &&
              var a := Attach(n, i, k, rightPage);
              var m := (order + 1) / 2 - 1;
              CutOk(a, m) && middle == a.keys[m] && View() == Halved(old(View())[page := a], page, m, np)
    {
      hide Pool, View, Footprint, Attach, LeftHalf, RightHalf, CutOk, Halved, Reparent;
      ghost var v := View();
      np := AllocatePage();
      ghost var v1 := View();
      var pos := FindKid(page, leftPage);
      middle := CutInner(page, pos, k, rightPage, np);
      ghost var m := (order + 1) / 2 - 1;
      ghost var a := Attach(v[page], pos, k, rightPage);
      MovedKids(v[page], pos, k, rightPage, m);
      HalvedFrom(v, v1, page, a, m, np);
      ReparentKids(np, np, 0);
    }

    /** Page `nr` becomes the parent of both pages. */
    method LinkRoot(nr: PageNum, leftPage: PageNum, k: Key, rightPage: PageNum)
      requires Pool() && nr in View() && leftPage in View() && rightPage in View() && leftPage != rightPage && nr != leftPage && nr != rightPage
      modifies Footprint()
      ensures Footprint() == old(Footprint()) && rootPage == old(rootPage) && shape == old(shape)
      ensures Pool() && View() == NewRootPages(old(View()), leftPage, rightPage, nr, k)
    {
      hide Pool, View, Footprint;
      MakeRoot(nr, leftPage, k, rightPage);
      SetParent(leftPage, nr);
      SetParent(rightPage, nr);
    }

    method InsertIntoNewRoot(leftPage: PageNum, k: Key, rightPage: PageNum)
      requires Pool() && leftPage in View() && rightPage in View() && leftPage != rightPage
      modifies this, Footprint()
      ensures Pool() && fresh(Footprint() - old(Footprint()))
      ensures rootPage > 0 && rootPage !in old(View())
      ensures View() == NewRootPages(old(View()), leftPage, rightPage, rootPage, k)
    {
      hide Pool, View, Footprint;
      var nr := AllocatePage();
      LinkRoot(nr, leftPage, k, rightPage);
      SetRoot(nr);
    }

    method SetRoot(p: PageNum)
      requires Pool()
      modifies this`rootPage
      ensures rootPage == p && Pool() && View() == old(View()) && Footprint() == old(Footprint())
    {
      rootPage := p;
    }

    /** What the pool holds after the climb, and which tree that is. */
    ghost predicate Climbed(w: Pages, v': Pages, sh': Shape, v: Pages, sh: Shape, f: Key -> Key)
      reads this`rootPage
    {
      w == MapKeys(v', f) && WellFormed(order, v', rootPage, sh') && Kept(v, sh, v', sh')
    }

    method InsertIntoParent(parentPage: PageNum, leftPage: PageNum, k: Key, rightPage: PageNum, ghost v: Pages, ghost sh: Shape, ghost f: Key -> Key)
      returns (ghost v': Pages, ghost sh': Shape)
      requires Pool() && Climbing(order, View(), v, rootPage, sh, leftPage, rightPage, f)
      requires parentPage == v[leftPage].parent && k == f(v[leftPage].keys[CutPoint(order, v[leftPage])])
      modifies this, Footprint()
      ensures Pool() && fresh(Footprint() - old(Footprint()))
      ensures Climbed(View(), v', sh', v, sh, f)
      decreases if leftPage in sh.at then Higher(sh, leftPage) else {}, 1
    {
      hide Pool, View, Footprint;
      ParentTells(v, rootPage, sh, leftPage);
      ghost var m := CutPoint(order, v[leftPage]);
      if parentPage == NO_PARENT {
        hide Tree, Sized, Kept, NewRootPages, Halved;
        ghost var h := Halved(v, leftPage, m, rightPage);
        HalvedHas(v, leftPage, m, rightPage);
        InsertIntoNewRoot(leftPage, k, rightPage);
        NewRootView(h, leftPage, rightPage, rootPage, v[leftPage].keys[m], f);
        sh' := NewRootTree(order, v, leftPage, sh, rightPage, rootPage);
        v' := NewRootPages(h, leftPage, rightPage, rootPage, v[leftPage].keys[m]);
      } else {
        v', sh' := ClimbStep(order, View(), v, rootPage, sh, leftPage, rightPage, f);
        hide Climbing, Attach, MapKeys, Overfull;
        if KeyNum(parentPage) < order - 1 {
          InsertInternNode(parentPage, leftPage, rightPage, k);
        } else {
          v', sh' := InsertInternNodeAfterSplit(parentPage, leftPage, rightPage, k, v, sh, f);
        }
      }
    }

    method InsertInternNodeAfterSplit(page: PageNum, leftPage: PageNum, rightPage: PageNum, k: Key, ghost v: Pages, ghost sh: Shape, ghost f: Key -> Key)
      returns (ghost v': Pages, ghost sh': Shape)
      requires Pool() && Climbing(order, View(), v, rootPage, sh, leftPage, rightPage, f)
      requires leftPage != rootPage && page == v[leftPage].parent && k == f(v[leftPage].keys[CutPoint(order, v[leftPage])])
      requires page in View() && |View()[page].keys| == order - 1
      modifies this, Footprint()
      ensures Pool() && fresh(Footprint() - old(Footprint()))
      ensures Climbed(View(), v', sh', v, sh, f)
      decreases if leftPage in sh.at then Higher(sh, leftPage) else {}, 0
    {
      hide Pool, View, Footprint, Tree, Sized, Kept, Halved, Attach;
      ghost var v1, sh1 := ClimbStep(order, View(), v, rootPage, sh, leftPage, rightPage, f);
      hide Climbing, MapKeys, Overfull, WellFormed;
      var np, middle := SplitInternNode(page, leftPage, rightPage, k);
      ghost var f0, f1 := old(Footprint()), Footprint();
      label L:
      ClimbAgain(order, v1, rootPage, sh1, page, np, f);
      v', sh' := InsertIntoParent(ParentOf(page), page, middle, np, v1, sh1, f);
      ghost var grown := Footprint() - f1;
      assert fresh@L(grown);
      assert fresh(grown);
      FreshTwice((f0, f1, Footprint(), grown));
      KeptTrans(v, sh, v1, sh1, v', sh');
    }

    // -------------------------------------------------------------- searching

    /** The leaf responsible for `k`. */
    method FindLeaf(k: Key) returns (p: PageNum)
      requires Valid()
      ensures Pool() && View() == old(View()) && Footprint() == old(Footprint())
      ensures Owns(View(), shape, p, k) && View()[p].Leaf?
    {
      hide Pool, View, Footprint, Tree, Sized;
      ghost var v := View();
      RootOwns(v, rootPage, shape, k);
      p := rootPage;
      while !IsLeaf(p)
        invariant Pool() && View() == v && Footprint() == old(Footprint())
        invariant Owns(v, shape, p, k)
        decreases if p in shape.at then shape.at[p].height else 0
      {
        var i := FindUpperSlot(p, k);
        Descend(v, rootPage, shape, p, k, i);
        p := KidAt(p, i);
      }
    }

    /** First separator with a greater attribute, unless the attribute itself is met before. */
    method FindAttrSlot(p: PageNum, a: int) returns (pos: nat, found: bool)
      requires Pool() && p in View()
      ensures Pool() && View() == old(View()) && Footprint() == old(Footprint())
      ensures pos <= |View()[p].keys| && forall j :: 0 <= j < pos ==> View()[p].keys[j].attr < a
      ensures pos < |View()[p].keys| ==> if found then View()[p].keys[pos].attr == a else a < View()[p].keys[pos].attr
      ensures found ==> pos < |View()[p].keys|
    {
      hide Pool, View, Footprint;
      pos := 0;
      while pos < KeyNum(p)
        invariant pos <= |View()[p].keys|
        invariant forall j :: 0 <= j < pos ==> View()[p].keys[j].attr < a
      {
        var tmp := CompareAttr(a, KeyAt(p, pos).attr);
        if tmp == 0 {
          return pos, true;
        }
        if tmp < 0 {
          return pos, false;
        }
        pos := pos + 1;
      }
      return pos, false;
    }

    /** Whether some key of page `p` has attribute `a`. */
    method HasAttrOnPage(p: PageNum, a: int) returns (found: bool)
      requires Pool() && p in View()
      ensures Pool() && View() == old(View()) && Footprint() == old(Footprint())
      ensures found == HasAttr(View()[p].keys, a)
    {
      hide Pool, View, Footprint;
      var i := 0;
      while i < KeyNum(p)
        invariant i <= |View()[p].keys|
        invariant forall j :: 0 <= j < i ==> View()[p].keys[j].attr != a
      {
        var tmp := CompareAttr(a, KeyAt(p, i).attr);
        if tmp == 0 {
          return true;
        }
        i := i + 1;
      }
      return false;
    }

    /**
     The leaf for `k` if no attribute equal to that of `k` is met on the way. It is refused exactly when
     the attribute is stored, or is the attribute of some separator.
     */
    method FindLeafUnique(k: Key) returns (rc: RC, p: PageNum)
      requires Valid()
      ensures Pool() && View() == old(View()) && Footprint() == old(Footprint())
      ensures rc == SUCCESS || rc == INVALID_ARGUMENT
      ensures rc == SUCCESS ==> Owns(View(), shape, p, k) && View()[p].Leaf? && !HasAttr(Entries(), k.attr)
      ensures rc == INVALID_ARGUMENT <==> HasAttr(Entries(), k.attr) || HasSeparator(View(), k.attr)
    {
      hide Pool, View, Footprint, Tree, Sized, Content;
      ghost var v := View();
      RootOwns(v, rootPage, shape, k);
      RootInside(v, rootPage, shape, k.attr);
      p := rootPage;
      while !IsLeaf(p)
        invariant Pool() && View() == v && Footprint() == old(Footprint())
        invariant Owns(v, shape, p, k) && AttrInside(shape.at[p], k.attr)
        decreases if p in shape.at then shape.at[p].height else 0
      {
        var i, found := FindAttrSlot(p, k.attr);
        if found {
          return INVALID_ARGUMENT, p;
        }
        DescendUnique(v, rootPage, shape, p, k, i);
        Descend(v, rootPage, shape, p, k, i);
        p := KidAt(p, i);
      }
      UniqueAbsent(v, rootPage, shape, p, k.attr);
      NoSeparatorMet(v, rootPage, shape, p, k.attr);
      var found := HasAttrOnPage(p, k.attr);
      return if found then INVALID_ARGUMENT else SUCCESS, p;
    }

    /** The leftmost leaf. */
    method GetFirstLeafPage() returns (p: PageNum)
      requires Valid()
      ensures Pool() && View() == old(View()) && Footprint() == old(Footprint())
      ensures |shape.leaves| > 0 && p == shape.leaves[0] && p in View() && View()[p].Leaf?
    {
      hide Pool, View, Footprint, Sized;
      ghost var v := View();
      p := rootPage;
      assert p in v && p in shape.at && shape.at[p].lo == NegInf && |shape.leaves| > 0;
      hide Tree;
      while !IsLeaf(p)
        invariant Pool() && View() == v && Footprint() == old(Footprint())
        invariant p in v && p in shape.at && shape.at[p].lo == NegInf
        decreases if p in shape.at then shape.at[p].height else 0
      {
        DescendFirst(v, rootPage, shape, p);
        p := KidAt(p, 0);
      }
      FirstLeaf(v, rootPage, shape, p);
    }

    /** Looks a key up; the answer is exact, and the record identifier returned is the one stored beside the key. */
    method GetEntry(k: Key) returns (rc: RC, rid: Rid)
      requires Valid()
      ensures Pool() && View() == old(View()) && Footprint() == old(Footprint())
      ensures rc == if k in Entries() then SUCCESS else RECORD_INVALID_KEY
      ensures rc == SUCCESS ==> Beside(View(), k, rid)
      ensures rc == SUCCESS && Aligned(View()) ==> rid == k.rid
    {
      hide Pool, View, Footprint, Tree, Sized, Content;
      var p := FindLeaf(k);
      LeafDecides(View(), rootPage, shape, p, k);
      var i := 0;
      while i < KeyNum(p)
        invariant i <= |View()[p].keys|
        invariant forall j :: 0 <= j < i ==> View()[p].keys[j] != k
      {
        var tmp := CmpKey(k, KeyAt(p, i));
        if tmp == 0 {
          return SUCCESS, RidAt(p, i);
        }
        i := i + 1;
      }
      return RECORD_INVALID_KEY, k.rid;
    }

    // -------------------------------------------------------------- insertion

    method InsertIntoLeaf(p: PageNum, k: Key, rid: Rid) returns (rc: RC)
      requires Pool() && p in View() && View()[p].Leaf? && |View()[p].keys| < order - 1
      requires Strict(View()[p].keys)
      modifies Footprint()
      ensures Footprint() == old(Footprint()) && rootPage == old(rootPage) && shape == old(shape)
      ensures Pool()
      ensures rc == if k in old(View())[p].keys then RECORD_DUPLICATE_KEY else SUCCESS
      ensures View() == if rc != SUCCESS then old(View())
                        else var n := old(View())[p]; SetLeaf(old(View()), p, Put(n.keys, Rank(n.keys, k), k), Put(n.rids, if Rank(n.keys, k) <= |n.rids| then Rank(n.keys, k) else 0, rid))
    {
      hide Pool, View, Footprint;
      var pos, found := FindSlot(p, k);
      if found {
        return RECORD_DUPLICATE_KEY;
      }
      InsertLeafEntry(p, pos, k, rid);
      return SUCCESS;
    }

    /** The page work of a leaf split. */
    method SplitLeafPage(p: PageNum, k: Key, rid: Rid) returns (np: PageNum)
      requires Pool() && p in View() && View()[p].Leaf? && |View()[p].keys| == order - 1
      modifies this`pages, Footprint()
      ensures Pool() && np > 0 && np !in old(View()) && fresh(Footprint() - old(Footprint())) && rootPage == old(rootPage)
      ensures var n := old(View())[p];
              |n.rids| == |n.keys| &&
              var i := Rank(n.keys, k);
              var x := Leaf(n.parent, Put(n.keys, i, k), Put(n.rids, i, rid), n.next);
              CutOk(x, order / 2) && np in View()
              && View() == old(View())[np := View()[np]][p := LeftHalf(x, order / 2, np)][np := RightHalf(x, order / 2)]
    {
      hide Pool, View, Footprint, LeftHalf, RightHalf, CutOk, Put;
      np := AllocatePage();
      var pos := FindUpperSlot(p, k);
      CutLeaf(p, pos, k, rid, np);
    }

    /** Splits the leaf without asking whether the key is there already; `v` is the tree with the leaf still whole. */
    method InsertIntoLeafAfterSplit(p: PageNum, k: Key, rid: Rid, ghost v: Pages, ghost sh: Shape, ghost f: Key -> Key)
      returns (ghost v': Pages, ghost sh': Shape)
      requires Pool() && p in View() && View()[p].Leaf? && |View()[p].keys| == order - 1 == |View()[p].rids|
      requires order >= 3 && Overfull(order, v, rootPage, sh, p)
      requires var n := View()[p]; MapKeys(v, f) == SetLeaf(View(), p, Put(n.keys, Rank(n.keys, k), k), Put(n.rids, Rank(n.keys, k), rid))
      modifies this, Footprint()
      ensures Pool() && fresh(Footprint() - old(Footprint()))
      ensures Climbed(View(), v', sh', v, sh, f)
    {
      hide Pool, View, Footprint, Tree, Sized, Kept, Put;
      ghost var v0 := View();
      var np := SplitLeafPage(p, k, rid);
      ghost var f0, f1 := old(Footprint()), Footprint();
      OverfullCut(order, v, rootPage, sh, p);
      LeafClimb(order, v0, View(), v, rootPage, sh, p, np, f);
      var newKey, parent := KeyAt(np, 0), ParentOf(p);
      hide Climbing, Overfull, MapKeys, SetLeaf, LeftHalf, RightHalf, Climbed, CutOk, Reparent, CutPoint, MapNode, MapSeq;
      label L:
      v', sh' := InsertIntoParent(parent, p, newKey, np, v, sh, f);
      ghost var grown := Footprint() - f1;
      assert fresh@L(grown);
      assert fresh(grown);
      FreshTwice((f0, f1, Footprint(), grown));
    }

    /** The leaf has room. */
    method InsertWithRoom(p: PageNum, k: Key) returns (rc: RC)
      requires Valid() && Owns(View(), shape, p, k) && View()[p].Leaf? && |View()[p].keys| < order - 1
      modifies Footprint()
      ensures Valid() && Footprint() == old(Footprint())
      ensures rc == if k in old(Entries()) then RECORD_DUPLICATE_KEY else SUCCESS
      ensures rc != SUCCESS ==> View() == old(View()) && shape == old(shape)
      ensures rc == SUCCESS ==> Gained(old(View()), old(shape), k, View(), shape)
    {
      ghost var v := View();
      LeafSorted(v, rootPage, shape, p);
      LeafDecides(v, rootPage, shape, p, k);
      hide Pool, View, Footprint, Tree, Sized, Content, Gained;
      rc := InsertIntoLeaf(p, k, k.rid);
      if rc == SUCCESS {
        WithKeyTree(order, v, rootPage, shape, p, k);
      }
    }

    /** The tree the split of a full leaf works on, and how its keys read: the old one and `k`, or the old one with twins told apart. */
    lemma SplitPlan(p: PageNum, k: Key) returns (v0: Pages, sh0: Shape, f: Key -> Key)
      requires Valid() && Owns(View(), shape, p, k) && View()[p].Leaf? && |View()[p].keys| == order - 1
      ensures order >= 3 && |View()[p].rids| == |View()[p].keys| && Overfull(order, v0, rootPage, sh0, p)
      ensures var n := View()[p]; MapKeys(v0, f) == SetLeaf(View(), p, Put(n.keys, Rank(n.keys, k), k), Put(n.rids, Rank(n.keys, k), k.rid))
      ensures k !in Entries() ==> Gained(View(), shape, k, v0, sh0) && forall x :: f(x) == x
      ensures k in Entries() ==> f == Halve && Double(k) in Content(v0, sh0) && Odd(k) in Content(v0, sh0)
    {
      var v := View();
      LeafDecides(v, rootPage, shape, p, k);
      LeafSorted(v, rootPage, shape, p);
      OrderAtLeast();
      hide Pool, View, Footprint, Tree, Sized, Content, Gained, Kept;
      if k in v[p].keys {
        f := Halve;
        v0, sh0 := TwinTree(order, v, rootPage, shape, p, k, Put(v[p].rids, Rank(v[p].keys, k), k.rid));
      } else {
        f := Same();
        v0, sh0 := WithKey(v, p, k), shape;
        WithKeyTree(order, v, rootPage, shape, p, k);
        MapSame(v0, f);
      }
    }

    /** The leaf is full: a new key goes in, a key that is there already ends up twice in the index. */
    method InsertWithSplit(p: PageNum, k: Key)
      requires Valid() && Owns(View(), shape, p, k) && View()[p].Leaf? && |View()[p].keys| == order - 1
      modifies this, Footprint()
      ensures Pool() && fresh(Footprint() - old(Footprint()))
      ensures k !in old(Entries()) ==> Valid() && Gained(old(View()), old(shape), k, View(), shape)
      ensures k in old(Entries()) ==> forall r, s :: !Tree(View(), r, s)
    {
      hide Pool, View, Footprint, Tree, Sized, Content, Gained, Kept, SetLeaf, Put, Overfull;
      ghost var v, sh := View(), shape;
      ghost var v0, sh0, f := SplitPlan(p, k);
      ghost var v', sh' := InsertIntoLeafAfterSplit(p, k, k.rid, v0, sh0, f);
      if k in Content(v, sh) {
        KeptContent(v0, sh0, v', sh');
        TwinsBreak(v', rootPage, sh', k);
      } else {
        MapSame(v', f);
        GainedKept(v, sh, k, v0, sh0, v', sh');
        SetShape(sh');
      }
    }

    // -------------------------------------------------------------- taking keys out of pages

    /** Closes slot `at`. */
    method RemoveSlot(p: PageNum, at: nat)
      requires Pool() && p in View() && at < |View()[p].keys|
      modifies Footprint()
      ensures Footprint() == old(Footprint()) && rootPage == old(rootPage) && shape == old(shape)
      ensures Pool()
      ensures Shaped(old(View())[p]) && View() == old(View())[p := Removed(old(View())[p], at)]
      ensures Residue(order, Slots()[p], old(View())[p], at)
    {
      hide Pool, View, Footprint;
      PageIs(p);
      pages[p].RemoveKey(order, at);
      OnePageEdited(p);
    }

    method DeleteEntryFromNode(p: PageNum, k: Key) returns (rc: RC, ghost at: nat)
      requires Pool() && p in View()
      modifies Footprint()
      ensures Footprint() == old(Footprint()) && rootPage == old(rootPage) && shape == old(shape)
      ensures Pool()
      ensures rc == if k in old(View())[p].keys then SUCCESS else RECORD_INVALID_KEY
      ensures rc != SUCCESS ==> View() == old(View())
      ensures rc == SUCCESS ==> var n := old(View())[p];
              && Shaped(n) && at < |n.keys| < order && n.keys[at] == k
              && View() == old(View())[p := Removed(n, at)]
              && Residue(order, Slots()[p], n, at)
    {
      hide Pool, View, Footprint, Slots;
      ghost var ks := View()[p].keys;
      var i := 0;
      at := 0;
      while i < KeyNum(p)
        invariant i <= |ks| && forall j :: 0 <= j < i ==> ks[j] != k
      {
        var tmp := CmpKey(k, KeyAt(p, i));
        if tmp == 0 {
          break;
        }
        i := i + 1;
      }
      if i >= KeyNum(p) {
        return RECORD_INVALID_KEY, 0;
      }
      at := i;
      RemoveSlot(p, i);
      return SUCCESS, i;
    }

    method DisposePage(p: PageNum)
      requires Pool() && p in View()
      modifies this`pages
      ensures Pool() && View() == old(View()) - {p} && Footprint() <= old(Footprint())
    {
      pages := pages - {p};
    }

    method SetSeparator(q: PageNum, d: nat, k: Key)
      requires Pool() && q in View() && View()[q].Inner? && d < |View()[q].keys|
      modifies Footprint()
      ensures Footprint() == old(Footprint()) && rootPage == old(rootPage) && shape == old(shape)
      ensures Pool() && View() == old(View())[q := SetKey(old(View())[q], d, k)]
    {
      hide Pool, View, Footprint;
      PageIs(q);
      pages[q].keys[d] := k;
      OnePageEdited(q);
    }

    /** The first entry of a leaf goes to the end of the leaf left of it. */
    method MoveEntryLeft(l: PageNum, r: PageNum)
      requires Pool() && l in View() && r in View() && l != r && View()[l].Leaf? && View()[r].Leaf?
      requires |View()[l].keys| < order - 1 && |View()[r].keys| > 0
      modifies Footprint()
      ensures Footprint() == old(Footprint()) && rootPage == old(rootPage) && shape == old(shape)
      ensures Pool() && Shaped(old(View())[l]) && Shaped(old(View())[r])
      ensures var a, b := old(View())[l], old(View())[r];
              View() == old(View())[l := Leaf(a.parent, a.keys + [b.keys[0]], a.rids + [b.rids[0]], a.next)]
                                   [r := Leaf(b.parent, b.keys[1..], b.rids[1..], b.next)]
    {
      hide Pool, View, Footprint;
      PageIs(l);
      PageIs(r);
      PagesApart(l, r);
      var left, right := pages[l], pages[r];
      left.TakeEntry(order, right);
      TwoPagesEdited((l, r));
    }

    /** The last key of a leaf goes to the front of the leaf right of it; its record identifier is not copied. */
    method MoveKeyRight(l: PageNum, r: PageNum)
      requires Pool() && l in View() && r in View() && l != r && View()[l].Leaf? && View()[r].Leaf?
      requires |View()[l].keys| > 0 && |View()[r].keys| < order - 1
      modifies Footprint()
      ensures Footprint() == old(Footprint()) && rootPage == old(rootPage) && shape == old(shape)
      ensures Pool() && Shaped(old(View())[l]) && Shaped(old(View())[r])
      ensures var a, b := old(View())[l], old(View())[r]; var n := |a.keys| - 1;
              View() == old(View())[l := Leaf(a.parent, a.keys[..n], a.rids[..n], a.next)]
                                   [r := Leaf(b.parent, [a.keys[n]] + b.keys, [old(Slots())[r][0]] + b.rids, b.next)]
    {
      hide Pool, View, Footprint;
      PageIs(l);
      PageIs(r);
      PagesApart(l, r);
      var left, right := pages[l], pages[r];
      left.GiveKey(order, right);
      TwoPagesEdited((l, r));
    }

    /** The first child of an inner page goes to the end of the inner page left of it, below the separator `sep`. */
    method MoveKidLeft(l: PageNum, r: PageNum, sep: Key)
      requires Pool() && l in View() && r in View() && l != r && View()[l].Inner? && View()[r].Inner?
      requires |View()[l].keys| < order - 1 && |View()[r].keys| > 0
      modifies Footprint()
      ensures Footprint() == old(Footprint()) && rootPage == old(rootPage) && shape == old(shape)
      ensures Pool() && Shaped(old(View())[l]) && Shaped(old(View())[r])
      ensures var a, b := old(View())[l], old(View())[r]; var n := |b.keys|;
              View() == old(View())[l := Inner(a.parent, a.keys + [sep], a.kids + [b.kids[0]])]
                                   [r := Inner(b.parent, b.keys[1..], b.kids[1..n] + [b.kids[n - 1]])]
    {
      hide Pool, View, Footprint, PagesOf;
      PageIs(l);
      PageIs(r);
      PagesApart(l, r);
      var left, right := pages[l], pages[r];
      left.TakeKid(order, right, sep);
      TwoPagesEdited((l, r));
    }

    /** The last child of an inner page goes to the front of the inner page right of it, with the separator `sep`. */
    method MoveKidRight(l: PageNum, r: PageNum, sep: Key)
      requires Pool() && l in View() && r in View() && l != r && View()[l].Inner? && View()[r].Inner?
      requires |View()[l].keys| > 0 && |View()[r].keys| < order - 1
      modifies Footprint()
      ensures Footprint() == old(Footprint()) && rootPage == old(rootPage) && shape == old(shape)
      ensures Pool() && Shaped(old(View())[l]) && Shaped(old(View())[r])
      ensures var a, b := old(View())[l], old(View())[r]; var n := |a.keys| - 1;
              View() == old(View())[l := Inner(a.parent, a.keys[..n], a.kids[..n + 1])]
                                   [r := Inner(b.parent, [sep] + b.keys, [a.kids[n + 1]] + b.kids[..|b.keys|] + [old(Slots())[r][|b.keys| + 1].page])]
    {
      hide Pool, View, Footprint;
      PageIs(l);
      PageIs(r);
      PagesApart(l, r);
      var left, right := pages[l], pages[r];
      left.GiveKid(order, right, sep);
      TwoPagesEdited((l, r));
    }

    /** The right page is appended to the left one. */
    method AppendPage(l: PageNum, r: PageNum, sep: Key)
      requires Pool() && l in View() && r in View() && l != r && View()[l].Leaf? == View()[r].Leaf?
      requires |View()[l].keys| + |View()[r].keys| + (if View()[l].Leaf? then 0 else 1) < order
      modifies Footprint()
      ensures Footprint() == old(Footprint()) && rootPage == old(rootPage) && shape == old(shape)
      ensures Pool() && View() == old(View())[l := MergeNode(old(View())[l], old(View())[r], sep)]
    {
      hide Pool, View, Footprint;
      PageIs(l);
      PageIs(r);
      PagesApart(l, r);
      var left, right := pages[l], pages[r];
      if left.isLeaf {
        left.AbsorbLeaf(order, right);
      } else {
        left.AbsorbInner(order, right, sep);
      }
      OnePageEdited(l);
    }

    /** The separator right of child `c`. */
    method FindSeparator(q: PageNum, c: PageNum) returns (k: nat)
      requires Pool() && q in View() && View()[q].Inner? && KidIndex(View()[q].kids, c) < |View()[q].keys|
      ensures Pool() && View() == old(View()) && Footprint() == old(Footprint()) && Slots() == old(Slots())
      ensures k == KidIndex(View()[q].kids, c)
    {
      hide Pool, View, Footprint, Slots;
      ghost var ks := View()[q].kids;
      k := 0;
      while k < KeyNum(q) && KidAt(q, k) != c
        invariant k <= KidIndex(ks, c)
      {
        k := k + 1;
      }
    }

    // -------------------------------------------------------------- borrowing from a sibling

    method LeafFromRight(l: PageNum, r: PageNum, q: PageNum, k: nat)
      requires Pool() && Pair(View(), q, k) && l == View()[q].kids[k] && r == View()[q].kids[k + 1] && l != r && q != l && q != r
      requires View()[l].Leaf? && |View()[l].keys| < order - 1 && |View()[r].keys| > 1
      modifies Footprint()
      ensures Footprint() == old(Footprint()) && rootPage == old(rootPage) && shape == old(shape)
      ensures Pool() && View() == LeafTakesRight(old(View()), q, k)
    {
      hide Pool, View, Footprint, Slots;
      MoveEntryLeft(l, r);
      SetSeparator(q, k, KeyAt(r, 0));
    }

    method LeafFromLeft(l: PageNum, r: PageNum, q: PageNum, k: nat)
      requires Pool() && Pair(View(), q, k) && l == View()[q].kids[k] && r == View()[q].kids[k + 1] && l != r && q != l && q != r
      requires View()[l].Leaf? && |View()[l].keys| > 0 && |View()[r].keys| < order - 1
      modifies Footprint()
      ensures Footprint() == old(Footprint()) && rootPage == old(rootPage) && shape == old(shape)
      ensures Pool() && |old(Slots())[r]| > 0 && View() == LeafTakesLeft(old(View()), q, k, old(Slots())[r][0])
    {
      hide Pool, View, Footprint, Slots;
      MoveKeyRight(l, r);
      SetSeparator(q, k, KeyAt(r, 0));
    }

    method InnerFromRight(l: PageNum, r: PageNum, q: PageNum, k: nat)
      requires Pool() && Pair(View(), q, k) && l == View()[q].kids[k] && r == View()[q].kids[k + 1] && l != r && q != l && q != r
      requires View()[l].Inner? && |View()[l].keys| < order - 1 && |View()[r].keys| > 0 && View()[r].kids[0] in View()
      modifies Footprint()
      ensures Footprint() == old(Footprint()) && rootPage == old(rootPage) && shape == old(shape)
      ensures Pool() && View() == InnerTakesRight(old(View()), q, k)
    {
      hide Pool, View, Footprint, Slots;
      var up := KeyAt(r, 0);
      MoveKidLeft(l, r, KeyAt(q, k));
      SetSeparator(q, k, up);
      SetParent(KidAt(l, KeyNum(l)), l);
    }

    method InnerFromLeft(l: PageNum, r: PageNum, q: PageNum, k: nat)
      requires Pool() && Pair(View(), q, k) && l == View()[q].kids[k] && r == View()[q].kids[k + 1] && l != r && q != l && q != r
      requires View()[l].Inner? && |View()[l].keys| > 0 && |View()[r].keys| < order - 1 && View()[l].kids[|View()[l].keys|] in View()
      modifies Footprint()
      ensures Footprint() == old(Footprint()) && rootPage == old(rootPage) && shape == old(shape)
      ensures Pool() && |old(View())[r].keys| + 1 < |old(Slots())[r]|
      ensures View() == InnerTakesLeft(old(View()), q, k, old(Slots())[r][|old(View())[r].keys| + 1].page)
    {
      hide Pool, View, Footprint, Slots;
      var up := KeyAt(l, KeyNum(l) - 1);
      MoveKidRight(l, r, KeyAt(q, k));
      SetSeparator(q, k, up);
      SetParent(KidAt(r, 0), r);
    }

    function MinKeysOf(p: PageNum): nat
      requires Pool() && p in View()
      reads this, Footprint()
      ensures MinKeysOf(p) == MinKeys(order, View()[p])
    {
      if IsLeaf(p) then order / 2 else (order + 1) / 2 - 1
    }

    // Page `p`, child `j` of `parent`, is short of a key and its sibling has one to spare.

    method RedistributeLeaves(leftPage: PageNum, rightPage: PageNum, parent: PageNum, k: nat, ghost pool: Pages, ghost w: Pages, ghost sh: Shape, ghost p: PageNum, ghost i: nat, ghost j: nat)
      returns (ghost sh': Shape)
      requires Pool() && View() == w && CanBorrow(order, pool, w, rootPage, sh, p, i, parent, j) && Residue(order, Slots()[p], pool[p], i)
      requires k == PairOf(j) && leftPage == w[parent].kids[k] && rightPage == w[parent].kids[k + 1] && w[p].Leaf?
      modifies Footprint()
      ensures Footprint() == old(Footprint()) && rootPage == old(rootPage) && shape == old(shape) && Pool()
      ensures Ended(order, View(), rootPage, sh', pool, w, rootPage, sh, p, i, true)
    {
      hide Pool, View, Footprint, Slots, Ended, CanBorrow, LeafTakesRight, LeafTakesLeft, KidIndex;
      ShortPair(order, pool, w, rootPage, sh, p, i, parent, j);
      if KeyNum(leftPage) < MinKeysOf(leftPage) {
        sh' := LeafRightOutcome(order, pool, w, rootPage, sh, p, i, parent);
        LeafFromRight(leftPage, rightPage, parent, k);
      } else {
        sh' := LeafLeftOutcome(order, pool, w, rootPage, sh, p, i, parent, j, Slots()[p][0]);
        LeafFromLeft(leftPage, rightPage, parent, k);
      }
    }

    method RedistributeInner(leftPage: PageNum, rightPage: PageNum, parent: PageNum, k: nat, ghost pool: Pages, ghost w: Pages, ghost sh: Shape, ghost p: PageNum, ghost i: nat, ghost j: nat)
      returns (ghost sh': Shape)
      requires Pool() && View() == w && CanBorrow(order, pool, w, rootPage, sh, p, i, parent, j) && Residue(order, Slots()[p], pool[p], i)
      requires k == PairOf(j) && leftPage == w[parent].kids[k] && rightPage == w[parent].kids[k + 1] && w[p].Inner?
      modifies Footprint()
      ensures Footprint() == old(Footprint()) && rootPage == old(rootPage) && shape == old(shape) && Pool()
      ensures Ended(order, View(), rootPage, sh', pool, w, rootPage, sh, p, i, j > 0 && i + 1 != |pool[p].keys|)
    {
      hide Pool, View, Footprint, Slots, Ended, CanBorrow, InnerTakesRight, InnerTakesLeft, KidIndex;
      ShortPair(order, pool, w, rootPage, sh, p, i, parent, j);
      sh' := sh;
      if KeyNum(leftPage) < MinKeysOf(leftPage) {
        InnerRightOutcome(order, pool, w, rootPage, sh, p, i, parent, sh');
        InnerFromRight(leftPage, rightPage, parent, k);
      } else {
        sh' := InnerLeftOutcome(order, pool, w, rootPage, sh, p, i, parent, j);
        InnerFromLeft(leftPage, rightPage, parent, k);
      }
    }

    method RedistributeNodes(leftPage: PageNum, rightPage: PageNum, ghost pool: Pages, ghost w: Pages, ghost sh: Shape, ghost p: PageNum, ghost i: nat, ghost q: PageNum, ghost j: nat)
      returns (ghost sh': Shape)
      requires Pool() && View() == w && CanBorrow(order, pool, w, rootPage, sh, p, i, q, j) && Residue(order, Slots()[p], pool[p], i)
      requires leftPage == w[q].kids[PairOf(j)] && rightPage == w[q].kids[PairOf(j) + 1]
      modifies Footprint()
      ensures Footprint() == old(Footprint()) && rootPage == old(rootPage) && shape == old(shape) && Pool()
      ensures Ended(order, View(), rootPage, sh', pool, w, rootPage, sh, p, i, w[p].Leaf? || (j > 0 && i + 1 != |pool[p].keys|))
    {
      hide Pool, View, Footprint, Slots, Ended, CanBorrow, KidIndex, Residue;
      ShortPair(order, pool, w, rootPage, sh, p, i, q, j);
      var parent := ParentOf(leftPage);
      var k := FindSeparator(parent, leftPage);
      if IsLeaf(leftPage) {
        sh' := RedistributeLeaves(leftPage, rightPage, parent, k, pool, w, sh, p, i, j);
      } else {
        sh' := RedistributeInner(leftPage, rightPage, parent, k, pool, w, sh, p, i, j);
      }
    }

    /** The right page is emptied into the left one and given back to the pool. */
    method MergeIntoLeft(l: PageNum, r: PageNum, q: PageNum, k: nat)
      requires Pool() && Pair(View(), q, k) && l == View()[q].kids[k] && r == View()[q].kids[k + 1] && l != r && q != l && q != r
      requires |View()[l].keys| + |View()[r].keys| + (if View()[l].Leaf? then 0 else 1) < order
      requires l !in KidsOf(View()[r])
      requires View()[l].Inner? ==> forall c :: c in MergeNode(View()[l], View()[r], View()[q].keys[k]).kids ==> c in View() && c != l && c != r
      modifies this`pages, Footprint()
      ensures Footprint() <= old(Footprint()) && rootPage == old(rootPage) && shape == old(shape) && Pool()
      ensures View() == Merged(old(View()), q, k)
    {
      hide Pool, View, Footprint, Slots, Merged, Reparent, MergeNode;
      ghost var v := View();
      var start := KeyNum(l) + 1;
      AppendPage(l, r, KeyAt(q, k));
      MergedFrom(v, q, k);
      if !IsLeaf(l) {
        ReparentKids(l, l, start);
      }
      DisposePage(r);
    }

    method CoalesceNode(leftPage: PageNum, rightPage: PageNum, ghost pool: Pages, ghost w: Pages, ghost sh: Shape, ghost p: PageNum, ghost i: nat, ghost q: PageNum, ghost j: nat)
      returns (rc: RC, ghost sh': Shape)
      requires Pool() && View() == w && CanJoin(order, pool, w, rootPage, sh, p, i, q, j)
      requires leftPage == w[q].kids[PairOf(j)] && rightPage == w[q].kids[PairOf(j) + 1]
      modifies this`pages, this`rootPage, Footprint()
      ensures Footprint() <= old(Footprint()) && shape == old(shape) && Pool() && rc == SUCCESS
      ensures Ended(order, View(), rootPage, sh', pool, w, old(rootPage), sh, p, i, Safe(order, w, old(rootPage), sh, p, |w[p].keys|, i + 1 == |pool[p].keys|))
      decreases if p in sh.at then Higher(sh, p) else {}, 0
    {
      hide Pool, View, Footprint, Slots, CanJoin, Merged, MergePages, Ended, KidIndex, Deleting, Content, Aligned, MergeNode, Safe, Higher, Shaped, Tree, KidsOf;
      MergePair(order, pool, w, rootPage, sh, p, i, q, j);
      var parent := ParentOf(leftPage);
      var k := FindSeparator(parent, leftPage);
      var sep := KeyAt(parent, k);
      ghost var root := rootPage;
      ghost var sh1 := MergeStep(order, pool, w, root, sh, p, i, q, j);
      MergeIntoLeft(leftPage, rightPage, parent, k);
      ghost var pool1 := View();
      rc, sh' := DeleteEntryInternal(parent, sep, MergePages(w, q, k), sh1, k);
      MergeEnds(order, pool, w, root, sh, p, i, q, j, pool1, MergePages(w, q, k), sh1, k, View(), rootPage, sh',
                Safe(order, w, root, sh, p, |w[p].keys|, i + 1 == |pool[p].keys|));
    }

    /** Page `p`, not the root, is left with too few keys. */
    method RepairShort(p: PageNum, ghost pool: Pages, ghost w: Pages, ghost sh: Shape, ghost i: nat) returns (rc: RC, ghost sh': Shape)
      requires Pool() && View() == w && Deleting(order, pool, w, rootPage, sh, p, i) && p != rootPage && p in w && |w[p].keys| < MinKeys(order, w[p])
      requires p in pool && Residue(order, Slots()[p], pool[p], i)
      modifies this`pages, this`rootPage, Footprint()
      ensures Footprint() <= old(Footprint()) && shape == old(shape) && Pool() && rc == SUCCESS
      ensures Ended(order, View(), rootPage, sh', pool, w, old(rootPage), sh, p, i, Safe(order, w, old(rootPage), sh, p, |w[p].keys|, i + 1 == |pool[p].keys|))
      decreases if p in sh.at then Higher(sh, p) else {}, 1
    {
      hide Pool, View, Footprint, Slots, Ended, KidIndex, Deleting, Safe, CanBorrow, CanJoin, Residue;
      ghost var q, j := CascadeCases(order, pool, w, rootPage, sh, p, i);
      var parent := ParentOf(p);
      var deleteIndex := FindKid(parent, p);
      if deleteIndex == 0 {
        var rightPage := KidAt(parent, 1);
        if KeyNum(rightPage) > MinKeysOf(p) {
          rc := SUCCESS;
          sh' := RedistributeNodes(p, rightPage, pool, w, sh, p, i, q, j);
        } else {
          rc, sh' := CoalesceNode(p, rightPage, pool, w, sh, p, i, q, j);
        }
      } else {
        var leftPage := KidAt(parent, deleteIndex - 1);
        if KeyNum(leftPage) > MinKeysOf(p) {
          rc := SUCCESS;
          sh' := RedistributeNodes(leftPage, p, pool, w, sh, p, i, q, j);
        } else {
          rc, sh' := CoalesceNode(leftPage, p, pool, w, sh, p, i, q, j);
        }
      }
    }

    /** Only one child is left below the root: it becomes the root. */
    method CollapseRoot(p: PageNum, ghost w: Pages)
      requires Pool() && View() == w && p in w && w[p].Inner? && |w[p].kids| == 1 && w[p].kids[0] in w && w[p].kids[0] != p
      modifies this`pages, this`rootPage, Footprint()
      ensures Footprint() <= old(Footprint()) && shape == old(shape) && Pool()
      ensures View() == ShrinkPages(w, p) && rootPage == w[p].kids[0]
    {
      hide Pool, View, Footprint;
      var c := KidAt(p, 0);
      SetParent(c, NO_PARENT);
      SetRoot(c);
      DisposePage(p);
    }

    /** Takes key `k` out of page `p` and repairs the tree from there upwards. */
    method DeleteEntryInternal(p: PageNum, k: Key, ghost w: Pages, ghost sh: Shape, ghost i: nat) returns (rc: RC, ghost sh': Shape)
      requires Pool() && p in View() && (k in View()[p].keys ==> Deleting(order, View(), w, rootPage, sh, p, i) && View()[p].keys[i] == k)
      modifies this`pages, this`rootPage, Footprint()
      ensures Footprint() <= old(Footprint()) && shape == old(shape) && Pool()
      ensures rc == if k in old(View())[p].keys then SUCCESS else RECORD_INVALID_KEY
      ensures rc != SUCCESS ==> View() == old(View()) && rootPage == old(rootPage)
      ensures rc == SUCCESS ==> Ended(order, View(), rootPage, sh', old(View()), w, old(rootPage), sh, p, i,
                                      Safe(order, w, old(rootPage), sh, p, |w[p].keys|, i + 1 == |old(View())[p].keys|))
      decreases if p in sh.at then Higher(sh, p) else {}, 2
    {
      hide Pool, View, Footprint, Slots, Ended, KidIndex, Deleting, Safe, Residue, CanBorrow, CanJoin, Placed, ShrinkPages;
      ghost var at;
      ghost var pool := View();
      rc, at := DeleteEntryFromNode(p, k);
      sh' := sh;
      if rc != SUCCESS {
        return;
      }
      DeletedSlot(order, pool, w, rootPage, sh, p, i, at);
      ghost var q, j := CascadeCases(order, pool, w, rootPage, sh, p, i);
      if ParentOf(p) == NO_PARENT {
        if KeyNum(p) == 0 && !IsLeaf(p) {
          sh' := RootOutcome(order, pool, w, rootPage, sh, i);
          CollapseRoot(p, w);
        } else {
          EnoughOutcome(order, pool, w, rootPage, sh, p, i);
        }
      } else if KeyNum(p) >= MinKeysOf(p) {
        EnoughOutcome(order, pool, w, rootPage, sh, p, i);
      } else {
        rc, sh' := RepairShort(p, pool, w, sh, i);
      }
    }

    /** The leaf that holds `k` can spare it, or what follows up the tree goes well; to be read off the pages before a deletion. */
    ghost predicate SafeDelete(k: Key)
      reads this, Footprint()
      requires Valid()
    {
      SafeKey(order, View(), rootPage, shape, k)
    }

    /** Deleting `k` makes its leaf borrow from the left a key whose record identifier is not the one left in the first slot. */
    ghost predicate MislaysRid(k: Key)
      reads this, Footprint()
      requires Pool()
    {
      MislaysKey(order, View(), rootPage, shape, k)
    }

    /** Where `k` is stored, if it is. */
    lemma DeleteTarget(p: PageNum, k: Key) returns (i: nat, w: Pages)
      requires Valid() && Owns(View(), shape, p, k) && View()[p].Leaf?
      ensures k in Entries() <==> k in View()[p].keys
      ensures k in Entries() ==>
                && order >= 3 && i < |View()[p].keys| && View()[p].keys[i] == k
                && Deleting(order, View(), w, rootPage, shape, p, i) && p in w
                && Inserted(Content(w, shape), k, Entries()) && (Aligned(View()) ==> Aligned(w))
                && Safe(order, w, rootPage, shape, p, |w[p].keys|, i + 1 == |View()[p].keys|) == SafeDelete(k)
                && LosesRid(order, View(), rootPage, p, i) == MislaysRid(k)
    {
      hide Pool, View, Footprint, Tree, Sized, Content, Deleting, Safe, Inserted, Aligned, LosesRid;
      var v := View();
      LeafDecides(v, rootPage, shape, p, k);
      LeafSorted(v, rootPage, shape, p);
      HomeIs(v, rootPage, shape, p, k);
      i, w := 0, v;
      if k in v[p].keys {
        OrderAtLeast();
        i :| 0 <= i < |v[p].keys| && v[p].keys[i] == k;
        w := DeletePlan(order, v, rootPage, shape, p, i);
        assert forall j :: 0 <= j < |v[p].keys| && v[p].keys[j] == k ==> j == i;
      }
    }

    /**
     Deletes an entry. The call is right, the pages being a tree of the other entries afterwards, exactly
     when `SafeDelete` held before; otherwise it reports success and leaves no tree.
     */
    method DeleteEntry(attr: int, rid: Rid) returns (rc: RC)
      requires Valid()
      modifies this, Footprint()
      ensures Pool() && Footprint() <= old(Footprint())
      ensures rc == if Key(attr, rid) in old(Entries()) then SUCCESS else RECORD_INVALID_KEY
      ensures rc != SUCCESS ==> Valid() && View() == old(View()) && shape == old(shape)
      ensures rc == SUCCESS && old(SafeDelete(Key(attr, rid))) ==> Valid() && Inserted(Entries(), Key(attr, rid), old(Entries()))
      ensures rc == SUCCESS && old(SafeDelete(Key(attr, rid))) && Aligned(old(View())) ==> (Aligned(View()) <==> !old(MislaysRid(Key(attr, rid))))
      ensures rc == SUCCESS && !old(SafeDelete(Key(attr, rid))) ==> forall r, s :: !Tree(View(), r, s)
    {
      hide Pool, View, Footprint, Tree, Sized, Content, Deleting, Safe, Inserted, Aligned, LosesRid;
      var k := Key(attr, rid);
      var p := FindLeaf(k);
      ghost var i, w := DeleteTarget(p, k);
      ghost var sh';
      rc, sh' := DeleteEntryInternal(p, k, w, shape, i);
      if rc == SUCCESS {
        SetShape(sh');
      }
    }

    // -------------------------------------------------------------- where a scan starts

    /**
     The first slot a scan for `op` and `a` has to look at. For an operator that bounds from below, the
     search goes to the leaf of the smallest conceivable key with attribute `a` and then along the chain.
     */
    method FindFirstIndexSatisfied(op: CompOp, a: int) returns (rc: RC, page: PageNum, idx: int, ghost at: nat)
      requires Valid()
      ensures Pool() && View() == old(View()) && Footprint() == old(Footprint())
      ensures ScanPages(View(), shape.leaves) && (rc == SUCCESS || rc == RECORD_EOF)
      ensures rc == SUCCESS ==> at < |shape.leaves| && page == shape.leaves[at] && ScanPage(View(), page) && 0 <= idx <= |View()[page].keys|
      ensures rc == SUCCESS && RidsAbove(Entries()) ==> ScanFrom(View(), shape.leaves, at, idx, op, a) == ScanAll(View(), shape.leaves, op, a)
      ensures rc == RECORD_EOF && RidsAbove(Entries()) && op != NoOp ==> ScanAll(View(), shape.leaves, op, a) == []
      ensures rc == RECORD_EOF <== op == NoOp
    {
      hide Pool, View, Footprint, Tree, Sized, Content, ScanFrom, ScanAll, RidsAbove, PageRest;
      ghost var v, s := View(), shape.leaves;
      LeavesScan(v, rootPage, shape);
      if op == LessThan || op == LessEqual || op == NotEqual {
        page := GetFirstLeafPage();
        ScanStart(v, s, op, a);
        return SUCCESS, page, 0, 0;
      }
      var next := FindLeaf(Key(a, Rid(-1, -1)));
      at := LeftOfStart(v, rootPage, shape, next, a);
      assert ScanPage(v, s[at]);
      ghost var skips := RidsAbove(Content(v, shape)) && op != NoOp;
      if skips {
        SkipLeaves(v, s, at, op, a);
      }
      ChainNext(v, rootPage, shape, at);
      while next > 0
        invariant Pool() && View() == v && Footprint() == old(Footprint())
        invariant at <= |s| && (next > 0 <==> at < |s|) && (at < |s| ==> next == s[at] && ScanPage(v, next))
        invariant skips ==> ScanFrom(v, s, at, 0, op, a) == ScanAll(v, s, op, a)
        decreases |s| - at
      {
        var i := 0;
        while i < KeyNum(next)
          invariant Pool() && View() == v && Footprint() == old(Footprint())
          invariant i <= |v[next].keys|
          invariant skips ==> ScanFrom(v, s, at, i, op, a) == ScanAll(v, s, op, a)
        {
          var tmp := CompareAttr(KeyAt(next, i).attr, a);
          if op == EqualTo || op == GreatEqual {
            if tmp >= 0 {
              return SUCCESS, next, i, at;
            }
          }
          if op == GreatThan {
            if tmp > 0 {
              return SUCCESS, next, i, at;
            }
          }
          PassSlot(v, s, at, i, op, a);
          i := i + 1;
        }
        NextLeaf(v, s, at, op, a);
        ChainNext(v, rootPage, shape, at);
        if at + 1 < |s| {
          ChainNext(v, rootPage, shape, at + 1);
        }
        next, at := NextOf(next), at + 1;
      }
      NothingLeft(v, s, op, a);
      return RECORD_EOF, -1, -1, at;
    }

    ghost method SetShape(sh: Shape)
      requires Pool()
      modifies this`shape
      ensures shape == sh && Pool() && View() == old(View()) && Footprint() == old(Footprint())
    {
      shape := sh;
    }

    lemma OrderAtLeast()
      requires Pool()
      ensures order >= 3
    {
    }

    /** Whether the leaf that would take `k` is full; a caller can find out with `FindLeaf`. */
    ghost predicate HomeFull(k: Key)
      reads this, Footprint()
      requires Pool()
    {
      HomeFullIn(order, View(), shape, k)
    }

    /**
     Inserts an entry. On success with a new key the index is a tree of the old entries and the new
     one. A key that is stored already is noticed exactly when its leaf is not full; when the leaf is
     full the pages are no tree afterwards, although the call reports success. A unique insertion is
     refused exactly when the attribute is stored or is that of a separator; so it answers rightly
     exactly when the attribute is not that of a separator alone.
     */
    method InsertEntry(attr: int, rid: Rid, isUnique: bool) returns (rc: RC)
      requires Valid()
      modifies this, Footprint()
      ensures Pool() && fresh(Footprint() - old(Footprint()))
      ensures rc != SUCCESS ==> Valid() && View() == old(View()) && shape == old(shape)
      ensures isUnique && old(HasAttr(Entries(), attr)) ==> rc == INVALID_ARGUMENT
      ensures rc == INVALID_ARGUMENT <==> isUnique && old(HasAttr(Entries(), attr) || HasSeparator(View(), attr))
      ensures isUnique ==> ((rc == INVALID_ARGUMENT <==> old(HasAttr(Entries(), attr))) <==> old(HasSeparator(View(), attr) ==> HasAttr(Entries(), attr)))
      ensures isUnique && old(Anchored(View(), Entries())) ==> (rc == INVALID_ARGUMENT <==> old(HasAttr(Entries(), attr)))
      ensures isUnique && rc == SUCCESS && old(DistinctAttrs(Entries())) ==> DistinctAttrs(Entries())
      ensures rc == RECORD_DUPLICATE_KEY <==> !isUnique && old(Key(attr, rid) in Entries() && !HomeFull(Key(attr, rid)))
      ensures rc == SUCCESS && Key(attr, rid) !in old(Entries()) ==> Valid() && Gained(old(View()), old(shape), Key(attr, rid), View(), shape)
      ensures rc == SUCCESS && Key(attr, rid) in old(Entries()) ==> forall r, s :: !Tree(View(), r, s)
    {
      hide Pool, View, Footprint, Tree, Sized, Content, Gained, Kept, DistinctAttrs, Anchored;
      var k := Key(attr, rid);
      var p: PageNum;
      if isUnique {
        rc, p := FindLeafUnique(k);
        if rc != SUCCESS {
          if Anchored(View(), Entries()) && !HasAttr(Entries(), attr) {
            AnchoredAttrs(View(), Entries(), attr);
          }
          return INVALID_ARGUMENT;
        }
        AttrOf(Entries(), k);
      } else {
        p := FindLeaf(k);
      }
      HomeIs(View(), rootPage, shape, p, k);
      ghost var f0, e, v, sh := Footprint(), Entries(), View(), shape;
      if KeyNum(p) < order - 1 {
        rc := InsertWithRoom(p, k);
      } else {
        rc := SUCCESS;
        label L:
        InsertWithSplit(p, k);
        ghost var grown := Footprint() - f0;
        assert fresh@L(grown);
        assert fresh(grown);
        FreshRest((f0, grown, Footprint()));
      }
      if isUnique && DistinctAttrs(e) {
        GainedUnique(v, sh, k, View(), shape);
      }
    }
  }

  twostate lemma FreshRest(new t: (set<object>, set<object>, set<object>))
    requires fresh(t.1) && t.2 - t.0 <= t.1
    ensures fresh(t.2 - t.0)
  {
    forall o | o in t.2 && o !in t.0 ensures fresh(o) {
      assert o in t.2 - t.0;
    }
  }

  twostate lemma FreshTwice(new t: (set<object>, set<object>, set<object>, set<object>))
    requires fresh(t.1 - t.0) && fresh(t.3) && t.2 - t.1 <= t.3
    ensures fresh(t.2 - t.0)
  {
    forall o | o in t.2 && o !in t.0 ensures fresh(o) {
      assert o in t.1 - t.0 || o in t.3;
    }
  }

  lemma AttachIsPut(n: Node, i: nat, k: Key, c: PageNum)
    requires n.Inner? && i < |n.kids| == |n.keys| + 1
    ensures Attach(n, i, k, c) == Inner(n.parent, Put(n.keys, i, k), Put(n.kids, i + 1, c))
  {
  }

  lemma LeftHalfInner(n: Node, m: nat, a: PageNum, b: PageNum)
    requires CutOk(n, m)
    ensures n.Inner? ==> LeftHalf(n, m, a) == LeftHalf(n, m, b)
  {
  }

  /** The children right of the cut are children the node had before, or the new one. */
  lemma MovedKids(n: Node, i: nat, k: Key, c: PageNum, m: nat)
    requires n.Inner? && i < |n.kids| == |n.keys| + 1 && CutOk(Attach(n, i, k, c), m)
    ensures var r := RightHalf(Attach(n, i, k, c), m);
            r.Inner? && |r.kids| == |r.keys| + 1 && KidsOf(r) == r.kids && forall x :: x in r.kids ==> x == c || x in n.kids
  {
  }

  lemma ReparentNone(v: Pages, q: PageNum)
    ensures Reparent(v, [], q) == v
  {
  }

  lemma ReparentMore(v: Pages, ks: seq<PageNum>, i: nat, q: PageNum)
    requires i < |ks| && ks[i] in v
    ensures var w := Reparent(v, ks[..i], q);
            Reparent(v, ks[..i + 1], q) == w[ks[i] := w[ks[i]].(parent := q)]
  {
    assert ks[..i + 1] == ks[..i] + [ks[i]];
  }
}
