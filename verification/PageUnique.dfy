/** When the search for a free attribute is turned away at a separator. */
module PageUnique {
  import opened IndexKeys
  import opened PageTree
  import opened PageOrder
  import opened PageSearch

  /** A leaf strictly between other attributes is never reached past a separator of the attribute: there is none. */
  lemma NoSeparatorMet(v: Pages, root: PageNum, sh: Shape, p: PageNum, a: int)
    requires Tree(v, root, sh) && p in v && p in sh.at && v[p].Leaf? && AttrInside(sh.at[p], a)
    ensures !HasSeparator(v, a)
  {
    forall q, i | q in v && v[q].Inner? && 0 <= i < |v[q].keys| ensures v[q].keys[i].attr != a {
      var k := v[q].keys[i];
      var l := SeparatorStartsLeaf(v, root, sh, q, i);
      if k.attr == a {
        assert NodeOk(v[l], sh.at[l]);
        OneLeaf(v, root, sh, p, l, k);
      }
    }
  }
}
