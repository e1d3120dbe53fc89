/** The composite keys of the index: an attribute value followed by the record identifier. */
module IndexKeys {

  type PageNum = int

  /** Page and slot of a record. */
  datatype Rid = Rid(page: int, slot: int)

  /** The bytes stored in a key slot: the attribute value, then the record identifier. */
  datatype Key = Key(attr: int, rid: Rid)

  /** The order the index is meant to keep: by attribute, then by page, then by slot. */
  predicate Less(a: Key, b: Key) {
    || a.attr < b.attr
    || (a.attr == b.attr && (a.rid.page < b.rid.page || (a.rid.page == b.rid.page && a.rid.slot < b.rid.slot)))
  }

  function CompareAttr(a: int, b: int): int {
    if a > b then 1 else if a < b then -1 else 0
  }

  function CmpRid(a: Rid, b: Rid): int {
    if a.page > b.page then 1
    else if a.page < b.page then -1
    else if a.slot > b.slot then 1
    else if a.slot < b.slot then -1
    else 0
  }

  /** Three-way comparison of two whole keys; it decides the order above and equality. */
  function CmpKey(a: Key, b: Key): (r: int)
    ensures r < 0 <==> Less(a, b)
    ensures r == 0 <==> a == b
    ensures r > 0 <==> Less(b, a)
  {
    var c := CompareAttr(a.attr, b.attr);
    if c != 0 then c else CmpRid(a.rid, b.rid)
  }

  ghost predicate Strict(s: seq<Key>) {
    forall i, j :: 0 <= i < j < |s| ==> Less(s[i], s[j])
  }

  /** An end of a key interval. */
  datatype Bound = NegInf | At(key: Key) | PosInf

  /** The closed lower end `b` admits `k`. */
  predicate AtOrBelow(b: Bound, k: Key) {
    b.NegInf? || (b.At? && !Less(k, b.key))
  }

  /** The open upper end `b` admits `k`. */
  predicate Above(b: Bound, k: Key) {
    b.PosInf? || (b.At? && Less(k, b.key))
  }

  predicate BoundLess(a: Bound, b: Bound) {
    match (a, b)
    case (NegInf, At(_)) => true
    case (NegInf, PosInf) => true
    case (At(_), PosInf) => true
    case (At(k), At(l)) => Less(k, l)
    case _ => false
  }

  /** A key between its neighbours may be inserted. */
  lemma StrictInsert(s: seq<Key>, i: nat, k: Key)
    requires Strict(s) && i <= |s|
    requires i > 0 ==> Less(s[i - 1], k)
    requires i < |s| ==> Less(k, s[i])
    ensures Strict(s[..i] + [k] + s[i..])
  {
    var t := s[..i] + [k] + s[i..];
    forall a, b | 0 <= a < b < |t| ensures Less(t[a], t[b]) {
      var x := if a <= i then a else a - 1;
      var y := if b <= i then b else b - 1;
      assert a != i ==> t[a] == s[x];
      assert b != i ==> t[b] == s[y];
      if b == i {
        assert a == i - 1 || Less(s[a], s[i - 1]);
      } else if a == i {
        assert y == i || Less(s[i], s[y]);
      }
    }
  }
}
