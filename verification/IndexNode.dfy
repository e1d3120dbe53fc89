/** One page of the index file: its header fields and its two slot arrays, edited in place. */
module IndexNodes {
  import opened IndexKeys
  import opened PageTree
  import opened PageSplit

  ghost function PagesOf(s: seq<Rid>): (r: seq<PageNum>)
    ensures |r| == |s| && forall i :: 0 <= i < |s| ==> r[i] == s[i].page
  {
    seq(|s|, i requires 0 <= i < |s| => s[i].page)
  }

  /** Where `k` goes: behind every key that is not greater. */
  ghost function Rank(keys: seq<Key>, k: Key): (i: nat)
    ensures i <= |keys|
    ensures forall j :: 0 <= j < i ==> !Less(k, keys[j])
    ensures i < |keys| ==> Less(k, keys[i])
  {
    if keys == [] || Less(k, keys[0]) then 0 else 1 + Rank(keys[1..], k)
  }

  lemma {:induction false} RankIs(keys: seq<Key>, k: Key, i: nat)
    requires i <= |keys|
    requires forall j :: 0 <= j < i ==> !Less(k, keys[j])
    requires i < |keys| ==> Less(k, keys[i])
    ensures Rank(keys, k) == i
  {
    if i > 0 {
      RankIs(keys[1..], k, i - 1);
    }
  }

  /** Position of the first child `c`, or the number of children. */
  ghost function KidIndex(kids: seq<PageNum>, c: PageNum): (i: nat)
    ensures i <= |kids|
    ensures forall j :: 0 <= j < i ==> kids[j] != c
    ensures i < |kids| ==> kids[i] == c
  {
    if kids == [] || kids[0] == c then 0 else 1 + KidIndex(kids[1..], c)
  }

  lemma {:induction false} KidIndexIs(kids: seq<PageNum>, c: PageNum, i: nat)
    requires i <= |kids|
    requires forall j :: 0 <= j < i ==> kids[j] != c
    requires i < |kids| ==> kids[i] == c
    ensures KidIndex(kids, c) == i
  {
    if i > 0 {
      KidIndexIs(kids[1..], c, i - 1);
    }
  }

  ghost function Put<T>(s: seq<T>, i: nat, x: T): seq<T>
    requires i <= |s|
  {
    s[..i] + [x] + s[i..]
  }

  /** Slots `i..n` moved one to the right; slot `i` itself keeps its value. */
  ghost function ShiftedRight<T>(s: seq<T>, i: nat, n: nat): (r: seq<T>)
    requires i <= n < |s|
    ensures |r| == |s|
  {
    seq(|s|, j requires 0 <= j < |s| => if i < j <= n then s[j - 1] else s[j])
  }

  lemma ShiftThenPut<T>(s: seq<T>, i: nat, n: nat, x: T)
    requires i <= n < |s|
    ensures ShiftedRight(s, i, n)[i := x][..n + 1] == Put(s[..n], i, x)
    ensures forall j :: n < j < |s| ==> ShiftedRight(s, i, n)[i := x][j] == s[j]
  {
  }

  /** Slots `i + 1..n + 1` moved one to the left; slot `n` itself keeps its value. */
  ghost function ShiftedLeft<T>(s: seq<T>, i: nat, n: nat): (r: seq<T>)
    requires i <= n < |s|
    ensures |r| == |s|
  {
    seq(|s|, j requires 0 <= j < |s| => if i <= j < n then s[j + 1] else s[j])
  }

  ghost function Cut<T>(s: seq<T>, i: nat): seq<T>
    requires i < |s|
  {
    s[..i] + s[i + 1..]
  }

  lemma ShiftCuts<T>(s: seq<T>, i: nat, n: nat)
    requires i <= n < |s|
    ensures ShiftedLeft(s, i, n)[..n] == Cut(s[..n + 1], i)
  {
  }

  /** Copies the slots `from..to` of `src` into `dst`, starting at slot `start`. */
  method CopySlots<T>(src: array<T>, from: nat, to: nat, dst: array<T>, start: nat)
    requires from <= to <= src.Length && start + (to - from) <= dst.Length && src != dst
    modifies dst
    ensures dst[..start + (to - from)] == old(dst[..start]) + src[from..to]
    ensures forall j :: start + (to - from) <= j < dst.Length ==> dst[j] == old(dst[j])
  {
    var i := from;
    while i < to
      invariant from <= i <= to
      invariant forall j :: 0 <= j < start ==> dst[j] == old(dst[j])
      invariant forall j :: start <= j < start + (i - from) ==> dst[j] == src[from + (j - start)]
      invariant forall j :: start + (i - from) <= j < dst.Length ==> dst[j] == old(dst[j])
    {
      dst[start + (i - from)] := src[i];
      i := i + 1;
    }
    assert dst[start..start + (to - from)] == src[from..to];
    assert dst[..start + (to - from)] == dst[..start] + dst[start..start + (to - from)];
  }

  /** Copies the slots `from..to` of `src` to the front of `dst`. */
  method FillSlots<T>(src: array<T>, from: nat, to: nat, dst: array<T>)
    requires from <= to <= src.Length && to - from <= dst.Length && src != dst
    modifies dst
    ensures dst[..] == src[from..to] + old(dst[to - from..])
    ensures dst[..to - from] == src[from..to]
  {
    CopySlots(src, from, to, dst, 0);
    assert dst[..] == src[from..to] + old(dst[to - from..]);
  }

  /** Copies the first `n` slots of `src`, leaving slot `pos` of the copy for `x`. */
  method GatherSlots<T(0)>(src: array<T>, n: nat, pos: nat, x: T) returns (temp: array<T>)
    requires pos <= n <= src.Length
    ensures fresh(temp) && temp.Length == n + 1 && temp[..] == Put(src[..n], pos, x)
  {
    temp := new T[n + 1];
    var i, j := 0, 0;
    while i < n
      invariant 0 <= i <= n && j == (if i <= pos then i else i + 1)
      invariant forall a :: 0 <= a < j && a != pos ==> temp[a] == src[if a < pos then a else a - 1]
    {
      if j == pos {
        j := j + 1;
      }
      temp[j] := src[i];
      i, j := i + 1, j + 1;
    }
    temp[pos] := x;
    ghost var t := Put(src[..n], pos, x);
    assert forall a :: 0 <= a <= n && a != pos ==> t[a] == src[if a < pos then a else a - 1];
    assert t[pos] == x && temp[..] == t;
  }

  class IndexNode {
    var isLeaf: bool
    var keyNum: nat
    var parent: PageNum
    const keys: array<Key>
    const rids: array<Rid>

    /** A page as the pool hands it out: nothing is known of its contents. */
    constructor (order: nat)
      ensures keys.Length == order && rids.Length == order && keyNum == 0
      ensures fresh(keys) && fresh(rids)
    {
      keys := new Key[order];
      rids := new Rid[order];
      keyNum := 0;
    }

    ghost predicate Ok(order: nat)
      reads this
    {
      keys.Length == order && rids.Length == order && keyNum < order
    }

    ghost function Kids(order: nat): seq<PageNum>
      reads this, rids
      requires Ok(order)
    {
      PagesOf(rids[..keyNum + 1])
    }

    /** The page as the tree sees it; a leaf keeps its successor in the last slot. */
    ghost function Val(order: nat): Node
      reads this, keys, rids
      requires Ok(order)
    {
      if isLeaf then Leaf(parent, keys[..keyNum], rids[..keyNum], rids[order - 1].page)
      else Inner(parent, keys[..keyNum], Kids(order))
    }

    /** Makes room in a leaf and stores an entry. */
    method InsertEntry(ghost order: nat, pos: nat, k: Key, rid: Rid)
      requires Ok(order) && isLeaf && keyNum < order - 1 && pos <= keyNum
      modifies this, keys, rids
      ensures Ok(order) && isLeaf && keyNum == old(keyNum) + 1 && parent == old(parent)
      ensures keys[..keyNum] == Put(old(keys[..keyNum]), pos, k)
      ensures rids[..keyNum] == Put(old(rids[..keyNum]), pos, rid)
      ensures rids[order - 1] == old(rids[order - 1])
    {
      hide ShiftedLeft, ShiftedRight, Put, Cut, PagesOf;
      ghost var n, k0, r0 := keyNum, keys[..], rids[..];
      ShiftRightLoop(keys, pos, keyNum);
      ShiftRightLoop(rids, pos, keyNum);
      keys[pos] := k;
      rids[pos] := rid;
      keyNum := keyNum + 1;
      ShiftThenPut(k0, pos, n, k);
      ShiftThenPut(r0, pos, n, rid);
    }

    /** Makes room in an inner page and stores a separator with the child right of it. */
    method InsertKid(ghost order: nat, pos: nat, k: Key, right: PageNum)
      requires Ok(order) && !isLeaf && keyNum < order - 1 && pos <= keyNum
      modifies this, keys, rids
      ensures Ok(order) && !isLeaf && keyNum == old(keyNum) + 1 && parent == old(parent)
      ensures keys[..keyNum] == Put(old(keys[..keyNum]), pos, k)
      ensures Kids(order) == Put(old(Kids(order)), pos + 1, right)
    {
      hide ShiftedLeft, ShiftedRight, Put, Cut, PagesOf;
      ghost var n, k0, r0 := keyNum, keys[..], rids[..];
      ShiftRightLoop(rids, pos + 1, keyNum + 1);
      ShiftRightLoop(keys, pos, keyNum);
      rids[pos + 1] := Rid(right, -1);
      keys[pos] := k;
      keyNum := keyNum + 1;
      ShiftThenPut(k0, pos, n, k);
      ShiftThenPut(r0, pos + 1, n + 1, Rid(right, -1));
      PagesOfPut(r0[..n + 1], pos + 1, Rid(right, -1));
    }

    /** Splits a full leaf that has to take one more entry; the upper half goes to the empty page `right`. */
    method SplitLeaf(order: nat, pos: nat, k: Key, rid: Rid, right: IndexNode, np: PageNum)
      requires order >= 3 && Ok(order) && isLeaf && keyNum == order - 1 && pos <= keyNum
      requires right.Ok(order) && right != this && right.keys != keys && right.rids != rids
      modifies this, keys, rids, right, right.keys, right.rids
      ensures Ok(order) && right.Ok(order)
      ensures var n := old(Val(order)); var a := Leaf(n.parent, Put(n.keys, pos, k), Put(n.rids, pos, rid), n.next);
              CutOk(a, order / 2) && Val(order) == LeftHalf(a, order / 2, np) && right.Val(order) == RightHalf(a, order / 2)
    {
      hide Put;
      right.keyNum := 0;
      right.isLeaf := true;
      right.parent := parent;
      var tempKeys := GatherSlots(keys, keyNum, pos, k);
      var tempRids := GatherSlots(rids, keyNum, pos, rid);
      DistributeLeaf(order, tempKeys, tempRids, right, np);
    }

    /** The copy-back half of a leaf split. */
    method DistributeLeaf(order: nat, tempKeys: array<Key>, tempRids: array<Rid>, right: IndexNode, np: PageNum)
      requires order >= 3 && Ok(order) && right.Ok(order) && right != this && right.keys != keys && right.rids != rids
      requires tempKeys.Length == order && tempRids.Length == order && isLeaf && right.isLeaf && right.parent == parent
      requires tempKeys != keys && tempKeys != right.keys && tempRids != rids && tempRids != right.rids
      modifies this`keyNum, keys, rids, right`keyNum, right.keys, right.rids
      ensures Ok(order) && right.Ok(order)
      ensures var a := Leaf(parent, tempKeys[..], tempRids[..], old(rids[order - 1].page));
              CutOk(a, order / 2) && Val(order) == LeftHalf(a, order / 2, np) && right.Val(order) == RightHalf(a, order / 2)
    {
      ghost var t, u := tempKeys[..], tempRids[..];
      var split := order / 2;
      FillSlots(tempKeys, 0, split, keys);
      FillSlots(tempRids, 0, split, rids);
      keyNum := split;
      FillSlots(tempKeys, split, order, right.keys);
      FillSlots(tempRids, split, order, right.rids);
      right.keyNum := order - split;
      right.rids[order - 1] := rids[order - 1];
      rids[order - 1] := Rid(np, -1);
      assert tempKeys[..] == t && tempRids[..] == u;
      assert keys[..split] == t[..split] && rids[..split] == u[..split];
      assert right.keys[..order - split] == t[split..] && right.rids[..order - split] == u[split..];
    }

    /** Splits a full inner page that has to take one more child; the middle separator is handed out. */
    method SplitInner(order: nat, pos: nat, k: Key, kid: PageNum, right: IndexNode) returns (middle: Key)
      requires order >= 3 && Ok(order) && !isLeaf && keyNum == order - 1 && pos <= keyNum
      requires right.Ok(order) && right != this && right.keys != keys && right.rids != rids
      modifies this, keys, rids, right, right.keys, right.rids
      ensures Ok(order) && right.Ok(order)
      ensures var n := old(Val(order)); var a := Inner(n.parent, Put(n.keys, pos, k), Put(n.kids, pos + 1, kid)); var m := (order + 1) / 2 - 1;
              CutOk(a, m) && middle == a.keys[m] && Val(order) == LeftHalf(a, m, 0) && right.Val(order) == RightHalf(a, m)
    {
      hide Put, PagesOf, LeftHalf, RightHalf;
      right.keyNum := 0;
      right.isLeaf := false;
      right.parent := parent;
      var tempKeys := GatherSlots(keys, keyNum, pos, k);
      var tempRids := GatherSlots(rids, keyNum + 1, pos + 1, Rid(kid, -1));
      PagesOfPut(rids[..keyNum + 1], pos + 1, Rid(kid, -1));
      middle := DistributeInner(order, tempKeys, tempRids, right);
    }

    /** The copy-back half of an inner split. */
    method DistributeInner(order: nat, tempKeys: array<Key>, tempRids: array<Rid>, right: IndexNode) returns (middle: Key)
      requires order >= 3 && Ok(order) && right.Ok(order) && right != this && right.keys != keys && right.rids != rids
      requires tempKeys.Length == order && tempRids.Length == order + 1 && !isLeaf && !right.isLeaf && right.parent == parent
      requires tempKeys != keys && tempKeys != right.keys && tempRids != rids && tempRids != right.rids
      modifies this`keyNum, keys, rids, right`keyNum, right.keys, right.rids
      ensures Ok(order) && right.Ok(order)
      ensures var a := Inner(parent, tempKeys[..], PagesOf(tempRids[..])); var m := (order + 1) / 2 - 1;
              CutOk(a, m) && middle == a.keys[m] && Val(order) == LeftHalf(a, m, 0) && right.Val(order) == RightHalf(a, m)
    {
      hide PagesOf;
      ghost var t, u := tempKeys[..], tempRids[..];
      var split := (order + 1) / 2;
      middle := tempKeys[split - 1];
      LoadKids(order, tempKeys, tempRids, 0, split - 1);
      ghost var lower := Val(order);
      right.LoadKids(order, tempKeys, tempRids, split, order);
      assert Val(order) == lower;
    }

    /** Makes the separators `from..to`, and the children around them, the contents of this page. */
    method LoadKids(ghost order: nat, tempKeys: array<Key>, tempRids: array<Rid>, from: nat, to: nat)
      requires Ok(order) && !isLeaf && tempKeys != keys && tempRids != rids
      requires from <= to <= tempKeys.Length && to < tempRids.Length && to - from < order
      modifies this`keyNum, keys, rids
      ensures Ok(order) && Val(order) == Inner(parent, tempKeys[..][from..to], PagesOf(tempRids[..])[from..to + 1])
    {
      hide PagesOf;
      ghost var u := tempRids[..];
      FillSlots(tempKeys, from, to, keys);
      FillSlots(tempRids, from, to + 1, rids);
      keyNum := to - from;
      PagesOfParts(u, from, to + 1);
    }

    /** Takes key `at` out; an inner page also loses the child right of it. The slot behind the last one keeps what it held. */
    method RemoveKey(ghost order: nat, at: nat)
      requires Ok(order) && at < keyNum
      modifies this`keyNum, keys, rids
      ensures Ok(order) && keyNum == old(keyNum) - 1
      ensures keys[..keyNum] == Cut(old(keys[..keyNum]), at)
      ensures isLeaf ==> rids[..keyNum] == Cut(old(rids[..keyNum]), at) && rids[order - 1] == old(rids[order - 1])
      ensures isLeaf && keyNum == 0 ==> rids[0] == old(rids[0])
      ensures !isLeaf ==> Kids(order) == Cut(old(Kids(order)), at + 1)
      ensures rids[old(keyNum)] == old(rids[keyNum])
    {
      hide ShiftedLeft, Cut, PagesOf;
      ghost var n, k0, r0 := keyNum, keys[..], rids[..];
      ShiftLeftLoop(keys, at, keyNum - 1);
      ShiftCuts(k0, at, n - 1);
      if isLeaf {
        ShiftLeftLoop(rids, at, keyNum - 1);
        ShiftCuts(r0, at, n - 1);
      } else {
        ShiftLeftLoop(rids, at + 1, keyNum);
        ShiftCuts(r0, at + 1, n);
        PagesOfCut(r0[..n + 1], at + 1);
      }
      keyNum := keyNum - 1;
    }

    /** A leaf appends the entries of its right neighbour and takes over its successor. */
    method AbsorbLeaf(order: nat, right: IndexNode)
      requires Ok(order) && right.Ok(order) && right != this && right.keys != keys && right.rids != rids
      requires isLeaf && right.isLeaf && keyNum + right.keyNum < order
      modifies this`keyNum, keys, rids
      ensures Ok(order)
      ensures var a, b := old(Val(order)), old(right.Val(order)); Val(order) == Leaf(a.parent, a.keys + b.keys, a.rids + b.rids, b.next)
    {
      var start := keyNum;
      CopySlots(right.keys, 0, right.keyNum, keys, start);
      CopySlots(right.rids, 0, right.keyNum, rids, start);
      keyNum := keyNum + right.keyNum;
      rids[order - 1] := right.rids[order - 1];
    }

    /** An inner page appends the separator and then the contents of its right neighbour. */
    method AbsorbInner(order: nat, right: IndexNode, sep: Key)
      requires Ok(order) && right.Ok(order) && right != this && right.keys != keys && right.rids != rids
      requires !isLeaf && !right.isLeaf && keyNum + 1 + right.keyNum < order
      modifies this`keyNum, keys, rids
      ensures Ok(order)
      ensures var a, b := old(Val(order)), old(right.Val(order)); Val(order) == Inner(a.parent, a.keys + [sep] + b.keys, a.kids + b.kids)
    {
      hide Put, PagesOf;
      ghost var k0, r0 := keys[..keyNum], rids[..keyNum + 1];
      var start := keyNum;
      keys[start] := sep;
      start := start + 1;
      assert keys[..start] == k0 + [sep];
      CopySlots(right.keys, 0, right.keyNum, keys, start);
      CopySlots(right.rids, 0, right.keyNum + 1, rids, start);
      keyNum := start + right.keyNum;
      PagesOfConcat(r0, right.rids[..right.keyNum + 1]);
    }

    /** Drops the first key and moves the other keys, and as many slots, to the left. */
    method DropFirst(ghost order: nat)
      requires Ok(order) && keyNum > 0
      modifies this`keyNum, keys, rids
      ensures Ok(order) && keyNum == old(keyNum) - 1
      ensures keys[..] == ShiftedLeft(old(keys[..]), 0, keyNum) && rids[..] == ShiftedLeft(old(rids[..]), 0, keyNum)
      ensures rids[order - 1] == old(rids[order - 1])
    {
      ShiftLeftLoop(keys, 0, keyNum - 1);
      ShiftLeftLoop(rids, 0, keyNum - 1);
      keyNum := keyNum - 1;
    }

    /** Moves all keys, and as many slots, one to the right; the first slots keep what they held. */
    method OpenFirst(ghost order: nat)
      requires Ok(order) && keyNum < order - 1
      modifies this`keyNum, keys, rids
      ensures Ok(order) && keyNum == old(keyNum) + 1
      ensures keys[..] == ShiftedRight(old(keys[..]), 0, old(keyNum)) && rids[..] == ShiftedRight(old(rids[..]), 0, old(keyNum))
    {
      ShiftRightLoop(keys, 0, keyNum);
      ShiftRightLoop(rids, 0, keyNum);
      keyNum := keyNum + 1;
    }

    method DropFirstEntry(ghost order: nat)
      requires Ok(order) && keyNum > 0 && isLeaf
      modifies this`keyNum, keys, rids
      ensures Ok(order)
      ensures var b := old(Val(order)); Val(order) == Leaf(b.parent, b.keys[1..], b.rids[1..], b.next)
    {
      hide ShiftedLeft;
      ghost var m, k1, r1 := keyNum, keys[..], rids[..];
      DropFirst(order);
      DropSlots(k1, m);
      DropSlots(r1, m);
      assert keys[..keyNum] == k1[..m][1..] && rids[..keyNum] == r1[..m][1..];
    }

    method AppendEntry(ghost order: nat, k: Key, rid: Rid)
      requires Ok(order) && keyNum < order - 1
      modifies this`keyNum, keys, rids
      ensures Ok(order)
      ensures keys[..keyNum] == old(keys[..keyNum]) + [k]
      ensures rids[..keyNum] == old(rids[..keyNum]) + [rid] && rids[order - 1] == old(rids[order - 1])
    {
      keys[keyNum] := k;
      rids[keyNum] := rid;
      keyNum := keyNum + 1;
    }

    /** The first entry of the right leaf goes to the end of this one. */
    method TakeEntry(ghost order: nat, right: IndexNode)
      requires Ok(order) && right.Ok(order) && right != this && right.keys != keys && right.rids != rids
      requires keyNum < order - 1 && right.keyNum > 0
      modifies this`keyNum, keys, rids, right`keyNum, right.keys, right.rids
      requires isLeaf && right.isLeaf
      ensures Ok(order) && right.Ok(order)
      ensures var a, b := old(Val(order)), old(right.Val(order));
              Val(order) == Leaf(a.parent, a.keys + [b.keys[0]], a.rids + [b.rids[0]], a.next)
              && right.Val(order) == Leaf(b.parent, b.keys[1..], b.rids[1..], b.next)
    {
      hide ShiftedLeft, ShiftedRight, Put, Cut, PagesOf;
      var key, rid := right.keys[0], right.rids[0];
      right.DropFirstEntry(order);
      ghost var b := right.Val(order);
      AppendEntry(order, key, rid);
      assert right.Val(order) == b;
    }

    /** The last key of this leaf goes to the front of the right one; its record identifier is not copied. */
    method GiveKey(ghost order: nat, right: IndexNode)
      requires Ok(order) && right.Ok(order) && right != this && right.keys != keys && right.rids != rids
      requires keyNum > 0 && right.keyNum < order - 1
      modifies this`keyNum, right`keyNum, right.keys, right.rids
      requires isLeaf && right.isLeaf
      ensures Ok(order) && right.Ok(order)
      ensures var a, b := old(Val(order)), old(right.Val(order)); var n := |a.keys| - 1;
              Val(order) == Leaf(a.parent, a.keys[..n], a.rids[..n], a.next)
              && right.Val(order) == Leaf(b.parent, [a.keys[n]] + b.keys, [old(right.rids[0])] + b.rids, b.next)
    {
      hide ShiftedLeft, ShiftedRight, Put, Cut, PagesOf;
      ghost var m, k1, r1 := right.keyNum, right.keys[..], right.rids[..];
      right.OpenFirst(order);
      right.keys[0] := keys[keyNum - 1];
      keyNum := keyNum - 1;
      OpenSlots(k1, m, right.keys[0]);
      OpenSlots(r1, m, right.rids[0]);
    }

    /** The first child of the right inner page goes to the end of this one, below the separator. */
    method TakeKid(ghost order: nat, right: IndexNode, sep: Key)
      requires Ok(order) && right.Ok(order) && right != this && right.keys != keys && right.rids != rids
      requires keyNum < order - 1 && right.keyNum > 0
      modifies this`keyNum, keys, rids, right`keyNum, right.keys, right.rids
      requires !isLeaf && !right.isLeaf
      ensures Ok(order) && right.Ok(order)
      ensures var a, b := old(Val(order)), old(right.Val(order)); var n := |b.keys|;
              Val(order) == Inner(a.parent, a.keys + [sep], a.kids + [b.kids[0]])
              && right.Val(order) == Inner(b.parent, b.keys[1..], b.kids[1..n] + [b.kids[n - 1]])
    {
      hide ShiftedLeft, ShiftedRight, Put, Cut, PagesOf;
      ghost var m, k1, r0, r1 := right.keyNum, right.keys[..], rids[..keyNum + 1], right.rids[..];
      keys[keyNum] := sep;
      rids[keyNum + 1] := right.rids[0];
      keyNum := keyNum + 1;
      assert rids[..keyNum + 1] == r0 + [r1[0]];
      right.DropFirst(order);
      DropSlots(k1, m);
      DropKid(r1, m);
    }

    /** The last child of this inner page goes to the front of the right one, with the separator. */
    method GiveKid(ghost order: nat, right: IndexNode, sep: Key)
      requires Ok(order) && right.Ok(order) && right != this && right.keys != keys && right.rids != rids
      requires keyNum > 0 && right.keyNum < order - 1
      modifies this`keyNum, right`keyNum, right.keys, right.rids
      requires !isLeaf && !right.isLeaf
      ensures Ok(order) && right.Ok(order)
      ensures var a, b := old(Val(order)), old(right.Val(order)); var n := |a.keys| - 1;
              Val(order) == Inner(a.parent, a.keys[..n], a.kids[..n + 1])
              && right.Val(order) == Inner(b.parent, [sep] + b.keys, [a.kids[n + 1]] + b.kids[..|b.keys|] + [old(right.rids[right.keyNum + 1].page)])
    {
      hide ShiftedLeft, ShiftedRight, Put, Cut, PagesOf;
      ghost var m, k1, r1 := right.keyNum, right.keys[..], right.rids[..];
      right.OpenFirst(order);
      right.keys[0] := sep;
      right.rids[0] := rids[keyNum];
      keyNum := keyNum - 1;
      OpenSlots(k1, m, sep);
      OpenKid(r1, m, right.rids[0]);
    }
  }

  lemma DropSlots<T>(s: seq<T>, n: nat)
    requires 0 < n < |s|
    ensures ShiftedLeft(s, 0, n - 1)[..n - 1] == s[..n][1..]
    ensures ShiftedLeft(s, 0, n - 1)[|s| - 1] == s[|s| - 1]
  {
  }

  /** The slots of an inner page with `n` keys after its first child was closed: the last child is out, the one before it listed twice. */
  lemma DropKid(s: seq<Rid>, n: nat)
    requires 0 < n < |s|
    ensures var k := PagesOf(s[..n + 1]); PagesOf(ShiftedLeft(s, 0, n - 1)[..n]) == k[1..n] + [k[n - 1]]
  {
  }

  lemma OpenSlots<T>(s: seq<T>, n: nat, x: T)
    requires n < |s|
    ensures ShiftedRight(s, 0, n)[0 := x][..n + 1] == [x] + s[..n]
    ensures n < |s| - 1 ==> ShiftedRight(s, 0, n)[0 := x][|s| - 1] == s[|s| - 1]
    ensures ShiftedRight(s, 0, n)[0 := s[0]] == ShiftedRight(s, 0, n)
  {
  }

  /** The slots of an inner page with `n` keys after a child was put in front: slot `n + 1` counts as the last child. */
  lemma OpenKid(s: seq<Rid>, n: nat, x: Rid)
    requires n + 1 < |s|
    ensures PagesOf(ShiftedRight(s, 0, n)[0 := x][..n + 2]) == [x.page] + PagesOf(s[..n + 1])[..n] + [s[n + 1].page]
  {
  }

  /** Moves the slots `i + 1..n + 1` one to the left. */
  method ShiftLeftLoop<T>(a: array<T>, i: nat, n: nat)
    requires i <= n < a.Length
    modifies a
    ensures a[..] == ShiftedLeft(old(a[..]), i, n)
    ensures forall j :: n <= j < a.Length ==> a[j] == old(a[j])
  {
    var j := i;
    while j < n
      invariant i <= j <= n
      invariant forall x :: j <= x < a.Length ==> a[x] == old(a[x])
      invariant a[..] == ShiftedLeft(old(a[..]), i, j)
    {
      a[j] := a[j + 1];
      j := j + 1;
    }
  }

  /** Moves the slots `i..n` one to the right. */
  method ShiftRightLoop<T>(a: array<T>, i: nat, n: nat)
    requires i <= n < a.Length
    modifies a
    ensures a[..] == ShiftedRight(old(a[..]), i, n)
  {
    var j := n;
    while j > i
      invariant i <= j <= n
      invariant a[..] == ShiftedRight(old(a[..]), j, n)
    {
      a[j] := a[j - 1];
      j := j - 1;
    }
  }

  lemma PagesOfParts(s: seq<Rid>, i: nat, j: nat)
    requires i <= j <= |s|
    ensures PagesOf(s[i..j]) == PagesOf(s)[i..j]
  {
  }

  lemma PagesOfCut(s: seq<Rid>, i: nat)
    requires i < |s|
    ensures PagesOf(Cut(s, i)) == Cut(PagesOf(s), i)
  {
  }

  lemma PagesOfConcat(s: seq<Rid>, t: seq<Rid>)
    ensures PagesOf(s + t) == PagesOf(s) + PagesOf(t)
  {
  }

  lemma PagesOfPut(s: seq<Rid>, i: nat, r: Rid)
    requires i <= |s|
    ensures PagesOf(Put(s, i, r)) == Put(PagesOf(s), i, r.page)
  {
  }
}
