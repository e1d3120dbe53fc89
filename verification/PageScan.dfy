/** What a scan of the index is to return, in terms of the pages. */
module PageScan {
  import opened IndexKeys
  import opened PageTree
  import opened KeyLabels
  import opened PageSearch

  datatype CompOp = EqualTo | LessEqual | NotEqual | LessThan | GreatEqual | GreatThan | NoOp

  /** Whether an entry with attribute `x` is wanted by a scan for `op` and `a`. */
  predicate Satisfies(op: CompOp, x: int, a: int) {
    match op
    case EqualTo => x == a
    case LessEqual => x <= a
    case NotEqual => x != a
    case LessThan => x < a
    case GreatEqual => x >= a
    case GreatThan => x > a
    case NoOp => true
  }

  /** The wanted identifiers among parallel keys and identifiers. */
  ghost function Select(keys: seq<Key>, rids: seq<Rid>, op: CompOp, a: int): seq<Rid>
    requires |keys| == |rids|
  {
    if keys == [] then [] else (if Satisfies(op, keys[0].attr, a) then [rids[0]] else []) + Select(keys[1..], rids[1..], op, a)
  }

  ghost predicate ScanPage(v: Pages, p: PageNum) {
    p in v && v[p].Leaf? && |v[p].rids| == |v[p].keys|
  }

  ghost predicate ScanPages(v: Pages, s: seq<PageNum>) {
    forall j :: 0 <= j < |s| ==> ScanPage(v, s[j])
  }

  /** What leaf `p` still has to offer from slot `i` on. */
  ghost function PageRest(v: Pages, p: PageNum, i: nat, op: CompOp, a: int): seq<Rid>
    requires ScanPage(v, p) && i <= |v[p].keys|
  {
    Select(v[p].keys[i..], v[p].rids[i..], op, a)
  }

  ghost function ScanAll(v: Pages, s: seq<PageNum>, op: CompOp, a: int): seq<Rid>
    requires ScanPages(v, s)
  {
    if s == [] then [] else
      assert ScanPage(v, s[0]);
      PageRest(v, s[0], 0, op, a) + ScanAll(v, s[1..], op, a)
  }

  /** From slot `i` of the leaf number `at` to the end of the chain. */
  ghost function ScanFrom(v: Pages, s: seq<PageNum>, at: nat, i: nat, op: CompOp, a: int): seq<Rid>
    requires ScanPages(v, s) && at <= |s| && (at < |s| ==> ScanPage(v, s[at]) && i <= |v[s[at]].keys|)
  {
    if at == |s| then [] else PageRest(v, s[at], i, op, a) + ScanAll(v, s[at + 1..], op, a)
  }

  lemma LeavesScan(v: Pages, root: PageNum, sh: Shape)
    requires Tree(v, root, sh)
    ensures ScanPages(v, sh.leaves) && |sh.leaves| > 0
  {
    forall j | 0 <= j < |sh.leaves| ensures ScanPage(v, sh.leaves[j]) {
      var p := sh.leaves[j];
      assert p in v && NodeOk(v[p], sh.at[p]);
    }
  }

  /** Successors follow the list; the last leaf has none. */
  lemma ChainNext(v: Pages, root: PageNum, sh: Shape, at: nat)
    requires Tree(v, root, sh) && at < |sh.leaves|
    ensures sh.leaves[at] in v && v[sh.leaves[at]].Leaf? && sh.leaves[at] > 0
    ensures v[sh.leaves[at]].next == if at + 1 < |sh.leaves| then sh.leaves[at + 1] else NO_NEXT
  {
    var p := sh.leaves[at];
    assert p in v && p > 0;
  }

  // ---------------------------------------------------------------- moving along

  /** Slot `i` of the leaf number `at` is not wanted. */
  lemma PassSlot(v: Pages, s: seq<PageNum>, at: nat, i: nat, op: CompOp, a: int)
    requires ScanPages(v, s) && at < |s| && ScanPage(v, s[at]) && i < |v[s[at]].keys|
    ensures Satisfies(op, v[s[at]].keys[i].attr, a) ==> ScanFrom(v, s, at, i, op, a) == [v[s[at]].rids[i]] + ScanFrom(v, s, at, i + 1, op, a)
    ensures !Satisfies(op, v[s[at]].keys[i].attr, a) ==> ScanFrom(v, s, at, i, op, a) == ScanFrom(v, s, at, i + 1, op, a)
  {
    hide Select, ScanAll, PageRest;
    RestStep(v, s[at], i, op, a);
    var rest, all := PageRest(v, s[at], i + 1, op, a), ScanAll(v, s[at + 1..], op, a);
    assert ([v[s[at]].rids[i]] + rest) + all == [v[s[at]].rids[i]] + (rest + all);
    assert [] + rest == rest;
  }

  /** Looking at one slot. */
  lemma RestStep(v: Pages, p: PageNum, i: nat, op: CompOp, a: int)
    requires ScanPage(v, p) && i < |v[p].keys|
    ensures PageRest(v, p, i, op, a) == (if Satisfies(op, v[p].keys[i].attr, a) then [v[p].rids[i]] else []) + PageRest(v, p, i + 1, op, a)
  {
    assert v[p].keys[i..][1..] == v[p].keys[i + 1..] && v[p].rids[i..][1..] == v[p].rids[i + 1..];
  }

  lemma RestDone(v: Pages, p: PageNum, op: CompOp, a: int)
    requires ScanPage(v, p)
    ensures PageRest(v, p, |v[p].keys|, op, a) == []
  {
  }

  /** At the end of a leaf the scan is at the start of the next one. */
  lemma NextLeaf(v: Pages, s: seq<PageNum>, at: nat, op: CompOp, a: int)
    requires ScanPages(v, s) && at < |s|
    ensures ScanPage(v, s[at]) && (at + 1 < |s| ==> ScanPage(v, s[at + 1]))
    ensures ScanFrom(v, s, at, |v[s[at]].keys|, op, a) == ScanFrom(v, s, at + 1, 0, op, a)
  {
    assert ScanPage(v, s[at]);
    RestDone(v, s[at], op, a);
    if at + 1 < |s| {
      assert ScanPage(v, s[at + 1]);
      assert s[at + 1..][0] == s[at + 1] && s[at + 1..][1..] == s[at + 2..];
    }
  }

  lemma NothingLeft(v: Pages, s: seq<PageNum>, op: CompOp, a: int)
    requires ScanPages(v, s)
    ensures ScanFrom(v, s, |s|, 0, op, a) == []
  {
  }

  lemma ScanStart(v: Pages, s: seq<PageNum>, op: CompOp, a: int)
    requires ScanPages(v, s) && |s| > 0
    ensures ScanPage(v, s[0]) && ScanFrom(v, s, 0, 0, op, a) == ScanAll(v, s, op, a)
  {
  }

  // ---------------------------------------------------------------- entries that may be skipped

  lemma {:induction false} SelectNone(keys: seq<Key>, rids: seq<Rid>, op: CompOp, a: int)
    requires |keys| == |rids| && forall j :: 0 <= j < |keys| ==> !Satisfies(op, keys[j].attr, a)
    ensures Select(keys, rids, op, a) == []
  {
    if keys != [] {
      SelectNone(keys[1..], rids[1..], op, a);
    }
  }

  /** Leaves before number `at` without a wanted entry need not be visited. */
  lemma {:induction false} SkipLeaves(v: Pages, s: seq<PageNum>, at: nat, op: CompOp, a: int)
    requires ScanPages(v, s) && at < |s| && ScanPage(v, s[at])
    requires forall j, x :: 0 <= j < at && 0 <= x < |v[s[j]].keys| ==> s[j] in v && !Satisfies(op, v[s[j]].keys[x].attr, a)
    ensures ScanAll(v, s, op, a) == ScanFrom(v, s, at, 0, op, a)
    decreases at
  {
    if at > 0 {
      assert ScanPage(v, s[0]);
      SelectNone(v[s[0]].keys[0..], v[s[0]].rids[0..], op, a);
      forall j, x | 0 <= j < at - 1 && 0 <= x < |v[s[1..][j]].keys| ensures s[1..][j] in v && !Satisfies(op, v[s[1..][j]].keys[x].attr, a) {
        assert s[1..][j] == s[j + 1];
      }
      SkipLeaves(v, s[1..], at - 1, op, a);
      assert s[1..][at - 1] == s[at] && s[1..][at..] == s[at + 1..];
    }
  }

  /** No stored record identifier is smaller than the one the search for a first entry starts from. */
  ghost predicate RidsAbove(s: seq<Key>) {
    forall k :: k in s ==> CmpRid(k.rid, Rid(-1, -1)) >= 0
  }

  /** Leaves left of the one where the search starts hold only smaller attributes. */
  lemma LeftOfStart(v: Pages, root: PageNum, sh: Shape, p: PageNum, a: int) returns (at: nat)
    requires Tree(v, root, sh) && Owns(v, sh, p, Key(a, Rid(-1, -1))) && v[p].Leaf?
    ensures at < |sh.leaves| && sh.leaves[at] == p && ScanPages(v, sh.leaves)
    ensures RidsAbove(Content(v, sh)) ==> forall j, x :: 0 <= j < at && 0 <= x < |v[sh.leaves[j]].keys| ==> sh.leaves[j] in v && v[sh.leaves[j]].keys[x].attr < a
  {
    LeavesScan(v, root, sh);
    var s := sh.leaves;
    at :| 0 <= at < |s| && s[at] == p;
    if RidsAbove(Content(v, sh)) {
      forall j, x | 0 <= j < at && 0 <= x < |v[s[j]].keys| ensures s[j] in v && v[s[j]].keys[x].attr < a {
        assert ScanPage(v, s[j]);
        LeftOfStartAt(v, root, sh, at, j, x, a);
      }
    }
  }

  lemma LeftOfStartAt(v: Pages, root: PageNum, sh: Shape, at: nat, j: nat, x: nat, a: int)
    requires Tree(v, root, sh) && at < |sh.leaves| && Owns(v, sh, sh.leaves[at], Key(a, Rid(-1, -1))) && RidsAbove(Content(v, sh))
    requires j < at && sh.leaves[j] in v && v[sh.leaves[j]].Leaf? && x < |v[sh.leaves[j]].keys|
    ensures v[sh.leaves[j]].keys[x].attr < a
  {
    var q := sh.leaves[j];
    var k := v[q].keys[x];
    assert NodeOk(v[q], sh.at[q]);
    ChainAscends(v, sh, j, at);
    LeafKeyStored(v, root, sh, q, x);
    assert CmpRid(k.rid, Rid(-1, -1)) >= 0;
  }

  // ---------------------------------------------------------------- the scan in terms of the entries

  ghost function Wanted(s: seq<Key>, op: CompOp, a: int): seq<Rid> {
    if s == [] then [] else (if Satisfies(op, s[0].attr, a) then [s[0].rid] else []) + Wanted(s[1..], op, a)
  }

  lemma {:induction false} WantedConcat(s: seq<Key>, t: seq<Key>, op: CompOp, a: int)
    ensures Wanted(s + t, op, a) == Wanted(s, op, a) + Wanted(t, op, a)
  {
    if s == [] {
      assert s + t == t;
    } else {
      assert (s + t)[1..] == s[1..] + t && (s + t)[0] == s[0];
      WantedConcat(s[1..], t, op, a);
      var h, x, y := if Satisfies(op, s[0].attr, a) then [s[0].rid] else [], Wanted(s[1..], op, a), Wanted(t, op, a);
      assert (h + x) + y == h + (x + y);
    }
  }

  lemma {:induction false} SelectWanted(keys: seq<Key>, rids: seq<Rid>, op: CompOp, a: int)
    requires |keys| == |rids| && forall j :: 0 <= j < |keys| ==> rids[j] == keys[j].rid
    ensures Select(keys, rids, op, a) == Wanted(keys, op, a)
  {
    if keys != [] {
      SelectWanted(keys[1..], rids[1..], op, a);
    }
  }

  /** While every slot holds the identifier of its key, the scan speaks of the stored entries. */
  lemma {:induction false} ScanWanted(v: Pages, s: seq<PageNum>, op: CompOp, a: int)
    requires ScanPages(v, s) && Aligned(v)
    ensures ScanAll(v, s, op, a) == Wanted(Flatten(v, s), op, a)
  {
    if s != [] {
      assert ScanPage(v, s[0]);
      assert ScanPages(v, s[1..]) by {
        forall j | 0 <= j < |s[1..]| ensures ScanPage(v, s[1..][j]) {
          assert s[1..][j] == s[j + 1];
        }
      }
      var n := v[s[0]];
      assert n.keys[0..] == n.keys && n.rids[0..] == n.rids;
      SelectWanted(n.keys, n.rids, op, a);
      ScanWanted(v, s[1..], op, a);
      WantedConcat(n.keys, Flatten(v, s[1..]), op, a);
    }
  }

  /** An identifier is wanted iff some stored entry with that identifier satisfies the predicate. */
  lemma {:induction false} WantedIff(s: seq<Key>, op: CompOp, a: int, r: Rid)
    ensures r in Wanted(s, op, a) <==> exists k :: k in s && k.rid == r && Satisfies(op, k.attr, a)
  {
    if s != [] {
      WantedIff(s[1..], op, a, r);
      assert forall k :: k in s <==> k == s[0] || k in s[1..];
    }
  }
}
