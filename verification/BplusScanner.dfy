/** A scan of the index: an operator, a value and a place in the chain of leaves. */
module BplusScanner {
  import opened IndexKeys
  import opened PageTree
  import opened KeyLabels
  import opened PageScan
  import opened BplusTree

  class BplusTreeScanner {
    const index: BplusTreeHandler
    var isOpen: bool
    var compOp: CompOp
    var value: int
    var fixedPages: nat
    var pinned: seq<PageNum>        // pages held in memory
    var nextHandle: nat             // the pinned page to look at
    var indexInNode: int            // the slot to look at
    var nextPage: PageNum           // the page to pin next
    ghost var at: nat               // number of the leaf to look at

    constructor (handler: BplusTreeHandler)
      ensures index == handler && !isOpen && at == 0
    {
      index := handler;
      isOpen, compOp, value := false, NoOp, 0;
      fixedPages, pinned, nextHandle, indexInNode, nextPage := 0, [], 0, -1, -1;
      at := 0;
    }

    /** The scan is open on an intact index and its cursors agree with the place `at` in the chain. */
    ghost predicate Ready()
      reads this, index, index.Footprint()
    {
      && this !in index.Footprint() && index.Valid() && isOpen && fixedPages == 1
      && CursorsOk(index.View(), index.shape.leaves)
    }

    ghost predicate CursorsOk(v: Pages, s: seq<PageNum>)
      reads this
    {
      && ScanPages(v, s) && at <= |s| && |pinned| <= 1 && nextHandle <= |pinned|
      && (at < |s| ==> ScanPage(v, s[at]) && 0 <= indexInNode <= |v[s[at]].keys|)
      && (nextHandle < |pinned| ==> at < |s| && pinned[nextHandle] == s[at] && nextPage == v[s[at]].next)
      && (nextHandle >= |pinned| ==> if at < |s| then nextPage == s[at] else nextPage <= 0)
    }

    /** What the scan has still to return. */
    ghost function Remaining(): seq<Rid>
      reads this, index, index.Footprint()
      requires Ready()
    {
      RemainingIn(index.View(), index.shape.leaves)
    }

    ghost function RemainingIn(v: Pages, s: seq<PageNum>): seq<Rid>
      reads this
      requires CursorsOk(v, s)
    {
      if at < |s| then ScanFrom(v, s, at, indexInNode, compOp, value) else []
    }

    /** Leaves not passed yet. */
    ghost function LeavesAhead(): nat
      reads this, index, index.Footprint()
      requires Ready()
    {
      |index.shape.leaves| - at
    }

    /** Sets the cursors: no page is pinned yet, and `start` is the leaf to look at first. */
    method SetCursors(op: CompOp, a: int, page: PageNum, idx: int, ghost start: nat)
      requires index.Valid() && this !in index.Footprint() && ScanPages(index.View(), index.shape.leaves)
      requires if start < |index.shape.leaves| then
                 page == index.shape.leaves[start] && ScanPage(index.View(), page) && 0 <= idx <= |index.View()[page].keys|
               else start == |index.shape.leaves| && page <= 0
      modifies this
      ensures Ready() && compOp == op && value == a && index.View() == old(index.View()) && index.shape == old(index.shape)
      ensures Remaining() == if start < |index.shape.leaves| then ScanFrom(index.View(), index.shape.leaves, start, idx, op, a) else []
    {
      hide BplusTreeHandler.Pool, BplusTreeHandler.View, BplusTreeHandler.Footprint, BplusTreeHandler.Valid, ScanFrom, ScanPages, ScanPage;
      compOp, value := op, a;
      nextPage, indexInNode := page, idx;
      fixedPages, nextHandle, pinned := 1, 0, [];
      isOpen, at := true, start;
    }

    /**
     Opens the scan. What it then has to return are the identifiers of all wanted entries; a scan
     without an operator has nothing to return.
     */
    method Open(op: CompOp, a: int) returns (rc: RC)
      requires index.Valid() && this !in index.Footprint()
      modifies this
      ensures rc == if old(isOpen) then RECORD_OPENNED else SUCCESS
      ensures rc == SUCCESS ==> Ready() && compOp == op && value == a && index.View() == old(index.View()) && index.shape == old(index.shape)
      ensures rc == SUCCESS && RidsAbove(index.Entries()) ==>
                Remaining() == if op == NoOp then [] else ScanAll(index.View(), index.shape.leaves, op, a)
      ensures rc != SUCCESS ==> unchanged(this)
    {
      hide BplusTreeHandler.Pool, BplusTreeHandler.View, BplusTreeHandler.Footprint, WellFormed, Content, ScanFrom, ScanAll, RidsAbove, ScanPages, ScanPage, Ready, Remaining;
      if isOpen {
        return RECORD_OPENNED;
      }
      var page, idx;
      ghost var start;
      rc, page, idx, start := index.FindFirstIndexSatisfied(op, a);
      if rc == RECORD_EOF {
        page, idx := -1, -1;
        start := |index.shape.leaves|;
      }
      SetCursors(op, a, page, idx, start);
      rc := SUCCESS;
    }

    method Close() returns (rc: RC)
      requires isOpen ==> Ready()
      modifies this`isOpen
      ensures !isOpen && rc == if old(isOpen) then SUCCESS else RECORD_SCANCLOSED
      ensures old(isOpen) ==> index.Valid() && index.View() == old(index.View()) && index.shape == old(index.shape)
    {
      hide BplusTreeHandler.Pool, BplusTreeHandler.View, BplusTreeHandler.Footprint, BplusTreeHandler.Valid, CursorsOk;
      if !isOpen {
        return RECORD_SCANCLOSED;
      }
      isOpen := false;
      return SUCCESS;
    }

    /** Whether a key is wanted. */
    predicate SatisfyCondition(k: Key)
      reads this
      ensures SatisfyCondition(k) == Satisfies(compOp, k.attr, value)
    {
      Satisfies(compOp, k.attr, value)
    }

    /** Nothing wanted is left on the page looked at, so the next leaf is the one to look at. */
    method LeavePage()
      requires Ready() && nextHandle < |pinned| && indexInNode == |index.View()[index.shape.leaves[at]].keys|
      modifies this`nextHandle, this`indexInNode, this`at
      ensures Ready() && at == old(at) + 1 && nextHandle >= |pinned| && Remaining() == old(Remaining())
      ensures index.View() == old(index.View()) && index.shape == old(index.shape)
    {
      hide BplusTreeHandler.Pool, BplusTreeHandler.View, BplusTreeHandler.Footprint, Tree, Sized, Content, ScanFrom, ScanAll, PageRest, BoundLess;
      ghost var v, s := index.View(), index.shape.leaves;
      NextLeaf(v, s, at, compOp, value);
      ChainNext(v, index.rootPage, index.shape, at);
      NothingLeft(v, s, compOp, value);
      indexInNode, nextHandle, at := 0, nextHandle + 1, at + 1;
    }

    /** The next wanted entry of the pinned page, if there is one. */
    method GetNextIdxInMemory() returns (rc: RC, rid: Rid)
      requires Ready()
      modifies this`nextHandle, this`indexInNode, this`at
      ensures Ready() && LeavesAhead() <= old(LeavesAhead()) && index.View() == old(index.View()) && index.shape == old(index.shape)
      ensures rc == SUCCESS || rc == RECORD_NO_MORE_IDX_IN_MEM
      ensures rc == SUCCESS ==> old(Remaining()) == [rid] + Remaining()
      ensures rc == RECORD_NO_MORE_IDX_IN_MEM ==> Remaining() == old(Remaining()) && nextHandle >= |pinned|
      ensures rc == RECORD_NO_MORE_IDX_IN_MEM && old(nextHandle < |pinned|) ==> LeavesAhead() < old(LeavesAhead())
    {
      hide BplusTreeHandler.Pool, BplusTreeHandler.View, BplusTreeHandler.Footprint, Tree, Sized, Content, ScanFrom, ScanAll, PageRest, BoundLess;
      ghost var v, s, todo := index.View(), index.shape.leaves, Remaining();
      rid := Rid(-1, -1);
      if nextHandle >= |pinned| {
        return RECORD_NO_MORE_IDX_IN_MEM, rid;
      }
      if nextPage == -1 && indexInNode == -1 {
        return RECORD_EOF, rid;
      }
      while nextHandle < |pinned|
        invariant Ready() && Remaining() == todo && at >= old(at)
        invariant nextHandle >= |pinned| ==> at > old(at)
        invariant index.View() == v && index.shape.leaves == s
      {
        var p := pinned[nextHandle];
        while indexInNode < index.KeyNum(p)
          invariant Ready() && Remaining() == todo && at >= old(at)
          invariant index.View() == v && index.shape.leaves == s
          invariant nextHandle < |pinned| && p == pinned[nextHandle]
          decreases |v[p].keys| - indexInNode
        {
          PassSlot(v, s, at, indexInNode, compOp, value);
          if SatisfyCondition(index.KeyAt(p, indexInNode)) {
            rid := index.RidAt(p, indexInNode);
            indexInNode := indexInNode + 1;
            return SUCCESS, rid;
          }
          indexInNode := indexInNode + 1;
        }
        LeavePage();
      }
      return RECORD_NO_MORE_IDX_IN_MEM, rid;
    }

    /** Pins the next page of the chain. */
    method FindIdxPages() returns (rc: RC)
      requires Ready() && nextHandle >= |pinned|
      modifies this`nextHandle, this`pinned, this`nextPage
      ensures Ready() && Remaining() == old(Remaining()) && LeavesAhead() == old(LeavesAhead())
      ensures index.View() == old(index.View()) && index.shape == old(index.shape)
      ensures rc == if LeavesAhead() == 0 then RECORD_EOF else SUCCESS
      ensures rc == SUCCESS ==> nextHandle < |pinned|
    {
      hide BplusTreeHandler.Pool, BplusTreeHandler.View, BplusTreeHandler.Footprint, Tree, Sized, ScanFrom;
      nextHandle, pinned := 0, [];
      if at < |index.shape.leaves| {
        ChainNext(index.View(), index.rootPage, index.shape, at);
      }
      var i := 0;
      while i < fixedPages && nextPage > 0
        invariant i <= 1 && Ready() && Remaining() == old(Remaining()) && at == old(at) && nextHandle == 0 && |pinned| == i
        invariant i == 0 ==> (nextPage > 0 <==> at < |index.shape.leaves|)
        invariant i == 1 ==> at < |index.shape.leaves|
        invariant index.View() == old(index.View()) && index.shape == old(index.shape)
        decreases 1 - i
      {
        pinned := pinned + [nextPage];
        nextPage := index.NextOf(nextPage);
        i := i + 1;
      }
      rc := if |pinned| > 0 then SUCCESS else RECORD_EOF;
    }

    /**
     The next wanted entry. The answer "no more in memory" does not end the scan: it says that the
     page just pinned has no wanted entry.
     */
    method NextEntry() returns (rc: RC, rid: Rid)
      requires isOpen ==> Ready()
      modifies this`nextHandle, this`indexInNode, this`at, this`pinned, this`nextPage
      ensures !isOpen ==> rc == RECORD_CLOSED && unchanged(this)
      ensures isOpen ==> Ready() && index.View() == old(index.View()) && index.shape == old(index.shape)
      ensures isOpen ==> (rc == SUCCESS || rc == RECORD_NO_MORE_IDX_IN_MEM || rc == RECORD_EOF)
      ensures rc == SUCCESS ==> old(Remaining()) == [rid] + Remaining() && LeavesAhead() <= old(LeavesAhead())
      ensures rc == RECORD_NO_MORE_IDX_IN_MEM ==> Remaining() == old(Remaining()) && LeavesAhead() < old(LeavesAhead())
      ensures rc == RECORD_EOF ==> Remaining() == old(Remaining()) == []
    {
      hide BplusTreeHandler.Pool, BplusTreeHandler.View, BplusTreeHandler.Footprint, Tree, Sized, ScanFrom, ScanPages, ScanPage;
      if !isOpen {
        return RECORD_CLOSED, Rid(-1, -1);
      }
      rc, rid := GetNextIdxInMemory();
      if rc == RECORD_NO_MORE_IDX_IN_MEM {
        rc := FindIdxPages();
        if rc != SUCCESS {
          return;
        }
        rc, rid := GetNextIdxInMemory();
      }
    }

    /** Calls `NextEntry` until it reports the end, taking "no more in memory" as a request to call again. */
    method ScanToEnd() returns (found: seq<Rid>)
      requires isOpen && Ready()
      modifies this`nextHandle, this`indexInNode, this`at, this`pinned, this`nextPage
      ensures Ready() && found == old(Remaining()) && index.View() == old(index.View()) && index.shape == old(index.shape)
    {
      hide BplusTreeHandler.Pool, BplusTreeHandler.View, BplusTreeHandler.Footprint, CursorsOk, RemainingIn, Tree, Sized;
      found := [];
      var more := true;
      while more
        invariant isOpen && Ready() && found + Remaining() == old(Remaining())
        invariant index.View() == old(index.View()) && index.shape == old(index.shape)
        invariant !more ==> Remaining() == []
        decreases more, LeavesAhead(), |Remaining()|
      {
        var rc, rid := NextEntry();
        if rc == SUCCESS {
          found := found + [rid];
        }
        more := rc != RECORD_EOF;
      }
    }

    /**
     A whole scan: opened on an index whose record identifiers are all at least (-1, -1), it yields what the
     slots beside the wanted keys hold, in the order of the keys; these are the identifiers of exactly the
     entries that satisfy the predicate while every slot holds the identifier of its key.
     */
    method Scan(op: CompOp, a: int) returns (found: seq<Rid>)
      requires index.Valid() && this !in index.Footprint() && !isOpen && op != NoOp
      modifies this
      ensures index.Valid() && index.View() == old(index.View()) && index.shape == old(index.shape)
      ensures RidsAbove(index.Entries()) ==> ScanPages(index.View(), index.shape.leaves) && found == ScanAll(index.View(), index.shape.leaves, op, a)
      ensures RidsAbove(index.Entries()) && Aligned(index.View()) ==> found == Wanted(index.Entries(), op, a)
    {
      hide BplusTreeHandler.Pool, BplusTreeHandler.View, BplusTreeHandler.Footprint, CursorsOk, RemainingIn, ScanAll, Aligned, RidsAbove, Tree;
      var rc := Open(op, a);
      LeavesScan(index.View(), index.rootPage, index.shape);
      if Aligned(index.View()) {
        ScanWanted(index.View(), index.shape.leaves, op, a);
      }
      found := ScanToEnd();
      rc := Close();
    }
  }
}
