/**
 The segment of apc_sma.c: a buffer of cells in which block headers are
 rewritten in place. Every method is proved against the functions of SmaRuns.
 */
module Sma {
  import opened Align
  import opened SmaSpec
  import opened SmaRuns
  import opened SmaImage

  datatype Link = Link(size: nat, offset: nat)

  // The first k blocks of the list are too small.
  ghost predicate AllBelow(h: Heap, need: nat, k: nat)
    requires k <= |h.list|
  {
    forall j :: 0 <= j < k ==> SizeOf(h.blocks, h.list[j]) < need
  }

  class Segment {
    const c: Config
    const mem: array<nat>    // cell o is the word at byte offset o
    var avail: nat
    ghost var heap: Heap     // the value the cells describe

    ghost predicate Valid()
      reads this, mem
    {
      && c.Valid() && mem.Length == c.seg
      && Inv(c, heap) && Repr(c, mem[..], heap)
      && avail == Avail(c, heap)
    }

    // apc_sma_api_init, for one segment.
    constructor (c: Config)
      requires c.Valid()
      ensures Valid() && fresh(mem) && this.c == c
      ensures heap == Init(c)
    {
      hide Inv, Repr, Init, InitCells, Avail;
      this.c := c;
      mem := new nat[c.seg](_ => 0);
      avail := c.seg - c.hdr - c.blk - c.blk;
      heap := Init(c);
      new;
      InitInv(c);
      InitImage(c, mem[..]);
      Format();
    }

    // The headers of the two sentinels and of the one free block between them.
    method Format()
      requires c.Valid() && mem.Length == c.seg && avail == c.seg - c.hdr - 2 * c.blk
      modifies mem
      ensures mem[..] == InitCells(c, old(mem[..]))
    {
      hide HeaderCells;
      var empty := c.hdr + c.blk;
      var size := avail - c.blk;
      SetHeader(c.hdr, 0, empty, 0, 0);
      SetHeader(empty, size, empty + size, c.hdr, 0);
      SetHeader(empty + size, 0, 0, empty, size);
    }

    method SetHeader(o: nat, size: nat, next: nat, fprev: nat, prev: nat)
      requires c.Valid() && mem.Length == c.seg && o + c.blk <= c.seg
      modifies mem
      ensures mem[..] == HeaderCells(c, old(mem[..]), o, size, next, fprev, prev)
    {
      SetSize(o, size);
      SetNext(o, next);
      SetFprev(o, fprev);
      SetPrev(o, prev);
    }

    // ---------- header fields ----------

    method SetSize(o: nat, v: nat)
      requires c.Valid() && mem.Length == c.seg && o + c.blk <= c.seg
      modifies mem
      ensures mem[..] == PutSize(c, old(mem[..]), o, v)
    {
      mem[o] := v;
    }

    method SetPrev(o: nat, v: nat)
      requires c.Valid() && mem.Length == c.seg && o + c.blk <= c.seg
      modifies mem
      ensures mem[..] == PutPrev(c, old(mem[..]), o, v)
    {
      mem[o + c.word] := v;
    }

    method SetNext(o: nat, v: nat)
      requires c.Valid() && mem.Length == c.seg && o + c.blk <= c.seg
      modifies mem
      ensures mem[..] == PutNext(c, old(mem[..]), o, v)
    {
      mem[o + 2 * c.word] := v;
    }

    method SetFprev(o: nat, v: nat)
      requires c.Valid() && mem.Length == c.seg && o + c.blk <= c.seg
      modifies mem
      ensures mem[..] == PutFprev(c, old(mem[..]), o, v)
    {
      mem[o + 3 * c.word] := v;
    }

    function Size(o: nat): (v: nat)
      requires c.Valid() && mem.Length == c.seg && o + c.blk <= c.seg
      reads mem
      ensures v == SizeAt(c, mem[..], o)
    {
      mem[o]
    }

    function PrevSize(o: nat): (v: nat)
      requires c.Valid() && mem.Length == c.seg && o + c.blk <= c.seg
      reads mem
      ensures v == PrevAt(c, mem[..], o)
    {
      mem[o + c.word]
    }

    function Fnext(o: nat): (v: nat)
      requires c.Valid() && mem.Length == c.seg && o + c.blk <= c.seg
      reads mem
      ensures v == NextAt(c, mem[..], o)
    {
      mem[o + 2 * c.word]
    }

    function Fprev(o: nat): (v: nat)
      requires c.Valid() && mem.Length == c.seg && o + c.blk <= c.seg
      reads mem
      ensures v == FprevAt(c, mem[..], o)
    {
      mem[o + 3 * c.word]
    }

    // ---------- sma_allocate ----------

    // The search loop: the node before the first fitting block, if there is one.
    method Search(need: nat) returns (fit: bool, prv: nat, ghost k: nat)
      requires Valid() && need >= 1
      ensures k == FirstFit(heap.blocks, heap.list, need)
      ensures fit == (FirstFit(heap.blocks, heap.list, need) < |heap.list|)
      ensures fit ==> prv == Nodes(c, heap.list)[FirstFit(heap.blocks, heap.list, need)]
    {
      hide Inv, Repr, SizeAt, NextAt, Nodes, IndexOf, FirstFit;
      ghost var ns := Nodes(c, heap.list);
      prv := c.hdr;
      k := 0;
      NodeStep(c, mem[..], heap, k);
      while Fnext(prv) != 0
        invariant k <= |heap.list| + 1 && prv == ns[k] && prv + c.blk <= c.seg
        invariant Fnext(prv) != 0 <==> k <= |heap.list|
        invariant AllBelow(heap, need, if k < |heap.list| then k else |heap.list|)
        decreases |heap.list| + 1 - k
      {
        NodeStep(c, mem[..], heap, k);
        var cur := Fnext(prv);
        if Size(cur) >= need {
          FirstFitIs(heap.blocks, heap.list, need, k);
          fit := true;
          return;
        }
        prv := cur;
        k := k + 1;
        NodeStep(c, mem[..], heap, k);
      }
      k := |heap.list|;
      FirstFitIs(heap.blocks, heap.list, need, k);
      fit := false;
    }

    // The writes that take a block off the list whole.
    method Unhook(prv: nat, cur: nat, ghost nxt: nat, ghost size: nat)
      requires c.Valid() && mem.Length == c.seg
      requires NextAt(c, mem[..], cur) == nxt && SizeAt(c, mem[..], cur) == size
      requires prv + c.blk <= c.seg && cur + c.blk <= c.seg && nxt + c.blk <= c.seg && cur + size + c.blk <= c.seg
      requires Apart(c, prv, cur) && Apart(c, nxt, cur) && Apart(c, cur + size, cur)
      modifies mem
      ensures SizeAt(c, mem[..], cur) == size
      ensures mem[..] == PutNext(c, PutPrev(c, PutFprev(c, PutNext(c, old(mem[..]), prv, nxt), nxt, prv), cur + size,
        0), cur, 0)
    {
      hide PutSize, PutPrev, PutNext, PutFprev, SizeAt, PrevAt, NextAt, FprevAt, Apart;
      SetNext(prv, Fnext(cur));
      SetFprev(Fnext(cur), prv);
      SetPrev(cur + Size(cur), 0);
      SetNext(cur, 0);
    }

    // cur is big enough but too small to split: it leaves the list whole.
    method TakeWhole(prv: nat, cur: nat, ghost i: nat, ghost k: nat)
      requires Valid() && i < |heap.blocks| && heap.blocks[i].free && k < |heap.list|
      requires heap.list[k] == heap.blocks[i].off == cur && Nodes(c, heap.list)[k] == prv
      modifies this`heap, this`avail, mem
      ensures Valid() && heap == Take(old(heap), i)
      ensures PayloadsKept(c, old(mem[..]), mem[..], old(heap.blocks))
    {
      hide Inv, Repr, Take, PayloadsKept, PutPrev, PutNext, PutFprev, SizeAt, PrevAt, NextAt, FprevAt, Apart,
           TakeCells, Tiles, Chain, IsHeader, Nodes;
      ghost var m, h := mem[..], heap;
      ghost var ns := Nodes(c, heap.list);
      TakeReads(c, m, h, i, k);
      TakeImage(c, m, h, i, k);
      TakeSound(c, h, i);
      TakeKept(c, m, h, ns, i, k);
      TakeCode(c, m, ns, k + 1, cur + h.blocks[i].size);
      Unhook(prv, cur, ns[k + 2], h.blocks[i].size);
      avail := avail - Size(cur);
      heap := Take(h, i);
    }

    // The writes that cut cur after need bytes and put the rest in its place.
    method Cut(cur: nat, need: nat, ghost size: nat, ghost ns: seq<nat>, ghost k: nat)
      requires c.Valid() && mem.Length == c.seg && 0 < k < |ns| - 1 && ns[k] == cur && need <= size
      requires SizeAt(c, mem[..], cur) == size && NextAt(c, mem[..], cur) == ns[k + 1]
        && FprevAt(c, mem[..], cur) == ns[k - 1]
      requires ns[k - 1] + c.blk <= c.seg && ns[k + 1] + c.blk <= c.seg && cur + c.blk <= c.seg
      requires cur + need + c.blk <= c.seg && cur + size + c.blk <= c.seg
      requires Apart(c, cur + need, cur) && Apart(c, cur + size, cur) && Apart(c, cur + size, cur + need)
        && Apart(c, cur, cur + need)
      requires Apart(c, ns[k + 1], cur + need) && Apart(c, ns[k - 1], cur) && Apart(c, ns[k + 1], cur)
      modifies mem
      ensures mem[..] == SplitCells(c, old(mem[..]), ns, k, need, size)
      ensures SizeAt(c, mem[..], cur) == need
    {
      hide PutSize, PutPrev, PutNext, PutFprev, SizeAt, PrevAt, NextAt, FprevAt, Apart;
      var oldsize := Size(cur);
      SetSize(cur, need);
      var nxt := cur + Size(cur);
      SetPrev(nxt, 0);
      SetSize(nxt, oldsize - need);
      SetPrev(nxt + Size(nxt), Size(nxt));
      SetNext(nxt, Fnext(cur));
      SetFprev(nxt, Fprev(cur));
      SetFprev(Fnext(nxt), nxt);
      SetNext(Fprev(nxt), nxt);
      SetNext(cur, 0);
    }

    // cur is cut: its first need bytes are taken.
    method SplitOff(cur: nat, need: nat, ghost i: nat, ghost k: nat)
      requires Valid() && i < |heap.blocks| && heap.blocks[i].free && k < |heap.list|
      requires heap.list[k] == heap.blocks[i].off == cur
      requires c.blk <= need && need + c.blk <= heap.blocks[i].size && Aligned(need, c.word)
      modifies this`heap, this`avail, mem
      ensures Valid() && heap == Split(old(heap), i, k, need)
      ensures PayloadsKept(c, old(mem[..]), mem[..], old(heap.blocks))
    {
      hide Inv, Repr, Split, PayloadsKept, PutPrev, PutNext, PutFprev, SizeAt, PrevAt, NextAt, FprevAt, Apart,
           SplitCells, Tiles, Chain, IsHeader, Nodes;
      ghost var m, h := mem[..], heap;
      ghost var ns := Nodes(c, heap.list);
      TakeReads(c, m, h, i, k);
      SplitReads(c, m, h, i, k, need);
      SplitImage(c, m, h, i, k, need);
      SplitSound(c, h, i, k, need);
      Cut(cur, need, h.blocks[i].size, ns, k + 1);
      avail := avail - Size(cur);
      heap := Split(h, i, k, need);
    }

    method Allocate(size: nat, fragment: nat) returns (r: Grant)
      requires Valid()
      modifies this`heap, this`avail, mem
      ensures Valid() && (heap, r) == Alloc(c, old(heap), size, fragment)
      ensures PayloadsKept(c, old(mem[..]), mem[..], old(heap.blocks))
    {
      hide Inv, Repr, Split, Take, PayloadsKept, PutPrev, PutNext, PutFprev, SizeAt, PrevAt, NextAt, FprevAt, Apart,
           Tiles, Nodes, IndexOf, FirstFit;
      ghost var h := heap;
      KeptSelf(c, mem[..], h.blocks);
      var realsize := c.RealSize(size);
      ListIndex(c, h);
      if avail < realsize {
        FailsExactly(c, h, size, fragment);
        return NoRoom;
      }
      var fit, prv, k := Search(realsize);
      if !fit {
        return NoRoom;
      }
      NodeStep(c, mem[..], h, k);
      var cur := Fnext(prv);
      ghost var i := IndexOf(h.blocks, h.list[k]);
      assert h.list[k] in h.list;
      ListNode(c, h.list, k);
      NodeStep(c, mem[..], h, k + 1);
      if Size(cur) == realsize || (Size(cur) > realsize && Size(cur) < realsize + (c.MinBlock() + fragment)) {
        var granted := Size(cur) - c.blk;
        TakeWhole(prv, cur, i, k);
        return Granted(cur + c.blk, granted);
      } else {
        SplitOff(cur, realsize, i, k);
        return Granted(cur + c.blk, realsize - c.blk);
      }
    }

    // ---------- sma_deallocate ----------

    // Points the neighbours of a list node past it.
    method Unlink(o: nat, ghost ns: seq<nat>, ghost k: nat)
      requires c.Valid() && mem.Length == c.seg && 0 < k < |ns| - 1 && ns[k] == o
      requires NextAt(c, mem[..], o) == ns[k + 1] && FprevAt(c, mem[..], o) == ns[k - 1]
      requires o + c.blk <= c.seg && ns[k - 1] + c.blk <= c.seg && ns[k + 1] + c.blk <= c.seg
      requires Apart(c, ns[k + 1], o)
      modifies mem
      ensures mem[..] == UnlinkCells(c, old(mem[..]), ns, k)
    {
      hide PutSize, PutPrev, PutNext, PutFprev, SizeAt, PrevAt, NextAt, FprevAt, Apart;
      SetFprev(Fnext(o), Fprev(o));
      SetNext(Fprev(o), Fnext(o));
    }

    // One merge of the staged deallocation: node k leaves the list, o grows to size.
    method Merge(node: nat, o: nat, size: nat, ghost m: Cells, ghost bs: seq<Block>, ghost ns: seq<nat>,
                 ghost ns1: seq<nat>, ghost osize: nat, ghost k: nat)
      requires c.Valid() && mem.Length == c.seg && Tiles(c, bs) && |m| == c.seg
      requires Staged(c, m, mem[..], bs, ns, ns1, o, osize) && PayloadsKept(c, m, mem[..], bs)
      requires 0 < k < |ns1| - 1 && ns1[k] == node && IsHeader(c, bs, o)
      modifies mem
      ensures 0 < k < |ns1| - 1 && Staged(c, m, mem[..], bs, ns, Without(ns1, k), o, size)
      ensures PayloadsKept(c, m, mem[..], bs)
    {
      hide PutSize, UnlinkCells, SizeAt, PrevAt, NextAt, FprevAt, Staged, PayloadsKept, Tiles, IsHeader, Apart;
      ghost var m1 := mem[..];
      MergeReads(c, m, m1, bs, ns, ns1, o, osize, k);
      StageMerge(c, m, m1, bs, ns, ns1, o, osize, k, size);
      MergeKeeps(c, m, m1, bs, ns1, k, o, size);
      Unlink(node, ns1, k);
      SetSize(o, size);
    }

    // prev_size after the merged block, then the block at the head of the list.
    method Finish(cur: nat, ghost ns: seq<nat>, ghost size: nat)
      requires c.Valid() && mem.Length == c.seg && |ns| >= 2 && ns[0] == c.hdr
      requires SizeAt(c, mem[..], cur) == size && NextAt(c, mem[..], c.hdr) == ns[1]
      requires cur + c.blk <= c.seg && cur + size + c.blk <= c.seg && ns[0] + c.blk <= c.seg && ns[1] + c.blk <= c.seg
      requires Apart(c, cur, c.hdr) && Apart(c, c.hdr, cur)
      requires cur + size == c.hdr || Apart(c, cur + size, c.hdr)
      modifies mem
      ensures mem[..] == FinishCells(c, old(mem[..]), ns, cur, cur + size, size)
    {
      hide PutSize, PutPrev, PutNext, PutFprev, SizeAt, PrevAt, NextAt, FprevAt, Apart;
      SetPrev(cur + Size(cur), Size(cur));
      var prv := c.hdr;
      SetNext(cur, Fnext(prv));
      SetNext(prv, cur);
      SetFprev(cur, prv);
      SetFprev(Fnext(cur), cur);
    }

    // Lines 228-238: a free left neighbour takes the block over.
    method MergeLeft(block: nat, ghost h: Heap, ghost i: nat) returns (cur: nat)
      requires c.Valid() && mem.Length == c.seg && Inv(c, h) && Repr(c, mem[..], h)
      requires i < |h.blocks| && !h.blocks[i].free && h.blocks[i].off == block
      modifies mem
      ensures |old(mem[..])| == c.seg && cur == h.blocks[MergeLo(h.blocks, i)].off
      ensures Staged(c, old(mem[..]), mem[..], h.blocks, Nodes(c, h.list), Nodes(c, LeftList(h, i)), cur,
        LeftSize(h, i))
      ensures PayloadsKept(c, old(mem[..]), mem[..], h.blocks)
    {
      hide Repr, Live, PayloadsKept, SizeAt, PrevAt, NextAt, FprevAt, Staged, Nodes, MergeLo, LeftList, LeftSize,
           IsHeader, Tiles, Lists, Coalesced, WordAligned, Without;
      ghost var m, bs, ns := mem[..], h.blocks, Nodes(c, h.list);
      ghost var lo := MergeLo(bs, i);
      LeftRead(c, m, h, i);
      KeptSelf(c, m, bs);
      StageZero(c, m, h, lo);
      LeftStage(h, i);
      cur := block;
      if PrevSize(cur) != 0 {
        var prv := cur - PrevSize(cur);
        ghost var k := ListPosition(c, h, prv);
        EndIsHeader(c, bs, lo);
        LeftNodes(c, h, i, k);
        ListNode(c, h.list, k);
        Merge(prv, prv, Size(prv) + Size(cur), m, bs, ns, ns, bs[lo].size, k + 1);
        cur := prv;
      }
    }

    // Lines 240-255: a free right neighbour is taken over.
    method MergeRight(cur: nat, ghost m: Cells, ghost h: Heap, ghost i: nat)
      requires c.Valid() && mem.Length == c.seg && Inv(c, h) && Repr(c, m, h) && |m| == c.seg
      requires i < |h.blocks| && !h.blocks[i].free && cur == h.blocks[MergeLo(h.blocks, i)].off
      requires Staged(c, m, mem[..], h.blocks, Nodes(c, h.list), Nodes(c, LeftList(h, i)), cur, LeftSize(h, i))
      requires PayloadsKept(c, m, mem[..], h.blocks)
      modifies mem
      ensures cur == Merged(h.blocks, i).off
      ensures Staged(c, m, mem[..], h.blocks, Nodes(c, h.list), Nodes(c, Unlinked(h, i)), cur, Merged(h.blocks, i).size)
      ensures PayloadsKept(c, m, mem[..], h.blocks)
    {
      hide Repr, Live, PayloadsKept, SizeAt, PrevAt, NextAt, FprevAt, Staged, Nodes, MergeLo, MergeHi, Unlinked,
           LeftList, LeftSize, Merged, IsHeader, Tiles, Lists, Coalesced, WordAligned, Without;
      ghost var bs, ns := h.blocks, Nodes(c, h.list);
      RightRead(c, m, mem[..], h, i);
      StagedSize(c, m, mem[..], bs, ns, Nodes(c, LeftList(h, i)), cur, LeftSize(h, i));
      RightStage(h, i);
      var nxt := cur + Size(cur);
      if Fnext(nxt) != 0 {
        assert PrevSize(nxt + Size(nxt)) == Size(nxt);
        ghost var k :| 0 <= k < |LeftList(h, i)| && LeftList(h, i)[k] == nxt;
        EndIsHeader(c, bs, MergeLo(bs, i));
        RightNodes(c, h, i, k);
        ListNode(c, LeftList(h, i), k);
        Merge(nxt, cur, Size(cur) + Size(nxt), m, bs, ns, Nodes(c, LeftList(h, i)), LeftSize(h, i), k + 1);
      }
    }

    method Deallocate(offset: nat) returns (size: nat)
      requires Valid() && IsLive(c, heap, offset)
      modifies this`heap, this`avail, mem
      ensures Valid() && heap == Free(c, old(heap), offset)
      ensures Block(offset - c.blk, size, false) in Live(old(heap.blocks))
      ensures PayloadsKept(c, old(mem[..]), mem[..], old(heap.blocks))
    {
      hide Repr, Live, PayloadsKept, SizeAt, PrevAt, NextAt, FprevAt, Staged, Nodes, MergeLo, MergeHi, FreeAt,
           Unlinked, LeftList, LeftSize, Merged, IsHeader, Tiles, IndexOf, Lists, Coalesced, WordAligned, IsLive,
           FinishCells;
      ghost var m, h := mem[..], heap;
      LiveIndex(c, h, offset);
      ghost var i := IndexOf(h.blocks, offset - c.blk);
      LeftRead(c, m, h, i);
      var block := offset - c.blk;
      avail := avail + Size(block);
      size := Size(block);
      var cur := MergeLeft(block, h, i);
      MergeRight(cur, m, h, i);
      ghost var b := Merged(h.blocks, i);
      ghost var ns2 := Nodes(c, Unlinked(h, i));
      FinishReads(c, m, mem[..], h, i, ns2);
      FreeImage(c, m, mem[..], h, i, ns2);
      FinishKeeps(c, m, mem[..], h.blocks, ns2, b.off, EndOf(b), b.size);
      Finish(cur, ns2, b.size);
      BlockFreed(c, h, i);
      heap := FreeAt(h, i);
    }

    // ---------- apc_sma_api_info ----------

    // The free-list walk of the info call: one link per free block, in list order.
    method Info() returns (links: seq<Link>)
      requires Valid()
      ensures |links| == |heap.list|
      ensures forall k :: 0 <= k < |links| ==>
        links[k].offset == heap.list[k] && Block(links[k].offset, links[k].size, true) in heap.blocks
    {
      hide Inv, Repr, SizeAt, NextAt, Nodes, IndexOf;
      ghost var ns := Nodes(c, heap.list);
      var prv := c.hdr;
      links := [];
      NodeStep(c, mem[..], heap, 0);
      NodeStep(c, mem[..], heap, 1);
      while Fnext(Fnext(prv)) != 0
        invariant |links| <= |heap.list| && prv == ns[|links|] && prv + c.blk <= c.seg && Fnext(prv) + c.blk <= c.seg
        invariant Fnext(prv) == ns[|links| + 1]
        invariant Fnext(Fnext(prv)) != 0 <==> |links| < |heap.list|
        invariant forall k :: 0 <= k < |links| ==>
          links[k].offset == heap.list[k] && Block(links[k].offset, links[k].size, true) in heap.blocks
        decreases |heap.list| - |links|
      {
        var cur := Fnext(prv);
        LinkRead(c, mem[..], heap, |links|);
        links := links + [Link(Size(cur), Fnext(prv))];
        prv := cur;
        NodeStep(c, mem[..], heap, |links|);
        NodeStep(c, mem[..], heap, |links| + 1);
      }
    }
  }

  // What reading fnext at node k of the list yields.
  lemma NodeStep(c: Config, m: Cells, h: Heap, k: nat)
    requires c.Valid() && Inv(c, h) && Repr(c, m, h) && k <= |h.list| + 1
    ensures var ns := Nodes(c, h.list);
      && ns[0] == c.hdr && |ns| == |h.list| + 2 && ns[k] + c.blk <= c.seg
      && (k == |h.list| + 1 ==> NextAt(c, m, ns[k]) == 0)
      && (k <= |h.list| ==> NextAt(c, m, ns[k]) == ns[k + 1] && ns[k + 1] > 0 && ns[k + 1] + c.blk <= c.seg)
      && (k == |h.list| ==> SizeAt(c, m, ns[k + 1]) == 0)
      && (k < |h.list| ==>
          IndexOf(h.blocks, h.list[k]) < |h.blocks| && SizeAt(c, m, ns[k + 1]) == SizeOf(h.blocks, h.list[k]))
  {
    hide Lists, Coalesced, WordAligned, Tiles;
    var ns := Nodes(c, h.list);
    NodesSpread(c, h);
    HeadersApart(c, h.blocks, ns[k], ns[k]);
    if k <= |h.list| {
      HeadersApart(c, h.blocks, ns[k + 1], ns[k + 1]);
      HeaderPositive(c, h.blocks, ns[k + 1]);
    }
    if k < |h.list| {
      ListIndex(c, h);
      assert h.list[k] in h.list;
    }
  }

  lemma TakeReads(c: Config, m: Cells, h: Heap, i: nat, k: nat)
    requires c.Valid() && Inv(c, h) && Repr(c, m, h) && i < |h.blocks| && k < |h.list| && h.list[k] == h.blocks[i].off
    ensures var ns, o, e := Nodes(c, h.list), h.blocks[i].off, EndOf(h.blocks[i]);
      && Tiles(c, h.blocks) && Chain(c, h.blocks, ns) && IsHeader(c, h.blocks, e)
      && ns[k + 1] == o && SizeAt(c, m, o) == h.blocks[i].size
      && NextAt(c, m, o) == ns[k + 2] && FprevAt(c, m, o) == ns[k]
      && Fits(c, m, ns[k]) && Fits(c, m, o) && Fits(c, m, ns[k + 2]) && Fits(c, m, e)
      && Apart(c, ns[k], o) && Apart(c, ns[k + 2], o) && Apart(c, ns[k], ns[k + 2]) && Apart(c, e, o)
      && (e == ns[k + 2] || Apart(c, e, ns[k + 2])) && (e == ns[k] || Apart(c, e, ns[k]))
  {
    hide Lists, Coalesced, WordAligned, Tiles, SizeAt, NextAt, FprevAt, PrevAt, IsHeader;
    var bs, ns, o, e := h.blocks, Nodes(c, h.list), h.blocks[i].off, EndOf(h.blocks[i]);
    NodeFacts(c, h, i, k);
    HeaderFits(c, m, bs, ns[k]);
    HeaderFits(c, m, bs, ns[k + 2]);
    HeaderFits(c, m, bs, o);
    HeaderFits(c, m, bs, e);
  }

  // The order of the two link writes is immaterial.
  lemma TakeCode(c: Config, m: Cells, ns: seq<nat>, k: nat, e: nat)
    requires c.Valid() && 0 < k < |ns| - 1
    requires Fits(c, m, ns[k - 1]) && Fits(c, m, ns[k + 1]) && Apart(c, ns[k - 1], ns[k + 1])
    ensures PutNext(c, PutPrev(c, PutFprev(c, PutNext(c, m, ns[k - 1], ns[k + 1]), ns[k + 1], ns[k - 1]), e, 0),
      ns[k], 0) == TakeCells(c, m, ns, k, e)
  {
    assert PutFprev(c, PutNext(c, m, ns[k - 1], ns[k + 1]), ns[k + 1], ns[k - 1]) == UnlinkCells(c, m, ns, k);
  }

  lemma TakeKept(c: Config, m: Cells, h: Heap, ns: seq<nat>, i: nat, k: nat)
    requires c.Valid() && Tiles(c, h.blocks) && Chain(c, h.blocks, ns) && i < |h.blocks| && k + 2 < |ns|
    requires IsHeader(c, h.blocks, EndOf(h.blocks[i])) && ns[k + 1] == h.blocks[i].off
    ensures var m' := TakeCells(c, m, ns, k + 1, EndOf(h.blocks[i]));
      PayloadsKept(c, m, m', h.blocks)
  {
    hide Tiles, IsHeader, PayloadsKept, TakeCells;
    TakeKeeps(c, m, h.blocks, ns, k + 1, EndOf(h.blocks[i]));
  }

  lemma ListNode(c: Config, list: seq<nat>, k: nat)
    requires c.Valid() && k < |list|
    ensures |Nodes(c, list)| == |list| + 2 && Nodes(c, list)[k + 1] == list[k]
  {}

  lemma SplitReads(c: Config, m: Cells, h: Heap, i: nat, k: nat, need: nat)
    requires c.Valid() && Inv(c, h) && Repr(c, m, h) && i < |h.blocks| && h.blocks[i].free
    requires k < |h.list| && h.list[k] == h.blocks[i].off && c.blk <= need && need + c.blk <= h.blocks[i].size
    ensures var ns, o, r, e := Nodes(c, h.list), h.blocks[i].off, h.blocks[i].off + need, EndOf(h.blocks[i]);
      && |ns| == |h.list| + 2
      && Fits(c, m, r) && Apart(c, r, o) && Apart(c, e, r) && Apart(c, o, r) && Apart(c, ns[k + 2], r)
      && PayloadsKept(c, m, SplitCells(c, m, ns, k + 1, need, h.blocks[i].size), h.blocks)
  {
    hide Lists, Coalesced, WordAligned, Tiles, SizeAt, NextAt, FprevAt, PrevAt, IsHeader, PayloadsKept, Inv, Linked;
    NodeFacts(c, h, i, k);
    RestAparts(c, m, h.blocks, i, need);
    SplitKeeps(c, m, h.blocks, Nodes(c, h.list), i, k + 1, need);
  }

  lemma LinkRead(c: Config, m: Cells, h: Heap, k: nat)
    requires c.Valid() && Inv(c, h) && Repr(c, m, h) && k < |h.list|
    ensures Nodes(c, h.list)[k + 1] == h.list[k]
    ensures Block(h.list[k], SizeAt(c, m, h.list[k]), true) in h.blocks
  {
    hide SizeAt;
    ListIndex(c, h);
    ListNode(c, h.list, k);
    NodeStep(c, m, h, k);
    var i := IndexOf(h.blocks, h.list[k]);
    assert h.list[k] in h.list;
    assert h.blocks[i] == Block(h.list[k], SizeAt(c, m, h.list[k]), true);
  }

  lemma MergeReads(c: Config, m: Cells, m1: Cells, bs: seq<Block>, ns: seq<nat>, ns1: seq<nat>, o: nat, osize: nat,
                   k: nat)
    requires c.Valid() && Tiles(c, bs) && |m| == c.seg && Staged(c, m, m1, bs, ns, ns1, o, osize)
    requires 0 < k < |ns1| - 1 && IsHeader(c, bs, o)
    ensures NextAt(c, m1, ns1[k]) == ns1[k + 1] && FprevAt(c, m1, ns1[k]) == ns1[k - 1]
    ensures Fits(c, m1, ns1[k]) && Fits(c, m1, ns1[k - 1]) && Fits(c, m1, ns1[k + 1]) && Fits(c, m1, o) && |m1| == c.seg
    ensures Apart(c, ns1[k + 1], ns1[k]) && AllHeaders(c, bs, ns1)
  {
    hide SizeAt, PrevAt, NextAt, FprevAt, Apart, IsHeader, Tiles;
    HeaderFits(c, m1, bs, ns1[k - 1]);
    HeaderFits(c, m1, bs, ns1[k]);
    HeaderFits(c, m1, bs, ns1[k + 1]);
    HeaderFits(c, m1, bs, o);
  }

  lemma StagedSize(c: Config, m: Cells, m1: Cells, bs: seq<Block>, ns: seq<nat>, ns1: seq<nat>, o: nat, size: nat)
    requires c.Valid() && Staged(c, m, m1, bs, ns, ns1, o, size)
    ensures SizeAt(c, m1, o) == size
  {}

  lemma LeftStage(h: Heap, i: nat)
    requires i < |h.blocks|
    ensures MergeLo(h.blocks, i) == i ==> LeftList(h, i) == h.list && LeftSize(h, i) == h.blocks[i].size
    ensures MergeLo(h.blocks, i) < i ==> LeftSize(h, i) == h.blocks[MergeLo(h.blocks, i)].size + h.blocks[i].size
  {}

  lemma RightStage(h: Heap, i: nat)
    requires i < |h.blocks|
    ensures Merged(h.blocks, i).off == h.blocks[MergeLo(h.blocks, i)].off
    ensures MergeHi(h.blocks, i) == i ==> Unlinked(h, i) == LeftList(h, i) && Merged(h.blocks, i).size == LeftSize(h, i)
    ensures MergeHi(h.blocks, i) > i ==>
      i + 1 < |h.blocks| && Merged(h.blocks, i).size == LeftSize(h, i) + h.blocks[i + 1].size
  {}

  lemma FinishReads(c: Config, m: Cells, m2: Cells, h: Heap, i: nat, ns2: seq<nat>)
    requires c.Valid() && Inv(c, h) && i < |h.blocks| && !h.blocks[i].free && |m| == c.seg
    requires ns2 == Nodes(c, Unlinked(h, i))
    requires Staged(c, m, m2, h.blocks, Nodes(c, h.list), ns2, Merged(h.blocks, i).off, Merged(h.blocks, i).size)
    ensures var o, e := Merged(h.blocks, i).off, EndOf(Merged(h.blocks, i));
      && |m2| == c.seg && |ns2| >= 2 && ns2[0] == c.hdr
      && SizeAt(c, m2, o) == Merged(h.blocks, i).size && NextAt(c, m2, c.hdr) == ns2[1]
      && Fits(c, m2, o) && Fits(c, m2, e) && Fits(c, m2, ns2[0]) && Fits(c, m2, ns2[1])
      && Apart(c, o, c.hdr) && Apart(c, c.hdr, o) && (e == c.hdr || Apart(c, e, c.hdr))
      && AllHeaders(c, h.blocks, ns2) && IsHeader(c, h.blocks, o) && IsHeader(c, h.blocks, e)
  {
    hide SizeAt, PrevAt, NextAt, FprevAt, Apart, IsHeader, Tiles, Merged, Unlinked, MergeLo, MergeHi, Nodes, Lists,
         Coalesced, WordAligned;
    var bs, b := h.blocks, Merged(h.blocks, i);
    MergedHeaders(c, h, i);
    HeaderFits(c, m2, bs, b.off);
    HeaderFits(c, m2, bs, EndOf(b));
    HeaderFits(c, m2, bs, ns2[0]);
    HeaderFits(c, m2, bs, ns2[1]);
    assert ns2[0] in ns2;
  }

  lemma BlockFreed(c: Config, h: Heap, i: nat)
    requires c.Valid() && Inv(c, h) && i < |h.blocks| && !h.blocks[i].free
    ensures Inv(c, FreeAt(h, i)) && Avail(c, FreeAt(h, i)) == Avail(c, h) + h.blocks[i].size
    ensures Block(h.blocks[i].off, h.blocks[i].size, false) in Live(h.blocks)
  {
    hide Lists, Coalesced, WordAligned, FreeAt;
    InvFree(c, h, i);
    FreeEffect(c, h, i);
    assert h.blocks[i] == Block(h.blocks[i].off, h.blocks[i].size, false);
  }
}
