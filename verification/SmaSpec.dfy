/**
 The shared-memory allocator as a value: the physical blocks of a segment, in
 address order, and the offsets of its free blocks, in free-list order.
 Allocation and deallocation are functions on that value.
 */
module SmaSpec {
  import opened Align

  // Word size, aligned size of the segment header, aligned size of a block
  // header, and size of the segment.
  datatype Config = Config(word: nat, hdr: nat, blk: nat, seg: nat) {
    ghost predicate Valid() {
      && word >= 1
      && Aligned(hdr, word) && Aligned(blk, word) && Aligned(seg, word)
      && hdr >= word
      && blk >= 4 * word                // size, prev_size, fnext, fprev
      && seg >= hdr + 3 * blk + blk     // two sentinels, one block, one unused header
    }

    // The offsets of the first real block and of the sentinel that ends the tiling.
    function Start(): nat { hdr + blk }
    function End(): nat requires Valid() { seg - 2 * blk }

    // The size, header included, that a request for size bytes is rounded to.
    function RealSize(size: nat): nat requires Valid() { AlignSize(size + blk, word) }

    function MinBlock(): nat requires Valid() { AlignSize(1, word) + blk }
  }

  datatype Block = Block(off: nat, size: nat, free: bool)

  datatype Heap = Heap(blocks: seq<Block>, list: seq<nat>)

  // ---------- the heap invariant ----------

  ghost predicate Contiguous(bs: seq<Block>) {
    forall i, j :: 0 <= i < j < |bs| && j == i + 1 ==> bs[j].off == bs[i].off + bs[i].size
  }

  ghost predicate Tiles(c: Config, bs: seq<Block>)
    requires c.Valid()
  {
    && |bs| > 0
    && bs[0].off == c.Start()
    && bs[|bs| - 1].off + bs[|bs| - 1].size == c.End()
    && (forall i :: 0 <= i < |bs| ==> bs[i].size >= c.blk)
    && Contiguous(bs)
  }

  ghost predicate Coalesced(bs: seq<Block>) {
    forall i, j :: 0 <= i < j < |bs| && j == i + 1 ==> !(bs[i].free && bs[j].free)
  }

  ghost predicate WordAligned(c: Config, bs: seq<Block>)
    requires c.Valid()
  {
    forall i :: 0 <= i < |bs| ==> Aligned(bs[i].off, c.word) && Aligned(bs[i].size, c.word)
  }

  ghost predicate Distinct(s: seq<nat>) {
    forall i, j :: 0 <= i < j < |s| ==> s[i] != s[j]
  }

  ghost predicate HasFree(bs: seq<Block>, off: nat) {
    exists i :: 0 <= i < |bs| && bs[i].off == off && bs[i].free
  }

  // The free list visits every free block exactly once, and nothing else.
  ghost predicate Lists(bs: seq<Block>, list: seq<nat>) {
    && Distinct(list)
    && (forall o :: o in list <==> HasFree(bs, o))
  }

  ghost predicate Inv(c: Config, h: Heap)
    requires c.Valid()
  {
    && Tiles(c, h.blocks)
    && Coalesced(h.blocks)
    && WordAligned(c, h.blocks)
    && Lists(h.blocks, h.list)
  }

  function FreeSum(bs: seq<Block>): nat {
    if bs == [] then 0 else (if bs[0].free then bs[0].size else 0) + FreeSum(bs[1..])
  }

  // What the header field avail holds.
  function Avail(c: Config, h: Heap): nat { FreeSum(h.blocks) + c.blk }

  // The allocated extents.
  ghost function Live(bs: seq<Block>): set<Block> {
    set b | b in bs && !b.free
  }

  // ---------- the operations ----------

  function Init(c: Config): Heap
    requires c.Valid()
  {
    Heap([Block(c.Start(), c.End() - c.Start(), true)], [c.Start()])
  }

  function IndexOf(bs: seq<Block>, off: nat): (i: nat)
    ensures i <= |bs|
    ensures i < |bs| ==> bs[i].off == off
    ensures forall j :: 0 <= j < i ==> bs[j].off != off
  {
    if bs == [] then 0 else if bs[0].off == off then 0 else 1 + IndexOf(bs[1..], off)
  }

  function Remove(s: seq<nat>, x: nat): (r: seq<nat>)
    ensures forall y :: y in r <==> y in s && y != x
    ensures Distinct(s) ==> Distinct(r)
  {
    if s == [] then [] else
    var r := Remove(s[1..], x);
    assert Distinct(s) ==> Distinct(s[1..]) && s[0] !in s[1..];
    if s[0] == x then r else [s[0]] + r
  }

  // The blocks lo..hi are exchanged for mid.
  function Replace(bs: seq<Block>, lo: nat, hi: nat, mid: seq<Block>): seq<Block>
    requires lo < hi <= |bs|
  {
    bs[..lo] + mid + bs[hi..]
  }

  // The size of the block at an offset, or 0 where no block starts.
  function SizeOf(bs: seq<Block>, off: nat): (size: nat)
    ensures size > 0 ==> IndexOf(bs, off) < |bs| && bs[IndexOf(bs, off)].size == size
  {
    if IndexOf(bs, off) < |bs| then bs[IndexOf(bs, off)].size else 0
  }

  // The first position of the list whose block has at least need bytes, or |list|.
  function FirstFit(bs: seq<Block>, list: seq<nat>, need: nat): (k: nat)
    ensures k <= |list|
    ensures k < |list| ==> SizeOf(bs, list[k]) >= need
    ensures forall j :: 0 <= j < k ==> SizeOf(bs, list[j]) < need
  {
    if list == [] || SizeOf(bs, list[0]) >= need then 0
    else 1 + FirstFit(bs, list[1..], need)
  }

  lemma FirstFitIs(bs: seq<Block>, list: seq<nat>, need: nat, k: nat)
    requires k <= |list| && forall j :: 0 <= j < k ==> SizeOf(bs, list[j]) < need
    requires k < |list| ==> SizeOf(bs, list[k]) >= need
    ensures FirstFit(bs, list, need) == k
  {
    var f := FirstFit(bs, list, need);
    assert !(f < k) && !(k < f);
  }

  // Block i is taken whole.
  function Take(h: Heap, i: nat): Heap
    requires i < |h.blocks|
  {
    Heap(h.blocks[i := h.blocks[i].(free := false)], Remove(h.list, h.blocks[i].off))
  }

  function Halves(b: Block, need: nat): seq<Block>
    requires need <= b.size
  {
    [Block(b.off, need, false), Block(b.off + need, b.size - need, true)]
  }

  // Block i is cut after need bytes; the rest replaces it at position k of the list.
  function Split(h: Heap, i: nat, k: nat, need: nat): Heap
    requires i < |h.blocks| && k < |h.list| && need <= h.blocks[i].size
  {
    var b := h.blocks[i];
    Heap(Replace(h.blocks, i, i + 1, Halves(b, need)), h.list[k := b.off + need])
  }

  // The decision of the allocator for a block that is large enough.
  predicate Splits(c: Config, blockSize: nat, need: nat, fragment: nat)
    requires c.Valid()
  {
    blockSize >= need + c.MinBlock() + fragment
  }

  // The list without the free neighbours of block i.
  function Unlinked(h: Heap, i: nat): (r: seq<nat>)
    requires i < |h.blocks|
    ensures Distinct(h.list) ==> Distinct(r)
    ensures forall o :: o in r <==>
      o in h.list && !(MergeLo(h.blocks, i) < i && o == h.blocks[MergeLo(h.blocks, i)].off)
                  && !(MergeHi(h.blocks, i) > i && o == h.blocks[MergeHi(h.blocks, i)].off)
  {
    var bs, lo, hi := h.blocks, MergeLo(h.blocks, i), MergeHi(h.blocks, i);
    var l1 := if lo < i then Remove(h.list, bs[lo].off) else h.list;
    if hi > i then Remove(l1, bs[hi].off) else l1
  }

  // Marks block i free, merging it with a free left and a free right neighbour;
  // the merged block goes to the head of the list.
  function FreeAt(h: Heap, i: nat): Heap
    requires i < |h.blocks|
  {
    var bs, lo, hi := h.blocks, MergeLo(h.blocks, i), MergeHi(h.blocks, i);
    Heap(Replace(bs, lo, hi + 1, [Merged(bs, i)]), [bs[lo].off] + Unlinked(h, i))
  }

  // ---------- offsets ----------

  lemma {:induction false} Ordered(c: Config, bs: seq<Block>, i: nat, j: nat)
    requires c.Valid() && Tiles(c, bs) && i < j < |bs|
    ensures bs[i].off + bs[i].size <= bs[j].off
    decreases j
  {
    if i + 1 < j {
      Ordered(c, bs, i, j - 1);
    }
  }

  lemma OrderedAll(c: Config, bs: seq<Block>)
    requires c.Valid() && Tiles(c, bs)
    ensures forall i, j :: 0 <= i < j < |bs| ==> bs[i].off + bs[i].size <= bs[j].off
    ensures forall i :: 0 <= i < |bs| ==> c.Start() <= bs[i].off && bs[i].off + bs[i].size <= c.End()
  {
    forall i, j | 0 <= i < j < |bs| ensures bs[i].off + bs[i].size <= bs[j].off { Ordered(c, bs, i, j); }
    forall i | 0 <= i < |bs| ensures c.Start() <= bs[i].off && bs[i].off + bs[i].size <= c.End() {
      if i > 0 { Ordered(c, bs, 0, i); }
      if i < |bs| - 1 { Ordered(c, bs, i, |bs| - 1); }
    }
  }

  lemma IndexOfAt(c: Config, bs: seq<Block>, i: nat)
    requires c.Valid() && Tiles(c, bs) && i < |bs|
    ensures IndexOf(bs, bs[i].off) == i
  {
    OrderedAll(c, bs);
  }

  lemma ListIndex(c: Config, h: Heap)
    requires c.Valid() && Inv(c, h)
    ensures forall o :: o in h.list ==> IndexOf(h.blocks, o) < |h.blocks| && h.blocks[IndexOf(h.blocks, o)].free
    ensures forall i :: 0 <= i < |h.blocks| && h.blocks[i].free ==> h.blocks[i].off in h.list
  {
    forall o | o in h.list ensures IndexOf(h.blocks, o) < |h.blocks| && h.blocks[IndexOf(h.blocks, o)].free {
      var i :| 0 <= i < |h.blocks| && h.blocks[i].off == o && h.blocks[i].free;
      IndexOfAt(c, h.blocks, i);
    }
    forall i | 0 <= i < |h.blocks| && h.blocks[i].free ensures h.blocks[i].off in h.list {
      assert HasFree(h.blocks, h.blocks[i].off);
    }
  }

  // ---------- every operation keeps the invariant ----------

  // mid covers the same bytes as the blocks lo..hi.
  ghost predicate Covers(c: Config, bs: seq<Block>, lo: nat, hi: nat, mid: seq<Block>)
    requires c.Valid() && lo < hi <= |bs|
  {
    && |mid| > 0
    && mid[0].off == bs[lo].off
    && mid[|mid| - 1].off + mid[|mid| - 1].size == bs[hi - 1].off + bs[hi - 1].size
    && (forall i :: 0 <= i < |mid| ==> mid[i].size >= c.blk)
    && Contiguous(mid)
  }

  lemma ContiguousConcat(a: seq<Block>, b: seq<Block>)
    requires Contiguous(a) && Contiguous(b)
    requires a != [] && b != [] ==> b[0].off == a[|a| - 1].off + a[|a| - 1].size
    ensures Contiguous(a + b)
  {
    var r := a + b;
    forall i, j | 0 <= i < j < |r| && j == i + 1 ensures r[j].off == r[i].off + r[i].size {
      if j < |a| {
        assert r[i] == a[i] && r[j] == a[j];
      } else if i >= |a| {
        assert r[i] == b[i - |a|] && r[j] == b[j - |a|];
      }
    }
  }

  lemma ContiguousReplace(bs: seq<Block>, lo: nat, hi: nat, mid: seq<Block>)
    requires lo < hi <= |bs| && |mid| > 0 && Contiguous(bs) && Contiguous(mid)
    requires mid[0].off == bs[lo].off
    requires mid[|mid| - 1].off + mid[|mid| - 1].size == bs[hi - 1].off + bs[hi - 1].size
    ensures Contiguous(Replace(bs, lo, hi, mid))
  {
    var a, b := bs[..lo], bs[hi..];
    assert lo > 0 ==> bs[lo].off == bs[lo - 1].off + bs[lo - 1].size;
    assert hi < |bs| ==> bs[hi].off == bs[hi - 1].off + bs[hi - 1].size;
    assert Contiguous(a) && Contiguous(b);
    hide Contiguous;
    ContiguousConcat(a, mid);
    ContiguousConcat(a + mid, b);
  }

  lemma TilesReplace(c: Config, bs: seq<Block>, lo: nat, hi: nat, mid: seq<Block>)
    requires c.Valid() && Tiles(c, bs) && lo < hi <= |bs| && Covers(c, bs, lo, hi, mid)
    ensures Tiles(c, Replace(bs, lo, hi, mid))
  {
    hide Contiguous;
    ContiguousReplace(bs, lo, hi, mid);
  }

  lemma {:induction false} FreeSumConcat(a: seq<Block>, b: seq<Block>)
    ensures FreeSum(a + b) == FreeSum(a) + FreeSum(b)
  {
    if a == [] {
      assert a + b == b;
    } else {
      assert (a + b)[1..] == a[1..] + b;
      FreeSumConcat(a[1..], b);
    }
  }

  lemma FreeSumReplace(bs: seq<Block>, lo: nat, hi: nat, mid: seq<Block>)
    requires lo < hi <= |bs|
    ensures FreeSum(Replace(bs, lo, hi, mid)) == FreeSum(bs) - FreeSum(bs[lo..hi]) + FreeSum(mid)
  {
    assert bs == bs[..lo] + bs[lo..hi] + bs[hi..];
    FreeSumConcat(bs[..lo] + bs[lo..hi], bs[hi..]);
    FreeSumConcat(bs[..lo], bs[lo..hi]);
    FreeSumConcat(bs[..lo] + mid, bs[hi..]);
    FreeSumConcat(bs[..lo], mid);
  }

  lemma HasFreeReplace(bs: seq<Block>, lo: nat, hi: nat, mid: seq<Block>, o: nat)
    requires lo < hi <= |bs|
    ensures HasFree(Replace(bs, lo, hi, mid), o) <==> HasFree(bs[..lo], o) || HasFree(mid, o) || HasFree(bs[hi..], o)
    ensures HasFree(bs, o) <==> HasFree(bs[..lo], o) || HasFree(bs[lo..hi], o) || HasFree(bs[hi..], o)
  {
    HasFreeConcat(bs[..lo] + mid, bs[hi..], o);
    HasFreeConcat(bs[..lo], mid, o);
    assert bs == bs[..lo] + bs[lo..hi] + bs[hi..];
    HasFreeConcat(bs[..lo] + bs[lo..hi], bs[hi..], o);
    HasFreeConcat(bs[..lo], bs[lo..hi], o);
  }

  lemma HasFreeConcat(a: seq<Block>, b: seq<Block>, o: nat)
    ensures HasFree(a + b, o) <==> HasFree(a, o) || HasFree(b, o)
  {
    if HasFree(a, o) {
      var i :| 0 <= i < |a| && a[i].off == o && a[i].free;
      assert (a + b)[i] == a[i];
    }
    if HasFree(b, o) {
      var i :| 0 <= i < |b| && b[i].off == o && b[i].free;
      assert (a + b)[|a| + i] == b[i];
    }
  }

  // In a tiling the offsets are distinct, so the list follows the exchange.
  lemma ListsReplace(c: Config, bs: seq<Block>, lo: nat, hi: nat, mid: seq<Block>, list: seq<nat>, list': seq<nat>)
    requires c.Valid() && Tiles(c, bs) && lo < hi <= |bs| && Lists(bs, list)
    requires Distinct(list')
    requires forall o :: o in list' <==> (o in list && !HasFree(bs[lo..hi], o)) || HasFree(mid, o)
    ensures Lists(Replace(bs, lo, hi, mid), list')
  {
    OrderedAll(c, bs);
    forall o ensures o in list' <==> HasFree(Replace(bs, lo, hi, mid), o) {
      HasFreeReplace(bs, lo, hi, mid, o);
      if HasFree(bs[lo..hi], o) {
        assert !HasFree(bs[..lo], o) && !HasFree(bs[hi..], o);
      }
    }
  }

  lemma LiveReplace(bs: seq<Block>, lo: nat, hi: nat, mid: seq<Block>)
    requires lo < hi <= |bs|
    ensures Live(Replace(bs, lo, hi, mid)) == Live(bs[..lo]) + Live(mid) + Live(bs[hi..])
    ensures Live(bs) == Live(bs[..lo]) + Live(bs[lo..hi]) + Live(bs[hi..])
  {
    assert bs == bs[..lo] + bs[lo..hi] + bs[hi..];
  }

  lemma CoalescedConcat(a: seq<Block>, b: seq<Block>)
    requires Coalesced(a) && Coalesced(b)
    requires a != [] && b != [] ==> !(b[0].free && a[|a| - 1].free)
    ensures Coalesced(a + b)
  {
    var r := a + b;
    forall i, j | 0 <= i < j < |r| && j == i + 1 ensures !(r[i].free && r[j].free) {
      if j < |a| {
        assert r[i] == a[i] && r[j] == a[j];
      } else if i >= |a| {
        assert r[i] == b[i - |a|] && r[j] == b[j - |a|];
      }
    }
  }

  lemma CoalescedReplace(bs: seq<Block>, lo: nat, hi: nat, mid: seq<Block>)
    requires lo < hi <= |bs| && Coalesced(bs) && |mid| > 0 && Coalesced(mid)
    requires lo > 0 && mid[0].free ==> !bs[lo - 1].free
    requires hi < |bs| && mid[|mid| - 1].free ==> !bs[hi].free
    ensures Coalesced(Replace(bs, lo, hi, mid))
  {
    var a, b := bs[..lo], bs[hi..];
    assert Coalesced(a) && Coalesced(b);
    hide Coalesced;
    CoalescedConcat(a, mid);
    CoalescedConcat(a + mid, b);
  }

  lemma AlignedReplace(c: Config, bs: seq<Block>, lo: nat, hi: nat, mid: seq<Block>)
    requires c.Valid() && lo < hi <= |bs| && WordAligned(c, bs) && WordAligned(c, mid)
    ensures WordAligned(c, Replace(bs, lo, hi, mid))
  {}

  // One exchange of blocks, with a free list to match, keeps the invariant.
  lemma InvReplace(c: Config, h: Heap, lo: nat, hi: nat, mid: seq<Block>, list': seq<nat>)
    requires c.Valid() && Inv(c, h) && lo < hi <= |h.blocks|
    requires Covers(c, h.blocks, lo, hi, mid) && Coalesced(mid) && WordAligned(c, mid)
    requires lo > 0 && mid[0].free ==> !h.blocks[lo - 1].free
    requires hi < |h.blocks| && mid[|mid| - 1].free ==> !h.blocks[hi].free
    requires Distinct(list')
    requires forall o :: o in list' <==> (o in h.list && !HasFree(h.blocks[lo..hi], o)) || HasFree(mid, o)
    ensures Inv(c, Heap(Replace(h.blocks, lo, hi, mid), list'))
  {
    TilesReplace(c, h.blocks, lo, hi, mid);
    CoalescedReplace(h.blocks, lo, hi, mid);
    AlignedReplace(c, h.blocks, lo, hi, mid);
    ListsReplace(c, h.blocks, lo, hi, mid, h.list, list');
  }

  lemma OneSlice(bs: seq<Block>, i: nat)
    requires i < |bs|
    ensures bs[i..i + 1] == [bs[i]]
  {}

  lemma HasFreeOne(b: Block, o: nat)
    ensures HasFree([b], o) <==> b.free && b.off == o
  {
    assert [b][0] == b;
  }

  lemma TakeIsReplace(h: Heap, i: nat)
    requires i < |h.blocks|
    ensures Take(h, i) == Heap(Replace(h.blocks, i, i + 1, [h.blocks[i].(free := false)]),
      Remove(h.list, h.blocks[i].off))
  {}

  lemma TakeEffect(h: Heap, i: nat)
    requires i < |h.blocks| && h.blocks[i].free
    ensures FreeSum(Take(h, i).blocks) == FreeSum(h.blocks) - h.blocks[i].size
    ensures Live(Take(h, i).blocks) == Live(h.blocks) + {h.blocks[i].(free := false)}
  {
    var bs, mid := h.blocks, [h.blocks[i].(free := false)];
    assert Take(h, i).blocks == Replace(bs, i, i + 1, mid);
    assert bs[i..i + 1] == [bs[i]];
    FreeSumReplace(bs, i, i + 1, mid);
    LiveReplace(bs, i, i + 1, mid);
    assert Live(mid) == {mid[0]} && Live([bs[i]]) == {};
  }

  lemma InvTake(c: Config, h: Heap, i: nat)
    requires c.Valid() && Inv(c, h) && i < |h.blocks| && h.blocks[i].free
    ensures Inv(c, Take(h, i))
  {
    var bs, b := h.blocks, h.blocks[i];
    var mid := [b.(free := false)];
    var list' := Remove(h.list, b.off);
    TakeIsReplace(h, i);
    OneSlice(bs, i);
    forall o ensures o in list' <==> (o in h.list && !HasFree([b], o)) || HasFree(mid, o) {
      HasFreeOne(b, o);
      HasFreeOne(mid[0], o);
    }
    InvReplace(c, h, i, i + 1, mid, list');
  }

  lemma SplitEffect(h: Heap, i: nat, k: nat, need: nat)
    requires i < |h.blocks| && h.blocks[i].free && k < |h.list| && need <= h.blocks[i].size
    ensures FreeSum(Split(h, i, k, need).blocks) == FreeSum(h.blocks) - need
    ensures Live(Split(h, i, k, need).blocks) == Live(h.blocks) + {Block(h.blocks[i].off, need, false)}
  {
    var bs, b := h.blocks, h.blocks[i];
    var mid := [Block(b.off, need, false), Block(b.off + need, b.size - need, true)];
    assert Split(h, i, k, need).blocks == Replace(bs, i, i + 1, mid);
    assert bs[i..i + 1] == [b];
    assert mid == [mid[0]] + [mid[1]];
    FreeSumConcat([mid[0]], [mid[1]]);
    FreeSumReplace(bs, i, i + 1, mid);
    LiveReplace(bs, i, i + 1, mid);
    assert Live(mid) == {mid[0]} && Live([b]) == {};
  }

  lemma HalvesFacts(c: Config, bs: seq<Block>, i: nat, need: nat)
    requires c.Valid() && WordAligned(c, bs) && i < |bs|
    requires c.blk <= need && need + c.blk <= bs[i].size && Aligned(need, c.word)
    ensures Covers(c, bs, i, i + 1, Halves(bs[i], need))
    ensures Coalesced(Halves(bs[i], need)) && WordAligned(c, Halves(bs[i], need))
    ensures forall o :: HasFree(Halves(bs[i], need), o) <==> o == bs[i].off + need
  {
    AlignedSum(bs[i].off, need, c.word);
    AlignedDiff(bs[i].size, need, c.word);
    assert Halves(bs[i], need)[1].free;
  }

  lemma FreeIsIsolated(bs: seq<Block>, i: nat)
    requires Coalesced(bs) && i < |bs| && bs[i].free
    ensures i > 0 ==> !bs[i - 1].free
    ensures i + 1 < |bs| ==> !bs[i + 1].free
  {}

  lemma InvSplit(c: Config, h: Heap, i: nat, k: nat, need: nat)
    requires c.Valid() && Inv(c, h) && i < |h.blocks| && h.blocks[i].free
    requires k < |h.list| && h.list[k] == h.blocks[i].off
    requires c.blk <= need && need + c.blk <= h.blocks[i].size && Aligned(need, c.word)
    ensures Inv(c, Split(h, i, k, need))
  {
    hide Tiles, Coalesced, WordAligned, Aligned, Covers, Replace, Halves;
    var bs, b := h.blocks, h.blocks[i];
    var list' := h.list[k := b.off + need];
    OneSlice(bs, i);
    FreeIsIsolated(bs, i);
    HalvesFacts(c, bs, i, need);
    InsideIsNew(c, h, i, b.off + need);
    UpdateDistinct(h.list, k, b.off + need);
    forall o ensures o in list' <==> (o in h.list && !HasFree([b], o)) || HasFree(Halves(b, need), o) {
      HasFreeOne(b, o);
    }
    InvReplace(c, h, i, i + 1, Halves(b, need), list');
  }

  // An offset strictly inside a block is on no list.
  lemma InsideIsNew(c: Config, h: Heap, i: nat, o: nat)
    requires c.Valid() && Inv(c, h) && i < |h.blocks|
    requires h.blocks[i].off < o < h.blocks[i].off + h.blocks[i].size
    ensures o !in h.list
  {
    OrderedAll(c, h.blocks);
  }

  lemma UpdateDistinct(s: seq<nat>, k: nat, x: nat)
    requires Distinct(s) && k < |s| && x !in s
    ensures Distinct(s[k := x])
    ensures forall o :: o in s[k := x] <==> (o in s && o != s[k]) || o == x
  {
    var r := s[k := x];
    forall o ensures o in r <==> (o in s && o != s[k]) || o == x {
      if o in s && o != s[k] {
        var j :| 0 <= j < |s| && s[j] == o;
        assert r[j] == o;
      }
      assert r[k] == x;
    }
  }

  // The run of blocks that a freed block i is merged with.
  function MergeLo(bs: seq<Block>, i: nat): (lo: nat)
    requires i < |bs|
    ensures lo <= i <= lo + 1
  {
    if i > 0 && bs[i - 1].free then i - 1 else i
  }

  function MergeHi(bs: seq<Block>, i: nat): (hi: nat)
    requires i < |bs|
    ensures i <= hi <= i + 1 && hi < |bs|
  {
    if i + 1 < |bs| && bs[i + 1].free then i + 1 else i
  }

  function Merged(bs: seq<Block>, i: nat): Block
    requires i < |bs|
  {
    var lo, hi := MergeLo(bs, i), MergeHi(bs, i);
    Block(bs[lo].off, (if lo < i then bs[lo].size else 0) + bs[i].size + (if hi > i then bs[hi].size else 0), true)
  }

  lemma MergedSlices(bs: seq<Block>, i: nat)
    requires i < |bs|
    ensures var lo, hi := MergeLo(bs, i), MergeHi(bs, i);
      && bs[lo..hi + 1] == bs[lo..i] + [bs[i]] + bs[i + 1..hi + 1]
      && bs[lo..i] == (if lo < i then [bs[lo]] else [])
      && bs[i + 1..hi + 1] == (if hi > i then [bs[hi]] else [])
  {}

  lemma MergedFrees(bs: seq<Block>, i: nat, o: nat)
    requires i < |bs| && !bs[i].free
    ensures var lo, hi := MergeLo(bs, i), MergeHi(bs, i);
      HasFree(bs[lo..hi + 1], o) <==> (lo < i && o == bs[lo].off) || (hi > i && o == bs[hi].off)
  {
    hide HasFree;
    MergedSlices(bs, i);
    var lo, hi := MergeLo(bs, i), MergeHi(bs, i);
    HasFreeConcat(bs[lo..i] + [bs[i]], bs[i + 1..hi + 1], o);
    HasFreeConcat(bs[lo..i], [bs[i]], o);
    HasFreeOne(bs[lo], o);
    HasFreeOne(bs[i], o);
    HasFreeOne(bs[hi], o);
    assert !HasFree([], o) by { NoneFree(o); }
  }

  lemma NoneFree(o: nat)
    ensures !HasFree([], o)
  {}

  lemma MergedEffect(bs: seq<Block>, i: nat)
    requires i < |bs| && !bs[i].free
    ensures var run := bs[MergeLo(bs, i)..MergeHi(bs, i) + 1];
      FreeSum(run) == FreeSum([Merged(bs, i)]) - bs[i].size && Live(run) == {bs[i]}
  {
    MergedSlices(bs, i);
    var lo, hi := MergeLo(bs, i), MergeHi(bs, i);
    FreeSumConcat(bs[lo..i] + [bs[i]], bs[i + 1..hi + 1]);
    FreeSumConcat(bs[lo..i], [bs[i]]);
  }

  lemma FreeEffect(c: Config, h: Heap, i: nat)
    requires c.Valid() && Tiles(c, h.blocks) && i < |h.blocks| && !h.blocks[i].free
    ensures FreeSum(FreeAt(h, i).blocks) == FreeSum(h.blocks) + h.blocks[i].size
    ensures Live(FreeAt(h, i).blocks) == Live(h.blocks) - {h.blocks[i]}
  {
    var bs := h.blocks;
    var lo, hi := MergeLo(bs, i), MergeHi(bs, i);
    FreeSumReplace(bs, lo, hi + 1, [Merged(bs, i)]);
    MergedEffect(bs, i);
    LiveExchange(bs, lo, hi + 1, [Merged(bs, i)], bs[i]);
    OnlyOnce(c, bs, i, lo, hi + 1);
  }

  lemma LiveExchange(bs: seq<Block>, lo: nat, hi: nat, mid: seq<Block>, b: Block)
    requires lo < hi <= |bs| && Live(mid) == {} && Live(bs[lo..hi]) == {b}
    ensures b !in Live(bs[..lo]) && b !in Live(bs[hi..]) ==> Live(Replace(bs, lo, hi, mid)) == Live(bs) - {b}
  {
    LiveReplace(bs, lo, hi, mid);
  }

  lemma OnlyOnce(c: Config, bs: seq<Block>, i: nat, lo: nat, hi: nat)
    requires c.Valid() && Tiles(c, bs) && lo <= i < hi <= |bs|
    ensures bs[i] !in Live(bs[..lo]) && bs[i] !in Live(bs[hi..])
  {
    OrderedAll(c, bs);
  }

  lemma MergedCovers(c: Config, bs: seq<Block>, i: nat)
    requires c.Valid() && Tiles(c, bs) && WordAligned(c, bs) && i < |bs|
    ensures Covers(c, bs, MergeLo(bs, i), MergeHi(bs, i) + 1, [Merged(bs, i)])
    ensures WordAligned(c, [Merged(bs, i)])
  {
    var lo, hi := MergeLo(bs, i), MergeHi(bs, i);
    AlignedSum(bs[lo].size, bs[i].size, c.word);
    AlignedSum(if lo < i then bs[lo].size + bs[i].size else bs[i].size, bs[hi].size, c.word);
  }

  lemma ConsDistinct(x: nat, s: seq<nat>)
    requires Distinct(s) && x !in s
    ensures Distinct([x] + s)
  {}

  // The list of the freed heap holds the merged block and the free blocks left alone.
  lemma FreeList(c: Config, h: Heap, i: nat)
    requires c.Valid() && Inv(c, h) && i < |h.blocks| && !h.blocks[i].free
    ensures var bs, list' := h.blocks, FreeAt(h, i).list;
      && Distinct(list')
      && forall o :: o in list' <==>
         (o in h.list && !HasFree(bs[MergeLo(bs, i)..MergeHi(bs, i) + 1], o)) || HasFree([Merged(bs, i)], o)
  {
    hide Tiles, Coalesced, WordAligned, HasFree, Merged, Distinct, Unlinked, MergeLo, MergeHi;
    var bs, list' := h.blocks, FreeAt(h, i).list;
    MergedUnlisted(c, h, i);
    ConsDistinct(bs[MergeLo(bs, i)].off, Unlinked(h, i));
    forall o ensures o in list' <==>
      (o in h.list && !HasFree(bs[MergeLo(bs, i)..MergeHi(bs, i) + 1], o)) || HasFree([Merged(bs, i)], o) {
      MergedFrees(bs, i, o);
      HasFreeOne(Merged(bs, i), o);
      MergedOff(bs, i);
    }
  }

  lemma MergedUnlisted(c: Config, h: Heap, i: nat)
    requires c.Valid() && Inv(c, h) && i < |h.blocks| && !h.blocks[i].free
    ensures h.blocks[MergeLo(h.blocks, i)].off !in Unlinked(h, i)
  {
    hide Tiles, Coalesced, WordAligned, HasFree, Distinct;
    InsideIsAllocated(c, h, i);
  }

  lemma MergedOff(bs: seq<Block>, i: nat)
    requires i < |bs|
    ensures Merged(bs, i).off == bs[MergeLo(bs, i)].off && Merged(bs, i).free
  {}

  lemma InvFree(c: Config, h: Heap, i: nat)
    requires c.Valid() && Inv(c, h) && i < |h.blocks| && !h.blocks[i].free
    ensures Inv(c, FreeAt(h, i))
  {
    hide Tiles, Coalesced, WordAligned, Lists, Covers, HasFree, Merged, Distinct, Unlinked;
    var bs := h.blocks;
    MergedCovers(c, bs, i);
    MergedNeighbours(bs, i);
    FreeList(c, h, i);
    InvReplace(c, h, MergeLo(bs, i), MergeHi(bs, i) + 1, [Merged(bs, i)], FreeAt(h, i).list);
  }

  // The merged run has no free neighbour.
  lemma MergedNeighbours(bs: seq<Block>, i: nat)
    requires i < |bs| && Coalesced(bs)
    ensures MergeLo(bs, i) > 0 ==> !bs[MergeLo(bs, i) - 1].free
    ensures MergeHi(bs, i) + 1 < |bs| ==> !bs[MergeHi(bs, i) + 1].free
    ensures Coalesced([Merged(bs, i)])
  {}

  lemma InsideIsAllocated(c: Config, h: Heap, i: nat)
    requires c.Valid() && Inv(c, h) && i < |h.blocks| && !h.blocks[i].free
    ensures h.blocks[i].off !in h.list
  {
    OrderedAll(c, h.blocks);
  }
}
