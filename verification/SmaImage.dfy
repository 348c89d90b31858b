/**
 How a heap value is laid out in the cells of a segment. A block header at
 offset o holds size, prev_size, fnext and fprev in the cells o, o + word,
 o + 2 * word and o + 3 * word.
 */
module SmaImage {
  import opened SmaSpec
  import opened SmaRuns

  type Cells = seq<nat>

  function SizeAt(c: Config, m: Cells, o: nat): nat { if o < |m| then m[o] else 0 }
  function PrevAt(c: Config, m: Cells, o: nat): nat { if o + c.word < |m| then m[o + c.word] else 0 }
  function NextAt(c: Config, m: Cells, o: nat): nat { if o + 2 * c.word < |m| then m[o + 2 * c.word] else 0 }
  function FprevAt(c: Config, m: Cells, o: nat): nat { if o + 3 * c.word < |m| then m[o + 3 * c.word] else 0 }

  predicate Fits(c: Config, m: Cells, o: nat) { o + c.blk <= |m| }

  // Headers at o and p do not overlap.
  predicate Apart(c: Config, o: nat, p: nat) { o + c.blk <= p || p + c.blk <= o }

  // The two memories agree on the fields of the header at p.
  predicate SameAt(c: Config, m: Cells, m': Cells, p: nat) {
    && SizeAt(c, m', p) == SizeAt(c, m, p) && PrevAt(c, m', p) == PrevAt(c, m, p)
    && NextAt(c, m', p) == NextAt(c, m, p) && FprevAt(c, m', p) == FprevAt(c, m, p)
  }

  // A cell of the header at o is no cell of a header apart from it.
  lemma CellApart(c: Config, m: Cells, o: nat, x: nat, v: nat)
    requires c.Valid() && o <= x < o + 4 * c.word
    ensures x < |m| ==> forall p: nat :: Apart(c, o, p) ==> SameAt(c, m, m[x := v], p)
  {
    if x < |m| {
      forall p: nat | Apart(c, o, p) ensures SameAt(c, m, m[x := v], p) {
        assert p + 3 * c.word < p + c.blk;
      }
    }
  }

  function PutSize(c: Config, m: Cells, o: nat, v: nat): (r: Cells)
    requires c.Valid()
    ensures |r| == |m|
    ensures Fits(c, m, o) ==> SizeAt(c, r, o) == v
    ensures PrevAt(c, r, o) == PrevAt(c, m, o) && NextAt(c, r, o) == NextAt(c, m, o)
      && FprevAt(c, r, o) == FprevAt(c, m, o)
    ensures forall p: nat {:trigger SizeAt(c, r, p)} {:trigger PrevAt(c, r, p)} {:trigger NextAt(c, r, p)}
      {:trigger FprevAt(c, r, p)} ::
      Apart(c, o, p) ==> SameAt(c, m, r, p)
  {
    CellApart(c, m, o, o, v);
    var r := if o < |m| then m[o := v] else m;
    assert forall p: nat :: Apart(c, o, p) ==> SameAt(c, m, r, p);
    r
  }

  function PutPrev(c: Config, m: Cells, o: nat, v: nat): (r: Cells)
    requires c.Valid()
    ensures |r| == |m|
    ensures Fits(c, m, o) ==> PrevAt(c, r, o) == v
    ensures SizeAt(c, r, o) == SizeAt(c, m, o) && NextAt(c, r, o) == NextAt(c, m, o)
      && FprevAt(c, r, o) == FprevAt(c, m, o)
    ensures forall p: nat {:trigger SizeAt(c, r, p)} {:trigger PrevAt(c, r, p)} {:trigger NextAt(c, r, p)}
      {:trigger FprevAt(c, r, p)} ::
      Apart(c, o, p) ==> SameAt(c, m, r, p)
  {
    CellApart(c, m, o, o + c.word, v);
    var r := if o + c.word < |m| then m[o + c.word := v] else m;
    assert forall p: nat :: Apart(c, o, p) ==> SameAt(c, m, r, p);
    r
  }

  function PutNext(c: Config, m: Cells, o: nat, v: nat): (r: Cells)
    requires c.Valid()
    ensures |r| == |m|
    ensures Fits(c, m, o) ==> NextAt(c, r, o) == v
    ensures SizeAt(c, r, o) == SizeAt(c, m, o) && PrevAt(c, r, o) == PrevAt(c, m, o)
      && FprevAt(c, r, o) == FprevAt(c, m, o)
    ensures forall p: nat {:trigger SizeAt(c, r, p)} {:trigger PrevAt(c, r, p)} {:trigger NextAt(c, r, p)}
      {:trigger FprevAt(c, r, p)} ::
      Apart(c, o, p) ==> SameAt(c, m, r, p)
  {
    CellApart(c, m, o, o + 2 * c.word, v);
    var r := if o + 2 * c.word < |m| then m[o + 2 * c.word := v] else m;
    assert forall p: nat :: Apart(c, o, p) ==> SameAt(c, m, r, p);
    r
  }

  function PutFprev(c: Config, m: Cells, o: nat, v: nat): (r: Cells)
    requires c.Valid()
    ensures |r| == |m|
    ensures Fits(c, m, o) ==> FprevAt(c, r, o) == v
    ensures SizeAt(c, r, o) == SizeAt(c, m, o) && PrevAt(c, r, o) == PrevAt(c, m, o)
      && NextAt(c, r, o) == NextAt(c, m, o)
    ensures forall p: nat {:trigger SizeAt(c, r, p)} {:trigger PrevAt(c, r, p)} {:trigger NextAt(c, r, p)}
      {:trigger FprevAt(c, r, p)} ::
      Apart(c, o, p) ==> SameAt(c, m, r, p)
  {
    CellApart(c, m, o, o + 3 * c.word, v);
    var r := if o + 3 * c.word < |m| then m[o + 3 * c.word := v] else m;
    assert forall p: nat :: Apart(c, o, p) ==> SameAt(c, m, r, p);
    r
  }

  // ---------- what the cells must say ----------

  // The size of the block before block i if that block is free, else 0.
  function Back(bs: seq<Block>, i: nat): nat
    requires i <= |bs|
  {
    if i > 0 && bs[i - 1].free then bs[i - 1].size else 0
  }

  ghost predicate Sizes(c: Config, m: Cells, bs: seq<Block>)
    requires c.Valid()
  {
    && (forall i :: 0 <= i < |bs| ==> SizeAt(c, m, bs[i].off) == bs[i].size)
    && SizeAt(c, m, c.hdr) == 0 && SizeAt(c, m, c.End()) == 0
  }

  ghost predicate Backs(c: Config, m: Cells, bs: seq<Block>)
    requires c.Valid()
  {
    && (forall i :: 0 <= i < |bs| ==> PrevAt(c, m, bs[i].off) == Back(bs, i))
    && PrevAt(c, m, c.End()) == Back(bs, |bs|)
    && PrevAt(c, m, c.hdr) == 0
  }

  // fnext is 0 for allocated blocks and for the last sentinel.
  ghost predicate Marks(c: Config, m: Cells, bs: seq<Block>)
    requires c.Valid()
  {
    && (forall i :: 0 <= i < |bs| && !bs[i].free ==> NextAt(c, m, bs[i].off) == 0)
    && NextAt(c, m, c.End()) == 0
  }

  // The doubly linked list through the headers ns, first to last.
  ghost predicate Linked(c: Config, m: Cells, ns: seq<nat>) {
    forall k, l :: 0 <= k < l < |ns| && l == k + 1 ==> NextAt(c, m, ns[k]) == ns[l] && FprevAt(c, m, ns[l]) == ns[k]
  }

  function Nodes(c: Config, list: seq<nat>): seq<nat>
    requires c.Valid()
  {
    [c.hdr] + list + [c.End()]
  }

  ghost predicate Repr(c: Config, m: Cells, h: Heap)
    requires c.Valid()
  {
    && |m| == c.seg
    && Sizes(c, m, h.blocks)
    && Backs(c, m, h.blocks)
    && Marks(c, m, h.blocks)
    && Linked(c, m, Nodes(c, h.list))
  }

  // ---------- headers do not overlap ----------

  ghost predicate Spread(c: Config, ns: seq<nat>) {
    forall i, j :: 0 <= i < |ns| && 0 <= j < |ns| && i != j ==> Apart(c, ns[i], ns[j])
  }

  ghost predicate IsHeader(c: Config, bs: seq<Block>, p: nat)
    requires c.Valid()
  {
    p == c.hdr || p == c.End() || exists i :: 0 <= i < |bs| && bs[i].off == p
  }

  lemma HeadersApart(c: Config, bs: seq<Block>, p: nat, q: nat)
    requires c.Valid() && Tiles(c, bs) && IsHeader(c, bs, p) && IsHeader(c, bs, q)
    ensures p == q || Apart(c, p, q)
    ensures p + c.blk <= c.seg
  {
    OrderedAll(c, bs);
  }

  lemma NodesSpread(c: Config, h: Heap)
    requires c.Valid() && Inv(c, h)
    ensures Spread(c, Nodes(c, h.list))
    ensures forall k :: 0 <= k < |Nodes(c, h.list)| ==> IsHeader(c, h.blocks, Nodes(c, h.list)[k])
  {
    var ns := Nodes(c, h.list);
    forall k | 0 <= k < |ns| ensures IsHeader(c, h.blocks, ns[k]) {
      if 0 < k < |ns| - 1 {
        assert ns[k] == h.list[k - 1];
        assert h.list[k - 1] in h.list;
      }
    }
    OrderedAll(c, h.blocks);
    forall i, j | 0 <= i < j < |ns| ensures Apart(c, ns[i], ns[j]) && Apart(c, ns[j], ns[i]) {
      assert 0 < i ==> ns[i] == h.list[i - 1] && h.list[i - 1] in h.list;
      assert j < |ns| - 1 ==> ns[j] == h.list[j - 1] && h.list[j - 1] in h.list;
      HeadersApart(c, h.blocks, ns[i], ns[j]);
    }
  }

  // ---------- list surgery ----------

  function Without(ns: seq<nat>, k: nat): seq<nat>
    requires k < |ns|
  {
    ns[..k] + ns[k + 1..]
  }

  // fnext and fprev of the neighbours of node k are pointed past it.
  function UnlinkCells(c: Config, m: Cells, ns: seq<nat>, k: nat): Cells
    requires c.Valid() && 0 < k < |ns| - 1
  {
    PutNext(c, PutFprev(c, m, ns[k + 1], ns[k - 1]), ns[k - 1], ns[k + 1])
  }

  lemma UnlinkLinked(c: Config, m: Cells, ns: seq<nat>, k: nat)
    requires c.Valid() && 0 < k < |ns| - 1 && Fits(c, m, ns[k - 1]) && Fits(c, m, ns[k + 1])
    requires Linked(c, m, ns) && Spread(c, ns)
    ensures Linked(c, UnlinkCells(c, m, ns, k), Without(ns, k))
    ensures Spread(c, Without(ns, k))
  {
    hide SizeAt, PrevAt, NextAt, FprevAt, PutSize, PutPrev, PutNext, PutFprev, Apart;
    var m1 := PutFprev(c, m, ns[k + 1], ns[k - 1]);
    var m2 := UnlinkCells(c, m, ns, k);
    var r := Without(ns, k);
    forall i, j | 0 <= i < j < |r| && j == i + 1
      ensures NextAt(c, m2, r[i]) == r[j] && FprevAt(c, m2, r[j]) == r[i]
    {
      if j < k {
        assert r[i] == ns[i] && r[j] == ns[j];
      } else if j > k {
        assert r[i] == ns[i + 1] && r[j] == ns[j + 1];
      } else {
        assert r[i] == ns[k - 1] && r[j] == ns[k + 1];
      }
    }
  }

  // o is put between the first sentinel and the node after it.
  function PushCells(c: Config, m: Cells, ns: seq<nat>, o: nat): Cells
    requires c.Valid() && |ns| >= 2
  {
    PutFprev(c, PutFprev(c, PutNext(c, PutNext(c, m, o, ns[1]), ns[0], o), o, ns[0]), ns[1], o)
  }

  lemma PushLinked(c: Config, m: Cells, ns: seq<nat>, o: nat)
    requires c.Valid() && |ns| >= 2 && Fits(c, m, ns[0]) && Fits(c, m, ns[1]) && Fits(c, m, o)
    requires Linked(c, m, ns) && Spread(c, ns) && forall k :: 0 <= k < |ns| ==> Apart(c, o, ns[k]) && Apart(c, ns[k], o)
    ensures Linked(c, PushCells(c, m, ns, o), [ns[0], o] + ns[1..])
  {
    hide SizeAt, PrevAt, NextAt, FprevAt, PutSize, PutPrev, PutNext, PutFprev, Apart;
    var m' := PushCells(c, m, ns, o);
    var r := [ns[0], o] + ns[1..];
    forall i, j | 0 <= i < j < |r| && j == i + 1
      ensures NextAt(c, m', r[i]) == r[j] && FprevAt(c, m', r[j]) == r[i]
    {
      if i >= 2 {
        assert r[i] == ns[i - 1] && r[j] == ns[j - 1];
      }
    }
  }

  // The node o takes over the links of node k.
  function SwapCells(c: Config, m: Cells, ns: seq<nat>, k: nat, o: nat): Cells
    requires c.Valid() && 0 < k < |ns| - 1
  {
    PutNext(c, PutFprev(c, PutFprev(c, PutNext(c, m, o, ns[k + 1]), o, ns[k - 1]), ns[k + 1], o), ns[k - 1], o)
  }

  lemma SwapLinked(c: Config, m: Cells, ns: seq<nat>, k: nat, o: nat)
    requires c.Valid() && 0 < k < |ns| - 1 && Fits(c, m, ns[k - 1]) && Fits(c, m, ns[k + 1]) && Fits(c, m, o)
    requires Linked(c, m, ns) && Spread(c, ns) && forall j :: 0 <= j < |ns| ==> Apart(c, o, ns[j]) && Apart(c, ns[j], o)
    ensures Linked(c, SwapCells(c, m, ns, k, o), ns[k := o])
  {
    hide SizeAt, PrevAt, NextAt, FprevAt, PutSize, PutPrev, PutNext, PutFprev, Apart;
    var m' := SwapCells(c, m, ns, k, o);
    var r := ns[k := o];
    forall i, j | 0 <= i < j < |r| && j == i + 1
      ensures NextAt(c, m', r[i]) == r[j] && FprevAt(c, m', r[j]) == r[i]
    {
    }
  }

  // ---------- the three edits keep cells and heap value in step ----------

  // Only fnext and fprev have changed, fnext only at nodes of ns.
  ghost predicate LinksOnly(c: Config, m: Cells, m': Cells, bs: seq<Block>, ns: seq<nat>)
    requires c.Valid()
  {
    && |m'| == |m|
    && forall p: nat {:trigger SizeAt(c, m', p)} {:trigger PrevAt(c, m', p)}
       {:trigger NextAt(c, m', p)} :: IsHeader(c, bs, p) ==>
         && SizeAt(c, m', p) == SizeAt(c, m, p)
         && PrevAt(c, m', p) == PrevAt(c, m, p)
         && (p !in ns ==> NextAt(c, m', p) == NextAt(c, m, p))
  }

  ghost predicate AllHeaders(c: Config, bs: seq<Block>, ns: seq<nat>)
    requires c.Valid()
  {
    forall k :: 0 <= k < |ns| ==> IsHeader(c, bs, ns[k])
  }

  lemma UnlinkFrame(c: Config, m: Cells, bs: seq<Block>, ns: seq<nat>, k: nat)
    requires c.Valid() && Tiles(c, bs) && |m| == c.seg && AllHeaders(c, bs, ns) && 0 < k < |ns| - 1
    ensures Fits(c, m, ns[k - 1]) && Fits(c, m, ns[k + 1])
    ensures LinksOnly(c, m, UnlinkCells(c, m, ns, k), bs, ns)
    ensures AllHeaders(c, bs, Without(ns, k))
  {
    hide SizeAt, PrevAt, NextAt, FprevAt, PutSize, PutPrev, PutNext, PutFprev, Tiles, IsHeader;
    HeadersApart(c, bs, ns[k - 1], ns[k - 1]);
    HeadersApart(c, bs, ns[k + 1], ns[k + 1]);
    forall p: nat | IsHeader(c, bs, p)
      ensures (p == ns[k - 1] || Apart(c, ns[k - 1], p)) && (p == ns[k + 1] || Apart(c, ns[k + 1], p))
    {
      HeadersApart(c, bs, ns[k - 1], p);
      HeadersApart(c, bs, ns[k + 1], p);
    }
  }

  lemma PushFrame(c: Config, m: Cells, bs: seq<Block>, ns: seq<nat>, o: nat)
    requires c.Valid() && Tiles(c, bs) && |m| == c.seg && AllHeaders(c, bs, ns) && |ns| >= 2 && IsHeader(c, bs, o)
    ensures Fits(c, m, ns[0]) && Fits(c, m, ns[1]) && Fits(c, m, o)
    ensures LinksOnly(c, m, PushCells(c, m, ns, o), bs, [o] + ns)
  {
    hide SizeAt, PrevAt, NextAt, FprevAt, PutSize, PutPrev, PutNext, PutFprev, Tiles, IsHeader;
    HeadersApart(c, bs, ns[0], ns[0]);
    HeadersApart(c, bs, ns[1], ns[1]);
    HeadersApart(c, bs, o, o);
    assert [o] + ns == [o, ns[0], ns[1]] + ns[2..];
    forall p: nat | IsHeader(c, bs, p)
      ensures (p == ns[0] || Apart(c, ns[0], p)) && (p == ns[1] || Apart(c, ns[1], p)) && (p == o || Apart(c, o, p))
    {
      HeadersApart(c, bs, ns[0], p);
      HeadersApart(c, bs, ns[1], p);
      HeadersApart(c, bs, o, p);
    }
  }

  // The header that follows blocks ..hi.
  function After(c: Config, bs: seq<Block>, hi: nat): nat
    requires c.Valid() && hi <= |bs|
  {
    if hi < |bs| then bs[hi].off else c.End()
  }

  // m' is m but for list links, the headers of the blocks lo..hi, and
  // prev_size in the header after them.
  ghost predicate Outside(c: Config, m: Cells, m': Cells, bs: seq<Block>, lo: nat, hi: nat)
    requires c.Valid() && lo < hi <= |bs|
  {
    && |m'| == |m|
    && (forall i :: (0 <= i < lo || hi <= i < |bs|) ==>
         && SizeAt(c, m', bs[i].off) == SizeAt(c, m, bs[i].off)
         && (!bs[i].free ==> NextAt(c, m', bs[i].off) == NextAt(c, m, bs[i].off))
         && (i != hi ==> PrevAt(c, m', bs[i].off) == PrevAt(c, m, bs[i].off)))
    && SizeAt(c, m', c.hdr) == SizeAt(c, m, c.hdr)
    && PrevAt(c, m', c.hdr) == PrevAt(c, m, c.hdr)
    && SizeAt(c, m', c.End()) == SizeAt(c, m, c.End())
    && NextAt(c, m', c.End()) == NextAt(c, m, c.End())
    && (hi < |bs| ==> PrevAt(c, m', c.End()) == PrevAt(c, m, c.End()))
  }

  // m' describes the blocks mid in the place of lo..hi.
  ghost predicate Inside(c: Config, m: Cells, m': Cells, bs: seq<Block>, lo: nat, hi: nat, mid: seq<Block>)
    requires c.Valid() && lo < hi <= |bs|
  {
    && |mid| > 0
    && (forall j :: 0 <= j < |mid| ==>
         && SizeAt(c, m', mid[j].off) == mid[j].size
         && (!mid[j].free ==> NextAt(c, m', mid[j].off) == 0)
         && PrevAt(c, m', mid[j].off) == (if j == 0 then Back(bs, lo) else Back(mid, j)))
    && PrevAt(c, m', After(c, bs, hi)) == Back(mid, |mid|)
  }

  ghost predicate Phys(c: Config, m: Cells, bs: seq<Block>)
    requires c.Valid()
  {
    Sizes(c, m, bs) && Backs(c, m, bs) && Marks(c, m, bs)
  }

  lemma ReplaceAt(bs: seq<Block>, lo: nat, hi: nat, mid: seq<Block>, j: nat)
    requires lo < hi <= |bs| && j < |Replace(bs, lo, hi, mid)|
    ensures var r := Replace(bs, lo, hi, mid);
      r[j] == (if j < lo then bs[j] else if j < lo + |mid| then mid[j - lo] else bs[j - lo - |mid| + hi])
  {}

  lemma ReplaceBack(bs: seq<Block>, lo: nat, hi: nat, mid: seq<Block>, j: nat)
    requires lo < hi <= |bs| && |mid| > 0 && j <= |Replace(bs, lo, hi, mid)|
    ensures var r := Replace(bs, lo, hi, mid);
      Back(r, j) == (if j <= lo then Back(bs, j) else if j <= lo + |mid| then Back(mid, j - lo)
        else Back(bs, j - lo - |mid| + hi))
  {
    if j > 0 { ReplaceAt(bs, lo, hi, mid, j - 1); }
  }

  lemma PhysAtInside(c: Config, m: Cells, m': Cells, bs: seq<Block>, lo: nat, hi: nat, mid: seq<Block>, j: nat)
    requires c.Valid() && lo < hi <= |bs| && Inside(c, m, m', bs, lo, hi, mid)
    requires lo <= j < lo + |mid|
    ensures var r := Replace(bs, lo, hi, mid);
      && SizeAt(c, m', r[j].off) == r[j].size
      && (!r[j].free ==> NextAt(c, m', r[j].off) == 0)
      && PrevAt(c, m', r[j].off) == Back(r, j)
  {
    hide SizeAt, NextAt, PrevAt;
    ReplaceAt(bs, lo, hi, mid, j);
    ReplaceBack(bs, lo, hi, mid, j);
    assert SizeAt(c, m', mid[j - lo].off) == mid[j - lo].size;
  }

  lemma PhysAtOutside(c: Config, m: Cells, m': Cells, bs: seq<Block>, lo: nat, hi: nat, mid: seq<Block>, i: nat)
    requires c.Valid() && lo < hi <= |bs| && Phys(c, m, bs) && Outside(c, m, m', bs, lo, hi)
    requires i < lo || hi <= i < |bs|
    ensures SizeAt(c, m', bs[i].off) == bs[i].size
    ensures !bs[i].free ==> NextAt(c, m', bs[i].off) == 0
    ensures i != hi ==> PrevAt(c, m', bs[i].off) == Back(bs, i)
  {
    hide SizeAt, NextAt, PrevAt, Back;
  }

  lemma PhysAt(c: Config, m: Cells, m': Cells, bs: seq<Block>, lo: nat, hi: nat, mid: seq<Block>, j: nat)
    requires c.Valid() && lo < hi <= |bs| && Phys(c, m, bs)
    requires Outside(c, m, m', bs, lo, hi) && Inside(c, m, m', bs, lo, hi, mid)
    requires j < |Replace(bs, lo, hi, mid)|
    ensures var r := Replace(bs, lo, hi, mid);
      && SizeAt(c, m', r[j].off) == r[j].size
      && (!r[j].free ==> NextAt(c, m', r[j].off) == 0)
      && PrevAt(c, m', r[j].off) == Back(r, j)
  {
    if lo <= j < lo + |mid| {
      PhysAtInside(c, m, m', bs, lo, hi, mid, j);
    } else {
      ReplaceAt(bs, lo, hi, mid, j);
      ReplaceBack(bs, lo, hi, mid, j);
      PhysAtOutside(c, m, m', bs, lo, hi, mid, if j < lo then j else j - lo - |mid| + hi);
      hide Replace, SizeAt, NextAt, PrevAt, Back, Phys, Outside;
    }
  }

  lemma PhysReplace(c: Config, m: Cells, m': Cells, bs: seq<Block>, lo: nat, hi: nat, mid: seq<Block>)
    requires c.Valid() && lo < hi <= |bs| && Phys(c, m, bs)
    requires Outside(c, m, m', bs, lo, hi) && Inside(c, m, m', bs, lo, hi, mid)
    ensures Phys(c, m', Replace(bs, lo, hi, mid))
  {
    var r := Replace(bs, lo, hi, mid);
    forall j | 0 <= j < |r|
      ensures SizeAt(c, m', r[j].off) == r[j].size
      ensures !r[j].free ==> NextAt(c, m', r[j].off) == 0
      ensures PrevAt(c, m', r[j].off) == Back(r, j)
    {
      PhysAt(c, m, m', bs, lo, hi, mid, j);
    }
    PhysEnd(c, m, m', bs, lo, hi, mid);
  }

  lemma PhysEnd(c: Config, m: Cells, m': Cells, bs: seq<Block>, lo: nat, hi: nat, mid: seq<Block>)
    requires c.Valid() && lo < hi <= |bs| && Phys(c, m, bs)
    requires Outside(c, m, m', bs, lo, hi) && Inside(c, m, m', bs, lo, hi, mid)
    ensures var r := Replace(bs, lo, hi, mid);
      && PrevAt(c, m', c.End()) == Back(r, |r|) && PrevAt(c, m', c.hdr) == 0
      && SizeAt(c, m', c.hdr) == 0 && SizeAt(c, m', c.End()) == 0 && NextAt(c, m', c.End()) == 0
  {
    hide SizeAt, NextAt, PrevAt, Back;
    var r := Replace(bs, lo, hi, mid);
    assert |r| == lo + |mid| + |bs| - hi;
    ReplaceBack(bs, lo, hi, mid, |r|);
    if hi == |bs| {
      assert PrevAt(c, m', c.End()) == Back(mid, |mid|);
    } else {
      assert PrevAt(c, m', c.End()) == PrevAt(c, m, c.End()) == Back(bs, |bs|);
    }
  }

  // Header by header: besides list links at the nodes ns, only the header at o
  // and prev_size at e have changed.
  ghost predicate HeaderWise(c: Config, m: Cells, m': Cells, bs: seq<Block>, ns: seq<nat>, o: nat, e: nat)
    requires c.Valid()
  {
    && |m'| == |m|
    && forall p: nat {:trigger SizeAt(c, m', p)} {:trigger PrevAt(c, m', p)}
       {:trigger NextAt(c, m', p)} :: IsHeader(c, bs, p) ==>
         && (p != o ==> SizeAt(c, m', p) == SizeAt(c, m, p))
         && (p != e ==> PrevAt(c, m', p) == PrevAt(c, m, p))
         && (p != o && p !in ns ==> NextAt(c, m', p) == NextAt(c, m, p))
  }

  lemma UnlistedNode(c: Config, h: Heap, i: nat)
    requires c.Valid() && Inv(c, h) && i < |h.blocks| && !h.blocks[i].free
    ensures h.blocks[i].off !in Nodes(c, h.list)
  {
    OrderedAll(c, h.blocks);
    InsideIsAllocated(c, h, i);
  }

  lemma OffsetsDiffer(c: Config, bs: seq<Block>, i: nat, j: nat)
    requires c.Valid() && Tiles(c, bs) && i < |bs| && j < |bs| && i != j
    ensures bs[i].off != bs[j].off
    ensures c.hdr < bs[i].off < c.End()
  {
    OrderedAll(c, bs);
  }

  lemma OutsideFrom(c: Config, m: Cells, m': Cells, h: Heap, ns: seq<nat>, lo: nat, hi: nat)
    requires c.Valid() && Inv(c, h) && lo < hi <= |h.blocks|
    requires forall p :: p in ns ==> p in Nodes(c, h.list)
    requires HeaderWise(c, m, m', h.blocks, ns, h.blocks[lo].off, After(c, h.blocks, hi))
    requires NextAt(c, m', c.End()) == NextAt(c, m, c.End())
    ensures Outside(c, m, m', h.blocks, lo, hi)
  {
    var bs := h.blocks;
    forall i | 0 <= i < lo || hi <= i < |bs|
      ensures SizeAt(c, m', bs[i].off) == SizeAt(c, m, bs[i].off)
      ensures !bs[i].free ==> NextAt(c, m', bs[i].off) == NextAt(c, m, bs[i].off)
      ensures i != hi ==> PrevAt(c, m', bs[i].off) == PrevAt(c, m, bs[i].off)
    {
      hide Inv, SizeAt, PrevAt, NextAt, Nodes;
      OffsetsDiffer(c, bs, i, lo);
      if i != hi && hi < |bs| { OffsetsDiffer(c, bs, i, hi); }
      assert IsHeader(c, bs, bs[i].off);
      if !bs[i].free { UnlistedNode(c, h, i); }
    }
    OrderedAll(c, bs);
    assert IsHeader(c, bs, c.hdr) && IsHeader(c, bs, c.End());
  }

  lemma LinkedFrame(c: Config, m: Cells, m': Cells, ns: seq<nat>)
    requires Linked(c, m, ns)
    requires forall k :: 0 <= k < |ns| ==>
      NextAt(c, m', ns[k]) == NextAt(c, m, ns[k]) && FprevAt(c, m', ns[k]) == FprevAt(c, m, ns[k])
    ensures Linked(c, m', ns)
  {}

  lemma {:induction false} RemoveAt(s: seq<nat>, k: nat)
    requires Distinct(s) && k < |s|
    ensures Remove(s, s[k]) == Without(s, k)
  {
    if k == 0 {
      RemoveAbsent(s[1..], s[0]);
    } else {
      assert Distinct(s[1..]) && s[0] != s[k] && s[1..][k - 1] == s[k];
      RemoveAt(s[1..], k - 1);
      assert Without(s, k) == [s[0]] + Without(s[1..], k - 1);
    }
  }

  lemma {:induction false} RemoveAbsent(s: seq<nat>, x: nat)
    requires x !in s
    ensures Remove(s, x) == s
  {
    if s != [] { RemoveAbsent(s[1..], x); }
  }

  lemma NodesWithout(c: Config, list: seq<nat>, k: nat)
    requires c.Valid() && k < |list|
    ensures Nodes(c, Without(list, k)) == Without(Nodes(c, list), k + 1)
  {}

  function EndOf(b: Block): nat { b.off + b.size }

  lemma EndIsHeader(c: Config, bs: seq<Block>, i: nat)
    requires c.Valid() && Tiles(c, bs) && i < |bs|
    ensures IsHeader(c, bs, EndOf(bs[i])) && IsHeader(c, bs, bs[i].off)
    ensures EndOf(bs[i]) == After(c, bs, i + 1)
  {
    assert i + 1 < |bs| ==> bs[i + 1].off == EndOf(bs[i]);
  }

  // ----- a whole block is taken -----

  function TakeCells(c: Config, m: Cells, ns: seq<nat>, k: nat, next: nat): Cells
    requires c.Valid() && 0 < k < |ns| - 1
  {
    PutNext(c, PutPrev(c, UnlinkCells(c, m, ns, k), next, 0), ns[k], 0)
  }

  // prev_size at e and fnext at o are written after list links were.
  lemma TakeFrame(c: Config, m: Cells, m1: Cells, bs: seq<Block>, ns: seq<nat>, o: nat, e: nat)
    requires c.Valid() && Tiles(c, bs) && |m| == c.seg && LinksOnly(c, m, m1, bs, ns)
    requires IsHeader(c, bs, o) && IsHeader(c, bs, e) && o != e && o < c.End()
    ensures Fits(c, m1, o) && Fits(c, m1, e)
    ensures var m3 := PutNext(c, PutPrev(c, m1, e, 0), o, 0);
      && |m3| == |m|
      && HeaderWise(c, m, m3, bs, ns, o, e)
      && SizeAt(c, m3, o) == SizeAt(c, m, o) && NextAt(c, m3, o) == 0 && PrevAt(c, m3, o) == PrevAt(c, m, o)
      && PrevAt(c, m3, e) == 0
      && NextAt(c, m3, c.End()) == NextAt(c, m1, c.End())
  {
    hide SizeAt, PrevAt, NextAt, FprevAt, PutSize, PutPrev, PutNext, PutFprev, Tiles, IsHeader;
    HeadersApart(c, bs, o, e);
    HeadersApart(c, bs, e, o);
    assert IsHeader(c, bs, c.End()) by { EndHeader(c, bs); }
    forall p: nat | IsHeader(c, bs, p) ensures (p == o || Apart(c, o, p)) && (p == e || Apart(c, e, p)) {
      HeadersApart(c, bs, o, p);
      HeadersApart(c, bs, e, p);
    }
  }

  lemma EndHeader(c: Config, bs: seq<Block>)
    requires c.Valid()
    ensures IsHeader(c, bs, c.End())
  {}

  lemma TakeLinked(c: Config, m1: Cells, ns: seq<nat>, o: nat, e: nat)
    requires c.Valid() && Fits(c, m1, o) && Fits(c, m1, e) && Linked(c, m1, ns)
    requires forall k :: 0 <= k < |ns| ==> Apart(c, o, ns[k]) && (ns[k] == e || Apart(c, e, ns[k]))
    ensures Linked(c, PutNext(c, PutPrev(c, m1, e, 0), o, 0), ns)
  {
    hide SizeAt, PrevAt, NextAt, FprevAt, PutSize, PutPrev, PutNext, PutFprev, Linked;
    LinkedFrame(c, m1, PutPrev(c, m1, e, 0), ns);
    LinkedFrame(c, PutPrev(c, m1, e, 0), PutNext(c, PutPrev(c, m1, e, 0), o, 0), ns);
  }

  // What is needed of node k + 1 of the list, the header of block i.
  lemma NodeFacts(c: Config, h: Heap, i: nat, k: nat)
    requires c.Valid() && Inv(c, h) && i < |h.blocks| && k < |h.list| && h.list[k] == h.blocks[i].off
    ensures var ns, o, e := Nodes(c, h.list), h.blocks[i].off, EndOf(h.blocks[i]);
      && |ns| == |h.list| + 2 && ns[k + 1] == o
      && ns[|ns| - 1] == c.End() && Tiles(c, h.blocks) && Spread(c, ns) && AllHeaders(c, h.blocks, ns)
      && IsHeader(c, h.blocks, o) && IsHeader(c, h.blocks, e)
      && o + c.blk <= e <= c.End() && e == After(c, h.blocks, i + 1)
      && Nodes(c, Remove(h.list, o)) == Without(ns, k + 1)
  {
    NodesSpread(c, h);
    EndIsHeader(c, h.blocks, i);
    OrderedAll(c, h.blocks);
    RemoveAt(h.list, k);
    NodesWithout(c, h.list, k);
  }

  // The list part of taking block i: the node leaves the list, then its fnext is cleared.
  lemma TakeLinks(c: Config, m: Cells, h: Heap, i: nat, k: nat)
    requires c.Valid() && Inv(c, h) && |m| == c.seg && Linked(c, m, Nodes(c, h.list))
    requires i < |h.blocks| && k < |h.list| && h.list[k] == h.blocks[i].off
    ensures var ns, o, e := Nodes(c, h.list), h.blocks[i].off, EndOf(h.blocks[i]);
      && k + 2 < |ns| && ns[k + 1] == o
      && Fits(c, m, ns[k]) && Fits(c, m, o) && Fits(c, m, ns[k + 2]) && Fits(c, m, e)
      && var m1 := UnlinkCells(c, m, ns, k + 1);
         && LinksOnly(c, m, m1, h.blocks, ns)
         && NextAt(c, m1, c.End()) == NextAt(c, m, c.End())
         && Linked(c, TakeCells(c, m, ns, k + 1, e), Nodes(c, Remove(h.list, o)))
  {
    hide SizeAt, PrevAt, NextAt, FprevAt, PutSize, PutPrev, PutNext, PutFprev, Inv, Tiles, IsHeader, Nodes, Linked;
    var bs, ns, o, e := h.blocks, Nodes(c, h.list), h.blocks[i].off, EndOf(h.blocks[i]);
    NodeFacts(c, h, i, k);
    HeadersApart(c, bs, o, e);
    HeadersApart(c, bs, e, o);
    UnlinkFrame(c, m, bs, ns, k + 1);
    UnlinkLinked(c, m, ns, k + 1);
    var ns' := Without(ns, k + 1);
    forall j | 0 <= j < |ns'| ensures Apart(c, o, ns'[j]) && (ns'[j] == e || Apart(c, e, ns'[j])) {
      assert ns'[j] == ns[if j < k + 1 then j else j + 1];
      HeadersApart(c, bs, e, ns'[j]);
    }
    TakeLinked(c, UnlinkCells(c, m, ns, k + 1), ns', o, e);
    EndUnlinked(c, m, bs, ns, k);
  }

  // The last sentinel keeps its fnext when a node before it is unlinked.
  lemma EndUnlinked(c: Config, m: Cells, bs: seq<Block>, ns: seq<nat>, k: nat)
    requires c.Valid() && Tiles(c, bs) && |m| == c.seg && AllHeaders(c, bs, ns) && Spread(c, ns)
    requires k + 2 < |ns| && ns[|ns| - 1] == c.End() && Fits(c, m, ns[k]) && Fits(c, m, ns[k + 2])
    ensures NextAt(c, UnlinkCells(c, m, ns, k + 1), c.End()) == NextAt(c, m, c.End())
  {
    hide SizeAt, PrevAt, NextAt, FprevAt, PutSize, PutPrev, PutNext, PutFprev, Tiles, IsHeader;
    assert Apart(c, ns[k], ns[|ns| - 1]);
    assert ns[k + 2] == c.End() || Apart(c, ns[k + 2], ns[|ns| - 1]);
  }

  lemma TakeInside(c: Config, m: Cells, m': Cells, h: Heap, i: nat)
    requires c.Valid() && i < |h.blocks| && Backs(c, m, h.blocks) && Sizes(c, m, h.blocks)
    requires var o := h.blocks[i].off;
      SizeAt(c, m', o) == SizeAt(c, m, o) && NextAt(c, m', o) == 0 && PrevAt(c, m', o) == PrevAt(c, m, o)
    requires PrevAt(c, m', After(c, h.blocks, i + 1)) == 0
    ensures Inside(c, m, m', h.blocks, i, i + 1, [h.blocks[i].(free := false)])
  {}

  // Taking block i whole: the cells go on describing the heap value.
  lemma TakeImage(c: Config, m: Cells, h: Heap, i: nat, k: nat)
    requires c.Valid() && Inv(c, h) && Repr(c, m, h)
    requires i < |h.blocks| && h.blocks[i].free && k < |h.list| && h.list[k] == h.blocks[i].off
    ensures var ns, o, e := Nodes(c, h.list), h.blocks[i].off, EndOf(h.blocks[i]);
      && k + 2 < |ns| && ns[k + 1] == o
      && Fits(c, m, ns[k]) && Fits(c, m, o) && Fits(c, m, ns[k + 2]) && Fits(c, m, e)
      && Repr(c, TakeCells(c, m, ns, k + 1, e), Take(h, i))
  {
    hide HeaderWise, LinksOnly, Outside, Inside, Sizes, Backs, Marks, Linked, Spread, AllHeaders, IsHeader, Nodes,
         Take, Replace, Tiles, SizeAt, PrevAt, NextAt, FprevAt, PutPrev, PutNext, UnlinkCells, Remove, EndOf, After,
         Without, Coalesced, WordAligned, Lists;
    var bs, ns, o, e := h.blocks, Nodes(c, h.list), h.blocks[i].off, EndOf(h.blocks[i]);
    NodeFacts(c, h, i, k);
    TakeLinks(c, m, h, i, k);
    var m1 := UnlinkCells(c, m, ns, k + 1);
    var m3 := TakeCells(c, m, ns, k + 1, e);
    var mid := [bs[i].(free := false)];
    TakeIsReplace(h, i);
    assert m3 == PutNext(c, PutPrev(c, m1, e, 0), o, 0);
    TakeFrame(c, m, m1, bs, ns, o, e);
    OutsideFrom(c, m, m3, h, ns, i, i + 1);
    TakeInside(c, m, m3, h, i);
    PhysReplace(c, m, m3, bs, i, i + 1, mid);
  }

  // ----- a block is split -----

  // The header of the rest of a split block, then the header after it.
  function RestCells(c: Config, m: Cells, o: nat, need: nat, size: nat): Cells
    requires c.Valid() && need <= size
  {
    PutPrev(c, PutSize(c, PutPrev(c, PutSize(c, m, o, need), o + need, 0), o + need, size - need), o + size,
      size - need)
  }

  function SplitCells(c: Config, m: Cells, ns: seq<nat>, k: nat, need: nat, size: nat): Cells
    requires c.Valid() && 0 < k < |ns| - 1 && need <= size
  {
    PutNext(c, SwapCells(c, RestCells(c, m, ns[k], need, size), ns, k, ns[k] + need), ns[k], 0)
  }

  // The rest header lies inside the block, apart from every header of the heap.
  lemma RestApart(c: Config, bs: seq<Block>, i: nat, need: nat, p: nat)
    requires c.Valid() && Tiles(c, bs) && i < |bs| && c.blk <= need && need + c.blk <= bs[i].size
    requires IsHeader(c, bs, p)
    ensures Apart(c, bs[i].off + need, p)
    ensures bs[i].off + bs[i].size <= c.End()
  {
    OrderedAll(c, bs);
  }

  lemma RestFields(c: Config, m: Cells, o: nat, need: nat, size: nat)
    requires c.Valid() && need <= size && Fits(c, m, o) && Fits(c, m, o + need) && Fits(c, m, o + size)
    requires Apart(c, o, o + need) && Apart(c, o + need, o) && Apart(c, o + need, o + size)
      && Apart(c, o + size, o + need)
    requires Apart(c, o, o + size) && Apart(c, o + size, o)
    ensures var r, e, m' := o + need, o + size, RestCells(c, m, o, need, size);
      && |m'| == |m| && SizeAt(c, m', o) == need && PrevAt(c, m', o) == PrevAt(c, m, o)
      && SizeAt(c, m', r) == size - need && PrevAt(c, m', r) == 0
      && PrevAt(c, m', e) == size - need
      && forall p: nat {:trigger SizeAt(c, m', p)} {:trigger PrevAt(c, m', p)} {:trigger NextAt(c, m', p)}
         {:trigger FprevAt(c, m', p)} ::
           (p == o || Apart(c, o, p)) && Apart(c, r, p) && (p == e || Apart(c, e, p)) ==>
             && (p != o ==> SizeAt(c, m', p) == SizeAt(c, m, p))
             && (p != e ==> PrevAt(c, m', p) == PrevAt(c, m, p))
             && NextAt(c, m', p) == NextAt(c, m, p) && FprevAt(c, m', p) == FprevAt(c, m, p)
  {
    hide SizeAt, PrevAt, NextAt, FprevAt, PutSize, PutPrev, Apart;
  }

  lemma RestAparts(c: Config, m: Cells, bs: seq<Block>, i: nat, need: nat)
    requires c.Valid() && Tiles(c, bs) && |m| == c.seg && i < |bs|
    requires c.blk <= need && need + c.blk <= bs[i].size
    ensures var o, r, e := bs[i].off, bs[i].off + need, bs[i].off + bs[i].size;
      && Fits(c, m, o) && Fits(c, m, r) && Fits(c, m, e)
      && Apart(c, o, r) && Apart(c, r, o) && Apart(c, r, e) && Apart(c, e, r) && Apart(c, o, e) && Apart(c, e, o)
      && forall p: nat :: IsHeader(c, bs, p) ==>
         (p == o || Apart(c, o, p)) && (p == e || Apart(c, e, p)) && Apart(c, r, p) && Apart(c, p, r)
  {
    hide Tiles, IsHeader;
    var o, r, e := bs[i].off, bs[i].off + need, bs[i].off + bs[i].size;
    EndIsHeader(c, bs, i);
    HeadersApart(c, bs, o, e);
    HeadersApart(c, bs, e, o);
    forall p: nat | IsHeader(c, bs, p)
      ensures (p == o || Apart(c, o, p)) && (p == e || Apart(c, e, p)) && Apart(c, r, p) && Apart(c, p, r) {
      HeadersApart(c, bs, o, p);
      HeadersApart(c, bs, e, p);
      RestApart(c, bs, i, need, p);
    }
  }

  lemma RestFrame(c: Config, m: Cells, bs: seq<Block>, i: nat, need: nat)
    requires c.Valid() && Tiles(c, bs) && |m| == c.seg && i < |bs|
    requires c.blk <= need && need + c.blk <= bs[i].size
    ensures var o, r, e := bs[i].off, bs[i].off + need, bs[i].off + bs[i].size;
      && Fits(c, m, o) && Fits(c, m, r) && Fits(c, m, e)
      && var m' := RestCells(c, m, o, need, bs[i].size);
         && |m'| == |m|
         && (forall p: nat {:trigger SizeAt(c, m', p)} {:trigger PrevAt(c, m', p)} {:trigger NextAt(c, m', p)}
             {:trigger FprevAt(c, m', p)} ::
              IsHeader(c, bs, p) ==>
                && (p != o ==> SizeAt(c, m', p) == SizeAt(c, m, p))
                && (p != e ==> PrevAt(c, m', p) == PrevAt(c, m, p))
                && NextAt(c, m', p) == NextAt(c, m, p) && FprevAt(c, m', p) == FprevAt(c, m, p))
         && SizeAt(c, m', o) == need && PrevAt(c, m', o) == PrevAt(c, m, o)
         && SizeAt(c, m', r) == bs[i].size - need && PrevAt(c, m', r) == 0
         && PrevAt(c, m', e) == bs[i].size - need
  {
    hide Apart, Fits, SizeAt, PrevAt, NextAt, FprevAt, RestCells, Tiles, IsHeader;
    RestAparts(c, m, bs, i, need);
    RestFields(c, m, bs[i].off, need, bs[i].size);
  }

  // Node k hands its links to r, which is apart from every header.
  lemma SwapFrame(c: Config, m: Cells, bs: seq<Block>, ns: seq<nat>, k: nat, r: nat)
    requires c.Valid() && Tiles(c, bs) && |m| == c.seg && AllHeaders(c, bs, ns) && Spread(c, ns)
    requires 0 < k < |ns| - 1 && ns[|ns| - 1] == c.End()
    requires Fits(c, m, r) && forall p: nat :: IsHeader(c, bs, p) ==> Apart(c, r, p)
    ensures Fits(c, m, ns[k - 1]) && Fits(c, m, ns[k + 1])
    ensures var m' := SwapCells(c, m, ns, k, r);
      && LinksOnly(c, m, m', bs, ns)
      && SizeAt(c, m', r) == SizeAt(c, m, r) && PrevAt(c, m', r) == PrevAt(c, m, r)
      && NextAt(c, m', c.End()) == NextAt(c, m, c.End())
  {
    hide SizeAt, PrevAt, NextAt, FprevAt, PutSize, PutPrev, PutNext, PutFprev, Tiles, IsHeader;
    var p, n := ns[k - 1], ns[k + 1];
    assert IsHeader(c, bs, p) && IsHeader(c, bs, n) && IsHeader(c, bs, c.End());
    HeadersApart(c, bs, p, p);
    HeadersApart(c, bs, n, n);
    assert Apart(c, p, ns[|ns| - 1]);
    assert n == c.End() || Apart(c, n, ns[|ns| - 1]);
    forall q: nat | IsHeader(c, bs, q)
      ensures (q == p || Apart(c, p, q)) && (q == n || Apart(c, n, q)) && Apart(c, r, q) {
      HeadersApart(c, bs, p, q);
      HeadersApart(c, bs, n, q);
    }
  }

  lemma NodeNotEnd(c: Config, ns: seq<nat>, k: nat)
    requires c.Valid() && Spread(c, ns) && k < |ns| - 1
    ensures ns[k] != ns[|ns| - 1]
  {
    assert Apart(c, ns[k], ns[|ns| - 1]);
  }

  lemma SplitFrame(c: Config, m: Cells, bs: seq<Block>, ns: seq<nat>, i: nat, k: nat, need: nat)
    requires c.Valid() && Tiles(c, bs) && |m| == c.seg && AllHeaders(c, bs, ns) && Spread(c, ns)
    requires i < |bs| && 0 < k < |ns| - 1 && ns[k] == bs[i].off && ns[|ns| - 1] == c.End()
    requires c.blk <= need && need + c.blk <= bs[i].size
    ensures var o, r, e := bs[i].off, bs[i].off + need, bs[i].off + bs[i].size;
      && Fits(c, m, ns[k - 1]) && Fits(c, m, o) && Fits(c, m, ns[k + 1]) && Fits(c, m, r) && Fits(c, m, e)
      && var m' := SplitCells(c, m, ns, k, need, bs[i].size);
         && |m'| == |m|
         && HeaderWise(c, m, m', bs, ns, o, e)
         && SizeAt(c, m', o) == need && NextAt(c, m', o) == 0 && PrevAt(c, m', o) == PrevAt(c, m, o)
         && SizeAt(c, m', r) == bs[i].size - need && PrevAt(c, m', r) == 0
         && PrevAt(c, m', e) == bs[i].size - need
         && NextAt(c, m', c.End()) == NextAt(c, m, c.End())
  {
    hide SizeAt, PrevAt, NextAt, FprevAt, PutNext, RestCells, SwapCells, Tiles, IsHeader, Apart, Spread, AllHeaders,
         SplitCells;
    var o, r, e := bs[i].off, bs[i].off + need, bs[i].off + bs[i].size;
    EndIsHeader(c, bs, i);
    EndHeader(c, bs);
    RestAparts(c, m, bs, i, need);
    RestFrame(c, m, bs, i, need);
    NodeNotEnd(c, ns, k);
    var m1 := RestCells(c, m, o, need, bs[i].size);
    SwapFrame(c, m1, bs, ns, k, r);
    var m2 := SwapCells(c, m1, ns, k, r);
    RestThenLinks(c, m, m1, m2, bs, ns, o, e);
    ClearFrame(c, m, m2, bs, ns, o, e, r);
    SplitUnfold(c, m, ns, k, need, bs[i].size);
  }

  lemma SplitUnfold(c: Config, m: Cells, ns: seq<nat>, k: nat, need: nat, size: nat)
    requires c.Valid() && 0 < k < |ns| - 1 && need <= size
    ensures SplitCells(c, m, ns, k, need, size)
         == PutNext(c, SwapCells(c, RestCells(c, m, ns[k], need, size), ns, k, ns[k] + need), ns[k], 0)
  {}

  lemma RestThenLinks(c: Config, m: Cells, m1: Cells, m2: Cells, bs: seq<Block>, ns: seq<nat>, o: nat, e: nat)
    requires c.Valid() && |m1| == |m| && LinksOnly(c, m1, m2, bs, ns)
    requires forall p: nat {:trigger SizeAt(c, m1, p)} {:trigger PrevAt(c, m1, p)}
      {:trigger NextAt(c, m1, p)} :: IsHeader(c, bs, p) ==>
      && (p != o ==> SizeAt(c, m1, p) == SizeAt(c, m, p))
      && (p != e ==> PrevAt(c, m1, p) == PrevAt(c, m, p))
      && NextAt(c, m1, p) == NextAt(c, m, p)
    ensures HeaderWise(c, m, m2, bs, ns, o, e)
  {
    hide SizeAt, PrevAt, NextAt, IsHeader;
  }

  lemma ClearFrame(c: Config, m: Cells, m2: Cells, bs: seq<Block>, ns: seq<nat>, o: nat, e: nat, r: nat)
    requires c.Valid() && HeaderWise(c, m, m2, bs, ns, o, e) && Fits(c, m2, o) && Apart(c, o, r)
    requires forall p: nat :: IsHeader(c, bs, p) ==> p == o || Apart(c, o, p)
    ensures var m3 := PutNext(c, m2, o, 0);
      && HeaderWise(c, m, m3, bs, ns, o, e)
      && SizeAt(c, m3, o) == SizeAt(c, m2, o) && PrevAt(c, m3, o) == PrevAt(c, m2, o) && NextAt(c, m3, o) == 0
      && SizeAt(c, m3, r) == SizeAt(c, m2, r) && PrevAt(c, m3, r) == PrevAt(c, m2, r)
      && forall p: nat :: IsHeader(c, bs, p) ==>
         PrevAt(c, m3, p) == PrevAt(c, m2, p) && (p != o ==> NextAt(c, m3, p) == NextAt(c, m2, p))
  {
    hide SizeAt, PrevAt, NextAt, FprevAt, IsHeader, Apart, PutNext;
  }

  lemma SplitInside(c: Config, m: Cells, m': Cells, h: Heap, i: nat, need: nat)
    requires c.Valid() && i < |h.blocks| && need <= h.blocks[i].size && Backs(c, m, h.blocks)
    requires var o, r := h.blocks[i].off, h.blocks[i].off + need;
      && SizeAt(c, m', o) == need && NextAt(c, m', o) == 0 && PrevAt(c, m', o) == PrevAt(c, m, o)
      && SizeAt(c, m', r) == h.blocks[i].size - need && PrevAt(c, m', r) == 0
    requires PrevAt(c, m', After(c, h.blocks, i + 1)) == h.blocks[i].size - need
    ensures Inside(c, m, m', h.blocks, i, i + 1, Halves(h.blocks[i], need))
  {}

  // The list part of the split: the rest takes the place of the block.
  lemma SplitLinks(c: Config, m: Cells, bs: seq<Block>, ns: seq<nat>, i: nat, k: nat, need: nat)
    requires c.Valid() && Tiles(c, bs) && |m| == c.seg && AllHeaders(c, bs, ns) && Spread(c, ns) && Linked(c, m, ns)
    requires i < |bs| && 0 < k < |ns| - 1 && ns[k] == bs[i].off
    requires c.blk <= need && need + c.blk <= bs[i].size
    requires Fits(c, m, ns[k - 1]) && Fits(c, m, ns[k + 1])
    requires Fits(c, m, bs[i].off) && Fits(c, m, bs[i].off + need) && Fits(c, m, bs[i].off + bs[i].size)
    ensures Linked(c, SplitCells(c, m, ns, k, need, bs[i].size), ns[k := bs[i].off + need])
  {
    hide SizeAt, PrevAt, NextAt, FprevAt, PutNext, RestCells, SwapCells, Tiles, IsHeader, Apart, Linked;
    var o, r, e := bs[i].off, bs[i].off + need, bs[i].off + bs[i].size;
    RestAparts(c, m, bs, i, need);
    RestFrame(c, m, bs, i, need);
    forall j | 0 <= j < |ns| ensures Apart(c, r, ns[j]) && Apart(c, ns[j], r) && IsHeader(c, bs, ns[j]) {
      assert Apart(c, r, ns[j]);
    }
    var m1 := RestCells(c, m, o, need, bs[i].size);
    LinkedFrame(c, m, m1, ns);
    SwapLinked(c, m1, ns, k, r);
    var m2 := SwapCells(c, m1, ns, k, r);
    LinkedFrame(c, m2, PutNext(c, m2, o, 0), ns[k := r]);
  }

  lemma NodesUpdate(c: Config, list: seq<nat>, k: nat, r: nat)
    requires c.Valid() && k < |list|
    ensures Nodes(c, list[k := r]) == Nodes(c, list)[k + 1 := r]
  {}

  // Splitting block i: the cells go on describing the heap value.
  lemma SplitImage(c: Config, m: Cells, h: Heap, i: nat, k: nat, need: nat)
    requires c.Valid() && Inv(c, h) && Repr(c, m, h)
    requires i < |h.blocks| && h.blocks[i].free && k < |h.list| && h.list[k] == h.blocks[i].off
    requires c.blk <= need && need + c.blk <= h.blocks[i].size
    ensures var ns, o, size := Nodes(c, h.list), h.blocks[i].off, h.blocks[i].size;
      && k + 2 < |ns| && ns[k + 1] == o
      && Fits(c, m, ns[k]) && Fits(c, m, o) && Fits(c, m, ns[k + 2]) && Fits(c, m, o + need) && Fits(c, m, o + size)
      && Repr(c, SplitCells(c, m, ns, k + 1, need, size), Split(h, i, k, need))
  {
    hide HeaderWise, LinksOnly, Outside, Inside, Sizes, Backs, Marks, Linked, Spread, AllHeaders, IsHeader, Nodes,
         Replace, Tiles, Halves, SizeAt, PrevAt, NextAt, FprevAt, SplitCells, Coalesced, WordAligned, Lists;
    var bs, ns, o, size := h.blocks, Nodes(c, h.list), h.blocks[i].off, h.blocks[i].size;
    NodeFacts(c, h, i, k);
    NodesUpdate(c, h.list, k, o + need);
    SplitFrame(c, m, bs, ns, i, k + 1, need);
    SplitLinks(c, m, bs, ns, i, k + 1, need);
    var m' := SplitCells(c, m, ns, k + 1, need, size);
    assert |m'| == |m|;
    OutsideFrom(c, m, m', h, ns, i, i + 1);
    SplitInside(c, m, m', h, i, need);
    PhysReplace(c, m, m', bs, i, i + 1, Halves(bs[i], need));
  }

  // ----- a block is freed -----

  // m' is m after some nodes of ns were unlinked, leaving ns', and the size of
  // the header at o was set to size.
  ghost predicate Staged(c: Config, m: Cells, m': Cells, bs: seq<Block>, ns: seq<nat>, ns': seq<nat>, o: nat, size: nat)
    requires c.Valid()
  {
    && |m'| == |m|
    && (forall p: nat {:trigger SizeAt(c, m', p)} {:trigger PrevAt(c, m', p)}
        {:trigger NextAt(c, m', p)} :: IsHeader(c, bs, p) ==>
         && (p != o ==> SizeAt(c, m', p) == SizeAt(c, m, p))
         && PrevAt(c, m', p) == PrevAt(c, m, p)
         && (p !in ns ==> NextAt(c, m', p) == NextAt(c, m, p)))
    && SizeAt(c, m', o) == size
    && NextAt(c, m', c.End()) == NextAt(c, m, c.End())
    && Linked(c, m', ns') && Chain(c, bs, ns')
    && forall p :: p in ns' ==> p in ns
  }

  // A node sequence from the first to the last sentinel.
  ghost predicate Chain(c: Config, bs: seq<Block>, ns: seq<nat>)
    requires c.Valid()
  {
    Spread(c, ns) && AllHeaders(c, bs, ns) && |ns| >= 2 && ns[0] == c.hdr && ns[|ns| - 1] == c.End()
  }

  lemma ChainWithout(c: Config, bs: seq<Block>, ns: seq<nat>, k: nat)
    requires c.Valid() && Chain(c, bs, ns) && 0 < k < |ns| - 1
    ensures Chain(c, bs, Without(ns, k))
    ensures forall p :: p in Without(ns, k) ==> p in ns
  {
    hide Apart, IsHeader;
    var r := Without(ns, k);
    forall i, j | 0 <= i < |r| && 0 <= j < |r| && i != j ensures Apart(c, r[i], r[j]) {
      var i', j' := if i < k then i else i + 1, if j < k then j else j + 1;
      assert r[i] == ns[i'] && r[j] == ns[j'];
    }
    forall i | 0 <= i < |r| ensures IsHeader(c, bs, r[i]) {
      assert r[i] == ns[if i < k then i else i + 1];
    }
  }

  // One merge step: unlink node k, then write the size at o.
  lemma StageMerge(c: Config, m: Cells, m1: Cells, bs: seq<Block>, ns: seq<nat>, ns1: seq<nat>, o: nat, size: nat,
                   k: nat, size': nat)
    requires c.Valid() && Tiles(c, bs) && |m| == c.seg && Staged(c, m, m1, bs, ns, ns1, o, size)
    requires 0 < k < |ns1| - 1 && IsHeader(c, bs, o)
    ensures Staged(c, m, PutSize(c, UnlinkCells(c, m1, ns1, k), o, size'), bs, ns, Without(ns1, k), o, size')
  {
    hide SizeAt, PrevAt, NextAt, FprevAt, PutSize, UnlinkCells, Linked, Spread, Without, IsHeader, Tiles, Apart;
    ChainWithout(c, bs, ns1, k);
    UnlinkFrame(c, m1, bs, ns1, k);
    UnlinkLinked(c, m1, ns1, k);
    EndUnlinked(c, m1, bs, ns1, k - 1);
    var m2 := UnlinkCells(c, m1, ns1, k);
    HeaderFits(c, m2, bs, o);
    SizeKeepsLinks(c, m2, o, size', Without(ns1, k), bs);
  }

  lemma HeaderFits(c: Config, m: Cells, bs: seq<Block>, o: nat)
    requires c.Valid() && Tiles(c, bs) && IsHeader(c, bs, o) && |m| == c.seg
    ensures Fits(c, m, o)
    ensures forall p: nat :: IsHeader(c, bs, p) ==> p == o || Apart(c, o, p)
  {
    HeadersApart(c, bs, o, o);
    forall p: nat | IsHeader(c, bs, p) ensures p == o || Apart(c, o, p) { HeadersApart(c, bs, o, p); }
  }

  lemma SizeKeepsLinks(c: Config, m: Cells, o: nat, v: nat, ns: seq<nat>, bs: seq<Block>)
    requires c.Valid() && Linked(c, m, ns) && AllHeaders(c, bs, ns) && Fits(c, m, o)
    requires forall p: nat :: IsHeader(c, bs, p) ==> p == o || Apart(c, o, p)
    ensures Linked(c, PutSize(c, m, o, v), ns)
  {
    hide SizeAt, PrevAt, NextAt, FprevAt, PutSize, Linked, IsHeader, Apart;
    LinkedFrame(c, m, PutSize(c, m, o, v), ns);
  }

  // prev_size after the merged block, then the block pushed on the list.
  function FinishCells(c: Config, m: Cells, ns: seq<nat>, o: nat, e: nat, size: nat): Cells
    requires c.Valid() && |ns| >= 2
  {
    PushCells(c, PutPrev(c, m, e, size), ns, o)
  }

  lemma FinishLinked(c: Config, m: Cells, bs: seq<Block>, ns: seq<nat>, o: nat, e: nat, size: nat)
    requires c.Valid() && Tiles(c, bs) && |m| == c.seg && Linked(c, m, ns) && Chain(c, bs, ns)
    requires IsHeader(c, bs, o) && IsHeader(c, bs, e) && o !in ns
    ensures Linked(c, FinishCells(c, m, ns, o, e, size), [ns[0], o] + ns[1..])
  {
    hide SizeAt, PrevAt, NextAt, FprevAt, PutPrev, PushCells, Linked, IsHeader, Tiles;
    HeaderFits(c, m, bs, o);
    HeaderFits(c, m, bs, e);
    HeaderFits(c, m, bs, ns[0]);
    HeaderFits(c, m, bs, ns[1]);
    forall k | 0 <= k < |ns| ensures Apart(c, o, ns[k]) && Apart(c, ns[k], o) { }
    LinkedFrame(c, m, PutPrev(c, m, e, size), ns);
    PushLinked(c, PutPrev(c, m, e, size), ns, o);
  }

  lemma EndPushed(c: Config, m: Cells, bs: seq<Block>, ns: seq<nat>, o: nat)
    requires c.Valid() && Tiles(c, bs) && |m| == c.seg && Chain(c, bs, ns) && IsHeader(c, bs, o) && o !in ns
    ensures NextAt(c, PushCells(c, m, ns, o), c.End()) == NextAt(c, m, c.End())
    ensures SizeAt(c, PushCells(c, m, ns, o), o) == SizeAt(c, m, o)
      && PrevAt(c, PushCells(c, m, ns, o), o) == PrevAt(c, m, o)
  {
    hide SizeAt, PrevAt, NextAt, FprevAt, PutNext, PutFprev, IsHeader, Tiles;
    HeaderFits(c, m, bs, o);
    HeaderFits(c, m, bs, ns[0]);
    HeaderFits(c, m, bs, ns[1]);
    EndHeader(c, bs);
    assert ns[0] != c.End() by { assert Apart(c, ns[0], ns[|ns| - 1]); }
    assert ns[|ns| - 1] in ns;
  }

  lemma FinishFrame(c: Config, m: Cells, m2: Cells, bs: seq<Block>, ns: seq<nat>, ns2: seq<nat>, o: nat, e: nat,
                    size: nat)
    requires c.Valid() && Tiles(c, bs) && |m| == c.seg && Staged(c, m, m2, bs, ns, ns2, o, size)
    requires IsHeader(c, bs, o) && IsHeader(c, bs, e) && o !in ns2 && o != e
    ensures var m4 := FinishCells(c, m2, ns2, o, e, size);
      && |m4| == |m|
      && HeaderWise(c, m, m4, bs, ns, o, e)
      && SizeAt(c, m4, o) == size && PrevAt(c, m4, o) == PrevAt(c, m, o) && PrevAt(c, m4, e) == size
      && NextAt(c, m4, c.End()) == NextAt(c, m, c.End())
  {
    hide SizeAt, PrevAt, NextAt, FprevAt, PutPrev, PushCells, Linked, IsHeader, Tiles, Spread, AllHeaders, Apart;
    HeaderFits(c, m2, bs, o);
    HeaderFits(c, m2, bs, e);
    EndHeader(c, bs);
    var m3 := PutPrev(c, m2, e, size);
    PushFrame(c, m3, bs, ns2, o);
    EndPushed(c, m3, bs, ns2, o);
  }

  // Freeing block i, once the merges are done: the cells describe the heap value again.
  lemma FreeImage(c: Config, m: Cells, m2: Cells, h: Heap, i: nat, ns2: seq<nat>)
    requires c.Valid() && Inv(c, h) && Repr(c, m, h) && i < |h.blocks| && !h.blocks[i].free
    requires ns2 == Nodes(c, Unlinked(h, i))
    requires Staged(c, m, m2, h.blocks, Nodes(c, h.list), ns2, Merged(h.blocks, i).off, Merged(h.blocks, i).size)
    ensures Repr(c, FinishCells(c, m2, ns2, Merged(h.blocks, i).off, EndOf(Merged(h.blocks, i)),
      Merged(h.blocks, i).size), FreeAt(h, i))
  {
    hide HeaderWise, Outside, Inside, Sizes, Backs, Marks, Linked, IsHeader, Nodes, Replace, Merged, Tiles, Chain,
         Staged;
    hide SizeAt, PrevAt, NextAt, FprevAt, FinishCells, Coalesced, WordAligned, Lists, MergeLo, MergeHi;
    var bs := h.blocks;
    var b, lo, hi := Merged(bs, i), MergeLo(bs, i), MergeHi(bs, i);
    var o, e := b.off, EndOf(b);
    MergedHeaders(c, h, i);
    StagedChain(c, m, m2, bs, Nodes(c, h.list), ns2, o, b.size);
    FinishLinked(c, m2, bs, ns2, o, e, b.size);
    FinishFrame(c, m, m2, bs, Nodes(c, h.list), ns2, o, e, b.size);
    var m4 := FinishCells(c, m2, ns2, o, e, b.size);
    OutsideFrom(c, m, m4, h, Nodes(c, h.list), lo, hi + 1);
    MergedInside(c, m, m4, h, i);
    PhysReplace(c, m, m4, bs, lo, hi + 1, [b]);
    FreeNodes(c, h, i);
  }

  lemma StagedChain(c: Config, m: Cells, m': Cells, bs: seq<Block>, ns: seq<nat>, ns': seq<nat>, o: nat, size: nat)
    requires c.Valid() && Staged(c, m, m', bs, ns, ns', o, size)
    ensures Linked(c, m', ns') && Chain(c, bs, ns') && |m'| == |m| && |ns'| >= 2
  {}

  lemma MergedHeaders(c: Config, h: Heap, i: nat)
    requires c.Valid() && Inv(c, h) && i < |h.blocks| && !h.blocks[i].free
    ensures var bs, b := h.blocks, Merged(h.blocks, i);
      && Tiles(c, bs)
      && b.off == bs[MergeLo(bs, i)].off && EndOf(b) == After(c, bs, MergeHi(bs, i) + 1)
      && IsHeader(c, bs, b.off) && IsHeader(c, bs, EndOf(b)) && b.off != EndOf(b)
      && b.off !in Nodes(c, Unlinked(h, i))
  {
    hide WordAligned, Coalesced, Unlinked, Distinct;
    var bs := h.blocks;
    var lo, hi := MergeLo(bs, i), MergeHi(bs, i);
    MergedSpan(c, bs, i);
    EndIsHeader(c, bs, lo);
    EndIsHeader(c, bs, hi);
    MergedUnlisted(c, h, i);
    OffsetsInside(c, bs, lo);
  }

  lemma OffsetsInside(c: Config, bs: seq<Block>, i: nat)
    requires c.Valid() && Tiles(c, bs) && i < |bs|
    ensures c.hdr < bs[i].off < c.End()
  {
    OrderedAll(c, bs);
  }

  lemma MergedSpan(c: Config, bs: seq<Block>, i: nat)
    requires c.Valid() && Tiles(c, bs) && i < |bs|
    ensures var b := Merged(bs, i);
      b.off == bs[MergeLo(bs, i)].off && EndOf(b) == After(c, bs, MergeHi(bs, i) + 1) && b.size >= c.blk
  {
    LeftReach(c, bs, i);
    EndIsHeader(c, bs, MergeHi(bs, i));
  }

  lemma MergedInside(c: Config, m: Cells, m': Cells, h: Heap, i: nat)
    requires c.Valid() && i < |h.blocks| && Coalesced(h.blocks) && Backs(c, m, h.blocks)
    requires var b := Merged(h.blocks, i);
      && SizeAt(c, m', b.off) == b.size && PrevAt(c, m', b.off) == PrevAt(c, m, b.off)
      && PrevAt(c, m', After(c, h.blocks, MergeHi(h.blocks, i) + 1)) == b.size
    ensures Inside(c, m, m', h.blocks, MergeLo(h.blocks, i), MergeHi(h.blocks, i) + 1, [Merged(h.blocks, i)])
  {
    hide SizeAt, PrevAt;
    MergedOff(h.blocks, i);
  }

  lemma FreeNodes(c: Config, h: Heap, i: nat)
    requires c.Valid() && i < |h.blocks|
    ensures var ns2 := Nodes(c, Unlinked(h, i));
      |ns2| >= 2 && Nodes(c, FreeAt(h, i).list) == [ns2[0], Merged(h.blocks, i).off] + ns2[1..]
  {
    MergedOff(h.blocks, i);
  }

  // ---------- payloads ----------

  // Every byte of every live payload is the same in the two memories.
  ghost predicate PayloadsKept(c: Config, m: Cells, m': Cells, bs: seq<Block>) {
    |m'| == |m| && forall b, a :: b in Live(bs) && b.off + c.blk <= a < b.off + b.size && a < |m| ==> m'[a] == m[a]
  }

  // Cell a is no part of the header at o.
  predicate Clear(c: Config, o: nat, a: nat) { a < o || o + c.blk <= a }

  lemma PutClear(c: Config, m: Cells, o: nat, v: nat, a: nat)
    requires c.Valid() && Clear(c, o, a) && a < |m|
    ensures PutSize(c, m, o, v)[a] == m[a] && PutPrev(c, m, o, v)[a] == m[a]
    ensures PutNext(c, m, o, v)[a] == m[a] && PutFprev(c, m, o, v)[a] == m[a]
  {}

  lemma HeaderClear(c: Config, bs: seq<Block>, b: Block, a: nat, p: nat)
    requires c.Valid() && Tiles(c, bs) && b in Live(bs) && b.off + c.blk <= a < b.off + b.size && IsHeader(c, bs, p)
    ensures Clear(c, p, a)
  {
    OrderedAll(c, bs);
  }

  // The header at o overlaps no live payload.
  ghost predicate OffPayloads(c: Config, bs: seq<Block>, o: nat) {
    forall b, a: nat :: b in Live(bs) && b.off + c.blk <= a < b.off + b.size ==> Clear(c, o, a)
  }

  lemma HeaderOff(c: Config, bs: seq<Block>, p: nat)
    requires c.Valid() && Tiles(c, bs) && IsHeader(c, bs, p)
    ensures OffPayloads(c, bs, p)
  {
    forall b, a: nat | b in Live(bs) && b.off + c.blk <= a < b.off + b.size ensures Clear(c, p, a) {
      HeaderClear(c, bs, b, a, p);
    }
  }

  lemma RestOff(c: Config, bs: seq<Block>, i: nat, need: nat)
    requires c.Valid() && Tiles(c, bs) && i < |bs| && bs[i].free && need + c.blk <= bs[i].size
    ensures OffPayloads(c, bs, bs[i].off + need)
  {
    OrderedAll(c, bs);
  }

  lemma PutKeeps(c: Config, m0: Cells, m: Cells, o: nat, v: nat, bs: seq<Block>)
    requires c.Valid() && PayloadsKept(c, m0, m, bs) && OffPayloads(c, bs, o)
    ensures PayloadsKept(c, m0, PutSize(c, m, o, v), bs) && PayloadsKept(c, m0, PutPrev(c, m, o, v), bs)
    ensures PayloadsKept(c, m0, PutNext(c, m, o, v), bs) && PayloadsKept(c, m0, PutFprev(c, m, o, v), bs)
  {
    hide PutSize, PutPrev, PutNext, PutFprev, Live;
    forall b, a: nat | b in Live(bs) && b.off + c.blk <= a < b.off + b.size && a < |m0|
      ensures PutSize(c, m, o, v)[a] == m0[a] && PutPrev(c, m, o, v)[a] == m0[a]
      ensures PutNext(c, m, o, v)[a] == m0[a] && PutFprev(c, m, o, v)[a] == m0[a]
    {
      assert Clear(c, o, a);
      PutClear(c, m, o, v, a);
    }
  }

  lemma UnlinkKeeps(c: Config, m0: Cells, m: Cells, bs: seq<Block>, ns: seq<nat>, k: nat)
    requires c.Valid() && Tiles(c, bs) && PayloadsKept(c, m0, m, bs) && AllHeaders(c, bs, ns) && 0 < k < |ns| - 1
    ensures PayloadsKept(c, m0, UnlinkCells(c, m, ns, k), bs)
  {
    hide PutPrev, PutNext, PutFprev, IsHeader, Tiles, OffPayloads, PayloadsKept;
    HeaderOff(c, bs, ns[k - 1]);
    HeaderOff(c, bs, ns[k + 1]);
    PutKeeps(c, m0, m, ns[k + 1], ns[k - 1], bs);
    PutKeeps(c, m0, PutFprev(c, m, ns[k + 1], ns[k - 1]), ns[k - 1], ns[k + 1], bs);
  }

  lemma TakeKeeps(c: Config, m: Cells, bs: seq<Block>, ns: seq<nat>, k: nat, e: nat)
    requires c.Valid() && Tiles(c, bs) && AllHeaders(c, bs, ns) && 0 < k < |ns| - 1 && IsHeader(c, bs, e)
    ensures PayloadsKept(c, m, TakeCells(c, m, ns, k, e), bs)
  {
    hide PutPrev, PutNext, UnlinkCells, IsHeader, Tiles, OffPayloads;
    var m1 := UnlinkCells(c, m, ns, k);
    UnlinkKeeps(c, m, m, bs, ns, k);
    HeaderOff(c, bs, e);
    HeaderOff(c, bs, ns[k]);
    PutKeeps(c, m, m1, e, 0, bs);
    PutKeeps(c, m, PutPrev(c, m1, e, 0), ns[k], 0, bs);
  }

  lemma KeptSelf(c: Config, m: Cells, bs: seq<Block>)
    ensures PayloadsKept(c, m, m, bs)
  {}

  lemma RestKeeps(c: Config, m0: Cells, m: Cells, bs: seq<Block>, o: nat, need: nat, size: nat)
    requires c.Valid() && need <= size && PayloadsKept(c, m0, m, bs)
    requires OffPayloads(c, bs, o) && OffPayloads(c, bs, o + need) && OffPayloads(c, bs, o + size)
    ensures PayloadsKept(c, m0, RestCells(c, m, o, need, size), bs)
  {
    hide PutSize, PutPrev, OffPayloads, PayloadsKept;
    var r, e, rest := o + need, o + size, size - need;
    var m1 := PutSize(c, m, o, need);
    PutKeeps(c, m0, m, o, need, bs);
    var m2 := PutPrev(c, m1, r, 0);
    PutKeeps(c, m0, m1, r, 0, bs);
    var m3 := PutSize(c, m2, r, rest);
    PutKeeps(c, m0, m2, r, rest, bs);
    PutKeeps(c, m0, m3, e, rest, bs);
  }

  lemma SwapKeeps(c: Config, m0: Cells, m: Cells, bs: seq<Block>, ns: seq<nat>, k: nat, r: nat)
    requires c.Valid() && 0 < k < |ns| - 1 && PayloadsKept(c, m0, m, bs)
    requires OffPayloads(c, bs, ns[k - 1]) && OffPayloads(c, bs, ns[k + 1]) && OffPayloads(c, bs, r)
    ensures PayloadsKept(c, m0, SwapCells(c, m, ns, k, r), bs)
  {
    hide PutNext, PutFprev, OffPayloads, PayloadsKept;
    var m1 := PutNext(c, m, r, ns[k + 1]);
    PutKeeps(c, m0, m, r, ns[k + 1], bs);
    var m2 := PutFprev(c, m1, r, ns[k - 1]);
    PutKeeps(c, m0, m1, r, ns[k - 1], bs);
    var m3 := PutFprev(c, m2, ns[k + 1], r);
    PutKeeps(c, m0, m2, ns[k + 1], r, bs);
    PutKeeps(c, m0, m3, ns[k - 1], r, bs);
  }

  lemma SplitKeeps(c: Config, m: Cells, bs: seq<Block>, ns: seq<nat>, i: nat, k: nat, need: nat)
    requires c.Valid() && Tiles(c, bs) && AllHeaders(c, bs, ns) && 0 < k < |ns| - 1
    requires i < |bs| && bs[i].free && need + c.blk <= bs[i].size && ns[k] == bs[i].off
    ensures PayloadsKept(c, m, SplitCells(c, m, ns, k, need, bs[i].size), bs)
  {
    hide PutNext, RestCells, SwapCells, IsHeader, OffPayloads, Tiles, PayloadsKept;
    var o, r, e := ns[k], ns[k] + need, ns[k] + bs[i].size;
    EndIsHeader(c, bs, i);
    HeaderOff(c, bs, o);
    HeaderOff(c, bs, e);
    HeaderOff(c, bs, ns[k - 1]);
    HeaderOff(c, bs, ns[k + 1]);
    RestOff(c, bs, i, need);
    KeptSelf(c, m, bs);
    RestKeeps(c, m, m, bs, o, need, bs[i].size);
    var m1 := RestCells(c, m, o, need, bs[i].size);
    SwapKeeps(c, m, m1, bs, ns, k, r);
    PutKeeps(c, m, SwapCells(c, m1, ns, k, r), o, 0, bs);
  }

  lemma MergeKeeps(c: Config, m0: Cells, m: Cells, bs: seq<Block>, ns: seq<nat>, k: nat, o: nat, size: nat)
    requires c.Valid() && Tiles(c, bs) && PayloadsKept(c, m0, m, bs) && AllHeaders(c, bs, ns) && 0 < k < |ns| - 1
      && IsHeader(c, bs, o)
    ensures PayloadsKept(c, m0, PutSize(c, UnlinkCells(c, m, ns, k), o, size), bs)
  {
    hide PutSize, UnlinkCells, IsHeader, Tiles, OffPayloads, PayloadsKept;
    UnlinkKeeps(c, m0, m, bs, ns, k);
    HeaderOff(c, bs, o);
    PutKeeps(c, m0, UnlinkCells(c, m, ns, k), o, size, bs);
  }

  lemma FinishKeeps(c: Config, m0: Cells, m: Cells, bs: seq<Block>, ns: seq<nat>, o: nat, e: nat, size: nat)
    requires c.Valid() && Tiles(c, bs) && PayloadsKept(c, m0, m, bs) && AllHeaders(c, bs, ns) && |ns| >= 2
    requires IsHeader(c, bs, o) && IsHeader(c, bs, e)
    ensures PayloadsKept(c, m0, FinishCells(c, m, ns, o, e, size), bs)
  {
    hide PutPrev, PutNext, PutFprev, IsHeader, OffPayloads, Tiles, PayloadsKept;
    HeaderOff(c, bs, o);
    HeaderOff(c, bs, e);
    HeaderOff(c, bs, ns[0]);
    HeaderOff(c, bs, ns[1]);
    var m1 := PutPrev(c, m, e, size);
    PutKeeps(c, m0, m, e, size, bs);
    var m2 := PutNext(c, m1, o, ns[1]);
    PutKeeps(c, m0, m1, o, ns[1], bs);
    var m3 := PutNext(c, m2, ns[0], o);
    PutKeeps(c, m0, m2, ns[0], o, bs);
    var m4 := PutFprev(c, m3, o, ns[0]);
    PutKeeps(c, m0, m3, o, ns[0], bs);
    PutKeeps(c, m0, m4, ns[1], o, bs);
  }

  // ---------- what a deallocation reads ----------

  // The list after the left merge.
  function LeftList(h: Heap, i: nat): seq<nat>
    requires i < |h.blocks|
  {
    if MergeLo(h.blocks, i) < i then Remove(h.list, h.blocks[MergeLo(h.blocks, i)].off) else h.list
  }

  // The size of block i with a free left neighbour.
  function LeftSize(h: Heap, i: nat): nat
    requires i < |h.blocks|
  {
    (if MergeLo(h.blocks, i) < i then h.blocks[MergeLo(h.blocks, i)].size else 0) + h.blocks[i].size
  }

  // The position of the header o in the list.
  lemma ListPosition(c: Config, h: Heap, o: nat) returns (k: nat)
    requires c.Valid() && Inv(c, h) && HasFree(h.blocks, o)
    ensures k < |h.list| && h.list[k] == o
  {
    k :| 0 <= k < |h.list| && h.list[k] == o;
  }

  // What the fields of block i say.
  lemma BlockRead(c: Config, m: Cells, h: Heap, i: nat)
    requires c.Valid() && Repr(c, m, h) && i < |h.blocks|
    ensures SizeAt(c, m, h.blocks[i].off) == h.blocks[i].size
    ensures PrevAt(c, m, h.blocks[i].off) == Back(h.blocks, i)
    ensures !h.blocks[i].free ==> NextAt(c, m, h.blocks[i].off) == 0
    ensures PrevAt(c, m, After(c, h.blocks, i + 1)) == Back(h.blocks, i + 1)
  {
    hide SizeAt, PrevAt, NextAt, FprevAt, Linked, Back;
  }

  lemma LeftRead(c: Config, m: Cells, h: Heap, i: nat)
    requires c.Valid() && Inv(c, h) && Repr(c, m, h) && i < |h.blocks|
    ensures var bs, lo := h.blocks, MergeLo(h.blocks, i);
      && SizeAt(c, m, bs[i].off) == bs[i].size && bs[i].off + c.blk <= c.seg
      && (PrevAt(c, m, bs[i].off) != 0 <==> lo < i)
      && (lo < i ==> PrevAt(c, m, bs[i].off) <= bs[i].off && bs[i].off - PrevAt(c, m, bs[i].off) == bs[lo].off
                     && HasFree(bs, bs[lo].off) && SizeAt(c, m, bs[lo].off) == bs[lo].size)
  {
    hide SizeAt, PrevAt, NextAt, FprevAt, Repr, Lists, Coalesced, WordAligned;
    BlockRead(c, m, h, i);
    LeftReach(c, h.blocks, i);
    if i > 0 { BlockRead(c, m, h, i - 1); }
  }

  lemma StageZero(c: Config, m: Cells, h: Heap, i: nat)
    requires c.Valid() && Inv(c, h) && Repr(c, m, h) && i < |h.blocks|
    ensures Staged(c, m, m, h.blocks, Nodes(c, h.list), Nodes(c, h.list), h.blocks[i].off, h.blocks[i].size)
  {
    hide SizeAt, PrevAt, NextAt, FprevAt, IsHeader;
    NodesSpread(c, h);
  }

  lemma LeftNodes(c: Config, h: Heap, i: nat, k: nat)
    requires c.Valid() && Inv(c, h) && i < |h.blocks| && MergeLo(h.blocks, i) < i
    requires k < |h.list| && h.list[k] == h.blocks[MergeLo(h.blocks, i)].off
    ensures Nodes(c, LeftList(h, i)) == Without(Nodes(c, h.list), k + 1)
  {
    RemoveAt(h.list, k);
    NodesWithout(c, h.list, k);
  }

  // After the left merge: whether the block to the right is free, and its fields.
  lemma RightRead(c: Config, m: Cells, m1: Cells, h: Heap, i: nat)
    requires c.Valid() && Inv(c, h) && Repr(c, m, h) && i < |h.blocks| && !h.blocks[i].free
    requires Staged(c, m, m1, h.blocks, Nodes(c, h.list), Nodes(c, LeftList(h, i)),
      h.blocks[MergeLo(h.blocks, i)].off, LeftSize(h, i))
    ensures var bs, o, nxt := h.blocks, h.blocks[MergeLo(h.blocks, i)].off, After(c, h.blocks, i + 1);
      && o + LeftSize(h, i) == nxt && o + c.blk <= c.seg && nxt + c.blk <= c.seg
      && (NextAt(c, m1, nxt) != 0 <==> MergeHi(bs, i) > i)
      && (MergeHi(bs, i) > i ==>
            && bs[i + 1].free && nxt == bs[i + 1].off && SizeAt(c, m1, nxt) == bs[i + 1].size
            && nxt + bs[i + 1].size + c.blk <= c.seg
            && PrevAt(c, m1, nxt + bs[i + 1].size) == bs[i + 1].size
            && nxt in LeftList(h, i))
  {
    hide SizeAt, PrevAt, NextAt, FprevAt, Linked, Chain, WordAligned, LeftList, Repr, Nodes, Lists, Coalesced, Tiles;
    var bs := h.blocks;
    LeftReach(c, bs, i);
    if i + 1 < |bs| {
      RightNext(c, m, m1, h, i);
      LeftReach(c, bs, i + 1);
    } else {
      EndNext(c, m, h);
    }
  }

  lemma EndNext(c: Config, m: Cells, h: Heap)
    requires c.Valid() && Repr(c, m, h)
    ensures NextAt(c, m, c.End()) == 0
  {}

  lemma LeftReach(c: Config, bs: seq<Block>, i: nat)
    requires c.Valid() && Tiles(c, bs) && i < |bs|
    ensures var lo, nxt := MergeLo(bs, i), After(c, bs, i + 1);
      && bs[lo].off + (if lo < i then bs[lo].size else 0) + bs[i].size == nxt
      && bs[i].off + bs[i].size == nxt
      && bs[lo].off + c.blk <= c.seg && nxt + c.blk <= c.seg
  {
    OrderedAll(c, bs);
  }

  lemma RightNext(c: Config, m: Cells, m1: Cells, h: Heap, i: nat)
    requires c.Valid() && Inv(c, h) && Repr(c, m, h) && i + 1 < |h.blocks| && !h.blocks[i].free
    requires Staged(c, m, m1, h.blocks, Nodes(c, h.list), Nodes(c, LeftList(h, i)),
      h.blocks[MergeLo(h.blocks, i)].off, LeftSize(h, i))
    ensures var b := h.blocks[i + 1];
      && (NextAt(c, m1, b.off) != 0 <==> b.free)
      && (b.free ==>
          SizeAt(c, m1, b.off) == b.size && PrevAt(c, m1, b.off + b.size) == b.size && b.off in LeftList(h, i))
  {
    hide SizeAt, PrevAt, NextAt, FprevAt, Linked, Chain, WordAligned, Repr, Nodes, LeftSize, LeftList, Coalesced,
         Tiles, IsHeader, Staged, MergeLo, Lists;
    var bs, b := h.blocks, h.blocks[i + 1];
    EndIsHeader(c, bs, i + 1);
    OffsetsDiffer(c, bs, MergeLo(bs, i), i + 1);
    BlockRead(c, m, h, i + 1);
    StagedAt(c, m, m1, bs, Nodes(c, h.list), Nodes(c, LeftList(h, i)), bs[MergeLo(bs, i)].off, LeftSize(h, i), b.off);
    StagedAt(c, m, m1, bs, Nodes(c, h.list), Nodes(c, LeftList(h, i)), bs[MergeLo(bs, i)].off, LeftSize(h, i),
      b.off + b.size);
    if b.free {
      InLeftList(c, h, i);
      var k :| 0 <= k < |LeftList(h, i)| && LeftList(h, i)[k] == b.off;
      FreeNext(c, m1, bs, LeftList(h, i), k);
    } else {
      UnlistedNode(c, h, i + 1);
    }
  }

  lemma StagedAt(c: Config, m: Cells, m1: Cells, bs: seq<Block>, ns: seq<nat>, ns1: seq<nat>, o: nat, size: nat, p: nat)
    requires c.Valid() && Staged(c, m, m1, bs, ns, ns1, o, size) && IsHeader(c, bs, p)
    ensures p != o ==> SizeAt(c, m1, p) == SizeAt(c, m, p)
    ensures PrevAt(c, m1, p) == PrevAt(c, m, p)
    ensures p !in ns ==> NextAt(c, m1, p) == NextAt(c, m, p)
    ensures Linked(c, m1, ns1) && Chain(c, bs, ns1)
  {
    hide SizeAt, PrevAt, NextAt, Linked, Chain, IsHeader;
  }

  lemma InLeftList(c: Config, h: Heap, i: nat)
    requires c.Valid() && Inv(c, h) && i + 1 < |h.blocks| && !h.blocks[i].free && h.blocks[i + 1].free
    ensures h.blocks[i + 1].off in LeftList(h, i)
  {
    OffsetsDiffer(c, h.blocks, MergeLo(h.blocks, i), i + 1);
    assert HasFree(h.blocks, h.blocks[i + 1].off);
  }

  lemma FreeNext(c: Config, m: Cells, bs: seq<Block>, list: seq<nat>, k: nat)
    requires c.Valid() && Tiles(c, bs) && Linked(c, m, Nodes(c, list)) && Chain(c, bs, Nodes(c, list)) && k < |list|
    ensures NextAt(c, m, list[k]) != 0
  {
    var ns := Nodes(c, list);
    assert ns[k + 1] == list[k] && NextAt(c, m, ns[k + 1]) == ns[k + 2];
    HeaderPositive(c, bs, ns[k + 2]);
  }

  lemma HeaderPositive(c: Config, bs: seq<Block>, p: nat)
    requires c.Valid() && Tiles(c, bs) && IsHeader(c, bs, p)
    ensures p > 0
  {
    OrderedAll(c, bs);
  }

  lemma RightNodes(c: Config, h: Heap, i: nat, k: nat)
    requires c.Valid() && Inv(c, h) && i < |h.blocks| && MergeHi(h.blocks, i) > i
    requires k < |LeftList(h, i)| && LeftList(h, i)[k] == h.blocks[i + 1].off
    ensures Nodes(c, Unlinked(h, i)) == Without(Nodes(c, LeftList(h, i)), k + 1)
  {
    RemoveAt(LeftList(h, i), k);
    NodesWithout(c, LeftList(h, i), k);
  }

  // ---------- the fresh segment ----------

  // The four fields of one header, in the order apc_sma_api_init writes them.
  function HeaderCells(c: Config, m: Cells, o: nat, size: nat, next: nat, fprev: nat, prev: nat): Cells
    requires c.Valid()
  {
    PutPrev(c, PutFprev(c, PutNext(c, PutSize(c, m, o, size), o, next), o, fprev), o, prev)
  }

  lemma HeaderWritten(c: Config, m: Cells, o: nat, size: nat, next: nat, fprev: nat, prev: nat)
    requires c.Valid() && Fits(c, m, o)
    ensures var m' := HeaderCells(c, m, o, size, next, fprev, prev);
      && |m'| == |m|
      && SizeAt(c, m', o) == size && NextAt(c, m', o) == next && FprevAt(c, m', o) == fprev && PrevAt(c, m', o) == prev
      && forall p: nat {:trigger SizeAt(c, m', p)} {:trigger PrevAt(c, m', p)} {:trigger NextAt(c, m', p)}
         {:trigger FprevAt(c, m', p)} ::
           Apart(c, o, p) ==> SameAt(c, m, m', p)
  {
    hide SizeAt, PrevAt, NextAt, FprevAt, PutSize, PutPrev, PutNext, PutFprev, Apart;
    var m1 := PutSize(c, m, o, size);
    var m2 := PutNext(c, m1, o, next);
    var m3 := PutFprev(c, m2, o, fprev);
    var m4 := PutPrev(c, m3, o, prev);
    forall p: nat | Apart(c, o, p) ensures SameAt(c, m, m4, p) {
      assert SizeAt(c, m1, p) == SizeAt(c, m, p);
      assert SizeAt(c, m2, p) == SizeAt(c, m1, p);
      assert SizeAt(c, m3, p) == SizeAt(c, m2, p);
      assert SizeAt(c, m4, p) == SizeAt(c, m3, p);
    }
  }

  function InitCells(c: Config, m: Cells): Cells
    requires c.Valid()
  {
    var size := c.End() - c.Start();
    HeaderCells(c,
      HeaderCells(c,
        HeaderCells(c, m, c.hdr, 0, c.Start(), 0, 0),
        c.Start(), size, c.End(), c.hdr, 0),
      c.End(), 0, 0, c.Start(), size)
  }

  lemma InitImage(c: Config, m: Cells)
    requires c.Valid() && |m| == c.seg
    ensures Repr(c, InitCells(c, m), Init(c))
  {
    hide SizeAt, PrevAt, NextAt, FprevAt, HeaderCells;
    var size := c.End() - c.Start();
    var m1 := HeaderCells(c, m, c.hdr, 0, c.Start(), 0, 0);
    var m2 := HeaderCells(c, m1, c.Start(), size, c.End(), c.hdr, 0);
    HeaderWritten(c, m, c.hdr, 0, c.Start(), 0, 0);
    HeaderWritten(c, m1, c.Start(), size, c.End(), c.hdr, 0);
    HeaderWritten(c, m2, c.End(), 0, 0, c.Start(), size);
    assert Nodes(c, Init(c).list) == [c.hdr, c.Start(), c.End()];
  }
}
