/**
 Properties of the allocator over single calls, pairs of calls and whole
 histories. The central fact is Canonical: the allocated extents alone
 determine the physical layout of the segment.
 */
module SmaRuns {
  import opened Align
  import opened SmaSpec

  datatype Grant = NoRoom | Granted(payload: nat, bytes: nat)

  // sma_allocate on values: first fit in list order.
  function Alloc(c: Config, h: Heap, size: nat, fragment: nat): (Heap, Grant)
    requires c.Valid()
  {
    var need := c.RealSize(size);
    var k := FirstFit(h.blocks, h.list, need);
    if k == |h.list| then (h, NoRoom) else
    var i := IndexOf(h.blocks, h.list[k]);
    if Splits(c, h.blocks[i].size, need, fragment)
    then (Split(h, i, k, need), Granted(h.list[k] + c.blk, need - c.blk))
    else (Take(h, i), Granted(h.list[k] + c.blk, h.blocks[i].size - c.blk))
  }

  // payload is what some earlier allocation returned and nobody has freed.
  ghost predicate IsLive(c: Config, h: Heap, payload: nat) {
    exists b :: b in Live(h.blocks) && b.off + c.blk == payload
  }

  // sma_deallocate on values; what it does to an offset that is not live is not modelled.
  function Free(c: Config, h: Heap, payload: nat): Heap {
    if payload < c.blk || IndexOf(h.blocks, payload - c.blk) == |h.blocks| then h
    else FreeAt(h, IndexOf(h.blocks, payload - c.blk))
  }

  lemma LiveIndex(c: Config, h: Heap, payload: nat)
    requires c.Valid() && Inv(c, h) && IsLive(c, h, payload)
    ensures payload >= c.blk
    ensures var i := IndexOf(h.blocks, payload - c.blk);
      i < |h.blocks| && !h.blocks[i].free && h.blocks[i].off + c.blk == payload
  {
    var b :| b in Live(h.blocks) && b.off + c.blk == payload;
    var i :| 0 <= i < |h.blocks| && h.blocks[i] == b;
    IndexOfAt(c, h.blocks, i);
  }

  // ---------- one call ----------

  // h' is h with the free space of b allocated.
  ghost predicate Grants(c: Config, h: Heap, h': Heap, b: Block)
    requires c.Valid()
  {
    Inv(c, h') && b !in Live(h.blocks) && Live(h'.blocks) == Live(h.blocks) + {b}
      && Avail(c, h') + b.size == Avail(c, h)
  }

  // h' is h with the space of b free again.
  ghost predicate Releases(c: Config, h: Heap, h': Heap, b: Block)
    requires c.Valid()
  {
    Inv(c, h') && b in Live(h.blocks) && Live(h'.blocks) == Live(h.blocks) - {b} && Avail(c, h') == Avail(c, h) + b.size
  }

  lemma TakeSound(c: Config, h: Heap, i: nat)
    requires c.Valid() && Inv(c, h) && i < |h.blocks| && h.blocks[i].free
    ensures Grants(c, h, Take(h, i), h.blocks[i].(free := false))
  {
    InvTake(c, h, i);
    TakeEffect(h, i);
    NotLive(c, h, i);
  }

  lemma SplitSound(c: Config, h: Heap, i: nat, k: nat, need: nat)
    requires c.Valid() && Inv(c, h) && i < |h.blocks| && h.blocks[i].free
    requires k < |h.list| && h.list[k] == h.blocks[i].off
    requires c.blk <= need && need + c.blk <= h.blocks[i].size && Aligned(need, c.word)
    ensures Grants(c, h, Split(h, i, k, need), Block(h.blocks[i].off, need, false))
  {
    InvSplit(c, h, i, k, need);
    SplitEffect(h, i, k, need);
    NotLive(c, h, i);
  }

  // An allocation keeps the invariant, and changes the live extents and avail
  // by exactly the block it grants.
  lemma AllocSound(c: Config, h: Heap, size: nat, fragment: nat)
    requires c.Valid() && Inv(c, h)
    ensures var (h', g) := Alloc(c, h, size, fragment);
      if g == NoRoom then h' == h
      else g.payload >= c.blk && Grants(c, h, h', Block(g.payload - c.blk, g.bytes + c.blk, false))
  {
    hide Inv, Grants, Take, Split;
    ListIndex(c, h);
    var need := c.RealSize(size);
    var k := FirstFit(h.blocks, h.list, need);
    if k < |h.list| {
      var i := IndexOf(h.blocks, h.list[k]);
      assert h.list[k] in h.list;
      if Splits(c, h.blocks[i].size, need, fragment) {
        SplitSound(c, h, i, k, need);
      } else {
        TakeSound(c, h, i);
      }
    }
  }

  lemma NotLive(c: Config, h: Heap, i: nat)
    requires c.Valid() && Tiles(c, h.blocks) && i < |h.blocks| && h.blocks[i].free
    ensures forall b :: b in Live(h.blocks) ==> b.off != h.blocks[i].off
  {
    OrderedAll(c, h.blocks);
  }

  // Freeing keeps the invariant and gives back exactly the block it is asked to.
  lemma FreeSound(c: Config, h: Heap, b: Block)
    requires c.Valid() && Inv(c, h) && b in Live(h.blocks)
    ensures IsLive(c, h, b.off + c.blk)
    ensures Releases(c, h, Free(c, h, b.off + c.blk), b)
  {
    hide Coalesced, WordAligned, Lists, Tiles, FreeAt, FreeSum, IndexOf;
    var i :| 0 <= i < |h.blocks| && h.blocks[i] == b;
    IndexOfAt(c, h.blocks, i);
    InvFree(c, h, i);
    FreeEffect(c, h, i);
  }

  lemma {:induction false} FreeSumAtLeast(bs: seq<Block>, i: nat)
    requires i < |bs| && bs[i].free
    ensures FreeSum(bs) >= bs[i].size
  {
    if i > 0 { FreeSumAtLeast(bs[1..], i - 1); }
  }

  // The request fails exactly when no free block is large enough; in
  // particular whenever avail is below the rounded size.
  lemma FailsExactly(c: Config, h: Heap, size: nat, fragment: nat)
    requires c.Valid() && Inv(c, h)
    ensures Alloc(c, h, size, fragment).1 == NoRoom
       <==> forall i :: 0 <= i < |h.blocks| && h.blocks[i].free ==> h.blocks[i].size < c.RealSize(size)
    ensures Avail(c, h) < c.RealSize(size) ==> Alloc(c, h, size, fragment).1 == NoRoom
  {
    ListIndex(c, h);
    var need := c.RealSize(size);
    var k := FirstFit(h.blocks, h.list, need);
    if k == |h.list| {
      forall i | 0 <= i < |h.blocks| && h.blocks[i].free ensures h.blocks[i].size < need {
        var j :| 0 <= j < |h.list| && h.list[j] == h.blocks[i].off;
        IndexOfAt(c, h.blocks, i);
      }
    } else {
      var i := IndexOf(h.blocks, h.list[k]);
      assert h.list[k] in h.list;
      FreeSumAtLeast(h.blocks, i);
    }
  }

  // A granted request takes the first block of the list that is large enough.
  lemma TakesFirstFit(c: Config, h: Heap, size: nat, fragment: nat)
    requires c.Valid() && Inv(c, h) && Alloc(c, h, size, fragment).1.Granted?
    ensures var g := Alloc(c, h, size, fragment).1;
      exists k :: 0 <= k < |h.list| && g.payload == h.list[k] + c.blk
        && (forall i :: 0 <= i < |h.blocks| && h.blocks[i].off == h.list[k] ==>
            h.blocks[i].free && h.blocks[i].size >= c.RealSize(size))
        && (forall j, i :: 0 <= j < k && 0 <= i < |h.blocks| && h.blocks[i].off == h.list[j] ==>
            h.blocks[i].size < c.RealSize(size))
  {
    hide Coalesced, WordAligned, Take, Split;
    ListIndex(c, h);
    var k := FirstFit(h.blocks, h.list, c.RealSize(size));
    assert h.list[k] in h.list;
    forall i | 0 <= i < |h.blocks| ensures IndexOf(h.blocks, h.blocks[i].off) == i { IndexOfAt(c, h.blocks, i); }
  }

  // The reported size covers the request, and exceeds it by less than one
  // word, one minimal block and the fragment allowance.
  lemma AllocatedBounds(c: Config, h: Heap, size: nat, fragment: nat)
    requires c.Valid() && Inv(c, h) && Alloc(c, h, size, fragment).1.Granted?
    ensures var a := Alloc(c, h, size, fragment).1.bytes; size <= a < size + c.word + c.MinBlock() + fragment
  {
    ListIndex(c, h);
    var k := FirstFit(h.blocks, h.list, c.RealSize(size));
    assert h.list[k] in h.list;
  }

  // h' is h with free block i, which is at position k of the list, taken whole.
  ghost predicate TakesWhole(h: Heap, h': Heap, i: nat, k: nat)
    requires i < |h.blocks| && k < |h.list|
  {
    var b := h.blocks[i];
    && h'.blocks == h.blocks[..i] + [Block(b.off, b.size, false)] + h.blocks[i + 1..]
    && h'.list == h.list[..k] + h.list[k + 1..]
  }

  // h' is h with free block i cut after need bytes: what is left is free, and has
  // the block's place in the list.
  ghost predicate Cuts(h: Heap, h': Heap, i: nat, k: nat, need: nat)
    requires i < |h.blocks| && k < |h.list| && need <= h.blocks[i].size
  {
    var b := h.blocks[i];
    && h'.blocks == h.blocks[..i] + [Block(b.off, need, false), Block(b.off + need, b.size - need, true)]
       + h.blocks[i + 1..]
    && h'.list == h.list[..k] + [b.off + need] + h.list[k + 1..]
  }

  // A granted block is taken whole exactly when what a cut would leave is smaller
  // than one word, a block header and the fragment allowance.
  lemma WholeOrCut(c: Config, h: Heap, size: nat, fragment: nat)
    requires c.Valid() && Inv(c, h) && Alloc(c, h, size, fragment).1.Granted?
    ensures var (h', g) := Alloc(c, h, size, fragment);
      var need := AlignSize(size + c.blk, c.word);
      exists i, k :: 0 <= i < |h.blocks| && 0 <= k < |h.list| && h.list[k] == h.blocks[i].off
        && h.blocks[i].free && h.blocks[i].size >= need && g.payload == h.blocks[i].off + c.blk
        && if h.blocks[i].size - need < c.word + c.blk + fragment
           then g.bytes + c.blk == h.blocks[i].size && TakesWhole(h, h', i, k)
           else g.bytes + c.blk == need && Cuts(h, h', i, k, need)
  {
    hide Coalesced, WordAligned, Tiles, TakesWhole, Cuts, Take, Split;
    ListIndex(c, h);
    var need := c.RealSize(size);
    var k := FirstFit(h.blocks, h.list, need);
    assert h.list[k] in h.list;
    var i := IndexOf(h.blocks, h.list[k]);
    OneWord(c);
    if Splits(c, h.blocks[i].size, need, fragment) {
      SplitCuts(h, i, k, need);
    } else {
      TakeWhole(h, i, k);
    }
  }

  lemma OneWord(c: Config)
    requires c.Valid()
    ensures c.MinBlock() == c.word + c.blk
  {}

  lemma SplitCuts(h: Heap, i: nat, k: nat, need: nat)
    requires i < |h.blocks| && k < |h.list| && need <= h.blocks[i].size
    ensures Cuts(h, Split(h, i, k, need), i, k, need)
  {}

  lemma TakeWhole(h: Heap, i: nat, k: nat)
    requires i < |h.blocks| && k < |h.list| && h.list[k] == h.blocks[i].off && Distinct(h.list)
    ensures TakesWhole(h, Take(h, i), i, k)
  {
    hide Distinct;
    RemoveOne(h.list, k);
  }

  lemma {:induction false} RemoveOne(s: seq<nat>, k: nat)
    requires k < |s| && Distinct(s)
    ensures Remove(s, s[k]) == s[..k] + s[k + 1..]
  {
    var x := s[k];
    assert Distinct(s[1..]);
    if k == 0 {
      assert x !in s[1..];
      RemoveNone(s[1..], x);
    } else {
      RemoveOne(s[1..], k - 1);
    }
  }

  lemma {:induction false} RemoveNone(s: seq<nat>, x: nat)
    requires x !in s
    ensures Remove(s, x) == s
  {
    if s != [] { RemoveNone(s[1..], x); }
  }

  // h' is h with block i free and a free neighbour on either side merged into it.
  // The result comes first in the list; the former neighbours leave the list and
  // the others keep their order.
  ghost predicate ComesFirst(h: Heap, h': Heap, i: nat)
    requires i < |h.blocks|
  {
    var bs := h.blocks;
    var left, right := i > 0 && bs[i - 1].free, i + 1 < |bs| && bs[i + 1].free;
    var first := if left then bs[i - 1].off else bs[i].off;
    var size := (if left then bs[i - 1].size else 0) + bs[i].size + (if right then bs[i + 1].size else 0);
    var before, after := if left then bs[..i - 1] else bs[..i], if right then bs[i + 2..] else bs[i + 1..];
    var kept := if left then Remove(h.list, bs[i - 1].off) else h.list;
    && h'.blocks == before + [Block(first, size, true)] + after
    && h'.list == [first] + (if right then Remove(kept, bs[i + 1].off) else kept)
  }

  lemma FreesToFront(c: Config, h: Heap, b: Block)
    requires c.Valid() && Inv(c, h) && b in Live(h.blocks)
    ensures var i := IndexOf(h.blocks, b.off);
      i < |h.blocks| && h.blocks[i] == b && ComesFirst(h, Free(c, h, b.off + c.blk), i)
  {
    hide Coalesced, WordAligned, Lists, ComesFirst, FreeAt;
    var i :| 0 <= i < |h.blocks| && h.blocks[i] == b;
    IndexOfAt(c, h.blocks, i);
    FreeAtFirst(h, i);
  }

  lemma FreeAtFirst(h: Heap, i: nat)
    requires i < |h.blocks|
    ensures ComesFirst(h, FreeAt(h, i), i)
  {
    hide Remove, Unlinked;
    UnlinkedHow(h, i);
    var bs, lo, hi := h.blocks, MergeLo(h.blocks, i), MergeHi(h.blocks, i);
    assert FreeAt(h, i).blocks == bs[..lo] + [Merged(bs, i)] + bs[hi + 1..];
  }

  lemma UnlinkedHow(h: Heap, i: nat)
    requires i < |h.blocks|
    ensures var bs, lo, hi := h.blocks, MergeLo(h.blocks, i), MergeHi(h.blocks, i);
      var kept := if lo < i then Remove(h.list, bs[lo].off) else h.list;
      Unlinked(h, i) == if hi > i then Remove(kept, bs[hi].off) else kept
  {
    hide Remove;
  }

  lemma AllocBounds(c: Config, h: Heap, size: nat, fragment: nat)
    requires c.Valid() && Inv(c, h)
    ensures var g := Alloc(c, h, size, fragment).1; g.Granted? ==> g.payload >= c.blk && g.bytes >= size
  {
    hide Inv, Alloc, Grants;
    AllocSound(c, h, size, fragment);
    if Alloc(c, h, size, fragment).1.Granted? { AllocatedBounds(c, h, size, fragment); }
  }

  ghost predicate Disjoint(a: nat, alen: nat, b: nat, blen: nat) {
    a + alen <= b || b + blen <= a
  }

  // Live payloads are word-aligned, inside the segment and pairwise disjoint.
  lemma PayloadsApart(c: Config, h: Heap, a: Block, b: Block)
    requires c.Valid() && Inv(c, h) && a in Live(h.blocks) && b in Live(h.blocks)
    ensures Aligned(a.off + c.blk, c.word)
    ensures a.size >= c.blk && c.Start() + c.blk <= a.off + c.blk && a.off + a.size <= c.seg - 2 * c.blk
    ensures a != b ==> Disjoint(a.off + c.blk, a.size - c.blk, b.off + c.blk, b.size - c.blk)
  {
    OrderedAll(c, h.blocks);
    AlignedSum(a.off, c.blk, c.word);
  }

  // ---------- the canonical form ----------

  // Two layouts that agree on the first n blocks agree on the next one.
  lemma CanonicalStep(c: Config, p: seq<Block>, q: seq<Block>, n: nat)
    requires c.Valid() && Tiles(c, p) && Tiles(c, q) && Coalesced(p) && Coalesced(q)
    requires Live(p) == Live(q)
    requires n < |p| && n < |q| && p[n].off == q[n].off
    ensures p[n] == q[n]
  {
    if !p[n].free {
      LiveAt(c, p, q, n);
    } else if !q[n].free {
      LiveAt(c, q, p, n);
    } else {
      FreeReach(c, p, q, n);
      FreeReach(c, q, p, n);
    }
  }

  // An allocated block of p is the block of q at the same offset.
  lemma LiveAt(c: Config, p: seq<Block>, q: seq<Block>, n: nat)
    requires c.Valid() && Tiles(c, p) && Tiles(c, q)
    requires Live(p) == Live(q)
    requires n < |p| && n < |q| && p[n].off == q[n].off && !p[n].free
    ensures p[n] == q[n]
  {
    assert p[n] in Live(p);
    var j :| 0 <= j < |q| && q[j] == p[n];
    OrderedAll(c, q);
  }

  // A free block of p ends no earlier than the free block of q at the same offset.
  lemma FreeReach(c: Config, p: seq<Block>, q: seq<Block>, n: nat)
    requires c.Valid() && Tiles(c, p) && Tiles(c, q) && Coalesced(p)
    requires Live(p) == Live(q)
    requires n < |p| && n < |q| && p[n].off == q[n].off && p[n].free && q[n].free
    ensures p[n].size >= q[n].size
  {
    OrderedAll(c, q);
    if n + 1 < |p| {
      var b := p[n + 1];
      assert b in Live(p);
      var j :| 0 <= j < |q| && q[j] == b;
      assert b.off == p[n].off + p[n].size;
    }
  }

  lemma {:induction false} SamePrefix(c: Config, p: seq<Block>, q: seq<Block>, n: nat)
    requires c.Valid() && Tiles(c, p) && Tiles(c, q) && Coalesced(p) && Coalesced(q)
    requires Live(p) == Live(q)
    requires n <= |p|
    ensures n <= |q| && p[..n] == q[..n]
  {
    if n > 0 {
      SamePrefix(c, p, q, n - 1);
      OrderedAll(c, p);
      OrderedAll(c, q);
      if n > 1 {
        assert p[n - 2] == q[n - 2];
        assert p[n - 1].off == p[n - 2].off + p[n - 2].size;
      }
      CanonicalStep(c, p, q, n - 1);
      assert p[..n] == p[..n - 1] + [p[n - 1]];
      assert q[..n] == q[..n - 1] + [q[n - 1]];
    }
  }

  // The allocated extents determine the layout, avail, and which requests fail.
  lemma Canonical(c: Config, g: Heap, h: Heap)
    requires c.Valid() && Inv(c, g) && Inv(c, h) && Live(g.blocks) == Live(h.blocks)
    ensures g.blocks == h.blocks
    ensures Avail(c, g) == Avail(c, h)
    ensures multiset(g.list) == multiset(h.list)
    ensures forall size, fragment :: Alloc(c, g, size, fragment).1 == NoRoom <==>
      Alloc(c, h, size, fragment).1 == NoRoom
  {
    SamePrefix(c, g.blocks, h.blocks, |g.blocks|);
    SamePrefix(c, h.blocks, g.blocks, |h.blocks|);
    assert g.blocks == g.blocks[..|g.blocks|] == h.blocks;
    SameElements(g.list, h.list);
    forall size, fragment ensures Alloc(c, g, size, fragment).1 == NoRoom <==> Alloc(c, h, size, fragment).1 == NoRoom {
      FailsExactly(c, g, size, fragment);
      FailsExactly(c, h, size, fragment);
    }
  }

  lemma {:induction false} SameElements(s: seq<nat>, t: seq<nat>)
    requires Distinct(s) && Distinct(t) && forall o :: o in s <==> o in t
    ensures multiset(s) == multiset(t)
  {
    forall o ensures multiset(s)[o] == multiset(t)[o] {
      CountOne(s, o);
      CountOne(t, o);
    }
  }

  lemma {:induction false} CountOne(s: seq<nat>, o: nat)
    requires Distinct(s)
    ensures multiset(s)[o] == if o in s then 1 else 0
  {
    if s != [] {
      assert s == [s[0]] + s[1..];
      CountOne(s[1..], o);
    }
  }

  // Allocating and then freeing restores the layout and avail; only the order
  // of the free list may differ.
  lemma AllocFree(c: Config, h: Heap, size: nat, fragment: nat)
    requires c.Valid() && Inv(c, h) && Alloc(c, h, size, fragment).1.Granted?
    ensures var (h', g) := Alloc(c, h, size, fragment);
      && Inv(c, h') && IsLive(c, h', g.payload)
      && var h'' := Free(c, h', g.payload);
         h''.blocks == h.blocks && Avail(c, h'') == Avail(c, h) && multiset(h''.list) == multiset(h.list)
  {
    hide Inv, Alloc, Free;
    var (h', g) := Alloc(c, h, size, fragment);
    AllocSound(c, h, size, fragment);
    var b := Block(g.payload - c.blk, g.bytes + c.blk, false);
    FreeSound(c, h', b);
    Canonical(c, Free(c, h', g.payload), h);
  }

  // ---------- whole histories ----------

  datatype Op = DoAlloc(size: nat, fragment: nat) | DoFree(payload: nat)

  function Step(c: Config, h: Heap, op: Op): Heap
    requires c.Valid()
  {
    match op
    case DoAlloc(size, fragment) => Alloc(c, h, size, fragment).0
    case DoFree(payload) => Free(c, h, payload)
  }

  // The segment after a history of calls, from initialisation.
  function Run(c: Config, ops: seq<Op>): Heap
    requires c.Valid()
  {
    if ops == [] then Init(c) else Step(c, Run(c, ops[..|ops| - 1]), ops[|ops| - 1])
  }

  // Every call of the history frees only what is live at that moment.
  ghost predicate Legal(c: Config, ops: seq<Op>)
    requires c.Valid()
  {
    ops == [] ||
    var last := ops[|ops| - 1];
    && Legal(c, ops[..|ops| - 1])
    && (last.DoFree? ==> IsLive(c, Run(c, ops[..|ops| - 1]), last.payload))
  }

  // Any legal call keeps the invariant.
  lemma StepKeepsInv(c: Config, h: Heap, op: Op)
    requires c.Valid() && Inv(c, h) && (op.DoFree? ==> IsLive(c, h, op.payload))
    ensures Inv(c, Step(c, h, op))
  {
    hide Inv, Alloc, Free;
    match op
    case DoAlloc(size, fragment) =>
      AllocSound(c, h, size, fragment);
    case DoFree(payload) =>
      var b :| b in Live(h.blocks) && b.off + c.blk == payload;
      FreeSound(c, h, b);
  }

  lemma InitAligned(c: Config)
    requires c.Valid()
    ensures Aligned(c.Start(), c.word) && Aligned(c.End() - c.Start(), c.word)
  {
    AlignedSum(c.hdr, c.blk, c.word);
    AlignedSum(c.blk, c.blk, c.word);
    AlignedDiff(c.seg, c.blk + c.blk, c.word);
    AlignedDiff(c.End(), c.Start(), c.word);
  }

  lemma InitInv(c: Config)
    requires c.Valid()
    ensures Inv(c, Init(c)) && Live(Init(c).blocks) == {}
    ensures Avail(c, Init(c)) == c.seg - c.hdr - 2 * c.blk
  {
    InitAligned(c);
    var h := Init(c);
    assert FreeSum(h.blocks) == h.blocks[0].size + FreeSum(h.blocks[1..]);
    assert FreeSum(h.blocks[1..]) == 0;
    forall o ensures o in h.list <==> HasFree(h.blocks, o) {
      HasFreeOne(h.blocks[0], o);
    }
    assert Distinct(h.list);
  }

  // Every history keeps the whole invariant.
  lemma {:induction false} RunsKeepInv(c: Config, ops: seq<Op>)
    requires c.Valid() && Legal(c, ops)
    ensures Inv(c, Run(c, ops))
  {
    hide Inv, Step;
    if ops == [] {
      InitInv(c);
    } else {
      RunsKeepInv(c, ops[..|ops| - 1]);
      StepKeepsInv(c, Run(c, ops[..|ops| - 1]), ops[|ops| - 1]);
    }
  }

  // Two histories that leave the same blocks allocated leave the same segment,
  // whatever their order and however many other blocks came and went.
  lemma HistoryIndependent(c: Config, ops1: seq<Op>, ops2: seq<Op>)
    requires c.Valid() && Legal(c, ops1) && Legal(c, ops2)
    requires Live(Run(c, ops1).blocks) == Live(Run(c, ops2).blocks)
    ensures Run(c, ops1).blocks == Run(c, ops2).blocks && Avail(c, Run(c, ops1)) == Avail(c, Run(c, ops2))
  {
    hide Inv, Legal, Run, Live, Alloc;
    RunsKeepInv(c, ops1);
    RunsKeepInv(c, ops2);
    Canonical(c, Run(c, ops1), Run(c, ops2));
  }

  // Once everything is freed the segment is as it was initialised.
  lemma AllFreed(c: Config, ops: seq<Op>)
    requires c.Valid() && Legal(c, ops) && Live(Run(c, ops).blocks) == {}
    ensures Run(c, ops) == Init(c)
    ensures Run(c, ops).blocks == [Block(c.hdr + c.blk, c.seg - c.hdr - 3 * c.blk, true)]
    ensures Avail(c, Run(c, ops)) == c.seg - c.hdr - 2 * c.blk
  {
    hide Inv, Alloc, Legal, Run, FreeSum;
    InitInv(c);
    RunsKeepInv(c, ops);
    Canonical(c, Run(c, ops), Init(c));
    OneElement(Run(c, ops).list, c.Start());
  }

  lemma OneElement(s: seq<nat>, x: nat)
    requires multiset(s) == multiset([x])
    ensures s == [x]
  {
    assert |s| == |multiset(s)| == 1;
    assert s[0] in multiset(s);
  }

  // The order in which two live blocks are freed does not matter.
  lemma FreesCommute(c: Config, h: Heap, a: Block, b: Block)
    requires c.Valid() && Inv(c, h) && a in Live(h.blocks) && b in Live(h.blocks) && a != b
    requires IsLive(c, h, a.off + c.blk) && IsLive(c, h, b.off + c.blk)
    ensures var (ha, hb) := (Free(c, h, a.off + c.blk), Free(c, h, b.off + c.blk));
      && Inv(c, ha) && IsLive(c, ha, b.off + c.blk)
      && Inv(c, hb) && IsLive(c, hb, a.off + c.blk)
      && Free(c, ha, b.off + c.blk).blocks == Free(c, hb, a.off + c.blk).blocks
  {
    hide Inv, Free, IsLive;
    FreeSound(c, h, a);
    FreeSound(c, h, b);
    var ha, hb := Free(c, h, a.off + c.blk), Free(c, h, b.off + c.blk);
    FreeSound(c, ha, b);
    FreeSound(c, hb, a);
    Canonical(c, Free(c, ha, b.off + c.blk), Free(c, hb, a.off + c.blk));
  }
}
