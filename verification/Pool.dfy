/** The pool allocator, which lives in blocks of the shared-memory allocator. */
module Pool {
  import opened Align
  import opened PoolSpec
  import opened Sma
  import S = SmaSpec
  import R = SmaRuns
  import I = SmaImage

  // The fields of pool_block.
  datatype Head = Head(avail: nat, capacity: nat, mark: Addr, next: Addr)

  function AddrAt(bs: seq<Block>, i: nat): Addr { if i < |bs| then bs[i].at else 0 }

  function HeadOf(l: Layout, bs: seq<Block>, i: nat): Head
    requires l.word >= 1 && i < |bs| && Used(l, bs[i].recs) <= bs[i].capacity
  {
    var u := Used(l, bs[i].recs);
    Head(bs[i].capacity - u, bs[i].capacity, Start(l, bs[i]) + u, AddrAt(bs, i + 1))
  }

  // The header of block i says how full it is and where the next block is.
  ghost predicate Heads(l: Layout, hdrs: map<Addr, Head>, bs: seq<Block>, i: nat)
    requires l.word >= 1 && i < |bs|
  {
    bs[i].at != 0 && Used(l, bs[i].recs) <= bs[i].capacity && bs[i].at in hdrs && hdrs[bs[i].at] == HeadOf(l, bs, i)
  }

  // The list from head on holds the blocks bs.
  ghost predicate Chained(l: Layout, hdrs: map<Addr, Head>, head: Addr, bs: seq<Block>)
    requires l.word >= 1
  {
    && head == AddrAt(bs, 0)
    && forall i :: 0 <= i < |bs| ==> Heads(l, hdrs, bs, i)
  }

  // The allocator's block that block i of the pool lies in; the last one also
  // holds the pool itself.
  ghost predicate Lies(c: S.Config, l: Layout, base: Addr, bs: seq<Block>, i: nat, g: S.Block)
    requires i < |bs|
  {
    && g.off + c.blk == (if i + 1 < |bs| then bs[i].at else base)
    && (i + 1 == |bs| ==> bs[i].at + l.hdr == base + l.rpool)
    && Start(l, bs[i]) + bs[i].capacity <= g.off + g.size
  }

  ghost predicate Owns(c: S.Config, live: set<S.Block>, l: Layout, base: Addr, bs: seq<Block>, gs: seq<S.Block>) {
    && |gs| == |bs| >= 1
    && (forall i :: 0 <= i < |gs| ==> gs[i] in live && Lies(c, l, base, bs, i, gs[i]))
    && (forall i, j :: 0 <= i < j < |gs| ==> gs[i] != gs[j])
  }

  // What was asked for from the allocator: the blocks with their headers, and the
  // pool itself with its first one, which is the last of the list.
  ghost function Footprint(l: Layout, bs: seq<Block>): nat
    requires l.word >= 1
  {
    if bs == [] then 0
    else (if |bs| == 1 then l.rpool else l.hdr) + AlignUp(bs[0].capacity, l.word) + Footprint(l, bs[1..])
  }

  lemma {:induction false} FootprintExtended(l: Layout, bs: seq<Block>, n: nat, sz: nat)
    requires l.word >= 1 && n < |bs|
    ensures Footprint(l, bs[n := Extended(bs[n], sz)]) == Footprint(l, bs)
  {
    hide AlignUp;
    var bs' := bs[n := Extended(bs[n], sz)];
    if n > 0 {
      assert bs'[1..] == bs[1..][n - 1 := Extended(bs[n], sz)];
      FootprintExtended(l, bs[1..], n - 1, sz);
    } else {
      assert bs'[1..] == bs[1..];
    }
  }

  ghost predicate AllSized(l: Layout, mem: Memory, bs: seq<Block>)
    requires l.word >= 1
  {
    forall i :: 0 <= i < |bs| ==> Sized(l, mem, bs[i])
  }

  ghost predicate AllIntact(l: Layout, mem: Memory, bs: seq<Block>)
    requires l.word >= 1
  {
    forall i :: 0 <= i < |bs| ==> BlockIntact(l, mem, bs[i])
  }

  // ---------- no two blocks overlap ----------

  lemma RegionsApart(c: S.Config, h: S.Heap, l: Layout, base: Addr, bs: seq<Block>, gs: seq<S.Block>, i: nat, j: nat)
    requires c.Valid() && S.Inv(c, h) && l.Valid() && Owns(c, S.Live(h.blocks), l, base, bs, gs)
    requires i < |bs| && j < |bs| && i != j
    ensures Start(l, bs[i]) + bs[i].capacity <= bs[j].at || Start(l, bs[j]) + bs[j].capacity <= bs[i].at
    ensures bs[i].at != bs[j].at
  {
    hide S.Inv, S.Live;
    R.PayloadsApart(c, h, gs[i], gs[j]);
    assert Lies(c, l, base, bs, i, gs[i]) && Lies(c, l, base, bs, j, gs[j]);
  }

  // Payloads of different allocations never overlap, and every payload lies
  // inside the live allocator block of its pool block.
  lemma PayloadsApart(c: S.Config, h: S.Heap, l: Layout, base: Addr, bs: seq<Block>, gs: seq<S.Block>, i: nat, k: nat,
                      j: nat, m: nat)
    requires c.Valid() && S.Inv(c, h) && l.Valid() && Owns(c, S.Live(h.blocks), l, base, bs, gs)
    requires i < |bs| && k < |bs[i].recs| && Used(l, bs[i].recs) <= bs[i].capacity
    requires j < |bs| && m < |bs[j].recs| && Used(l, bs[j].recs) <= bs[j].capacity
    ensures (i, k) != (j, m) ==>
      || PayloadAt(l, bs[i], k) + bs[i].recs[k] <= PayloadAt(l, bs[j], m)
      || PayloadAt(l, bs[j], m) + bs[j].recs[m] <= PayloadAt(l, bs[i], k)
    ensures gs[i].off + c.blk <= PayloadAt(l, bs[i], k)
      && PayloadAt(l, bs[i], k) + bs[i].recs[k] <= gs[i].off + gs[i].size
  {
    hide S.Inv, S.Live, RecordAt, Used;
    RecordUsed(l, bs[i], k);
    RecordUsed(l, bs[j], m);
    assert Lies(c, l, base, bs, i, gs[i]);
    if i != j {
      RegionsApart(c, h, l, base, bs, gs, i, j);
    } else if k < m {
      RecordInside(l, bs[i], k);
      RecordsOrdered(l, bs[i], k, m);
    } else if m < k {
      RecordInside(l, bs[i], m);
      RecordsOrdered(l, bs[i], m, k);
    }
  }

  // A cell of payload k of block i is neither a size field nor part of a redzone.
  lemma PayloadCell(c: S.Config, h: S.Heap, l: Layout, base: Addr, bs: seq<Block>, gs: seq<S.Block>, i: nat, k: nat,
                    j: nat, m: nat, a: Addr)
    requires c.Valid() && S.Inv(c, h) && l.Valid() && Owns(c, S.Live(h.blocks), l, base, bs, gs)
    requires i < |bs| && k < |bs[i].recs| && Used(l, bs[i].recs) <= bs[i].capacity
    requires j < |bs| && m < |bs[j].recs| && Used(l, bs[j].recs) <= bs[j].capacity
    requires PayloadAt(l, bs[i], k) <= a < PayloadAt(l, bs[i], k) + bs[i].recs[k]
    ensures l.sizeinfo ==> a != RecordAt(l, bs[j], m)
    ensures l.redzones ==>
      a < PayloadAt(l, bs[j], m) + bs[j].recs[m] || PayloadAt(l, bs[j], m) + bs[j].recs[m]
      + RedzoneSize(l, bs[j].recs[m]) <= a
  {
    hide S.Inv, S.Live, RecordAt, Used, RedzoneSize;
    RecordUsed(l, bs[i], k);
    RecordUsed(l, bs[j], m);
    if i != j {
      RegionsApart(c, h, l, base, bs, gs, i, j);
    } else if k < m {
      RecordInside(l, bs[i], k);
      RecordsOrdered(l, bs[i], k, m);
    } else if m < k {
      RecordInside(l, bs[i], m);
      RecordsOrdered(l, bs[i], m, k);
    }
  }

  // ---------- frames ----------

  // mem' differs from mem only inside block n, from the end of its records on.
  ghost predicate OnlyBeyond(l: Layout, mem: Memory, mem': Memory, b: Block)
    requires l.word >= 1
  {
    forall a: nat :: a < Start(l, b) + Used(l, b.recs) || Start(l, b) + b.capacity <= a ==> At(mem', a) == At(mem, a)
  }

  lemma OthersSame(c: S.Config, h: S.Heap, l: Layout, base: Addr, bs: seq<Block>, gs: seq<S.Block>, mem: Memory,
                   mem': Memory, n: nat, i: nat)
    requires c.Valid() && S.Inv(c, h) && l.Valid() && Owns(c, S.Live(h.blocks), l, base, bs, gs)
    requires n < |bs| && i < |bs| && Used(l, bs[i].recs) <= bs[i].capacity
    requires OnlyBeyond(l, mem, mem', bs[n])
    ensures SameIn(l, mem, mem', Start(l, bs[i]), Start(l, bs[i]) + Used(l, bs[i].recs))
  {
    hide S.Inv, S.Live, Used;
    if i != n { RegionsApart(c, h, l, base, bs, gs, i, n); }
  }

  ghost predicate NoTwins(bs: seq<Block>) {
    forall i, j :: 0 <= i < j < |bs| ==> bs[i].at != bs[j].at
  }

  lemma HeadsAt(l: Layout, hdrs: map<Addr, Head>, head: Addr, bs: seq<Block>, i: nat)
    requires l.word >= 1 && Chained(l, hdrs, head, bs) && i < |bs|
    ensures Heads(l, hdrs, bs, i)
  {}

  // The header of a block with one more record.
  function Filled(e: Head, taken: nat): Head
    requires taken <= e.avail
  {
    e.(avail := e.avail - taken, mark := e.mark + taken)
  }

  lemma ExtendHead(l: Layout, hdrs: map<Addr, Head>, bs: seq<Block>, n: nat, size: nat)
    requires l.Valid() && n < |bs| && Heads(l, hdrs, bs, n) && hdrs[bs[n].at].avail >= Real(l, size)
    ensures Heads(l, hdrs[bs[n].at := Filled(hdrs[bs[n].at], Real(l, size))], bs[n := Extended(bs[n], size)], n)
  {
    hide Real, Used;
    UsedAppend(l, bs[n].recs, size);
    NextSame(bs, n, Extended(bs[n], size), n + 1);
  }

  lemma KeepHead(l: Layout, hdrs: map<Addr, Head>, bs: seq<Block>, n: nat, b: Block, e: Head, i: nat)
    requires l.Valid() && n < |bs| && i < |bs| && i != n && Heads(l, hdrs, bs, i) && b.at == bs[n].at
      && bs[i].at != bs[n].at
    ensures Heads(l, hdrs[b.at := e], bs[n := b], i)
  {
    hide Real, Used;
    NextSame(bs, n, b, i + 1);
  }

  // Extending block n by one record.
  lemma ExtendChain(l: Layout, hdrs: map<Addr, Head>, head: Addr, bs: seq<Block>, n: nat, size: nat)
    requires l.Valid() && Chained(l, hdrs, head, bs) && n < |bs| && Heads(l, hdrs, bs, n)
      && hdrs[bs[n].at].avail >= Real(l, size) && NoTwins(bs)
    ensures Chained(l, hdrs[bs[n].at := Filled(hdrs[bs[n].at], Real(l, size))], head, bs[n := Extended(bs[n], size)])
  {
    hide Real, Used, Filled, HeadOf;
    var bs' := bs[n := Extended(bs[n], size)];
    var e := Filled(hdrs[bs[n].at], Real(l, size));
    var hdrs' := hdrs[bs[n].at := e];
    forall i | 0 <= i < |bs'| ensures Heads(l, hdrs', bs', i) {
      HeadsAt(l, hdrs, head, bs, i);
      if i == n {
        ExtendHead(l, hdrs, bs, n, size);
      } else {
        assert bs[i].at != bs[n].at;
        KeepHead(l, hdrs, bs, n, Extended(bs[n], size), e, i);
      }
    }
    NextSame(bs, n, Extended(bs[n], size), 0);
  }

  lemma NextSame(bs: seq<Block>, n: nat, b: Block, i: nat)
    requires n < |bs| && b.at == bs[n].at
    ensures AddrAt(bs[n := b], i) == AddrAt(bs, i)
  {}

  lemma NextPushed(bs: seq<Block>, b: Block, i: nat)
    ensures AddrAt([b] + bs, i + 1) == AddrAt(bs, i)
  {}

  // A new empty block in front.
  lemma PushChain(l: Layout, hdrs: map<Addr, Head>, head: Addr, bs: seq<Block>, b: Block)
    requires l.Valid() && Chained(l, hdrs, head, bs) && b.recs == [] && b.at != 0
    requires forall i :: 0 <= i < |bs| ==> bs[i].at != b.at
    ensures Chained(l, hdrs[b.at := Head(b.capacity, b.capacity, b.at + l.hdr, head)], b.at, [b] + bs)
  {
    hide Used;
    var bs' := [b] + bs;
    var hdrs' := hdrs[b.at := Head(b.capacity, b.capacity, b.at + l.hdr, head)];
    UsedNone(l);
    forall i | 0 <= i < |bs'| ensures Heads(l, hdrs', bs', i) {
      NextPushed(bs, b, i);
      if i > 0 { assert bs'[i] == bs[i - 1] && Heads(l, hdrs, bs, i - 1); }
    }
  }

  lemma UsedNone(l: Layout)
    requires l.word >= 1
    ensures Used(l, []) == 0
  {}

  lemma PushOwns(c: S.Config, live: set<S.Block>, live': set<S.Block>, l: Layout, base: Addr, bs: seq<Block>,
                 gs: seq<S.Block>, b: Block, g: S.Block)
    requires Owns(c, live, l, base, bs, gs) && live' == live + {g} && g !in live
    requires g.off + c.blk == b.at && Start(l, b) + b.capacity <= g.off + g.size
    ensures Owns(c, live', l, base, [b] + bs, [g] + gs)
  {
    var bs', gs' := [b] + bs, [g] + gs;
    forall i | 0 <= i < |gs'| ensures gs'[i] in live' && Lies(c, l, base, bs', i, gs'[i]) {
      if i > 0 { assert Lies(c, l, base, bs, i - 1, gs[i - 1]); }
    }
  }

  lemma OwnsNoTwins(c: S.Config, h: S.Heap, l: Layout, base: Addr, bs: seq<Block>, gs: seq<S.Block>)
    requires c.Valid() && S.Inv(c, h) && l.Valid() && Owns(c, S.Live(h.blocks), l, base, bs, gs)
    ensures NoTwins(bs)
  {
    hide S.Inv, S.Live, Owns;
    OwnsMany(c, S.Live(h.blocks), l, base, bs, gs);
    forall i, j | 0 <= i < j < |bs| ensures bs[i].at != bs[j].at { RegionsApart(c, h, l, base, bs, gs, i, j); }
  }

  lemma OwnsMany(c: S.Config, live: set<S.Block>, l: Layout, base: Addr, bs: seq<Block>, gs: seq<S.Block>)
    requires Owns(c, live, l, base, bs, gs)
    ensures |gs| == |bs| >= 1 && forall i :: 0 <= i < |gs| ==> gs[i] in live
  {}

  // Extending a block changes nothing about where it lies.
  lemma ExtendOwns(c: S.Config, live: set<S.Block>, l: Layout, base: Addr, bs: seq<Block>, gs: seq<S.Block>, n: nat,
                   b: Block)
    requires Owns(c, live, l, base, bs, gs) && n < |bs| && b.at == bs[n].at && b.capacity == bs[n].capacity
    ensures Owns(c, live, l, base, bs[n := b], gs)
  {
    forall i | 0 <= i < |gs| ensures Lies(c, l, base, bs[n := b], i, gs[i]) { assert Lies(c, l, base, bs, i, gs[i]); }
  }

  // The first of the first eight blocks with room for need bytes.
  function Pick(l: Layout, bs: seq<Block>, need: nat, i: nat): (r: nat)
    requires l.word >= 1 && i <= |bs| && i <= 8
    ensures r <= |bs| && r <= 8
    ensures r < |bs| && r < 8 ==> bs[r].capacity >= need + Used(l, bs[r].recs)
    ensures forall j :: i <= j < r ==> bs[j].capacity < need + Used(l, bs[j].recs)
    decreases |bs| - i
  {
    if i == |bs| || i == 8 then i
    else if bs[i].capacity >= need + Used(l, bs[i].recs) then i
    else Pick(l, bs, need, i + 1)
  }

  class RealPool {
    const l: Layout
    const sma: Segment
    const fragment: nat
    const base: Addr         // the address of the apc_realpool
    var dsize: nat
    var count: nat
    var size: nat
    var head: Addr
    var hdrs: map<Addr, Head>
    var mem: Memory
    ghost var blocks: seq<Block>
    ghost var granted: seq<S.Block>   // what the allocator granted for them

    ghost predicate Valid()
      reads this, sma, sma.mem
    {
      && l.Valid() && sma.Valid() && dsize >= 1
      && Chained(l, hdrs, head, blocks)
      && Owns(sma.c, S.Live(sma.heap.blocks), l, base, blocks, granted)
      && AllSized(l, mem, blocks)
      && count + 1 == |blocks| && size == Footprint(l, blocks)
    }

    // m is whatever the granted memory holds.
    constructor (l: Layout, sma: Segment, fragment: nat, dsize: nat, base: Addr, m: Memory, ghost g: S.Block)
      requires l.Valid() && sma.Valid() && dsize >= 1 && g in S.Live(sma.heap.blocks)
      requires g.off + sma.c.blk == base && base + l.rpool + dsize <= g.off + g.size
      ensures Valid() && this.l == l && this.sma == sma && this.fragment == fragment && this.base == base
      ensures blocks == [Block(base + l.rpool - l.hdr, dsize, [])] && granted == [g] && AllIntact(l, mem, blocks)
      ensures this.dsize == dsize && count == 0 && size == l.rpool + AlignUp(dsize, l.word)
    {
      hide Segment.Valid, S.Live, Chained, Owns, Sized, AlignUp;
      this.l, this.sma, this.fragment, this.base := l, sma, fragment, base;
      this.dsize, count, size := dsize, 0, l.rpool + AlignUp(dsize, l.word);
      head := base + l.rpool - l.hdr;
      hdrs := map[base + l.rpool - l.hdr := Head(dsize, dsize, base + l.rpool, 0)];
      mem := m;
      blocks, granted := [Block(base + l.rpool - l.hdr, dsize, [])], [g];
      new;
      SegmentConfig(sma);
      FirstBlock(l, sma.c, S.Live(sma.heap.blocks), base, dsize, g, hdrs);
      SizedEmpty(l, mem, blocks[0]);
      FootprintFirst(l, blocks);
    }

    static lemma FootprintFirst(l: Layout, bs: seq<Block>)
      requires l.word >= 1 && |bs| == 1
      ensures Footprint(l, bs) == l.rpool + AlignUp(bs[0].capacity, l.word)
    {}

    static lemma SegmentConfig(sma: Segment)
      requires sma.Valid()
      ensures sma.c.Valid()
    {}

    // A pool starts out with the one block that is part of it.
    static lemma FirstBlock(l: Layout, c: S.Config, live: set<S.Block>, base: Addr, dsize: nat, g: S.Block,
                            hdrs: map<Addr, Head>)
      requires l.Valid() && c.Valid() && g in live && g.off + c.blk == base && base + l.rpool + dsize <= g.off + g.size
      requires hdrs == map[base + l.rpool - l.hdr := Head(dsize, dsize, base + l.rpool, 0)]
      ensures var bs := [Block(base + l.rpool - l.hdr, dsize, [])];
        Chained(l, hdrs, base + l.rpool - l.hdr, bs) && Owns(c, live, l, base, bs, [g])
    {
      var bs := [Block(base + l.rpool - l.hdr, dsize, [])];
      UsedNone(l);
      assert c.blk >= 4;
      assert Heads(l, hdrs, bs, 0);
      assert Lies(c, l, base, bs, 0, g);
    }

    static lemma SizedEmpty(l: Layout, m: Memory, b: Block)
      requires l.word >= 1 && b.recs == []
      ensures Sized(l, m, b)
    {}

    // apc_realpool_create
    static method Create(l: Layout, sma: Segment, fragment: nat, kind: nat, m: Memory) returns (r: RealPool?)
      requires l.Valid() && sma.Valid()
      modifies sma`heap, sma`avail, sma.mem
      ensures sma.Valid()
      ensures r == null <==>
        kind !in {1, 2, 3}
        || R.Alloc(sma.c, old(sma.heap), l.rpool + AlignUp(if kind == 1 then 512 else if kind == 2 then 4096 else 8192,
                                                           l.word), fragment).1 == R.NoRoom
      ensures r == null ==> sma.heap == old(sma.heap)
      ensures r != null ==>
        && r.fragment == fragment && r.dsize == (if kind == 1 then 512 else if kind == 2 then 4096 else 8192)
        && r.count == 0 && r.size == l.rpool + AlignUp(r.dsize, l.word)
        && fresh(r) && r.Valid() && AllIntact(l, r.mem, r.blocks) && r.l == l && r.sma == sma && kind in {1, 2, 3}
        && |r.granted| == 1 && r.blocks == [Block(r.base + l.rpool - l.hdr,
                                               if kind == 1 then 512 else if kind == 2 then 4096 else 8192, [])]
        && r.granted[0] !in old(S.Live(sma.heap.blocks))
           && S.Live(sma.heap.blocks) == old(S.Live(sma.heap.blocks)) + {r.granted[0]}
    {
      hide S.Inv, S.Live, I.Repr, R.Alloc, Owns, Chained;
      var dsize;
      match kind {
        case 1 => dsize := 512;
        case 2 => dsize := 4096;
        case 3 => dsize := 8192;
        case _ => return null;
      }
      var want := l.rpool + AlignUp(dsize, l.word);
      R.AllocSound(sma.c, sma.heap, want, fragment);
      R.AllocBounds(sma.c, sma.heap, want, fragment);
      var grant := sma.Allocate(want, fragment);
      match grant
      case NoRoom => return null;
      case Granted(payload, bytes) =>
        r := new RealPool(l, sma, fragment, dsize, payload, m, S.Block(payload - sma.c.blk, bytes + sma.c.blk, false));
    }

    // create_pool_block
    method Grow(poolsize: nat) returns (ok: bool)
      requires Valid()
      modifies this`head, this`hdrs, this`size, this`count, this`blocks, this`granted, sma`heap, sma`avail, sma.mem
      ensures Valid() && ok == R.Alloc(sma.c, old(sma.heap), l.hdr + AlignUp(poolsize, l.word), fragment).1.Granted?
      ensures !ok ==>
        blocks == old(blocks) && granted == old(granted) && sma.heap == old(sma.heap) && count == old(count)
        && size == old(size)
      ensures ok ==>
        && |blocks| == |old(blocks)| + 1 && blocks == [Block(blocks[0].at, poolsize, [])] + old(blocks)
        && |granted| == |old(granted)| + 1 && granted == [granted[0]] + old(granted)
        && granted[0] !in old(S.Live(sma.heap.blocks))
           && S.Live(sma.heap.blocks) == old(S.Live(sma.heap.blocks)) + {granted[0]}
        && count == old(count) + 1 && size == old(size) + l.hdr + AlignUp(poolsize, l.word)
    {
      hide S.Inv, S.Live, I.Repr, R.Alloc, Owns, Chained, Sized;
      ghost var live := S.Live(sma.heap.blocks);
      var realsize := l.hdr + AlignUp(poolsize, l.word);
      R.AllocSound(sma.c, sma.heap, realsize, fragment);
      R.AllocBounds(sma.c, sma.heap, realsize, fragment);
      var grant := sma.Allocate(realsize, fragment);
      match grant
      case NoRoom => return false;
      case Granted(entry, bytes) =>
        ghost var g := S.Block(entry - sma.c.blk, bytes + sma.c.blk, false);
        ghost var b := Block(entry, poolsize, []);
        PushOwns(sma.c, live, S.Live(sma.heap.blocks), l, base, blocks, granted, b, g);
        OwnsNoTwins(sma.c, sma.heap, l, base, [b] + blocks, [g] + granted);
        NewTwin(b, blocks);
        SegmentAddrs(sma.c);
        PushChain(l, hdrs, head, blocks, b);
        SizedEmpty(l, mem, b);
        hdrs := hdrs[entry := Head(poolsize, poolsize, entry + l.hdr, head)];
        head := entry;
        size := size + realsize;
        count := count + 1;
        blocks, granted := [b] + blocks, [g] + granted;
        ok := true;
    }

    static lemma SegmentAddrs(c: S.Config)
      requires c.Valid()
      ensures c.blk >= 1
    {}

    static lemma NewTwin(b: Block, bs: seq<Block>)
      requires NoTwins([b] + bs)
      ensures forall i :: 0 <= i < |bs| ==> bs[i].at != b.at
    {
      forall i | 0 <= i < |bs| ensures bs[i].at != b.at {
        var t := [b] + bs;
        assert t[0].at != t[i + 1].at;
      }
    }

    method Put(a: Addr, v: nat)
      modifies this`mem
      ensures mem == old(mem)[a := v]
    {
      mem := mem[a := v];
    }

    // MARK_REDZONE
    method MarkRedzone(redzone: Addr, redsize: nat)
      requires redsize <= 32
      modifies this`mem
      ensures forall j :: 0 <= j < redsize ==> At(mem, redzone + j) == DECAFF[j]
      ensures forall a: nat :: a < redzone || redzone + redsize <= a ==> At(mem, a) == At(old(mem), a)
    {
      hide DECAFF;
      DecaffLength();
      var i := 0;
      while i < redsize
        invariant i <= redsize
        invariant forall j :: 0 <= j < i ==> At(mem, redzone + j) == DECAFF[j]
        invariant forall a: nat :: a < redzone || redzone + redsize <= a ==> At(mem, a) == At(old(mem), a)
      {
        Put(redzone + i, DECAFF[i]);
        i := i + 1;
      }
    }

    // The size field and the redzone of a new record that begins at mark.
    method WriteRecord(mark: Addr, sz: nat) returns (p: Addr)
      requires l.Valid()
      modifies this`mem
      ensures p == mark + Info(l)
      ensures l.sizeinfo ==> At(mem, mark) == sz
      ensures l.redzones ==> forall j :: 0 <= j < RedzoneSize(l, sz) && j < 32 ==> At(mem, p + sz + j) == DECAFF[j]
      ensures forall a: nat :: a < mark || mark + Real(l, sz) <= a ==> At(mem, a) == At(old(mem), a)
    {
      RealAligned(l, sz);
      RedzoneBounds(l, sz);
      hide Real, RedzoneSize;
      p := mark;
      if l.sizeinfo {
        Put(p, sz);
        p := p + l.info;
      }
      if l.redzones {
        MarkRedzone(p + sz, RedzoneSize(l, sz));
      }
    }

    // The end of apc_realpool_alloc, from the label found on.
    method Commit(entry: Addr, sz: nat, ghost n: nat) returns (p: Addr)
      requires Valid() && n < |blocks| && entry == blocks[n].at
        && blocks[n].capacity >= Real(l, sz) + Used(l, blocks[n].recs)
      modifies this`mem, this`hdrs, this`blocks
      ensures Valid() && blocks == old(blocks)[n := Extended(old(blocks)[n], sz)]
      ensures p == PayloadAt(l, blocks[n], |old(blocks)[n].recs|)
      ensures l.redzones && old(AllIntact(l, mem, blocks)) ==> AllIntact(l, mem, blocks)
    {
      hide S.Inv, S.Live, I.Repr, Owns, Chained, Sized, BlockIntact, Real, Used, RedzoneSize, Footprint;
      HeadsAt(l, hdrs, head, blocks, n);
      ghost var m0, b := mem, blocks[n];
      var e := hdrs[entry];
      p := WriteRecord(e.mark, sz);
      CommitSized(m0, sz, n);
      if l.redzones && AllIntact(l, m0, blocks) { CommitIntact(m0, sz, n); }
      ExtendedLast(l, b, sz);
      FootprintExtended(l, blocks, n, sz);
      OwnsNoTwins(sma.c, sma.heap, l, base, blocks, granted);
      ExtendChain(l, hdrs, head, blocks, n, sz);
      ExtendOwns(sma.c, S.Live(sma.heap.blocks), l, base, blocks, granted, n, Extended(b, sz));
      hdrs := hdrs[entry := Filled(e, Real(l, sz))];
      blocks := blocks[n := Extended(b, sz)];
    }

    static lemma ExtendedLast(l: Layout, b: Block, sz: nat)
      requires l.word >= 1
      ensures PayloadAt(l, Extended(b, sz), |b.recs|) == Start(l, b) + Used(l, b.recs) + Info(l)
    {
      ExtendedRecords(l, b, sz, |b.recs|);
      assert b.recs[..|b.recs|] == b.recs;
    }

    ghost predicate Shaped(m0: Memory)
      reads this, sma, sma.mem
    {
      && l.Valid() && sma.Valid()
      && Chained(l, hdrs, head, blocks)
      && Owns(sma.c, S.Live(sma.heap.blocks), l, base, blocks, granted)
      && AllSized(l, m0, blocks)
    }

    lemma CommitSized(m0: Memory, sz: nat, n: nat)
      requires Shaped(m0) && n < |blocks| && OnlyBeyond(l, m0, mem, blocks[n])
      requires l.sizeinfo ==> At(mem, Start(l, blocks[n]) + Used(l, blocks[n].recs)) == sz
      ensures AllSized(l, mem, blocks[n := Extended(blocks[n], sz)])
    {
      hide S.Inv, S.Live, I.Repr, Owns, Chained, Sized, Real, Used, OnlyBeyond, SameIn;
      OwnsMany(sma.c, S.Live(sma.heap.blocks), l, base, blocks, granted);
      var bs := blocks[n := Extended(blocks[n], sz)];
      forall i | 0 <= i < |bs| ensures Sized(l, mem, bs[i]) {
        HeadsAt(l, hdrs, head, blocks, i);
        OthersSame(sma.c, sma.heap, l, base, blocks, granted, m0, mem, n, i);
        SizedFrame(l, m0, mem, blocks[i]);
        if i == n { ExtendedSized(l, mem, blocks[n], sz); }
      }
    }

    lemma CommitIntact(m0: Memory, sz: nat, n: nat)
      requires Shaped(m0) && n < |blocks| && OnlyBeyond(l, m0, mem, blocks[n]) && l.redzones && AllIntact(l, m0, blocks)
      requires forall j :: 0 <= j < RedzoneSize(l, sz) && j < 32 ==>
        At(mem, Start(l, blocks[n]) + Used(l, blocks[n].recs) + Info(l) + sz + j) == DECAFF[j]
      ensures AllIntact(l, mem, blocks[n := Extended(blocks[n], sz)])
    {
      hide S.Inv, S.Live, I.Repr, Owns, Chained, BlockIntact, Real, Used, RedzoneSize, OnlyBeyond, SameIn;
      OwnsMany(sma.c, S.Live(sma.heap.blocks), l, base, blocks, granted);
      var bs := blocks[n := Extended(blocks[n], sz)];
      forall i | 0 <= i < |bs| ensures BlockIntact(l, mem, bs[i]) {
        HeadsAt(l, hdrs, head, blocks, i);
        OthersSame(sma.c, sma.heap, l, base, blocks, granted, m0, mem, n, i);
        IntactFrame(l, m0, mem, blocks[i]);
        if i == n { ExtendedIntact(l, mem, blocks[n], sz); }
      }
    }

    // The look-back of apc_realpool_alloc: the first of up to eight blocks with room, or 0.
    method Look(realsize: nat) returns (entry: Addr, ghost n: nat)
      requires Valid()
      ensures n == Pick(l, blocks, realsize, 0)
      ensures entry == if Pick(l, blocks, realsize, 0) < |blocks| && Pick(l, blocks, realsize, 0) < 8
                       then blocks[Pick(l, blocks, realsize, 0)].at else 0
      ensures n < |blocks| ==> blocks[n].at != 0
    {
      hide S.Inv, S.Live, I.Repr, Owns, Chained, Sized, Real, Used, RedzoneSize;
      var i := 0;
      n := 0;
      ListHead(l, hdrs, head, blocks);
      entry := head;
      while entry != 0 && i < 8
        invariant n == i <= |blocks| && i <= 8 && entry == AddrAt(blocks, i) && (entry != 0 <==> i < |blocks|)
        invariant Pick(l, blocks, realsize, 0) == Pick(l, blocks, realsize, i)
        decreases 8 - i
      {
        HeadsAt(l, hdrs, head, blocks, i);
        if hdrs[entry].avail >= realsize { return; }
        entry := hdrs[entry].next;
        i := i + 1;
        n := i;
        if i < |blocks| { HeadsAt(l, hdrs, head, blocks, i); }
      }
      if entry != 0 { entry := 0; }
    }

    static lemma ListHead(l: Layout, hdrs: map<Addr, Head>, head: Addr, bs: seq<Block>)
      requires l.word >= 1 && Chained(l, hdrs, head, bs)
      ensures head == AddrAt(bs, 0) && (head != 0 <==> |bs| > 0)
    {
      if |bs| > 0 { HeadsAt(l, hdrs, head, bs, 0); }
    }

    // The block size that a pool of count blocks asks for.
    static function Upgraded(count: nat, dsize: nat): nat {
      if count > 4 && dsize < 4096 then 4096 else if count > 8 && dsize < 8192 then 8192 else dsize
    }

    method Upgrade()
      requires Valid()
      modifies this`dsize
      ensures Valid() && dsize == Upgraded(count, old(dsize))
    {
      hide S.Inv, S.Live, I.Repr, Owns, Chained, Sized;
      if count > 4 && dsize < 4096 {
        dsize := 4096;
      } else if count > 8 && dsize < 8192 {
        dsize := 8192;
      }
    }

    // The beginning of apc_realpool_alloc: what a record takes from its block.
    method RealSize(sz: nat) returns (realsize: nat)
      requires l.Valid()
      ensures realsize == Real(l, sz)
    {
      realsize := AlignUp(sz, l.word);
      if l.redzones {
        var redsize := RedzoneSize(l, sz);
        realsize := sz + redsize;
      }
      if l.sizeinfo {
        realsize := realsize + l.info;
      }
    }

    // No block had room: the pool grows, and entry is its new first block.
    method GrowFor(realsize: nat, ghost n: nat) returns (entry: Addr)
      requires Valid() && n == Pick(l, blocks, realsize, 0) && !(n < |blocks| && n < 8)
      modifies this`head, this`hdrs, this`size, this`count, this`blocks, this`granted, this`dsize,
               sma`heap, sma`avail, sma.mem
      ensures Valid() && dsize == Upgraded(old(count), old(dsize)) && realsize >= 1
      ensures entry == 0 <==>
        R.Alloc(sma.c, old(sma.heap), l.hdr + AlignUp(AlignSize(realsize, dsize), l.word), fragment).1 == R.NoRoom
      ensures entry == 0 ==> blocks == old(blocks) && granted == old(granted) && sma.heap == old(sma.heap)
      ensures entry != 0 ==>
        && |blocks| > 0 && entry == blocks[0].at && blocks == [Block(entry, AlignSize(realsize, dsize), [])]
           + old(blocks)
        && blocks[0].capacity >= realsize + Used(l, [])
        && |granted| > 0 && granted == [granted[0]] + old(granted)
        && granted[0] !in old(S.Live(sma.heap.blocks))
        && S.Live(sma.heap.blocks) == old(S.Live(sma.heap.blocks)) + {granted[0]}
      ensures old(AllIntact(l, mem, blocks)) ==> AllIntact(l, mem, blocks)
    {
      hide S.Inv, S.Live, I.Repr, R.Alloc, Owns, Chained, Sized, BlockIntact, Used, Pick, AlignSize, AlignUp, S.Avail;
      OwnsMany(sma.c, S.Live(sma.heap.blocks), l, base, blocks, granted);
      HeadsAt(l, hdrs, head, blocks, 0);
      NoneFits(l, blocks, realsize, n);
      Upgrade();
      var poolsize := AlignSize(realsize, dsize);
      var ok := Grow(poolsize);
      if !ok { return 0; }
      IntactEmpty(l, mem, blocks[0]);
      UsedNone(l);
      ListHead(l, hdrs, head, blocks);
      HeadsAt(l, hdrs, head, blocks, 0);
      entry := head;
    }

    // apc_realpool_alloc; n is the block that the record goes to. 0 is failure.
    method Alloc(sz: nat) returns (r: Addr, ghost n: nat)
      requires Valid()
      modifies this, sma`heap, sma`avail, sma.mem
      ensures Valid()
      ensures var k := Pick(l, old(blocks), Real(l, sz), 0);
        if k < |old(blocks)| && k < 8 then
          && r != 0 && n == k && blocks == old(blocks)[n := Extended(old(blocks)[n], sz)]
          && granted == old(granted) && sma.heap == old(sma.heap) && dsize == old(dsize)
        else
          && Real(l, sz) >= 1
          && dsize == (if old(count) > 4 && old(dsize) < 4096 then 4096
                       else if old(count) > 8 && old(dsize) < 8192 then 8192
                       else old(dsize))
          && (r == 0 <==>
              R.Alloc(sma.c, old(sma.heap), l.hdr + AlignUp(AlignSize(Real(l, sz), dsize), l.word), fragment).1 ==
              R.NoRoom)
          && (r == 0 ==> blocks == old(blocks) && granted == old(granted) && sma.heap == old(sma.heap))
          && (r != 0 ==>
                && n == 0 && |blocks| > 0 && blocks == [Block(blocks[0].at, AlignSize(Real(l, sz), dsize), [sz])]
                   + old(blocks)
                && |granted| > 0 && granted == [granted[0]] + old(granted)
                && granted[0] !in old(S.Live(sma.heap.blocks))
                   && S.Live(sma.heap.blocks) == old(S.Live(sma.heap.blocks)) + {granted[0]})
      ensures count + 1 == |blocks|
      ensures r != 0 ==> n < |blocks| && |blocks[n].recs| > 0 && r == PayloadAt(l, blocks[n], |blocks[n].recs| - 1)
      ensures l.redzones && old(AllIntact(l, mem, blocks)) ==> AllIntact(l, mem, blocks)
    {
      hide S.Inv, S.Live, I.Repr, R.Alloc, Owns, Chained, Sized, BlockIntact, Real, Used, RedzoneSize, Pick,
           AlignSize, AlignUp, S.Avail;
      var realsize := RealSize(sz);
      var entry;
      entry, n := Look(realsize);
      if entry == 0 {
        entry := GrowFor(realsize, n);
        if entry == 0 { return 0, 0; }
        n := 0;
      }
      r := Commit(entry, sz, n);
      HeadsAt(l, hdrs, head, blocks, n);
      PayloadLater(l, blocks[n], |blocks[n].recs| - 1);
    }

    static lemma PayloadLater(l: Layout, b: Block, k: nat)
      requires l.word >= 1 && k < |b.recs| && b.at != 0
      ensures PayloadAt(l, b, k) != 0
    {}

    // Only a record of some bytes can find no room in the first block.
    static lemma NoneFits(l: Layout, bs: seq<Block>, need: nat, n: nat)
      requires l.word >= 1 && n == Pick(l, bs, need, 0) && !(n < |bs| && n < 8)
      requires |bs| > 0 ==> Used(l, bs[0].recs) <= bs[0].capacity
      ensures |bs| > 0 ==> need >= 1
    {}

    static lemma IntactEmpty(l: Layout, m: Memory, b: Block)
      requires l.word >= 1 && b.recs == []
      ensures BlockIntact(l, m, b)
    {}

    // ---------- writes by the pool's users ----------

    // A write to a payload by whoever it was allocated for damages no redzone.
    method Fill(p: Addr, o: nat, v: nat, ghost n: nat, ghost k: nat)
      requires Valid() && n < |blocks| && k < |blocks[n].recs| && p == PayloadAt(l, blocks[n], k)
        && o < blocks[n].recs[k]
      modifies this`mem
      ensures mem == old(mem)[p + o := v]
      ensures Valid()
      ensures l.redzones && old(AllIntact(l, mem, blocks)) ==> AllIntact(l, mem, blocks)
    {
      hide S.Inv, S.Live, I.Repr, Owns, Chained, Real, Used, RecordAt, RedzoneSize;
      OwnsMany(sma.c, S.Live(sma.heap.blocks), l, base, blocks, granted);
      ghost var a := p + o;
      HeadsAt(l, hdrs, head, blocks, n);
      forall j, m | 0 <= j < |blocks| && 0 <= m < |blocks[j].recs|
        ensures l.sizeinfo ==> a != RecordAt(l, blocks[j], m)
        ensures l.redzones ==>
          a < PayloadAt(l, blocks[j], m) + blocks[j].recs[m]
          || PayloadAt(l, blocks[j], m) + blocks[j].recs[m] + RedzoneSize(l, blocks[j].recs[m]) <= a
      {
        HeadsAt(l, hdrs, head, blocks, j);
        PayloadCell(sma.c, sma.heap, l, base, blocks, granted, n, k, j, m, a);
      }
      if l.redzones && AllIntact(l, mem, blocks) { IntactBut(l, mem, blocks, a, v); }
      mem := mem[p + o := v];
    }

    static lemma IntactBut(l: Layout, m: Memory, bs: seq<Block>, a: Addr, v: nat)
      requires l.word >= 1 && AllIntact(l, m, bs)
      requires forall j, k :: 0 <= j < |bs| && 0 <= k < |bs[j].recs| ==>
        a < PayloadAt(l, bs[j], k) + bs[j].recs[k]
          || PayloadAt(l, bs[j], k) + bs[j].recs[k] + RedzoneSize(l, bs[j].recs[k]) <= a
      ensures AllIntact(l, m[a := v], bs)
    {
      hide Used, RedzoneSize, RecordAt, PayloadAt;
      var m' := m[a := v];
      forall j, k | 0 <= j < |bs| && 0 <= k < |bs[j].recs| ensures RedzoneIntact(l, m', bs[j], k) {
        assert BlockIntact(l, m, bs[j]) && RedzoneIntact(l, m, bs[j], k);
      }
    }

    // An allocation for a user, who keeps what it got if it got anything.
    method Lend(sz: nat, loans: seq<Loan>) returns (r: seq<Loan>)
      requires Valid() && AllLent(l, blocks, loans)
      modifies this, sma`heap, sma`avail, sma.mem
      ensures Valid() && AllLent(l, blocks, r)
      ensures l.redzones && old(AllIntact(l, mem, blocks)) ==> AllIntact(l, mem, blocks)
      ensures
        || (granted == old(granted) && sma.heap == old(sma.heap))
        || (|granted| > 0 && granted == [granted[0]] + old(granted)
            && granted[0] !in old(S.Live(sma.heap.blocks))
            && S.Live(sma.heap.blocks) == old(S.Live(sma.heap.blocks)) + {granted[0]})
    {
      hide S.Inv, S.Live, I.Repr, R.Alloc, Valid, AllIntact, Real, IsPayload, AllLent;
      LayoutOf();
      ghost var bs := blocks;
      var p;
      ghost var n;
      p, n := Alloc(sz);
      r := loans;
      if p != 0 {
        ghost var k := Pick(l, bs, Real(l, sz), 0);
        if k < |bs| && k < 8 {
          LoansStay(l, bs, n, sz, loans);
        } else {
          LoansPushed(l, bs, blocks[0], loans);
        }
        LoanMade(l, blocks, n, p, sz, loans);
        r := loans + [Loan(p, sz)];
      }
    }

    lemma LayoutOf()
      requires Valid()
      ensures l.word >= 1
    {}

    static lemma LoansStay(l: Layout, bs: seq<Block>, n: nat, sz: nat, loans: seq<Loan>)
      requires l.word >= 1 && n < |bs| && AllLent(l, bs, loans)
      ensures AllLent(l, bs[n := Extended(bs[n], sz)], loans)
    {
      hide IsPayload;
      forall h | 0 <= h < |loans| ensures IsPayload(l, bs[n := Extended(bs[n], sz)], loans[h].p, loans[h].size) {
        PayloadStays(l, bs, n, sz, loans[h].p, loans[h].size);
      }
    }

    static lemma LoansPushed(l: Layout, bs: seq<Block>, b: Block, loans: seq<Loan>)
      requires l.word >= 1 && AllLent(l, bs, loans)
      ensures AllLent(l, [b] + bs, loans)
    {
      hide IsPayload;
      forall h | 0 <= h < |loans| ensures IsPayload(l, [b] + bs, loans[h].p, loans[h].size) {
        PayloadPushed(l, bs, b, loans[h].p, loans[h].size);
      }
    }

    static lemma LoanMade(l: Layout, bs: seq<Block>, n: nat, p: Addr, sz: nat, loans: seq<Loan>)
      requires l.word >= 1 && AllLent(l, bs, loans) && n < |bs| && |bs[n].recs| > 0
      requires p == PayloadAt(l, bs[n], |bs[n].recs| - 1) && bs[n].recs[|bs[n].recs| - 1] == sz
      ensures AllLent(l, bs, loans + [Loan(p, sz)])
    {
      hide PayloadAt;
      assert IsPayload(l, bs, p, sz);
    }

    // A write by the user of one loan.
    method FillLoan(loans: seq<Loan>, handle: nat, o: nat, v: nat)
      requires Valid() && AllLent(l, blocks, loans) && handle < |loans| && o < loans[handle].size
      modifies this`mem
      ensures Valid()
      ensures l.redzones && old(AllIntact(l, mem, blocks)) ==> AllIntact(l, mem, blocks)
    {
      hide Valid, AllIntact, PayloadAt;
      LayoutOf();
      var loan := loans[handle];
      assert IsPayload(l, blocks, loan.p, loan.size);
      ghost var n, k :| 0 <= n < |blocks| && 0 <= k < |blocks[n].recs|
        && loan.p == PayloadAt(l, blocks[n], k) && loan.size == blocks[n].recs[k];
      Fill(loan.p, o, v, n, k);
    }

    // ---------- the integrity check ----------

    // CHECK_REDZONE
    method CheckRedzone(redzone: Addr, redsize: nat) returns (ok: bool)
      requires redsize <= 32
      ensures ok <==> forall j :: 0 <= j < redsize ==> At(mem, redzone + j) == DECAFF[j]
    {
      hide DECAFF;
      DecaffLength();
      var i := 0;
      while i < redsize && At(mem, redzone + i) == DECAFF[i]
        invariant i <= redsize
        invariant forall j :: 0 <= j < i ==> At(mem, redzone + j) == DECAFF[j]
      {
        i := i + 1;
      }
      ok := i == redsize;
    }

    // The walk over the records of one block: it ends exactly at its mark.
    method CheckBlock(entry: Addr, ghost n: nat) returns (ok: bool)
      requires Valid() && l.sizeinfo && l.redzones && n < |blocks| && entry == blocks[n].at
      ensures ok <==> BlockIntact(l, mem, blocks[n])
    {
      hide S.Inv, S.Live, I.Repr, Owns, Chained, Real, Used, RecordAt, RedzoneSize, Aligned, Footprint;
      HeadsAt(l, hdrs, head, blocks, n);
      ghost var b := blocks[n];
      assert Sized(l, mem, b);
      var mark := hdrs[entry].mark;
      var start := entry + l.hdr;
      ghost var k: nat := 0;
      RecordEnds(l, b);
      while start < mark
        invariant k <= |b.recs| && start == RecordAt(l, b, k) && start <= mark && (k < |b.recs| <==> start < mark)
        invariant forall m :: 0 <= m < k ==> RedzoneIntact(l, mem, b, m)
        decreases |b.recs| - k
      {
        var sz := At(mem, start);
        NextRecord(l, b, k);
        RedzoneBounds(l, sz);
        var redzone := start + l.info + sz;
        var redsize := RedzoneSize(l, sz);
        var intact := CheckRedzone(redzone, redsize);
        RedzoneHow(l, mem, b, k);
        if !intact { return false; }
        start := start + (l.info + sz + redsize);
        k := k + 1;
      }
      assert start == mark;
      ok := true;
    }

    static lemma RecordEnds(l: Layout, b: Block)
      requires l.Valid() && l.sizeinfo
      ensures RecordAt(l, b, 0) == Start(l, b) && RecordAt(l, b, |b.recs|) == Start(l, b) + Used(l, b.recs)
      ensures forall k :: 0 <= k < |b.recs| ==> RecordAt(l, b, k) < Start(l, b) + Used(l, b.recs)
      ensures |b.recs| == 0 ==> Used(l, b.recs) == 0
    {
      hide Real;
      assert b.recs[..|b.recs|] == b.recs;
      UsedNone(l);
      forall k | 0 <= k < |b.recs| ensures RecordAt(l, b, k) < Start(l, b) + Used(l, b.recs) { RecordUsed(l, b, k); }
    }

    static lemma NextRecord(l: Layout, b: Block, k: nat)
      requires l.Valid() && l.sizeinfo && l.redzones && k < |b.recs|
      ensures RecordAt(l, b, k + 1) == RecordAt(l, b, k) + (l.info + b.recs[k] + RedzoneSize(l, b.recs[k]))
      ensures RecordAt(l, b, k + 1) <= Start(l, b) + Used(l, b.recs)
      ensures k + 1 < |b.recs| ==> RecordAt(l, b, k + 1) < Start(l, b) + Used(l, b.recs)
      ensures k + 1 == |b.recs| ==> RecordAt(l, b, k + 1) == Start(l, b) + Used(l, b.recs)
    {
      UsedNext(l, b.recs, k);
      hide Used, RedzoneSize;
      RecordEnds(l, b);
    }

    static lemma RedzoneHow(l: Layout, m: Memory, b: Block, k: nat)
      requires l.Valid() && l.sizeinfo && k < |b.recs|
      ensures RedzoneIntact(l, m, b, k) <==>
        forall j :: 0 <= j < RedzoneSize(l, b.recs[k]) && j < 32 ==>
          At(m, RecordAt(l, b, k) + l.info + b.recs[k] + j) == DECAFF[j]
    {
      hide Used, RedzoneSize;
    }

    // apc_realpool_check_integrity: it accepts exactly when every redzone still
    // holds the pattern.
    method CheckIntegrity() returns (ok: bool)
      requires Valid()
      ensures ok <==> (l.redzones && l.sizeinfo ==> AllIntact(l, mem, blocks))
    {
      hide S.Inv, S.Live, I.Repr, Owns, Chained, Sized, BlockIntact, Real, Used, RedzoneSize;
      var marks := CheckMarks();
      if !marks { return false; }
      if !l.redzones || !l.sizeinfo { return true; }
      ListHead(l, hdrs, head, blocks);
      var entry := head;
      ghost var i: nat := 0;
      while entry != 0
        invariant i <= |blocks| && entry == AddrAt(blocks, i) && (entry != 0 <==> i < |blocks|)
        invariant forall j :: 0 <= j < i ==> BlockIntact(l, mem, blocks[j])
        decreases |blocks| - i
      {
        HeadsAt(l, hdrs, head, blocks, i);
        var intact := CheckBlock(entry, i);
        if !intact { return false; }
        entry := hdrs[entry].next;
        i := i + 1;
        if i < |blocks| { HeadsAt(l, hdrs, head, blocks, i); }
      }
      ok := true;
    }

    // The first loop of the check: what is behind the mark and what is left make
    // up the block. It holds in every state of the pool.
    method CheckMarks() returns (ok: bool)
      requires Valid()
      ensures ok
    {
      hide S.Inv, S.Live, I.Repr, Owns, Chained, Sized, Real, Used;
      ListHead(l, hdrs, head, blocks);
      var entry := head;
      ghost var i: nat := 0;
      while entry != 0
        invariant i <= |blocks| && entry == AddrAt(blocks, i) && (entry != 0 <==> i < |blocks|)
        decreases |blocks| - i
      {
        HeadsAt(l, hdrs, head, blocks, i);
        var start := entry + l.hdr;
        if hdrs[entry].mark - start != hdrs[entry].capacity - hdrs[entry].avail { return false; }
        entry := hdrs[entry].next;
        i := i + 1;
        if i < |blocks| { HeadsAt(l, hdrs, head, blocks, i); }
      }
      ok := true;
    }

    // ---------- the end of a pool ----------

    // apc_realpool_cleanup: every block but the one inside the pool goes back.
    method Cleanup() returns (ghost freed: seq<S.Block>)
      requires Valid()
      modifies this`hdrs, sma`heap, sma`avail, sma.mem
      ensures sma.Valid()
      ensures freed == granted[..|granted| - 1]
      ensures granted[|granted| - 1] in S.Live(sma.heap.blocks) && granted[|granted| - 1].off + sma.c.blk == base
      ensures S.Live(sma.heap.blocks) == old(S.Live(sma.heap.blocks)) - Elems(freed)
    {
      hide S.Inv, S.Live, I.Repr, R.Free, R.IsLive, Owns, Chained, Sized, Real, Used;
      ghost var live, hdrs0 := S.Live(sma.heap.blocks), hdrs;
      OwnsMany(sma.c, live, l, base, blocks, granted);
      ListHead(l, hdrs, head, blocks);
      OwnsNoTwins(sma.c, sma.heap, l, base, blocks, granted);
      ghost var i: nat := 0;
      var entry := head;
      HeadsAt(l, hdrs, head, blocks, 0);
      InHeads(l, hdrs, head, blocks);
      freed := [];
      NoElems();
      while hdrs[entry].next != 0
        invariant sma.Valid() && i < |blocks| && entry == blocks[i].at && freed == granted[..i]
        invariant forall j :: i <= j < |blocks| ==>
          blocks[j].at in hdrs0 && blocks[j].at in hdrs && hdrs[blocks[j].at] == hdrs0[blocks[j].at]
        invariant Heads(l, hdrs0, blocks, i)
        invariant S.Live(sma.heap.blocks) == live - Elems(freed)
        decreases |blocks| - i
      {
        var tmp := hdrs[entry].next;
        NextIs(l, hdrs0, head, blocks, i);
        GrantedAt(sma.c, live, l, base, blocks, granted, i);
        ghost var g := granted[i];
        R.FreeSound(sma.c, sma.heap, g);
        var _ := sma.Deallocate(entry);
        MoreElems(freed, g);
        hdrs := hdrs - {entry};
        freed := freed + [g];
        assert granted[..i + 1] == granted[..i] + [g];
        entry := tmp;
        i := i + 1;
      }
      NextIs(l, hdrs0, head, blocks, i);
      GrantedAt(sma.c, live, l, base, blocks, granted, i);
    }

    // apc_pool_destroy: every block that was granted goes back exactly once.
    method Destroy() returns (ghost freed: seq<S.Block>)
      requires Valid()
      modifies this`hdrs, sma`heap, sma`avail, sma.mem
      ensures sma.Valid()
      ensures freed == granted && forall i, j :: 0 <= i < j < |freed| ==> freed[i] != freed[j]
      ensures S.Live(sma.heap.blocks) == old(S.Live(sma.heap.blocks)) - Elems(freed)
    {
      hide S.Inv, S.Live, I.Repr, R.Free, R.IsLive, Owns, Chained, Sized, Real, Used;
      OwnsMany(sma.c, S.Live(sma.heap.blocks), l, base, blocks, granted);
      OwnsOnce(sma.c, S.Live(sma.heap.blocks), l, base, blocks, granted);
      freed := Cleanup();
      ghost var g := granted[|granted| - 1];
      R.FreeSound(sma.c, sma.heap, g);
      var _ := sma.Deallocate(base);
      MoreElems(freed, g);
      freed := freed + [g];
      assert granted == granted[..|granted| - 1] + [g];
    }

    static lemma InHeads(l: Layout, hdrs: map<Addr, Head>, head: Addr, bs: seq<Block>)
      requires l.word >= 1 && Chained(l, hdrs, head, bs)
      ensures forall j :: 0 <= j < |bs| ==> bs[j].at in hdrs
    {
      forall j | 0 <= j < |bs| ensures bs[j].at in hdrs { HeadsAt(l, hdrs, head, bs, j); }
    }

    static lemma OwnsOnce(c: S.Config, live: set<S.Block>, l: Layout, base: Addr, bs: seq<Block>, gs: seq<S.Block>)
      requires Owns(c, live, l, base, bs, gs)
      ensures forall i, j :: 0 <= i < j < |gs| ==> gs[i] != gs[j]
    {}

    // Block i still is what the allocator granted for it, and not yet given back.
    static lemma GrantedAt(c: S.Config, live: set<S.Block>, l: Layout, base: Addr, bs: seq<Block>, gs: seq<S.Block>,
                           i: nat)
      requires Owns(c, live, l, base, bs, gs) && i < |bs|
      ensures |gs| == |bs| && gs[i] in live && gs[i] !in Elems(gs[..i])
      ensures gs[i].off + c.blk == if i + 1 < |bs| then bs[i].at else base
    {
      assert Lies(c, l, base, bs, i, gs[i]);
    }

    static lemma NextIs(l: Layout, hdrs: map<Addr, Head>, head: Addr, bs: seq<Block>, i: nat)
      requires l.word >= 1 && Chained(l, hdrs, head, bs) && i < |bs|
      ensures bs[i].at in hdrs && hdrs[bs[i].at].next == AddrAt(bs, i + 1)
        && (hdrs[bs[i].at].next != 0 <==> i + 1 < |bs|)
      ensures i + 1 < |bs| ==> Heads(l, hdrs, bs, i + 1)
    {
      HeadsAt(l, hdrs, head, bs, i);
      if i + 1 < |bs| { HeadsAt(l, hdrs, head, bs, i + 1); }
    }
  }

  ghost function Elems(gs: seq<S.Block>): set<S.Block> { set g | g in gs }

  lemma NoElems()
    ensures Elems([]) == {}
  {}

  lemma MoreElems(gs: seq<S.Block>, g: S.Block)
    ensures Elems(gs + [g]) == Elems(gs) + {g}
  {}

  // What a user of a pool does: allocate, or write to byte o of the payload that
  // allocation number handle returned.
  datatype Use = Take(size: nat) | Write(handle: nat, o: nat, v: nat)

  // p is the payload of a record of size bytes.
  ghost predicate IsPayload(l: Layout, bs: seq<Block>, p: Addr, size: nat)
    requires l.word >= 1
  {
    exists n, k :: 0 <= n < |bs| && 0 <= k < |bs[n].recs| && p == PayloadAt(l, bs[n], k) && size == bs[n].recs[k]
  }

  // Records stay where they are when a block gets one more, or a block comes in front.
  lemma PayloadStays(l: Layout, bs: seq<Block>, n: nat, sz: nat, p: Addr, size: nat)
    requires l.word >= 1 && n < |bs| && IsPayload(l, bs, p, size)
    ensures IsPayload(l, bs[n := Extended(bs[n], sz)], p, size)
  {
    hide RecordAt;
    var m, k :| 0 <= m < |bs| && 0 <= k < |bs[m].recs| && p == PayloadAt(l, bs[m], k) && size == bs[m].recs[k];
    var bs' := bs[n := Extended(bs[n], sz)];
    if m == n { ExtendedRecords(l, bs[n], sz, k); }
    assert p == PayloadAt(l, bs'[m], k) && size == bs'[m].recs[k];
  }

  lemma PayloadPushed(l: Layout, bs: seq<Block>, b: Block, p: Addr, size: nat)
    requires l.word >= 1 && IsPayload(l, bs, p, size)
    ensures IsPayload(l, [b] + bs, p, size)
  {
    hide PayloadAt;
    var m, k :| 0 <= m < |bs| && 0 <= k < |bs[m].recs| && p == PayloadAt(l, bs[m], k) && size == bs[m].recs[k];
    assert ([b] + bs)[m + 1] == bs[m];
  }

  // The payloads that a user has been given, with their sizes.
  datatype Loan = Loan(p: Addr, size: nat)

  ghost predicate AllLent(l: Layout, bs: seq<Block>, loans: seq<Loan>)
    requires l.word >= 1
  {
    forall h :: 0 <= h < |loans| ==> IsPayload(l, bs, loans[h].p, loans[h].size)
  }

  // A pool that is created, allocates any number of times, whether that succeeds
  // or not, and whose users write wherever they like in what they were given,
  // passes its integrity check; and when it is destroyed the layout of the
  // segment and its avail are as they were. There is a pool exactly when its kind
  // is known and the segment has room.
  method Session(l: Layout, sma: Segment, fragment: nat, kind: nat, m: Memory, uses: seq<Use>)
    returns (made: bool, ok: bool)
    requires l.Valid() && sma.Valid()
    modifies sma`heap, sma`avail, sma.mem
    ensures sma.Valid() && sma.heap.blocks == old(sma.heap.blocks) && sma.avail == old(sma.avail)
    ensures made <==>
      kind in {1, 2, 3}
      && R.Alloc(sma.c, old(sma.heap), l.rpool + AlignUp(if kind == 1 then 512 else if kind == 2 then 4096 else 8192,
                                                         l.word), fragment).1 != R.NoRoom
    ensures ok
  {
    hide S.Inv, S.Live, I.Repr, R.Alloc, RealPool.Valid, AllIntact, AllLent, AlignUp;
    ghost var h, live := sma.heap, S.Live(sma.heap.blocks);
    var pool := RealPool.Create(l, sma, fragment, kind, m);
    made, ok := pool != null, true;
    if pool == null { return; }
    OneElem(pool.granted);
    NoLoans(l, pool.blocks);
    var i := 0;
    var loans: seq<Loan> := [];
    while i < |uses|
      invariant pool.Valid() && pool.l == l && pool.sma == sma && fresh(pool)
      invariant i <= |uses| && Elems(pool.granted) !! live && S.Live(sma.heap.blocks) == live + Elems(pool.granted)
      invariant l.redzones ==> AllIntact(l, pool.mem, pool.blocks)
      invariant AllLent(l, pool.blocks, loans)
    {
      match uses[i] {
      case Take(size) =>
        ghost var gs := pool.granted;
        loans := pool.Lend(size, loans);
        MoreFront(gs, pool.granted);
      case Write(handle, o, v) =>
        if handle < |loans| && o < loans[handle].size {
          pool.FillLoan(loans, handle, o, v);
        }
      }
      i := i + 1;
    }
    ok := pool.CheckIntegrity();
    ghost var freed := pool.Destroy();
    R.Canonical(sma.c, sma.heap, h);
  }

  lemma NoLoans(l: Layout, bs: seq<Block>)
    requires l.word >= 1
    ensures AllLent(l, bs, [])
  {}

  lemma OneElem(gs: seq<S.Block>)
    ensures |gs| == 1 ==> Elems(gs) == {gs[0]}
  {}

  lemma MoreFront(gs: seq<S.Block>, gs': seq<S.Block>)
    ensures |gs'| > 0 && gs' == [gs'[0]] + gs ==> Elems(gs') == Elems(gs) + {gs'[0]}
  {}
}