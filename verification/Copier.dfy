/**
 The deep copy of apc_cache.c: my_copy_zval, my_copy_zval_ptr and
 my_copy_hashtable_ex, run in place on a memory of values, tables and buckets.
 Allocation always succeeds and no serializer is set.
 */
module Copier {
  import opened Slots
  import opened CopySpec
  import opened CopyState
  import opened CopyTable

  // s grew out of s0 while the table of p was built up to element k in the
  // cells t and ord, which nobody else knows yet.
  ghost predicate Building(cx: Task, s0: State, s: State, p: Addr, t: Addr, ord: seq<Addr>, k: nat) {
    && p in cx.G && cx.G[p].Arr? && k <= |cx.G[p].elems|
    && Grows(cx, s0, s, {})
    && s0.next <= t < s.next && t in s.tab && Unowned(s, t)
    && s.tab[t].size == cx.G[p].size && s.tab[t].count == |cx.G[p].elems| && s.tab[t].head == At(ord, 0)
    && Buckets(s.bkt, cx.G[p].size, cx.G[p].elems, ord, s.copied, k)
    && Heads(s.tab[t].slots, cx.G[p].size, cx.G[p].elems, ord, k)
    && (forall i :: 0 <= i < k ==> s0.next <= ord[i] < s.next && Unowned(s, ord[i]))
    && (forall i :: 0 <= i < |cx.G[p].elems| ==> (Slot_(p, i) in s.edges <==> i < k))
    && OnlyFrom(s0, s, p)
  }

  // References made since s0 start at p or at a value copied since.
  ghost predicate OnlyFrom(s0: State, s: State, p: Addr) {
    forall f :: f in s.edges && f !in s0.edges ==>
      f.Slot_? && (f.parent == p || f.parent !in s0.copied) && f.parent in s.copied
  }

  function Cells(t: Addr, ord: seq<Addr>, newp: Addr): set<Addr> {
    {t, newp} + set i | 0 <= i < |ord| :: ord[i]
  }

  lemma UnownedGrows(cx: Task, s: State, s': State, a: Addr)
    requires Grows(cx, s, s', {}) && Unowned(s, a) && a < s.next
    ensures Unowned(s', a)
  {
    forall t, i | t in s'.threads && 0 <= i < |s'.threads[t]| ensures s'.threads[t][i] != a {
      assert t in s.threads ==> s'.threads[t] == s.threads[t];
    }
  }

  lemma UnownedNew(cx: Task, s: State, a: Addr)
    requires Bounded(cx, s) && a >= s.next
    ensures Unowned(s, a)
  {}

  // The bucket newp was put in front of its slot chain.
  ghost predicate Chained(s: State, s1: State, t: Addr, n: nat, newp: Addr, curr: Addr) {
    && t in s.tab && n < |s.tab[t].slots| && curr in s.bkt && newp == s.next && s1.next == newp + 1
    && var front := s.tab[t].slots[n];
       && (front == 0 || (front in s.bkt && front != newp))
       && s1.zv == s.zv && s1.copied == s.copied && s1.threads == s.threads && s1.edges == s.edges
       && s1.tab == s.tab[t := s.tab[t].(slots := s.tab[t].slots[n := newp])]
       && var b := s.bkt[newp := s.bkt[curr].(next := front, last := 0)];
          s1.bkt == if front != 0 then b[front := b[front].(last := newp)] else b
  }

  // The bucket newp got its data and its place in the list thread.
  ghost predicate Threaded(s2: State, s3: State, t: Addr, newp: Addr, d: Addr, prev: Addr, first: bool) {
    && t in s2.tab && newp in s2.bkt && (prev == 0 || (prev in s2.bkt && prev != newp))
    && s3.zv == s2.zv && s3.copied == s2.copied && s3.threads == s2.threads && s3.edges == s2.edges
       && s3.next == s2.next
    && s3.tab == (if first then s2.tab[t := s2.tab[t].(head := newp)] else s2.tab)
    && var b := s2.bkt[newp := s2.bkt[newp].(data := d, listLast := prev, listNext := 0)];
       s3.bkt == if prev != 0 then b[prev := b[prev].(listNext := newp)] else b
  }

  lemma ChainedCells(cx: Task, s0: State, s: State, s1: State, p: Addr, t: Addr, ord: seq<Addr>, k: nat, newp: Addr,
                     curr: Addr)
    requires Bounded(cx, s) && cx.base <= s0.next && Building(cx, s0, s, p, t, ord, k) && k < |cx.G[p].elems|
    requires Chained(s, s1, t, Slot(cx.G[p].elems[k].h, cx.G[p].size), newp, curr)
    ensures OnlyCells(cx, s, s1, Cells(t, ord, newp))
  {
    hide Slot, Expected, Grows, OnlyFrom;
    UnownedNew(cx, s, newp);
    var front := s.tab[t].slots[Slot(cx.G[p].elems[k].h, cx.G[p].size)];
    assert front == At(ord, Last(cx.G[p].elems, cx.G[p].size, Slot(cx.G[p].elems[k].h, cx.G[p].size), k) - 1);
    assert front != 0 ==> front in Cells(t, ord, newp);
    assert t in Cells(t, ord, newp) && newp in Cells(t, ord, newp);
    forall a | a in Cells(t, ord, newp) ensures cx.base <= a < s1.next && Unowned(s, a) {}
  }

  lemma ThreadedCells(cx: Task, s0: State, s2: State, s3: State, t: Addr, ord: seq<Addr>, newp: Addr, d: Addr,
                      prev: Addr, first: bool)
    requires Threaded(s2, s3, t, newp, d, prev, first) && (prev == 0 || prev in Cells(t, ord, newp))
    requires forall a :: a in Cells(t, ord, newp) ==> cx.base <= a < s2.next && Unowned(s2, a)
    ensures OnlyCells(cx, s2, s3, Cells(t, ord, newp))
  {
    hide Unowned;
    assert t in Cells(t, ord, newp) && newp in Cells(t, ord, newp);
  }

  // The buckets written in one turn are those of Insert.
  lemma StepBuckets(cx: Task, s: State, s1: State, s2: State, s3: State, t: Addr, n: nat, newp: Addr, curr: Addr,
                    elem: Elem, d: Addr, prev: Addr, first: bool, x: Addr)
    requires Chained(s, s1, t, n, newp, curr) && Grows(cx, s1, s2, {}) && Threaded(s2, s3, t, newp, d, prev, first)
    requires s.bkt[curr].h == elem.h && s.bkt[curr].key == elem.key
    requires prev == 0 || prev in s.bkt
    requires x == newp || (x in s.bkt && x != newp)
    ensures var b := Insert(s.bkt, elem, d, newp, s.tab[t].slots[n], prev);
      x in b && x in s3.bkt && s3.bkt[x] == b[x]
  {
    assert x in s1.bkt && s2.bkt[x] == s1.bkt[x];
    if prev != 0 { assert prev in s1.bkt && s2.bkt[prev] == s1.bkt[prev]; }
  }

  lemma BuildBuckets(cx: Task, s0: State, s: State, s1: State, s2: State, s3: State, p: Addr, t: Addr, ord: seq<Addr>,
                     k: nat, newp: Addr, curr: Addr, d: Addr, prev: Addr)
    requires Bounded(cx, s) && Building(cx, s0, s, p, t, ord, k) && k < |cx.G[p].elems|
    requires Chained(s, s1, t, Slot(cx.G[p].elems[k].h, cx.G[p].size), newp, curr)
    requires s.bkt[curr].h == cx.G[p].elems[k].h && s.bkt[curr].key == cx.G[p].elems[k].key
    requires Grows(cx, s1, s2, {})
    requires cx.G[p].elems[k].child in s2.copied && d == s2.copied[cx.G[p].elems[k].child]
    requires prev == At(ord, k - 1) && Threaded(s2, s3, t, newp, d, prev, k == 0)
    ensures Buckets(s3.bkt, cx.G[p].size, cx.G[p].elems, ord + [newp], s3.copied, k + 1)
  {
    hide Slot, Expected, Insert, Last, First, Unowned, OnlyFrom, Bounded, Building, Chained, Threaded, Grows, Buckets;
    BuildPlace(cx, s0, s, s1, s2, s3, p, t, ord, k, newp, curr, d, prev);
    var size, elems := cx.G[p].size, cx.G[p].elems;
    var n := Slot(elems[k].h, size);
    var front := s.tab[t].slots[n];
    StepBuckets(cx, s, s1, s2, s3, t, n, newp, curr, elems[k], d, prev, k == 0, newp);
    forall i | 0 <= i < k
      ensures ord[i] in s3.bkt
      ensures ord[i] in Insert(s.bkt, elems[k], d, newp, front, prev)
      ensures s3.bkt[ord[i]] == Insert(s.bkt, elems[k], d, newp, front, prev)[ord[i]]
    {
      StepBuckets(cx, s, s1, s2, s3, t, n, newp, curr, elems[k], d, prev, k == 0, ord[i]);
    }
    InsertBuckets(s.bkt, s3.bkt, size, elems, ord, s.copied, s3.copied, k, newp, front, prev);
  }

  // What a table under construction offers to a new bucket.
  lemma BuildingParts(cx: Task, s0: State, s: State, p: Addr, t: Addr, ord: seq<Addr>, k: nat)
    requires Building(cx, s0, s, p, t, ord, k) && k < |cx.G[p].elems|
    ensures p in cx.G && cx.G[p].Arr? && cx.G[p].size >= 1 && t in s.tab && |s.tab[t].slots| == cx.G[p].size
    ensures Buckets(s.bkt, cx.G[p].size, cx.G[p].elems, ord, s.copied, k) && |ord| == k
    ensures var size, elems := cx.G[p].size, cx.G[p].elems; var n := Slot(elems[k].h, size);
      s.tab[t].slots[n] == At(ord, Last(elems, size, n, k) - 1)
    ensures forall i :: 0 <= i < k ==> ord[i] != 0 && ord[i] in s.bkt && s0.next <= ord[i] < s.next
  {
    hide Slot, Expected, Last, First, Unowned, OnlyFrom, Grows;
  }

  // What linking a bucket leaves of the others.
  lemma ChainedParts(s: State, s1: State, t: Addr, n: nat, newp: Addr, curr: Addr, x: Addr)
    requires Chained(s, s1, t, n, newp, curr)
    ensures newp == s.next && s1.copied == s.copied && t in s1.tab && newp in s1.bkt && curr in s.bkt
    ensures x in s.bkt && x != newp ==> x in s1.bkt
    ensures x in s.bkt && x != newp && x != s.tab[t].slots[n] ==> s1.bkt[x] == s.bkt[x]
  {}

  lemma GrowsParts(cx: Task, s1: State, s2: State, t: Addr, x: Addr)
    requires Grows(cx, s1, s2, {})
    ensures t in s1.tab ==> t in s2.tab
    ensures x in s1.bkt ==> x in s2.bkt && s2.bkt[x] == s1.bkt[x]
    ensures forall q :: q in s1.copied ==> q in s2.copied && s2.copied[q] == s1.copied[q]
  {
    hide SameBelow, ValuesKept, ThreadsKept;
  }

  // What the new bucket finds around it.
  lemma BuildPlace(cx: Task, s0: State, s: State, s1: State, s2: State, s3: State, p: Addr, t: Addr, ord: seq<Addr>,
                   k: nat, newp: Addr, curr: Addr, d: Addr, prev: Addr)
    requires Bounded(cx, s) && Building(cx, s0, s, p, t, ord, k) && k < |cx.G[p].elems|
    requires Chained(s, s1, t, Slot(cx.G[p].elems[k].h, cx.G[p].size), newp, curr) && Grows(cx, s1, s2, {})
    requires cx.G[p].elems[k].child in s2.copied && d == s2.copied[cx.G[p].elems[k].child]
    requires prev == At(ord, k - 1) && Threaded(s2, s3, t, newp, d, prev, k == 0)
    ensures p in cx.G && cx.G[p].Arr?
    ensures cx.G[p].size >= 1 && Buckets(s.bkt, cx.G[p].size, cx.G[p].elems, ord, s.copied, k) && |ord| == k
    ensures var size, elems := cx.G[p].size, cx.G[p].elems; var n := Slot(elems[k].h, size);
      && t in s.tab && n < |s.tab[t].slots| && s.tab[t].slots[n] == At(ord, Last(elems, size, n, k) - 1)
      && (s.tab[t].slots[n] == 0 || s.tab[t].slots[n] in s.bkt)
    ensures newp !in ord && newp != 0 && curr in s.bkt && (prev == 0 || prev in s.bkt)
    ensures forall i :: 0 <= i < k ==> ord[i] in s.bkt && ord[i] != newp
    ensures cx.G[p].elems[k].child in s3.copied && d == s3.copied[cx.G[p].elems[k].child]
    ensures forall q :: q in s.copied ==> q in s3.copied && s3.copied[q] == s.copied[q]
  {
    hide Slot, Last, Bounded, Building, Chained, Grows, Threaded, Buckets;
    BuildingParts(cx, s0, s, p, t, ord, k);
    ChainedParts(s, s1, t, Slot(cx.G[p].elems[k].h, cx.G[p].size), newp, curr, 0);
    GrowsParts(cx, s1, s2, t, 0);
    ThreadedParts(s2, s3, t, newp, d, prev, k == 0);
    NextPositive(cx, s);
  }

  lemma ThreadedParts(s2: State, s3: State, t: Addr, newp: Addr, d: Addr, prev: Addr, first: bool)
    requires Threaded(s2, s3, t, newp, d, prev, first)
    ensures s3.copied == s2.copied
  {}

  lemma NextPositive(cx: Task, s: State)
    requires Bounded(cx, s)
    ensures s.next >= 1 && 0 !in s.bkt
  {}

  lemma BuildHeads(cx: Task, s0: State, s: State, s1: State, s2: State, s3: State, p: Addr, t: Addr, ord: seq<Addr>,
                   k: nat, newp: Addr, curr: Addr, d: Addr, prev: Addr)
    requires Building(cx, s0, s, p, t, ord, k) && k < |cx.G[p].elems|
    requires Chained(s, s1, t, Slot(cx.G[p].elems[k].h, cx.G[p].size), newp, curr)
    requires Grows(cx, s1, s2, {}) && Threaded(s2, s3, t, newp, d, prev, k == 0)
    ensures t in s3.tab && s3.tab[t].size == cx.G[p].size && s3.tab[t].count == |cx.G[p].elems|
    ensures s3.tab[t].head == At(ord + [newp], 0)
    ensures Heads(s3.tab[t].slots, cx.G[p].size, cx.G[p].elems, ord + [newp], k + 1)
  {
    hide Slot, Expected, Last, First, Unowned, OnlyFrom;
    InsertHeads(s.tab[t].slots, cx.G[p].size, cx.G[p].elems, ord, k, newp);
    assert s2.tab[t] == s1.tab[t];
  }

  // Writes to cells younger than s0 go unnoticed by s0.
  lemma GrowsCells(cx: Task, s0: State, s: State, s': State, cells: set<Addr>)
    requires Bounded(cx, s0) && Grows(cx, s0, s, {}) && OnlyCells(cx, s, s', cells)
    requires forall a :: a in cells ==> s0.next <= a
    ensures Grows(cx, s0, s', {})
  {
    hide Unowned;
  }

  lemma CellsYoung(s0: State, s: State, t: Addr, ord: seq<Addr>, newp: Addr)
    requires s0.next <= t && s0.next <= newp && forall i :: 0 <= i < |ord| ==> s0.next <= ord[i]
    ensures forall a :: a in Cells(t, ord, newp) ==> s0.next <= a
  {}

  // The cells stay unknown while other values are copied.
  lemma CellsUnowned(cx: Task, s: State, s1: State, s2: State, cells: set<Addr>)
    requires OnlyCells(cx, s, s1, cells) && Grows(cx, s1, s2, {})
    ensures forall a :: a in cells ==> cx.base <= a < s2.next && Unowned(s2, a)
  {
    forall a | a in cells ensures cx.base <= a < s2.next && Unowned(s2, a) {
      assert Unowned(s1, a);
      UnownedGrows(cx, s1, s2, a);
    }
  }

  lemma PrevCell(t: Addr, ord: seq<Addr>, newp: Addr, k: nat)
    requires k <= |ord|
    ensures At(ord, k - 1) == 0 || At(ord, k - 1) in Cells(t, ord, newp)
  {}

  lemma BuildGrows(cx: Task, s0: State, s: State, s1: State, s2: State, s3: State, p: Addr, t: Addr, ord: seq<Addr>,
                   k: nat, newp: Addr, curr: Addr, d: Addr, prev: Addr)
    requires Bounded(cx, s0) && Bounded(cx, s) && Building(cx, s0, s, p, t, ord, k) && k < |cx.G[p].elems|
    requires Chained(s, s1, t, Slot(cx.G[p].elems[k].h, cx.G[p].size), newp, curr)
    requires Grows(cx, s1, s2, {}) && Threaded(s2, s3, t, newp, d, prev, k == 0) && prev == At(ord, k - 1)
    ensures Grows(cx, s0, s3, {})
    ensures forall a :: a in Cells(t, ord, newp) ==> s0.next <= a < s3.next && Unowned(s3, a)
  {
    hide Slot, Expected, Last, First, Unowned, OnlyFrom, Grows, Buckets, Heads, OnlyCells, Threaded, Chained, Cells;
    var cells := Cells(t, ord, newp);
    ChainedCells(cx, s0, s, s1, p, t, ord, k, newp, curr);
    BuildYoung(cx, s0, s, s1, p, t, ord, k, newp, curr);
    GrowsCells(cx, s0, s, s1, cells);
    GrowsTrans(cx, s0, s1, s2, {});
    CellsUnowned(cx, s, s1, s2, cells);
    BuildLength(cx, s0, s, p, t, ord, k);
    PrevCell(t, ord, newp, k);
    ThreadedCells(cx, s0, s2, s3, t, ord, newp, d, prev, k == 0);
    GrowsCells(cx, s0, s2, s3, cells);
    CellsStill(cx, s2, s3, cells);
  }

  lemma BuildLength(cx: Task, s0: State, s: State, p: Addr, t: Addr, ord: seq<Addr>, k: nat)
    requires Building(cx, s0, s, p, t, ord, k)
    ensures |ord| == k
  {}

  lemma CellsStill(cx: Task, s2: State, s3: State, cells: set<Addr>)
    requires OnlyCells(cx, s2, s3, cells)
    ensures forall a :: a in cells ==> a < s3.next && Unowned(s3, a)
  {}

  lemma BuildYoung(cx: Task, s0: State, s: State, s1: State, p: Addr, t: Addr, ord: seq<Addr>, k: nat, newp: Addr,
                   curr: Addr)
    requires Building(cx, s0, s, p, t, ord, k) && k < |cx.G[p].elems|
    requires Chained(s, s1, t, Slot(cx.G[p].elems[k].h, cx.G[p].size), newp, curr)
    ensures forall a :: a in Cells(t, ord, newp) ==> s0.next <= a
  {
    hide Slot, Expected, Unowned, OnlyFrom;
    CellsYoung(s0, s, t, ord, newp);
  }

  lemma BuildEdges(cx: Task, s0: State, s: State, s1: State, s2: State, s3: State, p: Addr, t: Addr, ord: seq<Addr>,
                   k: nat, newp: Addr, curr: Addr, d: Addr, prev: Addr)
    requires Building(cx, s0, s, p, t, ord, k) && k < |cx.G[p].elems| && p in s.copied
    requires Chained(s, s1, t, Slot(cx.G[p].elems[k].h, cx.G[p].size), newp, curr)
    requires Grows(cx, s1, s2, {}) && NewEdges(s1, s2, Slot_(p, k)) && Threaded(s2, s3, t, newp, d, prev, k == 0)
    ensures forall i :: 0 <= i < |cx.G[p].elems| ==> (Slot_(p, i) in s3.edges <==> i < k + 1)
    ensures OnlyFrom(s0, s3, p)
  {
    hide Slot, Expected, Unowned, Buckets, Heads, SameBelow;
    assert forall q :: q in s0.copied ==> q in s.copied;
  }

  // One turn of the loop.
  lemma BuildStep(cx: Task, s0: State, s: State, s1: State, s2: State, s3: State, p: Addr, t: Addr, ord: seq<Addr>,
                  k: nat, newp: Addr, curr: Addr, d: Addr, prev: Addr)
    requires Bounded(cx, s0) && Bounded(cx, s) && Building(cx, s0, s, p, t, ord, k) && k < |cx.G[p].elems|
      && p in s.copied
    requires Chained(s, s1, t, Slot(cx.G[p].elems[k].h, cx.G[p].size), newp, curr)
    requires s.bkt[curr].h == cx.G[p].elems[k].h && s.bkt[curr].key == cx.G[p].elems[k].key
    requires Grows(cx, s1, s2, {}) && NewEdges(s1, s2, Slot_(p, k))
    requires cx.G[p].elems[k].child in s2.copied && d == s2.copied[cx.G[p].elems[k].child]
    requires prev == At(ord, k - 1) && Threaded(s2, s3, t, newp, d, prev, k == 0)
    ensures Building(cx, s0, s3, p, t, ord + [newp], k + 1)
  {
    hide Slot, Expected, Insert, Last, First, Buckets, Heads, Chained, Threaded, Grows, Unowned, OnlyFrom, Bounded,
         NewEdges;
    BuildBuckets(cx, s0, s, s1, s2, s3, p, t, ord, k, newp, curr, d, prev);
    BuildHeads(cx, s0, s, s1, s2, s3, p, t, ord, k, newp, curr, d, prev);
    BuildGrows(cx, s0, s, s1, s2, s3, p, t, ord, k, newp, curr, d, prev);
    BuildEdges(cx, s0, s, s1, s2, s3, p, t, ord, k, newp, curr, d, prev);
    BuildLength(cx, s0, s, p, t, ord, k);
    assert t in Cells(t, ord, newp) && newp in Cells(t, ord, newp);
    assert forall i :: 0 <= i < k ==> ord[i] in Cells(t, ord, newp);
  }

  // ---------- glue ----------

  lemma FewerLeft(all: set<Addr>, a: set<Addr>, b: set<Addr>)
    requires a <= b
    ensures |all - b| <= |all - a|
    ensures forall x :: x in all && x in b && x !in a ==> |all - b| < |all - a|
  {
    assert all - a == (all - b) + (all * (b - a));
    assert forall x :: x in all && x in b && x !in a ==> x in all * (b - a);
  }

  lemma SourceThere(cx: Task, s: State, stack: set<Addr>, extra: set<Addr>, src: Addr)
    requires Good(cx, s, stack, extra) && src in cx.G
    ensures src in s.zv && src < cx.base && SourceNode(s.zv, s.tab, s.bkt, cx.order, src, cx.G[src])
    ensures src in s.copied ==> s.copied[src] in s.zv && s.copied[src] !in extra && cx.base <= s.copied[src]
    ensures forall a :: a in extra ==> a in s.zv && cx.base <= a
    ensures Bounded(cx, s) && stack <= s.copied.Keys
  {
    hide Bounded, Edges, Counts, Completes, OwnTables, NoGarbage;
    SourceValue(cx, s, src);
  }

  lemma AllocPending(cx: Task, s: State, z: Zval, e: Edge, src: Addr)
    requires Pending(cx, s, e, src)
    ensures Pending(cx, Alloc(s, z), e, src)
  {}

  // The unused value is given back.
  lemma DropGood(cx: Task, s: State, stack: set<Addr>, dst: Addr)
    requires Good(cx, s, stack, {dst})
    ensures Good(cx, s.(zv := s.zv - {dst}), stack, {})
  {
    hide Bounded, SourceIn, SourcePlaced, SameBelow, Memo, Edges, Counts, Complete, Completes, OwnTables, NoGarbage;
    var s' := s.(zv := s.zv - {dst});
    Placed(cx, s);
    DropParts(cx, s, stack, dst);
    SourceFrame(cx, s, s');
    DropCounts(cx, s, dst);
    OwnFrame(cx, s, s', stack);
    DropCompletes(cx, s, stack, dst);
  }

  lemma DropParts(cx: Task, s: State, stack: set<Addr>, dst: Addr)
    requires Bounded(cx, s) && Memo(cx, s, {dst}) && Edges(cx, s) && NoGarbage(cx, s, {dst})
    ensures var s' := s.(zv := s.zv - {dst});
      && Bounded(cx, s') && Memo(cx, s', {}) && Edges(cx, s') && NoGarbage(cx, s', {}) && SameBelow(cx, s, s')
    ensures forall p :: p in s.copied ==> s.copied[p] in s.zv && s.copied[p] != dst
  {}

  lemma DropCounts(cx: Task, s: State, dst: Addr)
    requires Counts(cx, s) && SourcePlaced(cx, s) && Memo(cx, s, {dst})
    ensures Counts(cx, s.(zv := s.zv - {dst}))
  {
    hide Into;
  }

  lemma DropCompletes(cx: Task, s: State, stack: set<Addr>, dst: Addr)
    requires Completes(cx, s, stack) && Memo(cx, s, {dst})
    ensures Completes(cx, s.(zv := s.zv - {dst}), stack)
  {
    hide Complete;
    var s' := s.(zv := s.zv - {dst});
    forall p | p in s'.copied && p !in stack ensures Complete(cx, s', p) {
      CompletePlace(cx, s, p);
      CompleteFrame(cx, s, s', p);
    }
  }

  lemma KeepGarbage(cx: Task, s: State, stack: set<Addr>, dst: Addr)
    requires Good(cx, s, stack, {dst}) && !cx.usegc
    ensures Good(cx, s, stack, {})
  {
    hide Bounded, SourceIn, Edges, Counts, Completes, OwnTables;
    MemoWeaken(cx, s, {dst}, {});
  }

  // A value allocated and possibly given back again is nobody's business.
  lemma GrowsFresh(cx: Task, s0: State, s1: State, s2: State, s3: State, dst: Addr)
    requires Bounded(cx, s0) && dst == s0.next && Grows(cx, s0, s1, {}) && Grows(cx, s1, s2, {dst})
    requires s3 == s2 || s3 == s2.(zv := s2.zv - {dst})
    ensures Grows(cx, s0, s3, {})
  {
    hide Bounded, SameBelow, ValuesKept, CellsKept, MemoKept, ThreadsKept;
    GrowsMore(cx, s0, s1, {dst});
    GrowsTrans(cx, s0, s1, s2, {dst});
    FreshValues(cx, s0, s2, s3, dst);
    KeptSame(s0, s2, s3);
  }

  lemma FreshValues(cx: Task, s0: State, s2: State, s3: State, dst: Addr)
    requires Bounded(cx, s0) && dst == s0.next && ValuesKept(s0, s2, {dst}) && SameBelow(cx, s0, s2)
    requires s3 == s2 || s3 == s2.(zv := s2.zv - {dst})
    ensures ValuesKept(s0, s3, {}) && SameBelow(cx, s0, s3)
  {}

  lemma KeptSame(s0: State, s2: State, s3: State)
    requires s3.tab == s2.tab && s3.bkt == s2.bkt && s3.copied == s2.copied && s3.threads == s2.threads
    requires CellsKept(s0, s2) && MemoKept(s0, s2) && ThreadsKept(s0, s2)
    ensures CellsKept(s0, s3) && MemoKept(s0, s3) && ThreadsKept(s0, s3)
  {}

  lemma PtrDone(cx: Task, s0: State, s1: State, s2: State, s3: State, stack: set<Addr>, dst: Addr, r: Addr, e: Edge)
    requires Good(cx, s0, stack, {}) && Good(cx, s2, stack, if r == dst then {} else {dst})
    requires dst == s0.next && s1.copied == s0.copied && s1.edges == s0.edges
    requires Grows(cx, s0, s1, {}) && Grows(cx, s1, s2, {dst}) && NewEdges(s1, s2, e)
    requires s3 == if r != dst && cx.usegc then s2.(zv := s2.zv - {dst}) else s2
    ensures Good(cx, s3, stack, {})
    ensures Grows(cx, s0, s3, {}) && NewEdges(s0, s3, e)
  {
    hide SourceIn, Memo, Edges, Counts, Completes, OwnTables, NoGarbage, Grows;
    if r != dst {
      if cx.usegc { DropGood(cx, s2, stack, dst); } else { KeepGarbage(cx, s2, stack, dst); }
    }
    GrowsFresh(cx, s0, s1, s2, s3, dst);
  }

  lemma AttachGrows(cx: Task, s0: State, s: State, src: Addr, t: Addr, ord: seq<Addr>, dst: Addr)
    requires Grows(cx, s0, s, {dst}) && src in s.copied && s.copied[src] == dst && dst in s.zv && cx.base <= dst
    requires t !in s.threads && s0.next <= t && forall i :: 0 <= i < |ord| ==> s0.next <= ord[i]
    ensures Grows(cx, s0, Attach(s, src, t, ord), {dst})
  {}

  lemma GrowsMore(cx: Task, s: State, s': State, dead: set<Addr>)
    requires Grows(cx, s, s', {})
    ensures Grows(cx, s, s', dead)
  {}

  // A new table is still new after the values around it have moved on.
  lemma ArrayDone(cx: Task, s0: State, s1: State, s2: State, stack: set<Addr>, dst: Addr, src: Addr, e: Edge, t: Addr,
                  ord: seq<Addr>)
    requires Good(cx, s2, stack + {src}, {}) && src !in s0.copied && src !in stack
    requires Grows(cx, s0, s1, {dst}) && NewEdges(s0, s1, e) && src in s1.copied && s1.copied[src] == dst
      && dst in s1.zv && cx.base <= dst
    requires Grows(cx, s1, s2, {}) && OnlyFrom(s1, s2, src) && NewTable(cx, s2, src, t, ord)
    requires s1.next <= t && forall i :: 0 <= i < |ord| ==> s1.next <= ord[i]
    ensures src in s2.copied && s2.copied[src] == dst && dst in s2.zv
    ensures Good(cx, Attach(s2, src, t, ord), stack, {})
    ensures Grows(cx, s0, Attach(s2, src, t, ord), {dst})
    ensures NewEdges(s0, Attach(s2, src, t, ord), e)
  {
    hide Good, CopiedTable, SameBelow;
    ArrayPlace(cx, s1, s2, src, dst);
    AttachGood(cx, s2, stack, {}, src, t, ord);
    GrowsMore(cx, s1, s2, {dst});
    GrowsTrans(cx, s0, s1, s2, {dst});
    AttachGrows(cx, s0, s2, src, t, ord, dst);
  }

  lemma ArrayPlace(cx: Task, s1: State, s2: State, src: Addr, dst: Addr)
    requires Grows(cx, s1, s2, {}) && src in s1.copied && s1.copied[src] == dst && dst in s1.zv
    ensures src in s2.copied && s2.copied[src] == dst && dst in s2.zv
  {}

  lemma GrowsKeys(cx: Task, s: State, s': State)
    requires Grows(cx, s, s', {})
    ensures s.copied.Keys <= s'.copied.Keys
  {}

  // A value met for the first time has no references copied out of it.
  lemma NoEdgesYet(cx: Task, s: State, stack: set<Addr>, extra: set<Addr>, src: Addr, e: Edge)
    requires Good(cx, s, stack, extra) && src !in s.copied && Pending(cx, s, e, src)
    ensures forall i :: Slot_(src, i) !in s.edges + {e}
  {
    hide Bounded, SourceIn, Memo, Counts, Completes, OwnTables, NoGarbage;
  }

  lemma ChainedAt(s: State, s1: State, t: Addr, n: nat, newp: Addr, curr: Addr)
    requires Chained(s, s1, t, n, newp, curr) && (curr != newp) && curr !in s.tab[t].slots
    ensures curr in s1.bkt && s1.bkt[curr] == s.bkt[curr]
  {}

  lemma ThreadedAt(s2: State, s3: State, t: Addr, newp: Addr, d: Addr, prev: Addr, first: bool, curr: Addr)
    requires Threaded(s2, s3, t, newp, d, prev, first) && curr in s2.bkt && curr != newp && curr != prev
    ensures curr in s3.bkt && s3.bkt[curr] == s2.bkt[curr]
  {}

  lemma LoopOver(cx: Task, s0: State, s: State, stack: set<Addr>, p: Addr, src: Addr, t: Addr, ord: seq<Addr>, k: nat)
    requires Good(cx, s, stack, {}) && Building(cx, s0, s, p, t, ord, k) && p in cx.G && cx.G[p].Arr? && p < cx.base
      && cx.base <= s0.next
    requires p in s0.zv && s0.zv[p].value == Array(src) && src in cx.order && At(cx.order[src], k) == 0
    ensures k == |cx.G[p].elems|
  {
    hide Good, Slot, Expected, Buckets, Heads, OnlyFrom, Unowned;
    SourceBucket(cx, s, stack, p, src, k);
  }

  // The table as the loop finds it.
  lemma BuildStart(cx: Task, s0: State, s: State, p: Addr, t: Addr, t0: Addr)
    requires p in cx.G && cx.G[p].Arr? && cx.G[p].size >= 1 && t == s0.next && t0 in s0.tab && cx.base <= s0.next
      && Bounded(cx, s0)
    requires s0.tab[t0].size == cx.G[p].size && s0.tab[t0].count == |cx.G[p].elems|
    requires s == s0.(tab := s0.tab[t := s0.tab[t0].(slots := seq(cx.G[p].size, _ => 0), cursor := 0, head := 0)],
      next := t + 1)
    requires forall i :: 0 <= i < |cx.G[p].elems| ==> Slot_(p, i) !in s0.edges
    ensures Building(cx, s0, s, p, t, [], 0)
    ensures OnlyCells(cx, s0, s, {t})
  {
    hide Slot, Grows, Unowned, First, Last, Expected, Bounded;
    StartGrows(cx, s0, s, t);
    StartUnowned(cx, s0, s, t);
    StartHeads(s.tab[t].slots, cx.G[p].size, cx.G[p].elems);
    StartCells(cx, s0, s, t);
  }

  lemma StartCells(cx: Task, s0: State, s: State, t: Addr)
    requires Bounded(cx, s0) && cx.base <= s0.next && t == s0.next && t in s.tab
    requires s == s0.(tab := s0.tab[t := s.tab[t]], next := t + 1)
    ensures OnlyCells(cx, s0, s, {t})
  {}

  lemma StartGrows(cx: Task, s0: State, s: State, t: Addr)
    requires Bounded(cx, s0) && t == s0.next && t in s.tab && s == s0.(tab := s0.tab[t := s.tab[t]], next := t + 1)
    ensures Grows(cx, s0, s, {})
  {}

  lemma StartUnowned(cx: Task, s0: State, s: State, t: Addr)
    requires Bounded(cx, s0) && t == s0.next && s.threads == s0.threads
    ensures Unowned(s, t)
  {}

  lemma StartHeads(slots: seq<Addr>, size: nat, elems: seq<Elem>)
    requires size >= 1 && |slots| == size && forall n :: 0 <= n < size ==> slots[n] == 0
    ensures Heads(slots, size, elems, [], 0)
  {
    hide Slot;
  }

  // What the loop reads of the source table at position k.
  lemma SourceBucket(cx: Task, s: State, stack: set<Addr>, p: Addr, src: Addr, k: nat)
    requires Good(cx, s, stack, {}) && p in cx.G && cx.G[p].Arr? && p in s.zv && s.zv[p].value == Array(src)
    ensures src in cx.order && src < cx.base && src in s.tab && s.tab[src].head == At(cx.order[src], 0)
    ensures s.tab[src].size == cx.G[p].size >= 1 && s.tab[src].count == |cx.G[p].elems|
    ensures At(cx.order[src], k) == 0 <==> k >= |cx.G[p].elems|
    ensures k < |cx.G[p].elems| ==>
      var curr, elem := At(cx.order[src], k), cx.G[p].elems[k];
      && curr in s.bkt && curr < cx.base && s.bkt[curr].h == elem.h && s.bkt[curr].key == elem.key
         && s.bkt[curr].data == elem.child
      && s.bkt[curr].listNext == At(cx.order[src], k + 1) && elem.child in cx.G
  {
    hide Bounded, Memo, Edges, Counts, Completes, OwnTables, NoGarbage;
    SourceValue(cx, s, p);
  }

  // What the loop reads of the table it builds.
  lemma BuildReads(cx: Task, s0: State, s: State, p: Addr, t: Addr, ord: seq<Addr>, k: nat)
    requires Bounded(cx, s) && Building(cx, s0, s, p, t, ord, k) && p in s0.zv && p < cx.base && cx.base <= s0.next
    ensures t in s.tab && s.tab[t].size == cx.G[p].size >= 1 && |s.tab[t].slots| == cx.G[p].size
    ensures forall n :: 0 <= n < |s.tab[t].slots| ==>
      s.tab[t].slots[n] == 0 || (s.tab[t].slots[n] in s.bkt && s0.next <= s.tab[t].slots[n] < s.next)
    ensures At(ord, k - 1) == 0 || (At(ord, k - 1) in s.bkt && s0.next <= At(ord, k - 1) < s.next)
    ensures p in s.zv && s.zv[p] == s0.zv[p]
    ensures s.next !in s.bkt && s.next > 0
    ensures forall q :: q in s0.copied ==> q in s.copied
  {
    hide Slot, Expected, Unowned, OnlyFrom;
  }

  lemma ChainedGood(cx: Task, s0: State, s: State, s1: State, stack: set<Addr>, p: Addr, t: Addr, ord: seq<Addr>,
                    k: nat, newp: Addr, curr: Addr)
    requires Good(cx, s, stack, {}) && cx.base <= s0.next && Building(cx, s0, s, p, t, ord, k) && k < |cx.G[p].elems|
      && p in s.copied
    requires Chained(s, s1, t, Slot(cx.G[p].elems[k].h, cx.G[p].size), newp, curr)
    ensures Good(cx, s1, stack, {})
    ensures Pending(cx, s1, Slot_(p, k), cx.G[p].elems[k].child)
    ensures s1.copied == s.copied
  {
    hide SourceIn, Memo, Edges, Counts, Completes, OwnTables, NoGarbage, Bounded, OnlyCells, Grows, Unowned, Buckets,
         Heads, OnlyFrom, Slot;
    ChainedCells(cx, s0, s, s1, p, t, ord, k, newp, curr);
    CellsGood(cx, s, s1, stack, {}, Cells(t, ord, newp));
  }

  lemma ThreadReads(cx: Task, s0: State, s: State, s1: State, s2: State, p: Addr, t: Addr, ord: seq<Addr>, k: nat,
                    newp: Addr, curr: Addr)
    requires Building(cx, s0, s, p, t, ord, k) && k < |cx.G[p].elems| && cx.base <= s0.next && Bounded(cx, s)
    requires Chained(s, s1, t, Slot(cx.G[p].elems[k].h, cx.G[p].size), newp, curr) && curr < cx.base
    requires Grows(cx, s1, s2, {})
    ensures t in s2.tab && newp in s2.bkt && newp >= cx.base && newp > 0 && curr in s2.bkt
      && s2.bkt[curr] == s.bkt[curr]
    ensures At(ord, k - 1) == 0 || (At(ord, k - 1) in s2.bkt && At(ord, k - 1) != newp && At(ord, k - 1) >= cx.base)
  {
    hide Slot, Last, Bounded, Building, Chained, Grows, Buckets;
    BuildingParts(cx, s0, s, p, t, ord, k);
    BuildingOld(cx, s0, s, p, t, ord, k);
    var n := Slot(cx.G[p].elems[k].h, cx.G[p].size);
    assert s.tab[t].slots[n] == 0 || s.tab[t].slots[n] >= s0.next;
    ChainedParts(s, s1, t, n, newp, curr, curr);
    ChainedParts(s, s1, t, n, newp, curr, At(ord, k - 1));
    GrowsParts(cx, s1, s2, t, curr);
    GrowsParts(cx, s1, s2, t, newp);
    GrowsParts(cx, s1, s2, t, At(ord, k - 1));
    NextPositive(cx, s);
  }

  lemma LeafKind(cx: Task, s: State, stack: set<Addr>, src: Addr)
    requires Good(cx, s, stack + {src}, {}) && src in cx.G && src in s.zv && !s.zv[src].value.Array?
    ensures cx.G[src].Leaf?
  {
    hide Bounded, Edges, Counts, OwnTables, NoGarbage, Reached, Memo, Completes;
    SourceValue(cx, s, src);
  }

  lemma BuildingOld(cx: Task, s0: State, s: State, p: Addr, t: Addr, ord: seq<Addr>, k: nat)
    requires Building(cx, s0, s, p, t, ord, k)
    ensures s0.next <= s.next
  {}

  lemma ThreadedGood(cx: Task, s0: State, s: State, s1: State, s2: State, s3: State, stack: set<Addr>, p: Addr,
                     t: Addr, ord: seq<Addr>, k: nat,
                     newp: Addr, curr: Addr, d: Addr, prev: Addr)
    requires Good(cx, s2, stack, {}) && Bounded(cx, s) && cx.base <= s0.next && Building(cx, s0, s, p, t, ord, k)
      && k < |cx.G[p].elems| && p in s.copied
    requires Chained(s, s1, t, Slot(cx.G[p].elems[k].h, cx.G[p].size), newp, curr) && Grows(cx, s1, s2, {})
    requires Threaded(s2, s3, t, newp, d, prev, k == 0) && prev == At(ord, k - 1)
    ensures Good(cx, s3, stack, {})
    ensures p in s3.copied && s3.copied == s2.copied
  {
    hide SourceIn, Memo, Edges, Counts, Completes, OwnTables, NoGarbage, Bounded, OnlyCells, Unowned, Buckets, Heads,
         OnlyFrom, Slot, Building, SameBelow, Cells;
    ChainedCells(cx, s0, s, s1, p, t, ord, k, newp, curr);
    CellsUnowned(cx, s, s1, s2, Cells(t, ord, newp));
    BuildLength(cx, s0, s, p, t, ord, k);
    PrevCell(t, ord, newp, k);
    ThreadedCells(cx, s0, s2, s3, t, ord, newp, d, prev, k == 0);
    CellsGood(cx, s2, s3, stack, {}, Cells(t, ord, newp));
  }

  // The loop is over: tail and cursor are set.
  lemma BuildDone(cx: Task, s0: State, s: State, s': State, stack: set<Addr>, p: Addr, t: Addr, ord: seq<Addr>)
    requires Good(cx, s, stack, {}) && Bounded(cx, s0) && p in cx.G && cx.G[p].Arr?
      && Building(cx, s0, s, p, t, ord, |cx.G[p].elems|)
    requires s' == s.(tab := s.tab[t := s.tab[t].(tail := At(ord, |ord| - 1), cursor := s.tab[t].head)])
    ensures Good(cx, s', stack, {}) && Grows(cx, s0, s', {}) && OnlyFrom(s0, s', p)
    ensures NewTable(cx, s', p, t, ord)
    ensures s0.next <= t && forall i :: 0 <= i < |ord| ==> s0.next <= ord[i]
  {
    hide SourceIn, Memo, Edges, Counts, Completes, OwnTables, NoGarbage, Grows, Expected, Slot, OnlyFrom, Bounded;
    BuildBase(cx, s0);
    TailCells(cx, s, s', t, s'.tab[t]);
    CellsGood(cx, s, s', stack, {}, {t});
    GrowsCells(cx, s0, s, s', {t});
    OnlyFromSame(s0, s, s', p);
  }

  lemma BuildBase(cx: Task, s0: State)
    requires Bounded(cx, s0)
    ensures cx.base <= s0.next
  {}

  lemma OnlyFromSame(s0: State, s: State, s': State, p: Addr)
    requires OnlyFrom(s0, s, p) && s'.edges == s.edges && s'.copied == s.copied
    ensures OnlyFrom(s0, s', p)
  {}

  lemma TailCells(cx: Task, s: State, s': State, t: Addr, v: Table)
    requires t in s.tab && cx.base <= t < s.next && Unowned(s, t)
    requires s'.zv == s.zv && s'.bkt == s.bkt && s'.copied == s.copied && s'.threads == s.threads
      && s'.edges == s.edges && s'.next == s.next
    requires s'.tab == s.tab[t := v]
    ensures OnlyCells(cx, s, s', {t})
  {}

  // s is s0 with a complete copy, r, of the graph of cx.
  ghost predicate IsDeepCopy(cx: Task, s0: State, s: State, r: Addr) {
    && Good(cx, s, {}, {}) && Grows(cx, s0, s, {})
    && cx.root in s.copied && s.copied[cx.root] == r && Root in s.edges
  }

  lemma RootPending(cx: Task, s: State)
    requires s.edges == {} && cx.root in cx.G
    ensures Pending(cx, Alloc(s, Zval(Plain(0), 0, false)), Root, cx.root)
  {}

  lemma LeafRoot(cx: Task, s: State, src: Addr)
    requires Good(cx, s, {} + {src}, {}) && src in s.copied && s.copied[src] in s.zv && src in cx.G && src in s.zv
    requires s.zv[s.copied[src]].value == s.zv[src].value && !s.zv[src].value.Array?
    ensures Good(cx, s, {}, {})
  {
    hide Good;
    SourceThere(cx, s, {} + {src}, {}, src);
    LeafDone(cx, s, {}, {}, src);
  }

  lemma StoreDone(cx: Task, s0: State, s1: State, s: State, dst: Addr, r: Addr)
    requires Bounded(cx, s0) && dst == s0.next && Grows(cx, s0, s1, {}) && Grows(cx, s1, s, {dst})
      && NewEdges(s1, s, Root)
    requires Good(cx, s, {}, {}) && cx.root in s.copied && s.copied[cx.root] == r
    ensures IsDeepCopy(cx, s0, s, r)
  {
    hide Good, Bounded, Grows;
    GrowsFresh(cx, s0, s1, s, s, dst);
  }

  class Context {
    var zv: map<Addr, Zval>
    var tab: map<Addr, Table>
    var bkt: map<Addr, Bucket>
    var next: Addr                    // the bump pointer of the allocator
    var copied: map<Addr, Addr>       // the memo table of the context
    const usegc: bool                 // APC_COPY_OUT: values come from the PHP heap
    ghost const cx: Task
    ghost var threads: map<Addr, seq<Addr>>
    ghost var edges: set<Edge>

    ghost function Snap(): State
      reads this
    {
      State(zv, tab, bkt, next, copied, threads, edges)
    }

    // A context for one copy of the graph cx.G, which lies below next.
    constructor (zv: map<Addr, Zval>, tab: map<Addr, Table>, bkt: map<Addr, Bucket>, next: Addr, usegc: bool,
                 ghost cx: Task)
      requires cx.usegc == usegc && cx.base == next && cx.root in cx.G
      requires var s := State(zv, tab, bkt, next, map[], map[], {}); Bounded(cx, s) && SourceIn(cx, s)
      ensures this.cx == cx && this.usegc == usegc && Ready()
      ensures Snap() == State(zv, tab, bkt, next, map[], map[], {})
    {
      this.zv, this.tab, this.bkt, this.next := zv, tab, bkt, next;
      this.usegc, this.cx := usegc, cx;
      copied, threads, edges := map[], map[], {};
      new;
      hide SourceIn;
    }

    // Nothing has been copied yet.
    ghost predicate Ready()
      reads this
    {
      Good(cx, Snap(), {}, {}) && usegc == cx.usegc && copied == map[] && edges == {} && cx.root in cx.G
    }

    // apc_cache_store_zval and apc_cache_fetch_zval: the memo table is in use
    // for arrays only. fin is the final state, memo table included.
    method StoreZval(src: Addr) returns (r: Addr, ghost fin: State)
      requires Ready() && src == cx.root
      modifies this
      ensures IsDeepCopy(cx, old(Snap()), fin, r)
      ensures fin == State(zv, tab, bkt, next, fin.copied, threads, edges)
    {
      hide Good, Grows, Pending, SourceNode;
      ghost var s0 := Snap();
      SourceThere(cx, s0, {}, {}, src);
      var dst := next;
      zv := zv[dst := Zval(Plain(0), 0, false)];
      next := next + 1;
      RootPending(cx, s0);
      AllocGood(cx, s0, {}, {}, Zval(Plain(0), 0, false));
      ghost var s1 := Snap();
      assert s1 == Alloc(s0, Zval(Plain(0), 0, false)) && {} + {dst} == {dst};
      SourceThere(cx, s1, {}, {dst}, src);
      if zv[src].value.Array? {
        copied := map[];
        r := CopyZval(dst, src, Root, {});
        fin := Snap();
        StoreDone(cx, s0, s1, fin, dst, r);
        copied := map[];
      } else {
        Enter(dst, src, Root, {});
        LeafRoot(cx, Snap(), src);
        r := dst;
        fin := Snap();
        StoreDone(cx, s0, s1, fin, dst, r);
        copied := map[];
      }
    }

    // my_copy_zval_ptr, with a pointer cell of its own.
    method CopyZvalPtr(src: Addr, ghost e: Edge, ghost stack: set<Addr>) returns (r: Addr)
      requires Good(cx, Snap(), stack, {}) && usegc == cx.usegc && src in cx.G && Pending(cx, Snap(), e, src)
      modifies this
      ensures Good(cx, Snap(), stack, {})
      ensures src in copied && r == copied[src]
      ensures Grows(cx, old(Snap()), Snap(), {}) && NewEdges(old(Snap()), Snap(), e)
      decreases |cx.G.Keys - copied.Keys|, 1
    {
      hide Good, Grows, NewEdges, Pending;
      ghost var s0 := Snap();
      var dst := next;
      zv := zv[dst := Zval(Plain(0), 0, false)];
      next := next + 1;
      AllocGood(cx, s0, stack, {}, Zval(Plain(0), 0, false));
      AllocPending(cx, s0, Zval(Plain(0), 0, false), e, src);
      SourceThere(cx, s0, stack, {}, src);
      ghost var s1 := Snap();
      assert s1 == Alloc(s0, Zval(Plain(0), 0, false));
      assert {} + {dst} == {dst};
      r := CopyZval(dst, src, e, stack);
      ghost var s2 := Snap();
      if r != dst {
        if usegc {
          zv := zv - {dst};
        }
      }
      PtrDone(cx, s0, s1, s2, Snap(), stack, dst, r, e);
    }

    // my_copy_zval with the memo table in use.
    method CopyZval(dst: Addr, src: Addr, ghost e: Edge, ghost stack: set<Addr>) returns (r: Addr)
      requires Good(cx, Snap(), stack, {dst}) && usegc == cx.usegc && src in cx.G && Pending(cx, Snap(), e, src)
      modifies this
      ensures Good(cx, Snap(), stack, if r == dst then {} else {dst})
      ensures src in copied && r == copied[src] && (src !in old(copied) ==> r == dst)
      ensures Grows(cx, old(Snap()), Snap(), {dst}) && NewEdges(old(Snap()), Snap(), e)
      decreases |cx.G.Keys - copied.Keys|, 0
    {
      hide Good, Grows, NewEdges, Pending, NewTable, OnlyFrom, Bounded, SourceTable, SameBelow, Memo;
      ghost var s0 := Snap();
      SourceThere(cx, s0, stack, {dst}, src);
      if src in copied {
        r := Reuse(dst, src, e, stack);
        return;
      }
      Enter(dst, src, e, stack);
      r := dst;
      if zv[src].value.Array? {
        FewerLeft(cx.G.Keys, s0.copied.Keys, copied.Keys);
        CopyArray(zv[src].value.ht, dst, src, e, s0, stack);
      } else {
        CopyLeaf(dst, src, stack);
      }
    }

    // The other cases of my_copy_zval: a string is duplicated, the rest is there.
    method CopyLeaf(dst: Addr, src: Addr, ghost stack: set<Addr>)
      requires Good(cx, Snap(), stack + {src}, {}) && src in cx.G && src in copied && copied[src] == dst
      requires src in zv && dst in zv && zv[dst].value == zv[src].value && !zv[src].value.Array?
      modifies this`zv
      ensures Snap() == old(Snap()) && Good(cx, Snap(), stack, {})
    {
      hide Good;
      ghost var s := Snap();
      if zv[src].value.Str? {
        zv := zv[dst := zv[dst].(value := Str(zv[src].value.s))];
      }
      assert zv == s.zv;
      LeafKind(cx, s, stack, src);
      LeafDone(cx, s, stack, {}, src);
    }

    // The source is new: dst is recorded as its copy, with one reference.
    method Enter(dst: Addr, src: Addr, ghost e: Edge, ghost stack: set<Addr>)
      requires Good(cx, Snap(), stack, {dst}) && src in cx.G && src !in copied && Pending(cx, Snap(), e, src)
        && src in zv && dst in zv && src != dst
      modifies this`zv, this`copied, this`edges
      ensures src in old(zv) && Snap() == Begin(old(Snap()), dst, src, e)
      ensures Good(cx, Snap(), stack + {src}, {}) && src in copied && copied[src] == dst && dst in zv
      ensures Grows(cx, old(Snap()), Snap(), {dst}) && NewEdges(old(Snap()), Snap(), e)
      ensures src in zv && zv[src] == old(zv)[src] && zv[dst].value == zv[src].value
    {
      hide Good, Grows, NewEdges, Pending;
      ghost var s0 := Snap();
      BeginGood(cx, s0, stack, {dst}, dst, src, e);
      assert {dst} - {dst} == {};
      zv := zv[dst := zv[src]];
      copied := copied[src := dst];
      zv := zv[dst := zv[dst].(refcount := 1, isref := false)];
      edges := edges + {e};
      assert zv == Begin(s0, dst, src, e).zv;
    }

    // The memo table knows the source: its copy is referred to once more.
    method Reuse(dst: Addr, src: Addr, ghost e: Edge, ghost stack: set<Addr>) returns (d: Addr)
      requires Good(cx, Snap(), stack, {dst}) && src in copied && Pending(cx, Snap(), e, src) && src in zv && dst in zv
      modifies this`zv, this`edges
      ensures Good(cx, Snap(), stack, {dst}) && src in copied && d == copied[src] && d != dst
      ensures Grows(cx, old(Snap()), Snap(), {dst}) && NewEdges(old(Snap()), Snap(), e)
    {
      hide Good, Grows, NewEdges, Pending;
      ghost var s0 := Snap();
      HitGood(cx, s0, stack, {dst}, dst, src, e);
      zv := zv[dst := zv[src]];
      d := copied[src];
      if zv[src].isref {
        zv := zv[d := zv[d].(isref := true)];
      }
      zv := zv[d := zv[d].(refcount := zv[d].refcount + 1)];
      edges := edges + {e};
      assert zv == Hit(s0, dst, src, e).zv;
    }

    // The array case of my_copy_zval.
    method CopyArray(ht: Addr, dst: Addr, src: Addr, ghost e: Edge, ghost s0: State, ghost stack: set<Addr>)
      requires Good(cx, s0, stack, {dst}) && usegc == cx.usegc && src in cx.G && cx.G[src].Arr? && src !in s0.copied
        && Pending(cx, s0, e, src)
      requires src in s0.zv && Snap() == Begin(s0, dst, src, e)
      requires src in zv && zv[src].value == Array(ht)
      modifies this
      ensures Good(cx, Snap(), stack, {}) && src in copied && copied[src] == dst
      ensures Grows(cx, s0, Snap(), {dst}) && NewEdges(s0, Snap(), e)
      decreases |cx.G.Keys - copied.Keys|, 4
    {
      hide Good, Grows, NewEdges, Pending, NewTable, OnlyFrom, Bounded, SourceNode;
      ghost var s1 := Snap();
      SourceThere(cx, s0, stack, {dst}, src);
      BeginGood(cx, s0, stack, {dst}, dst, src, e);
      assert {dst} - {dst} == {};
      NoEdgesYet(cx, s0, stack, {dst}, src, e);
      var t;
      ghost var ord;
      t, ord := CopyTable(ht, src, stack + {src});
      ghost var s2 := Snap();
      ArrayDone(cx, s0, s1, s2, stack, dst, src, e, t, ord);
      zv := zv[dst := zv[dst].(value := Array(t))];
      threads := threads[t := ord];
      assert Snap() == Attach(s2, src, t, ord);
    }

    // A bucket copied from curr, put in front of the chain of slot n.
    method Chain(t: Addr, n: nat, curr: Addr) returns (newp: Addr)
      requires t in tab && n < |tab[t].slots| && curr in bkt
      requires tab[t].slots[n] == 0 || (tab[t].slots[n] in bkt && tab[t].slots[n] != next)
      modifies this`bkt, this`tab, this`next
      ensures Chained(old(Snap()), Snap(), t, n, newp, curr)
    {
      ghost var s := Snap();
      var front := tab[t].slots[n];
      newp := next;
      next := next + 1;
      bkt := bkt[newp := bkt[curr]];
      if tab[t].slots[n] != 0 {
        bkt := bkt[newp := bkt[newp].(next := tab[t].slots[n])];
        bkt := bkt[newp := bkt[newp].(last := 0)];
        bkt := bkt[bkt[newp].next := bkt[bkt[newp].next].(last := newp)];
      } else {
        bkt := bkt[newp := bkt[newp].(next := 0, last := 0)];
      }
      tab := tab[t := tab[t].(slots := tab[t].slots[n := newp])];
      ghost var b := s.bkt[newp := s.bkt[curr].(next := front, last := 0)];
      assert bkt == if front != 0 then b[front := b[front].(last := newp)] else b;
    }

    // The bucket gets its data and its place at the end of the list thread.
    method Thread(t: Addr, newp: Addr, d: Addr, prev: Addr, first: bool)
      requires t in tab && newp in bkt && (prev == 0 || (prev in bkt && prev != newp))
      modifies this`bkt, this`tab
      ensures Threaded(old(Snap()), Snap(), t, newp, d, prev, first)
    {
      ghost var s := Snap();
      bkt := bkt[newp := bkt[newp].(data := d)];
      bkt := bkt[newp := bkt[newp].(listLast := prev)];
      bkt := bkt[newp := bkt[newp].(listNext := 0)];
      if prev != 0 {
        bkt := bkt[prev := bkt[prev].(listNext := newp)];
      }
      if first {
        tab := tab[t := tab[t].(head := newp)];
      }
      ghost var b := s.bkt[newp := s.bkt[newp].(data := d, listLast := prev, listNext := 0)];
      assert bkt == if prev != 0 then b[prev := b[prev].(listNext := newp)] else b;
    }

    // The loop body of my_copy_hashtable_ex: one bucket, with the value it holds.
    method CopyBucket(t: Addr, curr: Addr, prev: Addr, first: bool,
                      ghost s0: State, ghost p: Addr, ghost src: Addr, ghost ord: seq<Addr>, ghost k: nat,
                      ghost stack: set<Addr>) returns (newp: Addr)
      requires Good(cx, Snap(), stack, {}) && usegc == cx.usegc && p in copied && p in cx.G && cx.G[p].Arr?
      requires Bounded(cx, s0) && p in s0.zv && s0.zv[p].value == Array(src) && src in cx.order
        && s0.copied.Keys <= copied.Keys
      requires Building(cx, s0, Snap(), p, t, ord, k) && |ord| == k
      requires curr != 0 && curr == At(cx.order[src], k) && prev == At(ord, k - 1) && first == (k == 0)
      modifies this
      ensures Good(cx, Snap(), stack, {}) && p in copied && s0.copied.Keys <= copied.Keys
      ensures k < |cx.G[p].elems| && Building(cx, s0, Snap(), p, t, ord + [newp], k + 1)
      ensures newp != 0 && curr in bkt && bkt[curr].listNext == At(cx.order[src], k + 1)
      decreases |cx.G.Keys - copied.Keys|, 2
    {
      hide Good, Grows, NewEdges, Pending, Building, Slot, OnlyFrom, OnlyCells, Threaded, Chained, Bounded,
           SourceNode, NewTable;
      ghost var s := Snap();
      SourceThere(cx, s, stack, {}, p);
      BuildBase(cx, s0);
      BuildReads(cx, s0, s, p, t, ord, k);
      SourceBucket(cx, s, stack, p, src, k);
      var n := Slot(bkt[curr].h, tab[t].size);
      newp := Chain(t, n, curr);
      ghost var s1 := Snap();
      ChainedGood(cx, s0, s, s1, stack, p, t, ord, k, newp, curr);
      ChainedAt(s, s1, t, n, newp, curr);
      var d := CopyZvalPtr(bkt[curr].data, Slot_(p, k), stack);
      ghost var s2 := Snap();
      ThreadReads(cx, s0, s, s1, s2, p, t, ord, k, newp, curr);
      GrowsKeys(cx, s1, s2);
      Thread(t, newp, d, prev, first);
      ghost var s3 := Snap();
      BuildStep(cx, s0, s, s1, s2, s3, p, t, ord, k, newp, curr, d, prev);
      ThreadedGood(cx, s0, s, s1, s2, s3, stack, p, t, ord, k, newp, curr, d, prev);
      ThreadedAt(s2, s3, t, newp, d, prev, first, curr);
    }

    // The empty table, copied from src: cleared slots, no buckets.
    method StartTable(src: Addr, ghost p: Addr, ghost stack: set<Addr>) returns (t: Addr)
      requires Good(cx, Snap(), stack, {}) && p in cx.G && cx.G[p].Arr? && p in zv && zv[p].value == Array(src)
      requires forall i :: 0 <= i < |cx.G[p].elems| ==> Slot_(p, i) !in edges
      modifies this`tab, this`next
      ensures Good(cx, Snap(), stack, {}) && Building(cx, old(Snap()), Snap(), p, t, [], 0)
      ensures src in cx.order && src in tab && tab[src].head == At(cx.order[src], 0)
    {
      hide Good, Grows, Building, OnlyCells, SourceNode;
      ghost var s0 := Snap();
      SourceThere(cx, s0, stack, {}, p);
      SourceBucket(cx, s0, stack, p, src, 0);
      BuildBase(cx, s0);
      t := next;
      next := next + 1;
      tab := tab[t := tab[src]];
      tab := tab[t := tab[t].(slots := seq(tab[t].size, _ => 0), cursor := 0, head := 0)];
      assert tab == s0.tab[t := s0.tab[src].(slots := seq(cx.G[p].size, _ => 0), cursor := 0, head := 0)];
      BuildStart(cx, s0, Snap(), p, t, src);
      CellsGood(cx, s0, Snap(), stack, {}, {t});
    }

    // The tail and the internal pointer of the finished table.
    method FinishTable(t: Addr, newp: Addr, ghost s0: State, ghost p: Addr, ghost ord: seq<Addr>,
                       ghost stack: set<Addr>)
      requires Good(cx, Snap(), stack, {}) && Bounded(cx, s0) && p in cx.G && cx.G[p].Arr? && p in s0.zv && p < cx.base
      requires Building(cx, s0, Snap(), p, t, ord, |cx.G[p].elems|) && newp == At(ord, |ord| - 1)
      modifies this`tab
      ensures Good(cx, Snap(), stack, {}) && Grows(cx, s0, Snap(), {}) && OnlyFrom(s0, Snap(), p)
      ensures NewTable(cx, Snap(), p, t, ord)
      ensures s0.next <= t && forall i :: 0 <= i < |ord| ==> s0.next <= ord[i]
    {
      hide Good, Grows, Building, OnlyCells, OnlyFrom, NewTable;
      ghost var s := Snap();
      SourceThere(cx, s, stack, {}, p);
      BuildBase(cx, s0);
      BuildReads(cx, s0, s, p, t, ord, |cx.G[p].elems|);
      tab := tab[t := tab[t].(tail := newp)];
      tab := tab[t := tab[t].(cursor := tab[t].head)];
      assert tab == s.tab[t := s.tab[t].(tail := newp, cursor := s.tab[t].head)];
      BuildDone(cx, s0, s, Snap(), stack, p, t, ord);
    }

    // my_copy_hashtable_ex without a check function.
    method CopyTable(src: Addr, ghost p: Addr, ghost stack: set<Addr>) returns (t: Addr, ghost ord: seq<Addr>)
      requires Good(cx, Snap(), stack, {}) && usegc == cx.usegc && p in copied && p in cx.G && cx.G[p].Arr?
      requires p in zv && zv[p].value == Array(src)
      requires forall i :: 0 <= i < |cx.G[p].elems| ==> Slot_(p, i) !in edges
      modifies this
      ensures Good(cx, Snap(), stack, {}) && Grows(cx, old(Snap()), Snap(), {}) && OnlyFrom(old(Snap()), Snap(), p)
      ensures NewTable(cx, Snap(), p, t, ord)
      ensures old(next) <= t && forall i :: 0 <= i < |ord| ==> old(next) <= ord[i]
      decreases |cx.G.Keys - copied.Keys|, 3
    {
      hide Good, Grows, Building, OnlyFrom, Bounded, SourceNode, NewTable;
      ghost var s0 := Snap();
      SourceThere(cx, s0, stack, {}, p);
      t := StartTable(src, p, stack);
      ord := [];
      var prev, newp, first := 0, 0, true;
      ghost var k := 0;
      var curr := tab[src].head;
      while curr != 0
        invariant Good(cx, Snap(), stack, {}) && Building(cx, s0, Snap(), p, t, ord, k) && |ord| == k
        invariant curr == At(cx.order[src], k) && prev == newp == At(ord, k - 1) && first == (k == 0)
        invariant k <= |cx.G[p].elems| && p in copied && s0.copied.Keys <= copied.Keys
        decreases |cx.G[p].elems| - k
      {
        FewerLeft(cx.G.Keys, s0.copied.Keys, copied.Keys);
        newp := CopyBucket(t, curr, prev, first, s0, p, src, ord, k, stack);
        first := false;
        prev := newp;
        curr := bkt[curr].listNext;
        ord := ord + [newp];
        k := k + 1;
      }
      BuildBase(cx, s0);
      LoopOver(cx, s0, Snap(), stack, p, src, t, ord, k);
      FinishTable(t, newp, s0, p, ord, stack);
    }
  }
}
