/** What a deep copy means to whoever walks it. */
module CopyResult {
  import opened Options
  import opened Slots
  import opened CopySpec
  import opened CopyState
  import opened Copier

  lemma NoNullBucket(cx: Task, s: State)
    requires Good(cx, s, {}, {})
    ensures 0 !in s.bkt
  {
    hide SourceIn, Memo, Edges, Counts, Completes, OwnTables, NoGarbage, Reached;
  }

  lemma RootIn(cx: Task, s: State)
    requires Good(cx, s, {}, {}) && cx.root in s.copied
    ensures cx.root in cx.G
  {
    hide Bounded, SourceIn, Edges, Counts, Completes, OwnTables, NoGarbage, Reached;
  }

  // ---------- walking a graph in memory ----------

  // Bucket i of the list thread that starts at head, or 0.
  ghost function Walk(bkt: map<Addr, Bucket>, head: Addr, i: nat): Addr {
    if i == 0 then head else
    var b := Walk(bkt, head, i - 1);
    if b in bkt then bkt[b].listNext else 0
  }

  // The value at the end of a path of element positions, following pointers.
  ghost function FollowMem(s: State, a: Addr, path: seq<nat>): Option<Addr> {
    if path == [] then Some(a) else
    match FollowMem(s, a, path[..|path| - 1])
    case None => None
    case Some(v) =>
      if v in s.zv && s.zv[v].value.Array? && s.zv[v].value.ht in s.tab then
        var b := Walk(s.bkt, s.tab[s.zv[v].value.ht].head, path[|path| - 1]);
        if b != 0 && b in s.bkt then Some(s.bkt[b].data) else None
      else None
  }

  lemma {:induction false} WalkSource(tab: map<Addr, Table>, bkt: map<Addr, Bucket>, t: Addr, ord: seq<Addr>,
                                      size: nat, elems: seq<Elem>, i: nat)
    requires SourceTable(tab, bkt, t, ord, size, elems) && 0 !in bkt
    ensures Walk(bkt, tab[t].head, i) == At(ord, i)
  {
    if i > 0 { WalkSource(tab, bkt, t, ord, size, elems, i - 1); }
  }

  lemma BucketIs(bkt: map<Addr, Bucket>, size: nat, elems: seq<Elem>, ord: seq<Addr>, copied: map<Addr, Addr>, i: nat)
    requires Buckets(bkt, size, elems, ord, copied, |elems|) && i < |elems|
    ensures ord[i] in bkt && elems[i].child in copied
    ensures var b := bkt[ord[i]];
      b.h == elems[i].h && b.key == elems[i].key && b.data == copied[elems[i].child] && b.listNext == At(ord, i + 1)
  {
    hide Slot, First, Last;
    assert bkt[ord[i]] == Expected(elems, size, ord, copied, i, |elems|);
  }

  lemma {:induction false} WalkCopy(tab: map<Addr, Table>, bkt: map<Addr, Bucket>, t: Addr, ord: seq<Addr>, size: nat,
                                    elems: seq<Elem>, copied: map<Addr, Addr>, i: nat)
    requires CopiedTable(tab, bkt, t, ord, size, elems, copied) && 0 !in bkt
    ensures Walk(bkt, tab[t].head, i) == At(ord, i)
  {
    hide Heads, Slot, First, Last;
    if i > 0 {
      if i - 1 < |elems| { BucketIs(bkt, size, elems, ord, copied, i - 1); }
      WalkCopy(tab, bkt, t, ord, size, elems, copied, i - 1);
    }
  }

  // In memory, paths through the source lead where the graph says.
  lemma {:induction false} FollowSource(cx: Task, s: State, path: seq<nat>)
    requires SourceIn(cx, s) && cx.root in cx.G && 0 !in s.bkt
    ensures FollowMem(s, cx.root, path) == Follow(cx.G, cx.root, path)
    ensures Follow(cx.G, cx.root, path).Some? ==> Follow(cx.G, cx.root, path).value in cx.G
  {
    hide Slot;
    if path != [] {
      FollowSource(cx, s, path[..|path| - 1]);
      var q := Follow(cx.G, cx.root, path[..|path| - 1]);
      if q.Some? {
        assert SourceNode(s.zv, s.tab, s.bkt, cx.order, q.value, cx.G[q.value]);
        if cx.G[q.value].Arr? {
          var t := s.zv[q.value].value.ht;
          WalkSource(s.tab, s.bkt, t, cx.order[t], cx.G[q.value].size, cx.G[q.value].elems, path[|path| - 1]);
        }
      }
    }
  }

  function Image(copied: map<Addr, Addr>, a: Option<Addr>): Option<Addr> {
    match a
    case Some(p) => if p in copied then Some(copied[p]) else None
    case None => None
  }

  // The same path leads to the copy of what it leads to in the source.
  lemma {:induction false} FollowCopy(cx: Task, s: State, path: seq<nat>)
    requires Good(cx, s, {}, {}) && cx.root in s.copied
    ensures FollowMem(s, s.copied[cx.root], path) == Image(s.copied, Follow(cx.G, cx.root, path))
    ensures Follow(cx.G, cx.root, path).Some? ==> Follow(cx.G, cx.root, path).value in s.copied
  {
    hide Good, Walk;
    if path != [] {
      FollowCopy(cx, s, path[..|path| - 1]);
      var q := Follow(cx.G, cx.root, path[..|path| - 1]);
      if q.Some? {
        FollowStep(cx, s, q.value, path[|path| - 1]);
      }
    }
  }

  lemma FollowStep(cx: Task, s: State, q: Addr, i: nat)
    requires Good(cx, s, {}, {}) && q in s.copied
    ensures q in cx.G && s.copied[q] in s.zv
    ensures var z := s.zv[s.copied[q]].value;
      if cx.G[q].Arr? then
        && z.Array? && z.ht in s.tab
        && var b := Walk(s.bkt, s.tab[z.ht].head, i);
           if i < |cx.G[q].elems| then b != 0 && b in s.bkt && cx.G[q].elems[i].child in s.copied
             && s.bkt[b].data == s.copied[cx.G[q].elems[i].child]
           else b == 0
      else !z.Array?
  {
    hide Bounded, SourceIn, Edges, Counts, OwnTables, NoGarbage, Reached, Slot, First, Last, Heads;
    NoNullBucket(cx, s);
    assert Complete(cx, s, q);
    if cx.G[q].Arr? {
      var t := s.zv[s.copied[q]].value.ht;
      WalkCopy(s.tab, s.bkt, t, s.threads[t], cx.G[q].size, cx.G[q].elems, s.copied, i);
      if i < |cx.G[q].elems| { BucketIs(s.bkt, cx.G[q].size, cx.G[q].elems, s.threads[t], s.copied, i); }
    } else {
      LeafPlain(cx, s, q);
    }
  }

  lemma LeafPlain(cx: Task, s: State, q: Addr)
    requires Good(cx, s, {}, {}) && q in cx.G && cx.G[q].Leaf?
    ensures !cx.G[q].value.Array?
  {
    hide Bounded, Edges, Counts, OwnTables, NoGarbage, Reached, Memo, Completes;
    SourceValue(cx, s, q);
  }

  // ---------- the theorems ----------

  // Exactly the values that the root leads to are copied.
  lemma CopiesReachable(cx: Task, s0: State, s: State, r: Addr, p: Addr)
    requires IsDeepCopy(cx, s0, s, r)
    ensures p in s.copied <==> Reachable(cx.G, cx.root, p)
  {
    hide Grows;
    if Reachable(cx.G, cx.root, p) {
      var path :| Follow(cx.G, cx.root, path) == Some(p);
      FollowCopy(cx, s, path);
    }
  }

  // Two paths meet in the copy exactly when they meet in the source: the copy
  // is isomorphic to the source, sharing and cycles included.
  lemma CopyIsIsomorphic(cx: Task, s0: State, s: State, r: Addr, path1: seq<nat>, path2: seq<nat>)
    requires IsDeepCopy(cx, s0, s, r)
    ensures FollowMem(s, r, path1).Some? <==> FollowMem(s, cx.root, path1).Some?
    ensures FollowMem(s, r, path1).Some? && FollowMem(s, r, path2).Some? ==>
      (FollowMem(s, r, path1) == FollowMem(s, r, path2) <==>
        FollowMem(s, cx.root, path1) == FollowMem(s, cx.root, path2))
  {
    hide Bounded, Edges, Counts, Completes, OwnTables, NoGarbage, Reached, SourceIn, Grows;
    NoNullBucket(cx, s);
    FollowCopy(cx, s, path1);
    FollowCopy(cx, s, path2);
    FollowSource(cx, s, path1);
    FollowSource(cx, s, path2);
  }

  // At the end of every path the copy holds what the source holds: the same
  // plain value or string, or a table of the same size with as many elements
  // under the same keys in the same order.
  lemma CopyHoldsTheSame(cx: Task, s0: State, s: State, r: Addr, path: seq<nat>)
    requires IsDeepCopy(cx, s0, s, r) && FollowMem(s, cx.root, path).Some?
    ensures FollowMem(s, r, path).Some?
    ensures var a, b := FollowMem(s, cx.root, path).value, FollowMem(s, r, path).value;
      && a in s.zv && b in s.zv && a < cx.base <= b
      && (!s.zv[a].value.Array? ==> s.zv[b].value == s.zv[a].value)
      && (s.zv[a].value.Array? ==>
            && s.zv[b].value.Array? && s.zv[a].value.ht in s.tab && s.zv[b].value.ht in s.tab
            && var ta, tb := s.tab[s.zv[a].value.ht], s.tab[s.zv[b].value.ht];
               && tb.size == ta.size && tb.count == ta.count
               && forall i: nat :: i < ta.count ==>
                    var ba, bb := Walk(s.bkt, ta.head, i), Walk(s.bkt, tb.head, i);
                    ba in s.bkt && bb in s.bkt && s.bkt[bb].h == s.bkt[ba].h && s.bkt[bb].key == s.bkt[ba].key)
  {
    hide Bounded, Edges, Counts, OwnTables, NoGarbage, Reached, Grows, Completes, SourceIn, Memo;
    NoNullBucket(cx, s);
    RootIn(cx, s);
    FollowCopy(cx, s, path);
    FollowSource(cx, s, path);
    var p := Follow(cx.G, cx.root, path).value;
    PairHoldsTheSame(cx, s, p);
  }

  lemma PairHoldsTheSame(cx: Task, s: State, p: Addr)
    requires Good(cx, s, {}, {}) && p in s.copied
    ensures var a, b := p, s.copied[p];
      && a in s.zv && b in s.zv && a < cx.base <= b
      && (!s.zv[a].value.Array? ==> s.zv[b].value == s.zv[a].value)
      && (s.zv[a].value.Array? ==>
            && s.zv[b].value.Array? && s.zv[a].value.ht in s.tab && s.zv[b].value.ht in s.tab
            && var ta, tb := s.tab[s.zv[a].value.ht], s.tab[s.zv[b].value.ht];
               && tb.size == ta.size && tb.count == ta.count
               && forall i: nat :: i < ta.count ==>
                    var ba, bb := Walk(s.bkt, ta.head, i), Walk(s.bkt, tb.head, i);
                    ba in s.bkt && bb in s.bkt && s.bkt[bb].h == s.bkt[ba].h && s.bkt[bb].key == s.bkt[ba].key)
  {
    hide Bounded, Edges, Counts, OwnTables, NoGarbage, Reached, Slot, First, Last, Heads;
    NoNullBucket(cx, s);
    SourceValue(cx, s, p);
    assert Complete(cx, s, p);
    if cx.G[p].Arr? {
      var t, t' := s.zv[p].value.ht, s.zv[s.copied[p]].value.ht;
      var size, elems := cx.G[p].size, cx.G[p].elems;
      forall i: nat | i < |elems|
        ensures var ba, bb := Walk(s.bkt, s.tab[t].head, i), Walk(s.bkt, s.tab[t'].head, i);
          ba in s.bkt && bb in s.bkt && s.bkt[bb].h == s.bkt[ba].h && s.bkt[bb].key == s.bkt[ba].key
      {
        WalkSource(s.tab, s.bkt, t, cx.order[t], size, elems, i);
        WalkCopy(s.tab, s.bkt, t', s.threads[t'], size, elems, s.copied, i);
        BucketIs(s.bkt, size, elems, s.threads[t'], s.copied, i);
      }
    }
  }

  // The references to p inside what the root leads to, and from the caller to the root.
  ghost function References(G: Graph, root: Addr, p: Addr): set<Edge> {
    (set q, i | q in G && G[q].Arr? && 0 <= i < |G[q].elems| && G[q].elems[i].child == p && Reachable(G, root, q) ::
      Slot_(q, i))
    + (if p == root then {Root} else {})
  }

  // The refcount of every copy is the number of references to its source, and it
  // is a reference exactly when its source is one and it is shared.
  lemma RefcountsExact(cx: Task, s0: State, s: State, r: Addr, p: Addr)
    requires IsDeepCopy(cx, s0, s, r) && Reachable(cx.G, cx.root, p)
    ensures p in s.copied && s.copied[p] in s.zv && p in s.zv
    ensures var n := |References(cx.G, cx.root, p)|;
      s.zv[s.copied[p]].refcount == n >= 1 && s.zv[s.copied[p]].isref == (s.zv[p].isref && n >= 2)
  {
    hide Bounded, OwnTables, NoGarbage, Reached, Grows, Reachable, References;
    forall q ensures q in s.copied <==> Reachable(cx.G, cx.root, q) { CopiesReachable(cx, s0, s, r, q); }
    IntoIsReferences(cx, s, p);
    Placed(cx, s);
  }

  lemma IntoIsReferences(cx: Task, s: State, p: Addr)
    requires Edges(cx, s) && Completes(cx, s, {}) && Root in s.edges
    requires forall q :: q in s.copied <==> Reachable(cx.G, cx.root, q)
    ensures Into(cx.G, cx.root, s.edges, p) == References(cx.G, cx.root, p)
  {
    hide CopiedTable, Reachable;
    forall e ensures e in Into(cx.G, cx.root, s.edges, p) <==> e in References(cx.G, cx.root, p) {
      if e.Slot_? && e in References(cx.G, cx.root, p) {
        assert Complete(cx, s, e.parent);
      }
    }
  }

  // ---------- the entry of a stored value ----------

  // apc_cache_make_entry initialises the counts of the stored root once more.
  function Stored(s: State, r: Addr): State
    requires r in s.zv
  {
    s.(zv := s.zv[r := s.zv[r].(refcount := 1, isref := false)])
  }

  // No array that the root leads to has the root among its elements.
  ghost predicate RootUnshared(G: Graph, root: Addr) {
    forall q, i ::
      Reachable(G, root, q) && q in G && G[q].Arr? && 0 <= i < |G[q].elems| ==> G[q].elems[i].child != root
  }

  // After that every refcount is still the number of references exactly when
  // nothing inside the value refers back to its root.
  lemma StoredCounts(cx: Task, s0: State, s: State, r: Addr)
    requires IsDeepCopy(cx, s0, s, r)
    ensures r in s.zv && forall p :: Reachable(cx.G, cx.root, p) ==> p in s.copied && s.copied[p] in s.zv
    ensures RootUnshared(cx.G, cx.root) <==>
      forall p :: Reachable(cx.G, cx.root, p) ==>
        Stored(s, r).zv[s.copied[p]].refcount == |References(cx.G, cx.root, p)|
  {
    hide Bounded, SourceIn, Edges, Counts, Completes, OwnTables, NoGarbage, Reached, Grows, References, Reachable,
         RootUnshared;
    RootCopied(cx, s0, s, r);
    RootReached(cx.G, cx.root);
    forall p | Reachable(cx.G, cx.root, p)
      ensures p in s.copied && s.copied[p] in s.zv
      ensures p != cx.root ==> Stored(s, r).zv[s.copied[p]].refcount == |References(cx.G, cx.root, p)|
    {
      RefcountsExact(cx, s0, s, r, p);
    }
    RootReferences(cx.G, cx.root);
  }

  lemma RootCopied(cx: Task, s0: State, s: State, r: Addr)
    requires IsDeepCopy(cx, s0, s, r)
    ensures cx.root in s.copied && s.copied[cx.root] == r
  {
    hide Bounded, SourceIn, Memo, Edges, Counts, Completes, OwnTables, NoGarbage, Reached, Grows;
  }

  lemma RootReached(G: Graph, root: Addr)
    ensures Reachable(G, root, root)
  {
    assert Follow(G, root, []) == Some(root);
  }

  lemma RootReferences(G: Graph, root: Addr)
    ensures |References(G, root, root)| == 1 <==> RootUnshared(G, root)
  {
    hide Reachable;
    var inner := set q, i |
      q in G && G[q].Arr? && 0 <= i < |G[q].elems| && G[q].elems[i].child == root && Reachable(G, root, q) ::
        Slot_(q, i);
    assert References(G, root, root) == inner + {Root};
    assert |inner + {Root}| == |inner| + 1;
    if !RootUnshared(G, root) {
      var q, i :| Reachable(G, root, q) && q in G && G[q].Arr? && 0 <= i < |G[q].elems| && G[q].elems[i].child == root;
      assert Slot_(q, i) in inner;
    } else {
      assert inner == {};
    }
  }

  // An array that contains itself: value 1 is the table 2, whose one bucket 3
  // holds value 1.
  const SELF: Graph := map[1 := Arr(8, [Elem(0, "", 1)])]

  lemma SelfReferences()
    ensures References(SELF, 1, 1) == {Slot_(1, 0), Root} && |References(SELF, 1, 1)| == 2
  {
    hide Reachable;
    RootReached(SELF, 1);
    assert References(SELF, 1, 1) == {Slot_(1, 0), Root};
  }

  // Its copy has two references, and what is stored says one.
  method SelfContaining() returns (context: Context, r: Addr, ghost s0: State, ghost fin: State)
    ensures context.cx.G == SELF && IsDeepCopy(context.cx, s0, fin, r) && r in fin.zv
    ensures fin.zv[r].refcount == 2 == |References(SELF, 1, 1)|
    ensures Stored(fin, r).zv[r].refcount == 1 && !RootUnshared(SELF, 1)
  {
    hide Good, Grows, References, Reachable, RootUnshared, Stored;
    ghost var cx := Task(SELF, map[2 := [3]], 4, 1, false);
    var zv := map[1 := Zval(Array(2), 1, true)];
    var tab := map[2 := Table(8, 1, [0, 0, 0, 0, 0, 0, 0, 0], 3, 3, 3)];
    var bkt := map[3 := Bucket(0, "", 1, 0, 0, 0, 0)];
    SelfSource(cx, State(zv, tab, bkt, 4, map[], map[], {}));
    context := new Context(zv, tab, bkt, 4, false, cx);
    s0 := context.Snap();
    r, fin := context.StoreZval(1);
    RootReached(SELF, 1);
    RootCopied(cx, s0, fin, r);
    RefcountsExact(cx, s0, fin, r, 1);
    SelfReferences();
    RootReferences(SELF, 1);
    StoredOne(fin, r);
  }

  lemma StoredOne(s: State, r: Addr)
    requires r in s.zv
    ensures Stored(s, r).zv[r].refcount == 1
  {}

  lemma SelfSource(cx: Task, s: State)
    requires cx == Task(SELF, map[2 := [3]], 4, 1, false)
    requires s.zv == map[1 := Zval(Array(2), 1, true)] && s.tab.Keys == {2} && s.tab[2].size == 8 && s.tab[2].count == 1
    requires s.tab[2].head == 3 && s.bkt == map[3 := Bucket(0, "", 1, 0, 0, 0, 0)] && s.next == 4 && s.threads == map[]
    ensures Bounded(cx, s) && SourceIn(cx, s)
  {
    assert SourceNode(s.zv, s.tab, s.bkt, cx.order, 1, SELF[1]);
  }

  // Nothing of the source has changed, and a copy out leaves no other new value.
  lemma OnlyCopiesAreNew(cx: Task, s0: State, s: State, r: Addr)
    requires IsDeepCopy(cx, s0, s, r) && cx.base == s0.next && Bounded(cx, s0)
    ensures forall a :: a in s0.zv ==> a in s.zv && s.zv[a] == s0.zv[a]
    ensures forall a :: a in s0.tab ==> a in s.tab && s.tab[a] == s0.tab[a]
    ensures forall a :: a in s0.bkt ==> a in s.bkt && s.bkt[a] == s0.bkt[a]
    ensures cx.usegc ==> forall a :: a in s.zv && a >= cx.base ==> a in s.copied.Values
  {
    hide Edges, Counts, Completes, OwnTables, Reached, SourceIn, Memo;
  }

  // ---------- looking a key up ----------

  predicate Matches(elem: Elem, h: nat, key: string) {
    elem.h == h && elem.key == key
  }

  ghost predicate DistinctKeys(elems: seq<Elem>) {
    forall i, j :: 0 <= i < j < |elems| ==> !Matches(elems[j], elems[i].h, elems[i].key)
  }

  // The engine's lookup in one copied table, along the chain of one slot: it finds
  // the copy of the element that has the key, and nothing where none has.
  method LookupIn(tab: map<Addr, Table>, bkt: map<Addr, Bucket>, t: Addr, h: nat, key: string,
                ghost ord: seq<Addr>, ghost size: nat, ghost elems: seq<Elem>, ghost copied: map<Addr, Addr>)
                returns (r: Option<Addr>)
    requires CopiedTable(tab, bkt, t, ord, size, elems, copied) && DistinctKeys(elems)
    ensures forall i :: 0 <= i < |elems| && Matches(elems[i], h, key) ==>
      elems[i].child in copied && r == Some(copied[elems[i].child])
    ensures r.Some? ==> exists i :: 0 <= i < |elems| && Matches(elems[i], h, key)
  {
    hide Slot, Expected, Last, First, Matches, CopiedTable, DistinctKeys;
    ChainStart(tab, bkt, t, ord, size, elems, copied, h);
    var n := Slot(h, tab[t].size);
    ghost var l: nat := Last(elems, size, n, |elems|);
    OtherSlots(elems, size, h, key);
    var b := tab[t].slots[n];
    while b != 0
      invariant l <= |elems| && b == At(ord, l - 1) && (l > 0 <==> b != 0)
      invariant l > 0 ==> Slot(elems[l - 1].h, size) == n
      invariant forall i: nat :: l <= i < |elems| ==> !Matches(elems[i], h, key)
      decreases l
    {
      ChainBucket(tab, bkt, t, ord, size, elems, copied, l - 1);
      if bkt[b].h == h && bkt[b].key == key {
        OnlyMatch(elems, h, key, l - 1);
        return Some(bkt[b].data);
      }
      NoMatch(elems, h, key, l - 1);
      b := bkt[b].next;
      l := Last(elems, size, n, l - 1);
    }
    return None;
  }

  lemma ChainStart(tab: map<Addr, Table>, bkt: map<Addr, Bucket>, t: Addr, ord: seq<Addr>, size: nat,
                   elems: seq<Elem>, copied: map<Addr, Addr>, h: nat)
    requires CopiedTable(tab, bkt, t, ord, size, elems, copied)
    ensures t in tab && tab[t].size == size >= 1
    ensures var n := Slot(h, size); var l := Last(elems, size, n, |elems|);
      |tab[t].slots| == size && tab[t].slots[n] == At(ord, l - 1) && (l > 0 <==> tab[t].slots[n] != 0)
  {
    hide Slot, Expected;
  }

  lemma ChainBucket(tab: map<Addr, Table>, bkt: map<Addr, Bucket>, t: Addr, ord: seq<Addr>, size: nat,
                    elems: seq<Elem>, copied: map<Addr, Addr>, i: nat)
    requires CopiedTable(tab, bkt, t, ord, size, elems, copied) && i < |elems|
    ensures size >= 1 && |ord| == |elems| && ord[i] in bkt && elems[i].child in copied
    ensures var l := Last(elems, size, Slot(elems[i].h, size), i);
      && bkt[ord[i]].h == elems[i].h && bkt[ord[i]].key == elems[i].key && bkt[ord[i]].data == copied[elems[i].child]
      && bkt[ord[i]].next == At(ord, l - 1) && (l > 0 <==> bkt[ord[i]].next != 0)
  {
    hide Slot, Last, First, Heads, Expected;
    ExpectedFields(elems, size, ord, copied, i);
    var l := Last(elems, size, Slot(elems[i].h, size), i);
    if l > 0 { assert ord[l - 1] != 0; }
  }

  lemma ExpectedFields(elems: seq<Elem>, size: nat, ord: seq<Addr>, copied: map<Addr, Addr>, i: nat)
    requires size >= 1 && i < |elems| && |ord| == |elems| && elems[i].child in copied
    ensures var b := Expected(elems, size, ord, copied, i, |elems|);
      && b.h == elems[i].h && b.key == elems[i].key && b.data == copied[elems[i].child]
      && b.next == At(ord, Last(elems, size, Slot(elems[i].h, size), i) - 1)
  {
    hide Slot, Last, First;
  }

  lemma OtherSlots(elems: seq<Elem>, size: nat, h: nat, key: string)
    requires size >= 1
    ensures forall i: nat :: i < |elems| && Slot(elems[i].h, size) != Slot(h, size) ==> !Matches(elems[i], h, key)
  {
    hide Slot;
  }

  lemma OnlyMatch(elems: seq<Elem>, h: nat, key: string, k: nat)
    requires DistinctKeys(elems) && k < |elems| && elems[k].h == h && elems[k].key == key
    ensures Matches(elems[k], h, key) && forall i :: 0 <= i < |elems| && Matches(elems[i], h, key) ==> i == k
  {}

  lemma NoMatch(elems: seq<Elem>, h: nat, key: string, k: nat)
    requires k < |elems| && !(elems[k].h == h && elems[k].key == key)
    ensures !Matches(elems[k], h, key)
  {}

  // The value a is an array in memory whose element i has the key.
  ghost predicate HasKey(s: State, a: Addr, i: nat, h: nat, key: string) {
    && a in s.zv && s.zv[a].value.Array? && s.zv[a].value.ht in s.tab && i < s.tab[s.zv[a].value.ht].count
    && var b := Walk(s.bkt, s.tab[s.zv[a].value.ht].head, i);
       b in s.bkt && s.bkt[b].h == h && s.bkt[b].key == key
  }

  // No key occurs twice in the array a.
  ghost predicate OneEach(s: State, a: Addr) {
    forall i: nat, j: nat, h, key :: HasKey(s, a, i, h, key) && HasKey(s, a, j, h, key) ==> i == j
  }

  lemma KeyInSource(cx: Task, s: State, p: Addr, i: nat, h: nat, key: string)
    requires SourceIn(cx, s) && p in cx.G && cx.G[p].Arr? && 0 !in s.bkt
    ensures HasKey(s, p, i, h, key) <==> i < |cx.G[p].elems| && Matches(cx.G[p].elems[i], h, key)
  {
    hide Walk;
    SourceValue(cx, s, p);
    var t := s.zv[p].value.ht;
    WalkSource(s.tab, s.bkt, t, cx.order[t], cx.G[p].size, cx.G[p].elems, i);
  }

  lemma KeysDistinct(cx: Task, s: State, p: Addr)
    requires SourceIn(cx, s) && p in cx.G && cx.G[p].Arr? && 0 !in s.bkt && OneEach(s, p)
    ensures DistinctKeys(cx.G[p].elems)
  {
    hide SourceIn, HasKey, Walk;
    var elems := cx.G[p].elems;
    forall i, j | 0 <= i < j < |elems| ensures !Matches(elems[j], elems[i].h, elems[i].key) {
      KeyInSource(cx, s, p, i, elems[i].h, elems[i].key);
      KeyInSource(cx, s, p, j, elems[i].h, elems[i].key);
    }
  }

  // The array p of the source and its copy, as they lie in memory.
  lemma ArrayCopied(cx: Task, s: State, p: Addr)
    requires Good(cx, s, {}, {}) && p in s.copied && s.copied[p] in s.zv && s.zv[s.copied[p]].value.Array?
    ensures p in cx.G && cx.G[p].Arr? && s.zv[s.copied[p]].value.ht in s.threads
    ensures var t := s.zv[s.copied[p]].value.ht;
      CopiedTable(s.tab, s.bkt, t, s.threads[t], cx.G[p].size, cx.G[p].elems, s.copied)
  {
    hide Bounded, Edges, Counts, OwnTables, NoGarbage, Reached, CopiedTable;
    assert Complete(cx, s, p);
    if cx.G[p].Leaf? { LeafPlain(cx, s, p); }
  }

  lemma FollowElement(cx: Task, s: State, path: seq<nat>, p: Addr, i: nat)
    requires Good(cx, s, {}, {}) && cx.root in s.copied && 0 !in s.bkt && Follow(cx.G, cx.root, path) == Some(p)
    requires p in cx.G && cx.G[p].Arr? && i < |cx.G[p].elems|
    ensures FollowMem(s, cx.root, path + [i]) == Some(cx.G[p].elems[i].child)
    ensures FollowMem(s, s.copied[cx.root], path + [i]) == Image(s.copied, Some(cx.G[p].elems[i].child))
  {
    hide Bounded, Edges, Counts, OwnTables, NoGarbage, Reached, Completes, SourceIn, Memo, FollowMem;
    RootIn(cx, s);
    assert (path + [i])[..|path|] == path;
    FollowSource(cx, s, path + [i]);
    FollowCopy(cx, s, path + [i]);
  }

  // The lookup of a key in the copy b of the array a, at the end of any path: it
  // gives the copy of what the source has under that key, which is what the copy
  // has at that position, and nothing where the source has no such key.
  method Lookup(zv: map<Addr, Zval>, tab: map<Addr, Table>, bkt: map<Addr, Bucket>, b: Addr, h: nat, key: string,
                ghost cx: Task, ghost s0: State, ghost s: State, ghost r: Addr, ghost path: seq<nat>, ghost a: Addr)
    returns (res: Option<Addr>)
    requires IsDeepCopy(cx, s0, s, r) && zv == s.zv && tab == s.tab && bkt == s.bkt
    requires FollowMem(s, cx.root, path) == Some(a) && FollowMem(s, r, path) == Some(b)
    requires b in zv && zv[b].value.Array? && OneEach(s, a)
    ensures forall i: nat :: HasKey(s, a, i, h, key) ==>
      res.Some? && res == Image(s.copied, FollowMem(s, cx.root, path + [i])) == FollowMem(s, r, path + [i])
    ensures res.Some? ==> exists i: nat :: HasKey(s, a, i, h, key)
  {
    hide Good, Grows, FollowMem, HasKey, OneEach, CopiedTable, DistinctKeys, Matches, Walk;
    GoodParts(cx, s);
    NoNullBucket(cx, s);
    RootIn(cx, s);
    FollowCopy(cx, s, path);
    FollowSource(cx, s, path);
    ArrayCopied(cx, s, a);
    KeysDistinct(cx, s, a);
    ghost var elems := cx.G[a].elems;
    ghost var t := s.zv[b].value.ht;
    res := LookupIn(tab, bkt, zv[b].value.ht, h, key, s.threads[t], cx.G[a].size, elems, s.copied);
    forall i: nat
      ensures HasKey(s, a, i, h, key) <==> i < |elems| && Matches(elems[i], h, key)
      ensures HasKey(s, a, i, h, key) ==>
        res.Some? && res == Image(s.copied, FollowMem(s, cx.root, path + [i])) == FollowMem(s, r, path + [i])
    {
      KeyInSource(cx, s, a, i, h, key);
      if i < |elems| { FollowElement(cx, s, path, a, i); }
    }
  }

  lemma GoodParts(cx: Task, s: State)
    requires Good(cx, s, {}, {})
    ensures SourceIn(cx, s)
  {
    hide SourceIn;
  }
}
