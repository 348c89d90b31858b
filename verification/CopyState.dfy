/** The memory while a graph is being copied, and the steps that keep it sound. */
module CopyState {
  import opened Options
  import opened Slots
  import opened CopySpec

  // What a copy is about: the graph G, in the addresses below base, its table
  // threads, its root, and whether values come from the garbage-collected heap.
  datatype Task = Task(G: Graph, order: map<Addr, seq<Addr>>, base: Addr, root: Addr, usegc: bool)

  // threads: the buckets of the finished tables; edges: the references copied so far.
  datatype State = State(zv: map<Addr, Zval>, tab: map<Addr, Table>, bkt: map<Addr, Bucket>, next: Addr,
                         copied: map<Addr, Addr>, threads: map<Addr, seq<Addr>>, edges: set<Edge>)

  ghost predicate Bounded(cx: Task, s: State) {
    && 1 <= cx.base <= s.next
    && (forall a :: a in s.zv ==> a < s.next)
    && (forall a :: a in s.tab ==> a < s.next)
    && (forall a :: a in s.bkt ==> 0 < a < s.next)
    && (forall t :: t in s.threads ==> cx.base <= t < s.next)
    && (forall t, i :: t in s.threads && 0 <= i < |s.threads[t]| ==> cx.base <= s.threads[t][i] < s.next)
  }

  ghost predicate SourceIn(cx: Task, s: State) {
    && Closed(cx.G)
    && (forall p {:trigger SourceNode(s.zv, s.tab, s.bkt, cx.order, p, cx.G[p])} :: p in cx.G ==>
        p < cx.base && SourceNode(s.zv, s.tab, s.bkt, cx.order, p, cx.G[p]))
    && (forall t :: t in cx.order ==> t < cx.base)
    && (forall t, i :: t in cx.order && 0 <= i < |cx.order[t]| ==> cx.order[t][i] < cx.base)
  }

  ghost predicate SourcePlaced(cx: Task, s: State) {
    forall p :: p in cx.G ==> p < cx.base && p in s.zv
  }

  // The two states agree on everything below base.
  ghost predicate SameBelow(cx: Task, s: State, s': State) {
    && (forall a :: a in s.zv && a < cx.base ==> a in s'.zv && s'.zv[a] == s.zv[a])
    && (forall a :: a in s.tab && a < cx.base ==> a in s'.tab && s'.tab[a] == s.tab[a])
    && (forall a :: a in s.bkt && a < cx.base ==> a in s'.bkt && s'.bkt[a] == s.bkt[a])
  }

  // copied is an injection into the new values; extra holds new values that are not copies.
  ghost predicate Memo(cx: Task, s: State, extra: set<Addr>) {
    && cx.root in cx.G
    && (forall p :: p in s.copied ==>
        p in cx.G && cx.base <= s.copied[p] && s.copied[p] in s.zv && s.copied[p] !in extra)
    && (forall p, q :: p in s.copied && q in s.copied && p != q ==> s.copied[p] != s.copied[q])
    && (forall a :: a in extra ==> a in s.zv && cx.base <= a)
  }

  ghost predicate Edges(cx: Task, s: State) {
    forall e :: e in s.edges ==>
      IsEdge(cx.G, e) && Target(cx.G, cx.root, e) in s.copied && (e.Slot_? ==> e.parent in s.copied)
  }

  // A copy counts the references made to it, and is a reference only when its
  // source is one and it is referred to more than once.
  ghost predicate Counts(cx: Task, s: State) {
    forall p :: p in s.copied && p in cx.G && s.copied[p] in s.zv && p in s.zv ==>
      var n := |Into(cx.G, cx.root, s.edges, p)|;
      n >= 1 && s.zv[s.copied[p]].refcount == n && s.zv[s.copied[p]].isref == (s.zv[p].isref && n >= 2)
  }

  ghost predicate Complete(cx: Task, s: State, p: Addr) {
    && p in cx.G && p in s.copied && s.copied[p] in s.zv
    && var v := s.zv[s.copied[p]].value;
       match cx.G[p]
       case Leaf(w) => v == w
       case Arr(size, elems) =>
         && v.Array? && v.ht in s.threads
         && CopiedTable(s.tab, s.bkt, v.ht, s.threads[v.ht], size, elems, s.copied)
         && forall i :: 0 <= i < |elems| ==> Slot_(p, i) in s.edges
  }

  // Every copy that is not still under construction is complete.
  ghost predicate Completes(cx: Task, s: State, stack: set<Addr>) {
    forall p :: p in s.copied && p !in stack ==> Complete(cx, s, p)
  }

  // No two complete copies share a table.
  ghost predicate OwnTables(cx: Task, s: State, stack: set<Addr>) {
    forall p, q ::
      (p in s.copied && q in s.copied && p != q && p !in stack && q !in stack
       && p in cx.G && q in cx.G && cx.G[p].Arr? && cx.G[q].Arr? && s.copied[p] in s.zv && s.copied[q] in s.zv)
      ==> s.zv[s.copied[p]].value != s.zv[s.copied[q]].value
  }

  // From the garbage-collected heap nothing is left over.
  ghost predicate NoGarbage(cx: Task, s: State, extra: set<Addr>) {
    cx.usegc ==> forall a :: a in s.zv && cx.base <= a ==> a in extra || a in s.copied.Values
  }

  ghost predicate Good(cx: Task, s: State, stack: set<Addr>, extra: set<Addr>) {
    && Bounded(cx, s) && SourceIn(cx, s) && Memo(cx, s, extra) && stack <= s.copied.Keys
    && Edges(cx, s) && Counts(cx, s) && Completes(cx, s, stack) && OwnTables(cx, s, stack) && NoGarbage(cx, s, extra)
    && Reached(cx, s)
  }

  // Nothing is copied that the root does not lead to.
  ghost predicate Reached(cx: Task, s: State) {
    forall p :: p in s.copied ==> Reachable(cx.G, cx.root, p)
  }

  // ---------- what any stretch of copying leaves alone ----------

  // Nothing allocated before has moved: tables and buckets are untouched, values
  // keep everything but refcount and isref, the memo table only grows; dead may be freed.
  ghost predicate Grows(cx: Task, s: State, s': State, dead: set<Addr>) {
    && s.next <= s'.next && s.edges <= s'.edges
    && SameBelow(cx, s, s') && ValuesKept(s, s', dead) && CellsKept(s, s') && MemoKept(s, s') && ThreadsKept(s, s')
  }

  ghost predicate ValuesKept(s: State, s': State, dead: set<Addr>) {
    forall a :: a in s.zv && a !in dead ==> a in s'.zv && s'.zv[a].value == s.zv[a].value
  }

  ghost predicate CellsKept(s: State, s': State) {
    && (forall a :: a in s.tab ==> a in s'.tab && s'.tab[a] == s.tab[a])
    && (forall a :: a in s.bkt ==> a in s'.bkt && s'.bkt[a] == s.bkt[a])
  }

  ghost predicate MemoKept(s: State, s': State) {
    forall p :: p in s.copied ==> p in s'.copied && s'.copied[p] == s.copied[p]
  }

  ghost predicate ThreadsKept(s: State, s': State) {
    && (forall t :: t in s.threads ==> t in s'.threads && s'.threads[t] == s.threads[t])
    && (forall t :: t in s'.threads && t !in s.threads ==> s.next <= t && forall i :: 0 <= i < |s'.threads[t]| ==>
        s.next <= s'.threads[t][i])
  }

  // New references start at values that were not copied before.
  ghost predicate NewEdges(s: State, s': State, e: Edge) {
    && e in s'.edges
    && forall f :: f in s'.edges && f !in s.edges && f != e ==>
       f.Slot_? && f.parent !in s.copied && f.parent in s'.copied
  }

  lemma GrowsTrans(cx: Task, s0: State, s1: State, s2: State, dead: set<Addr>)
    requires Grows(cx, s0, s1, dead) && Grows(cx, s1, s2, dead)
    ensures Grows(cx, s0, s2, dead)
  {}

  // ---------- frames ----------

  lemma SourceFrame(cx: Task, s: State, s': State)
    requires SourceIn(cx, s) && SameBelow(cx, s, s')
    ensures SourceIn(cx, s')
  {
    forall p | p in cx.G ensures p < cx.base && SourceNode(s'.zv, s'.tab, s'.bkt, cx.order, p, cx.G[p]) {
      assert SourceNode(s.zv, s.tab, s.bkt, cx.order, p, cx.G[p]);
    }
  }

  // A finished table stays finished while its own cells do.
  lemma TableFrame(s: State, s': State, t: Addr, ord: seq<Addr>, size: nat, elems: seq<Elem>)
    requires CopiedTable(s.tab, s.bkt, t, ord, size, elems, s.copied)
    requires t in s'.tab && s'.tab[t] == s.tab[t]
    requires forall i :: 0 <= i < |ord| ==> ord[i] in s'.bkt && s'.bkt[ord[i]] == s.bkt[ord[i]]
    requires forall p :: p in s.copied ==> p in s'.copied && s'.copied[p] == s.copied[p]
    ensures CopiedTable(s'.tab, s'.bkt, t, ord, size, elems, s'.copied)
  {
    hide Heads;
    forall i | 0 <= i < |elems|
      ensures elems[i].child in s'.copied && s'.bkt[ord[i]] == Expected(elems, size, ord, s'.copied, i, |elems|) {
      assert s.bkt[ord[i]] == Expected(elems, size, ord, s.copied, i, |elems|);
    }
  }

  lemma CompleteFrame(cx: Task, s: State, s': State, p: Addr)
    requires Complete(cx, s, p)
    requires s.copied[p] in s'.zv && s'.zv[s.copied[p]].value == s.zv[s.copied[p]].value
    requires forall t :: t in s.threads ==> t in s'.threads && s'.threads[t] == s.threads[t]
    requires forall t :: t in s.threads && t in s.tab ==> t in s'.tab && s'.tab[t] == s.tab[t]
    requires forall t, i :: t in s.threads && 0 <= i < |s.threads[t]| && s.threads[t][i] in s.bkt ==>
      s.threads[t][i] in s'.bkt && s'.bkt[s.threads[t][i]] == s.bkt[s.threads[t][i]]
    requires forall q :: q in s.copied ==> q in s'.copied && s'.copied[q] == s.copied[q]
    requires s.edges <= s'.edges
    ensures Complete(cx, s', p)
  {
    if cx.G[p].Arr? {
      var t := s.zv[s.copied[p]].value.ht;
      TableFrame(s, s', t, s.threads[t], cx.G[p].size, cx.G[p].elems);
    }
  }

  lemma Placed(cx: Task, s: State)
    requires SourceIn(cx, s)
    ensures SourcePlaced(cx, s)
  {
    forall p | p in cx.G ensures p < cx.base && p in s.zv { SourceValue(cx, s, p); }
  }

  // ---------- steps ----------

  function Alloc(s: State, z: Zval): State {
    s.(zv := s.zv[s.next := z], next := s.next + 1)
  }

  // Completeness, under a step that leaves finished things alone.
  lemma CompletesFrame(cx: Task, s: State, s': State, stack: set<Addr>, dead: set<Addr>)
    requires Completes(cx, s, stack) && Grows(cx, s, s', dead) && Memo(cx, s, dead)
    requires forall p :: p in s'.copied ==> p in s.copied || p in stack
    ensures Completes(cx, s', stack)
  {
    hide Complete, SameBelow;
    forall p | p in s'.copied && p !in stack ensures Complete(cx, s', p) {
      CompletePlace(cx, s, p);
      CompleteFrame(cx, s, s', p);
    }
  }

  lemma CompletePlace(cx: Task, s: State, p: Addr)
    requires Complete(cx, s, p)
    ensures p in s.copied && s.copied[p] in s.zv
  {}

  lemma AllocGood(cx: Task, s: State, stack: set<Addr>, extra: set<Addr>, z: Zval)
    requires Good(cx, s, stack, extra)
    ensures Good(cx, Alloc(s, z), stack, extra + {s.next})
    ensures Grows(cx, s, Alloc(s, z), {})
  {
    hide Completes, SourceIn;
    var s' := Alloc(s, z);
    assert Grows(cx, s, s', {});
    Placed(cx, s);
    AllocParts(cx, s, stack, extra, z);
    SourceFrame(cx, s, s');
    MemoWeaken(cx, s, extra, {});
    CompletesFrame(cx, s, s', stack, {});
  }

  lemma MemoWeaken(cx: Task, s: State, extra: set<Addr>, less: set<Addr>)
    requires Memo(cx, s, extra) && less <= extra
    ensures Memo(cx, s, less)
  {}

  lemma AllocParts(cx: Task, s: State, stack: set<Addr>, extra: set<Addr>, z: Zval)
    requires Bounded(cx, s) && Memo(cx, s, extra) && Edges(cx, s) && Counts(cx, s) && OwnTables(cx, s, stack)
      && NoGarbage(cx, s, extra)
    requires SourcePlaced(cx, s)
    ensures var s' := Alloc(s, z);
      Bounded(cx, s') && Memo(cx, s', extra + {s.next}) && Edges(cx, s') && Counts(cx, s') && OwnTables(cx, s', stack)
        && NoGarbage(cx, s', extra + {s.next})
  {
    hide Bounded, Memo, Edges, Counts, OwnTables, NoGarbage, SourcePlaced;
    AllocPlaces(cx, s, extra, z);
    AllocKeeps(cx, s, extra, z);
    AllocCounts(cx, s, extra, z);
    OwnFrame(cx, s, Alloc(s, z), stack);
  }

  lemma AllocPlaces(cx: Task, s: State, extra: set<Addr>, z: Zval)
    requires Bounded(cx, s) && Memo(cx, s, extra)
    ensures Bounded(cx, Alloc(s, z)) && Alloc(s, z).copied == s.copied
    ensures var s' := Alloc(s, z);
      forall p :: p in s.copied ==>
        s.copied[p] in s.zv && s.copied[p] in s'.zv && s'.zv[s.copied[p]] == s.zv[s.copied[p]]
  {}

  lemma AllocKeeps(cx: Task, s: State, extra: set<Addr>, z: Zval)
    requires Bounded(cx, s) && Memo(cx, s, extra) && Edges(cx, s) && NoGarbage(cx, s, extra)
    ensures var s' := Alloc(s, z);
      Memo(cx, s', extra + {s.next}) && Edges(cx, s') && NoGarbage(cx, s', extra + {s.next})
  {}

  lemma AllocCounts(cx: Task, s: State, extra: set<Addr>, z: Zval)
    requires Bounded(cx, s) && Memo(cx, s, extra) && Counts(cx, s) && SourcePlaced(cx, s)
    ensures Counts(cx, Alloc(s, z))
  {
    hide Into;
  }

  lemma OwnFrame(cx: Task, s: State, s': State, stack: set<Addr>)
    requires OwnTables(cx, s, stack) && s'.copied == s.copied
    requires forall p :: p in s.copied ==>
      s.copied[p] in s.zv && s.copied[p] in s'.zv && s'.zv[s.copied[p]].value == s.zv[s.copied[p]].value
    ensures OwnTables(cx, s', stack)
  {
    forall p, q | p in s'.copied && q in s'.copied && p != q && p !in stack && q !in stack
                  && p in cx.G && q in cx.G && cx.G[p].Arr? && cx.G[q].Arr?
      ensures s'.zv[s'.copied[p]].value != s'.zv[s'.copied[q]].value
    {
      assert s.zv[s.copied[p]].value != s.zv[s.copied[q]].value;
    }
  }

  // The source has been met before: its copy gets one more reference.
  function Hit(s: State, dst: Addr, src: Addr, e: Edge): State
    requires src in s.copied && src in s.zv && s.copied[src] in s.zv
  {
    var d := s.copied[src];
    var zv := s.zv[dst := s.zv[src]];
    s.(zv := zv[d := zv[d].(refcount := zv[d].refcount + 1, isref := zv[d].isref || s.zv[src].isref)],
      edges := s.edges + {e})
  }

  // e is a reference to src that has not been copied yet.
  ghost predicate Pending(cx: Task, s: State, e: Edge, src: Addr) {
    IsEdge(cx.G, e) && Target(cx.G, cx.root, e) == src && e !in s.edges && (e.Slot_? ==> e.parent in s.copied)
  }

  lemma IntoAdd(cx: Task, s: State, e: Edge, src: Addr, p: Addr)
    requires Pending(cx, s, e, src)
    ensures Into(cx.G, cx.root, s.edges + {e}, p) == Into(cx.G, cx.root, s.edges, p) + (if p == src then {e} else {})
    ensures |Into(cx.G, cx.root, s.edges + {e}, p)| == |Into(cx.G, cx.root, s.edges, p)| + (if p == src then 1 else 0)
  {
    assert Into(cx.G, cx.root, s.edges + {e}, p) == Into(cx.G, cx.root, s.edges, p) + (if p == src then {e} else {});
  }

  lemma HitGood(cx: Task, s: State, stack: set<Addr>, extra: set<Addr>, dst: Addr, src: Addr, e: Edge)
    requires Good(cx, s, stack, extra) && dst in extra && src in s.copied && Pending(cx, s, e, src)
    ensures src in s.zv && s.copied[src] in s.zv && s.copied[src] != dst
    ensures Good(cx, Hit(s, dst, src, e), stack, extra)
    ensures Grows(cx, s, Hit(s, dst, src, e), {dst})
    ensures NewEdges(s, Hit(s, dst, src, e), e)
  {
    hide Bounded, SourceIn, SourcePlaced, SameBelow, Memo, Edges, Counts, Completes, OwnTables, NoGarbage, Pending,
         Hit, Grows;
    Placed(cx, s);
    HitMoves(cx, s, stack, extra, dst, src, e);
    var s' := Hit(s, dst, src, e);
    SourceFrame(cx, s, s');
    MemoWeaken(cx, s, extra, {dst});
    CompletesFrame(cx, s, s', stack, {dst});
    HitCounts(cx, s, extra, dst, src, e);
    OwnFrame(cx, s, s', stack);
    PendingEdges(cx, s, s', e, src);
  }

  // Only values, the memo table and references have changed.
  ghost predicate ValuesOnly(cx: Task, s: State, s': State, dead: set<Addr>) {
    && s'.tab == s.tab && s'.bkt == s.bkt && s'.next == s.next && s'.threads == s.threads && s.edges <= s'.edges
    && (forall a :: a in s.zv ==>
        a in s'.zv && (a !in dead ==> s'.zv[a].value == s.zv[a].value) && (a < cx.base ==> s'.zv[a] == s.zv[a]))
    && (forall p :: p in s.copied ==> p in s'.copied && s'.copied[p] == s.copied[p])
  }

  lemma ValuesGrow(cx: Task, s: State, s': State, dead: set<Addr>)
    requires ValuesOnly(cx, s, s', dead)
    ensures SameBelow(cx, s, s') && Grows(cx, s, s', dead)
  {}

  lemma HitMoves(cx: Task, s: State, stack: set<Addr>, extra: set<Addr>, dst: Addr, src: Addr, e: Edge)
    requires Bounded(cx, s) && SourcePlaced(cx, s) && Memo(cx, s, extra) && NoGarbage(cx, s, extra) && dst in extra
      && src in s.copied
    ensures src in s.zv && s.copied[src] in s.zv && s.copied[src] != dst
    ensures var s' := Hit(s, dst, src, e);
      && Bounded(cx, s') && Memo(cx, s', extra) && NoGarbage(cx, s', extra)
      && SameBelow(cx, s, s') && Grows(cx, s, s', {dst}) && NewEdges(s, s', e)
      && s'.copied == s.copied && s'.edges == s.edges + {e}
      && forall p :: p in s.copied ==>
         s.copied[p] in s.zv && s.copied[p] in s'.zv && s'.zv[s.copied[p]].value == s.zv[s.copied[p]].value
  {
    hide SameBelow, Grows, Memo, Bounded, ValuesOnly, NoGarbage, SourcePlaced;
    CopyPlace(cx, s, extra, src, dst);
    var s' := Hit(s, dst, src, e);
    HitValues(cx, s, dst, src, e);
    ValuesGrow(cx, s, s', {dst});
    ValuesBounded(cx, s, s', {dst});
    MemoFrame(cx, s, s', extra);
    GarbageFrame(cx, s, s', extra);
    CopyPlaces(cx, s, extra, dst);
  }

  lemma HitValues(cx: Task, s: State, dst: Addr, src: Addr, e: Edge)
    requires src in s.copied && src in s.zv && src < cx.base && s.copied[src] in s.zv && cx.base <= s.copied[src]
    requires dst in s.zv && cx.base <= dst && s.copied[src] != dst
    ensures ValuesOnly(cx, s, Hit(s, dst, src, e), {dst}) && Hit(s, dst, src, e).zv.Keys == s.zv.Keys
    ensures forall a :: a in s.zv && a != dst ==> Hit(s, dst, src, e).zv[a].value == s.zv[a].value
  {
    assert Hit(s, dst, src, e).zv.Keys == s.zv.Keys;
  }

  // Where only values change, everything stays below next.
  lemma ValuesBounded(cx: Task, s: State, s': State, dead: set<Addr>)
    requires Bounded(cx, s) && ValuesOnly(cx, s, s', dead) && s'.zv.Keys == s.zv.Keys
    ensures Bounded(cx, s')
  {
    assert forall a :: a in s'.zv ==> a in s'.zv.Keys;
  }

  lemma GarbageFrame(cx: Task, s: State, s': State, extra: set<Addr>)
    requires NoGarbage(cx, s, extra) && s'.copied == s.copied && s'.zv.Keys == s.zv.Keys
    ensures NoGarbage(cx, s', extra)
  {
    assert forall a :: a in s'.zv ==> a in s'.zv.Keys;
  }

  lemma CopyPlace(cx: Task, s: State, extra: set<Addr>, src: Addr, dst: Addr)
    requires Memo(cx, s, extra) && SourcePlaced(cx, s) && dst in extra && src in s.copied
    ensures src in cx.G && src in s.zv && src < cx.base && s.copied[src] in s.zv && cx.base <= s.copied[src]
      && s.copied[src] != dst
    ensures dst in s.zv && cx.base <= dst
  {}

  lemma CopyPlaces(cx: Task, s: State, extra: set<Addr>, dst: Addr)
    requires Memo(cx, s, extra) && dst in extra
    ensures forall p :: p in s.copied ==> s.copied[p] in s.zv && s.copied[p] != dst
  {}

  lemma MemoFrame(cx: Task, s: State, s': State, extra: set<Addr>)
    requires Memo(cx, s, extra) && s'.copied == s.copied && s'.zv.Keys == s.zv.Keys
    ensures Memo(cx, s', extra)
  {}

  lemma PendingEdges(cx: Task, s: State, s': State, e: Edge, src: Addr)
    requires Edges(cx, s) && Pending(cx, s, e, src) && s'.edges == s.edges + {e} && src in s'.copied
    requires forall p :: p in s.copied ==> p in s'.copied
    ensures Edges(cx, s')
  {}

  lemma HitCounts(cx: Task, s: State, extra: set<Addr>, dst: Addr, src: Addr, e: Edge)
    requires Memo(cx, s, extra) && Counts(cx, s) && SourcePlaced(cx, s) && dst in extra && src in s.copied
      && Pending(cx, s, e, src)
    ensures Counts(cx, Hit(s, dst, src, e))
  {
    hide Into, Pending;
    var s' := Hit(s, dst, src, e);
    forall p | p in s'.copied && p in cx.G && s'.copied[p] in s'.zv && p in s'.zv
      ensures var n := |Into(cx.G, cx.root, s'.edges, p)|;
        n >= 1 && s'.zv[s'.copied[p]].refcount == n && s'.zv[s'.copied[p]].isref == (s'.zv[p].isref && n >= 2)
    {
      IntoAdd(cx, s, e, src, p);
    }
  }

  // The source is met for the first time: dst becomes its copy, still to be filled.
  function Begin(s: State, dst: Addr, src: Addr, e: Edge): State
    requires src in s.zv
  {
    s.(zv := s.zv[dst := Zval(s.zv[src].value, 1, false)], copied := s.copied[src := dst], edges := s.edges + {e})
  }

  lemma BeginGood(cx: Task, s: State, stack: set<Addr>, extra: set<Addr>, dst: Addr, src: Addr, e: Edge)
    requires Good(cx, s, stack, extra) && dst in extra && src in cx.G && src !in s.copied && Pending(cx, s, e, src)
    ensures src in s.zv
    ensures Good(cx, Begin(s, dst, src, e), stack + {src}, extra - {dst})
    ensures Grows(cx, s, Begin(s, dst, src, e), {dst})
    ensures NewEdges(s, Begin(s, dst, src, e), e)
  {
    hide Bounded, SourceIn, SourcePlaced, SameBelow, Memo, Edges, Counts, Completes, OwnTables, NoGarbage, Pending,
         Begin, Grows;
    Placed(cx, s);
    BeginMoves(cx, s, stack, extra, dst, src, e);
    var s' := Begin(s, dst, src, e);
    SourceFrame(cx, s, s');
    MemoWeaken(cx, s, extra, {dst});
    CompletesMore(cx, s, stack, src);
    CompletesFrame(cx, s, s', stack + {src}, {dst});
    BeginCounts(cx, s, extra, dst, src, e);
    BeginOwn(cx, s, extra, stack, dst, src, e);
    PendingEdges(cx, s, s', e, src);
    BeginGarbage(cx, s, extra, dst, src, e);
    BeginReached(cx, s, s', dst, src, e);
  }

  lemma ReachedFrame(cx: Task, s: State, s': State)
    requires Reached(cx, s) && s'.copied == s.copied
    ensures Reached(cx, s')
  {}

  lemma BeginReached(cx: Task, s: State, s': State, dst: Addr, src: Addr, e: Edge)
    requires Reached(cx, s) && Pending(cx, s, e, src) && s'.copied == s.copied[src := dst]
    ensures Reached(cx, s')
  {
    if e.Slot_? {
      ReachChild(cx.G, cx.root, e.parent, e.index);
    } else {
      assert Follow(cx.G, cx.root, []) == Some(src);
    }
  }

  lemma BeginMoves(cx: Task, s: State, stack: set<Addr>, extra: set<Addr>, dst: Addr, src: Addr, e: Edge)
    requires Bounded(cx, s) && SourcePlaced(cx, s) && Memo(cx, s, extra) && stack <= s.copied.Keys && dst in extra
      && src in cx.G && src !in s.copied
    ensures src in s.zv
    ensures var s' := Begin(s, dst, src, e);
      && Bounded(cx, s') && Memo(cx, s', extra - {dst}) && stack + {src} <= s'.copied.Keys
      && SameBelow(cx, s, s') && Grows(cx, s, s', {dst}) && NewEdges(s, s', e)
      && s'.copied == s.copied[src := dst] && s'.edges == s.edges + {e}
      && forall p :: p in s'.copied ==> p in s.copied || p in stack + {src}
  {
    hide SameBelow, Grows, Memo, Bounded, ValuesOnly;
    var s' := Begin(s, dst, src, e);
    ExtraPlace(cx, s, extra, dst);
    BeginValues(cx, s, dst, src, e);
    ValuesGrow(cx, s, s', {dst});
    ValuesBounded(cx, s, s', {dst});
    BeginMemo(cx, s, s', extra, dst, src);
  }

  lemma BeginValues(cx: Task, s: State, dst: Addr, src: Addr, e: Edge)
    requires src in s.zv && src !in s.copied && dst in s.zv && cx.base <= dst
    ensures ValuesOnly(cx, s, Begin(s, dst, src, e), {dst}) && Begin(s, dst, src, e).zv.Keys == s.zv.Keys
  {
    assert Begin(s, dst, src, e).zv.Keys == s.zv.Keys;
  }

  lemma ExtraPlace(cx: Task, s: State, extra: set<Addr>, dst: Addr)
    requires Memo(cx, s, extra) && dst in extra
    ensures dst in s.zv && cx.base <= dst
  {}

  lemma BeginMemo(cx: Task, s: State, s': State, extra: set<Addr>, dst: Addr, src: Addr)
    requires Memo(cx, s, extra) && dst in extra && src in cx.G && src !in s.copied
    requires s'.copied == s.copied[src := dst] && s'.zv.Keys == s.zv.Keys
    ensures Memo(cx, s', extra - {dst})
  {}

  lemma BeginGarbage(cx: Task, s: State, extra: set<Addr>, dst: Addr, src: Addr, e: Edge)
    requires NoGarbage(cx, s, extra) && src in s.zv && src !in s.copied
    ensures NoGarbage(cx, Begin(s, dst, src, e), extra - {dst})
  {
    var s' := Begin(s, dst, src, e);
    assert s'.copied[src] == dst;
    forall a | a in s.copied.Values ensures a in s'.copied.Values {
      var p :| p in s.copied && s.copied[p] == a;
      assert s'.copied[p] == a;
    }
  }

  lemma CompletesMore(cx: Task, s: State, stack: set<Addr>, src: Addr)
    requires Completes(cx, s, stack)
    ensures Completes(cx, s, stack + {src})
  {}

  lemma BeginCounts(cx: Task, s: State, extra: set<Addr>, dst: Addr, src: Addr, e: Edge)
    requires Memo(cx, s, extra) && Counts(cx, s) && Edges(cx, s) && SourcePlaced(cx, s)
    requires dst in extra && src in cx.G && src !in s.copied && Pending(cx, s, e, src)
    ensures Counts(cx, Begin(s, dst, src, e))
  {
    hide Memo, Edges, Counts, Pending, Into;
    var s' := Begin(s, dst, src, e);
    forall p | p in s'.copied && p in cx.G && s'.copied[p] in s'.zv && p in s'.zv
      ensures CountAt(cx, s', p)
    {
      BeginCount(cx, s, extra, dst, src, e, p);
    }
    CountsAll(cx, s');
  }

  // The clause of Counts for one value.
  ghost predicate CountAt(cx: Task, s: State, p: Addr)
    requires p in s.copied && s.copied[p] in s.zv && p in s.zv
  {
    var n := |Into(cx.G, cx.root, s.edges, p)|;
    n >= 1 && s.zv[s.copied[p]].refcount == n && s.zv[s.copied[p]].isref == (s.zv[p].isref && n >= 2)
  }

  lemma CountsAll(cx: Task, s: State)
    requires forall p :: p in s.copied && p in cx.G && s.copied[p] in s.zv && p in s.zv ==> CountAt(cx, s, p)
    ensures Counts(cx, s)
  {
    hide Into;
  }

  lemma BeginCount(cx: Task, s: State, extra: set<Addr>, dst: Addr, src: Addr, e: Edge, p: Addr)
    requires Memo(cx, s, extra) && Counts(cx, s) && Edges(cx, s) && SourcePlaced(cx, s)
    requires dst in extra && src in cx.G && src !in s.copied && Pending(cx, s, e, src)
    requires src in s.zv && p in Begin(s, dst, src, e).copied && p in cx.G
      && Begin(s, dst, src, e).copied[p] in Begin(s, dst, src, e).zv
    ensures p in Begin(s, dst, src, e).zv && CountAt(cx, Begin(s, dst, src, e), p)
  {
    hide Into, Pending;
    IntoAdd(cx, s, e, src, p);
    if p == src { IntoNone(cx, s, p); }
  }

  lemma IntoNone(cx: Task, s: State, p: Addr)
    requires Edges(cx, s) && p !in s.copied
    ensures Into(cx.G, cx.root, s.edges, p) == {}
  {}

  lemma BeginOwn(cx: Task, s: State, extra: set<Addr>, stack: set<Addr>, dst: Addr, src: Addr, e: Edge)
    requires OwnTables(cx, s, stack) && Memo(cx, s, extra) && dst in extra && src in s.zv && src !in s.copied
    ensures OwnTables(cx, Begin(s, dst, src, e), stack + {src})
  {
    var s' := Begin(s, dst, src, e);
    forall p, q | p in s'.copied && q in s'.copied && p != q && p !in stack + {src} && q !in stack + {src}
                  && p in cx.G && q in cx.G && cx.G[p].Arr? && cx.G[q].Arr?
      ensures s'.zv[s'.copied[p]].value != s'.zv[s'.copied[q]].value
    {
      assert s.zv[s.copied[p]].value != s.zv[s.copied[q]].value;
    }
  }

  // A copied leaf is complete.
  lemma LeafDone(cx: Task, s: State, stack: set<Addr>, extra: set<Addr>, src: Addr)
    requires Good(cx, s, stack + {src}, extra) && src in s.copied && src in cx.G && cx.G[src].Leaf?
    requires s.copied[src] in s.zv && src in s.zv && s.zv[s.copied[src]].value == s.zv[src].value
    ensures Good(cx, s, stack, extra)
  {
    hide Bounded, SourceIn, Memo, Edges, Counts, Complete, NoGarbage;
    SourceValue(cx, s, src);
    assert Complete(cx, s, src) by { LeafComplete(cx, s, src); }
  }

  lemma SourceValue(cx: Task, s: State, src: Addr)
    requires SourceIn(cx, s) && src in cx.G
    ensures src in s.zv && src < cx.base && SourceNode(s.zv, s.tab, s.bkt, cx.order, src, cx.G[src])
  {
    assert SourceNode(s.zv, s.tab, s.bkt, cx.order, src, cx.G[src]);
  }

  lemma LeafComplete(cx: Task, s: State, src: Addr)
    requires src in s.copied && src in cx.G && cx.G[src].Leaf?
      && SourceNode(s.zv, s.tab, s.bkt, cx.order, src, cx.G[src])
    requires s.copied[src] in s.zv && s.zv[s.copied[src]].value == s.zv[src].value
    ensures Complete(cx, s, src)
  {}

  // The copy of an array gets its finished table.
  function Attach(s: State, src: Addr, t: Addr, ord: seq<Addr>): State
    requires src in s.copied && s.copied[src] in s.zv
  {
    var d := s.copied[src];
    s.(zv := s.zv[d := s.zv[d].(value := Array(t))], threads := s.threads[t := ord])
  }

  // t and ord are a finished table that no complete copy owns yet.
  ghost predicate NewTable(cx: Task, s: State, src: Addr, t: Addr, ord: seq<Addr>) {
    && src in cx.G && cx.G[src].Arr?
    && CopiedTable(s.tab, s.bkt, t, ord, cx.G[src].size, cx.G[src].elems, s.copied)
    && t !in s.threads && cx.base <= t < s.next
    && (forall i :: 0 <= i < |ord| ==> cx.base <= ord[i] < s.next)
    && forall i :: 0 <= i < |cx.G[src].elems| ==> Slot_(src, i) in s.edges
  }

  lemma AttachGood(cx: Task, s: State, stack: set<Addr>, extra: set<Addr>, src: Addr, t: Addr, ord: seq<Addr>)
    requires Good(cx, s, stack + {src}, extra) && src in s.copied && src !in stack && s.copied[src] in s.zv
    requires NewTable(cx, s, src, t, ord)
    ensures Good(cx, Attach(s, src, t, ord), stack, extra)
  {
    hide Bounded, SourceIn, SourcePlaced, SameBelow, Memo, Edges, Counts, Completes, OwnTables, NoGarbage, Attach,
         NewTable, Reached;
    Placed(cx, s);
    AttachMoves(cx, s, stack, extra, src, t, ord);
    ReachedFrame(cx, s, Attach(s, src, t, ord));
    SourceFrame(cx, s, Attach(s, src, t, ord));
    AttachCompletes(cx, s, stack, extra, src, t, ord);
    AttachOwn(cx, s, stack, extra, src, t, ord);
  }

  lemma AttachMoves(cx: Task, s: State, stack: set<Addr>, extra: set<Addr>, src: Addr, t: Addr, ord: seq<Addr>)
    requires Bounded(cx, s) && SourcePlaced(cx, s) && Memo(cx, s, extra) && Edges(cx, s) && Counts(cx, s)
      && NoGarbage(cx, s, extra)
    requires stack + {src} <= s.copied.Keys && src in s.copied && s.copied[src] in s.zv && NewTable(cx, s, src, t, ord)
    ensures var s' := Attach(s, src, t, ord);
      && Bounded(cx, s') && Memo(cx, s', extra) && Edges(cx, s') && Counts(cx, s') && NoGarbage(cx, s', extra)
      && stack <= s'.copied.Keys && SameBelow(cx, s, s') && s'.copied == s.copied
  {
    hide Counts, CopiedTable, Memo, Bounded, NoGarbage;
    var s' := Attach(s, src, t, ord);
    assert s'.zv.Keys == s.zv.Keys;
    CopiesHigh(cx, s, extra);
    AttachBounded(cx, s, src, t, ord);
    MemoFrame(cx, s, s', extra);
    GarbageFrame(cx, s, s', extra);
    CountsFrame(cx, s, s');
  }

  lemma AttachBounded(cx: Task, s: State, src: Addr, t: Addr, ord: seq<Addr>)
    requires Bounded(cx, s) && src in s.copied && s.copied[src] in s.zv && cx.base <= s.copied[src]
      && NewTable(cx, s, src, t, ord)
    ensures Bounded(cx, Attach(s, src, t, ord)) && SameBelow(cx, s, Attach(s, src, t, ord))
  {
    hide CopiedTable;
  }

  lemma CopiesHigh(cx: Task, s: State, extra: set<Addr>)
    requires Memo(cx, s, extra)
    ensures forall p :: p in s.copied ==> cx.base <= s.copied[p] && s.copied[p] in s.zv
  {}

  lemma CountsFrame(cx: Task, s: State, s': State)
    requires Counts(cx, s) && SourcePlaced(cx, s) && s'.copied == s.copied && s'.edges == s.edges
      && s'.zv.Keys == s.zv.Keys
    requires forall a :: a in s.zv ==> s'.zv[a].refcount == s.zv[a].refcount && s'.zv[a].isref == s.zv[a].isref
    ensures Counts(cx, s')
  {
    hide Into;
  }

  lemma AttachCompletes(cx: Task, s: State, stack: set<Addr>, extra: set<Addr>, src: Addr, t: Addr, ord: seq<Addr>)
    requires Completes(cx, s, stack + {src}) && Memo(cx, s, extra) && src in s.copied && s.copied[src] in s.zv
      && NewTable(cx, s, src, t, ord)
    ensures Completes(cx, Attach(s, src, t, ord), stack)
  {
    hide CopiedTable, Complete;
    var s' := Attach(s, src, t, ord);
    forall p | p in s'.copied && p !in stack ensures Complete(cx, s', p) {
      if p == src {
        assert Complete(cx, s', src) by { AttachComplete(cx, s, src, t, ord); }
      } else {
        CompleteFrame(cx, s, s', p);
      }
    }
  }

  lemma AttachComplete(cx: Task, s: State, src: Addr, t: Addr, ord: seq<Addr>)
    requires src in s.copied && s.copied[src] in s.zv && NewTable(cx, s, src, t, ord)
    ensures Complete(cx, Attach(s, src, t, ord), src)
  {
    hide CopiedTable;
  }

  lemma CompleteTable(cx: Task, s: State, p: Addr)
    requires Complete(cx, s, p) && cx.G[p].Arr?
    ensures s.zv[s.copied[p]].value.Array? && s.zv[s.copied[p]].value.ht in s.threads
  {}

  lemma AttachOwn(cx: Task, s: State, stack: set<Addr>, extra: set<Addr>, src: Addr, t: Addr, ord: seq<Addr>)
    requires OwnTables(cx, s, stack + {src}) && Completes(cx, s, stack + {src}) && Memo(cx, s, extra)
    requires src in s.copied && s.copied[src] in s.zv && NewTable(cx, s, src, t, ord)
    ensures OwnTables(cx, Attach(s, src, t, ord), stack)
  {
    hide CopiedTable, Complete;
    var s' := Attach(s, src, t, ord);
    forall p, q | p in s'.copied && q in s'.copied && p != q && p !in stack && q !in stack
                  && p in cx.G && q in cx.G && cx.G[p].Arr? && cx.G[q].Arr?
      ensures s'.zv[s'.copied[p]].value != s'.zv[s'.copied[q]].value
    {
      if p == src {
        CompleteTable(cx, s, q);
      } else if q == src {
        CompleteTable(cx, s, p);
      } else {
        assert s.zv[s.copied[p]].value != s.zv[s.copied[q]].value;
      }
    }
  }

  // ---------- building a table ----------

  // Tables and buckets have changed only at the cells, which nothing finished owns.
  ghost predicate OnlyCells(cx: Task, s: State, s': State, cells: set<Addr>) {
    && s'.zv == s.zv && s'.copied == s.copied && s'.threads == s.threads && s'.edges == s.edges && s.next <= s'.next
    && (forall a :: a in s.tab && a !in cells ==> a in s'.tab && s'.tab[a] == s.tab[a])
    && (forall a :: a in s.bkt && a !in cells ==> a in s'.bkt && s'.bkt[a] == s.bkt[a])
    && (forall a :: a in s'.tab && a !in s.tab ==> a in cells)
    && (forall a :: a in s'.bkt && a !in s.bkt ==> a in cells)
    && (forall a :: a in cells ==> cx.base <= a < s'.next && Unowned(s, a))
  }

  ghost predicate Unowned(s: State, a: Addr) {
    a !in s.threads && forall t, i :: t in s.threads && 0 <= i < |s.threads[t]| ==> s.threads[t][i] != a
  }

  lemma CellsGood(cx: Task, s: State, s': State, stack: set<Addr>, extra: set<Addr>, cells: set<Addr>)
    requires Good(cx, s, stack, extra) && OnlyCells(cx, s, s', cells)
    ensures Good(cx, s', stack, extra)
  {
    hide SourceIn, Memo, Edges, Counts, Completes, OwnTables, NoGarbage;
    CellsBelow(cx, s, s', cells);
    SourceFrame(cx, s, s');
    CellsSame(cx, s, s', stack, extra);
    CellsCompletes(cx, s, s', stack, extra, cells);
  }

  lemma CellsBelow(cx: Task, s: State, s': State, cells: set<Addr>)
    requires OnlyCells(cx, s, s', cells)
    ensures SameBelow(cx, s, s')
  {}

  lemma CellsSame(cx: Task, s: State, s': State, stack: set<Addr>, extra: set<Addr>)
    requires s'.zv == s.zv && s'.copied == s.copied && s'.threads == s.threads && s'.edges == s.edges
    requires Memo(cx, s, extra) && Edges(cx, s) && Counts(cx, s) && OwnTables(cx, s, stack) && NoGarbage(cx, s, extra)
    ensures Memo(cx, s', extra) && Edges(cx, s') && Counts(cx, s') && OwnTables(cx, s', stack)
      && NoGarbage(cx, s', extra)
  {
    hide Into;
  }

  lemma CellsCompletes(cx: Task, s: State, s': State, stack: set<Addr>, extra: set<Addr>, cells: set<Addr>)
    requires Completes(cx, s, stack) && Memo(cx, s, extra) && OnlyCells(cx, s, s', cells)
    ensures Completes(cx, s', stack)
  {
    hide Complete;
    forall p | p in s'.copied && p !in stack ensures Complete(cx, s', p) {
      CompletePlace(cx, s, p);
      CompleteFrame(cx, s, s', p);
    }
  }
}
