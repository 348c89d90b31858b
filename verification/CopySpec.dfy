/**
 Value graphs in memory, and what a deep copy of one must look like.
 Addresses are numbers; 0 is the null pointer.
 */
module CopySpec {
  import opened Options
  import opened Slots

  type Addr = nat

  // Plain stands for null, bool, long, double and resource values.
  datatype Value = Plain(n: int) | Str(s: string) | Array(ht: Addr)

  datatype Zval = Zval(value: Value, refcount: nat, isref: bool)

  datatype Table = Table(size: nat, count: nat, slots: seq<Addr>, head: Addr, tail: Addr, cursor: Addr)

  // next and last link the buckets of one slot, listNext and listLast all of them.
  datatype Bucket = Bucket(h: nat, key: string, data: Addr, next: Addr, last: Addr, listNext: Addr, listLast: Addr)

  // The graph itself: what a value is, with children named by the address of
  // their source value.
  datatype Elem = Elem(h: nat, key: string, child: Addr)
  datatype Node = Leaf(value: Value) | Arr(size: nat, elems: seq<Elem>)
  type Graph = map<Addr, Node>

  // ---------- a source graph in memory ----------

  function At(s: seq<Addr>, i: int): Addr {
    if 0 <= i < |s| then s[i] else 0
  }

  // t is a table whose list thread visits the buckets ord, carrying elems.
  ghost predicate SourceTable(tab: map<Addr, Table>, bkt: map<Addr, Bucket>, t: Addr, ord: seq<Addr>, size: nat,
                              elems: seq<Elem>) {
    && t in tab && tab[t].size == size >= 1 && tab[t].count == |elems| == |ord|
    && tab[t].head == At(ord, 0)
    && (forall i :: 0 <= i < |ord| ==>
         && ord[i] != 0 && ord[i] in bkt
         && bkt[ord[i]].h == elems[i].h && bkt[ord[i]].key == elems[i].key && bkt[ord[i]].data == elems[i].child)
    && (forall i, j :: 0 <= i < |ord| && j == i + 1 ==> bkt[ord[i]].listNext == At(ord, j))
  }

  ghost predicate SourceNode(zv: map<Addr, Zval>, tab: map<Addr, Table>, bkt: map<Addr, Bucket>,
                             order: map<Addr, seq<Addr>>, p: Addr, node: Node) {
    p in zv &&
    match node
    case Leaf(v) => zv[p].value == v && !v.Array?
    case Arr(size, elems) =>
      && zv[p].value.Array? && zv[p].value.ht in order
      && SourceTable(tab, bkt, zv[p].value.ht, order[zv[p].value.ht], size, elems)
  }

  ghost predicate Closed(G: Graph) {
    forall p, i :: p in G && G[p].Arr? && 0 <= i < |G[p].elems| ==> G[p].elems[i].child in G
  }

  // ---------- what a copied table must look like ----------

  // 1 + the last position before k whose hash falls in slot n, or 0.
  function Last(elems: seq<Elem>, size: nat, n: nat, k: nat): (r: nat)
    requires size >= 1 && k <= |elems|
    ensures r <= k
    ensures r > 0 ==> Slot(elems[r - 1].h, size) == n
    ensures forall j :: r <= j < k ==> Slot(elems[j].h, size) != n
  {
    if k == 0 then 0 else if Slot(elems[k - 1].h, size) == n then k else Last(elems, size, n, k - 1)
  }

  // The first position in from..k whose hash falls in slot n, or k.
  function First(elems: seq<Elem>, size: nat, n: nat, from: nat, k: nat): (r: nat)
    requires size >= 1 && from <= k <= |elems|
    ensures from <= r <= k
    ensures r < k ==> Slot(elems[r].h, size) == n
    ensures forall j :: from <= j < r ==> Slot(elems[j].h, size) != n
    decreases k - from
  {
    if from == k then k else if Slot(elems[from].h, size) == n then from else First(elems, size, n, from + 1, k)
  }

  // Bucket i after the first k elements have been copied into the buckets ord.
  function Expected(elems: seq<Elem>, size: nat, ord: seq<Addr>, copied: map<Addr, Addr>, i: nat, k: nat): Bucket
    requires size >= 1 && i < k <= |elems| && k <= |ord| && elems[i].child in copied
  {
    var n := Slot(elems[i].h, size);
    var f := First(elems, size, n, i + 1, k);
    Bucket(elems[i].h, elems[i].key, copied[elems[i].child],
           At(ord, Last(elems, size, n, i) - 1), if f < k then ord[f] else 0,
           if i + 1 < k then ord[i + 1] else 0, At(ord, i - 1))
  }

  // The buckets ord hold the first k elements: every slot chain and the list
  // thread are consistent in both directions.
  ghost predicate Buckets(bkt: map<Addr, Bucket>, size: nat, elems: seq<Elem>, ord: seq<Addr>,
                          copied: map<Addr, Addr>, k: nat) {
    && size >= 1 && k <= |elems| && |ord| == k
    && (forall i :: 0 <= i < k ==> elems[i].child in copied && ord[i] in bkt && ord[i] != 0)
    && (forall i, j :: 0 <= i < j < k ==> ord[i] != ord[j])
    && (forall i {:trigger Expected(elems, size, ord, copied, i, k)} :: 0 <= i < k ==>
        bkt[ord[i]] == Expected(elems, size, ord, copied, i, k))
  }

  ghost predicate Heads(slots: seq<Addr>, size: nat, elems: seq<Elem>, ord: seq<Addr>, k: nat) {
    && size >= 1 && k <= |elems| && |ord| == k && |slots| == size
    && forall n :: 0 <= n < size ==> slots[n] == At(ord, Last(elems, size, n, k) - 1)
  }

  // A finished copy of a table.
  ghost predicate CopiedTable(tab: map<Addr, Table>, bkt: map<Addr, Bucket>, t: Addr, ord: seq<Addr>, size: nat,
                              elems: seq<Elem>, copied: map<Addr, Addr>) {
    && t in tab && tab[t].size == size && tab[t].count == |elems|
    && Buckets(bkt, size, elems, ord, copied, |elems|)
    && Heads(tab[t].slots, size, elems, ord, |elems|)
    && tab[t].head == At(ord, 0) && tab[t].tail == At(ord, |ord| - 1) && tab[t].cursor == tab[t].head
  }

  // ---------- references ----------

  datatype Edge = Root | Slot_(parent: Addr, index: nat)

  ghost predicate IsEdge(G: Graph, e: Edge) {
    e.Slot_? ==> e.parent in G && G[e.parent].Arr? && e.index < |G[e.parent].elems|
  }

  ghost function Target(G: Graph, root: Addr, e: Edge): Addr
    requires IsEdge(G, e)
  {
    if e.Root? then root else G[e.parent].elems[e.index].child
  }

  // The references of edges to the value p.
  ghost function Into(G: Graph, root: Addr, edges: set<Edge>, p: Addr): set<Edge> {
    set e | e in edges && IsEdge(G, e) && Target(G, root, e) == p
  }

  // ---------- paths ----------

  // The value that the element positions of a path lead to.
  ghost function Follow(G: Graph, root: Addr, path: seq<nat>): Option<Addr> {
    if path == [] then Some(root) else
    match Follow(G, root, path[..|path| - 1])
    case None => None
    case Some(q) =>
      var i := path[|path| - 1];
      if q in G && G[q].Arr? && i < |G[q].elems| then Some(G[q].elems[i].child) else None
  }

  ghost predicate Reachable(G: Graph, root: Addr, p: Addr) {
    exists path :: Follow(G, root, path) == Some(p)
  }

  lemma ReachChild(G: Graph, root: Addr, q: Addr, i: nat)
    requires Reachable(G, root, q) && q in G && G[q].Arr? && i < |G[q].elems|
    ensures Reachable(G, root, G[q].elems[i].child)
  {
    var path :| Follow(G, root, path) == Some(q);
    assert (path + [i])[..|path|] == path;
    assert Follow(G, root, path + [i]) == Some(G[q].elems[i].child);
  }
}
