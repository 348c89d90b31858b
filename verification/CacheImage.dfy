/** The cache in memory: slots linked by next pointers. 0 is the null pointer. */
module CacheImage {
  import opened Slots
  import opened CacheSpec
  import opened CacheSteps
  import opened CacheRuns

  type Addr = nat

  datatype Cell = Cell(entry: Entry, next: Addr)

  // A place that holds a slot pointer: the head of a chain, the head of the gc
  // list, or the next field of a slot.
  datatype Link = Chain(n: nat) | Gc | Next(a: Addr)

  function IdAt(es: seq<Entry>, i: int): Addr {
    if 0 <= i < |es| then es[i].id else 0
  }

  // The list that starts at head holds es.
  ghost predicate ListIs(mem: map<Addr, Cell>, head: Addr, es: seq<Entry>) {
    && head == IdAt(es, 0)
    && forall i {:trigger SlotIs(mem, es, i)} :: 0 <= i < |es| ==> SlotIs(mem, es, i)
  }

  // Slot i of the list es is in memory and leads to the next one.
  ghost predicate SlotIs(mem: map<Addr, Cell>, es: seq<Entry>, i: nat)
    requires i < |es|
  {
    es[i].id != 0 && es[i].id in mem && mem[es[i].id] == Cell(es[i], IdAt(es, i + 1))
  }

  // Every address in use is a live entry of its own name.
  ghost predicate Allotted(mem: map<Addr, Cell>, st: State) {
    forall a :: a in mem ==> 0 < a < st.next && a !in st.freed
  }

  ghost predicate Repr(mem: map<Addr, Cell>, heads: seq<Addr>, gc: Addr, st: State) {
    && |heads| == |st.chains|
    && (forall n :: 0 <= n < |heads| ==> ListIs(mem, heads[n], st.chains[n]))
    && ListIs(mem, gc, st.gc)
    && Allotted(mem, st)
  }

  // Nothing on any list has this address.
  ghost predicate Absent(st: State, a: Addr) {
    && (forall n, i :: 0 <= n < |st.chains| && 0 <= i < |st.chains[n]| ==> st.chains[n][i].id != a)
    && forall i :: 0 <= i < |st.gc| ==> st.gc[i].id != a
  }

  // ---------- one list ----------

  lemma ListFrame(mem: map<Addr, Cell>, mem': map<Addr, Cell>, head: Addr, es: seq<Entry>)
    requires ListIs(mem, head, es)
    requires forall i :: 0 <= i < |es| && es[i].id in mem ==> es[i].id in mem' && mem'[es[i].id] == mem[es[i].id]
    ensures ListIs(mem', head, es)
  {
    forall i | 0 <= i < |es| ensures SlotIs(mem', es, i) { assert SlotIs(mem, es, i); }
  }

  lemma UnlinkFirst(mem: map<Addr, Cell>, head: Addr, es: seq<Entry>)
    requires ListIs(mem, head, es) && es != []
    ensures head in mem && ListIs(mem, mem[head].next, Without(es, 0))
  {
    assert SlotIs(mem, es, 0);
    var es' := Without(es, 0);
    assert es' == es[1..];
    forall i | 0 <= i < |es'| ensures SlotIs(mem, es', i) { assert SlotIs(mem, es, i + 1); }
  }

  lemma UnlinkLater(mem: map<Addr, Cell>, head: Addr, es: seq<Entry>, i: nat)
    requires ListIs(mem, head, es) && 0 < i < |es| && Differ(es)
    ensures es[i - 1].id in mem && es[i].id in mem
    ensures var q := es[i - 1].id; ListIs(mem[q := mem[q].(next := mem[es[i].id].next)], head, Without(es, i))
  {
    var es' := Without(es, i);
    assert SlotIs(mem, es, i - 1) && SlotIs(mem, es, i);
    var q := es[i - 1].id;
    var mem' := mem[q := mem[q].(next := mem[es[i].id].next)];
    forall j | 0 <= j < |es'| ensures SlotIs(mem', es', j) {
      var k := if j < i then j else j + 1;
      assert es'[j] == es[k] && SlotIs(mem, es, k);
      if k != i - 1 { assert es[k].id != q; }
    }
  }

  lemma LinkFirst(mem: map<Addr, Cell>, head: Addr, es: seq<Entry>, e: Entry)
    requires ListIs(mem, head, es) && e.id != 0 && forall j :: 0 <= j < |es| ==> es[j].id != e.id
    ensures ListIs(mem[e.id := Cell(e, head)], e.id, [e] + es)
  {
    var es' := [e] + es;
    var mem' := mem[e.id := Cell(e, head)];
    forall j | 0 <= j < |es'| ensures SlotIs(mem', es', j) {
      if j > 0 { assert es'[j] == es[j - 1] && SlotIs(mem, es, j - 1); }
    }
  }

  lemma LinkLater(mem: map<Addr, Cell>, head: Addr, es: seq<Entry>, i: nat, e: Entry)
    requires ListIs(mem, head, es) && 0 < i <= |es| && Differ(es)
    requires e.id != 0 && forall j :: 0 <= j < |es| ==> es[j].id != e.id
    ensures es[i - 1].id in mem
    ensures var q := es[i - 1].id;
      ListIs(mem[e.id := Cell(e, mem[q].next)][q := mem[q].(next := e.id)], head, es[..i] + [e] + es[i..])
  {
    var es' := es[..i] + [e] + es[i..];
    var q := es[i - 1].id;
    assert SlotIs(mem, es, i - 1);
    var mem' := mem[e.id := Cell(e, mem[q].next)][q := mem[q].(next := e.id)];
    forall j | 0 <= j < |es'| ensures SlotIs(mem', es', j) {
      LinkedAt(es, i, e, j);
      LinkedAt(es, i, e, j + 1);
      if j < i {
        assert SlotIs(mem, es, j);
        if j < i - 1 { assert es[j].id != q; }
      } else if j > i {
        assert SlotIs(mem, es, j - 1) && es[j - 1].id != q;
      }
    }
    LinkedAt(es, i, e, 0);
  }

  lemma LinkedAt(es: seq<Entry>, i: nat, e: Entry, j: nat)
    requires i <= |es|
    ensures var es' := es[..i] + [e] + es[i..];
      && (j < |es'| ==> es'[j] == if j < i then es[j] else if j == i then e else es[j - 1])
      && IdAt(es', j) == if j < i then IdAt(es, j) else if j == i then e.id else IdAt(es, j - 1)
  {}

  // ---------- all lists ----------

  lemma ChainsDiffer(st: State, n: nat)
    requires Census(st) && n < |st.chains|
    ensures Differ(st.chains[n])
  {
    hide Census;
    forall i, j | 0 <= i < j < |st.chains[n]| ensures st.chains[n][i].id != st.chains[n][j].id {
      OthersDiffer(st, n, i, n, j);
    }
  }

  // The entry taken out of chain n is nowhere else.
  lemma RemovedAbsent(st: State, n: nat, i: nat)
    requires Census(st) && n < |st.chains| && i < |st.chains[n]|
    ensures Absent(st.(chains := st.chains[n := Without(st.chains[n], i)]), st.chains[n][i].id)
  {
    hide Census;
    var chains': seq<seq<Entry>> := st.chains[n := Without(st.chains[n], i)];
    forall m, j | 0 <= m < |chains'| && 0 <= j < |chains'[m]| ensures chains'[m][j].id != st.chains[n][i].id {
      OthersDiffer(st, n, i, m, if m == n && j >= i then j + 1 else j);
    }
    forall j | 0 <= j < |st.gc| ensures st.gc[j].id != st.chains[n][i].id { GcDiffers(st, n, i, j); }
  }

  lemma DroppedAbsent(st: State, i: nat)
    requires Census(st) && i < |st.gc|
    ensures Absent(st.(gc := Without(st.gc, i)), st.gc[i].id)
  {
    GcDiffer(st);
    hide Census;
    forall n, j | 0 <= n < |st.chains| && 0 <= j < |st.chains[n]| ensures st.chains[n][j].id != st.gc[i].id {
      GcDiffers(st, n, j, i);
    }
  }

  // A new name is nowhere yet.
  lemma NextAbsent(st: State)
    requires Census(st)
    ensures Absent(st, st.next) && st.next !in st.freed && st.next >= 1
  {
    hide Flat, Ids;
    forall n, i | 0 <= n < |st.chains| && 0 <= i < |st.chains[n]| ensures st.chains[n][i].id != st.next {
      ChainIn(st.chains, n, i);
      InIds(Flat(st.chains), st.chains[n][i]);
      assert Places(st)[st.chains[n][i].id] >= 1;
    }
    forall i | 0 <= i < |st.gc| ensures st.gc[i].id != st.next {
      InIds(st.gc, st.gc[i]);
      assert Places(st)[st.gc[i].id] >= 1;
    }
    assert Places(st)[st.next] == 0;
  }

  // A write outside of all lists changes nothing on them.
  lemma ReprFrame(mem: map<Addr, Cell>, mem': map<Addr, Cell>, heads: seq<Addr>, gc: Addr, st: State, a: Addr)
    requires Repr(mem, heads, gc, st) && Absent(st, a) && Allotted(mem', st)
    requires forall x :: x in mem && x != a ==> x in mem' && mem'[x] == mem[x]
    ensures Repr(mem', heads, gc, st)
  {
    hide ListIs, Allotted;
    forall n | 0 <= n < |heads| ensures ListIs(mem', heads[n], st.chains[n]) {
      ListFrame(mem, mem', heads[n], st.chains[n]);
    }
    ListFrame(mem, mem', gc, st.gc);
  }

  // Replacing the list of chain n, where only cells of that chain change.
  lemma ReprChain(mem: map<Addr, Cell>, mem': map<Addr, Cell>, heads: seq<Addr>, gc: Addr, st: State, st': State,
                  n: nat, head: Addr)
    requires Repr(mem, heads, gc, st) && Allotted(mem', st') && n < |heads|
    requires |st'.chains| == |st.chains| == |heads| && st'.chains == st.chains[n := st'.chains[n]] && st'.gc == st.gc
      && ListIs(mem', head, st'.chains[n])
    requires forall m, i :: 0 <= m < |st.chains| && m != n && 0 <= i < |st.chains[m]| && st.chains[m][i].id in mem ==>
      st.chains[m][i].id in mem' && mem'[st.chains[m][i].id] == mem[st.chains[m][i].id]
    requires forall i :: 0 <= i < |st.gc| && st.gc[i].id in mem ==>
      st.gc[i].id in mem' && mem'[st.gc[i].id] == mem[st.gc[i].id]
    ensures Repr(mem', heads[n := head], gc, st')
  {
    hide ListIs, Allotted;
    forall m | 0 <= m < |heads| ensures ListIs(mem', heads[n := head][m], st'.chains[m]) {
      if m != n { ListFrame(mem, mem', heads[m], st.chains[m]); }
    }
    ListFrame(mem, mem', gc, st.gc);
  }

  // ---------- links ----------

  // The place that points to position i of chain n.
  ghost function LinkOf(st: State, n: nat, i: nat): Link
    requires n < |st.chains| && i <= |st.chains[n]|
  {
    if i == 0 then Chain(n) else Next(st.chains[n][i - 1].id)
  }

  ghost function GcLink(st: State, i: nat): Link
    requires i <= |st.gc|
  {
    if i == 0 then Gc else Next(st.gc[i - 1].id)
  }

  predicate HasLink(mem: map<Addr, Cell>, heads: seq<Addr>, link: Link) {
    match link
    case Chain(n) => n < |heads|
    case Gc => true
    case Next(a) => a in mem
  }

  function Load(mem: map<Addr, Cell>, heads: seq<Addr>, gc: Addr, link: Link): Addr
    requires HasLink(mem, heads, link)
  {
    match link
    case Chain(n) => heads[n]
    case Gc => gc
    case Next(a) => mem[a].next
  }

  lemma LinkReads(mem: map<Addr, Cell>, heads: seq<Addr>, gc: Addr, st: State, n: nat, i: nat)
    requires Repr(mem, heads, gc, st) && n < |st.chains| && i <= |st.chains[n]|
    ensures HasLink(mem, heads, LinkOf(st, n, i)) && Load(mem, heads, gc, LinkOf(st, n, i)) == IdAt(st.chains[n], i)
    ensures i < |st.chains[n]| ==> IdAt(st.chains[n], i) != 0
    ensures i < |st.chains[n]| ==>
      IdAt(st.chains[n], i) in mem && mem[IdAt(st.chains[n], i)] == Cell(st.chains[n][i], IdAt(st.chains[n], i + 1))
  {
    assert ListIs(mem, heads[n], st.chains[n]);
    if i < |st.chains[n]| { assert SlotIs(mem, st.chains[n], i); }
    if i > 0 { assert SlotIs(mem, st.chains[n], i - 1); }
  }

  lemma GcLinkReads(mem: map<Addr, Cell>, heads: seq<Addr>, gc: Addr, st: State, i: nat)
    requires Repr(mem, heads, gc, st) && i <= |st.gc|
    ensures HasLink(mem, heads, GcLink(st, i)) && Load(mem, heads, gc, GcLink(st, i)) == IdAt(st.gc, i)
    ensures i < |st.gc| ==> IdAt(st.gc, i) != 0
    ensures i < |st.gc| ==> IdAt(st.gc, i) in mem && mem[IdAt(st.gc, i)] == Cell(st.gc[i], IdAt(st.gc, i + 1))
  {
    if i < |st.gc| { assert SlotIs(mem, st.gc, i); }
    if i > 0 { assert SlotIs(mem, st.gc, i - 1); }
  }

  // Unlinking position i of chain n.
  lemma UnlinkChain(mem: map<Addr, Cell>, heads: seq<Addr>, gc: Addr, st: State, n: nat, i: nat)
    requires Census(st) && Repr(mem, heads, gc, st) && n < |st.chains| && i < |st.chains[n]|
    ensures var st1 := st.(chains := st.chains[n := Without(st.chains[n], i)]);
      var a := st.chains[n][i].id; var link := LinkOf(st, n, i);
      && a in mem && HasLink(mem, heads, link)
      && (link.Chain? ==> Repr(mem, heads[n := mem[a].next], gc, st1))
      && (link.Next? ==> link.a != a && Repr(mem[link.a := mem[link.a].(next := mem[a].next)], heads, gc, st1))
  {
    hide Census, ListIs;
    LinkReads(mem, heads, gc, st, n, i);
    var es := st.chains[n];
    var st1 := st.(chains := st.chains[n := Without(es, i)]);
    ChainsDiffer(st, n);
    if i == 0 {
      UnlinkFirst(mem, heads[n], es);
      ReprChain(mem, mem, heads, gc, st, st1, n, mem[es[0].id].next);
    } else {
      UnlinkLater(mem, heads[n], es, i);
      RemovedAbsent(st, n, i - 1);
      LinkReads(mem, heads, gc, st, n, i - 1);
      var q := es[i - 1].id;
      var mem' := mem[q := mem[q].(next := mem[es[i].id].next)];
      NotElsewhere(st, n, i - 1);
      ReprChain(mem, mem', heads, gc, st, st1, n, heads[n]);
      assert heads[n := heads[n]] == heads;
    }
  }

  // An entry of chain n is on no other list.
  lemma NotElsewhere(st: State, n: nat, i: nat)
    requires Census(st) && n < |st.chains| && i < |st.chains[n]|
    ensures forall m, j :: 0 <= m < |st.chains| && m != n && 0 <= j < |st.chains[m]| ==>
      st.chains[m][j].id != st.chains[n][i].id
    ensures forall j :: 0 <= j < |st.gc| ==> st.gc[j].id != st.chains[n][i].id
  {
    hide Census;
    forall m, j | 0 <= m < |st.chains| && m != n && 0 <= j < |st.chains[m]|
      ensures st.chains[m][j].id != st.chains[n][i].id {
      OthersDiffer(st, n, i, m, j);
    }
    forall j | 0 <= j < |st.gc| ensures st.gc[j].id != st.chains[n][i].id { GcDiffers(st, n, i, j); }
  }

  lemma UnlinkGc(mem: map<Addr, Cell>, heads: seq<Addr>, gc: Addr, st: State, i: nat)
    requires Census(st) && Repr(mem, heads, gc, st) && i < |st.gc|
    ensures var st1 := st.(gc := Without(st.gc, i)); var a := st.gc[i].id; var link := GcLink(st, i);
      && a in mem && HasLink(mem, heads, link)
      && (link.Gc? ==> Repr(mem, heads, mem[a].next, st1))
      && (link.Next? ==> link.a != a && Repr(mem[link.a := mem[link.a].(next := mem[a].next)], heads, gc, st1))
  {
    hide Census, ListIs;
    GcLinkReads(mem, heads, gc, st, i);
    GcDiffer(st);
    if i == 0 {
      UnlinkFirst(mem, gc, st.gc);
    } else {
      UnlinkLater(mem, gc, st.gc, i);
      GcLinkReads(mem, heads, gc, st, i - 1);
      DroppedAbsent(st, i - 1);
      var q := st.gc[i - 1].id;
      var mem' := mem[q := mem[q].(next := mem[st.gc[i].id].next)];
      forall n | 0 <= n < |heads| ensures ListIs(mem', heads[n], st.chains[n]) {
        ListFrame(mem, mem', heads[n], st.chains[n]);
      }
    }
  }

  // Linking a new slot in front of position i of chain n.
  lemma LinkChain(mem: map<Addr, Cell>, heads: seq<Addr>, gc: Addr, st: State, n: nat, i: nat, e: Entry)
    requires Census(st) && Repr(mem, heads, gc, st) && n < |st.chains| && i <= |st.chains[n]| && e.id == st.next
    ensures var st1 := PutAt(st, n, i, e); var link := LinkOf(st, n, i);
      && HasLink(mem, heads, link) && st.next !in mem && st.next != 0
      && var mem1 := mem[e.id := Cell(e, Load(mem, heads, gc, link))];
         && (link.Chain? ==> Repr(mem1, heads[n := e.id], gc, st1))
         && (link.Next? ==> link.a in mem1 && Repr(mem1[link.a := mem1[link.a].(next := e.id)], heads, gc, st1))
  {
    hide Census, ListIs;
    LinkReads(mem, heads, gc, st, n, i);
    NextAbsent(st);
    var es := st.chains[n];
    var st1 := PutAt(st, n, i, e);
    ChainsDiffer(st, n);
    var mem1 := mem[e.id := Cell(e, Load(mem, heads, gc, LinkOf(st, n, i)))];
    if i == 0 {
      LinkFirst(mem, heads[n], es, e);
      assert es[..0] + [e] + es[0..] == [e] + es;
      ReprChain(mem, mem1, heads, gc, st, st1, n, e.id);
    } else {
      LinkReads(mem, heads, gc, st, n, i - 1);
      LinkLater(mem, heads[n], es, i, e);
      NotElsewhere(st, n, i - 1);
      var q := es[i - 1].id;
      var mem2 := mem1[q := mem1[q].(next := e.id)];
      ReprChain(mem, mem2, heads, gc, st, st1, n, heads[n]);
      assert heads[n := heads[n]] == heads;
    }
  }

  // ---------- disposing of an unlinked slot ----------

  lemma FreeAbsent(mem: map<Addr, Cell>, heads: seq<Addr>, gc: Addr, st: State, a: Addr, st': State)
    requires Repr(mem, heads, gc, st) && Absent(st, a)
    requires st'.chains == st.chains && st'.gc == st.gc && st'.next == st.next && st'.freed == st.freed + [a]
    ensures Repr(mem - {a}, heads, gc, st')
  {
    hide ListIs;
    ReprFrame(mem, mem - {a}, heads, gc, st, a);
  }

  lemma GcAbsent(mem: map<Addr, Cell>, heads: seq<Addr>, gc: Addr, st: State, a: Addr, e: Entry, st': State)
    requires Repr(mem, heads, gc, st) && Absent(st, a) && a in mem && a != 0 && e.id == a
    requires st'.chains == st.chains && st'.gc == [e] + st.gc && st'.next == st.next && st'.freed == st.freed
    ensures Repr(mem[a := Cell(e, gc)], heads, a, st')
  {
    hide ListIs;
    ReprFrame(mem, mem[a := Cell(e, gc)], heads, gc, st, a);
    LinkFirst(mem, gc, st.gc, e);
  }

  // ---------- changing an entry in place ----------

  lemma ListTouch(mem: map<Addr, Cell>, head: Addr, es: seq<Entry>, i: nat, e: Entry)
    requires ListIs(mem, head, es) && Differ(es) && i < |es| && e.id == es[i].id
    ensures e.id in mem && ListIs(mem[e.id := mem[e.id].(entry := e)], head, es[i := e])
  {
    assert SlotIs(mem, es, i);
    var es', mem' := es[i := e], mem[e.id := mem[e.id].(entry := e)];
    assert forall j :: 0 <= j <= |es| ==> IdAt(es', j) == IdAt(es, j);
    forall j | 0 <= j < |es'| ensures SlotIs(mem', es', j) { assert SlotIs(mem, es, j); }
  }

  lemma TouchChain(mem: map<Addr, Cell>, heads: seq<Addr>, gc: Addr, st: State, n: nat, i: nat, e: Entry, st': State)
    requires Census(st) && Repr(mem, heads, gc, st) && n < |st.chains| && i < |st.chains[n]|
      && e.id == st.chains[n][i].id
    requires st'.chains == st.chains[n := st.chains[n][i := e]] && st'.gc == st.gc && st'.next == st.next
      && st'.freed == st.freed
    ensures e.id in mem && Repr(mem[e.id := mem[e.id].(entry := e)], heads, gc, st')
  {
    hide Census, ListIs;
    ChainsDiffer(st, n);
    ListTouch(mem, heads[n], st.chains[n], i, e);
    NotElsewhere(st, n, i);
    ReprChain(mem, mem[e.id := mem[e.id].(entry := e)], heads, gc, st, st', n, heads[n]);
    assert heads[n := heads[n]] == heads;
  }
}
