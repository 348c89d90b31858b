/** Each elementary change of the cache keeps its invariant. */
module CacheSteps {
  import opened Slots
  import opened CacheSpec

  // ---------- when entries go ----------

  lemma CollectableHow(p: Params, e: Entry, now: int)
    ensures Collectable(p, e, now) <==> e.refs == 0 || (p.gcTtl != 0 && now - e.dtime > p.gcTtl)
  {}

  lemma StaleHow(p: Params, e: Entry, t: int)
    ensures Stale(p, e, t) <==> (p.ttl != 0 && e.atime < t - p.ttl) || (e.ttl != 0 && e.ctime + e.ttl < t)
  {}

  lemma OutdatedHow(p: Params, e: Entry, t: int)
    ensures Outdated(p, e, t) <==>
      (e.ttl != 0 && e.ctime + e.ttl < t) || (e.ttl == 0 && p.ttl != 0 && e.ctime + p.ttl < t)
  {}

  lemma ExpiredHow(e: Entry, t: int)
    ensures Expired(e, t) <==> e.ttl != 0 && e.ctime + e.ttl < t
  {}

  // ---------- lists ----------

  lemma IdsAppend(a: seq<Entry>, b: seq<Entry>)
    ensures Ids(a + b) == Ids(a) + Ids(b)
  {}

  lemma {:induction false} SumAppend(a: seq<Entry>, b: seq<Entry>)
    ensures Sum(a + b) == Sum(a) + Sum(b)
  {
    if a == [] {
      assert a + b == b;
    } else {
      assert (a + b)[1..] == a[1..] + b;
      SumAppend(a[1..], b);
    }
  }

  lemma InIds(es: seq<Entry>, e: Entry)
    requires e in es
    ensures e.id in Ids(es) && multiset(Ids(es))[e.id] >= 1
  {
    var i :| 0 <= i < |es| && es[i] == e;
    assert Ids(es)[i] == e.id;
  }

  lemma {:induction false} FlatAt(chains: seq<seq<Entry>>, n: nat)
    requires n < |chains|
    ensures Flat(chains) == Flat(chains[..n]) + chains[n] + Flat(chains[n + 1..])
  {
    if n == 0 {
      assert Flat(chains[..0]) == [];
    } else {
      FlatAt(chains[1..], n - 1);
      assert chains[1..][..n - 1] == chains[1..n] && chains[1..][n..] == chains[n + 1..];
      assert chains[..n][0] == chains[0] && chains[..n][1..] == chains[1..n];
    }
  }

  lemma ChainIn(chains: seq<seq<Entry>>, n: nat, i: nat)
    requires n < |chains| && i < |chains[n]|
    ensures chains[n][i] in Flat(chains)
  {
    FlatAt(chains, n);
  }

  // Replacing positions i to j of chain n by es.
  function Spliced(chains: seq<seq<Entry>>, n: nat, i: nat, j: nat, es: seq<Entry>): seq<seq<Entry>>
    requires n < |chains| && i <= j <= |chains[n]|
  {
    chains[n := chains[n][..i] + es + chains[n][j..]]
  }

  lemma FlatSplice(chains: seq<seq<Entry>>, n: nat, i: nat, j: nat, es: seq<Entry>)
    returns (x: seq<Entry>, y: seq<Entry>)
    requires n < |chains| && i <= j <= |chains[n]|
    ensures Flat(chains) == x + chains[n][i..j] + y
    ensures Flat(Spliced(chains, n, i, j, es)) == x + es + y
  {
    var after := Spliced(chains, n, i, j, es);
    FlatAt(chains, n);
    FlatAt(after, n);
    assert after[..n] == chains[..n] && after[n + 1..] == chains[n + 1..];
    x := Flat(chains[..n]) + chains[n][..i];
    y := chains[n][j..] + Flat(chains[n + 1..]);
    assert chains[n] == chains[n][..i] + chains[n][i..j] + chains[n][j..];
    Reassociate(Flat(chains[..n]), chains[n][..i], chains[n][i..j], chains[n][j..], Flat(chains[n + 1..]));
    Reassociate(Flat(chains[..n]), chains[n][..i], es, chains[n][j..], Flat(chains[n + 1..]));
  }

  lemma Reassociate(a: seq<Entry>, b: seq<Entry>, c: seq<Entry>, d: seq<Entry>, e: seq<Entry>)
    ensures a + (b + c + d) + e == (a + b) + c + (d + e)
  {}

  lemma ThreeBags(x: seq<Entry>, m: seq<Entry>, y: seq<Entry>)
    ensures multiset(Ids(x + m + y)) == multiset(Ids(x)) + multiset(Ids(m)) + multiset(Ids(y))
    ensures Sum(x + m + y) == Sum(x) + Sum(m) + Sum(y)
  {
    IdsAppend(x + m, y);
    IdsAppend(x, m);
    SumAppend(x + m, y);
    SumAppend(x, m);
  }

  lemma OneBag(e: Entry)
    ensures Ids([e]) == [e.id] && multiset(Ids([e])) == multiset{e.id} && Sum([e]) == e.size
  {
    assert [e][1..] == [];
  }

  lemma NoBag()
    ensures Ids([]) == [] && multiset(Ids([])) == multiset{} && Sum([]) == 0
  {}

  // ---------- removal ----------

  // Chain n without its entry i is the splice of nothing.
  lemma WithoutSplices(chains: seq<seq<Entry>>, n: nat, i: nat) returns (x: seq<Entry>, y: seq<Entry>)
    requires n < |chains| && i < |chains[n]|
    ensures Flat(chains) == x + [chains[n][i]] + y
    ensures Flat(chains[n := Without(chains[n], i)]) == x + [] + y
  {
    x, y := FlatSplice(chains, n, i, i + 1, []);
    assert chains[n][i..i + 1] == [chains[n][i]];
    assert chains[n][..i] + [] + chains[n][i + 1..] == Without(chains[n], i);
  }

  lemma RemoveShape(p: Params, st: State, n: nat, i: nat, now: int)
    requires Shape(p, st) && n < |st.chains| && i < |st.chains[n]|
    ensures Shape(p, RemoveAt(st, n, i, now))
  {
    hide Slot, Terminated;
    var es, es' := st.chains[n], Without(st.chains[n], i);
    var st' := RemoveAt(st, n, i, now);
    assert forall j :: 0 <= j < |es'| ==> es'[j] == es[if j < i then j else j + 1];
    assert forall m :: 0 <= m < |st.chains| && m != n ==> st'.chains[m] == st.chains[m];
  }

  lemma RemoveCensus(st: State, n: nat, i: nat, now: int)
    requires Census(st) && n < |st.chains| && i < |st.chains[n]|
    ensures Census(RemoveAt(st, n, i, now))
  {
    hide Flat, Ids, Sum, Without;
    var e := st.chains[n][i];
    var x, y := WithoutSplices(st.chains, n, i);
    ThreeBags(x, [e], y);
    ThreeBags(x, [], y);
    OneBag(e);
    NoBag();
    OneBag(e.(dtime := now));
    IdsAppend([e.(dtime := now)], st.gc);
    assert Places(RemoveAt(st, n, i, now)) == Places(st);
  }

  lemma RemoveTotals(st: State, n: nat, i: nat, now: int)
    requires Totals(st) && n < |st.chains| && i < |st.chains[n]|
    ensures Totals(RemoveAt(st, n, i, now))
  {
    hide Flat, Ids, Sum, Without;
    var e := st.chains[n][i];
    var x, y := WithoutSplices(st.chains, n, i);
    ThreeBags(x, [e], y);
    ThreeBags(x, [], y);
    OneBag(e);
    NoBag();
    SumIsNat(st, n, i, x, y);
  }

  lemma RemoveCounted(st: State, n: nat, i: nat, now: int)
    requires Counted(st) && n < |st.chains| && i < |st.chains[n]|
    ensures Counted(RemoveAt(st, n, i, now))
  {
    hide Flat, Without;
    var x, y := WithoutSplices(st.chains, n, i);
    assert st.chains[n][i] in x + [st.chains[n][i]] + y;
  }

  lemma RemoveKeepsInv(p: Params, st: State, n: nat, i: nat, now: int)
    requires Inv(p, st) && n < |st.chains| && i < |st.chains[n]|
    ensures Inv(p, RemoveAt(st, n, i, now))
  {
    hide Shape, Census, Totals, Counted;
    RemoveShape(p, st, n, i, now);
    RemoveCensus(st, n, i, now);
    RemoveTotals(st, n, i, now);
    RemoveCounted(st, n, i, now);
  }

  // The guards on the counters never hide an underflow.
  lemma SumIsNat(st: State, n: nat, i: nat, x: seq<Entry>, y: seq<Entry>)
    requires Totals(st) && n < |st.chains| && i < |st.chains[n]|
    requires Flat(st.chains) == x + [st.chains[n][i]] + y
    ensures st.nentries >= 1 && st.memSize >= st.chains[n][i].size
  {
    ThreeBags(x, [st.chains[n][i]], y);
    OneBag(st.chains[n][i]);
    SumNat(x);
    SumNat(y);
  }

  lemma {:induction false} SumNat(es: seq<Entry>)
    ensures Sum(es) >= 0
  {
    if es != [] { SumNat(es[1..]); }
  }

  lemma ShapeOnly(p: Params, st: State, st': State)
    requires Shape(p, st) && st'.chains == st.chains
    ensures Shape(p, st')
  {}

  lemma DropKeepsInv(p: Params, st: State, i: nat)
    requires Inv(p, st) && i < |st.gc|
    ensures Inv(p, DropGc(st, i))
  {
    hide Shape, Flat, Ids, Sum;
    var e := st.gc[i];
    var st' := DropGc(st, i);
    ShapeOnly(p, st, st');
    assert st.gc == st.gc[..i] + [e] + st.gc[i + 1..];
    IdsAppend(st.gc[..i] + [e], st.gc[i + 1..]);
    IdsAppend(st.gc[..i], [e]);
    IdsAppend(st.gc[..i], st.gc[i + 1..]);
    OneBag(e);
    assert Places(st') == Places(st);
  }

  // ---------- insertion ----------

  // The key belongs into chain n, and the chain has no other entry for it.
  ghost predicate Vacant(p: Params, st: State, n: nat, key: Key) {
    && n < |st.chains| && p.nslots >= 1 && Slot(key.h, p.nslots) == n && Terminated(key.str)
    && forall i :: 0 <= i < |st.chains[n]| ==> st.chains[n][i].key != key
  }

  lemma PutShape(p: Params, st: State, n: nat, i: nat, e: Entry)
    requires Shape(p, st) && Vacant(p, st, n, e.key) && i <= |st.chains[n]|
    ensures Shape(p, PutAt(st, n, i, e))
  {
    hide Slot, Terminated;
    var es := st.chains[n];
    var es' := es[..i] + [e] + es[i..];
    var st' := PutAt(st, n, i, e);
    assert forall j :: 0 <= j < |es'| ==> es'[j] == if j < i then es[j] else if j == i then e else es[j - 1];
    assert forall m :: 0 <= m < |st.chains| && m != n ==> st'.chains[m] == st.chains[m];
  }

  lemma PutKeepsInv(p: Params, st: State, n: nat, i: nat, e: Entry)
    requires Inv(p, st) && n < |st.chains| && Vacant(p, st, n, e.key) && i <= |st.chains[n]|
    requires e.id == st.next && e.refs == 0
    ensures Inv(p, PutAt(st, n, i, e))
  {
    hide Shape, Flat, Ids, Sum, Vacant;
    PutShape(p, st, n, i, e);
    var st' := PutAt(st, n, i, e);
    var x, y := FlatSplice(st.chains, n, i, i, [e]);
    assert st.chains[n][i..i] == [];
    ThreeBags(x, [e], y);
    ThreeBags(x, [], y);
    OneBag(e);
    NoBag();
    assert Places(st') == Places(st) + multiset{e.id};
    assert Places(st)[e.id] == 0;
  }

  // ---------- touching one entry ----------

  lemma HitShape(p: Params, st: State, n: nat, i: nat, t: int)
    requires Shape(p, st) && n < |st.chains| && i < |st.chains[n]|
    ensures Shape(p, Hit(st, n, i, t))
  {
    hide Slot, Terminated;
    var st' := Hit(st, n, i, t);
    assert forall m :: 0 <= m < |st.chains| && m != n ==> st'.chains[m] == st.chains[m];
    assert forall j :: 0 <= j < |st.chains[n]| ==> st'.chains[n][j].key == st.chains[n][j].key;
  }

  // Only the entry itself carries its id.
  lemma Unique(st: State, x: seq<Entry>, e: Entry, y: seq<Entry>)
    requires Census(st) && Flat(st.chains) == x + [e] + y
    ensures forall f :: f in x + y || f in st.gc ==> f.id != e.id
    ensures 1 <= e.id < st.next && e.id !in st.freed
  {
    hide Ids, Flat;
    ThreeBags(x, [e], y);
    OneBag(e);
    var id := e.id;
    assert Places(st)[id] >= multiset(Ids(x))[id] + 1 + multiset(Ids(y))[id] + multiset(Ids(st.gc))[id]
      + multiset(st.freed)[id];
    forall f | f in x + y || f in st.gc ensures f.id != id {
      if f in x { InIds(x, f); } else if f in y { InIds(y, f); } else { InIds(st.gc, f); }
    }
  }

  lemma HitPieces(st: State, n: nat, i: nat, t: int) returns (x: seq<Entry>, y: seq<Entry>, e': Entry)
    requires n < |st.chains| && i < |st.chains[n]|
    ensures var e := st.chains[n][i]; e' == e.(nhits := e.nhits + 1, refs := e.refs + 1, atime := t)
    ensures Flat(st.chains) == x + [st.chains[n][i]] + y && Flat(Hit(st, n, i, t).chains) == x + [e'] + y
  {
    hide Flat;
    var e := st.chains[n][i];
    e' := e.(nhits := e.nhits + 1, refs := e.refs + 1, atime := t);
    x, y := FlatSplice(st.chains, n, i, i + 1, [e']);
    assert st.chains[n][i..i + 1] == [e];
    assert st.chains[n][..i] + [e'] + st.chains[n][i + 1..] == st.chains[n][i := e'];
  }

  lemma HitCensus(st: State, n: nat, i: nat, t: int)
    requires Census(st) && Totals(st) && n < |st.chains| && i < |st.chains[n]|
    ensures Census(Hit(st, n, i, t)) && Totals(Hit(st, n, i, t))
  {
    hide Flat, Ids, Sum;
    var e := st.chains[n][i];
    var x, y, e' := HitPieces(st, n, i, t);
    ThreeBags(x, [e], y);
    ThreeBags(x, [e'], y);
    OneBag(e);
    OneBag(e');
    assert Places(Hit(st, n, i, t)) == Places(st);
  }

  lemma HitCounted(st: State, n: nat, i: nat, t: int)
    requires Census(st) && Counted(st) && n < |st.chains| && i < |st.chains[n]|
    ensures Counted(Hit(st, n, i, t))
  {
    hide Flat, Census;
    var e := st.chains[n][i];
    var st' := Hit(st, n, i, t);
    var x, y, e' := HitPieces(st, n, i, t);
    Unique(st, x, e, y);
    assert e in x + [e] + y;
    forall f | f in Flat(st'.chains) || f in st'.gc ensures f.refs == st'.held[f.id] {
      if f in x + y { assert f in x + [e] + y; }
    }
  }

  lemma HitKeepsInv(p: Params, st: State, n: nat, i: nat, t: int)
    requires Inv(p, st) && n < |st.chains| && i < |st.chains[n]|
    ensures Inv(p, Hit(st, n, i, t))
  {
    hide Shape, Census, Totals, Counted;
    HitShape(p, st, n, i, t);
    HitCensus(st, n, i, t);
    HitCounted(st, n, i, t);
  }

  // ---------- giving a handle back ----------

  lemma {:induction false} SumDown(es: seq<Entry>, id: nat)
    ensures Ids(Down(es, id)) == Ids(es) && Sum(Down(es, id)) == Sum(es) && |Down(es, id)| == |es|
  {
    if es != [] {
      SumDown(es[1..], id);
      assert Down(es, id)[1..] == Down(es[1..], id);
    }
  }

  lemma {:induction false} FlatDown(chains: seq<seq<Entry>>, id: nat)
    ensures Flat(DownAll(chains, id)) == Down(Flat(chains), id)
  {
    if chains != [] {
      var rest := chains[1..];
      FlatDown(rest, id);
      assert DownAll(chains, id)[1..] == DownAll(rest, id);
      DownAppend(chains[0], Flat(rest), id);
    }
  }

  lemma DownAppend(a: seq<Entry>, b: seq<Entry>, id: nat)
    ensures Down(a + b, id) == Down(a, id) + Down(b, id)
  {}

  lemma ReleaseShape(p: Params, st: State, id: nat)
    requires Shape(p, st)
    ensures Shape(p, Release(st, id))
  {
    hide Slot, Terminated;
    var st' := Release(st, id);
    assert forall m, j :: 0 <= m < |st.chains| && 0 <= j < |st.chains[m]| ==>
      st'.chains[m][j].key == st.chains[m][j].key;
  }

  lemma DownCounted(es: seq<Entry>, id: nat, held: multiset<nat>)
    requires id in held && forall e :: e in es ==> e.refs == held[e.id]
    ensures forall e :: e in Down(es, id) ==> e.refs == (held - multiset{id})[e.id]
  {
    forall e | e in Down(es, id) ensures e.refs == (held - multiset{id})[e.id] {
      var i :| 0 <= i < |es| && Down(es, id)[i] == e;
      assert es[i] in es;
    }
  }

  lemma ReleaseKeepsInv(p: Params, st: State, id: nat)
    requires Inv(p, st) && id in st.held
    ensures Inv(p, Release(st, id))
  {
    hide Shape, Flat, Ids, Sum, Down;
    ReleaseShape(p, st, id);
    var st' := Release(st, id);
    FlatDown(st.chains, id);
    SumDown(Flat(st.chains), id);
    SumDown(st.gc, id);
    assert Places(st') == Places(st);
    DownCounted(Flat(st.chains), id, st.held);
    DownCounted(st.gc, id, st.held);
  }
}
