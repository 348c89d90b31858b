/** The user cache: a chained hash table with lifetimes, handles and a gc list. */
module Cache {
  import opened Options
  import opened Slots
  import opened CacheSpec
  import opened CacheSteps
  import opened CacheRuns
  import opened CacheImage

  // What memcmp over the length of the wanted key b answers, by a comparison that
  // stops at the first difference.
  method SameBytes(a: seq<nat>, b: seq<nat>) returns (same: bool)
    requires Terminated(a) && Terminated(b)
    ensures same <==> a == b
  {
    var i := 0;
    while i < |b| && a[i] == b[i]
      invariant i <= |b| && i <= |a| && (i < |b| ==> i < |a|)
      invariant forall j :: 0 <= j < i ==> a[j] == b[j]
    {
      i := i + 1;
    }
    same := i == |b|;
  }

  lemma ListDown(mem: map<Addr, Cell>, head: Addr, es: seq<Entry>, a: Addr)
    requires ListIs(mem, head, es) && a in mem
    ensures var c := mem[a]; ListIs(mem[a := c.(entry := c.entry.(refs := c.entry.refs - 1))], head, Down(es, a))
  {
    var es', c := Down(es, a), mem[a];
    var mem' := mem[a := c.(entry := c.entry.(refs := c.entry.refs - 1))];
    assert forall i :: 0 <= i <= |es| ==> IdAt(es', i) == IdAt(es, i);
    forall i | 0 <= i < |es'| ensures SlotIs(mem', es', i) { assert SlotIs(mem, es, i); }
  }

  lemma ReprDown(mem: map<Addr, Cell>, heads: seq<Addr>, gc: Addr, st: State, a: Addr)
    requires Repr(mem, heads, gc, st) && a in mem
    ensures var c := mem[a]; Repr(mem[a := c.(entry := c.entry.(refs := c.entry.refs - 1))], heads, gc, Release(st, a))
  {
    hide ListIs, Down;
    var mem' := mem[a := mem[a].(entry := mem[a].entry.(refs := mem[a].entry.refs - 1))];
    forall n | 0 <= n < |heads| ensures ListIs(mem', heads[n], Down(st.chains[n], a)) {
      ListDown(mem, heads[n], st.chains[n], a);
    }
    ListDown(mem, gc, st.gc, a);
  }

  // A handle on an entry that has not been freed leads to a slot in memory.
  lemma HandleLives(p: Params, mem: map<Addr, Cell>, heads: seq<Addr>, gc: Addr, st: State, id: nat)
    requires Inv(p, st) && Repr(mem, heads, gc, st) && id in st.held && id !in st.freed
    ensures id in mem
  {
    hide Inv, Census, ListIs;
    HeldNamed(p, st, id);
    OnePlace(p, st, id);
    if InChain(st, id) {
      var n, i :| 0 <= n < |st.chains| && 0 <= i < |st.chains[n]| && st.chains[n][i].id == id;
      LinkReads(mem, heads, gc, st, n, i);
    } else {
      var i :| 0 <= i < |st.gc| && st.gc[i].id == id;
      GcLinkReads(mem, heads, gc, st, i);
    }
  }

  lemma HeldNamed(p: Params, st: State, id: nat)
    requires Inv(p, st) && id in st.held
    ensures 1 <= id < st.next
  {}

  // The counters cover every chained entry.
  lemma CountersCover(p: Params, st: State, n: nat, i: nat)
    requires Inv(p, st) && n < |st.chains| && i < |st.chains[n]|
    ensures st.nentries >= 1 && st.memSize >= st.chains[n][i].size
  {
    hide Flat, Shape, Census, Counted;
    var x, y := WithoutSplices(st.chains, n, i);
    SumIsNat(st, n, i, x, y);
  }

  lemma CensusOf(p: Params, st: State)
    requires Inv(p, st)
    ensures Census(st) && p.nslots >= 1 && |st.chains| == p.nslots
  {}

  lemma KeyEnds(p: Params, st: State, n: nat, i: nat)
    requires Inv(p, st) && n < |st.chains| && i < |st.chains[n]|
    ensures Terminated(st.chains[n][i].key.str)
  {}

  lemma ReprOnly(mem: map<Addr, Cell>, heads: seq<Addr>, gc: Addr, st: State, st': State)
    requires Repr(mem, heads, gc, st)
    requires st'.chains == st.chains && st'.gc == st.gc && st'.next == st.next && st'.freed == st.freed
    ensures Repr(mem, heads, gc, st')
  {}

  class Store {
    const p: Params
    const slots: array<Addr>
    var mem: map<Addr, Cell>
    var gc: Addr
    var memSize: nat
    var nentries: nat
    var ninserts: nat
    var nhits: nat
    var nmisses: nat
    var nexpunges: nat
    var busy: bool
    var next: nat
    ghost var st: State

    // Memory and header hold st, with hs for the heads of the chains.
    ghost predicate Holds(hs: seq<Addr>)
      reads this
    {
      && Repr(mem, hs, gc, st)
      && st.memSize == memSize && st.nentries == nentries && st.ninserts == ninserts && st.nhits == nhits
      && st.nmisses == nmisses && st.nexpunges == nexpunges && st.busy == busy && st.next == next
    }

    ghost predicate Valid()
      reads this, slots
    {
      Inv(p, st) && Holds(slots[..])
    }

    constructor (params: Params)
      requires params.nslots >= 1
      ensures Valid() && fresh(slots) && p == params && st == Init(params)
    {
      p := params;
      slots := new Addr[params.nslots](_ => 0);
      mem, gc, memSize, nentries := map[], 0, 0, 0;
      ninserts, nhits, nmisses, nexpunges, busy, next := 0, 0, 0, 0, false, 1;
      st := Init(params);
      new;
      InitInv(p);
    }

    method SetLink(link: Link, a: Addr)
      requires HasLink(mem, slots[..], link)
      modifies this`mem, this`gc, slots
      ensures slots[..] == if link.Chain? then old(slots[..])[link.n := a] else old(slots[..])
      ensures gc == if link.Gc? then a else old(gc)
      ensures mem == if link.Next? then old(mem)[link.a := old(mem[link.a]).(next := a)] else old(mem)
    {
      match link
      case Chain(n) => slots[n] := a;
      case Gc => gc := a;
      case Next(b) => mem := mem[b := mem[b].(next := a)];
    }

    // free_slot: the pool of the slot takes slot, entry and value with it.
    method FreeSlot(dead: Addr)
      requires dead in mem
      modifies this`mem, this`st
      ensures mem == old(mem) - {dead} && st == old(st).(freed := old(st).freed + [dead])
    {
      mem := mem - {dead};
      st := st.(freed := st.freed + [dead]);
    }

    // The second half of apc_cache_remove_slot, once dead is unlinked.
    method Dispose(dead: Addr, now: int, ghost hs: seq<Addr>)
      requires Holds(hs) && Absent(st, dead) && dead in mem && mem[dead].entry.id == dead
      requires nentries >= 1 && memSize >= mem[dead].entry.size
      modifies this`mem, this`gc, this`memSize, this`nentries, this`st
      ensures st == Retired(old(st), old(mem[dead].entry), now)
      ensures Holds(hs)
    {
      hide Repr, Absent;
      DeadNamed(hs, dead);
      ghost var st0 := st;
      ghost var e := mem[dead].entry;
      if memSize != 0 { memSize := memSize - mem[dead].entry.size; }
      if nentries != 0 { nentries := nentries - 1; }
      st := st.(memSize := memSize, nentries := nentries);
      ReprOnly(mem, hs, gc, st0, st);
      AbsentOnly(st0, st, dead);
      if mem[dead].entry.refs <= 0 {
        FreeAbsent(mem, hs, gc, st, dead, st.(freed := st.freed + [dead]));
        FreeSlot(dead);
      } else {
        e := e.(dtime := now);
        GcAbsent(mem, hs, gc, st, dead, e, st.(gc := [e] + st.gc));
        mem := mem[dead := Cell(mem[dead].entry.(dtime := now), gc)];
        gc := dead;
        st := st.(gc := [e] + st.gc);
      }
    }

    lemma DeadNamed(hs: seq<Addr>, dead: Addr)
      requires Holds(hs) && dead in mem
      ensures dead != 0
    {}

    static lemma AbsentOnly(st: State, st': State, a: Addr)
      requires Absent(st, a) && st'.chains == st.chains && st'.gc == st.gc
      ensures Absent(st', a)
    {}

    // apc_cache_remove_slot
    method RemoveSlot(link: Link, now: int, ghost n: nat, ghost i: nat)
      requires Valid() && n < |st.chains| && i < |st.chains[n]| && link == LinkOf(st, n, i)
      modifies this, slots
      ensures Valid() && st == RemoveAt(old(st), n, i, now)
    {
      hide Inv, Repr, Absent, Census;
      ghost var st0 := st;
      CensusOf(p, st);
      LinkReads(mem, slots[..], gc, st, n, i);
      UnlinkChain(mem, slots[..], gc, st, n, i);
      CountersCover(p, st, n, i);
      RemovedAbsent(st, n, i);
      RemoveKeepsInv(p, st, n, i, now);
      var dead := Load(mem, slots[..], gc, link);
      SetLink(link, mem[dead].next);
      st := st.(chains := st.chains[n := Without(st.chains[n], i)]);
      Dispose(dead, now, slots[..]);
    }

    // Taking position i off the gc list and freeing it.
    method FreeGc(link: Link, ghost i: nat)
      requires Valid() && i < |st.gc| && link == GcLink(st, i)
      modifies this, slots
      ensures Valid() && st == DropGc(old(st), i)
    {
      hide Inv, Repr, Absent, Census;
      CensusOf(p, st);
      GcLinkReads(mem, slots[..], gc, st, i);
      UnlinkGc(mem, slots[..], gc, st, i);
      DroppedAbsent(st, i);
      DropKeepsInv(p, st, i);
      var dead := Load(mem, slots[..], gc, link);
      SetLink(link, mem[dead].next);
      st := st.(gc := Without(st.gc, i));
      FreeAbsent(mem, slots[..], gc, st, dead, st.(freed := st.freed + [dead]));
      FreeSlot(dead);
    }

    // apc_cache_gc
    method CollectGarbage(now: int)
      requires Valid()
      modifies this, slots
      ensures Valid() && st == Collect(p, old(st), 0, now)
    {
      hide Inv, Repr, Collectable, DropGc;
      ghost var goal := Collect(p, st, 0, now);
      ghost var i: nat := 0;
      var link := Gc;
      GcLinkReads(mem, slots[..], gc, st, i);
      var a := Load(mem, slots[..], gc, link);
      while a != 0
        invariant Valid() && i <= |st.gc| && link == GcLink(st, i) && a == IdAt(st.gc, i) && (a != 0 <==> i < |st.gc|)
        invariant Collect(p, st, i, now) == goal
        decreases |st.gc| - i
      {
        GcLinkReads(mem, slots[..], gc, st, i);
        var gcSec := if p.gcTtl != 0 then now - mem[a].entry.dtime else 0;
        CollectableHow(p, mem[a].entry, now);
        if mem[a].entry.refs == 0 || gcSec > p.gcTtl {
          DropShortens(st, i);
          FreeGc(link, i);
        } else {
          link := Next(a);
          i := i + 1;
        }
        GcLinkReads(mem, slots[..], gc, st, i);
        a := Load(mem, slots[..], gc, link);
      }
    }

    static lemma DropShortens(st: State, i: nat)
      requires i < |st.gc|
      ensures |DropGc(st, i).gc| == |st.gc| - 1 && GcLink(DropGc(st, i), i) == GcLink(st, i)
    {}

    static lemma RemoveShortens(st: State, n: nat, i: nat, now: int)
      requires n < |st.chains| && i < |st.chains[n]|
      ensures |RemoveAt(st, n, i, now).chains| == |st.chains|
        && |RemoveAt(st, n, i, now).chains[n]| == |st.chains[n]| - 1
      ensures LinkOf(RemoveAt(st, n, i, now), n, i) == LinkOf(st, n, i)
    {}

    // A match by hash and string.
    method Matches(a: Addr, key: Key, ghost n: nat, ghost i: nat) returns (same: bool)
      requires Valid() && n < |st.chains| && i < |st.chains[n]| && a == st.chains[n][i].id && Terminated(key.str)
      ensures a in mem && mem[a].entry == st.chains[n][i] && same == (st.chains[n][i].key == key)
    {
      hide Inv, Repr, Terminated;
      LinkReads(mem, slots[..], gc, st, n, i);
      KeyEnds(p, st, n, i);
      same := false;
      if mem[a].entry.key.h == key.h { same := SameBytes(mem[a].entry.key.str, key.str); }
    }

    static lemma LinkKinds(st: State, n: nat, i: nat)
      requires n < |st.chains| && i <= |st.chains[n]|
      ensures var link := LinkOf(st, n, i); link.Next? || link == Chain(n)
    {}

    static lemma PutHeader(st: State, n: nat, i: nat, e: Entry)
      requires n < |st.chains| && i <= |st.chains[n]|
      ensures var r := PutAt(st, n, i, e);
        r == st.(chains := r.chains, next := st.next + 1, memSize := st.memSize + e.size, nentries := st.nentries + 1,
          ninserts := st.ninserts + 1)
    {}

    static lemma PlaceReady(p: Params, mem: map<Addr, Cell>, heads: seq<Addr>, gc: Addr, st: State, n: nat, i: nat,
                            e: Entry)
      requires Inv(p, st) && Repr(mem, heads, gc, st) && n < |st.chains| && i <= |st.chains[n]|
      requires e.id == st.next && e.refs == 0 && Vacant(p, st, n, e.key)
      ensures var st1 := PutAt(st, n, i, e); var link := LinkOf(st, n, i);
        && HasLink(mem, heads, link) && Inv(p, st1) && (link.Next? || link.Chain?)
        && st1.memSize == st.memSize + e.size && st1.nentries == st.nentries + 1 && st1.ninserts == st.ninserts + 1
        && st1.next == st.next + 1 && st1.nhits == st.nhits && st1.nmisses == st.nmisses
        && st1.nexpunges == st.nexpunges && st1.busy == st.busy
        && var mem1 := mem[e.id := Cell(e, Load(mem, heads, gc, link))];
           && HasLink(mem1, heads, link)
           && (link.Chain? ==> Repr(mem1, heads[link.n := e.id], gc, st1))
           && (link.Next? ==> Repr(mem1[link.a := mem1[link.a].(next := e.id)], heads, gc, st1))
    {
      hide Inv, Repr, Vacant, Census, PutAt, Slot;
      LinkKinds(st, n, i);
      CensusOf(p, st);
      PutHeader(st, n, i, e);
      LinkReads(mem, heads, gc, st, n, i);
      LinkChain(mem, heads, gc, st, n, i, e);
      PutKeepsInv(p, st, n, i, e);
    }

    // A new slot in front of what link points to.
    method Place(link: Link, key: Key, val: int, ttl: nat, size: nat, t: int, ghost n: nat, ghost i: nat)
      requires Valid() && n < |st.chains| && i <= |st.chains[n]| && link == LinkOf(st, n, i) && Vacant(p, st, n, key)
      modifies this, slots
      ensures Valid() && st == PutAt(old(st), n, i, NewEntry(old(st), key, val, ttl, size, t))
    {
      hide Inv, Repr, Vacant, PutAt, LinkOf, Load, Slot;
      ghost var new_ := NewEntry(st, key, val, ttl, size, t);
      PlaceReady(p, mem, slots[..], gc, st, n, i, new_);
      var a := next;
      mem := mem[a := Cell(Entry(a, key, val, ttl, size, t, t, 0, 0, 0), Load(mem, slots[..], gc, link))];
      SetLink(link, a);
      next := next + 1;
      memSize := memSize + size;
      nentries := nentries + 1;
      ninserts := ninserts + 1;
      st := PutAt(st, n, i, new_);
    }

    // apc_cache_insert, with a slot and an entry whose pool takes size bytes.
    method Add(key: Key, val: int, ttl: nat, size: nat, t: int, exclusive: bool, now: int) returns (ok: bool)
      requires Valid() && Terminated(key.str)
      modifies this, slots
      ensures Valid() && (st, ok) == Insert(p, old(st), key, val, ttl, size, t, exclusive, now)
    {
      hide Inv, Repr, Stale, Vacant, Retired, RemoveAt, PutAt, Collect, Terminated, Slot, Swept;
      CensusOf(p, st);
      if busy { return false; }
      CollectGarbage(now);
      CensusOf(p, st);
      ghost var st1 := st;
      var n := Slot(key.h, p.nslots);
      ghost var goal := Swept(p, st, n, 0, key, t, exclusive, now);
      ghost var i: nat := 0;
      var link := Chain(n);
      LinkReads(mem, slots[..], gc, st, n, i);
      var a := Load(mem, slots[..], gc, link);
      var found := false;
      while a != 0 && !found
        invariant Valid() && n < |st.chains| == p.nslots && i <= |st.chains[n]| && link == LinkOf(st, n, i)
        invariant !found ==> a == IdAt(st.chains[n], i) && (a != 0 <==> i < |st.chains[n]|)
        invariant goal == if found then Sweep(st, i, false) else Swept(p, st, n, i, key, t, exclusive, now)
        decreases if found then 0 else 1, |st.chains[n]| - i
      {
        LinkReads(mem, slots[..], gc, st, n, i);
        RemoveShortens(st, n, i, now);
        SweptStep(p, st, n, i, key, t, exclusive, now);
        var same := Matches(a, key, n, i);
        if same {
          if exclusive && (mem[a].entry.ttl == 0 || mem[a].entry.ctime + mem[a].entry.ttl >= t) { return false; }
          RemoveSlot(link, now, n, i);
          found := true;
        } else if (p.ttl != 0 && mem[a].entry.atime < t - p.ttl) ||
                  (mem[a].entry.ttl != 0 && mem[a].entry.ctime + mem[a].entry.ttl < t) {
          StaleHow(p, mem[a].entry, t);
          RemoveSlot(link, now, n, i);
        } else {
          StaleHow(p, mem[a].entry, t);
          link := Next(a);
          i := i + 1;
        }
        LinkReads(mem, slots[..], gc, st, n, i);
        a := Load(mem, slots[..], gc, link);
      }
      if !found { SweptOver(p, st, n, key, t, exclusive, now); }
      WalkVacates(p, st1, st, n, key, t, exclusive, now);
      Place(link, key, val, ttl, size, t, n, i);
      ok := true;
    }

    // One turn of the walk of insert, and its end.
    static lemma SweptStep(p: Params, st: State, n: nat, i: nat, key: Key, t: int, exclusive: bool, now: int)
      requires n < |st.chains| && i < |st.chains[n]|
      ensures Swept(p, st, n, i, key, t, exclusive, now) ==
        var e := st.chains[n][i];
        if e.key == key then
          if exclusive && (e.ttl == 0 || e.ctime + e.ttl >= t) then Sweep(st, i, true)
          else Sweep(RemoveAt(st, n, i, now), i, false)
        else if Stale(p, e, t) then Swept(p, RemoveAt(st, n, i, now), n, i, key, t, exclusive, now)
        else Swept(p, st, n, i + 1, key, t, exclusive, now)
    {
      hide RemoveAt, Stale, Slot;
    }

    static lemma SweptOver(p: Params, st: State, n: nat, key: Key, t: int, exclusive: bool, now: int)
      requires n < |st.chains|
      ensures Swept(p, st, n, |st.chains[n]|, key, t, exclusive, now) == Sweep(st, |st.chains[n]|, false)
    {}

    static lemma WalkVacates(p: Params, st1: State, st: State, n: nat, key: Key, t: int, exclusive: bool, now: int)
      requires Inv(p, st1) && n < |st1.chains| == |st.chains| && Slot(key.h, p.nslots) == n && Terminated(key.str)
      requires Swept(p, st1, n, 0, key, t, exclusive, now).st == st
        && !Swept(p, st1, n, 0, key, t, exclusive, now).refused
      ensures Vacant(p, st, n, key)
    {
      hide Inv, Swept, Slot, Terminated, Stale, Cleared;
      CensusOf(p, st1);
      SweptChain(p, st1, n, 0, key, t, exclusive, now);
      SweptVacates(p, st1, n, key, t, st.chains[n]);
    }

    // The walk that looks for a key: the link to its slot, or to the end.
    method Locate(key: Key) returns (link: Link, a: Addr, ghost i: nat)
      requires Valid() && Terminated(key.str)
      ensures p.nslots >= 1 && |st.chains| == p.nslots
      ensures i == Seek(ChainOf(p, st, key), key, 0)
      ensures a == IdAt(ChainOf(p, st, key), Seek(ChainOf(p, st, key), key, 0))
      ensures a != 0 <==> i < |ChainOf(p, st, key)|
      ensures link == LinkOf(st, Slot(key.h, p.nslots), i)
    {
      hide Inv, Repr, Terminated, Slot;
      CensusOf(p, st);
      var n := Slot(key.h, p.nslots);
      link, i := Chain(n), 0;
      LinkReads(mem, slots[..], gc, st, n, i);
      a := Load(mem, slots[..], gc, link);
      var same := false;
      while a != 0 && !same
        invariant i <= |st.chains[n]| && link == LinkOf(st, n, i) && a == IdAt(st.chains[n], i)
          && (a != 0 <==> i < |st.chains[n]|)
        invariant same ==> a != 0 && st.chains[n][i].key == key
        invariant Seek(st.chains[n], key, 0) == Seek(st.chains[n], key, i)
        decreases |st.chains[n]| - i, if same then 0 else 1
      {
        same := Matches(a, key, n, i);
        if !same {
          link := Next(a);
          i := i + 1;
          LinkReads(mem, slots[..], gc, st, n, i);
          a := Load(mem, slots[..], gc, link);
        }
      }
    }

    // apc_cache_find
    method Get(key: Key, t: int) returns (r: Option<Addr>)
      requires Valid() && Terminated(key.str)
      modifies this
      ensures Valid() && (st, r) == Find(p, old(st), key, t)
    {
      hide Inv, Repr, Terminated, Slot, Seek, Census;
      CensusOf(p, st);
      if busy { return None; }
      var link, a, i := Locate(key);
      ghost var n := Slot(key.h, p.nslots);
      if a == 0 {
        InvOnly(p, st, st.(nmisses := st.nmisses + 1));
        ReprOnly(mem, slots[..], gc, st, st.(nmisses := st.nmisses + 1));
        nmisses, st := nmisses + 1, st.(nmisses := st.nmisses + 1);
        return None;
      }
      LinkReads(mem, slots[..], gc, st, n, i);
      if mem[a].entry.ttl != 0 && mem[a].entry.ctime + mem[a].entry.ttl < t {
        InvOnly(p, st, st.(nmisses := st.nmisses + 1));
        ReprOnly(mem, slots[..], gc, st, st.(nmisses := st.nmisses + 1));
        nmisses, st := nmisses + 1, st.(nmisses := st.nmisses + 1);
        return None;
      }
      Touch(a, t, n, i);
      r := Some(a);
    }

    method Touch(a: Addr, t: int, ghost n: nat, ghost i: nat)
      requires Valid() && n < |st.chains| && i < |st.chains[n]| && a == st.chains[n][i].id
      modifies this
      ensures Valid() && st == Hit(old(st), n, i, t)
    {
      hide Inv, Repr, Census;
      CensusOf(p, st);
      LinkReads(mem, slots[..], gc, st, n, i);
      var c := mem[a];
      var e := c.entry.(nhits := c.entry.nhits + 1, refs := c.entry.refs + 1, atime := t);
      TouchChain(mem, slots[..], gc, st, n, i, e, Hit(st, n, i, t));
      HitKeepsInv(p, st, n, i, t);
      mem := mem[a := c.(entry := e)];
      nhits := nhits + 1;
      st := Hit(st, n, i, t);
    }

    // apc_cache_release
    method GiveBack(a: Addr)
      requires Valid() && a in st.held && a !in st.freed
      modifies this
      ensures Valid() && st == Release(old(st), a)
    {
      hide Inv, Repr;
      HandleLives(p, mem, slots[..], gc, st, a);
      ReprDown(mem, slots[..], gc, st, a);
      ReleaseKeepsInv(p, st, a);
      mem := mem[a := mem[a].(entry := mem[a].entry.(refs := mem[a].entry.refs - 1))];
      st := Release(st, a);
    }

    // apc_cache_delete
    method Remove(key: Key, now: int) returns (ok: bool)
      requires Valid() && Terminated(key.str)
      modifies this, slots
      ensures Valid() && (st, ok) == Delete(p, old(st), key, now)
    {
      hide Inv, Repr, Terminated, Slot, Seek, RemoveAt;
      CensusOf(p, st);
      var link, a, i := Locate(key);
      if a == 0 { return false; }
      RemoveSlot(link, now, Slot(key.h, p.nslots), i);
      ok := true;
    }

    // apc_cache_remove_slot on a local pointer to the head of chain n: the chain's
    // own head in slots is left behind.
    method RemoveHead(q: Addr, now: int, ghost n: nat, ghost hs: seq<Addr>) returns (rest: Addr)
      requires Inv(p, st) && Holds(hs) && n < |st.chains| && st.chains[n] != [] && n < |hs| && q == hs[n]
      modifies this`mem, this`gc, this`memSize, this`nentries, this`st
      ensures Inv(p, st) && Holds(hs[n := rest]) && st == RemoveAt(old(st), n, 0, now)
    {
      hide Inv, Repr, Absent, Census;
      CensusOf(p, st);
      LinkReads(mem, hs, gc, st, n, 0);
      UnlinkChain(mem, hs, gc, st, n, 0);
      CountersCover(p, st, n, 0);
      RemovedAbsent(st, n, 0);
      RemoveKeepsInv(p, st, n, 0, now);
      rest := mem[q].next;
      st := st.(chains := st.chains[n := Without(st.chains[n], 0)]);
      Dispose(q, now, hs[n := rest]);
    }

    // The inner loop of apc_cache_real_expunge.
    method EmptySlot(n: nat, now: int)
      requires Valid() && n < |st.chains|
      modifies this, slots
      ensures Valid() && st == EmptyChain(old(st), n, now)
    {
      hide Inv, Repr, RemoveAt;
      CensusOf(p, st);
      HeadsFit(slots[..]);
      ghost var goal := EmptyChain(st, n, now);
      ghost var hs := slots[..];
      var q := slots[n];
      assert hs[n := q] == hs;
      HeadOf(hs, n);
      while q != 0
        invariant Inv(p, st) && n < |hs| == |st.chains| && Holds(hs[n := q]) && slots[..] == hs
        invariant (q != 0 <==> st.chains[n] != []) && EmptyChain(st, n, now) == goal
        decreases |st.chains[n]|
      {
        RemoveShortens(st, n, 0, now);
        ghost var hs1 := hs[n := q];
        q := RemoveHead(q, now, n, hs1);
        assert hs1[n := q] == hs[n := q];
        HeadOf(hs[n := q], n);
      }
      slots[n] := 0;
      assert slots[..] == hs[n := q];
    }

    lemma HeadsFit(hs: seq<Addr>)
      requires Holds(hs)
      ensures |hs| == |st.chains|
    {}

    lemma SlotsFit()
      requires Valid()
      ensures slots.Length == |st.chains|
    {}

    lemma HeadOf(hs: seq<Addr>, n: nat)
      requires Holds(hs) && n < |st.chains|
      ensures n < |hs| && (hs[n] != 0 <==> st.chains[n] != [])
    {
      hide Inv;
      LinkReads(mem, hs, gc, st, n, 0);
    }

    // apc_cache_real_expunge
    method Expunge(now: int)
      requires Valid()
      modifies this, slots
      ensures Valid() && st == RealExpunge(old(st), now)
    {
      hide Inv, Repr, EmptyChain, EmptyFrom;
      ghost var st0 := st;
      ghost var st1 := st.(nexpunges := st.nexpunges + 1);
      InvOnly(p, st, st1);
      ReprOnly(mem, slots[..], gc, st, st1);
      nexpunges, st := nexpunges + 1, st1;
      EmptySlots(now);
      ExpungeEmpties(p, st0, now);
      ResetCounters();
    }

    method EmptySlots(now: int)
      requires Valid()
      modifies this, slots
      ensures Valid() && st == EmptyFrom(old(st), 0, now)
    {
      hide Inv, Repr, EmptyChain;
      ghost var goal := EmptyFrom(st, 0, now);
      CensusOf(p, st);
      HeadsFit(slots[..]);
      var n := 0;
      while n < slots.Length
        invariant Valid() && n <= |st.chains| == slots.Length
        invariant EmptyFrom(st, n, now) == goal
      {
        EmptySlot(n, now);
        n := n + 1;
      }
    }

    method ResetCounters()
      requires Valid() && st.nentries == 0
      modifies this
      ensures Valid() && st == old(st).(ninserts := 0, nentries := 0, nhits := 0, nmisses := 0)
    {
      hide Inv, Repr;
      ghost var st1 := st.(ninserts := 0, nentries := 0, nhits := 0, nmisses := 0);
      InvOnly(p, st, st1);
      ReprOnly(mem, slots[..], gc, st, st1);
      ninserts, nentries, nhits, nmisses, st := 0, 0, 0, 0, st1;
    }

    // apc_cache_clear
    method Clean(now: int)
      requires Valid()
      modifies this, slots
      ensures Valid() && st == Clear(old(st), now)
    {
      hide Inv, Repr, RealExpunge;
      if busy { return; }
      SetBusy(true);
      Expunge(now);
      ghost var st1 := st.(nexpunges := 0);
      InvOnly(p, st, st1);
      ReprOnly(mem, slots[..], gc, st, st1);
      nexpunges, st := 0, st1;
      SetBusy(false);
    }

    method SetBusy(b: bool)
      requires Valid()
      modifies this`busy, this`st
      ensures Valid() && st == old(st).(busy := b)
    {
      hide Inv, Repr;
      InvOnly(p, st, st.(busy := b));
      ReprOnly(mem, slots[..], gc, st, st.(busy := b));
      busy, st := b, st.(busy := b);
    }

    // Removing the outdated entries of chain n.
    method PurgeSlot(n: nat, t: int, now: int)
      requires Valid() && n < |st.chains|
      modifies this, slots
      ensures Valid() && st == PurgeChain(p, old(st), n, 0, t, now)
    {
      hide Inv, Repr, RemoveAt, Outdated;
      ghost var goal := PurgeChain(p, st, n, 0, t, now);
      ghost var i: nat := 0;
      var link := Chain(n);
      LinkReads(mem, slots[..], gc, st, n, i);
      var a := Load(mem, slots[..], gc, link);
      while a != 0
        invariant Valid() && n < |st.chains| && i <= |st.chains[n]| && link == LinkOf(st, n, i)
        invariant a == IdAt(st.chains[n], i) && (a != 0 <==> i < |st.chains[n]|)
        invariant PurgeChain(p, st, n, i, t, now) == goal
        decreases |st.chains[n]| - i
      {
        LinkReads(mem, slots[..], gc, st, n, i);
        RemoveShortens(st, n, i, now);
        if mem[a].entry.ttl != 0 && mem[a].entry.ctime + mem[a].entry.ttl < t {
          OutdatedHow(p, mem[a].entry, t);
          RemoveSlot(link, now, n, i);
        } else if mem[a].entry.ttl == 0 && p.ttl != 0 && mem[a].entry.ctime + p.ttl < t {
          OutdatedHow(p, mem[a].entry, t);
          RemoveSlot(link, now, n, i);
        } else {
          OutdatedHow(p, mem[a].entry, t);
          link := Next(a);
          i := i + 1;
        }
        LinkReads(mem, slots[..], gc, st, n, i);
        a := Load(mem, slots[..], gc, link);
      }
    }

    method Purge(t: int, now: int)
      requires Valid()
      modifies this, slots
      ensures Valid() && st == PurgeFrom(p, old(st), 0, t, now)
    {
      hide Inv, Repr, PurgeChain;
      ghost var goal := PurgeFrom(p, st, 0, t, now);
      CensusOf(p, st);
      HeadsFit(slots[..]);
      var n := 0;
      while n < slots.Length
        invariant Valid() && n <= |st.chains| == slots.Length
        invariant PurgeFrom(p, st, n, t, now) == goal
      {
        PurgeSlot(n, t, now);
        n := n + 1;
      }
    }

    // apc_cache_default_expunge; the allocator answers short and fits.
    method MakeRoom(short: bool, fits: bool, t: int, now: int)
      requires Valid()
      modifies this, slots
      ensures Valid() && st == DefaultExpunge(p, old(st), short, fits, t, now)
    {
      hide Inv, Repr, RealExpunge, PurgeFrom, Collect;
      if busy { return; }
      SetBusy(true);
      CollectGarbage(now);
      if p.ttl == 0 {
        if short { Expunge(now); }
      } else if short {
        Purge(t, now);
        if !fits { Expunge(now); }
      }
      SetBusy(false);
    }
  }
}
