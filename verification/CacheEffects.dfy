/**
 What each call does to the header counters, where the entries go that it takes
 from their chains, and that a clear leaves nothing.
 */
module CacheEffects {
  import opened Options
  import opened Slots
  import opened CacheSpec
  import opened CacheSteps
  import opened CacheRuns

  // e was taken from its chain at now: it is freed if nobody refers to it, and
  // waits on the gc list otherwise.
  ghost predicate Gone(st: State, e: Entry, now: int) {
    if e.refs <= 0 then e.id in st.freed else e.(dtime := now) in st.gc
  }

  // What was in a chain is still there, or gone; what was freed or on the gc list
  // still is; and no counter but those of entries and bytes has moved.
  ghost predicate Disposes(st: State, st': State, now: int) {
    && |st'.chains| == |st.chains|
    && (forall n, e :: 0 <= n < |st.chains| && e in st.chains[n] ==> e in st'.chains[n] || Gone(st', e, now))
    && (forall n, e :: 0 <= n < |st.chains| && e in st'.chains[n] ==> e in st.chains[n])
    && (forall e :: e in st.gc ==> e in st'.gc)
    && (forall id :: id in st.freed ==> id in st'.freed)
    && SameCounts(st, st')
  }

  predicate SameCounts(st: State, st': State) {
    st'.ninserts == st.ninserts && st'.nhits == st.nhits && st'.nmisses == st.nmisses && st'.nexpunges == st.nexpunges
  }

  lemma DisposesNothing(st: State, now: int)
    ensures Disposes(st, st, now)
  {}

  lemma DisposesTrans(a: State, b: State, c: State, now: int)
    requires Disposes(a, b, now) && Disposes(b, c, now)
    ensures Disposes(a, c, now)
  {
    forall n, e | 0 <= n < |a.chains| && e in a.chains[n] ensures e in c.chains[n] || Gone(c, e, now) {
      assert e in b.chains[n] || Gone(b, e, now);
    }
  }

  lemma RemoveDisposes(st: State, n: nat, i: nat, now: int)
    requires n < |st.chains| && i < |st.chains[n]|
    ensures Disposes(st, RemoveAt(st, n, i, now), now) && Gone(RemoveAt(st, n, i, now), st.chains[n][i], now)
  {
    var st' := RemoveAt(st, n, i, now);
    var es := st.chains[n];
    assert es == es[..i] + [es[i]] + es[i + 1..];
    forall m, e | 0 <= m < |st.chains| && e in st.chains[m] ensures e in st'.chains[m] || Gone(st', e, now) {
      if m == n && e != es[i] { assert e in es[..i] || e in es[i + 1..]; }
    }
  }

  lemma {:induction false} SweptDisposes(p: Params, st: State, n: nat, i: nat, key: Key, t: int, exclusive: bool,
                                         now: int)
    requires n < |st.chains| && i <= |st.chains[n]|
    ensures Disposes(st, Swept(p, st, n, i, key, t, exclusive, now).st, now)
    decreases |st.chains[n]| - i
  {
    hide Disposes, Gone, Stale;
    DisposesNothing(st, now);
    if i < |st.chains[n]| {
      RemoveDisposes(st, n, i, now);
      var st1 := RemoveAt(st, n, i, now);
      if st.chains[n][i].key == key {
      } else if Stale(p, st.chains[n][i], t) {
        SweptDisposes(p, st1, n, i, key, t, exclusive, now);
        DisposesTrans(st, st1, Swept(p, st1, n, i, key, t, exclusive, now).st, now);
      } else {
        SweptDisposes(p, st, n, i + 1, key, t, exclusive, now);
      }
    }
  }

  lemma {:induction false} EmptyChainDisposes(st: State, n: nat, now: int)
    requires n < |st.chains|
    ensures Disposes(st, EmptyChain(st, n, now), now)
    decreases |st.chains[n]|
  {
    hide Disposes, Gone;
    DisposesNothing(st, now);
    if st.chains[n] != [] {
      RemoveDisposes(st, n, 0, now);
      var st1 := RemoveAt(st, n, 0, now);
      EmptyChainDisposes(st1, n, now);
      DisposesTrans(st, st1, EmptyChain(st1, n, now), now);
    }
  }

  lemma {:induction false} EmptyFromDisposes(st: State, n: nat, now: int)
    requires n <= |st.chains|
    ensures Disposes(st, EmptyFrom(st, n, now), now)
    decreases |st.chains| - n
  {
    hide Disposes, Gone, EmptyChain;
    DisposesNothing(st, now);
    if n < |st.chains| {
      var st1 := EmptyChain(st, n, now);
      EmptyChainDisposes(st, n, now);
      EmptyFromDisposes(st1, n + 1, now);
      DisposesTrans(st, st1, EmptyFrom(st1, n + 1, now), now);
    }
  }

  lemma {:induction false} PurgeChainDisposes(p: Params, st: State, n: nat, i: nat, t: int, now: int)
    requires n < |st.chains| && i <= |st.chains[n]|
    ensures Disposes(st, PurgeChain(p, st, n, i, t, now), now)
    decreases |st.chains[n]| - i
  {
    hide Disposes, Gone, Outdated;
    DisposesNothing(st, now);
    if i < |st.chains[n]| {
      if Outdated(p, st.chains[n][i], t) {
        RemoveDisposes(st, n, i, now);
        var st1 := RemoveAt(st, n, i, now);
        PurgeChainDisposes(p, st1, n, i, t, now);
        DisposesTrans(st, st1, PurgeChain(p, st1, n, i, t, now), now);
      } else {
        PurgeChainDisposes(p, st, n, i + 1, t, now);
      }
    }
  }

  lemma {:induction false} PurgeFromDisposes(p: Params, st: State, n: nat, t: int, now: int)
    requires n <= |st.chains|
    ensures Disposes(st, PurgeFrom(p, st, n, t, now), now)
    decreases |st.chains| - n
  {
    hide Disposes, Gone, PurgeChain;
    DisposesNothing(st, now);
    if n < |st.chains| {
      var st1 := PurgeChain(p, st, n, 0, t, now);
      PurgeChainDisposes(p, st, n, 0, t, now);
      PurgeFromDisposes(p, st1, n + 1, t, now);
      DisposesTrans(st, st1, PurgeFrom(p, st1, n + 1, t, now), now);
    }
  }

  lemma {:induction false} CollectCounts(p: Params, st: State, i: nat, now: int)
    requires i <= |st.gc|
    ensures SameCounts(st, Collect(p, st, i, now)) && Collect(p, st, i, now).chains == st.chains
    decreases |st.gc| - i
  {
    hide Collectable;
    if i < |st.gc| {
      if Collectable(p, st.gc[i], now) {
        CollectCounts(p, DropGc(st, i), i, now);
      } else {
        CollectCounts(p, st, i + 1, now);
      }
    }
  }

  // ---------- the counters and the removed entries, call by call ----------

  // A busy cache refuses an insert, which counts once if it succeeds. An entry of another key or of its own
  // that is no longer in its chain is freed or waits, counted from now.
  lemma InsertEffect(p: Params, st: State, key: Key, val: int, ttl: nat, size: nat, t: int, exclusive: bool, now: int)
    requires p.nslots >= 1 && |st.chains| == p.nslots
    ensures var (st', ok) := Insert(p, st, key, val, ttl, size, t, exclusive, now);
      && (st.busy ==> st' == st && !ok)
      && st'.ninserts == st.ninserts + (if ok then 1 else 0)
      && st'.nhits == st.nhits && st'.nmisses == st.nmisses && st'.nexpunges == st.nexpunges
      && forall n, e :: 0 <= n < |st.chains| && e in st.chains[n] ==> e in st'.chains[n] || Gone(st', e, now)
  {
    hide Collect, Swept, Gone, Slot;
    if !st.busy {
      var n := Slot(key.h, p.nslots);
      var s := Collect(p, st, 0, now);
      CollectCounts(p, st, 0, now);
      SweptDisposes(p, s, n, 0, key, t, exclusive, now);
      var w := Swept(p, s, n, 0, key, t, exclusive, now);
      if !w.refused { PutKeeps(w.st, n, w.at, NewEntry(w.st, key, val, ttl, size, t), now); }
    }
  }

  lemma PutKeeps(st: State, n: nat, i: nat, new_: Entry, now: int)
    requires n < |st.chains| && i <= |st.chains[n]|
    ensures forall m, e :: 0 <= m < |st.chains| && e in st.chains[m] ==> e in PutAt(st, n, i, new_).chains[m]
    ensures forall e :: Gone(st, e, now) ==> Gone(PutAt(st, n, i, new_), e, now)
  {
    assert st.chains[n] == st.chains[n][..i] + st.chains[n][i..];
  }

  // A busy cache turns a find away; any other find counts as a hit or as a miss.
  lemma FindEffect(p: Params, st: State, key: Key, t: int)
    requires p.nslots >= 1 && |st.chains| == p.nslots
    ensures var (st', r) := Find(p, st, key, t);
      && (st.busy ==> st' == st && r == None)
      && st'.nhits == st.nhits + (if r.Some? then 1 else 0)
      && st'.nmisses == st.nmisses + (if r.None? && !st.busy then 1 else 0)
      && st'.ninserts == st.ninserts && st'.nexpunges == st.nexpunges
      && st'.nentries == st.nentries && st'.memSize == st.memSize && st'.gc == st.gc && st'.freed == st.freed
  {
    hide Slot, Seek, Expired;
  }

  // A release moves no counter.
  lemma ReleaseEffect(st: State, id: nat)
    ensures SameCounts(st, Release(st, id)) && Release(st, id).freed == st.freed
    ensures Release(st, id).nentries == st.nentries && Release(st, id).memSize == st.memSize
  {}

  // A delete moves the counters of entries and bytes only, and its entry is freed
  // or waits.
  lemma DeleteEffect(p: Params, st: State, key: Key, now: int)
    requires Inv(p, st)
    ensures p.nslots >= 1 && |st.chains| == p.nslots
    ensures var st' := Delete(p, st, key, now).0;
      && SameCounts(st, st')
      && match Lookup(p, st, key)
         case None => st' == st
         case Some(e) => && Gone(st', e, now)
                         && st'.nentries == st.nentries - 1 && st'.memSize == st.memSize - e.size
  {
    hide Slot, Seek, Shape, Totals, Census, Counted, Gone, Flat;
    ShapeOf(p, st);
    var n := Slot(key.h, p.nslots);
    var i := Seek(st.chains[n], key, 0);
    if i < |st.chains[n]| {
      RemoveDisposes(st, n, i, now);
      var x, y := WithoutSplices(st.chains, n, i);
      SumIsNat(st, n, i, x, y);
    }
  }

  lemma EmptyCounts(p: Params, st: State)
    requires Inv(p, st) && forall n :: 0 <= n < |st.chains| ==> st.chains[n] == []
    ensures st.nentries == 0 && st.memSize == 0
  {
    FlatEmpty(st.chains);
  }

  // What a real expunge leaves.
  lemma RealExpungeEffect(p: Params, st: State, now: int)
    requires Inv(p, st)
    ensures var st' := RealExpunge(st, now);
      && (forall n :: 0 <= n < |st'.chains| ==> st'.chains[n] == [])
      && st'.nentries == st'.memSize == 0 && st'.ninserts == st'.nhits == st'.nmisses == 0
      && st'.nexpunges == st.nexpunges + 1
      && forall n, e :: 0 <= n < |st.chains| && e in st.chains[n] ==> Gone(st', e, now)
  {
    hide Inv, EmptyFrom, Gone, InChain;
    ExpungeEmpties(p, st, now);
    var st1 := st.(nexpunges := st.nexpunges + 1);
    EmptyFromDisposes(st1, 0, now);
    var st2, st' := EmptyFrom(st1, 0, now), RealExpunge(st, now);
    forall n, e | 0 <= n < |st.chains| && e in st.chains[n] ensures Gone(st', e, now) {
      assert st'.chains[n] == [] && st2.chains[n] == [];
      SameGone(st2, st', e, now);
    }
  }

  lemma SameGone(st: State, st': State, e: Entry, now: int)
    requires st'.gc == st.gc && st'.freed == st.freed
    ensures Gone(st', e, now) == Gone(st, e, now)
  {}

  // A busy cache is left alone.
  lemma BusyStays(p: Params, st: State, short: bool, fits: bool, t: int, now: int)
    requires st.busy
    ensures Clear(st, now) == st && DefaultExpunge(p, st, short, fits, t, now) == st
  {
    hide RealExpunge, Collect, PurgeFrom;
  }

  // A clear of a cache that is not busy leaves no key, no counter and no busy
  // flag; each of its entries is freed, or waits for whoever holds it.
  lemma ClearMaps(p: Params, st: State, now: int)
    requires Inv(p, st) && !st.busy
    ensures p.nslots >= 1 && |st.chains| == p.nslots
    ensures var st' := Clear(st, now);
      && Inv(p, st') && !st'.busy && st'.held == st.held && st'.next == st.next
      && (forall n :: 0 <= n < |st'.chains| ==> st'.chains[n] == [])
      && (forall key :: Lookup(p, st', key) == None)
      && st'.nentries == st'.memSize == 0
      && st'.ninserts == st'.nhits == st'.nmisses == st'.nexpunges == 0
      && forall n, e :: 0 <= n < |st.chains| && e in st.chains[n] ==> Gone(st', e, now)
  {
    hide Inv, InChain, RealExpunge, Lookup, Gone;
    ShapeOf(p, st);
    ClearSafe(p, st, now);
    var st1 := st.(busy := true);
    InvOnly(p, st, st1);
    RealExpungeEffect(p, st1, now);
    var st' := Clear(st, now);
    EmptyCounts(p, st');
    forall key ensures Lookup(p, st', key) == None { EmptyLookup(p, st', key); }
    forall n, e | 0 <= n < |st.chains| && e in st.chains[n] ensures Gone(st', e, now) {
      SameGone(RealExpunge(st1, now), st', e, now);
    }
  }

  // The default expunge counts only where it empties the cache: short of memory,
  // and without a lifetime of the cache or with a purge that does not help.
  lemma ExpungeEffect(p: Params, st: State, short: bool, fits: bool, t: int, now: int)
    requires Inv(p, st) && !st.busy
    ensures var st' := DefaultExpunge(p, st, short, fits, t, now);
      && !st'.busy
      && (if short && (p.ttl == 0 || !fits)
          then st'.nexpunges == st.nexpunges + 1 && st'.nentries == st'.memSize == 0
               && st'.ninserts == st'.nhits == st'.nmisses == 0
          else SameCounts(st, st'))
      && forall n, e :: 0 <= n < |st.chains| && e in st.chains[n] ==> e in st'.chains[n] || Gone(st', e, now)
  {
    hide Inv, InChain, RealExpunge, Collect, PurgeFrom, Gone, Overdue;
    var st1 := st.(busy := true);
    InvOnly(p, st, st1);
    var s := Collect(p, st1, 0, now);
    CollectSafe(p, st1, 0, now);
    CollectCounts(p, st1, 0, now);
    var q := PurgeFrom(p, s, 0, t, now);
    PurgeFromSafe(p, s, 0, t, now);
    PurgeFromDisposes(p, s, 0, t, now);
    RealExpungeEffect(p, s, now);
    RealExpungeEffect(p, q, now);
    var st' := DefaultExpunge(p, st, short, fits, t, now);
    var r := if !short then s
             else if p.ttl == 0 then RealExpunge(s, now)
             else if fits then q else RealExpunge(q, now);
    forall n, e | 0 <= n < |st.chains| && e in st.chains[n] ensures e in st'.chains[n] || Gone(st', e, now) {
      assert e in s.chains[n];
      assert e in q.chains[n] || Gone(q, e, now);
      if short && p.ttl != 0 && !fits && e !in q.chains[n] { StaysGone(p, q, e, now); }
      SameGone(r, st', e, now);
    }
  }

  // An expunge keeps what was freed or waits already.
  lemma StaysGone(p: Params, st: State, e: Entry, now: int)
    requires Gone(st, e, now)
    ensures Gone(RealExpunge(st, now), e, now)
  {
    hide EmptyFrom;
    EmptyFromDisposes(st.(nexpunges := st.nexpunges + 1), 0, now);
  }
}
