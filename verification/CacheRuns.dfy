/** What holds of the cache over every run. */
module CacheRuns {
  import opened Options
  import opened Slots
  import opened CacheSpec
  import opened CacheSteps

  // ---------- stretches of removals ----------

  ghost predicate InChain(st: State, id: nat) {
    exists n, i :: 0 <= n < |st.chains| && 0 <= i < |st.chains[n]| && st.chains[n][i].id == id
  }

  // Only entries without a handle have been freed in between, and what is new on
  // the gc list was taken from a chain now.
  ghost predicate Spares(st: State, st': State, now: int) {
    && (forall e :: e in st'.gc ==> e in st.gc || (e.dtime == now && InChain(st, e.id)))
    && (forall id :: InChain(st', id) ==> InChain(st, id))
    && st'.held == st.held && st'.next == st.next && st'.busy == st.busy && st.freed <= st'.freed
    && forall id :: id in st'.freed && id !in st.freed ==> id !in st.held
  }

  lemma SparesTrans(a: State, b: State, c: State, now: int)
    requires Spares(a, b, now) && Spares(b, c, now)
    ensures Spares(a, c, now)
  {
    hide InChain;
  }

  lemma SameChained(a: State, b: State)
    requires a.chains == b.chains
    ensures forall id :: InChain(a, id) == InChain(b, id)
  {}

  // Taking an entry out of a chain puts nothing else into one.
  lemma RemoveChained(st: State, n: nat, i: nat, now: int)
    requires n < |st.chains| && i < |st.chains[n]|
    ensures InChain(st, st.chains[n][i].id)
    ensures forall id :: InChain(RemoveAt(st, n, i, now), id) ==> InChain(st, id)
  {
    hide Retired;
    var chains': seq<seq<Entry>> := RemoveAt(st, n, i, now).chains;
    forall id | InChain(RemoveAt(st, n, i, now), id) ensures InChain(st, id) {
      var m, j :| 0 <= m < |chains'| && 0 <= j < |chains'[m]| && chains'[m][j].id == id;
      var k := if m == n && j >= i then j + 1 else j;
      assert st.chains[m][k].id == id;
    }
  }

  lemma RemoveSafe(p: Params, st: State, n: nat, i: nat, now: int)
    requires Inv(p, st) && n < |st.chains| && i < |st.chains[n]|
    ensures Inv(p, RemoveAt(st, n, i, now)) && Spares(st, RemoveAt(st, n, i, now), now)
  {
    hide Shape, Census, Totals, Flat, InChain;
    RemoveKeepsInv(p, st, n, i, now);
    RemoveChained(st, n, i, now);
    ChainIn(st.chains, n, i);
  }

  lemma {:induction false} SweptSafe(p: Params, st: State, n: nat, i: nat, key: Key, t: int, exclusive: bool, now: int)
    requires Inv(p, st) && n < |st.chains| && i <= |st.chains[n]|
    ensures var w := Swept(p, st, n, i, key, t, exclusive, now); Inv(p, w.st) && Spares(st, w.st, now)
    decreases |st.chains[n]| - i
  {
    hide InChain, Inv, Stale, Slot;
    if i < |st.chains[n]| {
      var e := st.chains[n][i];
      RemoveSafe(p, st, n, i, now);
      if e.key == key {
      } else if Stale(p, e, t) {
        SweptSafe(p, RemoveAt(st, n, i, now), n, i, key, t, exclusive, now);
      } else {
        SweptSafe(p, st, n, i + 1, key, t, exclusive, now);
      }
    }
  }

  lemma {:induction false} EmptyChainSafe(p: Params, st: State, n: nat, now: int)
    requires Inv(p, st) && n < |st.chains|
    ensures var r := EmptyChain(st, n, now); Inv(p, r) && Spares(st, r, now) && r.chains == st.chains[n := []]
    decreases |st.chains[n]|
  {
    hide InChain, Inv;
    if st.chains[n] != [] {
      RemoveSafe(p, st, n, 0, now);
      EmptyChainSafe(p, RemoveAt(st, n, 0, now), n, now);
    }
  }

  lemma {:induction false} EmptyFromSafe(p: Params, st: State, n: nat, now: int)
    requires Inv(p, st) && n <= |st.chains|
    ensures var r := EmptyFrom(st, n, now); Inv(p, r) && Spares(st, r, now)
    ensures forall m :: 0 <= m < |st.chains| ==> EmptyFrom(st, n, now).chains[m] == if m < n then st.chains[m] else []
    decreases |st.chains| - n
  {
    hide InChain, Inv;
    if n < |st.chains| {
      EmptyChainSafe(p, st, n, now);
      EmptyFromSafe(p, EmptyChain(st, n, now), n + 1, now);
    }
  }

  lemma {:induction false} FlatEmpty(chains: seq<seq<Entry>>)
    requires forall m :: 0 <= m < |chains| ==> chains[m] == []
    ensures Flat(chains) == []
  {
    if chains != [] { FlatEmpty(chains[1..]); }
  }

  lemma InvOnly(p: Params, st: State, st': State)
    requires Inv(p, st)
    requires st'.chains == st.chains && st'.gc == st.gc && st'.freed == st.freed && st'.held == st.held
      && st'.next == st.next
    requires st'.memSize == st.memSize && st'.nentries == st.nentries
    ensures Inv(p, st')
  {
    assert Places(st') == Places(st);
  }

  // An expunge leaves nothing behind, and its reset of the entry count is no news.
  lemma ExpungeEmpties(p: Params, st: State, now: int)
    requires Inv(p, st)
    ensures var r := RealExpunge(st, now);
      && Inv(p, r) && Spares(st, r, now) && r.nentries == 0 && r.memSize == 0
      && (forall m :: 0 <= m < |r.chains| ==> r.chains[m] == [])
      && EmptyFrom(st.(nexpunges := st.nexpunges + 1), 0, now).nentries == 0
  {
    hide Flat, Shape, Census, Counted, InChain;
    var st1 := st.(nexpunges := st.nexpunges + 1);
    InvOnly(p, st, st1);
    EmptyFromSafe(p, st1, 0, now);
    var st2 := EmptyFrom(st1, 0, now);
    FlatEmpty(st2.chains);
    assert Totals(st2);
    InvOnly(p, st2, RealExpunge(st, now));
    SameChained(st, st1);
    SameChained(st2, RealExpunge(st, now));
  }

  lemma {:induction false} PurgeChainSafe(p: Params, st: State, n: nat, i: nat, t: int, now: int)
    requires Inv(p, st) && n < |st.chains| && i <= |st.chains[n]|
    ensures var r := PurgeChain(p, st, n, i, t, now); Inv(p, r) && Spares(st, r, now)
    decreases |st.chains[n]| - i
  {
    hide InChain, Inv, Outdated;
    if i < |st.chains[n]| {
      RemoveSafe(p, st, n, i, now);
      if Outdated(p, st.chains[n][i], t) {
        PurgeChainSafe(p, RemoveAt(st, n, i, now), n, i, t, now);
      } else {
        PurgeChainSafe(p, st, n, i + 1, t, now);
      }
    }
  }

  lemma {:induction false} PurgeFromSafe(p: Params, st: State, n: nat, t: int, now: int)
    requires Inv(p, st) && n <= |st.chains|
    ensures var r := PurgeFrom(p, st, n, t, now); Inv(p, r) && Spares(st, r, now)
    decreases |st.chains| - n
  {
    hide InChain, Inv;
    if n < |st.chains| {
      PurgeChainSafe(p, st, n, 0, t, now);
      PurgeFromSafe(p, PurgeChain(p, st, n, 0, t, now), n + 1, t, now);
    }
  }

  // ---------- collection ----------

  // id is on the gc list and has been there for more than gcTtl seconds.
  ghost predicate Overdue(p: Params, st: State, id: nat, now: int) {
    p.gcTtl != 0 && exists e :: e in st.gc && e.id == id && now - e.dtime > p.gcTtl
  }

  // Only entries without a handle, and overdue ones, have been freed in between,
  // and what is new on the gc list was taken from a chain now.
  ghost predicate Collects(p: Params, st: State, st': State, now: int) {
    && (forall e :: e in st'.gc ==> e in st.gc || (e.dtime == now && InChain(st, e.id)))
    && st'.held == st.held && st'.busy == st.busy && st.freed <= st'.freed
    && forall id :: id in st'.freed && id !in st.freed && id in st.held ==> Overdue(p, st, id, now)
  }

  lemma DropSafe(p: Params, st: State, i: nat, now: int)
    requires Inv(p, st) && i < |st.gc| && Collectable(p, st.gc[i], now)
    ensures Inv(p, DropGc(st, i)) && Collects(p, st, DropGc(st, i), now)
    ensures forall id :: Overdue(p, DropGc(st, i), id, now) ==> Overdue(p, st, id, now)
  {
    hide Shape, Census, Totals, Flat, InChain;
    DropKeepsInv(p, st, i);
    assert st.gc[i] in st.gc;
  }

  lemma {:induction false} CollectSafe(p: Params, st: State, i: nat, now: int)
    requires Inv(p, st) && i <= |st.gc|
    ensures var r := Collect(p, st, i, now); Inv(p, r) && Collects(p, st, r, now)
    decreases |st.gc| - i
  {
    hide Inv, Overdue, Collectable, InChain;
    if i < |st.gc| {
      if Collectable(p, st.gc[i], now) {
        SameChained(st, DropGc(st, i));
        DropSafe(p, st, i, now);
        CollectSafe(p, DropGc(st, i), i, now);
      } else {
        CollectSafe(p, st, i + 1, now);
      }
    }
  }

  // A collection leaves on the gc list exactly what somebody refers to and has not
  // been there for more than gcTtl seconds.
  lemma CollectLeaves(p: Params, st: State, now: int, e: Entry)
    ensures e in Collect(p, st, 0, now).gc <==>
      e in st.gc && e.refs != 0 && (p.gcTtl == 0 || now - e.dtime <= p.gcTtl)
  {
    hide Collect, Collectable;
    CollectRest(p, st, 0, now, e);
    CollectableHow(p, e, now);
  }

  lemma {:induction false} CollectRest(p: Params, st: State, i: nat, now: int, e: Entry)
    requires i <= |st.gc| && forall j :: 0 <= j < i ==> !Collectable(p, st.gc[j], now)
    ensures e in Collect(p, st, i, now).gc <==> e in st.gc && !Collectable(p, e, now)
    decreases |st.gc| - i
  {
    hide Collectable;
    var gc := st.gc;
    if i < |gc| {
      if Collectable(p, gc[i], now) {
        CollectRest(p, DropGc(st, i), i, now, e);
        assert gc == gc[..i] + [gc[i]] + gc[i + 1..];
      } else {
        CollectRest(p, st, i + 1, now, e);
      }
    }
  }

  lemma CollectThenSpare(p: Params, a: State, b: State, c: State, now: int)
    requires Collects(p, a, b, now) && Spares(b, c, now) && b.chains == a.chains
    ensures Collects(p, a, c, now)
  {
    hide Overdue, InChain;
    SameChained(a, b);
  }

  // ---------- the walk of insert ----------

  function Fresh(p: Params, es: seq<Entry>, t: int): (r: seq<Entry>)
    ensures |r| <= |es|
    ensures forall e :: e in r <==> e in es && !Stale(p, e, t)
  {
    if es == [] then [] else (if Stale(p, es[0], t) then [] else [es[0]]) + Fresh(p, es[1..], t)
  }

  // The chain es swept of stale entries between i and m, and cut short up to end.
  function Cleared(p: Params, es: seq<Entry>, i: nat, m: nat, end: nat, t: int): seq<Entry>
    requires i <= m <= end <= |es|
  {
    es[..i] + Fresh(p, es[i..m], t) + es[end..]
  }

  lemma ClearedStale(p: Params, es: seq<Entry>, i: nat, m: nat, end: nat, t: int)
    requires i < m <= end <= |es| && Stale(p, es[i], t)
    ensures Cleared(p, Without(es, i), i, m - 1, end - 1, t) == Cleared(p, es, i, m, end, t)
    ensures Fresh(p, Without(es, i)[i..m - 1], t) == Fresh(p, es[i..m], t)
  {
    hide Stale;
    assert es[i..m][0] == es[i] && es[i..m][1..] == es[i + 1..m];
    assert Without(es, i)[i..m - 1] == es[i + 1..m];
    assert Without(es, i)[end - 1..] == es[end..] && Without(es, i)[..i] == es[..i];
  }

  lemma ClearedKept(p: Params, es: seq<Entry>, i: nat, m: nat, end: nat, t: int)
    requires i < m <= end <= |es| && !Stale(p, es[i], t)
    ensures Cleared(p, es, i + 1, m, end, t) == Cleared(p, es, i, m, end, t)
    ensures |Fresh(p, es[i..m], t)| == 1 + |Fresh(p, es[i + 1..m], t)|
  {
    hide Stale;
    assert es[i..m][0] == es[i] && es[i..m][1..] == es[i + 1..m];
    assert es[..i + 1] == es[..i] + [es[i]];
  }

  lemma ClearedHere(p: Params, es: seq<Entry>, i: nat, end: nat, t: int)
    requires i <= end <= |es|
    ensures Cleared(p, es, i, i, end, t) == es[..i] + es[end..] && Fresh(p, es[i..i], t) == []
  {}

  // w is where the walk down chain n from i ends: it drops the stale entries
  // before the key, and the entry of the key itself unless it refuses; it refuses
  // exactly a live entry of the key when exclusive.
  ghost predicate WalkResult(p: Params, st: State, n: nat, i: nat, key: Key, t: int, exclusive: bool, w: Sweep)
    requires n < |st.chains| && i <= |st.chains[n]|
  {
    var es := st.chains[n];
    var m := Seek(es, key, i);
    && w.refused == (m < |es| && exclusive && !Expired(es[m], t))
    && w.at == i + |Fresh(p, es[i..m], t)|
    && w.st.chains == st.chains[n := Cleared(p, es, i, m, if m < |es| && !w.refused then m + 1 else m, t)]
  }

  lemma {:induction false} SweptChain(p: Params, st: State, n: nat, i: nat, key: Key, t: int, exclusive: bool, now: int)
    requires n < |st.chains| && i <= |st.chains[n]|
    ensures WalkResult(p, st, n, i, key, t, exclusive, Swept(p, st, n, i, key, t, exclusive, now))
    decreases |st.chains[n]| - i
  {
    hide Stale, WalkResult, Expired;
    var es := st.chains[n];
    if i == |es| || es[i].key == key {
      SweptEnds(p, st, n, i, key, t, exclusive, now);
    } else if Stale(p, es[i], t) {
      SweptChain(p, RemoveAt(st, n, i, now), n, i, key, t, exclusive, now);
      WalkStale(p, st, n, i, key, t, exclusive, now, Swept(p, st, n, i, key, t, exclusive, now));
    } else {
      SweptChain(p, st, n, i + 1, key, t, exclusive, now);
      WalkKept(p, st, n, i, key, t, exclusive, Swept(p, st, n, i, key, t, exclusive, now));
    }
  }

  lemma WalkStale(p: Params, st: State, n: nat, i: nat, key: Key, t: int, exclusive: bool, now: int, w: Sweep)
    requires n < |st.chains| && i < |st.chains[n]| && st.chains[n][i].key != key && Stale(p, st.chains[n][i], t)
    requires WalkResult(p, RemoveAt(st, n, i, now), n, i, key, t, exclusive, w)
    ensures WalkResult(p, st, n, i, key, t, exclusive, w)
  {
    hide Stale, Cleared, Fresh, RemoveAt, Without, Seek, Expired;
    var es := st.chains[n];
    var m := Seek(es, key, i);
    var end := if m < |es| && !w.refused then m + 1 else m;
    SeekShift(es, key, i);
    SeekHits(es, key, i);
    ClearedStale(p, es, i, m, end, t);
    Overwrite(st.chains, n, Without(es, i), Cleared(p, es, i, m, end, t));
  }

  lemma WalkKept(p: Params, st: State, n: nat, i: nat, key: Key, t: int, exclusive: bool, w: Sweep)
    requires n < |st.chains| && i < |st.chains[n]| && st.chains[n][i].key != key && !Stale(p, st.chains[n][i], t)
    requires WalkResult(p, st, n, i + 1, key, t, exclusive, w)
    ensures WalkResult(p, st, n, i, key, t, exclusive, w)
  {
    hide Stale, Cleared, Fresh, Seek, Expired;
    var es := st.chains[n];
    var m := Seek(es, key, i);
    SeekShift(es, key, i);
    ClearedKept(p, es, i, m, if m < |es| && !w.refused then m + 1 else m, t);
  }

  lemma SweptEnds(p: Params, st: State, n: nat, i: nat, key: Key, t: int, exclusive: bool, now: int)
    requires n < |st.chains| && i <= |st.chains[n]| && (i == |st.chains[n]| || st.chains[n][i].key == key)
    ensures WalkResult(p, st, n, i, key, t, exclusive, Swept(p, st, n, i, key, t, exclusive, now))
  {
    hide Stale, Slot, Cleared, Fresh;
    var es := st.chains[n];
    ClearedHere(p, es, i, i, t);
    assert es == es[..i] + es[i..];
    if i < |es| { ClearedHere(p, es, i, i + 1, t); }
  }

  lemma Overwrite(chains: seq<seq<Entry>>, n: nat, a: seq<Entry>, b: seq<Entry>)
    requires n < |chains|
    ensures chains[n := a][n := b] == chains[n := b]
  {}

  lemma {:induction false} SeekShift(es: seq<Entry>, key: Key, i: nat)
    requires i < |es| && es[i].key != key
    ensures Seek(es, key, i) == Seek(es, key, i + 1) >= i + 1
    ensures Seek(Without(es, i), key, i) == Seek(es, key, i) - 1
  {
    var es', m := Without(es, i), Seek(es, key, i + 1);
    assert forall j :: i <= j < |es'| ==> es'[j] == es[j + 1];
    SeekIs(es', key, i, m - 1);
  }

  lemma SeekIs(es: seq<Entry>, key: Key, i: nat, m: nat)
    requires i <= m <= |es| && (m < |es| ==> es[m].key == key)
    requires forall j :: i <= j < m ==> es[j].key != key
    ensures Seek(es, key, i) == m
  {
    var r := Seek(es, key, i);
    assert !(r < m) && !(m < r);
  }

  // The entry of the key is the same one after its predecessor has gone.
  lemma SeekHits(es: seq<Entry>, key: Key, i: nat)
    requires i < |es| && es[i].key != key
    ensures var m := Seek(es, key, i);
      |Without(es, i)| == |es| - 1 && m >= i + 1 && (m < |es| ==> Without(es, i)[m - 1] == es[m])
  {
    SeekShift(es, key, i);
  }

  // ---------- steps and runs ----------

  datatype Op =
    | InsertOp(key: Key, val: int, ttl: nat, size: nat, t: int, exclusive: bool, now: int)
    | FindOp(key: Key, t: int)
    | ReleaseOp(id: nat)
    | DeleteOp(key: Key, now: int)
    | ClearOp(now: int)
    | ExpungeOp(short: bool, fits: bool, t: int, now: int)
    | GcOp(now: int)

  function Step(p: Params, st: State, op: Op): (r: State)
    requires p.nslots >= 1 && |st.chains| == p.nslots
    ensures |r.chains| == p.nslots
  {
    match op
    case InsertOp(key, val, ttl, size, t, exclusive, now) => Insert(p, st, key, val, ttl, size, t, exclusive, now).0
    case FindOp(key, t) => Find(p, st, key, t).0
    case ReleaseOp(id) => Release(st, id)
    case DeleteOp(key, now) => Delete(p, st, key, now).0
    case ClearOp(now) => Clear(st, now)
    case ExpungeOp(short, fits, t, now) => DefaultExpunge(p, st, short, fits, t, now)
    case GcOp(now) => Collect(p, st, 0, now)
  }

  // Keys are terminated, and only a live entry is released by who holds it.
  ghost predicate Legal(st: State, op: Op) {
    match op
    case InsertOp(key, _, _, _, _, _, _) => Terminated(key.str)
    case ReleaseOp(id) => id in st.held && id !in st.freed
    case _ => true
  }

  function Clock(op: Op): int {
    match op
    case InsertOp(_, _, _, _, _, _, now) => now
    case DeleteOp(_, now) => now
    case ClearOp(now) => now
    case ExpungeOp(_, _, _, now) => now
    case GcOp(now) => now
    case _ => 0
  }

  lemma InsertSafe(p: Params, st: State, key: Key, val: int, ttl: nat, size: nat, t: int, exclusive: bool, now: int)
    requires Inv(p, st) && Terminated(key.str)
    ensures var r := Insert(p, st, key, val, ttl, size, t, exclusive, now).0; Inv(p, r) && Collects(p, st, r, now)
  {
    hide Inv, Swept, Overdue, PutAt, Cleared, Slot, Terminated, InChain;
    if !st.busy {
      ShapeOf(p, st);
      var n := Slot(key.h, p.nslots);
      var st1 := Collect(p, st, 0, now);
      CollectSafe(p, st, 0, now);
      SweptSafe(p, st1, n, 0, key, t, exclusive, now);
      SweptChain(p, st1, n, 0, key, t, exclusive, now);
      var w := Swept(p, st1, n, 0, key, t, exclusive, now);
      CollectThenSpare(p, st, st1, w.st, now);
      if !w.refused {
        SweptVacates(p, st1, n, key, t, w.st.chains[n]);
        var e := NewEntry(w.st, key, val, ttl, size, t);
        PutKeepsInv(p, w.st, n, w.at, e);
        PutFrame(w.st, n, w.at, e);
      }
    }
  }

  lemma ShapeOf(p: Params, st: State)
    requires Inv(p, st)
    ensures p.nslots >= 1 && |st.chains| == p.nslots
  {}

  lemma PutFrame(st: State, n: nat, i: nat, e: Entry)
    requires n < |st.chains| && i <= |st.chains[n]|
    ensures var r := PutAt(st, n, i, e); r.held == st.held && r.freed == st.freed && r.busy == st.busy && r.gc == st.gc
  {}

  // After the walk that did not refuse, no entry of the key is left in its chain.
  lemma SweptVacates(p: Params, st: State, n: nat, key: Key, t: int, es': seq<Entry>)
    requires Inv(p, st) && n < |st.chains| && Slot(key.h, p.nslots) == n && Terminated(key.str)
    requires var es := st.chains[n]; var m := Seek(es, key, 0);
      es' == Cleared(p, es, 0, m, if m < |es| then m + 1 else m, t)
    ensures forall i :: 0 <= i < |es'| ==> es'[i].key != key
  {
    hide Census, Totals, Counted, Slot, Terminated, Stale;
    var es := st.chains[n];
    var m := Seek(es, key, 0);
    forall i | 0 <= i < |es'| ensures es'[i].key != key {
      var e := es'[i];
      assert e in Fresh(p, es[0..m], t) || e in es[if m < |es| then m + 1 else m..];
      if e in es[0..m] {
      } else {
        var j :| (if m < |es| then m + 1 else m) <= j < |es| && es[j] == e;
        assert es[m].key != es[j].key;
      }
    }
  }

  // Entry id has been on the gc list since time d.
  ghost predicate Waits(st: State, id: nat, d: int) {
    exists e :: e in st.gc && e.id == id && e.dtime == d
  }

  // Every step keeps the invariant; handles go away only by their release; what
  // is freed stays freed; an entry somebody holds is freed only when overdue; and
  // the time on the gc list is counted from the step that took the entry from its
  // chain.
  lemma StepSafe(p: Params, st: State, op: Op)
    requires Inv(p, st) && Legal(st, op)
    ensures var st' := Step(p, st, op);
      && Inv(p, st') && st'.busy == st.busy && st.freed <= st'.freed
      && st.held - (if op.ReleaseOp? then multiset{op.id} else multiset{}) <= st'.held
      && (forall id :: id in st.held && id in st'.freed && id !in st.freed ==> Overdue(p, st, id, Clock(op)))
      && forall id, d :: Waits(st', id, d) ==> Waits(st, id, d) || (d == Clock(op) && InChain(st, id))
  {
    hide Inv, Overdue, Insert, Collect, RealExpunge, Seek, DefaultExpunge, InChain, Clear, Delete, Find, Release, Waits;
    ShapeOf(p, st);
    match op
    case InsertOp(key, val, ttl, size, t, exclusive, now) =>
      InsertSafe(p, st, key, val, ttl, size, t, exclusive, now);
      NewlyWaiting(p, st, Step(p, st, op), now);
    case FindOp(key, t) =>
      FindSafe(p, st, key, t);
      StillWaiting(st, Step(p, st, op));
    case ReleaseOp(id) =>
      ReleaseKeepsInv(p, st, id);
      ReleaseWaits(st, id);
    case DeleteOp(key, now) =>
      DeleteSafe(p, st, key, now);
      NewlyWaiting(p, st, Step(p, st, op), now);
    case ClearOp(now) =>
      ClearSafe(p, st, now);
      NewlyWaiting(p, st, Step(p, st, op), now);
    case ExpungeOp(short, fits, t, now) =>
      ExpungeSafe(p, st, short, fits, t, now);
      NewlyWaiting(p, st, Step(p, st, op), now);
    case GcOp(now) =>
      CollectSafe(p, st, 0, now);
      NewlyWaiting(p, st, Step(p, st, op), now);
  }

  lemma NewlyWaiting(p: Params, st: State, st': State, now: int)
    requires forall e :: e in st'.gc ==> e in st.gc || (e.dtime == now && InChain(st, e.id))
    ensures forall id, d :: Waits(st', id, d) ==> Waits(st, id, d) || (d == now && InChain(st, id))
  {
    hide InChain;
  }

  lemma StillWaiting(st: State, st': State)
    requires st'.gc == st.gc
    ensures forall id, d :: Waits(st', id, d) == Waits(st, id, d)
  {}

  // A release leaves the time of every entry of the gc list alone.
  lemma ReleaseWaits(st: State, id: nat)
    ensures forall x, d :: Waits(Release(st, id), x, d) ==> Waits(st, x, d)
    ensures Release(st, id).freed == st.freed && Release(st, id).busy == st.busy
    ensures Release(st, id).held == st.held - multiset{id}
  {
    var gc' := Release(st, id).gc;
    forall x, d | Waits(Release(st, id), x, d) ensures Waits(st, x, d) {
      var e :| e in gc' && e.id == x && e.dtime == d;
      var i :| 0 <= i < |gc'| && gc'[i] == e;
      assert st.gc[i] in st.gc;
    }
  }

  // A delete and a clear free nothing that somebody holds.
  lemma DeleteSafe(p: Params, st: State, key: Key, now: int)
    requires Inv(p, st)
    ensures var st' := Delete(p, st, key, now).0; Inv(p, st') && Spares(st, st', now)
  {
    hide Inv, InChain, Seek, Slot;
    ShapeOf(p, st);
    var n := Slot(key.h, p.nslots);
    var i := Seek(st.chains[n], key, 0);
    if i < |st.chains[n]| { RemoveSafe(p, st, n, i, now); }
  }

  lemma ClearSafe(p: Params, st: State, now: int)
    requires Inv(p, st)
    ensures var st' := Clear(st, now); Inv(p, st') && Spares(st, st', now)
  {
    hide Inv, InChain, RealExpunge;
    if !st.busy {
      var st1 := st.(busy := true);
      InvOnly(p, st, st1);
      SameChained(st, st1);
      var r := RealExpunge(st1, now);
      ExpungeEmpties(p, st1, now);
      InvOnly(p, r, Clear(st, now));
      SameChained(r, Clear(st, now));
    }
  }

  lemma FindSafe(p: Params, st: State, key: Key, t: int)
    requires Inv(p, st)
    ensures var st' := Find(p, st, key, t).0;
      Inv(p, st') && st'.busy == st.busy && st'.freed == st.freed && st.held <= st'.held && st'.gc == st.gc
  {
    hide Inv;
    ShapeOf(p, st);
    var n := Slot(key.h, p.nslots);
    var i := Seek(st.chains[n], key, 0);
    InvOnly(p, st, st.(nmisses := st.nmisses + 1));
    if i < |st.chains[n]| { HitKeepsInv(p, st, n, i, t); }
  }

  lemma ExpungeSafe(p: Params, st: State, short: bool, fits: bool, t: int, now: int)
    requires Inv(p, st)
    ensures var st' := DefaultExpunge(p, st, short, fits, t, now); Inv(p, st') && Collects(p, st, st', now)
  {
    hide Inv, Overdue, Collect, RealExpunge, PurgeFrom, InChain;
    if !st.busy {
      var st1 := st.(busy := true);
      InvOnly(p, st, st1);
      var s := Collect(p, st1, 0, now);
      CollectSafe(p, st1, 0, now);
      var q := PurgeFrom(p, s, 0, t, now);
      PurgeFromSafe(p, s, 0, t, now);
      ExpungeEmpties(p, s, now);
      ExpungeEmpties(p, q, now);
      SparesTrans(s, q, RealExpunge(q, now), now);
      CollectThenSpare(p, st1, s, q, now);
      CollectThenSpare(p, st1, s, RealExpunge(s, now), now);
      CollectThenSpare(p, st1, s, RealExpunge(q, now), now);
      var r := if !short then s
               else if p.ttl == 0 then RealExpunge(s, now)
               else if fits then q else RealExpunge(q, now);
      InvOnly(p, r, r.(busy := false));
      OverdueOnly(p, st, st1, now);
      SameChained(st, st1);
    }
  }

  lemma OverdueOnly(p: Params, st: State, st': State, now: int)
    requires st'.gc == st.gc
    ensures forall id :: Overdue(p, st, id, now) == Overdue(p, st', id, now)
  {}

  ghost function Run(p: Params, st: State, ops: seq<Op>): (r: State)
    requires p.nslots >= 1 && |st.chains| == p.nslots
    ensures |r.chains| == p.nslots
    decreases ops
  {
    if ops == [] then st else Run(p, Step(p, st, ops[0]), ops[1..])
  }

  ghost predicate LegalRun(p: Params, st: State, ops: seq<Op>)
    requires p.nslots >= 1 && |st.chains| == p.nslots
    decreases ops
  {
    ops == [] || (Legal(st, ops[0]) && LegalRun(p, Step(p, st, ops[0]), ops[1..]))
  }

  lemma {:induction false} InitInv(p: Params)
    requires p.nslots >= 1
    ensures Inv(p, Init(p))
  {
    FlatEmpty(Init(p).chains);
  }

  lemma {:induction false} RunKeepsInv(p: Params, st: State, ops: seq<Op>)
    requires Inv(p, st) && LegalRun(p, st, ops)
    ensures Inv(p, Run(p, st, ops)) && st.freed <= Run(p, st, ops).freed
    decreases ops
  {
    hide Inv, Legal, Step, Overdue, InChain, Waits;
    ShapeOf(p, st);
    if ops != [] {
      StepSafe(p, st, ops[0]);
      RunKeepsInv(p, Step(p, st, ops[0]), ops[1..]);
    }
  }

  // ---------- handles ----------

  // Callers release only what they hold; nothing is said about whether it still exists.
  ghost predicate Honest(st: State, op: Op) {
    match op
    case InsertOp(key, _, _, _, _, _, _) => Terminated(key.str)
    case ReleaseOp(id) => id in st.held
    case _ => true
  }

  ghost predicate HonestRun(p: Params, st: State, ops: seq<Op>)
    requires p.nslots >= 1 && |st.chains| == p.nslots
    decreases ops
  {
    ops == [] || (Honest(st, ops[0]) && HonestRun(p, Step(p, st, ops[0]), ops[1..]))
  }

  ghost predicate HeldAlive(st: State) {
    forall id :: id in st.held ==> id !in st.freed
  }

  lemma StepKeepsAlive(p: Params, st: State, op: Op)
    requires Inv(p, st) && p.gcTtl == 0 && HeldAlive(st) && Honest(st, op)
    ensures Legal(st, op) && HeldAlive(Step(p, st, op))
  {
    hide Inv, Insert, Collect, RealExpunge, Release, DefaultExpunge, Delete, Clear, InChain, Waits;
    ShapeOf(p, st);
    StepSafe(p, st, op);
    var st' := Step(p, st, op);
    forall id | id in st'.held ensures id !in st'.freed {
      if id !in st.held { NewHandle(p, st, op, id); }
    }
  }

  // A handle appears only where find gives it out, on an entry of a chain.
  lemma NewHandle(p: Params, st: State, op: Op, id: nat)
    requires Inv(p, st) && Legal(st, op) && id in Step(p, st, op).held && id !in st.held
    ensures id !in Step(p, st, op).freed
  {
    hide Inv, Insert, Collect, RealExpunge, DefaultExpunge, Delete, Clear, Seek, Overdue, Expired, InChain;
    ShapeOf(p, st);
    match op
    case InsertOp(key, val, ttl, size, t, exclusive, now) => InsertSafe(p, st, key, val, ttl, size, t, exclusive, now);
    case FindOp(key, t) =>
      var n := Slot(key.h, p.nslots);
      var i := Seek(st.chains[n], key, 0);
      ChainedAlive(p, st, n, i);
    case ReleaseOp(_) =>
    case DeleteOp(key, now) => DeleteSafe(p, st, key, now);
    case ClearOp(now) => ClearSafe(p, st, now);
    case ExpungeOp(short, fits, t, now) => ExpungeSafe(p, st, short, fits, t, now);
    case GcOp(now) => CollectSafe(p, st, 0, now);
  }

  lemma ChainedAlive(p: Params, st: State, n: nat, i: nat)
    requires Inv(p, st) && n < |st.chains| && i < |st.chains[n]|
    ensures st.chains[n][i].id !in st.freed
  {
    hide Ids, Flat;
    var x, y := WithoutSplices(st.chains, n, i);
    Unique(st, x, st.chains[n][i], y);
  }

  // With no limit on the gc list, whoever releases only what they hold never
  // touches a freed entry, in any run.
  lemma {:induction false} HeldNeverFreed(p: Params, st: State, ops: seq<Op>)
    requires Inv(p, st) && p.gcTtl == 0 && HeldAlive(st) && HonestRun(p, st, ops)
    ensures LegalRun(p, st, ops) && HeldAlive(Run(p, st, ops))
    decreases ops
  {
    hide Inv, Legal, Step, HeldAlive, Honest;
    ShapeOf(p, st);
    if ops != [] {
      StepKeepsAlive(p, st, ops[0]);
      StepInv(p, st, ops[0]);
      HeldNeverFreed(p, Step(p, st, ops[0]), ops[1..]);
    }
  }

  lemma StepInv(p: Params, st: State, op: Op)
    requires Inv(p, st) && Legal(st, op)
    ensures Inv(p, Step(p, st, op))
  {
    hide Inv, Legal, Step, Overdue, InChain, Waits;
    StepSafe(p, st, op);
  }

  // ---------- places ----------

  ghost predicate InGc(st: State, id: nat) {
    exists i :: 0 <= i < |st.gc| && st.gc[i].id == id
  }

  lemma {:induction false} FlatHas(chains: seq<seq<Entry>>, k: nat) returns (n: nat, i: nat)
    requires k < |Flat(chains)|
    ensures n < |chains| && i < |chains[n]| && chains[n][i] == Flat(chains)[k]
  {
    if k < |chains[0]| {
      n, i := 0, k;
    } else {
      n, i := FlatHas(chains[1..], k - |chains[0]|);
      n := n + 1;
    }
  }

  // No other position of a chain holds the same entry.
  lemma OthersDiffer(st: State, n: nat, i: nat, m: nat, j: nat)
    requires Census(st) && n < |st.chains| && i < |st.chains[n]| && m < |st.chains| && j < |st.chains[m]|
    requires m != n || j != i
    ensures st.chains[m][j].id != st.chains[n][i].id
  {
    hide Ids, Flat, Census;
    var x, y := WithoutSplices(st.chains, n, i);
    var after := st.chains[n := Without(st.chains[n], i)];
    ChainIn(after, m, if m == n && j > i then j - 1 else j);
    Unique(st, x, st.chains[n][i], y);
  }

  lemma GcDiffers(st: State, n: nat, i: nat, j: nat)
    requires Census(st) && n < |st.chains| && i < |st.chains[n]| && j < |st.gc|
    ensures st.gc[j].id != st.chains[n][i].id
  {
    hide Ids, Flat, Census;
    var x, y := WithoutSplices(st.chains, n, i);
    Unique(st, x, st.chains[n][i], y);
  }

  ghost predicate Differ(es: seq<Entry>) {
    forall i, j :: 0 <= i < j < |es| ==> es[i].id != es[j].id
  }

  lemma GcDiffer(st: State)
    requires Census(st)
    ensures Differ(st.gc)
  {
    hide Flat;
    var gc := st.gc;
    forall i, j | 0 <= i < j < |gc| ensures gc[i].id != gc[j].id {
      var ids := Ids(gc);
      assert ids == ids[..j] + ids[j..];
      assert ids[..j][i] == gc[i].id && ids[j..][0] == gc[j].id;
      assert multiset(ids) == multiset(ids[..j]) + multiset(ids[j..]);
      assert gc[i].id == gc[j].id ==> multiset(ids)[gc[i].id] >= 2 && Places(st)[gc[i].id] >= 2;
    }
  }

  // Each entry ever inserted is in exactly one of: one position of one chain,
  // the gc list, the freed ones; and it is freed at most once.
  lemma OnePlace(p: Params, st: State, id: nat)
    requires Inv(p, st) && 1 <= id < st.next
    ensures InChain(st, id) || InGc(st, id) || id in st.freed
    ensures !(InChain(st, id) && InGc(st, id)) && !(InChain(st, id) && id in st.freed)
      && !(InGc(st, id) && id in st.freed)
    ensures multiset(st.freed)[id] <= 1
    ensures forall n, i, m, j ::
              (0 <= n < |st.chains| && 0 <= i < |st.chains[n]| && st.chains[n][i].id == id
               && 0 <= m < |st.chains| && 0 <= j < |st.chains[m]| && st.chains[m][j].id == id)
              ==> n == m && i == j
  {
    hide Shape, Totals, Counted, Flat;
    assert Places(st)[id] == 1;
    if id in Ids(Flat(st.chains)) {
      var k :| 0 <= k < |Flat(st.chains)| && Ids(Flat(st.chains))[k] == id;
      var n, i := FlatHas(st.chains, k);
    } else if id in Ids(st.gc) {
      var k :| 0 <= k < |st.gc| && Ids(st.gc)[k] == id;
    }
    if InChain(st, id) {
      var n, i :| 0 <= n < |st.chains| && 0 <= i < |st.chains[n]| && st.chains[n][i].id == id;
      ChainedAlive(p, st, n, i);
      forall j | 0 <= j < |st.gc| ensures st.gc[j].id != id { GcDiffers(st, n, i, j); }
    }
    if InGc(st, id) {
      var k :| 0 <= k < |st.gc| && st.gc[k].id == id;
      InIds(st.gc, st.gc[k]);
    }
    forall n, i, m, j | 0 <= n < |st.chains| && 0 <= i < |st.chains[n]| && st.chains[n][i].id == id
                && 0 <= m < |st.chains| && 0 <= j < |st.chains[m]| && st.chains[m][j].id == id
      ensures n == m && i == j
    {
      if n != m || i != j { OthersDiffer(st, n, i, m, j); }
    }
  }

  // ---------- the map ----------

  lemma LookupIs(p: Params, st: State, key: Key, i: nat)
    requires Inv(p, st) && i < |st.chains[Slot(key.h, p.nslots)]| && st.chains[Slot(key.h, p.nslots)][i].key == key
    ensures Lookup(p, st, key) == Some(st.chains[Slot(key.h, p.nslots)][i])
  {
    hide Census, Totals, Counted, Slot, Terminated;
  }

  // An exclusive insert succeeds exactly when find would miss at the same time, and
  // any other insert always does.
  lemma ExclusiveIffMiss(p: Params, st: State, key: Key, val: int, ttl: nat, size: nat, t: int, now: int)
    requires p.nslots >= 1 && |st.chains| == p.nslots && !st.busy
    ensures Insert(p, st, key, val, ttl, size, t, true, now).1 <==> Find(p, st, key, t).1.None?
    ensures Insert(p, st, key, val, ttl, size, t, false, now).1
  {
    hide Slot, Swept, Collect, Cleared;
    SweptChain(p, Collect(p, st, 0, now), Slot(key.h, p.nslots), 0, key, t, false, now);
    SweptChain(p, Collect(p, st, 0, now), Slot(key.h, p.nslots), 0, key, t, true, now);
  }

  function ChainOf(p: Params, st: State, key: Key): seq<Entry>
    requires p.nslots >= 1 && |st.chains| == p.nslots
  {
    st.chains[Slot(key.h, p.nslots)]
  }

  // What lookup finds is the one entry of the chain that has the key.
  lemma LookupMember(p: Params, st: State, key: Key, e: Entry)
    requires Inv(p, st)
    ensures Lookup(p, st, key) == Some(e) <==> e in ChainOf(p, st, key) && e.key == key
  {
    hide Census, Totals, Counted, Slot, Terminated;
    if e in ChainOf(p, st, key) && e.key == key {
      var i :| 0 <= i < |ChainOf(p, st, key)| && ChainOf(p, st, key)[i] == e;
      LookupIs(p, st, key, i);
    }
  }

  // key2 comes before key on the walk down the chain of key.
  ghost predicate Before(p: Params, st: State, key2: Key, key: Key)
    requires p.nslots >= 1 && |st.chains| == p.nslots
  {
    && Slot(key2.h, p.nslots) == Slot(key.h, p.nslots)
    && Seek(ChainOf(p, st, key), key2, 0) < Seek(ChainOf(p, st, key), key, 0)
  }

  // The chain of key after an insert.
  lemma InsertChains(p: Params, st: State, key: Key, val: int, ttl: nat, size: nat, t: int, exclusive: bool, now: int)
    requires p.nslots >= 1 && |st.chains| == p.nslots && !st.busy
    ensures var r := Insert(p, st, key, val, ttl, size, t, exclusive, now);
      var es := ChainOf(p, st, key); var m := Seek(es, key, 0);
      var pre := Fresh(p, es[..m], t);
      && r.1 == !(m < |es| && exclusive && !Expired(es[m], t))
      && r.0.chains == st.chains[Slot(key.h, p.nslots) :=
           if r.1 then pre + [Entry(st.next, key, val, ttl, size, t, t, 0, 0, 0)] + es[if m < |es| then m + 1 else m..]
           else pre + es[m..]]
  {
    hide Slot, Swept, Collect, Cleared, Fresh, Expired, Seek;
    var st1 := Collect(p, st, 0, now);
    var n := Slot(key.h, p.nslots);
    var es := st.chains[n];
    var m := Seek(es, key, 0);
    SweptChain(p, st1, n, 0, key, t, exclusive, now);
    var w := Swept(p, st1, n, 0, key, t, exclusive, now);
    var end := if m < |es| && !w.refused then m + 1 else m;
    ClearedFromStart(p, es, m, end, t);
    CollectNext(p, st, 0, now);
    SweptNext(p, st1, n, 0, key, t, exclusive, now);
    var pre := Fresh(p, es[..m], t);
    assert w.st.chains[n] == pre + es[end..];
    assert (pre + es[end..])[..|pre|] == pre && (pre + es[end..])[|pre|..] == es[end..];
    Overwrite(st.chains, n, w.st.chains[n], pre + [NewEntry(w.st, key, val, ttl, size, t)] + es[end..]);
  }

  lemma ClearedFromStart(p: Params, es: seq<Entry>, m: nat, end: nat, t: int)
    requires m <= end <= |es|
    ensures Cleared(p, es, 0, m, end, t) == Fresh(p, es[..m], t) + es[end..] && es[0..m] == es[..m]
  {
    hide Fresh;
    assert es[0..m] == es[..m];
  }

  lemma {:induction false} CollectNext(p: Params, st: State, i: nat, now: int)
    requires i <= |st.gc|
    ensures Collect(p, st, i, now).next == st.next
    decreases |st.gc| - i
  {
    hide Collectable;
    if i < |st.gc| {
      if Collectable(p, st.gc[i], now) {
        CollectNext(p, DropGc(st, i), i, now);
      } else {
        CollectNext(p, st, i + 1, now);
      }
    }
  }

  lemma {:induction false} SweptNext(p: Params, st: State, n: nat, i: nat, key: Key, t: int, exclusive: bool, now: int)
    requires n < |st.chains| && i <= |st.chains[n]|
    ensures Swept(p, st, n, i, key, t, exclusive, now).st.next == st.next
    decreases |st.chains[n]| - i
  {
    hide Stale, Slot;
    if i < |st.chains[n]| && st.chains[n][i].key != key {
      if Stale(p, st.chains[n][i], t) {
        SweptNext(p, RemoveAt(st, n, i, now), n, i, key, t, exclusive, now);
      } else {
        SweptNext(p, st, n, i + 1, key, t, exclusive, now);
      }
    }
  }

  // A successful insert maps its key to the new entry.
  lemma InsertMaps(p: Params, st: State, key: Key, val: int, ttl: nat, size: nat, t: int, exclusive: bool, now: int)
    requires Inv(p, st) && Terminated(key.str) && !st.busy
    requires Insert(p, st, key, val, ttl, size, t, exclusive, now).1
    ensures Inv(p, Insert(p, st, key, val, ttl, size, t, exclusive, now).0)
    ensures Lookup(p, Insert(p, st, key, val, ttl, size, t, exclusive, now).0, key) ==
      Some(Entry(st.next, key, val, ttl, size, t, t, 0, 0, 0))
  {
    hide Inv, Slot, Insert, Lookup, Fresh, Expired, Seek;
    ShapeOf(p, st);
    InsertSafe(p, st, key, val, ttl, size, t, exclusive, now);
    InsertChains(p, st, key, val, ttl, size, t, exclusive, now);
    var e := Entry(st.next, key, val, ttl, size, t, t, 0, 0, 0);
    LookupMember(p, Insert(p, st, key, val, ttl, size, t, exclusive, now).0, key, e);
  }

  // An insert, successful or not, leaves every other key as it was, unless its
  // entry was stale and came before the key in the same chain: then it is gone.
  lemma InsertKeepsOthers(p: Params, st: State, key: Key, val: int, ttl: nat, size: nat, t: int, exclusive: bool,
                          now: int, key2: Key)
    requires Inv(p, st) && Terminated(key.str) && key2 != key
    ensures p.nslots >= 1 && |st.chains| == p.nslots
    ensures Lookup(p, Insert(p, st, key, val, ttl, size, t, exclusive, now).0, key2)
         == match Lookup(p, st, key2)
            case None => None
            case Some(e) =>
              if !st.busy && Before(p, st, key2, key)
                 && ((p.ttl != 0 && e.atime < t - p.ttl) || (e.ttl != 0 && e.ctime + e.ttl < t))
              then None else Some(e)
  {
    hide Inv, Slot, Insert, Lookup, Fresh, Expired, Seek, Stale, Before;
    ShapeOf(p, st);
    var r := Insert(p, st, key, val, ttl, size, t, exclusive, now);
    if Lookup(p, st, key2).Some? { StaleHow(p, Lookup(p, st, key2).value, t); }
    if st.busy {
      BusyInsert(p, st, key, val, ttl, size, t, exclusive, now);
    } else {
      InsertSafe(p, st, key, val, ttl, size, t, exclusive, now);
      InsertChains(p, st, key, val, ttl, size, t, exclusive, now);
      if Slot(key2.h, p.nslots) != Slot(key.h, p.nslots) {
        OtherChain(p, st, r.0, key, key2);
      } else {
        forall e ensures Lookup(p, r.0, key2) == Some(e) <==>
          Lookup(p, st, key2) == Some(e) && !(Stale(p, e, t) && Before(p, st, key2, key))
        {
          LookupMember(p, st, key2, e);
          LookupMember(p, r.0, key2, e);
          if e.key == key2 { StaysUnlessStale(p, st, key, key2, e, t); }
        }
      }
    }
  }

  lemma BusyInsert(p: Params, st: State, key: Key, val: int, ttl: nat, size: nat, t: int, exclusive: bool, now: int)
    requires p.nslots >= 1 && |st.chains| == p.nslots && st.busy
    ensures Insert(p, st, key, val, ttl, size, t, exclusive, now) == (st, false)
  {}

  lemma OtherChain(p: Params, st: State, st': State, key: Key, key2: Key)
    requires p.nslots >= 1 && |st.chains| == p.nslots == |st'.chains|
    requires Slot(key2.h, p.nslots) != Slot(key.h, p.nslots)
    requires st'.chains == st.chains[Slot(key.h, p.nslots) := st'.chains[Slot(key.h, p.nslots)]]
    ensures Lookup(p, st', key2) == Lookup(p, st, key2) && !Before(p, st, key2, key)
  {
    hide Slot, Seek;
  }

  // Which entries of other keys a swept chain still has.
  lemma StaysUnlessStale(p: Params, st: State, key: Key, key2: Key, e: Entry, t: int)
    requires Inv(p, st) && key2 != key && e.key == key2
    requires p.nslots >= 1 && |st.chains| == p.nslots && Slot(key2.h, p.nslots) == Slot(key.h, p.nslots)
    ensures var es := ChainOf(p, st, key); var m := Seek(es, key, 0);
      var stays := e in es && !(Stale(p, e, t) && Before(p, st, key2, key));
      && (stays <==> e in Fresh(p, es[..m], t) + es[m..])
      && (stays <==> e in Fresh(p, es[..m], t) + es[if m < |es| then m + 1 else m..])
  {
    hide Census, Totals, Counted, Slot, Terminated, Stale;
    var es := ChainOf(p, st, key);
    var m, k := Seek(es, key, 0), Seek(es, key2, 0);
    assert es == es[..m] + es[m..];
    if e in es {
      assert k < |es| && es[k] == e;
      assert k < m ==> es[..m][k] == e;
      assert k > m ==> es[m + 1..][k - m - 1] == e && es[m..][k - m] == e;
      assert forall j :: 0 <= j < |es| && es[j] == e ==> j == k;
    }
  }

  // A delete takes away its key and nothing else.
  lemma DeleteMaps(p: Params, st: State, key: Key, now: int, key2: Key)
    requires Inv(p, st)
    ensures p.nslots >= 1 && |st.chains| == p.nslots
    ensures Delete(p, st, key, now).1 <==> Lookup(p, st, key).Some?
    ensures Lookup(p, Delete(p, st, key, now).0, key2) == if key2 == key then None else Lookup(p, st, key2)
  {
    hide Census, Totals, Counted, Slot, Terminated;
    var n := Slot(key.h, p.nslots);
    var es := st.chains[n];
    var m := Seek(es, key, 0);
    var st' := Delete(p, st, key, now).0;
    if m < |es| {
      RemoveKeepsInv(p, st, n, m, now);
      forall e ensures Lookup(p, st', key2) == Some(e) <==> key2 != key && Lookup(p, st, key2) == Some(e) {
        LookupMember(p, st, key2, e);
        LookupMember(p, st', key2, e);
        if Slot(key2.h, p.nslots) == n { WithoutHas(es, m, e); }
      }
    }
  }

  lemma WithoutHas(es: seq<Entry>, m: nat, e: Entry)
    requires m < |es| && forall i, j :: 0 <= i < j < |es| ==> es[i].key != es[j].key
    ensures e in Without(es, m) <==> e in es && e.key != es[m].key
  {
    assert es == es[..m] + [es[m]] + es[m + 1..];
    if e in es && e.key != es[m].key {
      assert e in es[..m] + [es[m]] + es[m + 1..];
    }
  }

  function Touched(e: Entry, t: int): Entry { e.(nhits := e.nhits + 1, refs := e.refs + 1, atime := t) }

  // Find returns the entry of the key unless it has outlived its lifetime. A hit
  // hands out one handle and is seen on that entry only.
  lemma FindMaps(p: Params, st: State, key: Key, t: int, key2: Key)
    requires Inv(p, st) && !st.busy
    ensures p.nslots >= 1 && |st.chains| == p.nslots
    ensures var (st', r) := Find(p, st, key, t);
      && r == (match Lookup(p, st, key)
               case None => None
               case Some(e) => if e.ttl != 0 && e.ctime + e.ttl < t then None else Some(e.id))
      && st'.held == st.held + (if r.Some? then multiset{r.value} else multiset{})
      && Lookup(p, st', key2) == (if key2 == key && r.Some? then Some(Touched(Lookup(p, st, key).value, t))
         else Lookup(p, st, key2))
  {
    hide Census, Totals, Counted, Slot, Terminated, Expired;
    var n := Slot(key.h, p.nslots);
    var i := Seek(st.chains[n], key, 0);
    if i < |st.chains[n]| { ExpiredHow(st.chains[n][i], t); }
    if i < |st.chains[n]| && !Expired(st.chains[n][i], t) {
      TouchSeek(st.chains[n], i, Touched(st.chains[n][i], t), key2);
    }
  }

  // Replacing an entry by one of the same key does not move what is found.
  lemma TouchSeek(es: seq<Entry>, i: nat, e: Entry, key: Key)
    requires i < |es| && e.key == es[i].key
    ensures Seek(es[i := e], key, 0) == Seek(es, key, 0)
  {
    SeekIs(es[i := e], key, 0, Seek(es, key, 0));
  }

  // A release is seen on the entry of that handle only.
  lemma ReleaseMaps(p: Params, st: State, id: nat, key: Key)
    requires Inv(p, st)
    ensures p.nslots >= 1 && |st.chains| == p.nslots
    ensures Lookup(p, Release(st, id), key)
         == match Lookup(p, st, key)
            case None => None
            case Some(e) => Some(if e.id == id then e.(refs := e.refs - 1) else e)
  {
    hide Census, Totals, Counted, Slot, Terminated;
    var es := st.chains[Slot(key.h, p.nslots)];
    SeekIs(Down(es, id), key, 0, Seek(es, key, 0));
  }

  // A purge takes away exactly the outdated entries of the chain.
  lemma {:induction false} PurgeChainHas(p: Params, st: State, n: nat, i: nat, t: int, now: int, e: Entry)
    requires n < |st.chains| && i <= |st.chains[n]|
    requires forall j :: 0 <= j < i ==> !Outdated(p, st.chains[n][j], t)
    ensures var r := PurgeChain(p, st, n, i, t, now);
      && (e in r.chains[n] <==> e in st.chains[n] && !Outdated(p, e, t))
      && r.chains == st.chains[n := r.chains[n]]
    decreases |st.chains[n]| - i
  {
    hide Outdated;
    var es := st.chains[n];
    if i < |es| {
      if Outdated(p, es[i], t) {
        PurgeChainHas(p, RemoveAt(st, n, i, now), n, i, t, now, e);
        assert es == es[..i] + [es[i]] + es[i + 1..];
        Overwrite(st.chains, n, Without(es, i), PurgeChain(p, st, n, i, t, now).chains[n]);
      } else {
        PurgeChainHas(p, st, n, i + 1, t, now, e);
      }
    }
  }

  lemma {:induction false} PurgeFromHas(p: Params, st: State, n: nat, t: int, now: int, m: nat, e: Entry)
    requires n <= |st.chains| && m < |st.chains|
    ensures e in PurgeFrom(p, st, n, t, now).chains[m] <==> e in st.chains[m] && (m < n || !Outdated(p, e, t))
    decreases |st.chains| - n
  {
    hide Outdated;
    if n < |st.chains| {
      PurgeChainHas(p, st, n, 0, t, now, e);
      PurgeFromHas(p, PurgeChain(p, st, n, 0, t, now), n + 1, t, now, m, e);
    }
  }

  // An expunge with an access or entry lifetime that is short of memory drops
  // exactly the outdated entries; if that does not help, everything.
  lemma ExpungeMaps(p: Params, st: State, short: bool, fits: bool, t: int, now: int, key: Key)
    requires Inv(p, st) && !st.busy
    ensures p.nslots >= 1 && |st.chains| == p.nslots
    ensures Lookup(p, DefaultExpunge(p, st, short, fits, t, now), key)
         == if !short then Lookup(p, st, key) else
            if p.ttl == 0 || !fits then None else
            match Lookup(p, st, key)
            case None => None
            case Some(e) =>
              if (e.ttl != 0 && e.ctime + e.ttl < t) || (e.ttl == 0 && p.ttl != 0 && e.ctime + p.ttl < t)
              then None else Some(e)
  {
    hide Inv, Slot, Collect, RealExpunge, PurgeFrom, Outdated, Lookup, Seek;
    ShapeOf(p, st);
    if Lookup(p, st, key).Some? { OutdatedHow(p, Lookup(p, st, key).value, t); }
    var st1 := st.(busy := true);
    InvOnly(p, st, st1);
    var s := Collect(p, st1, 0, now);
    CollectSafe(p, st1, 0, now);
    SameChains(p, st, s, key);
    var q := PurgeFrom(p, s, 0, t, now);
    PurgeFromSafe(p, s, 0, t, now);
    var r := if !short then s
             else if p.ttl == 0 then RealExpunge(s, now)
             else if fits then q else RealExpunge(q, now);
    SameChains(p, r, DefaultExpunge(p, st, short, fits, t, now), key);
    if short && (p.ttl == 0 || !fits) {
      var u := if p.ttl == 0 then s else q;
      ExpungeEmpties(p, u, now);
      EmptyLookup(p, r, key);
    } else if short {
      forall e ensures Lookup(p, q, key) == Some(e) <==> Lookup(p, s, key) == Some(e) && !Outdated(p, e, t) {
        LookupMember(p, s, key, e);
        LookupMember(p, q, key, e);
        PurgeFromHas(p, s, 0, t, now, Slot(key.h, p.nslots), e);
      }
    }
  }

  lemma SameChains(p: Params, st: State, st': State, key: Key)
    requires p.nslots >= 1 && |st.chains| == p.nslots && st'.chains == st.chains
    ensures Lookup(p, st', key) == Lookup(p, st, key)
  {}

  lemma EmptyLookup(p: Params, st: State, key: Key)
    requires p.nslots >= 1 && |st.chains| == p.nslots && forall m :: 0 <= m < |st.chains| ==> st.chains[m] == []
    ensures Lookup(p, st, key) == None
  {
    hide Slot;
  }
}
