/**
 The cache as a value: chains of entries, the list of removed entries that are
 still referred to, and the header counters, with every operation as a function.
 */
module CacheSpec {
  import opened Options
  import opened Slots

  // h is the hash of str; str ends with its only NUL.
  datatype Key = Key(h: nat, str: seq<nat>)

  // A slot and the entry it points to: they live in one pool and are freed with it.
  datatype Entry = Entry(id: nat, key: Key, val: int, ttl: nat, size: nat,
                         ctime: int, atime: int, dtime: int, nhits: nat, refs: int)

  datatype Params = Params(nslots: nat, ttl: nat, gcTtl: nat)

  // freed: the entries freed so far, in order; held: the handles that find has
  // given out and nobody has released; next: the name of the next entry.
  datatype State = State(chains: seq<seq<Entry>>, gc: seq<Entry>, freed: seq<nat>, held: multiset<nat>, next: nat,
                         memSize: int, nentries: int, ninserts: nat, nhits: nat, nmisses: nat, nexpunges: nat,
                         busy: bool)

  // ---------- entries ----------

  ghost predicate Terminated(s: seq<nat>) {
    |s| >= 1 && s[|s| - 1] == 0 && forall i :: 0 <= i < |s| - 1 ==> s[i] != 0
  }

  // Past its own lifetime.
  predicate Expired(e: Entry, t: int) {
    e.ttl != 0 && e.ctime + e.ttl < t
  }

  // What insert clears away when it passes by.
  predicate Stale(p: Params, e: Entry, t: int) {
    (p.ttl != 0 && e.atime < t - p.ttl) || Expired(e, t)
  }

  // What an expunge clears away: the entry's lifetime goes before the cache's.
  predicate Outdated(p: Params, e: Entry, t: int) {
    if e.ttl != 0 then e.ctime + e.ttl < t else p.ttl != 0 && e.ctime + p.ttl < t
  }

  // What the collector frees: nobody refers to it, or it has waited too long.
  predicate Collectable(p: Params, e: Entry, now: int) {
    e.refs == 0 || (if p.gcTtl != 0 then now - e.dtime else 0) > p.gcTtl
  }

  // ---------- lists of entries ----------

  function Ids(es: seq<Entry>): (r: seq<nat>) {
    seq(|es|, i requires 0 <= i < |es| => es[i].id)
  }

  function Sum(es: seq<Entry>): int {
    if es == [] then 0 else es[0].size + Sum(es[1..])
  }

  function Flat(chains: seq<seq<Entry>>): seq<Entry> {
    if chains == [] then [] else chains[0] + Flat(chains[1..])
  }

  function Without(es: seq<Entry>, i: nat): seq<Entry>
    requires i < |es|
  {
    es[..i] + es[i + 1..]
  }

  // The first position of key, or the end.
  function Seek(es: seq<Entry>, key: Key, i: nat): (r: nat)
    requires i <= |es|
    ensures i <= r <= |es|
    ensures r < |es| ==> es[r].key == key
    ensures forall j :: i <= j < r ==> es[j].key != key
    decreases |es| - i
  {
    if i == |es| then i else if es[i].key == key then i else Seek(es, key, i + 1)
  }

  // ---------- the invariant ----------

  // Every entry sits in the chain of its hash, and keys are distinct.
  ghost predicate Shape(p: Params, st: State) {
    && p.nslots >= 1 && |st.chains| == p.nslots
    && (forall n, i :: 0 <= n < |st.chains| && 0 <= i < |st.chains[n]| ==> Slot(st.chains[n][i].key.h, p.nslots) == n)
    && (forall n, i :: 0 <= n < |st.chains| && 0 <= i < |st.chains[n]| ==> Terminated(st.chains[n][i].key.str))
    && (forall n, i, j :: 0 <= n < |st.chains| && 0 <= i < j < |st.chains[n]| ==>
        st.chains[n][i].key != st.chains[n][j].key)
  }

  // How often an entry occurs in the chains, the gc list and the freed ones together.
  ghost function Places(st: State): multiset<nat> {
    multiset(Ids(Flat(st.chains))) + multiset(Ids(st.gc)) + multiset(st.freed)
  }

  // Every entry that was ever inserted is in exactly one place.
  ghost predicate Census(st: State) {
    st.next >= 1 && forall id :: Places(st)[id] == if 1 <= id < st.next then 1 else 0
  }

  ghost predicate Totals(st: State) {
    st.nentries == |Flat(st.chains)| && st.memSize == Sum(Flat(st.chains))
  }

  // A reference count is the number of handles in the callers' hands.
  ghost predicate Counted(st: State) {
    && (forall e :: e in Flat(st.chains) ==> e.refs == st.held[e.id])
    && (forall e :: e in st.gc ==> e.refs == st.held[e.id])
    && (forall id :: id in st.held ==> 1 <= id < st.next)
  }

  ghost predicate Inv(p: Params, st: State) {
    Shape(p, st) && Census(st) && Totals(st) && Counted(st)
  }

  function Init(p: Params): State {
    State(seq(p.nslots, _ => []), [], [], multiset{}, 1, 0, 0, 0, 0, 0, 0, false)
  }

  // ---------- removing entries ----------

  // The counters and the gc list after the unlinked entry e has been disposed of.
  function Retired(st: State, e: Entry, now: int): (r: State)
    ensures r.chains == st.chains
  {
    var s := st.(memSize := if st.memSize != 0 then st.memSize - e.size else st.memSize,
                 nentries := if st.nentries != 0 then st.nentries - 1 else st.nentries);
    if e.refs <= 0 then s.(freed := s.freed + [e.id]) else s.(gc := [e.(dtime := now)] + s.gc)
  }

  function RemoveAt(st: State, n: nat, i: nat, now: int): (r: State)
    requires n < |st.chains| && i < |st.chains[n]|
    ensures r.chains == st.chains[n := Without(st.chains[n], i)]
  {
    Retired(st.(chains := st.chains[n := Without(st.chains[n], i)]), st.chains[n][i], now)
  }

  function DropGc(st: State, i: nat): (r: State)
    requires i < |st.gc|
    ensures r.chains == st.chains
  {
    st.(gc := Without(st.gc, i), freed := st.freed + [st.gc[i].id])
  }

  // apc_cache_gc from position i of the list on.
  function Collect(p: Params, st: State, i: nat, now: int): (r: State)
    requires i <= |st.gc|
    ensures r.chains == st.chains
    decreases |st.gc| - i
  {
    if i == |st.gc| then st
    else if Collectable(p, st.gc[i], now) then Collect(p, DropGc(st, i), i, now)
    else Collect(p, st, i + 1, now)
  }

  // ---------- the operations ----------

  datatype Sweep = Sweep(st: State, at: nat, refused: bool)

  // The walk of insert down chain n from position i: it ends where the new entry
  // belongs, or refuses.
  function Swept(p: Params, st: State, n: nat, i: nat, key: Key, t: int, exclusive: bool, now: int): (r: Sweep)
    requires n < |st.chains| && i <= |st.chains[n]|
    ensures |r.st.chains| == |st.chains| && r.at <= |r.st.chains[n]|
    decreases |st.chains[n]| - i
  {
    if i == |st.chains[n]| then Sweep(st, i, false) else
    var e := st.chains[n][i];
    if e.key == key then
      if exclusive && (e.ttl == 0 || e.ctime + e.ttl >= t) then Sweep(st, i, true)
      else Sweep(RemoveAt(st, n, i, now), i, false)
    else if Stale(p, e, t) then Swept(p, RemoveAt(st, n, i, now), n, i, key, t, exclusive, now)
    else Swept(p, st, n, i + 1, key, t, exclusive, now)
  }

  function PutAt(st: State, n: nat, i: nat, e: Entry): (r: State)
    requires n < |st.chains| && i <= |st.chains[n]|
    ensures |r.chains| == |st.chains|
  {
    st.(chains := st.chains[n := st.chains[n][..i] + [e] + st.chains[n][i..]], next := st.next + 1,
        memSize := st.memSize + e.size, nentries := st.nentries + 1, ninserts := st.ninserts + 1)
  }

  function NewEntry(st: State, key: Key, val: int, ttl: nat, size: nat, t: int): Entry {
    Entry(st.next, key, val, ttl, size, t, t, 0, 0, 0)
  }

  function Insert(p: Params, st: State, key: Key, val: int, ttl: nat, size: nat, t: int, exclusive: bool,
                  now: int): (r: (State, bool))
    requires p.nslots >= 1 && |st.chains| == p.nslots
    ensures |r.0.chains| == |st.chains|
  {
    if st.busy then (st, false) else
    var n := Slot(key.h, p.nslots);
    var w := Swept(p, Collect(p, st, 0, now), n, 0, key, t, exclusive, now);
    if w.refused then (w.st, false)
    else (PutAt(w.st, n, w.at, NewEntry(w.st, key, val, ttl, size, t)), true)
  }

  function Hit(st: State, n: nat, i: nat, t: int): (r: State)
    requires n < |st.chains| && i < |st.chains[n]|
    ensures |r.chains| == |st.chains|
  {
    var e := st.chains[n][i];
    st.(chains := st.chains[n := st.chains[n][i := e.(nhits := e.nhits + 1, refs := e.refs + 1, atime := t)]],
        nhits := st.nhits + 1, held := st.held + multiset{e.id})
  }

  function Find(p: Params, st: State, key: Key, t: int): (r: (State, Option<nat>))
    requires p.nslots >= 1 && |st.chains| == p.nslots
    ensures |r.0.chains| == |st.chains|
  {
    if st.busy then (st, None) else
    var n := Slot(key.h, p.nslots);
    var i := Seek(st.chains[n], key, 0);
    if i == |st.chains[n]| || Expired(st.chains[n][i], t) then (st.(nmisses := st.nmisses + 1), None)
    else (Hit(st, n, i, t), Some(st.chains[n][i].id))
  }

  function Delete(p: Params, st: State, key: Key, now: int): (r: (State, bool))
    requires p.nslots >= 1 && |st.chains| == p.nslots
    ensures |r.0.chains| == |st.chains|
  {
    var n := Slot(key.h, p.nslots);
    var i := Seek(st.chains[n], key, 0);
    if i == |st.chains[n]| then (st, false) else (RemoveAt(st, n, i, now), true)
  }

  function Down(es: seq<Entry>, id: nat): seq<Entry> {
    seq(|es|, i requires 0 <= i < |es| => if es[i].id == id then es[i].(refs := es[i].refs - 1) else es[i])
  }

  function DownAll(chains: seq<seq<Entry>>, id: nat): (r: seq<seq<Entry>>)
    ensures |r| == |chains|
  {
    seq(|chains|, n requires 0 <= n < |chains| => Down(chains[n], id))
  }

  // Giving back one handle on id.
  function Release(st: State, id: nat): (r: State)
    ensures |r.chains| == |st.chains|
  {
    st.(chains := DownAll(st.chains, id),
        gc := Down(st.gc, id), held := st.held - multiset{id})
  }

  // Removing the entries of chain n one after the other from its front.
  function EmptyChain(st: State, n: nat, now: int): (r: State)
    requires n < |st.chains|
    ensures |r.chains| == |st.chains|
    decreases |st.chains[n]|
  {
    if st.chains[n] == [] then st else EmptyChain(RemoveAt(st, n, 0, now), n, now)
  }

  function EmptyFrom(st: State, n: nat, now: int): (r: State)
    requires n <= |st.chains|
    ensures |r.chains| == |st.chains|
    decreases |st.chains| - n
  {
    if n == |st.chains| then st else EmptyFrom(EmptyChain(st, n, now), n + 1, now)
  }

  function RealExpunge(st: State, now: int): (r: State)
    ensures |r.chains| == |st.chains|
  {
    EmptyFrom(st.(nexpunges := st.nexpunges + 1), 0, now).(ninserts := 0, nentries := 0, nhits := 0, nmisses := 0)
  }

  function Clear(st: State, now: int): (r: State)
    ensures |r.chains| == |st.chains|
  {
    if st.busy then st else RealExpunge(st.(busy := true), now).(nexpunges := 0, busy := false)
  }

  // Removing the outdated entries of chain n from position i on.
  function PurgeChain(p: Params, st: State, n: nat, i: nat, t: int, now: int): (r: State)
    requires n < |st.chains| && i <= |st.chains[n]|
    ensures |r.chains| == |st.chains|
    decreases |st.chains[n]| - i
  {
    if i == |st.chains[n]| then st
    else if Outdated(p, st.chains[n][i], t) then PurgeChain(p, RemoveAt(st, n, i, now), n, i, t, now)
    else PurgeChain(p, st, n, i + 1, t, now)
  }

  function PurgeFrom(p: Params, st: State, n: nat, t: int, now: int): (r: State)
    requires n <= |st.chains|
    ensures |r.chains| == |st.chains|
    decreases |st.chains| - n
  {
    if n == |st.chains| then st else PurgeFrom(p, PurgeChain(p, st, n, 0, t, now), n + 1, t, now)
  }

  // short: the allocator has less than a suitable amount left after the
  // collection; fits: it has a block of the wanted size after the purge.
  function DefaultExpunge(p: Params, st: State, short: bool, fits: bool, t: int, now: int): (r: State)
    ensures |r.chains| == |st.chains|
  {
    if st.busy then st else
    var s := Collect(p, st.(busy := true), 0, now);
    var r := if !short then s
             else if p.ttl == 0 then RealExpunge(s, now)
             else var q := PurgeFrom(p, s, 0, t, now); if fits then q else RealExpunge(q, now);
    r.(busy := false)
  }

  // ---------- the map that the chains stand for ----------

  function Lookup(p: Params, st: State, key: Key): Option<Entry>
    requires p.nslots >= 1 && |st.chains| == p.nslots
  {
    var es := st.chains[Slot(key.h, p.nslots)];
    var i := Seek(es, key, 0);
    if i < |es| then Some(es[i]) else None
  }
}
