/** Exactly when the cache frees an entry that somebody still holds. */
module CacheHandles {
  import opened Slots
  import opened CacheSpec
  import opened CacheSteps
  import opened CacheRuns

  // The calls that run the collector.
  predicate Collecting(st: State, op: Op) {
    op.GcOp? || ((op.InsertOp? || op.ExpungeOp?) && !st.busy)
  }

  // A collection frees every overdue entry.
  lemma CollectFrees(p: Params, st: State, id: nat, now: int)
    requires Inv(p, st) && Overdue(p, st, id, now)
    ensures id in Collect(p, st, 0, now).freed
  {
    hide Inv, Collect, InChain, InGc, Census;
    var r := Collect(p, st, 0, now);
    CollectSafe(p, st, 0, now);
    var e :| e in st.gc && e.id == id && now - e.dtime > p.gcTtl;
    var i :| 0 <= i < |st.gc| && st.gc[i] == e;
    Waiting(p, st, i);
    CollectNext(p, st, 0, now);
    OnePlace(p, r, id);
    SameChained(st, r);
    if InGc(r, id) { StillThere(p, st, r, i, now); }
  }

  // An entry of the gc list is in no chain and has a name.
  lemma Waiting(p: Params, st: State, i: nat)
    requires Inv(p, st) && i < |st.gc|
    ensures 1 <= st.gc[i].id < st.next && !InChain(st, st.gc[i].id)
  {
    hide Shape, Totals, Counted, Flat, Ids;
    InIds(st.gc, st.gc[i]);
    assert Places(st)[st.gc[i].id] >= 1;
    OnePlace(p, st, st.gc[i].id);
  }

  // What a collection has left on the gc list was not overdue.
  lemma StillThere(p: Params, st: State, r: State, i: nat, now: int)
    requires Inv(p, st) && i < |st.gc| && r == Collect(p, st, 0, now) && InGc(r, st.gc[i].id)
    ensures !(now - st.gc[i].dtime > p.gcTtl && p.gcTtl != 0)
  {
    hide Inv, Collect;
    var j :| 0 <= j < |r.gc| && r.gc[j].id == st.gc[i].id;
    CollectLeaves(p, st, now, r.gc[j]);
    var k :| 0 <= k < |st.gc| && st.gc[k] == r.gc[j];
    GcOnce(p, st, i, k);
  }

  lemma GcOnce(p: Params, st: State, i: nat, k: nat)
    requires Inv(p, st) && i < |st.gc| && k < |st.gc| && st.gc[i].id == st.gc[k].id
    ensures i == k
  {
    hide Census, Shape, Totals, Counted;
    GcDiffer(st);
  }

  // A call that runs the collector frees at least what the collection frees, and
  // any other call frees nothing that somebody holds.
  lemma StepCollects(p: Params, st: State, op: Op)
    requires Inv(p, st) && Legal(st, op)
    ensures p.nslots >= 1 && |st.chains| == p.nslots
    ensures Collecting(st, op) ==> Collect(p, st, 0, Clock(op)).freed <= Step(p, st, op).freed
    ensures !Collecting(st, op) ==>
      forall id :: id in st.held && id in Step(p, st, op).freed ==> id in st.freed
  {
    hide Inv, Insert, Delete, Clear, Find, Release, Collect, DefaultExpunge, InChain;
    ShapeOf(p, st);
    match op
    case InsertOp(key, val, ttl, size, t, exclusive, now) =>
      InsertCollects(p, st, key, val, ttl, size, t, exclusive, now);
    case FindOp(key, t) => FindSafe(p, st, key, t);
    case ReleaseOp(x) => ReleaseWaits(st, x);
    case DeleteOp(key, now) => DeleteSafe(p, st, key, now);
    case ClearOp(now) => ClearSafe(p, st, now);
    case ExpungeOp(short, fits, t, now) => ExpungeCollects(p, st, short, fits, t, now);
    case GcOp(now) =>
  }

  // A held entry is freed by exactly those calls that run the collector while
  // the entry has been on the gc list for more than gcTtl seconds.
  lemma HeldFreedExactly(p: Params, st: State, op: Op, id: nat)
    requires Inv(p, st) && Legal(st, op) && id in st.held && id !in st.freed
    ensures p.nslots >= 1 && |st.chains| == p.nslots
    ensures id in Step(p, st, op).freed <==> Overdue(p, st, id, Clock(op)) && Collecting(st, op)
  {
    hide Inv, Overdue, Step, Collect, Collecting, Clock, InChain, Waits, Legal;
    ShapeOf(p, st);
    StepSafe(p, st, op);
    StepCollects(p, st, op);
    if Overdue(p, st, id, Clock(op)) { CollectFrees(p, st, id, Clock(op)); }
  }

  // What the collection at its beginning frees, an insert has freed; a busy
  // cache it leaves alone.
  lemma InsertCollects(p: Params, st: State, key: Key, val: int, ttl: nat, size: nat, t: int, exclusive: bool, now: int)
    requires Inv(p, st)
    ensures p.nslots >= 1 && |st.chains| == p.nslots
    ensures var r := Insert(p, st, key, val, ttl, size, t, exclusive, now).0;
      if st.busy then r == st else Collect(p, st, 0, now).freed <= r.freed
  {
    hide Inv, Swept, Collect, PutAt, Slot, InChain;
    ShapeOf(p, st);
    if !st.busy {
      var n := Slot(key.h, p.nslots);
      var st1 := Collect(p, st, 0, now);
      CollectSafe(p, st, 0, now);
      SweptSafe(p, st1, n, 0, key, t, exclusive, now);
      var w := Swept(p, st1, n, 0, key, t, exclusive, now);
      if !w.refused { PutFrame(w.st, n, w.at, NewEntry(w.st, key, val, ttl, size, t)); }
    }
  }

  lemma ExpungeCollects(p: Params, st: State, short: bool, fits: bool, t: int, now: int)
    requires Inv(p, st)
    ensures var r := DefaultExpunge(p, st, short, fits, t, now);
      if st.busy then r == st else Collect(p, st, 0, now).freed <= r.freed
  {
    hide Inv, Collect, RealExpunge, PurgeFrom, InChain;
    if !st.busy {
      var st1 := st.(busy := true);
      InvOnly(p, st, st1);
      var s := Collect(p, st1, 0, now);
      CollectSafe(p, st1, 0, now);
      CollectBusy(p, st, 0, now);
      PurgeFromSafe(p, s, 0, t, now);
      ExpungeEmpties(p, s, now);
      ExpungeEmpties(p, PurgeFrom(p, s, 0, t, now), now);
    }
  }

  lemma {:induction false} CollectBusy(p: Params, st: State, i: nat, now: int)
    requires i <= |st.gc|
    ensures Collect(p, st.(busy := true), i, now).freed == Collect(p, st, i, now).freed
    decreases |st.gc| - i
  {
    hide Collectable;
    if i < |st.gc| {
      if Collectable(p, st.gc[i], now) {
        assert DropGc(st.(busy := true), i) == DropGc(st, i).(busy := true);
        CollectBusy(p, DropGc(st, i), i, now);
      } else {
        CollectBusy(p, st, i + 1, now);
      }
    }
  }

  // ---------- over whole runs ----------

  lemma {:induction false} RunPrefix(p: Params, st: State, ops: seq<Op>, i: nat)
    requires p.nslots >= 1 && |st.chains| == p.nslots && i < |ops|
    ensures Run(p, st, ops[..i + 1]) == Step(p, Run(p, st, ops[..i]), ops[i])
    decreases i
  {
    hide Step;
    if i == 0 {
      assert ops[..1][1..] == [];
    } else {
      var rest := ops[1..];
      assert ops[..i + 1][1..] == rest[..i] && ops[..i][1..] == rest[..i - 1];
      RunPrefix(p, Step(p, st, ops[0]), rest, i - 1);
      assert rest[..i - 1 + 1] == rest[..i];
    }
  }

  // Every state of a legal run satisfies the invariant, and its next call is legal.
  lemma {:induction false} PrefixLegal(p: Params, st: State, ops: seq<Op>, i: nat)
    requires Inv(p, st) && LegalRun(p, st, ops) && i <= |ops|
    ensures p.nslots >= 1 && |st.chains| == p.nslots && Inv(p, Run(p, st, ops[..i]))
    ensures i < |ops| ==> Legal(Run(p, st, ops[..i]), ops[i])
    decreases i
  {
    hide Inv, Legal, Step;
    ShapeOf(p, st);
    if i > 0 {
      StepInv(p, st, ops[0]);
      PrefixLegal(p, Step(p, st, ops[0]), ops[1..], i - 1);
      assert ops[..i][1..] == ops[1..][..i - 1];
    }
  }

  // Call i of the run took entry id from its chain.
  ghost predicate RemovedBy(p: Params, st: State, ops: seq<Op>, i: nat, id: nat)
    requires p.nslots >= 1 && |st.chains| == p.nslots
  {
    i < |ops| && InChain(Run(p, st, ops[..i]), id) && !InChain(Run(p, st, ops[..i + 1]), id)
  }

  // An entry that is on the gc list after k calls has been there since a call of
  // the run took it from its chain.
  lemma {:induction false} WaitsSince(p: Params, st: State, ops: seq<Op>, k: nat, id: nat, d: int) returns (i: nat)
    requires Inv(p, st) && LegalRun(p, st, ops) && k <= |ops| && st.gc == []
    requires p.nslots >= 1 && |st.chains| == p.nslots && Waits(Run(p, st, ops[..k]), id, d)
    ensures i < k && RemovedBy(p, st, ops, i, id) && Clock(ops[i]) == d
    decreases k
  {
    hide Inv, Legal, LegalRun, Step, Clock, InChain, Overdue, Run;
    if k == 0 {
      NoneWaits(p, st, ops, id, d);
    } else {
      var s := Run(p, st, ops[..k - 1]);
      PrefixLegal(p, st, ops, k - 1);
      PrefixLegal(p, st, ops, k);
      RunPrefix(p, st, ops, k - 1);
      StepSafe(p, s, ops[k - 1]);
      if Waits(s, id, d) {
        i := WaitsSince(p, st, ops, k - 1, id, d);
      } else {
        i := k - 1;
        NotChained(p, Run(p, st, ops[..k]), id, d);
        assert ops[..k - 1 + 1] == ops[..k];
      }
    }
  }

  lemma NoneWaits(p: Params, st: State, ops: seq<Op>, id: nat, d: int)
    requires p.nslots >= 1 && |st.chains| == p.nslots && st.gc == []
    ensures !Waits(Run(p, st, ops[..0]), id, d)
  {}

  lemma NotChained(p: Params, st: State, id: nat, d: int)
    requires Inv(p, st) && Waits(st, id, d)
    ensures !InChain(st, id)
  {
    hide Inv;
    var e :| e in st.gc && e.id == id && e.dtime == d;
    var i :| 0 <= i < |st.gc| && st.gc[i] == e;
    Waiting(p, st, i);
  }

  // In every run from the empty cache: where a call frees an entry that is held,
  // an earlier call took it from its chain, and by their clocks the two calls lie
  // more than gcTtl seconds apart.
  lemma HeldFreedLate(p: Params, ops: seq<Op>, j: nat, id: nat)
    requires p.nslots >= 1 && LegalRun(p, Init(p), ops) && j < |ops|
    requires var s := Run(p, Init(p), ops[..j]); id in s.held && id !in s.freed
    requires id in Run(p, Init(p), ops[..j + 1]).freed
    ensures p.gcTtl != 0
    ensures exists i :: 0 <= i < j && RemovedBy(p, Init(p), ops, i, id) && Clock(ops[j]) - Clock(ops[i]) > p.gcTtl
  {
    hide Inv, Legal, LegalRun, Step, Clock, InChain, Run, Init, RemovedBy;
    InitInv(p);
    NoGcYet(p);
    PrefixLegal(p, Init(p), ops, j);
    RunPrefix(p, Init(p), ops, j);
    var s := Run(p, Init(p), ops[..j]);
    HeldFreedExactly(p, s, ops[j], id);
    var e :| e in s.gc && e.id == id && Clock(ops[j]) - e.dtime > p.gcTtl;
    assert Waits(s, id, e.dtime);
    var i := WaitsSince(p, Init(p), ops, j, id, e.dtime);
  }

  lemma NoGcYet(p: Params)
    ensures Init(p).gc == []
  {}

  lemma RunCons(p: Params, st: State, op: Op, rest: seq<Op>)
    requires p.nslots >= 1 && |st.chains| == p.nslots
    ensures Run(p, st, [op] + rest) == Run(p, Step(p, st, op), rest)
    ensures LegalRun(p, st, [op] + rest) <==> Legal(st, op) && LegalRun(p, Step(p, st, op), rest)
  {
    hide Step, Legal;
    assert ([op] + rest)[1..] == rest;
  }

  // ---------- an example ----------

  const P: Params := Params(1, 0, 1)
  const K: Key := Key(0, [0])

  function New(): Entry { Entry(1, K, 7, 0, 1, 0, 0, 0, 0, 0) }

  function Held(): Entry { New().(nhits := 1, refs := 1) }

  // The cache after an insert, after a find, after a delete.
  function Inserted(): State { State([[New()]], [], [], multiset{}, 2, 1, 1, 1, 0, 0, 0, false) }

  function Found(): State { State([[Held()]], [], [], multiset{1}, 2, 1, 1, 1, 1, 0, 0, false) }

  function Deleted(): State { State([[]], [Held()], [], multiset{1}, 2, 0, 0, 1, 1, 0, 0, false) }

  lemma ExampleInsert()
    ensures Step(P, Init(P), InsertOp(K, 7, 0, 1, 0, false, 0)) == Inserted()
  {
    var st := Init(P);
    assert st.chains == [[]];
    assert Slot(0, 1) == 0;
    assert Collect(P, st, 0, 0) == st;
    assert Swept(P, st, 0, 0, K, 0, false, 0) == Sweep(st, 0, false);
    assert st.chains[0][..0] + [New()] + st.chains[0][0..] == [New()];
    assert PutAt(st, 0, 0, New()).chains == [[New()]];
  }

  lemma ExampleFind()
    ensures Step(P, Inserted(), FindOp(K, 0)) == Found()
  {
    var st := Inserted();
    assert Slot(0, 1) == 0;
    assert Seek(st.chains[0], K, 0) == 0;
    assert st.chains[0][0 := Held()] == [Held()];
    assert st.chains[0 := [Held()]] == [[Held()]];
    assert Hit(st, 0, 0, 0).chains == [[Held()]];
    assert Hit(st, 0, 0, 0).held == multiset{1};
  }

  lemma ExampleDelete()
    ensures Step(P, Found(), DeleteOp(K, 0)) == Deleted()
  {
    var st := Found();
    assert Slot(0, 1) == 0;
    assert Seek(st.chains[0], K, 0) == 0;
    assert Without(st.chains[0], 0) == [];
    assert RemoveAt(st, 0, 0, 0).chains == [[]];
  }

  lemma ExampleCollect()
    ensures var st := Step(P, Deleted(), GcOp(2)); st.freed == [1] && st.held == multiset{1}
  {
    var st := Deleted();
    assert Collectable(P, st.gc[0], 2);
    assert Without(st.gc, 0) == [];
    assert Collect(P, DropGc(st, 0), 0, 2) == DropGc(st, 0);
  }

  // A limit of one second: find hands out entry 1, delete takes it from its
  // chain, and the collector frees it two seconds later.
  lemma FreedWhileHeld()
    ensures var ops := [InsertOp(K, 7, 0, 1, 0, false, 0), FindOp(K, 0), DeleteOp(K, 0), GcOp(2)];
      LegalRun(P, Init(P), ops) && 1 in Run(P, Init(P), ops).held && 1 in Run(P, Init(P), ops).freed
  {
    hide Step, Init, Inserted, Found, Deleted, Run, LegalRun;
    var a, b, c, d := InsertOp(K, 7, 0, 1, 0, false, 0), FindOp(K, 0), DeleteOp(K, 0), GcOp(2);
    ExampleInsert();
    ExampleFind();
    ExampleDelete();
    ExampleCollect();
    ExampleShapes();
    RunCons(P, Init(P), a, [b, c, d]);
    RunCons(P, Inserted(), b, [c, d]);
    RunCons(P, Found(), c, [d]);
    RunCons(P, Deleted(), d, []);
    RunNothing(P, Step(P, Deleted(), d));
    assert [a, b, c, d] == [a] + [b, c, d] && [b, c, d] == [b] + [c, d] && [c, d] == [c] + [d] && [d] == [d] + [];
  }

  lemma ExampleShapes()
    ensures |Init(P).chains| == |Inserted().chains| == |Found().chains| == |Deleted().chains| == P.nslots
  {}

  lemma RunNothing(p: Params, st: State)
    requires p.nslots >= 1 && |st.chains| == p.nslots
    ensures Run(p, st, []) == st && LegalRun(p, st, [])
  {}
}
