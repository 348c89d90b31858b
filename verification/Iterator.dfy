/** The resumable, chunked traversal of the cache. */
module Iterator {
  import opened Options
  import opened CacheSpec
  import opened CacheSteps
  import opened CacheRuns
  import opened CacheImage
  import opened Cache

  // What an iterator shows of a list of entries: those that have not outlived
  // their lifetime and match, in order.
  function Shown(p: Params, es: seq<Entry>, matches: Key -> bool, t: int): (r: seq<Entry>)
    ensures |r| <= |es|
    ensures forall e :: e in r <==> e in es && !Outdated(p, e, t) && matches(e.key)
  {
    if es == [] then [] else
    (if !Outdated(p, es[0], t) && matches(es[0].key) then [es[0]] else []) + Shown(p, es[1..], matches, t)
  }

  lemma {:induction false} ShownAppend(p: Params, a: seq<Entry>, b: seq<Entry>, matches: Key -> bool, t: int)
    ensures Shown(p, a + b, matches, t) == Shown(p, a, matches, t) + Shown(p, b, matches, t)
  {
    hide Outdated;
    if a == [] {
      assert a + b == b;
    } else {
      assert (a + b)[1..] == a[1..] + b;
      ShownAppend(p, a[1..], b, matches, t);
    }
  }

  lemma ShownNext(p: Params, es: seq<Entry>, i: nat, matches: Key -> bool, t: int)
    requires i < |es|
    ensures Shown(p, es[..i + 1], matches, t)
         == Shown(p, es[..i], matches, t) + if !Outdated(p, es[i], t) && matches(es[i].key) then [es[i]] else []
  {
    hide Outdated;
    assert es[..i + 1] == es[..i] + [es[i]];
    ShownAppend(p, es[..i], [es[i]], matches, t);
    assert [es[i]][1..] == [];
  }

  // Everything there is to show from chain n on.
  ghost function ShownFrom(p: Params, st: State, n: nat, matches: Key -> bool, t: int): seq<Entry>
    requires n <= |st.chains|
  {
    Shown(p, Flat(st.chains[n..]), matches, t)
  }

  lemma ShownChain(p: Params, st: State, n: nat, matches: Key -> bool, t: int)
    requires n < |st.chains|
    ensures ShownFrom(p, st, n, matches, t) == Shown(p, st.chains[n], matches, t) + ShownFrom(p, st, n + 1, matches, t)
  {
    hide Outdated;
    assert st.chains[n..][1..] == st.chains[n + 1..];
    ShownAppend(p, st.chains[n], Flat(st.chains[n + 1..]), matches, t);
  }

  // What there is to show in the chains from n to m.
  ghost function ShownBetween(p: Params, st: State, n: nat, m: nat, matches: Key -> bool, t: int): seq<Entry>
    requires n <= m <= |st.chains|
  {
    Shown(p, Flat(st.chains[n..m]), matches, t)
  }

  lemma BetweenNext(p: Params, st: State, n: nat, m: nat, matches: Key -> bool, t: int)
    requires n <= m < |st.chains|
    ensures ShownBetween(p, st, n, m + 1, matches, t)
         == ShownBetween(p, st, n, m, matches, t) + Shown(p, st.chains[m], matches, t)
  {
    hide Outdated, Shown;
    var chains := st.chains[n..m + 1];
    FlatAt(chains, m - n);
    assert chains[..m - n] == st.chains[n..m] && chains[m - n] == st.chains[m] && chains[m - n + 1..] == [];
    FlatNone();
    assert Flat(chains) == Flat(st.chains[n..m]) + st.chains[m];
    ShownAppend(p, Flat(st.chains[n..m]), st.chains[m], matches, t);
  }

  lemma FlatNone()
    ensures Flat([]) == []
  {}

  // es is what there is to show in the chains from n to m, and without the last of
  // these chains it is not more than a chunk.
  ghost predicate Chunk(p: Params, st: State, n: nat, m: nat, es: seq<Entry>, chunkSize: nat, matches: Key -> bool,
                        t: int)
    requires n <= m <= |st.chains|
  {
    && es == ShownBetween(p, st, n, m, matches, t)
    && (m > n ==> |ShownBetween(p, st, n, m - 1, matches, t)| <= chunkSize)
  }

  lemma EmptyChunk(p: Params, st: State, n: nat, chunkSize: nat, matches: Key -> bool, t: int)
    requires n <= |st.chains|
    ensures Chunk(p, st, n, n, [], chunkSize, matches, t)
  {
    assert st.chains[n..n] == [];
  }

  lemma MoreChunk(p: Params, st: State, n: nat, m: nat, es: seq<Entry>, chunkSize: nat, matches: Key -> bool, t: int)
    requires n <= m < |st.chains| && Chunk(p, st, n, m, es, chunkSize, matches, t) && |es| <= chunkSize
    ensures Chunk(p, st, n, m + 1, es + Shown(p, st.chains[m], matches, t), chunkSize, matches, t)
  {
    hide ShownBetween, Shown;
    BetweenNext(p, st, n, m, matches, t);
  }

  ghost predicate Once(es: seq<Entry>) {
    forall i, j :: 0 <= i < j < |es| ==> es[i].id != es[j].id
  }

  // Each entry is shown once.
  lemma ShownOnce(p: Params, st: State, matches: Key -> bool, t: int)
    requires Inv(p, st)
    ensures Once(ShownFrom(p, st, 0, matches, t))
  {
    hide Shape, Totals, Counted, Outdated, Once, Shown, Flat;
    assert st.chains[0..] == st.chains;
    FlatOnce(st);
    ShownDistinct(p, Flat(st.chains), matches, t);
  }

  lemma FlatOnce(st: State)
    requires Census(st)
    ensures Once(Flat(st.chains))
  {
    hide Flat, Census;
    var es := Flat(st.chains);
    forall i, j | 0 <= i < j < |es| ensures es[i].id != es[j].id {
      assert es == es[..j] + [es[j]] + es[j + 1..];
      Unique(st, es[..j], es[j], es[j + 1..]);
      assert es[..j][i] in es[..j] + es[j + 1..];
    }
  }

  lemma {:induction false} ShownDistinct(p: Params, es: seq<Entry>, matches: Key -> bool, t: int)
    requires Once(es)
    ensures Once(Shown(p, es, matches, t))
  {
    hide Outdated;
    if es != [] {
      assert Once(es[1..]);
      ShownDistinct(p, es[1..], matches, t);
      var rest := Shown(p, es[1..], matches, t);
      forall j | 0 <= j < |rest| ensures rest[j].id != es[0].id {
        assert rest[j] in es[1..];
        var k :| 0 <= k < |es[1..]| && es[1..][k] == rest[j];
        assert es[k + 1] == rest[j];
      }
      OnceMore(es[0], rest);
    }
  }

  lemma OnceMore(e: Entry, rest: seq<Entry>)
    requires Once(rest) && forall j :: 0 <= j < |rest| ==> rest[j].id != e.id
    ensures Once([e] + rest) && [] + rest == rest
  {
    var es := [e] + rest;
    forall i, j | 0 <= i < j < |es| ensures es[i].id != es[j].id {
      assert es[j] == rest[j - 1];
      if i > 0 { assert es[i] == rest[i - 1]; }
    }
  }

  // The positions at, which grow, are where items stand in es.
  ghost predicate StandAt(items: seq<Entry>, es: seq<Entry>, at: seq<nat>) {
    && |at| == |items|
    && (forall j :: 0 <= j < |at| ==> at[j] < |es| && es[at[j]] == items[j])
    && forall i, j :: 0 <= i < j < |at| ==> at[i] < at[j]
  }

  // items are entries of es in the order of es.
  ghost predicate InOrder(items: seq<Entry>, es: seq<Entry>) {
    exists at :: StandAt(items, es, at)
  }

  lemma StandLater(items: seq<Entry>, e: Entry, es: seq<Entry>, at: seq<nat>) returns (at': seq<nat>)
    requires StandAt(items, es, at)
    ensures StandAt(items, [e] + es, at') && forall j :: 0 <= j < |at'| ==> at'[j] >= 1
  {
    at' := seq(|at|, j requires 0 <= j < |at| => at[j] + 1);
  }

  lemma StandFirst(items: seq<Entry>, es: seq<Entry>, at: seq<nat>)
    requires StandAt(items, es, at) && es != [] && forall j :: 0 <= j < |at| ==> at[j] >= 1
    ensures StandAt([es[0]] + items, es, [0] + at)
  {}

  // Entries are shown in the order in which they stand in the list.
  lemma {:induction false} ShownInOrder(p: Params, es: seq<Entry>, matches: Key -> bool, t: int)
    ensures InOrder(Shown(p, es, matches, t), es)
  {
    hide Outdated, StandAt;
    if es == [] {
      ShowsNothing([]);
    } else {
      ShownInOrder(p, es[1..], matches, t);
      var rest := Shown(p, es[1..], matches, t);
      var at :| StandAt(rest, es[1..], at);
      var at' := StandLater(rest, es[0], es[1..], at);
      assert [es[0]] + es[1..] == es && [] + rest == rest;
      StandFirst(rest, es, at');
    }
  }

  lemma ShowsNothing(es: seq<Entry>)
    ensures InOrder([], es)
  {
    assert StandAt([], es, []);
  }

  class ApcIterator {
    const cache: Store
    const chunkSize: nat
    const matches: Key -> bool     // apc_iterator_search_match
    var slotIdx: nat
    var stack: seq<Entry>
    var stackIdx: nat

    constructor (cache: Store, chunkSize: nat, matches: Key -> bool)
      requires cache.Valid()
      ensures Ready() && this.cache == cache && this.chunkSize == chunkSize && this.matches == matches
    {
      this.cache, this.chunkSize, this.matches := cache, chunkSize, matches;
      slotIdx, stack, stackIdx := 0, [], 0;
    }

    ghost predicate Ready()
      reads this, cache, cache.slots
    {
      cache.Valid() && slotIdx <= |cache.st.chains| && stackIdx <= |stack|
    }

    // What the iterator still has to show.
    ghost function Pending(t: int): seq<Entry>
      requires Ready()
      reads this, cache, cache.slots
    {
      stack[stackIdx..] + ShownFrom(cache.p, cache.st, slotIdx, matches, t)
    }

    // One chain of the fetch.
    method FetchChain(t: int) returns (count: nat)
      requires cache.Valid() && slotIdx < |cache.st.chains|
      modifies this`stack
      ensures stack == old(stack) + Shown(cache.p, cache.st.chains[slotIdx], matches, t)
        && count == |stack| - |old(stack)|
    {
      hide Inv, Repr, Outdated, Shown, ShownFrom, Once, InOrder, ListIs, Census, ShownBetween, Chunk, Flat;
      count := 0;
      ghost var es := cache.st.chains[slotIdx];
      ghost var i: nat := 0;
      ShownNone(cache.p, es, matches, t);
      cache.HeadsFit(cache.slots[..]);
      LinkReads(cache.mem, cache.slots[..], cache.gc, cache.st, slotIdx, 0);
      var a := cache.slots[slotIdx];
      while a != 0
        invariant i <= |es| && a == IdAt(es, i) && (a != 0 <==> i < |es|)
        invariant stack == old(stack) + Shown(cache.p, es[..i], matches, t) && count == |stack| - |old(stack)|
        decreases |es| - i
      {
        LinkReads(cache.mem, cache.slots[..], cache.gc, cache.st, slotIdx, i);
        ShownNext(cache.p, es, i, matches, t);
        var unexpired := CheckExpiry(cache.mem[a].entry, t);
        if unexpired {
          if matches(cache.mem[a].entry.key) {
            count := count + 1;
            stack := stack + [cache.mem[a].entry];
          }
        }
        a := cache.mem[a].next;
        i := i + 1;
        LinkReads(cache.mem, cache.slots[..], cache.gc, cache.st, slotIdx, i);
      }
      assert es[..i] == es;
    }

    // apc_iterator_check_expiry
    method CheckExpiry(e: Entry, t: int) returns (ok: bool)
      ensures ok == !Outdated(cache.p, e, t)
    {
      if e.ttl != 0 {
        if e.ctime + e.ttl < t { return false; }
      } else if cache.p.ttl != 0 {
        if e.ctime + cache.p.ttl < t { return false; }
      }
      ok := true;
    }

    static lemma ShownNone(p: Params, es: seq<Entry>, matches: Key -> bool, t: int)
      ensures Shown(p, es[..0], matches, t) == []
    {}

    // apc_iterator_fetch_active: chains are fetched until there are more than
    // chunkSize entries or no more chains.
    method Fetch(t: int) returns (count: nat)
      requires Ready()
      modifies this
      ensures Ready() && stackIdx == 0 && count == |stack|
      ensures Pending(t) == ShownFrom(cache.p, cache.st, old(slotIdx), matches, t)
      ensures count == 0 ==> Pending(t) == []
      ensures old(slotIdx) <= slotIdx
      ensures Chunk(cache.p, cache.st, old(slotIdx), slotIdx, stack, chunkSize, matches, t)
      ensures count > chunkSize || slotIdx == |cache.st.chains|
    {
      hide Store.Valid, Outdated, Shown, ShownFrom, Flat, Chunk;
      stack, count := [], 0;
      cache.SlotsFit();
      EmptyChunk(cache.p, cache.st, slotIdx, chunkSize, matches, t);
      while count <= chunkSize && slotIdx < cache.slots.Length
        invariant cache.Valid() && slotIdx <= |cache.st.chains| == cache.slots.Length && count == |stack|
        invariant stack + ShownFrom(cache.p, cache.st, slotIdx, matches, t) ==
          ShownFrom(cache.p, cache.st, old(slotIdx), matches, t)
        invariant old(slotIdx) <= slotIdx
        invariant Chunk(cache.p, cache.st, old(slotIdx), slotIdx, stack, chunkSize, matches, t)
        decreases cache.slots.Length - slotIdx
      {
        ShownChain(cache.p, cache.st, slotIdx, matches, t);
        MoreChunk(cache.p, cache.st, old(slotIdx), slotIdx, stack, chunkSize, matches, t);
        ghost var before := stack;
        var more := FetchChain(t);
        Regroup(before, Shown(cache.p, cache.st.chains[slotIdx], matches, t),
          ShownFrom(cache.p, cache.st, slotIdx + 1, matches, t));
        count := count + more;
        slotIdx := slotIdx + 1;
      }
      stackIdx := 0;
      assert stack[0..] == stack;
      ShownEnd(cache.p, cache.st, matches, t);
    }

    static lemma Regroup(a: seq<Entry>, b: seq<Entry>, c: seq<Entry>)
      ensures a + (b + c) == (a + b) + c
    {}

    static lemma ShownEnd(p: Params, st: State, matches: Key -> bool, t: int)
      ensures ShownFrom(p, st, |st.chains|, matches, t) == []
    {}

    method Rewind(t: int)
      requires Ready()
      modifies this
      ensures Ready() && Pending(t) == ShownFrom(cache.p, cache.st, 0, matches, t)
    {
      hide Store.Valid, ShownFrom;
      slotIdx, stackIdx := 0, 0;
      var _ := Fetch(t);
    }

    // There is a current entry exactly when there is something left to show.
    method Valid(t: int) returns (ok: bool)
      requires Ready()
      modifies this
      ensures Ready() && Pending(t) == old(Pending(t)) && (ok <==> Pending(t) != [])
      ensures ok ==> stackIdx < |stack|
    {
      hide Store.Valid, ShownFrom;
      if |stack| == stackIdx {
        var _ := Fetch(t);
      }
      ok := |stack| != 0;
    }

    // None is false.
    method Current(t: int) returns (r: Option<Entry>)
      requires Ready()
      modifies this
      ensures Ready() && Pending(t) == old(Pending(t))
      ensures r == if Pending(t) == [] then None else Some(Pending(t)[0])
      ensures r.Some? ==> stackIdx < |stack|
    {
      hide Store.Valid, ShownFrom;
      if |stack| == stackIdx {
        var count := Fetch(t);
        if count == 0 { return None; }
      }
      r := Some(stack[stackIdx]);
    }

    method Advance()
      requires Ready()
      modifies this
      ensures slotIdx == old(slotIdx) && stack == old(stack)
      ensures stackIdx == if |stack| == 0 then old(stackIdx) else old(stackIdx) + 1
    {
      if |stack| == 0 { return; }
      stackIdx := stackIdx + 1;
    }

    twostate lemma Advanced(t: int)
      requires old(Ready()) && old(stackIdx) < |old(stack)|
      requires cache.Valid() && cache.st == old(cache.st)
      requires slotIdx == old(slotIdx) && stack == old(stack) && stackIdx == old(stackIdx) + 1
      ensures Ready() && old(Pending(t)) == [old(Pending(t))[0]] + Pending(t)
    {
      hide Inv, Repr, ShownFrom;
      assert stack[old(stackIdx)..] == [stack[old(stackIdx)]] + stack[stackIdx..];
    }

    // A complete traversal, as foreach does it: whatever the chunk size, it shows
    // every live matching entry once, chain by chain.
    method Traverse(t: int) returns (items: seq<Entry>)
      requires Ready()
      modifies this
      ensures items == ShownFrom(cache.p, cache.st, 0, matches, t)
      ensures Once(items)
      ensures InOrder(items, Flat(cache.st.chains))
      ensures forall e :: e in items <==>
        e in Flat(cache.st.chains) && matches(e.key)
        && !(e.ttl != 0 && e.ctime + e.ttl < t) && !(e.ttl == 0 && cache.p.ttl != 0 && e.ctime + cache.p.ttl < t)
    {
      hide Inv, Repr, Store.Holds, Shown, Outdated, Once, ShownFrom, InOrder;
      items := [];
      Rewind(t);
      ghost var all := Pending(t);
      var ok := Valid(t);
      while ok
        invariant Ready() && items + Pending(t) == all && (ok <==> Pending(t) != []) && (ok ==> stackIdx < |stack|)
        decreases |Pending(t)|
      {
        ghost var shown := items;
        var item := Current(t);
        items := items + [item.value];
        label Before:
        Advance();
        Advanced@Before(t);
        Regroup(shown, [item.value], Pending(t));
        ok := Valid(t);
      }
      assert items + [] == items;
      ShownOnce(cache.p, cache.st, matches, t);
      ShownIn(cache.p, cache.st, matches, t);
    }

    static lemma ShownIn(p: Params, st: State, matches: Key -> bool, t: int)
      ensures InOrder(ShownFrom(p, st, 0, matches, t), Flat(st.chains))
      ensures forall e :: e in ShownFrom(p, st, 0, matches, t) <==>
        e in Flat(st.chains) && matches(e.key)
        && !(e.ttl != 0 && e.ctime + e.ttl < t) && !(e.ttl == 0 && p.ttl != 0 && e.ctime + p.ttl < t)
    {
      hide Flat, Outdated, Shown;
      assert st.chains[0..] == st.chains;
      forall e ensures Outdated(p, e, t) <==>
        (e.ttl != 0 && e.ctime + e.ttl < t) || (e.ttl == 0 && p.ttl != 0 && e.ctime + p.ttl < t)
      {
        OutdatedHow(p, e, t);
      }
      ShownInOrder(p, Flat(st.chains), matches, t);
    }
  }
}
