/** One turn of the loop that copies a hash table, on values. */
module CopyTable {
  import opened Slots
  import opened CopySpec

  // The newest bucket of a slot is the one with no later bucket in that slot.
  lemma NewestInSlot(elems: seq<Elem>, size: nat, n: nat, k: nat, i: nat)
    requires size >= 1 && i < k <= |elems|
    ensures i + 1 == Last(elems, size, n, k) <==> Slot(elems[i].h, size) == n && First(elems, size, n, i + 1, k) == k
  {
    hide Slot;
    var l, f := Last(elems, size, n, k), First(elems, size, n, i + 1, k);
    assert Slot(elems[i].h, size) == n && f == k ==> i < l && !(i + 1 < l);
  }

  lemma {:induction false} FirstGrows(elems: seq<Elem>, size: nat, n: nat, from: nat, k: nat)
    requires size >= 1 && from <= k < |elems|
    ensures var f, f' := First(elems, size, n, from, k), First(elems, size, n, from, k + 1);
      f' == if f < k then f else if Slot(elems[k].h, size) == n then k else k + 1
    decreases k - from
  {
    hide Slot;
    if from < k { FirstGrows(elems, size, n, from + 1, k); }
  }

  lemma {:induction false} LastStays(elems: seq<Elem>, size: nat, n: nat, k: nat)
    requires size >= 1 && k < |elems|
    ensures Last(elems, size, n, k + 1) == if Slot(elems[k].h, size) == n then k + 1 else Last(elems, size, n, k)
  {}

  // The buckets after newp has been put in front of its slot chain, whose head
  // was front, and after prev in the list thread.
  function Insert(bkt: map<Addr, Bucket>, elem: Elem, d: Addr, newp: Addr, front: Addr, prev: Addr): map<Addr, Bucket>
    requires front == 0 || front in bkt
    requires prev == 0 || prev in bkt
  {
    var b1 := bkt[newp := Bucket(elem.h, elem.key, d, front, 0, 0, prev)];
    var b2 := if front != 0 then b1[front := b1[front].(last := newp)] else b1;
    if prev != 0 then b2[prev := b2[prev].(listNext := newp)] else b2
  }

  lemma InsertNew(bkt: map<Addr, Bucket>, size: nat, elems: seq<Elem>, ord: seq<Addr>, copied': map<Addr, Addr>,
                  k: nat, newp: Addr, front: Addr, prev: Addr)
    requires size >= 1 && k < |elems| && |ord| == k && newp !in ord && newp != 0 && elems[k].child in copied'
    requires front == At(ord, Last(elems, size, Slot(elems[k].h, size), k) - 1) && prev == At(ord, k - 1)
    requires front == 0 || front in bkt
    requires prev == 0 || prev in bkt
    requires forall i :: 0 <= i < k ==> ord[i] != 0
    ensures Insert(bkt, elems[k], copied'[elems[k].child], newp, front, prev)[newp] ==
      Expected(elems, size, ord + [newp], copied', k, k + 1)
  {
    hide Slot;
    assert front != newp && prev != newp;
  }

  // What Insert does to a bucket that was there before.
  lemma InsertAt(bkt: map<Addr, Bucket>, elem: Elem, d: Addr, newp: Addr, front: Addr, prev: Addr, x: Addr)
    requires front == 0 || front in bkt
    requires prev == 0 || prev in bkt
    requires x in bkt && x != newp && x != 0
    ensures var b := Insert(bkt, elem, d, newp, front, prev);
      x in b && b[x] == bkt[x].(last := if x == front then newp else bkt[x].last,
                                listNext := if x == prev then newp else bkt[x].listNext)
  {}

  // How the description of bucket i changes when element k is added.
  lemma ExpectedNext(elems: seq<Elem>, size: nat, ord: seq<Addr>, copied: map<Addr, Addr>, copied': map<Addr, Addr>,
                     i: nat, k: nat, newp: Addr)
    requires size >= 1 && i < k < |elems| && |ord| == k && elems[i].child in copied
    requires elems[i].child in copied' && copied'[elems[i].child] == copied[elems[i].child]
    ensures var o := Expected(elems, size, ord, copied, i, k);
      Expected(elems, size, ord + [newp], copied', i, k + 1)
      == o.(last := if i + 1 == Last(elems, size, Slot(elems[k].h, size), k) then newp else o.last,
            listNext := if i == k - 1 then newp else o.listNext)
  {
    hide Slot;
    var n, ni := Slot(elems[k].h, size), Slot(elems[i].h, size);
    FirstGrows(elems, size, ni, i + 1, k);
    NewestInSlot(elems, size, n, k, i);
    assert Last(elems, size, ni, i) <= i;
    assert forall j :: 0 <= j < k ==> (ord + [newp])[j] == ord[j];
  }

  // The buckets after one turn hold one more element.
  lemma InsertBuckets(bkt: map<Addr, Bucket>, bkt': map<Addr, Bucket>, size: nat, elems: seq<Elem>, ord: seq<Addr>,
                      copied: map<Addr, Addr>, copied': map<Addr, Addr>, k: nat, newp: Addr, front: Addr, prev: Addr)
    requires Buckets(bkt, size, elems, ord, copied, k) && k < |elems|
    requires newp !in ord && newp != 0
    requires elems[k].child in copied' && forall p :: p in copied ==> p in copied' && copied'[p] == copied[p]
    requires front == At(ord, Last(elems, size, Slot(elems[k].h, size), k) - 1) && prev == At(ord, k - 1)
    requires front == 0 || front in bkt
    requires prev == 0 || prev in bkt
    requires newp in bkt' && forall i :: 0 <= i < k ==> ord[i] in bkt'
    requires var b := Insert(bkt, elems[k], copied'[elems[k].child], newp, front, prev);
      bkt'[newp] == b[newp] && forall i :: 0 <= i < k && ord[i] in b ==> bkt'[ord[i]] == b[ord[i]]
    ensures Buckets(bkt', size, elems, ord + [newp], copied', k + 1)
  {
    hide Slot, Insert, Expected, Last, First;
    var ord' := ord + [newp];
    forall i | 0 <= i <= k
      ensures elems[i].child in copied' && bkt'[ord'[i]] == Expected(elems, size, ord', copied', i, k + 1)
    {
      if i < k {
        InsertOld(bkt, size, elems, ord, copied, copied', k, newp, front, prev, i);
      } else {
        InsertNew(bkt, size, elems, ord, copied', k, newp, front, prev);
      }
    }
  }

  lemma InsertOld(bkt: map<Addr, Bucket>, size: nat, elems: seq<Elem>, ord: seq<Addr>,
                  copied: map<Addr, Addr>, copied': map<Addr, Addr>, k: nat, newp: Addr, front: Addr, prev: Addr,
                  i: nat)
    requires Buckets(bkt, size, elems, ord, copied, k) && i < k < |elems|
    requires newp !in ord && newp != 0
    requires elems[k].child in copied' && forall p :: p in copied ==> p in copied' && copied'[p] == copied[p]
    requires front == At(ord, Last(elems, size, Slot(elems[k].h, size), k) - 1) && prev == At(ord, k - 1)
    requires front == 0 || front in bkt
    requires prev == 0 || prev in bkt
    ensures elems[i].child in copied'
    ensures var b := Insert(bkt, elems[k], copied'[elems[k].child], newp, front, prev);
      ord[i] in b && b[ord[i]] == Expected(elems, size, ord + [newp], copied', i, k + 1)
  {
    hide Slot, Insert, Expected, First;
    ExpectedNext(elems, size, ord, copied, copied', i, k, newp);
    InsertAt(bkt, elems[k], copied'[elems[k].child], newp, front, prev, ord[i]);
    OneOf(ord, Last(elems, size, Slot(elems[k].h, size), k) - 1, i);
    OneOf(ord, k - 1, i);
  }

  lemma OneOf(ord: seq<Addr>, j: int, i: nat)
    requires i < |ord| && forall a :: 0 <= a < |ord| ==> ord[a] != 0
    requires forall a, b :: 0 <= a < b < |ord| ==> ord[a] != ord[b]
    ensures At(ord, j) == ord[i] <==> j == i
  {}

  lemma InsertHeads(slots: seq<Addr>, size: nat, elems: seq<Elem>, ord: seq<Addr>, k: nat, newp: Addr)
    requires Heads(slots, size, elems, ord, k) && k < |elems|
    ensures Heads(slots[Slot(elems[k].h, size) := newp], size, elems, ord + [newp], k + 1)
  {
    hide Slot;
    var n := Slot(elems[k].h, size);
    var slots' := slots[n := newp];
    forall m | 0 <= m < size ensures slots'[m] == At(ord + [newp], Last(elems, size, m, k + 1) - 1) {
      LastStays(elems, size, m, k);
      if m != n {
        assert Last(elems, size, m, k) <= |ord|;
      }
    }
  }
}
