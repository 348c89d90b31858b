/**
 The record layout of a pool: every allocation takes a size field, the payload
 and a redzone that fills it up to a word boundary, one after the other.
 */
module PoolSpec {
  import opened Align

  type Addr = nat
  type Memory = map<Addr, nat>

  // The word size, and the sizes of pool_block, apc_realpool and the size field.
  // A redzone has at most word + 4 bytes, and the pattern for it has 32.
  datatype Layout = Layout(word: nat, hdr: nat, rpool: nat, info: nat, redzones: bool, sizeinfo: bool) {
    ghost predicate Valid() {
      && 1 <= word && word + 4 <= 32
      && hdr >= 1 && Aligned(hdr, word) && rpool >= hdr
      && info >= 1 && Aligned(info, word)
    }
  }

  // ALIGNWORD of an unsigned size, where 0 wraps around to 0.
  function AlignUp(x: nat, word: nat): (r: nat)
    requires word >= 1
    ensures x <= r < x + word && Aligned(r, word)
  {
    if x == 0 then 0 else AlignSize(x, word)
  }

  function RedzoneSize(l: Layout, size: nat): (r: nat)
    requires l.word >= 1
  {
    if AlignUp(size, l.word) > size + 4 then AlignUp(size, l.word) - size
    else AlignUp(size, l.word) - size + AlignSize(1, l.word)
  }

  // A redzone fills up to a word boundary, is at least 4 bytes and never longer
  // than its pattern.
  lemma RedzoneBounds(l: Layout, size: nat)
    requires l.Valid()
    ensures Aligned(size + RedzoneSize(l, size), l.word)
    ensures 1 <= RedzoneSize(l, size) <= l.word + 4 <= 32
    ensures l.word >= 4 ==> RedzoneSize(l, size) >= 4
    ensures l.word > 4 ==> RedzoneSize(l, size) > 4
  {
    hide Aligned;
    assert AlignSize(1, l.word) == l.word;
    AlignedSum(AlignUp(size, l.word), AlignSize(1, l.word), l.word);
  }

  // With words of more than 4 bytes it is the least of more than 4 bytes that does.
  lemma RedzoneLeast(l: Layout, size: nat, r: nat)
    requires l.Valid() && l.word > 4 && r > 4 && Aligned(size + r, l.word)
    ensures RedzoneSize(l, size) <= r
  {
    hide RedzoneSize, Aligned;
    RedzoneBounds(l, size);
    if r < RedzoneSize(l, size) { AlignedClose(size + r, size + RedzoneSize(l, size), l.word); }
  }

  lemma {:induction false} AlignedClose(a: nat, b: nat, word: nat)
    requires word >= 1 && Aligned(a, word) && Aligned(b, word) && a <= b < a + word
    ensures a == b
    decreases a
  {
    if a >= word { AlignedClose(a - word, b - word, word); }
  }

  function Info(l: Layout): nat { if l.sizeinfo then l.info else 0 }

  // The bytes that an allocation of size bytes takes from its block.
  function Real(l: Layout, size: nat): nat
    requires l.word >= 1
  {
    (if l.redzones then size + RedzoneSize(l, size) else AlignUp(size, l.word)) + Info(l)
  }

  lemma RealAligned(l: Layout, size: nat)
    requires l.Valid()
    ensures Aligned(Real(l, size), l.word)
    ensures Real(l, size) >= Info(l) + size + (if l.redzones then RedzoneSize(l, size) else 0)
    ensures l.redzones || l.sizeinfo ==> Real(l, size) >= 1
    ensures Real(l, size) <= Info(l) + size + (if l.redzones then RedzoneSize(l, size) else l.word - 1)
  {
    hide Aligned;
    assert AlignSize(1, l.word) == l.word;
    AlignedSum(AlignUp(size, l.word), AlignSize(1, l.word), l.word);
    AlignedZero(l.word);
    AlignedSum(if l.redzones then size + RedzoneSize(l, size) else AlignUp(size, l.word), Info(l), l.word);
  }

  lemma AlignedZero(word: nat)
    requires word >= 1
    ensures Aligned(0, word)
  {}

  // The pattern of a redzone.
  const DECAFF: seq<nat> := [
    0xde, 0xca, 0xff, 0xc0, 0xff, 0xee, 0xba, 0xad,
    0xde, 0xca, 0xff, 0xc0, 0xff, 0xee, 0xba, 0xad,
    0xde, 0xca, 0xff, 0xc0, 0xff, 0xee, 0xba, 0xad,
    0xde, 0xca, 0xff, 0xc0, 0xff, 0xee, 0xba, 0xad
  ]

  lemma DecaffLength()
    ensures |DECAFF| == 32
  {}

  // ---------- blocks ----------

  // recs are the sizes asked for, in order.
  datatype Block = Block(at: Addr, capacity: nat, recs: seq<nat>)

  function Used(l: Layout, recs: seq<nat>): nat
    requires l.word >= 1
  {
    if recs == [] then 0 else Used(l, recs[..|recs| - 1]) + Real(l, recs[|recs| - 1])
  }

  lemma UsedNext(l: Layout, recs: seq<nat>, k: nat)
    requires l.word >= 1 && k < |recs|
    ensures Used(l, recs[..k + 1]) == Used(l, recs[..k]) + Real(l, recs[k])
  {
    assert recs[..k + 1][..k] == recs[..k];
  }

  lemma UsedAppend(l: Layout, recs: seq<nat>, size: nat)
    requires l.word >= 1
    ensures Used(l, recs + [size]) == Used(l, recs) + Real(l, size)
  {
    assert (recs + [size])[..|recs|] == recs;
  }

  lemma {:induction false} UsedGrows(l: Layout, recs: seq<nat>, k: nat, m: nat)
    requires l.word >= 1 && k <= m <= |recs|
    ensures Used(l, recs[..k]) <= Used(l, recs[..m])
  {
    if k < m {
      UsedNext(l, recs, m - 1);
      UsedGrows(l, recs, k, m - 1);
    }
  }

  function Start(l: Layout, b: Block): Addr { b.at + l.hdr }

  // Where record k of b begins, and where its payload is.
  function RecordAt(l: Layout, b: Block, k: nat): Addr
    requires l.word >= 1 && k <= |b.recs|
  {
    Start(l, b) + Used(l, b.recs[..k])
  }

  function PayloadAt(l: Layout, b: Block, k: nat): Addr
    requires l.word >= 1 && k < |b.recs|
  {
    RecordAt(l, b, k) + Info(l)
  }

  // A record lies inside its block and before all later ones.
  lemma RecordInside(l: Layout, b: Block, k: nat)
    requires l.Valid() && k < |b.recs| && Used(l, b.recs) <= b.capacity
    ensures PayloadAt(l, b, k) + b.recs[k] + (if l.redzones then RedzoneSize(l, b.recs[k]) else 0)
            <= RecordAt(l, b, k + 1)
    ensures Start(l, b) <= RecordAt(l, b, k) && RecordAt(l, b, k + 1) <= Start(l, b) + b.capacity
  {
    UsedNext(l, b.recs, k);
    RealAligned(l, b.recs[k]);
    UsedGrows(l, b.recs, k + 1, |b.recs|);
    assert b.recs[..|b.recs|] == b.recs;
  }

  lemma RecordsOrdered(l: Layout, b: Block, k: nat, m: nat)
    requires l.Valid() && k < m < |b.recs|
    ensures RecordAt(l, b, k + 1) <= RecordAt(l, b, m)
  {
    UsedGrows(l, b.recs, k + 1, m);
  }

  // ---------- contents ----------

  function At(mem: Memory, a: Addr): nat { if a in mem then mem[a] else 0 }

  ghost predicate Sized(l: Layout, mem: Memory, b: Block)
    requires l.word >= 1
  {
    l.sizeinfo ==> forall k :: 0 <= k < |b.recs| ==> At(mem, RecordAt(l, b, k)) == b.recs[k]
  }

  ghost predicate RedzoneIntact(l: Layout, mem: Memory, b: Block, k: nat)
    requires l.word >= 1 && k < |b.recs|
  {
    forall j :: 0 <= j < RedzoneSize(l, b.recs[k]) && j < 32 ==>
      At(mem, PayloadAt(l, b, k) + b.recs[k] + j) == DECAFF[j]
  }

  ghost predicate BlockIntact(l: Layout, mem: Memory, b: Block)
    requires l.word >= 1
  {
    forall k :: 0 <= k < |b.recs| ==> RedzoneIntact(l, mem, b, k)
  }

  // The two memories agree on the data area of b up to its end.
  ghost predicate SameIn(l: Layout, mem: Memory, mem': Memory, lo: Addr, hi: Addr) {
    forall a :: lo <= a < hi ==> At(mem', a) == At(mem, a)
  }

  lemma SizedFrame(l: Layout, mem: Memory, mem': Memory, b: Block)
    requires l.Valid() && Used(l, b.recs) <= b.capacity && Sized(l, mem, b)
    requires SameIn(l, mem, mem', Start(l, b), Start(l, b) + Used(l, b.recs))
    ensures Sized(l, mem', b)
  {
    hide Real, RecordAt;
    if l.sizeinfo {
      forall k | 0 <= k < |b.recs| ensures At(mem', RecordAt(l, b, k)) == b.recs[k] { RecordUsed(l, b, k); }
    }
  }

  lemma IntactFrame(l: Layout, mem: Memory, mem': Memory, b: Block)
    requires l.Valid() && l.redzones && Used(l, b.recs) <= b.capacity && BlockIntact(l, mem, b)
    requires SameIn(l, mem, mem', Start(l, b), Start(l, b) + Used(l, b.recs))
    ensures BlockIntact(l, mem', b)
  {
    hide Real, RecordAt;
    forall k | 0 <= k < |b.recs| ensures RedzoneIntact(l, mem', b, k) {
      RecordUsed(l, b, k);
      assert RedzoneIntact(l, mem, b, k);
    }
  }

  lemma RecordUsed(l: Layout, b: Block, k: nat)
    requires l.Valid() && k < |b.recs|
    ensures Start(l, b) <= RecordAt(l, b, k) <= PayloadAt(l, b, k)
    ensures PayloadAt(l, b, k) + b.recs[k] + (if l.redzones then RedzoneSize(l, b.recs[k]) else 0)
            <= Start(l, b) + Used(l, b.recs)
    ensures l.redzones || l.sizeinfo ==> RecordAt(l, b, k) < Start(l, b) + Used(l, b.recs)
  {
    UsedNext(l, b.recs, k);
    RealAligned(l, b.recs[k]);
    UsedGrows(l, b.recs, k + 1, |b.recs|);
    assert b.recs[..|b.recs|] == b.recs;
  }

  // ---------- one more record ----------

  function Extended(b: Block, size: nat): Block { b.(recs := b.recs + [size]) }

  lemma ExtendedRecords(l: Layout, b: Block, size: nat, k: nat)
    requires l.word >= 1 && k <= |b.recs|
    ensures RecordAt(l, Extended(b, size), k) == RecordAt(l, b, k)
  {
    assert (b.recs + [size])[..k] == b.recs[..k];
  }

  lemma ExtendedSized(l: Layout, mem: Memory, b: Block, size: nat)
    requires l.Valid() && Sized(l, mem, b)
    requires l.sizeinfo ==> At(mem, Start(l, b) + Used(l, b.recs)) == size
    ensures Sized(l, mem, Extended(b, size))
  {
    hide Real;
    var e := Extended(b, size);
    assert b.recs[..|b.recs|] == b.recs;
    if l.sizeinfo {
      forall k | 0 <= k < |e.recs| ensures At(mem, RecordAt(l, e, k)) == e.recs[k] {
        ExtendedRecords(l, b, size, k);
      }
    }
  }

  lemma ExtendedIntact(l: Layout, mem: Memory, b: Block, size: nat)
    requires l.Valid() && BlockIntact(l, mem, b)
    requires forall j :: 0 <= j < RedzoneSize(l, size) && j < 32 ==>
      At(mem, Start(l, b) + Used(l, b.recs) + Info(l) + size + j) == DECAFF[j]
    ensures BlockIntact(l, mem, Extended(b, size))
  {
    hide Real;
    var e := Extended(b, size);
    assert b.recs[..|b.recs|] == b.recs;
    forall k | 0 <= k < |e.recs| ensures RedzoneIntact(l, mem, e, k) {
      ExtendedRecords(l, b, size, k);
      if k < |b.recs| { assert RedzoneIntact(l, mem, b, k); }
    }
  }
}
