/** The slot of a key in a cluster. */
module HashTag {
  import opened Crc16

  const OPEN: bv8 := 0x7b
  const CLOSE: bv8 := 0x7d
  const MOD: bv16 := 16383

  // The first position of c in key from i on, or the end.
  function Find(key: seq<bv8>, c: bv8, i: nat): (r: nat)
    requires i <= |key|
    ensures i <= r <= |key|
    ensures r < |key| ==> key[r] == c
    ensures forall j :: i <= j < r ==> key[j] != c
    decreases |key| - i
  {
    if i == |key| || key[i] == c then i else Find(key, c, i + 1)
  }

  // The part of the key that is hashed.
  function Tag(key: seq<bv8>): seq<bv8> {
    var s := Find(key, OPEN, 0);
    if s == |key| then key else
    var e := Find(key, CLOSE, s + 1);
    if e == |key| || e == s + 1 then key else key[s + 1..e]
  }

  function Mask(crc: bv16): bv16 { crc & MOD }

  // The slot of a key.
  function SlotOf(key: seq<bv8>): bv16 { Mask(Bitwise(Tag(key))) }

  function Reduced(crc: bv16): bv16 { crc % 16384 }

  // slot is the CRC of the tag where the key has one, and that of the whole key
  // where it has none, modulo 16384.
  ghost predicate IsSlot(key: seq<bv8>, slot: bv16) {
    && (forall prefix, tag, suffix :: Tagged(key, prefix, tag, suffix) ==> slot == Reduced(Bitwise(tag)))
    && ((forall prefix, tag, suffix :: !Tagged(key, prefix, tag, suffix)) ==> slot == Reduced(Bitwise(key)))
  }

  // cluster_hash_key
  method HashKey(key: seq<bv8>) returns (slot: bv16)
    ensures slot == SlotOf(key) && IsSlot(key, slot)
  {
    hide Bitwise, Mask, MOD, IsSlot, Reduced;
    SlotRule(key);
    var s := 0;
    while s < |key| && key[s] != OPEN
      invariant s <= |key| && Find(key, OPEN, 0) == Find(key, OPEN, s)
    {
      s := s + 1;
    }
    if s == |key| {
      var whole := Compute(key);
      return Mask(whole);
    }
    var e := s + 1;
    while e < |key| && key[e] != CLOSE
      invariant s + 1 <= e <= |key| && Find(key, CLOSE, s + 1) == Find(key, CLOSE, e)
    {
      e := e + 1;
    }
    if e == |key| || e == s + 1 {
      var whole := Compute(key);
      return Mask(whole);
    }
    var tag := Compute(key[s + 1..e]);
    return Mask(tag);
  }

  // key is prefix{tag}suffix with the first '{', the first '}' after it, and
  // something in between.
  ghost predicate Tagged(key: seq<bv8>, prefix: seq<bv8>, tag: seq<bv8>, suffix: seq<bv8>) {
    && key == prefix + [OPEN] + tag + [CLOSE] + suffix
    && OPEN !in prefix && tag != [] && CLOSE !in tag
  }

  // The rule of hash tags.
  lemma TagRule(key: seq<bv8>)
    ensures forall prefix, tag, suffix :: Tagged(key, prefix, tag, suffix) ==> Tag(key) == tag
    ensures (forall prefix, tag, suffix :: !Tagged(key, prefix, tag, suffix)) ==> Tag(key) == key
  {
    forall prefix, tag, suffix | Tagged(key, prefix, tag, suffix) ensures Tag(key) == tag {
      TaggedTag(key, prefix, tag, suffix);
    }
    if Tag(key) != key { HasTag(key); }
  }

  lemma HasTag(key: seq<bv8>)
    requires Tag(key) != key
    ensures exists prefix, tag, suffix :: Tagged(key, prefix, tag, suffix)
  {
    hide Find, OPEN, CLOSE, Tagged;
    var s := Find(key, OPEN, 0);
    var e := Find(key, CLOSE, s + 1);
    CutAt(key, s, e);
    TaggedHow(key, key[..s], key[s + 1..e], key[e + 1..]);
  }

  lemma CutAt(key: seq<bv8>, s: nat, e: nat)
    requires s < e < |key|
    ensures key == key[..s] + [key[s]] + key[s + 1..e] + [key[e]] + key[e + 1..]
  {}

  lemma TaggedHow(key: seq<bv8>, prefix: seq<bv8>, tag: seq<bv8>, suffix: seq<bv8>)
    requires key == prefix + [OPEN] + tag + [CLOSE] + suffix && tag != []
    requires forall i :: 0 <= i < |prefix| ==> prefix[i] != OPEN
    requires forall i :: 0 <= i < |tag| ==> tag[i] != CLOSE
    ensures Tagged(key, prefix, tag, suffix)
  {}

  lemma TaggedTag(key: seq<bv8>, prefix: seq<bv8>, tag: seq<bv8>, suffix: seq<bv8>)
    requires Tagged(key, prefix, tag, suffix)
    ensures Tag(key) == tag
  {
    hide Find;
    var s, e := |prefix|, |prefix| + 1 + |tag|;
    Pieces(prefix, tag, suffix);
    assert forall j :: 0 <= j < s ==> key[j] != OPEN by { assert forall j :: 0 <= j < s ==> prefix[j] in prefix; }
    assert forall j :: s < j < e ==> key[j] != CLOSE by { assert forall j :: 0 <= j < |tag| ==> tag[j] in tag; }
    assert Find(key, OPEN, 0) == s;
    assert Find(key, CLOSE, s + 1) == e;
  }

  lemma Pieces(prefix: seq<bv8>, tag: seq<bv8>, suffix: seq<bv8>)
    ensures var key := prefix + [OPEN] + tag + [CLOSE] + suffix; var s, e := |prefix|, |prefix| + 1 + |tag|;
      && e < |key| && key[s] == OPEN && key[e] == CLOSE && key[s + 1..e] == tag
      && (forall j :: 0 <= j < s ==> key[j] == prefix[j])
      && forall j :: s < j < e ==> key[j] == tag[j - s - 1]
  {
    hide OPEN, CLOSE;
    var key := prefix + [OPEN] + tag + [CLOSE] + suffix;
    assert key[|prefix| + 1..|prefix| + 1 + |tag|] == tag;
  }

  // Keys with the same tag are in the same slot, whatever surrounds it.
  lemma SameSlot(key1: seq<bv8>, key2: seq<bv8>, p1: seq<bv8>, p2: seq<bv8>, tag: seq<bv8>, s1: seq<bv8>, s2: seq<bv8>)
    requires Tagged(key1, p1, tag, s1) && Tagged(key2, p2, tag, s2)
    ensures SlotOf(key1) == SlotOf(key2) == Reduced(Bitwise(tag))
  {
    hide Bitwise, Mask, MOD, Tagged, Tag, Reduced;
    TaggedTag(key1, p1, tag, s1);
    TaggedTag(key2, p2, tag, s2);
    MaskIsModulo(Bitwise(tag));
  }

  lemma SlotRule(key: seq<bv8>)
    ensures IsSlot(key, SlotOf(key))
  {
    hide SlotOf, Bitwise, Tagged, Tag, Reduced;
    TagRule(key);
    SlotOfTag(key);
  }

  lemma SlotOfTag(key: seq<bv8>)
    ensures SlotOf(key) == Reduced(Bitwise(Tag(key)))
  {
    hide Bitwise, Mask, MOD, Tag, Reduced;
    MaskIsModulo(Bitwise(Tag(key)));
  }

  lemma MaskIsModulo(x: bv16)
    ensures Mask(x) == Reduced(x)
  {}
}
