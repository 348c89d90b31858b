/** The slot of a hash in a table: h % size, by repeated subtraction. */
module Slots {

  function Slot(h: nat, size: nat): (n: nat)
    requires size >= 1
    ensures n < size
    decreases h
  {
    if h < size then h else Slot(h - size, size)
  }

  lemma {:induction false} SlotIsRemainder(h: nat, size: nat)
    requires size >= 1
    ensures Slot(h, size) == h % size
    decreases h
  {
    if h >= size {
      SlotIsRemainder(h - size, size);
      var q, r := (h - size) / size, (h - size) % size;
      RemainderUnique(h, q + 1, r, size);
    }
  }

  lemma RemainderUnique(h: nat, q: nat, r: nat, size: nat)
    requires size >= 1 && r < size && h == size * q + r
    ensures h % size == r
  {
    var d := h / size - q;
    assert size * d == size * (h / size) - size * q;
    assert d >= 1 ==> size * d >= size;
    assert d <= -1 ==> size * d <= size * -1;
  }
}
