/**
 The ALIGNSIZE and ALIGNWORD macros. They are defined here by repeated addition,
 and shown equal to the macro's quotient formula.
 */
module Align {

  // x is a multiple of unit.
  predicate Aligned(x: nat, unit: nat)
    requires unit >= 1
    decreases x
  {
    if x < unit then x == 0 else Aligned(x - unit, unit)
  }

  // The multiple of unit that ALIGNSIZE selects for a positive x.
  function AlignSize(x: nat, unit: nat): (r: nat)
    requires x >= 1 && unit >= 1
    ensures x <= r < x + unit
    ensures Aligned(r, unit)
    decreases x
  {
    if x <= unit then unit else unit + AlignSize(x - unit, unit)
  }

  // The formula of the macro: size * (1 + (x - 1) / size).
  lemma {:induction false} AlignSizeMacro(x: nat, unit: nat)
    requires x >= 1 && unit >= 1
    ensures AlignSize(x, unit) == unit * (1 + (x - 1) / unit)
    decreases x
  {
    if x > unit {
      AlignSizeMacro(x - unit, unit);
      QuotientStep(x - unit - 1, unit);
      var q := (x - unit - 1) / unit;
      assert unit * (1 + (q + 1)) == unit * (1 + q) + unit;
    } else {
      assert (x - 1) / unit == 0;
    }
  }

  lemma QuotientStep(y: nat, unit: nat)
    requires unit >= 1
    ensures (y + unit) / unit == y / unit + 1
  {
    var q := y / unit;
    QuotientUnique(y + unit, q + 1, y % unit, unit);
  }

  lemma QuotientUnique(y: nat, q: nat, r: nat, unit: nat)
    requires unit >= 1 && r < unit && y == unit * q + r
    ensures y / unit == q
  {
    var d := y / unit - q;
    assert unit * d == unit * (y / unit) - unit * q;
    assert d >= 1 ==> unit * d >= unit;
    assert d <= -1 ==> unit * d <= unit * -1;
  }

  lemma {:induction false} AlignedSum(a: nat, b: nat, unit: nat)
    requires unit >= 1 && Aligned(a, unit) && Aligned(b, unit)
    ensures Aligned(a + b, unit)
    decreases a
  {
    if a >= unit { AlignedSum(a - unit, b, unit); }
  }

  lemma {:induction false} AlignedDiff(a: nat, b: nat, unit: nat)
    requires unit >= 1 && Aligned(a, unit) && Aligned(b, unit) && b <= a
    ensures Aligned(a - b, unit)
    decreases b
  {
    if b >= unit { AlignedDiff(a - unit, b - unit, unit); }
  }

  // AlignSize selects the least multiple of unit that is not below x.
  lemma {:induction false} AlignLeast(x: nat, m: nat, unit: nat)
    requires x >= 1 && unit >= 1 && Aligned(m, unit) && m >= x
    ensures AlignSize(x, unit) <= m
    decreases x
  {
    if x > unit { AlignLeast(x - unit, m - unit, unit); }
  }
}
