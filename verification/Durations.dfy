/** Durations in nanoseconds, and Go's rounding of them. */
module Durations {

  const SECOND := 1_000_000_000
  const MILLISECOND := 1_000_000

  function RoundMagnitude(d: nat, unit: int): int
    requires unit > 0
  {
    var rest := d % unit;
    if rest + rest < unit then d - rest else d - rest + unit
  }

  /** Go's Duration.Round: the nearest multiple of `unit`, halves away from zero. */
  function RoundTo(d: int, unit: int): int
    requires unit > 0
  {
    if d < 0 then -RoundMagnitude(-d, unit) else RoundMagnitude(d, unit)
  }

  lemma RoundToIsNearest(d: int, unit: int)
    requires unit > 0
    ensures RoundTo(d, unit) % unit == 0
    ensures -unit <= 2 * (RoundTo(d, unit) - d) <= unit
    ensures 2 * (RoundTo(d, unit) - d) != if d < 0 then unit else -unit
  {
    var m := if d < 0 then -d else d;
    WholeMultiple(m, unit);
    NegatedMultiple(RoundMagnitude(m, unit), unit);
  }

  lemma WholeMultiple(d: int, unit: int)
    requires unit > 0
    ensures (d - d % unit) % unit == 0
    ensures (d - d % unit + unit) % unit == 0
  {
    var q := d / unit;
    assert d - d % unit == unit * q;
    assert d - d % unit + unit == unit * (q + 1) by {
      assert unit * (q + 1) == unit * q + unit;
    }
    MultipleOf(q, unit);
    MultipleOf(q + 1, unit);
  }

  lemma MulAwayFromZero(unit: int, m: int)
    requires unit > 0
    ensures m >= 1 ==> unit * m >= unit
    ensures m <= -1 ==> unit * m <= -unit
  {
  }

  lemma MultipleOf(q: int, unit: int)
    requires unit > 0
    ensures (unit * q) % unit == 0
  {
    var p := unit * q;
    var m := q - p / unit;
    assert unit * m == p % unit by {
      assert p == unit * (p / unit) + p % unit;
    }
    MulAwayFromZero(unit, m);
  }

  lemma NegatedMultiple(r: int, unit: int)
    requires unit > 0 && r % unit == 0
    ensures -r % unit == 0
  {
    assert r == unit * (r / unit);
    assert -r == unit * -(r / unit);
    MultipleOf(-(r / unit), unit);
  }
}
