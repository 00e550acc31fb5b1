/** Small arithmetic vocabulary shared by the models. */
module Arithmetic {
  datatype Option<+T> = None | Some(value: T)

  const MAX_INT32 := 0x7fff_ffff
  const TWO_TO_THE_63 := 0x8000_0000_0000_0000

  /** Go's int64: the model never needs its wrap-around, only its range. */
  type int64 = x: int | -TWO_TO_THE_63 <= x < TWO_TO_THE_63

  function Min(a: int, b: int): int { if a <= b then a else b }

  function Max(a: int, b: int): int { if a >= b then a else b }

  /** math.Ceil: the least integer that is not below x. */
  function Ceil(x: real): (n: int)
    ensures x <= n as real < x + 1.0
  {
    -((-x).Floor)
  }

  function Pow(b: real, k: nat): real { if k == 0 then 1.0 else b * Pow(b, k - 1) }

  /** How many points at least gap apart fit into the closed range from first to last. */
  function Slots(first: int, last: int, gap: int): nat
    requires gap > 0
    decreases last - first
  {
    if first > last then 0 else 1 + Slots(first + gap, last, gap)
  }

  lemma {:induction false} SlotsAntitone(first: int, later: int, last: int, gap: int)
    requires gap > 0 && first <= later
    ensures Slots(later, last, gap) <= Slots(first, last, gap)
    decreases last - first
  {
    if later <= last {
      SlotsAntitone(first + gap, later + gap, last, gap);
    }
  }

  /** Taking one point uses up at least one slot of the range. */
  lemma SlotsAfterPoint(first: int, last: int, gap: int, at: int)
    requires gap > 0 && first <= at <= last
    ensures 1 + Slots(at + gap, last, gap) <= Slots(first, last, gap)
  {
    SlotsAntitone(first + gap, at + gap, last, gap);
  }

  lemma {:induction false} SlotsShift(first: int, last: int, d: int, gap: int)
    requires gap > 0
    ensures Slots(first + d, last + d, gap) == Slots(first, last, gap)
    decreases last - first
  {
    if first <= last {
      SlotsShift(first + gap, last, d, gap);
    }
  }

  /** A window of the given width has width / gap + 1 slots. */
  lemma {:induction false} SlotsInWindow(first: int, width: nat, gap: int)
    requires gap > 0
    ensures Slots(first, first + width, gap) == width / gap + 1
    decreases width
  {
    if width < gap {
      assert width / gap == 0;
    } else {
      SlotsInWindow(first + gap, width - gap, gap);
      QuotientStep(width, gap);
    }
  }

  lemma QuotientStep(width: int, gap: int)
    requires 0 < gap <= width
    ensures width / gap == (width - gap) / gap + 1
  {
    var q := (width - gap) / gap;
    assert (q + 1) * gap == q * gap + gap;
    assert 0 <= (width - gap) - q * gap < gap;
    QuotientUnique(width, gap, q + 1);
  }

  lemma QuotientUnique(x: int, gap: int, q: int)
    requires gap > 0 && 0 <= x - q * gap < gap
    ensures x / gap == q
  {
    var d := x / gap - q;
    assert d * gap == (x - q * gap) - x % gap;
    ProductBounds(d, gap);
  }

  lemma ProductBounds(d: int, gap: int)
    requires gap > 0
    ensures d >= 1 ==> d * gap >= gap
    ensures d <= -1 ==> d * gap <= -gap
  {}
}
