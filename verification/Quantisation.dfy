// Quantised attribute values over the reals: raw elements of an integer type,
// read through a step and an offset.
module Quantisation {
  import opened Common

  datatype Encoding = Encoding(step: real, offset: real)

  const IDENTITY := Encoding(1.0, 0.0)

  // The values an integer storage type can hold.
  datatype RawRange = RawRange(lowest: int, highest: int)

  ghost predicate ValidRange(t: RawRange) {
    t.lowest < t.highest && t.lowest <= 0 <= t.highest
  }

  function ToValue(e: Encoding, raw: real): real {
    raw * e.step + e.offset
  }

  // Round to the nearest step, halves away from zero, and clamp.
  function Round(steps: real, t: RawRange): int {
    var rounded := if steps < 0.0 then steps - 0.5 else steps + 0.5;
    if rounded <= t.lowest as real then t.lowest
    else if rounded >= t.highest as real then t.highest
    else Truncate(rounded)
  }

  function Quantise(value: real, e: Encoding, t: RawRange): int
    requires e.step != 0.0
  {
    Round((value - e.offset) / e.step, t)
  }

  function EncodingForRange(rangeMin: real, rangeMax: real, t: RawRange): Encoding
    requires t.lowest < t.highest
  {
    if !(rangeMax > rangeMin) then IDENTITY else
      var step := (rangeMax - rangeMin) / ((t.highest - t.lowest) as real);
      Encoding(step, rangeMin - t.lowest as real * step)
  }

  function Abs(x: real): real { if x < 0.0 then -x else x }

  // ---- in steps ----

  lemma RoundByCase(steps: real, t: RawRange)
    requires ValidRange(t)
    ensures
      var q := Round(steps, t);
      && t.lowest <= q <= t.highest
      && (Abs(q as real - steps) <= 0.5
          || (q == t.lowest && steps < q as real) || (q == t.highest && steps > q as real))
  {
    var rounded := if steps < 0.0 then steps - 0.5 else steps + 0.5;
    if t.lowest as real < rounded < t.highest as real {
      var q := Truncate(rounded);
      if rounded >= 0.0 { assert q as real <= rounded < q as real + 1.0; }
      else { assert q as real - 1.0 < rounded <= q as real; }
    }
  }

  // The rounded value is in range, and no raw value is nearer.
  lemma RoundIsNearest(steps: real, t: RawRange, raw: int)
    requires ValidRange(t) && t.lowest <= raw <= t.highest
    ensures t.lowest <= Round(steps, t) <= t.highest
    ensures Abs(Round(steps, t) as real - steps) <= Abs(raw as real - steps)
  {
    RoundByCase(steps, t);
    var q := Round(steps, t);
    if raw > q { assert raw as real >= q as real + 1.0; }
    if raw < q { assert raw as real <= q as real - 1.0; }
  }

  lemma RoundIsMonotone(a: real, b: real, t: RawRange)
    requires ValidRange(t) && a <= b
    ensures Round(a, t) <= Round(b, t)
  {}

  lemma RoundIsWithinHalf(steps: real, t: RawRange)
    requires ValidRange(t) && t.lowest as real - 0.5 <= steps <= t.highest as real + 0.5
    ensures Abs(Round(steps, t) as real - steps) <= 0.5
  {
    RoundByCase(steps, t);
  }

  // ---- in values ----

  // Quantising is rounding the value's distance from the offset, in steps.
  lemma StepsOf(value: real, e: Encoding, t: RawRange) returns (steps: real)
    requires e.step > 0.0
    ensures Quantise(value, e, t) == Round(steps, t) && value == ToValue(e, steps)
  {
    steps := (value - e.offset) / e.step;
    assert steps * e.step == value - e.offset;
  }

  lemma ScaleOrder(a: real, b: real, step: real)
    requires step > 0.0
    ensures a * step <= b * step <==> a <= b
  {
    if a <= b { assert (b - a) * step >= 0.0; } else { assert (a - b) * step > 0.0; }
  }

  lemma ToValueOrder(e: Encoding, a: real, b: real)
    requires e.step > 0.0
    ensures ToValue(e, a) <= ToValue(e, b) <==> a <= b
  {
    ScaleOrder(a, b, e.step);
  }

  lemma ToValueDistance(e: Encoding, a: real, b: real)
    requires e.step > 0.0
    ensures Abs(ToValue(e, a) - ToValue(e, b)) == Abs(a - b) * e.step
  {
    assert a * e.step - b * e.step == (a - b) * e.step;
    ScaleOrder(a, b, e.step);
    ScaleOrder(b, a, e.step);
  }

  lemma ToValueNearer(e: Encoding, a: real, b: real, x: real)
    requires e.step > 0.0 && Abs(a - x) <= Abs(b - x)
    ensures Abs(ToValue(e, a) - ToValue(e, x)) <= Abs(ToValue(e, b) - ToValue(e, x))
  {
    ToValueDistance(e, a, x);
    ToValueDistance(e, b, x);
    ScaleOrder(Abs(a - x), Abs(b - x), e.step);
  }

  // quantise picks a raw value no other raw value beats, for every real input.
  lemma QuantiseIsNearest(value: real, e: Encoding, t: RawRange, raw: int)
    requires ValidRange(t) && e.step > 0.0 && t.lowest <= raw <= t.highest
    ensures t.lowest <= Quantise(value, e, t) <= t.highest
    ensures Abs(ToValue(e, Quantise(value, e, t) as real) - value) <= Abs(ToValue(e, raw as real) - value)
  {
    var steps := StepsOf(value, e, t);
    RoundIsNearest(steps, t, raw);
    ToValueNearer(e, Round(steps, t) as real, raw as real, steps);
  }

  lemma QuantiseIsMonotone(a: real, b: real, e: Encoding, t: RawRange)
    requires ValidRange(t) && e.step > 0.0 && a <= b
    ensures Quantise(a, e, t) <= Quantise(b, e, t)
  {
    var x := StepsOf(a, e, t);
    var y := StepsOf(b, e, t);
    ToValueOrder(e, x, y);
    RoundIsMonotone(x, y, t);
  }

  // Reading back and quantising again is the identity on raw values.
  lemma QuantiseInvertsToValue(raw: int, e: Encoding, t: RawRange)
    requires ValidRange(t) && e.step > 0.0 && t.lowest <= raw <= t.highest
    ensures Quantise(ToValue(e, raw as real), e, t) == raw
    ensures ToValue(e, raw as real) == raw as real * e.step + e.offset
  {
    var steps := StepsOf(ToValue(e, raw as real), e, t);
    ToValueOrder(e, steps, raw as real);
    ToValueOrder(e, raw as real, steps);
    RoundOfRaw(raw, t);
  }

  lemma RoundOfRaw(raw: int, t: RawRange)
    requires ValidRange(t) && t.lowest <= raw <= t.highest
    ensures Round(raw as real, t) == raw
  {
    RoundIsNearest(raw as real, t, raw);
  }

  // On the representable range, half a step either side included, the error is
  // at most half a step.
  lemma QuantiseErrorIsHalfAStep(value: real, e: Encoding, t: RawRange)
    requires ValidRange(t) && e.step > 0.0
    requires ToValue(e, t.lowest as real - 0.5) <= value <= ToValue(e, t.highest as real + 0.5)
    ensures Abs(ToValue(e, Quantise(value, e, t) as real) - value) <= 0.5 * e.step
  {
    var steps := StepsOf(value, e, t);
    ToValueOrder(e, t.lowest as real - 0.5, steps);
    ToValueOrder(e, steps, t.highest as real + 0.5);
    RoundIsWithinHalf(steps, t);
    WithinHalfAStep(e, Round(steps, t) as real, steps);
  }

  lemma WithinHalfAStep(e: Encoding, raw: real, steps: real)
    requires e.step > 0.0 && Abs(raw - steps) <= 0.5
    ensures Abs(ToValue(e, raw) - ToValue(e, steps)) <= 0.5 * e.step
  {
    ToValueDistance(e, raw, steps);
    ScaleOrder(Abs(raw - steps), 0.5, e.step);
  }

  // The encoding made for a range spends the whole raw type on it: the raw
  // extremes are the range's ends, and every value between is kept to within
  // half of one part in highest - lowest.
  lemma EncodingForRangeCoversIt(rangeMin: real, rangeMax: real, t: RawRange, value: real)
    requires ValidRange(t) && rangeMin < rangeMax && rangeMin <= value <= rangeMax
    ensures
      var e := EncodingForRange(rangeMin, rangeMax, t);
      && e.step > 0.0
      && ToValue(e, t.lowest as real) == rangeMin && ToValue(e, t.highest as real) == rangeMax
      && Quantise(rangeMin, e, t) == t.lowest && Quantise(rangeMax, e, t) == t.highest
      && Abs(ToValue(e, Quantise(value, e, t) as real) - value) <= 0.5 * e.step
  {
    var e := EncodingForRange(rangeMin, rangeMax, t);
    EncodingMeetsEnds(rangeMin, rangeMax, t);
    QuantiseInvertsToValue(t.lowest, e, t);
    QuantiseInvertsToValue(t.highest, e, t);
    ToValueOrder(e, t.lowest as real - 0.5, t.lowest as real);
    ToValueOrder(e, t.highest as real, t.highest as real + 0.5);
    QuantiseErrorIsHalfAStep(value, e, t);
  }

  lemma Quotient(x: real, y: real)
    requires x > 0.0 && y > 0.0
    ensures (x / y) * y == x && x / y > 0.0
  {}

  lemma Distribute(a: real, b: real, c: real)
    ensures (a - b) * c == a * c - b * c
  {}

  lemma EndsMeet(lo: real, hi: real, least: real, most: real, step: real)
    requires (hi - lo) * step == most - least
    ensures lo * step + (least - lo * step) == least
    ensures hi * step + (least - lo * step) == most
  {
    Distribute(hi, lo, step);
  }

  lemma EncodingMeetsEnds(rangeMin: real, rangeMax: real, t: RawRange)
    requires ValidRange(t) && rangeMin < rangeMax
    ensures
      var e := EncodingForRange(rangeMin, rangeMax, t);
      e.step > 0.0 && ToValue(e, t.lowest as real) == rangeMin && ToValue(e, t.highest as real) == rangeMax
  {
    var lo, hi := t.lowest as real, t.highest as real;
    var span := (t.highest - t.lowest) as real;
    var step := (rangeMax - rangeMin) / span;
    assert span == hi - lo;
    Quotient(rangeMax - rangeMin, span);
    assert (hi - lo) * step == rangeMax - rangeMin;
    EndsMeet(lo, hi, rangeMin, rangeMax, step);
    assert EncodingForRange(rangeMin, rangeMax, t) == Encoding(step, rangeMin - lo * step);
  }

  // A range with no extent falls back to reading raw values as they are.
  lemma EmptyRangeIsIdentity(rangeMin: real, rangeMax: real, t: RawRange, raw: int)
    requires ValidRange(t) && rangeMax <= rangeMin && t.lowest <= raw <= t.highest
    ensures ToValue(EncodingForRange(rangeMin, rangeMax, t), raw as real) == raw as real
  {}
}
