/** The channel-count rounding of the model catalogue: `MnasNet._make_divisible` and
    `Efficientnet.round_filters` round a scaled number of filters to a multiple of the
    divisor, never dropping more than a tenth of it. Every caller uses the default divisor
    8, which is fixed here. */
module Channels {
  import opened Wrappers
  import opened PyNum

  /** `divisor` / `depth_divisor`. */
  const Divisor := 8

  /** `int(v + divisor / 2) // divisor * divisor`: `v` rounded to the nearest multiple of
      the divisor, halves going up. */
  function RoundToMultiple(v: real): (r: int)
    ensures r % Divisor == 0
    ensures 0.0 <= v ==> 0 <= r && v - 4.0 < r as real <= v + 4.0
  {
    var t := Trunc(v + Divisor as real / 2.0);
    t / Divisor * Divisor
  }

  /** `MnasNet._make_divisible(v, min_value=minValue)`; `None` for `min_value` means the
      divisor. The result is at least the minimum, a multiple of 8 whenever the minimum is,
      within a tenth below `v`, and at most one divisor above the nearer of the minimum and
      the rounded value. */
  function MakeDivisible(v: real, minValue: Option<int>): (r: int)
    ensures var m := if minValue.None? then Divisor else minValue.value;
      && r >= m
      && (m % Divisor == 0 ==> r % Divisor == 0)
      && (0.0 <= v ==> 10.0 * r as real >= 9.0 * v)
      && (0.0 <= v ==> r <= m + Divisor || r as real <= v + 12.0)
  {
    var m := if minValue.None? then Divisor else minValue.value;
    var rounded := RoundToMultiple(v);
    AdjustBounds(v, m, rounded);
    Adjust(v, m, rounded)
  }

  /** `max(min_value, rounded)`, raised by one divisor when that falls more than a tenth
      below `v`. */
  function Adjust(v: real, m: int, rounded: int): int {
    var newV := if m < rounded then rounded else m;
    if (newV as real) < 0.9 * v then newV + Divisor else newV
  }

  lemma AdjustBounds(v: real, m: int, rounded: int)
    requires rounded % Divisor == 0
    requires 0.0 <= v ==> v - 4.0 < rounded as real <= v + 4.0
    ensures Adjust(v, m, rounded) >= m
    ensures m % Divisor == 0 ==> Adjust(v, m, rounded) % Divisor == 0
    ensures 0.0 <= v ==> 10.0 * Adjust(v, m, rounded) as real >= 9.0 * v
    ensures 0.0 <= v ==> Adjust(v, m, rounded) <= m + Divisor || Adjust(v, m, rounded) as real <= v + 12.0
  {
  }

  /** `Efficientnet.round_filters(filters, multiplier)`: `filters * multiplier` rounded with
      a depth divisor and minimum depth of 8. */
  function RoundFilters(filters: real, multiplier: real): (r: int)
    ensures r % Divisor == 0 && r >= Divisor
    ensures 0.0 <= filters * multiplier ==> 10.0 * r as real >= 9.0 * (filters * multiplier)
  {
    var depthDivisor := Divisor;
    var minDepth := depthDivisor;
    var scaled := filters * multiplier;
    var rounded := Trunc(scaled + depthDivisor as real / 2.0) / depthDivisor * depthDivisor;
    var newFilters := if minDepth < rounded then rounded else minDepth;
    if (newFilters as real) < 0.9 * scaled then newFilters + depthDivisor else newFilters
  }

  /** `round_filters` is `_make_divisible` applied to the scaled count. */
  lemma RoundFiltersIsMakeDivisible(filters: real, multiplier: real)
    ensures RoundFilters(filters, multiplier) == MakeDivisible(filters * multiplier, None)
  {
  }
}
