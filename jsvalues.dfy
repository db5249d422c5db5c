/** The JavaScript value conversions the pages use: the `|| null` and `|| 0`
    defaults, `Math.round`, and the number parsers and printers, which this
    model takes as given functions. */
module JsValues {
  import opened Wrappers

  /** `parseInt`, `parseFloat` and `Number.prototype.toString`, supplied by
      the runtime. A parser yields `None` for `NaN`. */
  datatype NumberConv = NumberConv(
    parseInt: string -> Option<int>,
    parseFloat: string -> Option<real>,
    show: real -> string)

  /** `parseInt(x) || null`: `NaN` and `0` are falsy and become `null`. */
  function OrNull(p: Option<int>): (r: Option<int>)
    ensures r.None? <==> p.None? || p.value == 0
    ensures r.Some? ==> r == p
  {
    if p.Some? && p.value != 0 then p else None
  }

  /** `parseInt(x) || 0`. */
  function OrZeroInt(p: Option<int>): (r: int)
    ensures p.Some? ==> r == p.value
    ensures p.None? ==> r == 0
  {
    if p.Some? && p.value != 0 then p.value else 0
  }

  /** `parseFloat(x) || 0`. */
  function OrZero(p: Option<real>): (r: real)
    ensures p.Some? ==> r == p.value
    ensures p.None? ==> r == 0.0
  {
    if p.Some? && p.value != 0.0 then p.value else 0.0
  }

  /** `Math.round(num / den)` for an exact quotient: halves round up. */
  function RoundHalfUp(num: int, den: int): (r: int)
    requires den > 0
    ensures 2 * den * r <= 2 * num + den < 2 * den * (r + 1)
  {
    (2 * num + den) / (2 * den)
  }

  /** Rounding is monotone. */
  lemma RoundMonotone(a: int, b: int, den: int)
    requires den > 0 && a <= b
    ensures RoundHalfUp(a, den) <= RoundHalfUp(b, den)
  {
    var ra, rb := RoundHalfUp(a, den), RoundHalfUp(b, den);
    assert 2 * den * ra < 2 * den * (rb + 1);
    CancelFactor(2 * den, ra, rb + 1);
  }

  /** An exact quotient rounds to itself. */
  lemma RoundExact(q: int, den: int)
    requires den > 0
    ensures RoundHalfUp(q * den, den) == q
  {
    var r := RoundHalfUp(q * den, den);
    assert 2 * den * r < 2 * den * (q + 1);
    CancelFactor(2 * den, r, q + 1);
    assert 2 * den * q < 2 * den * (r + 1);
    CancelFactor(2 * den, q, r + 1);
  }

  lemma CancelFactor(d: int, x: int, y: int)
    requires d > 0 && d * x < d * y
    ensures x < y
  {
  }
}
