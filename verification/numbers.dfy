/** The numeric helpers of the application: `clamp`, `round1` and the
    `+x || 0` coercion of form fields. Numbers are exact reals here, not
    IEEE-754 doubles. */
module Numbers {
  import opened Wrappers

  /** `Math.max(lo, Math.min(hi, v))`. */
  function Clamp(v: int, lo: int, hi: int): (r: int)
    ensures lo <= hi ==> lo <= r <= hi
    ensures lo <= v <= hi ==> r == v
    ensures v < lo ==> r == lo
    ensures lo <= hi < v ==> r == hi
    ensures hi < lo ==> r == lo
  {
    var m := if hi < v then hi else v;
    if m < lo then lo else m
  }

  /** `Math.round(n * 10) / 10`. `Math.round` rounds halves upwards (towards
      +∞), which is `⌊y + 1/2⌋`. */
  function Round1(x: real): (r: real)
    ensures (r * 10.0).Floor as real == r * 10.0
    ensures x - 0.05 < r <= x + 0.05
  {
    (x * 10.0 + 0.5).Floor as real / 10.0
  }

  /** Rounding an already rounded value changes nothing, so a total stored
      after `round1` displays unchanged when it is rounded again. */
  lemma Round1Idempotent(x: real)
    ensures Round1(Round1(x)) == Round1(x)
  {
    var k := (x * 10.0 + 0.5).Floor;
    assert Round1(x) * 10.0 == k as real;
    assert (k as real + 0.5).Floor == k;
  }

  /** A halfway value goes up, also for negative numbers: this is not
      rounding half away from zero. */
  lemma Round1HalfGoesUp()
    ensures Round1(0.25) == 0.3
    ensures Round1(-0.25) == -0.2
  {
    assert (0.25 * 10.0 + 0.5).Floor == 3;
    assert (-0.25 * 10.0 + 0.5).Floor == -2;
  }

  /** The value of a numeric form field after `+field.value || 0`: a blank or
      non-numeric field (NaN) becomes 0, any other number is kept. */
  function Coerce(field: Option<real>): (v: real)
    ensures field.None? ==> v == 0.0
    ensures field.Some? ==> v == field.value
  {
    match field
    case None => 0.0
    case Some(x) => x
  }
}
