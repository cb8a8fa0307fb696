// Fixed-point decimals (`Dec`): a signed 256-bit integer scaled by 10^12.
// Division truncates toward zero, as integer division on `I256` does.
module Decimal {
  import opened Ledger

  /** Number of decimal places of a `Dec`. */
  const POS_DECIMAL_PRECISION: nat := 12

  /** 10^POS_DECIMAL_PRECISION. */
  const SCALE: int := 1_000_000_000_000

  const I256_MIN: int := -0x8000000000000000000000000000000000000000000000000000000000000000
  const I256_MAX: int := 0x7FFFFFFFFFFFFFFFFFFFFFFFFFFFFFFFFFFFFFFFFFFFFFFFFFFFFFFFFFFFFFFF

  predicate InI256(x: int) {
    I256_MIN <= x <= I256_MAX
  }

  type I256 = x: int | InI256(x)

  /** The decimal `raw / SCALE`. */
  datatype Dec = Dec(raw: I256)

  const ZERO: Dec := Dec(0)

  function Abs(x: int): nat {
    if x < 0 then -x else x
  }

  /** Integer division rounding toward zero (Rust's `/`), unlike Dafny's Euclidean `/`. */
  function TruncDiv(a: int, b: int): (q: int)
    requires b != 0
  {
    var n := Abs(a) / Abs(b);
    if (a < 0) == (b < 0) then n else -n
  }

  /** `Dec::from(u64)`: never out of range. */
  function FromU64(n: u64): (d: Dec)
    ensures d.raw == n as int * SCALE
  {
    Dec(n as int * SCALE)
  }

  /** `Dec::from(Amount)`: `None` when the scaled amount leaves the 256-bit signed range. */
  function FromAmount(a: Amount): (r: Option<Dec>)
    ensures r.Some? <==> a * SCALE <= I256_MAX
    ensures r.Some? ==> r.value.raw == a * SCALE
  {
    if a * SCALE <= I256_MAX then Some(Dec(a * SCALE)) else None
  }

  /** `Dec::checked_mul`: the product of the raw values must stay in range before rescaling. */
  function CheckedMul(x: Dec, y: Dec): (r: Option<Dec>)
    ensures r.Some? ==> InI256(x.raw * y.raw)
    ensures !InI256(x.raw * y.raw) ==> r.None?
  {
    var p := x.raw * y.raw;
    if !InI256(p) then None
    else
      var q := TruncDiv(p, SCALE);
      if InI256(q) then Some(Dec(q)) else None
  }

  /** `Dec::checked_div`: `None` on a zero divisor or when a result leaves the range. */
  function CheckedDiv(x: Dec, y: Dec): (r: Option<Dec>)
    ensures y.raw == 0 ==> r.None?
  {
    if y.raw == 0 then None
    else
      var n := x.raw * SCALE;
      if !InI256(n) then None
      else
        var q := TruncDiv(n, y.raw);
        if InI256(q) then Some(Dec(q)) else None
  }

  /** `Amount::from(Dec)`: the integer part; `None` (a panic in the ledger) for a negative decimal. */
  function ToAmount(d: Dec): (r: Option<Amount>)
    ensures r.Some? <==> d.raw >= 0
    ensures r.Some? ==> r.value * SCALE <= d.raw < (r.value + 1) * SCALE
  {
    if d.raw < 0 then None
    else
      var q := d.raw / SCALE;
      assert q <= d.raw;
      Some(q)
  }
}
