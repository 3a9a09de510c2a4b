/**
 `FractionalAsset`: an unsigned amount with ten fractional bits, held as its raw value.
 */
module FixedPoint {
  const RADIX := 1024

  function FromIntegral(v: nat): (r: nat)
    ensures Floor(r) == v == Ceil(r)
  {
    v * RADIX
  }

  function Floor(raw: nat): (r: nat)
    ensures r * 1024 <= raw < (r + 1) * 1024
  {
    raw / RADIX
  }

  /** The floor, plus one if a fractional bit is set. */
  function Ceil(raw: nat): (r: nat)
    ensures raw <= r * 1024 < raw + 1024
  {
    Floor(raw) + if raw % RADIX != 0 then 1 else 0
  }

  /** One more than the greatest unsigned number of 64, and of 128, bits. */
  const U64: nat := 0x1_0000_0000_0000_0000
  const U128: nat := 0x1_0000_0000_0000_0000_0000_0000_0000_0000

  /** `ceil()`, a 128-bit number, assigned to a 64-bit amount: only the low bits are left. */
  function SellAmount(raw: nat): (r: nat)
    ensures r < U64
    ensures r <= Ceil(raw)
    ensures r == Ceil(raw) <==> Ceil(raw) < U64
    ensures (Ceil(raw) - r) % 0x1_0000_0000_0000_0000 == 0
  {
    Ceil(raw) % U64
  }

  /** A supply within 63 bits, and anything below it, is sold as it is. */
  lemma SmallSupply(raw: nat, supply: nat)
    requires raw <= supply && Floor(supply) < 0x8000_0000_0000_0000
    ensures SellAmount(raw) == Ceil(raw) && supply < U128
  {
  }

  /** Unsigned arithmetic in 128 bits. */
  function Wrap128(x: int): (r: nat)
    ensures r < U128
    ensures 0 <= x < U128 ==> r == x
    ensures U128 <= x < 2 * U128 ==> r == x - U128
    ensures (x - r) % 0x1_0000_0000_0000_0000_0000_0000_0000_0000 == 0
  {
    x % U128
  }

  /** Taking a whole amount off an activated supply takes it off the rounded-up amount. */
  lemma CeilMinus(raw: nat, whole: nat)
    requires whole * RADIX <= raw
    ensures Ceil(raw - whole * RADIX) == Ceil(raw) - whole
    ensures whole <= Floor(raw)
  {
  }
}
