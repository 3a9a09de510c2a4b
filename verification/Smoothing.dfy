/**
 Execution prices and smoothed supply: the fixed-width arithmetic of a demand query, and why its overflow throws are
 unreachable.
 */
module Smoothing {
  import opened Products
  import opened PriceIndex

  const P24: nat := 0x100_0000
  const P40: nat := 0x100_0000_0000
  const P64: nat := 0x1_0000_0000_0000_0000
  const P128: nat := 0x1_0000_0000_0000_0000_0000_0000_0000_0000

  function Pow2(n: nat): (r: nat)
    ensures r >= 1
  {
    if n == 0 then 1 else 2 * Pow2(n - 1)
  }

  // ---- Division ------------------------------------------------------------------------------------------------------------

  /** Unsigned integer division. */
  function FloorDiv(x: nat, d: nat): nat
    requires d > 0
  {
    if x < d then 0 else 1 + FloorDiv(x - d, d)
  }

  lemma {:induction false} DivBounds(x: nat, d: nat)
    requires d > 0
    ensures FloorDiv(x, d) * d <= x < FloorDiv(x, d) * d + d
  {
    if x >= d {
      DivBounds(x - d, d);
      AddOne(FloorDiv(x - d, d), d);
    }
  }

  /** The quotient is the greatest number whose product fits. */
  lemma DivGreatest(x: nat, d: nat, q: nat)
    requires d > 0
    ensures q <= FloorDiv(x, d) <==> q * d <= x
  {
    var r := FloorDiv(x, d);
    DivBounds(x, d);
    if q <= r {
      MulMonotone(q, r, d);
    } else {
      MulMonotone(r + 1, q, d);
      AddOne(r, d);
    }
  }

  lemma DivUnique(x: nat, d: nat, q: nat)
    requires d > 0 && q * d <= x < q * d + d
    ensures FloorDiv(x, d) == q
  {
    DivGreatest(x, d, q);
    DivGreatest(x, d, q + 1);
    AddOne(q, d);
  }

  /** It is the quotient of the integers. */
  lemma FloorDivIs(x: nat, d: nat)
    requires d > 0
    ensures FloorDiv(x, d) == x / d
  {
    AtMostQuotient(FloorDiv(x, d), d, x);
    AtMostQuotient(FloorDiv(x, d) + 1, d, x);
    DivBounds(x, d);
    AddOne(FloorDiv(x, d), d);
  }

  lemma DivLess(x: nat, d: nat)
    requires d > 0
    ensures FloorDiv(x, d) <= x
  {
    if d <= x {
      DivLess(x - d, d);
    }
  }

  lemma Assoc(a: nat, b: nat, c: nat)
    ensures (a * b) * c == (a * c) * b
  {
  }

  /** A common factor, divided out late or early. */
  lemma ScaledDiv(y: nat, c: nat, d: nat)
    requires c > 0 && d > 0
    ensures FloorDiv(FloorDiv(y * c, d), c) == FloorDiv(y, d)
  {
    var p, q := FloorDiv(y * c, d), FloorDiv(y, d);
    DivBounds(y, d);
    MulMonotone(q * d, y, c);
    Assoc(q, d, c);
    DivGreatest(y * c, d, q * c);
    DivGreatest(p, c, q);
    if q + 1 <= FloorDiv(p, c) {
      DivGreatest(p, c, q + 1);
      DivGreatest(y * c, d, (q + 1) * c);
      Assoc(q + 1, c, d);
      Cancel((q + 1) * d, y, c);
      AddOne(q, d);
    }
    DivGreatest(p, c, q + 1);
  }

  lemma Cancel(a: nat, b: nat, c: nat)
    requires c > 0 && a * c <= b * c
    ensures a <= b
  {
    if a > b {
      MulMonotone(b + 1, a, c);
      AddOne(b, c);
    }
  }

  /** Unsigned arithmetic modulo a power of two; nothing happens to what fits. */
  function Wrap(x: nat, p: nat): (r: nat)
    requires p > 0
    ensures x < p ==> r == x
  {
    if x < p then x else x % p
  }

  lemma WrapIs(x: nat, p: nat)
    requires p > 0
    ensures Wrap(x, p) == x % p
  {
    if x < p {
      Division(0, p, x);
    }
  }

  /** Shifts by `a` and by `b` places make one by `a + b`. */
  lemma {:induction false} ShiftsAdd(a: nat, b: nat)
    ensures Pow2(a + b) == Pow2(a) * Pow2(b) && Pow2(1) == 2
  {
    assert Pow2(0) == 1;
    if a > 0 {
      ShiftsAdd(a - 1, b);
      Triple(2, Pow2(a - 1), Pow2(b));
    }
  }

  // ---- get_execution_prices ------------------------------------------------------------------------------------------------

  datatype Bounds = Bounds(lower: nat, upper: nat)

  /** `price - (price >> smooth)`; no smoothing for 0. */
  function Smoothed(price: nat, smooth: nat): (r: nat)
    ensures r <= price
  {
    if smooth == 0 then price else
      DivLess(price, Pow2(smooth));
      price - FloorDiv(price, Pow2(smooth))
  }

  /** `get_execution_prices`, in 64- and 128-bit arithmetic. */
  function ExecutionPrices(sell: nat, buy: nat, smooth: nat): (b: Bounds)
    requires buy > 0
    ensures b.lower <= b.upper
  {
    var upper := Wrap(FloorDiv(FloorDiv(Wrap(sell * P64, P128), buy), P40), P64);
    Bounds(Smoothed(upper, smooth), upper)
  }

  /** The upper price is the low 64 bits of the exchange rate at price radix, rounded down. */
  lemma ExecutionPricesLowBits(sell: nat, buy: nat, smooth: nat)
    requires 0 < buy && sell < P64
    ensures ExecutionPrices(sell, buy, smooth).upper == (sell * 0x100_0000 / buy) % 0x1_0000_0000_0000_0000
  {
    var y := sell * P24;
    assert y * P40 == sell * P64 < P128;
    ScaledDiv(y, P40, buy);
    FloorDivIs(y, buy);
    WrapIs(y / buy, P64);
  }

  /** The upper price is the rounded-down exchange rate at price radix, as long as that fits 64 bits. */
  lemma ExecutionPricesExact(sell: nat, buy: nat, smooth: nat)
    requires 0 < buy && sell < P64 && sell * P24 < P64 * buy
    ensures ExecutionPrices(sell, buy, smooth).upper == FloorDiv(sell * P24, buy)
  {
    var y := sell * P24;
    assert y * P40 == sell * P64 < P128;
    ScaledDiv(y, P40, buy);
    DivGreatest(y, buy, P64);
  }

  /** The two supply bounds of a query are ordered. */
  lemma SupplyBoundsOrdered(index: seq<IndexEntry>, s: seq<Quote>, sell: nat, buy: nat, smooth: nat)
    requires IndexOf(index, s) && NonNegative(s) && buy > 0
    ensures var b := ExecutionPrices(sell, buy, smooth);
            Answer(index, s, b.lower).endow <= Answer(index, s, b.upper).endow
  {
    var b := ExecutionPrices(sell, buy, smooth);
    AnswerMonotone(index, s, b.lower, b.upper);
  }

  // ---- wide_multiply_val_by_a_over_b ---------------------------------------------------------------------------------------

  function Remainder(v: nat, d: nat): nat
    requires d > 0
  {
    DivBounds(v, d);
    v - FloorDiv(v, d) * d
  }

  /** `wide_multiply_val_by_a_over_b`, in 128-bit arithmetic. */
  function WideMultiply(v: nat, a: nat, b: nat): nat
    requires b > 0
  {
    AddParts(FloorDiv(v, b) * a, Remainder(v, b) * a, b)
  }

  function AddParts(x: nat, y: nat, b: nat): nat
    requires b > 0
  {
    Wrap(Wrap(x, P128) + FloorDiv(Wrap(y, P128), b), P128)
  }

  lemma SplitProduct(q: nat, b: nat, r: nat, a: nat, t: nat)
    requires t * b <= r * a < t * b + b
    ensures (q * a + t) * b <= (q * b + r) * a < (q * a + t) * b + b
  {
    assert (q * a + t) * b == (q * a) * b + t * b;
    assert (q * b + r) * a == (q * b) * a + r * a;
    Assoc(q, a, b);
  }

  lemma SmallProduct(r: nat, b: nat, a: nat)
    requires r < b <= P64 && a <= P64
    ensures r * a < P128
  {
    if a == 0 {
      assert r * 0 == 0;
    } else {
      MulMonotone(r, P64 - 1, a);
      assert (P64 - 1) * a <= (P64 - 1) * P64;
    }
  }

  /** It is the rounded-down quotient `z` of the product, if that fits 128 bits. */
  lemma WideMultiplyExact(v: nat, a: nat, b: nat, z: nat)
    requires 0 < b <= P64 && a <= P64
    requires z * b <= v * a < z * b + b && z < P128
    ensures WideMultiply(v, a, b) == z
  {
    var x, y := WideSum(v, a, b, z);
    NoWrap(x, y, b, z);
  }

  lemma WideSum(v: nat, a: nat, b: nat, z: nat) returns (x: nat, y: nat)
    requires 0 < b <= P64 && a <= P64
    requires z * b <= v * a < z * b + b
    ensures WideMultiply(v, a, b) == AddParts(x, y, b)
    ensures y < P128 && z == x + FloorDiv(y, b)
  {
    var q, r := FloorDiv(v, b), Remainder(v, b);
    DivBounds(v, b);
    x, y := q * a, r * a;
    PartsSum(v, a, b, q, r, FloorDiv(y, b));
    DivUnique(v * a, b, z);
    SmallProduct(r, b, a);
  }

  lemma PartsSum(v: nat, a: nat, b: nat, q: nat, r: nat, t: nat)
    requires b > 0 && v == q * b + r && r < b && t == FloorDiv(r * a, b)
    ensures FloorDiv(v * a, b) == q * a + t
  {
    DivBounds(r * a, b);
    SplitProduct(q, b, r, a, t);
    DivUnique(v * a, b, q * a + t);
  }

  lemma NoWrap(x: nat, y: nat, b: nat, z: nat)
    requires b > 0 && x + FloorDiv(y, b) == z < P128 && y < P128
    ensures AddParts(x, y, b) == z
  {
  }

  // ---- Sums over a price interval ------------------------------------------------------------------------------------------

  type Measure = Acc -> int

  ghost predicate Additive(g: Measure) {
    g(NoAcc()) == 0 && forall a, b :: g(Add(a, b)) == g(a) + g(b)
  }

  /** If a measure is non-negative on each offer priced from above `p` to `q`, it is so on their sum. */
  lemma {:induction false} SumBound(s: seq<Quote>, p: int, q: int, g: Measure)
    requires p <= q && Additive(g)
    requires forall x :: x in s && p < x.price <= q ==> g(x.acc) >= 0
    ensures g(SumLeq(s, p)) <= g(SumLeq(s, q))
  {
    if s != [] {
      assert s[|s| - 1] in s;
      SumBound(s[..|s| - 1], p, q, g);
    }
  }

  /** Every offer is quoted at a positive price, with a positive amount and the product of the two. */
  ghost predicate Fair(s: seq<Quote>) {
    forall x :: x in s ==> x.price > 0 && x.acc.endow > 0 && x.acc.timesPrice == x.acc.endow * x.price
  }

  /** How much `a` sells at rate `m / buy` beyond what its own prices ask for. */
  function Surplus(m: int, buy: int): Measure {
    (a: Acc) => a.endow * m - a.timesPrice * buy
  }

  lemma SurplusAdds(m: int, buy: int, a: Acc, b: Acc)
    ensures Surplus(m, buy)(Add(a, b)) == Surplus(m, buy)(a) + Surplus(m, buy)(b)
  {
    assert (a.endow + b.endow) * m == a.endow * m + b.endow * m;
    assert (a.timesPrice + b.timesPrice) * buy == a.timesPrice * buy + b.timesPrice * buy;
  }

  lemma SurplusAdditive(m: int, buy: int)
    ensures Additive(Surplus(m, buy))
  {
    var g := Surplus(m, buy);
    assert g(NoAcc()) == 0;
    forall a, b ensures g(Add(a, b)) == g(a) + g(b) {
      SurplusAdds(m, buy, a, b);
    }
  }

  lemma SurplusOf(e: int, price: int, m: int, buy: int)
    ensures Surplus(m, buy)(Acc(e, e * price)) == e * (m - price * buy)
  {
    assert (e * price) * buy == e * (price * buy);
    assert e * (m - price * buy) == e * m - e * (price * buy);
  }

  lemma ProductSign(e: int, d: int)
    requires e > 0
    ensures d >= 0 ==> e * d >= 0
    ensures d <= 0 ==> e * d <= 0
  {
  }

  /** Offers priced at most the rate sell for no more than it: the sum's product is at most the rate's. */
  lemma WithinRate(s: seq<Quote>, p: int, q: int, m: nat, buy: nat)
    requires Fair(s) && p <= q && buy > 0 && q <= FloorDiv(m, buy)
    ensures Surplus(m, buy)(SumLeq(s, p)) <= Surplus(m, buy)(SumLeq(s, q))
  {
    var g := Surplus(m, buy);
    SurplusAdditive(m, buy);
    forall x | x in s && p < x.price <= q ensures g(x.acc) >= 0 {
      SurplusOf(x.acc.endow, x.price, m, buy);
      DivGreatest(m, buy, x.price);
      ProductSign(x.acc.endow, m - x.price * buy);
    }
    SumBound(s, p, q, g);
  }

  /** The opposite measure. */
  function Shortfall(m: int, buy: int): Measure {
    (a: Acc) => -Surplus(m, buy)(a)
  }

  lemma ShortfallAdditive(m: int, buy: int)
    ensures Additive(Shortfall(m, buy))
  {
    var g := Shortfall(m, buy);
    assert Surplus(m, buy)(NoAcc()) == 0;
    assert g(NoAcc()) == 0;
    forall a, b ensures g(Add(a, b)) == g(a) + g(b) {
      SurplusAdds(m, buy, a, b);
    }
  }

  lemma ShortfallOf(e: int, price: int, m: int, buy: int)
    requires e > 0 && m <= price * buy
    ensures Shortfall(m, buy)(Acc(e, e * price)) >= 0
  {
    SurplusOf(e, price, m, buy);
    ProductSign(e, m - price * buy);
  }

  /** Offers priced above the smoothed lower price fall short of the rate by at most the smoothing factor. */
  lemma NearRate(s: seq<Quote>, p: int, q: int, m: nat, buy: nat, k: nat)
    requires Fair(s) && p <= q && buy > 0 && k > 0
    requires var u := FloorDiv(m, buy); p >= u - FloorDiv(u, k)
    ensures Shortfall((k - 1) * m, k * buy)(SumLeq(s, p)) <= Shortfall((k - 1) * m, k * buy)(SumLeq(s, q))
  {
    var g := Shortfall((k - 1) * m, k * buy);
    ShortfallAdditive((k - 1) * m, k * buy);
    forall x | x in s && p < x.price <= q ensures g(x.acc) >= 0 {
      NearPrice(x.price, m, buy, k);
      ShortfallOf(x.acc.endow, x.price, (k - 1) * m, k * buy);
    }
    SumBound(s, p, q, g);
  }

  lemma NearPrice(price: nat, m: nat, buy: nat, k: nat)
    requires buy > 0 && k > 0
    requires var u := FloorDiv(m, buy); price > u - FloorDiv(u, k)
    ensures (k - 1) * m <= price * (k * buy)
  {
    var u := FloorDiv(m, buy);
    var f := FloorDiv(u, k);
    DivBounds(u, k);
    DivBounds(m, buy);
    AddOne(u, buy);
    NearPriceAt(price, u, f, m, buy, k);
  }

  lemma NearPriceAt(price: nat, u: nat, f: nat, m: nat, buy: nat, k: nat)
    requires k > 0 && f * k <= u && price + f >= u + 1 && m <= (1 + u) * buy
    ensures (k - 1) * m <= price * (k * buy)
  {
    var scaled := ScaledPrice(price, u, f, k);
    ScaledRate(m, u, buy, k, scaled);
    LastStep((k - 1) * m, scaled, price, k, buy);
  }

  lemma LastStep(a: nat, b: nat, price: nat, k: nat, buy: nat)
    requires a <= b * buy && b <= price * k
    ensures a <= price * (k * buy)
  {
    MulMonotone(b, price * k, buy);
    Triple(price, k, buy);
  }

  lemma Distribute(a: int, b: int, c: int)
    ensures (a + b) * c == a * c + b * c
  {
  }

  lemma Triple(a: nat, b: nat, c: nat)
    ensures (a * b) * c == a * (b * c)
  {
  }

  lemma ScaledPrice(price: nat, u: nat, f: nat, k: nat) returns (scaled: nat)
    requires k > 0 && f * k <= u && price + f >= u + 1
    ensures scaled == (k - 1) * (u + 1) <= price * k
  {
    scaled := (k - 1) * (u + 1);
    MulMonotone(u + 1, price + f, k);
    Distribute(price, f, k);
    Distribute(k, -1, u + 1);
    Commutes(u + 1, k);
  }

  lemma ScaledRate(m: nat, u: nat, buy: nat, k: nat, scaled: nat)
    requires k > 0 && m <= (1 + u) * buy && scaled == (k - 1) * (u + 1)
    ensures (k - 1) * m <= scaled * buy
  {
    MulMonotone(m, (1 + u) * buy, k - 1);
    Commutes(m, k - 1);
    Commutes((1 + u) * buy, k - 1);
    Triple(k - 1, u + 1, buy);
  }

  lemma Commutes(a: nat, b: nat)
    ensures a * b == b * a
  {
  }

  // ---- calculate_demands_and_supplies_from_metadata ------------------------------------------------------------------------

  /** The partial volumes of a query. */
  datatype Volumes = Volumes(sells: nat, buys: nat)

  /**
   The smoothed part of a demand query, in 64- and 128-bit arithmetic; `None` stands for one of the throws that guard
   against overflow.
   */
  method PartialVolumes(part: Acc, full: Acc, sell: nat, buy: nat, smooth: nat) returns (v: Result)
    requires 0 < sell < P64 && 0 < buy < P64
    ensures v == VolumesOf(part, full, sell, buy, smooth)
    ensures InWidth(part, full, sell, buy, smooth) ==>
              v == Done(IdealVolumes(part.endow - full.endow, part.timesPrice - full.timesPrice, sell, buy, smooth))
  {
    IdealIsComputed(part, full, sell, buy, smooth);
    if full.timesPrice > part.timesPrice {
      return Thrown;
    }
    if smooth == 0 {
      return Done(Volumes(0, 0));
    }
    var endow := Wrap(Difference(part.endow, full.endow) * Pow2(smooth), P64);
    var timesPrice := Wrap((part.timesPrice - full.timesPrice) * Pow2(smooth), P128);
    var sold := WideMultiply(timesPrice, buy, sell);
    if Wrap(endow * P24, P128) < sold {
      return Thrown;
    }
    var bought := WideMultiply(Wrap(endow * P24, P128), sell, buy);
    if bought < timesPrice {
      return Thrown;
    }
    return Done(Volumes(Wrap(endow * P24, P128) - sold, bought - timesPrice));
  }

  datatype Result = Thrown | Done(volumes: Volumes)

  /** Unsigned 64-bit subtraction. */
  function Difference(a: int, b: int): nat {
    (a - b) % P64
  }

  ghost function VolumesOf(part: Acc, full: Acc, sell: nat, buy: nat, smooth: nat): Result
    requires 0 < sell < P64 && 0 < buy < P64
  {
    if full.timesPrice > part.timesPrice then Thrown
    else if smooth == 0 then Done(Volumes(0, 0))
    else
      Guarded(Wrap(Difference(part.endow, full.endow) * Pow2(smooth), P64),
              Wrap((part.timesPrice - full.timesPrice) * Pow2(smooth), P128), sell, buy)
  }

  ghost function Guarded(endow: nat, timesPrice: nat, sell: nat, buy: nat): Result
    requires 0 < sell && 0 < buy
  {
    var sold := WideMultiply(timesPrice, buy, sell);
    var bought := WideMultiply(Wrap(endow * P24, P128), sell, buy);
    if Wrap(endow * P24, P128) < sold || bought < timesPrice then Thrown
    else Done(Volumes(Wrap(endow * P24, P128) - sold, bought - timesPrice))
  }

  /** Selling `endow` at prices of which none exceeds the rate `sell / buy` leaves something over, both ways. */
  ghost predicate AtMostRate(endow: nat, timesPrice: nat, sell: nat, buy: nat) {
    timesPrice * buy <= (endow * P24) * sell
  }

  /** Under the bounds nothing overflows, and the guards of the throws hold. */
  lemma GuardsHold(e: nat, t: nat, sell: nat, buy: nat) returns (sold: nat, bought: nat)
    requires 0 < sell < P64 && 0 < buy < P64 && sell * P24 < P64 * buy
    requires e < P64 && AtMostRate(e, t, sell, buy)
    ensures sold <= e * P24 && t <= bought < P128
    ensures sold == FloorDiv(t * buy, sell) && bought == FloorDiv((e * P24) * sell, buy)
    ensures Guarded(e, t, sell, buy) == Done(Volumes(e * P24 - sold, bought - t))
  {
    var x := e * P24;
    sold, bought := FloorDiv(t * buy, sell), FloorDiv(x * sell, buy);
    DivBounds(t * buy, sell);
    DivBounds(x * sell, buy);
    DivAtMost(t * buy, sell, x);
    DivGreatest(x * sell, buy, t);
    BoughtFits(e, sell, buy);
    WideMultiplyExact(t, buy, sell, sold);
    WideMultiplyExact(x, sell, buy, bought);
  }

  lemma DivAtMost(x: nat, d: nat, q: nat)
    requires d > 0 && x <= q * d
    ensures FloorDiv(x, d) <= q
  {
    DivGreatest(x, d, q + 1);
    AddOne(q, d);
  }

  lemma BoughtFits(e: nat, sell: nat, buy: nat)
    requires 0 < buy && sell * P24 < P64 * buy && e < P64
    ensures FloorDiv((e * P24) * sell, buy) < P128
  {
    var m := sell * P24;
    assert (e * P24) * sell == e * m by {
      Assoc(e, P24, sell);
      Triple(e, sell, P24);
    }
    if e == 0 {
      DivAtMost(0, buy, 0);
    } else {
      MulMonotone(m + 1, P64 * buy, e);
      Commutes(m, e);
      AddOne(m, e);
      Triple(P64, buy, e);
      MulMonotone(e, P64 - 1, P64 * buy);
      ScaleUp(e, buy);
      DivGreatest(e * m, buy, P128);
    }
  }

  lemma ScaleUp(e: nat, buy: nat)
    requires e < P64
    ensures (P64 * buy) * e <= P128 * buy
  {
    MulMonotone(e, P64, P64 * buy);
    Commutes(P64 * buy, e);
    assert P64 * (P64 * buy) == P128 * buy;
  }

  // ---- Smoothing is sound ----------------------------------------------------------------------------------------------------

  /** The price bound that `Answer` really uses. */
  function Reach(index: seq<IndexEntry>, p: int): int
    requires index != []
  {
    if |index| > 1 && p == index[|index| - 1].price then p - 1 else p
  }

  /** A query whose offers and rate stay within the widths of the arithmetic. */
  ghost predicate Query(index: seq<IndexEntry>, s: seq<Quote>, sell: nat, buy: nat, smooth: nat) {
    && IndexOf(index, s) && Fair(s)
    && 0 < sell < P64 && 0 < buy < P64 && sell * P24 < P64 * buy && smooth > 0
    && var b := ExecutionPrices(sell, buy, smooth);
       var e := Answer(index, s, b.upper).endow - Answer(index, s, b.lower).endow;
       e * Pow2(smooth) < P64
  }

  lemma FairIsNonNegative(s: seq<Quote>)
    requires Fair(s)
    ensures NonNegative(s)
  {
    forall x | x in s ensures x.acc.timesPrice >= 0 {
      ProductSign(x.acc.endow, x.price);
    }
  }

  lemma SurplusDiff(a: Acc, b: Acc, m: int, buy: int)
    ensures Surplus(m, buy)(b) - Surplus(m, buy)(a) == (b.endow - a.endow) * m - (b.timesPrice - a.timesPrice) * buy
  {
    Distribute(b.endow, -a.endow, m);
    Distribute(b.timesPrice, -a.timesPrice, buy);
    assert (-a.endow) * m == -(a.endow * m);
    assert (-a.timesPrice) * buy == -(a.timesPrice * buy);
  }

  /** The offers between the two prices, as one sum: what it holds against the rate. */
  lemma QueryFacts(index: seq<IndexEntry>, s: seq<Quote>, sell: nat, buy: nat, smooth: nat) returns (e: nat, t: nat)
    requires Query(index, s, sell, buy, smooth)
    ensures var b := ExecutionPrices(sell, buy, smooth);
            && e == Answer(index, s, b.upper).endow - Answer(index, s, b.lower).endow
            && t == Answer(index, s, b.upper).timesPrice - Answer(index, s, b.lower).timesPrice
    ensures t * buy <= e * (sell * P24)
    ensures Reach(index, ExecutionPrices(sell, buy, smooth).lower) == ExecutionPrices(sell, buy, smooth).lower ==>
              var k := Pow2(smooth); e * ((k - 1) * (sell * P24)) <= t * (k * buy)
  {
    var b := ExecutionPrices(sell, buy, smooth);
    var m, k := sell * P24, Pow2(smooth);
    var part, full := Answer(index, s, b.upper), Answer(index, s, b.lower);
    var p, q := Reach(index, b.lower), Reach(index, b.upper);
    FairIsNonNegative(s);
    AnswerMonotone(index, s, b.lower, b.upper);
    e, t := part.endow - full.endow, part.timesPrice - full.timesPrice;
    ExecutionPricesExact(sell, buy, smooth);
    WithinRate(s, p, q, m, buy);
    SurplusDiff(full, part, m, buy);
    if p == b.lower {
      NearRate(s, p, q, m, buy, k);
      SurplusDiff(full, part, (k - 1) * m, k * buy);
    }
  }

  lemma ScaleRate(e: nat, t: nat, sell: nat, buy: nat, k: nat)
    requires t * buy <= e * (sell * P24)
    ensures AtMostRate(e * k, t * k, sell, buy)
  {
    MulMonotone(t * buy, e * (sell * P24), k);
    Assoc(t, buy, k);
    Regroup(e, sell, k);
  }

  lemma Regroup(e: nat, sell: nat, k: nat)
    ensures (e * (sell * P24)) * k == ((e * k) * P24) * sell
  {
    Assoc(e, sell * P24, k);
    Triple(e * k, P24, sell);
    Commutes(P24, sell);
  }

  /** Between what is sold and what is bought there is no gain: at the rate, the volumes differ by rounding only. */
  lemma NoGain(x: nat, t: nat, sell: nat, buy: nat, sold: nat, bought: nat)
    requires sell > 0 && buy > 0
    requires sold == FloorDiv(t * buy, sell) && bought == FloorDiv(x * sell, buy)
    ensures (bought - t) * buy <= (x - sold) * sell
  {
    DivBounds(t * buy, sell);
    DivBounds(x * sell, buy);
    DifferenceTimes(bought, t, buy);
    DifferenceTimes(x, sold, sell);
  }

  lemma DifferenceTimes(a: int, b: int, c: int)
    ensures (a - b) * c == a * c - b * c
  {
  }

  /** The smoothed part sells at most the endowment exactly when the prices are near enough to the rate. */
  lemma SoldEnough(e: nat, t: nat, sell: nat, buy: nat, k: nat, sold: nat)
    requires sell > 0 && buy > 0 && k > 0
    requires sold == FloorDiv((t * k) * buy, sell)
    ensures (e * k) * P24 - sold <= e * P24 <==> e * ((k - 1) * (sell * P24)) <= t * (k * buy)
  {
    var f := e * (k - 1);
    Triple(t, k, buy);
    Commutes(k - 1, sell * P24);
    Triple(e, sell * P24, k - 1);
    Regroup(e, sell, k - 1);
    DivGreatest((t * k) * buy, sell, f * P24);
    Spread(e, k);
    Distribute(f, e, P24);
  }

  lemma Spread(e: nat, k: nat)
    requires k > 0
    ensures e * k == e * (k - 1) + e
  {
  }

  lemma VolumesExact(part: Acc, full: Acc, sell: nat, buy: nat, smooth: nat, e: nat, t: nat)
    requires 0 < sell < P64 && 0 < buy < P64 && smooth > 0
    requires e == part.endow - full.endow && t == part.timesPrice - full.timesPrice
    requires e * Pow2(smooth) < P64 && t * Pow2(smooth) < P128
    ensures VolumesOf(part, full, sell, buy, smooth) == Guarded(e * Pow2(smooth), t * Pow2(smooth), sell, buy)
  {
    Spread(e, Pow2(smooth));
    ProductNonNegative(e, Pow2(smooth) - 1);
    assert Difference(part.endow, full.endow) == e;
  }

  lemma ProductNonNegative(a: nat, b: nat)
    ensures a * b >= 0
  {
  }

  /** A query in exact arithmetic: the volumes at the rate, rounded down and rounded up, smoothed by `2^smooth`. */
  ghost function IdealVolumes(e: nat, t: nat, sell: nat, buy: nat, smooth: nat): Volumes
    requires sell > 0 && buy > 0
    requires AtMostRate(e * Pow2(smooth), t * Pow2(smooth), sell, buy)
  {
    var x, y := (e * Pow2(smooth)) * P24, t * Pow2(smooth);
    DivAtMost(y * buy, sell, x);
    DivGreatest(x * sell, buy, y);
    Volumes(x - FloorDiv(y * buy, sell), FloorDiv(x * sell, buy) - y)
  }

  /** What a smoothed query may assume: no offer above the rate, and room for the smoothing shift. */
  ghost predicate InWidth(part: Acc, full: Acc, sell: nat, buy: nat, smooth: nat) {
    && 0 < sell < P64 && 0 < buy < P64 && sell * P24 < P64 * buy && smooth > 0
    && part.endow >= full.endow && part.timesPrice >= full.timesPrice
    && (part.endow - full.endow) * Pow2(smooth) < P64
    && AtMostRate((part.endow - full.endow) * Pow2(smooth), (part.timesPrice - full.timesPrice) * Pow2(smooth), sell, buy)
  }

  lemma IdealIsComputed(part: Acc, full: Acc, sell: nat, buy: nat, smooth: nat)
    ensures InWidth(part, full, sell, buy, smooth) ==>
              VolumesOf(part, full, sell, buy, smooth) ==
              Done(IdealVolumes(part.endow - full.endow, part.timesPrice - full.timesPrice, sell, buy, smooth))
  {
    if InWidth(part, full, sell, buy, smooth) {
      var e, t, k := part.endow - full.endow, part.timesPrice - full.timesPrice, Pow2(smooth);
      var sold, bought := GuardsHold(e * k, t * k, sell, buy);
      VolumesExact(part, full, sell, buy, smooth, e, t);
    }
  }

  /** What is left, either way, when `x` units asking for `y` in all are exchanged at the rate. */
  ghost predicate AtRate(v: Volumes, x: int, y: int, sell: nat, buy: nat)
    requires sell > 0 && buy > 0
  {
    v.sells == x * 0x100_0000 - y * buy / sell && v.buys == x * 0x100_0000 * sell / buy - y
  }

  /** The computed volumes of a smoothed query, in exact arithmetic. */
  lemma ExactVolumes(part: Acc, full: Acc, sell: nat, buy: nat, smooth: nat, e: nat, t: nat)
    requires 0 < sell < P64 && 0 < buy < P64 && sell * P24 < P64 * buy && smooth > 0
    requires e == part.endow - full.endow && t == part.timesPrice - full.timesPrice
    requires e * Pow2(smooth) < P64 && t * buy <= e * (sell * P24)
    ensures var v := VolumesOf(part, full, sell, buy, smooth);
            && v.Done? && AtRate(v.volumes, e * Pow2(smooth), t * Pow2(smooth), sell, buy)
            && v.volumes.buys * buy <= v.volumes.sells * sell
  {
    var k := Pow2(smooth);
    ScaleRate(e, t, sell, buy, k);
    var x, y := e * k, t * k;
    var sold, bought := GuardsHold(x, y, sell, buy);
    VolumesExact(part, full, sell, buy, smooth, e, t);
    FloorDivIs(y * buy, sell);
    FloorDivIs((x * P24) * sell, buy);
    NoGain(x * P24, y, sell, buy, sold, bought);
  }

  /** The offers between the prices are near enough to the rate not to be oversold; a caller can compute this. */
  ghost predicate NearEnough(index: seq<IndexEntry>, sell: nat, buy: nat, smooth: nat)
    requires index != [] && buy > 0
  {
    var k := Pow2(smooth);
    Near(index, ExecutionPrices(sell, buy, smooth), (k - 1) * (sell * P24), k * buy)
  }

  ghost predicate Near(index: seq<IndexEntry>, b: Bounds, m: nat, c: nat)
    requires index != []
  {
    Reach(index, b.lower) == b.lower || b.lower == b.upper || m <= b.lower * c
  }

  /**
   No throw of a smoothed demand query is reachable, and what it buys is worth at most what it sells. The offers between
   the prices sell at most their endowment exactly when the lower price is not the highest listed one, or no different
   from the upper one, or within the smoothing factor of the rate.
   */
  lemma SmoothingSound(index: seq<IndexEntry>, s: seq<Quote>, sell: nat, buy: nat, smooth: nat)
    requires Query(index, s, sell, buy, smooth)
    ensures var b := ExecutionPrices(sell, buy, smooth);
            var part, full := Answer(index, s, b.upper), Answer(index, s, b.lower);
            var v := VolumesOf(part, full, sell, buy, smooth);
            && v.Done? && part.endow >= full.endow
            && v.volumes.buys * buy <= v.volumes.sells * sell
            && (v.volumes.sells <= (part.endow - full.endow) * P24 <==> NearEnough(index, sell, buy, smooth))
  {
    var b := ExecutionPrices(sell, buy, smooth);
    var e, t := QueryFacts(index, s, sell, buy, smooth);
    var fits := QueryFits(index, s, b, sell, buy, Pow2(smooth), e, t);
    QueryVolumes(Answer(index, s, b.upper), Answer(index, s, b.lower), sell, buy, smooth, e, t);
  }

  lemma QueryFits(index: seq<IndexEntry>, s: seq<Quote>, b: Bounds, sell: nat, buy: nat, k: nat, e: nat, t: nat)
    returns (fits: bool)
    requires IndexOf(index, s) && Fair(s) && b.lower <= b.upper && k > 0
    requires Between(index, s, b, e, t)
    requires Reach(index, b.lower) == b.lower ==> e * ((k - 1) * (sell * P24)) <= t * (k * buy)
    ensures fits == (e * ((k - 1) * (sell * P24)) <= t * (k * buy))
    ensures fits == Near(index, b, (k - 1) * (sell * P24), k * buy)
  {
    var m, c := (k - 1) * (sell * P24), k * buy;
    fits := e * m <= t * c;
    NearExact(index, s, b, e, t, m, c);
  }

  lemma QueryVolumes(part: Acc, full: Acc, sell: nat, buy: nat, smooth: nat, e: nat, t: nat)
    requires 0 < sell < P64 && 0 < buy < P64 && sell * P24 < P64 * buy && smooth > 0
    requires e == part.endow - full.endow && t == part.timesPrice - full.timesPrice
    requires e * Pow2(smooth) < P64 && t * buy <= e * (sell * P24)
    ensures var v, k := VolumesOf(part, full, sell, buy, smooth), Pow2(smooth);
            && v.Done?
            && v.volumes.buys * buy <= v.volumes.sells * sell
            && (v.volumes.sells <= e * P24 <==> e * ((k - 1) * (sell * P24)) <= t * (k * buy))
  {
    var k := Pow2(smooth);
    ScaleRate(e, t, sell, buy, k);
    var sold, bought := GuardsHold(e * k, t * k, sell, buy);
    VolumesExact(part, full, sell, buy, smooth, e, t);
    NoGain((e * k) * P24, t * k, sell, buy, sold, bought);
    SoldEnough(e, t, sell, buy, k, sold);
  }

  /** So under that condition what is bought is worth at most the endowment, too. */
  lemma SmoothingWithinEndowment(index: seq<IndexEntry>, s: seq<Quote>, sell: nat, buy: nat, smooth: nat)
    requires Query(index, s, sell, buy, smooth) && NearEnough(index, sell, buy, smooth)
    ensures var b := ExecutionPrices(sell, buy, smooth);
            var part, full := Answer(index, s, b.upper), Answer(index, s, b.lower);
            var v := VolumesOf(part, full, sell, buy, smooth);
            && v.Done? && part.endow >= full.endow
            && v.volumes.sells <= (part.endow - full.endow) * P24
            && v.volumes.buys * buy <= ((part.endow - full.endow) * P24) * sell
  {
    var b := ExecutionPrices(sell, buy, smooth);
    var part, full := Answer(index, s, b.upper), Answer(index, s, b.lower);
    var v := VolumesOf(part, full, sell, buy, smooth);
    SmoothingSound(index, s, sell, buy, smooth);
    MulMonotone(v.volumes.sells, (part.endow - full.endow) * P24, sell);
  }

  /** The offers between the prices, as in `QueryFacts`. */
  ghost predicate Between(index: seq<IndexEntry>, s: seq<Quote>, b: Bounds, e: nat, t: nat)
    requires index != []
  {
    && e == Answer(index, s, b.upper).endow - Answer(index, s, b.lower).endow
    && t == Answer(index, s, b.upper).timesPrice - Answer(index, s, b.lower).timesPrice
  }

  lemma NearExact(index: seq<IndexEntry>, s: seq<Quote>, b: Bounds, e: nat, t: nat, m: nat, c: nat)
    requires IndexOf(index, s) && Fair(s) && b.lower <= b.upper
    requires Between(index, s, b, e, t)
    requires Reach(index, b.lower) == b.lower ==> e * m <= t * c
    ensures e * m <= t * c <==> Near(index, b, m, c)
  {
    if Reach(index, b.lower) != b.lower {
      if b.lower == b.upper {
        ZeroTimes(m, c);
      } else {
        OneListedPrice(index, s, b.lower, b.upper);
        ByEndowment(e, b.lower, m, c);
      }
    }
  }

  lemma ZeroTimes(a: nat, b: nat)
    ensures 0 * a <= 0 * b
  {
  }

  lemma ByEndowment(e: nat, p: nat, a: nat, c: nat)
    requires e > 0
    ensures e * a <= (e * p) * c <==> a <= p * c
  {
    Triple(e, p, c);
    Commutes(e, a);
    Commutes(e, p * c);
    if a <= p * c {
      MulMonotone(a, p * c, e);
    } else {
      MulMonotone(p * c + 1, a, e);
      AddOne(p * c, e);
    }
  }

  /** From the highest listed price to a higher one the sum gains exactly the offers at that price. */
  lemma OneListedPrice(index: seq<IndexEntry>, s: seq<Quote>, p: nat, q: nat)
    requires IndexOf(index, s) && Fair(s) && Reach(index, p) != p && p < q
    ensures var e := Answer(index, s, q).endow - Answer(index, s, p).endow;
            && e > 0
            && Answer(index, s, q).timesPrice - Answer(index, s, p).timesPrice == e * p
  {
    var rest := index[1..];
    assert SumsUp(rest[|rest| - 1], s, NoAcc());
    var x :| x in s && x.price == p;
    FairIsNonNegative(s);
    SumGrows(s, p, x);
    SumMonotone(s, p, q);
    IndexIncreases(index, s);
    forall x | x in s ensures x.price <= p {
      var i := ListedPrice(index, s, x);
    }
    AtOnePrice(s, p, q);
    SurplusDiff(SumLeq(s, p - 1), SumLeq(s, q), p, 1);
  }

  lemma AtOnePrice(s: seq<Quote>, p: nat, q: nat)
    requires Fair(s) && p < q && forall x :: x in s ==> x.price <= p
    ensures Surplus(p, 1)(SumLeq(s, p - 1)) == Surplus(p, 1)(SumLeq(s, q))
  {
    SurplusAdditive(p, 1);
    ShortfallAdditive(p, 1);
    forall x | x in s && p - 1 < x.price <= q ensures Surplus(p, 1)(x.acc) == 0 {
      SurplusOf(x.acc.endow, x.price, p, 1);
    }
    SumBound(s, p - 1, q, Surplus(p, 1));
    SumBound(s, p - 1, q, Shortfall(p, 1));
  }

  /**
   At the highest listed price the bound fails: one offer of amount 1 at price 1 (of radix 24), a rate of 5 to 2^25 and
   smoothing by a half. The offer is at the lower price exactly, is counted as partially executed, and is made to
   sell more than it has.
   */
  lemma SmoothingOversells(index: seq<IndexEntry>, s: seq<Quote>, q: Quote, e: IndexEntry)
    requires q == Quote(1, Acc(1, 1)) && s == [q] && e == IndexEntry(1, Acc(1, 1))
    requires index == [IndexEntry(0, NoAcc()), e]
    ensures Query(index, s, 5, 0x200_0000, 1) && !NearEnough(index, 5, 0x200_0000, 1)
    ensures var b := ExecutionPrices(5, 0x200_0000, 1);
            var part, full := Answer(index, s, b.upper), Answer(index, s, b.lower);
            var v := VolumesOf(part, full, 5, 0x200_0000, 1);
            && v.Done? && v.volumes.sells > (part.endow - full.endow) * P24
  {
    OversellingIndex(index, s, q, e);
    OversellingPrices(0x200_0000, 1);
    OversellingAnswers(index, s, 1, 2);
    PowOne(1);
    SmoothingSound(index, s, 5, 0x200_0000, 1);
  }

  lemma OversellingPrices(buy: nat, smooth: nat)
    requires buy == 0x200_0000 && smooth == 1
    ensures ExecutionPrices(5, buy, smooth) == Bounds(1, 2)
  {
    ExecutionPricesExact(5, buy, smooth);
    DivUnique(5 * P24, buy, 2);
    PowOne(smooth);
    DivUnique(2, Pow2(smooth), 1);
  }

  lemma PowOne(n: nat)
    requires n == 1
    ensures Pow2(n) == 2
  {
    assert Pow2(n - 1) == 1;
  }

  lemma SumOfOne(s: seq<Quote>, p: int)
    requires |s| == 1
    ensures SumLeq(s, p) == if s[0].price <= p then s[0].acc else NoAcc()
  {
    assert SumLeq(s[..0], p) == NoAcc();
  }

  /** The book of that example is indexed so. */
  lemma OversellingIndex(index: seq<IndexEntry>, s: seq<Quote>, q: Quote, e: IndexEntry)
    requires q == Quote(1, Acc(1, 1)) && s == [q] && e == IndexEntry(1, Acc(1, 1))
    requires index == [IndexEntry(0, NoAcc()), e]
    ensures IndexOf(index, s) && Fair(s)
  {
    SumOfOne(s, 1);
    assert index[1..] == [e];
    OnePiece(index[1..], s, q, e);
    OneFair(s, q);
  }

  /** Asked for its upper price it answers everything, asked for its lower price nothing. */
  lemma OversellingAnswers(index: seq<IndexEntry>, s: seq<Quote>, lower: int, upper: int)
    requires |index| == 2 && index[1].price == lower < upper && |s| == 1 && s[0].price == lower
    ensures Answer(index, s, upper) == s[0].acc && Answer(index, s, lower) == NoAcc()
  {
    var top := index[|index| - 1].price;
    assert top == lower;
    assert Answer(index, s, upper) == SumLeq(s, upper);
    assert Answer(index, s, lower) == SumLeq(s, lower - 1);
    SumOfOne(s, lower - 1);
    SumOfOne(s, upper);
  }

  lemma OneFair(s: seq<Quote>, q: Quote)
    requires s == [q] && q == Quote(1, Acc(1, 1))
    ensures Fair(s)
  {
    forall x | x in s ensures x == q {
    }
  }

  lemma OnePiece(piece: seq<IndexEntry>, s: seq<Quote>, q: Quote, e: IndexEntry)
    requires piece == [e] && s == [q] && q.price == e.price && e.acc == SumLeq(s, e.price)
    ensures IndexPiece(piece, s, NoAcc())
  {
    assert q in s && piece[0] == e;
    assert SumsUp(e, s, NoAcc());
    assert Lists(piece, q.price);
  }
}
