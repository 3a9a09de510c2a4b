/**
 A demand query on a book: index, search and smoothing together.
 */
module Demands {
  import opened Trie
  import opened TrieOrder
  import opened Offers
  import opened PriceIndex
  import opened PriceTraversal
  import opened Smoothing
  import opened Products

  lemma BookIsFair(n: Node<Offer>)
    requires BookOk(n)
    ensures Fair(Quotes(Leaves(n)))
  {
    PricesPositive(n);
    var q, b := Quotes(Leaves(n)), OfferList(n);
    forall x | x in q ensures x.acc.timesPrice == x.acc.endow * x.price {
      var i :| 0 <= i < |q| && q[i] == x;
      assert q[i] == Quote(b[i].minPrice, Times(b[i].amount, b[i].minPrice));
    }
  }

  lemma {:induction false} QuotesTotal(s: seq<Item<Offer>>)
    ensures SumAll(Quotes(s)).endow == Total(s).endow
  {
    if s != [] {
      var init, last := s[..|s| - 1], s[|s| - 1];
      QuotesTotal(init);
      var q := Quotes(s);
      assert q[..|q| - 1] == Quotes(init) && q[|q| - 1] == QuoteOf(last);
    }
  }

  lemma {:induction false} SumAtMostAll(s: seq<Quote>, p: int)
    requires NonNegative(s)
    ensures SumLeq(s, p).endow <= SumAll(s).endow
  {
    if s != [] {
      assert s[|s| - 1] in s;
      SumAtMostAll(s[..|s| - 1], p);
    }
  }

  /** Between its two prices a query sees at most the whole book. */
  lemma SeesAtMostAll(n: Node<Offer>, index: seq<IndexEntry>, lower: int, upper: int)
    requires BookOk(n) && IndexOf(index, Quotes(Leaves(n))) && lower <= upper
    ensures var s := Quotes(Leaves(n));
            0 <= Answer(index, s, upper).endow - Answer(index, s, lower).endow <= MetaOf(n).endow
  {
    var s := Quotes(Leaves(n));
    BookIsFair(n);
    FairIsNonNegative(s);
    AnswerMonotone(index, s, lower, upper);
    SumAtMostAll(s, Reach(index, upper));
    SumMonotone(s, Reach(index, lower), Reach(index, lower));
    QuotesTotal(Leaves(n));
    LeavesFiled(n);
    CachedTotal(n, KEY_LEN);
  }

  // ---- The offers a query counts --------------------------------------------------------------------------------------------

  /** What the offers priced above `lo`, and at most `hi`, have. */
  ghost function AmountIn(b: seq<Offer>, lo: int, hi: int): int {
    if b == [] then 0
    else
      var last := b[|b| - 1];
      AmountIn(b[..|b| - 1], lo, hi) + if lo < last.minPrice <= hi then last.amount else 0
  }

  /** What these offers ask for it, at their own prices. */
  ghost function WorthIn(b: seq<Offer>, lo: int, hi: int): int {
    if b == [] then 0
    else
      var last := b[|b| - 1];
      WorthIn(b[..|b| - 1], lo, hi) + if lo < last.minPrice <= hi then last.amount * last.minPrice else 0
  }

  /** Asked for price `p`, `get_metadata` counts the offers up to `p`, but those at `p` only if a dearer one exists. */
  ghost function CountedTo(b: seq<Offer>, p: int): int {
    if (exists o :: o in b && o.minPrice == p) && (forall o :: o in b ==> o.minPrice <= p) then p - 1 else p
  }

  lemma {:induction false} SumsIn(b: seq<Offer>, q: seq<Quote>, lo: int, hi: int)
    requires |q| == |b| && lo <= hi
    requires forall i :: 0 <= i < |b| ==> q[i] == Quote(b[i].minPrice, Times(b[i].amount, b[i].minPrice))
    ensures SumLeq(q, hi).endow - SumLeq(q, lo).endow == AmountIn(b, lo, hi)
    ensures SumLeq(q, hi).timesPrice - SumLeq(q, lo).timesPrice == WorthIn(b, lo, hi)
  {
    if b != [] {
      SumsIn(b[..|b| - 1], q[..|q| - 1], lo, hi);
    }
  }

  lemma ReachIsCounted(n: Node<Offer>, index: seq<IndexEntry>, p: int)
    requires BookOk(n) && IndexOf(index, Quotes(Leaves(n)))
    ensures Reach(index, p) == CountedTo(OfferList(n), p)
  {
    var b, s := OfferList(n), Quotes(Leaves(n));
    PricesPositive(n);
    IndexIncreases(index, s);
    forall o | o in b ensures |index| > 1 && o.minPrice <= index[|index| - 1].price {
      var i :| 0 <= i < |b| && b[i] == o;
      assert s[i].price == o.minPrice;
      var j := ListedPrice(index, s, s[i]);
    }
    if |index| > 1 {
      var top := HighestOffer(n, index);
    }
  }

  lemma HighestOffer(n: Node<Offer>, index: seq<IndexEntry>) returns (o: Offer)
    requires BookOk(n) && IndexOf(index, Quotes(Leaves(n))) && |index| > 1
    ensures o in OfferList(n) && o.minPrice == index[|index| - 1].price
  {
    var s, rest := Quotes(Leaves(n)), index[1..];
    PricesPositive(n);
    assert SumsUp(rest[|rest| - 1], s, NoAcc());
    var x :| x in s && x.price == rest[|rest| - 1].price;
    var i :| 0 <= i < |s| && s[i] == x;
    o := OfferList(n)[i];
  }

  /** What a query between two prices reads off the index, told from the book. */
  lemma AnswersIn(n: Node<Offer>, index: seq<IndexEntry>, lower: nat, upper: nat)
    requires BookOk(n) && IndexOf(index, Quotes(Leaves(n))) && lower <= upper
    ensures var b, s := OfferList(n), Quotes(Leaves(n));
            var lo, hi := CountedTo(b, lower), CountedTo(b, upper);
            && lo <= hi
            && Answer(index, s, lower).endow == AmountIn(b, 0, lo) >= 0
            && Answer(index, s, upper).endow - Answer(index, s, lower).endow == AmountIn(b, lo, hi) >= 0
            && Answer(index, s, upper).timesPrice - Answer(index, s, lower).timesPrice == WorthIn(b, lo, hi) >= 0
  {
    var b, s := OfferList(n), Quotes(Leaves(n));
    PricesPositive(n);
    BookIsFair(n);
    FairIsNonNegative(s);
    AnswerMonotone(index, s, lower, upper);
    ReachIsCounted(n, index, lower);
    ReachIsCounted(n, index, upper);
    SumsIn(b, s, CountedTo(b, lower), CountedTo(b, upper));
    SumNothing(s, 0);
    SumMonotone(s, Reach(index, lower), Reach(index, lower));
    if CountedTo(b, lower) >= 0 {
      SumsIn(b, s, 0, CountedTo(b, lower));
    } else {
      assert forall o :: o in b ==> o.minPrice > 0 by {
        ListOrdered(n);
      }
    }
  }

  // ---- The query ---------------------------------------------------------------------------------------------------------

  /** The two prices of a query: the rate rounded down, and, if it is smoothed, that less its `2^smooth`-th part. */
  lemma PricesOfQuery(sell: nat, buy: nat, smooth: nat)
    requires 0 < sell < P64 && 0 < buy < P64 && sell * P24 < P64 * buy
    ensures var upper := sell * 0x100_0000 / buy;
            ExecutionPrices(sell, buy, smooth) ==
            Bounds(if smooth == 0 then upper else upper - upper / Pow2(smooth), upper)
  {
    var upper := sell * 0x100_0000 / buy;
    ExecutionPricesExact(sell, buy, smooth);
    FloorDivIs(sell * P24, buy);
    FloorDivIs(upper, Pow2(smooth));
  }

  /**
   The volumes of a query, smoothed by the factor `k`, of the offers priced above `lo` and at most `hi`, in exact
   arithmetic.
   */
  ghost predicate SmoothedIn(b: seq<Offer>, lo: int, hi: int, k: nat, sell: nat, buy: nat, v: Volumes)
    requires sell > 0 && buy > 0
  {
    AtRate(v, AmountIn(b, lo, hi) * k, WorthIn(b, lo, hi) * k, sell, buy)
  }

  /** The partial part of a query, on the index of a book. */
  lemma PartialExact(n: Node<Offer>, index: seq<IndexEntry>, sell: nat, buy: nat, smooth: nat)
    requires BookOk(n) && IndexOf(index, Quotes(Leaves(n)))
    requires 0 < sell < P64 && 0 < buy < P64 && sell * P24 < P64 * buy
    requires MetaOf(n).endow * Pow2(smooth) < P64
    ensures var b, s, at := OfferList(n), Quotes(Leaves(n)), ExecutionPrices(sell, buy, smooth);
            var v := VolumesOf(Answer(index, s, at.upper), Answer(index, s, at.lower), sell, buy, smooth);
            && v.Done? && v.volumes.buys * buy <= v.volumes.sells * sell
            && SmoothedIn(b, CountedTo(b, at.lower), CountedTo(b, at.upper), Pow2(smooth), sell, buy, v.volumes)
  {
    var b, s, at := OfferList(n), Quotes(Leaves(n)), ExecutionPrices(sell, buy, smooth);
    var part, full := Answer(index, s, at.upper), Answer(index, s, at.lower);
    AnswersIn(n, index, at.lower, at.upper);
    if smooth == 0 {
      assert at.lower == at.upper;
      NothingSmoothed(b, CountedTo(b, at.upper), Pow2(smooth), sell, buy);
    } else {
      SeesAtMostAll(n, index, at.lower, at.upper);
      BookIsFair(n);
      MulMonotone(part.endow - full.endow, MetaOf(n).endow, Pow2(smooth));
      var e, t := QueryFacts(index, s, sell, buy, smooth);
      ExactVolumes(part, full, sell, buy, smooth, e, t);
    }
  }

  lemma NothingSmoothed(b: seq<Offer>, p: int, k: nat, sell: nat, buy: nat)
    requires sell > 0 && buy > 0
    ensures SmoothedIn(b, p, p, k, sell, buy, Volumes(0, 0))
  {
    NothingIn(b, p);
  }

  lemma {:induction false} NothingIn(b: seq<Offer>, p: int)
    ensures AmountIn(b, p, p) == 0 == WorthIn(b, p, p)
  {
    if b != [] {
      NothingIn(b[..|b| - 1], p);
    }
  }

  /**
   The partial part of `calculate_demands_and_supplies`, on a book whose endowment leaves room for the smoothing shift in
   64 bits, at a rate that fits 64 bits: it does not throw, and the volumes are those of the offers counted from above the
   lower to the upper price, smoothed. What is bought is worth at most what is sold.
   */
  method PartialDemand(n: Node<Offer>, sell: nat, buy: nat, smooth: nat) returns (v: Result, full: Acc)
    requires BookOk(n)
    requires 0 < sell < P64 && 0 < buy < P64 && sell * P24 < P64 * buy
    requires MetaOf(n).endow * Pow2(smooth) < P64
    ensures v.Done? && v.volumes.buys * buy <= v.volumes.sells * sell
    ensures var b, upper := OfferList(n), sell * 0x100_0000 / buy;
            var lower := if smooth == 0 then upper else upper - upper / Pow2(smooth);
            && SmoothedIn(b, CountedTo(b, lower), CountedTo(b, upper), Pow2(smooth), sell, buy, v.volumes)
            && full.endow == AmountIn(b, 0, CountedTo(b, lower)) >= 0
  {
    var index := GenerateMetadataIndex(n);
    var at := ExecutionPrices(sell, buy, smooth);
    ghost var s := Quotes(Leaves(n));
    var part := GetMetadata(index, at.upper, s);
    full := GetMetadata(index, at.lower, s);
    v := PartialVolumes(part, full, sell, buy, smooth);
    AnswersIn(n, index, at.lower, at.upper);
    PartialExact(n, index, sell, buy, smooth);
    PricesOfQuery(sell, buy, smooth);
  }

  /** `calculate_demands_and_supplies`, but for adding the volumes to those of the other books. */
  method DemandAndSupply(n: Node<Offer>, sell: nat, buy: nat, smooth: nat) returns (v: Result)
    requires BookOk(n)
    requires 0 < sell < P64 && 0 < buy < P64 && sell * P24 < P64 * buy
    requires MetaOf(n).endow * Pow2(smooth) < P64
    ensures v.Done? && v.volumes.buys * buy <= v.volumes.sells * sell
    ensures var b, upper := OfferList(n), sell * 0x100_0000 / buy;
            var lower := if smooth == 0 then upper else upper - upper / Pow2(smooth);
            DemandIn(b, CountedTo(b, lower), CountedTo(b, upper), Pow2(smooth), sell, buy, v.volumes)
  {
    var part, full := PartialDemand(n, sell, buy, smooth);
    var amount := Wrap(full.endow * P24, P128);
    var bought := WideMultiply(amount, sell, buy);
    v := Done(Volumes(Wrap(part.volumes.sells + amount, P128), Wrap(part.volumes.buys + bought, P128)));
    ghost var b, at := OfferList(n), ExecutionPrices(sell, buy, smooth);
    PricesOfQuery(sell, buy, smooth);
    RoomForAll(n, at.lower, at.upper, Pow2(smooth));
    WithOutright(part.volumes, full.endow, AmountIn(b, CountedTo(b, at.lower), CountedTo(b, at.upper)) * Pow2(smooth),
                 WorthIn(b, CountedTo(b, at.lower), CountedTo(b, at.upper)) * Pow2(smooth), sell, buy, v.volumes);
  }

  /** What the offers counted to the lower price sell outright, and those from there to the upper price smoothed. */
  ghost predicate DemandIn(b: seq<Offer>, lo: int, hi: int, k: nat, sell: nat, buy: nat, v: Volumes)
    requires sell > 0 && buy > 0
  {
    PlusOutright(v, AmountIn(b, 0, lo), AmountIn(b, lo, hi) * k, WorthIn(b, lo, hi) * k, sell, buy)
  }

  ghost predicate PlusOutright(v: Volumes, f: int, x: int, y: int, sell: nat, buy: nat)
    requires sell > 0 && buy > 0
  {
    && v.sells == f * 0x100_0000 + x * 0x100_0000 - y * buy / sell
    && v.buys == f * 0x100_0000 * sell / buy + x * 0x100_0000 * sell / buy - y
  }

  /** The smoothed volumes and the outright ones are within 64 bits of amount together. */
  lemma RoomForAll(n: Node<Offer>, lower: nat, upper: nat, k: nat)
    requires BookOk(n) && lower <= upper && k > 0 && MetaOf(n).endow * k < P64
    ensures var b := OfferList(n);
            var f, e := AmountIn(b, 0, CountedTo(b, lower)), AmountIn(b, CountedTo(b, lower), CountedTo(b, upper));
            f >= 0 && e * k >= 0 && f + e * k < P64
    ensures WorthIn(OfferList(n), CountedTo(OfferList(n), lower), CountedTo(OfferList(n), upper)) * k >= 0
  {
    var b := OfferList(n);
    CountsRise(b, lower, upper);
    ListOrdered(n);
    EndowIsAmounts(n);
    InOrder(b, CountedTo(b, lower), CountedTo(b, upper));
    var f, e := AmountIn(b, 0, CountedTo(b, lower)), AmountIn(b, CountedTo(b, lower), CountedTo(b, upper));
    Room(f, e, MetaOf(n).endow, k);
    ProductNonNegative(WorthIn(b, CountedTo(b, lower), CountedTo(b, upper)), k);
  }

  lemma Room(f: nat, e: nat, all: nat, k: nat)
    requires f + e <= all && k > 0 && all * k < P64
    ensures 0 <= e * k && f + e * k < P64
  {
    MulMonotone(f + e, all, k);
    Distribute(f, e, k);
    MulMonotone(1, k, f);
  }

  lemma CountsRise(b: seq<Offer>, p: int, q: int)
    requires p <= q
    ensures CountedTo(b, p) <= CountedTo(b, q)
  {
  }

  lemma {:induction false} InOrder(b: seq<Offer>, lo: int, hi: int)
    requires lo <= hi && forall i :: 0 <= i < |b| ==> OfferOk(b[i])
    ensures AmountIn(b, 0, lo) >= 0 && AmountIn(b, lo, hi) >= 0 && WorthIn(b, lo, hi) >= 0
    ensures AmountIn(b, 0, lo) + AmountIn(b, lo, hi) <= Amounts(b)
  {
    if b != [] {
      ProductNonNegative(b[|b| - 1].amount, b[|b| - 1].minPrice);
      InOrder(b[..|b| - 1], lo, hi);
    }
  }

  /** What is bought outright and smoothed, together, fits 128 bits. */
  lemma BoughtTogetherFits(x: nat, f: nat, sell: nat, buy: nat)
    requires 0 < sell < P64 && 0 < buy < P64 && sell * P24 < P64 * buy && x + f < P64
    ensures x * 0x100_0000 * sell / buy + f * 0x100_0000 * sell / buy < P128
  {
    var p, q := x * P24, f * P24;
    BoughtFits(x + f, sell, buy);
    Distribute(x, f, P24);
    FloorDivIs((p + q) * sell, buy);
    Distribute(p, q, sell);
    TwoQuotients(p * sell, q * sell, buy);
  }

  lemma WorthTogether(sells: nat, buys: nat, q: nat, z: nat, sell: nat, buy: nat)
    requires sell > 0 && buy > 0 && buys * buy <= sells * sell && z == q * sell / buy
    ensures (buys + z) * buy <= (sells + q) * sell
  {
    AtMostQuotient(z, buy, q * sell);
    Distribute(buys, z, buy);
    Distribute(sells, q, sell);
  }

  /** The outright volumes join the smoothed ones: neither sum wraps around, and the worth stays covered. */
  lemma WithOutright(part: Volumes, f: nat, x: nat, y: nat, sell: nat, buy: nat, v: Volumes)
    requires 0 < sell < P64 && 0 < buy < P64 && sell * P24 < P64 * buy && x + f < P64
    requires AtRate(part, x, y, sell, buy) && part.buys * buy <= part.sells * sell
    requires var amount := Wrap(f * P24, P128);
             v == Volumes(Wrap(part.sells + amount, P128), Wrap(part.buys + WideMultiply(amount, sell, buy), P128))
    ensures PlusOutright(v, f, x, y, sell, buy) && v.buys * buy <= v.sells * sell
  {
    var q := f * P24;
    OutrightExact(f, sell, buy);
    BoughtTogetherFits(x, f, sell, buy);
    WorthTogether(part.sells, part.buys, q, q * sell / buy, sell, buy);
    Less(part, x, y, sell, buy);
  }

  lemma OutrightExact(f: nat, sell: nat, buy: nat)
    requires 0 < sell < P64 && 0 < buy < P64 && sell * P24 < P64 * buy && f < P64
    ensures Wrap(f * P24, P128) == f * P24
    ensures WideMultiply(f * P24, sell, buy) == f * 0x100_0000 * sell / buy
  {
    var q := f * P24;
    var z := FloorDiv(q * sell, buy);
    BoughtFits(f, sell, buy);
    DivBounds(q * sell, buy);
    WideMultiplyExact(q, sell, buy, z);
    FloorDivIs(q * sell, buy);
  }

  lemma Less(v: Volumes, x: nat, y: nat, sell: nat, buy: nat)
    requires sell > 0 && buy > 0 && AtRate(v, x, y, sell, buy)
    ensures v.sells <= x * 0x100_0000 && v.buys <= x * 0x100_0000 * sell / buy
  {
    ProductNonNegative(y, buy);
    AtMostQuotient(0, sell, y * buy);
  }

  lemma TwoQuotients(x: nat, y: nat, d: nat)
    requires d > 0
    ensures x / d + y / d <= (x + y) / d
  {
    AtMostQuotient(x / d, d, x);
    AtMostQuotient(y / d, d, y);
    Distribute(x / d, y / d, d);
    AtMostQuotient(x / d + y / d, d, x + y);
  }
}
