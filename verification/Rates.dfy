/**
 Clearing at the prices a demand query was asked for: which offers settle, and which supplies can be activated.
 */
module Rates {
  import opened Trie
  import opened TrieOrder
  import opened FixedPoint
  import opened Products
  import opened Offers
  import opened OrderBook
  import opened Clearing
  import opened PriceIndex
  import opened PriceTraversal
  import opened Smoothing
  import opened Demands

  /** At a rate that fits 64 bits, the offers of known owners that settle are exactly those up to the upper price. */
  lemma SettlesAtUpper(o: Offer, market: Market, smooth: nat)
    requires 0 < market.sell < P64 && 0 < market.buy < P64 && market.sell * P24 < P64 * market.buy
    ensures Settles(o, market) <==>
            o.owner in market.accounts && o.minPrice <= ExecutionPrices(market.sell, market.buy, smooth).upper
  {
    SettlesExact(o, market);
    PricesOfQuery(market.sell, market.buy, smooth);
  }

  /** Offers are listed by price: the first `d` of them are those priced at most `p`. */
  ghost predicate CutAt(b: seq<Offer>, p: int, d: nat) {
    && d <= |b|
    && (forall i :: 0 <= i < d ==> b[i].minPrice <= p)
    && (forall i :: d <= i < |b| ==> b[i].minPrice > p)
  }

  lemma CutExists(b: seq<Offer>, p: int) returns (d: nat)
    requires BookOrder(b) && forall i :: 0 <= i < |b| ==> OfferOk(b[i])
    ensures CutAt(b, p, d)
  {
    d := 0;
    while d < |b| && b[d].minPrice <= p
      invariant d <= |b| && forall i :: 0 <= i < d ==> b[i].minPrice <= p
    {
      d := d + 1;
    }
    forall i | d < i < |b| ensures b[i].minPrice > p {
      PricesAscend(b, d, i);
    }
  }

  lemma {:induction false} CutAmount(b: seq<Offer>, p: int, d: nat)
    requires CutAt(b, p, d) && forall i :: 0 <= i < |b| ==> b[i].minPrice > 0
    ensures AmountIn(b, 0, p) == Amounts(b[..d])
    decreases |b|
  {
    if b != [] {
      var last := |b| - 1;
      if d == |b| {
        CutAmount(b[..last], p, last);
        assert b[..d] == b && b[..last][..last] == b[..last];
      } else {
        CutAmount(b[..last], p, d);
        assert b[..last][..d] == b[..d];
      }
    }
  }

  /** A supply clears past the `d`-th offer exactly when it covers it. */
  lemma ClearsPast(b: seq<Offer>, supply: nat, c: nat, d: nat)
    requires ClearsTo(b, supply, c) && d < |b| && forall i :: 0 <= i < |b| ==> b[i].amount > 0
    ensures c > d <==> Amounts(b[..d]) + b[d].amount <= Floor(supply)
  {
    assert b[..d + 1][..d] == b[..d];
    if c > d {
      AmountsRise(b, d + 1, c);
    } else if c < d {
      AmountsRise(b, c + 1, d);
      assert b[..c + 1][..c] == b[..c];
    }
  }

  /**
   The run of offers a supply clears is priced within `p` exactly when no offer is dearer, or the supply falls short of
   all offers up to `p` and the cheapest dearer one.
   */
  lemma ClearsWithin(b: seq<Offer>, supply: nat, c: nat, p: int) returns (d: nat)
    requires BookOrder(b) && forall i :: 0 <= i < |b| ==> OfferOk(b[i])
    requires ClearsTo(b, supply, c)
    ensures CutAt(b, p, d)
    ensures (forall i :: 0 <= i < c ==> b[i].minPrice <= p) <==>
            d == |b| || Floor(supply) < AmountIn(b, 0, p) + b[d].amount
  {
    d := CutExists(b, p);
    CutAmount(b, p, d);
    if d < |b| {
      ClearsPast(b, supply, c, d);
      assert b[d].minPrice > p;
    }
  }

  /** The upper bound of `get_supply_bounds`, told from the book. */
  ghost function UpperBound(n: Node<Offer>, market: Market, smooth: nat): int
    requires market.buy > 0
  {
    AmountIn(OfferList(n), 0, CountedTo(OfferList(n), ExecutionPrices(market.sell, market.buy, smooth).upper))
  }

  /** `get_supply_bounds` on the index of the book. */
  method GetSupplyBounds(n: Node<Offer>, market: Market, smooth: nat) returns (lower: int, upper: int)
    requires BookOk(n) && market.buy > 0
    ensures upper == UpperBound(n, market, smooth) && 0 <= lower <= upper
    ensures lower == AmountIn(OfferList(n), 0, CountedTo(OfferList(n), ExecutionPrices(market.sell, market.buy, smooth).lower))
  {
    var index := GenerateMetadataIndex(n);
    var at := ExecutionPrices(market.sell, market.buy, smooth);
    ghost var s := Quotes(Leaves(n));
    var high := GetMetadata(index, at.upper, s);
    var low := GetMetadata(index, at.lower, s);
    lower, upper := low.endow, high.endow;
    AnswersIn(n, index, at.lower, at.upper);
    AnswersIn(n, index, at.upper, at.upper);
  }

  /**
   A supply within the upper supply bound of a query never makes the clearing at the query's prices throw for being too
   large or for an offer's price: apart from the 64-bit guard, all depends on the owners being known.
   */
  lemma SupplyWithinBounds(n: Node<Offer>, supply: nat, c: nat, market: Market, smooth: nat)
    requires BookOk(n) && ClearsTo(OfferList(n), supply, c)
    requires 0 < market.sell < P64 && 0 < market.buy < P64 && market.sell * P24 < P64 * market.buy
    requires supply <= UpperBound(n, market, smooth) * RADIX
    ensures SupplyFits(n, supply) <==> Floor(supply) <= INT64_MAX
    ensures CanSettle(OfferList(n), c, market) <==>
            && (forall o :: o in OfferList(n)[..c] ==> o.owner in market.accounts)
            && (c < |OfferList(n)| ==> OfferList(n)[c].owner in market.accounts)
    ensures forall o :: o in OfferList(n)[..c] ==> o.minPrice <= market.sell * 0x100_0000 / market.buy
  {
    var b := OfferList(n);
    var u := ExecutionPrices(market.sell, market.buy, smooth).upper;
    var p := CountedTo(b, u);
    ListOrdered(n);
    PricesOfQuery(market.sell, market.buy, smooth);
    InOrder(b, p, u);
    EndowIsAmounts(n);
    AmountTo(b, p, u);
    var d := ClearsWithin(b, supply, c, u);
    forall i | 0 <= i < c ensures Settles(b[..c][i], market) <==> b[..c][i].owner in market.accounts {
      SettlesAtUpper(b[i], market, smooth);
    }
  }

  lemma {:induction false} AmountTo(b: seq<Offer>, p: int, q: int)
    requires p <= q && forall i :: 0 <= i < |b| ==> OfferOk(b[i])
    ensures AmountIn(b, 0, p) <= AmountIn(b, 0, q)
  {
    if b != [] {
      AmountTo(b[..|b| - 1], p, q);
    }
  }
}
