/**
 The share of the partially executed offer is a 128-bit field of the header, and a validator sells its low 64 bits: when
 that is the share, and what an accepted block then activates.
 */
module Shares {
  import opened Keys
  import opened FixedPoint
  import opened Trie
  import opened Offers
  import opened OrderBook
  import opened Clearing
  import opened Validation

  /** The record fits the book, its share taken as the number it is. */
  ghost predicate FitsExactly(b: map<Key, Offer>, rec: Commitment, accounts: set<nat>) {
    if rec.thresholdKey in b then
      b[rec.thresholdKey].owner in accounts && Ceil(rec.partialRaw) <= b[rec.thresholdKey].amount
    else rec.thresholdKey == ZeroKey && rec.partialRaw == 0
  }

  /** On one book: the record is judged by its share unless that is too large and its low bits are not. */
  lemma JudgedByShare(b: map<Key, Offer>, rec: Commitment, accounts: set<nat>)
    requires forall k :: k in b ==> b[k].amount < U64
    ensures (RecordFits(b, rec, accounts) <==> FitsExactly(b, rec, accounts)) <==>
            || Ceil(rec.partialRaw) < U64
            || rec.thresholdKey !in b
            || b[rec.thresholdKey].owner !in accounts
            || SellAmount(rec.partialRaw) > b[rec.thresholdKey].amount
  {
  }

  /** Whatever an offer has left, and whichever accounts there are: exactly when the share fits 64 bits. */
  lemma JudgedByShareEverywhere(o: Offer, rec: Commitment)
    requires OfferOk(o) && rec.thresholdKey == OfferKey(o)
    ensures (forall amount: nat, accounts: set<nat> | 0 < amount < U64 ::
               var b := map[OfferKey(o) := o.(amount := amount)];
               RecordFits(b, rec, accounts) <==> FitsExactly(b, rec, accounts)) <==>
            Ceil(rec.partialRaw) < U64
  {
    if Ceil(rec.partialRaw) < U64 {
      forall amount: nat, accounts: set<nat> | 0 < amount < U64
        ensures var b := map[OfferKey(o) := o.(amount := amount)];
                RecordFits(b, rec, accounts) <==> FitsExactly(b, rec, accounts)
      {
        JudgedByShare(map[OfferKey(o) := o.(amount := amount)], rec, accounts);
      }
    } else {
      var b := map[OfferKey(o) := o.(amount := U64 - 1)];
      assert RecordFits(b, rec, {o.owner}) && !FitsExactly(b, rec, {o.owner});
    }
  }

  /** What the offers of a book lose in whole units when the record is accepted. */
  lemma GivenUp(m: Node<Offer>, rec: Commitment, accounts: set<nat>, c: nat, rest: Node<Offer>, t: Thunk)
    requires BookOk(m) && RecordFits(OfferMap(m), rec, accounts) && AfterClearing(m, rec, accounts, c, rest, t)
    ensures MetaOf(m).endow - MetaOf(rest).endow == Amounts(OfferList(m)[..c]) + SellAmount(rec.partialRaw)
  {
    var b := OfferList(m);
    EndowIsAmounts(m);
    EndowIsAmounts(rest);
    if c < |b| {
      RemainingAmounts(b, c, SellAmount(rec.partialRaw));
    } else {
      assert b[..c] == b;
    }
  }

  /** `whole` units and a share, added in 128 bits, against `whole` units and the low bits of the share. */
  lemma WholeAndShare(whole: nat, raw: nat, supply: nat)
    requires raw < U128 && whole * RADIX < U128 && supply == Wrap128(whole * RADIX + raw)
    ensures whole + SellAmount(raw) == Ceil(supply) <==>
            if whole * RADIX + raw < U128 then Ceil(raw) < U64 else Ceil(raw) == U128 / RADIX
  {
    CeilMinus(whole * RADIX + raw, whole);
    if whole * RADIX + raw >= U128 {
      CeilMinus(whole * RADIX + raw, U128 / RADIX);
    }
  }

  /**
   The supply of the header is what an accepted block takes out of the book, its early clears included, rounded up:
   exactly when the share fits 64 bits, as long as the sum that is checked does not itself wrap around 128 bits.
   */
  lemma AcceptedConserves(
    m: Node<Offer>, news: seq<Offer>, rec: Commitment, market: Market, c: nat, rest: Node<Offer>, t: Thunk)
    requires BookOk(m) && Judged(Accepted, m, rec, market, news, c)
    requires AfterClearing(m, rec, market.accounts, c, rest, t)
    requires rec.partialRaw < U128 && Activated(news, rec, OfferList(m), c) < U128
    ensures Amounts(EarlyOnes(news, rec)) + MetaOf(m).endow - MetaOf(rest).endow == Ceil(rec.supply) <==>
            if Activated(news, rec, OfferList(m), c) + rec.partialRaw < U128 then Ceil(rec.partialRaw) < U64
            else Ceil(rec.partialRaw) == U128 / RADIX
  {
    var early, late := Amounts(EarlyOnes(news, rec)), Amounts(OfferList(m)[..c]);
    AmountsNonNegative(EarlyOnes(news, rec));
    AmountsNonNegative(OfferList(m)[..c]);
    GivenUp(m, rec, market.accounts, c, rest, t);
    WholeAndShare(early + late, rec.partialRaw, rec.supply);
  }

  /** The raw value of 2^64 whole units. */
  const OVERLARGE: nat := U64 * RADIX

  /** A header asking offer `o` to sell 2^64 units is accepted, though `o` has less, and `o` sells nothing. */
  lemma OverlargeShareAccepted(o: Offer, rec: Commitment, market: Market, n: Node<Offer>, t: Thunk)
    requires OfferOk(o) && o.amount < U64 && o.owner in market.accounts
    requires rec == Commitment(OVERLARGE, OfferKey(o), OVERLARGE, false)
    requires n == Leaf(OfferKey(o), Fresh(o, 0)) && t == Thunk(1, [], [], Empty, Some(Partial(OfferKey(o), 0, o)))
    ensures Judged(Accepted, n, rec, market, [], 0) && AfterClearing(n, rec, market.accounts, 0, n, t)
    ensures !FitsExactly(OfferMap(n), rec, market.accounts)
  {
    SingleBook(o, 0, n);
    ZeroKeyUnused(o);
    assert SellAmount(OVERLARGE) == 0;
    assert o.(amount := o.amount - 0) == o;
    assert AllSettle(OfferList(n)[..0], market);
    assert Activated([], rec, OfferList(n), 0) == 0;
  }
}
