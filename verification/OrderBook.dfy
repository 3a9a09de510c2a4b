/**
 The order book of one asset pair through a block: taking in the block's new offers and cancellations, clearing it as
 the block producer does, clearing it again as a validator does, and undoing a block.
 */
module OrderBook {
  import opened Keys
  import opened FixedPoint
  import opened Products
  import opened Trie
  import opened Canonical
  import opened TrieOps
  import opened TrieOrder
  import opened TrieDelete
  import opened TrieThreshold
  import opened TrieClean
  import opened TrieQueries
  import opened Offers

  const INT64_MAX: nat := 0x7FFF_FFFF_FFFF_FFFF

  /** What the block header records about the clearing of this book (`SingleWorkUnitStateCommitment`). */
  datatype Commitment = Commitment(supply: nat, thresholdKey: Key, partialRaw: nat, keyIsNull: bool)

  /** A fixed-point price of one. */
  const PRICE_ONE: nat := 0x100_0000

  /** What a block clears against: the prices of the two assets, and the accounts there are. */
  datatype Market = Market(sell: nat, buy: nat, accounts: set<nat>)

  /** `CompleteClearingFunc` does not throw on `o`: the rate reaches its price, and its owner is known. */
  predicate Settles(o: Offer, market: Market) {
    !(market.sell * PRICE_ONE < market.buy * o.minPrice) && o.owner in market.accounts
  }

  /** In numbers: an offer settles if its owner is known and its price is at most the rate of exchange, rounded down. */
  lemma SettlesExact(o: Offer, market: Market)
    ensures Settles(o, market) <==>
            o.owner in market.accounts && (market.buy == 0 || o.minPrice <= market.sell * 0x100_0000 / market.buy)
  {
    if market.buy > 0 {
      AtMostQuotient(o.minPrice, market.buy, market.sell * 0x100_0000);
    }
  }

  ghost predicate AllSettle(b: seq<Offer>, market: Market) {
    forall i :: 0 <= i < |b| ==> Settles(b[i], market)
  }

  /** The first `c` offers can be cleared, and the next one's owner be paid. */
  ghost predicate CanSettle(b: seq<Offer>, c: nat, market: Market) {
    c <= |b| && AllSettle(b[..c], market) && (c < |b| ==> b[c].owner in market.accounts)
  }

  datatype Partial = Partial(key: Key, amount: nat, before: Offer)

  /** The undo and persistence record of one block (`WorkUnitLMDBCommitmentThunk`). */
  datatype Thunk = Thunk(
    block: nat,
    newOffers: seq<Offer>,
    cancelled: seq<Item<Offer>>,
    cleared: Node<Offer>,
    partial: Option<Partial>)

  // ---- Clearing, on lists ------------------------------------------------------------------------------------

  /** `supply` fully clears exactly the first `c` offers of `b`. */
  ghost predicate ClearsTo(b: seq<Offer>, supply: nat, c: nat) {
    && c <= |b|
    && Amounts(b[..c]) <= Floor(supply)
    && (c < |b| ==> Amounts(b[..c]) + b[c].amount > Floor(supply))
  }

  /** There is one such point in a book. */
  lemma ClearsOnce(b: seq<Offer>, supply: nat, c: nat, d: nat)
    requires forall i :: 0 <= i < |b| ==> b[i].amount > 0
    requires ClearsTo(b, supply, c) && ClearsTo(b, supply, d)
    ensures c == d
  {
    PastIt(b, supply, c, d);
    PastIt(b, supply, d, c);
  }

  lemma PastIt(b: seq<Offer>, supply: nat, c: nat, d: nat)
    requires forall i :: 0 <= i < |b| ==> b[i].amount > 0
    requires ClearsTo(b, supply, c) && d <= |b|
    ensures c < d ==> Amounts(b[..d]) > Floor(supply)
  {
    if c < d {
      AmountsRise(b, c + 1, d);
      assert b[..c + 1][..c] == b[..c];
    }
  }

  lemma {:induction false} AmountsRise(b: seq<Offer>, c: nat, d: nat)
    requires c <= d <= |b| && forall i :: 0 <= i < |b| ==> b[i].amount > 0
    ensures Amounts(b[..c]) <= Amounts(b[..d])
    decreases d
  {
    if c < d {
      AmountsRise(b, c, d - 1);
      assert b[..d][..d - 1] == b[..d - 1];
    }
  }

  /** The book left once the first `c` offers are gone and the next one has sold `sold`. */
  ghost function Remaining(b: seq<Offer>, c: nat, sold: int): seq<Offer>
    requires c < |b| && 0 <= sold <= b[c].amount
  {
    (if b[c].amount > sold then [b[c].(amount := b[c].amount - sold)] else []) + b[c + 1..]
  }

  lemma {:induction false} AmountsConcat(a: seq<Offer>, b: seq<Offer>)
    ensures Amounts(a + b) == Amounts(a) + Amounts(b)
    decreases |b|
  {
    if b == [] {
      assert a + b == a;
    } else {
      AmountsConcat(a, b[..|b| - 1]);
      assert (a + b)[..|a + b| - 1] == a + b[..|b| - 1];
    }
  }

  lemma AmountsOne(o: Offer)
    ensures Amounts([o]) == o.amount
  {
    assert [o][..0] == [];
  }

  lemma AmountsCut(b: seq<Offer>, c: nat)
    requires c < |b|
    ensures Amounts(b) == Amounts(b[..c]) + b[c].amount + Amounts(b[c + 1..])
  {
    var front, back := b[..c + 1], b[c + 1..];
    Rejoin(b, c + 1);
    AmountsConcat(front, back);
    assert front[..c] == b[..c];
  }

  /** What the book gives up is what was sold. */
  lemma RemainingAmounts(b: seq<Offer>, c: nat, sold: nat)
    requires c < |b| && sold <= b[c].amount
    ensures Amounts(b) == Amounts(b[..c]) + sold + Amounts(Remaining(b, c, sold))
  {
    var tail := b[c + 1..];
    AmountsCut(b, c);
    if b[c].amount > sold {
      var left := b[c].(amount := b[c].amount - sold);
      AmountsOne(left);
      AmountsConcat([left], tail);
    } else {
      assert Remaining(b, c, sold) == tail;
    }
  }

  /** After splitting at the rounded-down supply, the next offer covers the rounded-up rest. */
  lemma PartialFits(b: seq<Offer>, supply: nat, c: nat)
    requires ClearsTo(b, supply, c) && 0 <= Amounts(b[..c])
    ensures Amounts(b[..c]) * RADIX <= supply
    ensures c < |b| ==> Ceil(supply - Amounts(b[..c]) * RADIX) <= b[c].amount
  {
    CeilMinus(supply, Amounts(b[..c]));
  }

  // ---- Rebuilding the book around the threshold offer ----------------------------------------------------------------

  lemma ListSplit(n: Node<Offer>, rest: Node<Offer>, split: Node<Offer>)
    requires BookOk(n) && SplitTrie(n, KEY_LEN, rest, split)
    ensures EntriesOk(rest) && EntriesOk(split)
    ensures OfferList(n) == OfferList(split) + OfferList(rest)
    ensures forall k :: Get(rest, k).Some? ==> Get(rest, k) == Get(n, k)
    ensures forall k :: Get(split, k).Some? ==> Get(split, k) == Get(n, k)
  {
    ValuesConcat(Leaves(split), Leaves(rest));
    forall k | Get(rest, k).Some? ensures Get(rest, k) == Get(n, k) {
      PresentLeaf(rest, KEY_LEN, k);
      LeafPresent(n, KEY_LEN, Item(k, Get(rest, k).value));
    }
    forall k | Get(split, k).Some? ensures Get(split, k) == Get(n, k) {
      PresentLeaf(split, KEY_LEN, k);
      LeafPresent(n, KEY_LEN, Item(k, Get(split, k).value));
    }
    EntriesSubset(rest, n);
    EntriesSubset(split, n);
  }

  lemma EntriesSubset(m: Node<Offer>, n: Node<Offer>)
    requires EntriesOk(n)
    requires forall k :: Get(m, k).Some? ==> Get(m, k) == Get(n, k)
    ensures EntriesOk(m)
  {
    forall k | k in Contents(m) ensures EntryOk(k, Contents(m)[k]) {
      assert Get(m, k) == Get(n, k);
    }
  }

  lemma ListDelete(n: Node<Offer>, r: Node<Offer>, c: nat)
    requires BookOk(n) && BookOk(r) && c < |OfferList(n)|
    requires Contents(r) == Contents(n) - {OfferKey(OfferList(n)[c])}
    ensures OfferList(r) == OfferList(n)[..c] + OfferList(n)[c + 1..]
  {
    var b := OfferList(n);
    var d := b[..c] + b[c + 1..];
    ListOrdered(n);
    ListOrdered(r);
    WithoutIndexOrder(b, c);
    forall o ensures o in OfferList(r) <==> o in d {
      ListMember(n, o);
      ListMember(r, o);
      WithoutIndex(b, c, o);
    }
    OrderedUnique(OfferList(r), d);
  }

  lemma WithoutIndexOrder(b: seq<Offer>, c: nat)
    requires BookOrder(b) && c < |b|
    ensures BookOrder(b[..c] + b[c + 1..])
  {
  }

  lemma WithoutIndex(b: seq<Offer>, c: nat, o: Offer)
    requires BookOrder(b) && c < |b|
    ensures o in b[..c] + b[c + 1..] <==> o in b && OfferKey(o) != OfferKey(b[c])
  {
    MemberSplit(b, c, o);
    FrontKeys(b, c, o);
    BackKeys(b, c, o);
  }

  lemma MemberSplit<T>(b: seq<T>, c: nat, o: T)
    requires c < |b|
    ensures o in b <==> o in b[..c] || o == b[c] || o in b[c + 1..]
  {
    assert b == b[..c] + [b[c]] + b[c + 1..];
  }

  lemma FrontKeys(b: seq<Offer>, c: nat, o: Offer)
    requires BookOrder(b) && c < |b|
    ensures o in b[..c] ==> OfferKey(o) != OfferKey(b[c])
  {
    var front := b[..c];
    if o in front {
      var i :| 0 <= i < |front| && front[i] == o;
      DistinctKeys(b, i, c);
    }
  }

  lemma BackKeys(b: seq<Offer>, c: nat, o: Offer)
    requires BookOrder(b) && c < |b|
    ensures o in b[c + 1..] ==> OfferKey(o) != OfferKey(b[c])
  {
    var back := b[c + 1..];
    if o in back {
      var i :| 0 <= i < |back| && back[i] == o;
      DistinctKeys(b, c + 1 + i, c);
    }
  }

  lemma DistinctKeys(b: seq<Offer>, i: nat, j: nat)
    requires BookOrder(b) && i < |b| && j < |b| && i != j
    ensures OfferKey(b[i]) != OfferKey(b[j])
  {
    if i < j {
      BeforeAsymmetric(OfferKey(b[i]), OfferKey(b[j]));
    } else {
      BeforeAsymmetric(OfferKey(b[j]), OfferKey(b[i]));
    }
  }

  lemma SameIndex(b: seq<Offer>, i: nat, j: nat)
    requires BookOrder(b) && i < |b| && j < |b|
    ensures OfferKey(b[i]) == OfferKey(b[j]) ==> i == j
  {
    if i != j {
      DistinctKeys(b, i, j);
    }
  }

  /** An offer is among the first `c` exactly when its index is below `c`. */
  lemma InFront(b: seq<Offer>, i: nat, c: nat)
    requires BookOrder(b) && i < |b| && c <= |b|
    ensures b[i] in b[..c] <==> i < c
  {
    var f := b[..c];
    if b[i] in f {
      var j :| 0 <= j < |f| && f[j] == b[i];
      SameIndex(b, i, j);
    }
    if i < c {
      assert f[i] == b[i];
    }
  }

  lemma ListInsertFront(n: Node<Offer>, r: Node<Offer>, o: Offer)
    requires BookOk(n) && BookOk(r)
    requires Contents(r) == Contents(n)[OfferKey(o) := Fresh(o, 0)]
    requires forall i :: 0 <= i < |OfferList(n)| ==> Before(OfferKey(o), OfferKey(OfferList(n)[i]))
    ensures OfferList(r) == [o] + OfferList(n)
  {
    var b := OfferList(n);
    var d := [o] + b;
    ListOrdered(n);
    ListOrdered(r);
    forall x ensures x in OfferList(r) <==> x in d {
      InsertedMember(n, r, o, x);
    }
    assert BookOrder(d);
    OrderedUnique(OfferList(r), d);
  }

  lemma InsertedMember(n: Node<Offer>, r: Node<Offer>, o: Offer, x: Offer)
    requires BookOk(n) && BookOk(r)
    requires Contents(r) == Contents(n)[OfferKey(o) := Fresh(o, 0)]
    requires forall i :: 0 <= i < |OfferList(n)| ==> Before(OfferKey(o), OfferKey(OfferList(n)[i]))
    ensures x in OfferList(r) <==> x == o || x in OfferList(n)
  {
    ListMember(n, x);
    ListMember(r, x);
    var b := OfferList(n);
    forall i | 0 <= i < |b| ensures OfferKey(b[i]) != OfferKey(o) {
      BeforeAsymmetric(OfferKey(o), OfferKey(b[i]));
    }
  }

  lemma EntriesInsert(n: Node<Offer>, r: Node<Offer>, o: Offer)
    requires EntriesOk(n) && OfferOk(o)
    requires Contents(r) == Contents(n)[OfferKey(o) := Fresh(o, 0)]
    ensures EntriesOk(r)
  {
  }

  lemma EntriesDelete(n: Node<Offer>, r: Node<Offer>, k: Key)
    requires EntriesOk(n) && Contents(r) == Contents(n) - {k}
    ensures EntriesOk(r)
  {
  }

  /** A trie split off below `key` has its single-child branches on the path to `key`. */
  lemma SplitBelow(n: Node<Offer>, rest: Node<Offer>, split: Node<Offer>, key: Key)
    requires BookOk(n) && SplitTrie(n, KEY_LEN, rest, split) && |key| == KEY_LEN
    requires forall i :: 0 <= i < |Leaves(split)| ==> Before(Leaves(split)[i].key, key)
    requires forall i :: 0 <= i < |Leaves(rest)| ==> !Before(Leaves(rest)[i].key, key)
    ensures split.Empty? || PathOnly(split, key)
  {
    if !split.Empty? {
      var ks := Contents(n).Keys;
      ListSplit(n, rest, split);
      forall k | k in ks ensures |k| == KEY_LEN && (Get(split, k).Some? <==> Before(k, key)) {
        ContentsUnder(n, KEY_LEN, k);
        PresentLeaf(n, KEY_LEN, k);
        var x := Item(k, Get(n, k).value);
        assert x in Leaves(split) || x in Leaves(rest);
        if x in Leaves(split) {
          LeafPresent(split, KEY_LEN, x);
        } else if Get(split, k).Some? {
          PresentLeaf(split, KEY_LEN, k);
        }
      }
      SplitOffPathOnly(split, KEY_LEN, ks, key);
    }
  }

  // ---- The threshold offer ---------------------------------------------------------------------------------------

  /** Inserts an offer in a fresh leaf that is not provisional. */
  method PutIn(n: Node<Offer>, o: Offer) returns (r: Node<Offer>)
    requires BookOk(n) && OfferOk(o)
    ensures BookOk(r) && Contents(r) == Contents(n)[OfferKey(o) := Fresh(o, 0)]
  {
    var delta;
    r, delta := Insert(n, KEY_LEN, OfferKey(o), Fresh(o, 0));
    EntriesInsert(n, r, o);
  }

  /** Puts the threshold offer back with what it has not sold, unless it sold out. */
  method Reinsert(n: Node<Offer>, o: Offer, sold: nat) returns (r: Node<Offer>)
    requires BookOk(n) && OfferOk(o) && sold <= o.amount
    requires forall i :: 0 <= i < |OfferList(n)| ==> Before(OfferKey(o), OfferKey(OfferList(n)[i]))
    ensures BookOk(r)
    ensures OfferList(r) == (if o.amount > sold then [o.(amount := o.amount - sold)] else []) + OfferList(n)
    ensures Contents(r) ==
            if o.amount > sold then Contents(n)[OfferKey(o) := Fresh(o.(amount := o.amount - sold), 0)] else Contents(n)
  {
    r := n;
    if o.amount > sold {
      var left := o.(amount := o.amount - sold);
      assert OfferKey(left) == OfferKey(o);
      r := PutIn(n, left);
      ListInsertFront(n, r, left);
    }
  }

  /** Takes the offer with key `k` out of the book, if it is there. */
  method TakeOut(n: Node<Offer>, k: Key) returns (found: Option<Offer>, r: Node<Offer>, ghost c: nat)
    requires BookOk(n) && |k| == KEY_LEN
    ensures BookOk(r) && Contents(r) == Contents(n) - {k}
    ensures found.None? ==> r == n && k !in OfferMap(n)
    ensures found.Some? ==> k in OfferMap(n) && OfferMap(n)[k] == found.value && OfferOk(found.value)
    ensures found.Some? ==> c < |OfferList(n)| && OfferList(n)[c] == found.value && OfferKey(found.value) == k
    ensures found.Some? ==> OfferList(r) == OfferList(n)[..c] + OfferList(n)[c + 1..]
  {
    BookFacts(n);
    var e;
    e, r := Delete(n, KEY_LEN, k);
    EntriesDelete(n, r, k);
    if e.None? {
      CanonTrieUnique(r, n, KEY_LEN);
      return None, n, 0;
    }
    found := Some(e.value.value);
    ListMember(n, found.value);
    c :| 0 <= c < |OfferList(n)| && OfferList(n)[c] == found.value;
    ListDelete(n, r, c);
  }
}
