/**
 Clearing the book: by the producer, from an activated supply; by a validator, from the block's record of it.
 */
module Clearing {
  import opened Keys
  import opened FixedPoint
  import opened Trie
  import opened TrieMerge
  import opened TrieOrder
  import opened TrieSplit
  import opened TrieThreshold
  import opened TrieClean
  import opened TrieQueries
  import opened Offers
  import opened OrderBook

  /** The threshold key a record without a partially executed offer carries in memory: all ones. */
  function MaxKey(): (k: Key)
    ensures |k| == KEY_LEN
  {
    seq(KEY_LEN, _ => 15)
  }

  /** No key is greater. */
  lemma MaxKeyGreatest(k: Key)
    requires |k| == KEY_LEN
    ensures k != MaxKey() ==> Before(k, MaxKey())
  {
    var m := MatchLen(k, MaxKey());
    if m == KEY_LEN {
      assert k == k[..m] == MaxKey()[..m] == MaxKey();
    }
  }

  function ThresholdOf(partial: Option<Partial>): Key {
    if partial.Some? then partial.value.key else MaxKey()
  }

  /** `cleared` can be repaired along the path to the threshold key and merged back. */
  ghost predicate ClearedOk(cleared: Node<Offer>, partial: Option<Partial>) {
    && EntriesOk(cleared)
    && (cleared.Empty? || (Shaped(cleared, KEY_LEN) && PathOnly(cleared, ThresholdOf(partial))))
  }

  /** `m` holds nothing but leaves of `n`, marks included, and possibly a fresh leaf under `key`. */
  ghost predicate LeavesFrom(m: Node<Offer>, n: Node<Offer>, key: Option<Key>) {
    forall k :: Get(m, k).Some? ==>
      Get(m, k) == Get(n, k) || (key == Some(k) && Get(m, k).value == Fresh(Get(m, k).value.value, 0))
  }

  function KeyOf(partial: Option<Partial>): Option<Key> {
    if partial.Some? then Some(partial.value.key) else None
  }

  /** Book `n` cleared after its first `c` offers, the next one having sold `sold`. */
  ghost predicate ClearedAt(n: Node<Offer>, c: nat, sold: nat, rest: Node<Offer>, cleared: Node<Offer>, partial: Option<Partial>) {
    var b := OfferList(n);
    && c <= |b|
    && BookOk(rest) && ClearedOk(cleared, partial)
    && OfferList(cleared) == b[..c]
    && LeavesFrom(cleared, n, None) && LeavesFrom(rest, n, KeyOf(partial))
    && (if c < |b| then
          && sold <= b[c].amount
          && partial == Some(Partial(OfferKey(b[c]), sold, b[c]))
          && OfferList(rest) == Remaining(b, c, sold)
        else
          partial == None && rest == Empty)
  }

  // ---- Facts about a split ---------------------------------------------------------------------------------------

  lemma {:induction false} AmountsNonNegative(b: seq<Offer>)
    ensures Amounts(b) >= 0
  {
    if b != [] {
      AmountsNonNegative(b[..|b| - 1]);
    }
  }

  lemma CompactPathOnly<V>(n: Node<V>, key: Key)
    requires Compact(n)
    ensures PathOnly(n, key)
  {
    if n.Branch? {
      forall c | c in n.children ensures PathOnly(c, key) {
        CompactPathOnly(c, key);
      }
    }
  }

  /** In a split, the first remaining leaf separates what was taken from what is left. */
  lemma SplitAtFirst(n: Node<Offer>, rest: Node<Offer>, split: Node<Offer>)
    requires BookOk(n) && SplitTrie(n, KEY_LEN, rest, split) && Leaves(rest) != []
    ensures var key := Leaves(rest)[0].key;
            && |key| == KEY_LEN
            && (split.Empty? || PathOnly(split, key))
  {
    var s, t := Leaves(split), Leaves(rest);
    var key := t[0].key;
    LeavesSorted(n, KEY_LEN);
    LeafPresent(rest, KEY_LEN, t[0]);
    ContentsUnder(rest, KEY_LEN, key);
    forall i | 0 <= i < |s| ensures Before(s[i].key, key) {
      assert Leaves(n)[i] == s[i] && Leaves(n)[|s|] == t[0];
    }
    forall i | 0 <= i < |t| ensures !Before(t[i].key, key) {
      assert Leaves(n)[|s| + i] == t[i] && Leaves(n)[|s|] == t[0];
      if i > 0 {
        BeforeAsymmetric(key, t[i].key);
      } else {
        BeforeIrreflexive(key);
      }
    }
    SplitBelow(n, rest, split, key);
  }

  lemma SplitClearsTo(n: Node<Offer>, supply: nat, rest: Node<Offer>, split: Node<Offer>)
    requires BookOk(n) && SplitTrie(n, KEY_LEN, rest, split)
    requires MetaOf(split).endow <= Floor(supply)
    requires !rest.Empty? ==> LongestRun(Leaves(split), Leaves(rest), Floor(supply))
    ensures var b, c := OfferList(n), |OfferList(split)|;
            && c <= |b| && b[..c] == OfferList(split) && b[c..] == OfferList(rest)
            && ClearsTo(b, supply, c) && Amounts(b[..c]) == MetaOf(split).endow
    ensures !rest.Empty? ==> Leaves(rest) != [] && OfferList(rest)[0] == Leaves(rest)[0].entry.value
  {
    ListSplit(n, rest, split);
    EndowIsAmounts(split);
    CachedTotal(split, KEY_LEN);
    if Leaves(rest) != [] {
      FirstRemaining(rest);
    }
    ClearsFront(OfferList(n), OfferList(split), OfferList(rest), supply);
  }

  lemma FirstRemaining(rest: Node<Offer>)
    requires (rest.Empty? || Shaped(rest, KEY_LEN)) && EntriesOk(rest) && Leaves(rest) != []
    ensures OfferList(rest) != [] && OfferList(rest)[0] == Leaves(rest)[0].entry.value
    ensures Leaves(rest)[0].entry.meta.endow == OfferList(rest)[0].amount
  {
    LeavesFiled(rest);
  }

  lemma ClearsFront(all: seq<Offer>, b: seq<Offer>, d: seq<Offer>, supply: nat)
    requires all == b + d
    requires Amounts(b) <= Floor(supply) && (d != [] ==> Amounts(b) + d[0].amount > Floor(supply))
    ensures all[..|b|] == b && all[|b|..] == d && ClearsTo(all, supply, |b|)
  {
    assert all[..|b|] == b;
  }

  // ---- The producer ------------------------------------------------------------------------------------------------

  /** The book after `endow_split` at the rounded-down supply; `left` is still to be sold by the next offer. */
  ghost predicate AfterSplit(n: Node<Offer>, supply: nat, rest: Node<Offer>, cleared: Node<Offer>, c: nat, left: nat) {
    var b := OfferList(n);
    && SplitTrie(n, KEY_LEN, rest, cleared)
    && BookOk(rest) && EntriesOk(cleared)
    && LeavesFrom(rest, n, None) && LeavesFrom(cleared, n, None)
    && ClearsTo(b, supply, c)
    && OfferList(cleared) == b[..c] && OfferList(rest) == b[c..]
    && left == supply - Amounts(b[..c]) * RADIX
    && (c < |b| ==> Ceil(left) <= b[c].amount)
    && (c < |b| <==> !rest.Empty?)
  }

  method SplitSupply(n: Node<Offer>, supply: nat)
    returns (ok: bool, rest: Node<Offer>, cleared: Node<Offer>, left: nat, ghost c: nat)
    requires BookOk(n)
    ensures ok <==> Floor(supply) <= MetaOf(n).endow
    ensures ok ==> AfterSplit(n, supply, rest, cleared, c, left)
  {
    BookFacts(n);
    ok, rest, cleared := EndowSplit(n, KEY_LEN, Floor(supply));
    if !ok {
      return false, rest, cleared, 0, 0;
    }
    SplitClearsTo(n, supply, rest, cleared);
    ListSplit(n, rest, cleared);
    c := |OfferList(cleared)|;
    AmountsNonNegative(OfferList(n)[..c]);
    PartialFits(OfferList(n), supply, c);
    left := supply - FromIntegral(MetaOf(cleared).endow);
  }

  /** A remainder is left over only when the supply exceeds the whole book. */
  lemma SupplyCovered(n: Node<Offer>, supply: nat, rest: Node<Offer>, cleared: Node<Offer>, c: nat, left: nat)
    requires BookOk(n) && AfterSplit(n, supply, rest, cleared, c, left)
    ensures Amounts(OfferList(n)[..c]) * RADIX <= supply
    ensures supply <= MetaOf(n).endow * RADIX <==> (rest.Empty? ==> left == 0)
  {
    var b := OfferList(n);
    EndowIsAmounts(n);
    if rest.Empty? {
      assert b[..c] == b;
    } else {
      AmountsCut(b, c);
      AmountsNonNegative(b[c + 1..]);
    }
  }

  /** `CompleteClearingFunc` on every offer of a trie; not `ok` stands for a throw. Payments are not modelled. */
  method Settle(n: Node<Offer>, market: Market) returns (ok: bool)
    requires n.Empty? || Shaped(n, KEY_LEN)
    ensures ok <==> AllSettle(OfferList(n), market)
    ensures ok <==> forall o :: o in OfferList(n) ==>
              o.owner in market.accounts && o.minPrice * market.buy <= market.sell * 0x100_0000
  {
    var b := AccumulateValues(n, KEY_LEN);
    for i := 0 to |b|
      invariant forall j :: 0 <= j < i ==> Settles(b[j], market)
    {
      if !Settles(b[i], market) {
        return false;
      }
    }
    ok := true;
  }

  /** The supply is within 64 bits and within what is on offer. */
  ghost predicate SupplyFits(n: Node<Offer>, supply: nat) {
    Floor(supply) <= 0x7FFF_FFFF_FFFF_FFFF && supply <= MetaOf(n).endow * RADIX
  }

  /**
   `process_clear_offers`; not `ok` stands for one of its throws. They happen exactly when the supply exceeds what is
   on offer or the 64-bit range, an offer to be cleared has a price above the rate or an unknown owner, or the owner of
   the threshold offer is unknown. The throws that guard the partially executed offer's amount never fire. The offers
   cleared are the cheapest, at one price those of the smallest owners, and of one owner those of the smallest ids.
   */
  method ProcessClearOffers(n: Node<Offer>, supply: nat, market: Market)
    returns (ok: bool, rest: Node<Offer>, cleared: Node<Offer>, partial: Option<Partial>, rec: Commitment, ghost c: nat)
    requires BookOk(n)
    ensures SupplyFits(n, supply) ==> ClearsTo(OfferList(n), supply, c)
    ensures ok <==> SupplyFits(n, supply) && CanSettle(OfferList(n), c, market)
    ensures ok ==> Produced(n, supply, rest, cleared, partial, rec, c)
    ensures ok ==> forall x, y :: x in OfferList(cleared) && y in OfferList(rest) && WideIds(x) && WideIds(y) ==>
              || x.minPrice < y.minPrice
              || (x.minPrice == y.minPrice && x.owner < y.owner)
              || (x.minPrice == y.minPrice && x.owner == y.owner && x.offerId < y.offerId)
  {
    rest, cleared, partial, rec, c := n, Empty, None, Commitment(supply, ZeroKey, 0, true), 0;
    ok := false;
    if Floor(supply) <= INT64_MAX {
      var enough, r, left;
      enough, r, cleared, left, c := SplitSupply(n, supply);
      if enough {
        SupplyCovered(n, supply, r, cleared, c, left);
        var settled := Settle(cleared, market);
        if settled {
          ok, rest, partial, rec := FinishClearing(n, supply, r, cleared, c, left, market);
          if ok {
            ClearedFirst(n, c, Ceil(rec.partialRaw), rest, cleared, partial);
          }
        }
      }
    }
  }

  /** Cleared offers precede those left, in price, owner and id. */
  lemma ClearedFirst(n: Node<Offer>, c: nat, sold: nat, rest: Node<Offer>, cleared: Node<Offer>, partial: Option<Partial>)
    requires BookOk(n) && ClearedAt(n, c, sold, rest, cleared, partial)
    ensures forall x, y :: x in OfferList(cleared) && y in OfferList(rest) && WideIds(x) && WideIds(y) ==>
              || x.minPrice < y.minPrice
              || (x.minPrice == y.minPrice && x.owner < y.owner)
              || (x.minPrice == y.minPrice && x.owner == y.owner && x.offerId < y.offerId)
  {
    var b := OfferList(n);
    ListOrdered(n);
    forall x, y | x in OfferList(cleared) && y in OfferList(rest) && WideIds(x) && WideIds(y)
      ensures || x.minPrice < y.minPrice
              || (x.minPrice == y.minPrice && x.owner < y.owner)
              || (x.minPrice == y.minPrice && x.owner == y.owner && x.offerId < y.offerId)
    {
      var i :| 0 <= i < c && b[i] == x;
      var j := RestIndex(b, c, sold, y, OfferList(rest));
      KeyOrder(x, b[j]);
    }
  }

  /** An offer left is an offer of the book, but for its amount. */
  lemma RestIndex(b: seq<Offer>, c: nat, sold: nat, y: Offer, rest: seq<Offer>) returns (j: nat)
    requires c <= |b| && y in rest
    requires if c < |b| then sold <= b[c].amount && rest == Remaining(b, c, sold) else rest == []
    ensures c <= j < |b| && y == b[j].(amount := y.amount)
  {
    if y in b[c + 1..] {
      var l :| 0 <= l < |b[c + 1..]| && b[c + 1..][l] == y;
      j := c + 1 + l;
    } else {
      j := c;
    }
  }

  /** The part of `process_clear_offers` after the split: the threshold offer and the record. */
  method FinishClearing(n: Node<Offer>, supply: nat, r: Node<Offer>, cleared: Node<Offer>, ghost c: nat, left: nat, market: Market)
    returns (ok: bool, rest: Node<Offer>, partial: Option<Partial>, rec: Commitment)
    requires BookOk(n) && AfterSplit(n, supply, r, cleared, c, left)
    requires Amounts(OfferList(n)[..c]) * RADIX <= supply && Floor(supply) <= INT64_MAX
    ensures ok <==> if c < |OfferList(n)| then OfferList(n)[c].owner in market.accounts else left == 0
    ensures ok ==> Produced(n, supply, rest, cleared, partial, rec, c)
  {
    rest, partial, rec := r, None, Commitment(supply, ZeroKey, left, true);
    var key := GetLowestKey(r, KEY_LEN);
    if key.None? {
      NoLeaves(r);
      ok := left == 0;
      if ok {
        WholeCleared(n, r, cleared);
      }
    } else {
      FirstKey(r, key.value);
      AmountsNonNegative(OfferList(n)[..c]);
      SmallSupply(left, supply);
      ok, rest, partial := ClearThreshold(n, supply, r, cleared, c, left, key.value);
      ok := partial.value.before.owner in market.accounts;
      rec := Commitment(supply, key.value, left, false);
    }
  }

  /** What the producer leaves behind: the cleared run, the threshold offer's share and the record of both. */
  ghost predicate Produced(
    n: Node<Offer>, supply: nat, rest: Node<Offer>, cleared: Node<Offer>, partial: Option<Partial>, rec: Commitment, c: nat)
  {
    var b := OfferList(n);
    && ClearsTo(b, supply, c)
    && Floor(supply) <= INT64_MAX && Amounts(b[..c]) * RADIX <= supply
    && rec == Commitment(supply, if c < |b| then OfferKey(b[c]) else ZeroKey, supply - Amounts(b[..c]) * RADIX, c == |b|)
    && ClearedAt(n, c, Ceil(rec.partialRaw), rest, cleared, partial)
    && (c == |b| ==> rec.partialRaw == 0)
  }

  method ClearThreshold(
    n: Node<Offer>, supply: nat, rest: Node<Offer>, cleared: Node<Offer>, ghost c: nat, left: nat, key: Key)
    returns (ok: bool, r: Node<Offer>, partial: Option<Partial>)
    requires BookOk(n) && AfterSplit(n, supply, rest, cleared, c, left)
    requires Leaves(rest) != [] && key == Leaves(rest)[0].key && |key| == KEY_LEN && SellAmount(left) == Ceil(left)
    ensures ok && c < |OfferList(n)| && key == OfferKey(OfferList(n)[c])
    ensures ClearedAt(n, c, Ceil(left), r, cleared, partial)
  {
    FirstLeft(OfferList(n), OfferList(rest), c);
    var o;
    ok, o, r := SellLowest(rest, key, SellAmount(left));
    partial := Some(Partial(key, SellAmount(left), o));
    ThresholdCleared(n, rest, cleared, c, Ceil(left), key, r);
  }

  lemma FirstLeft(b: seq<Offer>, rest: seq<Offer>, c: nat)
    requires c <= |b| && rest == b[c..] && rest != []
    ensures c < |b| && rest[0] == b[c]
    ensures forall sold | 0 <= sold <= b[c].amount :: Remaining(rest, 0, sold) == Remaining(b, c, sold)
  {
    assert b[c..][1..] == b[c + 1..];
  }

  lemma ThresholdCleared(n: Node<Offer>, rest: Node<Offer>, cleared: Node<Offer>, c: nat, sold: nat, key: Key, r: Node<Offer>)
    requires BookOk(n) && SplitTrie(n, KEY_LEN, rest, cleared) && EntriesOk(cleared)
    requires c < |OfferList(n)| && sold <= OfferList(n)[c].amount
    requires LeavesFrom(rest, n, None) && LeavesFrom(cleared, n, None) && OfferList(cleared) == OfferList(n)[..c]
    requires Leaves(rest) != [] && key == Leaves(rest)[0].key == OfferKey(OfferList(n)[c])
    requires BookOk(r) && LeavesFrom(r, rest, Some(key)) && OfferList(r) == Remaining(OfferList(n), c, sold)
    ensures ClearedAt(n, c, sold, r, cleared, Some(Partial(key, sold, OfferList(n)[c])))
  {
    SplitAtFirst(n, rest, cleared);
    FromTrans(r, rest, n, Some(key));
  }

  lemma FirstKey(n: Node<Offer>, key: Key)
    requires CanonTrie(n, KEY_LEN) && Leaves(n) != [] && key == Leaves(n)[0].key
    ensures |key| == KEY_LEN
  {
    LeafPresent(n, KEY_LEN, Leaves(n)[0]);
    ContentsUnder(n, KEY_LEN, key);
  }

  lemma NoLeaves(n: Node<Offer>)
    requires CanonTrie(n, KEY_LEN) && Leaves(n) == []
    ensures n.Empty?
  {
    if !n.Empty? {
      NonEmptyLeaves(n, KEY_LEN);
    }
  }

  lemma WholeCleared(n: Node<Offer>, rest: Node<Offer>, cleared: Node<Offer>)
    requires BookOk(n) && SplitTrie(n, KEY_LEN, rest, cleared) && rest.Empty?
    ensures ClearedOk(cleared, None)
  {
    ListSplit(n, rest, cleared);
    if !cleared.Empty? {
      var key := MaxKey();
      assert Leaves(cleared) + [] == Leaves(cleared);
      forall k ensures Get(cleared, k) == Get(n, k) {
        if Get(n, k).Some? {
          PresentLeaf(n, KEY_LEN, k);
          LeafPresent(cleared, KEY_LEN, Item(k, Get(n, k).value));
        }
      }
      SameContents(cleared, n);
      JustifiedCompact(cleared, KEY_LEN, Contents(n).Keys);
      CompactPathOnly(cleared, key);
    }
  }

  /** Partially executes the cheapest offer left. */
  method SellLowest(n: Node<Offer>, key: Key, sold: nat) returns (ok: bool, o: Offer, r: Node<Offer>)
    requires BookOk(n) && Leaves(n) != [] && key == Leaves(n)[0].key && |key| == KEY_LEN
    requires sold <= OfferList(n)[0].amount
    ensures ok && o == OfferList(n)[0] && OfferKey(o) == key && BookOk(r)
    ensures OfferList(r) == Remaining(OfferList(n), 0, sold)
    ensures LeavesFrom(r, n, Some(key))
  {
    ghost var b := OfferList(n);
    var taken;
    o, taken := TakeLowest(n, key);
    ok := true;
    ListOrdered(n);
    AboveThreshold(b, 0, OfferList(taken));
    r := Reinsert(taken, o, sold);
    ReinsertedFrom(n, taken, r, key, o, sold);
  }

  method TakeLowest(n: Node<Offer>, key: Key) returns (o: Offer, taken: Node<Offer>)
    requires BookOk(n) && Leaves(n) != [] && key == Leaves(n)[0].key && |key| == KEY_LEN
    ensures o == OfferList(n)[0] && OfferKey(o) == key && OfferOk(o)
    ensures BookOk(taken) && OfferList(taken) == OfferList(n)[1..] && LeavesFrom(taken, n, None)
  {
    ghost var b := OfferList(n);
    LowestFiled(n, key);
    var found;
    ghost var c;
    found, taken, c := TakeOut(n, key);
    o := found.value;
    ListOrdered(n);
    SameIndex(b, c, 0);
    assert b[..0] + b[1..] == b[1..];
  }

  lemma LowestFiled(n: Node<Offer>, key: Key)
    requires BookOk(n) && Leaves(n) != [] && key == Leaves(n)[0].key
    ensures key in OfferMap(n) && OfferKey(OfferList(n)[0]) == key
  {
    LeavesFiled(n);
    LeafPresent(n, KEY_LEN, Leaves(n)[0]);
  }

  lemma ReinsertedFrom(n: Node<Offer>, taken: Node<Offer>, r: Node<Offer>, key: Key, o: Offer, sold: nat)
    requires sold <= o.amount && LeavesFrom(taken, n, None) && OfferKey(o) == key
    requires Contents(r) ==
             if o.amount > sold then Contents(taken)[key := Fresh(o.(amount := o.amount - sold), 0)] else Contents(taken)
    ensures LeavesFrom(r, n, Some(key))
  {
    forall k | Get(r, k).Some?
      ensures Get(r, k) == Get(n, k) || (k == key && Get(r, k).value == Fresh(Get(r, k).value.value, 0))
    {
      if !(k == key && o.amount > sold) {
        assert Get(r, k) == Get(taken, k);
      }
    }
  }

  lemma FromTrans(r: Node<Offer>, m: Node<Offer>, n: Node<Offer>, key: Option<Key>)
    requires LeavesFrom(r, m, key) && LeavesFrom(m, n, None)
    ensures LeavesFrom(r, n, key)
  {
    forall k | Get(r, k).Some?
      ensures Get(r, k) == Get(n, k) || (key == Some(k) && Get(r, k).value == Fresh(Get(r, k).value.value, 0))
    {
      if Get(r, k) == Get(m, k) {
        assert Get(m, k) == Get(n, k);
      }
    }
  }

  /** The endowment of the book drops by exactly the activated supply, rounded up. */
  lemma SupplyConserved(
    n: Node<Offer>, supply: nat, rest: Node<Offer>, cleared: Node<Offer>, partial: Option<Partial>, rec: Commitment, c: nat)
    requires BookOk(n) && Produced(n, supply, rest, cleared, partial, rec, c)
    ensures MetaOf(n).endow == MetaOf(rest).endow + Ceil(supply)
  {
    var b := OfferList(n);
    EndowIsAmounts(n);
    EndowIsAmounts(rest);
    AmountsNonNegative(b[..c]);
    CeilMinus(supply, Amounts(b[..c]));
    if c < |b| {
      RemainingAmounts(b, c, Ceil(rec.partialRaw));
    } else {
      assert b[..c] == b;
    }
  }

  // ---- The validator -----------------------------------------------------------------------------------------------

  /**
   The record is consistent with the book: its threshold offer exists, has a known owner and can sell the low 64 bits of
   its share; or there is none, and the record says so.
   */
  ghost predicate RecordFits(b: map<Key, Offer>, rec: Commitment, accounts: set<nat>) {
    if rec.thresholdKey in b then
      b[rec.thresholdKey].owner in accounts && SellAmount(rec.partialRaw) <= b[rec.thresholdKey].amount
    else rec.thresholdKey == ZeroKey && rec.partialRaw == 0
  }

  /** `b` is an ordered book, and `s` lists it leaf by leaf. */
  ghost predicate Lists(s: seq<Item<Offer>>, b: seq<Offer>) {
    Filed(s) && Sorted(s) && Values(s) == b
  }

  /** In an ordered book, the offers before the `c`-th are those with a smaller key. */
  lemma BelowIndex(s: seq<Item<Offer>>, b: seq<Offer>, c: nat, key: Key)
    requires Lists(s, b) && c <= |b|
    requires forall i :: 0 <= i < |b| ==> (Before(OfferKey(b[i]), key) <==> i < c)
    ensures EndowBefore(s, key) == Amounts(b[..c]) == Total(s[..c]).endow
  {
    forall i | 0 <= i < |s| ensures s[i].key == OfferKey(b[i]) {
      assert b[i] == Values(s)[i];
    }
    BeforeTotalTo(s, key, c);
    TotalIsAmounts(s[..c]);
    assert Values(s[..c]) == b[..c];
  }

  lemma IndexDecides(b: seq<Offer>, c: nat)
    requires BookOrder(b) && c < |b|
    ensures forall i :: 0 <= i < |b| ==> (Before(OfferKey(b[i]), OfferKey(b[c])) <==> i < c)
    ensures var d := b[..c] + b[c + 1..];
            && (forall i :: 0 <= i < |d| ==> (Before(OfferKey(d[i]), OfferKey(b[c])) <==> i < c))
            && (forall i :: c <= i < |d| ==> Before(OfferKey(b[c]), OfferKey(d[i])))
  {
    var k := OfferKey(b[c]);
    forall i | 0 <= i < |b| ensures Before(OfferKey(b[i]), k) <==> i < c {
      if i == c {
        BeforeIrreflexive(k);
      } else if i > c {
        BeforeAsymmetric(k, OfferKey(b[i]));
      }
    }
    var d := b[..c] + b[c + 1..];
    forall i | 0 <= i < |d| ensures d[i] == b[if i < c then i else i + 1] {
    }
  }

  /**
   Splitting at the endowment below a key that has just been taken out splits exactly below that key: the
   "hypothetical split_lt_key" of the source.
   */
  method SplitLtKey(n: Node<Offer>, key: Key, below: nat, ghost b: seq<Offer>, ghost c: nat)
    returns (rest: Node<Offer>, split: Node<Offer>)
    requires BookOk(n) && BookOrder(b) && c < |b| && key == OfferKey(b[c])
    requires OfferList(n) == b[..c] + b[c + 1..] && below == Amounts(b[..c])
    ensures BookOk(rest) && EntriesOk(split)
    ensures OfferList(split) == b[..c] && OfferList(rest) == b[c + 1..]
    ensures split.Empty? || (Shaped(split, KEY_LEN) && PathOnly(split, key))
    ensures LeavesFrom(rest, n, None) && LeavesFrom(split, n, None)
  {
    BookFacts(n);
    ghost var d := b[..c] + b[c + 1..];
    CutParts(b, c);
    EnoughBelow(n, d, c);
    var ok;
    ok, rest, split := EndowSplit(n, KEY_LEN, below);
    ListSplit(n, rest, split);
    SplitAtKey(n, d, c, key, below, rest, split, b);
  }

  lemma CutParts<T>(b: seq<T>, c: nat)
    requires c < |b|
    ensures var d := b[..c] + b[c + 1..]; d[..c] == b[..c] && d[c..] == b[c + 1..]
  {
  }

  lemma SplitAtKey(
    n: Node<Offer>, d: seq<Offer>, c: nat, key: Key, below: nat, rest: Node<Offer>, split: Node<Offer>, b: seq<Offer>)
    requires BookOk(n) && BookOrder(b) && c < |b| && key == OfferKey(b[c]) && d == b[..c] + b[c + 1..]
    requires OfferList(n) == d && below == Amounts(d[..c])
    requires SplitTrie(n, KEY_LEN, rest, split) && EntriesOk(split) && EntriesOk(rest)
    requires OfferList(n) == OfferList(split) + OfferList(rest)
    requires MetaOf(split).endow <= below && (rest.Empty? ==> MetaOf(split).endow == below)
    requires !rest.Empty? ==> LongestRun(Leaves(split), Leaves(rest), below)
    ensures OfferList(split) == d[..c] && OfferList(rest) == d[c..]
    ensures split.Empty? || PathOnly(split, key)
  {
    IndexDecides(b, c);
    assert BelowIs(n, key, c, below) by {
      LeavesFiled(n);
      BelowIndex(Leaves(n), d, c, key);
    }
    SplitAtIndex(n, rest, split, c);
    assert OfferList(split) == d[..c] && OfferList(rest) == d[c..];
    SplitPath(n, d, c, key, rest, split);
  }

  ghost predicate BelowIs(n: Node<Offer>, key: Key, c: nat, below: int) {
    c <= |Leaves(n)| && below == Total(Leaves(n)[..c]).endow
  }

  lemma SplitPath(n: Node<Offer>, d: seq<Offer>, c: nat, key: Key, rest: Node<Offer>, split: Node<Offer>)
    requires BookOk(n) && c <= |d| && |key| == KEY_LEN
    requires SplitTrie(n, KEY_LEN, rest, split) && EntriesOk(split) && EntriesOk(rest)
    requires OfferList(split) == d[..c] && OfferList(rest) == d[c..]
    requires forall i :: 0 <= i < |d| ==> (Before(OfferKey(d[i]), key) <==> i < c)
    ensures split.Empty? || PathOnly(split, key)
  {
    KeysAround(split, d[..c]);
    KeysAround(rest, d[c..]);
    SplitBelow(n, rest, split, key);
  }

  lemma KeysAround(n: Node<Offer>, b: seq<Offer>)
    requires (n.Empty? || Shaped(n, KEY_LEN)) && EntriesOk(n) && OfferList(n) == b
    ensures |Leaves(n)| == |b| && forall i :: 0 <= i < |b| ==> Leaves(n)[i].key == OfferKey(b[i])
  {
    LeavesFiled(n);
    forall i | 0 <= i < |b| ensures Leaves(n)[i].key == OfferKey(b[i]) {
      assert b[i] == Values(Leaves(n))[i];
    }
  }

  lemma EnoughBelow(n: Node<Offer>, d: seq<Offer>, c: nat)
    requires BookOk(n) && OfferList(n) == d && c <= |d|
    ensures Amounts(d[..c]) <= MetaOf(n).endow
  {
    EndowIsAmounts(n);
    AmountsConcat(d[..c], d[c..]);
    Rejoin(d, c);
    AmountsNonNegative(d[c..]);
  }

  lemma SplitAtIndex(n: Node<Offer>, rest: Node<Offer>, split: Node<Offer>, c: nat)
    requires BookOk(n) && SplitTrie(n, KEY_LEN, rest, split) && EntriesOk(split) && c <= |Leaves(n)|
    requires MetaOf(split).endow <= Total(Leaves(n)[..c]).endow
    requires rest.Empty? ==> MetaOf(split).endow == Total(Leaves(n)[..c]).endow
    requires !rest.Empty? ==> LongestRun(Leaves(split), Leaves(rest), Total(Leaves(n)[..c]).endow)
    ensures |Leaves(split)| == c
  {
    BookFacts(n);
    CachedTotal(split, KEY_LEN);
    if !n.Empty? {
      LeavesPositive(n, KEY_LEN);
    }
    RunLength(Leaves(n), Leaves(split), Leaves(rest), c);
  }

  /** How a validation of one book ends. */
  datatype Verdict = Accepted | Rejected | Threw

  /** The record points at the `c`-th offer of the book, or past the last one. */
  ghost predicate PointsAt(b: seq<Offer>, rec: Commitment, c: nat) {
    c <= |b| && if c < |b| then OfferKey(b[c]) == rec.thresholdKey else rec.thresholdKey == ZeroKey && rec.partialRaw == 0
  }

  /**
   `tentative_clear_offers_for_validation`: re-clears the book from the block's record. A record is rejected exactly
   when it does not fit the book, which leaves the offers as they were; a fitting one throws exactly when an offer to be
   cleared does not settle, and otherwise clears the book at the recorded threshold whatever supply it came from.
   */
  method ClearForValidation(n: Node<Offer>, rec: Commitment, market: Market)
    returns (verdict: Verdict, rest: Node<Offer>, cleared: Node<Offer>, partial: Option<Partial>, activated: nat, ghost c: nat)
    requires BookOk(n) && |rec.thresholdKey| == KEY_LEN
    ensures verdict.Rejected? <==> !RecordFits(OfferMap(n), rec, market.accounts)
    ensures verdict.Rejected? ==> BookOk(rest) && cleared == Empty && RejectedFrom(rest, n, rec.thresholdKey)
    ensures !verdict.Rejected? ==> PointsAt(OfferList(n), rec, c)
    ensures !verdict.Rejected? ==> (verdict.Accepted? <==> AllSettle(OfferList(n)[..c], market))
    ensures verdict.Accepted? ==> ClearedAt(n, c, SellAmount(rec.partialRaw), rest, cleared, partial)
    ensures verdict.Accepted? ==> activated == Amounts(OfferList(n)[..c]) * RADIX
  {
    rest, cleared, partial, activated, c := n, Empty, None, 0, 0;
    var key := rec.thresholdKey;
    var below := EndowLtKey(n, KEY_LEN, key);
    var found, r, i := TakeOut(n, key);
    if found.None? {
      if key != ZeroKey || rec.partialRaw != 0 {
        NotThere(n, key);
        return Rejected, n, Empty, None, 0, 0;
      }
      var settled := Settle(n, market);
      c := |OfferList(n)|;
      assert OfferList(n)[..c] == OfferList(n);
      verdict := if settled then Accepted else Threw;
      activated := WholeActivated(n, below);
      cleared, rest := n, Empty;
      WholeIsPathOnly(n);
    } else {
      verdict, rest, cleared, partial := ClearAtRecord(n, rec, found.value, r, below, i, market);
      activated := FromIntegral(below);
      c := i;
    }
  }

  /** What is activated when the whole book is cleared. */
  method WholeActivated(n: Node<Offer>, below: int) returns (activated: nat)
    requires BookOk(n) && below == EndowBefore(Leaves(n), ZeroKey)
    ensures activated == Amounts(OfferList(n)) * RADIX
  {
    NothingBelowZero(n);
    EndowIsAmounts(n);
    AmountsNonNegative(OfferList(n));
    activated := FromIntegral(below) + FromIntegral(MetaOf(n).endow);
  }

  lemma WholeIsPathOnly(n: Node<Offer>)
    requires BookOk(n)
    ensures ClearedOk(n, None)
  {
    if !n.Empty? {
      CompactPathOnly(n, MaxKey());
    }
  }

  /**
   What a rejection leaves: the offers as they were, the threshold offer, if there is one, in a fresh leaf that is not
   marked provisional.
   */
  ghost predicate RejectedFrom(rest: Node<Offer>, n: Node<Offer>, key: Key) {
    && OfferMap(rest) == OfferMap(n)
    && forall k :: Get(rest, k) == if k == key && Get(n, k).Some? then Some(Fresh(Get(n, k).value.value, 0)) else Get(n, k)
  }

  lemma NotThere(n: Node<Offer>, key: Key)
    requires key !in OfferMap(n)
    ensures RejectedFrom(n, n, key)
  {
  }

  lemma NothingBelowZero(n: Node<Offer>)
    requires BookOk(n)
    ensures EndowBefore(Leaves(n), ZeroKey) == 0
  {
    LeavesFiled(n);
    var s := Leaves(n);
    forall i | 0 <= i < |s| ensures !Before(s[i].key, ZeroKey) {
      ZeroKeyUnused(s[i].entry.value);
    }
    NoneBefore(s, ZeroKey);
  }

  /** The case of an existing threshold offer `o`, just taken out of `n`, leaving `r`. */
  method ClearAtRecord(n: Node<Offer>, rec: Commitment, o: Offer, r: Node<Offer>, below: int, ghost c: nat, market: Market)
    returns (verdict: Verdict, rest: Node<Offer>, cleared: Node<Offer>, partial: Option<Partial>)
    requires BookOk(n) && BookOk(r) && OfferOk(o) && OfferKey(o) == rec.thresholdKey
    requires Contents(r) == Contents(n) - {rec.thresholdKey} && rec.thresholdKey in OfferMap(n)
    requires OfferMap(n)[rec.thresholdKey] == o
    requires c < |OfferList(n)| && OfferList(n)[c] == o
    requires OfferList(r) == OfferList(n)[..c] + OfferList(n)[c + 1..]
    requires below == EndowBefore(Leaves(n), rec.thresholdKey)
    ensures below == Amounts(OfferList(n)[..c]) && below >= 0
    ensures verdict.Rejected? <==> !(o.owner in market.accounts && SellAmount(rec.partialRaw) <= o.amount)
    ensures verdict.Rejected? ==> BookOk(rest) && cleared == Empty && RejectedFrom(rest, n, rec.thresholdKey)
    ensures !verdict.Rejected? ==> (verdict.Accepted? <==> AllSettle(OfferList(n)[..c], market))
    ensures verdict.Accepted? ==> ClearedAt(n, c, SellAmount(rec.partialRaw), rest, cleared, partial)
  {
    BelowThreshold(n, c, rec.thresholdKey);
    var sold := SellAmount(rec.partialRaw);
    if o.owner !in market.accounts || sold > o.amount {
      verdict, cleared, partial := Rejected, Empty, None;
      rest := PutBack(n, r, o);
    } else {
      rest, cleared, partial := SellAtRecord(n, rec.thresholdKey, sold, o, r, below, c);
      var settled := Settle(cleared, market);
      verdict := if settled then Accepted else Threw;
    }
  }

  method SellAtRecord(n: Node<Offer>, key: Key, sold: nat, o: Offer, r: Node<Offer>, below: nat, ghost c: nat)
    returns (rest: Node<Offer>, cleared: Node<Offer>, partial: Option<Partial>)
    requires BookOrder(OfferList(n)) && BookOk(r) && OfferOk(o) && OfferKey(o) == key && sold <= o.amount
    requires c < |OfferList(n)| && OfferList(n)[c] == o && below == Amounts(OfferList(n)[..c])
    requires OfferList(r) == OfferList(n)[..c] + OfferList(n)[c + 1..] && LeavesFrom(r, n, None)
    ensures ClearedAt(n, c, sold, rest, cleared, partial)
  {
    ghost var b := OfferList(n);
    var s;
    s, cleared := SplitLtKey(r, key, below, b, c);
    rest := ReinsertAbove(s, o, sold, b, c);
    partial := Some(Partial(key, sold, o));
    RecordCleared(n, c, sold, r, s, rest, cleared);
  }

  /** Puts the threshold offer back in front of the offers above it. */
  method ReinsertAbove(s: Node<Offer>, o: Offer, sold: nat, ghost b: seq<Offer>, ghost c: nat) returns (rest: Node<Offer>)
    requires BookOk(s) && OfferOk(o) && sold <= o.amount && BookOrder(b)
    requires c < |b| && b[c] == o && OfferList(s) == b[c + 1..]
    ensures BookOk(rest) && OfferList(rest) == Remaining(b, c, sold)
    ensures Contents(rest) ==
            if o.amount > sold then Contents(s)[OfferKey(o) := Fresh(o.(amount := o.amount - sold), 0)] else Contents(s)
  {
    AboveThreshold(b, c, OfferList(s));
    rest := Reinsert(s, o, sold);
  }

  lemma RecordCleared(n: Node<Offer>, c: nat, sold: nat, r: Node<Offer>, s: Node<Offer>, rest: Node<Offer>, cleared: Node<Offer>)
    requires c < |OfferList(n)| && sold <= OfferList(n)[c].amount
    requires LeavesFrom(r, n, None) && LeavesFrom(s, r, None) && LeavesFrom(cleared, r, None)
    requires var o := OfferList(n)[c];
             && ClearedOk(cleared, Some(Partial(OfferKey(o), sold, o))) && OfferList(cleared) == OfferList(n)[..c]
             && BookOk(rest) && OfferList(rest) == Remaining(OfferList(n), c, sold)
             && Contents(rest) ==
                if o.amount > sold then Contents(s)[OfferKey(o) := Fresh(o.(amount := o.amount - sold), 0)] else Contents(s)
    ensures var o := OfferList(n)[c]; ClearedAt(n, c, sold, rest, cleared, Some(Partial(OfferKey(o), sold, o)))
  {
    var o := OfferList(n)[c];
    var key := OfferKey(o);
    ReinsertedFrom(r, s, rest, key, o, sold);
    FromTrans(rest, r, n, Some(key));
    FromTrans(cleared, r, n, None);
  }

  /** Re-inserting the offer that was taken out restores the offers. */
  method PutBack(n: Node<Offer>, r: Node<Offer>, o: Offer) returns (rest: Node<Offer>)
    requires BookOk(n) && BookOk(r) && OfferOk(o)
    requires OfferKey(o) in OfferMap(n) && OfferMap(n)[OfferKey(o)] == o
    requires Contents(r) == Contents(n) - {OfferKey(o)}
    ensures BookOk(rest) && RejectedFrom(rest, n, OfferKey(o))
  {
    rest := PutIn(r, o);
    PutBackFrom(n, r, rest, o);
    PutBackOffers(n, r, rest, o);
  }

  lemma PutBackOffers(n: Node<Offer>, r: Node<Offer>, rest: Node<Offer>, o: Offer)
    requires OfferKey(o) in OfferMap(n) && OfferMap(n)[OfferKey(o)] == o
    requires Contents(r) == Contents(n) - {OfferKey(o)}
    requires Contents(rest) == Contents(r)[OfferKey(o) := Fresh(o, 0)]
    ensures OfferMap(rest) == OfferMap(n)
  {
  }

  lemma PutBackFrom(n: Node<Offer>, r: Node<Offer>, rest: Node<Offer>, o: Offer)
    requires OfferKey(o) in OfferMap(n) && OfferMap(n)[OfferKey(o)] == o
    requires Contents(r) == Contents(n) - {OfferKey(o)}
    requires Contents(rest) == Contents(r)[OfferKey(o) := Fresh(o, 0)]
    ensures forall k ::
              Get(rest, k) == if k == OfferKey(o) && Get(n, k).Some? then Some(Fresh(Get(n, k).value.value, 0)) else Get(n, k)
  {
  }

  lemma AboveThreshold(b: seq<Offer>, c: nat, d: seq<Offer>)
    requires BookOrder(b) && c < |b| && d == b[c + 1..]
    ensures forall i :: 0 <= i < |d| ==> Before(OfferKey(b[c]), OfferKey(d[i]))
  {
    forall i | 0 <= i < |d| ensures Before(OfferKey(b[c]), OfferKey(d[i])) {
      assert d[i] == b[c + 1 + i];
    }
  }

  lemma BelowThreshold(n: Node<Offer>, c: nat, key: Key)
    requires BookOk(n) && c < |OfferList(n)| && key == OfferKey(OfferList(n)[c])
    ensures BookOrder(OfferList(n))
    ensures EndowBefore(Leaves(n), key) == Amounts(OfferList(n)[..c]) >= 0
  {
    var b := OfferList(n);
    ListOrdered(n);
    LeavesFiled(n);
    IndexDecides(b, c);
    BelowIndex(Leaves(n), b, c, key);
    AmountsNonNegative(b[..c]);
  }
}
