/**
 A block on its way through a validator: what becomes of new offers on arrival, what is checked after clearing, that a
 producer's block is accepted and leaves the producer's book, and what rolling back a rejected block leaves.
 */
module Validation {
  import opened Keys
  import opened FixedPoint
  import opened Trie
  import opened TrieOps
  import opened TrieOrder
  import opened TrieMarks
  import opened TrieHash
  import opened TrieQueries
  import opened Offers
  import opened BookMaps
  import opened OrderBook
  import opened Clearing
  import opened Undo
  import opened ClearedBooks
  import opened WorkUnits
  import opened Blocks
  import opened UndoOrder

  // ---- New offers on arrival ---------------------------------------------------------------------------------------

  /** A new offer the validator clears at once: everything below the recorded threshold, or everything there is. */
  predicate Early(o: Offer, rec: Commitment) {
    rec.keyIsNull || Before(OfferKey(o), rec.thresholdKey)
  }

  function EarlyOnes(os: seq<Offer>, rec: Commitment): seq<Offer> {
    if os == [] then []
    else EarlyOnes(os[..|os| - 1], rec) + (if Early(os[|os| - 1], rec) then [os[|os| - 1]] else [])
  }

  /** The new offers that enter the book, by key. */
  ghost function Kept(os: seq<Offer>, rec: Commitment): map<Key, Offer> {
    map k | k in OffersMap(os) && !Early(OffersMap(os)[k], rec) :: OffersMap(os)[k]
  }

  /** New offers carry ids of their own. */
  ghost predicate DistinctOffers(os: seq<Offer>) {
    forall i, j :: 0 <= i < j < |os| ==> OfferKey(os[i]) != OfferKey(os[j])
  }

  lemma {:induction false} EarlyMember(os: seq<Offer>, rec: Commitment, o: Offer)
    ensures o in EarlyOnes(os, rec) <==> o in os && Early(o, rec)
  {
    if os != [] {
      var init, last := os[..|os| - 1], os[|os| - 1];
      EarlyMember(init, rec, o);
      assert o in os <==> o in init || o == last;
    }
  }

  lemma {:induction false} OffersMapFiled(os: seq<Offer>, k: Key)
    requires k in OffersMap(os)
    ensures OfferKey(OffersMap(os)[k]) == k && OffersMap(os)[k] in os
  {
    var init, last := os[..|os| - 1], os[|os| - 1];
    if k != OfferKey(last) {
      OffersMapFiled(init, k);
    }
  }

  /** One more offer. */
  lemma KeptStep(os: seq<Offer>, i: nat, rec: Commitment)
    requires DistinctOffers(os) && i < |os|
    ensures var o := os[i];
            Kept(os[..i + 1], rec) ==
            if Early(o, rec) then Kept(os[..i], rec) else Kept(os[..i], rec)[OfferKey(o) := o]
  {
    var o := os[i];
    assert os[..i + 1][..i] == os[..i];
    if OfferKey(o) in OffersMap(os[..i]) {
      OffersMapFiled(os[..i], OfferKey(o));
    }
  }

  lemma EarlyStep(os: seq<Offer>, i: nat, rec: Commitment)
    requires i < |os|
    ensures Amounts(EarlyOnes(os[..i + 1], rec)) ==
            Amounts(EarlyOnes(os[..i], rec)) + if Early(os[i], rec) then os[i].amount else 0
  {
    assert os[..i + 1][..i] == os[..i];
    AmountsConcat(EarlyOnes(os[..i], rec), [os[i]]);
    AmountsOne(os[i]);
    assert EarlyOnes(os[..i], rec) + [] == EarlyOnes(os[..i], rec);
  }

  /** `os` have arrived: what was kept of them, and what the others activated. */
  ghost predicate Arrived(os: seq<Offer>, rec: Commitment, kept: map<Key, Offer>, activated: int) {
    kept == Kept(os, rec) && activated == Amounts(EarlyOnes(os, rec)) * RADIX
  }

  lemma ArrivedStep(os: seq<Offer>, i: nat, rec: Commitment, kept: map<Key, Offer>, activated: int)
    requires DistinctOffers(os) && i < |os| && Arrived(os[..i], rec, kept, activated)
    ensures var o := os[i];
            if Early(o, rec) then Arrived(os[..i + 1], rec, kept, activated + o.amount * RADIX)
            else Arrived(os[..i + 1], rec, kept[OfferKey(o) := o], activated)
  {
    KeptStep(os, i, rec);
    EarlyStep(os, i, rec);
  }

  /** `ValidatingSerialManager`, for one book: the new offers kept so far, and the supply activated on arrival. */
  class ValidatingManager {
    const rec: Commitment
    var newOffers: Node<Offer>
    var activated: nat

    ghost predicate Valid()
      reads this
    {
      BookOk(newOffers) && Clean(newOffers) && AllProvisional(newOffers)
    }

    constructor (r: Commitment)
      ensures Valid() && rec == r && newOffers == Empty && activated == 0
    {
      rec, newOffers, activated := r, Empty, 0;
    }

    /** `add_offer`: clears the offer at once or inserts it as provisional. Payments are not modelled. */
    method AddOffer(o: Offer)
      requires Valid() && OfferOk(o)
      modifies this
      ensures Valid()
      ensures OfferMap(newOffers) ==
              if Early(o, rec) then old(OfferMap(newOffers)) else old(OfferMap(newOffers))[OfferKey(o) := o]
      ensures activated == old(activated) + if Early(o, rec) then o.amount * RADIX else 0
    {
      if rec.keyIsNull || Before(OfferKey(o), rec.thresholdKey) {
        activated := activated + FromIntegral(o.amount);
      } else {
        var r, delta := Insert(newOffers, KEY_LEN, OfferKey(o), Fresh(o, 1));
        InsertedBook(r, newOffers, o, 1);
        InsertedProvisional(r, newOffers, o);
        newOffers := r;
      }
    }

    method AddOffers(os: seq<Offer>)
      requires Valid() && newOffers == Empty && activated == 0
      requires DistinctOffers(os) && forall o :: o in os ==> OfferOk(o)
      modifies this
      ensures Valid() && OfferMap(newOffers) == Kept(os, rec)
      ensures activated == Amounts(EarlyOnes(os, rec)) * RADIX
    {
      for i := 0 to |os|
        invariant Valid() && Arrived(os[..i], rec, OfferMap(newOffers), activated)
      {
        ArrivedStep(os, i, rec, OfferMap(newOffers), activated);
        AddOffer(os[i]);
      }
      assert os[..|os|] == os;
    }

    /** `merge_in_other_serial_log`: another thread's offers, none of which this one has. */
    method MergeInOther(other: ValidatingManager)
      requires other != this && Valid() && other.Valid()
      modifies this
      ensures Valid()
      ensures OfferMap(newOffers) == old(OfferMap(newOffers)) + OfferMap(other.newOffers)
      ensures activated == old(activated) + other.activated
    {
      var m := MergeTries(newOffers, other.newOffers, KEY_LEN);
      MergedBook(m, newOffers, other.newOffers);
      MergedProvisional(m, newOffers, other.newOffers);
      newOffers, activated := m, activated + other.activated;
    }
  }

  lemma InsertedProvisional(r: Node<Offer>, n: Node<Offer>, o: Offer)
    requires AllProvisional(n) && Contents(r) == Contents(n)[OfferKey(o) := Fresh(o, 1)]
    ensures AllProvisional(r)
  {
    forall k | Get(r, k).Some? ensures Provisional(r, k) {
      InsertedAt(r, n, o, 1, k);
      assert Get(n, k).Some? ==> Provisional(n, k);
    }
  }

  lemma MergedProvisional(m: Node<Offer>, a: Node<Offer>, b: Node<Offer>)
    requires AllProvisional(a) && AllProvisional(b) && Contents(m) == Contents(a) + Contents(b)
    ensures AllProvisional(m)
  {
    forall k | Get(m, k).Some? ensures Provisional(m, k) {
      UnionAt(m, a, b, k);
      assert Get(a, k).Some? ==> Provisional(a, k);
      assert Get(b, k).Some? ==> Provisional(b, k);
    }
  }

  // ---- Amounts, whatever the order -----------------------------------------------------------------------------------

  lemma {:induction false} AmountsOfBag(a: seq<Offer>, b: seq<Offer>)
    requires multiset(a) == multiset(b)
    ensures Amounts(a) == Amounts(b)
    decreases |a|
  {
    if a == [] {
      assert |b| == |multiset(b)|;
    } else {
      var last := a[|a| - 1];
      var i := IndexIn(b, last, multiset(a));
      var init, rest := a[..|a| - 1], b[..i] + b[i + 1..];
      assert a == init + [last];
      BagWithout(b, i, rest);
      assert multiset(init) == multiset(a) - multiset{last} == multiset(rest);
      AmountsOfBag(init, rest);
      AmountsCut(b, i);
      AmountsConcat(b[..i], b[i + 1..]);
    }
  }

  lemma BagWithout(b: seq<Offer>, i: nat, rest: seq<Offer>)
    requires i < |b| && rest == b[..i] + b[i + 1..]
    ensures multiset(b) == multiset(rest) + multiset{b[i]}
  {
    assert b == b[..i] + [b[i]] + b[i + 1..];
  }

  lemma IndexIn(b: seq<Offer>, o: Offer, bag: multiset<Offer>) returns (i: nat)
    requires multiset(b) == bag && o in bag
    ensures i < |b| && b[i] == o
  {
    assert o in b;
    i :| 0 <= i < |b| && b[i] == o;
  }

  ghost predicate NoRepeats(s: seq<Offer>) {
    forall i, j :: 0 <= i < j < |s| ==> s[i] != s[j]
  }

  lemma {:induction false} CountOfMember(s: seq<Offer>, o: Offer)
    requires NoRepeats(s)
    ensures multiset(s)[o] == if o in s then 1 else 0
  {
    if s != [] {
      var init, last := s[..|s| - 1], s[|s| - 1];
      CountOfMember(init, o);
      assert s == init + [last];
    }
  }

  /** Lists without repetitions that have the same members add up to the same. */
  lemma SameMembers(a: seq<Offer>, b: seq<Offer>)
    requires NoRepeats(a) && NoRepeats(b) && forall o :: o in a <==> o in b
    ensures Amounts(a) == Amounts(b)
  {
    forall o ensures multiset(a)[o] == multiset(b)[o] {
      CountOfMember(a, o);
      CountOfMember(b, o);
    }
    AmountsOfBag(a, b);
  }

  lemma OrderedNoRepeats(b: seq<Offer>)
    requires BookOrder(b)
    ensures NoRepeats(b)
  {
    forall i, j | 0 <= i < j < |b| ensures b[i] != b[j] {
      DistinctKeys(b, i, j);
    }
  }

  // ---- Producer and validator --------------------------------------------------------------------------------------

  /** `early` are offers of book `b` that a validator clears on arrival. */
  ghost predicate EarlyIn(early: seq<Offer>, b: map<Key, Offer>, rec: Commitment) {
    && DistinctOffers(early)
    && forall o :: o in early ==> OfferKey(o) in b && b[OfferKey(o)] == o && Early(o, rec)
  }

  /** The record of a producer points at the same offer in the validator's smaller book. */
  lemma SameThreshold(
    n: Node<Offer>, supply: nat, rest: Node<Offer>, cleared: Node<Offer>, partial: Option<Partial>, rec: Commitment, c: nat,
    early: seq<Offer>, n': Node<Offer>, c': nat)
    requires BookOk(n) && BookOk(n') && OfferMap(n') == OfferMap(n) - KeysOf(early)
    requires Produced(n, supply, rest, cleared, partial, rec, c) && PointsAt(OfferList(n'), rec, c')
    requires EarlyIn(early, OfferMap(n), rec)
    ensures c < |OfferList(n)| <==> c' < |OfferList(n')|
    ensures c < |OfferList(n)| ==> OfferList(n')[c'] == OfferList(n)[c]
  {
    var b, b' := OfferList(n), OfferList(n');
    ListOrdered(n);
    ListOrdered(n');
    if c' < |b'| {
      ZeroKeyUnused(b'[c']);
      ListMember(n', b'[c']);
    }
    if c < |b| {
      ZeroKeyUnused(b[c]);
      ListMember(n, b[c]);
    }
  }

  /** What the validator clears is what the producer cleared, without what was cleared on arrival. */
  lemma ClearedWithoutEarly(
    m: map<Key, Offer>, rest: map<Key, Offer>, cleared: map<Key, Offer>, partial: Option<Partial>,
    m': map<Key, Offer>, rest': map<Key, Offer>, cleared': map<Key, Offer>, early: set<Key>)
    requires KeyParts(m, rest, cleared, partial) && KeyParts(m', rest', cleared', partial)
    requires m' == m - early && early <= m.Keys
    requires partial.Some? ==> forall k :: k in early ==> Before(k, partial.value.key)
    ensures cleared' == cleared - early && rest' == rest
  {
    if partial.Some? {
      var p := partial.value;
      forall k ensures Lookup(cleared', k) == Lookup(cleared - early, k) && Lookup(rest', k) == Lookup(rest, k) {
      }
      SameMap(cleared', cleared - early);
      SameMap(rest', rest);
    }
  }

  /** The supply of what was cleared early and late adds up to that of all that was cleared. */
  lemma SupplyAddsUp(cleared: Node<Offer>, cleared': Node<Offer>, early: seq<Offer>)
    requires (cleared.Empty? || Shaped(cleared, KEY_LEN)) && EntriesOk(cleared)
    requires (cleared'.Empty? || Shaped(cleared', KEY_LEN)) && EntriesOk(cleared')
    requires DistinctOffers(early)
    requires forall o :: o in early ==> OfferKey(o) in OfferMap(cleared) && OfferMap(cleared)[OfferKey(o)] == o
    requires OfferMap(cleared') == OfferMap(cleared) - KeysOf(early)
    ensures Amounts(OfferList(cleared)) == Amounts(early) + Amounts(OfferList(cleared'))
  {
    var all, late := OfferList(cleared), OfferList(cleared');
    ListOrdered(cleared);
    ListOrdered(cleared');
    OrderedNoRepeats(all);
    OrderedNoRepeats(late);
    forall o ensures o in early + late <==> o in all {
      ListMember(cleared, o);
      ListMember(cleared', o);
    }
    forall o | o in late ensures o !in early {
      ListMember(cleared', o);
    }
    NoRepeatsConcat(early, late);
    SameMembers(all, early + late);
    AmountsConcat(early, late);
  }

  lemma NoRepeatsConcat(a: seq<Offer>, b: seq<Offer>)
    requires DistinctOffers(a) && NoRepeats(b) && forall o :: o in b ==> o !in a
    ensures NoRepeats(a + b)
  {
    var s := a + b;
    forall i, j | 0 <= i < j < |s| ensures s[i] != s[j] {
      if i < |a| <= j {
        assert b[j - |a|] in b;
      } else if j < |a| {
        assert OfferKey(a[i]) != OfferKey(a[j]);
      } else {
        assert b[i - |a|] != b[j - |a|];
      }
    }
  }

  /**
   The validator clears what the producer cleared, from the producer's record alone, except for the offers `early` that
   it cleared on arrival: same partially executed offer, same remaining offers, and the supply activated early, late and
   by the partially executed offer is the producer's supply.
   */
  lemma ValidatorAgrees(
    n: Node<Offer>, supply: nat, rest: Node<Offer>, cleared: Node<Offer>, partial: Option<Partial>, rec: Commitment, c: nat,
    early: seq<Offer>,
    n': Node<Offer>, rest': Node<Offer>, cleared': Node<Offer>, partial': Option<Partial>, activated: nat, c': nat)
    requires BookOk(n) && BookOk(n') && OfferMap(n') == OfferMap(n) - KeysOf(early)
    requires EarlyIn(early, OfferMap(n), rec)
    requires Produced(n, supply, rest, cleared, partial, rec, c)
    requires Revalidated(n', rec, rest', cleared', partial', activated, c')
    ensures partial' == partial && OfferMap(rest') == OfferMap(rest)
    ensures OfferMap(cleared') == OfferMap(cleared) - KeysOf(early)
    ensures Amounts(early) * RADIX + activated + rec.partialRaw == supply == rec.supply < U128
  {
    SameThreshold(n, supply, rest, cleared, partial, rec, c, early, n', c');
    AmountsNonNegative(OfferList(n)[..c]);
    SmallSupply(rec.partialRaw, supply);
    assert partial' == partial;
    ClearedAtKey(n, c, Ceil(rec.partialRaw), rest, cleared, partial);
    ClearedAtKey(n', c', SellAmount(rec.partialRaw), rest', cleared', partial');
    EarlyCleared(OfferMap(n), OfferMap(rest), OfferMap(cleared), partial, rec, early);
    ClearedWithoutEarly(OfferMap(n), OfferMap(rest), OfferMap(cleared), partial,
                        OfferMap(n'), OfferMap(rest'), OfferMap(cleared'), KeysOf(early));
    SupplyAddsUp(cleared, cleared', early);
  }

  /** What is cleared on arrival is among what the producer clears. */
  lemma EarlyCleared(
    m: map<Key, Offer>, rest: map<Key, Offer>, cleared: map<Key, Offer>, partial: Option<Partial>, rec: Commitment,
    early: seq<Offer>)
    requires KeyParts(m, rest, cleared, partial) && EarlyIn(early, m, rec)
    requires partial.Some? ==> !rec.keyIsNull && rec.thresholdKey == partial.value.key
    ensures KeysOf(early) <= m.Keys
    ensures partial.Some? ==> forall k :: k in KeysOf(early) ==> Before(k, partial.value.key)
    ensures forall o :: o in early ==> OfferKey(o) in cleared && cleared[OfferKey(o)] == o
  {
    forall o | o in early ensures OfferKey(o) in cleared && cleared[OfferKey(o)] == o {
      assert OfferKey(o) in m && m[OfferKey(o)] == o;
    }
  }

  /** The producer's record fits the validator's book, and everything the validator clears settles. */
  lemma RecordIsAccepted(
    n: Node<Offer>, supply: nat, rest: Node<Offer>, cleared: Node<Offer>, partial: Option<Partial>, rec: Commitment, c: nat,
    early: seq<Offer>, n': Node<Offer>, market: Market)
    requires BookOk(n) && BookOk(n') && OfferMap(n') == OfferMap(n) - KeysOf(early)
    requires EarlyIn(early, OfferMap(n), rec)
    requires Produced(n, supply, rest, cleared, partial, rec, c) && CanSettle(OfferList(n), c, market)
    ensures RecordFits(OfferMap(n'), rec, market.accounts) && |rec.thresholdKey| == KEY_LEN && Sane(rec)
    ensures forall c': nat :: PointsAt(OfferList(n'), rec, c') ==> AllSettle(OfferList(n')[..c'], market)
  {
    var b := OfferList(n);
    ListOrdered(n);
    if c < |b| {
      ThresholdKept(n, c, early, rec);
      ZeroKeyUnused(b[c]);
    } else if ZeroKey in OfferMap(n') {
      ZeroKeyUnused(OfferMap(n')[ZeroKey]);
    }
    forall c': nat | PointsAt(OfferList(n'), rec, c') ensures AllSettle(OfferList(n')[..c'], market) {
      SameThreshold(n, supply, rest, cleared, partial, rec, c, early, n', c');
      SettlesToo(n, c, early, n', c', market);
    }
  }

  lemma ThresholdKept(n: Node<Offer>, c: nat, early: seq<Offer>, rec: Commitment)
    requires BookOk(n) && c < |OfferList(n)| && EarlyIn(early, OfferMap(n), rec)
    requires !rec.keyIsNull && rec.thresholdKey == OfferKey(OfferList(n)[c])
    ensures rec.thresholdKey in OfferMap(n) - KeysOf(early) && OfferMap(n)[rec.thresholdKey] == OfferList(n)[c]
  {
    ListMember(n, OfferList(n)[c]);
    BeforeIrreflexive(rec.thresholdKey);
  }

  /** The validator's front of the book is part of the producer's. */
  lemma SettlesToo(n: Node<Offer>, c: nat, early: seq<Offer>, n': Node<Offer>, c': nat, market: Market)
    requires BookOk(n) && BookOk(n') && OfferMap(n') == OfferMap(n) - KeysOf(early)
    requires c <= |OfferList(n)| && c' <= |OfferList(n')|
    requires c < |OfferList(n)| <==> c' < |OfferList(n')|
    requires c < |OfferList(n)| ==> OfferList(n')[c'] == OfferList(n)[c]
    requires AllSettle(OfferList(n)[..c], market)
    ensures AllSettle(OfferList(n')[..c'], market)
  {
    var b, b' := OfferList(n), OfferList(n');
    ListOrdered(n);
    ListOrdered(n');
    forall i | 0 <= i < c' ensures Settles(b'[i], market) {
      ListMember(n', b'[i]);
      ListMember(n, b'[i]);
      var j :| 0 <= j < |b| && b[j] == b'[i];
      if c < |b| {
        OrderedIndex(b, j, c);
        assert Before(OfferKey(b'[i]), OfferKey(b'[c']));
      }
      assert b[..c][j] == b[j];
    }
  }

  lemma OrderedIndex(b: seq<Offer>, j: nat, c: nat)
    requires BookOrder(b) && j < |b| && c < |b| && Before(OfferKey(b[j]), OfferKey(b[c]))
    ensures j < c
  {
    if j == c {
      BeforeIrreflexive(OfferKey(b[c]));
    } else if c < j {
      BeforeAsymmetric(OfferKey(b[c]), OfferKey(b[j]));
    }
  }

  // ---- The check after clearing ------------------------------------------------------------------------------------

  /** `check_sanity`: the flag and the key of the record agree. */
  predicate Sane(rec: Commitment) {
    rec.keyIsNull <==> rec.thresholdKey == ZeroKey
  }

  /** `WorkUnitStateCommitmentChecker::check`, for one book: in 128 bits the supplies add up, and the record is sane. */
  predicate Checks(rec: Commitment, activated: int) {
    Wrap128(activated + rec.partialRaw) == rec.supply && Sane(rec)
  }

  /** What a block activates when it clears the first `c` offers of `b`, the new offers `news` having arrived before. */
  function Activated(news: seq<Offer>, rec: Commitment, b: seq<Offer>, c: nat): int
    requires c <= |b|
  {
    Amounts(EarlyOnes(news, rec)) * RADIX + Amounts(b[..c]) * RADIX
  }

  // ---- A validator's block -------------------------------------------------------------------------------------------

  lemma {:induction false} OffersMapHas(os: seq<Offer>, o: Offer)
    requires DistinctOffers(os) && o in os
    ensures OfferKey(o) in OffersMap(os) && OffersMap(os)[OfferKey(o)] == o
  {
    var init, last := os[..|os| - 1], os[|os| - 1];
    assert o in init || o == last;
    if o in init {
      OffersMapHas(init, o);
      var i :| 0 <= i < |init| && init[i] == o;
      assert OfferKey(os[i]) != OfferKey(last);
    }
  }

  lemma {:induction false} EarlyDistinct(os: seq<Offer>, rec: Commitment)
    requires DistinctOffers(os)
    ensures DistinctOffers(EarlyOnes(os, rec))
  {
    if os != [] {
      var init, last := os[..|os| - 1], os[|os| - 1];
      EarlyDistinct(init, rec);
      var e := EarlyOnes(init, rec);
      forall i | 0 <= i < |e| ensures OfferKey(e[i]) != OfferKey(last) {
        EarlyMember(init, rec, e[i]);
        var j :| 0 <= j < |init| && init[j] == e[i];
        assert OfferKey(os[j]) != OfferKey(last);
      }
    }
  }

  /** The validator's book is the producer's, without what was cleared on arrival. */
  lemma KeptIsRest(live: map<Key, Offer>, news: seq<Offer>, rec: Commitment, b: map<Key, Offer>)
    requires DistinctOffers(news) && live.Keys !! OffersMap(news).Keys && b == live + OffersMap(news)
    ensures live + Kept(news, rec) == b - KeysOf(EarlyOnes(news, rec))
    ensures EarlyIn(EarlyOnes(news, rec), b, rec)
  {
    var early := EarlyOnes(news, rec);
    var kept := live + Kept(news, rec);
    EarlyDistinct(news, rec);
    forall o ensures o in early <==> o in news && Early(o, rec) {
      EarlyMember(news, rec, o);
    }
    forall o | o in news ensures OfferKey(o) in OffersMap(news) && OffersMap(news)[OfferKey(o)] == o {
      OffersMapHas(news, o);
    }
    forall k ensures Lookup(kept, k) == Lookup(b - KeysOf(early), k) {
      if k in OffersMap(news) {
        OffersMapFiled(news, k);
      }
    }
    SameMap(kept, b - KeysOf(early));
  }

  /** Book `m` is cleared if the record fits, else the record is refused. */
  ghost predicate AfterClearing(m: Node<Offer>, rec: Commitment, accounts: set<nat>, c: nat, rest: Node<Offer>, t: Thunk) {
    if RecordFits(OfferMap(m), rec, accounts) then
      PointsAt(OfferList(m), rec, c) && ClearedAt(m, c, SellAmount(rec.partialRaw), rest, t.cleared, t.partial)
    else
      t.cleared == Empty && t.partial == None && RejectedFrom(rest, m, rec.thresholdKey)
  }

  /** The state in which a validator's block leaves its book: cleared if the record fits, else with the record refused. */
  ghost predicate Validated(
    n: Node<Offer>, u: Node<Offer>, m: Node<Offer>, rec: Commitment, accounts: set<nat>, c: nat, rest: Node<Offer>, t: Thunk)
  {
    && BookOk(u) && AllProvisional(u)
    && BookOk(m) && OfferMap(m) == LiveValues(n) + OfferMap(u) && TakenIn(m, n, u)
    && t.newOffers == OfferList(u) && t.cancelled == Chosen(Leaves(n), DeletionMark)
    && AfterClearing(m, rec, accounts, c, rest, t)
  }

  /**
   How a block is judged, `m` being the book to be cleared and `news` the new offers: exactly when the record fits that
   book and the supplies add up, it is accepted; it throws exactly when the record fits and an offer does not settle.
   */
  ghost predicate Judged(verdict: Verdict, m: Node<Offer>, rec: Commitment, market: Market, news: seq<Offer>, c: nat) {
    var b := OfferList(m);
    if RecordFits(OfferMap(m), rec, market.accounts) then
      && PointsAt(b, rec, c)
      && (verdict.Threw? <==> !AllSettle(b[..c], market))
      && (verdict.Accepted? <==> AllSettle(b[..c], market) && Checks(rec, Activated(news, rec, b, c)))
    else
      verdict.Rejected?
  }

  /** A block on a validator: `news` are its new offers, `u` those that are kept, `m` the book to be cleared. */
  method Validate(v: WorkUnit, news: seq<Offer>, rec: Commitment, market: Market, block: nat)
    returns (verdict: Verdict, ghost u: Node<Offer>, ghost m: Node<Offer>, ghost c: nat)
    requires v.Valid() && v.uncommitted == Empty && |rec.thresholdKey| == KEY_LEN
    requires DistinctOffers(news) && forall o :: o in news ==> OfferOk(o)
    requires v.thunks == [] || Top(v.thunks).block + 1 == block
    modifies v
    ensures OfferMap(u) == Kept(news, rec)
    ensures BookOk(m) && OfferMap(m) == old(LiveValues(v.committed)) + OfferMap(u)
    ensures Judged(verdict, m, rec, market, news, c)
    ensures !verdict.Threw? ==>
              && v.Valid() && Clean(v.committed) && v.uncommitted == Empty
              && v.thunks != [] && v.thunks[..|v.thunks| - 1] == old(v.thunks)
              && Validated(old(v.committed), u, m, rec, market.accounts, c, v.committed, Top(v.thunks))
  {
    var early := TakeNews(v, news, rec);
    u := v.uncommitted;
    var started := v.TentativeCommit(block);
    m := v.committed;
    verdict, c := ValidateTaken(v, news, early, rec, market);
  }

  /** Clearing and checking, once the block's offers are in the book. */
  method ValidateTaken(v: WorkUnit, ghost news: seq<Offer>, early: nat, rec: Commitment, market: Market)
    returns (verdict: Verdict, ghost c: nat)
    requires v.Valid() && Clean(v.committed) && v.thunks != [] && |rec.thresholdKey| == KEY_LEN
    requires early == Amounts(EarlyOnes(news, rec)) * RADIX
    requires Top(v.thunks).cleared == Empty && Top(v.thunks).partial == None
    modifies v
    ensures Judged(verdict, old(v.committed), rec, market, news, c)
    ensures !verdict.Threw? ==>
              && v.Valid() && Clean(v.committed) && v.uncommitted == old(v.uncommitted) && SameBut(old(v.thunks), v.thunks)
              && AfterClearing(old(v.committed), rec, market.accounts, c, v.committed, Top(v.thunks))
  {
    var clearing, activated;
    clearing, activated, c := v.TentativeClearOffers(rec, market);
    verdict := if clearing.Accepted? && !Checks(rec, early + activated) then Rejected else clearing;
    JudgedSo(old(v.committed), rec, market, news, c, early, activated, clearing, verdict);
  }

  lemma JudgedSo(
    m: Node<Offer>, rec: Commitment, market: Market, news: seq<Offer>, c: nat, early: nat, activated: nat,
    clearing: Verdict, verdict: Verdict)
    requires early == Amounts(EarlyOnes(news, rec)) * RADIX
    requires clearing.Rejected? <==> !RecordFits(OfferMap(m), rec, market.accounts)
    requires !clearing.Rejected? ==> PointsAt(OfferList(m), rec, c)
    requires !clearing.Rejected? ==> (clearing.Accepted? <==> AllSettle(OfferList(m)[..c], market))
    requires clearing.Accepted? ==> activated == Amounts(OfferList(m)[..c]) * RADIX
    requires verdict == if clearing.Accepted? && !Checks(rec, early + activated) then Rejected else clearing
    ensures Judged(verdict, m, rec, market, news, c)
  {
  }

  /** The block's new offers go through the serial manager and join the uncommitted offers. */
  method TakeNews(v: WorkUnit, news: seq<Offer>, rec: Commitment) returns (early: nat)
    requires v.Valid() && v.uncommitted == Empty
    requires DistinctOffers(news) && forall o :: o in news ==> OfferOk(o)
    modifies v`uncommitted
    ensures v.Valid() && OfferMap(v.uncommitted) == Kept(news, rec) && AllProvisional(v.uncommitted)
    ensures early == Amounts(EarlyOnes(news, rec)) * RADIX
  {
    var manager := new ValidatingManager(rec);
    manager.AddOffers(news);
    v.AddOffers(manager.newOffers);
    MergedProvisional(v.uncommitted, Empty, manager.newOffers);
    early := manager.activated;
  }

  lemma SameRootHash(m: Node<Offer>, n: Node<Offer>)
    requires BookOk(m) && BookOk(n) && Clean(m) && Clean(n) && OfferMap(m) == OfferMap(n)
    ensures RootHash(m) == RootHash(n)
  {
    BookFacts(m);
    BookFacts(n);
    AllLive(m);
    AllLive(n);
    RootHashExact(m, n, KEY_LEN);
  }

  /** What a producer's block leaves behind, `n` being the book it cleared. */
  ghost predicate ProducedBlock(
    n: Node<Offer>, live: map<Key, Offer>, news: seq<Offer>, supply: nat, market: Market, rec: Commitment, c: nat,
    rest: Node<Offer>, t: Thunk)
  {
    && BookOk(n) && OfferMap(n) == live + OffersMap(news)
    && Produced(n, supply, rest, t.cleared, t.partial, rec, c) && CanSettle(OfferList(n), c, market)
  }

  /** A block on its producer, whose new offers have been taken in. */
  method Produce(p: WorkUnit, ghost news: seq<Offer>, block: nat, supply: nat, market: Market)
    returns (produced: bool, rec: Commitment, ghost n: Node<Offer>, ghost c: nat)
    requires p.Valid() && OfferMap(p.uncommitted) == OffersMap(news)
    requires p.thunks == [] || Top(p.thunks).block + 1 == block
    modifies p
    ensures produced ==>
              && p.Valid() && Clean(p.committed) && p.thunks != [] && |rec.thresholdKey| == KEY_LEN
              && ProducedBlock(n, old(LiveValues(p.committed)), news, supply, market, rec, c, p.committed, Top(p.thunks))
  {
    var started := p.TentativeCommit(block);
    n := p.committed;
    produced, rec, c := p.ClearOffers(supply, market);
  }

  /** Validating the producer's block does not throw. */
  lemma ReplayDoesNotThrow(
    n: Node<Offer>, live: map<Key, Offer>, news: seq<Offer>, supply: nat, market: Market, rec: Commitment, c: nat,
    rest: Node<Offer>, t: Thunk, verdict: Verdict, n': Node<Offer>, c': nat)
    requires DistinctOffers(news) && live.Keys !! OffersMap(news).Keys
    requires ProducedBlock(n, live, news, supply, market, rec, c, rest, t)
    requires BookOk(n') && OfferMap(n') == live + Kept(news, rec) && Judged(verdict, n', rec, market, news, c')
    ensures !verdict.Threw? && RecordFits(OfferMap(n'), rec, market.accounts)
    ensures AllSettle(OfferList(n')[..c'], market)
  {
    KeptIsRest(live, news, rec, OfferMap(n));
    RecordIsAccepted(n, supply, rest, t.cleared, t.partial, rec, c, EarlyOnes(news, rec), n', market);
  }

  /** The validator accepts the producer's block and agrees with it. */
  lemma ReplayAccepted(
    n: Node<Offer>, live: map<Key, Offer>, news: seq<Offer>, supply: nat, market: Market, rec: Commitment, c: nat,
    rest: Node<Offer>, t: Thunk, verdict: Verdict, n': Node<Offer>, rest': Node<Offer>, t': Thunk, c': nat)
    requires DistinctOffers(news) && live.Keys !! OffersMap(news).Keys
    requires ProducedBlock(n, live, news, supply, market, rec, c, rest, t)
    requires BookOk(n') && OfferMap(n') == live + Kept(news, rec) && Judged(verdict, n', rec, market, news, c')
    requires AfterClearing(n', rec, market.accounts, c', rest', t')
    ensures verdict.Accepted? && t'.partial == t.partial && OfferMap(rest') == OfferMap(rest)
    ensures OfferMap(t'.cleared) == OfferMap(t.cleared) - KeysOf(EarlyOnes(news, rec))
  {
    var early := EarlyOnes(news, rec);
    ReplayDoesNotThrow(n, live, news, supply, market, rec, c, rest, t, verdict, n', c');
    KeptIsRest(live, news, rec, OfferMap(n));
    RecordIsAccepted(n, supply, rest, t.cleared, t.partial, rec, c, early, n', market);
    AmountsNonNegative(OfferList(n')[..c']);
    ValidatorAgrees(n, supply, rest, t.cleared, t.partial, rec, c, early, n', rest', t'.cleared, t'.partial,
                    Amounts(OfferList(n')[..c']) * RADIX, c');
  }

  /**
   A block on two replicas with the same live offers, `news` being its new offers: `p` takes them all in and produces the
   block; `v` clears those below the threshold on arrival, takes in the others and validates. The block is accepted, and
   the replicas agree on the threshold offer, on the remaining book and on its root hash; the validator's record lists
   the cleared offers without those it cleared on arrival.
   */
  method ReplayBlock(p: WorkUnit, v: WorkUnit, news: seq<Offer>, block: nat, supply: nat, market: Market)
    returns (produced: bool, verdict: Verdict, rec: Commitment)
    requires p != v && p.Valid() && v.Valid()
    requires LiveValues(p.committed) == LiveValues(v.committed)
    requires DistinctOffers(news) && forall o :: o in news ==> OfferOk(o)
    requires LiveValues(p.committed).Keys !! OffersMap(news).Keys
    requires OfferMap(p.uncommitted) == OffersMap(news) && v.uncommitted == Empty
    requires p.thunks == [] || Top(p.thunks).block + 1 == block
    requires v.thunks == [] || Top(v.thunks).block + 1 == block
    modifies p, v
    ensures produced ==> verdict.Accepted? && p.Valid() && v.Valid() && p.thunks != [] && v.thunks != []
    ensures produced ==> p.Book() == v.Book() && RootHash(p.committed) == RootHash(v.committed)
    ensures produced ==> Top(p.thunks).partial == Top(v.thunks).partial
    ensures produced ==>
              OfferMap(Top(v.thunks).cleared) == OfferMap(Top(p.thunks).cleared) - KeysOf(EarlyOnes(news, rec))
  {
    ghost var live := LiveValues(p.committed);
    ghost var n, c;
    produced, rec, n, c := Produce(p, news, block, supply, market);
    verdict := Rejected;
    if produced {
      ghost var u, n', c';
      verdict, u, n', c' := Validate(v, news, rec, market, block);
      ghost var t := Top(p.thunks);
      ReplayDoesNotThrow(n, live, news, supply, market, rec, c, p.committed, t, verdict, n', c');
      ReplayAccepted(n, live, news, supply, market, rec, c, p.committed, t, verdict, n', v.committed, Top(v.thunks), c');
      SameRootHash(p.committed, v.committed);
    }
  }

  // ---- Rolling a block back ------------------------------------------------------------------------------------------

  /** A header whose key says "no threshold offer" while its flag does not: new offers are kept, and then cleared. */
  ghost predicate KeepsAndClears(rec: Commitment, news: seq<Offer>) {
    rec.thresholdKey == ZeroKey && !rec.keyIsNull && rec.partialRaw == 0 && news != []
  }

  lemma NewKeysAre(u: Node<Offer>, t: Thunk)
    requires BookOk(u) && t.newOffers == OfferList(u)
    ensures NewKeys(t) == OfferMap(u).Keys
  {
    ListedOffers(u);
    OffersMapKeys(t.newOffers);
  }

  /** Which new offers are among those cleared in the book: all that were kept, under such a header, else none. */
  lemma NewAndCleared(m: Node<Offer>, rec: Commitment, news: seq<Offer>, u: map<Key, Offer>, c: nat, rest: Node<Offer>, t: Thunk)
    requires DistinctOffers(news) && forall o :: o in news ==> OfferOk(o)
    requires BookOk(m) && u == Kept(news, rec) && u.Keys <= OfferMap(m).Keys
    requires PointsAt(OfferList(m), rec, c) && ClearedAt(m, c, SellAmount(rec.partialRaw), rest, t.cleared, t.partial)
    ensures OfferMap(t.cleared).Keys !! u.Keys <==> !KeepsAndClears(rec, news)
  {
    ClearedAtKey(m, c, SellAmount(rec.partialRaw), rest, t.cleared, t.partial);
    ListOrdered(m);
    if c < |OfferList(m)| {
      ZeroKeyUnused(OfferList(m)[c]);
      forall k | k in u ensures !Before(k, rec.thresholdKey) {
        OffersMapFiled(news, k);
      }
    } else if rec.keyIsNull || news == [] {
      assert u == map[];
    } else {
      var o := news[0];
      ZeroKeyUnused(o);
      OffersMapHas(news, o);
      assert OfferKey(o) in u;
    }
  }

  /** The threshold offer of the record is new exactly when the recorded key is one of the kept offers'. */
  lemma ThresholdIsNew(m: Node<Offer>, rec: Commitment, u: Node<Offer>, c: nat, rest: Node<Offer>, t: Thunk)
    requires BookOk(m) && BookOk(u) && t.newOffers == OfferList(u)
    requires PointsAt(OfferList(m), rec, c) && ClearedAt(m, c, SellAmount(rec.partialRaw), rest, t.cleared, t.partial)
    ensures PartialIsOld(t) <==> rec.thresholdKey !in OfferMap(u)
  {
    NewKeysAre(u, t);
    if c == |OfferList(m)| && rec.thresholdKey in OfferMap(u) {
      ZeroKeyUnused(OfferMap(u)[rec.thresholdKey]);
    }
  }

  /** A refused record leaves everything in the book, the threshold offer settled. */
  lemma RefusedRolledBack(n: Node<Offer>, u: Node<Offer>, m: Node<Offer>, key: Key, rest: Node<Offer>, t: Thunk)
    requires BookOk(n) && BookOk(u) && BookOk(m) && OfferMap(u).Keys !! OfferMap(n).Keys
    requires NothingProvisional(n) && AllProvisional(u) && TakenIn(m, n, u)
    requires t.cancelled == Chosen(Leaves(n), DeletionMark)
    requires t.cleared == Empty && t.partial == None && RejectedFrom(rest, m, key)
    ensures Undone(Settled(rest), t.(newOffers := [])) == OfferMap(n) <==> key !in OfferMap(u)
  {
    var v := Undone(Settled(rest), t.(newOffers := []));
    forall k ensures Lookup(v, k) == if k == key && k in OfferMap(u) then Some(OfferMap(u)[k]) else Lookup(OfferMap(n), k) {
      RefusedKey(n, u, m, key, rest, t, k);
    }
    if key in OfferMap(u) {
      assert Lookup(v, key) != Lookup(OfferMap(n), key);
    } else {
      SameMap(v, OfferMap(n));
    }
  }

  lemma RefusedKey(n: Node<Offer>, u: Node<Offer>, m: Node<Offer>, key: Key, rest: Node<Offer>, t: Thunk, k: Key)
    requires BookOk(n) && BookOk(u) && OfferMap(u).Keys !! OfferMap(n).Keys
    requires NothingProvisional(n) && AllProvisional(u) && TakenIn(m, n, u)
    requires t.cancelled == Chosen(Leaves(n), DeletionMark)
    requires t.cleared == Empty && t.partial == None && RejectedFrom(rest, m, key)
    ensures Lookup(Undone(Settled(rest), t.(newOffers := [])), k) ==
            if k == key && k in OfferMap(u) then Some(OfferMap(u)[k]) else Lookup(OfferMap(n), k)
  {
    var s := t.(newOffers := []);
    assert NewKeys(s) == {} && OfferMap(s.cleared) == map[];
    UndoneAt(Settled(rest), s, k);
    RefusedAt(n, u, m, key, rest, k);
    CancelledAt(n, k);
    BookAt(n, k);
  }

  lemma RefusedAt(n: Node<Offer>, u: Node<Offer>, m: Node<Offer>, key: Key, rest: Node<Offer>, k: Key)
    requires BookOk(n) && BookOk(u) && OfferMap(u).Keys !! OfferMap(n).Keys
    requires NothingProvisional(n) && AllProvisional(u) && TakenIn(m, n, u) && RejectedFrom(rest, m, key)
    ensures Lookup(Settled(rest), k) ==
            if k in OfferMap(u) then (if k == key then Some(OfferMap(u)[k]) else None) else Lookup(LiveValues(n), k)
  {
    BookAt(rest, k);
    BookAt(u, k);
    BookAt(n, k);
    assert !Provisional(n, k);
    assert Get(m, k) == if Get(u, k).Some? then Get(u, k) else Unmarked(Get(n, k), DeletionMark);
  }

  /**
   Rolling back a validator's block, whether its record was refused, or fitted and failed a later check, gives back the
   book from before it exactly when the recorded threshold offer is not one of the block's own, and the header does
   not make the validator both keep and clear new offers.
   */
  lemma BlockRolledBack(
    n: Node<Offer>, news: seq<Offer>, u: Node<Offer>, m: Node<Offer>, rec: Commitment, accounts: set<nat>, c: nat,
    rest: Node<Offer>, t: Thunk)
    requires BookOk(n) && NothingProvisional(n) && DistinctOffers(news) && forall o :: o in news ==> OfferOk(o)
    requires OfferMap(u) == Kept(news, rec) && OfferMap(u).Keys !! OfferMap(n).Keys
    requires Validated(n, u, m, rec, accounts, c, rest, t)
    ensures Undone(Settled(rest), t.(newOffers := [])) == OfferMap(n) <==>
            rec.thresholdKey !in Kept(news, rec) && !KeepsAndClears(rec, news)
  {
    if RecordFits(OfferMap(m), rec, accounts) {
      ValidationRolledBack(n, u, m, c, SellAmount(rec.partialRaw), rest, t);
      NewAndCleared(m, rec, news, OfferMap(u), c, rest, t);
      ThresholdIsNew(m, rec, u, c, rest, t);
      NewKeysAre(u, t);
    } else {
      RefusedRolledBack(n, u, m, rec.thresholdKey, rest, t);
      if KeepsAndClears(rec, news) {
        ZeroKeyFits(m, rec, accounts);
      }
    }
  }

  /**
   The clearing part of a refused record was never filled in. Its flag for a partially executed offer is whatever the
   memory held; its key is the zero key. With the flag up, the undo inserts some offer `o` under that key, and the book is
   not restored.
   */
  lemma RefusedWithFlag(
    n: Node<Offer>, news: seq<Offer>, u: Node<Offer>, m: Node<Offer>, rec: Commitment, accounts: set<nat>, c: nat,
    rest: Node<Offer>, t: Thunk, flag: bool, amount: nat, o: Offer)
    requires BookOk(n) && NothingProvisional(n) && OfferMap(u) == Kept(news, rec) && OfferMap(u).Keys !! OfferMap(n).Keys
    requires Validated(n, u, m, rec, accounts, c, rest, t) && !RecordFits(OfferMap(m), rec, accounts)
    ensures var s := t.(newOffers := [], partial := if flag then Some(Partial(ZeroKey, amount, o)) else None);
            Undone(Settled(rest), s) == OfferMap(n) <==> !flag && rec.thresholdKey !in Kept(news, rec)
  {
    var s := t.(newOffers := [], partial := if flag then Some(Partial(ZeroKey, amount, o)) else None);
    if flag {
      UndoneAt(Settled(rest), s, ZeroKey);
      assert ZeroKey in Undone(Settled(rest), s);
      if ZeroKey in OfferMap(n) {
        ZeroKeyUnused(OfferMap(n)[ZeroKey]);
      }
    } else {
      assert s == t.(newOffers := []);
      RefusedRolledBack(n, u, m, rec.thresholdKey, rest, t);
    }
  }

  /** The same through the method of the class, on the state that `Validate` leaves. */
  method RollBack(
    v: WorkUnit, ghost n: Node<Offer>, ghost news: seq<Offer>, ghost u: Node<Offer>, ghost m: Node<Offer>,
    ghost rec: Commitment, ghost accounts: set<nat>, ghost c: nat)
    returns (ok: bool)
    requires v.Valid() && Clean(v.committed) && v.thunks != []
    requires BookOk(n) && NothingProvisional(n) && DistinctOffers(news) && forall o :: o in news ==> OfferOk(o)
    requires OfferMap(u) == Kept(news, rec) && OfferMap(u).Keys !! OfferMap(n).Keys
    requires Validated(n, u, m, rec, accounts, c, v.committed, Top(v.thunks))
    modifies v
    ensures ok <==> !(NothingSettled(old(v.committed)) && old(v.committed).prefix != []
                      && Chosen(Leaves(n), DeletionMark) != [])
    ensures ok ==> v.Valid() && v.thunks == old(v.thunks)[..|old(v.thunks)| - 1]
    ensures ok ==> (v.Book() == OfferMap(n) <==>
                    && rec.thresholdKey !in Kept(news, rec) && !KeepsAndClears(rec, news)
                    && !LoneProvisional(old(v.committed)))
  {
    RolledBackExact(n, news, u, m, rec, accounts, c, v.committed, Top(v.thunks));
    ok := v.RollbackValidation();
  }

  lemma RolledBackExact(
    n: Node<Offer>, news: seq<Offer>, u: Node<Offer>, m: Node<Offer>, rec: Commitment, accounts: set<nat>, c: nat,
    rest: Node<Offer>, t: Thunk)
    requires BookOk(n) && NothingProvisional(n) && DistinctOffers(news) && forall o :: o in news ==> OfferOk(o)
    requires OfferMap(u) == Kept(news, rec) && OfferMap(u).Keys !! OfferMap(n).Keys
    requires Validated(n, u, m, rec, accounts, c, rest, t)
    ensures Undone(RolledMap(rest), t.(newOffers := [])) == OfferMap(n) <==>
            && rec.thresholdKey !in Kept(news, rec) && !KeepsAndClears(rec, news)
            && !LoneProvisional(rest)
  {
    BlockRolledBack(n, news, u, m, rec, accounts, c, rest, t);
    if LoneProvisional(rest) {
      LoneLeafLeft(n, u, m, rec, accounts, c, rest, t);
    } else {
      LeafSettled(rest);
    }
  }

  /** All that is left of the book is one provisional offer. */
  ghost predicate LoneProvisional(rest: Node<Offer>) {
    rest.Leaf? && Marked(rest.entry, RollbackMark)
  }

  lemma LeafSettled(rest: Node<Offer>)
    requires !LoneProvisional(rest)
    ensures RolledMap(rest) == Settled(rest)
  {
    if rest.Leaf? {
      forall k ensures Lookup(Settled(rest), k) == Lookup(OfferMap(rest), k) {
      }
      SameMap(Settled(rest), OfferMap(rest));
    }
  }

  /** That offer is new, and stays. */
  lemma LoneLeafLeft(
    n: Node<Offer>, u: Node<Offer>, m: Node<Offer>, rec: Commitment, accounts: set<nat>, c: nat, rest: Node<Offer>, t: Thunk)
    requires NothingProvisional(n) && OfferMap(u).Keys !! OfferMap(n).Keys
    requires Validated(n, u, m, rec, accounts, c, rest, t) && LoneProvisional(rest)
    ensures Undone(RolledMap(rest), t.(newOffers := [])) != OfferMap(n)
  {
    var k, s := rest.key, t.(newOffers := []);
    LoneLeafNew(n, u, m, rec, accounts, c, rest, t);
    assert NewKeys(s) == {} && k in RolledMap(rest);
    UndoneAt(RolledMap(rest), s, k);
    assert k in Undone(RolledMap(rest), s);
  }

  lemma LoneLeafNew(
    n: Node<Offer>, u: Node<Offer>, m: Node<Offer>, rec: Commitment, accounts: set<nat>, c: nat, rest: Node<Offer>, t: Thunk)
    requires NothingProvisional(n)
    requires Validated(n, u, m, rec, accounts, c, rest, t) && LoneProvisional(rest)
    ensures rest.key in OfferMap(u)
  {
    var k := rest.key;
    assert Provisional(rest, k);
    assert Get(rest, k) == Get(m, k);
    assert !Provisional(n, k);
    assert Get(m, k) == if Get(u, k).Some? then Get(u, k) else Unmarked(Get(n, k), DeletionMark);
  }

  lemma ZeroKeyFits(m: Node<Offer>, rec: Commitment, accounts: set<nat>)
    requires BookOk(m) && rec.thresholdKey == ZeroKey && rec.partialRaw == 0
    ensures RecordFits(OfferMap(m), rec, accounts)
  {
    if ZeroKey in OfferMap(m) {
      ZeroKeyUnused(OfferMap(m)[ZeroKey]);
    }
  }

  /** So for a header that passes `check_sanity`, exactly when its threshold key is none of a new offer. */
  lemma SaneBlockRolledBack(
    n: Node<Offer>, news: seq<Offer>, u: Node<Offer>, m: Node<Offer>, rec: Commitment, accounts: set<nat>, c: nat,
    rest: Node<Offer>, t: Thunk)
    requires BookOk(n) && NothingProvisional(n) && DistinctOffers(news) && forall o :: o in news ==> OfferOk(o)
    requires OfferMap(u) == Kept(news, rec) && OfferMap(u).Keys !! OfferMap(n).Keys
    requires Validated(n, u, m, rec, accounts, c, rest, t) && Sane(rec)
    ensures Undone(Settled(rest), t.(newOffers := [])) == OfferMap(n) <==> rec.thresholdKey !in OffersMap(news)
  {
    BlockRolledBack(n, news, u, m, rec, accounts, c, rest, t);
    BeforeIrreflexive(rec.thresholdKey);
    if rec.thresholdKey in OffersMap(news) {
      OffersMapFiled(news, rec.thresholdKey);
      ZeroKeyUnused(OffersMap(news)[rec.thresholdKey]);
    }
  }

  // ---- The two failures are real -----------------------------------------------------------------------------------------

  /** A book of one offer. */
  lemma SingleBook(o: Offer, mark: int, n: Node<Offer>)
    requires OfferOk(o) && 0 <= mark <= 1 && n == Leaf(OfferKey(o), Fresh(o, mark))
    ensures BookOk(n) && Clean(n) && OfferList(n) == [o] && OfferMap(n) == map[OfferKey(o) := o]
    ensures forall k :: Get(n, k) == if k == OfferKey(o) then Some(Fresh(o, mark)) else None
    ensures Provisional(n, OfferKey(o)) <==> mark == 1
  {
  }

  lemma OneArrival(o: Offer, news: seq<Offer>, rec: Commitment)
    requires news == [o] && !rec.keyIsNull && !Before(OfferKey(o), rec.thresholdKey)
    ensures OffersMap(news) == map[OfferKey(o) := o] == Kept(news, rec)
  {
    assert news[..0] == [];
  }

  /** The empty book takes in one provisional offer. */
  lemma TakesInOne(o: Offer, news: seq<Offer>, rec: Commitment, u: Node<Offer>)
    requires OfferOk(o) && u == Leaf(OfferKey(o), Fresh(o, 1)) && news == [o]
    requires !rec.keyIsNull && !Before(OfferKey(o), rec.thresholdKey)
    ensures BookOk(u) && AllProvisional(u) && TakenIn(u, Empty, u) && OfferMap(u) == Kept(news, rec)
    ensures OfferList(u) == [o] && Chosen(Leaves<Offer>(Empty), DeletionMark) == []
    ensures LiveValues<Offer>(Empty) + OfferMap(u) == OfferMap(u)
  {
    SingleBook(o, 1, u);
    OneArrival(o, news, rec);
    forall k | Get(u, k).Some? ensures Provisional(u, k) {
      assert k == OfferKey(o);
    }
  }

  /**
   A new offer `o` is the threshold offer of its block, which fails the check of supplies (they are off by one unit of
   the lowest place) and is rolled back: `o` stays.
   */
  lemma NewThresholdStays(o: Offer, rec: Commitment, market: Market, u: Node<Offer>, rest: Node<Offer>, t: Thunk)
    requires OfferOk(o) && rec == Commitment(1, OfferKey(o), 0, false) && o.owner in market.accounts
    requires u == Leaf(OfferKey(o), Fresh(o, 1)) && rest == Leaf(OfferKey(o), Fresh(o, 0))
    requires t == Thunk(1, [o], [], Empty, Some(Partial(OfferKey(o), 0, o)))
    ensures Judged(Rejected, u, rec, market, [o], 0) && Sane(rec)
    ensures Validated(Empty, u, u, rec, market.accounts, 0, rest, t)
    ensures Undone(Settled(rest), t.(newOffers := [])) != map[]
  {
    var news := [o];
    BeforeIrreflexive(OfferKey(o));
    ZeroKeyUnused(o);
    TakesInOne(o, news, rec, u);
    SingleBook(o, 1, u);
    SingleBook(o, 0, rest);
    NothingEarly(o, news, rec);
    NewThresholdJudged(o, news, rec, market, u);
    assert o.(amount := o.amount - 0) == o;
    assert Validated(Empty, u, u, rec, market.accounts, 0, rest, t);
    BlockRolledBack(Empty, news, u, u, rec, market.accounts, 0, rest, t);
  }

  lemma NothingEarly(o: Offer, news: seq<Offer>, rec: Commitment)
    requires news == [o] && !Early(o, rec)
    ensures EarlyOnes(news, rec) == [] && Amounts(EarlyOnes(news, rec)) == 0
  {
    assert news[..0] == [];
  }

  lemma NewThresholdJudged(o: Offer, news: seq<Offer>, rec: Commitment, market: Market, u: Node<Offer>)
    requires OfferOk(o) && rec == Commitment(1, OfferKey(o), 0, false) && o.owner in market.accounts
    requires BookOk(u) && OfferList(u) == [o] && OfferMap(u) == map[OfferKey(o) := o]
    requires Amounts(EarlyOnes(news, rec)) == 0
    ensures Judged(Rejected, u, rec, market, news, 0)
  {
    assert OfferList(u)[..0] == [];
  }

  /**
   A header with the zero key and the flag down: the new offer `o` is kept, since no key precedes the zero key, then
   cleared with the whole book, and stays when `check_sanity` has failed and the block is rolled back.
   */
  lemma KeptAndClearedStays(o: Offer, rec: Commitment, market: Market, u: Node<Offer>, t: Thunk)
    requires OfferOk(o) && rec == Commitment(o.amount * RADIX, ZeroKey, 0, false) && Settles(o, market)
    requires o.amount * RADIX < U128
    requires u == Leaf(OfferKey(o), Fresh(o, 1)) && t == Thunk(1, [o], [], u, None)
    ensures Judged(Rejected, u, rec, market, [o], 1) && !Sane(rec)
    ensures Wrap128(Activated([o], rec, OfferList(u), 1) + rec.partialRaw) == rec.supply
    ensures Validated(Empty, u, u, rec, market.accounts, 1, Empty, t)
    ensures Undone(Settled(Empty), t.(newOffers := [])) != map[]
  {
    var news := [o];
    ZeroKeyUnused(o);
    TakesInOne(o, news, rec, u);
    SingleBook(o, 1, u);
    NothingEarly(o, news, rec);
    WholeBookActivated(o, news, rec, u);
    assert Validated(Empty, u, u, rec, market.accounts, 1, Empty, t);
    BlockRolledBack(Empty, news, u, u, rec, market.accounts, 1, Empty, t);
  }

  lemma WholeBookActivated(o: Offer, news: seq<Offer>, rec: Commitment, u: Node<Offer>)
    requires OfferList(u) == [o] && Amounts(EarlyOnes(news, rec)) == 0
    ensures Activated(news, rec, OfferList(u), 1) == o.amount * RADIX
  {
    var b := OfferList(u);
    assert b[..1] == [o];
    AmountsOne(o);
  }
}
