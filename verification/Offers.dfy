/**
 Offers, their keys, and the book of one asset pair read as the list of its offers from cheapest to dearest.
 */
module Offers {
  import opened Keys
  import opened KeyValues
  import opened Trie
  import opened TrieOrder
  import opened TrieMarks
  import opened TrieHash
  import opened TrieSplit
  import opened TrieQueries

  datatype Offer = Offer(minPrice: nat, owner: nat, offerId: nat, amount: nat)

  /** 6 price bytes, 8 owner bytes and 8 id bytes, in nibbles. */
  const PRICE_LEN := 12
  const KEY_LEN: nat := 44

  /** `generate_key`: price, owner and id, each big-endian. */
  function OfferKey(o: Offer): (k: Key)
    ensures |k| == KEY_LEN
  {
    Digits(o.minPrice, PRICE_LEN) + Digits(o.owner, 16) + Digits(o.offerId, 16)
  }

  /** Owner and id fit their key bytes: 64 bits each. */
  predicate WideIds(o: Offer) {
    o.owner < 0x1_0000_0000_0000_0000 && o.offerId < 0x1_0000_0000_0000_0000
  }

  predicate OfferOk(o: Offer) {
    && 0 < o.minPrice < Pow16(PRICE_LEN)
    && o.amount > 0
  }

  /** A fresh leaf for `o`: `OverwriteInsertFn` (mark 0) or `RollbackInsertFn` (mark 1). */
  function Fresh(o: Offer, rollback: int): Entry<Offer> {
    Entry(o, Meta(1, o.amount, 0, rollback))
  }

  ghost predicate EntryOk(k: Key, e: Entry<Offer>) {
    && k == OfferKey(e.value) && OfferOk(e.value)
    && e.meta.size == 1 && e.meta.endow == e.value.amount
    && 0 <= e.meta.deleted <= 1 && 0 <= e.meta.rollback <= 1
  }

  /** Every leaf is an offer filed under its own key. */
  ghost predicate EntriesOk(n: Node<Offer>) {
    forall k :: k in Contents(n) ==> EntryOk(k, Contents(n)[k])
  }

  ghost predicate BookOk(n: Node<Offer>) {
    CanonTrie(n, KEY_LEN) && EntriesOk(n)
  }

  lemma BookFacts(n: Node<Offer>)
    requires EntriesOk(n)
    ensures PositiveEndow(n) && MarksOk(n) && LeavesOk(n)
    ensures forall k :: Get(n, k).Some? ==> EntryOk(k, Get(n, k).value)
  {
  }

  // ---- The book as a list ------------------------------------------------------------------------------------

  ghost function OfferList(n: Node<Offer>): seq<Offer> {
    Values(Leaves(n))
  }

  ghost function OfferMap(n: Node<Offer>): map<Key, Offer> {
    map k | k in Contents(n) :: Contents(n)[k].value
  }

  function Amounts(b: seq<Offer>): int {
    if b == [] then 0 else Amounts(b[..|b| - 1]) + b[|b| - 1].amount
  }

  ghost predicate Filed(s: seq<Item<Offer>>) {
    forall i :: 0 <= i < |s| ==> EntryOk(s[i].key, s[i].entry)
  }

  lemma LeavesFiled(n: Node<Offer>)
    requires (n.Empty? || Shaped(n, KEY_LEN)) && EntriesOk(n)
    ensures Filed(Leaves(n)) && Sorted(Leaves(n))
  {
    if !n.Empty? {
      LeavesSorted(n, KEY_LEN);
      forall i | 0 <= i < |Leaves(n)| ensures EntryOk(Leaves(n)[i].key, Leaves(n)[i].entry) {
        LeafPresent(n, KEY_LEN, Leaves(n)[i]);
      }
    }
  }

  lemma {:induction false} TotalIsAmounts(s: seq<Item<Offer>>)
    requires Filed(s)
    ensures Total(s).endow == Amounts(Values(s))
  {
    if s != [] {
      TotalIsAmounts(s[..|s| - 1]);
      assert Values(s)[..|s| - 1] == Values(s[..|s| - 1]);
    }
  }

  lemma EndowIsAmounts(n: Node<Offer>)
    requires (n.Empty? || Shaped(n, KEY_LEN)) && EntriesOk(n)
    ensures MetaOf(n).endow == Amounts(OfferList(n))
  {
    LeavesFiled(n);
    CachedTotal(n, KEY_LEN);
    TotalIsAmounts(Leaves(n));
  }

  /** Offers strictly ordered by key. */
  ghost predicate BookOrder(b: seq<Offer>) {
    forall i, j :: 0 <= i < j < |b| ==> Before(OfferKey(b[i]), OfferKey(b[j]))
  }

  lemma ListOrdered(n: Node<Offer>)
    requires (n.Empty? || Shaped(n, KEY_LEN)) && EntriesOk(n)
    ensures BookOrder(OfferList(n))
    ensures forall i :: 0 <= i < |OfferList(n)| ==> OfferOk(OfferList(n)[i])
  {
    LeavesFiled(n);
  }

  /** Membership in the list is presence under the offer's key. */
  lemma ListMember(n: Node<Offer>, o: Offer)
    requires (n.Empty? || Shaped(n, KEY_LEN)) && EntriesOk(n)
    ensures o in OfferList(n) <==> OfferKey(o) in OfferMap(n) && OfferMap(n)[OfferKey(o)] == o
  {
    var s := Leaves(n);
    LeavesFiled(n);
    if o in OfferList(n) {
      var i :| 0 <= i < |s| && Values(s)[i] == o;
      LeafPresent(n, KEY_LEN, s[i]);
    }
    if OfferKey(o) in OfferMap(n) && OfferMap(n)[OfferKey(o)] == o {
      PresentLeaf(n, KEY_LEN, OfferKey(o));
      var i :| 0 <= i < |s| && s[i] == Item(OfferKey(o), Contents(n)[OfferKey(o)]);
      assert Values(s)[i] == o;
    }
  }

  lemma {:induction false} OrderedUnique(a: seq<Offer>, b: seq<Offer>)
    requires BookOrder(a) && BookOrder(b)
    requires forall o :: o in a <==> o in b
    ensures a == b
  {
    if a == [] {
      NoMembers(b);
    } else {
      SameFirst(a, b);
      var u, v := a[1..], b[1..];
      forall o ensures o in u <==> o in v {
        TailOffers(a, o);
        TailOffers(b, o);
      }
      OrderedUnique(u, v);
      assert a == [a[0]] + u && b == [b[0]] + v;
    }
  }

  lemma NoMembers(b: seq<Offer>)
    ensures b == [] || exists o :: o in b
  {
    if b != [] {
      assert b[0] in b;
    }
  }

  lemma SameFirst(a: seq<Offer>, b: seq<Offer>)
    requires BookOrder(a) && BookOrder(b) && a != []
    requires forall o :: o in a <==> o in b
    ensures b != [] && a[0] == b[0]
  {
    assert a[0] in b;
    var i :| 0 <= i < |b| && b[i] == a[0];
    assert b[0] in a;
    var j :| 0 <= j < |a| && a[j] == b[0];
    if i > 0 && j > 0 {
      BeforeAsymmetric(OfferKey(b[0]), OfferKey(b[i]));
    }
  }

  lemma TailOffers(a: seq<Offer>, o: Offer)
    requires BookOrder(a) && a != []
    ensures o in a[1..] <==> o in a && o != a[0]
  {
    var u := a[1..];
    if o in u {
      var i :| 0 <= i < |u| && u[i] == o;
      assert o == a[i + 1];
      BeforeAsymmetric(OfferKey(a[0]), OfferKey(a[i + 1]));
    }
    if o in a && o != a[0] {
      var i :| 0 <= i < |a| && a[i] == o;
      assert o == u[i - 1];
    }
  }

  /** Books with the same offers list them alike, and the other way around. */
  lemma SameOffers(m: Node<Offer>, n: Node<Offer>)
    requires (m.Empty? || Shaped(m, KEY_LEN)) && EntriesOk(m)
    requires (n.Empty? || Shaped(n, KEY_LEN)) && EntriesOk(n)
    ensures OfferMap(m) == OfferMap(n) <==> OfferList(m) == OfferList(n)
  {
    if OfferMap(m) == OfferMap(n) {
      ListOrdered(m);
      ListOrdered(n);
      forall o ensures o in OfferList(m) <==> o in OfferList(n) {
        ListMember(m, o);
        ListMember(n, o);
      }
      OrderedUnique(OfferList(m), OfferList(n));
    }
    if OfferList(m) == OfferList(n) {
      forall k | k in OfferMap(m) ensures k in OfferMap(n) && OfferMap(n)[k] == OfferMap(m)[k] {
        ListMember(m, OfferMap(m)[k]);
        ListMember(n, OfferMap(m)[k]);
      }
      forall k | k in OfferMap(n) ensures k in OfferMap(m) {
        ListMember(m, OfferMap(n)[k]);
        ListMember(n, OfferMap(n)[k]);
      }
      assert OfferMap(m) == OfferMap(n);
    }
  }

  // ---- The order of keys ---------------------------------------------------------------------------------------

  /**
   Keys are ordered by price, at one price by owner, and for one owner by offer id, so two offers have one key exactly
   if they agree in all three.
   */
  lemma KeyOrder(a: Offer, b: Offer)
    requires OfferOk(a) && OfferOk(b) && WideIds(a) && WideIds(b)
    ensures Before(OfferKey(a), OfferKey(b)) <==>
            || a.minPrice < b.minPrice
            || (a.minPrice == b.minPrice && a.owner < b.owner)
            || (a.minPrice == b.minPrice && a.owner == b.owner && a.offerId < b.offerId)
    ensures OfferKey(a) == OfferKey(b) <==> a.minPrice == b.minPrice && a.owner == b.owner && a.offerId == b.offerId
  {
    var p, q := Digits(a.minPrice, PRICE_LEN), Digits(b.minPrice, PRICE_LEN);
    var u, v := Digits(a.owner, 16), Digits(b.owner, 16);
    var x, y := Digits(a.offerId, 16), Digits(b.offerId, 16);
    Pow16Bits();
    DigitsOrder(a.minPrice, b.minPrice, PRICE_LEN);
    DigitsOrder(a.owner, b.owner, 16);
    DigitsOrder(a.offerId, b.offerId, 16);
    BeforeConcat(p, q, u, v);
    BeforeConcat(p + u, q + v, x, y);
    SameParts(p, q, u, v);
    SameParts(p + u, q + v, x, y);
  }

  lemma SameParts(a: Key, b: Key, x: Key, y: Key)
    requires |a| == |b|
    ensures a + x == b + y <==> a == b && x == y
  {
    assert (a + x)[..|a|] == a && (b + y)[..|a|] == b;
    assert (a + x)[|a|..] == x && (b + y)[|a|..] == y;
  }

  /** So a book is listed from cheapest to dearest. */
  lemma PricesAscend(b: seq<Offer>, i: nat, j: nat)
    requires BookOrder(b) && i < j < |b| && OfferOk(b[i]) && OfferOk(b[j])
    ensures b[i].minPrice <= b[j].minPrice
  {
    var p, q := Digits(b[i].minPrice, PRICE_LEN), Digits(b[j].minPrice, PRICE_LEN);
    var x, y := OfferKey(b[i])[PRICE_LEN..], OfferKey(b[j])[PRICE_LEN..];
    assert OfferKey(b[i]) == p + x && OfferKey(b[j]) == q + y;
    BeforeConcat(p, q, x, y);
    DigitsOrder(b[i].minPrice, b[j].minPrice, PRICE_LEN);
  }

  // ---- The zero key ------------------------------------------------------------------------------------------

  const ZeroKey: Key := Digits(0, KEY_LEN)

  lemma {:induction false} DigitsZero(n: nat)
    ensures forall i :: 0 <= i < n ==> Digits(0, n)[i] == 0
  {
    if n > 0 {
      DigitsZero(n - 1);
      DigitsStep(0, n);
    }
  }

  lemma {:induction false} ValueZero(k: Key)
    requires forall i :: 0 <= i < |k| ==> k[i] == 0
    ensures Value(k) == 0
  {
    if k != [] {
      ValueZero(k[..|k| - 1]);
    }
  }

  /** Prices are positive, so no offer has the all-zero key, and none precedes it. */
  lemma ZeroKeyUnused(o: Offer)
    requires OfferOk(o)
    ensures OfferKey(o) != ZeroKey && !Before(OfferKey(o), ZeroKey)
  {
    var k := OfferKey(o);
    DigitsZero(KEY_LEN);
    assert k[..PRICE_LEN] == Digits(o.minPrice, PRICE_LEN);
    ValueOfDigits(o.minPrice, PRICE_LEN);
    if k == ZeroKey {
      ValueZero(k[..PRICE_LEN]);
    }
  }
}
