/**
 A cleared book told by the threshold key: what was cleared lies below it, what remains does not.
 */
module ClearedBooks {
  import opened Keys
  import opened Trie
  import opened Offers
  import opened BookMaps
  import opened OrderBook
  import opened Clearing
  import opened Undo

  /** The parts of a cleared book, told by the threshold key. */
  ghost predicate KeyParts(
    m: map<Key, Offer>, rest: map<Key, Offer>, cleared: map<Key, Offer>, partial: Option<Partial>)
  {
    && Parts(m, rest, cleared, partial)
    && (partial.Some? ==>
          var p := partial.value;
          && Lookup(rest, p.key) ==
             (if p.before.amount > p.amount then Some(p.before.(amount := p.before.amount - p.amount)) else None)
          && (forall k :: k in m ==> (k in cleared <==> Before(k, p.key))))
  }

  lemma ClearedAtKey(
    m: Node<Offer>, c: nat, sold: nat, rest: Node<Offer>, cleared: Node<Offer>, partial: Option<Partial>)
    requires BookOk(m) && ClearedAt(m, c, sold, rest, cleared, partial)
    ensures KeyParts(OfferMap(m), OfferMap(rest), OfferMap(cleared), partial)
  {
    var all, left, gone := OfferMap(m), OfferMap(rest), OfferMap(cleared);
    ClearedParts(m, c, sold, rest, cleared, partial);
    if partial.Some? {
      var p := partial.value;
      ThresholdLeft(m, c, sold, rest, cleared, p);
      AllClearedBelow(m, c, sold, rest, cleared, p, all, gone);
      KeySplit(all, left, gone, p);
    }
  }

  lemma KeySplit(all: map<Key, Offer>, left: map<Key, Offer>, gone: map<Key, Offer>, p: Partial)
    requires Parts(all, left, gone, Some(p))
    requires Lookup(left, p.key) ==
             if p.before.amount > p.amount then Some(p.before.(amount := p.before.amount - p.amount)) else None
    requires forall k :: k in all ==> (k in gone <==> Before(k, p.key))
    ensures KeyParts(all, left, gone, Some(p))
  {
  }

  lemma AllClearedBelow(
    m: Node<Offer>, c: nat, sold: nat, rest: Node<Offer>, cleared: Node<Offer>, p: Partial,
    all: map<Key, Offer>, gone: map<Key, Offer>)
    requires BookOk(m) && ClearedAt(m, c, sold, rest, cleared, Some(p))
    requires all == OfferMap(m) && gone == OfferMap(cleared)
    ensures forall k :: k in all ==> (k in gone <==> Before(k, p.key))
  {
    forall k | k in all ensures k in gone <==> Before(k, p.key) {
      ClearedIsBelow(m, c, sold, rest, cleared, p, k);
    }
  }

  /** Exactly the offers below the threshold key were cleared. */
  lemma ClearedIsBelow(m: Node<Offer>, c: nat, sold: nat, rest: Node<Offer>, cleared: Node<Offer>, p: Partial, k: Key)
    requires BookOk(m) && ClearedAt(m, c, sold, rest, cleared, Some(p)) && k in OfferMap(m)
    ensures k in OfferMap(cleared) <==> Before(k, p.key)
  {
    var b := OfferList(m);
    var o := OfferMap(m)[k];
    ListOrdered(m);
    IndexDecides(b, c);
    ListMember(m, o);
    ListMember(cleared, o);
    ClearedParts(m, c, sold, rest, cleared, Some(p));
    var i :| 0 <= i < |b| && b[i] == o;
    InFront(b, i, c);
  }

  lemma ThresholdLeft(m: Node<Offer>, c: nat, sold: nat, rest: Node<Offer>, cleared: Node<Offer>, p: Partial)
    requires BookOk(m) && ClearedAt(m, c, sold, rest, cleared, Some(p))
    ensures Lookup(OfferMap(rest), p.key) ==
            if p.before.amount > p.amount then Some(p.before.(amount := p.before.amount - p.amount)) else None
  {
    var b := OfferList(m);
    var left := p.before.(amount := p.before.amount - p.amount);
    assert OfferKey(left) == p.key;
    ListMember(rest, left);
    if p.before.amount > p.amount {
      assert OfferList(rest)[0] == left;
    } else {
      ListOrdered(m);
      AboveThreshold(b, c, OfferList(rest));
      forall k | k in OfferMap(rest) ensures Before(p.key, k) {
        KeyAbove(rest, p.key, k);
      }
      BeforeIrreflexive(p.key);
    }
  }

  lemma KeyAbove(n: Node<Offer>, key: Key, k: Key)
    requires BookOk(n) && k in OfferMap(n)
    requires forall i :: 0 <= i < |OfferList(n)| ==> Before(key, OfferKey(OfferList(n)[i]))
    ensures Before(key, k)
  {
    var o := OfferMap(n)[k];
    ListMember(n, o);
    var i :| 0 <= i < |OfferList(n)| && OfferList(n)[i] == o;
  }

  lemma ThresholdThere(m: Node<Offer>, c: nat, sold: nat, rest: Node<Offer>, cleared: Node<Offer>, partial: Option<Partial>)
    requires BookOk(m) && ClearedAt(m, c, sold, rest, cleared, partial)
    ensures partial.Some? ==>
              var p := partial.value; p.key in OfferMap(m) && OfferMap(m)[p.key] == p.before && p.amount <= p.before.amount
  {
    if partial.Some? {
      ListMember(m, partial.value.before);
    }
  }
}
