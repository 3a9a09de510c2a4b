/**
 Whole blocks: what a block's record says about the book before and after it, and when undoing the block restores the
 book.
 */
module Blocks {
  import opened Keys
  import opened FixedPoint
  import opened Trie
  import opened TrieOrder
  import opened TrieMarks
  import opened TrieHash
  import opened Offers
  import opened BookMaps
  import opened OrderBook
  import opened Clearing
  import opened Undo
  import opened WorkUnits

  // ---- One block and its undo ---------------------------------------------------------------------------------------

  /** The offers of a list by key, later ones winning. */
  ghost function OffersMap(s: seq<Offer>): map<Key, Offer> {
    if s == [] then map[] else OffersMap(s[..|s| - 1])[OfferKey(s[|s| - 1]) := s[|s| - 1]]
  }

  lemma {:induction false} OffersMapWithin(s: seq<Offer>, m: map<Key, Offer>, k: Key)
    requires forall o :: o in s ==> OfferKey(o) in m && m[OfferKey(o)] == o
    ensures k in OffersMap(s) ==> k in m && OffersMap(s)[k] == m[k]
    ensures k in m && m[k] in s && OfferKey(m[k]) == k ==> k in OffersMap(s)
  {
    if s != [] {
      var init, last := s[..|s| - 1], s[|s| - 1];
      assert forall o :: o in s <==> o in init || o == last;
      OffersMapWithin(init, m, k);
    }
  }

  lemma {:induction false} OffersMapKeys(s: seq<Offer>)
    ensures OffersMap(s).Keys == KeysOf(s)
  {
    if s != [] {
      OffersMapKeys(s[..|s| - 1]);
      MoreKeys(s, |s| - 1);
      assert s[..|s|] == s;
    }
  }

  lemma ListedOffers(u: Node<Offer>)
    requires BookOk(u)
    ensures OffersMap(OfferList(u)) == OfferMap(u)
  {
    var s, m := OfferList(u), OfferMap(u);
    forall o | o in s ensures OfferKey(o) in m && m[OfferKey(o)] == o {
      ListMember(u, o);
    }
    forall k ensures Lookup(OffersMap(s), k) == Lookup(m, k) {
      OffersMapWithin(s, m, k);
      if k in m {
        ListMember(u, m[k]);
      }
    }
    SameMap(OffersMap(s), m);
  }

  /** Record `t` describes a block that turned the offers `before` into `after`. */
  ghost predicate BlockStep(before: map<Key, Offer>, after: map<Key, Offer>, t: Thunk) {
    var cancelled := ItemsMap(t.cancelled);
    && (forall k :: k in cancelled ==> k in before && before[k] == cancelled[k])
    && NewKeys(t) !! before.Keys
    && Parts((before - cancelled.Keys) + OffersMap(t.newOffers), after, OfferMap(t.cleared), t.partial)
  }

  /** The partially executed offer is older than the block. */
  ghost predicate PartialIsOld(t: Thunk) {
    t.partial.None? || t.partial.value.key !in NewKeys(t)
  }

  /** A block taken in and cleared leaves such a record. */
  lemma BlockRecorded(
    n: Node<Offer>, u: Node<Offer>, m: Node<Offer>, c: nat, sold: nat, rest: Node<Offer>, cleared: Node<Offer>, t: Thunk)
    requires BookOk(n) && BookOk(u) && BookOk(m) && OfferMap(u).Keys !! OfferMap(n).Keys
    requires OfferMap(m) == LiveValues(n) + OfferMap(u)
    requires ClearedAt(m, c, sold, rest, cleared, t.partial)
    requires t.newOffers == OfferList(u) && t.cancelled == Chosen(Leaves(n), DeletionMark) && t.cleared == cleared
    ensures BlockStep(OfferMap(n), OfferMap(rest), t)
  {
    CancelledMap(n);
    ListedOffers(u);
    ClearedParts(m, c, sold, rest, cleared, t.partial);
    StepOfParts(OfferMap(n), LiveValues(n), OfferMap(u), OfferMap(rest), t);
  }

  lemma StepOfParts(
    before: map<Key, Offer>, staying: map<Key, Offer>, created: map<Key, Offer>, after: map<Key, Offer>, t: Thunk)
    requires ItemsMap(t.cancelled) + staying == before && ItemsMap(t.cancelled).Keys !! staying.Keys
    requires OffersMap(t.newOffers) == created && created.Keys !! before.Keys
    requires Parts(staying + created, after, OfferMap(t.cleared), t.partial)
    ensures BlockStep(before, after, t)
  {
    Complement(before, ItemsMap(t.cancelled), staying);
    OffersMapKeys(t.newOffers);
  }

  lemma Complement(m: map<Key, Offer>, a: map<Key, Offer>, b: map<Key, Offer>)
    requires a + b == m && a.Keys !! b.Keys
    ensures m - a.Keys == b
    ensures forall k :: k in a ==> k in m && m[k] == a[k]
  {
    forall k ensures Lookup(m - a.Keys, k) == Lookup(b, k) {
    }
    SameMap(m - a.Keys, b);
  }

  /** Undoing a block gives back the book exactly when the partially executed offer was not new in the block. */
  lemma BlockUndone(before: map<Key, Offer>, after: map<Key, Offer>, t: Thunk)
    requires BlockStep(before, after, t)
    ensures Undone(after, t) == before <==> PartialIsOld(t)
  {
    var cancelled, created := ItemsMap(t.cancelled), OffersMap(t.newOffers);
    var staying := before - cancelled.Keys;
    OffersMapKeys(t.newOffers);
    assert before == cancelled + staying;
    UndoRestores(before, cancelled, staying, created, after, OfferMap(t.cleared), t.partial);
  }

  lemma OneOffer(z: Offer, s: seq<Offer>)
    requires s == [z]
    ensures OffersMap(s) == map[OfferKey(z) := z]
  {
    assert s[..0] == [];
  }

  /** An offer created by the block as its threshold offer, `z` being all there is: it stays after the undo. */
  lemma BlockNotUndone(z: Offer, t: Thunk)
    requires t == Thunk(1, [z], [], Empty, Some(Partial(OfferKey(z), 0, z)))
    ensures BlockStep(map[], map[OfferKey(z) := z], t)
    ensures !PartialIsOld(t) && Undone(map[OfferKey(z) := z], t) != map[]
  {
    var before: map<Key, Offer> := map[];
    var after := map[OfferKey(z) := z];
    OneOffer(z, t.newOffers);
    assert NewKeys(t) == {OfferKey(z)};
    assert ItemsMap(t.cancelled) == map[] && OfferMap(t.cleared) == map[];
    assert (before - ItemsMap(t.cancelled).Keys) + OffersMap(t.newOffers) == after;
    BlockUndone(before, after, t);
  }

  /** A produced block rolled back at once: the book is as before exactly under the condition of `BlockUndone`. */
  method ProduceAndUndo(w: WorkUnit, block: nat, supply: nat, market: Market) returns (produced: bool)
    requires w.Valid() && OfferMap(w.uncommitted).Keys !! w.Book().Keys
    requires w.thunks == [] || Top(w.thunks).block + 1 == block
    modifies w
    ensures produced ==> w.Valid() && |w.thunks| == |old(w.thunks)| + 1
    ensures produced ==> (w.Book() == old(w.Book()) <==> PartialIsOld(Top(w.thunks)))
  {
    ghost var n, u := w.committed, w.uncommitted;
    var started := w.TentativeCommit(block);
    ghost var m := w.committed;
    var rec;
    ghost var c;
    produced, rec, c := w.ClearOffers(supply, market);
    if produced {
      var t := Top(w.thunks);
      assert t in w.thunks;
      BlockRecorded(n, u, m, c, Ceil(rec.partialRaw), w.committed, t.cleared, t);
      BlockUndone(OfferMap(n), w.Book(), t);
      w.UndoThunk(t);
    }
  }
}
