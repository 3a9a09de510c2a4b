/**
 Books read key by key: what marking, pruning, merging and inserting do to the offers of a book.
 */
module BookMaps {
  import opened Keys
  import opened Trie
  import opened TrieMarks
  import opened TrieHash
  import opened Offers

  /** No leaf is marked for deletion. */
  ghost predicate Clean(n: Node<Offer>) {
    forall k :: Get(n, k).Some? ==> Get(n, k).value.meta.deleted == 0
  }

  // ---- Books read key by key -----------------------------------------------------------------------------------

  ghost function Lookup(b: map<Key, Offer>, k: Key): Option<Offer> {
    if k in b then Some(b[k]) else None
  }

  ghost function OfferAt(n: Node<Offer>, k: Key): Option<Offer> {
    if Get(n, k).Some? then Some(Get(n, k).value.value) else None
  }

  lemma BookIs(n: Node<Offer>, b: map<Key, Offer>)
    requires forall k :: OfferAt(n, k) == Lookup(b, k)
    ensures OfferMap(n) == b
  {
    var m := OfferMap(n);
    forall k ensures Lookup(m, k) == Lookup(b, k) {
      assert OfferAt(n, k) == Lookup(b, k);
    }
    SameMap(m, b);
  }

  lemma SameMap(m: map<Key, Offer>, b: map<Key, Offer>)
    requires forall k :: Lookup(m, k) == Lookup(b, k)
    ensures m == b
  {
    assert forall k :: k in m <==> Lookup(m, k).Some?;
    assert forall k :: k in b <==> Lookup(b, k).Some?;
    forall k | k in m ensures m[k] == b[k] {
      assert Lookup(m, k) == Lookup(b, k);
    }
  }

  lemma BookAt(n: Node<Offer>, k: Key)
    ensures Lookup(OfferMap(n), k) == OfferAt(n, k)
    ensures Lookup(LiveValues(n), k) == if Get(n, k).Some? && Marked(Get(n, k).value, DeletionMark) then None else OfferAt(n, k)
  {
  }

  lemma EntriesByKey(n: Node<Offer>)
    requires forall k :: Get(n, k).Some? ==> EntryOk(k, Get(n, k).value)
    ensures EntriesOk(n)
  {
    forall k | k in Contents(n) ensures EntryOk(k, Contents(n)[k]) {
      assert Get(n, k) == Some(Contents(n)[k]);
    }
  }

  lemma EntryAt(n: Node<Offer>, k: Key)
    requires EntriesOk(n) && Get(n, k).Some?
    ensures EntryOk(k, Get(n, k).value)
  {
  }

  /** Marking the leaf under `k`. */
  lemma MarkedAt(r: Node<Offer>, n: Node<Offer>, k: Key, o: Option<Offer>, h: Key)
    requires MarkSwapped(r, n, k, 0, 1, o)
    ensures Get(r, h) == if h == k && o.Some? then Some(WithDeleted(Get(n, k).value, 1)) else Get(n, h)
    ensures o.Some? <==> Get(n, k).Some? && Get(n, k).value.meta.deleted == 0
  {
    if Get(n, k).Some? && Get(n, k).value.meta.deleted == 0 {
      var c := Contents(n)[k := WithDeleted(Get(n, k).value, 1)];
      assert Contents(r) == c;
    }
  }

  lemma MarkedBook(r: Node<Offer>, n: Node<Offer>, k: Key, o: Option<Offer>)
    requires BookOk(n) && Canon(r, KEY_LEN) && MarkSwapped(r, n, k, 0, 1, o)
    ensures BookOk(r) && OfferMap(r) == OfferMap(n)
    ensures LiveValues(r) == LiveValues(n) - {k}
    ensures o == if k in LiveValues(n) then Some(LiveValues(n)[k]) else None
  {
    forall h | Get(r, h).Some? ensures EntryOk(h, Get(r, h).value) {
      MarkedAt(r, n, k, o, h);
      EntryAt(n, h);
    }
    EntriesByKey(r);
    forall h ensures OfferAt(r, h) == Lookup(OfferMap(n), h) {
      MarkedAt(r, n, k, o, h);
      BookAt(n, h);
    }
    BookIs(r, OfferMap(n));
    MarkedLive(r, n, k, o);
  }

  lemma MarkedLive(r: Node<Offer>, n: Node<Offer>, k: Key, o: Option<Offer>)
    requires BookOk(n) && MarkSwapped(r, n, k, 0, 1, o)
    ensures LiveValues(r) == LiveValues(n) - {k}
    ensures o == if k in LiveValues(n) then Some(LiveValues(n)[k]) else None
  {
    var m, b := LiveValues(r), LiveValues(n) - {k};
    forall h ensures Lookup(m, h) == Lookup(b, h) {
      MarkedAt(r, n, k, o, h);
      BookAt(n, h);
      BookAt(r, h);
      if Get(n, h).Some? {
        EntryAt(n, h);
      }
    }
    SameMap(m, b);
    BookAt(n, k);
    if Get(n, k).Some? {
      EntryAt(n, k);
    }
  }

  /** Removing the marked leaves leaves the live part of the book. */
  lemma PrunedBook(r: Node<Offer>, n: Node<Offer>)
    requires BookOk(n) && CanonTrie(r, KEY_LEN) && Pruned(r, n, DeletionMark)
    ensures BookOk(r) && Clean(r) && OfferMap(r) == LiveValues(n)
  {
    forall k | Get(r, k).Some? ensures EntryOk(k, Get(r, k).value) && Get(r, k).value.meta.deleted == 0 {
      assert Get(r, k) == Unmarked(Get(n, k), DeletionMark);
      EntryAt(n, k);
    }
    EntriesByKey(r);
    forall k ensures OfferAt(r, k) == Lookup(LiveValues(n), k) {
      assert Get(r, k) == Unmarked(Get(n, k), DeletionMark);
      BookAt(n, k);
    }
    BookIs(r, LiveValues(n));
  }

  lemma UnionAt(m: Node<Offer>, a: Node<Offer>, b: Node<Offer>, k: Key)
    requires Contents(m) == Contents(a) + Contents(b)
    ensures Get(m, k) == if Get(b, k).Some? then Get(b, k) else Get(a, k)
  {
  }

  lemma MergedBook(m: Node<Offer>, a: Node<Offer>, b: Node<Offer>)
    requires BookOk(a) && BookOk(b)
    requires CanonTrie(m, KEY_LEN) && Contents(m) == Contents(a) + Contents(b)
    ensures BookOk(m) && OfferMap(m) == OfferMap(a) + OfferMap(b)
    ensures Clean(a) && Clean(b) ==> Clean(m)
  {
    forall k | Get(m, k).Some?
      ensures EntryOk(k, Get(m, k).value)
      ensures Clean(a) && Clean(b) ==> Get(m, k).value.meta.deleted == 0
    {
      UnionAt(m, a, b, k);
      if Get(b, k).Some? {
        EntryAt(b, k);
      } else {
        EntryAt(a, k);
      }
    }
    EntriesByKey(m);
    var u := OfferMap(a) + OfferMap(b);
    forall k ensures OfferAt(m, k) == Lookup(u, k) {
      UnionAt(m, a, b, k);
      BookAt(a, k);
      BookAt(b, k);
    }
    BookIs(m, u);
  }

  lemma InsertedAt(r: Node<Offer>, n: Node<Offer>, o: Offer, mark: int, k: Key)
    requires Contents(r) == Contents(n)[OfferKey(o) := Fresh(o, mark)]
    ensures Get(r, k) == if k == OfferKey(o) then Some(Fresh(o, mark)) else Get(n, k)
  {
  }

  lemma InsertedBook(r: Node<Offer>, n: Node<Offer>, o: Offer, mark: int)
    requires BookOk(n) && OfferOk(o) && 0 <= mark <= 1
    requires CanonTrie(r, KEY_LEN) && Contents(r) == Contents(n)[OfferKey(o) := Fresh(o, mark)]
    ensures BookOk(r) && OfferMap(r) == OfferMap(n)[OfferKey(o) := o]
    ensures Clean(n) ==> Clean(r)
  {
    forall k | Get(r, k).Some?
      ensures EntryOk(k, Get(r, k).value)
      ensures Clean(n) ==> Get(r, k).value.meta.deleted == 0
    {
      InsertedAt(r, n, o, mark, k);
      if k != OfferKey(o) {
        EntryAt(n, k);
      }
    }
    EntriesByKey(r);
    var u := OfferMap(n)[OfferKey(o) := o];
    forall k ensures OfferAt(r, k) == Lookup(u, k) {
      InsertedAt(r, n, o, mark, k);
      BookAt(n, k);
    }
    BookIs(r, u);
  }
}
