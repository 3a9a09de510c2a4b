/**
 Undoing several blocks, and rolling back a validation: exactly when the code's procedures restore the book.
 */
module UndoOrder {
  import opened Keys
  import opened Trie
  import opened TrieOrder
  import opened TrieMarks
  import opened TrieHash
  import opened Offers
  import opened BookMaps
  import opened OrderBook
  import opened Clearing
  import opened Undo
  import opened WorkUnits
  import opened Blocks

  // ---- What an undo writes ------------------------------------------------------------------------------------------

  datatype Write = Keep | Put(offer: Option<Offer>)

  ghost function Apply(w: Write, old_: Option<Offer>): Option<Offer> {
    if w.Keep? then old_ else w.offer
  }

  /** What undoing `t` writes under `k`, whatever was there. */
  ghost function WriteOf(t: Thunk, k: Key): Write {
    if t.partial.Some? && k == t.partial.value.key then Put(Some(t.partial.value.before))
    else if k in NewKeys(t) then Put(None)
    else if k in OfferMap(t.cleared) then Put(Some(OfferMap(t.cleared)[k]))
    else if k in ItemsMap(t.cancelled) then Put(Some(ItemsMap(t.cancelled)[k]))
    else Keep
  }

  lemma UndoneAt(b: map<Key, Offer>, t: Thunk, k: Key)
    ensures Lookup(Undone(b, t), k) == Apply(WriteOf(t, k), Lookup(b, k))
  {
  }

  /** The write of the oldest, and of the newest, record that writes under `k`. */
  ghost function FirstWrite(ts: seq<Thunk>, k: Key): Write {
    if ts == [] then Keep
    else if FirstWrite(ts[..|ts| - 1], k).Put? then FirstWrite(ts[..|ts| - 1], k) else WriteOf(Top(ts), k)
  }

  ghost function LastWrite(ts: seq<Thunk>, k: Key): Write {
    if ts == [] then Keep else if WriteOf(Top(ts), k).Put? then WriteOf(Top(ts), k) else LastWrite(ts[..|ts| - 1], k)
  }

  ghost predicate WritesAgree(ts: seq<Thunk>, k: Key) {
    FirstWrite(ts, k) == LastWrite(ts, k)
  }

  lemma {:induction false} SameWriters(ts: seq<Thunk>, k: Key)
    ensures FirstWrite(ts, k).Keep? <==> LastWrite(ts, k).Keep?
  {
    if ts != [] {
      SameWriters(ts[..|ts| - 1], k);
    }
  }

  // ---- The two orders -------------------------------------------------------------------------------------------------

  /** Undoing `ts` from the newest to the oldest. */
  ghost function UndoneBack(b: map<Key, Offer>, ts: seq<Thunk>): map<Key, Offer>
    decreases |ts|
  {
    if ts == [] then b else UndoneBack(Undone(b, Top(ts)), ts[..|ts| - 1])
  }

  lemma {:induction false} OldestFirstAt(b: map<Key, Offer>, ts: seq<Thunk>, k: Key)
    ensures Lookup(UndoneAll(b, ts), k) == Apply(LastWrite(ts, k), Lookup(b, k))
  {
    if ts != [] {
      OldestFirstAt(b, ts[..|ts| - 1], k);
      UndoneAt(UndoneAll(b, ts[..|ts| - 1]), Top(ts), k);
    }
  }

  lemma {:induction false} NewestFirstAt(b: map<Key, Offer>, ts: seq<Thunk>, k: Key)
    ensures Lookup(UndoneBack(b, ts), k) == Apply(FirstWrite(ts, k), Lookup(b, k))
    decreases |ts|
  {
    if ts != [] {
      NewestFirstAt(Undone(b, Top(ts)), ts[..|ts| - 1], k);
      UndoneAt(b, Top(ts), k);
    }
  }

  /** Consecutive blocks: `books[i]` became `books[i + 1]` by the block recorded in `ts[i]`. */
  ghost predicate Run(books: seq<map<Key, Offer>>, ts: seq<Thunk>) {
    && |books| == |ts| + 1
    && forall i :: 0 <= i < |ts| ==> BlockStep(books[i], books[i + 1], ts[i]) && PartialIsOld(ts[i])
  }

  /** Newest first, undoing a run restores the book from before it. */
  lemma {:induction false} NewestFirstRestores(books: seq<map<Key, Offer>>, ts: seq<Thunk>)
    requires Run(books, ts)
    ensures UndoneBack(books[|ts|], ts) == books[0]
    decreases |ts|
  {
    if ts != [] {
      var i := |ts| - 1;
      assert BlockStep(books[i], books[i + 1], ts[i]) && PartialIsOld(ts[i]);
      BlockUndone(books[i], books[i + 1], ts[i]);
      NewestFirstRestores(books[..i + 1], ts[..i]);
    }
  }

  /**
   `rollback_thunks` works oldest first. That restores the book exactly when, for each key, the oldest and the newest
   record that write under it write the same.
   */
  lemma OldestFirstExact(books: seq<map<Key, Offer>>, ts: seq<Thunk>)
    requires Run(books, ts)
    ensures UndoneAll(books[|ts|], ts) == books[0] <==> forall k :: WritesAgree(ts, k)
  {
    NewestFirstRestores(books, ts);
    OrdersAgree(books[|ts|], ts);
  }

  lemma OrdersAgree(b: map<Key, Offer>, ts: seq<Thunk>)
    ensures UndoneAll(b, ts) == UndoneBack(b, ts) <==> forall k :: WritesAgree(ts, k)
  {
    var u, v := UndoneAll(b, ts), UndoneBack(b, ts);
    forall k ensures Lookup(u, k) == Lookup(v, k) <==> WritesAgree(ts, k) {
      OldestFirstAt(b, ts, k);
      NewestFirstAt(b, ts, k);
      SameWriters(ts, k);
    }
    if k :| !WritesAgree(ts, k) {
      assert Lookup(u, k) != Lookup(v, k);
    } else {
      SameMap(u, v);
    }
  }

  /** An idle record: nothing sold, `z` being the cheapest offer. */
  ghost function IdlePartial(z: Offer): Option<Partial> {
    Some(Partial(OfferKey(z), 0, z))
  }

  /** An offer created by one block and cancelled by the next comes back when the two are undone oldest first. */
  lemma OldestFirstFails(z: Offer, o: Offer, e: Entry<Offer>)
    requires OfferKey(z) != OfferKey(o) && e.value == o
    ensures var t1 := Thunk(1, [o], [], Empty, IdlePartial(z));
            var t2 := Thunk(2, [], [Item(OfferKey(o), e)], Empty, IdlePartial(z));
            var b := map[OfferKey(z) := z];
            && Run([b, b[OfferKey(o) := o], b], [t1, t2])
            && UndoneAll(b, [t1, t2]) != b
  {
    var t1 := Thunk(1, [o], [], Empty, IdlePartial(z));
    var t2 := Thunk(2, [], [Item(OfferKey(o), e)], Empty, IdlePartial(z));
    var b := map[OfferKey(z) := z];
    var k := OfferKey(o);
    FirstStep(z, o, t1);
    SecondStep(z, o, e, t2);
    var ts := [t1, t2];
    assert Top(ts) == t2;
    OldestFirstAt(b, ts, k);
  }

  lemma FirstStep(z: Offer, o: Offer, t: Thunk)
    requires OfferKey(z) != OfferKey(o) && t == Thunk(1, [o], [], Empty, IdlePartial(z))
    ensures var b := map[OfferKey(z) := z]; BlockStep(b, b[OfferKey(o) := o], t) && PartialIsOld(t)
  {
    assert t.newOffers[..0] == [];
    assert NewKeys(t) == {OfferKey(o)};
    assert OffersMap(t.newOffers) == map[OfferKey(o) := o];
    assert OfferMap(t.cleared) == map[];
    var b := map[OfferKey(z) := z];
    assert (b - ItemsMap(t.cancelled).Keys) + OffersMap(t.newOffers) == b[OfferKey(o) := o];
  }

  lemma SecondStep(z: Offer, o: Offer, e: Entry<Offer>, t: Thunk)
    requires OfferKey(z) != OfferKey(o) && e.value == o
    requires t == Thunk(2, [], [Item(OfferKey(o), e)], Empty, IdlePartial(z))
    ensures var b := map[OfferKey(z) := z]; BlockStep(b[OfferKey(o) := o], b, t) && PartialIsOld(t)
    ensures WriteOf(t, OfferKey(o)) == Put(Some(o))
  {
    assert t.cancelled[..0] == [];
    assert NewKeys(t) == {};
    assert ItemsMap(t.cancelled) == map[OfferKey(o) := o];
    assert OfferMap(t.cleared) == map[];
    var b := map[OfferKey(z) := z];
    assert (b[OfferKey(o) := o] - ItemsMap(t.cancelled).Keys) + OffersMap(t.newOffers) == b;
  }

  // ---- Rolling back a validation ----------------------------------------------------------------------------------------

  ghost predicate NothingProvisional(n: Node<Offer>) {
    forall k :: !Provisional(n, k)
  }

  ghost predicate AllProvisional(n: Node<Offer>) {
    forall k :: Get(n, k).Some? ==> Provisional(n, k)
  }

  /** What is settled in the remaining book: all of it but the block's own offers; the threshold offer is settled. */
  lemma SettledRest(
    n: Node<Offer>, u: Node<Offer>, m: Node<Offer>, c: nat, sold: nat, rest: Node<Offer>, cleared: Node<Offer>,
    partial: Option<Partial>, k: Key)
    requires NothingProvisional(n) && AllProvisional(u) && TakenIn(m, n, u)
    requires ClearedAt(m, c, sold, rest, cleared, partial)
    ensures KeyOf(partial) != Some(k) ==>
              Lookup(Settled(rest), k) == if k in OfferMap(u) then None else Lookup(OfferMap(rest), k)
  {
    BookAt(rest, k);
    BookAt(u, k);
    assert !Provisional(n, k);
    if Get(rest, k).Some? && KeyOf(partial) != Some(k) {
      assert Get(rest, k) == Get(m, k);
      assert Get(m, k) == if Get(u, k).Some? then Get(u, k) else Unmarked(Get(n, k), DeletionMark);
    }
  }

  /** `settled` is `after` without the offers `created`, except under the threshold key. */
  ghost predicate WithoutCreated(
    settled: map<Key, Offer>, created: map<Key, Offer>, after: map<Key, Offer>, partial: Option<Partial>)
  {
    forall k :: KeyOf(partial) != Some(k) ==> Lookup(settled, k) == if k in created then None else Lookup(after, k)
  }

  lemma SettledBook(
    n: Node<Offer>, u: Node<Offer>, m: Node<Offer>, c: nat, sold: nat, rest: Node<Offer>, cleared: Node<Offer>,
    partial: Option<Partial>)
    requires NothingProvisional(n) && AllProvisional(u) && TakenIn(m, n, u)
    requires ClearedAt(m, c, sold, rest, cleared, partial)
    ensures WithoutCreated(Settled(rest), OfferMap(u), OfferMap(rest), partial)
  {
    forall k ensures KeyOf(partial) != Some(k) ==>
                       Lookup(Settled(rest), k) == if k in OfferMap(u) then None else Lookup(OfferMap(rest), k) {
      SettledRest(n, u, m, c, sold, rest, cleared, partial, k);
    }
  }

  /**
   Rolling back a validation (with the block's record `t`) gives back the book from before it exactly when the
   partially executed offer and all cleared offers are older than the block: new offers that were cleared are merged
   back in after the provisional leaves were dropped, and stay.
   */
  lemma ValidationRolledBack(
    n: Node<Offer>, u: Node<Offer>, m: Node<Offer>, c: nat, sold: nat, rest: Node<Offer>, t: Thunk)
    requires BookOk(n) && BookOk(u) && BookOk(m) && OfferMap(u).Keys !! OfferMap(n).Keys
    requires NothingProvisional(n) && AllProvisional(u) && TakenIn(m, n, u)
    requires OfferMap(m) == LiveValues(n) + OfferMap(u)
    requires ClearedAt(m, c, sold, rest, t.cleared, t.partial)
    requires t.newOffers == OfferList(u) && t.cancelled == Chosen(Leaves(n), DeletionMark)
    ensures Undone(Settled(rest), t.(newOffers := [])) == OfferMap(n) <==>
            PartialIsOld(t) && OfferMap(t.cleared).Keys !! NewKeys(t)
  {
    CancelledMap(n);
    ListedOffers(u);
    OffersMapKeys(t.newOffers);
    ClearedParts(m, c, sold, rest, t.cleared, t.partial);
    SettledBook(n, u, m, c, sold, rest, t.cleared, t.partial);
    RollbackRestores(OfferMap(n), LiveValues(n), OfferMap(u), OfferMap(rest), Settled(rest), t);
  }

  lemma RollbackRestores(
    before: map<Key, Offer>, staying: map<Key, Offer>, created: map<Key, Offer>,
    after: map<Key, Offer>, settled: map<Key, Offer>, t: Thunk)
    requires ItemsMap(t.cancelled) + staying == before && ItemsMap(t.cancelled).Keys !! staying.Keys
    requires created.Keys == NewKeys(t) && created.Keys !! before.Keys
    requires Parts(staying + created, after, OfferMap(t.cleared), t.partial)
    requires WithoutCreated(settled, created, after, t.partial)
    ensures Undone(settled, t.(newOffers := [])) == before <==> PartialIsOld(t) && OfferMap(t.cleared).Keys !! NewKeys(t)
  {
    var s := t.(newOffers := []);
    var u := Undone(settled, s);
    if !PartialIsOld(t) {
      UndoneAt(settled, s, t.partial.value.key);
      assert t.partial.value.key in u;
    } else if k :| k in OfferMap(t.cleared).Keys && k in NewKeys(t) {
      UndoneAt(settled, s, k);
      assert k in u;
    } else {
      assert NewKeys(s) == {};
      forall k ensures Lookup(u, k) == Lookup(before, k) {
        UndoneAt(settled, s, k);
        RollbackAt(before, staying, created, after, settled, t, k);
      }
      SameMap(u, before);
    }
  }

  lemma RollbackAt(
    before: map<Key, Offer>, staying: map<Key, Offer>, created: map<Key, Offer>,
    after: map<Key, Offer>, settled: map<Key, Offer>, t: Thunk, k: Key)
    requires ItemsMap(t.cancelled) + staying == before && ItemsMap(t.cancelled).Keys !! staying.Keys
    requires created.Keys == NewKeys(t) && created.Keys !! before.Keys
    requires Parts(staying + created, after, OfferMap(t.cleared), t.partial)
    requires KeyOf(t.partial) != Some(k) ==> Lookup(settled, k) == if k in created then None else Lookup(after, k)
    requires PartialIsOld(t) && OfferMap(t.cleared).Keys !! NewKeys(t)
    ensures Apply(WriteOf(t.(newOffers := []), k), Lookup(settled, k)) == Lookup(before, k)
  {
    assert NewKeys(t.(newOffers := [])) == {};
    if t.partial.None? {
      assert k in staying + created <==> k in OfferMap(t.cleared);
    }
  }
}
