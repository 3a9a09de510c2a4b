/**
 The batched write against the books: when the disk ends up with what the blocks, applied one by one, leave.
 */
module BatchTheorem {
  import opened Keys
  import opened Trie
  import opened TrieOrder
  import opened TrieMarks
  import opened TrieHash
  import opened Offers
  import opened BookMaps
  import opened OrderBook
  import opened Clearing
  import opened Undo
  import opened ClearedBooks
  import opened WorkUnits
  import opened Blocks
  import opened Batches

  // ---- One block on a whole book ---------------------------------------------------------------------------------------

  ghost function CancelledKeys(t: Thunk): set<Key> {
    set x | x in t.cancelled :: x.key
  }

  /** The book a block clears: cancelled offers left, new ones entered. */
  ghost function TakenInto(b: map<Key, Offer>, t: Thunk): map<Key, Offer> {
    (b - CancelledKeys(t)) + OffersMap(t.newOffers)
  }

  /** One block: take in, remove everything below the threshold key, and let the threshold offer sell its share. */
  ghost function Applied(b: map<Key, Offer>, t: Thunk): map<Key, Offer> {
    var m := TakenInto(b, t);
    if t.partial.None? then map[] else SoldFrom(NotBelowKey(m, t.partial.value.key), t.partial.value)
  }

  ghost function NotBelowKey(m: map<Key, Offer>, key: Key): map<Key, Offer> {
    map k | k in m && !Before(k, key) :: m[k]
  }

  ghost function SoldFrom(m: map<Key, Offer>, p: Partial): map<Key, Offer> {
    if p.key !in m then m
    else if m[p.key].amount > p.amount then m[p.key := m[p.key].(amount := m[p.key].amount - p.amount)]
    else m - {p.key}
  }

  lemma NotBelowKeyAt(m: map<Key, Offer>, key: Key, k: Key)
    ensures Lookup(NotBelowKey(m, key), k) == if Before(k, key) then None else Lookup(m, k)
  {
  }

  lemma SoldFromAt(m: map<Key, Offer>, t: Thunk, k: Key)
    requires t.partial.Some?
    ensures Lookup(SoldFrom(m, t.partial.value), k) == Sell(Lookup(m, k), t, k)
  {
  }

  ghost function AppliedAll(b: map<Key, Offer>, ts: seq<Thunk>): map<Key, Offer> {
    if ts == [] then b else Applied(AppliedAll(b, ts[..|ts| - 1]), Top(ts))
  }

  ghost predicate Fits(b: map<Key, Offer>, t: Thunk) {
    && CancelledKeys(t) <= b.Keys
    && OffersMap(t.newOffers).Keys !! b.Keys
    && (t.partial.Some? ==>
          var m := TakenInto(b, t);
          t.partial.value.key in m && t.partial.value.amount <= m[t.partial.value.key].amount)
  }

  /** Consecutive block records on a disk holding `b`, each offer id being used for one offer only. */
  ghost predicate BatchRun(b: map<Key, Offer>, ts: seq<Thunk>) {
    && (forall i :: 0 <= i < |ts| ==> FitsAfter(b, ts, i) && OffersMap(ts[i].newOffers).Keys !! b.Keys)
    && (forall i, j :: 0 <= i < j < |ts| ==> OffersMap(ts[i].newOffers).Keys !! OffersMap(ts[j].newOffers).Keys)
  }

  ghost predicate FitsAfter(b: map<Key, Offer>, ts: seq<Thunk>, i: nat)
    requires i < |ts|
  {
    Fits(AppliedAll(b, ts[..i]), ts[i])
  }

  lemma CancelsKey(t: Thunk, k: Key)
    ensures Cancels(t, k) <==> k in CancelledKeys(t)
  {
  }

  lemma TakenIntoAt(b: map<Key, Offer>, t: Thunk, k: Key)
    ensures Lookup(TakenInto(b, t), k) == TakeIn(Lookup(b, k), t, k)
  {
    CancelsKey(t, k);
  }

  lemma AppliedAt(b: map<Key, Offer>, t: Thunk, k: Key)
    ensures Lookup(Applied(b, t), k) == StepAt(Lookup(b, k), t, k)
  {
    TakenIntoAt(b, t, k);
    if t.partial.Some? {
      var m := TakenInto(b, t);
      NotBelowKeyAt(m, t.partial.value.key, k);
      SoldFromAt(NotBelowKey(m, t.partial.value.key), t, k);
      BeforeIrreflexive(t.partial.value.key);
    }
  }

  lemma {:induction false} AppliedAllAt(b: map<Key, Offer>, ts: seq<Thunk>, k: Key)
    ensures Lookup(AppliedAll(b, ts), k) == Outcome(Lookup(b, k), ts, k)
  {
    if ts != [] {
      AppliedAllAt(b, ts[..|ts| - 1], k);
      AppliedAt(AppliedAll(b, ts[..|ts| - 1]), Top(ts), k);
    }
  }

  lemma FitsHere(b: map<Key, Offer>, t: Thunk, k: Key)
    requires Fits(b, t)
    ensures FitsAt(Lookup(b, k), t, k)
  {
    CancelsKey(t, k);
    TakenIntoAt(b, t, k);
  }

  lemma RunHere(b: map<Key, Offer>, ts: seq<Thunk>, k: Key)
    requires BatchRun(b, ts)
    ensures RunAt(Lookup(b, k), ts, k)
  {
    forall i | 0 <= i < |ts| ensures FitsIn(Lookup(b, k), ts, i, k) {
      assert FitsAfter(b, ts, i);
      FitsHere(AppliedAll(b, ts[..i]), ts[i], k);
      AppliedAllAt(b, ts[..i], k);
    }
  }

  // ---- The batch ---------------------------------------------------------------------------------------------------------

  /** `d` is what the five phases make of `b`. */
  ghost predicate Written(d: map<Key, Offer>, b: map<Key, Offer>, ts: seq<Thunk>) {
    forall k :: Lookup(d, k) == BatchAt(Lookup(b, k), ts, k)
  }

  ghost predicate NoPhantoms(ts: seq<Thunk>) {
    forall k :: !Phantom(ts, k)
  }

  ghost predicate NothingStale(b: map<Key, Offer>, ts: seq<Thunk>) {
    forall k :: !Stale(Lookup(b, k), ts, k)
  }

  /** Every key in play is below the all-ones key. */
  ghost predicate KeysBelowMax(b: map<Key, Offer>, ts: seq<Thunk>) {
    && (forall k :: k in b ==> Before(k, MaxKey()))
    && (forall i, k :: 0 <= i < |ts| && k in OffersMap(ts[i].newOffers) ==> Before(k, MaxKey()))
  }

  lemma ExactHere(b: map<Key, Offer>, ts: seq<Thunk>, k: Key)
    requires BatchRun(b, ts) && ts != [] && KeysBelowMax(b, ts)
    ensures BatchAt(Lookup(b, k), ts, k) == Outcome(Lookup(b, k), ts, k) <==>
            !Phantom(ts, k) && !Stale(Lookup(b, k), ts, k)
  {
    var x := Lookup(b, k);
    RunHere(b, ts, k);
    if Before(k, MaxKey()) {
      BatchExactAt(x, ts, k);
    } else {
      assert x.None?;
      forall j | 0 <= j < |ts| ensures !Creates(ts[j], k) {
      }
      Nowhere(x, ts, k);
    }
  }

  /**
   The batch leaves what the blocks leave one by one, exactly when no offer cancelled in the batch that created it
   stays above all later thresholds, and no offer on disk stays untouched above all thresholds of a batch in which
   some, but not all, blocks clear the whole book.
   */
  lemma BatchExact(d: map<Key, Offer>, b: map<Key, Offer>, ts: seq<Thunk>)
    requires BatchRun(b, ts) && ts != [] && KeysBelowMax(b, ts)
    requires Written(d, b, ts)
    ensures d == AppliedAll(b, ts) <==> NoPhantoms(ts) && NothingStale(b, ts)
  {
    var e := AppliedAll(b, ts);
    forall k ensures Lookup(d, k) == Lookup(e, k) <==> !Phantom(ts, k) && !Stale(Lookup(b, k), ts, k) {
      AppliedAllAt(b, ts, k);
      ExactHere(b, ts, k);
    }
    if NoPhantoms(ts) && NothingStale(b, ts) {
      SameMap(d, e);
    } else if k :| Phantom(ts, k) {
      assert Lookup(d, k) != Lookup(e, k);
    } else {
      var k :| Stale(Lookup(b, k), ts, k);
      assert Lookup(d, k) != Lookup(e, k);
    }
  }

  /** In particular when every block has a threshold offer and no offer is cancelled in the batch that created it. */
  lemma BatchExactUsually(d: map<Key, Offer>, b: map<Key, Offer>, ts: seq<Thunk>)
    requires BatchRun(b, ts) && ts != [] && KeysBelowMax(b, ts)
    requires Written(d, b, ts)
    requires forall i :: 0 <= i < |ts| ==> ts[i].partial.Some?
    requires forall i, j :: 0 <= i < |ts| && 0 <= j < |ts| ==> OffersMap(ts[i].newOffers).Keys !! CancelledKeys(ts[j])
    ensures d == AppliedAll(b, ts)
  {
    forall k ensures !Phantom(ts, k) {
      forall i, j | 0 <= i < j < |ts| && Creates(ts[i], k) ensures !Cancels(ts[j], k) {
        CancelsKey(ts[j], k);
      }
    }
    BatchExact(d, b, ts);
  }

  // ---- The books in memory ------------------------------------------------------------------------------------------------

  /** A block record fits the book it was made from. */
  lemma MemoryFits(n: Node<Offer>, u: Node<Offer>, m: Node<Offer>, c: nat, sold: nat, rest: Node<Offer>, t: Thunk)
    requires BookOk(n) && BookOk(u) && BookOk(m) && OfferMap(u).Keys !! OfferMap(n).Keys
    requires OfferMap(m) == LiveValues(n) + OfferMap(u)
    requires ClearedAt(m, c, sold, rest, t.cleared, t.partial)
    requires t.newOffers == OfferList(u) && t.cancelled == Chosen(Leaves(n), DeletionMark)
    ensures TakenInto(OfferMap(n), t) == OfferMap(m) && Fits(OfferMap(n), t)
  {
    CancelledMap(n);
    ItemKeys(t.cancelled);
    Complement(OfferMap(n), ItemsMap(t.cancelled), LiveValues(n));
    ListedOffers(u);
    ThresholdThere(m, c, sold, rest, t.cleared, t.partial);
  }

  lemma {:induction false} ItemKeys(s: seq<Item<Offer>>)
    ensures ItemsMap(s).Keys == set x | x in s :: x.key
  {
    if s != [] {
      var init := s[..|s| - 1];
      ItemKeys(init);
      assert forall x :: x in s <==> x in init || x == s[|s| - 1];
    }
  }

  /** The book in memory after a block is what applying its record to the book before it gives. */
  lemma MemoryApplies(n: Node<Offer>, u: Node<Offer>, m: Node<Offer>, c: nat, sold: nat, rest: Node<Offer>, t: Thunk)
    requires BookOk(n) && BookOk(u) && BookOk(m) && OfferMap(u).Keys !! OfferMap(n).Keys
    requires OfferMap(m) == LiveValues(n) + OfferMap(u)
    requires ClearedAt(m, c, sold, rest, t.cleared, t.partial)
    requires t.newOffers == OfferList(u) && t.cancelled == Chosen(Leaves(n), DeletionMark)
    ensures Fits(OfferMap(n), t) && OfferMap(rest) == Applied(OfferMap(n), t)
  {
    MemoryFits(n, u, m, c, sold, rest, t);
    ClearedAtKey(m, c, sold, rest, t.cleared, t.partial);
    PartsApplied(OfferMap(n), t, OfferMap(m), OfferMap(rest), OfferMap(t.cleared));
  }

  lemma PartsApplied(b: map<Key, Offer>, t: Thunk, m: map<Key, Offer>, rest: map<Key, Offer>, cleared: map<Key, Offer>)
    requires TakenInto(b, t) == m && KeyParts(m, rest, cleared, t.partial)
    ensures rest == Applied(b, t)
  {
    var e := Applied(b, t);
    forall k ensures Lookup(rest, k) == Lookup(e, k) {
      AppliedAt(b, t, k);
      TakenIntoAt(b, t, k);
      PartsStep(b, t, m, rest, cleared, k);
    }
    SameMap(rest, e);
  }

  lemma PartsStep(
    b: map<Key, Offer>, t: Thunk, m: map<Key, Offer>, rest: map<Key, Offer>, cleared: map<Key, Offer>, k: Key)
    requires KeyParts(m, rest, cleared, t.partial) && Lookup(m, k) == TakeIn(Lookup(b, k), t, k)
    ensures Lookup(rest, k) == StepAt(Lookup(b, k), t, k)
  {
    BeforeIrreflexive(k);
  }

  /** The books of consecutive blocks: each is the one before with the block's record applied. */
  ghost predicate MemoryRun(books: seq<map<Key, Offer>>, ts: seq<Thunk>) {
    && |books| == |ts| + 1
    && (forall i :: 0 <= i < |ts| ==> Fits(books[i], ts[i]) && books[i + 1] == Applied(books[i], ts[i]))
  }

  /** Offer ids are used once. */
  ghost predicate FreshIds(b: map<Key, Offer>, ts: seq<Thunk>) {
    && (forall i :: 0 <= i < |ts| ==> OffersMap(ts[i].newOffers).Keys !! b.Keys)
    && (forall i, j :: 0 <= i < j < |ts| ==> OffersMap(ts[i].newOffers).Keys !! OffersMap(ts[j].newOffers).Keys)
  }

  lemma RunBooks(books: seq<map<Key, Offer>>, ts: seq<Thunk>, i: nat)
    requires MemoryRun(books, ts) && i <= |ts|
    ensures AppliedAll(books[0], ts[..i]) == books[i]
  {
    for h := 0 to i
      invariant AppliedAll(books[0], ts[..h]) == books[h]
    {
      assert ts[..h + 1][..h] == ts[..h];
      assert books[h + 1] == Applied(books[h], ts[h]);
    }
  }

  lemma MemoryRunFits(books: seq<map<Key, Offer>>, ts: seq<Thunk>)
    requires MemoryRun(books, ts) && FreshIds(books[0], ts)
    ensures BatchRun(books[0], ts) && AppliedAll(books[0], ts) == books[|ts|]
  {
    forall i | 0 <= i < |ts| ensures FitsAfter(books[0], ts, i) {
      RunBooks(books, ts, i);
      assert Fits(books[i], ts[i]);
    }
    RunBooks(books, ts, |ts|);
    assert ts[..|ts|] == ts;
  }

  /** A disk that held the book before a run of blocks holds the book after it, exactly under the conditions above. */
  lemma DiskCatchesUp(d: map<Key, Offer>, books: seq<map<Key, Offer>>, ts: seq<Thunk>)
    requires MemoryRun(books, ts) && FreshIds(books[0], ts) && ts != [] && KeysBelowMax(books[0], ts)
    requires Written(d, books[0], ts)
    ensures d == books[|ts|] <==> NoPhantoms(ts) && NothingStale(books[0], ts)
  {
    MemoryRunFits(books, ts);
    BatchExact(d, books[0], ts);
  }

  // ---- The two failures are real --------------------------------------------------------------------------------------------

  /** A block in which nothing is sold, `z` being the cheapest offer. */
  function IdleBlock(created: seq<Offer>, cancelled: seq<Item<Offer>>, z: Offer): Thunk {
    Thunk(0, created, cancelled, Empty, Some(Partial(OfferKey(z), 0, z)))
  }

  function ClearingBlock(): Thunk {
    Thunk(0, [], [], Empty, None)
  }

  lemma TwoBlocks(a: map<Key, Offer>, b: map<Key, Offer>, c: map<Key, Offer>, t: Thunk, u: Thunk)
    requires Fits(a, t) && b == Applied(a, t) && Fits(b, u) && c == Applied(b, u)
    ensures MemoryRun([a, b, c], [t, u])
  {
  }

  /** An idle block only takes in and lets go. */
  lemma IdleApplies(b: map<Key, Offer>, t: Thunk, z: Offer)
    requires t.partial == Some(Partial(OfferKey(z), 0, z)) && z.amount > 0
    requires CancelledKeys(t) <= b.Keys && OffersMap(t.newOffers).Keys !! b.Keys
    requires var m := TakenInto(b, t);
             OfferKey(z) in m && m[OfferKey(z)] == z && forall k :: k in m ==> !Before(k, OfferKey(z))
    ensures Fits(b, t) && Applied(b, t) == TakenInto(b, t)
  {
    var m := TakenInto(b, t);
    assert NotBelowKey(m, OfferKey(z)) == m;
    assert m[OfferKey(z) := z.(amount := z.amount - 0)] == m;
  }

  lemma TakesOne(b: map<Key, Offer>, t: Thunk, o: Offer)
    requires t.newOffers == [o] && t.cancelled == []
    ensures OffersMap(t.newOffers) == map[OfferKey(o) := o]
    ensures CancelledKeys(t) == {} && TakenInto(b, t) == b[OfferKey(o) := o]
  {
    assert t.newOffers[..0] == [];
    assert CancelledKeys(t) == {};
  }

  lemma DropsOne(b: map<Key, Offer>, t: Thunk, x: Item<Offer>)
    requires t.newOffers == [] && t.cancelled == [x]
    ensures OffersMap(t.newOffers) == map[] && Cancels(t, x.key)
    ensures CancelledKeys(t) == {x.key} && TakenInto(b, t) == b - {x.key}
  {
    assert t.cancelled[0] == x;
    assert CancelledKeys(t) == {x.key};
  }

  /** `o` is created by one block and cancelled by the next, `z` being the cheapest offer throughout. */
  lemma PhantomHappens(z: Offer, o: Offer, x: Item<Offer>, t: Thunk, u: Thunk, b: map<Key, Offer>, b': map<Key, Offer>)
    requires Before(OfferKey(z), OfferKey(o)) && Before(OfferKey(o), MaxKey()) && z.amount > 0 && x.key == OfferKey(o)
    requires t == IdleBlock([o], [], z) && u == IdleBlock([], [x], z)
    requires b == map[OfferKey(z) := z] && b' == b[OfferKey(o) := o]
    ensures MemoryRun([b, b', b], [t, u])
    ensures forall d :: Written(d, b, [t, u]) ==> OfferKey(o) in d && d != b
  {
    BeforeAsymmetric(OfferKey(z), OfferKey(o));
    BeforeIrreflexive(OfferKey(z));
    TakesOne(b, t, o);
    DropsOne(b', u, x);
    IdleApplies(b, t, z);
    assert b' - {x.key} == b;
    IdleApplies(b', u, z);
    TwoBlocks(b, b', b, t, u);
    PhantomBatch([t, u], z, o);
    forall d | Written(d, b, [t, u]) ensures OfferKey(o) in d && d != b {
      assert Lookup(d, OfferKey(o)) == BatchAt(Lookup(b, OfferKey(o)), [t, u], OfferKey(o));
    }
  }

  lemma PhantomBatch(ts: seq<Thunk>, z: Offer, o: Offer)
    requires |ts| == 2 && Before(OfferKey(z), OfferKey(o))
    requires forall i :: 0 <= i < 2 ==> ts[i].partial == Some(Partial(OfferKey(z), 0, z))
    requires OffersMap(ts[0].newOffers) == map[OfferKey(o) := o] && OffersMap(ts[1].newOffers) == map[]
    ensures BatchAt(None, ts, OfferKey(o)) == Some(o)
  {
    var k := OfferKey(o);
    BeforeAsymmetric(OfferKey(z), k);
    assert Unbeaten(ts, 0, k);
    NewAt(None, ts, 0, 0, k);
    SellNothing(Some(o), ts, 0, k);
    assert ts[..0] == [];
    assert DropBelow(DropCancelled(None, ts, k), ts, k) == None;
  }

  /** A block that sells nothing, then one that clears the whole book: the dearer offer `o` stays on disk. */
  lemma StaleHappens(z: Offer, o: Offer, t: Thunk, u: Thunk, b: map<Key, Offer>)
    requires Before(OfferKey(z), OfferKey(o)) && Before(OfferKey(o), MaxKey()) && z.amount > 0
    requires t == IdleBlock([], [], z) && u == ClearingBlock()
    requires b == map[OfferKey(z) := z, OfferKey(o) := o]
    ensures MemoryRun([b, b, map[]], [t, u])
    ensures forall d :: Written(d, b, [t, u]) ==> OfferKey(o) in d && d != map[]
  {
    BeforeAsymmetric(OfferKey(z), OfferKey(o));
    BeforeIrreflexive(OfferKey(z));
    assert CancelledKeys(t) == {} && TakenInto(b, t) == b;
    IdleApplies(b, t, z);
    assert CancelledKeys(u) == {};
    TwoBlocks(b, b, map[], t, u);
    StaleBatch([t, u], z, o);
    forall d | Written(d, b, [t, u]) ensures OfferKey(o) in d && d != map[] {
      assert Lookup(d, OfferKey(o)) == BatchAt(Lookup(b, OfferKey(o)), [t, u], OfferKey(o));
    }
  }

  lemma StaleBatch(ts: seq<Thunk>, z: Offer, o: Offer)
    requires Before(OfferKey(z), OfferKey(o)) && ts == [IdleBlock([], [], z), ClearingBlock()]
    ensures BatchAt(Some(o), ts, OfferKey(o)) == Some(o)
  {
    var k := OfferKey(o);
    BeforeAsymmetric(OfferKey(z), k);
    assert ts[0].partial.Some?;
    assert Survives(ts, k);
    NothingNew(Some(o), ts, 0, k);
    SellNothing(Some(o), ts, 0, k);
    assert ts[..0] == [];
  }
}
