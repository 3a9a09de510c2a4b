/**
 Undoing a block from its record: what the record says about the block, what undoing it computes, and exactly when
 that is the book from before the block.
 */
module Undo {
  import opened Keys
  import opened Trie
  import opened TrieOrder
  import opened TrieMarks
  import opened TrieHash
  import opened Offers
  import opened BookMaps
  import opened OrderBook
  import opened Clearing

  // ---- Records as maps -----------------------------------------------------------------------------------------

  /** The offers of a list of leaves, later ones winning. */
  ghost function ItemsMap(s: seq<Item<Offer>>): map<Key, Offer> {
    if s == [] then map[] else ItemsMap(s[..|s| - 1])[s[|s| - 1].key := s[|s| - 1].entry.value]
  }

  lemma {:induction false} ItemsMapWithin(s: seq<Item<Offer>>, m: map<Key, Offer>, k: Key)
    requires forall x :: x in s ==> x.key in m && m[x.key] == x.entry.value
    ensures k in ItemsMap(s) ==> k in m && ItemsMap(s)[k] == m[k] && exists x :: x in s && x.key == k
    ensures (exists x :: x in s && x.key == k) ==> k in ItemsMap(s)
  {
    if s != [] {
      var init, last := s[..|s| - 1], s[|s| - 1];
      assert last in s;
      assert forall x :: x in init ==> x in s;
      ItemsMapWithin(init, m, k);
      assert forall x :: x in s ==> x in init || x == last;
    }
  }

  ghost function NewKeys(t: Thunk): set<Key> {
    set o | o in t.newOffers :: OfferKey(o)
  }

  /** The unmarked part and the marked part of a book. */
  ghost function Staying(n: Node<Offer>): map<Key, Offer> {
    LiveValues(n)
  }

  /** The leaves reported by `perform_marked_deletions` are the marked part of the book. */
  lemma CancelledMap(n: Node<Offer>)
    requires BookOk(n)
    ensures ItemsMap(Chosen(Leaves(n), DeletionMark)) + Staying(n) == OfferMap(n)
    ensures ItemsMap(Chosen(Leaves(n), DeletionMark)).Keys !! Staying(n).Keys
  {
    var m, live, all := ItemsMap(Chosen(Leaves(n), DeletionMark)), Staying(n), OfferMap(n);
    forall k ensures !(k in m && k in live) && Lookup(m + live, k) == Lookup(all, k) {
      CancelledAt(n, k);
      BookAt(n, k);
    }
    SameMap(m + live, all);
  }

  lemma CancelledAt(n: Node<Offer>, k: Key)
    requires BookOk(n)
    ensures Lookup(ItemsMap(Chosen(Leaves(n), DeletionMark)), k) ==
            if Get(n, k).Some? && Marked(Get(n, k).value, DeletionMark) then Some(Get(n, k).value.value) else None
  {
    var s := Chosen(Leaves(n), DeletionMark);
    forall x | x in s ensures x.key in OfferMap(n) && Get(n, x.key) == Some(x.entry) && Marked(x.entry, DeletionMark) {
      ChosenItems(Leaves(n), DeletionMark, x);
      LeafPresent(n, KEY_LEN, x);
    }
    ItemsMapWithin(s, OfferMap(n), k);
    BookAt(n, k);
    if Get(n, k).Some? && Marked(Get(n, k).value, DeletionMark) {
      PresentLeaf(n, KEY_LEN, k);
      ChosenItems(Leaves(n), DeletionMark, Item(k, Get(n, k).value));
    }
  }

  // ---- What clearing does, as maps ---------------------------------------------------------------------------------

  /** `rest`, `cleared` and the threshold offer are the parts of book `b`. */
  ghost predicate Parts(b: map<Key, Offer>, rest: map<Key, Offer>, cleared: map<Key, Offer>, partial: Option<Partial>) {
    match partial
    case None => rest == map[] && cleared == b
    case Some(p) =>
      && p.key in b && b[p.key] == p.before
      && p.key !in cleared
      && (forall k :: k in b && k != p.key ==> (k in cleared) != (k in rest))
      && (forall k :: k in cleared ==> k in b && cleared[k] == b[k])
      && (forall k :: k in rest && k != p.key ==> k in b && rest[k] == b[k])
  }

  lemma ClearedParts(n: Node<Offer>, c: nat, sold: nat, rest: Node<Offer>, cleared: Node<Offer>, partial: Option<Partial>)
    requires BookOk(n) && ClearedAt(n, c, sold, rest, cleared, partial)
    ensures Parts(OfferMap(n), OfferMap(rest), OfferMap(cleared), partial)
  {
    var b := OfferList(n);
    ListOrdered(n);
    if c == |b| {
      assert b[..c] == b;
      SameOffers(cleared, n);
      assert OfferMap(rest) == map[];
    } else {
      var p := partial.value;
      ListMember(n, b[c]);
      forall k | k in OfferMap(cleared) ensures k in OfferMap(n) && OfferMap(cleared)[k] == OfferMap(n)[k] && k != p.key {
        ClearedMember(n, c, cleared, k);
      }
      forall k | k in OfferMap(rest) && k != p.key ensures k in OfferMap(n) && OfferMap(rest)[k] == OfferMap(n)[k] && k !in OfferMap(cleared) {
        RestMember(n, c, sold, rest, cleared, k);
      }
      forall k | k in OfferMap(n) && k != p.key && k !in OfferMap(cleared) ensures k in OfferMap(rest) {
        KeptMember(n, c, sold, rest, cleared, k);
      }
    }
  }

  lemma ClearedMember(n: Node<Offer>, c: nat, cleared: Node<Offer>, k: Key)
    requires BookOk(n) && EntriesOk(cleared) && (cleared.Empty? || Shaped(cleared, KEY_LEN))
    requires c < |OfferList(n)| && OfferList(cleared) == OfferList(n)[..c] && k in OfferMap(cleared)
    ensures k in OfferMap(n) && OfferMap(cleared)[k] == OfferMap(n)[k] && k != OfferKey(OfferList(n)[c])
  {
    var b, o := OfferList(n), OfferMap(cleared)[k];
    ListOrdered(n);
    ListMember(cleared, o);
    FrontKeys(b, c, o);
    MemberSplit(b, c, o);
    ListMember(n, o);
  }

  lemma KeptMember(n: Node<Offer>, c: nat, sold: nat, rest: Node<Offer>, cleared: Node<Offer>, k: Key)
    requires BookOk(n) && BookOk(rest) && EntriesOk(cleared) && (cleared.Empty? || Shaped(cleared, KEY_LEN))
    requires c < |OfferList(n)| && sold <= OfferList(n)[c].amount
    requires OfferList(cleared) == OfferList(n)[..c] && OfferList(rest) == Remaining(OfferList(n), c, sold)
    requires k in OfferMap(n) && k != OfferKey(OfferList(n)[c]) && k !in OfferMap(cleared)
    ensures k in OfferMap(rest)
  {
    var o := OfferMap(n)[k];
    ListMember(n, o);
    ListMember(cleared, o);
    MemberSplit(OfferList(n), c, o);
    ListMember(rest, o);
  }

  lemma RestMember(n: Node<Offer>, c: nat, sold: nat, rest: Node<Offer>, cleared: Node<Offer>, k: Key)
    requires BookOk(n) && BookOk(rest) && EntriesOk(cleared) && (cleared.Empty? || Shaped(cleared, KEY_LEN))
    requires c < |OfferList(n)| && sold <= OfferList(n)[c].amount
    requires OfferList(cleared) == OfferList(n)[..c] && OfferList(rest) == Remaining(OfferList(n), c, sold)
    requires k in OfferMap(rest) && k != OfferKey(OfferList(n)[c])
    ensures k in OfferMap(n) && OfferMap(rest)[k] == OfferMap(n)[k] && k !in OfferMap(cleared)
  {
    var b := OfferList(n);
    var o := OfferMap(rest)[k];
    ListOrdered(n);
    ListMember(rest, o);
    ListMember(n, o);
    var d := b[c + 1..];
    assert o in d;
    MemberSplit(b, c, o);
    var i :| 0 <= i < |d| && d[i] == o;
    forall h | h in OfferMap(cleared) ensures h != k {
      ListMember(cleared, OfferMap(cleared)[h]);
      var j :| 0 <= j < c && b[..c][j] == OfferMap(cleared)[h];
      DistinctKeys(b, j, c + 1 + i);
    }
  }

  // ---- Undoing, as maps ----------------------------------------------------------------------------------------------

  /** What `undo_thunk` makes of the offers `after` the block. */
  ghost function UndoMap(after: map<Key, Offer>, cancelled: map<Key, Offer>, cleared: map<Key, Offer>,
                         created: set<Key>, partial: Option<Partial>): map<Key, Offer> {
    var m := (after + cancelled + cleared) - created;
    if partial.Some? then m[partial.value.key := partial.value.before] else m
  }

  /**
   Undoing a block gives back the book from before it exactly when the partially executed offer, if any, was not
   created by the block itself.
   */
  lemma UndoRestores(before: map<Key, Offer>, cancelled: map<Key, Offer>, staying: map<Key, Offer>, created: map<Key, Offer>,
                     after: map<Key, Offer>, cleared: map<Key, Offer>, partial: Option<Partial>)
    requires before == cancelled + staying && cancelled.Keys !! staying.Keys
    requires created.Keys !! before.Keys
    requires Parts(staying + created, after, cleared, partial)
    ensures UndoMap(after, cancelled, cleared, created.Keys, partial) == before <==>
            partial.None? || partial.value.key !in created
  {
    var u := UndoMap(after, cancelled, cleared, created.Keys, partial);
    if partial.Some? && partial.value.key in created {
      assert partial.value.key in u && partial.value.key !in before;
    } else {
      forall k ensures k in u <==> k in before {
      }
      forall k | k in u ensures u[k] == before[k] {
      }
    }
  }
}
