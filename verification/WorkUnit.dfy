/**
 `MerkleWorkUnit`: the mutable order book of one asset pair, with its block records.
 */
module WorkUnits {
  import opened Keys
  import opened FixedPoint
  import opened Trie
  import opened Canonical
  import opened TrieOps
  import opened TrieOrder
  import opened TrieMarks
  import opened TrieHash
  import opened TrieClean
  import opened TrieQueries
  import opened Offers
  import opened BookMaps
  import opened OrderBook
  import opened Clearing
  import opened Undo

  ghost predicate ThunkOk(t: Thunk) {
    && ClearedOk(t.cleared, t.partial) && Clean(t.cleared)
    && (forall o :: o in t.newOffers ==> OfferOk(o))
    && (forall x :: x in t.cancelled ==> x.key == OfferKey(x.entry.value) && OfferOk(x.entry.value))
    && (t.partial.Some? ==> OfferOk(t.partial.value.before) && t.partial.value.key == OfferKey(t.partial.value.before))
  }

  ghost predicate ThunksOk(ts: seq<Thunk>) {
    forall t :: t in ts ==> ThunkOk(t)
  }

  /** What the undo of `t` makes of the offers `after` it. */
  ghost function Undone(after: map<Key, Offer>, t: Thunk): map<Key, Offer> {
    UndoMap(after, ItemsMap(t.cancelled), OfferMap(t.cleared), NewKeys(t), t.partial)
  }

  function Top(ts: seq<Thunk>): Thunk
    requires ts != []
  {
    ts[|ts| - 1]
  }

  /** The top record is completed with what the block cleared. */
  function SetCleared(ts: seq<Thunk>, cleared: Node<Offer>, partial: Option<Partial>): seq<Thunk>
    requires ts != []
  {
    ts[..|ts| - 1] + [Top(ts).(cleared := cleared, partial := partial)]
  }

  /** Nothing but the clearing part of the top record may differ. */
  ghost predicate SameBut(a: seq<Thunk>, b: seq<Thunk>) {
    && |a| == |b| > 0 && a[..|a| - 1] == b[..|b| - 1]
    && Top(b) == Top(a).(cleared := Top(b).cleared, partial := Top(b).partial)
  }

  /** What an accepted validation leaves behind. */
  ghost predicate Revalidated(
    n: Node<Offer>, rec: Commitment, rest: Node<Offer>, cleared: Node<Offer>, partial: Option<Partial>, activated: nat, c: nat)
  {
    && ClearedAt(n, c, SellAmount(rec.partialRaw), rest, cleared, partial)
    && PointsAt(OfferList(n), rec, c)
    && activated == Amounts(OfferList(n)[..c]) * RADIX
  }

  class WorkUnit {
    var committed: Node<Offer>
    var uncommitted: Node<Offer>
    var thunks: seq<Thunk>

    ghost predicate Valid()
      reads this
    {
      && BookOk(committed)
      && BookOk(uncommitted) && Clean(uncommitted)
      && ThunksOk(thunks)
    }

    ghost function Book(): map<Key, Offer>
      reads this
    {
      OfferMap(committed)
    }

    constructor ()
      ensures Valid() && Book() == map[] && thunks == []
    {
      committed, uncommitted, thunks := Empty, Empty, [];
    }

    /** `add_offers`: a batch of the block's new offers, already a trie. */
    method AddOffers(offers: Node<Offer>)
      requires Valid() && BookOk(offers) && Clean(offers)
      modifies this`uncommitted
      ensures Valid()
      ensures Contents(uncommitted) == old(Contents(uncommitted)) + Contents(offers)
      ensures OfferMap(uncommitted) == old(OfferMap(uncommitted)) + OfferMap(offers)
    {
      var m := MergeTries(uncommitted, offers, KEY_LEN);
      MergedBook(m, uncommitted, offers);
      uncommitted := m;
    }

    /** Cancels an offer: it is marked, and leaves the book when the block is taken in. */
    method MarkForDeletion(k: Key) returns (o: Option<Offer>)
      requires Valid() && |k| == KEY_LEN
      modifies this`committed
      ensures Valid() && Book() == old(Book())
      ensures LiveValues(committed) == old(LiveValues(committed)) - {k}
      ensures o == if k in old(LiveValues(committed)) then Some(old(LiveValues(committed))[k]) else None
    {
      committed, o := MarkOffer(committed, k);
    }

    /**
     `tentative_commit_for_validation`: cancelled offers leave, new offers enter, and a fresh record remembers both.
     Not `ok` stands for the throw on an out-of-order block number.
     */
    method TentativeCommit(block: nat) returns (ok: bool)
      requires Valid()
      modifies this
      ensures ok <==> old(thunks) == [] || old(thunks)[|old(thunks)| - 1].block + 1 == block
      ensures ok ==> Valid() && Clean(committed) && uncommitted == Empty
      ensures ok ==> thunks == old(thunks) + [Thunk(block, old(OfferList(uncommitted)),
                                                     old(Chosen(Leaves(committed), DeletionMark)), Empty, None)]
      ensures ok ==> Book() == old(LiveValues(committed)) + old(OfferMap(uncommitted))
      ensures ok ==> TakenIn(committed, old(committed), old(uncommitted))
      ensures !ok ==> unchanged(this)
    {
      if thunks != [] && thunks[|thunks| - 1].block + 1 != block {
        return false;
      }
      ok := true;
      BookFacts(committed);
      var news := AccumulateValues(uncommitted, KEY_LEN);
      var r, log := PerformMarkedDeletions(committed, KEY_LEN);
      PrunedBook(r, committed);
      var m := MergeTries(r, uncommitted, KEY_LEN);
      MergedBook(m, r, uncommitted);
      TakesIn(m, r, committed, uncommitted);
      var t := Thunk(block, news, log, Empty, None);
      FreshThunk(committed, uncommitted, t);
      committed, uncommitted, thunks := m, Empty, thunks + [t];
    }

    /** `process_clear_offers` on the current block, whose record is on top; not `ok` stands for a throw. */
    method ClearOffers(supply: nat, market: Market) returns (ok: bool, rec: Commitment, ghost c: nat)
      requires Valid() && Clean(committed) && thunks != []
      modifies this
      ensures SupplyFits(old(committed), supply) ==> ClearsTo(old(OfferList(committed)), supply, c)
      ensures ok <==> SupplyFits(old(committed), supply) && CanSettle(old(OfferList(committed)), c, market)
      ensures ok ==> Valid() && Clean(committed) && uncommitted == old(uncommitted)
      ensures ok ==> SameBut(old(thunks), thunks)
      ensures ok ==> Produced(old(committed), supply, committed, Top(thunks).cleared, Top(thunks).partial, rec, c)
    {
      var rest, cleared, partial;
      ok, rest, cleared, partial, rec, c := ProcessClearOffers(committed, supply, market);
      if ok {
        ClearedThunk(committed, c, Ceil(rec.partialRaw), rest, cleared, partial);
        TopCleared(thunks, cleared, partial);
        committed, thunks := rest, SetCleared(thunks, cleared, partial);
      }
    }

    /** `tentative_clear_offers_for_validation` on the current block. What a throw leaves behind is not described. */
    method TentativeClearOffers(rec: Commitment, market: Market) returns (verdict: Verdict, activated: nat, ghost c: nat)
      requires Valid() && Clean(committed) && thunks != [] && |rec.thresholdKey| == KEY_LEN
      modifies this
      ensures verdict.Rejected? <==> !RecordFits(old(Book()), rec, market.accounts)
      ensures verdict.Rejected? ==> thunks == old(thunks) && RejectedFrom(committed, old(committed), rec.thresholdKey)
      ensures !verdict.Rejected? ==> PointsAt(old(OfferList(committed)), rec, c)
      ensures !verdict.Rejected? ==> (verdict.Accepted? <==> AllSettle(old(OfferList(committed))[..c], market))
      ensures !verdict.Threw? ==> Valid() && Clean(committed) && uncommitted == old(uncommitted)
      ensures verdict.Accepted? ==> SameBut(old(thunks), thunks)
      ensures verdict.Accepted? ==>
                Revalidated(old(committed), rec, committed, Top(thunks).cleared, Top(thunks).partial, activated, c)
    {
      var rest, cleared, partial;
      verdict, rest, cleared, partial, activated, c := ClearForValidation(committed, rec, market);
      match verdict {
        case Accepted =>
          ClearedThunk(committed, c, SellAmount(rec.partialRaw), rest, cleared, partial);
          TopCleared(thunks, cleared, partial);
          committed, thunks := rest, SetCleared(thunks, cleared, partial);
        case Rejected =>
          RejectedClean(rest, committed, rec.thresholdKey);
          committed := rest;
        case Threw =>
      }
    }

    /** `undo_thunk`. */
    method UndoThunk(t: Thunk)
      requires Valid() && Clean(committed) && ThunkOk(t)
      modifies this`committed
      ensures Valid() && Clean(committed)
      ensures Book() == Undone(old(Book()), t)
    {
      var n := InsertItems(committed, t.cancelled);
      var cleared := CleanSingleChildNodes(t.cleared, KEY_LEN, ThresholdOf(t.partial));
      RepairedBook(cleared, t.cleared);
      var m := MergeTries(n, cleared, KEY_LEN);
      MergedBook(m, n, cleared);
      var marked := MarkOffers(m, t.newOffers);
      BookFacts(marked);
      var r, log := PerformMarkedDeletions(marked, KEY_LEN);
      PrunedBook(r, marked);
      if t.partial.Some? {
        var p := t.partial.value;
        committed := InsertOffer(r, p.before);
      } else {
        committed := r;
      }
    }

    /**
     `rollback_validation`: drops the provisional leaves, then undoes the top record without its new offers. `do_rollback`
     does not reset its root: a root leaf stays, provisional or not; and a hollow root branch is left behind when no leaf
     survives. The merge of `undo_thunk` replaces a hollow root, and so does an insertion before that if its prefix is
     empty; with another prefix the insertion throws, which not `ok` stands for.
     */
    method RollbackValidation() returns (ok: bool)
      requires Valid() && Clean(committed) && thunks != []
      modifies this
      ensures ok <==> !(NothingSettled(old(committed)) && old(committed).prefix != [] && old(Top(thunks)).cancelled != [])
      ensures ok ==> Valid() && Clean(committed) && uncommitted == Empty
      ensures ok ==> thunks == old(thunks)[..|old(thunks)| - 1]
      ensures ok ==> Book() == Undone(old(RolledMap(committed)), old(Top(thunks)).(newOffers := []))
    {
      uncommitted := Empty;
      BookFacts(committed);
      var t := Top(thunks).(newOffers := []);
      assert Top(thunks) in thunks;
      var r := DoRollback(committed, KEY_LEN);
      RolledRoot(r, committed);
      if Hollow(r) {
        if r.prefix != [] && t.cancelled != [] {
          return false;
        }
        r := Empty;
      }
      ok, committed := true, r;
      UndoThunk(t);
      thunks := thunks[..|thunks| - 1];
    }

    /** Undoes one record and takes it off the list. */
    method UndoRecord(i: nat)
      requires Valid() && Clean(committed) && i < |thunks| && ThunksOk(thunks[..i] + thunks[i + 1..])
      modifies this`committed, this`thunks
      ensures Valid() && Clean(committed) && thunks == old(thunks[..i] + thunks[i + 1..])
      ensures Book() == Undone(old(Book()), old(thunks[i]))
    {
      assert thunks[i] in thunks;
      UndoThunk(thunks[i]);
      thunks := thunks[..i] + thunks[i + 1..];
    }

    /**
     `rollback_thunks`: undoes the records of later blocks, oldest first. Not `ok` stands for the throw on a block
     that is already persisted.
     */
    method RollbackThunks(block: nat, persisted: nat) returns (ok: bool)
      requires Valid() && Clean(committed)
      modifies this`committed, this`thunks
      ensures ok <==> block > persisted
      ensures !ok ==> unchanged(this)
      ensures Valid() && Clean(committed)
      ensures ok ==> thunks == Upto(old(thunks), block) && Book() == UndoneAll(old(Book()), After(old(thunks), block))
    {
      if block <= persisted {
        return false;
      }
      ok := true;
      ghost var all, book := thunks, Book();
      ghost var done := 0;
      var i := 0;
      while i < |thunks|
        invariant Valid() && Clean(committed)
        invariant Rolling(thunks, i, all, done, block)
        invariant Book() == UndoneAll(book, After(all[..done], block))
        decreases |all| - done
      {
        RollOn(thunks, i, all, done, block);
        UndoOn(all, done, block, book);
        if thunks[i].block > block {
          UndoRecord(i);
        } else {
          i := i + 1;
        }
        done := done + 1;
      }
      assert all[..done] == all && thunks[..i] == thunks;
    }
  }

  /** `m` holds the unmarked leaves of `n`, overlaid with those of `u`. */
  ghost predicate TakenIn(m: Node<Offer>, n: Node<Offer>, u: Node<Offer>) {
    forall k :: Get(m, k) == if Get(u, k).Some? then Get(u, k) else Unmarked(Get(n, k), DeletionMark)
  }

  lemma TakesIn(m: Node<Offer>, r: Node<Offer>, n: Node<Offer>, u: Node<Offer>)
    requires Pruned(r, n, DeletionMark) && Contents(m) == Contents(r) + Contents(u)
    ensures TakenIn(m, n, u)
  {
    forall k ensures Get(m, k) == if Get(u, k).Some? then Get(u, k) else Unmarked(Get(n, k), DeletionMark) {
      UnionAt(m, r, u, k);
    }
  }

  lemma FreshThunk(n: Node<Offer>, u: Node<Offer>, t: Thunk)
    requires BookOk(n) && BookOk(u)
    requires t.newOffers == OfferList(u) && t.cancelled == Chosen(Leaves(n), DeletionMark)
    requires t.cleared == Empty && t.partial == None
    ensures ThunkOk(t)
  {
    ListOrdered(u);
    forall x | x in t.cancelled ensures EntryOk(x.key, x.entry) {
      ChosenItems(Leaves(n), DeletionMark, x);
      LeafPresent(n, KEY_LEN, x);
    }
  }

  lemma ClearedThunk(n: Node<Offer>, c: nat, sold: nat, rest: Node<Offer>, cleared: Node<Offer>, partial: Option<Partial>)
    requires BookOk(n) && Clean(n) && ClearedAt(n, c, sold, rest, cleared, partial)
    ensures Clean(rest) && Clean(cleared)
    ensures partial.Some? ==> OfferOk(partial.value.before) && partial.value.key == OfferKey(partial.value.before)
  {
    ListOrdered(n);
    forall k | Get(rest, k).Some? ensures Get(rest, k).value.meta.deleted == 0 {
      assert Get(n, k).Some? ==> Get(n, k).value.meta.deleted == 0;
    }
    forall k | Get(cleared, k).Some? ensures Get(cleared, k).value.meta.deleted == 0 {
      assert Get(n, k).Some? ==> Get(n, k).value.meta.deleted == 0;
    }
  }

  lemma TopCleared(ts: seq<Thunk>, cleared: Node<Offer>, partial: Option<Partial>)
    requires ThunksOk(ts) && ts != []
    requires ClearedOk(cleared, partial) && Clean(cleared)
    requires partial.Some? ==> OfferOk(partial.value.before) && partial.value.key == OfferKey(partial.value.before)
    ensures var us := SetCleared(ts, cleared, partial);
            ThunksOk(us) && SameBut(ts, us) && Top(us).cleared == cleared && Top(us).partial == partial
  {
    var us := SetCleared(ts, cleared, partial);
    assert ThunkOk(Top(ts));
    assert ThunkOk(Top(us));
    forall t | t in us ensures ThunkOk(t) {
      if t != Top(us) {
        assert t in ts;
      }
    }
  }

  lemma RejectedClean(rest: Node<Offer>, n: Node<Offer>, key: Key)
    requires Clean(n) && RejectedFrom(rest, n, key)
    ensures Clean(rest)
  {
  }

  // ---- Undoing -----------------------------------------------------------------------------------------------------

  /** The records of blocks up to `block`, and those of later blocks. */
  function Upto(ts: seq<Thunk>, block: nat): seq<Thunk> {
    if ts == [] then []
    else Upto(ts[..|ts| - 1], block) + (if Top(ts).block <= block then [Top(ts)] else [])
  }

  function After(ts: seq<Thunk>, block: nat): seq<Thunk> {
    if ts == [] then []
    else After(ts[..|ts| - 1], block) + (if Top(ts).block > block then [Top(ts)] else [])
  }

  /** Undoing `ts` from the first to the last. */
  ghost function UndoneAll(b: map<Key, Offer>, ts: seq<Thunk>): map<Key, Offer> {
    if ts == [] then b else Undone(UndoneAll(b, ts[..|ts| - 1]), Top(ts))
  }

  /** The first `done` records are dealt with: those kept are the first `i` of `ts`. */
  ghost predicate Rolling(ts: seq<Thunk>, i: nat, all: seq<Thunk>, done: nat, block: nat) {
    && done <= |all| && i <= |ts|
    && ts[..i] == Upto(all[..done], block) && ts[i..] == all[done..]
  }

  lemma RollOn(ts: seq<Thunk>, i: nat, all: seq<Thunk>, done: nat, block: nat)
    requires Rolling(ts, i, all, done, block) && i < |ts| && ThunksOk(ts)
    ensures done < |all| && ThunkOk(ts[i]) && ts[i] == all[done]
    ensures ThunksOk(ts[..i] + ts[i + 1..])
    ensures ts[i].block > block ==> Rolling(ts[..i] + ts[i + 1..], i, all, done + 1, block)
    ensures ts[i].block <= block ==> Rolling(ts, i + 1, all, done + 1, block)
  {
    TakeRecord(all, done, block);
    var us := ts[..i] + ts[i + 1..];
    assert ts[i] == ts[i..][0] == all[done];
    assert ts[i + 1..] == ts[i..][1..] == all[done..][1..] == all[done + 1..];
    assert us[i..] == ts[i + 1..] && us[..i] == ts[..i];
    assert ts[..i + 1] == ts[..i] + [ts[i]];
    assert forall t :: t in us ==> t in ts;
  }

  lemma UndoOn(all: seq<Thunk>, done: nat, block: nat, book: map<Key, Offer>)
    requires done < |all|
    ensures UndoneAll(book, After(all[..done + 1], block)) ==
            if all[done].block > block then Undone(UndoneAll(book, After(all[..done], block)), all[done])
            else UndoneAll(book, After(all[..done], block))
  {
    var t := all[done];
    var later := After(all[..done], block);
    TakeRecord(all, done, block);
    if t.block > block {
      UndoneLast(book, later, t);
    } else {
      assert later + [] == later;
    }
  }

  lemma UndoneLast(b: map<Key, Offer>, ts: seq<Thunk>, t: Thunk)
    ensures UndoneAll(b, ts + [t]) == Undone(UndoneAll(b, ts), t)
  {
    var us := ts + [t];
    assert us[..|us| - 1] == ts && Top(us) == t;
  }

  lemma TakeRecord(ts: seq<Thunk>, i: nat, block: nat)
    requires i < |ts|
    ensures Upto(ts[..i + 1], block) == Upto(ts[..i], block) + (if ts[i].block <= block then [ts[i]] else [])
    ensures After(ts[..i + 1], block) == After(ts[..i], block) + (if ts[i].block > block then [ts[i]] else [])
  {
    assert ts[..i + 1][..i] == ts[..i];
  }

  lemma RepairedBook(r: Node<Offer>, n: Node<Offer>)
    requires EntriesOk(n) && Clean(n) && CanonTrie(r, KEY_LEN) && Contents(r) == Contents(n)
    ensures BookOk(r) && Clean(r) && OfferMap(r) == OfferMap(n)
  {
    forall k | Get(r, k).Some? ensures Get(r, k).value.meta.deleted == 0 {
      assert Get(r, k) == Get(n, k);
    }
  }

  lemma AllLive(n: Node<Offer>)
    requires Clean(n)
    ensures LiveValues(n) == OfferMap(n)
  {
    var m, b := LiveValues(n), OfferMap(n);
    forall k ensures Lookup(m, k) == Lookup(b, k) {
      BookAt(n, k);
    }
    SameMap(m, b);
  }

  method InsertItems(n: Node<Offer>, items: seq<Item<Offer>>) returns (r: Node<Offer>)
    requires BookOk(n) && Clean(n)
    requires forall x :: x in items ==> x.key == OfferKey(x.entry.value) && OfferOk(x.entry.value)
    ensures BookOk(r) && Clean(r) && OfferMap(r) == OfferMap(n) + ItemsMap(items)
  {
    r := n;
    for i := 0 to |items|
      invariant BookOk(r) && Clean(r) && OfferMap(r) == OfferMap(n) + ItemsMap(items[..i])
    {
      MoreItems(OfferMap(n), items, i);
      r := InsertOffer(r, items[i].entry.value);
    }
    assert items[..|items|] == items;
  }

  method InsertOffer(n: Node<Offer>, o: Offer) returns (r: Node<Offer>)
    requires BookOk(n) && Clean(n) && OfferOk(o)
    ensures BookOk(r) && Clean(r) && OfferMap(r) == OfferMap(n)[OfferKey(o) := o]
  {
    var delta;
    r, delta := Insert(n, KEY_LEN, OfferKey(o), Fresh(o, 0));
    InsertedBook(r, n, o, 0);
  }

  lemma MoreItems(m: map<Key, Offer>, items: seq<Item<Offer>>, i: nat)
    requires i < |items|
    ensures m + ItemsMap(items[..i + 1]) == (m + ItemsMap(items[..i]))[items[i].key := items[i].entry.value]
  {
    assert items[..i + 1][..i] == items[..i];
  }

  ghost function KeysOf(offers: seq<Offer>): set<Key> {
    set o | o in offers :: OfferKey(o)
  }

  method MarkOffer(n: Node<Offer>, k: Key) returns (r: Node<Offer>, o: Option<Offer>)
    requires BookOk(n) && |k| == KEY_LEN
    ensures BookOk(r) && OfferMap(r) == OfferMap(n) && LiveValues(r) == LiveValues(n) - {k}
    ensures o == if k in LiveValues(n) then Some(LiveValues(n)[k]) else None
  {
    if n.Empty? {
      return n, None;
    }
    var delta;
    r, delta, o := SwapMark(n, KEY_LEN, k, 0, 1);
    MarkedBook(r, n, k, o);
  }

  method MarkOffers(n: Node<Offer>, offers: seq<Offer>) returns (r: Node<Offer>)
    requires BookOk(n) && Clean(n)
    ensures BookOk(r) && LiveValues(r) == OfferMap(n) - KeysOf(offers)
  {
    r := n;
    AllLive(n);
    for i := 0 to |offers|
      invariant BookOk(r) && LiveValues(r) == OfferMap(n) - KeysOf(offers[..i])
    {
      MoreKeys(offers, i);
      var o;
      r, o := MarkOffer(r, OfferKey(offers[i]));
    }
    assert offers[..|offers|] == offers;
  }

  lemma MoreKeys(offers: seq<Offer>, i: nat)
    requires i < |offers|
    ensures KeysOf(offers[..i + 1]) == KeysOf(offers[..i]) + {OfferKey(offers[i])}
  {
    assert offers[..i + 1] == offers[..i] + [offers[i]];
  }

  // ---- Rolling back a validation -----------------------------------------------------------------------------------

  ghost predicate Provisional(n: Node<Offer>, k: Key) {
    Get(n, k).Some? && Marked(Get(n, k).value, RollbackMark)
  }

  /** The offers that were not inserted provisionally. */
  ghost function Settled(n: Node<Offer>): map<Key, Offer> {
    map k | k in OfferMap(n) && !Provisional(n, k) :: OfferMap(n)[k]
  }

  /** A branch without children. */
  predicate Hollow(n: Node<Offer>) {
    n.Branch? && forall i :: 0 <= i < |n.children| ==> n.children[i].Empty?
  }

  /** All leaves below the root branch are provisional. */
  ghost predicate NothingSettled(n: Node<Offer>) {
    n.Branch? && forall k :: Get(n, k).Some? ==> Marked(Get(n, k).value, RollbackMark)
  }

  /** The offers after `do_rollback`. */
  ghost function RolledMap(n: Node<Offer>): map<Key, Offer> {
    if n.Leaf? then OfferMap(n) else Settled(n)
  }

  /** What `do_rollback` leaves is a hollow root or a book, of the offers that `RolledMap` says. */
  lemma RolledRoot(r: Node<Offer>, n: Node<Offer>)
    requires BookOk(n) && Clean(n)
    requires RolledBack(r, n, KEY_LEN) <==>
             n.Empty? || exists k :: Get(n, k).Some? && !Marked(Get(n, k).value, RollbackMark)
    requires !RolledBack(r, n, KEY_LEN) ==> r == if n.Leaf? then n else Branch(n.prefix, NoKids(), Zero)
    ensures Hollow(r) <==> NothingSettled(n)
    ensures Hollow(r) ==> r.prefix == n.prefix && RolledMap(n) == map[]
    ensures !Hollow(r) ==> BookOk(r) && Clean(r) && OfferMap(r) == RolledMap(n)
  {
    if RolledBack(r, n, KEY_LEN) {
      NotHollow(r);
      RolledBook(r, n);
      if n.Leaf? {
        LeafRolled(r, n);
      }
    } else {
      assert forall k :: Get(n, k).Some? ==> Provisional(n, k);
      assert !n.Leaf? ==> Hollow(r);
    }
  }

  lemma NotHollow(r: Node<Offer>)
    requires CanonTrie(r, KEY_LEN)
    ensures !Hollow(r)
  {
    if Hollow(r) {
      NoKidsCount(r.children);
    }
  }

  /** A root leaf stays in any case. */
  lemma LeafRolled(r: Node<Offer>, n: Node<Offer>)
    requires BookOk(n) && n.Leaf? && RolledBack(r, n, KEY_LEN) && !Marked(n.entry, RollbackMark)
    ensures r == n
  {
    forall k ensures Get(r, k) == Get(n, k) {
      assert Get(r, k) == Unmarked(Get(n, k), RollbackMark);
    }
    SameContents(r, n);
    CanonTrieUnique(r, n, KEY_LEN);
  }

  lemma RolledBook(r: Node<Offer>, n: Node<Offer>)
    requires BookOk(n) && Clean(n) && CanonTrie(r, KEY_LEN) && Pruned(r, n, RollbackMark)
    ensures BookOk(r) && Clean(r) && OfferMap(r) == Settled(n)
  {
    forall k | Get(r, k).Some? ensures EntryOk(k, Get(r, k).value) && Get(r, k).value.meta.deleted == 0 {
      assert Get(r, k) == Unmarked(Get(n, k), RollbackMark);
      EntryAt(n, k);
    }
    EntriesByKey(r);
    forall k ensures OfferAt(r, k) == Lookup(Settled(n), k) {
      assert Get(r, k) == Unmarked(Get(n, k), RollbackMark);
      BookAt(n, k);
    }
    BookIs(r, Settled(n));
  }
}
