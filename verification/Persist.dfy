/**
 `WorkUnitLMDB::write_thunks`: five passes over the records of a batch, against a disk that is an ordered map.
 */
module Persist {
  import opened Keys
  import opened KeyValues
  import opened Trie
  import opened TrieOrder
  import opened Offers
  import opened BookMaps
  import opened OrderBook
  import opened Clearing
  import opened WorkUnits
  import opened Blocks
  import opened Batches
  import opened BatchTheorem

  function Higher(a: Key, b: Key): Key {
    if Before(a, b) then b else a
  }

  lemma HigherBounds(a: Key, b: Key, k: Key)
    requires |a| == KEY_LEN && |b| == KEY_LEN
    ensures Before(k, Higher(a, b)) <==> Before(k, a) || Before(k, b)
  {
    if Before(a, b) {
      if Before(k, a) {
        BeforeTrans(k, a, b);
      }
    } else {
      BeforeTotal(a, b);
      if Before(k, b) && a != b {
        BeforeTrans(k, b, a);
      }
    }
  }

  /** Nothing precedes the zero key. */
  lemma ZeroIsLeast(k: Key)
    ensures !Before(k, ZeroKey)
  {
    DigitsZero(KEY_LEN);
  }

  // ---- Cursors -------------------------------------------------------------------------------------------------------------

  /** The greatest key of a set (`MDB_LAST`; on the keys below a bound, `--cursor`). */
  method Greatest(ks: set<Key>) returns (top: Option<Key>)
    requires forall k :: k in ks ==> |k| == KEY_LEN
    ensures IsGreatest(top, ks)
  {
    top := None;
    var left := ks;
    while left != {}
      invariant left <= ks
      invariant top.None? ==> left == ks
      invariant top.Some? ==> top.value in ks - left && forall k :: k in ks - left ==> k == top.value || Before(k, top.value)
    {
      var k :| k in left;
      if top.None? {
        top := Some(k);
      } else {
        NextTop(ks - left, top.value, k);
        top := Some(Higher(top.value, k));
      }
      left := left - {k};
    }
  }

  lemma NextTop(seen: set<Key>, top: Key, k: Key)
    requires |top| == KEY_LEN && |k| == KEY_LEN
    requires forall j :: j in seen ==> j == top || Before(j, top)
    ensures forall j :: j in seen || j == k ==> j == Higher(top, k) || Before(j, Higher(top, k))
  {
    forall j | j in seen || j == k ensures j == Higher(top, k) || Before(j, Higher(top, k)) {
      HigherBounds(top, k, j);
      BeforeTotal(top, k);
    }
  }

  /** The part of a disk not below `bound`; without a bound, nothing. */
  ghost function NotBelow(d: map<Key, Offer>, bound: Option<Key>): map<Key, Offer> {
    if bound.None? then map[] else map k | k in d && !Before(k, bound.value) :: d[k]
  }

  ghost predicate KeyLengths(d: map<Key, Offer>) {
    forall k :: k in d ==> |k| == KEY_LEN
  }

  // ---- Phase 1 ---------------------------------------------------------------------------------------------------------------

  ghost function ManyCancelled(ts: seq<Thunk>): set<Key> {
    if ts == [] then {} else ManyCancelled(ts[..|ts| - 1]) + CancelledKeys(Top(ts))
  }

  lemma {:induction false} ManyCancelledAt(ts: seq<Thunk>, k: Key)
    ensures k in ManyCancelled(ts) <==> exists i :: 0 <= i < |ts| && Cancels(ts[i], k)
  {
    if ts != [] {
      var init := ts[..|ts| - 1];
      ManyCancelledAt(init, k);
      CancelsKey(Top(ts), k);
      if k in ManyCancelled(init) {
        var i :| 0 <= i < |init| && Cancels(init[i], k);
        assert Cancels(ts[i], k);
      }
      if i :| 0 <= i < |ts| && Cancels(ts[i], k) {
        if i < |init| {
          assert Cancels(init[i], k);
        }
      }
    }
  }

  /** `top` is the greatest threshold among `ts`, or the zero key if there is none. */
  ghost predicate TopThreshold(ts: seq<Thunk>, top: Key, found: bool) {
    && |top| == KEY_LEN
    && (found <==> exists i :: 0 <= i < |ts| && ts[i].partial.Some?)
    && (forall k :: Before(k, top) <==> exists i :: 0 <= i < |ts| && Below(ts[i], k))
  }

  ghost predicate ThresholdLengths(ts: seq<Thunk>) {
    forall i :: 0 <= i < |ts| && ts[i].partial.Some? ==> |ts[i].partial.value.key| == KEY_LEN
  }

  lemma NextThreshold(ts: seq<Thunk>, i: nat, top: Key, found: bool)
    requires ThresholdLengths(ts) && i < |ts| && TopThreshold(ts[..i], top, found)
    ensures var p := ts[i].partial;
            if p.None? then TopThreshold(ts[..i + 1], top, found)
            else TopThreshold(ts[..i + 1], Higher(top, p.value.key), true)
  {
    var p := ts[i].partial;
    var init, next := ts[..i], ts[..i + 1];
    assert next == init + [ts[i]];
    forall k ensures (exists j :: 0 <= j < |next| && Below(next[j], k)) <==>
                     (exists j :: 0 <= j < |init| && Below(init[j], k)) || Below(ts[i], k) {
      if j :| 0 <= j < |init| && Below(init[j], k) {
        assert Below(next[j], k);
      }
      if Below(ts[i], k) {
        assert Below(next[i], k);
      }
    }
    if p.Some? {
      assert next[i].partial.Some?;
      forall k ensures Before(k, Higher(top, p.value.key)) <==> Before(k, top) || Before(k, p.value.key) {
        HigherBounds(top, p.value.key, k);
      }
    } else if found {
      var j :| 0 <= j < |init| && init[j].partial.Some?;
      assert next[j].partial.Some?;
    }
  }

  // ---- Phase 3 ---------------------------------------------------------------------------------------------------------------

  /** The greatest threshold from the `i`-th record on, records without a threshold offer counting as all ones. */
  ghost predicate RoofOf(ts: seq<Thunk>, i: nat, roof: Key) {
    |roof| == KEY_LEN && forall k :: Unbeaten(ts, i, k) <==> !Before(k, roof)
  }

  lemma NextRoof(ts: seq<Thunk>, i: nat, roof: Key)
    requires i < |ts| && ThresholdLengths(ts) && RoofOf(ts, i + 1, roof)
    ensures RoofOf(ts, i, Higher(roof, ThresholdOf(ts[i].partial)))
  {
    var key := ThresholdOf(ts[i].partial);
    forall k ensures Unbeaten(ts, i, k) <==> !Before(k, Higher(roof, key)) {
      HigherBounds(roof, key, k);
      assert Unbeaten(ts, i, k) <==> Unbeaten(ts, i + 1, k) && !Before(k, key);
    }
  }

  /** Comparing prices first and whole keys on a tie is comparing keys. */
  lemma PriceFirst(o: Offer, roof: Key)
    requires OfferOk(o) && |roof| == KEY_LEN
    ensures var price := Value(roof[..PRICE_LEN]);
            !Before(OfferKey(o), roof) <==> o.minPrice > price || (o.minPrice == price && !Before(OfferKey(o), roof))
  {
    var k := OfferKey(o);
    var price := Value(roof[..PRICE_LEN]);
    assert k[..PRICE_LEN] == Digits(o.minPrice, PRICE_LEN);
    ValueOfDigits(o.minPrice, PRICE_LEN);
    BeforePart(k, roof, PRICE_LEN);
    BeforePart(roof, k, PRICE_LEN);
    BeforeIsLess(k[..PRICE_LEN], roof[..PRICE_LEN]);
    BeforeIsLess(roof[..PRICE_LEN], k[..PRICE_LEN]);
    if o.minPrice > price && Before(k, roof) {
      BeforeAsymmetric(k, roof);
    }
  }

  /** The offers of `s` not below `roof` are written over `x`. */
  ghost function PutOver(x: Option<Offer>, s: seq<Offer>, roof: Key, k: Key): Option<Offer> {
    if k in OffersMap(s) && !Before(k, roof) then Some(OffersMap(s)[k]) else x
  }

  lemma {:induction false} OffersFront(o: Offer, s: seq<Offer>, k: Key)
    ensures Lookup(OffersMap([o] + s), k) ==
            if k in OffersMap(s) then Some(OffersMap(s)[k]) else if k == OfferKey(o) then Some(o) else None
  {
    var t := [o] + s;
    if s == [] {
      assert t[..0] == [];
    } else {
      OffersFront(o, s[..|s| - 1], k);
      assert t[..|t| - 1] == [o] + s[..|s| - 1];
    }
  }

  /** One more offer in front of those already looked at. */
  lemma PutFront(x: Option<Offer>, s: seq<Offer>, i: nat, roof: Key, k: Key)
    requires i < |s| && BookOrder(s)
    ensures PutOver(x, s[i..], roof, k) ==
            if k == OfferKey(s[i]) && !Before(k, roof) then Some(s[i]) else PutOver(x, s[i + 1..], roof, k)
  {
    var tail := s[i + 1..];
    assert s[i..] == [s[i]] + tail;
    OffersFront(s[i], tail, k);
    OffersMapKeys(tail);
    forall o | o in tail ensures OfferKey(o) != OfferKey(s[i]) {
      var j :| 0 <= j < |tail| && tail[j] == o;
      DistinctKeys(s, i, i + 1 + j);
    }
  }

  /** Offers before one that is below the roof are below the roof too. */
  lemma PutNoMore(x: Option<Offer>, s: seq<Offer>, i: nat, roof: Key, k: Key)
    requires i < |s| && BookOrder(s) && Before(OfferKey(s[i]), roof)
    ensures PutOver(x, s, roof, k) == PutOver(x, s[i + 1..], roof, k)
  {
    for j := i + 1 downto 0
      invariant PutOver(x, s[j..], roof, k) == PutOver(x, s[i + 1..], roof, k)
    {
      PutFront(x, s, j, roof, k);
      if j < i {
        BeforeTrans(OfferKey(s[j]), OfferKey(s[i]), roof);
      }
    }
    assert s[0..] == s;
  }

  // ---- Phase 4 ---------------------------------------------------------------------------------------------------------------

  /** What phase 3 leaves can be sold from: no record sells more than is there. */
  lemma NoOversell(x: Option<Offer>, ts: seq<Thunk>, i: nat, k: Key)
    requires RunAt(x, ts, k) && i < |ts| && SellsFrom(ts[i], k)
    ensures var y := PutNew(DropBelow(DropCancelled(x, ts, k), ts, k), ts, 0, k);
            SellAll(y, ts[..i], k).Some? ==> ts[i].partial.value.amount <= SellAll(y, ts[..i], k).value.amount
  {
    var y := PutNew(DropBelow(DropCancelled(x, ts, k), ts, k), ts, 0, k);
    SellNone(ts[..i], k);
    if x.Some? {
      NothingNew(DropBelow(DropCancelled(x, ts, k), ts, k), ts, 0, k);
      assert ts[..0] == [];
      SoldInLife(x, ts, 0, x.value, i, k);
    } else if a :| 0 <= a < |ts| && Creates(ts[a], k) {
      Unborn(x, ts, a, k);
      assert FitsIn(x, ts, a, k);
      NewAt(None, ts, 0, a, k);
      SoldInLife(x, ts, a, OffersMap(ts[a].newOffers)[k], i, k);
    } else {
      NothingNew(None, ts, 0, k);
    }
  }

  lemma SoldInLife(x: Option<Offer>, ts: seq<Thunk>, a: nat, s: Offer, i: nat, k: Key)
    requires RunAt(x, ts, k) && Born(x, ts, a, s, k) && i < |ts| && SellsFrom(ts[i], k)
    ensures SellAll(Some(s), ts[..i], k).Some?
    ensures ts[i].partial.value.amount <= SellAll(Some(s), ts[..i], k).value.amount
  {
    Touched(x, ts, a, s, i, k);
    assert FitsIn(x, ts, i, k);
    if i > a {
      Life(x, ts, a, s, i, k);
    } else {
      SellNothing(Some(s), ts[..a], 0, k);
      assert ts[..a][..0] == [];
    }
  }

  // ---- The class ---------------------------------------------------------------------------------------------------------------

  /** What the records of a batch look like: lengths and orders, as their makers leave them. */
  ghost predicate Recorded(ts: seq<Thunk>) {
    && ThresholdLengths(ts)
    && (forall i :: 0 <= i < |ts| ==> BookOrder(ts[i].newOffers))
    && (forall i, o :: 0 <= i < |ts| && o in ts[i].newOffers ==> OfferOk(o))
  }

  class WorkUnitLMDB {
    var disk: map<Key, Offer>
    var thunks: seq<Thunk>
    var persisted: nat

    /** Phase 1: deletes the cancelled offers and finds the greatest threshold. */
    method DeleteCancelled(ts: seq<Thunk>) returns (top: Key, found: bool)
      requires ThresholdLengths(ts)
      modifies this`disk
      ensures TopThreshold(ts, top, found)
      ensures disk == old(disk) - ManyCancelled(ts)
    {
      top, found := ZeroKey, false;
      forall k ensures !Before(k, top) {
        ZeroIsLeast(k);
      }
      for i := 0 to |ts|
        invariant TopThreshold(ts[..i], top, found)
        invariant disk == old(disk) - ManyCancelled(ts[..i])
      {
        assert ts[..i + 1][..i] == ts[..i];
        DeleteItems(ts[i].cancelled);
        NextThreshold(ts, i, top, found);
        if ts[i].partial.Some? {
          found := true;
          top := Higher(top, ts[i].partial.value.key);
        }
      }
      assert ts[..|ts|] == ts;
    }

    method DeleteItems(items: seq<Item<Offer>>)
      modifies this`disk
      ensures disk == old(disk) - set x | x in items :: x.key
    {
      for i := 0 to |items|
        invariant disk == old(disk) - set x | x in items[..i] :: x.key
      {
        assert items[..i + 1] == items[..i] + [items[i]];
        disk := disk - {items[i].key};
      }
      assert items[..|items|] == items;
    }

    /** Phase 2: a cursor runs down from the greatest key below `top`, or from the last key if no record has one. */
    method DeleteBelow(top: Key, found: bool)
      requires KeyLengths(disk)
      modifies this`disk
      ensures disk == NotBelow(old(disk), if found then Some(top) else None)
    {
      ghost var bound := if found then Some(top) else None;
      var cursor := SeekBelow(top, found);
      SweepStart(disk, cursor, bound);
      while cursor.Some?
        invariant Sweeping(disk, old(disk), cursor, bound)
        decreases |disk|
      {
        var at := cursor.value;
        cursor := Greatest(set k | k in disk - {at} && Before(k, at));
        SweepStep(disk, old(disk), at, cursor, bound);
        disk := disk - {at};
      }
      SweepDone(disk, old(disk), bound);
    }

    /** `MDB_SET_RANGE` and one step back; `MDB_LAST` when no key is high enough, or no threshold was found. */
    method SeekBelow(top: Key, found: bool) returns (cursor: Option<Key>)
      requires KeyLengths(disk)
      ensures IsGreatest(cursor, Doomed(disk, if found then Some(top) else None))
    {
      var above := set k | k in disk && !Before(k, top);
      if !found || above == {} {
        NoneAbove(disk, top, found, above);
        cursor := Greatest(disk.Keys);
      } else {
        cursor := Greatest(set k | k in disk && Before(k, top));
        assert Doomed(disk, Some(top)) == set k | k in disk && Before(k, top);
      }
    }

    /**
     Phase 3: from the latest record to the earliest, the new offers that no threshold from that record on clears.
     The offers of a record are tried from the dearest down, until one is too cheap.
     */
    method PutNewOffers(ts: seq<Thunk>)
      requires Recorded(ts)
      modifies this`disk
      ensures forall k :: Lookup(disk, k) == PutNew(Lookup(old(disk), k), ts, 0, k)
    {
      var roof := ZeroKey;
      forall k ensures !Before(k, roof) {
        ZeroIsLeast(k);
      }
      for i := |ts| downto 0
        invariant RoofOf(ts, i, roof)
        invariant forall k :: Lookup(disk, k) == PutNew(Lookup(old(disk), k), ts, i, k)
      {
        NextRoof(ts, i, roof);
        roof := Higher(roof, ThresholdOf(ts[i].partial));
        PutOffers(ts[i].newOffers, roof);
      }
    }

    method PutOffers(s: seq<Offer>, roof: Key)
      requires BookOrder(s) && |roof| == KEY_LEN && forall o :: o in s ==> OfferOk(o)
      modifies this`disk
      ensures forall k :: Lookup(disk, k) == PutOver(Lookup(old(disk), k), s, roof, k)
    {
      var price := Value(roof[..PRICE_LEN]);
      var idx := |s|;
      assert s[|s|..] == [];
      while idx > 0
        invariant 0 <= idx <= |s|
        invariant forall k :: Lookup(disk, k) == PutOver(Lookup(old(disk), k), s[idx..], roof, k)
      {
        var o := s[idx - 1];
        PriceFirst(o, roof);
        PutFrontAll(old(disk), s, idx - 1, roof);
        assert s[idx - 1 + 1..] == s[idx..];
        if o.minPrice > price || (o.minPrice == price && !Before(OfferKey(o), roof)) {
          disk := disk[OfferKey(o) := o];
        } else {
          PutNoMoreAll(old(disk), s, idx - 1, roof);
          return;
        }
        idx := idx - 1;
      }
      assert s[0..] == s;
    }

    /** Phase 4: threshold offers found on disk lose what they sold. Not `ok` would be the throw on overselling. */
    method SellPartials(ts: seq<Thunk>) returns (ok: bool)
      requires forall i, k :: 0 <= i < |ts| && SellsFrom(ts[i], k) ==> CanSell(Lookup(disk, k), ts, i, k)
      modifies this`disk
      ensures ok
      ensures forall k :: Lookup(disk, k) == SellAll(Lookup(old(disk), k), ts, k)
    {
      ok := true;
      for i := 0 to |ts|
        invariant ok
        invariant forall k :: Lookup(disk, k) == SellAll(Lookup(old(disk), k), ts[..i], k)
      {
        SellStepAll(old(disk), ts, i);
        if ts[i].partial.Some? {
          var p := ts[i].partial.value;
          assert SellsFrom(ts[i], p.key);
          assert CanSell(Lookup(old(disk), p.key), ts, i, p.key);
          if p.key in disk {
            var o := disk[p.key];
            ok := ok && p.amount <= o.amount;
            if o.amount > p.amount {
              disk := disk[p.key := o.(amount := o.amount - p.amount)];
            } else {
              disk := disk - {p.key};
            }
          }
        }
      }
      assert ts[..|ts|] == ts;
    }

    /** Phase 5: threshold offers of earlier blocks that lie below a later block's threshold are gone. */
    method DropSwept(ts: seq<Thunk>)
      modifies this`disk
      ensures forall k :: Lookup(disk, k) == if Swept(ts, k) then None else Lookup(old(disk), k)
    {
      for i := 0 to |ts|
        invariant forall k :: Lookup(disk, k) == if SweptBy(ts, i, |ts|, k) then None else Lookup(old(disk), k)
      {
        if ts[i].partial.Some? {
          var key := ts[i].partial.value.key;
          for later := i + 1 to |ts|
            invariant forall k :: Lookup(disk, k) ==
                                  if SweptBy(ts, i, |ts|, k) || (k == key && BeatenBy(ts, i, later, k)) then None
                                  else Lookup(old(disk), k)
          {
            if Before(key, ThresholdOf(ts[later].partial)) {
              disk := disk - {key};
            }
          }
        }
      }
    }

    /** The five phases. */
    method WriteBatch(ts: seq<Thunk>) returns (ok: bool)
      requires KeyLengths(disk) && Recorded(ts) && BatchRun(disk, ts)
      modifies this`disk
      ensures ok && Written(disk, old(disk), ts)
    {
      ghost var b := disk;
      var top, found := DeleteCancelled(ts);
      DeleteBelow(top, found);
      AfterTwoPhases(disk, b, ts, top, found);
      PutNewOffers(ts);
      ghost var d := disk;
      forall i, k | 0 <= i < |ts| && SellsFrom(ts[i], k) ensures CanSell(Lookup(d, k), ts, i, k) {
        RunHere(b, ts, k);
        NoOversell(Lookup(b, k), ts, i, k);
      }
      ok := SellPartials(ts);
      DropSwept(ts);
    }

    /**
     `write_thunks`: takes the records up to `block` off the list and writes them. Not `ok` stands for its throws: no
     records although the block is not persisted, or a first record that is not the next block's. The throws inside
     the phases never fire.
     */
    method WriteThunks(block: nat) returns (ok: bool)
      requires KeyLengths(disk) && Recorded(Upto(thunks, block)) && BatchRun(disk, Upto(thunks, block))
      modifies this`disk, this`thunks
      ensures thunks == After(old(thunks), block)
      ensures ok <==> var ts := Upto(old(thunks), block);
                      if ts == [] then persisted == block else ts[0].block == persisted + 1
      ensures var ts := Upto(old(thunks), block);
              if ok && ts != [] then Written(disk, old(disk), ts) else disk == old(disk)
      ensures var ts := Upto(old(thunks), block);
              ok && ts != [] && KeysBelowMax(old(disk), ts) ==>
                (disk == AppliedAll(old(disk), ts) <==> NoPhantoms(ts) && NothingStale(old(disk), ts))
    {
      ghost var b := disk;
      var ts := TakeRelevant(block);
      if ts == [] {
        return persisted == block;
      }
      if ts[0].block != persisted + 1 {
        return false;
      }
      ok := WriteBatch(ts);
      if KeysBelowMax(b, ts) {
        BatchExact(disk, b, ts);
      }
    }

    /** Moves the records up to `block` out of the list. */
    method TakeRelevant(block: nat) returns (ts: seq<Thunk>)
      modifies this`thunks
      ensures ts == Upto(old(thunks), block) && thunks == After(old(thunks), block)
    {
      ts := [];
      ghost var all := thunks;
      ghost var done := 0;
      var i := 0;
      while i < |thunks|
        invariant done <= |all| && i <= |thunks|
        invariant thunks[i..] == all[done..]
        invariant thunks[..i] == After(all[..done], block) && ts == Upto(all[..done], block)
        decreases |all| - done
      {
        TakeRecord(all, done, block);
        var t := thunks[i];
        assert t == thunks[i..][0] == all[done];
        assert thunks[i + 1..] == thunks[i..][1..] == all[done..][1..] == all[done + 1..];
        if t.block <= block {
          ts := ts + [t];
          var left := thunks[..i] + thunks[i + 1..];
          assert left[..i] == thunks[..i] && left[i..] == thunks[i + 1..];
          thunks := left;
        } else {
          assert thunks[..i + 1] == thunks[..i] + [t];
          i := i + 1;
        }
        done := done + 1;
      }
      assert all[..done] == all && thunks[..i] == thunks;
    }
  }

  ghost predicate IsGreatest(top: Option<Key>, ks: set<Key>) {
    && (top.None? <==> ks == {})
    && (top.Some? ==> top.value in ks && forall k :: k in ks ==> k == top.value || Before(k, top.value))
  }

  /** The keys a sweep will delete. */
  ghost function Doomed(d: map<Key, Offer>, bound: Option<Key>): set<Key> {
    set k | k in d && (bound.None? || Before(k, bound.value))
  }

  lemma NoneAbove(d: map<Key, Offer>, top: Key, found: bool, above: set<Key>)
    requires above == (set k | k in d && !Before(k, top)) && (!found || above == {})
    ensures d.Keys == Doomed(d, if found then Some(top) else None)
  {
    forall k | k in d && found ensures Before(k, top) {
      assert k !in above;
    }
  }

  lemma SweepStart(d: map<Key, Offer>, cursor: Option<Key>, bound: Option<Key>)
    requires KeyLengths(d)
    requires IsGreatest(cursor, Doomed(d, bound))
    ensures Sweeping(d, d, cursor, bound)
  {
    forall k | k in d && (bound.None? || Before(k, bound.value)) ensures k in Doomed(d, bound) {
    }
  }

  lemma SweepStep(d: map<Key, Offer>, was: map<Key, Offer>, at: Key, next: Option<Key>, bound: Option<Key>)
    requires Sweeping(d, was, Some(at), bound)
    requires IsGreatest(next, set k | k in d - {at} && Before(k, at))
    ensures Sweeping(d - {at}, was, next, bound)
    ensures |d - {at}| < |d|
  {
    BeforeIrreflexive(at);
    assert d.Keys == (d - {at}).Keys + {at};
    if next.Some? && bound.Some? {
      BeforeTrans(next.value, at, bound.value);
    }
  }

  lemma SweepDone(d: map<Key, Offer>, was: map<Key, Offer>, bound: Option<Key>)
    requires Sweeping(d, was, None, bound)
    ensures d == NotBelow(was, bound)
  {
  }

  /** Keys above the cursor that are below the bound are deleted; nothing else is. */
  ghost predicate Sweeping(d: map<Key, Offer>, was: map<Key, Offer>, cursor: Option<Key>, bound: Option<Key>) {
    && KeyLengths(d)
    && (forall k :: k in d ==> k in was && d[k] == was[k])
    && (forall k :: k in was && k !in d ==> bound.None? || Before(k, bound.value))
    && (cursor.Some? ==> cursor.value in d && (bound.None? || Before(cursor.value, bound.value)))
    && (forall k :: k in d && (bound.None? || Before(k, bound.value)) ==>
          cursor.Some? && (k == cursor.value || Before(k, cursor.value)))
  }

  lemma PutFrontAll(b: map<Key, Offer>, s: seq<Offer>, i: nat, roof: Key)
    requires i < |s| && BookOrder(s)
    ensures forall k :: PutOver(Lookup(b, k), s[i..], roof, k) ==
                        if k == OfferKey(s[i]) && !Before(k, roof) then Some(s[i])
                        else PutOver(Lookup(b, k), s[i + 1..], roof, k)
  {
    forall k ensures PutOver(Lookup(b, k), s[i..], roof, k) ==
                     if k == OfferKey(s[i]) && !Before(k, roof) then Some(s[i])
                     else PutOver(Lookup(b, k), s[i + 1..], roof, k) {
      PutFront(Lookup(b, k), s, i, roof, k);
    }
  }

  lemma PutNoMoreAll(b: map<Key, Offer>, s: seq<Offer>, i: nat, roof: Key)
    requires i < |s| && BookOrder(s) && Before(OfferKey(s[i]), roof)
    ensures forall k :: PutOver(Lookup(b, k), s, roof, k) == PutOver(Lookup(b, k), s[i + 1..], roof, k)
  {
    forall k ensures PutOver(Lookup(b, k), s, roof, k) == PutOver(Lookup(b, k), s[i + 1..], roof, k) {
      PutNoMore(Lookup(b, k), s, i, roof, k);
    }
  }

  /** Record `i` finds under its threshold key, if anything, as much as it sells. */
  ghost predicate CanSell(x: Option<Offer>, ts: seq<Thunk>, i: nat, k: Key)
    requires i < |ts|
  {
    ts[i].partial.Some? && SellAll(x, ts[..i], k).Some? ==>
      ts[i].partial.value.amount <= SellAll(x, ts[..i], k).value.amount
  }

  lemma SellStepAll(b: map<Key, Offer>, ts: seq<Thunk>, i: nat)
    requires i < |ts|
    ensures forall k :: SellAll(Lookup(b, k), ts[..i + 1], k) == Sell(SellAll(Lookup(b, k), ts[..i], k), ts[i], k)
  {
    forall k ensures SellAll(Lookup(b, k), ts[..i + 1], k) == Sell(SellAll(Lookup(b, k), ts[..i], k), ts[i], k) {
      SellStep(Lookup(b, k), ts, i, k);
    }
  }

  /** A record from `i + 1` to before `n` has a threshold above `k`. */
  ghost predicate BeatenBy(ts: seq<Thunk>, i: nat, n: nat, k: Key)
    requires n <= |ts|
  {
    exists j :: i < j < n && Before(k, ThresholdOf(ts[j].partial))
  }

  ghost predicate SweptBy(ts: seq<Thunk>, m: nat, n: nat, k: Key)
    requires m <= |ts| && n <= |ts|
  {
    exists i :: 0 <= i < m && SellsFrom(ts[i], k) && BeatenBy(ts, i, n, k)
  }

  lemma AfterTwoPhases(d: map<Key, Offer>, b: map<Key, Offer>, ts: seq<Thunk>, top: Key, found: bool)
    requires TopThreshold(ts, top, found)
    requires d == NotBelow(b - ManyCancelled(ts), if found then Some(top) else None)
    ensures forall k :: Lookup(d, k) == DropBelow(DropCancelled(Lookup(b, k), ts, k), ts, k)
  {
    forall k ensures Lookup(d, k) == DropBelow(DropCancelled(Lookup(b, k), ts, k), ts, k) {
      ManyCancelledAt(ts, k);
    }
  }
}
