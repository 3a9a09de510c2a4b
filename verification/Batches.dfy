/**
 Writing a batch of block records to disk, key by key: what applying the records one block at a time does to the
 offer under one key, what the five phases of `write_thunks` do to it, and exactly when they agree.
 */
module Batches {
  import opened Keys
  import opened Trie
  import opened Offers
  import opened OrderBook
  import opened Clearing
  import opened WorkUnits
  import opened Blocks

  // ---- One block ------------------------------------------------------------------------------------------------------

  ghost predicate Cancels(t: Thunk, k: Key) {
    exists x :: x in t.cancelled && x.key == k
  }

  ghost predicate Creates(t: Thunk, k: Key) {
    k in OffersMap(t.newOffers)
  }

  /** `k` lies below the block's threshold key. */
  predicate Below(t: Thunk, k: Key) {
    t.partial.Some? && Before(k, t.partial.value.key)
  }

  predicate SellsFrom(t: Thunk, k: Key) {
    t.partial.Some? && t.partial.value.key == k
  }

  ghost function TakeIn(x: Option<Offer>, t: Thunk, k: Key): Option<Offer> {
    if Creates(t, k) then Some(OffersMap(t.newOffers)[k]) else if Cancels(t, k) then None else x
  }

  /** The threshold offer loses what it sold, and is removed once sold out. */
  function Sell(x: Option<Offer>, t: Thunk, k: Key): Option<Offer> {
    if SellsFrom(t, k) && x.Some? then
      if x.value.amount > t.partial.value.amount then Some(x.value.(amount := x.value.amount - t.partial.value.amount))
      else None
    else x
  }

  ghost function StepAt(x: Option<Offer>, t: Thunk, k: Key): Option<Offer> {
    if t.partial.None? || Below(t, k) then None else Sell(TakeIn(x, t, k), t, k)
  }

  /** The offer under `k` after the blocks `ts`, one by one. */
  ghost function Outcome(x: Option<Offer>, ts: seq<Thunk>, k: Key): Option<Offer> {
    if ts == [] then x else StepAt(Outcome(x, ts[..|ts| - 1], k), Top(ts), k)
  }

  // ---- Runs --------------------------------------------------------------------------------------------------------------

  /** Record `t` can describe a block on a book with `x` under `k`. */
  ghost predicate FitsAt(x: Option<Offer>, t: Thunk, k: Key) {
    && (Cancels(t, k) ==> x.Some?)
    && (Creates(t, k) ==> x.None?)
    && (SellsFrom(t, k) ==> TakeIn(x, t, k).Some? && t.partial.value.amount <= TakeIn(x, t, k).value.amount)
  }

  ghost predicate FitsIn(x: Option<Offer>, ts: seq<Thunk>, i: nat, k: Key)
    requires i < |ts|
  {
    FitsAt(Outcome(x, ts[..i], k), ts[i], k)
  }

  /** Every record fits the book the earlier ones leave, and offers are created once. */
  ghost predicate RunAt(x: Option<Offer>, ts: seq<Thunk>, k: Key) {
    && (forall i :: 0 <= i < |ts| ==> FitsIn(x, ts, i, k))
    && (forall i :: 0 <= i < |ts| && Creates(ts[i], k) ==> x.None?)
    && (forall i, j :: 0 <= i < j < |ts| ==> !(Creates(ts[i], k) && Creates(ts[j], k)))
  }

  // ---- The five phases ----------------------------------------------------------------------------------------------------

  /** Phase 1: cancelled keys. */
  ghost function DropCancelled(x: Option<Offer>, ts: seq<Thunk>, k: Key): Option<Offer> {
    if exists i :: 0 <= i < |ts| && Cancels(ts[i], k) then None else x
  }

  /** Phase 2: everything below the greatest threshold; everything, if there is none. */
  ghost predicate Survives(ts: seq<Thunk>, k: Key) {
    && (exists i :: 0 <= i < |ts| && ts[i].partial.Some?)
    && (forall i :: 0 <= i < |ts| ==> !Below(ts[i], k))
  }

  ghost function DropBelow(x: Option<Offer>, ts: seq<Thunk>, k: Key): Option<Offer> {
    if Survives(ts, k) then x else None
  }

  /** No record from the `i`-th on has a threshold above `k`; one without a threshold offer counts as all ones. */
  ghost predicate Unbeaten(ts: seq<Thunk>, i: nat, k: Key) {
    forall j :: i <= j < |ts| ==> !Before(k, ThresholdOf(ts[j].partial))
  }

  /** Phase 3: new offers, the latest record first. */
  ghost function PutNew(x: Option<Offer>, ts: seq<Thunk>, i: nat, k: Key): Option<Offer>
    requires i <= |ts|
    decreases |ts| - i
  {
    if i == |ts| then x
    else if Creates(ts[i], k) && Unbeaten(ts, i, k) then Some(OffersMap(ts[i].newOffers)[k])
    else PutNew(x, ts, i + 1, k)
  }

  /** Phase 4: what threshold offers sold. */
  function SellAll(x: Option<Offer>, ts: seq<Thunk>, k: Key): Option<Offer> {
    if ts == [] then x else Sell(SellAll(x, ts[..|ts| - 1], k), Top(ts), k)
  }

  /** Phase 5: threshold offers that a later block cleared. */
  ghost predicate Swept(ts: seq<Thunk>, k: Key) {
    exists i, j :: 0 <= i < j < |ts| && SellsFrom(ts[i], k) && Before(k, ThresholdOf(ts[j].partial))
  }

  ghost function BatchAt(x: Option<Offer>, ts: seq<Thunk>, k: Key): Option<Offer> {
    var y := DropBelow(DropCancelled(x, ts, k), ts, k);
    var z := SellAll(PutNew(y, ts, 0, k), ts, k);
    if Swept(ts, k) then None else z
  }

  // ---- Where the phases go wrong ---------------------------------------------------------------------------------------

  /** An offer cancelled in the batch that created it, above all later thresholds, is written after its deletion. */
  ghost predicate Phantom(ts: seq<Thunk>, k: Key) {
    exists i, j :: 0 <= i < j < |ts| && Creates(ts[i], k) && Unbeaten(ts, i, k) && Cancels(ts[j], k)
  }

  /** Some, but not all, records cleared the whole book, and an offer on disk above all thresholds is never touched. */
  ghost predicate Stale(x: Option<Offer>, ts: seq<Thunk>, k: Key) {
    && x.Some? && Survives(ts, k)
    && (exists i :: 0 <= i < |ts| && ts[i].partial.None?)
    && (forall i :: 0 <= i < |ts| ==> !Cancels(ts[i], k) && !SellsFrom(ts[i], k))
  }

  // ---- The life of one offer ------------------------------------------------------------------------------------------------

  ghost predicate Clears(t: Thunk, k: Key) {
    t.partial.None? || Below(t, k)
  }

  /** Some record from the `a`-th to before the `i`-th takes the offer under `k` out of the book. */
  ghost predicate Gone(ts: seq<Thunk>, a: nat, i: nat, k: Key)
    requires i <= |ts|
  {
    exists j :: a <= j < i && Ends(ts[j], k)
  }

  ghost predicate Ends(t: Thunk, k: Key) {
    Cancels(t, k) || Clears(t, k)
  }

  lemma {:induction false} SellNothing(x: Option<Offer>, ts: seq<Thunk>, a: nat, k: Key)
    requires a <= |ts|
    requires forall j :: a <= j < |ts| ==> !SellsFrom(ts[j], k)
    ensures SellAll(x, ts, k) == SellAll(x, ts[..a], k)
  {
    if a == |ts| {
      assert ts[..a] == ts;
    } else {
      SellNothing(x, ts[..|ts| - 1], a, k);
      assert ts[..|ts| - 1][..a] == ts[..a];
    }
  }

  lemma OutcomeStep(x: Option<Offer>, ts: seq<Thunk>, i: nat, k: Key)
    requires i < |ts|
    ensures Outcome(x, ts[..i + 1], k) == StepAt(Outcome(x, ts[..i], k), ts[i], k)
  {
    assert ts[..i + 1][..i] == ts[..i];
  }

  lemma SellStep(x: Option<Offer>, ts: seq<Thunk>, i: nat, k: Key)
    requires i < |ts|
    ensures SellAll(x, ts[..i + 1], k) == Sell(SellAll(x, ts[..i], k), ts[i], k)
  {
    assert ts[..i + 1][..i] == ts[..i];
  }

  /** The offer `s` under `k` enters the book with record `a` (or is there from the start, and `a` is 0). */
  ghost predicate Born(x: Option<Offer>, ts: seq<Thunk>, a: nat, s: Offer, k: Key) {
    && a < |ts|
    && (forall j :: 0 <= j < a ==> !Cancels(ts[j], k) && !SellsFrom(ts[j], k))
    && TakeIn(Outcome(x, ts[..a], k), ts[a], k) == (if Cancels(ts[a], k) then None else Some(s))
    && (forall j :: a < j < |ts| ==> !Creates(ts[j], k))
  }

  /** While the offer is in the book it carries what it has not sold; then it is gone for good. */
  ghost predicate Lives(x: Option<Offer>, ts: seq<Thunk>, a: nat, s: Offer, i: nat, k: Key)
    requires i <= |ts|
  {
    Outcome(x, ts[..i], k) == if Gone(ts, a, i, k) then None else SellAll(Some(s), ts[..i], k)
  }

  lemma LifeStarts(x: Option<Offer>, ts: seq<Thunk>, a: nat, s: Offer, k: Key)
    requires Born(x, ts, a, s, k)
    ensures Lives(x, ts, a, s, a + 1, k)
  {
    OutcomeStep(x, ts, a, k);
    SellStep(Some(s), ts, a, k);
    SellNothing(Some(s), ts[..a], 0, k);
    assert ts[..a][..0] == [];
    GoneStep(ts, a, a, k);
  }

  lemma LifeGoesOn(x: Option<Offer>, ts: seq<Thunk>, a: nat, s: Offer, i: nat, k: Key)
    requires RunAt(x, ts, k) && Born(x, ts, a, s, k) && a < i < |ts|
    requires Lives(x, ts, a, s, i, k)
    ensures Lives(x, ts, a, s, i + 1, k)
  {
    OutcomeStep(x, ts, i, k);
    SellStep(Some(s), ts, i, k);
    GoneStep(ts, a, i, k);
    assert FitsIn(x, ts, i, k);
  }

  lemma Life(x: Option<Offer>, ts: seq<Thunk>, a: nat, s: Offer, i: nat, k: Key)
    requires RunAt(x, ts, k) && Born(x, ts, a, s, k) && a < i <= |ts|
    ensures Lives(x, ts, a, s, i, k)
  {
    LifeStarts(x, ts, a, s, k);
    for h := a + 1 to i
      invariant Lives(x, ts, a, s, h, k)
    {
      LifeGoesOn(x, ts, a, s, h, k);
    }
  }

  lemma GoneStep(ts: seq<Thunk>, a: nat, i: nat, k: Key)
    requires a <= i < |ts|
    ensures Gone(ts, a, i + 1, k) <==> Gone(ts, a, i, k) || Ends(ts[i], k)
  {
  }

  /** A record that cancels or sells from the offer finds it in the book. */
  lemma Touched(x: Option<Offer>, ts: seq<Thunk>, a: nat, s: Offer, i: nat, k: Key)
    requires RunAt(x, ts, k) && Born(x, ts, a, s, k) && i < |ts|
    requires Cancels(ts[i], k) || SellsFrom(ts[i], k)
    ensures a <= i && !Gone(ts, a, i, k)
    ensures Cancels(ts[i], k) ==> SellAll(Some(s), ts[..i], k).Some? && !SellsFrom(ts[i], k)
  {
    assert FitsIn(x, ts, i, k);
    if i > a {
      Life(x, ts, a, s, i, k);
    } else {
      SellNothing(Some(s), ts[..a], 0, k);
      assert ts[..a][..0] == [];
    }
  }

  /** A cancelled offer had not sold out. */
  lemma CancelledUnsold(x: Option<Offer>, ts: seq<Thunk>, a: nat, s: Offer, c: nat, k: Key)
    requires RunAt(x, ts, k) && Born(x, ts, a, s, k) && c < |ts| && Cancels(ts[c], k)
    ensures SellAll(Some(s), ts, k).Some?
  {
    Touched(x, ts, a, s, c, k);
    forall j | c <= j < |ts| ensures !SellsFrom(ts[j], k) {
      if SellsFrom(ts[j], k) {
        Touched(x, ts, a, s, j, k);
        assert Ends(ts[c], k);
      }
    }
    SellNothing(Some(s), ts, c, k);
  }

  lemma FullOutcome(x: Option<Offer>, ts: seq<Thunk>, a: nat, s: Offer, k: Key)
    requires RunAt(x, ts, k) && Born(x, ts, a, s, k)
    ensures Outcome(x, ts, k) == if Gone(ts, a, |ts|, k) then None else SellAll(Some(s), ts, k)
  {
    Life(x, ts, a, s, |ts|, k);
    assert ts[..|ts|] == ts;
  }

  // ---- The batch is exact ---------------------------------------------------------------------------------------------------

  lemma {:induction false} NothingNew(x: Option<Offer>, ts: seq<Thunk>, i: nat, k: Key)
    requires i <= |ts| && forall j :: i <= j < |ts| ==> !Creates(ts[j], k)
    ensures PutNew(x, ts, i, k) == x
    decreases |ts| - i
  {
    if i < |ts| {
      NothingNew(x, ts, i + 1, k);
    }
  }

  lemma {:induction false} NewAt(x: Option<Offer>, ts: seq<Thunk>, i: nat, a: nat, k: Key)
    requires i <= a < |ts| && Creates(ts[a], k)
    requires forall j :: i <= j < |ts| && j != a ==> !Creates(ts[j], k)
    ensures PutNew(x, ts, i, k) == if Unbeaten(ts, a, k) then Some(OffersMap(ts[a].newOffers)[k]) else x
    decreases a - i
  {
    if i < a {
      NewAt(x, ts, i + 1, a, k);
    } else {
      NothingNew(x, ts, i + 1, k);
    }
  }

  lemma {:induction false} SellNone(ts: seq<Thunk>, k: Key)
    ensures SellAll(None, ts, k) == None
  {
    if ts != [] {
      SellNone(ts[..|ts| - 1], k);
    }
  }

  /** Comparing with all ones is clearing everything. */
  lemma AllOnes(ts: seq<Thunk>, a: nat, k: Key)
    requires Before(k, MaxKey())
    ensures Unbeaten(ts, a, k) <==> forall j :: a <= j < |ts| ==> !Clears(ts[j], k)
    ensures Swept(ts, k) <==> exists i, j :: 0 <= i < j < |ts| && SellsFrom(ts[i], k) && Clears(ts[j], k)
  {
    forall j | 0 <= j < |ts| ensures Before(k, ThresholdOf(ts[j].partial)) <==> Clears(ts[j], k) {
    }
  }

  /** An offer on disk before the batch. */
  lemma OnDisk(x: Option<Offer>, ts: seq<Thunk>, k: Key)
    requires RunAt(x, ts, k) && ts != [] && Before(k, MaxKey()) && x.Some?
    ensures BatchAt(x, ts, k) == Outcome(x, ts, k) <==> !Stale(x, ts, k)
    ensures !Phantom(ts, k)
  {
    var s := x.value;
    assert ts[..0] == [];
    assert Born(x, ts, 0, s, k);
    NothingNew(DropBelow(DropCancelled(x, ts, k), ts, k), ts, 0, k);
    FullOutcome(x, ts, 0, s, k);
    SellNone(ts, k);
    AllOnes(ts, 0, k);
    if !Gone(ts, 0, |ts|, k) {
      assert !Ends(ts[0], k);
      assert ts[0].partial.Some?;
      assert Survives(ts, k) && !Swept(ts, k);
    } else {
      var f :| 0 <= f < |ts| && Ends(ts[f], k);
      OnDiskGone(x, ts, s, k, f);
    }
  }

  lemma OnDiskGone(x: Option<Offer>, ts: seq<Thunk>, s: Offer, k: Key, f: nat)
    requires RunAt(x, ts, k) && Before(k, MaxKey()) && x == Some(s) && Born(x, ts, 0, s, k)
    requires f < |ts| && Ends(ts[f], k)
    ensures var y := DropBelow(DropCancelled(x, ts, k), ts, k);
            (if Swept(ts, k) then None else SellAll(y, ts, k)) == None <==> !Stale(x, ts, k)
  {
    SellNone(ts, k);
    AllOnes(ts, 0, k);
    var y := DropBelow(DropCancelled(x, ts, k), ts, k);
    if y.Some? {
      assert ts[f].partial.None?;
      if i :| 0 <= i < |ts| && SellsFrom(ts[i], k) {
        Touched(x, ts, 0, s, i, k);
        assert i < f;
        assert Swept(ts, k);
      } else {
        SellNothing(x, ts, 0, k);
        assert ts[..0] == [];
      }
    }
  }

  /** An offer created in the batch. */
  lemma InBatch(x: Option<Offer>, ts: seq<Thunk>, a: nat, k: Key)
    requires RunAt(x, ts, k) && Before(k, MaxKey()) && a < |ts| && Creates(ts[a], k)
    ensures BatchAt(x, ts, k) == Outcome(x, ts, k) <==> !Phantom(ts, k)
    ensures x.None?
  {
    var s := OffersMap(ts[a].newOffers)[k];
    Unborn(x, ts, a, k);
    assert FitsIn(x, ts, a, k);
    assert Born(x, ts, a, s, k);
    NewAt(None, ts, 0, a, k);
    FullOutcome(x, ts, a, s, k);
    SellNone(ts, k);
    AllOnes(ts, a, k);
    if Unbeaten(ts, a, k) {
      NotSwept(x, ts, a, s, k);
      if Gone(ts, a, |ts|, k) {
        var c :| a <= c < |ts| && Ends(ts[c], k);
        assert Cancels(ts[c], k);
        CancelledUnsold(x, ts, a, s, c, k);
        assert Phantom(ts, k);
      }
    }
  }

  lemma NotSwept(x: Option<Offer>, ts: seq<Thunk>, a: nat, s: Offer, k: Key)
    requires RunAt(x, ts, k) && Born(x, ts, a, s, k) && Unbeaten(ts, a, k)
    ensures !Swept(ts, k)
  {
    forall i, j | 0 <= i < j < |ts| && SellsFrom(ts[i], k) ensures !Before(k, ThresholdOf(ts[j].partial)) {
      Touched(x, ts, a, s, i, k);
    }
  }

  /** Before its creation the offer is nowhere. */
  lemma Unborn(x: Option<Offer>, ts: seq<Thunk>, a: nat, k: Key)
    requires RunAt(x, ts, k) && a <= |ts| && x.None?
    requires forall j :: 0 <= j < a ==> !Creates(ts[j], k)
    ensures Outcome(x, ts[..a], k) == None
    ensures forall j :: 0 <= j < a ==> !Cancels(ts[j], k) && !SellsFrom(ts[j], k)
  {
    for i := 0 to a
      invariant Outcome(x, ts[..i], k) == None
      invariant forall j :: 0 <= j < i ==> !Cancels(ts[j], k) && !SellsFrom(ts[j], k)
    {
      assert FitsIn(x, ts, i, k);
      OutcomeStep(x, ts, i, k);
    }
  }

  /** A key no record creates and the disk does not hold. */
  lemma Nowhere(x: Option<Offer>, ts: seq<Thunk>, k: Key)
    requires RunAt(x, ts, k) && x.None? && forall j :: 0 <= j < |ts| ==> !Creates(ts[j], k)
    ensures BatchAt(x, ts, k) == Outcome(x, ts, k) && !Phantom(ts, k)
  {
    Unborn(x, ts, |ts|, k);
    assert ts[..|ts|] == ts;
    NothingNew(None, ts, 0, k);
    SellNone(ts, k);
  }

  /**
   Under every key, the batch agrees with applying the blocks one by one exactly when it neither revives an offer
   cancelled in the batch that created it, nor keeps an untouched offer through a block that cleared everything.
   */
  lemma BatchExactAt(x: Option<Offer>, ts: seq<Thunk>, k: Key)
    requires RunAt(x, ts, k) && ts != [] && Before(k, MaxKey())
    ensures BatchAt(x, ts, k) == Outcome(x, ts, k) <==> !Phantom(ts, k) && !Stale(x, ts, k)
  {
    if x.Some? {
      OnDisk(x, ts, k);
    } else if a :| 0 <= a < |ts| && Creates(ts[a], k) {
      InBatch(x, ts, a, k);
    } else {
      Nowhere(x, ts, k);
    }
  }
}
