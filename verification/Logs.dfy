/**
 Account logs: what transactions did to an account in a block, how two logs of one account merge, and the normal form
 taken before hashing.
 */
module Logs {
  import opened Trie

  datatype Tx = Tx(sequence: nat, body: nat)

  datatype TxId = TxId(owner: nat, sequence: nat)

  /** `AccountModificationTxList`. */
  datatype TxLog = TxLog(owner: nat, created: seq<Tx>, own: seq<nat>, others: seq<TxId>)

  /** `LogMergeFn`, on entries; a log's metadata (its size, 1) does not change. Owners agree on equal keys. */
  function MergeLogs(x: Entry<TxLog>, y: Entry<TxLog>): Entry<TxLog> {
    x.(value := TxLog(x.value.owner, x.value.created + y.value.created, x.value.own + y.value.own,
                      x.value.others + y.value.others))
  }

  // ---- Logs up to order ----------------------------------------------------------------------------------------------

  datatype Bags = Bags(created: multiset<Tx>, own: multiset<nat>, others: multiset<TxId>)

  function BagsOf(l: TxLog): Bags {
    Bags(multiset(l.created), multiset(l.own), multiset(l.others))
  }

  function AddBags(a: Bags, b: Bags): Bags {
    Bags(a.created + b.created, a.own + b.own, a.others + b.others)
  }

  /** What is known of an account, nothing at all or some bags of entries. */
  function Both(a: Option<Bags>, b: Option<Bags>): Option<Bags> {
    if a.None? then b else if b.None? then a else Some(AddBags(a.value, b.value))
  }

  lemma BothLaws(a: Option<Bags>, b: Option<Bags>, c: Option<Bags>)
    ensures Both(a, b) == Both(b, a)
    ensures Both(a, Both(b, c)) == Both(Both(a, b), c)
    ensures Both(a, None) == a
  {
    if a.Some? && b.Some? {
      assert AddBags(a.value, b.value) == AddBags(b.value, a.value);
      if c.Some? {
        assert AddBags(a.value, AddBags(b.value, c.value)) == AddBags(AddBags(a.value, b.value), c.value);
      }
    }
  }

  lemma MergedBags(x: Entry<TxLog>, y: Entry<TxLog>)
    ensures BagsOf(MergeLogs(x, y).value) == AddBags(BagsOf(x.value), BagsOf(y.value))
  {
  }

  // ---- Sorting ----------------------------------------------------------------------------------------------------------

  /** `s` is sorted by `lt`, as `std::sort` leaves it. */
  ghost predicate SortedBy<T(!new)>(s: seq<T>, lt: (T, T) -> bool) {
    forall i, j :: 0 <= i < j < |s| ==> !lt(s[j], s[i])
  }

  ghost predicate Sorts<T(!new)>(t: seq<T>, s: seq<T>, lt: (T, T) -> bool) {
    SortedBy(t, lt) && multiset(t) == multiset(s)
  }

  /** `lt` orders the elements of `b` totally: only equal elements are unordered. */
  ghost predicate TotalOn<T(!new)>(b: multiset<T>, lt: (T, T) -> bool) {
    forall x, y :: x in b && y in b && !lt(x, y) && !lt(y, x) ==> x == y
  }

  /** A sort of a bag on which the order is total has one outcome. */
  lemma {:induction false} SortUnique<T(!new)>(a: seq<T>, b: seq<T>, lt: (T, T) -> bool)
    requires multiset(a) == multiset(b) && TotalOn(multiset(a), lt)
    requires SortedBy(a, lt) && SortedBy(b, lt)
    ensures a == b
    decreases |a|
  {
    if a == [] {
      NoBag(b);
    } else {
      var u, v := Tails(a, b, lt);
      SortUnique(u, v, lt);
    }
  }

  lemma NoBag<T(!new)>(b: seq<T>)
    requires multiset(b) == multiset{}
    ensures b == []
  {
    assert |b| == |multiset(b)|;
  }

  lemma Tails<T(!new)>(a: seq<T>, b: seq<T>, lt: (T, T) -> bool) returns (u: seq<T>, v: seq<T>)
    requires multiset(a) == multiset(b) && TotalOn(multiset(a), lt) && a != []
    requires SortedBy(a, lt) && SortedBy(b, lt)
    ensures |u| < |a| && multiset(u) == multiset(v) && TotalOn(multiset(u), lt)
    ensures SortedBy(u, lt) && SortedBy(v, lt)
    ensures u == v ==> a == b
  {
    SameFirst(a, b, lt);
    u, v := a[1..], b[1..];
    TailBag(a, u, lt);
    TailBag(b, v, lt);
    SameWhole(a, b);
  }

  lemma SameWhole<T(!new)>(a: seq<T>, b: seq<T>)
    requires a != [] && b != [] && a[0] == b[0]
    ensures a[1..] == b[1..] ==> a == b
  {
    assert a == [a[0]] + a[1..] && b == [b[0]] + b[1..];
  }

  lemma TailBag<T(!new)>(a: seq<T>, u: seq<T>, lt: (T, T) -> bool)
    requires a != [] && u == a[1..] && SortedBy(a, lt) && TotalOn(multiset(a), lt)
    ensures multiset(u) == multiset(a) - multiset{a[0]}
    ensures SortedBy(u, lt) && TotalOn(multiset(u), lt)
  {
    assert a == [a[0]] + u;
    assert forall x :: x in multiset(u) ==> x in multiset(a);
  }

  /** `lt` is a strict weak order, as `std::sort` requires. */
  ghost predicate WeakOrder<T(!new)>(lt: (T, T) -> bool) {
    && (forall x, y :: lt(x, y) ==> !lt(y, x))
    && (forall x, y, z :: !lt(x, y) && !lt(y, z) ==> !lt(x, z))
  }

  /** Stands in for `std::sort`; which sort it is makes no difference to anything proved. */
  method SortList<T(!new)>(s: seq<T>, lt: (T, T) -> bool) returns (t: seq<T>)
    requires WeakOrder(lt)
    ensures Sorts(t, s, lt)
  {
    t := [];
    for i := 0 to |s|
      invariant Sorts(t, s[..i], lt)
    {
      t := PutInOrder(t, s[i], lt);
      assert s[..i + 1] == s[..i] + [s[i]];
    }
    assert s[..|s|] == s;
  }

  method PutInOrder<T(!new)>(t: seq<T>, x: T, lt: (T, T) -> bool) returns (r: seq<T>)
    requires SortedBy(t, lt) && WeakOrder(lt)
    ensures SortedBy(r, lt) && multiset(r) == multiset(t) + multiset{x}
  {
    var j := |t|;
    while j > 0 && lt(x, t[j - 1])
      invariant 0 <= j <= |t|
      invariant forall k :: j <= k < |t| ==> lt(x, t[k])
    {
      j := j - 1;
    }
    r := t[..j] + [x] + t[j..];
    InOrder(t, x, j, lt);
    assert t == t[..j] + t[j..];
  }

  lemma InOrder<T(!new)>(t: seq<T>, x: T, j: nat, lt: (T, T) -> bool)
    requires SortedBy(t, lt) && WeakOrder(lt) && j <= |t|
    requires j > 0 ==> !lt(x, t[j - 1])
    requires forall k :: j <= k < |t| ==> lt(x, t[k])
    ensures SortedBy(t[..j] + [x] + t[j..], lt)
  {
    forall k | 0 <= k < j ensures !lt(x, t[k]) {
      if k < j - 1 {
        assert !lt(t[j - 1], t[k]);
      }
    }
    forall k | j <= k < |t| ensures !lt(t[k], x) {
      assert lt(x, t[k]);
    }
  }

  lemma SameFirst<T(!new)>(a: seq<T>, b: seq<T>, lt: (T, T) -> bool)
    requires multiset(a) == multiset(b) && TotalOn(multiset(a), lt) && a != []
    requires SortedBy(a, lt) && SortedBy(b, lt)
    ensures b != [] && a[0] == b[0]
  {
    assert a[0] in multiset(b);
    assert b[0] in multiset(a);
    var i :| 0 <= i < |b| && b[i] == a[0];
    var j :| 0 <= j < |a| && a[j] == b[0];
  }

  // ---- dedup ------------------------------------------------------------------------------------------------------------

  /** The list in pairs: of each pair the second element goes if it equals the first. */
  function PairDedup<T>(s: seq<T>, eq: (T, T) -> bool): seq<T> {
    if |s| < 2 then s
    else (if eq(s[1], s[0]) then [s[0]] else [s[0], s[1]]) + PairDedup(s[2..], eq)
  }

  ghost predicate Equivalence<T(!new)>(eq: (T, T) -> bool) {
    && (forall x :: eq(x, x))
    && (forall x, y :: eq(x, y) ==> eq(y, x))
    && (forall x, y, z :: eq(x, y) && eq(y, z) ==> eq(x, z))
  }

  ghost predicate NoEqualNeighbours<T>(s: seq<T>, eq: (T, T) -> bool) {
    forall i :: 1 <= i < |s| ==> !eq(s[i], s[i - 1])
  }

  /** Every element of `s` has an equal one in `r`. */
  ghost predicate Represents<T(!new)>(r: seq<T>, s: seq<T>, eq: (T, T) -> bool) {
    forall x :: x in s ==> Represented(r, x, eq)
  }

  ghost predicate Represented<T(!new)>(r: seq<T>, x: T, eq: (T, T) -> bool) {
    exists y :: y in r && eq(y, x)
  }

  /** No pair begins with what the pair before it ended with. */
  ghost predicate PairsPart<T>(s: seq<T>, eq: (T, T) -> bool) {
    forall j :: 2 <= j < |s| && j % 2 == 0 ==> !eq(s[j], s[j - 1])
  }

  /**
   `dedup`: erases in place while walking over the list. The index advances by two past a non-duplicate, so only every
   other pair of neighbours is compared; duplicates are left exactly where the pairs skipped hold some.
   */
  method DedupList<T(!new)>(s: seq<T>, eq: (T, T) -> bool) returns (r: seq<T>)
    ensures r == PairDedup(s, eq)
    ensures Equivalence(eq) ==> (NoEqualNeighbours(r, eq) <==> PairsPart(s, eq))
    ensures Equivalence(eq) ==> Represents(r, s, eq)
  {
    r := s;
    var i := 1;
    while i < |r|
      invariant Walked(s, r, i, eq)
      decreases |r| - i
    {
      if eq(r[i], r[i - 1]) {
        WithoutSecond(s, r, i, eq);
        r := r[..i] + r[i + 1..];
      } else {
        WithSecond(s, r, i, eq);
        i := i + 1;
      }
      i := i + 1;
    }
    AllWalked(s, r, i, eq);
    DedupFacts(s, eq);
  }

  lemma DedupFacts<T(!new)>(s: seq<T>, eq: (T, T) -> bool)
    ensures Equivalence(eq) ==> (NoEqualNeighbours(PairDedup(s, eq), eq) <==> PairsPart(s, eq))
    ensures Equivalence(eq) ==> Represents(PairDedup(s, eq), s, eq)
  {
    if Equivalence(eq) {
      DuplicatesLeft(s, eq);
      ClassesKept(s, eq);
    }
  }

  /** The pairs before index `i` are dealt with. */
  ghost predicate Walked<T(!new)>(s: seq<T>, r: seq<T>, i: nat, eq: (T, T) -> bool) {
    1 <= i <= |r| + 1 && PairDedup(s, eq) == r[..i - 1] + PairDedup(r[i - 1..], eq)
  }

  lemma AllWalked<T(!new)>(s: seq<T>, r: seq<T>, i: nat, eq: (T, T) -> bool)
    requires Walked(s, r, i, eq) && i >= |r|
    ensures r == PairDedup(s, eq)
  {
    assert r[..i - 1] + r[i - 1..] == r;
  }

  lemma WithoutSecond<T(!new)>(s: seq<T>, r: seq<T>, i: nat, eq: (T, T) -> bool)
    requires Walked(s, r, i, eq) && i < |r| && eq(r[i], r[i - 1])
    ensures Walked(s, r[..i] + r[i + 1..], i + 1, eq)
  {
    Erased(r, i);
    var rest := r[i - 1..];
    assert PairDedup(rest, eq) == [rest[0]] + PairDedup(rest[2..], eq);
  }

  lemma Erased<T>(r: seq<T>, i: nat)
    requires 1 <= i < |r|
    ensures var t, rest := r[..i] + r[i + 1..], r[i - 1..]; t[..i] == r[..i - 1] + [rest[0]] && t[i..] == rest[2..]
  {
  }

  lemma WithSecond<T(!new)>(s: seq<T>, r: seq<T>, i: nat, eq: (T, T) -> bool)
    requires Walked(s, r, i, eq) && i < |r| && !eq(r[i], r[i - 1])
    ensures Walked(s, r, i + 2, eq)
  {
    var rest := r[i - 1..];
    assert r[..i + 1] == r[..i - 1] + [rest[0], rest[1]] && r[i + 1..] == rest[2..];
  }

  lemma {:induction false} DuplicatesLeft<T(!new)>(s: seq<T>, eq: (T, T) -> bool)
    requires Equivalence(eq)
    ensures NoEqualNeighbours(PairDedup(s, eq), eq) <==> PairsPart(s, eq)
    ensures s != [] ==> PairDedup(s, eq) != [] && PairDedup(s, eq)[0] == s[0]
  {
    if |s| >= 2 {
      var first, rest := if eq(s[1], s[0]) then [s[0]] else [s[0], s[1]], s[2..];
      DuplicatesLeft(rest, eq);
      NeighboursConcat(first, PairDedup(rest, eq), eq);
      PairsConcat(s, rest, eq);
    }
  }

  lemma NeighboursConcat<T>(a: seq<T>, b: seq<T>, eq: (T, T) -> bool)
    requires a != []
    ensures NoEqualNeighbours(a + b, eq) <==>
            NoEqualNeighbours(a, eq) && NoEqualNeighbours(b, eq) && (b != [] ==> !eq(b[0], a[|a| - 1]))
  {
    var c := a + b;
    if NoEqualNeighbours(c, eq) {
      forall i | 1 <= i < |b| ensures !eq(b[i], b[i - 1]) {
        assert b[i] == c[|a| + i] && b[i - 1] == c[|a| + i - 1];
      }
      forall i | 1 <= i < |a| ensures !eq(a[i], a[i - 1]) {
        assert a[i] == c[i] && a[i - 1] == c[i - 1];
      }
      if b != [] {
        assert c[|a|] == b[0] && c[|a| - 1] == a[|a| - 1];
      }
    }
  }

  lemma PairsConcat<T>(s: seq<T>, rest: seq<T>, eq: (T, T) -> bool)
    requires |s| >= 2 && rest == s[2..]
    ensures PairsPart(s, eq) <==> PairsPart(rest, eq) && (rest != [] ==> !eq(rest[0], s[1]))
  {
    if PairsPart(s, eq) {
      forall j | 2 <= j < |rest| && j % 2 == 0 ensures !eq(rest[j], rest[j - 1]) {
        assert rest[j] == s[j + 2] && rest[j - 1] == s[j + 1];
      }
    }
  }

  lemma {:induction false} ClassesKept<T(!new)>(s: seq<T>, eq: (T, T) -> bool)
    requires Equivalence(eq)
    ensures Represents(PairDedup(s, eq), s, eq)
  {
    if |s| >= 2 {
      var rest := s[2..];
      ClassesKept(rest, eq);
      forall x | x in s ensures Represented(PairDedup(s, eq), x, eq) {
        if x in rest {
          RepresentedLater(s, rest, x, eq);
        } else {
          FirstRepresented(s, x, eq);
        }
      }
    } else {
      forall x | x in s ensures Represented(s, x, eq) {
        assert eq(x, x);
      }
    }
  }

  lemma RepresentedLater<T(!new)>(s: seq<T>, rest: seq<T>, x: T, eq: (T, T) -> bool)
    requires |s| >= 2 && rest == s[2..] && Represented(PairDedup(rest, eq), x, eq)
    ensures Represented(PairDedup(s, eq), x, eq)
  {
    var y :| y in PairDedup(rest, eq) && eq(y, x);
    assert y in PairDedup(s, eq);
  }

  lemma FirstRepresented<T(!new)>(s: seq<T>, x: T, eq: (T, T) -> bool)
    requires |s| >= 2 && (x == s[0] || x == s[1]) && Equivalence(eq)
    ensures Represented(PairDedup(s, eq), x, eq)
  {
    var r := PairDedup(s, eq);
    var y := if eq(s[1], s[0]) then s[0] else x;
    assert eq(s[0], s[0]) && (eq(s[1], s[0]) ==> eq(s[0], s[1])) && eq(x, x);
    assert y in r;
  }

  /** Two equal elements behind a different one both stay: `dedup` does not remove all duplicates. */
  lemma DedupMisses<T(!new)>(a: T, b: T, eq: (T, T) -> bool)
    requires Equivalence(eq) && !eq(b, a)
    ensures !PairsPart([a, b, b], eq) && PairDedup([a, b, b], eq) == [a, b, b]
  {
    var s := [a, b, b];
    assert s[2] == s[1];
    assert s[2..] == [b];
  }

  // ---- Normalisation ----------------------------------------------------------------------------------------------------

  predicate LessNat(a: nat, b: nat) {
    a < b
  }

  predicate LessId(a: TxId, b: TxId) {
    a.owner < b.owner || (a.owner == b.owner && a.sequence < b.sequence)
  }

  predicate LessTx(a: Tx, b: Tx) {
    a.sequence < b.sequence
  }

  predicate SameSequence(a: Tx, b: Tx) {
    a.sequence == b.sequence
  }

  predicate SameNat(a: nat, b: nat) {
    a == b
  }

  predicate SameId(a: TxId, b: TxId) {
    a == b
  }

  /** `r` is a possible outcome of `LogNormalizeFn::apply_to_value` on `l`: any sort, then `dedup`, list by list. */
  ghost predicate Normalizes(r: TxLog, l: TxLog) {
    && r.owner == l.owner
    && (exists t :: Sorts(t, l.created, LessTx) && r.created == PairDedup(t, SameSequence))
    && (exists t :: Sorts(t, l.own, LessNat) && r.own == PairDedup(t, SameNat))
    && (exists t :: Sorts(t, l.others, LessId) && r.others == PairDedup(t, SameId))
  }

  // ---- In plain terms -----------------------------------------------------------------------------------------------------

  /** `r` lists the elements of `t` at the increasing positions `at`. */
  ghost predicate Picks<T>(at: seq<nat>, r: seq<T>, t: seq<T>) {
    && |at| == |r|
    && (forall j :: 0 <= j < |at| ==> at[j] < |t| && r[j] == t[at[j]])
    && (forall i, j :: 0 <= i < j < |at| ==> at[i] < at[j])
  }

  /** Own identifiers ascend; of them in ascending order, an element at an odd position goes if it is the one before it. */
  ghost predicate OwnNormal(r: seq<nat>, s: seq<nat>) {
    && (forall i, j :: 0 <= i < j < |r| ==> r[i] <= r[j])
    && exists t: seq<nat>, at: seq<nat> ::
         && Picks(at, r, t) && multiset(t) == multiset(s)
         && (forall i, j :: 0 <= i < j < |t| ==> t[i] <= t[j])
         && (forall i: nat :: i < |t| ==> (i in at <==> i % 2 == 0 || t[i] != t[i - 1]))
  }

  /** Identifiers of others ascend by owner, then by sequence number; the same goes. */
  ghost predicate OthersNormal(r: seq<TxId>, s: seq<TxId>) {
    && (forall i, j :: 0 <= i < j < |r| ==>
          r[i].owner < r[j].owner || (r[i].owner == r[j].owner && r[i].sequence <= r[j].sequence))
    && exists t: seq<TxId>, at: seq<nat> ::
         && Picks(at, r, t) && multiset(t) == multiset(s)
         && (forall i, j :: 0 <= i < j < |t| ==>
               t[i].owner < t[j].owner || (t[i].owner == t[j].owner && t[i].sequence <= t[j].sequence))
         && (forall i: nat :: i < |t| ==> (i in at <==> i % 2 == 0 || t[i] != t[i - 1]))
  }

  /** New transactions ascend by sequence number; one at an odd position goes if it has that of the one before it. */
  ghost predicate CreatedNormal(r: seq<Tx>, s: seq<Tx>) {
    && (forall i, j :: 0 <= i < j < |r| ==> r[i].sequence <= r[j].sequence)
    && exists t: seq<Tx>, at: seq<nat> ::
         && Picks(at, r, t) && multiset(t) == multiset(s)
         && (forall i, j :: 0 <= i < j < |t| ==> t[i].sequence <= t[j].sequence)
         && (forall i: nat :: i < |t| ==> (i in at <==> i % 2 == 0 || t[i].sequence != t[i - 1].sequence))
  }

  /** What `PairDedup` leaves, by positions. */
  lemma {:induction false} PairDedupThins<T(!new)>(t: seq<T>, eq: (T, T) -> bool) returns (at: seq<nat>)
    ensures Picks(at, PairDedup(t, eq), t) && KeptAt(at, t, eq)
  {
    if |t| < 2 {
      at := if |t| == 0 then [] else [0];
    } else {
      var rest := PairDedupThins(t[2..], eq);
      var first := if eq(t[1], t[0]) then [0] else [0, 1];
      at := first + Shifted(rest);
      PairKept(t, eq, first, rest);
      PairPicks(t, eq, first, rest);
    }
  }

  lemma PairPicks<T(!new)>(t: seq<T>, eq: (T, T) -> bool, first: seq<nat>, rest: seq<nat>)
    requires |t| >= 2 && Picks(rest, PairDedup(t[2..], eq), t[2..])
    requires first == if eq(t[1], t[0]) then [0] else [0, 1]
    ensures Picks(first + Shifted(rest), PairDedup(t, eq), t)
  {
    var head := if eq(t[1], t[0]) then [t[0]] else [t[0], t[1]];
    TailPicks(rest, PairDedup(t[2..], eq), t);
    PicksConcat(first, head, Shifted(rest), PairDedup(t[2..], eq), t);
  }

  lemma TailPicks<T>(at: seq<nat>, r: seq<T>, t: seq<T>)
    requires |t| >= 2 && Picks(at, r, t[2..])
    ensures Picks(Shifted(at), r, t)
  {
    forall j | 0 <= j < |at| ensures Shifted(at)[j] < |t| && r[j] == t[Shifted(at)[j]] {
      assert t[2..][at[j]] == t[at[j] + 2];
    }
  }

  lemma PicksConcat<T>(a: seq<nat>, r: seq<T>, b: seq<nat>, u: seq<T>, t: seq<T>)
    requires Picks(a, r, t) && Picks(b, u, t)
    requires forall i, j :: 0 <= i < |a| && 0 <= j < |b| ==> a[i] < b[j]
    ensures Picks(a + b, r + u, t)
  {
  }

  ghost predicate KeptAt<T(!new)>(at: seq<nat>, t: seq<T>, eq: (T, T) -> bool) {
    forall i: nat :: i < |t| ==> (i in at <==> !Repeats(t, i, eq))
  }

  /** The element at `i` ends a pair of equals. */
  ghost predicate Repeats<T(!new)>(t: seq<T>, i: nat, eq: (T, T) -> bool)
    requires i < |t|
  {
    i % 2 == 1 && eq(t[i], t[i - 1])
  }

  lemma PairKept<T(!new)>(t: seq<T>, eq: (T, T) -> bool, first: seq<nat>, rest: seq<nat>)
    requires |t| >= 2 && KeptAt(rest, t[2..], eq)
    requires first == if eq(t[1], t[0]) then [0] else [0, 1]
    ensures KeptAt(first + Shifted(rest), t, eq)
  {
    var at := first + Shifted(rest);
    forall i: nat | i < |t| ensures i in at <==> !Repeats(t, i, eq) {
      ShiftedMembers(rest, i);
      if i >= 2 {
        assert t[2..][i - 2] == t[i];
        assert i % 2 == 1 ==> t[2..][i - 3] == t[i - 1];
      }
    }
  }

  function Shifted(at: seq<nat>): (r: seq<nat>)
    ensures |r| == |at| && forall i :: 0 <= i < |at| ==> r[i] == at[i] + 2
  {
    seq(|at|, i requires 0 <= i < |at| => at[i] + 2)
  }

  lemma ShiftedMembers(at: seq<nat>, i: nat)
    ensures i in Shifted(at) <==> i >= 2 && i - 2 in at
  {
    if i in Shifted(at) {
      var j :| 0 <= j < |at| && Shifted(at)[j] == i;
      assert at[j] == i - 2;
    }
    if i >= 2 && i - 2 in at {
      var j :| 0 <= j < |at| && at[j] == i - 2;
      assert Shifted(at)[j] == i;
    }
  }

  lemma OwnIs(r: seq<nat>, t: seq<nat>, s: seq<nat>)
    requires Sorts(t, s, LessNat) && r == PairDedup(t, SameNat)
    ensures OwnNormal(r, s)
  {
    var at := PairDedupThins(t, SameNat);
    assert Picks(at, r, t);
  }

  lemma OthersIs(r: seq<TxId>, t: seq<TxId>, s: seq<TxId>)
    requires Sorts(t, s, LessId) && r == PairDedup(t, SameId)
    ensures OthersNormal(r, s)
  {
    var at := PairDedupThins(t, SameId);
    assert Picks(at, r, t);
  }

  lemma CreatedIs(r: seq<Tx>, t: seq<Tx>, s: seq<Tx>)
    requires Sorts(t, s, LessTx) && r == PairDedup(t, SameSequence)
    ensures CreatedNormal(r, s)
  {
    var at := PairDedupThins(t, SameSequence);
    assert Picks(at, r, t);
    forall i, j | 0 <= i < j < |t| ensures t[i].sequence <= t[j].sequence {
      assert !LessTx(t[j], t[i]);
    }
    forall i, j | 0 <= i < j < |r| ensures r[i].sequence <= r[j].sequence {
      assert at[i] < at[j];
    }
    forall i: nat | i < |t| ensures i in at <==> i % 2 == 0 || t[i].sequence != t[i - 1].sequence {
      assert i in at <==> !Repeats(t, i, SameSequence);
    }
  }

  /** A normal form, with no comparator named. */
  lemma NormalInPlainTerms(r: TxLog, l: TxLog)
    requires Normalizes(r, l)
    ensures OwnNormal(r.own, l.own) && OthersNormal(r.others, l.others) && CreatedNormal(r.created, l.created)
  {
    var own :| Sorts(own, l.own, LessNat) && r.own == PairDedup(own, SameNat);
    var others :| Sorts(others, l.others, LessId) && r.others == PairDedup(others, SameId);
    var created :| Sorts(created, l.created, LessTx) && r.created == PairDedup(created, SameSequence);
    OwnIs(r.own, own, l.own);
    OthersIs(r.others, others, l.others);
    CreatedIs(r.created, created, l.created);
  }

  /** `LogNormalizeFn::apply_to_value`. */
  method NormalizeLog(l: TxLog) returns (r: TxLog)
    ensures Normalizes(r, l)
    ensures r.owner == l.owner
    ensures OwnNormal(r.own, l.own) && OthersNormal(r.others, l.others) && CreatedNormal(r.created, l.created)
  {
    var own := SortList(l.own, LessNat);
    var others := SortList(l.others, LessId);
    var created := SortList(l.created, LessTx);
    var own', others', created';
    own' := DedupList(own, SameNat);
    others' := DedupList(others, SameId);
    created' := DedupList(created, SameSequence);
    r := TxLog(l.owner, created', own', others');
    NormalInPlainTerms(r, l);
  }

  /** No two different new transactions of the account share a sequence number. */
  ghost predicate SequencesDistinct(b: multiset<Tx>) {
    forall x, y :: x in b && y in b && x.sequence == y.sequence ==> x == y
  }

  /** Logs that are equal up to order normalise alike. */
  lemma NormalFormUnique(r: TxLog, l: TxLog, r': TxLog, l': TxLog)
    requires l.owner == l'.owner && BagsOf(l) == BagsOf(l') && SequencesDistinct(multiset(l.created))
    requires Normalizes(r, l) && Normalizes(r', l')
    ensures r == r'
  {
    var t :| Sorts(t, l.created, LessTx) && r.created == PairDedup(t, SameSequence);
    var t' :| Sorts(t', l'.created, LessTx) && r'.created == PairDedup(t', SameSequence);
    SortUnique(t, t', LessTx);
    OwnUnique(r, l, r', l');
    OthersUnique(r, l, r', l');
  }

  lemma OwnUnique(r: TxLog, l: TxLog, r': TxLog, l': TxLog)
    requires BagsOf(l) == BagsOf(l') && Normalizes(r, l) && Normalizes(r', l')
    ensures r.own == r'.own
  {
    var t :| Sorts(t, l.own, LessNat) && r.own == PairDedup(t, SameNat);
    var t' :| Sorts(t', l'.own, LessNat) && r'.own == PairDedup(t', SameNat);
    SortUnique(t, t', LessNat);
  }

  lemma OthersUnique(r: TxLog, l: TxLog, r': TxLog, l': TxLog)
    requires BagsOf(l) == BagsOf(l') && Normalizes(r, l) && Normalizes(r', l')
    ensures r.others == r'.others
  {
    var t :| Sorts(t, l.others, LessId) && r.others == PairDedup(t, SameId);
    var t' :| Sorts(t', l'.others, LessId) && r'.others == PairDedup(t', SameId);
    SortUnique(t, t', LessId);
  }
}
