/**
 The invertible Bloom lookup table: insertion, difference, and decoding by peeling pure cells.
 */
module Iblt {
  import opened Products
  import opened Cells
  import opened Peeling

  /** The table holds exactly the signed keys `s`. */
  ghost predicate Encodes(h: Scheme, cells: seq<Cell>, s: seq<Signed>) {
    && SchemeOk(h) && AllOk(h, s)
    && |cells| == h.regions * h.perRegion
    && forall c :: 0 <= c < |cells| ==> cells[c] == Content(h, s, c)
  }

  /** `is_pure`: the sign of the lone key a cell seems to hold, 0 if it does not seem to hold just one. */
  function IsPure(h: Scheme, cell: Cell): int {
    if (cell.count == 1 || cell.count == -1) && |cell.raw| >= h.keyWords
       && Checksum(h, cell.raw[..h.keyWords]) == cell.raw[h.keyWords..] then cell.count
    else 0
  }

  /** A cell with one key in it is pure. */
  lemma OneKeyIsPure(h: Scheme, x: Signed)
    requires SignedOk(h, x)
    ensures IsPure(h, Share(h, x)) == x.sign && Share(h, x).raw[..h.keyWords] == x.key
  {
    var raw := Share(h, x).raw;
    assert raw[..h.keyWords] == x.key && raw[h.keyWords..] == Checksum(h, x.key);
  }

  /**
   The checksum tells no lies: whatever part of `s` is left, a cell that counts one and whose checksum words are those of
   its key words is the cell of one key only.
   */
  ghost predicate Sound(h: Scheme, s: seq<Signed>)
    requires SchemeOk(h) && AllOk(h, s)
  {
    forall t, c {:trigger HoldsOne(h, t, c)} :: PartOf(h, t, s) && LooksSingle(h, Content(h, t, c)) ==> HoldsOne(h, t, c)
  }

  ghost predicate LooksSingle(h: Scheme, cell: Cell)
    requires |cell.raw| == TotalWords(h)
  {
    (cell.count == 1 || cell.count == -1) && cell.raw[h.keyWords..] == Checksum(h, cell.raw[..h.keyWords])
  }

  ghost predicate PartOf(h: Scheme, t: seq<Signed>, s: seq<Signed>) {
    AllOk(h, t) && multiset(t) <= multiset(s)
  }

  ghost predicate HoldsOne(h: Scheme, t: seq<Signed>, c: nat)
    requires SchemeOk(h) && AllOk(h, t)
  {
    exists i: nat :: Alone(h, t, i, c)
  }

  // ---- Where a key's cells are ----------------------------------------------------------------------------------------------

  lemma RegionUnique(r: nat, q: nat, per: nat, i: nat)
    requires r * per <= i < (r + 1) * per && q * per <= i < (q + 1) * per
    ensures r == q
  {
    NextMultiple(r, q, per);
    NextMultiple(q, r, per);
  }

  lemma IndexBound(h: Scheme, key: Words, r: nat)
    requires SchemeOk(h) && r < h.regions
    ensures Index(h, key, r) < h.regions * h.perRegion
  {
    assert (r + 1) * h.perRegion <= h.regions * h.perRegion;
  }

  lemma IndexDistinct(h: Scheme, key: Words, r: nat, other: Words, q: nat)
    requires SchemeOk(h) && r != q
    ensures Index(h, key, r) != Index(h, other, q)
  {
    if Index(h, key, r) == Index(h, other, q) {
      RegionUnique(r, q, h.perRegion, Index(h, key, r));
    }
  }

  /** Cell `c` is the cell of `key` in one of the first `n` regions, `skip` left out. */
  ghost predicate HitIn(h: Scheme, key: Words, c: nat, n: nat, skip: nat)
    requires SchemeOk(h)
  {
    exists r: nat :: r < n && r != skip && Index(h, key, r) == c
  }

  lemma HitSplit(h: Scheme, key: Words, c: nat, skip: nat)
    requires SchemeOk(h) && skip < h.regions
    ensures Hits(h, key, c) <==> HitIn(h, key, c, h.regions, skip) || c == Index(h, key, skip)
    ensures !(HitIn(h, key, c, h.regions, skip) && c == Index(h, key, skip))
  {
    if HitIn(h, key, c, h.regions, skip) {
      var r: nat :| r < h.regions && r != skip && Index(h, key, r) == c;
      IndexDistinct(h, key, r, key, skip);
    }
  }

  // ---- One peeling step, on values ---------------------------------------------------------------------------------------------

  /** The cells after the pure cell `idx` of region `region` has been peeled. */
  ghost predicate Peeled(h: Scheme, now: seq<Cell>, was: seq<Cell>, idx: nat, region: nat)
    requires SchemeOk(h) && idx < |was| && |was[idx].raw| == TotalWords(h)
    requires forall c :: 0 <= c < |was| ==> |was[c].raw| == TotalWords(h)
  {
    var key := was[idx].raw[..h.keyWords];
    && |now| == |was|
    && forall c :: 0 <= c < |was| ==>
         now[c] == if c == idx then Zero(TotalWords(h))
                   else if HitIn(h, key, c, h.regions, region) then Minus(was[c], was[idx])
                   else was[c]
  }

  lemma SelfCancels(a: Cell, b: Cell)
    requires |a.raw| == |b.raw| && b == Plus(a, b)
    ensures a == Zero(|a.raw|)
  {
    CellLaws(a, b, b);
    CellLaws(Zero(|a.raw|), b, b);
    assert Minus(Plus(a, b), b) == Minus(b, b) == Minus(Plus(Zero(|a.raw|), b), b);
  }

  /** Peeling a cell that holds one key takes exactly that key out of the table. */
  lemma PeelRemoves(h: Scheme, now: seq<Cell>, was: seq<Cell>, s: seq<Signed>, i: nat, idx: nat, region: nat)
    requires Encodes(h, was, s) && i < |s| && idx < |was| && region < h.regions
    requires Index(h, s[i].key, region) == idx && was[idx] == Share(h, s[i])
    requires Peeled(h, now, was, idx, region)
    ensures Encodes(h, now, Without(s, i))
  {
    var x, t := s[i], Without(s, i);
    OneKeyIsPure(h, x);
    ContentWithout(h, s, i, idx);
    forall c | 0 <= c < |now| ensures now[c] == Content(h, t, c) {
      ContentWithout(h, s, i, c);
      HitSplit(h, x.key, c, region);
      CellLaws(Content(h, t, c), Share(h, x), Share(h, x));
      if c == idx {
        assert Hits(h, x.key, c);
        SelfCancels(Content(h, t, c), Share(h, x));
      }
    }
  }

  /** Peeling one cell leaves the other cells of its region alone. */
  lemma PeelSparesRegion(h: Scheme, now: seq<Cell>, was: seq<Cell>, i: nat, j: nat, region: nat)
    requires SchemeOk(h) && i < |was| && j < |was| && i != j
    requires forall c :: 0 <= c < |was| ==> |was[c].raw| == TotalWords(h)
    requires region * h.perRegion <= j < (region + 1) * h.perRegion
    requires Peeled(h, now, was, i, region)
    ensures now[j] == was[j]
  {
    var key := was[i].raw[..h.keyWords];
    if HitIn(h, key, j, h.regions, region) {
      var r: nat :| r < h.regions && r != region && Index(h, key, r) == j;
      RegionUnique(r, region, h.perRegion, j);
    }
  }

  /** Two cells of one region can be peeled in either order: the workers of a region do not disturb each other. */
  lemma PeelsCommute(
    h: Scheme, was: seq<Cell>, i: nat, j: nat, region: nat,
    afterI: seq<Cell>, afterIJ: seq<Cell>, afterJ: seq<Cell>, afterJI: seq<Cell>)
    requires SchemeOk(h) && i < |was| && j < |was| && i != j
    requires forall c :: 0 <= c < |was| ==> |was[c].raw| == TotalWords(h)
    requires region * h.perRegion <= i < (region + 1) * h.perRegion
    requires region * h.perRegion <= j < (region + 1) * h.perRegion
    requires Peeled(h, afterI, was, i, region) && WellSized(h, afterI) && Peeled(h, afterIJ, afterI, j, region)
    requires Peeled(h, afterJ, was, j, region) && WellSized(h, afterJ) && Peeled(h, afterJI, afterJ, i, region)
    ensures afterIJ == afterJI
  {
    PeelSparesRegion(h, afterI, was, i, j, region);
    PeelSparesRegion(h, afterJ, was, j, i, region);
    forall c | 0 <= c < |was| ensures afterIJ[c] == afterJI[c] {
      CellLaws(was[c], was[i], was[j]);
      if c == i {
        PeelSparesRegion(h, afterIJ, afterI, j, i, region);
      } else if c == j {
        PeelSparesRegion(h, afterJI, afterJ, i, j, region);
      }
    }
  }

  ghost predicate WellSized(h: Scheme, cells: seq<Cell>) {
    forall c :: 0 <= c < |cells| ==> |cells[c].raw| == TotalWords(h)
  }

  // ---- Lists of decoded keys -----------------------------------------------------------------------------------------------------

  ghost function Signs(keys: seq<Words>, sign: int): seq<Signed> {
    if keys == [] then [] else Signs(keys[..|keys| - 1], sign) + [Signed(keys[|keys| - 1], sign)]
  }

  lemma SignsAdd(keys: seq<Words>, key: Words, sign: int)
    ensures Signs(keys + [key], sign) == Signs(keys, sign) + [Signed(key, sign)]
  {
    assert (keys + [key])[..|keys|] == keys;
  }

  /** `s` is what was decoded and what is left, each signed key as often as before. */
  ghost predicate Accounts(s: seq<Signed>, left: seq<Signed>, pos: seq<Words>, neg: seq<Words>) {
    multiset(s) == multiset(left) + multiset(Signs(pos, 1)) + multiset(Signs(neg, -1))
  }

  lemma AccountsMore(s: seq<Signed>, left: seq<Signed>, pos: seq<Words>, neg: seq<Words>, i: nat)
    requires Accounts(s, left, pos, neg) && i < |left|
    ensures left[i].sign == 1 ==> Accounts(s, Without(left, i), pos + [left[i].key], neg)
    ensures left[i].sign == -1 ==> Accounts(s, Without(left, i), pos, neg + [left[i].key])
  {
    var x := left[i];
    WithoutBag(left, i);
    SignsAdd(pos, x.key, 1);
    SignsAdd(neg, x.key, -1);
    var all, less := multiset(s), multiset(Without(left, i));
    BagMoves(all, less, multiset(Signs(pos, 1)), multiset(Signs(neg, -1)), x);
    assert x == Signed(x.key, x.sign);
  }

  lemma BagMoves<T>(all: multiset<T>, less: multiset<T>, a: multiset<T>, b: multiset<T>, x: T)
    requires all == less + multiset{x} + a + b
    ensures all == less + (a + multiset{x}) + b && all == less + a + (b + multiset{x})
  {
  }

  /** What decoding `s` has come to: the output and what is left make up `s`, and its stuck part `t` is left. */
  ghost predicate Decoded(s: seq<Signed>, t: seq<Signed>, left: seq<Signed>, pos: seq<Words>, neg: seq<Words>) {
    Accounts(s, left, pos, neg) && multiset(t) <= multiset(left)
  }

  /** Which key a pure cell holds: one that is in no stuck part. */
  lemma PureHoldsOne(
    h: Scheme, cells: seq<Cell>, s: seq<Signed>, t: seq<Signed>, left: seq<Signed>, pos: seq<Words>, neg: seq<Words>, idx: nat)
    returns (i: nat)
    requires SchemeOk(h) && AllOk(h, s) && Sound(h, s) && Stuck(h, t)
    requires Encodes(h, cells, left) && Decoded(s, t, left, pos, neg) && idx < |cells| && IsPure(h, cells[idx]) != 0
    ensures i < |left| && Hits(h, left[i].key, idx) && cells[idx] == Share(h, left[i])
    ensures multiset(t) <= multiset(Without(left, i))
  {
    assert PartOf(h, left, s);
    assert HoldsOne(h, left, idx);
    i :| Alone(h, left, i, idx);
    AloneContent(h, left, i, idx);
    StuckSpares(h, left, i, idx, t);
  }

  lemma HitBound(h: Scheme, key: Words, c: nat)
    requires SchemeOk(h) && Hits(h, key, c)
    ensures c < h.regions * h.perRegion
  {
    var r: nat :| r < h.regions && Index(h, key, r) == c;
    IndexBound(h, key, r);
  }

  /** With no pure cell left, what is left is the core of what there was. */
  lemma CoreIsLeft(h: Scheme, cells: seq<Cell>, s: seq<Signed>, left: seq<Signed>, pos: seq<Words>, neg: seq<Words>)
    requires SchemeOk(h) && AllOk(h, s)
    requires Encodes(h, cells, left) && Decoded(s, Core(h, s), left, pos, neg) && NonePure(h, cells, |cells|)
    ensures multiset(left) == multiset(Core(h, s)) && (left == [] <==> Core(h, s) == [])
  {
    forall i: nat, c: nat | i < |left| ensures !Alone(h, left, i, c) {
      if Alone(h, left, i, c) {
        AloneContent(h, left, i, c);
        OneKeyIsPure(h, left[i]);
        HitBound(h, left[i].key, c);
      }
    }
    CoreLargest(h, s, left);
    assert |left| == |multiset(left)| && |Core(h, s)| == |multiset(Core(h, s))|;
  }

  /** In the cells looked at for the result, counts and checksum words are zero, the keys `t` being in the table. */
  ghost predicate LooksDone(h: Scheme, t: seq<Signed>, starts: seq<nat>)
    requires SchemeOk(h) && AllOk(h, t)
  {
    forall i :: 0 <= i < |starts| ==>
      var cell := Content(h, t, starts[i]);
      cell.count == 0 && cell.raw[h.keyWords..] == Zeros(h.checkWords)
  }

  lemma DoneIsLooksDone(h: Scheme, cells: seq<Cell>, s: seq<Signed>, left: seq<Signed>, starts: seq<nat>)
    requires SchemeOk(h) && AllOk(h, s) && Encodes(h, cells, left) && multiset(left) == multiset(Core(h, s))
    requires forall i :: 0 <= i < |starts| ==> starts[i] < |cells|
    ensures AllOk(h, Core(h, s))
    ensures SeemsDone(h, cells, starts) <==> LooksDone(h, Core(h, s), starts)
  {
    CoreStuck(h, s);
    AllOkBag(h, s, Core(h, s));
    forall i | 0 <= i < |starts| ensures cells[starts[i]] == Content(h, Core(h, s), starts[i]) {
      ContentOfBag(h, left, Core(h, s), starts[i]);
    }
  }

  /** `is_empty`: the key words are not looked at. */
  predicate IsEmpty(h: Scheme, cell: Cell) {
    cell.count == 0 && |cell.raw| >= h.keyWords && forall i :: h.keyWords <= i < |cell.raw| ==> cell.raw[i] == 0
  }

  ghost predicate SeemsDone(h: Scheme, cells: seq<Cell>, starts: seq<nat>) {
    forall i :: 0 <= i < |starts| ==> starts[i] < |cells| && IsEmpty(h, cells[starts[i]])
  }

  /**
   Two keys with the same indices in every region cannot be decoded; if none of their cells is looked at, success is
   reported. There are such keys for every hash function, since there are far more keys than choices of indices.
   */
  lemma UndecodedUnnoticed(h: Scheme, x: Signed, y: Signed, s: seq<Signed>, starts: seq<nat>)
    requires SchemeOk(h) && SignedOk(h, x) && SignedOk(h, y) && x.key != y.key && s == [x, y]
    requires forall r: nat :: r < h.regions ==> Index(h, x.key, r) == Index(h, y.key, r)
    requires forall i :: 0 <= i < |starts| ==> !Hits(h, x.key, starts[i])
    ensures Core(h, s) == s && LooksDone(h, s, starts)
  {
    forall c: nat ensures Hits(h, x.key, c) <==> Hits(h, y.key, c) {
      SameIndices(h, x.key, y.key, c);
    }
    forall i: nat, c: nat | i < 2 ensures !Alone(h, s, i, c) {
      assert Hits(h, s[1 - i].key, c) <==> Hits(h, s[i].key, c);
    }
    forall i | 0 <= i < |starts| ensures IsEmpty(h, Content(h, s, starts[i])) {
      NothingThere(h, s, starts[i]);
    }
  }

  lemma SameIndices(h: Scheme, a: Words, b: Words, c: nat)
    requires SchemeOk(h) && forall r: nat :: r < h.regions ==> Index(h, a, r) == Index(h, b, r)
    ensures Hits(h, a, c) <==> Hits(h, b, c)
  {
    if Hits(h, a, c) {
      var r: nat :| r < h.regions && Index(h, a, r) == c;
      assert Index(h, b, r) == c;
    }
    if Hits(h, b, c) {
      var r: nat :| r < h.regions && Index(h, b, r) == c;
      assert Index(h, a, r) == c;
    }
  }

  // ---- The table ------------------------------------------------------------------------------------------------------------------

  class Table {
    const h: Scheme
    const cells: array<Cell>

    ghost predicate Sized()
      reads this
    {
      SchemeOk(h) && cells.Length == h.regions * h.perRegion
    }

    /** The cells of a new table are zero, and so hold no key. */
    constructor (scheme: Scheme)
      requires SchemeOk(scheme)
      ensures h == scheme && Sized() && fresh(cells) && Encodes(h, cells[..], [])
    {
      h := scheme;
      cells := new Cell[scheme.regions * scheme.perRegion](_ => Zero(TotalWords(scheme)));
    }

    /** `insert_key`. */
    method InsertKey(key: Words, ghost s: seq<Signed>)
      requires Sized() && Encodes(h, cells[..], s) && |key| == h.keyWords
      modifies cells
      ensures Encodes(h, cells[..], s + [Signed(key, 1)])
    {
      ghost var was := cells[..];
      var share := Share(h, Signed(key, 1));
      for r: nat := 0 to h.regions
        invariant forall c :: 0 <= c < cells.Length ==>
          cells[c] == if HitIn(h, key, c, r, h.regions) then Plus(was[c], share) else was[c]
      {
        var at := Index(h, key, r);
        IndexBound(h, key, r);
        if HitIn(h, key, at, r, h.regions) {
          var q: nat :| q < r && q != h.regions && Index(h, key, q) == at;
          IndexDistinct(h, key, q, key, r);
        }
        cells[at] := Plus(cells[at], share);
      }
      Inserted(h, cells[..], was, s, key);
    }

    /**
     `compute_difference`, of this table and another replica's cells as they came over the wire; a wrong number of
     cells is refused.
     */
    method ComputeDifference(wire: seq<Cell>, difference: Table, ghost mine: seq<Words>, ghost theirs: seq<Words>) returns (ok: bool)
      requires Sized() && difference.Sized() && difference.h == h && difference.cells != cells
      requires KeysOk(h, mine) && KeysOk(h, theirs)
      requires Encodes(h, cells[..], Signs(mine, 1))
      requires |wire| == cells.Length ==> Encodes(h, wire, Signs(theirs, 1))
      modifies difference.cells
      ensures ok <==> |wire| == cells.Length
      ensures ok ==> Encodes(h, difference.cells[..], Difference(mine, theirs))
      ensures !ok ==> difference.cells[..] == old(difference.cells[..])
    {
      if |wire| != cells.Length {
        return false;
      }
      ok := true;
      for c := 0 to cells.Length
        invariant cells[..] == old(cells[..])
        invariant forall d :: 0 <= d < c ==> difference.cells[d] == Minus(cells[d], wire[d])
      {
        difference.cells[c] := Minus(cells[c], wire[c]);
      }
      DifferenceOk(h, mine, theirs);
      forall c | 0 <= c < cells.Length ensures difference.cells[c] == Content(h, Difference(mine, theirs), c) {
        DifferenceContent(h, mine, theirs, c);
      }
    }

    /** Peels the pure cell `idx`: its share leaves the key's other cells, and the cell is cleared. */
    method Peel(idx: nat, region: nat)
      requires Sized() && idx < cells.Length && region < h.regions && WellSized(h, cells[..])
      requires OfRegion(h, idx, region)
      modifies cells
      ensures Peeled(h, cells[..], old(cells[..]), idx, region)
    {
      ghost var was := cells[..];
      var key := cells[idx].raw[..h.keyWords];
      for r: nat := 0 to h.regions
        invariant forall c :: 0 <= c < cells.Length ==>
          cells[c] == if HitIn(h, key, c, r, region) then Minus(was[c], was[idx]) else was[c]
        invariant cells[idx] == was[idx]
      {
        if r != region {
          var at := Index(h, key, r);
          IndexBound(h, key, r);
          if at == idx {
            RegionBounds(h, idx, region);
            RegionUnique(r, region, h.perRegion, idx);
          }
          if HitIn(h, key, at, r, region) {
            var q: nat :| q < r && q != region && Index(h, key, q) == at;
            IndexDistinct(h, key, q, key, r);
          }
          cells[at] := Minus(cells[at], cells[idx]);
        }
      }
      cells[idx] := Zero(TotalWords(h));
    }

    /**
     The peeling loop of `decode`, regions in order and cells of a region in order (by `PeelsCommute` the order inside
     a region does not matter). It ends; what was decoded and what is left account for the table's keys exactly,
     signs included; no pure cell is left; and what is left is the core of the table's keys, the largest part of them in
     which no key has a cell of its own. The scan for the result returns from each of its sub-ranges of cells after the
     first cell, so it looks at the cells `starts` only: success is reported exactly when the core leaves these cells
     looking empty, which is always so when there is no core.
     */
    method Decode(starts: seq<nat>, ghost s: seq<Signed>)
      returns (done: bool, pos: seq<Words>, neg: seq<Words>, ghost left: seq<Signed>)
      requires Sized() && Encodes(h, cells[..], s) && Sound(h, s)
      requires forall i :: 0 <= i < |starts| ==> starts[i] < cells.Length
      modifies cells
      ensures Encodes(h, cells[..], left) && Accounts(s, left, pos, neg)
      ensures forall c :: 0 <= c < cells.Length ==> IsPure(h, cells[c]) == 0
      ensures multiset(left) == multiset(Core(h, s)) && (left == [] <==> Core(h, s) == [])
      ensures AllOk(h, Core(h, s)) && (done <==> LooksDone(h, Core(h, s), starts))
      ensures left == [] ==> done
    {
      ghost var t := Core(h, s);
      CoreStuck(h, s);
      pos, neg, left := DecodeRounds(s, t);
      CoreIsLeft(h, cells[..], s, left, pos, neg);
      DoneIsLooksDone(h, cells[..], s, left, starts);
      done := LooksEmpty(starts);
    }

    /** Rounds, until one changes nothing. */
    method DecodeRounds(ghost s: seq<Signed>, ghost t: seq<Signed>)
      returns (pos: seq<Words>, neg: seq<Words>, ghost left: seq<Signed>)
      requires Sized() && Encodes(h, cells[..], s) && Sound(h, s) && Stuck(h, t) && multiset(t) <= multiset(s)
      modifies cells
      ensures Encodes(h, cells[..], left) && Decoded(s, t, left, pos, neg)
      ensures NonePure(h, cells[..], cells.Length)
    {
      pos, neg, left := [], [], s;
      var changed := true;
      while changed
        invariant Encodes(h, cells[..], left) && Decoded(s, t, left, pos, neg)
        invariant !changed ==> NonePure(h, cells[..], cells.Length)
        decreases |left|, if changed then 1 else 0
      {
        changed, pos, neg, left := DecodeRound(s, t, left, pos, neg);
      }
    }

    /** The scan for the result. */
    method LooksEmpty(starts: seq<nat>) returns (done: bool)
      requires forall i :: 0 <= i < |starts| ==> starts[i] < cells.Length
      ensures done <==> SeemsDone(h, cells[..], starts)
    {
      done := true;
      for i := 0 to |starts|
        invariant done <==> forall j :: 0 <= j < i ==> IsEmpty(h, cells[starts[j]])
      {
        done := done && IsEmpty(h, cells[starts[i]]);
      }
    }

    /** One round over all regions. */
    method DecodeRound(ghost s: seq<Signed>, ghost t: seq<Signed>, ghost left: seq<Signed>, pos: seq<Words>, neg: seq<Words>)
      returns (changed: bool, pos': seq<Words>, neg': seq<Words>, ghost left': seq<Signed>)
      requires Sized() && AllOk(h, s) && Sound(h, s) && Stuck(h, t)
      requires Encodes(h, cells[..], left) && Decoded(s, t, left, pos, neg)
      modifies cells
      ensures Encodes(h, cells[..], left') && Decoded(s, t, left', pos', neg')
      ensures |left'| <= |left| && (changed ==> |left'| < |left|)
      ensures !changed ==> NonePure(h, cells[..], cells.Length)
    {
      changed, pos', neg', left' := false, pos, neg, left;
      for region: nat := 0 to h.regions
        invariant Encodes(h, cells[..], left') && Decoded(s, t, left', pos', neg')
        invariant |left'| <= |left| && (changed ==> |left'| < |left|)
        invariant !changed ==> NonePure(h, cells[..], Base(h, region))
      {
        var some;
        some, pos', neg', left' := DecodeRegion(region, s, t, left', pos', neg');
        changed := changed || some;
      }
      BaseIs(h, h.regions);
    }

    /** One region of one round. */
    method DecodeRegion(region: nat, ghost s: seq<Signed>, ghost t: seq<Signed>, ghost left: seq<Signed>, pos: seq<Words>, neg: seq<Words>)
      returns (changed: bool, pos': seq<Words>, neg': seq<Words>, ghost left': seq<Signed>)
      requires Sized() && region < h.regions && AllOk(h, s) && Sound(h, s) && Stuck(h, t)
      requires Encodes(h, cells[..], left) && Decoded(s, t, left, pos, neg)
      modifies cells
      ensures Encodes(h, cells[..], left') && Decoded(s, t, left', pos', neg')
      ensures |left'| <= |left| && (changed ==> |left'| < |left|)
      ensures !changed && NonePure(h, old(cells[..]), Base(h, region)) ==> NonePure(h, cells[..], Base(h, region + 1))
    {
      RegionRun(h, region);
      BaseIs(h, region);
      changed, pos', neg', left' := DecodeCells(region, region * h.perRegion, h.perRegion, s, t, left, pos, neg);
    }

    method DecodeCells(region: nat, base: nat, n: nat, ghost s: seq<Signed>, ghost t: seq<Signed>, ghost left: seq<Signed>, pos: seq<Words>, neg: seq<Words>)
      returns (changed: bool, pos': seq<Words>, neg': seq<Words>, ghost left': seq<Signed>)
      requires Sized() && region < h.regions && AllOk(h, s) && Sound(h, s) && Stuck(h, t)
      requires base == Base(h, region) && n == h.perRegion && base + n <= cells.Length
      requires Encodes(h, cells[..], left) && Decoded(s, t, left, pos, neg)
      modifies cells
      ensures Encodes(h, cells[..], left') && Decoded(s, t, left', pos', neg')
      ensures |left'| <= |left| && (changed ==> |left'| < |left|)
      ensures !changed && NonePure(h, old(cells[..]), base) ==> NonePure(h, cells[..], base + n)
    {
      ghost var was := cells[..];
      changed, pos', neg', left' := false, pos, neg, left;
      for idx := base to base + n
        invariant Encodes(h, cells[..], left') && Decoded(s, t, left', pos', neg')
        invariant |left'| <= |left| && (changed ==> |left'| < |left|)
        invariant !changed && NonePure(h, was, base) ==> NonePure(h, cells[..], idx)
      {
        var pure;
        pure, pos', neg', left' := TryCell(idx, region, s, t, left', pos', neg');
        changed := changed || pure;
      }
    }

    /** One cell of one region: peeled if pure. */
    method TryCell(idx: nat, region: nat, ghost s: seq<Signed>, ghost t: seq<Signed>, ghost left: seq<Signed>, pos: seq<Words>, neg: seq<Words>)
      returns (pure: bool, pos': seq<Words>, neg': seq<Words>, ghost left': seq<Signed>)
      requires Sized() && region < h.regions && AllOk(h, s) && Sound(h, s) && Stuck(h, t)
      requires OfRegion(h, idx, region) && idx < cells.Length
      requires Encodes(h, cells[..], left) && Decoded(s, t, left, pos, neg)
      modifies cells
      ensures Encodes(h, cells[..], left') && Decoded(s, t, left', pos', neg')
      ensures |left'| == if pure then |left| - 1 else |left|
      ensures !pure ==> cells[..] == old(cells[..]) && IsPure(h, cells[idx]) == 0
    {
      pure, pos', neg', left' := IsPure(h, cells[idx]) != 0, pos, neg, left;
      if pure {
        pos', neg', left' := DecodeCell(idx, region, s, t, left, pos, neg);
      }
    }

    /** Peels one pure cell and outputs its key. */
    method DecodeCell(idx: nat, region: nat, ghost s: seq<Signed>, ghost t: seq<Signed>, ghost left: seq<Signed>, pos: seq<Words>, neg: seq<Words>)
      returns (pos': seq<Words>, neg': seq<Words>, ghost left': seq<Signed>)
      requires Sized() && region < h.regions && AllOk(h, s) && Sound(h, s) && Stuck(h, t)
      requires OfRegion(h, idx, region) && idx < cells.Length
      requires Encodes(h, cells[..], left) && Decoded(s, t, left, pos, neg) && IsPure(h, cells[idx]) != 0
      modifies cells
      ensures Encodes(h, cells[..], left') && Decoded(s, t, left', pos', neg')
      ensures |left'| == |left| - 1
    {
      ghost var was := cells[..];
      ghost var i := PureHoldsOne(h, was, s, t, left, pos, neg, idx);
      ghost var x := left[i];
      OneKeyIsPure(h, x);
      HitRegion(h, x.key, idx, region);
      AccountsMore(s, left, pos, neg, i);
      var purity, key := IsPure(h, cells[idx]), cells[idx].raw[..h.keyWords];
      Peel(idx, region);
      PeelRemoves(h, cells[..], was, left, i, idx, region);
      pos', neg', left' := pos, neg, Without(left, i);
      if purity == 1 {
        pos' := pos + [key];
      } else {
        neg' := neg + [key];
      }
    }
  }

  ghost predicate NonePure(h: Scheme, cells: seq<Cell>, n: nat) {
    n <= |cells| && forall c :: 0 <= c < n ==> IsPure(h, cells[c]) == 0
  }

  /** The first cell of a region. */
  function Base(h: Scheme, region: nat): nat {
    if region == 0 then 0 else Base(h, region - 1) + h.perRegion
  }

  lemma {:induction false} BaseIs(h: Scheme, region: nat)
    ensures Base(h, region) == region * h.perRegion
  {
    if region > 0 {
      BaseIs(h, region - 1);
      AddOne(region - 1, h.perRegion);
    }
  }

  predicate OfRegion(h: Scheme, idx: nat, region: nat) {
    Base(h, region) <= idx < Base(h, region) + h.perRegion
  }

  lemma RegionBounds(h: Scheme, idx: nat, region: nat)
    ensures OfRegion(h, idx, region) <==> region * h.perRegion <= idx < (region + 1) * h.perRegion
  {
    BaseIs(h, region);
    AddOne(region, h.perRegion);
  }

  /** The cells of a region are consecutive, and within the table. */
  lemma RegionRun(h: Scheme, region: nat)
    requires region < h.regions
    ensures Base(h, region + 1) == Base(h, region) + h.perRegion <= h.regions * h.perRegion
  {
    BaseIs(h, region + 1);
    MulMonotone(region + 1, h.regions, h.perRegion);
  }

  /** A key's cell lies in the region it was looked up for. */
  lemma HitRegion(h: Scheme, key: Words, idx: nat, region: nat)
    requires SchemeOk(h) && Hits(h, key, idx) && OfRegion(h, idx, region)
    ensures Index(h, key, region) == idx
  {
    var r: nat :| r < h.regions && Index(h, key, r) == idx;
    RegionBounds(h, idx, region);
    RegionUnique(r, region, h.perRegion, idx);
  }

  lemma Inserted(h: Scheme, now: seq<Cell>, was: seq<Cell>, s: seq<Signed>, key: Words)
    requires Encodes(h, was, s) && |key| == h.keyWords && |now| == |was|
    requires forall c :: 0 <= c < |was| ==>
               now[c] == if HitIn(h, key, c, h.regions, h.regions) then Plus(was[c], Share(h, Signed(key, 1))) else was[c]
    ensures Encodes(h, now, s + [Signed(key, 1)])
  {
    var t := s + [Signed(key, 1)];
    assert t[..|s|] == s;
    forall c | 0 <= c < |now| ensures now[c] == Content(h, t, c) {
      assert Hits(h, key, c) <==> HitIn(h, key, c, h.regions, h.regions);
    }
  }

  // ---- Differences -----------------------------------------------------------------------------------------------------------------

  ghost predicate KeysOk(h: Scheme, keys: seq<Words>) {
    && (forall i :: 0 <= i < |keys| ==> |keys[i]| == h.keyWords)
    && (forall i, j :: 0 <= i < j < |keys| ==> keys[i] != keys[j])
  }

  /** The keys of `a` that are not in `b`, positive, and those of `b` that are not in `a`, negative. */
  ghost function Difference(a: seq<Words>, b: seq<Words>): seq<Signed> {
    if a == [] then Signs(b, -1)
    else
      var last := a[|a| - 1];
      if last in b then Difference(a[..|a| - 1], Without(b, Find(b, last)))
      else Difference(a[..|a| - 1], b) + [Signed(last, 1)]
  }

  ghost function Find(b: seq<Words>, key: Words): (i: nat)
    requires key in b
    ensures i < |b| && b[i] == key
  {
    var i :| 0 <= i < |b| && b[i] == key;
    i
  }

  lemma KeysWithout(h: Scheme, b: seq<Words>, i: nat)
    requires KeysOk(h, b) && i < |b|
    ensures KeysOk(h, Without(b, i))
    ensures forall k :: k in Without(b, i) <==> k in b && k != b[i]
  {
    var t := Without(b, i);
    forall k | k in b && k != b[i] ensures k in t {
      var j :| 0 <= j < |b| && b[j] == k;
      assert t[if j < i then j else j - 1] == k;
    }
  }

  lemma {:induction false} SignsMembers(h: Scheme, keys: seq<Words>, sign: int)
    requires KeysOk(h, keys) && (sign == 1 || sign == -1)
    ensures AllOk(h, Signs(keys, sign)) && |Signs(keys, sign)| == |keys|
    ensures forall i :: 0 <= i < |keys| ==> Signs(keys, sign)[i] == Signed(keys[i], sign)
  {
    if keys != [] {
      SignsMembers(h, keys[..|keys| - 1], sign);
    }
  }

  /** The difference holds exactly the keys of one side only, with the sign of that side, once each. */
  lemma {:induction false} DifferenceOk(h: Scheme, a: seq<Words>, b: seq<Words>)
    requires KeysOk(h, a) && KeysOk(h, b)
    ensures AllOk(h, Difference(a, b))
    ensures forall x :: x in Difference(a, b) <==>
              (x.sign == 1 && x.key in a && x.key !in b) || (x.sign == -1 && x.key in b && x.key !in a)
    ensures forall i, j :: 0 <= i < j < |Difference(a, b)| ==> Difference(a, b)[i].key != Difference(a, b)[j].key
    decreases |a|
  {
    if a == [] {
      SignsMembers(h, b, -1);
      var d := Signs(b, -1);
      forall x ensures x in d <==> x.sign == -1 && x.key in b {
        if x in d {
          var i :| 0 <= i < |d| && d[i] == x;
        }
        if x.sign == -1 && x.key in b {
          var i :| 0 <= i < |b| && b[i] == x.key;
          assert d[i] == x;
        }
      }
    } else {
      var init, last := a[..|a| - 1], a[|a| - 1];
      assert forall k :: k in a <==> k in init || k == last;
      assert last !in init;
      if last in b {
        KeysWithout(h, b, Find(b, last));
        DifferenceOk(h, init, Without(b, Find(b, last)));
      } else {
        DifferenceOk(h, init, b);
        var d := Difference(init, b);
        assert forall x :: x in d + [Signed(last, 1)] <==> x in d || x == Signed(last, 1);
        forall i | 0 <= i < |d| ensures d[i].key != last {
          assert d[i] in d;
        }
      }
    }
  }

  /** Shares of keys on both sides cancel. */
  lemma {:induction false} DifferenceContent(h: Scheme, a: seq<Words>, b: seq<Words>, c: nat)
    requires SchemeOk(h) && KeysOk(h, a) && KeysOk(h, b)
    ensures AllOk(h, Signs(a, 1)) && AllOk(h, Signs(b, 1)) && AllOk(h, Difference(a, b))
    ensures Minus(Content(h, Signs(a, 1), c), Content(h, Signs(b, 1), c)) == Content(h, Difference(a, b), c)
    decreases |a|
  {
    SignsMembers(h, a, 1);
    SignsMembers(h, b, 1);
    DifferenceOk(h, a, b);
    if a == [] {
      Negated(h, b, c);
    } else {
      var init, last := a[..|a| - 1], a[|a| - 1];
      SignsMembers(h, init, 1);
      if last in b {
        var j := Find(b, last);
        KeysWithout(h, b, j);
        DifferenceContent(h, init, Without(b, j), c);
        SignsWithout(h, b, j);
        ContentWithout(h, Signs(b, 1), j, c);
        Cancels(Content(h, Signs(init, 1), c), Content(h, Signs(Without(b, j), 1), c), Share(h, Signed(last, 1)));
      } else {
        DifferenceContent(h, init, b, c);
        var d := Difference(init, b);
        assert (d + [Signed(last, 1)])[..|d|] == d;
        CellLaws(Content(h, Signs(init, 1), c), Share(h, Signed(last, 1)), Content(h, Signs(b, 1), c));
      }
    }
  }

  lemma {:induction false} SignsWithout(h: Scheme, b: seq<Words>, j: nat)
    requires KeysOk(h, b) && j < |b|
    ensures |Signs(b, 1)| == |b| && Without(Signs(b, 1), j) == Signs(Without(b, j), 1)
  {
    SignsMembers(h, b, 1);
    KeysWithout(h, b, j);
    SignsMembers(h, Without(b, j), 1);
  }

  lemma Cancels(x: Cell, y: Cell, s: Cell)
    requires |x.raw| == |y.raw| == |s.raw|
    ensures Minus(Plus(x, s), Plus(y, s)) == Minus(x, y)
  {
    XorLaws(x.raw, s.raw, Xor(y.raw, s.raw));
    XorLaws(s.raw, y.raw, s.raw);
    XorLaws(y.raw, s.raw, s.raw);
    assert Xor(s.raw, Xor(y.raw, s.raw)) == y.raw;
  }

  /** Nothing minus some keys is those keys negated. */
  lemma {:induction false} Negated(h: Scheme, b: seq<Words>, c: nat)
    requires SchemeOk(h) && KeysOk(h, b)
    ensures AllOk(h, Signs(b, 1)) && AllOk(h, Signs(b, -1))
    ensures Minus(Zero(TotalWords(h)), Content(h, Signs(b, 1), c)) == Content(h, Signs(b, -1), c)
  {
    SignsMembers(h, b, 1);
    SignsMembers(h, b, -1);
    var z := Zero(TotalWords(h));
    if b == [] {
      XorLaws(z.raw, z.raw, z.raw);
    } else {
      var init, last := b[..|b| - 1], b[|b| - 1];
      Negated(h, init, c);
      NegatedStep(z, Content(h, Signs(init, 1), c), Share(h, Signed(last, 1)), Share(h, Signed(last, -1)));
    }
  }

  lemma NegatedStep(z: Cell, x: Cell, s: Cell, t: Cell)
    requires |z.raw| == |x.raw| == |s.raw| && t.raw == s.raw && t.count == -s.count
    ensures Minus(z, Plus(x, s)) == Plus(Minus(z, x), t)
  {
    XorLaws(z.raw, x.raw, s.raw);
  }

  /** A new table with some keys inserted. */
  method TableOf(h: Scheme, keys: seq<Words>) returns (t: Table)
    requires SchemeOk(h) && forall i :: 0 <= i < |keys| ==> |keys[i]| == h.keyWords
    ensures fresh(t) && fresh(t.cells) && t.h == h && t.Sized() && Encodes(h, t.cells[..], Signs(keys, 1))
  {
    t := new Table(h);
    for i := 0 to |keys|
      invariant fresh(t.cells) && t.h == h && t.Sized() && Encodes(h, t.cells[..], Signs(keys[..i], 1))
    {
      SignsAdd(keys[..i], keys[i], 1);
      assert keys[..i + 1] == keys[..i] + [keys[i]];
      t.InsertKey(keys[i], Signs(keys[..i], 1));
    }
    assert keys[..|keys|] == keys;
  }

  lemma {:induction false} SignsHold(keys: seq<Words>, sign: int, k: Words)
    ensures Signed(k, sign) in Signs(keys, sign) <==> k in keys
    ensures forall x :: x in Signs(keys, sign) ==> x.sign == sign
  {
    if keys != [] {
      var init, last := keys[..|keys| - 1], keys[|keys| - 1];
      SignsHold(init, sign, k);
      assert k in keys <==> k in init || k == last;
    }
  }

  /** A key is decoded exactly if it is on one side only and not left over. */
  lemma DecodedSide(h: Scheme, a: seq<Words>, b: seq<Words>, left: seq<Signed>, pos: seq<Words>, neg: seq<Words>, k: Words)
    requires KeysOk(h, a) && KeysOk(h, b) && Accounts(Difference(a, b), left, pos, neg)
    ensures k in pos <==> k in a && k !in b && Signed(k, 1) !in left
    ensures k in neg <==> k in b && k !in a && Signed(k, -1) !in left
  {
    var d := Difference(a, b);
    DifferenceOk(h, a, b);
    SignsHold(pos, 1, k);
    SignsHold(neg, -1, k);
    forall sign | sign == 1 || sign == -1 ensures multiset(d)[Signed(k, sign)] <= 1 {
      OnceOnly(d, Signed(k, sign));
    }
    InBags(d, left, Signs(pos, 1), Signs(neg, -1), Signed(k, 1));
    InBags(d, left, Signs(pos, 1), Signs(neg, -1), Signed(k, -1));
  }

  lemma {:induction false} OnceOnly(s: seq<Signed>, x: Signed)
    requires forall i, j :: 0 <= i < j < |s| ==> s[i].key != s[j].key
    ensures multiset(s)[x] <= 1
  {
    if s != [] {
      var init, last := s[..|s| - 1], s[|s| - 1];
      OnceOnly(init, x);
      assert s == init + [last];
      if x == last {
        forall i | 0 <= i < |init| ensures init[i] != x {
          assert s[i].key != s[|s| - 1].key;
        }
        assert x !in init;
        assert multiset(init)[x] == 0;
      }
    }
  }

  lemma InBags(s: seq<Signed>, a: seq<Signed>, b: seq<Signed>, c: seq<Signed>, x: Signed)
    requires multiset(s) == multiset(a) + multiset(b) + multiset(c) && multiset(s)[x] <= 1
    ensures x in s <==> x in a || x in b || x in c
    ensures x in b ==> x !in a
    ensures x in c ==> x !in a
  {
    assert x in s <==> x in multiset(s);
    assert x in a <==> x in multiset(a);
    assert x in b <==> x in multiset(b);
    assert x in c <==> x in multiset(c);
  }

  /**
   Two replicas' tables, subtracted and decoded: the decoded keys are exactly those on one side only, on the side they are
   reported for, that are not in the core of the difference; success is reported exactly when the core leaves the cells
   looked at looking empty.
   */
  method Reconcile(h: Scheme, mine: seq<Words>, theirs: seq<Words>, starts: seq<nat>)
    returns (done: bool, pos: seq<Words>, neg: seq<Words>)
    requires SchemeOk(h) && KeysOk(h, mine) && KeysOk(h, theirs)
    requires AllOk(h, Difference(mine, theirs)) && Sound(h, Difference(mine, theirs))
    requires forall i :: 0 <= i < |starts| ==> starts[i] < h.regions * h.perRegion
    ensures forall k ::
              (k in pos <==> k in mine && k !in theirs && Signed(k, 1) !in Core(h, Difference(mine, theirs))) &&
              (k in neg <==> k in theirs && k !in mine && Signed(k, -1) !in Core(h, Difference(mine, theirs)))
    ensures AllOk(h, Core(h, Difference(mine, theirs)))
    ensures done <==> LooksDone(h, Core(h, Difference(mine, theirs)), starts)
    ensures forall k, r: nat :: r < h.regions && OneSided(mine, theirs, k) && LoneRemainder(h, mine, theirs, k, r) ==>
              k in pos || k in neg
    ensures (forall k :: OneSided(mine, theirs, k) ==> k in pos || k in neg) <==>
              exists t :: multiset(t) == multiset(Difference(mine, theirs)) && PeelOrder(h, t)
  {
    var here := TableOf(h, mine);
    var there := TableOf(h, theirs);
    var difference := new Table(h);
    var ok := here.ComputeDifference(there.cells[..], difference, mine, theirs);
    ghost var left;
    done, pos, neg, left := difference.Decode(starts, Difference(mine, theirs));
    ghost var core := Core(h, Difference(mine, theirs));
    forall k
      ensures k in pos <==> k in mine && k !in theirs && Signed(k, 1) !in core
      ensures k in neg <==> k in theirs && k !in mine && Signed(k, -1) !in core
    {
      DecodedSide(h, mine, theirs, left, pos, neg, k);
      SameBagMember(left, core, Signed(k, 1));
      SameBagMember(left, core, Signed(k, -1));
    }
    forall k, r: nat | r < h.regions && OneSided(mine, theirs, k) && LoneRemainder(h, mine, theirs, k, r)
      ensures k in pos || k in neg
    {
      LoneIsPeeled(h, mine, theirs, k, r);
    }
    DecodesAll(h, Difference(mine, theirs));
    CoreMembers(h, mine, theirs);
  }

  predicate OneSided(mine: seq<Words>, theirs: seq<Words>, k: Words) {
    (k in mine) != (k in theirs)
  }

  /** In region `r`, the hash of `k` leaves a remainder that no other key of one side only has. */
  ghost predicate LoneRemainder(h: Scheme, mine: seq<Words>, theirs: seq<Words>, k: Words, r: nat)
    requires h.perRegion > 0
  {
    forall q :: OneSided(mine, theirs, q) && q != k ==> h.hash(q, r) % h.perRegion != h.hash(k, r) % h.perRegion
  }

  /** Such a key is not in the core. */
  lemma LoneIsPeeled(h: Scheme, mine: seq<Words>, theirs: seq<Words>, k: Words, r: nat)
    requires SchemeOk(h) && KeysOk(h, mine) && KeysOk(h, theirs) && r < h.regions
    requires OneSided(mine, theirs, k) && LoneRemainder(h, mine, theirs, k, r)
    ensures Signed(k, 1) !in Core(h, Difference(mine, theirs)) && Signed(k, -1) !in Core(h, Difference(mine, theirs))
  {
    var d := Difference(mine, theirs);
    DifferenceOk(h, mine, theirs);
    var x := Signed(k, if k in mine then 1 else -1);
    assert x in d;
    var i: nat :| i < |d| && d[i] == x;
    forall j | 0 <= j < |d| && j != i
      ensures h.hash(d[j].key, r) % h.perRegion != h.hash(k, r) % h.perRegion
    {
      assert d[j] in d;
      assert OneSided(mine, theirs, d[j].key);
    }
    assert OwnRemainder(h, d, i, 0, r);
    PeelExact(h, d, i);
    var c: nat :| Alone(h, d, i, c);
    CoreStuck(h, d);
    StuckSpares(h, d, i, c, Core(h, d));
    forall y | y in Core(h, d) ensures y.key != k {
      assert y in multiset(Core(h, d));
      assert y in Without(d, i);
      var l := FromWithout(d, i, y);
    }
  }

  lemma CoreMembers(h: Scheme, mine: seq<Words>, theirs: seq<Words>)
    requires SchemeOk(h) && KeysOk(h, mine) && KeysOk(h, theirs)
    ensures forall x :: x in Core(h, Difference(mine, theirs)) ==> x in Difference(mine, theirs)
    ensures forall x :: x in Difference(mine, theirs) <==>
              (x.sign == 1 && x.key in mine && x.key !in theirs) || (x.sign == -1 && x.key in theirs && x.key !in mine)
    ensures Core(h, Difference(mine, theirs)) == [] <==> forall x :: x !in Core(h, Difference(mine, theirs))
  {
    var d := Difference(mine, theirs);
    DifferenceOk(h, mine, theirs);
    CoreStuck(h, d);
    forall x | x in Core(h, d) ensures x in d {
      assert x in multiset(Core(h, d));
    }
    assert Core(h, d) != [] ==> Core(h, d)[0] in Core(h, d);
  }

  lemma SameBagMember<T>(a: seq<T>, b: seq<T>, x: T)
    requires multiset(a) == multiset(b)
    ensures x in a <==> x in b
  {
    assert x in a <==> x in multiset(a);
    assert x in b <==> x in multiset(b);
  }
}
