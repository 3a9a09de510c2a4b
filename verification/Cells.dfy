/**
 The cells of an invertible Bloom lookup table: an abelian group, and what a set of signed keys adds up to in it.
 */
module Cells {
  import opened Products

  type Words = seq<bv64>

  /** A cell: key and checksum words xored together, and a signed count. */
  datatype Cell = Cell(raw: Words, count: int)

  function Xor(a: Words, b: Words): (r: Words)
    requires |a| == |b|
    ensures |r| == |a|
  {
    seq(|a|, i requires 0 <= i < |a| => a[i] ^ b[i])
  }

  function Zeros(n: nat): (r: Words)
    ensures |r| == n
  {
    seq(n, _ => 0)
  }

  function Zero(n: nat): Cell {
    Cell(Zeros(n), 0)
  }

  function Plus(a: Cell, b: Cell): (c: Cell)
    requires |a.raw| == |b.raw|
    ensures |c.raw| == |a.raw|
  {
    Cell(Xor(a.raw, b.raw), a.count + b.count)
  }

  /** `remove_pure_cell` (and `compute_difference`): words are xored, counts subtracted. */
  function Minus(a: Cell, b: Cell): (c: Cell)
    requires |a.raw| == |b.raw|
    ensures |c.raw| == |a.raw|
  {
    Cell(Xor(a.raw, b.raw), a.count - b.count)
  }

  lemma WordLaws(a: bv64, b: bv64, c: bv64)
    ensures a ^ b == b ^ a && (a ^ b) ^ c == a ^ (b ^ c) && (a ^ b) ^ b == a && a ^ 0 == a
  {
  }

  lemma XorSymmetric(a: Words, b: Words)
    requires |a| == |b|
    ensures Xor(a, b) == Xor(b, a)
    ensures Xor(Xor(a, b), b) == a
    ensures Xor(a, Zeros(|a|)) == a
  {
    forall i | 0 <= i < |a| ensures a[i] ^ b[i] == b[i] ^ a[i] && (a[i] ^ b[i]) ^ b[i] == a[i] && a[i] ^ 0 == a[i] {
      WordLaws(a[i], b[i], 0);
    }
  }

  lemma XorAssociative(a: Words, b: Words, c: Words)
    requires |a| == |b| == |c|
    ensures Xor(Xor(a, b), c) == Xor(a, Xor(b, c))
  {
    forall i | 0 <= i < |a| ensures (a[i] ^ b[i]) ^ c[i] == a[i] ^ (b[i] ^ c[i]) {
      WordLaws(a[i], b[i], c[i]);
    }
  }

  lemma XorLaws(a: Words, b: Words, c: Words)
    requires |a| == |b| == |c|
    ensures Xor(a, b) == Xor(b, a)
    ensures Xor(Xor(a, b), c) == Xor(a, Xor(b, c))
    ensures Xor(Xor(a, b), b) == a
    ensures Xor(a, Zeros(|a|)) == a
  {
    XorSymmetric(a, b);
    XorAssociative(a, b, c);
  }

  lemma CellLaws(a: Cell, b: Cell, c: Cell)
    requires |a.raw| == |b.raw| == |c.raw|
    ensures Plus(a, b) == Plus(b, a)
    ensures Plus(Plus(a, b), c) == Plus(a, Plus(b, c))
    ensures Plus(Plus(a, b), c) == Plus(Plus(a, c), b)
    ensures Minus(Plus(a, b), b) == a
    ensures Minus(Plus(a, b), c) == Plus(Minus(a, c), b)
    ensures Minus(Minus(a, b), c) == Minus(Minus(a, c), b)
    ensures Plus(a, Zero(|a.raw|)) == a
    ensures Plus(Minus(a, b), b) == a
  {
    XorLaws(a.raw, b.raw, c.raw);
    XorLaws(a.raw, c.raw, b.raw);
    XorLaws(b.raw, c.raw, a.raw);
  }

  // ---- Signed keys --------------------------------------------------------------------------------------------------------

  /** The sizes of a table and its hash functions, left uninterpreted. */
  datatype Scheme = Scheme(keyWords: nat, checkWords: nat, regions: nat, perRegion: nat, check: Words -> Words, hash: (Words, nat) -> nat)

  /** The template is instantiated with 3 or 4 hash functions. */
  predicate SchemeOk(h: Scheme) {
    3 <= h.regions <= 4 && h.perRegion > 0
  }

  function TotalWords(h: Scheme): nat {
    h.keyWords + h.checkWords
  }

  /** `compute_checksum`, to the stored number of words. */
  function Checksum(h: Scheme, key: Words): (c: Words)
    ensures |c| == h.checkWords
    ensures |h.check(key)| == h.checkWords ==> c == h.check(key)
  {
    var c := h.check(key);
    if |c| == h.checkWords then c else Zeros(h.checkWords)
  }

  /** `make_indices`: one cell in each region. */
  function Index(h: Scheme, key: Words, region: nat): (i: nat)
    requires h.perRegion > 0
    ensures region * h.perRegion <= i < (region + 1) * h.perRegion
  {
    IndexInRegion(region, h.perRegion, h.hash(key, region) % h.perRegion);
    h.hash(key, region) % h.perRegion + h.perRegion * region
  }

  lemma IndexInRegion(region: nat, per: nat, low: nat)
    requires low < per
    ensures region * per <= low + per * region < (region + 1) * per
  {
    assert per * region == region * per;
    assert (region + 1) * per == region * per + per;
  }

  datatype Signed = Signed(key: Words, sign: int)

  ghost predicate SignedOk(h: Scheme, x: Signed) {
    |x.key| == h.keyWords && (x.sign == 1 || x.sign == -1)
  }

  /** What one signed key puts into each of its cells. */
  function Share(h: Scheme, x: Signed): (c: Cell)
    ensures |c.raw| == |x.key| + h.checkWords
  {
    Cell(x.key + Checksum(h, x.key), x.sign)
  }

  predicate Hits(h: Scheme, key: Words, c: nat)
    requires h.perRegion > 0
  {
    exists r: nat :: r < h.regions && Index(h, key, r) == c
  }

  /** In numbers: of region `c / perRegion`, cell `c` is the key's if the region's hash leaves its remainder. */
  lemma HitsExact(h: Scheme, key: Words, c: nat)
    requires SchemeOk(h)
    ensures Hits(h, key, c) <==>
            c < h.regions * h.perRegion && h.hash(key, c / h.perRegion) % h.perRegion == c % h.perRegion
  {
    var n := h.perRegion;
    if Hits(h, key, c) {
      var r: nat :| r < h.regions && Index(h, key, r) == c;
      Division(r, n, h.hash(key, r) % n);
      NextMultiple(r, h.regions, n);
    }
    if c < h.regions * n && h.hash(key, c / n) % n == c % n {
      AtMostQuotient(h.regions, n, c);
      assert Index(h, key, c / n) == c;
    }
  }

  /** The cell of region `r` for the remainder `low`. */
  lemma CellFor(h: Scheme, r: nat, low: nat) returns (c: nat)
    requires SchemeOk(h) && r < h.regions && low < h.perRegion
    ensures c / h.perRegion == r
    ensures forall key :: Hits(h, key, c) <==> h.hash(key, r) % h.perRegion == low
  {
    c := r * h.perRegion + low;
    Division(r, h.perRegion, low);
    NextMultiple(r, h.regions, h.perRegion);
    forall key ensures Hits(h, key, c) <==> h.hash(key, r) % h.perRegion == low {
      HitsExact(h, key, c);
    }
  }

  /** Which keys have the cell `c` of `key`. */
  lemma CellOf(h: Scheme, key: Words, c: nat)
    requires SchemeOk(h) && Hits(h, key, c)
    ensures c / h.perRegion < h.regions
    ensures forall k :: Hits(h, k, c) <==>
              h.hash(k, c / h.perRegion) % h.perRegion == h.hash(key, c / h.perRegion) % h.perRegion
  {
    HitsExact(h, key, c);
    AtMostQuotient(h.regions, h.perRegion, c);
    forall k ensures Hits(h, k, c) <==>
                     h.hash(k, c / h.perRegion) % h.perRegion == h.hash(key, c / h.perRegion) % h.perRegion {
      HitsExact(h, k, c);
    }
  }

  /** Two keys share their cell of a region exactly when the region's hash leaves them the same remainder. */
  lemma SharedCell(h: Scheme, a: Words, b: Words, r: nat)
    requires SchemeOk(h) && r < h.regions
    ensures (exists c: nat :: c / h.perRegion == r && Hits(h, a, c) && Hits(h, b, c)) <==>
            h.hash(a, r) % h.perRegion == h.hash(b, r) % h.perRegion
  {
    if exists c: nat :: c / h.perRegion == r && Hits(h, a, c) && Hits(h, b, c) {
      var c: nat :| c / h.perRegion == r && Hits(h, a, c) && Hits(h, b, c);
      CellOf(h, a, c);
    }
    var c := CellFor(h, r, h.hash(a, r) % h.perRegion);
    assert Hits(h, a, c);
  }

  ghost predicate AllOk(h: Scheme, s: seq<Signed>) {
    forall i :: 0 <= i < |s| ==> SignedOk(h, s[i])
  }

  /** The content of cell `c` when the table holds the signed keys `s`. */
  ghost function Content(h: Scheme, s: seq<Signed>, c: nat): (r: Cell)
    requires SchemeOk(h) && AllOk(h, s)
    ensures |r.raw| == TotalWords(h)
  {
    if s == [] then Zero(TotalWords(h))
    else
      var rest := Content(h, s[..|s| - 1], c);
      if Hits(h, s[|s| - 1].key, c) then Plus(rest, Share(h, s[|s| - 1])) else rest
  }

  function Without<T>(s: seq<T>, i: nat): seq<T>
    requires i < |s|
  {
    s[..i] + s[i + 1..]
  }

  lemma WithoutLast<T>(s: seq<T>, i: nat)
    requires i < |s| - 1
    ensures var less := Without(s, i);
            less[..|less| - 1] == Without(s[..|s| - 1], i) && less[|less| - 1] == s[|s| - 1]
  {
  }

  /** Taking one signed key out subtracts its share from its cells. */
  lemma {:induction false} ContentWithout(h: Scheme, s: seq<Signed>, i: nat, c: nat)
    requires SchemeOk(h) && AllOk(h, s) && i < |s|
    ensures AllOk(h, Without(s, i))
    ensures Content(h, s, c) ==
            if Hits(h, s[i].key, c) then Plus(Content(h, Without(s, i), c), Share(h, s[i])) else Content(h, Without(s, i), c)
  {
    var last := |s| - 1;
    var init, less := s[..last], Without(s, i);
    if i == last {
      assert less == init;
    } else {
      ContentWithout(h, init, i, c);
      var rest := Without(init, i);
      WithoutLast(s, i);
      assert less[..|less| - 1] == rest && less[|less| - 1] == s[last];
      CellLaws(Content(h, rest, c), Share(h, s[i]), Share(h, s[last]));
      assert Content(h, less, c) ==
             if Hits(h, s[last].key, c) then Plus(Content(h, rest, c), Share(h, s[last])) else Content(h, rest, c);
    }
  }
}
