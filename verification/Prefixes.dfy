/**
 Trie prefixes packed into machine words, bit by bit, and the nibble sequences they stand for: `AccountIDPrefix` (one
 64-bit number) and `prefix_type` (an array of words holding the key bytes in memory order).
 */
module Prefixes {
  import opened Keys
  import opened Trie

  /** A machine word, as its bits. */
  type Bits = seq<bool>

  function Quad(a: bool, b: bool, c: bool, d: bool): Nibble {
    (if a then 8 else 0) + (if b then 4 else 0) + (if c then 2 else 0) + (if d then 1 else 0)
  }

  lemma QuadEqual(a: bool, b: bool, c: bool, d: bool, e: bool, f: bool, g: bool, h: bool)
    ensures Quad(a, b, c, d) == Quad(e, f, g, h) <==> a == e && b == f && c == g && d == h
  {
  }

  function Xor(x: Bits, y: Bits): (r: Bits)
    requires |x| == |y|
    ensures |r| == |x|
  {
    seq(|x|, i requires 0 <= i < |x| => x[i] != y[i])
  }

  function And(x: Bits, y: Bits): (r: Bits)
    requires |x| == |y|
    ensures |r| == |x|
  {
    seq(|x|, i requires 0 <= i < |x| => x[i] && y[i])
  }

  function Or(x: Bits, y: Bits): (r: Bits)
    requires |x| == |y|
    ensures |r| == |x|
  {
    seq(|x|, i requires 0 <= i < |x| => x[i] || y[i])
  }

  function Not(x: Bits): (r: Bits)
    ensures |r| == |x|
  {
    seq(|x|, i requires 0 <= i < |x| => !x[i])
  }

  function Min(a: nat, b: nat): nat {
    if a < b then a else b
  }

  lemma MatchLenTake(a: Key, b: Key, m: nat, n: nat)
    requires m <= |a| && n <= |b|
    ensures MatchLen(a[..m], b[..n]) == Min(MatchLen(a, b), Min(m, n))
  {
    var l := MatchLen(a, b);
    var t := Min(l, Min(m, n));
    var u, v := a[..m], b[..n];
    assert u[..t] == a[..l][..t] == b[..l][..t] == v[..t];
    if t < m && t < n {
      MatchLenUnique(u, v, t);
    } else {
      MatchLenAtLeast(u, v, t);
    }
  }

  lemma {:induction false} MatchLenAtLeast(a: Key, b: Key, t: nat)
    requires t <= |a| && t <= |b| && a[..t] == b[..t]
    ensures MatchLen(a, b) >= t
  {
    if t > 0 {
      assert a[0] == a[..t][0] == b[..t][0] == b[0];
      assert a[1..][..t - 1] == a[..t][1..] == b[..t][1..] == b[1..][..t - 1];
      MatchLenAtLeast(a[1..], b[1..], t - 1);
    }
  }

  /** Two keys that agree on their first `m` nibbles and then differ or end match for `m`. */
  lemma MatchLenIs(a: Key, b: Key, m: nat)
    requires |a| == |b| && m <= |a|
    requires forall i :: 0 <= i < m ==> a[i] == b[i]
    requires m < |a| ==> a[m] != b[m]
    ensures MatchLen(a, b) == m
  {
    assert a[..m] == b[..m];
    if m < |a| {
      MatchLenUnique(a, b, m);
    } else {
      assert a == b;
      MatchLenPrefix(a, b);
    }
  }

  // ---- AccountIDPrefix: bits from the most significant one -------------------------------------------------------------------

  const ID_BITS: nat := 64

  function ShiftLeft(x: Bits, k: nat): (r: Bits)
    requires k <= |x|
    ensures |r| == |x|
  {
    x[k..] + seq(k, _ => false)
  }

  function ShiftRight(x: Bits, k: nat): (r: Bits)
    requires k <= |x|
    ensures |r| == |x|
  {
    seq(k, _ => false) + x[..|x| - k]
  }

  /** The key an account id stands for: its nibbles, high to low. */
  function KeyOf(x: Bits): (k: Key)
    requires |x| == ID_BITS
    ensures |k| == 16
  {
    seq(16, i requires 0 <= i < 16 => Quad(x[4 * i], x[4 * i + 1], x[4 * i + 2], x[4 * i + 3]))
  }

  /** The mask 0x0F. */
  function LowMask(): (m: Bits)
    ensures |m| == ID_BITS
  {
    seq(ID_BITS, i => i >= 60)
  }

  function AllOnes(): (m: Bits)
    ensures |m| == ID_BITS
  {
    seq(ID_BITS, _ => true)
  }

  /** A branch nibble as a word. */
  function Extend(n: Nibble): (x: Bits)
    ensures |x| == ID_BITS
  {
    seq(60, _ => false) + [n >= 8, n % 8 >= 4, n % 4 >= 2, n % 2 == 1]
  }

  /** The value of a word in which only the low four bits are set. */
  function LowNibble(x: Bits): Nibble
    requires |x| == ID_BITS
  {
    Quad(x[60], x[61], x[62], x[63])
  }

  /** `AccountIDPrefix::get_branch_bits`; `None` stands for the throw. Lengths are in bits. */
  function GetBranchBits(x: Bits, len: nat): Option<Nibble>
    requires |x| == ID_BITS && len % 4 == 0
  {
    if len >= ID_BITS then None else Some(LowNibble(And(ShiftRight(x, 60 - len), LowMask())))
  }

  lemma BranchBitsRefine(x: Bits, len: nat)
    requires |x| == ID_BITS && len % 4 == 0
    ensures GetBranchBits(x, len) == if len < ID_BITS then Some(KeyOf(x)[len / 4]) else None
  {
  }

  /** `AccountIDPrefix::truncate`. For length 0 the source shifts by the full width, which C++ leaves undefined. */
  function Truncate(x: Bits, len: nat): (r: Bits)
    requires |x| == ID_BITS && 0 < len <= ID_BITS && len % 4 == 0
    ensures |r| == ID_BITS
  {
    And(x, ShiftLeft(AllOnes(), 64 - len))
  }

  lemma TruncateRefines(x: Bits, len: nat)
    requires |x| == ID_BITS && 0 < len <= ID_BITS && len % 4 == 0
    ensures KeyOf(Truncate(x, len)) == KeyOf(x)[..len / 4] + seq(16 - len / 4, _ => 0)
  {
    var r := Truncate(x, len);
    forall i | 0 <= i < 64 ensures r[i] == (i < len && x[i]) {
    }
  }

  /** `AccountIDPrefix::set_next_branch_bits`. */
  function SetNextBranchBits(x: Bits, len: nat, bits: Nibble): (r: Bits)
    requires |x| == ID_BITS && len < ID_BITS && len % 4 == 0
    ensures |r| == ID_BITS
  {
    Or(And(x, Not(ShiftLeft(LowMask(), 60 - len))), ShiftLeft(Extend(bits), 60 - len))
  }

  lemma SetNextRefines(x: Bits, len: nat, bits: Nibble)
    requires |x| == ID_BITS && len < ID_BITS && len % 4 == 0
    ensures KeyOf(SetNextBranchBits(x, len, bits)) == KeyOf(x)[len / 4 := bits]
  {
    var r := SetNextBranchBits(x, len, bits);
    SetNextBits(x, len, bits);
    ExtendQuad(bits);
    var e := Extend(bits);
    assert r[len] == e[60] && r[len + 1] == e[61] && r[len + 2] == e[62] && r[len + 3] == e[63];
  }

  lemma SetNextBits(x: Bits, len: nat, bits: Nibble)
    requires |x| == ID_BITS && len < ID_BITS && len % 4 == 0
    ensures var r := SetNextBranchBits(x, len, bits);
            forall i :: 0 <= i < 64 ==> r[i] == if len <= i < len + 4 then Extend(bits)[60 + i - len] else x[i]
  {
  }

  lemma ExtendQuad(bits: Nibble)
    ensures var e := Extend(bits); Quad(e[60], e[61], e[62], e[63]) == bits
  {
  }

  /** `__builtin_clzll`: the number of leading zeros from bit `i` on. */
  function Clz(x: Bits, i: nat): (c: nat)
    requires i <= |x|
    ensures i + c <= |x|
    ensures forall j :: i <= j < i + c ==> !x[j]
    ensures i + c < |x| ==> x[i + c]
    decreases |x| - i
  {
    if i == |x| || x[i] then 0 else 1 + Clz(x, i + 1)
  }

  /** `AccountIDPrefix::get_prefix_match_len`. */
  function GetPrefixMatchLen(x: Bits, xLen: nat, y: Bits, yLen: nat): nat
    requires |x| == ID_BITS && |y| == ID_BITS
  {
    var diff := Xor(x, y);
    var matching := Clz(diff, 0);
    var computed := if matching == ID_BITS then ID_BITS else matching - matching % 4;
    Min(computed, Min(xLen, yLen))
  }

  lemma PrefixMatchRefines(x: Bits, xLen: nat, y: Bits, yLen: nat)
    requires |x| == ID_BITS && |y| == ID_BITS
    requires xLen <= ID_BITS && yLen <= ID_BITS && xLen % 4 == 0 && yLen % 4 == 0
    ensures GetPrefixMatchLen(x, xLen, y, yLen) == 4 * MatchLen(KeyOf(x)[..xLen / 4], KeyOf(y)[..yLen / 4])
  {
    var m := FirstDifference(x, y);
    MatchLenIs(KeyOf(x), KeyOf(y), m);
    MatchLenTake(KeyOf(x), KeyOf(y), xLen / 4, yLen / 4);
  }

  lemma FirstDifference(x: Bits, y: Bits) returns (m: nat)
    requires |x| == ID_BITS && |y| == ID_BITS
    ensures m == Clz(Xor(x, y), 0) / 4 <= 16
    ensures forall i :: 0 <= i < m ==> KeyOf(x)[i] == KeyOf(y)[i]
    ensures m < 16 ==> KeyOf(x)[m] != KeyOf(y)[m]
  {
    var c := Clz(Xor(x, y), 0);
    m := c / 4;
    forall i | 0 <= i < c ensures x[i] == y[i] {
      assert !Xor(x, y)[i];
    }
    if c < 64 {
      assert Xor(x, y)[c];
      var q := 4 * m;
      QuadEqual(x[q], x[q + 1], x[q + 2], x[q + 3], y[q], y[q + 1], y[q + 2], y[q + 3]);
    }
  }

  // ---- prefix_type: words of key bytes, bits from the least significant one ------------------------------------------------------

  ghost predicate WordsOk(ws: seq<Bits>, len: nat) {
    len <= 64 * |ws| && len % 8 == 0 && forall i :: 0 <= i < |ws| ==> |ws[i]| == 64
  }

  /** Nibble `j` of a word holding eight bytes in memory order: byte `j / 2`, high half first. */
  function WordNibble(w: Bits, j: nat): Nibble
    requires |w| == 64 && j < 16
  {
    HalfByte(w, j / 2, j % 2 == 1)
  }

  /** The high or the low half of byte `b` of a word. */
  function HalfByte(w: Bits, b: nat, low: bool): Nibble
    requires |w| == 64 && b < 8
  {
    if low then Quad(w[8 * b + 3], w[8 * b + 2], w[8 * b + 1], w[8 * b])
    else Quad(w[8 * b + 7], w[8 * b + 6], w[8 * b + 5], w[8 * b + 4])
  }

  /** The key of `len` bits held in `ws`. */
  function WordsKey(ws: seq<Bits>, len: nat): (k: Key)
    requires WordsOk(ws, len)
    ensures |k| == len / 4
  {
    seq(len / 4, i requires 0 <= i < len / 4 => WordNibble(ws[i / 16], i % 16))
  }

  /** `prefix_type::get_branch_bits`; `None` stands for the throw. */
  function WordsBranchBits(ws: seq<Bits>, max: nat, len: nat): Option<Nibble>
    requires WordsOk(ws, max) && len % 4 == 0
  {
    if len >= max then None else
      Some(HalfByte(ws[len / 64], (len % 64) / 8, len % 8 != 0))
  }

  lemma WordsBranchBitsRefine(ws: seq<Bits>, max: nat, len: nat)
    requires WordsOk(ws, max) && len % 4 == 0
    ensures WordsBranchBits(ws, max, len) == if len < max then Some(WordsKey(ws, max)[len / 4]) else None
  {
    if len < max {
      NibbleIndex(len);
      var q, j := len / 64, (len / 4) % 16;
      assert WordsKey(ws, max)[len / 4] == WordNibble(ws[q], j) == HalfByte(ws[q], j / 2, j % 2 == 1);
    }
  }

  lemma NibbleIndex(len: nat)
    requires len % 4 == 0
    ensures (len / 4) / 16 == len / 64 && ((len / 4) % 16) / 2 == (len % 64) / 8
    ensures (len / 4) % 16 % 2 == 1 <==> len % 8 != 0
  {
    var q, r := len / 64, len % 64;
    var b, t := r / 8, r % 8;
    assert len == 64 * q + 8 * b + t && (t == 0 || t == 4);
    assert len / 4 == 16 * q + (2 * b + t / 4);
  }

  /** The mask of `truncate`: everything below the byte, and its high half if the cut is inside it. */
  function TruncateMask(offset: nat, half: bool): (m: Bits)
    requires offset <= 56
    ensures |m| == 64
  {
    seq(64, i => i < offset || (half && offset + 4 <= i < offset + 8))
  }

  /** `prefix_type::truncate`; not `ok` stands for the throw. */
  method WordsTruncate(ws: seq<Bits>, max: nat, len: nat) returns (ok: bool, r: seq<Bits>)
    requires WordsOk(ws, max) && len % 4 == 0
    ensures ok <==> len < max
    ensures ok ==> WordsOk(r, max) && WordsKey(r, max) == WordsKey(ws, max)[..len / 4] + seq((max - len) / 4, _ => 0)
    ensures !ok ==> r == ws
  {
    r := ws;
    if len >= max {
      return false, r;
    }
    ok := true;
    var word := len / 64;
    var mask := TruncateMask(8 * ((len % 64) / 8), len % 8 != 0);
    r := r[word := And(ws[word], mask)];
    for i := word + 1 to |ws|
      invariant |r| == |ws| && forall j :: 0 <= j < |ws| ==> r[j] == Cut(ws, mask, word, i, j)
    {
      r := r[i := seq(64, _ => false)];
    }
    CutKey(ws, r, max, len, mask);
  }

  /** Word `j` once the words from `word` to before `n` are cut. */
  function Cut(ws: seq<Bits>, mask: Bits, word: nat, n: nat, j: nat): Bits
    requires word < |ws| && |mask| == |ws[word]| && j < |ws|
  {
    if j == word then And(ws[word], mask) else if word < j < n then seq(64, _ => false) else ws[j]
  }

  lemma CutKey(ws: seq<Bits>, r: seq<Bits>, max: nat, len: nat, mask: Bits)
    requires WordsOk(ws, max) && len % 4 == 0 && len < max && |r| == |ws|
    requires mask == TruncateMask(8 * ((len % 64) / 8), len % 8 != 0)
    requires forall j :: 0 <= j < |ws| ==> r[j] == Cut(ws, mask, len / 64, |ws|, j)
    ensures WordsOk(r, max) && WordsKey(r, max) == WordsKey(ws, max)[..len / 4] + seq((max - len) / 4, _ => 0)
  {
    assert WordsOk(r, max);
    var word, b, half := len / 64, (len % 64) / 8, len % 8 != 0;
    forall i | 0 <= i < max / 4
      ensures WordNibble(r[i / 16], i % 16) == if i < len / 4 then WordNibble(ws[i / 16], i % 16) else 0
    {
      NibbleIndex(len);
      if i / 16 == word {
        CutHalf(ws[word], b, half, (i % 16) / 2, i % 16 % 2 == 1);
      } else if i / 16 > word {
        assert r[i / 16] == seq(64, _ => false);
      }
    }
  }

  lemma CutHalf(w: Bits, at: nat, half: bool, b: nat, low: bool)
    requires |w| == 64 && at < 8 && b < 8
    ensures HalfByte(And(w, TruncateMask(8 * at, half)), b, low) ==
            if b < at || (b == at && half && !low) then HalfByte(w, b, low) else 0
  {
  }

  /** The first bit set, from the least significant one (`__builtin_ctzll`). */
  function Ctz(x: Bits): nat {
    Clz(x, 0)
  }

  /** How far into a word two keys agree, given where their words differ. */
  function WordOffset(diff: Bits): nat
    requires |diff| == 64 && Ctz(diff) < 64
  {
    var b := Ctz(diff) / 8;
    if HalfByte(diff, b, false) == 0 && HalfByte(diff, b, true) != 0 then 8 * b + 4 else 8 * b
  }

  lemma HalfSame(x: Bits, y: Bits, b: nat, low: bool)
    requires |x| == 64 && |y| == 64 && b < 8
    ensures HalfByte(x, b, low) == HalfByte(y, b, low) <==> HalfByte(Xor(x, y), b, low) == 0
  {
    var q := if low then 8 * b else 8 * b + 4;
    QuadEqual(x[q + 3], x[q + 2], x[q + 1], x[q], y[q + 3], y[q + 2], y[q + 1], y[q]);
  }

  /** The byte with the first difference, and the bytes before it. */
  lemma FirstByte(diff: Bits)
    requires |diff| == 64 && Ctz(diff) < 64
    ensures var b := Ctz(diff) / 8;
            && (HalfByte(diff, b, false) != 0 || HalfByte(diff, b, true) != 0)
            && forall a: nat, low :: a < b ==> HalfByte(diff, a, low) == 0
  {
    var c := Ctz(diff);
    var b, t := c / 8, c % 8;
    assert diff[8 * b + t];
  }

  lemma WordOffsetIs(x: Bits, y: Bits)
    requires |x| == 64 && |y| == 64 && Ctz(Xor(x, y)) < 64
    ensures var o := WordOffset(Xor(x, y));
            && o % 4 == 0 && o < 64
            && WordNibble(x, o / 4) != WordNibble(y, o / 4)
            && forall j: nat :: j < o / 4 ==> WordNibble(x, j) == WordNibble(y, j)
  {
    var diff := Xor(x, y);
    var b := Ctz(diff) / 8;
    FirstByte(diff);
    HalfSame(x, y, b, false);
    HalfSame(x, y, b, true);
    forall j: nat | j < 2 * b ensures WordNibble(x, j) == WordNibble(y, j) {
      HalfSame(x, y, j / 2, j % 2 == 1);
    }
    assert (2 * b) / 2 == b && (2 * b + 1) / 2 == b && (2 * b + 1) % 2 == 1;
  }

  /** `prefix_type::get_prefix_match_len`: a loop over words that stops at the first difference. */
  method WordsMatchLen(xs: seq<Bits>, xLen: nat, ys: seq<Bits>, yLen: nat, max: nat) returns (len: nat)
    requires WordsOk(xs, max) && WordsOk(ys, max) && |xs| == |ys|
    requires xLen <= max && yLen <= max && xLen % 4 == 0 && yLen % 4 == 0
    ensures len == 4 * MatchLen(WordsKey(xs, max)[..xLen / 4], WordsKey(ys, max)[..yLen / 4])
  {
    var res := WordsMatch(xs, ys, max);
    MatchLenTake(WordsKey(xs, max), WordsKey(ys, max), xLen / 4, yLen / 4);
    len := Min(res, Min(xLen, yLen));
  }

  method WordsMatch(xs: seq<Bits>, ys: seq<Bits>, max: nat) returns (res: nat)
    requires WordsOk(xs, max) && WordsOk(ys, max) && |xs| == |ys|
    ensures res == 4 * MatchLen(WordsKey(xs, max), WordsKey(ys, max))
  {
    var i := DifferentWord(xs, ys, max);
    MatchAt(xs, ys, max, i);
    res := RoundDown(BitsAgreed(xs, ys, max, i));
  }

  /** To whole nibbles. */
  function RoundDown(bits: nat): nat {
    bits - bits % 4
  }

  lemma RoundDownExact(m: nat)
    ensures RoundDown(4 * m) == 4 * m
  {
  }

  /** The match length in bits, the `i`-th words being the first that differ. */
  function BitsAgreed(xs: seq<Bits>, ys: seq<Bits>, max: nat, i: nat): nat
    requires WordsOk(xs, max) && WordsOk(ys, max) && |xs| == |ys| && i <= |xs|
    requires i < |xs| ==> Ctz(Xor(xs[i], ys[i])) < 64
  {
    if i == |xs| then max else Min(64 * i + WordOffset(Xor(xs[i], ys[i])), max)
  }

  /** Where the loop breaks. */
  method DifferentWord(xs: seq<Bits>, ys: seq<Bits>, max: nat) returns (i: nat)
    requires WordsOk(xs, max) && WordsOk(ys, max) && |xs| == |ys|
    ensures i <= |xs| && forall j :: 0 <= j < i ==> xs[j] == ys[j]
    ensures i < |xs| ==> Ctz(Xor(xs[i], ys[i])) < 64
  {
    i := 0;
    while i < |xs|
      invariant i <= |xs| && forall j :: 0 <= j < i ==> xs[j] == ys[j]
    {
      if Ctz(Xor(xs[i], ys[i])) < 64 {
        return;
      }
      NoDifference(xs[i], ys[i]);
      i := i + 1;
    }
  }

  lemma NoDifference(x: Bits, y: Bits)
    requires |x| == 64 && |y| == 64 && Ctz(Xor(x, y)) == 64
    ensures x == y
  {
    forall i | 0 <= i < 64 ensures x[i] == y[i] {
      assert !Xor(x, y)[i];
    }
  }

  lemma MatchAt(xs: seq<Bits>, ys: seq<Bits>, max: nat, i: nat)
    requires WordsOk(xs, max) && WordsOk(ys, max) && |xs| == |ys| && i <= |xs|
    requires forall j :: 0 <= j < i ==> xs[j] == ys[j]
    requires i < |xs| ==> Ctz(Xor(xs[i], ys[i])) < 64
    ensures RoundDown(BitsAgreed(xs, ys, max, i)) == 4 * MatchLen(WordsKey(xs, max), WordsKey(ys, max))
  {
    var res := BitsAgreed(xs, ys, max, i);
    var m := res / 4;
    if i < |xs| {
      WordOffsetIs(xs[i], ys[i]);
      var o := WordOffset(Xor(xs[i], ys[i]));
      forall h | 0 <= h < m ensures WordNibble(xs[h / 16], h % 16) == WordNibble(ys[h / 16], h % 16) {
      }
      assert 64 * i + o < max ==> m / 16 == i && m % 16 == o / 4;
    }
    MatchLenIs(WordsKey(xs, max), WordsKey(ys, max), m);
    RoundDownExact(m);
  }

  // ---- Byte order -------------------------------------------------------------------------------------------------------------

  function ByteOf(high: int, low: int): int {
    16 * high + low
  }

  /** The bytes of a key of even length. */
  function Bytes(k: Key): (b: seq<int>)
    requires |k| % 2 == 0
    ensures |b| == |k| / 2
  {
    seq(|k| / 2, i requires 0 <= i < |k| / 2 => ByteOf(k[2 * i], k[2 * i + 1]))
  }

  /** `memcmp` of two byte strings of one length is negative. */
  ghost predicate BytesLess(a: seq<int>, b: seq<int>)
    requires |a| == |b|
  {
    exists m :: 0 <= m < |a| && a[..m] == b[..m] && a[m] < b[m]
  }

  /** The order of tries is the byte order of keys. */
  lemma ByteOrder(a: Key, b: Key)
    requires |a| == |b| && |a| % 2 == 0
    ensures BytesLess(Bytes(a), Bytes(b)) <==> Before(a, b)
  {
    var x, y := Bytes(a), Bytes(b);
    if BytesLess(x, y) {
      var m :| 0 <= m < |x| && x[..m] == y[..m] && x[m] < y[m];
      BytesLessBefore(a, b, m);
    }
    if Before(a, b) {
      BeforeBytesLess(a, b);
    }
  }

  lemma ByteAt(a: Key, i: nat)
    requires |a| % 2 == 0 && i < |a| / 2
    ensures Bytes(a)[i] == ByteOf(a[2 * i], a[2 * i + 1])
  {
  }

  lemma ByteEqual(a: Nibble, b: Nibble, c: Nibble, d: Nibble)
    ensures ByteOf(a, b) == ByteOf(c, d) <==> a == c && b == d
    ensures ByteOf(a, b) < ByteOf(c, d) <==> a < c || (a == c && b < d)
  {
  }

  /** Equal leading bytes are equal leading nibbles. */
  lemma SameBytes(a: Key, b: Key, m: nat)
    requires |a| == |b| && |a| % 2 == 0 && m <= |a| / 2
    ensures Bytes(a)[..m] == Bytes(b)[..m] <==> a[..2 * m] == b[..2 * m]
  {
    for h := 0 to m
      invariant Bytes(a)[..h] == Bytes(b)[..h] <==> a[..2 * h] == b[..2 * h]
    {
      ByteAt(a, h);
      ByteAt(b, h);
      ByteEqual(a[2 * h], a[2 * h + 1], b[2 * h], b[2 * h + 1]);
      MoreBytes(a, h);
      MoreBytes(b, h);
    }
  }

  lemma MoreBytes(a: Key, h: nat)
    requires |a| % 2 == 0 && h < |a| / 2
    ensures Bytes(a)[..h + 1] == Bytes(a)[..h] + [Bytes(a)[h]]
    ensures a[..2 * (h + 1)] == a[..2 * h] + [a[2 * h], a[2 * h + 1]]
  {
  }

  lemma BytesLessBefore(a: Key, b: Key, m: nat)
    requires |a| == |b| && |a| % 2 == 0 && m < |a| / 2
    requires Bytes(a)[..m] == Bytes(b)[..m] && Bytes(a)[m] < Bytes(b)[m]
    ensures Before(a, b)
  {
    SameBytes(a, b, m);
    ByteAt(a, m);
    ByteAt(b, m);
    ByteEqual(a[2 * m], a[2 * m + 1], b[2 * m], b[2 * m + 1]);
    if a[2 * m] == b[2 * m] {
      assert a[..2 * m + 1] == a[..2 * m] + [a[2 * m]];
      assert b[..2 * m + 1] == b[..2 * m] + [b[2 * m]];
      BeforeAt(a, b, 2 * m + 1);
    } else {
      BeforeAt(a, b, 2 * m);
    }
  }

  lemma BeforeBytesLess(a: Key, b: Key)
    requires |a| == |b| && |a| % 2 == 0 && Before(a, b)
    ensures BytesLess(Bytes(a), Bytes(b))
  {
    var n := MatchLen(a, b);
    var m := n / 2;
    assert a[..2 * m] == a[..n][..2 * m] == b[..n][..2 * m] == b[..2 * m];
    SameBytes(a, b, m);
    ByteAt(a, m);
    ByteAt(b, m);
    ByteEqual(a[2 * m], a[2 * m + 1], b[2 * m], b[2 * m + 1]);
    if n == 2 * m + 1 {
      assert a[2 * m] == a[..n][2 * m] == b[..n][2 * m] == b[2 * m];
    }
  }
}
