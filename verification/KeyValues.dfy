/**
 Big-endian numbers as nibble sequences: how prices, account ids and offer ids become key bytes, and why byte order
 on keys is numeric order.
 */
module KeyValues {
  import opened Keys
  import opened Products

  function Pow16(n: nat): nat {
    if n == 0 then 1 else 16 * Pow16(n - 1)
  }

  /** The number whose big-endian nibbles are `k` (`read_price_big_endian`). */
  function Value(k: Key): nat {
    if k == [] then 0 else 16 * Value(k[..|k| - 1]) + k[|k| - 1]
  }

  lemma Pow16Positive(n: nat)
    ensures Pow16(n) > 0
  {
  }

  /** The `n` low nibbles of `v`, most significant first (`write_unsigned_big_endian`). */
  function Digits(v: nat, n: nat): (k: Key)
    ensures |k| == n
  {
    seq(n, i requires 0 <= i < n => Pow16Positive(n - 1 - i); (v / Pow16(n - 1 - i)) % 16)
  }

  lemma DivTwice(v: nat, p: nat)
    requires p > 0
    ensures v / (16 * p) == (v / 16) / p
  {
    var q := (v / 16) / p;
    var r := (v / 16) % p;
    assert v / 16 == q * p + r;
    assert v == 16 * (q * p + r) + v % 16;
    assert v == q * (16 * p) + (16 * r + v % 16);
    assert 16 * r + v % 16 < 16 * p;
    DivUnique(v, 16 * p, q, 16 * r + v % 16);
  }

  lemma DivUnique(v: nat, d: nat, q: nat, r: nat)
    requires d > 0 && v == q * d + r && r < d
    ensures v / d == q
  {
    var p := v / d;
    assert v == p * d + v % d;
    NextMultiple(p, q, d);
    NextMultiple(q, p, d);
    AddOne(p, d);
    AddOne(q, d);
  }

  lemma DigitsStep(v: nat, n: nat)
    requires n > 0
    ensures Digits(v, n) == Digits(v / 16, n - 1) + [v % 16]
  {
    var a, b := Digits(v, n), Digits(v / 16, n - 1);
    assert Pow16(0) == 1;
    assert a[n - 1] == (v / Pow16(0)) % 16;
    forall i | 0 <= i < n - 1 ensures a[i] == b[i] {
      Pow16Positive(n - 2 - i);
      assert Pow16(n - 1 - i) == 16 * Pow16(n - 2 - i);
      DivTwice(v, Pow16(n - 2 - i));
    }
  }

  lemma {:induction false} ValueOfDigits(v: nat, n: nat)
    requires v < Pow16(n)
    ensures Value(Digits(v, n)) == v
  {
    if n > 0 {
      ValueOfDigits(v / 16, n - 1);
      DigitsStep(v, n);
      assert Digits(v, n)[..n - 1] == Digits(v / 16, n - 1);
    }
  }

  lemma {:induction false} DigitsOfValue(k: Key)
    ensures Value(k) < Pow16(|k|) && Digits(Value(k), |k|) == k
  {
    if k != [] {
      var init, last := k[..|k| - 1], k[|k| - 1];
      DigitsOfValue(init);
      DigitsStep(Value(k), |k|);
      assert Value(k) / 16 == Value(init) && Value(k) % 16 == last;
      assert k == init + [last];
    }
  }

  lemma BeforeSnoc(a: Key, b: Key)
    requires |a| == |b| > 0
    ensures var i := |a| - 1;
            Before(a, b) <==> Before(a[..i], b[..i]) || (a[..i] == b[..i] && a[i] < b[i])
  {
    var i := |a| - 1;
    var x, y := a[..i], b[..i];
    var m := MatchLen(a, b);
    if m < i {
      assert x[..m] == a[..m] == b[..m] == y[..m];
      MatchLenUnique(x, y, m);
    } else if m == i {
      assert x == y;
      BeforeIrreflexive(x);
    } else {
      assert x == a[..m][..i] == b[..m][..i] == y;
      BeforeIrreflexive(x);
    }
  }

  /** On keys of one length, byte order is numeric order. */
  lemma {:induction false} BeforeIsLess(a: Key, b: Key)
    requires |a| == |b|
    ensures Before(a, b) <==> Value(a) < Value(b)
  {
    if a != [] {
      var i := |a| - 1;
      BeforeSnoc(a, b);
      BeforeIsLess(a[..i], b[..i]);
      ValueInjective(a[..i], b[..i]);
      LastDigit(Value(a[..i]), a[i], Value(b[..i]), b[i]);
    }
  }

  lemma ValueInjective(a: Key, b: Key)
    requires |a| == |b|
    ensures a == b <==> Value(a) == Value(b)
  {
    DigitsOfValue(a);
    DigitsOfValue(b);
  }

  lemma LastDigit(x: nat, a: Nibble, y: nat, b: Nibble)
    ensures 16 * x + a < 16 * y + b <==> x < y || (x == y && a < b)
  {
  }

  /** The order of two keys is decided by leading parts of one length, where these differ. */
  lemma BeforePart(a: Key, b: Key, n: nat)
    requires |a| == |b| && n <= |a|
    ensures Before(a[..n], b[..n]) ==> Before(a, b)
    ensures Before(a, b) ==> Before(a[..n], b[..n]) || a[..n] == b[..n]
  {
    var m := MatchLen(a, b);
    if Before(a[..n], b[..n]) {
      var l := MatchLen(a[..n], b[..n]);
      assert a[..l] == a[..n][..l] == b[..n][..l] == b[..l];
      BeforeAt(a, b, l);
    }
    if Before(a, b) {
      if m < n {
        assert a[..n][..m] == a[..m] == b[..m] == b[..n][..m];
        BeforeAt(a[..n], b[..n], m);
      } else {
        assert a[..n] == a[..m][..n] == b[..m][..n] == b[..n];
      }
    }
  }

  /** Behind a common part, the rest decides. */
  lemma BeforeBehind(a: Key, x: Key, y: Key)
    requires |x| == |y|
    ensures Before(a + x, a + y) <==> Before(x, y)
  {
    var n, s, t := |a|, a + x, a + y;
    if Before(x, y) {
      var m := MatchLen(x, y);
      assert s[..n + m] == a + x[..m] && t[..n + m] == a + y[..m];
      BeforeAt(s, t, n + m);
    }
    if Before(s, t) {
      var m := MatchLen(s, t);
      assert forall i :: 0 <= i < n ==> s[i] == t[i];
      assert x[..m - n] == s[..m][n..] && y[..m - n] == t[..m][n..];
      BeforeAt(x, y, m - n);
    }
  }

  /** Keys put together of parts of one length are ordered by the first parts, then by the second. */
  lemma BeforeConcat(a: Key, b: Key, x: Key, y: Key)
    requires |a| == |b| && |x| == |y|
    ensures Before(a + x, b + y) <==> Before(a, b) || (a == b && Before(x, y))
  {
    assert (a + x)[..|a|] == a && (b + y)[..|a|] == b;
    BeforePart(a + x, b + y, |a|);
    if a == b {
      BeforeBehind(a, x, y);
      BeforeIrreflexive(a);
    }
  }

  /** Numbers written in `n` nibbles are ordered as numbers. */
  lemma DigitsOrder(u: nat, v: nat, n: nat)
    requires u < Pow16(n) && v < Pow16(n)
    ensures Before(Digits(u, n), Digits(v, n)) <==> u < v
    ensures Digits(u, n) == Digits(v, n) <==> u == v
  {
    ValueOfDigits(u, n);
    ValueOfDigits(v, n);
    BeforeIsLess(Digits(u, n), Digits(v, n));
  }

  /** 12 nibbles are 48 bits, and 16 are 64. */
  lemma Pow16Bits()
    ensures Pow16(12) == 0x1_0000_0000_0000 && Pow16(16) == 0x1_0000_0000_0000_0000
  {
    assert Pow16(3) == 0x1000;
    assert Pow16(6) == 0x100_0000;
    assert Pow16(9) == 0x10_0000_0000;
    assert Pow16(12) == 0x1_0000_0000_0000;
    assert Pow16(14) == 0x100_0000_0000_0000;
  }
}
