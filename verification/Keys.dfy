/**
 Trie keys as sequences of nibbles.

 A key of `KEY_LEN_BYTES` bytes is read as `2 * KEY_LEN_BYTES` nibbles, high nibble first, so byte-wise
 `memcmp` order on equally long keys is the lexicographic order `Before` below.
 */
module Keys {
  type Nibble = n: int | 0 <= n < 16

  type Key = seq<Nibble>

  /** The length, in nibbles, of the longest common prefix (`get_prefix_match_len`). */
  function MatchLen(a: Key, b: Key): (m: nat)
    ensures m <= |a| && m <= |b|
    ensures a[..m] == b[..m]
    ensures m < |a| && m < |b| ==> a[m] != b[m]
  {
    if a != [] && b != [] && a[0] == b[0] then
      var m := MatchLen(a[1..], b[1..]);
      assert a[..m + 1] == [a[0]] + a[1..][..m];
      assert b[..m + 1] == [b[0]] + b[1..][..m];
      m + 1
    else
      0
  }

  lemma MatchLenUnique(a: Key, b: Key, m: nat)
    requires m < |a| && m < |b|
    requires a[..m] == b[..m] && a[m] != b[m]
    ensures MatchLen(a, b) == m
  {
    var n := MatchLen(a, b);
    assert a[..n] == b[..n];
    assert forall i :: 0 <= i < m ==> a[..m][i] == b[..m][i];
    assert forall i :: 0 <= i < n ==> a[..n][i] == b[..n][i];
  }

  lemma MatchLenPrefix(p: Key, k: Key)
    ensures MatchLen(p, k) == |p| <==> p <= k
  {
    if p <= k {
      assert forall i :: 0 <= i < |p| ==> p[i] == k[i];
    }
  }

  /** A match of full length is a prefix. */
  lemma MatchWhole(a: Key, b: Key)
    ensures MatchLen(a, b) == |a| ==> a <= b
    ensures MatchLen(a, b) == |b| ==> b <= a
  {
    var m := MatchLen(a, b);
    assert a[..m] == b[..m];
  }

  /** Of two prefixes of one key, one is a prefix of the other. */
  lemma TwoPrefixes(p: Key, q: Key, k: Key)
    ensures p <= k && q <= k ==> p <= q || q <= p
  {
  }

  /** Strict lexicographic order (on keys of one length, the order of `memcmp`). */
  predicate Before(a: Key, b: Key) {
    var m := MatchLen(a, b);
    m < |a| && m < |b| && a[m] < b[m]
  }

  lemma BeforeAt(a: Key, b: Key, m: nat)
    requires m < |a| && m < |b|
    requires a[..m] == b[..m]
    requires a[m] < b[m]
    ensures Before(a, b)
  {
    MatchLenUnique(a, b, m);
  }

  lemma BeforeIrreflexive(a: Key)
    ensures !Before(a, a)
  {
  }

  lemma BeforeTrans(a: Key, b: Key, c: Key)
    requires Before(a, b) && Before(b, c)
    ensures Before(a, c)
  {
    var m, n := MatchLen(a, b), MatchLen(b, c);
    var l := if m < n then m else n;
    assert a[..l] == a[..m][..l] == b[..m][..l] == b[..l];
    assert c[..l] == c[..n][..l] == b[..n][..l] == b[..l];
    if m < n {
      assert b[m] == b[..n][m] == c[..n][m] == c[m];
    } else if n < m {
      assert a[n] == a[..m][n] == b[..m][n] == b[n];
    }
    BeforeAt(a, c, l);
  }

  lemma BeforeTotal(a: Key, b: Key)
    requires |a| == |b|
    ensures Before(a, b) || a == b || Before(b, a)
  {
    var m := MatchLen(a, b);
    if m < |a| {
      if a[m] < b[m] {
        BeforeAt(a, b, m);
      } else {
        BeforeAt(b, a, m);
      }
    } else {
      assert a == a[..m] && b == b[..m];
    }
  }

  lemma BeforeAsymmetric(a: Key, b: Key)
    requires Before(a, b)
    ensures a != b && !Before(b, a)
  {
    if Before(b, a) {
      BeforeTrans(a, b, a);
    }
  }

  /** A key lying between two extensions of `p` extends `p` itself. */
  lemma Between(p: Key, x: Key, k: Key, y: Key)
    requires |p| <= |k|
    requires p <= x && p <= y
    requires Before(x, k) || x == k
    requires Before(k, y) || k == y
    ensures p <= k
  {
    var m := MatchLen(p, k);
    if m < |p| {
      if x != k {
        var a := MatchLen(x, k);
        if p[m] > k[m] {
          assert x[..m] == p[..m] == k[..m];
          assert x[m] == p[m];
          BeforeAt(k, x, m);
          BeforeAsymmetric(k, x);
        }
      }
      if k != y {
        if p[m] < k[m] {
          assert y[..m] == p[..m] == k[..m];
          assert y[m] == p[m];
          BeforeAt(y, k, m);
          BeforeAsymmetric(y, k);
        }
      }
    } else {
      MatchLenPrefix(p, k);
    }
  }
}
