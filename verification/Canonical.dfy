/**
 Canonical tries are determined by the map they stand for, so every sequence of operations that reaches the
 same map reaches the same nodes, the same cached metadata and (see `TrieHash`) the same root hash.
 */
module Canonical {
  import opened Keys
  import opened Trie

  // ---- Counting and summing over child slots ------------------------------------------------------------

  lemma MetaGroup(a: Meta, b: Meta)
    ensures Plus(a, Zero) == a && Plus(Zero, a) == a
    ensures Plus(a, b) == Plus(b, a)
    ensures Plus(a, Minus(b, a)) == b
    ensures Minus(Plus(a, b), a) == b
  {
  }

  function Present<V>(c: Node<V>): nat {
    if c.Empty? then 0 else 1
  }

  lemma {:induction false} KidsUpdate<V>(cs: seq<Node<V>>, i: nat, c: Node<V>)
    requires i < |cs|
    ensures Kids(cs[i := c]) == Kids(cs) - Present(cs[i]) + Present(c)
    ensures SumMeta(cs[i := c]) == Plus(Minus(SumMeta(cs), MetaOf(cs[i])), MetaOf(c))
  {
    var last := |cs| - 1;
    var init := cs[..last];
    if i == last {
      assert cs[i := c][..last] == init;
    } else {
      KidsUpdate(init, i, c);
      assert cs[i := c][..last] == init[i := c];
    }
  }

  lemma {:induction false} NoKidsCount<V>(cs: seq<Node<V>>)
    requires forall i :: 0 <= i < |cs| ==> cs[i].Empty?
    ensures Kids(cs) == 0 && SumMeta(cs) == Zero
  {
    if cs != [] {
      NoKidsCount(cs[..|cs| - 1]);
    }
  }

  /** At least one child: find it. */
  lemma {:induction false} SomeKid<V>(cs: seq<Node<V>>) returns (i: nat)
    requires Kids(cs) >= 1
    ensures i < |cs| && !cs[i].Empty?
  {
    var last := |cs| - 1;
    if cs[last].Empty? {
      i := SomeKid(cs[..last]);
    } else {
      i := last;
    }
  }

  /** At least two children: find a second one. */
  lemma OtherKid<V>(cs: seq<Node<V>>, i: nat) returns (j: nat)
    requires Kids(cs) >= 2 && i < |cs|
    ensures j < |cs| && j != i && !cs[j].Empty?
  {
    KidsUpdate(cs, i, Empty);
    j := SomeKid(cs[i := Empty]);
  }

  lemma {:induction false} KidPresent<V>(cs: seq<Node<V>>, i: nat)
    requires i < |cs| && !cs[i].Empty?
    ensures Kids(cs) >= 1
  {
    KidsUpdate(cs, i, Empty);
  }

  lemma TwoKids<V>(cs: seq<Node<V>>, i: nat, j: nat)
    requires i < |cs| && j < |cs| && i != j && !cs[i].Empty? && !cs[j].Empty?
    ensures Kids(cs) >= 2
  {
    KidsUpdate(cs, i, Empty);
    KidPresent(cs[i := Empty], j);
  }

  /** A lone child is the only one. */
  lemma LoneKid<V>(cs: seq<Node<V>>, i: nat)
    requires Kids(cs) == 1 && i < |cs| && !cs[i].Empty?
    ensures forall j :: 0 <= j < |cs| && j != i ==> cs[j].Empty?
    ensures SumMeta(cs) == MetaOf(cs[i])
  {
    forall j | 0 <= j < |cs| && j != i
      ensures cs[j].Empty?
    {
      if !cs[j].Empty? {
        TwoKids(cs, i, j);
      }
    }
    KidsUpdate(cs, i, Empty);
    NoKidsCount(cs[i := Empty]);
  }

  // ---- Keys of a canonical node --------------------------------------------------------------------------

  lemma {:induction false} HasKey<V>(n: Node<V>, L: nat) returns (k: Key)
    requires Canon(n, L)
    ensures k in Contents(n) && |k| == L && PrefixOf(n) <= k
  {
    match n
    case Leaf(key, _) =>
      k := key;
    case Branch(p, cs, _) =>
      var i := SomeKid(cs);
      k := SlotKey(n, L, i);
  }

  lemma {:induction false} SlotKey<V>(n: Node<V>, L: nat, i: Nibble) returns (k: Key)
    requires n.Branch? && Shaped(n, L) && !n.children[i].Empty? && Compact(n.children[i])
    ensures k in Contents(n) && |k| == L && n.prefix <= k && k[|n.prefix|] == i
    ensures k in Contents(n.children[i])
    decreases n.children[i]
  {
    var c := n.children[i];
    assert UnderSlot(c, n.prefix, i);
    k := HasKey(c, L);
    assert (n.prefix + [i])[|n.prefix|] == i;
    BranchGet(n, L, k);
  }

  /** `ks` holds two keys that first differ right after `p`. */
  ghost predicate BranchPoint(ks: set<Key>, p: Key) {
    exists a, b :: a in ks && b in ks && Splits(p, a, b)
  }

  ghost predicate Splits(p: Key, a: Key, b: Key) {
    && p <= a && p <= b
    && |p| < |a| && |p| < |b|
    && a[|p|] != b[|p|]
  }

  /** A common prefix of two keys is no longer than the point at which they part. */
  lemma SplitsBound(p: Key, q: Key, a: Key, b: Key)
    requires Splits(p, a, b) && q <= a && q <= b
    ensures |q| <= |p|
  {
  }

  lemma BranchIsBranchPoint<V>(n: Node<V>, L: nat)
    requires n.Branch? && Canon(n, L)
    ensures BranchPoint(Contents(n).Keys, n.prefix)
  {
    var i := SomeKid(n.children);
    var j := OtherKid(n.children, i);
    var a := SlotKey(n, L, i);
    var b := SlotKey(n, L, j);
    assert Splits(n.prefix, a, b);
  }

  /** A branch point that every key extends is the root prefix of the trie holding exactly those keys. */
  lemma BranchPointIsRoot<V>(n: Node<V>, L: nat, p: Key)
    requires Canon(n, L)
    requires BranchPoint(Contents(n).Keys, p)
    requires forall k :: k in Contents(n) ==> p <= k
    ensures n.Branch? && n.prefix == p
  {
    var a, b :| a in Contents(n) && b in Contents(n) && Splits(p, a, b);
    if n.Branch? {
      ContentsUnder(n, L, a);
      ContentsUnder(n, L, b);
      SplitsBound(p, n.prefix, a, b);
      BranchIsBranchPoint(n, L);
      var c, d :| c in Contents(n) && d in Contents(n) && Splits(n.prefix, c, d);
      SplitsBound(n.prefix, p, c, d);
      assert n.prefix == a[..|p|] == p;
    }
  }

  /** Canonical nodes with equal contents are equal, metadata included. */
  lemma {:induction false} CanonUnique<V>(m: Node<V>, n: Node<V>, L: nat)
    requires Canon(m, L) && Canon(n, L)
    requires Contents(m) == Contents(n)
    ensures m == n
    decreases m
  {
    if m.Leaf? && n.Leaf? {
      assert m.key in Contents(n);
    } else if m.Branch? {
      BranchIsBranchPoint(m, L);
      forall k | k in Contents(n) ensures m.prefix <= k {
        ContentsUnder(m, L, k);
      }
      BranchPointIsRoot(n, L, m.prefix);
      forall i: Nibble ensures m.children[i] == n.children[i] {
        forall k ensures Get(m.children[i], k) == Get(n.children[i], k) {
          SlotGet(m, L, i, k);
          SlotGet(n, L, i, k);
        }
        SameContents(m.children[i], n.children[i]);
        if !m.children[i].Empty? {
          var k := SlotKey(m, L, i);
          CanonUnique(m.children[i], n.children[i], L);
        } else if !n.children[i].Empty? {
          var k := SlotKey(n, L, i);
        }
      }
      assert m.children == n.children;
    } else {
      BranchIsBranchPoint(n, L);
      forall k | k in Contents(m) ensures n.prefix <= k {
        ContentsUnder(n, L, k);
      }
      BranchPointIsRoot(m, L, n.prefix);
    }
  }

  lemma SlotGet<V>(n: Node<V>, L: nat, i: Nibble, k: Key)
    requires n.Branch? && Shaped(n, L)
    ensures Get(n.children[i], k) == if InSlot(k, n.prefix, i) then Get(n, k) else None
  {
    BranchGet(n, L, k);
    if !n.children[i].Empty? {
      SlotKeys(n.children[i], L, n.prefix, i, k);
    }
  }

  lemma CanonTrieUnique<V>(m: Node<V>, n: Node<V>, L: nat)
    requires CanonTrie(m, L) && CanonTrie(n, L)
    requires Contents(m) == Contents(n)
    ensures m == n
  {
    if !m.Empty? {
      var k := HasKey(m, L);
      CanonUnique(m, n, L);
    } else if !n.Empty? {
      var k := HasKey(n, L);
    }
  }
}
