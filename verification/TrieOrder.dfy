/**
 The leaves of a node in slot order: sorted by key, one item per key, and with metadata adding up to the
 metadata the node caches.
 */
module TrieOrder {
  import opened Keys
  import opened Trie
  import opened Canonical

  datatype Item<V> = Item(key: Key, entry: Entry<V>)

  ghost function Leaves<V>(n: Node<V>): seq<Item<V>>
    decreases n, 1
  {
    match n
    case Empty => []
    case Leaf(k, e) => [Item(k, e)]
    case Branch(_, cs, _) => LeavesOf(cs)
  }

  ghost function LeavesOf<V>(cs: seq<Node<V>>): seq<Item<V>>
    decreases cs, 0
  {
    if cs == [] then [] else LeavesOf(cs[..|cs| - 1]) + Leaves(cs[|cs| - 1])
  }

  lemma LeavesOfSnoc<V>(cs: seq<Node<V>>, c: Node<V>)
    ensures LeavesOf(cs + [c]) == LeavesOf(cs) + Leaves(c)
  {
    assert (cs + [c])[..|cs|] == cs;
  }

  lemma {:induction false} LeavesOfConcat<V>(a: seq<Node<V>>, b: seq<Node<V>>)
    ensures LeavesOf(a + b) == LeavesOf(a) + LeavesOf(b)
    decreases |b|
  {
    if b == [] {
      assert a + b == a;
    } else {
      var init, last := b[..|b| - 1], b[|b| - 1];
      LeavesOfConcat(a, init);
      LeavesOfSnoc(init, last);
      LeavesOfSnoc(a + init, last);
      assert b == init + [last] && a + b == a + init + [last];
    }
  }

  lemma Rejoin<T>(s: seq<T>, i: nat)
    requires i <= |s|
    ensures s[..i] + s[i..] == s
  {
  }

  lemma LeavesTake<V>(cs: seq<Node<V>>, i: nat)
    requires i < |cs|
    ensures LeavesOf(cs[..i + 1]) == LeavesOf(cs[..i]) + Leaves(cs[i])
  {
    assert cs[..i + 1][..i] == cs[..i];
  }

  /** The leaves of a node, cut at slot `i`. */
  lemma LeavesCut<V>(cs: seq<Node<V>>, i: nat)
    requires i < |cs|
    ensures LeavesOf(cs) == LeavesOf(cs[..i]) + Leaves(cs[i]) + LeavesOf(cs[i + 1..])
  {
    var front, back := cs[..i + 1], cs[i + 1..];
    calc {
      LeavesOf(cs);
    ==  { Rejoin(cs, i + 1); }
      LeavesOf(front + back);
    ==  { LeavesOfConcat(front, back); }
      LeavesOf(front) + LeavesOf(back);
    ==  { LeavesTake(cs, i); }
      LeavesOf(cs[..i]) + Leaves(cs[i]) + LeavesOf(back);
    }
  }

  lemma {:induction false} LeavesOfEmpty<V>(cs: seq<Node<V>>)
    requires forall i :: 0 <= i < |cs| ==> cs[i].Empty?
    ensures LeavesOf(cs) == []
  {
    if cs != [] {
      LeavesOfEmpty(cs[..|cs| - 1]);
    }
  }

  // ---- Leaves and contents -------------------------------------------------------------------------------

  lemma {:induction false} LeafPresent<V>(n: Node<V>, L: nat, x: Item<V>)
    requires Shaped(n, L) && x in Leaves(n)
    ensures Get(n, x.key) == Some(x.entry)
  {
    if n.Branch? {
      var i := LeafSlot(n.children, x);
      LeafPresent(n.children[i], L, x);
      SlotGet(n, L, i, x.key);
    }
  }

  lemma {:induction false} LeafSlot<V>(cs: seq<Node<V>>, x: Item<V>) returns (i: nat)
    requires x in LeavesOf(cs)
    ensures i < |cs| && x in Leaves(cs[i])
  {
    if x in Leaves(cs[|cs| - 1]) {
      i := |cs| - 1;
    } else {
      i := LeafSlot(cs[..|cs| - 1], x);
    }
  }

  lemma {:induction false} PresentLeaf<V>(n: Node<V>, L: nat, k: Key)
    requires Shaped(n, L) && Get(n, k).Some?
    ensures Item(k, Get(n, k).value) in Leaves(n)
  {
    if n.Branch? {
      BranchGet(n, L, k);
      var i := k[|n.prefix|];
      PresentLeaf(n.children[i], L, k);
      LeavesCut(n.children, i);
    }
  }

  // ---- Order ---------------------------------------------------------------------------------------------

  ghost predicate Sorted<V>(s: seq<Item<V>>) {
    forall i, j :: 0 <= i < j < |s| ==> Before(s[i].key, s[j].key)
  }

  lemma SortedConcat<V>(s: seq<Item<V>>, t: seq<Item<V>>)
    requires Sorted(s) && Sorted(t)
    requires forall x, y :: x in s && y in t ==> Before(x.key, y.key)
    ensures Sorted(s + t)
  {
    var u := s + t;
    forall i, j | 0 <= i < j < |u| ensures Before(u[i].key, u[j].key) {
      if i < |s| && |s| <= j {
        assert s[i] in s && t[j - |s|] in t;
      }
    }
  }

  lemma {:induction false} LeavesSorted<V>(n: Node<V>, L: nat)
    requires Shaped(n, L)
    ensures Sorted(Leaves(n))
    decreases n, 1
  {
    if n.Branch? {
      SlotsSorted(n, L, 16);
      assert n.children[..16] == n.children;
    }
  }

  lemma {:induction false} SlotsSorted<V>(n: Node<V>, L: nat, h: nat)
    requires n.Branch? && Shaped(n, L) && h <= 16
    ensures Sorted(LeavesOf(n.children[..h]))
    ensures forall x :: x in LeavesOf(n.children[..h]) ==>
                          n.prefix <= x.key && |n.prefix| < |x.key| && x.key[|n.prefix|] < h
    decreases n, 0, h
  {
    if h > 0 {
      SlotsSorted(n, L, h - 1);
      LeavesTake(n.children, h - 1);
      var i: Nibble := h - 1;
      var c := n.children[i];
      if !c.Empty? {
        LeavesSorted(c, L);
        forall x | x in Leaves(c) ensures InSlot(x.key, n.prefix, i) {
          LeafPresent(c, L, x);
          SlotKeys(c, L, n.prefix, i, x.key);
        }
        var s := LeavesOf(n.children[..h - 1]);
        forall x, y | x in s && y in Leaves(c) ensures Before(x.key, y.key) {
          BeforeAt(x.key, y.key, |n.prefix|);
        }
        SortedConcat(s, Leaves(c));
      }
    }
  }

  /** Two sorted lists with the same items are equal. */
  lemma {:induction false} SortedUnique<V>(s: seq<Item<V>>, t: seq<Item<V>>)
    requires Sorted(s) && Sorted(t)
    requires forall x :: x in s <==> x in t
    ensures s == t
  {
    assert t != [] ==> t[0] in t;
    assert s != [] ==> s[0] in s;
    if s != [] {
      assert s[0] in t;
      assert t != [];
      assert t[0] in s;
      var i :| 0 <= i < |t| && t[i] == s[0];
      var j :| 0 <= j < |s| && s[j] == t[0];
      if i > 0 && j > 0 {
        BeforeAsymmetric(t[0].key, t[i].key);
      }
      assert s[0] == t[0];
      var u, v := s[1..], t[1..];
      forall x ensures x in u <==> x in v {
        TailItems(s, x);
        TailItems(t, x);
      }
      SortedUnique(u, v);
      assert s == [s[0]] + u && t == [t[0]] + v;
    }
  }

  lemma TailItems<V>(s: seq<Item<V>>, x: Item<V>)
    requires Sorted(s) && s != []
    ensures x in s[1..] <==> x in s && x != s[0]
  {
    if x in s[1..] {
      var i :| 0 <= i < |s[1..]| && s[1..][i] == x;
      assert x == s[i + 1];
      BeforeAsymmetric(s[0].key, s[i + 1].key);
    }
    if x in s && x != s[0] {
      var i :| 0 <= i < |s| && s[i] == x;
      assert x == s[1..][i - 1];
    }
  }

  // ---- Sums ----------------------------------------------------------------------------------------------

  ghost function Total<V>(s: seq<Item<V>>): Meta {
    if s == [] then Zero else Plus(Total(s[..|s| - 1]), s[|s| - 1].entry.meta)
  }

  lemma {:induction false} TotalConcat<V>(s: seq<Item<V>>, t: seq<Item<V>>)
    ensures Total(s + t) == Plus(Total(s), Total(t))
    decreases |t|
  {
    if t == [] {
      assert s + t == s;
    } else {
      TotalConcat(s, t[..|t| - 1]);
      assert (s + t)[..|s + t| - 1] == s + t[..|t| - 1];
    }
  }

  /** The cached metadata of a node is the sum over its leaves. */
  lemma {:induction false} CachedTotal<V>(n: Node<V>, L: nat)
    requires n.Empty? || Shaped(n, L)
    ensures MetaOf(n) == Total(Leaves(n))
    decreases n, 1
  {
    if n.Leaf? {
      assert Leaves(n)[..0] == [];
    } else if n.Branch? {
      CachedTotalOf(n.children, L);
    }
  }

  lemma {:induction false} CachedTotalOf<V>(cs: seq<Node<V>>, L: nat)
    requires forall c :: c in cs ==> c.Empty? || Shaped(c, L)
    ensures SumMeta(cs) == Total(LeavesOf(cs))
    decreases cs, 0
  {
    if cs != [] {
      CachedTotalOf(cs[..|cs| - 1], L);
      CachedTotal(cs[|cs| - 1], L);
      TotalConcat(LeavesOf(cs[..|cs| - 1]), Leaves(cs[|cs| - 1]));
    }
  }
}
