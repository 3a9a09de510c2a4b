/**
 Insertion, merging and deletion.

 Each method is one node-level routine of the tries; it returns the node's new value and the metadata change
 it reports to its parent. Contracts say what the node stands for afterwards, that it is canonical, and that the
 reported change is exactly the change of the node's cached metadata. By `Canonical.CanonUnique` the first two
 determine the resulting node completely.
 */
module TrieOps {
  import opened Keys
  import opened Trie
  import opened Canonical

  // ---- Rebuilding one node ------------------------------------------------------------------------------

  /** `n` with slot `i` replaced by `c` and the cached metadata adjusted by the child's change. */
  function SetSlot<V>(n: Node<V>, i: Nibble, c: Node<V>): Node<V>
    requires n.Branch? && |n.children| == 16
  {
    Branch(n.prefix, n.children[i := c], Plus(n.meta, Minus(MetaOf(c), MetaOf(n.children[i]))))
  }

  lemma SetSlotShaped<V>(n: Node<V>, L: nat, i: Nibble, c: Node<V>)
    requires n.Branch? && Shaped(n, L)
    requires c.Empty? || (Shaped(c, L) && UnderSlot(c, n.prefix, i))
    ensures Shaped(SetSlot(n, i, c), L)
    ensures MetaOf(SetSlot(n, i, c)) == Plus(MetaOf(n), Minus(MetaOf(c), MetaOf(n.children[i])))
  {
    var r := SetSlot(n, i, c);
    KidsUpdate(n.children, i, c);
    assert forall j: Nibble :: r.children[j] == if j == i then c else n.children[j];
    assert forall j: Nibble :: UnderSlot(n.children[j], n.prefix, j);
  }

  lemma SetSlotGet<V>(n: Node<V>, L: nat, i: Nibble, c: Node<V>, k: Key)
    requires n.Branch? && Shaped(n, L)
    requires c.Empty? || (Shaped(c, L) && UnderSlot(c, n.prefix, i))
    ensures Get(SetSlot(n, i, c), k) == if InSlot(k, n.prefix, i) then Get(c, k) else Get(n, k)
  {
    var r := SetSlot(n, i, c);
    SetSlotShaped(n, L, i, c);
    BranchGet(r, L, k);
    BranchGet(n, L, k);
  }

  lemma SetSlotCompact<V>(n: Node<V>, i: Nibble, c: Node<V>)
    requires n.Branch? && |n.children| == 16 && Compact(n)
    requires !c.Empty? && Compact(c)
    ensures Compact(SetSlot(n, i, c))
  {
    KidsUpdate(n.children, i, c);
  }

  /** Sixteen slots, two of them taken. */
  function TwoSlots<V>(i: Nibble, a: Node<V>, j: Nibble, b: Node<V>): seq<Node<V>>
    requires i != j
  {
    NoKids()[i := a][j := b]
  }

  lemma TwoSlotsSum<V>(i: Nibble, a: Node<V>, j: Nibble, b: Node<V>, none: seq<Node<V>>)
    requires i != j && !a.Empty? && !b.Empty?
    requires |none| == 16 && forall h: Nibble :: none[h].Empty?
    ensures Kids(none[i := a][j := b]) == 2
    ensures SumMeta(none[i := a][j := b]) == Plus(MetaOf(a), MetaOf(b))
  {
    NoKidsCount(none);
    KidsUpdate(none, i, a);
    KidsUpdate(none[i := a], j, b);
  }

  /** The common parent of two nodes whose prefixes part after `p`. */
  function Join<V>(p: Key, a: Node<V>, b: Node<V>): Node<V>
    requires !a.Empty? && !b.Empty?
    requires Splits(p, PrefixOf(a), PrefixOf(b))
  {
    Branch(p, TwoSlots(PrefixOf(a)[|p|], a, PrefixOf(b)[|p|], b), Plus(MetaOf(a), MetaOf(b)))
  }

  lemma JoinShaped<V>(p: Key, a: Node<V>, b: Node<V>, L: nat)
    requires Shaped(a, L) && Shaped(b, L)
    requires Splits(p, PrefixOf(a), PrefixOf(b))
    ensures Shaped(Join(p, a, b), L)
    ensures Compact(a) && Compact(b) ==> Compact(Join(p, a, b))
  {
    var i, j := PrefixOf(a)[|p|], PrefixOf(b)[|p|];
    TwoSlotsSum(i, a, j, b, NoKids());
    assert UnderSlot(a, p, i) && UnderSlot(b, p, j);
    PrefixBound(a, L);
  }

  lemma PrefixBound<V>(a: Node<V>, L: nat)
    requires Shaped(a, L)
    ensures |PrefixOf(a)| <= L
  {
  }

  lemma JoinGet<V>(p: Key, a: Node<V>, b: Node<V>, L: nat, k: Key)
    requires Shaped(a, L) && Shaped(b, L)
    requires Splits(p, PrefixOf(a), PrefixOf(b))
    ensures Get(Join(p, a, b), k) == if Get(a, k).Some? then Get(a, k) else Get(b, k)
    ensures Get(a, k).None? || Get(b, k).None?
  {
    JoinShaped(p, a, b, L);
    BranchGet(Join(p, a, b), L, k);
    SlotKeys(a, L, p, PrefixOf(a)[|p|], k);
    SlotKeys(b, L, p, PrefixOf(b)[|p|], k);
  }

  // ---- Insertion ------------------------------------------------------------------------------------------

  /** `TrieNode::_insert`; `e` carries the metadata the insert functor gives a fresh leaf. */
  method Insert<V>(n: Node<V>, L: nat, key: Key, e: Entry<V>) returns (r: Node<V>, delta: Meta)
    requires CanonTrie(n, L) && |key| == L
    ensures Canon(r, L)
    ensures Contents(r) == Contents(n)[key := e]
    ensures delta == Minus(MetaOf(r), MetaOf(n))
    decreases n, 1
  {
    if n.Empty? {
      return Leaf(key, e), e.meta;
    }
    var m := MatchLen(PrefixOf(n), key);
    if m < |PrefixOf(n)| {
      PrefixBound(n, L);
      r := Join(key[..m], Leaf(key, e), n);
      delta := e.meta;
      JoinInsert(key[..m], n, L, key, e);
    } else if n.Leaf? {
      assert n.key == n.key[..m] == key[..m] == key;
      r := Leaf(key, e);
      delta := Minus(e.meta, n.entry.meta);
    } else {
      r, delta := InsertBelow(n, L, key, e);
    }
  }

  method InsertBelow<V>(n: Node<V>, L: nat, key: Key, e: Entry<V>) returns (r: Node<V>, delta: Meta)
    requires n.Branch? && Canon(n, L) && |key| == L && n.prefix <= key
    ensures Canon(r, L)
    ensures Contents(r) == Contents(n)[key := e]
    ensures delta == Minus(MetaOf(r), MetaOf(n))
    decreases n, 0
  {
    var b := key[|n.prefix|];
    var c;
    if n.children[b].Empty? {
      c, delta := Leaf(key, e), e.meta;
    } else {
      c, delta := Insert(n.children[b], L, key, e);
    }
    InsertedSlot(n, L, b, c, key, e);
    r := SetSlot(n, b, c);
  }

  lemma JoinInsert<V>(p: Key, n: Node<V>, L: nat, key: Key, e: Entry<V>)
    requires Canon(n, L) && |key| == L
    requires Splits(p, key, PrefixOf(n))
    ensures Canon(Join(p, Leaf(key, e), n), L)
    ensures Contents(Join(p, Leaf(key, e), n)) == Contents(n)[key := e]
  {
    var a := Leaf(key, e);
    JoinShaped(p, a, n, L);
    var r := Join(p, a, n);
    forall k ensures Get(r, k) == if k == key then Some(e) else Get(n, k) {
      JoinGet(p, a, n, L, k);
    }
    InsertedContents(r, n, key, e);
  }

  lemma InsertedContents<V>(r: Node<V>, n: Node<V>, key: Key, e: Entry<V>)
    requires forall k :: Get(r, k) == if k == key then Some(e) else Get(n, k)
    ensures Contents(r) == Contents(n)[key := e]
  {
    forall k ensures k in Contents(r) <==> k in Contents(n)[key := e] {
      assert Get(r, k) == if k == key then Some(e) else Get(n, k);
    }
    forall k | k in Contents(r) ensures Contents(r)[k] == Contents(n)[key := e][k] {
      assert Get(r, k) == if k == key then Some(e) else Get(n, k);
    }
  }

  /** All keys of a non-empty canonical node lie under `q`: so does its prefix. */
  lemma KeysUnder<V>(c: Node<V>, L: nat, q: Key)
    requires Canon(c, L)
    requires forall k :: k in Contents(c) ==> q <= k
    ensures q <= PrefixOf(c)
  {
    var k := HasKey(c, L);
    if c.Branch? {
      BranchIsBranchPoint(c, L);
      var a, b :| a in Contents(c) && b in Contents(c) && Splits(c.prefix, a, b);
      SplitsBound(c.prefix, q, a, b);
    }
  }

  lemma InsertStaysUnder<V>(n: Node<V>, L: nat, b: Nibble, c: Node<V>, key: Key)
    requires n.Branch? && Canon(n, L)
    requires |key| == L && InSlot(key, n.prefix, b)
    requires Canon(c, L) && Contents(c).Keys == Contents(n.children[b]).Keys + {key}
    ensures UnderSlot(c, n.prefix, b)
  {
    var q := n.prefix + [b];
    assert UnderSlot(n.children[b], n.prefix, b);
    forall k | k in Contents(c) ensures q <= k {
      if k != key {
        ContentsUnder(n.children[b], L, k);
      }
    }
    KeysUnder(c, L, q);
  }

  lemma InsertedSlot<V>(n: Node<V>, L: nat, b: Nibble, c: Node<V>, key: Key, e: Entry<V>)
    requires n.Branch? && Canon(n, L) && InSlot(key, n.prefix, b) && |key| == L
    requires Canon(c, L) && Contents(c) == Contents(n.children[b])[key := e]
    ensures Canon(SetSlot(n, b, c), L)
    ensures Contents(SetSlot(n, b, c)) == Contents(n)[key := e]
  {
    InsertStaysUnder(n, L, b, c, key);
    SetSlotShaped(n, L, b, c);
    SetSlotCompact(n, b, c);
    var r := SetSlot(n, b, c);
    forall k ensures Get(r, k) == if k == key then Some(e) else Get(n, k) {
      SetSlotGet(n, L, b, c, k);
      SlotGet(n, L, b, k);
    }
    InsertedContents(r, n, key, e);
  }
}
