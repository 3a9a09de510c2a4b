/**
 `clean_singlechild_nodes`: after a split, single-child branches of the split-off trie lie only on the path to
 the threshold key, so cleaning that path restores canonical form.
 */
module TrieClean {
  import opened Keys
  import opened Trie
  import opened Canonical
  import opened TrieMerge
  import opened TrieDelete
  import opened TrieSplit

  /** Every branch has a child, and a branch with only one lies on the path to `key`. */
  ghost predicate PathOnly<V>(n: Node<V>, key: Key) {
    n.Branch? ==>
      && Kids(n.children) >= 1
      && (Kids(n.children) == 1 ==> n.prefix <= key)
      && (forall c :: c in n.children ==> PathOnly(c, key))
  }

  /** Away from the path a `PathOnly` node is compact. */
  lemma {:induction false} OffPathCompact<V>(n: Node<V>, L: nat, key: Key)
    requires Shaped(n, L) && PathOnly(n, key)
    requires !(PrefixOf(n) <= key)
    ensures Compact(n)
  {
    if n.Branch? {
      forall i: Nibble ensures Compact(n.children[i]) {
        var c := n.children[i];
        if !c.Empty? {
          assert UnderSlot(c, n.prefix, i);
          OffPathCompact(c, L, key);
        }
      }
    }
  }

  /** Nodes on the longest way down. */
  ghost function Height<V>(n: Node<V>): nat
    decreases n, 1
  {
    if n.Branch? then 1 + HeightOf(n.children) else 0
  }

  ghost function HeightOf<V>(cs: seq<Node<V>>): nat
    decreases cs, 0
  {
    if cs == [] then 0
    else
      var h, last := HeightOf(cs[..|cs| - 1]), Height(cs[|cs| - 1]);
      if h < last then last else h
  }

  lemma {:induction false} ChildLower<V>(cs: seq<Node<V>>, i: nat)
    requires i < |cs|
    ensures Height(cs[i]) <= HeightOf(cs)
  {
    if i < |cs| - 1 {
      ChildLower(cs[..|cs| - 1], i);
    }
  }

  // ---- Contracting the children --------------------------------------------------------------------------------

  /** `r` is `n` with a chain of single-child branches at its top skipped. */
  ghost predicate Skipped<V>(r: Node<V>, n: Node<V>, L: nat, key: Key) {
    && Shaped(r, L) && PathOnly(r, key)
    && !n.Empty? && PrefixOf(n) <= PrefixOf(r)
    && MetaOf(r) == MetaOf(n)
    && Height(r) <= Height(n)
    && forall k :: Get(r, k) == Get(n, k)
  }

  /** The inner loop on one child: while it has a single child, it gives way to it. */
  method ContractChain<V>(n: Node<V>, L: nat, key: Key) returns (r: Node<V>)
    requires Shaped(n, L) && PathOnly(n, key)
    ensures Skipped(r, n, L, key)
    ensures r.Branch? ==> Kids(r.children) >= 2
  {
    r := n;
    while r.Branch? && Kids(r.children) == 1
      invariant Skipped(r, n, L, key)
      decreases Height(r)
    {
      SkipOne(r, n, L, key);
      r := r.children[Lowest(r.children, 0)];
    }
  }

  lemma SkipOne<V>(r: Node<V>, n: Node<V>, L: nat, key: Key)
    requires r.Branch? && Skipped(r, n, L, key) && Kids(r.children) == 1
    ensures var i := Lowest(r.children, 0);
            i < 16 && Skipped(r.children[i], n, L, key) && Height(r.children[i]) < Height(r)
  {
    LowestPresent(r.children);
    var i: Nibble := Lowest(r.children, 0);
    LoneKid(r.children, i);
    assert UnderSlot(r.children[i], r.prefix, i);
    ChildLower(r.children, i);
    forall k ensures Get(r.children[i], k) == Get(n, k) {
      BranchGet(r, L, k);
      SlotGet(r, L, i, k);
      assert Get(r, k) == Get(n, k);
    }
  }

  ghost predicate SlotContracted<V>(c: Node<V>, x: Node<V>, L: nat, key: Key) {
    if x.Empty? then c.Empty? else Skipped(c, x, L, key) && (c.Branch? ==> Kids(c.children) >= 2)
  }

  method ContractChildren<V>(n: Node<V>, L: nat, key: Key) returns (cs: seq<Node<V>>)
    requires n.Branch? && Shaped(n, L) && PathOnly(n, key)
    ensures |cs| == 16 && Kids(cs) == Kids(n.children) && SumMeta(cs) == n.meta
    ensures forall j: Nibble :: SlotContracted(cs[j], n.children[j], L, key)
  {
    cs := n.children;
    ghost var kids := Kids(cs);
    for i: int := 0 to 16
      invariant |cs| == 16 && Kids(cs) == kids && SumMeta(cs) == n.meta
      invariant forall j: Nibble :: i <= j ==> cs[j] == n.children[j]
      invariant forall j: Nibble :: j < i ==> SlotContracted(cs[j], n.children[j], L, key)
    {
      var j: Nibble := i;
      var c := ContractSlot(n, L, key, j);
      LikeForLike(cs, j, c);
      cs := cs[j := c];
    }
  }

  lemma LikeForLike<V>(cs: seq<Node<V>>, j: nat, c: Node<V>)
    requires j < |cs| && MetaOf(c) == MetaOf(cs[j]) && (c.Empty? <==> cs[j].Empty?)
    ensures Kids(cs[j := c]) == Kids(cs) && SumMeta(cs[j := c]) == SumMeta(cs)
  {
    KidsUpdate(cs, j, c);
  }

  method ContractSlot<V>(n: Node<V>, L: nat, key: Key, j: Nibble) returns (c: Node<V>)
    requires n.Branch? && Shaped(n, L) && PathOnly(n, key)
    ensures SlotContracted(c, n.children[j], L, key)
    ensures MetaOf(c) == MetaOf(n.children[j]) && (c.Empty? <==> n.children[j].Empty?)
  {
    c := n.children[j];
    if !c.Empty? {
      c := ContractChain(n.children[j], L, key);
    }
  }

  // ---- Cleaning the path -----------------------------------------------------------------------------------------

  ghost predicate SlotCleaned<V>(c: Node<V>, x: Node<V>, L: nat, p: Key, i: Nibble) {
    && (c.Empty? || (Canon(c, L) && UnderSlot(c, p, i)))
    && forall k :: Get(c, k) == Get(x, k)
  }

  ghost predicate Cleaned<V>(r: Node<V>, n: Node<V>, L: nat)
    requires !n.Empty?
  {
    && NearCanon(r, L) && PrefixOf(r) == PrefixOf(n) && MetaOf(r) == MetaOf(n)
    && (n.Branch? <==> r.Branch?)
    && (n.Branch? ==> Kids(r.children) == Kids(n.children))
    && forall k :: Get(r, k) == Get(n, k)
  }

  /** `TrieNode::clean_singlechild_nodes`. */
  method CleanNode<V>(n: Node<V>, L: nat, key: Key) returns (r: Node<V>)
    requires Shaped(n, L) && PathOnly(n, key) && |key| == L
    ensures Cleaned(r, n, L)
    decreases Height(n), 1
  {
    if n.Leaf? {
      return n;
    }
    var cs := ContractChildren(n, L, key);
    var b := key[|n.prefix|];
    var c := CleanPathChild(n, L, key, b, cs[b]);
    OffPathSlots(n, L, key, cs);
    FinishClean(n, L, cs, b, c);
    r := Branch(n.prefix, cs[b := c], n.meta);
  }

  method CleanPathChild<V>(n: Node<V>, L: nat, key: Key, b: Nibble, x: Node<V>) returns (c: Node<V>)
    requires n.Branch? && Shaped(n, L) && |key| == L
    requires SlotContracted(x, n.children[b], L, key)
    ensures SlotCleaned(c, n.children[b], L, n.prefix, b)
    ensures MetaOf(c) == MetaOf(x) && (c.Empty? <==> x.Empty?)
    decreases Height(n), 0
  {
    c := x;
    if !x.Empty? {
      ChildLower(n.children, b);
      c := CleanNode(x, L, key);
      PathSlot(n, L, key, b, x, c);
    }
  }

  lemma FinishClean<V>(n: Node<V>, L: nat, cs: seq<Node<V>>, b: Nibble, c: Node<V>)
    requires n.Branch? && Shaped(n, L) && Kids(n.children) >= 1
    requires |cs| == 16 && Kids(cs) == Kids(n.children) && SumMeta(cs) == n.meta
    requires OthersCleaned(cs, n, L, b) && SlotCleaned(c, n.children[b], L, n.prefix, b)
    requires MetaOf(c) == MetaOf(cs[b]) && (c.Empty? <==> cs[b].Empty?)
    ensures Cleaned(Branch(n.prefix, cs[b := c], n.meta), n, L)
  {
    LikeForLike(cs, b, c);
    CleanedBranch(cs[b := c], n, L);
  }

  ghost predicate OthersCleaned<V>(cs: seq<Node<V>>, n: Node<V>, L: nat, b: Nibble)
    requires |cs| == 16 && n.Branch? && |n.children| == 16
  {
    forall j: Nibble :: j != b ==> SlotCleaned(cs[j], n.children[j], L, n.prefix, j)
  }

  lemma OffPathSlots<V>(n: Node<V>, L: nat, key: Key, cs: seq<Node<V>>)
    requires n.Branch? && Shaped(n, L) && |key| == L && |cs| == 16
    requires forall j: Nibble :: SlotContracted(cs[j], n.children[j], L, key)
    ensures OthersCleaned(cs, n, L, key[|n.prefix|])
  {
    forall j: Nibble | j != key[|n.prefix|] ensures SlotCleaned(cs[j], n.children[j], L, n.prefix, j) {
      OffPathSlot(n, L, key, j, cs[j]);
    }
  }

  lemma OffPathSlot<V>(n: Node<V>, L: nat, key: Key, j: Nibble, c: Node<V>)
    requires n.Branch? && Shaped(n, L) && |key| == L && key[|n.prefix|] != j
    requires SlotContracted(c, n.children[j], L, key)
    ensures SlotCleaned(c, n.children[j], L, n.prefix, j)
  {
    if !c.Empty? {
      var q := n.prefix + [j];
      assert UnderSlot(n.children[j], n.prefix, j);
      assert q[|n.prefix|] == j;
      OffPathCompact(c, L, key);
    }
  }

  lemma PathSlot<V>(n: Node<V>, L: nat, key: Key, j: Nibble, x: Node<V>, c: Node<V>)
    requires n.Branch? && Shaped(n, L) && SlotContracted(x, n.children[j], L, key) && !x.Empty?
    requires Cleaned(c, x, L)
    ensures SlotCleaned(c, n.children[j], L, n.prefix, j)
  {
    assert UnderSlot(n.children[j], n.prefix, j);
  }

  lemma CleanedBranch<V>(cs: seq<Node<V>>, n: Node<V>, L: nat)
    requires n.Branch? && Shaped(n, L) && Kids(n.children) >= 1
    requires |cs| == 16 && Kids(cs) == Kids(n.children) && SumMeta(cs) == n.meta
    requires forall j: Nibble :: SlotCleaned(cs[j], n.children[j], L, n.prefix, j)
    ensures var r := Branch(n.prefix, cs, n.meta);
            NearCanon(r, L) && forall k :: Get(r, k) == Get(n, k)
  {
    var r := Branch(n.prefix, cs, n.meta);
    assert Shaped(r, L);
    forall k ensures Get(r, k) == Get(n, k) {
      BranchGet(r, L, k);
      BranchGet(n, L, k);
      if n.prefix <= k && |n.prefix| < |k| {
        var i := k[|n.prefix|];
        assert SlotCleaned(cs[i], n.children[i], L, n.prefix, i);
      }
    }
  }

  /** `MerkleTrie::clean_singlechild_nodes`. */
  method CleanSingleChildNodes<V>(n: Node<V>, L: nat, key: Key) returns (r: Node<V>)
    requires (n.Empty? || (Shaped(n, L) && PathOnly(n, key))) && |key| == L
    ensures CanonTrie(r, L)
    ensures Contents(r) == Contents(n)
  {
    if n.Empty? {
      return n;
    }
    r := CleanNode(n, L, key);
    ContractCanon(r, L);
    forall k ensures Get(Contract(r), k) == Get(n, k) {
      ContractGet(r, L, k);
    }
    r := Contract(r);
    SameContents(r, n);
  }

  // ---- Where single-child branches come from ------------------------------------------------------------------------

  lemma {:induction false} ThinHasKey<V>(n: Node<V>, L: nat) returns (k: Key)
    requires Shaped(n, L) && Thin(n)
    ensures Get(n, k).Some? && PrefixOf(n) <= k && |k| == L
  {
    if n.Leaf? {
      k := n.key;
    } else {
      var i: Nibble := SomeKid(n.children);
      assert UnderSlot(n.children[i], n.prefix, i);
      k := ThinHasKey(n.children[i], L);
      SlotGet(n, L, i, k);
    }
  }

  /** Below `n`, the keys of `ks` that `n` holds are those that precede `key`. */
  ghost predicate BelowKey<V>(n: Node<V>, L: nat, ks: set<Key>, key: Key)
    requires !n.Empty?
  {
    && |key| == L
    && (forall k :: k in ks ==> |k| == L)
    && (forall k :: k in ks && PrefixOf(n) <= k ==> (Get(n, k).Some? <==> Before(k, key)))
    && (forall k :: Get(n, k).Some? ==> k in ks)
  }

  /**
   A trie split off below `key`: its branches part keys of the whole set `ks`, and it holds just those keys of
   `ks` that precede `key`. Then its single-child branches are on the path to `key`.
   */
  lemma {:induction false} SplitOffPathOnly<V>(n: Node<V>, L: nat, ks: set<Key>, key: Key)
    requires Shaped(n, L) && Thin(n) && Justified(n, ks)
    requires BelowKey(n, L, ks, key)
    ensures PathOnly(n, key)
  {
    if n.Branch? {
      if Kids(n.children) == 1 {
        LoneChildOnPath(n, L, ks, key);
      }
      forall i: Nibble ensures PathOnly(n.children[i], key) {
        if !n.children[i].Empty? {
          SlotBelowKey(n, L, ks, key, i);
          SplitOffPathOnly(n.children[i], L, ks, key);
        }
      }
    }
  }

  lemma LoneChildOnPath<V>(n: Node<V>, L: nat, ks: set<Key>, key: Key)
    requires n.Branch? && Shaped(n, L) && Thin(n) && BelowKey(n, L, ks, key)
    requires BranchPoint(ks, n.prefix) && Kids(n.children) == 1
    ensures n.prefix <= key
  {
    var x, y :| x in ks && y in ks && Splits(n.prefix, x, y);
    if Get(n, x).Some? && Get(n, y).Some? {
      BranchPointKids(n, L);
    }
    var z := ThinHasKey(n, L);
    var w := if Get(n, x).Some? then y else x;
    BeforeTotal(w, key);
    Between(n.prefix, z, key, w);
  }

  lemma SlotBelowKey<V>(n: Node<V>, L: nat, ks: set<Key>, key: Key, i: Nibble)
    requires n.Branch? && Shaped(n, L) && BelowKey(n, L, ks, key) && !n.children[i].Empty?
    ensures BelowKey(n.children[i], L, ks, key)
  {
    var c := n.children[i];
    assert UnderSlot(c, n.prefix, i);
    forall k | PrefixOf(c) <= k || Get(c, k).Some? ensures Get(c, k) == Get(n, k) {
      SlotKeys(c, L, n.prefix, i, k);
      assert (n.prefix + [i])[|n.prefix|] == i;
      SlotGet(n, L, i, k);
    }
  }
}
