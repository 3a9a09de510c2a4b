/**
 The five-case merge.

 `MergeIn` consumes a second trie `b`. In a plain merge `b` is canonical. In a batch merge `b` may have lost
 subtrees to other workers, so some of its branches have one child or none; `Justified` says what is then still
 known: each branch prefix of `b` separates two keys of the two tries together. That is exactly what keeps the
 result canonical.
 */
module TrieMerge {
  import opened Keys
  import opened Trie
  import opened Canonical
  import opened TrieOps

  /** How two leaves with one key combine (`OverwriteMergeFn`, `LogMergeFn`). */
  type MergeFn<!V> = (Entry<V>, Entry<V>) -> Entry<V>

  function MergeEntries<V>(x: Option<Entry<V>>, y: Option<Entry<V>>, f: MergeFn<V>): Option<Entry<V>> {
    if x.Some? && y.Some? then Some(f(x.value, y.value)) else if x.Some? then x else y
  }

  /** Every branch of `b` parts two keys of `ks`. */
  ghost predicate Justified<V>(b: Node<V>, ks: set<Key>) {
    b.Branch? ==>
      && BranchPoint(ks, b.prefix)
      && (forall i :: 0 <= i < |b.children| ==> Justified(b.children[i], ks))
  }

  ghost predicate JustifiedPair<V>(a: Node<V>, b: Node<V>) {
    Justified(b, Contents(a).Keys + Contents(b).Keys)
  }

  lemma {:induction false} CompactIsJustified<V>(b: Node<V>, L: nat, ks: set<Key>)
    requires Canon(b, L)
    requires Contents(b).Keys <= ks
    ensures Justified(b, ks)
  {
    if b.Branch? {
      BranchIsBranchPoint(b, L);
      forall i: Nibble ensures Justified(b.children[i], ks) {
        if !b.children[i].Empty? {
          forall k | k in Contents(b.children[i]) ensures k in ks {
            SlotGet(b, L, i, k);
          }
          CompactIsJustified(b.children[i], L, ks);
        }
      }
    }
  }

  /** Only the keys below `c` matter for `c`. */
  lemma {:induction false} JustifiedLocal<V>(c: Node<V>, L: nat, ks: set<Key>, ls: set<Key>)
    requires Shaped(c, L) && Justified(c, ks)
    requires forall k :: k in ks && PrefixOf(c) <= k ==> k in ls
    ensures Justified(c, ls)
  {
    if c.Branch? {
      var x, y :| x in ks && y in ks && Splits(c.prefix, x, y);
      assert BranchPoint(ls, c.prefix);
      forall i: Nibble ensures Justified(c.children[i], ls) {
        if !c.children[i].Empty? {
          assert UnderSlot(c.children[i], c.prefix, i);
          JustifiedLocal(c.children[i], L, ks, ls);
        }
      }
    }
  }

  /** A branch whose children are canonical and whose own prefix parts two of its keys is canonical. */
  lemma BranchPointKids<V>(n: Node<V>, L: nat)
    requires n.Branch? && Shaped(n, L)
    requires BranchPoint(Contents(n).Keys, n.prefix)
    ensures Kids(n.children) >= 2
  {
    var x, y :| x in Contents(n) && y in Contents(n) && Splits(n.prefix, x, y);
    BranchGet(n, L, x);
    BranchGet(n, L, y);
    var i: Nibble, j: Nibble := x[|n.prefix|], y[|n.prefix|];
    TwoKids(n.children, i, j);
  }

  /** A node that alone holds every key below it is compact. */
  lemma {:induction false} JustifiedCompact<V>(b: Node<V>, L: nat, ks: set<Key>)
    requires Shaped(b, L) && Justified(b, ks)
    requires forall k :: k in ks && PrefixOf(b) <= k ==> k in Contents(b)
    ensures Compact(b)
  {
    if b.Branch? {
      var x, y :| x in ks && y in ks && Splits(b.prefix, x, y);
      BranchPointKids(b, L);
      forall i: Nibble ensures Compact(b.children[i]) {
        var c := b.children[i];
        if !c.Empty? {
          assert UnderSlot(c, b.prefix, i);
          forall k | k in ks && PrefixOf(c) <= k ensures k in Contents(c) {
            assert (b.prefix + [i])[|b.prefix|] == i;
            SlotGet(b, L, i, k);
          }
          JustifiedCompact(c, L, ks);
        }
      }
    }
  }

  ghost predicate Merged<V>(r: Node<V>, a: Node<V>, b: Node<V>, f: MergeFn<V>) {
    forall k :: Get(r, k) == MergeEntries(Get(a, k), Get(b, k), f)
  }

  lemma MergedKeys<V>(r: Node<V>, a: Node<V>, b: Node<V>, f: MergeFn<V>)
    requires Merged(r, a, b, f)
    ensures Contents(r).Keys == Contents(a).Keys + Contents(b).Keys
  {
    forall k ensures k in Contents(r) <==> k in Contents(a) || k in Contents(b) {
      assert Get(r, k) == MergeEntries(Get(a, k), Get(b, k), f);
    }
  }

  // ---- Slots ---------------------------------------------------------------------------------------------

  /** `c` is what slot `i` of the merged branch holds, given what it held in the two inputs. */
  ghost predicate SlotMerged<V>(c: Node<V>, x: Node<V>, y: Node<V>, L: nat, p: Key, i: Nibble, f: MergeFn<V>) {
    && (c.Empty? || (Canon(c, L) && UnderSlot(c, p, i)))
    && Merged(c, x, y, f)
  }

  lemma MergedUnder<V>(c: Node<V>, x: Node<V>, y: Node<V>, L: nat, p: Key, i: Nibble, f: MergeFn<V>)
    requires Shaped(x, L) && UnderSlot(x, p, i) && Shaped(y, L) && UnderSlot(y, p, i)
    requires Canon(c, L) && Merged(c, x, y, f)
    ensures UnderSlot(c, p, i)
  {
    MergedKeys(c, x, y, f);
    forall k | k in Contents(c) ensures p + [i] <= k {
      if k in Contents(x) { ContentsUnder(x, L, k); } else { ContentsUnder(y, L, k); }
    }
    KeysUnder(c, L, p + [i]);
  }

  /** Slot `i` of both tries inherits the justification. */
  lemma SlotJustified<V>(a: Node<V>, b: Node<V>, L: nat, i: Nibble)
    requires a.Branch? && Shaped(a, L) && b.Branch? && Shaped(b, L) && a.prefix == b.prefix
    requires JustifiedPair(a, b) && !b.children[i].Empty?
    ensures JustifiedPair(a.children[i], b.children[i])
  {
    var ls := Contents(a.children[i]).Keys + Contents(b.children[i]).Keys;
    assert UnderSlot(b.children[i], b.prefix, i);
    forall k | k in Contents(a).Keys + Contents(b).Keys && PrefixOf(b.children[i]) <= k ensures k in ls {
      assert (b.prefix + [i])[|b.prefix|] == i;
      SlotGet(a, L, i, k);
      SlotGet(b, L, i, k);
    }
    JustifiedLocal(b.children[i], L, Contents(a).Keys + Contents(b).Keys, ls);
  }

  /** Nothing of `a` lies below `b`: then `b` is compact as it stands. */
  lemma LonelyCompact<V>(a: Node<V>, b: Node<V>, L: nat)
    requires Shaped(b, L) && JustifiedPair(a, b)
    requires forall k :: k in Contents(a) ==> !(PrefixOf(b) <= k)
    ensures Compact(b)
  {
    JustifiedCompact(b, L, Contents(a).Keys + Contents(b).Keys);
  }

  ghost predicate AllSlotsMerged<V>(cs: seq<Node<V>>, a: Node<V>, b: Node<V>, L: nat, f: MergeFn<V>)
    requires |cs| == 16 && a.Branch? && |a.children| == 16 && b.Branch? && |b.children| == 16
  {
    forall i: Nibble :: SlotMerged(cs[i], a.children[i], b.children[i], L, a.prefix, i, f)
  }

  lemma MergedBranch<V>(cs: seq<Node<V>>, a: Node<V>, b: Node<V>, L: nat, f: MergeFn<V>)
    requires a.Branch? && Canon(a, L) && b.Branch? && Shaped(b, L) && a.prefix == b.prefix
    requires |cs| == 16 && AllSlotsMerged(cs, a, b, L, f)
    ensures var r := Branch(a.prefix, cs, SumMeta(cs)); Canon(r, L) && Merged(r, a, b, f)
  {
    var r := Branch(a.prefix, cs, SumMeta(cs));
    assert forall i: Nibble :: SlotMerged(cs[i], a.children[i], b.children[i], L, a.prefix, i, f);
    assert Shaped(r, L);
    forall k ensures Get(r, k) == MergeEntries(Get(a, k), Get(b, k), f) {
      BranchGet(r, L, k);
      BranchGet(a, L, k);
      BranchGet(b, L, k);
      if a.prefix <= k && |a.prefix| < |k| {
        var i := k[|a.prefix|];
        assert Merged(cs[i], a.children[i], b.children[i], f);
      }
    }
    MergedKeys(r, a, b, f);
    BranchIsBranchPoint(a, L);
    BranchPointKids(r, L);
  }

  // ---- Case 0: two leaves with one key ---------------------------------------------------------------------

  lemma Case0Merged<V>(a: Node<V>, b: Node<V>, L: nat, f: MergeFn<V>)
    requires Shaped(a, L) && Shaped(b, L) && MatchLen(PrefixOf(a), PrefixOf(b)) == L
    ensures a.Leaf? && b.Leaf? && a.key == b.key
    ensures Merged(Leaf(a.key, f(a.entry, b.entry)), a, b, f) && Canon(Leaf(a.key, f(a.entry, b.entry)), L)
  {
    PrefixBound(a, L);
    PrefixBound(b, L);
    assert a.key == a.key[..L] == b.key[..L] == b.key;
    forall k ensures Get(Leaf(a.key, f(a.entry, b.entry)), k) == MergeEntries(Get(a, k), Get(b, k), f) {
      LeafGet(a.key, a.entry, k);
      LeafGet(b.key, b.entry, k);
      LeafGet(a.key, f(a.entry, b.entry), k);
    }
  }

  lemma LeafGet<V>(key: Key, e: Entry<V>, k: Key)
    ensures Get(Leaf(key, e), k) == if k == key then Some(e) else None
  {
  }

  // ---- Case 2: `b` belongs under a child slot of `a` ------------------------------------------------------

  lemma Case2Slot<V>(a: Node<V>, b: Node<V>, L: nat, i: Nibble)
    requires a.Branch? && Shaped(a, L) && Shaped(b, L) && JustifiedPair(a, b)
    requires UnderSlot(b, a.prefix, i)
    ensures JustifiedPair(a.children[i], b)
    ensures a.children[i].Empty? ==> Compact(b)
  {
    var ls := Contents(a.children[i]).Keys + Contents(b).Keys;
    forall k | k in Contents(a).Keys + Contents(b).Keys && PrefixOf(b) <= k ensures k in ls {
      assert (a.prefix + [i])[|a.prefix|] == i;
      SlotGet(a, L, i, k);
    }
    JustifiedLocal(b, L, Contents(a).Keys + Contents(b).Keys, ls);
    if a.children[i].Empty? {
      LonelyCompact(a.children[i], b, L);
    }
  }

  lemma Case2Merged<V>(a: Node<V>, b: Node<V>, c: Node<V>, L: nat, i: Nibble, f: MergeFn<V>)
    requires a.Branch? && Canon(a, L) && Shaped(b, L) && UnderSlot(b, a.prefix, i)
    requires Canon(c, L) && Merged(c, a.children[i], b, f)
    ensures Canon(SetSlot(a, i, c), L) && Merged(SetSlot(a, i, c), a, b, f)
  {
    if a.children[i].Empty? {
      SameContentsMerged(c, b, f);
      forall k | k in Contents(c) ensures a.prefix + [i] <= k {
        ContentsUnder(b, L, k);
      }
      KeysUnder(c, L, a.prefix + [i]);
    } else {
      assert UnderSlot(a.children[i], a.prefix, i);
      MergedUnder(c, a.children[i], b, L, a.prefix, i, f);
    }
    SetSlotShaped(a, L, i, c);
    SetSlotCompact(a, i, c);
    forall k ensures Get(SetSlot(a, i, c), k) == MergeEntries(Get(a, k), Get(b, k), f) {
      SetSlotGet(a, L, i, c, k);
      SlotGet(a, L, i, k);
      SlotKeys(b, L, a.prefix, i, k);
    }
  }

  lemma SameContentsMerged<V>(c: Node<V>, b: Node<V>, f: MergeFn<V>)
    requires Merged(c, Empty, b, f)
    ensures Contents(c) == Contents(b)
  {
    forall k ensures Get(c, k) == Get(b, k) {
      assert Get(c, k) == MergeEntries(Get<V>(Empty, k), Get(b, k), f);
    }
    SameContents(c, b);
  }

  // ---- Case 3: `a` belongs under a child slot of `b` ------------------------------------------------------

  lemma Case3Slot<V>(a: Node<V>, b: Node<V>, L: nat, i: Nibble)
    requires Canon(a, L) && b.Branch? && Shaped(b, L) && JustifiedPair(a, b)
    requires UnderSlot(a, b.prefix, i) && !b.children[i].Empty?
    ensures JustifiedPair(a, b.children[i])
  {
    var c := b.children[i];
    var ls := Contents(a).Keys + Contents(c).Keys;
    assert UnderSlot(c, b.prefix, i);
    forall k | k in Contents(a).Keys + Contents(b).Keys && PrefixOf(c) <= k ensures k in ls {
      assert (b.prefix + [i])[|b.prefix|] == i;
      SlotGet(b, L, i, k);
    }
    JustifiedLocal(c, L, Contents(a).Keys + Contents(b).Keys, ls);
  }

  lemma Case3OtherSlots<V>(a: Node<V>, b: Node<V>, L: nat, i: Nibble, j: Nibble)
    requires Canon(a, L) && b.Branch? && Shaped(b, L) && JustifiedPair(a, b)
    requires UnderSlot(a, b.prefix, i) && j != i
    ensures Compact(b.children[j])
  {
    var c := b.children[j];
    if !c.Empty? {
      assert UnderSlot(c, b.prefix, j);
      assert (b.prefix + [j])[|b.prefix|] == j;
      forall k | k in Contents(a).Keys + Contents(b).Keys && PrefixOf(c) <= k ensures k in Contents(c) {
        SlotKeys(a, L, b.prefix, i, k);
        SlotGet(b, L, j, k);
      }
      JustifiedCompact(c, L, Contents(a).Keys + Contents(b).Keys);
    }
  }

  lemma Case3Merged<V>(a: Node<V>, b: Node<V>, c: Node<V>, L: nat, i: Nibble, f: MergeFn<V>)
    requires Canon(a, L) && b.Branch? && Shaped(b, L) && JustifiedPair(a, b)
    requires UnderSlot(a, b.prefix, i)
    requires Canon(c, L) && Merged(c, a, b.children[i], f)
    ensures Canon(SetSlot(b, i, c), L) && Merged(SetSlot(b, i, c), a, b, f)
  {
    var r := SetSlot(b, i, c);
    if b.children[i].Empty? {
      forall k | k in Contents(c) ensures b.prefix + [i] <= k {
        assert Get(c, k) == MergeEntries(Get(a, k), Get<V>(Empty, k), f);
        ContentsUnder(a, L, k);
      }
      KeysUnder(c, L, b.prefix + [i]);
    } else {
      assert UnderSlot(b.children[i], b.prefix, i);
      MergedUnder(c, a, b.children[i], L, b.prefix, i, f);
    }
    SetSlotShaped(b, L, i, c);
    forall k ensures Get(r, k) == MergeEntries(Get(a, k), Get(b, k), f) {
      SetSlotGet(b, L, i, c, k);
      SlotGet(b, L, i, k);
      SlotKeys(a, L, b.prefix, i, k);
    }
    MergedKeys(r, a, b, f);
    BranchPointKids(r, L);
    forall j: Nibble ensures Compact(r.children[j]) {
      if j != i {
        Case3OtherSlots(a, b, L, i, j);
      }
    }
  }

  // ---- Case 4: a common parent -----------------------------------------------------------------------------

  lemma Case4Merged<V>(p: Key, a: Node<V>, b: Node<V>, L: nat, f: MergeFn<V>)
    requires Canon(a, L) && Shaped(b, L) && JustifiedPair(a, b)
    requires Splits(p, PrefixOf(a), PrefixOf(b))
    ensures Canon(Join(p, a, b), L) && Merged(Join(p, a, b), a, b, f)
    ensures MetaOf(b) == Minus(MetaOf(Join(p, a, b)), MetaOf(a))
  {
    forall k | k in Contents(a) ensures !(PrefixOf(b) <= k) {
      ContentsUnder(a, L, k);
    }
    LonelyCompact(a, b, L);
    JoinShaped(p, a, b, L);
    forall k ensures Get(Join(p, a, b), k) == MergeEntries(Get(a, k), Get(b, k), f) {
      JoinGet(p, a, b, L, k);
    }
  }

  // ---- The merge ---------------------------------------------------------------------------------------------

  /** `TrieNode::_merge_in` (and, with size as the only metadata in use, `AccountTrieNode::merge_in`). */
  method MergeIn<V>(a: Node<V>, b: Node<V>, L: nat, f: MergeFn<V>) returns (r: Node<V>, delta: Meta)
    requires Canon(a, L) && Shaped(b, L) && JustifiedPair(a, b)
    ensures Canon(r, L)
    ensures Merged(r, a, b, f)
    ensures delta == Minus(MetaOf(r), MetaOf(a))
    decreases a, b, 1
  {
    var pa, pb := PrefixOf(a), PrefixOf(b);
    var m := MatchLen(pa, pb);
    PrefixCases(a, b, L);
    if m == L {
      // case 0: two leaves with one key
      Case0Merged(a, b, L, f);
      r := Leaf(a.key, f(a.entry, b.entry));
      delta := Minus(r.entry.meta, a.entry.meta);
    } else if m == |pa| && m == |pb| {
      // case 1: one prefix
      r, delta := MergeChildren(a, b, L, f);
    } else if m == |pa| {
      r, delta := MergeBelow(a, b, L, f);
    } else if m == |pb| {
      r, delta := MergeAbove(a, b, L, f);
    } else {
      // case 4: a new common parent
      r := Join(pa[..m], a, b);
      delta := MetaOf(b);
      Case4Merged(pa[..m], a, b, L, f);
    }
  }

  lemma PrefixCases<V>(a: Node<V>, b: Node<V>, L: nat)
    requires Shaped(a, L) && Shaped(b, L)
    ensures var m := MatchLen(PrefixOf(a), PrefixOf(b));
            && m <= |PrefixOf(a)| <= L && m <= |PrefixOf(b)| <= L
            && (m == L ==> a.Leaf? && b.Leaf? && |a.key| == L)
            && (m < L && m == |PrefixOf(a)| ==> a.Branch? && PrefixOf(a) <= PrefixOf(b))
            && (m < L && m == |PrefixOf(b)| ==> b.Branch? && PrefixOf(b) <= PrefixOf(a))
            && (m < |PrefixOf(a)| && m < |PrefixOf(b)| ==> Splits(PrefixOf(a)[..m], PrefixOf(a), PrefixOf(b)))
  {
    PrefixBound(a, L);
    PrefixBound(b, L);
    MatchWhole(PrefixOf(a), PrefixOf(b));
    SplitAtMatch(PrefixOf(a), PrefixOf(b));
  }

  lemma SplitAtMatch(a: Key, b: Key)
    ensures var m := MatchLen(a, b); m < |a| && m < |b| ==> Splits(a[..m], a, b)
  {
  }

  /** Merge case 2: `b` belongs below `a`. */
  method MergeBelow<V>(a: Node<V>, b: Node<V>, L: nat, f: MergeFn<V>) returns (r: Node<V>, delta: Meta)
    requires Canon(a, L) && Shaped(b, L) && JustifiedPair(a, b)
    requires PrefixOf(a) < PrefixOf(b)
    ensures Canon(r, L)
    ensures Merged(r, a, b, f)
    ensures delta == Minus(MetaOf(r), MetaOf(a))
    decreases a, b, 0
  {
    PrefixBound(b, L);
    var i := PrefixOf(b)[|a.prefix|];
    Case2Slot(a, b, L, i);
    var c;
    if a.children[i].Empty? {
      c, delta := b, MetaOf(b);
      assert Merged(c, a.children[i], b, f);
    } else {
      c, delta := MergeIn(a.children[i], b, L, f);
    }
    r := SetSlot(a, i, c);
    Case2Merged(a, b, c, L, i, f);
  }

  /** Merge case 3: `a` belongs below `b`; the matching subtrees swap roles so that `b`'s is the one consumed. */
  method MergeAbove<V>(a: Node<V>, b: Node<V>, L: nat, f: MergeFn<V>) returns (r: Node<V>, delta: Meta)
    requires Canon(a, L) && Shaped(b, L) && JustifiedPair(a, b)
    requires PrefixOf(b) < PrefixOf(a)
    ensures Canon(r, L)
    ensures Merged(r, a, b, f)
    ensures delta == Minus(MetaOf(r), MetaOf(a))
    decreases a, b, 0
  {
    PrefixBound(a, L);
    var i := PrefixOf(a)[|b.prefix|];
    if b.children[i].Empty? {
      assert Merged(a, a, b.children[i], f);
      r := SetSlot(b, i, a);
      delta := MetaOf(b);
      Case3Merged(a, b, a, L, i, f);
    } else {
      r, delta := MergeShared(a, b, L, i, f);
    }
  }

  method MergeShared<V>(a: Node<V>, b: Node<V>, L: nat, i: Nibble, f: MergeFn<V>) returns (r: Node<V>, delta: Meta)
    requires Canon(a, L) && b.Branch? && Shaped(b, L) && JustifiedPair(a, b)
    requires UnderSlot(a, b.prefix, i) && !b.children[i].Empty?
    ensures Canon(r, L)
    ensures Merged(r, a, b, f)
    ensures delta == Minus(MetaOf(r), MetaOf(a))
    decreases a, b.children[i], 2
  {
    Case3Slot(a, b, L, i);
    var reduction := Minus(MetaOf(b.children[i]), MetaOf(a));
    var c, d := MergeIn(a, b.children[i], L, f);
    d := Minus(d, reduction);
    r := Branch(b.prefix, b.children[i := c], Plus(b.meta, d));
    delta := Minus(r.meta, MetaOf(a));
    assert r == SetSlot(b, i, c);
    Case3Merged(a, b, c, L, i, f);
  }

  /** Merge case 1: the union of two child maps, children of a shared slot merged in turn. */
  method MergeChildren<V>(a: Node<V>, b: Node<V>, L: nat, f: MergeFn<V>) returns (r: Node<V>, delta: Meta)
    requires a.Branch? && Canon(a, L) && b.Branch? && Shaped(b, L) && JustifiedPair(a, b)
    requires a.prefix == b.prefix
    ensures Canon(r, L)
    ensures Merged(r, a, b, f)
    ensures delta == Minus(MetaOf(r), MetaOf(a))
    decreases a, b, 0
  {
    var cs := a.children;
    delta := Zero;
    for i: int := 0 to 16
      invariant |cs| == 16
      invariant forall j: Nibble :: i <= j ==> cs[j] == a.children[j]
      invariant forall j: Nibble :: j < i ==> SlotMerged(cs[j], a.children[j], b.children[j], L, a.prefix, j, f)
      invariant SumMeta(cs) == Plus(a.meta, delta)
    {
      var j: Nibble := i;
      var x, y := a.children[j], b.children[j];
      var c, d := MergeSlot(a, b, L, j, f);
      KidsUpdate(cs, j, c);
      cs := cs[j := c];
      delta := Plus(delta, d);
    }
    r := Branch(a.prefix, cs, Plus(a.meta, delta));
    MergedBranch(cs, a, b, L, f);
    MetaGroup(a.meta, delta);
  }

  method MergeSlot<V>(a: Node<V>, b: Node<V>, L: nat, j: Nibble, f: MergeFn<V>) returns (c: Node<V>, delta: Meta)
    requires a.Branch? && Canon(a, L) && b.Branch? && Shaped(b, L) && JustifiedPair(a, b)
    requires a.prefix == b.prefix
    ensures SlotMerged(c, a.children[j], b.children[j], L, a.prefix, j, f)
    ensures delta == Minus(MetaOf(c), MetaOf(a.children[j]))
    decreases a.children[j], b.children[j], 2
  {
    if b.children[j].Empty? {
      c, delta := a.children[j], Zero;
      KeptSlot(a, b, L, j, f);
    } else if a.children[j].Empty? {
      c, delta := b.children[j], MetaOf(b.children[j]);
      MovedSlot(a, b, L, j, f);
    } else {
      SharedSlot(a, b, L, j);
      c, delta := MergeIn(a.children[j], b.children[j], L, f);
      MergedUnder(c, a.children[j], b.children[j], L, a.prefix, j, f);
    }
  }

  lemma KeptSlot<V>(a: Node<V>, b: Node<V>, L: nat, j: Nibble, f: MergeFn<V>)
    requires a.Branch? && Canon(a, L) && b.Branch? && Shaped(b, L)
    requires b.children[j].Empty?
    ensures SlotMerged(a.children[j], a.children[j], b.children[j], L, a.prefix, j, f)
  {
    assert UnderSlot(a.children[j], a.prefix, j);
  }

  lemma MovedSlot<V>(a: Node<V>, b: Node<V>, L: nat, j: Nibble, f: MergeFn<V>)
    requires a.Branch? && Canon(a, L) && b.Branch? && Shaped(b, L) && JustifiedPair(a, b)
    requires a.prefix == b.prefix && a.children[j].Empty? && !b.children[j].Empty?
    ensures SlotMerged(b.children[j], a.children[j], b.children[j], L, a.prefix, j, f)
  {
    assert UnderSlot(b.children[j], b.prefix, j);
    SlotJustified(a, b, L, j);
    LonelyCompact(a.children[j], b.children[j], L);
  }

  lemma SharedSlot<V>(a: Node<V>, b: Node<V>, L: nat, j: Nibble)
    requires a.Branch? && Canon(a, L) && b.Branch? && Shaped(b, L) && JustifiedPair(a, b)
    requires a.prefix == b.prefix && !a.children[j].Empty? && !b.children[j].Empty?
    ensures Canon(a.children[j], L) && UnderSlot(a.children[j], a.prefix, j)
    ensures Shaped(b.children[j], L) && UnderSlot(b.children[j], a.prefix, j)
    ensures JustifiedPair(a.children[j], b.children[j])
  {
    SlotJustified(a, b, L, j);
  }
}
