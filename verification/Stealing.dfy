/**
 Subtrees changing hands in a parallel merge: taking the part of a pending trie that belongs below a key prefix, and
 merging a pending trie at an inner node of the main trie.
 */
module Stealing {
  import opened Keys
  import opened Trie
  import opened Canonical
  import opened TrieOps
  import opened TrieMerge

  /** Branch points of `ks` stay branch points of `ls`, except at or below `q`. */
  ghost predicate Transfers(ks: set<Key>, ls: set<Key>, q: Key) {
    forall p :: BranchPoint(ks, p) && !(q <= p) ==> BranchPoint(ls, p)
  }

  /** Keys below `q` may go, as long as one key below `q` remains. */
  lemma TransferByWitness(ks: set<Key>, ls: set<Key>, q: Key, h: Key)
    requires h in ls && q <= h
    requires forall k :: k in ks && !(q <= k) ==> k in ls
    ensures Transfers(ks, ls, q)
  {
    forall p | BranchPoint(ks, p) && !(q <= p) ensures BranchPoint(ls, p) {
      var x, y :| x in ks && y in ks && Splits(p, x, y);
      var u := if q <= x then h else x;
      var v := if q <= y then h else y;
      StandIn(p, q, x, h);
      StandIn(p, q, y, h);
      assert Splits(p, u, v);
    }
  }

  /** Above `q`, all keys below `q` look alike. */
  lemma StandIn(p: Key, q: Key, x: Key, h: Key)
    requires p <= x && q <= h && |p| < |x| && !(q <= p)
    ensures q <= x ==> p <= h && |p| < |h| && h[|p|] == x[|p|]
  {
    TwoPrefixes(p, q, x);
    if q <= x {
      assert p == x[..|p|] == q[..|p|] == h[..|p|];
      assert x[|p|] == q[|p|] == h[|p|];
    }
  }

  lemma ApartBelow(p: Key, d: Key, q: Key)
    requires p <= d
    ensures !(q <= p) && !(p <= q) ==> !(q <= d) && !(d <= q)
  {
    TwoPrefixes(p, q, d);
  }

  /** A subtree apart from `q` keeps its justification. */
  lemma {:induction false} JustifiedApart<V>(c: Node<V>, L: nat, ks: set<Key>, ls: set<Key>, q: Key)
    requires c.Empty? || (Shaped(c, L) && !(q <= PrefixOf(c)) && !(PrefixOf(c) <= q))
    requires Justified(c, ks) && Transfers(ks, ls, q)
    ensures Justified(c, ls)
  {
    if c.Branch? {
      forall i: Nibble ensures Justified(c.children[i], ls) {
        var d := c.children[i];
        if !d.Empty? {
          assert UnderSlot(d, c.prefix, i);
          ApartBelow(c.prefix, PrefixOf(d), q);
        }
        JustifiedApart(d, L, ks, ls, q);
      }
    }
  }

  /** `left` and `taken` are the parts of `b` outside and inside the region of keys below `q`. */
  ghost predicate Parted<V>(left: Node<V>, taken: Node<V>, b: Node<V>, q: Key) {
    forall k :: && Get(taken, k) == (if q <= k then Get(b, k) else None)
                && Get(left, k) == (if q <= k then None else Get(b, k))
  }

  lemma NoneBelow<V>(b: Node<V>, L: nat, q: Key)
    requires Shaped(b, L) && !(q <= PrefixOf(b)) && !(PrefixOf(b) <= q)
    ensures Parted(b, Empty, b, q)
  {
    forall k | Get(b, k).Some? ensures !(q <= k) {
      ContentsUnder(b, L, k);
      TwoPrefixes(PrefixOf(b), q, k);
    }
  }

  lemma EmptySlotParted<V>(b: Node<V>, L: nat, q: Key)
    requires b.Branch? && Shaped(b, L) && b.prefix < q && b.children[q[|b.prefix|]].Empty?
    ensures Parted(b, Empty, b, q)
  {
    forall k | Get(b, k).Some? ensures !(q <= k) {
      SlotGet(b, L, q[|b.prefix|], k);
      SlotBelow(b.prefix, q, k);
    }
  }

  lemma SlotBelow(p: Key, q: Key, k: Key)
    requires p < q
    ensures q <= k ==> InSlot(k, p, q[|p|])
  {
  }

  lemma SlotParted<V>(b: Node<V>, L: nat, q: Key, left: Node<V>, taken: Node<V>)
    requires b.Branch? && Shaped(b, L) && b.prefix < q
    requires var i := q[|b.prefix|]; Parted(left, taken, b.children[i], q) && (left.Empty? || (Shaped(left, L) && UnderSlot(left, b.prefix, i)))
    ensures Parted(SetSlot(b, q[|b.prefix|], left), taken, b, q)
  {
    var i := q[|b.prefix|];
    var r := SetSlot(b, i, left);
    forall k ensures Get(taken, k) == (if q <= k then Get(b, k) else None)
             ensures Get(r, k) == (if q <= k then None else Get(b, k)) {
      SetSlotGet(b, L, i, left, k);
      SlotGet(b, L, i, k);
      if q <= k {
        assert b.prefix == q[..|b.prefix|] == k[..|b.prefix|];
        assert InSlot(k, b.prefix, i);
      }
    }
  }

  /** All of `c` lies below `q`. */
  lemma AllTaken<V>(c: Node<V>, L: nat, q: Key)
    requires Shaped(c, L) && q <= PrefixOf(c)
    ensures Parted(Empty, c, c, q)
  {
    forall k | Get(c, k).Some? ensures q <= k {
      ContentsUnder(c, L, k);
    }
  }

  lemma JustifiedSlots<V>(b: Node<V>, L: nat, q: Key, ks: set<Key>, ls: set<Key>, left: Node<V>)
    requires b.Branch? && Shaped(b, L) && b.prefix < q
    requires Justified(b, ks) && Transfers(ks, ls, q) && Justified(left, ls)
    ensures Justified(SetSlot(b, q[|b.prefix|], left), ls)
  {
    var i := q[|b.prefix|];
    var r := SetSlot(b, i, left);
    assert !(q <= b.prefix);
    forall j: Nibble ensures Justified(r.children[j], ls) {
      if j != i {
        var c := b.children[j];
        if !c.Empty? {
          assert UnderSlot(c, b.prefix, j);
          assert (b.prefix + [j])[|b.prefix|] == j;
          assert PrefixOf(c)[|b.prefix|] == j;
        }
        JustifiedApart(c, L, ks, ls, q);
      }
    }
  }

  /**
   `destructive_steal_child`. When all of `b` lies below `q` nothing is taken (`whole`): the caller keeps `b`.
   Otherwise exactly the part below `q` is taken, and what is left may have branches with one child or none, each of
   them still a branch point of the keys `ls` in play.
   */
  method StealChild<V>(b: Node<V>, L: nat, q: Key, ghost ks: set<Key>, ghost ls: set<Key>)
    returns (whole: bool, left: Node<V>, taken: Node<V>)
    requires Shaped(b, L) && |q| <= L
    requires Justified(b, ks) && Transfers(ks, ls, q)
    ensures whole <==> q <= PrefixOf(b)
    ensures whole ==> left == b && taken.Empty?
    ensures !whole ==> Shaped(left, L) && PrefixOf(left) == PrefixOf(b) && Parted(left, taken, b, q)
    ensures !whole ==> MetaOf(left) == Minus(MetaOf(b), MetaOf(taken))
    ensures !whole ==> Justified(left, ls)
    ensures taken.Empty? || (Shaped(taken, L) && q <= PrefixOf(taken) && Justified(taken, ks))
    decreases b, 1
  {
    var m := MatchLen(q, PrefixOf(b));
    MatchLenPrefix(q, PrefixOf(b));
    if m == |q| {
      return true, b, Empty;
    }
    whole, left, taken := false, b, Empty;
    PrefixBound(b, L);
    if m == |PrefixOf(b)| {
      assert PrefixOf(b) == q[..m];
      left, taken := StealBelow(b, L, q, ks, ls);
    } else {
      NotPrefix(PrefixOf(b), q);
      NoneBelow(b, L, q);
      JustifiedApart(b, L, ks, ls, q);
    }
  }

  lemma NotPrefix(p: Key, q: Key)
    requires MatchLen(q, p) < |p|
    ensures !(p <= q)
  {
    var m := MatchLen(q, p);
    assert m < |q| ==> q[m] != p[m];
  }

  method StealBelow<V>(b: Node<V>, L: nat, q: Key, ghost ks: set<Key>, ghost ls: set<Key>)
    returns (left: Node<V>, taken: Node<V>)
    requires b.Branch? && Shaped(b, L) && |q| <= L && b.prefix < q
    requires Justified(b, ks) && Transfers(ks, ls, q)
    ensures Shaped(left, L) && PrefixOf(left) == b.prefix && Parted(left, taken, b, q)
    ensures MetaOf(left) == Minus(MetaOf(b), MetaOf(taken))
    ensures Justified(left, ls)
    ensures taken.Empty? || (Shaped(taken, L) && q <= PrefixOf(taken) && Justified(taken, ks))
    decreases b, 0
  {
    var i := q[|b.prefix|];
    var child := b.children[i];
    left, taken := b, Empty;
    if child.Empty? {
      EmptySlotParted(b, L, q);
      JustifiedSlots(b, L, q, ks, ls, child);
      assert SetSlot(b, i, child) == b by {
        assert b.children[i := child] == b.children;
      }
    } else {
      var c;
      c, taken := StealSlot(b, L, q, ks, ls);
      left := SetSlot(b, i, c);
      SlotLeft(b, L, q, ks, ls, c, taken);
    }
  }

  method StealSlot<V>(b: Node<V>, L: nat, q: Key, ghost ks: set<Key>, ghost ls: set<Key>)
    returns (c: Node<V>, taken: Node<V>)
    requires b.Branch? && Shaped(b, L) && |q| <= L && b.prefix < q && !b.children[q[|b.prefix|]].Empty?
    requires Justified(b, ks) && Transfers(ks, ls, q)
    ensures SlotStolen(c, taken, b, L, q) && Justified(c, ls)
    ensures taken.Empty? || (Shaped(taken, L) && q <= PrefixOf(taken) && Justified(taken, ks))
    decreases b.children[q[|b.prefix|]], 2
  {
    var i := q[|b.prefix|];
    var child := b.children[i];
    assert UnderSlot(child, b.prefix, i);
    var all;
    all, c, taken := StealChild(child, L, q, ks, ls);
    if all {
      c, taken := Empty, child;
      AllTaken(child, L, q);
    }
  }

  /** `c` stays in the slot of `b` on the way to `q`, and `taken` leaves it. */
  ghost predicate SlotStolen<V>(c: Node<V>, taken: Node<V>, b: Node<V>, L: nat, q: Key)
    requires b.Branch? && |b.children| == 16 && b.prefix < q
  {
    var i := q[|b.prefix|];
    && Parted(c, taken, b.children[i], q)
    && (c.Empty? || (Shaped(c, L) && UnderSlot(c, b.prefix, i)))
    && MetaOf(c) == Minus(MetaOf(b.children[i]), MetaOf(taken))
  }

  lemma SlotLeft<V>(b: Node<V>, L: nat, q: Key, ks: set<Key>, ls: set<Key>, c: Node<V>, taken: Node<V>)
    requires b.Branch? && Shaped(b, L) && b.prefix < q
    requires Justified(b, ks) && Transfers(ks, ls, q) && Justified(c, ls)
    requires SlotStolen(c, taken, b, L, q)
    ensures var left := SetSlot(b, q[|b.prefix|], c);
            && Shaped(left, L) && PrefixOf(left) == b.prefix && Parted(left, taken, b, q)
            && MetaOf(left) == Minus(MetaOf(b), MetaOf(taken))
            && Justified(left, ls)
  {
    SetSlotShaped(b, L, q[|b.prefix|], c);
    SlotParted(b, L, q, c, taken);
    JustifiedSlots(b, L, q, ks, ls, c);
  }

  // ---- Merging at an inner node --------------------------------------------------------------------------------------------

  /**
   Merges `b` at the node of `n` that heads the keys below `q`, and propagates the size change to the nodes above it
   (`merge_in` at an entry point, then `propagate_sz_delta` from the root).
   */
  method MergeAt<V>(n: Node<V>, L: nat, q: Key, b: Node<V>, f: MergeFn<V>, ghost h: Key) returns (r: Node<V>, delta: Meta)
    requires Canon(n, L) && Shaped(b, L) && JustifiedPair(n, b)
    requires q <= PrefixOf(b)
    requires Get(n, h).Some? && q <= h
    ensures Canon(r, L) && Merged(r, n, b, f)
    ensures delta == Minus(MetaOf(r), MetaOf(n))
    decreases n
  {
    if q <= PrefixOf(n) {
      r, delta := MergeIn(n, b, L, f);
    } else {
      Descends(n, L, q, h);
      var i := q[|n.prefix|];
      SlotGet(n, L, i, h);
      assert UnderSlot(b, n.prefix, i) by {
        assert n.prefix + [i] == q[..|n.prefix| + 1] == PrefixOf(b)[..|n.prefix| + 1];
      }
      Case2Slot(n, b, L, i);
      var c;
      c, delta := MergeAt(n.children[i], L, q, b, f, h);
      r := SetSlot(n, i, c);
      Case2Merged(n, b, c, L, i, f);
      SetSlotDelta(n, i, c);
    }
  }

  lemma SetSlotDelta<V>(n: Node<V>, i: Nibble, c: Node<V>)
    requires n.Branch? && |n.children| == 16
    ensures Minus(MetaOf(SetSlot(n, i, c)), MetaOf(n)) == Minus(MetaOf(c), MetaOf(n.children[i]))
  {
  }

  /** Above the region, the node on the way to it is a branch with a child there. */
  lemma Descends<V>(n: Node<V>, L: nat, q: Key, h: Key)
    requires Canon(n, L) && Get(n, h).Some? && q <= h && !(q <= PrefixOf(n))
    ensures n.Branch? && n.prefix < q && InSlot(h, n.prefix, q[|n.prefix|])
    ensures !n.children[q[|n.prefix|]].Empty?
  {
    ContentsUnder(n, L, h);
    TwoPrefixes(PrefixOf(n), q, h);
    BranchGet(n, L, h);
  }
}
