/**
 The hash of a trie, computed while leaves marked for deletion are still in place.

 A hash is modelled as the term that is hashed: equal terms hash equally under every hash function, and unequal
 terms collide only if the hash function does.
 */
module TrieHash {
  import opened Keys
  import opened Trie
  import opened Canonical
  import opened TrieOrder
  import opened TrieDelete
  import opened TrieMarks

  datatype Digest<V> =
    | NoDigest
    | LeafDigest(key: Key, value: V)
    | BranchDigest(prefix: Key, slots: seq<Digest<V>>)

  datatype RootDigest<V> = RootDigest(count: int, top: Digest<V>)

  /** Leaves of `n` that are not marked. */
  function LiveCount<V>(n: Node<V>): int {
    MetaOf(n).size - MetaOf(n).deleted
  }

  /** Child slots with the children lacking live leaves left out. */
  function LiveSlots<V>(cs: seq<Node<V>>): (ds: seq<Node<V>>)
    ensures |ds| == |cs|
    ensures forall i :: 0 <= i < |cs| ==> ds[i] == if LiveCount(cs[i]) > 0 then cs[i] else Empty
  {
    seq(|cs|, i requires 0 <= i < |cs| => if LiveCount(cs[i]) > 0 then cs[i] else Empty)
  }

  /**
   `compute_hash`: a branch skips children without live leaves, and a branch with one live child takes over that
   child's hash.
   */
  function Hash<V>(n: Node<V>): Digest<V>
    decreases n, 1
  {
    match n
    case Empty => NoDigest
    case Leaf(k, e) => LeafDigest(k, e.value)
    case Branch(p, cs, _) =>
      var live := LiveSlots(cs);
      if Kids(live) == 1 then
        LowestPresent(live);
        Hash(cs[Lowest(live, 0)])
      else
        BranchDigest(p, HashSlots(cs))
  }

  function HashSlots<V>(cs: seq<Node<V>>): (ds: seq<Digest<V>>)
    ensures |ds| == |cs|
    ensures forall i :: 0 <= i < |cs| ==> ds[i] == if LiveCount(cs[i]) > 0 then Hash(cs[i]) else NoDigest
    decreases cs, 0
  {
    if cs == [] then []
    else
      var last := cs[|cs| - 1];
      HashSlots(cs[..|cs| - 1]) + [if LiveCount(last) > 0 then Hash(last) else NoDigest]
  }

  /** `get_root_hash`: the number of live leaves and, if there are any, the hash of the root node. */
  function RootHash<V>(n: Node<V>): RootDigest<V> {
    RootDigest(LiveCount(n), if LiveCount(n) > 0 then Hash(n) else NoDigest)
  }

  // ---- Live leaves ---------------------------------------------------------------------------------------

  /** Offer leaves: one leaf each, marked or not. */
  ghost predicate LeavesOk<V>(n: Node<V>) {
    MarksOk(n) && forall k :: Get(n, k).Some? ==> Get(n, k).value.meta.size == 1
  }

  /** The values of the leaves that are not marked for deletion. */
  ghost function LiveValues<V>(n: Node<V>): map<Key, V> {
    map k | k in Contents(n) && !Marked(Contents(n)[k], DeletionMark) :: Contents(n)[k].value
  }

  ghost predicate Live<V>(n: Node<V>, k: Key) {
    k in LiveValues(n)
  }

  lemma SlotOk<V>(n: Node<V>, L: nat, i: Nibble)
    requires n.Branch? && Shaped(n, L) && LeavesOk(n)
    ensures LeavesOk(n.children[i])
  {
    forall k | Get(n.children[i], k).Some? ensures Get(n.children[i], k) == Get(n, k) {
      SlotGet(n, L, i, k);
    }
  }

  /** A branch's live leaves are those of its slots. */
  lemma SlotLive<V>(n: Node<V>, L: nat, i: Nibble, k: Key)
    requires n.Branch? && Shaped(n, L)
    ensures Live(n.children[i], k) <==> Live(n, k) && InSlot(k, n.prefix, i)
    ensures Live(n.children[i], k) ==> LiveValues(n.children[i])[k] == LiveValues(n)[k]
    ensures Live(n, k) ==> |k| == L && n.prefix <= k
  {
    SlotGet(n, L, i, k);
    BranchGet(n, L, k);
    assert k in Contents(n) <==> Get(n, k).Some?;
    assert k in Contents(n.children[i]) <==> Get(n.children[i], k).Some?;
  }

  lemma {:induction false} SizeIsCount<V>(s: seq<Item<V>>)
    requires forall x :: x in s ==> x.entry.meta.size == 1
    ensures Total(s).size == |s|
  {
    if s != [] {
      SizeIsCount(s[..|s| - 1]);
    }
  }

  lemma {:induction false} ChosenLength<V>(s: seq<Item<V>>, fld: Field)
    ensures |Chosen(s, fld)| <= |s|
    ensures |Chosen(s, fld)| < |s| ==> exists x :: x in s && !Marked(x.entry, fld)
    ensures |Chosen(s, fld)| == |s| ==> forall x :: x in s ==> Marked(x.entry, fld)
  {
    if s != [] {
      ChosenLength(s[..|s| - 1], fld);
      assert s[|s| - 1] in s;
      assert forall x :: x in s <==> x in s[..|s| - 1] || x == s[|s| - 1];
    }
  }

  /** The cached counts tell whether a node has a live leaf. */
  lemma LiveCountPositive<V>(n: Node<V>, L: nat)
    requires n.Empty? || Shaped(n, L)
    requires LeavesOk(n)
    ensures LiveCount(n) >= 0
    ensures LiveCount(n) > 0 <==> exists k :: Live(n, k)
  {
    if !n.Empty? {
      var s := Leaves(n);
      CachedTotal(n, L);
      forall x | x in s ensures Get(n, x.key) == Some(x.entry) {
        LeafPresent(n, L, x);
      }
      SizeIsCount(s);
      NothingMarked(n, L, DeletionMark);
      ChosenLength(s, DeletionMark);
      if LiveCount(n) > 0 {
        var x :| x in s && !Marked(x.entry, DeletionMark);
        assert Live(n, x.key);
      } else {
        forall k ensures !Live(n, k) {
          if Get(n, k).Some? {
            PresentLeaf(n, L, k);
          }
        }
      }
    }
  }

  // ---- The hash determines the live leaves ---------------------------------------------------------------

  ghost function LiveGet<V>(n: Node<V>, k: Key): Option<V> {
    if Live(n, k) then Some(LiveValues(n)[k]) else None
  }

  /** Reading a key off a digest. */
  ghost function DigestGet<V>(d: Digest<V>, k: Key): Option<V> {
    match d
    case NoDigest => None
    case LeafDigest(key, v) => if k == key then Some(v) else None
    case BranchDigest(p, slots) =>
      if p <= k && |p| < |k| && k[|p|] < |slots| then DigestGet(slots[k[|p|]], k) else None
  }

  /** A branch with one live slot has the live leaves of that slot. */
  lemma LoneLiveSlot<V>(n: Node<V>, L: nat) returns (i: Nibble)
    requires n.Branch? && Shaped(n, L) && LeavesOk(n)
    requires Kids(LiveSlots(n.children)) == 1
    ensures Hash(n) == Hash(n.children[i])
    ensures !n.children[i].Empty? && LiveCount(n.children[i]) > 0
    ensures forall k :: LiveGet(n, k) == LiveGet(n.children[i], k)
  {
    var live := LiveSlots(n.children);
    LowestPresent(live);
    i := Lowest(live, 0);
    LoneKid(live, i);
    forall k ensures LiveGet(n, k) == LiveGet(n.children[i], k) {
      SlotLive(n, L, i, k);
      if Live(n, k) {
        LiveSlotOf(n, L, k);
      }
    }
  }

  /** A live key makes its slot live. */
  lemma LiveSlotOf<V>(n: Node<V>, L: nat, k: Key)
    requires n.Branch? && Shaped(n, L) && LeavesOk(n) && Live(n, k)
    ensures |k| == L && n.prefix <= k
    ensures var i := k[|n.prefix|];
            LiveCount(n.children[i]) > 0 && !LiveSlots(n.children)[i].Empty? && Live(n.children[i], k)
  {
    SlotLive(n, L, 0, k);
    var i := k[|n.prefix|];
    SlotLive(n, L, i, k);
    SlotOk(n, L, i);
    LiveCountPositive(n.children[i], L);
  }

  /** The digest of a node lists exactly its live leaves. */
  lemma {:induction false} DigestReads<V>(n: Node<V>, L: nat, k: Key)
    requires Shaped(n, L) && LeavesOk(n) && LiveCount(n) > 0
    ensures DigestGet(Hash(n), k) == LiveGet(n, k)
  {
    if n.Leaf? {
      LiveCountPositive(n, L);
    } else if Kids(LiveSlots(n.children)) == 1 {
      var i := LoneLiveSlot(n, L);
      SlotOk(n, L, i);
      DigestReads(n.children[i], L, k);
    } else if n.prefix <= k && |n.prefix| < |k| {
      var i := k[|n.prefix|];
      SlotLive(n, L, i, k);
      SlotOk(n, L, i);
      LiveCountPositive(n.children[i], L);
      if LiveCount(n.children[i]) > 0 {
        DigestReads(n.children[i], L, k);
      }
    } else {
      SlotLive(n, L, 0, k);
    }
  }

  // ---- The live leaves determine the hash ----------------------------------------------------------------

  lemma TwoLiveSlots<V>(n: Node<V>, L: nat) returns (a: Key, b: Key)
    requires n.Branch? && Shaped(n, L) && LeavesOk(n) && LiveCount(n) > 0
    requires Kids(LiveSlots(n.children)) != 1
    ensures Live(n, a) && Live(n, b) && Splits(n.prefix, a, b)
  {
    var live := LiveSlots(n.children);
    LiveCountPositive(n, L);
    a :| Live(n, a);
    LiveSlotOf(n, L, a);
    var i: Nibble := a[|n.prefix|];
    KidPresent(live, i);
    var j: Nibble := OtherKid(live, i);
    SlotOk(n, L, j);
    LiveCountPositive(n.children[j], L);
    b :| Live(n.children[j], b);
    SlotLive(n, L, j, b);
  }

  ghost predicate SameLive<V>(m: Node<V>, n: Node<V>) {
    forall k :: LiveGet(m, k) == LiveGet(n, k)
  }

  lemma SamePrefix<V>(m: Node<V>, n: Node<V>, L: nat)
    requires m.Branch? && Shaped(m, L) && LeavesOk(m) && LiveCount(m) > 0 && Kids(LiveSlots(m.children)) != 1
    requires n.Branch? && Shaped(n, L) && LeavesOk(n) && LiveCount(n) > 0 && Kids(LiveSlots(n.children)) != 1
    requires SameLive(m, n)
    ensures m.prefix == n.prefix
  {
    var a, b := TwoLiveSlots(m, L);
    var c, d := TwoLiveSlots(n, L);
    assert LiveGet(m, a) == LiveGet(n, a) && LiveGet(m, b) == LiveGet(n, b);
    assert LiveGet(m, c) == LiveGet(n, c) && LiveGet(m, d) == LiveGet(n, d);
    SlotLive(n, L, 0, a);
    SlotLive(n, L, 0, b);
    SlotLive(m, L, 0, c);
    SlotLive(m, L, 0, d);
    SplitsBound(m.prefix, n.prefix, a, b);
    SplitsBound(n.prefix, m.prefix, c, d);
    assert m.prefix == a[..|m.prefix|] == n.prefix;
  }

  lemma OneLiveKey<V>(m: Node<V>, n: Node<V>, k: Key)
    requires m.Leaf? && SameLive(m, n) && Live(n, k)
    ensures k == m.key
  {
    assert LiveGet(m, k) == LiveGet(n, k);
  }

  /** A leaf and a branch with two live slots cannot have the same live leaves. */
  lemma LeafIsNotBranch<V>(m: Node<V>, n: Node<V>, L: nat)
    requires m.Leaf? && SameLive(m, n)
    requires n.Branch? && Shaped(n, L) && LeavesOk(n) && LiveCount(n) > 0
    ensures Kids(LiveSlots(n.children)) == 1
  {
    if Kids(LiveSlots(n.children)) != 1 {
      var a, b := TwoLiveSlots(n, L);
      OneLiveKey(m, n, a);
      OneLiveKey(m, n, b);
    }
  }

  lemma SlotSameLive<V>(m: Node<V>, n: Node<V>, L: nat, i: Nibble)
    requires m.Branch? && Shaped(m, L) && LeavesOk(m)
    requires n.Branch? && Shaped(n, L) && LeavesOk(n)
    requires SameLive(m, n) && m.prefix == n.prefix
    ensures LeavesOk(m.children[i]) && LeavesOk(n.children[i]) && SameLive(m.children[i], n.children[i])
    ensures LiveCount(m.children[i]) > 0 <==> LiveCount(n.children[i]) > 0
  {
    var x, y := m.children[i], n.children[i];
    SlotOk(m, L, i);
    SlotOk(n, L, i);
    forall k ensures LiveGet(x, k) == LiveGet(y, k) {
      SlotLive(m, L, i, k);
      SlotLive(n, L, i, k);
      assert LiveGet(m, k) == LiveGet(n, k);
    }
    LiveCountPositive(x, L);
    LiveCountPositive(y, L);
    assert forall k :: Live(x, k) <==> LiveGet(x, k).Some?;
    assert forall k :: Live(y, k) <==> LiveGet(y, k).Some?;
  }

  /** Nodes with the same live leaves hash alike, whatever else they hold. */
  lemma {:induction false} SameLiveSameHash<V>(m: Node<V>, n: Node<V>, L: nat)
    requires Shaped(m, L) && LeavesOk(m) && LiveCount(m) > 0
    requires Shaped(n, L) && LeavesOk(n) && LiveCount(n) > 0
    requires SameLive(m, n)
    ensures Hash(m) == Hash(n)
    decreases m, n
  {
    if m.Branch? && Kids(LiveSlots(m.children)) == 1 {
      var i := LoneLiveSlot(m, L);
      SlotOk(m, L, i);
      SameLiveSameHash(m.children[i], n, L);
    } else if n.Branch? && Kids(LiveSlots(n.children)) == 1 {
      var i := LoneLiveSlot(n, L);
      SlotOk(n, L, i);
      SameLiveSameHash(m, n.children[i], L);
    } else if m.Leaf? {
      if n.Branch? {
        LeafIsNotBranch(m, n, L);
      }
      LiveCountPositive(m, L);
      assert LiveGet(m, m.key) == LiveGet(n, m.key);
    } else if n.Leaf? {
      LeafIsNotBranch(n, m, L);
    } else {
      SamePrefix(m, n, L);
      forall i: Nibble ensures HashSlots(m.children)[i] == HashSlots(n.children)[i] {
        SlotSameLive(m, n, L, i);
        if LiveCount(m.children[i]) > 0 {
          SameLiveSameHash(m.children[i], n.children[i], L);
        }
      }
      assert HashSlots(m.children) == HashSlots(n.children);
    }
  }

  // ---- The root hash -------------------------------------------------------------------------------------

  ghost function LiveKeysOf<V>(s: seq<Item<V>>): set<Key> {
    if s == [] then {}
    else LiveKeysOf(s[..|s| - 1]) + if Marked(s[|s| - 1].entry, DeletionMark) then {} else {s[|s| - 1].key}
  }

  lemma {:induction false} LiveKeyItem<V>(s: seq<Item<V>>, k: Key) returns (i: nat)
    requires k in LiveKeysOf(s)
    ensures i < |s| && s[i].key == k && !Marked(s[i].entry, DeletionMark)
  {
    if k in LiveKeysOf(s[..|s| - 1]) {
      i := LiveKeyItem(s[..|s| - 1], k);
    } else {
      i := |s| - 1;
    }
  }

  lemma {:induction false} ItemLiveKey<V>(s: seq<Item<V>>, i: nat)
    requires i < |s| && !Marked(s[i].entry, DeletionMark)
    ensures s[i].key in LiveKeysOf(s)
  {
    if i < |s| - 1 {
      ItemLiveKey(s[..|s| - 1], i);
    }
  }

  lemma {:induction false} LiveKeysCount<V>(s: seq<Item<V>>)
    requires Sorted(s)
    ensures |LiveKeysOf(s)| == |s| - |Chosen(s, DeletionMark)|
  {
    if s != [] {
      var init, last := s[..|s| - 1], s[|s| - 1];
      LiveKeysCount(init);
      if last.key in LiveKeysOf(init) {
        var i := LiveKeyItem(init, last.key);
        BeforeIrreflexive(last.key);
      }
    }
  }

  /** The count written into the root hash is the number of live leaves. */
  lemma LiveCountExact<V>(n: Node<V>, L: nat)
    requires n.Empty? || Shaped(n, L)
    requires LeavesOk(n)
    ensures LiveCount(n) == |LiveValues(n)|
  {
    if n.Empty? {
      assert LiveValues(n) == map[];
    } else {
      var s := Leaves(n);
      CachedTotal(n, L);
      forall x | x in s ensures Get(n, x.key) == Some(x.entry) {
        LeafPresent(n, L, x);
      }
      SizeIsCount(s);
      NothingMarked(n, L, DeletionMark);
      LeavesSorted(n, L);
      LiveKeysCount(s);
      forall k ensures k in LiveKeysOf(s) <==> k in LiveValues(n) {
        if k in LiveValues(n) {
          PresentLeaf(n, L, k);
          var i :| 0 <= i < |s| && s[i] == Item(k, Get(n, k).value);
          ItemLiveKey(s, i);
        }
        if k in LiveKeysOf(s) {
          var i := LiveKeyItem(s, k);
          assert s[i] in s;
        }
      }
      assert LiveKeysOf(s) == LiveValues(n).Keys;
    }
  }

  /**
   Two tries have the same root hash exactly when they have the same live leaves, whatever their marked leaves,
   their insertion order or their pending contractions.
   */
  lemma RootHashExact<V>(m: Node<V>, n: Node<V>, L: nat)
    requires (m.Empty? || Shaped(m, L)) && LeavesOk(m)
    requires (n.Empty? || Shaped(n, L)) && LeavesOk(n)
    ensures RootHash(m) == RootHash(n) <==> LiveValues(m) == LiveValues(n)
  {
    LiveCountExact(m, L);
    LiveCountExact(n, L);
    if LiveValues(m) == LiveValues(n) && LiveCount(m) > 0 {
      assert SameLive(m, n);
      SameLiveSameHash(m, n, L);
    }
    if RootHash(m) == RootHash(n) {
      forall k ensures LiveGet(m, k) == LiveGet(n, k) {
        if LiveCount(m) > 0 {
          DigestReads(m, L, k);
          DigestReads(n, L, k);
        }
      }
      assert forall k :: k in LiveValues(m) <==> LiveGet(m, k).Some?;
      assert forall k :: k in LiveValues(n) <==> LiveGet(n, k).Some?;
      forall k | k in LiveValues(m) ensures LiveValues(m)[k] == LiveValues(n)[k] {
        assert LiveGet(m, k) == LiveGet(n, k);
      }
      assert LiveValues(m) == LiveValues(n);
    }
  }

  /** Removing the marked leaves does not change the root hash. */
  lemma PruningKeepsRootHash<V>(r: Node<V>, n: Node<V>, L: nat)
    requires CanonTrie(n, L) && CanonTrie(r, L) && LeavesOk(n)
    requires Pruned(r, n, DeletionMark)
    ensures RootHash(r) == RootHash(n)
  {
    forall k | Get(r, k).Some? ensures Get(r, k) == Get(n, k) {
      assert Get(r, k) == Unmarked(Get(n, k), DeletionMark);
    }
    forall k ensures k in LiveValues(r) <==> k in LiveValues(n) {
      assert Get(r, k) == Unmarked(Get(n, k), DeletionMark);
      assert k in Contents(r) <==> Get(r, k).Some?;
      assert k in Contents(n) <==> Get(n, k).Some?;
    }
    forall k | k in LiveValues(r) ensures LiveValues(r)[k] == LiveValues(n)[k] {
      assert Get(r, k) == Get(n, k);
    }
    assert LiveValues(r) == LiveValues(n);
    RootHashExact(r, n, L);
  }
}
