/**
 Lazy deletion: marks on leaves, removal of every marked leaf, and rollback of freshly inserted leaves.

 `perform_marked_deletions` and `do_rollback` are the same traversal over two metadata fields, so they share
 `PruneNode`; what differs is how the trie treats an emptied root.
 */
module TrieMarks {
  import opened Keys
  import opened Trie
  import opened Canonical
  import opened TrieOps
  import opened TrieOrder
  import opened TrieDelete

  datatype Field = DeletionMark | RollbackMark

  function Count(m: Meta, fld: Field): int {
    if fld.DeletionMark? then m.deleted else m.rollback
  }

  predicate Marked<V>(e: Entry<V>, fld: Field) {
    Count(e.meta, fld) == 1
  }

  /** Leaves are marked once or not at all. */
  ghost predicate MarksOk<V>(n: Node<V>) {
    forall k :: Get(n, k).Some? ==> 0 <= Get(n, k).value.meta.deleted <= 1 && 0 <= Get(n, k).value.meta.rollback <= 1
  }

  ghost function Unmarked<V>(x: Option<Entry<V>>, fld: Field): Option<Entry<V>> {
    if x.Some? && Marked(x.value, fld) then None else x
  }

  ghost predicate Pruned<V>(r: Node<V>, n: Node<V>, fld: Field) {
    forall k :: Get(r, k) == Unmarked(Get(n, k), fld)
  }

  /** The marked items of a list, in order. */
  ghost function Chosen<V>(s: seq<Item<V>>, fld: Field): seq<Item<V>> {
    if s == [] then []
    else Chosen(s[..|s| - 1], fld) + (if Marked(s[|s| - 1].entry, fld) then [s[|s| - 1]] else [])
  }

  lemma {:induction false} ChosenConcat<V>(s: seq<Item<V>>, t: seq<Item<V>>, fld: Field)
    ensures Chosen(s + t, fld) == Chosen(s, fld) + Chosen(t, fld)
    decreases |t|
  {
    if t == [] {
      assert s + t == s;
    } else {
      ChosenConcat(s, t[..|t| - 1], fld);
      assert (s + t)[..|s + t| - 1] == s + t[..|t| - 1];
    }
  }

  lemma {:induction false} ChosenItems<V>(s: seq<Item<V>>, fld: Field, x: Item<V>)
    ensures x in Chosen(s, fld) <==> x in s && Marked(x.entry, fld)
  {
    if s != [] {
      ChosenItems(s[..|s| - 1], fld, x);
      assert s == s[..|s| - 1] + [s[|s| - 1]];
    }
  }

  /** The cached mark count of a node is the number of its marked leaves. */
  lemma {:induction false} ChosenCount<V>(s: seq<Item<V>>, fld: Field)
    requires forall x :: x in s ==> 0 <= Count(x.entry.meta, fld) <= 1
    ensures Count(Total(s), fld) == |Chosen(s, fld)|
  {
    if s != [] {
      ChosenCount(s[..|s| - 1], fld);
    }
  }

  /** No marks counted: no leaf is marked. */
  lemma NothingMarked<V>(n: Node<V>, L: nat, fld: Field)
    requires Shaped(n, L) && MarksOk(n)
    ensures Count(MetaOf(n), fld) == |Chosen(Leaves(n), fld)|
    ensures Count(MetaOf(n), fld) == 0 ==> Pruned(n, n, fld)
  {
    CachedTotal(n, L);
    forall x | x in Leaves(n) ensures 0 <= Count(x.entry.meta, fld) <= 1 {
      LeafPresent(n, L, x);
    }
    ChosenCount(Leaves(n), fld);
    if Count(MetaOf(n), fld) == 0 {
      forall k ensures Get(n, k) == Unmarked(Get(n, k), fld) {
        if Get(n, k).Some? {
          PresentLeaf(n, L, k);
          ChosenItems(Leaves(n), fld, Item(k, Get(n, k).value));
        }
      }
    }
  }

  // ---- Marking one leaf ------------------------------------------------------------------------------------

  function WithDeleted<V>(e: Entry<V>, d: int): Entry<V> {
    e.(meta := e.meta.(deleted := d))
  }

  ghost predicate MarkSwapped<V>(r: Node<V>, n: Node<V>, key: Key, from: int, to: int, changed: Option<V>) {
    var e := Get(n, key);
    if e.Some? && e.value.meta.deleted == from then
      Contents(r) == Contents(n)[key := WithDeleted(e.value, to)] && changed == Some(e.value.value)
    else
      r == n && changed == None
  }

  /**
   `TrieNode::mark_for_deletion` (`from` 0, `to` 1) and `unmark_for_deletion` (`from` 1, `to` 0): an atomic
   compare-and-swap on the leaf's mark. The value is returned only when the mark changed.
   */
  method SwapMark<V>(n: Node<V>, L: nat, key: Key, from: int, to: int)
    returns (r: Node<V>, delta: Meta, changed: Option<V>)
    requires Canon(n, L) && |key| == L
    ensures Canon(r, L) && PrefixOf(r) == PrefixOf(n)
    ensures MarkSwapped(r, n, key, from, to, changed)
    ensures delta == Minus(MetaOf(r), MetaOf(n))
    decreases n, 1
  {
    if !(PrefixOf(n) <= key) {
      AbsentBelow(n, L, key);
      return n, Zero, None;
    }
    if n.Leaf? {
      assert n.key == key;
      if n.entry.meta.deleted == from {
        return Leaf(key, WithDeleted(n.entry, to)), Meta(0, 0, to - from, 0), Some(n.entry.value);
      }
      return n, Zero, None;
    }
    r, delta, changed := SwapMarkBelow(n, L, key, from, to);
  }

  lemma SetSlotSame<V>(n: Node<V>, b: Nibble)
    requires n.Branch? && |n.children| == 16
    ensures SetSlot(n, b, n.children[b]) == n
  {
    assert n.children[b := n.children[b]] == n.children;
  }

  method SwapMarkBelow<V>(n: Node<V>, L: nat, key: Key, from: int, to: int)
    returns (r: Node<V>, delta: Meta, changed: Option<V>)
    requires n.Branch? && Canon(n, L) && |key| == L && n.prefix <= key
    ensures Canon(r, L) && PrefixOf(r) == PrefixOf(n)
    ensures MarkSwapped(r, n, key, from, to, changed)
    ensures delta == Minus(MetaOf(r), MetaOf(n))
    decreases n, 0
  {
    var b := key[|n.prefix|];
    SlotGet(n, L, b, key);
    if n.children[b].Empty? {
      return n, Zero, None;
    }
    var c;
    c, delta, changed := SwapMark(n.children[b], L, key, from, to);
    r := SetSlot(n, b, c);
    if changed.Some? {
      InsertedSlot(n, L, b, c, key, WithDeleted(Get(n, key).value, to));
    } else {
      SetSlotSame(n, b);
    }
  }

  // ---- Removing every marked leaf --------------------------------------------------------------------------

  ghost predicate SlotPruned<V>(c: Node<V>, x: Node<V>, L: nat, p: Key, i: Nibble, fld: Field) {
    && (c.Empty? || (Canon(c, L) && UnderSlot(c, p, i)))
    && Pruned(c, x, fld)
  }

  /** `TrieNode::perform_marked_deletions` and `TrieNode::do_rollback`. */
  method PruneNode<V>(n: Node<V>, L: nat, fld: Field)
    returns (gone: bool, r: Node<V>, delta: Meta, log: seq<Item<V>>)
    requires Canon(n, L) && MarksOk(n)
    ensures gone ==> r == Empty
    ensures !gone ==> NearCanon(r, L) && PrefixOf(r) == PrefixOf(n)
    ensures Pruned(r, n, fld)
    ensures delta == Minus(MetaOf(r), MetaOf(n))
    ensures log == Chosen(Leaves(n), fld)
    decreases n, 1
  {
    NothingMarked(n, L, fld);
    if Count(MetaOf(n), fld) == 0 {
      return false, n, Zero, [];
    }
    if n.Leaf? {
      assert Get(n, n.key) == Some(n.entry);
      assert Leaves(n)[..0] == [];
      return true, Empty, Minus(Zero, n.entry.meta), [Item(n.key, n.entry)];
    }
    gone, r, delta, log := PruneChildren(n, L, fld);
  }

  method PruneChildren<V>(n: Node<V>, L: nat, fld: Field)
    returns (gone: bool, r: Node<V>, delta: Meta, log: seq<Item<V>>)
    requires n.Branch? && Canon(n, L) && MarksOk(n)
    ensures gone ==> r == Empty
    ensures !gone ==> NearCanon(r, L) && PrefixOf(r) == PrefixOf(n)
    ensures Pruned(r, n, fld)
    ensures delta == Minus(MetaOf(r), MetaOf(n))
    ensures log == Chosen(Leaves(n), fld)
    decreases n, 0, 1
  {
    var cs;
    cs, delta, log := PruneSlots(n, L, fld);
    MetaGroup(n.meta, delta);
    PrunedBranch(cs, n, L, fld);
    ChosenSlots(n.children, 16, fld);
    assert n.children[..16] == n.children;
    gone := Kids(cs) == 0;
    r := if gone then Empty else Branch(n.prefix, cs, Plus(n.meta, delta));
  }

  method PruneSlots<V>(n: Node<V>, L: nat, fld: Field) returns (cs: seq<Node<V>>, delta: Meta, log: seq<Item<V>>)
    requires n.Branch? && Canon(n, L) && MarksOk(n)
    ensures |cs| == 16
    ensures forall j: Nibble :: SlotPruned(cs[j], n.children[j], L, n.prefix, j, fld)
    ensures SumMeta(cs) == Plus(n.meta, delta)
    ensures log == ChosenTo(n.children, 16, fld)
    decreases n, 0, 0
  {
    cs, delta, log := n.children, Zero, [];
    for i: int := 0 to 16
      invariant PrunedTo(cs, n, L, i, fld)
      invariant SumMeta(cs) == Plus(n.meta, delta)
      invariant log == ChosenTo(n.children, i, fld)
    {
      var j: Nibble := i;
      var c, d, l := PruneSlot(n, L, j, fld);
      SumStep(cs, j, c, n.meta, delta, d);
      PrunedStep(cs, n, L, j, fld, c);
      cs := cs[j := c];
      delta := Plus(delta, d);
      log := log + l;
    }
  }

  /** The first `i` slots are pruned, the others as they were. */
  ghost predicate PrunedTo<V>(cs: seq<Node<V>>, n: Node<V>, L: nat, i: nat, fld: Field) {
    && n.Branch? && |cs| == 16 == |n.children|
    && (forall j: Nibble :: i <= j ==> cs[j] == n.children[j])
    && (forall j: Nibble :: j < i ==> SlotPruned(cs[j], n.children[j], L, n.prefix, j, fld))
  }

  lemma SumStep<V>(cs: seq<Node<V>>, i: nat, c: Node<V>, sum: Meta, delta: Meta, d: Meta)
    requires i < |cs| && SumMeta(cs) == Plus(sum, delta) && d == Minus(MetaOf(c), MetaOf(cs[i]))
    ensures SumMeta(cs[i := c]) == Plus(sum, Plus(delta, d))
  {
    KidsUpdate(cs, i, c);
  }

  lemma PrunedStep<V>(cs: seq<Node<V>>, n: Node<V>, L: nat, i: Nibble, fld: Field, c: Node<V>)
    requires PrunedTo(cs, n, L, i, fld) && SlotPruned(c, n.children[i], L, n.prefix, i, fld)
    ensures PrunedTo(cs[i := c], n, L, i + 1, fld)
  {
  }

  /** The marked leaves of the first `i` slots. */
  ghost function ChosenTo<V>(cs: seq<Node<V>>, i: nat, fld: Field): seq<Item<V>>
    requires i <= |cs|
  {
    if i == 0 then [] else ChosenTo(cs, i - 1, fld) + Chosen(Leaves(cs[i - 1]), fld)
  }

  lemma ChosenSlots<V>(cs: seq<Node<V>>, i: nat, fld: Field)
    requires i <= |cs|
    ensures ChosenTo(cs, i, fld) == Chosen(LeavesOf(cs[..i]), fld)
  {
    assert cs[..0] == [];
    for h := 0 to i
      invariant ChosenTo(cs, h, fld) == Chosen(LeavesOf(cs[..h]), fld)
    {
      ChosenStep(cs, h, fld);
    }
  }

  lemma ChosenStep<V>(cs: seq<Node<V>>, i: nat, fld: Field)
    requires i < |cs|
    ensures Chosen(LeavesOf(cs[..i + 1]), fld) == Chosen(LeavesOf(cs[..i]), fld) + Chosen(Leaves(cs[i]), fld)
  {
    LeavesTake(cs, i);
    ChosenConcat(LeavesOf(cs[..i]), Leaves(cs[i]), fld);
  }

  method PruneSlot<V>(n: Node<V>, L: nat, j: Nibble, fld: Field) returns (c: Node<V>, delta: Meta, log: seq<Item<V>>)
    requires n.Branch? && Canon(n, L) && MarksOk(n)
    ensures SlotPruned(c, n.children[j], L, n.prefix, j, fld)
    ensures delta == Minus(MetaOf(c), MetaOf(n.children[j]))
    ensures log == Chosen(Leaves(n.children[j]), fld)
    decreases n.children[j], 2
  {
    var child := n.children[j];
    if child.Empty? {
      return Empty, Zero, [];
    }
    assert UnderSlot(child, n.prefix, j);
    forall k | Get(child, k).Some? ensures Get(child, k) == Get(n, k) {
      SlotGet(n, L, j, k);
    }
    var gone, d;
    gone, d, delta, log := PruneNode(child, L, fld);
    if gone {
      c := Empty;
    } else {
      c := Contract(d);
      ContractCanon(d, L);
      forall k ensures Get(c, k) == Unmarked(Get(child, k), fld) {
        ContractGet(d, L, k);
      }
    }
  }

  lemma PrunedBranch<V>(cs: seq<Node<V>>, n: Node<V>, L: nat, fld: Field)
    requires n.Branch? && Canon(n, L) && |cs| == 16
    requires forall j: Nibble :: SlotPruned(cs[j], n.children[j], L, n.prefix, j, fld)
    ensures var r := Branch(n.prefix, cs, SumMeta(cs));
            && Shaped(r, L) && Pruned(r, n, fld)
            && (Kids(cs) == 0 ==> Pruned(Empty, n, fld) && SumMeta(cs) == Zero)
            && (Kids(cs) != 0 ==> NearCanon(r, L))
  {
    var r := Branch(n.prefix, cs, SumMeta(cs));
    assert Shaped(r, L);
    forall k ensures Get(r, k) == Unmarked(Get(n, k), fld) {
      BranchGet(r, L, k);
      BranchGet(n, L, k);
      if n.prefix <= k && |n.prefix| < |k| {
        var i := k[|n.prefix|];
        assert Pruned(cs[i], n.children[i], fld);
      }
    }
    if Kids(cs) == 0 {
      forall j: nat | j < 16 ensures cs[j].Empty? {
        if !cs[j].Empty? {
          KidPresent(cs, j);
        }
      }
      NoKidsCount(cs);
      forall k ensures Get<V>(Empty, k) == Get(r, k) {
        BranchGet(r, L, k);
      }
    }
  }

  /** `MerkleTrie::perform_marked_deletions`, reporting the removed leaves in key order. */
  method PerformMarkedDeletions<V>(n: Node<V>, L: nat) returns (r: Node<V>, log: seq<Item<V>>)
    requires CanonTrie(n, L) && MarksOk(n)
    ensures CanonTrie(r, L)
    ensures Pruned(r, n, DeletionMark)
    ensures log == Chosen(Leaves(n), DeletionMark)
  {
    if n.Empty? {
      return n, [];
    }
    var gone, d, delta;
    gone, d, delta, log := PruneNode(n, L, DeletionMark);
    if gone {
      r := Empty;
    } else {
      r := Contract(d);
      ContractCanon(d, L);
      forall k ensures Get(r, k) == Get(d, k) {
        ContractGet(d, L, k);
      }
    }
  }

  /** The trie holds exactly the leaves of `n` that were not inserted as provisional, in canonical form. */
  ghost predicate RolledBack<V>(r: Node<V>, n: Node<V>, L: nat) {
    CanonTrie(r, L) && Pruned(r, n, RollbackMark)
  }

  /**
   `MerkleTrie::do_rollback`. The flag returned by the root is dropped, so an emptied root is not reset: a
   provisional root leaf stays in place, and an emptied root branch stays behind without children. The trie is
   rolled back exactly when some leaf survives (or there was none).
   */
  method DoRollback<V>(n: Node<V>, L: nat) returns (r: Node<V>)
    requires CanonTrie(n, L) && MarksOk(n)
    ensures RolledBack(r, n, L) <==>
            n.Empty? || exists k :: Get(n, k).Some? && !Marked(Get(n, k).value, RollbackMark)
    ensures !RolledBack(r, n, L) ==> r == if n.Leaf? then n else Branch(n.prefix, NoKids(), Zero)
  {
    if n.Empty? {
      return n;
    }
    var gone, d, delta, log := PruneNode(n, L, RollbackMark);
    if gone {
      forall k ensures Unmarked(Get(n, k), RollbackMark) == None {
        assert Get<V>(Empty, k) == Unmarked(Get(n, k), RollbackMark);
      }
      r := if n.Leaf? then n else Branch(n.prefix, NoKids(), Zero);
      StaleRoot(n, L, r);
    } else {
      r := Contract(d);
      ContractCanon(d, L);
      forall k ensures Get(r, k) == Get(d, k) {
        ContractGet(d, L, k);
      }
      var k := HasKey(r, L);
      assert Get(r, k) == Unmarked(Get(n, k), RollbackMark);
    }
  }

  /** A trie of one provisional leaf is not rolled back: the leaf stays. */
  lemma LoneLeafStays<V>(k: Key, v: V, endow: int, L: nat, n: Node<V>)
    requires |k| == L && n == Leaf(k, Entry(v, Meta(1, endow, 0, 1)))
    ensures CanonTrie(n, L) && MarksOk(n) && !RolledBack(n, n, L)
  {
    assert Get(n, k).Some? && Unmarked(Get(n, k), RollbackMark) == None;
  }

  lemma StaleRoot<V>(n: Node<V>, L: nat, r: Node<V>)
    requires Canon(n, L)
    requires forall k :: Unmarked(Get(n, k), RollbackMark) == None
    requires r == if n.Leaf? then n else Branch(n.prefix, NoKids(), Zero)
    ensures !RolledBack(r, n, L)
  {
    if n.Leaf? {
      assert Get(r, n.key) != Unmarked(Get(n, n.key), RollbackMark);
    } else {
      NoKidsCount(r.children);
    }
  }
}
