/**
 Deleting one key, marking keys for deletion, and removing every marked leaf at once.

 The node-level routines leave a branch with a single child in place; the caller (the parent node, or the trie
 at the root) then replaces it by that child.
 */
module TrieDelete {
  import opened Keys
  import opened Trie
  import opened Canonical
  import opened TrieOps

  /** A node whose own branch may have one child but which is canonical below. */
  ghost predicate NearCanon<V>(n: Node<V>, L: nat) {
    && Shaped(n, L)
    && (n.Branch? ==> Kids(n.children) >= 1 && forall c :: c in n.children ==> Compact(c))
  }

  /** The first slot from `i` on that holds a child. */
  function Lowest<V>(cs: seq<Node<V>>, i: nat): (r: nat)
    requires i <= |cs|
    ensures i <= r <= |cs|
    ensures forall j :: i <= j < r ==> cs[j].Empty?
    ensures r < |cs| ==> !cs[r].Empty?
    decreases |cs| - i
  {
    if i < |cs| && cs[i].Empty? then Lowest(cs, i + 1) else i
  }

  lemma LowestPresent<V>(cs: seq<Node<V>>)
    requires Kids(cs) >= 1
    ensures Lowest(cs, 0) < |cs|
  {
    var i := SomeKid(cs);
  }

  /** `single_child` / `get_single_child`: a branch with one child gives way to that child. */
  function Contract<V>(n: Node<V>): Node<V> {
    if n.Branch? && Kids(n.children) == 1 then
      LowestPresent(n.children);
      n.children[Lowest(n.children, 0)]
    else
      n
  }

  lemma ContractCanon<V>(n: Node<V>, L: nat)
    requires NearCanon(n, L)
    ensures Canon(Contract(n), L)
    ensures MetaOf(Contract(n)) == MetaOf(n)
    ensures PrefixOf(n) <= PrefixOf(Contract(n))
  {
    if n.Branch? && Kids(n.children) == 1 {
      LowestPresent(n.children);
      var i: Nibble := Lowest(n.children, 0);
      LoneKid(n.children, i);
      assert UnderSlot(n.children[i], n.prefix, i);
    }
  }

  lemma ContractGet<V>(n: Node<V>, L: nat, k: Key)
    requires NearCanon(n, L)
    ensures Get(Contract(n), k) == Get(n, k)
  {
    if n.Branch? && Kids(n.children) == 1 {
      LowestPresent(n.children);
      var i: Nibble := Lowest(n.children, 0);
      LoneKid(n.children, i);
      BranchGet(n, L, k);
      SlotGet(n, L, i, k);
    }
  }

  /** Removing or replacing one child of a canonical branch leaves it near canonical. */
  lemma SetSlotNear<V>(n: Node<V>, L: nat, i: Nibble, c: Node<V>)
    requires n.Branch? && Canon(n, L)
    requires c.Empty? || (Canon(c, L) && UnderSlot(c, n.prefix, i))
    ensures NearCanon(SetSlot(n, i, c), L)
  {
    SetSlotShaped(n, L, i, c);
    KidsUpdate(n.children, i, c);
  }

  // ---- Deleting one key ------------------------------------------------------------------------------------

  ghost predicate Deleted<V>(r: Node<V>, n: Node<V>, key: Key) {
    forall k :: Get(r, k) == if k == key then None else Get(n, k)
  }

  /** `TrieNode::perform_deletion`: `gone` tells the parent to drop this node. */
  method DeleteNode<V>(n: Node<V>, L: nat, key: Key)
    returns (gone: bool, found: Option<Entry<V>>, r: Node<V>, delta: Meta)
    requires Canon(n, L) && |key| == L
    ensures found == Get(n, key)
    ensures gone ==> n.Leaf? && r == Empty
    ensures !gone ==> NearCanon(r, L) && PrefixOf(r) == PrefixOf(n)
    ensures Deleted(r, n, key)
    ensures delta == Minus(MetaOf(r), MetaOf(n))
    decreases n
  {
    if !(PrefixOf(n) <= key) {
      AbsentBelow(n, L, key);
      return false, None, n, Zero;
    }
    if n.Leaf? {
      assert n.key == key;
      return true, Some(n.entry), Empty, Minus(Zero, n.entry.meta);
    }
    var b := key[|n.prefix|];
    var child := n.children[b];
    SlotGet(n, L, b, key);
    assert UnderSlot(child, n.prefix, b);
    if child.Empty? {
      return false, None, n, Zero;
    }
    var dropped, c;
    dropped, found, c, delta := DeleteNode(child, L, key);
    DeletedSlot(n, L, b, c, key);
    r := SetSlot(n, b, if dropped then Empty else Contract(c));
    gone := false;
  }

  lemma AbsentBelow<V>(n: Node<V>, L: nat, key: Key)
    requires Canon(n, L) && !(PrefixOf(n) <= key)
    ensures Get(n, key) == None
  {
    if key in Contents(n) {
      ContentsUnder(n, L, key);
    }
  }

  lemma DeletedSlot<V>(n: Node<V>, L: nat, b: Nibble, c: Node<V>, key: Key)
    requires n.Branch? && Canon(n, L) && !n.children[b].Empty? && InSlot(key, n.prefix, b)
    requires c.Empty? || (NearCanon(c, L) && PrefixOf(c) == PrefixOf(n.children[b]))
    requires Deleted(c, n.children[b], key)
    ensures var d := Contract(c);
            && NearCanon(SetSlot(n, b, d), L)
            && MetaOf(d) == MetaOf(c)
            && Deleted(SetSlot(n, b, d), n, key)
  {
    var d := Contract(c);
    assert UnderSlot(n.children[b], n.prefix, b);
    if !c.Empty? {
      ContractCanon(c, L);
    }
    SetSlotNear(n, L, b, d);
    forall k ensures Get(SetSlot(n, b, d), k) == if k == key then None else Get(n, k) {
      SetSlotGet(n, L, b, d, k);
      SlotGet(n, L, b, k);
      if !c.Empty? {
        ContractGet(c, L, k);
      }
    }
  }

  /** `MerkleTrie::perform_deletion`. */
  method Delete<V>(n: Node<V>, L: nat, key: Key) returns (found: Option<Entry<V>>, r: Node<V>)
    requires CanonTrie(n, L) && |key| == L
    ensures CanonTrie(r, L)
    ensures found == Get(n, key)
    ensures Contents(r) == Contents(n) - {key}
  {
    if n.Empty? {
      return None, Empty;
    }
    var gone, c, delta;
    gone, found, c, delta := DeleteNode(n, L, key);
    r := if gone then Empty else Contract(c);
    if !gone {
      ContractCanon(c, L);
      forall k ensures Get(r, k) == Get(c, k) {
        ContractGet(c, L, k);
      }
    }
    DeletedContents(r, n, key);
  }

  lemma DeletedContents<V>(r: Node<V>, n: Node<V>, key: Key)
    requires Deleted(r, n, key)
    ensures Contents(r) == Contents(n) - {key}
  {
    forall k ensures k in Contents(r) <==> k in Contents(n) - {key} {
      assert Get(r, k) == if k == key then None else Get(n, k);
    }
    forall k | k in Contents(r) ensures Contents(r)[k] == Contents(n)[k] {
      assert Get(r, k) == Get(n, k);
    }
  }
}
