/**
 Read-only traversals and the whole-trie merge: what the order book uses besides the routines of the other modules.
 */
module TrieQueries {
  import opened Keys
  import opened Trie
  import opened Canonical
  import opened TrieMerge
  import opened TrieOrder
  import opened TrieDelete
  import opened TrieSplit

  // ---- accumulate_values -------------------------------------------------------------------------------------

  ghost function Values<V>(s: seq<Item<V>>): seq<V> {
    seq(|s|, i requires 0 <= i < |s| => s[i].entry.value)
  }

  lemma ValuesConcat<V>(s: seq<Item<V>>, t: seq<Item<V>>)
    ensures Values(s + t) == Values(s) + Values(t)
  {
  }

  /** `TrieNode::accumulate_values`. */
  method AccumulateValues<V>(n: Node<V>, L: nat) returns (vs: seq<V>)
    requires n.Empty? || Shaped(n, L)
    ensures vs == Values(Leaves(n))
    decreases n
  {
    if n.Empty? {
      return [];
    }
    if n.Leaf? {
      return [n.entry.value];
    }
    vs := [];
    assert n.children[..0] == [];
    for i: int := 0 to 16
      invariant vs == Values(LeavesOf(n.children[..i]))
    {
      var j: Nibble := i;
      var c := AccumulateValues(n.children[j], L);
      ValuesStep(n.children, j);
      vs := vs + c;
    }
    assert n.children[..16] == n.children;
  }

  lemma ValuesStep<V>(cs: seq<Node<V>>, i: nat)
    requires i < |cs|
    ensures Values(LeavesOf(cs[..i + 1])) == Values(LeavesOf(cs[..i])) + Values(Leaves(cs[i]))
  {
    LeavesTake(cs, i);
    ValuesConcat(LeavesOf(cs[..i]), Leaves(cs[i]));
  }

  // ---- get_lowest_key ------------------------------------------------------------------------------------------

  /** `TrieNode::get_lowest_key`. */
  method GetLowestKey<V>(n: Node<V>, L: nat) returns (k: Option<Key>)
    requires CanonTrie(n, L)
    ensures k.None? <==> Leaves(n) == []
    ensures k.Some? ==> k.value == Leaves(n)[0].key
    decreases n
  {
    if n.Empty? {
      return None;
    }
    if n.Leaf? {
      return Some(n.key);
    }
    LowestPresent(n.children);
    var i: Nibble := Lowest(n.children, 0);
    k := GetLowestKey(n.children[i], L);
    BackLeaves(n.children, i);
    NonEmptyLeaves(n.children[i], L);
  }

  lemma NonEmptyLeaves<V>(n: Node<V>, L: nat)
    requires Canon(n, L)
    ensures Leaves(n) != []
  {
    var k := HasKey(n, L);
    PresentLeaf(n, L, k);
  }

  // ---- MerkleTrie::merge_in --------------------------------------------------------------------------------------


  /** `MerkleTrie::merge_in` with `OverwriteMergeFn`: the merged-in trie wins on shared keys. */
  method MergeTries<V>(a: Node<V>, b: Node<V>, L: nat) returns (r: Node<V>)
    requires CanonTrie(a, L) && CanonTrie(b, L)
    ensures CanonTrie(r, L)
    ensures Contents(r) == Contents(a) + Contents(b)
  {
    if a.Empty? {
      r := b;
    } else if b.Empty? {
      r := a;
    } else {
      CompactIsJustified(b, L, Contents(a).Keys + Contents(b).Keys);
      var f: MergeFn<V> := (x, y) => y;
      var delta;
      r, delta := MergeIn(a, b, L, f);
      MergedKeys(r, a, b, f);
      forall k | k in Contents(r) ensures Contents(r)[k] == (Contents(a) + Contents(b))[k] {
        assert Get(r, k) == MergeEntries(Get(a, k), Get(b, k), f);
      }
    }
  }
}
