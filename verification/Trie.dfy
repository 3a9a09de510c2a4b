/**
 The compressed 16-way trie.

 A node owns its children exclusively (`std::unique_ptr` in the offer tries, one arena slot each in the
 account tries), so a node is modelled as a value: rewriting a node in place is producing a new value for it.
 `Empty` stands for an absent child and for the root of an empty trie.
 */
module Trie {
  import opened Keys

  /** The commutative group of node metadata (SizeMixin, WorkUnitMetadata, DeletableMixin, RollbackMixin). */
  datatype Meta = Meta(size: int, endow: int, deleted: int, rollback: int)

  const Zero := Meta(0, 0, 0, 0)

  function Plus(a: Meta, b: Meta): Meta {
    Meta(a.size + b.size, a.endow + b.endow, a.deleted + b.deleted, a.rollback + b.rollback)
  }

  function Minus(a: Meta, b: Meta): Meta {
    Meta(a.size - b.size, a.endow - b.endow, a.deleted - b.deleted, a.rollback - b.rollback)
  }

  /** What a leaf holds: its value and its own metadata. */
  datatype Entry<V> = Entry(value: V, meta: Meta)

  datatype Node<V> =
    | Empty
    | Leaf(key: Key, entry: Entry<V>)
    | Branch(prefix: Key, children: seq<Node<V>>, meta: Meta)

  function MetaOf<V>(n: Node<V>): Meta {
    match n
    case Empty => Zero
    case Leaf(_, e) => e.meta
    case Branch(_, _, m) => m
  }

  function PrefixOf<V>(n: Node<V>): Key
    requires !n.Empty?
  {
    if n.Leaf? then n.key else n.prefix
  }

  function SumMeta<V>(cs: seq<Node<V>>): Meta {
    if cs == [] then Zero else Plus(SumMeta(cs[..|cs| - 1]), MetaOf(cs[|cs| - 1]))
  }

  /** The number of children present (the population count of the child bit vector). */
  function Kids<V>(cs: seq<Node<V>>): nat {
    if cs == [] then 0 else Kids(cs[..|cs| - 1]) + (if cs[|cs| - 1].Empty? then 0 else 1)
  }

  function NoKids<V>(): seq<Node<V>> {
    seq(16, _ => Empty)
  }

  // ---- Shape -------------------------------------------------------------------------------------------

  /** A child slot: absent, or a node lying under `p` followed by the branch nibble `i`. */
  ghost predicate UnderSlot<V>(c: Node<V>, p: Key, i: Nibble) {
    !c.Empty? ==> p + [i] <= PrefixOf(c)
  }

  /** Structure of a node: full-length leaves, children under their branch nibble, cached metadata exact. */
  ghost predicate Shaped<V>(n: Node<V>, L: nat)
  {
    match n
    case Empty => false
    case Leaf(k, _) => |k| == L
    case Branch(p, cs, m) =>
      && |p| < L
      && |cs| == 16
      && (forall i: Nibble :: UnderSlot(cs[i], p, i))
      && (forall i: Nibble :: cs[i].Empty? || Shaped(cs[i], L))
      && m == SumMeta(cs)
  }

  /** Every branch has at least two children. */
  ghost predicate Compact<V>(n: Node<V>) {
    n.Branch? ==>
      && Kids(n.children) >= 2
      && (forall c :: c in n.children ==> Compact(c))
  }

  ghost predicate Canon<V>(n: Node<V>, L: nat) {
    Shaped(n, L) && Compact(n)
  }

  /** A whole trie: empty or canonical. */
  ghost predicate CanonTrie<V>(n: Node<V>, L: nat) {
    n.Empty? || Canon(n, L)
  }

  // ---- Abstraction ---------------------------------------------------------------------------------------

  /** The finite map a node stands for. */
  ghost function Contents<V>(n: Node<V>): map<Key, Entry<V>>
    decreases n, 1
  {
    match n
    case Empty => map[]
    case Leaf(k, e) => map[k := e]
    case Branch(_, cs, _) => ContentsOf(cs)
  }

  ghost function ContentsOf<V>(cs: seq<Node<V>>): map<Key, Entry<V>>
    decreases cs, 0
  {
    if cs == [] then map[] else ContentsOf(cs[..|cs| - 1]) + Contents(cs[|cs| - 1])
  }

  lemma {:induction false} ContentsUnder<V>(n: Node<V>, L: nat, k: Key)
    requires Shaped(n, L)
    requires k in Contents(n)
    ensures |k| == L && PrefixOf(n) <= k
    decreases n, 1
  {
    if n.Branch? {
      var i := ContentsOfSlot(n.children, k);
      ContentsUnder(n.children[i], L, k);
      assert UnderSlot(n.children[i], n.prefix, i);
    }
  }

  lemma {:induction false} ContentsOfSlot<V>(cs: seq<Node<V>>, k: Key) returns (i: nat)
    requires k in ContentsOf(cs)
    ensures i < |cs| && k in Contents(cs[i])
  {
    if k in Contents(cs[|cs| - 1]) {
      i := |cs| - 1;
    } else {
      i := ContentsOfSlot(cs[..|cs| - 1], k);
    }
  }

  /** Slot `i` alone holds the keys of `k`: then the union agrees with it on `k`. */
  lemma {:induction false} ContentsOfUnique<V>(cs: seq<Node<V>>, k: Key, i: nat)
    requires i < |cs|
    requires forall j :: 0 <= j < |cs| && j != i ==> k !in Contents(cs[j])
    ensures k in ContentsOf(cs) <==> k in Contents(cs[i])
    ensures k in Contents(cs[i]) ==> ContentsOf(cs)[k] == Contents(cs[i])[k]
  {
    var init := cs[..|cs| - 1];
    if i == |cs| - 1 {
      if k in ContentsOf(init) {
        var j := ContentsOfSlot(init, k);
        assert false;
      }
    } else {
      assert forall j :: 0 <= j < |init| ==> init[j] == cs[j];
      ContentsOfUnique(init, k, i);
    }
  }

  datatype Option<+T> = None | Some(value: T)

  /** The entry of key `k`, if present. */
  ghost function Get<V>(n: Node<V>, k: Key): Option<Entry<V>> {
    if k in Contents(n) then Some(Contents(n)[k]) else None
  }

  lemma SameContents<V>(m: Node<V>, n: Node<V>)
    requires forall k :: Get(m, k) == Get(n, k)
    ensures Contents(m) == Contents(n)
  {
    assert forall k :: k in Contents(m) <==> Get(m, k).Some?;
    assert forall k :: k in Contents(n) <==> Get(n, k).Some?;
    forall k | k in Contents(m) ensures Contents(m)[k] == Contents(n)[k] {
      assert Get(m, k) == Get(n, k);
    }
  }

  /** Key `k` belongs to slot `i` below prefix `p`. */
  predicate InSlot(k: Key, p: Key, i: Nibble) {
    p <= k && |p| < |k| && k[|p|] == i
  }

  lemma SlotKeys<V>(c: Node<V>, L: nat, p: Key, i: Nibble, k: Key)
    requires Shaped(c, L) && UnderSlot(c, p, i)
    ensures Get(c, k).Some? ==> InSlot(k, p, i) && |k| == L
  {
    if k in Contents(c) {
      ContentsUnder(c, L, k);
      assert (p + [i])[|p|] == i;
    }
  }

  /** Contents of a branch, slot by slot: the main fact about the abstraction. */
  lemma BranchGet<V>(n: Node<V>, L: nat, k: Key)
    requires n.Branch? && Shaped(n, L)
    ensures Get(n, k) == if n.prefix <= k && |n.prefix| < |k| then Get(n.children[k[|n.prefix|]], k) else None
    ensures Get(n, k).Some? ==> |k| == L && n.prefix <= k
  {
    var p, cs := n.prefix, n.children;
    forall j: Nibble | k in Contents(cs[j])
      ensures InSlot(k, p, j) && |k| == L
    {
      SlotKeys(cs[j], L, p, j, k);
    }
    if k in Contents(n) {
      var j := ContentsOfSlot(cs, k);
    }
    if p <= k && |p| < |k| {
      ContentsOfUnique(cs, k, k[|p|]);
    }
  }
}
