/**
 The hash cache: every node keeps its hash with a validity flag, and so does the whole trie. Each routine clears the flags
 of the nodes it works on, and a hash is computed from the flags that are left. Whatever routines have run, a node whose
 flag is up holds the hash of its present subtree.

 A node is told by its prefix, so the valid hashes of a trie are a map from prefixes.
 */
module HashCache {
  import opened Keys
  import opened Trie
  import opened Canonical
  import opened TrieOps
  import opened TrieOrder
  import opened TrieDelete
  import opened TrieMarks
  import opened TrieMerge
  import opened TrieSplit
  import opened TrieThreshold
  import opened TrieHash
  import opened TrieQueries

  type Cache<V> = map<Key, Digest<V>>

  // ---- Nodes by prefix ---------------------------------------------------------------------------------------------

  /** The node heading the keys below `p`, if there are any. */
  function Below<V>(n: Node<V>, p: Key): Node<V> {
    match n
    case Empty => Empty
    case Leaf(k, _) => if p <= k then n else Empty
    case Branch(q, cs, _) =>
      if p <= q then n
      else if q <= p && p[|q|] < |cs| then Below(cs[p[|q|]], p)
      else Empty
  }

  /** It is shaped like any node, and holds exactly the keys below `p`. */
  lemma {:induction false} BelowGet<V>(n: Node<V>, L: nat, p: Key, k: Key)
    requires n.Empty? || Shaped(n, L)
    ensures Below(n, p).Empty? || (Shaped(Below(n, p), L) && p <= PrefixOf(Below(n, p)))
    ensures Get(Below(n, p), k) == if p <= k then Get(n, k) else None
  {
    if n.Branch? {
      var q := n.prefix;
      BranchGet(n, L, k);
      if !(p <= q) && q <= p {
        BelowGet(n.children[p[|q|]], L, p, k);
        SlotGet(n, L, p[|q|], k);
      } else if !(p <= q) {
        NoCommonKey(p, q, k);
      }
    }
  }

  lemma NoCommonKey(p: Key, q: Key, k: Key)
    requires !(p <= q) && !(q <= p)
    ensures !(p <= k && q <= k)
  {
    TwoPrefixes(p, q, k);
  }

  lemma {:induction false} BelowCanon<V>(n: Node<V>, L: nat, p: Key)
    requires CanonTrie(n, L)
    ensures CanonTrie(Below(n, p), L)
  {
    if n.Branch? && !(p <= n.prefix) && n.prefix <= p {
      BelowCanon(n.children[p[|n.prefix|]], L, p);
    }
  }

  /** Tries that agree below `p` have the same node there. */
  lemma SameBelow<V>(m: Node<V>, n: Node<V>, L: nat, p: Key)
    requires CanonTrie(m, L) && CanonTrie(n, L)
    requires forall k :: p <= k ==> Get(m, k) == Get(n, k)
    ensures Below(m, p) == Below(n, p)
  {
    BelowCanon(m, L, p);
    BelowCanon(n, L, p);
    forall k ensures Get(Below(m, p), k) == Get(Below(n, p), k) {
      BelowGet(m, L, p, k);
      BelowGet(n, L, p, k);
    }
    SameContents(Below(m, p), Below(n, p));
    CanonTrieUnique(Below(m, p), Below(n, p), L);
  }

  /** Some key of `n` lies below `p`. */
  function AnyBelow<V>(n: Node<V>, p: Key): bool {
    !Below(n, p).Empty?
  }

  lemma NoneBelow<V>(n: Node<V>, L: nat, p: Key, k: Key)
    requires CanonTrie(n, L) && !AnyBelow(n, p) && p <= k
    ensures Get(n, k) == None
  {
    BelowGet(n, L, p, k);
  }

  // ---- The invariant -------------------------------------------------------------------------------------------------

  /** Every valid hash belongs to a node of the trie, and is the hash of its subtree. */
  ghost predicate CacheOk<V>(n: Node<V>, cache: Cache<V>) {
    forall p :: p in cache ==> NodeHash(n, p, cache[p])
  }

  ghost predicate NodeHash<V>(n: Node<V>, p: Key, d: Digest<V>) {
    var x := Below(n, p);
    !x.Empty? && PrefixOf(x) == p && d == Hash(x)
  }

  ghost predicate Part<V>(kept: Cache<V>, cache: Cache<V>) {
    forall p :: p in kept ==> p in cache && kept[p] == cache[p]
  }

  /** A routine may keep a hash if it has changed no key below the node. */
  lemma CacheSurvives<V>(n: Node<V>, r: Node<V>, L: nat, cache: Cache<V>, kept: Cache<V>)
    requires CanonTrie(n, L) && CanonTrie(r, L) && CacheOk(n, cache) && Part(kept, cache)
    requires forall p, k :: p in kept && p <= k ==> Get(r, k) == Get(n, k)
    ensures CacheOk(r, kept)
  {
    forall p | p in kept ensures NodeHash(r, p, kept[p]) {
      assert NodeHash(n, p, cache[p]);
      SameBelow(r, n, L, p);
    }
  }

  lemma CacheUnion<V>(n: Node<V>, a: Cache<V>, b: Cache<V>)
    requires CacheOk(n, a) && CacheOk(n, b)
    ensures CacheOk(n, a + b)
  {
  }

  // ---- compute_hash --------------------------------------------------------------------------------------------------

  /** A child of a node of the trie is a node of the trie. */
  lemma ChildBelow<V>(root: Node<V>, L: nat, n: Node<V>, i: Nibble)
    requires CanonTrie(root, L) && n.Branch? && Canon(n, L) && Below(root, n.prefix) == n
    requires !n.children[i].Empty?
    ensures Canon(n.children[i], L) && Below(root, PrefixOf(n.children[i])) == n.children[i]
  {
    var c := n.children[i];
    var q := PrefixOf(c);
    assert UnderSlot(c, n.prefix, i) && c in n.children;
    BelowCanon(root, L, q);
    forall k ensures Get(c, k) == Get(Below(root, q), k) {
      BelowGet(root, L, q, k);
      BelowGet(root, L, n.prefix, k);
      SlotGet(n, L, i, k);
      if k in Contents(c) {
        ContentsUnder(c, L, k);
      }
      PrefixStep(n.prefix, i, q, k);
    }
    SameContents(c, Below(root, q));
    CanonTrieUnique(c, Below(root, q), L);
  }

  lemma PrefixStep(p: Key, i: Nibble, q: Key, k: Key)
    requires p + [i] <= q
    ensures q <= k ==> InSlot(k, p, i)
  {
    assert (p + [i])[|p|] == i;
  }

  /** `TrieNode::compute_hash`: a valid hash is taken as it is; else those of the live children are computed first. */
  method ComputeHash<V>(n: Node<V>, L: nat, cache: Cache<V>, ghost root: Node<V>) returns (d: Digest<V>, filled: Cache<V>)
    requires CanonTrie(root, L) && Canon(n, L) && Below(root, PrefixOf(n)) == n
    requires CacheOk(root, cache)
    ensures d == Hash(n) && CacheOk(root, filled)
    decreases n, 3
  {
    if PrefixOf(n) in cache {
      assert NodeHash(root, PrefixOf(n), cache[PrefixOf(n)]);
      return cache[PrefixOf(n)], cache;
    }
    if n.Leaf? {
      d, filled := LeafDigest(n.key, n.entry.value), cache;
    } else {
      d, filled := ComputeBranch(n, L, cache, root);
    }
    filled := filled[PrefixOf(n) := d];
    NodeFilled(root, n, d, filled);
  }

  lemma NodeFilled<V>(root: Node<V>, n: Node<V>, d: Digest<V>, filled: Cache<V>)
    requires !n.Empty? && Below(root, PrefixOf(n)) == n && d == Hash(n) && filled[PrefixOf(n) := d] == filled
    requires forall p :: p in filled && p != PrefixOf(n) ==> NodeHash(root, p, filled[p])
    ensures CacheOk(root, filled)
  {
    assert NodeHash(root, PrefixOf(n), d);
  }

  method ComputeBranch<V>(n: Node<V>, L: nat, cache: Cache<V>, ghost root: Node<V>) returns (d: Digest<V>, filled: Cache<V>)
    requires CanonTrie(root, L) && n.Branch? && Canon(n, L) && Below(root, n.prefix) == n
    requires CacheOk(root, cache)
    ensures d == Hash(n) && CacheOk(root, filled)
    decreases n, 2
  {
    var cs := n.children;
    var ds;
    ds, filled := ComputeSlots(n, L, cache, root);
    var live := LiveSlots(cs);
    if Kids(live) == 1 {
      LowestPresent(live);
      d := ds[Lowest(live, 0)];
    } else {
      d := BranchDigest(n.prefix, ds);
    }
  }

  method ComputeSlots<V>(n: Node<V>, L: nat, cache: Cache<V>, ghost root: Node<V>)
    returns (ds: seq<Digest<V>>, filled: Cache<V>)
    requires CanonTrie(root, L) && n.Branch? && Canon(n, L) && Below(root, n.prefix) == n
    requires CacheOk(root, cache)
    ensures ds == HashSlots(n.children) && CacheOk(root, filled)
    decreases n, 1
  {
    ds, filled := [], cache;
    for i: int := 0 to 16
      invariant SlotsHashed(ds, n.children, i) && CacheOk(root, filled)
    {
      var c;
      c, filled := ComputeSlot(n, L, i, filled, root);
      OneSlotMore(ds, n.children, i, c);
      ds := ds + [c];
    }
    AllSlotsHashed(ds, n.children);
  }

  lemma OneSlotMore<V>(ds: seq<Digest<V>>, cs: seq<Node<V>>, i: nat, c: Digest<V>)
    requires SlotsHashed(ds, cs, i) && i < |cs| && c == if LiveCount(cs[i]) > 0 then Hash(cs[i]) else NoDigest
    ensures SlotsHashed(ds + [c], cs, i + 1)
  {
  }

  lemma AllSlotsHashed<V>(ds: seq<Digest<V>>, cs: seq<Node<V>>)
    requires SlotsHashed(ds, cs, |cs|)
    ensures ds == HashSlots(cs)
  {
  }

  ghost predicate SlotsHashed<V>(ds: seq<Digest<V>>, cs: seq<Node<V>>, i: nat) {
    && |ds| == i <= |cs|
    && forall j :: 0 <= j < i ==> ds[j] == if LiveCount(cs[j]) > 0 then Hash(cs[j]) else NoDigest
  }

  /** Only children with live leaves are computed. */
  method ComputeSlot<V>(n: Node<V>, L: nat, i: Nibble, cache: Cache<V>, ghost root: Node<V>)
    returns (d: Digest<V>, filled: Cache<V>)
    requires CanonTrie(root, L) && n.Branch? && Canon(n, L) && Below(root, n.prefix) == n
    requires CacheOk(root, cache)
    ensures d == (if LiveCount(n.children[i]) > 0 then Hash(n.children[i]) else NoDigest) && CacheOk(root, filled)
    decreases n, 0
  {
    d, filled := NoDigest, cache;
    if LiveCount(n.children[i]) > 0 {
      ChildBelow(root, L, n, i);
      d, filled := ComputeHash(n.children[i], L, filled, root);
    }
  }

  // ---- The routines --------------------------------------------------------------------------------------------------

  /** A trie with its cache: the valid hashes of its nodes, and its root hash, if valid. */
  class HashedTrie<V> {
    const L: nat
    var root: Node<V>
    var cache: Cache<V>
    var top: Option<RootDigest<V>>

    /** The invariant of the nodes; every routine keeps it. */
    ghost predicate Valid()
      reads this
    {
      CanonTrie(root, L) && LeavesOk(root) && CacheOk(root, cache)
    }

    /** A valid root hash is right. */
    ghost predicate TopOk()
      reads this
    {
      top.Some? ==> top.value == RootHash(root)
    }

    constructor (keyLength: nat)
      ensures Valid() && TopOk() && L == keyLength && root == Empty
    {
      L, root, cache, top := keyLength, Empty, map[], None;
    }

    /** `get_hash` (also `freeze_and_hash`): whatever is cached, the outcome is the hash of the trie. */
    method GetHash() returns (h: RootDigest<V>)
      requires Valid() && TopOk()
      modifies this`cache, this`top
      ensures Valid() && TopOk() && h == RootHash(root)
    {
      if top.Some? {
        return top.value;
      }
      var d := NoDigest;
      if !root.Empty? {
        assert Below(root, PrefixOf(root)) == root;
        d, cache := ComputeHash(root, L, cache, root);
      }
      h := RootDigest(LiveCount(root), if LiveCount(root) > 0 then d else NoDigest);
      top := Some(h);
    }

    /** `insert`: the flags on the way to the key go down, and possibly `more`, such as that of a node that is split. */
    method InsertLeaf(k: Key, e: Entry<V>, more: set<Key>)
      requires Valid() && |k| == L && LeafOk(e)
      modifies this
      ensures Valid() && TopOk() && Contents(root) == old(Contents(root))[k := e]
    {
      var r, delta := Insert(root, L, k, e);
      var kept := map p | p in cache && !(p <= k) && p !in more :: cache[p];
      InsertedOk(root, r, k, e);
      CacheSurvives(root, r, L, cache, kept);
      root, cache, top := r, kept, None;
    }

    /** `perform_deletion`: nothing is invalidated if the key is not there. */
    method Delete(k: Key) returns (found: Option<Entry<V>>)
      requires Valid() && TopOk() && |k| == L
      modifies this
      ensures Valid() && TopOk() && found == old(Get(root, k)) && Contents(root) == old(Contents(root)) - {k}
    {
      var r;
      found, r := TrieDelete.Delete(root, L, k);
      DeletedOk(root, r, k);
      if found.Some? {
        var kept := map p | p in cache && !(p <= k) :: cache[p];
        CacheSurvives(root, r, L, cache, kept);
        cache, top := kept, None;
      } else {
        CanonTrieUnique(r, root, L);
      }
      root := r;
    }

    /** `mark_for_deletion` and `unmark_for_deletion`: nothing is invalidated if the mark does not change. */
    method SwapMark(k: Key, from: int, to: int) returns (changed: Option<V>)
      requires Valid() && TopOk() && |k| == L && !root.Empty? && 0 <= to <= 1
      modifies this
      ensures Valid() && TopOk() && MarkSwapped(root, old(root), k, from, to, changed)
    {
      var r, delta;
      r, delta, changed := TrieMarks.SwapMark(root, L, k, from, to);
      if changed.Some? {
        var kept := map p | p in cache && !(p <= k) :: cache[p];
        SwappedOk(root, r, k, from, to, changed);
        CacheSurvives(root, r, L, cache, kept);
        cache, top := kept, None;
      }
      root := r;
    }

    /** `perform_marked_deletions`: the flags of the nodes with marked leaves go down. */
    method PerformMarkedDeletions()
      requires Valid() && TopOk()
      modifies this
      ensures Valid() && TopOk() && Pruned(root, old(root), DeletionMark)
    {
      if Count(MetaOf(root), DeletionMark) == 0 {
        NoMarks(root, L, DeletionMark);
        return;
      }
      var r, log := TrieMarks.PerformMarkedDeletions(root, L);
      var kept := map p | p in cache && Count(MetaOf(Below(root, p)), DeletionMark) == 0 :: cache[p];
      PrunedOk(root, r, DeletionMark);
      PruningSpares(root, r, L, cache, kept, DeletionMark);
      root, cache, top := r, kept, None;
    }

    /**
     `do_rollback`, some leaf surviving: the flags of the nodes with provisional leaves go down, but not that of the trie.
     So a valid root hash stays right exactly if no provisional leaf is live.
     */
    method DoRollback()
      requires Valid() && TopOk()
      requires root.Empty? || exists k :: Get(root, k).Some? && !Marked(Get(root, k).value, RollbackMark)
      modifies this
      ensures Valid() && Pruned(root, old(root), RollbackMark) && top == old(top)
      ensures TopOk() <==> top.None? || LiveValues(root) == old(LiveValues(root))
    {
      var r := TrieMarks.DoRollback(root, L);
      var kept := map p | p in cache && Count(MetaOf(Below(root, p)), RollbackMark) == 0 :: cache[p];
      PrunedOk(root, r, RollbackMark);
      PruningSpares(root, r, L, cache, kept, RollbackMark);
      RootHashExact(r, root, L);
      root, cache := r, kept;
    }

    /**
     `merge_in`: of both tries those nodes keep their flags below which the other one has no key, but for `more`.
     */
    method MergeIn(other: HashedTrie<V>, more: set<Key>)
      requires Valid() && other != this && other.Valid() && other.L == L
      modifies this
      ensures Valid() && TopOk() && Contents(root) == old(Contents(root)) + Contents(other.root)
    {
      var r := MergeTries(root, other.root, L);
      var mine := map p | p in cache && !AnyBelow(other.root, p) && p !in more :: cache[p];
      var its := map p | p in other.cache && !AnyBelow(root, p) && p !in more :: other.cache[p];
      MergedOk(root, other.root, r);
      MergeSpares(root, other.root, r, L, cache, mine, other.cache, its);
      root, cache, top := r, mine + its, None;
    }
  }

  // ---- Splitting off and repairing ---------------------------------------------------------------------------------------

  /** Valid hashes in a trie that need not be canonical: only of nodes that are. */
  ghost predicate CanonCached<V>(n: Node<V>, cache: Cache<V>) {
    CacheOk(n, cache) && forall p :: p in cache ==> Compact(Below(n, p))
  }

  lemma SplitGet<V>(n: Node<V>, L: nat, rest: Node<V>, split: Node<V>, k: Key)
    requires CanonTrie(n, L) && SplitTrie(n, L, rest, split)
    ensures Get(rest, k).Some? ==> Get(rest, k) == Get(n, k)
    ensures Get(split, k).Some? ==> Get(split, k) == Get(n, k)
    ensures Get(n, k).Some? ==> Get(rest, k).Some? || Get(split, k).Some?
  {
    if Get(rest, k).Some? {
      PresentLeaf(rest, L, k);
      LeafPresent(n, L, Item(k, Get(rest, k).value));
    }
    if Get(split, k).Some? {
      PresentLeaf(split, L, k);
      LeafPresent(n, L, Item(k, Get(split, k).value));
    }
    if Get(n, k).Some? {
      PresentLeaf(n, L, k);
      var x := Item(k, Get(n, k).value);
      if x in Leaves(rest) {
        LeafPresent(rest, L, x);
      } else {
        LeafPresent(split, L, x);
      }
    }
  }

  /** `endow_split`: either side keeps the hashes of the nodes that went to it whole. */
  method SplitOff<V>(n: Node<V>, L: nat, t: nat, cache: Cache<V>)
    returns (ok: bool, rest: Node<V>, split: Node<V>, mine: Cache<V>, its: Cache<V>)
    requires CanonTrie(n, L) && PositiveEndow(n) && LeavesOk(n) && CacheOk(n, cache)
    ensures ok <==> t <= MetaOf(n).endow
    ensures ok ==> SplitTrie(n, L, rest, split) && LeavesOk(rest) && LeavesOk(split)
    ensures ok ==> CacheOk(rest, mine) && CanonCached(split, its)
  {
    mine, its := map[], map[];
    ok, rest, split := EndowSplit(n, L, t);
    if ok {
      forall k
        ensures Get(rest, k).Some? ==> Get(rest, k) == Get(n, k)
        ensures Get(split, k).Some? ==> Get(split, k) == Get(n, k)
      {
        SplitGet(n, L, rest, split, k);
      }
      mine := map p | p in cache && !AnyBelow(split, p) :: cache[p];
      its := map p | p in cache && !AnyBelow(rest, p) :: cache[p];
      RestSpared(n, L, rest, split, cache, mine);
      SplitSpared(n, L, rest, split, cache, its);
    }
  }

  lemma RestSpared<V>(n: Node<V>, L: nat, rest: Node<V>, split: Node<V>, cache: Cache<V>, kept: Cache<V>)
    requires CanonTrie(n, L) && SplitTrie(n, L, rest, split) && CacheOk(n, cache) && Part(kept, cache)
    requires forall p :: p in kept ==> !AnyBelow(split, p)
    ensures CacheOk(rest, kept)
  {
    forall p, k | p in kept && p <= k ensures Get(rest, k) == Get(n, k) {
      SplitGet(n, L, rest, split, k);
      BelowGet(split, L, p, k);
    }
    CacheSurvives(n, rest, L, cache, kept);
  }

  lemma SplitSpared<V>(n: Node<V>, L: nat, rest: Node<V>, split: Node<V>, cache: Cache<V>, kept: Cache<V>)
    requires CanonTrie(n, L) && SplitTrie(n, L, rest, split) && CacheOk(n, cache) && Part(kept, cache)
    requires forall p :: p in kept ==> !AnyBelow(rest, p)
    ensures CanonCached(split, kept)
  {
    forall p | p in kept ensures NodeHash(split, p, kept[p]) && Compact(Below(split, p)) {
      assert NodeHash(n, p, cache[p]);
      WholeBelow(n, L, rest, split, p);
      BelowCanon(n, L, p);
    }
  }

  /** A node that went to the split-off trie whole is the node it was. */
  lemma WholeBelow<V>(n: Node<V>, L: nat, rest: Node<V>, split: Node<V>, p: Key)
    requires CanonTrie(n, L) && SplitTrie(n, L, rest, split) && !AnyBelow(rest, p)
    ensures Below(split, p) == Below(n, p)
  {
    var x, y := Below(split, p), Below(n, p);
    BelowCanon(n, L, p);
    forall k ensures Get(x, k) == Get(y, k) {
      SplitGet(n, L, rest, split, k);
      BelowGet(split, L, p, k);
      BelowGet(n, L, p, k);
      BelowGet(rest, L, p, k);
    }
    SameContents(x, y);
    BelowGet(split, L, p, p);
    if !x.Empty? {
      BelowJustified(split, p, Contents(n).Keys);
      forall k | k in Contents(n).Keys && PrefixOf(x) <= k ensures k in Contents(x) {
        BelowGet(n, L, p, k);
        assert Get(n, k).Some?;
      }
      JustifiedCompact(x, L, Contents(n).Keys);
    }
    CanonTrieUnique(x, y, L);
  }

  lemma {:induction false} BelowJustified<V>(n: Node<V>, p: Key, ks: set<Key>)
    requires n.Empty? || Justified(n, ks)
    ensures Below(n, p).Empty? || Justified(Below(n, p), ks)
  {
    if n.Branch? && !(p <= n.prefix) && n.prefix <= p && p[|n.prefix|] < |n.children| {
      assert n.children[p[|n.prefix|]] in n.children;
      BelowJustified(n.children[p[|n.prefix|]], p, ks);
    }
  }

  /** `clean_singlechild_nodes` changes no leaf, and need not lower a flag. */
  lemma CleaningSpares<V>(n: Node<V>, r: Node<V>, L: nat, cache: Cache<V>)
    requires (n.Empty? || Shaped(n, L)) && CanonTrie(r, L) && Contents(r) == Contents(n) && CanonCached(n, cache)
    ensures CacheOk(r, cache)
  {
    forall k ensures Get(r, k) == Get(n, k) {
    }
    forall p | p in cache ensures NodeHash(r, p, cache[p]) {
      assert NodeHash(n, p, cache[p]);
      CanonBelow(n, r, L, p);
    }
  }

  lemma CanonBelow<V>(n: Node<V>, r: Node<V>, L: nat, p: Key)
    requires (n.Empty? || Shaped(n, L)) && CanonTrie(r, L) && Compact(Below(n, p))
    requires forall k :: Get(r, k) == Get(n, k)
    ensures Below(r, p) == Below(n, p)
  {
    var x, y := Below(r, p), Below(n, p);
    BelowCanon(r, L, p);
    BelowGet(n, L, p, p);
    forall k ensures Get(x, k) == Get(y, k) {
      BelowGet(r, L, p, k);
      BelowGet(n, L, p, k);
    }
    SameContents(x, y);
    CanonTrieUnique(x, y, L);
  }

  // ---- What the routines leave alone ------------------------------------------------------------------------------------

  predicate LeafOk<V>(e: Entry<V>) {
    e.meta.size == 1 && 0 <= e.meta.deleted <= 1 && 0 <= e.meta.rollback <= 1
  }

  lemma LeavesOkByKey<V>(n: Node<V>)
    ensures LeavesOk(n) <==> forall k :: Get(n, k).Some? ==> LeafOk(Get(n, k).value)
  {
  }

  lemma InsertedOk<V>(n: Node<V>, r: Node<V>, k: Key, e: Entry<V>)
    requires LeavesOk(n) && LeafOk(e) && Contents(r) == Contents(n)[k := e]
    ensures LeavesOk(r) && forall h :: h != k ==> Get(r, h) == Get(n, h)
  {
    forall h ensures Get(r, h) == if h == k then Some(e) else Get(n, h) {
    }
  }

  lemma DeletedOk<V>(n: Node<V>, r: Node<V>, k: Key)
    requires LeavesOk(n) && Contents(r) == Contents(n) - {k}
    ensures LeavesOk(r) && forall h :: h != k ==> Get(r, h) == Get(n, h)
    ensures Get(n, k) == None ==> Contents(r) == Contents(n)
  {
    forall h ensures Get(r, h) == if h == k then None else Get(n, h) {
    }
  }

  lemma SwappedOk<V>(n: Node<V>, r: Node<V>, k: Key, from: int, to: int, changed: Option<V>)
    requires LeavesOk(n) && 0 <= to <= 1 && MarkSwapped(r, n, k, from, to, changed) && changed.Some?
    ensures LeavesOk(r) && forall h :: h != k ==> Get(r, h) == Get(n, h)
  {
    assert LeafOk(WithDeleted(Get(n, k).value, to));
    InsertedOk(n, r, k, WithDeleted(Get(n, k).value, to));
  }

  lemma PrunedOk<V>(n: Node<V>, r: Node<V>, fld: Field)
    requires LeavesOk(n) && Pruned(r, n, fld)
    ensures LeavesOk(r)
  {
    forall k | Get(r, k).Some? ensures LeafOk(Get(r, k).value) {
      assert Get(r, k) == Unmarked(Get(n, k), fld);
    }
    LeavesOkByKey(r);
  }

  lemma NoMarks<V>(n: Node<V>, L: nat, fld: Field)
    requires CanonTrie(n, L) && LeavesOk(n) && Count(MetaOf(n), fld) == 0
    ensures Pruned(n, n, fld)
  {
    if !n.Empty? {
      NothingMarked(n, L, fld);
    }
  }

  /** Pruning changes nothing below a node without marks. */
  lemma PruningSpares<V>(n: Node<V>, r: Node<V>, L: nat, cache: Cache<V>, kept: Cache<V>, fld: Field)
    requires CanonTrie(n, L) && CanonTrie(r, L) && LeavesOk(n) && Pruned(r, n, fld) && CacheOk(n, cache) && Part(kept, cache)
    requires forall p :: p in kept ==> Count(MetaOf(Below(n, p)), fld) == 0
    ensures CacheOk(r, kept)
  {
    forall p, k | p in kept && p <= k ensures Get(r, k) == Get(n, k) {
      UnmarkedBelow(n, r, L, p, k, fld);
    }
    CacheSurvives(n, r, L, cache, kept);
  }

  lemma UnmarkedBelow<V>(n: Node<V>, r: Node<V>, L: nat, p: Key, k: Key, fld: Field)
    requires CanonTrie(n, L) && LeavesOk(n) && Pruned(r, n, fld) && p <= k && Count(MetaOf(Below(n, p)), fld) == 0
    ensures Get(r, k) == Get(n, k)
  {
    var x := Below(n, p);
    BelowCanon(n, L, p);
    forall h | Get(x, h).Some? ensures LeafOk(Get(x, h).value) {
      BelowGet(n, L, p, h);
    }
    LeavesOkByKey(x);
    NoMarks(x, L, fld);
    BelowGet(n, L, p, k);
    assert Get(x, k) == Unmarked(Get(x, k), fld);
    assert Get(r, k) == Unmarked(Get(n, k), fld);
  }

  lemma MergedOk<V>(a: Node<V>, b: Node<V>, r: Node<V>)
    requires LeavesOk(a) && LeavesOk(b) && Contents(r) == Contents(a) + Contents(b)
    ensures LeavesOk(r)
    ensures forall k :: Get(r, k) == if Get(b, k).Some? then Get(b, k) else Get(a, k)
  {
    forall k ensures Get(r, k) == if Get(b, k).Some? then Get(b, k) else Get(a, k) {
    }
  }

  lemma MergeSpares<V>(
    a: Node<V>, b: Node<V>, r: Node<V>, L: nat, cacheA: Cache<V>, keptA: Cache<V>, cacheB: Cache<V>, keptB: Cache<V>)
    requires CanonTrie(a, L) && CanonTrie(b, L) && CanonTrie(r, L)
    requires forall k :: Get(r, k) == if Get(b, k).Some? then Get(b, k) else Get(a, k)
    requires CacheOk(a, cacheA) && Part(keptA, cacheA) && forall p :: p in keptA ==> !AnyBelow(b, p)
    requires CacheOk(b, cacheB) && Part(keptB, cacheB) && forall p :: p in keptB ==> !AnyBelow(a, p)
    ensures CacheOk(r, keptA + keptB)
  {
    forall p, k | p in keptA && p <= k ensures Get(r, k) == Get(a, k) {
      NoneBelow(b, L, p, k);
    }
    forall p, k | p in keptB && p <= k ensures Get(r, k) == Get(b, k) {
      NoneBelow(a, L, p, k);
    }
    CacheSurvives(a, r, L, cacheA, keptA);
    CacheSurvives(b, r, L, cacheB, keptB);
    CacheUnion(r, keptA, keptB);
  }
}
