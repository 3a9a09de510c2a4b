/**
 Histories of a trie: whatever operations lead to a map of live leaves, and in whatever order, they lead to one trie and
 one root hash.
 */
module Histories {
  import opened Keys
  import opened Trie
  import opened Canonical
  import opened TrieOps
  import opened TrieDelete
  import opened TrieMarks
  import opened TrieHash
  import opened TrieQueries

  /** The operations that change which leaves a trie has. */
  datatype Op<V> =
    | Insertion(key: Key, entry: Entry<V>)
    | Deletion(key: Key)
    | Merging(other: Node<V>)
    | Pruning

  ghost predicate OpOk<V>(op: Op<V>, L: nat) {
    match op
    case Insertion(k, e) => |k| == L && 0 <= e.meta.deleted <= 1 && 0 <= e.meta.rollback <= 1
    case Deletion(k) => |k| == L
    case Merging(other) => CanonTrie(other, L) && MarksOk(other)
    case Pruning => true
  }

  ghost function Effect<V>(m: map<Key, Entry<V>>, op: Op<V>): map<Key, Entry<V>> {
    match op
    case Insertion(k, e) => m[k := e]
    case Deletion(k) => m - {k}
    case Merging(other) => m + Contents(other)
    case Pruning => map k | k in m && !Marked(m[k], DeletionMark) :: m[k]
  }

  ghost function Effects<V>(ops: seq<Op<V>>): map<Key, Entry<V>> {
    if ops == [] then map[] else Effect(Effects(ops[..|ops| - 1]), ops[|ops| - 1])
  }

  /** One operation on a trie. */
  method Apply<V>(n: Node<V>, L: nat, op: Op<V>) returns (r: Node<V>)
    requires CanonTrie(n, L) && MarksOk(n) && OpOk(op, L)
    ensures CanonTrie(r, L) && MarksOk(r) && Contents(r) == Effect(Contents(n), op)
  {
    match op {
      case Insertion(k, e) =>
        var delta;
        r, delta := Insert(n, L, k, e);
      case Deletion(k) =>
        var gone;
        gone, r := Delete(n, L, k);
      case Merging(other) =>
        r := MergeTries(n, other, L);
      case Pruning =>
        var log;
        r, log := PerformMarkedDeletions(n, L);
        PrunedContents(r, n);
    }
    EffectMarks(r, n, L, op);
  }

  lemma EffectMarks<V>(r: Node<V>, n: Node<V>, L: nat, op: Op<V>)
    requires MarksOk(n) && OpOk(op, L) && Contents(r) == Effect(Contents(n), op)
    ensures MarksOk(r)
  {
    forall k | Get(r, k).Some?
      ensures 0 <= Get(r, k).value.meta.deleted <= 1 && 0 <= Get(r, k).value.meta.rollback <= 1
    {
      var e := Effect(Contents(n), op)[k];
      assert Get(r, k) == Some(e);
      assert (op.Insertion? && e == op.entry) || Get(n, k) == Some(e) || (op.Merging? && Get(op.other, k) == Some(e));
    }
  }

  lemma PrunedContents<V>(r: Node<V>, n: Node<V>)
    requires Pruned(r, n, DeletionMark)
    ensures Contents(r) == Effect(Contents(n), Pruning)
  {
    forall k ensures Get(r, k) == Unmarked(Get(n, k), DeletionMark) {
    }
    assert forall k :: k in Contents(r) <==> Get(r, k).Some?;
    forall k | k in Contents(r) ensures k in Contents(n) && Contents(r)[k] == Contents(n)[k] {
      assert Get(r, k) == Unmarked(Get(n, k), DeletionMark);
    }
  }

  /** Any history, from the empty trie. */
  method Replay<V>(ops: seq<Op<V>>, L: nat) returns (n: Node<V>)
    requires forall op :: op in ops ==> OpOk(op, L)
    ensures CanonTrie(n, L) && MarksOk(n) && Contents(n) == Effects(ops)
  {
    n := Empty;
    for i := 0 to |ops|
      invariant CanonTrie(n, L) && MarksOk(n) && Contents(n) == Effects(ops[..i])
    {
      assert ops[..i + 1][..i] == ops[..i];
      n := Apply(n, L, ops[i]);
    }
    assert ops[..|ops|] == ops;
  }

  /** Two histories that reach the same map reach the same trie, and hence the same root hash. */
  lemma HistoriesAgree<V>(a: seq<Op<V>>, b: seq<Op<V>>, L: nat, m: Node<V>, n: Node<V>)
    requires CanonTrie(m, L) && Contents(m) == Effects(a)
    requires CanonTrie(n, L) && Contents(n) == Effects(b)
    ensures m == n <==> Effects(a) == Effects(b)
    ensures Effects(a) == Effects(b) ==> RootHash(m) == RootHash(n)
  {
    if Effects(a) == Effects(b) {
      CanonTrieUnique(m, n, L);
    }
  }
}
