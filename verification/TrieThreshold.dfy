/**
 Clearing below a threshold: the whole-trie split, the endowment below a key, the split below a key that the two
 give together, and the repair of a split-off trie before it is merged back.
 */
module TrieThreshold {
  import opened Keys
  import opened Trie
  import opened Canonical
  import opened TrieMerge
  import opened TrieOrder
  import opened TrieDelete
  import opened TrieSplit

  // ---- MerkleTrie::endow_split -------------------------------------------------------------------------------

  /** A split of the trie `n` after some number of its leaves in key order. */
  ghost predicate SplitTrie<V>(n: Node<V>, L: nat, rest: Node<V>, split: Node<V>) {
    && Leaves(n) == Leaves(split) + Leaves(rest)
    && CanonTrie(rest, L)
    && (split.Empty? || (Shaped(split, L) && Thin(split) && Justified(split, Contents(n).Keys)))
  }

  /**
   `MerkleTrie::endow_split`; not `ok` when the code throws because less than `t` is on offer. The run taken is
   the longest whose endowment does not exceed `t`.
   */
  method EndowSplit<V>(n: Node<V>, L: nat, t: nat) returns (ok: bool, rest: Node<V>, split: Node<V>)
    requires CanonTrie(n, L) && PositiveEndow(n)
    ensures ok <==> t <= MetaOf(n).endow
    ensures ok ==> SplitTrie(n, L, rest, split)
    ensures ok ==> MetaOf(split).endow <= t && (rest.Empty? ==> MetaOf(split).endow == t)
    ensures ok && !rest.Empty? ==> LongestRun(Leaves(split), Leaves(rest), t)
    ensures !ok ==> rest == n
  {
    if !n.Empty? {
      CachedTotal(n, L);
      LeavesPositive(n, L);
      NonNegative(Leaves(n));
      CompactIsThin(n);
      CompactIsJustified(n, L, Contents(n).Keys);
      var _ := FirstLeaf(n, L);
    }
    if t == 0 {
      return true, n, Empty;
    }
    if t > MetaOf(n).endow {
      return false, n, Empty;
    }
    if t == MetaOf(n).endow {
      return true, Empty, n;
    }
    ok := true;
    rest, split := EndowSplitNode(n, L, t);
    ContractCanon(rest, L);
    ContractLeaves(rest, L);
    rest := Contract(rest);
    CachedTotal(split, L);
  }

  lemma {:induction false} NonNegative<V>(s: seq<Item<V>>)
    requires AllPositive(s)
    ensures Total(s).endow >= 0
    ensures s != [] ==> Total(s).endow > 0
  {
    if s != [] {
      NonNegative(s[..|s| - 1]);
    }
  }

  lemma FirstLeaf<V>(n: Node<V>, L: nat) returns (x: Item<V>)
    requires Canon(n, L)
    ensures Leaves(n) != [] && x == Leaves(n)[0]
  {
    var k := HasKey(n, L);
    PresentLeaf(n, L, k);
    x := Leaves(n)[0];
  }

  // ---- endow_lt_key ------------------------------------------------------------------------------------------

  /** The endowment of the items with a key below `k`. */
  ghost function EndowBefore<V>(s: seq<Item<V>>, k: Key): int {
    if s == [] then 0
    else EndowBefore(s[..|s| - 1], k) + if Before(s[|s| - 1].key, k) then s[|s| - 1].entry.meta.endow else 0
  }

  lemma {:induction false} EndowBeforeConcat<V>(s: seq<Item<V>>, t: seq<Item<V>>, k: Key)
    ensures EndowBefore(s + t, k) == EndowBefore(s, k) + EndowBefore(t, k)
    decreases |t|
  {
    if t == [] {
      assert s + t == s;
    } else {
      EndowBeforeConcat(s, t[..|t| - 1], k);
      assert (s + t)[..|s + t| - 1] == s + t[..|t| - 1];
    }
  }

  lemma {:induction false} AllBefore<V>(s: seq<Item<V>>, k: Key)
    requires forall i :: 0 <= i < |s| ==> Before(s[i].key, k)
    ensures EndowBefore(s, k) == Total(s).endow
  {
    if s != [] {
      AllBefore(s[..|s| - 1], k);
    }
  }

  lemma {:induction false} NoneBefore<V>(s: seq<Item<V>>, k: Key)
    requires forall i :: 0 <= i < |s| ==> !Before(s[i].key, k)
    ensures EndowBefore(s, k) == 0
  {
    if s != [] {
      NoneBefore(s[..|s| - 1], k);
    }
  }

  ghost function EndowBeforeTo<V>(cs: seq<Node<V>>, i: nat, k: Key): int
    requires i <= |cs|
  {
    if i == 0 then 0 else EndowBeforeTo(cs, i - 1, k) + EndowBefore(Leaves(cs[i - 1]), k)
  }

  lemma {:induction false} EndowBeforeSlots<V>(cs: seq<Node<V>>, i: nat, k: Key)
    requires i <= |cs|
    ensures EndowBeforeTo(cs, i, k) == EndowBefore(LeavesOf(cs[..i]), k)
  {
    EndowBeforeNone(cs, k);
    for h := 0 to i
      invariant EndowBeforeTo(cs, h, k) == EndowBefore(LeavesOf(cs[..h]), k)
    {
      EndowBeforeStep(cs, h, k);
    }
  }

  lemma EndowBeforeNone<V>(cs: seq<Node<V>>, k: Key)
    ensures EndowBefore(LeavesOf(cs[..0]), k) == 0
  {
    assert cs[..0] == [];
  }

  lemma EndowBeforeStep<V>(cs: seq<Node<V>>, i: nat, k: Key)
    requires i < |cs|
    ensures EndowBefore(LeavesOf(cs[..i + 1]), k) == EndowBefore(LeavesOf(cs[..i]), k) + EndowBefore(Leaves(cs[i]), k)
  {
    LeavesTake(cs, i);
    EndowBeforeConcat(LeavesOf(cs[..i]), Leaves(cs[i]), k);
  }

  lemma LeavesUnder<V>(n: Node<V>, L: nat, q: Key)
    requires Shaped(n, L) && q <= PrefixOf(n)
    ensures forall i :: 0 <= i < |Leaves(n)| ==> q <= Leaves(n)[i].key && |Leaves(n)[i].key| == L
  {
    var s := Leaves(n);
    forall i | 0 <= i < |s| ensures q <= s[i].key && |s[i].key| == L {
      LeafPresent(n, L, s[i]);
      ContentsUnder(n, L, s[i].key);
    }
  }

  lemma ExtendBefore(q: Key, x: Key, k: Key)
    requires q <= x && |q| <= |k|
    ensures Before(q, k[..|q|]) ==> Before(x, k)
    ensures Before(k[..|q|], q) ==> !Before(x, k)
  {
    var r := k[..|q|];
    if Before(q, r) {
      var m := MatchLen(q, r);
      assert x[..m] == q[..m] == r[..m] == k[..m];
      BeforeAt(x, k, m);
    }
    if Before(r, q) {
      var m := MatchLen(r, q);
      assert x[..m] == q[..m] == r[..m] == k[..m];
      BeforeAt(k, x, m);
      BeforeAsymmetric(k, x);
    }
  }

  /** How a prefix compares to a key decides for every key below it. */
  lemma PrefixDecides<V>(n: Node<V>, L: nat, q: Key, k: Key)
    requires Shaped(n, L) && q <= PrefixOf(n) && |q| <= |k|
    ensures Before(q, k[..|q|]) ==> EndowBefore(Leaves(n), k) == MetaOf(n).endow
    ensures Before(k[..|q|], q) ==> EndowBefore(Leaves(n), k) == 0
  {
    var s := Leaves(n);
    CachedTotal(n, L);
    LeavesUnder(n, L, q);
    forall i | 0 <= i < |s|
      ensures Before(q, k[..|q|]) ==> Before(s[i].key, k)
      ensures Before(k[..|q|], q) ==> !Before(s[i].key, k)
    {
      ExtendBefore(q, s[i].key, k);
    }
    if Before(q, k[..|q|]) {
      AllBefore(s, k);
    }
    if Before(k[..|q|], q) {
      NoneBefore(s, k);
    }
  }

  /** `TrieNode::endow_lt_key`. */
  method EndowLtKey<V>(n: Node<V>, L: nat, k: Key) returns (r: int)
    requires (n.Empty? || Shaped(n, L)) && |k| == L
    ensures r == EndowBefore(Leaves(n), k)
    decreases n
  {
    if n.Empty? {
      return 0;
    }
    if n.Leaf? {
      assert Leaves(n)[..0] == [];
      return if Before(n.key, k) then n.entry.meta.endow else 0;
    }
    var q := k[..|n.prefix|];
    PrefixDecides(n, L, n.prefix, k);
    if Before(n.prefix, q) {
      return n.meta.endow;
    } else if Before(q, n.prefix) {
      return 0;
    }
    BeforeTotal(n.prefix, q);
    var bound := k[|n.prefix|];
    r := 0;
    for i: int := 0 to 16
      invariant r == EndowBeforeTo(n.children, i, k)
    {
      SlotDecides(n, L, i, k);
      if i == bound {
        var x := EndowLtKey(n.children[i], L, k);
        r := r + x;
      } else if i < bound {
        r := r + MetaOf(n.children[i]).endow;
      }
    }
    EndowBeforeSlots(n.children, 16, k);
    assert n.children[..16] == n.children;
  }

  lemma SlotDecides<V>(n: Node<V>, L: nat, i: Nibble, k: Key)
    requires n.Branch? && Shaped(n, L) && |k| == L && n.prefix <= k
    ensures i < k[|n.prefix|] ==> EndowBefore(Leaves(n.children[i]), k) == MetaOf(n.children[i]).endow
    ensures i > k[|n.prefix|] ==> EndowBefore(Leaves(n.children[i]), k) == 0
  {
    var c := n.children[i];
    if !c.Empty? {
      var q := n.prefix + [i];
      assert UnderSlot(c, n.prefix, i);
      PrefixDecides(c, L, q, k);
      if i < k[|n.prefix|] {
        BeforeAt(q, k[..|q|], |n.prefix|);
      } else if i > k[|n.prefix|] {
        BeforeAt(k[..|q|], q, |n.prefix|);
      }
    }
  }

  // ---- Splitting below a key -----------------------------------------------------------------------------------

  lemma {:induction false} BeforeCount<V>(s: seq<Item<V>>, k: Key) returns (c: nat)
    requires Sorted(s)
    ensures c <= |s|
    ensures forall i :: 0 <= i < c ==> Before(s[i].key, k)
    ensures forall i :: c <= i < |s| ==> !Before(s[i].key, k)
  {
    if s == [] {
      c := 0;
    } else if Before(s[|s| - 1].key, k) {
      c := |s|;
      forall i | 0 <= i < |s| - 1 ensures Before(s[i].key, k) {
        BeforeTrans(s[i].key, s[|s| - 1].key, k);
      }
    } else {
      c := BeforeCount(s[..|s| - 1], k);
    }
  }

  lemma BeforeTotalTo<V>(s: seq<Item<V>>, k: Key, c: nat)
    requires c <= |s|
    requires forall i :: 0 <= i < c ==> Before(s[i].key, k)
    requires forall i :: c <= i < |s| ==> !Before(s[i].key, k)
    ensures EndowBefore(s, k) == Total(s[..c]).endow
  {
    AllBefore(s[..c], k);
    NoneBefore(s[c..], k);
    EndowBeforeConcat(s[..c], s[c..], k);
    Rejoin(s, c);
  }

  lemma {:induction false} TotalMono<V>(s: seq<Item<V>>, i: nat, j: nat)
    requires AllPositive(s) && i <= j <= |s|
    ensures Total(s[..i]).endow <= Total(s[..j]).endow
    ensures i < j ==> Total(s[..i]).endow < Total(s[..j]).endow
  {
    if i < j {
      TotalMono(s, i, j - 1);
      assert s[..j][..j - 1] == s[..j - 1];
    }
  }

  /** The longest run within the endowment below `k` is the run of keys below `k`. */
  lemma RunIsBelowKey<V>(s: seq<Item<V>>, a: seq<Item<V>>, b: seq<Item<V>>, k: Key)
    requires Sorted(s) && AllPositive(s) && s == a + b
    requires Total(a).endow <= EndowBefore(s, k)
    requires b != [] ==> Total(a).endow + b[0].entry.meta.endow > EndowBefore(s, k)
    ensures forall i :: 0 <= i < |a| ==> Before(a[i].key, k)
    ensures forall i :: 0 <= i < |b| ==> !Before(b[i].key, k)
  {
    var c := BeforeCount(s, k);
    BeforeTotalTo(s, k, c);
    RunLength(s, a, b, c);
    forall i | 0 <= i < |a| ensures Before(a[i].key, k) {
      assert a[i] == s[i];
    }
    forall i | 0 <= i < |b| ensures !Before(b[i].key, k) {
      assert b[i] == s[|a| + i];
    }
  }

  lemma RunLength<V>(s: seq<Item<V>>, a: seq<Item<V>>, b: seq<Item<V>>, c: nat)
    requires AllPositive(s) && s == a + b && c <= |s|
    requires Total(a).endow <= Total(s[..c]).endow
    requires b != [] ==> Total(a).endow + b[0].entry.meta.endow > Total(s[..c]).endow
    ensures |a| == c
  {
    assert s[..|a|] == a;
    if c < |a| {
      TotalMono(s, c, |a|);
    } else if |a| < c {
      var next := s[..|a| + 1];
      assert next[..|a|] == a && next[|a|] == b[0];
      TotalMono(s, |a| + 1, c);
    }
  }
}
