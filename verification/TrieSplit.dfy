/**
 Splitting off the cheapest offers: `endow_split`, `endow_lt_key` and `clean_singlechild_nodes`.
 */
module TrieSplit {
  import opened Keys
  import opened Trie
  import opened Canonical
  import opened TrieMerge
  import opened TrieOrder
  import opened TrieDelete

  ghost predicate PositiveEndow<V>(n: Node<V>) {
    forall k :: Get(n, k).Some? ==> Get(n, k).value.meta.endow > 0
  }

  ghost predicate AllPositive<V>(s: seq<Item<V>>) {
    forall i :: 0 <= i < |s| ==> s[i].entry.meta.endow > 0
  }

  lemma LeavesPositive<V>(n: Node<V>, L: nat)
    requires Shaped(n, L) && PositiveEndow(n)
    ensures AllPositive(Leaves(n))
  {
    forall i | 0 <= i < |Leaves(n)| ensures Leaves(n)[i].entry.meta.endow > 0 {
      LeafPresent(n, L, Leaves(n)[i]);
    }
  }

  /** Every branch has at least one child. */
  ghost predicate Thin<V>(n: Node<V>) {
    n.Branch? ==> Kids(n.children) >= 1 && forall c :: c in n.children ==> Thin(c)
  }

  lemma {:induction false} CompactIsThin<V>(n: Node<V>)
    requires Compact(n)
    ensures Thin(n)
  {
    if n.Branch? {
      forall c | c in n.children ensures Thin(c) {
        CompactIsThin(c);
      }
    }
  }

  // ---- One cut through the child slots ---------------------------------------------------------------------

  /** Slots below `i` moved, slots above `i` kept, slot `i` divided into `a` (moved) and `b` (kept). */
  ghost predicate CutAt<V>(cs: seq<Node<V>>, moved: seq<Node<V>>, kept: seq<Node<V>>, i: nat, a: Node<V>, b: Node<V>) {
    && |cs| == |moved| == |kept| && i < |cs|
    && (forall j :: 0 <= j < i ==> moved[j] == cs[j] && kept[j] == Empty)
    && (forall j :: i < j < |cs| ==> moved[j] == Empty && kept[j] == cs[j])
    && moved[i] == a && kept[i] == b
  }

  lemma FrontLeaves<V>(cs: seq<Node<V>>, i: nat)
    requires i < |cs|
    requires forall j :: i < j < |cs| ==> cs[j].Empty?
    ensures LeavesOf(cs) == LeavesOf(cs[..i]) + Leaves(cs[i])
  {
    var back := cs[i + 1..];
    LeavesOfEmpty(back);
    LeavesCut(cs, i);
    assert LeavesOf(cs[..i]) + Leaves(cs[i]) + [] == LeavesOf(cs[..i]) + Leaves(cs[i]);
  }

  lemma BackLeaves<V>(cs: seq<Node<V>>, i: nat)
    requires i < |cs|
    requires forall j :: 0 <= j < i ==> cs[j].Empty?
    ensures LeavesOf(cs) == Leaves(cs[i]) + LeavesOf(cs[i + 1..])
  {
    var front := cs[..i];
    LeavesOfEmpty(front);
    LeavesCut(cs, i);
    assert [] + Leaves(cs[i]) == Leaves(cs[i]);
  }

  lemma SameSlots<V>(s: seq<Node<V>>, t: seq<Node<V>>, i: nat)
    requires i <= |s| && |s| == |t|
    ensures (forall h :: 0 <= h < i ==> s[h] == t[h]) ==> s[..i] == t[..i]
    ensures (forall h :: i <= h < |s| ==> s[h] == t[h]) ==> s[i..] == t[i..]
  {
  }

  lemma CutLeaves<V>(cs: seq<Node<V>>, moved: seq<Node<V>>, kept: seq<Node<V>>, i: nat, a: Node<V>, b: Node<V>)
    requires CutAt(cs, moved, kept, i, a, b)
    ensures LeavesOf(moved) == LeavesOf(cs[..i]) + Leaves(a)
    ensures LeavesOf(kept) == Leaves(b) + LeavesOf(cs[i + 1..])
  {
    calc {
      LeavesOf(moved);
    ==  { FrontLeaves(moved, i); }
      LeavesOf(moved[..i]) + Leaves(a);
    ==  { SameSlots(moved, cs, i); }
      LeavesOf(cs[..i]) + Leaves(a);
    }
    calc {
      LeavesOf(kept);
    ==  { BackLeaves(kept, i); }
      Leaves(b) + LeavesOf(kept[i + 1..]);
    ==  { SameSlots(kept, cs, i + 1); }
      Leaves(b) + LeavesOf(cs[i + 1..]);
    }
  }

  lemma Regroup<T>(s: seq<T>, t: seq<T>, u: seq<T>, v: seq<T>)
    ensures s + (t + u) + v == (s + t) + (u + v)
  {
  }

  lemma CutPartition<V>(cs: seq<Node<V>>, moved: seq<Node<V>>, kept: seq<Node<V>>, i: nat, a: Node<V>, b: Node<V>)
    requires CutAt(cs, moved, kept, i, a, b)
    requires Leaves(cs[i]) == Leaves(a) + Leaves(b)
    ensures LeavesOf(cs) == LeavesOf(moved) + LeavesOf(kept)
  {
    var front, back := LeavesOf(cs[..i]), LeavesOf(cs[i + 1..]);
    calc {
      LeavesOf(cs);
    ==  { LeavesCut(cs, i); }
      front + (Leaves(a) + Leaves(b)) + back;
    ==  { Regroup(front, Leaves(a), Leaves(b), back); }
      (front + Leaves(a)) + (Leaves(b) + back);
    ==  { CutLeaves(cs, moved, kept, i, a, b); }
      LeavesOf(moved) + LeavesOf(kept);
    }
  }

  // ---- endow_split ------------------------------------------------------------------------------------------

  /** `s` takes the longest run of leading items whose endowments add up to at most `t`. */
  ghost predicate LongestRun<V>(s: seq<Item<V>>, rest: seq<Item<V>>, t: int) {
    && Total(s).endow <= t
    && rest != []
    && Total(s).endow + rest[0].entry.meta.endow > t
  }

  ghost predicate SplitOff<V>(n: Node<V>, L: nat, t: int, rest: Node<V>, split: Node<V>) {
    && Leaves(n) == Leaves(split) + Leaves(rest)
    && LongestRun(Leaves(split), Leaves(rest), t)
    && (split.Empty? || (Shaped(split, L) && Thin(split) && Justified(split, Contents(n).Keys)))
  }

  ghost predicate MovedOk<V>(c: Node<V>, n: Node<V>, L: nat, i: Nibble)
    requires n.Branch?
  {
    c.Empty? || (Shaped(c, L) && UnderSlot(c, n.prefix, i) && Thin(c) && Justified(c, Contents(n).Keys))
  }

  ghost predicate KeptOk<V>(c: Node<V>, n: Node<V>, L: nat, i: Nibble)
    requires n.Branch?
  {
    c.Empty? || (Canon(c, L) && UnderSlot(c, n.prefix, i))
  }

  /** How slot content `c` divides when `budget` may still be taken. */
  ghost predicate Divided<V>(c: Node<V>, a: Node<V>, b: Node<V>, budget: int) {
    && Leaves(c) == Leaves(a) + Leaves(b)
    && Total(Leaves(a)).endow <= budget
    && (b.Empty? ==> Total(Leaves(a)).endow == MetaOf(c).endow)
    && (!b.Empty? ==> LongestRun(Leaves(a), Leaves(b), budget) && MetaOf(c).endow > budget)
  }

  /** `TrieNode::endow_split`. */
  method EndowSplitNode<V>(n: Node<V>, L: nat, t: int) returns (rest: Node<V>, split: Node<V>)
    requires Canon(n, L) && PositiveEndow(n)
    requires 0 <= t < MetaOf(n).endow
    ensures SplitOff(n, L, t, rest, split)
    ensures NearCanon(rest, L) && PrefixOf(rest) == PrefixOf(n)
    ensures !split.Empty? ==> PrefixOf(split) == PrefixOf(n)
    decreases n, 1
  {
    if n.Leaf? {
      return n, Empty;
    }
    rest, split := SplitChildren(n, L, t);
  }

  method SplitChildren<V>(n: Node<V>, L: nat, t: int) returns (rest: Node<V>, split: Node<V>)
    requires n.Branch? && Canon(n, L) && PositiveEndow(n)
    requires 0 <= t < MetaOf(n).endow
    ensures SplitOff(n, L, t, rest, split)
    ensures NearCanon(rest, L) && PrefixOf(rest) == PrefixOf(n)
    ensures !split.Empty? ==> PrefixOf(split) == PrefixOf(n)
    decreases n, 0
  {
    var cs := n.children;
    var moved, kept, meta := NoKids(), cs, n.meta;
    var i, acc, done := 0, 0, false;
    ghost var a: Node<V>, b: Node<V> := Empty, Empty;
    StartCut(n, L, moved);
    while i < 16 && !done
      invariant !done ==> Cutting(n, L, t, moved, kept, meta, i, acc)
      invariant done ==> CutDone(n, L, t, moved, kept, meta, i, a, b)
      invariant |moved| == |kept| == 16
      decreases 16 - i, !done
    {
      var x, y := SplitSlot(n, L, i, t - acc);
      if acc + MetaOf(cs[i]).endow >= t {
        CutStop(n, L, t, moved, kept, meta, i, acc, x, y);
      } else {
        CutGo(n, L, t, moved, kept, meta, i, acc, x, y);
      }
      moved, kept := moved[i := x], kept[i := y];
      meta := Minus(meta, Minus(MetaOf(cs[i]), MetaOf(y)));
      acc := acc + MetaOf(cs[i]).endow;
      if acc >= t {
        done, a, b := true, x, y;
      } else {
        i := i + 1;
      }
    }
    if !done {
      EndowAll(n, L);
    }
    FinishSplit(n, L, t, moved, kept, i, a, b);
    rest := Branch(n.prefix, kept, meta);
    split := if Kids(moved) == 0 then Empty else Branch(n.prefix, moved, SumMeta(moved));
  }

  ghost predicate SlotsOk<V>(n: Node<V>, L: nat, moved: seq<Node<V>>, kept: seq<Node<V>>)
    requires n.Branch? && |moved| == |kept| == 16
  {
    forall j: Nibble :: MovedOk(moved[j], n, L, j) && KeptOk(kept[j], n, L, j)
  }

  /** Before slot `i`: everything below it has moved, and the budget is not used up. */
  ghost predicate Cutting<V>(n: Node<V>, L: nat, t: int, moved: seq<Node<V>>, kept: seq<Node<V>>, meta: Meta, i: int, acc: int)
    requires n.Branch?
  {
    && |n.children| == |moved| == |kept| == 16 && 0 <= i <= 16
    && SlotsOk(n, L, moved, kept)
    && meta == SumMeta(kept)
    && acc == EndowTo(n.children, i) <= t
    && (i < 16 ==> CutAt(n.children, moved, kept, i, Empty, n.children[i]))
  }

  /** Slot `i` was the last one to give anything. */
  ghost predicate CutDone<V>(
    n: Node<V>, L: nat, t: int, moved: seq<Node<V>>, kept: seq<Node<V>>, meta: Meta, i: int, a: Node<V>, b: Node<V>)
    requires n.Branch?
  {
    && |n.children| == |moved| == |kept| == 16 && 0 <= i < 16
    && SlotsOk(n, L, moved, kept)
    && meta == SumMeta(kept)
    && CutAt(n.children, moved, kept, i, a, b)
    && Divided(n.children[i], a, b, t - EndowTo(n.children, i))
    && (b.Empty? ==> EndowTo(n.children, i) + MetaOf(n.children[i]).endow == t)
  }

  lemma SlotsOkUpdate<V>(n: Node<V>, L: nat, moved: seq<Node<V>>, kept: seq<Node<V>>, i: Nibble, x: Node<V>, y: Node<V>)
    requires n.Branch? && |moved| == |kept| == 16 && SlotsOk(n, L, moved, kept)
    requires MovedOk(x, n, L, i) && KeptOk(y, n, L, i)
    ensures SlotsOk(n, L, moved[i := x], kept[i := y])
  {
    var moved', kept' := moved[i := x], kept[i := y];
    forall j: Nibble ensures MovedOk(moved'[j], n, L, j) && KeptOk(kept'[j], n, L, j) {
      assert MovedOk(moved[j], n, L, j) && KeptOk(kept[j], n, L, j);
    }
  }

  lemma CutAtUpdate<V>(cs: seq<Node<V>>, moved: seq<Node<V>>, kept: seq<Node<V>>, i: nat, x: Node<V>, y: Node<V>)
    requires i < |cs| && CutAt(cs, moved, kept, i, Empty, cs[i])
    ensures CutAt(cs, moved[i := x], kept[i := y], i, x, y)
  {
  }

  ghost predicate SlotStep<V>(n: Node<V>, L: nat, i: Nibble, budget: int, x: Node<V>, y: Node<V>)
    requires n.Branch? && |n.children| == 16
  {
    && MovedOk(x, n, L, i) && KeptOk(y, n, L, i)
    && Divided(n.children[i], x, y, budget) && (y.Empty? ==> x == n.children[i])
  }

  lemma CutStop<V>(n: Node<V>, L: nat, t: int, moved: seq<Node<V>>, kept: seq<Node<V>>, meta: Meta, i: int, acc: int,
                   x: Node<V>, y: Node<V>)
    requires n.Branch? && Cutting(n, L, t, moved, kept, meta, i, acc) && i < 16
    requires SlotStep(n, L, i, t - acc, x, y) && acc + MetaOf(n.children[i]).endow >= t
    ensures CutDone(n, L, t, moved[i := x], kept[i := y], Minus(meta, Minus(MetaOf(n.children[i]), MetaOf(y))), i, x, y)
  {
    KidsUpdate(kept, i, y);
    SlotsOkUpdate(n, L, moved, kept, i, x, y);
    CutAtUpdate(n.children, moved, kept, i, x, y);
  }

  lemma CutGo<V>(n: Node<V>, L: nat, t: int, moved: seq<Node<V>>, kept: seq<Node<V>>, meta: Meta, i: int, acc: int,
                 x: Node<V>, y: Node<V>)
    requires n.Branch? && Cutting(n, L, t, moved, kept, meta, i, acc) && i < 16
    requires SlotStep(n, L, i, t - acc, x, y) && acc + MetaOf(n.children[i]).endow < t
    ensures Cutting(n, L, t, moved[i := x], kept[i := y], Minus(meta, Minus(MetaOf(n.children[i]), MetaOf(y))),
                    i + 1, acc + MetaOf(n.children[i]).endow)
  {
    KidsUpdate(kept, i, y);
    SlotsOkUpdate(n, L, moved, kept, i, x, y);
    CutAtUpdate(n.children, moved, kept, i, x, y);
    NextCut(n.children, moved[i := x], kept[i := y], i, x, y);
  }

  /** The endowment of the first `i` slots. */
  ghost function EndowTo<V>(cs: seq<Node<V>>, i: nat): int
    requires i <= |cs|
  {
    if i == 0 then 0 else EndowTo(cs, i - 1) + MetaOf(cs[i - 1]).endow
  }

  lemma EndowToSum<V>(cs: seq<Node<V>>, i: nat)
    requires i <= |cs|
    ensures EndowTo(cs, i) == SumMeta(cs[..i]).endow
  {
    assert cs[..0] == [];
    for j := 0 to i
      invariant EndowTo(cs, j) == SumMeta(cs[..j]).endow
    {
      SumTake(cs, j);
      EndowStep(cs, j);
    }
  }

  lemma EndowStep<V>(cs: seq<Node<V>>, i: nat)
    requires i < |cs|
    ensures EndowTo(cs, i + 1) == EndowTo(cs, i) + MetaOf(cs[i]).endow
  {
  }

  lemma EndowToTotal<V>(cs: seq<Node<V>>, L: nat, i: nat)
    requires i <= |cs| && forall c :: c in cs ==> c.Empty? || Shaped(c, L)
    ensures EndowTo(cs, i) == Total(LeavesOf(cs[..i])).endow == SumMeta(cs[..i]).endow
  {
    EndowToSum(cs, i);
    CachedTotalOf(cs[..i], L);
  }

  lemma SumTake<V>(cs: seq<Node<V>>, i: nat)
    requires i < |cs|
    ensures SumMeta(cs[..i + 1]) == Plus(SumMeta(cs[..i]), MetaOf(cs[i]))
  {
    assert cs[..i + 1][..i] == cs[..i];
  }

  lemma EndowAll<V>(n: Node<V>, L: nat)
    requires n.Branch? && Shaped(n, L)
    ensures EndowTo(n.children, 16) == n.meta.endow
  {
    EndowToTotal(n.children, L, 16);
    assert n.children[..16] == n.children;
  }

  lemma StartCut<V>(n: Node<V>, L: nat, moved: seq<Node<V>>)
    requires n.Branch? && Canon(n, L)
    requires |moved| == 16 && forall c :: c in moved ==> c.Empty?
    ensures SlotsOk(n, L, moved, n.children)
    ensures CutAt(n.children, moved, n.children, 0, Empty, n.children[0])
  {
    forall j: Nibble ensures KeptOk(n.children[j], n, L, j) {
      assert UnderSlot(n.children[j], n.prefix, j);
    }
  }

  lemma NextCut<V>(cs: seq<Node<V>>, moved: seq<Node<V>>, kept: seq<Node<V>>, i: nat, x: Node<V>, y: Node<V>)
    requires CutAt(cs, moved, kept, i, x, y)
    requires x == cs[i] && y == Empty
    ensures i + 1 < |cs| ==> CutAt(cs, moved, kept, i + 1, Empty, cs[i + 1])
  {
  }

  /** One child of `endow_split`'s loop: taken whole, divided, or left. */
  method SplitSlot<V>(n: Node<V>, L: nat, j: Nibble, budget: int) returns (a: Node<V>, b: Node<V>)
    requires n.Branch? && Canon(n, L) && PositiveEndow(n) && budget >= 0
    ensures MovedOk(a, n, L, j) && KeptOk(b, n, L, j)
    ensures Divided(n.children[j], a, b, budget)
    ensures b.Empty? ==> a == n.children[j]
    decreases n.children[j], 2
  {
    var c := n.children[j];
    if c.Empty? {
      return Empty, Empty;
    }
    SlotFacts(n, L, j);
    if MetaOf(c).endow <= budget {
      CachedTotal(c, L);
      a, b := c, Empty;
    } else {
      b, a := EndowSplitNode(c, L, budget);
      DividedSlot(n, L, j, budget, b, a);
      b := Contract(b);
    }
  }

  lemma SlotFacts<V>(n: Node<V>, L: nat, j: Nibble)
    requires n.Branch? && Canon(n, L) && PositiveEndow(n) && !n.children[j].Empty?
    ensures Canon(n.children[j], L) && UnderSlot(n.children[j], n.prefix, j) && PositiveEndow(n.children[j])
    ensures Contents(n.children[j]).Keys <= Contents(n).Keys
    ensures MovedOk(n.children[j], n, L, j)
  {
    var c := n.children[j];
    forall k | Get(c, k).Some? ensures Get(c, k) == Get(n, k) {
      SlotGet(n, L, j, k);
    }
    forall k | k in Contents(c) ensures k in Contents(n) {
      assert Get(c, k) == Get(n, k);
    }
    CompactIsThin(c);
    CompactIsJustified(c, L, Contents(n).Keys);
  }

  lemma DividedSlot<V>(n: Node<V>, L: nat, j: Nibble, budget: int, rest: Node<V>, a: Node<V>)
    requires n.Branch? && Canon(n, L) && PositiveEndow(n) && !n.children[j].Empty?
    requires MetaOf(n.children[j]).endow > budget
    requires SplitOff(n.children[j], L, budget, rest, a)
    requires NearCanon(rest, L) && PrefixOf(rest) == PrefixOf(n.children[j])
    requires !a.Empty? ==> PrefixOf(a) == PrefixOf(n.children[j])
    ensures MovedOk(a, n, L, j) && KeptOk(Contract(rest), n, L, j)
    ensures Divided(n.children[j], a, Contract(rest), budget)
    ensures !Contract(rest).Empty?
  {
    SlotFacts(n, L, j);
    ContractCanon(rest, L);
    ContractLeaves(rest, L);
    if !a.Empty? {
      JustifiedLocal(a, L, Contents(n.children[j]).Keys, Contents(n).Keys);
    }
  }

  lemma ContractLeaves<V>(n: Node<V>, L: nat)
    requires NearCanon(n, L)
    ensures Leaves(Contract(n)) == Leaves(n)
  {
    if n.Branch? && Kids(n.children) == 1 {
      LowestPresent(n.children);
      var i: Nibble := Lowest(n.children, 0);
      LoneKid(n.children, i);
      BackLeaves(n.children, i);
      LeavesOfEmpty(n.children[i + 1..]);
    }
  }

  lemma FinishSplit<V>(n: Node<V>, L: nat, t: int, moved: seq<Node<V>>, kept: seq<Node<V>>, i: nat, a: Node<V>, b: Node<V>)
    requires n.Branch? && Canon(n, L) && PositiveEndow(n) && 0 <= t < MetaOf(n).endow
    requires |moved| == |kept| == 16 && i < 16 && SlotsOk(n, L, moved, kept)
    requires CutAt(n.children, moved, kept, i, a, b) && Divided(n.children[i], a, b, t - EndowTo(n.children, i))
    requires b.Empty? ==> EndowTo(n.children, i) + MetaOf(n.children[i]).endow == t
    ensures var rest := Branch(n.prefix, kept, SumMeta(kept));
            var split := if Kids(moved) == 0 then Empty else Branch(n.prefix, moved, SumMeta(moved));
            SplitOff(n, L, t, rest, split) && NearCanon(rest, L)
  {
    var rest := Branch(n.prefix, kept, SumMeta(kept));
    var split := if Kids(moved) == 0 then Empty else Branch(n.prefix, moved, SumMeta(moved));
    CutPartition(n.children, moved, kept, i, a, b);
    FinishRun(n, L, t, moved, kept, i, a, b);
    MovedLeaves(moved);
    assert Leaves(split) == LeavesOf(moved);
    FinishShape(n, L, moved, kept);
    if Kids(kept) == 0 {
      EmptyLeaves(kept);
    }
  }

  lemma EmptyLeaves<V>(cs: seq<Node<V>>)
    requires Kids(cs) == 0
    ensures LeavesOf(cs) == []
  {
    forall j: nat | j < |cs| ensures cs[j].Empty? {
      if !cs[j].Empty? {
        KidPresent(cs, j);
      }
    }
    LeavesOfEmpty(cs);
  }

  lemma MovedLeaves<V>(moved: seq<Node<V>>)
    ensures Kids(moved) == 0 ==> LeavesOf(moved) == []
  {
    if Kids(moved) == 0 {
      EmptyLeaves(moved);
    }
  }

  lemma FinishRun<V>(n: Node<V>, L: nat, t: int, moved: seq<Node<V>>, kept: seq<Node<V>>, i: nat, a: Node<V>, b: Node<V>)
    requires n.Branch? && Canon(n, L) && PositiveEndow(n) && 0 <= t < MetaOf(n).endow && i < 16
    requires CutAt(n.children, moved, kept, i, a, b) && Divided(n.children[i], a, b, t - EndowTo(n.children, i))
    requires b.Empty? ==> EndowTo(n.children, i) + MetaOf(n.children[i]).endow == t
    requires LeavesOf(n.children) == LeavesOf(moved) + LeavesOf(kept)
    ensures LongestRun(LeavesOf(moved), LeavesOf(kept), t)
  {
    var front, back := LeavesOf(n.children[..i]), LeavesOf(n.children[i + 1..]);
    CutLeaves(n.children, moved, kept, i, a, b);
    EndowToTotal(n.children, L, i);
    TotalConcat(front, Leaves(a));
    if b.Empty? {
      CachedTotal(n, L);
      LeavesPositive(n, L);
      WholeRun(Leaves(n), LeavesOf(moved), LeavesOf(kept), t);
    } else {
      assert LeavesOf(kept)[0] == Leaves(b)[0];
    }
  }

  /** A front part that adds up to `t`, with positive leaves after it, is the longest run. */
  lemma WholeRun<V>(s: seq<Item<V>>, front: seq<Item<V>>, back: seq<Item<V>>, t: int)
    requires s == front + back && Total(front).endow == t < Total(s).endow
    requires forall x :: x in s ==> x.entry.meta.endow > 0
    ensures LongestRun(front, back, t)
  {
    TotalConcat(front, back);
    if back != [] {
      assert s[|front|] == back[0];
    }
  }

  lemma FinishShape<V>(n: Node<V>, L: nat, moved: seq<Node<V>>, kept: seq<Node<V>>)
    requires n.Branch? && Canon(n, L) && |moved| == |kept| == 16 && SlotsOk(n, L, moved, kept)
    ensures Kids(kept) != 0 ==> NearCanon(Branch(n.prefix, kept, SumMeta(kept)), L)
    ensures var split := Branch(n.prefix, moved, SumMeta(moved));
            Kids(moved) != 0 ==> Shaped(split, L) && Thin(split) && Justified(split, Contents(n).Keys)
  {
    BranchIsBranchPoint(n, L);
    forall j: Nibble ensures UnderSlot(moved[j], n.prefix, j) && UnderSlot(kept[j], n.prefix, j) {
      assert MovedOk(moved[j], n, L, j) && KeptOk(kept[j], n, L, j);
    }
  }
}
