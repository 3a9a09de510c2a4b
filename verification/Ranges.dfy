/**
 `AccountAccumulateValuesRange`: collecting the values of a trie into one array by workers that split the range of
 nodes among them. The splits never hit their throws, and every slot of the array is written once, in key order.
 */
module Ranges {
  import opened Keys
  import opened Trie
  import opened Canonical
  import opened TrieOrder
  import opened TrieHash
  import opened TrieQueries

  const GRAIN_SIZE := 1000

  /** `work_list`, `work_size` and `vector_offset`. */
  datatype Range<V> = Range(work: seq<Node<V>>, size: nat, offset: nat)

  /** Every leaf counts once. */
  ghost predicate UnitSizes<V>(n: Node<V>) {
    forall k :: Get(n, k).Some? ==> Get(n, k).value.meta.size == 1
  }

  ghost predicate NodeOk<V>(n: Node<V>, L: nat) {
    Canon(n, L) && UnitSizes(n)
  }

  ghost predicate NodesOk<V>(ns: seq<Node<V>>, L: nat) {
    forall n :: n in ns ==> NodeOk(n, L)
  }

  lemma SizeOfNode<V>(n: Node<V>, L: nat)
    requires NodeOk(n, L)
    ensures MetaOf(n).size == |Leaves(n)| >= 1
  {
    CachedTotal(n, L);
    forall x | x in Leaves(n) ensures x.entry.meta.size == 1 {
      LeafPresent(n, L, x);
    }
    SizeIsCount(Leaves(n));
    NonEmptyLeaves(n, L);
  }

  // ---- children_list -----------------------------------------------------------------------------------------------------

  /** The children present, in order. */
  function ChildList<V>(cs: seq<Node<V>>): seq<Node<V>> {
    if cs == [] then []
    else ChildList(cs[..|cs| - 1]) + (if cs[|cs| - 1].Empty? then [] else [cs[|cs| - 1]])
  }

  lemma {:induction false} ChildListMembers<V>(cs: seq<Node<V>>)
    ensures |ChildList(cs)| == Kids(cs)
    ensures forall c :: c in ChildList(cs) ==> c in cs && !c.Empty?
  {
    if cs != [] {
      ChildListMembers(cs[..|cs| - 1]);
    }
  }

  lemma {:induction false} ChildListLeaves<V>(cs: seq<Node<V>>)
    ensures LeavesOf(ChildList(cs)) == LeavesOf(cs)
  {
    if cs != [] {
      var init, last := cs[..|cs| - 1], cs[|cs| - 1];
      ChildListLeaves(init);
      LastLeaves(cs);
      if last.Empty? {
        assert ChildList(cs) == ChildList(init);
      } else {
        LeavesOfConcat(ChildList(init), [last]);
        OneNode(last);
        assert ChildList(cs) == ChildList(init) + [last];
      }
    }
  }

  lemma LastLeaves<V>(cs: seq<Node<V>>)
    requires cs != []
    ensures LeavesOf(cs) == LeavesOf(cs[..|cs| - 1]) + Leaves(cs[|cs| - 1])
  {
  }

  lemma OneNode<V>(n: Node<V>)
    ensures LeavesOf([n]) == Leaves(n)
  {
    assert [n][..0] == [];
    assert LeavesOf([n]) == LeavesOf([n][..0]) + Leaves(n);
  }

  lemma ChildrenOk<V>(n: Node<V>, L: nat)
    requires n.Branch? && NodeOk(n, L)
    ensures NodesOk(ChildList(n.children), L)
  {
    ChildListMembers(n.children);
    forall c | c in ChildList(n.children) ensures NodeOk(c, L) {
      var i: nat :| i < |n.children| && n.children[i] == c;
      ChildOk(n, L, i);
    }
  }

  lemma ChildOk<V>(n: Node<V>, L: nat, i: Nibble)
    requires n.Branch? && NodeOk(n, L) && !n.children[i].Empty?
    ensures NodeOk(n.children[i], L)
  {
    forall k | Get(n.children[i], k).Some? ensures Get(n.children[i], k).value.meta.size == 1 {
      SlotGet(n, L, i, k);
    }
  }

  // ---- Splitting a range ---------------------------------------------------------------------------------------------------

  /** A range accounts for exactly the leaves `s`. */
  ghost predicate RangeOf<V>(r: Range<V>, s: seq<Item<V>>, L: nat) {
    NodesOk(r.work, L) && LeavesOf(r.work) == s && r.size == |s|
  }

  /** The state of the splitting loop: what is taken is a front part of the leaves, what is left the rest. */
  ghost predicate Splitting<V>(mine: Range<V>, rest: Range<V>, s: seq<Item<V>>, from: nat, L: nat) {
    && mine.size <= |s|
    && RangeOf(mine, s[..mine.size], L) && RangeOf(rest, s[mine.size..], L)
    && mine.offset == from && rest.offset == from + mine.size
  }

  lemma FirstNode<V>(ws: seq<Node<V>>)
    requires ws != []
    ensures LeavesOf(ws) == Leaves(ws[0]) + LeavesOf(ws[1..])
  {
    OneNode(ws[0]);
    assert ws == [ws[0]] + ws[1..];
    LeavesOfConcat([ws[0]], ws[1..]);
  }

  /** A lone node with more than one leaf is opened into its children. */
  lemma OpenNode<V>(rest: Range<V>, s: seq<Item<V>>, L: nat)
    requires RangeOf(rest, s, L) && |rest.work| == 1 && rest.size > 1
    ensures rest.work[0].Branch? && |ChildList(rest.work[0].children)| >= 2
    ensures RangeOf(rest.(work := ChildList(rest.work[0].children)), s, L)
  {
    var n := rest.work[0];
    assert NodeOk(n, L);
    assert rest.work == [n];
    OneNode(n);
    if n.Branch? {
      ChildListMembers(n.children);
      ChildListLeaves(n.children);
      ChildrenOk(n, L);
    }
  }

  /** The first node moves over. */
  lemma TakeNode<V>(mine: Range<V>, rest: Range<V>, s: seq<Item<V>>, from: nat, L: nat)
    requires Splitting(mine, rest, s, from, L) && rest.work != []
    ensures MetaOf(rest.work[0]).size >= 1
    ensures var n := rest.work[0];
            rest.size >= MetaOf(n).size &&
            Splitting(Range(mine.work + [n], mine.size + MetaOf(n).size, mine.offset),
                      Range(rest.work[1..], rest.size - MetaOf(n).size, rest.offset + MetaOf(n).size), s, from, L)
  {
    var n := rest.work[0];
    assert NodeOk(n, L);
    SizeOfNode(n, L);
    FirstNode(rest.work);
    var m, z := mine.size, MetaOf(n).size;
    var t := s[m..];
    assert t[..z] == Leaves(n) && t[z..] == LeavesOf(rest.work[1..]);
    assert s[..m + z] == s[..m] + t[..z] && s[m + z..] == t[z..];
    LeavesOfConcat(mine.work, [n]);
    OneNode(n);
    assert forall w :: w in mine.work + [n] ==> w in mine.work || w == n;
    assert forall w :: w in rest.work[1..] ==> w in rest.work;
  }

  /**
   The splitting constructor. Not `ok` would be one of its throws. Both parts are non-empty and keep consecutive
   parts of the leaves, with matching sizes and offsets.
   */
  method SplitRange<V>(other: Range<V>, L: nat, ghost s: seq<Item<V>>) returns (ok: bool, mine: Range<V>, rest: Range<V>)
    requires RangeOf(other, s, L) && other.size > GRAIN_SIZE
    ensures ok
    ensures Splitting(mine, rest, s, other.offset, L)
    ensures 0 < mine.size < other.size
  {
    ok, mine, rest := true, Range([], 0, other.offset), other;
    var original := other.size;
    assert s[..0] == [] && s[0..] == s;
    while mine.size < original / 2
      invariant ok && Splitting(mine, rest, s, other.offset, L)
      invariant mine.size < other.size
      decreases original / 2 - mine.size
    {
      if |rest.work| == 1 {
        OpenNode(rest, s[mine.size..], L);
        rest := rest.(work := if rest.work[0].Branch? then ChildList(rest.work[0].children) else []);
      }
      NonEmptyWork(rest, s[mine.size..], L);
      ok := ok && |rest.work| > 1;
      TakeNode(mine, rest, s, other.offset, L);
      var n := rest.work[0];
      LeavesRemain(rest, s[mine.size..], L);
      mine := Range(mine.work + [n], mine.size + MetaOf(n).size, mine.offset);
      rest := Range(rest.work[1..], rest.size - MetaOf(n).size, rest.offset + MetaOf(n).size);
    }
  }

  lemma NonEmptyWork<V>(rest: Range<V>, s: seq<Item<V>>, L: nat)
    requires RangeOf(rest, s, L) && s != []
    ensures rest.work != []
  {
  }

  lemma LeavesRemain<V>(rest: Range<V>, s: seq<Item<V>>, L: nat)
    requires RangeOf(rest, s, L) && |rest.work| >= 2
    ensures MetaOf(rest.work[0]).size < rest.size
  {
    FirstNode(rest.work);
    FirstNode(rest.work[1..]);
    assert NodeOk(rest.work[0], L) && NodeOk(rest.work[1..][0], L);
    SizeOfNode(rest.work[0], L);
    SizeOfNode(rest.work[1..][0], L);
  }

  // ---- Writing one node's values -----------------------------------------------------------------------------------------

  lemma SizeOfSlots<V>(n: Node<V>, L: nat, i: nat)
    requires n.Branch? && NodeOk(n, L) && i < 16
    ensures LeavesOf(n.children[..i + 1]) == LeavesOf(n.children[..i]) + Leaves(n.children[i])
    ensures !n.children[i].Empty? ==> NodeOk(n.children[i], L)
    ensures MetaOf(n.children[i]).size == |Leaves(n.children[i])|
    ensures |LeavesOf(n.children[..i + 1])| <= |Leaves(n)|
  {
    LeavesTake(n.children, i);
    LeavesOfConcat(n.children[..i + 1], n.children[i + 1..]);
    Rejoin(n.children, i + 1);
    if !n.children[i].Empty? {
      ChildOk(n, L, i);
      SizeOfNode(n.children[i], L);
    }
  }

  /** `out` is `was` with `vs` written from `offset` on. */
  ghost predicate Wrote<V>(out: seq<V>, was: seq<V>, offset: nat, vs: seq<V>) {
    && |out| == |was| && offset + |vs| <= |was|
    && forall i :: 0 <= i < |was| ==> out[i] == if offset <= i < offset + |vs| then vs[i - offset] else was[i]
  }

  lemma WroteMore<V>(out: seq<V>, mid: seq<V>, was: seq<V>, offset: nat, s: seq<Item<V>>, t: seq<Item<V>>)
    requires Wrote(mid, was, offset, Values(s)) && Wrote(out, mid, offset + |s|, Values(t))
    ensures Wrote(out, was, offset, Values(s + t))
  {
    ValuesConcat(s, t);
  }

  /** The first `i` nodes are written; the next one starts at `at`. */
  ghost predicate Filling<V>(out: seq<V>, was: seq<V>, offset: nat, at: nat, ns: seq<Node<V>>, i: nat)
    requires i <= |ns|
  {
    at == offset + |LeavesOf(ns[..i])| && Wrote(out, was, offset, Values(LeavesOf(ns[..i])))
  }

  lemma FillStep<V>(out: seq<V>, mid: seq<V>, was: seq<V>, offset: nat, at: nat, ns: seq<Node<V>>, i: nat)
    requires i < |ns| && Filling(mid, was, offset, at, ns, i)
    requires Wrote(out, mid, at, Values(Leaves(ns[i])))
    ensures Filling(out, was, offset, at + |Leaves(ns[i])|, ns, i + 1)
  {
    LeavesTake(ns, i);
    WroteMore(out, mid, was, offset, LeavesOf(ns[..i]), Leaves(ns[i]));
  }

  /** `accumulate_values_parallel_worker`: the values of `n`, in key order, from `offset` on. */
  method WriteNode<V>(n: Node<V>, L: nat, out: array<V>, offset: nat)
    requires NodeOk(n, L) && offset + |Leaves(n)| <= out.Length
    modifies out
    ensures Wrote(out[..], old(out[..]), offset, Values(Leaves(n)))
    decreases n, 0
  {
    if n.Leaf? {
      out[offset] := n.entry.value;
      return;
    }
    ghost var was := out[..];
    var at := offset;
    assert n.children[..0] == [];
    for i: int := 0 to 16
      invariant at >= 0 && Filling(out[..], was, offset, at, n.children, i)
    {
      ghost var mid, before := out[..], at;
      SizeOfSlots(n, L, i);
      at := WriteSlot(n, L, i, out, at);
      FillStep(out[..], mid, was, offset, before, n.children, i);
    }
    assert n.children[..16] == n.children;
  }

  method WriteSlot<V>(n: Node<V>, L: nat, i: Nibble, out: array<V>, at: nat) returns (next: nat)
    requires n.Branch? && NodeOk(n, L) && at + |Leaves(n.children[i])| <= out.Length
    modifies out
    ensures next == at + |Leaves(n.children[i])|
    ensures Wrote(out[..], old(out[..]), at, Values(Leaves(n.children[i])))
    decreases n.children[i], 1
  {
    var c := n.children[i];
    next := at;
    if !c.Empty? {
      ChildOk(n, L, i);
      SizeOfNode(c, L);
      WriteNode(c, L, out, at);
      next := at + MetaOf(c).size;
    }
  }

  /** The work of one range: its nodes one after the other. */
  method WriteRange<V>(r: Range<V>, L: nat, out: array<V>, ghost s: seq<Item<V>>)
    requires RangeOf(r, s, L) && r.offset + r.size <= out.Length
    modifies out
    ensures Wrote(out[..], old(out[..]), r.offset, Values(s))
  {
    ghost var was := out[..];
    var at := r.offset;
    for i := 0 to |r.work|
      invariant at >= 0 && Filling(out[..], was, r.offset, at, r.work, i)
    {
      var n := r.work[i];
      assert NodeOk(n, L);
      SizeOfNode(n, L);
      NodeFits(r.work, i);
      ghost var mid, before := out[..], at;
      WriteNode(n, L, out, at);
      FillStep(out[..], mid, was, r.offset, before, r.work, i);
      at := at + MetaOf(n).size;
    }
    assert r.work[..|r.work|] == r.work;
  }

  lemma NodeFits<V>(ws: seq<Node<V>>, i: nat)
    requires i < |ws|
    ensures LeavesOf(ws[..i + 1]) == LeavesOf(ws[..i]) + Leaves(ws[i])
    ensures |LeavesOf(ws[..i + 1])| <= |LeavesOf(ws)|
  {
    LeavesTake(ws, i);
    LeavesOfConcat(ws[..i + 1], ws[i + 1..]);
    Rejoin(ws, i + 1);
  }

  // ---- All splits, all orders ------------------------------------------------------------------------------------------------

  predicate Covers<V>(r: Range<V>, slot: nat) {
    r.offset <= slot < r.offset + r.size
  }

  /** How many ranges cover a slot. */
  function Waits<V>(ranges: seq<Range<V>>, slot: nat): nat {
    if ranges == [] then 0
    else Waits(ranges[..|ranges| - 1], slot) + (if Covers(ranges[|ranges| - 1], slot) then 1 else 0)
  }

  lemma {:induction false} WaitsConcat<V>(a: seq<Range<V>>, b: seq<Range<V>>, slot: nat)
    ensures Waits(a + b, slot) == Waits(a, slot) + Waits(b, slot)
    decreases |b|
  {
    if b == [] {
      assert a + b == a;
    } else {
      var init, last := b[..|b| - 1], b[|b| - 1];
      WaitsConcat(a, init, slot);
      assert (a + b)[..|a + b| - 1] == a + init;
    }
  }

  lemma WaitsRemove<V>(ranges: seq<Range<V>>, i: nat, slot: nat)
    requires i < |ranges|
    ensures Waits(ranges, slot) == Waits(ranges[..i] + ranges[i + 1..], slot) + if Covers(ranges[i], slot) then 1 else 0
  {
    var a, b := ranges[..i], ranges[i + 1..];
    WaitsAdd(a, ranges[i], slot);
    WaitsConcat(a + [ranges[i]], b, slot);
    WaitsConcat(a, b, slot);
    assert ranges == a + [ranges[i]] + b;
  }

  lemma WaitsAdd<V>(ranges: seq<Range<V>>, r: Range<V>, slot: nat)
    ensures Waits(ranges + [r], slot) == Waits(ranges, slot) + if Covers(r, slot) then 1 else 0
  {
    assert (ranges + [r])[..|ranges|] == ranges;
  }

  /** A range accounts for the leaves at its slots. */
  ghost predicate RangeHolds<V>(r: Range<V>, all: seq<Item<V>>, L: nat) {
    r.offset + r.size <= |all| && RangeOf(r, all[r.offset..r.offset + r.size], L)
  }

  lemma SplitHolds<V>(r: Range<V>, mine: Range<V>, rest: Range<V>, all: seq<Item<V>>, L: nat)
    requires RangeHolds(r, all, L) && Splitting(mine, rest, all[r.offset..r.offset + r.size], r.offset, L)
    ensures RangeHolds(mine, all, L) && RangeHolds(rest, all, L)
    ensures forall slot: nat :: Covers(r, slot) <==> Covers(mine, slot) || Covers(rest, slot)
    ensures forall slot: nat :: !(Covers(mine, slot) && Covers(rest, slot))
  {
    var s := all[r.offset..r.offset + r.size];
    var m := mine.size;
    assert s[..m] == all[r.offset..r.offset + m];
    assert s[m..] == all[r.offset + m..r.offset + r.size];
    assert rest.size == |s[m..]|;
  }

  /**
   `accumulate_values_parallel` with the order of splits and of work left open: at any time some divisible range may
   be split, or the work of some range done.
   */
  class Accumulation<V(0)> {
    const L: nat
    const output: array<V>
    ghost const all: seq<Item<V>>
    var ranges: seq<Range<V>>
    /** The slots written so far. */
    ghost var written: set<nat>

    /** Each slot is either written, with its value, or waits in exactly one range. */
    ghost predicate Valid()
      reads this, output
    {
      && output.Length == |all|
      && (forall r :: r in ranges ==> RangeHolds(r, all, L))
      && (forall slot :: slot in written ==> slot < |all| && output[slot] == all[slot].entry.value)
      && (forall slot: nat :: slot < |all| ==> Waits(ranges, slot) == if slot in written then 0 else 1)
    }

    constructor (root: Node<V>, L: nat)
      requires NodeOk(root, L)
      ensures Valid() && all == Leaves(root) && fresh(output) && written == {} && this.L == L
      ensures MetaOf(root).size == |all| && ranges == [Range([root], |all|, 0)]
    {
      SizeOfNode(root, L);
      this.L := L;
      output := new V[MetaOf(root).size];
      all := Leaves(root);
      written := {};
      ranges := [Range([root], MetaOf(root).size, 0)];
      new;
      OneNode(root);
      assert all[0..|all|] == all;
      forall slot: nat ensures Waits(ranges, slot) == if slot < |all| then 1 else 0 {
        WaitsAdd([], ranges[0], slot);
        assert [] + [ranges[0]] == ranges;
      }
    }

    method Split(i: nat) returns (ok: bool)
      requires Valid() && i < |ranges| && ranges[i].size > GRAIN_SIZE
      modifies this`ranges
      ensures ok && Valid()
    {
      var r := ranges[i];
      assert RangeHolds(r, all, L);
      var mine, rest;
      ok, mine, rest := SplitRange(r, L, all[r.offset..r.offset + r.size]);
      SplitHolds(r, mine, rest, all, L);
      var others := ranges[..i] + ranges[i + 1..];
      var next := others + [rest] + [mine];
      forall slot: nat ensures Waits(next, slot) == Waits(ranges, slot) {
        WaitsRemove(ranges, i, slot);
        WaitsAdd(others, rest, slot);
        WaitsAdd(others + [rest], mine, slot);
      }
      assert forall r :: r in next ==> r in ranges || r == rest || r == mine;
      ranges := next;
    }

    /** Does the work of one range: writes its slots, each for the first time, and no others. */
    method Work(i: nat)
      requires Valid() && i < |ranges|
      modifies this`ranges, this`written, output
      ensures Valid()
      ensures ranges == old(ranges[..i] + ranges[i + 1..])
      ensures forall slot: nat :: Covers(old(ranges[i]), slot) ==> slot !in old(written) && slot in written
      ensures forall slot: nat :: slot < output.Length && !Covers(old(ranges[i]), slot) ==> output[slot] == old(output[slot])
    {
      var r := ranges[i];
      assert RangeHolds(r, all, L);
      ghost var s := all[r.offset..r.offset + r.size];
      var rest := ranges[..i] + ranges[i + 1..];
      forall slot: nat
        ensures Waits(ranges, slot) == Waits(rest, slot) + if Covers(r, slot) then 1 else 0
      {
        WaitsRemove(ranges, i, slot);
      }
      ghost var was := output[..];
      WriteRange(r, L, output, s);
      assert forall j: nat :: j < |was| ==> output[j] == output[..][j] && was[j] == old(output[j]);
      written := written + set slot: nat | slot < |all| && Covers(r, slot);
      ranges := rest;
    }

  }

  /** When no range is left, the array holds the values of the trie in key order. */
  lemma Finished<V(0)>(work: Accumulation<V>)
    requires work.Valid() && work.ranges == []
    ensures work.output[..] == Values(work.all)
  {
    forall slot: nat | slot < |work.all| ensures work.output[slot] == work.all[slot].entry.value {
      assert Waits(work.ranges, slot) == 0;
    }
  }
}
