/**
 `AccountBatchMergeRange`: merging many pending tries into one main trie by workers that split the work by stealing
 subtrees. Every schedule of splits and executions ends in the trie that merging serially gives, up to the order of
 entries inside an account's log.
 */
module Schedules {
  import opened Keys
  import opened KeyValues
  import opened Trie
  import opened Canonical
  import opened TrieMerge
  import opened TrieOrder
  import opened TrieMarks
  import opened TrieHash
  import opened Logs
  import opened Stealing

  /** 64-bit account ids, in nibbles. */
  const ACCOUNT_LEN: nat := 16

  /** Every 64-bit id is the number its key spells out. */
  lemma AccountKeys(id: nat)
    requires id < 0x1_0000_0000_0000_0000
    ensures Value(Digits(id, ACCOUNT_LEN)) == id
  {
    Pow16Bits();
    ValueOfDigits(id, ACCOUNT_LEN);
  }

  // ---- Logs held by tries ------------------------------------------------------------------------------------------------

  ghost predicate LogOk(k: Key, e: Entry<TxLog>) {
    e.meta == Meta(1, 0, 0, 0) && e.value.owner == Value(k)
  }

  /** Every log is filed under its owner and counts once. */
  ghost predicate LogsOk(n: Node<TxLog>) {
    forall k :: Get(n, k).Some? ==> LogOk(k, Get(n, k).value)
  }

  /** What `n` holds for account `k`, up to order. */
  ghost function At(n: Node<TxLog>, k: Key): Option<Bags> {
    if Get(n, k).Some? then Some(BagsOf(Get(n, k).value.value)) else None
  }

  ghost function Pending(ts: seq<Node<TxLog>>, k: Key): Option<Bags> {
    if ts == [] then None else Both(Pending(ts[..|ts| - 1], k), At(ts[|ts| - 1], k))
  }

  /** An entry point of a range: the node heading the keys below `region`, and the tries waiting to be merged there. */
  datatype Job = Job(region: Key, tries: seq<Node<TxLog>>)

  ghost function Waiting(jobs: seq<Job>, k: Key): Option<Bags> {
    if jobs == [] then None else Both(Waiting(jobs[..|jobs| - 1], k), Pending(jobs[|jobs| - 1].tries, k))
  }

  ghost function TotalAt(main: Node<TxLog>, jobs: seq<Job>, k: Key): Option<Bags> {
    Both(At(main, k), Waiting(jobs, k))
  }

  lemma {:induction false} WaitingRemove(jobs: seq<Job>, j: nat, k: Key)
    requires j < |jobs|
    ensures Waiting(jobs, k) == Both(Pending(jobs[j].tries, k), Waiting(jobs[..j] + jobs[j + 1..], k))
  {
    var last := |jobs| - 1;
    var init, p := jobs[..last], Pending(jobs[last].tries, k);
    if j == last {
      assert jobs[..j] + jobs[j + 1..] == init;
      BothLaws(Waiting(init, k), p, None);
    } else {
      WaitingRemove(init, j, k);
      var rest := jobs[..j] + jobs[j + 1..];
      assert rest[..|rest| - 1] == init[..j] + init[j + 1..];
      BothLaws(Pending(jobs[j].tries, k), Waiting(init[..j] + init[j + 1..], k), p);
    }
  }

  lemma WaitingAdd(jobs: seq<Job>, job: Job, k: Key)
    ensures Waiting(jobs + [job], k) == Both(Waiting(jobs, k), Pending(job.tries, k))
  {
    assert (jobs + [job])[..|jobs|] == jobs;
  }

  lemma PendingAdd(ts: seq<Node<TxLog>>, t: Node<TxLog>, k: Key)
    ensures Pending(ts + [t], k) == Both(Pending(ts, k), At(t, k))
  {
    assert (ts + [t])[..|ts|] == ts;
  }

  lemma PendingStep(ts: seq<Node<TxLog>>, i: nat, k: Key)
    requires i < |ts|
    ensures Pending(ts[..i + 1], k) == Both(Pending(ts[..i], k), At(ts[i], k))
  {
    assert ts[..i + 1][..i] == ts[..i];
  }

  // ---- Steps on one trie ---------------------------------------------------------------------------------------------------

  lemma MergedAt(r: Node<TxLog>, a: Node<TxLog>, b: Node<TxLog>, k: Key)
    requires Merged(r, a, b, MergeLogs)
    ensures At(r, k) == Both(At(a, k), At(b, k))
  {
    assert Get(r, k) == MergeEntries(Get(a, k), Get(b, k), MergeLogs);
    if Get(a, k).Some? && Get(b, k).Some? {
      MergedBags(Get(a, k).value, Get(b, k).value);
    }
  }

  lemma MergedOk(r: Node<TxLog>, a: Node<TxLog>, b: Node<TxLog>)
    requires Merged(r, a, b, MergeLogs) && LogsOk(a) && LogsOk(b)
    ensures LogsOk(r)
  {
    forall k | Get(r, k).Some? ensures LogOk(k, Get(r, k).value) {
      assert Get(r, k) == MergeEntries(Get(a, k), Get(b, k), MergeLogs);
    }
  }

  lemma PartedAt(left: Node<TxLog>, taken: Node<TxLog>, b: Node<TxLog>, q: Key, k: Key)
    requires Parted(left, taken, b, q)
    ensures Both(At(left, k), At(taken, k)) == At(b, k)
  {
  }

  lemma PartedOk(left: Node<TxLog>, taken: Node<TxLog>, b: Node<TxLog>, q: Key)
    requires Parted(left, taken, b, q) && LogsOk(b)
    ensures LogsOk(left) && LogsOk(taken)
  {
  }

  /** A trie of size zero holds nothing. */
  lemma SizeZero(b: Node<TxLog>, k: Key)
    requires Shaped(b, ACCOUNT_LEN) && LogsOk(b) && MetaOf(b).size <= 0
    ensures At(b, k) == None
  {
    assert LeavesOk(b);
    LiveCountExact(b, ACCOUNT_LEN);
    NothingMarked(b, ACCOUNT_LEN, DeletionMark);
    NoneMarked(b);
    assert LiveValues(b) == map[];
  }

  // ---- The state of a batch merge ------------------------------------------------------------------------------------------

  /** A pending trie below `region`: its branch prefixes part keys of it and the main trie. */
  ghost predicate TrieOk(main: Node<TxLog>, b: Node<TxLog>, region: Key) {
    Shaped(b, ACCOUNT_LEN) && LogsOk(b) && region <= PrefixOf(b) && JustifiedPair(main, b)
  }

  ghost predicate Headed(main: Node<TxLog>, region: Key) {
    exists h :: Get(main, h).Some? && region <= h
  }

  ghost predicate JobOk(main: Node<TxLog>, job: Job) {
    Headed(main, job.region) && forall b :: b in job.tries ==> TrieOk(main, b, job.region)
  }

  ghost predicate MainOk(main: Node<TxLog>) {
    Canon(main, ACCOUNT_LEN) && LogsOk(main)
  }

  ghost predicate JobsOk(main: Node<TxLog>, jobs: seq<Job>) {
    forall job :: job in jobs ==> JobOk(main, job)
  }

  ghost predicate Grows(m: Node<TxLog>, n: Node<TxLog>) {
    forall k :: Get(m, k).Some? ==> Get(n, k).Some?
  }

  /** More keys in the main trie do no harm. */
  lemma {:induction false} JustifiedMore<V>(b: Node<V>, ks: set<Key>, ls: set<Key>)
    requires Justified(b, ks) && ks <= ls
    ensures Justified(b, ls)
  {
    if b.Branch? {
      var x, y :| x in ks && y in ks && Splits(b.prefix, x, y);
      assert BranchPoint(ls, b.prefix);
      forall i | 0 <= i < |b.children| ensures Justified(b.children[i], ls) {
        JustifiedMore(b.children[i], ks, ls);
      }
    }
  }

  lemma TrieStaysOk(m: Node<TxLog>, n: Node<TxLog>, b: Node<TxLog>, region: Key)
    requires TrieOk(m, b, region) && Grows(m, n)
    ensures TrieOk(n, b, region)
  {
    forall k | k in Contents(m) ensures k in Contents(n) {
      assert Get(m, k).Some?;
    }
    JustifiedMore(b, Contents(m).Keys + Contents(b).Keys, Contents(n).Keys + Contents(b).Keys);
  }

  lemma JobStaysOk(m: Node<TxLog>, n: Node<TxLog>, job: Job)
    requires JobOk(m, job) && Grows(m, n)
    ensures JobOk(n, job)
  {
    var h :| Get(m, h).Some? && job.region <= h;
    assert Get(n, h).Some?;
    forall b | b in job.tries ensures TrieOk(n, b, job.region) {
      TrieStaysOk(m, n, b, job.region);
    }
  }

  /** Merges one waiting trie, unless its size is zero. */
  method MergeOne(main: Node<TxLog>, region: Key, b: Node<TxLog>) returns (r: Node<TxLog>)
    requires MainOk(main) && Headed(main, region) && TrieOk(main, b, region)
    ensures MainOk(r) && Grows(main, r)
    ensures forall k :: At(r, k) == Both(At(main, k), At(b, k))
  {
    r := main;
    if MetaOf(b).size > 0 {
      ghost var h :| Get(main, h).Some? && region <= h;
      var delta;
      r, delta := MergeAt(main, ACCOUNT_LEN, region, b, MergeLogs, h);
      MergedOk(r, main, b);
      forall k ensures At(r, k) == Both(At(main, k), At(b, k)) ensures Get(main, k).Some? ==> Get(r, k).Some? {
        MergedAt(r, main, b, k);
      }
    } else {
      forall k ensures At(b, k) == None {
        SizeZero(b, k);
      }
    }
  }

  /** What a split takes of a waiting trie: the part below `q`, unless that is all of it. */
  ghost function StolenAt(b: Node<TxLog>, q: Key, k: Key): Option<Bags> {
    if q <= k && !WhollyBelow(b, q) then At(b, k) else None
  }

  ghost function KeptAt(b: Node<TxLog>, q: Key, k: Key): Option<Bags> {
    if q <= k && !WhollyBelow(b, q) then None else At(b, k)
  }

  predicate WhollyBelow(b: Node<TxLog>, q: Key) {
    !b.Empty? && q <= PrefixOf(b)
  }

  /** What a split takes of all tries waiting at an entry point, and what it leaves. */
  ghost function StolenFrom(ts: seq<Node<TxLog>>, q: Key, k: Key): Option<Bags> {
    if ts == [] then None else Both(StolenFrom(ts[..|ts| - 1], q, k), StolenAt(ts[|ts| - 1], q, k))
  }

  ghost function KeptOf(ts: seq<Node<TxLog>>, q: Key, k: Key): Option<Bags> {
    if ts == [] then None else Both(KeptOf(ts[..|ts| - 1], q, k), KeptAt(ts[|ts| - 1], q, k))
  }

  lemma StolenStep(ts: seq<Node<TxLog>>, i: nat, q: Key, k: Key)
    requires i < |ts|
    ensures StolenFrom(ts[..i + 1], q, k) == Both(StolenFrom(ts[..i], q, k), StolenAt(ts[i], q, k))
    ensures KeptOf(ts[..i + 1], q, k) == Both(KeptOf(ts[..i], q, k), KeptAt(ts[i], q, k))
  {
    assert ts[..i + 1][..i] == ts[..i];
  }

  /** Takes the part of one waiting trie that belongs below `q`. */
  method StealOne(main: Node<TxLog>, region: Key, q: Key, b: Node<TxLog>) returns (left: Node<TxLog>, taken: Node<TxLog>)
    requires MainOk(main) && TrieOk(main, b, region) && Headed(main, q) && region <= q && |q| <= ACCOUNT_LEN
    ensures TrieOk(main, left, region)
    ensures taken.Empty? || TrieOk(main, taken, q)
    ensures forall k :: Both(At(left, k), At(taken, k)) == At(b, k)
    ensures forall k :: At(taken, k) == StolenAt(b, q, k) && At(left, k) == KeptAt(b, q, k)
  {
    ghost var h :| Get(main, h).Some? && q <= h;
    ghost var ks := Contents(main).Keys + Contents(b).Keys;
    ghost var ls := Contents(main).Keys + set k | k in Contents(b) && !(q <= k);
    TransferByWitness(ks, ls, q, h);
    var whole;
    whole, left, taken := StealChild(b, ACCOUNT_LEN, q, ks, ls);
    if !whole {
      PartedOk(left, taken, b, q);
      StolenOk(main, b, left, taken, q, ks, ls);
      forall k ensures Both(At(left, k), At(taken, k)) == At(b, k) {
        PartedAt(left, taken, b, q, k);
      }
    }
  }

  lemma StolenOk(main: Node<TxLog>, b: Node<TxLog>, left: Node<TxLog>, taken: Node<TxLog>, q: Key, ks: set<Key>, ls: set<Key>)
    requires Parted(left, taken, b, q)
    requires ks == Contents(main).Keys + Contents(b).Keys
    requires ls == Contents(main).Keys + set k | k in Contents(b) && !(q <= k)
    requires Justified(left, ls)
    requires taken.Empty? || (Shaped(taken, ACCOUNT_LEN) && q <= PrefixOf(taken) && Justified(taken, ks))
    ensures JustifiedPair(main, left)
    ensures taken.Empty? || JustifiedPair(main, taken)
  {
    forall k ensures k in Contents(left) <==> k in Contents(b) && !(q <= k) {
      assert Get(left, k) == if q <= k then None else Get(b, k);
    }
    assert ls == Contents(main).Keys + Contents(left).Keys;
    if !taken.Empty? {
      var ms := Contents(main).Keys + Contents(taken).Keys;
      forall k | k in ks && PrefixOf(taken) <= k ensures k in ms {
        assert q == PrefixOf(taken)[..|q|] == k[..|q|];
        assert Get(taken, k) == if q <= k then Get(b, k) else None;
      }
      JustifiedLocal(taken, ACCOUNT_LEN, ks, ms);
    }
  }

  // ---- The batch merge as a state machine ------------------------------------------------------------------------------------

  /** A batch merge under way: any sequence of `Split` and `Execute` calls is a schedule. */
  class BatchMerge {
    var main: Node<TxLog>
    var jobs: seq<Job>
    /** What the tries held for each account when the batch began. */
    ghost const owed: Key -> Option<Bags>

    ghost predicate Valid()
      reads this
    {
      && MainOk(main) && JobsOk(main, jobs)
      && forall k :: TotalAt(main, jobs, k) == owed(k)
    }

    /** One range: everything is to be merged at the root of a non-empty trie. */
    constructor (root: Node<TxLog>, tries: seq<Node<TxLog>>)
      requires MainOk(root) && forall b :: b in tries ==> MainOk(b)
      ensures Valid() && main == root && jobs == [Job([], tries)]
      ensures owed == (k => Both(At(root, k), Pending(tries, k)))
    {
      main, jobs, owed := root, [Job([], tries)], k => Both(At(root, k), Pending(tries, k));
      new;
      RootJob(root, tries);
    }

    /**
     The split that steals: of all tries waiting at entry point `j`, the parts below `q`, the key prefix of a node of
     the main trie under that entry point, go to a new entry point; a trie all of which is below `q` stays where it is.
     (Handing over whole entry points changes no state.)
     */
    method Split(j: nat, q: Key)
      requires Valid() && j < |jobs| && jobs[j].region <= q && |q| <= ACCOUNT_LEN && Headed(main, q)
      modifies this`jobs
      ensures Valid()
      ensures SplitTo(jobs, old(jobs), j, q)
    {
      var region := jobs[j].region;
      assert JobOk(main, jobs[j]);
      var left, taken := StealAll(main, region, q, jobs[j].tries);
      var rest := jobs[..j] + jobs[j + 1..];
      var next := rest + [Job(region, left)] + (if taken != [] then [Job(q, taken)] else []);
      SplitTotals(jobs, j, left, taken, q);
      assert forall job :: job in next ==> job in jobs || job == Job(region, left) || job == Job(q, taken);
      assert next[..|rest|] == rest;
      jobs := next;
    }

    /** `execute` on one entry point: merges the tries waiting there. */
    method Execute(j: nat)
      requires Valid() && j < |jobs|
      modifies this
      ensures Valid()
      ensures jobs == old(jobs[..j] + jobs[j + 1..])
    {
      ghost var m := main;
      var job := jobs[j];
      assert JobOk(main, job);
      var r := MergeAll(main, job.region, job.tries);
      var rest := jobs[..j] + jobs[j + 1..];
      forall job | job in rest ensures JobOk(r, job) {
        assert job in jobs;
        JobStaysOk(m, r, job);
      }
      forall k ensures TotalAt(r, rest, k) == TotalAt(m, jobs, k) {
        WaitingRemove(jobs, j, k);
        BothLaws(At(m, k), Pending(job.tries, k), Waiting(rest, k));
      }
      main, jobs := r, rest;
    }

  }

  /**
   The entry points `now` come of `was` by splitting the `j`-th at `q`: the others are as they were, the old entry point
   waits for what was not stolen, and a new one at `q`, if anything was stolen, for just that.
   */
  ghost predicate SplitTo(now: seq<Job>, was: seq<Job>, j: nat, q: Key)
    requires j < |was|
  {
    var rest, tries := was[..j] + was[j + 1..], was[j].tries;
    && |rest| + 1 <= |now| <= |rest| + 2
    && now[..|rest|] == rest
    && now[|rest|].region == was[j].region
    && (forall k :: Pending(now[|rest|].tries, k) == KeptOf(tries, q, k))
    && (if |now| == |rest| + 1 then forall k :: StolenFrom(tries, q, k) == None
        else now[|rest| + 1].region == q && forall k :: Pending(now[|rest| + 1].tries, k) == StolenFrom(tries, q, k))
  }

  /** Once every entry point is executed, the main trie holds everything owed, and nothing else. */
  lemma Finished(batch: BatchMerge)
    requires batch.Valid() && batch.jobs == []
    ensures MainOk(batch.main) && forall k :: At(batch.main, k) == batch.owed(k)
    ensures MetaOf(batch.main).size == |Contents(batch.main)|
  {
    SizeExact(batch.main);
    forall k ensures At(batch.main, k) == batch.owed(k) {
      assert TotalAt(batch.main, batch.jobs, k) == batch.owed(k);
      BothLaws(At(batch.main, k), None, None);
    }
  }

  lemma RootJob(root: Node<TxLog>, tries: seq<Node<TxLog>>)
    requires MainOk(root) && forall b :: b in tries ==> MainOk(b)
    ensures JobsOk(root, [Job([], tries)])
    ensures forall k :: Waiting([Job([], tries)], k) == Pending(tries, k)
  {
    var h := HasKey(root, ACCOUNT_LEN);
    assert Get(root, h).Some?;
    forall b | b in tries ensures TrieOk(root, b, []) {
      CompactIsJustified(b, ACCOUNT_LEN, Contents(root).Keys + Contents(b).Keys);
    }
    assert JobOk(root, Job([], tries));
    forall k ensures Waiting([Job([], tries)], k) == Pending(tries, k) {
      assert [Job([], tries)][..0] == [];
    }
  }

  method StealAll(main: Node<TxLog>, region: Key, q: Key, tries: seq<Node<TxLog>>)
    returns (left: seq<Node<TxLog>>, taken: seq<Node<TxLog>>)
    requires MainOk(main) && Headed(main, q) && region <= q && |q| <= ACCOUNT_LEN
    requires forall b :: b in tries ==> TrieOk(main, b, region)
    ensures forall b :: b in left ==> TrieOk(main, b, region)
    ensures forall b :: b in taken ==> TrieOk(main, b, q)
    ensures forall k :: Both(Pending(left, k), Pending(taken, k)) == Pending(tries, k)
    ensures forall k :: Pending(left, k) == KeptOf(tries, q, k) && Pending(taken, k) == StolenFrom(tries, q, k)
  {
    left, taken := [], [];
    for i := 0 to |tries|
      invariant forall b :: b in left ==> TrieOk(main, b, region)
      invariant forall b :: b in taken ==> TrieOk(main, b, q)
      invariant forall k :: Both(Pending(left, k), Pending(taken, k)) == Pending(tries[..i], k)
      invariant PartsOf(left, taken, tries[..i], q)
    {
      var l, t := StealOne(main, region, q, tries[i]);
      StealTotals(tries, i, left, taken, l, t);
      PartsMore(tries, i, left, taken, l, t, q);
      left := left + [l];
      if !t.Empty? {
        taken := taken + [t];
      }
    }
    assert tries[..|tries|] == tries;
  }

  ghost predicate PartsOf(left: seq<Node<TxLog>>, taken: seq<Node<TxLog>>, tries: seq<Node<TxLog>>, q: Key) {
    forall k :: Pending(left, k) == KeptOf(tries, q, k) && Pending(taken, k) == StolenFrom(tries, q, k)
  }

  lemma PartsMore(
    tries: seq<Node<TxLog>>, i: nat, left: seq<Node<TxLog>>, taken: seq<Node<TxLog>>, l: Node<TxLog>, t: Node<TxLog>, q: Key)
    requires i < |tries| && PartsOf(left, taken, tries[..i], q)
    requires forall k :: At(t, k) == StolenAt(tries[i], q, k) && At(l, k) == KeptAt(tries[i], q, k)
    ensures PartsOf(left + [l], if t.Empty? then taken else taken + [t], tries[..i + 1], q)
  {
    forall k
      ensures Pending(left + [l], k) == KeptOf(tries[..i + 1], q, k)
      ensures Pending(if t.Empty? then taken else taken + [t], k) == StolenFrom(tries[..i + 1], q, k)
    {
      StolenStep(tries, i, q, k);
      PendingAdd(left, l, k);
      PendingAdd(taken, t, k);
    }
  }

  lemma StealTotals(
    tries: seq<Node<TxLog>>, i: nat, left: seq<Node<TxLog>>, taken: seq<Node<TxLog>>, l: Node<TxLog>, t: Node<TxLog>)
    requires i < |tries|
    requires forall k :: Both(Pending(left, k), Pending(taken, k)) == Pending(tries[..i], k)
    requires forall k :: Both(At(l, k), At(t, k)) == At(tries[i], k)
    ensures forall k :: Both(Pending(left + [l], k), Pending(if t.Empty? then taken else taken + [t], k)) ==
                        Pending(tries[..i + 1], k)
  {
    forall k ensures Both(Pending(left + [l], k), Pending(if t.Empty? then taken else taken + [t], k)) ==
                     Pending(tries[..i + 1], k) {
      PendingStep(tries, i, k);
      PendingAdd(left, l, k);
      PendingAdd(taken, t, k);
      FourWays(Pending(left, k), Pending(taken, k), At(l, k), At(t, k));
    }
  }

  lemma FourWays(a: Option<Bags>, b: Option<Bags>, c: Option<Bags>, d: Option<Bags>)
    ensures Both(Both(a, c), Both(b, d)) == Both(Both(a, b), Both(c, d))
  {
    BothLaws(Both(a, c), b, d);
    BothLaws(a, c, b);
    BothLaws(a, b, c);
    BothLaws(b, c, d);
    BothLaws(Both(a, b), c, d);
  }

  lemma SplitTotals(jobs: seq<Job>, j: nat, left: seq<Node<TxLog>>, taken: seq<Node<TxLog>>, q: Key)
    requires j < |jobs|
    requires forall k :: Both(Pending(left, k), Pending(taken, k)) == Pending(jobs[j].tries, k)
    ensures var rest := jobs[..j] + jobs[j + 1..];
            var next := rest + [Job(jobs[j].region, left)] + (if taken != [] then [Job(q, taken)] else []);
            forall k :: Waiting(next, k) == Waiting(jobs, k)
  {
    var rest := jobs[..j] + jobs[j + 1..];
    var mid := rest + [Job(jobs[j].region, left)];
    var next := mid + (if taken != [] then [Job(q, taken)] else []);
    forall k ensures Waiting(next, k) == Waiting(jobs, k) {
      WaitingRemove(jobs, j, k);
      WaitingAdd(rest, Job(jobs[j].region, left), k);
      WaitingAdd(mid, Job(q, taken), k);
      BothLaws(Waiting(rest, k), Pending(left, k), Pending(taken, k));
      BothLaws(Waiting(rest, k), Pending(jobs[j].tries, k), None);
      assert next == if taken != [] then mid + [Job(q, taken)] else mid;
    }
  }

  method MergeAll(main: Node<TxLog>, region: Key, tries: seq<Node<TxLog>>) returns (r: Node<TxLog>)
    requires MainOk(main) && Headed(main, region) && forall b :: b in tries ==> TrieOk(main, b, region)
    ensures MainOk(r) && Grows(main, r)
    ensures forall k :: At(r, k) == Both(At(main, k), Pending(tries, k))
  {
    r := main;
    for i := 0 to |tries|
      invariant MainOk(r) && Grows(main, r)
      invariant forall k :: At(r, k) == Both(At(main, k), Pending(tries[..i], k))
    {
      ghost var h :| Get(main, h).Some? && region <= h;
      assert Get(r, h).Some?;
      TrieStaysOk(main, r, tries[i], region);
      ghost var s := r;
      r := MergeOne(r, region, tries[i]);
      forall k ensures At(r, k) == Both(At(main, k), Pending(tries[..i + 1], k)) {
        PendingStep(tries, i, k);
        BothLaws(At(main, k), Pending(tries[..i], k), At(tries[i], k));
      }
    }
    assert tries[..|tries|] == tries;
  }

  lemma SizeExact(n: Node<TxLog>)
    requires MainOk(n)
    ensures MetaOf(n).size == |Contents(n)|
  {
    assert LeavesOk(n);
    LiveCountExact(n, ACCOUNT_LEN);
    NothingMarked(n, ACCOUNT_LEN, DeletionMark);
    NoneMarked(n);
    forall x | x in Chosen(Leaves(n), DeletionMark) ensures false {
      ChosenItems(Leaves(n), DeletionMark, x);
      LeafPresent(n, ACCOUNT_LEN, x);
    }
    if Chosen(Leaves(n), DeletionMark) != [] {
      assert Chosen(Leaves(n), DeletionMark)[0] in Chosen(Leaves(n), DeletionMark);
    }
    assert LiveValues(n).Keys == Contents(n).Keys;
    assert |LiveValues(n).Keys| == |LiveValues(n)| && |Contents(n).Keys| == |Contents(n)|;
  }

  lemma NoneMarked(n: Node<TxLog>)
    requires LogsOk(n)
    ensures forall k :: k in Contents(n) ==> k in LiveValues(n)
  {
    forall k | k in Contents(n) ensures k in LiveValues(n) {
      assert Get(n, k).Some?;
    }
  }

  // ---- All schedules agree ---------------------------------------------------------------------------------------------------

  ghost predicate NormalAt(x: Option<Entry<TxLog>>, y: Option<Entry<TxLog>>) {
    && (x.Some? <==> y.Some?)
    && (x.Some? ==> x.value.meta == y.value.meta && Normalizes(x.value.value, y.value.value))
  }

  /** `r` is what hashing leaves of `n`: the same trie with each log in a normal form. */
  ghost predicate NormalTrie(r: Node<TxLog>, n: Node<TxLog>) {
    Canon(r, ACCOUNT_LEN) && forall k :: NormalAt(Get(r, k), Get(n, k))
  }

  /** The normalised node keeps its place in the trie. */
  ghost predicate SlotNormal(c: Node<TxLog>, x: Node<TxLog>) {
    && (c.Empty? <==> x.Empty?)
    && (!c.Empty? ==> Canon(c, ACCOUNT_LEN) && PrefixOf(c) == PrefixOf(x))
    && MetaOf(c) == MetaOf(x)
    && forall k :: NormalAt(Get(c, k), Get(x, k))
  }

  /** The pass of `hash<LogNormalizeFn>` over the leaves. */
  method NormalizeTrie(n: Node<TxLog>) returns (r: Node<TxLog>)
    requires n.Empty? || Canon(n, ACCOUNT_LEN)
    ensures SlotNormal(r, n)
    decreases n
  {
    match n
    case Empty => r := n;
    case Leaf(k, e) =>
      var l := NormalizeLog(e.value);
      r := Leaf(k, e.(value := l));
    case Branch(p, xs, m) =>
      var cs := [];
      for i := 0 to 16
        invariant |cs| == i && forall j :: 0 <= j < i ==> SlotNormal(cs[j], xs[j])
      {
        var c := NormalizeTrie(xs[i]);
        cs := cs + [c];
      }
      r := Branch(p, cs, m);
      BranchNormal(n, r, cs);
  }

  lemma {:induction false} SameSums(cs: seq<Node<TxLog>>, xs: seq<Node<TxLog>>)
    requires |cs| == |xs| && forall j :: 0 <= j < |cs| ==> SlotNormal(cs[j], xs[j])
    ensures SumMeta(cs) == SumMeta(xs) && Kids(cs) == Kids(xs)
  {
    if cs != [] {
      SameSums(cs[..|cs| - 1], xs[..|xs| - 1]);
    }
  }

  lemma BranchNormal(n: Node<TxLog>, r: Node<TxLog>, cs: seq<Node<TxLog>>)
    requires n.Branch? && Canon(n, ACCOUNT_LEN) && r == Branch(n.prefix, cs, n.meta)
    requires |cs| == 16 && forall j :: 0 <= j < 16 ==> SlotNormal(cs[j], n.children[j])
    ensures SlotNormal(r, n)
  {
    SameSums(cs, n.children);
    forall i: Nibble ensures UnderSlot(cs[i], n.prefix, i) && (cs[i].Empty? || Canon(cs[i], ACCOUNT_LEN)) {
      assert SlotNormal(cs[i], n.children[i]) && UnderSlot(n.children[i], n.prefix, i);
    }
    forall k ensures NormalAt(Get(r, k), Get(n, k)) {
      BranchGet(n, ACCOUNT_LEN, k);
      BranchGet(r, ACCOUNT_LEN, k);
      if n.prefix <= k && |n.prefix| < |k| {
        assert SlotNormal(cs[k[|n.prefix|]], n.children[k[|n.prefix|]]);
      }
    }
  }

  /** New transactions of one account carry distinct sequence numbers. */
  ghost predicate DistinctSequences(owed: Key -> Option<Bags>) {
    forall k :: owed(k).Some? ==> SequencesDistinct(owed(k).value.created)
  }

  /**
   Two tries that hold what is owed, up to order, become the same trie when their logs are normalised, and have one
   root hash.
   */
  lemma OneNormalTrie(owed: Key -> Option<Bags>, m: Node<TxLog>, n: Node<TxLog>, r: Node<TxLog>, s: Node<TxLog>)
    requires MainOk(m) && MainOk(n) && forall k :: At(m, k) == owed(k) == At(n, k)
    requires DistinctSequences(owed)
    requires NormalTrie(r, m) && NormalTrie(s, n)
    ensures r == s && RootHash(r) == RootHash(s)
  {
    forall k ensures Get(r, k) == Get(s, k) {
      assert At(m, k) == owed(k) == At(n, k);
      assert NormalAt(Get(r, k), Get(m, k)) && NormalAt(Get(s, k), Get(n, k));
      if Get(m, k).Some? {
        var a, b := Get(m, k).value, Get(n, k).value;
        var c, d := Get(r, k).value, Get(s, k).value;
        assert LogOk(k, a) && LogOk(k, b);
        NormalFormUnique(c.value, a.value, d.value, b.value);
      }
    }
    SameContents(r, s);
    CanonUnique(r, s, ACCOUNT_LEN);
  }

  /**
   Two batch merges of the same logs, each driven to its end by a schedule of its own, agree once normalised: one trie,
   one root hash.
   */
  lemma SchedulesAgree(a: BatchMerge, b: BatchMerge, r: Node<TxLog>, s: Node<TxLog>)
    requires a.Valid() && a.jobs == [] && b.Valid() && b.jobs == []
    requires forall k :: a.owed(k) == b.owed(k)
    requires DistinctSequences(a.owed)
    requires NormalTrie(r, a.main) && NormalTrie(s, b.main)
    ensures r == s && RootHash(r) == RootHash(s)
  {
    Finished(a);
    Finished(b);
    OneNormalTrie(a.owed, a.main, b.main, r, s);
  }

  /** A schedule and serial merging, on the same tries, agree once normalised. */
  method HashMerged(batch: BatchMerge, root: Node<TxLog>, tries: seq<Node<TxLog>>) returns (r: Node<TxLog>, s: Node<TxLog>)
    requires batch.Valid() && batch.jobs == []
    requires MainOk(root) && forall b :: b in tries ==> MainOk(b)
    requires forall k :: batch.owed(k) == Both(At(root, k), Pending(tries, k))
    requires DistinctSequences(batch.owed)
    ensures NormalTrie(r, batch.main) && r == s && RootHash(r) == RootHash(s)
  {
    Finished(batch);
    var serial := MergeSerially(root, tries);
    r := NormalizeTrie(batch.main);
    s := NormalizeTrie(serial);
    OneNormalTrie(batch.owed, batch.main, serial, r, s);
  }

  /** Serial merging is the schedule without splits. */
  method MergeSerially(root: Node<TxLog>, tries: seq<Node<TxLog>>) returns (r: Node<TxLog>)
    requires MainOk(root) && forall b :: b in tries ==> MainOk(b)
    ensures MainOk(r) && forall k :: At(r, k) == Both(At(root, k), Pending(tries, k))
  {
    var batch := new BatchMerge(root, tries);
    batch.Execute(0);
    Finished(batch);
    r := batch.main;
  }
}
