/**
 The shared side of an account: its available balances, changed by many threads at once.
 */
module Accounts {

  /** `unordered_map::operator[]` on amounts: absent is zero. */
  function Of(m: map<nat, int>, asset: nat): int {
    if asset in m then m[asset] else 0
  }

  /**
   One round of a compare-exchange loop, as the other threads would have it: what they add to the balance before the
   load, what they add between the load and the exchange, and whether the (weak) exchange fails for no reason.
   */
  datatype Round = Round(before: int, between: int, spurious: bool)

  /** What others add up to the load of round `r`. */
  ghost function Drift(others: seq<Round>, r: nat): int
    requires r <= |others|
  {
    if r == 0 then (if others == [] then 0 else others[0].before)
    else Drift(others, r - 1) + others[r - 1].between + (if r < |others| then others[r].before else 0)
  }

  /** `met` is `start` after others have added `d` to one asset. */
  ghost predicate Drifted(start: map<nat, int>, met: map<nat, int>, asset: nat, d: int) {
    forall a: nat :: Of(met, a) == Of(start, a) + if a == asset then d else 0
  }

  /** The operation meets the balances `met`, which others have made of `start` in some rounds of `others`. */
  ghost predicate Meets(start: map<nat, int>, met: map<nat, int>, asset: nat, others: seq<Round>) {
    exists r: nat :: r <= |others| && Drifted(start, met, asset, Drift(others, r))
  }

  /** `UserAccount`, as far as its available balances go. */
  class UserAccount {
    var available: map<nat, int>

    constructor (start: map<nat, int>)
      ensures available == start
    {
      available := start;
    }

    /**
     `RevertableAsset::conditional_transfer_available`, with other threads at work: whatever they do, the operation
     takes effect at one moment, as "add, unless the result would be negative" on the balance it then meets, and no
     addition of theirs is lost.
     */
    method ConditionalTransferAvailable(asset: nat, amount: int, others: seq<Round>)
      returns (ok: bool, ghost met: map<nat, int>)
      modifies this
      ensures Meets(old(available), met, asset, others)
      ensures others == [] ==> met == old(available)
      ensures ok <==> Of(met, asset) + amount >= 0
      ensures available == if ok then met[asset := Of(met, asset) + amount] else met
    {
      ghost var start := available;
      var r := 0;
      ghost var drift := 0;
      while true
        invariant 0 <= r <= |others|
        invariant Drifted(start, available, asset, drift)
        invariant drift + (if r < |others| then others[r].before else 0) == Drift(others, r)
        invariant others == [] ==> available == start
        decreases |others| - r
      {
        if r < |others| {
          AddOthers(asset, others[r].before);
          drift := drift + others[r].before;
        }
        var current := Of(available, asset);
        var tentative := current + amount;
        if tentative < 0 {
          assert Drifted(start, available, asset, Drift(others, r));
          return false, available;
        }
        if r < |others| {
          AddOthers(asset, others[r].between);
          drift := drift + others[r].between;
        }
        if Of(available, asset) == current && !(r < |others| && others[r].spurious) {
          assert Drifted(start, available, asset, Drift(others, r));
          met := available;
          available := available[asset := tentative];
          return true, met;
        }
        r := r + 1;
      }
    }

    /** Another thread's addition. */
    method AddOthers(asset: nat, d: int)
      modifies this
      ensures available == old(available)[asset := old(Of(available, asset)) + d]
    {
      available := available[asset := Of(available, asset) + d];
    }

    /** `RevertableAsset::conditional_escrow`. */
    method ConditionalEscrow(asset: nat, amount: int, others: seq<Round>) returns (ok: bool, ghost met: map<nat, int>)
      modifies this
      ensures Meets(old(available), met, asset, others)
      ensures others == [] ==> met == old(available)
      ensures ok <==> amount <= 0 || Of(met, asset) >= amount
      ensures available == if ok then met[asset := Of(met, asset) - amount] else met
    {
      if amount > 0 {
        ok, met := ConditionalTransferAvailable(asset, -amount, others);
      } else {
        met := TransferAvailable(asset, -amount, others);
        ok := true;
      }
    }

    /** `RevertableAsset::transfer_available`: unconditional, in one step. */
    method TransferAvailable(asset: nat, amount: int, others: seq<Round>) returns (ghost met: map<nat, int>)
      modifies this
      ensures Meets(old(available), met, asset, others)
      ensures others == [] ==> met == old(available)
      ensures available == met[asset := Of(met, asset) + amount]
    {
      ghost var start := available;
      if others != [] {
        AddOthers(asset, others[0].before);
      }
      assert Drifted(start, available, asset, Drift(others, 0));
      met := available;
      available := available[asset := Of(available, asset) + amount];
    }
  }
}
