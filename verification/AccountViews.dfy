/**
 Buffered views of one account: every view spends from its own buffer first and from the shared balance only what is
 missing; in the end a view is committed or unwound. Any number of views may take their steps in any order.
 */
module AccountViews {
  import opened Accounts

  // ---- One view, as a value --------------------------------------------------------------------------------------------------

  /** What a view is doing; committing and unwinding proceed asset by asset. */
  datatype Phase = Open | Committing | Unwinding

  /**
   A view: its buffer, its side effects, what its successful operations add up to (`net`), what it is doing, and the
   assets already committed or unwound (`done`).
   */
  datatype View = View(buffer: map<nat, int>, effects: map<nat, int>, net: map<nat, int>, phase: Phase, done: set<nat>)

  const NewView := View(map[], map[], map[], Open, {})

  /** The stated sign invariants, buffers never negative and side effects never positive; and the books balance. */
  ghost predicate ViewOk(v: View) {
    && (forall a :: a in v.buffer ==> v.buffer[a] >= 0)
    && (forall a :: a in v.effects ==> v.effects[a] <= 0)
    && (forall a: nat :: Of(v.buffer, a) + Of(v.effects, a) == Of(v.net, a))
    && (v.phase == Open ==> v.done == {})
  }

  /** What a view has added to the shared balance so far. */
  function GivenBy(v: View, a: nat): int {
    match v.phase
    case Open => Of(v.effects, a)
    case Committing => Of(v.effects, a) + if a in v.done then Of(v.buffer, a) else 0
    case Unwinding => if a in v.done then 0 else Of(v.effects, a)
  }

  predicate Finished(v: View) {
    || (v.phase == Committing && v.buffer.Keys <= v.done)
    || (v.phase == Unwinding && v.effects.Keys <= v.done)
  }

  /** A finished view has given its net amount if it committed, and nothing if it was unwound. */
  lemma FinishedGives(v: View, a: nat)
    requires ViewOk(v) && Finished(v)
    ensures GivenBy(v, a) == if v.phase == Committing then Of(v.net, a) else 0
  {
  }

  /** A view and the shared balance after an operation. */
  datatype Outcome = Outcome(ok: bool, view: View, available: map<nat, int>)

  /** Spending `amount` (earning, if negative): buffer first, the shared balance for the rest, nothing on failure. */
  function Spend(v: View, available: map<nat, int>, asset: nat, amount: int): Outcome {
    var left := Of(v.buffer, asset) - amount;
    var net := v.net[asset := Of(v.net, asset) - amount];
    if left >= 0 then
      Outcome(true, v.(buffer := v.buffer[asset := left], net := net), available)
    else if Of(available, asset) + left < 0 then
      Outcome(false, v.(buffer := v.buffer[asset := Of(v.buffer, asset)]), available)
    else
      Outcome(true, v.(buffer := v.buffer[asset := 0], effects := v.effects[asset := Of(v.effects, asset) + left], net := net),
              available[asset := Of(available, asset) + left])
  }

  function CommitOne(v: View, available: map<nat, int>, asset: nat): Outcome {
    Outcome(true, v.(done := v.done + {asset}), available[asset := Of(available, asset) + Of(v.buffer, asset)])
  }

  function UnwindOne(v: View, available: map<nat, int>, asset: nat): Outcome {
    Outcome(true, v.(done := v.done + {asset}), available[asset := Of(available, asset) - Of(v.effects, asset)])
  }

  /** A step keeps the view in order, moves the balance by what the view gives, and makes no balance negative. */
  ghost predicate GoodStep(v: View, available: map<nat, int>, o: Outcome) {
    && ViewOk(o.view)
    && (forall a: nat :: Of(o.available, a) - Of(available, a) == GivenBy(o.view, a) - GivenBy(v, a))
    && (forall a: nat :: Of(available, a) >= 0 ==> Of(o.available, a) >= 0)
  }

  lemma SpendIsGood(v: View, available: map<nat, int>, asset: nat, amount: int)
    requires ViewOk(v) && v.phase == Open
    ensures GoodStep(v, available, Spend(v, available, asset, amount))
  {
    SpendViewOk(v, available, asset, amount);
  }

  /** `lookup_available_balance`: what a view can spend of an asset. */
  function Visible(v: View, available: map<nat, int>, a: nat): int {
    Of(available, a) + Of(v.buffer, a)
  }

  /**
   An operation succeeds exactly when the visible balance covers it, and then the visible balance of its asset drops by
   just the amount; nothing else becomes different, and no other view ever sees more.
   */
  lemma SpendSucceeds(v: View, available: map<nat, int>, asset: nat, amount: int, other: View, a: nat)
    requires ViewOk(v) && Of(available, asset) >= 0
    ensures var o := Spend(v, available, asset, amount);
            && (o.ok <==> Visible(v, available, asset) >= amount)
            && Visible(o.view, o.available, a) == Visible(v, available, a) - (if o.ok && a == asset then amount else 0)
            && Of(o.view.net, a) == Of(v.net, a) - (if o.ok && a == asset then amount else 0)
            && (!o.ok ==> o.available == available && Of(o.view.effects, a) == Of(v.effects, a))
            && Visible(other, o.available, a) <= Visible(other, available, a)
  {
    assert Of(v.buffer, asset) >= 0;
  }

  /**
   The buffer is drawn on first: an operation that it covers leaves the shared balances and the side effects alone; any
   other empties it, and takes from the shared balance just what is missing, or on failure nothing.
   */
  lemma BufferFirst(v: View, available: map<nat, int>, asset: nat, amount: int)
    ensures var o := Spend(v, available, asset, amount);
            if Of(v.buffer, asset) >= amount then
              o.ok && o.available == available && o.view.effects == v.effects
              && Of(o.view.buffer, asset) == Of(v.buffer, asset) - amount
            else if o.ok then
              && Of(o.view.buffer, asset) == 0
              && Of(o.available, asset) == Of(available, asset) - (amount - Of(v.buffer, asset))
              && Of(o.view.effects, asset) == Of(v.effects, asset) - (amount - Of(v.buffer, asset))
            else
              o.available == available && o.view.effects == v.effects && Of(o.view.buffer, asset) == Of(v.buffer, asset)
    ensures forall a: nat :: a != asset ==>
              && Of(Spend(v, available, asset, amount).view.buffer, a) == Of(v.buffer, a)
              && Of(Spend(v, available, asset, amount).available, a) == Of(available, a)
              && Of(Spend(v, available, asset, amount).view.effects, a) == Of(v.effects, a)
  {
  }

  lemma SpendViewOk(v: View, available: map<nat, int>, asset: nat, amount: int)
    requires ViewOk(v) && v.phase == Open
    ensures ViewOk(Spend(v, available, asset, amount).view)
  {
    var o := Spend(v, available, asset, amount);
    forall a: nat ensures Of(o.view.buffer, a) + Of(o.view.effects, a) == Of(o.view.net, a) {
      assert Of(v.buffer, a) + Of(v.effects, a) == Of(v.net, a);
    }
  }

  lemma SetTwice(m: map<nat, int>, asset: nat, x: int, y: int)
    ensures m[asset := x][asset := y] == m[asset := y]
  {
  }

  lemma CommitIsGood(v: View, available: map<nat, int>, asset: nat)
    requires ViewOk(v) && v.phase == Committing && asset !in v.done
    ensures GoodStep(v, available, CommitOne(v, available, asset))
  {
  }

  lemma UnwindIsGood(v: View, available: map<nat, int>, asset: nat)
    requires ViewOk(v) && v.phase == Unwinding && asset !in v.done
    ensures GoodStep(v, available, UnwindOne(v, available, asset))
  {
  }

  // ---- The class ------------------------------------------------------------------------------------------------------------------

  class UserAccountView {
    const main: UserAccount
    var buffer: map<nat, int>
    var effects: map<nat, int>
    ghost var net: map<nat, int>
    ghost var phase: Phase
    ghost var done: set<nat>

    ghost function State(): View
      reads this
    {
      View(buffer, effects, net, phase, done)
    }

    constructor (account: UserAccount)
      ensures State() == NewView && main == account
    {
      main, buffer, effects, net, phase, done := account, map[], map[], map[], Open, {};
    }

    /**
     `UserAccountView::conditional_escrow`: a negative amount frees escrowed funds into the buffer. Other threads may
     change the shared balance meanwhile; the operation takes effect on the balances it meets.
     */
    method ConditionalEscrow(asset: nat, amount: int, others: seq<Round>) returns (ok: bool, ghost met: map<nat, int>)
      requires ViewOk(State()) && phase == Open
      modifies this`buffer, this`effects, this`net, main
      ensures met == old(main.available) || Meets(old(main.available), met, asset, others)
      ensures Outcome(ok, State(), main.available) == Spend(old(State()), met, asset, amount)
      ensures old(Of(buffer, asset)) >= amount ==> ok && main.available == old(main.available) && effects == old(effects)
      ensures ok && old(Of(buffer, asset)) < amount ==>
                Of(buffer, asset) == 0 && Of(main.available, asset) == Of(met, asset) - (amount - old(Of(buffer, asset)))
    {
      met := main.available;
      if amount < 0 {
        buffer := buffer[asset := Of(buffer, asset) - amount];
        net := net[asset := Of(net, asset) - amount];
        return true, met;
      }
      var current := Of(buffer, asset);
      buffer := buffer[asset := current];
      var left := current - amount;
      if left < 0 {
        var enough;
        enough, met := main.ConditionalEscrow(asset, -left, others);
        if !enough {
          return false, met;
        }
        effects := effects[asset := Of(effects, asset) + left];
        left := 0;
      }
      SetTwice(old(buffer), asset, current, left);
      buffer := buffer[asset := left];
      net := net[asset := Of(net, asset) - amount];
      return true, met;
    }

    /** `UserAccountView::transfer_available`. */
    method TransferAvailable(asset: nat, amount: int, others: seq<Round>) returns (ok: bool, ghost met: map<nat, int>)
      requires ViewOk(State()) && phase == Open
      modifies this`buffer, this`effects, this`net, main
      ensures met == old(main.available) || Meets(old(main.available), met, asset, others)
      ensures Outcome(ok, State(), main.available) == Spend(old(State()), met, asset, -amount)
      ensures old(Of(buffer, asset)) >= -amount ==> ok && main.available == old(main.available) && effects == old(effects)
      ensures ok && old(Of(buffer, asset)) < -amount ==>
                Of(buffer, asset) == 0 && Of(main.available, asset) == Of(met, asset) - (-amount - old(Of(buffer, asset)))
    {
      met := main.available;
      var current := Of(buffer, asset);
      buffer := buffer[asset := current];
      var left := current + amount;
      if left < 0 {
        var enough;
        enough, met := main.ConditionalTransferAvailable(asset, left, others);
        if !enough {
          return false, met;
        }
        effects := effects[asset := Of(effects, asset) + left];
        left := 0;
      }
      SetTwice(old(buffer), asset, current, left);
      buffer := buffer[asset := left];
      net := net[asset := Of(net, asset) + amount];
      return true, met;
    }

    /** One round of the loop of `commit`: the buffered amount of one asset goes to the account. */
    method CommitAsset(asset: nat, others: seq<Round>) returns (ghost met: map<nat, int>)
      requires phase == Committing && asset in buffer && asset !in done
      modifies this`done, main
      ensures Meets(old(main.available), met, asset, others)
      ensures Outcome(true, State(), main.available) == CommitOne(old(State()), met, asset)
    {
      done := done + {asset};
      met := main.TransferAvailable(asset, buffer[asset], others);
    }

    /** One round of the loop of `unwind`: what was taken of one asset goes back to the account. */
    method UnwindAsset(asset: nat, others: seq<Round>) returns (ghost met: map<nat, int>)
      requires phase == Unwinding && asset in effects && asset !in done
      modifies this`done, main
      ensures Meets(old(main.available), met, asset, others)
      ensures Outcome(true, State(), main.available) == UnwindOne(old(State()), met, asset)
    {
      done := done + {asset};
      met := main.TransferAvailable(asset, -effects[asset], others);
    }
  }

  // ---- Any number of views, in any order -----------------------------------------------------------------------------------

  /** One account, and the views on it. */
  datatype World = World(available: map<nat, int>, views: seq<View>)

  /** What may happen next; `i` is the view that takes the step. */
  datatype Action =
    | OpenView
    | SpendStep(i: nat, asset: nat, amount: int)
    | Close(i: nat, committing: bool)
    | CommitStep(i: nat, asset: nat)
    | UnwindStep(i: nat, asset: nat)

  predicate Enabled(w: World, act: Action) {
    match act
    case OpenView => true
    case SpendStep(i, _, _) => i < |w.views| && w.views[i].phase == Open
    case Close(i, _) => i < |w.views| && w.views[i].phase == Open
    case CommitStep(i, asset) =>
      i < |w.views| && w.views[i].phase == Committing && asset in w.views[i].buffer && asset !in w.views[i].done
    case UnwindStep(i, asset) =>
      i < |w.views| && w.views[i].phase == Unwinding && asset in w.views[i].effects && asset !in w.views[i].done
  }

  function Put(w: World, i: nat, o: Outcome): World
    requires i < |w.views|
  {
    World(o.available, w.views[i := o.view])
  }

  function Take(w: World, act: Action): World
    requires Enabled(w, act)
  {
    match act
    case OpenView => w.(views := w.views + [NewView])
    case SpendStep(i, asset, amount) => Put(w, i, Spend(w.views[i], w.available, asset, amount))
    case Close(i, committing) => Put(w, i, Outcome(true, Closed(w.views[i], committing), w.available))
    case CommitStep(i, asset) => Put(w, i, CommitOne(w.views[i], w.available, asset))
    case UnwindStep(i, asset) => Put(w, i, UnwindOne(w.views[i], w.available, asset))
  }

  /** `commit` or `unwind` is entered; afterwards the view is used for nothing else. */
  function Closed(v: View, committing: bool): View {
    v.(phase := if committing then Committing else Unwinding)
  }

  function Sum(s: seq<int>): int {
    if s == [] then 0 else Sum(s[..|s| - 1]) + s[|s| - 1]
  }

  lemma {:induction false} SumUpdate(s: seq<int>, i: nat, x: int)
    requires i < |s|
    ensures Sum(s[i := x]) == Sum(s) + x - s[i]
  {
    var init, t := s[..|s| - 1], s[i := x];
    if i == |s| - 1 {
      assert t[..|t| - 1] == init;
    } else {
      SumUpdate(init, i, x);
      assert t[..|t| - 1] == init[i := x];
    }
  }

  /** What each view has given of one asset. */
  function Gifts(views: seq<View>, a: nat): seq<int> {
    seq(|views|, i requires 0 <= i < |views| => GivenBy(views[i], a))
  }

  /** The shared balance is never negative, and differs from the start by what the views have given so far. */
  ghost predicate Balanced(w: World, start: map<nat, int>) {
    && (forall i :: 0 <= i < |w.views| ==> ViewOk(w.views[i]))
    && (forall a: nat :: Of(w.available, a) >= 0)
    && (forall a: nat :: Of(w.available, a) == Of(start, a) + Sum(Gifts(w.views, a)))
  }

  lemma PutKeeps(w: World, start: map<nat, int>, i: nat, o: Outcome)
    requires i < |w.views| && Balanced(w, start) && GoodStep(w.views[i], w.available, o)
    ensures Balanced(Put(w, i, o), start)
  {
    forall a: nat ensures Of(o.available, a) == Of(start, a) + Sum(Gifts(w.views[i := o.view], a)) {
      SumUpdate(Gifts(w.views, a), i, GivenBy(o.view, a));
      assert Gifts(w.views[i := o.view], a) == Gifts(w.views, a)[i := GivenBy(o.view, a)];
    }
  }

  lemma OpenKeeps(w: World, start: map<nat, int>)
    requires Balanced(w, start)
    ensures Balanced(w.(views := w.views + [NewView]), start)
  {
    forall a: nat ensures Sum(Gifts(w.views + [NewView], a)) == Sum(Gifts(w.views, a)) {
      NewViewGives(w.views, NewView, a);
    }
  }

  lemma NewViewGives(views: seq<View>, v: View, a: nat)
    requires GivenBy(v, a) == 0
    ensures Sum(Gifts(views + [v], a)) == Sum(Gifts(views, a))
  {
    var g := Gifts(views + [v], a);
    assert g[..|g| - 1] == Gifts(views, a);
  }

  /** Every step of every view keeps the account balanced. */
  lemma StepKeeps(w: World, start: map<nat, int>, act: Action)
    requires Balanced(w, start) && Enabled(w, act)
    ensures Balanced(Take(w, act), start)
  {
    match act
    case OpenView =>
      OpenKeeps(w, start);
    case SpendStep(i, asset, amount) =>
      SpendIsGood(w.views[i], w.available, asset, amount);
      PutKeeps(w, start, i, Spend(w.views[i], w.available, asset, amount));
    case Close(i, committing) =>
      PutKeeps(w, start, i, Outcome(true, Closed(w.views[i], committing), w.available));
    case CommitStep(i, asset) =>
      CommitIsGood(w.views[i], w.available, asset);
      PutKeeps(w, start, i, CommitOne(w.views[i], w.available, asset));
    case UnwindStep(i, asset) =>
      UnwindIsGood(w.views[i], w.available, asset);
      PutKeeps(w, start, i, UnwindOne(w.views[i], w.available, asset));
  }

  /** An interleaving: the worlds it passes through. */
  ghost predicate Interleaving(ws: seq<World>, acts: seq<Action>) {
    && |ws| == |acts| + 1
    && forall k :: 0 <= k < |acts| ==> Enabled(ws[k], acts[k]) && ws[k + 1] == Take(ws[k], acts[k])
  }

  /** What the committed views add up to. */
  function CommittedNet(views: seq<View>, a: nat): int {
    if views == [] then 0
    else
      var last := views[|views| - 1];
      CommittedNet(views[..|views| - 1], a) + if last.phase == Committing then Of(last.net, a) else 0
  }

  lemma {:induction false} FinishedSum(views: seq<View>, a: nat)
    requires forall i :: 0 <= i < |views| ==> ViewOk(views[i]) && Finished(views[i])
    ensures Sum(Gifts(views, a)) == CommittedNet(views, a)
  {
    if views != [] {
      FinishedSum(views[..|views| - 1], a);
      FinishedGives(views[|views| - 1], a);
      assert Gifts(views, a)[..|views| - 1] == Gifts(views[..|views| - 1], a);
    }
  }

  /**
   Over any interleaving of any number of views, all balances, buffers and side effects keep their signs; and once every
   view has committed or unwound, the balance is the start plus the net amounts of the committed views.
   */
  lemma InterleavingsBalance(ws: seq<World>, acts: seq<Action>, start: map<nat, int>)
    requires Interleaving(ws, acts) && ws[0] == World(start, []) && forall a: nat :: Of(start, a) >= 0
    ensures forall k :: 0 <= k < |ws| ==> Balanced(ws[k], start)
    ensures var w := ws[|acts|];
            (forall i :: 0 <= i < |w.views| ==> Finished(w.views[i])) ==>
              forall a: nat :: Of(w.available, a) == Of(start, a) + CommittedNet(w.views, a) >= 0
  {
    for k := 0 to |acts|
      invariant forall h :: 0 <= h <= k ==> Balanced(ws[h], start)
    {
      StepKeeps(ws[k], start, acts[k]);
    }
    var w := ws[|acts|];
    if forall i :: 0 <= i < |w.views| ==> Finished(w.views[i]) {
      forall a: nat ensures Of(w.available, a) == Of(start, a) + CommittedNet(w.views, a) {
        FinishedSum(w.views, a);
      }
    }
  }
}
