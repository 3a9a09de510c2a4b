/**
 The price index: cumulative endowments by price, and the binary search that reads them.
 */
module PriceIndex {
  /** `EndowAccumulator`. */
  datatype Acc = Acc(endow: int, timesPrice: int)

  function NoAcc(): Acc {
    Acc(0, 0)
  }

  function Add(a: Acc, b: Acc): Acc {
    Acc(a.endow + b.endow, a.timesPrice + b.timesPrice)
  }

  datatype IndexEntry = IndexEntry(price: int, acc: Acc)

  /** An offer as the index sees it: its price, its endowment, and its endowment times its price. */
  datatype Quote = Quote(price: int, acc: Acc)

  /** What the offers priced at most `p` add up to. */
  ghost function SumLeq(s: seq<Quote>, p: int): Acc {
    if s == [] then NoAcc()
    else Add(SumLeq(s[..|s| - 1], p), Within(s[|s| - 1], p))
  }

  function Within(x: Quote, p: int): Acc {
    if x.price <= p then x.acc else NoAcc()
  }

  ghost function SumAll(s: seq<Quote>): Acc {
    if s == [] then NoAcc() else Add(SumAll(s[..|s| - 1]), s[|s| - 1].acc)
  }

  lemma {:induction false} SumConcat(s: seq<Quote>, t: seq<Quote>, p: int)
    ensures SumLeq(s + t, p) == Add(SumLeq(s, p), SumLeq(t, p))
    decreases |t|
  {
    var u := s + t;
    if t == [] {
      assert u == s;
    } else {
      var init, last := t[..|t| - 1], t[|t| - 1];
      SumConcat(s, init, p);
      assert u[..|u| - 1] == s + init && u[|u| - 1] == last;
      assert SumLeq(u, p) == Add(SumLeq(s + init, p), Within(last, p));
    }
  }

  lemma {:induction false} AllConcat(s: seq<Quote>, t: seq<Quote>)
    ensures SumAll(s + t) == Add(SumAll(s), SumAll(t))
    decreases |t|
  {
    var u := s + t;
    if t == [] {
      assert u == s;
    } else {
      var init, last := t[..|t| - 1], t[|t| - 1];
      AllConcat(s, init);
      assert u[..|u| - 1] == s + init && u[|u| - 1] == last;
      assert SumAll(u) == Add(SumAll(s + init), last.acc);
    }
  }

  /** The sum depends only on which prices are within the bound. */
  lemma {:induction false} SumSame(s: seq<Quote>, p: int, q: int)
    requires forall x :: x in s ==> (x.price <= p <==> x.price <= q)
    ensures SumLeq(s, p) == SumLeq(s, q)
  {
    if s != [] {
      assert s[|s| - 1] in s;
      SumSame(s[..|s| - 1], p, q);
    }
  }

  lemma {:induction false} SumNothing(s: seq<Quote>, p: int)
    requires forall x :: x in s ==> x.price > p
    ensures SumLeq(s, p) == NoAcc()
  {
    if s != [] {
      assert s[|s| - 1] in s;
      SumNothing(s[..|s| - 1], p);
    }
  }

  lemma {:induction false} SumEverything(s: seq<Quote>, p: int)
    requires forall x :: x in s ==> x.price <= p
    ensures SumLeq(s, p) == SumAll(s)
  {
    if s != [] {
      assert s[|s| - 1] in s;
      SumEverything(s[..|s| - 1], p);
    }
  }

  ghost predicate NonNegative(s: seq<Quote>) {
    forall x :: x in s ==> x.acc.endow >= 0 && x.acc.timesPrice >= 0
  }

  /** A higher bound adds up to more. */
  lemma {:induction false} SumMonotone(s: seq<Quote>, p: int, q: int)
    requires NonNegative(s) && p <= q
    ensures SumLeq(s, p).endow <= SumLeq(s, q).endow && SumLeq(s, p).timesPrice <= SumLeq(s, q).timesPrice
    ensures SumLeq(s, p).endow >= 0 && SumLeq(s, p).timesPrice >= 0
  {
    if s != [] {
      assert s[|s| - 1] in s;
      SumMonotone(s[..|s| - 1], p, q);
    }
  }

  // ---- Index pieces --------------------------------------------------------------------------------------------------------

  ghost predicate Quoted(s: seq<Quote>, price: int) {
    exists x :: x in s && x.price == price
  }

  ghost predicate Lists(piece: seq<IndexEntry>, price: int) {
    exists i :: 0 <= i < |piece| && piece[i].price == price
  }

  ghost predicate Increasing(piece: seq<IndexEntry>) {
    forall i, j :: 0 <= i < j < |piece| ==> piece[i].price < piece[j].price
  }

  ghost predicate SumsUp(e: IndexEntry, s: seq<Quote>, acc: Acc) {
    Quoted(s, e.price) && e.acc == Add(acc, SumLeq(s, e.price))
  }

  /** `piece` lists the prices of `s`, in order, with the sums up to each on top of `acc`. */
  ghost predicate IndexPiece(piece: seq<IndexEntry>, s: seq<Quote>, acc: Acc) {
    && Increasing(piece)
    && (forall i :: 0 <= i < |piece| ==> SumsUp(piece[i], s, acc))
    && (forall x {:trigger Lists(piece, x.price)} :: x in s ==> Lists(piece, x.price))
  }

  /** Every price of `s` is below every price of `t`. */
  ghost predicate Cheaper(s: seq<Quote>, t: seq<Quote>) {
    forall x, y :: x in s && y in t ==> x.price < y.price
  }

  lemma FrontSum(s: seq<Quote>, t: seq<Quote>, e: IndexEntry, acc: Acc)
    requires Cheaper(s, t) && SumsUp(e, s, acc)
    ensures SumsUp(e, s + t, acc)
  {
    SumConcat(s, t, e.price);
    SumNothing(t, e.price);
    var x :| x in s && x.price == e.price;
    assert x in s + t;
  }

  lemma BackSum(s: seq<Quote>, t: seq<Quote>, e: IndexEntry, acc: Acc)
    requires Cheaper(s, t) && SumsUp(e, t, Add(acc, SumAll(s)))
    ensures SumsUp(e, s + t, acc)
  {
    SumConcat(s, t, e.price);
    SumEverything(s, e.price);
    var x :| x in t && x.price == e.price;
    assert x in s + t;
  }

  lemma PieceConcat(p: seq<IndexEntry>, q: seq<IndexEntry>, s: seq<Quote>, t: seq<Quote>, acc: Acc)
    requires Cheaper(s, t)
    requires IndexPiece(p, s, acc) && IndexPiece(q, t, Add(acc, SumAll(s)))
    ensures IndexPiece(p + q, s + t, acc)
  {
    var r := p + q;
    forall i | 0 <= i < |r| ensures SumsUp(r[i], s + t, acc) {
      if i < |p| {
        FrontSum(s, t, p[i], acc);
      } else {
        BackSum(s, t, q[i - |p|], acc);
      }
    }
    PiecesIncrease(p, q, s, t, acc);
    forall x | x in s + t ensures Lists(r, x.price) {
      if x in s {
        assert Lists(p, x.price);
        var i :| 0 <= i < |p| && p[i].price == x.price;
        assert r[i].price == x.price;
      } else {
        assert Lists(q, x.price);
        var i :| 0 <= i < |q| && q[i].price == x.price;
        assert r[|p| + i].price == x.price;
      }
    }
  }

  lemma PiecesIncrease(p: seq<IndexEntry>, q: seq<IndexEntry>, s: seq<Quote>, t: seq<Quote>, acc: Acc)
    requires Cheaper(s, t)
    requires IndexPiece(p, s, acc) && IndexPiece(q, t, Add(acc, SumAll(s)))
    ensures Increasing(p + q)
  {
    forall i, j | 0 <= i < |p| && 0 <= j < |q| ensures p[i].price < q[j].price {
      assert SumsUp(p[i], s, acc) && SumsUp(q[j], t, Add(acc, SumAll(s)));
    }
  }

  // ---- get_metadata --------------------------------------------------------------------------------------------------------

  /** The index of a book: a zero entry, then the prices of the book. */
  ghost predicate IndexOf(index: seq<IndexEntry>, s: seq<Quote>) {
    && index != [] && index[0] == IndexEntry(0, NoAcc())
    && IndexPiece(index[1..], s, NoAcc())
    && forall x :: x in s ==> x.price > 0
  }

  /** What `get_metadata` answers for price `p`: the offers up to `p`, except at the highest listed price. */
  ghost function Answer(index: seq<IndexEntry>, s: seq<Quote>, p: int): Acc
    requires index != []
  {
    if |index| > 1 && p == index[|index| - 1].price then SumLeq(s, p - 1) else SumLeq(s, p)
  }

  /** `MerkleWorkUnit::get_metadata`: a binary search. */
  method GetMetadata(index: seq<IndexEntry>, p: int, ghost s: seq<Quote>) returns (acc: Acc)
    requires IndexOf(index, s)
    ensures acc == Answer(index, s, p)
  {
    var start, end := 1, |index| - 1;
    if end <= 0 {
      NoPrices(index, s, p);
      return NoAcc();
    }
    if p > index[end].price {
      AboveAll(index, s, p);
      return index[end].acc;
    }
    var mp := (end + start) / 2;
    IndexIncreases(index, s);
    while true
      invariant 1 <= start <= end <= |index| - 1
      invariant mp == (end + start) / 2
      invariant forall i :: 1 <= i < start ==> index[i].price <= p
      invariant p < index[end].price || (end == |index| - 1 && p == index[end].price)
      decreases end - start
    {
      if end == start {
        EntryBefore(index, s, end, p);
        return index[end - 1].acc;
      }
      if p >= index[mp].price {
        start := mp + 1;
      } else {
        end := mp;
      }
      mp := (end + start) / 2;
    }
  }

  lemma IndexIncreases(index: seq<IndexEntry>, s: seq<Quote>)
    requires IndexOf(index, s)
    ensures Increasing(index)
    ensures forall i :: 0 <= i < |index| ==> index[i].acc == SumLeq(s, index[i].price)
  {
    var rest := index[1..];
    SumNothing(s, 0);
    forall i | 1 <= i < |index| ensures index[i].price > 0 && index[i].acc == SumLeq(s, index[i].price) {
      assert rest[i - 1] == index[i];
      assert SumsUp(rest[i - 1], s, NoAcc());
    }
    forall i, j | 0 <= i < j < |index| ensures index[i].price < index[j].price {
      if i > 0 {
        assert rest[i - 1].price < rest[j - 1].price;
      }
    }
  }

  lemma ListedPrice(index: seq<IndexEntry>, s: seq<Quote>, x: Quote) returns (i: nat)
    requires IndexOf(index, s) && x in s
    ensures 1 <= i < |index| && index[i].price == x.price
  {
    var rest := index[1..];
    assert Lists(rest, x.price);
    var j :| 0 <= j < |rest| && rest[j].price == x.price;
    i := j + 1;
  }

  lemma NoPrices(index: seq<IndexEntry>, s: seq<Quote>, p: int)
    requires IndexOf(index, s) && |index| == 1
    ensures SumLeq(s, p) == NoAcc()
  {
    if s != [] {
      var i := ListedPrice(index, s, s[0]);
    }
  }

  lemma AboveAll(index: seq<IndexEntry>, s: seq<Quote>, p: int)
    requires IndexOf(index, s) && |index| > 1 && p > index[|index| - 1].price
    ensures index[|index| - 1].acc == SumLeq(s, p)
  {
    var q := index[|index| - 1].price;
    IndexIncreases(index, s);
    forall x | x in s ensures x.price <= q {
      var i := ListedPrice(index, s, x);
    }
    SumSame(s, q, p);
  }

  /** Where the search ends: `p` lies from the entry before `end` to before `end`, or is the last price. */
  lemma EntryBefore(index: seq<IndexEntry>, s: seq<Quote>, end: nat, p: int)
    requires IndexOf(index, s) && 1 <= end <= |index| - 1
    requires forall i :: 1 <= i < end ==> index[i].price <= p
    requires p < index[end].price || (end == |index| - 1 && p == index[end].price)
    ensures index[end - 1].acc == Answer(index, s, p)
  {
    var q := index[end - 1].price;
    var bound := if p == index[|index| - 1].price then p - 1 else p;
    IndexIncreases(index, s);
    forall x | x in s ensures x.price <= q <==> x.price <= bound {
      var i := ListedPrice(index, s, x);
    }
    SumSame(s, q, bound);
  }

  /**
   The answer is the sum over the offers priced at most `p` exactly when `p` is not the highest listed price; there it
   leaves out the offers at that price.
   */
  lemma AnswerExact(index: seq<IndexEntry>, s: seq<Quote>, p: int)
    requires IndexOf(index, s) && forall x :: x in s ==> x.acc.endow > 0 && x.acc.timesPrice >= 0
    ensures Answer(index, s, p) == SumLeq(s, p) <==> |index| == 1 || p != index[|index| - 1].price
  {
    if |index| > 1 && p == index[|index| - 1].price {
      var rest := index[1..];
      assert SumsUp(rest[|rest| - 1], s, NoAcc());
      var x :| x in s && x.price == p;
      SumGrows(s, p, x);
    }
  }

  lemma {:induction false} SumGrows(s: seq<Quote>, p: int, x: Quote)
    requires x in s && x.price == p && forall y :: y in s ==> y.acc.endow > 0 && y.acc.timesPrice >= 0
    ensures SumLeq(s, p - 1).endow < SumLeq(s, p).endow
  {
    var init, last := s[..|s| - 1], s[|s| - 1];
    assert forall y :: y in init ==> y in s;
    if x in init {
      SumGrows(init, p, x);
    } else {
      assert last == x;
      SumMonotone(init, p - 1, p);
    }
  }

  /** A higher price is never answered with less: supply bounds are ordered. */
  lemma AnswerMonotone(index: seq<IndexEntry>, s: seq<Quote>, p: int, q: int)
    requires IndexOf(index, s) && NonNegative(s) && p <= q
    ensures Answer(index, s, p).endow <= Answer(index, s, q).endow
    ensures Answer(index, s, p).timesPrice <= Answer(index, s, q).timesPrice
  {
    var top := index[|index| - 1].price;
    var a := if |index| > 1 && p == top then p - 1 else p;
    var b := if |index| > 1 && q == top then q - 1 else q;
    if a <= b {
      SumMonotone(s, a, b);
    }
  }
}
