/**
 Building the price index: one in-order traversal of the offer trie, down to the nodes whose prefix spells out a price.
 */
module PriceTraversal {
  import opened Keys
  import opened KeyValues
  import opened Trie
  import opened Canonical
  import opened TrieOrder
  import opened Offers
  import opened PriceIndex

  /** The price a key or prefix begins with (`FuncWrapper::eval`). */
  function PriceOf(k: Key): int {
    if |k| >= PRICE_LEN then Value(k[..PRICE_LEN]) else 0
  }

  function Times(endow: int, price: int): Acc {
    Acc(endow, endow * price)
  }

  function QuoteOf(x: Item<Offer>): Quote {
    Quote(PriceOf(x.key), Times(x.entry.meta.endow, PriceOf(x.key)))
  }

  ghost function Quotes(s: seq<Item<Offer>>): seq<Quote> {
    seq(|s|, i requires 0 <= i < |s| => QuoteOf(s[i]))
  }

  lemma QuotesConcat(s: seq<Item<Offer>>, t: seq<Item<Offer>>)
    ensures Quotes(s + t) == Quotes(s) + Quotes(t)
  {
  }

  lemma TimesAdd(a: int, b: int, price: int)
    ensures Times(a + b, price) == Add(Times(a, price), Times(b, price))
    ensures Times(0, price) == NoAcc()
  {
  }

  /** All leaves at one price: their sum is computed from the total endowment. */
  lemma {:induction false} SumOnePrice(s: seq<Item<Offer>>, price: int)
    requires forall x :: x in s ==> PriceOf(x.key) == price
    ensures SumAll(Quotes(s)) == Times(Total(s).endow, price)
  {
    TimesAdd(0, 0, price);
    if s != [] {
      var init, last := s[..|s| - 1], s[|s| - 1];
      assert last in s;
      SumOnePrice(init, price);
      var q := Quotes(s);
      assert q[..|q| - 1] == Quotes(init) && q[|q| - 1] == QuoteOf(last);
      TimesAdd(Total(init).endow, last.entry.meta.endow, price);
    }
  }

  /** Every leaf lies below the node's prefix, with a full key. */
  ghost predicate Below(s: seq<Item<Offer>>, p: Key) {
    forall x :: x in s ==> |x.key| == KEY_LEN && p <= x.key
  }

  lemma LeavesBelow(n: Node<Offer>)
    requires Shaped(n, KEY_LEN)
    ensures Below(Leaves(n), PrefixOf(n))
  {
    forall x | x in Leaves(n) ensures |x.key| == KEY_LEN && PrefixOf(n) <= x.key {
      LeafPresent(n, KEY_LEN, x);
      ContentsUnder(n, KEY_LEN, x.key);
    }
  }

  lemma SamePrice(s: seq<Item<Offer>>, p: Key)
    requires Below(s, p) && |p| >= PRICE_LEN
    ensures forall x :: x in s ==> PriceOf(x.key) == PriceOf(p)
  {
    forall x | x in s ensures PriceOf(x.key) == PriceOf(p) {
      assert x.key[..PRICE_LEN] == p[..PRICE_LEN];
    }
  }

  /** A node whose prefix spells out the price is one index entry. */
  lemma NodeEntry(n: Node<Offer>, acc: Acc)
    requires Canon(n, KEY_LEN) && |PrefixOf(n)| >= PRICE_LEN
    ensures var price := PriceOf(PrefixOf(n));
            var next := Add(acc, Times(MetaOf(n).endow, price));
            && next == Add(acc, SumAll(Quotes(Leaves(n))))
            && IndexPiece([IndexEntry(price, next)], Quotes(Leaves(n)), acc)
  {
    var s := Leaves(n);
    var price := PriceOf(PrefixOf(n));
    LeavesBelow(n);
    SamePrice(s, PrefixOf(n));
    SumOnePrice(s, price);
    CachedTotal(n, KEY_LEN);
    SumEverything(Quotes(s), price);
    var k := HasKey(n, KEY_LEN);
    PresentLeaf(n, KEY_LEN, k);
    OneEntry(s, price, acc);
  }

  lemma OneEntry(s: seq<Item<Offer>>, price: int, acc: Acc)
    requires s != [] && forall x :: x in s ==> PriceOf(x.key) == price
    ensures IndexPiece([IndexEntry(price, Add(acc, SumAll(Quotes(s))))], Quotes(s), acc)
  {
    var q := Quotes(s);
    var piece := [IndexEntry(price, Add(acc, SumAll(q)))];
    SumEverything(q, price);
    assert q[0] in q && q[0].price == price;
    assert SumsUp(piece[0], q, acc);
    assert piece[0].price == price;
    assert Lists(piece, price);
  }

  /** Below a branch above price level, children differ in price. */
  lemma SlotsCheaper(n: Node<Offer>, i: Nibble)
    requires n.Branch? && Canon(n, KEY_LEN) && |n.prefix| < PRICE_LEN
    ensures Cheaper(Quotes(LeavesOf(n.children[..i])), Quotes(Leaves(n.children[i])))
  {
    var s, t := LeavesOf(n.children[..i]), Leaves(n.children[i]);
    forall x, y | x in s && y in t ensures PriceOf(x.key) < PriceOf(y.key) {
      SlotLeaf(n, i, x);
      OwnLeaf(n, i, y);
      PricePart(x.key, y.key, |n.prefix|);
    }
    QuotesCheaper(s, t);
  }

  lemma QuotesCheaper(s: seq<Item<Offer>>, t: seq<Item<Offer>>)
    requires forall x, y :: x in s && y in t ==> PriceOf(x.key) < PriceOf(y.key)
    ensures Cheaper(Quotes(s), Quotes(t))
  {
    var p, q := Quotes(s), Quotes(t);
    forall x, y | x in p && y in q ensures x.price < y.price {
      var i :| 0 <= i < |p| && p[i] == x;
      var j :| 0 <= j < |q| && q[j] == y;
      assert s[i] in s && t[j] in t;
    }
  }

  lemma PricePart(a: Key, b: Key, m: nat)
    requires |a| == KEY_LEN && |b| == KEY_LEN && m < PRICE_LEN
    requires a[..m] == b[..m] && a[m] < b[m]
    ensures PriceOf(a) < PriceOf(b)
  {
    var x, y := a[..PRICE_LEN], b[..PRICE_LEN];
    assert x[..m] == a[..m] && y[..m] == b[..m];
    BeforeAt(x, y, m);
    BeforeIsLess(x, y);
  }

  lemma OwnLeaf(n: Node<Offer>, i: Nibble, x: Item<Offer>)
    requires n.Branch? && Canon(n, KEY_LEN) && x in Leaves(n.children[i])
    ensures |x.key| == KEY_LEN && n.prefix <= x.key && x.key[|n.prefix|] == i
  {
    LeafPresent(n.children[i], KEY_LEN, x);
    SlotGet(n, KEY_LEN, i, x.key);
    BranchGet(n, KEY_LEN, x.key);
  }

  lemma SlotLeaf(n: Node<Offer>, i: nat, x: Item<Offer>)
    requires n.Branch? && Canon(n, KEY_LEN) && i <= 16 && x in LeavesOf(n.children[..i])
    ensures |x.key| == KEY_LEN && n.prefix <= x.key && x.key[|n.prefix|] < i
  {
    var j: Nibble := LeafSlot(n.children[..i], x);
    OwnLeaf(n, j, x);
  }

  /** The loop over children: `piece` indexes the leaves of the first `i` of them. */
  ghost predicate Indexed(piece: seq<IndexEntry>, next: Acc, s: seq<Item<Offer>>, acc: Acc) {
    IndexPiece(piece, Quotes(s), acc) && next == Add(acc, SumAll(Quotes(s)))
  }

  lemma IndexedMore(
    p: seq<IndexEntry>, mid: Acc, s: seq<Item<Offer>>, q: seq<IndexEntry>, next: Acc, t: seq<Item<Offer>>, acc: Acc)
    requires Cheaper(Quotes(s), Quotes(t)) && Indexed(p, mid, s, acc) && Indexed(q, next, t, mid)
    ensures Indexed(p + q, next, s + t, acc)
  {
    QuotesConcat(s, t);
    PieceConcat(p, q, Quotes(s), Quotes(t), acc);
    AllConcat(Quotes(s), Quotes(t));
  }

  /** `TrieNode::metadata_traversal` to the length of a price: appends the node's entries and advances the sum. */
  method Traverse(n: Node<Offer>, vec: seq<IndexEntry>, acc: Acc)
    returns (out: seq<IndexEntry>, next: Acc, ghost piece: seq<IndexEntry>)
    requires Canon(n, KEY_LEN)
    ensures out == vec + piece && Indexed(piece, next, Leaves(n), acc)
    decreases n, 0
  {
    if |PrefixOf(n)| >= PRICE_LEN {
      out, next, piece := AppendEntry(n, vec, acc);
      return;
    }
    PrefixTooShort(n);
    out, next, piece := vec, acc, [];
    NoneIndexed(n.children, acc);
    for i: int := 0 to 16
      invariant out == vec + piece && Indexed(piece, next, LeavesOf(n.children[..i]), acc)
    {
      ghost var more;
      out, next, more := TraverseSlot(n, i, out, next, acc, piece);
      assert vec + (piece + more) == vec + piece + more;
      piece := piece + more;
    }
    assert n.children[..16] == n.children;
  }

  /** The entry of a node whose prefix spells out the price. */
  method AppendEntry(n: Node<Offer>, vec: seq<IndexEntry>, acc: Acc)
    returns (out: seq<IndexEntry>, next: Acc, ghost piece: seq<IndexEntry>)
    requires Canon(n, KEY_LEN) && |PrefixOf(n)| >= PRICE_LEN
    ensures out == vec + piece && Indexed(piece, next, Leaves(n), acc)
  {
    NodeEntry(n, acc);
    var price := PriceOf(PrefixOf(n));
    next := Add(acc, Times(MetaOf(n).endow, price));
    piece := [IndexEntry(price, next)];
    out := vec + [IndexEntry(price, next)];
  }

  lemma NoneIndexed(cs: seq<Node<Offer>>, acc: Acc)
    ensures Indexed([], acc, LeavesOf(cs[..0]), acc)
  {
    assert cs[..0] == [] && Quotes([]) == [];
  }

  method TraverseSlot(n: Node<Offer>, i: Nibble, vec: seq<IndexEntry>, mid: Acc, ghost acc: Acc, ghost piece: seq<IndexEntry>)
    returns (out: seq<IndexEntry>, next: Acc, ghost more: seq<IndexEntry>)
    requires n.Branch? && Canon(n, KEY_LEN) && |n.prefix| < PRICE_LEN
    requires Indexed(piece, mid, LeavesOf(n.children[..i]), acc)
    ensures out == vec + more && Indexed(piece + more, next, LeavesOf(n.children[..i + 1]), acc)
    decreases n.children[i], 1
  {
    LeavesTake(n.children, i);
    var c := n.children[i];
    out, next, more := vec, mid, [];
    if c.Empty? {
      assert LeavesOf(n.children[..i]) + Leaves(c) == LeavesOf(n.children[..i]);
      assert piece + [] == piece;
    } else {
      SlotsCheaper(n, i);
      out, next, more := Traverse(c, vec, mid);
      IndexedMore(piece, mid, LeavesOf(n.children[..i]), more, next, Leaves(c), acc);
    }
  }

  lemma PrefixTooShort(n: Node<Offer>)
    requires Canon(n, KEY_LEN) && |PrefixOf(n)| < PRICE_LEN
    ensures n.Branch?
  {
  }

  /** `generate_metadata_index`: a zero entry, then the traversal. */
  method GenerateMetadataIndex(n: Node<Offer>) returns (index: seq<IndexEntry>)
    requires BookOk(n)
    ensures IndexOf(index, Quotes(Leaves(n)))
  {
    index := [IndexEntry(0, NoAcc())];
    PricesPositive(n);
    if n.Empty? {
      return;
    }
    var acc;
    ghost var piece;
    index, acc, piece := Traverse(n, index, NoAcc());
    assert index[1..] == piece;
  }

  lemma PricesPositive(n: Node<Offer>)
    requires BookOk(n)
    ensures forall x :: x in Quotes(Leaves(n)) ==> x.price > 0 && x.acc.endow > 0 && x.acc.timesPrice > 0
    ensures |Quotes(Leaves(n))| == |OfferList(n)|
    ensures forall i :: 0 <= i < |OfferList(n)| ==>
              Quotes(Leaves(n))[i] == Quote(OfferList(n)[i].minPrice, Times(OfferList(n)[i].amount, OfferList(n)[i].minPrice))
  {
    LeavesFiled(n);
    var s, q, b := Leaves(n), Quotes(Leaves(n)), OfferList(n);
    forall i | 0 <= i < |b|
      ensures q[i] == Quote(b[i].minPrice, Times(b[i].amount, b[i].minPrice))
      ensures b[i].minPrice > 0 && b[i].amount > 0 && q[i].acc.timesPrice > 0
    {
      assert b[i] == s[i].entry.value && EntryOk(s[i].key, s[i].entry);
      OfferPrice(b[i]);
      TimesPositive(b[i].amount, b[i].minPrice);
    }
    forall x | x in q ensures x.price > 0 && x.acc.endow > 0 && x.acc.timesPrice > 0 {
      var i :| 0 <= i < |q| && q[i] == x;
      assert q[i].price == b[i].minPrice;
    }
  }

  lemma TimesPositive(a: int, b: int)
    requires a > 0 && b > 0
    ensures Times(a, b).endow > 0 && Times(a, b).timesPrice > 0
  {
  }

  lemma OfferPrice(o: Offer)
    requires OfferOk(o)
    ensures PriceOf(OfferKey(o)) == o.minPrice > 0
  {
    assert OfferKey(o)[..PRICE_LEN] == Digits(o.minPrice, PRICE_LEN);
    ValueOfDigits(o.minPrice, PRICE_LEN);
  }
}
