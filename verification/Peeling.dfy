/**
 What peeling can decode, told from the keys alone: everything but the largest part of them in which no key has a cell of
 its own.
 */
module Peeling {
  import opened Cells

  /** Of the keys `s`, only the `i`-th has cell `c`. */
  ghost predicate Alone(h: Scheme, s: seq<Signed>, i: nat, c: nat)
    requires h.perRegion > 0
  {
    && i < |s| && Hits(h, s[i].key, c)
    && forall j :: 0 <= j < |s| && j != i ==> !Hits(h, s[j].key, c)
  }

  ghost predicate CanPeel(h: Scheme, s: seq<Signed>, i: nat)
    requires h.perRegion > 0
  {
    exists c: nat :: Alone(h, s, i, c)
  }

  /** Every cell that some key of `s` has, another one has, too. */
  ghost predicate Stuck(h: Scheme, s: seq<Signed>)
    requires h.perRegion > 0
  {
    forall i: nat :: i < |s| ==> !CanPeel(h, s, i)
  }

  /** What is left of `s` once every key with a cell of its own has been taken out, again and again. */
  ghost function Core(h: Scheme, s: seq<Signed>): seq<Signed>
    requires h.perRegion > 0
    decreases |s|
  {
    if Stuck(h, s) then s
    else
      var i: nat :| i < |s| && CanPeel(h, s, i);
      Core(h, Without(s, i))
  }

  lemma WithoutBag<T>(s: seq<T>, i: nat)
    requires i < |s|
    ensures multiset(s) == multiset(Without(s, i)) + multiset{s[i]}
  {
    assert s == s[..i] + [s[i]] + s[i + 1..];
  }

  lemma {:induction false} CoreStuck(h: Scheme, s: seq<Signed>)
    requires h.perRegion > 0
    ensures Stuck(h, Core(h, s)) && multiset(Core(h, s)) <= multiset(s)
    decreases |s|
  {
    if !Stuck(h, s) {
      var i: nat :| i < |s| && CanPeel(h, s, i) && Core(h, s) == Core(h, Without(s, i));
      CoreStuck(h, Without(s, i));
      WithoutBag(s, i);
    }
  }

  /** A key of a stuck part shares each of its cells with another key. */
  lemma StuckShares(h: Scheme, s: seq<Signed>, i: nat, c: nat, t: seq<Signed>)
    requires h.perRegion > 0 && i < |s| && Hits(h, s[i].key, c)
    requires Stuck(h, t) && multiset(t) <= multiset(s) && s[i] in t
    ensures exists l :: 0 <= l < |s| && l != i && Hits(h, s[l].key, c)
  {
    var j: nat :| j < |t| && t[j] == s[i];
    assert !CanPeel(h, t, j);
    assert !Alone(h, t, j, c);
    var k :| 0 <= k < |t| && k != j && Hits(h, t[k].key, c);
    OtherThere(s, i, t, j, k);
  }

  lemma OtherThere<T>(s: seq<T>, i: nat, t: seq<T>, j: nat, k: nat)
    requires i < |s| && j < |t| && k < |t| && j != k && t[j] == s[i] && multiset(t) <= multiset(s)
    ensures exists l :: 0 <= l < |s| && l != i && s[l] == t[k]
  {
    InWithout(t, j, k);
    BagsWithout(s, i, t, j);
    assert t[k] in multiset(Without(t, j));
    assert t[k] in Without(s, i);
    var l := FromWithout(s, i, t[k]);
  }

  lemma BagsWithout<T>(s: seq<T>, i: nat, t: seq<T>, j: nat)
    requires i < |s| && j < |t| && t[j] == s[i] && multiset(t) <= multiset(s)
    ensures multiset(Without(t, j)) <= multiset(Without(s, i))
  {
    var x := multiset{s[i]};
    WithoutBag(t, j);
    WithoutBag(s, i);
    assert multiset(Without(t, j)) == multiset(t) - x && multiset(Without(s, i)) == multiset(s) - x;
  }

  lemma InWithout<T>(t: seq<T>, j: nat, k: nat)
    requires j < |t| && k < |t| && j != k
    ensures t[k] in Without(t, j)
  {
    assert Without(t, j)[if k < j then k else k - 1] == t[k];
  }

  lemma FromWithout<T>(s: seq<T>, i: nat, x: T) returns (l: nat)
    requires i < |s| && x in Without(s, i)
    ensures l < |s| && l != i && s[l] == x
  {
    var v := Without(s, i);
    var m :| 0 <= m < |v| && v[m] == x;
    l := if m < i then m else m + 1;
  }

  /** A key with a cell of its own is in no stuck part. */
  lemma StuckSpares(h: Scheme, s: seq<Signed>, i: nat, c: nat, t: seq<Signed>)
    requires h.perRegion > 0 && Alone(h, s, i, c) && Stuck(h, t) && multiset(t) <= multiset(s)
    ensures multiset(t) <= multiset(Without(s, i))
  {
    WithoutBag(s, i);
    if s[i] in t {
      StuckShares(h, s, i, c, t);
    }
  }

  /** The core is the largest stuck part. */
  lemma {:induction false} CoreLargest(h: Scheme, s: seq<Signed>, t: seq<Signed>)
    requires h.perRegion > 0 && Stuck(h, t) && multiset(t) <= multiset(s)
    ensures multiset(t) <= multiset(Core(h, s))
    decreases |s|
  {
    if !Stuck(h, s) {
      var i: nat :| i < |s| && CanPeel(h, s, i) && Core(h, s) == Core(h, Without(s, i));
      var c: nat :| Alone(h, s, i, c);
      StuckSpares(h, s, i, c, t);
      CoreLargest(h, Without(s, i), t);
    }
  }

  lemma NothingIn<T>(t: seq<T>)
    requires multiset(t) <= multiset([])
    ensures t == []
  {
    assert |t| == |multiset(t)|;
  }

  /** Peeling decodes everything exactly when no part of the keys is stuck. */
  lemma NoCore(h: Scheme, s: seq<Signed>)
    requires h.perRegion > 0
    ensures Core(h, s) == [] <==> forall t :: Stuck(h, t) && multiset(t) <= multiset(s) ==> t == []
  {
    CoreStuck(h, s);
    if Core(h, s) == [] {
      forall t | Stuck(h, t) && multiset(t) <= multiset(s) ensures t == [] {
        CoreLargest(h, s, t);
        NothingIn(t);
      }
    }
  }

  // ---- In terms of the hashes ------------------------------------------------------------------------------------------------

  /** In region `r` the hash of the `i`-th key of `s` leaves a remainder of its own among the keys from position `from` on. */
  ghost predicate OwnRemainder(h: Scheme, s: seq<Signed>, i: nat, from: nat, r: nat)
    requires h.perRegion > 0
  {
    && i < |s| && r < h.regions
    && forall j :: from <= j < |s| && j != i ==> h.hash(s[j].key, r) % h.perRegion != h.hash(s[i].key, r) % h.perRegion
  }

  /** A key has a cell of its own exactly when some region's hash leaves it a remainder of its own. */
  lemma PeelExact(h: Scheme, s: seq<Signed>, i: nat)
    requires SchemeOk(h) && i < |s|
    ensures CanPeel(h, s, i) <==> exists r: nat :: OwnRemainder(h, s, i, 0, r)
  {
    if CanPeel(h, s, i) {
      var c: nat :| Alone(h, s, i, c);
      CellOf(h, s[i].key, c);
      assert OwnRemainder(h, s, i, 0, c / h.perRegion);
    }
    if exists r: nat :: OwnRemainder(h, s, i, 0, r) {
      var r: nat :| OwnRemainder(h, s, i, 0, r);
      var c := CellFor(h, r, h.hash(s[i].key, r) % h.perRegion);
      assert Alone(h, s, i, c);
    }
  }

  /** In this order keys can be peeled: each has, in some region, a remainder that no later one has. */
  ghost predicate PeelOrder(h: Scheme, t: seq<Signed>)
    requires h.perRegion > 0
  {
    forall i: nat :: i < |t| ==> Peelable(h, t, i)
  }

  ghost predicate Peelable(h: Scheme, t: seq<Signed>, i: nat)
    requires h.perRegion > 0
  {
    exists r: nat :: OwnRemainder(h, t, i, i, r)
  }

  /** Everything is decoded exactly when the keys can be ordered so. */
  lemma DecodesAll(h: Scheme, s: seq<Signed>)
    requires SchemeOk(h)
    ensures Core(h, s) == [] <==> exists t :: multiset(t) == multiset(s) && PeelOrder(h, t)
  {
    if Core(h, s) == [] {
      var t := OrderOf(h, s);
    }
    if exists t :: multiset(t) == multiset(s) && PeelOrder(h, t) {
      var t :| multiset(t) == multiset(s) && PeelOrder(h, t);
      CoreStuck(h, s);
      NothingStuck(h, t, Core(h, s));
    }
  }

  lemma {:induction false} OrderOf(h: Scheme, s: seq<Signed>) returns (t: seq<Signed>)
    requires SchemeOk(h) && Core(h, s) == []
    ensures multiset(t) == multiset(s) && PeelOrder(h, t)
    decreases |s|
  {
    if Stuck(h, s) {
      return [];
    }
    var i: nat :| i < |s| && CanPeel(h, s, i) && Core(h, s) == Core(h, Without(s, i));
    var rest := OrderOf(h, Without(s, i));
    t := [s[i]] + rest;
    WithoutBag(s, i);
    PeelExact(h, s, i);
    var r: nat :| OwnRemainder(h, s, i, 0, r);
    OrderMore(h, s, i, r, rest);
  }

  lemma OrderMore(h: Scheme, s: seq<Signed>, i: nat, r: nat, rest: seq<Signed>)
    requires SchemeOk(h) && OwnRemainder(h, s, i, 0, r)
    requires multiset(rest) == multiset(Without(s, i)) && PeelOrder(h, rest)
    ensures PeelOrder(h, [s[i]] + rest)
  {
    var t := [s[i]] + rest;
    forall l: nat | l < |t| ensures Peelable(h, t, l) {
      if l == 0 {
        forall j | 0 < j < |t|
          ensures h.hash(t[j].key, r) % h.perRegion != h.hash(t[0].key, r) % h.perRegion
        {
          assert rest[j - 1] in multiset(rest);
          assert rest[j - 1] in Without(s, i);
          var m := FromWithout(s, i, rest[j - 1]);
        }
        assert OwnRemainder(h, t, 0, 0, r);
      } else {
        assert Peelable(h, rest, l - 1);
        var q: nat :| OwnRemainder(h, rest, l - 1, l - 1, q);
        assert OwnRemainder(h, t, l, l, q);
      }
    }
  }

  lemma {:induction false} NothingStuck(h: Scheme, t: seq<Signed>, u: seq<Signed>)
    requires SchemeOk(h) && PeelOrder(h, t) && Stuck(h, u) && multiset(u) <= multiset(t)
    ensures u == []
    decreases |t|
  {
    if t == [] {
      NothingIn(u);
    } else {
      assert Peelable(h, t, 0);
      PeelExact(h, t, 0);
      var c: nat :| Alone(h, t, 0, c);
      StuckSpares(h, t, 0, c, u);
      assert Without(t, 0) == t[1..];
      forall i: nat | i < |t[1..]| ensures Peelable(h, t[1..], i) {
        assert Peelable(h, t, i + 1);
        var q: nat :| OwnRemainder(h, t, i + 1, i + 1, q);
        assert OwnRemainder(h, t[1..], i, i, q);
      }
      NothingStuck(h, t[1..], u);
    }
  }

  // ---- What cells hold -------------------------------------------------------------------------------------------------------

  lemma {:induction false} NothingThere(h: Scheme, s: seq<Signed>, c: nat)
    requires SchemeOk(h) && AllOk(h, s) && forall j :: 0 <= j < |s| ==> !Hits(h, s[j].key, c)
    ensures Content(h, s, c) == Zero(TotalWords(h))
  {
    if s != [] {
      NothingThere(h, s[..|s| - 1], c);
    }
  }

  /** A cell that one key has alone holds just its share. */
  lemma AloneContent(h: Scheme, s: seq<Signed>, i: nat, c: nat)
    requires SchemeOk(h) && AllOk(h, s) && Alone(h, s, i, c)
    ensures Content(h, s, c) == Share(h, s[i])
  {
    var less, zero, share := Without(s, i), Zero(TotalWords(h)), Share(h, s[i]);
    ContentWithout(h, s, i, c);
    forall j | 0 <= j < |less| ensures !Hits(h, less[j].key, c) {
      assert less[j] == s[if j < i then j else j + 1];
    }
    NothingThere(h, less, c);
    CellLaws(zero, share, share);
    CellLaws(share, zero, zero);
  }

  /** The content of a cell depends on the keys, not on their order. */
  lemma {:induction false} ContentOfBag(h: Scheme, a: seq<Signed>, b: seq<Signed>, c: nat)
    requires SchemeOk(h) && AllOk(h, a) && AllOk(h, b) && multiset(a) == multiset(b)
    ensures Content(h, a, c) == Content(h, b, c)
    decreases |a|
  {
    if a == [] {
      assert |b| == |multiset(b)|;
    } else {
      var i := LastElsewhere(a, b);
      ContentWithout(h, b, i, c);
      ContentOfBag(h, a[..|a| - 1], Without(b, i), c);
    }
  }

  lemma LastElsewhere<T>(a: seq<T>, b: seq<T>) returns (i: nat)
    requires multiset(a) == multiset(b) && a != []
    ensures i < |b| && b[i] == a[|a| - 1] && multiset(a[..|a| - 1]) == multiset(Without(b, i))
  {
    var init, last := a[..|a| - 1], a[|a| - 1];
    assert a == init + [last];
    assert last in multiset(b);
    assert last in b;
    i :| 0 <= i < |b| && b[i] == last;
    WithoutBag(b, i);
    assert multiset(init) == multiset(a) - multiset{last};
    assert multiset(Without(b, i)) == multiset(b) - multiset{last};
  }

  lemma AllOkBag(h: Scheme, s: seq<Signed>, t: seq<Signed>)
    requires AllOk(h, s) && multiset(t) <= multiset(s)
    ensures AllOk(h, t)
  {
    forall i | 0 <= i < |t| ensures SignedOk(h, t[i]) {
      assert t[i] in multiset(t) && t[i] in multiset(s);
      assert t[i] in s;
    }
  }
}
