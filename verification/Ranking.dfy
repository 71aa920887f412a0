/** Sorted observations: the order of the boundary memory and the "n greatest" of a list. */
module Ranking {

  /** An event placed in time, as the boundary memory stores it. */
  datatype Item = Item(instant: int, key: string)

  /** Code point order on keys, the order in which the source compares strings. */
  predicate KeyLeq(a: string, b: string) {
    a == [] || (b != [] && (a[0] < b[0] || (a[0] == b[0] && KeyLeq(a[1..], b[1..]))))
  }

  predicate Leq(a: Item, b: Item) {
    a.instant < b.instant || (a.instant == b.instant && KeyLeq(a.key, b.key))
  }

  /** The order is decided by the first character in which the keys differ, or by length. */
  lemma {:induction false} KeyLeqIff(a: string, b: string)
    ensures KeyLeq(a, b) <==>
            || a <= b
            || exists i :: 0 <= i < |a| && i < |b| && a[..i] == b[..i] && a[i] < b[i]
  {
    if a != [] && b != [] {
      if a[0] == b[0] {
        KeyLeqIff(a[1..], b[1..]);
        assert a == [a[0]] + a[1..] && b == [b[0]] + b[1..];
        if i :| 0 <= i < |a| - 1 && i < |b| - 1 && a[1..][..i] == b[1..][..i] && a[1..][i] < b[1..][i] {
          assert a[..i + 1] == [a[0]] + a[1..][..i] && b[..i + 1] == [b[0]] + b[1..][..i];
        }
        if i :| 0 <= i < |a| && i < |b| && a[..i] == b[..i] && a[i] < b[i] {
          assert a[1..][..i - 1] == a[..i][1..] && b[1..][..i - 1] == b[..i][1..];
          assert a[1..][i - 1] < b[1..][i - 1];
        }
      } else {
        assert a[..0] == b[..0];
        forall i | 0 < i < |a| && i < |b| ensures a[..i] != b[..i] {
          assert a[..i][0] != b[..i][0];
        }
      }
    }
  }

  lemma KeyLeqTotal(a: string, b: string)
    ensures KeyLeq(a, b) || KeyLeq(b, a)
    ensures KeyLeq(a, b) && KeyLeq(b, a) ==> a == b
  {
    if a != [] && b != [] && a[0] == b[0] {
      KeyLeqTotal(a[1..], b[1..]);
      assert a == [a[0]] + a[1..] && b == [b[0]] + b[1..];
    }
  }

  lemma KeyLeqTransitive(a: string, b: string, c: string)
    requires KeyLeq(a, b) && KeyLeq(b, c)
    ensures KeyLeq(a, c)
  {
    if a != [] && a[0] == b[0] == c[0] {
      KeyLeqTransitive(a[1..], b[1..], c[1..]);
    }
  }

  lemma LeqTotal(a: Item, b: Item)
    ensures Leq(a, b) || Leq(b, a)
    ensures Leq(a, b) && Leq(b, a) ==> a == b
  {
    KeyLeqTotal(a.key, b.key);
  }

  lemma LeqTransitive(a: Item, b: Item, c: Item)
    requires Leq(a, b) && Leq(b, c)
    ensures Leq(a, c)
  {
    if a.instant == b.instant == c.instant {
      KeyLeqTransitive(a.key, b.key, c.key);
    }
  }

  function Insert(s: seq<Item>, x: Item): (r: seq<Item>)
    ensures |r| == |s| + 1
  {
    if s == [] || Leq(s[|s| - 1], x) then s + [x]
    else Insert(s[..|s| - 1], x) + [s[|s| - 1]]
  }

  /** Ascending sort. */
  function Sort(s: seq<Item>): (r: seq<Item>)
    ensures |r| == |s|
  {
    if s == [] then [] else Insert(Sort(s[..|s| - 1]), s[|s| - 1])
  }

  lemma InsertSnoc(s: seq<Item>, last: Item, x: Item)
    ensures Insert(s + [last], x) == if Leq(last, x) then s + [last] + [x] else Insert(s, x) + [last]
  {
    assert (s + [last])[..|s|] == s;
  }

  lemma SortSnoc(s: seq<Item>, x: Item)
    ensures Sort(s + [x]) == Insert(Sort(s), x)
  {
    assert (s + [x])[..|s|] == s;
  }

  lemma {:induction false} InsertPermutes(s: seq<Item>, x: Item)
    ensures multiset(Insert(s, x)) == multiset(s) + multiset{x}
  {
    if s != [] {
      var init, last := s[..|s| - 1], s[|s| - 1];
      assert s == init + [last];
      if !Leq(last, x) {
        InsertPermutes(init, x);
      }
    }
  }

  lemma {:induction false} SortPermutes(s: seq<Item>)
    ensures multiset(Sort(s)) == multiset(s)
  {
    if s != [] {
      var init, last := s[..|s| - 1], s[|s| - 1];
      SortPermutes(init);
      InsertPermutes(Sort(init), last);
      assert s == init + [last];
    }
  }

  ghost predicate Ascending(s: seq<Item>) {
    forall i, j :: 0 <= i < j < |s| ==> Leq(s[i], s[j])
  }

  lemma {:induction false} InsertAscending(s: seq<Item>, x: Item)
    requires Ascending(s)
    ensures Ascending(Insert(s, x))
  {
    if s != [] {
      var init, last := s[..|s| - 1], s[|s| - 1];
      LeqTotal(last, x);
      if Leq(last, x) {
        forall i | 0 <= i < |s| ensures Leq(s[i], x) {
          if i < |s| - 1 { LeqTransitive(s[i], last, x); }
        }
      } else {
        InsertAscending(init, x);
        InsertPermutes(init, x);
        var r := Insert(init, x);
        forall i | 0 <= i < |r| ensures Leq(r[i], last) {
          assert r[i] in multiset(r);
          if r[i] != x {
            assert r[i] in multiset(init);
          }
        }
      }
    }
  }

  lemma {:induction false} SortAscending(s: seq<Item>)
    ensures Ascending(Sort(s))
  {
    if s != [] {
      SortAscending(s[..|s| - 1]);
      InsertAscending(Sort(s[..|s| - 1]), s[|s| - 1]);
    }
  }

  lemma {:induction false} SortOfAscending(s: seq<Item>)
    requires Ascending(s)
    ensures Sort(s) == s
  {
    if s != [] {
      var init, last := s[..|s| - 1], s[|s| - 1];
      SortOfAscending(init);
      SortSnoc(init, last);
      assert s == init + [last];
      assert init == [] || Leq(init[|init| - 1], last);
      hide Sort;
    }
  }

  function LastN<T>(s: seq<T>, n: nat): seq<T> {
    if |s| <= n then s else s[|s| - n..]
  }

  lemma LastNSnoc<T>(s: seq<T>, x: T, n: nat)
    requires n > 0
    ensures LastN(s + [x], n) == LastN(s, n - 1) + [x]
  {
  }

  lemma LastNZero<T>(s: seq<T>)
    ensures LastN(s, 0) == []
  {
  }

  lemma LastNTwice<T>(s: seq<T>, m: nat, n: nat)
    requires m <= n
    ensures LastN(LastN(s, n), m) == LastN(s, m)
  {
  }

  lemma InsertAfterForgettingStep(init: seq<Item>, last: Item, x: Item, n: nat)
    requires n > 0
    requires LastN(Insert(init, x), n - 1) == LastN(Insert(LastN(init, n - 1), x), n - 1)
    ensures LastN(Insert(init + [last], x), n) == LastN(Insert(LastN(init + [last], n), x), n)
  {
    hide *;
    var kept := LastN(init, n - 1);
    LastNSnoc(init, last, n);
    InsertSnoc(init, last, x);
    InsertSnoc(kept, last, x);
    if Leq(last, x) {
      LastNSnoc(init + [last], x, n);
      LastNSnoc(kept + [last], x, n);
      LastNTwice(init + [last], n - 1, n);
    } else {
      LastNSnoc(Insert(init, x), last, n);
      LastNSnoc(Insert(kept, x), last, n);
    }
  }

  /** Forgetting all but the n greatest before an insertion does not change the n greatest after it. */
  lemma {:induction false} InsertAfterForgetting(s: seq<Item>, x: Item, n: nat)
    ensures LastN(Insert(s, x), n) == LastN(Insert(LastN(s, n), x), n)
    decreases |s|
  {
    hide Insert;
    if n == 0 {
      LastNZero(Insert(s, x));
      LastNZero(Insert(LastN(s, n), x));
    } else if |s| > n {
      var init, last := s[..|s| - 1], s[|s| - 1];
      InsertAfterForgetting(init, x, n - 1);
      InsertAfterForgettingStep(init, last, x, n);
      assert s == init + [last];
    }
  }

  function AtOrAfter(s: seq<Item>, bound: int): (r: seq<Item>)
    ensures |r| <= |s|
    ensures forall x :: x in r <==> x in s && x.instant >= bound
  {
    if s == [] then []
    else
      var init, last := s[..|s| - 1], s[|s| - 1];
      assert s == init + [last];
      if last.instant >= bound then AtOrAfter(init, bound) + [last] else AtOrAfter(init, bound)
  }

  lemma NoneAtOrAfter(s: seq<Item>, bound: int)
    requires forall i :: 0 <= i < |s| ==> s[i].instant < bound
    ensures AtOrAfter(s, bound) == []
  {
  }

  lemma AtOrAfterSnoc(s: seq<Item>, x: Item, bound: int)
    ensures AtOrAfter(s + [x], bound) == if x.instant >= bound then AtOrAfter(s, bound) + [x] else AtOrAfter(s, bound)
  {
    assert (s + [x])[..|s|] == s;
  }

  lemma {:induction false} InsertAtOrAfter(s: seq<Item>, x: Item, bound: int)
    requires Ascending(s)
    ensures AtOrAfter(Insert(s, x), bound) ==
            if x.instant >= bound then Insert(AtOrAfter(s, bound), x) else AtOrAfter(s, bound)
  {
    if s == [] {
      AtOrAfterSnoc([], x, bound);
      assert [] + [x] == [x];
    } else {
      var init, last := s[..|s| - 1], s[|s| - 1];
      assert s == init + [last];
      AtOrAfterSnoc(init, last, bound);
      if Leq(last, x) {
        AtOrAfterSnoc(s, x, bound);
        if last.instant >= bound {
          InsertSnoc(AtOrAfter(init, bound), last, x);
        } else {
          NoneAtOrAfter(s, bound);
        }
      } else {
        InsertAtOrAfter(init, x, bound);
        AtOrAfterSnoc(Insert(init, x), last, bound);
        if last.instant >= bound {
          InsertSnoc(AtOrAfter(init, bound), last, x);
        }
      }
    }
  }

  lemma SortAtOrAfterStep(init: seq<Item>, last: Item, bound: int)
    requires Sort(AtOrAfter(init, bound)) == AtOrAfter(Sort(init), bound)
    ensures Sort(AtOrAfter(init + [last], bound)) == AtOrAfter(Sort(init + [last]), bound)
  {
    hide *;
    SortSnoc(init, last);
    SortAscending(init);
    AtOrAfterSnoc(init, last, bound);
    InsertAtOrAfter(Sort(init), last, bound);
    SortSnoc(AtOrAfter(init, bound), last);
  }

  /** Selecting what is at or after a bound and sorting commute. */
  lemma {:induction false} SortAtOrAfter(s: seq<Item>, bound: int)
    ensures Sort(AtOrAfter(s, bound)) == AtOrAfter(Sort(s), bound)
  {
    if s != [] {
      var init, last := s[..|s| - 1], s[|s| - 1];
      assert s == init + [last];
      hide *;
      SortAtOrAfter(init, bound);
      SortAtOrAfterStep(init, last, bound);
    }
  }

  lemma LastNAtOrAfterStep(init: seq<Item>, last: Item, n: nat, bound: int)
    requires n > 0 && Ascending(init + [last])
    requires LastN(AtOrAfter(init, bound), n - 1) == AtOrAfter(LastN(init, n - 1), bound)
    ensures LastN(AtOrAfter(init + [last], bound), n) == AtOrAfter(LastN(init + [last], n), bound)
  {
    hide AtOrAfter;
    LastNSnoc(init, last, n);
    AtOrAfterSnoc(init, last, bound);
    AtOrAfterSnoc(LastN(init, n - 1), last, bound);
    if last.instant >= bound {
      LastNSnoc(AtOrAfter(init, bound), last, n);
    } else {
      forall i | 0 <= i < |init| ensures init[i].instant < bound {
        assert Leq((init + [last])[i], (init + [last])[|init|]);
      }
      NoneAtOrAfter(init, bound);
    }
  }

  /** In an ascending list what is at or after a bound lies at the end, so cutting to the n
      greatest and selecting by the bound commute. */
  lemma {:induction false} LastNAtOrAfter(s: seq<Item>, n: nat, bound: int)
    requires Ascending(s)
    ensures LastN(AtOrAfter(s, bound), n) == AtOrAfter(LastN(s, n), bound)
    decreases |s|
  {
    if |s| > n && n > 0 {
      var init, last := s[..|s| - 1], s[|s| - 1];
      hide AtOrAfter;
      LastNAtOrAfter(init, n - 1, bound);
      assert s == init + [last];
      LastNAtOrAfterStep(init, last, n, bound);
    }
  }
}
