/** The Redis list commands the collectors use, on a list with its head first. */
module RedisLists {

  /** LPUSH of several values: one after the other, so the last one ends up at the head. */
  function Pushed<T>(list: seq<T>, batch: seq<T>): seq<T>
    decreases |batch|
  {
    if batch == [] then list else Pushed([batch[0]] + list, batch[1..])
  }

  /** LRANGE, and what LTRIM keeps: both ends inclusive, a negative index counts from the tail. */
  function Range<T>(list: seq<T>, start: int, stop: int): seq<T> {
    var n := |list|;
    var from := if start >= 0 then start else if start + n >= 0 then start + n else 0;
    var to := if stop < 0 then stop + n else if stop < n then stop else n - 1;
    if from > to || from >= n then [] else list[from..to + 1]
  }

  /** A negative index counts from the tail, and stops short at either end. */
  lemma RangeFromTail<T>(list: seq<T>, k: int)
    requires k >= 1
    ensures Range(list, -k, -1) == if k <= |list| then list[|list| - k..] else list
    ensures Range(list, 0, -k) == if k <= |list| then list[..|list| - k + 1] else []
  {
    assert list[0..|list|] == list;
  }

  function Reverse<T>(s: seq<T>): (r: seq<T>)
    ensures |r| == |s|
  {
    if s == [] then [] else Reverse(s[1..]) + [s[0]]
  }

  lemma {:induction false} PushedOnTop<T>(list: seq<T>, batch: seq<T>)
    ensures Pushed(list, batch) == Pushed([], batch) + list
    decreases |batch|
  {
    if batch != [] {
      PushedOnTop([batch[0]] + list, batch[1..]);
      PushedOnTop([batch[0]], batch[1..]);
      assert [batch[0]] + [] == [batch[0]];
      assert Pushed([], batch) == Pushed([batch[0]], batch[1..]);
      assert Pushed([], batch[1..]) + ([batch[0]] + list) == Pushed([], batch[1..]) + [batch[0]] + list;
    }
  }

  lemma {:induction false} PushedLength<T>(list: seq<T>, batch: seq<T>)
    ensures |Pushed(list, batch)| == |list| + |batch|
    decreases |batch|
  {
    if batch != [] {
      PushedLength([batch[0]] + list, batch[1..]);
    }
  }

  lemma {:induction false} PushedInTwo<T>(list: seq<T>, first: seq<T>, second: seq<T>)
    ensures Pushed(Pushed(list, first), second) == Pushed(list, first + second)
    decreases |first|
  {
    if first == [] {
      assert first + second == second;
    } else {
      PushedInTwo([first[0]] + list, first[1..], second);
      assert (first + second)[1..] == first[1..] + second;
    }
  }

  lemma {:induction false} ReverseSum<T>(a: seq<T>, b: seq<T>)
    ensures Reverse(a + b) == Reverse(b) + Reverse(a)
    decreases |a|
  {
    if a == [] {
      assert a + b == b;
    } else {
      ReverseSum(a[1..], b);
      assert (a + b)[1..] == a[1..] + b;
    }
  }

  /** Cutting a list at its tail takes from the front of the reversed list. */
  lemma ReverseCut<T>(s: seq<T>, keep: nat)
    requires keep <= |s|
    ensures Reverse(s[keep..]) == Reverse(s)[..|s| - keep]
    ensures Reverse(s[..keep]) == Reverse(s)[|s| - keep..]
  {
    assert s == s[..keep] + s[keep..];
    ReverseSum(s[..keep], s[keep..]);
  }

  /** Read from the tail, a push appends. */
  lemma {:induction false} PushedReversed<T>(list: seq<T>, batch: seq<T>)
    ensures Reverse(Pushed(list, batch)) == Reverse(list) + batch
    decreases |batch|
  {
    if batch != [] {
      PushedReversed([batch[0]] + list, batch[1..]);
      assert ([batch[0]] + list)[1..] == list;
      assert batch == [batch[0]] + batch[1..];
    }
  }

  /** The elements that satisfy a predicate, in order. */
  function Kept<T>(s: seq<T>, p: T -> bool): (r: seq<T>)
    ensures |r| <= |s|
  {
    if s == [] then []
    else
      var init, x := s[..|s| - 1], s[|s| - 1];
      if p(x) then Kept(init, p) + [x] else Kept(init, p)
  }

  lemma KeptSnoc<T>(s: seq<T>, x: T, p: T -> bool)
    ensures Kept(s + [x], p) == if p(x) then Kept(s, p) + [x] else Kept(s, p)
  {
    assert (s + [x])[..|s|] == s;
  }

  lemma KeptSumStep<T>(a: seq<T>, init: seq<T>, x: T, p: T -> bool)
    requires Kept(a + init, p) == Kept(a, p) + Kept(init, p)
    ensures Kept(a + (init + [x]), p) == Kept(a, p) + Kept(init + [x], p)
  {
    hide *;
    KeptSnoc(a + init, x, p);
    KeptSnoc(init, x, p);
    assert a + (init + [x]) == a + init + [x];
  }

  lemma {:induction false} KeptSum<T>(a: seq<T>, b: seq<T>, p: T -> bool)
    ensures Kept(a + b, p) == Kept(a, p) + Kept(b, p)
    decreases |b|
  {
    if b == [] {
      assert a + b == a;
    } else {
      hide Kept;
      var init, x := b[..|b| - 1], b[|b| - 1];
      KeptSum(a, init, p);
      KeptSumStep(a, init, x, p);
      assert b == init + [x];
    }
  }
}
