/** The boundary memory of a cursor: which events at the inclusive start of the next window
    were already emitted, kept in a capped memory with an amortised prune. */
module Boundary {
  import opened Options
  import opened Ranking

  const MAX_KEYS: nat := 500

  /** A window start as it is written in the cursor, with the instant the parser reads in it. */
  datatype Stamp = Stamp(text: string, instant: Option<int>)

  /** The memory found in a cursor; Unusable stands for every malformed value. */
  datatype Saved = Nothing | Unusable | Remembered(at: Stamp, keys: set<string>)

  /** An event as the collector reports it; `when` is None if its time cannot be read. */
  datatype Event = Event(when: Option<int>, key: string)

  predicate Given(start: Option<Stamp>) {
    start.Some? && start.value.text != ""
  }

  function LoadKeys(saved: Saved, start: Option<Stamp>): set<string> {
    if Given(start) && saved.Remembered? && saved.at.text == start.value.text
    then set k | k in saved.keys && k != ""
    else {}
  }

  /** What is recorded of an event: nothing, if it has no key or no readable time. */
  function Place(e: Event): seq<Item> {
    if e.when.Some? && e.key != "" then [Item(e.when.value, e.key)] else []
  }

  /** One append to the buffer, with the prune when it exceeds twice the cap. */
  function Appended(recent: seq<Item>, x: Item): seq<Item> {
    var r := recent + [x];
    if |r| > 2 * MAX_KEYS then LastN(Sort(r), MAX_KEYS) else r
  }

  /** The buffer after observing a whole history. */
  function Buffer(history: seq<Item>): seq<Item> {
    if history == [] then [] else Appended(Buffer(history[..|history| - 1]), history[|history| - 1])
  }

  function CarryOf(start: Option<Stamp>, previous: set<string>): Saved {
    if previous == {} || !Given(start) then Nothing else Remembered(start.value, previous)
  }

  /** Distinct keys of an ascending list taken from its greatest end, up to the cap. */
  function Choose(asc: seq<Item>, chosen: set<string>): set<string> {
    if asc == [] then chosen
    else
      var x, rest := asc[|asc| - 1], asc[..|asc| - 1];
      if x.key in chosen then Choose(rest, chosen)
      else if |chosen| >= MAX_KEYS then chosen
      else Choose(rest, chosen + {x.key})
  }

  function DumpOf(seen: seq<Item>, start: Option<Stamp>, previous: set<string>, next: Option<Stamp>): Saved {
    if next.None? || next.value.instant.None? then Nothing
    else
      var keys := Choose(Sort(AtOrAfter(seen, next.value.instant.value)), {});
      if keys != {} then Remembered(next.value, keys)
      else if start.Some? && start.value.text == next.value.text then CarryOf(start, previous)
      else Nothing
  }

  class BoundaryKeys {
    const start: Option<Stamp>
    const previous: set<string>
    var recent: seq<Item>
    var skipped: nat
    ghost var history: seq<Item>  // everything observed, never pruned

    ghost predicate Valid()
      reads this
    {
      recent == Buffer(history)
    }

    constructor Load(saved: Saved, start: Option<Stamp>)
      ensures Valid() && history == [] && skipped == 0
      ensures this.start == start && previous == LoadKeys(saved, start)
      ensures forall k :: k in previous <==>
                && start.Some? && start.value.text != "" && saved.Remembered?
                && saved.at.text == start.value.text && k in saved.keys && k != ""
    {
      this.start := start;
      previous := LoadKeys(saved, start);
      recent := [];
      skipped := 0;
      history := [];
    }

    method Observe(e: Event)
      requires Valid()
      modifies this`recent, this`history
      ensures Valid() && history == old(history) + Place(e)
      ensures |recent| <= 2 * MAX_KEYS
      ensures e.when.None? || e.key == "" ==> recent == old(recent) && history == old(history)
      ensures e.when.Some? && e.key != "" ==> history == old(history) + [Item(e.when.value, e.key)]
      ensures e.when.Some? && e.key != "" ==>
                var longer := old(recent) + [Item(e.when.value, e.key)];
                recent == if |longer| > 2 * MAX_KEYS then LastN(Sort(longer), MAX_KEYS) else longer
    {
      BufferBounded(history);
      if e.when.None? || e.key == "" {
        assert history + [] == history;
        return;
      }
      var x := Item(e.when.value, e.key);
      BufferSnoc(history, x);
      recent := recent + [x];
      if |recent| > 2 * MAX_KEYS {
        recent := Sort(recent);
        recent := LastN(recent, MAX_KEYS);
      }
      history := history + [x];
    }

    method Seen(e: Event) returns (skip: bool)
      requires Valid()
      modifies this
      ensures Valid() && history == old(history) + Place(e)
      ensures skip <==> e.key != "" && e.key in previous
      ensures skipped == old(skipped) + if skip then 1 else 0
      ensures history == old(history) + if e.when.Some? && e.key != "" then [Item(e.when.value, e.key)] else []
    {
      Observe(e);
      if e.key != "" && e.key in previous {
        skipped := skipped + 1;
        return true;
      }
      return false;
    }

    method Carry() returns (saved: Saved)
      ensures saved == CarryOf(start, previous)
      ensures saved == if previous != {} && start.Some? && start.value.text != "" then Remembered(start.value, previous)
                       else Nothing
    {
      if previous == {} || !Given(start) {
        return Nothing;
      }
      return Remembered(start.value, previous);
    }

    /** What is saved is what a memory that never prunes would save. */
    method Dump(next: Option<Stamp>) returns (saved: Saved)
      requires Valid()
      ensures saved == DumpOf(recent, start, previous, next)
      ensures DistinctKeys(history) ==> saved == DumpOf(history, start, previous, next)
      ensures next.None? || next.value.instant.None? ==> saved == Nothing
      ensures next.Some? && next.value.instant.Some? ==>
                Dumped(saved, recent, start, previous, next.value, next.value.instant.value)
    {
      DumpCases(recent, start, previous, next);
      hide Dumped;
      if DistinctKeys(history) {
        PruningRefinesHistory(history, start, previous, next);
      }
      if next.None? || next.value.instant.None? {
        return Nothing;
      }
      var atOrAfter := Sort(AtOrAfter(recent, next.value.instant.value));
      var chosen: set<string> := {};
      var i := |atOrAfter|;
      assert atOrAfter[..i] == atOrAfter;
      while i > 0
        invariant 0 <= i <= |atOrAfter|
        invariant Choose(atOrAfter[..i], chosen) == Choose(atOrAfter, {})
      {
        assert atOrAfter[..i][..i - 1] == atOrAfter[..i - 1];
        var key := atOrAfter[i - 1].key;
        if key !in chosen {
          if |chosen| >= MAX_KEYS {
            break;
          }
          chosen := chosen + {key};
        }
        i := i - 1;
      }
      if chosen == {} {
        if start.Some? && start.value.text == next.value.text {
          saved := Carry();
        } else {
          saved := Nothing;
        }
      } else {
        saved := Remembered(next.value, chosen);
      }
    }
  }

  // ---- What a dump saves of any list, even with repeated keys ----

  /** As many of the keys as fit, each greater, by its last event, than the events of every key left out. */
  ghost predicate GreatestKeys(chosen: set<string>, items: seq<Item>) {
    && chosen <= Keys(items)
    && |chosen| == (if |Keys(items)| <= MAX_KEYS then |Keys(items)| else MAX_KEYS)
    && forall k, y | k in chosen && y in items && y.key !in chosen :: HasGreater(items, k, y)
  }

  ghost predicate HasGreater(items: seq<Item>, k: string, y: Item) {
    exists x :: x in items && x.key == k
        && (y.instant < x.instant || (y.instant == x.instant && KeyLeq(y.key, x.key)))
  }

  lemma SetsWithin(small: set<string>, large: set<string>)
    requires small <= large
    ensures |small| <= |large|
    ensures |small| == |large| ==> small == large
    decreases small
  {
    if k :| k in small {
      SetsWithin(small - {k}, large - {k});
      assert small == small - {k} + {k} && large == large - {k} + {k};
    } else if large != {} {
      assert |large| > 0;
    }
  }

  /** Going down an ascending list, with the keys of its upper part chosen. */
  ghost predicate Going(all: seq<Item>, i: nat, chosen: set<string>) {
    && i <= |all| && |chosen| <= MAX_KEYS
    && (forall k :: k in chosen <==> exists j :: i <= j < |all| && all[j].key == k)
  }

  lemma {:induction false} ChooseGoes(all: seq<Item>, i: nat, chosen: set<string>) returns (stop: nat)
    requires Going(all, i, chosen)
    ensures stop <= i && Going(all, stop, Choose(all[..i], chosen))
    ensures stop > 0 ==> |Choose(all[..i], chosen)| == MAX_KEYS
  {
    if i == 0 {
      stop := 0;
    } else if all[i - 1].key !in chosen && |chosen| >= MAX_KEYS {
      stop := i;
    } else {
      var x := all[i - 1];
      GoesOn(all, i, chosen);
      ChooseSnoc(all[..i - 1], x, chosen);
      assert all[..i] == all[..i - 1] + [x];
      if x.key in chosen {
        assert chosen + {x.key} == chosen;
      }
      hide *;
      stop := ChooseGoes(all, i - 1, chosen + {x.key});
    }
  }

  lemma GoesOn(all: seq<Item>, i: nat, chosen: set<string>)
    requires 0 < i && Going(all, i, chosen) && (all[i - 1].key in chosen || |chosen| < MAX_KEYS)
    ensures Going(all, i - 1, chosen + {all[i - 1].key})
  {
    var x := all[i - 1];
    forall k ensures k in chosen + {x.key} <==> exists j :: i - 1 <= j < |all| && all[j].key == k {
      if k in chosen {
        var j :| i <= j < |all| && all[j].key == k;
      }
    }
    if x.key in chosen {
      assert chosen + {x.key} == chosen;
    }
  }

  lemma StoppedIsGreatest(all: seq<Item>, stop: nat, chosen: set<string>)
    requires Ascending(all) && Going(all, stop, chosen) && (stop > 0 ==> |chosen| == MAX_KEYS)
    ensures GreatestKeys(chosen, all)
  {
    SetsWithin(chosen, Keys(all));
    forall k, y | k in chosen && y in all && y.key !in chosen ensures HasGreater(all, k, y) {
      var j :| stop <= j < |all| && all[j].key == k;
      var i :| 0 <= i < |all| && all[i] == y;
      assert Leq(all[i], all[j]);
    }
    if stop == 0 {
      forall k | k in Keys(all) ensures k in chosen {
        var x :| x in all && x.key == k;
      }
      assert chosen == Keys(all);
    }
  }

  lemma SortKeepsKeys(part: seq<Item>)
    ensures Keys(Sort(part)) == Keys(part)
    ensures forall x :: x in Sort(part) <==> x in part
  {
    SortPermutes(part);
    assert forall x :: x in Sort(part) <==> x in multiset(Sort(part));
    assert forall x :: x in part <==> x in multiset(part);
  }

  /** The keys a dump chooses from any list of events, with or without repeated keys. */
  lemma ChooseGreatest(part: seq<Item>)
    ensures GreatestKeys(Choose(Sort(part), {}), part)
  {
    var all := Sort(part);
    SortAscending(part);
    SortKeepsKeys(part);
    assert all[..|all|] == all && Going(all, |all|, {});
    hide *;
    var stop := ChooseGoes(all, |all|, {});
    StoppedIsGreatest(all, stop, Choose(all, {}));
    SameGreatest(Choose(all, {}), all, part);
  }

  lemma SameGreatest(chosen: set<string>, items: seq<Item>, part: seq<Item>)
    requires GreatestKeys(chosen, items) && Keys(items) == Keys(part) && forall x :: x in items <==> x in part
    ensures GreatestKeys(chosen, part)
  {
    forall k, y | k in chosen && y in part && y.key !in chosen ensures HasGreater(part, k, y) {
      assert HasGreater(items, k, y);
    }
    hide Keys;
  }

  /** What is saved for a readable next start: if something was seen at or after it, the greatest keys of
      that; otherwise the memory that was loaded, if the window did not move. */
  ghost predicate Dumped(saved: Saved, seen: seq<Item>, start: Option<Stamp>, previous: set<string>, next: Stamp,
                         bound: int)
  {
    if exists x :: x in seen && x.instant >= bound
    then saved.Remembered? && saved.at == next && GreatestKeys(saved.keys, AtOrAfter(seen, bound))
    else if previous != {} && start.Some? && start.value.text != "" && start.value.text == next.text
    then saved == Remembered(start.value, previous)
    else saved == Nothing
  }

  lemma DumpCases(seen: seq<Item>, start: Option<Stamp>, previous: set<string>, next: Option<Stamp>)
    ensures next.None? || next.value.instant.None? ==> DumpOf(seen, start, previous, next) == Nothing
    ensures next.Some? && next.value.instant.Some? ==>
              Dumped(DumpOf(seen, start, previous, next), seen, start, previous, next.value, next.value.instant.value)
  {
    if next.Some? && next.value.instant.Some? {
      var bound := next.value.instant.value;
      var part := AtOrAfter(seen, bound);
      ChooseGreatest(part);
      var keys := Choose(Sort(part), {});
      if x :| x in seen && x.instant >= bound {
        assert x in part && x.key in Keys(part) && keys != {};
      } else {
        assert part == [];
      }
      hide GreatestKeys;
      hide Choose;
      hide Sort;
    }
  }

  // ---- Pruning loses nothing a dump could save ----

  function Keys(items: seq<Item>): set<string> {
    set x | x in items :: x.key
  }

  ghost predicate Distinct(items: multiset<Item>) {
    && (forall x | x in items :: items[x] == 1)
    && (forall x, y | x in items && y in items && x.key == y.key :: x == y)
  }

  ghost predicate DistinctKeys(items: seq<Item>) {
    Distinct(multiset(items))
  }

  lemma DistinctWithin(part: multiset<Item>, all: multiset<Item>)
    requires part <= all && Distinct(all)
    ensures Distinct(part)
  {
    assert forall x | x in part :: x in all && part[x] <= all[x];
  }

  lemma BufferSnoc(history: seq<Item>, x: Item)
    ensures Buffer(history + [x]) == Appended(Buffer(history), x)
  {
    assert (history + [x])[..|history|] == history;
  }

  lemma {:induction false} BufferBounded(history: seq<Item>)
    ensures |Buffer(history)| <= 2 * MAX_KEYS
  {
    if history != [] {
      BufferBounded(history[..|history| - 1]);
    }
  }

  lemma LastNWithin(s: seq<Item>, n: nat)
    ensures multiset(LastN(s, n)) <= multiset(s)
  {
    if |s| > n {
      assert s == s[..|s| - n] + LastN(s, n);
    }
  }

  lemma {:induction false} BufferWithin(history: seq<Item>)
    ensures multiset(Buffer(history)) <= multiset(history)
  {
    if history != [] {
      var init, x := history[..|history| - 1], history[|history| - 1];
      BufferWithin(init);
      assert history == init + [x];
      var r := Buffer(init) + [x];
      SortPermutes(r);
      LastNWithin(Sort(r), MAX_KEYS);
    }
  }

  lemma AppendedAgrees(buffer: seq<Item>, history: seq<Item>, x: Item)
    requires LastN(Sort(buffer), MAX_KEYS) == LastN(Sort(history), MAX_KEYS)
    ensures LastN(Sort(Appended(buffer, x)), MAX_KEYS) == LastN(Sort(history + [x]), MAX_KEYS)
  {
    SortSnoc(buffer, x);
    SortSnoc(history, x);
    hide Sort;
    hide Insert;
    InsertAfterForgetting(Sort(buffer), x, MAX_KEYS);
    InsertAfterForgetting(Sort(history), x, MAX_KEYS);
    SortAscending(buffer + [x]);
    SortOfAscending(LastN(Sort(buffer + [x]), MAX_KEYS));
  }

  /** The pruned buffer and the whole history have the same MAX_KEYS greatest entries. */
  lemma {:induction false} BufferAgrees(history: seq<Item>)
    ensures LastN(Sort(Buffer(history)), MAX_KEYS) == LastN(Sort(history), MAX_KEYS)
  {
    if history != [] {
      var init, x := history[..|history| - 1], history[|history| - 1];
      BufferSnoc(init, x);
      assert history == init + [x];
      hide *;
      BufferAgrees(init);
      AppendedAgrees(Buffer(init), init, x);
    }
  }

  lemma ChooseSnoc(rest: seq<Item>, x: Item, chosen: set<string>)
    ensures Choose(rest + [x], chosen) ==
            if x.key in chosen then Choose(rest, chosen)
            else if |chosen| >= MAX_KEYS then chosen
            else Choose(rest, chosen + {x.key})
  {
    assert (rest + [x])[..|rest|] == rest;
  }

  lemma KeysOfNothing()
    ensures Keys([]) == {}
  {
  }

  lemma ChooseDistinctStep(rest: seq<Item>, x: Item, chosen: set<string>)
    requires Keys(rest + [x]) !! chosen && |chosen| <= MAX_KEYS
    requires |chosen| < MAX_KEYS ==>
               Choose(rest, chosen + {x.key}) == chosen + {x.key} + Keys(LastN(rest, MAX_KEYS - |chosen| - 1))
    ensures Choose(rest + [x], chosen) == chosen + Keys(LastN(rest + [x], MAX_KEYS - |chosen|))
  {
    hide *;
    ChooseSnoc(rest, x, chosen);
    KeysSnoc(rest, x);
    if |chosen| < MAX_KEYS {
      LastNSnoc(rest, x, MAX_KEYS - |chosen|);
      KeysSnoc(LastN(rest, MAX_KEYS - |chosen| - 1), x);
    } else {
      LastNZero(rest + [x]);
      KeysOfNothing();
    }
  }

  lemma {:induction false} ChooseDistinct(asc: seq<Item>, chosen: set<string>)
    requires DistinctKeys(asc) && Keys(asc) !! chosen && |chosen| <= MAX_KEYS
    ensures Choose(asc, chosen) == chosen + Keys(LastN(asc, MAX_KEYS - |chosen|))
    decreases |asc|
  {
    if asc != [] {
      var x, rest := asc[|asc| - 1], asc[..|asc| - 1];
      assert asc == rest + [x];
      hide *;
      if |chosen| < MAX_KEYS {
        LastKeyIsNew(rest, x);
        ChooseDistinct(rest, chosen + {x.key});
      }
      ChooseDistinctStep(rest, x, chosen);
    }
  }

  lemma LastKeyIsNew(rest: seq<Item>, x: Item)
    requires DistinctKeys(rest + [x])
    ensures Keys(rest + [x]) == Keys(rest) + {x.key} && x.key !in Keys(rest)
    ensures DistinctKeys(rest)
  {
    KeysSnoc(rest, x);
    DistinctWithin(multiset(rest), multiset(rest + [x]));
    var all := multiset(rest + [x]);
    assert forall y | y in rest :: y in multiset(rest) && y in all;
    assert x in all && all[x] == multiset(rest)[x] + 1;
  }

  lemma KeysSnoc(rest: seq<Item>, x: Item)
    ensures Keys(rest + [x]) == Keys(rest) + {x.key}
  {
    assert forall y :: y in rest + [x] <==> y in rest || y == x;
  }

  lemma {:induction false} AtOrAfterWithin(items: seq<Item>, bound: int)
    ensures multiset(AtOrAfter(items, bound)) <= multiset(items)
  {
    if items != [] {
      AtOrAfterWithin(items[..|items| - 1], bound);
      assert items == items[..|items| - 1] + [items[|items| - 1]];
    }
  }

  /** The keys saved from a list with distinct keys: those of its greatest entries at the bound. */
  lemma ChosenFromHistory(items: seq<Item>, bound: int)
    requires DistinctKeys(items)
    ensures Choose(Sort(AtOrAfter(items, bound)), {}) == Keys(LastN(Sort(AtOrAfter(items, bound)), MAX_KEYS))
    ensures LastN(Sort(AtOrAfter(items, bound)), MAX_KEYS) == AtOrAfter(LastN(Sort(items), MAX_KEYS), bound)
  {
    AtOrAfterWithin(items, bound);
    SortPermutes(AtOrAfter(items, bound));
    DistinctWithin(multiset(Sort(AtOrAfter(items, bound))), multiset(items));
    ChooseDistinct(Sort(AtOrAfter(items, bound)), {});
    SortAtOrAfter(items, bound);
    SortAscending(items);
    LastNAtOrAfter(Sort(items), MAX_KEYS, bound);
  }

  lemma PrunedChoice(history: seq<Item>, bound: int)
    requires DistinctKeys(history)
    ensures Choose(Sort(AtOrAfter(Buffer(history), bound)), {}) == Choose(Sort(AtOrAfter(history, bound)), {})
  {
    BufferAgrees(history);
    BufferWithin(history);
    DistinctWithin(multiset(Buffer(history)), multiset(history));
    ChosenFromHistory(Buffer(history), bound);
    ChosenFromHistory(history, bound);
  }

  /** Dumping from the pruned buffer saves exactly what dumping from the full history would. */
  lemma PruningRefinesHistory(history: seq<Item>, start: Option<Stamp>, previous: set<string>, next: Option<Stamp>)
    requires DistinctKeys(history)
    ensures DumpOf(Buffer(history), start, previous, next) == DumpOf(history, start, previous, next)
  {
    if next.Some? && next.value.instant.Some? {
      PrunedChoice(history, next.value.instant.value);
    }
  }

  /** And what it saves is the keys of the greatest (instant, key) pairs of the full history at or
      after the bound: as many as there are, up to the cap. */
  lemma DumpKeepsTheGreatest(history: seq<Item>, bound: int) returns (kept: seq<Item>)
    requires DistinctKeys(history)
    ensures Choose(Sort(AtOrAfter(Buffer(history), bound)), {}) == Keys(kept)
    ensures multiset(kept) <= multiset(AtOrAfter(history, bound))
    ensures |kept| == if |AtOrAfter(history, bound)| <= MAX_KEYS then |AtOrAfter(history, bound)| else MAX_KEYS
    ensures forall x, y | x in kept && y in AtOrAfter(history, bound) && y !in kept :: Leq(y, x)
  {
    PrunedChoice(history, bound);
    ChosenFromHistory(history, bound);
    var candidates := AtOrAfter(history, bound);
    var all := Sort(candidates);
    kept := LastN(all, MAX_KEYS);
    SortPermutes(candidates);
    LastNWithin(all, MAX_KEYS);
    SortAscending(candidates);
    LastNGreatest(all, MAX_KEYS);
    assert forall y :: y in candidates ==> y in multiset(all);
  }

  lemma LastNGreatest(all: seq<Item>, n: nat)
    requires Ascending(all)
    ensures forall x, y | x in LastN(all, n) && y in all && y !in LastN(all, n) :: Leq(y, x)
  {
    if |all| > n {
      assert all == all[..|all| - n] + LastN(all, n);
      forall x, y | x in LastN(all, n) && y in all && y !in LastN(all, n) ensures Leq(y, x) {
        var i :| 0 <= i < |all| - n && all[..|all| - n][i] == y;
        var j :| 0 <= j < n && LastN(all, n)[j] == x;
        assert all[i] == y && all[|all| - n + j] == x;
      }
    }
  }
}
