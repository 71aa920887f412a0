/** Whole runs of collection cycles over the boundary memory: no event is skipped that was not
    emitted before, and against a well-behaved source every event is emitted exactly once. */
module BoundaryRuns {
  import opened Options
  import opened Ranking
  import opened Boundary

  /** How a cycle ends: it fails before it reads the cursor, and the empty cursor is saved over it; or it
      fails later, and the old cursor is restored; or it saves one that resumes the same window, or one
      for the window that starts at `next`. */
  datatype Finish = FailedEarly | Failed | Capped | Final(next: Option<Stamp>)

  datatype Cycle = Cycle(start: Option<Stamp>, events: seq<Event>, finish: Finish)

  function Placed(events: seq<Event>): seq<Item> {
    if events == [] then [] else Placed(events[..|events| - 1]) + Place(events[|events| - 1])
  }

  /** The events a collector yields: those whose key the memory does not hold. */
  function Fresh(events: seq<Event>, previous: set<string>): (r: seq<Event>)
    ensures forall e :: e in r <==> e in events && e.key !in previous
  {
    if events == [] then []
    else
      var init, e := events[..|events| - 1], events[|events| - 1];
      assert events == init + [e];
      Fresh(init, previous) + if e.key in previous then [] else [e]
  }

  /** What the collector was given; after an early failure it never ran. */
  function Received(c: Cycle): seq<Event> {
    if c.finish.FailedEarly? then [] else c.events
  }

  function Emitted(saved: Saved, c: Cycle): set<string> {
    set e | e in Fresh(Received(c), LoadKeys(saved, c.start)) :: e.key
  }

  function After(saved: Saved, c: Cycle): Saved {
    match c.finish
    case FailedEarly => Nothing
    case Failed => saved
    case Capped => CarryOf(c.start, LoadKeys(saved, c.start))
    case Final(next) => DumpOf(Buffer(Placed(c.events)), c.start, LoadKeys(saved, c.start), next)
  }

  function SavedAfter(run: seq<Cycle>): Saved {
    if run == [] then Nothing else After(SavedAfter(run[..|run| - 1]), run[|run| - 1])
  }

  predicate Committed(c: Cycle) {
    !c.finish.Failed? && !c.finish.FailedEarly?
  }

  /** The keys that cycle i of a run hands to the pipeline. */
  function EmittedIn(run: seq<Cycle>, i: nat): set<string>
    requires i < |run|
  {
    Emitted(SavedAfter(run[..i]), run[i])
  }

  /** The keys emitted by the committed cycles of a run. */
  function EverEmitted(run: seq<Cycle>): set<string> {
    if run == [] then {}
    else
      var init, c := run[..|run| - 1], run[|run| - 1];
      EverEmitted(init) + if Committed(c) then Emitted(SavedAfter(init), c) else {}
  }

  /** The loop of a collector: ask for every event, yield what was not emitted before. */
  method Sweep(boundary: BoundaryKeys, events: seq<Event>) returns (emitted: seq<Event>)
    requires boundary.Valid() && boundary.history == [] && "" !in boundary.previous
    modifies boundary
    ensures boundary.Valid() && boundary.history == Placed(events)
    ensures emitted == Fresh(events, boundary.previous)
  {
    emitted := [];
    for i := 0 to |events|
      invariant boundary.Valid()
      invariant boundary.history == Placed(events[..i])
      invariant emitted == Fresh(events[..i], boundary.previous)
    {
      assert events[..i + 1][..i] == events[..i];
      var skip := boundary.Seen(events[i]);
      if !skip {
        emitted := emitted + [events[i]];
      }
    }
    assert events[..|events|] == events;
  }

  /** One collector cycle over the memory object: load, sweep, save. */
  method Collect(saved: Saved, c: Cycle) returns (emitted: seq<Event>, after: Saved)
    ensures emitted == Fresh(Received(c), LoadKeys(saved, c.start))
    ensures after == After(saved, c)
    ensures c.finish.FailedEarly? ==> emitted == [] && after == Nothing
    ensures c.finish.Failed? ==> after == saved
    ensures c.finish.Capped? ==> LoadKeys(after, c.start) == LoadKeys(saved, c.start)
  {
    CappedKeepsMemory(saved, c.start);
    if c.finish.FailedEarly? {
      return [], Nothing;
    }
    var boundary := new BoundaryKeys.Load(saved, c.start);
    emitted := Sweep(boundary, c.events);
    match c.finish
    case Failed => after := saved;
    case Capped => after := boundary.Carry();
    case Final(next) => after := boundary.Dump(next);
  }

  /** A capped cycle, which resumes its window, leaves the next one the memory it had itself. */
  lemma CappedKeepsMemory(saved: Saved, start: Option<Stamp>)
    ensures LoadKeys(After(saved, Cycle(start, [], Capped)), start) == LoadKeys(saved, start)
    ensures forall events :: After(saved, Cycle(start, events, Capped)) == After(saved, Cycle(start, [], Capped))
  {
    assert "" !in LoadKeys(saved, start);
  }

  lemma FreshSnoc(init: seq<Event>, e: Event, previous: set<string>)
    ensures Fresh(init + [e], previous) == Fresh(init, previous) + if e.key in previous then [] else [e]
  {
    assert (init + [e])[..|init|] == init;
  }

  lemma FreshPartsStep(a: seq<Event>, init: seq<Event>, e: Event, previous: set<string>, tail: seq<Event>)
    requires tail == Fresh(init, previous) && Fresh(a + init, previous) == Fresh(a, previous) + tail
    ensures Fresh(a + (init + [e]), previous) == Fresh(a, previous) + Fresh(init + [e], previous)
  {
    FreshSnoc(a + init, e, previous);
    FreshSnoc(init, e, previous);
    hide *;
    assert a + (init + [e]) == a + init + [e];
    var one := if e.key in previous then [] else [e];
    assert Fresh(a, previous) + (tail + one) == Fresh(a, previous) + tail + one;
  }

  /** What is emitted is decided event by event, in order. */
  lemma {:induction false} FreshParts(a: seq<Event>, b: seq<Event>, previous: set<string>)
    ensures Fresh(a + b, previous) == Fresh(a, previous) + Fresh(b, previous)
  {
    if b == [] {
      assert a + b == a;
    } else {
      var init, e := b[..|b| - 1], b[|b| - 1];
      assert b == init + [e];
      FreshParts(a, init, previous);
      FreshPartsStep(a, init, e, previous, Fresh(init, previous));
    }
  }

  // ---- Nothing is skipped that was not emitted ----

  lemma {:induction false} ChooseWithin(asc: seq<Item>, chosen: set<string>)
    ensures Choose(asc, chosen) <= chosen + Keys(asc)
    decreases |asc|
  {
    if asc != [] {
      var x, rest := asc[|asc| - 1], asc[..|asc| - 1];
      assert x in asc && forall y :: y in rest ==> y in asc;
      ChooseWithin(rest, chosen);
      ChooseWithin(rest, chosen + {x.key});
    }
  }

  lemma {:induction false} PlacedWithin(events: seq<Event>)
    ensures forall x :: x in Placed(events) <==> x.key != "" && Event(Some(x.instant), x.key) in events
  {
    if events != [] {
      var init, e := events[..|events| - 1], events[|events| - 1];
      PlacedWithin(init);
      assert events == init + [e];
    }
  }

  lemma DumpedWasSeen(events: seq<Event>, bound: int, k: string)
    requires k in Choose(Sort(AtOrAfter(Buffer(Placed(events)), bound)), {})
    ensures exists e :: e in events && e.key == k
  {
    var buffer := Buffer(Placed(events));
    var asc := Sort(AtOrAfter(buffer, bound));
    ChooseWithin(asc, {});
    var x :| x in asc && x.key == k;
    assert x in multiset(asc);
    SortPermutes(AtOrAfter(buffer, bound));
    assert x in AtOrAfter(buffer, bound) && x in multiset(buffer);
    BufferWithin(Placed(events));
    PlacedWithin(events);
    assert Event(Some(x.instant), x.key) in events;
  }

  lemma AfterWasEmittedOrSaved(saved: Saved, c: Cycle, k: string)
    requires After(saved, c).Remembered? && k in After(saved, c).keys
    ensures (Committed(c) && k in Emitted(saved, c)) || (saved.Remembered? && k in saved.keys)
  {
    if c.finish.Final? && k !in LoadKeys(saved, c.start) {
      DumpedWasSeen(c.events, c.finish.next.value.instant.value, k);
    }
  }

  /** In every run, with no assumption on the source, the memory holds only keys that committed
      cycles emitted. */
  lemma {:induction false} MemoryWasEmitted(run: seq<Cycle>)
    ensures SavedAfter(run).Remembered? ==> SavedAfter(run).keys <= EverEmitted(run)
  {
    if run != [] && SavedAfter(run).Remembered? {
      MemoryWasEmitted(run[..|run| - 1]);
      forall k | k in SavedAfter(run).keys ensures k in EverEmitted(run) {
        AfterWasEmittedOrSaved(SavedAfter(run[..|run| - 1]), run[|run| - 1], k);
      }
    }
  }

  lemma {:induction false} EmittedSomewhere(run: seq<Cycle>, key: string)
    requires key in EverEmitted(run)
    ensures exists j :: 0 <= j < |run| && Committed(run[j]) && key in EmittedIn(run, j)
  {
    hide Emitted;
    var init := run[..|run| - 1];
    if key in EverEmitted(init) {
      EmittedSomewhere(init, key);
      var j :| 0 <= j < |init| && Committed(init[j]) && key in EmittedIn(init, j);
      assert init[..j] == run[..j];
      assert key in EmittedIn(run, j);
    } else {
      assert key in EmittedIn(run, |run| - 1);
    }
  }

  /** No loss: a cycle skips a key only if an earlier committed cycle emitted that same key. */
  lemma SkippedWasEmitted(run: seq<Cycle>, i: nat, e: Event)
    requires i < |run| && e in Received(run[i]) && e.key !in EmittedIn(run, i)
    ensures exists j :: 0 <= j < i && Committed(run[j]) && e.key in EmittedIn(run, j)
  {
    SkippedWasSaved(SavedAfter(run[..i]), run[i], e);
    MemoryWasEmitted(run[..i]);
    hide Emitted;
    hide SavedAfter;
    hide EverEmitted;
    EmittedSomewhere(run[..i], e.key);
    var j :| 0 <= j < i && Committed(run[..i][j]) && e.key in EmittedIn(run[..i], j);
    assert run[..i][..j] == run[..j];
    assert e.key in EmittedIn(run, j);
  }

  lemma SkippedWasSaved(saved: Saved, c: Cycle, e: Event)
    requires e in Received(c) && e.key !in Emitted(saved, c)
    ensures saved.Remembered? && e.key in saved.keys
  {
    assert e in Fresh(Received(c), LoadKeys(saved, c.start)) <==> e.key !in LoadKeys(saved, c.start);
  }

  // ---- Exactly once, against a well-behaved source ----

  /** The start in the stored cursor; without one the collector falls back on a lookback of its own. */
  function NextStart(run: seq<Cycle>): Option<Stamp> {
    if run == [] then None
    else
      match run[|run| - 1].finish
      case FailedEarly => None
      case Final(next) => next
      case _ => NextStart(run[..|run| - 1])
  }

  predicate Proper(start: Option<Stamp>) {
    Given(start) && start.value.instant.Some?
  }

  function From(visible: set<Item>, bound: int): set<Item> {
    set x | x in visible && x.instant >= bound
  }

  ghost predicate KeyFixesInstant(visible: set<Item>) {
    && (forall x | x in visible :: x.key != "")
    && (forall x, y | x in visible && y in visible && x.key == y.key :: x == y)
  }

  /** Everything visible at or after the window start, each event once. */
  ghost predicate FullAnswer(events: seq<Event>, visible: set<Item>, bound: int) {
    && DistinctKeys(Placed(events))
    && (forall e | e in events :: e.when.Some? && e.key != "")
    && (set x | x in Placed(events)) == From(visible, bound)
  }

  /** A cycle against the source: to a committed cycle it answers nothing or in full, and the cycle never
      moves the start back. What a failed cycle was answered does not matter. */
  ghost predicate Answered(c: Cycle, visible: set<Item>) {
    !c.finish.FailedEarly? ==>
    && Proper(c.start) && !c.finish.Capped?
    && (c.finish.Final? ==>
          && (c.events == [] || FullAnswer(c.events, visible, c.start.value.instant.value))
          && Proper(c.finish.next)
          && c.finish.next.value.instant.value >= c.start.value.instant.value)
  }

  /** A run against a source whose visible events only grow; visible[i] is what cycle i could see. */
  ghost predicate InWorld(run: seq<Cycle>, visible: seq<set<Item>>) {
    |visible| == |run| &&
    (run != [] ==>
       var n := |run| - 1;
       && InWorld(run[..n], visible[..n])
       && (n > 0 ==> visible[n - 1] <= visible[n])
       && KeyFixesInstant(visible[n])
       && Answered(run[n], visible[n])
       && (NextStart(run[..n]).Some? && !run[n].finish.FailedEarly? ==> run[n].start == NextStart(run[..n])))
  }

  /** Every visible event emitted so far lies before this instant. */
  ghost predicate Behind(before: seq<Cycle>, visible: set<Item>, bound: int) {
    forall x | x in visible && x.key in EverEmitted(before) :: x.instant < bound
  }

  /** A cycle that finds no start in the cursor starts past everything emitted. */
  ghost predicate KeepsAtStart(before: seq<Cycle>, c: Cycle, visible: set<Item>) {
    NextStart(before).None? && c.start.Some? && c.start.value.instant.Some? ==>
      Behind(before, visible, c.start.value.instant.value)
  }

  /** What the source may return again at the next start fits the memory; and a cycle that was answered
      nothing keeps the saved start as written, or moves it past everything emitted. */
  ghost predicate KeepsAtEnd(before: seq<Cycle>, c: Cycle, visible: set<Item>) {
    c.finish.Final? && c.finish.next.Some? && c.start.Some? && c.finish.next.value.instant.Some? ==>
      if c.events != [] then |From(visible, c.finish.next.value.instant.value)| <= MAX_KEYS
      else
        || (NextStart(before).Some? && c.finish.next.value.text == c.start.value.text)
        || Behind(before, visible, c.finish.next.value.instant.value)
  }

  /** The condition exactly-once needs, at the start of every answered cycle and at the end of each. */
  ghost predicate Keeps(before: seq<Cycle>, c: Cycle, visible: set<Item>) {
    (Committed(c) && c.events != [] ==> KeepsAtStart(before, c, visible)) && KeepsAtEnd(before, c, visible)
  }

  ghost predicate AllKeep(run: seq<Cycle>, visible: seq<set<Item>>)
    requires |visible| == |run|
  {
    forall i :: 0 <= i < |run| ==> Keeps(run[..i], run[i], visible[i])
  }

  /** The memory covers everything emitted that the source may return again. */
  ghost predicate Covers(run: seq<Cycle>, visible: set<Item>) {
    NextStart(run).Some? && NextStart(run).value.instant.Some? ==>
      forall x | x in visible && x.key in EverEmitted(run) && x.instant >= NextStart(run).value.instant.value ::
        x.key in LoadKeys(SavedAfter(run), NextStart(run))
  }

  lemma {:induction false} WorldFacts(run: seq<Cycle>, visible: seq<set<Item>>)
    requires InWorld(run, visible)
    ensures NextStart(run).Some? ==> Proper(NextStart(run))
    ensures NextStart(run).None? ==> SavedAfter(run) == Nothing
    ensures run != [] ==> EverEmitted(run) <= set x | x in visible[|run| - 1] :: x.key
    ensures run == [] ==> EverEmitted(run) == {}
  {
    if run != [] {
      var n := |run| - 1;
      WorldFacts(run[..n], visible[..n]);
      var c := run[n];
      PlacedWithin(c.events);
      forall k | k in EverEmitted(run) ensures k in set x | x in visible[n] :: x.key {
        if k !in EverEmitted(run[..n]) {
          var e :| e in c.events && e.key == k;
          assert Item(e.when.value, k) in Placed(c.events);
          assert Item(e.when.value, k) in From(visible[n], c.start.value.instant.value);
        } else {
          var x :| x in visible[n - 1] && x.key == k;
          assert x in visible[n];
        }
      }
    }
  }

  lemma {:induction false} DistinctCount(items: seq<Item>)
    requires Distinct(multiset(items))
    ensures |items| == |set x | x in items|
  {
    if items != [] {
      var rest, x := items[..|items| - 1], items[|items| - 1];
      assert items == rest + [x];
      DistinctWithin(multiset(rest), multiset(items));
      DistinctCount(rest);
      LastKeyIsNew(rest, x);
      assert x !in rest;
      assert (set y | y in items) == (set y | y in rest) + {x};
    }
  }

  lemma LateCount(events: seq<Event>, visible: set<Item>, from: int, next: int)
    requires FullAnswer(events, visible, from) && from <= next
    ensures (set x | x in AtOrAfter(Placed(events), next)) == From(visible, next)
    ensures |AtOrAfter(Placed(events), next)| == |From(visible, next)|
  {
    var seen := Placed(events);
    var late := AtOrAfter(seen, next);
    var all := set x | x in late;
    AtOrAfterWithin(seen, next);
    DistinctWithin(multiset(late), multiset(seen));
    DistinctCount(late);
    assert all == From(visible, next) by {
      var answered := set x | x in seen;
      assert answered == From(visible, from);
      assert forall x :: x in all <==> x in answered && x.instant >= next;
    }
  }

  /** A full answer is remembered in full, as long as it fits under the cap. */
  lemma FullAnswerRemembered(events: seq<Event>, visible: set<Item>, from: int, next: int)
    requires FullAnswer(events, visible, from) && from <= next && |From(visible, next)| <= MAX_KEYS
    ensures forall x | x in From(visible, next) :: x.key in Choose(Sort(AtOrAfter(Buffer(Placed(events)), next)), {})
  {
    var late := AtOrAfter(Placed(events), next);
    LateCount(events, visible, from, next);
    var kept := DumpKeepsTheGreatest(Placed(events), next);
    SameSize(multiset(kept), multiset(late));
    forall x | x in From(visible, next) ensures x.key in Keys(kept) {
      assert x in set y | y in late;
      assert x in multiset(kept);
    }
  }

  lemma SameSize(part: multiset<Item>, all: multiset<Item>)
    requires part <= all && |part| == |all|
    ensures part == all
  {
    assert all == part + (all - part);
    assert |all - part| == 0;
  }

  /** In a covered state the next cycle repeats nothing that was emitted before. */
  lemma CoveredRepeatsNothing(run: seq<Cycle>, visible: seq<set<Item>>)
    requires InWorld(run, visible) && run != [] && !run[|run| - 1].finish.FailedEarly?
    requires var c := run[|run| - 1];
             c.events == [] || FullAnswer(c.events, visible[|run| - 1], c.start.value.instant.value)
    requires |run| > 1 ==> Covers(run[..|run| - 1], visible[|run| - 2])
    requires run[|run| - 1].events != [] ==> KeepsAtStart(run[..|run| - 1], run[|run| - 1], visible[|run| - 1])
    ensures Emitted(SavedAfter(run[..|run| - 1]), run[|run| - 1]) !! EverEmitted(run[..|run| - 1])
  {
    var n := |run| - 1;
    var c, init := run[n], run[..n];
    WorldFacts(init, visible[..n]);
    PlacedWithin(c.events);
    forall k | k in Emitted(SavedAfter(init), c) ensures k !in EverEmitted(init) {
      var e :| e in c.events && e.key == k;
      var x := Item(e.when.value, k);
      assert x in Placed(c.events) && x in From(visible[n], c.start.value.instant.value);
    }
  }

  lemma EmittedWasVisible(run: seq<Cycle>, visible: seq<set<Item>>, x: Item)
    requires InWorld(run, visible) && |run| > 1 && x in visible[|run| - 1] && x.key in EverEmitted(run[..|run| - 1])
    ensures x in visible[|run| - 2]
  {
    var n := |run| - 1;
    WorldFacts(run[..n], visible[..n]);
    var y :| y in visible[n - 1] && y.key == x.key;
    assert y in visible[n];
  }

  lemma FullAnswerKeepsKey(saved: Saved, c: Cycle, visible: set<Item>, x: Item)
    requires Answered(c, visible) && c.finish.Final? && c.events != []
    requires |From(visible, c.finish.next.value.instant.value)| <= MAX_KEYS
    requires x in From(visible, c.finish.next.value.instant.value) && x.key != ""
    ensures x.key in LoadKeys(After(saved, c), c.finish.next)
  {
    FullAnswerRemembered(c.events, visible, c.start.value.instant.value, c.finish.next.value.instant.value);
  }

  /** What is saved after a full answer: the keys of the greatest entries at the next start, as many as
      the memory holds. */
  lemma FullAnswerSaves(saved: Saved, c: Cycle, visible: set<Item>) returns (kept: set<Item>)
    requires Answered(c, visible) && c.finish.Final? && c.events != [] && KeyFixesInstant(visible)
    ensures var late := From(visible, c.finish.next.value.instant.value);
            && kept <= late && |kept| == (if |late| <= MAX_KEYS then |late| else MAX_KEYS)
            && (late != {} ==> forall x | x in late :: x.key in LoadKeys(After(saved, c), c.finish.next) <==> x in kept)
  {
    var next := c.finish.next.value.instant.value;
    var late := From(visible, next);
    LateCount(c.events, visible, c.start.value.instant.value, next);
    var items := DumpKeepsTheGreatest(Placed(c.events), next);
    AtOrAfterWithin(Placed(c.events), next);
    DistinctWithin(multiset(items), multiset(Placed(c.events)));
    DistinctCount(items);
    kept := set x | x in items;
    forall x | x in kept ensures x in late {
      assert x in multiset(items) && x in AtOrAfter(Placed(c.events), next);
      assert x in set y | y in AtOrAfter(Placed(c.events), next);
    }
    if late != {} {
      SavedKeys(saved, c, items);
      forall x | x in late ensures x.key in Keys(items) <==> x in kept {
        if y :| y in items && y.key == x.key {
          assert y in kept;
        }
      }
    }
  }

  lemma SavedKeys(saved: Saved, c: Cycle, items: seq<Item>)
    requires c.finish.Final? && Proper(c.finish.next) && items != []
    requires Choose(Sort(AtOrAfter(Buffer(Placed(c.events)), c.finish.next.value.instant.value)), {}) == Keys(items)
    ensures forall k :: k in LoadKeys(After(saved, c), c.finish.next) <==> k in Keys(items) && k != ""
  {
    hide Choose;
    hide Sort;
    hide AtOrAfter;
    hide Buffer;
    hide Placed;
    hide CarryOf;
    assert items[0].key in Keys(items);
    hide Keys;
  }

  lemma {:induction false} AnsweredWasEmitted(run: seq<Cycle>, e: Event)
    requires run != [] && Committed(run[|run| - 1]) && e in run[|run| - 1].events
    ensures e.key in EverEmitted(run)
  {
    var init, c := run[..|run| - 1], run[|run| - 1];
    MemoryWasEmitted(init);
    if e.key !in Emitted(SavedAfter(init), c) {
      SkippedWasSaved(SavedAfter(init), c, e);
    }
    hide Emitted;
    hide SavedAfter;
  }

  lemma AtMost(small: set<Item>, large: set<Item>)
    requires small <= large
    ensures |small| <= |large| && |large - small| == |large| - |small|
  {
    assert large == small + (large - small);
  }

  lemma FittingAnswerCovers(run: seq<Cycle>, visible: seq<set<Item>>)
    requires InWorld(run, visible) && run != []
    requires run[|run| - 1].finish.Final? && run[|run| - 1].events != []
    requires |From(visible[|run| - 1], run[|run| - 1].finish.next.value.instant.value)| <= MAX_KEYS
    ensures Covers(run, visible[|run| - 1])
  {
    var c, v, saved := run[|run| - 1], visible[|run| - 1], SavedAfter(run[..|run| - 1]);
    hide After;
    hide FullAnswer;
    var next := c.finish.next.value.instant.value;
    forall x | x in v && x.instant >= next ensures x.key in LoadKeys(After(saved, c), c.finish.next) {
      assert x in From(v, next);
      FullAnswerKeepsKey(saved, c, v, x);
    }
    hide LoadKeys;
    hide EverEmitted;
  }

  /** An event that may return, was emitted, and is not remembered. */
  lemma OverflowForgets(run: seq<Cycle>, visible: seq<set<Item>>) returns (x: Item)
    requires InWorld(run, visible) && run != []
    requires run[|run| - 1].finish.Final? && run[|run| - 1].events != []
    requires |From(visible[|run| - 1], run[|run| - 1].finish.next.value.instant.value)| > MAX_KEYS
    ensures x in From(visible[|run| - 1], run[|run| - 1].finish.next.value.instant.value)
    ensures x.key in EverEmitted(run) && x.key !in LoadKeys(SavedAfter(run), run[|run| - 1].finish.next)
  {
    var c, v, saved := run[|run| - 1], visible[|run| - 1], SavedAfter(run[..|run| - 1]);
    hide After;
    hide LoadKeys;
    var next := c.finish.next.value.instant.value;
    var kept := FullAnswerSaves(saved, c, v);
    AtMost(kept, From(v, next));
    x :| x in From(v, next) - kept;
    AnsweredLate(c, v, x);
    AnsweredWasEmitted(run, Event(Some(x.instant), x.key));
  }

  lemma AnsweredLate(c: Cycle, visible: set<Item>, x: Item)
    requires Answered(c, visible) && c.finish.Final? && c.events != []
    requires x in From(visible, c.finish.next.value.instant.value)
    ensures Event(Some(x.instant), x.key) in c.events
  {
    assert x in From(visible, c.start.value.instant.value);
    assert x in set y | y in Placed(c.events);
    PlacedWithin(c.events);
  }

  /** A full answer leaves everything covered exactly if what may return fits the memory. */
  lemma FullAnswerCovers(run: seq<Cycle>, visible: seq<set<Item>>)
    requires InWorld(run, visible) && run != []
    requires run[|run| - 1].finish.Final? && run[|run| - 1].events != []
    ensures Covers(run, visible[|run| - 1]) <==>
            |From(visible[|run| - 1], run[|run| - 1].finish.next.value.instant.value)| <= MAX_KEYS
  {
    hide SavedAfter;
    hide LoadKeys;
    hide EverEmitted;
    hide FullAnswer;
    if |From(visible[|run| - 1], run[|run| - 1].finish.next.value.instant.value)| <= MAX_KEYS {
      FittingAnswerCovers(run, visible);
    } else {
      var x := OverflowForgets(run, visible);
    }
  }

  lemma NoAnswerDumps(c: Cycle, saved: Saved)
    requires c.finish.Final? && Proper(c.finish.next) && Proper(c.start) && c.events == []
    ensures Emitted(saved, c) == {}
    ensures After(saved, c) == if c.start.value.text == c.finish.next.value.text
                               then CarryOf(c.start, LoadKeys(saved, c.start)) else Nothing
  {
    assert Placed(c.events) == [] && Buffer([]) == [] && AtOrAfter([], c.finish.next.value.instant.value) == [];
    assert Sort([]) == [] && Choose([], {}) == {};
  }

  lemma NoAnswerCovers(run: seq<Cycle>, visible: seq<set<Item>>)
    requires InWorld(run, visible) && run != []
    requires run[|run| - 1].finish.Final? && run[|run| - 1].events == []
    requires |run| > 1 ==> Covers(run[..|run| - 1], visible[|run| - 2])
    ensures KeepsAtEnd(run[..|run| - 1], run[|run| - 1], visible[|run| - 1]) <==> Covers(run, visible[|run| - 1])
  {
    var n := |run| - 1;
    var c, init, v := run[n], run[..n], visible[n];
    NoAnswerDumps(c, SavedAfter(init));
    WorldFacts(init, visible[..n]);
    assert EverEmitted(run) == EverEmitted(init);
    var next := c.finish.next.value;
    if NextStart(init).Some? && next.text == c.start.value.text {
      forall x | x in v && x.key in EverEmitted(init) && x.instant >= next.instant.value
        ensures x.key in LoadKeys(SavedAfter(run), NextStart(run))
      {
        EmittedWasVisible(run, visible, x);
        assert x.key in LoadKeys(SavedAfter(init), c.start);
      }
    } else {
      assert SavedAfter(run) == Nothing;
    }
  }

  /** One more cycle of a covered run leaves it covered, exactly if it keeps the memory. */
  lemma CoversStep(run: seq<Cycle>, visible: seq<set<Item>>)
    requires InWorld(run, visible) && run != []
    requires |run| > 1 ==> Covers(run[..|run| - 1], visible[|run| - 2])
    ensures KeepsAtEnd(run[..|run| - 1], run[|run| - 1], visible[|run| - 1]) <==> Covers(run, visible[|run| - 1])
  {
    var n := |run| - 1;
    if run[n].finish.FailedEarly? {
    } else if !run[n].finish.Final? {
      WorldFacts(run[..n], visible[..n]);
      forall x | x in visible[n] && x.key in EverEmitted(run[..n]) ensures n > 0 && x in visible[n - 1] {
        EmittedWasVisible(run, visible, x);
      }
    } else if run[n].events != [] {
      FullAnswerCovers(run, visible);
    } else {
      NoAnswerCovers(run, visible);
    }
  }

  lemma {:induction false} CoveredThroughout(run: seq<Cycle>, visible: seq<set<Item>>)
    requires InWorld(run, visible) && AllKeep(run, visible)
    ensures run != [] ==> Covers(run, visible[|run| - 1])
  {
    if run != [] {
      var n := |run| - 1;
      assert AllKeep(run[..n], visible[..n]) by {
        forall i | 0 <= i < n ensures Keeps(run[..n][..i], run[..n][i], visible[..n][i]) {
          assert run[..n][..i] == run[..i];
        }
      }
      CoveredThroughout(run[..n], visible[..n]);
      CoversStep(run, visible);
    }
  }

  lemma {:induction false} PrefixInWorld(run: seq<Cycle>, visible: seq<set<Item>>, n: nat)
    requires InWorld(run, visible) && AllKeep(run, visible) && n <= |run|
    ensures InWorld(run[..n], visible[..n]) && AllKeep(run[..n], visible[..n])
    decreases |run|
  {
    forall i | 0 <= i < n ensures Keeps(run[..n][..i], run[..n][i], visible[..n][i]) {
      assert run[..n][..i] == run[..i];
    }
    if n < |run| {
      var m := |run| - 1;
      forall i | 0 <= i < m ensures Keeps(run[..m][..i], run[..m][i], visible[..m][i]) {
        assert run[..m][..i] == run[..i];
      }
      PrefixInWorld(run[..m], visible[..m], n);
      assert run[..m][..n] == run[..n] && visible[..m][..n] == visible[..n];
    } else {
      assert run[..n] == run && visible[..n] == visible;
    }
  }

  lemma {:induction false} EmittedInIsEver(run: seq<Cycle>, i: nat, n: nat, key: string)
    requires i < n <= |run| && Committed(run[i]) && key in EmittedIn(run, i)
    ensures key in EverEmitted(run[..n])
    decreases n
  {
    assert run[..n][..n - 1] == run[..n - 1];
    if i < n - 1 {
      EmittedInIsEver(run, i, n - 1, key);
    }
  }

  lemma CommittedWasAnswered(run: seq<Cycle>, visible: seq<set<Item>>)
    requires InWorld(run, visible) && run != [] && Committed(run[|run| - 1])
    ensures var c := run[|run| - 1];
            c.events == [] || FullAnswer(c.events, visible[|run| - 1], c.start.value.instant.value)
    ensures Proper(run[|run| - 1].start)
  {
    hide FullAnswer;
  }

  lemma KeptAt(run: seq<Cycle>, visible: seq<set<Item>>, j: nat)
    requires |visible| == |run| && AllKeep(run, visible) && j < |run| && Committed(run[j]) && run[j].events != []
    ensures KeepsAtStart(run[..j], run[j], visible[j])
  {
    assert Keeps(run[..j], run[j], visible[j]);
  }

  lemma NothingRepeated(run: seq<Cycle>, visible: seq<set<Item>>, j: nat)
    requires InWorld(run, visible) && AllKeep(run, visible) && j < |run| && Committed(run[j])
    ensures EmittedIn(run, j) !! EverEmitted(run[..j])
  {
    PrefixInWorld(run, visible, j + 1);
    PrefixInWorld(run, visible, j);
    hide InWorld;
    hide AllKeep;
    hide FullAnswer;
    hide Covers;
    hide EverEmitted;
    CoveredThroughout(run[..j], visible[..j]);
    assert run[..j + 1][..j] == run[..j];
    CommittedWasAnswered(run[..j + 1], visible[..j + 1]);
    if run[j].events != [] {
      KeptAt(run, visible, j);
    }
    hide KeepsAtStart;
    CoveredRepeatsNothing(run[..j + 1], visible[..j + 1]);
  }

  /** What a committed cycle emitted, no later cycle emits again. */
  lemma AtMostOnce(run: seq<Cycle>, visible: seq<set<Item>>, i: nat, j: nat, key: string)
    requires InWorld(run, visible) && AllKeep(run, visible)
    requires i < j < |run| && Committed(run[i]) && Committed(run[j]) && key in EmittedIn(run, i)
    ensures key !in EmittedIn(run, j)
  {
    NothingRepeated(run, visible, j);
    EmittedInIsEver(run, i, j, key);
  }

  /** Exactly once: every event the source returns to a committed cycle is emitted by exactly one
      committed cycle, late arrivals at the boundary instant included. */
  lemma ExactlyOnce(run: seq<Cycle>, visible: seq<set<Item>>, i: nat, e: Event) returns (j: nat)
    requires InWorld(run, visible) && AllKeep(run, visible)
    requires i < |run| && Committed(run[i]) && e in run[i].events
    ensures j <= i && Committed(run[j]) && e.key in EmittedIn(run, j)
    ensures forall m | 0 <= m < |run| && m != j && Committed(run[m]) :: e.key !in EmittedIn(run, m)
  {
    if e.key in EmittedIn(run, i) {
      j := i;
    } else {
      SkippedWasEmitted(run, i, e);
      j :| 0 <= j < i && Committed(run[j]) && e.key in EmittedIn(run, j);
    }
    forall m | 0 <= m < |run| && m != j && Committed(run[m]) ensures e.key !in EmittedIn(run, m) {
      if e.key in EmittedIn(run, m) {
        if m < j { AtMostOnce(run, visible, m, j, e.key); } else { AtMostOnce(run, visible, j, m, e.key); }
      }
    }
  }

  /** The condition is exact at the end of a cycle: after a run that kept its memory so far, the next full
      answer repeats nothing if and only if the last cycle kept the memory too. */
  lemma RepeatsNothingIff(run: seq<Cycle>, visible: seq<set<Item>>, answer: Cycle)
    requires InWorld(run, visible) && run != [] && run[|run| - 1].finish.Final?
    requires AllKeep(run[..|run| - 1], visible[..|run| - 1])
    requires InWorld(run + [answer], visible + [visible[|run| - 1]]) && !answer.finish.FailedEarly?
    requires FullAnswer(answer.events, visible[|run| - 1], answer.start.value.instant.value)
    ensures KeepsAtEnd(run[..|run| - 1], run[|run| - 1], visible[|run| - 1]) <==>
            Emitted(SavedAfter(run), answer) !! EverEmitted(run)
  {
    var n := |run| - 1;
    var v := visible[n];
    var longer, seen := run + [answer], visible + [v];
    assert longer[..|run|] == run && seen[..|run|] == visible;
    CoveredThroughout(run[..n], visible[..n]);
    CoversStep(run, visible);
    if Covers(run, v) {
      CoveredRepeatsNothing(longer, seen);
    } else {
      var next := NextStart(run).value.instant.value;
      var x :| x in v && x.key in EverEmitted(run) && x.instant >= next
          && x.key !in LoadKeys(SavedAfter(run), NextStart(run));
      AnswerEmits(answer, v, SavedAfter(run), x);
    }
  }

  lemma AnswerEmits(answer: Cycle, visible: set<Item>, saved: Saved, x: Item)
    requires !answer.finish.FailedEarly? && Proper(answer.start)
    requires FullAnswer(answer.events, visible, answer.start.value.instant.value)
    requires x in From(visible, answer.start.value.instant.value) && x.key !in LoadKeys(saved, answer.start)
    ensures x.key in Emitted(saved, answer)
  {
    assert x in set y | y in Placed(answer.events);
    PlacedWithin(answer.events);
    assert Event(Some(x.instant), x.key) in Fresh(Received(answer), LoadKeys(saved, answer.start));
  }

  /** And exact at the start: where the cursor holds no start, after an early failure, a full answer
      repeats nothing if and only if the cycle starts past everything emitted. */
  lemma RepeatsNothingUnsavedIff(run: seq<Cycle>, visible: seq<set<Item>>, answer: Cycle, v: set<Item>)
    requires InWorld(run, visible) && InWorld(run + [answer], visible + [v]) && NextStart(run).None?
    requires !answer.finish.FailedEarly? && FullAnswer(answer.events, v, answer.start.value.instant.value)
    ensures KeepsAtStart(run, answer, v) <==> Emitted(SavedAfter(run), answer) !! EverEmitted(run)
  {
    var longer, seen := run + [answer], visible + [v];
    assert longer[..|run|] == run && seen[..|run|] == visible && longer[|run|] == answer && seen[|run|] == v;
    WorldFacts(run, visible);
    if KeepsAtStart(run, answer, v) {
      CoveredRepeatsNothing(longer, seen);
    } else {
      var x :| x in v && x.key in EverEmitted(run) && x.instant >= answer.start.value.instant.value;
      AnswerEmits(answer, v, SavedAfter(run), x);
    }
  }

  lemma KeysCount(items: set<Item>)
    ensures |set x | x in items :: x.key| <= |items|
  {
    if items != {} {
      var x :| x in items;
      KeysCount(items - {x});
      assert (set y | y in items :: y.key) == (set y | y in items - {x} :: y.key) + {x.key};
    }
  }

  /** How far it can go wrong: after a full answer, whatever the run before it, the next full answer
      repeats at most as many events as what may return exceeds the memory. */
  lemma RepeatsAtMostExcess(run: seq<Cycle>, visible: seq<set<Item>>, answer: Cycle, v: set<Item>)
    requires InWorld(run + [answer], visible + [v]) && run != [] && |visible| == |run|
    requires InWorld(run, visible) && run[|run| - 1].finish.Final? && run[|run| - 1].events != []
    requires !answer.finish.FailedEarly? && FullAnswer(answer.events, v, answer.start.value.instant.value)
    ensures var late := |From(visible[|run| - 1], run[|run| - 1].finish.next.value.instant.value)|;
            |Emitted(SavedAfter(run), answer) * EverEmitted(run)| <= if late <= MAX_KEYS then 0 else late - MAX_KEYS
  {
    var c, last := run[|run| - 1], visible[|run| - 1];
    var late := From(last, c.finish.next.value.instant.value);
    var kept := FullAnswerSaves(SavedAfter(run[..|run| - 1]), c, last);
    AtMost(kept, late);
    var repeated := Emitted(SavedAfter(run), answer) * EverEmitted(run);
    forall k | k in repeated ensures k in set x | x in late - kept :: x.key {
      var x := RepeatedIsLate(run, visible, answer, v, k);
      assert x in late - kept;
    }
    KeysCount(late - kept);
    Within(repeated, set x | x in late - kept :: x.key);
  }

  lemma {:induction false} Within(small: set<string>, large: set<string>)
    requires small <= large
    ensures |small| <= |large|
  {
    assert large == small + (large - small);
  }

  /** A key emitted again was visible at or after the start that the last cycle saved, and is not in the
      memory. */
  lemma RepeatedIsLate(run: seq<Cycle>, visible: seq<set<Item>>, answer: Cycle, v: set<Item>, k: string)
      returns (x: Item)
    requires InWorld(run + [answer], visible + [v]) && run != [] && |visible| == |run|
    requires InWorld(run, visible) && run[|run| - 1].finish.Final?
    requires !answer.finish.FailedEarly? && FullAnswer(answer.events, v, answer.start.value.instant.value)
    requires k in Emitted(SavedAfter(run), answer) && k in EverEmitted(run)
    ensures x in From(visible[|run| - 1], run[|run| - 1].finish.next.value.instant.value) && x.key == k
    ensures k !in LoadKeys(SavedAfter(run), run[|run| - 1].finish.next)
  {
    var longer, seen := run + [answer], visible + [v];
    assert longer[..|run|] == run && seen[..|run|] == visible;
    assert longer[|run|] == answer && seen[|run|] == v && seen[|run| - 1] == visible[|run| - 1];
    assert answer.start == NextStart(run) == run[|run| - 1].finish.next;
    WorldFacts(run, visible);
    var e :| e in Fresh(answer.events, LoadKeys(SavedAfter(run), answer.start)) && e.key == k;
    PlacedWithin(answer.events);
    x := Item(e.when.value, k);
    assert x in Placed(answer.events) && x in From(v, answer.start.value.instant.value);
    var y :| y in visible[|run| - 1] && y.key == k;
    assert y in v && x == y;
  }

  /** A concrete run that breaks the condition: the event at instant 10 is emitted, the next cycle
      is answered nothing but moves the start from 5 to 7, and the event is emitted again. */
  predicate MovedStart(one: Cycle, two: Cycle, three: Cycle) {
    && one == Cycle(Some(Stamp("0", Some(0))), [Event(Some(10), "k")], Final(Some(Stamp("5", Some(5)))))
    && two == Cycle(Some(Stamp("5", Some(5))), [], Final(Some(Stamp("7", Some(7)))))
    && three == Cycle(Some(Stamp("7", Some(7))), [Event(Some(10), "k")], Final(Some(Stamp("7", Some(7)))))
  }

  lemma MovedStartInWorld(one: Cycle, two: Cycle, three: Cycle, visible: set<Item>)
    requires visible == {Item(10, "k")} && MovedStart(one, two, three)
    ensures InWorld([one, two] + [three], [visible, visible] + [visible])
  {
    OneEventAnswered(visible, one.events, 0, 5);
    OneEventAnswered(visible, one.events, 7, 7);
    OneMoreCycle([], [], one, visible);
    assert [] + [one] == [one] && [] + [visible] == [visible];
    OneMoreCycle([one], [visible], two, visible);
    assert [one] + [two] == [one, two] && [visible] + [visible] == [visible, visible];
    OneMoreCycle([one, two], [visible, visible], three, visible);
  }

  lemma MovedStartRepeats(one: Cycle, two: Cycle, three: Cycle)
    requires MovedStart(one, two, three)
    ensures "k" in EmittedIn([one, two] + [three], 0) && "k" in EmittedIn([one, two] + [three], 2)
  {
    NoAnswerDumps(two, SavedAfter([one]));
    assert [one, two][..1] == [one];
    assert SavedAfter([one, two]) == Nothing;
    var run := [one, two] + [three];
    assert run[..0] == [] && run[..2] == [one, two];
    var e := one.events[0];
    assert e in Fresh(one.events, {}) && e in Fresh(three.events, {});
  }

  /** The other way to break it: the event at instant 10 is emitted, the next cycle fails before it reads
      the cursor, and the one after falls back on a start before the event. */
  predicate EarlyFailure(one: Cycle, two: Cycle, three: Cycle) {
    && one == Cycle(Some(Stamp("0", Some(0))), [Event(Some(10), "k")], Final(Some(Stamp("5", Some(5)))))
    && two == Cycle(None, [], FailedEarly)
    && three == Cycle(Some(Stamp("7", Some(7))), [Event(Some(10), "k")], Final(Some(Stamp("7", Some(7)))))
  }

  lemma EarlyFailureInWorld(one: Cycle, two: Cycle, three: Cycle, visible: set<Item>)
    requires visible == {Item(10, "k")} && EarlyFailure(one, two, three)
    ensures InWorld([one, two] + [three], [visible, visible] + [visible])
    ensures Keeps([], one, visible)
    ensures KeepsAtEnd([one, two], three, visible) && !KeepsAtStart([one, two], three, visible)
  {
    OneEventAnswered(visible, one.events, 0, 5);
    OneEventAnswered(visible, one.events, 7, 7);
    OneMoreCycle([], [], one, visible);
    assert [] + [one] == [one] && [] + [visible] == [visible];
    OneMoreCycle([one], [visible], two, visible);
    assert [one] + [two] == [one, two] && [visible] + [visible] == [visible, visible];
    OneMoreCycle([one, two], [visible, visible], three, visible);
    EarlyFailureRepeats(one, two, three);
    EmittedInIsEver([one, two] + [three], 0, 2, "k");
    assert ([one, two] + [three])[..2] == [one, two];
    assert Item(10, "k") in visible;
  }

  lemma EarlyFailureRepeats(one: Cycle, two: Cycle, three: Cycle)
    requires EarlyFailure(one, two, three)
    ensures "k" in EmittedIn([one, two] + [three], 0) && "k" in EmittedIn([one, two] + [three], 2)
  {
    assert [one, two][..1] == [one];
    assert SavedAfter([one, two]) == Nothing;
    var run := [one, two] + [three];
    assert run[..0] == [] && run[..2] == [one, two];
    var e := one.events[0];
    assert e in Fresh(one.events, {}) && e in Fresh(three.events, {});
  }

  lemma {:induction false} WorldPrefix(run: seq<Cycle>, visible: seq<set<Item>>, n: nat)
    requires InWorld(run, visible) && n <= |run|
    ensures InWorld(run[..n], visible[..n])
    decreases |run|
  {
    if n < |run| {
      var m := |run| - 1;
      WorldPrefix(run[..m], visible[..m], n);
      assert run[..m][..n] == run[..n] && visible[..m][..n] == visible[..n];
    } else {
      assert run[..n] == run && visible[..n] == visible;
    }
  }

  /** Until the next early failure the saved start never falls behind that of a committed cycle. */
  lemma {:induction false} StartsMoveOn(run: seq<Cycle>, visible: seq<set<Item>>, m: nat)
    requires InWorld(run, visible) && m < |run| && run[m].finish.Final?
    requires forall j :: m < j < |run| ==> !run[j].finish.FailedEarly?
    ensures Proper(NextStart(run)) && Proper(run[m].start)
    ensures NextStart(run).value.instant.value >= run[m].start.value.instant.value
    decreases |run|
  {
    hide FullAnswer;
    if m < |run| - 1 {
      StartsMoveOn(run[..|run| - 1], visible[..|run| - 1], m);
    }
  }

  /** What lies before the start of a committed cycle is not returned to it, nor to any later one up to
      the next early failure. */
  lemma BehindIsNotReturned(run: seq<Cycle>, visible: seq<set<Item>>, m: nat, i: nat, x: Item)
    requires InWorld(run, visible) && m <= i < |run| && run[m].finish.Final? && Committed(run[i])
    requires forall j :: m < j <= i ==> !run[j].finish.FailedEarly?
    requires Proper(run[m].start) && x.instant < run[m].start.value.instant.value
    ensures Event(Some(x.instant), x.key) !in run[i].events
  {
    hide FullAnswer;
    WorldPrefix(run, visible, i + 1);
    if m < i {
      WorldPrefix(run, visible, i);
      StartsMoveOn(run[..i], visible[..i], m);
      assert run[..i][m] == run[m];
    }
    assert run[..i + 1][..i] == run[..i];
    CommittedWasAnswered(run[..i + 1], visible[..i + 1]);
    hide InWorld;
    if Event(Some(x.instant), x.key) in run[i].events {
      ReturnedIsLate(run[i].events, visible[i], run[i].start.value.instant.value, Event(Some(x.instant), x.key));
    }
  }

  lemma ReturnedIsLate(events: seq<Event>, visible: set<Item>, bound: int, e: Event)
    requires FullAnswer(events, visible, bound) && e in events
    ensures e.when.Some? && e.when.value >= bound
  {
    PlacedWithin(events);
    var x := Item(e.when.value, e.key);
    assert x in set y | y in Placed(events);
    assert x in From(visible, bound);
  }

  /** So an early failure can pass over events for good: one at or after the start that was saved, but
      before the start the next cycle falls back on, is returned to no later cycle. */
  lemma EarlyFailureSkipsBacklog(run: seq<Cycle>, visible: seq<set<Item>>, m: nat, i: nat, x: Item)
    requires InWorld(run, visible) && m + 1 <= i < |run|
    requires run[m].finish.FailedEarly? && run[m + 1].finish.Final? && Committed(run[i])
    requires forall j :: m < j <= i ==> !run[j].finish.FailedEarly?
    requires Proper(NextStart(run[..m])) && NextStart(run[..m]).value.instant.value <= x.instant
    requires Proper(run[m + 1].start) && x.instant < run[m + 1].start.value.instant.value
    ensures NextStart(run[..m + 1]) == None && Event(Some(x.instant), x.key) !in run[i].events
  {
    BehindIsNotReturned(run, visible, m + 1, i, x);
  }

  /** Such a run: the event at instant 10 is visible, the saved start is 5, and after an early failure the
      next cycle starts at 20. */
  lemma SkippedBacklogInWorld(one: Cycle, two: Cycle, three: Cycle, visible: set<Item>)
    requires visible == {Item(10, "k")}
    requires one == Cycle(Some(Stamp("0", Some(0))), [], Final(Some(Stamp("5", Some(5)))))
    requires two == Cycle(None, [], FailedEarly)
    requires three == Cycle(Some(Stamp("20", Some(20))), [], Final(Some(Stamp("20", Some(20)))))
    ensures InWorld([one, two] + [three], [visible, visible] + [visible])
    ensures NextStart([one]) == Some(Stamp("5", Some(5)))
  {
    OneMoreCycle([], [], one, visible);
    assert [] + [one] == [one] && [] + [visible] == [visible];
    OneMoreCycle([one], [visible], two, visible);
    assert [one] + [two] == [one, two] && [visible] + [visible] == [visible, visible];
    OneMoreCycle([one, two], [visible, visible], three, visible);
  }

  lemma OneMoreCycle(run: seq<Cycle>, visible: seq<set<Item>>, c: Cycle, v: set<Item>)
    requires InWorld(run, visible) && KeyFixesInstant(v) && Answered(c, v)
    requires run != [] ==> visible[|run| - 1] <= v
    requires NextStart(run).Some? && !c.finish.FailedEarly? ==> c.start == NextStart(run)
    ensures InWorld(run + [c], visible + [v])
    ensures NextStart(run + [c]) ==
            if c.finish.Final? then c.finish.next else if c.finish.FailedEarly? then None else NextStart(run)
  {
    assert (run + [c])[..|run|] == run && (visible + [v])[..|run|] == visible;
  }

  lemma PlacedOne(x: Item)
    requires x.key != ""
    ensures Placed([Event(Some(x.instant), x.key)]) == [x] && DistinctKeys([x])
  {
    var e := Event(Some(x.instant), x.key);
    assert [e][..0] == [];
    assert forall y | y in multiset([x]) :: y == x;
  }

  lemma OneEventAnswered(visible: set<Item>, events: seq<Event>, from: int, next: int)
    requires visible == {Item(10, "k")} && events == [Event(Some(10), "k")] && from <= 10 && next <= 10
    ensures FullAnswer(events, visible, from) && |From(visible, next)| == 1
  {
    var x := Item(10, "k");
    PlacedOne(x);
    hide Placed;
    hide DistinctKeys;
    assert (set y | y in Placed(events)) == {x};
    assert From(visible, from) == {x} && From(visible, next) == {x};
  }
}
