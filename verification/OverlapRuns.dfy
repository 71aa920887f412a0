/** What overlapping cycles keep all the same, and a run in which they lose an event. */
module OverlapRuns {
  import opened Cycle
  import opened CycleOverlap
  import CycleRuns

  // ---- At most once, overlapping or not ----

  /** A hand-off that raises has passed on nothing. */
  predicate PassesAllOrNone(e: Enqueue) {
    e.Raises? ==> e.passedOn == {}
  }

  /** Claims do not expire, and hand-offs pass on all or nothing. */
  predicate Orderly(step: Step) {
    match step
    case Claim(_, y) => PassesAllOrNone(y.enqueue)
    case Drain(_, s) => PassesAllOrNone(s.last)
    case Expire(_) => false
    case _ => true
  }

  /** A claim belongs to one cycle alone, or to an id that is settled. */
  ghost predicate Exclusive(w: World) {
    && CycleRuns.NoDuplicates(w.store.handed) && SetOf(w.store.handed) <= w.store.claims
    && (forall c | c in w.active :: Owns(w, w.active[c].run))
    && (forall c | c in w.active && w.active[c].phase.Due? :: PassesAllOrNone(w.active[c].phase.e))
    && (forall c, d | c in w.active && d in w.active && c != d ::
          w.active[c].run.unsettled !! w.active[d].run.unsettled)
  }

  ghost predicate Owns(w: World, r: Run) {
    && CycleRuns.NoDuplicates(r.batch) && SetOf(r.batch) <= r.unsettled <= w.store.claims
    && SetOf(w.store.handed) !! r.unsettled
  }

  lemma Joined(a: seq<Id>, b: seq<Id>)
    ensures CycleRuns.NoDuplicates(a + b) <==>
            CycleRuns.NoDuplicates(a) && CycleRuns.NoDuplicates(b) && SetOf(a) !! SetOf(b)
  {
    var ab := a + b;
    if CycleRuns.NoDuplicates(ab) {
      assert forall i :: 0 <= i < |a| ==> a[i] == ab[i];
      assert forall i :: 0 <= i < |b| ==> b[i] == ab[|a| + i];
    } else {
      var i, j :| 0 <= i < j < |ab| && ab[i] == ab[j];
      if i < |a| <= j {
        assert ab[i] in SetOf(a) && ab[i] in SetOf(b);
      }
    }
  }

  lemma OwnsIsOnce(w: World, c: CycleId)
    requires Exclusive(w) && c in w.active
    ensures CycleRuns.Once(View(w, c))
  {
    Joined(w.store.handed, w.active[c].run.batch);
  }

  /** A cycle's own step takes only claims that were free, and hands off only what it held. */
  ghost predicate TakesOwn(before: Run, after: Run) {
    && CycleRuns.Once(after) && before.store.claims <= after.store.claims
    && after.unsettled <= before.unsettled + (after.store.claims - before.store.claims)
    && SetOf(after.store.handed) <= SetOf(before.store.handed) + before.unsettled
  }

  lemma TakenTakesOwn(r: Run, y: Arrival)
    requires CycleRuns.Once(r)
    ensures TakesOwn(r, Taken(r, y))
  {
    CycleRuns.TakenOnce(r, y);
    hide CycleRuns.Once;
  }

  lemma FlushTakesOwn(r: Run, e: Enqueue)
    requires CycleRuns.Once(r) && PassesAllOrNone(e)
    ensures TakesOwn(r, Flush(r, e))
  {
    CycleRuns.FlushOnce(r, e);
    CycleRuns.NonePicked(r.batch);
    if e.Returns? {
      CycleRuns.SetOfSum(r.store.handed, Picked(r.batch, e.lost, false));
    }
  }

  lemma DrainTakesOwn(r: Run, s: Script)
    requires CycleRuns.Once(r) && PassesAllOrNone(s.last)
    ensures TakesOwn(r, Drained(r, s))
  {
    FlushTakesOwn(r, s.last);
    hide Flush;
  }

  lemma MovedExclusive(w: World, c: CycleId, r: Run, phase: Phase)
    requires Exclusive(w) && c in w.active && TakesOwn(View(w, c), r)
    requires phase.Due? ==> PassesAllOrNone(phase.e)
    ensures Exclusive(Moved(w, c, r, phase))
  {
    var after := Moved(w, c, r, phase);
    Joined(r.store.handed, r.batch);
    forall d | d in w.active && d != c
      ensures Owns(after, w.active[d].run) && r.unsettled !! w.active[d].run.unsettled
    {
      assert w.active[c].run.unsettled !! w.active[d].run.unsettled;
      assert Owns(w, w.active[d].run);
    }
    hide CycleRuns.NoDuplicates;
  }

  lemma NextExclusive(w: World, step: Step, batchSize: int)
    requires Exclusive(w) && Invariant(w) && Orderly(step)
    ensures Exclusive(Next(w, step, batchSize))
  {
    match step
    case Claim(c, y) =>
      if IsCollecting(w, c) {
        OwnsIsOnce(w, c);
        TakenTakesOwn(View(w, c), y);
        hide Exclusive;
        hide Taken;
        hide TakesOwn;
        var phase := if Triggers(View(w, c), y, batchSize) then Due(y.enqueue) else Collecting;
        MovedExclusive(w, c, Taken(View(w, c), y), phase);
      }
    case HandOff(c) =>
      if c in w.active && w.active[c].phase.Due? {
        OwnsIsOnce(w, c);
        FlushTakesOwn(View(w, c), w.active[c].phase.e);
        hide Exclusive;
        hide Flush;
        hide TakesOwn;
        MovedExclusive(w, c, Flush(View(w, c), w.active[c].phase.e), Collecting);
      }
    case Drain(c, s) =>
      if IsCollecting(w, c) {
        OwnsIsOnce(w, c);
        DrainTakesOwn(View(w, c), s);
        hide Exclusive;
        hide Drained;
        hide TakesOwn;
        MovedExclusive(w, c, Drained(View(w, c), s), Finished);
      }
    case Save(c, s) => SaveExclusive(w, c, s, batchSize);
    case FailEarly(c) => SaveExclusive(w, c, Script(Loads, [], true, Returns({}), true, Empty), batchSize);
    case Release(c) => ReleaseExclusive(w, c, batchSize);
    case Begin(c) => BeginExclusive(w, c, batchSize);
    case Expire(_) =>
  }

  lemma ReleaseExclusive(w: World, c: CycleId, batchSize: int)
    requires Exclusive(w)
    ensures Exclusive(Next(w, Release(c), batchSize))
  {
    var after := Next(w, Release(c), batchSize);
    hide CycleRuns.NoDuplicates;
    if after != w {
      assert Owns(w, w.active[c].run);
      forall d | d in after.active ensures Owns(after, after.active[d].run) {
        assert Owns(w, w.active[d].run) && w.active[c].run.unsettled !! w.active[d].run.unsettled;
      }
    }
  }

  lemma BeginExclusive(w: World, c: CycleId, batchSize: int)
    requires Exclusive(w) && Booked(w)
    ensures Exclusive(Next(w, Begin(c), batchSize))
  {
    var after := Next(w, Begin(c), batchSize);
    hide CycleRuns.NoDuplicates;
    if after != w {
      EmptyOwns(after, w.store);
      forall d | d in w.active ensures Owns(after, w.active[d].run) {
        assert Owns(w, w.active[d].run);
      }
    }
  }

  lemma SaveExclusive(w: World, c: CycleId, s: Script, batchSize: int)
    requires Exclusive(w)
    ensures Exclusive(Next(w, Save(c, s), batchSize)) && Exclusive(Next(w, FailEarly(c), batchSize))
  {
    hide CycleRuns.NoDuplicates;
    var after := Next(w, Save(c, s), batchSize);
    forall d | d in w.active ensures Owns(after, after.active[d].run) {
      assert Owns(w, w.active[d].run);
    }
  }

  lemma EmptyOwns(w: World, store: Store)
    ensures Owns(w, Start(store))
  {
  }

  lemma {:induction false} ExclusiveAlways(steps: seq<Step>, batchSize: int)
    requires forall i :: 0 <= i < |steps| ==> Orderly(steps[i])
    ensures Exclusive(After(steps, batchSize))
  {
    if steps != [] {
      var init := steps[..|steps| - 1];
      ExclusiveAlways(init, batchSize);
      Invariants(init, batchSize);
      NextExclusive(After(init, batchSize), steps[|steps| - 1], batchSize);
    }
  }

  /** If claims do not expire and a hand-off that raises passes nothing on, no id is handed off twice in
      any interleaving of cycles. */
  lemma HandedOffOnceOverlapping(steps: seq<Step>, batchSize: int)
    requires forall i :: 0 <= i < |steps| ==> Orderly(steps[i])
    ensures CycleRuns.NoDuplicates(After(steps, batchSize).store.handed)
  {
    ExclusiveAlways(steps, batchSize);
  }

  lemma NewBegins()
    ensures var w := Next(NEW_WORLD, Begin(0), 1);
            && 0 in w.active && w.active[0].phase.Collecting? && !w.active[0].run.broken && w.active[0].run.batch == []
            && w.store == Store({}, Empty, [], [])
  {
  }

  lemma Expires(w: World, ids: set<Id>)
    ensures var after := Next(w, Expire(ids), 1);
            && after.active == w.active && after.store.handed == w.store.handed
            && after.store.claims == w.store.claims - ids
  {
  }

  /** A new cycle hands the event off, and its claim expires. */
  lemma HandedAndExpired(x: Id, y: Arrival)
    requires y == Arrival(x, Batched, false, Returns({}))
    ensures var handed := Next(Next(Next(NEW_WORLD, Begin(0), 1), Claim(0, y), 1), HandOff(0), 1);
            var w := Next(handed, Expire({x}), 1);
            && 0 in w.active && w.active[0].phase.Collecting? && !w.active[0].run.broken && w.active[0].run.batch == []
            && x !in w.store.claims && w.store.handed == [x]
  {
    hide *;
    NewBegins();
    HandsOver(Next(NEW_WORLD, Begin(0), 1), y);
    Expires(Next(Next(Next(NEW_WORLD, Begin(0), 1), Claim(0, y), 1), HandOff(0), 1), {x});
    assert [] + [x] == [x];
  }

  /** And it needs the claims to stand: one that expires lets even the same cycle hand an id off again. */
  lemma ExpiryRepeats(x: Id, y: Arrival)
    requires y == Arrival(x, Batched, false, Returns({}))
    ensures var once := [] + [Begin(0)] + [Claim(0, y)] + [HandOff(0)];
            After(once + [Expire({x})] + [Claim(0, y)] + [HandOff(0)], 1).store.handed == [x, x]
  {
    var once := [] + [Begin(0)] + [Claim(0, y)] + [HandOff(0)];
    var steps := once + [Expire({x})] + [Claim(0, y)] + [HandOff(0)];
    assert From(NEW_WORLD, [], 1) == NEW_WORLD && After(steps, 1) == From(NEW_WORLD, steps, 1);
    hide *;
    HandedAndExpired(x, y);
    TwoSteps(NEW_WORLD, [], Begin(0), Claim(0, y), 1);
    TwoSteps(NEW_WORLD, [] + [Begin(0)] + [Claim(0, y)], HandOff(0), Expire({x}), 1);
    TwoSteps(NEW_WORLD, once + [Expire({x})], Claim(0, y), HandOff(0), 1);
    HandsOver(From(NEW_WORLD, once + [Expire({x})], 1), y);
    assert [x] + [x] == [x, x];
  }

  lemma HandsOver(w: World, y: Arrival)
    requires 0 in w.active && w.active[0].phase.Collecting? && !w.active[0].run.broken && w.active[0].run.batch == []
    requires y.id !in w.store.claims && y.fate.Batched? && y.enqueue == Returns({})
    ensures var after := Next(Next(w, Claim(0, y), 1), HandOff(0), 1);
            && after.store.handed == w.store.handed + [y.id] && after.store.claims == w.store.claims + {y.id}
            && 0 in after.active && after.active[0].phase.Collecting? && !after.active[0].run.broken
            && after.active[0].run.batch == []
  {
    CycleRuns.PickedSnoc([], y.id, {}, false);
    assert [] + [y.id] == [y.id];
    hide Picked;
  }

  // ---- Where the stored cursor stands ----

  /** A step that writes the cursor: the save of a cycle that has drained, or an early failure. */
  predicate WritesCursor(w: World, step: Step) {
    match step
    case FailEarly(c) => c !in w.used
    case Save(c, _) => c in w.active && w.active[c].phase.Finished?
    case _ => false
  }

  /** What it writes: nothing, where the collector ended, or what the cycle had read. */
  function CursorWritten(w: World, step: Step): Cursor
    requires WritesCursor(w, step)
  {
    match step
    case FailEarly(_) => Empty
    case Save(c, s) => if w.active[c].run.broken || !s.saves then w.active[c].before else s.next
  }

  lemma FlushKeepsCursor(r: Run, e: Enqueue)
    ensures Flush(r, e).store.cursor == r.store.cursor
  {
  }

  lemma CursorStep(w: World, step: Step, batchSize: int)
    ensures Next(w, step, batchSize).store.cursor
            == if WritesCursor(w, step) then CursorWritten(w, step) else w.store.cursor
  {
    hide Flush;
    match step
    case HandOff(c) =>
      if c in w.active && w.active[c].phase.Due? {
        FlushKeepsCursor(View(w, c), w.active[c].phase.e);
      }
    case Drain(c, s) =>
      if c in w.active {
        FlushKeepsCursor(View(w, c), s.last);
      }
    case _ =>
  }

  /** In every interleaving the stored cursor is what the last step that writes it wrote, whichever cycle
      took that step and however many others are under way. */
  lemma {:induction false} CursorOfLastWrite(steps: seq<Step>, i: nat, batchSize: int)
    requires i < |steps| && WritesCursor(After(steps[..i], batchSize), steps[i])
    requires forall j: nat :: i < j < |steps| ==> !WritesCursor(After(steps[..j], batchSize), steps[j])
    ensures After(steps, batchSize).store.cursor == CursorWritten(After(steps[..i], batchSize), steps[i])
    decreases |steps|
  {
    var m := |steps| - 1;
    CursorStep(After(steps[..m], batchSize), steps[m], batchSize);
    if i < m {
      assert steps[..m][..i] == steps[..i];
      forall j: nat | i < j < m ensures !WritesCursor(After(steps[..m][..j], batchSize), steps[..m][j]) {
        assert steps[..m][..j] == steps[..j];
      }
      CursorOfLastWrite(steps[..m], i, batchSize);
      hide Next;
      hide WritesCursor;
    }
  }

  /** What a cycle puts back is the cursor as it stood when that cycle began. */
  lemma {:induction false} ReadAtBegin(steps: seq<Step>, c: CycleId, batchSize: int) returns (k: nat)
    requires c in After(steps, batchSize).active
    ensures k < |steps| && steps[k] == Begin(c) && c !in After(steps[..k], batchSize).used
    ensures After(steps, batchSize).active[c].before == After(steps[..k], batchSize).store.cursor
  {
    var m := |steps| - 1;
    var w := After(steps[..m], batchSize);
    if steps[m] == Begin(c) && c !in w.used {
      k := m;
    } else {
      hide Taken;
      hide Flush;
      hide Drained;
      assert c in w.active && After(steps, batchSize).active[c].before == w.active[c].before;
      k := ReadAtBegin(steps[..m], c, batchSize);
      assert steps[..m][..k] == steps[..k];
    }
  }

  // ---- A run that loses an event ----

  /** Cycle 0 alone has it. */
  function FirstHas(x: Id): World {
    var store := Store({x}, Empty, [], []);
    var zero := Run(store, {x}, [x], 1, false, [x], [], [], [], []);
    World(store, {}, map[0 := Active(zero, Empty, Collecting)], {0}, map[])
  }

  /** Both cycles were given the id; cycle 0 claimed it and has it in its batch. */
  function BothHave(x: Id): World {
    var store := Store({x}, Empty, [], []);
    var zero := Run(store, {x}, [x], 1, false, [x], [], [], [], []);
    var one := Run(store, {}, [], 0, false, [x], [x], [], [], []);
    World(store, {}, map[0 := Active(zero, Empty, Collecting), 1 := Active(one, Empty, Collecting)], {0, 1}, map[])
  }

  /** Cycle 0 failed and released its claim; cycle 1 is about to end. */
  function OneLeft(x: Id): World {
    var store := Store({}, Empty, [], []);
    var full := Store({x}, Empty, [], []);
    var zero := Run(full, {x}, [x], 1, true, [x], [], [], [], []);
    var one := Run(full, {}, [], 0, false, [x], [x], [], [], []);
    World(store, {}, map[1 := Active(one, Empty, Collecting)], {0, 1}, map[0 := Outcome(full, false, zero)])
  }

  lemma FirstTakesIt(x: Id, y: Arrival, batchSize: int)
    requires batchSize > 1 && y == Arrival(x, Batched, false, Returns({}))
    ensures Next(Next(NEW_WORLD, Begin(0), batchSize), Claim(0, y), batchSize) == FirstHas(x)
  {
    var w := Next(Next(NEW_WORLD, Begin(0), batchSize), Claim(0, y), batchSize);
    var r, goal := w.active[0].run, FirstHas(x).active[0].run;
    assert r.store.claims == goal.store.claims && r.unsettled == goal.unsettled;
    assert r.batch == goal.batch && r.yielded == goal.yielded;
    assert w.active == FirstHas(x).active && w.used == FirstHas(x).used && w.setAside == {};
  }

  lemma SecondTakesIt(x: Id, y: Arrival, batchSize: int)
    requires y == Arrival(x, Batched, false, Returns({}))
    ensures Next(Next(FirstHas(x), Begin(1), batchSize), Claim(1, y), batchSize) == BothHave(x)
  {
    var w := Next(Next(FirstHas(x), Begin(1), batchSize), Claim(1, y), batchSize);
    var r, goal := w.active[1].run, BothHave(x).active[1].run;
    assert r.store.claims == goal.store.claims && r.yielded == goal.yielded && r.deduped == goal.deduped;
    assert w.active == BothHave(x).active && w.used == BothHave(x).used && w.setAside == {};
  }

  lemma FirstFails(x: Id, fails: Script, batchSize: int)
    requires !fails.ends
    ensures Next(Next(Next(BothHave(x), Drain(0, fails), batchSize), Save(0, fails), batchSize), Release(0), batchSize)
            == OneLeft(x)
  {
    var saved := Next(Next(BothHave(x), Drain(0, fails), batchSize), Save(0, fails), batchSize);
    assert saved.setAside == {} && saved.done == OneLeft(x).done;
    var w := Next(saved, Release(0), batchSize);
    assert w.active == OneLeft(x).active && w.store.claims == {};
  }

  lemma SecondEnds(x: Id, ends: Script, batchSize: int)
    requires ends.ends && ends.saves
    ensures var w := Next(Next(OneLeft(x), Drain(1, ends), batchSize), Save(1, ends), batchSize);
            Lost(w, 1, x) && w.store.cursor == ends.next && x !in w.store.claims
  {
  }

  /** It takes both an overlap and a failure: cycle 0 claims an id, cycle 1 over the same window drops it
      as a duplicate, 0 fails and releases its claim, and 1 succeeds and moves the cursor past an id that
      nobody disposed of. */
  lemma OverlappingCyclesLose(x: Id, past: Cursor, batchSize: int) returns (steps: seq<Step>)
    requires batchSize > 1 && past != Empty
    ensures var w := After(steps, batchSize); Lost(w, 1, x) && w.store.cursor == past && x !in w.store.claims
  {
    var y := Arrival(x, Batched, false, Returns({}));
    var fails := Script(Loads, [y], false, Returns({}), true, past);
    var ends := Script(Loads, [y], true, Returns({}), true, past);
    var one := [] + [Begin(0)] + [Claim(0, y)];
    var two := one + [Begin(1)] + [Claim(1, y)];
    var three := two + [Drain(0, fails)] + [Save(0, fails)] + [Release(0)];
    steps := three + [Drain(1, ends)] + [Save(1, ends)];
    assert From(NEW_WORLD, [], batchSize) == NEW_WORLD && After(steps, batchSize) == From(NEW_WORLD, steps, batchSize);
    hide *;
    TwoSteps(NEW_WORLD, [], Begin(0), Claim(0, y), batchSize);
    FirstTakesIt(x, y, batchSize);
    TwoSteps(NEW_WORLD, one, Begin(1), Claim(1, y), batchSize);
    SecondTakesIt(x, y, batchSize);
    TwoSteps(NEW_WORLD, two, Drain(0, fails), Save(0, fails), batchSize);
    FromSnoc(NEW_WORLD, two + [Drain(0, fails)] + [Save(0, fails)], Release(0), batchSize);
    FirstFails(x, fails, batchSize);
    TwoSteps(NEW_WORLD, three, Drain(1, ends), Save(1, ends), batchSize);
    SecondEnds(x, ends, batchSize);
  }

  lemma TwoSteps(w: World, steps: seq<Step>, a: Step, b: Step, batchSize: int)
    ensures From(w, steps + [a] + [b], batchSize) == Next(Next(From(w, steps, batchSize), a, batchSize), b, batchSize)
  {
    FromSnoc(w, steps, a, batchSize);
    FromSnoc(w, steps + [a], b, batchSize);
  }
}
