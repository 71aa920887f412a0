/** Any sequence of polling cycles, failing or not: nothing is lost in silence, nothing is handed
    off twice, and every event a cycle was given is accounted for. */
module CycleRuns {
  import opened Cycle

  /** Between cycles the dedupe store may let claims expire. */
  datatype Tick = Cycled(script: Script) | Expired(ids: set<Id>)

  function Next(store: Store, t: Tick, batchSize: int): Store {
    match t
    case Cycled(s) => RunOnce(store, s, batchSize).store
    case Expired(ids) => store.(claims := store.claims - ids)
  }

  function After(history: seq<Tick>, batchSize: int): Store {
    if history == [] then Store({}, Empty, [], [])
    else Next(After(history[..|history| - 1], batchSize), history[|history| - 1], batchSize)
  }

  // ---- What one cycle keeps ----

  /** The ids a hand-off that returned disposed of: passed on, or lost by the fan-out itself. */
  function Settled(store: Store): set<Id> {
    SetOf(store.handed) + SetOf(store.lost)
  }

  /** A claim that is no longer pending belongs to an id a hand-off disposed of. */
  ghost predicate Sound(r: Run) {
    && SetOf(r.batch) <= r.unsettled <= r.store.claims
    && r.store.claims - r.unsettled <= Settled(r.store)
    && SetOf(r.yielded) <= r.store.claims
    && (!r.broken ==> r.unsettled == SetOf(r.batch) + SetOf(r.diverted) && SetOf(r.batch) !! SetOf(r.diverted))
  }

  lemma SetOfSum(a: seq<Id>, b: seq<Id>)
    ensures SetOf(a + b) == SetOf(a) + SetOf(b)
  {
  }

  /** A hand-off that returns settles its whole batch; one that raises settles nothing more. */
  lemma FlushSettles(r: Run, e: Enqueue)
    ensures Settled(r.store) <= Settled(Flush(r, e).store)
    ensures e.Returns? ==> Settled(Flush(r, e).store) == Settled(r.store) + SetOf(r.batch)
  {
    match e
    case Returns(lost) =>
      var kept, dropped := Picked(r.batch, lost, false), Picked(r.batch, lost, true);
      SetOfSum(r.store.handed, kept);
      SetOfSum(r.store.lost, dropped);
      assert forall x :: x in r.batch <==> x in kept || x in dropped;
      assert SetOf(r.batch) == SetOf(kept) + SetOf(dropped);
    case Raises(some) =>
      SetOfSum(r.store.handed, Picked(r.batch, some, true));
  }

  lemma FlushSound(r: Run, e: Enqueue)
    requires Sound(r)
    ensures Sound(Flush(r, e))
  {
    FlushSettles(r, e);
    hide Settled;
    hide Picked;
  }

  lemma TakenSound(r: Run, y: Arrival)
    requires Sound(r)
    ensures Sound(Taken(r, y))
  {
    SetOfSum(r.yielded, [y.id]);
    SetOfSum(r.batch, [y.id]);
    SetOfSum(r.diverted, [y.id]);
    assert Settled(Taken(r, y).store) == Settled(r.store);
    hide Settled;
  }

  lemma ArrivalSound(r: Run, y: Arrival, batchSize: int)
    requires Sound(r)
    ensures Sound(OnArrival(r, y, batchSize))
  {
    hide Sound;
    hide Taken;
    hide Flush;
    TakenSound(r, y);
    FlushSound(Taken(r, y), y.enqueue);
  }

  lemma {:induction false} CollectedSound(r: Run, arrivals: seq<Arrival>, batchSize: int)
    requires Sound(r)
    ensures Sound(Collected(r, arrivals, batchSize))
  {
    if arrivals != [] {
      var init := arrivals[..|arrivals| - 1];
      CollectedSound(r, init, batchSize);
      ArrivalSound(Collected(r, init, batchSize), arrivals[|arrivals| - 1], batchSize);
    }
  }

  lemma DrainedSound(store: Store, s: Script, batchSize: int)
    requires store.claims <= Settled(store)
    ensures Sound(Drained(Collected(Start(store), s.arrivals, batchSize), s))
  {
    CollectedSound(Start(store), s.arrivals, batchSize);
    FlushSound(Collected(Start(store), s.arrivals, batchSize), s.last);
  }

  /** After any cycle, failed or not, every claim left standing is of an id a hand-off disposed of; and
      a cycle that succeeds, the only kind that moves the cursor on, has handed off or deliberately
      diverted every id it was given, counting ids an earlier cycle handed off, but for those that a
      returning hand-off itself lost. */
  lemma CycleLosesNothing(store: Store, s: Script, batchSize: int)
    requires store.claims <= Settled(store)
    ensures var out := RunOnce(store, s, batchSize);
            && out.store.claims <= Settled(out.store)
            && (out.ok ==> SetOf(out.run.yielded) <= Settled(out.store) + SetOf(out.run.diverted))
  {
    if s.entry.Loads? {
      DrainedSound(store, s, batchSize);
      var r := Drained(Collected(Start(store), s.arrivals, batchSize), s);
      if !r.broken {
        assert r.batch == [];
      }
    }
  }

  lemma {:induction false} ClaimsAreSettled(history: seq<Tick>, batchSize: int)
    ensures After(history, batchSize).claims <= Settled(After(history, batchSize))
  {
    if history != [] {
      var init, t := history[..|history| - 1], history[|history| - 1];
      ClaimsAreSettled(init, batchSize);
      if t.Cycled? {
        CycleLosesNothing(After(init, batchSize), t.script, batchSize);
      }
    }
  }

  /** After a good cycle no claim is pending if and only if the cycle diverted nothing. */
  lemma PendingIff(store: Store, s: Script, batchSize: int)
    requires store.claims <= Settled(store) && RunOnce(store, s, batchSize).ok
    ensures RunOnce(store, s, batchSize).run.unsettled == {} <==> RunOnce(store, s, batchSize).run.diverted == []
  {
    DrainedSound(store, s, batchSize);
    var r := RunOnce(store, s, batchSize).run;
    assert r.unsettled == SetOf(r.diverted);
    assert r.diverted != [] ==> r.diverted[0] in SetOf(r.diverted);
  }

  /** Such a cycle: one event, quarantined; its claim is still pending when the cursor has been saved. */
  lemma GoodCycleWithPendingClaim(x: Id, next: Cursor, batchSize: int)
    ensures var s := Script(Loads, [Arrival(x, Diverted, false, Returns({}))], true, Returns({}), true, next);
            var out := RunOnce(Store({}, Empty, [], []), s, batchSize);
            out.ok && out.store.cursor == next && out.run.unsettled == {x} && out.store.claims == {}
  {
    var y := Arrival(x, Diverted, false, Returns({}));
    var start := Start(Store({}, Empty, [], []));
    assert [y][..0] == [] && Collected(start, [y], batchSize) == OnArrival(start, y, batchSize);
  }

  lemma {:induction false} LogsGrow(r: Run, arrivals: seq<Arrival>, batchSize: int)
    ensures r.store.handed <= Collected(r, arrivals, batchSize).store.handed
    ensures r.store.lost <= Collected(r, arrivals, batchSize).store.lost
  {
    if arrivals != [] {
      LogsGrow(r, arrivals[..|arrivals| - 1], batchSize);
    }
  }

  lemma {:induction false} LogsNeverShrink(history: seq<Tick>, n: nat, batchSize: int)
    requires n <= |history|
    ensures After(history[..n], batchSize).handed <= After(history, batchSize).handed
    ensures After(history[..n], batchSize).lost <= After(history, batchSize).lost
    decreases |history|
  {
    if n < |history| {
      var m := |history| - 1;
      assert history[..m][..n] == history[..n];
      LogsNeverShrink(history[..m], n, batchSize);
      if history[m].Cycled? {
        LogsGrow(Start(After(history[..m], batchSize)), history[m].script.arrivals, batchSize);
      }
    } else {
      assert history[..n] == history;
    }
  }

  /** No silent loss, over every sequence of cycles and whatever claims expire in between: an id
      given to a successful cycle has been handed off, in that cycle or before it, and stays so, or
      that cycle diverted it on purpose, or a hand-off that returned lost it and it is on that log. */
  lemma NoSilentLoss(history: seq<Tick>, i: nat, id: Id, batchSize: int)
    requires i < |history| && history[i].Cycled?
    requires RunOnce(After(history[..i], batchSize), history[i].script, batchSize).ok
    requires id in RunOnce(After(history[..i], batchSize), history[i].script, batchSize).run.yielded
    ensures (id in After(history[..i + 1], batchSize).handed && id in After(history, batchSize).handed)
            || (id in After(history[..i + 1], batchSize).lost && id in After(history, batchSize).lost)
            || id in RunOnce(After(history[..i], batchSize), history[i].script, batchSize).run.diverted
  {
    ClaimsAreSettled(history[..i], batchSize);
    CycleLosesNothing(After(history[..i], batchSize), history[i].script, batchSize);
    assert history[..i + 1][..i] == history[..i];
    LogsNeverShrink(history, i + 1, batchSize);
    assert id in SetOf(RunOnce(After(history[..i], batchSize), history[i].script, batchSize).run.yielded);
  }

  /** Every hand-off of the cycle that returns has disposed of its whole batch. */
  predicate LosesNone(s: Script) {
    && (s.last.Returns? ==> s.last.lost == {})
    && (forall i :: 0 <= i < |s.arrivals| && s.arrivals[i].enqueue.Returns? ==> s.arrivals[i].enqueue.lost == {})
  }

  lemma {:induction false} CollectedLosesNone(r: Run, arrivals: seq<Arrival>, batchSize: int)
    requires forall i :: 0 <= i < |arrivals| && arrivals[i].enqueue.Returns? ==> arrivals[i].enqueue.lost == {}
    ensures Collected(r, arrivals, batchSize).store.lost == r.store.lost
  {
    if arrivals != [] {
      CollectedLosesNone(r, arrivals[..|arrivals| - 1], batchSize);
      NonePicked(Collected(r, arrivals[..|arrivals| - 1], batchSize).batch + [arrivals[|arrivals| - 1].id]);
    }
  }

  lemma {:induction false} NonePicked(batch: seq<Id>)
    ensures Picked(batch, {}, true) == []
  {
    if batch != [] {
      NonePicked(batch[..|batch| - 1]);
    }
  }

  /** If no returning hand-off loses anything, the log of lost ids stays empty: what NoSilentLoss then
      leaves is handed off or diverted. */
  lemma {:induction false} NothingLost(history: seq<Tick>, batchSize: int)
    requires forall i :: 0 <= i < |history| && history[i].Cycled? ==> LosesNone(history[i].script)
    ensures After(history, batchSize).lost == []
  {
    if history != [] {
      var init, t := history[..|history| - 1], history[|history| - 1];
      NothingLost(init, batchSize);
      if t.Cycled? {
        CollectedLosesNone(Start(After(init, batchSize)), t.script.arrivals, batchSize);
        NonePicked(Collected(Start(After(init, batchSize)), t.script.arrivals, batchSize).batch);
      }
    }
  }

  // ---- At most once ----

  ghost predicate NoDuplicates(ids: seq<Id>) {
    forall i, j :: 0 <= i < j < |ids| ==> ids[i] != ids[j]
  }

  /** A hand-off that raises has passed on nothing. */
  predicate AllOrNothing(s: Script) {
    && (s.last.Raises? ==> s.last.passedOn == {})
    && (forall i :: 0 <= i < |s.arrivals| && s.arrivals[i].enqueue.Raises? ==> s.arrivals[i].enqueue.passedOn == {})
  }

  ghost predicate Once(r: Run) {
    && NoDuplicates(r.store.handed + r.batch)
    && SetOf(r.batch) <= r.unsettled
    && SetOf(r.store.handed) !! r.unsettled
    && SetOf(r.store.handed) + r.unsettled <= r.store.claims
  }

  lemma {:induction false} PickedOnce(before: seq<Id>, batch: seq<Id>, some: set<Id>, inside: bool)
    requires NoDuplicates(before + batch)
    ensures NoDuplicates(before + Picked(batch, some, inside))
    decreases |batch|
  {
    if batch == [] {
      assert before + [] == before + batch;
    } else {
      var init, x := batch[..|batch| - 1], batch[|batch| - 1];
      var all := before + batch;
      assert forall i :: 0 <= i < |before + init| ==> (before + init)[i] == all[i];
      PickedOnce(before, init, some, inside);
      var picked := Picked(init, some, inside);
      assert before + (picked + [x]) == before + picked + [x];
      assert all[|before + init|] == x;
      assert forall i :: 0 <= i < |before + init| ==> (before + init)[i] != x;
      assert x !in before + init && x !in before && x !in picked;
    }
  }

  lemma FlushOnce(r: Run, e: Enqueue)
    requires Once(r) && (e.Raises? ==> e.passedOn == {})
    ensures Once(Flush(r, e))
  {
    match e
    case Returns(lost) =>
      var kept := Picked(r.batch, lost, false);
      PickedOnce(r.store.handed, r.batch, lost, false);
      SetOfSum(r.store.handed, kept);
      assert r.store.handed + kept + [] == r.store.handed + kept;
    case Raises(_) =>
      NonePicked(r.batch);
      assert r.store.handed + [] == r.store.handed;
  }

  lemma TakenOnce(r: Run, y: Arrival)
    requires Once(r)
    ensures Once(Taken(r, y))
  {
    SetOfSum(r.batch, [y.id]);
    SetOfSum(r.store.handed, r.batch);
    if !r.broken && y.id !in r.store.claims && y.fate.Batched? {
      assert y.id !in SetOf(r.store.handed + r.batch);
      assert r.store.handed + Taken(r, y).batch == r.store.handed + r.batch + [y.id];
    }
  }

  lemma ArrivalOnce(r: Run, y: Arrival, batchSize: int)
    requires Once(r) && (y.enqueue.Raises? ==> y.enqueue.passedOn == {})
    ensures Once(OnArrival(r, y, batchSize))
  {
    hide Once;
    hide Taken;
    hide Flush;
    TakenOnce(r, y);
    FlushOnce(Taken(r, y), y.enqueue);
  }

  lemma {:induction false} CollectedOnce(r: Run, arrivals: seq<Arrival>, batchSize: int)
    requires Once(r)
    requires forall i :: 0 <= i < |arrivals| && arrivals[i].enqueue.Raises? ==> arrivals[i].enqueue.passedOn == {}
    ensures Once(Collected(r, arrivals, batchSize))
  {
    if arrivals != [] {
      var init := arrivals[..|arrivals| - 1];
      CollectedOnce(r, init, batchSize);
      ArrivalOnce(Collected(r, init, batchSize), arrivals[|arrivals| - 1], batchSize);
    }
  }

  /** If a hand-off that raises passes nothing on and claims do not expire, no id is handed off twice
      over any sequence of cycles. */
  lemma {:induction false} HandedOffOnce(history: seq<Tick>, batchSize: int)
    requires forall i :: 0 <= i < |history| ==> history[i].Cycled? && AllOrNothing(history[i].script)
    ensures NoDuplicates(After(history, batchSize).handed)
    ensures SetOf(After(history, batchSize).handed) <= After(history, batchSize).claims
  {
    if history != [] {
      var init, s := history[..|history| - 1], history[|history| - 1].script;
      HandedOffOnce(init, batchSize);
      var before := After(init, batchSize);
      assert before.handed + [] == before.handed;
      assert Once(Start(before));
      if s.entry.Loads? {
        CollectedOnce(Start(before), s.arrivals, batchSize);
        var r := Collected(Start(before), s.arrivals, batchSize);
        FlushOnce(r, s.last);
        var done := Drained(r, s);
        assert Once(done);
        assert NoDuplicates(done.store.handed) by {
          assert forall i :: 0 <= i < |done.store.handed| ==>
              (done.store.handed + done.batch)[i] == done.store.handed[i];
        }
      }
    }
  }

  lemma TakesOne(store: Store, x: Id, e: Enqueue)
    requires x !in store.claims
    ensures Collected(Start(store), [Arrival(x, Batched, false, e)], 1)
            == Flush(Run(store.(claims := store.claims + {x}), {x}, [x], 1, false, [x], [], [], [], []), e)
  {
    var y := Arrival(x, Batched, false, e);
    assert [y][..0] == [] && Collected(Start(store), [y], 1) == OnArrival(Start(store), y, 1);
    assert [] + [x] == [x] && {} + {x} == {x};
    hide Flush;
  }

  lemma FlushesOne(r: Run, x: Id, e: Enqueue)
    requires r.batch == [x] && r.unsettled == {x} && !r.broken && (e == Returns({}) || e == Raises({x}))
    ensures var after := Flush(r, e);
            && after.store == r.store.(handed := r.store.handed + [x]) && after.broken == e.Raises?
            && (e.Returns? ==> after.batch == [] && after.unsettled == {})
            && (e.Raises? ==> after.unsettled == {x})
  {
    PickedSnoc([], x, {}, false);
    PickedSnoc([], x, {}, true);
    PickedSnoc([], x, {x}, true);
    assert [] + [x] == [x] && r.store.lost + [] == r.store.lost;
    hide Picked;
  }

  /** A cycle over one new event, with a batch size of one. */
  lemma OneEvent(store: Store, x: Id, e: Enqueue, s: Script)
    requires x !in store.claims && (e == Returns({}) || e == Raises({x}))
    requires s.entry.Loads? && s.arrivals == [Arrival(x, Batched, false, e)] && s.ends && s.saves
    ensures RunOnce(store, s, 1).store
            == if e.Returns? then Store(store.claims + {x}, s.next, store.handed + [x], store.lost)
               else Store(store.claims, store.cursor, store.handed + [x], store.lost)
  {
    hide Collected;
    hide Flush;
    TakesOne(store, x, e);
    FlushesOne(Run(store.(claims := store.claims + {x}), {x}, [x], 1, false, [x], [], [], [], []), x, e);
    assert store.claims + {x} - {x} == store.claims && store.claims + {x} - {} == store.claims + {x};
  }

  /** Both conditions are needed: an id whose claim expired is handed off again. */
  lemma ExpiredRepeats(x: Id, good: Script)
    requires good.entry.Loads? && good.arrivals == [Arrival(x, Batched, false, Returns({}))] && good.ends && good.saves
    ensures After([] + [Cycled(good)] + [Expired({x})] + [Cycled(good)], 1).handed == [x, x]
  {
    OneEvent(Store({}, Empty, [], []), x, Returns({}), good);
    OneEvent(Store({}, good.next, [x], []), x, Returns({}), good);
    hide RunOnce;
    assert After([], 1) == Store({}, Empty, [], []);
    hide After;
    AfterSnoc([], Cycled(good), 1);
    AfterSnoc([] + [Cycled(good)], Expired({x}), 1);
    AfterSnoc([] + [Cycled(good)] + [Expired({x})], Cycled(good), 1);
    assert [] + [x] == [x] && [x] + [x] == [x, x] && {} + {x} - {x} == {};
  }

  /** And so is an id that a hand-off passed on before it raised. */
  lemma RaisedRepeats(x: Id, good: Script, bad: Script)
    requires good.entry.Loads? && good.arrivals == [Arrival(x, Batched, false, Returns({}))] && good.ends && good.saves
    requires bad.entry.Loads? && bad.arrivals == [Arrival(x, Batched, false, Raises({x}))] && bad.ends && bad.saves
    ensures After([] + [Cycled(bad)] + [Cycled(good)], 1).handed == [x, x]
  {
    OneEvent(Store({}, Empty, [], []), x, Raises({x}), bad);
    OneEvent(Store({}, Empty, [x], []), x, Returns({}), good);
    hide RunOnce;
    assert After([], 1) == Store({}, Empty, [], []);
    hide After;
    AfterSnoc([], Cycled(bad), 1);
    AfterSnoc([] + [Cycled(bad)], Cycled(good), 1);
    assert [] + [x] == [x] && [x] + [x] == [x, x];
  }

  lemma AfterSnoc(history: seq<Tick>, t: Tick, batchSize: int)
    ensures After(history + [t], batchSize) == Next(After(history, batchSize), t, batchSize)
  {
    assert (history + [t])[..|history|] == history;
  }

  // ---- Conservation ----

  ghost predicate Balanced(r: Run, before: Store) {
    !r.broken ==>
      && multiset(r.yielded) == multiset(r.deduped) + multiset(r.diverted) + multiset(r.passed) + multiset(r.dropped)
                                + multiset(r.batch)
      && r.store.handed == before.handed + r.passed
      && r.store.lost == before.lost + r.dropped
      && r.count == |r.passed| + |r.dropped| + |r.batch|
  }

  lemma PickedSnoc(init: seq<Id>, x: Id, some: set<Id>, inside: bool)
    ensures Picked(init + [x], some, inside) ==
            if x in some <==> inside then Picked(init, some, inside) + [x] else Picked(init, some, inside)
  {
    assert (init + [x])[..|init|] == init;
  }

  lemma {:induction false} PickedBalanced(batch: seq<Id>, some: set<Id>)
    ensures multiset(batch) == multiset(Picked(batch, some, true)) + multiset(Picked(batch, some, false))
    ensures |batch| == |Picked(batch, some, true)| + |Picked(batch, some, false)|
  {
    if batch != [] {
      var init, x := batch[..|batch| - 1], batch[|batch| - 1];
      assert batch == init + [x];
      PickedBalanced(init, some);
      PickedSnoc(init, x, some, true);
      PickedSnoc(init, x, some, false);
      hide Picked;
    }
  }

  lemma FlushBalanced(r: Run, e: Enqueue, before: Store)
    requires Balanced(r, before)
    ensures Balanced(Flush(r, e), before)
  {
    if e.Returns? {
      var kept, dropped := Picked(r.batch, e.lost, false), Picked(r.batch, e.lost, true);
      PickedBalanced(r.batch, e.lost);
      assert before.handed + r.passed + kept == before.handed + (r.passed + kept);
      assert before.lost + r.dropped + dropped == before.lost + (r.dropped + dropped);
    }
    hide Picked;
  }

  /** One more event, under exactly one heading. */
  lemma OneMoreBalanced(r: Run, after: Run, x: Id, before: Store)
    requires Balanced(r, before) && !r.broken && !after.broken
    requires after.yielded == r.yielded + [x] && after.passed == r.passed && after.dropped == r.dropped
    requires after.store.handed == r.store.handed && after.store.lost == r.store.lost
    requires || (after.deduped == r.deduped + [x] && after.diverted == r.diverted && after.batch == r.batch)
             || (after.deduped == r.deduped && after.diverted == r.diverted + [x] && after.batch == r.batch)
             || (after.deduped == r.deduped && after.diverted == r.diverted && after.batch == r.batch + [x])
    requires after.count == r.count + |after.batch| - |r.batch|
    ensures Balanced(after, before)
  {
  }

  lemma TakenBalanced(r: Run, y: Arrival, before: Store)
    requires Balanced(r, before)
    ensures Balanced(Taken(r, y), before)
  {
    var after := Taken(r, y);
    if !after.broken {
      OneMoreBalanced(r, after, y.id, before);
    }
  }

  lemma ArrivalBalanced(r: Run, y: Arrival, batchSize: int, before: Store)
    requires Balanced(r, before)
    ensures Balanced(OnArrival(r, y, batchSize), before)
  {
    hide Balanced;
    hide Taken;
    hide Flush;
    TakenBalanced(r, y, before);
    FlushBalanced(Taken(r, y), y.enqueue, before);
  }

  lemma {:induction false} CollectedBalanced(before: Store, arrivals: seq<Arrival>, batchSize: int)
    ensures Balanced(Collected(Start(before), arrivals, batchSize), before)
  {
    if arrivals == [] {
      assert before.handed + [] == before.handed && before.lost + [] == before.lost;
    } else {
      var init := arrivals[..|arrivals| - 1];
      CollectedBalanced(before, init, batchSize);
      ArrivalBalanced(Collected(Start(before), init, batchSize), arrivals[|arrivals| - 1], batchSize, before);
    }
  }

  function Ids(arrivals: seq<Arrival>): seq<Id> {
    seq(|arrivals|, i requires 0 <= i < |arrivals| => arrivals[i].id)
  }

  /** A successful cycle accounts for everything it was given: each event was dropped as a duplicate,
      diverted, handed off or lost by a returning hand-off, once each, in the counts and in the logs. */
  lemma Conservation(before: Store, s: Script, batchSize: int)
    requires RunOnce(before, s, batchSize).ok
    ensures var out := RunOnce(before, s, batchSize);
            && out.run.yielded == Ids(s.arrivals)
            && multiset(Ids(s.arrivals)) == multiset(out.run.deduped) + multiset(out.run.diverted)
                                            + multiset(out.run.passed) + multiset(out.run.dropped)
            && out.store.handed == before.handed + out.run.passed
            && out.store.lost == before.lost + out.run.dropped
            && out.run.count == |out.run.passed| + |out.run.dropped|
  {
    CollectedBalanced(before, s.arrivals, batchSize);
    FlushBalanced(Collected(Start(before), s.arrivals, batchSize), s.last, before);
    YieldedAll(Start(before), s.arrivals, batchSize);
    assert [] + Ids(s.arrivals) == Ids(s.arrivals);
  }

  lemma {:induction false} YieldedAll(r: Run, arrivals: seq<Arrival>, batchSize: int)
    requires !Collected(r, arrivals, batchSize).broken
    ensures !r.broken && Collected(r, arrivals, batchSize).yielded == r.yielded + Ids(arrivals)
  {
    if arrivals != [] {
      var init, y := arrivals[..|arrivals| - 1], arrivals[|arrivals| - 1];
      YieldedAll(r, init, batchSize);
      ArrivalYields(Collected(r, init, batchSize), y, batchSize);
      assert r.yielded + Ids(arrivals) == r.yielded + Ids(init) + [y.id];
      hide OnArrival;
    }
  }

  lemma ArrivalYields(r: Run, y: Arrival, batchSize: int)
    ensures r.broken ==> OnArrival(r, y, batchSize).broken
    ensures !r.broken ==> OnArrival(r, y, batchSize).yielded == r.yielded + [y.id]
  {
  }

  // ---- Where the code does less than its comments say ----

  /** A cycle that does not succeed leaves the stored cursor as it was exactly if it did not fail before
      reading it, or the cursor was empty: failing earlier, it overwrites the stored position. */
  lemma CursorRestoredIff(store: Store, s: Script, batchSize: int)
    requires !RunOnce(store, s, batchSize).ok
    ensures RunOnce(store, s, batchSize).store.cursor == store.cursor <==> !s.entry.FailsEarly? || store.cursor == Empty
  {
  }
}
