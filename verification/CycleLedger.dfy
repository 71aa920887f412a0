/** What a polling cycle did with each event it was given, read off the events alone: which were
    duplicates, which were diverted, which went into a batch, in what order; when it succeeds; and where
    the stored cursor stands after any sequence of cycles. */
module CycleLedger {
  import opened Cycle
  import opened CycleRuns

  /** The first arrival of an id that nobody had claimed before the cycle. */
  predicate FirstTime(claimed: set<Id>, arrivals: seq<Arrival>, i: nat)
    requires i < |arrivals|
  {
    arrivals[i].id !in claimed && forall j :: 0 <= j < i ==> arrivals[j].id != arrivals[i].id
  }

  /** The ids that arrive for the first time and meet this fate, in order. */
  function Firsts(claimed: set<Id>, arrivals: seq<Arrival>, fate: Fate): seq<Id> {
    if arrivals == [] then []
    else
      var m := |arrivals| - 1;
      Firsts(claimed, arrivals[..m], fate)
      + if FirstTime(claimed, arrivals, m) && arrivals[m].fate == fate then [arrivals[m].id] else []
  }

  /** The ids that arrive again, or were claimed before the cycle, in order. */
  function Repeats(claimed: set<Id>, arrivals: seq<Arrival>): seq<Id> {
    if arrivals == [] then []
    else
      var m := |arrivals| - 1;
      Repeats(claimed, arrivals[..m]) + if FirstTime(claimed, arrivals, m) then [] else [arrivals[m].id]
  }

  lemma CollectedSnoc(before: Store, arrivals: seq<Arrival>, batchSize: int)
    requires arrivals != []
    ensures var m := |arrivals| - 1;
            Collected(Start(before), arrivals, batchSize)
            == OnArrival(Collected(Start(before), arrivals[..m], batchSize), arrivals[m], batchSize)
  {
  }

  /** One arrival, as long as nothing has failed. */
  lemma ArrivalClaims(r: Run, y: Arrival, batchSize: int)
    requires !OnArrival(r, y, batchSize).broken
    ensures !r.broken && OnArrival(r, y, batchSize).store.claims == r.store.claims + {y.id}
  {
  }

  /** While nothing has failed the claims are the old ones and every id given so far. */
  lemma {:induction false} ClaimsEveryArrival(before: Store, arrivals: seq<Arrival>, batchSize: int)
    requires !Collected(Start(before), arrivals, batchSize).broken
    ensures Collected(Start(before), arrivals, batchSize).store.claims == before.claims + SetOf(Ids(arrivals))
  {
    if arrivals != [] {
      var m := |arrivals| - 1;
      CollectedSnoc(before, arrivals, batchSize);
      ArrivalClaims(Collected(Start(before), arrivals[..m], batchSize), arrivals[m], batchSize);
      ClaimsEveryArrival(before, arrivals[..m], batchSize);
      hide Collected;
      hide OnArrival;
      assert Ids(arrivals) == Ids(arrivals[..m]) + [arrivals[m].id];
      SetOfSum(Ids(arrivals[..m]), [arrivals[m].id]);
      assert SetOf([arrivals[m].id]) == {arrivals[m].id};
      hide SetOf;
      hide Ids;
    }
  }

  lemma UnseenIsFirstTime(before: Store, arrivals: seq<Arrival>, i: nat, batchSize: int)
    requires i < |arrivals| && !Collected(Start(before), arrivals[..i], batchSize).broken
    ensures arrivals[i].id !in Collected(Start(before), arrivals[..i], batchSize).store.claims
            <==> FirstTime(before.claims, arrivals, i)
  {
    ClaimsEveryArrival(before, arrivals[..i], batchSize);
    var ids := Ids(arrivals[..i]);
    forall j | 0 <= j < i ensures ids[j] == arrivals[j].id {}
    hide Collected;
  }

  /** The ledger of a cycle that has not failed, given what the events say. */
  ghost predicate Sorted(r: Run, claimed: set<Id>, arrivals: seq<Arrival>) {
    && r.yielded == Ids(arrivals)
    && r.deduped == Repeats(claimed, arrivals)
    && r.diverted == Firsts(claimed, arrivals, Diverted)
    && multiset(r.passed) + multiset(r.dropped) + multiset(r.batch) == multiset(Firsts(claimed, arrivals, Batched))
  }

  lemma ArrivalSorts(r: Run, y: Arrival, batchSize: int)
    requires !OnArrival(r, y, batchSize).broken
    ensures var after, unseen := OnArrival(r, y, batchSize), y.id !in r.store.claims;
            && after.yielded == r.yielded + [y.id]
            && after.deduped == r.deduped + (if unseen then [] else [y.id])
            && after.diverted == r.diverted + (if unseen && y.fate.Diverted? then [y.id] else [])
            && multiset(after.passed) + multiset(after.dropped) + multiset(after.batch)
               == multiset(r.passed) + multiset(r.dropped) + multiset(r.batch)
                  + multiset(if unseen && y.fate.Batched? then [y.id] else [])
            && (unseen ==> !y.fate.Raised?)
  {
    if Triggers(r, y, batchSize) {
      PickedBalanced(r.batch + [y.id], y.enqueue.lost);
    }
    hide Picked;
  }

  lemma SortedSnoc(r: Run, after: Run, claimed: set<Id>, arrivals: seq<Arrival>)
    requires arrivals != [] && Sorted(r, claimed, arrivals[..|arrivals| - 1])
    requires var m := |arrivals| - 1;
             var y, unseen := arrivals[m], FirstTime(claimed, arrivals, m);
             && after.yielded == r.yielded + [y.id]
             && after.deduped == r.deduped + (if unseen then [] else [y.id])
             && after.diverted == r.diverted + (if unseen && y.fate.Diverted? then [y.id] else [])
             && multiset(after.passed) + multiset(after.dropped) + multiset(after.batch)
                == multiset(r.passed) + multiset(r.dropped) + multiset(r.batch)
                   + multiset(if unseen && y.fate.Batched? then [y.id] else [])
    ensures Sorted(after, claimed, arrivals)
  {
    hide FirstTime;
    var m := |arrivals| - 1;
    assert Ids(arrivals) == Ids(arrivals[..m]) + [arrivals[m].id];
  }

  /** Every event is under the heading that the claims before the cycle, the earlier arrivals and its
      fate determine: deduplicated, diverted or batched, and what was batched is passed on, lost by a
      returning hand-off, or waiting. */
  lemma {:induction false} LedgerIs(before: Store, arrivals: seq<Arrival>, batchSize: int)
    requires !Collected(Start(before), arrivals, batchSize).broken
    ensures Sorted(Collected(Start(before), arrivals, batchSize), before.claims, arrivals)
  {
    if arrivals != [] {
      var m := |arrivals| - 1;
      var r, y := Collected(Start(before), arrivals[..m], batchSize), arrivals[m];
      CollectedSnoc(before, arrivals, batchSize);
      ArrivalClaims(r, y, batchSize);
      ArrivalSorts(r, y, batchSize);
      LedgerIs(before, arrivals[..m], batchSize);
      UnseenIsFirstTime(before, arrivals, m, batchSize);
      hide *;
      SortedSnoc(r, OnArrival(r, y, batchSize), before.claims, arrivals);
    }
  }

  lemma {:induction false} AllPicked(batch: seq<Id>)
    ensures Picked(batch, {}, false) == batch
  {
    if batch != [] {
      AllPicked(batch[..|batch| - 1]);
      assert batch == batch[..|batch| - 1] + [batch[|batch| - 1]];
    }
  }

  lemma ArrivalInOrder(r: Run, y: Arrival, batchSize: int)
    requires !OnArrival(r, y, batchSize).broken && (y.enqueue.Returns? ==> y.enqueue.lost == {})
    ensures var after := OnArrival(r, y, batchSize);
            after.store.handed + after.batch
            == r.store.handed + r.batch + if y.id !in r.store.claims && y.fate.Batched? then [y.id] else []
  {
    AllPicked(r.batch + [y.id]);
  }

  /** If no returning hand-off loses anything, what has been handed off and what waits in the batch are the
      events that joined a batch, in the order they arrived. */
  lemma {:induction false} HandedInOrder(before: Store, arrivals: seq<Arrival>, batchSize: int)
    requires !Collected(Start(before), arrivals, batchSize).broken
    requires forall i :: 0 <= i < |arrivals| && arrivals[i].enqueue.Returns? ==> arrivals[i].enqueue.lost == {}
    ensures var r := Collected(Start(before), arrivals, batchSize);
            r.store.handed + r.batch == before.handed + Firsts(before.claims, arrivals, Batched)
  {
    if arrivals != [] {
      var m := |arrivals| - 1;
      var r, y := Collected(Start(before), arrivals[..m], batchSize), arrivals[m];
      CollectedSnoc(before, arrivals, batchSize);
      ArrivalClaims(r, y, batchSize);
      ArrivalInOrder(r, y, batchSize);
      HandedInOrder(before, arrivals[..m], batchSize);
      UnseenIsFirstTime(before, arrivals, m, batchSize);
      hide Collected;
      hide OnArrival;
      hide FirstTime;
    }
  }

  /** The last arrival joins the batch. */
  predicate JoinsLast(claimed: set<Id>, arrivals: seq<Arrival>) {
    arrivals != [] && FirstTime(claimed, arrivals, |arrivals| - 1) && arrivals[|arrivals| - 1].fate.Batched?
  }

  /** What waits is always less than a full batch, and nothing waits after an event that joined it when the
      time was up: a batch is handed off as soon as it is due. */
  lemma {:induction false} BatchNeverOverdue(before: Store, arrivals: seq<Arrival>, batchSize: int)
    requires !Collected(Start(before), arrivals, batchSize).broken
    ensures var r := Collected(Start(before), arrivals, batchSize);
            && |r.batch| < (if batchSize >= 1 then batchSize else 1)
            && (JoinsLast(before.claims, arrivals) && arrivals[|arrivals| - 1].timeUp ==> r.batch == [])
  {
    if arrivals != [] {
      var m := |arrivals| - 1;
      CollectedSnoc(before, arrivals, batchSize);
      ArrivalClaims(Collected(Start(before), arrivals[..m], batchSize), arrivals[m], batchSize);
      BatchNeverOverdue(before, arrivals[..m], batchSize);
      UnseenIsFirstTime(before, arrivals, m, batchSize);
      hide Collected;
      hide FirstTime;
    }
  }

  // ---- When a cycle succeeds ----

  /** Processing the event raises, or the hand-off of the batch it makes due does. */
  predicate FailsAt(before: Store, arrivals: seq<Arrival>, i: nat, batchSize: int)
    requires i < |arrivals|
  {
    && FirstTime(before.claims, arrivals, i)
    && (|| arrivals[i].fate.Raised?
        || (&& arrivals[i].fate.Batched? && arrivals[i].enqueue.Raises?
            && (|Collected(Start(before), arrivals[..i], batchSize).batch| + 1 >= batchSize || arrivals[i].timeUp)))
  }

  lemma ArrivalBreaks(r: Run, y: Arrival, batchSize: int)
    ensures OnArrival(r, y, batchSize).broken <==>
            || r.broken
            || (y.id !in r.store.claims
                && (|| y.fate.Raised?
                    || (y.fate.Batched? && y.enqueue.Raises? && (|r.batch| + 1 >= batchSize || y.timeUp))))
  {
  }

  lemma {:induction false} UnbrokenIff(before: Store, arrivals: seq<Arrival>, batchSize: int)
    ensures !Collected(Start(before), arrivals, batchSize).broken
            <==> forall i :: 0 <= i < |arrivals| ==> !FailsAt(before, arrivals, i, batchSize)
  {
    if arrivals != [] {
      var m := |arrivals| - 1;
      var init := arrivals[..m];
      UnbrokenIff(before, init, batchSize);
      CollectedSnoc(before, arrivals, batchSize);
      ArrivalBreaks(Collected(Start(before), init, batchSize), arrivals[m], batchSize);
      forall i | 0 <= i < m
        ensures FailsAt(before, arrivals, i, batchSize) <==> FailsAt(before, init, i, batchSize)
      {
        assert init[..i] == arrivals[..i];
      }
      if !Collected(Start(before), init, batchSize).broken {
        UnseenIsFirstTime(before, arrivals, m, batchSize);
      }
      hide Collected;
      hide OnArrival;
      hide FirstTime;
      assert !Collected(Start(before), init, batchSize).broken ==>
          (OnArrival(Collected(Start(before), init, batchSize), arrivals[m], batchSize).broken
           <==> FailsAt(before, arrivals, m, batchSize));
    }
  }

  /** A cycle succeeds if and only if it reads the cursor, no event and no hand-off fails, the stream ends
      and the cursor is saved. */
  lemma SucceedsIff(before: Store, s: Script, batchSize: int)
    ensures RunOnce(before, s, batchSize).ok <==>
            && s.entry.Loads? && s.ends && s.saves
            && (forall i :: 0 <= i < |s.arrivals| ==> !FailsAt(before, s.arrivals, i, batchSize))
            && (Collected(Start(before), s.arrivals, batchSize).batch != [] ==> s.last.Returns?)
  {
    UnbrokenIff(before, s.arrivals, batchSize);
    hide FailsAt;
    hide Collected;
  }

  // ---- Where the stored cursor stands ----

  ghost predicate Succeeds(history: seq<Tick>, i: nat, batchSize: int)
    requires i < |history|
  {
    history[i].Cycled? && RunOnce(After(history[..i], batchSize), history[i].script, batchSize).ok
  }

  predicate EarlyFailure(t: Tick) {
    t.Cycled? && t.script.entry.FailsEarly?
  }

  /** One cycle: a success saves what the collector ended at, an early failure overwrites the stored
      position with nothing, and every other cycle leaves it. */
  lemma CursorStep(before: Store, t: Tick, batchSize: int)
    ensures Next(before, t, batchSize).cursor ==
            if t.Cycled? && RunOnce(before, t.script, batchSize).ok then t.script.next
            else if EarlyFailure(t) then Empty else before.cursor
  {
  }

  lemma SucceedsLater(history: seq<Tick>, i: nat, n: nat, batchSize: int)
    requires i < n <= |history|
    ensures Succeeds(history[..n], i, batchSize) <==> Succeeds(history, i, batchSize)
  {
    assert history[..n][..i] == history[..i];
  }

  /** After every sequence of cycles the stored cursor is where the last successful cycle ended, unless a
      cycle failed early since: then it is empty. */
  lemma {:induction false} CursorOfLastSuccess(history: seq<Tick>, i: nat, batchSize: int)
    requires i < |history| && Succeeds(history, i, batchSize)
    requires forall j :: i < j < |history| ==> !Succeeds(history, j, batchSize)
    ensures After(history, batchSize).cursor ==
            if exists j :: i < j < |history| && EarlyFailure(history[j]) then Empty else history[i].script.next
    decreases |history|
  {
    var m := |history| - 1;
    CursorStep(After(history[..m], batchSize), history[m], batchSize);
    if i < m {
      forall j | i <= j < m ensures Succeeds(history[..m], j, batchSize) <==> Succeeds(history, j, batchSize) {
        SucceedsLater(history, j, m, batchSize);
      }
      CursorOfLastSuccess(history[..m], i, batchSize);
      assert !Succeeds(history, m, batchSize);
      hide RunOnce;
    }
  }

  /** Without a success it is empty, as it was at the start. */
  lemma {:induction false} CursorWithoutSuccess(history: seq<Tick>, batchSize: int)
    requires forall j :: 0 <= j < |history| ==> !Succeeds(history, j, batchSize)
    ensures After(history, batchSize).cursor == Empty
  {
    if history != [] {
      var m := |history| - 1;
      CursorStep(After(history[..m], batchSize), history[m], batchSize);
      forall j | 0 <= j < m ensures !Succeeds(history[..m], j, batchSize) {
        SucceedsLater(history, j, m, batchSize);
      }
      CursorWithoutSuccess(history[..m], batchSize);
      assert !Succeeds(history, m, batchSize);
      hide RunOnce;
    }
  }
}
